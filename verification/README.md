# Catalogue and basket store, modelled in Dafny

This project models the core of a small catalogue-and-basket service written in JavaScript (Express). The service keeps
products and carts in memory and rewrites a JSON file after every change. The model covers:

- **`ProductManager`** (`products.dfy`, module `Products`). It holds the product list, the last allocated id and
  the product file. `init` recovers the id counter as the largest loaded id, or 0 for an empty list.
  `addProduct` takes the next id *before* it checks for a duplicate code, so a refused call still uses up an id.
  The module also covers the prefix query `getProducts(limit)`, the lookup `getProductById` and `deleteProduct`,
  which removes by index.
- **`CartManager`** (`carts.dfy`, module `Carts`). It holds the cart list, the last allocated cart id and the
  cart file. The module covers `init`, `createCart` (next id, no items) and the lookups `getCartIndexById` and
  `getCartById`.
- **The add-to-cart handler** (`carts_router.dfy`, module `CartsRouter`). The quantity defaults to 1. A missing cart
  or product is reported as not found. If the cart already has an entry for the product, that entry's quantity goes
  up; otherwise a new `{product, quantity}` entry is appended.
- **The product routes' own logic** (`products_router.dfy`, module `ProductsRouter`). This covers the start-up load
  and the field-by-field update rule of `PUT /:pid`: a field takes the request value only when that value is
  truthy, while `status` takes any defined value. It also covers the create check of `POST /`: six truthy
  required fields, and `status` defaulting to true.
- **JavaScript built-ins** (`js.dfy`, module `Js`). These are the built-ins the code relies on: `findIndex`,
  `reduce` with `Math.max`, `splice(i, 1)`, `slice(0, end)`, and truthiness.

Each manager is a class whose methods change its fields, as the JavaScript objects do. The file is a field `stored`
that holds the last written collection. It is `None` when the file is absent or unreadable. `SaveData` sets
`stored := Some(collection)`. The constructor receives the file's content in place of its path. Records are datatype
values.

The proved properties are these. Ids stay bounded by the counter (class invariant `Valid`). Adding and deleting keep
ids distinct and codes distinct. The counter recovered by `init` is the maximum loaded id. Lookups return the
*first* match, or report that there is none. Merging into a cart keeps at most one entry per product id. The merge
changes that product's quantity, and the cart's total, by exactly the requested amount (which may be negative), and
changes no other product's quantity. Adding the same product twice equals adding the sum once.

Where the intended behaviour and the code differ, the model follows the code:

- `addProduct` uses up an id even when it refuses a duplicate code.
- Every failure to read or parse the file at `init` means "keep the current state and write it out". None of them
  is an initialisation error.
- Any truthy `limit` cuts the list. That includes a negative one, which counts back from the end.
- The update cannot set a field to `0` or `""`.
- The update does not re-check codes.
- When ids are distinct, deleting the product that holds the largest id makes the counter recovered on the next
  reload fall below that id, so the id is handed out again. Ids are not reused within one run, but they can be
  across a reload (`ReloadAfterDeletingNewestReissuesItsId`).
- The carts routes never call `cartManager.init()` (src/routes/carts.router.js:6). That manager therefore starts with
  no carts and the counter at 0 whatever its file holds (`Carts.CartManager.constructor`), and its first `createCart`
  overwrites the file.
- The add-to-cart quantity is not checked for sign. A negative quantity is truthy, so src/routes/carts.router.js:48
  uses it as given and the merge lowers the entry, to 0 or below (`NegativeQuantityLowersEntry`).

## Model

| member | source | states |
|---|---|---|
| `Js.FindIndex` | src/CartManager.js:39 | the least index whose element matches, or -1 exactly when no element matches |
| `Js.MaxKey` | src/ProductManager.js:18 | the fold of `Math.max` from 0: at least every key, never negative, and either 0 or a key that occurs |
| `Js.RemoveAt` | src/ProductManager.js:69 | `splice(i, 1)`: one element shorter, elements before `i` kept, the later ones shifted down by one, the same multiset less the removed element |
| `Js.SliceTo` | src/ProductManager.js:53 | `slice(0, end)` yields a prefix of the list: `min(end, size)` items for a non-negative end, `size + end` items (at least 0) for a negative one |
| `Products.IndexOfId` | src/ProductManager.js:61 | the first position holding the id; -1 exactly when no product has it |
| `Products.LoadedLastId` | src/ProductManager.js:18 | the counter recovered from a loaded list bounds every loaded id and is 0 or one of them |
| `Products.AppendKeepsInvariants` | src/ProductManager.js:32-48 | appending a product with id counter+1 keeps ids bounded and distinct, and keeps codes distinct when its code is new |
| `Products.RemoveKeepsInvariants` | src/ProductManager.js:61-69 | removing an entry keeps ids bounded, ids distinct and codes distinct; with distinct ids the removed id is gone |
| `Products.ProductManager.constructor` | src/ProductManager.js:4-7 | a new manager has no products, counter 0, and is bound to its file |
| `Products.ProductManager.Init` | src/ProductManager.js:11-25 | a readable file replaces the list, with counter = maximum loaded id (0 if empty), and the file is kept; otherwise the state is kept and written out |
| `Products.ProductManager.SaveData` | src/ProductManager.js:27-29 | the file becomes the current list |
| `Products.ProductManager.AddProduct` | src/ProductManager.js:30-50 | the counter always advances by one; a duplicate code changes neither list nor file; otherwise the product with the new id is appended and saved; distinct ids and codes are preserved |
| `Products.ProductManager.GetProducts` | src/ProductManager.js:51-54 | a prefix of the list, never a change: the whole list for an absent or zero limit, min(limit, size) items for a positive limit, size+limit items (at least 0) for a negative one |
| `Products.ProductManager.GetProductById` | src/ProductManager.js:55-57 | nothing exactly when no product has the id; otherwise the first product with that id |
| `Products.ProductManager.DeleteProduct` | src/ProductManager.js:59-73 | an absent id is an error with no change; otherwise the first match alone is removed, order kept, and saved; invariants preserved and, with distinct ids, the id is gone |
| `Products.ReloadAfterDeletingNewestReissuesItsId` | src/ProductManager.js:18 | in a catalogue with distinct ids, removing the product that holds the largest id (above 0) leaves a counter, as recovered on reload, strictly below that id, so the id will be issued again |
| `Carts.LoadedLastCartId` | src/CartManager.js:17 | the recovered cart counter bounds every loaded cart id and is 0 or one of them |
| `Carts.AppendCartKeepsInvariants` | src/CartManager.js:29-33 | appending a cart with id counter+1 keeps cart ids bounded and distinct |
| `Carts.CartManager.constructor` | src/CartManager.js:5-10 | a new manager has no carts, counter 0, and is bound to its file |
| `Carts.CartManager.Init` | src/CartManager.js:12-22 | a readable file replaces the carts, with counter = maximum loaded cart id (0 if empty); otherwise the state is kept and written out |
| `Carts.CartManager.SaveData` | src/CartManager.js:24-26 | the file becomes the current list of carts |
| `Carts.CartManager.CreateCart` | src/CartManager.js:28-36 | returns a cart with id old counter+1 and no items, appended after the unchanged earlier carts and saved; its id was not in use; cart ids stay distinct |
| `Carts.CartManager.GetCartIndexById` | src/CartManager.js:38-40 | the least index of a cart with the id, or -1 exactly when there is none |
| `Carts.CartManager.GetCartById` | src/CartManager.js:42-45 | null exactly when no cart has the id; otherwise the cart at that index |
| `CartsRouter.RequestQuantity` | src/routes/carts.router.js:48 | the body's quantity when truthy, otherwise 1; never 0 |
| `CartsRouter.ItemIndex` | src/routes/carts.router.js:69 | the first entry for the product id, or -1 exactly when the cart has none |
| `CartsRouter.MergeAddsQuantity` | src/routes/carts.router.js:69-77 | the cart's holding of the product and its total grow by exactly the quantity; other products' holdings are unchanged; an entry is added only when the product was absent |
| `CartsRouter.MergeUpdatesInPlace` | src/routes/carts.router.js:69-77 | with an entry present, the first one gains the quantity and every other entry is unchanged; otherwise `{product, quantity}` is appended after the old entries |
| `CartsRouter.MergeKeepsOneEntryPerProduct` | src/routes/carts.router.js:69-77 | at most one entry per product id is preserved, and the product has an entry afterwards |
| `CartsRouter.MergeTwice` | src/routes/carts.router.js:69-77 | adding a product with q1 and then q2 equals adding it once with q1+q2 |
| `CartsRouter.AddTwoThenThree` | src/routes/carts.router.js:69-77 | adding 2 then 3 units to an empty cart leaves one entry with quantity 5 |
| `CartsRouter.AddProductToCart` | src/routes/carts.router.js:46-80 | a missing cart or product gives not found with no change; otherwise that cart's items become the merge, other carts are unchanged, carts are saved, and one-entry-per-product holds in every cart if it held before |
| `CartsRouter.AddToCartAsWritten` | src/routes/carts.router.js:51-60 | as written the handler never adds: not found exactly when there is no cart, and always a server error when there is one |
| `CartsRouter.AddToExistingCartFailsAsWritten` | src/routes/carts.router.js:60 | for an existing empty cart the handler as written answers with a server error, where the merge would give the cart its first entry |
| `CartsRouter.NegativeQuantityLowersEntry` | src/routes/carts.router.js:48-72 | a negative body quantity is used as given, and merging it lowers the entry's quantity (2 then -2 leaves 0) |
| `ProductsRouter.LoadCatalogue` | src/routes/products.router.js:5-7 | at start-up the catalogue is the file's list with the counter at its largest id, or empty with the file created |
| `ProductsRouter.ApplyUpdate` | src/routes/products.router.js:103-113 | each field changes only to a truthy request value and always takes one; `status` takes any defined value; id and `thumbnail` never change |
| `ProductsRouter.UpdateIsIdempotent` | src/routes/products.router.js:106-113 | applying the same update twice gives the same product as once |
| `ProductsRouter.UpdateCannotClearFields` | src/routes/products.router.js:106-112 | a body of `""` and `0` values without `status` leaves the product unchanged |
| `ProductsRouter.UpdateKeepsIdInvariants` | src/routes/products.router.js:103-113 | an update keeps ids bounded and distinct |
| `ProductsRouter.UpdateCanDuplicateCode` | src/routes/products.router.js:108 | an update can give a product another product's code, breaking code distinctness |
| `ProductsRouter.UpdateProduct` | src/routes/products.router.js:93-116 | an unknown id gives not found with no change; otherwise the first product with the id is replaced by the update rule's result and saved; the counter and id invariants are kept |
| `ProductsRouter.ValidateCreate` | src/routes/products.router.js:46-61 | a body is accepted exactly when title, description, code, price, stock and category are truthy; the arguments are those fields, with `status` true when absent |
| `ProductsRouter.PostAsWritten` | src/routes/products.router.js:58-67 | as written, no body creates a product: incomplete ones are missing fields, complete ones duplicates |
| `ProductsRouter.PostDecision` | src/routes/products.router.js:58-67 | incomplete bodies are refused; complete ones are duplicates exactly when the catalogue has the code, and created exactly when it does not |
| `ProductsRouter.PostAsWrittenRefusesNewCode` | src/routes/products.router.js:64 | a complete body with a new code on an empty catalogue is refused as written and created as intended |
| `ProductsRouter.CreateProduct` | src/routes/products.router.js:57-70 | the decision above; a refusal changes nothing; a creation appends the product with the next id and saves; distinct ids and codes preserved |
| `ProductsRouter.DeleteAsWritten` | src/routes/products.router.js:130-139 | as written, the handler removes the first product whatever the id |
| `ProductsRouter.DeleteAsWrittenRemovesWrongProduct` | src/routes/products.router.js:130-139 | deleting id 2 from ids [1, 2] removes id 1 as written, and id 2 through `deleteProduct` |

## Findings

| source | as written | input that shows it | evidently intended | confidence | as-written member | corrected member |
|---|---|---|---|---|---|---|
| src/routes/products.router.js:64 | the duplicate test reads the result of the asynchronous `getProducts(code)`, a Promise, which is always truthy, so every complete body is refused with "already exists" | body `{title:"T-Shirt", description:"desc", code:"CODE1", price:100, stock:10, category:"apparel"}` on an empty catalogue (`ProductsRouter.PostAsWrittenRefusesNewCode`) | refuse only when a product already has the code | high; not executed | `ProductsRouter.PostAsWritten` | `ProductsRouter.PostDecision` |
| src/routes/products.router.js:130-139 | the index passed to `splice` is a Promise; it converts to NaN and then to index 0, so the first product is always removed, and the -1 test never fires | ids [1, 2], `DELETE /2` (`ProductsRouter.DeleteAsWrittenRemovesWrongProduct`) | remove the first product with the id, and answer not found when there is none | high; not executed | `ProductsRouter.DeleteAsWritten` | `Products.ProductManager.DeleteProduct` |
| src/routes/carts.router.js:60 | `productManager` is never bound in the carts routes, so for an existing cart the line throws and the handler answers with a server error | an existing cart 1 and any product id (`CartsRouter.AddToExistingCartFailsAsWritten`) | resolve the product from the catalogue and merge it into the cart | high; not executed | `CartsRouter.AddToCartAsWritten` | `CartsRouter.AddProductToCart` |

## Left out

- File I/O and JSON: reading, writing, `access` and parse or stringify are not modelled. A file is its last
  written collection, and any failure to read or parse it (absent, empty, not JSON) is `None`. Write failures are
  not modelled.
- A file that parses as JSON but not as an array of records (`{}`, `null`, an array holding `null`) is not
  modelled. There `init` assigns the parsed value to the list before the counter's `reduce` throws, and the catch
  writes that value back, so the list is replaced and the counter is not recovered (src/ProductManager.js:16-23,
  src/CartManager.js:15-21).
- Asynchrony and concurrency: every operation is atomic and sequential. The model leaves out the un-awaited `init()`
  in the `ProductManager` constructor (src/ProductManager.js:8) and the lost update between interleaved whole-file
  writes.
- Express plumbing: status codes and JSON replies, the route table, the app and `listen` in src/app.js, and
  console logging are left out. A `parseInt` of a query or path parameter becomes an integer. An absent `limit`
  and a NaN one are both `None`; both are falsy and give the whole list.
- Value types: `price` and `stock` are integers, so fractional prices are not modelled. Body fields have their
  expected types, so the model does not cover a string `quantity` (`+=` would concatenate), a `null` status, or a
  non-numeric id in a loaded file (where `Math.max` gives NaN).
- Aliasing: the catalogue product pushed into a cart is the same JavaScript object, and the cart `getCartById`
  returns is the one in the manager's list. The model uses values. The handler's in-place change to the cart is
  modelled as writing the new cart back at its index. No claim is made about later product edits showing through
  a cart.
- The route `DELETE /:pid` is modelled only as written (`ProductsRouter.DeleteAsWritten`). The intended behaviour
  is `Products.ProductManager.DeleteProduct`.
- A body's `thumbnails` is display data with JavaScript truthiness (any list, or a non-empty string).
  `addProduct` stores it as `thumbnail`, while the update writes `thumbnails`. Both are kept as separate fields.
