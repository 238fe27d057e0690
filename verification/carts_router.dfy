/**
 * The add-to-cart handler of the carts routes: resolve the cart and the
 * product, then either raise the quantity of the cart's entry for that
 * product or append a new entry, and save the carts.
 */
module CartsRouter {
  import opened Js
  import opened Products
  import opened Carts

  /** What the handler answers. */
  datatype AddOutcome = CartNotFound | ProductNotFound | Added | ServerError

  /** `req.body.quantity || 1`: the requested quantity when truthy, otherwise one unit. */
  function RequestQuantity(bodyQuantity: Option<int>): (q: int)
    ensures q != 0
    ensures TruthyNumber(bodyQuantity) ==> q == bodyQuantity.value
    ensures !TruthyNumber(bodyQuantity) ==> q == 1
  {
    if TruthyNumber(bodyQuantity) then bodyQuantity.value else 1
  }

  predicate HasItemFor(items: seq<CartItem>, productId: int) {
    exists j :: 0 <= j < |items| && items[j].product.id == productId
  }

  /** At most one entry per product id. */
  predicate OneEntryPerProduct(items: seq<CartItem>) {
    forall i, j :: 0 <= i < j < |items| ==> items[i].product.id != items[j].product.id
  }

  predicate AllCartsOneEntryPerProduct(cs: seq<Cart>) {
    forall c :: c in cs ==> OneEntryPerProduct(c.products)
  }

  /** `items.findIndex(item => item.product.id === productId)` */
  function ItemIndex(items: seq<CartItem>, productId: int): (i: int)
    ensures -1 <= i < |items|
    ensures 0 <= i ==> items[i].product.id == productId
    ensures i == -1 <==> !HasItemFor(items, productId)
    ensures forall j :: 0 <= j < i ==> items[j].product.id != productId
  {
    FindIndex(items, (it: CartItem) => it.product.id == productId)
  }

  /** The item list after adding `quantity` units of `product` (the specification of the handler's update). */
  function MergeItem(items: seq<CartItem>, product: Product, quantity: int): seq<CartItem> {
    var k := ItemIndex(items, product.id);
    if k != -1 then items[k := CartItem(items[k].product, items[k].quantity + quantity)]
    else items + [CartItem(product, quantity)]
  }

  /** Sum of the quantities of every entry. */
  function TotalQuantity(items: seq<CartItem>): int {
    if |items| == 0 then 0 else items[0].quantity + TotalQuantity(items[1..])
  }

  /** Sum of the quantities of the entries for one product id: how many of it the cart holds. */
  function QuantityOf(items: seq<CartItem>, productId: int): int {
    if |items| == 0 then 0 else Contribution(items[0], productId) + QuantityOf(items[1..], productId)
  }

  /** How much one entry adds to the holding of a product id. */
  function Contribution(item: CartItem, productId: int): int {
    if item.product.id == productId then item.quantity else 0
  }

  lemma {:induction false} SumsOfAppend(items: seq<CartItem>, x: CartItem)
    ensures TotalQuantity(items + [x]) == TotalQuantity(items) + x.quantity
    ensures forall id :: QuantityOf(items + [x], id) == QuantityOf(items, id) + Contribution(x, id)
  {
    if |items| > 0 {
      assert (items + [x])[1..] == items[1..] + [x];
      SumsOfAppend(items[1..], x);
    }
  }

  lemma {:induction false} SumsOfUpdate(items: seq<CartItem>, k: nat, x: CartItem)
    requires k < |items|
    ensures TotalQuantity(items[k := x]) == TotalQuantity(items) - items[k].quantity + x.quantity
    ensures forall id ::
              QuantityOf(items[k := x], id) == QuantityOf(items, id) - Contribution(items[k], id) + Contribution(x, id)
  {
    if k > 0 {
      assert items[k := x][1..] == items[1..][k - 1 := x];
      SumsOfUpdate(items[1..], k - 1, x);
    }
  }

  /**
   * Adding `quantity` units of a product raises the cart's holding of that
   * product, and its total, by exactly `quantity`, leaves the holding of every
   * other product as it was, and adds an entry only when the product was absent.
   */
  lemma MergeAddsQuantity(items: seq<CartItem>, product: Product, quantity: int)
    ensures QuantityOf(MergeItem(items, product, quantity), product.id) == QuantityOf(items, product.id) + quantity
    ensures forall id :: id != product.id ==>
      QuantityOf(MergeItem(items, product, quantity), id) == QuantityOf(items, id)
    ensures TotalQuantity(MergeItem(items, product, quantity)) == TotalQuantity(items) + quantity
    ensures |MergeItem(items, product, quantity)| == if HasItemFor(items, product.id) then |items| else |items| + 1
  {
    var k := ItemIndex(items, product.id);
    if k != -1 {
      SumsOfUpdate(items, k, CartItem(items[k].product, items[k].quantity + quantity));
    } else {
      SumsOfAppend(items, CartItem(product, quantity));
    }
  }

  /**
   * Where the cart already has an entry for the product, the first such entry
   * gains `quantity` and every other entry is unchanged; otherwise the product
   * and quantity are appended after the existing entries.
   */
  lemma MergeUpdatesInPlace(items: seq<CartItem>, product: Product, quantity: int)
    ensures HasItemFor(items, product.id) ==>
      var k := ItemIndex(items, product.id);
      var r := MergeItem(items, product, quantity);
      |r| == |items| && r[k].product == items[k].product && r[k].quantity == items[k].quantity + quantity &&
      forall j :: 0 <= j < |items| && j != k ==> r[j] == items[j]
    ensures !HasItemFor(items, product.id) ==>
      MergeItem(items, product, quantity) == items + [CartItem(product, quantity)]
  {
  }

  /** The merge keeps at most one entry per product id, and leaves an entry for the product added. */
  lemma MergeKeepsOneEntryPerProduct(items: seq<CartItem>, product: Product, quantity: int)
    ensures OneEntryPerProduct(items) ==> OneEntryPerProduct(MergeItem(items, product, quantity))
    ensures HasItemFor(MergeItem(items, product, quantity), product.id)
  {
    var r := MergeItem(items, product, quantity);
    var k := ItemIndex(items, product.id);
    if k == -1 {
      assert r[|items|].product.id == product.id;
      if OneEntryPerProduct(items) {
        forall i, j | 0 <= i < j < |r| ensures r[i].product.id != r[j].product.id {
          if j == |items| {
            assert r[i] == items[i];
          }
        }
      }
    } else {
      assert r[k].product.id == product.id;
    }
  }

  /** Adding the same product twice is adding the two quantities at once. */
  lemma MergeTwice(items: seq<CartItem>, product: Product, q1: int, q2: int)
    ensures MergeItem(MergeItem(items, product, q1), product, q2) == MergeItem(items, product, q1 + q2)
  {
    var k := ItemIndex(items, product.id);
    var once := MergeItem(items, product, q1);
    if k != -1 {
      // The entries before k still name other products, so the second add finds k again.
      assert once[k].product.id == product.id;
      assert forall j :: 0 <= j < k ==> once[j] == items[j];
      assert ItemIndex(once, product.id) == k;
    } else {
      assert once[|items|].product.id == product.id;
      assert ItemIndex(once, product.id) == |items|;
    }
  }

  /** Two units of a product into an empty cart, then three more, leave one entry of five. */
  lemma AddTwoThenThree(product: Product)
    ensures MergeItem(MergeItem([], product, 2), product, 3) == [CartItem(product, 5)]
  {
  }

  /**
   * A negative quantity is truthy, so it is used as given and the merge lowers
   * the entry: two units, then minus two, leave an entry holding zero.
   */
  lemma NegativeQuantityLowersEntry(product: Product)
    ensures RequestQuantity(Some(-2)) == -2
    ensures MergeItem([CartItem(product, 2)], product, RequestQuantity(Some(-2))) == [CartItem(product, 0)]
  {
  }

  /**
   * The handler: the quantity defaults to 1; a missing cart or product is
   * reported and nothing changes; otherwise the cart's entry for the product
   * gains the quantity, or a new entry is appended, and the carts are saved.
   * The product is passed already resolved by its id.
   */
  method AddProductToCart(cm: CartManager, cartId: int, productId: int, bodyQuantity: Option<int>,
                          product: Option<Product>) returns (outcome: AddOutcome)
    requires cm.Valid()
    requires product.Some? ==> product.value.id == productId
    modifies cm
    ensures cm.Valid() && cm.lastCartId == old(cm.lastCartId)
    ensures old(cm.GetCartById(cartId)).None? ==> outcome == CartNotFound && unchanged(cm)
    ensures old(cm.GetCartById(cartId)).Some? && product.None? ==> outcome == ProductNotFound && unchanged(cm)
    ensures old(cm.GetCartById(cartId)).Some? && product.Some? ==>
      var i := old(cm.GetCartIndexById(cartId));
      outcome == Added &&
      cm.carts == old(cm.carts)[i := Cart(cartId, MergeItem(old(cm.carts)[i].products, product.value,
                                                             RequestQuantity(bodyQuantity)))] &&
      cm.stored == Some(cm.carts)
    ensures old(AllCartsOneEntryPerProduct(cm.carts)) ==> AllCartsOneEntryPerProduct(cm.carts)
  {
    var quantity := RequestQuantity(bodyQuantity);
    var cart := cm.GetCartById(cartId);
    if cart.None? {
      return CartNotFound;
    }
    if product.None? {
      return ProductNotFound;
    }
    var items := cart.value.products;
    var existingProductIndex := ItemIndex(items, productId);
    if existingProductIndex != -1 {
      var entry := items[existingProductIndex];
      items := items[existingProductIndex := entry.(quantity := entry.quantity + quantity)];
    } else {
      items := items + [CartItem(product.value, quantity)];
    }
    assert items == MergeItem(cart.value.products, product.value, quantity);
    MergeKeepsOneEntryPerProduct(cart.value.products, product.value, quantity);
    var i := cm.GetCartIndexById(cartId);
    cm.carts := cm.carts[i := cart.value.(products := items)];
    cm.SaveData();
    outcome := Added;
  }

  /**
   * The handler as written resolves the product through `productManager`,
   * a name the carts routes never bind: once the cart is found, that line
   * throws, and the handler's catch answers with a server error.
   */
  function AddToCartAsWritten(cart: Option<Cart>): (outcome: AddOutcome)
    ensures outcome != Added
    ensures outcome == CartNotFound <==> cart.None?
    ensures cart.Some? ==> outcome == ServerError
  {
    if cart.None? then CartNotFound else ServerError
  }

  /**
   * As written, adding a product to an existing empty cart answers with a server
   * error, where the intended merge would give the cart its first entry.
   */
  lemma AddToExistingCartFailsAsWritten(product: Product)
    ensures AddToCartAsWritten(Some(Cart(1, []))) == ServerError
    ensures MergeItem([], product, 1) == [CartItem(product, 1)]
  {
  }
}
