/**
 * The product catalogue: product records, the invariants the catalogue keeps
 * (ids bounded by the counter, distinct ids, distinct codes) and
 * `ProductManager`, which owns the list, the id counter and the JSON file.
 */
module Products {
  import opened Js

  /** Display data kept with a product: absent, one path, or a list of paths. */
  datatype Thumbnail = Absent | Path(path: string) | Paths(paths: seq<string>) {
    /** A JavaScript array is always truthy; a string only when it is not empty. */
    predicate Truthy() {
      Paths? || (Path? && path != "")
    }

    /** `this || fallback` */
    function Or(fallback: Thumbnail): Thumbnail {
      if Truthy() then this else fallback
    }
  }

  /**
   * A catalogue entry. `addProduct` stores its display data under `thumbnail`;
   * the update route writes a separate property `thumbnails`, absent until then.
   */
  datatype Product = Product(
    id: int,
    title: string,
    description: string,
    price: int,
    thumbnail: Thumbnail,
    code: string,
    stock: int,
    category: string,
    status: bool,
    thumbnails: Thumbnail)

  /** `ps.some(p => p.code === code)` */
  predicate HasCode(ps: seq<Product>, code: string) {
    exists j :: 0 <= j < |ps| && ps[j].code == code
  }

  predicate HasId(ps: seq<Product>, id: int) {
    exists j :: 0 <= j < |ps| && ps[j].id == id
  }

  predicate IdsDistinct(ps: seq<Product>) {
    forall i, j :: 0 <= i < j < |ps| ==> ps[i].id != ps[j].id
  }

  predicate CodesDistinct(ps: seq<Product>) {
    forall i, j :: 0 <= i < j < |ps| ==> ps[i].code != ps[j].code
  }

  predicate IdsAtMost(ps: seq<Product>, bound: int) {
    forall j :: 0 <= j < |ps| ==> ps[j].id <= bound
  }

  /** `ps.findIndex(p => p.id === id)`: the first product with that id, or -1. */
  function IndexOfId(ps: seq<Product>, id: int): (i: int)
    ensures -1 <= i < |ps|
    ensures 0 <= i ==> ps[i].id == id
    ensures i == -1 <==> !HasId(ps, id)
    ensures forall j :: 0 <= j < i ==> ps[j].id != id
  {
    FindIndex(ps, (p: Product) => p.id == id)
  }

  /** The counter `init` recovers from a loaded list: the largest id, or 0. */
  function LoadedLastId(ps: seq<Product>): (n: nat)
    ensures IdsAtMost(ps, n)
    ensures n == 0 || HasId(ps, n)
  {
    MaxKey(ps, (p: Product) => p.id)
  }

  /**
   * Appending a product whose id is one past a bound on every existing id keeps
   * the bound (moved up to the new id) and the distinctness of ids; it keeps
   * codes distinct when the new code is not already used.
   */
  lemma AppendKeepsInvariants(ps: seq<Product>, lastId: int, p: Product)
    requires IdsAtMost(ps, lastId) && p.id == lastId + 1
    ensures IdsAtMost(ps + [p], p.id)
    ensures IdsDistinct(ps) ==> IdsDistinct(ps + [p])
    ensures CodesDistinct(ps) && !HasCode(ps, p.code) ==> CodesDistinct(ps + [p])
  {
  }

  /**
   * Removing one product keeps every catalogue invariant, and when ids are
   * distinct the removed id no longer occurs.
   */
  lemma RemoveKeepsInvariants(ps: seq<Product>, i: nat, bound: int)
    requires i < |ps|
    ensures IdsAtMost(ps, bound) ==> IdsAtMost(RemoveAt(ps, i), bound)
    ensures IdsDistinct(ps) ==> IdsDistinct(RemoveAt(ps, i)) && !HasId(RemoveAt(ps, i), ps[i].id)
    ensures CodesDistinct(ps) ==> CodesDistinct(RemoveAt(ps, i))
  {
  }

  /** Outcome of `deleteProduct`: success (no payload) or the "not found" error object. */
  datatype DeleteResult = Deleted | NotFoundError

  /**
   * `ProductManager`: the catalogue in memory, the last allocated id, and the
   * content of its JSON file (`None` when the file is absent or unreadable).
   */
  class ProductManager {
    var products: seq<Product>
    var lastId: nat
    var stored: Option<seq<Product>>

    /** Every id in memory is at most the counter, so the next id is fresh. */
    ghost predicate Valid()
      reads this
    {
      IdsAtMost(products, lastId)
    }

    /** A manager bound to a file; nothing is loaded until `Init`. */
    constructor (file: Option<seq<Product>>)
      ensures Valid()
      ensures products == [] && lastId == 0 && stored == file
    {
      products := [];
      lastId := 0;
      stored := file;
    }

    /**
     * Loads the file when it can be read, recovering the counter as the
     * largest loaded id (0 for an empty list); otherwise keeps the state and
     * writes it out, creating the file.
     */
    method Init()
      requires Valid()
      modifies this
      ensures Valid()
      ensures old(stored).Some? ==>
        products == old(stored).value && lastId == LoadedLastId(products) && stored == old(stored)
      ensures old(stored).None? ==>
        products == old(products) && lastId == old(lastId) && stored == Some(products)
    {
      match stored
      case Some(data) =>
        products := data;
        lastId := LoadedLastId(data);
      case None =>
        SaveData();
    }

    /** Rewrites the whole file with the current list. */
    method SaveData()
      modifies this`stored
      ensures stored == Some(products)
    {
      stored := Some(products);
    }

    /**
     * Allocates the next id before anything else, so a rejected call still uses
     * one up; rejects a code already in the catalogue, and otherwise appends the
     * new product and saves.
     */
    method AddProduct(title: string, description: string, price: int, thumbnail: Thumbnail,
                      code: string, stock: int, category: string, status: bool)
      requires Valid()
      modifies this
      ensures Valid()
      ensures lastId == old(lastId) + 1
      ensures HasCode(old(products), code) ==> products == old(products) && stored == old(stored)
      ensures !HasCode(old(products), code) ==>
        products == old(products) +
          [Product(lastId, title, description, price, thumbnail, code, stock, category, status, Absent)] &&
        stored == Some(products)
      ensures old(IdsDistinct(products)) ==> IdsDistinct(products)
      ensures old(CodesDistinct(products)) ==> CodesDistinct(products)
    {
      lastId := lastId + 1;
      var newProduct := Product(lastId, title, description, price, thumbnail, code, stock, category, status, Absent);
      AppendKeepsInvariants(products, lastId - 1, newProduct);
      if HasCode(products, code) {
        return;
      }
      products := products + [newProduct];
      SaveData();
    }

    /**
     * `limit ? products.slice(0, limit) : products`: a prefix of the catalogue,
     * the whole of it when the limit is absent or 0.
     */
    function GetProducts(limit: Option<int>): (r: seq<Product>)
      reads this
      ensures r <= products
      ensures !TruthyNumber(limit) ==> r == products
      ensures TruthyNumber(limit) && 0 < limit.value ==>
        |r| == if limit.value < |products| then limit.value else |products|
      ensures TruthyNumber(limit) && limit.value < 0 ==>
        |r| == if |products| + limit.value < 0 then 0 else |products| + limit.value
    {
      if TruthyNumber(limit) then SliceTo(products, limit.value) else products
    }

    /** `products.find(p => p.id === productId)`: the first product with that id, if any. */
    function GetProductById(productId: int): (r: Option<Product>)
      reads this
      ensures r.None? <==> !HasId(products, productId)
      ensures r.Some? ==>
        r.value.id == productId &&
        exists k :: 0 <= k < |products| && products[k] == r.value && !HasId(products[..k], productId)
    {
      var i := IndexOfId(products, productId);
      if i == -1 then None
      else
        assert !HasId(products[..i], productId);
        Some(products[i])
    }

    /**
     * Removes the first product with the given id and saves; reports an error
     * and changes nothing when there is none.
     */
    method DeleteProduct(id: int) returns (result: DeleteResult)
      requires Valid()
      modifies this
      ensures Valid() && lastId == old(lastId)
      ensures result == NotFoundError <==> !HasId(old(products), id)
      ensures result == NotFoundError ==> products == old(products) && stored == old(stored)
      ensures result == Deleted ==>
        products == RemoveAt(old(products), IndexOfId(old(products), id)) && stored == Some(products)
      ensures old(IdsDistinct(products)) ==> IdsDistinct(products) && !HasId(products, id)
      ensures old(CodesDistinct(products)) ==> CodesDistinct(products)
    {
      var productIndex := IndexOfId(products, id);
      if productIndex == -1 {
        return NotFoundError;
      }
      RemoveKeepsInvariants(products, productIndex, lastId);
      products := RemoveAt(products, productIndex);
      SaveData();
      result := Deleted;
    }
  }

  /**
   * In a catalogue with distinct ids, deleting the product that holds the
   * largest id (above 0) makes the counter recovered on reload fall below that
   * id, so the deleted id will be handed out again. Ids are not reused within
   * one run, but they can be across a reload.
   */
  lemma ReloadAfterDeletingNewestReissuesItsId(ps: seq<Product>, i: nat)
    requires i < |ps| && IdsDistinct(ps) && ps[i].id == LoadedLastId(ps) && ps[i].id > 0
    ensures LoadedLastId(RemoveAt(ps, i)) < ps[i].id
  {
    var qs := RemoveAt(ps, i);
    var m := LoadedLastId(qs);
    // Every remaining product was in the catalogue, at a position other than i.
    forall j | 0 <= j < |qs| ensures qs[j].id != ps[i].id && qs[j].id <= ps[i].id {
      if j < i {
        assert qs[j] == ps[j];
      } else {
        assert qs[j] == ps[j + 1];
      }
    }
    if m != 0 {
      var j :| 0 <= j < |qs| && qs[j].id == m;
    }
  }
}
