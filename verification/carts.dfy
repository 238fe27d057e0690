/**
 * The cart store: carts, their items and `CartManager`, which owns the list
 * of carts, the cart id counter and the JSON file.
 */
module Carts {
  import opened Js
  import opened Products

  /** One line of a cart: the product record pushed into it and how many. */
  datatype CartItem = CartItem(product: Product, quantity: int)

  /** A cart; its item list is called `products` in the stored records. */
  datatype Cart = Cart(id: int, products: seq<CartItem>)

  predicate HasCartId(cs: seq<Cart>, id: int) {
    exists j :: 0 <= j < |cs| && cs[j].id == id
  }

  predicate CartIdsDistinct(cs: seq<Cart>) {
    forall i, j :: 0 <= i < j < |cs| ==> cs[i].id != cs[j].id
  }

  predicate CartIdsAtMost(cs: seq<Cart>, bound: int) {
    forall j :: 0 <= j < |cs| ==> cs[j].id <= bound
  }

  /** The counter `init` recovers from a loaded list: the largest cart id, or 0. */
  function LoadedLastCartId(cs: seq<Cart>): (n: nat)
    ensures CartIdsAtMost(cs, n)
    ensures n == 0 || HasCartId(cs, n)
  {
    MaxKey(cs, (c: Cart) => c.id)
  }

  /**
   * Appending a cart whose id is one past a bound on every existing id keeps
   * the bound (moved up to the new id) and the distinctness of cart ids.
   */
  lemma AppendCartKeepsInvariants(cs: seq<Cart>, lastCartId: int, c: Cart)
    requires CartIdsAtMost(cs, lastCartId) && c.id == lastCartId + 1
    ensures CartIdsAtMost(cs + [c], c.id)
    ensures CartIdsDistinct(cs) ==> CartIdsDistinct(cs + [c])
  {
  }

  /**
   * `CartManager`: the carts in memory, the last allocated cart id, and the
   * content of its JSON file (`None` when the file is absent or unreadable).
   */
  class CartManager {
    var carts: seq<Cart>
    var lastCartId: nat
    var stored: Option<seq<Cart>>

    /** Every cart id in memory is at most the counter, so the next id is fresh. */
    ghost predicate Valid()
      reads this
    {
      CartIdsAtMost(carts, lastCartId)
    }

    /** A manager bound to a file, with no carts and the counter at 0. */
    constructor (file: Option<seq<Cart>>)
      ensures Valid()
      ensures carts == [] && lastCartId == 0 && stored == file
    {
      carts := [];
      lastCartId := 0;
      stored := file;
    }

    /**
     * Loads the file when it can be read, recovering the counter as the
     * largest loaded cart id (0 for an empty list); otherwise keeps the state
     * and writes it out, creating the file.
     */
    method Init()
      requires Valid()
      modifies this
      ensures Valid()
      ensures old(stored).Some? ==>
        carts == old(stored).value && lastCartId == LoadedLastCartId(carts) && stored == old(stored)
      ensures old(stored).None? ==>
        carts == old(carts) && lastCartId == old(lastCartId) && stored == Some(carts)
    {
      match stored
      case Some(data) =>
        carts := data;
        lastCartId := LoadedLastCartId(data);
      case None =>
        SaveData();
    }

    /** Rewrites the whole file with the current list of carts. */
    method SaveData()
      modifies this`stored
      ensures stored == Some(carts)
    {
      stored := Some(carts);
    }

    /** Allocates the next cart id, appends an empty cart with it, saves, and returns the cart. */
    method CreateCart() returns (newCart: Cart)
      requires Valid()
      modifies this
      ensures Valid()
      ensures lastCartId == old(lastCartId) + 1
      ensures newCart == Cart(lastCartId, [])
      ensures carts == old(carts) + [newCart] && stored == Some(carts)
      ensures !HasCartId(old(carts), newCart.id)
      ensures old(CartIdsDistinct(carts)) ==> CartIdsDistinct(carts)
    {
      lastCartId := lastCartId + 1;
      newCart := Cart(lastCartId, []);
      AppendCartKeepsInvariants(carts, lastCartId - 1, newCart);
      carts := carts + [newCart];
      SaveData();
    }

    /** `carts.findIndex(cart => cart.id === cartId)`: the least index of a cart with that id, or -1. */
    function GetCartIndexById(cartId: int): (i: int)
      reads this
      ensures -1 <= i < |carts|
      ensures 0 <= i ==> carts[i].id == cartId
      ensures i == -1 <==> !HasCartId(carts, cartId)
      ensures forall j :: 0 <= j < i ==> carts[j].id != cartId
    {
      FindIndex(carts, (c: Cart) => c.id == cartId)
    }

    /** The cart with that id (the first, should there be several), or null. */
    function GetCartById(cartId: int): (r: Option<Cart>)
      reads this
      ensures r.None? <==> !HasCartId(carts, cartId)
      ensures r.Some? ==> r.value.id == cartId && r.value == carts[GetCartIndexById(cartId)]
    {
      var cartIndex := GetCartIndexById(cartId);
      if cartIndex != -1 then Some(carts[cartIndex]) else None
    }
  }
}
