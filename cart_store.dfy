/** The cart store of lib/store/useCartStore.ts: one `cart` field that every action replaces
    with the next cart. Its persistence under 'cart-storage' is left to the storage layer and is
    not modelled. */
module CartStore {
  import opened Cart

  class Store {
    var cart: seq<CartItem>

    constructor()
      ensures cart == []
    {
      cart := [];
    }

    method AddToCart(wineId: string)
      modifies this
      ensures cart == AddedToCart(old(cart), wineId)
      ensures ValidCart(old(cart)) ==> ValidCart(cart) && Count(cart) == Count(old(cart)) + 1
    {
      if ValidCart(cart) {
        AddRaisesCount(cart, wineId);
      }
      cart := AddedToCart(cart, wineId);
    }

    method RemoveFromCart(wineId: string)
      modifies this
      ensures cart == RemovedFromCart(old(cart), wineId)
      ensures !IsInCart(wineId)
    {
      cart := RemovedFromCart(cart, wineId);
    }

    method UpdateQuantity(wineId: string, delta: int)
      modifies this
      ensures cart == UpdatedQuantity(old(cart), wineId, delta)
      ensures ValidCart(old(cart)) ==> ValidCart(cart)
    {
      cart := UpdatedQuantity(cart, wineId, delta);
    }

    method ClearCart()
      modifies this
      ensures cart == []
    {
      cart := [];
    }

    function IsInCart(wineId: string): (r: bool)
      reads this
      ensures r <==> exists x :: x in cart && x.id == wineId
      ensures r == HasId(cart, wineId)
    {
      assert forall i :: 0 <= i < |cart| ==> cart[i] in cart;
      HasId(cart, wineId)
    }

    function GetCartCount(): (r: int)
      reads this
      ensures r == Count(cart)
      ensures ValidCart(cart) ==> r >= |cart|
    {
      Count(cart)
    }
  }
}
