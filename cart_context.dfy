/** The cart provider of lib/contexts/CartContext.tsx: the same reducers as the store, a copy of
    the cart written to the 'cart' storage key after each change, and the clearing of the cart
    when the user logs out. The stored value is held as the decoded cart; an unreadable stored
    value is the same as none. */
module CartContext {
  import opened Basics
  import opened Cart

  class Provider {
    var cart: seq<CartItem>
    /** The 'cart' entry of the browser storage. */
    var stored: Option<seq<CartItem>>
    /** The login flag seen at the previous check. */
    var prevIsLoggedIn: bool

    /** The first render and its effects in order: the cart is restored from storage when a value
        is saved, the flag is remembered, and the logout check finds no transition. */
    constructor(isLoggedIn: bool, saved: Option<seq<CartItem>>)
      ensures cart == (if saved.Some? then saved.value else [])
      ensures stored == saved && prevIsLoggedIn == isLoggedIn
    {
      cart := [];
      stored := saved;
      prevIsLoggedIn := isLoggedIn;
      new;
      if saved.Some? {
        cart := saved.value;
      }
      SyncLogin(isLoggedIn);
    }

    /** The effect on the login flag: the cart and its stored copy are dropped only when a
        logged-in user has logged out; the flag is remembered in every case. */
    method SyncLogin(isLoggedIn: bool)
      modifies this
      ensures old(prevIsLoggedIn) && !isLoggedIn ==> cart == [] && stored.None?
      ensures !(old(prevIsLoggedIn) && !isLoggedIn) ==> cart == old(cart) && stored == old(stored)
      ensures prevIsLoggedIn == isLoggedIn
    {
      if prevIsLoggedIn && !isLoggedIn {
        cart := [];
        stored := None;
      }
      prevIsLoggedIn := isLoggedIn;
    }

    method AddToCart(wineId: string)
      modifies this
      ensures cart == AddedToCart(old(cart), wineId) && stored == Some(cart)
      ensures prevIsLoggedIn == old(prevIsLoggedIn)
    {
      var next := AddedToCart(cart, wineId);
      stored := Some(next);
      cart := next;
    }

    method RemoveFromCart(wineId: string)
      modifies this
      ensures cart == RemovedFromCart(old(cart), wineId) && stored == Some(cart)
      ensures prevIsLoggedIn == old(prevIsLoggedIn)
    {
      var next := RemovedFromCart(cart, wineId);
      stored := Some(next);
      cart := next;
    }

    method UpdateQuantity(wineId: string, delta: int)
      modifies this
      ensures cart == UpdatedQuantity(old(cart), wineId, delta) && stored == Some(cart)
      ensures prevIsLoggedIn == old(prevIsLoggedIn)
    {
      var next := UpdatedQuantity(cart, wineId, delta);
      stored := Some(next);
      cart := next;
    }

    method ClearCart()
      modifies this
      ensures cart == [] && stored.None?
      ensures prevIsLoggedIn == old(prevIsLoggedIn)
    {
      cart := [];
      stored := None;
    }

    function IsInCart(wineId: string): (r: bool)
      reads this
      ensures r <==> exists x :: x in cart && x.id == wineId
      ensures r == HasId(cart, wineId)
    {
      assert forall i :: 0 <= i < |cart| ==> cart[i] in cart;
      HasId(cart, wineId)
    }

    function GetCartCount(): (r: int)
      reads this
      ensures r == Count(cart)
      ensures ValidCart(cart) ==> r >= |cart|
    {
      Count(cart)
    }
  }

  /** A session that starts logged out does not lose its restored cart on the first check, and a
      later logout does clear it. */
  method LogoutScenario(saved: seq<CartItem>) returns (first: seq<CartItem>, afterLogout: seq<CartItem>)
    ensures first == saved && afterLogout == []
  {
    var p := new Provider(false, Some(saved));
    p.SyncLogin(false);
    first := p.cart;
    p.SyncLogin(true);
    p.SyncLogin(false);
    afterLogout := p.cart;
  }
}
