/** The wishlist provider of lib/WishlistContext.tsx: the list of liked wine ids, its copy under
    the 'wishlist' storage key written after each toggle, and the clearing of both whenever the
    user is not logged in, the first render included. */
module WishlistContext {
  import opened Basics
  import opened Wishlist

  class Provider {
    var wishlist: seq<string>
    /** The 'wishlist' entry of the browser storage, decoded. */
    var stored: Option<seq<string>>

    /** The first render and its effects in order: the list is restored from storage, then
        dropped again together with the stored copy when nobody is logged in. */
    constructor(isLoggedIn: bool, saved: Option<seq<string>>)
      ensures isLoggedIn ==> wishlist == (if saved.Some? then saved.value else []) && stored == saved
      ensures !isLoggedIn ==> wishlist == [] && stored.None?
    {
      wishlist := [];
      stored := saved;
      new;
      if saved.Some? {
        wishlist := saved.value;
      }
      SyncLogin(isLoggedIn);
    }

    /** The effect on the login flag. */
    method SyncLogin(isLoggedIn: bool)
      modifies this
      ensures !isLoggedIn ==> wishlist == [] && stored.None?
      ensures isLoggedIn ==> wishlist == old(wishlist) && stored == old(stored)
    {
      if !isLoggedIn {
        wishlist := [];
        stored := None;
      }
    }

    method ToggleWishlist(wineId: string)
      modifies this
      ensures wishlist == Toggled(old(wishlist), wineId) && stored == Some(wishlist)
    {
      var next := Toggled(wishlist, wineId);
      stored := Some(next);
      wishlist := next;
    }

    method ClearWishlist()
      modifies this
      ensures wishlist == [] && stored.None?
    {
      wishlist := [];
      stored := None;
    }

    function IsInWishlist(wineId: string): (r: bool)
      reads this
      ensures r <==> exists i :: 0 <= i < |wishlist| && wishlist[i] == wineId
    {
      wineId in wishlist
    }
  }
}
