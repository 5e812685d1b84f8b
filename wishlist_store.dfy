/** The wishlist store of lib/store/useWishlistStore.ts: one `wishlist` field of wine ids. Its
    persistence under 'wishlist-storage' is left to the storage layer and is not modelled. */
module WishlistStore {
  import opened Wishlist

  class Store {
    var wishlist: seq<string>

    constructor()
      ensures wishlist == []
    {
      wishlist := [];
    }

    method ToggleWishlist(wineId: string)
      modifies this
      ensures wishlist == Toggled(old(wishlist), wineId)
      ensures IsInWishlist(wineId) <==> wineId !in old(wishlist)
    {
      wishlist := Toggled(wishlist, wineId);
    }

    function IsInWishlist(wineId: string): (r: bool)
      reads this
      ensures r <==> exists i :: 0 <= i < |wishlist| && wishlist[i] == wineId
    {
      wineId in wishlist
    }

    method ClearWishlist()
      modifies this
      ensures wishlist == []
    {
      wishlist := [];
    }
  }
}
