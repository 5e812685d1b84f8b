/** The order provider of lib/contexts/OrdersContext.tsx: the order history with its copy under
    the 'orders' storage key, restored or seeded when the login flag is true and dropped when it is
    false. The stored value is held as the decoded list. */
module OrdersContext {
  import opened Basics
  import opened Orders

  class Provider {
    var orders: seq<Order>
    /** The 'orders' entry of the browser storage. */
    var stored: Option<seq<Order>>

    /** The first render runs the two login effects for the initial flag. */
    constructor(isLoggedIn: bool, saved: Option<seq<Order>>)
      ensures !isLoggedIn ==> orders == [] && stored.None?
      ensures isLoggedIn && saved.Some? ==> orders == saved.value && stored == saved
      ensures isLoggedIn && saved.None? ==> orders == [SeedOrder] && stored == Some([SeedOrder])
    {
      orders := [];
      stored := saved;
      new;
      SyncLogin(isLoggedIn);
    }

    /** The two effects on the login flag, in their order: the saved history is restored, or,
        logged in with nothing saved, the seed order is set and stored; then, logged out, the list
        is emptied and the key removed. The last state set is the one that stays. */
    method SyncLogin(isLoggedIn: bool)
      modifies this
      ensures !isLoggedIn ==> orders == [] && stored.None?
      ensures isLoggedIn && old(stored).Some? ==> orders == old(stored).value && stored == old(stored)
      ensures isLoggedIn && old(stored).None? ==> orders == [SeedOrder] && stored == Some([SeedOrder])
    {
      if stored.Some? {
        orders := stored.value;
      } else if isLoggedIn {
        orders := [SeedOrder];
        stored := Some([SeedOrder]);
      }
      if !isLoggedIn {
        orders := [];
        stored := None;
      }
    }

    method AddOrder(order: Order)
      modifies this
      ensures orders == Prepended(old(orders), order) && stored == Some(orders)
    {
      var next := Prepended(orders, order);
      stored := Some(next);
      orders := next;
    }

    method ClearOrders()
      modifies this
      ensures orders == [] && stored.None?
    {
      orders := [];
      stored := None;
    }
  }

  /** A history saved before a logged-out first render is gone, and logging in then shows the
      single seed order. */
  method LoggedOutStart(saved: seq<Order>) returns (atStart: seq<Order>, afterLogin: seq<Order>)
    ensures atStart == [] && afterLogin == [SeedOrder]
  {
    var p := new Provider(false, Some(saved));
    atStart := p.orders;
    p.SyncLogin(true);
    afterLogin := p.orders;
  }

  /** An order placed while logged in is stored in front of the history and survives a remount
      while still logged in. */
  method OrderSurvivesRemount(saved: Option<seq<Order>>, order: Order) returns (before: seq<Order>, after: seq<Order>)
    ensures after == before && |after| >= 1 && after[0] == order
  {
    var p := new Provider(true, saved);
    p.AddOrder(order);
    before := p.orders;
    var q := new Provider(true, p.stored);
    after := q.orders;
  }
}
