/** The order provider of lib/OrdersContext.tsx: on mount the saved history is restored, and
    without one the seed order is set and stored whatever the login state; `addOrder` prepends and
    stores. The stored value is held as the decoded list. */
module OrdersSeedContext {
  import opened Basics
  import opened Orders

  class Provider {
    var orders: seq<Order>
    /** The 'orders' entry of the browser storage. */
    var stored: Option<seq<Order>>

    constructor(saved: Option<seq<Order>>)
      ensures saved.Some? ==> orders == saved.value && stored == saved
      ensures saved.None? ==> orders == [SeedOrder] && stored == Some([SeedOrder])
    {
      if saved.Some? {
        orders := saved.value;
        stored := saved;
      } else {
        orders := [SeedOrder];
        stored := Some([SeedOrder]);
      }
    }

    method AddOrder(order: Order)
      modifies this
      ensures orders == Prepended(old(orders), order) && stored == Some(orders)
    {
      var next := Prepended(orders, order);
      stored := Some(next);
      orders := next;
    }
  }

  /** Without a saved history, the first order placed comes before the seed order. */
  method FirstOrder(order: Order) returns (history: seq<Order>)
    ensures history == [order, SeedOrder]
  {
    var p := new Provider(None);
    p.AddOrder(order);
    history := p.orders;
  }
}
