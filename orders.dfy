/** The order history shared by lib/contexts/OrdersContext.tsx and lib/OrdersContext.tsx: orders,
    newest first, and the demonstration order both providers seed. Amounts are exact decimals. */
module Orders {

  datatype OrderStatus = Delivered | InTransit | Processing

  datatype OrderItem = OrderItem(wineId: string, name: string, quantity: int, price: real)

  datatype Order = Order(id: string, date: string, total: real, items: seq<OrderItem>, status: OrderStatus)

  /** The demonstration order: three bottles of Merlot Goldberg, delivered. */
  const SeedOrder := Order("ORD-2023-001", "2023-10-15", 89.70,
                           [OrderItem("1", "MERLOT GOLDBERG", 3, 29.90)], Delivered)

  /** `addOrder`: `[order, ...prev]`. */
  function Prepended(orders: seq<Order>, order: Order): (r: seq<Order>)
    ensures |r| == |orders| + 1
    ensures r[0] == order && r[1..] == orders
  {
    [order] + orders
  }
}
