/** The server's persistent state as the core sees it: the `Customers` and `Orders`
    tables, with the database's identity counters. Timestamps are whole numbers (the
    clock is a parameter of every operation that reads it) and decimal amounts are reals. */
module Store {

  /** A row of `Customers`; its key is the customer id. */
  datatype Customer = Customer(name: string, email: string, isActive: bool, createdAt: int)

  /** A row of `Orders`. */
  datatype Order = Order(id: int, customerId: int, description: string, amount: real, createdAt: int)

  /** Both tables, plus the next value each identity column will hand out. */
  datatype Db = Db(customers: map<int, Customer>, orders: seq<Order>, nextCustomerId: int, nextOrderId: int)

  /** The database never hands out an identity value twice: every stored customer id lies
      below the next one. */
  predicate IdsBelowCounter(db: Db) {
    forall id :: id in db.customers ==> id < db.nextCustomerId
  }

  /** The condition a generation cycle checks: the customer exists and `IsActive` is set. */
  predicate IsActive(customers: map<int, Customer>, customerId: int) {
    customerId in customers && customers[customerId].isActive
  }

  predicate IsActiveCustomer(db: Db, customerId: int) {
    IsActive(db.customers, customerId)
  }

  /** The orders of `orders` that belong to `customerId`, in table order. */
  function OrdersOf(orders: seq<Order>, customerId: int): (r: seq<Order>)
    ensures forall o :: o in r <==> o in orders && o.customerId == customerId
    ensures forall o :: multiset(r)[o] == if o.customerId == customerId then multiset(orders)[o] else 0
    ensures |r| <= |orders|
  {
    if |orders| == 0 then []
    else
      assert orders == [orders[0]] + orders[1..];
      if orders[0].customerId == customerId then [orders[0]] + OrdersOf(orders[1..], customerId)
      else OrdersOf(orders[1..], customerId)
  }

  /** The orders of `orders` that do not belong to `customerId`, in table order. */
  function OrdersNotOf(orders: seq<Order>, customerId: int): (r: seq<Order>)
    ensures forall o :: o in r <==> o in orders && o.customerId != customerId
    ensures forall o :: multiset(r)[o] == if o.customerId != customerId then multiset(orders)[o] else 0
    ensures |r| <= |orders|
  {
    if |orders| == 0 then []
    else
      assert orders == [orders[0]] + orders[1..];
      if orders[0].customerId != customerId then [orders[0]] + OrdersNotOf(orders[1..], customerId)
      else OrdersNotOf(orders[1..], customerId)
  }

  /** Dropping one customer's orders leaves every other customer's orders as they were,
      in the same order and with the same repetitions. */
  lemma {:induction false} OrdersNotOfKeepsOthers(orders: seq<Order>, customerId: int, other: int)
    requires other != customerId
    ensures OrdersOf(OrdersNotOf(orders, customerId), other) == OrdersOf(orders, other)
  {
    if |orders| > 0 {
      OrdersNotOfKeepsOthers(orders[1..], customerId, other);
      if orders[0].customerId != customerId {
        var rest := OrdersNotOf(orders[1..], customerId);
        assert ([orders[0]] + rest)[0] == orders[0] && ([orders[0]] + rest)[1..] == rest;
      }
    }
  }
}
