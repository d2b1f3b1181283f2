/** The paged, filtered order query of one customer: filter, count, order newest first,
    then skip and take one page. */
module OrderService {
  import opened Common
  import opened Store
  import Sorting

  /** The optional filters of the query. Each present bound is inclusive; an absent one
      constrains nothing. */
  datatype OrderFilter = OrderFilter(fromDate: Option<int>, toDate: Option<int>,
                                     minAmount: Option<real>, maxAmount: Option<real>)

  const NoFilter: OrderFilter := OrderFilter(None, None, None, None)

  /** The order as the API returns it: the customer id is not part of it. */
  datatype OrderDto = OrderDto(id: int, description: string, amount: real, createdAt: int)

  /** `PagedResultDto<OrderDto>`. */
  datatype PagedResult = PagedResult(items: seq<OrderDto>, totalCount: int, page: int, pageSize: int)

  function ToDto(o: Order): OrderDto {
    OrderDto(o.id, o.description, o.amount, o.createdAt)
  }

  function OrderCreatedAt(o: Order): int { o.createdAt }

  function DtoCreatedAt(d: OrderDto): int { d.createdAt }

  /** The `Select(o => new OrderDto ...)` projection, element by element. */
  function Dtos(s: seq<Order>): (r: seq<OrderDto>)
    ensures |r| == |s| && forall i :: 0 <= i < |s| ==> r[i] == ToDto(s[i])
  {
    seq(|s|, i requires 0 <= i < |s| => ToDto(s[i]))
  }

  /** `o` passes every present filter of `f`. */
  predicate Admits(f: OrderFilter, o: Order) {
    && (f.fromDate.None? || f.fromDate.value <= o.createdAt)
    && (f.toDate.None? || o.createdAt <= f.toDate.value)
    && (f.minAmount.None? || f.minAmount.value <= o.amount)
    && (f.maxAmount.None? || o.amount <= f.maxAmount.value)
  }

  /** `o` is one of the orders the query selects. */
  predicate Matches(o: Order, customerId: int, f: OrderFilter) {
    o.customerId == customerId && Admits(f, o)
  }

  /** The `Where` chain: the selected orders in table order, each as often as it occurs. */
  function Select(orders: seq<Order>, customerId: int, f: OrderFilter): (r: seq<Order>)
    ensures forall o :: o in r <==> o in orders && Matches(o, customerId, f)
    ensures |r| <= |orders|
  {
    if |orders| == 0 then
      []
    else
      var rest := Select(orders[1..], customerId, f);
      assert orders == [orders[0]] + orders[1..];
      if Matches(orders[0], customerId, f) then [orders[0]] + rest else rest
  }

  /** The query keeps every selected order as often as the table holds it, and drops the
      others: the count is the number of matching rows. */
  lemma {:induction false} SelectKeepsMultiplicity(orders: seq<Order>, customerId: int, f: OrderFilter)
    ensures forall o :: multiset(Select(orders, customerId, f))[o]
                     == if Matches(o, customerId, f) then multiset(orders)[o] else 0
  {
    if |orders| > 0 {
      SelectKeepsMultiplicity(orders[1..], customerId, f);
      assert orders == [orders[0]] + orders[1..];
    }
  }

  /** With no filter present the query selects exactly the customer's orders. */
  lemma {:induction false} NoFilterSelectsOrdersOf(orders: seq<Order>, customerId: int)
    ensures Select(orders, customerId, NoFilter) == OrdersOf(orders, customerId)
  {
    if |orders| > 0 {
      NoFilterSelectsOrdersOf(orders[1..], customerId);
    }
  }

  /** The selected orders, newest first. */
  function Ranked(orders: seq<Order>, customerId: int, f: OrderFilter): (r: seq<Order>)
    ensures Sorting.SortedDesc(r, OrderCreatedAt)
    ensures multiset(r) == multiset(Select(orders, customerId, f))
    ensures |r| == |Select(orders, customerId, f)|
  {
    Sorting.SortDesc(Select(orders, customerId, f), OrderCreatedAt)
  }

  /** LINQ `Skip`: drops the first `n` elements; a count of zero or less drops nothing. */
  function Skip<T>(s: seq<T>, n: int): seq<T> {
    if n <= 0 then s else if |s| <= n then [] else s[n..]
  }

  /** LINQ `Take`: keeps the first `n` elements; a count of zero or less keeps nothing. */
  function Take<T>(s: seq<T>, n: int): seq<T> {
    if n <= 0 then [] else if |s| <= n then s else s[..n]
  }

  /** `Skip(skip).Take(take)` as one slice: from the clamped offset, at most the clamped
      count of elements. */
  function Window<T>(s: seq<T>, skip: int, take: int): (r: seq<T>)
    ensures |r| == Min(Max(0, take), Max(0, |s| - Max(0, skip)))
    ensures forall k :: 0 <= k < |r| ==> r[k] == s[Min(|s|, Max(0, skip)) + k]
  {
    var start := Min(|s|, Max(0, skip));
    s[start..start + Min(Max(0, take), |s| - start)]
  }

  /** The slice agrees with LINQ's `Skip` followed by `Take` for every count, negative
      ones included. */
  lemma WindowIsSkipThenTake<T>(s: seq<T>, skip: int, take: int)
    ensures Window(s, skip, take) == Take(Skip(s, skip), take)
  {
  }

  /** The number of items on `page` of `total` items cut into pages of `size`. */
  function PageLength(total: int, page: int, size: int): int {
    Min(size, Max(0, total - (page - 1) * size))
  }

  /** `items` are the DTOs of the window of `ranked` that starts after `skip` elements
      and holds at most `size` of them. */
  ghost predicate IsWindow(items: seq<OrderDto>, ranked: seq<Order>, skip: int, size: int) {
    && |items| == Min(Max(0, size), Max(0, |ranked| - Max(0, skip)))
    && Min(|ranked|, Max(0, skip)) + |items| <= |ranked|
    && forall k :: 0 <= k < |items| ==> items[k] == ToDto(ranked[Min(|ranked|, Max(0, skip)) + k])
  }

  /** The page of the newest-first list `ranked` that starts after `skip` elements. */
  function Page(ranked: seq<Order>, skip: int, page: int, pageSize: int): (r: PagedResult)
    requires Sorting.SortedDesc(ranked, OrderCreatedAt)
    ensures r.page == page && r.pageSize == pageSize && r.totalCount == |ranked|
    ensures IsWindow(r.items, ranked, skip, pageSize)
    ensures Sorting.SortedDesc(r.items, DtoCreatedAt)
  {
    PagedResult(Dtos(Window(ranked, skip, pageSize)), |ranked|, page, pageSize)
  }

  /** `GetCustomerOrdersAsync` with the offset `(page - 1) * pageSize` computed exactly. */
  function GetCustomerOrders(orders: seq<Order>, customerId: int, page: Int32, pageSize: Int32,
                             f: OrderFilter): (r: PagedResult)
    ensures r.page == page && r.pageSize == pageSize
    ensures r.totalCount == |Select(orders, customerId, f)|
    ensures IsWindow(r.items, Ranked(orders, customerId, f), (page - 1) * pageSize, pageSize)
    ensures Sorting.SortedDesc(r.items, DtoCreatedAt)
  {
    Page(Ranked(orders, customerId, f), (page - 1) * pageSize, page, pageSize)
  }

  /** A window after the offset of `page` holds `size` items, or what is left after the
      earlier pages when that is less. */
  lemma WindowLength(items: seq<OrderDto>, ranked: seq<Order>, page: int, size: int)
    requires 1 <= page && 0 <= size
    requires IsWindow(items, ranked, (page - 1) * size, size)
    ensures |items| == PageLength(|ranked|, page, size)
  {
    NonNegativeProduct(page - 1, size);
  }

  /** For a page of at least 1 and a non-negative size, the page holds the size's worth
      of items, or what is left after the earlier pages when that is less. */
  lemma ItemCount(orders: seq<Order>, customerId: int, page: Int32, pageSize: Int32, f: OrderFilter)
    requires 1 <= page && 0 <= pageSize
    ensures var r := GetCustomerOrders(orders, customerId, page, pageSize, f);
            |r.items| == PageLength(r.totalCount, page, pageSize)
  {
    var r := GetCustomerOrders(orders, customerId, page, pageSize, f);
    WindowLength(r.items, Ranked(orders, customerId, f), page, pageSize);
  }

  lemma NonNegativeProduct(a: int, b: int)
    requires 0 <= a && 0 <= b
    ensures 0 <= a * b
  {
  }

  /** Every returned item is the DTO of an order of the requested customer that passes
      every present filter. */
  lemma ItemsAreSelectedOrders(orders: seq<Order>, customerId: int, page: Int32, pageSize: Int32, f: OrderFilter)
    ensures forall d :: d in GetCustomerOrders(orders, customerId, page, pageSize, f).items ==>
              exists o :: o in orders && Matches(o, customerId, f) && ToDto(o) == d
  {
    var r := GetCustomerOrders(orders, customerId, page, pageSize, f);
    WindowItemsAreSelected(orders, customerId, f, r.items, (page - 1) * pageSize, pageSize);
  }

  lemma WindowItemsAreSelected(orders: seq<Order>, customerId: int, f: OrderFilter,
                               items: seq<OrderDto>, skip: int, size: int)
    requires IsWindow(items, Ranked(orders, customerId, f), skip, size)
    ensures forall d :: d in items ==> exists o :: o in orders && Matches(o, customerId, f) && ToDto(o) == d
  {
    forall d | d in items
      ensures exists o :: o in orders && Matches(o, customerId, f) && ToDto(o) == d
    {
      var k :| 0 <= k < |items| && items[k] == d;
      WindowItemIsSelected(orders, customerId, f, items, skip, size, k);
    }
  }

  lemma WindowItemIsSelected(orders: seq<Order>, customerId: int, f: OrderFilter,
                             items: seq<OrderDto>, skip: int, size: int, k: int)
    requires IsWindow(items, Ranked(orders, customerId, f), skip, size)
    requires 0 <= k < |items|
    ensures exists o :: o in orders && Matches(o, customerId, f) && ToDto(o) == items[k]
  {
    var ranked := Ranked(orders, customerId, f);
    var j := Min(|ranked|, Max(0, skip)) + k;
    RankedOrderIsSelected(orders, customerId, f, j);
    assert ToDto(ranked[j]) == items[k];
  }

  /** Every order of the ranked list is a selected order of the table. */
  lemma RankedOrderIsSelected(orders: seq<Order>, customerId: int, f: OrderFilter, j: int)
    requires 0 <= j < |Ranked(orders, customerId, f)|
    ensures Ranked(orders, customerId, f)[j] in orders
    ensures Matches(Ranked(orders, customerId, f)[j], customerId, f)
  {
    var o := Ranked(orders, customerId, f)[j];
    assert o in multiset(Ranked(orders, customerId, f));
    assert o in Select(orders, customerId, f);
  }

  /** The total count does not depend on which page is asked for. */
  lemma TotalCountIndependentOfPage(orders: seq<Order>, customerId: int, f: OrderFilter,
                                    p1: Int32, s1: Int32, p2: Int32, s2: Int32)
    ensures GetCustomerOrders(orders, customerId, p1, s1, f).totalCount
         == GetCustomerOrders(orders, customerId, p2, s2, f).totalCount
  {
  }

  /** Cutting the ranked list into pages of `size` puts its `i`-th order on page
      `i / size + 1`, at position `i % size`: every selected order is on exactly the page
      its rank says. */
  lemma RankedOrderOnItsPage(orders: seq<Order>, customerId: int, f: OrderFilter, size: Int32, i: int)
    requires 1 <= size
    requires 0 <= i < |Ranked(orders, customerId, f)|
    requires i / size + 1 < TwoTo31
    ensures var r := GetCustomerOrders(orders, customerId, i / size + 1, size, f);
            i % size < |r.items| && r.items[i % size] == ToDto(Ranked(orders, customerId, f)[i])
  {
    DivModSplit(i, size);
    ItemAt(orders, customerId, f, i / size + 1, size, i % size, i);
  }

  /** Position `k` of page `page` holds the order of rank `i = (page - 1) * size + k`,
      when there is one. */
  lemma ItemAt(orders: seq<Order>, customerId: int, f: OrderFilter, page: Int32, size: Int32, k: int, i: nat)
    requires 1 <= page && 1 <= size && 0 <= k < size
    requires i == (page - 1) * size + k && i < |Ranked(orders, customerId, f)|
    ensures var r := GetCustomerOrders(orders, customerId, page, size, f);
            k < |r.items| && r.items[k] == ToDto(Ranked(orders, customerId, f)[i])
  {
    NonNegativeProduct(page - 1, size);
  }

  lemma DivModSplit(i: int, size: int)
    requires 0 <= i && 1 <= size
    ensures 0 <= i / size && 0 <= i % size < size
    ensures (i / size) * size + i % size == i
  {
  }

  /** A page past the last one is empty. */
  lemma PagePastTheEndIsEmpty(orders: seq<Order>, customerId: int, f: OrderFilter, page: Int32, size: Int32)
    requires 1 <= size && 1 <= page
    requires |Select(orders, customerId, f)| <= (page - 1) * size
    ensures GetCustomerOrders(orders, customerId, page, size, f).items == []
  {
  }

  // ---------------------------------------------------------------------------------
  // The offset as the source computes it: in 32-bit `int` arithmetic.

  /** The offset `(page - 1) * pageSize` in C#'s unchecked 32-bit arithmetic: the one
      `int` that differs from the exact product by a multiple of 2^32, which is the
      product itself whenever that fits. */
  function SkipAsWritten(page: Int32, pageSize: Int32): (skip: Int32)
    ensures (skip - (page - 1) * pageSize) % TwoTo32 == 0
    ensures -TwoTo31 <= (page - 1) * pageSize < TwoTo31 ==> skip == (page - 1) * pageSize
  {
    var previous := Wrap32(page - 1);
    var skip := Wrap32(previous * pageSize);
    CongruentTimes(previous, page - 1, pageSize);
    CongruentTrans(skip, previous * pageSize, (page - 1) * pageSize);
    skip
  }

  /** `GetCustomerOrdersAsync` as written, with the 32-bit offset. */
  function GetCustomerOrdersAsWritten(orders: seq<Order>, customerId: int, page: Int32, pageSize: Int32,
                                      f: OrderFilter): (r: PagedResult)
    ensures r.page == page && r.pageSize == pageSize
    ensures r.totalCount == |Select(orders, customerId, f)|
    ensures IsWindow(r.items, Ranked(orders, customerId, f), SkipAsWritten(page, pageSize), pageSize)
    ensures Sorting.SortedDesc(r.items, DtoCreatedAt)
    ensures -TwoTo31 <= (page - 1) * pageSize < TwoTo31 ==>
              r == GetCustomerOrders(orders, customerId, page, pageSize, f)
  {
    Page(Ranked(orders, customerId, f), SkipAsWritten(page, pageSize), page, pageSize)
  }

  /** Past page 214748365 of ten orders the 32-bit offset wraps to a negative number,
      which skips nothing: page 214748366 returns the customer's newest order although
      no order lies that far down the list. */
  lemma OffsetOverflowReturnsFirstPage(o: Order)
    requires o.customerId == 1
    ensures var asWritten := GetCustomerOrdersAsWritten([o], 1, 214748366, 10, NoFilter);
            var intended := GetCustomerOrders([o], 1, 214748366, 10, NoFilter);
            && PageLength(1, 214748366, 10) == 0
            && intended.items == []
            && asWritten.items == [ToDto(o)]
  {
    assert SkipAsWritten(214748366, 10) == -2147483646;
    assert Select([o], 1, NoFilter) == [o];
    assert Ranked([o], 1, NoFilter) == [o];
  }
}
