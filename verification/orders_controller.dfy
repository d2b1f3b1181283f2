/** The HTTP entry point of the order query: the route `api/customers/{customerId}/orders`,
    the defaults of the query string, and the clamping of `page` and `pageSize` before the
    service is called. */
module OrdersController {
  import opened Common
  import opened Store
  import Text
  import OrderService
  import Sorting

  const DefaultPage: Int32 := 1
  const DefaultPageSize: Int32 := 10
  const MaxPageSize: Int32 := 100

  const RoutePrefix: string := "api/customers/"
  const RouteSuffix: string := "/orders"

  /** The query string as bound: a parameter that is not in the request is `None`. */
  datatype OrdersQuery = OrdersQuery(page: Option<Int32>, pageSize: Option<Int32>, filter: OrderService.OrderFilter)

  /** The route of one customer's orders. */
  function RoutePath(customerId: int): string {
    RoutePrefix + Text.IntToString(customerId) + RouteSuffix
  }

  /** The middle segment of a path that has the route's prefix and suffix. */
  function Segment(path: string): string
    requires |RoutePrefix| + |RouteSuffix| < |path|
  {
    path[|RoutePrefix|..|path| - |RouteSuffix|]
  }

  /** The path has the route's shape around a non-empty segment. */
  predicate HasRouteShape(path: string) {
    && |RoutePrefix| + |RouteSuffix| < |path|
    && path[..|RoutePrefix|] == RoutePrefix
    && path[|path| - |RouteSuffix|..] == RouteSuffix
  }

  /** The customer id a path binds to, when the path has the route's shape and its middle
      segment is a decimal number within the range of a C# `int`. */
  function MatchRoute(path: string): (r: Option<Int32>)
    ensures r.Some? <==> && HasRouteShape(path)
                         && Text.IsIntText(Segment(path))
                         && -TwoTo31 <= Text.ParseInt(Segment(path)) < TwoTo31
    ensures r.Some? ==> r.value == Text.ParseInt(Segment(path))
  {
    if |path| <= |RoutePrefix| + |RouteSuffix| then None
    else if path[..|RoutePrefix|] != RoutePrefix || path[|path| - |RouteSuffix|..] != RouteSuffix then None
    else
      var segment := path[|RoutePrefix|..|path| - |RouteSuffix|];
      if !Text.IsIntText(segment) then None
      else
        var n := Text.ParseInt(segment);
        if -TwoTo31 <= n < TwoTo31 then Some(n) else None
  }

  /** The path built for a customer id binds back to that id. */
  lemma RouteRoundTrip(customerId: Int32)
    ensures MatchRoute(RoutePath(customerId)) == Some(customerId)
  {
    var digits := Text.IntToString(customerId);
    var path := RoutePath(customerId);
    Text.IntRoundTrip(customerId);
    assert path[|RoutePrefix|..|path| - |RouteSuffix|] == digits;
    assert path[..|RoutePrefix|] == RoutePrefix;
    assert path[|path| - |RouteSuffix|..] == RouteSuffix;
  }

  /** The page handed to the service: 1 when absent or not positive. */
  function NormalizePage(page: Option<Int32>): (p: Int32)
    ensures 1 <= p
    ensures page.Some? && 1 <= page.value ==> p == page.value
    ensures page.None? || page.value <= 0 ==> p == DefaultPage
  {
    var requested := page.GetOr(DefaultPage);
    if requested <= 0 then 1 else requested
  }

  /** The page size handed to the service: 10 when absent, not positive, or above 100. */
  function NormalizePageSize(pageSize: Option<Int32>): (s: Int32)
    ensures 1 <= s <= MaxPageSize
    ensures pageSize.Some? && 1 <= pageSize.value <= MaxPageSize ==> s == pageSize.value
    ensures pageSize.None? || pageSize.value <= 0 || MaxPageSize < pageSize.value ==> s == DefaultPageSize
  {
    var requested := pageSize.GetOr(DefaultPageSize);
    if requested <= 0 || requested > MaxPageSize then 10 else requested
  }

  /** Normalising a normalised value changes nothing. */
  lemma NormalizeIdempotent(page: Option<Int32>, pageSize: Option<Int32>)
    ensures NormalizePage(Some(NormalizePage(page))) == NormalizePage(page)
    ensures NormalizePageSize(Some(NormalizePageSize(pageSize))) == NormalizePageSize(pageSize)
  {
  }

  /** `GetCustomerOrders`: the service's page for the normalised paging values. The
      service computes its offset in 32-bit arithmetic, which the clamping does not guard:
      the page is unbounded. */
  function GetCustomerOrders(orders: seq<Order>, customerId: Int32, q: OrdersQuery): (r: OrderService.PagedResult)
    ensures r.page == NormalizePage(q.page) && r.pageSize == NormalizePageSize(q.pageSize)
    ensures 1 <= r.page && 1 <= r.pageSize <= MaxPageSize
    ensures r.totalCount == |OrderService.Select(orders, customerId, q.filter)|
    ensures |r.items| <= r.pageSize && |r.items| <= r.totalCount
    ensures Sorting.SortedDesc(r.items, OrderService.DtoCreatedAt)
  {
    OrderService.GetCustomerOrdersAsWritten(orders, customerId, NormalizePage(q.page), NormalizePageSize(q.pageSize), q.filter)
  }

  /** Up to page 21474837 the 32-bit offset of the service cannot wrap for any page size
      the controller lets through, so the controller answers with the exact page. */
  lemma AsWrittenAgreesBelowOverflow(orders: seq<Order>, customerId: Int32, q: OrdersQuery)
    requires NormalizePage(q.page) <= 21474837
    ensures GetCustomerOrders(orders, customerId, q)
         == OrderService.GetCustomerOrders(orders, customerId, NormalizePage(q.page),
                                           NormalizePageSize(q.pageSize), q.filter)
  {
    var p, s := NormalizePage(q.page), NormalizePageSize(q.pageSize);
    OffsetFits(p - 1, s);
  }

  lemma OffsetFits(a: int, b: int)
    requires 0 <= a <= 21474836 && 0 <= b <= 100
    ensures 0 <= a * b <= 2147483600
  {
  }
}
