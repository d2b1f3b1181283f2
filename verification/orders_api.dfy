/** The browser's order query: the URL of one customer's orders and the query parameters
    it carries, with the optional filters sent only when they hold a value. */
module OrdersApi {
  import opened Common
  import OrdersController

  /** A query parameter's value before it is written into the query string. */
  datatype ParamValue = NumberParam(n: int) | TextParam(s: string) | AmountParam(a: real)

  /** The options of `getCustomerOrders`: an optional member is `None` when undefined. */
  datatype QueryOptions = QueryOptions(page: int, pageSize: int,
                                       fromDate: Option<string>, toDate: Option<string>,
                                       minAmount: Option<real>, maxAmount: Option<real>)

  datatype Request = Request(url: string, params: map<string, ParamValue>)

  /** The six parameter names the query can carry. */
  const ParamNames: set<string> := {"page", "pageSize", "fromDate", "toDate", "minAmount", "maxAmount"}

  /** A date is sent when it is a non-empty string. */
  function SetDate(params: map<string, ParamValue>, name: string, value: Option<string>): (r: map<string, ParamValue>)
    ensures value.Some? && value.value != "" ==> r == params[name := TextParam(value.value)]
    ensures value.None? || value.value == "" ==> r == params
  {
    if value.Some? && value.value != "" then params[name := TextParam(value.value)] else params
  }

  /** An amount is sent when it is not null or undefined, zero included. */
  function SetAmount(params: map<string, ParamValue>, name: string, value: Option<real>): (r: map<string, ParamValue>)
    ensures value.Some? ==> r == params[name := AmountParam(value.value)]
    ensures value.None? ==> r == params
  {
    if value.Some? then params[name := AmountParam(value.value)] else params
  }

  /** `getCustomerOrders`: the request for one customer's orders. */
  function GetCustomerOrders(apiBase: string, customerId: int, o: QueryOptions): (r: Request)
    ensures r.params.Keys <= ParamNames
    ensures "page" in r.params && r.params["page"] == NumberParam(o.page)
    ensures "pageSize" in r.params && r.params["pageSize"] == NumberParam(o.pageSize)
    ensures "fromDate" in r.params <==> o.fromDate.Some? && o.fromDate.value != ""
    ensures "toDate" in r.params <==> o.toDate.Some? && o.toDate.value != ""
    ensures "minAmount" in r.params <==> o.minAmount.Some?
    ensures "maxAmount" in r.params <==> o.maxAmount.Some?
    ensures "fromDate" in r.params ==> r.params["fromDate"] == TextParam(o.fromDate.value)
    ensures "toDate" in r.params ==> r.params["toDate"] == TextParam(o.toDate.value)
    ensures "minAmount" in r.params ==> r.params["minAmount"] == AmountParam(o.minAmount.value)
    ensures "maxAmount" in r.params ==> r.params["maxAmount"] == AmountParam(o.maxAmount.value)
  {
    var base := map["page" := NumberParam(o.page), "pageSize" := NumberParam(o.pageSize)];
    var withDates := SetDate(SetDate(base, "fromDate", o.fromDate), "toDate", o.toDate);
    var params := SetAmount(SetAmount(withDates, "minAmount", o.minAmount), "maxAmount", o.maxAmount);
    Request(apiBase + "/" + OrdersController.RoutePath(customerId), params)
  }

  /** The request's path after the API base matches the server's route and binds the
      customer id it was built for. */
  lemma RequestReachesRoute(apiBase: string, customerId: Int32, o: QueryOptions)
    ensures var url := GetCustomerOrders(apiBase, customerId, o).url;
            && |apiBase| + 1 <= |url|
            && url[..|apiBase| + 1] == apiBase + "/"
            && OrdersController.MatchRoute(url[|apiBase| + 1..]) == Some(customerId)
  {
    var url := GetCustomerOrders(apiBase, customerId, o).url;
    assert url == (apiBase + "/") + OrdersController.RoutePath(customerId);
    assert url[|apiBase| + 1..] == OrdersController.RoutePath(customerId);
    OrdersController.RouteRoundTrip(customerId);
  }

  /** Only page and page size are sent exactly when no filter has a value to send. */
  lemma OnlyPagingWithoutFilters(apiBase: string, customerId: int, o: QueryOptions)
    ensures GetCustomerOrders(apiBase, customerId, o).params.Keys == {"page", "pageSize"}
        <==> (o.fromDate.None? || o.fromDate.value == "") && (o.toDate.None? || o.toDate.value == "")
             && o.minAmount.None? && o.maxAmount.None?
  {
    var keys := GetCustomerOrders(apiBase, customerId, o).params.Keys;
    if keys == {"page", "pageSize"} {
      assert "fromDate" !in keys && "toDate" !in keys && "minAmount" !in keys && "maxAmount" !in keys;
    }
  }
}
