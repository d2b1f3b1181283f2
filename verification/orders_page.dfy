/** The orders page of one customer: the query it issues for the current page and filters,
    the page count it derives from the server's total, the window of page numbers it
    shows, navigation, the auto-update preference, and its reaction to live
    `OrderCreated` events. Each HTTP call is recorded as the options it was issued with;
    its answer arrives through `OnOrdersLoaded` or `OnOrdersFailed`. */
module OrdersPage {
  import opened Common
  import Text
  import Toasts
  import OrdersApi
  import OrderService
  import OrdersController
  import OrdersHub
  import Realtime
  import EventWire

  const PageSize: int := 10
  const MaxVisiblePages: int := 5

  const LoadFailedMessage: string := "Failed to load orders."
  const AutoUpdateOnMessage: string := "Auto-update enabled - Orders will refresh automatically"
  const AutoUpdateOffMessage: string := "Auto-update paused - Manual refresh only"

  /** The filter form: empty strings and `None` mean "not set". */
  datatype Filters = Filters(fromDate: string, toDate: string, minAmount: Option<real>, maxAmount: Option<real>)

  const NoFilters: Filters := Filters("", "", None, None)

  /** The page's state. `saved` is the stored auto-update preference; `client` is the
      shared real-time service; `loads` lists the order queries issued so far. */
  datatype OrdersView = OrdersView(
    customerId: int,
    currentPage: int,
    totalCount: int,
    totalPages: int,
    orders: seq<OrderService.OrderDto>,
    loading: bool,
    error: Option<string>,
    filters: Filters,
    autoUpdate: bool,
    saved: Option<string>,
    realtimeConnected: bool,
    client: Realtime.Client,
    loads: seq<OrdersApi.QueryOptions>,
    toasts: Toasts.ToastService)

  /** `hasActiveFilters`: a date is set when non-empty, an amount when not null. */
  predicate HasActiveFilters(f: Filters) {
    f.fromDate != "" || f.toDate != "" || f.minAmount.Some? || f.maxAmount.Some?
  }

  /** The options `loadOrders` passes: an empty date becomes undefined. */
  function LoadOptions(v: OrdersView): (o: OrdersApi.QueryOptions)
    ensures o.page == v.currentPage && o.pageSize == PageSize
    ensures o.fromDate.Some? <==> v.filters.fromDate != ""
    ensures o.toDate.Some? <==> v.filters.toDate != ""
    ensures o.fromDate.Some? ==> o.fromDate.value == v.filters.fromDate
    ensures o.toDate.Some? ==> o.toDate.value == v.filters.toDate
    ensures o.minAmount == v.filters.minAmount && o.maxAmount == v.filters.maxAmount
  {
    OrdersApi.QueryOptions(v.currentPage, PageSize,
                           if v.filters.fromDate == "" then None else Some(v.filters.fromDate),
                           if v.filters.toDate == "" then None else Some(v.filters.toDate),
                           v.filters.minAmount, v.filters.maxAmount)
  }

  /** The request carries a filter parameter exactly when the form has an active filter. */
  lemma ActiveFiltersAreSent(apiBase: string, v: OrdersView)
    ensures OrdersApi.GetCustomerOrders(apiBase, v.customerId, LoadOptions(v)).params.Keys != {"page", "pageSize"}
        <==> HasActiveFilters(v.filters)
  {
    OrdersApi.OnlyPagingWithoutFilters(apiBase, v.customerId, LoadOptions(v));
  }

  /** `loadOrders`: marks the page loading, clears the error, issues the query. */
  function LoadOrders(v: OrdersView): (r: OrdersView)
    ensures r.loading && r.error.None?
    ensures r.loads == v.loads + [LoadOptions(v)]
    ensures r.currentPage == v.currentPage && r.filters == v.filters && r.toasts == v.toasts
  {
    v.(loading := true, error := None, loads := v.loads + [LoadOptions(v)])
  }

  /** `Math.ceil(totalCount / pageSize)` for the page size of 10. */
  function TotalPages(totalCount: int): (pages: int)
    ensures PageSize * (pages - 1) < totalCount <= PageSize * pages
  {
    (totalCount + PageSize - 1) / PageSize
  }

  /** The query answered: the items, the total, and the page count. */
  function OnOrdersLoaded(v: OrdersView, result: OrderService.PagedResult): (r: OrdersView)
    ensures r.orders == result.items && r.totalCount == result.totalCount
    ensures PageSize * (r.totalPages - 1) < result.totalCount <= PageSize * r.totalPages
    ensures !r.loading && r.currentPage == v.currentPage
  {
    v.(orders := result.items, totalCount := result.totalCount,
       totalPages := TotalPages(result.totalCount), loading := false)
  }

  /** The query failed: the message is shown and the previous rows stay. */
  function OnOrdersFailed(v: OrdersView): (r: OrdersView)
    ensures r.error == Some(LoadFailedMessage) && !r.loading
    ensures r.orders == v.orders && r.totalPages == v.totalPages
  {
    v.(error := Some(LoadFailedMessage), loading := false)
  }

  /** The pages the client offers are exactly the pages on which the server returns at
      least one order: page `p` (from 1) is within the page count derived from the total
      precisely when the server's page `p` of size 10 is not empty. */
  lemma OfferedPagesAreNonEmpty(totalCount: nat, page: int)
    requires 1 <= page
    ensures page <= TotalPages(totalCount) <==> OrderService.PageLength(totalCount, page, PageSize) >= 1
  {
  }

  /** The paging values the page sends reach the service unchanged: the controller only
      replaces values the page never sends. */
  lemma ControllerKeepsClientPaging(page: Int32)
    requires 1 <= page
    ensures OrdersController.NormalizePage(Some(page)) == page
    ensures OrdersController.NormalizePageSize(Some(PageSize)) == PageSize
  {
  }

  /** `paginationPages`: at most five consecutive page numbers, centred on the current
      page where the page count allows, shifted to stay within 1 … `totalPages`. */
  method PaginationPages(currentPage: int, totalPages: int) returns (pages: seq<int>)
    ensures |pages| == Max(0, Min(MaxVisiblePages, totalPages))
    ensures forall k :: 0 <= k < |pages| ==> pages[k] == pages[0] + k
    ensures forall k :: 0 <= k < |pages| ==> 1 <= pages[k] <= totalPages
    ensures 1 <= currentPage <= totalPages ==> currentPage in pages
    ensures 3 <= currentPage <= totalPages - 2 ==> pages == [currentPage - 2, currentPage - 1, currentPage, currentPage + 1, currentPage + 2]
  {
    var start := Max(1, currentPage - MaxVisiblePages / 2);
    var end := Min(totalPages, start + MaxVisiblePages - 1);
    if end - start < MaxVisiblePages - 1 {
      start := Max(1, end - MaxVisiblePages + 1);
    }
    pages := [];
    var i := start;
    while i <= end
      invariant start <= i <= Max(start, end + 1)
      invariant |pages| == i - start
      invariant forall k :: 0 <= k < |pages| ==> pages[k] == start + k
    {
      pages := pages + [i];
      i := i + 1;
    }
    if 1 <= currentPage <= totalPages {
      assert pages[currentPage - start] == currentPage;
    }
  }

  /** `goToPage`: a page outside 1 … `totalPages` is ignored; any other is loaded. */
  function GoToPage(v: OrdersView, page: int): (r: OrdersView)
    ensures 1 <= page <= v.totalPages ==> r.currentPage == page && r.loads == v.loads + [LoadOptions(r)]
    ensures page < 1 || v.totalPages < page ==> r == v
  {
    if page < 1 || page > v.totalPages then v else LoadOrders(v.(currentPage := page))
  }

  /** `nextPage`: one page on, unless already on the last. */
  function NextPage(v: OrdersView): (r: OrdersView)
    ensures v.currentPage < v.totalPages ==> r.currentPage == v.currentPage + 1 && r.loads == v.loads + [LoadOptions(r)]
    ensures v.totalPages <= v.currentPage ==> r == v
  {
    if v.currentPage < v.totalPages then LoadOrders(v.(currentPage := v.currentPage + 1)) else v
  }

  /** `previousPage`: one page back, unless already on the first. */
  function PreviousPage(v: OrdersView): (r: OrdersView)
    ensures 1 < v.currentPage ==> r.currentPage == v.currentPage - 1 && r.loads == v.loads + [LoadOptions(r)]
    ensures v.currentPage <= 1 ==> r == v
  {
    if v.currentPage > 1 then LoadOrders(v.(currentPage := v.currentPage - 1)) else v
  }

  /** The page stays within 1 … `max(1, totalPages)` under all three navigations. */
  predicate PageInRange(v: OrdersView) {
    1 <= v.currentPage <= Max(1, v.totalPages)
  }

  lemma NavigationKeepsPageInRange(v: OrdersView, page: int)
    requires PageInRange(v)
    ensures PageInRange(GoToPage(v, page))
    ensures PageInRange(NextPage(v))
    ensures PageInRange(PreviousPage(v))
  {
  }

  /** Next then previous returns to the same page, issuing one query for each move. */
  lemma NextThenPrevious(v: OrdersView)
    requires 1 <= v.currentPage < v.totalPages
    ensures var r := PreviousPage(NextPage(v));
            && r.currentPage == v.currentPage
            && |r.loads| == |v.loads| + 2
            && r.loads[|r.loads| - 1].page == v.currentPage
  {
  }

  /** `applyFilters`: the edited form, from page 1. */
  function ApplyFilters(v: OrdersView, f: Filters): (r: OrdersView)
    ensures r.filters == f && r.currentPage == 1
    ensures r.loads == v.loads + [LoadOptions(r)]
  {
    LoadOrders(v.(filters := f, currentPage := 1))
  }

  /** `clearFilters`: an empty form, from page 1. */
  function ClearFilters(v: OrdersView): (r: OrdersView)
    ensures r.filters == NoFilters && !HasActiveFilters(r.filters) && r.currentPage == 1
    ensures r.loads == v.loads + [LoadOptions(r)]
  {
    LoadOrders(v.(filters := NoFilters, currentPage := 1))
  }

  /** After clearing, the query sent is the first page with no filter parameter. */
  lemma ClearedQueryIsFirstPlainPage(apiBase: string, v: OrdersView)
    ensures var r := ClearFilters(v);
            var q := OrdersApi.GetCustomerOrders(apiBase, v.customerId, r.loads[|r.loads| - 1]);
            q.params.Keys == {"page", "pageSize"} && q.params["page"] == OrdersApi.NumberParam(1)
  {
    var r := ClearFilters(v);
    ActiveFiltersAreSent(apiBase, r);
  }

  /** The preference restored at start-up: on unless the stored text says otherwise. */
  function RestoredAutoUpdate(saved: Option<string>): (on: bool)
    ensures saved.None? ==> on
    ensures saved.Some? ==> (on <==> saved.value == "true")
  {
    if saved.Some? then saved.value == "true" else true
  }

  /** `toggleAutoUpdate`: flips the preference, stores it as text, and confirms it. */
  function ToggleAutoUpdate(v: OrdersView): (r: OrdersView)
    ensures r.autoUpdate == !v.autoUpdate
    ensures r.saved == Some(if r.autoUpdate then "true" else "false")
    ensures |r.toasts.emitted| == |v.toasts.emitted| + 1
    ensures var t := r.toasts.emitted[|r.toasts.emitted| - 1];
            && (r.autoUpdate ==> t.kind == Toasts.Success && t.message == AutoUpdateOnMessage)
            && (!r.autoUpdate ==> t.kind == Toasts.Warning && t.message == AutoUpdateOffMessage)
    ensures r.loads == v.loads
  {
    var on := !v.autoUpdate;
    var toasts := if on then Toasts.Show(v.toasts, Toasts.Success, AutoUpdateOnMessage, None)
                  else Toasts.Show(v.toasts, Toasts.Warning, AutoUpdateOffMessage, None);
    v.(autoUpdate := on, saved := Some(if on then "true" else "false"), toasts := toasts)
  }

  /** The stored preference reads back as the toggled value, and toggling twice restores
      the original preference. */
  lemma ToggleIsRemembered(v: OrdersView)
    ensures RestoredAutoUpdate(ToggleAutoUpdate(v).saved) == ToggleAutoUpdate(v).autoUpdate
    ensures ToggleAutoUpdate(ToggleAutoUpdate(v)).autoUpdate == v.autoUpdate
  {
  }

  /** The toast for a new order, as the template literal builds it; `amountText` is
      `amount.toFixed(2)`. */
  function NewOrderMessage(orderId: Option<int>, amountText: string): (m: string)
    ensures orderId.Some? ==> m == "New order #" + Text.IntToString(orderId.value) + " received ($" + amountText + ")"
    ensures orderId.None? ==> m == "New order #undefined received ($" + amountText + ")"
  {
    "New order #" + (if orderId.Some? then Text.IntToString(orderId.value) else "undefined")
      + " received ($" + amountText + ")"
  }

  /** The `OrderCreated` subscription: an event for this customer, while auto-update is on,
      raises an info toast and reloads the current page. A missing amount makes
      `toFixed` throw before either happens. */
  function OnOrderCreated(v: OrdersView, event: Option<EventWire.ClientEvent>, toFixed2: real -> string): (r: OrdersView)
    ensures var reacts := event.Some? && event.value.customerId == Some(v.customerId) && v.autoUpdate
                          && event.value.amount.Some?;
            && (reacts ==> && r.loads == v.loads + [LoadOptions(v)]
                           && r.toasts == Toasts.Show(v.toasts, Toasts.Info,
                                NewOrderMessage(event.value.orderId, toFixed2(event.value.amount.value)), None))
            && (!reacts ==> r == v)
  {
    if event.Some? && event.value.customerId == Some(v.customerId) && v.autoUpdate then
      var e := event.value;
      if e.amount.None? then v
      else
        var toasts := Toasts.Show(v.toasts, Toasts.Info, NewOrderMessage(e.orderId, toFixed2(e.amount.value)), None);
        LoadOrders(v.(toasts := toasts))
    else v
  }

  /** The events handed to the subscription, in order. */
  function Deliver(v: OrdersView, events: seq<Option<EventWire.ClientEvent>>, toFixed2: real -> string): (r: OrdersView)
    ensures |r.loads| <= |v.loads| + |events|
    decreases |events|
  {
    if |events| == 0 then v else Deliver(OnOrderCreated(v, events[0], toFixed2), events[1..], toFixed2)
  }

  /** With the message as the server writes it, the toast for a new order of this customer
      reads "New order #undefined". */
  lemma AsWrittenToastSaysUndefined(v: OrdersView, e: OrdersHub.OrderCreated, toFixed2: real -> string)
    requires v.autoUpdate && e.customerId == v.customerId
    ensures var r := OnOrderCreated(v, Some(EventWire.Read(EventWire.Serialize(EventWire.AsWrittenMembers(e)))), toFixed2);
            && |r.toasts.emitted| == |v.toasts.emitted| + 1
            && r.toasts.emitted[|r.toasts.emitted| - 1].message
                 == "New order #undefined received ($" + toFixed2(e.amount) + ")"
  {
    EventWire.AsWrittenOrderIdIsUndefined(e);
  }

  /** With the corrected message the toast names the order's id. */
  lemma ToastNamesTheNewOrder(v: OrdersView, e: OrdersHub.OrderCreated, toFixed2: real -> string)
    requires v.autoUpdate && e.customerId == v.customerId
    ensures var r := OnOrderCreated(v, Some(EventWire.Receive(e)), toFixed2);
            && |r.toasts.emitted| == |v.toasts.emitted| + 1
            && r.toasts.emitted[|r.toasts.emitted| - 1].message
                 == "New order #" + Text.IntToString(e.id) + " received ($" + toFixed2(e.amount) + ")"
            && r.loads == v.loads + [LoadOptions(v)]
  {
    EventWire.ReceiveRoundTrip(e);
  }

  /** As written, subscribing after events were received — the page was left and opened
      again — raises a toast and a reload when the last of them was for this customer,
      although no order was created since. */
  lemma StaleEventReplayedAsWritten(v: OrdersView, events: seq<EventWire.ClientEvent>, toFixed2: real -> string)
    requires v.autoUpdate
    requires |events| > 0
    requires events[|events| - 1].customerId == Some(v.customerId) && events[|events| - 1].amount.Some?
    ensures var r := Deliver(v, Realtime.ReplayAsWritten(Realtime.AfterEvents(events)), toFixed2);
            |r.loads| == |v.loads| + 1 && |r.toasts.emitted| == |v.toasts.emitted| + 1
  {
    var replay := Realtime.ReplayAsWritten(Realtime.AfterEvents(events));
    Realtime.SubscribeAfterEvents(events);
    assert replay[1..] == [];
  }

  /** Without the replay a fresh subscription reacts to nothing until a new event arrives,
      whatever was received before. */
  lemma NoReactionOnSubscribe(v: OrdersView, events: seq<EventWire.ClientEvent>, toFixed2: real -> string)
    ensures Deliver(v, Realtime.Replay(Realtime.AfterEvents(events)), toFixed2) == v
  {
  }

  /** `setupRealtime`: start the connection, then join this customer's group; a failed
      start is caught and leaves the page marked as not connected. */
  function SetupRealtime(v: OrdersView, transportSucceeds: bool): (r: OrdersView)
    ensures r.realtimeConnected <==> Realtime.Start(v.client, transportSucceeds).outcome != Realtime.StartFailed
    ensures r.realtimeConnected ==> Realtime.IsConnected(r.client)
                                    && r.client.invoked == v.client.invoked + [Realtime.JoinGroup(v.customerId)]
    ensures !r.realtimeConnected ==> r.client.invoked == v.client.invoked
    ensures r.loads == v.loads
  {
    var started := Realtime.Start(v.client, transportSucceeds);
    if started.outcome == Realtime.StartFailed then v.(client := started.client, realtimeConnected := false)
    else v.(client := Realtime.JoinCustomerGroup(started.client, v.customerId), realtimeConnected := true)
  }

  /** `ngOnInit` for the route's customer id: restore the preference; for a non-zero id,
      load the first page and set up the real-time link. */
  function Init(customerId: int, saved: Option<string>, client: Realtime.Client,
                toasts: Toasts.ToastService, transportSucceeds: bool): (r: OrdersView)
    ensures r.customerId == customerId && r.currentPage == 1 && r.filters == NoFilters
    ensures r.autoUpdate == RestoredAutoUpdate(saved)
    ensures customerId == 0 ==> r.loads == [] && r.client == client && !r.realtimeConnected
    ensures customerId != 0 ==> r.loads == [OrdersApi.QueryOptions(1, PageSize, None, None, None, None)]
    ensures customerId != 0 ==> (r.realtimeConnected <==> Realtime.Start(client, transportSucceeds).outcome != Realtime.StartFailed)
    ensures customerId != 0 && r.realtimeConnected ==> r.client.invoked == client.invoked + [Realtime.JoinGroup(customerId)]
    ensures customerId != 0 && !r.realtimeConnected ==> r.client.invoked == client.invoked
  {
    var v := OrdersView(customerId, 1, 0, 0, [], false, None, NoFilters, RestoredAutoUpdate(saved), saved,
                        false, client, [], toasts);
    if customerId != 0 then SetupRealtime(LoadOrders(v), transportSucceeds) else v
  }

  /** `ngOnDestroy`: leave the customer's group when there is one. */
  function Destroy(v: OrdersView): (r: OrdersView)
    ensures v.customerId != 0 && Realtime.IsConnected(v.client)
            ==> r.client.invoked == v.client.invoked + [Realtime.LeaveGroup(v.customerId)]
    ensures v.customerId == 0 || !Realtime.IsConnected(v.client) ==> r == v
  {
    if v.customerId != 0 then v.(client := Realtime.LeaveCustomerGroup(v.client, v.customerId)) else v
  }

  /** Opening the page and closing it again while connected leaves the server's groups as
      they were: the join is undone by the leave. */
  lemma OpenThenCloseRestoresGroups(customerId: int, saved: Option<string>, client: Realtime.Client,
                                    toasts: Toasts.ToastService, groups: OrdersHub.Groups,
                                    connection: OrdersHub.ConnectionId)
    requires customerId != 0 && Realtime.IsConnected(client)
    requires connection !in OrdersHub.Members(groups, OrdersHub.GroupName(customerId))
    ensures var r := Destroy(Init(customerId, saved, client, toasts, true));
            && r.client.invoked == client.invoked + [Realtime.JoinGroup(customerId), Realtime.LeaveGroup(customerId)]
            && var after := Realtime.Apply(Realtime.Apply(groups, connection, Realtime.JoinGroup(customerId)),
                                           connection, Realtime.LeaveGroup(customerId));
               forall name :: OrdersHub.Members(after, name) == OrdersHub.Members(groups, name)
  {
    OrdersHub.JoinThenLeave(groups, connection, customerId);
  }
}
