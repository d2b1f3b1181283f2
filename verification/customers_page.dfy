/** The customers dashboard: the list of customers with each one's order count and latest
    order time, the create/edit form and its validation, deletion, and the refresh on
    live events or, when the real-time link cannot start, by polling. Each HTTP call is
    recorded; its outcome is a parameter of the operation that awaits it. */
module CustomersPage {
  import opened Common
  import Text
  import Toasts
  import Store
  import Sorting
  import CustomerService
  import OrderJobManager
  import OrderService
  import OrdersApi
  import Realtime
  import EventWire
  import OrdersHub

  const RequiredMessage: string := "Name and Email are required."
  const SaveFailedMessage: string := "Save failed."
  const DeleteFailedMessage: string := "Delete failed."
  const CreatedMessage: string := "Customer created successfully!"
  const UpdatedMessage: string := "Customer updated successfully!"
  const DeletedMessage: string := "Customer deleted successfully!"
  const SaveFailedToast: string := "Failed to save customer. Please try again."
  const DeleteFailedToast: string := "Failed to delete customer. Please try again."

  /** The form model. */
  datatype Form = Form(name: string, email: string, isActive: bool)

  const EmptyForm: Form := Form("", "", true)

  /** `CustomerDashboardItem`: the customer with its order count and latest order time. */
  datatype DashboardItem = DashboardItem(customer: CustomerService.CustomerDto, totalOrders: int,
                                         latestOrderTime: Option<int>)

  function ItemCreatedAt(item: DashboardItem): int { item.customer.createdAt }

  /** A call the page makes to the server. */
  datatype Call =
    | LoadCustomers
    | CreateCustomer(input: CustomerService.CustomerInput)
    | UpdateCustomer(id: int, input: CustomerService.CustomerInput)
    | DeleteCustomer(id: int)

  datatype CustomersView = CustomersView(
    customers: seq<DashboardItem>,
    form: Form,
    editingId: Option<int>,
    loading: bool,
    error: Option<string>,
    realtimeConnected: bool,
    polling: bool,
    client: Realtime.Client,
    calls: seq<Call>,
    toasts: Toasts.ToastService)

  /** The order query made for each customer: page 1 of size 1, unfiltered. */
  const DashboardOptions: OrdersApi.QueryOptions := OrdersApi.QueryOptions(1, 1, None, None, None, None)

  /** `loadDashboard` as subscribed: marks the page loading, clears the error, and asks
      for the customers. */
  function LoadDashboard(v: CustomersView): (r: CustomersView)
    ensures r.loading && r.error.None? && r.calls == v.calls + [LoadCustomers]
    ensures r.customers == v.customers && r.toasts == v.toasts
  {
    v.(loading := true, error := None, calls := v.calls + [LoadCustomers])
  }

  /** One customer's row from its order query: the total and the first item's time, or
      zero and no time when the query failed. */
  function DashboardEntry(c: CustomerService.CustomerDto, answer: Option<OrderService.PagedResult>): (item: DashboardItem)
    ensures item.customer == c
    ensures answer.None? ==> item.totalOrders == 0 && item.latestOrderTime.None?
    ensures answer.Some? ==> item.totalOrders == answer.value.totalCount
    ensures answer.Some? ==> (item.latestOrderTime.Some? <==> |answer.value.items| > 0)
    ensures item.latestOrderTime.Some? ==> item.latestOrderTime.value == answer.value.items[0].createdAt
  {
    match answer
    case None => DashboardItem(c, 0, None)
    case Some(paged) =>
      DashboardItem(c, paged.totalCount, if |paged.items| > 0 then Some(paged.items[0].createdAt) else None)
  }

  /** The rows once every customer's query has answered, in the order the page sorts
      them. Its comparator never answers "equal", so the language leaves the order of
      customers created at the same time to the implementation; only the rows themselves
      are promised, each exactly once. */
  function Dashboard(customers: seq<CustomerService.CustomerDto>, answers: seq<Option<OrderService.PagedResult>>): (r: seq<DashboardItem>)
    requires |answers| == |customers|
    ensures |r| == |customers|
    ensures multiset(r) == multiset(seq(|customers|, i requires 0 <= i < |customers| => DashboardEntry(customers[i], answers[i])))
  {
    Sorting.SortDesc(seq(|customers|, i requires 0 <= i < |customers| => DashboardEntry(customers[i], answers[i])), ItemCreatedAt)
  }

  /** Every customer has its row, built from its own query's answer. */
  lemma DashboardHasEveryCustomer(customers: seq<CustomerService.CustomerDto>,
                                  answers: seq<Option<OrderService.PagedResult>>, i: int)
    requires |answers| == |customers| && 0 <= i < |customers|
    ensures DashboardEntry(customers[i], answers[i]) in Dashboard(customers, answers)
  {
    var rows := seq(|customers|, j requires 0 <= j < |customers| => DashboardEntry(customers[j], answers[j]));
    assert rows[i] in multiset(rows);
  }

  /** The dashboard holds a row for every customer and no row for anyone else. */
  lemma DashboardRows(customers: seq<CustomerService.CustomerDto>, answers: seq<Option<OrderService.PagedResult>>)
    requires |answers| == |customers|
    ensures forall i :: 0 <= i < |customers| ==> DashboardEntry(customers[i], answers[i]) in Dashboard(customers, answers)
    ensures forall item :: item in Dashboard(customers, answers) ==> item.customer in customers
  {
    var rows := seq(|customers|, j requires 0 <= j < |customers| => DashboardEntry(customers[j], answers[j]));
    var r := Dashboard(customers, answers);
    forall i | 0 <= i < |customers|
      ensures DashboardEntry(customers[i], answers[i]) in r
    {
      DashboardHasEveryCustomer(customers, answers, i);
    }
    forall item | item in r
      ensures item.customer in customers
    {
      assert item in multiset(rows);
      var j :| 0 <= j < |rows| && rows[j] == item;
      assert item.customer == customers[j];
    }
  }

  /** The customer list and the order queries answered. */
  function OnDashboardLoaded(v: CustomersView, customers: seq<CustomerService.CustomerDto>,
                             answers: seq<Option<OrderService.PagedResult>>): (r: CustomersView)
    requires |answers| == |customers|
    ensures !r.loading && |r.customers| == |customers|
    ensures customers == [] ==> r.customers == []
    ensures forall i :: 0 <= i < |customers| ==> DashboardEntry(customers[i], answers[i]) in r.customers
    ensures forall item :: item in r.customers ==> item.customer in customers
  {
    DashboardRows(customers, answers);
    v.(customers := Dashboard(customers, answers), loading := false)
  }

  /** The customer list failed: the rows stay and the message names the failed URL when
      there is one. */
  function OnDashboardFailed(v: CustomersView, url: Option<string>): (r: CustomersView)
    ensures !r.loading && r.customers == v.customers
    ensures url.Some? && url.value != "" ==>
              r.error == Some("Failed to load customers. Is the backend running at " + url.value + "?")
    ensures url.None? || url.value == "" ==>
              r.error == Some("Failed to load customers. Is the backend running at the API?")
  {
    var where := if url.Some? && url.value != "" then url.value else "the API";
    var message := "Failed to load customers. Is the backend running at " + where + "?";
    assert url.None? || url.value == "" ==> message == "Failed to load customers. Is the backend running at the API?";
    v.(loading := false, error := Some(message))
  }

  /** A row built from the server's answer to page 1 of size 1 shows the customer's full
      order count and the time of its newest order. */
  lemma DashboardEntryMatchesServer(c: CustomerService.CustomerDto, orders: seq<Store.Order>)
    ensures var item := DashboardEntry(c, Some(OrderService.GetCustomerOrders(orders, c.id, 1, 1, OrderService.NoFilter)));
            var mine := Store.OrdersOf(orders, c.id);
            && item.totalOrders == |mine|
            && (item.latestOrderTime.None? <==> |mine| == 0)
            && (item.latestOrderTime.Some? ==>
                  && (forall o :: o in mine ==> o.createdAt <= item.latestOrderTime.value)
                  && (exists o :: o in mine && o.createdAt == item.latestOrderTime.value))
  {
    var paged := OrderService.GetCustomerOrders(orders, c.id, 1, 1, OrderService.NoFilter);
    var mine := Store.OrdersOf(orders, c.id);
    OrderService.NoFilterSelectsOrdersOf(orders, c.id);
    var ranked := OrderService.Ranked(orders, c.id, OrderService.NoFilter);
    assert |paged.items| == Min(1, |mine|);
    if |mine| > 0 {
      assert paged.items[0] == OrderService.ToDto(ranked[0]);
      forall o | o in mine
        ensures o.createdAt <= ranked[0].createdAt
      {
        assert o in multiset(ranked);
        var j :| 0 <= j < |ranked| && ranked[j] == o;
        assert OrderService.OrderCreatedAt(ranked[j]) <= OrderService.OrderCreatedAt(ranked[0]);
      }
      OrderService.RankedOrderIsSelected(orders, c.id, OrderService.NoFilter, 0);
      assert ranked[0] in mine;
    }
  }

  /** The query each row is built from carries only page 1 and page size 1. */
  lemma DashboardQueryIsFirstOrder(apiBase: string, id: int)
    ensures var q := OrdersApi.GetCustomerOrders(apiBase, id, DashboardOptions);
            && q.params.Keys == {"page", "pageSize"}
            && q.params["page"] == OrdersApi.NumberParam(1) && q.params["pageSize"] == OrdersApi.NumberParam(1)
  {
    OrdersApi.OnlyPagingWithoutFilters(apiBase, id, DashboardOptions);
  }

  /** The payload `submit` sends: both texts trimmed. A text comes out empty exactly when
      the field held only whitespace. */
  function Payload(f: Form): (p: CustomerService.CustomerInput)
    ensures p.isActive == f.isActive
    ensures p.name == [] <==> Text.AllWhitespace(f.name)
    ensures p.email == [] <==> Text.AllWhitespace(f.email)
  {
    Text.TrimEmptyIff(f.name);
    Text.TrimEmptyIff(f.email);
    CustomerService.CustomerInput(Text.Trim(f.name), Text.Trim(f.email), f.isActive)
  }

  /** Nothing is left to trim: a payload's own texts typed back into the form give the
      same payload. */
  lemma PayloadStable(f: Form)
    ensures var p := Payload(f); Payload(Form(p.name, p.email, p.isActive)) == p
  {
    Text.TrimIdempotent(f.name);
    Text.TrimIdempotent(f.email);
  }

  /** `resetForm`. */
  function ResetForm(v: CustomersView): (r: CustomersView)
    ensures r.editingId.None? && r.form == EmptyForm
    ensures r.calls == v.calls && r.customers == v.customers
  {
    v.(editingId := None, form := EmptyForm)
  }

  /** The call that saves the payload: a create, or an update of the customer being
      edited. */
  function SaveCall(v: CustomersView, p: CustomerService.CustomerInput): Call {
    if v.editingId.None? then CreateCustomer(p) else UpdateCustomer(v.editingId.value, p)
  }

  /** The non-blank branch of `submit`: the save call is sent; on success the form is
      reset and the dashboard reloaded, on failure the form stays with an error. */
  function Save(v: CustomersView, p: CustomerService.CustomerInput, saveSucceeds: bool): (r: CustomersView)
    ensures saveSucceeds ==> r.form == EmptyForm && r.editingId.None? && r.loading
                             && r.calls == v.calls + [SaveCall(v, p), LoadCustomers]
    ensures !saveSucceeds ==> r.error == Some(SaveFailedMessage) && r.form == v.form
                              && r.editingId == v.editingId && r.calls == v.calls + [SaveCall(v, p)]
    ensures |r.toasts.emitted| == |v.toasts.emitted| + 1
  {
    var sent := v.(error := None, calls := v.calls + [SaveCall(v, p)]);
    if saveSucceeds then
      var message := if v.editingId.None? then CreatedMessage else UpdatedMessage;
      LoadDashboard(ResetForm(sent.(toasts := Toasts.Show(v.toasts, Toasts.Success, message, None))))
    else
      sent.(error := Some(SaveFailedMessage), toasts := Toasts.Show(v.toasts, Toasts.Error, SaveFailedToast, None))
  }

  /** `submit`: an empty name or email after trimming stops with a message; otherwise the
      customer is created, or updated when one is being edited, and on success the form
      is reset and the dashboard reloaded. */
  function Submit(v: CustomersView, saveSucceeds: bool): (r: CustomersView)
    ensures var p := Payload(v.form);
            && (p.name == [] || p.email == [] ==> r == v.(error := Some(RequiredMessage)))
            && (p.name != [] && p.email != [] ==>
                  && |r.calls| >= |v.calls| + 1
                  && r.calls[|v.calls|] == (if v.editingId.None? then CreateCustomer(p) else UpdateCustomer(v.editingId.value, p))
                  && (saveSucceeds ==> r.form == EmptyForm && r.editingId.None? && r.loading
                                       && r.calls == v.calls + [r.calls[|v.calls|], LoadCustomers])
                  && (!saveSucceeds ==> r.error == Some(SaveFailedMessage) && r.form == v.form
                                        && r.editingId == v.editingId && r.calls == v.calls + [r.calls[|v.calls|]]))
    ensures |r.toasts.emitted| <= |v.toasts.emitted| + 1
  {
    var p := Payload(v.form);
    if p.name == [] || p.email == [] then v.(error := Some(RequiredMessage))
    else
      Save(v, p, saveSucceeds)
  }

  /** A call is made exactly when neither field is blank, that is, all whitespace. */
  lemma SubmitCallsIffFilled(v: CustomersView, saveSucceeds: bool)
    ensures |Submit(v, saveSucceeds).calls| > |v.calls|
        <==> !Text.AllWhitespace(v.form.name) && !Text.AllWhitespace(v.form.email)
  {
    Text.TrimEmptyIff(v.form.name);
    Text.TrimEmptyIff(v.form.email);
  }

  /** A customer created from the form is stored with the trimmed texts, and sending the
      stored texts again would send the same payload. */
  lemma CreatedCustomerIsTrimmed(v: CustomersView, b: OrderJobManager.Backend, now: int)
    requires v.editingId.None?
    requires !Text.AllWhitespace(v.form.name) && !Text.AllWhitespace(v.form.email)
    ensures var r := Submit(v, true);
            var call := r.calls[|v.calls|];
            && call.CreateCustomer?
            && var created := CustomerService.Create(b, call.input, now, true);
               && created.value.name == Text.Trim(v.form.name)
               && created.value.email == Text.Trim(v.form.email)
               && Payload(Form(created.value.name, created.value.email, created.value.isActive)) == call.input
  {
    SubmitCallsIffFilled(v, true);
    Text.TrimIdempotent(v.form.name);
    Text.TrimIdempotent(v.form.email);
  }

  /** `edit`: the row's customer is loaded into the form for updating. */
  function Edit(v: CustomersView, item: DashboardItem): (r: CustomersView)
    ensures r.editingId == Some(item.customer.id)
    ensures r.form == Form(item.customer.name, item.customer.email, item.customer.isActive)
    ensures r.calls == v.calls
  {
    v.(editingId := Some(item.customer.id),
       form := Form(item.customer.name, item.customer.email, item.customer.isActive))
  }

  /** Saving an edited row updates that customer, never creates one. */
  lemma EditThenSubmitUpdates(v: CustomersView, item: DashboardItem, saveSucceeds: bool)
    requires !Text.AllWhitespace(item.customer.name) && !Text.AllWhitespace(item.customer.email)
    ensures var r := Submit(Edit(v, item), saveSucceeds);
            r.calls[|v.calls|] == UpdateCustomer(item.customer.id, Payload(Edit(v, item).form))
  {
    SubmitCallsIffFilled(Edit(v, item), saveSucceeds);
  }

  /** `remove`: nothing without confirmation; otherwise the delete is sent, and on success
      the dashboard is reloaded. */
  function Remove(v: CustomersView, id: int, confirmed: bool, deleteSucceeds: bool): (r: CustomersView)
    ensures !confirmed ==> r == v
    ensures confirmed && deleteSucceeds ==> r.calls == v.calls + [DeleteCustomer(id), LoadCustomers] && r.error.None?
    ensures confirmed && !deleteSucceeds ==> r.calls == v.calls + [DeleteCustomer(id)] && r.error == Some(DeleteFailedMessage)
    ensures confirmed ==> |r.toasts.emitted| == |v.toasts.emitted| + 1
  {
    if !confirmed then v
    else
      var sent := v.(error := None, calls := v.calls + [DeleteCustomer(id)]);
      if deleteSucceeds then LoadDashboard(sent.(toasts := Toasts.Show(v.toasts, Toasts.Success, DeletedMessage, None)))
      else sent.(error := Some(DeleteFailedMessage), toasts := Toasts.Show(v.toasts, Toasts.Error, DeleteFailedToast, None))
  }

  /** `setupRealtime`: on a started connection the page listens for events; otherwise it
      falls back to polling. */
  function SetupRealtime(v: CustomersView, transportSucceeds: bool): (r: CustomersView)
    ensures r.realtimeConnected <==> Realtime.Start(v.client, transportSucceeds).outcome != Realtime.StartFailed
    ensures r.polling <==> !r.realtimeConnected
    ensures r.calls == v.calls
  {
    var started := Realtime.Start(v.client, transportSucceeds);
    if started.outcome == Realtime.StartFailed then v.(client := started.client, realtimeConnected := false, polling := true)
    else v.(client := started.client, realtimeConnected := true, polling := false)
  }

  /** An `OrderCreated` event for any customer reloads the dashboard; the initial `null`
      does not. */
  function OnOrderEvent(v: CustomersView, event: Option<EventWire.ClientEvent>): (r: CustomersView)
    ensures event.Some? ==> r.calls == v.calls + [LoadCustomers]
    ensures event.None? ==> r == v
  {
    if event.Some? then LoadDashboard(v) else v
  }

  /** A polling tick reloads the dashboard. */
  function OnPollTick(v: CustomersView): (r: CustomersView)
    ensures v.polling ==> r.calls == v.calls + [LoadCustomers]
    ensures !v.polling ==> r == v
  {
    if v.polling then LoadDashboard(v) else v
  }

  /** `ngOnInit`: load the dashboard, then set up the real-time link. */
  function Init(client: Realtime.Client, toasts: Toasts.ToastService, transportSucceeds: bool): (r: CustomersView)
    ensures r.calls == [LoadCustomers] && r.loading && r.form == EmptyForm && r.editingId.None?
    ensures r.realtimeConnected != r.polling
  {
    var v := CustomersView([], EmptyForm, None, false, None, false, false, client, [], toasts);
    SetupRealtime(LoadDashboard(v), transportSucceeds)
  }

  /** The values handed to the dashboard's event subscription, in order. */
  function DeliverEvents(v: CustomersView, events: seq<Option<EventWire.ClientEvent>>): (r: CustomersView)
    ensures |r.calls| <= |v.calls| + |events|
    ensures (forall i :: 0 <= i < |events| ==> events[i].None?) ==> r == v
    decreases |events|
  {
    if |events| == 0 then v else DeliverEvents(OnOrderEvent(v, events[0]), events[1..])
  }

  /** As written, a dashboard opened after the connection already received events (the
      user comes back from an orders page) is loaded a second time at once: the subject
      replays the last event to the new subscription, although no order was created
      since. */
  lemma StaleEventReloadsDashboardAsWritten(client: Realtime.Client, toasts: Toasts.ToastService,
                                            transportSucceeds: bool, events: seq<EventWire.ClientEvent>)
    requires Init(client, toasts, transportSucceeds).realtimeConnected
    requires |events| > 0
    ensures DeliverEvents(Init(client, toasts, transportSucceeds), Realtime.ReplayAsWritten(Realtime.AfterEvents(events))).calls
            == [LoadCustomers, LoadCustomers]
  {
    var replay := Realtime.ReplayAsWritten(Realtime.AfterEvents(events));
    Realtime.SubscribeAfterEvents(events);
    assert replay[1..] == [];
  }

  /** Without the replay, opening the dashboard loads it exactly once, whatever events the
      connection received before. */
  lemma DashboardLoadedOnceOnSubscribe(client: Realtime.Client, toasts: Toasts.ToastService,
                                       transportSucceeds: bool, events: seq<EventWire.ClientEvent>)
    ensures DeliverEvents(Init(client, toasts, transportSucceeds), Realtime.Replay(Realtime.AfterEvents(events))).calls
            == [LoadCustomers]
  {
    Realtime.SubscribeAfterEvents(events);
  }

  /** A message the hub sends reaches the page only when the page's connection is in the
      message's group when it is sent; an arriving event is never `null`, so it reloads
      the dashboard. */
  function OnPublication(v: CustomersView, groups: OrdersHub.Groups, connection: OrdersHub.ConnectionId,
                         p: OrdersHub.Publication): (r: CustomersView)
    ensures connection in OrdersHub.Recipients(groups, p) ==> r.calls == v.calls + [LoadCustomers]
    ensures connection !in OrdersHub.Recipients(groups, p) ==> r == v
  {
    if connection in OrdersHub.Recipients(groups, p) then
      OnOrderEvent(v, Some(EventWire.Read(EventWire.Serialize(EventWire.AsWrittenMembers(p.event)))))
    else v
  }

  /** As written, a dashboard whose real-time link started is never refreshed for a new
      order: the page invokes no group join, the generator publishes only to the order's
      customer group, and polling is off, so neither the event nor a tick reloads it. */
  lemma ConnectedDashboardMissesNewOrders(client: Realtime.Client, toasts: Toasts.ToastService,
                                          transportSucceeds: bool, groups: OrdersHub.Groups,
                                          connection: OrdersHub.ConnectionId, o: Store.Order)
    requires Init(client, toasts, transportSucceeds).realtimeConnected
    requires forall name :: connection !in OrdersHub.Members(groups, name)
    ensures var s := Init(client, toasts, transportSucceeds);
            && s.client.invoked == client.invoked
            && OnPollTick(OnPublication(s, Realtime.ApplyAll(groups, connection, []), connection,
                                        OrderJobManager.PublicationOf(o))) == s
  {
  }

  /** Joins the group of every listed customer, in list order, when connected. */
  function JoinAll(c: Realtime.Client, items: seq<DashboardItem>): (r: Realtime.Client)
    ensures r.state == c.state && r.reported == c.reported
    ensures Realtime.IsConnected(c) ==>
              && |r.invoked| == |c.invoked| + |items|
              && r.invoked[..|c.invoked|] == c.invoked
              && forall k :: 0 <= k < |items| ==> r.invoked[|c.invoked| + k] == Realtime.JoinGroup(items[k].customer.id)
    ensures !Realtime.IsConnected(c) ==> r == c
    decreases |items|
  {
    if |items| == 0 then c
    else
      var c1 := Realtime.JoinCustomerGroup(c, items[0].customer.id);
      JoinAll(c1, items[1..])
  }

  /** The evidently intended behaviour: once the rows are loaded, a connected page joins
      the group of every customer it lists. */
  function JoinListedGroups(v: CustomersView): (r: CustomersView)
    ensures r == v.(client := r.client)
    ensures Realtime.IsConnected(v.client) ==>
              && |r.client.invoked| == |v.client.invoked| + |v.customers|
              && r.client.invoked[..|v.client.invoked|] == v.client.invoked
              && forall k :: 0 <= k < |v.customers| ==>
                   r.client.invoked[|v.client.invoked| + k] == Realtime.JoinGroup(v.customers[k].customer.id)
    ensures !Realtime.IsConnected(v.client) ==> r == v
  {
    v.(client := JoinAll(v.client, v.customers))
  }

  /** With the groups joined, a new order of any listed customer reaches the connected
      dashboard and reloads it, whatever groups the connection was in before. */
  lemma ListedCustomersRefreshDashboard(v: CustomersView, groups: OrdersHub.Groups,
                                        connection: OrdersHub.ConnectionId, o: Store.Order, k: int)
    requires Realtime.IsConnected(v.client)
    requires 0 <= k < |v.customers| && v.customers[k].customer.id == o.customerId
    ensures var j := JoinListedGroups(v);
            var after := Realtime.ApplyAll(groups, connection, j.client.invoked[|v.client.invoked|..]);
            OnPublication(j, after, connection, OrderJobManager.PublicationOf(o)).calls == v.calls + [LoadCustomers]
  {
    var j := JoinListedGroups(v);
    var n := |v.client.invoked|;
    var invs := j.client.invoked[n..];
    assert |invs| == |v.customers|;
    assert forall i :: 0 <= i < |invs| ==> invs[i] == Realtime.JoinGroup(v.customers[i].customer.id) by {
      forall i | 0 <= i < |invs| ensures invs[i] == Realtime.JoinGroup(v.customers[i].customer.id) {
        assert invs[i] == j.client.invoked[n + i];
      }
    }
    Realtime.JoinedGroupsReached(groups, connection, invs);
    assert invs[k] == Realtime.JoinGroup(o.customerId);
    var after := Realtime.ApplyAll(groups, connection, invs);
    assert connection in OrdersHub.Recipients(after, OrderJobManager.PublicationOf(o));
  }
}
