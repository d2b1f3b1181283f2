# Customer orders: a Dafny model of the order generator, the order query and the browser client

The system keeps customers and their orders. Each customer gets a background job that creates an
order at once and then one order per timer tick. Each new order is pushed over a SignalR hub to the
browsers that joined the customer's group. The same orders can also be read back page by page,
newest first, with optional date and amount filters.

The model covers the sequential logic of every part of that path, as pure functions over
immutable datatypes:

- **Server**
  - the job table (`StartJob`, `StopJob`) with its cancellation tokens
  - one generation cycle, and the run loop as a trace of cycles
  - the customer service that couples the customer table to the job table
  - the hub's groups and the `customer-{id}` group name
  - the paged, filtered order query
  - the controller's defaults and clamping of `page` and `pageSize`
- **Wire**: the `OrderCreated` message as it is serialised by the server and read by the browser.
- **Browser**
  - the query-string construction
  - the real-time service: back-off schedule, start, stop, join and leave guards, connection
    states, and the replaying event subject
  - the toast service and toast list
  - the orders page: paging, filters, the auto-update preference and the reaction to events
  - the customers dashboard: rows, form validation, edit, remove, and the real-time link with
    polling as its fallback

Files, one module each:

- `common.dfy`: `Option`, the C# `int` range and unchecked wrap-around, `Min`/`Max`
- `text.dfy`: decimal rendering and parsing of integers; JavaScript `trim`
- `sorting.dfy`: insertion sort by a key, newest first
- `store.dfy`: the `Customers` and `Orders` tables with their identity counters
- `orders_hub.dfy`: groups, group names, delivery of a publication
- `order_job_manager.dfy`: job table, generation cycle, run loop
- `customer_service.dfy`: customer CRUD over the store and the job table
- `order_service.dfy`: the order query, and its 32-bit offset as written
- `orders_controller.dfy`: route, defaults, clamping
- `event_wire.dfy`: the `OrderCreated` payload on the wire
- `realtime.dfy`: the browser's SignalR service
- `toasts.dfy`: the toast service and the toast list
- `orders_api.dfy`: the browser's order query
- `orders_page.dfy`: the orders page
- `customers_page.dfy`: the customers dashboard

Effects are parameters:

- the clock (`now`), the random amount (`Draw`, a whole number in [100, 5000))
- whether a save, a send, a transport start or a delete succeeds
- which awaited step of a cycle throws, and what it throws

HTTP calls made by the pages are recorded as call lists. Their answers arrive through their own
operations (`OnOrdersLoaded`, `OnDashboardLoaded`, …).

Three points of the code shape the model:

- **Group name.** A customer's group is named `customer-{id}` (Server/SignalR/OrdersHub.cs:8),
  not the bare id.
- **Errors in a cycle.** `RunJobAsync` catches only `OperationCanceledException`
  (Server/Services/Jobs/OrderJobManager.cs:56). Any other exception from a cycle ends that job's
  loop, and the job's table entry stays behind.
- **Job table.** The table is a `ConcurrentDictionary`, but `StartJob` checks for the key and
  inserts in two separate steps (Server/Services/Jobs/OrderJobManager.cs:23-27). Two concurrent
  starts can both pass the check; see "Left out".

## Model

| member | source | states |
|---|---|---|
| OrderJobManager.StartJob | Server/Services/Jobs/OrderJobManager.cs:20-30 | A customer already in the table leaves the table as it was. Otherwise exactly that id gains an entry with a fresh live token and one task is launched with it; every other entry is unchanged. The table's validity is preserved. |
| OrderJobManager.StopJob | Server/Services/Jobs/OrderJobManager.cs:32-39 | An absent id changes nothing. A present id loses exactly its entry and its token becomes cancelled; other entries and tokens are unchanged. The table's validity is preserved. |
| OrderJobManager.StartJobTwice | Server/Services/Jobs/OrderJobManager.cs:22-24 | Two starts for one customer equal one start, and at most one task is launched. |
| OrderJobManager.StopJobTwice | Server/Services/Jobs/OrderJobManager.cs:34-38 | Stopping twice equals stopping once. |
| OrderJobManager.StartThenStop | Server/Services/Jobs/OrderJobManager.cs:20-39 | Start then stop of an absent customer restores the table, and the task launched in between holds a cancelled token. |
| OrderJobManager.EmptyRegistryValid | Server/Services/Jobs/OrderJobManager.cs:10-11 | The empty table satisfies the table invariant. |
| OrderJobManager.WaitForNextTick | Server/Services/Jobs/OrderJobManager.cs:51 | The wait ends the loop exactly when its token is cancelled. |
| OrderJobManager.StopJobEndsOnlyThatWorker | Server/Services/Jobs/OrderJobManager.cs:32-39 | After a stop, the stopped job's next wait observes cancellation, and every other job's next wait still ticks. |
| OrderJobManager.CreateOrderOnce | Server/Services/Jobs/OrderJobManager.cs:61-92 | A missing or inactive customer gets no order and no message. For an eligible customer whose save succeeds, exactly one order is appended: next id, that customer, "Auto-generated order", the drawn amount in [100, 5000), the clock's time. A message is sent only when nothing threw, after the save; it goes to `customer-{id}` and carries the stored order. A throwing step yields a cancelled or failed outcome by the exception's kind. Customers are never changed. |
| OrderJobManager.RunCycles | Server/Services/Jobs/OrderJobManager.cs:41-70 | Between 1 cycle and one per step. Each cycle reads the customer table current when it starts, so the table afterwards is the last one read, and no customer id is allocated. A customer missing or inactive in every table read gets no order and no message. At most one message is sent per cycle. |
| OrderJobManager.RunCyclesStopsAtFirstFault | Server/Services/Jobs/OrderJobManager.cs:43-59 | Every cycle before the last one completed. The loop stops early exactly at the first cycle that throws. The run ends by a fault exactly when that exception is not a cancellation. |
| OrderJobManager.RunCyclesCountsActiveCycles | Server/Services/Jobs/OrderJobManager.cs:45-54 | The run stores one order per cycle that found the customer active and whose save did not throw. It sends one message per cycle that found the customer active and threw nothing (lines 66-90). |
| OrderJobManager.ActivationTakesEffectAtNextCycle | Server/Services/Jobs/OrderJobManager.cs:51-70 | A customer activated between the first cycle and a tick gets one order, stamped with the tick's time. A customer deactivated in between gets one order, stamped with the first cycle's time. |
| OrderJobManager.RunCyclesAppends | Server/Services/Jobs/OrderJobManager.cs:72-81 | A run only appends to the order table, and only generated orders of its own customer. |
| OrderJobManager.CycleSendsStoredOrder | Server/Services/Jobs/OrderJobManager.cs:80-90 | A cycle sends at most one message, which carries the order it stored. Only a cycle whose send threw stores an order without a message. |
| OrderJobManager.RunCyclesSendsStoredOrders | Server/Services/Jobs/OrderJobManager.cs:46-54 | The k-th message of a run carries the k-th order the run stored, and at most the last stored order has no message. |
| OrderJobManager.RunJobAsync | Server/Services/Jobs/OrderJobManager.cs:41-60 | The first cycle runs before any wait, so a run with no fault has one cycle plus one per tick and ends by cancellation. Each cycle reads the customer table current at its start. The loop never touches the job table, so a job ended by a fault keeps its entry. |
| OrderJobManager.FaultFreeRunOfActiveCustomer | Server/Services/Jobs/OrderJobManager.cs:45-54 | For a customer active in every table its cycles read, and no faults, a run stores and sends one order per tick plus one, all to the customer's group. |
| CustomerService.InitialBackendConsistent | Server/Services/Customers/CustomerService.cs:5-13 | The empty store with the empty job table satisfies the server invariant: one live job per stored customer, and ids below the counter. |
| CustomerService.GetById | Server/Services/Customers/CustomerService.cs:31-44 | null exactly for a missing id. Otherwise a DTO mirroring the stored name, email, active flag and creation time. |
| CustomerService.CreateThenGetById | Server/Services/Customers/CustomerService.cs:31-68 | A created customer reads back as the DTO the create returned. |
| CustomerService.UpdateThenGetById | Server/Services/Customers/CustomerService.cs:31-81 | An updated customer reads back with the new name, email and active flag and its original creation time. |
| CustomerService.DeleteThenGetById | Server/Services/Customers/CustomerService.cs:31-93 | A deleted customer reads back as missing. |
| CustomerService.GetAll | Server/Services/Customers/CustomerService.cs:16-29 | Every stored customer exactly once, as its DTO, in non-increasing creation time. |
| CustomerService.Create | Server/Services/Customers/CustomerService.cs:46-68 | A failed save changes nothing and starts no job. Otherwise the customer is stored under a fresh id with the clock's time, and only then is a job started for that id. The returned DTO mirrors the stored row. No other customer or order changes, and the invariant is kept. |
| CustomerService.Update | Server/Services/Customers/CustomerService.cs:70-81 | A missing id returns false and changes nothing. Otherwise only that customer's name, email and active flag change; its creation time, the other customers, the orders and the job table are untouched. |
| CustomerService.Delete | Server/Services/Customers/CustomerService.cs:83-93 | A missing id returns false and never reaches `StopJob`. Otherwise the customer and all its orders are removed, and then its job is stopped with its token cancelled. Every other order keeps its multiplicity, and each other customer's orders keep their order. The id counters, the other tokens and the launched tasks are unchanged, and the invariant is kept. |
| CustomerService.OneLiveJobPerCustomer | Server/Services/Customers/CustomerService.cs:56-58 | In a consistent state a customer is stored exactly when it has a job, and that job's token is live. |
| CustomerService.RunKeepsConsistency | Server/Services/Jobs/OrderJobManager.cs:61-92 | A job's run keeps the server invariant. |
| CustomerService.NothingGeneratedAfterDelete | Server/Services/Customers/CustomerService.cs:88-90 | After a delete, the deleted customer's job ends at its next wait. A cycle that starts after the delete stores and sends nothing. |
| CustomerService.CreateStartsFreshJob | Server/Services/Customers/CustomerService.cs:56-58 | A create adds exactly one job, under an id that had none. |
| OrdersHub.GroupName | Server/SignalR/OrdersHub.cs:8 | The group name is `customer-` followed by a decimal text that parses back to the id. |
| OrdersHub.GroupNameInjective | Server/SignalR/OrdersHub.cs:8 | Distinct customers have distinct group names. |
| OrdersHub.JoinCustomerGroup | Server/SignalR/OrdersHub.cs:6-9 | The caller is in `customer-{id}` afterwards, and no other membership of any connection or group changes. |
| OrdersHub.LeaveCustomerGroup | Server/SignalR/OrdersHub.cs:11-14 | The caller is not in `customer-{id}` afterwards, and no other membership changes. |
| OrdersHub.JoinTwice | Server/SignalR/OrdersHub.cs:6-9 | Joining twice equals joining once. |
| OrdersHub.JoinThenLeave | Server/SignalR/OrdersHub.cs:6-14 | Join then leave restores the memberships of a connection that was not in the group. |
| OrdersHub.JoinedConnectionReceives | Server/SignalR/OrdersHub.cs:8 | The group a connection joins for an id is the group the generator sends that id's events to (Server/Services/Jobs/OrderJobManager.cs:83). |
| OrdersHub.NoCrossCustomerDelivery | Server/SignalR/OrdersHub.cs:8 | Joining customer a never delivers customer b's events. |
| OrdersHub.TwoSubscribersOneLeaves | Server/SignalR/OrdersHub.cs:6-14 | Two connections in group 7 both receive a send. After one leaves, only the other receives the next send. |
| OrderService.Select | Server/Services/Orders/OrderService.cs:22-37 | An order is selected exactly when it belongs to the customer and passes every present filter, each an inclusive bound; an absent filter constrains nothing. |
| OrderService.SelectKeepsMultiplicity | Server/Services/Orders/OrderService.cs:22-40 | Each matching row is kept as often as the table holds it and every other row is dropped, so the count is the number of matching rows. |
| OrderService.NoFilterSelectsOrdersOf | Server/Services/Orders/OrderService.cs:22-24 | With no filter the query selects exactly the customer's orders. |
| OrderService.Ranked | Server/Services/Orders/OrderService.cs:44 | The selected orders, as a permutation, in non-increasing creation time. |
| OrderService.Window | Server/Services/Orders/OrderService.cs:45-46 | The slice starts at the offset clamped to [0, length] and holds min(max(0, take), what is left) elements. |
| OrderService.WindowIsSkipThenTake | Server/Services/Orders/OrderService.cs:45-46 | The slice equals LINQ `Skip` followed by `Take` for every count, negative ones included. |
| OrderService.Page | Server/Services/Orders/OrderService.cs:44-62 | The page echoes page and size; its total is the ranked length; its items are the DTOs of the window, newest first. |
| OrderService.GetCustomerOrders | Server/Services/Orders/OrderService.cs:12-63 | The echoed page and size; a total equal to the number of selected orders; items that are the DTOs of the ranked orders after (page-1)·pageSize, at most pageSize of them, in non-increasing creation time. |
| OrderService.ItemCount | Server/Services/Orders/OrderService.cs:45-46 | For page ≥ 1 and size ≥ 0 the page holds min(size, max(0, total − (page−1)·size)) items. |
| OrderService.ItemsAreSelectedOrders | Server/Services/Orders/OrderService.cs:22-53 | Every item is the DTO of an order of the requested customer that passes every present filter. |
| OrderService.RankedOrderIsSelected | Server/Services/Orders/OrderService.cs:22-44 | Every ranked order is a selected table row. |
| OrderService.TotalCountIndependentOfPage | Server/Services/Orders/OrderService.cs:39-40 | The total does not depend on page or page size. |
| OrderService.RankedOrderOnItsPage | Server/Services/Orders/OrderService.cs:44-46 | The i-th ranked order is item i mod size of page i div size + 1. |
| OrderService.ItemAt | Server/Services/Orders/OrderService.cs:45-46 | Position k of page p holds the order of rank (p−1)·size + k when there is one. |
| OrderService.PagePastTheEndIsEmpty | Server/Services/Orders/OrderService.cs:45-46 | A page past the last one is empty. |
| OrderService.SkipAsWritten | Server/Services/Orders/OrderService.cs:45 | The offset in unchecked 32-bit arithmetic: an `int` that differs from the exact product (page−1)·size by a multiple of 2^32, and that equals it whenever the product fits. |
| OrderService.GetCustomerOrdersAsWritten | Server/Services/Orders/OrderService.cs:12-63 | The query with the 32-bit offset: same total, and the same result as the exact query whenever the product fits. |
| OrderService.OffsetOverflowReturnsFirstPage | Server/Services/Orders/OrderService.cs:45 | For one order, page 214748366 of size 10 should be empty. As written it returns that order, because the offset wraps negative. |
| OrdersController.MatchRoute | Server/Controllers/OrdersController.cs:4 | A path binds an id exactly when it is the route's prefix and suffix around a decimal number in the `int` range, and the id bound is that number. |
| OrdersController.RouteRoundTrip | Server/Controllers/OrdersController.cs:4 | The route built for an id binds back to that id. |
| OrdersController.NormalizePage | Server/Controllers/OrdersController.cs:17-24 | Always ≥ 1. An absent or non-positive page becomes 1; any other passes through. |
| OrdersController.NormalizePageSize | Server/Controllers/OrdersController.cs:18-25 | Always in [1, 100]. An absent, non-positive or over-100 size becomes 10; any other passes through. |
| OrdersController.NormalizeIdempotent | Server/Controllers/OrdersController.cs:24-25 | Normalising a normalised value changes nothing. |
| OrdersController.GetCustomerOrders | Server/Controllers/OrdersController.cs:14-31 | The service as written, called with the normalised values: page ≥ 1, size in [1, 100], the filtered count, at most size items, newest first. |
| OrdersController.AsWrittenAgreesBelowOverflow | Server/Controllers/OrdersController.cs:24-28 | Up to page 21474837 the controller's answer equals the exact query on the normalised values, for every size. |
| EventWire.CamelCase | Server/Services/Jobs/OrderJobManager.cs:84-90 | The property name keeps the member name's length and all but its first letter, which is lowered. |
| EventWire.Serialize | Server/Services/Jobs/OrderJobManager.cs:84-90 | Every member appears under its camelCase name, and the last member's value wins. |
| EventWire.SerializeKeys | Server/Services/Jobs/OrderJobManager.cs:84-90 | The object has no property other than the members' camelCase names. |
| EventWire.SerializeValues | Server/Services/Jobs/OrderJobManager.cs:84-90 | A member whose camelCase name no later member shares appears with its own value. |
| EventWire.ReadInt | client/src/app/services/realtime.ts:6-11 | The typed view of one property: `undefined` when it is absent, and otherwise exactly when it holds a number, that number. |
| EventWire.AsWrittenOrderIdIsUndefined | client/src/app/services/realtime.ts:6-11 | The message as the server writes it leaves the client's `orderId` undefined; the other three properties arrive intact. |
| EventWire.ReceiveRoundTrip | client/src/app/services/realtime.ts:6-11 | With the member named `OrderId` every property the client reads equals the server's value. |
| EventWire.SerializeFour | Server/Services/Jobs/OrderJobManager.cs:84-90 | A four-member object, property by property. |
| EventWire.ReceiveInjective | client/src/app/services/realtime.ts:6-11 | Distinct events read differently on the client. |
| Realtime.NextRetryDelay | client/src/app/services/realtime.ts:38-44 | 0, 2000 and 10000 ms after 0, 1 and 2 attempts; 30000 from the third on; never outside [0, 30000]. |
| Realtime.RetryDelayMonotone | client/src/app/services/realtime.ts:38-44 | The delay never decreases as attempts accumulate. |
| Realtime.TotalRetryDelayClosedForm | client/src/app/services/realtime.ts:38-44 | From attempt 3 on the total wait is 12000 ms plus 30000 ms per further attempt. |
| Realtime.Start | client/src/app/services/realtime.ts:75-95 | Does nothing when connected. Succeeds exactly from `Disconnected` with a working transport, then reports `Connected`. Any failure reports `Disconnected` and is rethrown. Never invokes a hub method. |
| Realtime.StartTwice | client/src/app/services/realtime.ts:81-84 | A start after a successful start does nothing. |
| Realtime.Stop | client/src/app/services/realtime.ts:100-110 | A stop that succeeds leaves both states `Disconnected`; a failing one changes nothing. |
| Realtime.JoinCustomerGroup | client/src/app/services/realtime.ts:115-127 | Invokes `JoinCustomerGroup(id)` exactly when connected; states are unchanged. |
| Realtime.LeaveCustomerGroup | client/src/app/services/realtime.ts:132-143 | Invokes `LeaveCustomerGroup(id)` exactly when connected; states are unchanged. |
| Realtime.Notify | client/src/app/services/realtime.ts:56-69 | Reconnecting, reconnected and close map to `Reconnecting`, `Connected` and `Disconnected`, and that state is reported. |
| Realtime.InvokesOnlyWhenConnected | client/src/app/services/realtime.ts:116-119 | A join or leave adds an invocation exactly when `isConnected` holds (lines 133-135, 162-164). |
| Realtime.ConnectedJoinReceivesCustomerEvents | client/src/app/services/realtime.ts:115-127 | A connected client's join puts its connection in the group that receives the customer's events. |
| Realtime.SubscribeAfterEvents | client/src/app/services/realtime.ts:23 | After events e1 … en were received (lines 50-53), a new subscriber is handed exactly en at once, or null when n = 0, however long ago en came. A plain `Subject` hands it nothing. |
| Realtime.JoinedGroupsReached | client/src/app/services/realtime.ts:115-127 | Joins sent to the hub only add memberships, and after them the connection is in the group of every customer it joined (Server/SignalR/OrdersHub.cs:6-9). |
| Toasts.DefaultDuration | client/src/app/services/toast.service.ts:22-36 | 3000 ms for success and info, 5000 for error, 4000 for warning. |
| Toasts.Show | client/src/app/services/toast.service.ts:38-46 | The counter grows by one, and exactly one toast is emitted after the earlier ones. Its id is the new counter, its message and kind are as given, and its duration is the caller's or the kind's default. |
| Toasts.InitialServiceNumbered | client/src/app/services/toast.service.ts:15-16 | The fresh service is numbered: no toasts and counter 0. |
| Toasts.ShowKeepsNumbered | client/src/app/services/toast.service.ts:38-46 | Every emission keeps the numbering 1, 2, 3, … with the counter at the last id. |
| Toasts.NumberedIdsIncrease | client/src/app/services/toast.service.ts:39-41 | Ids of a numbered service strictly increase, so no two toasts share one. |
| Toasts.RemoveToast | client/src/app/components/toast/toast.component.ts:193-195 | A toast stays exactly when its id differs from the removed one; the list never grows. |
| Toasts.RemoveToastConcat | client/src/app/components/toast/toast.component.ts:193-195 | Removal distributes over concatenation, so the kept toasts stay in their order. |
| Toasts.RemoveAbsentToast | client/src/app/components/toast/toast.component.ts:193-195 | Removing an id no toast carries leaves the list unchanged. |
| Toasts.RemoveToastTwice | client/src/app/components/toast/toast.component.ts:193-195 | Removing twice equals removing once. |
| Toasts.Receive | client/src/app/components/toast/toast.component.ts:172-185 | The toast is appended at the end. A removal timer is scheduled exactly when its duration is non-zero. |
| Toasts.Fire | client/src/app/components/toast/toast.component.ts:181-183 | The fired timer's toast is removed and every other toast stays. The timer list records every removal ever scheduled, so fired timers stay in it unchanged. |
| Toasts.ReceivedToastExpires | client/src/app/components/toast/toast.component.ts:172-195 | A toast with a duration is removed by its own timer, and the toasts shown before stay, in order. |
| Toasts.ReceiveAll | client/src/app/components/toast/toast.component.ts:172-185 | The toasts received in order end the list in that order. |
| OrdersApi.GetCustomerOrders | client/src/app/services/orders.ts:12-31 | `page` and `pageSize` are always sent. Dates are sent exactly when they are non-empty strings; amounts exactly when not null or undefined, 0 included. Values are sent unchanged, and no other parameter is ever sent. |
| OrdersApi.RequestReachesRoute | client/src/app/services/orders.ts:29-31 | The path after the API base matches the server's route and binds the customer id the request was built for (Server/Controllers/OrdersController.cs:4). |
| OrdersApi.OnlyPagingWithoutFilters | client/src/app/services/orders.ts:20-27 | Only `page` and `pageSize` are sent exactly when no filter has a value to send. |
| OrdersPage.LoadOptions | client/src/app/components/orders/orders.ts:110-118 | The current page, size 10, each date only when non-empty, the amounts as they are. |
| OrdersPage.ActiveFiltersAreSent | client/src/app/components/orders/orders.ts:158-165 | A filter parameter is sent exactly when `hasActiveFilters` holds. |
| OrdersPage.LoadOrders | client/src/app/components/orders/orders.ts:106-119 | Marks the page loading, clears the error, issues one query with the page's options. |
| OrdersPage.TotalPages | client/src/app/components/orders/orders.ts:124 | The integer ceiling of total / 10: 10·(pages − 1) < total ≤ 10·pages. |
| OrdersPage.OnOrdersLoaded | client/src/app/components/orders/orders.ts:121-127 | The items and total are taken over, the page count is their ceiling, and loading ends. |
| OrdersPage.OnOrdersFailed | client/src/app/components/orders/orders.ts:128-133 | The failure message is shown, loading ends, and the rows stay. |
| OrdersPage.OfferedPagesAreNonEmpty | client/src/app/components/orders/orders.ts:124 | Page p is within the client's page count exactly when the server's page p of size 10 has an item (Server/Services/Orders/OrderService.cs:45-46). |
| OrdersPage.ControllerKeepsClientPaging | client/src/app/components/orders/orders.ts:111-113 | The page and size the page sends pass the controller's clamping unchanged (Server/Controllers/OrdersController.cs:24-25). |
| OrdersPage.PaginationPages | client/src/app/components/orders/orders.ts:224-240 | Exactly max(0, min(5, totalPages)) consecutive ascending numbers within [1, totalPages]. They contain the current page when it is in range, and are centred on it when it is 3 or more from both ends. |
| OrdersPage.GoToPage | client/src/app/components/orders/orders.ts:204-208 | A target outside [1, totalPages] is ignored; any other becomes the page and is loaded. |
| OrdersPage.NextPage | client/src/app/components/orders/orders.ts:210-215 | One page on and loaded, unless already on the last page. |
| OrdersPage.PreviousPage | client/src/app/components/orders/orders.ts:217-222 | One page back and loaded, unless already on the first page. |
| OrdersPage.NavigationKeepsPageInRange | client/src/app/components/orders/orders.ts:204-222 | The three navigations keep a page in [1, max(1, totalPages)] in that range. |
| OrdersPage.NextThenPrevious | client/src/app/components/orders/orders.ts:210-222 | Next then previous returns to the page, with one query for each move. |
| OrdersPage.ApplyFilters | client/src/app/components/orders/orders.ts:141-145 | The edited filters from page 1, loaded. |
| OrdersPage.ClearFilters | client/src/app/components/orders/orders.ts:147-156 | Empty filters, so `hasActiveFilters` is false, from page 1, loaded. |
| OrdersPage.ClearedQueryIsFirstPlainPage | client/src/app/components/orders/orders.ts:147-156 | After clearing, the request is page 1 with only `page` and `pageSize`. |
| OrdersPage.RestoredAutoUpdate | client/src/app/components/orders/orders.ts:67-70 | On when nothing is stored; otherwise on exactly when the stored text is "true". |
| OrdersPage.ToggleAutoUpdate | client/src/app/components/orders/orders.ts:242-253 | Flips the preference and stores it as text. Emits one toast: success "enabled" when turned on, warning "paused" when turned off. |
| OrdersPage.ToggleIsRemembered | client/src/app/components/orders/orders.ts:242-253 | The stored text restores the toggled value, and toggling twice restores the original (lines 67-70). |
| OrdersPage.NewOrderMessage | client/src/app/components/orders/orders.ts:191 | "New order #" with the id, or "undefined" when absent, then " received ($", the amount text and ")". |
| OrdersPage.OnOrderCreated | client/src/app/components/orders/orders.ts:188-194 | It reacts exactly when the event is non-null, for this customer, with auto-update on, and carries an amount. It then raises one info toast and reloads the current page; otherwise nothing changes. |
| OrdersPage.AsWrittenToastSaysUndefined | client/src/app/components/orders/orders.ts:189-191 | With the server's message as written, a new order's toast reads "New order #undefined". |
| OrdersPage.ToastNamesTheNewOrder | client/src/app/components/orders/orders.ts:189-193 | With the corrected message the toast names the order's id, and the page reloads. |
| OrdersPage.Deliver | client/src/app/components/orders/orders.ts:185-195 | Each delivered event causes at most one reload. |
| OrdersPage.StaleEventReplayedAsWritten | client/src/app/components/orders/orders.ts:185-194 | Subscribing after a history of events whose last was for this customer raises a toast and a reload, although no order was created since (client/src/app/services/realtime.ts:23). |
| OrdersPage.NoReactionOnSubscribe | client/src/app/components/orders/orders.ts:185-194 | Without the replay, a new subscription reacts to nothing, whatever events came before. |
| OrdersPage.SetupRealtime | client/src/app/components/orders/orders.ts:167-202 | Connected exactly when the start did not fail. Then the customer's group is joined; otherwise nothing is invoked. |
| OrdersPage.Init | client/src/app/components/orders/orders.ts:65-82 | Restores the preference. For a non-zero id it loads page 1 with no filters and sets up the real-time link: connected exactly when the start did not fail, and then the customer's group is joined; otherwise nothing is invoked (lines 167-202). Id 0 does neither. |
| OrdersPage.Destroy | client/src/app/components/orders/orders.ts:84-92 | Leaves the customer's group when there is an id and a connection; otherwise nothing changes. |
| OrdersPage.OpenThenCloseRestoresGroups | client/src/app/components/orders/orders.ts:65-92 | Opening and closing the page while connected sends a join then a leave, which restore the server's groups. |
| CustomersPage.LoadDashboard | client/src/app/components/customers/customers.ts:99-103 | Marks loading, clears the error, asks for the customers. |
| CustomersPage.DashboardEntry | client/src/app/components/customers/customers.ts:120-139 | A row takes the total, and the first item's time or null when there are no items. A failed query gives 0 and null. |
| CustomersPage.Dashboard | client/src/app/components/customers/customers.ts:120-157 | One row per customer, a permutation of the rows built from each customer's own answer. |
| CustomersPage.DashboardHasEveryCustomer | client/src/app/components/customers/customers.ts:120-150 | Every customer's row is on the dashboard. |
| CustomersPage.DashboardRows | client/src/app/components/customers/customers.ts:120-157 | Every customer has its row, and every row belongs to a listed customer. |
| CustomersPage.OnDashboardLoaded | client/src/app/components/customers/customers.ts:109-163 | Loading ends. There is one row per customer, an empty list gives an empty dashboard, and no row belongs to anyone else. |
| CustomersPage.OnDashboardFailed | client/src/app/components/customers/customers.ts:165-172 | Loading ends and the rows stay. The message names the failed URL, or "the API" when there is none. |
| CustomersPage.DashboardEntryMatchesServer | client/src/app/components/customers/customers.ts:122-129 | A row built from the server's page 1 of size 1 shows the customer's full order count. Its time is null exactly when the customer has no orders, and otherwise is the newest order's creation time (Server/Services/Orders/OrderService.cs:40-46). |
| CustomersPage.DashboardQueryIsFirstOrder | client/src/app/components/customers/customers.ts:122 | Each row's query sends only page 1 and page size 1. |
| CustomersPage.Payload | client/src/app/components/customers/customers.ts:179-183 | The form's active flag. Each text is empty exactly when its field is all whitespace. |
| CustomersPage.PayloadStable | client/src/app/components/customers/customers.ts:179-183 | Nothing is left to trim: the payload's own texts, typed back into the form, give the same payload. |
| CustomersPage.ResetForm | client/src/app/components/customers/customers.ts:229-232 | No customer is being edited, and the form is empty and active. |
| CustomersPage.Save | client/src/app/components/customers/customers.ts:190-205 | On success the form is reset and the dashboard reloaded; on failure the form stays with "Save failed.". One toast either way. |
| CustomersPage.Submit | client/src/app/components/customers/customers.ts:176-206 | A blank trimmed name or email sets the required message and makes no call. Otherwise one create or update with the trimmed payload; success resets the form and reloads, failure keeps the form with an error. |
| CustomersPage.SubmitCallsIffFilled | client/src/app/components/customers/customers.ts:179-188 | A call is made exactly when neither field is all whitespace. |
| CustomersPage.CreatedCustomerIsTrimmed | client/src/app/components/customers/customers.ts:179-193 | The created customer is stored with the trimmed texts, and re-sending them sends the same payload (Server/Services/Customers/CustomerService.cs:48-53). |
| CustomersPage.Edit | client/src/app/components/customers/customers.ts:208-211 | The row's id is being edited, and its name, email and active flag fill the form. |
| CustomersPage.EditThenSubmitUpdates | client/src/app/components/customers/customers.ts:191-211 | Saving an edited row updates that customer and never creates one. |
| CustomersPage.Remove | client/src/app/components/customers/customers.ts:213-227 | Nothing without confirmation. Otherwise one delete is sent; success reloads the dashboard, failure sets "Delete failed.". One toast either way. |
| CustomersPage.SetupRealtime | client/src/app/components/customers/customers.ts:50-92 | Connected exactly when the start did not fail; it polls exactly when not connected. |
| CustomersPage.OnOrderEvent | client/src/app/components/customers/customers.ts:70-76 | Any non-null event reloads the dashboard; the initial null does not. |
| CustomersPage.OnPollTick | client/src/app/components/customers/customers.ts:85-90 | A tick reloads only while polling. |
| CustomersPage.Init | client/src/app/components/customers/customers.ts:42-48 | Loads the dashboard once before the subject's replay is delivered, and is then either connected or polling, never both. |
| CustomersPage.StaleEventReloadsDashboardAsWritten | client/src/app/components/customers/customers.ts:67-76 | As written, a connected dashboard opened after the connection received any event is loaded twice at once: the subject replays the last event (client/src/app/services/realtime.ts:23), although no order was created since. |
| CustomersPage.DashboardLoadedOnceOnSubscribe | client/src/app/components/customers/customers.ts:67-76 | Without the replay the dashboard is loaded exactly once on opening, whatever events came before. |
| CustomersPage.ConnectedDashboardMissesNewOrders | client/src/app/components/customers/customers.ts:50-92 | As written, a dashboard whose real-time link started invokes no group join. So it is reloaded neither by the event of a new order, which goes only to the order's customer group (Server/Services/Jobs/OrderJobManager.cs:82-83), nor by a tick. |
| CustomersPage.ListedCustomersRefreshDashboard | client/src/app/components/customers/customers.ts:67-76 | Once the connected page joins the group of every listed customer, a new order of any listed customer reaches it and reloads the dashboard. |
| Text.IntRoundTrip | Server/SignalR/OrdersHub.cs:8 | Parsing the decimal rendering of an integer gives back the integer. |
| Text.IntToStringInjective | Server/SignalR/OrdersHub.cs:8 | Distinct integers render differently. |
| Text.Trim | client/src/app/components/customers/customers.ts:180-181 | The text without leading and trailing whitespace: a middle slice of the input, empty or starting and ending with a non-whitespace character. |
| Text.TrimEmptyIff | client/src/app/components/customers/customers.ts:185 | The trimmed text is empty exactly when the input is all whitespace. |
| Text.TrimIdempotent | client/src/app/components/customers/customers.ts:180-181 | Trimming twice equals trimming once. |
| Common.Wrap32 | Server/Services/Orders/OrderService.cs:45 | The C# `int` that unchecked arithmetic leaves: it differs from the exact value by a multiple of 2^32, and equals it whenever the exact value fits in 32 bits. |
| Sorting.SortDesc | Server/Services/Orders/OrderService.cs:44 | A permutation of the input in non-increasing key order. |
| Store.OrdersOf | Server/Services/Orders/OrderService.cs:22-24 | An order is kept exactly when it belongs to the customer, as often as the table holds it. |
| Store.OrdersNotOf | Server/Services/Customers/CustomerService.cs:88-89 | An order is kept exactly when it does not belong to the customer, as often as the table holds it. |
| Store.OrdersNotOfKeepsOthers | Server/Services/Customers/CustomerService.cs:88-89 | Removing one customer's orders leaves every other customer's orders as they were, in order. |

## Left out

- **Concurrency.** `Task.Run`, `PeriodicTimer` and the one-minute period are left out; a run is
  a trace of cycles. Nothing runs in parallel in the model. The check-then-insert window in
  `StartJob` (Server/Services/Jobs/OrderJobManager.cs:23-27), where two concurrent starts can
  both pass the check, is noted in a comment only.
- **Database and clock.** EF Core, `AppDbContext`, SQL translation and `DateTime.UtcNow` are left
  out: the tables are in-memory maps and sequences, and times are integers.
  - `AppDbContext` is not part of this model. The deletion of a customer's orders is modelled as
    the cascade a required relationship gives.
  - A failed `SaveChangesAsync` is modelled as changing nothing.
- **Tie order.** The database's order among orders (or customers) with equal creation times is
  not modelled. The insertion sort fixes one admissible order, and contracts state only
  non-increasing time.
- **Offsets and totals.**
  - OrderService.GetCustomerOrdersAsWritten: a negative offset is taken as LINQ-to-objects does,
    skipping nothing. A database provider may reject it instead.
  - The total is an unbounded integer; the `int` count's limit is not modelled.
- **Transport.**
  - SignalR transport, connection building and message delivery are not modelled; a send is a
    `Publication` record delivered to the group's members at send time.
  - HTTP clients and the `timeout(10000)` operators are not modelled; each request is a recorded
    call whose outcome is a parameter.
- **Browser effects.**
  - `localStorage` is modelled as the page's `saved` field.
  - `setTimeout` is modelled as a recorded `Timer`, fired by `Fire`.
  - `confirm()` is a parameter.
  - RxJS plumbing (`forkJoin`, `switchMap`, `takeUntil`, the interval timer) and change detection
    are left out; console logging is dropped.
- **Amount formatting.** `toFixed(2)` is a function parameter of the orders page. Amounts are
  reals, not floating point.
- **Dashboard order.** CustomersPage.Dashboard promises the rows and not their order. Its
  comparator (client/src/app/components/customers/customers.ts:156) never answers "equal", so
  the order of customers created at the same time is left to the JavaScript engine. The
  creation times the browser compares are ISO strings, modelled as integers.
- **Out-of-scope client code.**
  - `loadCustomer` in the orders page (a lookup of the header's customer by id) is left out.
  - So are re-subscription to route changes, the `showFilters` toggle, the templates and
    styles, the route tables and the thin HTTP wrapper of the customers service.
  - The route's `+params['id']` is taken as an integer; a non-numeric id (NaN) is not modelled.
- **Interleaving with a run.**
  - OrderJobManager.RunCycles: each cycle reads the customer table current at its start. Orders
    that other requests add or remove between cycles are not modelled.
  - CustomerService.RunKeepsConsistency assumes that requests interleaved with a run only update
    customers, so every table a cycle reads has the stored customers' ids.
- **Failed invocations.** `joinCustomerGroup` and `leaveCustomerGroup` catch a failing `invoke`
  and only log it (client/src/app/services/realtime.ts:121-126, 137-142). The model counts every
  invocation from a connected client as reaching the hub, and
  OrdersPage.OpenThenCloseRestoresGroups assumes both calls arrive.
- OrdersController.MatchRoute: the model binds fewer paths than the server. ASP.NET Core matches
  the literal segments `api`, `customers` and `orders` case-insensitively and accepts a trailing
  slash; its `int` binding trims surrounding whitespace and accepts a leading '+'. The model
  requires the exact lower-case segments, no trailing slash and a plain decimal text.
- EventWire.ReadInt: the client does no type check, and a present property of another type is used
  as it is. The model reads only numbers and treats any other value as absent.
- **Serialisation.** EventWire.CamelCase lowers only the first letter, which is the JSON naming
  policy's result for every member name the message uses. Leading acronyms are not modelled.
- **Startup.** Starting jobs for existing customers at startup is not part of this model.

## Findings

| source | as written | input that shows it | evidently intended | confidence | as-written member | corrected member |
|---|---|---|---|---|---|---|
| Server/Services/Orders/OrderService.cs:45 | The offset `(page - 1) * pageSize` is computed in 32-bit `int` and wraps. The controller caps the size at 100 but not the page. | page 214748366, pageSize 10, a customer with one order: the offset wraps to −2147483646 and the first page is returned | items = min(pageSize, max(0, total − (page−1)·pageSize)), so this page is empty | not executed; the outcome for a negative offset depends on the database provider | OrderService.GetCustomerOrdersAsWritten, OrderService.OffsetOverflowReturnsFirstPage | OrderService.GetCustomerOrders, OrderService.ItemCount |
| Server/Services/Jobs/OrderJobManager.cs:87 | The message member `order.Id` is serialised as `id`, while the client reads `orderId` (client/src/app/services/realtime.ts:7) | any created order: the toast reads "New order #undefined received (…)" | the client receives the order's id under `orderId` | not executed | EventWire.AsWrittenOrderIdIsUndefined, OrdersPage.AsWrittenToastSaysUndefined | EventWire.ReceiveRoundTrip, OrdersPage.ToastNamesTheNewOrder |
| client/src/app/services/realtime.ts:23 | `orderCreated$` is a `BehaviorSubject`, which hands its last event to every new subscriber: the orders page (client/src/app/components/orders/orders.ts:185-194) and the customers dashboard (client/src/app/components/customers/customers.ts:67-76) | receive an event for customer 7 on its page, then leave and reopen that page: a toast and a reload follow at once with no new order. Or go back to the customers list: the dashboard is loaded twice | only events received after subscribing cause a toast or a reload | not executed | OrdersPage.StaleEventReplayedAsWritten, CustomersPage.StaleEventReloadsDashboardAsWritten | OrdersPage.NoReactionOnSubscribe, CustomersPage.DashboardLoadedOnceOnSubscribe, Realtime.SubscribeAfterEvents |
| client/src/app/components/customers/customers.ts:50-92 | The dashboard listens for `OrderCreated` events but never joins a group, and the generator sends each event only to `customer-{id}` (Server/Services/Jobs/OrderJobManager.cs:82-83). Polling runs only when the start failed. | open the dashboard with the hub reachable, then let any customer's job create an order: no event reaches the page and no tick fires, so the counts stay stale | a connected dashboard reloads when a listed customer gets a new order | not executed | CustomersPage.ConnectedDashboardMissesNewOrders | CustomersPage.ListedCustomersRefreshDashboard |
