/** The browser's real-time connection: the automatic-reconnect back-off schedule, the
    connection state the service keeps and reports, the guards on starting and on joining
    or leaving a customer's group, and the stream of received `OrderCreated` events. */
module Realtime {
  import opened Common
  import OrdersHub
  import EventWire

  const MaxRetryDelay: int := 30000

  /** `nextRetryDelayInMilliseconds`: the wait before the next reconnect attempt, given how
      many attempts were already made. */
  function NextRetryDelay(previousRetryCount: nat): (ms: int)
    ensures 0 <= ms <= MaxRetryDelay
    ensures previousRetryCount < 3 ==> ms == [0, 2000, 10000][previousRetryCount]
    ensures 3 <= previousRetryCount ==> ms == MaxRetryDelay
  {
    if previousRetryCount == 0 then 0
    else if previousRetryCount == 1 then 2000
    else if previousRetryCount == 2 then 10000
    else 30000
  }

  /** The back-off never shortens as attempts accumulate. */
  lemma RetryDelayMonotone(a: nat, b: nat)
    requires a <= b
    ensures NextRetryDelay(a) <= NextRetryDelay(b)
  {
  }

  /** The total wait before attempt `n`: the sum of the first `n` delays. */
  function TotalRetryDelay(n: nat): int {
    if n == 0 then 0 else TotalRetryDelay(n - 1) + NextRetryDelay(n - 1)
  }

  /** After the first three attempts every further attempt adds exactly thirty seconds. */
  lemma {:induction false} TotalRetryDelayClosedForm(n: nat)
    requires 3 <= n
    ensures TotalRetryDelay(n) == 12000 + MaxRetryDelay * (n - 3)
  {
    if n > 3 {
      TotalRetryDelayClosedForm(n - 1);
    }
  }

  /** `HubConnectionState`. */
  datatype HubState = Disconnected | Connecting | Connected | Disconnecting | Reconnecting

  /** A hub method the client invoked on the server. */
  datatype Invocation = JoinGroup(customerId: int) | LeaveGroup(customerId: int)

  /** The service: the connection's own state, the last state pushed to
      `connectionState$`, and the invocations sent so far. The connection object is
      built in the constructor, so it is never null once the service exists. */
  datatype Client = Client(state: HubState, reported: HubState, invoked: seq<Invocation>)

  const InitialClient: Client := Client(Disconnected, Disconnected, [])

  datatype StartOutcome = AlreadyConnected | Started | StartFailed

  datatype StartResult = StartResult(client: Client, outcome: StartOutcome)

  /** `start`: nothing to do when connected. The connection itself only starts from
      `Disconnected` (it rejects otherwise) and then succeeds when the transport does;
      every rejection is reported as `Disconnected` and rethrown to the caller. */
  function Start(c: Client, transportSucceeds: bool): (r: StartResult)
    ensures c.state == Connected ==> r == StartResult(c, AlreadyConnected)
    ensures r.outcome == Started <==> c.state == Disconnected && transportSucceeds
    ensures r.outcome == Started ==> r.client.state == Connected && r.client.reported == Connected
    ensures r.outcome == StartFailed ==> r.client.state == c.state && r.client.reported == Disconnected
    ensures r.client.invoked == c.invoked
  {
    if c.state == Connected then StartResult(c, AlreadyConnected)
    else if c.state == Disconnected && transportSucceeds then StartResult(c.(state := Connected, reported := Connected), Started)
    else StartResult(c.(reported := Disconnected), StartFailed)
  }

  /** A second start after a successful one does nothing. */
  lemma StartTwice(c: Client, first: bool, second: bool)
    requires Start(c, first).outcome == Started
    ensures Start(Start(c, first).client, second) == StartResult(Start(c, first).client, AlreadyConnected)
  {
  }

  /** `stop`: once the connection has stopped both states are `Disconnected`; a failed
      stop is logged and changes nothing. */
  function Stop(c: Client, stopSucceeds: bool): (r: Client)
    ensures stopSucceeds ==> r.state == Disconnected && r.reported == Disconnected
    ensures !stopSucceeds ==> r == c
    ensures r.invoked == c.invoked
  {
    if stopSucceeds then c.(state := Disconnected, reported := Disconnected) else c
  }

  /** `joinCustomerGroup`: invokes `JoinCustomerGroup` only on a connected connection. */
  function JoinCustomerGroup(c: Client, customerId: int): (r: Client)
    ensures r.state == c.state && r.reported == c.reported
    ensures c.state == Connected ==> r.invoked == c.invoked + [JoinGroup(customerId)]
    ensures c.state != Connected ==> r.invoked == c.invoked
  {
    if c.state != Connected then c else c.(invoked := c.invoked + [JoinGroup(customerId)])
  }

  /** `leaveCustomerGroup`: invokes `LeaveCustomerGroup` only on a connected connection. */
  function LeaveCustomerGroup(c: Client, customerId: int): (r: Client)
    ensures r.state == c.state && r.reported == c.reported
    ensures c.state == Connected ==> r.invoked == c.invoked + [LeaveGroup(customerId)]
    ensures c.state != Connected ==> r.invoked == c.invoked
  {
    if c.state != Connected then c else c.(invoked := c.invoked + [LeaveGroup(customerId)])
  }

  /** The connection's lifecycle callbacks. */
  datatype Lifecycle = OnReconnecting | OnReconnected | OnClose

  /** Each callback runs after the connection entered the matching state and reports it. */
  function Notify(c: Client, event: Lifecycle): (r: Client)
    ensures r.state == r.reported && r.invoked == c.invoked
    ensures r.state == Reconnecting <==> event == OnReconnecting
    ensures r.state == Connected <==> event == OnReconnected
    ensures r.state == Disconnected <==> event == OnClose
  {
    var s := match event
      case OnReconnecting => Reconnecting
      case OnReconnected => Connected
      case OnClose => Disconnected;
    c.(state := s, reported := s)
  }

  /** `isConnected`. */
  predicate IsConnected(c: Client) {
    c.state == Connected
  }

  /** Only a connected client ever sends an invocation: an invocation is appended by a
      join or leave exactly when `isConnected` holds. */
  lemma InvokesOnlyWhenConnected(c: Client, customerId: int)
    ensures |JoinCustomerGroup(c, customerId).invoked| == |c.invoked| + 1 <==> IsConnected(c)
    ensures |LeaveCustomerGroup(c, customerId).invoked| == |c.invoked| + 1 <==> IsConnected(c)
  {
  }

  /** What an invocation does on the server: the hub's group operation for the caller. */
  function Apply(groups: OrdersHub.Groups, connection: OrdersHub.ConnectionId, i: Invocation): OrdersHub.Groups {
    match i
    case JoinGroup(id) => OrdersHub.JoinCustomerGroup(groups, connection, id)
    case LeaveGroup(id) => OrdersHub.LeaveCustomerGroup(groups, connection, id)
  }

  /** A connected client that joins a customer's group receives every event the order
      generator publishes for that customer. */
  lemma ConnectedJoinReceivesCustomerEvents(c: Client, groups: OrdersHub.Groups, connection: OrdersHub.ConnectionId,
                                            customerId: int, e: OrdersHub.OrderCreated)
    requires IsConnected(c)
    ensures var after := JoinCustomerGroup(c, customerId);
            var i := after.invoked[|after.invoked| - 1];
            connection in OrdersHub.Recipients(Apply(groups, connection, i),
                                               OrdersHub.Publication(OrdersHub.GroupName(customerId), e))
  {
    OrdersHub.JoinedConnectionReceives(groups, connection, customerId, e);
  }

  /** The server's groups after one connection's invocations, in order. */
  function ApplyAll(groups: OrdersHub.Groups, connection: OrdersHub.ConnectionId, invs: seq<Invocation>): OrdersHub.Groups
    decreases |invs|
  {
    if |invs| == 0 then groups else ApplyAll(Apply(groups, connection, invs[0]), connection, invs[1..])
  }

  /** Joins only add memberships, and after a run of joins the connection is in the group
      of every customer it joined. */
  lemma {:induction false} JoinedGroupsReached(groups: OrdersHub.Groups, connection: OrdersHub.ConnectionId,
                                               invs: seq<Invocation>)
    requires forall k :: 0 <= k < |invs| ==> invs[k].JoinGroup?
    ensures forall name :: OrdersHub.Members(groups, name) <= OrdersHub.Members(ApplyAll(groups, connection, invs), name)
    ensures forall k :: 0 <= k < |invs| ==>
              connection in OrdersHub.Members(ApplyAll(groups, connection, invs), OrdersHub.GroupName(invs[k].customerId))
    decreases |invs|
  {
    if |invs| > 0 {
      var g1 := Apply(groups, connection, invs[0]);
      JoinedGroupsReached(g1, connection, invs[1..]);
      forall k | 1 <= k < |invs|
        ensures connection in OrdersHub.Members(ApplyAll(groups, connection, invs), OrdersHub.GroupName(invs[k].customerId))
      {
        assert invs[k] == invs[1..][k - 1];
      }
    }
  }

  /** `orderCreated$`: a `BehaviorSubject` holding the last received event, `null` at
      first. */
  datatype EventSubject = EventSubject(last: Option<EventWire.ClientEvent>)

  const InitialSubject: EventSubject := EventSubject(None)

  /** The `OrderCreated` handler: the received event becomes the subject's value. */
  function Received(s: EventSubject, e: EventWire.ClientEvent): EventSubject {
    EventSubject(Some(e))
  }

  /** The subject after `events` were received in order, starting from `null`. */
  function AfterEvents(events: seq<EventWire.ClientEvent>): EventSubject
    decreases |events|
  {
    if |events| == 0 then InitialSubject else Received(AfterEvents(events[..|events| - 1]), events[|events| - 1])
  }

  /** What a new subscriber is handed at once, as written: a `BehaviorSubject` replays its
      current value. */
  function ReplayAsWritten(s: EventSubject): seq<Option<EventWire.ClientEvent>> {
    [s.last]
  }

  /** What a new subscriber is handed at once by a plain `Subject`: nothing; it sees only
      events received after it subscribed. */
  function Replay(s: EventSubject): seq<Option<EventWire.ClientEvent>> {
    []
  }

  /** After the events e1 … en were received, a subscriber that arrives now is handed
      exactly en at once (`null` when no event came yet) by the subject as written,
      however long ago en arrived; a plain `Subject` hands it nothing. */
  lemma SubscribeAfterEvents(events: seq<EventWire.ClientEvent>)
    ensures ReplayAsWritten(AfterEvents(events)) == if |events| == 0 then [None] else [Some(events[|events| - 1])]
    ensures Replay(AfterEvents(events)) == []
  {
  }
}
