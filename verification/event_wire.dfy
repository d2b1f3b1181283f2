/** The `OrderCreated` message on the wire: the server sends an anonymous object whose
    member names the hub's JSON protocol turns into camelCase property names, and the
    browser reads it through the `OrderCreatedEvent` interface. */
module EventWire {
  import opened Common
  import OrdersHub

  /** A property value of the message: a whole number, a decimal amount, or a timestamp. */
  datatype JsonValue = JsonInt(i: int) | JsonAmount(a: real) | JsonTime(t: int)

  type JsonObject = map<string, JsonValue>

  /** One member of the anonymous object the server sends. */
  datatype Member = Member(name: string, value: JsonValue)

  function LowerAscii(c: char): char {
    if 'A' <= c <= 'Z' then (c as int + 32) as char else c
  }

  /** The camelCase naming policy on a member name that starts with one capital followed
      by a lower-case letter (the only shape the message uses): the first letter is
      lowered, the rest is kept. */
  function CamelCase(name: string): (r: string)
    ensures |r| == |name|
    ensures 0 < |name| ==> r[1..] == name[1..] && r[0] == LowerAscii(name[0])
  {
    if |name| == 0 then name else [LowerAscii(name[0])] + name[1..]
  }

  /** The camelCase names of the members. */
  function Names(members: seq<Member>): set<string> {
    set i | 0 <= i < |members| :: CamelCase(members[i].name)
  }

  /** Whether no member after the `i`-th has the same camelCase name. */
  predicate NotOverridden(members: seq<Member>, i: int)
    requires 0 <= i < |members|
  {
    forall j :: i < j < |members| ==> CamelCase(members[j].name) != CamelCase(members[i].name)
  }

  /** The JSON object of a member list: each member under its camelCase name, a later
      member overwriting an earlier one of the same name. */
  function Serialize(members: seq<Member>): (r: JsonObject)
    ensures forall m :: m in members ==> CamelCase(m.name) in r
    ensures |members| > 0 ==> r[CamelCase(members[|members| - 1].name)] == members[|members| - 1].value
  {
    if |members| == 0 then map[]
    else
      var last := members[|members| - 1];
      var front := members[..|members| - 1];
      var r := Serialize(front)[CamelCase(last.name) := last.value];
      assert members == front + [last];
      r
  }

  /** The object holds no property but the members' names. */
  lemma {:induction false} SerializeKeys(members: seq<Member>)
    ensures Serialize(members).Keys == Names(members)
    decreases |members|
  {
    if |members| > 0 {
      var n := |members| - 1;
      var front := members[..n];
      SerializeKeys(front);
      assert Serialize(members).Keys == Serialize(front).Keys + {CamelCase(members[n].name)};
      assert Names(members) == Names(front) + {CamelCase(members[n].name)} by {
        assert forall i :: 0 <= i < n ==> front[i] == members[i];
      }
    }
  }

  /** A member not overridden in a list is not overridden in any prefix holding it. */
  lemma NotOverriddenInPrefix(members: seq<Member>, n: int, i: int)
    requires 0 <= i < n <= |members| && NotOverridden(members, i)
    ensures NotOverridden(members[..n], i)
  {
    var front := members[..n];
    forall j | i < j < n ensures CamelCase(front[j].name) != CamelCase(front[i].name) {
      assert front[j] == members[j] && front[i] == members[i];
    }
  }

  /** The object of a non-empty list: the object of the others, with the last member
      written over it. */
  lemma SerializeLast(members: seq<Member>)
    requires |members| > 0
    ensures Serialize(members)
            == Serialize(members[..|members| - 1])[CamelCase(members[|members| - 1].name) := members[|members| - 1].value]
  {
  }

  /** A member whose name no later member shares keeps its own value in the object. */
  lemma {:induction false} SerializeValues(members: seq<Member>, i: int)
    requires 0 <= i < |members| && NotOverridden(members, i)
    ensures CamelCase(members[i].name) in Serialize(members)
    ensures Serialize(members)[CamelCase(members[i].name)] == members[i].value
    decreases |members|
  {
    var n := |members| - 1;
    if i == n {
      SerializeLast(members);
    } else {
      var front := members[..n];
      var key := CamelCase(members[i].name);
      NotOverriddenInPrefix(members, n, i);
      SerializeValues(front, i);
      assert front[i] == members[i];
      assert key != CamelCase(members[n].name);
      SerializeLast(members);
    }
  }

  /** The members the server sends, as written: `CustomerId = customerId`, then
      `order.Id`, `order.Amount` and `order.CreatedAt`, which take their property's name. */
  function AsWrittenMembers(e: OrdersHub.OrderCreated): seq<Member> {
    [Member("CustomerId", JsonInt(e.customerId)), Member("Id", JsonInt(e.id)),
     Member("Amount", JsonAmount(e.amount)), Member("CreatedAt", JsonTime(e.createdAt))]
  }

  /** The members with the order id sent under the name the client reads. */
  function CorrectedMembers(e: OrdersHub.OrderCreated): seq<Member> {
    [Member("CustomerId", JsonInt(e.customerId)), Member("OrderId", JsonInt(e.id)),
     Member("Amount", JsonAmount(e.amount)), Member("CreatedAt", JsonTime(e.createdAt))]
  }

  /** The message as the browser sees it through `OrderCreatedEvent`: a property that is
      missing, or not of the expected kind, reads as `undefined`. */
  datatype ClientEvent = ClientEvent(orderId: Option<int>, customerId: Option<int>,
                                     amount: Option<real>, createdAt: Option<int>)

  function ReadInt(o: JsonObject, key: string): (r: Option<int>)
    ensures r.Some? <==> key in o && o[key].JsonInt?
    ensures r.Some? ==> r.value == o[key].i
  {
    if key in o && o[key].JsonInt? then Some(o[key].i) else None
  }

  function Read(o: JsonObject): ClientEvent {
    ClientEvent(ReadInt(o, "orderId"), ReadInt(o, "customerId"),
                if "amount" in o && o["amount"].JsonAmount? then Some(o["amount"].a) else None,
                if "createdAt" in o && o["createdAt"].JsonTime? then Some(o["createdAt"].t) else None)
  }

  /** What the server sends for a publication, as the client reads it. */
  function Receive(e: OrdersHub.OrderCreated): ClientEvent {
    Read(Serialize(CorrectedMembers(e)))
  }

  /** As written, the message carries `id` rather than `orderId`, so the client's
      `orderId` is `undefined` while the other three properties arrive intact. */
  lemma AsWrittenOrderIdIsUndefined(e: OrdersHub.OrderCreated)
    ensures var c := Read(Serialize(AsWrittenMembers(e)));
            && c.orderId == None
            && c.customerId == Some(e.customerId)
            && c.amount == Some(e.amount)
            && c.createdAt == Some(e.createdAt)
  {
    SerializeFour(AsWrittenMembers(e));
    CommonNames();
    assert CamelCase("Id") == "id";
  }

  /** With the corrected member name every property of the event reaches the client. */
  lemma ReceiveRoundTrip(e: OrdersHub.OrderCreated)
    ensures Receive(e) == ClientEvent(Some(e.id), Some(e.customerId), Some(e.amount), Some(e.createdAt))
  {
    SerializeFour(CorrectedMembers(e));
    CommonNames();
    assert CamelCase("OrderId") == "orderId";
  }

  /** The object of four members with distinct names, property by property. */
  lemma SerializeFour(ms: seq<Member>)
    requires |ms| == 4
    ensures Serialize(ms) == map[CamelCase(ms[0].name) := ms[0].value][CamelCase(ms[1].name) := ms[1].value]
                               [CamelCase(ms[2].name) := ms[2].value][CamelCase(ms[3].name) := ms[3].value]
  {
    var s1, s2, s3 := ms[..1], ms[..2], ms[..3];
    assert s1[..0] == [] && s2[..1] == s1 && s3[..2] == s2 && ms[..3] == s3;
    assert Serialize(s1) == map[CamelCase(ms[0].name) := ms[0].value];
    assert Serialize(s2) == Serialize(s1)[CamelCase(ms[1].name) := ms[1].value];
    assert Serialize(s3) == Serialize(s2)[CamelCase(ms[2].name) := ms[2].value];
  }

  /** The property names of the three members both versions share. */
  lemma CommonNames()
    ensures CamelCase("CustomerId") == "customerId"
    ensures CamelCase("Amount") == "amount"
    ensures CamelCase("CreatedAt") == "createdAt"
  {
    assert LowerAscii('C') == 'c' && LowerAscii('A') == 'a';
  }

  /** Distinct events are told apart by the client. */
  lemma ReceiveInjective(a: OrdersHub.OrderCreated, b: OrdersHub.OrderCreated)
    requires Receive(a) == Receive(b)
    ensures a == b
  {
    ReceiveRoundTrip(a);
    ReceiveRoundTrip(b);
  }
}
