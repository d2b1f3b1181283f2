/** The real-time hub: named groups of connections, the `customer-{id}` naming shared by
    the hub and the order generator, and the fan-out of an `OrderCreated` message to the
    members of one group at the moment it is sent. */
module OrdersHub {
  import Text

  type ConnectionId = string

  /** Group name -> connections currently in that group. A name that is absent has no
      members. */
  type Groups = map<string, set<ConnectionId>>

  const GroupPrefix: string := "customer-"

  /** The group that carries the events of one customer. */
  function GroupName(customerId: int): (name: string)
    ensures |GroupPrefix| < |name| && name[..|GroupPrefix|] == GroupPrefix
    ensures Text.IsIntText(name[|GroupPrefix|..]) && Text.ParseInt(name[|GroupPrefix|..]) == customerId
  {
    var digits := Text.IntToString(customerId);
    Text.IntRoundTrip(customerId);
    assert (GroupPrefix + digits)[|GroupPrefix|..] == digits;
    GroupPrefix + digits
  }

  /** Distinct customers never share a group. */
  lemma GroupNameInjective(a: int, b: int)
    requires GroupName(a) == GroupName(b)
    ensures a == b
  {
  }

  function Members(groups: Groups, name: string): set<ConnectionId> {
    if name in groups then groups[name] else {}
  }

  /** `JoinCustomerGroup`: adds the caller's connection to `customer-{id}`; no other
      membership changes. */
  function JoinCustomerGroup(groups: Groups, caller: ConnectionId, customerId: int): (r: Groups)
    ensures caller in Members(r, GroupName(customerId))
    ensures forall name, c :: c in Members(r, name) <==>
              c in Members(groups, name) || (name == GroupName(customerId) && c == caller)
  {
    var name := GroupName(customerId);
    groups[name := Members(groups, name) + {caller}]
  }

  /** `LeaveCustomerGroup`: removes the caller's connection from `customer-{id}`; no other
      membership changes. Leaving a group one is not in changes nothing. */
  function LeaveCustomerGroup(groups: Groups, caller: ConnectionId, customerId: int): (r: Groups)
    ensures caller !in Members(r, GroupName(customerId))
    ensures forall name, c :: c in Members(r, name) <==>
              c in Members(groups, name) && !(name == GroupName(customerId) && c == caller)
  {
    var name := GroupName(customerId);
    if name in groups then groups[name := groups[name] - {caller}] else groups
  }

  /** Joining is idempotent. */
  lemma JoinTwice(groups: Groups, caller: ConnectionId, customerId: int)
    ensures var once := JoinCustomerGroup(groups, caller, customerId);
            forall name :: Members(JoinCustomerGroup(once, caller, customerId), name) == Members(once, name)
  {
  }

  /** A join followed by a leave restores the memberships of a connection that was not in
      the group before. */
  lemma JoinThenLeave(groups: Groups, caller: ConnectionId, customerId: int)
    requires caller !in Members(groups, GroupName(customerId))
    ensures var after := LeaveCustomerGroup(JoinCustomerGroup(groups, caller, customerId), caller, customerId);
            forall name :: Members(after, name) == Members(groups, name)
  {
    var after := LeaveCustomerGroup(JoinCustomerGroup(groups, caller, customerId), caller, customerId);
    forall name ensures Members(after, name) == Members(groups, name) {
      assert forall c :: c in Members(after, name) <==> c in Members(groups, name);
    }
  }

  /** The payload of the `OrderCreated` message: the customer and the stored order's id,
      amount and creation time. */
  datatype OrderCreated = OrderCreated(customerId: int, id: int, amount: real, createdAt: int)

  /** One `SendAsync` to a group. */
  datatype Publication = Publication(group: string, event: OrderCreated)

  /** The connections a publication reaches: the members of its group when it is sent. */
  function Recipients(groups: Groups, p: Publication): set<ConnectionId> {
    Members(groups, p.group)
  }

  /** A connection that joined a customer's group receives that customer's events. */
  lemma JoinedConnectionReceives(groups: Groups, caller: ConnectionId, customerId: int, e: OrderCreated)
    ensures caller in Recipients(JoinCustomerGroup(groups, caller, customerId), Publication(GroupName(customerId), e))
  {
  }

  /** Joining customer `a` never subscribes the caller to a different customer `b`. */
  lemma NoCrossCustomerDelivery(groups: Groups, caller: ConnectionId, a: int, b: int, e: OrderCreated)
    requires a != b
    requires caller !in Members(groups, GroupName(b))
    ensures caller !in Recipients(JoinCustomerGroup(groups, caller, a), Publication(GroupName(b), e))
  {
    if GroupName(a) == GroupName(b) {
      GroupNameInjective(a, b);
    }
  }

  /** Two connections join group 7; a send reaches both; after one leaves, a second send
      reaches only the other. */
  lemma TwoSubscribersOneLeaves(c1: ConnectionId, c2: ConnectionId, e1: OrderCreated, e2: OrderCreated)
    requires c1 != c2
    ensures var g1 := JoinCustomerGroup(JoinCustomerGroup(map[], c1, 7), c2, 7);
            var g2 := LeaveCustomerGroup(g1, c1, 7);
            && Recipients(g1, Publication(GroupName(7), e1)) == {c1, c2}
            && Recipients(g2, Publication(GroupName(7), e2)) == {c2}
  {
    var g1 := JoinCustomerGroup(JoinCustomerGroup(map[], c1, 7), c2, 7);
    var g2 := LeaveCustomerGroup(g1, c1, 7);
    assert forall c :: c in Members(g1, GroupName(7)) <==> c == c1 || c == c2;
    assert forall c :: c in Members(g2, GroupName(7)) <==> c == c2;
  }
}
