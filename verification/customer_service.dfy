/** Customer create / read / update / delete, and the glue that keeps the order
    generator in step with the customer table: a created customer gets a job, a deleted
    one loses it, an update leaves the jobs alone. */
module CustomerService {
  import opened Common
  import opened Store
  import opened OrderJobManager
  import Sorting

  datatype CustomerDto = CustomerDto(id: int, name: string, email: string, isActive: bool, createdAt: int)

  /** The body of a create or update request (`CreateCustomerDto`, `UpdateCustomerDto`). */
  datatype CustomerInput = CustomerInput(name: string, email: string, isActive: bool)

  function ToDto(id: int, c: Customer): CustomerDto {
    CustomerDto(id, c.name, c.email, c.isActive, c.createdAt)
  }

  function CreatedAtOf(c: CustomerDto): int { c.createdAt }

  /** The state invariant of the server: the job table is well formed, holds exactly one
      entry per stored customer, and identity values are never reused. */
  predicate Consistent(b: Backend) {
    && Valid(b.registry)
    && b.registry.jobs.Keys == b.db.customers.Keys
    && IdsBelowCounter(b.db)
  }

  const InitialBackend: Backend := Backend(Db(map[], [], 1, 1), EmptyRegistry)

  lemma InitialBackendConsistent()
    ensures Consistent(InitialBackend)
  {
  }

  /** The result of a service call that saves: the returned value with the state after
      the call, or the exception thrown by `SaveChangesAsync`, after which the tracked
      changes are discarded with the request's context and the state is as before. */
  datatype Response<T> = Returned(value: T, backend: Backend) | SaveFailed

  /** `GetByIdAsync`: the stored customer as a DTO, or null when the id is missing. */
  function GetById(db: Db, id: int): (r: Option<CustomerDto>)
    ensures r == None <==> id !in db.customers
    ensures r.Some? ==> && r.value.id == id
                        && r.value.name == db.customers[id].name
                        && r.value.email == db.customers[id].email
                        && r.value.isActive == db.customers[id].isActive
                        && r.value.createdAt == db.customers[id].createdAt
  {
    if id in db.customers then Some(ToDto(id, db.customers[id])) else None
  }

  /** `GetAllAsync`: every stored customer exactly once, newest first. */
  method GetAll(db: Db) returns (r: seq<CustomerDto>)
    ensures Sorting.SortedDesc(r, CreatedAtOf)
    ensures |r| == |db.customers|
    ensures forall x :: x in r ==> x.id in db.customers && x == ToDto(x.id, db.customers[x.id])
    ensures forall id :: id in db.customers ==> ToDto(id, db.customers[id]) in r
  {
    var rest := db.customers.Keys;
    var rows: seq<CustomerDto> := [];
    while rest != {}
      invariant rest <= db.customers.Keys
      invariant |rows| + |rest| == |db.customers|
      invariant forall x :: x in rows ==> x.id in db.customers && x.id !in rest && x == ToDto(x.id, db.customers[x.id])
      invariant forall id :: id in db.customers && id !in rest ==> ToDto(id, db.customers[id]) in rows
      decreases rest
    {
      NonEmptyHasMember(rest);
      var key :| key in rest;
      rows := rows + [ToDto(key, db.customers[key])];
      rest := rest - {key};
    }
    r := Sorting.SortDesc(rows, CreatedAtOf);
    assert forall x :: x in r <==> x in rows by {
      forall x ensures x in r <==> x in rows {
        assert x in r <==> x in multiset(r);
        assert x in rows <==> x in multiset(rows);
      }
    }
  }

  /** `CreateAsync`: stores the customer under the next identity value, stamped with the
      clock, and only after the save succeeds starts its job. */
  function Create(b: Backend, dto: CustomerInput, now: int, saveSucceeds: bool): (r: Response<CustomerDto>)
    ensures r.SaveFailed? <==> !saveSucceeds
    ensures r.Returned? ==>
      var id := r.value.id;
      var after := r.backend;
      && id in after.db.customers
      && after.db.customers[id] == Customer(dto.name, dto.email, dto.isActive, now)
      && r.value == ToDto(id, after.db.customers[id])
      && (forall k :: k != id ==> (k in after.db.customers <==> k in b.db.customers))
      && (forall k :: k != id && k in b.db.customers ==> after.db.customers[k] == b.db.customers[k])
      && after.db.orders == b.db.orders
      && id in after.registry.jobs
    ensures Consistent(b) && r.Returned? ==>
      var id := r.value.id;
      && id !in b.db.customers
      && r.backend.registry.jobs[id] in r.backend.registry.tokens
      && r.backend.registry.tokens[r.backend.registry.jobs[id]] == Live
      && r.backend.registry.launched == b.registry.launched + [Launch(id, r.backend.registry.jobs[id])]
      && Consistent(r.backend)
  {
    if !saveSucceeds then
      SaveFailed
    else
      var id := b.db.nextCustomerId;
      var c := Customer(dto.name, dto.email, dto.isActive, now);
      var db := b.db.(customers := b.db.customers[id := c], nextCustomerId := id + 1);
      Returned(ToDto(id, c), Backend(db, StartJob(b.registry, id)))
  }

  /** `UpdateAsync`: a missing id answers false and changes nothing; otherwise only the
      name, email and active flag of that customer change. */
  function Update(b: Backend, id: int, dto: CustomerInput, saveSucceeds: bool): (r: Response<bool>)
    ensures id !in b.db.customers ==> r == Returned(false, b)
    ensures id in b.db.customers && !saveSucceeds ==> r.SaveFailed?
    ensures id in b.db.customers && saveSucceeds ==>
      && r.Returned? && r.value
      && r.backend.registry == b.registry
      && r.backend.db.orders == b.db.orders
      && r.backend.db.customers.Keys == b.db.customers.Keys
      && r.backend.db.customers[id] == Customer(dto.name, dto.email, dto.isActive, b.db.customers[id].createdAt)
      && (forall k :: k in b.db.customers && k != id ==> r.backend.db.customers[k] == b.db.customers[k])
    ensures Consistent(b) && r.Returned? ==> Consistent(r.backend)
  {
    if id !in b.db.customers then
      Returned(false, b)
    else if !saveSucceeds then
      SaveFailed
    else
      var c := b.db.customers[id].(name := dto.name, email := dto.email, isActive := dto.isActive);
      Returned(true, b.(db := b.db.(customers := b.db.customers[id := c])))
  }

  /** `DeleteAsync`: a missing id answers false and never reaches `StopJob`; otherwise the
      customer (and, by the database's cascade, its orders) is removed and only after the
      save is its job stopped. */
  function Delete(b: Backend, id: int, saveSucceeds: bool): (r: Response<bool>)
    ensures id !in b.db.customers ==> r == Returned(false, b)
    ensures id in b.db.customers && !saveSucceeds ==> r.SaveFailed?
    ensures id in b.db.customers && saveSucceeds ==>
      && r.Returned? && r.value
      && r.backend.db.customers.Keys == b.db.customers.Keys - {id}
      && (forall k :: k in r.backend.db.customers ==> r.backend.db.customers[k] == b.db.customers[k])
      && (forall o :: multiset(r.backend.db.orders)[o] == if o.customerId != id then multiset(b.db.orders)[o] else 0)
      && (forall k :: k != id ==> OrdersOf(r.backend.db.orders, k) == OrdersOf(b.db.orders, k))
      && r.backend.db.nextCustomerId == b.db.nextCustomerId && r.backend.db.nextOrderId == b.db.nextOrderId
      && r.backend.registry.nextToken == b.registry.nextToken && r.backend.registry.launched == b.registry.launched
      && (forall t :: t in b.registry.tokens && (id !in b.registry.jobs || t != b.registry.jobs[id])
                      ==> t in r.backend.registry.tokens && r.backend.registry.tokens[t] == b.registry.tokens[t])
      && id !in r.backend.registry.jobs
      && (forall k :: k in r.backend.registry.jobs ==> k in b.registry.jobs && r.backend.registry.jobs[k] == b.registry.jobs[k])
      && (id in b.registry.jobs ==> r.backend.registry.jobs.Keys == b.registry.jobs.Keys - {id}
                                    && b.registry.jobs[id] in r.backend.registry.tokens
                                    && r.backend.registry.tokens[b.registry.jobs[id]] == Cancelled)
    ensures Consistent(b) && r.Returned? ==> Consistent(r.backend)
  {
    if id !in b.db.customers then
      Returned(false, b)
    else if !saveSucceeds then
      SaveFailed
    else
      var db := b.db.(customers := b.db.customers - {id}, orders := OrdersNotOf(b.db.orders, id));
      assert forall k :: k != id ==> OrdersOf(db.orders, k) == OrdersOf(b.db.orders, k) by {
        forall k | k != id ensures OrdersOf(db.orders, k) == OrdersOf(b.db.orders, k) {
          OrdersNotOfKeepsOthers(b.db.orders, id, k);
        }
      }
      Returned(true, Backend(db, StopJob(b.registry, id)))
  }

  /** In a consistent state, a customer is stored exactly when it has a job, and that
      job's token is live. */
  lemma OneLiveJobPerCustomer(b: Backend, id: int)
    requires Consistent(b)
    ensures id in b.db.customers <==> id in b.registry.jobs
    ensures id in b.registry.jobs ==> b.registry.jobs[id] in b.registry.tokens
                                      && b.registry.tokens[b.registry.jobs[id]] == Live
  {
  }

  /** A run keeps the state consistent when the requests served between its cycles only
      update customers: it never touches the job table and writes no customer itself. */
  lemma RunKeepsConsistency(b: Backend, id: int, first: Step, ticks: seq<Step>)
    requires Consistent(b)
    requires first.customers.Keys == b.db.customers.Keys
    requires forall k :: 0 <= k < |ticks| ==> ticks[k].customers.Keys == b.db.customers.Keys
    ensures Consistent(RunJobAsync(b, id, first, ticks).backend)
  {
  }

  /** Once a customer is deleted, its job's next wait ends the loop, and a cycle that
      starts after the delete finds no customer and stores and sends nothing. */
  lemma NothingGeneratedAfterDelete(b: Backend, id: int, input: CycleInput)
    requires Consistent(b) && id in b.db.customers
    ensures var r := Delete(b, id, true);
            && r.Returned?
            && WaitForNextTick(r.backend.registry, b.registry.jobs[id]) == CancellationObserved
            && CreateOrderOnce(r.backend.db, id, input).db == r.backend.db
            && CreateOrderOnce(r.backend.db, id, input).sent == []
  {
  }

  /** A created customer reads back as the DTO the create returned. */
  lemma CreateThenGetById(b: Backend, dto: CustomerInput, now: int)
    ensures var r := Create(b, dto, now, true);
            r.Returned? && GetById(r.backend.db, r.value.id) == Some(r.value)
  {
  }

  /** An updated customer reads back with the new name, email and active flag and its
      original creation time. */
  lemma UpdateThenGetById(b: Backend, id: int, dto: CustomerInput)
    requires id in b.db.customers
    ensures var r := Update(b, id, dto, true);
            && r.Returned?
            && GetById(r.backend.db, id)
               == Some(CustomerDto(id, dto.name, dto.email, dto.isActive, b.db.customers[id].createdAt))
  {
  }

  /** A deleted customer reads back as missing. */
  lemma DeleteThenGetById(b: Backend, id: int)
    requires id in b.db.customers
    ensures var r := Delete(b, id, true);
            r.Returned? && GetById(r.backend.db, id) == None
  {
  }

  /** A successful create adds exactly one job, under an id the registry did not hold. */
  lemma CreateStartsFreshJob(b: Backend, dto: CustomerInput, now: int)
    requires Consistent(b)
    ensures var r := Create(b, dto, now, true);
            && r.Returned?
            && r.value.id !in b.registry.jobs
            && |r.backend.registry.jobs| == |b.registry.jobs| + 1
  {
    var r := Create(b, dto, now, true);
    assert r.backend.registry.jobs.Keys == b.registry.jobs.Keys + {r.value.id};
  }
}
