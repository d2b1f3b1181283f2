/** Toast notifications: the service that numbers and emits them with a default display
    time per kind, and the component's list that appends each received toast and drops
    it again by id. */
module Toasts {
  import opened Common

  datatype ToastType = Success | Error | Info | Warning

  /** `Toast`: the service always fills in a duration. */
  datatype Toast = Toast(id: int, message: string, kind: ToastType, duration: int)

  /** The service: the id counter and the toasts emitted so far, oldest first. */
  datatype ToastService = ToastService(counter: int, emitted: seq<Toast>)

  const InitialService: ToastService := ToastService(0, [])

  /** The display time a helper uses when its caller passes none. */
  function DefaultDuration(kind: ToastType): (ms: int)
    ensures 3000 <= ms <= 5000
    ensures kind == Error ==> ms == 5000
    ensures kind == Warning ==> ms == 4000
    ensures kind == Success || kind == Info ==> ms == 3000
  {
    match kind
    case Success => 3000
    case Error => 5000
    case Info => 3000
    case Warning => 4000
  }

  /** `success`, `error`, `info` and `warning`, through `show`: the next id, the message
      and kind as given, the caller's duration or the kind's default, emitted once. */
  function Show(s: ToastService, kind: ToastType, message: string, duration: Option<int>): (r: ToastService)
    ensures r.counter == s.counter + 1
    ensures |r.emitted| == |s.emitted| + 1 && r.emitted[..|s.emitted|] == s.emitted
    ensures var t := r.emitted[|s.emitted|];
            && t.id == r.counter && t.message == message && t.kind == kind
            && t.duration == (if duration.Some? then duration.value else DefaultDuration(kind))
  {
    var id := s.counter + 1;
    var t := Toast(id, message, kind, if duration.Some? then duration.value else DefaultDuration(kind));
    ToastService(id, s.emitted + [t])
  }

  /** The service's invariant: every toast so far was numbered by the counter in order,
      1, 2, 3, …, so the last id is the counter. */
  predicate Numbered(s: ToastService) {
    && s.counter == |s.emitted|
    && forall i :: 0 <= i < |s.emitted| ==> s.emitted[i].id == i + 1
  }

  lemma InitialServiceNumbered()
    ensures Numbered(InitialService)
  {
  }

  lemma ShowKeepsNumbered(s: ToastService, kind: ToastType, message: string, duration: Option<int>)
    requires Numbered(s)
    ensures Numbered(Show(s, kind, message, duration))
  {
  }

  /** In a numbered service ids are strictly increasing, hence no two toasts share one. */
  lemma NumberedIdsIncrease(s: ToastService, i: int, j: int)
    requires Numbered(s)
    requires 0 <= i < j < |s.emitted|
    ensures s.emitted[i].id < s.emitted[j].id
  {
  }

  /** `removeToast`: the list without the toasts carrying `id`, in the same order. */
  function RemoveToast(toasts: seq<Toast>, id: int): (r: seq<Toast>)
    ensures forall t :: t in r <==> t in toasts && t.id != id
    ensures |r| <= |toasts|
  {
    if |toasts| == 0 then []
    else if toasts[0].id == id then RemoveToast(toasts[1..], id)
    else [toasts[0]] + RemoveToast(toasts[1..], id)
  }

  /** Removal works piece by piece: removing from a concatenation removes from each part
      and keeps the parts in order. */
  lemma {:induction false} RemoveToastConcat(a: seq<Toast>, b: seq<Toast>, id: int)
    ensures RemoveToast(a + b, id) == RemoveToast(a, id) + RemoveToast(b, id)
  {
    if |a| > 0 {
      assert (a + b)[0] == a[0] && (a + b)[1..] == a[1..] + b;
      RemoveToastConcat(a[1..], b, id);
      if a[0].id != id {
        assert [a[0]] + (RemoveToast(a[1..], id) + RemoveToast(b, id))
            == ([a[0]] + RemoveToast(a[1..], id)) + RemoveToast(b, id);
      }
    } else {
      assert a + b == b;
    }
  }

  /** Removing an id no toast carries leaves the list unchanged. */
  lemma {:induction false} RemoveAbsentToast(toasts: seq<Toast>, id: int)
    requires forall t :: t in toasts ==> t.id != id
    ensures RemoveToast(toasts, id) == toasts
  {
    if |toasts| > 0 {
      assert toasts == [toasts[0]] + toasts[1..];
      RemoveAbsentToast(toasts[1..], id);
    }
  }

  /** Removing twice is removing once. */
  lemma RemoveToastTwice(toasts: seq<Toast>, id: int)
    ensures RemoveToast(RemoveToast(toasts, id), id) == RemoveToast(toasts, id)
  {
    RemoveAbsentToast(RemoveToast(toasts, id), id);
  }

  /** A pending `setTimeout` that will remove the toast `toastId`. */
  datatype Timer = Timer(toastId: int, delay: int)

  /** The component: the displayed toasts and the removals it scheduled. */
  datatype ToastList = ToastList(toasts: seq<Toast>, timers: seq<Timer>)

  /** The subscription callback: append the toast; schedule its removal when its duration
      is truthy, that is, not zero. */
  function Receive(l: ToastList, t: Toast): (r: ToastList)
    ensures r.toasts == l.toasts + [t]
    ensures t.duration != 0 ==> r.timers == l.timers + [Timer(t.id, t.duration)]
    ensures t.duration == 0 ==> r.timers == l.timers
  {
    ToastList(l.toasts + [t], if t.duration != 0 then l.timers + [Timer(t.id, t.duration)] else l.timers)
  }

  /** A timer going off: its toast is removed, and every other toast stays. The timer
      list records the removals ever scheduled, so a fired timer stays in it. */
  function Fire(l: ToastList, timer: Timer): (r: ToastList)
    ensures forall u :: u in r.toasts <==> u in l.toasts && u.id != timer.toastId
    ensures r.timers == l.timers
  {
    l.(toasts := RemoveToast(l.toasts, timer.toastId))
  }

  /** A toast with a display time is removed by its own timer, and the toasts already
      shown stay, in order, when their ids differ from it. */
  lemma ReceivedToastExpires(l: ToastList, t: Toast)
    requires t.duration != 0
    requires forall u :: u in l.toasts ==> u.id != t.id
    ensures var r := Receive(l, t);
            && Timer(t.id, t.duration) in r.timers
            && Fire(r, Timer(t.id, t.duration)).toasts == l.toasts
  {
    var r := Receive(l, t);
    assert r.timers[|r.timers| - 1] == Timer(t.id, t.duration);
    RemoveToastConcat(l.toasts, [t], t.id);
    RemoveAbsentToast(l.toasts, t.id);
    assert RemoveToast([t], t.id) == [];
  }

  /** Every toast the service emits in order reaches the list, in the same order. */
  function ReceiveAll(l: ToastList, ts: seq<Toast>): (r: ToastList)
    ensures r.toasts == l.toasts + ts
    decreases |ts|
  {
    if |ts| == 0 then l
    else
      assert l.toasts + ts == (l.toasts + [ts[0]]) + ts[1..];
      ReceiveAll(Receive(l, ts[0]), ts[1..])
  }
}
