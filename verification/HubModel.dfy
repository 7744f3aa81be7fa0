/** The event hub as a machine: a bounded broadcast queue in front of bounded subscriber queues.

    One dispatch is one step: the run loop sends to each subscriber once, and a send touches only
    that subscriber's queue, so what consumers drain or filters change in between can be moved
    before or after the dispatch. */
module HubModel {

  const BROADCAST_CAPACITY: nat := 256

  /** `permission` is true of the two event types that follow the focused workspace. */
  datatype Event = Event(workspaceID: string, permission: bool, number: nat)

  datatype Filter = Filter(workspaces: set<string>, hasFocus: bool, focusedWorkspaceID: string)

  predicate Forwards(f: Filter, e: Event) {
    if f.workspaces != {} && e.workspaceID != "" && e.workspaceID !in f.workspaces then false
    else if f.hasFocus && e.permission && e.workspaceID != "" && e.workspaceID != f.focusedWorkspaceID then false
    else true
  }

  /** A subscriber.  `joined`, `consumed` and `filters` are history: how many events had been
      dispatched when it registered, what its consumer has taken from the queue, and the filter in
      force at each dispatch it got through. */
  datatype Sub = Sub(filter: Filter, capacity: nat, buffer: seq<Event>, closed: bool,
                     joined: nat, consumed: seq<Event>, filters: seq<Filter>)

  function Received(sub: Sub): seq<Event> {
    sub.consumed + sub.buffer
  }

  predicate Accepts(sub: Sub, e: Event) {
    Forwards(sub.filter, e) ==> !sub.closed && |sub.buffer| < sub.capacity
  }

  function Send(sub: Sub, e: Event): Sub
    requires Accepts(sub, e)
  {
    sub.(buffer := if Forwards(sub.filter, e) then sub.buffer + [e] else sub.buffer,
         filters := sub.filters + [sub.filter])
  }

  function Close(sub: Sub): Sub {
    sub.(closed := true)
  }

  /** `gone` keeps, as history, the subscribers that were registered once and are no longer;
      `accepted` and `dispatched` are history too. */
  datatype Hub = Hub(subs: map<string, Sub>, gone: map<string, Sub>, broadcast: seq<Event>,
                     accepted: seq<Event>, dispatched: seq<Event>)

  datatype Op =
    | Publish(event: Event)
    | Register(id: string, filter: Filter, capacity: nat, closed: bool)
    | Unregister(id: string)
    | Dispatch
    | Stop
    | Consume(id: string)
    | CloseSelf(id: string)
    | SetFilter(id: string, filter: Filter)

  function DoPublish(h: Hub, e: Event): Hub {
    if |h.broadcast| < BROADCAST_CAPACITY then
      h.(broadcast := h.broadcast + [e], accepted := h.accepted + [e])
    else h
  }

  function NewSub(h: Hub, filter: Filter, capacity: nat, closed: bool): Sub {
    Sub(filter, capacity, [], closed, |h.dispatched|, [], [])
  }

  function DoRegister(h: Hub, id: string, sub: Sub): Hub {
    h.(subs := h.subs[id := sub])
  }

  function DoUnregister(h: Hub, id: string): Hub {
    if id in h.subs then h.(subs := h.subs - {id}, gone := h.gone[id := Close(h.subs[id])]) else h
  }

  function Delivered(subs: map<string, Sub>, e: Event): map<string, Sub> {
    map id | id in subs && Accepts(subs[id], e) :: Send(subs[id], e)
  }

  function Evicted(subs: map<string, Sub>, e: Event): map<string, Sub> {
    map id | id in subs && !Accepts(subs[id], e) :: Close(subs[id])
  }

  function DoDispatch(h: Hub): Hub {
    if h.broadcast == [] then h
    else
      var e := h.broadcast[0];
      h.(subs := Delivered(h.subs, e), gone := h.gone + Evicted(h.subs, e),
         broadcast := h.broadcast[1..], dispatched := h.dispatched + [e])
  }

  function AllClosed(subs: map<string, Sub>): map<string, Sub> {
    map id | id in subs :: Close(subs[id])
  }

  function DoStop(h: Hub): Hub {
    h.(subs := map[], gone := h.gone + AllClosed(h.subs))
  }

  function Take(sub: Sub): Sub {
    if sub.buffer == [] then sub
    else sub.(buffer := sub.buffer[1..], consumed := sub.consumed + [sub.buffer[0]])
  }

  function DoConsume(h: Hub, id: string): Hub {
    if id in h.subs then h.(subs := h.subs[id := Take(h.subs[id])])
    else if id in h.gone then h.(gone := h.gone[id := Take(h.gone[id])])
    else h
  }

  function Apply(h: Hub, op: Op): Hub {
    match op
    case Publish(e) => DoPublish(h, e)
    case Register(id, filter, capacity, closed) => DoRegister(h, id, NewSub(h, filter, capacity, closed))
    case Unregister(id) => DoUnregister(h, id)
    case Dispatch => DoDispatch(h)
    case Stop => DoStop(h)
    case Consume(id) => DoConsume(h, id)
    case CloseSelf(id) => if id in h.subs then h.(subs := h.subs[id := Close(h.subs[id])]) else h
    case SetFilter(id, filter) => if id in h.subs then h.(subs := h.subs[id := h.subs[id].(filter := filter)]) else h
  }

  const STARTED: Hub := Hub(map[], map[], [], [], [])

  function Run(ops: seq<Op>): Hub {
    if ops == [] then STARTED else Apply(Run(ops[..|ops| - 1]), ops[|ops| - 1])
  }

  /** No subscriber ID is registered twice in one run. */
  predicate FreshIDs(ops: seq<Op>) {
    forall i, j :: 0 <= i < j < |ops| && ops[i].Register? && ops[j].Register? ==> ops[i].id != ops[j].id
  }

  // ---- No silent gaps ---------------------------------------------------------------------

  /** The events each filter lets through, in order. */
  function Select(events: seq<Event>, filters: seq<Filter>): seq<Event>
    requires |events| == |filters|
  {
    if events == [] then []
    else
      var n := |events| - 1;
      Select(events[..n], filters[..n]) + if Forwards(filters[n], events[n]) then [events[n]] else []
  }

  /** The run of dispatched events a subscriber has got through, from its registration on. */
  ghost predicate Contiguous(sub: Sub, dispatched: seq<Event>) {
    && sub.joined + |sub.filters| <= |dispatched|
    && Received(sub) == Select(dispatched[sub.joined..sub.joined + |sub.filters|], sub.filters)
    && |sub.buffer| <= sub.capacity
  }

  /** Registered: through all that was dispatched since it joined. */
  ghost predicate UpToDate(sub: Sub, dispatched: seq<Event>) {
    Contiguous(sub, dispatched) && sub.joined + |sub.filters| == |dispatched|
  }

  ghost predicate LeftInOrder(sub: Sub, dispatched: seq<Event>) {
    Contiguous(sub, dispatched) && sub.closed
  }

  ghost predicate Gapless(h: Hub) {
    && h.accepted == h.dispatched + h.broadcast
    && |h.broadcast| <= BROADCAST_CAPACITY
    && h.subs.Keys !! h.gone.Keys
    && (forall id :: id in h.subs ==> UpToDate(h.subs[id], h.dispatched))
    && (forall id :: id in h.gone ==> LeftInOrder(h.gone[id], h.dispatched))
  }

  lemma SendContiguous(sub: Sub, dispatched: seq<Event>, e: Event)
    requires UpToDate(sub, dispatched) && Accepts(sub, e)
    ensures UpToDate(Send(sub, e), dispatched + [e])
  {
    var t := Send(sub, e);
    var run := (dispatched + [e])[t.joined..t.joined + |t.filters|];
    assert run[..|run| - 1] == dispatched[sub.joined..sub.joined + |sub.filters|];
    assert t.filters[..|run| - 1] == sub.filters;
    assert sub.consumed + (sub.buffer + [e]) == Received(sub) + [e];
  }

  lemma CloseContiguous(sub: Sub, dispatched: seq<Event>)
    requires Contiguous(sub, dispatched)
    ensures LeftInOrder(Close(sub), dispatched)
  {
    assert Received(Close(sub)) == Received(sub);
  }

  lemma StillContiguous(sub: Sub, dispatched: seq<Event>, e: Event)
    requires Contiguous(sub, dispatched)
    ensures Contiguous(sub, dispatched + [e])
  {
    assert (dispatched + [e])[sub.joined..sub.joined + |sub.filters|]
        == dispatched[sub.joined..sub.joined + |sub.filters|];
  }

  lemma DispatchGapless(h: Hub)
    requires Gapless(h)
    ensures Gapless(DoDispatch(h))
  {
    if h.broadcast != [] {
      var e := h.broadcast[0];
      var t := DoDispatch(h);
      assert h.broadcast == [e] + h.broadcast[1..];
      forall id | id in t.subs ensures UpToDate(t.subs[id], t.dispatched) {
        SendContiguous(h.subs[id], h.dispatched, e);
      }
      forall id | id in t.gone ensures LeftInOrder(t.gone[id], t.dispatched) {
        if id in h.gone {
          StillContiguous(h.gone[id], h.dispatched, e);
        } else {
          StillContiguous(h.subs[id], h.dispatched, e);
          CloseContiguous(h.subs[id], t.dispatched);
        }
      }
    }
  }

  lemma TakeReceived(sub: Sub, dispatched: seq<Event>)
    requires Contiguous(sub, dispatched)
    ensures Contiguous(Take(sub), dispatched)
  {
    if sub.buffer != [] {
      assert sub.consumed + [sub.buffer[0]] + sub.buffer[1..] == sub.consumed + sub.buffer;
    }
  }

  lemma ReplaceGapless(h: Hub, id: string, sub: Sub)
    requires Gapless(h)
    ensures id in h.subs && UpToDate(sub, h.dispatched) ==> Gapless(h.(subs := h.subs[id := sub]))
    ensures id in h.gone && LeftInOrder(sub, h.dispatched) ==> Gapless(h.(gone := h.gone[id := sub]))
  {
    assert id in h.subs ==> h.subs[id := sub].Keys == h.subs.Keys;
    assert id in h.gone ==> h.gone[id := sub].Keys == h.gone.Keys;
  }

  lemma ConsumeGapless(h: Hub, id: string)
    requires Gapless(h)
    ensures Gapless(DoConsume(h, id))
  {
    if id in h.subs {
      TakeReceived(h.subs[id], h.dispatched);
      ReplaceGapless(h, id, Take(h.subs[id]));
    } else if id in h.gone {
      TakeReceived(h.gone[id], h.dispatched);
      ReplaceGapless(h, id, Take(h.gone[id]));
    }
  }

  lemma RegisterGapless(h: Hub, id: string, sub: Sub)
    requires Gapless(h) && id !in h.subs && id !in h.gone
    requires sub.joined == |h.dispatched| && Received(sub) == [] && sub.filters == []
    requires |sub.buffer| <= sub.capacity
    ensures Gapless(DoRegister(h, id, sub))
  {
    assert h.dispatched[sub.joined..sub.joined + |sub.filters|] == [];
    assert UpToDate(sub, h.dispatched);
    assert h.subs[id := sub].Keys == h.subs.Keys + {id};
  }

  lemma UnregisterGapless(h: Hub, id: string)
    requires Gapless(h)
    ensures Gapless(DoUnregister(h, id))
  {
    if id in h.subs {
      CloseContiguous(h.subs[id], h.dispatched);
      var t := DoUnregister(h, id);
      assert t.subs.Keys == h.subs.Keys - {id} && t.gone.Keys == h.gone.Keys + {id};
    }
  }

  lemma StopGapless(h: Hub)
    requires Gapless(h)
    ensures Gapless(DoStop(h))
  {
    var t := DoStop(h);
    forall id | id in t.gone ensures LeftInOrder(t.gone[id], t.dispatched) {
      if id in h.subs {
        CloseContiguous(h.subs[id], h.dispatched);
      }
    }
  }

  /** Neither a new filter nor closing touches what was received. */
  lemma AdjustGapless(h: Hub, id: string, sub: Sub)
    requires Gapless(h) && id in h.subs
    requires sub == h.subs[id].(filter := sub.filter, closed := sub.closed)
    ensures Gapless(h.(subs := h.subs[id := sub]))
  {
    assert UpToDate(h.subs[id], h.dispatched);
    assert Received(sub) == Received(h.subs[id]);
    ReplaceGapless(h, id, sub);
  }

  lemma PublishGapless(h: Hub, e: Event)
    requires Gapless(h)
    ensures Gapless(DoPublish(h, e))
  {
    assert h.dispatched + (h.broadcast + [e]) == h.accepted + [e];
  }

  lemma ApplyGapless(h: Hub, op: Op)
    requires Gapless(h)
    requires op.Register? ==> op.id !in h.subs && op.id !in h.gone
    ensures Gapless(Apply(h, op))
  {
    match op
    case Publish(e) => PublishGapless(h, e);
    case Register(id, filter, capacity, closed) => RegisterGapless(h, id, NewSub(h, filter, capacity, closed));
    case Unregister(id) => UnregisterGapless(h, id);
    case Dispatch => DispatchGapless(h);
    case Stop => StopGapless(h);
    case Consume(id) => ConsumeGapless(h, id);
    case CloseSelf(id) => if id in h.subs { AdjustGapless(h, id, Close(h.subs[id])); }
    case SetFilter(id, filter) => if id in h.subs { AdjustGapless(h, id, h.subs[id].(filter := filter)); }
  }

  ghost predicate Registered(ops: seq<Op>, id: string) {
    exists i :: 0 <= i < |ops| && ops[i].Register? && ops[i].id == id
  }

  lemma {:induction false} KnownWereRegistered(ops: seq<Op>, id: string)
    requires id in Run(ops).subs || id in Run(ops).gone
    ensures Registered(ops, id)
  {
    var front := ops[..|ops| - 1];
    var last := ops[|ops| - 1];
    if last.Register? && last.id == id {
    } else {
      KnownWereRegistered(front, id);
      var i :| 0 <= i < |front| && front[i].Register? && front[i].id == id;
      assert ops[i] == front[i];
    }
  }

  lemma LastIsFresh(ops: seq<Op>)
    requires FreshIDs(ops) && ops != [] && ops[|ops| - 1].Register?
    ensures var h, id := Run(ops[..|ops| - 1]), ops[|ops| - 1].id;
            id !in h.subs && id !in h.gone
  {
    var front, id := ops[..|ops| - 1], ops[|ops| - 1].id;
    assert !Registered(front, id) by {
      forall i | 0 <= i < |front| && front[i].Register? ensures front[i].id != id {
        assert front[i] == ops[i];
      }
    }
    if id in Run(front).subs || id in Run(front).gone {
      KnownWereRegistered(front, id);
    }
  }

  lemma {:induction false} RunGapless(ops: seq<Op>)
    requires FreshIDs(ops)
    ensures Gapless(Run(ops))
  {
    if ops != [] {
      RunGapless(ops[..|ops| - 1]);
      if ops[|ops| - 1].Register? {
        LastIsFresh(ops);
      }
      ApplyGapless(Run(ops[..|ops| - 1]), ops[|ops| - 1]);
    }
  }

  ghost predicate InOrder(h: Hub) {
    h.accepted == h.dispatched + h.broadcast && |h.broadcast| <= 256
  }

  lemma ApplyInOrder(h: Hub, op: Op)
    requires InOrder(h)
    ensures InOrder(Apply(h, op))
  {
    match op
    case Publish(e) => assert h.dispatched + (h.broadcast + [e]) == h.accepted + [e];
    case Dispatch =>
      if h.broadcast != [] {
        assert h.broadcast == [h.broadcast[0]] + h.broadcast[1..];
      }
    case _ =>
  }

  /** Over every run, whoever registers: what was accepted is what was dispatched followed by at most
      256 pending events, in order. */
  lemma {:induction false} AcceptedInOrder(ops: seq<Op>)
    ensures InOrder(Run(ops))
  {
    if ops != [] {
      AcceptedInOrder(ops[..|ops| - 1]);
      ApplyInOrder(Run(ops[..|ops| - 1]), ops[|ops| - 1]);
    }
  }

  /** Over every run, what a registered subscriber has received is its filter applied to all the
      events dispatched since its registration: nothing is missing, nothing is out of order. */
  lemma {:induction false} NoSilentGaps(ops: seq<Op>, id: string)
    requires FreshIDs(ops) && id in Run(ops).subs
    ensures UpToDate(Run(ops).subs[id], Run(ops).dispatched)
  {
    RunGapless(ops);
  }

  /** A subscriber that left, or was evicted because its queue was full, has received the same for
      an unbroken run of events; it is closed, so it cannot take the silence for completeness. */
  lemma {:induction false} NoGapsBeforeLeaving(ops: seq<Op>, id: string)
    requires FreshIDs(ops) && id in Run(ops).gone
    ensures LeftInOrder(Run(ops).gone[id], Run(ops).dispatched)
  {
    RunGapless(ops);
  }

  /** A subscriber that never changes its filter has received exactly the events of its run that
      the filter forwards: each of them is there, and nothing else. */
  lemma {:induction false} SelectWithOneFilter(events: seq<Event>, filters: seq<Filter>, f: Filter)
    requires |events| == |filters| && forall g :: g in filters ==> g == f
    ensures forall e :: multiset(Select(events, filters))[e] == if Forwards(f, e) then multiset(events)[e] else 0
  {
    if events != [] {
      var n := |events| - 1;
      assert filters[n] in filters;
      forall g | g in filters[..n] ensures g == f {
        assert g in filters;
      }
      SelectWithOneFilter(events[..n], filters[..n], f);
      assert events == events[..n] + [events[n]];
    }
  }

  /** Selecting keeps exactly the events let through, at their places. */
  lemma {:induction false} SelectHas(events: seq<Event>, filters: seq<Filter>, k: nat)
    requires |events| == |filters| && k < |events| && Forwards(filters[k], events[k])
    ensures events[k] in Select(events, filters)
  {
    var n := |events| - 1;
    if k < n {
      SelectHas(events[..n], filters[..n], k);
    }
  }

  lemma {:induction false} SelectOnly(events: seq<Event>, filters: seq<Filter>, e: Event)
    requires |events| == |filters| && e in Select(events, filters)
    ensures exists k :: 0 <= k < |events| && events[k] == e && Forwards(filters[k], e)
  {
    var n := |events| - 1;
    if e in Select(events[..n], filters[..n]) {
      SelectOnly(events[..n], filters[..n], e);
      var k :| 0 <= k < n && events[..n][k] == e && Forwards(filters[..n][k], e);
      assert events[k] == e && Forwards(filters[k], e);
    } else {
      assert events[n] == e && Forwards(filters[n], e);
    }
  }

  /** Which events a filter is for: those of no workspace, and those of a subscribed workspace (any, when
      none is named) that are not permissions out of focus. */
  predicate Concerns(f: Filter, e: Event) {
    e.workspaceID == "" ||
    ((f.workspaces == {} || e.workspaceID in f.workspaces)
     && (f.hasFocus && e.permission ==> e.workspaceID == f.focusedWorkspaceID))
  }

  lemma DeliveredInOrder(sub: Sub, dispatched: seq<Event>, e: Event)
    requires UpToDate(sub, dispatched)
    ensures e in Received(sub) <==>
              exists k :: 0 <= k < |sub.filters| && dispatched[sub.joined + k] == e && Concerns(sub.filters[k], e)
  {
    var run := dispatched[sub.joined..sub.joined + |sub.filters|];
    if e in Received(sub) {
      SelectOnly(run, sub.filters, e);
      var k :| 0 <= k < |run| && run[k] == e && Forwards(sub.filters[k], e);
      assert dispatched[sub.joined + k] == e && Concerns(sub.filters[k], e);
    }
    if k :| 0 <= k < |sub.filters| && dispatched[sub.joined + k] == e && Concerns(sub.filters[k], e) {
      assert run[k] == e;
      SelectHas(run, sub.filters, k);
    }
  }

  /** Over every run, a registered subscriber has received an event iff that event was dispatched since
      it registered, at a moment when its filter was for it. */
  lemma {:induction false} DeliversWhatConcerns(ops: seq<Op>, id: string, e: Event)
    requires FreshIDs(ops) && id in Run(ops).subs
    ensures var sub, dispatched := Run(ops).subs[id], Run(ops).dispatched;
            && UpToDate(sub, dispatched)
            && (e in Received(sub) <==>
                  exists k :: 0 <= k < |sub.filters| && dispatched[sub.joined + k] == e && Concerns(sub.filters[k], e))
  {
    NoSilentGaps(ops, id);
    DeliveredInOrder(Run(ops).subs[id], Run(ops).dispatched, e);
  }
}
