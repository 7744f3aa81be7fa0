/** What happens to a published event, told by the operations alone: how many events are pending at each
    moment, which publishes are accepted, who is sent what, who is evicted. */
module HubLaws {

  import opened HubModel
  import opened Selections

  // ---- Counting, from the operations alone ----------------------------------------------------

  /** How many accepted events wait for dispatch after `ops`: at most 256, one more with each publish below
      that, one less with each dispatch. */
  function Pending(ops: seq<Op>): nat {
    if ops == [] then 0
    else
      var before := Pending(ops[..|ops| - 1]);
      match ops[|ops| - 1]
      case Publish(_) => if before < 256 then before + 1 else before
      case Dispatch => if before > 0 then before - 1 else 0
      case _ => before
  }

  /** How many events were dispatched. */
  function Taken(ops: seq<Op>): nat {
    if ops == [] then 0
    else
      var front := ops[..|ops| - 1];
      Taken(front) + if ops[|ops| - 1].Dispatch? && Pending(front) > 0 then 1 else 0
  }

  /** A publish that finds fewer than 256 events pending. */
  predicate Accepted(ops: seq<Op>, i: int) {
    0 <= i < |ops| && ops[i].Publish? && Pending(ops[..i]) < 256
  }

  /** A dispatch that finds an event. */
  predicate Effective(ops: seq<Op>, d: int) {
    0 <= d < |ops| && ops[d].Dispatch? && Pending(ops[..d]) > 0
  }

  lemma CountsOne(h: Hub, op: Op)
    ensures var t := Apply(h, op);
            && |t.broadcast| == (if op.Publish? && |h.broadcast| < 256 then |h.broadcast| + 1
                                 else if op.Dispatch? && |h.broadcast| > 0 then |h.broadcast| - 1
                                 else |h.broadcast|)
            && |t.dispatched| == |h.dispatched| + if op.Dispatch? && |h.broadcast| > 0 then 1 else 0
  {
  }

  lemma {:induction false} CountsMean(ops: seq<Op>)
    ensures |Run(ops).broadcast| == Pending(ops) && |Run(ops).dispatched| == Taken(ops)
  {
    if ops != [] {
      CountsMean(ops[..|ops| - 1]);
      CountsOne(Run(ops[..|ops| - 1]), ops[|ops| - 1]);
    }
  }

  predicate EventsAt(ops: seq<Op>, js: seq<int>, events: seq<Event>) {
    && |js| == |events|
    && forall k :: 0 <= k < |js| ==> 0 <= js[k] < |ops| && ops[js[k]].Publish? && events[k] == ops[js[k]].event
  }

  ghost predicate AreAccepted(ops: seq<Op>, js: seq<int>) {
    Increasing(js) && forall i :: i in js <==> Accepted(ops, i)
  }

  lemma AcceptedLonger(ops: seq<Op>, i: int)
    requires ops != []
    ensures Accepted(ops, i) <==> Accepted(ops[..|ops| - 1], i) || (i == |ops| - 1 && Accepted(ops, i))
  {
    if 0 <= i < |ops| - 1 {
      assert ops[..|ops| - 1][..i] == ops[..i];
    }
  }

  lemma AcceptedOne(h: Hub, op: Op)
    ensures Apply(h, op).accepted == h.accepted + if op.Publish? && |h.broadcast| < 256 then [op.event] else []
  {
    match op
    case Publish(e) => assert h.accepted + [] == h.accepted;
    case _ => assert h.accepted + [] == h.accepted;
  }

  lemma AcceptedStep(ops: seq<Op>)
    requires ops != []
    ensures var last := |ops| - 1;
            Run(ops).accepted == Run(ops[..last]).accepted + if Accepted(ops, last) then [ops[last].event] else []
  {
    CountsMean(ops[..|ops| - 1]);
    AcceptedOne(Run(ops[..|ops| - 1]), ops[|ops| - 1]);
  }

  /** What is accepted, over every run: the events of exactly those publishes that found fewer than 256
      pending, each once, in the order they were published. */
  lemma {:induction false} AcceptedAreEvents(ops: seq<Op>) returns (js: seq<int>)
    ensures AreAccepted(ops, js) && EventsAt(ops, js, Run(ops).accepted)
  {
    js := [];
    if ops != [] {
      var last := |ops| - 1;
      js := AcceptedAreEvents(ops[..last]);
      AcceptedStep(ops);
      forall i ensures Accepted(ops, i) <==> Accepted(ops[..last], i) || (i == last && Accepted(ops, i)) {
        AcceptedLonger(ops, i);
      }
      if Accepted(ops, last) {
        js := js + [last];
      }
    }
  }

  function Events(ops: seq<Op>): seq<Event> {
    if ops == [] then []
    else Events(ops[..|ops| - 1]) + if ops[|ops| - 1].Publish? then [ops[|ops| - 1].event] else []
  }

  /** When no publish finds 256 events pending, everything published is accepted. */
  lemma {:induction false} NothingLost(ops: seq<Op>)
    requires forall i :: 0 <= i < |ops| && ops[i].Publish? ==> Accepted(ops, i)
    ensures Run(ops).accepted == Events(ops)
  {
    if ops != [] {
      var last := |ops| - 1;
      forall i | 0 <= i < last && ops[..last][i].Publish? ensures Accepted(ops[..last], i) {
        assert Accepted(ops, i);
        AcceptedLonger(ops, i);
      }
      NothingLost(ops[..last]);
      AcceptedStep(ops);
    }
  }

  // ---- From a publish to its dispatch ---------------------------------------------------------

  lemma AcceptedGrows(h: Hub, op: Op)
    requires InOrder(h)
    ensures h.accepted <= Apply(h, op).accepted
    ensures h.dispatched <= Apply(h, op).dispatched <= Apply(h, op).accepted
  {
    ApplyInOrder(h, op);
  }

  lemma {:induction false} Later(ops: seq<Op>, m: nat)
    requires m <= |ops|
    ensures Run(ops[..m]).accepted <= Run(ops).accepted
    ensures Run(ops[..m]).dispatched <= Run(ops).dispatched <= Run(ops).accepted
    ensures Taken(ops[..m]) <= Taken(ops)
    decreases |ops|
  {
    AcceptedInOrder(ops);
    CountsMean(ops);
    CountsMean(ops[..m]);
    if m < |ops| {
      var front := ops[..|ops| - 1];
      Later(front, m);
      assert front[..m] == ops[..m];
      AcceptedInOrder(front);
      AcceptedGrows(Run(front), ops[|ops| - 1]);
    } else {
      assert ops[..m] == ops;
    }
  }

  lemma OneMore(ops: seq<Op>, m: nat)
    requires m < |ops|
    ensures Run(ops[..m + 1]) == Apply(Run(ops[..m]), ops[m])
    ensures Pending(ops[..m + 1]) <= 256 || Pending(ops[..m + 1]) <= Pending(ops[..m])
  {
    assert ops[..m + 1][..m] == ops[..m];
  }

  /** An accepted event takes its place behind what is pending, and keeps it. */
  lemma PublishedAt(ops: seq<Op>, m: nat)
    requires Accepted(ops, m)
    ensures var n := Taken(ops[..m]) + Pending(ops[..m]);
            n < |Run(ops).accepted| && Run(ops).accepted[n] == ops[m].event
  {
    OneMore(ops, m);
    CountsMean(ops[..m]);
    AcceptedInOrder(ops[..m]);
    Later(ops, m + 1);
    assert Run(ops[..m + 1]).accepted == Run(ops[..m]).accepted + [ops[m].event];
  }

  /** The dispatch that takes an accepted event is the one before which as many events were taken as were
      taken or pending when it was published. */
  predicate Takes(ops: seq<Op>, d: nat, m: nat)
    requires m < |ops|
  {
    Effective(ops, d) && Taken(ops[..d]) == Taken(ops[..m]) + Pending(ops[..m])
  }

  lemma TakenAt(ops: seq<Op>, m: nat, d: nat)
    requires Accepted(ops, m) && Takes(ops, d, m)
    ensures var n := Taken(ops[..d]); n < |Run(ops).dispatched| && Run(ops).dispatched[n] == ops[m].event
  {
    PublishedAt(ops, m);
    CountsMean(ops[..d]);
    OneMore(ops, d);
    Later(ops, d + 1);
    assert |Run(ops[..d + 1]).dispatched| == Taken(ops[..d]) + 1;
  }

  /** Every accepted event is dispatched by the first dispatch that comes when everything before it is
      out: as soon as that many events were taken, there was such a dispatch. */
  lemma {:induction false} IsTaken(ops: seq<Op>, n: nat) returns (d: nat)
    requires n < Taken(ops)
    ensures Effective(ops, d) && Taken(ops[..d]) == n
  {
    var last := |ops| - 1;
    if n < Taken(ops[..last]) {
      d := IsTaken(ops[..last], n);
      assert ops[..last][..d] == ops[..d];
    } else {
      d := last;
    }
  }

  // ---- From a dispatch to the subscribers ------------------------------------------------------

  /** The filter of a subscriber after `ops`: the one it was registered or set with last. */
  function FilterAt(ops: seq<Op>, id: string): Filter {
    if ops == [] then Filter({}, false, "")
    else
      match ops[|ops| - 1]
      case Register(i, filter, _, _) => if i == id then filter else FilterAt(ops[..|ops| - 1], id)
      case SetFilter(i, filter) => if i == id then filter else FilterAt(ops[..|ops| - 1], id)
      case _ => FilterAt(ops[..|ops| - 1], id)
  }

  /** What a subscriber remembers is what the operations say: when it joined, and the filter it had at each
      dispatch since. */
  ghost predicate Remembers(ops: seq<Op>, i: nat, id: string, sub: Sub)
    requires i < |ops|
  {
    && sub.joined == Taken(ops[..i])
    && sub.filter == FilterAt(ops, id)
    && sub.joined + |sub.filters| == Taken(ops)
    && forall d :: i < d < |ops| && Effective(ops, d) ==> RemembersAt(ops, id, sub, d)
  }

  ghost predicate RemembersAt(ops: seq<Op>, id: string, sub: Sub, d: nat)
    requires d < |ops|
  {
    var k := Taken(ops[..d]) - sub.joined;
    0 <= k < |sub.filters| && sub.filters[k] == FilterAt(ops[..d], id)
  }

  predicate Registers(ops: seq<Op>, i: int, id: string) {
    0 <= i < |ops| && ops[i].Register? && ops[i].id == id
  }

  /** The subscriber after one more operation, if it is still there. */
  lemma SubAfter(h: Hub, op: Op, id: string)
    requires id in Apply(h, op).subs && !(op.Register? && op.id == id)
    ensures id in h.subs
    ensures var s, t := h.subs[id], Apply(h, op).subs[id];
            && t.joined == s.joined
            && t.filter == (if op.SetFilter? && op.id == id then op.filter else s.filter)
            && t.filters == if op.Dispatch? && h.broadcast != [] then s.filters + [s.filter] else s.filters
  {
  }

  lemma StillRemembers(ops: seq<Op>, i: nat, id: string, s: Sub, t: Sub)
    requires i < |ops| - 1 && Remembers(ops[..|ops| - 1], i, id, s)
    requires t.joined == s.joined && t.filter == FilterAt(ops, id)
    requires t.filters == if Effective(ops, |ops| - 1) then s.filters + [s.filter] else s.filters
    ensures Remembers(ops, i, id, t)
  {
    var front := ops[..|ops| - 1];
    assert front[..i] == ops[..i];
    forall d | i < d < |ops| && Effective(ops, d) ensures RemembersAt(ops, id, t, d) {
      if d < |front| {
        assert front[..d] == ops[..d];
        assert Effective(front, d) && RemembersAt(front, id, s, d);
      }
    }
  }

  lemma FreshFront(ops: seq<Op>, i: nat, id: string)
    requires FreshIDs(ops) && Registers(ops, i, id) && i < |ops| - 1
    ensures var last := |ops| - 1;
            FreshIDs(ops[..last]) && Registers(ops[..last], i, id) && !(ops[last].Register? && ops[last].id == id)
  {
  }

  /** The registration itself. */
  lemma RemembersFirst(ops: seq<Op>, id: string)
    requires Registers(ops, |ops| - 1, id)
    ensures id in Run(ops).subs && Remembers(ops, |ops| - 1, id, Run(ops).subs[id])
  {
    CountsMean(ops[..|ops| - 1]);
  }

  /** The subscriber after the last operation. */
  lemma SubAfterLast(ops: seq<Op>, id: string)
    requires ops != [] && id in Run(ops).subs && !(ops[|ops| - 1].Register? && ops[|ops| - 1].id == id)
    ensures id in Run(ops[..|ops| - 1]).subs
    ensures var last := |ops| - 1;
            var s, t := Run(ops[..last]).subs[id], Run(ops).subs[id];
            && t.joined == s.joined
            && t.filter == (if ops[last].SetFilter? && ops[last].id == id then ops[last].filter else s.filter)
            && t.filters == if Effective(ops, last) then s.filters + [s.filter] else s.filters
  {
    CountsMean(ops[..|ops| - 1]);
    SubAfter(Run(ops[..|ops| - 1]), ops[|ops| - 1], id);
  }

  lemma {:induction false} FiltersMean(ops: seq<Op>, i: nat, id: string)
    requires FreshIDs(ops) && Registers(ops, i, id) && id in Run(ops).subs
    ensures Remembers(ops, i, id, Run(ops).subs[id])
    decreases |ops|
  {
    var last := |ops| - 1;
    if i < last {
      FreshFront(ops, i, id);
      SubAfterLast(ops, id);
      FiltersMean(ops[..last], i, id);
      StillRemembers(ops, i, id, Run(ops[..last]).subs[id], Run(ops).subs[id]);
    } else {
      RemembersFirst(ops, id);
    }
  }

  /** From a publish to a subscriber: over every run, an event published when fewer than 256 were pending,
      after a subscriber registered, has been received by that subscriber, if it is still registered, as
      soon as it was dispatched, provided the filter the subscriber had at that dispatch was for it. */
  lemma {:induction false} PublishedIsReceived(ops: seq<Op>, i: nat, m: nat, d: nat, id: string)
    requires FreshIDs(ops) && Registers(ops, i, id) && id in Run(ops).subs
    requires i < m < |ops| && Accepted(ops, m) && Takes(ops, d, m)
    requires Concerns(FilterAt(ops[..d], id), ops[m].event)
    ensures ops[m].event in Received(Run(ops).subs[id])
  {
    var sub := Run(ops).subs[id];
    FiltersMean(ops, i, id);
    TakenAt(ops, m, d);
    TakenInOrder(ops, i, m, d);
    assert RemembersAt(ops, id, sub, d);
    NoSilentGaps(ops, id);
    DeliveredInOrder(sub, Run(ops).dispatched, ops[m].event);
    var k := Taken(ops[..d]) - sub.joined;
    assert Run(ops).dispatched[sub.joined + k] == ops[m].event;
  }

  lemma {:induction false} TakenGrows(ops: seq<Op>, d: nat, m: nat)
    requires d < m <= |ops| && Effective(ops, d)
    ensures Taken(ops[..d]) < Taken(ops[..m])
    decreases m
  {
    assert ops[..m][..m - 1] == ops[..m - 1];
    if d < m - 1 {
      TakenGrows(ops, d, m - 1);
    }
  }

  lemma TakenInOrder(ops: seq<Op>, i: nat, m: nat, d: nat)
    requires i < m < |ops| && Takes(ops, d, m)
    ensures i < d
  {
    if d < m {
      TakenGrows(ops, d, m);
    }
  }

  // ---- One operation at a time ------------------------------------------------------------------

  /** One dispatch: the first pending event goes to everyone it concerns who is open and has room, and
      those it concerns who are closed or full are closed and gone; to all others nothing happens. */
  lemma DispatchMeans(h: Hub, id: string)
    requires h.subs.Keys !! h.gone.Keys
    ensures var t := DoDispatch(h);
            if h.broadcast == [] then t == h
            else
              var e := h.broadcast[0];
              && h.broadcast == [e] + t.broadcast && t.dispatched == h.dispatched + [e] && t.accepted == h.accepted
              && (id in h.subs && Concerns(h.subs[id].filter, e)
                  && (h.subs[id].closed || |h.subs[id].buffer| >= h.subs[id].capacity)
                  ==> id !in t.subs && id in t.gone && t.gone[id] == h.subs[id].(closed := true))
              && (id in h.subs && Concerns(h.subs[id].filter, e)
                  && !h.subs[id].closed && |h.subs[id].buffer| < h.subs[id].capacity
                  ==> id in t.subs && id !in t.gone
                      && t.subs[id] == h.subs[id].(buffer := h.subs[id].buffer + [e], filters := t.subs[id].filters))
              && (id in h.subs && !Concerns(h.subs[id].filter, e)
                  ==> id in t.subs && id !in t.gone && t.subs[id] == h.subs[id].(filters := t.subs[id].filters))
              && (id !in h.subs ==> id !in t.subs && (id in t.gone <==> id in h.gone)
                                    && (id in h.gone ==> t.gone[id] == h.gone[id]))
  {
    if h.broadcast != [] && id in h.subs {
      assert Accepts(h.subs[id], h.broadcast[0])
          <==> (Concerns(h.subs[id].filter, h.broadcast[0])
                ==> !h.subs[id].closed && |h.subs[id].buffer| < h.subs[id].capacity);
    }
  }

  /** Whoever unregisters, and everybody when the hub stops, is gone, closed, with what it received. */
  lemma LeaveMeans(h: Hub, id: string, other: string)
    ensures var t := DoUnregister(h, id);
            && id !in t.subs && (id in h.subs ==> id in t.gone && t.gone[id] == h.subs[id].(closed := true))
            && (other != id ==> (other in t.subs <==> other in h.subs)
                                && (other in h.subs ==> t.subs[other] == h.subs[other]))
            && t.broadcast == h.broadcast && t.dispatched == h.dispatched && t.accepted == h.accepted
    ensures var t := DoStop(h);
            && id !in t.subs && (id in h.subs ==> id in t.gone && t.gone[id] == h.subs[id].(closed := true))
            && t.broadcast == h.broadcast && t.dispatched == h.dispatched && t.accepted == h.accepted
  {
  }

  /** A new subscriber starts with an empty queue and touches nobody else. */
  lemma JoinMeans(h: Hub, id: string, filter: Filter, capacity: nat, closed: bool, other: string)
    ensures var t := Apply(h, Register(id, filter, capacity, closed));
            && id in t.subs && t.subs[id].filter == filter && t.subs[id].capacity == capacity
            && t.subs[id].closed == closed && Received(t.subs[id]) == []
            && (other != id ==> (other in t.subs <==> other in h.subs)
                                && (other in h.subs ==> t.subs[other] == h.subs[other]))
            && t.broadcast == h.broadcast && t.dispatched == h.dispatched && t.gone == h.gone
  {
  }

  /** Consuming moves the oldest event out of the queue and keeps what was received. */
  lemma ConsumeMeans(h: Hub, id: string)
    requires id in h.subs
    ensures var s, t := h.subs[id], DoConsume(h, id);
            && t.subs.Keys == h.subs.Keys && (forall other :: other in h.subs && other != id ==> t.subs[other] == h.subs[other])
            && |t.subs[id].buffer| == (if |s.buffer| == 0 then 0 else |s.buffer| - 1)
            && Received(t.subs[id]) == Received(s) && t.subs[id].closed == s.closed
  {
    var s := h.subs[id];
    if s.buffer != [] {
      assert s.consumed + [s.buffer[0]] + s.buffer[1..] == Received(s);
    }
  }

  /** A subscriber that closes itself stays registered, with what it received, until a dispatch finds it so. */
  lemma CloseMeans(h: Hub, id: string)
    requires id in h.subs
    ensures var t := Apply(h, CloseSelf(id));
            && id in t.subs && t.subs[id] == h.subs[id].(closed := true) && t.subs.Keys == h.subs.Keys
            && (forall other :: other in h.subs && other != id ==> t.subs[other] == h.subs[other])
            && t == h.(subs := t.subs)
  {
    assert h.subs[id := Close(h.subs[id])].Keys == h.subs.Keys;
  }
}
