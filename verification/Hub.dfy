/** The hub and its subscribers as objects. */
module HubObjects {

  import opened M = HubModel

  /** A subscriber in front of a buffered channel; `consumed` is history. */
  class ChannelSubscriber {
    const id: string
    const capacity: nat
    var send: seq<Event>
    var closed: bool
    ghost var consumed: seq<Event>

    constructor (id: string, bufferSize: nat)
      ensures this.id == id && capacity == bufferSize && send == [] && !closed && consumed == []
    {
      this.id, this.capacity := id, bufferSize;
      send, closed, consumed := [], false, [];
    }

    /** A non-blocking send: it fails, and changes nothing, when closed or full. */
    method Send(event: Event) returns (ok: bool)
      modifies this`send
      ensures ok <==> !closed && |old(send)| < capacity
      ensures send == if ok then old(send) + [event] else old(send)
    {
      ok := !closed && |send| < capacity;
      if ok {
        send := send + [event];
      }
    }

    method Close()
      modifies this`closed
      ensures closed
    {
      if !closed {
        closed := true;
      }
    }

    method Receive()
      modifies this`send, this`consumed
      ensures old(send) == [] ==> send == [] && consumed == old(consumed)
      ensures old(send) != [] ==> send == old(send)[1..] && consumed == old(consumed) + [old(send)[0]]
    {
      if send != [] {
        consumed := consumed + [send[0]];
        send := send[1..];
      }
    }
  }

  /** A subscriber that forwards only what passes its workspace and focus filters.  The last two
      fields are history. */
  class FilteredSubscriber {
    const inner: ChannelSubscriber
    var workspaces: set<string>
    var focusedWorkspaceID: string
    var focusedSessionID: string
    var hasFocus: bool
    ghost var joined: nat
    ghost var filters: seq<Filter>

    constructor (inner: ChannelSubscriber)
      ensures this.inner == inner && joined == 0 && filters == []
      ensures TheFilter() == Filter({}, false, "")
    {
      this.inner := inner;
      workspaces, focusedWorkspaceID, focusedSessionID, hasFocus := {}, "", "", false;
      joined, filters := 0, [];
    }

    function TheFilter(): Filter
      reads this
    {
      Filter(workspaces, hasFocus, focusedWorkspaceID)
    }

    ghost function View(): Sub
      reads this, inner
    {
      Sub(TheFilter(), inner.capacity, inner.send, inner.closed, joined, inner.consumed, filters)
    }

    method ShouldForward(event: Event) returns (forward: bool)
      ensures forward == Forwards(TheFilter(), event)
    {
      if |workspaces| > 0 {
        if event.workspaceID != "" && event.workspaceID !in workspaces {
          return false;
        }
      }
      if hasFocus && event.permission {
        if event.workspaceID != "" && event.workspaceID != focusedWorkspaceID {
          return false;
        }
      }
      return true;
    }

    /** Skipping an event that the filter holds back counts as success. */
    method Send(event: Event) returns (ok: bool)
      modifies this`filters, inner`send
      ensures ok <==> Accepts(old(View()), event)
      ensures View() == if ok then M.Send(old(View()), event) else old(View())
    {
      var forward := ShouldForward(event);
      ok := true;
      if forward {
        ok := inner.Send(event);
      }
      if ok {
        filters := filters + [TheFilter()];
      }
    }

    method Close()
      modifies inner`closed
      ensures View() == M.Close(old(View()))
    {
      inner.Close();
    }

    method SubscribeWorkspace(workspaceID: string)
      modifies this`workspaces
      ensures View() == old(View()).(filter := old(TheFilter()).(workspaces := old(workspaces) + {workspaceID}))
    {
      workspaces := workspaces + {workspaceID};
    }

    method UnsubscribeWorkspace(workspaceID: string)
      modifies this`workspaces
      ensures View() == old(View()).(filter := old(TheFilter()).(workspaces := old(workspaces) - {workspaceID}))
    {
      workspaces := workspaces - {workspaceID};
    }

    method SubscribeAll()
      modifies this`workspaces
      ensures View() == old(View()).(filter := old(TheFilter()).(workspaces := {}))
    {
      workspaces := {};
    }

    method SetSessionFocus(workspaceID: string, sessionID: string)
      modifies this`focusedWorkspaceID, this`focusedSessionID, this`hasFocus
      ensures View() == old(View()).(filter := Filter(old(workspaces), true, workspaceID))
      ensures focusedSessionID == sessionID
    {
      focusedWorkspaceID, focusedSessionID, hasFocus := workspaceID, sessionID, true;
    }

    method ClearSessionFocus()
      modifies this`focusedWorkspaceID, this`focusedSessionID, this`hasFocus
      ensures View() == old(View()).(filter := Filter(old(workspaces), false, ""))
      ensures focusedSessionID == ""
    {
      focusedWorkspaceID, focusedSessionID, hasFocus := "", "", false;
    }

    /** Clears the focus only when it is on the given, non-empty workspace. */
    method ClearSessionFocusIfWorkspace(workspaceID: string) returns (cleared: bool)
      modifies this`focusedWorkspaceID, this`focusedSessionID, this`hasFocus
      ensures cleared <==> workspaceID != "" && old(hasFocus) && old(focusedWorkspaceID) == workspaceID
      ensures cleared ==> View() == old(View()).(filter := Filter(old(workspaces), false, "")) && focusedSessionID == ""
      ensures !cleared ==> unchanged(this)
    {
      if workspaceID == "" {
        return false;
      }
      if hasFocus && focusedWorkspaceID == workspaceID {
        ClearSessionFocus();
        return true;
      }
      return false;
    }
  }

  /** Each subscriber is kept under its own ID, so no two of them share anything. */
  ghost predicate Keyed(subs: map<string, FilteredSubscriber>) {
    forall i :: i in subs ==> subs[i].inner.id == i
  }

  ghost function Inners(subs: map<string, FilteredSubscriber>): set<ChannelSubscriber> {
    set i | i in subs :: subs[i].inner
  }

  ghost function Views(subs: map<string, FilteredSubscriber>): map<string, Sub>
    reads subs.Values, Inners(subs)
  {
    map i | i in subs :: subs[i].View()
  }

  lemma OneChanged(now: map<string, Sub>, was: map<string, Sub>, id: string)
    requires now.Keys == was.Keys && id in was
    requires forall i :: i in was && i != id ==> now[i] == was[i]
    ensures now == was[id := now[id]]
  {
  }

  /** One send touches one subscriber. */
  method SendOne(subs: map<string, FilteredSubscriber>, id: string, sub: FilteredSubscriber, event: Event) returns (ok: bool)
    requires Keyed(subs) && id in subs && subs[id] == sub
    modifies sub`filters, sub.inner`send
    ensures ok <==> Accepts(old(Views(subs))[id], event)
    ensures Views(subs) == old(Views(subs))[id := Sent(old(Views(subs))[id], event)]
  {
    ghost var was := Views(subs);
    ok := sub.Send(event);
    forall i | i in was && i != id ensures Views(subs)[i] == was[i] {
      assert subs[i].inner.id != sub.inner.id;
    }
    OneChanged(Views(subs), was, id);
  }

  method CloseOne(subs: map<string, FilteredSubscriber>, id: string, sub: FilteredSubscriber)
    requires Keyed(subs) && id in subs && subs[id] == sub
    modifies sub.inner`closed
    ensures Views(subs) == old(Views(subs))[id := M.Close(old(Views(subs))[id])]
  {
    ghost var was := Views(subs);
    sub.Close();
    forall i | i in was && i != id ensures Views(subs)[i] == was[i] {
      assert subs[i].inner.id != sub.inner.id;
    }
    OneChanged(Views(subs), was, id);
  }

  /** A subscriber after a send, successful or not. */
  function Sent(sub: Sub, e: Event): Sub {
    if Accepts(sub, e) then M.Send(sub, e) else sub
  }

  /** Some subscribers have been sent the event, the `left` ones not yet. */
  function SentTo(was: map<string, Sub>, e: Event, left: set<string>): map<string, Sub> {
    map i | i in was :: if i in left then was[i] else Sent(was[i], e)
  }

  function Failed(was: map<string, Sub>, e: Event, left: set<string>): set<string> {
    set i | i in was && i !in left && !Accepts(was[i], e)
  }

  function ClosedOf(was: map<string, Sub>, ids: set<string>): map<string, Sub> {
    map i | i in was :: if i in ids then M.Close(was[i]) else was[i]
  }

  lemma SentStep(was: map<string, Sub>, e: Event, left: set<string>, id: string)
    requires id in left && left <= was.Keys
    ensures SentTo(was, e, left)[id] == was[id]
    ensures SentTo(was, e, left)[id := Sent(was[id], e)] == SentTo(was, e, left - {id})
    ensures Accepts(was[id], e) ==> Failed(was, e, left - {id}) == Failed(was, e, left)
    ensures !Accepts(was[id], e) ==> Failed(was, e, left - {id}) == Failed(was, e, left) + {id}
  {
  }

  lemma ClosedStep(was: map<string, Sub>, ids: set<string>, left: set<string>, id: string)
    requires id in left && left <= ids && ids <= was.Keys
    ensures ClosedOf(was, ids - left)[id] == was[id]
    ensures ClosedOf(was, ids - left)[id := M.Close(was[id])] == ClosedOf(was, ids - (left - {id}))
  {
  }

  /** Sends to every subscriber, in any order, and tells which sends failed. */
  method SendAll(subs: map<string, FilteredSubscriber>, event: Event) returns (failed: set<string>)
    requires Keyed(subs)
    modifies subs.Values`filters, Inners(subs)`send
    ensures Views(subs) == SentTo(old(Views(subs)), event, {})
    ensures failed == Failed(old(Views(subs)), event, {})
  {
    failed := {};
    ghost var was := Views(subs);
    var left := subs.Keys;
    assert SentTo(was, event, left) == was;
    while left != {}
      invariant left <= subs.Keys
      invariant Views(subs) == SentTo(was, event, left)
      invariant failed == Failed(was, event, left)
      decreases |left|
    {
      var id :| id in left;
      SentStep(was, event, left, id);
      var ok := SendOne(subs, id, subs[id], event);
      if !ok {
        failed := failed + {id};
      }
      left := left - {id};
    }
  }

  /** Closes the subscribers in `ids`, in any order. */
  method CloseAll(subs: map<string, FilteredSubscriber>, ids: set<string>)
    requires Keyed(subs) && ids <= subs.Keys
    modifies Inners(subs)`closed
    ensures Views(subs) == ClosedOf(old(Views(subs)), ids)
  {
    ghost var was := Views(subs);
    var left := ids;
    assert ClosedOf(was, {}) == was;
    while left != {}
      invariant left <= ids
      invariant Views(subs) == ClosedOf(was, ids - left)
      decreases |left|
    {
      var id :| id in left;
      ClosedStep(was, ids, left, id);
      CloseOne(subs, id, subs[id]);
      left := left - {id};
    }
  }

  // ---- The hub --------------------------------------------------------------------------------

  function Of(views: map<string, Sub>, ids: set<string>): map<string, Sub> {
    map i | i in views && i in ids :: views[i]
  }

  lemma SharesNothing(subs: map<string, FilteredSubscriber>, gone: map<string, FilteredSubscriber>)
    requires Keyed(subs) && Keyed(gone) && subs.Keys !! gone.Keys
    ensures subs.Values !! gone.Values && Inners(subs) !! Inners(gone)
  {
    forall f | f in subs.Values ensures f !in gone.Values && f.inner !in Inners(gone) {
      assert f.inner.id in subs;
    }
  }

  /** Views change only when the subscribers do. */
  twostate lemma SameViews(subs: map<string, FilteredSubscriber>)
    requires forall i :: i in subs ==> unchanged(subs[i]) && unchanged(subs[i].inner)
    ensures Views(subs) == old(Views(subs))
  {
    forall i | i in subs ensures subs[i].View() == old(subs[i].View()) {
    }
  }

  lemma ViewsMinus(subs: map<string, FilteredSubscriber>, ids: set<string>)
    ensures Views(subs - ids) == Views(subs) - ids
  {
  }

  lemma ViewsJoin(gone: map<string, FilteredSubscriber>, subs: map<string, FilteredSubscriber>, ids: set<string>)
    requires ids <= subs.Keys
    ensures Views(gone + map i | i in ids :: subs[i]) == Views(gone) + Of(Views(subs), ids)
  {
  }

  /** Sending to the registered ones touches none that has left. */
  method SendApart(subs: map<string, FilteredSubscriber>, ghost gone: map<string, FilteredSubscriber>, event: Event)
    returns (failed: set<string>)
    requires Keyed(subs) && Keyed(gone) && subs.Keys !! gone.Keys
    modifies subs.Values`filters, Inners(subs)`send
    ensures Views(subs) == SentTo(old(Views(subs)), event, {}) && Views(gone) == old(Views(gone))
    ensures failed == Failed(old(Views(subs)), event, {})
  {
    SharesNothing(subs, gone);
    ghost var left := Views(gone);
    failed := SendAll(subs, event);
    assert Views(gone) == left;
  }

  method CloseApart(subs: map<string, FilteredSubscriber>, ghost gone: map<string, FilteredSubscriber>, ids: set<string>)
    requires Keyed(subs) && Keyed(gone) && subs.Keys !! gone.Keys && ids <= subs.Keys
    modifies Inners(subs)`closed
    ensures Views(subs) == ClosedOf(old(Views(subs)), ids) && Views(gone) == old(Views(gone))
  {
    SharesNothing(subs, gone);
    ghost var left := Views(gone);
    CloseAll(subs, ids);
    assert Views(gone) == left;
  }

  /** History only: from where on the new subscriber takes part. */
  ghost method MarkJoined(subs: map<string, FilteredSubscriber>, gone: map<string, FilteredSubscriber>,
                          sub: FilteredSubscriber, n: nat)
    requires Keyed(subs) && Keyed(gone) && sub.inner.id !in gone
    modifies sub`joined
    ensures sub.View() == old(sub.View()).(joined := n)
    ensures Views(gone) == old(Views(gone))
    ensures forall i :: i in subs && i != sub.inner.id ==> subs[i].View() == old(subs[i].View())
  {
    sub.joined := n;
    forall i | i in gone ensures gone[i].View() == old(gone[i].View()) {
      assert gone[i].inner.id != sub.inner.id;
    }
  }

  lemma LeavingKeyed(subs: map<string, FilteredSubscriber>, gone: map<string, FilteredSubscriber>, ids: set<string>)
    requires Keyed(subs) && Keyed(gone) && subs.Keys !! gone.Keys && ids <= subs.Keys
    ensures var all := gone + map i | i in ids :: subs[i];
            Keyed(subs - ids) && Keyed(all) && (subs - ids).Keys !! all.Keys
  {
  }

  lemma AddedViews(more: map<string, FilteredSubscriber>, was: map<string, Sub>, id: string)
    requires id in more && more.Keys == was.Keys + {id}
    requires forall i :: i in was && i != id ==> more[i].View() == was[i]
    ensures Views(more) == was[id := more[id].View()]
  {
  }

  /** Those whose send failed are closed and go; the others have been sent the event. */
  lemma DispatchedViews(was: map<string, Sub>, e: Event)
    ensures var failed, after := Failed(was, e, {}), ClosedOf(SentTo(was, e, {}), Failed(was, e, {}));
            after - failed == Delivered(was, e) && Of(after, failed) == Evicted(was, e)
  {
  }

  lemma LeftViews(was: map<string, Sub>, gone: map<string, Sub>, id: string)
    requires id in was
    ensures ClosedOf(was, {id}) - {id} == was - {id}
    ensures gone + Of(ClosedOf(was, {id}), {id}) == gone[id := M.Close(was[id])]
  {
  }

  lemma StoppedViews(was: map<string, Sub>)
    ensures Of(ClosedOf(was, was.Keys), was.Keys) == AllClosed(was)
    ensures ClosedOf(was, was.Keys) - was.Keys == map[]
  {
  }

  /** The hub over its subscriber objects.  `gone`, `accepted` and `dispatched` are history: the objects
      that were registered once, and the events that were let in and sent out. */
  class EventHub {
    var running: bool
    var subscribers: map<string, FilteredSubscriber>
    var broadcast: seq<Event>
    ghost var gone: map<string, FilteredSubscriber>
    ghost var accepted: seq<Event>
    ghost var dispatched: seq<Event>

    ghost function Model(): Hub
      reads this, subscribers.Values, Inners(subscribers), gone.Values, Inners(gone)
    {
      Hub(Views(subscribers), Views(gone), broadcast, accepted, dispatched)
    }

    ghost predicate Valid()
      reads this
    {
      && Keyed(subscribers) && Keyed(gone) && subscribers.Keys !! gone.Keys
      && (!running ==> subscribers == map[])
    }

    constructor ()
      ensures Valid() && Model() == STARTED && !running
    {
      running := false;
      subscribers, broadcast := map[], [];
      gone, accepted, dispatched := map[], [], [];
    }

    method Start()
      requires Valid()
      modifies this`running
      ensures Valid() && running && Model() == old(Model())
    {
      running := true;
      SameViews(subscribers);
      SameViews(gone);
    }

    method Publish(event: Event)
      requires Valid()
      modifies this`broadcast, this`accepted
      ensures Valid() && Model() == DoPublish(old(Model()), event)
    {
      if |broadcast| < BROADCAST_CAPACITY {
        broadcast := broadcast + [event];
        accepted := accepted + [event];
        SameViews(subscribers);
        SameViews(gone);
      }
    }

    /** The run loop takes a new subscriber from the register channel. */
    method Register(sub: FilteredSubscriber)
      requires Valid() && running && sub.inner.id !in gone
      requires sub.inner.send == [] && sub.inner.consumed == [] && sub.filters == []
      modifies this`subscribers, this`gone, sub`joined
      ensures Valid() && subscribers == old(subscribers)[sub.inner.id := sub] && gone == old(gone)
      ensures Model() == DoRegister(old(Model()), sub.inner.id,
                                    NewSub(old(Model()), sub.TheFilter(), sub.inner.capacity, sub.inner.closed))
    {
      ghost var h := Model();
      var id := sub.inner.id;
      MarkJoined(subscribers, gone, sub, |dispatched|);
      var more := subscribers[id := sub];
      AddedViews(more, h.subs, id);
      Assign(more, gone);
      assert Model() == Hub(h.subs[id := sub.View()], h.gone, h.broadcast, h.accepted, h.dispatched);
    }

    method Unregister(id: string)
      requires Valid()
      modifies this`subscribers, this`gone, Inners(subscribers)`closed
      ensures Valid() && Model() == DoUnregister(old(Model()), id)
    {
      if id in subscribers {
        ghost var h := Model();
        LeftViews(h.subs, h.gone, id);
        CloseAndLeave({id});
        assert Views(subscribers) == h.subs - {id};
        assert Views(gone) == h.gone[id := M.Close(h.subs[id])];
        assert Model() == Hub(h.subs - {id}, h.gone[id := M.Close(h.subs[id])], h.broadcast, h.accepted, h.dispatched);
      }
    }

    /** The run loop takes one event: it sends to every subscriber, in any order, and then closes and
        removes those that failed. */
    method Dispatch()
      requires Valid()
      modifies this, subscribers.Values`filters, Inners(subscribers)`send, Inners(subscribers)`closed
      ensures Valid() && Model() == DoDispatch(old(Model()))
    {
      if broadcast == [] {
        return;
      }
      var event := TakeEvent();
      Deliver(event);
    }

    method TakeEvent() returns (event: Event)
      requires Valid() && broadcast != []
      modifies this`broadcast, this`dispatched
      ensures Valid() && event == old(broadcast)[0]
      ensures Model() == old(Model()).(broadcast := old(broadcast)[1..], dispatched := old(dispatched) + [event])
    {
      event := broadcast[0];
      broadcast := broadcast[1..];
      dispatched := dispatched + [event];
      SameViews(subscribers);
      SameViews(gone);
    }

    method Deliver(event: Event)
      requires Valid()
      modifies this`subscribers, this`gone, subscribers.Values`filters, Inners(subscribers)`send, Inners(subscribers)`closed
      ensures Valid()
      ensures Views(subscribers) == Delivered(old(Views(subscribers)), event)
      ensures Views(gone) == old(Views(gone)) + Evicted(old(Views(subscribers)), event)
    {
      DispatchedViews(Views(subscribers), event);
      var failed := SendApart(subscribers, gone, event);
      CloseAndLeave(failed);
    }

    /** The subscribers in `ids` are closed and no longer registered. */
    method CloseAndLeave(ids: set<string>)
      requires Valid() && ids <= subscribers.Keys
      modifies this`subscribers, this`gone, Inners(subscribers)`closed
      ensures Valid() && subscribers == old(subscribers) - ids
      ensures Views(subscribers) == ClosedOf(old(Views(subscribers)), ids) - ids
      ensures Views(gone) == old(Views(gone)) + Of(ClosedOf(old(Views(subscribers)), ids), ids)
    {
      CloseApart(subscribers, gone, ids);
      Leave(ids);
    }

    method Leave(ids: set<string>)
      requires Valid() && ids <= subscribers.Keys
      modifies this`subscribers, this`gone
      ensures Valid() && subscribers == old(subscribers) - ids
      ensures Views(subscribers) == old(Views(subscribers)) - ids
      ensures Views(gone) == old(Views(gone)) + Of(old(Views(subscribers)), ids)
    {
      ghost var all := gone + map i | i in ids :: subscribers[i];
      var rest := subscribers - ids;
      LeavingKeyed(subscribers, gone, ids);
      ViewsMinus(subscribers, ids);
      ViewsJoin(gone, subscribers, ids);
      Assign(rest, all);
    }

    method Assign(rest: map<string, FilteredSubscriber>, ghost all: map<string, FilteredSubscriber>)
      modifies this`subscribers, this`gone
      ensures subscribers == rest && gone == all
      ensures Views(rest) == old(Views(rest)) && Views(all) == old(Views(all))
    {
      subscribers := rest;
      gone := all;
      SameViews(rest);
      SameViews(all);
    }

    /** Every subscriber is dropped from the map and closed; stopping a stopped hub does nothing. */
    method Stop()
      requires Valid()
      modifies this`running, this`subscribers, this`gone, Inners(subscribers)`closed
      ensures Valid() && !running && Model() == DoStop(old(Model()))
      ensures !old(running) ==> Model() == old(Model())
    {
      if !running {
        assert DoStop(Model()) == Model();
        return;
      }
      ghost var h := Model();
      StoppedViews(h.subs);
      var ids := subscribers.Keys;
      assert ids == h.subs.Keys;
      CloseAndLeave(ids);
      assert Views(subscribers) == map[];
      assert Views(gone) == h.gone + AllClosed(h.subs);
      assert Model() == Hub(map[], h.gone + AllClosed(h.subs), h.broadcast, h.accepted, h.dispatched);
      SetStopped();
    }

    method SetStopped()
      requires Valid() && subscribers == map[]
      modifies this`running
      ensures Valid() && !running && Model() == old(Model())
    {
      running := false;
      SameViews(subscribers);
      SameViews(gone);
    }
  }
}
