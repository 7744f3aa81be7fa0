/** The hand-off of a pending permission request to whoever answers it.

    Requests are numbered in the order they are added; each brings a fresh response channel of
    capacity one.  A responder takes the request out of the pending map under the lock, then stores
    the decision, then sends: three steps between which anything else may happen.  Getting and
    removing a request is the first step alone: the RPC responder goes on with the other two, and a
    waiter whose time is up throws its own request away. */
module Pending {

  datatype Answer = Answer(allow: bool, forSession: bool, pattern: string)

  /** One caller that took something out of the pending map, or found nothing. */
  datatype Caller =
    | NotFound
    | Holding(request: nat, answer: Answer) // removed, decision not yet stored
    | Ready(request: nat, answer: Answer)   // stored, about to send
    | Answered(request: nat, sent: bool)
    | Discarded(request: nat)               // a waiter whose time is up

  /** `channels` holds what each response channel contains; `stored` the decisions remembered;
      `taken`, `sends` and `received` count, per request, the callers that took it, the successful
      sends, and the responses its waiter got. */
  datatype State = State(pending: map<string, nat>, added: nat, channels: map<nat, seq<Answer>>,
                         callers: seq<Caller>, stored: seq<Answer>,
                         taken: multiset<nat>, sends: multiset<nat>, received: multiset<nat>)

  datatype Op =
    | Add(id: string)
    | Take(id: string, answer: Answer)
    | Remember(caller: nat)
    | Send(caller: nat)
    | GiveUp(id: string)
    | Drain(id: string)
    | Receive(request: nat)

  function DoAdd(s: State, id: string): State {
    s.(pending := s.pending[id := s.added], added := s.added + 1, channels := s.channels[s.added := []])
  }

  function DoTake(s: State, id: string, caller: nat -> Caller): State {
    if id in s.pending then
      s.(pending := s.pending - {id}, callers := s.callers + [caller(s.pending[id])],
         taken := s.taken + multiset{s.pending[id]})
    else s.(callers := s.callers + [NotFound])
  }

  function DoRemember(s: State, k: nat): State
    requires k < |s.callers|
  {
    match s.callers[k]
    case Holding(request, answer) =>
      s.(callers := s.callers[k := Ready(request, answer)],
         stored := if answer.forSession && answer.pattern != "" then s.stored + [answer] else s.stored)
    case _ => s
  }

  function Channel(s: State, request: nat): seq<Answer> {
    if request in s.channels then s.channels[request] else []
  }

  /** The non-blocking send into a channel of capacity one. */
  function DoSend(s: State, k: nat): State
    requires k < |s.callers|
  {
    match s.callers[k]
    case Ready(request, answer) =>
      if Channel(s, request) == [] then
        s.(callers := s.callers[k := Answered(request, true)], channels := s.channels[request := [answer]],
           sends := s.sends + multiset{request})
      else s.(callers := s.callers[k := Answered(request, false)])
    case _ => s
  }

  /** RemovePendingRequest: drop whatever the channel holds, then forget the request. */
  function DoDrain(s: State, id: string): State {
    if id in s.pending then
      s.(pending := s.pending - {id}, channels := s.channels[s.pending[id] := []],
         taken := s.taken + multiset{s.pending[id]})
    else s
  }

  function DoReceive(s: State, request: nat): State {
    if Channel(s, request) == [] then s
    else s.(channels := s.channels[request := []], received := s.received + multiset{request})
  }

  function Apply(s: State, op: Op): State {
    match op
    case Add(id) => DoAdd(s, id)
    case Take(id, answer) => DoTake(s, id, (n: nat) => Holding(n, answer))
    case Remember(k) => if k < |s.callers| then DoRemember(s, k) else s
    case Send(k) => if k < |s.callers| then DoSend(s, k) else s
    case GiveUp(id) => DoTake(s, id, (n: nat) => Discarded(n))
    case Drain(id) => DoDrain(s, id)
    case Receive(request) => DoReceive(s, request)
  }

  const EMPTY: State := State(map[], 0, map[], [], [], multiset{}, multiset{}, multiset{})

  function Run(ops: seq<Op>): State {
    if ops == [] then EMPTY else Apply(Run(ops[..|ops| - 1]), ops[|ops| - 1])
  }

  // ---- At most once -----------------------------------------------------------------------

  predicate Holds(c: Caller, request: nat) {
    (c.Holding? || c.Ready?) && c.request == request
  }

  ghost predicate HeldBy(s: State, request: nat) {
    exists k :: 0 <= k < |s.callers| && Holds(s.callers[k], request)
  }

  ghost predicate Waiting(s: State, request: nat) {
    exists id :: id in s.pending && s.pending[id] == request
  }

  /** The life of one request: pending and untouched, then held by one responder with its channel
      still empty, then answered at most once; what was sent is in the channel or was received. */
  ghost predicate OnTrack(s: State, request: nat) {
    && s.taken[request] <= 1 && s.sends[request] <= s.taken[request]
    && (Waiting(s, request) ==> s.taken[request] == 0 && !HeldBy(s, request))
    && (HeldBy(s, request) ==> s.taken[request] == 1 && s.sends[request] == 0)
    && (request >= s.added ==> s.taken[request] == 0 && !Waiting(s, request) && !HeldBy(s, request))
    && s.sends[request] == s.received[request] + |Channel(s, request)|
  }

  ghost predicate OneHolder(callers: seq<Caller>) {
    forall j, k, n: nat :: 0 <= j < k < |callers| ==> !(Holds(callers[j], n) && Holds(callers[k], n))
  }

  ghost predicate HandedOff(s: State) {
    && (forall n: nat :: OnTrack(s, n))
    && (forall i, j :: i in s.pending && j in s.pending && s.pending[i] == s.pending[j] ==> i == j)
    && OneHolder(s.callers)
    && (forall k :: 0 <= k < |s.callers| && s.callers[k].Answered? ==> s.callers[k].sent)
  }

  lemma AddKeeps(s: State, id: string)
    requires HandedOff(s)
    ensures HandedOff(DoAdd(s, id))
  {
    var t := DoAdd(s, id);
    forall i | i in s.pending ensures s.pending[i] < s.added {
      assert OnTrack(s, s.pending[i]) && Waiting(s, s.pending[i]);
    }
    forall n: nat ensures OnTrack(t, n) {
      assert OnTrack(s, n);
      assert HeldBy(t, n) == HeldBy(s, n);
      assert Waiting(t, n) ==> Waiting(s, n) || n == s.added;
    }
  }

  /** Taking a pending request out: it is no longer waiting, and at most the taker holds it. */
  lemma TakeKeeps(s: State, id: string, caller: nat -> Caller)
    requires HandedOff(s)
    requires forall n: nat, m: nat :: Holds(caller(n), m) ==> m == n
    requires forall n: nat :: !caller(n).Answered?
    ensures HandedOff(DoTake(s, id, caller))
  {
    var t := DoTake(s, id, caller);
    if id in s.pending {
      var r := s.pending[id];
      assert Waiting(s, r) && OnTrack(s, r);
      forall n: nat ensures OnTrack(t, n) {
        assert OnTrack(s, n);
        AppendHolder(s.callers, caller(r), n);
        assert HeldBy(t, n) ==> HeldBy(s, n) || n == r;
        assert Waiting(t, n) ==> Waiting(s, n) && n != r;
      }
      forall j, k, n: nat | 0 <= j < k < |t.callers| ensures !(Holds(t.callers[j], n) && Holds(t.callers[k], n)) {
        if k == |s.callers| && n == r {
          assert !HeldBy(s, r);
        }
      }
    } else {
      forall n: nat ensures OnTrack(t, n) {
        assert OnTrack(s, n);
        AppendHolder(s.callers, NotFound, n);
      }
    }
  }

  lemma AppendHolder(callers: seq<Caller>, caller: Caller, n: nat)
    ensures (exists k :: 0 <= k < |callers + [caller]| && Holds((callers + [caller])[k], n))
            <==> Holds(caller, n) || exists k :: 0 <= k < |callers| && Holds(callers[k], n)
  {
    var all := callers + [caller];
    assert all[|callers|] == caller;
    if k :| 0 <= k < |callers| && Holds(callers[k], n) {
      assert Holds(all[k], n);
    }
  }

  lemma RememberKeeps(s: State, k: nat)
    requires HandedOff(s) && k < |s.callers|
    ensures HandedOff(DoRemember(s, k))
  {
    var t := DoRemember(s, k);
    assert forall j, n: nat :: 0 <= j < |s.callers| ==> Holds(t.callers[j], n) == Holds(s.callers[j], n);
    forall n: nat ensures OnTrack(t, n) {
      assert OnTrack(s, n);
      assert HeldBy(t, n) <==> HeldBy(s, n);
    }
  }

  /** The responder that found the request meets an empty channel: its send succeeds. */
  lemma ReadySends(s: State, k: nat)
    requires HandedOff(s) && k < |s.callers| && s.callers[k].Ready?
    ensures Channel(s, s.callers[k].request) == []
    ensures s.sends[s.callers[k].request] == 0
  {
    var r := s.callers[k].request;
    assert Holds(s.callers[k], r) && HeldBy(s, r) && OnTrack(s, r);
  }

  lemma SendKeeps(s: State, k: nat)
    requires HandedOff(s) && k < |s.callers|
    ensures HandedOff(DoSend(s, k))
  {
    if s.callers[k].Ready? {
      ReadySends(s, k);
      var r, t := s.callers[k].request, DoSend(s, k);
      assert Holds(s.callers[k], r) && HeldBy(s, r);
      forall n: nat ensures OnTrack(t, n) {
        assert OnTrack(s, n);
        OthersHold(s, t, k, n);
      }
    }
  }

  lemma OthersHold(s: State, t: State, k: nat, n: nat)
    requires OneHolder(s.callers) && k < |s.callers| && s.callers[k].Ready?
    requires |t.callers| == |s.callers| && t.callers == s.callers[k := t.callers[k]] && t.callers[k].Answered?
    ensures HeldBy(t, n) <==> HeldBy(s, n) && n != s.callers[k].request
  {
    assert Holds(s.callers[k], s.callers[k].request);
    if j :| 0 <= j < |t.callers| && Holds(t.callers[j], n) {
      assert Holds(s.callers[j], n);
    }
    if j :| 0 <= j < |s.callers| && Holds(s.callers[j], n) {
      if n != s.callers[k].request {
        assert Holds(t.callers[j], n);
      }
    }
  }

  lemma DrainKeeps(s: State, id: string)
    requires HandedOff(s)
    ensures HandedOff(DoDrain(s, id))
  {
    if id in s.pending {
      var r, t := s.pending[id], DoDrain(s, id);
      assert Waiting(s, r);
      forall n: nat ensures OnTrack(t, n) {
        assert OnTrack(s, n);
        assert HeldBy(t, n) == HeldBy(s, n);
        assert Waiting(t, n) ==> Waiting(s, n) && n != r;
      }
    }
  }

  lemma ReceiveKeeps(s: State, request: nat)
    requires HandedOff(s)
    ensures HandedOff(DoReceive(s, request))
  {
    var t := DoReceive(s, request);
    forall n: nat ensures OnTrack(t, n) {
      assert OnTrack(s, n);
      assert HeldBy(t, n) == HeldBy(s, n) && Waiting(t, n) == Waiting(s, n);
    }
  }

  lemma {:induction false} RunHandsOff(ops: seq<Op>)
    ensures HandedOff(Run(ops))
  {
    if ops != [] {
      RunHandsOff(ops[..|ops| - 1]);
      var s := Run(ops[..|ops| - 1]);
      match ops[|ops| - 1]
      case Add(id) => AddKeeps(s, id);
      case Take(id, answer) => TakeKeeps(s, id, (n: nat) => Holding(n, answer));
      case Remember(k) => if k < |s.callers| { RememberKeeps(s, k); }
      case Send(k) => if k < |s.callers| { SendKeeps(s, k); }
      case GiveUp(id) => TakeKeeps(s, id, (n: nat) => Discarded(n));
      case Drain(id) => DrainKeeps(s, id);
      case Receive(request) => ReceiveKeeps(s, request);
    }
  }

  /** In every interleaving each request is taken by at most one caller, at most one response is
      ever sent for it, and its waiter receives at most one. */
  lemma TakenAtMostOnce(ops: seq<Op>, request: nat)
    ensures var s := Run(ops);
            s.taken[request] <= 1 && s.sends[request] <= 1 && s.received[request] <= 1
  {
    RunHandsOff(ops);
    assert OnTrack(Run(ops), request);
  }

  /** No responder that found its request ever meets a full channel, whatever happens between its
      three steps. */
  lemma ResponderNeverMeetsFullChannel(ops: seq<Op>, k: nat)
    requires k < |Run(ops).callers|
    ensures Run(ops).callers[k].Answered? ==> Run(ops).callers[k].sent
    ensures Run(ops).callers[k].Ready? ==> Channel(Run(ops), Run(ops).callers[k].request) == []
  {
    RunHandsOff(ops);
    if Run(ops).callers[k].Ready? {
      ReadySends(Run(ops), k);
    }
  }

  // ---- Who finds a request, told by the operations ----------------------------------------

  /** An operation that puts a request of this ID into the pending map, or takes one out. */
  predicate Names(op: Op, id: string) {
    (op.Add? || op.Take? || op.GiveUp? || op.Drain?) && op.id == id
  }

  predicate LastNamed(ops: seq<Op>, i: int, id: string) {
    0 <= i < |ops| && Names(ops[i], id) && forall j :: i < j < |ops| ==> !Names(ops[j], id)
  }

  /** How many requests were added. */
  function Added(ops: seq<Op>): nat {
    if ops == [] then 0 else Added(ops[..|ops| - 1]) + if ops[|ops| - 1].Add? then 1 else 0
  }

  lemma {:induction false} AddedMeans(ops: seq<Op>)
    ensures Run(ops).added == Added(ops)
  {
    if ops != [] {
      AddedMeans(ops[..|ops| - 1]);
    }
  }

  lemma PendingAfter(s: State, op: Op, id: string)
    ensures var t := Apply(s, op);
            if Names(op, id) then (id in t.pending <==> op.Add?) && (op.Add? ==> t.pending[id] == s.added)
            else (id in t.pending <==> id in s.pending) && (id in s.pending ==> t.pending[id] == s.pending[id])
  {
  }

  /** A request is pending iff the last operation on its ID added it, and it is the one added then. */
  lemma {:induction false} PendingMeans(ops: seq<Op>, id: string)
    ensures id in Run(ops).pending <==> exists i :: LastNamed(ops, i, id) && ops[i].Add?
    ensures forall i :: LastNamed(ops, i, id) && ops[i].Add?
                        ==> id in Run(ops).pending && Run(ops).pending[id] == Added(ops[..i])
  {
    if ops != [] {
      var last := |ops| - 1;
      var front := ops[..last];
      PendingAfter(Run(front), ops[last], id);
      if Names(ops[last], id) {
        assert LastNamed(ops, last, id);
        AddedMeans(front);
      } else {
        PendingMeans(front, id);
        forall i ensures LastNamed(ops, i, id) <==> LastNamed(front, i, id) {
          LastNamedLonger(ops, i, id);
        }
        assert forall i :: 0 <= i < last ==> front[..i] == ops[..i];
      }
    }
  }

  lemma LastNamedLonger(ops: seq<Op>, i: int, id: string)
    requires ops != [] && !Names(ops[|ops| - 1], id)
    ensures LastNamed(ops, i, id) <==> LastNamed(ops[..|ops| - 1], i, id)
  {
    var front := ops[..|ops| - 1];
    assert forall j :: 0 <= j < |front| ==> front[j] == ops[j];
  }

  lemma RunOneMore(ops: seq<Op>, op: Op)
    ensures Run(ops + [op]) == Apply(Run(ops), op)
  {
    assert (ops + [op])[..|ops|] == ops;
  }

  ghost predicate LastCaller(s: State, c: Caller) {
    s.callers != [] && s.callers[|s.callers| - 1] == c
  }

  lemma TakerFinds(s: State, id: string, answer: Answer)
    ensures LastCaller(Apply(s, Take(id, answer)), if id in s.pending then Holding(s.pending[id], answer) else NotFound)
  {
  }

  /** A responder finds a request iff the last operation on its ID added it; then it alone holds that
      request. */
  lemma {:induction false} NextResponderFinds(ops: seq<Op>, id: string, answer: Answer)
    ensures var t := Run(ops + [Take(id, answer)]);
            && (forall i :: LastNamed(ops, i, id) && ops[i].Add? ==> LastCaller(t, Holding(Added(ops[..i]), answer)))
            && (!(exists i :: LastNamed(ops, i, id) && ops[i].Add?) ==> LastCaller(t, NotFound))
  {
    PendingMeans(ops, id);
    RunOneMore(ops, Take(id, answer));
    TakerFinds(Run(ops), id, answer);
  }

  /** Whoever comes next under this ID finds nothing, whether the request was taken or removed. */
  lemma {:induction false} NobodyElseFinds(ops: seq<Op>, id: string, removal: Op, answer: Answer)
    requires Names(removal, id) && !removal.Add?
    ensures LastCaller(Run(ops + [removal] + [Take(id, answer)]), NotFound)
  {
    RunOneMore(ops, removal);
    PendingAfter(Run(ops), removal, id);
    RunOneMore(ops + [removal], Take(id, answer));
    TakerFinds(Run(ops + [removal]), id, answer);
  }

  /** From the responder to the waiter: the answer of a responder about to send is in the channel after its
      send, and the waiter gets it. */
  lemma {:induction false} AnswerReachesWaiter(ops: seq<Op>, k: nat)
    requires k < |Run(ops).callers| && Run(ops).callers[k].Ready?
    ensures var request := Run(ops).callers[k].request;
            && Channel(Run(ops + [Send(k)]), request) == [Run(ops).callers[k].answer]
            && Run(ops + [Send(k)] + [Receive(request)]).received[request] == 1
  {
    var s := Run(ops);
    var request := s.callers[k].request;
    RunHandsOff(ops);
    ReadySends(s, k);
    assert OnTrack(s, request);
    var sent := ops + [Send(k)];
    assert sent[..|ops|] == ops;
    assert (sent + [Receive(request)])[..|sent|] == sent;
  }

  // ---- The methods, each run without interruption -----------------------------------------

  /** What a caller takes a request out for. */
  datatype Plan = ToAnswer(answer: Answer) | ToGiveUp

  class PendingRequests {
    var pending: map<string, nat>
    var added: nat
    var channels: map<nat, seq<Answer>>
    var stored: seq<Answer>
    ghost var callers: seq<Caller>
    ghost var taken: multiset<nat>
    ghost var sends: multiset<nat>
    ghost var received: multiset<nat>

    ghost function Model(): State
      reads this
    {
      State(pending, added, channels, callers, stored, taken, sends, received)
    }

    ghost predicate Valid()
      reads this
    {
      HandedOff(Model())
    }

    constructor ()
      ensures Valid() && Model() == EMPTY
    {
      pending, added, channels, stored := map[], 0, map[], [];
      callers, taken, sends, received := [], multiset{}, multiset{}, multiset{};
      new;
      RunHandsOff([]);
    }

    method AddPendingRequest(toolUseID: string)
      requires Valid()
      modifies this
      ensures Valid() && Model() == DoAdd(old(Model()), toolUseID)
    {
      AddKeeps(Model(), toolUseID);
      pending := pending[toolUseID := added];
      channels := channels[added := []];
      added := added + 1;
    }

    method RemovePendingRequest(toolUseID: string)
      requires Valid()
      modifies this
      ensures Valid() && Model() == DoDrain(old(Model()), toolUseID)
    {
      DrainKeeps(Model(), toolUseID);
      if toolUseID in pending {
        taken := taken + multiset{pending[toolUseID]};
        channels := channels[pending[toolUseID] := []];
        pending := pending - {toolUseID};
      }
    }

    /** Takes the request out.  What for is the caller's business: to answer it, or to give it up. */
    method GetAndRemovePendingRequest(toolUseID: string, ghost plan: Plan) returns (found: bool, request: nat)
      requires Valid()
      modifies this`pending, this`taken, this`callers
      ensures Valid()
      ensures Model() == match plan
                         case ToAnswer(answer) => DoTake(old(Model()), toolUseID, (n: nat) => Holding(n, answer))
                         case ToGiveUp => DoTake(old(Model()), toolUseID, (n: nat) => Discarded(n))
      ensures found == (toolUseID in old(pending)) && pending == old(pending) - {toolUseID}
      ensures found ==> request == old(pending)[toolUseID]
      ensures found && plan.ToAnswer? ==> callers == old(callers) + [Holding(request, plan.answer)]
    {
      match plan {
        case ToAnswer(answer) => TakeKeeps(Model(), toolUseID, (n: nat) => Holding(n, answer));
        case ToGiveUp => TakeKeeps(Model(), toolUseID, (n: nat) => Discarded(n));
      }
      found, request := toolUseID in pending, 0;
      if found {
        request := pending[toolUseID];
        pending := pending - {toolUseID};
        taken := taken + multiset{request};
        callers := callers + [if plan.ToAnswer? then Holding(request, plan.answer) else Discarded(request)];
      } else {
        callers := callers + [NotFound];
      }
    }

    /** The RPC responder: the same three steps, its answer always reaching the channel. */
    method Respond(toolUseID: string, answer: Answer) returns (ok: bool)
      requires Valid()
      modifies this
      ensures Valid() && ok == (toolUseID in old(pending))
      ensures ok ==> channels == old(channels)[old(pending)[toolUseID] := [answer]]
      ensures !ok ==> channels == old(channels)
      ensures stored == if ok && answer.forSession && answer.pattern != "" then old(stored) + [answer] else old(stored)
      ensures pending == old(pending) - {toolUseID} && added == old(added)
    {
      var found, request := GetAndRemovePendingRequest(toolUseID, ToAnswer(answer));
      if !found {
        return false;
      }
      StoreAnswer(request, answer);
      var sent := SendAnswer(request, answer);
      return true;
    }

    /** The three steps in a row.  It reports success exactly when the request was there. */
    method RespondToRequest(toolUseID: string, answer: Answer) returns (ok: bool)
      requires Valid()
      modifies this
      ensures Valid() && ok == (toolUseID in old(pending))
      ensures ok ==> channels == old(channels)[old(pending)[toolUseID] := [answer]]
      ensures !ok ==> channels == old(channels)
      ensures stored == if ok && answer.forSession && answer.pattern != "" then old(stored) + [answer] else old(stored)
      ensures pending == old(pending) - {toolUseID} && added == old(added)
    {
      var found, request := GetAndRemovePendingRequest(toolUseID, ToAnswer(answer));
      if !found {
        return false;
      }
      StoreAnswer(request, answer);
      ok := SendAnswer(request, answer);
    }

    method StoreAnswer(request: nat, answer: Answer)
      requires Valid() && callers != [] && callers[|callers| - 1] == Holding(request, answer)
      modifies this`stored, this`callers
      ensures Valid() && Model() == DoRemember(old(Model()), |old(callers)| - 1)
      ensures callers != [] && callers[|callers| - 1] == Ready(request, answer)
      ensures stored == if answer.forSession && answer.pattern != "" then old(stored) + [answer] else old(stored)
    {
      RememberKeeps(Model(), |callers| - 1);
      if answer.forSession && answer.pattern != "" {
        stored := stored + [answer];
      }
      callers := callers[|callers| - 1 := Ready(request, answer)];
    }

    method SendAnswer(request: nat, answer: Answer) returns (ok: bool)
      requires Valid() && callers != [] && callers[|callers| - 1] == Ready(request, answer)
      modifies this`channels, this`sends, this`callers
      ensures Valid() && ok && Model() == DoSend(old(Model()), |old(callers)| - 1)
      ensures channels == old(channels)[request := [answer]]
    {
      ghost var k := |callers| - 1;
      ReadySends(Model(), k);
      SendKeeps(Model(), k);
      ok := request !in channels || channels[request] == [];
      if ok {
        channels := channels[request := [answer]];
        sends := sends + multiset{request};
        callers := callers[k := Answered(request, true)];
      }
    }
  }
}
