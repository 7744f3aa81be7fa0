/** Permission memory: per session, a bounded cache of decisions keyed by pattern. */
module Memory {

  import opened Pattern

  datatype Decision = Allow | Deny

  datatype Stored = Stored(pattern: string, decision: Decision, createdAt: int, usageCount: int)

  type Decisions = map<string, Stored>

  // ---- Storing and evicting ---------------------------------------------------------------

  /** `order` lists the keys of a map once each: one of the orders a Go range may take. */
  ghost predicate OrderOf(order: seq<string>, keys: set<string>) {
    && (forall p :: p in order <==> p in keys)
    && (forall i, j :: 0 <= i < j < |order| ==> order[i] != order[j])
  }

  /** The eviction loop: the oldest entry met so far, with the empty string for none yet. */
  function Oldest(d: Decisions, order: seq<string>): string
    requires forall p :: p in order ==> p in d
  {
    if order == [] then ""
    else
      var best := Oldest(d, order[..|order| - 1]);
      var p := order[|order| - 1];
      if best == "" || best !in d || d[p].createdAt < d[best].createdAt then p else best
  }

  function Evict(d: Decisions, order: seq<string>): Decisions
    requires forall p :: p in order ==> p in d
  {
    var oldest := Oldest(d, order);
    if oldest != "" then d - {oldest} else d
  }

  /** What is left of the cache when a new decision comes in. */
  function Room(d: Decisions, maxPatterns: int, order: seq<string>): Decisions
    requires forall p :: p in order ==> p in d
  {
    if |d| >= maxPatterns then Evict(d, order) else d
  }

  function Store(d: Decisions, maxPatterns: int, order: seq<string>, pattern: string, decision: Decision, now: int): Decisions
    requires forall p :: p in order ==> p in d
  {
    Room(d, maxPatterns, order)[pattern := Stored(pattern, decision, now, 1)]
  }

  function Bump(d: Decisions, pattern: string): Decisions
    requires pattern in d
  {
    d[pattern := d[pattern].(usageCount := d[pattern].usageCount + 1)]
  }

  /** The one bad cache: a decision stored under the empty pattern, older than all others.  A caller
      can tell before storing, whatever order the loop will take. */
  predicate EmptyIsOldest(d: Decisions) {
    "" in d && forall p :: p in d && p != "" ==> d[""].createdAt < d[p].createdAt
  }

  predicate IsOldest(d: Decisions, oldest: string) {
    oldest in d && forall p :: p in d ==> d[oldest].createdAt <= d[p].createdAt
  }

  lemma {:induction false} OldestIsKey(d: Decisions, order: seq<string>)
    requires forall p :: p in order ==> p in d
    ensures Oldest(d, order) == "" || Oldest(d, order) in order
  {
    if order != [] {
      var front, last := order[..|order| - 1], order[|order| - 1];
      assert order == front + [last];
      OldestIsKey(d, front);
    }
  }

  /** Over keys none of which is empty, the loop finds an oldest one. */
  lemma {:induction false} OldestOfNamed(d: Decisions, order: seq<string>)
    requires order != [] && "" !in order
    requires forall p :: p in order ==> p in d
    ensures Oldest(d, order) in order
    ensures forall p :: p in order ==> d[Oldest(d, order)].createdAt <= d[p].createdAt
  {
    var front, last := order[..|order| - 1], order[|order| - 1];
    assert order == front + [last];
    if front != [] {
      OldestOfNamed(d, front);
    }
  }

  lemma FrontOrder(order: seq<string>, d: Decisions)
    requires OrderOf(order, d.Keys) && order != []
    ensures var front, last := order[..|order| - 1], order[|order| - 1];
            && (forall p :: p in order <==> p in front || p == last) && last !in front
            && (forall i, j :: 0 <= i < j < |front| ==> front[i] != front[j])
  {
    assert order == order[..|order| - 1] + [order[|order| - 1]];
  }

  /** Once the loop has met a named decision at least as old as the empty one, the empty pattern makes
      no difference: it ends on a named oldest one. */
  lemma {:induction false} OldestOfPart(d: Decisions, order: seq<string>, p: string)
    requires forall q :: q in order ==> q in d
    requires p in order && p != ""
    requires forall q :: q in order ==> d[p].createdAt <= d[q].createdAt
    ensures Oldest(d, order) != "" && Oldest(d, order) in order
    ensures d[Oldest(d, order)].createdAt == d[p].createdAt
  {
    var front, last := order[..|order| - 1], order[|order| - 1];
    assert order == front + [last];
    if p in front {
      OldestOfPart(d, front, p);
    } else {
      OldestIsKey(d, front);
    }
  }

  /** When the loop ends on the empty pattern: it met it last, and it is older than all others. */
  lemma LoopEndsEmpty(d: Decisions, order: seq<string>)
    requires OrderOf(order, d.Keys) && d != map[]
    ensures order != []
    ensures Oldest(d, order) == "" <==> order[|order| - 1] == "" && EmptyIsOldest(d)
  {
    var k :| k in d;
    assert k in order;
    FrontOrder(order, d);
    var front, last := order[..|order| - 1], order[|order| - 1];
    if last == "" {
      if front == [] {
        assert Oldest(d, order) == "";
      } else {
        OldestOfNamed(d, front);
        if EmptyIsOldest(d) {
          assert d[""].createdAt < d[Oldest(d, front)].createdAt;
        }
      }
    }
  }

  lemma {:induction false} LeastCreated(d: Decisions, keys: set<string>) returns (p: string)
    requires keys != {} && keys <= d.Keys
    ensures p in keys && forall q :: q in keys ==> d[p].createdAt <= d[q].createdAt
    decreases keys
  {
    p :| p in keys;
    if keys != {p} {
      var m := LeastCreated(d, keys - {p});
      p := if d[m].createdAt < d[p].createdAt then m else p;
    }
  }

  /** Unless the empty pattern is the oldest, the loop ends on an oldest decision, in any order. */
  lemma OldestIsOldest(d: Decisions, order: seq<string>)
    requires OrderOf(order, d.Keys) && d != map[] && !EmptyIsOldest(d)
    ensures Oldest(d, order) != "" && IsOldest(d, Oldest(d, order))
  {
    var p := LeastCreated(d, d.Keys);
    if p == "" {
      p :| p in d && p != "" && d[p].createdAt <= d[""].createdAt;
    }
    assert p in order;
    OldestOfPart(d, order, p);
  }

  lemma {:induction false} SomeOrder(keys: set<string>) returns (order: seq<string>)
    ensures OrderOf(order, keys)
    decreases keys
  {
    if keys == {} {
      order := [];
    } else {
      var k :| k in keys;
      order := SomeOrder(keys - {k});
      order := order + [k];
    }
  }

  /** An order that meets the empty pattern last. */
  lemma EmptyLast(d: Decisions) returns (order: seq<string>)
    requires EmptyIsOldest(d)
    ensures OrderOf(order, d.Keys) && Oldest(d, order) == ""
  {
    order := SomeOrder(d.Keys - {""});
    order := order + [""];
    LoopEndsEmpty(d, order);
  }

  /** Exactly when eviction is right: a full cache loses an oldest decision, whatever order the range
      takes, if and only if the empty pattern is not the oldest in it. */
  lemma EvictionIsRight(d: Decisions)
    requires d != map[]
    ensures (forall order :: OrderOf(order, d.Keys) ==> Oldest(d, order) != "" && IsOldest(d, Oldest(d, order)))
            <==> !EmptyIsOldest(d)
  {
    if EmptyIsOldest(d) {
      var order := EmptyLast(d);
    } else {
      forall order | OrderOf(order, d.Keys) ensures Oldest(d, order) != "" && IsOldest(d, Oldest(d, order)) {
        OldestIsOldest(d, order);
      }
    }
  }

  // ---- Recent decisions survive -----------------------------------------------------------

  /** What happens to one session: a decision is stored, or a stored one is used. */
  datatype Step =
    | Storing(pattern: string, decision: Decision, now: int, order: seq<string>)
    | Using(pattern: string)

  /** The decisions of a session, and the log of everything ever stored in it. */
  datatype Session = Session(decisions: Decisions, log: seq<Stored>)

  predicate Possible(s: Session, step: Step) {
    match step
    case Storing(_, _, _, order) => forall p :: p in order ==> p in s.decisions
    case Using(pattern) => pattern in s.decisions
  }

  function Do(s: Session, maxPatterns: int, step: Step): Session
    requires Possible(s, step)
  {
    match step
    case Storing(pattern, decision, now, order) =>
      Session(Store(s.decisions, maxPatterns, order, pattern, decision, now),
              s.log + [Stored(pattern, decision, now, 1)])
    case Using(pattern) => s.(decisions := Bump(s.decisions, pattern))
  }

  /** A step of a session whose clock never stands still, storing into a full cache only when the
      empty pattern is not the oldest in it: so any step at all when no pattern is ever empty. */
  ghost predicate Proper(s: Session, maxPatterns: int, step: Step) {
    && Possible(s, step)
    && (step.Storing? ==>
          && (|s.decisions| >= maxPatterns ==> !EmptyIsOldest(s.decisions))
          && OrderOf(step.order, s.decisions.Keys)
          && (s.log != [] ==> s.log[|s.log| - 1].createdAt < step.now))
  }

  ghost predicate Follows(before: Session, maxPatterns: int, step: Step, after: Session) {
    Proper(before, maxPatterns, step) && after == Do(before, maxPatterns, step)
  }

  /** The states a session can be in after these steps. */
  ghost predicate Reachable(s: Session, maxPatterns: int, steps: seq<Step>)
    decreases |steps|
  {
    if steps == [] then s == Session(map[], [])
    else
      var front, last := steps[..|steps| - 1], steps[|steps| - 1];
      exists before :: Follows(before, maxPatterns, last, s) && Reachable(before, maxPatterns, front)
  }

  /** The index of the latest entry for `pattern`, or -1. */
  function Latest(log: seq<Stored>, pattern: string): (n: int)
    ensures -1 <= n < |log|
    ensures n >= 0 ==> log[n].pattern == pattern
    ensures forall i :: n < i < |log| ==> log[i].pattern != pattern
  {
    if log == [] then -1
    else if log[|log| - 1].pattern == pattern then |log| - 1
    else Latest(log[..|log| - 1], pattern)
  }

  ghost predicate Ordered(log: seq<Stored>) {
    forall i, j :: 0 <= i < j < |log| ==> log[i].createdAt < log[j].createdAt
  }

  /** A stored decision is the latest one logged for its pattern, usage aside. */
  ghost predicate Faithful(s: Session) {
    forall p :: p in s.decisions ==>
      && Latest(s.log, p) >= 0
      && s.decisions[p] == s.log[Latest(s.log, p)].(usageCount := s.decisions[p].usageCount)
  }

  ghost predicate KeepsRecent(s: Session, maxPatterns: int) {
    forall p :: Latest(s.log, p) >= 0 && Latest(s.log, p) >= |s.log| - maxPatterns ==> p in s.decisions
  }

  function Bound(maxPatterns: int): nat {
    if maxPatterns < 1 then 1 else maxPatterns
  }

  ghost predicate Sound(s: Session, maxPatterns: int) {
    Ordered(s.log) && Faithful(s) && KeepsRecent(s, maxPatterns) && |s.decisions| <= Bound(maxPatterns)
  }

  lemma LatestSnoc(log: seq<Stored>, entry: Stored, pattern: string)
    ensures Latest(log + [entry], pattern) == if entry.pattern == pattern then |log| else Latest(log, pattern)
  {
    assert (log + [entry])[..|log|] == log;
  }

  /** Distinct patterns were logged last at distinct places. */
  lemma {:induction false} DistinctPlaces(keys: set<string>, log: seq<Stored>, low: nat, high: nat)
    requires low <= high
    requires forall p :: p in keys ==> low <= Latest(log, p) < high
    ensures |keys| <= high - low
    decreases high - low
  {
    if low == high {
      forall p ensures p !in keys {
      }
      assert keys == {};
    } else if p :| p in keys && Latest(log, p) == high - 1 {
      forall q | q in keys - {p} ensures low <= Latest(log, q) < high - 1 {
        assert log[Latest(log, q)].pattern == q;
      }
      DistinctPlaces(keys - {p}, log, low, high - 1);
    } else {
      DistinctPlaces(keys, log, low, high - 1);
    }
  }

  /** What is evicted from a full cache was last stored at least `maxPatterns` calls ago. */
  lemma EvictedIsOld(s: Session, maxPatterns: int, order: seq<string>)
    requires Sound(s, maxPatterns) && OrderOf(order, s.decisions.Keys)
    requires |s.decisions| >= maxPatterns && s.decisions != map[] && !EmptyIsOldest(s.decisions)
    ensures Oldest(s.decisions, order) in s.decisions
    ensures Latest(s.log, Oldest(s.decisions, order)) <= |s.log| - maxPatterns
  {
    OldestIsOldest(s.decisions, order);
    var oldest := Oldest(s.decisions, order);
    var low := Latest(s.log, oldest);
    forall q | q in s.decisions.Keys ensures low <= Latest(s.log, q) < |s.log| {
      assert s.log[low].createdAt <= s.log[Latest(s.log, q)].createdAt;
    }
    DistinctPlaces(s.decisions.Keys, s.log, low, |s.log|);
  }

  lemma EmptyOrder(order: seq<string>, keys: set<string>)
    requires OrderOf(order, keys)
    ensures order == [] <==> keys == {}
  {
    if order != [] {
      assert order[0] in order;
    }
  }

  lemma RoomInOrder(d: Decisions, maxPatterns: int, order: seq<string>)
    requires OrderOf(order, d.Keys)
    ensures |Room(d, maxPatterns, order)|
            == if |d| >= maxPatterns && Oldest(d, order) != "" then |d| - 1 else |d|
    ensures Room(d, maxPatterns, order).Keys <= d.Keys
  {
    OldestIsKey(d, order);
    var room := Room(d, maxPatterns, order);
    if |d| >= maxPatterns && Oldest(d, order) != "" {
      assert room.Keys == d.Keys - {Oldest(d, order)};
    }
  }

  lemma RoomKeeps(d: Decisions, log: seq<Stored>, maxPatterns: int, order: seq<string>)
    requires OrderOf(order, d.Keys) && |d| <= Bound(maxPatterns)
    requires |d| >= maxPatterns && d != map[] ==>
               Oldest(d, order) != "" && Latest(log, Oldest(d, order)) <= |log| - maxPatterns
    ensures var room := Room(d, maxPatterns, order);
            && |room| < Bound(maxPatterns)
            && (forall p :: p in room ==> p in d && room[p] == d[p])
            && (forall p :: p in d && Latest(log, p) > |log| - maxPatterns ==> p in room)
  {
    RoomInOrder(d, maxPatterns, order);
    EmptyOrder(order, d.Keys);
    if |d| >= maxPatterns && d != map[] {
      RoomWithout(d, maxPatterns, order);
    }
  }

  lemma RoomIsMade(s: Session, maxPatterns: int, order: seq<string>)
    requires Sound(s, maxPatterns) && OrderOf(order, s.decisions.Keys)
    requires |s.decisions| >= maxPatterns ==> !EmptyIsOldest(s.decisions)
    ensures var room := Room(s.decisions, maxPatterns, order);
            && |room| < Bound(maxPatterns)
            && (forall p :: p in room ==> p in s.decisions && room[p] == s.decisions[p])
            && (forall p :: p in s.decisions && Latest(s.log, p) > |s.log| - maxPatterns ==> p in room)
  {
    if |s.decisions| >= maxPatterns && s.decisions != map[] {
      OldestIsOldest(s.decisions, order);
      EvictedIsOld(s, maxPatterns, order);
    }
    RoomKeeps(s.decisions, s.log, maxPatterns, order);
  }

  lemma RoomWithout(d: Decisions, maxPatterns: int, order: seq<string>)
    requires OrderOf(order, d.Keys) && |d| >= maxPatterns && Oldest(d, order) != ""
    ensures Room(d, maxPatterns, order) == d - {Oldest(d, order)}
  {
  }

  lemma StoringSound(s: Session, maxPatterns: int, step: Step)
    requires Sound(s, maxPatterns) && Proper(s, maxPatterns, step) && step.Storing?
    ensures Sound(Do(s, maxPatterns, step), maxPatterns)
  {
    var room := Room(s.decisions, maxPatterns, step.order);
    var entry := Stored(step.pattern, step.decision, step.now, 1);
    var t := Session(room[entry.pattern := entry], s.log + [entry]);
    StoringMakes(s, maxPatterns, step);
    RoomIsMade(s, maxPatterns, step.order);
    OneMoreKey(room, entry);
    StoredInOrder(s.log, entry);
    StoredFaithful(s, t, room, entry);
    StoredRecent(s, t, maxPatterns, room, entry);
  }

  lemma StoringMakes(s: Session, maxPatterns: int, step: Step)
    requires Possible(s, step) && step.Storing?
    ensures var entry := Stored(step.pattern, step.decision, step.now, 1);
            Do(s, maxPatterns, step)
            == Session(Room(s.decisions, maxPatterns, step.order)[step.pattern := entry], s.log + [entry])
  {
  }

  lemma OneMoreKey(room: Decisions, entry: Stored)
    ensures |room[entry.pattern := entry]| <= |room| + 1
  {
    assert room[entry.pattern := entry].Keys == room.Keys + {entry.pattern};
  }

  lemma StoredInOrder(log: seq<Stored>, entry: Stored)
    requires Ordered(log) && (log != [] ==> log[|log| - 1].createdAt < entry.createdAt)
    ensures Ordered(log + [entry])
  {
  }

  lemma StoredFaithful(s: Session, t: Session, room: Decisions, entry: Stored)
    requires Faithful(s)
    requires forall p :: p in room ==> p in s.decisions && room[p] == s.decisions[p]
    requires t == Session(room[entry.pattern := entry], s.log + [entry])
    ensures Faithful(t)
  {
    forall p | p in t.decisions
      ensures Latest(t.log, p) >= 0
      ensures t.decisions[p] == t.log[Latest(t.log, p)].(usageCount := t.decisions[p].usageCount)
    {
      LatestSnoc(s.log, entry, p);
    }
  }

  lemma StoredRecent(s: Session, t: Session, maxPatterns: int, room: Decisions, entry: Stored)
    requires KeepsRecent(s, maxPatterns)
    requires forall p :: p in s.decisions && Latest(s.log, p) > |s.log| - maxPatterns ==> p in room
    requires t == Session(room[entry.pattern := entry], s.log + [entry])
    ensures KeepsRecent(t, maxPatterns)
  {
    forall p | Latest(t.log, p) >= 0 && Latest(t.log, p) >= |t.log| - maxPatterns ensures p in t.decisions {
      LatestSnoc(s.log, entry, p);
    }
  }

  lemma UsingSound(s: Session, maxPatterns: int, step: Step)
    requires Sound(s, maxPatterns) && Proper(s, maxPatterns, step) && step.Using?
    ensures Sound(Do(s, maxPatterns, step), maxPatterns)
  {
    var t := Do(s, maxPatterns, step);
    assert t.decisions.Keys == s.decisions.Keys;
  }

  lemma {:induction false} ReachableSound(s: Session, maxPatterns: int, steps: seq<Step>)
    requires Reachable(s, maxPatterns, steps)
    ensures Sound(s, maxPatterns)
    decreases |steps|
  {
    if steps != [] {
      var before :| Follows(before, maxPatterns, steps[|steps| - 1], s)
                    && Reachable(before, maxPatterns, steps[..|steps| - 1]);
      ReachableSound(before, maxPatterns, steps[..|steps| - 1]);
      if steps[|steps| - 1].Storing? {
        StoringSound(before, maxPatterns, steps[|steps| - 1]);
      } else {
        UsingSound(before, maxPatterns, steps[|steps| - 1]);
      }
    }
  }

  /** Whatever order each range takes: a pattern whose latest store is among the last `maxPatterns`
      store calls of its session is still there with that decision, and the session never holds
      more than max(1, maxPatterns) decisions. */
  lemma RecentDecisionsSurvive(s: Session, maxPatterns: int, steps: seq<Step>, i: nat)
    requires Reachable(s, maxPatterns, steps)
    requires i < |s.log| && i >= |s.log| - maxPatterns
    requires forall j :: i < j < |s.log| ==> s.log[j].pattern != s.log[i].pattern
    ensures s.log[i].pattern in s.decisions
    ensures var d := s.decisions[s.log[i].pattern];
            d.decision == s.log[i].decision && d.createdAt == s.log[i].createdAt && d.pattern == s.log[i].pattern
  {
    ReachableSound(s, maxPatterns, steps);
    assert Latest(s.log, s.log[i].pattern) == i;
  }

  lemma CacheIsBounded(s: Session, maxPatterns: int, steps: seq<Step>)
    requires Reachable(s, maxPatterns, steps)
    ensures |s.decisions| <= 1 || |s.decisions| <= maxPatterns
  {
    ReachableSound(s, maxPatterns, steps);
  }

  /** One store: the new decision is there, unused so far but for this once; a cache with room loses
      nothing, a full one exactly an oldest decision, unless the empty pattern is the oldest. */
  lemma StoreMeans(d: Decisions, maxPatterns: int, order: seq<string>, pattern: string, decision: Decision, now: int)
    requires OrderOf(order, d.Keys)
    ensures var t := Store(d, maxPatterns, order, pattern, decision, now);
            && pattern in t && t[pattern] == Stored(pattern, decision, now, 1)
            && (|d| < maxPatterns || d == map[] ==> t == d[pattern := t[pattern]])
            && (|d| >= maxPatterns && d != map[] && !EmptyIsOldest(d)
                ==> exists o :: IsOldest(d, o) && t == (d - {o})[pattern := t[pattern]])
  {
    EmptyOrder(order, d.Keys);
    if |d| >= maxPatterns && d != map[] && !EmptyIsOldest(d) {
      OldestIsOldest(d, order);
      assert IsOldest(d, Oldest(d, order));
    }
  }

  lemma KeyAdded(room: Decisions, pattern: string, entry: Stored)
    ensures |room[pattern := entry]| == |room| + if pattern in room then 0 else 1
  {
    assert room[pattern := entry].Keys == room.Keys + {pattern};
    assert pattern in room ==> room.Keys + {pattern} == room.Keys;
  }

  /** Whatever order the range takes, a store keeps a cache within its bound, if and only if not this:
      the cache is full, the empty pattern is the oldest in it, and the pattern to store is new. */
  lemma StoreKeepsBound(d: Decisions, maxPatterns: int, pattern: string, decision: Decision, now: int)
    requires |d| <= if maxPatterns < 1 then 1 else maxPatterns
    ensures var bound := if maxPatterns < 1 then 1 else maxPatterns;
            (forall order :: OrderOf(order, d.Keys) ==>
               |Store(d, maxPatterns, order, pattern, decision, now)| <= bound)
            <==> !(|d| == bound && EmptyIsOldest(d) && pattern !in d)
  {
    var entry := Stored(pattern, decision, now, 1);
    if |d| == Bound(maxPatterns) && EmptyIsOldest(d) && pattern !in d {
      var order := EmptyLast(d);
      RoomInOrder(d, maxPatterns, order);
      KeyAdded(Room(d, maxPatterns, order), pattern, entry);
      assert |Store(d, maxPatterns, order, pattern, decision, now)| > Bound(maxPatterns);
    } else {
      forall order | OrderOf(order, d.Keys)
        ensures |Store(d, maxPatterns, order, pattern, decision, now)| <= Bound(maxPatterns)
      {
        RoomInOrder(d, maxPatterns, order);
        KeyAdded(Room(d, maxPatterns, order), pattern, entry);
        if |d| == Bound(maxPatterns) && !EmptyIsOldest(d) {
          OldestIsOldest(d, order);
        }
      }
    }
  }

  /** Why the empty pattern matters: it reads as "none found yet", so nothing is evicted, and a cache
      for one decision holds two. */
  lemma EmptyPatternDefeatsBound()
    ensures var d: Decisions := map["" := Stored("", Allow, 1, 1)];
            OrderOf([""], d.Keys) && |Store(d, 1, [""], "Bash(*)", Deny, 2)| == 2
  {
    var d: Decisions := map["" := Stored("", Allow, 1, 1)];
    assert [""][..0] == [];
    assert Oldest(d, [""]) == "";
    var t := Store(d, 1, [""], "Bash(*)", Deny, 2);
    assert t.Keys == {"", "Bash(*)"};
    assert |t.Keys| == 2;
  }

  /** And what comes after it in the range is taken as oldest: here the decision stored last is evicted
      from a cache for three, and the one stored before it stays. */
  lemma EmptyPatternDefeatsRecency()
    ensures var d: Decisions := map["" := Stored("", Allow, 1, 1), "a" := Stored("a", Allow, 2, 1), "b" := Stored("b", Allow, 3, 1)];
            && OrderOf(["a", "", "b"], d.Keys)
            && "a" in Store(d, 3, ["a", "", "b"], "c", Deny, 4) && "b" !in Store(d, 3, ["a", "", "b"], "c", Deny, 4)
  {
    var d: Decisions := map["" := Stored("", Allow, 1, 1), "a" := Stored("a", Allow, 2, 1), "b" := Stored("b", Allow, 3, 1)];
    var order := ["a", "", "b"];
    assert order[..2] == ["a", ""] && order[..2][..1] == ["a"] && ["a"][..0] == [];
    assert Oldest(d, ["a"]) == "a";
    assert Oldest(d, ["a", ""]) == "";
    assert Oldest(d, order) == "b";
    assert d.Keys == {"", "a", "b"} && |d.Keys| == 3;
    assert Room(d, 3, order) == d - {"b"};
  }

  // ---- Checking ---------------------------------------------------------------------------

  datatype Answer = None | Some(stored: Stored)

  /** What a check may answer and leave behind: the exact pattern of the request wins; otherwise any
      stored pattern that matches it; one usage is counted and nothing else changes. */
  ghost predicate Checked(glob: (string, string) -> bool, d: Decisions, tool: string, input: Input,
                          answer: Answer, d': Decisions)
  {
    var exact := GeneratePattern(tool, input);
    match answer
    case None =>
      d' == d && exact !in d && forall p :: p in d ==> !MatchPattern(glob, p, tool, input)
    case Some(stored) =>
      exists p :: p in d && d' == Bump(d, p) && stored == d'[p]
                  && if exact in d then p == exact else MatchPattern(glob, p, tool, input)
  }

  ghost predicate SomeMatch(glob: (string, string) -> bool, d: Decisions, tool: string, input: Input) {
    exists p :: p in d && MatchPattern(glob, p, tool, input)
  }

  predicate AsksForStarDirectory(tool: string, input: Input) {
    FileTool(tool) && Given(input.filePath) && StarDirectory(input.filePath.value)
  }

  /** The fast path agrees with a plain scan: a check answers iff some stored pattern matches, except
      exactly when the request falls in the one case where generator and matcher disagree, its own
      pattern is stored, and nothing stored matches.  Outside that case the answer is the decision of
      a stored pattern that matches; the request's own pattern, when stored, goes first. */
  lemma CheckAgreesWithScan(glob: (string, string) -> bool, d: Decisions, tool: string, input: Input,
                            answer: Answer, d': Decisions)
    requires Checked(glob, d, tool, input, answer, d')
    ensures (answer.Some? <==> SomeMatch(glob, d, tool, input))
            <==> !(AsksForStarDirectory(tool, input) && GeneratePattern(tool, input) in d
                   && !SomeMatch(glob, d, tool, input))
    ensures GeneratePattern(tool, input) in d
            ==> answer.Some? && answer.stored.decision == d[GeneratePattern(tool, input)].decision
    ensures answer.Some? && !AsksForStarDirectory(tool, input) ==>
              exists p :: p in d && MatchPattern(glob, p, tool, input)
                          && answer.stored.decision == d[p].decision
                          && answer.stored.usageCount == d[p].usageCount + 1
  {
    GeneratorAgrees(glob, tool, input);
    var exact := GeneratePattern(tool, input);
    if answer.Some? {
      var p :| p in d && d' == Bump(d, p) && answer.stored == d'[p]
               && if exact in d then p == exact else MatchPattern(glob, p, tool, input);
      assert !AsksForStarDirectory(tool, input) ==> MatchPattern(glob, p, tool, input);
    }
  }

  /** The disagreement, concretely: the stored pattern of a star-directory request answers it, although
      no stored pattern matches. */
  lemma FastPathExample(glob: (string, string) -> bool)
    ensures var input := Input(Missing, Present("*a/b"));
            var d: Decisions := map[GeneratePattern("Read", input) := Stored("p", Allow, 1, 1)];
            !SomeMatch(glob, d, "Read", input) && !Checked(glob, d, "Read", input, None, d)
  {
    StarDirectoryFails(glob);
  }

  ghost predicate CountsOne(d: Decisions, d': Decisions, q: string) {
    && q in d && d'.Keys == d.Keys
    && forall p :: p in d ==> d'[p] == d[p].(usageCount := d[p].usageCount + if p == q then 1 else 0)
  }

  lemma BumpCountsOne(d: Decisions, q: string)
    requires q in d
    ensures CountsOne(d, Bump(d, q), q)
  {
  }

  /** A check changes no decision and no timestamp, and a hit adds one to the usage of one pattern. */
  lemma CheckOnlyCounts(glob: (string, string) -> bool, d: Decisions, tool: string, input: Input,
                        answer: Answer, d': Decisions)
    requires Checked(glob, d, tool, input, answer, d')
    ensures answer.None? ==> d' == d
    ensures answer.Some? ==> exists q :: CountsOne(d, d', q)
  {
    if answer.Some? {
      var q :| q in d && d' == Bump(d, q);
      BumpCountsOne(d, q);
    }
  }

  // ---- The manager ------------------------------------------------------------------------

  datatype SessionMemory = SessionMemory(workspaceID: string, decisions: Decisions, createdAt: int, lastAccess: int)

  class MemoryManager {
    const ttl: int
    const maxPatterns: int
    const glob: (string, string) -> bool
    var sessions: map<string, SessionMemory>

    constructor (ttl: int, maxPatterns: int, glob: (string, string) -> bool)
      ensures this.ttl == ttl && this.maxPatterns == maxPatterns && this.glob == glob && sessions == map[]
    {
      this.ttl, this.maxPatterns, this.glob := ttl, maxPatterns, glob;
      sessions := map[];
    }

    /** Removes the sessions idle for longer than the TTL. */
    method Cleanup(now: int)
      modifies this
      ensures sessions == map s | s in old(sessions) && now - old(sessions)[s].lastAccess <= ttl :: old(sessions)[s]
    {
      sessions := RemoveIdle(sessions, ttl, now);
    }

    static method RemoveIdle(sessions: map<string, SessionMemory>, ttl: int, now: int)
      returns (rest: map<string, SessionMemory>)
      ensures rest == map s | s in sessions && now - sessions[s].lastAccess <= ttl :: sessions[s]
    {
      rest := sessions;
      var left := sessions.Keys;
      while left != {}
        invariant left <= sessions.Keys
        invariant rest == map s | s in sessions && (s in left || now - sessions[s].lastAccess <= ttl) :: sessions[s]
        decreases |left|
      {
        var s :| s in left;
        if now - rest[s].lastAccess > ttl {
          rest := rest - {s};
        }
        left := left - {s};
      }
    }

    method CheckMemory(sessionID: string, tool: string, input: Input, now: int) returns (answer: Answer)
      modifies this
      ensures sessionID !in old(sessions) ==> answer == None && sessions == old(sessions)
      ensures sessionID in old(sessions) ==>
                && sessions.Keys == old(sessions).Keys
                && sessions == old(sessions)[sessionID := old(sessions)[sessionID].(decisions := sessions[sessionID].decisions,
                                                                                    lastAccess := now)]
                && Checked(glob, old(sessions)[sessionID].decisions, tool, input, answer, sessions[sessionID].decisions)
    {
      var pattern := GeneratePattern(tool, input);
      if sessionID !in sessions {
        return None;
      }
      var mem := sessions[sessionID].(lastAccess := now);
      var decisions;
      answer, decisions := CheckDecisions(glob, mem.decisions, pattern, tool, input);
      sessions := sessions[sessionID := mem.(decisions := decisions)];
    }

    /** The exact key first, then the scan; a hit is counted. */
    static method CheckDecisions(glob: (string, string) -> bool, d: Decisions, pattern: string, tool: string, input: Input)
      returns (answer: Answer, d': Decisions)
      requires pattern == GeneratePattern(tool, input)
      ensures Checked(glob, d, tool, input, answer, d')
    {
      var found, hit := pattern in d, pattern;
      if !found {
        found, hit := ScanFor(glob, d, tool, input);
      }
      if !found {
        return None, d;
      }
      var decision := d[hit];
      decision := decision.(usageCount := decision.usageCount + 1);
      d' := d[hit := decision];
      assert d' == Bump(d, hit);
      answer := Some(decision);
    }

    /** The wildcard scan, in whatever order the map yields its patterns. */
    static method ScanFor(glob: (string, string) -> bool, d: Decisions, tool: string, input: Input)
      returns (found: bool, hit: string)
      ensures found ==> hit in d && MatchPattern(glob, hit, tool, input)
      ensures !found ==> forall p :: p in d ==> !MatchPattern(glob, p, tool, input)
    {
      found, hit := false, "";
      var left := d.Keys;
      while left != {}
        invariant left <= d.Keys
        invariant forall p :: p in d && p !in left ==> !MatchPattern(glob, p, tool, input)
        decreases |left|
      {
        var p :| p in left;
        if MatchPattern(glob, p, tool, input) {
          return true, p;
        }
        left := left - {p};
      }
    }

    /** `order` is the order in which the eviction loop meets the stored patterns. */
    method StoreDecision(sessionID: string, workspaceID: string, pattern: string, decision: Decision, now: int,
                         order: seq<string>)
      requires sessionID in sessions ==> OrderOf(order, sessions[sessionID].decisions.Keys)
      modifies this
      ensures var mem := if sessionID in old(sessions) then old(sessions)[sessionID]
                         else SessionMemory(workspaceID, map[], now, now);
              sessions == old(sessions)[sessionID := mem.(
                decisions := Store(mem.decisions, maxPatterns, if sessionID in old(sessions) then order else [],
                                   pattern, decision, now),
                lastAccess := now)]
    {
      var mem := SessionMemory(workspaceID, map[], now, now);
      var keys: seq<string> := [];
      if sessionID in sessions {
        mem, keys := sessions[sessionID], order;
      }
      var decisions := MakeRoom(mem.decisions, maxPatterns, keys);
      decisions := decisions[pattern := Stored(pattern, decision, now, 1)];
      sessions := sessions[sessionID := mem.(decisions := decisions, lastAccess := now)];
    }

    /** A full cache loses what the loop takes for its oldest decision. */
    static method MakeRoom(d: Decisions, maxPatterns: int, order: seq<string>) returns (room: Decisions)
      requires forall p :: p in order ==> p in d
      ensures room == Room(d, maxPatterns, order)
    {
      room := d;
      if |room| >= maxPatterns {
        var oldest := FindOldest(room, order);
        if oldest != "" {
          room := room - {oldest};
        }
      }
    }

    static method FindOldest(d: Decisions, order: seq<string>) returns (oldest: string)
      requires forall p :: p in order ==> p in d
      ensures oldest == Oldest(d, order)
    {
      oldest := "";
      var oldestTime := 0;
      for i := 0 to |order|
        invariant oldest == Oldest(d, order[..i])
        invariant oldest != "" ==> oldest in d && oldestTime == d[oldest].createdAt
      {
        assert order[..i + 1][..i] == order[..i];
        if oldest == "" || d[order[i]].createdAt < oldestTime {
          oldest, oldestTime := order[i], d[order[i]].createdAt;
        }
      }
      assert order[..|order|] == order;
    }

    method ClearSession(sessionID: string)
      modifies this
      ensures sessions == old(sessions) - {sessionID}
    {
      if sessionID in sessions {
        sessions := sessions - {sessionID};
      }
    }
  }
}
