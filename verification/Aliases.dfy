/** Session aliases: a map from old session IDs to newer ones, followed with a cycle guard. */
module Aliases {

  type AliasMap = map<string, string>

  /** Where resolution stops by itself: no alias, an empty one, or one to itself. */
  predicate Terminal(al: AliasMap, id: string) {
    id !in al || al[id] == "" || al[id] == id
  }

  /** One alias followed; a terminal ID stays where it is. */
  function Follow(al: AliasMap, id: string): string {
    if Terminal(al, id) then id else al[id]
  }

  /** Resolution with the IDs already visited, as the loop runs it. */
  function ResolveFrom(al: AliasMap, id: string, visited: set<string>): string
    decreases al.Keys - visited
  {
    if Terminal(al, id) then id
    else if id in visited then id
    else ResolveFrom(al, al[id], visited + {id})
  }

  function Resolve(al: AliasMap, id: string): string {
    ResolveFrom(al, id, {})
  }

  /** The loop itself, for any map, cycles included; it ends because the keys not yet visited run
      out. */
  method ResolveSessionID(al: AliasMap, sessionID: string) returns (currentID: string)
    ensures currentID == Resolve(al, sessionID)
  {
    currentID := sessionID;
    var visited: set<string> := {};
    while true
      invariant ResolveFrom(al, currentID, visited) == Resolve(al, sessionID)
      decreases al.Keys - visited
    {
      if currentID !in al || al[currentID] == "" || al[currentID] == currentID {
        return;
      }
      if currentID in visited {
        return;
      }
      visited := visited + {currentID};
      currentID := al[currentID];
    }
  }

  // ---- What resolution means --------------------------------------------------------------

  function Iterate(al: AliasMap, id: string, n: nat): string {
    if n == 0 then id else Follow(al, Iterate(al, id, n - 1))
  }

  /** Following aliases from `id` comes back to `id`: it is terminal, or lies on a cycle. */
  ghost predicate Recurrent(al: AliasMap, id: string) {
    exists p :: p > 0 && Iterate(al, id, p) == id
  }

  lemma {:induction false} IterateAdd(al: AliasMap, id: string, a: nat, b: nat)
    ensures Iterate(al, Iterate(al, id, a), b) == Iterate(al, id, a + b)
  {
    if b > 0 {
      IterateAdd(al, id, a, b - 1);
    }
  }

  lemma {:induction false} IteratePeriod(al: AliasMap, id: string, p: nat, t: nat)
    requires Iterate(al, id, p) == id
    ensures Iterate(al, id, p * t) == id
  {
    if t > 0 {
      IteratePeriod(al, id, p, t - 1);
      IterateAdd(al, id, p * (t - 1), p);
      assert p * (t - 1) + p == p * t;
    }
  }

  ghost predicate OnTheWay(al: AliasMap, id: string, k: nat, v: string) {
    exists m :: 0 <= m < k && Iterate(al, id, m) == v
  }

  /** Everything visited by step `k` is an earlier iterate, none terminal, none met twice. */
  ghost predicate Walked(al: AliasMap, id: string, k: nat, visited: set<string>) {
    && AllVisited(al, id, k, visited)
    && (forall v :: v in visited ==> OnTheWay(al, id, k, v))
    && NoneTwice(al, id, k)
  }

  ghost predicate AllVisited(al: AliasMap, id: string, k: nat, visited: set<string>) {
    forall m :: 0 <= m < k ==> Iterate(al, id, m) in visited && !Terminal(al, Iterate(al, id, m))
  }

  ghost predicate NoneTwice(al: AliasMap, id: string, k: nat) {
    forall m, n :: 0 <= m < n < k ==> Iterate(al, id, m) != Iterate(al, id, n)
  }

  ghost predicate FirstRecurrent(al: AliasMap, id: string, n: nat) {
    && Recurrent(al, Iterate(al, id, n))
    && forall m :: 0 <= m < n ==> !Recurrent(al, Iterate(al, id, m))
  }

  /** A recurrent iterate shows up again arbitrarily late. */
  lemma RecurrentReturns(al: AliasMap, id: string, m: nat, bound: nat) returns (q: nat)
    requires Recurrent(al, Iterate(al, id, m))
    ensures q >= bound && Iterate(al, id, q) == Iterate(al, id, m)
  {
    var p :| p > 0 && Iterate(al, Iterate(al, id, m), p) == Iterate(al, id, m);
    IteratePeriod(al, Iterate(al, id, m), p, bound);
    IterateAdd(al, id, m, p * bound);
    q := m + p * bound;
    assert p * bound >= bound;
  }

  lemma {:induction false} TerminalStays(al: AliasMap, id: string, k: nat, q: nat)
    requires k <= q && Terminal(al, Iterate(al, id, k))
    ensures Iterate(al, id, q) == Iterate(al, id, k)
  {
    if k < q {
      TerminalStays(al, id, k, q - 1);
    }
  }

  /** Once step `k` is back at step `j`, every later iterate lies between the two. */
  lemma {:induction false} LaterInCycle(al: AliasMap, id: string, j: nat, k: nat, q: nat) returns (r: nat)
    requires j < k && Iterate(al, id, j) == Iterate(al, id, k) && j <= q
    ensures j <= r < k && Iterate(al, id, r) == Iterate(al, id, q)
  {
    if q < k {
      r := q;
    } else {
      IterateAdd(al, id, k, q - k);
      IterateAdd(al, id, j, q - k);
      r := LaterInCycle(al, id, j, k, q - (k - j));
    }
  }

  lemma TerminalIsFirst(al: AliasMap, id: string, k: nat, visited: set<string>)
    requires Walked(al, id, k, visited) && Terminal(al, Iterate(al, id, k))
    ensures FirstRecurrent(al, id, k)
  {
    var current := Iterate(al, id, k);
    assert Iterate(al, current, 1) == Follow(al, Iterate(al, current, 0)) == current;
    forall m | 0 <= m < k ensures !Recurrent(al, Iterate(al, id, m)) {
      if Recurrent(al, Iterate(al, id, m)) {
        var q := RecurrentReturns(al, id, m, k);
        TerminalStays(al, id, k, q);
      }
    }
  }

  lemma RevisitIsFirst(al: AliasMap, id: string, j: nat, k: nat, visited: set<string>)
    requires Walked(al, id, k, visited) && j < k && Iterate(al, id, j) == Iterate(al, id, k)
    ensures FirstRecurrent(al, id, j)
  {
    IterateAdd(al, id, j, k - j);
    assert Iterate(al, Iterate(al, id, j), k - j) == Iterate(al, id, j);
    forall m | 0 <= m < j ensures !Recurrent(al, Iterate(al, id, m)) {
      if Recurrent(al, Iterate(al, id, m)) {
        var q := RecurrentReturns(al, id, m, j);
        var r := LaterInCycle(al, id, j, k, q);
      }
    }
  }

  lemma WalkOn(al: AliasMap, id: string, k: nat, visited: set<string>)
    requires Walked(al, id, k, visited)
    requires !Terminal(al, Iterate(al, id, k)) && Iterate(al, id, k) !in visited
    ensures Walked(al, id, k + 1, visited + {Iterate(al, id, k)})
  {
    var current := Iterate(al, id, k);
    forall v | v in visited + {current} ensures OnTheWay(al, id, k + 1, v) {
      if v in visited {
        StillOnTheWay(al, id, k, v);
      } else {
        HereOnTheWay(al, id, k);
      }
    }
    OneMoreVisited(al, id, k, visited);
    StillNoneTwice(al, id, k, visited);
  }

  lemma OneMoreVisited(al: AliasMap, id: string, k: nat, visited: set<string>)
    requires AllVisited(al, id, k, visited) && !Terminal(al, Iterate(al, id, k))
    ensures AllVisited(al, id, k + 1, visited + {Iterate(al, id, k)})
  {
  }

  lemma HereOnTheWay(al: AliasMap, id: string, k: nat)
    ensures OnTheWay(al, id, k + 1, Iterate(al, id, k))
  {
    assert 0 <= k < k + 1;
  }

  lemma StillNoneTwice(al: AliasMap, id: string, k: nat, visited: set<string>)
    requires AllVisited(al, id, k, visited) && NoneTwice(al, id, k) && Iterate(al, id, k) !in visited
    ensures NoneTwice(al, id, k + 1)
  {
    forall m, n | 0 <= m < n < k + 1 ensures Iterate(al, id, m) != Iterate(al, id, n) {
      if n == k {
        assert Iterate(al, id, m) in visited;
      }
    }
  }

  lemma StillOnTheWay(al: AliasMap, id: string, k: nat, v: string)
    requires OnTheWay(al, id, k, v)
    ensures OnTheWay(al, id, k + 1, v)
  {
    var m :| 0 <= m < k && Iterate(al, id, m) == v;
    assert 0 <= m < k + 1 && Iterate(al, id, m) == v;
  }

  lemma {:induction false} ResolveFromIsFirst(al: AliasMap, id: string, k: nat, visited: set<string>)
    returns (n: nat)
    requires Walked(al, id, k, visited)
    ensures ResolveFrom(al, Iterate(al, id, k), visited) == Iterate(al, id, n)
    ensures FirstRecurrent(al, id, n)
    decreases al.Keys - visited
  {
    var current := Iterate(al, id, k);
    if Terminal(al, current) {
      n := k;
      TerminalIsFirst(al, id, k, visited);
    } else if current in visited {
      n :| 0 <= n < k && Iterate(al, id, n) == current;
      RevisitIsFirst(al, id, n, k, visited);
    } else {
      WalkOn(al, id, k, visited);
      assert Iterate(al, id, k + 1) == al[current];
      n := ResolveFromIsFirst(al, id, k + 1, visited + {current});
    }
  }

  /** For every alias map, resolution stops at the first ID on the way that following aliases would
      come back to: the terminal ID if there is one, otherwise the first node of the cycle. */
  lemma ResolveIsFirstRecurrent(al: AliasMap, id: string) returns (n: nat)
    ensures Resolve(al, id) == Iterate(al, id, n)
    ensures Recurrent(al, Resolve(al, id))
    ensures forall m :: 0 <= m < n ==> !Recurrent(al, Iterate(al, id, m))
  {
    n := ResolveFromIsFirst(al, id, 0, {});
  }

  /** Resolving a resolved ID changes nothing, on every alias map. */
  lemma ResolveIdempotent(al: AliasMap, id: string)
    ensures Resolve(al, Resolve(al, id)) == Resolve(al, id)
  {
    var n := ResolveIsFirstRecurrent(al, id);
    var r := Resolve(al, id);
    var m := ResolveIsFirstRecurrent(al, r);
    assert Iterate(al, r, 0) == r;
  }

  // ---- Acyclic maps -----------------------------------------------------------------------

  ghost predicate Acyclic(al: AliasMap) {
    forall id :: Terminal(al, Resolve(al, id))
  }

  /** `id` comes to the terminal ID `root` in exactly `n` steps. */
  predicate Reaches(al: AliasMap, id: string, root: string, n: nat)
    decreases n
  {
    if n == 0 then id == root && Terminal(al, id)
    else !Terminal(al, id) && Reaches(al, al[id], root, n - 1)
  }

  lemma {:induction false} ReachesUnique(al: AliasMap, id: string, root: string, n: nat, root': string, n': nat)
    requires Reaches(al, id, root, n) && Reaches(al, id, root', n')
    ensures root == root' && n == n'
    decreases n
  {
    if n > 0 && n' > 0 {
      ReachesUnique(al, al[id], root, n - 1, root', n' - 1);
    }
  }

  ghost predicate Farther(al: AliasMap, id: string, root: string, n: nat) {
    exists m: nat :: m > n && Reaches(al, id, root, m)
  }

  lemma {:induction false} ReachesResolves(al: AliasMap, id: string, root: string, n: nat, visited: set<string>)
    requires Reaches(al, id, root, n)
    requires forall v :: v in visited ==> Farther(al, v, root, n)
    ensures ResolveFrom(al, id, visited) == root
    decreases n
  {
    if n > 0 {
      if id in visited {
        var m: nat :| m > n && Reaches(al, id, root, m);
        ReachesUnique(al, id, root, n, root, m);
      } else {
        forall v | v in visited + {id} ensures Farther(al, v, root, n - 1) {
          if v != id {
            assert Farther(al, v, root, n);
          }
        }
        ReachesResolves(al, al[id], root, n - 1, visited + {id});
      }
    }
  }

  lemma {:induction false} IterateReaches(al: AliasMap, id: string, n: nat) returns (k: nat)
    requires Terminal(al, Iterate(al, id, n))
    ensures Reaches(al, id, Iterate(al, id, n), k)
    decreases n
  {
    if Terminal(al, id) {
      assert Iterate(al, id, 0) == id;
      TerminalStays(al, id, 0, n);
      k := 0;
    } else {
      assert n > 0;
      IterateAdd(al, id, 1, n - 1);
      assert Iterate(al, id, 1) == Follow(al, Iterate(al, id, 0)) == al[id];
      k := IterateReaches(al, al[id], n - 1);
      k := k + 1;
    }
  }

  lemma AcyclicReaches(al: AliasMap, id: string) returns (n: nat)
    requires Acyclic(al)
    ensures Reaches(al, id, Resolve(al, id), n)
  {
    var k := ResolveIsFirstRecurrent(al, id);
    assert Terminal(al, Resolve(al, id));
    n := IterateReaches(al, id, k);
  }

  // ---- Recording the real ID of a session -------------------------------------------------

  /** Every alias to `root` now points to `realID`. */
  function Redirect(al: AliasMap, root: string, realID: string): AliasMap {
    map id | id in al :: if al[id] == root then realID else al[id]
  }

  datatype Branch = AlreadyThere | RealExists | NoSession | ReKey

  function BranchOf(al: AliasMap, sessionIDs: set<string>, tempID: string, realID: string): Branch {
    var root := Resolve(al, tempID);
    if root == realID then AlreadyThere
    else if realID in sessionIDs then RealExists
    else if root !in sessionIDs then NoSession
    else ReKey
  }

  /** The alias map after `updateSessionID`. */
  function Updated(al: AliasMap, sessionIDs: set<string>, tempID: string, realID: string): AliasMap {
    var root := Resolve(al, tempID);
    match BranchOf(al, sessionIDs, tempID, realID)
    case AlreadyThere => al[tempID := realID]
    case RealExists => if root != tempID then al[tempID := realID][root := realID] else al[tempID := realID]
    case NoSession => al
    case ReKey => Redirect(al[tempID := realID][root := realID], root, realID)
  }

  /** The update is a union step: everything that resolved to the canonical ID of `tempID` now
      resolves to `realID`, every other resolution is as before, and no cycle has appeared. */
  ghost predicate UnionStep(al: AliasMap, al': AliasMap, root: string, realID: string) {
    && Acyclic(al')
    && forall id :: Resolve(al', id) == if Resolve(al, id) == root then realID else Resolve(al, id)
  }

  /** What a caller can check beforehand: the real ID is not itself an alias of something else.  Two
      harmless exceptions: it is the temporary ID, or (when the session is re-keyed) it points
      straight at the canonical ID, which the redirection turns around.  An empty real ID is free only
      if it is the canonical ID; and re-keying an empty canonical ID takes along every ID with an empty
      alias, so there must be none. */
  predicate RealIsFree(al: AliasMap, sessionIDs: set<string>, tempID: string, realID: string) {
    var root := Resolve(al, tempID);
    var rekeys := root != realID && realID !in sessionIDs && root in sessionIDs;
    if realID == "" then root == ""
    else if root == "" then
      Terminal(al, realID) && (rekeys ==> forall id :: id in al && al[id] == "" ==> id == "" || id == realID)
    else
      Terminal(al, realID) || realID == tempID || (rekeys && al[realID] == root)
  }

  /** An update changes nothing when the canonical ID is not the real one and neither has a session. */
  predicate FindsSession(al: AliasMap, sessionIDs: set<string>, tempID: string, realID: string) {
    Resolve(al, tempID) == realID || realID in sessionIDs || Resolve(al, tempID) in sessionIDs
  }

  lemma {:induction false} UpdatedReaches(al: AliasMap, sessionIDs: set<string>, tempID: string, realID: string,
                                          id: string, root: string, n: nat)
    returns (k: nat)
    requires Resolve(al, tempID) != "" && realID != "" && Acyclic(al)
    requires !BranchOf(al, sessionIDs, tempID, realID).NoSession?
    requires RealIsFree(al, sessionIDs, tempID, realID)
    requires Reaches(al, id, root, n)
    ensures Reaches(Updated(al, sessionIDs, tempID, realID), id,
                    if root == Resolve(al, tempID) then realID else root, k)
    decreases n
  {
    var al' := Updated(al, sessionIDs, tempID, realID);
    var canonical := Resolve(al, tempID);
    var t := AcyclicReaches(al, tempID);
    CanonicalTerminal(al, tempID);
    if id == realID && (realID == tempID || realID == canonical || !Terminal(al, realID)) {
      RealResolves(al, sessionIDs, tempID, realID, root, n);
      k := 0;
    } else if id == tempID || id == canonical {
      RealTerminal(al, sessionIDs, tempID, realID);
      if id == tempID {
        ReachesUnique(al, tempID, canonical, t, root, n);
      }
      assert al'[id] == realID;
      k := 1;
    } else if n == 0 {
      assert Terminal(al', id);
      k := 0;
    } else if BranchOf(al, sessionIDs, tempID, realID).ReKey? && al[id] == canonical {
      RealTerminal(al, sessionIDs, tempID, realID);
      assert al'[id] == realID;
      ReachesUnique(al, canonical, canonical, 0, root, n - 1);
      k := 1;
    } else {
      k := UpdatedReaches(al, sessionIDs, tempID, realID, al[id], root, n - 1);
      k := k + 1;
    }
  }

  lemma CanonicalTerminal(al: AliasMap, tempID: string)
    requires Acyclic(al)
    ensures Terminal(al, Resolve(al, tempID))
    ensures Resolve(al, tempID) == "" ==> tempID == ""
  {
    var n := AcyclicReaches(al, tempID);
    if tempID != "" {
      ReachesNotEmpty(al, tempID, Resolve(al, tempID), n);
    }
  }

  lemma {:induction false} ReachesNotEmpty(al: AliasMap, id: string, root: string, n: nat)
    requires id != "" && Reaches(al, id, root, n)
    ensures root != ""
    decreases n
  {
    if n > 0 {
      ReachesNotEmpty(al, al[id], root, n - 1);
    }
  }

  lemma RealTerminal(al: AliasMap, sessionIDs: set<string>, tempID: string, realID: string)
    requires Resolve(al, tempID) != "" && realID != "" && Acyclic(al)
    requires !BranchOf(al, sessionIDs, tempID, realID).NoSession?
    requires RealIsFree(al, sessionIDs, tempID, realID)
    ensures Terminal(Updated(al, sessionIDs, tempID, realID), realID)
  {
    CanonicalTerminal(al, tempID);
  }

  lemma RealResolves(al: AliasMap, sessionIDs: set<string>, tempID: string, realID: string, root: string, n: nat)
    requires Resolve(al, tempID) != "" && realID != "" && Acyclic(al)
    requires !BranchOf(al, sessionIDs, tempID, realID).NoSession?
    requires RealIsFree(al, sessionIDs, tempID, realID)
    requires Reaches(al, realID, root, n)
    requires realID == tempID || realID == Resolve(al, tempID) || !Terminal(al, realID)
    ensures root == Resolve(al, tempID) && Terminal(Updated(al, sessionIDs, tempID, realID), realID)
  {
    RealTerminal(al, sessionIDs, tempID, realID);
    CanonicalTerminal(al, tempID);
    var canonical := Resolve(al, tempID);
    if realID == tempID {
      var t := AcyclicReaches(al, tempID);
      ReachesUnique(al, realID, root, n, canonical, t);
    } else if Terminal(al, realID) {
      assert Reaches(al, realID, realID, 0);
      ReachesUnique(al, realID, root, n, realID, 0);
    } else {
      assert Reaches(al, al[realID], canonical, 0);
      ReachesUnique(al, al[realID], root, n - 1, canonical, 0);
    }
  }

  /** The same when the canonical ID is empty, which only the empty temporary ID has. */
  lemma {:induction false} EmptyRootReaches(al: AliasMap, sessionIDs: set<string>, tempID: string, realID: string,
                                            id: string, root: string, n: nat)
    returns (k: nat)
    requires Resolve(al, tempID) == "" && Acyclic(al)
    requires !BranchOf(al, sessionIDs, tempID, realID).NoSession?
    requires RealIsFree(al, sessionIDs, tempID, realID)
    requires Reaches(al, id, root, n)
    ensures Reaches(Updated(al, sessionIDs, tempID, realID), id, if root == "" then realID else root, k)
    decreases n
  {
    var al' := Updated(al, sessionIDs, tempID, realID);
    CanonicalTerminal(al, tempID);
    if id == "" {
      if realID == "" {
        k := 0;
      } else {
        assert Terminal(al', realID) && al'[""] == realID;
        assert Reaches(al', realID, realID, 0);
        k := 1;
      }
    } else if n == 0 {
      k := 0;
    } else {
      ReachesNotEmpty(al, id, root, n);
      k := EmptyRootReaches(al, sessionIDs, tempID, realID, al[id], root, n - 1);
      k := k + 1;
    }
  }

  /** Where every ID leads after an update whose real ID is free. */
  lemma FreeMeansUnion(al: AliasMap, sessionIDs: set<string>, tempID: string, realID: string, id: string)
    requires Acyclic(al) && !BranchOf(al, sessionIDs, tempID, realID).NoSession?
    requires RealIsFree(al, sessionIDs, tempID, realID)
    ensures var al' := Updated(al, sessionIDs, tempID, realID);
            && Resolve(al', id) == (if Resolve(al, id) == Resolve(al, tempID) then realID else Resolve(al, id))
            && Terminal(al', Resolve(al', id))
  {
    var al' := Updated(al, sessionIDs, tempID, realID);
    var canonical := Resolve(al, tempID);
    var target := if Resolve(al, id) == canonical then realID else Resolve(al, id);
    var n := AcyclicReaches(al, id);
    var k;
    if canonical == "" {
      k := EmptyRootReaches(al, sessionIDs, tempID, realID, id, Resolve(al, id), n);
    } else {
      k := UpdatedReaches(al, sessionIDs, tempID, realID, id, Resolve(al, id), n);
    }
    ReachesResolves(al', id, target, k, {});
    ReachesEnd(al', id, target, k);
  }

  /** On every acyclic alias map, an update that finds a session is a union step exactly when the real
      ID is free. */
  lemma UpdateIsUnion(al: AliasMap, sessionIDs: set<string>, tempID: string, realID: string)
    requires Acyclic(al) && FindsSession(al, sessionIDs, tempID, realID)
    ensures UnionStep(al, Updated(al, sessionIDs, tempID, realID), Resolve(al, tempID), realID)
            <==> RealIsFree(al, sessionIDs, tempID, realID)
  {
    var al' := Updated(al, sessionIDs, tempID, realID);
    if RealIsFree(al, sessionIDs, tempID, realID) {
      forall id
        ensures Resolve(al', id) == if Resolve(al, id) == Resolve(al, tempID) then realID else Resolve(al, id)
        ensures Terminal(al', Resolve(al', id))
      {
        FreeMeansUnion(al, sessionIDs, tempID, realID, id);
      }
    }
    if UnionStep(al, al', Resolve(al, tempID), realID) {
      UnionForcesFree(al, sessionIDs, tempID, realID);
    }
  }

  lemma UnionForcesFree(al: AliasMap, sessionIDs: set<string>, tempID: string, realID: string)
    requires Acyclic(al) && !BranchOf(al, sessionIDs, tempID, realID).NoSession?
    requires UnionStep(al, Updated(al, sessionIDs, tempID, realID), Resolve(al, tempID), realID)
    ensures RealIsFree(al, sessionIDs, tempID, realID)
  {
    var al' := Updated(al, sessionIDs, tempID, realID);
    var canonical := Resolve(al, tempID);
    CanonicalTerminal(al, tempID);
    assert Resolve(al', tempID) == realID;
    assert Terminal(al', Resolve(al', tempID));
    assert Resolve(al, canonical) == canonical;
    assert Resolve(al', canonical) == realID;
    if canonical == "" && BranchOf(al, sessionIDs, tempID, realID).ReKey? {
      forall id | id in al && al[id] == "" ensures id == "" || id == realID {
        assert Resolve(al, id) == id;
        assert id != "" ==> Resolve(al', id) == id && Terminal(al', id);
      }
    }
  }

  lemma {:induction false} ReachesEnd(al: AliasMap, id: string, root: string, n: nat)
    requires Reaches(al, id, root, n)
    ensures Terminal(al, root)
    decreases n
  {
    if n > 0 {
      ReachesEnd(al, al[id], root, n - 1);
    }
  }

  /** Why the condition is needed: with `realID` an alias two steps from the canonical ID, the update
      closes a cycle. */
  lemma UnionNeedsFreeReal()
    ensures var al := map["r" := "a", "a" := "t"];
            && Acyclic(al)
            && BranchOf(al, {"t"}, "t", "r") == ReKey
            && !Acyclic(Updated(al, {"t"}, "t", "r"))
  {
    var al: AliasMap := map["r" := "a", "a" := "t"];
    ChainOfTwo();
    assert Resolve(al, "t") == "t";
    var al' := Updated(al, {"t"}, "t", "r");
    assert al' == map["r" := "a", "a" := "r", "t" := "r"];
    CycleOfTwo(al');
  }

  lemma ChainOfTwo()
    ensures Acyclic(map["r" := "a", "a" := "t"])
  {
    var al: AliasMap := map["r" := "a", "a" := "t"];
    assert Reaches(al, "t", "t", 0) && Reaches(al, "a", "t", 1) && Reaches(al, "r", "t", 2);
    forall id ensures Terminal(al, Resolve(al, id)) {
      if id == "r" {
        ReachesResolves(al, "r", "t", 2, {});
      } else if id == "a" {
        ReachesResolves(al, "a", "t", 1, {});
      }
    }
  }

  lemma CycleOfTwo(al: AliasMap)
    requires "r" in al && al["r"] == "a" && "a" in al && al["a"] == "r"
    ensures !Acyclic(al)
  {
    assert Iterate(al, "r", 0) == "r";
    assert Iterate(al, "r", 1) == "a";
    assert Iterate(al, "r", 2) == "r";
    assert Recurrent(al, "r");
    var n := ResolveIsFirstRecurrent(al, "r");
    assert n == 0;
    assert !Terminal(al, Resolve(al, "r"));
  }
}
