/** The device registry: which devices hold tokens, and which devices each workspace is bound to. */
module Registry {

  /** A refresh expiry of `ZERO_TIME` was never set. */
  const ZERO_TIME: int := 0

  datatype DeviceSession = DeviceSession(deviceID: string, refreshNonce: string, refreshExpiresAt: int,
                                         accessNonce: string, accessExpiresAt: int, updatedAt: int)

  /** A stored registry may hold a device without a session. */
  datatype Entry = NoSession | Entry(session: DeviceSession)

  /** A stored registry may hold a workspace without a binding set. */
  datatype Bindings = NoBindings | Bindings(boundAt: map<string, int>)

  type Devices = map<string, Entry>
  type Workspaces = map<string, Bindings>

  datatype State = State(devices: Devices, workspaces: Workspaces)

  predicate HasExpired(e: Entry, now: int) {
    e.NoSession? || e.session.refreshExpiresAt == ZERO_TIME || e.session.refreshExpiresAt <= now
  }

  function Expired(devices: Devices, now: int): set<string> {
    set d | d in devices && HasExpired(devices[d], now)
  }

  /** Some device other than the ones gone is bound. */
  predicate Survives(b: Bindings, gone: set<string>) {
    b.Bindings? && b.boundAt.Keys - gone != {}
  }

  /** The workspaces once some devices are gone. */
  function Without(ws: Workspaces, gone: set<string>): Workspaces {
    map w | w in ws && Survives(ws[w], gone) :: Bindings(ws[w].boundAt - gone)
  }

  function Orphans(ws: Workspaces, gone: set<string>): set<string> {
    set w | w in ws && !Survives(ws[w], gone)
  }

  /** Each element of the set exactly once. */
  ghost predicate Lists(q: seq<string>, s: set<string>) {
    && (forall x :: x in q <==> x in s)
    && (forall i, j :: 0 <= i < j < |q| ==> q[i] != q[j])
  }

  lemma ListsAppend(p: seq<string>, a: set<string>, q: seq<string>, b: set<string>)
    requires Lists(p, a) && Lists(q, b) && a !! b
    ensures Lists(p + q, a + b)
  {
    forall i, j | 0 <= i < j < |p + q| ensures (p + q)[i] != (p + q)[j] {
      if i < |p| <= j {
        assert p[i] in a && q[j - |p|] in b;
      }
    }
  }

  lemma ListsSnoc(q: seq<string>, s: set<string>, x: string)
    requires Lists(q, s) && x !in s
    ensures Lists(q + [x], s + {x})
  {
  }

  lemma SurvivesIff(b: Bindings, gone: set<string>)
    requires b.Bindings?
    ensures Survives(b, gone) <==> !(b.boundAt.Keys <= gone)
  {
    if !(b.boundAt.Keys <= gone) {
      var d :| d in b.boundAt.Keys && d !in gone;
      assert d in b.boundAt.Keys - gone;
    }
  }

  /** Why the order in which devices go does not matter: losing some devices and then others leaves
      what losing all at once leaves, and reports the same workspaces, none of them twice. */
  lemma GoneTogether(ws: Workspaces, a: set<string>, b: set<string>)
    ensures Without(Without(ws, a), b) == Without(ws, a + b)
    ensures Orphans(ws, a) + Orphans(Without(ws, a), b) == Orphans(ws, a + b)
    ensures Orphans(ws, a) !! Orphans(Without(ws, a), b)
  {
    var ws' := Without(ws, a);
    forall w | w in ws'
      ensures Survives(ws'[w], b) == Survives(ws[w], a + b) && ws'[w].boundAt - b == ws[w].boundAt - (a + b)
    {
      assert ws'[w].boundAt.Keys - b == ws[w].boundAt.Keys - (a + b);
    }
    forall w | w in ws && !Survives(ws[w], a) ensures !Survives(ws[w], a + b) {
      assert ws[w].Bindings? ==> ws[w].boundAt.Keys - (a + b) <= ws[w].boundAt.Keys - a;
    }
  }

  // ---- Runs -------------------------------------------------------------------------------

  datatype Op =
    | RegisterDevice(deviceID: string, session: DeviceSession)
    | BindWorkspace(deviceID: string, workspaceID: string, at: int)
    | UnbindWorkspace(workspaceID: string)
    | RemoveDevice(deviceID: string)
    | PruneExpired(now: int)

  function Bound(ws: Workspaces, w: string): map<string, int> {
    if w in ws && ws[w].Bindings? then ws[w].boundAt else map[]
  }

  function DoBind(s: State, deviceID: string, workspaceID: string, at: int): State {
    if deviceID == "" || workspaceID == "" || deviceID !in s.devices then s
    else s.(workspaces := s.workspaces[workspaceID := Bindings(Bound(s.workspaces, workspaceID)[deviceID := at])])
  }

  function Lose(s: State, gone: set<string>): State {
    State(s.devices - gone, Without(s.workspaces, gone))
  }

  function DoPrune(s: State, now: int): State {
    var gone := Expired(s.devices, now);
    if gone == {} then s else Lose(s, gone)
  }

  function Apply(s: State, op: Op): State {
    match op
    case RegisterDevice(d, session) => if d == "" then s else s.(devices := s.devices[d := Entry(session)])
    case BindWorkspace(d, w, at) => DoBind(s, d, w, at)
    case UnbindWorkspace(w) => if w == "" then s else s.(workspaces := s.workspaces - {w})
    case RemoveDevice(d) => if d == "" then s else Lose(s, {d})
    case PruneExpired(now) => DoPrune(s, now)
  }

  /** The workspaces an operation reports as orphaned. */
  function Reported(s: State, op: Op): set<string> {
    match op
    case RemoveDevice(d) => if d == "" then {} else Orphans(s.workspaces, {d})
    case PruneExpired(now) =>
      var gone := Expired(s.devices, now);
      if gone == {} then {} else Orphans(s.workspaces, gone)
    case _ => {}
  }

  const EMPTY := State(map[], map[])

  function Run(ops: seq<Op>): State
    decreases |ops|
  {
    if ops == [] then EMPTY else Apply(Run(ops[..|ops| - 1]), ops[|ops| - 1])
  }

  /** Bound devices are registered, and no binding set is missing or empty. */
  ghost predicate Consistent(s: State) {
    forall w :: w in s.workspaces ==>
      && s.workspaces[w].Bindings? && s.workspaces[w].boundAt != map[]
      && s.workspaces[w].boundAt.Keys <= s.devices.Keys
  }

  lemma LoseConsistent(s: State, gone: set<string>)
    requires Consistent(s)
    ensures Consistent(Lose(s, gone))
  {
    var t := Lose(s, gone);
    forall w | w in t.workspaces ensures t.workspaces[w].boundAt != map[] && t.workspaces[w].boundAt.Keys <= t.devices.Keys {
      assert t.workspaces[w].boundAt.Keys == s.workspaces[w].boundAt.Keys - gone;
    }
  }

  lemma ApplyConsistent(s: State, op: Op)
    requires Consistent(s)
    ensures Consistent(Apply(s, op))
  {
    match op
    case BindWorkspace(d, w, at) =>
      var t := DoBind(s, d, w, at);
      assert t != s ==> d in t.workspaces[w].boundAt.Keys && t.workspaces[w].boundAt != map[];
    case RemoveDevice(d) => LoseConsistent(s, {d});
    case PruneExpired(now) => LoseConsistent(s, Expired(s.devices, now));
    case _ =>
  }

  lemma {:induction false} RunConsistent(ops: seq<Op>)
    ensures Consistent(Run(ops))
  {
    if ops != [] {
      RunConsistent(ops[..|ops| - 1]);
      ApplyConsistent(Run(ops[..|ops| - 1]), ops[|ops| - 1]);
    }
  }

  // ---- Pruning ----------------------------------------------------------------------------

  /** What a device is bound to. */
  function BoundTo(s: State, d: string): set<string> {
    set w | w in s.workspaces && d in Bound(s.workspaces, w)
  }

  /** Pruning a registry built by its operations removes exactly the expired devices, reports exactly
      the workspaces bound to expired devices only, and leaves every other device bound to what it
      was, since when it was. */
  lemma PruneIsExact(ops: seq<Op>, now: int, d: string, w: string)
    ensures var s, t := Run(ops), Apply(Run(ops), PruneExpired(now));
            && (d in t.devices <==> d in s.devices && s.devices[d].Entry? && s.devices[d].session.refreshExpiresAt != 0
                                    && s.devices[d].session.refreshExpiresAt > now)
            && (d in t.devices ==> t.devices[d] == s.devices[d])
            && (w in Reported(s, PruneExpired(now)) <==>
                  w in s.workspaces && forall e :: w in BoundTo(s, e) ==> e !in t.devices)
            && (d in t.devices ==> BoundTo(t, d) == BoundTo(s, d))
            && (d in t.devices && w in BoundTo(t, d) ==> Bound(t.workspaces, w)[d] == Bound(s.workspaces, w)[d])
            && (w in s.workspaces ==> (w in t.workspaces <==> w !in Reported(s, PruneExpired(now))))
            && t.workspaces.Keys <= s.workspaces.Keys
  {
    RunConsistent(ops);
    var s, t := Run(ops), Apply(Run(ops), PruneExpired(now));
    var gone := Expired(s.devices, now);
    if w in s.workspaces {
      SurvivesIff(s.workspaces[w], gone);
      assert s.workspaces[w].boundAt.Keys != {};
      assert forall e :: w in BoundTo(s, e) <==> e in s.workspaces[w].boundAt.Keys;
      assert forall e :: e in s.devices ==> (e in gone <==> e !in t.devices);
    }
    assert t.devices == s.devices - gone;
    if d in t.devices {
      forall v ensures v in BoundTo(t, d) <==> v in BoundTo(s, d) {
        if v in BoundTo(s, d) {
          assert d in s.workspaces[v].boundAt.Keys - gone;
        }
      }
    }
  }

  /** A second prune at the same moment finds nothing. */
  lemma PruneOnce(s: State, now: int)
    ensures Reported(DoPrune(s, now), PruneExpired(now)) == {}
    ensures DoPrune(DoPrune(s, now), now) == DoPrune(s, now)
  {
    assert Expired(DoPrune(s, now).devices, now) == {};
  }

  // ---- Every workspace that drops out is reported once -------------------------------------

  /** What the operations before `n` said of a workspace, the latest word winning: bound, or gone. */
  predicate Live(ops: seq<Op>, w: string)
    decreases |ops|
  {
    if ops == [] then false
    else
      var before, op := ops[..|ops| - 1], ops[|ops| - 1];
      if op.BindWorkspace? && op.workspaceID == w && op.deviceID != "" && w != "" && op.deviceID in Run(before).devices then true
      else if (op == UnbindWorkspace(w) && w != "") || w in Reported(Run(before), op) then false
      else Live(before, w)
  }

  lemma {:induction false} StoredIsLive(ops: seq<Op>, w: string)
    ensures w in Run(ops).workspaces <==> Live(ops, w)
  {
    if ops != [] {
      var before, op := ops[..|ops| - 1], ops[|ops| - 1];
      StoredIsLive(before, w);
    }
  }

  /** Over a whole run the reports say exactly which workspaces dropped out: a workspace is stored
      iff the last word on it was a binding, and only a stored one is ever reported, so two reports
      of a workspace have a binding between them. */
  lemma ReportsAreExact(ops: seq<Op>, op: Op, w: string)
    ensures w in Run(ops).workspaces <==> Live(ops, w)
    ensures w in Reported(Run(ops), op) ==> Live(ops, w) && !Live(ops + [op], w)
    ensures w in Run(ops).workspaces && w !in Run(ops + [op]).workspaces ==>
              op == UnbindWorkspace(w) || w in Reported(Run(ops), op)
  {
    assert (ops + [op])[..|ops|] == ops;
    StoredIsLive(ops, w);
    StoredIsLive(ops + [op], w);
  }

  // ---- The registry object ----------------------------------------------------------------

  datatype Outcome = Saved | SaveFailed | MissingDeviceID | MissingWorkspaceID | NotRegistered

  /** `saved` says whether the registry could be written to disk. */
  function SaveLocked(saved: bool): Outcome {
    if saved then Saved else SaveFailed
  }

  /** A device taken out of every workspace but the `rest`. */
  function Thinned(ws: Workspaces, deviceID: string, rest: set<string>): Workspaces {
    map w | w in ws && (w in rest || Survives(ws[w], {deviceID})) ::
      if w in rest then ws[w] else Bindings(ws[w].boundAt - {deviceID})
  }

  lemma KeepOne(ws: Workspaces, deviceID: string, rest: set<string>, w: string)
    requires w in ws && w in rest && Survives(ws[w], {deviceID})
    ensures Thinned(ws, deviceID, rest)[w := Bindings(ws[w].boundAt - {deviceID})] == Thinned(ws, deviceID, rest - {w})
    ensures Orphans(ws, {deviceID}) - rest == Orphans(ws, {deviceID}) - (rest - {w})
  {
  }

  lemma ReportOne(ws: Workspaces, deviceID: string, rest: set<string>, w: string, orphaned: seq<string>)
    requires w in ws && w in rest && !Survives(ws[w], {deviceID})
    requires Lists(orphaned, Orphans(ws, {deviceID}) - rest)
    ensures Thinned(ws, deviceID, rest) - {w} == Thinned(ws, deviceID, rest - {w})
    ensures Lists(orphaned + [w], Orphans(ws, {deviceID}) - (rest - {w}))
  {
    var lost := Orphans(ws, {deviceID}) - rest;
    ListsSnoc(orphaned, lost, w);
    assert lost + {w} == Orphans(ws, {deviceID}) - (rest - {w});
  }

  class AuthRegistry {
    var devices: Devices
    var workspaces: Workspaces

    function Model(): State
      reads this
    {
      State(devices, workspaces)
    }

    constructor ()
      ensures Model() == EMPTY
    {
      devices, workspaces := map[], map[];
    }

    method RegisterDevice(deviceID: string, refreshNonce: string, refreshExpiry: int, accessNonce: string,
                          accessExpiry: int, now: int, saved: bool)
      returns (r: Outcome)
      modifies this
      ensures var session := DeviceSession(deviceID, refreshNonce, refreshExpiry, accessNonce, accessExpiry, now);
              Model() == Apply(old(Model()), Op.RegisterDevice(deviceID, session))
      ensures r == if deviceID == "" then MissingDeviceID else SaveLocked(saved)
    {
      if deviceID == "" {
        return MissingDeviceID;
      }
      var session := DeviceSession(deviceID, refreshNonce, refreshExpiry, accessNonce, accessExpiry, now);
      devices := devices[deviceID := Entry(session)];
      return SaveLocked(saved);
    }

    method BindWorkspace(deviceID: string, workspaceID: string, now: int, saved: bool) returns (r: Outcome)
      requires deviceID != "" && workspaceID != "" && deviceID in devices && workspaceID in workspaces ==>
                 workspaces[workspaceID].Bindings?
      modifies this
      ensures Model() == Apply(old(Model()), Op.BindWorkspace(deviceID, workspaceID, now))
      ensures r == if deviceID == "" then MissingDeviceID
                   else if workspaceID == "" then MissingWorkspaceID
                   else if deviceID !in old(devices) then NotRegistered
                   else SaveLocked(saved)
    {
      if deviceID == "" {
        return MissingDeviceID;
      }
      if workspaceID == "" {
        return MissingWorkspaceID;
      }
      if deviceID !in devices {
        return NotRegistered;
      }
      if workspaceID !in workspaces {
        workspaces := workspaces[workspaceID := Bindings(map[])];
      }
      workspaces := workspaces[workspaceID := Bindings(workspaces[workspaceID].boundAt[deviceID := now])];
      return SaveLocked(saved);
    }

    method UnbindWorkspace(workspaceID: string, saved: bool) returns (r: Outcome)
      modifies this
      ensures Model() == Apply(old(Model()), Op.UnbindWorkspace(workspaceID))
      ensures r == if workspaceID == "" then MissingWorkspaceID else SaveLocked(saved)
    {
      if workspaceID == "" {
        return MissingWorkspaceID;
      }
      workspaces := workspaces - {workspaceID};
      return SaveLocked(saved);
    }

    method RemoveDevice(deviceID: string, saved: bool) returns (orphaned: seq<string>, r: Outcome)
      modifies this
      ensures Model() == Apply(old(Model()), Op.RemoveDevice(deviceID))
      ensures Lists(orphaned, Reported(old(Model()), Op.RemoveDevice(deviceID)))
      ensures r == if deviceID == "" then MissingDeviceID else SaveLocked(saved)
    {
      if deviceID == "" {
        return [], MissingDeviceID;
      }
      devices := devices - {deviceID};
      workspaces, orphaned := PruneDeviceBindings(workspaces, deviceID);
      return orphaned, SaveLocked(saved);
    }

    method PruneExpired(now: int, saved: bool) returns (expired: seq<string>, orphaned: seq<string>, r: Outcome)
      modifies this
      ensures Model() == Apply(old(Model()), Op.PruneExpired(now))
      ensures Lists(expired, Expired(old(devices), now))
      ensures Lists(orphaned, Reported(old(Model()), Op.PruneExpired(now)))
      ensures r == if Expired(old(devices), now) == {} then Saved else SaveLocked(saved)
    {
      expired := CollectExpired(devices, now);
      ghost var gone := Expired(devices, now);
      devices, workspaces, orphaned := LoseAll(devices, workspaces, expired, gone);
      if |expired| == 0 {
        return [], [], Saved;
      }
      assert expired[0] in gone;
      return expired, orphaned, SaveLocked(saved);
    }

    /** The loop over all devices, in whatever order the map yields them. */
    static method CollectExpired(devices: Devices, now: int) returns (expired: seq<string>)
      ensures Lists(expired, Expired(devices, now))
    {
      expired := [];
      var rest := devices.Keys;
      while rest != {}
        invariant rest <= devices.Keys
        invariant Lists(expired, Expired(devices, now) - rest)
        decreases |rest|
      {
        var d :| d in rest;
        if HasExpired(devices[d], now) {
          expired := expired + [d];
        }
        rest := rest - {d};
      }
    }

    static method LoseAll(devices: Devices, workspaces: Workspaces, expired: seq<string>, ghost gone: set<string>)
      returns (devices': Devices, workspaces': Workspaces, orphaned: seq<string>)
      requires Lists(expired, gone)
      ensures expired == [] ==> devices' == devices && workspaces' == workspaces && orphaned == []
      ensures expired != [] ==> devices' == devices - gone && workspaces' == Without(workspaces, gone)
                                && Lists(orphaned, Orphans(workspaces, gone))
    {
      devices', workspaces', orphaned := devices, workspaces, [];
      ghost var lost: set<string> := {};
      for i := 0 to |expired|
        invariant lost == set d | d in expired[..i]
        invariant devices' == devices - lost
        invariant i == 0 ==> workspaces' == workspaces && orphaned == []
        invariant i > 0 ==> workspaces' == Without(workspaces, lost) && Lists(orphaned, Orphans(workspaces, lost))
      {
        var d := expired[i];
        devices' := devices' - {d};
        var more: seq<string>;
        ghost var before := workspaces';
        workspaces', more := PruneDeviceBindings(workspaces', d);
        if i > 0 {
          GoneTogether(workspaces, lost, {d});
        } else {
          assert lost + {d} == {d};
        }
        if i > 0 {
          ListsAppend(orphaned, Orphans(workspaces, lost), more, Orphans(before, {d}));
        } else {
          assert [] + more == more;
        }
        orphaned := orphaned + more;
        lost := lost + {d};
      }
      assert expired[..|expired|] == expired;
      assert lost == gone;
    }

    /** One workspace's turn: whether any binding is left, and which. */
    static method Thin(b: Bindings, deviceID: string) returns (keep: bool, bound: Bindings)
      ensures keep == Survives(b, {deviceID})
      ensures keep ==> bound == Bindings(b.boundAt - {deviceID})
    {
      if b == NoBindings {
        return false, b;
      }
      var left := b.boundAt - {deviceID};
      assert left.Keys == b.boundAt.Keys - {deviceID};
      return |left| != 0, Bindings(left);
    }

    /** The loop over all workspaces, in whatever order the map yields them. */
    static method PruneDeviceBindings(workspaces: Workspaces, deviceID: string)
      returns (left: Workspaces, orphaned: seq<string>)
      ensures left == Without(workspaces, {deviceID})
      ensures Lists(orphaned, Orphans(workspaces, {deviceID}))
    {
      left, orphaned := workspaces, [];
      var rest := workspaces.Keys;
      while rest != {}
        invariant rest <= workspaces.Keys
        invariant left == Thinned(workspaces, deviceID, rest)
        invariant Lists(orphaned, Orphans(workspaces, {deviceID}) - rest)
        decreases |rest|
      {
        var w :| w in rest;
        var keep, bound := Thin(left[w], deviceID);
        if keep {
          KeepOne(workspaces, deviceID, rest, w);
          left := left[w := bound];
        } else {
          ReportOne(workspaces, deviceID, rest, w, orphaned);
          left := left - {w};
          orphaned := orphaned + [w];
        }
        rest := rest - {w};
      }
    }
  }
}
