/** What each registry operation does, told by which devices there are and which is bound to what, since when. */
module RegistryLaws {

  import opened Registry

  predicate IsBound(s: State, device: string, w: string) {
    w in s.workspaces && s.workspaces[w].Bindings? && device in s.workspaces[w].boundAt
  }

  function Since(s: State, device: string, w: string): int
    requires IsBound(s, device, w)
  {
    s.workspaces[w].boundAt[device]
  }

  /** What is bound in both has been so for as long. */
  ghost predicate SameTimes(s: State, t: State) {
    forall d, w :: IsBound(s, d, w) && IsBound(t, d, w) ==> Since(t, d, w) == Since(s, d, w)
  }

  /** A binding adds that one device to that workspace, for a registered device and a named workspace. */
  lemma BindMeans(s: State, device: string, w: string, at: int)
    requires Consistent(s)
    ensures var t := Apply(s, BindWorkspace(device, w, at));
            if device != "" && w != "" && device in s.devices then
              && t.devices == s.devices
              && (forall d, v :: IsBound(t, d, v) <==> IsBound(s, d, v) || (d == device && v == w))
              && Since(t, device, w) == at
              && (forall d, v :: IsBound(s, d, v) && !(d == device && v == w) ==> Since(t, d, v) == Since(s, d, v))
            else t == s
  {
  }

  /** Unbinding a workspace takes every device off it. */
  lemma UnbindMeans(s: State, w: string)
    ensures var t := Apply(s, UnbindWorkspace(w));
            if w != "" then
              && t.devices == s.devices && w !in t.workspaces
              && (forall d, v :: IsBound(t, d, v) <==> IsBound(s, d, v) && v != w)
              && SameTimes(s, t)
            else t == s
  {
  }

  /** Registering a device stores its session and touches nothing else. */
  lemma RegisterMeans(s: State, device: string, session: DeviceSession)
    ensures var t := Apply(s, RegisterDevice(device, session));
            if device != "" then
              && t.workspaces == s.workspaces && device in t.devices && t.devices[device] == Entry(session)
              && (forall d :: d != device ==> (d in t.devices <==> d in s.devices)
                                              && (d in s.devices ==> t.devices[d] == s.devices[d]))
            else t == s
  {
  }

  /** What the loss of some devices leaves: everybody else, with what they were bound to; a workspace goes,
      and is reported, when no other device was bound to it. */
  ghost predicate Loses(s: State, t: State, reported: set<string>, gone: set<string>) {
    && (forall d :: d in t.devices <==> d in s.devices && d !in gone)
    && (forall d :: d in t.devices ==> t.devices[d] == s.devices[d])
    && (forall d, v :: IsBound(t, d, v) <==> IsBound(s, d, v) && d !in gone)
    && SameTimes(s, t)
    && (forall v :: v in reported <==> v in s.workspaces && OnlyThese(s, v, gone))
    && (forall v :: v in t.workspaces <==> v in s.workspaces && v !in reported)
  }

  ghost predicate OnlyThese(s: State, w: string, gone: set<string>) {
    forall d :: IsBound(s, d, w) ==> d in gone
  }

  lemma LoseMeans(s: State, gone: set<string>)
    requires Consistent(s)
    ensures Loses(s, Lose(s, gone), Orphans(s.workspaces, gone), gone)
  {
    var t := Lose(s, gone);
    forall v | v in s.workspaces ensures Survives(s.workspaces[v], gone) <==> !OnlyThese(s, v, gone) {
      SurvivesIff(s.workspaces[v], gone);
      assert forall d :: IsBound(s, d, v) <==> d in s.workspaces[v].boundAt.Keys;
    }
    forall d, v ensures IsBound(t, d, v) <==> IsBound(s, d, v) && d !in gone {
      if v in s.workspaces {
        SurvivesIff(s.workspaces[v], gone);
      }
    }
  }

  lemma RemoveMeans(s: State, device: string)
    requires Consistent(s) && device != ""
    ensures Loses(s, Apply(s, RemoveDevice(device)), Reported(s, RemoveDevice(device)), {device})
    ensures Apply(s, RemoveDevice("")) == s && Reported(s, RemoveDevice("")) == {}
  {
    LoseMeans(s, {device});
  }

  /** Pruning loses the devices without a session, and those whose refresh token has no expiry (0) or has
      expired by now. */
  lemma PruneMeans(s: State, now: int, gone: set<string>)
    requires Consistent(s)
    requires forall d :: d in gone <==> d in s.devices
                                        && (s.devices[d].NoSession? || s.devices[d].session.refreshExpiresAt == 0
                                            || s.devices[d].session.refreshExpiresAt <= now)
    ensures Loses(s, Apply(s, PruneExpired(now)), Reported(s, PruneExpired(now)), gone)
  {
    assert gone == Expired(s.devices, now);
    LoseMeans(s, gone);
    if gone == {} {
      forall v | v in s.workspaces ensures !OnlyThese(s, v, gone) {
        assert s.workspaces[v].boundAt != map[];
        var d :| d in s.workspaces[v].boundAt;
        assert IsBound(s, d, v);
      }
    }
  }
}
