/** What each watch operation does, told only by who watches what and which streamer serves it. */
module WatchLaws {

  import opened WatchModel
  import Text

  // ---- The order in which an unwatch request looks for a session ------------------------------

  /** The order of two different strings: decided where they first differ, a string before its extensions. */
  ghost predicate Before(a: string, b: string) {
    (a < b) || exists i :: DifferAt(a, b, i) && a[i] < b[i]
  }

  predicate DifferAt(a: string, b: string, i: int) {
    0 <= i < |a| && i < |b| && a[i] != b[i] && a[..i] == b[..i]
  }

  lemma {:induction false} LessMeans(a: string, b: string)
    ensures Text.Less(a, b) <==> Before(a, b)
  {
    if a != "" && b != "" && a[0] == b[0] {
      LessMeans(a[1..], b[1..]);
      assert a == [a[0]] + a[1..] && b == [b[0]] + b[1..];
      if i :| DifferAt(a, b, i) && a[i] < b[i] {
        assert a[1..][..i - 1] == a[..i][1..] && b[1..][..i - 1] == b[..i][1..];
        assert DifferAt(a[1..], b[1..], i - 1);
      }
      if i :| DifferAt(a[1..], b[1..], i) && a[1..][i] < b[1..][i] {
        assert a[..i + 1] == [a[0]] + a[1..][..i] && b[..i + 1] == [b[0]] + b[1..][..i];
        assert DifferAt(a, b, i + 1);
      }
    } else if a != "" && b != "" {
      assert DifferAt(a, b, 0);
      forall i | DifferAt(a, b, i) ensures i == 0 || a[0] == b[0] {
        SameStart(a, b, i);
      }
    }
  }

  lemma SameStart(a: string, b: string, i: int)
    requires DifferAt(a, b, i)
    ensures i == 0 || a[0] == b[0]
  {
    if i > 0 {
      assert a[0] == a[..i][0] && b[0] == b[..i][0];
    }
  }

  /** The workspace decides first, then the session. */
  lemma KeyLessMeans(a: Key, b: Key)
    ensures KeyLess(a, b)
            <==> Before(a.workspaceID, b.workspaceID)
                 || (a.workspaceID == b.workspaceID && Before(a.sessionID, b.sessionID))
  {
    LessMeans(a.workspaceID, b.workspaceID);
    LessMeans(a.sessionID, b.sessionID);
  }

  // ---- The operations -------------------------------------------------------------------------

  /** Nothing but `watches` changed: a session still watched is served by the streamer it had, and a
      streamer is ended, once, exactly when it served a session that is no longer streamed. */
  ghost predicate Serves(s: State, t: State) {
    && (forall k :: k in s.streams && k in t.streams ==> t.streams[k].streamer == s.streams[k].streamer)
    && (forall n: nat :: t.ended[n] == s.ended[n] + if Holds(s, n) && !Holds(t, n) then 1 else 0)
  }

  /** A session is streamed exactly while somebody watches it. */
  lemma StreamedIsWatched(s: State, key: Key)
    requires Consistent(s)
    ensures key in s.streams <==> exists c :: Watches(s, c, key)
  {
    if key in s.streams {
      var c :| c in s.streams[key].watchers;
      assert Watches(s, c, key);
    }
  }

  /** Watching adds that one pair, when the session is streamed already or a streamer starts for it; a new
      streamer is started only for a session that has none. */
  lemma WatchMeans(s: State, client: string, key: Key, starts: bool)
    requires Consistent(s)
    ensures var t := DoWatch(s, client, key, starts);
            && (forall c, k :: Watches(t, c, k)
                               <==> Watches(s, c, k) || (c == client && k == key && (key in s.streams || starts)))
            && t.started == s.started + (if key !in s.streams && starts then 1 else 0)
            && (key !in s.streams && starts ==> key in t.streams && t.streams[key].streamer == s.started)
            && Serves(s, t)
  {
    var t := DoWatch(s, client, key, starts);
    WatchKeeps(s, client, key, starts);
    forall n: nat ensures t.ended[n] == s.ended[n] + if Holds(s, n) && !Holds(t, n) then 1 else 0 {
      if k :| k in s.streams && s.streams[k].streamer == n {
        assert k in t.streams && t.streams[k].streamer == n;
      }
    }
  }

  /** A session the request may mean: one the client watches, of the given ID unless that is empty. */
  predicate Wanted(s: State, client: string, sessionID: string, k: Key) {
    Watches(s, client, k) && (sessionID == "" || k.sessionID == sessionID)
  }

  lemma CandidatesMean(s: State, client: string, sessionID: string, k: Key)
    requires Consistent(s)
    ensures k in Candidates(s, client, sessionID) <==> Wanted(s, client, sessionID, k)
  {
    assert Watches(s, client, k) <==> k in KeysOf(s, client);
  }

  ghost predicate FirstWanted(s: State, client: string, sessionID: string, target: Key) {
    && Wanted(s, client, sessionID, target)
    && forall k :: Wanted(s, client, sessionID, k) && k != target ==> KeyLess(target, k)
  }

  /** Unwatching removes the one pair of the client and the first session it may mean, or nothing. */
  lemma UnwatchMeans(s: State, client: string, sessionID: string)
    requires Consistent(s)
    ensures var t := DoUnwatch(s, client, sessionID);
            && (forall c, k :: Watches(t, c, k)
                               <==> Watches(s, c, k) && !(c == client && FirstWanted(s, client, sessionID, k)))
            && ((exists k :: Wanted(s, client, sessionID, k)) ==> exists k :: FirstWanted(s, client, sessionID, k))
            && t.started == s.started && Serves(s, t)
  {
    var candidates := Candidates(s, client, sessionID);
    forall k ensures k in candidates <==> Wanted(s, client, sessionID, k) {
      CandidatesMean(s, client, sessionID, k);
    }
    if candidates != {} {
      var target := Least(candidates);
      assert FirstWanted(s, client, sessionID, target);
      forall k | FirstWanted(s, client, sessionID, k) ensures k == target {
        KeyLessTotal(k, target);
      }
      DropMeans(s, client, target);
    } else {
      assert forall k :: !FirstWanted(s, client, sessionID, k);
    }
  }

  lemma DropMeans(s: State, client: string, target: Key)
    requires Consistent(s) && Watches(s, client, target) && target in KeysOf(s, client)
    ensures var t := DropWatch(s, client, target);
            && (forall c, k :: Watches(t, c, k) <==> Watches(s, c, k) && !(c == client && k == target))
            && t.started == s.started && Serves(s, t)
  {
    DropKeeps(s, client, target);
    EndedByDifference(s, DropWatch(s, client, target));
  }

  lemma EndedByDifference(s: State, t: State)
    requires EndedOnce(s) && EndedOnce(t) && t.started == s.started
    requires t.streams.Keys <= s.streams.Keys
    requires forall k :: k in t.streams ==> t.streams[k].streamer == s.streams[k].streamer
    ensures Serves(s, t)
  {
    forall n: nat ensures t.ended[n] == s.ended[n] + if Holds(s, n) && !Holds(t, n) then 1 else 0 {
      if Holds(s, n) {
        var k :| k in s.streams && s.streams[k].streamer == n;
        assert n < s.started;
      } else {
        StillHeld(s, t, n, s.streams.Keys);
      }
    }
  }

  /** A client that disconnects watches nothing any more, and nobody else notices. */
  lemma DisconnectMeans(s: State, client: string)
    requires Consistent(s)
    ensures var t := DoDisconnect(s, client);
            && KeysOf(t, client) == {}
            && (forall c, k :: Watches(t, c, k) <==> Watches(s, c, k) && c != client)
            && t.started == s.started && Serves(s, t)
  {
    var t := DoDisconnect(s, client);
    DisconnectKeeps(s, client);
    EndedByDifference(s, t);
    forall c, k ensures Watches(t, c, k) <==> Watches(s, c, k) && c != client {
      assert Watches(s, c, k) <==> k in KeysOf(s, c);
      assert Watches(t, c, k) <==> k in KeysOf(t, c);
    }
  }

  /** Nobody watches a session that was stopped, and all else stays. */
  lemma StopLiveMeans(s: State, key: Key)
    requires Consistent(s)
    ensures var t := DoStopLive(s, key);
            && (forall c, k :: Watches(t, c, k) <==> Watches(s, c, k) && k != key)
            && (forall c :: key !in KeysOf(t, c))
            && t.started == s.started && Serves(s, t)
  {
    StopLiveKeeps(s, key);
    EndedByDifference(s, DoStopLive(s, key));
    assert forall c :: key in KeysOf(s, c) ==> Watches(s, c, key);
  }

  /** After a shutdown nobody watches anything. */
  lemma ShutdownMeans(s: State)
    requires Consistent(s)
    ensures var t := DoShutdown(s);
            && (forall c, k :: !Watches(t, c, k))
            && (forall c :: KeysOf(t, c) == {})
            && t.started == s.started && Serves(s, t)
  {
    ShutdownKeeps(s);
    EndedByDifference(s, DoShutdown(s));
  }
}
