/** Who watches which session: two maps that must stay inverse to each other, and a streamer for
    every watched session that must be ended exactly once. */
module WatchModel {

  import Text

  datatype Key = Key(workspaceID: string, sessionID: string)

  /** `streamer` numbers the streamers in the order they were started. */
  datatype Stream = Stream(streamer: nat, watchers: set<string>)

  /** `started` counts the streamers started; `ended` records each Close or UnwatchSession of one. */
  datatype State = State(streams: map<Key, Stream>, clients: map<string, set<Key>>,
                         started: nat, ended: multiset<nat>)

  datatype Op =
    | Watch(client: string, key: Key, starts: bool)
    | Unwatch(client: string, sessionID: string)
    | Disconnect(client: string)
    | StopLive(key: Key)
    | Shutdown

  // ---- The legacy choice of what to unwatch -----------------------------------------------

  predicate KeyLess(a: Key, b: Key) {
    || Text.Less(a.workspaceID, b.workspaceID)
    || (a.workspaceID == b.workspaceID && Text.Less(a.sessionID, b.sessionID))
  }

  ghost predicate IsLeast(keys: set<Key>, k: Key) {
    k in keys && forall j :: j in keys && j != k ==> KeyLess(k, j)
  }

  lemma KeyLessTotal(a: Key, b: Key)
    ensures a == b || KeyLess(a, b) || KeyLess(b, a)
    ensures !(KeyLess(a, b) && KeyLess(b, a))
  {
    Text.LessTotal(a.workspaceID, b.workspaceID);
    Text.LessTotal(a.sessionID, b.sessionID);
  }

  lemma KeyLessTransitive(a: Key, b: Key, c: Key)
    requires KeyLess(a, b) && KeyLess(b, c)
    ensures KeyLess(a, c)
  {
    if Text.Less(a.workspaceID, b.workspaceID) && Text.Less(b.workspaceID, c.workspaceID) {
      Text.LessTransitive(a.workspaceID, b.workspaceID, c.workspaceID);
    } else if a.workspaceID == b.workspaceID == c.workspaceID {
      Text.LessTransitive(a.sessionID, b.sessionID, c.sessionID);
    }
  }

  lemma LeastUnique(keys: set<Key>, a: Key, b: Key)
    requires IsLeast(keys, a) && IsLeast(keys, b)
    ensures a == b
  {
    KeyLessTotal(a, b);
  }

  lemma {:induction false} LeastExists(keys: set<Key>)
    requires keys != {}
    ensures exists k :: IsLeast(keys, k)
    decreases |keys|
  {
    var k :| k in keys;
    var rest := keys - {k};
    if rest == {} {
      assert keys == {k};
      assert IsLeast(keys, k);
    } else {
      LeastExists(rest);
      var m :| IsLeast(rest, m);
      KeyLessTotal(k, m);
      if KeyLess(k, m) {
        forall j | j in keys && j != k ensures KeyLess(k, j) {
          if j != m { KeyLessTransitive(k, m, j); }
        }
        assert IsLeast(keys, k);
      } else {
        assert IsLeast(keys, m);
      }
    }
  }

  ghost function Least(keys: set<Key>): (k: Key)
    requires keys != {}
    ensures IsLeast(keys, k)
  {
    LeastExists(keys);
    var k :| IsLeast(keys, k);
    k
  }

  // ---- The operations ---------------------------------------------------------------------

  function KeysOf(s: State, client: string): set<Key> {
    if client in s.clients then s.clients[client] else {}
  }

  function DoWatch(s: State, client: string, key: Key, starts: bool): State {
    if key in s.streams then
      s.(streams := s.streams[key := s.streams[key].(watchers := s.streams[key].watchers + {client})],
         clients := s.clients[client := KeysOf(s, client) + {key}])
    else if !starts then s
    else
      s.(streams := s.streams[key := Stream(s.started, {client})],
         clients := s.clients[client := KeysOf(s, client) + {key}],
         started := s.started + 1)
  }

  /** The keys an unwatch request may mean; an empty ID means any. */
  function Matching(keys: set<Key>, sessionID: string): set<Key> {
    set k | k in keys && (sessionID == "" || k.sessionID == sessionID)
  }

  function Candidates(s: State, client: string, sessionID: string): set<Key> {
    Matching(KeysOf(s, client), sessionID)
  }

  function WithoutKey(clients: map<string, set<Key>>, client: string, key: Key): map<string, set<Key>>
    requires client in clients
  {
    if clients[client] - {key} == {} then clients - {client}
    else clients[client := clients[client] - {key}]
  }

  /** `client` stops watching `target`. */
  function DropWatch(s: State, client: string, target: Key): State
    requires client in s.clients
  {
    var clients := WithoutKey(s.clients, client, target);
    if target !in s.streams then s.(clients := clients)
    else
      var left := s.streams[target].watchers - {client};
      if left != {} then
        s.(streams := s.streams[target := s.streams[target].(watchers := left)], clients := clients)
      else
        s.(streams := s.streams - {target}, clients := clients,
           ended := s.ended + multiset{s.streams[target].streamer})
  }

  ghost function DoUnwatch(s: State, client: string, sessionID: string): State {
    if Candidates(s, client, sessionID) == {} then s
    else DropWatch(s, client, Least(Candidates(s, client, sessionID)))
  }

  function Streamers(streams: map<Key, Stream>, keys: set<Key>): multiset<nat> {
    multiset(set k | k in keys && k in streams :: streams[k].streamer)
  }

  predicate Abandoned(streams: map<Key, Stream>, client: string, key: Key) {
    key in streams && streams[key].watchers - {client} == {}
  }

  /** The streamers of `keys` that nobody is left to watch once `client` leaves. */
  function AbandonedStreamers(streams: map<Key, Stream>, client: string, keys: set<Key>): multiset<nat> {
    Streamers(streams, set k | k in keys && Abandoned(streams, client, k))
  }

  /** `client` has left the sessions in `keys`; those nobody else watches are gone. */
  function LeaveStreams(streams: map<Key, Stream>, client: string, keys: set<Key>): map<Key, Stream> {
    map k | k in streams && !(k in keys && Abandoned(streams, client, k)) ::
      if k in keys then streams[k].(watchers := streams[k].watchers - {client}) else streams[k]
  }

  function DoDisconnect(s: State, client: string): State {
    var keys := KeysOf(s, client);
    if keys == {} then s
    else s.(streams := LeaveStreams(s.streams, client, keys), clients := s.clients - {client},
            ended := s.ended + AbandonedStreamers(s.streams, client, keys))
  }

  function DoStopLive(s: State, key: Key): State {
    if key !in s.streams then s
    else s.(streams := s.streams - {key}, clients := map c | c in s.clients :: s.clients[c] - {key},
            ended := s.ended + multiset{s.streams[key].streamer})
  }

  function DoShutdown(s: State): State {
    s.(streams := map[], clients := map[], ended := s.ended + Streamers(s.streams, s.streams.Keys))
  }

  ghost function Apply(s: State, op: Op): State {
    match op
    case Watch(client, key, starts) => DoWatch(s, client, key, starts)
    case Unwatch(client, sessionID) => DoUnwatch(s, client, sessionID)
    case Disconnect(client) => DoDisconnect(s, client)
    case StopLive(key) => DoStopLive(s, key)
    case Shutdown => DoShutdown(s)
  }

  const EMPTY: State := State(map[], map[], 0, multiset{})

  ghost function Run(ops: seq<Op>): State {
    if ops == [] then EMPTY else Apply(Run(ops[..|ops| - 1]), ops[|ops| - 1])
  }

  // ---- What every run keeps ---------------------------------------------------------------

  predicate Watches(s: State, client: string, key: Key) {
    key in s.streams && client in s.streams[key].watchers
  }

  ghost predicate Inverse(s: State) {
    forall c, k :: Watches(s, c, k) <==> k in KeysOf(s, c)
  }

  ghost predicate Attended(s: State) {
    forall k :: k in s.streams ==> s.streams[k].watchers != {}
  }

  ghost predicate Holds(s: State, n: nat) {
    exists k :: k in s.streams && s.streams[k].streamer == n
  }

  ghost predicate Distinct(streams: map<Key, Stream>) {
    forall j, k :: j in streams && k in streams && streams[j].streamer == streams[k].streamer ==> j == k
  }

  /** Every streamer ever started is stored once or was ended once, never both. */
  ghost predicate EndedOnce(s: State) {
    && Distinct(s.streams)
    && (forall n: nat :: s.ended[n] == if n < s.started && !Holds(s, n) then 1 else 0)
    && (forall k :: k in s.streams ==> s.streams[k].streamer < s.started)
  }

  ghost predicate Consistent(s: State) {
    Inverse(s) && Attended(s) && EndedOnce(s)
  }

  lemma WatchKeeps(s: State, client: string, key: Key, starts: bool)
    requires Consistent(s)
    ensures Consistent(DoWatch(s, client, key, starts))
  {
    var t := DoWatch(s, client, key, starts);
    forall c, k ensures Watches(t, c, k) <==> k in KeysOf(t, c) {
      assert Watches(s, c, k) <==> k in KeysOf(s, c);
    }
    forall n: nat ensures t.ended[n] == if n < t.started && !Holds(t, n) then 1 else 0 {
      if t != s {
        assert key in t.streams;
        if Holds(s, n) {
          var k :| k in s.streams && s.streams[k].streamer == n;
          assert k in t.streams && t.streams[k].streamer == n;
        }
      }
    }
  }

  lemma DropKeeps(s: State, client: string, target: Key)
    requires Consistent(s) && target in KeysOf(s, client)
    ensures Consistent(DropWatch(s, client, target))
  {
    var t := DropWatch(s, client, target);
    assert Watches(s, client, target);
    forall c, k ensures Watches(t, c, k) <==> k in KeysOf(t, c) {
      assert Watches(s, c, k) <==> k in KeysOf(s, c);
      if k == target && Abandoned(s.streams, client, target) && c != client {
        assert c !in s.streams[target].watchers - {client};
      }
    }
    forall n: nat ensures t.ended[n] == if n < t.started && !Holds(t, n) then 1 else 0 {
      StillHeld(s, t, n, {target});
    }
  }

  /** Removing streams changes which streamers are stored only for the removed keys. */
  lemma StillHeld(s: State, t: State, n: nat, removed: set<Key>)
    requires t.streams.Keys <= s.streams.Keys && s.streams.Keys - removed <= t.streams.Keys
    requires forall k :: k in t.streams ==> t.streams[k].streamer == s.streams[k].streamer
    ensures Holds(t, n) ==> Holds(s, n)
    ensures Holds(s, n) && !Holds(t, n) ==> exists k :: k in removed && k in s.streams && s.streams[k].streamer == n
  {
    if k :| k in s.streams && s.streams[k].streamer == n {
      if k !in removed {
        assert k in t.streams;
      }
    }
  }

  lemma DisconnectKeeps(s: State, client: string)
    requires Consistent(s)
    ensures Consistent(DoDisconnect(s, client))
  {
    var t := DoDisconnect(s, client);
    var keys := KeysOf(s, client);
    var gone := set k | k in keys && Abandoned(s.streams, client, k);
    forall c, k ensures Watches(t, c, k) <==> k in KeysOf(t, c) {
      assert Watches(s, c, k) <==> k in KeysOf(s, c);
      assert Watches(s, client, k) <==> k in keys;
      if k in gone && c != client {
        assert c !in s.streams[k].watchers - {client};
      }
    }
    if keys != {} {
      assert t.streams.Keys == s.streams.Keys - gone;
      forall n: nat ensures t.ended[n] == if n < t.started && !Holds(t, n) then 1 else 0 {
        RemovedEnded(s, t, n, gone);
      }
    }
  }

  lemma RemovedEnded(s: State, t: State, n: nat, gone: set<Key>)
    requires EndedOnce(s) && gone <= s.streams.Keys
    requires t.streams.Keys == s.streams.Keys - gone && t.started == s.started
    requires forall k :: k in t.streams ==> t.streams[k].streamer == s.streams[k].streamer
    requires t.ended == s.ended + Streamers(s.streams, gone)
    ensures t.ended[n] == if n < t.started && !Holds(t, n) then 1 else 0
  {
    StillHeld(s, t, n, gone);
    var ids := set k | k in gone && k in s.streams :: s.streams[k].streamer;
    assert Streamers(s.streams, gone)[n] == if n in ids then 1 else 0;
    if n in ids {
      var k :| k in gone && s.streams[k].streamer == n;
      assert Holds(s, n);
      forall j | j in t.streams ensures t.streams[j].streamer != n {
        assert j != k;
      }
    }
  }

  lemma StopLiveKeeps(s: State, key: Key)
    requires Consistent(s)
    ensures Consistent(DoStopLive(s, key))
  {
    var t := DoStopLive(s, key);
    forall c, k ensures Watches(t, c, k) <==> k in KeysOf(t, c) {
      assert Watches(s, c, k) <==> k in KeysOf(s, c);
    }
    forall n: nat ensures t.ended[n] == if n < t.started && !Holds(t, n) then 1 else 0 {
      StillHeld(s, t, n, {key});
    }
  }

  lemma ShutdownKeeps(s: State)
    requires Consistent(s)
    ensures Consistent(DoShutdown(s))
  {
    var t := DoShutdown(s);
    forall n: nat ensures t.ended[n] == if n < t.started && !Holds(t, n) then 1 else 0 {
      RemovedEnded(s, t, n, s.streams.Keys);
    }
  }

  lemma ApplyKeeps(s: State, op: Op)
    requires Consistent(s)
    ensures Consistent(Apply(s, op))
  {
    match op
    case Watch(client, key, starts) => WatchKeeps(s, client, key, starts);
    case Unwatch(client, sessionID) =>
      if Candidates(s, client, sessionID) != {} {
        DropKeeps(s, client, Least(Candidates(s, client, sessionID)));
      }
    case Disconnect(client) => DisconnectKeeps(s, client);
    case StopLive(key) => StopLiveKeeps(s, key);
    case Shutdown => ShutdownKeeps(s);
  }

  /** Over every run: a client is among the watchers of a session iff the session is among the
      client's; every stored stream has a watcher; every started streamer is stored once or was
      ended once. */
  lemma {:induction false} RunConsistent(ops: seq<Op>)
    ensures Consistent(Run(ops))
  {
    if ops != [] {
      RunConsistent(ops[..|ops| - 1]);
      ApplyKeeps(Run(ops[..|ops| - 1]), ops[|ops| - 1]);
    }
  }

  /** After a shutdown every streamer ever started has been ended, each exactly once. */
  lemma ShutdownEndsAll(ops: seq<Op>, n: nat)
    ensures Run(ops + [Shutdown]).ended[n] == if n < Run(ops + [Shutdown]).started then 1 else 0
  {
    RunConsistent(ops + [Shutdown]);
    assert (ops + [Shutdown])[..|ops|] == ops;
    assert !Holds(Run(ops + [Shutdown]), n);
  }

  /** Watching and then unwatching gives back what everybody watches and every stream, if and only if
      the client did not watch the session before, and has no session of that ID in a workspace that
      comes before it. */
  lemma UnwatchUndoesWatch(s: State, client: string, key: Key)
    requires Consistent(s)
    ensures var t := DoUnwatch(DoWatch(s, client, key, true), client, key.sessionID);
            t.streams == s.streams && (forall c :: KeysOf(t, c) == KeysOf(s, c))
            <==> key !in KeysOf(s, client)
                 && forall k :: k in KeysOf(s, client) && (key.sessionID == "" || k.sessionID == key.sessionID) ==> KeyLess(key, k)
  {
    var u := DoWatch(s, client, key, true);
    var keys := KeysOf(s, client) + {key};
    assert KeysOf(u, client) == keys;
    assert key in Matching(keys, key.sessionID);
    var target := Least(Matching(keys, key.sessionID));
    var t := DropWatch(u, client, target);
    assert t == DoUnwatch(u, client, key.sessionID);
    AfterDrop(s, u, client, key, target);
    if target == key && key !in KeysOf(s, client) {
      DropUndoes(s, client, key);
    }
    forall k | k in KeysOf(s, client) && (key.sessionID == "" || k.sessionID == key.sessionID)
      ensures k in Matching(keys, key.sessionID)
    {
    }
    if key !in KeysOf(s, client)
       && forall k :: k in KeysOf(s, client) && (key.sessionID == "" || k.sessionID == key.sessionID) ==> KeyLess(key, k) {
      assert IsLeast(Matching(keys, key.sessionID), key);
      LeastUnique(Matching(keys, key.sessionID), target, key);
    }
  }

  /** What the client watches afterwards: all but the target. */
  lemma AfterDrop(s: State, u: State, client: string, key: Key, target: Key)
    requires u == DoWatch(s, client, key, true) && client in u.clients
    requires KeysOf(u, client) == KeysOf(s, client) + {key} && target in KeysOf(u, client)
    ensures KeysOf(DropWatch(u, client, target), client) == KeysOf(s, client) + {key} - {target}
  {
  }

  lemma DropUndoes(s: State, client: string, key: Key)
    requires Consistent(s) && key !in KeysOf(s, client)
    ensures var t := DropWatch(DoWatch(s, client, key, true), client, key);
            t.streams == s.streams && (forall c :: KeysOf(t, c) == KeysOf(s, c))
  {
    var u := DoWatch(s, client, key, true);
    assert Watches(s, client, key) <==> key in KeysOf(s, client);
    var t := DropWatch(u, client, key);
    if key in s.streams {
      assert u.streams[key].watchers - {client} == s.streams[key].watchers;
    }
    assert KeysOf(u, client) - {key} == KeysOf(s, client);
  }
}
