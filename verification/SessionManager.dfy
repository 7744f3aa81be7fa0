/** The session manager: one object whose maps are reassigned by its methods. */
module SessionManager {

  import opened Aliases
  import opened WatchModel
  import Text

  class Session {
    var id: string

    constructor (id: string)
      ensures this.id == id
    {
      this.id := id;
    }
  }

  /** A Go map read: a missing key gives the empty string. */
  function Lookup(m: map<string, string>, k: string): string {
    if k in m then m[k] else ""
  }

  /** The project path a re-keyed session keeps: the one of the canonical ID, else of the temporary. */
  function InheritedPath(paths: map<string, string>, root: string, tempID: string): string {
    var p := Text.TrimSpace(Lookup(paths, root));
    if p == "" then Text.TrimSpace(Lookup(paths, tempID)) else p
  }

  /** The project paths after a re-key: both old IDs lead to the inherited path, or to none. */
  function RekeyedPaths(paths: map<string, string>, root: string, tempID: string, realID: string): map<string, string> {
    var path := InheritedPath(paths, root, tempID);
    if path == "" then paths - {tempID, root} else paths[realID := path][tempID := path][root := path]
  }

  function UpdatedPaths(al: AliasMap, ids: set<string>, paths: map<string, string>, tempID: string, realID: string)
    : map<string, string>
  {
    var root := Resolve(al, tempID);
    match BranchOf(al, ids, tempID, realID)
    case AlreadyThere =>
      var path := Text.TrimSpace(Lookup(paths, tempID));
      if path == "" then paths else paths[realID := path]
    case RealExists =>
      var path := Text.TrimSpace(Lookup(paths, root));
      if path == "" then paths else paths[realID := path][tempID := path][root := path]
    case NoSession => paths
    case ReKey => RekeyedPaths(paths, root, tempID, realID)
  }

  function UpdatedSessions<S>(al: AliasMap, sessions: map<string, S>, tempID: string, realID: string): map<string, S> {
    var root := Resolve(al, tempID);
    if BranchOf(al, sessions.Keys, tempID, realID).ReKey? then
      (sessions - {tempID, root})[realID := sessions[root]]
    else sessions
  }

  function UpdatedActive(al: AliasMap, ids: set<string>, active: map<string, string>, workspaceID: string,
                         tempID: string, realID: string): map<string, string>
  {
    if BranchOf(al, ids, tempID, realID).ReKey? && Lookup(active, workspaceID) in {Resolve(al, tempID), tempID}
    then active[workspaceID := realID] else active
  }

  function UpdatedWorkspaces(al: AliasMap, ids: set<string>, workspaces: map<string, string>, workspaceID: string,
                             tempID: string, realID: string): map<string, string>
  {
    if BranchOf(al, ids, tempID, realID).ReKey? then
      (workspaces - {tempID, Resolve(al, tempID)})[realID := workspaceID]
    else workspaces
  }

  datatype Found<+S> = Nothing | Found(session: S)

  /** What an ID leads to, old IDs included. */
  function At<S>(al: AliasMap, sessions: map<string, S>, id: string): Found<S> {
    if Resolve(al, id) in sessions then Found(sessions[Resolve(al, id)]) else Nothing
  }

  /** What clients see of an update: the temporary and the real ID lead to the same session, the one
      the temporary ID led to unless the real ID already had its own, and so does every ID that
      shared it; an ID that led elsewhere leads there still. */
  lemma UpdateSeenByClients<S>(al: AliasMap, sessions: map<string, S>, tempID: string, realID: string, id: string)
    requires Acyclic(al) && RealIsFree(al, sessions.Keys, tempID, realID)
    requires FindsSession(al, sessions.Keys, tempID, realID)
    ensures var al', sessions' := Updated(al, sessions.Keys, tempID, realID), UpdatedSessions(al, sessions, tempID, realID);
            && At(al', sessions', tempID) == At(al', sessions', realID)
            && (Resolve(al, tempID) == realID || realID !in sessions ==>
                  At(al', sessions', tempID) == At(al, sessions, tempID))
            && (Resolve(al, id) == Resolve(al, tempID) ==> At(al', sessions', id) == At(al', sessions', realID))
            && (Resolve(al, id) != Resolve(al, tempID) && Resolve(al, id) !in {tempID, realID} ==>
                  At(al', sessions', id) == At(al, sessions, id))
  {
    var al' := Updated(al, sessions.Keys, tempID, realID);
    UpdateIsUnion(al, sessions.Keys, tempID, realID);
    ResolveIdempotent(al', tempID);
    assert Resolve(al', tempID) == realID && Resolve(al', realID) == realID;
    assert Resolve(al', id) == if Resolve(al, id) == Resolve(al, tempID) then realID else Resolve(al, id);
  }

  class Manager {
    var sessions: map<string, Session>
    var sessionAliases: AliasMap
    var sessionProjectPaths: map<string, string>
    var activeSessions: map<string, string>
    var activeSessionWorkspaces: map<string, string>

    var streamerSessions: map<Key, Stream>
    var streamerClientSessions: map<string, set<Key>>
    var startedStreamers: nat
    ghost var endedStreamers: multiset<nat>

    ghost function Streaming(): State
      reads this
    {
      State(streamerSessions, streamerClientSessions, startedStreamers, endedStreamers)
    }

    ghost predicate Valid()
      reads this
    {
      Consistent(Streaming())
    }

    constructor ()
      ensures Valid() && Streaming() == EMPTY && sessionAliases == map[] && sessions == map[]
    {
      sessions, sessionAliases, sessionProjectPaths := map[], map[], map[];
      activeSessions, activeSessionWorkspaces := map[], map[];
      streamerSessions, streamerClientSessions := map[], map[];
      startedStreamers, endedStreamers := 0, multiset{};
    }

    // ---- Identity ---------------------------------------------------------------------------

    method GetSession(sessionID: string) returns (s: Session?)
      ensures s == match At(sessionAliases, sessions, sessionID)
                   case Found(session) => session
                   case Nothing => null
    {
      var resolved := ResolveSessionID(sessionAliases, sessionID);
      s := if resolved in sessions then sessions[resolved] else null;
    }

    /** Called when the real ID of a session becomes known. */
    method UpdateSessionID(workspaceID: string, tempID: string, realID: string)
      modifies this`sessions, this`sessionAliases, this`sessionProjectPaths, this`activeSessions,
               this`activeSessionWorkspaces, sessions.Values
      ensures sessionAliases == Updated(old(sessionAliases), old(sessions.Keys), tempID, realID)
      ensures sessions == UpdatedSessions(old(sessionAliases), old(sessions), tempID, realID)
      ensures sessionProjectPaths
              == UpdatedPaths(old(sessionAliases), old(sessions.Keys), old(sessionProjectPaths), tempID, realID)
      ensures activeSessions == UpdatedActive(old(sessionAliases), old(sessions.Keys), old(activeSessions),
                                              workspaceID, tempID, realID)
      ensures activeSessionWorkspaces
              == UpdatedWorkspaces(old(sessionAliases), old(sessions.Keys), old(activeSessionWorkspaces),
                                   workspaceID, tempID, realID)
      ensures forall s :: s in old(sessions.Values) ==>
                s.id == if BranchOf(old(sessionAliases), old(sessions.Keys), tempID, realID).ReKey?
                           && s == old(sessions)[Resolve(old(sessionAliases), tempID)]
                        then realID else old(s.id)
    {
      var root := ResolveSessionID(sessionAliases, tempID);
      if root == realID {
        sessionAliases := sessionAliases[tempID := realID];
        var path := Text.TrimSpace(Lookup(sessionProjectPaths, tempID));
        if path != "" {
          sessionProjectPaths := sessionProjectPaths[realID := path];
        }
        return;
      }
      if realID in sessions {
        sessionAliases := sessionAliases[tempID := realID];
        if root != tempID {
          sessionAliases := sessionAliases[root := realID];
        }
        sessionProjectPaths := SharePath(sessionProjectPaths, root, tempID, realID);
        return;
      }
      if root !in sessions {
        return;
      }
      assert sessions[root] in sessions.Values;
      ReKey(workspaceID, tempID, realID, root);
    }

    /** The branch that moves the session object under its real ID. */
    method ReKey(workspaceID: string, tempID: string, realID: string, root: string)
      requires root in sessions && root != realID
      modifies this`sessions, this`sessionAliases, this`sessionProjectPaths, this`activeSessions,
               this`activeSessionWorkspaces, sessions[root]
      ensures sessions == (old(sessions) - {tempID, root})[realID := old(sessions[root])]
      ensures old(sessions[root]).id == realID
      ensures sessionAliases == Redirect(old(sessionAliases)[tempID := realID][root := realID], root, realID)
      ensures sessionProjectPaths == RekeyedPaths(old(sessionProjectPaths), root, tempID, realID)
      ensures activeSessions == (if Lookup(old(activeSessions), workspaceID) in {root, tempID}
                                 then old(activeSessions)[workspaceID := realID] else old(activeSessions))
      ensures activeSessionWorkspaces == (old(activeSessionWorkspaces) - {tempID, root})[realID := workspaceID]
    {
      activeSessions := Reactivate(activeSessions, workspaceID, root, tempID, realID);
      activeSessionWorkspaces := activeSessionWorkspaces - {tempID, root};
      activeSessionWorkspaces := activeSessionWorkspaces[realID := workspaceID];
      sessionProjectPaths := MovePaths(sessionProjectPaths, root, tempID, realID);
      var session := sessions[root];
      session.id := realID;
      sessions := (sessions - {tempID, root})[realID := session];
      sessionAliases := RedirectAll(sessionAliases[tempID := realID][root := realID], root, realID);
    }

    static method Reactivate(active: map<string, string>, workspaceID: string, root: string, tempID: string, realID: string)
      returns (after: map<string, string>)
      ensures after == if Lookup(active, workspaceID) in {root, tempID} then active[workspaceID := realID] else active
    {
      after := active;
      var current := Lookup(active, workspaceID);
      if current == root || current == tempID {
        after := after[workspaceID := realID];
      }
    }

    static method SharePath(paths: map<string, string>, root: string, tempID: string, realID: string)
      returns (shared: map<string, string>)
      ensures var path := Text.TrimSpace(Lookup(paths, root));
              shared == if path == "" then paths else paths[realID := path][tempID := path][root := path]
    {
      shared := paths;
      var path := Text.TrimSpace(Lookup(paths, root));
      if path != "" {
        shared := shared[realID := path][tempID := path];
        if root != tempID {
          shared := shared[root := path];
        }
      }
    }

    static method MovePaths(paths: map<string, string>, root: string, tempID: string, realID: string)
      returns (moved: map<string, string>)
      ensures moved == RekeyedPaths(paths, root, tempID, realID)
    {
      moved := paths;
      var path := Text.TrimSpace(Lookup(moved, root));
      if path == "" {
        path := Text.TrimSpace(Lookup(moved, tempID));
      }
      moved := moved - {root};
      moved := moved - {tempID};
      if path != "" {
        moved := moved[realID := path];
        moved := moved[tempID := path];
        if root != tempID {
          moved := moved[root := path];
        }
      }
    }

    /** The loop over all aliases, in whatever order the map yields them. */
    static method RedirectAll(aliases: AliasMap, root: string, realID: string) returns (al: AliasMap)
      requires root != realID
      ensures al == Redirect(aliases, root, realID)
    {
      al := aliases;
      var left := al.Keys;
      while left != {}
        invariant left <= aliases.Keys && al.Keys == aliases.Keys
        invariant forall id :: id in aliases ==>
                    al[id] == if id in left then aliases[id] else Redirect(aliases, root, realID)[id]
        decreases |left|
      {
        var aliasID :| aliasID in left;
        if al[aliasID] == root {
          al := al[aliasID := realID];
        }
        left := left - {aliasID};
      }
    }

    // ---- Watching ---------------------------------------------------------------------------

    /** `found` says whether the project path and the session file were found, `starts` whether a
        new streamer could be started. */
    method WatchWorkspaceSession(clientID: string, workspaceID: string, sessionID: string, found: bool, starts: bool)
      returns (watching: bool)
      requires Valid()
      modifies this`streamerSessions, this`streamerClientSessions, this`startedStreamers, this`activeSessions
      ensures Valid()
      ensures var key := Key(workspaceID, Resolve(sessionAliases, sessionID));
              && Streaming() == (if found then DoWatch(old(Streaming()), clientID, key, starts) else old(Streaming()))
              && watching == (found && (starts || key in old(streamerSessions)))
              && activeSessions == (if found && starts && key !in old(streamerSessions)
                                    then old(activeSessions)[workspaceID := key.sessionID] else old(activeSessions))
    {
      var resolved := ResolveSessionID(sessionAliases, sessionID);
      var key := Key(workspaceID, resolved);
      WatchKeeps(Streaming(), clientID, key, starts);
      if !found {
        return false;
      }
      if key in streamerSessions {
        var stream := streamerSessions[key];
        streamerSessions := streamerSessions[key := stream.(watchers := stream.watchers + {clientID})];
        AddKey(clientID, key);
        return true;
      }
      if !starts {
        return false;
      }
      streamerSessions := streamerSessions[key := Stream(startedStreamers, {clientID})];
      startedStreamers := startedStreamers + 1;
      AddKey(clientID, key);
      activeSessions := activeSessions[workspaceID := resolved];
      return true;
    }

    method AddKey(clientID: string, key: Key)
      modifies this`streamerClientSessions
      ensures streamerClientSessions
              == old(streamerClientSessions)[clientID := KeysOf(old(Streaming()), clientID) + {key}]
    {
      if clientID !in streamerClientSessions {
        streamerClientSessions := streamerClientSessions[clientID := {}];
      }
      streamerClientSessions := streamerClientSessions[clientID := streamerClientSessions[clientID] + {key}];
    }

    /** The session to unwatch: the least matching one, whatever order the map yields them in. */
    method PickTarget(watched: set<Key>, sessionID: string) returns (found: bool, target: Key)
      ensures found <==> Matching(watched, sessionID) != {}
      ensures found ==> IsLeast(Matching(watched, sessionID), target)
    {
      found, target := false, Key("", "");
      var left := watched;
      while left != {}
        invariant left <= watched
        invariant found <==> Matching(watched - left, sessionID) != {}
        invariant found ==> IsLeast(Matching(watched - left, sessionID), target)
        decreases |left|
      {
        var session :| session in left;
        assert Matching(watched - (left - {session}), sessionID)
            == Matching(watched - left, sessionID) + Matching({session}, sessionID);
        if sessionID == "" || session.sessionID == sessionID {
          if !found || KeyLess(session, target) {
            forall k | k in Matching(watched - left, sessionID) ensures KeyLess(session, k) {
              if k != target { KeyLessTransitive(session, target, k); }
            }
            found, target := true, session;
          } else {
            KeyLessTotal(session, target);
          }
        }
        left := left - {session};
      }
    }

    method UnwatchWorkspaceSession(clientID: string, sessionID: string) returns (watching: bool)
      requires Valid()
      modifies this`streamerSessions, this`streamerClientSessions, this`endedStreamers
      ensures Valid()
      ensures var id := if Text.Blank(sessionID) then "" else Resolve(sessionAliases, Text.TrimSpace(sessionID));
              && Streaming() == DoUnwatch(old(Streaming()), clientID, id)
              && watching == if Candidates(old(Streaming()), clientID, id) == {} then KeysOf(old(Streaming()), clientID) != {}
                             else Least(Candidates(old(Streaming()), clientID, id)) in streamerSessions
    {
      ghost var before := Streaming();
      if clientID !in streamerClientSessions || streamerClientSessions[clientID] == {} {
        return false;
      }
      var watched := streamerClientSessions[clientID];
      var wanted := Text.TrimSpace(sessionID);
      if wanted != "" {
        wanted := ResolveSessionID(sessionAliases, wanted);
      }
      var found, target := PickTarget(watched, wanted);
      if !found {
        return true;
      }
      LeastUnique(Candidates(before, clientID, wanted), target, Least(Candidates(before, clientID, wanted)));
      watching := Drop(clientID, target);
    }

    /** `clientID` leaves `target`; the streamer stops with its last watcher. */
    method Drop(clientID: string, target: Key) returns (watching: bool)
      requires Valid() && target in KeysOf(Streaming(), clientID)
      modifies this`streamerSessions, this`streamerClientSessions, this`endedStreamers
      ensures Valid() && Streaming() == DropWatch(old(Streaming()), clientID, target)
      ensures watching == (target in streamerSessions)
    {
      DropKeeps(Streaming(), clientID, target);
      assert Watches(Streaming(), clientID, target);
      var watched := streamerClientSessions[clientID] - {target};
      ghost var clients := streamerClientSessions;
      streamerClientSessions := streamerClientSessions - {clientID};
      if watched != {} {
        streamerClientSessions := streamerClientSessions[clientID := watched];
      }
      assert streamerClientSessions == WithoutKey(clients, clientID, target);
      var stream := streamerSessions[target];
      var watchers := stream.watchers - {clientID};
      watching := watchers != {};
      if watching {
        streamerSessions := streamerSessions[target := stream.(watchers := watchers)];
      } else {
        endedStreamers := endedStreamers + multiset{stream.streamer};
        streamerSessions := streamerSessions - {target};
      }
    }

    /** A client goes away: it leaves every session it watches, in any order. */
    method OnClientDisconnect(clientID: string)
      requires Valid()
      modifies this`streamerSessions, this`streamerClientSessions, this`endedStreamers
      ensures Valid() && Streaming() == DoDisconnect(old(Streaming()), clientID)
    {
      ghost var before := Streaming();
      DisconnectKeeps(before, clientID);
      if clientID !in streamerClientSessions || streamerClientSessions[clientID] == {} {
        return;
      }
      forall k | k in streamerClientSessions[clientID] ensures k in streamerSessions {
        assert Watches(before, clientID, k);
      }
      ghost var ended;
      streamerSessions, ended := LeaveAll(streamerSessions, clientID, streamerClientSessions[clientID]);
      endedStreamers := endedStreamers + ended;
      streamerClientSessions := streamerClientSessions - {clientID};
    }

    static method LeaveAll(streams: map<Key, Stream>, clientID: string, watched: set<Key>)
      returns (left: map<Key, Stream>, ghost ended: multiset<nat>)
      requires Distinct(streams) && watched <= streams.Keys
      ensures left == LeaveStreams(streams, clientID, watched)
      ensures ended == AbandonedStreamers(streams, clientID, watched)
    {
      left, ended := streams, multiset{};
      var keys := watched;
      ghost var done: set<Key> := {};
      LeaveNone(streams, clientID);
      while keys != {}
        invariant keys !! done && keys + done == watched
        invariant left == LeaveStreams(streams, clientID, done)
        invariant ended == AbandonedStreamers(streams, clientID, done)
        decreases |keys|
      {
        var key :| key in keys;
        LeaveOne(streams, clientID, done, key);
        var stream := left[key];
        var watchers := stream.watchers - {clientID};
        if watchers != {} {
          left := left[key := stream.(watchers := watchers)];
        } else {
          ended := ended + multiset{stream.streamer};
          left := left - {key};
        }
        keys, done := keys - {key}, done + {key};
      }
      assert done == watched;
    }

    /** A session running in the user's terminal is no longer streamed to anybody. */
    method StopWatchingLiveSession(workspaceID: string, sessionID: string)
      requires Valid()
      modifies this`streamerSessions, this`streamerClientSessions, this`endedStreamers,
               this`activeSessions, this`activeSessionWorkspaces
      ensures Valid() && Streaming() == DoStopLive(old(Streaming()), Key(workspaceID, sessionID))
      ensures activeSessions == (if Lookup(old(activeSessions), workspaceID) == sessionID
                                 then old(activeSessions) - {workspaceID} else old(activeSessions))
      ensures activeSessionWorkspaces == old(activeSessionWorkspaces) - {sessionID}
    {
      ghost var before := Streaming();
      var key := Key(workspaceID, sessionID);
      StopLiveKeeps(before, key);
      if key in streamerSessions {
        endedStreamers := endedStreamers + multiset{streamerSessions[key].streamer};
        streamerSessions := streamerSessions - {key};
        streamerClientSessions := RemoveFromAll(streamerClientSessions, key);
      }
      if Lookup(activeSessions, workspaceID) == sessionID {
        activeSessions := activeSessions - {workspaceID};
      }
      activeSessionWorkspaces := activeSessionWorkspaces - {sessionID};
    }

    static method RemoveFromAll(clients: map<string, set<Key>>, key: Key) returns (removed: map<string, set<Key>>)
      ensures removed == map c | c in clients :: clients[c] - {key}
    {
      removed := clients;
      var left := clients.Keys;
      while left != {}
        invariant left <= clients.Keys && removed.Keys == clients.Keys
        invariant forall c :: c in clients ==> removed[c] == if c in left then clients[c] else clients[c] - {key}
        decreases |left|
      {
        var client :| client in left;
        removed := removed[client := removed[client] - {key}];
        left := left - {client};
      }
    }

    /** The streamer part of Stop: every stored streamer is closed, whatever the order. */
    method Stop()
      requires Valid()
      modifies this`streamerSessions, this`streamerClientSessions, this`endedStreamers
      ensures Valid() && Streaming() == DoShutdown(old(Streaming()))
    {
      ghost var before := Streaming();
      ShutdownKeeps(before);
      ghost var ended := CloseAll(streamerSessions);
      streamerSessions := map[];
      endedStreamers := endedStreamers + ended;
      streamerClientSessions := map[];
    }

    static method CloseAll(streams: map<Key, Stream>) returns (ghost ended: multiset<nat>)
      requires Distinct(streams)
      ensures ended == Streamers(streams, streams.Keys)
    {
      ended := multiset{};
      var keys := streams.Keys;
      ghost var done: set<Key> := {};
      while keys != {}
        invariant done !! keys && done + keys == streams.Keys
        invariant ended == Streamers(streams, done)
        decreases |keys|
      {
        var key :| key in keys;
        StreamersAdd(streams, done, key);
        ended := ended + multiset{streams[key].streamer};
        keys, done := keys - {key}, done + {key};
      }
      assert done == streams.Keys;
    }
  }

  lemma StreamersAdd(streams: map<Key, Stream>, keys: set<Key>, key: Key)
    requires Distinct(streams) && key in streams && key !in keys
    ensures Streamers(streams, keys + {key}) == Streamers(streams, keys) + multiset{streams[key].streamer}
  {
    var before := set k | k in keys && k in streams :: streams[k].streamer;
    var after := set k | k in keys + {key} && k in streams :: streams[k].streamer;
    assert after == before + {streams[key].streamer};
    assert streams[key].streamer !in before;
  }

  lemma LeaveNone(streams: map<Key, Stream>, client: string)
    ensures LeaveStreams(streams, client, {}) == streams
    ensures AbandonedStreamers(streams, client, {}) == multiset{}
  {
    assert (set k | k in {} && Abandoned(streams, client, k)) == {};
  }

  /** Leaving one more session: it loses a watcher, or goes when that was the last. */
  lemma LeaveOne(streams: map<Key, Stream>, client: string, done: set<Key>, key: Key)
    requires Distinct(streams) && key in streams && key !in done
    ensures key in LeaveStreams(streams, client, done) && LeaveStreams(streams, client, done)[key] == streams[key]
    ensures LeaveStreams(streams, client, done + {key})
            == if Abandoned(streams, client, key) then LeaveStreams(streams, client, done) - {key}
               else LeaveStreams(streams, client, done)[key := streams[key].(watchers := streams[key].watchers - {client})]
    ensures AbandonedStreamers(streams, client, done + {key})
            == AbandonedStreamers(streams, client, done)
               + if Abandoned(streams, client, key) then multiset{streams[key].streamer} else multiset{}
  {
    var before := set k | k in done && Abandoned(streams, client, k);
    var after := set k | k in done + {key} && Abandoned(streams, client, k);
    if Abandoned(streams, client, key) {
      assert after == before + {key};
      StreamersAdd(streams, before, key);
    } else {
      assert after == before;
    }
  }
}
