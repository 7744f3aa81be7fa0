/** What an update of a session ID does to sessions, paths and activity, told by the condition of each of its
    four branches. */
module SessionLaws {

  import opened Aliases
  import opened SessionManager
  import Text

  // ---- The branches, by their conditions ----------------------------------------------------------

  /** The session is moved under its real ID: that ID is new, and the canonical ID of the temporary one has
      the session. */
  predicate Moves(al: AliasMap, ids: set<string>, tempID: string, realID: string) {
    Resolve(al, tempID) != realID && realID !in ids && Resolve(al, tempID) in ids
  }

  /** These IDs get this value, all others keep theirs. */
  ghost predicate Gives<V(!new)>(before: map<string, V>, after: map<string, V>, ids: set<string>, v: V) {
    forall id :: if id in ids then id in after && after[id] == v
                 else (id in after <==> id in before) && (id in before ==> after[id] == before[id])
  }

  /** These IDs lose what they have, all others keep theirs. */
  ghost predicate Takes<V(!new)>(before: map<string, V>, after: map<string, V>, ids: set<string>) {
    forall id :: if id in ids then id !in after
                 else (id in after <==> id in before) && (id in before ==> after[id] == before[id])
  }

  /** One entry for `id`, none for the `gone` (unless `id` is one of them), all others as they were. */
  ghost predicate Replaces<V(!new)>(before: map<string, V>, after: map<string, V>, gone: set<string>, id: string, v: V) {
    forall k :: if k == id then k in after && after[k] == v
                else (k in after <==> k in before && k !in gone) && (k in after ==> after[k] == before[k])
  }

  /** The project path known for an ID, trimmed; empty when there is none. */
  function PathOf(paths: map<string, string>, id: string): string {
    if id in paths then Text.TrimSpace(paths[id]) else ""
  }

  // ---- Project paths --------------------------------------------------------------------------------

  /** When the session moves, the real, the temporary and the canonical ID all get the path of the canonical
      ID or, if it has none, of the temporary one; without a path both old IDs lose theirs. */
  lemma PathsAfterMove(al: AliasMap, ids: set<string>, paths: map<string, string>, tempID: string, realID: string)
    requires Moves(al, ids, tempID, realID)
    ensures var root, after := Resolve(al, tempID), UpdatedPaths(al, ids, paths, tempID, realID);
            var path := if PathOf(paths, root) != "" then PathOf(paths, root) else PathOf(paths, tempID);
            if path != "" then Gives(paths, after, {realID, tempID, root}, path) else Takes(paths, after, {tempID, root})
  {
    TrimOfNothing();
  }

  /** When the real ID has a session already, all three get the path of the canonical ID, if it has one; when
      the IDs are the same session already, the real ID gets the path of the temporary one, if it has one; when
      no session is found, nothing changes. */
  lemma PathsOtherwise(al: AliasMap, ids: set<string>, paths: map<string, string>, tempID: string, realID: string)
    requires !Moves(al, ids, tempID, realID)
    ensures var root, after := Resolve(al, tempID), UpdatedPaths(al, ids, paths, tempID, realID);
            if root == realID then
              if PathOf(paths, tempID) != "" then Gives(paths, after, {realID}, PathOf(paths, tempID)) else after == paths
            else if realID in ids then
              if PathOf(paths, root) != "" then Gives(paths, after, {realID, tempID, root}, PathOf(paths, root))
              else after == paths
            else after == paths
  {
    TrimOfNothing();
  }

  lemma TrimOfNothing()
    ensures Text.TrimSpace("") == ""
  {
  }

  // ---- Sessions ---------------------------------------------------------------------------------------

  /** No two IDs have the same session. */
  ghost predicate OneID<S(!new)>(sessions: map<string, S>) {
    forall a, b :: a in sessions && b in sessions && sessions[a] == sessions[b] ==> a == b
  }

  /** When the session moves, the real ID has it and both old IDs have none; all other sessions stay where they
      are; otherwise every session stays.  So sessions that were different stay different. */
  lemma SessionsAfter<S(!new)>(al: AliasMap, sessions: map<string, S>, tempID: string, realID: string)
    ensures var root, after := Resolve(al, tempID), UpdatedSessions(al, sessions, tempID, realID);
            if Moves(al, sessions.Keys, tempID, realID) then
              Replaces(sessions, after, {tempID, root}, realID, sessions[root])
            else after == sessions
    ensures OneID(sessions) ==> OneID(UpdatedSessions(al, sessions, tempID, realID))
  {
  }

  // ---- Activity -----------------------------------------------------------------------------------------

  /** When the session moves, a workspace in which it was active under an old ID has it active under the real
      one, and every other entry stays; the real ID belongs to this workspace and both old IDs to none. */
  lemma ActivityAfter(al: AliasMap, ids: set<string>, active: map<string, string>, workspaces: map<string, string>,
                      workspaceID: string, tempID: string, realID: string)
    ensures var root := Resolve(al, tempID);
            var after := UpdatedActive(al, ids, active, workspaceID, tempID, realID);
            var found := if workspaceID in active then active[workspaceID] else "";
            if Moves(al, ids, tempID, realID) && (found == root || found == tempID) then
              Gives(active, after, {workspaceID}, realID)
            else after == active
    ensures var root := Resolve(al, tempID);
            var after := UpdatedWorkspaces(al, ids, workspaces, workspaceID, tempID, realID);
            if Moves(al, ids, tempID, realID) then Replaces(workspaces, after, {tempID, root}, realID, workspaceID)
            else after == workspaces
  {
  }

  /** The session that is active in a workspace stays active there, whatever ID it is known by, on an acyclic
      map and with a free real ID. */
  lemma ActiveSessionStays<S(!new)>(al: AliasMap, sessions: map<string, S>, active: map<string, string>,
                                    workspaceID: string, tempID: string, realID: string, w: string)
    requires Acyclic(al) && RealIsFree(al, sessions.Keys, tempID, realID) && Moves(al, sessions.Keys, tempID, realID)
    requires w in active
    requires Resolve(al, active[w]) == Resolve(al, tempID) || Resolve(al, active[w]) !in {tempID, realID}
    ensures var al', sessions' := Updated(al, sessions.Keys, tempID, realID), UpdatedSessions(al, sessions, tempID, realID);
            var active' := UpdatedActive(al, sessions.Keys, active, workspaceID, tempID, realID);
            w in active' && At(al', sessions', active'[w]) == At(al, sessions, active[w])
  {
    var active' := UpdatedActive(al, sessions.Keys, active, workspaceID, tempID, realID);
    UpdateSeenByClients(al, sessions, tempID, realID, active[w]);
    if active'[w] != active[w] {
      ResolveIdempotent(al, tempID);
    }
  }

  // ---- Aliases --------------------------------------------------------------------------------------------

  /** The alias map itself, on every map, cyclic ones included: which entries point to the real ID now. */
  lemma AliasesAfter(al: AliasMap, ids: set<string>, tempID: string, realID: string)
    ensures var root, after := Resolve(al, tempID), Updated(al, ids, tempID, realID);
            if Moves(al, ids, tempID, realID) then
              Gives(al, after, {tempID, root} + (set id | id in al && al[id] == root), realID)
            else if root == realID then Gives(al, after, {tempID}, realID)
            else if realID in ids then Gives(al, after, {tempID, root}, realID)
            else after == al
  {
  }
}
