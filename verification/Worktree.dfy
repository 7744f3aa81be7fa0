/** Naming a task's worktree, and finding the repository again from the worktree's path. */
module Worktree {

  import Text
  import Paths

  // ---- Titles to names --------------------------------------------------------------------

  predicate Plain(c: char) {
    'a' <= c <= 'z' || '0' <= c <= '9' || c == '-'
  }

  /** What becomes of one lower-cased character: kept, turned into a dash, or dropped. */
  function Kept(c: char): string {
    if Plain(c) then [c] else if c == ' ' || c == '_' then "-" else ""
  }

  function Filter(lower: char -> char, title: string): string {
    if title == "" then "" else Kept(lower(title[0])) + Filter(lower, title[1..])
  }

  predicate HasDoubleDash(s: string) {
    exists i :: 0 <= i < |s| - 1 && s[i] == '-' && s[i + 1] == '-'
  }

  /** `strings.ReplaceAll(s, "--", "-")`: the pairs are found from the left and do not overlap. */
  function ReplaceDoubleDashes(s: string): string {
    if |s| < 2 then s
    else if s[0] == '-' && s[1] == '-' then "-" + ReplaceDoubleDashes(s[2..])
    else [s[0]] + ReplaceDoubleDashes(s[1..])
  }

  function TrimLeftDashes(s: string): string {
    if s != "" && s[0] == '-' then TrimLeftDashes(s[1..]) else s
  }

  function TrimRightDashes(s: string): string {
    if s != "" && s[|s| - 1] == '-' then TrimRightDashes(s[..|s| - 1]) else s
  }

  function TrimDashes(s: string): string {
    TrimRightDashes(TrimLeftDashes(s))
  }

  /** The non-empty stretches between dashes. */
  function Words(s: string): seq<string> {
    Paths.NonEmpty(Text.Split(s, '-'))
  }

  /** A title's name: its words, one dash between two of them. */
  function Name(lower: char -> char, title: string): string {
    Text.Join(Words(Filter(lower, title)), '-')
  }

  lemma {:induction false} NonEmptyAppend(a: seq<string>, b: seq<string>)
    ensures Paths.NonEmpty(a + b) == Paths.NonEmpty(a) + Paths.NonEmpty(b)
  {
    if a == [] {
      assert a + b == b;
    } else {
      NonEmptyAppend(a[1..], b);
      assert (a + b)[0] == a[0] && (a + b)[1..] == a[1..] + b;
      assert [a[0]] + (Paths.NonEmpty(a[1..]) + Paths.NonEmpty(b)) == [a[0]] + Paths.NonEmpty(a[1..]) + Paths.NonEmpty(b);
    }
  }

  lemma {:induction false} NonEmptyIsWhole(parts: seq<string>)
    requires "" !in parts
    ensures Paths.NonEmpty(parts) == parts
  {
    if parts != [] {
      NonEmptyIsWhole(parts[1..]);
    }
  }

  lemma {:induction false} ReplacingShortens(s: string)
    ensures |ReplaceDoubleDashes(s)| <= |s|
    ensures HasDoubleDash(s) ==> |ReplaceDoubleDashes(s)| < |s|
  {
    if |s| >= 2 {
      if s[0] == '-' && s[1] == '-' {
        ReplacingShortens(s[2..]);
      } else {
        ReplacingShortens(s[1..]);
        if HasDoubleDash(s) {
          var i :| 0 <= i < |s| - 1 && s[i] == '-' && s[i + 1] == '-';
          assert s[1..][i - 1] == '-' && s[1..][i - 1 + 1] == '-';
        }
      }
    }
  }

  lemma {:induction false} ReplacingKeepsParts(s: string)
    ensures var p, q := Text.Split(s, '-'), Text.Split(ReplaceDoubleDashes(s), '-');
            p[0] == q[0] && Paths.NonEmpty(p[1..]) == Paths.NonEmpty(q[1..])
  {
    if |s| >= 2 {
      if s[0] == '-' && s[1] == '-' {
        ReplacingKeepsParts(s[2..]);
        var t, u := Text.Split(s[2..], '-'), Text.Split(ReplaceDoubleDashes(s[2..]), '-');
        assert s[1..][1..] == s[2..];
        assert Text.Split(s, '-') == [""] + ([""] + t);
        assert ReplaceDoubleDashes(s)[1..] == ReplaceDoubleDashes(s[2..]);
        assert Text.Split(ReplaceDoubleDashes(s), '-') == [""] + u;
        assert ([""] + t)[1..] == t;
      } else {
        ReplacingKeepsParts(s[1..]);
        assert ReplaceDoubleDashes(s)[1..] == ReplaceDoubleDashes(s[1..]);
      }
    }
  }

  lemma ReplacingKeepsWords(s: string)
    ensures Words(ReplaceDoubleDashes(s)) == Words(s)
  {
    ReplacingKeepsParts(s);
  }

  lemma {:induction false} TrimmingLeftKeepsWords(s: string)
    ensures Words(TrimLeftDashes(s)) == Words(s)
    ensures |TrimLeftDashes(s)| <= |s| && TrimLeftDashes(s) == s[|s| - |TrimLeftDashes(s)|..]
    ensures TrimLeftDashes(s) != "" ==> TrimLeftDashes(s)[0] != '-'
  {
    if s != "" && s[0] == '-' {
      TrimmingLeftKeepsWords(s[1..]);
      assert Text.Split(s, '-')[1..] == Text.Split(s[1..], '-');
    }
  }

  lemma {:induction false} TrimmingRightKeepsWords(s: string)
    ensures Words(TrimRightDashes(s)) == Words(s)
    ensures TrimRightDashes(s) <= s
    ensures TrimRightDashes(s) != "" ==> TrimRightDashes(s)[|TrimRightDashes(s)| - 1] != '-'
  {
    if s != "" && s[|s| - 1] == '-' {
      var front := s[..|s| - 1];
      TrimmingRightKeepsWords(front);
      assert s == front + ['-'] + "";
      Text.SplitAppend(front, '-', "");
      NonEmptyAppend(Text.Split(front, '-'), [""]);
      assert Paths.NonEmpty([""]) == [];
    }
  }

  lemma {:induction false} TidyHasNoEmptyPart(s: string)
    requires s != "" && !HasDoubleDash(s) && s[|s| - 1] != '-'
    ensures "" !in Text.Split(s, '-')[1..]
    ensures Text.Split(s, '-')[0] == "" <==> s[0] == '-'
  {
    if |s| > 1 {
      var t := s[1..];
      forall i | 0 <= i < |t| - 1 ensures !(t[i] == '-' && t[i + 1] == '-') {
        assert !(s[i + 1] == '-' && s[i + 1 + 1] == '-');
      }
      TidyHasNoEmptyPart(t);
      var rest := Text.Split(t, '-');
      assert !(s[0] == '-' && s[0 + 1] == '-');
      if s[0] == '-' {
        assert Text.Split(s, '-')[1..] == rest;
        assert rest == [rest[0]] + rest[1..];
      }
    } else {
      Text.SplitSingle(s, '-');
    }
  }

  /** A string without edge or double dashes is its words, joined. */
  lemma TidyIsItsWords(s: string)
    requires !HasDoubleDash(s)
    requires s != "" ==> s[0] != '-' && s[|s| - 1] != '-'
    ensures Text.Join(Words(s), '-') == s
  {
    if s != "" {
      TidyHasNoEmptyPart(s);
      var parts := Text.Split(s, '-');
      assert parts == [parts[0]] + parts[1..];
      NonEmptyIsWhole(parts);
      Text.JoinSplit(s, '-');
    } else {
      assert Text.Split(s, '-') == [""] && Paths.NonEmpty([""]) == [];
    }
  }

  method ContainsDoubleDash(s: string) returns (found: bool)
    ensures found == HasDoubleDash(s)
  {
    var i := 0;
    while i + 1 < |s|
      invariant 0 <= i <= |s|
      invariant forall j :: 0 <= j < i && j < |s| - 1 ==> !(s[j] == '-' && s[j + 1] == '-')
    {
      if s[i] == '-' && s[i + 1] == '-' {
        return true;
      }
      i := i + 1;
    }
    return false;
  }

  method SanitizeName(lower: char -> char, title: string) returns (name: string)
    ensures name == Name(lower, title)
  {
    name := Filter(lower, title);
    var double := ContainsDoubleDash(name);
    while double
      invariant Words(name) == Words(Filter(lower, title))
      invariant double == HasDoubleDash(name)
      decreases |name|
    {
      ReplacingShortens(name);
      ReplacingKeepsWords(name);
      name := ReplaceDoubleDashes(name);
      double := ContainsDoubleDash(name);
    }
    TrimmingKeepsTidy(name);
    name := TrimDashes(name);
    TidyIsItsWords(name);
  }

  lemma TrimmingKeepsTidy(s: string)
    requires !HasDoubleDash(s)
    ensures Words(TrimDashes(s)) == Words(s)
    ensures var t := TrimDashes(s); !HasDoubleDash(t) && (t != "" ==> t[0] != '-' && t[|t| - 1] != '-')
  {
    var l := TrimLeftDashes(s);
    TrimmingLeftKeepsWords(s);
    TrimmingRightKeepsWords(l);
    var t := TrimDashes(s);
    var k := |s| - |l|;
    forall i | 0 <= i < |t| - 1 ensures !(t[i] == '-' && t[i + 1] == '-') {
      assert t[i] == s[k + i] && t[i + 1] == s[k + i + 1];
    }
  }

  predicate Tidy(s: string) {
    && (forall i :: 0 <= i < |s| ==> Plain(s[i]))
    && !HasDoubleDash(s)
    && (s != "" ==> s[0] != '-' && s[|s| - 1] != '-')
  }

  predicate PlainWord(w: string) {
    w != "" && forall i :: 0 <= i < |w| ==> Plain(w[i]) && w[i] != '-'
  }

  lemma {:induction false} FilteredIsPlain(lower: char -> char, title: string)
    ensures forall i :: 0 <= i < |Filter(lower, title)| ==> Plain(Filter(lower, title)[i])
  {
    if title != "" {
      FilteredIsPlain(lower, title[1..]);
    }
  }

  lemma {:induction false} WordsArePlain(s: string)
    requires forall i :: 0 <= i < |s| ==> Plain(s[i])
    ensures forall w :: w in Text.Split(s, '-') ==> w == "" || PlainWord(w)
    ensures forall w :: w in Words(s) ==> PlainWord(w)
  {
    if s != "" {
      WordsArePlain(s[1..]);
      var rest := Text.Split(s[1..], '-');
      assert rest[0] in rest;
      forall w | w in Text.Split(s, '-') ensures w == "" || PlainWord(w) {
        if s[0] != '-' {
          assert w == [s[0]] + rest[0] || w in rest[1..];
        }
      }
    }
    NonEmptyIsSelection(Text.Split(s, '-'));
  }

  lemma {:induction false} NonEmptyIsSelection(parts: seq<string>)
    ensures forall p :: p in Paths.NonEmpty(parts) <==> p in parts && p != ""
  {
    if parts != [] {
      NonEmptyIsSelection(parts[1..]);
      assert parts == [parts[0]] + parts[1..];
    }
  }

  lemma {:induction false} JoinedWordsAreTidy(words: seq<string>)
    requires forall w :: w in words ==> PlainWord(w)
    ensures Tidy(Text.Join(words, '-'))
    ensures words != [] ==> Text.Join(words, '-') != ""
  {
    if words != [] {
      var w, rest := words[0], Text.Join(words[1..], '-');
      assert w in words;
      JoinedWordsAreTidy(words[1..]);
      if |words| > 1 {
        var s := w + ['-'] + rest;
        forall i | 0 <= i < |s| - 1 ensures !(s[i] == '-' && s[i + 1] == '-') {
          if i >= |w| + 1 {
            assert s[i] == rest[i - |w| - 1] && s[i + 1] == rest[i - |w| - 1 + 1];
          }
        }
      }
    }
  }

  /** A name holds only lower-case letters, digits and single dashes, with none at either end. */
  lemma NameIsTidy(lower: char -> char, title: string)
    ensures Tidy(Name(lower, title))
  {
    FilteredIsPlain(lower, title);
    WordsArePlain(Filter(lower, title));
    JoinedWordsAreTidy(Words(Filter(lower, title)));
  }

  lemma {:induction false} FilterOfPlain(lower: char -> char, s: string)
    requires forall i :: 0 <= i < |s| ==> Plain(s[i])
    requires forall c: char :: Plain(c) ==> lower(c) == c
    ensures Filter(lower, s) == s
  {
    if s != "" {
      FilterOfPlain(lower, s[1..]);
      assert Plain(s[0]);
    }
  }

  /** A name is left alone exactly when it is tidy, so naming is idempotent. */
  lemma NamesAreFixed(lower: char -> char, title: string, s: string)
    requires forall c: char :: Plain(c) ==> lower(c) == c
    ensures Name(lower, s) == s <==> Tidy(s)
    ensures Name(lower, Name(lower, title)) == Name(lower, title)
  {
    NameIsTidy(lower, s);
    NameIsTidy(lower, title);
    TidyIsFixed(lower, Name(lower, title));
    if Tidy(s) {
      TidyIsFixed(lower, s);
    }
  }

  lemma TidyIsFixed(lower: char -> char, s: string)
    requires forall c: char :: Plain(c) ==> lower(c) == c
    requires Tidy(s)
    ensures Name(lower, s) == s
  {
    FilterOfPlain(lower, s);
    TidyIsItsWords(s);
  }

  // ---- The path of a worktree, and back ----------------------------------------------------

  const INSIDE := ".claude" + "/" + "worktrees" + "/"
  const MARKER := "/" + INSIDE

  function WorktreeBase(repo: string): string {
    Paths.Join([repo, ".claude", "worktrees"])
  }

  function WorktreeName(lower: char -> char, taskID: string, title: string): string
    requires |taskID| >= 8
  {
    taskID[..8] + "-" + Name(lower, title)
  }

  function WorktreePath(lower: char -> char, repo: string, taskID: string, title: string): string
    requires |taskID| >= 8
  {
    Paths.Join([WorktreeBase(repo), WorktreeName(lower, taskID, title)])
  }

  datatype Repo = Repo(path: string) | NoRepo

  predicate OccursAt(s: string, sub: string, i: int) {
    0 <= i <= |s| - |sub| && s[i..i + |sub|] == sub
  }

  /** `strings.LastIndex`: -1 when there is none. */
  function LastIndex(s: string, sub: string): (i: int)
    ensures i == -1 || OccursAt(s, sub, i)
    ensures forall j :: OccursAt(s, sub, j) ==> j <= i
  {
    LastIndexUpTo(s, sub, |s| - |sub|)
  }

  function LastIndexUpTo(s: string, sub: string, n: int): (i: int)
    requires n <= |s| - |sub|
    ensures i == -1 || OccursAt(s, sub, i)
    ensures forall j :: OccursAt(s, sub, j) && j <= n ==> j <= i
    decreases n + 1
  {
    if n < 0 then -1 else if OccursAt(s, sub, n) then n else LastIndexUpTo(s, sub, n - 1)
  }

  function ResolveRepoPath(worktreePath: string): Repo {
    var path := Paths.Clean(worktreePath);
    var i := LastIndex(path, MARKER);
    if i == -1 then NoRepo else Repo(path[..i])
  }

  lemma JoinOfTwo(a: string, b: string)
    requires a != "" && b != ""
    ensures Paths.Join([a, b]) == Paths.Clean(a + "/" + b)
  {
    NonEmptyIsWhole([a, b]);
    assert [a, b][1..] == [b];
    assert Text.Join([a, b], '/') == a + ['/'] + b;
  }

  lemma JoinOfThree(a: string, b: string, c: string)
    requires a != "" && b != "" && c != ""
    ensures Paths.Join([a, b, c]) == Paths.Clean(a + "/" + b + "/" + c)
    ensures Text.Join([a, b, c], '/') == a + "/" + b + "/" + c
  {
    NonEmptyIsWhole([a, b, c]);
    assert [a, b, c][1..] == [b, c] && [b, c][1..] == [c];
    assert Text.Join([b, c], '/') == b + ['/'] + c;
    assert Text.Join([a, b, c], '/') == a + ['/'] + (b + ['/'] + c);
    assert a + ['/'] + (b + ['/'] + c) == a + "/" + b + "/" + c;
  }

  lemma NoRepoComponents()
    ensures Paths.Components("") == [] && Paths.Components(".claude") == [".claude"]
  {
    Text.SplitSingle(".claude", '/');
    Paths.WalkSnoc(false, [], ".claude");
    Paths.WalkSkipsEmpty(false, []);
    assert [] + [".claude"] == [".claude"] && [""] + [] == [""];
  }

  /** The base directory, before it is cleaned. */
  function RawBase(repo: string): string {
    (if repo == "" then ".claude" else repo + "/" + ".claude") + "/" + "worktrees"
  }

  lemma BaseIsCleaned(repo: string)
    ensures WorktreeBase(repo) == Paths.Clean(RawBase(repo))
  {
    if repo == "" {
      assert ["", ".claude", "worktrees"][1..] == [".claude", "worktrees"];
      NonEmptyIsWhole([".claude", "worktrees"]);
      JoinOfTwo(".claude", "worktrees");
    } else {
      JoinOfThree(repo, ".claude", "worktrees");
    }
  }

  lemma BaseComponents(repo: string)
    ensures WorktreeBase(repo) != "" && Paths.Rooted(WorktreeBase(repo)) == Paths.Rooted(repo)
    ensures Paths.Components(WorktreeBase(repo)) == Paths.Components(repo) + [".claude", "worktrees"]
  {
    if repo == "" {
      NoRepoComponents();
      Paths.ComponentsAppend(".claude", "worktrees");
    } else {
      Paths.ComponentsAppend(repo, ".claude");
      Paths.ComponentsAppend(repo + "/" + ".claude", "worktrees");
    }
    BaseIsCleaned(repo);
    Paths.ComponentsOfClean(RawBase(repo));
    Paths.CleanShape(RawBase(repo));
  }

  lemma OneMoreBehind(stack: seq<string>, a: string, b: string, c: string)
    ensures stack + [a, b] + [c] == stack + [a, b, c]
  {
  }

  lemma ChildPath(base: string, name: string)
    requires base != "" && Paths.Ordinary(name)
    ensures var path := Paths.Join([base, name]);
            && Paths.Clean(path) == path && Paths.Rooted(path) == Paths.Rooted(base)
            && Paths.Components(path) == Paths.Components(base) + [name]
  {
    JoinOfTwo(base, name);
    Paths.ComponentsAppend(base, name);
    Paths.ComponentsOfClean(base + "/" + name);
  }

  lemma PathComponents(repo: string, name: string)
    requires Paths.Ordinary(name)
    ensures var path := Paths.Join([WorktreeBase(repo), name]);
            && Paths.Clean(path) == path
            && Paths.Rooted(path) == Paths.Rooted(repo)
            && Paths.Components(path) == Paths.Components(repo) + [".claude", "worktrees", name]
  {
    BaseComponents(repo);
    ChildPath(WorktreeBase(repo), name);
    OneMoreBehind(Paths.Components(repo), ".claude", "worktrees", name);
  }

  lemma JoinTail(stack: seq<string>, name: string)
    requires stack != []
    ensures Text.Join(stack + [".claude", "worktrees", name], '/') == Text.Join(stack, '/') + MARKER + name
  {
    Text.JoinSnoc(stack, '/', ".claude");
    Text.JoinSnoc(stack + [".claude"], '/', "worktrees");
    Text.JoinSnoc(stack + [".claude"] + ["worktrees"], '/', name);
    assert stack + [".claude", "worktrees", name] == stack + [".claude"] + ["worktrees"] + [name];
    TailText(Text.Join(stack, '/'), name);
  }

  lemma TailText(start: string, name: string)
    ensures start + ['/'] + ".claude" + ['/'] + "worktrees" + ['/'] + name == start + MARKER + name
  {
    Regroup(start, ['/'], ".claude", ['/'], "worktrees", ['/']);
  }

  lemma Regroup(start: string, a: string, b: string, c: string, d: string, e: string)
    ensures start + a + b + c + d + e == start + (a + (b + c + d + e))
  {
  }

  lemma RenderBelowRoot(name: string)
    requires name != ""
    ensures Paths.Render(true, [".claude", "worktrees", name]) == MARKER + name
    ensures Paths.Render(false, [".claude", "worktrees", name]) == INSIDE + name
  {
    JoinOfThree(".claude", "worktrees", name);
    assert ("/" + INSIDE) + name == "/" + (INSIDE + name);
  }

  lemma RenderTail(rooted: bool, stack: seq<string>, name: string)
    requires stack != []
    ensures Paths.Render(rooted, stack + [".claude", "worktrees", name]) == Paths.Render(rooted, stack) + MARKER + name
  {
    JoinTail(stack, name);
    var start := Text.Join(stack, '/');
    assert "/" + (start + MARKER + name) == ("/" + start) + MARKER + name;
  }

  /** How the path reads: the repository, the marker, the name. */
  lemma PathText(repo: string, name: string)
    requires Paths.Ordinary(name)
    ensures var path := Paths.Join([WorktreeBase(repo), name]);
            path == if Paths.Clean(repo) == "/" then MARKER + name
                    else if Paths.Clean(repo) == "." then INSIDE + name
                    else Paths.Clean(repo) + MARKER + name
  {
    PathComponents(repo, name);
    Paths.CleanShape(repo);
    if Paths.Components(repo) == [] {
      RenderBelowRoot(name);
      assert [] + [".claude", "worktrees", name] == [".claude", "worktrees", name];
    } else {
      RenderTail(Paths.Rooted(repo), Paths.Components(repo), name);
    }
  }

  /** The marker ends in a slash, so it cannot end where no slashes are left. */
  lemma MarkerBefore(s: string, n: nat)
    requires n <= |s| && forall k :: n <= k < |s| ==> s[k] != '/'
    ensures LastIndex(s, MARKER) + |MARKER| <= n || LastIndex(s, MARKER) == -1
  {
    var i := LastIndex(s, MARKER);
    if i != -1 {
      assert s[i + |MARKER| - 1] == s[i..i + |MARKER|][|MARKER| - 1];
    }
  }

  lemma LastMarker(front: string, name: string)
    requires '/' !in name
    ensures LastIndex(front + MARKER + name, MARKER) == |front|
  {
    var s := front + MARKER + name;
    assert OccursAt(s, MARKER, |front|);
    MarkerBefore(s, |front + MARKER|);
  }

  lemma NoMarker(name: string)
    requires '/' !in name
    ensures LastIndex(INSIDE + name, MARKER) == -1
  {
    MarkerBefore(INSIDE + name, |INSIDE|);
  }

  lemma NameIsOrdinary(lower: char -> char, taskID: string, title: string)
    requires |taskID| >= 8 && '/' !in taskID[..8]
    ensures Paths.Ordinary(WorktreeName(lower, taskID, title))
  {
    NameIsTidy(lower, title);
  }

  /** The repository is found again from the path of a task's worktree, for every repository path
      and title and every task ID whose first eight characters hold no slash, exactly when the
      cleaned repository path is neither "/" nor ".". */
  lemma RepoRoundTrip(lower: char -> char, repo: string, taskID: string, title: string)
    requires |taskID| >= 8 && '/' !in taskID[..8]
    ensures ResolveRepoPath(WorktreePath(lower, repo, taskID, title)) == Repo(Paths.Clean(repo))
            <==> Paths.Clean(repo) !in {"/", "."}
    ensures Paths.Clean(repo) == "/" ==> ResolveRepoPath(WorktreePath(lower, repo, taskID, title)) == Repo("")
    ensures Paths.Clean(repo) == "." ==> ResolveRepoPath(WorktreePath(lower, repo, taskID, title)) == NoRepo
  {
    var name := WorktreeName(lower, taskID, title);
    NameIsOrdinary(lower, taskID, title);
    PathComponents(repo, name);
    PathText(repo, name);
    if Paths.Clean(repo) == "/" {
      LastMarker("", name);
      assert "" + MARKER + name == MARKER + name;
    } else if Paths.Clean(repo) == "." {
      NoMarker(name);
    } else {
      LastMarker(Paths.Clean(repo), name);
    }
  }

  // ---- Starting a session inside a worktree -------------------------------------------------

  datatype Launch = Launch(dir: string, worktree: string) | NoLaunch

  /** Whether a project path is a worktree of the workspace, and which one. */
  function ResolveNativeLaunch(workspaceRoot: string, projectPath: string): Launch {
    var root, project := Paths.Clean(workspaceRoot), Paths.Clean(projectPath);
    if root == "" || project == "" then NoLaunch
    else
      match Paths.Rel(WorktreeBase(root), project)
      case NoRelation => NoLaunch
      case Relative(rel) =>
        if rel == "." || rel == "" || Text.HasPrefix(rel, "../") || rel == ".." || '/' in rel then NoLaunch
        else Launch(root, rel)
  }

  /** The direct children of the worktrees directory, and nothing else, are launched. */
  predicate IsWorktreeOf(workspaceRoot: string, projectPath: string, name: string) {
    && Paths.Rooted(projectPath) == Paths.Rooted(workspaceRoot)
    && Paths.Components(projectPath) == Paths.Components(workspaceRoot) + [".claude", "worktrees", name]
  }

  lemma JoinHasSeparator(parts: seq<string>)
    requires |parts| >= 2
    ensures '/' in Text.Join(parts, '/')
  {
    assert Text.Join(parts, '/')[|parts[0]|] == '/';
  }

  lemma {:induction false} CommonPrefixOfExtension(b: seq<string>, t: seq<string>)
    ensures Paths.CommonPrefix(b, t) == |b| <==> b <= t
  {
    if b != [] && t != [] && b[0] == t[0] {
      CommonPrefixOfExtension(b[1..], t[1..]);
      assert b == [b[0]] + b[1..] && t == [t[0]] + t[1..];
    }
  }

  lemma RelOfChild(base: string, target: string, name: string)
    requires Paths.Rooted(base) == Paths.Rooted(target)
    requires Paths.Components(target) == Paths.Components(base) + [name]
    ensures Paths.Rel(base, target) == Paths.Relative(name)
  {
    var b, t := Paths.Components(base), Paths.Components(target);
    Paths.ComponentsOfClean(base);
    Paths.ComponentsOfClean(target);
    assert b <= t;
    CommonPrefixOfExtension(b, t);
    assert Paths.Ups(0) + t[|b|..] == [name];
  }

  /** A relative path that climbs or has several components is not a single name. */
  lemma SingleName(b: seq<string>, t: seq<string>, name: string)
    requires var n := Paths.CommonPrefix(b, t); Text.Join(Paths.Ups(|b| - n) + t[n..], '/') == name
    requires name != "" && name != ".." && '/' !in name
    ensures t == b + [name]
  {
    var n := Paths.CommonPrefix(b, t);
    var parts := Paths.Ups(|b| - n) + t[n..];
    if |parts| >= 2 {
      JoinHasSeparator(parts);
    }
    assert parts == [name];
    assert |Paths.Ups(|b| - n)| == |b| - n;
    assert t == t[..n] + t[n..];
  }

  predicate SingleStep(rel: string) {
    rel != "." && rel != "" && rel != ".." && '/' !in rel
  }

  lemma RelIsChild(base: string, target: string, name: string)
    requires Paths.Rel(base, target) == Paths.Relative(name) && SingleStep(name)
    ensures Paths.Rooted(base) == Paths.Rooted(target)
    ensures Paths.Components(target) == Paths.Components(base) + [name]
  {
    Paths.ComponentsOfClean(base);
    Paths.ComponentsOfClean(target);
    SingleName(Paths.Components(base), Paths.Components(target), name);
  }

  lemma ResolveIsSingleStep(root: string, project: string, name: string)
    ensures Paths.Clean(root) != "" && Paths.Clean(project) != ""
    ensures ResolveNativeLaunch(root, project) == Launch(Paths.Clean(root), name)
            <==> SingleStep(name)
                 && Paths.Rel(WorktreeBase(Paths.Clean(root)), Paths.Clean(project)) == Paths.Relative(name)
  {
    Paths.CleanShape(root);
    Paths.CleanShape(project);
    if Text.HasPrefix(name, "../") {
      assert name[2] == '/';
    }
  }

  /** Seen from the worktrees directory of the cleaned root, the child is one component further. */
  lemma ChildOfBase(workspaceRoot: string, projectPath: string, name: string)
    ensures var base, project := WorktreeBase(Paths.Clean(workspaceRoot)), Paths.Clean(projectPath);
            IsWorktreeOf(workspaceRoot, projectPath, name)
            <==> Paths.Rooted(base) == Paths.Rooted(project)
                 && Paths.Components(project) == Paths.Components(base) + [name]
  {
    Paths.ComponentsOfClean(workspaceRoot);
    Paths.ComponentsOfClean(projectPath);
    BaseComponents(Paths.Clean(workspaceRoot));
    var stack := Paths.Components(workspaceRoot);
    assert stack + [".claude", "worktrees", name] == stack + [".claude", "worktrees"] + [name];
  }

  /** A path is launched as worktree `name` of a workspace, in the cleaned workspace root, iff it names that
      direct child of the workspace's worktrees directory; any other path is not launched at all. */
  lemma {:induction false} LaunchIsExact(workspaceRoot: string, projectPath: string, name: string)
    ensures ResolveNativeLaunch(workspaceRoot, projectPath) == Launch(Paths.Clean(workspaceRoot), name)
            <==> IsWorktreeOf(workspaceRoot, projectPath, name)
    ensures var launch := ResolveNativeLaunch(workspaceRoot, projectPath);
            launch.Launch? ==> launch.dir == Paths.Clean(workspaceRoot)
  {
    var base, project := WorktreeBase(Paths.Clean(workspaceRoot)), Paths.Clean(projectPath);
    ChildOfBase(workspaceRoot, projectPath, name);
    ResolveIsSingleStep(workspaceRoot, projectPath, name);
    if IsWorktreeOf(workspaceRoot, projectPath, name) {
      RelOfChild(base, project, name);
      ChildIsOrdinary(workspaceRoot, projectPath, name);
    }
    if SingleStep(name) && Paths.Rel(base, project) == Paths.Relative(name) {
      RelIsChild(base, project, name);
    }
  }

  lemma ChildIsOrdinary(workspaceRoot: string, projectPath: string, name: string)
    requires IsWorktreeOf(workspaceRoot, projectPath, name)
    ensures Paths.Ordinary(name)
  {
    Paths.ComponentsNormal(projectPath);
    var stack := Paths.Components(projectPath);
    assert stack[|stack| - 1] == name && stack[..|stack| - 1][|stack| - 2] == "worktrees";
  }

  /** A session started in a task's worktree is launched in the workspace under the worktree's own
      name, "/" and "." included. */
  lemma {:induction false} LaunchRoundTrip(lower: char -> char, repo: string, taskID: string, title: string)
    requires |taskID| >= 8 && '/' !in taskID[..8]
    ensures ResolveNativeLaunch(repo, WorktreePath(lower, repo, taskID, title))
            == Launch(Paths.Clean(repo), WorktreeName(lower, taskID, title))
  {
    NameIsOrdinary(lower, taskID, title);
    PathComponents(repo, WorktreeName(lower, taskID, title));
    LaunchIsExact(repo, WorktreePath(lower, repo, taskID, title), WorktreeName(lower, taskID, title));
  }
}
