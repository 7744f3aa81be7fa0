/** What the name of a title is, told letter by letter, and what the path of a task's worktree is. */
module WorktreeLaws {

  import Text
  import Paths
  import opened Selections
  import opened Worktree

  predicate Letter(c: char) {
    'a' <= c <= 'z' || '0' <= c <= '9'
  }

  /** Spaces, underscores and dashes end a word; all else that is no letter or digit is passed over. */
  predicate EndsWord(c: char) {
    c == ' ' || c == '_' || c == '-'
  }

  ghost predicate Between(low: string, a: int, b: int) {
    exists i :: a < i < b && 0 <= i < |low| && EndsWord(low[i])
  }

  /** `js` are the places of the letters and digits in the lower-cased title. */
  ghost predicate LettersAt(low: string, js: seq<int>) {
    Increasing(js) && forall i :: i in js <==> 0 <= i < |low| && Letter(low[i])
  }

  /** The name has those letters in that order, at the places `ks`: side by side within a word, one dash
      apart between words, and nothing else. */
  ghost predicate SpelledBy(name: string, ks: seq<int>, low: string, js: seq<int>) {
    && |ks| == |js|
    && (ks == [] ==> name == "")
    && (ks != [] ==> ks[0] == 0 && ks[|ks| - 1] == |name| - 1)
    && (forall m :: 0 <= m < |ks| ==> 0 <= ks[m] < |name| && 0 <= js[m] < |low| && name[ks[m]] == low[js[m]])
    && (forall m :: 0 < m < |ks| ==> Apart(name, ks, low, js, m))
  }

  ghost predicate Apart(name: string, ks: seq<int>, low: string, js: seq<int>, m: int)
    requires 0 < m < |ks| && |js| == |ks|
  {
    if Between(low, js[m - 1], js[m]) then ks[m] == ks[m - 1] + 2 && 0 <= ks[m - 1] + 1 < |name| && name[ks[m - 1] + 1] == '-'
    else ks[m] == ks[m - 1] + 1
  }

  // ---- One more character -------------------------------------------------------------------------

  lemma {:induction false} FilterSnoc(lower: char -> char, title: string, c: char)
    ensures Filter(lower, title + [c]) == Filter(lower, title) + Kept(lower(c))
  {
    if title == "" {
      assert (title + [c])[1..] == "";
    } else {
      FilterSnoc(lower, title[1..], c);
      assert (title + [c])[1..] == title[1..] + [c];
    }
  }

  lemma SplitSnoc(s: string, c: char)
    requires c != '-'
    ensures var p := Text.Split(s, '-'); Text.Split(s + [c], '-') == p[..|p| - 1] + [p[|p| - 1] + [c]]
  {
    var p := Text.Split(s, '-');
    var parts := p[..|p| - 1] + [p[|p| - 1] + [c]];
    Text.SplitParts(s, '-');
    JoinLonger(p, c);
    Text.JoinSplit(s, '-');
    Text.SplitJoin(parts, '-');
  }

  lemma WordsAfterDash(s: string)
    ensures Words(s + "-") == Words(s)
  {
    Text.SplitAppend(s, '-', "");
    assert s + ['-'] + "" == s + "-";
    NonEmptyAppend(Text.Split(s, '-'), [""]);
    assert Paths.NonEmpty([""]) == [];
    assert Words(s) + [] == Words(s);
  }

  lemma {:induction false} LastPart(s: string)
    ensures var p := Text.Split(s, '-'); p[|p| - 1] == "" <==> s == "" || s[|s| - 1] == '-'
  {
    if |s| == 1 {
      assert s[1..] == "";
    } else if |s| > 1 {
      LastPart(s[1..]);
    }
  }

  /** A letter starts a word after a dash or at the front, and otherwise makes the last word longer. */
  lemma WordsAfterLetter(s: string, c: char)
    requires c != '-'
    ensures if s == "" || s[|s| - 1] == '-' then Words(s + [c]) == Words(s) + [[c]]
            else Words(s) != [] && Words(s + [c]) == Words(s)[..|Words(s)| - 1] + [Words(s)[|Words(s)| - 1] + [c]]
  {
    var p := Text.Split(s, '-');
    var front, last := p[..|p| - 1], p[|p| - 1];
    SplitSnoc(s, c);
    LastPart(s);
    assert p == front + [last];
    NonEmptyAppend(front, [last]);
    NonEmptyAppend(front, [last + [c]]);
    OneWord(last);
    OneWord(last + [c]);
    if last == "" {
      assert Paths.NonEmpty(front) + [] == Paths.NonEmpty(front);
      assert last + [c] == [c];
    }
  }

  lemma OneWord(w: string)
    ensures Paths.NonEmpty([w]) == if w == "" then [] else [w]
  {
    assert [w][1..] == [];
  }

  lemma {:induction false} JoinLonger(words: seq<string>, c: char)
    requires words != []
    ensures Text.Join(words[..|words| - 1] + [words[|words| - 1] + [c]], '-') == Text.Join(words, '-') + [c]
  {
    if |words| > 1 {
      JoinLonger(words[1..], c);
      var more := words[..|words| - 1] + [words[|words| - 1] + [c]];
      assert more[1..] == words[1..][..|words| - 2] + [words[|words| - 1] + [c]];
      assert Text.Join(more, '-') == words[0] + ['-'] + Text.Join(more[1..], '-');
    } else {
      assert words[..0] + [words[0] + [c]] == [words[0] + [c]];
    }
  }

  /** The name of one more character. */
  lemma NameOfOneMore(s: string, c: char)
    ensures var name := Text.Join(Words(s), '-');
            if c == '-' then Text.Join(Words(s + [c]), '-') == name
            else if Words(s) == [] then Text.Join(Words(s + [c]), '-') == [c]
            else if s[|s| - 1] == '-' then Text.Join(Words(s + [c]), '-') == name + "-" + [c]
            else Text.Join(Words(s + [c]), '-') == name + [c]
    ensures Words(s) != [] ==> s != ""
  {
    if s == "" {
      OneWord("");
    }
    if c == '-' {
      WordsAfterDash(s);
    } else {
      WordsAfterLetter(s, c);
      if Words(s) == [] {
        assert [] + [[c]] == [[c]];
      } else if s[|s| - 1] == '-' {
        Text.JoinSnoc(Words(s), '-', [c]);
      } else {
        JoinLonger(Words(s), c);
      }
    }
  }

  // ---- The law --------------------------------------------------------------------------------------

  /** What is known of a title read so far: how its name is spelled, and whether a word has ended since the
      last letter. */
  ghost predicate Read(low: string, s: string, js: seq<int>, ks: seq<int>) {
    && LettersAt(low, js)
    && SpelledBy(Text.Join(Words(s), '-'), ks, low, js)
    && (js == [] <==> Words(s) == [])
    && (js != [] ==> s != "" && (s[|s| - 1] == '-' <==> Between(low, js[|js| - 1], |low|)))
  }

  lemma BetweenSame(low: string, c: char, a: int, b: int)
    requires b <= |low|
    ensures Between(low + [c], a, b) <==> Between(low, a, b)
    ensures !EndsWord(c) ==> (Between(low + [c], a, |low| + 1) <==> Between(low, a, |low|))
  {
    var longer := low + [c];
    assert forall i :: 0 <= i < |low| ==> EndsWord(longer[i]) == EndsWord(low[i]);
    if i :| a < i < |low| && 0 <= i && EndsWord(low[i]) {
      assert EndsWord(longer[i]);
    }
  }

  lemma SameApart(name: string, ks: seq<int>, low: string, js: seq<int>, c: char)
    requires SpelledBy(name, ks, low, js)
    ensures SpelledBy(name, ks, low + [c], js)
  {
    forall m | 0 < m < |ks| ensures Apart(name, ks, low + [c], js, m) {
      assert Apart(name, ks, low, js, m);
      BetweenSame(low, c, js[m - 1], js[m]);
    }
  }

  /** A character that is no letter. */
  lemma ReadOther(low: string, s: string, js: seq<int>, ks: seq<int>, c: char)
    requires Read(low, s, js, ks) && !Letter(c)
    ensures Read(low + [c], s + Kept(c), js, ks)
  {
    SameApart(Text.Join(Words(s), '-'), ks, low, js, c);
    if EndsWord(c) {
      WordsAfterDash(s);
      assert (low + [c])[|low|] == c;
    } else {
      assert s + Kept(c) == s;
      if js != [] {
        BetweenSame(low, c, js[|js| - 1], |low|);
      }
    }
  }

  lemma SpelledLonger(name: string, ks: seq<int>, low: string, js: seq<int>, c: char, more: string)
    requires SpelledBy(name, ks, low, js)
    requires |low| !in js
    requires more == if ks == [] then [c]
                     else if Between(low, js[|js| - 1], |low|) then name + "-" + [c] else name + [c]
    ensures SpelledBy(more, ks + [|more| - 1], low + [c], js + [|low|])
  {
    var ls, ms, longer := ks + [|more| - 1], js + [|low|], low + [c];
    forall m | 0 < m < |ls| ensures Apart(more, ls, longer, ms, m) {
      if m < |ks| {
        assert Apart(name, ks, low, js, m);
        BetweenSame(low, c, js[m - 1], js[m]);
      } else {
        BetweenSame(low, c, js[m - 1], |low|);
      }
    }
  }

  lemma LettersNext(low: string, js: seq<int>, c: char)
    requires LettersAt(low, js) && Letter(c)
    ensures LettersAt(low + [c], js + [|low|]) && |low| !in js
  {
    OneMore(js, |low|);
  }

  lemma NotBetween(low: string, n: int)
    ensures !Between(low, n, n + 1)
  {
  }

  /** A letter or digit. */
  lemma ReadLetter(low: string, s: string, js: seq<int>, ks: seq<int>, c: char, name: string)
    requires Read(low, s, js, ks) && Letter(c)
    requires name == Text.Join(Words(s + [c]), '-')
    ensures Read(low + [c], s + [c], js + [|low|], ks + [|name| - 1])
  {
    NameOfOneMore(s, c);
    LettersNext(low, js, c);
    SpelledLonger(Text.Join(Words(s), '-'), ks, low, js, c, name);
    WordsAfterLetter(s, c);
    NotBetween(low + [c], |low|);
  }

  lemma ReadNext(low: string, s: string, js: seq<int>, ks: seq<int>, c: char) returns (js': seq<int>, ks': seq<int>)
    requires Read(low, s, js, ks)
    ensures Read(low + [c], s + Kept(c), js', ks')
  {
    js', ks' := js, ks;
    if Letter(c) {
      var name := Text.Join(Words(s + [c]), '-');
      ReadLetter(low, s, js, ks, c, name);
      js', ks' := js + [|low|], ks + [|name| - 1];
    } else {
      ReadOther(low, s, js, ks, c);
    }
  }

  lemma {:induction false} ReadTitle(lower: char -> char, title: string) returns (js: seq<int>, ks: seq<int>)
    ensures Read(Text.Lowered(lower, title), Filter(lower, title), js, ks)
  {
    js, ks := [], [];
    if title == "" {
      OneWord("");
    } else {
      var front, last := title[..|title| - 1], title[|title| - 1];
      js, ks := ReadTitle(lower, front);
      js, ks := ReadNext(Text.Lowered(lower, front), Filter(lower, front), js, ks, lower(last));
      assert title == front + [last];
      FilterSnoc(lower, front, last);
      assert Text.Lowered(lower, title) == Text.Lowered(lower, front) + [lower(last)];
    }
  }

  /** The name of a title: the letters and digits of the lower-cased title, one dash where at least one
      space, underscore or dash stood between two of them. */
  lemma {:induction false} NameMeans(lower: char -> char, title: string) returns (js: seq<int>, ks: seq<int>)
    ensures LettersAt(Text.Lowered(lower, title), js)
    ensures SpelledBy(Name(lower, title), ks, Text.Lowered(lower, title), js)
  {
    js, ks := ReadTitle(lower, title);
  }

  // ---- The path ---------------------------------------------------------------------------------------

  /** The path of a task's worktree: below the repository, the two fixed directories, and then the first eight
      characters of the task's ID, a dash and the name of its title.  It is a cleaned path. */
  lemma PathMeans(lower: char -> char, repo: string, taskID: string, title: string)
    requires |taskID| >= 8 && '/' !in taskID[..8]
    ensures var path := WorktreePath(lower, repo, taskID, title);
            && Paths.Components(path)
               == Paths.Components(repo) + [".claude", "worktrees", taskID[..8] + "-" + Name(lower, title)]
            && Paths.Rooted(path) == Paths.Rooted(repo) && Paths.Clean(path) == path
  {
    NameIsOrdinary(lower, taskID, title);
    PathComponents(repo, WorktreeName(lower, taskID, title));
  }

  /** Tasks whose IDs differ in the first eight characters never share a worktree. */
  lemma TasksKeepApart(lower: char -> char, repo: string, taskID: string, title: string, otherID: string, otherTitle: string)
    requires |taskID| >= 8 && '/' !in taskID[..8] && |otherID| >= 8 && '/' !in otherID[..8]
    requires taskID[..8] != otherID[..8]
    ensures WorktreePath(lower, repo, taskID, title) != WorktreePath(lower, repo, otherID, otherTitle)
  {
    PathMeans(lower, repo, taskID, title);
    PathMeans(lower, repo, otherID, otherTitle);
    var a, b := taskID[..8] + "-" + Name(lower, title), otherID[..8] + "-" + Name(lower, otherTitle);
    assert a[..8] == taskID[..8] && b[..8] == otherID[..8];
    var stack := Paths.Components(repo);
    assert (stack + [".claude", "worktrees", a])[|stack| + 2] == a;
    assert (stack + [".claude", "worktrees", b])[|stack| + 2] == b;
  }
}
