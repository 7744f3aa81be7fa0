/** What the path functions mean, told without them: how components arise one after the other, what a
    cleaned path, a parent directory and an extension are, and when two paths name the same place. */
module PathLaws {

  import Text
  import opened Paths

  // ---- Components, one after the other --------------------------------------------------------

  /** The components of a path that is a single name, rooted or not. */
  lemma FirstComponent(name: string)
    requires '/' !in name
    ensures Components(name) == if name == "" || name == "." then [] else [name]
    ensures Components("/" + name) == if name == "" || name == "." || name == ".." then [] else [name]
  {
    var path := "/" + name;
    Text.SplitSingle(name, '/');
    assert path[1..] == name;
    assert Text.Split(path, '/') == [""] + [name];
    WalkSkipsEmpty(true, [name]);
    WalkSnoc(true, [], name);
    WalkSnoc(false, [], name);
    assert [] + [name] == [name];
    assert !Rooted(name) by {
      if name != "" {
        assert name[0] in name;
      }
    }
  }

  /** The components after one more name: nothing new for an empty name or a dot; two dots take the last
      ordinary component away, stay where there is none, and vanish at the root; any other name is added. */
  lemma NextComponent(path: string, name: string)
    requires path != "" && '/' !in name
    ensures Rooted(path + "/" + name) == (path[0] == '/')
    ensures var before, after := Components(path), Components(path + "/" + name);
            && (name == "" || name == "." ==> after == before)
            && (name == ".." && before != [] && before[|before| - 1] != ".." ==> after == before[..|before| - 1])
            && (name == ".." && (before == [] || before[|before| - 1] == "..")
                ==> after == if path[0] == '/' then before else before + [".."])
            && (name != "" && name != "." && name != ".." ==> after == before + [name])
  {
    Text.SplitAppend(path, '/', name);
    Text.SplitSingle(name, '/');
    WalkSnoc(Rooted(path), Text.Split(path, '/'), name);
  }

  // ---- Cleaned paths, parents, extensions -----------------------------------------------------

  /** A cleaned path is the components between single slashes, after one slash if it is rooted; the root
      is one slash and the path with no components a dot. */
  lemma CleanIsLaidOut(path: string)
    ensures Components(path) == [] ==> Clean(path) == if Rooted(path) then "/" else "."
    ensures Components(path) != []
            ==> Text.Split(Clean(path), '/') == (if Rooted(path) then [""] else []) + Components(path)
  {
    var stack := Components(path);
    ComponentsNormal(path);
    NormalHasNoSlash(Rooted(path), stack);
    if stack != [] {
      Text.SplitJoin(stack, '/');
      assert ("/" + Text.Join(stack, '/'))[1..] == Text.Join(stack, '/');
    }
  }

  /** The parent of a path with a slash is everything before the last one, cleaned; without a slash it
      is the dot. */
  lemma DirMeans(path: string)
    ensures '/' !in path ==> Dir(path) == "."
    ensures forall front, name :: path == front + "/" + name && '/' !in name ==> Dir(path) == Clean(front + "/")
  {
    var n := AfterLastSlash(path);
    if '/' !in path {
      assert path[..0] == "";
      FirstComponent("");
    }
    forall front, name | path == front + "/" + name && '/' !in name ensures Dir(path) == Clean(front + "/") {
      LastSlashOf(front, name);
      assert path[..n] == front + "/";
    }
  }

  /** The extension is what starts at the last dot, when no slash follows that dot; otherwise there is none. */
  lemma ExtMeans(path: string)
    ensures Ext(path) != "" <==> exists i :: 0 <= i < |path| && path[i] == '.' && '/' !in path[i..]
    ensures Ext(path) != "" ==> Ext(path)[0] == '.' && '.' !in Ext(path)[1..] && '/' !in Ext(path)
    ensures Text.HasSuffix(path, Ext(path))
  {
    ExtFromMeans(path, |path|);
    if i :| 0 <= i < |path| && path[i] == '.' && '/' !in path[i..] {
      forall j | i <= j < |path| ensures path[j] != '/' {
        assert path[i..][j - i] == path[j];
      }
    }
    if Ext(path) != "" {
      var i := |path| - |Ext(path)|;
      assert path[i] == '.' && '/' !in path[i..];
    }
  }

  lemma {:induction false} ExtFromMeans(path: string, end: nat)
    requires end <= |path|
    requires forall i :: end <= i < |path| ==> path[i] != '/' && path[i] != '.'
    ensures var ext := ExtFrom(path, end);
            && (ext != "" ==> '.' !in ext[1..])
            && (ext == "" ==> forall i :: 0 <= i < |path| && path[i] == '.' ==> exists j :: i < j < |path| && path[j] == '/')
    decreases end
  {
    if end > 0 && path[end - 1] != '/' && path[end - 1] != '.' {
      ExtFromMeans(path, end - 1);
    }
  }

  // ---- The same place, up to letter case ------------------------------------------------------

  predicate SameLetters(lower: char -> char, a: string, b: string) {
    |a| == |b| && forall i :: 0 <= i < |a| ==> lower(a[i]) == lower(b[i])
  }

  /** Two paths that name one place when letter case is ignored: both rooted or neither, and the same
      components one by one. */
  predicate SamePath(lower: char -> char, p: string, q: string) {
    && Rooted(p) == Rooted(q)
    && |Components(p)| == |Components(q)|
    && forall i :: 0 <= i < |Components(p)| ==> SameLetters(lower, Components(p)[i], Components(q)[i])
  }

  /** No other character becomes a slash or a dot, and these two stay. */
  ghost predicate KeepsMarks(lower: char -> char) {
    forall c :: (lower(c) == '/' <==> c == '/') && (lower(c) == '.' <==> c == '.')
  }

  function LoweredAll(lower: char -> char, names: seq<string>): seq<string> {
    seq(|names|, i requires 0 <= i < |names| => Text.Lowered(lower, names[i]))
  }

  lemma {:induction false} LoweredJoin(lower: char -> char, names: seq<string>)
    requires KeepsMarks(lower)
    ensures Text.Lowered(lower, Text.Join(names, '/')) == Text.Join(LoweredAll(lower, names), '/')
  {
    if |names| > 1 {
      LoweredJoin(lower, names[1..]);
      assert LoweredAll(lower, names)[1..] == LoweredAll(lower, names[1..]);
    }
  }

  lemma LoweredRender(lower: char -> char, rooted: bool, names: seq<string>)
    requires KeepsMarks(lower)
    ensures Text.Lowered(lower, Render(rooted, names)) == Render(rooted, LoweredAll(lower, names))
  {
    LoweredJoin(lower, names);
    assert Text.Lowered(lower, ".") == ".";
    var text := Text.Join(names, '/');
    assert Text.Lowered(lower, "/" + text) == "/" + Text.Lowered(lower, text);
  }

  /** Components that a path can have. */
  predicate Plain(names: seq<string>) {
    forall name :: name in names ==> '/' !in name && name != "" && name != "."
  }

  lemma LoweredIsPlain(lower: char -> char, names: seq<string>)
    requires KeepsMarks(lower) && Plain(names)
    ensures Plain(LoweredAll(lower, names))
  {
    var all := LoweredAll(lower, names);
    forall name | name in all ensures '/' !in name && name != "" && name != "." {
      var i :| 0 <= i < |all| && all[i] == name;
      assert names[i] in names;
    }
  }

  lemma RenderDetermines(r1: bool, names1: seq<string>, r2: bool, names2: seq<string>)
    requires Plain(names1) && Plain(names2)
    requires Render(r1, names1) == Render(r2, names2)
    ensures r1 == r2 && names1 == names2
  {
    RenderShape(r1, names1);
    RenderShape(r2, names2);
  }

  lemma RenderShape(rooted: bool, names: seq<string>)
    requires Plain(names)
    ensures var path := Render(rooted, names);
            && Rooted(path) == rooted
            && (names == [] <==> path == "/" || path == ".")
            && (names != [] ==> Text.Split(if rooted then path[1..] else path, '/') == names)
  {
    if names != [] {
      assert names[0] in names;
      JoinStart(names);
      Text.SplitJoin(names, '/');
      assert ("/" + Text.Join(names, '/'))[1..] == Text.Join(names, '/');
    }
  }

  lemma SameLowered(lower: char -> char, a: string, b: string)
    ensures Text.Lowered(lower, a) == Text.Lowered(lower, b) <==> SameLetters(lower, a, b)
  {
    var x, y := Text.Lowered(lower, a), Text.Lowered(lower, b);
    if x == y {
      forall i | 0 <= i < |a| ensures lower(a[i]) == lower(b[i]) {
        assert x[i] == y[i];
      }
    }
  }

  lemma SameLoweredAll(lower: char -> char, a: seq<string>, b: seq<string>)
    ensures LoweredAll(lower, a) == LoweredAll(lower, b)
            <==> |a| == |b| && forall i :: 0 <= i < |a| ==> SameLetters(lower, a[i], b[i])
  {
    var x, y := LoweredAll(lower, a), LoweredAll(lower, b);
    if |a| == |b| {
      forall i | 0 <= i < |a| ensures x[i] == y[i] <==> SameLetters(lower, a[i], b[i]) {
        SameLowered(lower, a[i], b[i]);
      }
      if x == y {
        forall i | 0 <= i < |a| ensures SameLetters(lower, a[i], b[i]) {
          assert x[i] == y[i];
        }
      }
    }
  }

  /** Cleaning and lower-casing gives two paths one text exactly when they name one place. */
  lemma SameText(lower: char -> char, p: string, q: string)
    requires KeepsMarks(lower)
    ensures Text.Lowered(lower, Clean(p)) == Text.Lowered(lower, Clean(q)) <==> SamePath(lower, p, q)
  {
    var a, b := Components(p), Components(q);
    ComponentsNormal(p);
    NormalHasNoSlash(Rooted(p), a);
    ComponentsNormal(q);
    NormalHasNoSlash(Rooted(q), b);
    LoweredRender(lower, Rooted(p), a);
    LoweredRender(lower, Rooted(q), b);
    LoweredIsPlain(lower, a);
    LoweredIsPlain(lower, b);
    SameLoweredAll(lower, a, b);
    if Text.Lowered(lower, Clean(p)) == Text.Lowered(lower, Clean(q)) {
      RenderDetermines(Rooted(p), LoweredAll(lower, a), Rooted(q), LoweredAll(lower, b));
    }
  }
}
