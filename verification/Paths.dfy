/** `path/filepath` on a slash-separated system, lexically: no file is looked at. */
module Paths {

  import Text

  predicate Rooted(path: string) {
    path != "" && path[0] == '/'
  }

  /** One component on top of the cleaned components before it. */
  function Push(rooted: bool, stack: seq<string>, component: string): seq<string> {
    if component == "" || component == "." then stack
    else if component == ".." then
      if stack != [] && stack[|stack| - 1] != ".." then stack[..|stack| - 1]
      else if rooted then stack
      else stack + [".."]
    else stack + [component]
  }

  function Walk(rooted: bool, components: seq<string>): seq<string> {
    if components == [] then []
    else Push(rooted, Walk(rooted, components[..|components| - 1]), components[|components| - 1])
  }

  function Components(path: string): seq<string> {
    Walk(Rooted(path), Text.Split(path, '/'))
  }

  function Render(rooted: bool, components: seq<string>): string {
    if rooted then "/" + Text.Join(components, '/')
    else if components == [] then "."
    else Text.Join(components, '/')
  }

  function Clean(path: string): string {
    Render(Rooted(path), Components(path))
  }

  function NonEmpty(parts: seq<string>): seq<string> {
    if parts == [] then []
    else if parts[0] == "" then NonEmpty(parts[1..])
    else [parts[0]] + NonEmpty(parts[1..])
  }

  function Join(parts: seq<string>): string {
    if NonEmpty(parts) == [] then "" else Clean(Text.Join(NonEmpty(parts), '/'))
  }

  /** The length of `path` up to and including its last slash. */
  function AfterLastSlash(path: string): (n: nat)
    ensures n <= |path|
    ensures n > 0 ==> path[n - 1] == '/'
    ensures forall i :: n <= i < |path| ==> path[i] != '/'
  {
    if path == "" then 0
    else if path[|path| - 1] == '/' then |path|
    else AfterLastSlash(path[..|path| - 1])
  }

  function Dir(path: string): string {
    Clean(path[..AfterLastSlash(path)])
  }

  /** The extension: from the last dot of the last component, or nothing. */
  function Ext(path: string): (ext: string)
    ensures Text.HasSuffix(path, ext)
    ensures ext != "" ==> ext[0] == '.' && '/' !in ext
  {
    ExtFrom(path, |path|)
  }

  function ExtFrom(path: string, end: nat): (ext: string)
    requires end <= |path|
    requires forall i :: end <= i < |path| ==> path[i] != '/'
    ensures Text.HasSuffix(path, ext)
    ensures ext != "" ==> ext[0] == '.' && '/' !in ext
  {
    if end == 0 || path[end - 1] == '/' then ""
    else if path[end - 1] == '.' then path[end - 1..]
    else ExtFrom(path, end - 1)
  }

  function CommonPrefix(a: seq<string>, b: seq<string>): (n: nat)
    ensures n <= |a| && n <= |b| && a[..n] == b[..n]
    ensures n < |a| && n < |b| ==> a[n] != b[n]
  {
    if a != [] && b != [] && a[0] == b[0] then
      var n := CommonPrefix(a[1..], b[1..]);
      assert a[..n + 1] == [a[0]] + a[1..][..n];
      assert b[..n + 1] == [b[0]] + b[1..][..n];
      n + 1
    else 0
  }

  datatype Relative = Relative(path: string) | NoRelation

  function Ups(n: nat): (ups: seq<string>)
    ensures |ups| == n && forall i :: 0 <= i < n ==> ups[i] == ".."
  {
    if n == 0 then [] else [".."] + Ups(n - 1)
  }

  /** `filepath.Rel`: how to get from `base` to `target`. */
  function Rel(base: string, target: string): Relative {
    if Clean(base) == Clean(target) then Relative(".")
    else if Rooted(Clean(base)) != Rooted(Clean(target)) then NoRelation
    else
      var b, t := Components(base), Components(target);
      var n := CommonPrefix(b, t);
      if n < |b| && b[n] == ".." then NoRelation
      else Relative(Text.Join(Ups(|b| - n) + t[n..], '/'))
  }

  predicate Ordinary(component: string) {
    component != "" && component != "." && component != ".." && '/' !in component
  }

  lemma WalkSnoc(rooted: bool, components: seq<string>, last: string)
    ensures Walk(rooted, components + [last]) == Push(rooted, Walk(rooted, components), last)
  {
    var all := components + [last];
    assert all[..|all| - 1] == components;
  }

  /** Appending an ordinary component adds just that component. */
  lemma ComponentsAppend(path: string, name: string)
    requires path != "" && Ordinary(name)
    ensures Components(path + "/" + name) == Components(path) + [name]
    ensures Rooted(path + "/" + name) == Rooted(path)
  {
    Text.SplitAppend(path, '/', name);
    Text.SplitSingle(name, '/');
    WalkSnoc(Rooted(path), Text.Split(path, '/'), name);
  }

  lemma CleanShape(path: string)
    ensures Clean(path) != ""
    ensures Rooted(Clean(path)) == Rooted(path)
    ensures Components(path) == [] <==> Clean(path) == "/" || Clean(path) == "."
  {
    WalkNames(Rooted(path), Text.Split(path, '/'));
    Text.SplitParts(path, '/');
    var stack := Components(path);
    if stack != [] {
      assert stack[0] in stack;
      var text := Text.Join(stack, '/');
      JoinStart(stack);
      assert Render(true, stack) != "/" by { assert |Render(true, stack)| == 1 + |text|; }
      assert text != ".";
    }
  }

  lemma JoinStart(parts: seq<string>)
    requires parts != [] && parts[0] != "" && parts[0] != "." && '/' !in parts[0]
    ensures var text := Text.Join(parts, '/'); text != "" && text != "." && !Rooted(text)
  {
    var text := Text.Join(parts, '/');
    assert text[0] == parts[0][0] && parts[0][0] in parts[0];
    if |parts| > 1 {
      assert text[|parts[0]|] == '/';
    }
  }

  lemma {:induction false} WalkNames(rooted: bool, components: seq<string>)
    ensures forall c :: c in Walk(rooted, components) ==> c != "" && c != "." && c in components
  {
    if components != [] {
      var front, last := components[..|components| - 1], components[|components| - 1];
      WalkNames(rooted, front);
      var stack := Walk(rooted, front);
      assert components == front + [last];
      forall c | c in Push(rooted, stack, last) ensures c != "" && c != "." && c in components {
        assert c in stack || c == last;
      }
    }
  }

  /** The components a walk can leave: ordinary ones, below leading ".." unless the path is rooted. */
  predicate Normal(rooted: bool, stack: seq<string>) {
    stack == [] ||
    var front, last := stack[..|stack| - 1], stack[|stack| - 1];
    && Normal(rooted, front)
    && (Ordinary(last) || (last == ".." && !rooted && (front == [] || front[|front| - 1] == "..")))
  }

  lemma {:induction false} NormalHasNoSlash(rooted: bool, stack: seq<string>)
    requires Normal(rooted, stack)
    ensures forall c :: c in stack ==> '/' !in c && c != "" && c != "."
  {
    if stack != [] {
      var front, last := stack[..|stack| - 1], stack[|stack| - 1];
      NormalHasNoSlash(rooted, front);
      assert stack == front + [last];
    }
  }

  lemma {:induction false} WalkIsNormal(rooted: bool, components: seq<string>)
    requires forall c :: c in components ==> '/' !in c
    ensures Normal(rooted, Walk(rooted, components))
  {
    if components != [] {
      var front, last := components[..|components| - 1], components[|components| - 1];
      WalkIsNormal(rooted, front);
      assert last in components;
      var stack := Walk(rooted, front);
      assert forall c: string :: (stack + [c])[..|stack|] == stack;
    }
  }

  lemma {:induction false} WalkOfNormal(rooted: bool, stack: seq<string>)
    requires Normal(rooted, stack)
    ensures Walk(rooted, stack) == stack
  {
    if stack != [] {
      WalkOfNormal(rooted, stack[..|stack| - 1]);
    }
  }

  lemma {:induction false} WalkSkipsEmpty(rooted: bool, components: seq<string>)
    ensures Walk(rooted, [""] + components) == Walk(rooted, components)
  {
    var all := [""] + components;
    if components == [] {
      assert all[..0] == [];
      assert Walk(rooted, all) == Push(rooted, Walk(rooted, []), "");
    } else {
      WalkSkipsEmpty(rooted, components[..|components| - 1]);
      assert all[..|all| - 1] == [""] + components[..|components| - 1];
    }
  }

  lemma ComponentsNormal(path: string)
    ensures Normal(Rooted(path), Components(path))
  {
    Text.SplitParts(path, '/');
    WalkIsNormal(Rooted(path), Text.Split(path, '/'));
  }

  /** Cleaning loses nothing: the components of the cleaned path are the ones it was built from, so
      two paths clean alike iff they have the same components and are rooted alike. */
  lemma ComponentsOfClean(path: string)
    ensures Components(Clean(path)) == Components(path)
    ensures Rooted(Clean(path)) == Rooted(path)
    ensures Clean(Clean(path)) == Clean(path)
  {
    var rooted, stack := Rooted(path), Components(path);
    CleanShape(path);
    ComponentsNormal(path);
    NormalHasNoSlash(rooted, stack);
    WalkOfNormal(rooted, stack);
    var text := Text.Join(stack, '/');
    if stack == [] {
      assert Text.Split("/", '/') == ["", ""];
      Text.SplitSingle(".", '/');
      WalkSkipsEmpty(rooted, [""]);
      WalkSkipsEmpty(rooted, []);
      assert [""] + [""] == ["", ""] && [""] + [] == [""];
      WalkSnoc(rooted, [], ".");
      assert [] + ["."] == ["."];
    } else {
      Text.SplitJoin(stack, '/');
      if rooted {
        assert ("/" + text)[1..] == text;
        WalkSkipsEmpty(rooted, stack);
      }
    }
  }

  lemma {:induction false} LastSlashOf(front: string, name: string)
    requires '/' !in name
    ensures AfterLastSlash(front + "/" + name) == |front| + 1
  {
    var path := front + "/" + name;
    if name != "" {
      LastSlashOf(front, name[..|name| - 1]);
      assert path[..|path| - 1] == front + "/" + name[..|name| - 1];
      assert path[|path| - 1] == name[|name| - 1] && name[|name| - 1] in name;
    }
  }

  lemma {:induction false} NoDotNoExt(path: string, end: nat)
    requires end <= |path| && '.' !in path
    requires forall i :: end <= i < |path| ==> path[i] != '/'
    ensures ExtFrom(path, end) == ""
    decreases end
  {
    if end > 0 && path[end - 1] != '/' {
      NoDotNoExt(path, end - 1);
    }
  }

  /** A file directly below an ordinary directory, given by a relative path without dots. */
  lemma DirOfChild(dir: string, name: string)
    requires Ordinary(dir) && '/' !in name && '.' !in dir + "/" + name
    ensures Dir(dir + "/" + name) == dir && Ext(dir + "/" + name) == ""
  {
    var path := dir + "/" + name;
    NoDotNoExt(path, |path|);
    LastSlashOf(dir, name);
    assert path[..|dir| + 1] == dir + "/" + "";
    Text.SplitAppend(dir, '/', "");
    Text.SplitSingle(dir, '/');
    WalkSnoc(false, [], dir);
    WalkSnoc(false, [dir], "");
    assert [] + [dir] == [dir];
    assert !Rooted(dir + "/" + "") by { assert dir[0] in dir; }
  }
}
