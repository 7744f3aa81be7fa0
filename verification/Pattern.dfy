/** Permission patterns: how one is generated from a request, and what it then matches. */
module Pattern {

  import opened Text
  import Paths

  datatype Field = Missing | Present(value: string)

  /** The two string fields of a tool input that patterns look at. */
  datatype Input = Input(command: Field, filePath: Field)

  predicate Given(f: Field) {
    f.Present? && f.value != ""
  }

  predicate FileTool(tool: string) {
    tool in {"Write", "Edit", "Read"}
  }

  predicate TakesSubcommand(command: string) {
    command in {"git", "npm", "yarn", "pnpm", "go"}
  }

  /** The words a Bash pattern keeps of a command. */
  function KeptWords(fields: seq<string>): seq<string>
    requires fields != []
  {
    if TakesSubcommand(fields[0]) && |fields| >= 2 then fields[..2] else fields[..1]
  }

  function BashContent(input: Input): string {
    if !Given(input.command) || Fields(input.command.value) == [] then "*"
    else Join(KeptWords(Fields(input.command.value)), ' ') + ":*"
  }

  function FileContent(input: Input): string {
    if !Given(input.filePath) then "*"
    else
      var path := input.filePath.value;
      if Paths.Ext(path) != "" then "*" + Paths.Ext(path)
      else if Paths.Dir(path) != "" && Paths.Dir(path) != "." then Paths.Dir(path) + "/*"
      else "*"
  }

  function Content(tool: string, input: Input): string {
    if tool == "Bash" then BashContent(input)
    else if FileTool(tool) then FileContent(input)
    else "*"
  }

  function Wrap(tool: string, content: string): string {
    tool + "(" + content + ")"
  }

  function GeneratePattern(tool: string, input: Input): string {
    Wrap(tool, Content(tool, input))
  }

  predicate MatchBash(content: string, input: Input) {
    if !Given(input.command) then false
    else if HasSuffix(content, ":*") then
      Fields(TrimSuffix(content, ":*")) <= Fields(input.command.value)
    else input.command.value == content
  }

  /** The loop that compares the fields of a `prefix:*` pattern with those of the command. */
  method MatchBashPattern(content: string, input: Input) returns (matched: bool)
    ensures matched == MatchBash(content, input)
  {
    if !Given(input.command) {
      return false;
    }
    var command := input.command.value;
    if HasSuffix(content, ":*") {
      var commandParts, prefixParts := Fields(command), Fields(TrimSuffix(content, ":*"));
      if |commandParts| < |prefixParts| {
        return false;
      }
      for i := 0 to |prefixParts|
        invariant prefixParts[..i] == commandParts[..|prefixParts|][..i]
      {
        if commandParts[i] != prefixParts[i] {
          assert commandParts[..|prefixParts|][i] != prefixParts[i];
          return false;
        }
      }
      assert prefixParts[..|prefixParts|] == prefixParts && prefixParts == commandParts[..|prefixParts|];
      return true;
    }
    return command == content;
  }

  /** `glob` is `filepath.Match`, met only by patterns that no request generates. */
  predicate MatchFile(glob: (string, string) -> bool, content: string, input: Input) {
    if !Given(input.filePath) then false
    else
      var path := input.filePath.value;
      if HasPrefix(content, "*") then HasSuffix(path, content[1..])
      else if HasSuffix(content, "/*") then
        match Paths.Rel(TrimSuffix(content, "/*"), Paths.Dir(path))
        case Relative(rel) => !HasPrefix(rel, "..")
        case NoRelation => false
      else glob(content, path)
  }

  predicate MatchContent(glob: (string, string) -> bool, content: string, tool: string, input: Input) {
    if content == "*" then true
    else if tool == "Bash" then MatchBash(content, input)
    else if FileTool(tool) then MatchFile(glob, content, input)
    else false
  }

  predicate MatchPattern(glob: (string, string) -> bool, pattern: string, tool: string, input: Input) {
    if !HasPrefix(pattern, tool + "(") || !HasSuffix(pattern, ")") then false
    else
      // Go slices pattern[len(tool)+1 : len(pattern)-1]; the two tests above keep it in range.
      assert pattern[|tool|] == (tool + "(")[|tool|] == '(' && pattern[|pattern| - 1..][0] == ')';
      MatchContent(glob, pattern[|tool| + 1..|pattern| - 1], tool, input)
  }

  /** A pattern matches exactly what its content matches, for its tool. */
  lemma Unwrapped(glob: (string, string) -> bool, tool: string, content: string, input: Input)
    ensures MatchPattern(glob, Wrap(tool, content), tool, input) == MatchContent(glob, content, tool, input)
  {
    var p := Wrap(tool, content);
    assert p == (tool + "(") + (content + ")");
    assert p[|tool| + 1..|p| - 1] == content;
    assert p[|p| - 1..] == ")";
  }

  // ---- Generator and matcher agree --------------------------------------------------------

  lemma KeptWordsAreFields(fields: seq<string>)
    requires fields != [] && forall f :: f in fields ==> Word(f)
    ensures Fields(Join(KeptWords(fields), ' ')) == KeptWords(fields)
  {
    var kept := KeptWords(fields);
    assert fields[0] in fields;
    if |kept| == 2 {
      assert fields[1] in fields;
      FieldsOfTwoWords(kept[0], kept[1]);
      assert kept[1..] == [kept[1]];
      assert Join(kept, ' ') == kept[0] + " " + kept[1];
    } else {
      FieldsOfWord(kept[0]);
      assert kept == [kept[0]];
    }
  }

  lemma SuffixOf(a: string, b: string)
    ensures HasSuffix(a + b, b) && TrimSuffix(a + b, b) == a
  {
    assert (a + b)[|a|..] == b && (a + b)[..|a|] == a;
  }

  lemma BashAgrees(glob: (string, string) -> bool, input: Input)
    ensures MatchPattern(glob, GeneratePattern("Bash", input), "Bash", input)
  {
    Unwrapped(glob, "Bash", BashContent(input), input);
    if Given(input.command) && Fields(input.command.value) != [] {
      var fields := Fields(input.command.value);
      FieldsAreWords(input.command.value);
      KeptWordsAreFields(fields);
      SuffixOf(Join(KeptWords(fields), ' '), ":*");
    }
  }

  /** A directory pattern that begins with a star reads as an extension pattern. */
  predicate StarDirectory(path: string) {
    && Paths.Ext(path) == ""
    && HasPrefix(Paths.Dir(path), "*")
    && !HasSuffix(path, Paths.Dir(path)[1..] + "/*")
  }

  lemma FileAgrees(glob: (string, string) -> bool, tool: string, input: Input)
    requires FileTool(tool)
    ensures MatchPattern(glob, GeneratePattern(tool, input), tool, input)
            <==> !(Given(input.filePath) && StarDirectory(input.filePath.value))
  {
    Unwrapped(glob, tool, FileContent(input), input);
    if Given(input.filePath) {
      var path := input.filePath.value;
      Paths.CleanShape(path[..Paths.AfterLastSlash(path)]);
      if Paths.Ext(path) != "" {
        ExtensionAgrees(glob, path, input);
      } else if Paths.Dir(path) != "." {
        DirectoryAgrees(glob, path, input);
      } else {
        assert !StarDirectory(path);
      }
    }
  }

  lemma ExtensionAgrees(glob: (string, string) -> bool, path: string, input: Input)
    requires Given(input.filePath) && path == input.filePath.value && Paths.Ext(path) != ""
    ensures MatchFile(glob, "*" + Paths.Ext(path), input)
  {
    assert ("*" + Paths.Ext(path))[1..] == Paths.Ext(path);
  }

  lemma DirectoryAgrees(glob: (string, string) -> bool, path: string, input: Input)
    requires Given(input.filePath) && path == input.filePath.value
    requires Paths.Ext(path) == "" && Paths.Dir(path) != ""
    ensures Paths.Dir(path) + "/*" != "*"
    ensures MatchFile(glob, Paths.Dir(path) + "/*", input) <==> !StarDirectory(path)
  {
    var dir := Paths.Dir(path);
    SuffixOf(dir, "/*");
    assert (dir + "/*")[0] == dir[0];
    if HasPrefix(dir, "*") {
      assert (dir + "/*")[1..] == dir[1..] + "/*";
    } else {
      assert !HasPrefix(".", "..");
    }
  }

  /** Every generated pattern matches the request it came from, except in one case: a file path
      without an extension whose parent directory, cleaned, begins with a star.  Absolute paths are
      never such a case. */
  lemma GeneratorAgrees(glob: (string, string) -> bool, tool: string, input: Input)
    ensures MatchPattern(glob, GeneratePattern(tool, input), tool, input)
            <==> !(FileTool(tool) && Given(input.filePath) && StarDirectory(input.filePath.value))
    ensures Given(input.filePath) && Paths.Rooted(input.filePath.value) ==> !StarDirectory(input.filePath.value)
  {
    if tool == "Bash" {
      BashAgrees(glob, input);
    } else if FileTool(tool) {
      FileAgrees(glob, tool, input);
    } else {
      Unwrapped(glob, tool, "*", input);
    }
    if Given(input.filePath) && Paths.Rooted(input.filePath.value) {
      RootedDir(input.filePath.value);
    }
  }

  lemma RootedDir(path: string)
    requires Paths.Rooted(path)
    ensures Paths.Rooted(Paths.Dir(path))
  {
    var n := Paths.AfterLastSlash(path);
    assert path[0] == '/';
    Paths.CleanShape(path[..n]);
  }

  /** The one case, concretely: a relative path below a directory whose name begins with a star. */
  lemma StarDirectoryFails(glob: (string, string) -> bool)
    ensures var input := Input(Missing, Present("*a/b"));
            !MatchPattern(glob, GeneratePattern("Read", input), "Read", input)
  {
    var path := "*a/b";
    StarDirectoryExample();
    assert "*a"[1..] + "/*" == "a/*";
    assert path[|path| - 3..] == "a/b";
    FileAgrees(glob, "Read", Input(Missing, Present(path)));
  }

  lemma StarDirectoryExample()
    ensures Paths.Ext("*a/b") == "" && Paths.Dir("*a/b") == "*a"
  {
    assert "*a" + "/" + "b" == "*a/b";
    Paths.DirOfChild("*a", "b");
  }

  // ---- What patterns mean -----------------------------------------------------------------

  /** The words of `command` start with the words of `p`. */
  ghost predicate StartsWithWords(p: string, command: string) {
    exists v, w :: Spells(p, v) && Spells(command, w) && v <= w
  }

  lemma {:induction false} StartsWithThese(p: string, command: string, v: seq<string>, w: seq<string>)
    requires Spells(p, v) && Spells(command, w) && v <= w
    ensures StartsWithWords(p, command)
  {
  }

  lemma {:induction false} StartsWithFields(p: string, command: string)
    requires StartsWithWords(p, command)
    ensures Fields(p) <= Fields(command)
  {
    var v, w :| Spells(p, v) && Spells(command, w) && v <= w;
    SpelledAreFields(p, v);
    SpelledAreFields(command, w);
  }

  /** A `Bash(p:*)` pattern matches exactly the non-empty commands laid out as words that start with the
      words of `p`. */
  lemma {:induction false} BashPrefixMeaning(glob: (string, string) -> bool, p: string, input: Input)
    ensures MatchPattern(glob, Wrap("Bash", p + ":*"), "Bash", input)
            <==> Given(input.command) && StartsWithWords(p, input.command.value)
  {
    Unwrapped(glob, "Bash", p + ":*", input);
    SuffixOf(p, ":*");
    assert (p + ":*")[|p|] == ':';
    assert |p + ":*"| >= 2;
    if Given(input.command) {
      var command := input.command.value;
      if Fields(p) <= Fields(command) {
        FieldsSpell(p);
        FieldsSpell(command);
        StartsWithThese(p, command, Fields(p), Fields(command));
      }
      if StartsWithWords(p, command) {
        StartsWithFields(p, command);
      }
    }
  }

  /** A directory pattern matches exactly the paths below the directory: rooted alike, parents compared
      component by component, unless the next component itself begins with "..". */
  lemma DirectoryPatternMeaning(glob: (string, string) -> bool, tool: string, dir: string, input: Input)
    requires FileTool(tool) && !HasPrefix(dir, "*")
    ensures MatchPattern(glob, Wrap(tool, dir + "/*"), tool, input)
            <==> Given(input.filePath) && Within(dir, Paths.Dir(input.filePath.value))
  {
    Unwrapped(glob, tool, dir + "/*", input);
    SuffixOf(dir, "/*");
    assert (dir + "/*")[0] == if dir == "" then '/' else dir[0];
    if Given(input.filePath) {
      RelMeaning(dir, Paths.Dir(input.filePath.value));
    }
  }

  predicate Below(b: seq<string>, t: seq<string>) {
    b <= t && (|b| < |t| ==> !HasPrefix(t[|b|], ".."))
  }

  /** `target` is the directory or lies below it, by components. */
  predicate Within(dir: string, target: string) {
    Paths.Rooted(target) == Paths.Rooted(dir) && Below(Paths.Components(dir), Paths.Components(target))
  }

  /** What `Rel` makes of two paths with these components. */
  lemma RestMeaning(b: seq<string>, t: seq<string>)
    requires b != t
    requires forall c :: c in t ==> c != "" && '/' !in c
    ensures var n := Paths.CommonPrefix(b, t);
            !(n < |b| && b[n] == "..") && !HasPrefix(Text.Join(Paths.Ups(|b| - n) + t[n..], '/'), "..") <==> Below(b, t)
  {
    var n := Paths.CommonPrefix(b, t);
    if n < |b| {
      JoinHead(Paths.Ups(|b| - n) + t[n..]);
      if n < |t| { assert b[n] != t[n]; }
    } else {
      assert b <= t;
      assert Paths.Ups(0) + t[n..] == t[n..];
      assert t[n] in t;
      PrefixOfHead(t[n..]);
    }
  }

  lemma RelMeaning(dir: string, target: string)
    ensures (match Paths.Rel(dir, target) case Relative(rel) => !HasPrefix(rel, "..") case NoRelation => false)
            <==> Within(dir, target)
  {
    var b, t := Paths.Components(dir), Paths.Components(target);
    Paths.CleanShape(dir);
    Paths.CleanShape(target);
    if Paths.Clean(dir) == Paths.Clean(target) {
      Paths.ComponentsOfClean(dir);
      Paths.ComponentsOfClean(target);
    } else if Paths.Rooted(target) == Paths.Rooted(dir) {
      forall c | c in t ensures c != "" && '/' !in c { NoSlash(target, c); }
      RestMeaning(b, t);
    }
  }

  lemma JoinHead(parts: seq<string>)
    requires parts != []
    ensures HasPrefix(Text.Join(parts, '/'), parts[0])
  {
  }

  /** The first component decides whether a joined path begins with "..". */
  lemma PrefixOfHead(parts: seq<string>)
    requires parts != [] && parts[0] != "" && '/' !in parts[0]
    ensures HasPrefix(Text.Join(parts, '/'), "..") <==> HasPrefix(parts[0], "..")
  {
    var text := Text.Join(parts, '/');
    if |parts| > 1 && |parts[0]| == 1 {
      assert text[1] == '/';
    }
  }

  lemma NoSlash(path: string, component: string)
    requires component in Paths.Components(path)
    ensures '/' !in component && component != ""
  {
    Paths.WalkNames(Paths.Rooted(path), Text.Split(path, '/'));
    Text.SplitParts(path, '/');
  }

  /** No pattern generated for one tool matches a request of another, when tool names contain no
      opening parenthesis. */
  lemma PatternsSeparateTools(glob: (string, string) -> bool, tool: string, input: Input,
                              other: string, otherInput: Input)
    requires '(' !in tool && '(' !in other && tool != other
    ensures !MatchPattern(glob, GeneratePattern(tool, input), other, otherInput)
  {
    var p := GeneratePattern(tool, input);
    assert p[|tool|] == '(';
    if |other| < |tool| {
      assert p[|other|] == tool[|other|] && tool[|other|] in tool;
      assert (other + "(")[|other|] == '(';
    } else if |tool| < |other| {
      assert (other + "(")[|tool|] == other[|tool|] && other[|tool|] in other;
    } else {
      assert p[..|tool|] == tool;
      assert (other + "(")[..|tool|] == other;
    }
  }
}
