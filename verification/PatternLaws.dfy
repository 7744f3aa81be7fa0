/** Which requests a generated pattern answers: told by the words of the two commands, or by the
    extension or the directory of the two paths. */
module PatternLaws {

  import opened Pattern
  import Paths
  import Text

  /** A pattern matches only in the form tool(content), and then as its content does. */
  lemma MatchedIsWrapped(glob: (string, string) -> bool, pattern: string, tool: string, j: Input)
    requires MatchPattern(glob, pattern, tool, j)
    ensures |pattern| >= |tool| + 2
    ensures var content := pattern[|tool| + 1..|pattern| - 1];
            pattern == tool + "(" + content + ")" && MatchContent(glob, content, tool, j)
  {
    assert pattern[|tool|] == (tool + "(")[|tool|] == '(' && pattern[|pattern| - 1..][0] == ')';
    var content := pattern[|tool| + 1..|pattern| - 1];
    var head := tool + "(";
    assert pattern[..|head|] == head && pattern[|pattern| - 1..] == ")";
    assert pattern == pattern[..|head|] + content + pattern[|pattern| - 1..];
  }

  // ---- Commands -----------------------------------------------------------------------------

  /** Two commands count as the same when their first words agree and, for the five commands that take
      a subcommand, the second words as well, if the first command has one. */
  predicate SameCommand(v: seq<string>, w: seq<string>) {
    && v != [] && w != [] && w[0] == v[0]
    && (v[0] in {"git", "npm", "yarn", "pnpm", "go"} && |v| >= 2 ==> |w| >= 2 && w[1] == v[1])
  }

  ghost predicate Repeats(command: string, other: string) {
    exists v, w :: Text.Spells(command, v) && Text.Spells(other, w) && SameCommand(v, w)
  }

  lemma RepeatsByWords(command: string, other: string, v: seq<string>, w: seq<string>)
    requires Text.Spells(command, v) && Text.Spells(other, w) && SameCommand(v, w)
    ensures Repeats(command, other)
  {
  }

  lemma RepeatsMeans(command: string, other: string)
    ensures Repeats(command, other) <==> SameCommand(Text.Fields(command), Text.Fields(other))
  {
    Text.FieldsSpell(command);
    Text.FieldsSpell(other);
    if SameCommand(Text.Fields(command), Text.Fields(other)) {
      RepeatsByWords(command, other, Text.Fields(command), Text.Fields(other));
    }
    if Repeats(command, other) {
      var v, w :| Text.Spells(command, v) && Text.Spells(other, w) && SameCommand(v, w);
      Text.SpelledAreFields(command, v);
      Text.SpelledAreFields(other, w);
    }
  }

  lemma KeptMeans(v: seq<string>, w: seq<string>)
    requires v != []
    ensures KeptWords(v) <= w <==> SameCommand(v, w)
  {
    assert v[..1] == [v[0]];
    if |v| >= 2 {
      assert v[..2] == [v[0], v[1]];
    }
    if |w| >= 1 {
      assert w[..1] == [w[0]];
    }
    if |w| >= 2 {
      assert w[..2] == [w[0], w[1]];
    }
  }

  /** No command, or one of spaces only. */
  ghost predicate NoWords(f: Field) {
    f.Missing? || Text.Spells(f.value, [])
  }

  lemma NoWordsMeans(f: Field)
    ensures NoWords(f) <==> !Given(f) || Text.Fields(f.value) == []
  {
    if f.Present? {
      Text.FieldsSpell(f.value);
      if Text.Spells(f.value, []) {
        Text.SpelledAreFields(f.value, []);
      }
    }
  }

  /** The pattern remembered for a command answers exactly the requests that repeat that command; the one
      remembered for a request without a command answers every Bash request. */
  lemma {:induction false} GeneratedBashMeans(glob: (string, string) -> bool, i: Input, j: Input)
    ensures MatchPattern(glob, GeneratePattern("Bash", i), "Bash", j)
            <==> NoWords(i.command) || (j.command.Present? && Repeats(i.command.value, j.command.value))
  {
    NoWordsMeans(i.command);
    Unwrapped(glob, "Bash", BashContent(i), j);
    if Given(i.command) && Text.Fields(i.command.value) != [] {
      KeptAnswers(glob, i.command.value, j);
      if j.command.Present? {
        RepeatsMeans(i.command.value, j.command.value);
      }
    }
  }

  lemma KeptAnswers(glob: (string, string) -> bool, command: string, j: Input)
    requires Text.Fields(command) != []
    ensures MatchContent(glob, Text.Join(KeptWords(Text.Fields(command)), ' ') + ":*", "Bash", j)
            <==> j.command.Present? && SameCommand(Text.Fields(command), Text.Fields(j.command.value))
  {
    var fields := Text.Fields(command);
    Text.FieldsAreWords(command);
    KeptWordsAreFields(fields);
    var text := Text.Join(KeptWords(fields), ' ');
    SuffixOf(text, ":*");
    assert |text + ":*"| >= 2;
    if j.command.Present? {
      KeptMeans(fields, Text.Fields(j.command.value));
    }
  }

  /** A pattern that does not end in ":*" answers that one command. */
  lemma ExactBashMeans(glob: (string, string) -> bool, content: string, j: Input)
    requires content != "*" && !Text.HasSuffix(content, ":*")
    ensures MatchPattern(glob, Wrap("Bash", content), "Bash", j) <==> content != "" && j.command == Present(content)
  {
    Unwrapped(glob, "Bash", content, j);
  }

  // ---- Files ----------------------------------------------------------------------------------

  /** A path without an extension in the current directory itself. */
  predicate Loose(path: string) {
    Paths.Ext(path) == "" && !Paths.Rooted(Paths.Dir(path)) && Paths.Components(Paths.Dir(path)) == []
  }

  /** The paths that the pattern remembered for `path` answers: with an extension, those that end alike;
      else, for a directory whose text begins with a star, those that end in the rest of that text and
      "/" and a star; else those whose directory is that of `path` or lies below it. */
  predicate Covers(path: string, other: string) {
    if Paths.Ext(path) != "" then Text.HasSuffix(other, Paths.Ext(path))
    else if Text.HasPrefix(Paths.Dir(path), "*") then Text.HasSuffix(other, Paths.Dir(path)[1..] + "/*")
    else Within(Paths.Dir(path), Paths.Dir(other))
  }

  lemma LooseMeans(path: string)
    requires Paths.Ext(path) == ""
    ensures Loose(path) <==> Paths.Dir(path) == "."
    ensures Paths.Dir(path) != ""
  {
    var front := path[..Paths.AfterLastSlash(path)];
    Paths.CleanShape(front);
    Paths.ComponentsOfClean(front);
  }

  /** The pattern remembered for a file answers exactly the requests for paths it covers; the one for a
      request without a path, or for a file without extension in the current directory, answers every
      request of that tool. */
  lemma GeneratedFileMeans(glob: (string, string) -> bool, tool: string, i: Input, j: Input)
    requires tool in {"Write", "Edit", "Read"}
    ensures MatchPattern(glob, GeneratePattern(tool, i), tool, j)
            <==> || i.filePath.Missing? || i.filePath.value == ""
                 || Loose(i.filePath.value)
                 || (j.filePath.Present? && j.filePath.value != "" && Covers(i.filePath.value, j.filePath.value))
  {
    Unwrapped(glob, tool, FileContent(i), j);
    if Given(i.filePath) {
      var path := i.filePath.value;
      if Paths.Ext(path) != "" {
        assert ("*" + Paths.Ext(path))[1..] == Paths.Ext(path);
      } else {
        LooseMeans(path);
        if !Loose(path) {
          DirectoryAnswers(glob, tool, Paths.Dir(path), j);
        }
      }
    }
  }

  lemma DirectoryAnswers(glob: (string, string) -> bool, tool: string, dir: string, j: Input)
    requires FileTool(tool) && dir != ""
    ensures MatchContent(glob, dir + "/*", tool, j)
            <==> Given(j.filePath) && if Text.HasPrefix(dir, "*") then Text.HasSuffix(j.filePath.value, dir[1..] + "/*")
                                      else Within(dir, Paths.Dir(j.filePath.value))
  {
    Unwrapped(glob, tool, dir + "/*", j);
    if Text.HasPrefix(dir, "*") {
      assert (dir + "/*")[1..] == dir[1..] + "/*";
    } else {
      DirectoryPatternMeaning(glob, tool, dir, j);
    }
  }

  // ---- Other tools ----------------------------------------------------------------------------

  /** The pattern remembered for any other tool answers every request of that tool. */
  lemma GeneratedOtherMeans(glob: (string, string) -> bool, tool: string, i: Input, j: Input)
    requires tool !in {"Bash", "Write", "Edit", "Read"}
    ensures MatchPattern(glob, GeneratePattern(tool, i), tool, j)
  {
    Unwrapped(glob, tool, "*", j);
  }
}
