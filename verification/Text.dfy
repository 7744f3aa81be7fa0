/** The parts of Go's `strings` package the daemon relies on, over sequences of characters. */
module Text {

  function Split(s: string, c: char): (parts: seq<string>)
    ensures |parts| >= 1
  {
    if s == "" then [""]
    else
      var rest := Split(s[1..], c);
      if s[0] == c then [""] + rest else [[s[0]] + rest[0]] + rest[1..]
  }

  function Join(parts: seq<string>, c: char): string {
    if parts == [] then ""
    else if |parts| == 1 then parts[0]
    else parts[0] + [c] + Join(parts[1..], c)
  }

  /** `strings.ToLower`, given the lower case of one character. */
  function Lowered(lower: char -> char, s: string): string {
    seq(|s|, i requires 0 <= i < |s| => lower(s[i]))
  }

  predicate HasPrefix(s: string, prefix: string) {
    prefix <= s
  }

  predicate HasSuffix(s: string, suffix: string) {
    |suffix| <= |s| && s[|s| - |suffix|..] == suffix
  }

  function TrimSuffix(s: string, suffix: string): string {
    if HasSuffix(s, suffix) then s[..|s| - |suffix|] else s
  }

  /** `unicode.IsSpace`. */
  predicate IsSpace(c: char) {
    || c in {'\t', '\n', '\U{0B}', '\U{0C}', '\r', ' ', '\U{85}', '\U{A0}', '\U{1680}'}
    || '\U{2000}' <= c <= '\U{200A}'
    || c in {'\U{2028}', '\U{2029}', '\U{202F}', '\U{205F}', '\U{3000}'}
  }

  function TrimLeft(s: string): string {
    if s != "" && IsSpace(s[0]) then TrimLeft(s[1..]) else s
  }

  function TrimRight(s: string): string {
    if s != "" && IsSpace(s[|s| - 1]) then TrimRight(s[..|s| - 1]) else s
  }

  function TrimSpace(s: string): string {
    TrimRight(TrimLeft(s))
  }

  predicate Blank(s: string) {
    TrimSpace(s) == ""
  }

  /** `strings.Fields`: the maximal runs of characters that are not spaces. */
  function Fields(s: string): seq<string> {
    if s == "" then []
    else if IsSpace(s[0]) then Fields(s[1..])
    else
      var rest := Fields(s[1..]);
      if |s| > 1 && !IsSpace(s[1]) && rest != [] then [[s[0]] + rest[0]] + rest[1..]
      else [[s[0]]] + rest
  }

  predicate Word(w: string) {
    w != "" && forall i :: 0 <= i < |w| ==> !IsSpace(w[i])
  }

  lemma {:induction false} FieldsAreWords(s: string)
    ensures forall f :: f in Fields(s) ==> Word(f)
    ensures s != "" && !IsSpace(s[0]) ==> Fields(s) != []
  {
    if s != "" {
      FieldsAreWords(s[1..]);
      if !IsSpace(s[0]) {
        var rest := Fields(s[1..]);
        forall f | f in Fields(s) ensures Word(f) {
          if |s| > 1 && !IsSpace(s[1]) && rest != [] {
            assert Word(rest[0]);
            assert f == [s[0]] + rest[0] || f in rest[1..];
          } else {
            assert f == [s[0]] || f in rest;
          }
        }
      }
    }
  }

  lemma {:induction false} FieldsOfWordThen(w: string, tail: string)
    requires Word(w)
    requires tail == "" || IsSpace(tail[0])
    ensures Fields(w + tail) == [w] + Fields(tail)
  {
    var s := w + tail;
    assert s[0] == w[0];
    assert s[1..] == w[1..] + tail;
    if |w| == 1 {
      assert s[1..] == tail;
      assert [s[0]] == w;
      if tail != "" { assert s[1] == tail[0]; }
    } else {
      assert Word(w[1..]);
      FieldsOfWordThen(w[1..], tail);
      assert s[1] == w[1];
      var rest := Fields(s[1..]);
      assert rest == [w[1..]] + Fields(tail);
      assert [s[0]] + rest[0] == w;
      assert rest[1..] == Fields(tail);
    }
  }

  lemma FieldsOfWord(w: string)
    requires Word(w)
    ensures Fields(w) == [w]
  {
    FieldsOfWordThen(w, "");
    assert w + "" == w;
  }

  lemma FieldsOfTwoWords(v: string, w: string)
    requires Word(v) && Word(w)
    ensures Fields(v + " " + w) == [v, w]
  {
    FieldsOfWordThen(v, " " + w);
    assert v + " " + w == v + (" " + w);
    assert (" " + w)[1..] == w;
    FieldsOfWord(w);
  }

  ghost predicate Spaces(s: string, a: nat) {
    a <= |s| && forall i :: 0 <= i < a ==> IsSpace(s[i])
  }

  /** `w` stands in `s` after `a` spaces, and a space or the end follows. */
  ghost predicate WordAt(s: string, w: string, a: nat) {
    && Spaces(s, a) && Word(w) && a + |w| <= |s| && s[a..a + |w|] == w
    && (a + |w| < |s| ==> IsSpace(s[a + |w|]))
  }

  /** `s` is these words, told by its layout: spaces, a word, at least one space, a word, and so on. */
  ghost predicate Spells(s: string, words: seq<string>)
    decreases |words|
  {
    if words == [] then Spaces(s, |s|)
    else exists a: nat :: WordAt(s, words[0], a) && Spells(s[a + |words[0]|..], words[1..])
  }

  lemma {:induction false} FieldsSkipSpaces(s: string, a: nat)
    requires Spaces(s, a)
    ensures Fields(s) == Fields(s[a..])
    decreases a
  {
    if a > 0 {
      FieldsSkipSpaces(s[1..], a - 1);
      assert s[1..][a - 1..] == s[a..];
    } else {
      assert s[0..] == s;
    }
  }

  lemma FieldsOfWordAt(s: string, w: string, a: nat)
    requires WordAt(s, w, a)
    ensures Fields(s) == [w] + Fields(s[a + |w|..])
  {
    FieldsSkipSpaces(s, a);
    FieldsOfWordThen(w, s[a + |w|..]);
    assert s[a..] == w + s[a + |w|..];
  }

  /** The words of a layout are the fields. */
  lemma {:induction false} SpelledAreFields(s: string, words: seq<string>)
    requires Spells(s, words)
    ensures Fields(s) == words
    decreases |words|
  {
    if words == [] {
      FieldsSkipSpaces(s, |s|);
      assert s[|s|..] == "";
    } else {
      var a := FirstSpelled(s, words);
      var rest := s[a + |words[0]|..];
      SpelledAreFields(rest, words[1..]);
      FieldsOfWordAt(s, words[0], a);
      assert words == [words[0]] + words[1..];
    }
  }

  lemma FirstSpelled(s: string, words: seq<string>) returns (a: nat)
    requires Spells(s, words) && words != []
    ensures WordAt(s, words[0], a) && Spells(s[a + |words[0]|..], words[1..])
  {
    a :| WordAt(s, words[0], a) && Spells(s[a + |words[0]|..], words[1..]);
  }

  lemma SpellsOneMore(s: string, w: string, a: nat, words: seq<string>)
    requires WordAt(s, w, a) && Spells(s[a + |w|..], words)
    ensures Spells(s, [w] + words)
  {
    assert ([w] + words)[0] == w && ([w] + words)[1..] == words;
  }

  function LeadingSpaces(s: string): (a: nat)
    ensures a <= |s| && (a < |s| ==> !IsSpace(s[a]))
    ensures forall i :: 0 <= i < a ==> IsSpace(s[i])
  {
    if s != "" && IsSpace(s[0]) then 1 + LeadingSpaces(s[1..]) else 0
  }

  function LeadingWord(s: string): (n: nat)
    ensures n <= |s| && (n < |s| ==> IsSpace(s[n]))
    ensures forall i :: 0 <= i < n ==> !IsSpace(s[i])
  {
    if s != "" && !IsSpace(s[0]) then 1 + LeadingWord(s[1..]) else 0
  }

  /** Every string is laid out as its fields. */
  lemma {:induction false} FieldsSpell(s: string)
    ensures Spells(s, Fields(s))
    decreases |s|
  {
    var a := LeadingSpaces(s);
    if a == |s| {
      FieldsSkipSpaces(s, a);
      assert s[|s|..] == "";
    } else {
      var w := FirstWord(s, a);
      FieldsSpell(s[a + |w|..]);
      FieldsOfWordAt(s, w, a);
      SpellsOneMore(s, w, a, Fields(s[a + |w|..]));
    }
  }

  lemma FirstWord(s: string, a: nat) returns (w: string)
    requires a < |s| && Spaces(s, a) && !IsSpace(s[a])
    ensures WordAt(s, w, a)
  {
    var tail := s[a..];
    var n := LeadingWord(tail);
    assert tail[0] == s[a];
    w := tail[..n];
    assert s[a..a + n] == w;
    assert a + n < |s| ==> s[a + n] == tail[n];
  }

  /** Go's `<` on strings. */
  predicate Less(a: string, b: string) {
    if b == "" then false
    else if a == "" then true
    else a[0] < b[0] || (a[0] == b[0] && Less(a[1..], b[1..]))
  }

  lemma {:induction false} LessTotal(a: string, b: string)
    ensures Less(a, b) || Less(b, a) || a == b
    ensures !(Less(a, b) && Less(b, a))
    ensures !Less(a, a)
  {
    if a != "" {
      LessTotal(a[1..], a[1..]);
    }
    if a != "" && b != "" {
      LessTotal(a[1..], b[1..]);
      assert a == [a[0]] + a[1..] && b == [b[0]] + b[1..];
    }
  }

  lemma {:induction false} LessTransitive(a: string, b: string, c: string)
    requires Less(a, b) && Less(b, c)
    ensures Less(a, c)
  {
    if a != "" && a[0] == b[0] == c[0] {
      LessTransitive(a[1..], b[1..], c[1..]);
    }
  }

  lemma {:induction false} SplitAppend(a: string, c: char, b: string)
    ensures Split(a + [c] + b, c) == Split(a, c) + Split(b, c)
  {
    var s := a + [c] + b;
    if a == "" {
      assert s[1..] == b;
    } else {
      assert s[1..] == a[1..] + [c] + b;
      SplitAppend(a[1..], c, b);
    }
  }

  lemma {:induction false} SplitSingle(b: string, c: char)
    requires c !in b
    ensures Split(b, c) == [b]
  {
    if b != "" {
      SplitSingle(b[1..], c);
      assert [b[0]] + b[1..] == b;
    }
  }

  lemma {:induction false} SplitParts(s: string, c: char)
    ensures forall part :: part in Split(s, c) ==> c !in part
  {
    if s != "" {
      SplitParts(s[1..], c);
      var rest := Split(s[1..], c);
      assert rest[0] in rest;
      forall part | part in Split(s, c) ensures c !in part {
        if s[0] != c {
          assert part == [s[0]] + rest[0] || part in rest[1..];
        } else {
          assert part == "" || part in rest;
        }
      }
    }
  }

  lemma {:induction false} JoinSnoc(parts: seq<string>, c: char, last: string)
    requires parts != []
    ensures Join(parts + [last], c) == Join(parts, c) + [c] + last
  {
    if |parts| == 1 {
      assert (parts + [last])[1..] == [last];
    } else {
      JoinSnoc(parts[1..], c, last);
      assert (parts + [last])[1..] == parts[1..] + [last];
    }
  }

  lemma {:induction false} SplitJoin(parts: seq<string>, c: char)
    requires parts != [] && forall part :: part in parts ==> c !in part
    ensures Split(Join(parts, c), c) == parts
  {
    SplitSingle(parts[0], c);
    if |parts| > 1 {
      SplitJoin(parts[1..], c);
      SplitAppend(parts[0], c, Join(parts[1..], c));
      assert parts == [parts[0]] + parts[1..];
    }
  }

  lemma {:induction false} JoinSplit(s: string, c: char)
    ensures Join(Split(s, c), c) == s
  {
    if s != "" {
      JoinSplit(s[1..], c);
      var rest, parts := Split(s[1..], c), Split(s, c);
      if s[0] == c {
        assert parts[1..] == rest;
      } else {
        assert parts[1..] == rest[1..];
      }
    }
  }
}
