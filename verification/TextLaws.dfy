/** What trimming and splitting mean, told by the characters. */
module TextLaws {

  import opened Text

  /** The characters that separate words: the white space of Unicode. */
  lemma SpacesMean(c: char)
    ensures IsSpace(c)
            <==> var n := c as int;
                 || 9 <= n <= 13 || n == 32 || n == 0x85 || n == 0xA0 || n == 0x1680 || 0x2000 <= n <= 0x200A
                 || n == 0x2028 || n == 0x2029 || n == 0x202F || n == 0x205F || n == 0x3000
  {
  }

  predicate AllSpace(s: string) {
    forall c :: c in s ==> IsSpace(c)
  }

  lemma {:induction false} TrimLeftMeans(s: string) returns (a: string)
    ensures s == a + TrimLeft(s) && AllSpace(a)
    ensures TrimLeft(s) == "" || !IsSpace(TrimLeft(s)[0])
  {
    if s != "" && IsSpace(s[0]) {
      a := TrimLeftMeans(s[1..]);
      a := [s[0]] + a;
    } else {
      a := "";
    }
  }

  lemma {:induction false} TrimRightMeans(s: string) returns (b: string)
    ensures s == TrimRight(s) + b && AllSpace(b)
    ensures TrimRight(s) == "" || !IsSpace(TrimRight(s)[|TrimRight(s)| - 1])
  {
    if s != "" && IsSpace(s[|s| - 1]) {
      b := TrimRightMeans(s[..|s| - 1]);
      b := b + [s[|s| - 1]];
    } else {
      b := "";
    }
  }

  /** Trimming takes away the spaces at both ends, all of them and nothing else. */
  lemma TrimMeans(s: string) returns (a: string, b: string)
    ensures s == a + TrimSpace(s) + b && AllSpace(a) && AllSpace(b)
    ensures TrimSpace(s) != "" ==> !IsSpace(TrimSpace(s)[0]) && !IsSpace(TrimSpace(s)[|TrimSpace(s)| - 1])
  {
    a := TrimLeftMeans(s);
    b := TrimRightMeans(TrimLeft(s));
    if TrimSpace(s) != "" {
      assert TrimLeft(s)[0] == TrimSpace(s)[0];
    }
  }

  /** Blank is made of spaces. */
  lemma BlankMeans(s: string)
    ensures Blank(s) <==> AllSpace(s)
  {
    var a, b := TrimMeans(s);
    if TrimSpace(s) != "" {
      assert s[|a|] == TrimSpace(s)[0] && s[|a|] in s;
    }
  }

  /** The only way to cut a text at every `c`: parts without it that give the text back when joined. */
  lemma SplitMeans(s: string, c: char, parts: seq<string>)
    ensures parts == Split(s, c)
            <==> parts != [] && (forall part :: part in parts ==> c !in part) && Join(parts, c) == s
  {
    JoinSplit(s, c);
    SplitParts(s, c);
    if parts != [] && (forall part :: part in parts ==> c !in part) && Join(parts, c) == s {
      SplitJoin(parts, c);
    }
  }

  /** A joined text has the first part at its front, and the next ones behind one `c` each. */
  lemma {:induction false} JoinMeans(parts: seq<string>, c: char, k: nat)
    requires 0 < k < |parts|
    ensures Join(parts, c) == Join(parts[..k], c) + [c] + Join(parts[k..], c)
    ensures Join([parts[0]], c) == parts[0]
  {
    if k == 1 {
      assert parts[..1] == [parts[0]];
    } else {
      JoinMeans(parts[1..], c, k - 1);
      assert parts[..k][1..] == parts[1..][..k - 1] && parts[k..] == parts[1..][k - 1..];
      assert parts[..k][0] == parts[0];
    }
  }
}
