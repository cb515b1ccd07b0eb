/** The parts of Go's `strings` package the handlers rely on, over Unicode scalar values. */
module Text {

  /** unicode.IsSpace: the runes strings.TrimSpace strips. */
  predicate IsSpace(c: char) {
    var n := c as int;
    n == 0x20 || 0x09 <= n <= 0x0D || n == 0x85 || n == 0xA0 || n == 0x1680
    || 0x2000 <= n <= 0x200A || n == 0x2028 || n == 0x2029 || n == 0x202F
    || n == 0x205F || n == 0x3000
  }

  predicate AllSpace(s: string) {
    forall i :: 0 <= i < |s| ==> IsSpace(s[i])
  }

  /** strings.TrimSpace: drops the white space at both ends. */
  function TrimSpace(s: string): (r: string)
    ensures |r| <= |s|
    ensures r == [] || (!IsSpace(r[0]) && !IsSpace(r[|r| - 1]))
    ensures r == [] <==> AllSpace(s)
  {
    if s != [] && IsSpace(s[0]) then TrimSpace(s[1..])
    else if s != [] && IsSpace(s[|s| - 1]) then TrimSpace(s[..|s| - 1])
    else s
  }

  /** What TrimSpace keeps is a contiguous piece of its input with only white space around it. */
  lemma {:induction false} TrimSpaceInfix(s: string)
    ensures exists lo :: TrimmedAt(s, lo, TrimSpace(s))
  {
    var r := TrimSpace(s);
    if s != [] && IsSpace(s[0]) {
      TrimSpaceInfix(s[1..]);
      var lo :| TrimmedAt(s[1..], lo, r);
      SpaceBefore(s, lo, r);
    } else if s != [] && IsSpace(s[|s| - 1]) {
      TrimSpaceInfix(s[..|s| - 1]);
      var lo :| TrimmedAt(s[..|s| - 1], lo, r);
      SpaceAfter(s, lo, r);
    } else {
      assert s[0..|s|] == s;
      assert TrimmedAt(s, 0, r);
    }
  }

  lemma SpaceBefore(s: string, lo: int, r: string)
    requires s != [] && IsSpace(s[0]) && TrimmedAt(s[1..], lo, r)
    ensures TrimmedAt(s, lo + 1, r)
  {
    var t := s[1..];
    assert s[lo + 1..lo + 1 + |r|] == t[lo..lo + |r|];
    assert s[..lo + 1] == [s[0]] + t[..lo];
    assert s[lo + 1 + |r|..] == t[lo + |r|..];
  }

  lemma SpaceAfter(s: string, lo: int, r: string)
    requires s != [] && IsSpace(s[|s| - 1]) && TrimmedAt(s[..|s| - 1], lo, r)
    ensures TrimmedAt(s, lo, r)
  {
    var t := s[..|s| - 1];
    assert s[lo..lo + |r|] == t[lo..lo + |r|];
    assert s[..lo] == t[..lo];
    assert s[lo + |r|..] == t[lo + |r|..] + [s[|s| - 1]];
  }

  /** `r` sits in `s` from index `lo` with only white space before and after it. */
  ghost predicate TrimmedAt(s: string, lo: int, r: string) {
    0 <= lo <= |s| - |r| && s[lo..lo + |r|] == r && AllSpace(s[..lo]) && AllSpace(s[lo + |r|..])
  }

  /** Conversely, a piece with only white space around it and none at its own ends is exactly what
      TrimSpace keeps. */
  lemma {:induction false} TrimSpaceUnique(s: string, lo: int, r: string)
    requires TrimmedAt(s, lo, r) && r != [] && !IsSpace(r[0]) && !IsSpace(r[|r| - 1])
    ensures TrimSpace(s) == r
    decreases |s|
  {
    if lo > 0 {
      assert IsSpace(s[0]) by { assert s[..lo][0] == s[0]; }
      var t := s[1..];
      assert t[lo - 1..lo - 1 + |r|] == s[lo..lo + |r|];
      assert t[..lo - 1] == s[..lo][1..];
      assert t[lo - 1 + |r|..] == s[lo + |r|..];
      TrimSpaceUnique(t, lo - 1, r);
    } else if |r| < |s| {
      assert s[0] == r[0];
      assert IsSpace(s[|s| - 1]) by { assert s[|r|..][|s| - 1 - |r|] == s[|s| - 1]; }
      var t := s[..|s| - 1];
      assert t[0..|r|] == s[0..|r|];
      assert t[|r|..] == s[|r|..][..|s| - 1 - |r|];
      TrimSpaceUnique(t, 0, r);
    } else {
      assert s == s[0..|r|];
    }
  }

  /** Trimming is idempotent: a trimmed value is left as it is. */
  lemma TrimSpaceIdempotent(s: string)
    ensures TrimSpace(TrimSpace(s)) == TrimSpace(s)
  {
  }

  /** strings.ReplaceAll(s, string(from), string(to)) for single-rune strings. */
  function Replace(s: string, from: char, to: char): (r: string)
    ensures |r| == |s|
    ensures forall i :: 0 <= i < |s| ==> r[i] == (if s[i] == from then to else s[i])
  {
    if s == [] then [] else [if s[0] == from then to else s[0]] + Replace(s[1..], from, to)
  }

  /** strings.Split(s, string(sep)): the pieces between separators, never an empty list. */
  function Split(s: string, sep: char): (parts: seq<string>)
    ensures |parts| >= 1
    ensures forall p :: p in parts ==> sep !in p
  {
    if s == [] then [""]
    else
      var rest := Split(s[1..], sep);
      if s[0] == sep then [""] + rest else [[s[0]] + rest[0]] + rest[1..]
  }

  /** strings.Join(parts, string(sep)). */
  function Join(parts: seq<string>, sep: char): string
    requires |parts| >= 1
  {
    if |parts| == 1 then parts[0] else parts[0] + [sep] + Join(parts[1..], sep)
  }

  /** Splitting and joining back gives the original text. */
  lemma {:induction false} JoinSplit(s: string, sep: char)
    ensures Join(Split(s, sep), sep) == s
  {
    if s != [] {
      JoinSplit(s[1..], sep);
      var rest := Split(s[1..], sep);
      if s[0] != sep {
        if |rest| == 1 {
        } else {
          assert ([s[0]] + rest[0]) + [sep] + Join(rest[1..], sep) == [s[0]] + Join(rest, sep);
        }
      }
    }
  }

  /** Joining pieces free of the separator and splitting again gives the same pieces. */
  lemma {:induction false} SplitJoin(parts: seq<string>, sep: char)
    requires |parts| >= 1
    requires forall p :: p in parts ==> sep !in p
    ensures Split(Join(parts, sep), sep) == parts
  {
    if |parts| == 1 {
      SplitNoSep(parts[0], sep);
    } else {
      SplitJoin(parts[1..], sep);
      SplitPrefix(parts[0], Join(parts[1..], sep), sep);
      assert Join(parts, sep) == parts[0] + ([sep] + Join(parts[1..], sep));
    }
  }

  lemma {:induction false} SplitNoSep(s: string, sep: char)
    requires sep !in s
    ensures Split(s, sep) == [s]
  {
    if s != [] {
      SplitNoSep(s[1..], sep);
      assert s == [s[0]] + s[1..];
    }
  }

  lemma {:induction false} SplitPrefix(a: string, b: string, sep: char)
    requires sep !in a
    ensures Split(a + [sep] + b, sep) == [a] + Split(b, sep)
  {
    if a == [] {
      assert a + [sep] + b == [sep] + b;
      assert ([sep] + b)[1..] == b;
    } else {
      SplitPrefix(a[1..], b, sep);
      assert (a + [sep] + b)[1..] == a[1..] + [sep] + b;
      assert a == [a[0]] + a[1..];
    }
  }

  /** ASCII lower-casing; strings.ToLower also lowers other scripts, which never yields an ASCII letter
      apart from KELVIN SIGN and DOTTED CAPITAL I, neither of which occurs in the words compared here. */
  function ToLowerAscii(s: string): (r: string)
    ensures |r| == |s|
    ensures forall i :: 0 <= i < |s| ==> r[i] == LowerAscii(s[i])
  {
    if s == [] then [] else [LowerAscii(s[0])] + ToLowerAscii(s[1..])
  }

  function LowerAscii(c: char): char {
    if 'A' <= c <= 'Z' then (c as int + 32) as char else c
  }

  /** Length in bytes of the UTF-8 encoding, which is what Go's len() counts on a string. */
  function Utf8Len(s: string): (n: nat)
    ensures |s| <= n <= 4 * |s|
  {
    if s == [] then 0 else Utf8Width(s[0]) + Utf8Len(s[1..])
  }

  function Utf8Width(c: char): (n: nat)
    ensures 1 <= n <= 4
  {
    if c as int < 0x80 then 1 else if c as int < 0x800 then 2 else if c as int < 0x10000 then 3 else 4
  }

  /** The number of occurrences of `c` in `s`. */
  function Count(s: string, c: char): nat {
    if s == [] then 0 else (if s[0] == c then 1 else 0) + Count(s[1..], c)
  }

  /** strings.Split yields one piece more than there are separators. */
  lemma {:induction false} SplitCount(s: string, sep: char)
    ensures |Split(s, sep)| == Count(s, sep) + 1
  {
    if s != [] {
      SplitCount(s[1..], sep);
    }
  }
}
