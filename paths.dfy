/** The slash-separated path helpers of Go's path/filepath and strings packages that name image files. */
module Paths {

  /** filepath.Join(dir, name) for a clean `dir` and a name with no "." or ".." segments:
      joining the empty name gives the directory itself. */
  function Join(dir: string, name: string): (r: string)
    ensures name == [] ==> r == dir
    ensures name != [] ==> |r| == |dir| + 1 + |name| && r[..|dir|] == dir && r[|dir|] == '/' && r[|dir| + 1..] == name
  {
    if name == [] then dir else dir + "/" + name
  }

  /** Two non-empty names joined to the same directory give the same path only if they are equal. */
  lemma JoinInjective(dir: string, a: string, b: string)
    requires a != [] && b != []
    requires Join(dir, a) == Join(dir, b)
    ensures a == b
  {
    assert a == Join(dir, a)[|dir| + 1..];
  }

  /** filepath.Ext: the suffix from the final '.' of the final path element, or "" when that element
      has no '.'. */
  function Ext(p: string): (e: string)
    ensures |e| <= |p| && e == p[|p| - |e|..]
    ensures e == [] || e[0] == '.'
    ensures forall i :: 0 <= i < |e| ==> e[i] != '/'
    ensures forall i :: 1 <= i < |e| ==> e[i] != '.'
  {
    if p == [] then []
    else
      var c := p[|p| - 1];
      if c == '/' then []
      else if c == '.' then ['.']
      else
        var e := Ext(p[..|p| - 1]);
        if e == [] then [] else e + [c]
  }

  /** The extension is missing only when every '.' of the path is followed by a '/', that is, when the
      final path element holds no '.'. */
  lemma {:induction false} ExtMissingMeansNoDot(p: string)
    requires Ext(p) == []
    ensures forall i :: 0 <= i < |p| && p[i] == '.' ==> '/' in p[i + 1..]
  {
    if p != [] && p[|p| - 1] != '/' {
      var init := p[..|p| - 1];
      assert p[|p| - 1] != '.';
      ExtMissingMeansNoDot(init);
      forall i | 0 <= i < |p| && p[i] == '.'
        ensures '/' in p[i + 1..]
      {
        assert i < |init| && init[i] == '.';
        assert init[i + 1..] <= p[i + 1..];
      }
    }
  }

  /** strings.TrimSuffix. */
  function TrimSuffix(s: string, suffix: string): (r: string)
    ensures |suffix| <= |s| && s[|s| - |suffix|..] == suffix ==> r + suffix == s
    ensures !(|suffix| <= |s| && s[|s| - |suffix|..] == suffix) ==> r == s
  {
    if |suffix| <= |s| && s[|s| - |suffix|..] == suffix then s[..|s| - |suffix|] else s
  }

  /** Appending text without '.' or '/' extends an extension and leaves a missing one missing. */
  lemma {:induction false} ExtAppend(a: string, s: string)
    requires forall i :: 0 <= i < |s| ==> s[i] != '.' && s[i] != '/'
    ensures Ext(a + s) == if Ext(a) == [] then [] else Ext(a) + s
  {
    if s == [] {
      assert a + s == a;
    } else {
      var init := s[..|s| - 1];
      ExtAppend(a, init);
      ExtAppendLast(a, init, s[|s| - 1]);
      AppendLast(a, s);
      AppendLast(Ext(a), s);
    }
  }

  /** One more character other than '.' and '/' extends the extension, if there is one. */
  lemma ExtAppendLast(a: string, init: string, c: char)
    requires c != '.' && c != '/'
    requires Ext(a + init) == if Ext(a) == [] then [] else Ext(a) + init
    ensures Ext((a + init) + [c]) == if Ext(a) == [] then [] else (Ext(a) + init) + [c]
  {
    var p := (a + init) + [c];
    assert p[..|p| - 1] == a + init;
    ExtStep(p);
  }

  // Sequence-algebra step, stated apart so that the proofs that use it stay small for the solver.
  lemma AppendLast(x: string, s: string)
    requires s != []
    ensures (x + s[..|s| - 1]) + [s[|s| - 1]] == x + s
  {
    assert s[..|s| - 1] + [s[|s| - 1]] == s;
  }

  /** A last character other than '.' and '/' extends the extension of the rest, if it has one. */
  lemma ExtStep(p: string)
    requires p != [] && p[|p| - 1] != '.' && p[|p| - 1] != '/'
    ensures Ext(p) == if Ext(p[..|p| - 1]) == [] then [] else Ext(p[..|p| - 1]) + [p[|p| - 1]]
  {
  }

  /** A name that ends in a '.'-led suffix with no further '.' or '/' has that suffix as extension. */
  lemma ExtOfSuffix(a: string, e: string)
    requires e != [] && e[0] == '.'
    requires forall i :: 1 <= i < |e| ==> e[i] != '.' && e[i] != '/'
    ensures Ext(a + e) == e
  {
    var dotted := a + ".";
    assert Ext(dotted) == ".";
    ExtAppend(dotted, e[1..]);
    assert dotted + e[1..] == a + e;
    assert "." + e[1..] == e;
  }
}
