/** `re.sub` with a literal pattern: the scan from left to right that replaces each
    occurrence it meets and resumes after it, so occurrences never overlap. */
module Substitution {
  import opened Text

  /** `re.sub(p, r, s)` for a pattern `p` without special characters. */
  function ReplaceAll(s: string, p: string, r: string): (t: string)
    requires |p| > 0
    decreases |s|
  {
    if s == [] then []
    else if p <= s then r + ReplaceAll(s[|p|..], p, r)
    else [s[0]] + ReplaceAll(s[1..], p, r)
  }

  /** The pieces of `s` between the occurrences of `p` that the scan replaces. None of
      them contains `p`, and the first is a prefix of `s`. */
  function Split(s: string, p: string): (ps: seq<string>)
    requires |p| > 0
    ensures |ps| >= 1 && ps[0] <= s
    ensures forall k :: 0 <= k < |ps| ==> !Contains(ps[k], p)
    decreases |s|
  {
    if s == [] then [[]]
    else if p <= s then [[]] + Split(s[|p|..], p)
    else
      var t := Split(s[1..], p);
      PrefixFree(s, t[0], p);
      [[s[0]] + t[0]] + t[1..]
  }

  /** A string that does not start with `p`, whose tail after the first character is free
      of `p`, is free of `p` when it is a prefix of the scanned text. */
  lemma PrefixFree(s: string, t0: string, p: string)
    requires |p| > 0 && s != [] && !(p <= s)
    requires t0 <= s[1..] && !Contains(t0, p)
    ensures !Contains([s[0]] + t0, p)
  {
    var u := [s[0]] + t0;
    forall i | 0 < i <= |u| - |p|
      ensures !OccursAt(u, p, i)
    {
      assert u[i..i + |p|] == t0[i - 1..i - 1 + |p|];
      assert !OccursAt(t0, p, i - 1);
    }
  }

  /** The pieces joined with `sep` between consecutive ones. */
  function Join(ps: seq<string>, sep: string): (s: string)
    requires |ps| >= 1
    decreases |ps|
  {
    if |ps| == 1 then ps[0] else ps[0] + sep + Join(ps[1..], sep)
  }

  lemma JoinConsHead(c: char, ps: seq<string>, sep: string)
    requires |ps| >= 1
    ensures Join([[c] + ps[0]] + ps[1..], sep) == [c] + Join(ps, sep)
  {
    var qs := [[c] + ps[0]] + ps[1..];
    assert qs[1..] == ps[1..];
  }

  /** Replacing is joining the pieces with the replacement in place of each occurrence. */
  lemma {:induction false} ReplaceIsJoin(s: string, p: string, r: string)
    requires |p| > 0
    ensures ReplaceAll(s, p, r) == Join(Split(s, p), r)
    decreases |s|
  {
    if s == [] {
    } else if p <= s {
      ReplaceIsJoin(s[|p|..], p, r);
      var ps := [[]] + Split(s[|p|..], p);
      assert ps[1..] == Split(s[|p|..], p);
    } else {
      ReplaceIsJoin(s[1..], p, r);
      JoinConsHead(s[0], Split(s[1..], p), r);
    }
  }

  /** Joining the pieces with the pattern itself gives back the text. */
  lemma {:induction false} JoinSplit(s: string, p: string)
    requires |p| > 0
    ensures Join(Split(s, p), p) == s
    decreases |s|
  {
    if s == [] {
    } else if p <= s {
      JoinSplit(s[|p|..], p);
      var ps := [[]] + Split(s[|p|..], p);
      assert ps[1..] == Split(s[|p|..], p);
      assert s == p + s[|p|..];
    } else {
      JoinSplit(s[1..], p);
      JoinConsHead(s[0], Split(s[1..], p), p);
      assert s == [s[0]] + s[1..];
    }
  }

  /** A text that does not contain the pattern is left as it is. */
  lemma ReplaceAbsent(s: string, p: string, r: string)
    requires |p| > 0 && !Contains(s, p)
    ensures ReplaceAll(s, p, r) == s
  {
    ReplaceIsJoin(s, p, r);
    JoinSplit(s, p);
    SplitAbsent(s, p);
  }

  lemma {:induction false} SplitAbsent(s: string, p: string)
    requires |p| > 0 && !Contains(s, p)
    ensures Split(s, p) == [s]
    decreases |s|
  {
    if s != [] {
      PrefixOccurs(s, p);
      if Contains(s[1..], p) {
        var i :| 0 <= i <= |s[1..]| - |p| && OccursAt(s[1..], p, i);
        assert s[i + 1..i + 1 + |p|] == s[1..][i..i + |p|];
        assert OccursAt(s, p, i + 1);
      }
      SplitAbsent(s[1..], p);
      assert s == [s[0]] + s[1..];
    }
  }

  /** Starting with `p` is occurring at index 0. */
  lemma PrefixOccurs(s: string, p: string)
    ensures p <= s <==> OccursAt(s, p, 0)
  {
    if OccursAt(s, p, 0) {
      assert s[..|p|] == p;
    }
  }

  /** A prefix holding no first character of the pattern passes through unchanged. */
  lemma {:induction false} ReplacePrefix(a: string, b: string, p: string, r: string)
    requires |p| > 0 && forall i :: 0 <= i < |a| ==> a[i] != p[0]
    ensures ReplaceAll(a + b, p, r) == a + ReplaceAll(b, p, r)
    decreases |a|
  {
    if a != [] {
      var s := a + b;
      assert s[0] == a[0];
      assert s[1..] == a[1..] + b;
      ReplacePrefix(a[1..], b, p, r);
      assert a == [a[0]] + a[1..];
    } else {
      assert a + b == b;
    }
  }

  /** One step of the scan where no occurrence starts. */
  lemma ReplaceSkip(s: string, p: string, r: string)
    requires |p| > 0 && s != [] && !(p <= s)
    ensures ReplaceAll(s, p, r) == [s[0]] + ReplaceAll(s[1..], p, r)
  {
  }

  /** One step of the scan at an occurrence. */
  lemma ReplaceHit(s: string, p: string, r: string)
    requires |p| > 0 && p <= s
    ensures ReplaceAll(s, p, r) == r + ReplaceAll(s[|p|..], p, r)
  {
  }
}
