/** Naming helpers of the generator: indentation of a code body for a namespace and
    the split of a cycle name into namespace and class name. */
module Naming {
  import opened Text

  /** The indentation unit of generated code: four spaces. */
  const Tab: string := "    "

  /** Inserts `Tab` after every newline that is followed by a character other than a
      newline; `afterNewline` says whether the text before `s` ended in a newline. */
  function IndentFrom(s: string, afterNewline: bool): string
  {
    if s == [] then []
    else if afterNewline && s[0] != '\n' then Tab + [s[0]] + IndentFrom(s[1..], false)
    else [s[0]] + IndentFrom(s[1..], s[0] == '\n')
  }

  /** `Indent`: the first line is never indented, since the `:^` alternative of the
      look-behind can never match. */
  function Indent(s: string): string { IndentFrom(s, false) }

  /** Lines joined with newlines: the inverse of `SplitLines`. */
  function JoinLines(ls: seq<string>): string
    requires ls != []
  {
    if |ls| == 1 then ls[0] else ls[0] + "\n" + JoinLines(ls[1..])
  }

  /** The lines of a text: the pieces between its newlines. */
  function SplitLines(s: string): (ls: seq<string>)
    ensures ls != []
    ensures forall k :: 0 <= k < |ls| ==> NoNewline(ls[k])
  {
    if s == [] then [""]
    else
      var rest := SplitLines(s[1..]);
      if s[0] == '\n' then [""] + rest else [[s[0]] + rest[0]] + rest[1..]
  }

  lemma {:induction false} SplitThenJoin(s: string)
    ensures JoinLines(SplitLines(s)) == s
  {
    if s != [] {
      var rest := SplitLines(s[1..]);
      SplitThenJoin(s[1..]);
      if s[0] == '\n' {
        assert SplitLines(s) == [""] + rest;
        assert ([""] + rest)[1..] == rest;
        assert s == [s[0]] + s[1..];
      } else {
        var ls := SplitLines(s);
        assert ls == [[s[0]] + rest[0]] + rest[1..];
        if |rest| == 1 {
          assert s == [s[0]] + s[1..];
        } else {
          assert ls[1..] == rest[1..];
          assert JoinLines(rest) == rest[0] + "\n" + JoinLines(rest[1..]);
          assert s == [s[0]] + s[1..];
        }
      }
    }
  }

  function IndentLine(l: string): string { if l == [] then [] else Tab + l }

  function IndentLines(ls: seq<string>): (r: seq<string>)
    ensures |r| == |ls|
    ensures forall k :: 0 <= k < |ls| ==> r[k] == IndentLine(ls[k])
  {
    if ls == [] then [] else [IndentLine(ls[0])] + IndentLines(ls[1..])
  }

  lemma {:induction false} IndentWithinLine(l: string, r: string, b: bool)
    requires NoNewline(l)
    ensures IndentFrom(l + r, b) == (if b && l != [] then Tab else []) + l + IndentFrom(r, if l == [] then b else false)
  {
    if l != [] {
      assert (l + r)[1..] == l[1..] + r;
      IndentWithinLine(l[1..], r, if b then false else false);
      assert l == [l[0]] + l[1..];
    } else {
      assert l + r == r;
    }
  }

  predicate LinesOk(ls: seq<string>) { forall k :: 0 <= k < |ls| ==> NoNewline(ls[k]) }

  lemma {:induction false} IndentJoined(ls: seq<string>, b: bool)
    requires ls != [] && LinesOk(ls)
    ensures IndentFrom(JoinLines(ls), b)
         == JoinLines([if b then IndentLine(ls[0]) else ls[0]] + IndentLines(ls[1..]))
  {
    var first := if b then IndentLine(ls[0]) else ls[0];
    var pre: string := if b && ls[0] != [] then Tab else [];
    assert first == pre + ls[0];
    var tail := IndentLines(ls[1..]);
    assert NoNewline(ls[0]);
    if |ls| == 1 {
      IndentWithinLine(ls[0], [], b);
      assert ls[0] + [] == ls[0];
      assert [first] + tail == [first];
    } else {
      var j := JoinLines(ls[1..]);
      IndentHead(ls[0], j, b);
      assert LinesOk(ls[1..]);
      IndentJoined(ls[1..], true);
      assert ls[1..][1..] == ls[2..];
      assert tail == [IndentLine(ls[1])] + IndentLines(ls[2..]);
      assert IndentFrom(j, true) == JoinLines(tail);
      assert ([first] + tail)[1..] == tail;
      assert JoinLines([first] + tail) == first + "\n" + JoinLines(tail);
    }
  }

  lemma IndentHead(l: string, j: string, b: bool)
    requires NoNewline(l)
    ensures IndentFrom(l + "\n" + j, b)
         == (if b && l != [] then Tab else []) + l + "\n" + IndentFrom(j, true)
  {
    assert l + "\n" + j == l + ("\n" + j);
    IndentWithinLine(l, "\n" + j, b);
    var b' := if l == [] then b else false;
    assert ("\n" + j)[1..] == j;
    assert IndentFrom("\n" + j, b') == "\n" + IndentFrom(j, true);
  }

  /** Line by line, `Indent` leaves the first line alone and puts `Tab` in front of every
      later line that is not empty. */
  lemma IndentByLines(s: string)
    ensures Indent(s) == JoinLines([SplitLines(s)[0]] + IndentLines(SplitLines(s)[1..]))
  {
    SplitThenJoin(s);
    assert LinesOk(SplitLines(s));
    IndentJoined(SplitLines(s), false);
  }

  /** Index of the last `::` that ends at or before `hi`, or -1 when there is none. */
  function LastColons(s: string, hi: nat): (p: int)
    requires hi <= |s|
    ensures -1 <= p && (p < 0 || p + 2 <= hi)
    ensures p >= 0 ==> OccursAt(s, "::", p)
    ensures forall i :: p < i && i + 2 <= hi ==> !OccursAt(s, "::", i)
  {
    if hi < 2 then -1
    else if s[hi - 2] == ':' && s[hi - 1] == ':' then hi - 2
    else LastColons(s, hi - 1)
  }

  /** Index of the first newline, or `|s|`. */
  function FirstLineEnd(s: string): (n: nat)
    ensures n <= |s| && NoNewline(s[..n])
    ensures n < |s| ==> s[n] == '\n'
  {
    if s == [] then 0
    else if s[0] == '\n' then 0
    else 1 + FirstLineEnd(s[1..])
  }

  /** `SplitCycleName`: `("", s)` when `s` holds no `::`; otherwise the greedy
      `(.*)::(.*)` match, which cannot cross a newline. `None` stands for the source's
      failure when the only `::` lie after the first newline. */
  function SplitCycleName(s: string): (r: Option<(string, string)>)
  {
    if LastColons(s, |s|) < 0 then Some(("", s))
    else
      var line := FirstLineEnd(s);
      var p := LastColons(s, line);
      if p < 0 then None else Some((s[..p], s[p + 2..line]))
  }

  /** Without `::` there is no namespace. */
  lemma SplitWithoutNamespace(s: string)
    requires !Contains(s, "::")
    ensures SplitCycleName(s) == Some(("", s))
  {
  }

  /** On one line the split is at the last `::`: namespace, `::` and class name give the
      cycle name back, and the class name holds no `::`. */
  lemma SplitWithNamespace(s: string)
    requires NoNewline(s) && Contains(s, "::")
    ensures SplitCycleName(s).Some?
    ensures SplitCycleName(s).value.0 + "::" + SplitCycleName(s).value.1 == s
    ensures !Contains(SplitCycleName(s).value.1, "::")
    ensures forall i :: OccursAt(s, "::", i) ==> i <= |SplitCycleName(s).value.0|
  {
    var i :| 0 <= i <= |s| - 2 && OccursAt(s, "::", i);
    assert LastColons(s, |s|) >= 0;
    var line := FirstLineEnd(s);
    assert line == |s|;
    var p := LastColons(s, line);
    var ns, cls := s[..p], s[p + 2..];
    assert s[p + 2..line] == cls;
    assert SplitCycleName(s) == Some((s[..p], s[p + 2..line]));
    assert ns + "::" + cls == s by {
      assert s[p..p + 2] == "::";
      assert s == s[..p] + s[p..p + 2] + s[p + 2..];
    }
    ClassNameHasNoColons(s, p);
  }

  lemma ClassNameHasNoColons(s: string, p: nat)
    requires p + 2 <= |s|
    requires forall i :: p < i && i + 2 <= |s| ==> !OccursAt(s, "::", i)
    ensures !Contains(s[p + 2..], "::")
  {
    var cls := s[p + 2..];
    forall j | 0 <= j <= |cls| - 2
      ensures !OccursAt(cls, "::", j)
    {
      assert cls[j..j + 2] == s[p + 2 + j..p + 2 + j + 2];
      assert !OccursAt(s, "::", p + 2 + j);
    }
  }

  /** A `::` that appears only after the first newline makes the split fail. */
  lemma {:induction false} SplitFailsAfterNewline(s: string)
    ensures SplitCycleName(s).None? <==>
      (Contains(s, "::") && !Contains(s[..FirstLineEnd(s)], "::"))
  {
    var line := FirstLineEnd(s);
    var l := s[..line];
    if LastColons(s, |s|) >= 0 {
      assert Contains(s, "::");
    }
    if Contains(s, "::") {
      var i :| 0 <= i <= |s| - 2 && OccursAt(s, "::", i);
      assert LastColons(s, |s|) >= 0;
    }
    if LastColons(s, line) >= 0 {
      var p := LastColons(s, line);
      assert l[p..p + 2] == s[p..p + 2];
      assert OccursAt(l, "::", p);
    }
    if Contains(l, "::") {
      var i :| 0 <= i <= |l| - 2 && OccursAt(l, "::", i);
      assert s[i..i + 2] == l[i..i + 2];
      assert OccursAt(s, "::", i);
      assert LastColons(s, line) >= 0;
    }
  }
}
