/** The declaration format the scanner reads, and the round trip: a text made of one
    declaration per line, each `[//]TYPE GAP[*]NAME;`, scans back to exactly its
    variables, in order. This is the shape of a normalised selection file. */
module SelectionFormat {
  import opened Text
  import opened Variables
  import opened DeclarationScanner

  /** A type name the scanner reads back whole: an identifier part of `[a-zA-Z_0-9:]`
      characters, optionally followed by blanks and a `<...>` group with a non-empty
      body, all on one line. */
  predicate TypeShape(t: string) {
    && |t| > 0 && IsIdentStart(t[0]) && NoNewline(t)
    && var h := RunEnd(t, 1, TypeChars);
       (h == |t| ||
        (var u := RunEnd(t, h, Blanks);
         u < |t| && t[u] == '<' && u + 3 <= |t| && t[|t| - 1] == '>'))
  }

  /** A variable that has a declaration line: the scanner's shape, a readable type,
      and a gap of blanks that is not empty unless the pointer marker separates. */
  predicate Declarable(v: Variable, gap: string) {
    && (v.commented == "//" || v.commented == "")
    && (v.pointer == "*" || v.pointer == "")
    && IsIdentifier(v.name)
    && TypeShape(v.typename)
    && AllBlank(gap)
    && (v.pointer == "" ==> |gap| > 0)
  }

  /** One declaration line. */
  function DeclLine(v: Variable, gap: string): (line: string)
    ensures |line| == |v.commented| + |v.typename| + |gap| + |v.pointer| + |v.name| + 2
  {
    v.commented + v.typename + gap + v.pointer + v.name + ";\n"
  }

  /** A text holding one declaration line per variable. */
  function DeclText(vs: seq<Variable>, gap: string): (text: string)
    ensures vs == [] ==> text == []
  {
    if vs == [] then [] else DeclLine(vs[0], gap) + DeclText(vs[1..], gap)
  }

  /** Where the parts of the line of `v` start when the line starts at `a`. */
  function TypeStart(a: nat, v: Variable): nat { a + |v.commented| }
  function TypeStop(a: nat, v: Variable): nat { TypeStart(a, v) + |v.typename| }
  function GapStop(a: nat, v: Variable, gap: string): nat { TypeStop(a, v) + |gap| }
  function NameStart(a: nat, v: Variable, gap: string): nat { GapStop(a, v, gap) + |v.pointer| }
  function NameStop(a: nat, v: Variable, gap: string): nat { NameStart(a, v, gap) + |v.name| }

  /** The line of `v` lies at `a` in `s`, part by part. */
  predicate LineAt(s: string, a: nat, v: Variable, gap: string) {
    && NameStop(a, v, gap) + 1 < |s|
    && s[a..TypeStart(a, v)] == v.commented
    && s[TypeStart(a, v)..TypeStop(a, v)] == v.typename
    && s[TypeStop(a, v)..GapStop(a, v, gap)] == gap
    && s[GapStop(a, v, gap)..NameStart(a, v, gap)] == v.pointer
    && s[NameStart(a, v, gap)..NameStop(a, v, gap)] == v.name
    && s[NameStop(a, v, gap)] == ';'
    && s[NameStop(a, v, gap) + 1] == '\n'
  }

  /** A slice that spells `x + y` spells `x`, then `y`. */
  lemma SliceSplit(s: string, a: nat, x: string, y: string)
    requires a + |x| + |y| <= |s| && s[a..a + |x| + |y|] == x + y
    ensures s[a..a + |x|] == x && s[a + |x|..a + |x| + |y|] == y
  {
    assert s[a..a + |x|] == s[a..a + |x| + |y|][..|x|];
    assert s[a + |x|..a + |x| + |y|] == s[a..a + |x| + |y|][|x|..];
  }

  lemma LineAtOfSlice(s: string, a: nat, v: Variable, gap: string)
    requires a + |DeclLine(v, gap)| <= |s| && s[a..a + |DeclLine(v, gap)|] == DeclLine(v, gap)
    ensures LineAt(s, a, v, gap)
  {
    var h := v.commented + v.typename + gap + v.pointer;
    LineEndOfSlice(s, a, h, v.name);
    LineHeadOfSlice(s, a, v, gap);
  }

  /** A slice that spells `h + name + ";\n"` spells `name`, then `;` and a newline. */
  lemma LineEndOfSlice(s: string, a: nat, h: string, name: string)
    requires a + |h + name + ";\n"| <= |s| && s[a..a + |h + name + ";\n"|] == h + name + ";\n"
    ensures s[a..a + |h|] == h
    ensures s[a + |h|..a + |h| + |name|] == name
    ensures s[a + |h| + |name|] == ';' && s[a + |h| + |name| + 1] == '\n'
  {
    SliceSplit(s, a, h + name, ";\n");
    SliceSplit(s, a, h, name);
    var e := a + |h| + |name|;
    assert s[e..e + 2] == ";\n";
    assert s[e] == s[e..e + 2][0];
    assert s[e + 1] == s[e..e + 2][1];
  }

  /** The parts of a line before its name. */
  lemma LineHeadOfSlice(s: string, a: nat, v: Variable, gap: string)
    requires var h := v.commented + v.typename + gap + v.pointer; a + |h| <= |s| && s[a..a + |h|] == h
    ensures s[a..TypeStart(a, v)] == v.commented
    ensures s[TypeStart(a, v)..TypeStop(a, v)] == v.typename
    ensures s[TypeStop(a, v)..GapStop(a, v, gap)] == gap
    ensures s[GapStop(a, v, gap)..NameStart(a, v, gap)] == v.pointer
  {
    SliceSplit(s, a, v.commented + v.typename + gap, v.pointer);
    SliceSplit(s, a, v.commented + v.typename, gap);
    SliceSplit(s, a, v.commented, v.typename);
  }

  /** A run inside a copy of `t` at offset `o` ends where it ends in `t`. */
  lemma RunEndShift(s: string, o: nat, t: string, i: nat, k: CharClass)
    requires o + |t| <= |s| && s[o..o + |t|] == t && i <= |t|
    requires RunEnd(t, i, k) < |t|
    ensures RunEnd(s, o + i, k) == o + RunEnd(t, i, k)
  {
    var r := RunEnd(t, i, k);
    RunEndAll(t, i, k);
    assert forall p :: i <= p < r ==> s[o + p] == t[p];
    assert s[o + r] == t[r];
    RunEndAt(s, o + i, o + r, k);
  }

  /** What follows a type on a declaration line, by positions: blanks in `[te, g)`,
      the pointer marker at `g` when `star`, the name in `[n0, n1)`, `;` at `n1` and the
      newline after it. */
  predicate TailLine(s: string, te: nat, g: nat, n0: nat, n1: nat, star: bool) {
    && te <= g && n0 < n1 && n1 + 1 < |s|
    && (if star then n0 == g + 1 && s[g] == '*' else te < g && n0 == g)
    && (forall q :: te <= q < g ==> IsBlank(s[q]))
    && IsIdentStart(s[n0]) && (forall q :: n0 < q < n1 ==> IsIdentChar(s[q]))
    && s[n1] == ';' && s[n1 + 1] == '\n'
  }

  lemma NameTailOfLine(s: string, te: nat, g: nat, n0: nat, n1: nat, star: bool)
    requires TailLine(s, te, g, n0, n1, star)
    ensures NameTail(s, n0, star) == Some(Tail(star, n0, n1, n1 + 1))
  {
    RunEndAt(s, n0 + 1, n1, IdentChars);
    RunEndAt(s, n1, n1, Blanks);
    RunEndAt(s, n1 + 1, n1 + 1, Trailing);
  }

  lemma TailAtStar(s: string, p: nat)
    requires p <= |s| && RunEnd(s, p, Blanks) < |s| && s[RunEnd(s, p, Blanks)] == '*'
    ensures TailAt(s, p) == NameTail(s, RunEnd(s, RunEnd(s, p, Blanks) + 1, Blanks), true)
  {
  }

  lemma {:induction false} TailAtPlain(s: string, p: nat)
    requires p <= |s| && p < RunEnd(s, p, Blanks) < |s| && s[RunEnd(s, p, Blanks)] != '*'
    ensures TailAt(s, p) == NameTail(s, RunEnd(s, p, Blanks), false)
  {
  }

  /** The scan of what follows the type: the gap, the pointer marker, then the name. */
  lemma TailOfLine(s: string, te: nat, g: nat, n0: nat, n1: nat, star: bool)
    requires TailLine(s, te, g, n0, n1, star)
    ensures TailAt(s, te) == Some(Tail(star, n0, n1, n1 + 1))
  {
    RunEndAt(s, te, g, Blanks);
    NameTailOfLine(s, te, g, n0, n1, star);
    if star {
      RunEndAt(s, g + 1, n0, Blanks);
      TailAtStar(s, te);
    } else {
      TailAtPlain(s, te);
    }
  }

  /** What follows a type holds no newline and no angle bracket, and does not continue
      the type. */
  lemma {:induction false} TailLineChars(s: string, te: nat, g: nat, n0: nat, n1: nat, star: bool)
    requires TailLine(s, te, g, n0, n1, star)
    ensures forall q :: te <= q <= n1 ==> s[q] != '\n' && s[q] != '>' && s[q] != '<'
    ensures !IsTypeChar(s[te]) && RunEnd(s, te, Blanks) == g
  {
    RunEndAt(s, te, g, Blanks);
    forall q | te <= q <= n1 ensures s[q] != '\n' && s[q] != '>' && s[q] != '<' {
      if q < g {
        assert IsBlank(s[q]);
      } else if q == g && star {
      } else if q < n1 {
        assert q == n0 || IsIdentChar(s[q]);
      }
    }
  }

  lemma TemplateSearchStep(s: string, u: nat, hi: int)
    requires u < |s| && hi < |s| && u + 2 <= hi && s[hi] != '>'
    ensures TemplateSearch(s, u, hi) == TemplateSearch(s, u, hi - 1)
  {
  }

  /** The greedy search stops at the last `>` after which the rest matches. */
  lemma {:induction false} TemplateSearchFinds(s: string, u: nat, hi: int, e: nat)
    requires u < |s| && hi < |s| && u + 2 <= e <= hi
    requires s[e] == '>' && TailAt(s, e + 1).Some?
    requires forall q :: e < q <= hi ==> s[q] != '>'
    ensures TemplateSearch(s, u, hi) == Some(e)
    decreases hi - u
  {
    if hi > e {
      TemplateSearchStep(s, u, hi);
      TemplateSearchFinds(s, u, hi - 1, e);
    }
  }

  /** `TypeEnd` without template group: the identifier part ends at `te` and no `<`
      follows the blanks after it. */
  lemma {:induction false} TypeEndPlainAt(s: string, t0: nat, te: nat)
    requires t0 < |s| && RunEnd(s, t0 + 1, TypeChars) == te
    requires RunEnd(s, te, Blanks) < |s| && s[RunEnd(s, te, Blanks)] != '<'
    requires TailAt(s, te).Some?
    ensures TypeEnd(s, t0) == Some(te)
  {
  }

  /** `TypeEnd` with template group: the `<` at `u` follows the identifier part and the
      search for the closing `>` stops at `e`. */
  lemma {:induction false} TypeEndTemplateAt(s: string, t0: nat, u: nat, e: nat)
    requires t0 < |s| && u < |s| && s[u] == '<'
    requires RunEnd(s, RunEnd(s, t0 + 1, TypeChars), Blanks) == u
    requires TemplateSearch(s, u, RunEnd(s, u + 1, NonNewline) - 1) == Some(e)
    ensures TypeEnd(s, t0) == Some(e + 1)
  {
  }

  /** A type without template group is all type characters after its first one. */
  lemma {:induction false} PlainTypeChars(s: string, t0: nat, t: string)
    requires t0 + |t| <= |s| && s[t0..t0 + |t|] == t && |t| > 0
    requires RunEnd(t, 1, TypeChars) == |t|
    ensures forall q :: t0 < q < t0 + |t| ==> InClass(s[q], TypeChars)
  {
    RunEndAll(t, 1, TypeChars);
    forall q | t0 < q < t0 + |t| ensures InClass(s[q], TypeChars) {
      assert s[q] == t[q - t0];
    }
  }

  /** A type without template group scans to its end. */
  lemma {:induction false} PlainTypeOfLine(s: string, t0: nat, t: string, g: nat, n0: nat, n1: nat, star: bool)
    requires t0 + |t| <= |s| && s[t0..t0 + |t|] == t && |t| > 0
    requires RunEnd(t, 1, TypeChars) == |t|
    requires TailLine(s, t0 + |t|, g, n0, n1, star)
    ensures TypeEnd(s, t0) == Some(t0 + |t|)
  {
    var te := t0 + |t|;
    PlainTypeChars(s, t0, t);
    TailLineChars(s, te, g, n0, n1, star);
    RunEndAt(s, t0 + 1, te, TypeChars);
    TailOfLine(s, te, g, n0, n1, star);
    TypeEndPlainAt(s, t0, te);
  }

  /** The template group of a type, located in a copy of the type at `t0`. */
  lemma TemplateGroupAt(s: string, t0: nat, t: string)
    requires t0 + |t| <= |s| && s[t0..t0 + |t|] == t && TypeShape(t)
    requires RunEnd(t, 1, TypeChars) < |t|
    ensures var u := t0 + RunEnd(t, RunEnd(t, 1, TypeChars), Blanks);
      && RunEnd(s, RunEnd(s, t0 + 1, TypeChars), Blanks) == u
      && u + 3 <= t0 + |t| && s[u] == '<' && s[t0 + |t| - 1] == '>'
      && forall q :: u < q < t0 + |t| ==> s[q] != '\n'
  {
    var h := RunEnd(t, 1, TypeChars);
    var uT := RunEnd(t, h, Blanks);
    RunEndShift(s, t0, t, 1, TypeChars);
    RunEndShift(s, t0, t, h, Blanks);
    assert s[t0 + uT] == t[uT];
    assert s[t0 + |t| - 1] == t[|t| - 1];
    forall q | t0 + uT < q < t0 + |t| ensures s[q] != '\n' {
      assert s[q] == t[q - t0];
    }
  }

  /** The greedy search from the `<` at `u` stops at the `>` that ends the type at `te`,
      since no `>` follows on the declaration line. */
  lemma TemplateCloseAt(s: string, u: nat, te: nat, g: nat, n0: nat, n1: nat, star: bool)
    requires TailLine(s, te, g, n0, n1, star)
    requires u + 3 <= te && s[te - 1] == '>'
    requires forall q :: u < q < te ==> s[q] != '\n'
    ensures TemplateSearch(s, u, RunEnd(s, u + 1, NonNewline) - 1) == Some(te - 1)
  {
    TailLineChars(s, te, g, n0, n1, star);
    RunEndAt(s, u + 1, n1 + 1, NonNewline);
    TailOfLine(s, te, g, n0, n1, star);
    TemplateSearchFinds(s, u, n1, te - 1);
  }

  /** A type with a template group scans to its end `te`. */
  lemma {:induction false} TemplateTypeOfLine(s: string, t0: nat, u: nat, te: nat, g: nat, n0: nat, n1: nat, star: bool)
    requires t0 < u && u + 3 <= te <= |s|
    requires RunEnd(s, RunEnd(s, t0 + 1, TypeChars), Blanks) == u
    requires s[u] == '<' && s[te - 1] == '>'
    requires forall q :: u < q < te ==> s[q] != '\n'
    requires TailLine(s, te, g, n0, n1, star)
    ensures TypeEnd(s, t0) == Some(te)
  {
    TemplateCloseAt(s, u, te, g, n0, n1, star);
    TypeEndTemplateAt(s, t0, u, te - 1);
  }

  lemma {:induction false} MatchAtIs(s: string, i: nat, c: nat, t0: nat, te: nat, tl: Tail)
    requires i < |s| && CommentLength(s, i) == c && RunEnd(s, i + c, Blanks) == t0
    requires t0 < |s| && IsIdentStart(s[t0]) && TypeEnd(s, t0) == Some(te) && TailAt(s, te) == Some(tl)
    ensures MatchesAt(s, i) && MatchGroups(s, i) == Match(i, tl.end, c, t0, te, tl.nameStart, tl.nameEnd, tl.star)
  {
  }

  /** The parts of a match at `i`, by positions: the comment marker of length `c`, the
      type in `[t0, te)`, then the rest of a declaration line up to its newline. */
  predicate PartsAt(s: string, i: nat, c: nat, t0: nat, te: nat, g: nat, n0: nat, n1: nat, star: bool) {
    && i < |s| && CommentLength(s, i) == c && RunEnd(s, i + c, Blanks) == t0
    && t0 < |s| && IsIdentStart(s[t0]) && TypeEnd(s, t0) == Some(te)
    && TailLine(s, te, g, n0, n1, star)
  }

  /** The match at `i` from the positions of its parts. */
  lemma MatchOfParts(s: string, i: nat, c: nat, t0: nat, te: nat, g: nat, n0: nat, n1: nat, star: bool)
    requires PartsAt(s, i, c, t0, te, g, n0, n1, star)
    ensures MatchesAt(s, i) && MatchGroups(s, i) == Match(i, n1 + 1, c, t0, te, n0, n1, star)
  {
    TailOfLine(s, te, g, n0, n1, star);
    MatchAtIs(s, i, c, t0, te, Tail(star, n0, n1, n1 + 1));
  }

  /** The scan over a match that a newline follows resumes after the newline. */
  lemma ScanMatchLine(s: string, i: nat, m: Match)
    requires MatchesAt(s, i) && MatchGroups(s, i) == m && m.end < |s| && s[m.end] == '\n'
    ensures ScanFrom(s, i) == [m] + ScanFrom(s, m.end + 1)
  {
    ScanFromMatch(s, i);
    MatchAtNewline(s, m.end);
    ScanFromSkip(s, m.end);
  }

  lemma MatchAtNewline(s: string, i: nat)
    requires i < |s| && s[i] == '\n'
    ensures !MatchesAt(s, i)
  {
    RunEndAt(s, i, i, Blanks);
  }

  /** The parts after the type of a declaration line, by positions. */
  lemma TailLineOfLine(s: string, a: nat, v: Variable, gap: string)
    requires Declarable(v, gap) && LineAt(s, a, v, gap)
    ensures TailLine(s, TypeStop(a, v), GapStop(a, v, gap), NameStart(a, v, gap), NameStop(a, v, gap), v.pointer == "*")
  {
    var te, g, n0, n1 := TypeStop(a, v), GapStop(a, v, gap), NameStart(a, v, gap), NameStop(a, v, gap);
    forall q | te <= q < g ensures IsBlank(s[q]) {
      assert s[q] == gap[q - te];
    }
    forall q | n0 <= q < n1 ensures s[q] == v.name[q - n0] {
    }
    if v.pointer == "*" {
      assert s[g] == v.pointer[0];
    }
  }

  /** The comment marker and the type's first character on a declaration line. */
  lemma {:induction false} HeadOfLine(s: string, a: nat, v: Variable, gap: string)
    requires Declarable(v, gap) && LineAt(s, a, v, gap)
    ensures a < |s| && CommentLength(s, a) == |v.commented|
    ensures RunEnd(s, a + |v.commented|, Blanks) == TypeStart(a, v)
    ensures IsIdentStart(s[TypeStart(a, v)])
  {
    var t0 := TypeStart(a, v);
    assert s[t0] == v.typename[0];
    if |v.commented| == 2 {
      assert s[a] == v.commented[0] && s[a + 1] == v.commented[1];
    }
    RunEndAt(s, t0, t0, Blanks);
  }

  /** A type followed by the rest of a declaration line scans to its end. */
  lemma TypeOfLine(s: string, t0: nat, t: string, g: nat, n0: nat, n1: nat, star: bool)
    requires t0 + |t| <= |s| && s[t0..t0 + |t|] == t && TypeShape(t)
    requires TailLine(s, t0 + |t|, g, n0, n1, star)
    ensures t0 < |s| && TypeEnd(s, t0) == Some(t0 + |t|)
  {
    if RunEnd(t, 1, TypeChars) == |t| {
      PlainTypeOfLine(s, t0, t, g, n0, n1, star);
    } else {
      TemplateGroupAt(s, t0, t);
      TemplateTypeOfLine(s, t0, t0 + RunEnd(t, RunEnd(t, 1, TypeChars), Blanks), t0 + |t|, g, n0, n1, star);
    }
  }

  /** The match a declaration line yields: from its first character to just before its
      newline, with the parts of the line. */
  function LineMatch(a: nat, v: Variable, gap: string): (m: Match)
    ensures m.start == a && m.end == NameStop(a, v, gap) + 1
  {
    Match(a, NameStop(a, v, gap) + 1, |v.commented|, TypeStart(a, v), TypeStop(a, v),
          NameStart(a, v, gap), NameStop(a, v, gap), v.pointer == "*")
  }

  /** The variable read from the parts of a declaration line is the line's variable. */
  lemma VariableOfLine(s: string, a: nat, v: Variable, gap: string)
    requires Declarable(v, gap) && LineAt(s, a, v, gap)
    ensures Spans(s, LineMatch(a, v, gap)) && ToVariable(s, LineMatch(a, v, gap)) == v
  {
  }

  /** A declaration line has the parts the pattern looks for. */
  lemma PartsOfLine(s: string, a: nat, v: Variable, gap: string)
    requires Declarable(v, gap) && LineAt(s, a, v, gap)
    ensures PartsAt(s, a, |v.commented|, TypeStart(a, v), TypeStop(a, v),
                    GapStop(a, v, gap), NameStart(a, v, gap), NameStop(a, v, gap), v.pointer == "*")
  {
    HeadOfLine(s, a, v, gap);
    TailLineOfLine(s, a, v, gap);
    TypeOfLine(s, TypeStart(a, v), v.typename, GapStop(a, v, gap), NameStart(a, v, gap), NameStop(a, v, gap), v.pointer == "*");
  }

  /** The scan over a declaration line reports the line's match and resumes at the
      next line. */
  lemma ScanLineStep(s: string, a: nat, v: Variable, gap: string)
    requires Declarable(v, gap) && LineAt(s, a, v, gap)
    ensures ScanFrom(s, a) == [LineMatch(a, v, gap)] + ScanFrom(s, NameStop(a, v, gap) + 2)
  {
    var m := LineMatch(a, v, gap);
    PartsOfLine(s, a, v, gap);
    MatchOfParts(s, a, m.comment, m.typeStart, m.typeEnd, GapStop(a, v, gap), m.nameStart, m.nameEnd, m.star);
    ScanMatchLine(s, a, m);
  }

  /** A suffix that spells `x + y` starts with `x`, and `y` follows. */
  lemma SuffixSplit(s: string, a: nat, x: string, y: string)
    requires a <= |s| && s[a..] == x + y
    ensures a + |x| <= |s| && s[a..a + |x|] == x && s[a + |x|..] == y
  {
    assert s[a..a + |x|] == s[a..][..|x|];
    assert s[a + |x|..] == s[a..][|x|..];
  }

  /** A suffix that starts with a declaration line holds that line, and the rest follows. */
  lemma LineOfText(s: string, a: nat, v: Variable, rest: string, gap: string)
    requires a <= |s| && s[a..] == DeclLine(v, gap) + rest
    ensures LineAt(s, a, v, gap)
    ensures NameStop(a, v, gap) + 2 <= |s| && s[NameStop(a, v, gap) + 2..] == rest
  {
    SuffixSplit(s, a, DeclLine(v, gap), rest);
    LineAtOfSlice(s, a, v, gap);
  }

  /** Where each line of `vs` starts when the first starts at `a`; the last entry is
      where the last line ends. */
  function Starts(a: nat, vs: seq<Variable>, gap: string): (ps: seq<nat>)
    ensures |ps| == |vs| + 1 && ps[0] == a
    decreases |vs|
  {
    [a] + (if vs == [] then [] else Starts(NameStop(a, vs[0], gap) + 2, vs[1..], gap))
  }

  /** Each line starts right after the newline of the one before. */
  lemma {:induction false} StartsNext(a: nat, vs: seq<Variable>, gap: string, k: nat)
    requires k < |vs|
    ensures Starts(a, vs, gap)[k + 1] == NameStop(Starts(a, vs, gap)[k], vs[k], gap) + 2
    decreases k
  {
    if k > 0 {
      StartsNext(NameStop(a, vs[0], gap) + 2, vs[1..], gap, k - 1);
    }
  }

  /** In a text of declaration lines, the line of each variable lies at its start. */
  lemma {:induction false} LineOfTextAt(s: string, a: nat, vs: seq<Variable>, gap: string, k: nat)
    requires a <= |s| && s[a..] == DeclText(vs, gap) && k < |vs|
    ensures LineAt(s, Starts(a, vs, gap)[k], vs[k], gap)
    decreases k
  {
    LineOfText(s, a, vs[0], DeclText(vs[1..], gap), gap);
    if k > 0 {
      LineOfTextAt(s, NameStop(a, vs[0], gap) + 2, vs[1..], gap, k - 1);
      StartsShift(a, vs, gap, k - 1);
      assert vs[k] == vs[1..][k - 1];
    }
  }

  /** The last start is where the text of the lines ends. */
  lemma {:induction false} StartsEnd(a: nat, vs: seq<Variable>, gap: string)
    ensures Starts(a, vs, gap)[|vs|] == a + |DeclText(vs, gap)|
    decreases |vs|
  {
    if vs != [] {
      var b := NameStop(a, vs[0], gap) + 2;
      StartsEnd(b, vs[1..], gap);
      StartsShift(a, vs, gap, |vs| - 1);
      assert |DeclText(vs, gap)| == |DeclLine(vs[0], gap)| + |DeclText(vs[1..], gap)|;
    }
  }

  /** The starts after the first line's are those of the remaining lines. */
  lemma StartsShift(a: nat, vs: seq<Variable>, gap: string, k: nat)
    requires k < |vs|
    ensures Starts(a, vs, gap)[k + 1] == Starts(NameStop(a, vs[0], gap) + 2, vs[1..], gap)[k]
  {
  }

  /** The matches of the lines of `vs` from the `k`-th on, with the lines at `ps`. */
  function LineMatches(ps: seq<nat>, vs: seq<Variable>, gap: string, k: nat): (ms: seq<Match>)
    requires |ps| == |vs| + 1 && k <= |vs|
    ensures |ms| == |vs| - k
    decreases |vs| - k
  {
    if k == |vs| then [] else [LineMatch(ps[k], vs[k], gap)] + LineMatches(ps, vs, gap, k + 1)
  }

  /** Every line, scanned from its start, reports its match and resumes at the next line. */
  lemma {:induction false} ScanSteps(s: string, ps: seq<nat>, vs: seq<Variable>, gap: string)
    requires |ps| == |vs| + 1
    requires forall k :: 0 <= k < |vs| ==> Declarable(vs[k], gap) && LineAt(s, ps[k], vs[k], gap)
    requires forall k :: 0 <= k < |vs| ==> ps[k + 1] == NameStop(ps[k], vs[k], gap) + 2
    ensures forall k :: 0 <= k < |vs| ==> ps[k] < |s|
    ensures forall k :: 0 <= k < |vs| && ps[k + 1] <= |s| ==>
              ScanFrom(s, ps[k]) == [LineMatch(ps[k], vs[k], gap)] + ScanFrom(s, ps[k + 1])
  {
    forall k | 0 <= k < |vs|
      ensures ps[k] < |s|
      ensures ScanFrom(s, ps[k]) == [LineMatch(ps[k], vs[k], gap)] + ScanFrom(s, ps[k + 1])
    {
      ScanLineTo(s, ps[k], vs[k], gap, ps[k + 1]);
    }
  }

  /** `ScanLineStep`, with the start of the next line given. */
  lemma {:induction false} ScanLineTo(s: string, a: nat, v: Variable, gap: string, b: nat)
    requires Declarable(v, gap) && LineAt(s, a, v, gap) && b == NameStop(a, v, gap) + 2
    ensures a < |s| && b <= |s| && ScanFrom(s, a) == [LineMatch(a, v, gap)] + ScanFrom(s, b)
  {
    ScanLineStep(s, a, v, gap);
  }

  lemma SliceCons<T>(xs: seq<T>, k: nat)
    requires k < |xs|
    ensures xs[k..] == [xs[k]] + xs[k + 1..]
  {
  }

  lemma ConsEqual<T>(x: seq<T>, m: T, y: seq<T>, z: seq<T>)
    requires x == [m] + y && y == z
    ensures x == [m] + z
  {
  }

  /** Scanning from the start of the `k`-th line reports the matches of that line and
      the lines after it. */
  lemma {:induction false} ScanText(s: string, ps: seq<nat>, vs: seq<Variable>, gap: string, k: nat)
    requires |ps| == |vs| + 1 && k <= |vs| && ps[|vs|] == |s|
    requires forall j :: 0 <= j < |vs| ==> ps[j] < |s|
    requires forall j :: 0 <= j < |vs| && ps[j + 1] <= |s| ==>
               ScanFrom(s, ps[j]) == [LineMatch(ps[j], vs[j], gap)] + ScanFrom(s, ps[j + 1])
    ensures ps[k] <= |s| && ScanFrom(s, ps[k]) == LineMatches(ps, vs, gap, k)
    decreases |vs| - k
  {
    if k < |vs| {
      ScanText(s, ps, vs, gap, k + 1);
      assert ps[k + 1] <= |s|;
      ConsEqual(ScanFrom(s, ps[k]), LineMatch(ps[k], vs[k], gap), ScanFrom(s, ps[k + 1]), LineMatches(ps, vs, gap, k + 1));
    }
  }

  /** The variables read from the matches of the lines from the `k`-th on are those of
      the lines. */
  lemma {:induction false} VarsOfLines(s: string, ps: seq<nat>, vs: seq<Variable>, gap: string, k: nat)
    requires |ps| == |vs| + 1 && k <= |vs|
    requires forall j :: 0 <= j < |vs| ==>
               Spans(s, LineMatch(ps[j], vs[j], gap)) && ToVariable(s, LineMatch(ps[j], vs[j], gap)) == vs[j]
    ensures forall j :: 0 <= j < |vs| - k ==> Spans(s, LineMatches(ps, vs, gap, k)[j])
    ensures Vars(s, LineMatches(ps, vs, gap, k)) == vs[k..]
    decreases |vs| - k
  {
    if k < |vs| {
      var m := LineMatch(ps[k], vs[k], gap);
      var rest := LineMatches(ps, vs, gap, k + 1);
      VarsOfLines(s, ps, vs, gap, k + 1);
      VarsCons(s, m, rest);
      assert ToVariable(s, m) == vs[k];
      SliceCons(vs, k);
      ConsEqual(Vars(s, [m] + rest), vs[k], Vars(s, rest), vs[k + 1..]);
    }
  }

  /** Each line reads back as its variable. */
  lemma {:induction false} ReadLines(s: string, ps: seq<nat>, vs: seq<Variable>, gap: string)
    requires |ps| == |vs| + 1
    requires forall k :: 0 <= k < |vs| ==> Declarable(vs[k], gap) && LineAt(s, ps[k], vs[k], gap)
    ensures forall k :: 0 <= k < |vs| ==>
              Spans(s, LineMatch(ps[k], vs[k], gap)) && ToVariable(s, LineMatch(ps[k], vs[k], gap)) == vs[k]
  {
    forall k | 0 <= k < |vs|
      ensures Spans(s, LineMatch(ps[k], vs[k], gap)) && ToVariable(s, LineMatch(ps[k], vs[k], gap)) == vs[k]
    {
      VariableOfLine(s, ps[k], vs[k], gap);
    }
  }

  /** Round trip: the declaration text of any declarable variables scans back to
      exactly those variables, in order and with repetitions. */
  lemma {:induction false} DeclTextRoundTrip(vs: seq<Variable>, gap: string)
    requires forall k :: 0 <= k < |vs| ==> Declarable(vs[k], gap)
    ensures Vars(DeclText(vs, gap), ScanFrom(DeclText(vs, gap), 0)) == vs
  {
    var t := DeclText(vs, gap);
    var ps := Starts(0, vs, gap);
    assert t[0..] == t;
    StartsEnd(0, vs, gap);
    forall k | 0 <= k < |vs|
      ensures LineAt(t, ps[k], vs[k], gap)
    {
      LineOfTextAt(t, 0, vs, gap, k);
    }
    forall k | 0 <= k < |vs|
      ensures ps[k + 1] == NameStop(ps[k], vs[k], gap) + 2
    {
      StartsNext(0, vs, gap, k);
    }
    ScanSteps(t, ps, vs, gap);
    ScanText(t, ps, vs, gap, 0);
    ReadLines(t, ps, vs, gap);
    VarsOfLines(t, ps, vs, gap, 0);
  }
}
