/** The declaration scanner: `re.finditer` of the pattern
    `(//)?[ \t]*TYPE(([ \t]*\*[ \t]*)|([ \t]+))NAME[ \t]*;[ \t;]*` over normalised text,
    where TYPE is `[a-zA-Z_][a-zA-Z_0-9:]*([ \t]*<.+>)?` and NAME `[a-zA-Z_][a-zA-Z_0-9]*`.

    Every part of the pattern except the template group is deterministic once the
    backtracking of the regular expression engine is taken into account: each
    repetition is followed by a character it cannot consume. The template group `<.+>`
    is greedy; `TemplateSearch` tries its closing `>` from the end of the line
    downwards, exactly as the engine backtracks. */
module DeclarationScanner {
  import opened Text
  import opened Variables

  /** The character classes repeated by the pattern. */
  datatype CharClass = Blanks | TypeChars | IdentChars | Trailing | NonNewline

  predicate InClass(c: char, k: CharClass) {
    match k
    case Blanks => IsBlank(c)
    case TypeChars => IsTypeChar(c)
    case IdentChars => IsIdentChar(c)
    case Trailing => IsBlank(c) || c == ';'
    case NonNewline => c != '\n'
  }

  /** End of the greedy run of class `k` that starts at `i`. */
  function RunEnd(s: string, i: nat, k: CharClass): (r: nat)
    requires i <= |s|
    ensures i <= r <= |s|
    ensures r == |s| || !InClass(s[r], k)
    decreases |s| - i
  {
    if i < |s| && InClass(s[i], k) then RunEnd(s, i + 1, k) else i
  }

  /** Every character of the run is in the class. */
  lemma {:induction false} RunEndAll(s: string, i: nat, k: CharClass)
    requires i <= |s|
    ensures forall p :: i <= p < RunEnd(s, i, k) ==> InClass(s[p], k)
    decreases |s| - i
  {
    if i < |s| && InClass(s[i], k) {
      RunEndAll(s, i + 1, k);
    }
  }

  lemma {:induction false} RunEndAt(s: string, i: nat, j: nat, k: CharClass)
    requires i <= j <= |s|
    requires forall p :: i <= p < j ==> InClass(s[p], k)
    requires j == |s| || !InClass(s[j], k)
    ensures RunEnd(s, i, k) == j
    decreases j - i
  {
    if i < j {
      RunEndAt(s, i + 1, j, k);
    }
  }

  /** What follows the type: whether the pointer marker is there, where the name
      lies, and where the whole match ends. */
  datatype Tail = Tail(star: bool, nameStart: nat, nameEnd: nat, end: nat)

  /** One match, as the spans of its groups: the whole match `[start, end)`, the
      optional `//` of length `comment`, the type, the name, and whether the pointer
      marker was there. */
  datatype Match = Match(start: nat, end: nat, comment: nat, typeStart: nat, typeEnd: nat,
                         nameStart: nat, nameEnd: nat, star: bool)

  /** The groups of a match lie in order inside the text. */
  predicate Spans(s: string, m: Match) {
    m.start + m.comment <= m.typeStart < m.typeEnd < m.nameStart < m.nameEnd < m.end <= |s|
  }

  /** The shape of every variable the scanner yields. */
  predicate WellScanned(v: Variable) {
    && (v.commented == "//" || v.commented == "")
    && (v.pointer == "*" || v.pointer == "")
    && IsIdentifier(v.name)
    && |v.typename| > 0 && IsIdentStart(v.typename[0])
    && NoNewline(v.typename)
  }

  /** `NAME[ \t]*;[ \t;]*` at `r`. */
  function NameTail(s: string, r: nat, star: bool): (t: Option<Tail>)
    requires r <= |s|
    ensures t.Some? ==> t.value.star == star && r == t.value.nameStart < t.value.nameEnd < t.value.end <= |s|
  {
    if r < |s| && IsIdentStart(s[r]) then
      var ne := RunEnd(s, r + 1, IdentChars);
      var w := RunEnd(s, ne, Blanks);
      if w < |s| && s[w] == ';' then Some(Tail(star, r, ne, RunEnd(s, w + 1, Trailing)))
      else None
    else None
  }

  /** The separator between type and name, then the name: `[ \t]*\*[ \t]*` (tried first)
      or `[ \t]+` not followed by `*`. */
  function TailAt(s: string, p: nat): (t: Option<Tail>)
    requires p <= |s|
    ensures t.Some? ==> p < t.value.nameStart < t.value.nameEnd < t.value.end <= |s|
  {
    var q := RunEnd(s, p, Blanks);
    var star := q < |s| && s[q] == '*';
    if star || q > p then NameTail(s, if star then RunEnd(s, q + 1, Blanks) else q, star)
    else None
  }

  /** The greedy `<.+>` that opens at `u`: the largest `e` at or below `hi` that holds a
      `>` after at least one character and after which the rest of the pattern matches. */
  function TemplateSearch(s: string, u: nat, hi: int): (e: Option<nat>)
    requires u < |s| && hi < |s|
    ensures e.Some? ==> u + 2 <= e.value <= hi && s[e.value] == '>'
    decreases hi - u
  {
    if hi < u + 2 then None
    else if s[hi] == '>' && TailAt(s, hi + 1).Some? then Some(hi)
    else TemplateSearch(s, u, hi - 1)
  }

  /** The optional template group after the type identifier that ends at `t1`: where the
      group ends, when it is there and the rest of the pattern matches after it. */
  function TemplateAfter(s: string, t1: nat): (te: Option<nat>)
    requires t1 <= |s|
    ensures te.Some? ==> t1 < te.value <= |s|
    ensures te.Some? ==> var u := RunEnd(s, t1, Blanks); u < |s| && s[u] == '<' && te.value <= RunEnd(s, u + 1, NonNewline)
  {
    var u := RunEnd(s, t1, Blanks);
    if u < |s| && s[u] == '<' then
      var e := TemplateSearch(s, u, RunEnd(s, u + 1, NonNewline) - 1);
      if e.Some? then Some(e.value + 1) else None
    else None
  }

  /** The end of the type that starts at `t0` (identifier part, then the optional
      template group), when the rest of the pattern matches after it. */
  function TypeEnd(s: string, t0: nat): (te: Option<nat>)
    requires t0 < |s|
    ensures te.Some? ==> t0 < te.value <= |s|
  {
    var t1 := RunEnd(s, t0 + 1, TypeChars);
    var templ := TemplateAfter(s, t1);
    if templ.Some? then templ
    else if TailAt(s, t1).Some? then Some(t1)
    else None
  }

  /** Length of the optional `//` group at `i`. */
  function CommentLength(s: string, i: nat): (c: nat)
    ensures c == 0 || c == 2
    ensures c == 2 <==> i + 1 < |s| && s[i] == '/' && s[i + 1] == '/'
  {
    if i + 1 < |s| && s[i] == '/' && s[i + 1] == '/' then 2 else 0
  }

  /** One attempt of the pattern at position `i` succeeds. */
  predicate MatchesAt(s: string, i: nat) {
    && i < |s|
    && var t0 := RunEnd(s, i + CommentLength(s, i), Blanks);
       && t0 < |s| && IsIdentStart(s[t0])
       && var te := TypeEnd(s, t0);
          te.Some? && TailAt(s, te.value).Some?
  }

  /** The groups of the successful attempt at position `i`. */
  function MatchGroups(s: string, i: nat): (m: Match)
    requires MatchesAt(s, i)
    ensures m.start == i && Spans(s, m)
    ensures m.comment == 0 || (m.comment == 2 && s[i] == '/' && s[i + 1] == '/')
  {
    var c := CommentLength(s, i);
    var t0 := RunEnd(s, i + c, Blanks);
    var te := TypeEnd(s, t0).value;
    var tl := TailAt(s, te).value;
    Match(i, tl.end, c, t0, te, tl.nameStart, tl.nameEnd, tl.star)
  }

  /** The `Variable` built from the groups of a match. */
  function ToVariable(s: string, m: Match): (v: Variable)
    requires Spans(s, m)
    ensures |v.typename| == m.typeEnd - m.typeStart && |v.name| == m.nameEnd - m.nameStart
  {
    Variable(s[m.nameStart..m.nameEnd], s[m.typeStart..m.typeEnd], s[m.start..m.start + m.comment],
             if m.star then "*" else "")
  }

  /** The name a successful tail reports is an identifier. */
  lemma NameIsIdentifier(s: string, p: nat)
    requires p <= |s| && TailAt(s, p).Some?
    ensures IsIdentifier(s[TailAt(s, p).value.nameStart..TailAt(s, p).value.nameEnd])
  {
    var q := RunEnd(s, p, Blanks);
    var r := if q < |s| && s[q] == '*' then RunEnd(s, q + 1, Blanks) else q;
    RunEndAll(s, r + 1, IdentChars);
  }

  /** A template group lies on one line. */
  lemma TemplateOnOneLine(s: string, t1: nat)
    requires t1 <= |s| && TemplateAfter(s, t1).Some?
    ensures forall p :: t1 <= p < TemplateAfter(s, t1).value ==> s[p] != '\n'
  {
    var u := RunEnd(s, t1, Blanks);
    RunEndAll(s, t1, Blanks);
    RunEndAll(s, u + 1, NonNewline);
    forall p | t1 <= p < TemplateAfter(s, t1).value ensures s[p] != '\n' {
      if p < u {
        assert InClass(s[p], Blanks);
      } else if p > u {
        assert InClass(s[p], NonNewline);
      } else {
        assert s[p] == '<';
      }
    }
  }

  /** The type a match reports lies on one line. */
  lemma TypeOnOneLine(s: string, t0: nat)
    requires t0 < |s| && IsIdentStart(s[t0]) && TypeEnd(s, t0).Some?
    ensures forall p :: t0 <= p < TypeEnd(s, t0).value ==> s[p] != '\n'
  {
    var t1 := RunEnd(s, t0 + 1, TypeChars);
    RunEndAll(s, t0 + 1, TypeChars);
    forall p | t0 <= p < t1 ensures s[p] != '\n' {
      assert p == t0 || InClass(s[p], TypeChars);
    }
    if TemplateAfter(s, t1).Some? {
      TemplateOnOneLine(s, t1);
    }
  }

  lemma MatchName(s: string, i: nat)
    requires MatchesAt(s, i)
    ensures IsIdentifier(ToVariable(s, MatchGroups(s, i)).name)
  {
    var c := CommentLength(s, i);
    var t0 := RunEnd(s, i + c, Blanks);
    NameIsIdentifier(s, TypeEnd(s, t0).value);
  }

  lemma MatchType(s: string, i: nat)
    requires MatchesAt(s, i)
    ensures var t := ToVariable(s, MatchGroups(s, i)).typename; |t| > 0 && IsIdentStart(t[0]) && NoNewline(t)
  {
    var c := CommentLength(s, i);
    var t0 := RunEnd(s, i + c, Blanks);
    TypeOnOneLine(s, t0);
  }

  lemma MatchComment(s: string, i: nat)
    requires MatchesAt(s, i)
    ensures var m := MatchGroups(s, i); s[i..i + m.comment] == "//" || s[i..i + m.comment] == ""
  {
    var m := MatchGroups(s, i);
    if m.comment == 2 {
      assert s[i..i + m.comment] == "//";
    } else {
      assert s[i..i + m.comment] == "";
    }
  }

  /** Every match yields a variable of the declared shape: marker `//` or nothing,
      pointer `*` or nothing, an identifier as name and a one-line type that starts like
      an identifier. */
  lemma MatchShape(s: string, i: nat)
    requires MatchesAt(s, i)
    ensures WellScanned(ToVariable(s, MatchGroups(s, i)))
  {
    MatchName(s, i);
    MatchType(s, i);
    MatchComment(s, i);
  }

  /** `re.finditer` from position `i`: matches do not overlap and come in text order. */
  function ScanFrom(s: string, i: nat): (ms: seq<Match>)
    requires i <= |s|
    ensures forall k :: 0 <= k < |ms| ==> i <= ms[k].start && Spans(s, ms[k])
    ensures forall k :: 0 <= k < |ms| - 1 ==> ms[k].end <= ms[k + 1].start
    decreases |s| - i, 1
  {
    if i == |s| then [] else ScanAt(s, i)
  }

  /** The scan at a position before the end: a match there is reported and the scan
      resumes at its end; otherwise it moves on by one character. */
  function ScanAt(s: string, i: nat): (ms: seq<Match>)
    requires i < |s|
    ensures forall k :: 0 <= k < |ms| ==> i <= ms[k].start && Spans(s, ms[k])
    ensures forall k :: 0 <= k < |ms| - 1 ==> ms[k].end <= ms[k + 1].start
    decreases |s| - i, 0
  {
    if MatchesAt(s, i) then [MatchGroups(s, i)] + ScanFrom(s, MatchGroups(s, i).end)
    else ScanFrom(s, i + 1)
  }

  /** The variables of a sequence of matches, in order. */
  function Vars(s: string, ms: seq<Match>): (vs: seq<Variable>)
    requires forall k :: 0 <= k < |ms| ==> Spans(s, ms[k])
    ensures |vs| == |ms|
  {
    if ms == [] then [] else [ToVariable(s, ms[0])] + Vars(s, ms[1..])
  }

  /** One step of the scan: a match at `i` is reported and the scan resumes at its end. */
  lemma {:induction false} ScanFromMatch(s: string, i: nat)
    requires MatchesAt(s, i)
    ensures ScanFrom(s, i) == [MatchGroups(s, i)] + ScanFrom(s, MatchGroups(s, i).end)
  {
  }

  /** One step of the scan: without a match at `i` the scan moves on by one character. */
  lemma ScanFromSkip(s: string, i: nat)
    requires i < |s| && !MatchesAt(s, i)
    ensures ScanFrom(s, i) == ScanFrom(s, i + 1)
  {
  }

  /** Reading the variables of a match followed by more matches. */
  lemma {:induction false} VarsCons(s: string, m: Match, rest: seq<Match>)
    requires Spans(s, m) && forall k :: 0 <= k < |rest| ==> Spans(s, rest[k])
    ensures Vars(s, [m] + rest) == [ToVariable(s, m)] + Vars(s, rest)
  {
    assert ([m] + rest)[1..] == rest;
  }

  /** Reading the variables of some matches and then one more. */
  lemma {:induction false} VarsSnoc(s: string, ms: seq<Match>, m: Match)
    requires Spans(s, m) && forall k :: 0 <= k < |ms| ==> Spans(s, ms[k])
    ensures Vars(s, ms + [m]) == Vars(s, ms) + [ToVariable(s, m)]
  {
    if ms != [] {
      assert (ms + [m])[1..] == ms[1..] + [m];
      VarsSnoc(s, ms[1..], m);
    }
  }

  /** The loop of `ReadVariableSelection` over the matches of `re.finditer`: one
      `Variable` per match, in order. */
  method ReadDeclarations(text: string) returns (vars: seq<Variable>)
    ensures vars == Vars(text, ScanFrom(text, 0))
  {
    var ms := ScanFrom(text, 0);
    vars := [];
    for k := 0 to |ms|
      invariant vars == Vars(text, ms[..k])
    {
      VarsSnoc(text, ms[..k], ms[k]);
      assert ms[..k + 1] == ms[..k] + [ms[k]];
      vars := vars + [ToVariable(text, ms[k])];
    }
    assert ms[..|ms|] == ms;
  }

  /** Every scanned variable has the declared shape: marker `//` or nothing, pointer
      `*` or nothing, an identifier as name and a type that starts like an identifier. */
  lemma {:induction false} ScannedShape(s: string, i: nat)
    requires i <= |s|
    ensures forall v :: v in Vars(s, ScanFrom(s, i)) ==> WellScanned(v)
    decreases |s| - i
  {
    if i < |s| {
      if MatchesAt(s, i) {
        var m := MatchGroups(s, i);
        MatchShape(s, i);
        ScanFromMatch(s, i);
        ScannedShape(s, m.end);
        VarsCons(s, m, ScanFrom(s, m.end));
      } else {
        ScanFromSkip(s, i);
        ScannedShape(s, i + 1);
      }
    }
  }

  /** Position `p` lies inside one of the matches. */
  predicate Covers(ms: seq<Match>, p: nat) {
    exists k :: 0 <= k < |ms| && ms[k].start <= p < ms[k].end
  }

  lemma CoversHead(m: Match, rest: seq<Match>, p: nat)
    requires m.start <= p < m.end
    ensures Covers([m] + rest, p)
  {
    assert ([m] + rest)[0] == m;
  }

  lemma CoversTail(m: Match, rest: seq<Match>, p: nat)
    requires Covers(rest, p)
    ensures Covers([m] + rest, p)
  {
    var k :| 0 <= k < |rest| && rest[k].start <= p < rest[k].end;
    assert ([m] + rest)[k + 1] == rest[k];
  }

  /** No match is skipped: every position where the pattern matches is the start of a
      reported match or lies inside one. */
  lemma {:induction false} ScanComplete(s: string, i: nat, p: nat)
    requires i <= p && MatchesAt(s, p)
    ensures Covers(ScanFrom(s, i), p)
    decreases |s| - i
  {
    if MatchesAt(s, i) {
      var m := MatchGroups(s, i);
      ScanFromMatch(s, i);
      if p >= m.end {
        ScanComplete(s, m.end, p);
        CoversTail(m, ScanFrom(s, m.end), p);
      } else {
        CoversHead(m, ScanFrom(s, m.end), p);
      }
    } else {
      assert p != i;
      ScanFromSkip(s, i);
      ScanComplete(s, i + 1, p);
    }
  }

  /** Where the pattern matches nowhere from `i` on, the scan reports nothing. */
  lemma {:induction false} ScanNone(s: string, i: nat)
    requires i <= |s|
    requires forall p :: i <= p < |s| ==> !MatchesAt(s, p)
    ensures ScanFrom(s, i) == []
    decreases |s| - i
  {
    if i < |s| {
      ScanFromSkip(s, i);
      ScanNone(s, i + 1);
    }
  }

  /** Text in which the pattern matches nowhere yields no variables, and only such text. */
  lemma {:induction false} ScanEmpty(s: string)
    ensures ScanFrom(s, 0) == [] <==> forall p :: 0 <= p < |s| ==> !MatchesAt(s, p)
  {
    if forall p :: 0 <= p < |s| ==> !MatchesAt(s, p) {
      ScanNone(s, 0);
    } else {
      var p :| 0 <= p < |s| && MatchesAt(s, p);
      ScanComplete(s, 0, p);
    }
  }
}
