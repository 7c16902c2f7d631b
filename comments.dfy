/** The comment normaliser of the variable selection reader: the substitutions that turn
    block comments into line comments, put every line comment on a line of its own and
    tidy the whitespace around line breaks, before declarations are scanned. */
module CommentNormalizer {
  import opened Text
  import opened Substitution

  const NL: set<char> := {'\n'}

  // ---------------------------------------------------------------------------
  // Line break after each comment closer.

  /** The substitution `\*\/[^\n]` -> `*\/\n` as written: the character after the
      closer is consumed by the match and replaced by the newline. */
  function BreakAfterCloseAsWritten(s: string): (r: string)
    ensures |r| == |s|
    decreases |s|
  {
    if s == [] then []
    else if |s| >= 3 && s[0] == '*' && s[1] == '/' && s[2] != '\n' then
      "*/\n" + BreakAfterCloseAsWritten(s[3..])
    else [s[0]] + BreakAfterCloseAsWritten(s[1..])
  }

  /** The substitution as its comment describes it: a newline is inserted after every
      closer that is followed by a character other than a newline. */
  function BreakAfterClose(s: string): (r: string)
    ensures |s| > 0 ==> |r| > 0 && r[0] == s[0]
    ensures |r| >= |s|
    decreases |s|
  {
    if s == [] then []
    else if |s| >= 3 && s[0] == '*' && s[1] == '/' && s[2] != '\n' then
      "*/\n" + BreakAfterClose(s[2..])
    else [s[0]] + BreakAfterClose(s[1..])
  }

  /** Every closer is followed by a newline or ends the text. */
  predicate ClosersBroken(s: string) {
    forall i :: 0 <= i < |s| - 2 && s[i] == '*' && s[i + 1] == '/' ==> s[i + 2] == '\n'
  }

  lemma ClosersBrokenCons(c: char, t: string)
    requires ClosersBroken(t)
    requires c == '*' && |t| >= 2 && t[0] == '/' ==> t[1] == '\n'
    ensures ClosersBroken([c] + t)
  {
    var u := [c] + t;
    forall i | 0 < i < |u| - 2 && u[i] == '*' && u[i + 1] == '/'
      ensures u[i + 2] == '\n'
    {
      assert t[i - 1] == '*' && t[i] == '/';
    }
  }

  /** After the corrected substitution every closer is followed by a newline. */
  lemma {:induction false} BreakAfterCloseBreaks(s: string)
    ensures ClosersBroken(BreakAfterClose(s))
    decreases |s|
  {
    if s == [] {
    } else if |s| >= 3 && s[0] == '*' && s[1] == '/' && s[2] != '\n' {
      var t := BreakAfterClose(s[2..]);
      BreakAfterCloseBreaks(s[2..]);
      ClosersBrokenCons('\n', t);
      ClosersBrokenCons('/', ['\n'] + t);
      ClosersBrokenCons('*', ['/'] + (['\n'] + t));
      assert "*/\n" + t == ['*'] + (['/'] + (['\n'] + t));
    } else {
      var t := BreakAfterClose(s[1..]);
      BreakAfterCloseBreaks(s[1..]);
      if s[0] == '*' && |s| >= 3 && s[1] == '/' {
        assert s[1..][1..] == s[2..];
        assert t == ['/'] + BreakAfterClose(s[2..]);
      }
      ClosersBrokenCons(s[0], t);
    }
  }

  /** The corrected substitution only inserts newlines. */
  lemma {:induction false} BreakAfterCloseKeeps(s: string)
    ensures Without(BreakAfterClose(s), NL) == Without(s, NL)
    decreases |s|
  {
    if s == [] {
    } else if |s| >= 3 && s[0] == '*' && s[1] == '/' && s[2] != '\n' {
      BreakAfterCloseKeeps(s[2..]);
      WithoutAppend("*/\n", BreakAfterClose(s[2..]), NL);
      WithoutAppend(s[..2], s[2..], NL);
      assert s == s[..2] + s[2..];
    } else {
      BreakAfterCloseKeeps(s[1..]);
      WithoutAppend([s[0]], BreakAfterClose(s[1..]), NL);
      WithoutAppend([s[0]], s[1..], NL);
      assert s == [s[0]] + s[1..];
    }
  }

  /** A text whose closers are all followed by a newline is left as it is. */
  lemma {:induction false} BreakAfterCloseFixed(s: string)
    requires ClosersBroken(s)
    ensures BreakAfterClose(s) == s
    decreases |s|
  {
    if s != [] {
      assert ClosersBroken(s[1..]) by {
        forall i | 0 <= i < |s[1..]| - 2 && s[1..][i] == '*' && s[1..][i + 1] == '/'
          ensures s[1..][i + 2] == '\n'
        {
          assert s[i + 1] == '*' && s[i + 2] == '/';
        }
      }
      BreakAfterCloseFixed(s[1..]);
      assert s == [s[0]] + s[1..];
    }
  }

  /** The substitution as written also leaves such a text as it is: it only goes wrong
      where a closer is followed by another character than a newline. */
  lemma {:induction false} AsWrittenFixed(s: string)
    requires ClosersBroken(s)
    ensures BreakAfterCloseAsWritten(s) == s
    decreases |s|
  {
    if s != [] {
      assert ClosersBroken(s[1..]) by {
        forall i | 0 <= i < |s[1..]| - 2 && s[1..][i] == '*' && s[1..][i + 1] == '/'
          ensures s[1..][i + 2] == '\n'
        {
          assert s[i + 1] == '*' && s[i + 2] == '/';
        }
      }
      AsWrittenFixed(s[1..]);
      assert s == [s[0]] + s[1..];
    }
  }

  /** Applying the corrected substitution twice is the same as applying it once. */
  lemma BreakAfterCloseIdempotent(s: string)
    ensures BreakAfterClose(BreakAfterClose(s)) == BreakAfterClose(s)
  {
    BreakAfterCloseBreaks(s);
    BreakAfterCloseFixed(BreakAfterClose(s));
  }

  /** The substitution as written drops the character that follows a closer, where the
      corrected one keeps it at the head of the next line: after a closer, a declaration
      `int x;` comes out as `nt x;`. */
  lemma BreakAfterCloseDrops(c: char, rest: string)
    requires c != '\n'
    ensures BreakAfterCloseAsWritten("*/" + [c] + rest) == "*/\n" + BreakAfterCloseAsWritten(rest)
    ensures BreakAfterClose("*/" + [c] + rest) == "*/\n" + BreakAfterClose([c] + rest)
  {
    var s := "*/" + [c] + rest;
    assert s[3..] == rest && s[2..] == [c] + rest;
  }

  // ---------------------------------------------------------------------------
  // Block comments to line comments.

  /** A comment opened before `q` may end at `q`: a newline, or a closer. */
  predicate EndsAt(s: string, q: nat)
    requires q < |s|
  {
    s[q] == '\n' || OccursAt(s, "*/", q)
  }

  /** The lazy `.*?` followed by `(\n|\*\/)`: the first position from `k` on where the
      comment text can end, or `None` when the text has none. */
  function CommentEnd(s: string, k: nat): (e: Option<nat>)
    requires k <= |s|
    ensures e.Some? ==> k <= e.value < |s| && EndsAt(s, e.value)
    ensures e.Some? ==> forall q :: k <= q < e.value ==> !EndsAt(s, q)
    ensures e.None? ==> forall q :: k <= q < |s| ==> !EndsAt(s, q)
    decreases |s| - k
  {
    if k == |s| then None else if EndsAt(s, k) then Some(k) else CommentEnd(s, k + 1)
  }

  /** The first possible end is the one found. */
  lemma {:induction false} CommentEndAt(s: string, k: nat, j: nat)
    requires k <= j < |s| && EndsAt(s, j)
    requires forall q :: k <= q < j ==> !EndsAt(s, q)
    ensures CommentEnd(s, k) == Some(j)
    decreases j - k
  {
    if k < j {
      CommentEndAt(s, k + 1, j);
    }
  }

  /** One application of the substitution that moves each opener to the end of its
      comment text: an opener followed, on its line, by a newline or a closer becomes
      `// `, the text it passes follows, and the opener is put back just before that end.
      An opener without an end is left where it is. */
  function MoveOpeners(s: string): (r: string)
    decreases |s|, 1
  {
    if s == [] then []
    else if s[0] == '/' then MoveAtSlash(s)
    else [s[0]] + MoveOpeners(s[1..])
  }

  /** The substitution at a `/`: the match when an opener with an end starts here. */
  function MoveAtSlash(s: string): (r: string)
    requires s != [] && s[0] == '/'
    decreases |s|, 0
  {
    if "/*" <= s && CommentEnd(s, 2).Some? then
      var j := CommentEnd(s, 2).value;
      var close := if s[j] == '\n' then "\n" else "*/";
      "// " + s[2..j] + "/*" + close + MoveOpeners(s[j + |close|..])
    else ['/'] + MoveOpeners(s[1..])
  }

  /** Text without a `/` passes through unchanged. */
  lemma {:induction false} MoveOpenersPrefix(a: string, b: string)
    requires forall i :: 0 <= i < |a| ==> a[i] != '/'
    ensures MoveOpeners(a + b) == a + MoveOpeners(b)
    decreases |a|
  {
    if a == [] {
      assert a + b == b;
    } else {
      assert (a + b)[0] == a[0] && (a + b)[1..] == a[1..] + b;
      MoveOpenersPrefix(a[1..], b);
      assert a == [a[0]] + a[1..];
    }
  }

  /** One turn of the loop body: move the openers, delete the empty comments (an opener
      directly followed by a closer) and move an opener that ends a line to the head of
      the next line. */
  function CommentPass(s: string): (r: string)
  {
    ReplaceAll(ReplaceAll(MoveOpeners(s), "/**/", ""), "/*\n", "\n/*")
  }

  /** The loop `while re.search("/\*", text)` run for at most `fuel` turns; `None` when
      the text still holds an opener after them. */
  function StripComments(s: string, fuel: nat): (r: Option<string>)
    ensures r.Some? ==> !Contains(r.value, "/*")
    decreases fuel
  {
    if !Contains(s, "/*") then Some(s)
    else if fuel == 0 then None
    else StripComments(CommentPass(s), fuel - 1)
  }

  /** The loop itself, bounded by `fuel` turns. */
  method StripBlockComments(text: string, fuel: nat) returns (r: Option<string>)
    ensures r == StripComments(text, fuel)
    ensures r.Some? ==> !Contains(r.value, "/*")
  {
    var t := text;
    var n := fuel;
    while Contains(t, "/*") && n > 0
      invariant StripComments(t, n) == StripComments(text, fuel)
      decreases n
    {
      t := CommentPass(t);
      n := n - 1;
    }
    if Contains(t, "/*") {
      r := None;
    } else {
      r := Some(t);
    }
  }

  /** A text none of whose characters is `p[j]` does not contain `p`. */
  lemma AbsentChar(s: string, p: string, j: nat)
    requires j < |p| && forall i :: 0 <= i < |s| ==> s[i] != p[j]
    ensures !Contains(s, p)
  {
    forall i | 0 <= i <= |s| - |p|
      ensures !OccursAt(s, p, i)
    {
      assert s[i..i + |p|][j] == s[i + j];
    }
  }

  /** Text with neither `/` nor `*`: no comment marker can start or end in it. */
  predicate Plain(s: string) {
    forall i :: 0 <= i < |s| ==> s[i] != '/' && s[i] != '*'
  }

  /** In plain `x`, then an opener, then plain `u`, the only marker characters are the
      opener's own. */
  lemma OpenerOnly(x: string, u: string, j: nat)
    requires Plain(x) && Plain(u)
    requires j < |x| + 2 + |u| && j != |x| && j != |x| + 1
    ensures (x + "/*" + u)[j] != '/' && (x + "/*" + u)[j] != '*'
  {
    var s := x + "/*" + u;
    if j < |x| {
      assert s[j] == x[j];
    } else {
      assert s[j] == u[j - |x| - 2];
    }
  }

  /** The opener is not moved when its line holds no end for it. */
  lemma UnclosedCommentNotMoved(x: string, u: string)
    requires Plain(x) && Plain(u) && NoNewline(u)
    ensures MoveOpeners(x + "/*" + u) == x + "/*" + u
  {
    var v := "/*" + u;
    OpenerNotMoved(u);
    MoveOpenersPrefix(x, v);
    assert x + v == x + "/*" + u;
  }

  lemma OpenerNotMoved(u: string)
    requires Plain(u) && NoNewline(u)
    ensures MoveOpeners("/*" + u) == "/*" + u
  {
    var v := "/*" + u;
    forall q | 2 <= q < |v|
      ensures !EndsAt(v, q)
    {
      assert v[q] == u[q - 2];
    }
    assert CommentEnd(v, 2).None?;
    var w := v[1..];
    assert w == "*" + u && w[1..] == u;
    assert MoveOpeners(v) == ['/'] + MoveOpeners(w);
    assert MoveOpeners(w) == ['*'] + MoveOpeners(u);
    MoveOpenersPrefix(u, []);
    assert u + [] == u;
  }

  lemma UnclosedNoEmptyComment(x: string, u: string)
    requires Plain(x) && Plain(u)
    ensures !Contains(x + "/*" + u, "/**/")
  {
    var s := x + "/*" + u;
    forall i | 0 <= i <= |s| - 4
      ensures !OccursAt(s, "/**/", i)
    {
      if i == |x| {
        OpenerOnly(x, u, i + 2);
      } else if i + 1 == |x| {
        assert s[i + 1] == '/';
      } else {
        OpenerOnly(x, u, i + 1);
      }
    }
  }

  lemma UnclosedNoOpenerAtLineEnd(x: string, u: string)
    requires Plain(x) && Plain(u) && NoNewline(u)
    ensures !Contains(x + "/*" + u, "/*\n")
  {
    var s := x + "/*" + u;
    forall i | 0 <= i <= |s| - 3
      ensures !OccursAt(s, "/*\n", i)
    {
      if i == |x| + 1 {
        assert s[i] == '*';
      } else if i != |x| {
        OpenerOnly(x, u, i);
      } else {
        assert s[i + 2] == u[0];
      }
    }
  }

  /** An opener with nothing after it on its line but plain text survives the pass. */
  lemma UnclosedCommentStays(x: string, u: string)
    requires Plain(x) && Plain(u) && NoNewline(u)
    ensures CommentPass(x + "/*" + u) == x + "/*" + u
    ensures Contains(x + "/*" + u, "/*")
  {
    var s := x + "/*" + u;
    UnclosedCommentNotMoved(x, u);
    UnclosedNoEmptyComment(x, u);
    ReplaceAbsent(s, "/**/", "");
    UnclosedNoOpenerAtLineEnd(x, u);
    ReplaceAbsent(s, "/*\n", "\n/*");
    assert s[|x|..|x| + 2] == "/*";
    assert OccursAt(s, "/*", |x|);
  }

  /** A comment opened on the last line and never closed keeps the loop running for
      ever: no number of turns ends it. */
  lemma {:induction false} UnclosedCommentLoops(x: string, u: string, fuel: nat)
    requires Plain(x) && Plain(u) && NoNewline(u)
    ensures StripComments(x + "/*" + u, fuel) == None
    decreases fuel
  {
    UnclosedCommentStays(x, u);
    if fuel > 0 {
      UnclosedCommentLoops(x, u, fuel - 1);
    }
  }

  predicate NoStar(s: string) {
    forall i :: 0 <= i < |s| ==> s[i] != '*'
  }

  lemma NoStarAppend(a: string, b: string)
    requires NoStar(a) && NoStar(b)
    ensures NoStar(a + b)
  {
    forall i | |a| <= i < |a + b|
      ensures (a + b)[i] != '*'
    {
      assert (a + b)[i] == b[i - |a|];
    }
  }

  /** The text of a comment closed on its line ends at the closer. */
  lemma ClosedCommentEnd(c: string, y: string)
    requires Plain(c) && NoNewline(c)
    ensures CommentEnd("/*" + c + "*/" + y, 2) == Some(2 + |c|)
  {
    var w := "/*" + c + "*/" + y;
    var j := 2 + |c|;
    assert w[j..j + 2] == "*/";
    forall q | 2 <= q < j
      ensures !EndsAt(w, q)
    {
      assert w[q] == c[q - 2];
    }
    CommentEndAt(w, 2, j);
  }

  /** A comment closed on its own line: the opener moves to the closer and the text
      before it becomes a line comment. */
  lemma ClosedCommentMoved(c: string, y: string)
    requires Plain(c) && NoNewline(c) && Plain(y)
    ensures MoveOpeners("/*" + c + "*/" + y) == "// " + c + "/**/" + y
  {
    var w := "/*" + c + "*/" + y;
    var j := 2 + |c|;
    assert MoveOpeners(w) == "// " + c + "/*" + "*/" + MoveOpeners(y) by {
      ClosedCommentEnd(c, y);
      assert w[..2] == "/*" && w[j] == '*';
      assert w[2..j] == c && w[j + 2..] == y;
    }
    assert MoveOpeners(y) == y by {
      MoveOpenersPrefix(y, []);
      assert y + [] == y;
    }
  }

  lemma EmptyCommentAtHead(y: string)
    requires Plain(y)
    ensures ReplaceAll("/**/" + y, "/**/", "") == y
  {
    var e := "/**/" + y;
    assert OccursAt(e, "/**/", 0) && e[4..] == y + [];
    ReplacePrefix(y, [], "/**/", "");
  }

  lemma LineCommentMarkerKept(u: string)
    requires u != [] && u[0] != '*'
    ensures ReplaceAll("//" + u, "/**/", "") == "//" + ReplaceAll(u, "/**/", "")
  {
    var t := "//" + u;
    var t1 := t[1..];
    assert t[1] == '/' && t1[1] == u[0];
    ReplaceSkip(t, "/**/", "");
    ReplaceSkip(t1, "/**/", "");
    assert t1[1..] == u;
  }

  /** The empty comment left behind is deleted. */
  lemma EmptyCommentDeleted(c: string, y: string)
    requires Plain(c) && Plain(y)
    ensures ReplaceAll("// " + c + "/**/" + y, "/**/", "") == "// " + c + y
  {
    var e := "/**/" + y;
    var u := " " + c + e;
    assert ReplaceAll(u, "/**/", "") == " " + c + y by {
      EmptyCommentAtHead(y);
      ReplacePrefix(" " + c, e, "/**/", "");
    }
    assert "// " + c + "/**/" + y == "//" + u;
    LineCommentMarkerKept(u);
    assert "//" + (" " + c + y) == "// " + c + y;
  }

  /** A comment opened and closed on one line, between plain texts, is a line comment
      after one turn of the loop, and the loop then stops. */
  lemma ClosedCommentOnePass(x: string, c: string, y: string)
    requires Plain(x) && Plain(c) && NoNewline(c) && Plain(y)
    ensures StripComments(x + "/*" + c + "*/" + y, 1) == Some(x + "// " + c + y)
  {
    var w := "/*" + c + "*/" + y;
    var s := x + w;
    var t := "// " + c + "/**/" + y;
    var r := x + "// " + c + y;
    assert s == x + "/*" + c + "*/" + y;
    assert MoveOpeners(s) == x + t by {
      ClosedCommentMoved(c, y);
      MoveOpenersPrefix(x, w);
    }
    assert ReplaceAll(x + t, "/**/", "") == r by {
      EmptyCommentDeleted(c, y);
      ReplacePrefix(x, t, "/**/", "");
      assert x + ("// " + c + y) == r;
    }
    assert NoStar(r) by {
      NoStarAppend(x, "// ");
      NoStarAppend(x + "// ", c);
      NoStarAppend(x + "// " + c, y);
    }
    assert CommentPass(s) == r by {
      AbsentChar(r, "/*\n", 1);
      ReplaceAbsent(r, "/*\n", "\n/*");
    }
    AbsentChar(r, "/*", 1);
    assert Contains(s, "/*") by {
      assert s[|x|..|x| + 2] == "/*";
      assert OccursAt(s, "/*", |x|);
    }
  }

  // ---------------------------------------------------------------------------
  // Line comments on lines of their own.

  /** The substitution `(?<!\n)//` -> `\n//`: a newline is inserted before each `//` the
      scan meets that does not follow a newline, and the scan resumes after it. Where
      the look-behind fails the scan moves on by one character only. `afterNewline` says
      whether the character before `s` in the text is a newline; at the start of the
      text it is not, and the look-behind succeeds there. */
  function BreakSlashes(s: string, afterNewline: bool): (r: string)
    ensures |s| > 0 ==> |r| > 0 && (r[0] == s[0] || r[0] == '\n')
    decreases |s|
  {
    if s == [] then []
    else if !afterNewline && |s| >= 2 && s[0] == '/' && s[1] == '/' then
      "\n//" + BreakSlashes(s[2..], false)
    else [s[0]] + BreakSlashes(s[1..], s[0] == '\n')
  }

  /** A `//` after a newline is not matched, but the `/` after it can start a match:
      `\n///x` becomes `\n/\n//x`. */
  lemma BreakSlashesAfterNewline()
    ensures BreakSlashes("\n///x", false) == "\n/\n//x"
  {
    assert BreakSlashes("x", false) == "x";
    assert BreakSlashes("//x", false) == "\n//x";
    assert BreakSlashes("///x", true) == "/\n//x";
  }

  /** Every `//` that does not continue a run of slashes starts a line: it follows a
      newline, or it heads the text and the text follows one. */
  predicate SlashesBroken(r: string, afterNewline: bool) {
    && (|r| >= 2 && r[0] == '/' && r[1] == '/' ==> afterNewline)
    && forall i :: 0 < i < |r| - 1 && r[i] == '/' && r[i + 1] == '/' ==> r[i - 1] == '\n' || r[i - 1] == '/'
  }

  lemma SlashesBrokenCons(c: char, t: string, nl: bool)
    requires SlashesBroken(t, c == '\n' || c == '/')
    requires c == '/' && |t| >= 1 && t[0] == '/' ==> nl
    ensures SlashesBroken([c] + t, nl)
  {
    var u := [c] + t;
    forall i | 0 < i < |u| - 1 && u[i] == '/' && u[i + 1] == '/'
      ensures u[i - 1] == '\n' || u[i - 1] == '/'
    {
      assert t[i - 1] == '/' && t[i] == '/';
      if i == 1 {
        assert c == '\n' || c == '/';
      } else {
        assert t[i - 2] == '\n' || t[i - 2] == '/';
      }
    }
  }

  lemma SlashesBrokenWeaken(t: string)
    requires SlashesBroken(t, false)
    ensures SlashesBroken(t, true)
  {
  }

  /** After the substitution every line comment marker starts a line. */
  lemma {:induction false} BreakSlashesBreaks(s: string, afterNewline: bool)
    ensures SlashesBroken(BreakSlashes(s, afterNewline), afterNewline)
    decreases |s|
  {
    if s == [] {
    } else if !afterNewline && |s| >= 2 && s[0] == '/' && s[1] == '/' {
      var t := BreakSlashes(s[2..], false);
      BreakSlashesBreaks(s[2..], false);
      SlashesBrokenWeaken(t);
      SlashesBrokenCons('/', t, true);
      SlashesBrokenCons('/', ['/'] + t, true);
      SlashesBrokenCons('\n', ['/'] + (['/'] + t), false);
      assert "\n//" + t == ['\n'] + (['/'] + (['/'] + t));
    } else {
      var t := BreakSlashes(s[1..], s[0] == '\n');
      BreakSlashesBreaks(s[1..], s[0] == '\n');
      if s[0] != '\n' {
        SlashesBrokenWeaken(t);
      }
      SlashesBrokenCons(s[0], t, afterNewline);
    }
  }

  /** The substitution only inserts newlines. */
  lemma {:induction false} BreakSlashesKeeps(s: string, afterNewline: bool)
    ensures Without(BreakSlashes(s, afterNewline), NL) == Without(s, NL)
    decreases |s|
  {
    if s == [] {
    } else if !afterNewline && |s| >= 2 && s[0] == '/' && s[1] == '/' {
      BreakSlashesKeeps(s[2..], false);
      MarkerKept(s);
    } else {
      BreakSlashesKeeps(s[1..], s[0] == '\n');
      CharKept(s, afterNewline);
    }
  }

  lemma MarkerKept(s: string)
    requires |s| >= 2 && s[0] == '/' && s[1] == '/'
    requires Without(BreakSlashes(s[2..], false), NL) == Without(s[2..], NL)
    ensures Without(BreakSlashes(s, false), NL) == Without(s, NL)
  {
    MarkerWithout(BreakSlashes(s[2..], false));
    SlashesWithout(s);
  }

  /** The marker with the inserted newline only adds a newline. */
  lemma MarkerWithout(t: string)
    ensures Without("\n//" + t, NL) == "//" + Without(t, NL)
  {
    WithoutAppend("\n//", t, NL);
    WithoutNone("//", NL);
    WithoutAppend("\n", "//", NL);
    assert "\n" + "//" == "\n//";
  }

  lemma SlashesWithout(s: string)
    requires |s| >= 2 && s[0] == '/' && s[1] == '/'
    ensures Without(s, NL) == "//" + Without(s[2..], NL)
  {
    var marker := s[..2];
    assert marker == "//";
    assert s == marker + s[2..];
    WithoutAppend(marker, s[2..], NL);
    WithoutNone(marker, NL);
  }

  lemma CharKept(s: string, afterNewline: bool)
    requires s != [] && !(!afterNewline && |s| >= 2 && s[0] == '/' && s[1] == '/')
    requires Without(BreakSlashes(s[1..], s[0] == '\n'), NL) == Without(s[1..], NL)
    ensures Without(BreakSlashes(s, afterNewline), NL) == Without(s, NL)
  {
    WithoutAppend([s[0]], BreakSlashes(s[1..], s[0] == '\n'), NL);
    WithoutAppend([s[0]], s[1..], NL);
    assert s == [s[0]] + s[1..];
  }

  /** Every `//` of `s` already follows a newline (or heads a text that follows one). */
  predicate SlashesAtLineStart(s: string, afterNewline: bool) {
    && (|s| >= 2 && s[0] == '/' && s[1] == '/' ==> afterNewline)
    && forall i :: 0 < i < |s| - 1 && s[i] == '/' && s[i + 1] == '/' ==> s[i - 1] == '\n'
  }

  /** Such a text is left as it is. */
  lemma {:induction false} BreakSlashesFixed(s: string, afterNewline: bool)
    requires SlashesAtLineStart(s, afterNewline)
    ensures BreakSlashes(s, afterNewline) == s
    decreases |s|
  {
    if s == [] {
    } else {
      var t := s[1..];
      assert SlashesAtLineStart(t, s[0] == '\n') by {
        if |t| >= 2 && t[0] == '/' && t[1] == '/' {
          assert s[1] == '/' && s[2] == '/';
        }
        forall i | 0 < i < |t| - 1 && t[i] == '/' && t[i + 1] == '/'
          ensures t[i - 1] == '\n'
        {
          assert s[i + 1] == '/' && s[i + 2] == '/';
        }
      }
      BreakSlashesFixed(t, s[0] == '\n');
      assert s == [s[0]] + t;
    }
  }
}
