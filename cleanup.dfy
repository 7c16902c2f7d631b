/** The three whitespace substitutions that end the comment normalisation of a variable
    selection file: whitespace after a line break is dropped, leading whitespace is
    dropped, and whitespace before a line break is dropped. Together they leave a text in
    which no line starts or ends with whitespace and no line is empty. */
module WhitespaceCleanup {
  import opened Text

  // ---------------------------------------------------------------------------
  // The shapes a tidy text has.

  /** Every newline is the last character or is followed by a non-space. */
  predicate NewlinesFollowed(s: string) {
    forall i :: 0 <= i < |s| - 1 && s[i] == '\n' ==> !IsSpace(s[i + 1])
  }

  /** Every newline is the first character or follows a non-space. */
  predicate NewlinesPreceded(s: string) {
    forall i :: 0 < i < |s| && s[i] == '\n' ==> !IsSpace(s[i - 1])
  }

  /** The text does not start with whitespace. */
  predicate NoLeadingSpace(s: string) {
    s == [] || !IsSpace(s[0])
  }

  predicate Tidy(s: string) {
    NoLeadingSpace(s) && NewlinesFollowed(s) && NewlinesPreceded(s)
  }

  lemma NewlinesFollowedCons(c: char, t: string)
    requires NewlinesFollowed(t)
    requires c == '\n' && t != [] ==> !IsSpace(t[0])
    ensures NewlinesFollowed([c] + t)
  {
    var s := [c] + t;
    forall i | 0 < i < |s| - 1 && s[i] == '\n'
      ensures !IsSpace(s[i + 1])
    {
      assert s[i] == t[i - 1] && s[i + 1] == t[i];
    }
  }

  lemma NewlinesFollowedTail(s: string)
    requires s != [] && NewlinesFollowed(s)
    ensures NewlinesFollowed(s[1..])
  {
    var t := s[1..];
    forall i | 0 <= i < |t| - 1 && t[i] == '\n'
      ensures !IsSpace(t[i + 1])
    {
      assert t[i] == s[i + 1] && t[i + 1] == s[i + 2];
    }
  }

  lemma NewlinesPrecededCons(c: char, t: string)
    requires NewlinesPreceded(t)
    requires t != [] && t[0] == '\n' ==> !IsSpace(c)
    ensures NewlinesPreceded([c] + t)
  {
    var s := [c] + t;
    forall i | 1 < i < |s| && s[i] == '\n'
      ensures !IsSpace(s[i - 1])
    {
      assert s[i] == t[i - 1] && s[i - 1] == t[i - 2];
    }
  }

  lemma NewlinesPrecededTail(s: string)
    requires s != [] && NewlinesPreceded(s)
    ensures NewlinesPreceded(s[1..])
  {
    var t := s[1..];
    forall i | 0 < i < |t| && t[i] == '\n'
      ensures !IsSpace(t[i - 1])
    {
      assert t[i] == s[i + 1] && t[i - 1] == s[i];
    }
  }

  lemma WithoutSpacesCons(c: char, t: string)
    ensures Without([c] + t, Spaces) == (if IsSpace(c) then [] else [c]) + Without(t, Spaces)
  {
    assert ([c] + t)[1..] == t;
  }

  // ---------------------------------------------------------------------------
  // `\n(\s)*` -> `\n`: a newline and the whitespace after it become one newline.

  function CollapseAfterNewline(s: string): (r: string)
    ensures s != [] ==> r != [] && r[0] == s[0]
    decreases |s|
  {
    if s == [] then []
    else if s[0] == '\n' then "\n" + CollapseAfterNewline(s[SkipSpaces(s, 1)..])
    else [s[0]] + CollapseAfterNewline(s[1..])
  }

  /** Afterwards no newline is followed by whitespace. */
  lemma {:induction false} CollapseFollowed(s: string)
    ensures NewlinesFollowed(CollapseAfterNewline(s))
    decreases |s|
  {
    if s != [] {
      if s[0] == '\n' {
        var e := SkipSpaces(s, 1);
        CollapseFollowed(s[e..]);
        NewlinesFollowedCons('\n', CollapseAfterNewline(s[e..]));
      } else {
        CollapseFollowed(s[1..]);
        NewlinesFollowedCons(s[0], CollapseAfterNewline(s[1..]));
      }
    }
  }

  /** Only whitespace is deleted. */
  lemma {:induction false} CollapseKeeps(s: string)
    ensures Without(CollapseAfterNewline(s), Spaces) == Without(s, Spaces)
    decreases |s|
  {
    if s != [] {
      if s[0] == '\n' {
        var e := SkipSpaces(s, 1);
        CollapseKeeps(s[e..]);
        WithoutSpacesCons('\n', CollapseAfterNewline(s[e..]));
        assert s == s[..e] + s[e..];
        WithoutAppend(s[..e], s[e..], Spaces);
        WithoutAll(s[..e], Spaces);
      } else {
        CollapseKeeps(s[1..]);
        WithoutSpacesCons(s[0], CollapseAfterNewline(s[1..]));
        WithoutSpacesCons(s[0], s[1..]);
        assert s == [s[0]] + s[1..];
      }
    }
  }

  /** A text whose newlines are already followed by non-spaces is left as it is. */
  lemma {:induction false} CollapseFixed(s: string)
    requires NewlinesFollowed(s)
    ensures CollapseAfterNewline(s) == s
    decreases |s|
  {
    if s != [] {
      NewlinesFollowedTail(s);
      if s[0] == '\n' {
        assert SkipSpaces(s, 1) == 1;
      }
      CollapseFixed(s[1..]);
      assert s == [s[0]] + s[1..];
    }
  }

  // ---------------------------------------------------------------------------
  // `^(\s)*` -> ``: the whitespace at the start of the text is deleted.

  function StripLeading(s: string): (r: string)
    ensures NoLeadingSpace(r)
    ensures |r| <= |s| && r == s[|s| - |r|..]
    ensures forall i :: 0 <= i < |s| - |r| ==> IsSpace(s[i])
  {
    s[SkipSpaces(s, 0)..]
  }

  lemma StripLeadingFollowed(s: string)
    requires NewlinesFollowed(s)
    ensures NewlinesFollowed(StripLeading(s))
  {
    var r := StripLeading(s);
    var d := |s| - |r|;
    forall i | 0 <= i < |r| - 1 && r[i] == '\n'
      ensures !IsSpace(r[i + 1])
    {
      assert r[i] == s[d + i] && r[i + 1] == s[d + i + 1];
    }
  }

  lemma StripLeadingKeeps(s: string)
    ensures Without(StripLeading(s), Spaces) == Without(s, Spaces)
  {
    var e := SkipSpaces(s, 0);
    assert s == s[..e] + s[e..];
    WithoutAppend(s[..e], s[e..], Spaces);
    WithoutAll(s[..e], Spaces);
  }

  lemma StripLeadingFixed(s: string)
    requires NoLeadingSpace(s)
    ensures StripLeading(s) == s
  {
  }

  // ---------------------------------------------------------------------------
  // `(\s)*\n` -> `\n`: whitespace before a line break is deleted. At each position the
  // pattern takes the longest run of whitespace that ends in a newline; where the run
  // holds no newline the pattern fails and the scan moves on by one character.

  /** Length of the match of `(\s)*\n` at the start of `s`, if any: the star is greedy and
      gives back characters until a newline follows, so the match ends at the last
      newline of the leading whitespace. */
  function RunToNewline(s: string): (m: Option<nat>)
    ensures m.Some? ==> 0 < m.value <= |s| && s[m.value - 1] == '\n'
    ensures m.Some? ==> forall i :: 0 <= i < m.value ==> IsSpace(s[i])
    ensures m.None? <==> forall i :: 0 <= i < SkipSpaces(s, 0) ==> s[i] != '\n'
    decreases |s|
  {
    if s == [] || !IsSpace(s[0]) then None
    else
      match RunToNewline(s[1..])
      case Some(k) => Some(k + 1)
      case None => if s[0] == '\n' then Some(1) else None
  }

  /** The match is the longest: the whitespace after it holds no newline. */
  lemma {:induction false} RunToNewlineLongest(s: string)
    requires RunToNewline(s).Some?
    ensures RunToNewline(s[RunToNewline(s).value..]).None?
    decreases |s|
  {
    var k := RunToNewline(s).value;
    if RunToNewline(s[1..]).Some? {
      RunToNewlineLongest(s[1..]);
      assert s[1..][k - 1..] == s[k..];
    }
  }

  function TrimBeforeNewline(s: string): (r: string)
    ensures s != [] ==> r != []
    ensures s != [] && RunToNewline(s).None? ==> r[0] == s[0]
    decreases |s|
  {
    if s == [] then []
    else
      match RunToNewline(s)
      case Some(k) => "\n" + TrimBeforeNewline(s[k..])
      case None => [s[0]] + TrimBeforeNewline(s[1..])
  }

  /** Afterwards no newline follows whitespace. */
  lemma {:induction false} TrimPreceded(s: string)
    ensures NewlinesPreceded(TrimBeforeNewline(s))
    decreases |s|
  {
    if s != [] {
      match RunToNewline(s)
      case Some(k) =>
        TrimPreceded(s[k..]);
        RunToNewlineLongest(s);
        NewlinesPrecededCons('\n', TrimBeforeNewline(s[k..]));
      case None =>
        TrimPreceded(s[1..]);
        NewlinesPrecededCons(s[0], TrimBeforeNewline(s[1..]));
    }
  }

  /** Newlines that were followed by non-spaces still are. */
  lemma {:induction false} TrimFollowed(s: string)
    requires NewlinesFollowed(s)
    ensures NewlinesFollowed(TrimBeforeNewline(s))
    decreases |s|
  {
    if s != [] {
      match RunToNewline(s)
      case Some(k) =>
        assert NewlinesFollowed(s[k..]) by {
          forall i | 0 <= i < |s[k..]| - 1 && s[k..][i] == '\n'
            ensures !IsSpace(s[k..][i + 1])
          {
            assert s[k..][i] == s[k + i] && s[k..][i + 1] == s[k + i + 1];
          }
        }
        TrimFollowed(s[k..]);
        NewlinesFollowedCons('\n', TrimBeforeNewline(s[k..]));
      case None =>
        NewlinesFollowedTail(s);
        TrimFollowed(s[1..]);
        NewlinesFollowedCons(s[0], TrimBeforeNewline(s[1..]));
    }
  }

  /** Only whitespace is deleted. */
  lemma {:induction false} TrimKeeps(s: string)
    ensures Without(TrimBeforeNewline(s), Spaces) == Without(s, Spaces)
    decreases |s|
  {
    if s != [] {
      match RunToNewline(s)
      case Some(k) =>
        TrimKeeps(s[k..]);
        TrimKeepsRun(s, k);
      case None =>
        TrimKeeps(s[1..]);
        TrimKeepsChar(s);
    }
  }

  lemma TrimKeepsRun(s: string, k: nat)
    requires RunToNewline(s) == Some(k)
    requires Without(TrimBeforeNewline(s[k..]), Spaces) == Without(s[k..], Spaces)
    ensures Without(TrimBeforeNewline(s), Spaces) == Without(s, Spaces)
  {
    WithoutSpacesCons('\n', TrimBeforeNewline(s[k..]));
    assert s == s[..k] + s[k..];
    WithoutAppend(s[..k], s[k..], Spaces);
    WithoutAll(s[..k], Spaces);
  }

  lemma TrimKeepsChar(s: string)
    requires s != [] && RunToNewline(s).None?
    requires Without(TrimBeforeNewline(s[1..]), Spaces) == Without(s[1..], Spaces)
    ensures Without(TrimBeforeNewline(s), Spaces) == Without(s, Spaces)
  {
    WithoutSpacesCons(s[0], TrimBeforeNewline(s[1..]));
    WithoutSpacesCons(s[0], s[1..]);
    assert s == [s[0]] + s[1..];
  }

  /** A text whose newlines already follow non-spaces is left as it is. */
  lemma {:induction false} TrimFixed(s: string)
    requires NewlinesPreceded(s)
    ensures TrimBeforeNewline(s) == s
    decreases |s|
  {
    if s != [] {
      NewlinesPrecededTail(s);
      match RunToNewline(s)
      case Some(k) =>
        TrimFixed(s[1..]);
        assert s == [s[0]] + s[1..];
      case None =>
        TrimFixed(s[1..]);
        assert s == [s[0]] + s[1..];
    }
  }

  // ---------------------------------------------------------------------------
  // The three substitutions in order.

  function Cleanup(s: string): (r: string)
  {
    TrimBeforeNewline(StripLeading(CollapseAfterNewline(s)))
  }

  /** The cleaned text is tidy: it starts with a non-space, and every newline sits
      between two non-spaces or ends the text. */
  lemma CleanupTidy(s: string)
    ensures Tidy(Cleanup(s))
  {
    var a := CollapseAfterNewline(s);
    var b := StripLeading(a);
    CollapseFollowed(s);
    StripLeadingFollowed(a);
    TrimFollowed(b);
    TrimPreceded(b);
    if b != [] {
      assert RunToNewline(b).None?;
    }
  }

  /** Cleaning deletes whitespace and nothing else. */
  lemma CleanupKeeps(s: string)
    ensures Without(Cleanup(s), Spaces) == Without(s, Spaces)
  {
    var a := CollapseAfterNewline(s);
    CollapseKeeps(s);
    StripLeadingKeeps(a);
    TrimKeeps(StripLeading(a));
  }

  /** A tidy text is left as it is, so cleaning twice is cleaning once. */
  lemma CleanupFixed(s: string)
    requires Tidy(s)
    ensures Cleanup(s) == s
  {
    CollapseFixed(s);
    StripLeadingFixed(s);
    TrimFixed(s);
  }

  lemma CleanupIdempotent(s: string)
    ensures Cleanup(Cleanup(s)) == Cleanup(s)
  {
    CleanupTidy(s);
    CleanupFixed(Cleanup(s));
  }
}
