/** Character classes and small string helpers shared by the generator's modules.
    Strings are `seq<char>`; the character classes are those of Python 2 regular
    expressions applied to byte strings. */
module Text {

  datatype Option<T> = None | Some(value: T)

  /** `[ \t]`: the horizontal blanks of the declaration grammar. */
  predicate IsBlank(c: char) { c == ' ' || c == '\t' }

  /** `\s` on a byte string: space, tab, newline, carriage return, form feed, vertical tab. */
  predicate IsSpace(c: char) {
    c == ' ' || c == '\t' || c == '\n' || c == '\r' || c == '\U{C}' || c == '\U{B}'
  }

  predicate IsLetter(c: char) { ('a' <= c <= 'z') || ('A' <= c <= 'Z') }
  predicate IsDigit(c: char) { '0' <= c <= '9' }

  /** `[a-zA-Z_]` */
  predicate IsIdentStart(c: char) { IsLetter(c) || c == '_' }

  /** `[a-zA-Z_0-9]` */
  predicate IsIdentChar(c: char) { IsIdentStart(c) || IsDigit(c) }

  /** `[a-zA-Z_0-9:]`: characters that may continue a (possibly qualified) type name. */
  predicate IsTypeChar(c: char) { IsIdentChar(c) || c == ':' }

  /** `[a-zA-Z_][a-zA-Z_0-9]*` */
  predicate IsIdentifier(s: string) {
    |s| > 0 && IsIdentStart(s[0]) && forall i :: 0 < i < |s| ==> IsIdentChar(s[i])
  }

  predicate NoNewline(s: string) { forall i :: 0 <= i < |s| ==> s[i] != '\n' }

  predicate AllBlank(s: string) { forall i :: 0 <= i < |s| ==> IsBlank(s[i]) }

  /** `p` occurs in `s` starting at index `i`. */
  predicate OccursAt(s: string, p: string, i: int) {
    0 <= i && i + |p| <= |s| && s[i..i + |p|] == p
  }

  predicate Contains(s: string, p: string) {
    exists i :: 0 <= i <= |s| - |p| && OccursAt(s, p, i)
  }

  /** End of the run of whitespace (`\s*`) that starts at `i`. */
  function SkipSpaces(t: string, i: nat): (r: nat)
    requires i <= |t|
    ensures i <= r <= |t|
    ensures forall p :: i <= p < r ==> IsSpace(t[p])
    ensures r == |t| || !IsSpace(t[r])
    decreases |t| - i
  {
    if i < |t| && IsSpace(t[i]) then SkipSpaces(t, i + 1) else i
  }

  /** Whitespace skipping stops at the first non-space character. */
  lemma {:induction false} SkipSpacesTo(t: string, a: nat, j: nat)
    requires a <= j < |t| && !IsSpace(t[j])
    requires forall p :: a <= p < j ==> IsSpace(t[p])
    ensures SkipSpaces(t, a) == j
    decreases j - a
  {
    if a < j {
      SkipSpacesTo(t, a + 1, j);
    }
  }

  /** The characters of `\s`, as a set. */
  const Spaces: set<char> := {' ', '\t', '\n', '\r', '\U{C}', '\U{B}'}

  /** `s` with every character of `cs` deleted: what a rewrite that only inserts or
      deletes characters of `cs` leaves unchanged. */
  function Without(s: string, cs: set<char>): (r: string)
    ensures |r| <= |s|
  {
    if s == [] then [] else (if s[0] in cs then [] else [s[0]]) + Without(s[1..], cs)
  }

  lemma {:induction false} WithoutAppend(a: string, b: string, cs: set<char>)
    ensures Without(a + b, cs) == Without(a, cs) + Without(b, cs)
  {
    if a == [] {
      assert a + b == b;
    } else {
      assert (a + b)[1..] == a[1..] + b;
      WithoutAppend(a[1..], b, cs);
    }
  }

  /** Deleting from a string made only of deleted characters leaves nothing. */
  lemma {:induction false} WithoutAll(s: string, cs: set<char>)
    requires forall i :: 0 <= i < |s| ==> s[i] in cs
    ensures Without(s, cs) == []
  {
    if s != [] {
      WithoutAll(s[1..], cs);
    }
  }

  /** Deleting characters a string does not hold leaves it as it is. */
  lemma {:induction false} WithoutNone(s: string, cs: set<char>)
    requires forall i :: 0 <= i < |s| ==> s[i] !in cs
    ensures Without(s, cs) == s
  {
    if s != [] {
      WithoutNone(s[1..], cs);
      assert s == [s[0]] + s[1..];
    }
  }

  /** Number of newline characters in `s`: the number of lines of a text whose lines all end in one. */
  function NewlineCount(s: string): (n: nat)
    ensures n <= |s|
    ensures n == 0 <==> NoNewline(s)
  {
    if s == [] then 0 else (if s[0] == '\n' then 1 else 0) + NewlineCount(s[1..])
  }

  lemma {:induction false} NewlineCountAppend(a: string, b: string)
    ensures NewlineCount(a + b) == NewlineCount(a) + NewlineCount(b)
  {
    if a == [] {
      assert a + b == b;
    } else {
      assert (a + b)[1..] == a[1..] + b;
      NewlineCountAppend(a[1..], b);
    }
  }

  /** The concatenation of `f` applied to each element, in order. */
  function ConcatMap<T>(f: T -> string, xs: seq<T>): (r: string)
    decreases |xs|
  {
    if xs == [] then [] else f(xs[0]) + ConcatMap(f, xs[1..])
  }

  lemma {:induction false} ConcatMapSnoc<T>(f: T -> string, xs: seq<T>, x: T)
    ensures ConcatMap(f, xs + [x]) == ConcatMap(f, xs) + f(x)
    decreases |xs|
  {
    if xs == [] {
      assert xs + [x] == [x];
      assert ConcatMap(f, [x]) == f(x) + ConcatMap(f, []);
    } else {
      assert (xs + [x])[1..] == xs[1..] + [x];
      ConcatMapSnoc(f, xs[1..], x);
    }
  }
}
