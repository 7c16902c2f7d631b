/** The LinkDef part of `AddLinkDef`: the `#pragma` lines that declare the cycle and the
    types of its pointer variables to the dictionary generator, their insertion into an
    existing LinkDef file before its `#endif`, the LinkDef file created when there is
    none, and the rule `CreateCycle` uses to pick the LinkDef file. */
module LinkDefs {
  import opened Text
  import opened Variables
  import opened Substitution
  import opened Templates

  /** The pragma line that declares the class `name`. */
  function PragmaLine(name: string): string {
    "#pragma link C++ class " + name + "+;\n"
  }

  /** The pragma lines for the names, in their order. */
  function PragmaBlock(names: seq<string>): string
    decreases |names|
  {
    if names == [] then [] else PragmaLine(names[0]) + PragmaBlock(names[1..])
  }

  lemma {:induction false} PragmaBlockSnoc(names: seq<string>, name: string)
    ensures PragmaBlock(names + [name]) == PragmaBlock(names) + PragmaLine(name)
    decreases |names|
  {
    if names == [] {
      assert names + [name] == [name];
      assert PragmaBlock([name]) == PragmaLine(name) + PragmaBlock([]);
    } else {
      assert (names + [name])[1..] == names[1..] + [name];
      PragmaBlockSnoc(names[1..], name);
    }
  }

  /** The types of the variables read through a pointer: the set the source builds. */
  function PointerTypes(vs: seq<Variable>): set<string> {
    set v | v in vs && v.pointer != "" :: v.typename
  }

  predicate Distinct(xs: seq<string>) {
    forall i, j :: 0 <= i < j < |xs| ==> xs[i] != xs[j]
  }

  /** `order` lists the elements of `s`, each once. */
  predicate Enumerates(order: seq<string>, s: set<string>) {
    Distinct(order) && (forall x :: x in order ==> x in s) && (forall x :: x in s ==> x in order)
  }

  /** A list that enumerates a set is as long as the set is large. */
  lemma {:induction false} EnumerationLength(xs: seq<string>, s: set<string>)
    requires Enumerates(xs, s)
    ensures |xs| == |s|
    decreases |xs|
  {
    if xs == [] {
      assert forall y :: y !in s;
      assert s == {};
    } else {
      var x := xs[|xs| - 1];
      var init := xs[..|xs| - 1];
      assert xs == init + [x];
      forall y
        ensures y in init <==> y in s - {x}
      {
        if y in init {
          var i :| 0 <= i < |init| && init[i] == y;
          assert xs[i] == y && xs[|xs| - 1] == x;
        }
        if y in s - {x} {
          assert y in xs;
          var i :| 0 <= i < |xs| && xs[i] == y;
          assert i != |xs| - 1;
          assert init[i] == y;
        }
      }
      assert Distinct(init) by {
        forall i, j | 0 <= i < j < |init|
          ensures init[i] != init[j]
        {
          assert init[i] == xs[i] && init[j] == xs[j];
        }
      }
      EnumerationLength(init, s - {x});
      assert s == (s - {x}) + {x};
    }
  }

  /** The loop that collects the types of the pointer variables into a set. */
  method CollectPointerTypes(vs: seq<Variable>) returns (types: set<string>)
    ensures types == PointerTypes(vs)
  {
    types := {};
    for i := 0 to |vs|
      invariant types == PointerTypes(vs[..i])
    {
      assert vs[..i + 1] == vs[..i] + [vs[i]];
      if vs[i].pointer != "" {
        types := types + {vs[i].typename};
      }
    }
    assert vs[..|vs|] == vs;
  }

  /** The new lines of `AddLinkDef`: the cycle's pragma line, then one per distinct pointer
      type. The types come out of a set, whose order the source does not fix: the order
      taken is returned in `order`. */
  method NewLines(cycleName: string, vs: seq<Variable>) returns (lines: string, order: seq<string>)
    ensures Enumerates(order, PointerTypes(vs))
    ensures |order| == |PointerTypes(vs)|
    ensures lines == PragmaLine(cycleName) + PragmaBlock(order)
  {
    var types := CollectPointerTypes(vs);
    lines := PragmaLine(cycleName);
    order := [];
    var rest := types;
    while rest != {}
      invariant Distinct(order)
      invariant forall x :: x in types <==> x in rest || x in order
      invariant forall x :: x in rest ==> x !in order
      invariant lines == PragmaLine(cycleName) + PragmaBlock(order)
      decreases |rest|
    {
      var t :| t in rest;
      PragmaBlockSnoc(order, t);
      lines := lines + PragmaLine(t);
      order := order + [t];
      rest := rest - {t};
    }
    EnumerationLength(order, types);
  }

  lemma PragmaLineIsOneLine(name: string)
    requires NoNewline(name)
    ensures NewlineCount(PragmaLine(name)) == 1
  {
    var a := "#pragma link C++ class ";
    var b := "+;\n";
    assert NoNewline(a);
    NewlineCountAppend(a, name);
    NewlineCountAppend(a + name, b);
    assert NewlineCount(b) == 1 by {
      assert b[1..][1..][1..] == [];
    }
  }

  lemma {:induction false} PragmaBlockLines(names: seq<string>)
    requires forall i :: 0 <= i < |names| ==> NoNewline(names[i])
    ensures NewlineCount(PragmaBlock(names)) == |names|
    decreases |names|
  {
    if names != [] {
      PragmaLineIsOneLine(names[0]);
      PragmaBlockLines(names[1..]);
      NewlineCountAppend(PragmaLine(names[0]), PragmaBlock(names[1..]));
    }
  }

  /** The new lines are one pragma line for the cycle and one per distinct pointer type. */
  lemma NewLinesCount(cycleName: string, vs: seq<Variable>, order: seq<string>)
    requires NoNewline(cycleName)
    requires forall v :: v in vs ==> NoNewline(v.typename)
    requires Enumerates(order, PointerTypes(vs))
    ensures NewlineCount(PragmaLine(cycleName) + PragmaBlock(order)) == 1 + |PointerTypes(vs)|
  {
    EnumerationLength(order, PointerTypes(vs));
    forall i | 0 <= i < |order|
      ensures NoNewline(order[i])
    {
      assert order[i] in PointerTypes(vs);
    }
    PragmaLineIsOneLine(cycleName);
    PragmaBlockLines(order);
    NewlineCountAppend(PragmaLine(cycleName), PragmaBlock(order));
  }

  // ---------------------------------------------------------------------------
  // Inserting before every `\n#endif`.

  /** `re.sub("(?=" + p + ")", ins, s)`: `ins` inserted at every position where `p`
      begins. The lookahead matches the empty string, so nothing of `s` is consumed. */
  function InsertBefore(s: string, p: string, ins: string): (r: string)
    requires |p| > 0
    decreases |s|
  {
    if s == [] then []
    else (if p <= s then ins else []) + [s[0]] + InsertBefore(s[1..], p, ins)
  }

  /** No insertion happens inside a stretch that holds no first character of `p`. */
  lemma {:induction false} InsertSkips(a: string, b: string, p: string, ins: string)
    requires |p| > 0 && forall i :: 0 <= i < |a| ==> a[i] != p[0]
    ensures InsertBefore(a + b, p, ins) == a + InsertBefore(b, p, ins)
    decreases |a|
  {
    if a != [] {
      assert (a + b)[0] == a[0];
      assert !(p <= a + b);
      assert (a + b)[1..] == a[1..] + b;
      InsertSkips(a[1..], b, p, ins);
      assert [a[0]] + (a[1..] + InsertBefore(b, p, ins)) == a + InsertBefore(b, p, ins);
    } else {
      assert a + b == b;
    }
  }

  /** At an occurrence of `p` the insertion comes first, then `p` is copied. */
  lemma InsertHit(s: string, p: string, ins: string)
    requires |p| > 0 && forall i :: 1 <= i < |p| ==> p[i] != p[0]
    requires p <= s
    ensures InsertBefore(s, p, ins) == ins + p + InsertBefore(s[|p|..], p, ins)
  {
    var tail := s[|p|..];
    assert s[1..] == p[1..] + tail;
    InsertSkips(p[1..], tail, p, ins);
    assert InsertBefore(s, p, ins) == ins + [s[0]] + InsertBefore(s[1..], p, ins);
    assert [s[0]] + p[1..] == p;
    assert ins + [s[0]] + (p[1..] + InsertBefore(tail, p, ins)) == ins + p + InsertBefore(tail, p, ins);
  }

  /** When `p` does not start again inside itself, inserting before each occurrence is
      replacing each occurrence by `ins + p`. */
  lemma {:induction false} InsertIsReplace(s: string, p: string, ins: string)
    requires |p| > 0 && forall i :: 1 <= i < |p| ==> p[i] != p[0]
    ensures InsertBefore(s, p, ins) == ReplaceAll(s, p, ins + p)
    decreases |s|
  {
    if s == [] {
    } else if p <= s {
      InsertHit(s, p, ins);
      InsertIsReplace(s[|p|..], p, ins);
      ReplaceHit(s, p, ins + p);
    } else {
      assert InsertBefore(s, p, ins) == [s[0]] + InsertBefore(s[1..], p, ins);
      InsertIsReplace(s[1..], p, ins);
      ReplaceSkip(s, p, ins + p);
    }
  }

  /** The marker the new lines go before. */
  const Endif := "\n#endif"

  lemma EndifStartsOnce()
    ensures |Endif| > 0 && forall i :: 1 <= i < |Endif| ==> Endif[i] != Endif[0]
  {
  }

  /** The text after the insertion is the pieces of the original between the markers,
      joined by the new block followed by the marker; the original is the same pieces
      joined by the marker alone. Deleting every inserted block gives the original back. */
  lemma InsertedBetweenPieces(text: string, block: string)
    ensures InsertBefore(text, Endif, block) == Join(Split(text, Endif), block + Endif)
    ensures Join(Split(text, Endif), Endif) == text
  {
    EndifStartsOnce();
    InsertIsReplace(text, Endif, block);
    ReplaceIsJoin(text, Endif, block + Endif);
    JoinSplit(text, Endif);
  }

  /** A text without the marker is written back unchanged. */
  lemma InsertAbsent(text: string, block: string)
    requires !Contains(text, Endif)
    ensures InsertBefore(text, Endif, block) == text
  {
    EndifStartsOnce();
    InsertIsReplace(text, Endif, block);
    ReplaceAbsent(text, Endif, block + Endif);
  }

  // ---------------------------------------------------------------------------
  // The LinkDef file.

  /** A new LinkDef file holding the lines. */
  function NewLinkDef(lines: string): string {
    var d := map["new_lines" := lines];
    LinkDefCovered(d);
    Fill(LinkDef, d)
  }

  /** The new file is the fixed preamble, the lines, and the closing `#endif`. */
  lemma NewLinkDefShape(lines: string)
    ensures exists pre :: NewLinkDef(lines) == pre + lines + ("\n" + "#endif // __CINT__\n")
  {
    var d := map["new_lines" := lines];
    LinkDefCovered(d);
    var pre := LinkDef[0].text;
    var post := "\n" + "#endif // __CINT__\n";
    LinkDefPieces();
    var t := LinkDef;
    assert t[1..][1..] == [Lit(post)];
    assert Fill([Lit(post)], d) == post + Fill([], d);
    assert Fill(t[1..], d) == lines + post;
    assert Fill(t, d) == pre + Fill(t[1..], d);
    assert NewLinkDef(lines) == pre + (lines + post);
    assert pre + (lines + post) == pre + lines + post;
  }

  lemma LinkDefPieces()
    ensures |LinkDef| == 3 && LinkDef[0].Lit? && LinkDef[1] == Hole("new_lines")
    ensures LinkDef[2] == Lit("\n" + "#endif // __CINT__\n")
  {
  }

  /** A new LinkDef file holds `#endif`, so a later `AddLinkDef` extends it. */
  lemma NewLinkDefHasEndif(lines: string)
    ensures Contains(NewLinkDef(lines), "#endif")
  {
    NewLinkDefShape(lines);
    var post := "\n" + "#endif // __CINT__\n";
    var pre :| NewLinkDef(lines) == pre + lines + post;
    var s := NewLinkDef(lines);
    var i := |pre| + |lines| + 1;
    assert post[1..7] == "#endif";
    assert s[i..i + 6] == post[1..7];
    assert OccursAt(s, "#endif", i);
  }

  /** The contents of the LinkDef file after `AddLinkDef`: `None` when the file exists
      but holds no `#endif`, and is then left as it is. */
  function ExtendedLinkDef(existing: Option<string>, lines: string): (r: Option<string>)
    ensures existing.None? ==> r == Some(NewLinkDef(lines))
    ensures existing.Some? ==> (r.None? <==> !Contains(existing.value, "#endif"))
    ensures r.Some? && existing.Some? ==>
              r.value == Join(Split(existing.value, Endif), lines + "\n" + Endif) &&
              existing.value == Join(Split(existing.value, Endif), Endif)
  {
    match existing
    case None => Some(NewLinkDef(lines))
    case Some(text) =>
      if !Contains(text, "#endif") then None
      else
        InsertedBetweenPieces(text, lines + "\n");
        Some(InsertBefore(text, Endif, lines + "\n"))
  }

  // ---------------------------------------------------------------------------
  // Which LinkDef file `CreateCycle` uses.

  /** The LinkDef file: the one given, or else the only `*LinkDef.h` file found in the
      include directory, or else a new `LinkDef.h` there; `None` when several are found
      and the generator stops. */
  function ChooseLinkDef(linkdef: string, includeDir: string, found: seq<string>): (r: Option<string>)
    ensures r.None? <==> linkdef == "" && |found| > 1
    ensures linkdef != "" ==> r == Some(linkdef)
    ensures r.Some? && linkdef == "" ==>
              (r.value in found || (found == [] && r.value == includeDir + "LinkDef.h"))
  {
    if linkdef != "" then Some(linkdef)
    else if |found| == 0 then Some(includeDir + "LinkDef.h")
    else if |found| == 1 then Some(found[0])
    else None
  }

  /** The include directory is `include/` when it exists, else the current directory. */
  function IncludeDir(includeExists: bool): string {
    if includeExists then "include/" else ""
  }

  /** The source directory is `src/` when it exists, else the current directory. */
  function SourceDir(srcExists: bool): string {
    if srcExists then "src/" else ""
  }
}
