/** The code templates of the generator and Python's `%` formatting with a dictionary.
    A template is kept as the sequence of its literal pieces and its `%(key)s`
    placeholders; the `-` flag that some placeholders carry (`%(class)-s`) asks for left
    alignment without a width and changes nothing. */
module Templates {
  import opened Text

  datatype Piece = Lit(text: string) | Hole(key: string)

  type Template = seq<Piece>

  /** The dictionary holds every key the template asks for. */
  predicate Covers(t: Template, d: map<string, string>) {
    forall p :: p in t && p.Hole? ==> p.key in d
  }

  /** `t % d`: each placeholder replaced by the dictionary's value for its key. Python
      raises `KeyError` for a missing key; every template here is filled with a
      dictionary that holds all its keys. */
  function Fill(t: Template, d: map<string, string>): (s: string)
    requires Covers(t, d)
  {
    if t == [] then []
    else (if t[0].Lit? then t[0].text else d[t[0].key]) + Fill(t[1..], d)
  }

  lemma {:induction false} FillAppend(a: Template, b: Template, d: map<string, string>)
    requires Covers(a, d) && Covers(b, d)
    ensures Covers(a + b, d)
    ensures Fill(a + b, d) == Fill(a, d) + Fill(b, d)
    decreases |a|
  {
    CoversAppend(a, b, d);
    if a == [] {
      assert a + b == b;
    } else {
      CoversTail(a, d);
      assert (a + b)[1..] == a[1..] + b;
      FillAppend(a[1..], b, d);
      assert (a + b)[0] == a[0];
    }
  }

  lemma CoversAppend(a: Template, b: Template, d: map<string, string>)
    requires Covers(a, d) && Covers(b, d)
    ensures Covers(a + b, d)
  {
  }

  lemma CoversTail(t: Template, d: map<string, string>)
    requires t != [] && Covers(t, d)
    ensures Covers(t[1..], d)
  {
    assert forall p :: p in t[1..] ==> p in t;
  }

  /** The filled text is the filled text before a placeholder, then the placeholder's
      value, then the filled text after it: every value asked for appears in the result. */
  lemma FillAt(t: Template, d: map<string, string>, k: nat)
    requires Covers(t, d) && k < |t| && t[k].Hole?
    ensures Covers(t[..k], d) && Covers(t[k + 1..], d)
    ensures Fill(t, d) == Fill(t[..k], d) + d[t[k].key] + Fill(t[k + 1..], d)
  {
    assert t == t[..k] + ([t[k]] + t[k + 1..]);
    FillAppend(t[..k], [t[k]] + t[k + 1..], d);
    assert ([t[k]] + t[k + 1..])[1..] == t[k + 1..];
  }

  lemma FillCons(p: Piece, rest: Template, d: map<string, string>)
    requires Covers([p] + rest, d)
    ensures Covers(rest, d)
    ensures Fill([p] + rest, d) == (if p.Lit? then p.text else d[p.key]) + Fill(rest, d)
  {
    assert ([p] + rest)[1..] == rest;
  }

  /** Filling the first pieces of a template gives a prefix of the filled template. */
  lemma FillPrefix(t: Template, n: nat, d: map<string, string>)
    requires Covers(t, d) && n <= |t|
    ensures Covers(t[..n], d)
    ensures Fill(t[..n], d) <= Fill(t, d)
  {
    assert t == t[..n] + t[n..];
    FillAppend(t[..n], t[n..], d);
  }

  /** Only the values of the keys the template asks for matter. */
  lemma {:induction false} FillOnlyKeys(t: Template, d: map<string, string>, e: map<string, string>)
    requires Covers(t, d) && Covers(t, e)
    requires forall p :: p in t && p.Hole? ==> d[p.key] == e[p.key]
    ensures Fill(t, d) == Fill(t, e)
  {
    if t != [] {
      assert forall p :: p in t[1..] ==> p in t;
      FillOnlyKeys(t[1..], d, e);
    }
  }

  /** Encloses a code body in a namespace. */
  const Namespace: Template := [
    Lit("namespace "),
    Hole("namespace"),
    Lit(" {\n" +
        "\n"),
    Hole("body"),
    Lit("\n" +
        "} // of namespace "),
    Hole("namespace"),
    Lit("\n")
  ]

  /** The class declaration of a new cycle. */
  const HeaderBody: Template := [
    Lit("\n" +
        "/**\n" +
        " *    @short Put short description of class here\n" +
        " *\n" +
        " *          Put a longer description over here...\n" +
        " *\n" +
        " *  @author Put your name here\n" +
        " * @version $Revision: 173 $\n" +
        " */\n" +
        "class "),
    Hole("class"),
    Lit(" : public SCycleBase {\n" +
        "\n" +
        "public:\n" +
        "    /// Default constructor\n" +
        "    "),
    Hole("class"),
    Lit("();\n" +
        "    /// Default destructor\n" +
        "    ~"),
    Hole("class"),
    Lit("();\n" +
        "\n" +
        "    /// Function called at the beginning of the cycle\n" +
        "    virtual void BeginCycle() throw( SError );\n" +
        "    /// Function called at the end of the cycle\n" +
        "    virtual void EndCycle() throw( SError );\n" +
        "\n" +
        "    /// Function called at the beginning of a new input data\n" +
        "    virtual void BeginInputData( const SInputData& ) throw( SError );\n" +
        "    /// Function called after finishing to process an input data\n" +
        "    virtual void EndInputData  ( const SInputData& ) throw( SError );\n" +
        "\n" +
        "    /// Function called after opening each new input file\n" +
        "    virtual void BeginInputFile( const SInputData& ) throw( SError );\n" +
        "\n" +
        "    /// Function called for every event\n" +
        "    virtual void ExecuteEvent( const SInputData&, Double_t ) throw( SError );\n" +
        "\n" +
        "private:\n" +
        "    //\n" +
        "    // Put all your private variables here\n" +
        "    //\n" +
        "    string InTreeName;\n" +
        "    \n" +
        "    // Input Variables\n"),
    Hole("inputVariableDeclarations"),
    Lit("\n" +
        "\n" +
        "    //Output Variables\n"),
    Hole("outputVariableDeclarations"),
    Lit("\n" +
        "\n" +
        "    // Macro adding the functions for dictionary generation\n" +
        "    ClassDef( "),
    Hole("fullClassName"),
    Lit(", 0 );\n" +
        "\n" +
        "}; // class "),
    Hole("class"),
    Lit("\n")
  ]

  /** The header file around the class declaration. */
  const HeaderFrame: Template := [
    Lit("// Dear emacs, this is -*- c++ -*-\n" +
        "#ifndef "),
    Hole("capclass"),
    Lit("_H\n" +
        "#define "),
    Hole("capclass"),
    Lit("_H\n" +
        "\n" +
        "// SFrame include(s):\n" +
        "#include \"core/include/SCycleBase.h\"\n" +
        "#include <vector>\n" +
        "#include <string>\n" +
        "using namespace std;\n" +
        "\n"),
    Hole("body"),
    Lit("\n" +
        "\n" +
        "#endif // "),
    Hole("capclass"),
    Lit("_H\n" +
        "\n")
  ]

  /** The member definitions of a new cycle. */
  const SourceBody: Template := [
    Lit("\n"),
    Hole("class"),
    Lit("::"),
    Hole("class"),
    Lit("()\n" +
        "    : SCycleBase() {\n" +
        "    \n" +
        "    DeclareProperty(\"InTreeName\", InTreeName );\n" +
        "    SetLogName( GetName() );\n" +
        "}\n" +
        "\n"),
    Hole("class"),
    Lit("::~"),
    Hole("class"),
    Lit("() {\n" +
        "\n" +
        "}\n" +
        "\n" +
        "void "),
    Hole("class"),
    Lit("::BeginCycle() throw( SError ) {\n" +
        "\n" +
        "    return;\n" +
        "\n" +
        "}\n" +
        "\n" +
        "void "),
    Hole("class"),
    Lit("::EndCycle() throw( SError ) {\n" +
        "\n" +
        "    return;\n" +
        "\n" +
        "}\n" +
        "\n" +
        "void "),
    Hole("class"),
    Lit("::BeginInputData( const SInputData& ) throw( SError ) {\n" +
        "\n"),
    Hole("outputVariableConnections"),
    Lit("\n" +
        "    return;\n" +
        "\n" +
        "}\n" +
        "\n" +
        "void "),
    Hole("class"),
    Lit("::EndInputData( const SInputData& ) throw( SError ) {\n" +
        "\n" +
        "    return;\n" +
        "\n" +
        "}\n" +
        "\n" +
        "void "),
    Hole("class"),
    Lit("::BeginInputFile( const SInputData& ) throw( SError ) {\n" +
        "\n"),
    Hole("inputVariableConnections"),
    Lit("\n" +
        "    return;\n" +
        "\n" +
        "}\n" +
        "\n" +
        "void "),
    Hole("class"),
    Lit("::ExecuteEvent( const SInputData&, Double_t ) throw( SError ) {\n" +
        "\n"),
    Hole("outputVariableClearing"),
    Lit("\n" +
        "\n" +
        "    // The main part of your analysis goes here\n" +
        "    \n"),
    Hole("outputVariableFilling"),
    Lit("\n" +
        "\n" +
        "    return;\n" +
        "\n" +
        "}\n")
  ]

  /** The source file around the member definitions. */
  const SourceFrame: Template := [
    Lit("\n" +
        "// Local include(s):\n" +
        "#include \""),
    Hole("header"),
    Lit("\"\n" +
        "\n" +
        "ClassImp( "),
    Hole("fullClassName"),
    Lit(" );\n" +
        "\n"),
    Hole("body"),
    Lit("\n")
  ]

  /** A new LinkDef file. */
  const LinkDef: Template := [
    Lit("// Dear emacs, this is -*- c++ -*-\n" +
        "\n" +
        "#ifdef __CINT__\n" +
        "\n" +
        "#pragma link off all globals;\n" +
        "#pragma link off all classes;\n" +
        "#pragma link off all functions;\n" +
        "#pragma link C++ nestedclass;\n" +
        "\n"),
    Hole("new_lines"),
    Lit("\n" +
        "#endif // __CINT__\n")
  ]

  /** The first pieces of the header frame: the guard's `#ifndef` and `#define` lines. */
  lemma HeaderFrameHead()
    ensures |HeaderFrame| >= 4
    ensures HeaderFrame[..4] == [Lit("// Dear emacs, this is -*- c++ -*-\n" + "#ifndef "), Hole("capclass"),
                                 Lit("_H\n" + "#define "), Hole("capclass")]
  {
  }

  /** The first pieces of the source frame: the include of the header. */
  lemma SourceFrameHead()
    ensures |SourceFrame| >= 3
    ensures SourceFrame[..3] == [Lit("\n" + "// Local include(s):\n" + "#include \""), Hole("header"),
                                 Lit("\"\n" + "\n" + "ClassImp( ")]
  {
  }

  /** Filling literal, placeholder, literal, placeholder. */
  lemma FillFour(a: string, k: string, b: string, l: string, d: map<string, string>)
    requires k in d && l in d
    ensures Covers([Lit(a), Hole(k), Lit(b), Hole(l)], d)
    ensures Fill([Lit(a), Hole(k), Lit(b), Hole(l)], d) == a + d[k] + b + d[l]
  {
    var t := [Lit(a), Hole(k), Lit(b), Hole(l)];
    var t1 := [Hole(k), Lit(b), Hole(l)];
    var t2 := [Lit(b), Hole(l)];
    assert t[1..] == t1 && t1[1..] == t2 && t2[1..] == [Hole(l)];
    assert Fill([Hole(l)], d) == d[l] + Fill([], d);
    assert Fill(t2, d) == b + d[l];
    assert Fill(t1, d) == d[k] + (b + d[l]);
    assert Fill(t, d) == a + (d[k] + (b + d[l]));
    assert a + (d[k] + (b + d[l])) == a + d[k] + b + d[l];
  }

  // The keys each template asks for.

  lemma NamespaceCovered(d: map<string, string>)
    requires "namespace" in d && "body" in d
    ensures Covers(Namespace, d)
  {
  }

  lemma HeaderBodyCovered(d: map<string, string>)
    requires "class" in d && "fullClassName" in d
    requires "inputVariableDeclarations" in d && "outputVariableDeclarations" in d
    ensures Covers(HeaderBody, d)
  {
  }

  lemma HeaderFrameCovered(d: map<string, string>)
    requires "capclass" in d && "body" in d
    ensures Covers(HeaderFrame, d)
  {
  }

  lemma SourceBodyCovered(d: map<string, string>)
    requires "class" in d && "inputVariableConnections" in d && "outputVariableConnections" in d
    requires "outputVariableClearing" in d && "outputVariableFilling" in d
    ensures Covers(SourceBody, d)
  {
  }

  lemma SourceFrameCovered(d: map<string, string>)
    requires "header" in d && "fullClassName" in d && "body" in d
    ensures Covers(SourceFrame, d)
  {
  }

  lemma LinkDefCovered(d: map<string, string>)
    requires "new_lines" in d
    ensures Covers(LinkDef, d)
  {
  }

  /** A filled header frame opens with the include guard. */
  lemma HeaderFrameOpens(d: map<string, string>)
    requires Covers(HeaderFrame, d)
    ensures ("// Dear emacs, this is -*- c++ -*-\n" + "#ifndef ") + d["capclass"] + ("_H\n" + "#define ") + d["capclass"]
              <= Fill(HeaderFrame, d)
  {
    HeaderFrameHead();
    FillPrefix(HeaderFrame, 4, d);
    FillFour("// Dear emacs, this is -*- c++ -*-\n" + "#ifndef ", "capclass", "_H\n" + "#define ", "capclass", d);
  }

  /** A filled source frame opens by including the header. */
  lemma SourceFrameOpens(d: map<string, string>)
    requires Covers(SourceFrame, d)
    ensures "\n" + "// Local include(s):\n" + "#include \"" + d["header"] + "\"\n" <= Fill(SourceFrame, d)
  {
    var a := "\n" + "// Local include(s):\n" + "#include \"";
    var b := "\"\n" + "\n" + "ClassImp( ";
    var h := Hole("header");
    SourceFrameHead();
    FillPrefix(SourceFrame, 3, d);
    assert SourceFrame[..3] == [Lit(a)] + ([h] + ([Lit(b)] + []));
    FillCons(Lit(a), [h] + ([Lit(b)] + []), d);
    FillCons(h, [Lit(b)] + [], d);
    FillCons(Lit(b), [], d);
  }
}
