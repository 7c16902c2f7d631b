/** The code that `CreateHeader` and `CreateSource` generate for the cycle's variables:
    one line per variable for each kind of declaration or statement, collected into
    blocks, and the blocks filled into the header and source templates. */
module Rendering {
  import opened Text
  import opened Variables
  import opened TypeClassifier
  import opened Naming
  import opened Templates

  /** The per-variable lines: the input declaration and output declaration of the
      header, and the input connection, output declaration, output clearing and output
      filling statements of the source. */
  datatype LineKind =
    | InputDeclaration | OutputDeclaration
    | InputConnection | OutputConnection | OutputClearing | OutputFilling

  /** What the line of kind `k` for `v` says, between its indentation and comment
      marker and its newline. */
  function Statement(k: LineKind, v: Variable): string
  {
    var c := v.CName();
    match k
    case InputDeclaration => v.typename + "\t" + v.pointer + c + ";"
    case OutputDeclaration => v.typename + "\tout_" + c + ";"
    case InputConnection => "ConnectVariable( InTreeName.c_str(), \"" + v.name + "\", " + c + " );"
    case OutputConnection => "DeclareVariable( out_" + c + ", \"" + v.name + "\" );"
    case OutputClearing => "out_" + c + ".clear();"
    case OutputFilling => "out_" + c + " = " + v.pointer + c + ";"
  }

  /** The line of kind `k` for `v`: indented by one tab, commented out when `v` is. */
  function Line(k: LineKind, v: Variable): string
  {
    Tab + v.commented + Statement(k, v) + "\n"
  }

  /** Whether `v` gets a line of kind `k`: every variable does, except that only a
      variable read through a pointer whose type is a container is cleared. */
  predicate Emits(k: LineKind, v: Variable) {
    k == OutputClearing ==> v.pointer != "" && IsStlLike(v.typename) != ""
  }

  /** The line of kind `k` for `v` when `v` gets one, and nothing otherwise. */
  function Piece(k: LineKind, v: Variable): string
  {
    if Emits(k, v) then Line(k, v) else []
  }

  /** The lines of kind `k` of the variables, in their order. */
  function Block(k: LineKind, vs: seq<Variable>): (b: string)
  {
    ConcatMap(PieceOf(k), vs)
  }

  function PieceOf(k: LineKind): Variable -> string
  {
    v => Piece(k, v)
  }

  /** The number of variables that get a line of kind `k`. */
  function Emitted(k: LineKind, vs: seq<Variable>): (n: nat)
    ensures n <= |vs|
    ensures k != OutputClearing ==> n == |vs|
    decreases |vs|
  {
    if vs == [] then 0 else (if Emits(k, vs[0]) then 1 else 0) + Emitted(k, vs[1..])
  }

  lemma BlockSnoc(k: LineKind, vs: seq<Variable>, v: Variable)
    ensures Block(k, vs + [v]) == Block(k, vs) + Piece(k, v)
  {
    ConcatMapSnoc(PieceOf(k), vs, v);
  }

  /** One more turn of a loop over the variables adds the next variable's line. */
  lemma BlockStep(k: LineKind, vs: seq<Variable>, i: nat)
    requires i < |vs|
    ensures Block(k, vs[..i + 1]) == Block(k, vs[..i]) + Piece(k, vs[i])
  {
    assert vs[..i + 1] == vs[..i] + [vs[i]];
    BlockSnoc(k, vs[..i], vs[i]);
  }

  /** The fields of a variable fit on one line. */
  predicate OnOneLine(v: Variable) {
    NoNewline(v.name) && NoNewline(v.typename) && NoNewline(v.commented) && NoNewline(v.pointer)
  }

  lemma SanitizeNoNewline(name: string)
    requires NoNewline(name)
    ensures NoNewline(Sanitize(name))
  {
  }

  lemma NoNewlineConcat(a: string, b: string)
    requires NoNewline(a) && NoNewline(b)
    ensures NoNewline(a + b)
  {
    forall i | 0 <= i < |a + b|
      ensures (a + b)[i] != '\n'
    {
      if i < |a| {
        assert (a + b)[i] == a[i];
      } else {
        assert (a + b)[i] == b[i - |a|];
      }
    }
  }

  lemma StatementOnOneLine(k: LineKind, v: Variable)
    requires OnOneLine(v)
    ensures NoNewline(Statement(k, v))
  {
    var c := v.CName();
    SanitizeNoNewline(v.name);
    match k
    case InputDeclaration =>
      NoNewlineConcat(v.typename, "\t");
      NoNewlineConcat(v.typename + "\t", v.pointer);
      NoNewlineConcat(v.typename + "\t" + v.pointer, c);
      NoNewlineConcat(v.typename + "\t" + v.pointer + c, ";");
    case OutputDeclaration =>
      NoNewlineConcat(v.typename, "\tout_");
      NoNewlineConcat(v.typename + "\tout_", c);
      NoNewlineConcat(v.typename + "\tout_" + c, ";");
    case InputConnection =>
      var a := "ConnectVariable( InTreeName.c_str(), \"";
      assert NoNewline(a);
      NoNewlineConcat(a, v.name);
      NoNewlineConcat(a + v.name, "\", ");
      NoNewlineConcat(a + v.name + "\", ", c);
      NoNewlineConcat(a + v.name + "\", " + c, " );");
    case OutputConnection =>
      var a := "DeclareVariable( out_";
      assert NoNewline(a);
      NoNewlineConcat(a, c);
      NoNewlineConcat(a + c, ", \"");
      NoNewlineConcat(a + c + ", \"", v.name);
      NoNewlineConcat(a + c + ", \"" + v.name, "\" );");
    case OutputClearing =>
      NoNewlineConcat("out_", c);
      NoNewlineConcat("out_" + c, ".clear();");
    case OutputFilling =>
      NoNewlineConcat("out_", c);
      NoNewlineConcat("out_" + c, " = ");
      NoNewlineConcat("out_" + c + " = ", v.pointer);
      NoNewlineConcat("out_" + c + " = " + v.pointer, c);
      NoNewlineConcat("out_" + c + " = " + v.pointer + c, ";");
  }

  /** Each line holds exactly one newline. */
  lemma LineIsOneLine(k: LineKind, v: Variable)
    requires OnOneLine(v)
    ensures NewlineCount(Line(k, v)) == 1
  {
    StatementOnOneLine(k, v);
    var body := Tab + v.commented + Statement(k, v);
    assert NoNewline(Tab);
    NoNewlineConcat(Tab, v.commented);
    NoNewlineConcat(Tab + v.commented, Statement(k, v));
    NewlineCountAppend(body, "\n");
    assert NewlineCount("\n") == 1 + NewlineCount([]);
  }

  /** A block has one line per variable that gets one. */
  lemma {:induction false} BlockLines(k: LineKind, vs: seq<Variable>)
    requires forall i :: 0 <= i < |vs| ==> OnOneLine(vs[i])
    ensures NewlineCount(Block(k, vs)) == Emitted(k, vs)
    decreases |vs|
  {
    if vs != [] {
      BlockLines(k, vs[1..]);
      if Emits(k, vs[0]) {
        LineIsOneLine(k, vs[0]);
      }
      NewlineCountAppend(Piece(k, vs[0]), Block(k, vs[1..]));
    }
  }

  /** Only variables with a pointer and a container type are cleared. */
  lemma {:induction false} NothingToClear(vs: seq<Variable>)
    requires forall i :: 0 <= i < |vs| ==> vs[i].pointer == "" || IsStlLike(vs[i].typename) == ""
    ensures Block(OutputClearing, vs) == [] && Emitted(OutputClearing, vs) == 0
    decreases |vs|
  {
    if vs != [] {
      NothingToClear(vs[1..]);
    }
  }

  /** The declaration blocks of `CreateHeader`, accumulated over the variables. The
      output block stays empty unless output is requested. */
  method HeaderDeclarations(vs: seq<Variable>, createOutput: bool)
    returns (inputDecls: string, outputDecls: string)
    ensures inputDecls == Block(InputDeclaration, vs)
    ensures outputDecls == (if createOutput then Block(OutputDeclaration, vs) else [])
  {
    inputDecls := "";
    outputDecls := "";
    for i := 0 to |vs|
      invariant inputDecls == Block(InputDeclaration, vs[..i])
      invariant outputDecls == (if createOutput then Block(OutputDeclaration, vs[..i]) else [])
    {
      BlockStep(InputDeclaration, vs, i);
      BlockStep(OutputDeclaration, vs, i);
      inputDecls := inputDecls + Line(InputDeclaration, vs[i]);
      if createOutput {
        outputDecls := outputDecls + Line(OutputDeclaration, vs[i]);
      }
    }
    assert vs[..|vs|] == vs;
  }

  /** The statement blocks of `CreateSource`, accumulated over the variables. */
  method SourceStatements(vs: seq<Variable>, createOutput: bool)
    returns (connections: string, outConnections: string, clearing: string, filling: string)
    ensures connections == Block(InputConnection, vs)
    ensures outConnections == (if createOutput then Block(OutputConnection, vs) else [])
    ensures clearing == (if createOutput then Block(OutputClearing, vs) else [])
    ensures filling == (if createOutput then Block(OutputFilling, vs) else [])
  {
    connections, outConnections, clearing, filling := "", "", "", "";
    for i := 0 to |vs|
      invariant connections == Block(InputConnection, vs[..i])
      invariant outConnections == (if createOutput then Block(OutputConnection, vs[..i]) else [])
      invariant clearing == (if createOutput then Block(OutputClearing, vs[..i]) else [])
      invariant filling == (if createOutput then Block(OutputFilling, vs[..i]) else [])
    {
      var v := vs[i];
      BlockStep(InputConnection, vs, i);
      BlockStep(OutputConnection, vs, i);
      BlockStep(OutputClearing, vs, i);
      BlockStep(OutputFilling, vs, i);
      connections := connections + Line(InputConnection, v);
      if createOutput {
        outConnections := outConnections + Line(OutputConnection, v);
        filling := filling + Line(OutputFilling, v);
        if v.pointer != "" && IsStlLike(v.typename) != "" {
          clearing := clearing + Line(OutputClearing, v);
        }
      }
    }
    assert vs[..|vs|] == vs;
  }

  // ---------------------------------------------------------------------------
  // Filling the templates.

  /** `s.upper()` on a byte string: ASCII lower-case letters become upper-case. */
  function Upper(s: string): (r: string)
    ensures |r| == |s|
    ensures forall i :: 0 <= i < |s| ==>
              r[i] == (if 'a' <= s[i] <= 'z' then (s[i] as int - 32) as char else s[i])
  {
    if s == [] then []
    else [if 'a' <= s[0] <= 'z' then (s[0] as int - 32) as char else s[0]] + Upper(s[1..])
  }

  /** The class name qualified by its namespace, when there is one. */
  function FullClassName(className: string, namespace: string): (n: string)
    ensures namespace == "" ==> n == className
    ensures namespace != "" ==> n == namespace + "::" + className
  {
    if namespace != "" then namespace + "::" + className else className
  }

  /** The body enclosed in the namespace, indented, when there is a namespace. */
  function InNamespace(namespace: string, body: string): (r: string)
  {
    if namespace != "" then
      var d := map["namespace" := namespace, "body" := Indent(body)];
      NamespaceCovered(d);
      Fill(Namespace, d)
    else body
  }

  function CommonEntries(className: string, namespace: string): map<string, string>
  {
    map["tab" := Tab, "class" := className, "namespace" := namespace,
        "fullClassName" := FullClassName(className, namespace)]
  }

  /** The declaration blocks of the header. */
  datatype HeaderBlocks = HeaderBlocks(inputDecls: string, outputDecls: string)

  /** The declaration blocks for the variables; the output block stays empty unless output
      is requested. */
  function HeaderBlocksOf(vs: seq<Variable>, createOutput: bool): HeaderBlocks {
    HeaderBlocks(Block(InputDeclaration, vs), if createOutput then Block(OutputDeclaration, vs) else "")
  }

  /** The statement blocks of the source. */
  datatype SourceBlocks = SourceBlocks(connections: string, outConnections: string, clearing: string,
                                       filling: string)

  /** The statement blocks for the variables; only the input connections are written
      unless output is requested. */
  function SourceBlocksOf(vs: seq<Variable>, createOutput: bool): SourceBlocks {
    SourceBlocks(Block(InputConnection, vs),
                 if createOutput then Block(OutputConnection, vs) else "",
                 if createOutput then Block(OutputClearing, vs) else "",
                 if createOutput then Block(OutputFilling, vs) else "")
  }

  function HeaderBodyText(className: string, namespace: string, b: HeaderBlocks): string
  {
    var d := CommonEntries(className, namespace)[
      "inputVariableDeclarations" := b.inputDecls][
      "outputVariableDeclarations" := b.outputDecls];
    HeaderBodyCovered(d);
    Fill(HeaderBody, d)
  }

  /** The header guard: the class name, prefixed by the namespace and `_`, in capitals. */
  function GuardName(className: string, namespace: string): string {
    Upper(namespace + "_" + className)
  }

  /** The contents of the header file. */
  function HeaderText(className: string, namespace: string, b: HeaderBlocks): string
  {
    var d := HeaderEntries(className, namespace, b);
    HeaderFrameCovered(d);
    Fill(HeaderFrame, d)
  }

  function HeaderEntries(className: string, namespace: string, b: HeaderBlocks): map<string, string>
  {
    map["body" := InNamespace(namespace, HeaderBodyText(className, namespace, b)),
        "capclass" := GuardName(className, namespace),
        "fullClassName" := namespace + "::" + className]
  }

  function SourceBodyText(className: string, namespace: string, b: SourceBlocks): string
  {
    var d := CommonEntries(className, namespace)[
      "inputVariableConnections" := b.connections][
      "outputVariableConnections" := b.outConnections][
      "outputVariableClearing" := b.clearing][
      "outputVariableFilling" := b.filling];
    SourceBodyCovered(d);
    Fill(SourceBody, d)
  }

  /** The contents of the source file, which includes the header as `headerPath`. */
  function SourceText(className: string, namespace: string, b: SourceBlocks, headerPath: string): string
  {
    var d := SourceEntries(className, namespace, b, headerPath);
    SourceFrameCovered(d);
    Fill(SourceFrame, d)
  }

  function SourceEntries(className: string, namespace: string, b: SourceBlocks, headerPath: string)
    : map<string, string>
  {
    map["body" := InNamespace(namespace, SourceBodyText(className, namespace, b)),
        "fullClassName" := FullClassName(className, namespace),
        "header" := headerPath]
  }

  /** Without variables every block is empty. */
  lemma NoVariables(createOutput: bool)
    ensures HeaderBlocksOf([], createOutput) == HeaderBlocks("", "")
    ensures SourceBlocksOf([], createOutput) == SourceBlocks("", "", "", "")
  {
  }

  /** The header's contents, with the declaration blocks built by the loop. */
  method HeaderContents(className: string, namespace: string, vs: seq<Variable>, createOutput: bool)
    returns (contents: string)
    ensures contents == HeaderText(className, namespace, HeaderBlocksOf(vs, createOutput))
  {
    var inputDecls, outputDecls := HeaderDeclarations(vs, createOutput);
    contents := HeaderText(className, namespace, HeaderBlocks(inputDecls, outputDecls));
  }

  /** The source's contents, with the statement blocks built by the loop. */
  method SourceContents(className: string, namespace: string, vs: seq<Variable>, createOutput: bool,
                        headerPath: string) returns (contents: string)
    ensures contents == SourceText(className, namespace, SourceBlocksOf(vs, createOutput), headerPath)
  {
    var connections, outConnections, clearing, filling := SourceStatements(vs, createOutput);
    contents := SourceText(className, namespace, SourceBlocks(connections, outConnections, clearing, filling),
                           headerPath);
  }

  /** The header opens with its include guard. */
  lemma HeaderGuard(className: string, namespace: string, b: HeaderBlocks)
    ensures var g := GuardName(className, namespace);
            ("// Dear emacs, this is -*- c++ -*-\n" + "#ifndef ") + g + ("_H\n" + "#define ") + g
              <= HeaderText(className, namespace, b)
  {
    var d := HeaderEntries(className, namespace, b);
    HeaderFrameCovered(d);
    HeaderFrameOpens(d);
  }

  /** The source file opens by including the header. */
  lemma SourceIncludesHeader(className: string, namespace: string, b: SourceBlocks, headerPath: string)
    ensures "\n" + "// Local include(s):\n" + "#include \"" + headerPath + "\"\n"
              <= SourceText(className, namespace, b, headerPath)
  {
    var d := SourceEntries(className, namespace, b, headerPath);
    SourceFrameCovered(d);
    SourceFrameOpens(d);
  }
}
