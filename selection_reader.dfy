/** `ReadVariableSelection`: the selection file's contents are normalised (block comments
    become line comments, every line comment starts a line, whitespace around line
    breaks is tidied) and then scanned for declarations. */
module SelectionReader {
  import opened Text
  import opened Variables
  import opened DeclarationScanner
  import opened CommentNormalizer
  import opened WhitespaceCleanup

  /** The substitutions after the line break behind each comment closer, in the order the
      reader applies them; `None` when the block-comment loop has not finished after
      `fuel` turns. */
  function NormalizeBroken(text: string, fuel: nat): (r: Option<string>)
    ensures r.Some? ==> Tidy(r.value)
  {
    match StripComments(text, fuel)
    case None => None
    case Some(t) =>
      CleanupTidy(BreakSlashes(t, false));
      Some(Cleanup(BreakSlashes(t, false)))
  }

  /** The reader's normalisation, with the closer substitution as written: the character
      after each comment closer is replaced by the line break. */
  function Normalize(text: string, fuel: nat): (r: Option<string>)
    ensures r.Some? ==> Tidy(r.value)
  {
    NormalizeBroken(BreakAfterCloseAsWritten(text), fuel)
  }

  /** The normalisation as the reader's comments describe it: the line break is inserted
      after each comment closer and no character is lost. */
  function NormalizeIntended(text: string, fuel: nat): (r: Option<string>)
    ensures r.Some? ==> Tidy(r.value)
  {
    NormalizeBroken(BreakAfterClose(text), fuel)
  }

  /** The variables found in a normalised text; a file that cannot be opened yields no
      variables. */
  function ScanNormalized(contents: Option<string>, normalized: Option<string>): (r: Option<seq<Variable>>)
    ensures contents.None? ==> r == Some([])
    ensures r.Some? ==> forall v :: v in r.value ==> WellScanned(v)
  {
    if contents.None? then Some([])
    else match normalized
      case None => None
      case Some(t) =>
        ScannedShape(t, 0);
        Some(Vars(t, ScanFrom(t, 0)))
  }

  /** The variables read from a selection file whose contents are `contents`, or `None`
      when the comment loop has not finished after `fuel` turns. A file that cannot be
      opened yields no variables. */
  function ReadSelection(contents: Option<string>, fuel: nat): (r: Option<seq<Variable>>)
    ensures contents.None? ==> r == Some([])
    ensures r.Some? ==> forall v :: v in r.value ==> WellScanned(v)
  {
    ScanNormalized(contents, if contents.None? then None else Normalize(contents.value, fuel))
  }

  /** The reader with the intended closer substitution. */
  function ReadSelectionIntended(contents: Option<string>, fuel: nat): (r: Option<seq<Variable>>)
    ensures contents.None? ==> r == Some([])
    ensures r.Some? ==> forall v :: v in r.value ==> WellScanned(v)
  {
    ScanNormalized(contents, if contents.None? then None else NormalizeIntended(contents.value, fuel))
  }

  /** The two readers differ only in the closer substitution: on text in which no comment closer is
      followed by another character than a newline they agree. */
  lemma ReadersAgree(contents: Option<string>, fuel: nat)
    requires contents.Some? ==> ClosersBroken(contents.value)
    ensures ReadSelection(contents, fuel) == ReadSelectionIntended(contents, fuel)
  {
    if contents.Some? {
      AsWrittenFixed(contents.value);
      BreakAfterCloseFixed(contents.value);
    }
  }

  /** The reader itself: each substitution reassigns the text, then the matches are
      collected one by one. */
  method ReadVariableSelection(contents: Option<string>, fuel: nat) returns (varlist: Option<seq<Variable>>)
    ensures varlist == ReadSelection(contents, fuel)
  {
    if contents.None? {
      return Some([]);
    }
    var text := contents.value;
    text := BreakAfterCloseAsWritten(text);
    var stripped := StripBlockComments(text, fuel);
    if stripped.None? {
      return None;
    }
    text := BreakSlashes(stripped.value, false);
    text := CollapseAfterNewline(text);
    text := StripLeading(text);
    text := TrimBeforeNewline(text);
    var vars := ReadDeclarations(text);
    varlist := Some(vars);
  }
}
