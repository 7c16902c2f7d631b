# SFrame cycle generator, modelled in Dafny

This project models `FullCycleCreator` from the SFrame analysis framework. That class
writes the skeleton of a new analysis cycle for its user:

- a C++ header and a C++ source file for the cycle class;
- the cycle's entry in a ROOT `LinkDef` file.

It can also read a "variable selection" file of C-like declarations. The generated code
then declares those variables, connects them to the input tree and, on request, copies
them to an output tree.

The model follows the program's own stages. Each stage is one module:

| module | what it models |
|---|---|
| `Text` | Character classes of Python's `\s`, newline counting, deleting characters, concatenation. |
| `Variables` | The `Variable` record and its `cname`: the variable name with every punctuation character of the sanitising class replaced by `_`. |
| `Substitution` | Python's `re.sub` for a literal pattern (left to right, non-overlapping), as `Split`/`Join`. |
| `CommentNormalizer` | The reader's comment substitutions. A line break follows each `*/`. The loop turns block comments into line comments, run with fuel because it need not terminate. A newline is inserted before each `//` that does not follow a newline. After a newline the look-behind fails and the scan moves on one character, so a following `/` can still start a match. Only a `//` whose first `/` an earlier match consumed is left unchanged. |
| `WhitespaceCleanup` | The three whitespace substitutions around line breaks and at the start of the text. |
| `DeclarationScanner` | `re.finditer` with the declaration regular expression. Each match is recognised position by position, including the greedy `<.+>` template part. |
| `SelectionFormat` | A writer for selection files and its round trip through the scanner. |
| `SelectionReader` | `ReadVariableSelection`: a file that cannot be opened yields no variables, otherwise the text is normalised and scanned. The reader uses the closer substitution as written; a reader with the corrected substitution is kept beside it, and the two agree on text whose closers are already followed by a newline. |
| `TypeClassifier` | `Is_stl_like`: `*` exactly when a `vector`, `list`, `set` or `map` keyword occurs anywhere in the type, followed by optional whitespace, `<` and a later `>` on the same line. The search is not anchored, so `bitset<8>` and `multimap<a,b>` count too. |
| `Naming` | `Indent` and `SplitCycleName`. |
| `IncludePath` | `os.path.abspath` (join to the working directory, then `normpath`), and the relative include path that `CreateSource` computes from the header and source paths. |
| `Templates` | The string templates as sequences of literal text and named holes, and their filling (Python's `%` with a dictionary). |
| `Rendering` | The per-variable lines, the blocks they form, and the header and source contents. |
| `LinkDefs` | The `#pragma link` lines, the set of pointer types, and the insertion before `\n#endif`. Also the new LinkDef file, and the include and source directories and the LinkDef file that `CreateCycle` chooses. |
| `CycleFiles` | The file system as a map from names to contents, and the generator's file-writing methods on it: `Backup`, `CreateHeader`, `CreateSource`, `AddLinkDef`. |

Where this model follows the code rather than the prose documentation:

- **`AddLinkDef` inserts before every marker.** The new lines go before every occurrence
  of `\n#endif`, not before a single one. A file that holds `#endif` but no `\n#endif`
  is written back unchanged.
- **`Indent` never indents the first line of a body.** The `:^` alternative in its
  look-behind can never match.
- **The header frame always gets `namespace::class`.** Its `fullClassName` is filled with
  `namespace + "::" + className` even when there is no namespace.

## Model

| member | source | states |
|---|---|---|
| Variables.Sanitize | full_cycle/FullCycleCreators.py:61-70 | `cname` has the name's length; each character of the sanitising class becomes `_` and every other character is kept |
| Variables.SanitizeRemovesPunct | full_cycle/FullCycleCreators.py:70 | no character of the class is left in a `cname` |
| Variables.SanitizeIdempotent | full_cycle/FullCycleCreators.py:70 | sanitising a `cname` again changes nothing |
| Variables.SanitizeIdentifier | full_cycle/FullCycleCreators.py:70 | a name that already is a C identifier is its own `cname` |
| Variables.SanitizeKeepsBackslash | full_cycle/FullCycleCreators.py:70 | the class holds no backslash, and a leading digit is kept, so a `cname` need not be a C identifier |
| Substitution.ReplaceIsJoin | full_cycle/FullCycleCreators.py:110-111 | replacing every occurrence left to right equals splitting at the pattern and joining with the replacement |
| Substitution.JoinSplit | full_cycle/FullCycleCreators.py:110-111 | splitting at a pattern and joining with it gives the text back |
| Substitution.Split | full_cycle/FullCycleCreators.py:110-111 | no piece contains the pattern, and the first piece is a prefix of the text |
| Substitution.ReplaceAbsent | full_cycle/FullCycleCreators.py:110-111 | a text without the pattern is unchanged |
| Substitution.ReplaceHit | full_cycle/FullCycleCreators.py:110-111 | an occurrence at the head is replaced and scanning resumes after it |
| Substitution.ReplaceSkip | full_cycle/FullCycleCreators.py:110-111 | a head that does not start the pattern is kept |
| Substitution.ReplacePrefix | full_cycle/FullCycleCreators.py:110-111 | a prefix free of the pattern's first character is kept |
| CommentNormalizer.BreakAfterCloseAsWritten | full_cycle/FullCycleCreators.py:107 | the substitution as written keeps the text's length, because the character after `*/` is replaced |
| CommentNormalizer.BreakAfterCloseDrops | full_cycle/FullCycleCreators.py:107 | as written, the character after `*/` is lost; the corrected version keeps it after the new line break |
| CommentNormalizer.BreakAfterClose | full_cycle/FullCycleCreators.py:107 | the corrected substitution only inserts characters and keeps the first one |
| CommentNormalizer.BreakAfterCloseBreaks | full_cycle/FullCycleCreators.py:107 | afterwards every `*/` is followed by a newline or ends the text |
| CommentNormalizer.BreakAfterCloseKeeps | full_cycle/FullCycleCreators.py:107 | only newlines are added: without newlines the text is unchanged |
| CommentNormalizer.BreakAfterCloseFixed | full_cycle/FullCycleCreators.py:107 | a text whose closers are already broken is unchanged |
| CommentNormalizer.BreakAfterCloseIdempotent | full_cycle/FullCycleCreators.py:107 | applying it twice is applying it once |
| CommentNormalizer.CommentEnd | full_cycle/FullCycleCreators.py:109 | the lazy `.*?` stops at the first newline or `*/`, or there is none |
| CommentNormalizer.StripComments | full_cycle/FullCycleCreators.py:108-111 | when the loop ends the text holds no `/*` |
| CommentNormalizer.StripBlockComments | full_cycle/FullCycleCreators.py:108-111 | the loop computes the loop function, and on exit no `/*` is left |
| CommentNormalizer.ClosedCommentOnePass | full_cycle/FullCycleCreators.py:108-111 | one turn turns a closed `/*c*/` into the line comment `// c` and ends the loop |
| CommentNormalizer.ClosedCommentMoved | full_cycle/FullCycleCreators.py:109 | the opener moves to just before the closer, giving an empty comment |
| CommentNormalizer.EmptyCommentDeleted | full_cycle/FullCycleCreators.py:110 | the empty comment is then deleted |
| CommentNormalizer.UnclosedCommentStays | full_cycle/FullCycleCreators.py:108-111 | an opener with no newline or closer after it is left in place by a turn |
| CommentNormalizer.UnclosedCommentLoops | full_cycle/FullCycleCreators.py:108-111 | so the loop never ends on such text: no fuel suffices |
| CommentNormalizer.BreakSlashes | full_cycle/FullCycleCreators.py:113 | the first character is kept or preceded by the inserted newline |
| CommentNormalizer.BreakSlashesBreaks | full_cycle/FullCycleCreators.py:113 | afterwards every `//` follows a newline or another `/`, including one at the start of the text |
| CommentNormalizer.BreakSlashesKeeps | full_cycle/FullCycleCreators.py:113 | only newlines are added |
| CommentNormalizer.BreakSlashesFixed | full_cycle/FullCycleCreators.py:113 | a text whose `//` all follow a newline is unchanged |
| CommentNormalizer.BreakSlashesAfterNewline | full_cycle/FullCycleCreators.py:113 | after a newline the look-behind fails and the scan moves on one character, so `\n///x` becomes `\n/\n//x` |
| CommentNormalizer.AsWrittenFixed | full_cycle/FullCycleCreators.py:107 | the substitution as written leaves a text whose closers are all followed by a newline unchanged |
| WhitespaceCleanup.CollapseFollowed | full_cycle/FullCycleCreators.py:114 | after the first cleanup no newline is followed by whitespace |
| WhitespaceCleanup.CollapseKeeps | full_cycle/FullCycleCreators.py:114 | only whitespace is removed |
| WhitespaceCleanup.CollapseFixed | full_cycle/FullCycleCreators.py:114 | a text already in that shape is unchanged |
| WhitespaceCleanup.StripLeading | full_cycle/FullCycleCreators.py:115 | the result is the text without its leading whitespace, and starts with no whitespace |
| WhitespaceCleanup.StripLeadingKeeps | full_cycle/FullCycleCreators.py:115 | only whitespace is removed |
| WhitespaceCleanup.RunToNewline | full_cycle/FullCycleCreators.py:116 | the greedy `(\s)*\n` match at a position: the longest whitespace run that ends in a newline |
| WhitespaceCleanup.TrimPreceded | full_cycle/FullCycleCreators.py:116 | after the third cleanup no newline is preceded by whitespace |
| WhitespaceCleanup.TrimKeeps | full_cycle/FullCycleCreators.py:116 | only whitespace is removed |
| WhitespaceCleanup.TrimFixed | full_cycle/FullCycleCreators.py:116 | a text already in that shape is unchanged |
| WhitespaceCleanup.CleanupTidy | full_cycle/FullCycleCreators.py:114-116 | after the three cleanups no whitespace surrounds a newline or starts the text |
| WhitespaceCleanup.CleanupKeeps | full_cycle/FullCycleCreators.py:114-116 | the three cleanups remove only whitespace |
| WhitespaceCleanup.CleanupFixed | full_cycle/FullCycleCreators.py:114-116 | a tidy text is unchanged |
| WhitespaceCleanup.CleanupIdempotent | full_cycle/FullCycleCreators.py:114-116 | cleaning twice is cleaning once |
| DeclarationScanner.TypeEnd | full_cycle/FullCycleCreators.py:127 | the type group ends after its start when it matches |
| DeclarationScanner.MatchGroups | full_cycle/FullCycleCreators.py:125-135 | a match at a position starts there and its groups lie inside the text in order |
| DeclarationScanner.MatchName | full_cycle/FullCycleCreators.py:135 | the scanned name is a C identifier |
| DeclarationScanner.MatchType | full_cycle/FullCycleCreators.py:127 | the scanned type starts with a letter or `_` and lies on one line |
| DeclarationScanner.MatchComment | full_cycle/FullCycleCreators.py:125 | the comment group is `//` or empty |
| DeclarationScanner.ScanFrom | full_cycle/FullCycleCreators.py:136 | the matches lie in the text, in order, without overlapping |
| DeclarationScanner.ScanFromMatch | full_cycle/FullCycleCreators.py:136 | after a match the search resumes at its end |
| DeclarationScanner.ScanFromSkip | full_cycle/FullCycleCreators.py:136 | where nothing matches the search moves one character on |
| DeclarationScanner.ReadDeclarations | full_cycle/FullCycleCreators.py:136-146 | the loop collects one variable per match, in order |
| DeclarationScanner.ScannedShape | full_cycle/FullCycleCreators.py:136-146 | every variable read has a `//` or empty comment, a one-line type, an identifier name and a `*` or empty pointer |
| DeclarationScanner.ScanComplete | full_cycle/FullCycleCreators.py:136 | every position where a declaration matches lies inside some match found |
| DeclarationScanner.ScanNone | full_cycle/FullCycleCreators.py:136 | no match anywhere gives no variables |
| DeclarationScanner.ScanEmpty | full_cycle/FullCycleCreators.py:136 | no variables are found exactly when no position matches |
| SelectionFormat.DeclLine | full_cycle/FullCycleCreators.py:73 | a written declaration line is as long as its parts, `;` and newline |
| SelectionFormat.DeclTextRoundTrip | full_cycle/FullCycleCreators.py:125-146 | scanning the declaration lines written for well-formed variables gives exactly those variables back |
| SelectionReader.NormalizeBroken | full_cycle/FullCycleCreators.py:108-116 | after the closer substitution, the remaining substitutions leave a tidy text |
| SelectionReader.Normalize | full_cycle/FullCycleCreators.py:107-116 | the substitutions as written, starting with the closer substitution that replaces the next character, leave a tidy text |
| SelectionReader.NormalizeIntended | full_cycle/FullCycleCreators.py:107-116 | with the corrected closer substitution the text is tidy as well |
| SelectionReader.ScanNormalized | full_cycle/FullCycleCreators.py:93-146 | a file that cannot be opened gives no variables; every variable scanned is well formed |
| SelectionReader.ReadSelection | full_cycle/FullCycleCreators.py:93-146 | the reader as written: a file that cannot be opened gives no variables; every variable read is well formed |
| SelectionReader.ReadSelectionIntended | full_cycle/FullCycleCreators.py:93-146 | the reader with the corrected closer substitution, with the same guarantees |
| SelectionReader.ReadersAgree | full_cycle/FullCycleCreators.py:107 | the two readers agree on every text whose closers are already followed by a newline |
| SelectionReader.ReadVariableSelection | full_cycle/FullCycleCreators.py:93-146 | the reader's sequence of substitutions as written, and its scan, computes `ReadSelection` |
| TypeClassifier.KeywordLength | full_cycle/FullCycleCreators.py:294 | the alternation matches the length of a container keyword at a position, or none matches |
| TypeClassifier.CloseOnLineSound | full_cycle/FullCycleCreators.py:294 | `<.*>` succeeds only with a `>` later on the same line |
| TypeClassifier.CloseOnLineComplete | full_cycle/FullCycleCreators.py:294 | and does succeed when there is one |
| TypeClassifier.IsStlLikeCorrect | full_cycle/FullCycleCreators.py:288-300 | `*` exactly when some keyword, optional whitespace, `<` and a later `>` on that line occur; `""` exactly otherwise |
| TypeClassifier.VectorExample | full_cycle/FullCycleCreators.py:288-300 | `std::vector<int>` is a container |
| TypeClassifier.MapExample | full_cycle/FullCycleCreators.py:288-300 | `map <int, double>` is a container |
| TypeClassifier.DoubleExample | full_cycle/FullCycleCreators.py:288-300 | `double` is not |
| TypeClassifier.UIntExample | full_cycle/FullCycleCreators.py:288-300 | `UInt_t` is not |
| TypeClassifier.BitsetExample | full_cycle/FullCycleCreators.py:294 | the search is unanchored: `bitset<8>` is a container through its `set` |
| TypeClassifier.MultimapExample | full_cycle/FullCycleCreators.py:294 | `multimap<a,b>` is a container through its `map` |
| TypeClassifier.NoContainer | full_cycle/FullCycleCreators.py:288-300 | a type without `<` is never a container |
| Naming.SplitLines | full_cycle/FullCycleCreators.py:303-304 | a text splits into at least one line, none holding a newline |
| Naming.SplitThenJoin | full_cycle/FullCycleCreators.py:303-304 | joining the lines with newlines gives the text back |
| Naming.IndentLines | full_cycle/FullCycleCreators.py:303-304 | each line is indented separately |
| Naming.IndentByLines | full_cycle/FullCycleCreators.py:303-304 | `Indent` keeps the first line and prefixes the four-space indentation to every later non-empty line |
| Naming.LastColons | full_cycle/FullCycleCreators.py:335 | the greedy `(.*)::` finds the last `::` before a bound, or none |
| Naming.FirstLineEnd | full_cycle/FullCycleCreators.py:335 | the end of the first line: the first newline or the text's end |
| Naming.SplitWithoutNamespace | full_cycle/FullCycleCreators.py:327-339 | without `::` the namespace is empty and the class is the whole name |
| Naming.SplitWithNamespace | full_cycle/FullCycleCreators.py:327-339 | on one line, namespace, `::` and class give the name back; the class has no `::`; the split is at the last `::` |
| Naming.SplitFailsAfterNewline | full_cycle/FullCycleCreators.py:327-339 | the split fails exactly when every `::` lies after the first newline |
| IncludePath.SlashEnd | full_cycle/FullCycleCreators.py:453 | the position after the last `/`, with no `/` beyond it |
| IncludePath.StripSlashes | full_cycle/FullCycleCreators.py:453 | trailing slashes are removed and only they |
| IncludePath.BaseName | full_cycle/FullCycleCreators.py:469 | the base name holds no `/` and ends the path |
| IncludePath.Slashes | full_cycle/FullCycleCreators.py:453-454 | the leading slashes `normpath` keeps: that many, all `/` |
| IncludePath.ResolveStep | full_cycle/FullCycleCreators.py:453-454 | one step of `normpath` keeps the components resolved: no empty, `.` or slashed component, and `..` only at the head of a relative path |
| IncludePath.Resolve | full_cycle/FullCycleCreators.py:453-454 | resolving all components gives resolved components |
| IncludePath.Initial | full_cycle/FullCycleCreators.py:453-454 | at most two leading slashes are kept |
| IncludePath.AbsPath | full_cycle/FullCycleCreators.py:453-454 | an absolute path is only normalised; with an absolute working directory the result is absolute; the result is already normal |
| IncludePath.JoinShape | full_cycle/FullCycleCreators.py:453-454 | components joined by `/` neither start nor end with one and never hold two in a row |
| IncludePath.NormPathClean | full_cycle/FullCycleCreators.py:453-454 | `normpath` keeps a path absolute or relative, leaves no repeated slash after the leading ones and a trailing slash only on the root |
| IncludePath.AssembleClean | full_cycle/FullCycleCreators.py:453-454 | the same for the path put together from leading slashes and resolved components |
| IncludePath.SplitJoin | full_cycle/FullCycleCreators.py:453-454 | splitting joined slash-free components at `/` gives them back |
| IncludePath.ResolveFixed | full_cycle/FullCycleCreators.py:453-454 | resolving resolved components gives them back |
| IncludePath.ResolveSlashes | full_cycle/FullCycleCreators.py:453-454 | leading slashes add only empty components, which are dropped |
| IncludePath.NormPathIdempotent | full_cycle/FullCycleCreators.py:453-454 | normalising twice is normalising once |
| IncludePath.AbsPathAtRoot | full_cycle/FullCycleCreators.py:453-454 | with `/` as working directory a name gets a single leading slash |
| IncludePath.RootIncludeExample | full_cycle/FullCycleCreators.py:452-470 | a header `/h` with a source named `s`, from the root, is included as `h` |
| IncludePath.RepeatedSlashExample | full_cycle/FullCycleCreators.py:452-470 | from `/w`, the header `a//b/x` seen from the source `d/y` is `../a/b/x`: the doubled slash is collapsed, and the name is the header's own base name |
| IncludePath.SiblingDirs | full_cycle/FullCycleCreators.py:452-470 | from `/w`, a header `a/x` seen from a source `d/y` in another directory is `../a/x` |
| IncludePath.HeaderInDir | full_cycle/FullCycleCreators.py:452-470 | from `/w`, a header `a/x` seen from a source `y` in `/w` itself is `a/x` |
| IncludePath.SourceInDir | full_cycle/FullCycleCreators.py:452-470 | from `/w`, a header `x` in `/w` itself seen from a source `d/y` is `../x` |
| IncludePath.SameDir | full_cycle/FullCycleCreators.py:452-470 | from `/w`, a header `x` seen from a source `y` in the same directory is `x` |
| IncludePath.JoinAppend | full_cycle/FullCycleCreators.py:470 | joining with `/` distributes over concatenation |
| IncludePath.CommonLength | full_cycle/FullCycleCreators.py:456-459 | the longest common prefix of the two segment lists |
| IncludePath.CommonPrefixLength | full_cycle/FullCycleCreators.py:456-459 | the loop stops at the first differing segment or at the end of the shorter list |
| IncludePath.CommonLengthUnique | full_cycle/FullCycleCreators.py:456-459 | only one length has those properties |
| IncludePath.Include | full_cycle/FullCycleCreators.py:461-470 | with no common prefix the absolute header path is used; otherwise the `..` steps, the header's remaining directories and the base name of the header as given, joined with `/` |
| IncludePath.ComputeInclude | full_cycle/FullCycleCreators.py:452-470 | the generator's loop computes `Include` |
| IncludePath.IncludeFrom | full_cycle/FullCycleCreators.py:452-470 | the include path of the names as given: both made absolute, the base name taken from the header as given |
| IncludePath.IncludeResolves | full_cycle/FullCycleCreators.py:452-470 | followed from the source's directory, the relative path leads to the header |
| IncludePath.AbsoluteShareRoot | full_cycle/FullCycleCreators.py:461-463 | two absolute paths always share the root, so the fallback needs relative inputs |
| IncludePath.SiblingExample | full_cycle/FullCycleCreators.py:452-470 | `/a/b/include/X.h` seen from `/a/b/src` is `../include/X.h` |
| Templates.FillAppend | full_cycle/FullCycleCreators.py:410 | filling a concatenation of templates concatenates the fillings |
| Templates.FillAt | full_cycle/FullCycleCreators.py:410 | a hole is filled with its dictionary entry between the fillings of its two sides |
| Templates.FillPrefix | full_cycle/FullCycleCreators.py:410 | filling a prefix of a template gives a prefix of the filled text |
| Templates.FillOnlyKeys | full_cycle/FullCycleCreators.py:410 | only the entries the template names matter |
| Templates.HeaderFrameOpens | full_cycle/FullCycleCreators.py:932-946 | the filled header frame opens with the emacs line and `#ifndef`/`#define` of the guard |
| Templates.SourceFrameOpens | full_cycle/FullCycleCreators.py:1011-1018 | the filled source frame opens by including the header path given |
| Rendering.LineIsOneLine | full_cycle/FullCycleCreators.py:394 | a variable line holds exactly one newline |
| Rendering.BlockSnoc | full_cycle/FullCycleCreators.py:391-397 | each variable adds its line to the end of a block |
| Rendering.Emitted | full_cycle/FullCycleCreators.py:487-489 | every variable gets a line of each kind except clearing, which only some get |
| Rendering.BlockLines | full_cycle/FullCycleCreators.py:391-397 | a block has one line per variable that gets one |
| Rendering.NothingToClear | full_cycle/FullCycleCreators.py:487-489 | without pointer container variables the clearing block is empty |
| Rendering.HeaderDeclarations | full_cycle/FullCycleCreators.py:388-400 | the loop builds the input declaration block, and the output one only when output is requested |
| Rendering.SourceStatements | full_cycle/FullCycleCreators.py:473-494 | the loop builds the connection block, and the output, clearing and filling blocks only when output is requested |
| Rendering.Upper | full_cycle/FullCycleCreators.py:416 | lower-case ASCII letters become capitals and nothing else changes |
| Rendering.FullClassName | full_cycle/FullCycleCreators.py:382-384 | the class name, prefixed by the namespace and `::` when there is one |
| Rendering.NoVariables | full_cycle/FullCycleCreators.py:388-400 | no variables give empty blocks |
| Rendering.HeaderContents | full_cycle/FullCycleCreators.py:388-416 | the header contents are the header frame filled with the namespaced body |
| Rendering.SourceContents | full_cycle/FullCycleCreators.py:473-511 | the source contents are the source frame filled with the namespaced body |
| Rendering.HeaderGuard | full_cycle/FullCycleCreators.py:410-416 | the header opens with `#ifndef`/`#define` of the capitalised `namespace_class` guard |
| Rendering.SourceIncludesHeader | full_cycle/FullCycleCreators.py:506-511 | the source opens by including the header path |
| LinkDefs.PragmaBlockSnoc | full_cycle/FullCycleCreators.py:551-552 | each type adds its pragma line at the end |
| LinkDefs.CollectPointerTypes | full_cycle/FullCycleCreators.py:546-549 | the loop collects exactly the types of the variables read through a pointer |
| LinkDefs.EnumerationLength | full_cycle/FullCycleCreators.py:551 | an enumeration of a set without repeats has the set's size |
| LinkDefs.NewLines | full_cycle/FullCycleCreators.py:537-552 | the cycle's pragma line, then one line per pointer type, each type once, in some order |
| LinkDefs.NewLinesCount | full_cycle/FullCycleCreators.py:541-552 | the new lines number one more than the distinct pointer types |
| LinkDefs.InsertIsReplace | full_cycle/FullCycleCreators.py:572 | inserting before each occurrence of a marker whose first character does not recur is replacing the marker by the insert and the marker |
| LinkDefs.InsertedBetweenPieces | full_cycle/FullCycleCreators.py:572 | the file is cut at each `\n#endif`; the new lines go before every one, and rejoining gives the old file |
| LinkDefs.InsertAbsent | full_cycle/FullCycleCreators.py:572 | without `\n#endif` the insertion changes nothing |
| LinkDefs.NewLinkDefShape | full_cycle/FullCycleCreators.py:574-579 | a new LinkDef file ends with the new lines and the closing `#endif // __CINT__` |
| LinkDefs.NewLinkDefHasEndif | full_cycle/FullCycleCreators.py:574-579 | a new LinkDef file holds `#endif`, so it can be extended later |
| LinkDefs.ExtendedLinkDef | full_cycle/FullCycleCreators.py:554-579 | a missing file is created; an existing one without `#endif` is refused; otherwise the lines go before each `\n#endif` and the rest is kept |
| LinkDefs.ChooseLinkDef | full_cycle/FullCycleCreators.py:806-818 | a given name wins; otherwise the only file found, or a new `LinkDef.h` when none is found; several found stop the generator |
| CycleFiles.BackedUp | full_cycle/FullCycleCreators.py:355-364 | an existing file moves to its `.backup` name, a missing one changes nothing, other files are untouched |
| CycleFiles.BackupLosesNothing | full_cycle/FullCycleCreators.py:355-364 | every file except an older backup keeps its contents under its own or the backup name |
| CycleFiles.AddedLinkDef | full_cycle/FullCycleCreators.py:535-581 | only the LinkDef file can change: created when missing, unchanged without `#endif`, extended otherwise |
| CycleFiles.AddLinkDefTwice | full_cycle/FullCycleCreators.py:554-579 | a LinkDef file created by the generator is extended, not refused, by the next cycle |
| CycleFiles.CycleHeaderName | full_cycle/FullCycleCreators.py:800-840 | the header name passed on is the include directory (`include/` when it exists, else empty) followed by the class name and `.h` |
| CycleFiles.CycleSourceName | full_cycle/FullCycleCreators.py:820-842 | the source name passed on is the source directory (`src/` when it exists, else empty) followed by the class name and `.cxx` |
| CycleFiles.CycleInclude | full_cycle/FullCycleCreators.py:800-851 | run from `/w`, the source the cycle writes includes its header by the header name passed on, with `../` in front exactly when the source is in `src/` |
| CycleFiles.FileStore.constructor | full_cycle/FullCycleCreators.py:355-364 | the store starts with the given files |
| CycleFiles.FileStore.Backup | full_cycle/FullCycleCreators.py:355-364 | the files afterwards are `BackedUp` of those before |
| CycleFiles.FileStore.CreateHeader | full_cycle/FullCycleCreators.py:377-423 | returns the header name (default `class.h`); the old file is backed up and the header contents written under that name |
| CycleFiles.FileStore.CreateSource | full_cycle/FullCycleCreators.py:438-511 | the old source (default `class.cxx`) is backed up and the source contents, including the header by the path computed from the absolute, normalised header and source names and the base name of the header as given, written |
| CycleFiles.FileStore.AddLinkDef | full_cycle/FullCycleCreators.py:535-581 | the LinkDef file becomes `AddedLinkDef` of the cycle's line and one line per pointer type, each once |

## Left out

- The comment loop is modelled with a fuel bound. `None` stands for a loop that has not
  ended. `UnclosedCommentLoops` shows it never ends on an unclosed comment.
- Reading, writing and moving files, `os.path.exists` and `glob` are modelled as
  operations on a map from names to contents. The match list of `glob` is a parameter.
  Printed messages are not modelled.
- `os.path.abspath` takes the working directory as a parameter, which `os.getcwd`
  would give. Symbolic links are not resolved, as `abspath` does not resolve them either.
- The iteration order of Python's `set` of pointer types is not modelled. `NewLines`
  picks any enumeration of the set and returns the order it used.
- `LinkDefs.ExtendedLinkDef`: the replacement string of `re.sub` has its backslash
  escapes processed. A type name holding a backslash would be written differently; the
  model inserts the lines literally.
- Python's `%` formatting is modelled by templates already split into text and named
  holes. `%(x)-s` pads nothing without a width, so it is the same hole.
- The `_headerFile` and `_sourceFile` attributes that `CreateHeader` and `CreateSource`
  set are not modelled. Nothing in the core reads them.
- `CreateCycle` is modelled in its choice of the include and source directories and of
  the LinkDef file, and in the include path that follows from them. The include path is
  proved for a working directory `/w` of one component. Its option handling, its analysis
  and tree names, its configuration directory and its calls to the other creators are not
  modelled.
- `CreateConfig`, `AddJobConfig` and `ROOT_Access` are not modelled. They build XML
  through PyXML and load ROOT.
- The command-line script around the class is not modelled.
- `WhitespaceCleanup` works on Python 2 `str` whitespace (space, tab, newline, carriage
  return, form feed, vertical tab). Unicode whitespace is not modelled.

## Findings

| source | as written | input that shows it | evidently intended | confidence | as-written member | corrected member |
|---|---|---|---|---|---|---|
| full_cycle/FullCycleCreators.py:107 | `\*/[^\n]` is replaced by `*/\n`, so the character after the closer is replaced by the newline | `/*c*/int x;` becomes `/*c*/\nnt x;`, and the declaration is read as type `nt` | insert a newline after the closer and keep the character, as the line's own comment says | not executed | CommentNormalizer.BreakAfterCloseAsWritten (with CommentNormalizer.BreakAfterCloseDrops) | CommentNormalizer.BreakAfterClose (with CommentNormalizer.BreakAfterCloseBreaks and CommentNormalizer.BreakAfterCloseKeeps), used by SelectionReader.ReadSelectionIntended |
