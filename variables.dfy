/** The generator's `Variable` record and the sanitising of its name into a C++ name. */
module Variables {
  import opened Text

  /** The punctuation class `[ :.,;/|`'"()[]{}<>~?!@#$%^&*+=-]` whose members are
      replaced by `_`. Backslash, tab, newline and the other control characters are
      not in it. */
  predicate IsPunct(c: char) {
    c in {' ', ':', '.', ',', ';', '/', '|', '`', '\'', '"', '(', ')', '[', ']', '{', '}',
          '<', '>', '~', '?', '!', '@', '#', '$', '%', '^', '&', '*', '+', '=', '-'}
  }

  /** The name with every punctuation character replaced by `_`. */
  function Sanitize(name: string): (r: string)
    ensures |r| == |name|
    ensures forall i :: 0 <= i < |name| ==> r[i] == (if IsPunct(name[i]) then '_' else name[i])
  {
    if name == [] then [] else [if IsPunct(name[0]) then '_' else name[0]] + Sanitize(name[1..])
  }

  /** One variable of the cycle: `commented` is the line-comment marker or empty,
      `pointer` is `*` or empty. The C++ name `CName()` is derived from `name`. */
  datatype Variable = Variable(name: string, typename: string, commented: string, pointer: string)
  {
    function CName(): string { Sanitize(name) }
  }

  /** A sanitised name holds no punctuation character. */
  lemma SanitizeRemovesPunct(name: string)
    ensures forall i :: 0 <= i < |Sanitize(name)| ==> !IsPunct(Sanitize(name)[i])
  {
  }

  /** Sanitising is idempotent. */
  lemma SanitizeIdempotent(name: string)
    ensures Sanitize(Sanitize(name)) == Sanitize(name)
  {
    var once := Sanitize(name);
    assert forall i :: 0 <= i < |once| ==> Sanitize(once)[i] == once[i];
  }

  /** Names that already are C++ identifiers keep their name as C++ name. */
  lemma SanitizeIdentifier(name: string)
    requires IsIdentifier(name)
    ensures Sanitize(name) == name
  {
    assert forall i :: 0 <= i < |name| ==> !IsPunct(name[i]);
  }

  /** The sanitised name is not always an identifier: backslash is kept and a leading digit too. */
  lemma SanitizeKeepsBackslash()
    ensures Sanitize("a\\b") == "a\\b" && !IsIdentifier(Sanitize("a\\b"))
    ensures !IsIdentifier(Sanitize("1x"))
  {
    assert Sanitize("a\\b")[1] == '\\';
    assert Sanitize("1x")[0] == '1';
  }
}
