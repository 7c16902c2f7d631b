/** Classification of type names as STL-like containers: the search for
    `(vector|list|set|map)\s*<.*>` anywhere in the type name. */
module TypeClassifier {
  import opened Text

  /** The four container families the classifier recognises. */
  const Families: seq<string> := ["vector", "list", "set", "map"]

  /** Reference definition: family keyword `f` at `i`, optional whitespace up to the
      `<` at `j`, and a `>` at `k` with no newline in between. */
  ghost predicate ContainerAt(t: string, f: string, i: int, j: int, k: int) {
    && f in Families
    && OccursAt(t, f, i)
    && i + |f| <= j < k < |t|
    && (forall p :: i + |f| <= p < j ==> IsSpace(t[p]))
    && t[j] == '<' && t[k] == '>'
    && (forall p :: j < p < k ==> t[p] != '\n')
  }

  ghost predicate StlLikeSpec(t: string) {
    exists f, i, j, k :: ContainerAt(t, f, i, j, k)
  }

  /** Length of the family keyword that starts at `i`, 0 when none does. At most one can,
      since the four keywords start with different letters. */
  function KeywordLength(t: string, i: nat): (n: nat)
    ensures n > 0 ==> exists f :: f in Families && |f| == n && OccursAt(t, f, i)
    ensures n == 0 ==> forall f :: f in Families ==> !OccursAt(t, f, i)
  {
    if OccursAt(t, "vector", i) then 6
    else if OccursAt(t, "list", i) then 4
    else if OccursAt(t, "set", i) then 3
    else if OccursAt(t, "map", i) then 3
    else 0
  }

  /** `.*>` from `p`: a `>` later on the same line. */
  predicate CloseOnLine(t: string, p: nat)
    decreases |t| - p
  {
    p < |t| && t[p] != '\n' && (t[p] == '>' || CloseOnLine(t, p + 1))
  }

  lemma {:induction false} CloseOnLineSound(t: string, p: nat)
    requires CloseOnLine(t, p)
    ensures exists k :: p <= k < |t| && t[k] == '>' && forall q :: p <= q < k ==> t[q] != '\n'
    decreases |t| - p
  {
    if t[p] != '>' {
      CloseOnLineSound(t, p + 1);
      var k :| p + 1 <= k < |t| && t[k] == '>' && forall q :: p + 1 <= q < k ==> t[q] != '\n';
      assert forall q :: p <= q < k ==> t[q] != '\n';
    }
  }

  lemma {:induction false} CloseOnLineComplete(t: string, p: nat, k: nat)
    requires p <= k < |t| && t[k] == '>' && forall q :: p <= q < k ==> t[q] != '\n'
    ensures CloseOnLine(t, p)
    decreases k - p
  {
    if p < k {
      CloseOnLineComplete(t, p + 1, k);
    }
  }

  /** The regular expression matches with its keyword at `i`. */
  predicate MatchesAt(t: string, i: nat)
    requires i <= |t|
  {
    var n := KeywordLength(t, i);
    n > 0 && (var j := SkipSpaces(t, i + n); j < |t| && t[j] == '<' && CloseOnLine(t, j + 1))
  }

  /** `re.search`, used for its truth value: some start position matches. */
  predicate Search(t: string) {
    exists i: nat :: i < |t| && MatchesAt(t, i)
  }

  /** `Is_stl_like`: `"*"` for container types, `""` for everything else. */
  function IsStlLike(t: string): (r: string)
  {
    if Search(t) then "*" else ""
  }

  lemma MatchesAtSound(t: string, i: nat)
    requires i <= |t| && MatchesAt(t, i)
    ensures StlLikeSpec(t)
  {
    var n := KeywordLength(t, i);
    var f :| f in Families && |f| == n && OccursAt(t, f, i);
    var j := SkipSpaces(t, i + n);
    CloseOnLineSound(t, j + 1);
    var k :| j + 1 <= k < |t| && t[k] == '>' && forall q :: j + 1 <= q < k ==> t[q] != '\n';
    assert ContainerAt(t, f, i, j, k);
  }

  lemma ContainerAtMatches(t: string, f: string, i: nat, j: int, k: int)
    requires ContainerAt(t, f, i, j, k)
    ensures MatchesAt(t, i)
  {
    var n := KeywordLength(t, i);
    assert n > 0;
    var g :| g in Families && |g| == n && OccursAt(t, g, i);
    assert t[i] == f[0] && t[i] == g[0];
    assert n == |f|;
    SkipSpacesTo(t, i + n, j);
    CloseOnLineComplete(t, j + 1, k);
  }

  /** `Is_stl_like(t)` is `"*"` exactly when the reference definition holds, `""` otherwise. */
  lemma IsStlLikeCorrect(t: string)
    ensures IsStlLike(t) == "*" <==> StlLikeSpec(t)
    ensures IsStlLike(t) == "" <==> !StlLikeSpec(t)
  {
    if Search(t) {
      var i: nat :| i < |t| && MatchesAt(t, i);
      MatchesAtSound(t, i);
    } else if StlLikeSpec(t) {
      var f, i, j, k :| ContainerAt(t, f, i, j, k);
      ContainerAtMatches(t, f, i, j, k);
    }
  }

  /** Containers are recognised whatever precedes the keyword and with blanks before `<`. */
  lemma VectorExample()
    ensures IsStlLike("std::vector<int>") == "*"
  {
    var t := "std::vector<int>";
    assert t[5..11] == "vector";
    assert ContainerAt(t, "vector", 5, 11, 15);
    IsStlLikeCorrect(t);
  }

  lemma MapExample()
    ensures IsStlLike("map <int, double>") == "*"
  {
    var t := "map <int, double>";
    assert t[0..3] == "map";
    assert ContainerAt(t, "map", 0, 4, 16);
    IsStlLikeCorrect(t);
  }

  /** The search is not anchored: a keyword inside a longer name counts too. */
  lemma BitsetExample()
    ensures IsStlLike("bitset<8>") == "*"
  {
    var t := "bitset<8>";
    assert t[3..6] == "set";
    assert ContainerAt(t, "set", 3, 6, 8);
    IsStlLikeCorrect(t);
  }

  lemma MultimapExample()
    ensures IsStlLike("multimap<a,b>") == "*"
  {
    var t := "multimap<a,b>";
    assert t[5..8] == "map";
    assert ContainerAt(t, "map", 5, 8, 12);
    IsStlLikeCorrect(t);
  }

  /** Plain and user types are not containers. */
  lemma DoubleExample()
    ensures IsStlLike("double") == ""
  {
    var t := "double";
    assert forall p :: 0 <= p < |t| ==> t[p] in "double";
    NoContainer(t);
  }

  lemma UIntExample()
    ensures IsStlLike("UInt_t") == ""
  {
    var t := "UInt_t";
    assert forall p :: 0 <= p < |t| ==> t[p] in "UInt_t";
    NoContainer(t);
  }

  /** A type name without `<` is never a container. */
  lemma NoContainer(t: string)
    requires forall p :: 0 <= p < |t| ==> t[p] != '<'
    ensures IsStlLike(t) == ""
  {
    IsStlLikeCorrect(t);
  }
}
