/** The include path that `CreateSource` writes into the new source file: the header's
    path relative to the source file's directory when the two directories share a
    prefix, and the header's absolute path otherwise. Paths are POSIX paths with `/`
    as separator; `os.path.abspath` takes the working directory as a parameter. */
module IncludePath {
  import opened Text
  import opened Substitution

  /** Index just after the last `/` of `p`, or 0 when there is none. */
  function SlashEnd(p: string): (i: nat)
    ensures i <= |p|
    ensures i > 0 ==> p[i - 1] == '/'
    ensures forall j :: i <= j < |p| ==> p[j] != '/'
  {
    if p == [] then 0
    else if p[|p| - 1] == '/' then |p|
    else SlashEnd(p[..|p| - 1])
  }

  predicate AllSlashes(s: string) { forall j :: 0 <= j < |s| ==> s[j] == '/' }

  /** `s.rstrip('/')` */
  function StripSlashes(s: string): (r: string)
    ensures r <= s
    ensures r == [] || r[|r| - 1] != '/'
    ensures forall j :: |r| <= j < |s| ==> s[j] == '/'
  {
    if s == [] || s[|s| - 1] != '/' then s else StripSlashes(s[..|s| - 1])
  }

  /** `os.path.dirname`: everything before the last `/`, without trailing slashes
      unless it is made of slashes only. */
  function DirName(p: string): (d: string)
    ensures d <= p
  {
    var head := p[..SlashEnd(p)];
    if head != [] && !AllSlashes(head) then StripSlashes(head) else head
  }

  /** `os.path.basename`: everything after the last `/`. */
  function BaseName(p: string): (b: string)
    ensures forall j :: 0 <= j < |b| ==> b[j] != '/'
    ensures |b| <= |p| && p == p[..|p| - |b|] + b
  {
    p[SlashEnd(p)..]
  }

  // ---------------------------------------------------------------------------
  // `os.path.abspath`: the path joined to the working directory and normalised.

  predicate NoSlash(c: string) { !Contains(c, "/") }

  lemma NoSlashChars(c: string)
    ensures NoSlash(c) <==> forall i :: 0 <= i < |c| ==> c[i] != '/'
  {
    if !NoSlash(c) {
      var i :| 0 <= i <= |c| - 1 && OccursAt(c, "/", i);
      assert c[i] == c[i..i + 1][0];
    } else {
      forall i | 0 <= i < |c|
        ensures c[i] != '/'
      {
        assert !OccursAt(c, "/", i);
        assert c[i..i + 1] == [c[i]];
      }
    }
  }

  /** `n` slashes. */
  function Slashes(n: nat): (r: string)
    ensures |r| == n && forall i :: 0 <= i < n ==> r[i] == '/'
  {
    if n == 0 then [] else "/" + Slashes(n - 1)
  }

  /** Path components as `normpath` leaves them: none is empty, `.` or holds a `/`, and
      `..` occurs only in a relative path, at its head. */
  predicate Resolved(cs: seq<string>, rooted: bool) {
    && (forall k :: 0 <= k < |cs| ==> cs[k] != "" && cs[k] != "." && NoSlash(cs[k]))
    && (forall k :: 0 <= k < |cs| && cs[k] == ".." ==> !rooted && forall j :: 0 <= j < k ==> cs[j] == "..")
  }

  /** One turn of `normpath`'s loop over the components: empty and `.` components are
      dropped, `..` removes the component before it, except at the root of an absolute
      path (where it is dropped) and after another `..` or at the head of a relative
      path (where it is kept). */
  function ResolveStep(acc: seq<string>, c: string, rooted: bool): (r: seq<string>)
    requires Resolved(acc, rooted) && NoSlash(c)
    ensures Resolved(r, rooted)
  {
    if c == "" || c == "." then acc
    else if c != ".." || (!rooted && acc == []) || (acc != [] && acc[|acc| - 1] == "..") then
      acc + [c]
    else if acc != [] then acc[..|acc| - 1]
    else acc
  }

  function Resolve(comps: seq<string>, rooted: bool, acc: seq<string>): (r: seq<string>)
    requires Resolved(acc, rooted)
    requires forall k :: 0 <= k < |comps| ==> NoSlash(comps[k])
    ensures Resolved(r, rooted)
    decreases |comps|
  {
    if comps == [] then acc
    else Resolve(comps[1..], rooted, ResolveStep(acc, comps[0], rooted))
  }

  /** The leading slashes `normpath` keeps: two exactly when the path starts with exactly
      two, else one for an absolute path, none for a relative one. */
  function Initial(p: string): (n: nat)
    ensures n <= 2
  {
    if p == [] || p[0] != '/' then 0
    else if "//" <= p && !("///" <= p) then 2
    else 1
  }

  function JoinComponents(cs: seq<string>): string {
    if cs == [] then [] else Join(cs, "/")
  }

  /** The normalised path from its leading slashes and its resolved components; `.`
      when both are empty. */
  function Assemble(n: nat, cs: seq<string>): (r: string)
    ensures r != []
  {
    var path := Slashes(n) + JoinComponents(cs);
    if path == [] then "." else path
  }

  /** `os.path.normpath`. */
  function NormPath(p: string): (r: string)
    ensures r != []
  {
    Assemble(Initial(p), Resolve(Split(p, "/"), Initial(p) > 0, []))
  }

  /** `os.path.join(cwd, p)` */
  function JoinPath(cwd: string, p: string): string {
    if p != [] && p[0] == '/' then p
    else if cwd == [] || cwd[|cwd| - 1] == '/' then cwd + p
    else cwd + "/" + p
  }

  /** `os.path.abspath` for the working directory `cwd`. */
  function AbsPath(cwd: string, p: string): (a: string)
    ensures p != [] && p[0] == '/' ==> a == NormPath(p)
    ensures (p != [] && p[0] == '/') || (cwd != [] && cwd[0] == '/') ==> a != [] && a[0] == '/'
    ensures NormPath(a) == a
  {
    var j := JoinPath(cwd, p);
    assert cwd != [] && cwd[0] == '/' ==> j[0] == '/';
    NormPathClean(j);
    NormPathIdempotent(j);
    NormPath(j)
  }

  /** Components joined with `/` start and end with a component character and never
      hold two slashes in a row. */
  lemma {:induction false} JoinShape(cs: seq<string>)
    requires cs != [] && forall k :: 0 <= k < |cs| ==> cs[k] != "" && NoSlash(cs[k])
    ensures var j := Join(cs, "/");
            |j| > 0 && j[0] != '/' && j[|j| - 1] != '/' &&
            forall i :: 0 <= i < |j| - 1 ==> !(j[i] == '/' && j[i + 1] == '/')
    decreases |cs|
  {
    NoSlashChars(cs[0]);
    if |cs| > 1 {
      var c, rest := cs[0], Join(cs[1..], "/");
      JoinShape(cs[1..]);
      var j := c + "/" + rest;
      assert Join(cs, "/") == j;
      forall i | 0 <= i < |j| - 1
        ensures !(j[i] == '/' && j[i + 1] == '/')
      {
        if i < |c| {
          assert j[i] == c[i];
        } else if i == |c| {
          assert j[i + 1] == rest[0];
        } else {
          assert j[i] == rest[i - |c| - 1] && j[i + 1] == rest[i - |c|];
        }
      }
      assert j[0] == c[0];
      assert j[|j| - 1] == rest[|rest| - 1];
    }
  }

  /** A normalised path is absolute exactly when the input is, holds no two slashes in a
      row after its leading ones, and ends in a slash only when it is the root. */
  lemma NormPathClean(p: string)
    ensures var r := NormPath(p);
            (r[0] == '/' <==> p != [] && p[0] == '/') &&
            (forall i :: 1 <= i < |r| - 1 ==> !(r[i] == '/' && r[i + 1] == '/')) &&
            (r[|r| - 1] == '/' ==> forall i :: 0 <= i < |r| ==> r[i] == '/')
  {
    var n := Initial(p);
    assert n > 0 <==> p != [] && p[0] == '/';
    AssembleClean(n, Resolve(Split(p, "/"), n > 0, []));
  }

  lemma AssembleClean(n: nat, cs: seq<string>)
    requires Resolved(cs, n > 0)
    ensures var r := Assemble(n, cs);
            (r[0] == '/' <==> n > 0) &&
            (forall i :: 1 <= i < |r| - 1 && n <= 2 ==> !(r[i] == '/' && r[i + 1] == '/')) &&
            (r[|r| - 1] == '/' ==> forall i :: 0 <= i < |r| ==> r[i] == '/')
  {
    var r := Assemble(n, cs);
    if cs == [] {
      assert Slashes(n) + [] == Slashes(n);
      assert r == (if n == 0 then "." else Slashes(n));
    } else {
      JoinShape(cs);
      var j := Join(cs, "/");
      assert r == Slashes(n) + j;
      SlashesThenName(n, j);
    }
  }

  /** Leading slashes followed by a joined path. */
  lemma SlashesThenName(n: nat, j: string)
    requires |j| > 0 && j[0] != '/' && j[|j| - 1] != '/'
    requires forall i :: 0 <= i < |j| - 1 ==> !(j[i] == '/' && j[i + 1] == '/')
    ensures var r := Slashes(n) + j;
            (r[0] == '/' <==> n > 0) &&
            (forall i :: 1 <= i < |r| - 1 && n <= i + 1 ==> !(r[i] == '/' && r[i + 1] == '/')) &&
            r[|r| - 1] != '/'
  {
    var r := Slashes(n) + j;
    forall i | 1 <= i < |r| - 1 && n <= i + 1
      ensures !(r[i] == '/' && r[i + 1] == '/')
    {
      if i + 1 == n {
        assert r[i + 1] == j[0];
      } else {
        assert r[i] == j[i - n] && r[i + 1] == j[i + 1 - n];
      }
    }
    assert r[|r| - 1] == j[|j| - 1];
    assert r[0] == (if n > 0 then '/' else j[0]);
  }

  // Normalising twice is normalising once.

  lemma SplitSlashHead(x: string)
    ensures Split("/" + x, "/") == [[]] + Split(x, "/")
  {
    assert ("/" + x)[1..] == x;
  }

  lemma {:induction false} SplitComponent(c: string, rest: string)
    requires NoSlash(c)
    ensures Split(c + "/" + rest, "/") == [c] + Split(rest, "/")
    decreases |c|
  {
    if c == [] {
      assert c + "/" + rest == "/" + rest;
      SplitSlashHead(rest);
    } else {
      NoSlashChars(c);
      NoSlashChars(c[1..]);
      var s := c + "/" + rest;
      assert s[0] == c[0] && s[1..] == c[1..] + "/" + rest;
      SplitComponent(c[1..], rest);
      assert !("/" <= s);
      assert [c[0]] + c[1..] == c;
    }
  }

  lemma {:induction false} SplitJoin(cs: seq<string>)
    requires cs != [] && forall k :: 0 <= k < |cs| ==> NoSlash(cs[k])
    ensures Split(Join(cs, "/"), "/") == cs
    decreases |cs|
  {
    if |cs| == 1 {
      SplitAbsent(cs[0], "/");
    } else {
      SplitJoin(cs[1..]);
      SplitComponent(cs[0], Join(cs[1..], "/"));
      assert [cs[0]] + cs[1..] == cs;
    }
  }

  /** Resolving resolved components from the start gives them back. */
  lemma {:induction false} ResolveFixed(cs: seq<string>, rooted: bool, k: nat)
    requires Resolved(cs, rooted) && k <= |cs|
    ensures Resolved(cs[..k], rooted)
    ensures Resolve(cs[k..], rooted, cs[..k]) == cs
    decreases |cs| - k
  {
    assert Resolved(cs[..k], rooted) by {
      forall i | 0 <= i < k && cs[..k][i] == ".."
        ensures !rooted && forall j :: 0 <= j < i ==> cs[..k][j] == ".."
      {
        assert cs[i] == "..";
      }
    }
    if k < |cs| {
      ResolveFixed(cs, rooted, k + 1);
      assert cs[k..][1..] == cs[k + 1..];
      assert ResolveStep(cs[..k], cs[k], rooted) == cs[..k + 1] by {
        assert cs[..k + 1] == cs[..k] + [cs[k]];
        if cs[k] == ".." && k > 0 {
          assert cs[..k][k - 1] == cs[k - 1];
        }
      }
    } else {
      assert cs[..k] == cs;
    }
  }

  lemma ResolveJoined(cs: seq<string>, rooted: bool)
    requires Resolved(cs, rooted)
    ensures Resolve(Split(JoinComponents(cs), "/"), rooted, []) == cs
  {
    if cs == [] {
      assert Split([], "/") == [[]];
    } else {
      SplitJoin(cs);
      ResolveFixed(cs, rooted, 0);
      assert cs[0..] == cs && cs[..0] == [];
    }
  }

  /** Leading slashes only add empty components, which are dropped. */
  lemma {:induction false} ResolveSlashes(n: nat, x: string, rooted: bool, acc: seq<string>)
    requires Resolved(acc, rooted)
    ensures Resolve(Split(Slashes(n) + x, "/"), rooted, acc) == Resolve(Split(x, "/"), rooted, acc)
    decreases n
  {
    if n > 0 {
      assert Slashes(n) + x == "/" + (Slashes(n - 1) + x);
      SplitSlashHead(Slashes(n - 1) + x);
      var ps := Split(Slashes(n) + x, "/");
      assert ps[1..] == Split(Slashes(n - 1) + x, "/");
      ResolveSlashes(n - 1, x, rooted, acc);
    } else {
      assert Slashes(n) + x == x;
    }
  }

  lemma InitialOf(n: nat, j: string)
    requires n <= 2 && (j == [] || j[0] != '/') && (n > 0 || j != [])
    ensures Initial(Slashes(n) + j) == n
  {
    var r := Slashes(n) + j;
    if n == 0 {
      assert r == j;
    } else if n == 1 {
      assert r[0] == '/';
      assert !("//" <= r) by {
        if |r| >= 2 {
          assert r[1] == j[0];
        }
      }
    } else {
      assert r[..2] == "//";
      assert !("///" <= r) by {
        if |r| >= 3 {
          assert r[2] == j[0];
        }
      }
    }
  }

  /** Normalising a normalised path changes nothing. */
  lemma NormPathIdempotent(p: string)
    ensures NormPath(NormPath(p)) == NormPath(p)
  {
    var n := Initial(p);
    var cs := Resolve(Split(p, "/"), n > 0, []);
    var j := JoinComponents(cs);
    var path := Slashes(n) + j;
    assert NormPath(p) == Assemble(n, cs);
    if path == [] {
      assert NormPath(p) == ".";
      NoSlashChars(".");
      SplitAbsent(".", "/");
      assert Resolve(["."], false, []) == [];
    } else {
      assert NormPath(p) == path;
      if cs != [] {
        JoinShape(cs);
      }
      InitialOf(n, j);
      ResolveSlashes(n, j, n > 0, []);
      ResolveJoined(cs, n > 0);
    }
  }

  /** `dirname(p).split(os.sep)` */
  function Segments(p: string): (ss: seq<string>)
    ensures |ss| >= 1
  {
    Split(DirName(p), "/")
  }

  /** Length of the longest common prefix of two segment lists. */
  function CommonLength(a: seq<string>, b: seq<string>): (k: nat)
    ensures k <= |a| && k <= |b|
    ensures a[..k] == b[..k]
    ensures k == |a| || k == |b| || a[k] != b[k]
  {
    if a == [] || b == [] || a[0] != b[0] then 0
    else
      var k := CommonLength(a[1..], b[1..]);
      assert a[..k + 1] == [a[0]] + a[1..][..k];
      assert b[..k + 1] == [b[0]] + b[1..][..k];
      k + 1
  }

  /** The loop that advances `index` while the segments agree. */
  method CommonPrefixLength(head: seq<string>, src: seq<string>) returns (index: nat)
    ensures index <= |head| && index <= |src|
    ensures head[..index] == src[..index]
    ensures index == |head| || index == |src| || head[index] != src[index]
  {
    index := 0;
    while index < |head| && index < |src| && head[index] == src[index]
      invariant index <= |head| && index <= |src|
      invariant head[..index] == src[..index]
    {
      assert head[..index + 1] == head[..index] + [head[index]];
      assert src[..index + 1] == src[..index] + [src[index]];
      index := index + 1;
    }
  }

  /** The common prefix length is the only length with those three properties. */
  lemma CommonLengthUnique(a: seq<string>, b: seq<string>, k: nat)
    requires k <= |a| && k <= |b| && a[..k] == b[..k]
    requires k == |a| || k == |b| || a[k] != b[k]
    ensures CommonLength(a, b) == k
  {
    var c := CommonLength(a, b);
    forall j | 0 <= j < k
      ensures a[j] == b[j]
    {
      assert a[..k][j] == b[..k][j];
    }
    forall j | 0 <= j < c
      ensures a[j] == b[j]
    {
      assert a[..c][j] == b[..c][j];
    }
  }

  /** `n` times `..` */
  function Ups(n: nat): (r: seq<string>)
    ensures |r| == n && forall j :: 0 <= j < n ==> r[j] == ".."
  {
    if n == 0 then [] else [".."] + Ups(n - 1)
  }

  /** The segments of the include path from the source directory `sp` to the file
      `base` in the header directory `hp`: one `..` per source directory below the
      common prefix, then the header directories below it, then the file. */
  function RelativePath(hp: seq<string>, sp: seq<string>, base: string): (steps: seq<string>)
  {
    var k := CommonLength(hp, sp);
    Ups(|sp| - k) + hp[k..] + [base]
  }

  /** The steps from the directory of the absolute source path to the header whose
      absolute path is `header` and whose file name is `name`. */
  function RelativeSteps(header: string, source: string, name: string): (steps: seq<string>)
  {
    RelativePath(Segments(header), Segments(source), name)
  }

  /** The include path written into the source file for the header, from the absolute
      paths of header and source and the file name of the header as it was given. */
  function Include(header: string, source: string, name: string): (inc: string)
    ensures CommonLength(Segments(header), Segments(source)) == 0 ==> inc == header
    ensures CommonLength(Segments(header), Segments(source)) > 0 ==>
              inc == Join(RelativeSteps(header, source, name), "/")
  {
    if CommonLength(Segments(header), Segments(source)) == 0 then header
    else Join(RelativeSteps(header, source, name), "/")
  }

  /** The include path as the generator computes it, with the loop over the segments. */
  method ComputeInclude(header: string, source: string, name: string) returns (inc: string)
    ensures inc == Include(header, source, name)
  {
    var headpath := Segments(header);
    var srcpath := Segments(source);
    var index := CommonPrefixLength(headpath, srcpath);
    CommonLengthUnique(headpath, srcpath, index);
    if index == 0 {
      inc := header;
    } else {
      var path := Ups(|srcpath| - index) + headpath[index..] + [name];
      inc := Join(path, "/");
    }
  }

  /** The include path for the header and source names as given, taken from the
      working directory `cwd`. */
  function IncludeFor(cwd: string, header: string, source: string): string {
    Include(AbsPath(cwd, header), AbsPath(cwd, source), BaseName(header))
  }

  method IncludeFrom(cwd: string, header: string, source: string) returns (inc: string)
    ensures inc == IncludeFor(cwd, header, source)
  {
    inc := ComputeInclude(AbsPath(cwd, header), AbsPath(cwd, source), BaseName(header));
  }

  // ---------------------------------------------------------------------------
  // Worked cases of `abspath` and of the include path, for any plain names.

  /** A file or directory name: not empty, not `.` or `..`, without a slash. */
  predicate Plain(c: string) { c != [] && c != "." && c != ".." && NoSlash(c) }

  /** The root followed by one name is already normal. */
  lemma NormRooted(c: string)
    requires Plain(c)
    ensures NormPath("/" + c) == "/" + c
  {
    NoSlashChars(c);
    var raw := ["", c];
    JoinAt(raw, 0);
    JoinAt(raw, 1);
    ResolveAt(raw, 0, true, []);
    ResolveAt(raw, 1, true, []);
    assert raw[0..] == raw && raw[2..] == [];
    NormJoined(raw, [c]);
  }

  /** With the root as working directory a relative name gets one leading slash, not
      two: `os.path.join` adds no separator after a directory that ends in one. */
  lemma AbsPathAtRoot(c: string)
    requires Plain(c)
    ensures AbsPath("/", c) == "/" + c
  {
    NoSlashChars(c);
    assert JoinPath("/", c) == "/" + c;
    NormRooted(c);
  }

  /** A header given by its absolute path in the root directory is included by its
      name from a source named relative to the root directory. */
  lemma RootIncludeExample(h: string, s: string)
    requires Plain(h) && Plain(s)
    ensures Include(AbsPath("/", "/" + h), AbsPath("/", s), BaseName("/" + h)) == h
  {
    RootHeader(h);
    AbsPathAtRoot(s);
    RootInclude(h, s);
  }

  lemma RootHeader(h: string)
    requires Plain(h)
    ensures AbsPath("/", "/" + h) == "/" + h && BaseName("/" + h) == h
  {
    NormRooted(h);
    assert JoinPath("/", "/" + h) == "/" + h;
    SlashEndAfter([], h);
    assert [] + "/" + h == "/" + h;
    assert ("/" + h)[1..] == h;
  }

  lemma RootInclude(h: string, s: string)
    requires Plain(h) && Plain(s)
    ensures Include("/" + h, "/" + s, h) == h
  {
    SegmentsAtRoot(h);
    SegmentsAtRoot(s);
    CommonLengthUnique(["", ""], ["", ""], 2);
    assert RelativePath(["", ""], ["", ""], h) == [h];
  }

  /** A doubled slash in the header's name is collapsed before the directories are
      compared: with the working directory `/w`, the header `a//b/x` seen from the
      source `d/y` is `../a/b/x`. */
  lemma RepeatedSlashExample(w: string, a: string, b: string, x: string, d: string, y: string)
    requires Plain(w) && Plain(a) && Plain(b) && Plain(x) && Plain(d) && Plain(y) && a != d
    ensures var cwd := Join(["", w], "/");
            var header := Join([a, "", b, x], "/");
            Include(AbsPath(cwd, header), AbsPath(cwd, Join([d, y], "/")), BaseName(header))
            == Join(["..", a, b, x], "/")
  {
    HeaderAbs(w, a, b, x);
    SourceAbs(w, d, y);
    HeaderBaseName(a, b, x);
    HeaderSegments(w, a, b, x);
    SourceSegments(w, d, y);
    SiblingSteps(w, a, b, x, d);
  }

  /** Joining with `/` distributes over concatenation. */
  lemma {:induction false} JoinAppend(ps: seq<string>, qs: seq<string>)
    requires |ps| >= 1 && |qs| >= 1
    ensures Join(ps + qs, "/") == Join(ps, "/") + "/" + Join(qs, "/")
    decreases |ps|
  {
    assert (ps + qs)[0] == ps[0];
    assert (ps + qs)[1..] == ps[1..] + qs;
    if |ps| > 1 {
      JoinAppend(ps[1..], qs);
      var h, t, u := ps[0], Join(ps[1..], "/"), Join(qs, "/");
      assert h + "/" + (t + "/" + u) == h + "/" + t + "/" + u;
    }
  }

  /** A joined path that ends in a name ends in a character other than a slash. */
  lemma JoinEndsInName(ps: seq<string>)
    requires |ps| >= 1 && ps[|ps| - 1] != [] && NoSlash(ps[|ps| - 1])
    ensures var j := Join(ps, "/"); j != [] && j[|j| - 1] == ps[|ps| - 1][|ps[|ps| - 1]| - 1]
  {
    var last := ps[|ps| - 1];
    if |ps| > 1 {
      JoinAppend(ps[..|ps| - 1], [last]);
      assert ps[..|ps| - 1] + [last] == ps;
    }
  }

  lemma HeaderAbs(w: string, a: string, b: string, x: string)
    requires Plain(w) && Plain(a) && Plain(b) && Plain(x)
    ensures AbsPath(Join(["", w], "/"), Join([a, "", b, x], "/")) == Join(["", w, a, b, x], "/")
  {
    NoSlashChars(w);
    NoSlashChars(a);
    var cwd, p := Join(["", w], "/"), Join([a, "", b, x], "/");
    JoinAt([a, "", b, x], 0);
    JoinEndsInName(["", w]);
    assert [a, "", b, x][0..] == [a, "", b, x];
    assert p[0] == a[0];
    JoinAppend(["", w], [a, "", b, x]);
    assert ["", w] + [a, "", b, x] == ["", w, a, "", b, x];
    assert JoinPath(cwd, p) == Join(["", w, a, "", b, x], "/");
    HeaderNorm(w, a, b, x);
  }

  lemma HeaderNorm(w: string, a: string, b: string, x: string)
    requires Plain(w) && Plain(a) && Plain(b) && Plain(x)
    ensures NormPath(Join(["", w, a, "", b, x], "/")) == Join(["", w, a, b, x], "/")
  {
    NoSlashChars(w);
    HeaderResolve(w, a, b, x);
    NormJoined(["", w, a, "", b, x], [w, a, b, x]);
    var r := ["", w, a, b, x];
    JoinAt(r, 0);
    assert r[0..] == r && r[1..] == [w, a, b, x];
  }

  lemma HeaderBaseName(a: string, b: string, x: string)
    requires Plain(x)
    ensures BaseName(Join([a, "", b, x], "/")) == x
  {
    JoinAppend([a, "", b], [x]);
    assert [a, "", b] + [x] == [a, "", b, x];
    SlashEndAfter(Join([a, "", b], "/"), x);
  }

  lemma HeaderResolve(w: string, a: string, b: string, x: string)
    requires Plain(w) && Plain(a) && Plain(b) && Plain(x)
    ensures forall k :: 0 <= k < 6 ==> NoSlash(["", w, a, "", b, x][k])
    ensures Resolve(["", w, a, "", b, x], true, []) == [w, a, b, x]
  {
    var raw := ["", w, a, "", b, x];
    NoSlashChars("");
    PlainsResolved(w, a, b, x);
    ResolveAt(raw, 0, true, []);
    ResolveAt(raw, 1, true, []);
    ResolveAt(raw, 2, true, [w]);
    ResolveAt(raw, 3, true, [w, a]);
    ResolveAt(raw, 4, true, [w, a]);
    ResolveAt(raw, 5, true, [w, a, b]);
    assert raw[0..] == raw && raw[6..] == [];
  }

  /** Names kept by `normpath` in an absolute path. */
  lemma PlainsResolved(w: string, a: string, b: string, x: string)
    requires Plain(w) && Plain(a) && Plain(b) && Plain(x)
    ensures Resolved([], true) && Resolved([w], true) && Resolved([w, a], true)
    ensures Resolved([w, a, b], true) && Resolved([w, a, b, x], true)
    ensures ResolveStep([], "", true) == [] && ResolveStep([], w, true) == [w]
    ensures ResolveStep([w], a, true) == [w, a] && ResolveStep([w, a], "", true) == [w, a]
    ensures ResolveStep([w, a], b, true) == [w, a, b] && ResolveStep([w, a, b], x, true) == [w, a, b, x]
  {
  }

  lemma SourceAbs(w: string, d: string, y: string)
    requires Plain(w) && Plain(d) && Plain(y)
    ensures AbsPath(Join(["", w], "/"), Join([d, y], "/")) == Join(["", w, d, y], "/")
  {
    NoSlashChars(w);
    NoSlashChars(d);
    var cwd, p := Join(["", w], "/"), Join([d, y], "/");
    JoinAt([d, y], 0);
    JoinEndsInName(["", w]);
    assert [d, y][0..] == [d, y];
    assert p[0] == d[0];
    JoinAppend(["", w], [d, y]);
    assert ["", w] + [d, y] == ["", w, d, y];
    assert JoinPath(cwd, p) == Join(["", w, d, y], "/");
    SourceNorm(w, d, y);
  }

  lemma SourceNorm(w: string, d: string, y: string)
    requires Plain(w) && Plain(d) && Plain(y)
    ensures NormPath(Join(["", w, d, y], "/")) == Join(["", w, d, y], "/")
  {
    NoSlashChars(w);
    var raw := ["", w, d, y];
    SourceResolve(w, d, y);
    NormJoined(raw, [w, d, y]);
    JoinAt(raw, 0);
    assert raw[0..] == raw && raw[1..] == [w, d, y];
  }

  lemma SourceResolve(w: string, d: string, y: string)
    requires Plain(w) && Plain(d) && Plain(y)
    ensures forall k :: 0 <= k < 4 ==> NoSlash(["", w, d, y][k])
    ensures Resolve(["", w, d, y], true, []) == [w, d, y]
  {
    var raw := ["", w, d, y];
    NoSlashChars("");
    PlainsResolved(w, d, y, y);
    ResolveAt(raw, 0, true, []);
    ResolveAt(raw, 1, true, []);
    ResolveAt(raw, 2, true, [w]);
    ResolveAt(raw, 3, true, [w, d]);
    assert raw[0..] == raw && raw[4..] == [];
  }

  /** The directories of `j/x` are the components of `j`. */
  lemma SegmentsOf(dirs: seq<string>, x: string)
    requires |dirs| >= 1 && forall k :: 0 <= k < |dirs| ==> NoSlash(dirs[k])
    requires NoSlash(x) && dirs[|dirs| - 1] != []
    ensures Segments(Join(dirs + [x], "/")) == dirs
  {
    var j := Join(dirs, "/");
    JoinEndsInName(dirs);
    NoSlashChars(dirs[|dirs| - 1]);
    JoinAppend(dirs, [x]);
    assert Join([x], "/") == x;
    DirNameAfter(j, x);
    assert DirName(Join(dirs + [x], "/")) == j;
    SplitJoin(dirs);
  }

  lemma HeaderSegments(w: string, a: string, b: string, x: string)
    requires Plain(w) && Plain(a) && Plain(b) && Plain(x)
    ensures Segments(Join(["", w, a, b, x], "/")) == ["", w, a, b]
  {
    NoSlashChars("");
    SegmentsOf(["", w, a, b], x);
    assert ["", w, a, b] + [x] == ["", w, a, b, x];
  }

  lemma SourceSegments(w: string, d: string, y: string)
    requires Plain(w) && Plain(d) && Plain(y)
    ensures Segments(Join(["", w, d, y], "/")) == ["", w, d]
  {
    NoSlashChars("");
    SegmentsOf(["", w, d], y);
    assert ["", w, d] + [y] == ["", w, d, y];
  }

  lemma SiblingSteps(w: string, a: string, b: string, x: string, d: string)
    requires a != d
    ensures CommonLength(["", w, a, b], ["", w, d]) == 2
    ensures RelativePath(["", w, a, b], ["", w, d], x) == ["..", a, b, x]
  {
    var hp, sp := ["", w, a, b], ["", w, d];
    CommonLengthUnique(hp, sp, 2);
  }

  lemma JoinAt(ps: seq<string>, k: nat)
    requires k < |ps|
    ensures Join(ps[k..], "/") == if k + 1 == |ps| then ps[k] else ps[k] + "/" + Join(ps[k + 1..], "/")
  {
    assert ps[k..][1..] == ps[k + 1..];
  }

  lemma ResolveAt(comps: seq<string>, k: nat, rooted: bool, acc: seq<string>)
    requires k < |comps| && Resolved(acc, rooted)
    requires forall j :: 0 <= j < |comps| ==> NoSlash(comps[j])
    ensures Resolve(comps[k..], rooted, acc) == Resolve(comps[k + 1..], rooted, ResolveStep(acc, comps[k], rooted))
  {
    assert comps[k..][1..] == comps[k + 1..];
  }

  lemma SegmentsAtRoot(c: string)
    requires NoSlash(c)
    ensures Segments("/" + c) == ["", ""]
  {
    NoSlashChars(c);
    var p := "/" + c;
    assert SlashEnd(p) == 1 by {
      assert p[0] == '/';
    }
    assert p[..1] == "/" && AllSlashes("/");
    SplitSlashHead([]);
  }

  /** The last slash of `x/last` is the one before `last`. */
  lemma SlashEndAfter(x: string, last: string)
    requires NoSlash(last)
    ensures SlashEnd(x + "/" + last) == |x| + 1
  {
    NoSlashChars(last);
    var p := x + "/" + last;
    var i := SlashEnd(p);
    assert p[|x|] == '/';
  }

  lemma DirNameAfter(x: string, last: string)
    requires x != [] && x[|x| - 1] != '/' && NoSlash(last)
    ensures DirName(x + "/" + last) == x
  {
    var p := x + "/" + last;
    SlashEndAfter(x, last);
    var head := p[..|x| + 1];
    assert head == x + "/";
    assert !AllSlashes(head) by {
      assert head[|x| - 1] == x[|x| - 1];
    }
    var r := StripSlashes(head);
    assert |r| >= |x|;
    assert |r| != |x| + 1;
    assert r == head[..|r|] == x;
  }

  /** The path made of `raw` joined by slashes, with a leading slash not followed by
      another, normalises to the root followed by the resolved components `cs`. */
  lemma NormJoined(raw: seq<string>, cs: seq<string>)
    requires |raw| >= 2 && raw[0] == [] && raw[1] != [] && raw[1][0] != '/'
    requires forall k :: 0 <= k < |raw| ==> NoSlash(raw[k])
    requires Resolve(raw, true, []) == cs && cs != []
    ensures NormPath(Join(raw, "/")) == "/" + Join(cs, "/")
  {
    var p := Join(raw, "/");
    SplitJoin(raw);
    var tail := Join(raw[1..], "/");
    assert p == "/" + tail;
    assert tail[0] == raw[1][0];
    assert Initial(p) == 1 by {
      if |p| >= 2 {
        assert p[1] == tail[0];
      }
    }
    assert Slashes(1) == "/";
  }

  // The four placements of header and source below a working directory `/w`: each in a
  // directory of its own, or directly in `/w`.

  /** Header `a/x` and source `d/y` in sibling directories: `../a/x`. */
  lemma SiblingDirs(w: string, a: string, x: string, d: string, y: string)
    requires Plain(w) && Plain(a) && Plain(x) && Plain(d) && Plain(y) && a != d
    ensures IncludeFor(Join(["", w], "/"), Join([a, x], "/"), Join([d, y], "/")) == Join(["..", a, x], "/")
  {
    SourceAbs(w, a, x);
    SourceAbs(w, d, y);
    InnerBaseName(a, x);
    SiblingInclude(w, a, x, d, y);
  }

  lemma SiblingInclude(w: string, a: string, x: string, d: string, y: string)
    requires Plain(w) && Plain(a) && Plain(x) && Plain(d) && Plain(y) && a != d
    ensures Include(Join(["", w, a, x], "/"), Join(["", w, d, y], "/"), x) == Join(["..", a, x], "/")
  {
    SourceSegments(w, a, x);
    SourceSegments(w, d, y);
    var hp, sp := ["", w, a], ["", w, d];
    CommonLengthUnique(hp, sp, 2);
    assert RelativePath(hp, sp, x) == ["..", a, x];
  }

  /** Header `a/x`, source `y` in `/w` itself: `a/x`. */
  lemma HeaderInDir(w: string, a: string, x: string, y: string)
    requires Plain(w) && Plain(a) && Plain(x) && Plain(y)
    ensures IncludeFor(Join(["", w], "/"), Join([a, x], "/"), y) == Join([a, x], "/")
  {
    SourceAbs(w, a, x);
    AbsName(w, y);
    InnerBaseName(a, x);
    HeaderInDirInclude(w, a, x, y);
  }

  lemma HeaderInDirInclude(w: string, a: string, x: string, y: string)
    requires Plain(w) && Plain(a) && Plain(x) && Plain(y)
    ensures Include(Join(["", w, a, x], "/"), Join(["", w, y], "/"), x) == Join([a, x], "/")
  {
    SourceSegments(w, a, x);
    NameSegments(w, y);
    var hp, sp := ["", w, a], ["", w];
    CommonLengthUnique(hp, sp, 2);
    assert RelativePath(hp, sp, x) == [a, x];
  }

  /** Header `x` in `/w` itself, source `d/y`: `../x`. */
  lemma SourceInDir(w: string, x: string, d: string, y: string)
    requires Plain(w) && Plain(x) && Plain(d) && Plain(y)
    ensures IncludeFor(Join(["", w], "/"), x, Join([d, y], "/")) == Join(["..", x], "/")
  {
    AbsName(w, x);
    SourceAbs(w, d, y);
    PlainBaseName(x);
    SourceInDirInclude(w, x, d, y);
  }

  lemma SourceInDirInclude(w: string, x: string, d: string, y: string)
    requires Plain(w) && Plain(x) && Plain(d) && Plain(y)
    ensures Include(Join(["", w, x], "/"), Join(["", w, d, y], "/"), x) == Join(["..", x], "/")
  {
    NameSegments(w, x);
    SourceSegments(w, d, y);
    var hp, sp := ["", w], ["", w, d];
    CommonLengthUnique(hp, sp, 2);
    assert RelativePath(hp, sp, x) == ["..", x];
  }

  /** Header `x` and source `y` both in `/w`: `x`. */
  lemma SameDir(w: string, x: string, y: string)
    requires Plain(w) && Plain(x) && Plain(y)
    ensures IncludeFor(Join(["", w], "/"), x, y) == x
  {
    AbsName(w, x);
    AbsName(w, y);
    PlainBaseName(x);
    SameDirInclude(w, x, y);
  }

  lemma SameDirInclude(w: string, x: string, y: string)
    requires Plain(w) && Plain(x) && Plain(y)
    ensures Include(Join(["", w, x], "/"), Join(["", w, y], "/"), x) == x
  {
    NameSegments(w, x);
    NameSegments(w, y);
    var hp := ["", w];
    CommonLengthUnique(hp, hp, 2);
    assert RelativePath(hp, hp, x) == [x];
  }

  lemma InnerBaseName(a: string, x: string)
    requires Plain(x)
    ensures BaseName(Join([a, x], "/")) == x
  {
    JoinAt([a, x], 0);
    assert [a, x][0..] == [a, x] && [a, x][1..] == [x];
    SlashEndAfter(a, x);
  }

  lemma PlainBaseName(x: string)
    requires Plain(x)
    ensures BaseName(x) == x
  {
    NoSlashChars(x);
    assert SlashEnd(x) == 0;
  }

  /** A name relative to `/w` is `/w/x`. */
  lemma AbsName(w: string, x: string)
    requires Plain(w) && Plain(x)
    ensures AbsPath(Join(["", w], "/"), x) == Join(["", w, x], "/")
  {
    NoSlashChars(w);
    NoSlashChars(x);
    var cwd := Join(["", w], "/");
    JoinEndsInName(["", w]);
    JoinAppend(["", w], [x]);
    assert ["", w] + [x] == ["", w, x];
    assert JoinPath(cwd, x) == Join(["", w, x], "/");
    NameNorm(w, x);
  }

  lemma NameNorm(w: string, x: string)
    requires Plain(w) && Plain(x)
    ensures NormPath(Join(["", w, x], "/")) == Join(["", w, x], "/")
  {
    NoSlashChars(w);
    var raw := ["", w, x];
    NameResolve(w, x);
    NormJoined(raw, [w, x]);
    JoinAt(raw, 0);
    assert raw[0..] == raw && raw[1..] == [w, x];
  }

  lemma NameResolve(w: string, x: string)
    requires Plain(w) && Plain(x)
    ensures forall k :: 0 <= k < 3 ==> NoSlash(["", w, x][k])
    ensures Resolve(["", w, x], true, []) == [w, x]
  {
    var raw := ["", w, x];
    NoSlashChars("");
    PlainsResolved(w, x, x, x);
    ResolveAt(raw, 0, true, []);
    ResolveAt(raw, 1, true, []);
    ResolveAt(raw, 2, true, [w]);
    assert raw[0..] == raw && raw[3..] == [];
  }

  lemma NameSegments(w: string, x: string)
    requires Plain(w) && Plain(x)
    ensures Segments(Join(["", w, x], "/")) == ["", w]
  {
    NoSlashChars("");
    SegmentsOf(["", w], x);
    assert ["", w] + [x] == ["", w, x];
  }

  // ---------------------------------------------------------------------------
  // Following the relative path from the source directory leads to the header.

  /** The directory reached from `dir` by the steps: `..` goes up one level (and stays
      at the root), any other step goes down into that directory. */
  function Walk(dir: seq<string>, steps: seq<string>): (r: seq<string>)
    decreases |steps|
  {
    if steps == [] then dir
    else if steps[0] == ".." then Walk(if dir == [] then [] else dir[..|dir| - 1], steps[1..])
    else Walk(dir + [steps[0]], steps[1..])
  }

  lemma {:induction false} WalkUps(dir: seq<string>, n: nat, rest: seq<string>)
    requires n <= |dir|
    ensures Walk(dir, Ups(n) + rest) == Walk(dir[..|dir| - n], rest)
    decreases n
  {
    if n > 0 {
      assert (Ups(n) + rest)[1..] == Ups(n - 1) + rest;
      WalkUps(dir[..|dir| - 1], n - 1, rest);
      assert dir[..|dir| - 1][..|dir| - 1 - (n - 1)] == dir[..|dir| - n];
    } else {
      assert Ups(0) + rest == rest;
      assert dir[..|dir|] == dir;
    }
  }

  lemma {:induction false} WalkDown(dir: seq<string>, steps: seq<string>)
    requires forall j :: 0 <= j < |steps| ==> steps[j] != ".."
    ensures Walk(dir, steps) == dir + steps
    decreases |steps|
  {
    if steps != [] {
      WalkDown(dir + [steps[0]], steps[1..]);
      assert dir + [steps[0]] + steps[1..] == dir + steps;
    }
  }

  /** When the directories share a prefix and the header's remaining directories and
      name hold no `..` step, the include path, followed from the source's directory,
      names the header: its directory segments followed by its name. */
  lemma IncludeResolves(header: string, source: string, name: string)
    requires CommonLength(Segments(header), Segments(source)) > 0
    requires forall j :: 0 <= j < |Segments(header)| ==> Segments(header)[j] != ".."
    requires name != ".."
    ensures Walk(Segments(source), RelativeSteps(header, source, name)) == Segments(header) + [name]
  {
    var hp := Segments(header);
    var sp := Segments(source);
    StepsResolve(hp, sp, CommonLength(hp, sp), name);
  }

  lemma StepsResolve(hp: seq<string>, sp: seq<string>, k: nat, b: string)
    requires k <= |hp| && k <= |sp| && hp[..k] == sp[..k]
    requires forall j :: 0 <= j < |hp| ==> hp[j] != ".."
    requires b != ".."
    ensures Walk(sp, Ups(|sp| - k) + hp[k..] + [b]) == hp + [b]
  {
    var down := hp[k..] + [b];
    assert Ups(|sp| - k) + hp[k..] + [b] == Ups(|sp| - k) + down;
    WalkUps(sp, |sp| - k, down);
    assert sp[..|sp| - (|sp| - k)] == hp[..k];
    forall j | 0 <= j < |down|
      ensures down[j] != ".."
    {
      if j < |hp| - k {
        assert down[j] == hp[k + j];
      }
    }
    WalkDown(hp[..k], down);
    assert hp[..k] + down == hp + [b];
  }

  /** Absolute paths always share the root, so the fallback to the absolute header path
      is taken only for relative inputs. */
  lemma AbsoluteShareRoot(header: string, source: string)
    requires header != [] && header[0] == '/' && source != [] && source[0] == '/'
    ensures CommonLength(Segments(header), Segments(source)) > 0
  {
    RootSegment(header);
    RootSegment(source);
  }

  lemma RootSegment(p: string)
    requires p != [] && p[0] == '/'
    ensures Segments(p)[0] == []
  {
    var e := SlashEnd(p);
    assert e > 0;
    var head := p[..e];
    assert head[0] == '/';
    var d := DirName(p);
    assert d != [] && d[0] == '/' by {
      if head != [] && !AllSlashes(head) {
        var j :| 0 <= j < |head| && head[j] != '/';
        assert StripSlashes(head)[j] == head[j] || |StripSlashes(head)| > j;
      }
    }
    assert "/" <= d;
  }

  /** A header in a sibling directory of the source is reached through one `..`:
      `/a/b/include/X.h` seen from `/a/b/src` is `../include/X.h`. */
  lemma SiblingExample()
    ensures Join(RelativePath(["", "a", "b", "include"], ["", "a", "b", "src"], "X.h"), "/")
            == "../include/X.h"
  {
    var hp := ["", "a", "b", "include"];
    var sp := ["", "a", "b", "src"];
    CommonLengthUnique(hp, sp, 3);
    assert hp[3..] == ["include"];
    assert RelativePath(hp, sp, "X.h") == ["..", "include", "X.h"];
    assert Join(["X.h"], "/") == "X.h";
  }
}
