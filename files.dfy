/** The files the generator writes, modelled as a map from file names to contents: the
    backup of a file about to be overwritten, the new header and source files, and the
    LinkDef file that `AddLinkDef` creates or extends. */
module CycleFiles {
  import opened Text
  import opened Variables
  import opened Naming
  import opened IncludePath
  import opened Rendering
  import opened LinkDefs
  import opened Substitution

  /** The files after `Backup(f)`: an existing `f` is moved to `f.backup`, replacing any
      earlier backup; nothing else changes. */
  function BackedUp(fs: map<string, string>, f: string): (r: map<string, string>)
    ensures f in fs ==> f !in r && f + ".backup" in r && r[f + ".backup"] == fs[f]
    ensures f !in fs ==> r == fs
    ensures forall g :: g != f && g != f + ".backup" ==> (g in r <==> g in fs)
    ensures forall g :: g != f && g != f + ".backup" && g in r ==> r[g] == fs[g]
  {
    if f in fs then (fs - {f})[f + ".backup" := fs[f]] else fs
  }

  /** The files after `AddLinkDef` with the new lines `lines`: only the LinkDef file
      `name` can change. A missing file is created from the template, an existing one
      without `#endif` is left alone, and otherwise the lines go before each `\n#endif`. */
  function AddedLinkDef(fs: map<string, string>, name: string, lines: string): (r: map<string, string>)
    ensures forall g :: g != name ==> (g in r <==> g in fs)
    ensures forall g :: g != name && g in r ==> r[g] == fs[g]
    ensures name !in fs ==> name in r && r[name] == NewLinkDef(lines)
    ensures name in fs && !Contains(fs[name], "#endif") ==> r == fs
    ensures name in fs && Contains(fs[name], "#endif") ==>
              name in r && r[name] == InsertBefore(fs[name], Endif, lines + "\n")
  {
    match ExtendedLinkDef(if name in fs then Some(fs[name]) else None, lines)
    case None => fs
    case Some(t) => fs[name := t]
  }

  /** The header name `CreateCycle` passes on: the class name with `.h`, in the include
      directory. */
  function CycleHeaderName(className: string, includeExists: bool): (r: string)
    ensures r == IncludeDir(includeExists) + className + ".h"
  {
    InDir("include", className + ".h");
    if includeExists then Join(["include", className + ".h"], "/") else className + ".h"
  }

  /** The source name `CreateCycle` passes on: the class name with `.cxx`, in the source
      directory. */
  function CycleSourceName(className: string, srcExists: bool): (r: string)
    ensures r == SourceDir(srcExists) + className + ".cxx"
  {
    InDir("src", className + ".cxx");
    if srcExists then Join(["src", className + ".cxx"], "/") else className + ".cxx"
  }

  /** The source that `CreateCycle` has written, run from the directory `/w`, includes its
      header by the header's own path, with one `../` in front when the source sits in
      `src/`. */
  lemma CycleInclude(w: string, className: string, includeExists: bool, srcExists: bool)
    requires Plain(w) && className != [] && NoSlash(className)
    ensures var header := CycleHeaderName(className, includeExists);
            IncludeFor(Join(["", w], "/"), header, CycleSourceName(className, srcExists))
            == (if srcExists then "../" else "") + header
  {
    PlainFile(className, ".h");
    PlainFile(className, ".cxx");
    NoSlashChars("include");
    NoSlashChars("src");
    var h, c := className + ".h", className + ".cxx";
    var hp, cp := CycleHeaderName(className, includeExists), CycleSourceName(className, srcExists);
    if includeExists && srcExists {
      BothDirs(w, "include", "src", h, c, hp, cp);
    } else if includeExists {
      IncludeDirOnly(w, "include", h, c, hp, cp);
    } else if srcExists {
      SourceDirOnly(w, "src", h, c, hp, cp);
    } else {
      SameDir(w, hp, cp);
    }
  }

  lemma BothDirs(w: string, a: string, d: string, h: string, c: string, hp: string, cp: string)
    requires Plain(w) && Plain(a) && Plain(d) && Plain(h) && Plain(c) && a != d
    requires hp == Join([a, h], "/") && cp == Join([d, c], "/")
    ensures IncludeFor(Join(["", w], "/"), hp, cp) == "../" + hp
  {
    SiblingDirs(w, a, h, d, c);
    Up([a, h]);
  }

  lemma IncludeDirOnly(w: string, a: string, h: string, c: string, hp: string, cp: string)
    requires Plain(w) && Plain(a) && Plain(h) && Plain(c)
    requires hp == Join([a, h], "/") && cp == c
    ensures IncludeFor(Join(["", w], "/"), hp, cp) == hp
  {
    HeaderInDir(w, a, h, c);
  }

  lemma SourceDirOnly(w: string, d: string, h: string, c: string, hp: string, cp: string)
    requires Plain(w) && Plain(d) && Plain(h) && Plain(c)
    requires hp == h && cp == Join([d, c], "/")
    ensures IncludeFor(Join(["", w], "/"), hp, cp) == "../" + hp
  {
    SourceInDir(w, h, d, c);
    Up([h]);
  }

  /** A file in a directory: the two joined with a slash. */
  lemma InDir(d: string, f: string)
    ensures Join([d, f], "/") == d + "/" + f
  {
    assert [d, f][1..] == [f];
  }

  /** One level up in front of a path. */
  lemma Up(ps: seq<string>)
    requires |ps| >= 1
    ensures Join([".."] + ps, "/") == "../" + Join(ps, "/")
  {
    var qs := [".."] + ps;
    assert qs[0] == ".." && qs[1..] == ps;
    assert ".." + "/" == "../";
    assert Join(qs, "/") == qs[0] + "/" + Join(qs[1..], "/");
  }

  /** A class name without a slash, with an extension, names a plain file. */
  lemma PlainFile(className: string, ext: string)
    requires className != [] && NoSlash(className)
    requires |ext| >= 2 && forall i :: 0 <= i < |ext| ==> ext[i] != '/'
    ensures Plain(className + ext)
  {
    var f := className + ext;
    NoSlashChars(className);
    forall i | 0 <= i < |f|
      ensures f[i] != '/'
    {
      if i < |className| {
        assert f[i] == className[i];
      } else {
        assert f[i] == ext[i - |className|];
      }
    }
    NoSlashChars(f);
  }

  /** The header written for a class: the name given, or the class name with `.h`. */
  function HeaderName(className: string, headerName: string): string {
    if headerName == "" then className + ".h" else headerName
  }

  function SourceName(className: string, sourceName: string): string {
    if sourceName == "" then className + ".cxx" else sourceName
  }

  class FileStore {
    var files: map<string, string>

    constructor (initial: map<string, string>)
      ensures files == initial
    {
      files := initial;
    }

    /** Moves an existing file out of the way before it is overwritten. */
    method Backup(filename: string)
      modifies this
      ensures files == BackedUp(old(files), filename)
    {
      if filename in files {
        var contents := files[filename];
        files := (files - {filename})[filename + ".backup" := contents];
      }
    }

    /** Writes the header of the cycle, after backing up a file of that name. */
    method CreateHeader(className: string, headerName: string, namespace: string, vs: seq<Variable>,
                        createOutput: bool) returns (name: string)
      modifies this
      ensures name == HeaderName(className, headerName)
      ensures files == BackedUp(old(files), name)[name := HeaderText(className, namespace, HeaderBlocksOf(vs, createOutput))]
    {
      name := headerName;
      if name == "" {
        name := className + ".h";
      }
      var contents := HeaderContents(className, namespace, vs, createOutput);
      Backup(name);
      files := files[name := contents];
    }

    /** Writes the source of the cycle, which includes the header `header` by its path
      relative to the source file; `cwd` is the working directory the paths are taken
      from. */
    method CreateSource(className: string, sourceName: string, namespace: string, vs: seq<Variable>,
                        createOutput: bool, header: string, cwd: string)
      modifies this
      ensures var name := SourceName(className, sourceName);
              var inc := IncludeFor(cwd, HeaderName(className, header), name);
              files == BackedUp(old(files), name)[name := SourceText(className, namespace, SourceBlocksOf(vs, createOutput), inc)]
    {
      var name := SourceName(className, sourceName);
      var inc := IncludeFrom(cwd, HeaderName(className, header), name);
      var contents := SourceContents(className, namespace, vs, createOutput, inc);
      Backup(name);
      files := files[name := contents];
    }

    /** Declares the cycle, and the types of its pointer variables, in the LinkDef file.
      The order of the type lines is the order in `order`. */
    method AddLinkDef(className: string, linkdefName: string, namespace: string, vs: seq<Variable>)
      returns (order: seq<string>)
      modifies this
      ensures Enumerates(order, PointerTypes(vs))
      ensures files == AddedLinkDef(old(files), linkdefName,
                                    PragmaLine(FullClassName(className, namespace)) + PragmaBlock(order))
    {
      var cycleName := className;
      if namespace != "" {
        cycleName := namespace + "::" + className;
      }
      var lines;
      lines, order := NewLines(cycleName, vs);
      if linkdefName in files {
        var text := files[linkdefName];
        if !Contains(text, "#endif") {
          return;
        }
        files := files[linkdefName := InsertBefore(text, Endif, lines + "\n")];
      } else {
        files := files[linkdefName := NewLinkDef(lines)];
      }
    }
  }

  /** Extending a LinkDef file that `AddLinkDef` created never aborts: the new file holds
      `#endif`. */
  lemma AddLinkDefTwice(fs: map<string, string>, name: string, first: string, second: string)
    ensures var r := AddedLinkDef(AddedLinkDef(fs - {name}, name, first), name, second);
            name in r && r[name] == InsertBefore(NewLinkDef(first), Endif, second + "\n")
  {
    NewLinkDefHasEndif(first);
  }

  /** A backup keeps the old contents: each file other than the previous backup still has
      its contents under its own name or under the backup name. */
  lemma BackupLosesNothing(fs: map<string, string>, f: string)
    ensures forall g :: g in fs && g != f + ".backup" ==>
              (g != f ==> g in BackedUp(fs, f) && BackedUp(fs, f)[g] == fs[g]) &&
              (g == f ==> BackedUp(fs, f)[f + ".backup"] == fs[f])
  {
  }
}
