/** The in-memory file system of an Emscripten sandbox, as far as
    index.ts uses it (the `FS` object of Module.d.ts:9-17): `analyzePath`,
    `mkdirTree`, `writeFile` and `readFile` over files and directories. */
module VirtualFs {
  import opened Wrappers
  import opened Strings
  import opened Paths

  /** File contents by path, and the set of directories. The empty path is
      the working directory, which always exists. */
  datatype FsState = FsState(files: map<string, seq<byte>>, dirs: set<string>)

  predicate IsDir(st: FsState, path: string) {
    path == "" || path in st.dirs
  }

  /** `analyzePath(path).exists`. */
  predicate Exists(st: FsState, path: string) {
    IsDir(st, path) || path in st.files
  }

  /** The file-system invariant: every file and every directory lies in a
      directory, no path is both a file and a directory, and the working
      directory is not a file. */
  ghost predicate Consistent(st: FsState) {
    && "" !in st.files
    && (forall p :: p in st.files ==> IsDir(st, DirName(p)) && p !in st.dirs)
    && (forall d :: d in st.dirs ==> IsDir(st, DirName(d)))
  }

  /** Whether `mkdirTree(path)` succeeds. It creates the directories of
      `DirChain(path)` shallowest first and ignores "already exists"; it
      fails when a directory it would create lies below a file, that is,
      when a directory of the chain other than `path` itself is a file. */
  predicate CanMkdirTree(st: FsState, path: string) {
    (DirChain(path) - {path}) * st.files.Keys == {}
  }

  /** The file system after `mkdirTree(path)`, or `None` when it throws:
      every directory of the chain that is not a file now exists. */
  function MkdirTreeOn(st: FsState, path: string): Option<FsState> {
    if CanMkdirTree(st, path) then Some(FsState(st.files, st.dirs + (DirChain(path) - st.files.Keys)))
    else None
  }

  /** Whether `writeFile(path, …)` succeeds: the path is not empty and not a
      directory, and its parent is a directory. An existing file is
      overwritten. */
  predicate CanWrite(st: FsState, path: string) {
    path != "" && path !in st.dirs && IsDir(st, DirName(path))
  }

  /** The file system after `writeFile(path, content)`, or `None` when it
      throws. */
  function WriteOn(st: FsState, path: string, content: seq<byte>): Option<FsState> {
    if CanWrite(st, path) then Some(FsState(st.files[path := content], st.dirs)) else None
  }

  /** The parent of a directory in the chain of `path` is the working
      directory or an earlier directory of the same chain. */
  lemma ChainParent(path: string, d: string)
    requires d in DirChain(path)
    ensures DirName(d) == "" || (DirName(d) in DirChain(path) && DirName(d) != path)
  {
    DirNameLastSlash(d);
    var dir := DirName(d);
    if '/' in d && dir != "" {
      var j := |dir|;
      assert path[..|d|] == d;
      assert path[j] == '/' && path[..j] == dir;
      assert 0 < j <= |path| && (j == |path| || path[j] == '/');
    }
  }

  /** `mkdirTree` keeps the file-system invariant, creates `path` unless
      `path` is a file, and changes no file. */
  lemma MkdirTreeKeeps(st: FsState, path: string)
    requires Consistent(st)
    requires MkdirTreeOn(st, path).Some?
    ensures var after := MkdirTreeOn(st, path).value;
      && Consistent(after)
      && after.files == st.files
      && st.dirs <= after.dirs
      && (path !in st.files ==> IsDir(after, path))
  {
    var chain := DirChain(path);
    var after := FsState(st.files, st.dirs + (chain - st.files.Keys));
    assert MkdirTreeOn(st, path) == Some(after);
    forall p | p in after.files
      ensures IsDir(after, DirName(p)) && p !in after.dirs
    {
      assert IsDir(st, DirName(p));
    }
    forall d | d in after.dirs
      ensures IsDir(after, DirName(d))
    {
      if d !in st.dirs {
        assert d in chain;
        ChainParent(path, d);
        var up := DirName(d);
        assert up != "" ==> up in chain - {path} && up !in st.files;
      }
    }
  }

  /** `writeFile` keeps the file-system invariant and puts the content at
      exactly `path`. */
  lemma WriteKeeps(st: FsState, path: string, content: seq<byte>)
    requires Consistent(st)
    requires WriteOn(st, path, content).Some?
    ensures var after := WriteOn(st, path, content).value;
      && Consistent(after)
      && after.files[path] == content
      && after.dirs == st.dirs
  {
  }

  /** `mkdirTree` is idempotent: a second call on the same path succeeds
      and changes nothing. */
  lemma MkdirTreeIdempotent(st: FsState, path: string)
    requires MkdirTreeOn(st, path).Some?
    ensures MkdirTreeOn(MkdirTreeOn(st, path).value, path) == MkdirTreeOn(st, path)
  {
    var after := MkdirTreeOn(st, path).value;
    assert after.dirs + (DirChain(path) - after.files.Keys) == after.dirs;
  }

  /** A sandbox's file system: the object behind `module.FS`. */
  class FileSystem {
    var files: map<string, seq<byte>>
    var dirs: set<string>

    function State(): FsState
      reads this
    {
      FsState(files, dirs)
    }

    constructor (initial: FsState)
      ensures State() == initial
    {
      files := initial.files;
      dirs := initial.dirs;
    }

    /** `analyzePath(path).exists`. */
    method AnalyzePath(path: string) returns (found: bool)
      ensures found <==> path == "" || path in dirs || path in files
    {
      found := path == "" || path in dirs || path in files;
    }

    /** `mkdirTree(path)`; `ok` is false where Emscripten throws. */
    method MkdirTree(path: string) returns (ok: bool)
      modifies this
      ensures ok == MkdirTreeOn(old(State()), path).Some?
      ensures State() == if ok then MkdirTreeOn(old(State()), path).value else old(State())
    {
      ok := CanMkdirTree(State(), path);
      if ok {
        dirs := dirs + (DirChain(path) - files.Keys);
      }
    }

    /** `writeFile(path, content)`; `ok` is false where Emscripten throws. */
    method WriteFile(path: string, content: seq<byte>) returns (ok: bool)
      modifies this
      ensures ok == WriteOn(old(State()), path, content).Some?
      ensures State() == if ok then WriteOn(old(State()), path, content).value else old(State())
    {
      ok := CanWrite(State(), path);
      if ok {
        files := files[path := content];
      }
    }

    /** `readFile(path, { encoding: "binary" })`; `None` where Emscripten
      throws because no file is at `path`. */
    method ReadFile(path: string) returns (content: Option<seq<byte>>)
      ensures content.Some? <==> path in files
      ensures content.Some? ==> content.value == files[path]
    {
      content := if path in files then Some(files[path]) else None;
    }
  }

  /** The text a job's `printErr` callbacks append to. */
  class Diagnostics {
    var text: string

    constructor ()
      ensures text == ""
    {
      text := "";
    }

    /** `printErr(data)`: `stderr += data + "\n"`. */
    method Print(data: string)
      modifies this
      ensures text == old(text) + data + "\n"
    {
      text := text + data + "\n";
    }
  }
}
