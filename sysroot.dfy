/** `setUpSysroot` (index.ts:58-84): every file entry of the sysroot archive,
    then every extra file, is written into a sandbox's file system, each
    after its parent directory has been made.

    The staging is described as the sequence of file-system calls it
    issues (`Staging`) and what applying such a sequence does (`Apply`);
    the method is proved to issue exactly those calls, and the lemmas say
    what the file system holds afterwards. */
module Sysroot {
  import opened Wrappers
  import opened Strings
  import opened Paths
  import opened VirtualFs
  import opened Tar

  /** The content of an extra file: a string is written as UTF-8 text, an
      ArrayBuffer as its bytes. */
  datatype Extra = Text(text: string) | Binary(bytes: seq<byte>)

  function ExtraBytes(x: Extra): seq<byte> {
    match x
    case Text(s) => Utf8(s)
    case Binary(b) => b
  }

  /** One file-system call of the staging. */
  datatype Op =
    | EnsureDir(path: string)               // `if (!analyzePath(path).exists) mkdirTree(path)`
    | MakeDirs(path: string)                // `mkdirTree(path)`
    | Put(path: string, content: seq<byte>) // `writeFile(path, content)`

  function ApplyOp(st: FsState, op: Op): Option<FsState> {
    match op
    case EnsureDir(p) => if Exists(st, p) then Some(st) else MkdirTreeOn(st, p)
    case MakeDirs(p) => MkdirTreeOn(st, p)
    case Put(p, c) => WriteOn(st, p, c)
  }

  /** The file system after the calls `ops` in order, or `None` if one of
      them throws. */
  function Apply(st: FsState, ops: seq<Op>): Option<FsState>
    decreases |ops|
  {
    if |ops| == 0 then Some(st)
    else match Apply(st, ops[..|ops| - 1])
      case None => None
      case Some(s) => ApplyOp(s, ops[|ops| - 1])
  }

  /** The calls issued for each element of `xs`, in order. */
  function Steps<T>(xs: seq<T>, f: T -> seq<Op>): seq<Op>
    decreases |xs|
  {
    if |xs| == 0 then [] else f(xs[0]) + Steps(xs[1..], f)
  }

  /** index.ts:64-71: a name ending in "/" is a directory and is skipped;
      otherwise the parent is made unless something exists there, and the
      file is written. */
  function EntryOps(e: Entry): (ops: seq<Op>)
    ensures Writes(ops) == if EndsWithChar(e.name, '/') then map[] else map[e.name := e.content]
  {
    if EndsWithChar(e.name, '/') then []
    else
      WritesPair(EnsureDir(DirName(e.name)), e.name, e.content);
      [EnsureDir(DirName(e.name)), Put(e.name, e.content)]
  }

  /** index.ts:75-81: the parent of an extra file is always made, then the
      file is written. */
  function ExtraOps(x: (string, Extra)): (ops: seq<Op>)
    ensures Writes(ops) == map[x.0 := ExtraBytes(x.1)]
  {
    WritesPair(MakeDirs(DirName(x.0)), x.0, ExtraBytes(x.1));
    [MakeDirs(DirName(x.0)), Put(x.0, ExtraBytes(x.1))]
  }

  function ExtrasPlan(extras: Option<seq<(string, Extra)>>): seq<Op> {
    if extras.Some? then Steps(extras.value, ExtraOps) else []
  }

  /** All calls of `setUpSysroot(module, tar, extraFiles)` when `tar` holds
      the entries `es`: the archive's entries first, then the extra files
      (when given) in the order `Object.entries` lists them. */
  function Staging(es: seq<Entry>, extras: Option<seq<(string, Extra)>>): (ops: seq<Op>)
    ensures Writes(ops) == Writes(Steps(es, EntryOps)) + Writes(ExtrasPlan(extras))
  {
    WritesAppend(Steps(es, EntryOps), ExtrasPlan(extras));
    Steps(es, EntryOps) + ExtrasPlan(extras)
  }

  /** The content each path holds after the writes among `ops`: the last
      write to a path wins. */
  function Writes(ops: seq<Op>): map<string, seq<byte>>
    decreases |ops|
  {
    if |ops| == 0 then map[]
    else
      var last := ops[|ops| - 1];
      if last.Put? then Writes(ops[..|ops| - 1])[last.path := last.content]
      else Writes(ops[..|ops| - 1])
  }

  // ---------------------------------------------------------------------
  // Applying sequences of calls
  // ---------------------------------------------------------------------

  lemma {:induction false} ApplyAppend(st: FsState, a: seq<Op>, b: seq<Op>)
    ensures Apply(st, a + b) == if Apply(st, a).None? then None else Apply(Apply(st, a).value, b)
    decreases |b|
  {
    if |b| == 0 {
      assert a + b == a;
    } else {
      ApplyAppend(st, a, b[..|b| - 1]);
      assert (a + b)[..|a + b| - 1] == a + b[..|b| - 1];
    }
  }

  lemma {:induction false} WritesAppend(a: seq<Op>, b: seq<Op>)
    ensures Writes(a + b) == Writes(a) + Writes(b)
    decreases |b|
  {
    if |b| == 0 {
      assert a + b == a;
    } else {
      WritesAppend(a, b[..|b| - 1]);
      assert (a + b)[..|a + b| - 1] == a + b[..|b| - 1];
    }
  }

  /** The writes of one entry's or one extra file's calls. */
  lemma WritesPair(a: Op, p: string, c: seq<byte>)
    requires !a.Put?
    ensures Writes([a, Put(p, c)]) == map[p := c]
  {
    assert [a, Put(p, c)][..1] == [a];
    assert [a][..0] == [];
    assert Writes([a]) == map[];
  }

  /** What the calls of one element of `xs` issue is among the calls for
      all of `xs`. */
  lemma {:induction false} StepsHas<T>(xs: seq<T>, f: T -> seq<Op>, k: nat, op: Op)
    requires k < |xs| && op in f(xs[k])
    ensures op in Steps(xs, f)
    decreases |xs|
  {
    if k > 0 {
      StepsHas(xs[1..], f, k - 1, op);
    }
  }

  /** Only writes change files: the files afterwards are the files before
      overwritten by the writes among `ops`. */
  lemma {:induction false} ApplyFiles(st: FsState, ops: seq<Op>)
    requires Apply(st, ops).Some?
    ensures Apply(st, ops).value.files == st.files + Writes(ops)
    decreases |ops|
  {
    if |ops| > 0 {
      var init := ops[..|ops| - 1];
      ApplyFiles(st, init);
      var last := ops[|ops| - 1];
      var mid := Apply(st, init).value;
      assert Apply(st, ops) == ApplyOp(mid, last);
      if last.Put? {
        assert Writes(ops) == Writes(init)[last.path := last.content];
        assert ApplyOp(mid, last).value.files == mid.files[last.path := last.content];
        assert (st.files + Writes(init))[last.path := last.content] == st.files + Writes(init)[last.path := last.content];
      } else {
        assert Writes(ops) == Writes(init);
        assert ApplyOp(mid, last).value.files == mid.files;
      }
    }
  }

  /** Staging keeps the file-system invariant and never removes a file or
      a directory. */
  lemma {:induction false} ApplyKeeps(st: FsState, ops: seq<Op>)
    requires Consistent(st) && Apply(st, ops).Some?
    ensures var after := Apply(st, ops).value;
      Consistent(after) && st.dirs <= after.dirs && st.files.Keys <= after.files.Keys
    decreases |ops|
  {
    if |ops| > 0 {
      var init := ops[..|ops| - 1];
      ApplyKeeps(st, init);
      OpKeeps(Apply(st, init).value, ops[|ops| - 1]);
    }
  }

  lemma OpKeeps(st: FsState, op: Op)
    requires Consistent(st) && ApplyOp(st, op).Some?
    ensures var after := ApplyOp(st, op).value;
      Consistent(after) && st.dirs <= after.dirs && st.files.Keys <= after.files.Keys
  {
    match op
    case EnsureDir(p) =>
      if !Exists(st, p) {
        MkdirTreeKeeps(st, p);
      }
    case MakeDirs(p) =>
      MkdirTreeKeeps(st, p);
    case Put(p, c) =>
      WriteKeeps(st, p, c);
  }

  // ---------------------------------------------------------------------
  // Staging twice
  // ---------------------------------------------------------------------

  /** A call whose effect is already there: the directory exists, the
      directories of the chain are made and can be made again, the file is
      there and can be written again. */
  ghost predicate Settled(st: FsState, op: Op) {
    match op
    case EnsureDir(p) => Exists(st, p)
    case MakeDirs(p) => CanMkdirTree(st, p) && DirChain(p) <= st.dirs + st.files.Keys
    case Put(p, _) => CanWrite(st, p) && p in st.files
  }

  /** Each call leaves its own effect in place. */
  lemma SettledAfter(st: FsState, op: Op)
    requires Consistent(st) && ApplyOp(st, op).Some?
    ensures Settled(ApplyOp(st, op).value, op)
  {
    if op.EnsureDir? && !Exists(st, op.path) {
      MkdirTreeKeeps(st, op.path);
    }
  }

  /** Later calls do not undo the effect of an earlier one: files stay
      files and directories stay directories. */
  lemma SettledStays(s: FsState, s2: FsState, op: Op)
    requires Settled(s, op) && Consistent(s2)
    requires s.dirs <= s2.dirs && s.files.Keys <= s2.files.Keys
    ensures Settled(s2, op)
  {
    if op.MakeDirs? {
      forall d | d in DirChain(op.path) - {op.path}
        ensures d !in s2.files
      {
        assert d in s.dirs;
      }
    }
  }

  /** After the calls `ops` succeed, every one of them is settled. */
  lemma {:induction false} ApplySettles(st: FsState, ops: seq<Op>)
    requires Consistent(st) && Apply(st, ops).Some?
    ensures forall op :: op in ops ==> Settled(Apply(st, ops).value, op)
    decreases |ops|
  {
    if |ops| > 0 {
      var init := ops[..|ops| - 1];
      var s := Apply(st, init).value;
      var after := Apply(st, ops).value;
      ApplySettles(st, init);
      ApplyKeeps(st, init);
      OpKeeps(s, ops[|ops| - 1]);
      SettledAfter(s, ops[|ops| - 1]);
      forall op | op in ops
        ensures Settled(after, op)
      {
        if op != ops[|ops| - 1] {
          assert op in init;
          SettledStays(s, after, op);
        }
      }
    }
  }

  /** Calls that are all settled only rewrite the files they write, with
      the same content. */
  lemma {:induction false} Replay(s: FsState, ops: seq<Op>)
    requires forall op :: op in ops ==> Settled(s, op)
    ensures Apply(s, ops) == Some(FsState(s.files + Writes(ops), s.dirs))
    ensures Writes(ops).Keys <= s.files.Keys
    decreases |ops|
  {
    if |ops| > 0 {
      var init := ops[..|ops| - 1];
      var last := ops[|ops| - 1];
      forall op | op in init
        ensures Settled(s, op)
      {
        assert op in ops;
      }
      Replay(s, init);
      assert last in ops;
      var mid := FsState(s.files + Writes(init), s.dirs);
      assert mid.files.Keys == s.files.Keys;
      SettledSameShape(s, mid, last);
      match last
      case EnsureDir(_) =>
      case MakeDirs(p) =>
        assert mid.dirs + (DirChain(p) - mid.files.Keys) == mid.dirs;
      case Put(p, c) =>
        assert mid.files[p := c] == s.files + Writes(ops);
    } else {
      assert s.files + Writes(ops) == s.files;
    }
  }

  /** Whether a call is settled depends only on which paths are files and
      which are directories. */
  lemma SettledSameShape(s: FsState, s2: FsState, op: Op)
    requires Settled(s, op)
    requires s.dirs == s2.dirs && s.files.Keys == s2.files.Keys
    ensures Settled(s2, op)
  {
  }

  /** Staging the same calls twice leaves the file system as staging them
      once did. */
  lemma Idempotent(st: FsState, ops: seq<Op>)
    requires Consistent(st) && Apply(st, ops).Some?
    ensures Apply(Apply(st, ops).value, ops) == Apply(st, ops)
  {
    var after := Apply(st, ops).value;
    ApplySettles(st, ops);
    Replay(after, ops);
    ApplyFiles(st, ops);
    assert after.files + Writes(ops) == after.files;
  }

  // ---------------------------------------------------------------------
  // What the staging writes
  // ---------------------------------------------------------------------

  /** Every path the archive's calls write is the name of a file entry. */
  lemma {:induction false} ArchiveWritesNames(es: seq<Entry>, p: string)
    requires p in Writes(Steps(es, EntryOps))
    ensures exists k :: 0 <= k < |es| && es[k].name == p && !EndsWithChar(p, '/')
    decreases |es|
  {
    var head := EntryOps(es[0]);
    WritesAppend(head, Steps(es[1..], EntryOps));
    if head != [] {
      WritesPair(head[0], es[0].name, es[0].content);
    }
    if p !in Writes(head) {
      ArchiveWritesNames(es[1..], p);
      var k :| 0 <= k < |es[1..]| && es[1..][k].name == p && !EndsWithChar(p, '/');
      assert es[k + 1].name == p;
    } else {
      assert es[0].name == p;
    }
  }

  /** The archive's calls leave each file entry's content at its name,
      unless a later entry has the same name: the later one wins. */
  lemma {:induction false} ArchiveLastWins(es: seq<Entry>, k: nat)
    requires k < |es| && !EndsWithChar(es[k].name, '/')
    requires forall j :: k < j < |es| ==> es[j].name != es[k].name
    ensures es[k].name in Writes(Steps(es, EntryOps))
    ensures Writes(Steps(es, EntryOps))[es[k].name] == es[k].content
    decreases |es|
  {
    var head := EntryOps(es[0]);
    var rest := Steps(es[1..], EntryOps);
    WritesAppend(head, rest);
    if head != [] {
      WritesPair(head[0], es[0].name, es[0].content);
    }
    if k == 0 {
      if es[0].name in Writes(rest) {
        ArchiveWritesNames(es[1..], es[0].name);
      }
    } else {
      ArchiveLastWins(es[1..], k - 1);
    }
  }

  /** Every path the extra files' calls write is the name of an extra file. */
  lemma {:induction false} ExtraWritesNames(xs: seq<(string, Extra)>, p: string)
    requires p in Writes(Steps(xs, ExtraOps))
    ensures exists k :: 0 <= k < |xs| && xs[k].0 == p
    decreases |xs|
  {
    var head := ExtraOps(xs[0]);
    WritesAppend(head, Steps(xs[1..], ExtraOps));
    WritesPair(head[0], xs[0].0, ExtraBytes(xs[0].1));
    if p !in Writes(head) {
      ExtraWritesNames(xs[1..], p);
      var k :| 0 <= k < |xs[1..]| && xs[1..][k].0 == p;
      assert xs[k + 1].0 == p;
    }
  }

  /** The extra files' calls leave each extra file's content at its name,
      unless a later extra file has the same name. */
  lemma {:induction false} ExtraLastWins(xs: seq<(string, Extra)>, k: nat)
    requires k < |xs|
    requires forall j :: k < j < |xs| ==> xs[j].0 != xs[k].0
    ensures xs[k].0 in Writes(Steps(xs, ExtraOps))
    ensures Writes(Steps(xs, ExtraOps))[xs[k].0] == ExtraBytes(xs[k].1)
    decreases |xs|
  {
    var head := ExtraOps(xs[0]);
    var rest := Steps(xs[1..], ExtraOps);
    WritesAppend(head, rest);
    WritesPair(head[0], xs[0].0, ExtraBytes(xs[0].1));
    if k == 0 {
      if xs[0].0 in Writes(rest) {
        ExtraWritesNames(xs[1..], xs[0].0);
      }
    } else {
      ExtraLastWins(xs[1..], k - 1);
    }
  }

  /** After a successful staging the files are those before, overwritten
      by the archive's files, overwritten in turn by the extra files. */
  lemma StagedFiles(st: FsState, es: seq<Entry>, extras: Option<seq<(string, Extra)>>)
    requires Apply(st, Staging(es, extras)).Some?
    ensures Apply(st, Staging(es, extras)).value.files
      == st.files + Writes(Steps(es, EntryOps)) + Writes(ExtrasPlan(extras))
  {
    var archive := Writes(Steps(es, EntryOps));
    var added := Writes(ExtrasPlan(extras));
    ApplyFiles(st, Staging(es, extras));
    WritesAppend(Steps(es, EntryOps), ExtrasPlan(extras));
    MapAddAssoc(st.files, archive, added);
  }

  lemma MapAddAssoc<K, V>(a: map<K, V>, b: map<K, V>, c: map<K, V>)
    ensures a + (b + c) == a + b + c
  {
  }

  /** An extra file ends up at exactly its name with its content, whatever
      the archive held there. */
  lemma ExtraFileStaged(st: FsState, es: seq<Entry>, xs: seq<(string, Extra)>, k: nat)
    requires Apply(st, Staging(es, Some(xs))).Some?
    requires k < |xs| && forall j :: k < j < |xs| ==> xs[j].0 != xs[k].0
    ensures var after := Apply(st, Staging(es, Some(xs))).value;
      xs[k].0 in after.files && after.files[xs[k].0] == ExtraBytes(xs[k].1)
  {
    StagedFiles(st, es, Some(xs));
    ExtraLastWins(xs, k);
  }

  /** A file entry of the archive ends up at exactly its name with its
      content, unless a later entry or an extra file has the same name. */
  lemma ArchiveFileStaged(st: FsState, es: seq<Entry>, extras: Option<seq<(string, Extra)>>, k: nat)
    requires Apply(st, Staging(es, extras)).Some?
    requires var es := es;
      && k < |es| && !EndsWithChar(es[k].name, '/')
      && (forall j :: k < j < |es| ==> es[j].name != es[k].name)
      && (extras.Some? ==> forall j :: 0 <= j < |extras.value| ==> extras.value[j].0 != es[k].name)
    ensures var after := Apply(st, Staging(es, extras)).value;
      var e := es[k];
      e.name in after.files && after.files[e.name] == e.content
  {
    var e := es[k];
    StagedFiles(st, es, extras);
    ArchiveLastWins(es, k);
    if e.name in Writes(ExtrasPlan(extras)) {
      ExtraWritesNames(extras.value, e.name);
    }
  }

  /** After a successful staging every written path is a file whose parent
      is a directory, and the file-system invariant still holds; a name
      ending in "/" was never written. */
  lemma StagedInPlace(st: FsState, es: seq<Entry>, extras: Option<seq<(string, Extra)>>)
    requires Consistent(st) && Apply(st, Staging(es, extras)).Some?
    ensures var after := Apply(st, Staging(es, extras)).value;
      && Consistent(after)
      && (forall op :: op in Staging(es, extras) && op.Put? ==>
            op.path in after.files && IsDir(after, DirName(op.path)))
      && (forall p :: p in Writes(Steps(es, EntryOps)) ==> !EndsWithChar(p, '/'))
  {
    ApplyKeeps(st, Staging(es, extras));
    ApplySettles(st, Staging(es, extras));
    forall p | p in Writes(Steps(es, EntryOps))
      ensures !EndsWithChar(p, '/')
    {
      ArchiveWritesNames(es, p);
    }
  }

  // ---------------------------------------------------------------------
  // When the staging succeeds
  // ---------------------------------------------------------------------

  lemma ApplyPair(st: FsState, a: Op, b: Op)
    ensures Apply(st, [a, b]) ==
      match ApplyOp(st, a)
      case None => None
      case Some(s) => ApplyOp(s, b)
  {
    assert [a, b][..1] == [a];
    assert [a][..0] == [];
    assert Apply(st, [a]) == ApplyOp(st, a);
  }

  /** The calls of one archive entry succeed when its name is not a
      directory and no file lies on its parent's chain: the parent is then
      a directory, made by `mkdirTree` when it was missing, and the file is
      written at exactly its name. */
  lemma EntryStaged(st: FsState, e: Entry)
    requires Consistent(st)
    requires e.name != "" && !EndsWithChar(e.name, '/') && e.name !in st.dirs
    requires DirChain(DirName(e.name)) !! st.files.Keys
    ensures Apply(st, EntryOps(e)).Some?
    ensures var after := Apply(st, EntryOps(e)).value;
      && after.files == st.files[e.name := e.content]
      && st.dirs <= after.dirs <= st.dirs + DirChain(DirName(e.name))
      && IsDir(after, DirName(e.name))
  {
    var dir := DirName(e.name);
    DirNameLastSlash(e.name);
    ApplyPair(st, EnsureDir(dir), Put(e.name, e.content));
    assert dir != "" ==> dir in DirChain(dir);
    var made := ApplyOp(st, EnsureDir(dir));
    if !Exists(st, dir) {
      MkdirTreeKeeps(st, dir);
    } else {
      assert made == Some(st) && IsDir(st, dir);
    }
    assert made.Some? && IsDir(made.value, dir) && e.name !in made.value.dirs;
    assert st.dirs <= made.value.dirs <= st.dirs + DirChain(dir);
  }

  /** The calls of one extra file succeed under the same conditions; its
      parent is made whether or not it existed. */
  lemma ExtraStaged(st: FsState, x: (string, Extra))
    requires Consistent(st)
    requires x.0 != "" && x.0 !in st.dirs
    requires DirChain(DirName(x.0)) !! st.files.Keys
    ensures Apply(st, ExtraOps(x)).Some?
    ensures var after := Apply(st, ExtraOps(x)).value;
      && after.files == st.files[x.0 := ExtraBytes(x.1)]
      && st.dirs <= after.dirs <= st.dirs + DirChain(DirName(x.0))
      && IsDir(after, DirName(x.0))
  {
    var dir := DirName(x.0);
    DirNameLastSlash(x.0);
    ApplyPair(st, MakeDirs(dir), Put(x.0, ExtraBytes(x.1)));
    assert dir != "" ==> dir in DirChain(dir);
    MkdirTreeKeeps(st, dir);
  }

  /** The room a staging needs: the invariant holds, no name to be written
      is a directory, and no file lies where a directory is to be made. */
  ghost predicate Room(s: FsState, names: set<string>, chains: set<string>) {
    Consistent(s) && names !! s.dirs && chains !! s.files.Keys
  }

  /** The names of the files the staging writes. */
  ghost function StagedNames(es: seq<Entry>, extras: Option<seq<(string, Extra)>>): set<string> {
    (set k | 0 <= k < |es| && !EndsWithChar(es[k].name, '/') :: es[k].name)
    + (if extras.Some? then set k | 0 <= k < |extras.value| :: extras.value[k].0 else {})
  }

  /** The directories `mkdirTree` may make for the parents of `names`. */
  ghost function ParentChains(names: set<string>): set<string> {
    set n, d | n in names && d in DirChain(DirName(n)) :: d
  }

  /** One entry's calls keep the room the staging needs, and leave its
      file in place inside a directory. */
  lemma EntryRoom(s: FsState, e: Entry, names: set<string>, chains: set<string>)
    requires Room(s, names, chains) && "" !in names && names !! chains
    requires !EndsWithChar(e.name, '/') ==> e.name in names && DirChain(DirName(e.name)) <= chains
    ensures Apply(s, EntryOps(e)).Some?
    ensures var after := Apply(s, EntryOps(e)).value;
      && Room(after, names, chains)
      && s.dirs <= after.dirs && s.files.Keys <= after.files.Keys
      && (!EndsWithChar(e.name, '/') ==> e.name in after.files && IsDir(after, DirName(e.name)))
  {
    if !EndsWithChar(e.name, '/') {
      EntryStaged(s, e);
      ApplyKeeps(s, EntryOps(e));
    } else {
      assert Apply(s, EntryOps(e)) == Some(s);
    }
  }

  /** One extra file's calls keep the room the staging needs, and leave
      its file in place inside a directory. */
  lemma ExtraRoom(s: FsState, x: (string, Extra), names: set<string>, chains: set<string>)
    requires Room(s, names, chains) && "" !in names && names !! chains
    requires x.0 in names && DirChain(DirName(x.0)) <= chains
    ensures Apply(s, ExtraOps(x)).Some?
    ensures var after := Apply(s, ExtraOps(x)).value;
      && Room(after, names, chains)
      && s.dirs <= after.dirs && s.files.Keys <= after.files.Keys
      && x.0 in after.files && IsDir(after, DirName(x.0))
  {
    ExtraStaged(s, x);
    ApplyKeeps(s, ExtraOps(x));
  }

  /** The archive's calls succeed in a file system with room for them, and
      leave every file entry at its name inside a directory. */
  lemma {:induction false} ArchiveStaged(s: FsState, es: seq<Entry>, names: set<string>, chains: set<string>)
    requires Room(s, names, chains) && "" !in names && names !! chains
    requires forall k :: 0 <= k < |es| && !EndsWithChar(es[k].name, '/') ==>
      es[k].name in names && DirChain(DirName(es[k].name)) <= chains
    ensures Apply(s, Steps(es, EntryOps)).Some?
    ensures var after := Apply(s, Steps(es, EntryOps)).value;
      && Room(after, names, chains)
      && (forall k :: 0 <= k < |es| && !EndsWithChar(es[k].name, '/') ==>
            es[k].name in after.files && IsDir(after, DirName(es[k].name)))
    decreases |es|
  {
    if |es| > 0 {
      var head := EntryOps(es[0]);
      var rest := Steps(es[1..], EntryOps);
      EntryRoom(s, es[0], names, chains);
      var mid := Apply(s, head).value;
      forall k | 0 <= k < |es[1..]| && !EndsWithChar(es[1..][k].name, '/')
        ensures es[1..][k].name in names && DirChain(DirName(es[1..][k].name)) <= chains
      {
        assert es[1..][k] == es[k + 1];
      }
      ArchiveStaged(mid, es[1..], names, chains);
      ApplyAppend(s, head, rest);
      assert Steps(es, EntryOps) == head + rest;
      var after := Apply(mid, rest).value;
      ApplyKeeps(mid, rest);
      forall k | 0 <= k < |es| && !EndsWithChar(es[k].name, '/')
        ensures es[k].name in after.files && IsDir(after, DirName(es[k].name))
      {
        if k > 0 {
          assert es[k] == es[1..][k - 1];
        }
      }
    }
  }

  /** The extra files' calls succeed in a file system with room for them,
      and leave every extra file at its name inside a directory. */
  lemma {:induction false} ExtrasStaged(s: FsState, xs: seq<(string, Extra)>, names: set<string>, chains: set<string>)
    requires Room(s, names, chains) && "" !in names && names !! chains
    requires forall k :: 0 <= k < |xs| ==> xs[k].0 in names && DirChain(DirName(xs[k].0)) <= chains
    ensures Apply(s, Steps(xs, ExtraOps)).Some?
    ensures var after := Apply(s, Steps(xs, ExtraOps)).value;
      && Room(after, names, chains)
      && s.dirs <= after.dirs && s.files.Keys <= after.files.Keys
      && (forall k :: 0 <= k < |xs| ==> xs[k].0 in after.files && IsDir(after, DirName(xs[k].0)))
    decreases |xs|
  {
    if |xs| > 0 {
      var head := ExtraOps(xs[0]);
      var rest := Steps(xs[1..], ExtraOps);
      ExtraRoom(s, xs[0], names, chains);
      var mid := Apply(s, head).value;
      forall k | 0 <= k < |xs[1..]|
        ensures xs[1..][k].0 in names && DirChain(DirName(xs[1..][k].0)) <= chains
      {
        assert xs[1..][k] == xs[k + 1];
      }
      ExtrasStaged(mid, xs[1..], names, chains);
      ApplyAppend(s, head, rest);
      assert Steps(xs, ExtraOps) == head + rest;
      var after := Apply(mid, rest).value;
      forall k | 0 <= k < |xs|
        ensures xs[k].0 in after.files && IsDir(after, DirName(xs[k].0))
      {
        if k > 0 {
          assert xs[k] == xs[1..][k - 1];
        }
      }
    } else {
      assert Apply(s, Steps(xs, ExtraOps)) == Some(s);
    }
  }

  /** Every staged name and the chain of its parent lie in the sets built
      from the names. */
  lemma NamesCovered(es: seq<Entry>, extras: Option<seq<(string, Extra)>>)
    ensures var names := StagedNames(es, extras);
      && (forall k :: 0 <= k < |es| && !EndsWithChar(es[k].name, '/') ==>
            es[k].name in names && DirChain(DirName(es[k].name)) <= ParentChains(names))
      && (extras.Some? ==> forall k :: 0 <= k < |extras.value| ==>
            extras.value[k].0 in names && DirChain(DirName(extras.value[k].0)) <= ParentChains(names))
  {
    var names := StagedNames(es, extras);
    forall n | n in names
      ensures DirChain(DirName(n)) <= ParentChains(names)
    {
      forall d | d in DirChain(DirName(n))
        ensures d in ParentChains(names)
      {
      }
    }
  }

  /** `setUpSysroot` succeeds when the names it writes leave room for one
      another and for what the file system already holds: no name is "",
      an existing directory, or a directory on some name's parent chain,
      and no existing file lies on such a chain. Every file is then at its
      name, inside a directory made by `mkdirTree` or already present. */
  lemma StagingSucceeds(st: FsState, es: seq<Entry>, extras: Option<seq<(string, Extra)>>)
    requires Consistent(st)
    requires var names := StagedNames(es, extras);
      && "" !in names && names !! st.dirs
      && names !! ParentChains(names) && ParentChains(names) !! st.files.Keys
    ensures Apply(st, Staging(es, extras)).Some?
    ensures var after := Apply(st, Staging(es, extras)).value;
      && Consistent(after)
      && (forall k :: 0 <= k < |es| && !EndsWithChar(es[k].name, '/') ==>
            es[k].name in after.files && IsDir(after, DirName(es[k].name)))
      && (extras.Some? ==> forall k :: 0 <= k < |extras.value| ==>
            extras.value[k].0 in after.files && IsDir(after, DirName(extras.value[k].0)))
  {
    var names := StagedNames(es, extras);
    var chains := ParentChains(names);
    NamesCovered(es, extras);
    ArchiveStaged(st, es, names, chains);
    var mid := Apply(st, Steps(es, EntryOps)).value;
    ApplyAppend(st, Steps(es, EntryOps), ExtrasPlan(extras));
    if extras.Some? {
      ExtrasStaged(mid, extras.value, names, chains);
    } else {
      assert Apply(mid, ExtrasPlan(extras)) == Some(mid);
    }
  }

  // ---------------------------------------------------------------------
  // The method
  // ---------------------------------------------------------------------

  /** Where the calls `ops` leave the file system, and whether all of
      them succeeded: when one throws, the state the calls before it left. */
  function Run(st: FsState, ops: seq<Op>): (FsState, bool)
    decreases |ops|
  {
    if |ops| == 0 then (st, true)
    else
      var r := Run(st, ops[..|ops| - 1]);
      if !r.1 then r
      else match ApplyOp(r.0, ops[|ops| - 1])
        case None => (r.0, false)
        case Some(s) => (s, true)
  }

  /** The calls succeed exactly when `Apply` has a result, and then they
      reach that result. */
  lemma {:induction false} RunIsApply(st: FsState, ops: seq<Op>)
    ensures Run(st, ops).1 == Apply(st, ops).Some?
    ensures Run(st, ops).1 ==> Apply(st, ops) == Some(Run(st, ops).0)
    decreases |ops|
  {
    if |ops| > 0 {
      RunIsApply(st, ops[..|ops| - 1]);
    }
  }

  /** When the calls all succeed, the files are those before overwritten
      by the writes among the calls. */
  lemma RunFiles(st: FsState, ops: seq<Op>)
    requires Run(st, ops).1
    ensures Run(st, ops).0.files == st.files + Writes(ops)
  {
    RunIsApply(st, ops);
    ApplyFiles(st, ops);
  }

  /** Two calls: the second is made only when the first succeeds. */
  lemma RunPair(st: FsState, a: Op, b: Op)
    ensures Run(st, [a, b]) ==
      match ApplyOp(st, a)
      case None => (st, false)
      case Some(s) =>
        match ApplyOp(s, b)
        case None => (s, false)
        case Some(s2) => (s2, true)
  {
    assert [a, b][..1] == [a];
    assert [a][..0] == [];
    assert Run(st, [a]) == match ApplyOp(st, a) case None => (st, false) case Some(s) => (s, true);
  }

  /** Calls after one that throws are never made. */
  lemma {:induction false} RunAppend(st: FsState, a: seq<Op>, b: seq<Op>)
    ensures Run(st, a + b) == if Run(st, a).1 then Run(Run(st, a).0, b) else Run(st, a)
    decreases |b|
  {
    if |b| == 0 {
      assert a + b == a;
    } else {
      RunAppend(st, a, b[..|b| - 1]);
      assert (a + b)[..|a + b| - 1] == a + b[..|b| - 1];
    }
  }

  /** Call `k` is made only when the calls before it all succeeded. */
  lemma RunPrefix(st: FsState, ops: seq<Op>, k: nat)
    requires k < |ops|
    ensures Run(st, ops[..k + 1]) ==
      if !Run(st, ops[..k]).1 then Run(st, ops[..k])
      else match ApplyOp(Run(st, ops[..k]).0, ops[k])
        case None => (Run(st, ops[..k]).0, false)
        case Some(s) => (s, true)
  {
    assert ops[..k + 1][..k] == ops[..k];
  }

  /** Once a call has thrown, the calls after it change nothing. */
  lemma RunStops(st: FsState, ops: seq<Op>, k: nat)
    requires k <= |ops| && !Run(st, ops[..k]).1
    ensures Run(st, ops) == Run(st, ops[..k])
  {
    RunAppend(st, ops[..k], ops[k..]);
    assert ops[..k] + ops[k..] == ops;
  }

  /** The calls of the elements from `j` on are those of element `j`
      followed by those of the elements after it. */
  lemma StepsNext<T>(xs: seq<T>, j: nat, f: T -> seq<Op>, done: seq<Op>, ops: seq<Op>)
    requires j < |xs| && done + Steps(xs[j..], f) == ops
    ensures (done + f(xs[j])) + Steps(xs[j + 1..], f) == ops
  {
    assert xs[j..][1..] == xs[j + 1..];
  }

  /** Makes one call on `fs`: `EnsureDir` is an `analyzePath` followed,
      when the path is missing, by a `mkdirTree`. */
  method Call(fs: FileSystem, op: Op) returns (ok: bool)
    modifies fs
    ensures ok == ApplyOp(old(fs.State()), op).Some?
    ensures fs.State() == if ok then ApplyOp(old(fs.State()), op).value else old(fs.State())
  {
    match op {
      case EnsureDir(p) =>
        ok := true;
        var found := fs.AnalyzePath(p);
        if !found {
          ok := fs.MkdirTree(p);
        }
      case MakeDirs(p) =>
        ok := fs.MkdirTree(p);
      case Put(p, content) =>
        ok := fs.WriteFile(p, content);
    }
  }

  /** Makes the calls `ops` on `fs` in order, stopping at the first that
      throws. */
  method Perform(fs: FileSystem, ops: seq<Op>) returns (ok: bool)
    modifies fs
    ensures (fs.State(), ok) == Run(old(fs.State()), ops)
  {
    ghost var st := fs.State();
    ok := true;
    var i := 0;
    assert ops[..0] == [];
    while i < |ops|
      invariant 0 <= i <= |ops|
      invariant Run(st, ops[..i]) == (fs.State(), true)
    {
      RunPrefix(st, ops, i);
      ok := Call(fs, ops[i]);
      if !ok {
        RunStops(st, ops, i + 1);
        return;
      }
      i := i + 1;
    }
    assert ops[..i] == ops;
  }

  /** The body of the first loop (index.ts:64-70) for one entry. */
  method StageEntry(fs: FileSystem, e: Entry) returns (ok: bool)
    modifies fs
    ensures (fs.State(), ok) == Run(old(fs.State()), EntryOps(e))
  {
    ghost var st := fs.State();
    ok := true;
    if EndsWithChar(e.name, '/') {
      return;
    }
    var dir := DirName(e.name);
    RunPair(st, EnsureDir(dir), Put(e.name, e.content));
    ok := Call(fs, EnsureDir(dir));
    if !ok {
      return;
    }
    ok := Call(fs, Put(e.name, e.content));
  }

  /** The body of the second loop (index.ts:75-82) for one extra file. */
  method StageExtra(fs: FileSystem, x: (string, Extra)) returns (ok: bool)
    modifies fs
    ensures (fs.State(), ok) == Run(old(fs.State()), ExtraOps(x))
  {
    ghost var st := fs.State();
    var (name, content) := x;
    var dir := DirName(name);
    RunPair(st, MakeDirs(dir), Put(name, ExtraBytes(content)));
    ok := fs.MkdirTree(dir);
    if !ok {
      return;
    }
    var bytes := match content case Text(s) => Utf8(s) case Binary(b) => b;
    ok := fs.WriteFile(name, bytes);
  }

  /** The first loop (index.ts:63-71) over the archive's entries. */
  method StageArchive(fs: FileSystem, entries: seq<Entry>) returns (ok: bool)
    modifies fs
    ensures (fs.State(), ok) == Run(old(fs.State()), Steps(entries, EntryOps))
  {
    ghost var st0 := fs.State();
    ghost var ops := Steps(entries, EntryOps);
    ghost var done: seq<Op> := [];
    var i := 0;
    while i < |entries|
      invariant i <= |entries|
      invariant done + Steps(entries[i..], EntryOps) == ops
      invariant Run(st0, done) == (fs.State(), true)
    {
      var e := entries[i];
      StepsNext(entries, i, EntryOps, done, ops);
      ok := StageEntry(fs, e);
      RunAppend(st0, done, EntryOps(e));
      done := done + EntryOps(e);
      if !ok {
        RunAppend(st0, done, Steps(entries[i + 1..], EntryOps));
        return;
      }
      i := i + 1;
    }
    assert done == ops;
    ok := true;
  }

  /** The second loop (index.ts:74-83) over the extra files. */
  method StageExtras(fs: FileSystem, xs: seq<(string, Extra)>) returns (ok: bool)
    modifies fs
    ensures (fs.State(), ok) == Run(old(fs.State()), Steps(xs, ExtraOps))
  {
    ghost var st0 := fs.State();
    ghost var ops := Steps(xs, ExtraOps);
    ghost var done: seq<Op> := [];
    var j := 0;
    while j < |xs|
      invariant j <= |xs|
      invariant done + Steps(xs[j..], ExtraOps) == ops
      invariant Run(st0, done) == (fs.State(), true)
    {
      StepsNext(xs, j, ExtraOps, done, ops);
      ok := StageExtra(fs, xs[j]);
      RunAppend(st0, done, ExtraOps(xs[j]));
      done := done + ExtraOps(xs[j]);
      if !ok {
        RunAppend(st0, done, Steps(xs[j + 1..], ExtraOps));
        return;
      }
      j := j + 1;
    }
    assert done == ops;
    ok := true;
  }

  /** `setUpSysroot(module, tar, extraFiles)` on the file system `fs`: it
      issues the calls `Staging` lists for the entries of `tar`, and `ok`
      is false where one of them throws, the file system then being left as
      the calls before that one made it. */
  method SetUpSysroot(fs: FileSystem, tar: seq<byte>, extras: Option<seq<(string, Extra)>>) returns (ok: bool)
    modifies fs
    ensures (fs.State(), ok) == Run(old(fs.State()), Staging(Entries(tar, 0), extras))
  {
    ghost var st0 := fs.State();
    var entries := TarContents(tar);
    ghost var archive := Steps(entries, EntryOps);
    ok := StageArchive(fs, entries);
    RunAppend(st0, archive, ExtrasPlan(extras));
    if !ok {
      return;
    }
    if extras.Some? {
      ok := StageExtras(fs, extras.value);
    } else {
      assert Run(fs.State(), []) == (fs.State(), true);
    }
  }
}
