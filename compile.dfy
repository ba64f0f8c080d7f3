/** `compile` (index.ts:136-199): a dry run finds the compiler's and the
    linker's command lines; a Clang instance gets the source file and the
    sysroot and compiles; its object file is handed to an LLD instance,
    which gets the same sysroot and links. Both instances print into one
    `stderr` text, which is what the job reports. */
module Compiler {
  import opened Wrappers
  import opened Strings
  import opened Tar
  import opened VirtualFs
  import opened Sandboxes
  import opened Sysroot
  import opened Driver

  /** What a tool's `callMain` does, as `Sandbox.tool`. */
  type Tool = (seq<string>, FsState) -> Sandboxes.Run

  /** A `CompilationJob`. */
  datatype Job = Job(
    source: string,
    fileName: string,
    flags: seq<string>,
    extraFiles: Option<seq<(string, Extra)>>)

  /** A `CompilationResult`; `wasm` (the source's `module`) holds the linked binary where the
      source compiles it with `WebAssembly.compile`, and is `None` where the
      source has `null`. */
  datatype CompilationResult = CompilationResult(compileOutput: string, wasm: Option<seq<byte>>)

  /** What `compile` resolves or rejects with, and the argument vectors it
      gives the compiler's and the linker's `callMain`. */
  datatype Outcome = Outcome(
    result: Result<CompilationResult, Failure>,
    compilerCalls: seq<seq<string>>,
    linkerCalls: seq<seq<string>>)

  /** Where a fresh instance's file system is left when `compile` writes
      its first file and then sets up the sysroot on it, and whether every
      call succeeded. */
  function Prepared(st: FsState, path: string, content: seq<byte>, sysroot: seq<byte>,
                    extras: Option<seq<(string, Extra)>>): (FsState, bool)
  {
    Sysroot.Run(st, [Put(path, content)] + Staging(Entries(sysroot, 0), extras))
  }

  /** `FS.readFile(path)`: throws when `path` is undefined or names no file. */
  function ReadAt(st: FsState, path: Option<string>): (content: Option<seq<byte>>)
    ensures content.Some? <==> path.Some? && path.value in st.files
    ensures content.Some? ==> content.value == st.files[path.value]
  {
    if path.Some? && path.value in st.files then Some(st.files[path.value]) else None
  }

  /** The tools run at most once each, with the arguments the dry run
      found, and the linker only after the compiler; a module is reported
      only when the linker ran. */
  predicate RunsInOrder(o: Outcome, inv: Result<Invocation, Failure>) {
    && |o.compilerCalls| <= 1 && |o.linkerCalls| <= 1
    && (o.compilerCalls != [] ==> inv.Ok? && o.compilerCalls == [inv.value.compilerArgs])
    && (o.linkerCalls != [] ==> o.compilerCalls != [] && o.linkerCalls == [inv.value.linkerArgs])
    && (o.result.Ok? && o.result.value.wasm.Some? ==> o.linkerCalls != [])
  }

  /** The whole of `compile`: the dry run on `dry0`, the compiler on
      `cc0` and the linker on `ld0`. */
  function Compilation(job: Job, sysroot: seq<byte>, dry: Tool, cc: Tool, ld: Tool,
                       dry0: FsState, cc0: FsState, ld0: FsState): (o: Outcome)
    ensures RunsInOrder(o, DryRun(dry, dry0, job.fileName, job.source, job.flags))
    ensures o.result.Err? ==> o.result.error != DriverFailed(0)
  {
    match DryRun(dry, dry0, job.fileName, job.source, job.flags)
    case Err(f) => Outcome(Err(f), [], [])
    case Ok(inv) => CompilerStage(job, sysroot, inv, cc, ld, cc0, ld0)
  }

  /** index.ts:161-176, once the invocation is known. */
  function CompilerStage(job: Job, sysroot: seq<byte>, inv: Invocation, cc: Tool, ld: Tool,
                         cc0: FsState, ld0: FsState): (o: Outcome)
    ensures RunsInOrder(o, Ok(inv))
    ensures o.result.Err? ==> o.result.error == FileSystemError || o.result.error == MissingArtifact
  {
    var staged := Prepared(cc0, job.fileName, Utf8(job.source), sysroot, job.extraFiles);
    if !staged.1 then Outcome(Err(FileSystemError), [], [])
    else
      var run := cc(inv.compilerArgs, staged.0);
      var stderr := Lines(run.printed);
      if run.exitCode != 0 then Outcome(Ok(CompilationResult(stderr, None)), [inv.compilerArgs], [])
      else
        match ReadAt(Emit(staged.0, run.outputs), inv.compilerArtifact)
        case None => Outcome(Err(MissingArtifact), [inv.compilerArgs], [])
        case Some(binary) =>
          var linked := LinkerStage(job, sysroot, inv, inv.compilerArtifact.value, binary, stderr, ld, ld0);
          Outcome(linked.result, [inv.compilerArgs], linked.linkerCalls)
  }

  /** index.ts:178-198, once the object file `binary` has been read from
      `artifact` and the compiler has printed `stderr`. */
  function LinkerStage(job: Job, sysroot: seq<byte>, inv: Invocation, artifact: string,
                       binary: seq<byte>, stderr: string, ld: Tool, ld0: FsState): (o: Outcome)
    ensures o.compilerCalls == []
    ensures |o.linkerCalls| <= 1 && (o.linkerCalls != [] ==> o.linkerCalls == [inv.linkerArgs])
    ensures o.result.Ok? ==> o.linkerCalls != [] && stderr <= o.result.value.compileOutput
    ensures o.result.Err? ==> o.result.error == FileSystemError || o.result.error == MissingArtifact
  {
    var staged := Prepared(ld0, artifact, binary, sysroot, job.extraFiles);
    if !staged.1 then Outcome(Err(FileSystemError), [], [])
    else
      var run := ld(inv.linkerArgs, staged.0);
      var text := stderr + Lines(run.printed);
      if run.exitCode != 0 then Outcome(Ok(CompilationResult(text, None)), [], [inv.linkerArgs])
      else
        match ReadAt(Emit(staged.0, run.outputs), inv.linkerArtifact)
        case None => Outcome(Err(MissingArtifact), [], [inv.linkerArgs])
        case Some(output) => Outcome(Ok(CompilationResult(text, Some(output))), [], [inv.linkerArgs])
  }

  // ---------------------------------------------------------------------
  // What compile promises
  // ---------------------------------------------------------------------

  /** A dry run that throws makes `compile` reject with the same error
      before the compiler or the linker runs. */
  lemma DryRunFailureStops(job: Job, sysroot: seq<byte>, dry: Tool, cc: Tool, ld: Tool,
                           dry0: FsState, cc0: FsState, ld0: FsState)
    requires DryRun(dry, dry0, job.fileName, job.source, job.flags).Err?
    ensures var o := Compilation(job, sysroot, dry, cc, ld, dry0, cc0, ld0);
      && o.result == Err(DryRun(dry, dry0, job.fileName, job.source, job.flags).error)
      && o.compilerCalls == [] && o.linkerCalls == []
  {
  }

  /** The compiler runs at most once and only with the arguments the dry
      run found; the linker runs at most once, only with the linker
      arguments the dry run found, and only after the compiler exited
      with 0 and left a file at its output path. */
  lemma LinkerOnlyAfterCompiler(job: Job, sysroot: seq<byte>, dry: Tool, cc: Tool, ld: Tool,
                                dry0: FsState, cc0: FsState, ld0: FsState)
    ensures var o := Compilation(job, sysroot, dry, cc, ld, dry0, cc0, ld0);
      var inv := DryRun(dry, dry0, job.fileName, job.source, job.flags);
      && |o.compilerCalls| <= 1 && |o.linkerCalls| <= 1
      && (o.compilerCalls != [] ==> inv.Ok? && o.compilerCalls == [inv.value.compilerArgs])
      && (o.linkerCalls != [] ==> inv.Ok? && LinksAfterCompiling(job, sysroot, inv.value, cc, ld, cc0, ld0))
  {
    var inv := DryRun(dry, dry0, job.fileName, job.source, job.flags);
    if inv.Ok? {
      StageOrder(job, sysroot, inv.value, cc, ld, cc0, ld0);
    }
  }

  /** The linker's run, given the invocation, came after a compiler run
      that exited with 0 and left a file at the compiler's output path. */
  ghost predicate LinksAfterCompiling(job: Job, sysroot: seq<byte>, inv: Invocation, cc: Tool, ld: Tool,
                                      cc0: FsState, ld0: FsState)
  {
    var o := CompilerStage(job, sysroot, inv, cc, ld, cc0, ld0);
    var staged := Prepared(cc0, job.fileName, Utf8(job.source), sysroot, job.extraFiles);
    && staged.1
    && cc(inv.compilerArgs, staged.0).exitCode == 0
    && ReadAt(Emit(staged.0, cc(inv.compilerArgs, staged.0).outputs), inv.compilerArtifact).Some?
    && o.compilerCalls == [inv.compilerArgs]
    && o.linkerCalls == [inv.linkerArgs]
  }

  /** `LinkerOnlyAfterCompiler` once the invocation is known. */
  lemma StageOrder(job: Job, sysroot: seq<byte>, inv: Invocation, cc: Tool, ld: Tool,
                   cc0: FsState, ld0: FsState)
    ensures var o := CompilerStage(job, sysroot, inv, cc, ld, cc0, ld0);
      && |o.compilerCalls| <= 1 && |o.linkerCalls| <= 1
      && (o.compilerCalls != [] ==> o.compilerCalls == [inv.compilerArgs])
      && (o.linkerCalls != [] ==> LinksAfterCompiling(job, sysroot, inv, cc, ld, cc0, ld0))
  {
    var staged := Prepared(cc0, job.fileName, Utf8(job.source), sysroot, job.extraFiles);
    if staged.1 {
      var run := cc(inv.compilerArgs, staged.0);
      var binary := ReadAt(Emit(staged.0, run.outputs), inv.compilerArtifact);
      if run.exitCode == 0 && binary.Some? {
        var linked := LinkerStage(job, sysroot, inv, inv.compilerArtifact.value, binary.value,
                                  Lines(run.printed), ld, ld0);
        assert |linked.linkerCalls| <= 1 && (linked.linkerCalls != [] ==> linked.linkerCalls == [inv.linkerArgs]);
      }
    }
  }

  /** A compiler that exits with a non-zero code makes `compile` resolve
      with what the compiler printed and no module, and the linker never
      runs. */
  lemma CompilerFailureReported(job: Job, sysroot: seq<byte>, inv: Invocation, cc: Tool, ld: Tool,
                                cc0: FsState, ld0: FsState)
    requires Prepared(cc0, job.fileName, Utf8(job.source), sysroot, job.extraFiles).1
    requires cc(inv.compilerArgs, Prepared(cc0, job.fileName, Utf8(job.source), sysroot, job.extraFiles).0).exitCode != 0
    ensures var o := CompilerStage(job, sysroot, inv, cc, ld, cc0, ld0);
      var run := cc(inv.compilerArgs, Prepared(cc0, job.fileName, Utf8(job.source), sysroot, job.extraFiles).0);
      && o.result == Ok(CompilationResult(Lines(run.printed), None))
      && o.linkerCalls == []
  {
  }

  /** The file the first write puts at `path` survives the sysroot unless
      the sysroot writes `path` itself; every other file is as the
      sysroot's writes leave it. */
  lemma FirstFileKept(st: FsState, path: string, content: seq<byte>, sysroot: seq<byte>,
                      extras: Option<seq<(string, Extra)>>)
    requires Prepared(st, path, content, sysroot, extras).1
    ensures Prepared(st, path, content, sysroot, extras).0.files
      == st.files[path := content] + Writes(Staging(Entries(sysroot, 0), extras))
    ensures path !in Writes(Staging(Entries(sysroot, 0), extras)) ==>
      && path in Prepared(st, path, content, sysroot, extras).0.files
      && Prepared(st, path, content, sysroot, extras).0.files[path] == content
  {
    FirstWriteKept(st, path, content, Staging(Entries(sysroot, 0), extras));
  }

  /** `FirstFileKept` for any calls after the first write. */
  lemma FirstWriteKept(st: FsState, path: string, content: seq<byte>, ops: seq<Op>)
    requires Sysroot.Run(st, [Put(path, content)] + ops).1
    ensures Sysroot.Run(st, [Put(path, content)] + ops).0.files == st.files[path := content] + Writes(ops)
  {
    RunFiles(st, [Put(path, content)] + ops);
    WritesFirst(path, content, ops);
    MapAddAssoc(st.files, map[path := content], Writes(ops));
    assert st.files + map[path := content] == st.files[path := content];
  }

  /** The writes of a write followed by `ops`. */
  lemma WritesFirst(path: string, content: seq<byte>, ops: seq<Op>)
    ensures Writes([Put(path, content)] + ops) == map[path := content] + Writes(ops)
  {
    WritesAppend([Put(path, content)], ops);
    assert [Put(path, content)][..0] == [];
  }

  /** When the linker runs, its file system was staged from the object
      file the compiler left at its output path; so, unless the sysroot
      writes that path too, the linker finds the compiler's bytes there. */
  lemma ObjectHandedOver(job: Job, sysroot: seq<byte>, inv: Invocation, cc: Tool, ld: Tool,
                         cc0: FsState, ld0: FsState)
    requires LinksAfterCompiling(job, sysroot, inv, cc, ld, cc0, ld0)
    ensures var staged := Prepared(cc0, job.fileName, Utf8(job.source), sysroot, job.extraFiles).0;
      var compiled := Emit(staged, cc(inv.compilerArgs, staged).outputs);
      var binary := ReadAt(compiled, inv.compilerArtifact);
      && binary.Some?
      && var linking := Prepared(ld0, inv.compilerArtifact.value, binary.value, sysroot, job.extraFiles);
         && linking.1
         && (inv.compilerArtifact.value !in Writes(Staging(Entries(sysroot, 0), job.extraFiles)) ==>
               && inv.compilerArtifact.value in linking.0.files
               && linking.0.files[inv.compilerArtifact.value] == compiled.files[inv.compilerArtifact.value])
  {
    var staged := Prepared(cc0, job.fileName, Utf8(job.source), sysroot, job.extraFiles).0;
    var compiled := Emit(staged, cc(inv.compilerArgs, staged).outputs);
    var binary := ReadAt(compiled, inv.compilerArtifact);
    var p := inv.compilerArtifact.value;
    assert Prepared(ld0, p, binary.value, sysroot, job.extraFiles).1;
    FirstFileKept(ld0, p, binary.value, sysroot, job.extraFiles);
  }

  /** A module is reported only when both tools exited with 0; it is the
      file the linker left at its output path, and the reported text is
      what the compiler printed followed by what the linker printed. */
  lemma ModuleFromLinker(job: Job, sysroot: seq<byte>, inv: Invocation, artifact: string, binary: seq<byte>,
                         stderr: string, ld: Tool, ld0: FsState)
    requires var r := LinkerStage(job, sysroot, inv, artifact, binary, stderr, ld, ld0).result;
      r.Ok? && r.value.wasm.Some?
    ensures var linking := Prepared(ld0, artifact, binary, sysroot, job.extraFiles);
      var run := ld(inv.linkerArgs, linking.0);
      var linked := Emit(linking.0, run.outputs);
      var r := LinkerStage(job, sysroot, inv, artifact, binary, stderr, ld, ld0).result.value;
      && linking.1 && run.exitCode == 0
      && inv.linkerArtifact.Some? && inv.linkerArtifact.value in linked.files
      && r.wasm == Some(linked.files[inv.linkerArtifact.value])
      && r.compileOutput == stderr + Lines(run.printed)
  {
  }

  // ---------------------------------------------------------------------
  // The method
  // ---------------------------------------------------------------------

  /** Writes the first file and sets up the sysroot (index.ts:162-163 and
      179-180). */
  method Prepare(fs: FileSystem, path: string, content: seq<byte>, sysroot: seq<byte>,
                 extras: Option<seq<(string, Extra)>>) returns (ok: bool)
    modifies fs
    ensures (fs.State(), ok) == Prepared(old(fs.State()), path, content, sysroot, extras)
  {
    ghost var st := fs.State();
    ghost var first := [Put(path, content)];
    RunAppend(st, first, Staging(Entries(sysroot, 0), extras));
    assert first[..0] == [];
    ok := fs.WriteFile(path, content);
    if !ok {
      return;
    }
    ok := SetUpSysroot(fs, sysroot, extras);
  }

  /** `compile(job)` with the sysroot archive `sysroot`, on the fresh
      instances `dry` (the one `getCompilerInvocation` makes), `clang` and
      `lld`; the last two share the `stderr` text. */
  method Compile(job: Job, sysroot: seq<byte>, dry: Sandbox, clang: Sandbox, lld: Sandbox)
    returns (r: Result<CompilationResult, Failure>)
    requires clang != lld && dry != clang && dry != lld
    requires clang.fs != lld.fs && dry.fs != clang.fs && dry.fs != lld.fs
    requires dry.sink != clang.sink && clang.sink == lld.sink
    requires dry.sink.text == "" && clang.sink.text == ""
    modifies dry, dry.fs, dry.sink, clang, clang.fs, clang.sink, lld, lld.fs
    ensures var o := Compilation(job, sysroot, dry.tool, clang.tool, lld.tool,
                                 old(dry.fs.State()), old(clang.fs.State()), old(lld.fs.State()));
      && r == o.result
      && clang.calls == old(clang.calls) + o.compilerCalls
      && lld.calls == old(lld.calls) + o.linkerCalls
  {
    var invocation := GetCompilerInvocation(dry, job.fileName, job.source, job.flags);
    if invocation.Err? {
      return Err(invocation.error);
    }
    r := CompileWith(job, sysroot, invocation.value, clang, lld);
  }

  /** index.ts:161-198 with the invocation known. */
  method CompileWith(job: Job, sysroot: seq<byte>, inv: Invocation, clang: Sandbox, lld: Sandbox)
    returns (r: Result<CompilationResult, Failure>)
    requires clang != lld && clang.fs != lld.fs && clang.sink == lld.sink && clang.sink.text == ""
    modifies clang, clang.fs, clang.sink, lld, lld.fs
    ensures var o := CompilerStage(job, sysroot, inv, clang.tool, lld.tool, old(clang.fs.State()), old(lld.fs.State()));
      && r == o.result
      && clang.calls == old(clang.calls) + o.compilerCalls
      && lld.calls == old(lld.calls) + o.linkerCalls
  {
    var ok := Prepare(clang.fs, job.fileName, Utf8(job.source), sysroot, job.extraFiles);
    if !ok {
      return Err(FileSystemError);
    }
    ghost var run := clang.tool(inv.compilerArgs, clang.fs.State());
    var exitCode := clang.CallMain(inv.compilerArgs);
    assert clang.sink.text == Lines(run.printed);
    if exitCode != 0 {
      return Ok(CompilationResult(clang.sink.text, None));
    }
    if inv.compilerArtifact.None? {
      return Err(MissingArtifact);
    }
    var binary := clang.fs.ReadFile(inv.compilerArtifact.value);
    if binary.None? {
      return Err(MissingArtifact);
    }
    r := Link(job, sysroot, inv, inv.compilerArtifact.value, binary.value, lld);
  }

  /** index.ts:178-198, given the object file. */
  method Link(job: Job, sysroot: seq<byte>, inv: Invocation, artifact: string,
              binary: seq<byte>, lld: Sandbox)
    returns (r: Result<CompilationResult, Failure>)
    modifies lld, lld.fs, lld.sink
    ensures var o := LinkerStage(job, sysroot, inv, artifact, binary, old(lld.sink.text), lld.tool, old(lld.fs.State()));
      && r == o.result
      && lld.calls == old(lld.calls) + o.linkerCalls
  {
    var ok := Prepare(lld.fs, artifact, binary, sysroot, job.extraFiles);
    if !ok {
      return Err(FileSystemError);
    }
    var exitCode := lld.CallMain(inv.linkerArgs);
    if exitCode != 0 {
      return Ok(CompilationResult(lld.sink.text, None));
    }
    if inv.linkerArtifact.None? {
      return Err(MissingArtifact);
    }
    var output := lld.fs.ReadFile(inv.linkerArtifact.value);
    if output.None? {
      return Err(MissingArtifact);
    }
    r := Ok(CompilationResult(lld.sink.text, Some(output.value)));
  }
}
