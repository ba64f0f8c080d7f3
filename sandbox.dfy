/** A Clang or LLD instance as `compile` sees it (Module.d.ts:3-19): a
    file system, the `printErr` sink it was instantiated with, and
    `callMain`. What the tool does with its arguments is not part of this
    model; it is an oracle fixed when the instance is created. */
module Sandboxes {
  import opened Strings
  import opened Paths
  import opened VirtualFs

  /** What one run of the tool does, given its arguments and the file system
      it starts from: its exit code, the lines it prints through `printErr`
      and the files it writes. */
  datatype Run = Run(exitCode: int, printed: seq<string>, outputs: map<string, seq<byte>>)

  /** The text a sequence of `printErr` calls appends: each line followed
      by a line feed, so that text ends with one whenever a line was
      printed. */
  function Lines(printed: seq<string>): (text: string)
    ensures |text| >= |printed|
    ensures |printed| > 0 ==> text[|text| - 1] == '\n'
    decreases |printed|
  {
    if |printed| == 0 then "" else Lines(printed[..|printed| - 1]) + printed[|printed| - 1] + "\n"
  }

  /** The printed text is the lines joined by line feeds, with one more
      after the last. */
  lemma {:induction false} LinesJoin(printed: seq<string>)
    ensures Lines(printed) == Join(printed + [""], '\n')
    decreases |printed|
  {
    var n := |printed|;
    if n > 0 {
      var init := printed[..n - 1];
      assert (printed + [""])[..n] == printed;
      JoinSnoc(printed + [""], '\n');
      LinesJoin(init);
      if n >= 2 {
        assert (init + [""])[..n - 1] == init;
        JoinSnoc(printed, '\n');
        JoinSnoc(init + [""], '\n');
      }
    }
  }

  /** The text `getArgs` splits on line feeds gives back the printed lines
      (and the empty text after the last line feed), when no printed line
      holds a line feed itself. */
  lemma LinesSplit(printed: seq<string>)
    requires forall k :: 0 <= k < |printed| ==> '\n' !in printed[k]
    ensures Split(Lines(printed), '\n') == printed + [""]
  {
    LinesJoin(printed);
    SplitJoin(printed + [""], '\n');
  }

  /** The file system after a run: each output whose path the file system
      accepts as a file is written; the tool creates no directory, and no
      other file changes. */
  function Emit(st: FsState, outputs: map<string, seq<byte>>): (after: FsState)
    ensures after.dirs == st.dirs
    ensures forall p :: p in outputs && CanWrite(st, p) ==> p in after.files && after.files[p] == outputs[p]
    ensures forall p :: p in after.files && !(p in outputs && CanWrite(st, p)) ==>
      p in st.files && after.files[p] == st.files[p]
  {
    FsState(st.files + map p | p in outputs && CanWrite(st, p) :: outputs[p], st.dirs)
  }

  /** A run keeps the file-system invariant and writes nothing it could not
      write through `writeFile`. */
  lemma EmitKeeps(st: FsState, outputs: map<string, seq<byte>>)
    requires Consistent(st)
    ensures Consistent(Emit(st, outputs))
    ensures Emit(st, outputs).dirs == st.dirs
    ensures forall p :: p in Emit(st, outputs).files ==> p in st.files || (p in outputs && CanWrite(st, p))
  {
    var after := Emit(st, outputs);
    forall p | p in after.files
      ensures IsDir(after, DirName(p)) && p !in after.dirs
    {
      if p !in st.files {
        assert CanWrite(st, p);
      }
    }
    forall d | d in after.dirs
      ensures IsDir(after, DirName(d))
    {
      assert IsDir(st, DirName(d));
    }
  }

  class Sandbox {
    const fs: FileSystem
    const sink: Diagnostics
    const tool: (seq<string>, FsState) -> Run
    /** The argument vectors `callMain` has been given, oldest first. */
    ghost var calls: seq<seq<string>>

    constructor (fs: FileSystem, sink: Diagnostics, tool: (seq<string>, FsState) -> Run)
      ensures this.fs == fs && this.sink == sink && this.tool == tool
      ensures calls == []
    {
      this.fs := fs;
      this.sink := sink;
      this.tool := tool;
      calls := [];
    }

    /** `callMain(argv)`: the tool prints its diagnostics line by line, writes
        its outputs and returns its exit code. */
    method CallMain(argv: seq<string>) returns (exitCode: int)
      modifies this, fs, sink
      ensures calls == old(calls) + [argv]
      ensures var run := tool(argv, old(fs.State()));
        && exitCode == run.exitCode
        && sink.text == old(sink.text) + Lines(run.printed)
        && fs.State() == Emit(old(fs.State()), run.outputs)
    {
      var run := tool(argv, fs.State());
      var i := 0;
      while i < |run.printed|
        invariant 0 <= i <= |run.printed|
        invariant sink.text == old(sink.text) + Lines(run.printed[..i])
        invariant fs.State() == old(fs.State()) && calls == old(calls)
      {
        sink.Print(run.printed[i]);
        assert run.printed[..i + 1][..i] == run.printed[..i];
        i := i + 1;
      }
      assert run.printed[..i] == run.printed;
      var after := Emit(fs.State(), run.outputs);
      fs.files := after.files;
      calls := calls + [argv];
      exitCode := run.exitCode;
    }
  }
}
