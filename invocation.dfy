/** `getCompilerInvocation` (index.ts:88-134): a dry run of the Clang driver
    with `-###`, which prints the command lines it would run instead of
    running them, and `getArgs`, which reads the compiler's and the linker's
    arguments and output files back from that text. */
module Driver {
  import opened Wrappers
  import opened Strings
  import opened Paths
  import opened VirtualFs
  import opened Sandboxes
  import opened Sysroot

  /** Why `getCompilerInvocation` or `compile` rejects. */
  datatype Failure =
    | FileSystemError                // a call on a sandbox's `FS` threw
    | DriverFailed(code: int)        // "Clang driver failed with code …" (index.ts:108-111)
    | NoQuotedArguments(key: string) // `match(…)` gave null, so `.map` threw (index.ts:116-119)
    | MissingArtifact                // `readFile` of an undefined or absent path threw

  // ---------------------------------------------------------------------
  // getArgs
  // ---------------------------------------------------------------------

  /** The contents of the `"…"` substrings of `line`, left to right and
      without their quotes: `line.match(/"([^"]*)"/g)` with each match's
      first and last character sliced off. A last quote without a partner
      starts no substring. */
  function QuotedStrings(line: string): (words: seq<string>)
    ensures forall k :: 0 <= k < |words| ==> '"' !in words[k]
    decreases |line|
  {
    match IndexOf(line, '"')
    case None => []
    case Some(i) =>
      var rest := line[i + 1..];
      match IndexOf(rest, '"')
      case None => []
      case Some(j) => [rest[..j]] + QuotedStrings(rest[j + 1..])
  }

  /** How the driver prints a command line under `-###`: each word in
      double quotes, after a space. */
  function QuotedLine(words: seq<string>): string
    decreases |words|
  {
    if |words| == 0 then "" else " \"" + words[0] + "\"" + QuotedLine(words[1..])
  }

  /** Reading the quoted words back from a printed command line gives the
      words, as long as none holds a double quote. */
  lemma {:induction false} QuotedRoundTrip(words: seq<string>)
    requires forall k :: 0 <= k < |words| ==> '"' !in words[k]
    ensures QuotedStrings(QuotedLine(words)) == words
    decreases |words|
  {
    if |words| > 0 {
      QuotedHead(words[0], QuotedLine(words[1..]));
      QuotedRoundTrip(words[1..]);
      assert words == [words[0]] + words[1..];
    }
  }

  /** The first quoted word of a printed command line, and the rest. */
  lemma QuotedHead(w: string, rest: string)
    requires '"' !in w
    ensures QuotedStrings(" \"" + w + "\"" + rest) == [w] + QuotedStrings(rest)
  {
    var line := " \"" + w + "\"" + rest;
    assert line == [' '] + ['"'] + (w + ['"'] + rest);
    IndexOfAfter([' '], '"', w + ['"'] + rest);
    assert line[2..] == w + ['"'] + rest;
    IndexOfAfter(w, '"', rest);
    assert (w + ['"'] + rest)[..|w|] == w;
    assert (w + ['"'] + rest)[|w| + 1..] == rest;
  }

  /** The position of the line `lines.find((line) => line.includes(key))`
      returns, or `None` where it returns undefined. */
  function FindLine(lines: seq<string>, key: string): (found: Option<nat>)
    ensures found.None? <==> forall k :: 0 <= k < |lines| ==> !Contains(lines[k], key)
    ensures found.Some? ==> found.value < |lines| && Contains(lines[found.value], key)
    ensures found.Some? ==> forall k :: 0 <= k < found.value ==> !Contains(lines[k], key)
    decreases |lines|
  {
    if |lines| == 0 then None
    else if Contains(lines[0], key) then Some(0)
    else match FindLine(lines[1..], key)
      case None => None
      case Some(k) => Some(k + 1)
  }

  /** `xs.findIndex((arg) => arg === x)`: the first position of `x`, or -1. */
  function FindIndex(xs: seq<string>, x: string): (i: int)
    ensures -1 <= i < |xs|
    ensures i == -1 <==> x !in xs
    ensures i >= 0 ==> xs[i] == x && x !in xs[..i]
    decreases |xs|
  {
    if |xs| == 0 then -1
    else if xs[0] == x then 0
    else
      var i := FindIndex(xs[1..], x);
      if i == -1 then -1
      else
        assert xs[..i + 1] == [xs[0]] + xs[1..][..i];
        i + 1
  }

  /** What `getArgs` returns; `outputFileName` is `None` where the source
      has `undefined`. */
  datatype ArgLine = ArgLine(args: seq<string>, outputFileName: Option<string>)

  /** `getArgs(key)` over `lines` (index.ts:116-124): the first line that
      includes the key, or "" (`?? ""`); its quoted words after the first;
      the word after the first "-o". */
  function GetArgs(lines: seq<string>, key: string): (r: Result<ArgLine, Failure>)
    ensures r.Err? ==> r.error == NoQuotedArguments(key)
    ensures r.Ok? ==> forall k :: 0 <= k < |r.value.args| ==> '"' !in r.value.args[k]
    ensures r.Ok? && r.value.outputFileName.Some? ==> r.value.outputFileName.value in r.value.args
  {
    var line := match FindLine(lines, key) case Some(k) => lines[k] case None => "";
    var quoted := QuotedStrings(line);
    if |quoted| == 0 then Err(NoQuotedArguments(key))
    else
      var args := quoted[1..];
      var o := FindIndex(args, "-o");
      Ok(ArgLine(args, if o + 1 < |args| then Some(args[o + 1]) else None))
  }

  /** The line `getArgs(key)` reads: the first that includes `key`, or the
      empty line. */
  function KeyLine(lines: seq<string>, key: string): string {
    match FindLine(lines, key) case Some(k) => lines[k] case None => ""
  }

  /** `getArgs` throws exactly when its line has no quoted substring (in
      particular when no line includes the key); otherwise the arguments
      are the quoted words after the first, and the output file is the
      word after the first "-o", or the first argument when there is no
      "-o", or undefined when "-o" is last or there is no argument. */
  lemma GetArgsCases(lines: seq<string>, key: string)
    ensures GetArgs(lines, key).Err? <==> QuotedStrings(KeyLine(lines, key)) == []
    ensures (forall k :: 0 <= k < |lines| ==> !Contains(lines[k], key)) ==>
      GetArgs(lines, key) == Err(NoQuotedArguments(key))
    ensures GetArgs(lines, key).Ok? ==>
      var a := GetArgs(lines, key).value;
      && a.args == QuotedStrings(KeyLine(lines, key))[1..]
      && ("-o" !in a.args && |a.args| > 0 ==> a.outputFileName == Some(a.args[0]))
      && ("-o" !in a.args && |a.args| == 0 ==> a.outputFileName == None)
      && (forall k :: 0 <= k < |a.args| && a.args[k] == "-o" && "-o" !in a.args[..k] ==>
            a.outputFileName == if k + 1 < |a.args| then Some(a.args[k + 1]) else None)
  {
    var quoted := QuotedStrings(KeyLine(lines, key));
    if |quoted| > 0 {
      var args := quoted[1..];
      forall k | 0 <= k < |args| && args[k] == "-o" && "-o" !in args[..k]
        ensures FindIndex(args, "-o") == k
      {
      }
    }
  }

  /** A dry-run line printed as the driver prints it is read back whole:
      the words after the program name are the arguments. */
  lemma GetArgsRoundTrip(before: seq<string>, words: seq<string>, after: seq<string>, key: string)
    requires |words| > 0 && forall k :: 0 <= k < |words| ==> '"' !in words[k]
    requires forall k :: 0 <= k < |before| ==> !Contains(before[k], key)
    requires Contains(QuotedLine(words), key)
    ensures GetArgs(before + [QuotedLine(words)] + after, key).Ok?
    ensures GetArgs(before + [QuotedLine(words)] + after, key).value.args == words[1..]
  {
    var lines := before + [QuotedLine(words)] + after;
    var found := FindLine(lines, key);
    assert lines[|before|] == QuotedLine(words);
    forall k | 0 <= k < |before| ensures lines[k] == before[k] { }
    assert found == Some(|before|);
    QuotedRoundTrip(words);
  }

  /** How the example line is spelled. */
  lemma ExampleLine(program: string, output: string)
    ensures QuotedLine([program, "-cc1", "-o", output])
      == (" \"" + program + "\" \"") + "-cc1" + ("\" \"-o\" \"" + output + "\"")
  {
    var words := [program, "-cc1", "-o", output];
    var w1, w2, w3 := words[1..], words[1..][1..], words[1..][1..][1..];
    assert w1 == ["-cc1", "-o", output] && w2 == ["-o", output] && w3 == [output];
    assert QuotedLine(w3) == " \"" + output + "\"" by {
      assert w3[1..] == [];
    }
    assert QuotedLine(w2) == " \"-o\" \"" + output + "\"";
  }

  /** The shape of a `-cc1` line, `"<clang>" "-cc1" "-o" "<output>"`: the
      program name is dropped and the output file is the word after "-o". */
  lemma GetArgsExample(program: string, output: string)
    requires '"' !in program && '"' !in output
    ensures GetArgs([QuotedLine([program, "-cc1", "-o", output])], "-cc1")
      == Ok(ArgLine(["-cc1", "-o", output], Some(output)))
  {
    var words := [program, "-cc1", "-o", output];
    var line := QuotedLine(words);
    ExampleLine(program, output);
    ContainsInfix(" \"" + program + "\" \"", "-cc1", "\" \"-o\" \"" + output + "\"");
    GetArgsRoundTrip([], words, [], "-cc1");
    assert [] + [line] + [] == [line];
    var args := words[1..];
    assert args == ["-cc1", "-o", output];
    assert FindIndex(args, "-o") == 1;
  }

  // ---------------------------------------------------------------------
  // getCompilerInvocation
  // ---------------------------------------------------------------------

  /** What `getCompilerInvocation` resolves to. The source names the last
      field `linerArtifact`. */
  datatype Invocation = Invocation(
    compilerArgs: seq<string>,
    compilerArtifact: Option<string>,
    linkerArgs: seq<string>,
    linkerArtifact: Option<string>)

  /** Each output file, when there is one, is among the arguments of its
      own command line, and no argument holds a double quote. */
  predicate ArtifactsListed(inv: Invocation) {
    && (forall k :: 0 <= k < |inv.compilerArgs| ==> '"' !in inv.compilerArgs[k])
    && (forall k :: 0 <= k < |inv.linkerArgs| ==> '"' !in inv.linkerArgs[k])
    && (inv.compilerArtifact.Some? ==> inv.compilerArtifact.value in inv.compilerArgs)
    && (inv.linkerArtifact.Some? ==> inv.linkerArtifact.value in inv.linkerArgs)
  }

  /** index.ts:113-133: the `-cc1` line gives the compiler's arguments and
      output, the `wasm-ld` line the linker's. */
  function ParseInvocation(stderr: string): (r: Result<Invocation, Failure>)
    ensures r.Err? ==> r.error == NoQuotedArguments("-cc1") || r.error == NoQuotedArguments("wasm-ld")
    ensures r.Ok? ==> ArtifactsListed(r.value)
  {
    var lines := Split(stderr, '\n');
    match GetArgs(lines, "-cc1")
    case Err(f) => Err(f)
    case Ok(cc1) =>
      match GetArgs(lines, "wasm-ld")
      case Err(f) => Err(f)
      case Ok(link) => Ok(Invocation(cc1.args, cc1.outputFileName, link.args, link.outputFileName))
  }

  /** The file-system calls before the dry run (index.ts:101-106): the input
      file, and a stand-in sysroot in which the driver finds the paths it
      looks for. */
  function ScaffoldCalls(inputName: string, inputFile: string): seq<Op> {
    [ Put(inputName, Utf8(inputFile)),
      MakeDirs("/lib/wasm32-wasi"),
      MakeDirs("/include/c++/v1"),
      Put("/lib/wasm32-wasi/crt1-command.o", []),
      Put("/lib/wasm32-wasi/crt1-reactor.o", []) ]
  }

  /** The arguments of the dry run (index.ts:108). */
  function DryArgv(inputName: string, flags: seq<string>): seq<string> {
    [inputName] + flags + ["-###"]
  }

  /** What the dry run resolves to, given the driver's exit code and the
      text it printed (index.ts:109-133). */
  function Resolve(exitCode: int, stderr: string): Result<Invocation, Failure> {
    if exitCode != 0 then Err(DriverFailed(exitCode)) else ParseInvocation(stderr)
  }

  /** `getCompilerInvocation(inputName, inputFile, flags)` on a fresh Clang
      instance whose file system starts as `st` and whose `callMain` does
      what `tool` says. */
  function DryRun(tool: (seq<string>, FsState) -> Sandboxes.Run, st: FsState,
                  inputName: string, inputFile: string, flags: seq<string>): (r: Result<Invocation, Failure>)
    ensures r.Err? ==>
      || r.error == FileSystemError
      || (r.error.DriverFailed? && r.error.code != 0)
      || r.error == NoQuotedArguments("-cc1") || r.error == NoQuotedArguments("wasm-ld")
    ensures r.Ok? ==> ArtifactsListed(r.value)
  {
    var staged := Sysroot.Run(st, ScaffoldCalls(inputName, inputFile));
    if !staged.1 then Err(FileSystemError)
    else
      var run := tool(DryArgv(inputName, flags), staged.0);
      Resolve(run.exitCode, Lines(run.printed))
  }

  /** The dry run resolves only when the stand-in sysroot was made and the
      driver, run on `[inputName, ...flags, "-###"]`, exited with 0; it then
      resolves with what the driver's printed lines say. A non-zero exit
      code rejects with that code. */
  lemma DryRunOutcome(tool: (seq<string>, FsState) -> Sandboxes.Run, st: FsState,
                      inputName: string, inputFile: string, flags: seq<string>)
    ensures var staged := Sysroot.Run(st, ScaffoldCalls(inputName, inputFile));
      var r := DryRun(tool, st, inputName, inputFile, flags);
      && (r.Ok? ==>
            && staged.1
            && tool(DryArgv(inputName, flags), staged.0).exitCode == 0
            && r == ParseInvocation(Lines(tool(DryArgv(inputName, flags), staged.0).printed)))
      && (staged.1 && tool(DryArgv(inputName, flags), staged.0).exitCode != 0 ==>
            r == Err(DriverFailed(tool(DryArgv(inputName, flags), staged.0).exitCode)))
  {
  }

  /** `getCompilerInvocation(inputName, inputFile, flags)` on the fresh
      Clang instance `clang`, whose `printErr` text starts empty. The dry
      run is the only `callMain`, and it happens exactly when the file
      system calls before it succeed. */
  method GetCompilerInvocation(clang: Sandbox, inputName: string, inputFile: string, flags: seq<string>)
    returns (r: Result<Invocation, Failure>)
    requires clang.sink.text == ""
    modifies clang, clang.fs, clang.sink
    ensures r == DryRun(clang.tool, old(clang.fs.State()), inputName, inputFile, flags)
    ensures clang.calls == old(clang.calls) +
      if Sysroot.Run(old(clang.fs.State()), ScaffoldCalls(inputName, inputFile)).1 then [DryArgv(inputName, flags)] else []
  {
    ghost var st := clang.fs.State();
    var ok := Perform(clang.fs, ScaffoldCalls(inputName, inputFile));
    if !ok {
      return Err(FileSystemError);
    }
    ghost var run := clang.tool(DryArgv(inputName, flags), clang.fs.State());
    assert DryRun(clang.tool, st, inputName, inputFile, flags) == Resolve(run.exitCode, Lines(run.printed));
    var ret := clang.CallMain(DryArgv(inputName, flags));
    assert clang.sink.text == Lines(run.printed);
    if ret != 0 {
      return Err(DriverFailed(ret));
    }
    r := ParseInvocation(clang.sink.text);
  }
}
