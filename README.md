# browsercc in Dafny

A model of `index.ts` of browsercc, which compiles C and C++ in the browser
with Clang and LLD built for WebAssembly (Emscripten modules). The model
covers four parts:

- `tarContents` reads the sysroot archive. It walks 512-byte ustar header
  blocks and yields `{ name, content }` pairs (`tar.dfy`; the size field is
  parsed by `octal.dfy`).
- `setUpSysroot` writes the archive's files, then the job's extra files,
  into a sandbox's in-memory file system (`sysroot.dfy`). That file system
  is modelled in `filesystem.dfy` and `paths.dfy`.
- `getCompilerInvocation` runs the Clang driver with `-###` on a stand-in
  sysroot. Its `getArgs` reads the compiler's and the linker's arguments
  and output files back from the printed text (`invocation.dfy`,
  module `Driver`).
- `compile` sequences the dry run, the compile, the hand-off of the object
  file, and the link (`compile.dfy`, module `Compiler`).

A Clang or LLD instance is a `Sandbox` (`sandbox.dfy`). It has:

- a `FileSystem` object with `analyzePath`, `mkdirTree`, `writeFile` and
  `readFile`;
- a `Diagnostics` object: the `stderr` text its `printErr` appends to;
- a `tool` oracle, which stands for what `callMain` does. Given its
  arguments and the file system, the oracle returns:
  - an exit code;
  - the lines printed;
  - the files written.

Each imperative piece of the source is a method. It is proved against a
specification function over values:

- `TarContents` returns exactly `Entries(data, 0)`;
- `SetUpSysroot` leaves the file system as `Run` of the calls listed by
  `Staging` says, including where a call throws;
- `GetCompilerInvocation` returns `DryRun`;
- `Compile` returns `Compilation`.

The lemmas state what the source promises about those functions.

A file-system call that throws is modelled as a `false` flag or an `Err`.
The state is then left as it was after the calls before it. The sandbox
file system follows Emscripten:

- `writeFile` fails on an empty path, on a directory, or when the parent
  is not a directory;
- `mkdirTree` creates every prefix of the path that ends before a `/` and
  fails when one of them is a file;
- `readFile` of a missing file throws;
- `analyzePath("")` exists (the working directory).

Where the design description and the code differ, the model follows the
code:

- Without `-o`, `getArgs` gives `args[0]` as the output file, not
  undefined.
- The argument lists may be empty: a key line with a single quoted word
  gives `[]`.
- On the compiler, the source file is written before the sysroot. On the
  linker, the object file is written before the sysroot, so a sysroot file
  at the same path replaces it (`Compiler.FirstFileKept`).
- The source spells the invocation's last field `linerArtifact`.
- The source's `module` field of the result is `wasm` here, because
  `module` is a Dafny keyword.

## Model

| member | source | states |
|---|---|---|
| Tar.TarContents | index.ts:27-56 | the loop yields exactly the entries of the specification walk `Entries(data, 0)`, in order |
| Tar.EntryDecoded | index.ts:35-50 | entry k comes from the k-th header read; that header fits in the buffer and has a non-empty name; the entry's content is the bytes after the header, cut at the buffer end; the next header lies past the content rounded up to whole blocks |
| Tar.WalkEnds | index.ts:35-38 | there is one header read more than entries yielded; the last header read stops the walk (no whole block left, or an empty name), and no header before it does |
| Tar.OffsetsOnGrid | index.ts:52-54 | headers read from offset 0 lie on multiples of 512 and strictly increase, the k-th at or past k*512 |
| Tar.ReaderAdvances | index.ts:35-55 | every header that does not stop the walk lies in the buffer and is followed by a later one, so the loop terminates |
| Tar.EntryNamed | index.ts:37-38 | every yielded name is non-empty, holds no NUL and has at most 100 characters |
| Tar.HeaderName | index.ts:37 | the name is bytes 0-99 cut at the first NUL; it is empty exactly when byte 0 is NUL |
| Tar.Field | index.ts:36-41 | a header field is its bytes shown one character per byte, of the field's length |
| Tar.FieldDecodes | index.ts:37 | a field is the byte-to-character decoding of that byte range |
| Tar.ParsedSize | index.ts:40-44 | `parseInt(sizeOctal, 8) \|\| 0` of the size field: an all-NUL field gives 0, and a negative size needs a minus sign in the trimmed text |
| Tar.EntrySizeReadsParsed | index.ts:44-47 | the content length used is the parsed size when it is not negative, 0 when it is, and 0 for an all-NUL size field |
| Tar.SizeReadsAsParsed | index.ts:40-44 | the one-pass reading of bytes 124-135 equals `parseInt(field cut at NUL and trimmed, 8) \|\| 0` |
| Tar.CeilBlocks | index.ts:53 | `Math.ceil(size / 512)` is the least n with size <= n*512, negative sizes included |
| Tar.NextOffset | index.ts:53-54 | the next header lies past the header and the content, less than one block further, a whole number of blocks on |
| Tar.Slice | index.ts:48 | `data.slice(from, to)` is clipped at the end of the buffer |
| Tar.HeaderAt | index.ts:36 | the header is the 512 bytes at the offset |
| Tar.HeaderNameDecodes | index.ts:37 | a header written for a well-formed entry reads back as that entry's name |
| Tar.HeaderSizeDecodes | index.ts:40-44 | a header written for a well-formed entry reads back as the entry's content length |
| Tar.RecordAt | index.ts:35-54 | a record written after any bytes is read back as its entry, and the walk moves exactly past the record |
| Tar.ArchiveEnds | index.ts:35-38 | right after the last record of an archive, the walk stops |
| Tar.ArchiveRoundTrip | index.ts:27-56 | an archive written from well-formed entries and ended by a zero block or a short tail is read back as exactly those entries |
| Tar.OctalDigitsDenote | index.ts:44 | the octal digits written into a size field denote the size |
| Tar.NegativeSizeLoops | index.ts:44-54 | as written, a size field of "-1000" parses to -512, so the next header is the same header again; the model's reader moves one block on |
| Tar.NegativeSizeParsed | index.ts:40-44 | the size field "-1000" followed by NULs parses to -512 |
| Tar.NegativeSizeArchive | index.ts:44 | the one-block archive with a negative size field used by the counterexample |
| Octal.ParseIntOctal | index.ts:44 | `parseInt(s, 8)`: blank text is NaN; leading white space and one sign are skipped; the value is read from the longest run of octal digits |
| Octal.ParseOctalOrZero | index.ts:44 | `\|\| 0` turns NaN into 0: blank text is 0; a text starting with a character that is neither white space, a sign nor an octal digit is 0; a negative result needs a minus sign at the first character that is not white space |
| Octal.ParseDigits | index.ts:44 | a text of octal digits parses to the number it denotes |
| Octal.ScanParses | index.ts:44 | the one-pass reading equals `parseInt(s, 8) \|\| 0` |
| Octal.CutAndTrimIgnored | index.ts:42-44 | cutting the field at a NUL and trimming it does not change the number read |
| Octal.ScanDigitsThenStop | index.ts:42-44 | octal digits followed by nothing or by NUL read as the number they denote |
| Octal.ScanPrefix | index.ts:42 | cutting the text where the reading stops anyway, or before trailing white space, does not change the reading |
| Octal.ScanSkips | index.ts:43-44 | leading white space does not change the reading |
| Octal.OctalEnd | index.ts:44 | the digit run ends at the first character that is not an octal digit |
| Octal.OctalAccGrows | index.ts:44 | reading more digits never makes a non-negative size smaller |
| Strings.RegexCutAtNul | index.ts:37 | `replace(/\0.*$/, "")` removes the text from the first NUL after which no line terminator follows; before it, the current line holds no NUL |
| Strings.RegexCutWithoutLineBreaks | index.ts:37 | on text without line terminators, the regular expression cuts at the first NUL |
| Strings.RegexCutKeepsLineBreak | index.ts:37 | a NUL followed by a line feed is not cut: the regular expression keeps text that the first-NUL cut drops |
| Strings.CutAtNul | index.ts:37 | the cut text is the prefix before the first NUL, or the whole text |
| Strings.CutAtNulNoNul | index.ts:37 | the cut text holds no NUL |
| Strings.TrimStart | index.ts:43 | `trim`'s first half: the result is a suffix of the text, every character dropped is white space, and the result does not start with white space |
| Strings.TrimEnd | index.ts:43 | `trim`'s second half: the result is a prefix of the text, every character dropped is white space, and the result does not end with white space |
| Strings.Trim | index.ts:43 | `trim()`: the result is the slice of the text between a white-space prefix and a white-space suffix, and neither starts nor ends with white space |
| Strings.Split | index.ts:66 | `split(sep)` gives at least one part; no part holds the separator; joining the parts with it gives the text back |
| Strings.Join | index.ts:66 | `join` of a single part is that part; the first part is a prefix of the result |
| Strings.SplitJoin | index.ts:66 | splitting the join of parts without the separator gives the parts back |
| Strings.SplitNoSep | index.ts:66 | a text without the separator splits into itself alone |
| Strings.JoinSnoc | index.ts:66 | joining all parts is joining all but the last, then the separator, then the last |
| Strings.Utf8 | index.ts:78 | a string is written as its UTF-8 bytes: at least one byte per character, exactly one per character for ASCII text |
| Strings.Utf8Append | index.ts:78 | the bytes of a concatenation are the bytes of its parts one after the other |
| Strings.Utf8DecodeChar | index.ts:78 | a UTF-8 reader takes one to four bytes for one code point, rejecting malformed, overlong and surrogate sequences |
| Strings.Utf8CharDecodes | index.ts:78 | the bytes written for a code point are read back as that code point, whatever follows them |
| Strings.Utf8RoundTrip | index.ts:78 | the bytes `writeFile` stores for a string are valid UTF-8 and decode to exactly that string |
| Strings.Utf8Char | index.ts:78 | a code point is encoded as one, two, three or four bytes exactly for the ranges below 0x80, 0x800, 0x10000 and above; the lead byte lies in 00-7F, C0-DF, E0-EF or F0-F7, every later byte in 80-BF, and the six-bit groups of the bytes add up to the code point |
| Strings.IndexOf | index.ts:119 | the first position of a character, or none exactly when the text lacks it |
| Strings.Contains | index.ts:117 | `includes(key)` holds exactly when the key starts at some position of the text |
| Strings.EndsWithChar | index.ts:64 | `endsWith(c)` holds exactly when the text is non-empty and is its own prefix followed by c |
| Strings.DecodeBytes | index.ts:37 | bytes shown one character per byte, each character's code the byte's value |
| Strings.EncodeBytes | index.ts:37 | the inverse of that decoding on text below code 256 |
| Strings.ContainsInfix | index.ts:117 | a text includes every key that occurs in it |
| Paths.DirNameLastSlash | index.ts:66 | the parent is everything before the last "/", or "" when there is none |
| Paths.DirChain | index.ts:68 | the directories `mkdirTree(path)` creates are non-empty prefixes of the path, the path itself included |
| VirtualFs.ChainParent | index.ts:68 | the parent of a directory that `mkdirTree` creates is "" or an earlier directory of the same chain |
| VirtualFs.MkdirTreeKeeps | index.ts:68 | `mkdirTree` keeps the file-system invariant, changes no file, removes no directory and makes the path a directory |
| VirtualFs.MkdirTreeIdempotent | index.ts:76 | a second `mkdirTree` on the same path succeeds and changes nothing |
| VirtualFs.WriteKeeps | index.ts:70 | `writeFile` keeps the invariant and puts the content at exactly the path |
| VirtualFs.FileSystem.AnalyzePath | index.ts:67 | `exists` holds exactly for the working directory, a directory or a file |
| VirtualFs.FileSystem.MkdirTree | index.ts:68 | the call succeeds exactly when no proper prefix of the chain is a file; it then adds the chain's directories, and otherwise changes nothing |
| VirtualFs.FileSystem.WriteFile | index.ts:70 | the call succeeds exactly when the path is not empty, not a directory, and its parent is a directory; it then sets the file, and otherwise changes nothing |
| VirtualFs.FileSystem.ReadFile | index.ts:174-176 | returns the file's bytes, or nothing (a throw) exactly when no file is at the path |
| VirtualFs.Diagnostics.Print | index.ts:144-146 | `printErr(data)` appends the data and a line feed to `stderr` |
| Sandboxes.Sandbox.CallMain | index.ts:165 | `callMain(argv)` logs the call, returns the tool's exit code, appends the tool's printed lines to the sink, and writes the tool's outputs |
| Sandboxes.Lines | index.ts:144-146 | the text a series of `printErr` calls leaves is at least one character per line and ends with a line feed once a line was printed |
| Sandboxes.LinesJoin | index.ts:144-146 | that text is the lines joined by line feeds, with one more after the last |
| Sandboxes.LinesSplit | index.ts:114 | `stderr.split("\n")` gives the printed lines back, followed by one empty line, when no line holds a line feed |
| Sandboxes.Emit | index.ts:165 | a tool's outputs are written where `writeFile` accepts them; no directory changes, and every other file is as before |
| Sandboxes.EmitKeeps | index.ts:165 | a tool run keeps the file-system invariant and writes only paths that `writeFile` accepts |
| Sysroot.SetUpSysroot | index.ts:58-84 | the file system ends as running the calls of `Staging` for the archive's entries and the extra files leaves it; `ok` is false exactly when one call throws, and the state is then what the calls before it left |
| Sysroot.StageArchive | index.ts:63-71 | the first loop makes the calls of every archive entry in order |
| Sysroot.StageEntry | index.ts:64-70 | one entry: nothing for a name ending in "/"; else `mkdirTree` of the parent when it does not exist, then `writeFile` |
| Sysroot.StageExtras | index.ts:73-83 | the second loop makes the calls of every extra file in order |
| Sysroot.StageExtra | index.ts:75-81 | one extra file: `mkdirTree` of the parent always, then `writeFile` of the text's UTF-8 bytes or of the buffer's bytes |
| Sysroot.Call | index.ts:67-70 | one file-system call: it succeeds exactly when its specification has a result, and leaves the file system there or unchanged |
| Sysroot.Perform | index.ts:100-106 | a fixed list of file-system calls, made in order, stopping at the first that throws |
| Sysroot.EntryOps | index.ts:64-70 | the calls of one archive entry write nothing for a name ending in "/", and else write exactly its content at its name |
| Sysroot.ExtraOps | index.ts:75-81 | the calls of one extra file write exactly its bytes at its name |
| Sysroot.Staging | index.ts:63-83 | the staging writes the archive's files, then the extra files over them |
| Sysroot.EntryStaged | index.ts:64-70 | one entry's calls succeed when its name is not a directory and no file lies on its parent's chain; the file is then set, the parent is a directory, and only directories of the parent's chain were made |
| Sysroot.ExtraStaged | index.ts:75-81 | the same for one extra file, whose parent is made whether or not it existed |
| Sysroot.EntryRoom | index.ts:64-70 | one entry's calls keep the room the other writes need, remove no file or directory, and leave a file entry at its name inside a directory |
| Sysroot.ExtraRoom | index.ts:75-81 | one extra file's calls keep that room, remove nothing, and leave the file at its name inside a directory |
| Sysroot.ArchiveStaged | index.ts:63-71 | the archive's calls succeed in a file system with room for them and leave each file entry at its name inside a directory |
| Sysroot.ExtrasStaged | index.ts:73-83 | the extra files' calls succeed with room for them and leave each extra file at its name inside a directory |
| Sysroot.NamesCovered | index.ts:63-83 | every staged name and its parent's chain lie among the names and chains the staging needs room for |
| Sysroot.StagingSucceeds | index.ts:58-84 | `setUpSysroot` does not throw when no name is "", an existing directory or a directory on a parent chain, and no existing file lies on a parent chain; every file, from the archive or extra, is then at its name inside a directory, and the invariant holds |
| Sysroot.RunIsApply | index.ts:63-83 | the calls all succeed exactly when the staging has a result, and then they reach it |
| Sysroot.RunAppend | index.ts:63-83 | calls after one that throws are never made |
| Sysroot.RunFiles | index.ts:63-83 | after calls that all succeed, the files are the earlier files overwritten by the calls' writes |
| Sysroot.ApplyFiles | index.ts:63-83 | staging changes files only through writes, and the last write to a path wins |
| Sysroot.ApplyKeeps | index.ts:63-83 | staging keeps the file-system invariant and never removes a file or a directory |
| Sysroot.OpKeeps | index.ts:67-70 | one call keeps the invariant and removes nothing |
| Sysroot.StagedInPlace | index.ts:63-83 | after staging, every written path is a file whose parent is a directory; no archive name ending in "/" was written |
| Sysroot.StagedFiles | index.ts:63-83 | after staging, the files are the earlier files, overwritten by the archive's files, overwritten in turn by the extra files |
| Sysroot.ArchiveWritesNames | index.ts:63-70 | every path the archive's calls write is the name of an entry not ending in "/" |
| Sysroot.ArchiveLastWins | index.ts:63-70 | an entry's content is what its name holds unless a later entry has the same name |
| Sysroot.ArchiveFileStaged | index.ts:63-83 | an archive file ends up at exactly its name with its content, unless a later entry or an extra file has that name |
| Sysroot.ExtraWritesNames | index.ts:74-82 | every path the extra files' calls write is an extra file's name |
| Sysroot.ExtraLastWins | index.ts:74-82 | an extra file's content is what its name holds unless a later extra file has that name |
| Sysroot.ExtraFileStaged | index.ts:73-83 | an extra file ends up at exactly its name with its content, whatever the archive held there |
| Sysroot.SettledAfter | index.ts:67-70 | each call leaves its own effect in place |
| Sysroot.SettledStays | index.ts:63-83 | later calls do not undo an earlier call's effect |
| Sysroot.ApplySettles | index.ts:63-83 | after staging, every call's effect is in place |
| Sysroot.Replay | index.ts:63-83 | calls whose effects are all in place succeed again and only rewrite files with the same content |
| Sysroot.Idempotent | index.ts:58-84 | staging the same calls twice leaves the file system as staging them once |
| Driver.QuotedStrings | index.ts:119-120 | the contents of the `"…"` substrings without their quotes; none holds a quote |
| Driver.QuotedRoundTrip | index.ts:119-120 | the quoted words of a line printed as the driver prints it are its words, when none holds a quote |
| Driver.FindLine | index.ts:117 | the first line that includes the key, or none exactly when no line does |
| Driver.FindIndex | index.ts:122 | the first position of "-o", or -1 exactly when it is absent |
| Driver.GetArgs | index.ts:116-124 | `getArgs(key)` throws only for want of a quoted substring on the key's line; no argument holds a quote, and the output file, when there is one, is among the arguments |
| Driver.GetArgsCases | index.ts:116-124 | `getArgs` throws exactly when its line has no quoted substring, in particular when no line includes the key; else the arguments are the quoted words after the first; the output is the word after the first "-o", or args[0] without "-o", or undefined when "-o" is last or there is no argument |
| Driver.GetArgsRoundTrip | index.ts:116-124 | a printed command line after lines without the key is read back whole: the arguments are the words after the program name |
| Driver.GetArgsExample | index.ts:116-124 | `"<clang>" "-cc1" "-o" "<out>"` gives the arguments `-cc1 -o <out>` and the output `<out>` |
| Driver.ParseInvocation | index.ts:114-133 | the invocation read from the printed text rejects only for want of quoted arguments on the `-cc1` or the `wasm-ld` line; each output file is among its own line's arguments |
| Driver.DryRun | index.ts:88-134 | `getCompilerInvocation` rejects only for a file-system error, a non-zero driver exit or missing quoted arguments; its output files are among their arguments |
| Driver.DryRunOutcome | index.ts:101-133 | the dry run resolves only after the stand-in sysroot was made and the driver, run on `[inputName, ...flags, "-###"]`, exited with 0; a non-zero exit rejects with that code |
| Driver.GetCompilerInvocation | index.ts:88-134 | the method returns `DryRun` of the instance's file system; the driver is called once with `[inputName, ...flags, "-###"]` exactly when the calls before it succeed |
| Compiler.ReadAt | index.ts:174-176 | `readFile` gives the file's bytes, and throws on an undefined or absent path |
| Compiler.Compile | index.ts:136-199 | the method returns `Compilation` of the three instances' initial file systems, and calls the compiler and the linker with exactly the argument vectors it lists |
| Compiler.CompileWith | index.ts:161-198 | with the invocation known, the method returns `CompilerStage` and makes the calls it lists |
| Compiler.Link | index.ts:178-198 | given the object file, the method returns `LinkerStage`; the reported text continues the compiler's |
| Compiler.Prepare | index.ts:162-163 | the first file is written, then the sysroot is set up; this stops at the first call that throws |
| Compiler.Compilation | index.ts:136-199 | `compile` calls each tool at most once, with the arguments the dry run found, the linker only after the compiler, and reports a module only when the linker ran |
| Compiler.CompilerStage | index.ts:161-198 | the same once the invocation is known; it rejects only with a file-system error or a missing artifact |
| Compiler.LinkerStage | index.ts:178-198 | the linker stage makes no compiler call and at most one linker call with the linker arguments; when it resolves the linker ran and the reported text starts with the compiler's text; it rejects only with a file-system error or a missing artifact |
| Compiler.DryRunFailureStops | index.ts:159 | a dry run that rejects makes `compile` reject with the same error before the compiler or the linker runs |
| Compiler.LinkerOnlyAfterCompiler | index.ts:159-182 | the compiler runs at most once, with the dry run's compiler arguments; the linker runs at most once, with its linker arguments, and only after the compiler exited with 0 and left its output file |
| Compiler.StageOrder | index.ts:161-182 | the same ordering once the invocation is known |
| Compiler.CompilerFailureReported | index.ts:165-172 | a non-zero compiler exit gives `{compileOutput: stderr, module: null}`, and the linker never runs |
| Compiler.FirstFileKept | index.ts:162-163 | after the first write and the sysroot, the files are the earlier ones with the first file set, overwritten by the sysroot's writes; the first file survives unless the sysroot writes its path |
| Compiler.ObjectHandedOver | index.ts:174-182 | when the linker runs, its file system was staged from the bytes at the compiler's output path, and holds them there unless the sysroot writes that path |
| Compiler.ModuleFromLinker | index.ts:184-198 | a module is reported only after both exits are 0; it is the file at the linker's output path, and the text is the compiler's output followed by the linker's |

## Left out

- Text decoding: `TextDecoder("utf-8")` is modelled as one character per byte. Names are byte strings, and multi-byte UTF-8 sequences and replacement characters are not modelled.
- Tar.HeaderName: the name is cut at the first NUL. The source's `/\0.*$/` keeps a NUL that is followed by a line terminator (see Findings). The size field does follow the regular expression exactly.
- `trim`: the white space modelled is ASCII white space and U+00A0, the no-break space. These are the ones a one-character-per-byte decoding can produce. The other Unicode space characters, such as U+FEFF and U+2028, cannot come from that decoding.
- Tar.EntrySize: a negative parsed size is read as 0 (see Findings).
- Paths: `mkdirTree` and `analyzePath` compare path strings. Emscripten's normalisation of "..", "." and repeated "/", and its resolution against the working directory, are not modelled.
- VirtualFs.FileSystem.MkdirTree: a `mkdirTree` that throws midway leaves the directories it already made. The model leaves the file system unchanged.
- The tools: what Clang and `wasm-ld` do with their arguments is an oracle fixed when the instance is created. A tool creates no directories, and its `printErr` lines arrive in order.
- Instantiation of the Emscripten modules, the `fetch` of `sysroot.tar`, and `WebAssembly.compile`. The archive bytes and the three instances are parameters. The result carries the linked bytes where the source has the compiled module.
- `console.error(stderr)` before the dry run throws.
- Promises: the overlap of instantiation, fetch and the dry run is modelled as one sequential order.
- `Object.entries`: the order of the extra files is taken as given.
- `build-pch.mjs` is not part of this model. It is a command-line wrapper that reads and writes host files around the real toolchain.

## Findings

| source | as written | input that shows it | evidently intended | confidence | as-written member | corrected member |
|---|---|---|---|---|---|---|
| index.ts:44-54 | `parseInt(sizeOctal, 8)` accepts a sign, so a size field "-1000" gives -512, and `totalSize` is 512 + (-1)*512 = 0 | a 512-byte block with name "a" and size field "-1000" | a negative size is not a size: read it as 0 and move past the header, so that the walk always advances | not executed; follows from JavaScript's `parseInt` and `Math.ceil` | Tar.NegativeSizeLoops | Tar.ReaderAdvances |
| index.ts:37 | `.replace(/\0.*$/, "")` only matches a NUL from which no line terminator follows, because `.` does not match a line terminator and `$` is the end of the input | a name field "a\0\n\0…" gives "a\0\n" instead of "a" | cut the name at its first NUL, as the comment on the size field and the ustar format intend | not executed; follows from the semantics of JavaScript regular expressions | Strings.RegexCutKeepsLineBreak | Tar.HeaderName |
