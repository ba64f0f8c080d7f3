/** The path arithmetic of `setUpSysroot` (index.ts:66, 75): a file's parent
    directory as `name.split("/").slice(0, -1).join("/")`, and the chain of
    directories `mkdirTree` creates for a path. Paths are compared as texts:
    "a//b", "./a" and "a/../b" are not normalised. */
module Paths {
  import opened Strings

  /** `name.split("/").slice(0, -1).join("/")`: every segment but the last,
      joined again. A name without a separator has the empty parent, which
      stands for the working directory. */
  function DirName(name: string): string {
    var parts := Split(name, '/');
    Join(parts[..|parts| - 1], '/')
  }

  /** The parent is what comes before the name's last separator; a name
      without one has the empty parent. */
  lemma DirNameLastSlash(name: string)
    ensures '/' !in name ==> DirName(name) == ""
    ensures '/' in name ==>
      var dir := DirName(name);
      && |dir| < |name|
      && name[..|dir|] == dir
      && name[|dir|] == '/'
      && '/' !in name[|dir| + 1..]
  {
    var parts := Split(name, '/');
    var n := |parts|;
    if n >= 2 {
      JoinSnoc(parts, '/');
      var dir := Join(parts[..n - 1], '/');
      assert name == dir + ['/'] + parts[n - 1];
      assert name[|dir|] == '/';
      assert name[..|dir|] == dir;
      assert name[|dir| + 1..] == parts[n - 1];
    } else {
      assert parts[0] == name;
    }
  }

  /** The directories `mkdirTree(path)` creates, shallowest first: the
      path up to each of its separators, and the whole path. */
  function DirChain(path: string): (chain: set<string>)
    ensures path != "" ==> path in chain
    ensures forall d :: d in chain ==> d != "" && |d| <= |path| && path[..|d|] == d
  {
    assert path != "" ==> path[..|path|] == path;
    set i | 0 < i <= |path| && (i == |path| || path[i] == '/') :: path[..i]
  }
}
