/**
 * The path handling of the connector's entry points: System.IO.Path.Combine in a
 * simplified form, the replacement of '\' by '/', and the split of a remote path at
 * its last '/' into a folder and a file name (Path.GetDirectoryName / GetFileName).
 */
module Paths {
  import opened Wrappers
  import opened Basics

  /** Path.DirectorySeparatorChar on Windows, the platform the connector runs on. */
  const DirectorySeparator: char := '\\'
  const AltDirectorySeparator: char := '/'

  /** The exceptions Path.Combine raises; both are ArgumentExceptions. */
  datatype PathError = ArgumentNull | InvalidPathChars

  /** The characters Path.Combine refuses with an ArgumentException. */
  predicate IsInvalidPathChar(c: char)
  {
    c < ' ' || c == '"' || c == '<' || c == '>' || c == '|'
  }

  predicate HasInvalidPathChars(s: string)
  {
    exists i :: 0 <= i < |s| && IsInvalidPathChar(s[i])
  }

  predicate EndsWithSeparator(s: string)
  {
    |s| > 0 && (s[|s| - 1] == DirectorySeparator || s[|s| - 1] == AltDirectorySeparator)
  }

  /**
   * The joining step of Path.Combine (rooted second arguments and drive letters
   * are not modelled): an empty side yields the other side, and otherwise a
   * backslash is inserted unless the first part already ends with a separator.
   */
  function Join(a: string, b: string): (r: string)
    ensures b == [] ==> r == a
    ensures a == [] ==> r == b
    ensures a != [] && b != [] ==> exists sep :: sep in {"", [DirectorySeparator]} && r == a + sep + b
    ensures a != [] && b != [] && !EndsWithSeparator(a) ==> r == a + [DirectorySeparator] + b
    ensures a != [] && b != [] && EndsWithSeparator(a) ==> r == a + b
  {
    if b == [] then a
    else if a == [] then b
    else if EndsWithSeparator(a) then
      assert a + b == a + "" + b;
      a + b
    else a + [DirectorySeparator] + b
  }

  /** Path.Combine(path1, path2), with None for a null argument. */
  function Combine(path1: Option<string>, path2: Option<string>): (r: Result<string, PathError>)
    ensures r == Failure(ArgumentNull) <==> path1.None? || path2.None?
    ensures r == Failure(InvalidPathChars) <==>
      path1.Some? && path2.Some? && (HasInvalidPathChars(path1.value) || HasInvalidPathChars(path2.value))
    ensures r.Success? ==> r.value == Join(path1.value, path2.value)
  {
    if path1.None? || path2.None? then Failure(ArgumentNull)
    else if HasInvalidPathChars(path1.value) || HasInvalidPathChars(path2.value) then Failure(InvalidPathChars)
    else Success(Join(path1.value, path2.value))
  }

  /** The `.Replace("\\", "/")` applied to every combined path. */
  function ForwardSlashes(p: string): (r: string)
    ensures |r| == |p|
    ensures forall i :: 0 <= i < |p| ==> r[i] == if p[i] == DirectorySeparator then AltDirectorySeparator else p[i]
    ensures DirectorySeparator !in r
  {
    ReplaceCharPointwise(p, DirectorySeparator, AltDirectorySeparator);
    ReplaceChar(p, DirectorySeparator, [AltDirectorySeparator])
  }

  /** Index of the last '/' in p, or -1 when there is none. */
  function LastSlash(p: string): (i: int)
    ensures -1 <= i < |p|
    ensures i >= 0 ==> p[i] == AltDirectorySeparator
    ensures forall j :: i < j < |p| ==> p[j] != AltDirectorySeparator
    decreases |p|
  {
    if p == [] then -1
    else if p[|p| - 1] == AltDirectorySeparator then |p| - 1
    else LastSlash(p[..|p| - 1])
  }

  /**
   * Path.GetDirectoryName and Path.GetFileName of a path that holds no backslash,
   * with the directory's backslashes already turned into '/': the folder is what
   * precedes the last '/' ("/" when that slash is the first character, "" when there
   * is none) and the file name is what follows it.
   */
  function SplitPath(p: string): (r: (string, string))
    ensures AltDirectorySeparator !in r.1
    ensures LastSlash(p) == -1 ==> r == ("", p)
    ensures LastSlash(p) == 0 ==> r.0 == "/" && p == r.0 + r.1
    ensures LastSlash(p) > 0 ==> p == r.0 + "/" + r.1
  {
    var i := LastSlash(p);
    if i < 0 then ("", p)
    else if i == 0 then ("/", p[1..])
    else (p[..i], p[i + 1..])
  }

  /** A remote path built as folder + "/" + name splits back into that folder and name. */
  lemma {:induction false} SplitRemotePath(folder: string, name: string)
    requires folder != ""
    requires AltDirectorySeparator !in name
    ensures SplitPath(folder + "/" + name) == (folder, name)
  {
    var p := folder + "/" + name;
    assert p[|folder|] == '/';
    assert forall j :: |folder| < j < |p| ==> p[j] == name[j - |folder| - 1];
    LastSlashIs(p, |folder|);
    assert p[..|folder|] == folder;
    assert p[|folder| + 1..] == name;
  }

  /** LastSlash finds a '/' that no later '/' follows. */
  lemma {:induction false} LastSlashIs(p: string, k: int)
    requires 0 <= k < |p| && p[k] == AltDirectorySeparator
    requires forall j :: k < j < |p| ==> p[j] != AltDirectorySeparator
    ensures LastSlash(p) == k
    decreases |p|
  {
    if k < |p| - 1 {
      assert p[..|p| - 1][k] == p[k];
      LastSlashIs(p[..|p| - 1], k);
    }
  }
}
