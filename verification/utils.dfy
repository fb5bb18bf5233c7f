/**
 * ipp_tools/utils.py: `package_path`, with the interpreter's module search
 * path (`sys.path`) passed in as a parameter.
 */
module Utils {
  import opened Wrappers
  import opened Strings

  /** The directory name the package path is cut at and re-appended. */
  const PackageDir: string := "ipp-tools"

  /**
   * The only failure `package_path` can produce: indexing `[0]` into an empty
   * list of matching entries raises IndexError, so the explicit `None` check
   * after it (with its own message) is never reached.
   */
  datatype PathError = IndexError

  /** Position of the first entry of `paths` that contains `p`, if any. */
  function FirstContaining(paths: seq<string>, p: string): (r: Option<nat>)
    ensures r.Some? ==> r.value < |paths| && Contains(paths[r.value], p)
    ensures r.Some? ==> forall j :: 0 <= j < r.value ==> !Contains(paths[j], p)
    ensures r.None? ==> forall j :: 0 <= j < |paths| ==> !Contains(paths[j], p)
    decreases |paths|
  {
    if |paths| == 0 then None
    else if Contains(paths[0], p) then Some(0)
    else
      match FirstContaining(paths[1..], p)
      case None => None
      case Some(i) => Some(i + 1)
  }

  /**
   * `package_path()`: the first search-path entry containing `ipp-tools`, cut
   * before the first occurrence of `ipp-tools`, with `ipp-tools` appended.
   */
  function PackagePath(sysPath: seq<string>): (r: Result<string, PathError>)
    ensures r.Err? <==> forall j :: 0 <= j < |sysPath| ==> !Contains(sysPath[j], PackageDir)
  {
    match FirstContaining(sysPath, PackageDir)
    case None => Err(IndexError)
    case Some(i) =>
      var entry := sysPath[i];
      Ok(entry[..IndexOf(entry, PackageDir).value] + PackageDir)
  }

  /** No proper suffix of `ipp-tools` is also a prefix of it, so two occurrences cannot overlap. */
  lemma PackageDirHasNoBorder(d: nat)
    requires 0 < d < |PackageDir|
    ensures PackageDir[d..] != PackageDir[..|PackageDir| - d]
  {
    var n := |PackageDir|;
    assert PackageDir[d..][0] == PackageDir[d];
    assert PackageDir[..n - d][0] == 'i';
    if d == 1 || d == 2 {
      assert PackageDir[..n - d][1] == 'p';
      assert PackageDir[d..][1] == PackageDir[d + 1];
    }
  }

  /**
   * The result is a prefix of the first search-path entry that contains
   * `ipp-tools`, and it ends with `ipp-tools`.
   */
  lemma PackagePathIsPrefixOfFirstMatch(sysPath: seq<string>, i: nat)
    requires i < |sysPath| && Contains(sysPath[i], PackageDir)
    requires forall j :: 0 <= j < i ==> !Contains(sysPath[j], PackageDir)
    ensures PackagePath(sysPath).Ok?
    ensures var r := PackagePath(sysPath).value;
      |r| <= |sysPath[i]| && sysPath[i][..|r|] == r && StartsWith(r[|r| - |PackageDir|..], PackageDir)
  {
    var f := FirstContaining(sysPath, PackageDir);
    assert f == Some(i);
    var entry := sysPath[i];
    var k := IndexOf(entry, PackageDir).value;
    var r := PackagePath(sysPath).value;
    assert r == entry[..k] + PackageDir;
    assert entry[k..][..|PackageDir|] == PackageDir;
    assert entry[..k + |PackageDir|] == entry[..k] + entry[k..][..|PackageDir|];
  }

  /** Appending `ipp-tools` to text that holds no earlier occurrence creates none before the end. */
  lemma NoOccurrenceBeforeEnd(prefix: string, j: nat)
    requires forall m :: 0 <= m <= |prefix| ==> !StartsWith(prefix[m..], PackageDir)
    requires j < |prefix|
    ensures !StartsWith((prefix + PackageDir)[j..], PackageDir)
  {
    var r := prefix + PackageDir;
    var n := |PackageDir|;
    if j + n <= |prefix| {
      assert r[j..][..n] == prefix[j..][..n];
    } else if StartsWith(r[j..], PackageDir) {
      var d := |prefix| - j;
      assert r[j..][..n][d..] == PackageDir[..n - d];
      PackageDirHasNoBorder(d);
    }
  }

  /** `ipp-tools` occurs in the result exactly once, at its very end. */
  lemma PackagePathOccursOnceAtEnd(sysPath: seq<string>, j: nat)
    requires PackagePath(sysPath).Ok?
    requires j + |PackageDir| <= |PackagePath(sysPath).value|
    ensures StartsWith(PackagePath(sysPath).value[j..], PackageDir)
        <==> j == |PackagePath(sysPath).value| - |PackageDir|
  {
    var i := FirstContaining(sysPath, PackageDir).value;
    var entry := sysPath[i];
    var k := IndexOf(entry, PackageDir).value;
    var r := PackagePath(sysPath).value;
    var n := |PackageDir|;
    assert r == entry[..k] + PackageDir;
    assert r[k..] == PackageDir;
    if j < k {
      forall m | 0 <= m <= k
        ensures !StartsWith(entry[..k][m..], PackageDir)
      {
        if m + n <= k {
          assert entry[..k][m..][..n] == entry[m..][..n];
        }
      }
      NoOccurrenceBeforeEnd(entry[..k], j);
    }
  }
}
