/** PHP's `pathinfo` components of a file path, on `seq<char>`. */
module PathInfo {
  import opened Wrappers
  import opened Strings

  /** `PATHINFO_BASENAME`: the text after the last `/`, or the whole path. */
  function BaseName(path: string): (r: string)
    ensures '/' !in r
    ensures |r| <= |path| && path[|path| - |r|..] == r
    ensures |r| < |path| ==> path[|path| - |r| - 1] == '/'
  {
    match LastIndexOf(path, '/')
    case None => path
    case Some(i) => path[i + 1..]
  }

  /** `PATHINFO_FILENAME`: the base name up to its last `.`, or the whole base name. */
  function FileName(path: string): (r: string)
    ensures |r| <= |BaseName(path)| && BaseName(path)[..|r|] == r
  {
    var base := BaseName(path);
    match LastIndexOf(base, '.')
    case None => base
    case Some(i) => base[..i]
  }

  /** `PATHINFO_EXTENSION`: the text after the base name's last `.`, or `""` when it has none. */
  function Extension(path: string): (r: string)
    ensures '.' !in r && '/' !in r
  {
    var base := BaseName(path);
    match LastIndexOf(base, '.')
    case None => ""
    case Some(i) => base[i + 1..]
  }

  /** The file name and the extension put back together give the base name. */
  lemma BaseNameSplits(path: string)
    ensures '.' in BaseName(path) ==> BaseName(path) == FileName(path) + "." + Extension(path)
    ensures '.' !in BaseName(path) ==> BaseName(path) == FileName(path) && Extension(path) == ""
  {
    var base := BaseName(path);
    match LastIndexOf(base, '.')
    case None =>
    case Some(i) =>
      assert base == base[..i] + [base[i]] + base[i + 1..];
  }

  /**
   * A path without `/` made of a name, a `.` and an extension without `.`
   * splits there, whatever dots the name itself holds.
   */
  lemma {:induction false} SplitNameExt(name: string, ext: string)
    requires '/' !in name && '/' !in ext && '.' !in ext
    ensures BaseName(name + "." + ext) == name + "." + ext
    ensures FileName(name + "." + ext) == name
    ensures Extension(name + "." + ext) == ext
  {
    var p := name + "." + ext;
    assert '/' !in p;
    assert LastIndexOf(p, '/') == None;
    var d := LastIndexOf(p, '.');
    assert p[|name|] == '.';
    assert d.Some? && d.value == |name|;
    assert p[..|name|] == name;
    assert p[|name| + 1..] == ext;
  }
}
