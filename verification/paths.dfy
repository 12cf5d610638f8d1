/** The parts of Rust's `std::path::Path` the tool uses on `/`-separated
    path strings: `file_name`, `extension` and `file_stem`. */
module Paths {
  import opened Wrappers
  import opened Text

  /** Index of the last `c` in `s`. */
  function LastIndexOf(s: String, c: char): (r: Option<nat>)
    ensures r.Some? ==> r.value < |s| && s[r.value] == c
    ensures r.Some? ==> forall j :: r.value < j < |s| ==> s[j] != c
    ensures r.None? ==> c !in s
  {
    if s == [] then None
    else if s[|s| - 1] == c then Some(|s| - 1)
    else LastIndexOf(s[..|s| - 1], c)
  }

  /** A single path component that names a file or directory entry. */
  predicate IsEntryName(name: String) {
    name != [] && '/' !in name && name != "." && name != ".."
  }

  /** `Path::file_name`: the last component, ignoring trailing slashes;
      none when that component is empty, `.` or `..`. */
  function FileName(p: String): (r: Option<String>)
    ensures r.Some? ==> IsEntryName(r.value) && EndsWith(TrimEndMatches(p, '/'), r.value)
  {
    var q := TrimEndMatches(p, '/');
    var name := match LastIndexOf(q, '/')
      case Some(k) => q[k + 1..]
      case None => q;
    if IsEntryName(name) then Some(name) else None
  }

  /** Splits a file name at its last `.` into stem and extension, except
      that a name whose only `.` is its first character (a hidden file
      such as `.wav`) has no extension. */
  function SplitAtLastDot(name: String): (r: (String, Option<String>))
    ensures r.1.Some? ==> name == r.0 + "." + r.1.value && '.' !in r.1.value && r.0 != []
    ensures r.1.None? ==> r.0 == name
    ensures '/' !in name ==> '/' !in r.0 && (r.1.Some? ==> '/' !in r.1.value)
  {
    match LastIndexOf(name, '.')
    case None => (name, None)
    case Some(k) =>
      if k == 0 then (name, None)
      else
        assert name == name[..k] + "." + name[k + 1..];
        (name[..k], Some(name[k + 1..]))
  }

  /** `Path::extension`: the text after the last `.` of the file name. */
  function Extension(p: String): (r: Option<String>)
    ensures r.Some? ==> '.' !in r.value && '/' !in r.value
  {
    match FileName(p)
    case None => None
    case Some(name) => SplitAtLastDot(name).1
  }

  /** `Path::file_stem`: the file name without its extension. */
  function FileStem(p: String): (r: Option<String>)
    ensures r.Some? ==> r.value != [] && '/' !in r.value
  {
    match FileName(p)
    case None => None
    case Some(name) => Some(SplitAtLastDot(name).0)
  }

  /** `Path::extension(p).and_then(to_str).unwrap_or("")`. */
  function ExtensionOrEmpty(p: String): (r: String)
    ensures '/' !in r
  {
    Extension(p).GetOr("")
  }

  /** Stem and extension split the file name: the name is the stem, then
      a dot and the extension when there is one. */
  lemma StemAndExtensionSplitName(p: String)
    ensures FileName(p).None? <==> FileStem(p).None?
    ensures Extension(p).Some? ==> FileName(p) == Some(FileStem(p).value + "." + Extension(p).value)
    ensures Extension(p).None? && FileName(p).Some? ==> FileStem(p) == FileName(p)
  {}

  /** A path built as `dir/name` from a directory and an entry name has
      that entry name as its file name. */
  lemma FileNameOfJoin(dir: String, name: String)
    requires IsEntryName(name)
    ensures FileName(dir + "/" + name) == Some(name)
  {
    var p := dir + "/" + name;
    assert name[|name| - 1] != '/' by {
      assert name[|name| - 1] in name;
    }
    assert TrimEndMatches(p, '/') == p;
    var k := LastIndexOf(p, '/');
    assert p[|dir|] == '/';
    assert k.Some? && k.value == |dir|;
    assert p[|dir| + 1..] == name;
  }
}
