/** Dependency inference for the runtime project: the `use`-line scanner
    over the user's Rust source, the `[dependencies]` section reader for
    `dependencies.toml`, and the merge in which explicit entries win and
    detected crates are added with the wildcard version. Each line is
    classified once by a string function; the scans are then stated over
    the classifications. */
module Dependencies {
  import opened Wrappers
  import opened Text

  /** The crates `detect_crate_dependencies` never reports. */
  const StdCrates: seq<String> := ["std", "core", "alloc"]

  /** The value given to a crate that was only detected. */
  const Wildcard: String := "\"*\""

  const DepsHeader: String := "[dependencies]"

  predicate Distinct<T(==)>(s: seq<T>) {
    forall i, j :: 0 <= i < j < |s| ==> s[i] != s[j]
  }

  // ---------------------------------------------------------------
  // The `use` scanner
  // ---------------------------------------------------------------

  /** A trimmed line that uses the crate's own paths: it starts with
      `use crate::`, `use self::` or `use super::`. */
  predicate OwnUse(t: String) {
    StartsWith(t, "use crate::") || StartsWith(t, "use self::") || StartsWith(t, "use super::")
  }

  /** The first segment of a `use` line: the text after `use ` and before
      the first `::`, trimmed, with trailing `;` removed. */
  function UsedSegment(t: String): (r: String)
    requires |t| >= 4
    ensures r == [] || r[|r| - 1] != ';'
  {
    TrimEndMatches(Trim(BeforeFirst(t[4..], "::")), ';')
  }

  /** The crate a trimmed line contributes. */
  function UseCrate(t: String): (r: Option<String>)
    ensures r.Some? ==> StartsWith(t, "use ") && !OwnUse(t)
    ensures r.Some? ==> r.value != [] && r.value !in StdCrates && r.value[|r.value| - 1] != ';'
  {
    if StartsWith(t, "use ") && !OwnUse(t) then
      var name := UsedSegment(t);
      if name != [] && name !in StdCrates then Some(name) else None
    else None
  }

  /** The crate one line of source contributes: a trimmed line that starts
      with `use ` but not with `use crate::`, `use self::` or `use super::`
      names the text before its first `::`, trimmed, trailing `;` removed,
      unless that is empty or a standard crate. */
  function LineCrate(line: String): (r: Option<String>)
    ensures r.Some? ==> StartsWith(Trim(line), "use ")
    ensures r.Some? ==> !StartsWith(Trim(line), "use crate::") && !StartsWith(Trim(line), "use self::")
                        && !StartsWith(Trim(line), "use super::")
    ensures r.Some? ==> r.value != [] && r.value !in StdCrates && r.value[|r.value| - 1] != ';'
  {
    UseCrate(Trim(line))
  }

  /** A path segment as it is written in a `use` line: non-empty, without
      `:`, without whitespace at its ends, and not ending in `;`. */
  predicate PlainSegment(name: String) {
    && name != [] && ':' !in name
    && !IsWhitespace(name[0]) && !IsWhitespace(name[|name| - 1])
    && name[|name| - 1] != ';'
  }

  /** The first segments that name the crate itself. */
  const OwnPaths: seq<String> := ["crate", "self", "super"]

  /** What `LineCrate` reports for a first segment `name`. */
  function Reported(name: String): Option<String> {
    if name in StdCrates then None else Some(name)
  }

  /** The first `::` of `name::tail`, for a segment without `:`, is the
      one after it. */
  lemma FindAfterSegment(name: String, tail: String)
    requires ':' !in name
    ensures Find(name + "::" + tail, "::") == Some(|name|)
  {
    var u := name + "::" + tail;
    assert OccursAt(u, "::", |name|);
    forall j | 0 <= j < |name| ensures !OccursAt(u, "::", j) {
      assert u[j] == name[j];
    }
  }

  /** A text without `:` has no `::`. */
  lemma FindNoColon(u: String)
    requires ':' !in u
    ensures Find(u, "::").None?
  {
    forall j: nat | j + 2 <= |u| ensures !OccursAt(u, "::", j) {
      assert u[j] != ':';
      assert u[j..j + 2][0] == u[j];
    }
  }

  /** Trimming `use p::rest` only trims the part after the `::`. */
  lemma TrimUseLine(p: String, rest: String)
    ensures Trim("use " + p + "::" + rest) == "use " + p + "::" + TrimEnd(rest)
  {
    var a := "use " + p + "::";
    assert a[|a| - 1] == ':';
    TrimEndAppend(a, rest);
    assert (a + rest)[0] == 'u';
    assert TrimStart(a + rest) == a + rest;
  }

  /** `name::tail` has first segment `name`; trimming keeps it. */
  lemma PathSegment(name: String, tail: String)
    requires PlainSegment(name)
    ensures TrimEndMatches(Trim(BeforeFirst(name + "::" + tail, "::")), ';') == name
  {
    var u := name + "::" + tail;
    FindAfterSegment(name, tail);
    assert u[..|name|] == name;
    TrimUnchanged(name);
  }

  /** The segment of `use name::tail` is `name`. */
  lemma SegmentOfPath(name: String, tail: String)
    requires PlainSegment(name)
    ensures UsedSegment("use " + name + "::" + tail) == name
  {
    assert ("use " + name + "::" + tail)[4..] == name + "::" + tail;
    PathSegment(name, tail);
  }

  /** `name;` without `::` is its own first segment; trimming keeps it
      and the `;` goes. */
  lemma SemicolonSegment(name: String)
    requires PlainSegment(name)
    ensures TrimEndMatches(Trim(BeforeFirst(name + ";", "::")), ';') == name
  {
    var u := name + ";";
    FindNoColon(u);
    TrimUnchanged(u);
    assert u[..|u| - 1] == name;
  }

  /** The segment of `use name;` is `name`. */
  lemma SegmentOfUse(name: String)
    requires PlainSegment(name)
    ensures UsedSegment("use " + name + ";") == name
  {
    assert ("use " + name + ";")[4..] == name + ";";
    SemicolonSegment(name);
  }

  /** The prefixes `OwnUse` tests, written as `use p::`. */
  lemma OwnPrefixes()
    ensures "use " + "crate" + "::" == "use crate::"
    ensures "use " + "self" + "::" == "use self::"
    ensures "use " + "super" + "::" == "use super::"
  {
  }

  /** `use p::tail` uses the crate's own paths when `p` is `crate`, `self`
      or `super`. */
  lemma OwnUseOfOwnPath(p: String, tail: String)
    requires p in OwnPaths
    ensures OwnUse("use " + p + "::" + tail)
  {
    var q := "use " + p + "::";
    assert ("use " + p + "::" + tail)[..|q|] == q;
    OwnPrefixes();
  }

  /** A line whose first segment is `name`, followed by `:`, does not start
      with `use p::` for a different segment `p` without `:`. */
  lemma NotOtherPrefix(t: String, name: String, p: String)
    requires |t| > 4 + |name| && t[4..4 + |name|] == name && t[4 + |name|] == ':'
    requires ':' !in name && ':' !in p && name != p
    ensures !StartsWith(t, "use " + p + "::")
  {
    var q := "use " + p + "::";
    if |p| < |name| {
      assert q[4 + |p|] == ':' && t[4 + |p|] == name[|p|] != ':';
      DifferAt(t, q, 4 + |p|);
    } else if |p| > |name| {
      assert t[4 + |name|] == ':' && q[4 + |name|] == p[|name|] != ':';
      DifferAt(t, q, 4 + |name|);
    } else {
      var k :| 0 <= k < |p| && p[k] != name[k];
      assert q[4 + k] == p[k] && t[4 + k] == name[k];
      DifferAt(t, q, 4 + k);
    }
  }

  /** A text that differs from `q` at an index inside both does not start
      with `q`. */
  lemma DifferAt(t: String, q: String, k: nat)
    requires k < |t| && k < |q| && t[k] != q[k]
    ensures !StartsWith(t, q)
  {
    if |q| <= |t| {
      assert t[..|q|][k] == t[k];
    }
  }

  /** `use name::tail` does not use the crate's own paths when `name` is
      none of them. */
  lemma NotOwnUseOfPath(name: String, tail: String)
    requires ':' !in name && name !in OwnPaths
    ensures !OwnUse("use " + name + "::" + tail)
  {
    var t := "use " + name + "::" + tail;
    assert t[4..4 + |name|] == name && t[4 + |name|] == ':';
    NotOtherPrefix(t, name, "crate");
    NotOtherPrefix(t, name, "self");
    NotOtherPrefix(t, name, "super");
    OwnPrefixes();
  }

  /** `use name;` for a segment without `:` does not start with a prefix
      that ends in `:`. */
  lemma NotPrefixOfUse(name: String, q: String)
    requires ':' !in name && |q| > 4 && q[|q| - 1] == ':'
    ensures !StartsWith("use " + name + ";", q)
  {
  }

  /** `use name;` for a segment without `:` does not use the crate's own
      paths. */
  lemma NotOwnUseOfUse(name: String)
    requires ':' !in name
    ensures !OwnUse("use " + name + ";")
  {
    NotPrefixOfUse(name, "use crate::");
    NotPrefixOfUse(name, "use self::");
    NotPrefixOfUse(name, "use super::");
  }

  /** `use p::rest` for `p` among `crate`, `self` and `super` contributes
      nothing, whatever whitespace ends the line. */
  lemma LineCrateOfOwnPath(p: String, rest: String)
    requires p in OwnPaths
    ensures LineCrate("use " + p + "::" + rest) == None
  {
    TrimUseLine(p, rest);
    OwnUseOfOwnPath(p, TrimEnd(rest));
  }

  /** `use name::rest` contributes `name` unless it is a standard crate,
      whatever follows the `::` and whatever whitespace ends the line. */
  lemma LineCrateOfPath(name: String, rest: String)
    requires PlainSegment(name) && name !in OwnPaths
    ensures LineCrate("use " + name + "::" + rest) == Reported(name)
  {
    TrimUseLine(name, rest);
    var t := "use " + name + "::" + TrimEnd(rest);
    assert StartsWith(t, "use ");
    NotOwnUseOfPath(name, TrimEnd(rest));
    SegmentOfPath(name, TrimEnd(rest));
  }

  /** `use name;` contributes `name` unless it is a standard crate. */
  lemma LineCrateOfUse(name: String)
    requires PlainSegment(name)
    ensures LineCrate("use " + name + ";") == Reported(name)
  {
    var t := "use " + name + ";";
    TrimUnchanged(t);
    assert StartsWith(t, "use ");
    NotOwnUseOfUse(name);
    SegmentOfUse(name);
  }

  /** The example lines, as `use`, a first segment, `::` and the rest. */
  lemma ExampleLines()
    ensures "use std::io;" == "use " + "std" + "::" + "io;"
    ensures "use crate::x;" == "use " + "crate" + "::" + "x;"
    ensures "use rand::Rng;" == "use " + "rand" + "::" + "Rng;"
    ensures PlainSegment("std") && PlainSegment("rand")
  {
  }

  /** A standard crate contributes nothing. */
  lemma LineCrateOfStd()
    ensures LineCrate("use std::io;") == None
  {
    ExampleLines();
    LineCrateOfPath("std", "io;");
  }

  /** The crate's own paths contribute nothing. */
  lemma LineCrateOfCratePath()
    ensures LineCrate("use crate::x;") == None
  {
    ExampleLines();
    LineCrateOfOwnPath("crate", "x;");
  }

  /** An external crate is reported by name. */
  lemma LineCrateOfExternal()
    ensures LineCrate("use rand::Rng;") == Some("rand")
  {
    ExampleLines();
    LineCrateOfPath("rand", "Rng;");
  }

  /** What each line contributes, line by line. */
  function Candidates(lines: seq<String>): (r: seq<Option<String>>)
    ensures |r| == |lines|
  {
    seq(|lines|, k requires 0 <= k < |lines| => LineCrate(lines[k]))
  }

  /** The scan loop over candidates: each one found is pushed unless the
      list already holds it. */
  function Dedup<T(==)>(xs: seq<Option<T>>): seq<T> {
    if xs == [] then []
    else
      var acc := Dedup(xs[..|xs| - 1]);
      match xs[|xs| - 1]
      case Some(x) => if x in acc then acc else acc + [x]
      case None => acc
  }

  /** `detect_crate_dependencies`. */
  function DetectCrates(code: String): seq<String> {
    Dedup(Candidates(Lines(code)))
  }

  /** The scan keeps each candidate exactly once, and nothing else. */
  lemma {:induction false} DedupSpec<T>(xs: seq<Option<T>>)
    ensures Distinct(Dedup(xs))
    ensures forall x :: x in Dedup(xs) <==> Some(x) in xs
  {
    if xs != [] {
      var init := xs[..|xs| - 1];
      DedupSpec(init);
      assert xs == init + [xs[|xs| - 1]];
    }
  }

  /** The scan only ever appends: a prefix of the candidates gives a
      prefix of the result. */
  lemma {:induction false} DedupPrefix<T>(xs: seq<Option<T>>, k: nat)
    requires k <= |xs|
    ensures Dedup(xs[..k]) <= Dedup(xs)
    decreases |xs|
  {
    if k < |xs| {
      var init := xs[..|xs| - 1];
      assert init[..k] == xs[..k];
      DedupPrefix(init, k);
    } else {
      assert xs[..k] == xs;
    }
  }

  /** First-occurrence order: if candidate `k` is `a` and `b` is not among
      the candidates up to and including `k`, then `a` is listed before
      `b`. */
  lemma DedupFirstOccurrenceOrder<T>(xs: seq<Option<T>>, k: nat, i: nat, j: nat)
    requires k < |xs|
    requires i < |Dedup(xs)| && j < |Dedup(xs)|
    requires xs[k] == Some(Dedup(xs)[i])
    requires Some(Dedup(xs)[j]) !in xs[..k + 1]
    ensures i < j
  {
    var r := Dedup(xs);
    var p := Dedup(xs[..k + 1]);
    DedupSpec(xs);
    DedupPrefix(xs, k + 1);
    assert (xs[..k + 1])[k] == xs[k];
    DedupSpec(xs[..k + 1]);
    assert r[i] in p;
    var i' :| 0 <= i' < |p| && p[i'] == r[i];
    assert r[i'] == p[i'];
    if j < |p| {
      assert p[j] == r[j];
      DedupMember(xs[..k + 1], p[j]);
    }
  }

  lemma DedupMember<T>(xs: seq<Option<T>>, x: T)
    requires x in Dedup(xs)
    ensures Some(x) in xs
  {
    DedupSpec(xs);
  }

  /** The detected list: no duplicates, and exactly the crates some line
      contributes. */
  lemma DetectCratesSpec(code: String)
    ensures Distinct(DetectCrates(code))
    ensures forall name :: name in DetectCrates(code) <==> Some(name) in Candidates(Lines(code))
  {
    DedupSpec(Candidates(Lines(code)));
  }

  // ---------------------------------------------------------------
  // The `[dependencies]` section reader
  // ---------------------------------------------------------------

  /** How the reader sees one trimmed line. */
  datatype LineKind =
    | DepsHeaderLine                        // exactly `[dependencies]`
    | OtherHeader                           // any other `[...]` line
    | EntryLine(name: String, value: String) // `name = value`, both trimmed
    | Ignored                               // empty, `#` comment, or no `=`

  /** Classifies a line: headers first, then `name = value` split at the
      first `=`; the value is kept verbatim. */
  function Classify(line: String): LineKind {
    var t := Trim(line);
    if t == DepsHeader then DepsHeaderLine
    else if StartsWith(t, "[") && EndsWith(t, "]") then OtherHeader
    else if t == [] || StartsWith(t, "#") then Ignored
    else
      match Find(t, "=")
      case Some(k) => EntryLine(Trim(t[..k]), Trim(t[k + 1..]))
      case None => Ignored
  }

  /** The state of the reader: inside the section or not, and the entries
      read so far. */
  datatype Section = Section(inDeps: bool, deps: map<String, String>)

  /** One iteration of the reader loop. */
  function ReadLine(st: Section, kind: LineKind): Section {
    match kind
    case DepsHeaderLine => st.(inDeps := true)
    case OtherHeader => st.(inDeps := false)
    case EntryLine(name, value) => if st.inDeps then st.(deps := st.deps[name := value]) else st
    case Ignored => st
  }

  /** The reader after the given lines. */
  function ReadSection(kinds: seq<LineKind>): Section {
    if kinds == [] then Section(false, map[])
    else ReadLine(ReadSection(kinds[..|kinds| - 1]), kinds[|kinds| - 1])
  }

  /** The last header among `kinds`. */
  function LastHeader(kinds: seq<LineKind>): (r: Option<LineKind>)
    ensures r.Some? ==> r.value in kinds && (r.value.DepsHeaderLine? || r.value.OtherHeader?)
    ensures r.None? ==> forall k :: 0 <= k < |kinds| ==> !kinds[k].DepsHeaderLine? && !kinds[k].OtherHeader?
  {
    if kinds == [] then None
    else
      var last := kinds[|kinds| - 1];
      if last.DepsHeaderLine? || last.OtherHeader? then Some(last)
      else
        var r := LastHeader(kinds[..|kinds| - 1]);
        assert forall k :: 0 <= k < |kinds| - 1 ==> kinds[..|kinds| - 1][k] == kinds[k];
        r
  }

  /** Line `k` is an entry line read inside the section: the last header
      before it is exactly `[dependencies]`. */
  predicate InSection(kinds: seq<LineKind>, k: nat)
    requires k < |kinds|
  {
    kinds[k].EntryLine? && LastHeader(kinds[..k]) == Some(DepsHeaderLine)
  }

  /** Line `k` is the last in-section entry line for `name`. */
  predicate LastEntryFor(kinds: seq<LineKind>, name: String, k: nat)
    requires k < |kinds|
  {
    && InSection(kinds, k) && kinds[k].name == name
    && forall k' :: k < k' < |kinds| && InSection(kinds, k') ==> kinds[k'].name != name
  }

  /** The reader is inside the section exactly when the last header it has
      seen is `[dependencies]`. */
  lemma {:induction false} ReadSectionInDeps(kinds: seq<LineKind>)
    ensures ReadSection(kinds).inDeps <==> LastHeader(kinds) == Some(DepsHeaderLine)
  {
    if kinds != [] {
      ReadSectionInDeps(kinds[..|kinds| - 1]);
    }
  }

  lemma InSectionOfPrefix(kinds: seq<LineKind>, n: nat, k: nat)
    requires k < n <= |kinds|
    ensures InSection(kinds[..n], k) == InSection(kinds, k)
  {
    assert kinds[..n][..k] == kinds[..k];
  }

  /** Some in-section entry line names `name`. */
  predicate HasEntry(kinds: seq<LineKind>, name: String) {
    exists k :: 0 <= k < |kinds| && InSection(kinds, k) && kinds[k].name == name
  }

  lemma HasEntrySnoc(kinds: seq<LineKind>, name: String)
    requires kinds != []
    ensures HasEntry(kinds, name) <==>
            HasEntry(kinds[..|kinds| - 1], name) || (InSection(kinds, |kinds| - 1) && kinds[|kinds| - 1].name == name)
  {
    var n := |kinds| - 1;
    if HasEntry(kinds[..n], name) {
      var k :| 0 <= k < n && InSection(kinds[..n], k) && kinds[..n][k].name == name;
      InSectionOfPrefix(kinds, n, k);
    }
    if HasEntry(kinds, name) && !(InSection(kinds, n) && kinds[n].name == name) {
      var k :| 0 <= k < |kinds| && InSection(kinds, k) && kinds[k].name == name;
      InSectionOfPrefix(kinds, n, k);
    }
  }

  /** One reader step stores the entry it reads exactly when that entry is
      in the section. */
  lemma ReadSectionStep(kinds: seq<LineKind>)
    requires kinds != []
    ensures var n := |kinds| - 1;
            ReadSection(kinds).deps ==
              if InSection(kinds, n) then ReadSection(kinds[..n]).deps[kinds[n].name := kinds[n].value]
              else ReadSection(kinds[..n]).deps
  {
    ReadSectionInDeps(kinds[..|kinds| - 1]);
  }

  /** A name has an entry iff some in-section entry line names it. */
  lemma {:induction false} ReadSectionKeys(kinds: seq<LineKind>)
    ensures forall name :: name in ReadSection(kinds).deps <==> HasEntry(kinds, name)
  {
    if kinds != [] {
      ReadSectionKeys(kinds[..|kinds| - 1]);
      ReadSectionStep(kinds);
      forall name
        ensures name in ReadSection(kinds).deps <==> HasEntry(kinds, name)
      {
        HasEntrySnoc(kinds, name);
      }
    }
  }

  /** Last write wins: the value stored for a name is the one on the last
      in-section entry line for it. */
  lemma {:induction false} ReadSectionValues(kinds: seq<LineKind>, name: String, k: nat)
    requires k < |kinds| && LastEntryFor(kinds, name, k)
    ensures name in ReadSection(kinds).deps && ReadSection(kinds).deps[name] == kinds[k].value
  {
    var n := |kinds| - 1;
    ReadSectionStep(kinds);
    if k < n {
      var init := kinds[..n];
      forall k' | k <= k' < n
        ensures InSection(init, k') == InSection(kinds, k')
      {
        InSectionOfPrefix(kinds, n, k');
      }
      assert LastEntryFor(init, name, k);
      ReadSectionValues(init, name, k);
    }
  }

  /** The explicit entries of a `dependencies.toml`. */
  function ExplicitDependencies(toml: String): map<String, String> {
    ReadSection(seq(|Lines(toml)|, k requires 0 <= k < |Lines(toml)| => Classify(Lines(toml)[k]))).deps
  }

  /** The reader on a small file: only the `[dependencies]` section
      counts, and a later duplicate overwrites an earlier one. */
  lemma ReadSectionExample()
    ensures ReadSection([EntryLine("a", "1"), DepsHeaderLine, EntryLine("rand", "\"0.8\""), Ignored,
                         EntryLine("rand", "\"0.9\""), OtherHeader, EntryLine("b", "2")]).deps
            == map["rand" := "\"0.9\""]
  {
    var kinds := [EntryLine("a", "1"), DepsHeaderLine, EntryLine("rand", "\"0.8\""), Ignored,
                  EntryLine("rand", "\"0.9\""), OtherHeader, EntryLine("b", "2")];
    assert ReadSection(kinds[..1]) == Section(false, map[]) by {
      assert kinds[..1][..0] == [];
    }
    assert ReadSection(kinds[..2]) == Section(true, map[]) by {
      assert kinds[..2][..1] == kinds[..1];
    }
    assert ReadSection(kinds[..3]) == Section(true, map["rand" := "\"0.8\""]) by {
      assert kinds[..3][..2] == kinds[..2];
    }
    assert ReadSection(kinds[..4]) == Section(true, map["rand" := "\"0.8\""]) by {
      assert kinds[..4][..3] == kinds[..3];
    }
    assert ReadSection(kinds[..5]) == Section(true, map["rand" := "\"0.9\""]) by {
      assert kinds[..5][..4] == kinds[..4];
    }
    assert ReadSection(kinds[..6]) == Section(false, map["rand" := "\"0.9\""]) by {
      assert kinds[..6][..5] == kinds[..5];
    }
    assert kinds[..7][..6] == kinds[..6];
    assert kinds[..7] == kinds;
  }

  // ---------------------------------------------------------------
  // The merge
  // ---------------------------------------------------------------

  /** The merge loop: each detected crate without an entry yet is added
      with the wildcard version. */
  function Merge(deps: map<String, String>, detected: seq<String>): (r: map<String, String>)
    ensures forall name :: name in deps ==> name in r && r[name] == deps[name]
    ensures forall name :: name in r <==> name in deps || name in detected
    ensures forall name :: name in r && name !in deps ==> r[name] == Wildcard
    decreases |detected|
  {
    if detected == [] then deps
    else
      var name := detected[0];
      var next := if name in deps then deps else deps[name := Wildcard];
      Merge(next, detected[1..])
  }

  /** `parse_user_dependencies`: the contents of `dependencies.toml` and of
      `rust_process_audio.rs` when each exists and could be read (a missing
      or unreadable file contributes nothing; the function never fails). */
  function ParseUserDependencies(toml: Option<String>, rustSource: Option<String>): (r: map<String, String>)
    ensures toml.Some? ==> forall name :: name in ExplicitDependencies(toml.value) ==>
              name in r && r[name] == ExplicitDependencies(toml.value)[name]
    ensures toml.None? && rustSource.None? ==> r == map[]
  {
    var explicit := match toml case Some(c) => ExplicitDependencies(c) case None => map[];
    var detected := match rustSource case Some(c) => DetectCrates(c) case None => [];
    Merge(explicit, detected)
  }

  /** The merged map holds exactly the explicit entries with their values,
      plus every detected crate that had none, at the wildcard version. */
  lemma ParseUserDependenciesSpec(toml: Option<String>, rustSource: Option<String>)
    ensures forall name :: name in ParseUserDependencies(toml, rustSource) <==>
              (toml.Some? && name in ExplicitDependencies(toml.value))
              || (rustSource.Some? && name in DetectCrates(rustSource.value))
    ensures forall name ::
              (name in ParseUserDependencies(toml, rustSource) && !(toml.Some? && name in ExplicitDependencies(toml.value)))
              ==> ParseUserDependencies(toml, rustSource)[name] == Wildcard
  {}
}
