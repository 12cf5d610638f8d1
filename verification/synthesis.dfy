/** Text synthesis for the runtime project: the dependency lines inserted
    after the `[dependencies]` header of the Cargo manifest template, and
    the user's processing function spliced into the runtime `main.rs`
    between two fixed markers. */
module Synthesis {
  import opened Wrappers
  import opened Text
  import Dependencies

  // ---------------------------------------------------------------
  // Cargo manifest
  // ---------------------------------------------------------------

  /** `{name} = {version}` for one entry (without its line ending). */
  function EntryText(name: String, value: String): String {
    name + " = " + value
  }

  /** The order in which a `HashMap` happens to yield its keys: every key
      exactly once. The program fixes no particular order. */
  predicate Enumerates(order: seq<String>, deps: map<String, String>) {
    && Dependencies.Distinct(order)
    && (forall k :: k in order ==> k in deps)
    && (forall k :: k in deps ==> k in order)
  }

  /** The dependency block: one `name = value\n` line per key, in the
      given order. */
  function DepBlock(deps: map<String, String>, order: seq<String>): String
    requires forall k :: k in order ==> k in deps
  {
    if order == [] then [] else EntryText(order[0], deps[order[0]]) + "\n" + DepBlock(deps, order[1..])
  }

  /** Where the block goes: just past the first line break that follows
      the first `[dependencies]`; none when there is no header or no line
      break after it. */
  function InsertionPoint(template: String): (r: Option<nat>)
    ensures r.Some? ==> 0 < r.value <= |template| && template[r.value - 1] == '\n'
    ensures r.Some? ==> exists i :: Find(template, Dependencies.DepsHeader) == Some(i)
                          && i + |Dependencies.DepsHeader| < r.value
                          && '\n' !in template[i + |Dependencies.DepsHeader|..r.value - 1]
    ensures r.None? <==> Find(template, Dependencies.DepsHeader).None?
                         || '\n' !in template[Find(template, Dependencies.DepsHeader).value + |Dependencies.DepsHeader|..]
  {
    match Find(template, Dependencies.DepsHeader)
    case None => None
    case Some(i) =>
      var after := i + |Dependencies.DepsHeader|;
      var rest := template[after..];
      match Find(rest, "\n")
      case None =>
        assert '\n' !in rest by {
          forall j | 0 <= j < |rest| ensures rest[j] != '\n' {
            assert !OccursAt(rest, "\n", j);
          }
        }
        None
      case Some(k) =>
        assert rest[k] == '\n' by { assert OccursAt(rest, "\n", k); }
        assert '\n' !in rest[..k] by {
          forall j | 0 <= j < k ensures rest[j] != '\n' {
            assert !OccursAt(rest, "\n", j);
          }
        }
        assert rest[..k] == template[after..after + k];
        Some(after + k + 1)
  }

  /** `generate_cargo_toml_with_dependencies`, with the map's iteration
      order as a parameter. */
  function GenerateCargoToml(template: String, deps: map<String, String>, order: seq<String>): (r: String)
    requires Enumerates(order, deps)
    ensures |deps| == 0 || InsertionPoint(template).None? ==> r == template
    ensures |deps| > 0 && InsertionPoint(template).Some? ==>
              var p := InsertionPoint(template).value;
              r == template[..p] + DepBlock(deps, order) + template[p..]
  {
    if |deps| == 0 then template
    else
      match InsertionPoint(template)
      case None => template
      case Some(p) => template[..p] + DepBlock(deps, order) + template[p..]
  }

  /** The block has one line per key, in the given order, each reading
      `name = value`, as long as names and values hold no line break and
      no value ends in a carriage return. */
  lemma {:induction false} DepBlockLines(deps: map<String, String>, order: seq<String>)
    requires forall k :: k in order ==> k in deps
    requires forall k :: k in order ==> '\n' !in EntryText(k, deps[k])
    requires forall k :: k in order ==> EntryText(k, deps[k])[|EntryText(k, deps[k])| - 1] != '\r'
    ensures Lines(DepBlock(deps, order)) == seq(|order|, j requires 0 <= j < |order| => EntryText(order[j], deps[order[j]]))
  {
    if order != [] {
      var line := EntryText(order[0], deps[order[0]]);
      assert line[|line| - 1] != '\r';
      LinesCons(line, DepBlock(deps, order[1..]));
      DepBlockLines(deps, order[1..]);
    }
  }

  /** With any enumeration of the map, the block's lines are exactly the
      map's entries: one line per key, and each line is `name = value` for
      some entry. */
  lemma DepBlockHoldsEntries(deps: map<String, String>, order: seq<String>)
    requires Enumerates(order, deps)
    requires forall k :: k in deps ==> '\n' !in EntryText(k, deps[k])
    requires forall k :: k in deps ==> EntryText(k, deps[k])[|EntryText(k, deps[k])| - 1] != '\r'
    ensures |Lines(DepBlock(deps, order))| == |order|
    ensures forall j :: 0 <= j < |order| ==> Lines(DepBlock(deps, order))[j] == EntryText(order[j], deps[order[j]])
    ensures forall k :: k in deps ==> EntryText(k, deps[k]) in Lines(DepBlock(deps, order))
  {
    DepBlockLines(deps, order);
    var ls := Lines(DepBlock(deps, order));
    forall k | k in deps
      ensures EntryText(k, deps[k]) in ls
    {
      var j :| 0 <= j < |order| && order[j] == k;
      assert ls[j] == EntryText(k, deps[k]);
    }
  }

  // ---------------------------------------------------------------
  // Injection of the user's processing function
  // ---------------------------------------------------------------

  /** The comment and signature that open the default function. */
  const StartMarker: String := "// Rust processing function - will be loaded from user's code\nfn rust_process"

  /** The closing brace of the default function and the comment after it. */
  const EndMarker: String := "\n}\n\n// C++ FFI"

  /** The comment the injected code is placed under. */
  const LoadedComment: String := "// Rust processing function - loaded from user's code\n"

  /** A match found in the suffix from `s` is, shifted by `s`, the first
      match in the whole text at or after `s`. */
  lemma FindInSuffix(text: String, p: String, s: nat, e: nat)
    requires s <= |text| && Find(text[s..], p) == Some(e)
    ensures OccursAt(text, p, s + e)
    ensures forall j :: s <= j < s + e ==> !OccursAt(text, p, j)
  {
    var tail := text[s..];
    assert text[s + e..s + e + |p|] == tail[e..e + |p|];
    forall j | s <= j < s + e
      ensures !OccursAt(text, p, j)
    {
      assert !OccursAt(tail, p, j - s);
      if j + |p| <= |text| {
        assert text[j..j + |p|] == tail[j - s..j - s + |p|];
      }
    }
  }

  /** The span the splice replaces: from the first start marker to the end
      of the `\n}` that opens the first end marker found at or after it. */
  function SpliceSpan(main: String): (r: Option<(nat, nat)>)
    ensures r.Some? ==> r.value.0 + 2 <= r.value.1 <= |main|
    ensures r.Some? ==> Find(main, StartMarker) == Some(r.value.0)
    ensures r.Some? ==> OccursAt(main, EndMarker, r.value.1 - 2)
    ensures r.Some? ==> forall j :: r.value.0 <= j < r.value.1 - 2 ==> !OccursAt(main, EndMarker, j)
    ensures r.None? ==> Find(main, StartMarker).None? || Find(main[Find(main, StartMarker).value..], EndMarker).None?
  {
    match Find(main, StartMarker)
    case None => None
    case Some(s) =>
      var tail := main[s..];
      match Find(tail, EndMarker)
      case None => None
      case Some(e) =>
        FindInSuffix(main, EndMarker, s, e);
        Some((s, s + e + 2))
  }

  /** `inject_user_rust_code`, given the runtime `main.rs` and the user's
      `rust_process_audio.rs` (absent, unreadable with an error, or its
      text): the span between the markers becomes the loaded-code comment
      and the trimmed user code; without a user file, or without both
      markers, `main.rs` is left as it is. */
  function InjectUserCode(main: String, user: Option<Result<String, String>>): (r: Result<String, String>)
    ensures user.None? ==> r == Success(main)
    ensures user.Some? && user.value.Failure? ==> r == Failure(user.value.error)
    ensures user.Some? && user.value.Success? && SpliceSpan(main).None? ==> r == Success(main)
    ensures user.Some? && user.value.Success? && SpliceSpan(main).Some? ==>
              var (s, e) := SpliceSpan(main).value;
              r.Success? && r.value == main[..s] + LoadedComment + Trim(user.value.value) + main[e..]
  {
    match user
    case None => Success(main)
    case Some(Failure(err)) => Failure(err)
    case Some(Success(code)) =>
      match SpliceSpan(main)
      case None => Success(main)
      case Some((s, e)) => Success(main[..s] + LoadedComment + Trim(code) + main[e..])
  }

  /** The three parts of a concatenation sit where they should. */
  lemma ConcatParts(a: String, b: String, c: String)
    ensures StartsWith(a + b + c, a) && EndsWith(a + b + c, c) && OccursAt(a + b + c, b, |a|)
  {
    assert (a + b + c)[..|a|] == a;
    assert (a + b + c)[|a| + |b|..] == c;
    assert (a + b + c)[|a|..|a| + |b|] == b;
  }

  /** The end marker found at `e - 2` gives `\n}` before `e` and the blank
      line and `// C++ FFI` comment from `e` on. */
  lemma EndMarkerParts(main: String, e: nat)
    requires 2 <= e && OccursAt(main, EndMarker, e - 2)
    ensures main[e - 2..e] == "\n}"
    ensures StartsWith(main[e..], "\n\n// C++ FFI")
  {
    var m := main[e - 2..e - 2 + |EndMarker|];
    assert m == EndMarker;
    assert main[e - 2..e] == m[..2];
    assert main[e..][..|"\n\n// C++ FFI"|] == m[2..];
  }

  /** The injected text is the prefix before the span, the loaded-code
      comment with the trimmed code, and the suffix after the span. */
  lemma InjectedParts(main: String, code: String, s: nat, e: nat)
    requires SpliceSpan(main) == Some((s, e))
    ensures s <= e <= |main|
    ensures InjectUserCode(main, Some(Success(code))).value == main[..s] + (LoadedComment + Trim(code)) + main[e..]
  {
    assert main[..s] + LoadedComment + Trim(code) + main[e..] == main[..s] + (LoadedComment + Trim(code)) + main[e..];
  }

  /** Around the splice nothing changes: the text before the start marker
      is still a prefix, and the text from the blank line before
      `// C++ FFI` onward is still a suffix. */
  lemma InjectKeepsSurroundings(main: String, code: String, s: nat, e: nat)
    requires SpliceSpan(main) == Some((s, e))
    ensures var r := InjectUserCode(main, Some(Success(code))).value;
            && StartsWith(r, main[..s])
            && EndsWith(r, main[e..])
            && StartsWith(main[e..], "\n\n// C++ FFI")
            && OccursAt(r, LoadedComment + Trim(code), s)
  {
    InjectedParts(main, code, s, e);
    ConcatParts(main[..s], LoadedComment + Trim(code), main[e..]);
    EndMarkerParts(main, e);
  }

  /** The replaced span is the default function: it starts at the start
      marker and ends with the closing `\n}`. */
  lemma SpliceSpanIsDefaultFunction(main: String, s: nat, e: nat)
    requires SpliceSpan(main) == Some((s, e))
    ensures OccursAt(main, StartMarker, s) && EndsWith(main[s..e], "\n}")
  {
    EndMarkerParts(main, e);
    assert main[s..e][|main[s..e]| - 2..] == main[e - 2..e];
  }
}
