/** The handful of Rust `str` operations the tool relies on, over
    strings as sequences of Unicode scalar values: whitespace trimming,
    substring search, prefix tests and line splitting. */
module Text {
  import opened Wrappers

  type String = seq<char>

  /** Rust's `char::is_whitespace`: the Unicode White_Space property. */
  predicate IsWhitespace(c: char) {
    || ('\U{0009}' <= c <= '\U{000D}')
    || c == ' '
    || c == '\U{0085}'
    || c == '\U{00A0}'
    || c == '\U{1680}'
    || ('\U{2000}' <= c <= '\U{200A}')
    || c == '\U{2028}'
    || c == '\U{2029}'
    || c == '\U{202F}'
    || c == '\U{205F}'
    || c == '\U{3000}'
  }

  predicate StartsWith(s: String, p: String) {
    |p| <= |s| && s[..|p|] == p
  }

  predicate EndsWith(s: String, p: String) {
    |p| <= |s| && s[|s| - |p|..] == p
  }

  /** `p` occurs in `s` starting at index `i`. */
  predicate OccursAt(s: String, p: String, i: nat) {
    i + |p| <= |s| && s[i..i + |p|] == p
  }

  /** `str::trim_start`: drops the leading whitespace, and nothing else. */
  function TrimStart(s: String): (r: String)
    ensures |r| <= |s| && r == s[|s| - |r|..]
    ensures forall i :: 0 <= i < |s| - |r| ==> IsWhitespace(s[i])
    ensures r == [] || !IsWhitespace(r[0])
  {
    if |s| > 0 && IsWhitespace(s[0]) then TrimStart(s[1..]) else s
  }

  /** `str::trim_end`: drops the trailing whitespace, and nothing else. */
  function TrimEnd(s: String): (r: String)
    ensures |r| <= |s| && r == s[..|r|]
    ensures forall i :: |r| <= i < |s| ==> IsWhitespace(s[i])
    ensures r == [] || !IsWhitespace(r[|r| - 1])
  {
    if |s| > 0 && IsWhitespace(s[|s| - 1]) then TrimEnd(s[..|s| - 1]) else s
  }

  /** `str::trim`. */
  function Trim(s: String): String {
    TrimEnd(TrimStart(s))
  }

  /** A text without whitespace at either end is its own trim. */
  lemma TrimUnchanged(s: String)
    requires s != [] && !IsWhitespace(s[0]) && !IsWhitespace(s[|s| - 1])
    ensures Trim(s) == s
  {
  }

  /** Trailing whitespace is only ever taken from the part after a prefix
      that does not end in whitespace. */
  lemma {:induction false} TrimEndAppend(a: String, b: String)
    requires a != [] && !IsWhitespace(a[|a| - 1])
    ensures TrimEnd(a + b) == a + TrimEnd(b)
  {
    if b != [] && IsWhitespace(b[|b| - 1]) {
      assert (a + b)[..|a + b| - 1] == a + b[..|b| - 1];
      TrimEndAppend(a, b[..|b| - 1]);
    }
  }

  /** `str::trim_end_matches(c)` for a single character `c`: strips every
      trailing copy of `c`. */
  function TrimEndMatches(s: String, c: char): (r: String)
    ensures |r| <= |s| && r == s[..|r|]
    ensures forall i :: |r| <= i < |s| ==> s[i] == c
    ensures r == [] || r[|r| - 1] != c
  {
    if |s| > 0 && s[|s| - 1] == c then TrimEndMatches(s[..|s| - 1], c) else s
  }

  /** The first occurrence of `p` in `s` at or after index `i`. */
  function FindFrom(s: String, p: String, i: nat): (r: Option<nat>)
    requires i <= |s|
    ensures r.Some? ==> i <= r.value && OccursAt(s, p, r.value)
    ensures r.Some? ==> forall j :: i <= j < r.value ==> !OccursAt(s, p, j)
    ensures r.None? ==> forall j :: i <= j ==> !OccursAt(s, p, j)
    decreases |s| - i
  {
    if OccursAt(s, p, i) then Some(i)
    else if i == |s| then None
    else FindFrom(s, p, i + 1)
  }

  /** `str::find`: the index of the first occurrence of `p` in `s`. */
  function Find(s: String, p: String): (r: Option<nat>)
    ensures r.Some? ==> OccursAt(s, p, r.value) && forall j :: 0 <= j < r.value ==> !OccursAt(s, p, j)
    ensures r.None? ==> forall j :: 0 <= j ==> !OccursAt(s, p, j)
  {
    FindFrom(s, p, 0)
  }

  /** `str::contains`. */
  predicate Contains(s: String, p: String) {
    Find(s, p).Some?
  }

  lemma ContainsIffOccurs(s: String, p: String)
    ensures Contains(s, p) <==> exists i: nat :: OccursAt(s, p, i)
  {
    if !Contains(s, p) {
      assert forall i: nat :: !OccursAt(s, p, i);
    }
  }

  /** `s.split(sep).next()`: the text before the first `sep`, or all of
      `s` when there is none. */
  function BeforeFirst(s: String, sep: String): String {
    match Find(s, sep)
    case Some(i) => s[..i]
    case None => s
  }

  /** Drops one `\r` that ends a line which was terminated by `\n`. */
  function StripCr(line: String): String {
    if |line| > 0 && line[|line| - 1] == '\r' then line[..|line| - 1] else line
  }

  /** `str::lines`: split at `\n` (dropping a `\r` just before it); a final
      line ending is optional and produces no empty last line. */
  function Lines(s: String): (ls: seq<String>)
    ensures forall k :: 0 <= k < |ls| ==> '\n' !in ls[k]
    ensures s == [] <==> ls == []
    decreases |s|
  {
    if s == [] then []
    else
      match Find(s, "\n")
      case None =>
        assert '\n' !in s by {
          forall j | 0 <= j < |s| ensures s[j] != '\n' {
            assert !OccursAt(s, "\n", j);
          }
        }
        [s]
      case Some(k) =>
        assert forall j :: 0 <= j < k ==> s[j] != '\n' by {
          forall j | 0 <= j < k ensures s[j] != '\n' {
            assert !OccursAt(s, "\n", j);
          }
        }
        [StripCr(s[..k])] + Lines(s[k + 1..])
  }

  /** A line without a line break or a trailing carriage return, followed
      by a line break, is the first of the lines. */
  lemma LinesCons(line: String, rest: String)
    requires '\n' !in line && (line == [] || line[|line| - 1] != '\r')
    ensures Lines(line + "\n" + rest) == [line] + Lines(rest)
  {
    var s := line + "\n" + rest;
    assert OccursAt(s, "\n", |line|);
    forall j | 0 <= j < |line|
      ensures !OccursAt(s, "\n", j)
    {
      assert s[j] == line[j];
    }
    assert Find(s, "\n") == Some(|line|);
    assert s[..|line|] == line;
    assert s[|line| + 1..] == rest;
  }
}
