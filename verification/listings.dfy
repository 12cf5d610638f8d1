/** Directory listings as the file-selection code sees them: the entries
    `read_dir` yields, in its order, each possibly unreadable, and the
    three ways the code walks them (stop at the first unreadable entry,
    skip unreadable entries, or abort on a bad one). The per-entry test is
    a parameter. */
module Listings {
  import opened Wrappers
  import opened Text

  /** One directory entry: its path, and whether that path is valid UTF-8
      (`to_str` fails otherwise). */
  datatype DirEntry = DirEntry(path: String, utf8: bool)

  /** `xs` is `ys` with some elements left out, order kept. */
  predicate Subsequence<T(==)>(xs: seq<T>, ys: seq<T>)
    decreases |ys|
  {
    || xs == []
    || (&& ys != []
        && (|| (xs[|xs| - 1] == ys[|ys| - 1] && Subsequence(xs[..|xs| - 1], ys[..|ys| - 1]))
            || Subsequence(xs, ys[..|ys| - 1])))
  }

  /** Appending an element to the longer sequence keeps a subsequence,
      and appending it to both does too. */
  lemma SubsequenceSnoc<T>(xs: seq<T>, ys: seq<T>, y: T)
    requires Subsequence(xs, ys)
    ensures Subsequence(xs, ys + [y]) && Subsequence(xs + [y], ys + [y])
  {
    assert (ys + [y])[..|ys|] == ys;
    assert (xs + [y])[..|xs|] == xs;
  }

  /** A subsequence holds nothing its sequence does not. */
  lemma {:induction false} SubsequenceMembers<T>(xs: seq<T>, ys: seq<T>, x: T)
    requires Subsequence(xs, ys) && x in xs
    ensures x in ys
    decreases |ys|
  {
    if xs[|xs| - 1] == ys[|ys| - 1] && Subsequence(xs[..|xs| - 1], ys[..|ys| - 1]) {
      if x != xs[|xs| - 1] {
        assert x in xs[..|xs| - 1];
        SubsequenceMembers(xs[..|xs| - 1], ys[..|ys| - 1], x);
      }
    } else {
      SubsequenceMembers(xs, ys[..|ys| - 1], x);
    }
  }

  /** The entries of a listing that has no unreadable entry. */
  function Oks<E>(entries: seq<Result<DirEntry, E>>): (r: seq<DirEntry>)
    requires forall i :: 0 <= i < |entries| ==> entries[i].Success?
    ensures |r| == |entries|
  {
    seq(|entries|, i requires 0 <= i < |entries| => entries[i].value)
  }

  /** The entries that could be read, in listing order. */
  function Readable(entries: seq<Option<DirEntry>>): seq<DirEntry> {
    if entries == [] then []
    else
      var init := Readable(entries[..|entries| - 1]);
      match entries[|entries| - 1]
      case Some(d) => init + [d]
      case None => init
  }

  /** The paths of some entries. */
  function PathsOf(ds: seq<DirEntry>): (r: seq<String>)
    ensures |r| == |ds|
  {
    seq(|ds|, i requires 0 <= i < |ds| => ds[i].path)
  }

  /** Every entry of the listing could be read. */
  predicate AllRead<E>(entries: seq<Result<DirEntry, E>>) {
    forall i :: 0 <= i < |entries| ==> entries[i].Success?
  }

  /** Walk with `?` on every entry: the kept entries in order, or the
      first unreadable entry's error. */
  function KeepOrStop<E>(entries: seq<Result<DirEntry, E>>, keep: DirEntry -> bool): (r: Result<seq<DirEntry>, E>)
    ensures r.Success? ==> forall d :: d in r.value ==> keep(d)
  {
    if entries == [] then Success([])
    else
      match KeepOrStop(entries[..|entries| - 1], keep)
      case Failure(e) => Failure(e)
      case Success(acc) =>
        match entries[|entries| - 1]
        case Failure(e) => Failure(e)
        case Success(d) => Success(if keep(d) then acc + [d] else acc)
  }

  /** The walk fails exactly when some entry is unreadable, and then with
      the error of the first unreadable entry. */
  lemma {:induction false} KeepOrStopFails<E>(entries: seq<Result<DirEntry, E>>, keep: DirEntry -> bool)
    ensures KeepOrStop(entries, keep).Failure? <==> !AllRead(entries)
    ensures KeepOrStop(entries, keep).Failure? ==>
              exists i :: 0 <= i < |entries| && entries[i] == Failure(KeepOrStop(entries, keep).error)
                          && AllRead(entries[..i])
  {
    if entries != [] {
      var n := |entries| - 1;
      var init := entries[..n];
      KeepOrStopFails(init, keep);
      var r := KeepOrStop(entries, keep);
      if KeepOrStop(init, keep).Failure? {
        assert r == KeepOrStop(init, keep);
        var i :| 0 <= i < n && init[i] == Failure(r.error) && AllRead(init[..i]);
        assert init[..i] == entries[..i];
        assert entries[i] == init[i];
      } else if entries[n].Failure? {
        assert r == Failure(entries[n].error);
        assert entries[..n] == init;
      } else {
        assert r.Success?;
        forall i | 0 <= i < |entries|
          ensures entries[i].Success?
        {
          if i < n { assert entries[i] == init[i]; }
        }
      }
    }
  }

  /** On a listing with no unreadable entry the walk keeps every entry
      the test accepts, as a subsequence of the listing. */
  lemma {:induction false} KeepOrStopKeeps<E>(entries: seq<Result<DirEntry, E>>, keep: DirEntry -> bool)
    requires AllRead(entries)
    ensures KeepOrStop(entries, keep).Success?
    ensures forall i :: 0 <= i < |entries| && keep(entries[i].value) ==> entries[i].value in KeepOrStop(entries, keep).value
    ensures Subsequence(KeepOrStop(entries, keep).value, Oks(entries))
  {
    if entries != [] {
      var n := |entries| - 1;
      var init := entries[..n];
      assert forall i :: 0 <= i < n ==> init[i] == entries[i];
      KeepOrStopKeeps(init, keep);
      var acc := KeepOrStop(init, keep).value;
      var d := entries[n].value;
      var r := KeepOrStop(entries, keep);
      assert r == Success(if keep(d) then acc + [d] else acc);
      assert Oks(entries) == Oks(init) + [d];
      SubsequenceSnoc(acc, Oks(init), d);
      forall i | 0 <= i < |entries| && keep(entries[i].value)
        ensures entries[i].value in r.value
      {
        if i < n { assert entries[i] == init[i]; }
      }
    }
  }

  /** The whole contract of the stopping walk: it fails iff some entry is
      unreadable, with the first such entry's error; otherwise it keeps
      exactly the accepted entries, in listing order. */
  lemma KeepOrStopSpec<E>(entries: seq<Result<DirEntry, E>>, keep: DirEntry -> bool)
    ensures var r := KeepOrStop(entries, keep);
            && (r.Failure? <==> exists i :: 0 <= i < |entries| && entries[i].Failure?)
            && (r.Failure? ==> exists i :: 0 <= i < |entries| && entries[i] == Failure(r.error)
                                           && forall j :: 0 <= j < i ==> entries[j].Success?)
            && (r.Success? ==> forall d :: d in r.value ==> keep(d))
            && (r.Success? ==> forall i :: 0 <= i < |entries| && keep(entries[i].value) ==> entries[i].value in r.value)
            && (r.Success? ==> Subsequence(r.value, Oks(entries)))
  {
    KeepOrStopFails(entries, keep);
    var r := KeepOrStop(entries, keep);
    if r.Failure? {
      var i :| 0 <= i < |entries| && entries[i] == Failure(r.error) && AllRead(entries[..i]);
      assert forall j :: 0 <= j < i ==> entries[j] == entries[..i][j];
    } else {
      KeepOrStopKeeps(entries, keep);
    }
  }

  /** Walk that skips unreadable entries and keeps the paths of kept ones,
      in order. */
  function KeepReadable(entries: seq<Option<DirEntry>>, keep: DirEntry -> bool): (r: seq<String>)
    ensures forall p :: p in r ==> exists d :: Some(d) in entries && keep(d) && d.path == p
    ensures forall i :: 0 <= i < |entries| && entries[i].Some? && keep(entries[i].value) ==> entries[i].value.path in r
    ensures Subsequence(r, PathsOf(Readable(entries)))
  {
    if entries == [] then []
    else
      var n := |entries| - 1;
      var init := entries[..n];
      assert entries == init + [entries[n]];
      var acc := KeepReadable(init, keep);
      match entries[n]
      case None => acc
      case Some(d) =>
        assert PathsOf(Readable(entries)) == PathsOf(Readable(init)) + [d.path];
        SubsequenceSnoc(acc, PathsOf(Readable(init)), d.path);
        if keep(d) then acc + [d.path] else acc
  }

  /** An entry the aborting walk stops at: unreadable, or kept with a
      path that is not UTF-8. */
  predicate Aborts<E>(entry: Result<DirEntry, E>, keep: DirEntry -> bool) {
    entry.Failure? || (keep(entry.value) && !entry.value.utf8)
  }

  /** No entry of the listing makes the aborting walk stop. */
  predicate NoAbort<E>(entries: seq<Result<DirEntry, E>>, keep: DirEntry -> bool) {
    forall i :: 0 <= i < |entries| ==> !Aborts(entries[i], keep)
  }

  /** Walk that aborts on an unreadable entry or on a kept entry whose path
      is not UTF-8, and otherwise keeps the paths of kept entries, in
      order. */
  function KeepOrAbort<E>(entries: seq<Result<DirEntry, E>>, keep: DirEntry -> bool, notUtf8: E): (r: Result<seq<String>, E>)
    ensures r.Failure? ==> r.error == notUtf8 || exists i :: 0 <= i < |entries| && entries[i] == Failure(r.error)
  {
    if entries == [] then Success([])
    else
      var n := |entries| - 1;
      match KeepOrAbort(entries[..n], keep, notUtf8)
      case Failure(e) => Failure(e)
      case Success(acc) =>
        if Aborts(entries[n], keep) then
          Failure(if entries[n].Failure? then entries[n].error else notUtf8)
        else
          var d := entries[n].value;
          Success(if keep(d) then acc + [d.path] else acc)
  }

  /** The aborting walk fails exactly when some entry makes it stop. */
  lemma {:induction false} KeepOrAbortFails<E>(entries: seq<Result<DirEntry, E>>, keep: DirEntry -> bool, notUtf8: E)
    ensures KeepOrAbort(entries, keep, notUtf8).Failure? <==> !NoAbort(entries, keep)
  {
    if entries != [] {
      var n := |entries| - 1;
      var init := entries[..n];
      KeepOrAbortFails(init, keep, notUtf8);
      if KeepOrAbort(init, keep, notUtf8).Failure? {
        var i :| 0 <= i < n && Aborts(init[i], keep);
        assert entries[i] == init[i];
      } else if !Aborts(entries[n], keep) {
        forall i | 0 <= i < |entries|
          ensures !Aborts(entries[i], keep)
        {
          if i < n { assert entries[i] == init[i]; }
        }
      }
    }
  }

  /** When no entry makes it stop, the aborting walk keeps exactly the
      paths of the accepted entries, in listing order. */
  lemma {:induction false} KeepOrAbortKeeps<E>(entries: seq<Result<DirEntry, E>>, keep: DirEntry -> bool, notUtf8: E)
    requires NoAbort(entries, keep)
    ensures AllRead(entries)
    ensures KeepOrAbort(entries, keep, notUtf8).Success?
    ensures forall p :: p in KeepOrAbort(entries, keep, notUtf8).value ==>
              exists d :: d in Oks(entries) && keep(d) && d.path == p
    ensures forall i :: 0 <= i < |entries| && keep(entries[i].value) ==>
              entries[i].value.path in KeepOrAbort(entries, keep, notUtf8).value
    ensures Subsequence(KeepOrAbort(entries, keep, notUtf8).value, PathsOf(Oks(entries)))
  {
    assert AllRead(entries) by {
      forall i | 0 <= i < |entries| ensures entries[i].Success? { assert !Aborts(entries[i], keep); }
    }
    if entries != [] {
      var n := |entries| - 1;
      var init := entries[..n];
      assert forall i :: 0 <= i < n ==> init[i] == entries[i];
      KeepOrAbortKeeps(init, keep, notUtf8);
      var acc := KeepOrAbort(init, keep, notUtf8).value;
      var d := entries[n].value;
      var r := KeepOrAbort(entries, keep, notUtf8);
      assert !Aborts(entries[n], keep);
      assert r == Success(if keep(d) then acc + [d.path] else acc);
      assert Oks(entries) == Oks(init) + [d];
      assert PathsOf(Oks(entries)) == PathsOf(Oks(init)) + [d.path];
      SubsequenceSnoc(acc, PathsOf(Oks(init)), d.path);
      forall p | p in r.value
        ensures exists e :: e in Oks(entries) && keep(e) && e.path == p
      {
        if p in acc {
          var e :| e in Oks(init) && keep(e) && e.path == p;
          assert e in Oks(entries);
        } else {
          assert d in Oks(entries);
        }
      }
      forall i | 0 <= i < |entries| && keep(entries[i].value)
        ensures entries[i].value.path in r.value
      {
        if i < n { assert entries[i] == init[i]; }
      }
    }
  }

  /** The whole contract of the aborting walk: it fails iff some entry
      makes it stop; otherwise it keeps exactly the paths of the accepted
      entries, in listing order. */
  lemma KeepOrAbortSpec<E>(entries: seq<Result<DirEntry, E>>, keep: DirEntry -> bool, notUtf8: E)
    ensures var r := KeepOrAbort(entries, keep, notUtf8);
            && (r.Failure? <==> exists i :: 0 <= i < |entries| && Aborts(entries[i], keep))
            && (r.Success? ==> AllRead(entries))
            && (r.Success? ==> forall p :: p in r.value ==> exists d :: d in Oks(entries) && keep(d) && d.path == p)
            && (r.Success? ==> forall i :: 0 <= i < |entries| && keep(entries[i].value) ==> entries[i].value.path in r.value)
            && (r.Success? ==> Subsequence(r.value, PathsOf(Oks(entries))))
  {
    KeepOrAbortFails(entries, keep, notUtf8);
    if KeepOrAbort(entries, keep, notUtf8).Success? {
      KeepOrAbortKeeps(entries, keep, notUtf8);
    }
  }
}
