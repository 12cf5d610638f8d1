/** `process_and_copy_files`: pick the user's program files out of a
    folder by name, check that each one declares the expected entry point,
    and copy those that do into the processing folder. The folder listing,
    file contents and the copy are inputs; the model decides what is read,
    what is copied, what is reported, and which error stops the run. */
module CodeFiles {
  import opened Wrappers
  import opened Text
  import opened Paths
  import opened Listings

  const RustProgramName: String := "rust_process_audio.rs"
  const CppProgramName: String := "cpp_process_audio.cpp"

  /** The declaration a C++ program file must contain. */
  const CppSignature: String :=
    "extern \"C\" void cpp_process(const double* input, size_t num_channels, size_t num_samples, double* output)"

  /** The declaration a Rust program file must contain. */
  const RustSignature: String :=
    "pub fn rust_process(input: &Vec<Vec<f64>>, output: &mut Vec<Vec<f64>>)"

  /** `PROGRAM_FOLDER`. */
  const ProgramFolder: String := "../audio/processing"

  /** `file_name().to_str().unwrap_or("")`: the entry's name, or the empty
      string when the path is not UTF-8 or (never for a listed entry) has
      no name. */
  function NameOf(d: DirEntry): (name: String)
    ensures name != [] ==> d.utf8 && FileName(d.path) == Some(name)
  {
    if d.utf8 && FileName(d.path).Some? then FileName(d.path).value else ""
  }

  predicate IsProgramName(name: String) {
    name == RustProgramName || name == CppProgramName
  }

  /** The filter of `get_files_from_folder`: the entry is named like a
      program file. */
  predicate IsProgramEntry(d: DirEntry) {
    IsProgramName(NameOf(d))
  }

  /** The selection test of the copy loop for a mode (`"rust"`, `"cpp"` or
      `"both"`) and a file name. */
  predicate Selected(mode: String, name: String) {
    || (mode == "rust" && name == RustProgramName)
    || (mode == "cpp" && name == CppProgramName)
    || (mode == "both" && (name == RustProgramName || name == CppProgramName))
  }

  /** The selection table: `rust` and `cpp` pick their own file, `both`
      picks either, and any other mode picks nothing. */
  lemma SelectionTable(mode: String, name: String)
    ensures Selected(mode, name) ==> IsProgramName(name)
    ensures mode == "rust" ==> (Selected(mode, name) <==> name == RustProgramName)
    ensures mode == "cpp" ==> (Selected(mode, name) <==> name == CppProgramName)
    ensures mode == "both" ==> (Selected(mode, name) <==> IsProgramName(name))
    ensures mode != "rust" && mode != "cpp" && mode != "both" ==> !Selected(mode, name)
  {}

  /** `get_files_from_folder`: the entries named like a program file, in
      listing order; an unreadable folder, or the first unreadable entry,
      is the error. */
  function GetFilesFromFolder(listing: Result<seq<Result<DirEntry, String>>, String>): (r: Result<seq<DirEntry>, String>)
    ensures listing.Failure? ==> r == Failure(listing.error)
    ensures listing.Success? ==> (r.Failure? <==> exists i :: 0 <= i < |listing.value| && listing.value[i].Failure?)
    ensures listing.Success? && r.Failure? ==>
              exists i :: 0 <= i < |listing.value| && listing.value[i] == Failure(r.error)
                          && forall j :: 0 <= j < i ==> listing.value[j].Success?
    ensures r.Success? ==> forall d :: d in r.value ==> d.utf8 && FileName(d.path).Some? && IsProgramName(FileName(d.path).value)
    ensures listing.Success? && r.Success? ==>
              forall i :: 0 <= i < |listing.value| && IsProgramEntry(listing.value[i].value) ==> listing.value[i].value in r.value
    ensures listing.Success? && r.Success? ==> Subsequence(r.value, Oks(listing.value))
  {
    match listing
    case Failure(e) => Failure(e)
    case Success(entries) =>
      KeepOrStopSpec(entries, IsProgramEntry);
      var r := KeepOrStop(entries, IsProgramEntry);
      if r.Success? then
        assert forall d :: d in r.value ==> IsProgramName(NameOf(d));
        r
      else r
  }

  /** Every file `get_files_from_folder` returns is a listed entry. */
  lemma FilesAreListed(entries: seq<Result<DirEntry, String>>)
    ensures var r := GetFilesFromFolder(Success(entries));
            r.Success? ==> forall d :: d in r.value ==> exists i :: 0 <= i < |entries| && entries[i] == Success(d)
  {
    var r := GetFilesFromFolder(Success(entries));
    if r.Success? {
      forall d | d in r.value ensures exists i :: 0 <= i < |entries| && entries[i] == Success(d) {
        SubsequenceMembers(r.value, Oks(entries), d);
        var i :| 0 <= i < |Oks(entries)| && Oks(entries)[i] == d;
        assert entries[i] == Success(d);
      }
    }
  }

  /** `check_cpp_function_signature` and `check_rust_function_signature`:
      the contents contain the signature verbatim. */
  predicate HasSignature(contents: String, signature: String) {
    Contains(contents, signature)
  }

  /** `validate_file`: a program file passes when its contents carry the
      signature for its name; any other name fails without being read; a
      read error is the error. */
  function ValidateFile(d: DirEntry, read: String -> Result<String, String>): (r: Result<bool, String>)
    ensures !IsProgramName(NameOf(d)) ==> r == Success(false)
    ensures NameOf(d) == CppProgramName ==>
              r == (if read(d.path).Failure? then Failure(read(d.path).error)
                    else Success(exists i: nat :: OccursAt(read(d.path).value, CppSignature, i)))
    ensures NameOf(d) == RustProgramName ==>
              r == (if read(d.path).Failure? then Failure(read(d.path).error)
                    else Success(exists i: nat :: OccursAt(read(d.path).value, RustSignature, i)))
  {
    var name := NameOf(d);
    if name == CppProgramName then
      match read(d.path)
      case Failure(e) => Failure(e)
      case Success(c) => ContainsIffOccurs(c, CppSignature); Success(HasSignature(c, CppSignature))
    else if name == RustProgramName then
      match read(d.path)
      case Failure(e) => Failure(e)
      case Success(c) => ContainsIffOccurs(c, RustSignature); Success(HasSignature(c, RustSignature))
    else Success(false)
  }

  /** `copy_to_processing_folder`'s target: the file's name inside the
      processing folder. */
  function Destination(name: String): (r: String)
    requires IsEntryName(name)
    ensures FileName(r) == Some(name)
    ensures StartsWith(r, ProgramFolder + "/")
  {
    FileNameOfJoin(ProgramFolder, name);
    ProgramFolder + "/" + name
  }

  /** What the copy loop does with one file. */
  datatype Step = Skip | Reject | Copy | Stop(error: String)

  /** One iteration of the copy loop: an unselected file is skipped; a
      selected one is validated, then copied to its destination or
      reported; a read or copy error stops the loop. */
  function CopyStep(mode: String, read: String -> Result<String, String>,
                    copy: (String, String) -> Option<String>, d: DirEntry): Step
  {
    var name := NameOf(d);
    if !Selected(mode, name) then Skip
    else
      match ValidateFile(d, read)
      case Failure(e) => Stop(e)
      case Success(ok) =>
        if !ok then Reject
        else
          SelectionTable(mode, name);
          match copy(d.path, Destination(name))
          case Some(e) => Stop(e)
          case None => Copy
  }

  /** What a run did: the files copied and the files rejected, in order,
      and the error that stopped it, if any. */
  datatype CopyOutcome = CopyOutcome(copied: seq<String>, rejected: seq<String>, error: Option<String>)

  /** The copy loop over the files, in order, up to the first error. */
  function CopyLoop(files: seq<DirEntry>, step: DirEntry -> Step): (r: CopyOutcome)
    ensures r.error.Some? <==> exists i :: 0 <= i < |files| && step(files[i]).Stop?
    ensures r.error.None? ==> forall i :: 0 <= i < |files| && step(files[i]).Copy? ==> files[i].path in r.copied
    ensures r.error.None? ==> forall i :: 0 <= i < |files| && step(files[i]).Reject? ==> files[i].path in r.rejected
    ensures forall p :: p in r.copied ==> exists i :: 0 <= i < |files| && files[i].path == p && step(files[i]).Copy?
    ensures forall p :: p in r.rejected ==> exists i :: 0 <= i < |files| && files[i].path == p && step(files[i]).Reject?
  {
    if files == [] then CopyOutcome([], [], None)
    else
      var n := |files| - 1;
      var acc := CopyLoop(files[..n], step);
      assert forall i :: 0 <= i < n ==> files[..n][i] == files[i];
      if acc.error.Some? then acc
      else
        match step(files[n])
        case Skip => acc
        case Reject => acc.(rejected := acc.rejected + [files[n].path])
        case Copy => acc.(copied := acc.copied + [files[n].path])
        case Stop(e) => acc.(error := Some(e))
  }

  /** When the loop stops, it stops at the first file whose step is an
      error, with that file's error, and everything it copied or reported
      comes from the files before it. */
  lemma {:induction false} CopyLoopStopsAtFirstError(files: seq<DirEntry>, step: DirEntry -> Step)
    ensures var r := CopyLoop(files, step);
            r.error.Some? ==>
              exists i :: 0 <= i < |files| && step(files[i]) == Stop(r.error.value)
                && (forall j :: 0 <= j < i ==> !step(files[j]).Stop?)
                && (forall p :: p in r.copied + r.rejected ==> exists j :: 0 <= j < i && files[j].path == p)
  {
    if files != [] {
      var n := |files| - 1;
      var acc := CopyLoop(files[..n], step);
      CopyLoopStopsAtFirstError(files[..n], step);
      assert forall j :: 0 <= j < n ==> files[..n][j] == files[j];
      if acc.error.None? {
        var r := CopyLoop(files, step);
        if r.error.Some? {
          assert step(files[n]) == Stop(r.error.value);
          assert r.copied + r.rejected == acc.copied + acc.rejected;
          forall p | p in r.copied + r.rejected ensures exists j :: 0 <= j < n && files[j].path == p {
            if p in acc.copied {
              var j :| 0 <= j < n && files[..n][j].path == p && step(files[..n][j]).Copy?;
            } else {
              var j :| 0 <= j < n && files[..n][j].path == p && step(files[..n][j]).Reject?;
            }
          }
        }
      }
    }
  }

  /** The step of the copy loop for a mode and the effects it observes. */
  function StepOf(mode: String, read: String -> Result<String, String>,
                  copy: (String, String) -> Option<String>): DirEntry -> Step
  {
    d => CopyStep(mode, read, copy, d)
  }

  /** The file is selected by the mode, and its validation returned `ok`. */
  predicate SelectedWith(mode: String, read: String -> Result<String, String>, d: DirEntry, ok: bool) {
    Selected(mode, NameOf(d)) && ValidateFile(d, read) == Success(ok)
  }

  /** Without an error, the copy loop copied every selected valid file and
      reported every selected invalid one. */
  lemma LoopAllSelected(mode: String, files: seq<DirEntry>, read: String -> Result<String, String>,
                        copy: (String, String) -> Option<String>)
    ensures var r := CopyLoop(files, StepOf(mode, read, copy));
            && (r.error.None? ==> forall k :: 0 <= k < |files| && SelectedWith(mode, read, files[k], true) ==> files[k].path in r.copied)
            && (r.error.None? ==> forall k :: 0 <= k < |files| && SelectedWith(mode, read, files[k], false) ==> files[k].path in r.rejected)
  {
    forall k | 0 <= k < |files|
      ensures SelectedWith(mode, read, files[k], true) ==> CopyStep(mode, read, copy, files[k]) in {Copy} || CopyStep(mode, read, copy, files[k]).Stop?
      ensures SelectedWith(mode, read, files[k], false) ==> CopyStep(mode, read, copy, files[k]) == Reject
    {
      CopyStepSpec(mode, read, copy, files[k]);
    }
  }

  /** A path the loop copied, over files drawn from a listing, is that of
      a listed entry whose step copies it. */
  lemma CopiedEntry(entries: seq<Result<DirEntry, String>>, files: seq<DirEntry>, step: DirEntry -> Step, p: String)
    returns (i: nat)
    requires forall d :: d in files ==> exists i :: 0 <= i < |entries| && entries[i] == Success(d)
    requires p in CopyLoop(files, step).copied
    ensures i < |entries| && entries[i].Success? && entries[i].value.path == p && step(entries[i].value).Copy?
  {
    var k :| 0 <= k < |files| && files[k].path == p && step(files[k]).Copy?;
    assert files[k] in files;
    i :| 0 <= i < |entries| && entries[i] == Success(files[k]);
  }

  /** A path the loop reported, over files drawn from a listing, is that
      of a listed entry whose step reports it. */
  lemma RejectedEntry(entries: seq<Result<DirEntry, String>>, files: seq<DirEntry>, step: DirEntry -> Step, p: String)
    returns (i: nat)
    requires forall d :: d in files ==> exists i :: 0 <= i < |entries| && entries[i] == Success(d)
    requires p in CopyLoop(files, step).rejected
    ensures i < |entries| && entries[i].Success? && entries[i].value.path == p && step(entries[i].value).Reject?
  {
    var k :| 0 <= k < |files| && files[k].path == p && step(files[k]).Reject?;
    assert files[k] in files;
    i :| 0 <= i < |entries| && entries[i] == Success(files[k]);
  }

  /** Whatever a run over the found files copies or reports is a listed
      entry, selected, and valid or invalid respectively. */
  lemma RunCopiesListedEntries(mode: String, entries: seq<Result<DirEntry, String>>, files: seq<DirEntry>,
                               read: String -> Result<String, String>, copy: (String, String) -> Option<String>)
    requires forall d :: d in files ==> exists i :: 0 <= i < |entries| && entries[i] == Success(d)
    ensures var r := CopyLoop(files, StepOf(mode, read, copy));
            && (forall p :: p in r.copied ==>
                  exists i :: 0 <= i < |entries| && entries[i].Success? && entries[i].value.path == p
                              && SelectedWith(mode, read, entries[i].value, true))
            && (forall p :: p in r.rejected ==>
                  exists i :: 0 <= i < |entries| && entries[i].Success? && entries[i].value.path == p
                              && SelectedWith(mode, read, entries[i].value, false))
  {
    var step := StepOf(mode, read, copy);
    var r := CopyLoop(files, step);
    forall p | p in r.copied
      ensures exists i :: 0 <= i < |entries| && entries[i].Success? && entries[i].value.path == p
                          && SelectedWith(mode, read, entries[i].value, true)
    {
      var i := CopiedEntry(entries, files, step, p);
      CopyStepSpec(mode, read, copy, entries[i].value);
    }
    forall p | p in r.rejected
      ensures exists i :: 0 <= i < |entries| && entries[i].Success? && entries[i].value.path == p
                          && SelectedWith(mode, read, entries[i].value, false)
    {
      var i := RejectedEntry(entries, files, step, p);
      CopyStepSpec(mode, read, copy, entries[i].value);
    }
  }

  /** A run over the found files that meets no error copies every listed,
      selected, valid entry and reports every listed, selected, invalid
      one. */
  lemma RunCoversSelectedEntries(mode: String, entries: seq<Result<DirEntry, String>>, files: seq<DirEntry>,
                                 read: String -> Result<String, String>, copy: (String, String) -> Option<String>)
    requires GetFilesFromFolder(Success(entries)) == Success(files)
    ensures var r := CopyLoop(files, StepOf(mode, read, copy));
            && (r.error.None? ==>
                  forall i :: 0 <= i < |entries| && entries[i].Success? && SelectedWith(mode, read, entries[i].value, true)
                              ==> entries[i].value.path in r.copied)
            && (r.error.None? ==>
                  forall i :: 0 <= i < |entries| && entries[i].Success? && SelectedWith(mode, read, entries[i].value, false)
                              ==> entries[i].value.path in r.rejected)
  {
    LoopAllSelected(mode, files, read, copy);
    ProgramEntriesFound(mode, read, entries, files);
  }

  /** `process_and_copy_files`, given the folder listing, the contents of
      each file (or the read error) and the outcome of each copy (`None`
      when it succeeds). A path is copied only if it is a listed entry the
      mode selects and whose contents carry its signature, and reported
      only if it is a selected entry without it; when nothing stops the
      run, every such entry is copied or reported. An unreadable folder or
      entry stops the run before anything is copied. */
  function ProcessAndCopyFiles(mode: String, listing: Result<seq<Result<DirEntry, String>>, String>,
                               read: String -> Result<String, String>,
                               copy: (String, String) -> Option<String>): (r: CopyOutcome)
    ensures listing.Failure? ==> r == CopyOutcome([], [], Some(listing.error))
    ensures listing.Success? && !AllRead(listing.value) ==>
              && r.copied == [] && r.rejected == [] && r.error.Some?
              && exists i :: 0 <= i < |listing.value| && listing.value[i] == Failure(r.error.value)
                             && forall j :: 0 <= j < i ==> listing.value[j].Success?
    ensures listing.Success? ==> forall p :: p in r.copied ==>
              exists i :: 0 <= i < |listing.value| && listing.value[i].Success? && listing.value[i].value.path == p
                          && SelectedWith(mode, read, listing.value[i].value, true)
    ensures listing.Success? ==> forall p :: p in r.rejected ==>
              exists i :: 0 <= i < |listing.value| && listing.value[i].Success? && listing.value[i].value.path == p
                          && SelectedWith(mode, read, listing.value[i].value, false)
    ensures listing.Success? && r.error.None? ==>
              forall i :: 0 <= i < |listing.value| && listing.value[i].Success? && SelectedWith(mode, read, listing.value[i].value, true)
                          ==> listing.value[i].value.path in r.copied
    ensures listing.Success? && r.error.None? ==>
              forall i :: 0 <= i < |listing.value| && listing.value[i].Success? && SelectedWith(mode, read, listing.value[i].value, false)
                          ==> listing.value[i].value.path in r.rejected
  {
    match GetFilesFromFolder(listing)
    case Failure(e) => CopyOutcome([], [], Some(e))
    case Success(files) =>
      FilesAreListed(listing.value);
      RunCopiesListedEntries(mode, listing.value, files, read, copy);
      RunCoversSelectedEntries(mode, listing.value, files, read, copy);
      CopyLoop(files, StepOf(mode, read, copy))
  }

  /** A listed entry the mode selects is among the files found. */
  lemma ProgramEntriesFound(mode: String, read: String -> Result<String, String>,
                            entries: seq<Result<DirEntry, String>>, files: seq<DirEntry>)
    requires GetFilesFromFolder(Success(entries)) == Success(files)
    ensures forall i :: 0 <= i < |entries| && entries[i].Success? && Selected(mode, NameOf(entries[i].value)) ==>
              exists k :: 0 <= k < |files| && files[k] == entries[i].value
  {
    forall i | 0 <= i < |entries| && entries[i].Success? && Selected(mode, NameOf(entries[i].value))
      ensures exists k :: 0 <= k < |files| && files[k] == entries[i].value
    {
      SelectionTable(mode, NameOf(entries[i].value));
      assert entries[i].value in files;
    }
  }

  /** What the loop does with one file, in the program's terms: copied iff
      selected, carrying its signature, and copied without error; reported
      iff selected and lacking the signature; stopping iff selected and
      unreadable, or valid and failing to copy. */
  lemma CopyStepSpec(mode: String, read: String -> Result<String, String>,
                     copy: (String, String) -> Option<String>, d: DirEntry)
    ensures Selected(mode, NameOf(d)) ==> IsEntryName(NameOf(d))
    ensures CopyStep(mode, read, copy, d).Copy? <==>
              Selected(mode, NameOf(d)) && ValidateFile(d, read) == Success(true)
              && copy(d.path, Destination(NameOf(d))).None?
    ensures CopyStep(mode, read, copy, d).Reject? <==>
              Selected(mode, NameOf(d)) && ValidateFile(d, read) == Success(false)
    ensures CopyStep(mode, read, copy, d).Stop? <==>
              Selected(mode, NameOf(d))
              && (ValidateFile(d, read).Failure?
                  || (ValidateFile(d, read) == Success(true) && copy(d.path, Destination(NameOf(d))).Some?))
    ensures CopyStep(mode, read, copy, d).Skip? <==> !Selected(mode, NameOf(d))
  {
    var name := NameOf(d);
    var step := CopyStep(mode, read, copy, d);
    if !Selected(mode, name) {
      assert step == Skip;
    } else {
      SelectionTable(mode, name);
      var v := ValidateFile(d, read);
      if v.Failure? {
        assert step == Stop(v.error);
      } else if !v.value {
        assert step == Reject;
      } else {
        var c := copy(d.path, Destination(name));
        assert step == (if c.Some? then Stop(c.value) else Copy);
      }
    }
  }

  /** With every file readable and every copy succeeding, no file stops
      the copy loop. */
  lemma NothingStops(mode: String, files: seq<DirEntry>, read: String -> Result<String, String>,
                     copy: (String, String) -> Option<String>)
    requires forall k :: 0 <= k < |files| ==> read(files[k].path).Success?
    requires forall src, dst :: copy(src, dst).None?
    ensures forall k :: 0 <= k < |files| ==> !CopyStep(mode, read, copy, files[k]).Stop?
  {
    forall k | 0 <= k < |files|
      ensures !CopyStep(mode, read, copy, files[k]).Stop?
    {
      CopyStepSpec(mode, read, copy, files[k]);
    }
  }

  /** End to end, when nothing fails to read or copy and the listing names
      each path once: a listed file is copied iff the mode selects its
      name and its contents carry the matching signature, and reported iff
      selected without it. */
  lemma CopiedIffSelectedAndValid(mode: String, entries: seq<Result<DirEntry, String>>,
                                  read: String -> Result<String, String>,
                                  copy: (String, String) -> Option<String>, i: nat)
    requires i < |entries|
    requires forall j :: 0 <= j < |entries| ==> entries[j].Success?
    requires forall j, k :: 0 <= j < k < |entries| ==> entries[j].value.path != entries[k].value.path
    requires forall j :: 0 <= j < |entries| ==> read(entries[j].value.path).Success?
    requires forall src, dst :: copy(src, dst).None?
    ensures var r := ProcessAndCopyFiles(mode, Success(entries), read, copy);
            var d := entries[i].value;
            && r.error.None?
            && (d.path in r.copied <==> SelectedWith(mode, read, d, true))
            && (d.path in r.rejected <==> SelectedWith(mode, read, d, false))
  {
    KeepOrStopSpec(entries, IsProgramEntry);
    var files := KeepOrStop(entries, IsProgramEntry).value;
    forall k | 0 <= k < |files|
      ensures read(files[k].path).Success?
    {
      assert files[k] in files;
      SubsequenceMembers(files, Oks(entries), files[k]);
    }
    NothingStops(mode, files, read, copy);
    var r := ProcessAndCopyFiles(mode, Success(entries), read, copy);
    assert r == CopyLoop(files, StepOf(mode, read, copy));
    var d := entries[i].value;
    if d.path in r.copied {
      var j :| 0 <= j < |entries| && entries[j].Success? && entries[j].value.path == d.path
               && SelectedWith(mode, read, entries[j].value, true);
      assert j == i;
    }
    if d.path in r.rejected {
      var j :| 0 <= j < |entries| && entries[j].Success? && entries[j].value.path == d.path
               && SelectedWith(mode, read, entries[j].value, false);
      assert j == i;
    }
  }
}
