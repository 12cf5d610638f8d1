/** The decisions of the command-line entry point: which copy mode the
    `--rust`/`--cpp` flags select, when the runtime is recompiled, where a
    failure ends the run, and which program files are dispatched. The run
    is a sequence of the steps taken, in order; what each step does to the
    filesystem is left to the modules that model it.

    Two revisions of the entry point exist. The current one recompiles a
    second time when DSP code is present or the runtime binary is missing,
    and its recompile returns on success. The earlier one has no such
    second step, and its recompile always ends the process (it relaunches
    the tool in a new terminal and exits). */
module MainFlow {
  import opened Wrappers
  import opened Text
  import opened Paths
  import opened Listings
  import opened ProgramFiles

  /** The parsed command line. */
  datatype Flags = Flags(
    newCommand: bool,          // the `new` subcommand was given
    newDir: Option<String>,    // its `--dir`
    rust: bool,                // `--rust`
    cpp: bool,                 // `--cpp`
    code: Option<String>,      // `--code <folder>`
    audio: Option<String>)     // `--audio <folder>`

  datatype Revision = Current | Earlier

  /** What the external steps report: whether copying the code files,
      recompiling and replacing the audio files succeed. */
  datatype Outcomes = Outcomes(copyOk: bool, recompileOk: bool, replaceOk: bool)

  /** What the current revision looks at in the processing folder before
      deciding on a second recompile. */
  datatype Probe = Probe(
    rustSource: bool,                           // `rust_process_audio.rs` exists
    dependenciesToml: bool,                     // `dependencies.toml` exists
    folderExists: bool,                         // the processing folder exists
    listing: Option<seq<Option<DirEntry>>>,     // its entries, `None` if unreadable
    runtimeBinary: bool)                        // the compiled runtime exists

  datatype Step =
    | CreateFolders(base: String)
    | CopyCode(folder: String, mode: String)
    | Recompile
    | ReplaceAudio(folder: String)
    | Process(extensions: seq<String>)

  /** The mode passed to `process_and_copy_files`; none when both flags
      are given, in which case nothing is copied. */
  function CopyModeFor(rust: bool, cpp: bool): (r: Option<String>)
    ensures r == Some("rust") <==> rust && !cpp
    ensures r == Some("cpp") <==> cpp && !rust
    ensures r == Some("both") <==> !rust && !cpp
    ensures r.None? <==> rust && cpp
  {
    if rust && !cpp then Some("rust")
    else if cpp && !rust then Some("cpp")
    else if !rust && !cpp then Some("both")
    else None
  }

  /** An extension that marks C++ code: `cpp`, `h` or `hpp`. */
  predicate IsCppExtension(e: Option<String>) {
    e == Some("cpp") || e == Some("h") || e == Some("hpp")
  }

  /** `has_cpp_files`: the folder exists, can be read, and has a readable
      entry with a C++ extension. */
  function HasCppFiles(folderExists: bool, listing: Option<seq<Option<DirEntry>>>): (r: bool)
    ensures r <==> folderExists && listing.Some? &&
                   exists i :: 0 <= i < |listing.value| && listing.value[i].Some? &&
                     IsCppExtension(Extension(listing.value[i].value.path))
  {
    folderExists && listing.Some? && AnyCpp(listing.value)
  }

  function AnyCpp(entries: seq<Option<DirEntry>>): (r: bool)
    ensures r <==> exists i :: 0 <= i < |entries| && entries[i].Some? && IsCppExtension(Extension(entries[i].value.path))
  {
    if entries == [] then false
    else (entries[0].Some? && IsCppExtension(Extension(entries[0].value.path))) || AnyCpp(entries[1..])
  }

  /** The second recompile of the current revision: when DSP code or a
      dependency file is present, or else when the runtime binary is
      missing. */
  predicate NeedsRecompile(p: Probe) {
    p.rustSource || HasCppFiles(p.folderExists, p.listing) || p.dependenciesToml || !p.runtimeBinary
  }

  /** The program-file extensions dispatched: both (Rust first) with
      neither flag, only `rs` with `--rust` (also when `--cpp` is given
      too), only `cpp` with `--cpp` alone. */
  function BackendExtensions(rust: bool, cpp: bool): (r: seq<String>)
    ensures !rust && !cpp ==> r == ["rs", "cpp"]
    ensures rust ==> r == ["rs"]
    ensures cpp && !rust ==> r == ["cpp"]
  {
    if !rust && !cpp then ["rs", "cpp"]
    else if rust then ["rs"]
    else ["cpp"]
  }

  /** The program files dispatched: `get_program_files` for each backend
      extension in turn, concatenated. Each call reads the folder; both
      reads are given the same listing. */
  function ProgramsFor(extensions: seq<String>, listing: Option<seq<Option<DirEntry>>>): (r: seq<String>)
    ensures forall p :: p in r ==> Extension(p).Some? && Extension(p).value in extensions && Contains(p, ProgramMarker)
  {
    if extensions == [] then []
    else GetProgramFiles(listing, extensions[0]) + ProgramsFor(extensions[1..], listing)
  }

  /** With neither flag the Rust files come first, then the C++ files. */
  lemma ProgramsForBoth(listing: Option<seq<Option<DirEntry>>>)
    ensures ProgramsFor(BackendExtensions(false, false), listing)
            == GetProgramFiles(listing, "rs") + GetProgramFiles(listing, "cpp")
  {
    assert BackendExtensions(false, false)[1..] == ["cpp"];
    assert ProgramsFor(["cpp"], listing) == GetProgramFiles(listing, "cpp") + ProgramsFor([], listing);
  }

  /** The `--code` stage: the copy (unless both flags are given), then a
      recompile. The flag says whether the run goes on. */
  function CodeStage(rev: Revision, f: Flags, o: Outcomes): (r: (seq<Step>, bool))
    ensures r.1 <==> f.code.None? || ((CopyModeFor(f.rust, f.cpp).None? || o.copyOk) && rev == Current && o.recompileOk)
    ensures !r.1 ==> r.0 != []
    ensures forall s :: s in r.0 ==> !s.Process?
  {
    match f.code
    case None => ([], true)
    case Some(folder) =>
      var copy := match CopyModeFor(f.rust, f.cpp)
        case None => []
        case Some(m) => [CopyCode(folder, m)];
      if copy != [] && !o.copyOk then (copy, false)
      else (copy + [Recompile], rev == Current && o.recompileOk)
  }

  /** The `--audio` stage: replacing the audio files. */
  function AudioStage(f: Flags, o: Outcomes): (r: (seq<Step>, bool))
    ensures r.1 <==> f.audio.None? || o.replaceOk
    ensures !r.1 ==> r.0 != []
    ensures forall s :: s in r.0 ==> !s.Process?
  {
    match f.audio
    case None => ([], true)
    case Some(folder) => ([ReplaceAudio(folder)], o.replaceOk)
  }

  /** The second recompile, in the current revision only. */
  function ProbeStage(rev: Revision, p: Probe, o: Outcomes): (r: (seq<Step>, bool))
    ensures r.1 <==> !(rev == Current && NeedsRecompile(p) && !o.recompileOk)
    ensures !r.1 ==> r.0 != []
    ensures forall s :: s in r.0 ==> !s.Process?
  {
    if rev == Current && NeedsRecompile(p) then ([Recompile], o.recompileOk) else ([], true)
  }

  /** The steps a run takes, in order. */
  function Run(rev: Revision, f: Flags, o: Outcomes, p: Probe): (r: seq<Step>)
    ensures f.newCommand ==> r == [CreateFolders(f.newDir.GetOr("."))]
    ensures r != []
    ensures r[|r| - 1].Process? <==>
              && !f.newCommand
              && (f.code.None? || ((CopyModeFor(f.rust, f.cpp).None? || o.copyOk) && rev == Current && o.recompileOk))
              && (f.audio.None? || o.replaceOk)
              && !(rev == Current && NeedsRecompile(p) && !o.recompileOk)
    ensures r[|r| - 1].Process? ==> r[|r| - 1] == Process(BackendExtensions(f.rust, f.cpp))
    ensures forall i :: 0 <= i < |r| - 1 ==> !r[i].Process?
  {
    if f.newCommand then [CreateFolders(f.newDir.GetOr("."))]
    else
      var (a, goA) := CodeStage(rev, f, o);
      if !goA then a
      else
        var (b, goB) := AudioStage(f, o);
        if !goB then a + b
        else
          var (c, goC) := ProbeStage(rev, p, o);
          if !goC then a + b + c
          else a + b + c + [Process(BackendExtensions(f.rust, f.cpp))]
  }

  /** A copy error ends the run before any recompile: the copy is the
      only step. */
  lemma CopyErrorStopsBeforeRecompile(rev: Revision, f: Flags, o: Outcomes, p: Probe)
    requires !f.newCommand && f.code.Some? && CopyModeFor(f.rust, f.cpp).Some? && !o.copyOk
    ensures Run(rev, f, o, p) == [CopyCode(f.code.value, CopyModeFor(f.rust, f.cpp).value)]
    ensures Recompile !in Run(rev, f, o, p)
  {}

  /** With `--code`, a recompile follows the copy whenever the copy does
      not fail, also when both flags skip the copy. */
  lemma CodeFolderRecompiles(rev: Revision, f: Flags, o: Outcomes, p: Probe)
    requires !f.newCommand && f.code.Some? && (CopyModeFor(f.rust, f.cpp).None? || o.copyOk)
    ensures Recompile in Run(rev, f, o, p)
    ensures f.rust && f.cpp ==> Run(rev, f, o, p)[0] == Recompile
  {
    var r := Run(rev, f, o, p);
    var (a, _) := CodeStage(rev, f, o);
    assert Recompile in a;
    assert a <= r;
  }

  /** A failure replacing the audio files is the last step: no recompile
      or processing follows it. */
  lemma ReplaceErrorEndsRun(rev: Revision, f: Flags, o: Outcomes, p: Probe, i: nat)
    requires !o.replaceOk
    requires i < |Run(rev, f, o, p)| && Run(rev, f, o, p)[i].ReplaceAudio?
    ensures i == |Run(rev, f, o, p)| - 1
  {
    var (a, goA) := CodeStage(rev, f, o);
    assert forall k :: 0 <= k < |a| ==> !a[k].ReplaceAudio?;
  }

  /** Without `--code`, the current revision recompiles exactly when DSP
      code or dependencies are present or the runtime binary is missing,
      provided the audio stage does not fail. */
  lemma AutoRecompileIff(f: Flags, o: Outcomes, p: Probe)
    requires !f.newCommand && f.code.None? && (f.audio.None? || o.replaceOk)
    ensures Recompile in Run(Current, f, o, p) <==> NeedsRecompile(p)
  {
    var r := Run(Current, f, o, p);
    var (b, _) := AudioStage(f, o);
    assert Recompile !in b;
    if NeedsRecompile(p) {
      assert r[|b|] == Recompile;
    }
  }

  /** The earlier revision never recompiles without `--code`, and its
      recompile is always the last step of a run. */
  lemma EarlierRecompileEndsRun(f: Flags, o: Outcomes, p: Probe, i: nat)
    requires i < |Run(Earlier, f, o, p)| && Run(Earlier, f, o, p)[i] == Recompile
    ensures f.code.Some?
    ensures i == |Run(Earlier, f, o, p)| - 1
  {
    var (a, goA) := CodeStage(Earlier, f, o);
    assert !goA;
  }

  /** A run that reaches processing dispatches the program files of the
      selected backends: with neither flag, the Rust files and then the C++
      files of the processing folder. */
  lemma DispatchedPrograms(rev: Revision, f: Flags, o: Outcomes, p: Probe, listing: Option<seq<Option<DirEntry>>>)
    requires Run(rev, f, o, p)[|Run(rev, f, o, p)| - 1].Process?
    ensures var e := Run(rev, f, o, p)[|Run(rev, f, o, p)| - 1].extensions;
            && (!f.rust && !f.cpp ==> ProgramsFor(e, listing) == GetProgramFiles(listing, "rs") + GetProgramFiles(listing, "cpp"))
            && (f.rust ==> ProgramsFor(e, listing) == GetProgramFiles(listing, "rs"))
            && (f.cpp && !f.rust ==> ProgramsFor(e, listing) == GetProgramFiles(listing, "cpp"))
  {
    ProgramsForBoth(listing);
    var e := BackendExtensions(f.rust, f.cpp);
    if e != ["rs", "cpp"] {
      assert e[1..] == [];
    }
  }
}
