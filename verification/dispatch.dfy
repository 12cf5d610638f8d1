/** `process_multiple_audio_files`: every audio file is paired with every
    program file; a pair whose program file exists becomes a processing
    job writing to a name derived from the audio file's stem, a timestamp
    taken once per audio file, and the program's extension; a pair whose
    program file is missing is only reported. The two loops run in
    parallel in the program; here they are a sequential cross product, and
    no claim is made about the order in which jobs run. */
module Dispatch {
  import opened Wrappers
  import opened Text
  import opened Paths

  /** `RESULT_FOLDER`. */
  const ResultFolder: String := "../audio/result"

  /** The file name of an output: `{stem}_processed_{time}_{suffix}.wav`. */
  function OutputFileName(stem: String, time: String, suffix: String): String {
    stem + "_processed_" + time + "_" + suffix + ".wav"
  }

  /** The output path of a job. */
  function OutputPath(stem: String, time: String, suffix: String): String {
    ResultFolder + "/" + OutputFileName(stem, time, suffix)
  }

  /** How one call of `process_audio` ends: it finishes, it returns an
      error (printed, after which the loops go on), or it panics (an index
      out of range, an `unwrap` in `write_wav`), which ends the program. */
  datatype Outcome = Done | Failed(message: String) | Panicked

  /** `process_audio` as the loops see it: the outcome for (audio path,
      output path, program path). */
  type Runner = (String, String, String) -> Outcome

  /** What happens to one (audio file, program file) pair. */
  datatype Event =
    | Job(audio: String, program: String, output: String, outcome: Outcome)
    | ProgramMissing(audio: String, program: String)

  /** The inner loop for one audio file: `time` is the timestamp taken for
      it, `present` says which program paths exist, and `run` gives the
      outcome of each job. */
  function JobsFor(audio: String, stem: String, time: String, programs: seq<String>,
                   present: String -> bool, run: Runner): (r: seq<Event>)
    ensures |r| == |programs|
    ensures forall j :: 0 <= j < |programs| ==> r[j].audio == audio && r[j].program == programs[j]
    ensures forall j :: 0 <= j < |programs| ==> (r[j].Job? <==> present(programs[j]))
  {
    seq(|programs|, j requires 0 <= j < |programs| =>
      var program := programs[j];
      if present(program) then
        var output := OutputPath(stem, time, ExtensionOrEmpty(program));
        Job(audio, program, output, run(audio, output, program))
      else ProgramMissing(audio, program))
  }

  /** The job of audio file `audio` (with stem `stem` and timestamp `time`)
      and an existing program file `program` panics. */
  predicate JobPanics(audio: String, stem: String, time: String, program: String,
                      present: String -> bool, run: Runner) {
    present(program) && run(audio, OutputPath(stem, time, ExtensionOrEmpty(program)), program).Panicked?
  }

  /** Audio file `audio` ends the program: it has no file stem
      (`file_stem().unwrap()`), or one of its jobs panics. */
  predicate AbortsRun(audio: String, time: String, programs: seq<String>,
                      present: String -> bool, run: Runner) {
    match FileStem(audio)
    case None => true
    case Some(stem) => exists j :: 0 <= j < |programs| && JobPanics(audio, stem, time, programs[j], present, run)
  }

  /** Why the program ends early. */
  datatype Abort = NoStem(audio: String) | JobPanicked(audio: String, program: String)

  /** The first program from index `j` on whose job (for audio file
      `audio` with stem `stem`) panics, if any. */
  function FirstPanicking(audio: String, stem: String, time: String, programs: seq<String>,
                          present: String -> bool, run: Runner, j: nat): (r: Option<String>)
    requires j <= |programs|
    ensures r.None? <==> forall l :: j <= l < |programs| ==> !JobPanics(audio, stem, time, programs[l], present, run)
    ensures r.Some? ==> r.value in programs[j..] && JobPanics(audio, stem, time, r.value, present, run)
    decreases |programs| - j
  {
    if j == |programs| then None
    else if JobPanics(audio, stem, time, programs[j], present, run) then Some(programs[j])
    else FirstPanicking(audio, stem, time, programs, present, run, j + 1)
  }

  /** `e` is a reason the run can end: it names an audio file without a
      stem, or a job (of an audio file with a stem) that panics. */
  predicate ValidAbort(audioFiles: seq<String>, times: seq<String>, programs: seq<String>,
                       present: String -> bool, run: Runner, e: Abort)
    requires |times| == |audioFiles|
  {
    match e
    case NoStem(audio) => audio in audioFiles && FileStem(audio).None?
    case JobPanicked(audio, program) =>
      exists i :: 0 <= i < |audioFiles| && audio == audioFiles[i] && program in programs
        && FileStem(audioFiles[i]).Some? && JobPanics(audioFiles[i], FileStem(audioFiles[i]).value, times[i], program, present, run)
  }

  /** The first `reason(i)` that is present, for `k <= i < n`. */
  function FirstSome<E>(n: nat, reason: nat -> Option<E>, k: nat): (r: Option<E>)
    requires k <= n
    ensures r.None? <==> forall i :: k <= i < n ==> reason(i).None?
    ensures r.Some? ==> exists i :: k <= i < n && reason(i) == r
    decreases n - k
  {
    if k == n then None
    else if reason(k).Some? then reason(k)
    else FirstSome(n, reason, k + 1)
  }

  /** Why audio file `i` ends the run, if it does. */
  function AbortAt(audioFiles: seq<String>, times: seq<String>, programs: seq<String>,
                   present: String -> bool, run: Runner, i: nat): (r: Option<Abort>)
    requires |times| == |audioFiles|
    ensures i < |audioFiles| ==> (r.None? <==> !AbortsRun(audioFiles[i], times[i], programs, present, run))
    ensures r.Some? ==> ValidAbort(audioFiles, times, programs, present, run, r.value)
  {
    if i >= |audioFiles| then None
    else
      match FileStem(audioFiles[i])
      case None => Some(NoStem(audioFiles[i]))
      case Some(stem) =>
        match FirstPanicking(audioFiles[i], stem, times[i], programs, present, run, 0)
        case Some(program) =>
          assert program in programs;
          Some(JobPanicked(audioFiles[i], program))
        case None => None
  }

  /** The reasons of all audio files, indexed by position. */
  function AbortReasons(audioFiles: seq<String>, times: seq<String>, programs: seq<String>,
                        present: String -> bool, run: Runner): nat -> Option<Abort>
    requires |times| == |audioFiles|
  {
    (i: nat) => AbortAt(audioFiles, times, programs, present, run, i)
  }

  /** The first reason found is absent iff no audio file ends the run, and
      is a valid reason when present. */
  lemma FirstAbortReason(audioFiles: seq<String>, times: seq<String>, programs: seq<String>,
                         present: String -> bool, run: Runner)
    requires |times| == |audioFiles|
    ensures var r := FirstSome(|audioFiles|, AbortReasons(audioFiles, times, programs, present, run), 0);
            && (r.None? <==> forall i :: 0 <= i < |audioFiles| ==> !AbortsRun(audioFiles[i], times[i], programs, present, run))
            && (r.Some? ==> ValidAbort(audioFiles, times, programs, present, run, r.value))
            && (r.None? ==> forall i :: 0 <= i < |audioFiles| ==> FileStem(audioFiles[i]).Some?)
  {
    var f := AbortReasons(audioFiles, times, programs, present, run);
    var r := FirstSome(|audioFiles|, f, 0);
    forall i | 0 <= i < |audioFiles|
      ensures f(i).None? <==> !AbortsRun(audioFiles[i], times[i], programs, present, run)
      ensures f(i).None? ==> FileStem(audioFiles[i]).Some?
    {
      assert f(i) == AbortAt(audioFiles, times, programs, present, run, i);
    }
    if r.Some? {
      var i :| 0 <= i < |audioFiles| && f(i) == r;
      assert AbortAt(audioFiles, times, programs, present, run, i) == r;
    }
  }

  /** `process_multiple_audio_files`, with `times[i]` the timestamp taken
      for audio file `i`: the events of each audio file, in input order.
      An audio path without a file stem, or a job that panics, ends the
      whole run; a job that returns an error does not. */
  function ProcessMultipleAudioFiles(audioFiles: seq<String>, programs: seq<String>, times: seq<String>,
                                     present: String -> bool, run: Runner): (r: Result<seq<seq<Event>>, Abort>)
    requires |times| == |audioFiles|
    ensures r.Failure? <==> exists i :: 0 <= i < |audioFiles| && AbortsRun(audioFiles[i], times[i], programs, present, run)
    ensures r.Failure? ==> ValidAbort(audioFiles, times, programs, present, run, r.error)
    ensures r.Success? ==> |r.value| == |audioFiles| && forall i :: 0 <= i < |audioFiles| ==> FileStem(audioFiles[i]).Some?
    ensures r.Success? ==> forall i :: 0 <= i < |audioFiles| ==>
      r.value[i] == JobsFor(audioFiles[i], FileStem(audioFiles[i]).value, times[i], programs, present, run)
  {
    FirstAbortReason(audioFiles, times, programs, present, run);
    match FirstSome(|audioFiles|, AbortReasons(audioFiles, times, programs, present, run), 0)
    case Some(e) => Failure(e)
    case None =>
      Success(seq(|audioFiles|, i requires 0 <= i < |audioFiles| =>
        JobsFor(audioFiles[i], FileStem(audioFiles[i]).value, times[i], programs, present, run)))
  }

  /** The job set: every (audio file, existing program file) pair yields a
      job writing to `RESULT_FOLDER/{stem}_processed_{t}_{ext}.wav` with
      that audio file's timestamp, and its outcome is its own run's, which
      is a success or a printed error; an error in one job does not keep
      any other job from running. Every pair with a missing program yields
      only a report. */
  lemma JobSet(audioFiles: seq<String>, programs: seq<String>, times: seq<String>,
               present: String -> bool, run: Runner, i: nat, j: nat)
    requires |times| == |audioFiles| && i < |audioFiles| && j < |programs|
    requires ProcessMultipleAudioFiles(audioFiles, programs, times, present, run).Success?
    ensures var e := ProcessMultipleAudioFiles(audioFiles, programs, times, present, run).value[i][j];
            && (present(programs[j]) ==>
                  && e == Job(audioFiles[i], programs[j],
                              OutputPath(FileStem(audioFiles[i]).value, times[i], ExtensionOrEmpty(programs[j])),
                              run(audioFiles[i], e.output, programs[j]))
                  && !e.outcome.Panicked?)
            && (!present(programs[j]) ==> e == ProgramMissing(audioFiles[i], programs[j]))
  {
    var stem := FileStem(audioFiles[i]).value;
    if present(programs[j]) {
      assert !AbortsRun(audioFiles[i], times[i], programs, present, run);
      assert !JobPanics(audioFiles[i], stem, times[i], programs[j], present, run);
    }
  }

  /** Errors returned by jobs never end the run: when every audio path has
      a stem and no job panics, every job runs, whatever the others
      returned. */
  lemma ErrorsDoNotStopTheRun(audioFiles: seq<String>, programs: seq<String>, times: seq<String>,
                              present: String -> bool, run: Runner)
    requires |times| == |audioFiles|
    requires forall i :: 0 <= i < |audioFiles| ==> FileStem(audioFiles[i]).Some?
    requires forall i, j :: 0 <= i < |audioFiles| && 0 <= j < |programs| ==>
      !JobPanics(audioFiles[i], FileStem(audioFiles[i]).value, times[i], programs[j], present, run)
    ensures ProcessMultipleAudioFiles(audioFiles, programs, times, present, run).Success?
  {
  }

  /** The parts of an output file name can be read back from it: for the
      same stem and time, two suffixes give the same name iff they are
      equal. */
  lemma OutputFileNameInjective(stem: String, time: String, s1: String, s2: String)
    ensures OutputFileName(stem, time, s1) == OutputFileName(stem, time, s2) <==> s1 == s2
  {
    var pre := stem + "_processed_" + time + "_";
    if OutputFileName(stem, time, s1) == OutputFileName(stem, time, s2) {
      var n1, n2 := OutputFileName(stem, time, s1), OutputFileName(stem, time, s2);
      assert n1 == pre + s1 + ".wav" && n2 == pre + s2 + ".wav";
      assert |s1| == |s2|;
      assert s1 == n1[|pre|..|pre| + |s1|];
      assert s2 == n2[|pre|..|pre| + |s2|];
    }
  }

  /** Two jobs of the same audio file write the same output path iff their
      program files have the same extension: with two `.rs` programs the
      second job to finish overwrites the first one's output. */
  lemma OutputsCollideIffSameExtension(audioFiles: seq<String>, programs: seq<String>, times: seq<String>,
                                       present: String -> bool, run: Runner,
                                       i: nat, j: nat, k: nat)
    requires |times| == |audioFiles| && i < |audioFiles| && j < |programs| && k < |programs|
    requires ProcessMultipleAudioFiles(audioFiles, programs, times, present, run).Success?
    requires present(programs[j]) && present(programs[k])
    ensures var es := ProcessMultipleAudioFiles(audioFiles, programs, times, present, run).value[i];
            es[j].output == es[k].output <==> ExtensionOrEmpty(programs[j]) == ExtensionOrEmpty(programs[k])
  {
    var stem := FileStem(audioFiles[i]).value;
    OutputFileNameInjective(stem, times[i], ExtensionOrEmpty(programs[j]), ExtensionOrEmpty(programs[k]));
    var n1 := OutputFileName(stem, times[i], ExtensionOrEmpty(programs[j]));
    var n2 := OutputFileName(stem, times[i], ExtensionOrEmpty(programs[k]));
    if OutputPath(stem, times[i], ExtensionOrEmpty(programs[j])) == OutputPath(stem, times[i], ExtensionOrEmpty(programs[k])) {
      assert n1 == OutputPath(stem, times[i], ExtensionOrEmpty(programs[j]))[|ResultFolder| + 1..];
      assert n2 == OutputPath(stem, times[i], ExtensionOrEmpty(programs[k]))[|ResultFolder| + 1..];
    }
  }

  /** The last `.` of `pre.ext`, for an extension without dots, is the
      one before the extension. */
  lemma {:induction false} LastDotBeforeExtension(pre: String, ext: String)
    requires '.' !in ext
    ensures LastIndexOf(pre + "." + ext, '.') == Some(|pre|)
  {
    if ext != [] {
      var ext' := ext[..|ext| - 1];
      assert (pre + "." + ext)[..|pre + "." + ext| - 1] == pre + "." + ext';
      LastDotBeforeExtension(pre, ext');
    }
  }

  /** An output file name is a single path component ending in `.wav`. */
  lemma OutputFileNameParts(stem: String, time: String, suffix: String)
    requires '/' !in stem && '/' !in time && '/' !in suffix
    ensures var name := OutputFileName(stem, time, suffix);
            && IsEntryName(name)
            && name == (stem + "_processed_" + time + "_" + suffix) + "." + "wav"
  {}

  /** The output is a `.wav` file in the result folder: its file name is
      `{stem}_processed_{time}_{suffix}.wav` (for a timestamp without `/`),
      and its extension is `wav`. */
  lemma OutputIsWavInResultFolder(stem: String, time: String, suffix: String)
    requires '/' !in stem && '/' !in time && '/' !in suffix
    ensures FileName(OutputPath(stem, time, suffix)) == Some(OutputFileName(stem, time, suffix))
    ensures Extension(OutputPath(stem, time, suffix)) == Some("wav")
  {
    var name := OutputFileName(stem, time, suffix);
    var pre := stem + "_processed_" + time + "_" + suffix;
    OutputFileNameParts(stem, time, suffix);
    FileNameOfJoin(ResultFolder, name);
    LastDotBeforeExtension(pre, "wav");
    assert name[|pre| + 1..] == "wav";
  }
}
