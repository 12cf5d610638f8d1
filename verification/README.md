# playdsp in Dafny

playdsp is a command-line tool. It takes the user's DSP code, either a Rust
`rust_process_audio.rs` or a C++ `cpp_process_audio.cpp`, and builds it into a
runtime. It then runs every audio file of a source folder through every
program file. Each result is written as a WAV file whose name carries the
audio file's stem, a timestamp and the program's extension.

This project models the pure logic inside that tool. It proves the properties
the code promises. The model has four parts:

- **Buffering and sample layout.**
  - `read_wav` de-interleaves WAV frames into a channel-major matrix.
  - `process_audio` cuts the matrix into 2048-sample buffers, padded with
    zero. It runs the backend that the program file's extension selects, then
    reassembles the buffers and drops the padding.
  - The C++ wrapper and `cpp_process` flatten each buffer channel-major
    around the foreign call.
  - `write_wav` re-interleaves the frames and derives the output header with
    `u16`/`u32` arithmetic that wraps. This is the behaviour of a release
    build, which the model assumes. A debug build panics on that overflow
    instead (src/signal_processing/process_multiple_audio_files.rs:122-123).
  - The window size is a parameter `w >= 1`. The tool's 2048 is one instance.
  - Samples are an opaque type: the code only copies them.
- **Runtime project synthesis** (`run_recompile.rs`).
  - The `use`-line crate scanner.
  - The `[dependencies]` section reader for `dependencies.toml`.
  - The merge: explicit entries win, and detected crates get `"*"`.
  - Insertion of the dependency lines into the Cargo template.
  - The marker splice that puts the user's function into the runtime's
    `main.rs`.
- **File selection.**
  - The name filter and signature check of `process_and_copy_files`.
  - The extension and `process_audio` filter of `get_program_files`.
  - The directory-or-file branch and `.wav` filter of
    `get_audio_files_from_folder`.
  - Directory listings are given as sequences of entries, in listing order.
- **Dispatch.**
  - The cross product of audio files and program files, with output names.
  - Which failures end the whole run: an audio path without a file stem, or
    a job that panics. A job that returns an error only prints it.
  - The entry point's decision table: copy mode, when to recompile, where a
    failure ends the run, and which program files are dispatched.

`dsp/src/main.rs` is an earlier revision of the entry point. It contains its
own copies of `process_audio`, the C++ wrapper, `read_wav`/`write_wav`,
`process_and_copy_files`/`validate_file`, `get_program_files`,
`get_audio_files_from_folder` and `process_multiple_audio_files`. Their logic
is the same as in the current files, so each is modelled once, and the table
cites both places. The two entry points differ in their recompile behaviour.
`MainFlow.Revision` models both.

Files:

- `wrappers.dfy`: `Option` and `Result`.
- `text.dfy`: the `str` operations.
- `paths.dfy`: `file_name`, `extension` and `file_stem`.
- `buffering.dfy`: chunk and reassemble.
- `flat_layout.dfy`: flatten and unflatten around the foreign call.
- `wav_frames.dfy`: de-interleave, interleave and the header.
- `pipeline.dfy`: `process_audio` end to end.
- `dependencies.dfy`: the crate scanner, the section reader and the merge.
- `synthesis.dfy`: the Cargo manifest and the `main.rs` splice.
- `listings.dfy`: generic listing walks.
- `code_files.dfy`, `program_files.dfy` and `audio_files.dfy`: file selection.
- `dispatch.dfy`: the job set.
- `main_flow.dfy`: the entry point.

Outside effects are parameters:

- the codec's result;
- the Rust kernel and the C++ callee;
- directory listings, file contents, and the outcome of reads and copies;
- whether a path exists;
- the timestamp of each audio file;
- the outcome of the external steps: copy, recompile and replace.

A Rust panic that a reachable input can trigger is a `Failure` value. An
example is `samples_f64[0]` on a file with no channels. In the dispatch
loops a job's panic is the `Panicked` outcome of the runner parameter, and
it ends the run. Indexing that the
code always gets right is a precondition instead.

## Model

| member | source | states |
|---|---|---|
| Buffering.NumBuffersIsCeiling | src/signal_processing/process_multiple_audio_files.rs:44-47 | the buffer count is zero iff there are no samples; otherwise it is the ceiling: `(n-1)*w < total <= n*w`; the earlier revision has the same code at dsp/src/main.rs:501-504 |
| Buffering.FiveThousandSamples | src/signal_processing/process_multiple_audio_files.rs:44-57 | a rectangular input of 5000 samples per channel is cut into three 2048-sample buffers; slot `s` of the last buffer holds sample `4096 + s` for `s < 904`, and the 0.0 fill in its other 1144 slots |
| Buffering.Chunk | src/signal_processing/process_multiple_audio_files.rs:49-57 | chunking gives `ceil(total/w)` buffers, each of `channels` rows of exactly `w` slots |
| Buffering.ChunkPlacesSamples | src/signal_processing/process_multiple_audio_files.rs:51-56 | sample `i` of channel `ch` lands in buffer `i / w`, channel `ch`, slot `i % w`; the earlier revision has the same code at dsp/src/main.rs:506-514 |
| Buffering.ChunkPadsWithZero | src/signal_processing/process_multiple_audio_files.rs:49 | every slot at or past the last sample keeps the 0.0 fill |
| Buffering.ChunkSamples | src/signal_processing/process_multiple_audio_files.rs:49-57 | the outer loop over sample indices, starting from the zero-filled buffer set, produces exactly the chunked buffers |
| Buffering.ChunkIndex | src/signal_processing/process_multiple_audio_files.rs:52-56 | one pass of the inner loop over channels writes sample `i` of every channel to buffer `i / w`, slot `i % w`, and touches nothing else |
| Buffering.ChunkIsReadable | src/signal_processing/process_multiple_audio_files.rs:71-81 | chunked buffers are large enough for every read the reassembly loop makes |
| Buffering.ReadableByShape | src/signal_processing/process_multiple_audio_files.rs:59-81 | any `ceil(total/w)` buffers of `channels` rows of `w` slots can be reassembled without going out of bounds |
| Buffering.Reassemble | src/signal_processing/process_multiple_audio_files.rs:71-81 | reassembly yields `channels` rows of exactly `total` samples, whatever the padding held |
| Buffering.ReassembleSamples | src/signal_processing/process_multiple_audio_files.rs:71-81 | the three nested loops, skipping indices at or past `total`, produce exactly the reassembled matrix |
| Buffering.ReassembleChunk | src/signal_processing/process_multiple_audio_files.rs:49-81 | reassembling the chunked buffers returns the first `total` samples of every channel, so a rectangular input comes back unchanged |
| Buffering.ReassembleChunkAtBufferSize | src/signal_processing/process_multiple_audio_files.rs:44-81 | the same round trip at the tool's own 2048-sample window; the earlier revision has the same code at dsp/src/main.rs:501-538 |
| FlatLayout.FlattenLength | src/signal_processing/process_multiple_audio_files.rs:158-159 | flattening `C` channels of `n` samples gives `C*n` values, the size of the scratch output |
| FlatLayout.FlattenIsChannelMajor | src/signal_processing/process_multiple_audio_files.rs:158 | `flat[c*n + s]` is `input[c][s]`, the layout `cpp_process` also uses (audio/process/src/lib.rs:12) |
| FlatLayout.UnflattenIsChannelMajor | src/signal_processing/process_multiple_audio_files.rs:170-174 | channel `c` of the output is the run `flat[c*n .. c*n + n]` |
| FlatLayout.UnflattenFlatten | src/signal_processing/process_multiple_audio_files.rs:154-174 | unflattening a flattened rectangular matrix gives it back; the earlier revision has the same code at dsp/src/main.rs:466-487 |
| FlatLayout.FlattenUnflatten | src/signal_processing/process_multiple_audio_files.rs:158-173 | flattening an unflattened buffer of `C*n` values gives it back |
| FlatLayout.CalleeOutput | src/signal_processing/process_multiple_audio_files.rs:159-167 | the callee's output buffer has exactly `C*n` slots, whatever the callee returns |
| FlatLayout.WrapperRunsFit | src/signal_processing/process_multiple_audio_files.rs:170-173 | every `start..end` range the copy-back takes lies inside the `C*n` buffer |
| FlatLayout.CppWrapper | src/signal_processing/process_multiple_audio_files.rs:154-174 | the wrapper's output has the output buffer's channel count, each with `n` samples |
| FlatLayout.CppWrapperIsChannelMajor | src/signal_processing/process_multiple_audio_files.rs:170-174 | output sample `(c, s)` is slot `c*n + s` of what the callee wrote |
| FlatLayout.SlotWiseOutput | src/signal_processing/process_multiple_audio_files.rs:161-167 | a callee that maps each slot with `f` writes `f(input[c][s])` at slot `c*n + s` |
| FlatLayout.CppWrapperAppliesSlotWise | src/signal_processing/process_multiple_audio_files.rs:154-174 | with a slot-wise callee the wrapper returns `f` of every input sample, in place |
| FlatLayout.CppWrapperIdentity | src/signal_processing/process_multiple_audio_files.rs:154-174 | a copying callee makes the wrapper the identity on rectangular input |
| FlatLayout.CppProcess | audio/process/src/lib.rs:8-24 | `cpp_process` keeps every output slot at or past `n`, and every channel's length |
| FlatLayout.CppProcessIsChannelMajor | audio/process/src/lib.rs:19-23 | output sample `(c, s)`, for `s < n`, is slot `c*n + s` of the callee's buffer |
| FlatLayout.CppProcessAppliesSlotWise | audio/process/src/lib.rs:8-24 | a callee that uses the same layout and maps each slot with `f` makes `cpp_process` write `f` of every input sample; with a copying callee it is the identity |
| WavFrames.Deinterleave | src/signal_processing/process_multiple_audio_files.rs:104-111 | the frame buffer becomes `channels` rows of `count` samples |
| WavFrames.InterleaveFramesLength | src/signal_processing/process_multiple_audio_files.rs:128-130 | interleaving `count` frames of `C` channels gives `count*C` values |
| WavFrames.InterleaveFramesIndex | src/signal_processing/process_multiple_audio_files.rs:128-130 | sample `j` of row `c` is written at `j*C + c` |
| WavFrames.InterleaveDeinterleave | src/signal_processing/process_multiple_audio_files.rs:104-130 | re-interleaving the de-interleaved frame buffer gives the frame buffer back; the earlier revision has the same code at dsp/src/main.rs:561-587 |
| WavFrames.DeinterleaveInterleave | src/signal_processing/process_multiple_audio_files.rs:104-130 | de-interleaving the interleaved rows of a rectangular matrix gives the rows back |
| WavFrames.OutputFormat | src/signal_processing/process_multiple_audio_files.rs:117-125 | the output header keeps the channel count and sample rate, is 32-bit float, and its fields fit their Rust widths |
| WavFrames.OutputFormatWithoutOverflow | src/signal_processing/process_multiple_audio_files.rs:122-123 | without overflow, block alignment is `4*channels` and the byte rate is block alignment times sample rate |
| WavFrames.BlockAlignmentWrapsAt2048 | src/signal_processing/process_multiple_audio_files.rs:123 | at 2048 channels the `u16` product wraps, and the block alignment written is 0 |
| Pipeline.BackendFor | src/signal_processing/process_multiple_audio_files.rs:33-36 | Rust backend iff the extension is exactly `rs`; C++ backend iff it is exactly `cpp`; otherwise none |
| Pipeline.RunBackend | src/signal_processing/process_multiple_audio_files.rs:59-69 | without a Rust kernel, each processed buffer keeps the zeroed buffer's shape |
| Pipeline.ProcessBuffers | src/signal_processing/process_multiple_audio_files.rs:59-69 | one processed buffer per input buffer |
| Pipeline.ProcessAudio | src/signal_processing/process_multiple_audio_files.rs:32-92 | a decode error is returned as the error; a file with no channels panics; on success the frame count is kept and the header is the derived one; the earlier revision has the same code at dsp/src/main.rs:489-549 |
| Pipeline.BackendsMapBuffers | src/signal_processing/process_multiple_audio_files.rs:59-69 | a sample-wise Rust kernel and a slot-wise C++ callee for the same `f` both turn each buffer into `f` of it |
| Pipeline.ReassembleMapped | src/signal_processing/process_multiple_audio_files.rs:71-81 | reassembly commutes with mapping `f` over the samples |
| Pipeline.DeinterleaveMapped | src/signal_processing/process_multiple_audio_files.rs:104-111 | de-interleaving commutes with mapping `f` over the samples |
| Pipeline.ProcessAudioAppliesKernel | src/signal_processing/process_multiple_audio_files.rs:32-92 | for `rs` and `cpp` programs whose kernel applies `f` per sample, the frames written are exactly `f` of the frames read, in order |
| Pipeline.ProcessAudioIdentity | src/signal_processing/process_multiple_audio_files.rs:32-92 | with pass-through kernels the frames written are the frames read |
| Pipeline.ReassembleBlank | src/signal_processing/process_multiple_audio_files.rs:59-81 | untouched zeroed buffers reassemble to silence |
| Pipeline.DeinterleaveSilence | src/signal_processing/process_multiple_audio_files.rs:104-111 | an all-zero frame buffer de-interleaves to silence |
| Pipeline.UnknownExtensionWritesSilence | src/signal_processing/process_multiple_audio_files.rs:59-81 | with any other extension the job still succeeds, and writes as many frames as it read, all zero; the earlier revision has the same code at dsp/src/main.rs:516-538 |
| Text.Find | src/program_recompile/run_recompile.rs:83-84 | `str::find` returns the first occurrence, or none when there is no occurrence |
| Text.Lines | src/program_recompile/run_recompile.rs:157 | no line contains a newline; the text is empty iff there are no lines |
| Text.LinesCons | src/program_recompile/run_recompile.rs:157 | a line without a line break or trailing carriage return, followed by a line break, comes out of `lines` as the first line, unchanged |
| Text.TrimStart | src/program_recompile/run_recompile.rs:158 | only leading whitespace is dropped, and all of it |
| Text.TrimEnd | src/program_recompile/run_recompile.rs:158 | only trailing whitespace is dropped, and all of it |
| Text.TrimEndMatches | src/program_recompile/run_recompile.rs:169 | only trailing copies of the character are dropped, and all of them |
| Text.ContainsIffOccurs | src/file_processing/code_processing/process_and_copy_files.rs:67 | `contains` holds iff the pattern occurs at some index |
| Dependencies.LineCrate | src/program_recompile/run_recompile.rs:157-172 | only a trimmed `use ` line that is not `use crate::`, `use self::` or `use super::` contributes a crate; the crate is non-empty, not `std`, `core` or `alloc`, and does not end in `;` |
| Dependencies.LineCrateOfPath | src/program_recompile/run_recompile.rs:157-172 | for every first segment `name` without `:`, surrounding whitespace or a trailing `;`, other than `crate`, `self` and `super`, the line `use name::rest` yields exactly `name`, or nothing when `name` is `std`, `core` or `alloc` |
| Dependencies.LineCrateOfUse | src/program_recompile/run_recompile.rs:157-172 | for every such `name`, the line `use name;` yields exactly `name`, or nothing when it is a standard crate |
| Dependencies.LineCrateOfOwnPath | src/program_recompile/run_recompile.rs:161 | `use crate::…`, `use self::…` and `use super::…` lines yield nothing, whatever follows |
| Dependencies.LineCrateOfStd | src/program_recompile/run_recompile.rs:155-172 | `use std::io;` yields nothing |
| Dependencies.LineCrateOfCratePath | src/program_recompile/run_recompile.rs:161 | `use crate::x;` yields nothing |
| Dependencies.LineCrateOfExternal | src/program_recompile/run_recompile.rs:157-172 | `use rand::Rng;` yields `rand` |
| Dependencies.DedupSpec | src/program_recompile/run_recompile.rs:173-175 | the detected list has no duplicates and holds exactly the contributed crates |
| Dependencies.DedupFirstOccurrenceOrder | src/program_recompile/run_recompile.rs:173-175 | crates appear in the order of their first occurrence |
| Dependencies.DetectCratesSpec | src/program_recompile/run_recompile.rs:153-182 | `detect_crate_dependencies` lists each crate that some line contributes, exactly once |
| Dependencies.ReadSectionInDeps | src/program_recompile/run_recompile.rs:109-119 | the reader is inside the section iff the last header seen is exactly `[dependencies]` |
| Dependencies.ReadSectionKeys | src/program_recompile/run_recompile.rs:108-127 | a name is read iff some `name = value` line lies inside a `[dependencies]` section |
| Dependencies.ReadSectionValues | src/program_recompile/run_recompile.rs:120-126 | a name's value is the trimmed value of its last entry in the section: a later duplicate overwrites an earlier one |
| Dependencies.ReadSectionExample | src/program_recompile/run_recompile.rs:108-127 | on a small file only the section's entries count, and the later `rand` wins |
| Dependencies.Merge | src/program_recompile/run_recompile.rs:137-145 | explicit entries keep their values; the result holds exactly the explicit and detected names; every added name has the value `"*"` |
| Dependencies.ParseUserDependencies | src/program_recompile/run_recompile.rs:101-150 | every explicit entry keeps its value, and with neither file the map is empty |
| Dependencies.ParseUserDependenciesSpec | src/program_recompile/run_recompile.rs:101-150 | the map's keys are exactly the explicit and detected names, and every name without an explicit entry maps to `"*"` |
| Synthesis.InsertionPoint | src/program_recompile/run_recompile.rs:191-195 | the insertion point, when there is one, is just past the first newline after the first `[dependencies]`; there is none iff no header is found or no newline follows it |
| Synthesis.GenerateCargoToml | src/program_recompile/run_recompile.rs:185-210 | without dependencies, or without an insertion point, the template is unchanged; otherwise the result is the template's prefix, then the entry lines, then the rest of the template |
| Synthesis.DepBlockLines | src/program_recompile/run_recompile.rs:198-201 | the inserted block's lines are the `name = value` texts, one per entry, in iteration order |
| Synthesis.DepBlockHoldsEntries | src/program_recompile/run_recompile.rs:198-201 | every map entry appears as exactly one line of the block, whatever the iteration order |
| Synthesis.SpliceSpan | src/program_recompile/run_recompile.rs:80-85 | the span starts at the first start marker and ends just after the `\n}` of the first end marker after it |
| Synthesis.InjectUserCode | src/program_recompile/run_recompile.rs:73-98 | without a user file `main.rs` is unchanged; a read error is returned; without both markers `main.rs` is unchanged; otherwise the span becomes the loaded-code comment and the trimmed user code |
| Synthesis.InjectKeepsSurroundings | src/program_recompile/run_recompile.rs:83-89 | the text before the span is still a prefix, the text from the blank line before `// C++ FFI` on is still a suffix, and the comment and trimmed code sit at the span's start |
| Synthesis.SpliceSpanIsDefaultFunction | src/program_recompile/run_recompile.rs:80-85 | the replaced span starts with the start marker and ends with the closing `\n}` |
| Listings.KeepOrStop | src/file_processing/code_processing/process_and_copy_files.rs:29-44 | every entry the walk keeps passes the name test |
| Listings.KeepOrStopFails | src/file_processing/code_processing/process_and_copy_files.rs:31-34 | the `?` on the listing's entries fails iff some entry is unreadable, and then with the error of the first unreadable one |
| Listings.KeepOrStopKeeps | src/file_processing/code_processing/process_and_copy_files.rs:33-43 | with every entry readable, each entry passing the name test is pushed, and what is pushed is a subsequence of the listing |
| Listings.KeepOrStopSpec | src/file_processing/code_processing/process_and_copy_files.rs:29-44 | the whole walk: it fails iff some entry is unreadable, with the first such error; otherwise it keeps exactly the matching entries, as a subsequence of the listing |
| Listings.KeepReadable | src/file_processing/code_processing/get_program_files.rs:6-19 | unreadable entries are skipped; exactly the readable matching entries are kept, in listing order |
| Listings.KeepOrAbort | src/file_processing/audio_processing/get_audio_files_from_folder.rs:7-18 | an aborted walk reports either the non-UTF-8 failure or the error of some listed entry |
| Listings.KeepOrAbortFails | src/file_processing/audio_processing/get_audio_files_from_folder.rs:9-13 | the walk aborts iff some entry is unreadable (`entry.unwrap()`) or is a `.wav` path that is not UTF-8 (`to_str().unwrap()`) |
| Listings.KeepOrAbortKeeps | src/file_processing/audio_processing/get_audio_files_from_folder.rs:7-18 | when nothing aborts, exactly the paths of the `.wav` entries are collected, in listing order, and each comes from such an entry |
| Listings.KeepOrAbortSpec | src/file_processing/audio_processing/get_audio_files_from_folder.rs:7-18 | the whole walk: it aborts iff some entry makes it stop; otherwise it keeps exactly the matching paths, in listing order |
| CodeFiles.SelectionTable | src/file_processing/code_processing/process_and_copy_files.rs:14-16 | `rust` selects only `rust_process_audio.rs`, `cpp` only `cpp_process_audio.cpp`, `both` either, and any other mode nothing; the earlier revision has the same code at dsp/src/main.rs:357-359 |
| CodeFiles.GetFilesFromFolder | src/file_processing/code_processing/process_and_copy_files.rs:29-44 | an unreadable folder is the error; otherwise the walk fails iff some entry is unreadable, with the error of the first unreadable one; when it succeeds, every file returned is a UTF-8 path named like a program file, every listed entry so named is returned, and the files keep listing order |
| CodeFiles.FilesAreListed | src/file_processing/code_processing/process_and_copy_files.rs:29-44 | every file returned is a readable entry of the listing |
| CodeFiles.NameOf | src/file_processing/code_processing/process_and_copy_files.rs:36 | a non-empty name is the UTF-8 entry's file name |
| CodeFiles.ValidateFile | src/file_processing/code_processing/process_and_copy_files.rs:46-76 | a C++ or Rust program file passes iff its contents contain its signature verbatim; any other name fails without being read; a read error is the error; the earlier revision has the same code at dsp/src/main.rs:389-419 |
| CodeFiles.Destination | src/file_processing/code_processing/process_and_copy_files.rs:79-80 | the copy target lies in the processing folder and has the same file name |
| CodeFiles.CopyLoop | src/file_processing/code_processing/process_and_copy_files.rs:10-24 | the loop stops iff some file's step is an error; without an error every copied file is copied and every rejected file reported; nothing else is copied or reported |
| CodeFiles.CopyLoopStopsAtFirstError | src/file_processing/code_processing/process_and_copy_files.rs:10-24 | a stopped loop stops with the error of the first file whose step fails, and everything copied or reported comes from files before it |
| CodeFiles.RunCopiesListedEntries | src/file_processing/code_processing/process_and_copy_files.rs:10-22 | every path copied is a listed entry the mode selects whose contents carry its signature; every path reported is a selected entry without it |
| CodeFiles.RunCoversSelectedEntries | src/file_processing/code_processing/process_and_copy_files.rs:8-22 | a run that meets no error copies every listed selected entry with its signature and reports every one without it |
| CodeFiles.ProcessAndCopyFiles | src/file_processing/code_processing/process_and_copy_files.rs:7-27 | an unreadable folder, or an unreadable entry, is the error before anything is copied, the entry error being the first one listed; a path is copied only if it is a listed, selected entry carrying its signature, and reported only if it is a selected entry without it; when no error stops the run, every such entry is copied or reported |
| CodeFiles.CopyStepSpec | src/file_processing/code_processing/process_and_copy_files.rs:14-22 | a file is copied iff it is selected, carries its signature and copies without error; reported iff selected without the signature; an error stops the run iff the file is selected and unreadable, or valid and fails to copy |
| CodeFiles.NothingStops | src/file_processing/code_processing/process_and_copy_files.rs:14-22 | when every file can be read and every copy succeeds, no file stops the copy loop |
| CodeFiles.CopiedIffSelectedAndValid | src/file_processing/code_processing/process_and_copy_files.rs:7-27 | when every entry and file can be read, every copy succeeds and the listed paths are distinct, nothing stops the run, and a listed entry's path is copied iff it is selected and carries its signature, and reported iff it is selected without it; the earlier revision has the same code at dsp/src/main.rs:350-370 |
| ProgramFiles.GetProgramFiles | src/file_processing/code_processing/get_program_files.rs:3-22 | an unreadable folder gives no files; every file returned has exactly the requested extension and contains `process_audio`; every readable UTF-8 entry that does is returned; the result is a subsequence of the listing; the earlier revision has the same code at dsp/src/main.rs:431-450 |
| AudioFiles.GetAudioFiles | src/file_processing/audio_processing/get_audio_files_from_folder.rs:4-22 | a path that is not a directory gives exactly itself; in a directory the program aborts iff the listing, an entry or a `.wav` path's UTF-8 fails; otherwise exactly the entries with extension `wav` (case-sensitive), in listing order; the earlier revision has the same code at dsp/src/main.rs:297-315 |
| Paths.Extension | src/file_processing/code_processing/get_program_files.rs:10 | an extension never contains `.` or `/` |
| Paths.StemAndExtensionSplitName | src/signal_processing/process_multiple_audio_files.rs:11-17 | the file name is the stem, followed by a dot and the extension when there is one; a path has a stem iff it has a file name |
| Paths.FileNameOfJoin | src/file_processing/code_processing/process_and_copy_files.rs:80 | the file name of `dir/name` is `name` |
| Dispatch.JobsFor | src/signal_processing/process_multiple_audio_files.rs:13-28 | one event per program, in order; a job iff the program file exists, and a missing-program report otherwise |
| Dispatch.FirstPanicking | src/signal_processing/process_multiple_audio_files.rs:13-28 | for one audio file, the program found is one whose job exists and panics; none is found iff no job of that audio file panics |
| Dispatch.AbortAt | src/signal_processing/process_multiple_audio_files.rs:9-28 | audio file `i` gives an abort reason iff it has no file stem or one of its jobs panics, and the reason names that path or that job |
| Dispatch.FirstAbortReason | src/signal_processing/process_multiple_audio_files.rs:9-28 | the first abort reason over all audio files is absent iff no audio file ends the run, and then every audio path has a stem |
| Dispatch.ProcessMultipleAudioFiles | src/signal_processing/process_multiple_audio_files.rs:8-31 | the run ends early iff some audio path has no file stem or some job panics, and the reason names such a path or such a job; otherwise each audio file gets its program events, built with its own stem and timestamp |
| Dispatch.JobSet | src/signal_processing/process_multiple_audio_files.rs:9-28 | in a run that ends normally, each (audio, existing program) pair is a job writing to `RESULT_FOLDER/{stem}_processed_{t}_{ext}.wav`, with `t` that audio file's timestamp; its outcome is its own run's, a success or a printed error, never a panic; a missing program gives only a report; the earlier revision has the same code at dsp/src/main.rs:598-618 |
| Dispatch.ErrorsDoNotStopTheRun | src/signal_processing/process_multiple_audio_files.rs:21-25 | when every audio path has a stem and no job panics, the run ends normally, whatever errors the jobs return |
| Dispatch.OutputFileNameInjective | src/signal_processing/process_multiple_audio_files.rs:20 | for one stem and timestamp, two suffixes give the same file name iff they are equal |
| Dispatch.OutputsCollideIffSameExtension | src/signal_processing/process_multiple_audio_files.rs:14-20 | two jobs of one audio file write the same path iff their programs have the same extension |
| Dispatch.OutputIsWavInResultFolder | src/signal_processing/process_multiple_audio_files.rs:20 | the output's file name is `{stem}_processed_{t}_{ext}.wav` and its extension is `wav` |
| MainFlow.CopyModeFor | src/main.rs:76-92 | the Rust flag alone gives `rust`, the C++ flag alone `cpp`, neither gives `both`; with both flags nothing is copied |
| MainFlow.HasCppFiles | src/main.rs:110-120 | true iff the processing folder exists, can be read, and has a readable entry with extension `cpp`, `h` or `hpp` |
| MainFlow.BackendExtensions | src/main.rs:144-151 | with neither flag `rs` then `cpp`; with the Rust flag (also with both) only `rs`; with the C++ flag alone only `cpp` |
| MainFlow.ProgramsFor | src/main.rs:144-166 | every dispatched program has one of the selected extensions and contains `process_audio` |
| MainFlow.ProgramsForBoth | src/main.rs:153-159 | with neither flag the Rust files come first, then the C++ files |
| MainFlow.CodeStage | src/main.rs:76-94 | the `--code` stage lets the run go on iff there is no folder, or the copy (if any) succeeded and, in the current entry point, the recompile succeeded; a stopped stage has taken a step; it never processes |
| MainFlow.AudioStage | src/main.rs:96-101 | the `--audio` stage lets the run go on iff there is no folder or the replacement succeeded; it never processes |
| MainFlow.ProbeStage | src/main.rs:103-129 | the second recompile stops the run iff it is needed and fails; it never processes |
| MainFlow.Run | src/main.rs:66-166 | `new` only creates folders; a run reaches processing iff no copy, recompile or replace step fails; processing comes last and dispatches the selected backends; in the earlier entry point (dsp/src/main.rs:66-99) a `--code` run always ends in its recompile, and there is no second recompile |
| MainFlow.CopyErrorStopsBeforeRecompile | src/main.rs:76-94 | a copy error ends the run; the copy is its only step, and no recompile happens |
| MainFlow.CodeFolderRecompiles | src/main.rs:76-94 | with `--code` a recompile follows unless the copy failed; with both flags the recompile is the first step |
| MainFlow.ReplaceErrorEndsRun | src/main.rs:96-101 | a failure replacing the audio files is the run's last step |
| MainFlow.AutoRecompileIff | src/main.rs:106-129 | without `--code`, the current entry point recompiles iff Rust code, C++ code or `dependencies.toml` is present, or else the runtime binary is missing |
| MainFlow.EarlierRecompileEndsRun | dsp/src/main.rs:129-204 | in the earlier entry point a recompile happens only with `--code` and is always the last step |
| MainFlow.DispatchedPrograms | src/main.rs:144-166 | the programs dispatched are the Rust files then the C++ files with neither flag, only the Rust files with the Rust flag, and only the C++ files with the C++ flag alone |

## Left out

- The WAV codec (`bwavfile`): it is a foreign library. Decoding is a `Result` input, and encoding is the `Encoded` value handed to it.
- The `f32`/`f64` casts and the gain kernels: floating point is not modelled. Samples are an opaque type; kernels are function parameters.
- The `extern "C"` calls: the callee is a function from the flattened input to the values it writes.
- `rayon` parallelism: the job set is a sequential cross product, and no claim is made about the order in which jobs run.
- `Local::now()`: each audio file's timestamp is a parameter.
- Subprocesses: `cargo build`, `sudo cp`, the terminal relaunch and `exit`. Each appears only as the success or failure of its step.
- Filesystem side effects: `create_folders_and_copy_files`, `replace_audio_files`, `copy_processing_files`, and the `fs::write` of `main.rs` and `Cargo.toml` in `setup_runtime_project`. Their inputs are given and their effects are not modelled.
- Argument parsing (`clap`): the parsed flags are a `Flags` value.
- The runtime's Cargo template and `main.rs` text are parameters. Their literal contents are not part of this model.
- Paths.FileName: Rust's normalisation of `.` components is not modelled, neither inside a path (`a/./b`) nor at its end: Rust gives `file_name("foo/.") == Some("foo")`, while the model gives none. Only the last component and trailing slashes are.
- MainFlow.HasCppFiles: the program also converts the extension to UTF-8. A listed entry's extension is taken as readable here, even for a path that is not UTF-8.
- MainFlow.Run: one outcome stands for both recompiles of a run. The program's two recompiles could in principle differ.
- MainFlow.ProgramsFor: `get_program_files` reads the folder once per extension. Both reads are given the same listing.
- Dispatch.ProcessMultipleAudioFiles: an audio path without a file stem, or a panicking job, ends the program, possibly after other jobs have already run in parallel. The model reports the abort with no events, and names the first reason in input order, whichever one the threads would actually meet first.
- Dispatch.JobSet: holds only for a run that ends normally. When some job panics, which other jobs had already run is up to `rayon`'s scheduling, and the model makes no claim about them.
- Pipeline.RunBackend: a Rust kernel may return a buffer of any shape. Its shape is stated only for the C++ and no-backend paths, and `ProcessAudio` turns a buffer too small to read into a panic.
- Synthesis.GenerateCargoToml: `HashMap` iteration order is unspecified, so the order of the dependency lines is a parameter. Only its being an enumeration of the keys is assumed.
