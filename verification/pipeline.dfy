/** `process_audio` from end to end, for one (audio file, program file)
    job: de-interleave the decoded frames, cut them into 2048-sample
    buffers, run the backend the program file's extension selects on each
    buffer, reassemble, re-interleave, and hand the frames and the derived
    format to the codec. */
module Pipeline {
  import opened Wrappers
  import opened Text
  import opened Paths
  import opened Buffering
  import opened FlatLayout
  import opened WavFrames

  /** The Rust entry point `rust_process(input, &mut output)`, seen from
      the caller: given a buffer and the zeroed output buffer, the output
      buffer it leaves behind. */
  type RustKernel<!T> = (Matrix<T>, Matrix<T>) -> Matrix<T>

  /** What the codec decoded: the format, the frame count, and the
      interleaved frame buffer of `frameCount * channelCount` samples. */
  datatype Decoded<T> = Decoded(format: WaveFmt, frameCount: nat, frames: seq<T>)

  predicate WellDecoded<T>(d: Decoded<T>) {
    FieldsFit(d.format) && |d.frames| == d.frameCount * d.format.channelCount
  }

  /** What is handed to the codec for writing. */
  datatype Encoded<T> = Encoded(format: WaveFmt, frames: seq<T>)

  datatype ProcessError =
    | CodecError(message: string)   // `read_wav` failed; returned as `Err`
    | Panic(reason: string)         // an index out of range panics, ending the program

  /** The backend a program file selects. */
  datatype Backend = RustBackend | CppBackend | NoBackend

  /** `file_extension == "rs"` / `"cpp"` in `process_audio`; any other
      extension, or none, runs no backend at all. */
  function BackendFor(programFile: string): (b: Backend)
    ensures b == RustBackend <==> Extension(programFile) == Some("rs")
    ensures b == CppBackend <==> Extension(programFile) == Some("cpp")
  {
    var ext := ExtensionOrEmpty(programFile);
    if ext == "rs" then RustBackend else if ext == "cpp" then CppBackend else NoBackend
  }

  /** One processed buffer: it starts as a zeroed buffer of the input's
      shape, and the chosen backend (if any) fills it from `buf`. */
  function RunBackend<T>(buf: Matrix<T>, channels: nat, w: nat, backend: Backend,
                         rust: RustKernel<T>, cpp: Callee<T>, zero: T): (out: Matrix<T>)
    requires channels > 0 && |buf| == channels && Rectangular(buf, w)
    ensures backend != RustBackend ==> |out| == channels && Rectangular(out, w)
  {
    var blank := Filled(channels, w, zero);
    match backend
    case RustBackend => rust(buf, blank)
    case CppBackend => CppWrapper(buf, blank, cpp, zero)
    case NoBackend => blank
  }

  /** Every buffer through the same backend. */
  function ProcessBuffers<T>(bufs: seq<Matrix<T>>, channels: nat, w: nat, backend: Backend,
                             rust: RustKernel<T>, cpp: Callee<T>, zero: T): (out: seq<Matrix<T>>)
    requires channels > 0
    requires forall b :: 0 <= b < |bufs| ==> |bufs[b]| == channels && Rectangular(bufs[b], w)
    ensures |out| == |bufs|
  {
    seq(|bufs|, b requires 0 <= b < |bufs| => RunBackend(bufs[b], channels, w, backend, rust, cpp, zero))
  }

  /** `process_audio` after `read_wav`: the codec's result in, the codec's
      input for `write_wav` out. */
  function ProcessAudio<T>(input: Result<Decoded<T>, string>, programFile: string,
                           rust: RustKernel<T>, cpp: Callee<T>, zero: T): (r: Result<Encoded<T>, ProcessError>)
    requires input.Success? ==> WellDecoded(input.value)
    ensures input.Failure? ==> r == Failure(CodecError(input.error))
    ensures input.Success? && input.value.format.channelCount == 0 ==> r.Failure? && r.error.Panic?
    ensures r.Success? ==> input.Success? && |r.value.frames| == |input.value.frames|
    ensures r.Success? ==> r.value.format == OutputFormat(input.value.format)
  {
    match input
    case Failure(msg) => Failure(CodecError(msg))
    case Success(d) =>
      var channels, total := d.format.channelCount, d.frameCount;
      var m := Deinterleave(d.frames, channels, total);
      if channels == 0 then Failure(Panic("index out of bounds: no first channel"))
      else
        var bufs := Chunk(m, BufferSize, zero);
        var processed := ProcessBuffers(bufs, channels, BufferSize, BackendFor(programFile), rust, cpp, zero);
        if !Readable(processed, channels, total, BufferSize) then
          Failure(Panic("index out of bounds: processed buffer too small"))
        else
          var out := Reassemble(processed, channels, total, BufferSize);
          InterleaveFramesLength(out, total);
          Success(Encoded(OutputFormat(d.format), Interleave(out)))
  }

  /** `f` applied to every sample. */
  function MapSamples<T>(f: T -> T, s: seq<T>): (r: seq<T>)
    ensures |r| == |s|
  {
    seq(|s|, k requires 0 <= k < |s| => f(s[k]))
  }

  /** `f` applied to every sample of every channel. */
  function MapMatrix<T>(f: T -> T, m: Matrix<T>): (r: Matrix<T>)
    ensures |r| == |m|
  {
    seq(|m|, c requires 0 <= c < |m| => MapSamples(f, m[c]))
  }

  /** The shipped `rust_process`: zip input and output channels, then
      input and output samples, and write `f` of each input sample. */
  function ZipKernel<T>(f: T -> T): RustKernel<T> {
    (input: Matrix<T>, output: Matrix<T>) =>
      seq(|output|, c requires 0 <= c < |output| =>
        seq(|output[c]|, s requires 0 <= s < |output[c]| =>
          if c < |input| && s < |input[c]| then f(input[c][s]) else output[c][s]))
  }

  /** A sample-wise Rust kernel and a slot-wise C++ kernel for the same
      `f` both turn each buffer into `f` of that buffer. */
  lemma BackendsMapBuffers<T>(bufs: seq<Matrix<T>>, channels: nat, w: nat, backend: Backend,
                              f: T -> T, zero: T)
    requires channels > 0 && w >= 1
    requires forall b :: 0 <= b < |bufs| ==> |bufs[b]| == channels && Rectangular(bufs[b], w)
    requires backend != NoBackend
    ensures ProcessBuffers(bufs, channels, w, backend, ZipKernel(f), SlotWise(f), zero)
         == seq(|bufs|, b requires 0 <= b < |bufs| => MapMatrix(f, bufs[b]))
  {
    var out := ProcessBuffers(bufs, channels, w, backend, ZipKernel(f), SlotWise(f), zero);
    var mapped := seq(|bufs|, b requires 0 <= b < |bufs| => MapMatrix(f, bufs[b]));
    forall b | 0 <= b < |bufs|
      ensures out[b] == mapped[b]
    {
      var blank := Filled(channels, w, zero);
      if backend == CppBackend {
        CppWrapperAppliesSlotWise(bufs[b], blank, f, zero);
      }
      forall c | 0 <= c < channels
        ensures out[b][c] == mapped[b][c]
      {}
    }
  }

  /** Reassembly commutes with a sample-wise map. */
  lemma ReassembleMapped<T>(bufs: seq<Matrix<T>>, channels: nat, total: nat, w: nat, f: T -> T)
    requires w >= 1 && Readable(bufs, channels, total, w)
    ensures Readable(seq(|bufs|, b requires 0 <= b < |bufs| => MapMatrix(f, bufs[b])), channels, total, w)
    ensures Reassemble(seq(|bufs|, b requires 0 <= b < |bufs| => MapMatrix(f, bufs[b])), channels, total, w)
         == MapMatrix(f, Reassemble(bufs, channels, total, w))
  {
    var mapped := seq(|bufs|, b requires 0 <= b < |bufs| => MapMatrix(f, bufs[b]));
    var lhs := Reassemble(mapped, channels, total, w);
    var rhs := MapMatrix(f, Reassemble(bufs, channels, total, w));
    forall c | 0 <= c < channels
      ensures lhs[c] == rhs[c]
    {}
  }

  /** De-interleaving commutes with a sample-wise map. */
  lemma DeinterleaveMapped<T>(frames: seq<T>, channels: nat, count: nat, f: T -> T)
    requires |frames| == count * channels
    ensures MapMatrix(f, Deinterleave(frames, channels, count)) == Deinterleave(MapSamples(f, frames), channels, count)
  {
    var lhs := MapMatrix(f, Deinterleave(frames, channels, count));
    var rhs := Deinterleave(MapSamples(f, frames), channels, count);
    forall c | 0 <= c < channels
      ensures lhs[c] == rhs[c]
    {
      forall i | 0 <= i < count
        ensures lhs[c][i] == rhs[c][i]
      {
        FrameSlotFits(i, c, count, channels);
      }
    }
  }

  /** Layout equivalence of the two calling conventions: with the shipped
      kernels' shape (`f` of every sample), the `.rs` path and the `.cpp`
      path both write exactly `f` of every input frame, in the input's
      frame order, under the derived format. */
  lemma {:induction false} ProcessAudioAppliesKernel<T>(d: Decoded<T>, programFile: string, f: T -> T, zero: T)
    requires WellDecoded(d) && d.format.channelCount > 0
    requires BackendFor(programFile) != NoBackend
    ensures ProcessAudio(Success(d), programFile, ZipKernel(f), SlotWise(f), zero)
         == Success(Encoded(OutputFormat(d.format), MapSamples(f, d.frames)))
  {
    var channels, total := d.format.channelCount, d.frameCount;
    var m := Deinterleave(d.frames, channels, total);
    var bufs := Chunk(m, BufferSize, zero);
    var backend := BackendFor(programFile);
    var processed := ProcessBuffers(bufs, channels, BufferSize, backend, ZipKernel(f), SlotWise(f), zero);
    BackendsMapBuffers(bufs, channels, BufferSize, backend, f, zero);
    ReassembleChunk(m, BufferSize, zero);
    ReassembleMapped(bufs, channels, total, BufferSize, f);
    assert Readable(processed, channels, total, BufferSize);
    var out := Reassemble(processed, channels, total, BufferSize);
    assert out == MapMatrix(f, m);
    DeinterleaveMapped(d.frames, channels, total, f);
    InterleaveDeinterleave(MapSamples(f, d.frames), channels, total);
  }

  /** Identity kernels make the whole job a round trip: the frames written
      are the frames read. */
  lemma ProcessAudioIdentity<T>(d: Decoded<T>, programFile: string, zero: T)
    requires WellDecoded(d) && d.format.channelCount > 0
    requires BackendFor(programFile) != NoBackend
    ensures ProcessAudio(Success(d), programFile, ZipKernel(x => x), SlotWise(x => x), zero)
         == Success(Encoded(OutputFormat(d.format), d.frames))
  {
    ProcessAudioAppliesKernel(d, programFile, x => x, zero);
    assert MapSamples(x => x, d.frames) == d.frames;
  }

  /** Reassembling untouched zeroed buffers gives silence. */
  lemma ReassembleBlank<T>(n: nat, channels: nat, total: nat, w: nat, zero: T)
    requires w >= 1 && n == NumBuffers(total, w)
    ensures Readable(FilledBuffers(n, channels, w, zero), channels, total, w)
    ensures Reassemble(FilledBuffers(n, channels, w, zero), channels, total, w) == Filled(channels, total, zero)
  {
    var bufs := FilledBuffers(n, channels, w, zero);
    ReadableByShape(bufs, channels, total, w);
    var out := Reassemble(bufs, channels, total, w);
    forall c | 0 <= c < channels
      ensures out[c] == Filled(channels, total, zero)[c]
    {}
  }

  /** An all-zero frame buffer de-interleaves to silence. */
  lemma DeinterleaveSilence<T>(channels: nat, count: nat, zero: T)
    ensures Deinterleave(seq(count * channels, _ => zero), channels, count) == Filled(channels, count, zero)
  {
    var m := Deinterleave(seq(count * channels, _ => zero), channels, count);
    forall c | 0 <= c < channels
      ensures m[c] == Filled(channels, count, zero)[c]
    {
      forall i | 0 <= i < count
        ensures m[c][i] == zero
      {
        FrameSlotFits(i, c, count, channels);
      }
    }
  }

  /** A program file with any extension other than `rs` or `cpp` runs no
      backend: the job still succeeds and writes as many frames as it
      read, every one of them the zero sample. */
  lemma UnknownExtensionWritesSilence<T>(d: Decoded<T>, programFile: string,
                                         rust: RustKernel<T>, cpp: Callee<T>, zero: T)
    requires WellDecoded(d) && d.format.channelCount > 0
    requires BackendFor(programFile) == NoBackend
    ensures ProcessAudio(Success(d), programFile, rust, cpp, zero)
         == Success(Encoded(OutputFormat(d.format), seq(|d.frames|, _ => zero)))
  {
    var channels, total := d.format.channelCount, d.frameCount;
    var m := Deinterleave(d.frames, channels, total);
    var bufs := Chunk(m, BufferSize, zero);
    var processed := ProcessBuffers(bufs, channels, BufferSize, NoBackend, rust, cpp, zero);
    assert processed == FilledBuffers(|bufs|, channels, BufferSize, zero);
    ReassembleBlank(|bufs|, channels, total, BufferSize, zero);
    DeinterleaveSilence(channels, total, zero);
    InterleaveDeinterleave(seq(|d.frames|, _ => zero), channels, total);
  }
}
