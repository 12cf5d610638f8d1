/** What `read_wav` and `write_wav` do around the WAV codec: the codec
    hands over (and takes back) one interleaved frame buffer, in which
    sample `i` of channel `j` sits at `i * channels + j`; the tool turns it
    into a channel-major matrix and back, and derives the output format
    from the input format. The codec itself is not part of this model. */
module WavFrames {
  import opened Buffering

  const U16Modulus: nat := 0x1_0000
  const U32Modulus: nat := 0x1_0000_0000

  /** `BITS_PER_SAMPLE_FOR_F32`. */
  const BitsPerSampleF32: nat := 32

  /** `WAVE_TAG_FLOAT`: the IEEE floating-point format code. */
  const WaveTagFloat: nat := 0x0003

  /** The format chunk fields the tool reads or writes. */
  datatype WaveFmt = WaveFmt(
    tag: nat,
    channelCount: nat,
    sampleRate: nat,
    bytesPerSecond: nat,
    blockAlignment: nat,
    bitsPerSample: nat)

  /** Every field holds a value of its Rust width (`u16` or `u32`). */
  predicate FieldsFit(f: WaveFmt) {
    && f.tag < U16Modulus
    && f.channelCount < U16Modulus
    && f.sampleRate < U32Modulus
    && f.bytesPerSecond < U32Modulus
    && f.blockAlignment < U16Modulus
    && f.bitsPerSample < U16Modulus
  }

  lemma FrameSlotFits(i: nat, j: nat, count: nat, channels: nat)
    requires i < count && j < channels
    ensures i * channels + j < count * channels
  {
    MulMonotone(i + 1, count, channels);
  }

  /** The `read_wav` loop: sample `i` of channel `j` is frame-buffer slot
      `i * channels + j`, for `count` frames. */
  function Deinterleave<T>(frames: seq<T>, channels: nat, count: nat): (m: Matrix<T>)
    requires |frames| == count * channels
    ensures |m| == channels && Rectangular(m, count)
  {
    seq(channels, j requires 0 <= j < channels =>
      seq(count, i requires 0 <= i < count =>
        FrameSlotFits(i, j, count, channels);
        frames[i * channels + j]))
  }

  /** One frame: sample `j` of every row, in row order. */
  function Frame<T>(rows: Matrix<T>, j: nat): (f: seq<T>)
    requires forall c :: 0 <= c < |rows| ==> j < |rows[c]|
    ensures |f| == |rows|
  {
    seq(|rows|, c requires 0 <= c < |rows| => rows[c][j])
  }

  /** The first `count` frames, one after the other. */
  function InterleaveFrames<T>(rows: Matrix<T>, count: nat): seq<T>
    requires forall c :: 0 <= c < |rows| ==> count <= |rows[c]|
  {
    if count == 0 then [] else InterleaveFrames(rows, count - 1) + Frame(rows, count - 1)
  }

  /** The `values_vec` of `write_wav`: for each index `j` of the first row,
      sample `j` of every row (`flat_map` over `0..rows[0].len()`). */
  function Interleave<T>(rows: Matrix<T>): seq<T>
    requires FirstIsShortest(rows)
  {
    InterleaveFrames(rows, |rows[0]|)
  }

  lemma {:induction false} InterleaveFramesLength<T>(rows: Matrix<T>, count: nat)
    requires forall c :: 0 <= c < |rows| ==> count <= |rows[c]|
    ensures |InterleaveFrames(rows, count)| == count * |rows|
  {
    if count > 0 {
      InterleaveFramesLength(rows, count - 1);
      MulSucc(count - 1, |rows|);
    }
  }

  /** Interleaving puts sample `j` of row `c` at `j * channels + c`. */
  lemma {:induction false} InterleaveFramesIndex<T>(rows: Matrix<T>, count: nat, j: nat, c: nat)
    requires forall r :: 0 <= r < |rows| ==> count <= |rows[r]|
    requires j < count && c < |rows|
    ensures j * |rows| + c < |InterleaveFrames(rows, count)|
    ensures InterleaveFrames(rows, count)[j * |rows| + c] == rows[c][j]
  {
    InterleaveFramesLength(rows, count);
    InterleaveFramesLength(rows, count - 1);
    if j < count - 1 {
      InterleaveFramesIndex(rows, count - 1, j, c);
    }
  }

  /** Round trip on read-then-write: interleaving the de-interleaved
      frame buffer gives the frame buffer back. */
  lemma InterleaveDeinterleave<T>(frames: seq<T>, channels: nat, count: nat)
    requires |frames| == count * channels && channels > 0
    ensures FirstIsShortest(Deinterleave(frames, channels, count))
    ensures Interleave(Deinterleave(frames, channels, count)) == frames
  {
    var m := Deinterleave(frames, channels, count);
    var v := Interleave(m);
    InterleaveFramesLength(m, count);
    forall k | 0 <= k < |frames|
      ensures v[k] == frames[k]
    {
      var i, j := k / channels, k % channels;
      assert k == i * channels + j;
      assert i < count by {
        if i >= count {
          MulMonotone(count, i, channels);
        }
      }
      InterleaveFramesIndex(m, count, i, j);
    }
  }

  /** Round trip on write-then-read: de-interleaving the interleaved rows
      of a rectangular matrix gives the rows back. */
  lemma DeinterleaveInterleave<T>(rows: Matrix<T>)
    requires |rows| > 0 && Rectangular(rows, |rows[0]|)
    ensures |Interleave(rows)| == |rows[0]| * |rows|
    ensures Deinterleave(Interleave(rows), |rows|, |rows[0]|) == rows
  {
    var count := |rows[0]|;
    InterleaveFramesLength(rows, count);
    var m := Deinterleave(Interleave(rows), |rows|, count);
    forall c | 0 <= c < |rows|
      ensures m[c] == rows[c]
    {
      forall j | 0 <= j < count
        ensures m[c][j] == rows[c][j]
      {
        InterleaveFramesIndex(rows, count, j, c);
      }
    }
  }

  /** The format `write_wav` hands the codec: the input's channel count
      and sample rate, 32-bit float samples, and the derived block
      alignment and byte rate computed in `u16` and `u32` arithmetic that
      wraps on overflow. */
  function OutputFormat(h: WaveFmt): (f: WaveFmt)
    requires FieldsFit(h)
    ensures FieldsFit(f)
    ensures f.tag == WaveTagFloat && f.bitsPerSample == BitsPerSampleF32
    ensures f.channelCount == h.channelCount && f.sampleRate == h.sampleRate
  {
    var align := (h.channelCount * BitsPerSampleF32) % U16Modulus / 8;
    WaveFmt(WaveTagFloat, h.channelCount, h.sampleRate,
            (align * h.sampleRate) % U32Modulus, align, BitsPerSampleF32)
  }

  /** Without overflow the derived fields mean what they should: four
      bytes per sample per channel in a block, one block per frame per
      second. */
  lemma OutputFormatWithoutOverflow(h: WaveFmt)
    requires FieldsFit(h)
    requires h.channelCount < 2048 && 4 * h.channelCount * h.sampleRate < U32Modulus
    ensures OutputFormat(h).blockAlignment == 4 * h.channelCount
    ensures OutputFormat(h).bytesPerSecond == OutputFormat(h).blockAlignment * h.sampleRate
  {
    var c := h.channelCount;
    assert c * BitsPerSampleF32 == 8 * (4 * c) < U16Modulus;
    assert (c * BitsPerSampleF32) % U16Modulus / 8 == 4 * c;
    assert 4 * c * h.sampleRate < U32Modulus;
  }

  /** With 2048 channels the `u16` product wraps and the block alignment
      written is zero. */
  lemma BlockAlignmentWrapsAt2048(h: WaveFmt)
    requires FieldsFit(h) && h.channelCount == 2048
    ensures OutputFormat(h).blockAlignment == 0
  {}
}
