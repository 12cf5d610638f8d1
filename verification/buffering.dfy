/** The buffering stage of `process_audio`: a channel-major sample matrix
    is cut into fixed-size windows ("buffers") of `w` samples per channel,
    the last one padded with the zero sample, and the processed windows
    are stitched back together with the padding dropped. The window size
    is a parameter; the tool uses `BufferSize`. Samples are an opaque type
    `T`: this stage only copies them. */
module Buffering {

  /** Channel-major samples: `m[ch][i]` is sample `i` of channel `ch`. */
  type Matrix<T> = seq<seq<T>>

  /** `BUFFER_SIZE` of `process_audio`. */
  const BufferSize: nat := 2048

  /** Every channel of `m` holds exactly `n` samples. */
  predicate Rectangular<T>(m: Matrix<T>, n: nat) {
    forall ch :: 0 <= ch < |m| ==> |m[ch]| == n
  }

  /** `rows` channels of `cols` copies of `v`: `vec![vec![v; cols]; rows]`. */
  function Filled<T>(rows: nat, cols: nat, v: T): (m: Matrix<T>)
    ensures |m| == rows && Rectangular(m, cols)
    ensures forall ch, i :: 0 <= ch < rows && 0 <= i < cols ==> m[ch][i] == v
  {
    seq(rows, _ => seq(cols, _ => v))
  }

  /** `n` buffers of `rows` channels of `cols` copies of `v`. */
  function FilledBuffers<T>(n: nat, rows: nat, cols: nat, v: T): (bufs: seq<Matrix<T>>)
    ensures |bufs| == n && forall b :: 0 <= b < n ==> bufs[b] == Filled(rows, cols, v)
  {
    seq(n, _ => Filled(rows, cols, v))
  }

  /** There is a first channel and no channel is shorter than it: the
      chunking loop reads every channel at every index of the first one. */
  predicate FirstIsShortest<T>(m: Matrix<T>) {
    |m| > 0 && forall ch :: 0 <= ch < |m| ==> |m[0]| <= |m[ch]|
  }

  /** `(total + BUFFER_SIZE - 1) / BUFFER_SIZE`. */
  function NumBuffers(total: nat, w: nat): nat
    requires w >= 1
  {
    (total + w - 1) / w
  }

  lemma MulMonotone(a: nat, b: nat, w: nat)
    requires a <= b
    ensures a * w <= b * w
  {}

  lemma MulSucc(a: nat, n: nat)
    ensures (a + 1) * n == a * n + n
  {}

  /** Euclidean division of `b * w + s` by `w` when `s < w`. */
  lemma DivModOfSplit(b: nat, s: nat, w: nat)
    requires 1 <= w && s < w
    ensures (b * w + s) / w == b && (b * w + s) % w == s
  {
    var i := b * w + s;
    var q, r := i / w, i % w;
    assert i == q * w + r;
    if q < b {
      MulMonotone(q + 1, b, w);
      assert false;
    } else if q > b {
      MulMonotone(b + 1, q, w);
      assert false;
    }
  }

  /** The number of buffers is the ceiling of `total / w`: enough to hold
      every sample, and no buffer that is pure padding. */
  lemma {:induction false} NumBuffersIsCeiling(total: nat, w: nat)
    requires w >= 1
    ensures total == 0 <==> NumBuffers(total, w) == 0
    ensures total > 0 ==> (NumBuffers(total, w) - 1) * w < total <= NumBuffers(total, w) * w
  {
    var n := NumBuffers(total, w);
    var r := (total + w - 1) % w;
    assert total + w - 1 == n * w + r;
    if total == 0 {
      DivModOfSplit(0, w - 1, w);
    } else {
      assert n >= 1 by {
        if n == 0 { assert false; }
      }
      assert (n - 1) * w == n * w - w;
    }
  }

  /** The buffers `process_audio` fills before processing: buffer `b`,
      channel `ch`, slot `s` holds sample `b * w + s` of channel `ch`, or
      the zero sample past the end of the first channel. */
  function Chunk<T>(m: Matrix<T>, w: nat, zero: T): (bufs: seq<Matrix<T>>)
    requires w >= 1 && FirstIsShortest(m)
    ensures |bufs| == NumBuffers(|m[0]|, w)
    ensures forall b :: 0 <= b < |bufs| ==> |bufs[b]| == |m| && Rectangular(bufs[b], w)
  {
    var total := |m[0]|;
    seq(NumBuffers(total, w), b requires 0 <= b =>
      seq(|m|, ch requires 0 <= ch < |m| =>
        seq(w, s requires 0 <= s < w => if b * w + s < total then m[ch][b * w + s] else zero)))
  }

  /** Sample `i` of channel `ch` lands in buffer `i / w`, slot `i % w`. */
  lemma ChunkPlacesSamples<T>(m: Matrix<T>, w: nat, zero: T, ch: nat, i: nat)
    requires w >= 1 && FirstIsShortest(m)
    requires ch < |m| && i < |m[0]|
    ensures i / w < |Chunk(m, w, zero)|
    ensures Chunk(m, w, zero)[i / w][ch][i % w] == m[ch][i]
  {
    var b, s := i / w, i % w;
    assert i == b * w + s;
    NumBuffersIsCeiling(|m[0]|, w);
    var n := NumBuffers(|m[0]|, w);
    if b >= n {
      MulMonotone(n, b, w);
      assert false;
    }
  }

  /** Every slot past the end of the input stays the zero sample. */
  lemma ChunkPadsWithZero<T>(m: Matrix<T>, w: nat, zero: T, b: nat, ch: nat, s: nat)
    requires w >= 1 && FirstIsShortest(m)
    requires b < |Chunk(m, w, zero)| && ch < |m| && s < w
    requires b * w + s >= |m[0]|
    ensures Chunk(m, w, zero)[b][ch][s] == zero
  {}

  /** Reassembly reads slot `i % w` of buffer `i / w` for every index
      `i < total` of every channel: those slots must exist. */
  predicate Readable<T>(bufs: seq<Matrix<T>>, channels: nat, total: nat, w: nat)
    requires w >= 1
  {
    forall i :: 0 <= i < total ==>
      i / w < |bufs| && channels <= |bufs[i / w]| &&
      forall ch :: 0 <= ch < channels ==> i % w < |bufs[i / w][ch]|
  }

  /** The output matrix of `process_audio`: `channels` channels of exactly
      `total` samples, sample `i` taken from buffer `i / w`, slot `i % w`;
      slots at or past `total` are never read. */
  function Reassemble<T>(bufs: seq<Matrix<T>>, channels: nat, total: nat, w: nat): (m: Matrix<T>)
    requires w >= 1 && Readable(bufs, channels, total, w)
    ensures |m| == channels && Rectangular(m, total)
  {
    seq(channels, ch requires 0 <= ch < channels =>
      seq(total, i requires 0 <= i < total => bufs[i / w][ch][i % w]))
  }

  /** Any `NumBuffers(total, w)` buffers of `channels` channels of `w`
      slots can be reassembled: whether reassembly can index them depends
      on their shape only. */
  lemma ReadableByShape<T>(bufs: seq<Matrix<T>>, channels: nat, total: nat, w: nat)
    requires w >= 1 && |bufs| == NumBuffers(total, w)
    requires forall b :: 0 <= b < |bufs| ==> |bufs[b]| == channels && Rectangular(bufs[b], w)
    ensures Readable(bufs, channels, total, w)
  {
    NumBuffersIsCeiling(total, w);
    forall i | 0 <= i < total
      ensures i / w < |bufs|
    {
      var b, s := i / w, i % w;
      assert i == b * w + s;
      if b >= |bufs| {
        MulMonotone(|bufs|, b, w);
      }
    }
  }

  /** Buffers of the shape `process_audio` allocates can always be
      reassembled. */
  lemma ChunkIsReadable<T>(m: Matrix<T>, w: nat, zero: T)
    requires w >= 1 && FirstIsShortest(m)
    ensures Readable(Chunk(m, w, zero), |m|, |m[0]|, w)
  {
    forall i | 0 <= i < |m[0]|
      ensures i / w < |Chunk(m, w, zero)|
    {
      ChunkPlacesSamples(m, w, zero, 0, i);
    }
  }

  /** Round trip: reassembling the unprocessed buffers gives back every
      channel cut to the length of the first one; on a rectangular matrix
      that is the input itself. */
  lemma {:induction false} ReassembleChunk<T>(m: Matrix<T>, w: nat, zero: T)
    requires w >= 1 && FirstIsShortest(m)
    ensures Readable(Chunk(m, w, zero), |m|, |m[0]|, w)
    ensures Reassemble(Chunk(m, w, zero), |m|, |m[0]|, w) == seq(|m|, ch requires 0 <= ch < |m| => m[ch][..|m[0]|])
    ensures Rectangular(m, |m[0]|) ==> Reassemble(Chunk(m, w, zero), |m|, |m[0]|, w) == m
  {
    ChunkIsReadable(m, w, zero);
    var r := Reassemble(Chunk(m, w, zero), |m|, |m[0]|, w);
    var cut := seq(|m|, ch requires 0 <= ch < |m| => m[ch][..|m[0]|]);
    forall ch | 0 <= ch < |m|
      ensures r[ch] == cut[ch]
    {
      forall i | 0 <= i < |m[0]|
        ensures r[ch][i] == m[ch][i]
      {
        ChunkPlacesSamples(m, w, zero, ch, i);
      }
    }
    assert r == cut;
    if Rectangular(m, |m[0]|) {
      forall ch | 0 <= ch < |m|
        ensures cut[ch] == m[ch]
      {
        assert m[ch][..|m[0]|] == m[ch];
      }
    }
  }

  /** The tool's own window: 2048 samples. */
  lemma ReassembleChunkAtBufferSize<T>(m: Matrix<T>, zero: T)
    requires |m| > 0 && Rectangular(m, |m[0]|)
    ensures |Chunk(m, BufferSize, zero)| == NumBuffers(|m[0]|, BufferSize)
    ensures Readable(Chunk(m, BufferSize, zero), |m|, |m[0]|, BufferSize)
    ensures Reassemble(Chunk(m, BufferSize, zero), |m|, |m[0]|, BufferSize) == m
  {
    ReassembleChunk(m, BufferSize, zero);
  }

  /** Five thousand samples per channel make three buffers of 2048: the
      last holds samples 4096 to 4999 in its first 904 slots and the zero
      sample in the remaining 1144. */
  lemma FiveThousandSamples<T>(m: Matrix<T>, zero: T, ch: nat, s: nat)
    requires |m| > 0 && Rectangular(m, 5000)
    requires ch < |m| && s < BufferSize
    ensures FirstIsShortest(m)
    ensures |Chunk(m, BufferSize, zero)| == 3
    ensures Chunk(m, BufferSize, zero)[2][ch][s] == if s < 904 then m[ch][4096 + s] else zero
  {
    assert NumBuffers(5000, BufferSize) == 3;
  }

  /** `bufs` with slot `s` of channel `c` of buffer `b` set to `v`. */
  function Put<T>(bufs: seq<Matrix<T>>, b: nat, c: nat, s: nat, v: T): seq<Matrix<T>>
    requires b < |bufs| && c < |bufs[b]| && s < |bufs[b][c]|
  {
    bufs[b := bufs[b][c := bufs[b][c][s := v]]]
  }

  /** The buffers once the chunking loop has copied every sample whose
      index is below `i`, and channels `0..ch` of index `i`. */
  ghost function ChunkedUpTo<T>(m: Matrix<T>, w: nat, zero: T, i: nat, ch: nat): seq<Matrix<T>>
    requires w >= 1 && FirstIsShortest(m)
    requires i <= |m[0]| && (ch > 0 ==> i < |m[0]|)
  {
    seq(NumBuffers(|m[0]|, w), b requires 0 <= b =>
      seq(|m|, c requires 0 <= c < |m| =>
        seq(w, s requires 0 <= s < w =>
          if b * w + s < i || (b * w + s == i && c < ch) then m[c][b * w + s] else zero)))
  }

  /** One slot of the step below: only slot `(i / w, ch, i % w)` changes. */
  lemma ChunkedSlot<T>(m: Matrix<T>, w: nat, zero: T, i: nat, ch: nat, b: nat, c: nat, s: nat)
    requires w >= 1 && FirstIsShortest(m)
    requires i < |m[0]| && ch < |m|
    requires i / w < NumBuffers(|m[0]|, w)
    requires b < NumBuffers(|m[0]|, w) && c < |m| && s < w
    ensures ChunkedUpTo(m, w, zero, i, ch + 1)[b][c][s]
            == Put(ChunkedUpTo(m, w, zero, i, ch), i / w, ch, i % w, m[ch][i])[b][c][s]
  {
    DivModOfSplit(b, s, w);
  }

  lemma ChunkedStep<T>(m: Matrix<T>, w: nat, zero: T, i: nat, ch: nat)
    requires w >= 1 && FirstIsShortest(m)
    requires i < |m[0]| && ch < |m|
    ensures i / w < NumBuffers(|m[0]|, w)
    ensures var before := ChunkedUpTo(m, w, zero, i, ch);
            i / w < |before| && ch < |before[i / w]| && i % w < |before[i / w][ch]|
    ensures ChunkedUpTo(m, w, zero, i, ch + 1) == Put(ChunkedUpTo(m, w, zero, i, ch), i / w, ch, i % w, m[ch][i])
  {
    var n := NumBuffers(|m[0]|, w);
    var q, r := i / w, i % w;
    NumBuffersIsCeiling(|m[0]|, w);
    assert q < n by {
      if q >= n {
        MulMonotone(n, q, w);
      }
    }
    var before := ChunkedUpTo(m, w, zero, i, ch);
    var after := ChunkedUpTo(m, w, zero, i, ch + 1);
    var put := Put(before, q, ch, r, m[ch][i]);
    forall b | 0 <= b < n
      ensures after[b] == put[b]
    {
      forall c | 0 <= c < |m|
        ensures after[b][c] == put[b][c]
      {
        forall s | 0 <= s < w
          ensures after[b][c][s] == put[b][c][s]
        {
          ChunkedSlot(m, w, zero, i, ch, b, c, s);
        }
      }
    }
  }

  lemma ChunkedNext<T>(m: Matrix<T>, w: nat, zero: T, i: nat)
    requires w >= 1 && FirstIsShortest(m)
    requires i < |m[0]|
    ensures ChunkedUpTo(m, w, zero, i, |m|) == ChunkedUpTo(m, w, zero, i + 1, 0)
  {
    var before := ChunkedUpTo(m, w, zero, i, |m|);
    var after := ChunkedUpTo(m, w, zero, i + 1, 0);
    forall b | 0 <= b < |before|
      ensures before[b] == after[b]
    {
      forall c | 0 <= c < |m|
        ensures before[b][c] == after[b][c]
      {}
    }
  }

  lemma ChunkedStart<T>(m: Matrix<T>, w: nat, zero: T)
    requires w >= 1 && FirstIsShortest(m)
    ensures ChunkedUpTo(m, w, zero, 0, 0) == FilledBuffers(NumBuffers(|m[0]|, w), |m|, w, zero)
  {
    var n := NumBuffers(|m[0]|, w);
    var start := ChunkedUpTo(m, w, zero, 0, 0);
    forall b | 0 <= b < n
      ensures start[b] == Filled(|m|, w, zero)
    {
      MulMonotone(0, b, w);
      forall c | 0 <= c < |m|
        ensures start[b][c] == Filled(|m|, w, zero)[c]
      {}
    }
  }

  lemma ChunkedEnd<T>(m: Matrix<T>, w: nat, zero: T)
    requires w >= 1 && FirstIsShortest(m)
    ensures ChunkedUpTo(m, w, zero, |m[0]|, 0) == Chunk(m, w, zero)
  {
    var n := NumBuffers(|m[0]|, w);
    var done := ChunkedUpTo(m, w, zero, |m[0]|, 0);
    var chunk := Chunk(m, w, zero);
    forall b | 0 <= b < n
      ensures done[b] == chunk[b]
    {
      forall c | 0 <= c < |m|
        ensures done[b][c] == chunk[b][c]
      {}
    }
  }

  /** The inner chunking loop of `process_audio`: copy sample `i` of each
      channel, in channel order, into buffer `i / w`, slot `i % w`. */
  method ChunkIndex<T>(m: Matrix<T>, w: nat, zero: T, i: nat, bufs: seq<Matrix<T>>) returns (out: seq<Matrix<T>>)
    requires w >= 1 && FirstIsShortest(m) && i < |m[0]|
    requires bufs == ChunkedUpTo(m, w, zero, i, 0)
    ensures out == ChunkedUpTo(m, w, zero, i + 1, 0)
  {
    var b, s := i / w, i % w;
    out := bufs;
    var ch := 0;
    while ch < |m|
      invariant 0 <= ch <= |m|
      invariant out == ChunkedUpTo(m, w, zero, i, ch)
    {
      ChunkedStep(m, w, zero, i, ch);
      out := Put(out, b, ch, s, m[ch][i]);
      ch := ch + 1;
    }
    ChunkedNext(m, w, zero, i);
  }

  /** The chunking loops of `process_audio`: walk the first channel's
      indices, copying each channel's sample into zero-filled buffers. */
  method ChunkSamples<T>(m: Matrix<T>, w: nat, zero: T) returns (bufs: seq<Matrix<T>>)
    requires w >= 1 && FirstIsShortest(m)
    ensures bufs == Chunk(m, w, zero)
  {
    bufs := FilledBuffers(NumBuffers(|m[0]|, w), |m|, w, zero);
    ChunkedStart(m, w, zero);
    var i := 0;
    while i < |m[0]|
      invariant 0 <= i <= |m[0]|
      invariant bufs == ChunkedUpTo(m, w, zero, i, 0)
    {
      bufs := ChunkIndex(m, w, zero, i, bufs);
      i := i + 1;
    }
    ChunkedEnd(m, w, zero);
  }

  /** Slot `(c, i)` of the output has been written once the reassembly
      loops have reached buffer `b`, channel `ch`, slot `s`. */
  predicate Written(w: nat, b: nat, ch: nat, s: nat, c: nat, i: nat) {
    i < b * w || (i < b * w + w && (c < ch || (c == ch && i < b * w + s)))
  }

  /** The output once the reassembly loops have reached buffer `b`,
      channel `ch`, slot `s`. */
  ghost function ReassembledUpTo<T>(bufs: seq<Matrix<T>>, channels: nat, total: nat, w: nat, zero: T,
                                    b: nat, ch: nat, s: nat): Matrix<T>
    requires w >= 1 && Readable(bufs, channels, total, w)
  {
    seq(channels, c requires 0 <= c < channels =>
      seq(total, i requires 0 <= i < total =>
        if Written(w, b, ch, s, c, i) then bufs[i / w][c][i % w] else zero))
  }

  lemma ReassembledStep<T>(bufs: seq<Matrix<T>>, channels: nat, total: nat, w: nat, zero: T,
                           b: nat, ch: nat, s: nat)
    requires w >= 1 && Readable(bufs, channels, total, w)
    requires ch < channels && s < w
    ensures b * w + s < total ==>
      b < |bufs| && ch < |bufs[b]| && s < |bufs[b][ch]| &&
      var before := ReassembledUpTo(bufs, channels, total, w, zero, b, ch, s);
      ReassembledUpTo(bufs, channels, total, w, zero, b, ch, s + 1)
        == before[ch := before[ch][b * w + s := bufs[b][ch][s]]]
    ensures b * w + s >= total ==>
      ReassembledUpTo(bufs, channels, total, w, zero, b, ch, s + 1)
        == ReassembledUpTo(bufs, channels, total, w, zero, b, ch, s)
  {
    DivModOfSplit(b, s, w);
    var flat := b * w + s;
    var before := ReassembledUpTo(bufs, channels, total, w, zero, b, ch, s);
    var after := ReassembledUpTo(bufs, channels, total, w, zero, b, ch, s + 1);
    if flat < total {
      var put := before[ch := before[ch][flat := bufs[b][ch][s]]];
      forall c | 0 <= c < channels
        ensures after[c] == put[c]
      {
        forall i | 0 <= i < total
          ensures after[c][i] == put[c][i]
        {
          if i == flat {
            assert i / w == b && i % w == s;
          }
        }
      }
    } else {
      forall c | 0 <= c < channels
        ensures after[c] == before[c]
      {}
    }
  }

  lemma ReassembledStart<T>(bufs: seq<Matrix<T>>, channels: nat, total: nat, w: nat, zero: T)
    requires w >= 1 && Readable(bufs, channels, total, w)
    ensures ReassembledUpTo(bufs, channels, total, w, zero, 0, 0, 0) == Filled(channels, total, zero)
  {
    var start := ReassembledUpTo(bufs, channels, total, w, zero, 0, 0, 0);
    forall c | 0 <= c < channels
      ensures start[c] == Filled(channels, total, zero)[c]
    {}
  }

  lemma ReassembledNextChannel<T>(bufs: seq<Matrix<T>>, channels: nat, total: nat, w: nat, zero: T,
                                  b: nat, ch: nat)
    requires w >= 1 && Readable(bufs, channels, total, w)
    ensures ReassembledUpTo(bufs, channels, total, w, zero, b, ch, w)
         == ReassembledUpTo(bufs, channels, total, w, zero, b, ch + 1, 0)
  {
    var before := ReassembledUpTo(bufs, channels, total, w, zero, b, ch, w);
    var after := ReassembledUpTo(bufs, channels, total, w, zero, b, ch + 1, 0);
    forall c | 0 <= c < channels
      ensures before[c] == after[c]
    {}
  }

  lemma ReassembledNextBuffer<T>(bufs: seq<Matrix<T>>, channels: nat, total: nat, w: nat, zero: T, b: nat)
    requires w >= 1 && Readable(bufs, channels, total, w)
    ensures ReassembledUpTo(bufs, channels, total, w, zero, b, channels, 0)
         == ReassembledUpTo(bufs, channels, total, w, zero, b + 1, 0, 0)
  {
    assert (b + 1) * w == b * w + w;
    var before := ReassembledUpTo(bufs, channels, total, w, zero, b, channels, 0);
    var after := ReassembledUpTo(bufs, channels, total, w, zero, b + 1, 0, 0);
    forall c | 0 <= c < channels
      ensures before[c] == after[c]
    {}
  }

  lemma ReassembledEnd<T>(bufs: seq<Matrix<T>>, channels: nat, total: nat, w: nat, zero: T)
    requires w >= 1 && Readable(bufs, channels, total, w)
    ensures ReassembledUpTo(bufs, channels, total, w, zero, NumBuffers(total, w), 0, 0)
         == Reassemble(bufs, channels, total, w)
  {
    NumBuffersIsCeiling(total, w);
    var done := ReassembledUpTo(bufs, channels, total, w, zero, NumBuffers(total, w), 0, 0);
    var spec := Reassemble(bufs, channels, total, w);
    forall c | 0 <= c < channels
      ensures done[c] == spec[c]
    {}
  }

  /** The reassembly loops of `process_audio`, statement for statement:
      for every buffer, channel and slot, copy the slot into a zero-filled
      output when its global index is below `total`. */
  method ReassembleSamples<T>(bufs: seq<Matrix<T>>, channels: nat, total: nat, w: nat, zero: T)
    returns (m: Matrix<T>)
    requires w >= 1 && Readable(bufs, channels, total, w)
    ensures m == Reassemble(bufs, channels, total, w)
  {
    var n := NumBuffers(total, w);
    m := Filled(channels, total, zero);
    ReassembledStart(bufs, channels, total, w, zero);
    var b := 0;
    while b < n
      invariant 0 <= b <= n
      invariant m == ReassembledUpTo(bufs, channels, total, w, zero, b, 0, 0)
    {
      var ch := 0;
      while ch < channels
        invariant 0 <= ch <= channels
        invariant m == ReassembledUpTo(bufs, channels, total, w, zero, b, ch, 0)
      {
        var s := 0;
        while s < w
          invariant 0 <= s <= w
          invariant m == ReassembledUpTo(bufs, channels, total, w, zero, b, ch, s)
        {
          ReassembledStep(bufs, channels, total, w, zero, b, ch, s);
          var flat := b * w + s;
          if flat < total {
            m := m[ch := m[ch][flat := bufs[b][ch][s]]];
          }
          s := s + 1;
        }
        ReassembledNextChannel(bufs, channels, total, w, zero, b, ch);
        ch := ch + 1;
      }
      ReassembledNextBuffer(bufs, channels, total, w, zero, b);
      b := b + 1;
    }
    ReassembledEnd(bufs, channels, total, w, zero);
  }
}
