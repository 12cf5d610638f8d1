/** The channel-major flat layout used across the C ABI: a matrix of
    `channels` channels of `n` samples travels as one array in which sample
    `s` of channel `c` sits at index `c * n + s`. Covers the wrapper in
    `process_multiple_audio_files.rs` (and its earlier copy in
    `dsp/src/main.rs`) and `cpp_process` in `audio/process/src/lib.rs`. */
module FlatLayout {
  import opened Buffering

  /** The foreign callee, seen from the caller: given the flattened input,
      the channel count, the sample count and the caller's zero-filled
      output array, the values it leaves in that array. */
  type Callee<!T> = (seq<T>, nat, nat, seq<T>) -> seq<T>

  /** `input.iter().flatten().collect()`: the channels laid end to end. */
  function Flatten<T>(m: Matrix<T>): seq<T> {
    if m == [] then [] else m[0] + Flatten(m[1..])
  }

  /** A rectangular matrix flattens to `channels * n` slots. */
  lemma {:induction false} FlattenLength<T>(m: Matrix<T>, n: nat)
    requires Rectangular(m, n)
    ensures |Flatten(m)| == |m| * n
  {
    if m != [] {
      FlattenLength(m[1..], n);
      MulSucc(|m| - 1, n);
    }
  }

  /** The flat array is channel-major: sample `s` of channel `c` sits at
      index `c * n + s`. */
  lemma {:induction false} FlattenIsChannelMajor<T>(m: Matrix<T>, n: nat, c: nat, s: nat)
    requires Rectangular(m, n) && c < |m| && s < n
    ensures c * n + s < |Flatten(m)| && Flatten(m)[c * n + s] == m[c][s]
  {
    FlattenLength(m, n);
    var rest := m[1..];
    if c > 0 {
      FlattenIsChannelMajor(rest, n, c - 1, s);
      MulSucc(c - 1, n);
      assert rest[c - 1] == m[c];
    }
  }

  /** The `n` slots of `flat` starting at `lo`. */
  function Run<T>(flat: seq<T>, lo: nat, n: nat): (r: seq<T>)
    requires lo + n <= |flat|
    ensures |r| == n
  {
    flat[lo..lo + n]
  }

  lemma RunFits(c: nat, channels: nat, n: nat)
    requires c < channels
    ensures c * n + n <= channels * n
  {
    MulMonotone(c + 1, channels, n);
  }

  /** Cuts a flat array into `channels` runs of `n` samples. */
  function Unflatten<T>(flat: seq<T>, channels: nat, n: nat): (m: Matrix<T>)
    requires channels * n <= |flat|
    ensures |m| == channels && Rectangular(m, n)
  {
    seq(channels, c requires 0 <= c < channels =>
      RunFits(c, channels, n);
      Run(flat, c * n, n))
  }

  /** Unflattening reads sample `s` of channel `c` from `c * n + s`. */
  lemma UnflattenIsChannelMajor<T>(flat: seq<T>, channels: nat, n: nat, c: nat, s: nat)
    requires channels * n <= |flat| && c < channels && s < n
    ensures c * n + s < |flat|
    ensures Unflatten(flat, channels, n)[c][s] == flat[c * n + s]
  {
    RunFits(c, channels, n);
  }

  /** Round trip one way: unflattening a flattened rectangular matrix
      gives it back. */
  lemma UnflattenFlatten<T>(m: Matrix<T>, n: nat)
    requires Rectangular(m, n)
    ensures |Flatten(m)| == |m| * n
    ensures Unflatten(Flatten(m), |m|, n) == m
  {
    FlattenLength(m, n);
    var u := Unflatten(Flatten(m), |m|, n);
    forall c | 0 <= c < |m|
      ensures u[c] == m[c]
    {
      forall s | 0 <= s < n
        ensures u[c][s] == m[c][s]
      {
        FlattenIsChannelMajor(m, n, c, s);
        UnflattenIsChannelMajor(Flatten(m), |m|, n, c, s);
      }
    }
  }

  /** Round trip the other way: flattening the runs of an array of
      exactly `channels * n` slots gives the array back. */
  lemma FlattenUnflatten<T>(flat: seq<T>, channels: nat, n: nat)
    requires |flat| == channels * n
    ensures Flatten(Unflatten(flat, channels, n)) == flat
  {
    var u := Unflatten(flat, channels, n);
    FlattenLength(u, n);
    forall k | 0 <= k < |flat|
      ensures Flatten(u)[k] == flat[k]
    {
      var c, s := k / n, k % n;
      assert k == c * n + s;
      assert c < channels by {
        if c >= channels {
          MulMonotone(channels, c, n);
        }
      }
      FlattenIsChannelMajor(u, n, c, s);
      UnflattenIsChannelMajor(flat, channels, n, c, s);
    }
  }

  /** The caller-owned output array after the call: the callee can write
      only into the `|init|` slots it was handed, so whatever it produces
      beyond them is lost and any slot it leaves alone keeps its zero. */
  function InPlace<T>(written: seq<T>, init: seq<T>): (buf: seq<T>)
    ensures |buf| == |init|
  {
    seq(|init|, k requires 0 <= k < |init| => if k < |written| then written[k] else init[k])
  }

  /** The flat output array after the foreign call: `channels * n` slots,
      zero-filled, handed to the callee with the flattened input. */
  function CalleeOutput<T>(input: Matrix<T>, callee: Callee<T>, zero: T): (out: seq<T>)
    requires |input| > 0
    ensures |out| == |input| * |input[0]|
  {
    var blank := seq(|input| * |input[0]|, _ => zero);
    InPlace(callee(Flatten(input), |input|, |input[0]|, blank), blank)
  }

  /** `cpp_process_audio_wrapper` may be called: the input has a first
      channel, and every output channel takes exactly one run of the flat
      output (`copy_from_slice` panics otherwise). */
  predicate WrapperFits<T>(input: Matrix<T>, output: Matrix<T>) {
    && |input| > 0
    && Rectangular(output, |input[0]|)
    && (|input[0]| > 0 ==> |output| <= |input|)
  }

  lemma WrapperRunsFit<T>(input: Matrix<T>, output: Matrix<T>)
    requires WrapperFits(input, output)
    ensures |output| * |input[0]| <= |input| * |input[0]|
  {
    if |input[0]| > 0 {
      MulMonotone(|output|, |input|, |input[0]|);
    }
  }

  /** `cpp_process_audio_wrapper`: flatten the buffer, let the callee fill
      a zeroed array of `channels * n` slots, and copy run `c` of it over
      output channel `c`. The output keeps its shape. */
  function CppWrapper<T>(input: Matrix<T>, output: Matrix<T>, callee: Callee<T>, zero: T): (r: Matrix<T>)
    requires WrapperFits(input, output)
    ensures |r| == |output| && Rectangular(r, |input[0]|)
  {
    WrapperRunsFit(input, output);
    Unflatten(CalleeOutput(input, callee, zero), |output|, |input[0]|)
  }

  /** Unflattening in the wrapper: sample `s` of output channel `c` is
      slot `c * n + s` of the callee's array. */
  lemma CppWrapperIsChannelMajor<T>(input: Matrix<T>, output: Matrix<T>, callee: Callee<T>, zero: T, c: nat, s: nat)
    requires WrapperFits(input, output) && c < |output| && s < |input[0]|
    ensures c * |input[0]| + s < |input| * |input[0]|
    ensures CppWrapper(input, output, callee, zero)[c][s] == CalleeOutput(input, callee, zero)[c * |input[0]| + s]
  {
    WrapperRunsFit(input, output);
    UnflattenIsChannelMajor(CalleeOutput(input, callee, zero), |output|, |input[0]|, c, s);
  }

  /** A callee that computes every slot from the same slot of the input,
      with the index `channel * num_samples + sample` used on both sides,
      as the shipped C++ kernels do. */
  function SlotWise<T>(f: T -> T): Callee<T> {
    (flat: seq<T>, channels: nat, n: nat, out: seq<T>) =>
      seq(|flat|, k requires 0 <= k < |flat| => f(flat[k]))
  }

  /** The callee sees sample `s` of channel `c` where it writes its result. */
  lemma SlotWiseOutput<T>(input: Matrix<T>, f: T -> T, zero: T, c: nat, s: nat)
    requires |input| > 0 && Rectangular(input, |input[0]|)
    requires c < |input| && s < |input[0]|
    ensures c * |input[0]| + s < |input| * |input[0]|
    ensures CalleeOutput(input, SlotWise(f), zero)[c * |input[0]| + s] == f(input[c][s])
  {
    FlattenLength(input, |input[0]|);
    FlattenIsChannelMajor(input, |input[0]|, c, s);
  }

  /** Layout agreement: through the wrapper a slot-wise callee acts on
      every sample of every channel in place, so the output matrix is the
      input with `f` applied sample by sample. */
  lemma CppWrapperAppliesSlotWise<T>(input: Matrix<T>, output: Matrix<T>, f: T -> T, zero: T)
    requires |input| > 0 && Rectangular(input, |input[0]|)
    requires Rectangular(output, |input[0]|) && |output| == |input|
    ensures WrapperFits(input, output)
    ensures var r := CppWrapper(input, output, SlotWise(f), zero);
            |r| == |input| && forall c, s :: 0 <= c < |r| && 0 <= s < |input[0]| ==> r[c][s] == f(input[c][s])
  {
    var r := CppWrapper(input, output, SlotWise(f), zero);
    forall c, s | 0 <= c < |r| && 0 <= s < |input[0]|
      ensures r[c][s] == f(input[c][s])
    {
      CppWrapperIsChannelMajor(input, output, SlotWise(f), zero, c, s);
      SlotWiseOutput(input, f, zero, c, s);
    }
  }

  /** An identity callee makes the wrapper the identity on rectangular
      buffers. */
  lemma CppWrapperIdentity<T>(input: Matrix<T>, output: Matrix<T>, zero: T)
    requires |input| > 0 && Rectangular(input, |input[0]|)
    requires Rectangular(output, |input[0]|) && |output| == |input|
    ensures WrapperFits(input, output)
    ensures CppWrapper(input, output, SlotWise(x => x), zero) == input
  {
    CppWrapperAppliesSlotWise(input, output, x => x, zero);
    var r := CppWrapper(input, output, SlotWise(x => x), zero);
    forall c | 0 <= c < |input|
      ensures r[c] == input[c]
    {}
  }

  /** `cpp_process` may be called: the input has a first channel, every
      output channel has at least `n` slots, and the output has no more
      channels than the flat array has runs (the indexing panics
      otherwise). */
  predicate ProcessFits<T>(input: Matrix<T>, output: Matrix<T>) {
    && |input| > 0
    && (forall c :: 0 <= c < |output| ==> |input[0]| <= |output[c]|)
    && (|input[0]| > 0 ==> |output| <= |input|)
  }

  /** `cpp_process` of `audio/process/src/lib.rs`: flatten, let the callee
      fill a zeroed array of `n * channels` slots, then overwrite the
      first `n` samples of each output channel with its run; the slots of
      an output channel past `n` are never written. */
  function CppProcess<T>(input: Matrix<T>, output: Matrix<T>, callee: Callee<T>, zero: T): (r: Matrix<T>)
    requires ProcessFits(input, output)
    ensures |r| == |output|
    ensures forall c :: 0 <= c < |r| ==> |r[c]| == |output[c]|
    ensures forall c, s :: 0 <= c < |r| && |input[0]| <= s < |r[c]| ==> r[c][s] == output[c][s]
  {
    var n := |input[0]|;
    var filled := CalleeOutput(input, callee, zero);
    seq(|output|, c requires 0 <= c < |output| =>
      if n == 0 then output[c]
      else
        RunFits(c, |input|, n);
        Run(filled, c * n, n) + output[c][n..])
  }

  /** Unflattening in `cpp_process`: sample `s < n` of output channel `c`
      is slot `c * n + s` of the callee's array. */
  lemma CppProcessIsChannelMajor<T>(input: Matrix<T>, output: Matrix<T>, callee: Callee<T>, zero: T, c: nat, s: nat)
    requires ProcessFits(input, output) && c < |output| && s < |input[0]|
    ensures c * |input[0]| + s < |input| * |input[0]|
    ensures CppProcess(input, output, callee, zero)[c][s] == CalleeOutput(input, callee, zero)[c * |input[0]| + s]
  {
    RunFits(c, |input|, |input[0]|);
  }

  /** With a slot-wise callee `cpp_process` applies `f` to every sample,
      so an identity kernel makes it the identity on rectangular input. */
  lemma CppProcessAppliesSlotWise<T>(input: Matrix<T>, output: Matrix<T>, f: T -> T, zero: T)
    requires |input| > 0 && Rectangular(input, |input[0]|)
    requires Rectangular(output, |input[0]|) && |output| == |input|
    ensures ProcessFits(input, output)
    ensures var r := CppProcess(input, output, SlotWise(f), zero);
            |r| == |input| && forall c, s :: 0 <= c < |r| && 0 <= s < |input[0]| ==> r[c][s] == f(input[c][s])
  {
    var r := CppProcess(input, output, SlotWise(f), zero);
    forall c, s | 0 <= c < |r| && 0 <= s < |input[0]|
      ensures r[c][s] == f(input[c][s])
    {
      CppProcessIsChannelMajor(input, output, SlotWise(f), zero, c, s);
      SlotWiseOutput(input, f, zero, c, s);
    }
  }
}
