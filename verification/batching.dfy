/**
 * The per-batch tensor rules shared by `vali`, `train` and `test`: the
 * decoder input built from the target series, and the slice of a series
 * that is scored (the forecast horizon, and the last channel only in 'MS'
 * mode). Each rule is stated for one sample, a series of time steps whose
 * entries are the channel values; the batch dimension applies the same
 * rule to every sample.
 */
module Batching {
  import opened PySlice

  /** One sample: time steps × channels. */
  type Series = seq<seq<real>>

  /** Every time step of `y` has `channels` values. */
  predicate IsSeries(y: Series, channels: nat)
  {
    forall t :: 0 <= t < |y| ==> |y[t]| == channels
  }

  /** `torch.zeros_like`: the shape of `y`, every entry zero. */
  function ZerosLike(y: Series): (z: Series)
    ensures |z| == |y|
    ensures forall t :: 0 <= t < |y| ==> |z[t]| == |y[t]|
    ensures forall t, c :: 0 <= t < |z| && 0 <= c < |z[t]| ==> z[t][c] == 0.0
  {
    seq(|y|, t requires 0 <= t < |y| => seq(|y[t]|, _ => 0.0))
  }

  /**
   * The decoder input: the leading `labelLen` steps of the target series,
   * followed by zeros shaped like its trailing `predLen` steps.
   */
  function DecoderInput(y: Series, labelLen: nat, predLen: nat): Series
  {
    SliceTo(y, labelLen) + ZerosLike(SliceFrom(y, -(predLen as int)))
  }

  /**
   * For a target series of the length the data loader yields
   * (`labelLen + predLen` steps) and a positive horizon, the decoder input
   * has the same length and width, starts with the first `labelLen` steps
   * of `y` and is zero over its last `predLen` steps.
   */
  lemma DecoderInputLayout(y: Series, labelLen: nat, predLen: nat, channels: nat)
    requires IsSeries(y, channels) && |y| == labelLen + predLen && predLen > 0
    ensures |DecoderInput(y, labelLen, predLen)| == labelLen + predLen
    ensures IsSeries(DecoderInput(y, labelLen, predLen), channels)
    ensures DecoderInput(y, labelLen, predLen)[..labelLen] == y[..labelLen]
    ensures forall t, c :: labelLen <= t < labelLen + predLen && 0 <= c < channels ==>
      DecoderInput(y, labelLen, predLen)[t][c] == 0.0
  {
    var head, tail := SliceTo(y, labelLen), SliceFrom(y, -(predLen as int));
    var d := DecoderInput(y, labelLen, predLen);
    assert d == head + ZerosLike(tail);
    assert head == y[..labelLen];
    forall t | labelLen <= t < labelLen + predLen
      ensures d[t] == ZerosLike(tail)[t - labelLen] && |d[t]| == channels
    {
      assert tail[t - labelLen] == y[t];
    }
  }

  /**
   * Whatever the lengths, the decoder input has `min(labelLen, |y|)` steps
   * of `y` followed by as many zero steps as `y[-predLen:]` has; with
   * `predLen == 0` that slice is `y[-0:]`, the whole series.
   */
  lemma DecoderInputLength(y: Series, labelLen: nat, predLen: nat)
    ensures |DecoderInput(y, labelLen, predLen)| ==
      Min(labelLen, |y|) + (if predLen == 0 then |y| else Min(predLen, |y|))
  {
  }

  /** `f_dim`: the first channel kept, -1 (the last one) in 'MS' mode, 0 (all) otherwise. */
  function FDim(features: string): int
  {
    if features == "MS" then -1 else 0
  }

  /** `y[-predLen:, f_dim:]`: the scored part of a series. */
  function SliceTarget(y: Series, predLen: nat, features: string): Series
  {
    var tail := SliceFrom(y, -(predLen as int));
    seq(|tail|, t requires 0 <= t < |tail| => SliceFrom(tail[t], FDim(features)))
  }

  /** The number of channels kept: one (if there is one) in 'MS' mode, all otherwise. */
  function KeptChannels(features: string, channels: nat): nat
  {
    if features == "MS" then Min(1, channels) else channels
  }

  /**
   * For a horizon within the series, the scored slice has exactly `predLen`
   * steps, one channel in 'MS' mode and all of them otherwise, and each
   * value is the matching value of the last `predLen` steps and the last
   * kept channels of `y`.
   */
  lemma SliceTargetLayout(y: Series, predLen: nat, features: string, channels: nat)
    requires IsSeries(y, channels) && 0 < predLen <= |y|
    ensures |SliceTarget(y, predLen, features)| == predLen
    ensures IsSeries(SliceTarget(y, predLen, features), KeptChannels(features, channels))
    ensures forall t, c :: 0 <= t < predLen && 0 <= c < KeptChannels(features, channels) ==>
      SliceTarget(y, predLen, features)[t][c]
        == y[|y| - predLen + t][channels - KeptChannels(features, channels) + c]
  {
    var r, k := SliceTarget(y, predLen, features), KeptChannels(features, channels);
    var tail := SliceFrom(y, -(predLen as int));
    forall t | 0 <= t < predLen
      ensures tail[t] == y[|y| - predLen + t]
      ensures r[t] == y[|y| - predLen + t][channels - k..]
    {
      var row := y[|y| - predLen + t];
      assert SliceFrom(row, FDim(features)) == row[channels - k..];
    }
  }

  /**
   * With a horizon of zero, `y[-0:]` keeps every step: the scored slice is
   * as long as the series itself rather than empty.
   */
  lemma SliceTargetZeroHorizon(y: Series, features: string)
    ensures |SliceTarget(y, 0, features)| == |y|
  {
  }

  /**
   * In `test`, which slices the model output as well as the target, a
   * model that returns its decoder input unchanged forecasts zeros: the
   * scored slice of the decoder input is all zero, of the scored width.
   * (`vali` and `train` score the output unsliced.)
   */
  lemma EchoedDecoderInputIsZero(y: Series, labelLen: nat, predLen: nat, features: string, channels: nat)
    requires IsSeries(y, channels) && |y| == labelLen + predLen && predLen > 0
    ensures |SliceTarget(DecoderInput(y, labelLen, predLen), predLen, features)| == predLen
    ensures IsSeries(SliceTarget(DecoderInput(y, labelLen, predLen), predLen, features), KeptChannels(features, channels))
    ensures forall t, c :: 0 <= t < predLen && 0 <= c < KeptChannels(features, channels) ==>
      SliceTarget(DecoderInput(y, labelLen, predLen), predLen, features)[t][c] == 0.0
  {
    var d := DecoderInput(y, labelLen, predLen);
    DecoderInputLayout(y, labelLen, predLen, channels);
    SliceTargetLayout(d, predLen, features, channels);
  }
}
