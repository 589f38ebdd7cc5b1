/**
 * The directional-agreement statistic printed by `Exp_Main.test`: over the
 * flattened predictions and targets, the share of positions where both
 * values are positive or both are not.
 */
module Evaluation {

  datatype Option<T> = None | Some(value: T)

  /** Prediction and target point the same way; zero counts with the negatives. */
  predicate Agree(t: real, p: real)
  {
    (t > 0.0 && p > 0.0) || (t <= 0.0 && p <= 0.0)
  }

  /** The `np.sum` of the elementwise agreement mask. */
  function SignMatchCount(trues: seq<real>, preds: seq<real>): (n: nat)
    requires |trues| == |preds|
    ensures n <= |trues|
    decreases |trues|
  {
    if trues == [] then 0
    else
      var k := |trues| - 1;
      SignMatchCount(trues[..k], preds[..k]) + (if Agree(trues[k], preds[k]) then 1 else 0)
  }

  /** The positions where prediction and target agree. */
  ghost function AgreeingPositions(trues: seq<real>, preds: seq<real>): set<int>
    requires |trues| == |preds|
  {
    set i | 0 <= i < |trues| && Agree(trues[i], preds[i])
  }

  /** The count is the number of agreeing positions. */
  lemma {:induction false} SignMatchCountIsCardinality(trues: seq<real>, preds: seq<real>)
    requires |trues| == |preds|
    ensures SignMatchCount(trues, preds) == |AgreeingPositions(trues, preds)|
    decreases |trues|
  {
    if trues != [] {
      var k := |trues| - 1;
      var t', p' := trues[..k], preds[..k];
      SignMatchCountIsCardinality(t', p');
      var s', s := AgreeingPositions(t', p'), AgreeingPositions(trues, preds);
      assert k !in s';
      if Agree(trues[k], preds[k]) {
        assert s == s' + {k};
      } else {
        assert s == s';
      }
    }
  }

  /** Every position agrees exactly when the count is the full length. */
  lemma {:induction false} SignMatchCountFull(trues: seq<real>, preds: seq<real>)
    requires |trues| == |preds|
    ensures SignMatchCount(trues, preds) == |trues| <==> forall i :: 0 <= i < |trues| ==> Agree(trues[i], preds[i])
    decreases |trues|
  {
    if trues != [] {
      var k := |trues| - 1;
      SignMatchCountFull(trues[..k], preds[..k]);
      assert forall i :: 0 <= i < k ==> trues[..k][i] == trues[i] && preds[..k][i] == preds[i];
    }
  }

  /** Comparing the targets with themselves, every position agrees. */
  lemma SignMatchCountSelf(trues: seq<real>)
    ensures SignMatchCount(trues, trues) == |trues|
  {
    SignMatchCountFull(trues, trues);
  }

  /** Agreement does not depend on which side is the prediction. */
  lemma {:induction false} SignMatchCountSymmetric(trues: seq<real>, preds: seq<real>)
    requires |trues| == |preds|
    ensures SignMatchCount(trues, preds) == SignMatchCount(preds, trues)
    decreases |trues|
  {
    if trues != [] {
      var k := |trues| - 1;
      SignMatchCountSymmetric(trues[..k], preds[..k]);
    }
  }

  /**
   * The printed statistic: the count divided by `num_elements`. On empty
   * input the expression would be 0 / 0, `nan` in numpy, modelled as
   * `None`; the program itself fails earlier, in the reshapes, when there
   * are no elements. The result is a fraction, not a percentage.
   */
  function SignMatchRatio(trues: seq<real>, preds: seq<real>): (r: Option<real>)
    requires |trues| == |preds|
    ensures r.None? <==> trues == []
    ensures r.Some? ==> 0.0 <= r.value <= 1.0
    ensures r.Some? ==> (r.value == 1.0 <==> forall i :: 0 <= i < |trues| ==> Agree(trues[i], preds[i]))
  {
    if trues == [] then None
    else
      var n, m := SignMatchCount(trues, preds) as real, |trues| as real;
      SignMatchCountFull(trues, preds);
      FractionBounds(n, m);
      Some(n / m)
  }

  lemma FractionBounds(n: real, m: real)
    requires 0.0 <= n <= m && m > 0.0
    ensures 0.0 <= n / m <= 1.0
    ensures n / m == 1.0 <==> n == m
  {
    assert n / m * m == n;
  }

  /**
   * The same statistic scaled to a percentage, as the "%" in the printed
   * label announces.
   */
  function SignMatchPercentage(trues: seq<real>, preds: seq<real>): (r: Option<real>)
    requires |trues| == |preds|
    ensures r.None? <==> trues == []
    ensures r.Some? ==> 0.0 <= r.value <= 100.0
    ensures r.Some? ==> (r.value == 100.0 <==> forall i :: 0 <= i < |trues| ==> Agree(trues[i], preds[i]))
  {
    match SignMatchRatio(trues, preds)
    case None => None
    case Some(f) => Some(100.0 * f)
  }

  /**
   * When every direction is right, the printed number is 1.0 (shown as
   * "1.0 %") rather than 100: the value printed next to the "%" label is a
   * fraction.
   */
  lemma AllAgreeingPrintsOne(trues: seq<real>)
    requires trues != []
    ensures SignMatchRatio(trues, trues) == Some(1.0)
    ensures SignMatchPercentage(trues, trues) == Some(100.0)
  {
    SignMatchCountSelf(trues);
  }
}
