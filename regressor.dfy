/** `XGBRegressorPositivo.predict`: the wrapped regressor's predictions,
    floored at zero element by element. The wrapped regressor itself is
    opaque, so its raw predictions are an input. */
module Regressor {

  /** `np.maximum` on two numbers. */
  function Max(a: real, b: real): (m: real)
    ensures m >= a && m >= b
    ensures m == a || m == b
  {
    if a >= b then a else b
  }

  /** `np.maximum(preds, 0)`. */
  function ClampNonNegative(preds: seq<real>): (r: seq<real>)
    ensures |r| == |preds|
    ensures forall i :: 0 <= i < |r| ==> r[i] == Max(preds[i], 0.0)
    ensures forall i :: 0 <= i < |r| ==> r[i] >= 0.0
  {
    if preds == [] then [] else [Max(preds[0], 0.0)] + ClampNonNegative(preds[1..])
  }

  /** Clamping twice is clamping once. */
  lemma ClampIdempotent(preds: seq<real>)
    ensures ClampNonNegative(ClampNonNegative(preds)) == ClampNonNegative(preds)
  {
  }

  /** Predictions that are already non-negative pass through unchanged, and
      only those do. */
  lemma ClampFixesExactlyNonNegative(preds: seq<real>)
    ensures ClampNonNegative(preds) == preds <==> forall i :: 0 <= i < |preds| ==> preds[i] >= 0.0
  {
    if ClampNonNegative(preds) == preds {
      forall i | 0 <= i < |preds|
        ensures preds[i] >= 0.0
      {
        assert ClampNonNegative(preds)[i] == preds[i];
      }
    }
  }

  /** Clamping preserves the elementwise order of two prediction vectors. */
  lemma ClampMonotone(a: seq<real>, b: seq<real>)
    requires |a| == |b|
    requires forall i :: 0 <= i < |a| ==> a[i] <= b[i]
    ensures forall i :: 0 <= i < |a| ==> ClampNonNegative(a)[i] <= ClampNonNegative(b)[i]
  {
  }

  lemma ClampExample()
    ensures ClampNonNegative([-3.2, 4.7]) == [0.0, 4.7]
  {
  }
}
