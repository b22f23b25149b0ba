/**
 * The window-averaged smoother of scripts/create_results_file.py
 * (`averaged_prediction`): the `stackSize` predictions starting at `idx` are fused
 * with harmonic-decay weights, the one at offset `j` weighing
 * (1/s) * (1/(j+1) + ... + 1/s).  These weights are positive, non-increasing and sum
 * to one, so the fusion is a convex combination of the window.
 */
module Smoothing {

  /** One prediction row: forward velocity, lateral velocity, yaw rate (`vel_y, vel_x, vel_yaw`). */
  datatype Vec3 = Vec3(vy: real, vx: real, vyaw: real)

  datatype Axis = Forward | Lateral | Yaw

  function At(v: Vec3, axis: Axis): real {
    match axis
    case Forward => v.vy
    case Lateral => v.vx
    case Yaw => v.vyaw
  }

  const Zero := Vec3(0.0, 0.0, 0.0)

  function Add(u: Vec3, v: Vec3): Vec3 {
    Vec3(u.vy + v.vy, u.vx + v.vx, u.vyaw + v.vyaw)
  }

  function Scale(v: Vec3, w: real): Vec3 {
    Vec3(w * v.vy, w * v.vx, w * v.vyaw)
  }

  /** numpy's `v / d`, element by element. */
  function Divide(v: Vec3, d: real): Vec3
    requires d != 0.0
  {
    Vec3(v.vy / d, v.vx / d, v.vyaw / d)
  }

  /** 1/(j+1) + 1/(j+2) + ... + 1/k: the inner loop over `k` without the factor 1/s. */
  function HarmonicTail(j: nat, k: nat): real
    decreases k
  {
    if k <= j then 0.0 else HarmonicTail(j, k - 1) + 1.0 / (k as real)
  }

  /** The total weight `averaged_prediction` gives to the prediction at offset `j`. */
  function Weight(s: nat, j: nat): real
    requires 0 < s
  {
    HarmonicTail(j, s) / (s as real)
  }

  /** The weights of a window of `s`, offset 0 first. */
  function Weights(s: nat): (ws: seq<real>)
    requires 0 < s
    ensures |ws| == s
  {
    seq(s, j requires 0 <= j < s => Weight(s, j))
  }

  /** The sum of a list of weights. */
  function Total(ws: seq<real>): real {
    if ws == [] then 0.0 else Total(ws[..|ws| - 1]) + ws[|ws| - 1]
  }

  /** ws[0] * preds[idx] + ... + ws[n-1] * preds[idx+n-1], for n = |ws|. */
  function Combine(preds: seq<Vec3>, idx: nat, ws: seq<real>): Vec3
    requires idx + |ws| <= |preds|
  {
    if ws == [] then Zero
    else Add(Combine(preds, idx, ws[..|ws| - 1]), Scale(preds[idx + |ws| - 1], ws[|ws| - 1]))
  }

  /** The fused prediction for position `idx` (zero for an empty window). */
  function Fused(preds: seq<Vec3>, s: nat, idx: nat): Vec3
    requires idx + s <= |preds|
  {
    if s == 0 then Zero else Combine(preds, idx, Weights(s))
  }

  /** One pass of the inner loop adds 1/(s*(k+1)) of `p` to the weight `t/s` already added. */
  lemma AccumulateStep(before: Vec3, p: Vec3, s: nat, k: nat, t: real, t': real, acc: Vec3, acc': Vec3)
    requires 0 < s && t' == t + 1.0 / ((k + 1) as real)
    requires acc == Add(before, Scale(p, t / (s as real)))
    requires acc' == Add(acc, Divide(p, (s * (k + 1)) as real))
    ensures acc' == Add(before, Scale(p, t' / (s as real)))
  {
    var d := (s * (k + 1)) as real;
    var w, w' := t / (s as real), t' / (s as real);
    WeightGrows(s, k, t, t');
    AccumulateVec(before, p, d, w, w', acc, acc');
  }

  /** Adding `p / d` to `before + w * p` gives `before + (w + 1/d) * p`. */
  lemma AccumulateVec(before: Vec3, p: Vec3, d: real, w: real, w': real, acc: Vec3, acc': Vec3)
    requires 0.0 < d && w' == w + 1.0 / d
    requires acc == Add(before, Scale(p, w))
    requires acc' == Add(acc, Divide(p, d))
    ensures acc' == Add(before, Scale(p, w'))
  {
    AccumulateReal(before.vy, p.vy, d, w, w', acc.vy, acc'.vy);
    AccumulateReal(before.vx, p.vx, d, w, w', acc.vx, acc'.vx);
    AccumulateReal(before.vyaw, p.vyaw, d, w, w', acc.vyaw, acc'.vyaw);
  }

  /** Adding 1/(k+1) to the harmonic sum adds 1/(s*(k+1)) to its share of `s`. */
  lemma WeightGrows(s: nat, k: nat, t: real, t': real)
    requires 0 < s && t' == t + 1.0 / ((k + 1) as real)
    ensures 0.0 < (s * (k + 1)) as real
    ensures t' / (s as real) == t / (s as real) + 1.0 / ((s * (k + 1)) as real)
  {
    var sr, kr := s as real, (k + 1) as real;
    assert (s * (k + 1)) as real == sr * kr;
  }

  /** AccumulateStep on one component, with `w` and `w'` the weights before and after. */
  lemma AccumulateReal(b: real, x: real, d: real, w: real, w': real, a: real, a': real)
    requires 0.0 < d && w' == w + 1.0 / d
    requires a == b + w * x
    requires a' == a + x / d
    ensures a' == b + w' * x
  {
    assert x / d == (1.0 / d) * x;
  }

  /** The inner loop of `averaged_prediction`: `pred += p / (stack_size*(k+1))` for
      `j <= k < stack_size`, which adds `p` with the weight of offset `j`. */
  method AddShare(pred: Vec3, p: Vec3, s: nat, j: nat) returns (r: Vec3)
    requires j < s
    ensures r == Add(pred, Scale(p, Weight(s, j)))
  {
    r := pred;
    StartWeight(pred, p, HarmonicTail(j, j), s);
    for k := j to s
      invariant r == Add(pred, Scale(p, HarmonicTail(j, k) / (s as real)))
    {
      ghost var acc := r;
      MulPositive(s, k + 1);
      r := Add(r, Divide(p, (s * (k + 1)) as real));
      AccumulateStep(pred, p, s, k, HarmonicTail(j, k), HarmonicTail(j, k + 1), acc, r);
    }
  }

  /** `averaged_prediction`: for each offset `j` of the window, the inner loop adds
      `predictions[idx+j]` with its weight, so the result is the weighted sum of the window. */
  method AveragedPrediction(preds: seq<Vec3>, s: nat, idx: nat) returns (pred: Vec3)
    requires idx + s <= |preds|
    ensures pred == Fused(preds, s, idx)
  {
    pred := Zero;
    if s == 0 {
      return;
    }
    for j := 0 to s
      invariant pred == Combine(preds, idx, Weights(s)[..j])
    {
      ghost var before := pred;
      pred := AddShare(pred, preds[idx + j], s, j);
      CombineSnoc(preds, idx, Weights(s), j, before, pred);
    }
    assert Weights(s)[..s] == Weights(s);
  }

  lemma MulPositive(a: nat, b: nat)
    requires 0 < a && 0 < b
    ensures 0 < a * b
  {
  }

  lemma StartWeight(before: Vec3, p: Vec3, t: real, s: nat)
    requires 0 < s && t == 0.0
    ensures before == Add(before, Scale(p, t / (s as real)))
  {
  }

  lemma CombineSnoc(preds: seq<Vec3>, idx: nat, ws: seq<real>, j: nat, before: Vec3, after: Vec3)
    requires j < |ws| && idx + |ws| <= |preds|
    requires before == Combine(preds, idx, ws[..j])
    requires after == Add(before, Scale(preds[idx + j], ws[j]))
    ensures after == Combine(preds, idx, ws[..j + 1])
  {
    assert ws[..j + 1][..j] == ws[..j];
  }

  /** Peeling the first term: 1/(j+1) + ... + 1/k == 1/(j+1) + (1/(j+2) + ... + 1/k). */
  lemma {:induction false} TailFirst(j: nat, k: nat)
    requires j < k
    ensures HarmonicTail(j, k) == 1.0 / ((j + 1) as real) + HarmonicTail(j + 1, k)
    decreases k
  {
    if k > j + 1 {
      TailFirst(j, k - 1);
    }
  }

  lemma {:induction false} TailPositive(j: nat, k: nat)
    requires j < k
    ensures HarmonicTail(j, k) > 0.0
    decreases k
  {
    if k > j + 1 {
      TailPositive(j, k - 1);
    }
  }

  /** Each of the `s` weights is positive, and a later offset never weighs more. */
  lemma WeightsDecrease(s: nat, j: nat)
    requires j < s
    ensures Weight(s, j) > 0.0
    ensures j + 1 < s ==> Weight(s, j) > Weight(s, j + 1)
  {
    TailPositive(j, s);
    if j + 1 < s {
      TailFirst(j, s);
      TailPositive(j + 1, s);
      var sr := s as real;
      assert HarmonicTail(j, s) > HarmonicTail(j + 1, s);
      assert HarmonicTail(j, s) / sr > HarmonicTail(j + 1, s) / sr;
    }
  }

  /** HarmonicTail(0, s) + ... + HarmonicTail(n-1, s). */
  function TailTotal(n: nat, s: nat): real {
    if n == 0 then 0.0 else TailTotal(n - 1, s) + HarmonicTail(n - 1, s)
  }

  lemma {:induction false} TailTotalGrow(n: nat, s: nat)
    requires n <= s + 1
    ensures TailTotal(n, s + 1) == TailTotal(n, s) + (n as real) / ((s + 1) as real)
  {
    if n > 0 {
      TailTotalGrow(n - 1, s);
      assert HarmonicTail(n - 1, s + 1) == HarmonicTail(n - 1, s) + 1.0 / ((s + 1) as real);
      var d := (s + 1) as real;
      assert ((n - 1) as real) / d + 1.0 / d == (n as real) / d;
    }
  }

  /** Summing the tails counts each 1/(k+1) exactly k+1 times. */
  lemma {:induction false} TailTotalFull(s: nat)
    ensures TailTotal(s, s) == s as real
  {
    if s > 0 {
      TailTotalFull(s - 1);
      TailTotalGrow(s - 1, s - 1);
      assert TailTotal(s, s) == TailTotal(s - 1, s) + HarmonicTail(s - 1, s);
      assert HarmonicTail(s - 1, s) == 1.0 / (s as real);
      assert ((s - 1) as real) / (s as real) + 1.0 / (s as real) == 1.0;
    }
  }

  lemma {:induction false} TotalOfWeights(s: nat, n: nat)
    requires 0 < s && n <= s
    ensures Total(Weights(s)[..n]) == TailTotal(n, s) / (s as real)
  {
    if n > 0 {
      TotalOfWeights(s, n - 1);
      var ws := Weights(s)[..n];
      assert ws[..n - 1] == Weights(s)[..n - 1];
      var sr := s as real;
      assert TailTotal(n - 1, s) / sr + HarmonicTail(n - 1, s) / sr == TailTotal(n, s) / sr;
    }
  }

  /** The weights of one window sum to exactly one. */
  lemma WeightsSumToOne(s: nat)
    requires 0 < s
    ensures Total(Weights(s)) == 1.0
  {
    TotalOfWeights(s, s);
    TailTotalFull(s);
    assert Weights(s)[..s] == Weights(s);
  }

  lemma AtAddScale(u: Vec3, v: Vec3, w: real, axis: Axis)
    ensures At(Add(u, Scale(v, w)), axis) == At(u, axis) + w * At(v, axis)
  {
  }

  /** The last weight's term of a combination, on one axis. */
  lemma CombineLast(preds: seq<Vec3>, idx: nat, ws: seq<real>, n: nat, axis: Axis)
    requires |ws| == n + 1 && idx + |ws| <= |preds|
    ensures At(Combine(preds, idx, ws), axis)
      == At(Combine(preds, idx, ws[..n]), axis) + ws[n] * At(preds[idx + n], axis)
  {
    var p := preds[idx + n];
    assert Combine(preds, idx, ws) == Add(Combine(preds, idx, ws[..n]), Scale(p, ws[n]));
    AtAddScale(Combine(preds, idx, ws[..n]), p, ws[n], axis);
  }

  lemma TotalLast(ws: seq<real>, n: nat)
    requires |ws| == n + 1
    ensures Total(ws) == Total(ws[..n]) + ws[n]
  {
  }

  /** One more term `w * x`, with `x` in [lo, hi], keeps a sum of weight `t` within
      `t * lo` and `t * hi`. */
  lemma TermBetween(t: real, c: real, w: real, x: real, lo: real, hi: real, t': real, c': real)
    requires t * lo <= c <= t * hi
    requires 0.0 <= w && lo <= x <= hi
    requires t' == t + w && c' == c + w * x
    ensures t' * lo <= c' <= t' * hi
  {
    assert w * lo <= w * x <= w * hi;
    assert t' * lo == t * lo + w * lo;
    assert t' * hi == t * hi + w * hi;
  }

  /** One axis of a combination: ws[0] * x[idx] + ... + ws[n-1] * x[idx+n-1]. */
  function AxisSum(preds: seq<Vec3>, idx: nat, ws: seq<real>, axis: Axis): real
    requires idx + |ws| <= |preds|
  {
    if ws == [] then 0.0
    else AxisSum(preds, idx, ws[..|ws| - 1], axis) + ws[|ws| - 1] * At(preds[idx + |ws| - 1], axis)
  }

  lemma AxisSumLast(preds: seq<Vec3>, idx: nat, ws: seq<real>, n: nat, axis: Axis)
    requires |ws| == n + 1 && idx + |ws| <= |preds|
    ensures AxisSum(preds, idx, ws, axis) == AxisSum(preds, idx, ws[..n], axis) + ws[n] * At(preds[idx + n], axis)
  {
  }

  /** A combination, read on one axis, is the weighted sum of that axis. */
  lemma {:induction false} AtCombine(preds: seq<Vec3>, idx: nat, ws: seq<real>, axis: Axis)
    requires idx + |ws| <= |preds|
    ensures At(Combine(preds, idx, ws), axis) == AxisSum(preds, idx, ws, axis)
    decreases |ws|
  {
    if ws != [] {
      var n := |ws| - 1;
      AtCombine(preds, idx, ws[..n], axis);
      CombineLast(preds, idx, ws, n, axis);
      AxisSumLast(preds, idx, ws, n, axis);
    }
  }

  /** With non-negative weights, a weighted sum of values in [lo, hi] lies between
      `Total(ws) * lo` and `Total(ws) * hi`. */
  lemma {:induction false} AxisSumBetween(preds: seq<Vec3>, idx: nat, ws: seq<real>, axis: Axis, lo: real, hi: real)
    requires idx + |ws| <= |preds|
    requires forall j :: 0 <= j < |ws| ==> 0.0 <= ws[j]
    requires forall j :: idx <= j < idx + |ws| ==> lo <= At(preds[j], axis) <= hi
    ensures Total(ws) * lo <= AxisSum(preds, idx, ws, axis) <= Total(ws) * hi
    decreases |ws|
  {
    if ws != [] {
      var n := |ws| - 1;
      assert forall j :: 0 <= j < n ==> ws[..n][j] == ws[j];
      AxisSumBetween(preds, idx, ws[..n], axis, lo, hi);
      AxisSumBetweenStep(preds, idx, ws, n, axis, lo, hi);
    }
  }

  /** The step of `AxisSumBetween`: the bounds of the first `n` terms extend to `n + 1`. */
  lemma AxisSumBetweenStep(preds: seq<Vec3>, idx: nat, ws: seq<real>, n: nat, axis: Axis, lo: real, hi: real)
    requires |ws| == n + 1 && idx + |ws| <= |preds|
    requires 0.0 <= ws[n] && lo <= At(preds[idx + n], axis) <= hi
    requires Total(ws[..n]) * lo <= AxisSum(preds, idx, ws[..n], axis) <= Total(ws[..n]) * hi
    ensures Total(ws) * lo <= AxisSum(preds, idx, ws, axis) <= Total(ws) * hi
  {
    AxisSumLast(preds, idx, ws, n, axis);
    TotalLast(ws, n);
    TermBetween(Total(ws[..n]), AxisSum(preds, idx, ws[..n], axis), ws[n], At(preds[idx + n], axis),
                lo, hi, Total(ws), AxisSum(preds, idx, ws, axis));
  }

  /** The fusion is a convex combination: on every axis it lies between the smallest and
      the largest prediction of the window. */
  lemma FusedBetween(preds: seq<Vec3>, s: nat, idx: nat, axis: Axis, lo: real, hi: real)
    requires 0 < s && idx + s <= |preds|
    requires forall j :: idx <= j < idx + s ==> lo <= At(preds[j], axis) <= hi
    ensures lo <= At(Fused(preds, s, idx), axis) <= hi
  {
    var ws := Weights(s);
    forall j | 0 <= j < s ensures 0.0 <= ws[j] {
      WeightsDecrease(s, j);
    }
    AtCombine(preds, idx, ws, axis);
    AxisSumBetween(preds, idx, ws, axis, lo, hi);
    WeightsSumToOne(s);
  }

  /** A constant window fuses to that constant. */
  lemma FusedConstant(preds: seq<Vec3>, s: nat, idx: nat, v: Vec3)
    requires 0 < s && idx + s <= |preds|
    requires forall j :: idx <= j < idx + s ==> preds[j] == v
    ensures Fused(preds, s, idx) == v
  {
    FusedBetween(preds, s, idx, Forward, v.vy, v.vy);
    FusedBetween(preds, s, idx, Lateral, v.vx, v.vx);
    FusedBetween(preds, s, idx, Yaw, v.vyaw, v.vyaw);
  }

  /** A window of one is no smoothing at all. */
  lemma FusedSingle(preds: seq<Vec3>, idx: nat)
    requires idx < |preds|
    ensures Fused(preds, 1, idx) == preds[idx]
  {
    FusedConstant(preds, 1, idx, preds[idx]);
  }

  lemma {:induction false} CombineLocal(p: seq<Vec3>, q: seq<Vec3>, idx: nat, ws: seq<real>)
    requires idx + |ws| <= |p| && idx + |ws| <= |q|
    requires forall j :: idx <= j < idx + |ws| ==> p[j] == q[j]
    ensures Combine(p, idx, ws) == Combine(q, idx, ws)
    decreases |ws|
  {
    if ws != [] {
      CombineLocal(p, q, idx, ws[..|ws| - 1]);
    }
  }

  /** `averaged_prediction` reads only `predictions[idx .. idx+s-1]`. */
  lemma FusedLocal(p: seq<Vec3>, q: seq<Vec3>, s: nat, idx: nat)
    requires idx + s <= |p| && idx + s <= |q|
    requires p[idx..idx + s] == q[idx..idx + s]
    ensures Fused(p, s, idx) == Fused(q, s, idx)
  {
    if s > 0 {
      assert forall j :: idx <= j < idx + s ==> p[j] == p[idx..idx + s][j - idx];
      CombineLocal(p, q, idx, Weights(s));
    }
  }
}
