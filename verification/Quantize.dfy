/** Symmetric int8 quantization of a row, in real arithmetic, and the error of a dequantized dot. */
module Quantize {

  function Abs(x: real): real { if x < 0.0 then -x else x }

  function Mul(x: real, y: real): real { x * y }

  lemma MulSplit(x: real, y: real, z: real)
    ensures Mul(x, y + z) == Mul(x, y) + Mul(x, z) && Mul(x, y - z) == Mul(x, y) - Mul(x, z)
    ensures Mul(y + z, x) == Mul(y, x) + Mul(z, x) && Mul(y - z, x) == Mul(y, x) - Mul(z, x)
  {
  }

  lemma MulGroup(x: real, y: real, z: real)
    ensures Mul(Mul(x, y), z) == Mul(x, Mul(y, z)) && Mul(x, y) == Mul(y, x)
  {
  }

  predicate Within(x: real, top: real) { -top <= x <= top }

  lemma MulWithin(x: real, top: real, c: real)
    requires Within(x, top) && c >= 0.0
    ensures Within(Mul(x, c), Mul(top, c)) && Within(Mul(c, x), Mul(c, top))
  {
    assert (top - x) * c >= 0.0;
    assert (top + x) * c >= 0.0;
  }

  function Max(x: real, y: real): real { if x < y then y else x }

  /** The largest magnitude among the first n. */
  function MaxAbs(x: seq<real>, n: nat): (m: real)
    requires n <= |x|
    ensures m >= 0.0
    ensures forall i :: 0 <= i < n ==> Abs(x[i]) <= m
  {
    if n == 0 then 0.0 else Max(MaxAbs(x, n - 1), Abs(x[n - 1]))
  }

  const TINY := 0.000001

  /** Rounding to the nearest integer, ties to even. */
  function Round(x: real): int {
    var f := x.Floor;
    var d := x - f as real;
    if d < 0.5 || (d == 0.5 && f % 2 == 0) then f else f + 1
  }

  function Clamp(q: int): int { if q > 127 then 127 else if q < -127 then -127 else q }

  datatype Quantized = Quantized(q: seq<int>, scale: real)

  function ScaleOf(x: seq<real>): (s: real)
    ensures s > 0.0
  { Max(MaxAbs(x, |x|), TINY) / 127.0 }

  /** The larger of what the lanes and the first m of them hold. */
  function LaneMax(v: seq<real>, m: nat): real
    requires m <= |v|
  {
    if m == 0 then 0.0 else Max(LaneMax(v, m - 1), v[m - 1])
  }

  lemma {:induction false} LaneMaxBounds(v: seq<real>, m: nat, top: real)
    requires m <= |v| && top >= 0.0 && forall j :: 0 <= j < |v| ==> v[j] <= top
    ensures 0.0 <= LaneMax(v, m) <= top && forall j :: 0 <= j < m ==> v[j] <= LaneMax(v, m)
    decreases m
  {
    if m > 0 { LaneMaxBounds(v, m - 1, top); }
  }

  /** `max_abs`: eight lane maxima over the blocks, their maximum, then the rest one by one. */
  method RowMax(x: seq<real>) returns (maxAbs: real)
    ensures maxAbs == MaxAbs(x, |x|)
  {
    hide MaxAbs, LaneMax;
    var v := seq(8, j => 0.0);
    var i := 0;
    MaxAbsStep(x);
    while i + 7 < |x|
      invariant 0 <= i <= |x| && i % 8 == 0 && |v| == 8
      invariant forall j :: 0 <= j < 8 ==> 0.0 <= v[j] <= MaxAbs(x, i)
      invariant forall k :: 0 <= k < i ==> Abs(x[k]) <= v[k % 8]
    {
      v := BlockMax(x, i, v);
      i := i + 8;
    }
    maxAbs := LaneMax(v, 8);
    LanesCover(x, v, i);
    while i < |x|
      invariant 0 <= i <= |x| && maxAbs == MaxAbs(x, i)
    {
      maxAbs := Max(maxAbs, Abs(x[i]));
      i := i + 1;
    }
  }

  lemma MaxAbsStep(x: seq<real>)
    ensures MaxAbs(x, 0) == 0.0 && forall n :: 0 <= n < |x| ==> MaxAbs(x, n + 1) == Max(MaxAbs(x, n), Abs(x[n]))
  {
  }

  lemma LanesCover(x: seq<real>, v: seq<real>, i: nat)
    requires i <= |x| && |v| == 8 && forall j :: 0 <= j < 8 ==> 0.0 <= v[j] <= MaxAbs(x, i)
    requires forall k :: 0 <= k < i ==> Abs(x[k]) <= v[k % 8]
    ensures LaneMax(v, 8) == MaxAbs(x, i)
  {
    hide MaxAbs, LaneMax;
    LaneMaxBounds(v, 8, MaxAbs(x, i));
    MaxAbsIs(x, i, LaneMax(v, 8));
  }

  /** _mm256_max_ps of the lanes and the magnitudes of the next eight entries. */
  method BlockMax(x: seq<real>, i: nat, v: seq<real>) returns (w: seq<real>)
    requires i + 8 <= |x| && i % 8 == 0 && |v| == 8
    requires forall j :: 0 <= j < 8 ==> 0.0 <= v[j] <= MaxAbs(x, i)
    requires forall k :: 0 <= k < i ==> Abs(x[k]) <= v[k % 8]
    ensures |w| == 8 && forall j :: 0 <= j < 8 ==> 0.0 <= w[j] <= MaxAbs(x, i + 8)
    ensures forall k :: 0 <= k < i + 8 ==> Abs(x[k]) <= w[k % 8]
  {
    hide MaxAbs;
    w := seq(8, j requires 0 <= j < 8 => Max(v[j], Abs(x[i + j])));
    MaxAbsGrows(x, i, i + 8);
    forall j | 0 <= j < 8 ensures 0.0 <= w[j] <= MaxAbs(x, i + 8) {}
    forall k | 0 <= k < i + 8 ensures Abs(x[k]) <= w[k % 8] {
      if k < i { assert v[k % 8] <= w[k % 8]; } else { LaneOf(i, k); }
    }
  }

  lemma LaneOf(i: nat, k: nat)
    requires i % 8 == 0 && i <= k < i + 8
    ensures k % 8 == k - i
  {
  }

  lemma {:induction false} MaxAbsGrows(x: seq<real>, a: nat, b: nat)
    requires a <= b <= |x|
    ensures MaxAbs(x, a) <= MaxAbs(x, b)
    decreases b
  {
    if a < b { MaxAbsGrows(x, a, b - 1); }
  }

  lemma {:induction false} MaxAbsLeast(x: seq<real>, n: nat, m: real)
    requires n <= |x| && m >= 0.0 && forall k :: 0 <= k < n ==> Abs(x[k]) <= m
    ensures MaxAbs(x, n) <= m
    decreases n
  {
    if n > 0 { MaxAbsLeast(x, n - 1, m); }
  }

  lemma MaxAbsIs(x: seq<real>, n: nat, m: real)
    requires n <= |x| && 0.0 <= m <= MaxAbs(x, n) && forall k :: 0 <= k < n ==> Abs(x[k]) <= m
    ensures m == MaxAbs(x, n)
  {
    MaxAbsLeast(x, n, m);
  }

  lemma RoundIsNear(x: real)
    ensures Within(Round(x) as real - x, 0.5)
    ensures Within(x, 127.0) ==> -127 <= Round(x) <= 127
  {
  }

  /** The nearest integer, and of two equally near the even one. */
  lemma RoundsExactly(x: real, q: int)
    ensures q == Round(x) <==>
      Within(q as real - x, 0.5) && (q as real - x == 0.5 || q as real - x == -0.5 ==> q % 2 == 0)
  {
    var f := x.Floor;
    if Within(q as real - x, 0.5) { assert q == f || q == f + 1; }
  }

  /** 127 scales are the largest magnitude of the row, or the least one allowed. */
  lemma ScaleExactly(x: seq<real>, s: real)
    ensures s == ScaleOf(x) <==>
      && 127.0 * s >= TINY && (forall k :: 0 <= k < |x| ==> Abs(x[k]) <= 127.0 * s)
      && (127.0 * s == TINY || exists k :: 0 <= k < |x| && Abs(x[k]) == 127.0 * s)
  {
    var m := MaxAbs(x, |x|);
    if m > 0.0 { var k := MaxAbsReached(x, |x|); }
    hide MaxAbs;
    if 127.0 * s >= TINY && forall k :: 0 <= k < |x| ==> Abs(x[k]) <= 127.0 * s { MaxAbsLeast(x, |x|, 127.0 * s); }
  }

  lemma {:induction false} MaxAbsReached(x: seq<real>, n: nat) returns (k: nat)
    requires n <= |x| && MaxAbs(x, n) > 0.0
    ensures k < n && Abs(x[k]) == MaxAbs(x, n)
  {
    if MaxAbs(x, n) == Abs(x[n - 1]) { k := n - 1; } else { k := MaxAbsReached(x, n - 1); }
  }

  /** Dividing by the scale brings every entry into [-127, 127]. */
  lemma ScaleCovers(x: seq<real>, k: nat)
    requires k < |x|
    ensures var y := Mul(x[k], 1.0 / ScaleOf(x)); Within(y, 127.0) && x[k] == Mul(ScaleOf(x), y)
  {
    hide Mul;
    var s := ScaleOf(x);
    var inv := 1.0 / s;
    Inverse(s);
    assert Within(x[k], 127.0 * s);
    MulWithin(x[k], 127.0 * s, inv);
    ConstantOut(s, inv);
    MulGroup(s, inv, x[k]);
    MulGroup(x[k], inv, s);
    OneTimes(x[k]);
  }

  lemma Inverse(s: real)
    requires s > 0.0
    ensures 1.0 / s > 0.0 && Mul(s, 1.0 / s) == 1.0
  {
  }

  lemma ConstantOut(s: real, c: real)
    ensures Mul(127.0 * s, c) == 127.0 * Mul(s, c)
  {
  }

  lemma OneTimes(x: real)
    ensures Mul(1.0, x) == x == Mul(x, 1.0)
  {
  }

  /** Each entry is the nearest multiple of the scale: the clamp never acts, and the error is at
      most half the scale. */
  ghost predicate NearestMultiples(x: seq<real>, r: Quantized) {
    && |r.q| == |x| && r.scale == ScaleOf(x)
    && forall k :: 0 <= k < |x| ==>
         IsNearest(x, k, r.q[k], r.scale)
  }

  predicate IsNearest(x: seq<real>, k: nat, q: int, s: real)
    requires k < |x|
  {
    s > 0.0 && q == Round(Mul(x[k], 1.0 / s)) && -127 <= q <= 127 && Within(Mul(s, q as real) - x[k], s / 2.0)
  }

  lemma EntryIsNearest(x: seq<real>, k: nat)
    requires k < |x|
    ensures var s := ScaleOf(x); var q := Round(Mul(x[k], 1.0 / s));
            IsNearest(x, k, q, s) && Clamp(q) == q
  {
    hide Round, ScaleOf, Mul;
    var s := ScaleOf(x);
    var y := Mul(x[k], 1.0 / s);
    ScaleCovers(x, k);
    RoundIsNear(y);
    NearScaled(s, Round(y) as real, y, x[k]);
  }

  lemma NearScaled(s: real, q: real, y: real, x: real)
    requires s > 0.0 && Within(q - y, 0.5) && x == Mul(s, y)
    ensures Within(Mul(s, q) - x, s / 2.0)
  {
    MulSplit(s, q, y);
    MulWithin(q - y, 0.5, s);
    assert Mul(s, 0.5) == s / 2.0;
    hide Mul;
  }

  method QuantizeRow(x: seq<real>) returns (r: Quantized)
    ensures NearestMultiples(x, r)
  {
    hide Round, ScaleOf, Mul;
    var maxAbs := RowMax(x);
    var scale := Max(maxAbs, TINY) / 127.0;
    ScaleIs(x, maxAbs);
    var inv := 1.0 / scale;
    var q: seq<int> := [];
    for i := 0 to |x|
      invariant |q| == i
      invariant forall k :: 0 <= k < i ==> IsNearest(x, k, q[k], scale)
    {
      EntryIsNearest(x, i);
      q := q + [Clamp(Round(Mul(x[i], inv)))];
    }
    r := Quantized(q, scale);
  }

  lemma ScaleIs(x: seq<real>, m: real)
    requires m == MaxAbs(x, |x|)
    ensures ScaleOf(x) == Max(m, TINY) / 127.0 && Max(m, TINY) > 0.0
  {
  }

  // ----- the error of a dot product -----

  function RealDot(x: seq<real>, w: seq<int>, n: nat): real
    requires n <= |x| == |w|
  {
    if n == 0 then 0.0 else RealDot(x, w, n - 1) + Mul(x[n - 1], w[n - 1] as real)
  }

  function IntDot(q: seq<int>, w: seq<int>, n: nat): int
    requires n <= |q| == |w|
  {
    if n == 0 then 0 else IntDot(q, w, n - 1) + q[n - 1] * w[n - 1]
  }

  lemma {:induction false} ScaledDot(q: seq<int>, w: seq<int>, x: seq<real>, s: real, n: nat)
    requires n <= |q| == |w| == |x| && s > 0.0
    requires forall k :: 0 <= k < |w| ==> -127 <= w[k] <= 127 && Within(Mul(s, q[k] as real) - x[k], s / 2.0)
    ensures Within(Mul(s, IntDot(q, w, n) as real) - RealDot(x, w, n), Mul(n as real, 127.0 * (s / 2.0)))
    decreases n
  {
    hide Mul, Within;
    if n > 0 {
      ScaledDot(q, w, x, s, n - 1);
      DotStep(s, q[n - 1], w[n - 1], x[n - 1], IntDot(q, w, n - 1), RealDot(x, w, n - 1), (n - 1) as real);
      assert (n - 1) as real + 1.0 == n as real;
    } else {
      NoDot(s);
    }
  }

  lemma NoDot(s: real)
    ensures Within(Mul(s, 0 as real) - 0.0, Mul(0 as real, 127.0 * (s / 2.0)))
  {
  }

  /** One more product adds at most 127 half-scales of error. */
  lemma DotStep(s: real, q: int, w: int, x: real, i: int, r: real, n: real)
    requires s > 0.0 && -127 <= w <= 127 && Within(Mul(s, q as real) - x, s / 2.0)
    requires Within(Mul(s, i as real) - r, Mul(n, 127.0 * (s / 2.0)))
    ensures Within(Mul(s, (i + q * w) as real) - (r + Mul(x, w as real)), Mul(n + 1.0, 127.0 * (s / 2.0)))
  {
    hide Mul;
    var e, c := Mul(s, q as real) - x, w as real;
    ErrorTimesWeight(e, s / 2.0, c);
    ProductCast(i, q, w);
    MulSplit(s, i as real, Mul(q as real, c));
    MulGroup(s, q as real, c);
    MulSplit(c, Mul(s, q as real), x);
    MulSplit(127.0 * (s / 2.0), n, 1.0);
    OneTimes(127.0 * (s / 2.0));
  }

  lemma ErrorTimesWeight(e: real, top: real, c: real)
    requires Within(e, top) && Within(c, 127.0)
    ensures Within(Mul(e, c), 127.0 * top)
  {
    hide Mul;
    if c >= 0.0 { ErrorTimesSize(e, top, c); } else { ErrorTimesSize(e, top, -c); NegateFactor(e, c); }
  }

  lemma NegateFactor(e: real, c: real)
    ensures Mul(e, -c) == -Mul(e, c)
  {
  }

  lemma ErrorTimesSize(e: real, top: real, c: real)
    requires Within(e, top) && 0.0 <= c <= 127.0
    ensures Within(Mul(e, c), 127.0 * top)
  {
    MulWithin(e, top, c);
    MulWithin(c, 127.0, top);
    assert Mul(127.0, top) == 127.0 * top;
    MulGroup(top, c, 1.0);
  }

  lemma ProductCast(i: int, q: int, w: int)
    ensures (i + q * w) as real == i as real + Mul(q as real, w as real)
  {
    assert (q * w) as real == q as real * w as real;
    assert (i + q * w) as real == i as real + (q * w) as real;
  }

  /** The integer dot i, scaled by s and t, against the real dot d, scaled by t, over n entries. */
  predicate Near(s: real, t: real, i: real, d: real, n: real) {
    Within(s * t * i - t * d, n * 127.0 * s * t / 2.0)
  }

  /** The dequantized integer dot is within n * 127 * s * t / 2 of the true dot with weights t * w. */
  lemma DequantizedDotIsNear(x: seq<real>, r: Quantized, w: seq<int>, t: real)
    requires NearestMultiples(x, r) && |w| == |x| && t >= 0.0
    requires forall k :: 0 <= k < |w| ==> -127 <= w[k] <= 127
    ensures Near(r.scale, t, IntDot(r.q, w, |x|) as real, RealDot(x, w, |x|), |x| as real)
  {
    hide ScaleOf, Round, Mul, Near, Within;
    var i, d, n := IntDot(r.q, w, |x|) as real, RealDot(x, w, |x|), |x| as real;
    assert forall k :: 0 <= k < |w| ==> IsNearest(x, k, r.q[k], r.scale);
    ScaledDot(r.q, w, x, r.scale, |x|);
    MulWithin(Mul(r.scale, i) - d, Mul(n, 127.0 * (r.scale / 2.0)), t);
    Regrouped(r.scale, t, i, d, n);
  }

  lemma Regrouped(s: real, t: real, i: real, d: real, n: real)
    requires Within(Mul(Mul(s, i) - d, t), Mul(Mul(n, 127.0 * (s / 2.0)), t))
    ensures Near(s, t, i, d, n)
  {
    hide Mul;
    Distribute(s, t, i, d);
    Reorder(n, s, t);
  }

  lemma Distribute(s: real, t: real, i: real, x: real)
    ensures Mul(Mul(s, i) - x, t) == s * t * i - t * x
  {
  }

  lemma Reorder(n: real, s: real, t: real)
    ensures Mul(Mul(n, 127.0 * (s / 2.0)), t) == n * 127.0 * s * t / 2.0
  {
    var h := s / 2.0;
    assert s == 2.0 * h;
    assert n * (127.0 * h) * t == 127.0 * (n * h * t);
    assert n * 127.0 * (2.0 * h) * t == 254.0 * (n * h * t);
  }
}
