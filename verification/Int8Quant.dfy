/**
  The reference quantiser: every row is scaled and rounded to a few bits, symmetrically or
  with a zero point.  Arithmetic is exact; casts to an integer type are checked.
 */
module Int8Quant {

  /** torch.round: to the nearest integer, ties to the even one (section 4.3.1 of IEEE
      754-2019). */
  function Round(x: real): int {
    var f := x.Floor;
    var d := x - f as real;
    if d < 0.5 then f else if d > 0.5 then f + 1 else if f % 2 == 0 then f else f + 1
  }

  function Pow2(n: nat): (r: int)
    ensures r >= 1 && (n > 0 ==> r % 2 == 0)
  {
    if n == 0 then 1 else 2 * Pow2(n - 1)
  }

  function AbsReal(x: real): real {
    if x < 0.0 then -x else x
  }

  function MaxReal(a: real, b: real): real {
    if a < b then b else a
  }

  function Lowest(row: seq<real>): (r: real)
    requires row != []
    ensures r in row && forall i :: 0 <= i < |row| ==> r <= row[i]
  {
    if |row| == 1 then row[0]
    else
      var rest := Lowest(row[1..]);
      assert forall i :: 1 <= i < |row| ==> row[i] == row[1..][i - 1];
      if row[0] < rest then row[0] else rest
  }

  function Highest(row: seq<real>): (r: real)
    requires row != []
    ensures r in row && forall i :: 0 <= i < |row| ==> row[i] <= r
  {
    if |row| == 1 then row[0]
    else
      var rest := Highest(row[1..]);
      assert forall i :: 1 <= i < |row| ==> row[i] == row[1..][i - 1];
      if rest < row[0] then row[0] else rest
  }

  function Clamp(x: int, lo: int, hi: int): int {
    if x < lo then lo else if x > hi then hi else x
  }

  // ----- the quantiser -------------------------------------------------------------

  const LEAST_SCALE := 0.00001

  function QMin(symmetric: bool, bits: nat): int
    requires bits > 0
  {
    if symmetric then -Pow2(bits - 1) else 0
  }

  function QMax(symmetric: bool, bits: nat): int
    requires bits > 0
  {
    if symmetric then Pow2(bits - 1) - 1 else Pow2(bits) - 1
  }

  /** What the steps of the quantiser have to cover. */
  function Extent(row: seq<real>, symmetric: bool): real
    requires row != []
  {
    if symmetric then MaxReal(AbsReal(Lowest(row)), AbsReal(Highest(row))) else Highest(row) - Lowest(row)
  }

  /** The width of a step, when the largest number of steps has to cover the extent. */
  function ScaleFor(extent: real, qmax: int): (scale: real)
    requires qmax > 0
    ensures scale >= LEAST_SCALE
  {
    MaxReal(extent / qmax as real, LEAST_SCALE)
  }

  function ScaleOf(row: seq<real>, symmetric: bool, bits: nat): real
    requires row != [] && bits > 0 && QMax(symmetric, bits) > 0
  {
    ScaleFor(Extent(row, symmetric), QMax(symmetric, bits))
  }

  /** The number of steps to a value, from the zero point. */
  function StepsTo(x: real, scale: real, zeroPoint: int): int
    requires scale > 0.0
  {
    Round(x / scale + zeroPoint as real)
  }

  function ZeroPointOf(row: seq<real>, symmetric: bool, scale: real): int
    requires row != [] && scale > 0.0
  {
    if symmetric then 0 else -StepsTo(Lowest(row), scale, 0)
  }

  function QuantiseOne(x: real, scale: real, zeroPoint: int, symmetric: bool, bits: nat): int
    requires scale > 0.0 && bits > 0
  {
    Clamp(StepsTo(x, scale, zeroPoint), QMin(symmetric, bits), QMax(symmetric, bits))
  }

  predicate FitsInt32(x: int) {
    -0x8000_0000 < x < 0x8000_0000
  }

  /** int8 or uint8 */
  predicate FitsByte(x: int, symmetric: bool) {
    if symmetric then -0x80 <= x < 0x80 else 0 <= x < 0x100
  }

  datatype Quantised =
    | Undefined    // a division by zero, or a value out of the range of its integer type
    | Quantised(values: seq<int>, scale: real, zeroPoint: int)

  function Quantise(row: seq<real>, symmetric: bool, bits: nat): Quantised
    requires row != [] && bits > 0
  {
    if QMax(symmetric, bits) == 0 then Undefined
    else
      var scale := ScaleOf(row, symmetric, bits);
      var zeroPoint := ZeroPointOf(row, symmetric, scale);
      var values := seq(|row|, i requires 0 <= i < |row| => QuantiseOne(row[i], scale, zeroPoint, symmetric, bits));
      if FitsInt32(zeroPoint) && forall i :: 0 <= i < |values| ==> FitsByte(values[i], symmetric) then
        Quantised(values, scale, zeroPoint)
      else Undefined
  }

  // ----- rounding ------------------------------------------------------------------

  lemma RoundIsNearest(x: real)
    ensures AbsReal(x - Round(x) as real) <= 0.5
  {
  }

  /** A tie goes to the even integer. */
  lemma TieGoesToEven(x: real, n: int)
    requires x == n as real + 0.5
    ensures Round(x) == if n % 2 == 0 then n else n + 1
  {
    assert x.Floor == n;
  }

  lemma RoundBelow(x: real, n: int)
    requires x <= n as real
    ensures Round(x) <= n
  {
  }

  lemma RoundAbove(x: real, n: int)
    requires n as real <= x
    ensures n <= Round(x)
  {
  }

  /** A value at most half a step outside the range stays within half a step of the clamped
      one.  Below the range not even the tie rounds down, because the limit is even. */
  lemma ClampedIsNear(u: real, hi: int)
    requires hi >= 0 && -0.5 <= u <= hi as real + 0.5
    ensures AbsReal(u - Clamp(Round(u), 0, hi) as real) <= 0.5 && Round(u) >= 0
  {
    RoundIsNearest(u);
    assert u.Floor >= -1;
  }

  // ----- scaling -------------------------------------------------------------------

  lemma ScaleCovers(extent: real, qmax: int)
    requires extent >= 0.0 && qmax > 0
    ensures extent / ScaleFor(extent, qmax) <= qmax as real
  {
    var q, scale := qmax as real, ScaleFor(extent, qmax);
    assert scale >= extent / q;
    assert extent / q * q == extent;
    MulMonotone(extent / q, scale, q);
    DivAtMost(extent, scale, q);
  }

  lemma MulMonotone(a: real, b: real, c: real)
    requires a <= b && c >= 0.0
    ensures a * c <= b * c
  {
  }

  lemma DivAtMost(x: real, s: real, q: real)
    requires s > 0.0 && x <= s * q
    ensures x / s <= q
  {
    var y := x / s;
    assert y * s == x;
    if y > q {
      MulStrict(q, y, s);
    }
  }

  lemma MulStrict(a: real, b: real, c: real)
    requires a < b && c > 0.0
    ensures a * c < b * c
  {
  }

  lemma DivMonotone(a: real, b: real, s: real)
    requires a <= b && s > 0.0
    ensures a / s <= b / s
  {
    assert b == (b / s) * s;
    DivAtMost(a, s, b / s);
  }

  lemma DivDifference(a: real, b: real, s: real)
    requires s > 0.0
    ensures (a - b) / s == a / s - b / s && (-a) / s == -(a / s)
  {
  }

  /** n steps of the scale are within half a scale of x. */
  ghost predicate Within(x: real, scale: real, n: int) {
    AbsReal(x - scale * n as real) <= scale / 2.0
  }

  /** Half a step of the quotient is half a scale of the value. */
  lemma HalfAStep(x: real, s: real, n: int)
    requires s > 0.0 && AbsReal(x / s - n as real) <= 0.5
    ensures Within(x, s, n)
  {
    var e := x / s - n as real;
    assert x == (x / s) * s;
    assert e * s == x - s * n as real;
    MulMonotone(e, 0.5, s);
    MulMonotone(-0.5, e, s);
  }

  // ----- error bounds --------------------------------------------------------------

  lemma AbsAtMost(x: real, lo: real, hi: real)
    requires lo <= x <= hi
    ensures AbsReal(x) <= MaxReal(AbsReal(lo), AbsReal(hi))
  {
  }

  lemma SymmetricStep(x: real, extent: real, qmax: int)
    requires AbsReal(x) <= extent && qmax > 0
    ensures
      var scale := ScaleFor(extent, qmax);
      -qmax <= StepsTo(x, scale, 0) <= qmax && Within(x, scale, StepsTo(x, scale, 0))
  {
    var scale := ScaleFor(extent, qmax);
    ScaleCovers(extent, qmax);
    DivMonotone(x, extent, scale);
    DivMonotone(-x, extent, scale);
    DivDifference(x, 0.0, scale);
    var u := x / scale;
    assert u + 0.0 == u;
    RoundBelow(u, qmax);
    RoundAbove(u, -qmax);
    RoundIsNearest(u);
    HalfAStep(x, scale, Round(u));
  }

  /** In symmetric mode the rounded value is in range already, and half a scale away at most. */
  lemma SymmetricError(row: seq<real>, bits: nat, i: nat)
    requires row != [] && bits >= 2 && i < |row|
    ensures QMax(true, bits) > 0
    ensures
      var scale := ScaleOf(row, true, bits);
      && QuantiseOne(row[i], scale, 0, true, bits) == StepsTo(row[i], scale, 0)
      && Within(row[i], scale, QuantiseOne(row[i], scale, 0, true, bits))
  {
    PowerAtLeastTwo(bits - 1);
    AbsAtMost(row[i], Lowest(row), Highest(row));
    SymmetricStep(row[i], Extent(row, true), QMax(true, bits));
  }

  lemma PowerAtLeastTwo(n: nat)
    requires n >= 1
    ensures Pow2(n) >= 2
  {
  }

  lemma AsymmetricStep(x: real, lo: real, extent: real, qmax: int)
    requires lo <= x <= lo + extent && qmax > 0
    ensures
      var scale := ScaleFor(extent, qmax);
      var zeroPoint := -StepsTo(lo, scale, 0);
      StepsTo(x, scale, zeroPoint) >= 0 && Within(x, scale, Clamp(StepsTo(x, scale, zeroPoint), 0, qmax) - zeroPoint)
  {
    var scale := ScaleFor(extent, qmax);
    ScaleCovers(extent, qmax);
    assert lo / scale + 0.0 == lo / scale;
    RoundIsNearest(lo / scale);
    DivMonotone(lo, x, scale);
    DivDifference(x, lo, scale);
    DivMonotone(x - lo, extent, scale);
    var zeroPoint := -StepsTo(lo, scale, 0);
    var u := x / scale + zeroPoint as real;
    ClampedIsNear(u, qmax);
    HalfAStep(x, scale, Clamp(Round(u), 0, qmax) - zeroPoint);
  }

  /** With a zero point the error is half a scale at most as well, even where the clamp
      changes the rounded value; it never changes one below the range. */
  lemma AsymmetricError(row: seq<real>, bits: nat, i: nat)
    requires row != [] && bits >= 1 && i < |row|
    ensures QMax(false, bits) > 0
    ensures
      var scale := ScaleOf(row, false, bits);
      var zeroPoint := ZeroPointOf(row, false, scale);
      && StepsTo(row[i], scale, zeroPoint) >= 0
      && Within(row[i], scale, QuantiseOne(row[i], scale, zeroPoint, false, bits) - zeroPoint)
  {
    PowerAtLeastTwo(bits);
    AsymmetricStep(row[i], Lowest(row), Extent(row, false), QMax(false, bits));
  }

  lemma ErrorAt(row: seq<real>, symmetric: bool, bits: nat, i: nat)
    requires row != [] && bits > 0 && QMax(symmetric, bits) > 0 && i < |row|
    ensures
      var scale := ScaleOf(row, symmetric, bits);
      var zeroPoint := ZeroPointOf(row, symmetric, scale);
      Within(row[i], scale, QuantiseOne(row[i], scale, zeroPoint, symmetric, bits) - zeroPoint)
  {
    if symmetric {
      SymmetricError(row, bits, i);
    } else {
      AsymmetricError(row, bits, i);
    }
  }

  /** Whatever the quantiser returns is within half a scale of its input. */
  lemma QuantiseIsAccurate(row: seq<real>, symmetric: bool, bits: nat)
    requires row != [] && bits > 0 && Quantise(row, symmetric, bits).Quantised?
    ensures
      var r := Quantise(row, symmetric, bits);
      && r.scale >= LEAST_SCALE && |r.values| == |row|
      && forall i :: 0 <= i < |row| ==> Within(row[i], r.scale, r.values[i] - r.zeroPoint)
  {
    var r := Quantise(row, symmetric, bits);
    ValueAt(row, symmetric, bits, 0);
    forall i | 0 <= i < |row| ensures Within(row[i], r.scale, r.values[i] - r.zeroPoint) {
      AccurateAt(row, symmetric, bits, i);
    }
  }

  lemma AccurateAt(row: seq<real>, symmetric: bool, bits: nat, i: nat)
    requires row != [] && bits > 0 && Quantise(row, symmetric, bits).Quantised? && i < |row|
    ensures
      var r := Quantise(row, symmetric, bits);
      |r.values| == |row| && Within(row[i], r.scale, r.values[i] - r.zeroPoint)
  {
    ValueAt(row, symmetric, bits, i);
    ErrorAt(row, symmetric, bits, i);
  }

  lemma ValueAt(row: seq<real>, symmetric: bool, bits: nat, i: nat)
    requires row != [] && bits > 0 && Quantise(row, symmetric, bits).Quantised? && i < |row|
    ensures QMax(symmetric, bits) > 0
    ensures
      var r := Quantise(row, symmetric, bits);
      && r.scale == ScaleOf(row, symmetric, bits) && r.zeroPoint == ZeroPointOf(row, symmetric, r.scale)
      && |r.values| == |row| && r.values[i] == QuantiseOne(row[i], r.scale, r.zeroPoint, symmetric, bits)
  {
  }

  // ----- the scale, from the row alone ---------------------------------------------

  /** What the steps have to cover: the largest magnitude, or the largest difference. */
  ghost predicate IsWidth(row: seq<real>, symmetric: bool, w: real) {
    if symmetric then
      (exists i :: 0 <= i < |row| && AbsReal(row[i]) == w) && (forall i :: 0 <= i < |row| ==> AbsReal(row[i]) <= w)
    else
      && (exists i, j :: 0 <= i < |row| && 0 <= j < |row| && row[i] - row[j] == w)
      && (forall i, j :: 0 <= i < |row| && 0 <= j < |row| ==> row[i] - row[j] <= w)
  }

  /** The largest quantised value. */
  function Steps(symmetric: bool, bits: nat): int
    requires bits > 0
  {
    if symmetric then Pow2(bits - 1) - 1 else Pow2(bits) - 1
  }

  lemma WidthIsExtent(row: seq<real>, symmetric: bool, w: real)
    requires row != [] && IsWidth(row, symmetric, w)
    ensures w == Extent(row, symmetric) && w >= 0.0
  {
    var l :| 0 <= l < |row| && row[l] == Lowest(row);
    var h :| 0 <= h < |row| && row[h] == Highest(row);
    if symmetric {
      var i :| 0 <= i < |row| && AbsReal(row[i]) == w;
      AbsAtMost(row[i], Lowest(row), Highest(row));
      assert AbsReal(row[l]) <= w && AbsReal(row[h]) <= w;
    } else {
      var i, j :| 0 <= i < |row| && 0 <= j < |row| && row[i] - row[j] == w;
      assert row[h] - row[l] <= w;
    }
  }

  /** The scale is the width of the row over the number of steps, unless that is too small. */
  lemma ScaleHasWidth(row: seq<real>, symmetric: bool, bits: nat, w: real)
    requires row != [] && bits > 0 && Quantise(row, symmetric, bits).Quantised? && IsWidth(row, symmetric, w)
    ensures Steps(symmetric, bits) > 0
    ensures Quantise(row, symmetric, bits).scale == MaxReal(w / Steps(symmetric, bits) as real, 0.00001)
  {
    ValueAt(row, symmetric, bits, 0);
    WidthIsExtent(row, symmetric, w);
  }

  /** So all the steps together have the width of the row. */
  lemma StepsCoverWidth(row: seq<real>, symmetric: bool, bits: nat, w: real, scale: real, n: real)
    requires row != [] && bits > 0 && Quantise(row, symmetric, bits).Quantised? && IsWidth(row, symmetric, w)
    requires scale == Quantise(row, symmetric, bits).scale > LEAST_SCALE && n == Steps(symmetric, bits) as real
    ensures scale * n == w
  {
    ScaleHasWidth(row, symmetric, bits, w);
    TimesQuotient(w, n, scale);
  }

  lemma TimesQuotient(w: real, n: real, s: real)
    requires n != 0.0 && s == w / n
    ensures s * n == w
  {
  }

  /** The error in terms of the row alone: half of the width of one step. */
  lemma ErrorByWidth(row: seq<real>, symmetric: bool, bits: nat, w: real, i: nat)
    requires row != [] && bits > 0 && Quantise(row, symmetric, bits).Quantised? && IsWidth(row, symmetric, w) && i < |row|
    ensures Steps(symmetric, bits) > 0 && |Quantise(row, symmetric, bits).values| == |row|
    ensures
      var r := Quantise(row, symmetric, bits);
      AbsReal(row[i] - r.scale * (r.values[i] - r.zeroPoint) as real)
        <= MaxReal(w / Steps(symmetric, bits) as real, 0.00001) / 2.0
  {
    ScaleHasWidth(row, symmetric, bits, w);
    AccurateAt(row, symmetric, bits, i);
  }

  lemma DivExact(x: real, s: real, q: real)
    requires s > 0.0 && s * q == x
    ensures x / s == q
  {
    assert x / s * s == x;
    if x / s < q {
      MulStrict(x / s, q, s);
    } else if q < x / s {
      MulStrict(q, x / s, s);
    }
  }

  /** In symmetric mode, unless the scale is at its least, the largest magnitude takes all
      the steps. */
  lemma LargestTakesAllSteps(row: seq<real>, bits: nat, w: real, i: nat)
    requires row != [] && bits > 0 && Quantise(row, true, bits).Quantised? && IsWidth(row, true, w)
    requires i < |row| && AbsReal(row[i]) == w && Quantise(row, true, bits).scale > LEAST_SCALE
    ensures
      var r := Quantise(row, true, bits);
      |r.values| == |row| && r.values[i] == if row[i] < 0.0 then -Steps(true, bits) else Steps(true, bits)
  {
    var r := Quantise(row, true, bits);
    ScaleHasWidth(row, true, bits, w);
    ValueAt(row, true, bits, i);
    AllStepsClamped(row[i], r.scale, bits);
  }

  lemma AllStepsClamped(x: real, s: real, bits: nat)
    requires s > 0.0 && bits > 0 && Steps(true, bits) > 0 && s == AbsReal(x) / Steps(true, bits) as real
    ensures QuantiseOne(x, s, 0, true, bits) == if x < 0.0 then -Steps(true, bits) else Steps(true, bits)
  {
    TimesQuotient(AbsReal(x), Steps(true, bits) as real, s);
    AllSteps(x, s, Steps(true, bits));
  }

  lemma AllSteps(x: real, s: real, n: int)
    requires s > 0.0 && s * n as real == AbsReal(x)
    ensures StepsTo(x, s, 0) == if x < 0.0 then -n else n
  {
    var q := if x < 0.0 then -n else n;
    Negated(s, n as real);
    DivExact(x, s, q as real);
    RoundBelow(q as real, q);
    RoundAbove(q as real, q);
  }

  lemma Negated(a: real, b: real)
    ensures a * (-b) == -(a * b)
  {
  }

  /** With a zero point, the lowest value of a row is always quantised as zero. */
  lemma LowestIsZero(row: seq<real>, bits: nat, i: nat)
    requires row != [] && bits > 0 && Quantise(row, false, bits).Quantised?
    requires i < |row| && forall j :: 0 <= j < |row| ==> row[i] <= row[j]
    ensures
      var r := Quantise(row, false, bits);
      |r.values| == |row| && r.values[i] == 0
  {
    var r := Quantise(row, false, bits);
    ValueAt(row, false, bits, i);
    assert row[i] == Lowest(row);
    var u := row[i] / r.scale;
    assert u + 0.0 == u;
    RoundIsNearest(u);
    assert -0.5 <= u - Round(u) as real <= 0.5;
    NearZero(u - Round(u) as real);
  }

  lemma NearZero(e: real)
    requires -0.5 <= e <= 0.5
    ensures Round(e) == 0
  {
    assert e.Floor == 0 || e.Floor == -1;
  }

  lemma {:induction false} PowerMonotone(m: nat, n: nat)
    requires m <= n
    ensures Pow2(m) <= Pow2(n)
    decreases n
  {
    if m < n {
      PowerMonotone(m, n - 1);
    }
  }

  lemma PowerOfEight()
    ensures Pow2(7) == 0x80 && Pow2(8) == 0x100
  {
    assert Pow2(3) == 8;
    assert Pow2(5) == 32;
    assert Pow2(7) == 128;
  }

  /** For up to eight bits the symmetric quantiser always returns; with a zero point it
      returns exactly when the zero point fits into 32 bits. */
  lemma QuantiseIsDefined(row: seq<real>, symmetric: bool, bits: nat)
    requires row != [] && (if symmetric then 2 else 1) <= bits <= 8
    ensures QMax(symmetric, bits) > 0
    ensures Quantise(row, symmetric, bits).Quantised? <==>
              FitsInt32(ZeroPointOf(row, symmetric, ScaleOf(row, symmetric, bits)))
  {
    PowerAtLeastTwo(if symmetric then bits - 1 else bits);
    PowerMonotone(bits - 1, 7);
    PowerMonotone(bits, 8);
    PowerOfEight();
    if symmetric {
      SymmetricError(row, bits, 0);
    } else {
      AsymmetricError(row, bits, 0);
    }
  }

  /** A row with values on both sides of zero has its zero point within the range. */
  lemma ZeroPointIsInRange(row: seq<real>, bits: nat)
    requires row != [] && bits >= 1 && Lowest(row) <= 0.0 <= Highest(row)
    ensures QMax(false, bits) > 0
    ensures 0 <= ZeroPointOf(row, false, ScaleOf(row, false, bits)) <= QMax(false, bits)
  {
    PowerAtLeastTwo(bits);
    var qmax, lo, extent := QMax(false, bits), Lowest(row), Extent(row, false);
    var scale := ScaleFor(extent, qmax);
    ScaleCovers(extent, qmax);
    DivMonotone(-lo, extent, scale);
    DivMonotone(lo, 0.0, scale);
    DivDifference(lo, 0.0, scale);
    assert lo / scale + 0.0 == lo / scale;
    RoundAbove(lo / scale, -qmax);
    RoundBelow(lo / scale, 0);
  }

  /** So it is always defined for up to eight bits, and zero is recovered exactly. */
  lemma RowAroundZeroIsDefined(row: seq<real>, bits: nat)
    requires row != [] && 1 <= bits <= 8 && Lowest(row) <= 0.0 <= Highest(row)
    ensures
      var r := Quantise(row, false, bits);
      && r.Quantised? && 0 <= r.zeroPoint <= QMax(false, bits) && |r.values| == |row|
      && forall i :: 0 <= i < |row| && row[i] == 0.0 ==> r.values[i] == r.zeroPoint
  {
    ZeroPointIsInRange(row, bits);
    QuantiseIsDefined(row, false, bits);
    PowerMonotone(bits, 8);
    PowerOfEight();
    var r := Quantise(row, false, bits);
    ValueAt(row, false, bits, 0);
    forall i | 0 <= i < |row| && row[i] == 0.0 ensures r.values[i] == r.zeroPoint {
      ValueAt(row, false, bits, i);
      ZeroIsExact(r.scale, r.zeroPoint, bits);
    }
  }

  lemma ZeroIsExact(scale: real, zeroPoint: int, bits: nat)
    requires scale > 0.0 && bits > 0 && 0 <= zeroPoint <= QMax(false, bits)
    ensures QuantiseOne(0.0, scale, zeroPoint, false, bits) == zeroPoint
  {
    assert 0.0 / scale == 0.0;
    RoundBelow(zeroPoint as real, zeroPoint);
    RoundAbove(zeroPoint as real, zeroPoint);
  }

  /** A constant row of a million has its scale at the least value and a zero point that does
      not fit. */
  lemma ZeroPointCanOverflow()
    ensures Quantise([1000000.0], false, 8) == Undefined
  {
    PowerOfEight();
    var scale := ScaleOf([1000000.0], false, 8);
    assert scale == LEAST_SCALE;
    assert 1000000.0 / LEAST_SCALE == 100000000000.0;
    RoundBelow(100000000000.0, 100000000000);
    RoundAbove(100000000000.0, 100000000000);
  }
}
