/** The two NumPy routines the alignment is built from, on exact reals:
    `numpy.linspace(start, stop, num)` and `numpy.interp(x, xp, fp)`. */
module Numeric {

  predicate NonDecreasing(xs: seq<real>) {
    forall i, j :: 0 <= i < j < |xs| ==> xs[i] <= xs[j]
  }

  predicate StrictlyIncreasing(xs: seq<real>) {
    forall i, j :: 0 <= i < j < |xs| ==> xs[i] < xs[j]
  }

  predicate StrictlyDecreasing(xs: seq<real>) {
    forall i, j :: 0 <= i < j < |xs| ==> xs[i] > xs[j]
  }

  /** The distance between consecutive points of a `num`-point linspace. */
  function Step(start: real, stop: real, num: nat): real
    requires num >= 2
  {
    (stop - start) / ((num - 1) as real)
  }

  /** `numpy.linspace(start, stop, num)` with its default `endpoint=True`:
      no point for `num == 0`, just `start` for `num == 1`, otherwise
      `start + i * step`. Nothing requires `start <= stop`. */
  function Linspace(start: real, stop: real, num: nat): (r: seq<real>)
    ensures |r| == num
    ensures num >= 1 ==> r[0] == start
  {
    if num < 2 then seq(num, i requires 0 <= i < num => start)
    else seq(num, i requires 0 <= i < num => start + (i as real) * Step(start, stop, num))
  }

  /** A linspace of two or more points starts exactly at `start`, ends
      exactly at `stop`, and consecutive points are one step apart. */
  lemma LinspaceShape(start: real, stop: real, num: nat)
    requires num >= 2
    ensures Linspace(start, stop, num)[0] == start
    ensures Linspace(start, stop, num)[num - 1] == stop
    ensures forall i :: 0 <= i < num - 1 ==>
      Linspace(start, stop, num)[i + 1] - Linspace(start, stop, num)[i] == Step(start, stop, num)
  {
    var r := Linspace(start, stop, num);
    var n := (num - 1) as real;
    DivCancel(stop - start, n);
    assert r[num - 1] == start + n * Step(start, stop, num);
    forall i | 0 <= i < num - 1 ensures r[i + 1] - r[i] == Step(start, stop, num) {
      assert ((i + 1) as real) * Step(start, stop, num) == (i as real) * Step(start, stop, num) + Step(start, stop, num);
    }
  }

  lemma DivCancel(a: real, n: real)
    requires n > 0.0
    ensures n * (a / n) == a
  {
  }

  /** A proper fraction of a positive number lies in [0, 1). */
  lemma FractionBelowOne(a: real, b: real)
    requires 0.0 <= a < b
    ensures 0.0 <= a / b < 1.0
  {
    var q := a / b;
    DivCancel(a, b);
    if q >= 1.0 {
      MulMonotone(1.0, q, b);
    }
    if q < 0.0 {
      MulMonotone(q, 0.0, b);
    }
  }

  /** For a single point, the axis is that point. */
  lemma LinspaceSingle(start: real, stop: real)
    ensures Linspace(start, stop, 1) == [start]
  {
  }

  lemma MulMonotone(a: real, b: real, c: real)
    requires a <= b && c >= 0.0
    ensures a * c <= b * c
  {
  }

  /** A linspace over an ordered window stays inside it and never goes down;
      with `start < stop` it strictly increases. */
  lemma LinspaceWithin(start: real, stop: real, num: nat)
    requires start <= stop
    ensures forall i :: 0 <= i < num ==> start <= Linspace(start, stop, num)[i] <= stop
    ensures NonDecreasing(Linspace(start, stop, num))
    ensures start < stop ==> StrictlyIncreasing(Linspace(start, stop, num))
  {
    if num >= 2 {
      var r := Linspace(start, stop, num);
      var s := Step(start, stop, num);
      StepSign(start, stop, num);
      forall i | 0 <= i < num ensures start <= r[i] <= stop {
        PointInWindow(start, stop, num, i);
      }
      forall i, j | 0 <= i < j < num ensures r[i] <= r[j] && (start < stop ==> r[i] < r[j]) {
        PointsOrdered(start, stop, num, i, j);
      }
    }
  }

  /** The step has the sign of `stop - start`. */
  lemma StepSign(start: real, stop: real, num: nat)
    requires num >= 2
    ensures start <= stop ==> Step(start, stop, num) >= 0.0
    ensures start < stop ==> Step(start, stop, num) > 0.0
    ensures start > stop ==> Step(start, stop, num) < 0.0
  {
    var n := (num - 1) as real;
    var s := Step(start, stop, num);
    DivCancel(stop - start, n);
    if s < 0.0 { MulMonotone(s, 0.0, n); }
    if s > 0.0 { MulMonotone(0.0, s, n); }
  }

  lemma PointInWindow(start: real, stop: real, num: nat, i: nat)
    requires num >= 2 && i < num && start <= stop
    ensures start <= Linspace(start, stop, num)[i] <= stop
  {
    var s := Step(start, stop, num);
    var n := (num - 1) as real;
    StepSign(start, stop, num);
    DivCancel(stop - start, n);
    assert Linspace(start, stop, num)[i] == start + (i as real) * s;
    OffsetWithin(start, stop, i as real, n, s);
  }

  /** `start + k * s` stays in the window when `n` steps of `s` span it and `0 <= k <= n`. */
  lemma OffsetWithin(start: real, stop: real, k: real, n: real, s: real)
    requires 0.0 <= k <= n && s >= 0.0
    requires n * s == stop - start
    ensures start <= start + k * s <= stop
  {
    MulMonotone(0.0, k, s);
    MulMonotone(k, n, s);
  }

  lemma PointsOrdered(start: real, stop: real, num: nat, i: nat, j: nat)
    requires num >= 2 && i < j < num && start <= stop
    ensures Linspace(start, stop, num)[i] <= Linspace(start, stop, num)[j]
    ensures start < stop ==> Linspace(start, stop, num)[i] < Linspace(start, stop, num)[j]
  {
    var s := Step(start, stop, num);
    StepSign(start, stop, num);
    StepsOrdered(i as real, j as real, s);
  }

  lemma StepsOrdered(i: real, j: real, s: real)
    requires i < j && s >= 0.0
    ensures i * s <= j * s
    ensures s > 0.0 ==> i * s < j * s
  {
    MulMonotone(i, j, s);
    if s > 0.0 {
      assert j * s - i * s == (j - i) * s;
      assert (j - i) * s > 0.0;
    }
  }

  /** Over an inverted window (`start > stop`) the axis strictly decreases:
      no error is raised, the points simply run backwards. */
  lemma LinspaceInverted(start: real, stop: real, num: nat)
    requires start > stop
    ensures StrictlyDecreasing(Linspace(start, stop, num))
  {
    if num >= 2 {
      var r := Linspace(start, stop, num);
      var s := Step(start, stop, num);
      StepSign(start, stop, num);
      forall i, j | 0 <= i < j < num ensures r[i] > r[j] {
        assert r[i] == start + (i as real) * s && r[j] == start + (j as real) * s;
        StepsDescend(i as real, j as real, s);
      }
    }
  }

  lemma StepsDescend(i: real, j: real, s: real)
    requires i < j && s < 0.0
    ensures j * s < i * s
  {
    StepsOrdered(i, j, -s);
    assert i * -s == -(i * s) && j * -s == -(j * s);
  }

  /** The linear blend `numpy.interp` uses between two bracketing knots. */
  function Blend(x0: real, x1: real, f0: real, f1: real, x: real): real
    requires x0 < x1
  {
    (f1 - f0) / (x1 - x0) * (x - x0) + f0
  }

  /** `numpy.interp(x, xp, fp)` with its default `left=fp[0]`,
      `right=fp[-1]`: below the first knot the first value, from the last
      knot on the last value, otherwise the blend between the last knot at
      or below `x` and the next one. */
  function Interp(xp: seq<real>, fp: seq<real>, x: real): (r: real)
    requires |xp| == |fp| > 0
    ensures MinOf(fp) <= r <= MaxOf(fp)
    decreases |xp|
  {
    if |xp| == 1 || x < xp[0] then fp[0]
    else if x < xp[1] then
      BlendBetween(xp[0], xp[1], fp[0], fp[1], x);
      assert MinOf(fp) <= fp[0] && MinOf(fp) <= fp[1];
      assert fp[0] <= MaxOf(fp) && fp[1] <= MaxOf(fp);
      Blend(xp[0], xp[1], fp[0], fp[1], x)
    else
      var r := Interp(xp[1..], fp[1..], x);
      var i :| 0 <= i < |fp[1..]| && fp[1..][i] == MinOf(fp[1..]);
      var j :| 0 <= j < |fp[1..]| && fp[1..][j] == MaxOf(fp[1..]);
      assert fp[i + 1] == MinOf(fp[1..]) && fp[j + 1] == MaxOf(fp[1..]);
      r
  }

  /** Outside the knots the result is clamped to the boundary values,
      never extrapolated. */
  lemma {:induction false} InterpClamped(xp: seq<real>, fp: seq<real>, x: real)
    requires |xp| == |fp| > 0
    requires NonDecreasing(xp)
    ensures x < xp[0] ==> Interp(xp, fp, x) == fp[0]
    ensures x >= xp[|xp| - 1] ==> Interp(xp, fp, x) == fp[|fp| - 1]
    decreases |xp|
  {
    if |xp| > 1 && x >= xp[|xp| - 1] {
      assert xp[0] <= xp[1] <= xp[|xp| - 1];
      InterpClamped(xp[1..], fp[1..], x);
    }
  }

  /** Between two consecutive knots the result is the linear blend of their values. */
  lemma {:induction false} InterpBetweenKnots(xp: seq<real>, fp: seq<real>, k: nat, x: real)
    requires |xp| == |fp| && k + 1 < |xp|
    requires NonDecreasing(xp)
    requires xp[k] <= x < xp[k + 1]
    ensures Interp(xp, fp, x) == Blend(xp[k], xp[k + 1], fp[k], fp[k + 1], x)
    decreases k
  {
    if k > 0 {
      assert xp[0] <= xp[1] <= xp[k];
      InterpBetweenKnots(xp[1..], fp[1..], k - 1, x);
    }
  }

  /** At one of its own knots the result is exactly that knot's value. */
  lemma InterpAtKnot(xp: seq<real>, fp: seq<real>, k: nat)
    requires |xp| == |fp| && k < |xp|
    requires StrictlyIncreasing(xp)
    ensures Interp(xp, fp, xp[k]) == fp[k]
  {
    if k == |xp| - 1 {
      InterpClamped(xp, fp, xp[k]);
    } else {
      InterpBetweenKnots(xp, fp, k, xp[k]);
    }
  }

  function MinOf(s: seq<real>): (m: real)
    requires |s| > 0
    ensures forall i :: 0 <= i < |s| ==> m <= s[i]
    ensures exists i :: 0 <= i < |s| && s[i] == m
  {
    if |s| == 1 then s[0]
    else
      var rest := MinOf(s[1..]);
      assert exists i :: 1 <= i < |s| && s[i] == rest by {
        var j :| 0 <= j < |s[1..]| && s[1..][j] == rest;
        assert s[j + 1] == rest;
      }
      if s[0] <= rest then s[0] else rest
  }

  function MaxOf(s: seq<real>): (m: real)
    requires |s| > 0
    ensures forall i :: 0 <= i < |s| ==> s[i] <= m
    ensures exists i :: 0 <= i < |s| && s[i] == m
  {
    if |s| == 1 then s[0]
    else
      var rest := MaxOf(s[1..]);
      assert exists i :: 1 <= i < |s| && s[i] == rest by {
        var j :| 0 <= j < |s[1..]| && s[1..][j] == rest;
        assert s[j + 1] == rest;
      }
      if s[0] >= rest then s[0] else rest
  }

  /** A blend between two knots lies between their two values. */
  lemma BlendBetween(x0: real, x1: real, f0: real, f1: real, x: real)
    requires x0 <= x < x1
    ensures f0 <= f1 ==> f0 <= Blend(x0, x1, f0, f1, x) <= f1
    ensures f1 <= f0 ==> f1 <= Blend(x0, x1, f0, f1, x) <= f0
  {
    var w := (x - x0) / (x1 - x0);
    FractionBelowOne(x - x0, x1 - x0);
    BlendAsWeight(x0, x1, f0, f1, x);
    if f0 <= f1 {
      ConvexUp(f0, f1, w);
    }
    if f1 <= f0 {
      ConvexDown(f0, f1, w);
    }
  }

  /** The blend is `f0` moved towards `f1` by the fraction of the interval covered. */
  lemma BlendAsWeight(x0: real, x1: real, f0: real, f1: real, x: real)
    requires x0 < x1
    ensures Blend(x0, x1, f0, f1, x) == (f1 - f0) * ((x - x0) / (x1 - x0)) + f0
  {
    DivCancel(x - x0, x1 - x0);
    DivCancel(f1 - f0, x1 - x0);
  }

  /** `f0 + w * (f1 - f0)` for a weight in [0, 1] lies between `f0` and a larger `f1`. */
  lemma ConvexUp(f0: real, f1: real, w: real)
    requires 0.0 <= w <= 1.0 && f0 <= f1
    ensures f0 <= (f1 - f0) * w + f0 <= f1
  {
    MulLeft(f1 - f0, 0.0, w);
    MulLeft(f1 - f0, w, 1.0);
  }

  /** `f0 + w * (f1 - f0)` for a weight in [0, 1] lies between `f0` and a smaller `f1`. */
  lemma ConvexDown(f0: real, f1: real, w: real)
    requires 0.0 <= w <= 1.0 && f1 <= f0
    ensures f1 <= (f1 - f0) * w + f0 <= f0
  {
    MulLeftNegative(f1 - f0, 0.0, w);
    MulLeftNegative(f1 - f0, w, 1.0);
  }

  lemma MulLeft(c: real, a: real, b: real)
    requires a <= b && c >= 0.0
    ensures c * a <= c * b
  {
  }

  lemma MulLeftNegative(c: real, a: real, b: real)
    requires a <= b && c <= 0.0
    ensures c * b <= c * a
  {
  }
}
