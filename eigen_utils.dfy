/**
 * eigen/src/utils.cpp: the step planner create_H with a storage stride,
 * the time column create_T and the initial condition create_init_cond.
 */
module EigenUtils {
  import opened Numerics
  import opened HenonHeiles
  import opened StepPlan

  /**
   * create_H(t_0, t_end, h) with SKIP_STORAGE = s. The last step is the
   * IEEE remainder when that is at least 1e-10, and h otherwise; n is
   * ceil((t_end - t_0) / h) + 1; with s = 1 every iteration is stored,
   * otherwise m is n / s (C++ integer division, which the enclosing ceil
   * leaves as it is) plus one or two.
   */
  function CreateH(t0: real, tEnd: real, h: real, s: int): (p: Plan)
    requires 0.0 < h && 1 <= s
    ensures p.stride == s
    ensures p.lastStep == h || Eps <= p.lastStep <= h / 2.0
    ensures t0 <= tEnd ==> 1 <= p.n
    ensures s == 1 ==> p.m == p.n
  {
    var remainder := IeeeRemainder(tEnd - t0, h);
    var lastStep := if remainder >= Eps then remainder else h;
    var ratio := (tEnd - t0) / h;
    var n := Ceil(ratio) + 1;
    NonNegativeRatio(tEnd - t0, h);
    if s == 1 then
      Plan(n, n, 1, lastStep)
    else
      var m := TruncDiv(n, s);
      if remainder >= Eps then
        Plan(n, m + 1, s, lastStep)
      else
        var storageRemainder := IeeeRemainder((n - 1) as real, s as real);
        Plan(n, if storageRemainder >= Eps then m + 2 else m + 1, s, lastStep)
  }

  /**
   * Every column a driver writes lies inside the m columns create_H
   * allocates, and m is within one of the number of columns the loop
   * actually fills.
   */
  lemma CreateHFits(t0: real, tEnd: real, h: real, s: int)
    requires 0.0 < h && 1 <= s && t0 <= tEnd
    ensures var p := CreateH(t0, tEnd, h, s);
      Fits(p) && -1 <= p.m - StoredColumns(p.n, s) <= 1
  {
    var p := CreateH(t0, tEnd, h, s);
    if s != 1 {
      StridedColumns(p.n, s, p.m);
    }
  }

  /** With a stride s >= 2, n / s + 1 or n / s + 2 columns hold the loop's samples, one more or one fewer at most. */
  lemma StridedColumns(n: int, s: int, m: int)
    requires 1 <= n && 2 <= s && (m == n / s + 1 || m == n / s + 2)
    ensures 1 + Interior(n, s) <= m && -1 <= m - StoredColumns(n, s) <= 1
  {
    if n >= 2 {
      DivMonotone(n - 2, n, s);
      DivMonotone(n, n - 2 + s, s);
      DivAddDivisor(n - 2, s);
    }
  }

  /**
   * The iteration count in terms of the remainder r = (t_end - t_0) - k h,
   * k the nearest multiple: n = k + 2 when r > 0 and n = k + 1 otherwise.
   */
  lemma CreateHCount(t0: real, tEnd: real, h: real, s: int)
    requires 0.0 < h && 1 <= s && t0 < tEnd
    ensures var p := CreateH(t0, tEnd, h, s);
      var k := RoundHalfEven((tEnd - t0) / h); var r := IeeeRemainder(tEnd - t0, h);
      && r == (tEnd - t0) - h * k as real
      && (0.0 < r ==> p.n == k + 2 && 0 <= k)
      && (r <= 0.0 ==> p.n == k + 1 && 1 <= k)
      && p.lastStep == (if Eps <= r then r else h)
  {
    var d := tEnd - t0;
    RatioAroundRounding(d, h);
    NonNegativeRatio(d, h);
  }

  /**
   * With t_end > t_0 the schedule never ends before t_end, ends less than
   * one step after it, and ends exactly at t_end only when the remainder is
   * at least 1e-10 or exactly zero: a negative remainder, or a positive one
   * below the tolerance, adds a step past t_end.
   */
  lemma CreateHEndTime(t0: real, tEnd: real, h: real, s: int)
    requires 0.0 < h && 1 <= s && t0 < tEnd
    ensures var p := CreateH(t0, tEnd, h, s); var e := EndTime(t0, h, p.n, p.lastStep);
      var r := IeeeRemainder(tEnd - t0, h);
      && tEnd <= e < tEnd + h
      && (e == tEnd <==> Eps <= r || r == 0.0)
  {
    var p := CreateH(t0, tEnd, h, s);
    CreateHCount(t0, tEnd, h, s);
    var k := RoundHalfEven((tEnd - t0) / h);
    var r := IeeeRemainder(tEnd - t0, h);
    EndAfterRemainder(t0, tEnd, h, k, r, p.n, p.lastStep);
  }

  /** The end time t_0 + (n - 2) h + last_step, worked out from k and r alone. */
  lemma EndAfterRemainder(t0: real, tEnd: real, h: real, k: int, r: real, n: int, lastStep: real)
    requires 0.0 < h && -h / 2.0 <= r <= h / 2.0 && r == (tEnd - t0) - h * k as real
    requires (0.0 < r ==> n == k + 2 && 0 <= k) && (r <= 0.0 ==> n == k + 1 && 1 <= k)
    requires lastStep == if Eps <= r then r else h
    ensures var e := EndTime(t0, h, n, lastStep);
      && tEnd <= e < tEnd + h
      && (e == tEnd <==> Eps <= r || r == 0.0)
  {
    if 0.0 < r {
      EndTimeAfter(t0, h, n, lastStep, k);
    } else {
      EndTimeAfter(t0, h, n, lastStep, k - 1);
      StepOff(k, h);
    }
  }

  /** t_end - t_0 = 1.4, h = 0.3: remainder -0.1, so n = 6 and an end at 1.5. */
  lemma NegativeRemainderExample()
    ensures CreateH(0.0, 1.4, 0.3, 1) == Plan(6, 6, 1, 0.3)
    ensures EndTime(0.0, 0.3, 6, 0.3) == 1.5
  {
    var t := 1.4 / 0.3;
    assert t == 14.0 / 3.0;
    assert t.Floor == 4;
    assert RoundHalfEven(t) == 5;
    assert IeeeRemainder(1.4, 0.3) == -0.1;
    assert Ceil(t) == 5;
  }

  /** t_end - t_0 = 1.0, h = 0.3: remainder 0.1 becomes the last step and the run ends at 1.0. */
  lemma PositiveRemainderExample()
    ensures CreateH(0.0, 1.0, 0.3, 1) == Plan(5, 5, 1, 0.1)
    ensures EndTime(0.0, 0.3, 5, 0.1) == 1.0
  {
    var t := 1.0 / 0.3;
    assert t == 10.0 / 3.0;
    assert t.Floor == 3;
    assert RoundHalfEven(t) == 3;
    assert IeeeRemainder(1.0, 0.3) == 0.1;
    assert Ceil(t) == 4;
  }

  /**
   * Stride 2 over an exact multiple: n = 6 and m = 5, but the loop stores
   * only iterations 2 and 4, so one of the five columns (column 3) is never
   * written; four columns would do.
   */
  lemma StrideGapExample()
    ensures CreateH(0.0, 5.0, 1.0, 2) == Plan(6, 5, 2, 1.0)
    ensures StoredColumns(6, 2) == 4 && Interior(6, 2) == 2
  {
    assert IeeeRemainder(5.0, 1.0) == 0.0;
    assert RoundHalfEven(5.0 / 2.0) == 2;
    assert IeeeRemainder(5.0, 2.0) == 1.0;
  }

  /**
   * Stride 3 with a remainder: n = 5 and m = 2, so the one stored interior
   * sample (iteration 3) goes to column 1 = m - 1 and is then overwritten by
   * the final state.
   */
  lemma StrideOverwriteExample()
    ensures CreateH(0.0, 3.25, 1.0, 3) == Plan(5, 2, 3, 0.25)
    ensures StoredColumns(5, 3) == 3 && Interior(5, 3) == 1
  {
    assert RoundHalfEven(3.25) == 3;
    assert IeeeRemainder(3.25, 1.0) == 0.25;
    assert Ceil(3.25) == 4;
  }

  /**
   * create_init_cond(H_0): p2 = q1 = 0, q2 = 0.45 and p1 the square root of
   * the radicand. Whenever the radicand is non-negative and sqrt returns its
   * non-negative square root, the state has energy exactly H_0.
   */
  function CreateInitCond(h0: real, sqrt: real -> real): (y: State)
    ensures y.p2 == 0.0 && y.q1 == 0.0 && y.q2 == 0.45
    ensures var r := InitRadicand(h0);
      0.0 <= r && 0.0 <= sqrt(r) && sqrt(r) * sqrt(r) == r ==> 0.0 <= y.p1 && Energy(y) == h0
  {
    var p1 := sqrt(InitRadicand(h0));
    InitialShell(h0, p1);
    State(p1, 0.0, 0.0, 0.45)
  }

  /**
   * create_T as written: T[0] = t_0, T[m - 1] = t_end, and the column
   * stored for iteration k * s holds k * s * h, without the t_0 offset;
   * columns the loop does not reach keep the 0 of Zero(m).
   */
  method CreateT(t0: real, tEnd: real, h: real, p: Plan) returns (T: seq<real>)
    requires Fits(p)
    ensures |T| == p.m
    ensures T[p.m - 1] == tEnd
    ensures 2 <= p.m ==> T[0] == t0
    ensures forall k :: 1 <= k < p.m - 1 && k <= Interior(p.n, p.stride) ==> T[k] == SampleTime(0.0, k * p.stride, h)
    ensures forall k :: Interior(p.n, p.stride) < k < p.m - 1 ==> T[k] == 0.0
  {
    T := TimeColumn(t0, tEnd, h, p, 0.0);
  }

  /** create_T with the interior times counted from t_0, as the samples are. */
  method CreateTCorrected(t0: real, tEnd: real, h: real, p: Plan) returns (T: seq<real>)
    requires Fits(p)
    ensures |T| == p.m
    ensures T[p.m - 1] == tEnd
    ensures 2 <= p.m ==> T[0] == t0
    ensures forall k :: 1 <= k < p.m - 1 && k <= Interior(p.n, p.stride) ==> T[k] == SampleTime(t0, k * p.stride, h)
    ensures forall k :: Interior(p.n, p.stride) < k < p.m - 1 ==> T[k] == 0.0
  {
    T := TimeColumn(t0, tEnd, h, p, t0);
  }

  /** The loop of create_T with curr_time starting at start (0 in the source). */
  method TimeColumn(t0: real, tEnd: real, h: real, p: Plan, start: real) returns (T: seq<real>)
    requires Fits(p)
    ensures |T| == p.m
    ensures T[p.m - 1] == tEnd
    ensures 2 <= p.m ==> T[0] == t0
    ensures forall k :: 1 <= k < p.m - 1 && k <= Interior(p.n, p.stride) ==> T[k] == SampleTime(start, k * p.stride, h)
    ensures forall k :: Interior(p.n, p.stride) < k < p.m - 1 ==> T[k] == 0.0
  {
    var s := p.stride;
    var column := new real[p.m](_ => 0.0);
    column[0] := t0;
    var currTime := start;
    var storageIndex := 1;
    var i := 1;
    while i < p.n - 1
      invariant 1 <= i && (2 <= p.n ==> i <= p.n - 1)
      invariant storageIndex == 1 + (i - 1) / s
      invariant storageIndex <= 1 + Interior(p.n, s)
      invariant currTime == SampleTime(start, i - 1, h)
      invariant column[0] == t0
      invariant forall k :: 1 <= k < storageIndex ==> column[k] == SampleTime(start, k * s, h)
      invariant forall k :: storageIndex <= k < p.m ==> column[k] == 0.0
    {
      currTime := currTime + h;
      NextSampleTime(start, i - 1, h);
      DivStep(i, s);
      if i % s == 0 {
        DivMonotone(i, p.n - 2, s);
        assert storageIndex * s == i;
        column[storageIndex] := currTime;
        storageIndex := storageIndex + 1;
      }
      i := i + 1;
    }
    column[p.m - 1] := tEnd;
    T := column[..];
  }
}
