/**
 * armadillo/src/utils.cpp: the step planner create_H (no stride), the time
 * column create_T and the initial condition create_init_cond.
 */
module ArmaUtils {
  import opened Numerics
  import opened HenonHeiles
  import opened StepPlan

  /** The pair (n, last_step) returned by create_H. */
  datatype Steps = Steps(n: int, lastStep: real)

  /** 2^64: the values of arma::uword. */
  const WordRange: int := 0x1_0000_0000_0000_0000

  /** 2^31: the values of a 32-bit int lie in [-2^31, 2^31). */
  const IntRange: int := 0x8000_0000

  /**
   * int(ratio) and int(ratio) + 1 are both 32-bit ints: outside that range
   * the conversion or the addition is undefined in C++.
   */
  predicate CountFits(t0: real, tEnd: real, h: real)
    requires 0.0 < h
  {
    var c := Trunc((tEnd - t0) / h);
    -IntRange <= c && c + 1 < IntRange
  }

  /**
   * create_H(t_0, t_end, h): n is the int int((t_end - t_0) / h) + 1,
   * truncating, stored in a uword (so a negative count wraps modulo 2^64);
   * when the IEEE remainder is at least 1e-10 one more iteration is added,
   * again in uword arithmetic, and the remainder is the last step,
   * otherwise the last step is h.
   */
  function CreateH(t0: real, tEnd: real, h: real): (r: Steps)
    requires 0.0 < h && CountFits(t0, tEnd, h)
    ensures 0 <= r.n < WordRange
    ensures r.lastStep == h || Eps <= r.lastStep <= h / 2.0
    ensures t0 <= tEnd ==> 1 <= r.n
  {
    var ratio := (tEnd - t0) / h;
    var remainder := IeeeRemainder(tEnd - t0, h);
    NonNegativeRatio(tEnd - t0, h);
    var n := (Trunc(ratio) + 1) % WordRange;
    if remainder >= Eps then Steps((n + 1) % WordRange, remainder) else Steps(n, h)
  }

  /** For a non-negative interval the uword count does not wrap: n is int(ratio) + 1, plus one for a remainder of at least 1e-10. */
  lemma CountNoWrap(t0: real, tEnd: real, h: real)
    requires 0.0 < h && t0 <= tEnd && CountFits(t0, tEnd, h)
    ensures var c := Trunc((tEnd - t0) / h) + 1;
      CreateH(t0, tEnd, h).n == if IeeeRemainder(tEnd - t0, h) >= Eps then c + 1 else c
  {
    NonNegativeRatio(tEnd - t0, h);
    var c := Trunc((tEnd - t0) / h) + 1;
    assert 1 <= c < IntRange < WordRange;
    assert c % WordRange == c;
    assert (c + 1) % WordRange == c + 1;
  }

  /**
   * A negative interval makes the uword count wrap: t_end - t_0 = -1 with
   * h = 0.3 gives int(-3.33) + 1 = -2, so n = 2^64 - 2; t_end - t_0 = -0.78
   * gives n = 2^64 - 1, and the remainder 0.12 adds one more, wrapping n to 0.
   */
  lemma NegativeIntervalExample()
    ensures CountFits(0.0, -1.0, 0.3) && CountFits(0.0, -0.78, 0.3)
    ensures CreateH(0.0, -1.0, 0.3) == Steps(WordRange - 2, 0.3)
    ensures CreateH(0.0, -0.78, 0.3) == Steps(0, -0.78 + 0.9)
  {
    var t := -1.0 / 0.3;
    assert t == -10.0 / 3.0;
    assert Trunc(t) == -3;
    assert RoundHalfEven(t) == -3;
    var u := -0.78 / 0.3;
    assert u == -2.6;
    assert Trunc(u) == -2;
    assert RoundHalfEven(u) == -3;
  }

  /** An interval of exactly k steps gives n = k + 1 with last step h, which ends at t_end when k >= 1. */
  lemma CreateHExactMultiple(t0: real, tEnd: real, h: real, k: nat)
    requires 0.0 < h && tEnd - t0 == k as real * h && k + 1 < IntRange
    ensures CountFits(t0, tEnd, h)
    ensures CreateH(t0, tEnd, h) == Steps(k + 1, h)
    ensures 1 <= k ==> EndTime(t0, h, k + 1, h) == tEnd
  {
    assert (tEnd - t0) / h == k as real;
    CountNoWrap(t0, tEnd, h);
    RemainderOfMultiple(tEnd - t0, h, k);
  }

  /**
   * The iteration count in terms of the remainder r = (t_end - t_0) - k h,
   * k the nearest multiple: int((t_end - t_0) / h) is k when r >= 0 and
   * k - 1 when r < 0, and a remainder of at least 1e-10 adds one more.
   */
  lemma CreateHCount(t0: real, tEnd: real, h: real)
    requires 0.0 < h && t0 <= tEnd && CountFits(t0, tEnd, h)
    ensures var st := CreateH(t0, tEnd, h);
      var k := RoundHalfEven((tEnd - t0) / h); var r := IeeeRemainder(tEnd - t0, h);
      var n := if r < 0.0 then k else k + 1;
      && r == (tEnd - t0) - h * k as real
      && 1 <= n
      && (r < 0.0 && h <= tEnd - t0 ==> 2 <= k)
      && st == if Eps <= r then Steps(n + 1, r) else Steps(n, h)
  {
    CountNoWrap(t0, tEnd, h);
    CountAroundRounding(tEnd - t0, h);
  }

  /** int(d / h) + 1 in terms of the nearest multiple k and the remainder r of d = t_end - t_0 >= 0. */
  lemma CountAroundRounding(d: real, h: real)
    requires 0.0 < h && 0.0 <= d
    ensures var k := RoundHalfEven(d / h); var r := IeeeRemainder(d, h);
      && r == d - h * k as real
      && Trunc(d / h) + 1 == (if r < 0.0 then k else k + 1)
      && 1 <= Trunc(d / h) + 1
      && (r < 0.0 && h <= d ==> 2 <= k)
  {
    RatioAroundRounding(d, h);
    NonNegativeRatio(d, h);
    var t := d / h;
    if h <= d {
      LongInterval(d, h);
    }
  }

  /**
   * Where the schedule ends: at t_end when the remainder is at least 1e-10;
   * short of t_end by the remainder when that is in [0, 1e-10); and short by
   * h + remainder, at least h / 2, when the remainder is negative.
   */
  lemma CreateHEndTime(t0: real, tEnd: real, h: real)
    requires 0.0 < h && t0 <= tEnd && CountFits(t0, tEnd, h)
    ensures var s := CreateH(t0, tEnd, h); var e := EndTime(t0, h, s.n, s.lastStep);
      var r := IeeeRemainder(tEnd - t0, h);
      && (Eps <= r ==> e == tEnd)
      && (0.0 <= r < Eps && 2 <= s.n ==> e == tEnd - r)
      && (r < 0.0 && h <= tEnd - t0 ==> e == tEnd - (h + r) && e < tEnd)
  {
    CreateHCount(t0, tEnd, h);
    var st := CreateH(t0, tEnd, h);
    ArmaEndAfterRemainder(t0, tEnd, h, RoundHalfEven((tEnd - t0) / h), IeeeRemainder(tEnd - t0, h), st.n, st.lastStep);
  }

  /** The end time t_0 + (n - 2) h + last_step, worked out from k and r alone. */
  lemma ArmaEndAfterRemainder(t0: real, tEnd: real, h: real, k: int, r: real, n: int, lastStep: real)
    requires 0.0 < h && -h / 2.0 <= r <= h / 2.0 && r == (tEnd - t0) - h * k as real
    requires r < 0.0 && h <= tEnd - t0 ==> 2 <= k
    requires var n0 := if r < 0.0 then k else k + 1;
      1 <= n0 && (n, lastStep) == if Eps <= r then (n0 + 1, r) else (n0, h)
    ensures var e := EndTime(t0, h, n, lastStep);
      && (Eps <= r ==> e == tEnd)
      && (0.0 <= r < Eps && 2 <= n ==> e == tEnd - r)
      && (r < 0.0 && h <= tEnd - t0 ==> e == tEnd - (h + r) && e < tEnd)
  {
    if Eps <= r {
      EndTimeAfter(t0, h, n, lastStep, k);
    } else if 0.0 <= r {
      if 2 <= n {
        EndTimeAfter(t0, h, n, lastStep, k - 1);
        StepOff(k, h);
      }
    } else if h <= tEnd - t0 {
      EndTimeAfter(t0, h, n, lastStep, k - 2);
      StepOff(k - 1, h);
    }
  }

  lemma RatioBelowOne(d: real, h: real)
    requires 0.0 < h && d < h
    ensures d / h < 1.0
  {
    var t := d / h;
    assert d == h * t;
    if t >= 1.0 {
      MulMono(h, 1.0, t);
    }
  }

  lemma RatioAboveHalf(d: real, h: real)
    requires 0.0 < h && 0.5 < d / h
    ensures h / 2.0 < d
  {
    var t := d / h;
    assert d == h * t;
    MulStrict(h, 0.5, t);
  }

  lemma FractionBelowOne(h: real, f: real)
    requires 0.0 < h && f < 1.0
    ensures h * f < h
  {
    assert h * (1.0 - f) > 0.0;
  }

  /**
   * When h >= 2e-10, create_H returns n = 1 exactly for an interval below
   * 1e-10 or strictly between h / 2 and h.
   */
  lemma CreateHSingle(t0: real, tEnd: real, h: real)
    requires 2.0 * Eps <= h && t0 <= tEnd && CountFits(t0, tEnd, h)
    ensures var d := tEnd - t0;
      CreateH(t0, tEnd, h).n == 1 <==> d < Eps || h / 2.0 < d < h
  {
    CountNoWrap(t0, tEnd, h);
    var d := tEnd - t0;
    NonNegativeRatio(d, h);
    if d < h {
      ShortInterval(d, h);
    } else {
      LongInterval(d, h);
    }
  }

  /** Below one step, int(ratio) is 0, and the remainder stays below 1e-10 iff d < 1e-10 or d > h / 2. */
  lemma ShortInterval(d: real, h: real)
    requires 2.0 * Eps <= h && 0.0 <= d < h
    ensures (d / h).Floor == 0
    ensures IeeeRemainder(d, h) < Eps <==> d < Eps || h / 2.0 < d
  {
    RatioAroundRounding(d, h);
    NonNegativeRatio(d, h);
    var t := d / h;
    assert d == h * t;
    var k := RoundHalfEven(t);
    var r := IeeeRemainder(d, h);
    assert r == d - h * k as real;
    RatioBelowOne(d, h);
    if k == 0 {
      assert r == d;
      assert d <= h / 2.0;
    } else {
      assert k == 1;
      assert r == d - h;
      assert 0.5 < t;
      RatioAboveHalf(d, h);
    }
  }

  /** From one step on, int(ratio) is at least 1. */
  lemma LongInterval(d: real, h: real)
    requires 0.0 < h <= d
    ensures 1 <= (d / h).Floor
  {
    var t := d / h;
    assert d == h * t;
    assert t >= 1.0 by {
      if t < 1.0 {
        FractionBelowOne(h, t);
      }
    }
  }

  /**
   * The loop bound `n - 2` of create_T and of every driver, in uword
   * arithmetic: for n < 2 it wraps to 2^64 + n - 2.
   */
  function UnsignedLoopBound(n: int): (b: int)
    requires 0 <= n < WordRange
    ensures 2 <= n ==> b == n - 2
    ensures n < 2 ==> b == WordRange + n - 2 && n < b
  {
    (n - 2) % WordRange
  }

  /** t_end - t_0 = 0.2 with h = 0.3 yields n = 1, and the loop would run 2^64 - 1 times over one column. */
  lemma SingleColumnExample()
    ensures CreateH(0.0, 0.2, 0.3) == Steps(1, 0.3)
    ensures UnsignedLoopBound(1) == WordRange - 1
  {
    var t := 0.2 / 0.3;
    assert t == 2.0 / 3.0;
    assert t.Floor == 0;
    assert RoundHalfEven(t) == 1;
    assert IeeeRemainder(0.2, 0.3) == -0.1;
  }

  /** t_end - t_0 = 1.4, h = 0.3: the remainder -0.1 is dropped, n = 5 and the run ends at 1.2. */
  lemma NegativeRemainderExample()
    ensures CreateH(0.0, 1.4, 0.3) == Steps(5, 0.3)
    ensures EndTime(0.0, 0.3, 5, 0.3) == 1.2
  {
    var t := 1.4 / 0.3;
    assert t == 14.0 / 3.0;
    assert t.Floor == 4;
    assert RoundHalfEven(t) == 5;
    assert IeeeRemainder(1.4, 0.3) == -0.1;
  }

  /**
   * create_init_cond(H_0): (sqrt(radicand), 0, 0, 0.45). Whenever the
   * radicand is non-negative and sqrt returns its non-negative square root,
   * the state has energy exactly H_0.
   */
  function CreateInitCond(h0: real, sqrt: real -> real): (y: State)
    ensures y.p2 == 0.0 && y.q1 == 0.0 && y.q2 == 0.45
    ensures var r := InitRadicand(h0);
      0.0 <= r && 0.0 <= sqrt(r) && sqrt(r) * sqrt(r) == r ==> 0.0 <= y.p1 && Energy(y) == h0
  {
    var p1 := sqrt(InitRadicand(h0));
    InitialShell(h0, p1);
    State(p1, 0.0, 0.0, 0.45)
  }

  /**
   * create_T: n entries, T[0] = t_0, T[i] = t_0 + i h for 1 <= i <= n - 2
   * (the loop T[i + 1] = T[i] + h) and T[n - 1] = t_end. The unsigned bound
   * n - 2 needs n >= 2.
   */
  method CreateT(t0: real, tEnd: real, h: real, s: Steps) returns (T: seq<real>)
    requires 2 <= s.n
    ensures |T| == s.n
    ensures T[0] == t0 && T[s.n - 1] == tEnd
    ensures forall i :: 1 <= i <= s.n - 2 ==> T[i] == SampleTime(t0, i, h)
  {
    var n := s.n;
    var column := new real[n](_ => 0.0);
    column[0] := t0;
    column[n - 1] := tEnd;
    assert column[0] == SampleTime(t0, 0, h);
    var i := 0;
    while i < n - 2
      invariant 0 <= i <= n - 2
      invariant column[0] == t0 && column[n - 1] == tEnd
      invariant forall k :: 0 <= k <= i ==> column[k] == SampleTime(t0, k, h)
    {
      NextSampleTime(t0, i, h);
      column[i + 1] := column[i] + h;
      i := i + 1;
    }
    T := column[..];
  }
}
