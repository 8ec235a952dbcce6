/**
 * What one step of each integrator computes, as functions of the current
 * state and the step size: classical Runge–Kutta (kutta_iteration),
 * Bogacki–Shampine (sb_iteration), Störmer–Verlet with its carried half-step
 * force (henon_heiles_sv) and Kahan's linearly implicit method
 * (create_A / create_b followed by a linear solve). The imperative step
 * routines of both library variants are proved against these.
 */
module Schemes {
  import opened HenonHeiles

  // ---------------------------------------------------------------------------
  // Iterating a one-step map

  /** k applications of the step map f to y. */
  function Iterate(f: State -> State, y: State, k: nat): State
    decreases k
  {
    if k == 0 then y else f(Iterate(f, y, k - 1))
  }

  /** a steps followed by b steps are a + b steps. */
  lemma {:induction false} IterateAdd(f: State -> State, y: State, a: nat, b: nat)
    ensures Iterate(f, y, a + b) == Iterate(f, Iterate(f, y, a), b)
    decreases b
  {
    if b > 0 {
      IterateAdd(f, y, a, b - 1);
    }
  }

  /** A fixed point of the step map stays put for any number of steps. */
  lemma {:induction false} IterateFixed(f: State -> State, y: State, k: nat)
    requires f(y) == y
    ensures Iterate(f, y, k) == y
    decreases k
  {
    if k > 0 {
      IterateFixed(f, y, k - 1);
    }
  }

  // ---------------------------------------------------------------------------
  // Classical Runge–Kutta of order 4

  /** The four stages k1..k4, the columns kutta_iteration leaves in Y_vec. */
  function Rk4Stages(y: State, h: real): (k: seq<State>)
    ensures |k| == 4
  {
    var k1 := VectorField(y);
    var k2 := VectorField(Axpy(y, 0.5 * h, k1));
    var k3 := VectorField(Axpy(y, 0.5 * h, k2));
    var k4 := VectorField(Axpy(y, h, k3));
    [k1, k2, k3, k4]
  }

  /** y + h/6 (k1 + 2 k2 + 2 k3 + k4) over those stages. */
  function Rk4Step(y: State, h: real): State {
    var k := Rk4Stages(y, h);
    Axpy(y, h / 6.0, Add(Add(Add(k[0], Scale(2.0, k[1])), Scale(2.0, k[2])), k[3]))
  }

  function Rk4Map(h: real): State -> State {
    y => Rk4Step(y, h)
  }

  /** The weights 1/6, 2/6, 2/6, 1/6 sum to one: with all stages equal to k the step is y + h k. */
  lemma Rk4WeightsConsistent(y: State, h: real, k: State)
    ensures Axpy(y, h / 6.0, Add(Add(Add(k, Scale(2.0, k)), Scale(2.0, k)), k)) == Axpy(y, h, k)
  {
    var r := Axpy(y, h / 6.0, Add(Add(Add(k, Scale(2.0, k)), Scale(2.0, k)), k));
    Rk4Field(y.p1, h, k.p1);
    Rk4Field(y.p2, h, k.p2);
    Rk4Field(y.q1, h, k.q1);
    Rk4Field(y.q2, h, k.q2);
    assert r.p1 == y.p1 + h * k.p1 && r.p2 == y.p2 + h * k.p2;
    assert r.q1 == y.q1 + h * k.q1 && r.q2 == y.q2 + h * k.q2;
  }

  /** One coefficient of the Runge–Kutta sum with equal stages. */
  lemma Rk4Field(u: real, h: real, a: real)
    ensures u + h / 6.0 * (((a + 2.0 * a) + 2.0 * a) + a) == u + h * a
  {
    assert ((a + 2.0 * a) + 2.0 * a) + a == 6.0 * a;
  }

  /** At a rest point of the field every later stage is zero again. */
  lemma RestStage(y: State, c: real)
    requires VectorField(y) == Origin
    ensures VectorField(Axpy(y, c, VectorField(y))) == Origin
  {
  }

  /** A step of size zero, or a step from a rest point of the field, leaves the state as it is. */
  lemma Rk4AtRest(y: State, h: real)
    requires h == 0.0 || VectorField(y) == Origin
    ensures Rk4Step(y, h) == y
  {
    if VectorField(y) == Origin {
      RestStage(y, 0.5 * h);
      RestStage(y, h);
    } else {
      assert h / 6.0 == 0.0;
    }
  }

  // ---------------------------------------------------------------------------
  // Bogacki–Shampine, three stages

  /** The three stages, the columns sb_iteration leaves in Y_vec. */
  function SbStages(y: State, h: real): (k: seq<State>)
    ensures |k| == 3
  {
    var k1 := VectorField(y);
    var k2 := VectorField(Axpy(y, 0.5 * h, k1));
    var k3 := VectorField(Axpy(y, 0.75 * h, k2));
    [k1, k2, k3]
  }

  /** y + h/9 (2 k1 + 3 k2 + 4 k3) over those stages. */
  function SbStep(y: State, h: real): State {
    var k := SbStages(y, h);
    Axpy(y, h / 9.0, Add(Add(Scale(2.0, k[0]), Scale(3.0, k[1])), Scale(4.0, k[2])))
  }

  function SbMap(h: real): State -> State {
    y => SbStep(y, h)
  }

  /** The weights 2/9, 3/9, 4/9 sum to one: with all stages equal to k the step is y + h k. */
  lemma SbWeightsConsistent(y: State, h: real, k: State)
    ensures Axpy(y, h / 9.0, Add(Add(Scale(2.0, k), Scale(3.0, k)), Scale(4.0, k))) == Axpy(y, h, k)
  {
    var r := Axpy(y, h / 9.0, Add(Add(Scale(2.0, k), Scale(3.0, k)), Scale(4.0, k)));
    SbField(y.p1, h, k.p1);
    SbField(y.p2, h, k.p2);
    SbField(y.q1, h, k.q1);
    SbField(y.q2, h, k.q2);
    assert r.p1 == y.p1 + h * k.p1 && r.p2 == y.p2 + h * k.p2;
    assert r.q1 == y.q1 + h * k.q1 && r.q2 == y.q2 + h * k.q2;
  }

  /** One coefficient of the Bogacki–Shampine sum with equal stages. */
  lemma SbField(u: real, h: real, a: real)
    ensures u + h / 9.0 * ((2.0 * a + 3.0 * a) + 4.0 * a) == u + h * a
  {
    assert (2.0 * a + 3.0 * a) + 4.0 * a == 9.0 * a;
  }

  lemma SbRestSum(k1: State, k2: State, k3: State)
    requires k1 == Origin && k2 == Origin && k3 == Origin
    ensures Add(Add(Scale(2.0, k1), Scale(3.0, k2)), Scale(4.0, k3)) == Origin
  {
  }

  lemma SbAtRest(y: State, h: real)
    requires h == 0.0 || VectorField(y) == Origin
    ensures SbStep(y, h) == y
  {
    if VectorField(y) == Origin {
      var k := SbStages(y, h);
      RestStage(y, 0.5 * h);
      RestStage(y, 0.75 * h);
      assert k[0] == Origin && k[1] == Origin && k[2] == Origin;
      SbRestSum(k[0], k[1], k[2]);
    } else {
      assert h / 9.0 == 0.0;
    }
  }

  // ---------------------------------------------------------------------------
  // Störmer–Verlet with the carried half-step force q_next

  /** The pair q_next: half a step times the force on (p1, p2). */
  datatype Kick = Kick(c1: real, c2: real)

  /** 0.5 h (-q1 (1 + 2 q2), -q2 - q1^2 + q2^2): half a step of the force at positions (q1, q2). */
  function HalfKick(q1: real, q2: real, h: real): (c: Kick)
    ensures var f := VectorField(State(0.0, 0.0, q1, q2)); c.c1 == 0.5 * h * f.p1 && c.c2 == 0.5 * h * f.p2
  {
    Kick(0.5 * h * ForceP1(q1, q2), 0.5 * h * ForceP2(q1, q2))
  }

  /**
   * One call of henon_heiles_sv with incoming correction c: half kick with c,
   * drift by h, then the half kick at the new positions.
   */
  function SvStep(y: State, h: real, c: Kick): State {
    Leapfrog(y, h, c, (q1: real, q2: real) => HalfKick(q1, q2, h))
  }

  /** A position moved for time h at momentum p. */
  function Drift(q: real, h: real, p: real): real {
    q + h * p
  }

  /** The shape of that step for any outgoing kick: kick with c, drift by h, kick with kick(new positions). */
  function Leapfrog(y: State, h: real, c: Kick, kick: (real, real) -> Kick): State {
    var p1Half := y.p1 + c.c1;
    var q1Next := Drift(y.q1, h, p1Half);
    var p2Half := y.p2 + c.c2;
    var q2Next := Drift(y.q2, h, p2Half);
    var c' := kick(q1Next, q2Next);
    State(p1Half + c'.c1, p2Half + c'.c2, q1Next, q2Next)
  }

  /** The leapfrog map of the state alone: the step whose incoming correction is the kick at y. */
  function SvMap(h: real): State -> State {
    (y: State) => SvStep(y, h, HalfKick(y.q1, y.q2, h))
  }

  /** The leapfrog map is time-reversible: stepping by h and then by -h returns to y. */
  lemma SvReversible(y: State, h: real)
    ensures SvMap(-h)(SvMap(h)(y)) == y
  {
    var forth := (q1: real, q2: real) => HalfKick(q1, q2, h);
    var back := (q1: real, q2: real) => HalfKick(q1, q2, -h);
    forall q1: real, q2: real
      ensures back(q1, q2) == Kick(-forth(q1, q2).c1, -forth(q1, q2).c2)
    {
      HalfKickOdd(q1, q2, h);
    }
    var y1 := Leapfrog(y, h, forth(y.q1, y.q2), forth);
    assert SvMap(h)(y) == y1;
    assert SvMap(-h)(y1) == Leapfrog(y1, -h, back(y1.q1, y1.q2), back);
    LeapfrogReversible(y, h, forth, back);
  }

  /** Kick, drift, kick is undone by the same with -h whenever the backward kick is the negated forward kick. */
  lemma LeapfrogReversible(y: State, h: real, forth: (real, real) -> Kick, back: (real, real) -> Kick)
    requires forall q1, q2 :: back(q1, q2) == Kick(-forth(q1, q2).c1, -forth(q1, q2).c2)
    ensures var y1 := Leapfrog(y, h, forth(y.q1, y.q2), forth);
      Leapfrog(y1, -h, back(y1.q1, y1.q2), back) == y
  {
    var c := forth(y.q1, y.q2);
    var p1Half, p2Half := y.p1 + c.c1, y.p2 + c.c2;
    var q1Next, q2Next := Drift(y.q1, h, p1Half), Drift(y.q2, h, p2Half);
    var c1 := forth(q1Next, q2Next);
    var y1 := State(p1Half + c1.c1, p2Half + c1.c2, q1Next, q2Next);
    assert Leapfrog(y, h, c, forth) == y1;
    var d := back(q1Next, q2Next);
    var s1, s2 := Drift(y1.q1, -h, y1.p1 + d.c1), Drift(y1.q2, -h, y1.p2 + d.c2);
    assert s1 == y.q1 && s2 == y.q2;
  }

  /** Reversing the step reverses the half kick. */
  lemma HalfKickOdd(q1: real, q2: real, h: real)
    ensures HalfKick(q1, q2, -h) == Kick(-HalfKick(q1, q2, h).c1, -HalfKick(q1, q2, h).c2)
  {
    var f1, f2 := ForceP1(q1, q2), ForceP2(q1, q2);
    assert 0.5 * -h * f1 == -(0.5 * h * f1);
    assert 0.5 * -h * f2 == -(0.5 * h * f2);
  }

  lemma SvAtRest(y: State, h: real)
    requires h == 0.0 || VectorField(y) == Origin
    ensures SvMap(h)(y) == y
  {
  }

  // ---------------------------------------------------------------------------
  // Kahan's method: a 4 x 4 linear system per step

  /** A 4 x 4 matrix as rows, and the solver the library provides for it. */
  type Matrix = seq<seq<real>>
  type Solver = (Matrix, seq<real>) -> State

  predicate Is4x4(M: Matrix) {
    |M| == 4 && forall i :: 0 <= i < 4 ==> |M[i]| == 4
  }

  function Identity(): (M: Matrix)
    ensures Is4x4(M) && KahanFrame(M)
  {
    [[1.0, 0.0, 0.0, 0.0], [0.0, 1.0, 0.0, 0.0], [0.0, 0.0, 1.0, 0.0], [0.0, 0.0, 0.0, 1.0]]
  }

  /**
   * M agrees with the identity on the ten entries create_A never writes:
   * what create_A assumes of the matrix it is handed.
   */
  predicate KahanFrame(M: Matrix)
    requires Is4x4(M)
  {
    && M[0][0] == 1.0 && M[0][1] == 0.0
    && M[1][0] == 0.0 && M[1][1] == 1.0
    && M[2][1] == 0.0 && M[2][2] == 1.0 && M[2][3] == 0.0
    && M[3][0] == 0.0 && M[3][2] == 0.0 && M[3][3] == 1.0
  }

  /** The identity with the six entries create_A writes, for state y and step h. */
  function KahanMatrix(y: State, h: real): (M: Matrix)
    ensures Is4x4(M) && KahanFrame(M)
  {
    [[1.0, 0.0, h * (y.q2 + 0.5), h * y.q1],
     [0.0, 1.0, h * y.q1, h * (0.5 - y.q2)],
     [-0.5 * h, 0.0, 1.0, 0.0],
     [0.0, -0.5 * h, 0.0, 1.0]]
  }

  /** The right-hand side create_b writes. */
  function KahanRhs(y: State, h: real): (b: seq<real>)
    ensures |b| == 4
  {
    [y.p1 - 0.5 * h * y.q1, y.p2 - 0.5 * h * y.q2, y.q1 + 0.5 * h * y.p1, y.q2 + 0.5 * h * y.p2]
  }

  function Column(x: State): seq<real> {
    [x.p1, x.p2, x.q1, x.q2]
  }

  function Dot(row: seq<real>, x: State): real
    requires |row| == 4
  {
    row[0] * x.p1 + row[1] * x.p2 + row[2] * x.q1 + row[3] * x.q2
  }

  function MatVec(M: Matrix, x: State): (r: seq<real>)
    requires Is4x4(M)
    ensures |r| == 4
  {
    [Dot(M[0], x), Dot(M[1], x), Dot(M[2], x), Dot(M[3], x)]
  }

  /** x solves M x = b: what a successful LU solve returns. */
  predicate Solves(M: Matrix, x: State, b: seq<real>)
    requires Is4x4(M)
  {
    MatVec(M, x) == b
  }

  /** The solution the library returns for the system built at y with step h. */
  function KahanStep(y: State, h: real, solve: Solver): State {
    solve(KahanMatrix(y, h), KahanRhs(y, h))
  }

  function KahanMap(h: real, solve: Solver): State -> State {
    y => KahanStep(y, h, solve)
  }

  /**
   * The library solve is exact on the system built at y with step h. The
   * matrix can be singular (for h = 2 on the circle q1^2 + q2^2 = 1), so
   * this is a property of one call, never of every call.
   */
  predicate ExactAt(solve: Solver, y: State, h: real) {
    Solves(KahanMatrix(y, h), KahanStep(y, h, solve), KahanRhs(y, h))
  }

  /** Kahan's polarisation of the force: symmetric in its two arguments, the force itself on the diagonal. */
  function PolarP1(y: State, x: State): (f: real)
    ensures x == y ==> f == ForceP1(y.q1, y.q2)
  {
    -0.5 * (y.q1 + x.q1) - (y.q1 * x.q2 + x.q1 * y.q2)
  }

  function PolarP2(y: State, x: State): (f: real)
    ensures x == y ==> f == ForceP2(y.q1, y.q2)
  {
    -0.5 * (y.q2 + x.q2) - y.q1 * x.q1 + y.q2 * x.q2
  }

  lemma PolarSymmetric(y: State, x: State)
    ensures PolarP1(y, x) == PolarP1(x, y) && PolarP2(y, x) == PolarP2(x, y)
  {
  }

  /**
   * x solves the system built at y exactly when rows 2-3 are the trapezoidal
   * rule for the positions and rows 0-1 advance the momenta by h times the
   * polarised force.
   */
  predicate KahanEquations(y: State, x: State, h: real) {
    && x.q1 == y.q1 + h * ((y.p1 + x.p1) / 2.0)
    && x.q2 == y.q2 + h * ((y.p2 + x.p2) / 2.0)
    && x.p1 - y.p1 == h * PolarP1(y, x)
    && x.p2 - y.p2 == h * PolarP2(y, x)
  }

  lemma KahanSystemMeaning(y: State, x: State, h: real)
    ensures Solves(KahanMatrix(y, h), x, KahanRhs(y, h)) <==> KahanEquations(y, x, h)
  {
    if Solves(KahanMatrix(y, h), x, KahanRhs(y, h)) {
      SolutionMeaning(y, x, h);
    }
    if KahanEquations(y, x, h) {
      EquationsSolve(y, x, h);
    }
  }

  lemma SolutionMeaning(y: State, x: State, h: real)
    requires Solves(KahanMatrix(y, h), x, KahanRhs(y, h))
    ensures KahanEquations(y, x, h)
  {
    var M, b := KahanMatrix(y, h), KahanRhs(y, h);
    SolvesByRows(M, x, b);
    KahanRow0(y, x, h);
    KahanRow1(y, x, h);
    KahanRow2(y, x, h);
    KahanRow3(y, x, h);
  }

  lemma EquationsSolve(y: State, x: State, h: real)
    requires KahanEquations(y, x, h)
    ensures Solves(KahanMatrix(y, h), x, KahanRhs(y, h))
  {
    var M, b := KahanMatrix(y, h), KahanRhs(y, h);
    KahanRow0(y, x, h);
    KahanRow1(y, x, h);
    KahanRow2(y, x, h);
    KahanRow3(y, x, h);
    SolvesByRows(M, x, b);
  }

  lemma SolvesByRows(M: Matrix, x: State, b: seq<real>)
    requires Is4x4(M) && |b| == 4
    ensures Solves(M, x, b)
        <==> Dot(M[0], x) == b[0] && Dot(M[1], x) == b[1] && Dot(M[2], x) == b[2] && Dot(M[3], x) == b[3]
  {
  }

  lemma KahanRow0(y: State, x: State, h: real)
    ensures Dot(KahanMatrix(y, h)[0], x) - KahanRhs(y, h)[0] == (x.p1 - y.p1) - h * PolarP1(y, x)
  {
    var lhs := Dot(KahanMatrix(y, h)[0], x);
    assert lhs == x.p1 + h * (y.q2 + 0.5) * x.q1 + h * y.q1 * x.q2;
    assert h * PolarP1(y, x) == -0.5 * h * y.q1 - (h * (y.q2 + 0.5) * x.q1 + h * y.q1 * x.q2);
  }

  lemma KahanRow1(y: State, x: State, h: real)
    ensures Dot(KahanMatrix(y, h)[1], x) - KahanRhs(y, h)[1] == (x.p2 - y.p2) - h * PolarP2(y, x)
  {
    var lhs := Dot(KahanMatrix(y, h)[1], x);
    assert lhs == x.p2 + h * y.q1 * x.q1 + h * (0.5 - y.q2) * x.q2;
    assert h * PolarP2(y, x) == -0.5 * h * y.q2 - (h * y.q1 * x.q1 + h * (0.5 - y.q2) * x.q2);
  }

  lemma KahanRow2(y: State, x: State, h: real)
    ensures Dot(KahanMatrix(y, h)[2], x) - KahanRhs(y, h)[2] == x.q1 - (y.q1 + h * ((y.p1 + x.p1) / 2.0))
  {
    assert Dot(KahanMatrix(y, h)[2], x) == -0.5 * h * x.p1 + x.q1;
  }

  lemma KahanRow3(y: State, x: State, h: real)
    ensures Dot(KahanMatrix(y, h)[3], x) - KahanRhs(y, h)[3] == x.q2 - (y.q2 + h * ((y.p2 + x.p2) / 2.0))
  {
    assert Dot(KahanMatrix(y, h)[3], x) == -0.5 * h * x.p2 + x.q2;
  }

  /** Kahan's method is symmetric: x solves the step from y by h iff y solves the step from x by -h. */
  lemma KahanReversible(y: State, x: State, h: real)
    ensures Solves(KahanMatrix(y, h), x, KahanRhs(y, h)) <==> Solves(KahanMatrix(x, -h), y, KahanRhs(x, -h))
  {
    KahanSystemMeaning(y, x, h);
    KahanSystemMeaning(x, y, -h);
    KahanEquationsReversed(y, x, h);
  }

  lemma KahanEquationsReversed(y: State, x: State, h: real)
    ensures KahanEquations(y, x, h) <==> KahanEquations(x, y, -h)
  {
    PolarSymmetric(y, x);
    StepReversed(y.p1, x.p1, h, PolarP1(y, x), PolarP1(x, y));
    StepReversed(y.p2, x.p2, h, PolarP2(y, x), PolarP2(x, y));
    StepReversed(y.q1, x.q1, h, (y.p1 + x.p1) / 2.0, (x.p1 + y.p1) / 2.0);
    StepReversed(y.q2, x.q2, h, (y.p2 + x.p2) / 2.0, (x.p2 + y.p2) / 2.0);
  }

  /** a advances to b by h f exactly when b goes back to a by -h g, for g = f. */
  lemma StepReversed(a: real, b: real, h: real, f: real, g: real)
    requires f == g
    ensures b - a == h * f <==> a - b == -h * g
    ensures b == a + h * f <==> a == b + -h * g
  {
  }

  /** With step 0 the matrix is the identity and b = y, so the only solution is y. */
  lemma KahanZeroStep(y: State, x: State)
    ensures KahanMatrix(y, 0.0) == Identity()
    ensures Solves(KahanMatrix(y, 0.0), x, KahanRhs(y, 0.0)) <==> x == y
  {
    KahanSystemMeaning(y, x, 0.0);
  }

  /** A rest point of the field solves its own system, for every step size. */
  lemma KahanAtRest(y: State, h: real)
    requires VectorField(y) == Origin
    ensures Solves(KahanMatrix(y, h), y, KahanRhs(y, h))
  {
    KahanSystemMeaning(y, y, h);
  }
}
