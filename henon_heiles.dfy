/**
 * The Hénon–Heiles system itself: a state is one column (p1, p2, q1, q2) of
 * the 4 x N trajectory matrices, the vector field is the body shared by
 * henon_heiles_rk and henon_heiles_sb, and the energy is the polynomial
 * evaluated by hamiltonian().
 */
module HenonHeiles {

  /** One column of a trajectory matrix: rows 0..3 are p1, p2, q1, q2. */
  datatype State = State(p1: real, p2: real, q1: real, q2: real)

  /** The all-zero column that Matrix::Zero / zeros() puts in every column. */
  const Origin: State := State(0.0, 0.0, 0.0, 0.0)

  /** y + c * k, coefficient-wise. */
  function Axpy(y: State, c: real, k: State): (r: State)
    ensures c == 0.0 ==> r == y
    ensures k == Origin ==> r == y
  {
    State(y.p1 + c * k.p1, y.p2 + c * k.p2, y.q1 + c * k.q1, y.q2 + c * k.q2)
  }

  /** a + b, coefficient-wise. */
  function Add(a: State, b: State): (r: State)
    ensures a == Origin ==> r == b
    ensures b == Origin ==> r == a
  {
    State(a.p1 + b.p1, a.p2 + b.p2, a.q1 + b.q1, a.q2 + b.q2)
  }

  /** c * a, coefficient-wise. */
  function Scale(c: real, a: State): (r: State)
    ensures a == Origin ==> r == Origin
  {
    State(c * a.p1, c * a.p2, c * a.q1, c * a.q2)
  }

  /**
   * The force on the momenta, -grad_q V, at positions (q1, q2):
   * (-q1 (1 + 2 q2), -(q2 + q1^2 - q2^2)).
   */
  function ForceP1(q1: real, q2: real): real { -q1 * (1.0 + 2.0 * q2) }
  function ForceP2(q1: real, q2: real): real { -(q2 + q1 * q1 - q2 * q2) }

  /** The Hénon–Heiles right-hand side (dp1, dp2, dq1, dq2) / dt. */
  function VectorField(y: State): State {
    State(ForceP1(y.q1, y.q2), ForceP2(y.q1, y.q2), y.p1, y.p2)
  }

  /** H = (p1^2 + p2^2)/2 + (q1^2 + q2^2)/2 + q2 q1^2 - q2^3/3. */
  function Energy(y: State): real {
    0.5 * (y.p1 * y.p1 + y.p2 * y.p2)
    + 0.5 * (y.q1 * y.q1 + y.q2 * y.q2)
    + y.q2 * (y.q1 * y.q1) - 1.0 / 3.0 * (y.q2 * y.q2 * y.q2)
  }

  /** The four equilibria: the origin, (q1, q2) = (0, 1) and (+-sqrt(3)/2, -1/2), at rest. */
  predicate IsEquilibrium(y: State) {
    && y.p1 == 0.0 && y.p2 == 0.0
    && ((y.q1 == 0.0 && (y.q2 == 0.0 || y.q2 == 1.0))
        || (y.q2 == -0.5 && y.q1 * y.q1 == 0.75))
  }

  /** The vector field vanishes exactly at the four equilibria. */
  lemma VectorFieldZeros(y: State)
    ensures VectorField(y) == Origin <==> IsEquilibrium(y)
  {
    if VectorField(y) == Origin {
      ZeroProduct(y.q1, 1.0 + 2.0 * y.q2);
      if y.q1 == 0.0 {
        ZeroProduct(y.q2, 1.0 - y.q2);
      }
    }
  }

  /** The origin has energy 0 and the three other equilibria energy 1/6, the escape energy. */
  lemma EquilibriumEnergy(y: State)
    requires IsEquilibrium(y)
    ensures Energy(y) == if y.q1 == 0.0 && y.q2 == 0.0 then 0.0 else 1.0 / 6.0
  {
    if y.q2 == -0.5 {
      assert Energy(y) == 0.5 * 0.75 + 0.5 * 0.25 + (-0.5) * 0.75 + 1.0 / 24.0;
    }
  }

  lemma ZeroProduct(a: real, b: real)
    requires a * b == 0.0
    ensures a == 0.0 || b == 0.0
  {
    if a != 0.0 {
      assert b == (a * b) / a;
    }
  }

  /** H vanishes at the origin. */
  lemma EnergyAtOrigin()
    ensures Energy(Origin) == 0.0
  {
  }

  /** H is unchanged by a sign flip of p1, of p2 or of q1. */
  lemma EnergySymmetries(y: State)
    ensures Energy(y.(p1 := -y.p1)) == Energy(y)
    ensures Energy(y.(p2 := -y.p2)) == Energy(y)
    ensures Energy(y.(q1 := -y.q1)) == Energy(y)
  {
  }

  /**
   * The vector field is the Hamiltonian vector field of Energy:
   * (-dH/dq1, -dH/dq2, dH/dp1, dH/dp2). Each partial derivative is stated
   * as the linear coefficient of Energy along that coordinate, with the
   * exact higher-order remainder of the polynomial.
   */
  lemma VectorFieldIsHamiltonian(y: State, t: real)
    ensures Energy(y.(p1 := y.p1 + t)) - Energy(y) == t * VectorField(y).q1 + 0.5 * t * t
    ensures Energy(y.(p2 := y.p2 + t)) - Energy(y) == t * VectorField(y).q2 + 0.5 * t * t
    ensures Energy(y.(q1 := y.q1 + t)) - Energy(y) == -t * VectorField(y).p1 + t * t * (0.5 + y.q2)
    ensures Energy(y.(q2 := y.q2 + t)) - Energy(y)
         == -t * VectorField(y).p2 + t * t * (0.5 - y.q2 - t / 3.0)
  {
  }

  /**
   * The single state create_init_cond can produce for energy h0, with
   * p2 = q1 = 0 and q2 = 0.45, has energy h0 exactly when p1^2 equals the
   * radicand create_init_cond passes to sqrt.
   */
  lemma InitialShell(h0: real, p1: real)
    ensures Energy(State(p1, 0.0, 0.0, 0.45)) == h0 <==> p1 * p1 == InitRadicand(h0)
  {
  }

  /**
   * 2/3 q2^3 + 2 H0 - p2^2 - q1^2 - q2^2 - 2 q1^2 q2 at p2 = q1 = 0, q2 = 0.45,
   * the expression create_init_cond takes the square root of. It is
   * non-negative exactly when H0 >= 0.070875.
   */
  function InitRadicand(h0: real): (r: real)
    ensures r >= 0.0 <==> h0 >= 0.070875
  {
    var p2, q1, q2 := 0.0, 0.0, 0.45;
    2.0 / 3.0 * (q2 * q2 * q2) + 2.0 * h0 - p2 * p2 - q1 * q1 - q2 * q2 - 2.0 * (q1 * q1) * q2
  }
}
