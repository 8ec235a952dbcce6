/**
 * How the eigen and armadillo variants relate: the same initial condition
 * and Hamiltonian, the same trajectory for the same iteration count with
 * every step stored, and iteration counts from create_H that agree exactly
 * when the remainder is zero or at least the tolerance.
 */
module Variants {
  import opened Numerics
  import opened HenonHeiles
  import opened Schemes
  import opened StepPlan
  import opened Trajectory
  import EigenUtils
  import ArmaUtils
  import EigenHamiltonian
  import ArmaHamiltonian

  /**
   * For t_end > t_0 both planners pick the same last step; eigen's count
   * (stride 1) is armadillo's, one more when the remainder r is negative or
   * in (0, 1e-10), and equal exactly when r = 0 or r >= 1e-10.
   */
  lemma CreateHAgreement(t0: real, tEnd: real, h: real)
    requires 0.0 < h && t0 < tEnd && ArmaUtils.CountFits(t0, tEnd, h)
    ensures var e := EigenUtils.CreateH(t0, tEnd, h, 1); var a := ArmaUtils.CreateH(t0, tEnd, h);
      var r := IeeeRemainder(tEnd - t0, h);
      && e.lastStep == a.lastStep
      && e.n == a.n + (if Eps <= r || r == 0.0 then 0 else 1)
  {
    EigenUtils.CreateHCount(t0, tEnd, h, 1);
    ArmaUtils.CreateHCount(t0, tEnd, h);
  }

  /** Both create_init_cond functions build the same state. */
  lemma InitCondAgreement(h0: real, sqrt: real -> real)
    ensures EigenUtils.CreateInitCond(h0, sqrt) == ArmaUtils.CreateInitCond(h0, sqrt)
  {
  }

  /** Both hamiltonian functions give the same column of energies. */
  lemma HamiltonianAgreement(Y: seq<State>)
    ensures EigenHamiltonian.Hamiltonian(Y) == ArmaHamiltonian.Hamiltonian(Y)
  {
  }

  /** Two Stepped results for the same maps, start and length are the same trajectory. */
  lemma SteppedUnique(Y: seq<State>, Z: seq<State>, f: State -> State, g: State -> State, y0: State, n: int)
    requires Stepped(Y, f, g, y0, n) && Stepped(Z, f, g, y0, n)
    ensures Y == Z
  {
    forall i | 0 <= i <= n - 2
      ensures Y[i] == Z[i]
    {
      SteppedOrbit(Y, f, g, y0, n, i);
      SteppedOrbit(Z, f, g, y0, n, i);
    }
  }

  /**
   * With every step stored (S = 1, m = n) an eigen driver returns exactly
   * what the armadillo driver returns for the same n and steps.
   */
  lemma DriversAgree(f: State -> State, g: State -> State, y0: State, n: int, lastStep: real)
    requires 2 <= n
    ensures Fits(Plan(n, n, 1, lastStep))
    ensures Driven(f, g, y0, Plan(n, n, 1, lastStep)) == Swept(f, g, y0, n)
  {
    var p := Plan(n, n, 1, lastStep);
    DrivenRecorded(f, g, y0, p);
    StrideOneIsStepped(Driven(f, g, y0, p), f, g, y0, p);
    SweptStepped(f, g, y0, n);
    SteppedUnique(Driven(f, g, y0, p), Swept(f, g, y0, n), f, g, y0, n);
  }
}
