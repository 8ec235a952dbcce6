/**
 * eigen/src/problems/hamiltonian.cpp: the energy of every column of a
 * trajectory, evaluated row-wise with Eigen's square() and cube().
 */
module EigenHamiltonian {
  import opened HenonHeiles
  import EigenUtils

  function Square(x: real): real { x * x }
  function Cube(x: real): real { x * x * x }

  /** hamiltonian(Y): one entry per column of Y, the energy H of that state. */
  function Hamiltonian(Y: seq<State>): (H: seq<real>)
    ensures |H| == |Y|
    ensures forall j :: 0 <= j < |Y| ==> H[j] == Energy(Y[j])
  {
    seq(|Y|, j requires 0 <= j < |Y| =>
      0.5 * (Square(Y[j].p1) + Square(Y[j].p2))
      + 0.5 * (Square(Y[j].q1) + Square(Y[j].q2))
      + Y[j].q2 * Square(Y[j].q1) - 1.0 / 3.0 * Cube(Y[j].q2))
  }

  /** Evaluated on the initial condition for H_0, the Hamiltonian gives back H_0 whenever sqrt is exact. */
  lemma InitialEnergy(h0: real, sqrt: real -> real)
    requires var r := InitRadicand(h0); 0.0 <= r && 0.0 <= sqrt(r) && sqrt(r) * sqrt(r) == r
    ensures Hamiltonian([EigenUtils.CreateInitCond(h0, sqrt)]) == [h0]
  {
    var H := Hamiltonian([EigenUtils.CreateInitCond(h0, sqrt)]);
    assert H[0] == h0;
  }

  /** Column by column: the Hamiltonian of two concatenated trajectories is the concatenation. */
  lemma Concatenation(Y: seq<State>, Z: seq<State>)
    ensures Hamiltonian(Y + Z) == Hamiltonian(Y) + Hamiltonian(Z)
  {
    var H, A, B := Hamiltonian(Y + Z), Hamiltonian(Y), Hamiltonian(Z);
    assert forall j :: 0 <= j < |Y| ==> H[j] == A[j] by {
      forall j | 0 <= j < |Y| ensures H[j] == A[j] {
        assert (Y + Z)[j] == Y[j];
      }
    }
    assert forall j :: |Y| <= j < |Y + Z| ==> H[j] == B[j - |Y|] by {
      forall j | |Y| <= j < |Y + Z| ensures H[j] == B[j - |Y|] {
        assert (Y + Z)[j] == Z[j - |Y|];
      }
    }
    assert H == A + B;
  }
}
