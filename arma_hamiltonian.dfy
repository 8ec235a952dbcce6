/**
 * armadillo/src/problems/hamiltonian.cpp: the energy of every column of a
 * trajectory as a row vector built with arma::pow and the element-wise
 * product %, returned transposed as a column vector.
 */
module ArmaHamiltonian {
  import opened HenonHeiles
  import ArmaUtils

  /** arma::pow(x, k) for a whole exponent k, one element. */
  function Pow(x: real, k: nat): real {
    if k == 0 then 1.0 else x * Pow(x, k - 1)
  }

  /** The two powers the Hamiltonian uses are the square and the cube. */
  lemma SquareAndCube(x: real)
    ensures Pow(x, 2) == x * x && Pow(x, 3) == x * x * x
  {
    assert Pow(x, 1) == x;
  }

  /** One entry of v: the arma::pow expression for one column is its energy. */
  function ColumnEnergy(y: State): (e: real)
    ensures e == Energy(y)
  {
    SquareAndCube(y.p1);
    SquareAndCube(y.p2);
    SquareAndCube(y.q1);
    SquareAndCube(y.q2);
    0.5 * (Pow(y.p1, 2) + Pow(y.p2, 2))
    + 0.5 * (Pow(y.q1, 2) + Pow(y.q2, 2))
    + y.q2 * Pow(y.q1, 2) - 1.0 / 3.0 * Pow(y.q2, 3)
  }

  /** hamiltonian(Y): v has one entry per column of Y, the energy H of that state; v.t() keeps the entries. */
  function Hamiltonian(Y: seq<State>): (H: seq<real>)
    ensures |H| == |Y|
    ensures forall j :: 0 <= j < |Y| ==> H[j] == Energy(Y[j])
  {
    var v := seq(|Y|, j requires 0 <= j < |Y| => ColumnEnergy(Y[j]));
    v
  }

  /** Evaluated on the initial condition for H_0, the Hamiltonian gives back H_0 whenever sqrt is exact. */
  lemma InitialEnergy(h0: real, sqrt: real -> real)
    requires var r := InitRadicand(h0); 0.0 <= r && 0.0 <= sqrt(r) && sqrt(r) * sqrt(r) == r
    ensures Hamiltonian([ArmaUtils.CreateInitCond(h0, sqrt)]) == [h0]
  {
    var H := Hamiltonian([ArmaUtils.CreateInitCond(h0, sqrt)]);
    assert H[0] == h0;
  }
}
