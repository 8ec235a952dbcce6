# Hénon–Heiles integrators, modelled in Dafny

This project models the numerical core of a C++ program that integrates the
Hénon–Heiles Hamiltonian system

    H(p1, p2, q1, q2) = (p1² + p2²)/2 + (q1² + q2²)/2 + q2·q1² − q2³/3

with four one-step methods:

- classical Runge–Kutta (`kuttas_method`);
- the three-stage Bogacki–Shampine scheme (`shampine_bogacki`);
- Störmer–Verlet with a half-step force carried between calls (`stormer_verlet`);
- Kahan's linearly implicit method (`kahans`).

It also models the step planner `create_H`, the time column `create_T`, the
initial condition `create_init_cond`, the Poincaré section extractor
`poincare` and the energy evaluator `hamiltonian`.

All of this exists twice in the program:

- `eigen/` stores every S-th step through a storage cursor;
- `armadillo/` stores every step, with unsigned loop bounds.

Both variants are modelled, one Dafny module per source file. Where the two
source files are the same routine in another matrix library (`poincare`,
its counting pass, the seed of `q_next`, `create_init_cond`), the two
modules repeat the same Dafny method. This mirrors the two source files, and
each copy is proved against the same shared specification. Shared modules
define what they compute:

- `Numerics` models the C++ and IEEE operations the planners use: `std::ceil`, `int()`, integer division and `std::remainder`.
- `HenonHeiles` has the state, the vector field and the energy.
- `StepPlan` covers what a plan is, plus the corrected planner `Planned`.
- `Schemes` gives each integrator's step as a function of state and step size.
- `Trajectory` states what an eigen driver (`Driven`/`Recorded`) and an armadillo driver (`Swept`/`Stepped`) return.
- `Section` gives the Poincaré points of an orbit.
- `KahanSystem` has the 4×4 array view used by `create_A`.
- `Variants` proves how the two variants relate.

The imperative source routines are Dafny methods on arrays:

- the step routines write stage columns and matrix entries in place;
- the drivers fill a preallocated buffer in a loop;
- `poincare` counts and then fills a 2×n array.

Each method is proved against the specification functions above, and the
properties of those functions are lemmas.

Modelling choices:

- `double` is `real`.
- A column of a 4×N matrix is a `State(p1, p2, q1, q2)`, and a trajectory buffer is an `array<State>`.
- `std::sqrt` and the library linear solves are function-typed parameters. The drivers promise only that each stored column is what the parameter returned on the system built from the previous column. Lemmas assume only what they need: the square root of a non-negative radicand is exact and non-negative, and the solve is exact on a given call (`Schemes.ExactAt`). Exactness is a hypothesis per call, because the Kahan matrix can be singular, so `KahanColumnsSolve` assumes it only for the columns it speaks about.
- The drivers take the plan `create_H` returns as a parameter. Driver correctness is then proved once for any plan, whether it comes from the as-written planners or from the corrected one.
- The stride `SKIP_STORAGE` (fixed to 1 in `eigen/src/storage_info.cpp`) is a parameter `S >= 1`.

Where a description of the system differs from the code, the model follows
the code:

- **Initial condition.** The radicand includes the `−q2²` term that one worked example of the initial condition leaves out.
- **Error cases.** No error is raised for a negative radicand, for `h <= 0` or for a singular Kahan system. The code computes on regardless (see "Left out").
- **Planner agreement.** The two planners agree on `(n, last_step)` only when the remainder is zero or at least `1e-10`. The count also differs for a positive remainder below `1e-10`, not only for a negative one.

## Model

| member | source | states |
|---|---|---|
| Numerics.Ceil | eigen/src/utils.cpp:25 | `std::ceil(x)` is the integer c with c − 1 < x ≤ c |
| Numerics.Trunc | armadillo/src/utils.cpp:19 | `int(x)` truncates toward zero: ⌊x⌋ for x ≥ 0 and ⌈x⌉ for x < 0 |
| Numerics.TruncDiv | eigen/src/utils.cpp:32 | the int division `n/SKIP_STORAGE` truncates toward zero: a / b for a ≥ 0 and −((−a) / b) for a < 0 |
| Numerics.RoundHalfEven | eigen/src/utils.cpp:17 | the multiple `std::remainder` subtracts is the integer nearest x/y, within 1/2 of it and even on a tie |
| Numerics.IeeeRemainder | eigen/src/utils.cpp:17 | `std::remainder(x, y)` for y > 0 lies in [−y/2, y/2] |
| Numerics.RatioAroundRounding | eigen/src/utils.cpp:17-25 | the sign of the remainder r places x/y around the rounded quotient k: for r > 0, floor k and ceil k + 1; for r = 0, x/y = k; for r < 0, floor k − 1 and ceil k |
| Numerics.RemainderOfMultiple | armadillo/src/utils.cpp:18 | the IEEE remainder of an exact multiple k·y by y is 0 |
| HenonHeiles.VectorFieldZeros | eigen/src/methods/rk4.cpp:15-18 | the field `henon_heiles_rk` writes vanishes exactly at the four equilibria: the origin, (0, 1) and (±√3/2, −1/2), all at rest |
| HenonHeiles.VectorFieldIsHamiltonian | eigen/src/methods/rk4.cpp:15-18 | that field is (−∂H/∂q1, −∂H/∂q2, ∂H/∂p1, ∂H/∂p2) of the energy `hamiltonian` evaluates, stated with the exact polynomial increments of H |
| HenonHeiles.EquilibriumEnergy | eigen/src/problems/hamiltonian.cpp:11-13 | H is 0 at the origin and 1/6 at the three other equilibria |
| HenonHeiles.EnergyAtOrigin | eigen/src/problems/hamiltonian.cpp:11-13 | H(0) = 0 |
| HenonHeiles.EnergySymmetries | eigen/src/problems/hamiltonian.cpp:11-13 | H is unchanged when p1, p2 or q1 changes sign |
| HenonHeiles.InitialShell | eigen/src/utils.cpp:59-64 | the state (p1, 0, 0, 0.45) has energy H0 iff p1² is the radicand passed to `sqrt` |
| HenonHeiles.InitRadicand | eigen/src/utils.cpp:62 | the radicand is non-negative iff H0 ≥ 0.070875 |
| StepPlan.CursorAdvance | eigen/src/methods/rk4.cpp:79-87 | when `storage_index = 1 + (i − 1)/S` before iteration i, a storing iteration (i % S = 0) writes an interior column k with k·S = i, and the cursor becomes 1 + i/S |
| StepPlan.Planned | eigen/src/utils.cpp:15-49 | the corrected planner: n ≥ 2; every write fits; m is exactly the 2 + ⌊(n − 2)/S⌋ columns the loops fill; m = n for S = 1; the last step lies in [0, h] |
| StepPlan.PlannedReachesEnd | eigen/src/utils.cpp:17-25 | the corrected schedule t_0 + (n − 2)h + last_step ends at t_end, or short of it by less than 1e-10 |
| Trajectory.ExitCounter | eigen/src/methods/rk4.cpp:79 | `for (i = 1; i < n - 1; i++)` exits with i − 1 = FullSteps(n) loop steps taken |
| Trajectory.Run | eigen/src/methods/rk4.cpp:73-87 | before iteration i the buffer has m columns and the cursor is 1 + (i − 1)/S ≤ 1 + Interior(n, S) |
| Trajectory.StartRun | eigen/src/methods/rk4.cpp:65-66 | `Zero(4, m)` with y0 in column 0 is the loop state before iteration 1 |
| Trajectory.StoreSample | eigen/src/methods/rk4.cpp:82-86 | the storing half of iteration i takes the loop state from Run(i) to Run(i + 1) |
| Trajectory.RunContents | eigen/src/methods/rk4.cpp:65-87 | before iteration i: y_curr is y0 after i − 1 steps; column 0 is y0; column k < cursor is y0 after k·S steps; the later columns are zero |
| Trajectory.RunRecorded | eigen/src/methods/rk4.cpp:89-91 | writing the final step of y_curr into column m − 1 at loop exit gives a Recorded result |
| Trajectory.Driven | eigen/src/methods/rk4.cpp:89-93 | an eigen result has m columns, and column m − 1 is the last_step step of the final y_curr |
| Trajectory.DrivenRecorded | eigen/src/methods/rk4.cpp:65-93 | every eigen result is Recorded: column 0 is y0 (m ≥ 2); interior column k is y0 after k·S h-steps; unreached columns are zero; column m − 1 is the last_step step after all n − 2 h-steps |
| Trajectory.RecordedStride | eigen/src/methods/rk4.cpp:79-87 | consecutive stored columns of an eigen result are S h-steps apart |
| Trajectory.StoreLast | eigen/src/methods/rk4.cpp:90-93 | the final write gives exactly `Driven(f, g, y0, p)` |
| Trajectory.Sweep | armadillo/src/methods/rk4.cpp:64-74 | after any number of iterations the armadillo buffer still has n columns |
| Trajectory.StartSweep | armadillo/src/methods/rk4.cpp:64-65 | `zeros(4, n)` with y0 in column 0 is the buffer before the first iteration |
| Trajectory.SweepNext | armadillo/src/methods/rk4.cpp:71-74 | iteration i writes the h-step of column i into column i + 1 |
| Trajectory.SweepContents | armadillo/src/methods/rk4.cpp:64-74 | after i iterations, column 0 is y0, columns 1..i each follow from the previous one, and the rest are zero |
| Trajectory.Swept | armadillo/src/methods/rk4.cpp:64-79 | an armadillo result has n columns, and column n − 1 is the last_step step of column n − 2 |
| Trajectory.SweptStepped | armadillo/src/methods/rk4.cpp:64-79 | every armadillo result is Stepped: column 0 is y0; column i + 1 is the h-step of column i for i ≤ n − 3; column n − 1 is the last_step step of column n − 2 |
| Trajectory.SteppedOrbit | armadillo/src/methods/rk4.cpp:71-74 | column i ≤ n − 2 of a Stepped result is y0 after i h-steps |
| Trajectory.StrideOneIsStepped | eigen/src/methods/rk4.cpp:79-91 | with S = 1 and m = n, an eigen result is Stepped, so column i is y0 after i h-steps |
| Trajectory.SteppedAtRest | armadillo/src/methods/rk4.cpp:71-77 | started at a fixed point of both step maps, every column is y0 |
| Trajectory.RecordedAtRest | eigen/src/methods/rk4.cpp:79-91 | started at a fixed point of both step maps, every written column is y0 |
| Schemes.IterateAdd | eigen/src/methods/rk4.cpp:79-87 | a + b steps are a steps followed by b steps |
| Schemes.IterateFixed | eigen/src/methods/rk4.cpp:79-87 | a fixed point of the step stays put for any number of steps |
| Schemes.Rk4WeightsConsistent | eigen/src/methods/rk4.cpp:40 | the weights sum to one: with all four stages equal to k the step is y + h·k |
| Schemes.Rk4AtRest | eigen/src/methods/rk4.cpp:32-40 | with h = 0, or at a zero of the vector field, the step leaves y unchanged |
| Schemes.SbWeightsConsistent | eigen/src/methods/sb.cpp:39 | 2/9 + 3/9 + 4/9 = 1: with all three stages equal to k the step is y + h·k |
| Schemes.SbAtRest | eigen/src/methods/sb.cpp:32-39 | with h = 0, or at a zero of the vector field, the step leaves y unchanged |
| Schemes.HalfKick | eigen/src/methods/sv.cpp:18-19 | `q_next` is 0.5·h times the momentum part of the vector field at the positions (q1, q2) |
| Schemes.SvReversible | eigen/src/methods/sv.cpp:11-27 | the Störmer–Verlet map is time-reversible: stepping by h and then by −h returns to y |
| Schemes.LeapfrogReversible | eigen/src/methods/sv.cpp:13-24 | kick, drift, kick with −h and negated kicks undoes the step with h |
| Schemes.HalfKickOdd | eigen/src/methods/sv.cpp:18-19 | the half kick for −h is the negated half kick for h |
| Schemes.SvAtRest | eigen/src/methods/sv.cpp:11-27 | with h = 0, or at a zero of the vector field, the step leaves y unchanged |
| Schemes.Identity | eigen/src/methods/kahans.cpp:75 | the identity is 4×4 and is the frame that `create_A` never writes |
| Schemes.KahanMatrix | eigen/src/methods/kahans.cpp:11-19 | the matrix is 4×4 and equals the identity outside the six entries `create_A` writes |
| Schemes.PolarP1 | eigen/src/methods/kahans.cpp:13-14 | Kahan's polarised force on p1 reduces to the force −q1(1 + 2q2) when both states coincide |
| Schemes.PolarP2 | eigen/src/methods/kahans.cpp:15-16 | Kahan's polarised force on p2 reduces to the force −(q2 + q1² − q2²) when both states coincide |
| Schemes.PolarSymmetric | eigen/src/methods/kahans.cpp:13-16 | both polarised forces are symmetric in the old and new state |
| Schemes.KahanSystemMeaning | eigen/src/methods/kahans.cpp:11-35 | x solves A(y, h)·x = b(y, h) iff rows 0–1 give p' − p = h·(polarised force) and rows 2–3 give q' = q + h/2·(p + p') (trapezoidal rule) |
| Schemes.SolutionMeaning | eigen/src/methods/kahans.cpp:11-35 | a solution of the system satisfies the equations of Kahan's method |
| Schemes.EquationsSolve | eigen/src/methods/kahans.cpp:11-35 | a state satisfying the equations of Kahan's method solves the system |
| Schemes.KahanRow0 | eigen/src/methods/kahans.cpp:13-14 | row 0 of A·x − b, with b[0] from line 31, is (p1' − p1) − h·PolarP1 |
| Schemes.KahanRow1 | eigen/src/methods/kahans.cpp:15-16 | row 1 of A·x − b, with b[1] from line 32, is (p2' − p2) − h·PolarP2 |
| Schemes.KahanRow2 | eigen/src/methods/kahans.cpp:17 | row 2 of A·x − b, with b[2] from line 33, is q1' − (q1 + h/2·(p1 + p1')) |
| Schemes.KahanRow3 | eigen/src/methods/kahans.cpp:18 | row 3 of A·x − b, with b[3] from line 34, is q2' − (q2 + h/2·(p2 + p2')) |
| Schemes.KahanReversible | eigen/src/methods/kahans.cpp:11-35 | Kahan's method is symmetric: x solves the system built at y with h iff y solves the one built at x with −h |
| Schemes.KahanEquationsReversed | eigen/src/methods/kahans.cpp:11-35 | the equations of Kahan's method from y to x with h are those from x to y with −h |
| Schemes.KahanZeroStep | eigen/src/methods/kahans.cpp:11-35 | with step 0, A is the identity and the only solution is y itself |
| Schemes.KahanAtRest | eigen/src/methods/kahans.cpp:11-35 | a zero of the vector field solves its own system for every step size |
| KahanSystem.NewIdentity | eigen/src/methods/kahans.cpp:75 | `Identity(4, 4)` is a fresh 4×4 array holding the identity |
| KahanSystem.FilledFrame | eigen/src/methods/kahans.cpp:11-19 | an identity frame holding the six `create_A` values is exactly the Kahan matrix of (y, h) |
| EigenUtils.CreateH | eigen/src/utils.cpp:15-49 | the stride is S; last_step is h or lies in [1e-10, h/2]; n ≥ 1 for t_end ≥ t_0; m = n for S = 1 |
| EigenUtils.CreateHFits | eigen/src/utils.cpp:28-48 | every column any driver writes lies inside the m that `create_H` allocates, and m is within one of the 2 + ⌊(n − 2)/S⌋ columns the loop fills |
| EigenUtils.StridedColumns | eigen/src/utils.cpp:32-45 | for S ≥ 2, m = n/S + 1 or + 2 covers the interior and is within one of the filled column count |
| EigenUtils.CreateHCount | eigen/src/utils.cpp:17-25 | with k the nearest multiple and r the remainder: n = k + 2 when r > 0, n = k + 1 when r ≤ 0; last_step is r when r ≥ 1e-10, else h |
| EigenUtils.CreateHEndTime | eigen/src/utils.cpp:17-25 | for t_end > t_0 the schedule ends in [t_end, t_end + h), and at t_end exactly when r ≥ 1e-10 or r = 0 |
| EigenUtils.NegativeRemainderExample | eigen/src/utils.cpp:17-25 | t_end − t_0 = 1.4, h = 0.3: n = 6, last step 0.3, end 1.5 |
| EigenUtils.PositiveRemainderExample | eigen/src/utils.cpp:17-25 | t_end − t_0 = 1.0, h = 0.3: n = 5, last step 0.1, end 1.0 |
| EigenUtils.StrideGapExample | eigen/src/utils.cpp:32-45 | S = 2 over an exact multiple of 5 steps: n = 6, m = 5, but only 4 columns are filled |
| EigenUtils.StrideOverwriteExample | eigen/src/utils.cpp:32-45 | S = 3, t_end − t_0 = 3.25, h = 1: n = 5, m = 2, three columns wanted, and the one interior sample lands in column m − 1 |
| EigenUtils.CreateInitCond | eigen/src/utils.cpp:57-65 | p2 = q1 = 0 and q2 = 0.45; when sqrt is exact on a non-negative radicand, p1 ≥ 0 and the energy is H0 |
| EigenUtils.CreateT | eigen/src/utils.cpp:76-101 | T has m entries; T[0] = t_0 (m ≥ 2) and T[m − 1] = t_end; the entry for iteration k·S is k·S·h with no t_0 offset; unreached entries stay 0 |
| EigenUtils.CreateTCorrected | eigen/src/utils.cpp:76-101 | as `create_T`, but the interior entry for iteration k·S is t_0 + k·S·h |
| EigenUtils.TimeColumn | eigen/src/utils.cpp:83-98 | the `create_T` loop with `curr_time` starting at `start`: stored entry k is start + k·S·h, and every write is inside [0, m − 1] |
| ArmaUtils.CreateH | armadillo/src/utils.cpp:15-26 | n is a uword, so `int(ratio) + 1` and the `n + 1` of the remainder branch wrap modulo 2^64; last_step is h or lies in [1e-10, h/2]; n ≥ 1 whenever t_end ≥ t_0 |
| ArmaUtils.CountNoWrap | armadillo/src/utils.cpp:19-23 | for t_end ≥ t_0 nothing wraps: n is int(ratio) + 1, plus one when the remainder is at least 1e-10 |
| ArmaUtils.NegativeIntervalExample | armadillo/src/utils.cpp:19-23 | t_end − t_0 = −1, h = 0.3 gives n = 2^64 − 2; t_end − t_0 = −0.78 gives n = 2^64 − 1, and the remainder 0.12 then wraps n + 1 to 0 |
| ArmaUtils.CreateHExactMultiple | armadillo/src/utils.cpp:15-25 | t_end − t_0 = k·h gives n = k + 1 and last step h, which ends at t_end when k ≥ 1 |
| ArmaUtils.CreateHCount | armadillo/src/utils.cpp:17-25 | with k the nearest multiple and r the remainder: int(ratio) + 1 is k for r < 0 and k + 1 otherwise; r ≥ 1e-10 adds one more and makes r the last step |
| ArmaUtils.CreateHEndTime | armadillo/src/utils.cpp:17-25 | the schedule ends at t_end when r ≥ 1e-10, at t_end − r for 0 ≤ r < 1e-10 (n ≥ 2), and at t_end − (h + r) < t_end for a negative r |
| ArmaUtils.CreateHSingle | armadillo/src/utils.cpp:17-25 | for h ≥ 2e-10, n = 1 iff t_end − t_0 < 1e-10 or h/2 < t_end − t_0 < h |
| ArmaUtils.UnsignedLoopBound | armadillo/src/utils.cpp:64 | the uword bound n − 2 is n − 2 for n ≥ 2 and wraps to 2^64 + n − 2 > n for n < 2 |
| ArmaUtils.SingleColumnExample | armadillo/src/utils.cpp:17-25 | t_end − t_0 = 0.2, h = 0.3 gives n = 1, and the unsigned bound is 2^64 − 1 |
| ArmaUtils.NegativeRemainderExample | armadillo/src/utils.cpp:17-25 | t_end − t_0 = 1.4, h = 0.3: n = 5, last step 0.3, end 1.2 |
| ArmaUtils.CreateInitCond | armadillo/src/utils.cpp:35-43 | (sqrt(radicand), 0, 0, 0.45); when sqrt is exact on a non-negative radicand, p1 ≥ 0 and the energy is H0 |
| ArmaUtils.CreateT | armadillo/src/utils.cpp:55-70 | T has n entries: T[0] = t_0, T[i] = t_0 + i·h for 1 ≤ i ≤ n − 2, and T[n − 1] = t_end |
| EigenRk4.HenonHeilesRk | eigen/src/methods/rk4.cpp:10-21 | the output column becomes the vector field at y, and every other column of `Y_vec` is untouched |
| EigenRk4.KuttaIteration | eigen/src/methods/rk4.cpp:32-43 | `Y_vec` ends holding the four stages and y_curr becomes the RK4 step, whatever `Y_vec` held before |
| EigenRk4.KuttaPass | eigen/src/methods/rk4.cpp:79-87 | one loop iteration takes the loop state from Run(i) to Run(i + 1) |
| EigenRk4.KuttasMethod | eigen/src/methods/rk4.cpp:56-94 | the result is `Driven` by the h-step and the last_step step, so it is Recorded |
| ArmaRk4.HenonHeilesRk | armadillo/src/methods/rk4.cpp:10-21 | the output column becomes the vector field at y, and every other column is untouched |
| ArmaRk4.KuttaIteration | armadillo/src/methods/rk4.cpp:33-43 | `Y_vec` holds the stages of column src, column dst becomes its RK4 step, and no other column of Y changes |
| ArmaRk4.KuttaPass | armadillo/src/methods/rk4.cpp:71-74 | one loop iteration takes the buffer from Sweep(i) to Sweep(i + 1) |
| ArmaRk4.KuttasMethod | armadillo/src/methods/rk4.cpp:56-80 | the result is `Swept` by the h-step and the last_step step, so it is Stepped |
| EigenSb.HenonHeilesSb | eigen/src/methods/sb.cpp:10-21 | the output column becomes the vector field at y, and every other column is untouched |
| EigenSb.SbIteration | eigen/src/methods/sb.cpp:32-42 | `Y_vec` ends holding the three stages and y_curr becomes the Bogacki–Shampine step |
| EigenSb.SbPass | eigen/src/methods/sb.cpp:79-87 | one loop iteration takes the loop state from Run(i) to Run(i + 1) |
| EigenSb.ShampineBogacki | eigen/src/methods/sb.cpp:55-94 | the result is `Driven` by the h-step and the last_step step |
| ArmaSb.HenonHeilesSb | armadillo/src/methods/sb.cpp:10-21 | the output column becomes the vector field at y, and every other column is untouched |
| ArmaSb.SbIteration | armadillo/src/methods/sb.cpp:33-42 | column dst becomes the step of column src, `Y_vec` holds its stages, and no other column changes |
| ArmaSb.SbPass | armadillo/src/methods/sb.cpp:71-74 | one loop iteration takes the buffer from Sweep(i) to Sweep(i + 1) |
| ArmaSb.ShampineBogacki | armadillo/src/methods/sb.cpp:55-79 | the result is `Swept` by the h-step and the last_step step |
| EigenSv.HenonHeilesSv | eigen/src/methods/sv.cpp:11-27 | y_curr becomes the leapfrog step with incoming `q_next`, and `q_next` becomes the half kick at the new positions |
| EigenSv.SeedKick | eigen/src/methods/sv.cpp:51-54 | the seed of `q_next` is the half kick at y's positions |
| EigenSv.Reseed | eigen/src/methods/sv.cpp:74-76 | the rebuilt `q_next` is the half kick at y_curr with last_step, and equals the kick the loop carried when last_step = h |
| EigenSv.SvPass | eigen/src/methods/sv.cpp:64-72 | one loop iteration takes the loop state from Run(i) to Run(i + 1) and leaves `q_next` the half kick at y_curr |
| EigenSv.StormerVerlet | eigen/src/methods/sv.cpp:39-82 | the result is `Driven` by the Störmer–Verlet maps for h and last_step |
| ArmaSv.HenonHeilesSv | armadillo/src/methods/sv.cpp:12-28 | column dst becomes the leapfrog step of column src, no other column changes, and `q_next` becomes the half kick at the new positions |
| ArmaSv.SeedKick | armadillo/src/methods/sv.cpp:50 | the seed of `q_next` is the half kick at y's positions |
| ArmaSv.Reseed | armadillo/src/methods/sv.cpp:55-56 | the rebuilt `q_next` is the half kick at column n − 2 with last_step, and equals the kick the loop carried when last_step = h |
| ArmaSv.SvPass | armadillo/src/methods/sv.cpp:52-53 | one loop iteration takes the buffer from Sweep(i) to Sweep(i + 1) and leaves `q_next` the half kick at column i + 1 |
| ArmaSv.StormerVerlet | armadillo/src/methods/sv.cpp:40-60 | the result is `Swept` by the Störmer–Verlet maps for h and last_step |
| EigenKahans.CreateA | eigen/src/methods/kahans.cpp:11-19 | from an identity frame, A becomes exactly the Kahan matrix of (y, h) |
| EigenKahans.CreateB | eigen/src/methods/kahans.cpp:29-35 | b becomes (p1 − h/2·q1, p2 − h/2·q2, q1 + h/2·p1, q2 + h/2·p2) |
| EigenKahans.KahansIteration | eigen/src/methods/kahans.cpp:46-50 | A and b become the system for (y_curr, h) |
| EigenKahans.KahanSolve | eigen/src/methods/kahans.cpp:88-89 | build the system, then solve it: the next state is the Kahan step, and A keeps its identity frame |
| EigenKahans.KahanPass | eigen/src/methods/kahans.cpp:86-95 | one loop iteration takes the loop state from Run(i) to Run(i + 1), A keeping its identity frame |
| EigenKahans.Kahans | eigen/src/methods/kahans.cpp:62-102 | the result is `Driven` by the Kahan maps for h and last_step |
| EigenKahans.KahanColumnsSolve | eigen/src/methods/kahans.cpp:86-99 | where each solve is exact, every h-step of the loop and the final last_step step satisfy the equations of Kahan's method, stored column k is y0 after k·S steps, and for S = 1, m = n consecutive columns satisfy them |
| ArmaKahans.CreateA | armadillo/src/methods/kahans.cpp:11-19 | from an identity frame, A becomes exactly the Kahan matrix of (y, h) |
| ArmaKahans.CreateB | armadillo/src/methods/kahans.cpp:29-35 | b becomes the Kahan right-hand side at (y, h) |
| ArmaKahans.KahansIteration | armadillo/src/methods/kahans.cpp:46-50 | A and b become the system for (y, h) |
| ArmaKahans.KahanSolve | armadillo/src/methods/kahans.cpp:84-85 | the solve of the system built at y is the Kahan step, and A keeps its identity frame |
| ArmaKahans.KahanColumn | armadillo/src/methods/kahans.cpp:84-85 | column dst becomes the Kahan step of column src, and no other column changes |
| ArmaKahans.KahanPass | armadillo/src/methods/kahans.cpp:82-86 | one loop iteration takes the buffer from Sweep(i) to Sweep(i + 1), A keeping its identity frame |
| ArmaKahans.Kahans | armadillo/src/methods/kahans.cpp:62-93 | the result is `Swept` by the Kahan maps for h and last_step |
| ArmaKahans.KahanColumnsSolve | armadillo/src/methods/kahans.cpp:82-90 | where each solve is exact, column i + 1 solves A(column i, h)·x = b(column i, h) and satisfies the equations of Kahan's method, and column n − 1 does so for column n − 2 with last_step |
| Section.CrossingCount | eigen/src/problems/poincare.cpp:14-19 | the count of crossings among samples 1..k − 1 is at most k |
| Section.Points | eigen/src/problems/poincare.cpp:26-35 | there is one interpolated point per crossing counted |
| Section.SectionPoints | eigen/src/problems/poincare.cpp:10-38 | the section has as many points as the counting pass counts |
| Section.CrossingIndices | eigen/src/problems/poincare.cpp:26-35 | the crossing indices are as many as the crossings counted |
| Section.IndicesAreCrossings | eigen/src/problems/poincare.cpp:28 | every listed index i lies in [1, k) and passes the test p1 > 0 and q1[i]·q1[i − 1] < 0 |
| Section.IndicesIncrease | eigen/src/problems/poincare.cpp:26-35 | the crossings come in increasing sample order |
| Section.CrossingsAreListed | eigen/src/problems/poincare.cpp:26-35 | every crossing in [1, k) is listed |
| Section.PointsAtIndices | eigen/src/problems/poincare.cpp:30-32 | point j is interpolated between the samples around the j-th crossing index, whose q1 values differ |
| Section.CountMonotone | eigen/src/problems/poincare.cpp:26-35 | the running count never decreases, so the fill cursor stays below the allocated count |
| Section.CrossingWeight | eigen/src/problems/poincare.cpp:30 | at a crossing, q1[i − 1] ≠ q1[i] and 0 < lam < 1 |
| Section.ConvexBetween | eigen/src/problems/poincare.cpp:31-32 | lam·v + (1 − lam)·u lies between u and v for 0 < lam < 1 |
| Section.CrossingBetween | eigen/src/problems/poincare.cpp:30-32 | each point's q2 and p2 lie between their values at samples i − 1 and i |
| Section.ZeroIsNoCrossing | eigen/src/problems/poincare.cpp:17 | a sample with q1 exactly 0 is no crossing, and neither is the sample after it |
| Section.ShortOrbitNoPoints | eigen/src/problems/poincare.cpp:15 | fewer than two samples give no section point |
| Section.OneSignNoPoints | eigen/src/problems/poincare.cpp:15-19 | when q1 never changes sign there are no section points |
| Section.SectionExample | eigen/src/problems/poincare.cpp:28-32 | samples (5, 3, −1, 2) then (5, 6, 1, 4) give exactly the point (3, 4.5) |
| EigenPoincare.Poincare | eigen/src/problems/poincare.cpp:10-38 | `p_mat` has exactly one column per crossing, all of them filled: column j holds (q2, p2) of the j-th section point |
| EigenPoincare.CountCrossings | eigen/src/problems/poincare.cpp:14-19 | the counting pass ends with n equal to the number of crossings |
| EigenPoincare.StoreCrossing | eigen/src/problems/poincare.cpp:28-34 | one fill iteration writes the interpolated point into column n at a crossing and keeps the filled prefix |
| ArmaPoincare.Poincare | armadillo/src/problems/poincare.cpp:10-40 | `p_mat` has exactly one column per crossing, all of them filled: column j holds (q2, p2) of the j-th section point |
| ArmaPoincare.CountCrossings | armadillo/src/problems/poincare.cpp:14-19 | the counting pass ends with n equal to the number of crossings |
| ArmaPoincare.StoreCrossing | armadillo/src/problems/poincare.cpp:28-36 | one fill iteration assigns the interpolated column n at a crossing and keeps the filled prefix |
| EigenHamiltonian.Hamiltonian | eigen/src/problems/hamiltonian.cpp:9-14 | one entry per column of Y, and entry j is the energy H of column j |
| EigenHamiltonian.InitialEnergy | eigen/src/problems/hamiltonian.cpp:11-13 | round trip: `hamiltonian(create_init_cond(H0)) = H0` when sqrt is exact on a non-negative radicand |
| EigenHamiltonian.Concatenation | eigen/src/problems/hamiltonian.cpp:11-13 | entry j depends on column j only: the Hamiltonian of Y ++ Z is that of Y followed by that of Z |
| ArmaHamiltonian.SquareAndCube | armadillo/src/problems/hamiltonian.cpp:11-13 | helper fact for `ColumnEnergy`: `arma::pow(x, 2)` is x² and `arma::pow(x, 3)` is x³ |
| ArmaHamiltonian.ColumnEnergy | armadillo/src/problems/hamiltonian.cpp:11-13 | the `arma::pow` expression for one column is its energy H |
| ArmaHamiltonian.Hamiltonian | armadillo/src/problems/hamiltonian.cpp:9-16 | the transposed row vector has one entry per column of Y: the energy H of that column |
| ArmaHamiltonian.InitialEnergy | armadillo/src/problems/hamiltonian.cpp:11-13 | round trip: `hamiltonian(create_init_cond(H0)) = H0` when sqrt is exact on a non-negative radicand |
| Variants.CreateHAgreement | armadillo/src/utils.cpp:15-26 | for t_end > t_0 both planners give the same last step; eigen's n (S = 1) equals armadillo's iff r = 0 or r ≥ 1e-10, and is one more otherwise |
| Variants.InitCondAgreement | armadillo/src/utils.cpp:35-43 | both `create_init_cond` functions return the same state |
| Variants.HamiltonianAgreement | armadillo/src/problems/hamiltonian.cpp:11-13 | the two `hamiltonian` functions agree entrywise |
| Variants.SteppedUnique | armadillo/src/methods/rk4.cpp:64-77 | the Stepped result is unique for given maps, start and length |
| Variants.DriversAgree | eigen/src/methods/rk4.cpp:56-94 | with S = 1 and m = n, an eigen driver returns exactly what the armadillo driver returns for the same n and steps |

## Left out

- The OpenMP orchestration in `compute.cpp`, the entry points `main.cpp`, and the configuration files (`storage_info.cpp`, `constants.h`, `file_names.h`) are not modelled. `S`, `h`, `t_0`, `t_end` and `H_0` are parameters instead.
- `decimal_to_string` and `matrix_to_CSV` are not modelled: stream formatting and file output.
- Floating point is idealised as `real`. Rounding, whether `1e-10` really absorbs representation error, order of accuracy and energy drift are not stated. An underflowing product `q1[i]·q1[i−1]` in the crossing test is not modelled either.
- `std::sqrt` is a parameter. The NaN it returns for a negative radicand is not modelled; the lemmas assume an exact non-negative root.
- `partialPivLu().solve` and `arma::solve` are a parameter. What they return on a singular system is not modelled; `KahanColumnsSolve` assumes exactness (`ExactAt`) separately for each call it speaks about, and says nothing about a column whose solve was not exact.
- The drivers and both `create_T` functions take the plan as a parameter instead of calling `create_H` themselves; the planners are modelled separately.
- ArmaRk4.KuttasMethod, ArmaSb.ShampineBogacki, ArmaSv.StormerVerlet, ArmaKahans.Kahans and ArmaUtils.CreateT require n ≥ 2. For n < 2 the source's unsigned bound `n - 2` wraps (see Findings), and the model gives no behaviour for that case.
- EigenUtils.CreateH: does not model 32-bit `int` overflow of `int(std::ceil(ratio)) + 1` for ratios beyond 2^31, because the program's intervals are far below it.
- ArmaUtils.CreateH: requires `int(ratio)` and `int(ratio) + 1` to be 32-bit ints (`CountFits`), because outside that range the conversion or the addition is undefined behaviour in C++. Its lemmas and `Variants.CreateHAgreement` carry the same domain; the uword wrap of a negative count is modelled.
- Both planners require h > 0. The source rejects nothing and divides by h, which for h = 0 gives infinities the model does not represent.
- `unsafe_col` views passed by value are modelled as writes into the buffer column, as the drivers intend. Aliasing between views is library behaviour and is not modelled.
- The armadillo `kahans` allocation of the unused scratch `Y_vec` (armadillo/src/methods/kahans.cpp:79) is omitted.
- A trajectory is an array of `State` columns instead of a 4×m array of doubles, and the drivers return it as a sequence.
- `poincare` takes Y as a sequence of columns; its `p_mat` is a 2×n array.

## Findings

| source | as written | input that shows it | evidently intended | confidence | as-written member | corrected member |
|---|---|---|---|---|---|---|
| eigen/src/utils.cpp:20-25 | a negative remainder, or a positive one below 1e-10, is dropped while n still rounds up with ceil, so the run overshoots t_end | t_end − t_0 = 1.4, h = 0.3: n = 6, last step 0.3, the run ends at 1.5 | the schedule ends at t_end | not executed | EigenUtils.NegativeRemainderExample | StepPlan.PlannedReachesEnd |
| armadillo/src/utils.cpp:19-25 | a negative remainder is dropped while n truncates, so the run stops short of t_end | t_end − t_0 = 1.4, h = 0.3: n = 5, the run ends at 1.2 | the schedule ends at t_end | not executed | ArmaUtils.NegativeRemainderExample | StepPlan.PlannedReachesEnd |
| eigen/src/utils.cpp:32-45 | m = n/S + 1 or + 2 can exceed the filled columns, leaving a zero column | S = 2, t_end − t_0 = 5, h = 1: n = 6, m = 5, but only 4 columns are filled | m = 2 + ⌊(n − 2)/S⌋ | not executed | EigenUtils.StrideGapExample | StepPlan.Planned |
| eigen/src/utils.cpp:32-45 | m can fall short of the filled columns, so the final state overwrites the last interior sample | S = 3, t_end − t_0 = 3.25, h = 1: n = 5, m = 2, and iteration 3's sample is overwritten | m = 2 + ⌊(n − 2)/S⌋ | not executed | EigenUtils.StrideOverwriteExample | StepPlan.Planned |
| eigen/src/utils.cpp:87-94 | `curr_time` starts at 0, so the interior times lack t_0 | t_0 = 1, h = 1, S = 1, n = 4: T[1] = 1 instead of 2 | T[k] = t_0 + k·S·h | not executed | EigenUtils.CreateT | EigenUtils.CreateTCorrected |
| armadillo/src/utils.cpp:64 | the uword bound `n - 2` wraps for n = 1, in `create_T` and in every driver loop | t_end − t_0 = 0.2, h = 0.3: n = 1 and the loop bound is 2^64 − 1 | n ≥ 2 | not executed | ArmaUtils.SingleColumnExample | StepPlan.Planned |
