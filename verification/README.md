# Newton-Raphson power flow, modelled in Dafny

This project models the core of a small power-flow analysis package. A power
system is a list of buses and a list of lines. From the lines the package
assembles the complex bus admittance matrix. It then runs Newton-Raphson
iterations that move bus voltage angles and magnitudes until the calculated
power injections match the specified ones.

The model covers two implementations that live side by side in the repository:

- the current solver (`power_flow_solver.py` over `power_system.py`), with
  four bus types and a Jacobian built over the angle subset (every bus except
  the swing bus) and the magnitude subset (the PQ buses);
- the older pipeline (`power_flow.py` with `power_flow_jacobian.py`), which
  balances the slack bus's power, builds four n x n blocks indexed by bus
  number, deletes the slack row and column, tests convergence with a signed
  comparison and splits the correction vector into halves.

The two are kept in separate modules, because their rules differ.

Real numbers stand for floats. Complex numbers are pairs of reals. Voltages
are held in polar form `(mag, angle)`. Sine and cosine are passed in as a
`Trig` value of two arbitrary real functions, so every result about them holds
for any pair of functions. The matrix inverse and product of the Newton step
are a `LinearSolve` parameter whose only known fact is that a solution has
one entry per right-hand side entry; `None` stands for numpy's singular-matrix
error.

Modules:

- `Wrappers`: `Option` and `Result`.
- `Phasor`: polar voltages, the `Trig` pair, nudging one component.
- `Matrices`: `seq<seq<T>>` matrices, all-equal fill, index skipping, row and
  column deletion, 2 x 2 block layout, and the linear-solve oracle.
- `ComplexArith`: complex arithmetic, reciprocal, sums of sequences.
- `PowerSystem`: bus and line records, Python index wrap, admittance assembly.
- `Estimates`: bus classification, per-bus estimates, the two ordered subsets.
- `Jacobian`: the four Jacobian blocks of the current solver and the mismatch vector.
- `Solver`: construction, convergence test, correction split and one step.
- `LegacyPowerFlow`: the older bus and line readers, error list, signed
  convergence test and correction application.
- `LegacyJacobian`: the older Jacobian, block by block.

The current solver keys its estimates by bus number in dictionaries, so a
repeated bus number keeps only its last bus. The model states that as it is.
`DistinctNumbers` is the condition under which the estimates line up one for
one with the buses.

The code includes UNKNOWN buses in the angle subset: only the swing bus is
filtered out at `power_flow_solver.py:98`. The model follows the code.

The bus record names its fourth field `active_power_injected`
(`power_system.py:36-38`). The solver reads `active_power_generated` instead,
at `power_flow_solver.py:113` for every non-swing bus and at `:146` for every
bus. The record has no field of that name, so Python raises AttributeError
and, as written, a solver cannot be built over any non-empty bus list. This is
listed under Findings. The rest of the model reads the declared field, which
it calls `activeGenerated`.

Some helpers carry only the shape of what they build. Their meaning is stated
by other members:

- `Solver.ActiveErrors` and `Solver.ReactiveErrors` are stated by
  `Solver.ActiveBound` and `Solver.ReactiveBound`.
- `LegacyPowerFlow.ToLines` is stated by `ToLine`, `FirstLineError` and
  `ReadAdmittanceMatchesSystem`.
- The block builders `Jacobian.J11` to `Jacobian.J22` are stated by
  `J11Entries` to `J22Entries`.

The older Jacobian's module description gives a sine for the J11 off-diagonal
entry. The code uses a cosine, and the model follows the code.

## Model

| member | source | states |
|---|---|---|
| PowerSystem.Slot | power_system.py:57-58 | `number - 1` as a Python list index: the position itself for numbers 1..n, counted from the end for numbers in [1-n, 0], always below n |
| PowerSystem.AddTo | power_system.py:63-66 | one in-place `+=` on an n x n matrix changes only entry (i, j), by v |
| PowerSystem.StampLine | power_system.py:56-66 | one line's four updates add its contribution to each entry: -1/z at (s, d) and (d, s), 1/z + shunt at (s, s) and (d, d) |
| PowerSystem.Assemble | power_system.py:56-66 | the fold over the lines keeps the matrix n x n and adds to every entry the sum of all lines' contributions |
| PowerSystem.AdmittanceMatrix | power_system.py:49-68 | the result is n x n with n the number of buses; with no lines it is all zero; every entry is the sum of the lines' contributions |
| PowerSystem.LineSumSymmetric | power_system.py:63-66 | the summed contributions at (i, j) equal those at (j, i) for any line list |
| PowerSystem.AdmittanceSymmetric | power_system.py:63-64 | Y[i][j] == Y[j][i] for every pair of buses |
| PowerSystem.LineSumUnjoined | power_system.py:55-66 | off the diagonal, a pair no line joins sums to zero |
| PowerSystem.AdmittanceUnjoinedZero | power_system.py:55-66 | an off-diagonal entry for two buses no line joins stays 0 |
| PowerSystem.LineSumConcat | power_system.py:56-66 | the contributions of two line lists joined add up |
| PowerSystem.LineSumRemove | power_system.py:56-66 | taking any one line out of the list subtracts exactly its contribution |
| PowerSystem.LineSumPermutation | power_system.py:56-66 | two line lists with the same multiset give the same sum at every entry |
| PowerSystem.AdmittanceOrderIndependent | power_system.py:56-66 | reordering the lines leaves the admittance matrix unchanged |
| PowerSystem.ContributionAlongRow | power_system.py:63-66 | along its own row, a line without a self-loop adds 1/z + shunt on the diagonal, -1/z at the far end and nothing elsewhere |
| PowerSystem.EndpointRow | power_system.py:63-66 | at an end of a line, its row is 1/z + shunt on the diagonal and -1/z at the other end |
| PowerSystem.UnjoinedRow | power_system.py:63-66 | a line contributes nothing to the row of a bus it does not touch |
| PowerSystem.ContributionRowSum | power_system.py:63-66 | one line's row sums to its shunt at either of its ends and to zero elsewhere |
| PowerSystem.LineSumRowSum | power_system.py:56-66 | without self-loops, row i of the summed contributions adds up to the shunts of the lines incident to bus i |
| PowerSystem.AdmittanceRowSum | power_system.py:63-66 | without self-loops, each admittance row sums to the total shunt admittance of the lines at that bus |
| Estimates.Classify | power_flow_solver.py:110-119 | swing exactly when the number is the swing number; PV exactly when not swing and generating; PQ exactly when neither but consuming P or Q; UNKNOWN otherwise, so a generating swing bus is still SWING |
| Estimates.EstimateOf | power_flow_solver.py:128-148 | the estimate carries its bus, its position and its type, and calculated plus error power is generated minus consumed P, and minus consumed Q |
| Estimates.ActiveTerm | power_flow_solver.py:143 | one term of the active sum is the real part of the complex power V_k conj(y_ki V_i) |
| Estimates.ReactiveTerm | power_flow_solver.py:144 | one term of the reactive sum is the imaginary part of that same complex power |
| Estimates.SumsAreComplexPower | power_flow_solver.py:135-144 | the accumulated P and Q are the real and imaginary parts of one sum of complex powers over the row |
| Estimates.IndexOfKey | power_flow_solver.py:148 | the dictionary lookup finds the first entry with the key, or reports none below it |
| Estimates.KeyPresent | power_flow_solver.py:148 | a key is in the dictionary exactly when the lookup finds it |
| Estimates.Put | power_flow_solver.py:148 | assigning a key replaces the existing entry in place or appends a new one, keeping keys distinct |
| Estimates.PutKeys | power_flow_solver.py:148 | after an assignment the keys are the old keys plus the new one |
| Estimates.EstimatesUpTo | power_flow_solver.py:127-148 | the dictionary after any number of loop passes has distinct keys |
| Estimates.ComputeEstimates | power_flow_solver.py:127-150 | the estimates dictionary has distinct keys |
| Estimates.NumbersUpToStep | power_flow_solver.py:128 | visiting one more bus adds its number to the numbers seen |
| Estimates.PutKeepsLatest | power_flow_solver.py:148 | after visiting a bus, every entry is the estimate of the last bus seen with its number |
| Estimates.EstimatesUpToKeyed | power_flow_solver.py:127-148 | after i passes the keys are the numbers of the first i buses, each entry from the last bus with its number |
| Estimates.EstimatesKeyedByNumber | power_flow_solver.py:127-150 | exactly one estimate per bus number, each made from the last bus carrying that number |
| Estimates.EstimatesUpToInOrder | power_flow_solver.py:127-148 | with distinct numbers, the first i passes give the first i buses' estimates in bus order |
| Estimates.EstimatesInBusOrder | power_flow_solver.py:127-150 | with distinct numbers there is one estimate per bus, in bus-list order |
| Estimates.EstimatesOrdered | power_flow_solver.py:127-150 | with distinct numbers the estimates come in increasing bus position |
| Estimates.Select | power_flow_solver.py:98-99 | the filtered dictionary holds exactly the estimates of the wanted types, no more of them than the input; an input in bus order gives an output in bus order |
| Estimates.SelectConcat | power_flow_solver.py:98-99 | filtering a concatenation is the concatenation of the filtered parts, so for any input the kept estimates stay in input (insertion) order |
| Estimates.AngleTypesAreNonSwing | power_flow_solver.py:98 | the angle subset's types are every type except SWING, UNKNOWN included |
| Estimates.AngleSubset | power_flow_solver.py:98 | an estimate is in the angle subset exactly when it is not a swing-bus estimate |
| Estimates.MagnitudeSubset | power_flow_solver.py:99 | an estimate is in the magnitude subset exactly when it is a PQ estimate |
| Estimates.AngleSubsetInBusOrder | power_flow_solver.py:98 | with distinct numbers the angle subset is in bus order, holds each non-swing bus's estimate, and nothing else |
| Estimates.MagnitudeSubsetInBusOrder | power_flow_solver.py:99 | with distinct numbers the magnitude subset is in bus order, holds each PQ bus's estimate, and nothing else |
| Estimates.SelectSelect | power_flow_solver.py:98-99 | filtering twice is filtering once by the intersection of the wanted types |
| Estimates.MagnitudeWithinAngle | power_flow_solver.py:98-99 | the PQ subset is the PQ part of the angle subset, in the same order |
| Estimates.SelectDistinct | power_flow_solver.py:98-99 | a subset of a dictionary keeps its keys distinct |
| Estimates.FlatSums | power_flow_solver.py:135-144 | at magnitude 1 and a common angle, the calculated P and Q of a bus are the real part and negated imaginary part of its admittance row sum |
| Estimates.FlatStartEstimate | power_flow_solver.py:128-148 | at a flat start the calculated powers are the bus's incident shunt admittance, so with shunt-free lines the mismatches are the specified injections |
| Estimates.NoShunts | power_system.py:61-66 | lines without shunt admittance add no shunt at any bus |
| Jacobian.Position | power_flow_solver.py:167 | the lookup by bus number finds the first position with that number, or none |
| Jacobian.EstimatesLocated | power_flow_solver.py:167 | every estimate's bus number is found in the bus list |
| Jacobian.DiagonalIffSameNumber | power_flow_solver.py:167-186 | row and column resolve to one position exactly when their bus numbers are equal |
| Jacobian.J11Off | power_flow_solver.py:184 | the J11 off-diagonal entry dP_k/dtheta_j is the reactive term of bus j in bus k's power sum |
| Jacobian.J12Off | power_flow_solver.py:211 | the J12 off-diagonal entry times V_j is the active term of bus j |
| Jacobian.J21Off | power_flow_solver.py:239 | the J21 off-diagonal entry is minus the active term of bus j |
| Jacobian.J22Off | power_flow_solver.py:266 | the J22 off-diagonal entry times V_j is the reactive term of bus j |
| Jacobian.DiagonalsFromOwnTerm | power_flow_solver.py:186-268 | the diagonal formulas are the power sums corrected by bus k's own term: J11 = -Q + Q_kk, J12 V_k = P + P_kk, J21 = P - P_kk, J22 V_k = Q + Q_kk |
| Jacobian.J11Entries | power_flow_solver.py:162-188 | with distinct numbers, J11 entry (r, c) is the diagonal formula -Q_k - V_k^2 B_kk when r == c and the off-diagonal formula otherwise |
| Jacobian.J12Entries | power_flow_solver.py:190-215 | when the subsets agree on shared numbers, J12 entry (r, c) is P_k / V_k + G_kk V_k when row and column are one estimate and the off-diagonal formula otherwise |
| Jacobian.J21Entries | power_flow_solver.py:217-243 | likewise J21 entry (r, c) is P_k - G_kk V_k^2 when row and column are one estimate and the off-diagonal formula otherwise |
| Jacobian.J22Entries | power_flow_solver.py:245-270 | with distinct numbers, J22 entry (r, c) is Q_k / V_k - B_kk V_k when r == c and the off-diagonal formula otherwise |
| Jacobian.DiagonalExactly | power_flow_solver.py:183 | over distinct numbers, row and column resolve to one bus position exactly when r == c |
| Jacobian.AcrossExactly | power_flow_solver.py:210 | over two lists that agree on shared numbers, row and column resolve to one position exactly when they are the same estimate |
| Jacobian.SubsetsAgreeOnKeys | power_flow_solver.py:98-99 | the two subsets of one dictionary agree wherever they share a bus number |
| Jacobian.FullJacobian | power_flow_solver.py:152-160 | the Jacobian is square of size \|A\| + \|PQ\| and laid out as [[J11, J12], [J21, J22]] |
| Jacobian.MismatchVector | power_flow_solver.py:290-292 | the stacked mismatches have \|A\| + \|PQ\| entries: the active errors over A, then the reactive errors over PQ |
| Jacobian.DiagonalOnDiagonal | power_flow_solver.py:183-186 | within J11 or J22, over distinct bus numbers, the diagonal formula appears exactly when row equals column |
| Jacobian.DiagonalAcrossBlocks | power_flow_solver.py:210-213 | in J12 and J21 the diagonal formula is used exactly when row and column are the same bus's estimate |
| Solver.Refresh | power_flow_solver.py:95-99 | recomputing the estimates leaves a state whose estimates are those of its current buses |
| Solver.NewSolver | power_flow_solver.py:45-62 | a solver is built exactly when every line has endpoints in range and a non-zero impedance, with the system's admittance matrix and its estimates |
| Solver.NewSolverReading | power_flow_solver.py:61-62 | with generation read under an attribute name, construction fails exactly on bad lines or on a name the first bus's record lacks; otherwise it is NewSolver |
| Solver.ConstructionRaisesAsWritten | power_flow_solver.py:146 | reading `active_power_generated`, construction over valid lines and at least one bus raises, for every bus record |
| Solver.DeclaredFieldConstructs | power_system.py:36-38 | reading the declared `active_power_injected`, generation is `activeGenerated` and construction is NewSolver |
| Solver.MaxAbs | power_flow_solver.py:76-77 | the maximum absolute value bounds every entry and is attained by one |
| Solver.HasConverged | power_flow_solver.py:69-78 | an error exactly when either subset is empty; otherwise true exactly when every \|dP\| over A is within the active limit and every \|dQ\| over PQ within the reactive limit |
| Solver.ActiveBound | power_flow_solver.py:76 | the largest \|dP\| over the angle subset bounds every member's and is attained by one |
| Solver.ReactiveBound | power_flow_solver.py:77 | the largest \|dQ\| over the PQ subset bounds every member's and is attained by one |
| Solver.Adjust | power_flow_solver.py:303-312 | the zip of estimates with deltas changes only voltages, and only the chosen component |
| Solver.AdjustUntouched | power_flow_solver.py:303-312 | a bus no zipped estimate points at keeps its voltage |
| Solver.AdjustAt | power_flow_solver.py:303-312 | with distinct positions, the i-th estimate's bus is moved by exactly the i-th delta |
| Solver.AdjustByZero | power_flow_solver.py:303-312 | zero deltas change nothing |
| Solver.ApplyCorrections | power_flow_solver.py:296-312 | applying corrections changes bus voltages only |
| Solver.ApplyCorrectionsEffect | power_flow_solver.py:302-312 | the i-th bus of A gets angle += c[i]; the i-th PQ bus gets magnitude += c[\|A\|+i]; non-PQ magnitudes and buses outside both subsets are unchanged |
| Solver.ApplyZeroCorrections | power_flow_solver.py:302-312 | an all-zero correction vector leaves every bus as it was |
| Solver.SubsetsLocated | power_flow_solver.py:98-99 | in a consistent state, the subsets' estimates point at their own buses |
| Solver.Step | power_flow_solver.py:80-93 | a step fails only on a zero magnitude under a divisor or a singular Jacobian; otherwise it keeps settings, lines and admittance matrix, changes only voltages and recomputes the estimates |
| Solver.StepSolvesMismatch | power_flow_solver.py:80-93 | a step fails with ZeroVoltageMagnitude exactly when a J12/J22 diagonal divisor is zero, with SingularJacobian exactly when the solve of the Jacobian against the mismatch vector finds nothing, and otherwise its buses are those the solved corrections give |
| Solver.StepAppliesCorrections | power_flow_solver.py:286-312 | with a full-length solution c of J c = [dP; dQ], a step adds c[i] to the angle of the i-th bus of A and c[\|A\|+i] to the magnitude of the i-th PQ bus, and leaves every other voltage component as it was |
| Solver.SubsetPositionsDistinct | power_flow_solver.py:98-99 | each subset points at distinct bus positions |
| Solver.ApplyCorrectionsOutside | power_flow_solver.py:302-312 | a bus outside the PQ subset keeps its magnitude, and a bus outside both subsets is unchanged |
| Solver.OutsideSubset | power_flow_solver.py:98-99 | no estimate of a subset points at a bus whose own type is excluded from it |
| Solver.StepKeepsSwingAndPV | power_flow_solver.py:80-93 | a step never changes the swing bus, and never changes the magnitude of a bus that is not PQ |
| LegacyPowerFlow.MakeSettings | power_flow.py:74-75 | the per-unit thresholds are max_error / power_base; a zero base is a division by zero |
| LegacyPowerFlow.RowPower | power_flow.py:145-151 | a row's per-unit power times the base is generation minus load, with missing cells read as 0 |
| LegacyPowerFlow.RowVoltage | power_flow.py:148-149 | the magnitude is the cell under Python's `or` with the start magnitude as default; a cell value gives angle 0; with a non-zero start no magnitude is zero |
| LegacyPowerFlow.ToBuses | power_flow.py:143-153 | one bus per row in row order, keeping its number; its per-unit power times the base is generation minus load; its voltage follows the cell rule |
| LegacyPowerFlow.Insert | power_flow.py:156 | inserting into a number-sorted list keeps it sorted, adds one element and takes nothing from elsewhere |
| LegacyPowerFlow.InsertPermutes | power_flow.py:156 | insertion adds exactly the one bus |
| LegacyPowerFlow.SortByNumber | power_flow.py:156 | the result is sorted by bus number and as long as the input |
| LegacyPowerFlow.SortPermutes | power_flow.py:156 | sorting is a permutation |
| LegacyPowerFlow.InsertKeepsTotal | power_flow.py:152-156 | insertion adds the bus's power to the total |
| LegacyPowerFlow.SortKeepsTotal | power_flow.py:152-156 | sorting leaves the total power unchanged |
| LegacyPowerFlow.ReadBusData | power_flow.py:127-158 | an index error exactly when the slack number is no list index; otherwise the sorted buses, with the slack position's power replaced by minus the total of all rows' powers |
| LegacyPowerFlow.SlackBalancesSystem | power_flow.py:151-157 | after reading, the slack power plus the total of the rows' powers is zero, and all buses' powers sum to zero exactly when the slack row's own power was zero |
| LegacyPowerFlow.ReadBusesNonZero | power_flow.py:148-157 | with a non-zero start voltage every bus read has a non-zero magnitude |
| LegacyPowerFlow.ToLine | power_flow.py:190-197 | a line row keeps its ends; its impedance is r + jx, zero exactly when both are; its two end shunts are imaginary and together carry the total susceptance |
| LegacyPowerFlow.LineError | power_flow.py:187-203 | a line raises ZeroDivisionError exactly when its impedance is zero, IndexError exactly when the impedance is non-zero and an end does not index the matrix, and nothing exactly when it is valid |
| LegacyPowerFlow.FirstLineError | power_flow.py:187-197 | no error exactly when every line has a non-zero impedance and endpoints that index the matrix |
| LegacyPowerFlow.FirstLineErrorIsFirst | power_flow.py:185-203 | the error reported is that of the first bad row, whatever the later rows hold |
| LegacyPowerFlow.ReadAdmittanceMatrix | power_flow.py:160-207 | fails exactly on a bad line, with the first bad row's error; otherwise n x n with every entry the summed contributions of the lines |
| LegacyPowerFlow.ReadAdmittanceMatchesSystem | power_flow.py:182-205 | the older assembly gives the same matrix as the current one over the same lines |
| LegacyPowerFlow.ReadAdmittanceSymmetric | power_flow.py:200-205 | the older assembly is symmetric |
| LegacyPowerFlow.PureReactanceInverse | power_flow.py:196 | 1/(jx) = -j/x |
| LegacyPowerFlow.LosslessContribution | power_flow.py:196-205 | a lossless line of reactance x adds -j/x on its diagonal and j/x off it |
| LegacyPowerFlow.LosslessTriangleEntry | test_read_admittance_matrix.py:22-29 | each entry of three lossless lines around a triangle is the sum of the reciprocal reactances, as the matrix shape says |
| LegacyPowerFlow.LosslessTriangleMatrix | test_read_admittance_matrix.py:22-34 | three lossless lines 1-2, 1-3, 2-3 give the triangle matrix of their reciprocal reactances |
| LegacyPowerFlow.ThreeBusExample | test_read_admittance_matrix.py:22-29 | with x = 0.1, 0.2 and 0.25 the matrix is exactly [[-15j, 10j, 5j], [10j, -14j, 4j], [5j, 4j, -9j]] |
| LegacyPowerFlow.NonSlackUpTo | power_flow.py:89 | the positions kept are below the bound and none is the slack bus |
| LegacyPowerFlow.NonSlackUpToIncreasing | power_flow.py:89 | the kept positions are in list order |
| LegacyPowerFlow.NonSlackUpToCovers | power_flow.py:89 | no bus other than the slack bus is left out |
| LegacyPowerFlow.NonSlackUpToComplete | power_flow.py:89 | the error list leaves out exactly the slack bus and keeps list order |
| LegacyPowerFlow.ErrorsUpTo | power_flow.py:89 | error c is calculated minus specified power of the c-th non-slack bus among those visited |
| LegacyPowerFlow.ErrorList | power_flow.py:89 | no longer than either list; with one calculated power per bus, one entry per non-slack bus in list order, each calculated minus specified power |
| LegacyPowerFlow.IsConvergent | power_flow.py:249-262 | true exactly when every error's real part is below the active limit and its imaginary part below the reactive limit, signed; true on an empty list |
| LegacyPowerFlow.SignedTestAcceptsLargeDeficit | power_flow.py:258-262 | an error of -100 - 100j passes limits of 0.001 |
| LegacyPowerFlow.IsConvergentByMagnitude | power_flow.py:35-36 | true exactly when both parts of every error are below their limits in absolute value |
| LegacyPowerFlow.MagnitudeTestIsStricter | power_flow.py:35-36 | the magnitude test implies the signed one and rejects the -100 - 100j error |
| LegacyPowerFlow.Corrected | power_flow.py:284-286 | a corrected bus keeps its number and power; its magnitude moves by exactly the magnitude correction and its angle by the angle correction |
| LegacyPowerFlow.CorrectUpTo | power_flow.py:278-287 | an index error exactly when more non-slack buses are visited than there are corrections; otherwise the buses not yet visited are unchanged |
| LegacyPowerFlow.CorrectUpToSkipsSlack | power_flow.py:280-282 | the loop never changes a slack-numbered bus |
| LegacyPowerFlow.CorrectUpToCorrects | power_flow.py:284-287 | the c-th non-slack bus gets angle += first[c] and magnitude += second[c] |
| LegacyPowerFlow.CorrectionsLanded | power_flow.py:274-287 | after the whole loop, slack buses are unchanged and every other bus has its own corrections |
| LegacyPowerFlow.ApplyCorrections | power_flow.py:264-287 | an index error exactly when the first half is shorter than the non-slack buses; otherwise slack buses unchanged and the k-th non-slack bus gets angle += c[k] and magnitude += c[\|c\|/2 + k] |
| LegacyPowerFlow.ZeroCorrectionsChangeNothing | power_flow.py:274-287 | a long enough zero correction vector changes no bus |
| LegacyJacobian.DiagonalValue | power_flow_jacobian.py:89-186 | over a non-zero magnitude, the diagonal formulas are the current solver's with the conductance taken as zero |
| LegacyJacobian.OffDiagonalValue | power_flow_jacobian.py:89-186 | the off-diagonal formulas are the current solver's with the conductance taken as zero |
| LegacyJacobian.EntryValue | power_flow_jacobian.py:89-186 | the off-diagonal formula exactly when the two raw bus numbers differ, the diagonal formula when they are equal |
| LegacyJacobian.LastAt | power_flow_jacobian.py:77-92 | the last of the buses whose number lands on index k, or none |
| LegacyJacobian.FillRow | power_flow_jacobian.py:83-92 | the inner loop writes row k = slot of the source; each column holds the value for the last destination bus landing there |
| LegacyJacobian.FillBlock | power_flow_jacobian.py:76-94 | the outer loop leaves at (k, j) the value for the last source landing on k against the last destination landing on j |
| LegacyJacobian.SubMatrix | power_flow_jacobian.py:76-94 | each block is n x n, indexed by bus number - 1, every entry the reference block entry |
| LegacyJacobian.FromZeros | power_flow_jacobian.py:76 | entries no bus reaches stay zero |
| LegacyJacobian.Reduced | power_flow_jacobian.py:49-56 | deleting row and column slack - 1 leaves (n-1) x (n-1), entry (a, b) being the full entry at the indices that skip slack - 1 |
| LegacyJacobian.Assembled | power_flow_jacobian.py:59-61 | the four reduced blocks side by side form a (2n-2) x (2n-2) matrix |
| LegacyJacobian.CreateJacobian | power_flow_jacobian.py:30-62 | fails exactly on a bus number or slack number outside the blocks, or on a zero magnitude under a J12/J22 diagonal entry that survives the deletion; otherwise (2n-2) x (2n-2) |
| LegacyJacobian.ReadBusesKeepDivisors | power_flow.py:148-157 | buses read with a non-zero start voltage never reach a zero divisor |
| LegacyJacobian.QuadrantLookup | power_flow_jacobian.py:59-61 | entry (a, b) of the layout [[J11, J12], [J21, J22]] is read from its quadrant's block |
| LegacyJacobian.AssembledPick | power_flow_jacobian.py:59-61 | entry (a, b) of the assembled matrix is entry (a', b') of the reduced block for its quadrant |
| LegacyJacobian.AssembledEntry | power_flow_jacobian.py:49-61 | entry (a, b) is the full block entry at the indices that skip the slack |
| LegacyJacobian.JacobianLayout | power_flow_jacobian.py:49-61 | when every bus number and the slack number index the blocks and no surviving diagonal divides by zero, the Jacobian is the assembled matrix and each of its entries is the full entry of its quadrant's block at the indices that skip slack - 1 |
| LegacyJacobian.DiagonalFormulaOnDiagonal | power_flow_jacobian.py:89-92 | in every reduced block the diagonal formula (-Q - V^2 B, P/V, P, Q/V - B V) appears exactly where row equals column |
| LegacyJacobian.SurvivingDiagonals | power_flow_jacobian.py:49-186 | when the checks pass, each reduced diagonal entry is the current solver's diagonal formula over a non-zero magnitude |
| LegacyJacobian.BlockEntryIgnoresConductance | power_flow_jacobian.py:87 | a block entry reads only the susceptance |
| LegacyJacobian.SameEntries | power_flow_jacobian.py:87 | when bus and slack numbers index the blocks, two admittance matrices with the same susceptances give the same assembled entries |
| LegacyJacobian.SameOutcome | power_flow_jacobian.py:30-62 | whether the Jacobian fails, and how, does not depend on the admittance matrix |
| LegacyJacobian.ConductanceIgnored | power_flow_jacobian.py:87 | the conductance never affects the Jacobian: same susceptances, same result |
| Phasor.Nudge | power_flow_solver.py:304-311 | nudging one component of a polar voltage adds the delta to it and keeps the other |
| Matrices.DeleteRowAndColumn | power_flow_jacobian.py:49-56 | deleting row and column `gap` leaves the rest in their original order |
| Matrices.Block | power_flow_jacobian.py:59-61 | four blocks concatenate into a (p+q) x (s+t) matrix |
| Matrices.BlockLookup | power_flow_solver.py:158-160 | each entry of a block matrix is read from its quadrant |

## Left out

- Spreadsheet and file reading: the bus and line builders, `count_rows`, and the `iter_rows` plumbing. The readers take lists of row records instead.
- The `max_row=num_buses` limit on the line rows in `read_admittance_matrix` is spreadsheet plumbing. The model folds over every line row it is given.
- The command line, the reporter module, and the test files' numeric expectations other than the three-bus admittance example.
- The Newton-Raphson loops and their termination. Neither loop has an iteration cap and nothing about convergence is provable. The model states one step and one convergence test.
- Matrix inversion and the matrix product are the `LinearSolve` oracle. It returns `None` for a singular matrix, and its only known fact is the length of a solution.
- The sign of the older pipeline's correction vector (`-numpy.matmul` in `execute`) belongs to the oracle's output.
- Floating point rounding and the numerical values of sine, cosine, `numpy.abs`, `numpy.angle` and `exp`.
- Angle wrap to (-pi, pi] is left out.
- The flip of a negative magnitude by `mag * exp(j angle)` is left out. A nudged magnitude may be negative in the model.
- `RowVoltage` reads a voltage cell as a real voltage of angle 0. A negative cell would be a negative magnitude.
- `LegacyJacobian.CreateJacobian`: numpy gives `inf` or `nan` where a surviving J12/J22 diagonal entry divides by a zero magnitude. The model returns `ZeroVoltageMagnitude` there, because reals hold no `inf`. A zero magnitude in the deleted slack row or under an overwritten entry stays out of the result, as in numpy.
- `Solver.Step`: the current solver's zero-magnitude divisions also give `inf` in numpy. The model returns `ZeroVoltageMagnitude` instead.
- `create_power_flow_equations` is left out. Its results are the `s` parameter of `LegacyJacobian.CreateJacobian`.
- `LegacyJacobian.CreateJacobian` requires one calculated power per bus. The pipeline always passes one.
- The older blocks are complex numpy arrays with zero imaginary parts, so they are modelled as real matrices.
- `LegacyPowerFlow.SortByNumber` is not stated to be stable. Python's `sorted` is stable, which matters only for repeated bus numbers.
- `LegacyPowerFlow.ReadBusData` requires a non-zero power base. `MakeSettings` already fails on a zero base.
- `Solver.HasConverged` and `Solver.Step` read the estimates through the ordered subsets. The Python dictionaries coincide with them when bus numbers are distinct.

## Findings

| source | as written | input that shows it | evidently intended | confidence | as-written member | corrected member |
|---|---|---|---|---|---|---|
| power_flow.py:258-262 | the convergence test compares the signed real and imaginary parts of each error with the limits | one error of -100 - 100j with limits 0.001 passes, though the mismatch is 100 000 times the limit | the module description (power_flow.py:35-36) asks for the magnitude of the error below the limit | medium; not executed | LegacyPowerFlow.SignedTestAcceptsLargeDeficit | LegacyPowerFlow.MagnitudeTestIsStricter |
| power_flow_solver.py:146 | the estimates loop (and `_bus_type` at line 113) reads `bus.active_power_generated`, a name the bus record does not declare | any system with at least one bus: the first pass of `_compute_estimates`, called from the constructor, raises AttributeError | read the declared field `active_power_injected` (power_system.py:36-38) | high; not executed | Solver.ConstructionRaisesAsWritten | Solver.DeclaredFieldConstructs |
