/** The Newton-Raphson solver: its state, one step (Jacobian, corrections,
    application, fresh estimates) and the convergence test. */
module Solver {
  import opened Wrappers
  import opened ComplexArith
  import opened Phasor
  import opened Matrices
  import opened PowerSystem
  import opened Estimates
  import opened Jacobian

  /** Why a solver could not be built, stepped or asked about convergence. */
  datatype SolverError =
    | InvalidLine           // a line end outside the bus range, or a zero impedance
    | ZeroVoltageMagnitude  // a J12/J22 diagonal would divide by a zero magnitude
    | SingularJacobian      // the linear solve found no inverse
    | EmptyMismatchSet      // the maximum over an empty subset is undefined
    | MissingAttribute      // a bus record read under a field name it does not declare

  /** The solver state; `admittance` is computed once, the estimates after every step. */
  datatype SolverState = SolverState(config: Config, trig: Trig, system: System,
                                     admittance: seq<seq<Complex>>, estimates: seq<Estimate>)

  /** The estimates are those of the current bus voltages. */
  predicate Consistent(s: SolverState) {
    IsMatrix(s.admittance, |s.system.buses|, |s.system.buses|)
    && s.estimates == ComputeEstimates(s.system.buses, s.admittance, s.trig, s.config.swingBusNumber)
  }

  function Refresh(config: Config, trig: Trig, system: System, admittance: seq<seq<Complex>>): (s: SolverState)
    requires IsMatrix(admittance, |system.buses|, |system.buses|)
    ensures Consistent(s) && s.system == system && s.admittance == admittance
  {
    SolverState(config, trig, system, admittance,
                ComputeEstimates(system.buses, admittance, trig, config.swingBusNumber))
  }

  /** Building a solver computes the admittance matrix and the first estimates. */
  function NewSolver(sys: System, config: Config, trig: Trig): (r: Result<SolverState, SolverError>)
    ensures r.Success? <==> ValidLines(sys.lines, |sys.buses|)
    ensures r.Failure? ==> r.error == InvalidLine
    ensures r.Success? ==> (Consistent(r.value) && r.value.system == sys
                            && r.value.admittance == AdmittanceMatrix(sys) && r.value.config == config)
  {
    if !ValidLines(sys.lines, |sys.buses|) then Failure(InvalidLine)
    else Success(Refresh(config, trig, sys, AdmittanceMatrix(sys)))
  }

  /** The name the bus record declares for generated active power. */
  const InjectedField: string := "active_power_injected"

  /** The name under which the solver reads generated active power. */
  const GeneratedName: string := "active_power_generated"

  /** Reading a power of a bus by attribute name. The record declares
      `number`, the two consumed powers, `active_power_injected` and `voltage`;
      any other name raises AttributeError, here `None`. */
  function PowerAttribute(b: Bus, name: string): (r: Option<real>)
  {
    if name == "active_power_consumed" then Some(b.activeConsumed)
    else if name == "reactive_power_consumed" then Some(b.reactiveConsumed)
    else if name == InjectedField then Some(b.activeGenerated)
    else None
  }

  /** Building a solver when generation is read under attribute `name`. The
      estimates loop reads it for every bus (and the classification for every
      non-swing bus), so the first bus's read decides whether construction
      raises; when the read succeeds the solver is the one `NewSolver` builds. */
  function NewSolverReading(name: string, sys: System, config: Config, trig: Trig): (r: Result<SolverState, SolverError>)
    requires name == GeneratedName || name == InjectedField
    ensures r.Failure? <==> !ValidLines(sys.lines, |sys.buses|)
                            || (|sys.buses| > 0 && PowerAttribute(sys.buses[0], name).None?)
    ensures r.Success? ==> r == NewSolver(sys, config, trig)
  {
    if !ValidLines(sys.lines, |sys.buses|) then Failure(InvalidLine)
    else if |sys.buses| > 0 && PowerAttribute(sys.buses[0], name).None? then Failure(MissingAttribute)
    else Success(Refresh(config, trig, sys, AdmittanceMatrix(sys)))
  }

  /** As written: the solver reads a field the bus record does not declare,
      so building a solver over valid lines and any bus at all raises. */
  lemma ConstructionRaisesAsWritten(sys: System, config: Config, trig: Trig)
    requires ValidLines(sys.lines, |sys.buses|) && |sys.buses| > 0
    ensures NewSolverReading(GeneratedName, sys, config, trig) == Failure(MissingAttribute)
    ensures forall b: Bus :: PowerAttribute(b, GeneratedName).None?
  {
    forall b: Bus ensures PowerAttribute(b, GeneratedName).None? {
      GeneratedNameUndeclared(b);
    }
    GeneratedNameUndeclared(sys.buses[0]);
  }

  /** `active_power_generated` is none of the names the bus record declares:
      its length (22) differs from each of theirs (21, 23 and 21). */
  lemma GeneratedNameUndeclared(b: Bus)
    ensures PowerAttribute(b, GeneratedName).None?
  {
    assert |GeneratedName| == 22;
    assert |"active_power_consumed"| == 21 && |"reactive_power_consumed"| == 23 && |InjectedField| == 21;
  }

  /** Corrected: read under the declared field, generation is `activeGenerated`
      and construction is exactly `NewSolver`, which the rest of the model uses. */
  lemma DeclaredFieldConstructs(sys: System, config: Config, trig: Trig)
    ensures NewSolverReading(InjectedField, sys, config, trig) == NewSolver(sys, config, trig)
    ensures forall b: Bus :: PowerAttribute(b, InjectedField) == Some(b.activeGenerated)
  {
    assert InjectedField[13] == 'i' && "active_power_consumed"[13] == 'c';
    assert |"reactive_power_consumed"| == 23;
  }

  /** numpy.max of the absolute values of a non-empty list. */
  function MaxAbs(xs: seq<real>): (m: real)
    requires |xs| > 0
    ensures forall i :: 0 <= i < |xs| ==> Abs(xs[i]) <= m
    ensures exists i :: 0 <= i < |xs| && m == Abs(xs[i])
  {
    if |xs| == 1 then Abs(xs[0])
    else
      var rest := MaxAbs(xs[1..]);
      assert forall i :: 1 <= i < |xs| ==> xs[i] == xs[1..][i - 1];
      if Abs(xs[0]) >= rest then Abs(xs[0]) else rest
  }

  function ActiveErrors(es: seq<Estimate>): (v: seq<real>)
    ensures |v| == |es| && forall r :: 0 <= r < |es| ==> v[r] == es[r].activePowerError
  {
    seq(|es|, r requires 0 <= r < |es| => es[r].activePowerError)
  }

  function ReactiveErrors(es: seq<Estimate>): (v: seq<real>)
    ensures |v| == |es| && forall r :: 0 <= r < |es| ==> v[r] == es[r].reactivePowerError
  {
    seq(|es|, r requires 0 <= r < |es| => es[r].reactivePowerError)
  }

  /** Converged when the largest active mismatch over the angle subset and the
      largest reactive mismatch over the PQ subset are within the limits; an
      empty subset has no maximum. */
  function HasConverged(s: SolverState): (r: Result<bool, SolverError>)
    ensures r.Failure? <==> |AngleSubset(s.estimates)| == 0 || |MagnitudeSubset(s.estimates)| == 0
    ensures r.Failure? ==> r.error == EmptyMismatchSet
    ensures r.Success? ==> (r.value <==>
      (forall e :: e in s.estimates && e.busType != Swing ==> Abs(e.activePowerError) <= s.config.maxActivePowerError)
      && (forall e :: e in s.estimates && e.busType == PQ ==> Abs(e.reactivePowerError) <= s.config.maxReactivePowerError))
  {
    var a, pq := AngleSubset(s.estimates), MagnitudeSubset(s.estimates);
    if |a| == 0 || |pq| == 0 then Failure(EmptyMismatchSet)
    else
      var dp, dq := MaxAbs(ActiveErrors(a)), MaxAbs(ReactiveErrors(pq));
      ActiveBound(a);
      ReactiveBound(pq);
      Success(dp <= s.config.maxActivePowerError && dq <= s.config.maxReactivePowerError)
  }

  /** The largest active mismatch bounds every member's and is attained by one. */
  lemma ActiveBound(a: seq<Estimate>)
    requires |a| > 0
    ensures forall e :: e in a ==> Abs(e.activePowerError) <= MaxAbs(ActiveErrors(a))
    ensures exists e :: e in a && Abs(e.activePowerError) == MaxAbs(ActiveErrors(a))
  {
    var v := ActiveErrors(a);
    forall e | e in a ensures Abs(e.activePowerError) <= MaxAbs(v) {
      var r :| 0 <= r < |a| && a[r] == e;
      assert v[r] == e.activePowerError;
    }
    var r :| 0 <= r < |v| && MaxAbs(v) == Abs(v[r]);
    assert a[r] in a;
  }

  /** The largest reactive mismatch bounds every member's and is attained by one. */
  lemma ReactiveBound(pq: seq<Estimate>)
    requires |pq| > 0
    ensures forall e :: e in pq ==> Abs(e.reactivePowerError) <= MaxAbs(ReactiveErrors(pq))
    ensures exists e :: e in pq && Abs(e.reactivePowerError) == MaxAbs(ReactiveErrors(pq))
  {
    var v := ReactiveErrors(pq);
    forall e | e in pq ensures Abs(e.reactivePowerError) <= MaxAbs(v) {
      var r :| 0 <= r < |pq| && pq[r] == e;
      assert v[r] == e.reactivePowerError;
    }
    var r :| 0 <= r < |v| && MaxAbs(v) == Abs(v[r]);
    assert pq[r] in pq;
  }

  predicate PositionsIn(es: seq<Estimate>, n: nat) {
    forall r :: 0 <= r < |es| ==> es[r].position < n
  }

  predicate DistinctPositions(es: seq<Estimate>) {
    forall a, b :: 0 <= a < b < |es| ==> es[a].position != es[b].position
  }

  /** Only the voltage of a bus may differ. */
  predicate SameBusesButVoltage(x: seq<Bus>, y: seq<Bus>) {
    |x| == |y| && forall p :: 0 <= p < |x| ==> y[p] == x[p].(voltage := y[p].voltage)
  }

  /** The zip of estimates with deltas: each estimate's bus gets one component
      of its voltage moved by its delta, in order; the shorter list decides. */
  function Adjust(buses: seq<Bus>, es: seq<Estimate>, deltas: seq<real>, which: Component): (r: seq<Bus>)
    requires PositionsIn(es, |buses|)
    ensures SameBusesButVoltage(buses, r)
    ensures forall p :: 0 <= p < |buses| ==>
      (which == Angle ==> r[p].voltage.mag == buses[p].voltage.mag)
      && (which == Magnitude ==> r[p].voltage.angle == buses[p].voltage.angle)
    decreases |es|
  {
    if |es| == 0 || |deltas| == 0 then buses
    else
      var p := es[0].position;
      var b := buses[p];
      Adjust(buses[p := b.(voltage := Nudge(b.voltage, which, deltas[0]))], es[1..], deltas[1..], which)
  }

  /** A bus no estimate of the zip points at keeps its voltage. */
  lemma {:induction false} AdjustUntouched(buses: seq<Bus>, es: seq<Estimate>, deltas: seq<real>, which: Component, p: nat)
    requires PositionsIn(es, |buses|) && p < |buses|
    requires forall r :: 0 <= r < |es| ==> es[r].position != p
    ensures Adjust(buses, es, deltas, which)[p] == buses[p]
    decreases |es|
  {
    if |es| > 0 && |deltas| > 0 {
      var q := es[0].position;
      var b := buses[q];
      AdjustUntouched(buses[q := b.(voltage := Nudge(b.voltage, which, deltas[0]))], es[1..], deltas[1..], which, p);
    }
  }

  /** With distinct positions, the i-th estimate's bus ends up moved by the i-th delta. */
  lemma {:induction false} AdjustAt(buses: seq<Bus>, es: seq<Estimate>, deltas: seq<real>, which: Component, i: nat)
    requires PositionsIn(es, |buses|) && DistinctPositions(es)
    requires i < |es| && i < |deltas|
    ensures Adjust(buses, es, deltas, which)[es[i].position].voltage ==
      Nudge(buses[es[i].position].voltage, which, deltas[i])
    decreases |es|
  {
    var q := es[0].position;
    var b := buses[q];
    var next := buses[q := b.(voltage := Nudge(b.voltage, which, deltas[0]))];
    if i == 0 {
      AdjustUntouched(next, es[1..], deltas[1..], which, q);
    } else {
      AdjustAt(next, es[1..], deltas[1..], which, i - 1);
    }
  }

  /** Zero deltas leave every bus as it was. */
  lemma {:induction false} AdjustByZero(buses: seq<Bus>, es: seq<Estimate>, deltas: seq<real>, which: Component)
    requires PositionsIn(es, |buses|)
    requires forall i :: 0 <= i < |deltas| ==> deltas[i] == 0.0
    ensures Adjust(buses, es, deltas, which) == buses
    decreases |es|
  {
    if |es| > 0 && |deltas| > 0 {
      var q := es[0].position;
      assert buses[q := buses[q].(voltage := Nudge(buses[q].voltage, which, deltas[0]))] == buses;
      AdjustByZero(buses, es[1..], deltas[1..], which);
    }
  }

  /** The corrections: the first |A| entries go to the angles of A, the rest to
      the magnitudes of PQ, each zip stopping at the shorter list. */
  function ApplyCorrections(buses: seq<Bus>, a: seq<Estimate>, pq: seq<Estimate>, c: seq<real>): (r: seq<Bus>)
    requires PositionsIn(a, |buses|) && PositionsIn(pq, |buses|)
    ensures SameBusesButVoltage(buses, r)
  {
    var na := if |c| < |a| then |c| else |a|;
    Adjust(Adjust(buses, a, c[..na], Angle), pq, c[na..], Magnitude)
  }

  /** Effect of a full-length correction vector on each bus. */
  lemma ApplyCorrectionsEffect(buses: seq<Bus>, a: seq<Estimate>, pq: seq<Estimate>, c: seq<real>)
    requires PositionsIn(a, |buses|) && PositionsIn(pq, |buses|)
    requires DistinctPositions(a) && DistinctPositions(pq)
    requires |c| == |a| + |pq|
    ensures forall i :: 0 <= i < |a| ==>
      ApplyCorrections(buses, a, pq, c)[a[i].position].voltage.angle == buses[a[i].position].voltage.angle + c[i]
    ensures forall i :: 0 <= i < |pq| ==>
      ApplyCorrections(buses, a, pq, c)[pq[i].position].voltage.mag == buses[pq[i].position].voltage.mag + c[|a| + i]
    ensures forall p :: 0 <= p < |buses| && (forall i :: 0 <= i < |pq| ==> pq[i].position != p) ==>
      ApplyCorrections(buses, a, pq, c)[p].voltage.mag == buses[p].voltage.mag
    ensures forall p :: (0 <= p < |buses| && (forall i :: 0 <= i < |a| ==> a[i].position != p)
                         && (forall i :: 0 <= i < |pq| ==> pq[i].position != p)) ==>
      ApplyCorrections(buses, a, pq, c)[p] == buses[p]
  {
    var mid := Adjust(buses, a, c[..|a|], Angle);
    var r := Adjust(mid, pq, c[|a|..], Magnitude);
    forall i | 0 <= i < |a|
      ensures r[a[i].position].voltage.angle == buses[a[i].position].voltage.angle + c[i]
    {
      AdjustAt(buses, a, c[..|a|], Angle, i);
    }
    forall i | 0 <= i < |pq|
      ensures r[pq[i].position].voltage.mag == buses[pq[i].position].voltage.mag + c[|a| + i]
    {
      AdjustAt(mid, pq, c[|a|..], Magnitude, i);
    }
    forall p | 0 <= p < |buses| && (forall i :: 0 <= i < |pq| ==> pq[i].position != p)
      ensures r[p].voltage.mag == buses[p].voltage.mag
    {
      AdjustUntouched(mid, pq, c[|a|..], Magnitude, p);
    }
    forall p | 0 <= p < |buses| && (forall i :: 0 <= i < |a| ==> a[i].position != p)
      && (forall i :: 0 <= i < |pq| ==> pq[i].position != p)
      ensures r[p] == buses[p]
    {
      AdjustUntouched(buses, a, c[..|a|], Angle, p);
      AdjustUntouched(mid, pq, c[|a|..], Magnitude, p);
    }
  }

  /** An all-zero correction vector changes no bus. */
  lemma ApplyZeroCorrections(buses: seq<Bus>, a: seq<Estimate>, pq: seq<Estimate>, c: seq<real>)
    requires PositionsIn(a, |buses|) && PositionsIn(pq, |buses|)
    requires forall i :: 0 <= i < |c| ==> c[i] == 0.0
    ensures ApplyCorrections(buses, a, pq, c) == buses
  {
    var na := if |c| < |a| then |c| else |a|;
    AdjustByZero(buses, a, c[..na], Angle);
    AdjustByZero(buses, pq, c[na..], Magnitude);
  }

  /** The estimates of a consistent state point at their own buses. */
  lemma SubsetsLocated(s: SolverState)
    requires Consistent(s)
    ensures Located(s.system.buses, AngleSubset(s.estimates)) && Located(s.system.buses, MagnitudeSubset(s.estimates))
    ensures PositionsIn(AngleSubset(s.estimates), |s.system.buses|) && PositionsIn(MagnitudeSubset(s.estimates), |s.system.buses|)
    ensures forall e :: e in s.estimates ==> e.position < |s.system.buses| && e.bus == s.system.buses[e.position]
  {
    EstimatesLocated(s.system.buses, s.admittance, s.trig, s.config.swingBusNumber);
    var a, pq := AngleSubset(s.estimates), MagnitudeSubset(s.estimates);
    assert forall r :: 0 <= r < |a| ==> a[r] in s.estimates;
    assert forall r :: 0 <= r < |pq| ==> pq[r] in s.estimates;
  }

  /** One Newton-Raphson step: Jacobian, linear solve of the mismatches,
      corrections applied, estimates recomputed. */
  function Step(s: SolverState, solve: LinearSolve): (r: Result<SolverState, SolverError>)
    requires Consistent(s)
    ensures r.Success? ==> (Consistent(r.value) && r.value.config == s.config && r.value.trig == s.trig
                            && r.value.admittance == s.admittance && r.value.system.lines == s.system.lines
                            && SameBusesButVoltage(s.system.buses, r.value.system.buses))
    ensures r.Failure? ==> r.error == ZeroVoltageMagnitude || r.error == SingularJacobian
  {
    var buses := s.system.buses;
    var a, pq := AngleSubset(s.estimates), MagnitudeSubset(s.estimates);
    SubsetsLocated(s);
    if !(DivisorsNonZero(buses, a, pq) && DivisorsNonZero(buses, pq, pq)) then Failure(ZeroVoltageMagnitude)
    else
      var j := FullJacobian(s.trig, s.admittance, buses, a, pq);
      match solve(j, MismatchVector(a, pq))
      case None => Failure(SingularJacobian)
      case Some(c) =>
        Success(Refresh(s.config, s.trig, System(ApplyCorrections(buses, a, pq, c), s.system.lines), s.admittance))
  }

  /** When a step fails and why, and that a successful step moves the buses by
      the corrections the linear solve returns for the mismatch vector. */
  lemma StepSolvesMismatch(s: SolverState, solve: LinearSolve)
    requires Consistent(s)
    ensures var buses, a, pq := s.system.buses, AngleSubset(s.estimates), MagnitudeSubset(s.estimates);
      Located(buses, a) && Located(buses, pq) && PositionsIn(a, |buses|) && PositionsIn(pq, |buses|)
      && var divisors := DivisorsNonZero(buses, a, pq) && DivisorsNonZero(buses, pq, pq);
      (!divisors ==> Step(s, solve) == Failure(ZeroVoltageMagnitude))
      && (divisors ==>
            var solved := solve(FullJacobian(s.trig, s.admittance, buses, a, pq), MismatchVector(a, pq));
            (solved.None? ==> Step(s, solve) == Failure(SingularJacobian))
            && (solved.Some? ==> Step(s, solve).Success?
                                 && Step(s, solve).value.system.buses == ApplyCorrections(buses, a, pq, solved.value)))
  {
    SubsetsLocated(s);
  }

  /** `after` is `buses` with the i-th angle-subset bus's angle moved by c[i],
      the i-th PQ bus's magnitude moved by c[|a| + i], and every other voltage
      component as it was. */
  predicate CorrectedBy(buses: seq<Bus>, after: seq<Bus>, a: seq<Estimate>, pq: seq<Estimate>, c: seq<real>)
    requires PositionsIn(a, |buses|) && PositionsIn(pq, |buses|) && |c| == |a| + |pq|
  {
    |after| == |buses|
    && (forall i :: 0 <= i < |a| ==>
          after[a[i].position].voltage.angle == buses[a[i].position].voltage.angle + c[i])
    && (forall i :: 0 <= i < |pq| ==>
          after[pq[i].position].voltage.mag == buses[pq[i].position].voltage.mag + c[|a| + i])
    && (forall p :: 0 <= p < |buses| && (forall i :: 0 <= i < |pq| ==> pq[i].position != p) ==>
          after[p].voltage.mag == buses[p].voltage.mag)
    && (forall p :: (0 <= p < |buses| && (forall i :: 0 <= i < |a| ==> a[i].position != p)
                     && (forall i :: 0 <= i < |pq| ==> pq[i].position != p)) ==> after[p] == buses[p])
  }

  /** With a full-length solution of the linearised system, a step moves each
      angle-subset angle and each PQ magnitude by its own correction and leaves
      every other voltage component as it was. */
  lemma StepAppliesCorrections(s: SolverState, solve: LinearSolve, c: seq<real>)
    requires Consistent(s)
    requires var buses, a, pq := s.system.buses, AngleSubset(s.estimates), MagnitudeSubset(s.estimates);
      Located(buses, a) && Located(buses, pq) && DivisorsNonZero(buses, a, pq) && DivisorsNonZero(buses, pq, pq)
      && solve(FullJacobian(s.trig, s.admittance, buses, a, pq), MismatchVector(a, pq)) == Some(c)
    requires |c| == |AngleSubset(s.estimates)| + |MagnitudeSubset(s.estimates)|
    ensures Step(s, solve).Success?
    ensures var buses, a, pq := s.system.buses, AngleSubset(s.estimates), MagnitudeSubset(s.estimates);
      PositionsIn(a, |buses|) && PositionsIn(pq, |buses|)
      && CorrectedBy(buses, Step(s, solve).value.system.buses, a, pq, c)
  {
    var buses, a, pq := s.system.buses, AngleSubset(s.estimates), MagnitudeSubset(s.estimates);
    StepSolvesMismatch(s, solve);
    SubsetPositionsDistinct(s);
    CorrectionsMove(buses, a, pq, c);
  }

  /** ApplyCorrections meets CorrectedBy when positions are distinct. */
  lemma CorrectionsMove(buses: seq<Bus>, a: seq<Estimate>, pq: seq<Estimate>, c: seq<real>)
    requires PositionsIn(a, |buses|) && PositionsIn(pq, |buses|)
    requires DistinctPositions(a) && DistinctPositions(pq)
    requires |c| == |a| + |pq|
    ensures CorrectedBy(buses, ApplyCorrections(buses, a, pq, c), a, pq, c)
  {
    ApplyCorrectionsEffect(buses, a, pq, c);
  }

  /** Subsets of a consistent state have distinct positions. */
  lemma SubsetPositionsDistinct(s: SolverState)
    requires Consistent(s)
    ensures DistinctPositions(AngleSubset(s.estimates)) && DistinctPositions(MagnitudeSubset(s.estimates))
  {
    SubsetsLocated(s);
    SelectDistinct(s.estimates, AngleTypes);
    SelectDistinct(s.estimates, MagnitudeTypes);
  }

  /** Whatever the length of the correction vector, a bus outside both
      subsets is untouched and a bus outside PQ keeps its magnitude. */
  lemma ApplyCorrectionsOutside(buses: seq<Bus>, a: seq<Estimate>, pq: seq<Estimate>, c: seq<real>, p: nat)
    requires PositionsIn(a, |buses|) && PositionsIn(pq, |buses|) && p < |buses|
    requires forall i :: 0 <= i < |pq| ==> pq[i].position != p
    ensures ApplyCorrections(buses, a, pq, c)[p].voltage.mag == buses[p].voltage.mag
    ensures (forall i :: 0 <= i < |a| ==> a[i].position != p) ==> ApplyCorrections(buses, a, pq, c)[p] == buses[p]
  {
    var na := if |c| < |a| then |c| else |a|;
    var mid := Adjust(buses, a, c[..na], Angle);
    AdjustUntouched(mid, pq, c[na..], Magnitude, p);
    if forall i :: 0 <= i < |a| ==> a[i].position != p {
      AdjustUntouched(buses, a, c[..na], Angle, p);
    }
  }

  /** No estimate of a subset points at a bus whose own estimate is outside it. */
  lemma OutsideSubset(s: SolverState, wanted: set<BusType>, p: nat)
    requires Consistent(s) && p < |s.system.buses|
    requires Classify(s.system.buses[p], s.config.swingBusNumber) !in wanted
    ensures forall i :: 0 <= i < |Select(s.estimates, wanted)| ==> Select(s.estimates, wanted)[i].position != p
  {
    EstimatesKeyedByNumber(s.system.buses, s.admittance, s.trig, s.config.swingBusNumber);
    var sub := Select(s.estimates, wanted);
    forall i | 0 <= i < |sub| ensures sub[i].position != p {
      assert sub[i] in s.estimates;
    }
  }

  /** A step never changes the swing bus, and changes the magnitude of no bus
      that is not PQ. */
  lemma StepKeepsSwingAndPV(s: SolverState, solve: LinearSolve, p: nat)
    requires Consistent(s) && p < |s.system.buses|
    ensures var r := Step(s, solve);
      r.Success? ==> (s.system.buses[p].number == s.config.swingBusNumber ==> r.value.system.buses[p] == s.system.buses[p])
                     && (Classify(s.system.buses[p], s.config.swingBusNumber) != PQ ==>
                           r.value.system.buses[p].voltage.mag == s.system.buses[p].voltage.mag)
  {
    var r := Step(s, solve);
    if r.Success? {
      var buses := s.system.buses;
      var a, pq := AngleSubset(s.estimates), MagnitudeSubset(s.estimates);
      StepSolvesMismatch(s, solve);
      CorrectionsKeepSwingAndPV(s, solve(FullJacobian(s.trig, s.admittance, buses, a, pq), MismatchVector(a, pq)).value, p);
    }
  }

  /** Whatever the corrections, applying them to the subsets of a consistent
      state leaves the swing bus and every non-PQ magnitude alone. */
  lemma CorrectionsKeepSwingAndPV(s: SolverState, c: seq<real>, p: nat)
    requires Consistent(s) && p < |s.system.buses|
    ensures var buses, a, pq := s.system.buses, AngleSubset(s.estimates), MagnitudeSubset(s.estimates);
      PositionsIn(a, |buses|) && PositionsIn(pq, |buses|)
      && (buses[p].number == s.config.swingBusNumber ==> ApplyCorrections(buses, a, pq, c)[p] == buses[p])
      && (Classify(buses[p], s.config.swingBusNumber) != PQ ==>
            ApplyCorrections(buses, a, pq, c)[p].voltage.mag == buses[p].voltage.mag)
  {
    var buses := s.system.buses;
    var a, pq := AngleSubset(s.estimates), MagnitudeSubset(s.estimates);
    SubsetsLocated(s);
    var t := Classify(buses[p], s.config.swingBusNumber);
    if t != PQ {
      OutsideSubset(s, MagnitudeTypes, p);
      if t == Swing {
        OutsideSubset(s, AngleTypes, p);
      }
      ApplyCorrectionsOutside(buses, a, pq, c, p);
    }
  }
}
