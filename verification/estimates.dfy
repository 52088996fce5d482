/** Bus classification, the per-bus power estimates of the solver, and the two
    ordered subsets of estimates that receive angle and magnitude corrections. */
module Estimates {
  import opened ComplexArith
  import opened Phasor
  import opened Matrices
  import opened PowerSystem

  datatype BusType = Unknown | Swing | PV | PQ

  /** The solver's settings: which bus number is the swing bus, and the largest
      active and reactive mismatches still counted as converged. */
  datatype Config = Config(swingBusNumber: int, maxActivePowerError: real, maxReactivePowerError: real)

  const DefaultConfig: Config := Config(1, 0.001, 0.001)

  /** Classification by the first rule that matches: the swing number, then
      generation, then consumption; a bus matching none is Unknown. Python's
      truth test of a float is `!= 0`. */
  function Classify(bus: Bus, swingBusNumber: int): (t: BusType)
    ensures t == Swing <==> bus.number == swingBusNumber
    ensures t == PV <==> bus.number != swingBusNumber && bus.activeGenerated != 0.0
    ensures t == PQ <==> bus.number != swingBusNumber && bus.activeGenerated == 0.0
                         && (bus.activeConsumed != 0.0 || bus.reactiveConsumed != 0.0)
    ensures t == Unknown <==> bus.number != swingBusNumber && bus.activeGenerated == 0.0
                              && bus.activeConsumed == 0.0 && bus.reactiveConsumed == 0.0
  {
    if bus.number == swingBusNumber then Swing
    else if bus.activeGenerated != 0.0 then PV
    else if bus.activeConsumed != 0.0 || bus.reactiveConsumed != 0.0 then PQ
    else Unknown
  }

  /** A bus's estimate. `position` is the index, in the system's bus list, of the
      bus the estimate was made from: corrections are written back to that bus. */
  datatype Estimate = Estimate(bus: Bus, position: nat, busType: BusType,
                               activePower: real, reactivePower: real,
                               activePowerError: real, reactivePowerError: real)

  /** The dictionary key of an estimate. */
  function Key(e: Estimate): int {
    e.bus.number
  }

  function Keys(es: seq<Estimate>): set<int> {
    set e | e in es :: Key(e)
  }

  predicate DistinctKeys(es: seq<Estimate>) {
    forall a, b :: 0 <= a < b < |es| ==> Key(es[a]) != Key(es[b])
  }

  /** The complex power bus k draws through one admittance entry towards bus i,
      v_k v_i e^{j(t_k - t_i)} conj(y): V_k times the conjugate of y V_i. */
  function TermPower(trig: Trig, vk: Polar, vi: Polar, y: Complex): Complex {
    var t := vk.angle - vi.angle;
    Scale(vk.mag * vi.mag, Mul(Complex(trig.cos(t), trig.sin(t)), Conj(y)))
  }

  /** One term of the active-power sum of bus k. */
  function ActiveTerm(trig: Trig, vk: Polar, vi: Polar, y: Complex): (p: real)
    ensures p == TermPower(trig, vk, vi, y).re
  {
    var t := vk.angle - vi.angle;
    vk.mag * vi.mag * (y.re * trig.cos(t) + y.im * trig.sin(t))
  }

  /** One term of the reactive-power sum of bus k. */
  function ReactiveTerm(trig: Trig, vk: Polar, vi: Polar, y: Complex): (q: real)
    ensures q == TermPower(trig, vk, vi, y).im
  {
    var t := vk.angle - vi.angle;
    vk.mag * vi.mag * (y.re * trig.sin(t) - y.im * trig.cos(t))
  }

  /** The calculated active power of a bus with voltage `v`, over the buses and
      its admittance row taken pairwise. */
  function ActiveSum(trig: Trig, v: Polar, buses: seq<Bus>, row: seq<Complex>): real
    requires |row| == |buses|
  {
    if |buses| == 0 then 0.0
    else ActiveTerm(trig, v, buses[0].voltage, row[0]) + ActiveSum(trig, v, buses[1..], row[1..])
  }

  function ReactiveSum(trig: Trig, v: Polar, buses: seq<Bus>, row: seq<Complex>): real
    requires |row| == |buses|
  {
    if |buses| == 0 then 0.0
    else ReactiveTerm(trig, v, buses[0].voltage, row[0]) + ReactiveSum(trig, v, buses[1..], row[1..])
  }

  /** The complex power terms of a bus with voltage `v`, one per bus of the row. */
  function PowerTerms(trig: Trig, v: Polar, buses: seq<Bus>, row: seq<Complex>): (ts: seq<Complex>)
    requires |row| == |buses|
    ensures |ts| == |buses|
  {
    seq(|buses|, i requires 0 <= i < |buses| => TermPower(trig, v, buses[i].voltage, row[i]))
  }

  /** The two real sums are the real and imaginary parts of one complex power:
      P + jQ = V_k conj(sum_i y_ki V_i). */
  lemma {:induction false} SumsAreComplexPower(trig: Trig, v: Polar, buses: seq<Bus>, row: seq<Complex>)
    requires |row| == |buses|
    ensures Sum(PowerTerms(trig, v, buses, row)) == Complex(ActiveSum(trig, v, buses, row), ReactiveSum(trig, v, buses, row))
  {
    if |buses| > 0 {
      SumsAreComplexPower(trig, v, buses[1..], row[1..]);
      assert PowerTerms(trig, v, buses, row)[1..] == PowerTerms(trig, v, buses[1..], row[1..]);
    }
  }

  /** The estimate of the bus at position i: calculated powers, and mismatches
      that are what the bus should inject less what the equations give. */
  function EstimateOf(buses: seq<Bus>, y: seq<seq<Complex>>, trig: Trig, swingBusNumber: int, i: nat): (e: Estimate)
    requires IsMatrix(y, |buses|, |buses|) && i < |buses|
    ensures e.bus == buses[i] && e.position == i
    ensures e.busType == Classify(buses[i], swingBusNumber)
    ensures e.activePower + e.activePowerError == buses[i].activeGenerated - buses[i].activeConsumed
    ensures e.reactivePower + e.reactivePowerError == -buses[i].reactiveConsumed
  {
    var b := buses[i];
    var p := ActiveSum(trig, b.voltage, buses, y[i]);
    var q := ReactiveSum(trig, b.voltage, buses, y[i]);
    Estimate(b, i, Classify(b, swingBusNumber), p, q,
             b.activeGenerated - b.activeConsumed - p, -b.reactiveConsumed - q)
  }

  /** The index of the estimate with key `key`, or |es| when there is none. */
  function IndexOfKey(es: seq<Estimate>, key: int): (r: nat)
    ensures r <= |es|
    ensures r < |es| ==> Key(es[r]) == key
    ensures forall k :: 0 <= k < r ==> Key(es[k]) != key
  {
    if |es| == 0 then 0
    else if Key(es[0]) == key then 0
    else 1 + IndexOfKey(es[1..], key)
  }

  lemma KeyPresent(es: seq<Estimate>, key: int)
    ensures key in Keys(es) <==> IndexOfKey(es, key) < |es|
  {
    if key in Keys(es) {
      var x :| x in es && Key(x) == key;
      var k :| 0 <= k < |es| && es[k] == x;
    }
  }

  /** Dictionary assignment `d[Key(e)] = e` on an insertion-ordered dictionary:
      an existing key keeps its place and takes the new value, a new key goes last. */
  function Put(es: seq<Estimate>, e: Estimate): (r: seq<Estimate>)
    requires DistinctKeys(es)
    ensures DistinctKeys(r)
    ensures Key(e) in Keys(es) ==>
      |r| == |es| && forall k :: 0 <= k < |r| ==> r[k] == (if Key(es[k]) == Key(e) then e else es[k])
    ensures Key(e) !in Keys(es) ==> r == es + [e]
  {
    KeyPresent(es, Key(e));
    var k := IndexOfKey(es, Key(e));
    if k < |es| then es[k := e] else es + [e]
  }

  lemma PutKeys(es: seq<Estimate>, e: Estimate)
    requires DistinctKeys(es)
    ensures Keys(Put(es, e)) == Keys(es) + {Key(e)}
  {
    var r := Put(es, e);
    forall x | x in Keys(r) ensures x in Keys(es) + {Key(e)} {
      var z :| z in r && Key(z) == x;
      var q :| 0 <= q < |r| && r[q] == z;
      if q < |es| && z != e {
        assert es[q] == z;
      }
    }
    forall x | x in Keys(es) ensures x in Keys(r) {
      var z :| z in es && Key(z) == x;
      var q :| 0 <= q < |es| && es[q] == z;
      assert Key(r[q]) == x;
    }
  }

  /** The estimates dictionary after the loop has visited the first i buses. */
  function EstimatesUpTo(buses: seq<Bus>, y: seq<seq<Complex>>, trig: Trig, swingBusNumber: int, i: nat): (es: seq<Estimate>)
    requires IsMatrix(y, |buses|, |buses|) && i <= |buses|
    ensures DistinctKeys(es)
  {
    if i == 0 then []
    else Put(EstimatesUpTo(buses, y, trig, swingBusNumber, i - 1), EstimateOf(buses, y, trig, swingBusNumber, i - 1))
  }

  /** The estimates of all buses, keyed by bus number, in first-seen order. */
  function ComputeEstimates(buses: seq<Bus>, y: seq<seq<Complex>>, trig: Trig, swingBusNumber: int): (es: seq<Estimate>)
    requires IsMatrix(y, |buses|, |buses|)
    ensures DistinctKeys(es)
  {
    EstimatesUpTo(buses, y, trig, swingBusNumber, |buses|)
  }

  /** `e` is the estimate of the last bus among the first `i` with its number. */
  predicate LatestOf(buses: seq<Bus>, y: seq<seq<Complex>>, trig: Trig, swingBusNumber: int, i: nat, e: Estimate)
    requires IsMatrix(y, |buses|, |buses|) && i <= |buses|
  {
    e.position < i && e == EstimateOf(buses, y, trig, swingBusNumber, e.position)
    && forall q :: e.position < q < i ==> buses[q].number != Key(e)
  }

  function NumbersUpTo(buses: seq<Bus>, i: nat): set<int>
    requires i <= |buses|
  {
    set p | 0 <= p < i :: buses[p].number
  }

  lemma NumbersUpToStep(buses: seq<Bus>, i: nat)
    requires 0 < i <= |buses|
    ensures NumbersUpTo(buses, i) == NumbersUpTo(buses, i - 1) + {buses[i - 1].number}
  {
    forall x | x in NumbersUpTo(buses, i) ensures x in NumbersUpTo(buses, i - 1) + {buses[i - 1].number} {
      var p :| 0 <= p < i && buses[p].number == x;
      if p < i - 1 {
        assert x in NumbersUpTo(buses, i - 1);
      }
    }
  }

  /** Visiting bus i - 1 keeps every entry the latest of its number. */
  lemma PutKeepsLatest(buses: seq<Bus>, y: seq<seq<Complex>>, trig: Trig, swingBusNumber: int, i: nat, prev: seq<Estimate>)
    requires IsMatrix(y, |buses|, |buses|) && 0 < i <= |buses| && DistinctKeys(prev)
    requires forall x :: x in prev ==> LatestOf(buses, y, trig, swingBusNumber, i - 1, x)
    ensures forall x :: x in Put(prev, EstimateOf(buses, y, trig, swingBusNumber, i - 1)) ==>
      LatestOf(buses, y, trig, swingBusNumber, i, x)
  {
    var e := EstimateOf(buses, y, trig, swingBusNumber, i - 1);
    var es := Put(prev, e);
    forall x | x in es ensures LatestOf(buses, y, trig, swingBusNumber, i, x) {
      var k :| 0 <= k < |es| && es[k] == x;
      if x != e {
        assert k < |prev| && x == prev[k] && Key(x) != Key(e);
        assert x in prev;
      }
    }
  }

  lemma {:induction false} EstimatesUpToKeyed(buses: seq<Bus>, y: seq<seq<Complex>>, trig: Trig, swingBusNumber: int, i: nat)
    requires IsMatrix(y, |buses|, |buses|) && i <= |buses|
    ensures Keys(EstimatesUpTo(buses, y, trig, swingBusNumber, i)) == NumbersUpTo(buses, i)
    ensures forall e :: e in EstimatesUpTo(buses, y, trig, swingBusNumber, i) ==> LatestOf(buses, y, trig, swingBusNumber, i, e)
  {
    if i > 0 {
      var prev := EstimatesUpTo(buses, y, trig, swingBusNumber, i - 1);
      var e := EstimateOf(buses, y, trig, swingBusNumber, i - 1);
      EstimatesUpToKeyed(buses, y, trig, swingBusNumber, i - 1);
      PutKeys(prev, e);
      NumbersUpToStep(buses, i);
      PutKeepsLatest(buses, y, trig, swingBusNumber, i, prev);
    }
  }

  /** Exactly one estimate per bus number, each made from the last bus carrying
      that number. */
  lemma EstimatesKeyedByNumber(buses: seq<Bus>, y: seq<seq<Complex>>, trig: Trig, swingBusNumber: int)
    requires IsMatrix(y, |buses|, |buses|)
    ensures DistinctKeys(ComputeEstimates(buses, y, trig, swingBusNumber))
    ensures Keys(ComputeEstimates(buses, y, trig, swingBusNumber)) == NumbersUpTo(buses, |buses|)
    ensures forall e :: e in ComputeEstimates(buses, y, trig, swingBusNumber) ==>
      e.position < |buses| && e == EstimateOf(buses, y, trig, swingBusNumber, e.position)
      && forall q :: e.position < q < |buses| ==> buses[q].number != Key(e)
  {
    EstimatesUpToKeyed(buses, y, trig, swingBusNumber, |buses|);
  }

  predicate DistinctNumbers(buses: seq<Bus>) {
    forall a, b :: 0 <= a < b < |buses| ==> buses[a].number != buses[b].number
  }

  /** Putting an estimate whose key is new appends it. */
  lemma PutNew(es: seq<Estimate>, e: Estimate)
    requires DistinctKeys(es)
    requires forall p :: 0 <= p < |es| ==> Key(es[p]) != Key(e)
    ensures Put(es, e) == es + [e]
  {
    KeyPresent(es, Key(e));
  }

  /** With distinct numbers, the next bus's estimate is appended. */
  lemma InOrderStep(buses: seq<Bus>, y: seq<seq<Complex>>, trig: Trig, swingBusNumber: int, i: nat)
    requires IsMatrix(y, |buses|, |buses|) && 0 < i <= |buses| && DistinctNumbers(buses)
    requires var prev := EstimatesUpTo(buses, y, trig, swingBusNumber, i - 1);
      |prev| == i - 1 && forall p :: 0 <= p < i - 1 ==> prev[p] == EstimateOf(buses, y, trig, swingBusNumber, p)
    ensures EstimatesUpTo(buses, y, trig, swingBusNumber, i) ==
      EstimatesUpTo(buses, y, trig, swingBusNumber, i - 1) + [EstimateOf(buses, y, trig, swingBusNumber, i - 1)]
  {
    var prev := EstimatesUpTo(buses, y, trig, swingBusNumber, i - 1);
    var e := EstimateOf(buses, y, trig, swingBusNumber, i - 1);
    assert forall p :: 0 <= p < |prev| ==> Key(prev[p]) != Key(e);
    PutNew(prev, e);
  }

  lemma {:induction false} EstimatesUpToInOrder(buses: seq<Bus>, y: seq<seq<Complex>>, trig: Trig, swingBusNumber: int, i: nat)
    requires IsMatrix(y, |buses|, |buses|) && i <= |buses| && DistinctNumbers(buses)
    ensures var es := EstimatesUpTo(buses, y, trig, swingBusNumber, i);
      |es| == i && forall p :: 0 <= p < i ==> es[p] == EstimateOf(buses, y, trig, swingBusNumber, p)
  {
    if i > 0 {
      EstimatesUpToInOrder(buses, y, trig, swingBusNumber, i - 1);
      InOrderStep(buses, y, trig, swingBusNumber, i);
    }
  }

  /** With distinct bus numbers the estimates line up with the buses, one for one. */
  lemma EstimatesInBusOrder(buses: seq<Bus>, y: seq<seq<Complex>>, trig: Trig, swingBusNumber: int)
    requires IsMatrix(y, |buses|, |buses|) && DistinctNumbers(buses)
    ensures |ComputeEstimates(buses, y, trig, swingBusNumber)| == |buses|
    ensures forall p :: 0 <= p < |buses| ==>
      ComputeEstimates(buses, y, trig, swingBusNumber)[p] == EstimateOf(buses, y, trig, swingBusNumber, p)
  {
    EstimatesUpToInOrder(buses, y, trig, swingBusNumber, |buses|);
  }

  /** The estimates come in the order of the buses they were made from. */
  predicate InBusOrder(es: seq<Estimate>) {
    forall r, s :: 0 <= r < s < |es| ==> es[r].position < es[s].position
  }

  /** The estimates whose bus type is in `wanted`, in dictionary order. It
      keeps what it keeps in input order (`SelectConcat`); in particular an
      input in bus order gives an output in bus order. */
  function Select(es: seq<Estimate>, wanted: set<BusType>): (r: seq<Estimate>)
    ensures |r| <= |es|
    ensures forall e :: e in r <==> e in es && e.busType in wanted
    ensures InBusOrder(es) ==> InBusOrder(r)
  {
    if |es| == 0 then []
    else
      var rest := Select(es[1..], wanted);
      TailInBusOrder(es, rest);
      if es[0].busType in wanted then [es[0]] + rest else rest
  }

  /** Keeping the head of an ordered list in front of an ordered choice from
      its tail keeps the order. */
  lemma TailInBusOrder(es: seq<Estimate>, rest: seq<Estimate>)
    requires |es| > 0 && forall e :: e in rest ==> e in es[1..]
    ensures InBusOrder(es) ==> InBusOrder(es[1..])
    ensures InBusOrder(es) && InBusOrder(rest) ==> InBusOrder([es[0]] + rest)
  {
    if InBusOrder(es) && InBusOrder(rest) {
      var r := [es[0]] + rest;
      forall i, j | 0 <= i < j < |r| ensures r[i].position < r[j].position {
        if i == 0 {
          assert r[j] in es[1..];
          var k :| 0 <= k < |es[1..]| && es[1..][k] == r[j];
          assert es[k + 1] == r[j];
        } else {
          assert r[i] == rest[i - 1] && r[j] == rest[j - 1];
        }
      }
    }
  }

  /** Every non-swing bus gets an angle correction, Unknown buses included. */
  const AngleTypes: set<BusType> := {Unknown, PV, PQ}

  /** Only PQ buses get a magnitude correction. */
  const MagnitudeTypes: set<BusType> := {PQ}

  lemma AngleTypesAreNonSwing()
    ensures forall t: BusType :: t in AngleTypes <==> t != Swing
  {
    forall t: BusType ensures t in AngleTypes <==> t != Swing {
      match t
      case Unknown =>
      case Swing =>
      case PV =>
      case PQ =>
    }
  }

  function AngleSubset(es: seq<Estimate>): (a: seq<Estimate>)
    ensures forall e :: e in a <==> e in es && e.busType != Swing
  {
    AngleTypesAreNonSwing();
    Select(es, AngleTypes)
  }

  function MagnitudeSubset(es: seq<Estimate>): (m: seq<Estimate>)
    ensures forall e :: e in m <==> e in es && e.busType == PQ
  {
    Select(es, MagnitudeTypes)
  }

  /** With distinct bus numbers the estimates come in bus order. */
  lemma EstimatesOrdered(buses: seq<Bus>, y: seq<seq<Complex>>, trig: Trig, swingBusNumber: int)
    requires IsMatrix(y, |buses|, |buses|) && DistinctNumbers(buses)
    ensures InBusOrder(ComputeEstimates(buses, y, trig, swingBusNumber))
  {
    EstimatesInBusOrder(buses, y, trig, swingBusNumber);
  }

  /** With distinct bus numbers the angle subset is exactly the estimates of the
      buses other than the swing bus, in increasing bus position. */
  lemma AngleSubsetInBusOrder(buses: seq<Bus>, y: seq<seq<Complex>>, trig: Trig, swingBusNumber: int)
    requires IsMatrix(y, |buses|, |buses|) && DistinctNumbers(buses)
    ensures var a := AngleSubset(ComputeEstimates(buses, y, trig, swingBusNumber));
      InBusOrder(a)
      && (forall r :: 0 <= r < |a| ==>
            a[r].position < |buses| && buses[a[r].position].number != swingBusNumber
            && a[r] == EstimateOf(buses, y, trig, swingBusNumber, a[r].position))
      && (forall p :: 0 <= p < |buses| && buses[p].number != swingBusNumber ==>
            exists r :: 0 <= r < |a| && a[r].position == p)
  {
    var es := ComputeEstimates(buses, y, trig, swingBusNumber);
    var a := AngleSubset(es);
    EstimatesInBusOrder(buses, y, trig, swingBusNumber);
    EstimatesOrdered(buses, y, trig, swingBusNumber);
    forall r | 0 <= r < |a|
      ensures a[r].position < |buses| && buses[a[r].position].number != swingBusNumber
      ensures a[r] == EstimateOf(buses, y, trig, swingBusNumber, a[r].position)
    {
      assert a[r] in es;
      var p :| 0 <= p < |es| && es[p] == a[r];
    }
    forall p | 0 <= p < |buses| && buses[p].number != swingBusNumber
      ensures exists r :: 0 <= r < |a| && a[r].position == p
    {
      assert es[p] in a;
      var r :| 0 <= r < |a| && a[r] == es[p];
    }
  }

  /** With distinct bus numbers the magnitude subset is exactly the estimates of
      the PQ buses, in increasing bus position. */
  lemma MagnitudeSubsetInBusOrder(buses: seq<Bus>, y: seq<seq<Complex>>, trig: Trig, swingBusNumber: int)
    requires IsMatrix(y, |buses|, |buses|) && DistinctNumbers(buses)
    ensures var m := MagnitudeSubset(ComputeEstimates(buses, y, trig, swingBusNumber));
      InBusOrder(m)
      && (forall r :: 0 <= r < |m| ==>
            m[r].position < |buses| && Classify(buses[m[r].position], swingBusNumber) == PQ
            && m[r] == EstimateOf(buses, y, trig, swingBusNumber, m[r].position))
      && (forall p :: 0 <= p < |buses| && Classify(buses[p], swingBusNumber) == PQ ==>
            exists r :: 0 <= r < |m| && m[r].position == p)
  {
    var es := ComputeEstimates(buses, y, trig, swingBusNumber);
    var m := MagnitudeSubset(es);
    EstimatesInBusOrder(buses, y, trig, swingBusNumber);
    EstimatesOrdered(buses, y, trig, swingBusNumber);
    forall r | 0 <= r < |m|
      ensures m[r].position < |buses| && Classify(buses[m[r].position], swingBusNumber) == PQ
      ensures m[r] == EstimateOf(buses, y, trig, swingBusNumber, m[r].position)
    {
      assert m[r] in es;
      var p :| 0 <= p < |es| && es[p] == m[r];
    }
    forall p | 0 <= p < |buses| && Classify(buses[p], swingBusNumber) == PQ
      ensures exists r :: 0 <= r < |m| && m[r].position == p
    {
      assert es[p] in m;
      var r :| 0 <= r < |m| && m[r] == es[p];
    }
  }

  lemma {:induction false} SelectSelect(es: seq<Estimate>, a: set<BusType>, b: set<BusType>)
    ensures Select(Select(es, a), b) == Select(es, a * b)
  {
    if |es| > 0 {
      SelectSelect(es[1..], a, b);
      if es[0].busType in a {
        assert Select(es, a)[1..] == Select(es[1..], a);
      }
    }
  }

  /** Filtering a concatenation filters each part and keeps the parts in
      order: whatever the input, the kept estimates stay in input order, as
      a dictionary comprehension keeps insertion order. */
  lemma {:induction false} SelectConcat(xs: seq<Estimate>, ys: seq<Estimate>, wanted: set<BusType>)
    ensures Select(xs + ys, wanted) == Select(xs, wanted) + Select(ys, wanted)
  {
    var zs := xs + ys;
    if |xs| > 0 {
      assert zs[0] == xs[0] && zs[1..] == xs[1..] + ys;
      SelectConcat(xs[1..], ys, wanted);
      if xs[0].busType in wanted {
        assert Select(zs, wanted) == [xs[0]] + Select(zs[1..], wanted);
        assert Select(xs, wanted) == [xs[0]] + Select(xs[1..], wanted);
      } else {
        assert Select(zs, wanted) == Select(zs[1..], wanted);
        assert Select(xs, wanted) == Select(xs[1..], wanted);
      }
    } else {
      assert zs == ys;
    }
  }

  /** The magnitude subset is the angle subset's PQ entries, in the same order. */
  lemma MagnitudeWithinAngle(es: seq<Estimate>)
    ensures MagnitudeSubset(AngleSubset(es)) == MagnitudeSubset(es)
  {
    SelectSelect(es, AngleTypes, MagnitudeTypes);
    assert AngleTypes * MagnitudeTypes == MagnitudeTypes;
  }

  lemma {:induction false} SelectDistinct(es: seq<Estimate>, wanted: set<BusType>)
    requires DistinctKeys(es)
    ensures DistinctKeys(Select(es, wanted))
  {
    if |es| > 0 {
      SelectDistinct(es[1..], wanted);
      var rest := Select(es[1..], wanted);
      if es[0].busType in wanted {
        forall k | 0 <= k < |rest| ensures Key(es[0]) != Key(rest[k]) {
          assert rest[k] in es[1..];
        }
      }
    }
  }

  /** The flat start: every voltage has magnitude 1 and one common angle. */
  predicate FlatStart(buses: seq<Bus>) {
    forall i :: 0 <= i < |buses| ==> buses[i].voltage.mag == 1.0 && buses[i].voltage.angle == buses[0].voltage.angle
  }

  predicate SaneTrig(trig: Trig) {
    trig.sin(0.0) == 0.0 && trig.cos(0.0) == 1.0
  }

  lemma {:induction false} FlatSums(trig: Trig, v: Polar, buses: seq<Bus>, row: seq<Complex>)
    requires |row| == |buses| && SaneTrig(trig) && v.mag == 1.0
    requires forall i :: 0 <= i < |buses| ==> buses[i].voltage == v
    ensures ActiveSum(trig, v, buses, row) == Sum(row).re
    ensures ReactiveSum(trig, v, buses, row) == -Sum(row).im
  {
    if |buses| > 0 {
      FlatSums(trig, v, buses[1..], row[1..]);
      assert v.angle - buses[0].voltage.angle == 0.0;
    }
  }

  /** At a flat start the calculated powers of a bus are the real part and the
      negated imaginary part of its admittance row sum, i.e. of the shunt
      admittance of its lines; so with shunt-free lines the mismatches are the
      specified injections themselves. */
  lemma FlatStartEstimate(sys: System, trig: Trig, swingBusNumber: int, i: nat)
    requires ValidLines(sys.lines, |sys.buses|) && NoSelfLoops(sys.lines, |sys.buses|)
    requires i < |sys.buses| && FlatStart(sys.buses) && SaneTrig(trig)
    ensures var e := EstimateOf(sys.buses, AdmittanceMatrix(sys), trig, swingBusNumber, i);
      var shunt := IncidentShunt(sys.lines, |sys.buses|, i);
      e.activePower == shunt.re && e.reactivePower == -shunt.im
    ensures (forall k :: 0 <= k < |sys.lines| ==> sys.lines[k].shunt == Zero) ==>
      var e := EstimateOf(sys.buses, AdmittanceMatrix(sys), trig, swingBusNumber, i);
      e.activePowerError == sys.buses[i].activeGenerated - sys.buses[i].activeConsumed
      && e.reactivePowerError == -sys.buses[i].reactiveConsumed
  {
    var n := |sys.buses|;
    var v := sys.buses[i].voltage;
    assert forall k :: 0 <= k < n ==> sys.buses[k].voltage == v by {
      forall k | 0 <= k < n ensures sys.buses[k].voltage == v {
        assert sys.buses[k].voltage.angle == sys.buses[0].voltage.angle;
      }
    }
    FlatSums(trig, v, sys.buses, AdmittanceMatrix(sys)[i]);
    AdmittanceRowSum(sys, i);
    if forall k :: 0 <= k < |sys.lines| ==> sys.lines[k].shunt == Zero {
      NoShunts(sys.lines, n, i);
    }
  }

  lemma {:induction false} NoShunts(lines: seq<Line>, n: nat, i: nat)
    requires ValidLines(lines, n)
    requires forall k :: 0 <= k < |lines| ==> lines[k].shunt == Zero
    ensures IncidentShunt(lines, n, i) == Zero
  {
    if |lines| > 0 {
      NoShunts(lines[1..], n, i);
    }
  }
}
