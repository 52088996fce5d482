/** The solver's Jacobian: four blocks indexed by the angle subset A and the
    magnitude subset PQ, each entry choosing the diagonal or the off-diagonal
    formula by comparing the system positions of its row and column buses. */
module Jacobian {
  import opened ComplexArith
  import opened Phasor
  import opened Matrices
  import opened PowerSystem
  import opened Estimates

  /** The first position of a bus with this number; |buses| when there is none. */
  function Position(buses: seq<Bus>, number: int): (k: nat)
    ensures k <= |buses|
    ensures k < |buses| ==> buses[k].number == number
    ensures forall q :: 0 <= q < k ==> buses[q].number != number
  {
    if |buses| == 0 then 0
    else if buses[0].number == number then 0
    else 1 + Position(buses[1..], number)
  }

  /** Every estimate's bus number occurs among the buses. */
  predicate Located(buses: seq<Bus>, es: seq<Estimate>) {
    forall r :: 0 <= r < |es| ==> Position(buses, Key(es[r])) < |buses|
  }

  /** Each estimate was made from the bus at its position, so its number is found. */
  lemma EstimatesLocated(buses: seq<Bus>, y: seq<seq<Complex>>, trig: Trig, swingBusNumber: int)
    requires IsMatrix(y, |buses|, |buses|)
    ensures forall e :: e in ComputeEstimates(buses, y, trig, swingBusNumber) ==>
      e.position < |buses| && e.bus == buses[e.position] && Position(buses, Key(e)) <= e.position
  {
    EstimatesKeyedByNumber(buses, y, trig, swingBusNumber);
  }

  /** The diagonal formula applies when row and column resolve to one position. */
  predicate UsesDiagonal(buses: seq<Bus>, src: Estimate, dst: Estimate) {
    Position(buses, Key(src)) == Position(buses, Key(dst))
  }

  /** For located estimates, one position means one bus number. */
  lemma DiagonalIffSameNumber(buses: seq<Bus>, src: Estimate, dst: Estimate)
    requires Position(buses, Key(src)) < |buses| && Position(buses, Key(dst)) < |buses|
    ensures UsesDiagonal(buses, src, dst) <==> Key(src) == Key(dst)
  {
  }

  /** dP_k/dtheta_j off the diagonal: the reactive term of bus j in the sum of bus k. */
  function J11Off(trig: Trig, y: Complex, vk: Polar, vj: Polar): (r: real)
    ensures r == ReactiveTerm(trig, vk, vj, y)
  {
    var t := vk.angle - vj.angle;
    vk.mag * vj.mag * (y.re * trig.sin(t) - y.im * trig.cos(t))
  }

  function J11Diag(q: real, y: Complex, vk: Polar): real {
    -q - vk.mag * vk.mag * y.im
  }

  /** dP_k/dV_j off the diagonal: the active term of bus j divided by V_j. */
  function J12Off(trig: Trig, y: Complex, vk: Polar, vj: Polar): (r: real)
    ensures r * vj.mag == ActiveTerm(trig, vk, vj, y)
  {
    var t := vk.angle - vj.angle;
    vk.mag * (y.re * trig.cos(t) + y.im * trig.sin(t))
  }

  function J12Diag(p: real, y: Complex, vk: Polar): real
    requires vk.mag != 0.0
  {
    p / vk.mag + y.re * vk.mag
  }

  /** dQ_k/dtheta_j off the diagonal: minus the active term of bus j. */
  function J21Off(trig: Trig, y: Complex, vk: Polar, vj: Polar): (r: real)
    ensures r == -ActiveTerm(trig, vk, vj, y)
  {
    var t := vk.angle - vj.angle;
    -vk.mag * vj.mag * (y.re * trig.cos(t) + y.im * trig.sin(t))
  }

  function J21Diag(p: real, y: Complex, vk: Polar): real {
    p - y.re * vk.mag * vk.mag
  }

  /** dQ_k/dV_j off the diagonal: the reactive term of bus j divided by V_j. */
  function J22Off(trig: Trig, y: Complex, vk: Polar, vj: Polar): (r: real)
    ensures r * vj.mag == ReactiveTerm(trig, vk, vj, y)
  {
    var t := vk.angle - vj.angle;
    vk.mag * (y.re * trig.sin(t) - y.im * trig.cos(t))
  }

  function J22Diag(q: real, y: Complex, vk: Polar): real
    requires vk.mag != 0.0
  {
    q / vk.mag - y.im * vk.mag
  }

  /** The diagonal formulas through bus k's own term of its power sums: with
      P and Q its calculated powers and P_kk, Q_kk its own terms,
      J11 = -Q + Q_kk, J12 V_k = P + P_kk, J21 = P - P_kk, J22 V_k = Q + Q_kk. */
  lemma DiagonalsFromOwnTerm(trig: Trig, p: real, q: real, y: Complex, vk: Polar)
    requires SaneTrig(trig)
    ensures J11Diag(q, y, vk) == -q + ReactiveTerm(trig, vk, vk, y)
    ensures J21Diag(p, y, vk) == p - ActiveTerm(trig, vk, vk, y)
    ensures vk.mag != 0.0 ==> J12Diag(p, y, vk) * vk.mag == p + ActiveTerm(trig, vk, vk, y)
    ensures vk.mag != 0.0 ==> J22Diag(q, y, vk) * vk.mag == q + ReactiveTerm(trig, vk, vk, y)
  {
    assert vk.angle - vk.angle == 0.0;
  }

  /** The admittance entry between the positions of two located estimates. */
  function Between(y: seq<seq<Complex>>, buses: seq<Bus>, src: Estimate, dst: Estimate): Complex
    requires IsMatrix(y, |buses|, |buses|)
    requires Position(buses, Key(src)) < |buses| && Position(buses, Key(dst)) < |buses|
  {
    y[Position(buses, Key(src))][Position(buses, Key(dst))]
  }

  /** The entries of J12 and J22 divide by the row bus's magnitude on the diagonal. */
  predicate DivisorsNonZero(buses: seq<Bus>, rows: seq<Estimate>, cols: seq<Estimate>)
    requires Located(buses, rows) && Located(buses, cols)
  {
    forall r, c :: 0 <= r < |rows| && 0 <= c < |cols| && UsesDiagonal(buses, rows[r], cols[c]) ==>
      rows[r].bus.voltage.mag != 0.0
  }

  function J11(trig: Trig, y: seq<seq<Complex>>, buses: seq<Bus>, a: seq<Estimate>): (m: seq<seq<real>>)
    requires IsMatrix(y, |buses|, |buses|) && Located(buses, a)
    ensures IsMatrix(m, |a|, |a|)
    ensures forall r, c :: 0 <= r < |a| && 0 <= c < |a| ==>
      m[r][c] == if !UsesDiagonal(buses, a[r], a[c])
                 then J11Off(trig, Between(y, buses, a[r], a[c]), a[r].bus.voltage, a[c].bus.voltage)
                 else J11Diag(a[r].reactivePower, Between(y, buses, a[r], a[c]), a[r].bus.voltage)
  {
    seq(|a|, r requires 0 <= r < |a| => seq(|a|, c requires 0 <= c < |a| =>
      var g := Between(y, buses, a[r], a[c]);
      if !UsesDiagonal(buses, a[r], a[c]) then J11Off(trig, g, a[r].bus.voltage, a[c].bus.voltage)
      else J11Diag(a[r].reactivePower, g, a[r].bus.voltage)))
  }

  function J12(trig: Trig, y: seq<seq<Complex>>, buses: seq<Bus>, a: seq<Estimate>, pq: seq<Estimate>): (m: seq<seq<real>>)
    requires IsMatrix(y, |buses|, |buses|) && Located(buses, a) && Located(buses, pq)
    requires DivisorsNonZero(buses, a, pq)
    ensures IsMatrix(m, |a|, |pq|)
    ensures forall r, c :: 0 <= r < |a| && 0 <= c < |pq| ==>
      m[r][c] == if !UsesDiagonal(buses, a[r], pq[c])
                 then J12Off(trig, Between(y, buses, a[r], pq[c]), a[r].bus.voltage, pq[c].bus.voltage)
                 else J12Diag(a[r].activePower, Between(y, buses, a[r], pq[c]), a[r].bus.voltage)
  {
    seq(|a|, r requires 0 <= r < |a| => seq(|pq|, c requires 0 <= c < |pq| =>
      var g := Between(y, buses, a[r], pq[c]);
      if !UsesDiagonal(buses, a[r], pq[c]) then J12Off(trig, g, a[r].bus.voltage, pq[c].bus.voltage)
      else J12Diag(a[r].activePower, g, a[r].bus.voltage)))
  }

  function J21(trig: Trig, y: seq<seq<Complex>>, buses: seq<Bus>, a: seq<Estimate>, pq: seq<Estimate>): (m: seq<seq<real>>)
    requires IsMatrix(y, |buses|, |buses|) && Located(buses, a) && Located(buses, pq)
    ensures IsMatrix(m, |pq|, |a|)
    ensures forall r, c :: 0 <= r < |pq| && 0 <= c < |a| ==>
      m[r][c] == if !UsesDiagonal(buses, pq[r], a[c])
                 then J21Off(trig, Between(y, buses, pq[r], a[c]), pq[r].bus.voltage, a[c].bus.voltage)
                 else J21Diag(pq[r].activePower, Between(y, buses, pq[r], a[c]), pq[r].bus.voltage)
  {
    seq(|pq|, r requires 0 <= r < |pq| => seq(|a|, c requires 0 <= c < |a| =>
      var g := Between(y, buses, pq[r], a[c]);
      if !UsesDiagonal(buses, pq[r], a[c]) then J21Off(trig, g, pq[r].bus.voltage, a[c].bus.voltage)
      else J21Diag(pq[r].activePower, g, pq[r].bus.voltage)))
  }

  function J22(trig: Trig, y: seq<seq<Complex>>, buses: seq<Bus>, pq: seq<Estimate>): (m: seq<seq<real>>)
    requires IsMatrix(y, |buses|, |buses|) && Located(buses, pq)
    requires DivisorsNonZero(buses, pq, pq)
    ensures IsMatrix(m, |pq|, |pq|)
    ensures forall r, c :: 0 <= r < |pq| && 0 <= c < |pq| ==>
      m[r][c] == if !UsesDiagonal(buses, pq[r], pq[c])
                 then J22Off(trig, Between(y, buses, pq[r], pq[c]), pq[r].bus.voltage, pq[c].bus.voltage)
                 else J22Diag(pq[r].reactivePower, Between(y, buses, pq[r], pq[c]), pq[r].bus.voltage)
  {
    seq(|pq|, r requires 0 <= r < |pq| => seq(|pq|, c requires 0 <= c < |pq| =>
      var g := Between(y, buses, pq[r], pq[c]);
      if !UsesDiagonal(buses, pq[r], pq[c]) then J22Off(trig, g, pq[r].bus.voltage, pq[c].bus.voltage)
      else J22Diag(pq[r].reactivePower, g, pq[r].bus.voltage)))
  }

  /** The full Jacobian [[J11, J12], [J21, J22]], square of size |A| + |PQ|. */
  function FullJacobian(trig: Trig, y: seq<seq<Complex>>, buses: seq<Bus>, a: seq<Estimate>, pq: seq<Estimate>): (m: seq<seq<real>>)
    requires IsMatrix(y, |buses|, |buses|) && Located(buses, a) && Located(buses, pq)
    requires DivisorsNonZero(buses, a, pq) && DivisorsNonZero(buses, pq, pq)
    ensures IsMatrix(m, |a| + |pq|, |a| + |pq|)
    ensures forall r, c :: 0 <= r < |a| && 0 <= c < |a| ==> m[r][c] == J11(trig, y, buses, a)[r][c]
    ensures forall r, c :: 0 <= r < |a| && 0 <= c < |pq| ==> m[r][|a| + c] == J12(trig, y, buses, a, pq)[r][c]
    ensures forall r, c :: 0 <= r < |pq| && 0 <= c < |a| ==> m[|a| + r][c] == J21(trig, y, buses, a, pq)[r][c]
    ensures forall r, c :: 0 <= r < |pq| && 0 <= c < |pq| ==> m[|a| + r][|a| + c] == J22(trig, y, buses, pq)[r][c]
  {
    Block(J11(trig, y, buses, a), J12(trig, y, buses, a, pq), J21(trig, y, buses, a, pq), J22(trig, y, buses, pq),
          |a|, |pq|, |a|, |pq|)
  }

  /** The stacked mismatches: active errors over A, then reactive errors over PQ. */
  function MismatchVector(a: seq<Estimate>, pq: seq<Estimate>): (v: seq<real>)
    ensures |v| == |a| + |pq|
    ensures forall r :: 0 <= r < |a| ==> v[r] == a[r].activePowerError
    ensures forall r :: 0 <= r < |pq| ==> v[|a| + r] == pq[r].reactivePowerError
  {
    seq(|a|, r requires 0 <= r < |a| => a[r].activePowerError)
      + seq(|pq|, r requires 0 <= r < |pq| => pq[r].reactivePowerError)
  }

  /** Within one block of distinct bus numbers the diagonal formula is used exactly
      on the diagonal. */
  lemma DiagonalOnDiagonal(buses: seq<Bus>, es: seq<Estimate>, r: nat, c: nat)
    requires Located(buses, es) && DistinctKeys(es) && r < |es| && c < |es|
    ensures UsesDiagonal(buses, es[r], es[c]) <==> r == c
  {
    DiagonalIffSameNumber(buses, es[r], es[c]);
  }

  /** Across the blocks J12 and J21 the diagonal formula is used exactly when the
      row and column estimates are the same bus's. */
  lemma DiagonalAcrossBlocks(buses: seq<Bus>, es: seq<Estimate>, src: Estimate, dst: Estimate)
    requires DistinctKeys(es) && src in es && dst in es
    requires Position(buses, Key(src)) < |buses| && Position(buses, Key(dst)) < |buses|
    ensures UsesDiagonal(buses, src, dst) <==> src == dst
  {
    DiagonalIffSameNumber(buses, src, dst);
  }

  /** With distinct bus numbers, J11 holds the diagonal formula exactly on its
      diagonal and the off-diagonal formula everywhere else. */
  lemma J11Entries(trig: Trig, y: seq<seq<Complex>>, buses: seq<Bus>, a: seq<Estimate>)
    requires IsMatrix(y, |buses|, |buses|) && Located(buses, a) && DistinctKeys(a)
    ensures forall r, c :: 0 <= r < |a| && 0 <= c < |a| ==>
      J11(trig, y, buses, a)[r][c] ==
        if r == c then J11Diag(a[r].reactivePower, Between(y, buses, a[r], a[r]), a[r].bus.voltage)
        else J11Off(trig, Between(y, buses, a[r], a[c]), a[r].bus.voltage, a[c].bus.voltage)
  {
    DiagonalExactly(buses, a);
  }

  /** J12 holds the diagonal formula exactly where row and column are one
      estimate, when the two subsets agree on shared bus numbers. */
  lemma J12Entries(trig: Trig, y: seq<seq<Complex>>, buses: seq<Bus>, a: seq<Estimate>, pq: seq<Estimate>)
    requires IsMatrix(y, |buses|, |buses|) && Located(buses, a) && Located(buses, pq)
    requires DivisorsNonZero(buses, a, pq) && SameKeySameEstimate(a, pq)
    ensures forall r, c :: 0 <= r < |a| && 0 <= c < |pq| ==>
      J12(trig, y, buses, a, pq)[r][c] ==
        if a[r] == pq[c] then J12Diag(a[r].activePower, Between(y, buses, a[r], a[r]), a[r].bus.voltage)
        else J12Off(trig, Between(y, buses, a[r], pq[c]), a[r].bus.voltage, pq[c].bus.voltage)
  {
    AcrossExactly(buses, a, pq);
  }

  /** J21 likewise, rows from the PQ subset and columns from the angle subset. */
  lemma J21Entries(trig: Trig, y: seq<seq<Complex>>, buses: seq<Bus>, a: seq<Estimate>, pq: seq<Estimate>)
    requires IsMatrix(y, |buses|, |buses|) && Located(buses, a) && Located(buses, pq)
    requires SameKeySameEstimate(pq, a)
    ensures forall r, c :: 0 <= r < |pq| && 0 <= c < |a| ==>
      J21(trig, y, buses, a, pq)[r][c] ==
        if pq[r] == a[c] then J21Diag(pq[r].activePower, Between(y, buses, pq[r], pq[r]), pq[r].bus.voltage)
        else J21Off(trig, Between(y, buses, pq[r], a[c]), pq[r].bus.voltage, a[c].bus.voltage)
  {
    AcrossExactly(buses, pq, a);
  }

  /** With distinct bus numbers, J22 holds the diagonal formula exactly on its
      diagonal. */
  lemma J22Entries(trig: Trig, y: seq<seq<Complex>>, buses: seq<Bus>, pq: seq<Estimate>)
    requires IsMatrix(y, |buses|, |buses|) && Located(buses, pq) && DistinctKeys(pq)
    requires DivisorsNonZero(buses, pq, pq)
    ensures forall r, c :: 0 <= r < |pq| && 0 <= c < |pq| ==>
      J22(trig, y, buses, pq)[r][c] ==
        if r == c then J22Diag(pq[r].reactivePower, Between(y, buses, pq[r], pq[r]), pq[r].bus.voltage)
        else J22Off(trig, Between(y, buses, pq[r], pq[c]), pq[r].bus.voltage, pq[c].bus.voltage)
  {
    DiagonalExactly(buses, pq);
  }

  /** DiagonalOnDiagonal for every entry of a block at once. */
  lemma DiagonalExactly(buses: seq<Bus>, es: seq<Estimate>)
    requires Located(buses, es)
    ensures DistinctKeys(es) ==>
      forall r, c :: 0 <= r < |es| && 0 <= c < |es| ==> (UsesDiagonal(buses, es[r], es[c]) <==> r == c)
  {
    if DistinctKeys(es) {
      forall r, c | 0 <= r < |es| && 0 <= c < |es| ensures UsesDiagonal(buses, es[r], es[c]) <==> r == c {
        DiagonalOnDiagonal(buses, es, r, c);
      }
    }
  }

  /** Two lists of estimates agree wherever they share a bus number. */
  predicate SameKeySameEstimate(rows: seq<Estimate>, cols: seq<Estimate>) {
    forall r, c :: 0 <= r < |rows| && 0 <= c < |cols| && Key(rows[r]) == Key(cols[c]) ==> rows[r] == cols[c]
  }

  /** Across two such lists the diagonal formula is used exactly where row and
      column are the same estimate. */
  lemma AcrossExactly(buses: seq<Bus>, rows: seq<Estimate>, cols: seq<Estimate>)
    requires Located(buses, rows) && Located(buses, cols)
    ensures SameKeySameEstimate(rows, cols) ==>
      forall r, c :: 0 <= r < |rows| && 0 <= c < |cols| ==> (UsesDiagonal(buses, rows[r], cols[c]) <==> rows[r] == cols[c])
  {
    if SameKeySameEstimate(rows, cols) {
      forall r, c | 0 <= r < |rows| && 0 <= c < |cols|
        ensures UsesDiagonal(buses, rows[r], cols[c]) <==> rows[r] == cols[c]
      {
        DiagonalIffSameNumber(buses, rows[r], cols[c]);
      }
    }
  }

  /** The two subsets of one dictionary agree wherever they share a bus number,
      so the J12 and J21 statements about them apply. */
  lemma SubsetsAgreeOnKeys(es: seq<Estimate>)
    requires DistinctKeys(es)
    ensures SameKeySameEstimate(AngleSubset(es), MagnitudeSubset(es))
    ensures SameKeySameEstimate(MagnitudeSubset(es), AngleSubset(es))
  {
    var a, pq := AngleSubset(es), MagnitudeSubset(es);
    forall r, c | 0 <= r < |a| && 0 <= c < |pq| && Key(a[r]) == Key(pq[c]) ensures a[r] == pq[c] {
      assert a[r] in es && pq[c] in es;
      var i :| 0 <= i < |es| && es[i] == a[r];
      var j :| 0 <= j < |es| && es[j] == pq[c];
    }
    forall r, c | 0 <= r < |pq| && 0 <= c < |a| && Key(pq[r]) == Key(a[c]) ensures pq[r] == a[c] {
      assert pq[r] in es && a[c] in es;
      var i :| 0 <= i < |es| && es[i] == pq[r];
      var j :| 0 <= j < |es| && es[j] == a[c];
    }
  }
}
