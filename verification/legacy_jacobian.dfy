/** The Jacobian of the older pipeline: four n x n blocks indexed by bus
    number - 1, each with row and column `slack - 1` deleted, laid out as
    [[J11, J12], [J21, J22]]. Only the susceptance of the admittance matrix is
    read. */
module LegacyJacobian {
  import opened Wrappers
  import opened ComplexArith
  import opened Phasor
  import opened Matrices
  import opened PowerSystem
  import opened LegacyPowerFlow
  import Jacobian

  datatype Quadrant = Q11 | Q12 | Q21 | Q22

  /** Every bus number indexes an n x n block. */
  predicate Numbered(buses: seq<LegacyBus>, n: nat) {
    forall p :: 0 <= p < |buses| ==> Indexable(buses[p].number, n)
  }

  /** What the block formulas read: the n x n admittance matrix and one
      calculated power per bus. */
  predicate Inputs(y: seq<seq<Complex>>, s: seq<Complex>, n: nat) {
    IsMatrix(y, n, n) && |s| == n
  }

  /** x / v for a voltage magnitude v. numpy turns a division by zero into
      inf or nan, which no real holds; the stand-in 0 never reaches a matrix
      `CreateJacobian` returns, since it fails wherever such a quotient would
      survive. */
  function Quotient(x: real, v: real): real {
    if v == 0.0 then 0.0 else x / v
  }

  /** The current solver's diagonal formula for a quadrant, from bus k's
      calculated power `pk` and its own admittance `ykk`. */
  function CurrentDiagonal(q: Quadrant, pk: Complex, ykk: Complex, vk: Polar): real
    requires vk.mag != 0.0
  {
    match q
    case Q11 => Jacobian.J11Diag(pk.im, ykk, vk)
    case Q12 => Jacobian.J12Diag(pk.re, ykk, vk)
    case Q21 => Jacobian.J21Diag(pk.re, ykk, vk)
    case Q22 => Jacobian.J22Diag(pk.im, ykk, vk)
  }

  /** The current solver's off-diagonal formula for a quadrant. */
  function CurrentOffDiagonal(q: Quadrant, trig: Trig, ykj: Complex, vk: Polar, vj: Polar): real {
    match q
    case Q11 => Jacobian.J11Off(trig, ykj, vk, vj)
    case Q12 => Jacobian.J12Off(trig, ykj, vk, vj)
    case Q21 => Jacobian.J21Off(trig, ykj, vk, vj)
    case Q22 => Jacobian.J22Off(trig, ykj, vk, vj)
  }

  /** The diagonal formulas, with P and Q the calculated power at row k: the
      current solver's, with the conductance taken as zero. */
  function DiagonalValue(q: Quadrant, y: seq<seq<Complex>>, s: seq<Complex>, src: LegacyBus, n: nat): (r: real)
    requires Inputs(y, s, n) && Indexable(src.number, n)
    ensures var k := Slot(src.number, n);
      src.voltage.mag != 0.0 ==> r == CurrentDiagonal(q, s[k], Complex(0.0, y[k][k].im), src.voltage)
  {
    var k := Slot(src.number, n);
    var vk, b := src.voltage.mag, y[k][k].im;
    match q
    case Q11 => -s[k].im - vk * vk * b
    case Q12 => Quotient(s[k].re, vk)
    case Q21 => s[k].re
    case Q22 => Quotient(s[k].im, vk) - b * vk
  }

  /** The off-diagonal formulas; J11 uses the cosine. They are the current
      solver's, with the conductance taken as zero. */
  function OffDiagonalValue(q: Quadrant, trig: Trig, y: seq<seq<Complex>>, s: seq<Complex>,
                            src: LegacyBus, dst: LegacyBus, n: nat): (r: real)
    requires Inputs(y, s, n) && Indexable(src.number, n) && Indexable(dst.number, n)
    ensures var k, j := Slot(src.number, n), Slot(dst.number, n);
      r == CurrentOffDiagonal(q, trig, Complex(0.0, y[k][j].im), src.voltage, dst.voltage)
  {
    var k, j := Slot(src.number, n), Slot(dst.number, n);
    var vk, vj, b := src.voltage.mag, dst.voltage.mag, y[k][j].im;
    var d := src.voltage.angle - dst.voltage.angle;
    match q
    case Q11 => -vk * vj * b * trig.cos(d)
    case Q12 => vk * b * trig.sin(d)
    case Q21 => -vk * vj * b * trig.sin(d)
    case Q22 => -vk * b * trig.cos(d)
  }

  /** The value the loop body writes at [k][j] for a source and destination
      bus: the diagonal formula exactly when the two bus numbers are equal. */
  function EntryValue(q: Quadrant, trig: Trig, y: seq<seq<Complex>>, s: seq<Complex>,
                      src: LegacyBus, dst: LegacyBus, n: nat): (r: real)
    requires Inputs(y, s, n) && Indexable(src.number, n) && Indexable(dst.number, n)
    ensures var k, j := Slot(src.number, n), Slot(dst.number, n);
      src.number != dst.number ==>
        r == CurrentOffDiagonal(q, trig, Complex(0.0, y[k][j].im), src.voltage, dst.voltage)
    ensures var k := Slot(src.number, n);
      src.number == dst.number && src.voltage.mag != 0.0 ==>
        r == CurrentDiagonal(q, s[k], Complex(0.0, y[k][k].im), src.voltage)
  {
    if dst.number != src.number then OffDiagonalValue(q, trig, y, s, src, dst, n)
    else DiagonalValue(q, y, s, src, n)
  }

  /** The last of the first `i` buses whose number lands on index k. */
  function LastAt(buses: seq<LegacyBus>, n: nat, k: nat, i: nat): (o: Option<nat>)
    requires Numbered(buses, n) && i <= |buses|
    ensures o.Some? ==> o.value < i && Slot(buses[o.value].number, n) == k
    ensures o.Some? ==> forall p :: o.value < p < i ==> Slot(buses[p].number, n) != k
    ensures o.None? ==> forall p :: 0 <= p < i ==> Slot(buses[p].number, n) != k
  {
    if i == 0 then None
    else if Slot(buses[i - 1].number, n) == k then Some(i - 1)
    else LastAt(buses, n, k, i - 1)
  }

  /** What ends up at [k][j]: the value for the last bus numbered k + 1 and the
      last bus numbered j + 1, or zero when no bus has either number. */
  function BlockEntry(q: Quadrant, trig: Trig, y: seq<seq<Complex>>, s: seq<Complex>,
                      buses: seq<LegacyBus>, k: nat, j: nat): real
    requires Inputs(y, s, |buses|) && Numbered(buses, |buses|)
  {
    var n := |buses|;
    var src, dst := LastAt(buses, n, k, n), LastAt(buses, n, j, n);
    if src.Some? && dst.Some? then EntryValue(q, trig, y, s, buses[src.value], buses[dst.value], n) else 0.0
  }

  /** The inner loop: source bus `src` against the first `i` destination buses. */
  function FillRow(m: seq<seq<real>>, q: Quadrant, trig: Trig, y: seq<seq<Complex>>, s: seq<Complex>,
                   buses: seq<LegacyBus>, src: LegacyBus, i: nat): (r: seq<seq<real>>)
    requires Inputs(y, s, |buses|) && Numbered(buses, |buses|) && IsMatrix(m, |buses|, |buses|)
    requires Indexable(src.number, |buses|) && i <= |buses|
    ensures IsMatrix(r, |buses|, |buses|)
    ensures forall a, b :: 0 <= a < |buses| && 0 <= b < |buses| ==>
      r[a][b] == if a == Slot(src.number, |buses|) && LastAt(buses, |buses|, b, i).Some?
                 then EntryValue(q, trig, y, s, src, buses[LastAt(buses, |buses|, b, i).value], |buses|)
                 else m[a][b]
  {
    if i == 0 then m
    else
      var n := |buses|;
      var prev := FillRow(m, q, trig, y, s, buses, src, i - 1);
      var k, j := Slot(src.number, n), Slot(buses[i - 1].number, n);
      prev[k := prev[k][j := EntryValue(q, trig, y, s, src, buses[i - 1], n)]]
  }

  /** The outer loop over the first `i` source buses. */
  function FillBlock(m: seq<seq<real>>, q: Quadrant, trig: Trig, y: seq<seq<Complex>>, s: seq<Complex>,
                     buses: seq<LegacyBus>, i: nat): (r: seq<seq<real>>)
    requires Inputs(y, s, |buses|) && Numbered(buses, |buses|)
    requires IsMatrix(m, |buses|, |buses|) && i <= |buses|
    ensures IsMatrix(r, |buses|, |buses|)
    ensures forall a, b :: 0 <= a < |buses| && 0 <= b < |buses| ==>
      r[a][b] == if LastAt(buses, |buses|, a, i).Some? && LastAt(buses, |buses|, b, |buses|).Some?
                 then EntryValue(q, trig, y, s, buses[LastAt(buses, |buses|, a, i).value],
                                 buses[LastAt(buses, |buses|, b, |buses|).value], |buses|)
                 else m[a][b]
  {
    if i == 0 then m
    else FillRow(FillBlock(m, q, trig, y, s, buses, i - 1), q, trig, y, s, buses, buses[i - 1], |buses|)
  }

  /** One n x n block, from zeros. */
  function SubMatrix(q: Quadrant, trig: Trig, y: seq<seq<Complex>>, s: seq<Complex>, buses: seq<LegacyBus>): (r: seq<seq<real>>)
    requires Inputs(y, s, |buses|) && Numbered(buses, |buses|)
    ensures IsMatrix(r, |buses|, |buses|)
    ensures forall k, j :: 0 <= k < |buses| && 0 <= j < |buses| ==> r[k][j] == BlockEntry(q, trig, y, s, buses, k, j)
  {
    var n := |buses|;
    FromZeros(q, trig, y, s, buses);
    FillBlock(Fill(n, n, 0.0), q, trig, y, s, buses, n)
  }

  lemma FromZeros(q: Quadrant, trig: Trig, y: seq<seq<Complex>>, s: seq<Complex>, buses: seq<LegacyBus>)
    requires Inputs(y, s, |buses|) && Numbered(buses, |buses|)
    ensures var n := |buses|;
      forall k, j :: 0 <= k < n && 0 <= j < n ==>
        FillBlock(Fill(n, n, 0.0), q, trig, y, s, buses, n)[k][j] == BlockEntry(q, trig, y, s, buses, k, j)
  {
    var n := |buses|;
    var z := Fill(n, n, 0.0);
    var r := FillBlock(z, q, trig, y, s, buses, n);
    forall k, j | 0 <= k < n && 0 <= j < n ensures r[k][j] == BlockEntry(q, trig, y, s, buses, k, j) {
      var src, dst := LastAt(buses, n, k, n), LastAt(buses, n, j, n);
      if src.Some? && dst.Some? {
        assert r[k][j] == EntryValue(q, trig, y, s, buses[src.value], buses[dst.value], n);
      } else {
        assert r[k][j] == z[k][j] == 0.0;
      }
    }
  }

  /** The block with row and column `slack - 1` deleted. */
  function Reduced(q: Quadrant, trig: Trig, y: seq<seq<Complex>>, s: seq<Complex>, buses: seq<LegacyBus>, slack: int): (r: seq<seq<real>>)
    requires Inputs(y, s, |buses|) && Numbered(buses, |buses|)
    requires Indexable(slack, |buses|)
    ensures IsMatrix(r, |buses| - 1, |buses| - 1)
    ensures forall a, b :: 0 <= a < |buses| - 1 && 0 <= b < |buses| - 1 ==>
      r[a][b] == BlockEntry(q, trig, y, s, buses, Skip(a, Slot(slack, |buses|)), Skip(b, Slot(slack, |buses|)))
  {
    DeleteRowAndColumn(SubMatrix(q, trig, y, s, buses), |buses|, Slot(slack, |buses|))
  }

  /** The quadrant of a (2h) x (2h) block matrix that entry (a, b) falls in. */
  function QuadrantAt(a: nat, b: nat, h: nat): Quadrant {
    if a < h then (if b < h then Q11 else Q12) else (if b < h then Q21 else Q22)
  }

  /** The index inside its quadrant of row or column `a`. */
  function Within(a: nat, h: nat): nat {
    if a < h then a else a - h
  }

  /** The four reduced blocks laid out as [[J11, J12], [J21, J22]]. */
  function Assembled(trig: Trig, buses: seq<LegacyBus>, y: seq<seq<Complex>>, s: seq<Complex>, slack: int): (m: seq<seq<real>>)
    requires Inputs(y, s, |buses|) && Numbered(buses, |buses|)
    requires Indexable(slack, |buses|)
    ensures IsMatrix(m, 2 * |buses| - 2, 2 * |buses| - 2)
  {
    var h := |buses| - 1;
    var j11, j12 := Reduced(Q11, trig, y, s, buses, slack), Reduced(Q12, trig, y, s, buses, slack);
    var j21, j22 := Reduced(Q21, trig, y, s, buses, slack), Reduced(Q22, trig, y, s, buses, slack);
    Block(j11, j12, j21, j22, h, h, h, h)
  }

  /** Every J12 and J22 diagonal entry that survives the deletion divides by a
      non-zero magnitude. The entry at index k is written last by the last bus
      numbered onto k, so earlier buses on k and the slack's index are exempt. */
  predicate SurvivingDivisorsNonZero(buses: seq<LegacyBus>, slack: int)
    requires Numbered(buses, |buses|) && Indexable(slack, |buses|)
  {
    var n := |buses|;
    forall k: nat :: k < n && k != Slot(slack, n) && LastAt(buses, n, k, n).Some? ==>
      buses[LastAt(buses, n, k, n).value].voltage.mag != 0.0
  }

  /** Buses read with a non-zero start voltage never reach a zero divisor. */
  lemma ReadBusesKeepDivisors(rows: seq<BusRow>, settings: Settings)
    requires settings.powerBase != 0.0 && settings.startVoltage.mag != 0.0
    requires Indexable(settings.slackBusNumber, |rows|)
    requires Numbered(ReadBusData(rows, settings).value, |rows|)
    ensures SurvivingDivisorsNonZero(ReadBusData(rows, settings).value, settings.slackBusNumber)
  {
    ReadBusesNonZero(rows, settings);
  }

  /** The Jacobian: a (2n - 2) x (2n - 2) matrix, or the error the code runs
      into: a bus number or the slack number outside the blocks, or a zero
      magnitude under a diagonal that survives (where numpy yields inf or nan). */
  function CreateJacobian(trig: Trig, buses: seq<LegacyBus>, y: seq<seq<Complex>>, s: seq<Complex>, slack: int): (r: Result<seq<seq<real>>, LegacyError>)
    requires Inputs(y, s, |buses|)
    ensures r.Failure? <==>
      !(Numbered(buses, |buses|) && Indexable(slack, |buses|) && SurvivingDivisorsNonZero(buses, slack))
    ensures r.Failure? ==> (r.error == IndexOutOfRange <==> !(Numbered(buses, |buses|) && Indexable(slack, |buses|)))
    ensures r.Failure? ==> r.error == IndexOutOfRange || r.error == ZeroVoltageMagnitude
    ensures r.Success? ==> |buses| > 0 && IsMatrix(r.value, 2 * |buses| - 2, 2 * |buses| - 2)
  {
    var n := |buses|;
    if !Numbered(buses, n) then Failure(IndexOutOfRange)
    else if !Indexable(slack, n) then Failure(IndexOutOfRange)
    else if !SurvivingDivisorsNonZero(buses, slack) then Failure(ZeroVoltageMagnitude)
    else Success(Assembled(trig, buses, y, s, slack))
  }

  /** The block for a quadrant. */
  function Pick<T>(q: Quadrant, j11: T, j12: T, j21: T, j22: T): T {
    match q
    case Q11 => j11
    case Q12 => j12
    case Q21 => j21
    case Q22 => j22
  }

  /** Entry (a, b) of a block matrix with four h x h blocks, read from the block
      of its quadrant. */
  lemma QuadrantLookup<T>(j11: seq<seq<T>>, j12: seq<seq<T>>, j21: seq<seq<T>>, j22: seq<seq<T>>, h: nat, a: nat, b: nat)
    requires IsMatrix(j11, h, h) && IsMatrix(j12, h, h) && IsMatrix(j21, h, h) && IsMatrix(j22, h, h)
    requires a < 2 * h && b < 2 * h
    ensures Block(j11, j12, j21, j22, h, h, h, h)[a][b] ==
      Pick(QuadrantAt(a, b, h), j11, j12, j21, j22)[Within(a, h)][Within(b, h)]
  {
    BlockLookup(j11, j12, j21, j22, h, h, h, h);
  }

  /** Entry (a, b) of the assembled matrix is entry (a', b') of the reduced
      block for its quadrant, a' and b' its indices inside that quadrant. */
  lemma AssembledPick(trig: Trig, buses: seq<LegacyBus>, y: seq<seq<Complex>>, s: seq<Complex>, slack: int, a: nat, b: nat)
    requires Inputs(y, s, |buses|) && Numbered(buses, |buses|)
    requires Indexable(slack, |buses|) && a < 2 * (|buses| - 1) && b < 2 * (|buses| - 1)
    ensures var h := |buses| - 1;
      Assembled(trig, buses, y, s, slack)[a][b] ==
        Reduced(QuadrantAt(a, b, h), trig, y, s, buses, slack)[Within(a, h)][Within(b, h)]
  {
    var h := |buses| - 1;
    var j11, j12 := Reduced(Q11, trig, y, s, buses, slack), Reduced(Q12, trig, y, s, buses, slack);
    var j21, j22 := Reduced(Q21, trig, y, s, buses, slack), Reduced(Q22, trig, y, s, buses, slack);
    QuadrantLookup(j11, j12, j21, j22, h, a, b);
    match QuadrantAt(a, b, h)
    case Q11 =>
    case Q12 =>
    case Q21 =>
    case Q22 =>
  }

  /** Entry (a, b) of the assembled matrix is entry (Skip(a'), Skip(b')) of the
      block for its quadrant. */
  lemma AssembledEntry(trig: Trig, buses: seq<LegacyBus>, y: seq<seq<Complex>>, s: seq<Complex>, slack: int, a: nat, b: nat)
    requires Inputs(y, s, |buses|) && Numbered(buses, |buses|)
    requires Indexable(slack, |buses|) && a < 2 * (|buses| - 1) && b < 2 * (|buses| - 1)
    ensures var h, g := |buses| - 1, Slot(slack, |buses|);
      Assembled(trig, buses, y, s, slack)[a][b] ==
        BlockEntry(QuadrantAt(a, b, h), trig, y, s, buses, Skip(Within(a, h), g), Skip(Within(b, h), g))
  {
    var h, g := |buses| - 1, Slot(slack, |buses|);
    var r := Reduced(QuadrantAt(a, b, h), trig, y, s, buses, slack);
    AssembledPick(trig, buses, y, s, slack, a, b);
    assert r[Within(a, h)][Within(b, h)] ==
      BlockEntry(QuadrantAt(a, b, h), trig, y, s, buses, Skip(Within(a, h), g), Skip(Within(b, h), g));
  }

  /** Entry (a, b) of m is the full entry of its quadrant's block, read at the
      indices that skip the slack bus. */
  predicate EntryFromBlock(m: seq<seq<real>>, trig: Trig, buses: seq<LegacyBus>, y: seq<seq<Complex>>, s: seq<Complex>,
                           slack: int, a: nat, b: nat)
    requires Inputs(y, s, |buses|) && Numbered(buses, |buses|)
    requires Indexable(slack, |buses|)
    requires IsMatrix(m, 2 * |buses| - 2, 2 * |buses| - 2) && a < 2 * |buses| - 2 && b < 2 * |buses| - 2
  {
    var h, g := |buses| - 1, Slot(slack, |buses|);
    m[a][b] == BlockEntry(QuadrantAt(a, b, h), trig, y, s, buses, Skip(Within(a, h), g), Skip(Within(b, h), g))
  }

  /** Every entry of m is the full entry of its quadrant's block. */
  predicate FromBlocks(m: seq<seq<real>>, trig: Trig, buses: seq<LegacyBus>, y: seq<seq<Complex>>, s: seq<Complex>, slack: int)
    requires Inputs(y, s, |buses|) && Numbered(buses, |buses|)
    requires Indexable(slack, |buses|)
  {
    IsMatrix(m, 2 * |buses| - 2, 2 * |buses| - 2) &&
    forall a: nat, b: nat :: a < 2 * |buses| - 2 && b < 2 * |buses| - 2 ==>
      EntryFromBlock(m, trig, buses, y, s, slack, a, b)
  }

  /** Whenever its checks pass, the Jacobian is the assembled matrix, and entry
      (a, b) of it is entry (Skip(a'), Skip(b')) of the block for its quadrant,
      a' and b' its indices inside that quadrant. */
  lemma JacobianLayout(trig: Trig, buses: seq<LegacyBus>, y: seq<seq<Complex>>, s: seq<Complex>, slack: int)
    requires Inputs(y, s, |buses|) && Numbered(buses, |buses|)
    requires Indexable(slack, |buses|) && SurvivingDivisorsNonZero(buses, slack)
    ensures CreateJacobian(trig, buses, y, s, slack) == Success(Assembled(trig, buses, y, s, slack))
    ensures FromBlocks(Assembled(trig, buses, y, s, slack), trig, buses, y, s, slack)
  {
    var m := Assembled(trig, buses, y, s, slack);
    forall a: nat, b: nat | a < 2 * |buses| - 2 && b < 2 * |buses| - 2
      ensures EntryFromBlock(m, trig, buses, y, s, slack, a, b)
    {
      AssembledEntry(trig, buses, y, s, slack, a, b);
    }
  }

  /** Deleting the same index from rows and columns keeps the diagonal on the
      diagonal: in every reduced block the diagonal formula appears exactly at
      the entries whose row equals their column. */
  lemma {:induction false} DiagonalFormulaOnDiagonal(q: Quadrant, trig: Trig, y: seq<seq<Complex>>, s: seq<Complex>,
                                                     buses: seq<LegacyBus>, slack: int, a: nat, b: nat)
    requires Inputs(y, s, |buses|) && Numbered(buses, |buses|)
    requires Indexable(slack, |buses|) && a < |buses| - 1 && b < |buses| - 1
    requires LastAt(buses, |buses|, Skip(a, Slot(slack, |buses|)), |buses|).Some?
    requires LastAt(buses, |buses|, Skip(b, Slot(slack, |buses|)), |buses|).Some?
    ensures var n, g := |buses|, Slot(slack, |buses|);
      var src, dst := buses[LastAt(buses, n, Skip(a, g), n).value], buses[LastAt(buses, n, Skip(b, g), n).value];
      Reduced(q, trig, y, s, buses, slack)[a][b] ==
        if a == b then DiagonalValue(q, y, s, src, n) else OffDiagonalValue(q, trig, y, s, src, dst, n)
  {
    var n, g := |buses|, Slot(slack, |buses|);
    var k, j := Skip(a, g), Skip(b, g);
    var src, dst := buses[LastAt(buses, n, k, n).value], buses[LastAt(buses, n, j, n).value];
    assert Reduced(q, trig, y, s, buses, slack)[a][b] == EntryValue(q, trig, y, s, src, dst, n);
    assert Slot(src.number, n) == k && Slot(dst.number, n) == j;
    assert k == j <==> a == b;
    assert a == b ==> src == dst;
  }

  /** When the checks pass, every diagonal entry of a reduced block that a bus
      reaches is the current solver's diagonal formula with the conductance
      taken as zero, over a non-zero magnitude: no stand-in quotient survives. */
  lemma SurvivingDiagonals(q: Quadrant, trig: Trig, y: seq<seq<Complex>>, s: seq<Complex>,
                           buses: seq<LegacyBus>, slack: int, a: nat)
    requires Inputs(y, s, |buses|) && Numbered(buses, |buses|)
    requires Indexable(slack, |buses|) && SurvivingDivisorsNonZero(buses, slack) && a < |buses| - 1
    requires LastAt(buses, |buses|, Skip(a, Slot(slack, |buses|)), |buses|).Some?
    ensures var n, k := |buses|, Skip(a, Slot(slack, |buses|));
      var src := buses[LastAt(buses, n, k, n).value];
      src.voltage.mag != 0.0 &&
      Reduced(q, trig, y, s, buses, slack)[a][a] == CurrentDiagonal(q, s[k], Complex(0.0, y[k][k].im), src.voltage)
  {
    DiagonalFormulaOnDiagonal(q, trig, y, s, buses, slack, a, a);
  }

  /** A block entry reads only imaginary parts of the admittance matrix. */
  lemma BlockEntryIgnoresConductance(q: Quadrant, trig: Trig, y: seq<seq<Complex>>, z: seq<seq<Complex>>,
                                     s: seq<Complex>, buses: seq<LegacyBus>, k: nat, j: nat)
    requires Inputs(y, s, |buses|) && Inputs(z, s, |buses|) && Numbered(buses, |buses|)
    requires forall a, b :: 0 <= a < |buses| && 0 <= b < |buses| ==> y[a][b].im == z[a][b].im
    ensures BlockEntry(q, trig, y, s, buses, k, j) == BlockEntry(q, trig, z, s, buses, k, j)
  {
    var n := |buses|;
    var src, dst := LastAt(buses, n, k, n), LastAt(buses, n, j, n);
    if src.Some? && dst.Some? {
      var sb, db := buses[src.value], buses[dst.value];
      var sk, dk := Slot(sb.number, n), Slot(db.number, n);
      assert y[sk][sk].im == z[sk][sk].im && y[sk][dk].im == z[sk][dk].im;
    }
  }

  /** When the checks pass, the matrices assembled from two admittance
      matrices with the same susceptances agree entry by entry. */
  lemma SameEntries(trig: Trig, buses: seq<LegacyBus>, y: seq<seq<Complex>>, z: seq<seq<Complex>>,
                    s: seq<Complex>, slack: int)
    requires Inputs(y, s, |buses|) && Inputs(z, s, |buses|)
    requires forall k, j :: 0 <= k < |buses| && 0 <= j < |buses| ==> y[k][j].im == z[k][j].im
    requires Numbered(buses, |buses|) && Indexable(slack, |buses|)
    ensures var h := |buses| - 1;
      forall r, c :: 0 <= r < 2 * h && 0 <= c < 2 * h ==>
        Assembled(trig, buses, y, s, slack)[r][c] == Assembled(trig, buses, z, s, slack)[r][c]
  {
    var my, mz := Assembled(trig, buses, y, s, slack), Assembled(trig, buses, z, s, slack);
    var h, g := |buses| - 1, Slot(slack, |buses|);
    forall r, c | 0 <= r < 2 * h && 0 <= c < 2 * h
      ensures my[r][c] == mz[r][c]
    {
      AssembledEntry(trig, buses, y, s, slack, r, c);
      AssembledEntry(trig, buses, z, s, slack, r, c);
      BlockEntryIgnoresConductance(QuadrantAt(r, c, h), trig, y, z, s, buses, Skip(Within(r, h), g), Skip(Within(c, h), g));
    }
  }

  /** Whether the Jacobian fails, and with which error, does not depend on the
      admittance matrix. */
  lemma SameOutcome(trig: Trig, buses: seq<LegacyBus>, y: seq<seq<Complex>>, z: seq<seq<Complex>>,
                    s: seq<Complex>, slack: int)
    requires Inputs(y, s, |buses|) && Inputs(z, s, |buses|)
    ensures CreateJacobian(trig, buses, y, s, slack).Failure? == CreateJacobian(trig, buses, z, s, slack).Failure?
    ensures CreateJacobian(trig, buses, y, s, slack).Failure? ==>
      CreateJacobian(trig, buses, y, s, slack) == CreateJacobian(trig, buses, z, s, slack)
  {
  }

  /** Only the susceptance is read: two admittance matrices with the same
      imaginary parts give the same Jacobian. */
  lemma ConductanceIgnored(trig: Trig, buses: seq<LegacyBus>, y: seq<seq<Complex>>, z: seq<seq<Complex>>,
                           s: seq<Complex>, slack: int)
    requires Inputs(y, s, |buses|) && Inputs(z, s, |buses|)
    requires forall k, j :: 0 <= k < |buses| && 0 <= j < |buses| ==> y[k][j].im == z[k][j].im
    ensures CreateJacobian(trig, buses, y, s, slack) == CreateJacobian(trig, buses, z, s, slack)
  {
    var ry, rz := CreateJacobian(trig, buses, y, s, slack), CreateJacobian(trig, buses, z, s, slack);
    SameOutcome(trig, buses, y, z, s, slack);
    if ry.Success? {
      JacobianLayout(trig, buses, y, s, slack);
      JacobianLayout(trig, buses, z, s, slack);
      SameEntries(trig, buses, y, z, s, slack);
      SameEntriesSame(ry.value, rz.value, 2 * |buses| - 2, 2 * |buses| - 2);
    }
  }
}
