/** The older power-flow pipeline: bus data with the slack bus balancing the
    system's power, the admittance matrix read from line records, the error
    list of one iteration, its signed convergence test, and the application
    of a correction vector split into an angle half and a magnitude half. */
module LegacyPowerFlow {
  import opened Wrappers
  import opened ComplexArith
  import opened Phasor
  import opened Matrices
  import opened PowerSystem

  /** A bus of the older pipeline: its number, the complex power it consumes
      (per unit) and its voltage. */
  datatype LegacyBus = LegacyBus(number: int, power: Complex, voltage: Polar)

  datatype LegacyError =
    | IndexOutOfRange       // a Python list or numpy index outside its range
    | DivisionByZero        // a zero line impedance
    | ZeroVoltageMagnitude  // a J12/J22 diagonal would divide by a zero magnitude
    | SingularJacobian      // the linear solve found no inverse

  /** The analysis parameters, the mismatch limits already in per unit. */
  datatype Settings = Settings(slackBusNumber: int, startVoltage: Polar, powerBase: real,
                               maxActiveMismatch: real, maxReactiveMismatch: real)

  /** The constructor divides the MW and Mvar limits by the power base. */
  function MakeSettings(slack: int, start: Polar, powerBase: real, maxMw: real, maxMvar: real): (r: Result<Settings, LegacyError>)
    ensures r.Failure? <==> powerBase == 0.0
    ensures r.Failure? ==> r.error == DivisionByZero
    ensures r.Success? ==> (r.value.slackBusNumber == slack && r.value.startVoltage == start
                            && r.value.powerBase == powerBase
                            && r.value.maxActiveMismatch * powerBase == maxMw
                            && r.value.maxReactiveMismatch * powerBase == maxMvar)
  {
    if powerBase == 0.0 then Failure(DivisionByZero)
    else Success(Settings(slack, start, powerBase, maxMw / powerBase, maxMvar / powerBase))
  }

  // ---------------------------------------------------------------- bus data

  /** A row of the bus sheet; an empty cell is None. */
  datatype BusRow = BusRow(number: int, activeLoad: Option<real>, reactiveLoad: Option<real>,
                           activeGeneration: Option<real>, voltage: Option<real>)

  /** Python's `cell or default`: an empty cell and a zero both give the default. */
  function OrElse(cell: Option<real>, default: real): real {
    if cell.None? || cell.value == 0.0 then default else cell.value
  }

  /** The bus's complex power in per unit, generation minus the complex load. */
  function RowPower(row: BusRow, powerBase: real): (s: Complex)
    requires powerBase != 0.0
    ensures Scale(powerBase, s) ==
      Complex(OrElse(row.activeGeneration, 0.0) - OrElse(row.activeLoad, 0.0), -OrElse(row.reactiveLoad, 0.0))
  {
    var gen, load, reactive := OrElse(row.activeGeneration, 0.0), OrElse(row.activeLoad, 0.0), OrElse(row.reactiveLoad, 0.0);
    Complex((gen - load) / powerBase, -reactive / powerBase)
  }

  /** The voltage cell, or the start voltage when it is empty or zero: the
      magnitude is the cell's value under Python's `or`, a voltage read from a
      cell has angle 0, and a non-zero start voltage leaves no bus at zero. */
  function RowVoltage(row: BusRow, start: Polar): (v: Polar)
    ensures v.mag == OrElse(row.voltage, start.mag)
    ensures v == start || (row.voltage.Some? && v.mag == row.voltage.value && v.angle == 0.0)
    ensures v.mag == 0.0 ==> start.mag == 0.0
  {
    if row.voltage.None? || row.voltage.value == 0.0 then start else Polar(row.voltage.value, 0.0)
  }

  /** One bus per row, in row order: the row's number, its generation minus
      its complex load per unit, and its voltage cell under Python's `or`. */
  function ToBuses(rows: seq<BusRow>, settings: Settings): (bs: seq<LegacyBus>)
    requires settings.powerBase != 0.0
    ensures |bs| == |rows|
    ensures forall i :: 0 <= i < |rows| ==> bs[i].number == rows[i].number
    ensures forall i :: 0 <= i < |rows| ==>
      Scale(settings.powerBase, bs[i].power) ==
        Complex(OrElse(rows[i].activeGeneration, 0.0) - OrElse(rows[i].activeLoad, 0.0), -OrElse(rows[i].reactiveLoad, 0.0))
    ensures forall i :: 0 <= i < |rows| ==> bs[i].voltage.mag == OrElse(rows[i].voltage, settings.startVoltage.mag)
    ensures forall i :: 0 <= i < |rows| ==> bs[i].voltage == settings.startVoltage || bs[i].voltage.angle == 0.0
  {
    seq(|rows|, i requires 0 <= i < |rows| =>
      LegacyBus(rows[i].number, RowPower(rows[i], settings.powerBase), RowVoltage(rows[i], settings.startVoltage)))
  }

  function Powers(bs: seq<LegacyBus>): (s: seq<Complex>)
    ensures |s| == |bs| && forall i :: 0 <= i < |bs| ==> s[i] == bs[i].power
  {
    seq(|bs|, i requires 0 <= i < |bs| => bs[i].power)
  }

  predicate SortedByNumber(bs: seq<LegacyBus>) {
    forall a, b :: 0 <= a < b < |bs| ==> bs[a].number <= bs[b].number
  }

  /** Inserts `b` before the first bus whose number is not smaller, so a bus
      keeps its place among equal numbers coming after it (a stable sort). */
  function Insert(b: LegacyBus, sorted: seq<LegacyBus>): (r: seq<LegacyBus>)
    requires SortedByNumber(sorted)
    ensures SortedByNumber(r) && |r| == |sorted| + 1
    ensures forall i :: 0 <= i < |r| ==> r[i] == b || r[i] in sorted
  {
    if |sorted| == 0 || b.number <= sorted[0].number then
      [b] + sorted
    else
      [sorted[0]] + Insert(b, sorted[1..])
  }

  lemma {:induction false} InsertPermutes(b: LegacyBus, sorted: seq<LegacyBus>)
    requires SortedByNumber(sorted)
    ensures multiset(Insert(b, sorted)) == multiset(sorted) + multiset{b}
  {
    if |sorted| > 0 && sorted[0].number < b.number {
      InsertPermutes(b, sorted[1..]);
      assert sorted == [sorted[0]] + sorted[1..];
    }
  }

  /** Python's `sorted` by bus number. */
  function SortByNumber(bs: seq<LegacyBus>): (r: seq<LegacyBus>)
    ensures SortedByNumber(r) && |r| == |bs|
  {
    if |bs| == 0 then [] else Insert(bs[0], SortByNumber(bs[1..]))
  }

  /** The sorted list is a permutation of the input. */
  lemma {:induction false} SortPermutes(bs: seq<LegacyBus>)
    ensures multiset(SortByNumber(bs)) == multiset(bs)
  {
    if |bs| > 0 {
      SortPermutes(bs[1..]);
      InsertPermutes(bs[0], SortByNumber(bs[1..]));
      assert bs == [bs[0]] + bs[1..];
    }
  }

  /** The total power of a list is its head's power plus the rest's. */
  lemma PowersCons(b: LegacyBus, rest: seq<LegacyBus>)
    ensures Sum(Powers([b] + rest)) == Add(b.power, Sum(Powers(rest)))
  {
    assert Powers([b] + rest)[1..] == Powers(rest);
  }

  lemma {:induction false} InsertKeepsTotal(b: LegacyBus, sorted: seq<LegacyBus>)
    requires SortedByNumber(sorted)
    ensures Sum(Powers(Insert(b, sorted))) == Add(b.power, Sum(Powers(sorted)))
  {
    if |sorted| == 0 || b.number <= sorted[0].number {
      PowersCons(b, sorted);
    } else {
      var rest := Insert(b, sorted[1..]);
      InsertKeepsTotal(b, sorted[1..]);
      PowersCons(sorted[0], rest);
      PowersCons(sorted[0], sorted[1..]);
      assert [sorted[0]] + sorted[1..] == sorted;
    }
  }

  /** Sorting does not change the total power. */
  lemma {:induction false} SortKeepsTotal(bs: seq<LegacyBus>)
    ensures Sum(Powers(SortByNumber(bs))) == Sum(Powers(bs))
  {
    if |bs| > 0 {
      SortKeepsTotal(bs[1..]);
      InsertKeepsTotal(bs[0], SortByNumber(bs[1..]));
      assert Powers(bs)[1..] == Powers(bs[1..]);
    }
  }

  /** Reads the bus rows, sorts them by number, and overwrites the power of the
      bus at list index `slack - 1` (Python's negative indices wrap) with minus
      the total power of all rows. */
  function ReadBusData(rows: seq<BusRow>, settings: Settings): (r: Result<seq<LegacyBus>, LegacyError>)
    requires settings.powerBase != 0.0
    ensures r.Failure? <==> !Indexable(settings.slackBusNumber, |rows|)
    ensures r.Failure? ==> r.error == IndexOutOfRange
    ensures r.Success? ==>
      var sorted := SortByNumber(ToBuses(rows, settings));
      var k := Slot(settings.slackBusNumber, |rows|);
      |r.value| == |rows| && SortedByNumber(r.value)
      && r.value[k] == sorted[k].(power := Neg(Sum(Powers(ToBuses(rows, settings)))))
      && forall p :: 0 <= p < |rows| && p != k ==> r.value[p] == sorted[p]
  {
    var buses := ToBuses(rows, settings);
    var total := Sum(Powers(buses));
    var sorted := SortByNumber(buses);
    if !Indexable(settings.slackBusNumber, |rows|) then Failure(IndexOutOfRange)
    else
      var k := Slot(settings.slackBusNumber, |rows|);
      Success(sorted[k := sorted[k].(power := Neg(total))])
  }

  /** The balancing: the final powers plus the power the row at the slack
      index had specified add up to zero, so the system is balanced exactly
      when that row specified no power. */
  lemma SlackBalancesSystem(rows: seq<BusRow>, settings: Settings)
    requires settings.powerBase != 0.0 && Indexable(settings.slackBusNumber, |rows|)
    ensures var sorted := SortByNumber(ToBuses(rows, settings));
      var k := Slot(settings.slackBusNumber, |rows|);
      var buses := ReadBusData(rows, settings).value;
      Add(Sum(Powers(buses)), sorted[k].power) == Zero
      && (sorted[k].power == Zero <==> Sum(Powers(buses)) == Zero)
  {
    var unsorted := ToBuses(rows, settings);
    var sorted := SortByNumber(unsorted);
    var k := Slot(settings.slackBusNumber, |rows|);
    var buses := ReadBusData(rows, settings).value;
    var total := Sum(Powers(unsorted));
    SortKeepsTotal(unsorted);
    assert Powers(buses) == Powers(sorted)[k := Neg(total)];
    SumUpdate(Powers(sorted), k, Neg(total));
  }

  /** With a non-zero start voltage every bus read has a non-zero magnitude:
      sorting only permutes the buses, and the slack overwrite keeps voltages. */
  lemma ReadBusesNonZero(rows: seq<BusRow>, settings: Settings)
    requires settings.powerBase != 0.0 && settings.startVoltage.mag != 0.0
    requires Indexable(settings.slackBusNumber, |rows|)
    ensures var buses := ReadBusData(rows, settings).value;
      forall p :: 0 <= p < |buses| ==> buses[p].voltage.mag != 0.0
  {
    var unsorted := ToBuses(rows, settings);
    var sorted := SortByNumber(unsorted);
    var buses := ReadBusData(rows, settings).value;
    SortPermutes(unsorted);
    forall p | 0 <= p < |buses| ensures buses[p].voltage.mag != 0.0 {
      assert buses[p].voltage == sorted[p].voltage;
      assert sorted[p] in multiset(unsorted);
      var i :| 0 <= i < |unsorted| && unsorted[i] == sorted[p];
    }
  }

  // --------------------------------------------------------- admittance data

  /** A row of the line sheet: end bus numbers, total resistance, reactance and
      susceptance in per unit, and the power rating (not used). */
  datatype LineRow = LineRow(source: int, destination: int, resistance: real, reactance: real,
                             susceptance: real, maxPower: real)

  /** The line a row describes: impedance r + jx, which is zero exactly when
      both are, and a purely imaginary shunt at each end, the two ends together
      carrying the row's total susceptance. */
  function ToLine(row: LineRow): (l: Line)
    ensures l.source == row.source && l.destination == row.destination
    ensures l.impedance == Zero <==> row.resistance == 0.0 && row.reactance == 0.0
    ensures l.impedance.re == row.resistance && l.impedance.im == row.reactance
    ensures l.shunt.re == 0.0 && Add(l.shunt, l.shunt) == Complex(0.0, row.susceptance)
  {
    Line(row.source, row.destination, Complex(row.resistance, row.reactance),
         Complex(0.0, row.susceptance / 2.0), row.maxPower)
  }

  function ToLines(rows: seq<LineRow>): (ls: seq<Line>)
    ensures |ls| == |rows| && forall i :: 0 <= i < |rows| ==> ls[i] == ToLine(rows[i])
  {
    seq(|rows|, i requires 0 <= i < |rows| => ToLine(rows[i]))
  }

  /** The error one line raises: the reciprocal of the impedance is taken
      before the matrix is indexed, so a zero impedance wins over a bad end. */
  function LineError(l: Line, n: nat): (e: Option<LegacyError>)
    ensures e.None? <==> ValidLine(l, n)
    ensures e == Some(DivisionByZero) <==> l.impedance == Zero
    ensures e == Some(IndexOutOfRange) <==> l.impedance != Zero && !(Indexable(l.source, n) && Indexable(l.destination, n))
  {
    if l.impedance == Zero then Some(DivisionByZero)
    else if !Indexable(l.source, n) || !Indexable(l.destination, n) then Some(IndexOutOfRange)
    else None
  }

  /** The error the first bad row raises. */
  function FirstLineError(rows: seq<LineRow>, n: nat): (e: Option<LegacyError>)
    ensures e.None? <==> ValidLines(ToLines(rows), n)
    ensures e.Some? ==> e.value == DivisionByZero || e.value == IndexOutOfRange
  {
    if |rows| == 0 then None
    else
      assert forall i :: 1 <= i < |rows| ==> ToLines(rows)[i] == ToLines(rows[1..])[i - 1];
      match LineError(ToLine(rows[0]), n)
      case Some(err) => Some(err)
      case None => FirstLineError(rows[1..], n)
  }

  /** The error reported is the one of the first bad row: rows before `k` are
      valid and row `k` is not, so its error is the one raised. */
  lemma {:induction false} FirstLineErrorIsFirst(rows: seq<LineRow>, n: nat, k: nat)
    requires k < |rows| && LineError(ToLine(rows[k]), n).Some?
    requires forall j :: 0 <= j < k ==> LineError(ToLine(rows[j]), n).None?
    ensures FirstLineError(rows, n) == LineError(ToLine(rows[k]), n)
  {
    if k > 0 {
      assert forall j :: 0 <= j < k - 1 ==> rows[1..][j] == rows[j + 1];
      FirstLineErrorIsFirst(rows[1..], n, k - 1);
    }
  }

  /** The admittance matrix of `n` buses from the line rows. */
  function ReadAdmittanceMatrix(rows: seq<LineRow>, n: nat): (r: Result<seq<seq<Complex>>, LegacyError>)
    ensures r.Failure? <==> !ValidLines(ToLines(rows), n)
    ensures r.Failure? ==> FirstLineError(rows, n) == Some(r.error)
    ensures r.Success? ==> IsMatrix(r.value, n, n)
    ensures r.Success? ==> forall i, j :: 0 <= i < n && 0 <= j < n ==> r.value[i][j] == LineSum(ToLines(rows), n, i, j)
  {
    match FirstLineError(rows, n)
    case Some(e) => Failure(e)
    case None => Success(Assemble(Fill(n, n, Zero), n, ToLines(rows)))
  }

  /** Both pipelines assemble the same matrix from the same lines. */
  lemma ReadAdmittanceMatchesSystem(rows: seq<LineRow>, buses: seq<Bus>)
    requires ValidLines(ToLines(rows), |buses|)
    ensures ReadAdmittanceMatrix(rows, |buses|).Success?
    ensures ReadAdmittanceMatrix(rows, |buses|).value == AdmittanceMatrix(System(buses, ToLines(rows)))
  {
    var n := |buses|;
    var y, z := ReadAdmittanceMatrix(rows, n).value, AdmittanceMatrix(System(buses, ToLines(rows)));
    forall i | 0 <= i < n ensures y[i] == z[i] {
      assert forall j :: 0 <= j < n ==> y[i][j] == z[i][j];
    }
  }

  /** The legacy matrix is symmetric too. */
  lemma ReadAdmittanceSymmetric(rows: seq<LineRow>, n: nat)
    requires ValidLines(ToLines(rows), n)
    ensures ReadAdmittanceMatrix(rows, n).Success?
    ensures Symmetric(ReadAdmittanceMatrix(rows, n).value, n)
  {
    var y := ReadAdmittanceMatrix(rows, n).value;
    forall i, j | 0 <= i < n && 0 <= j < n ensures y[i][j] == y[j][i] {
      LineSumSymmetric(ToLines(rows), n, i, j);
    }
  }

  /** A purely reactive impedance jx has admittance -j/x. */
  lemma PureReactanceInverse(x: real)
    requires x != 0.0
    ensures Inv(Complex(0.0, x)) == Complex(0.0, -1.0 / x)
  {
    var z := Complex(0.0, x);
    var w := Inv(z);
    InvIsReciprocal(z);
    assert x * w.re == 0.0;
    assert w.re == 0.0;
    assert w.im * x == -1.0;
    assert (-1.0 / x) * x == -1.0;
    Cancel(w.im, -1.0 / x, x);
  }

  /** A lossless line without shunt admittance, of reactance x, adds +j/x to
      the two entries joining its ends and -j/x to the diagonal entry of each end. */
  lemma LosslessContribution(l: Line, n: nat, i: nat, j: nat)
    requires ValidLine(l, n) && l.impedance.re == 0.0 && l.shunt == Zero
    requires SourceSlot(l, n) != DestinationSlot(l, n)
    ensures var s, d, x := SourceSlot(l, n), DestinationSlot(l, n), l.impedance.im;
      Contribution(l, n, i, j) ==
        if (i == s && j == d) || (i == d && j == s) then Complex(0.0, 1.0 / x)
        else if i == j && (i == s || i == d) then Complex(0.0, -1.0 / x)
        else Zero
  {
    PureReactanceInverse(l.impedance.im);
    assert l.impedance == Complex(0.0, l.impedance.im);
  }

  /** Three buses joined pairwise by lossless lines without shunts, of
      reactances `x12`, `x13` and `x23`. */
  function LosslessTriangle(x12: real, x13: real, x23: real): seq<LineRow> {
    [LineRow(1, 2, 0.0, x12, 0.0, 0.0), LineRow(1, 3, 0.0, x13, 0.0, 0.0), LineRow(2, 3, 0.0, x23, 0.0, 0.0)]
  }

  /** The matrix of such a triangle, from the line admittances a, b, c (= 1/x). */
  function TriangleMatrix(a: real, b: real, c: real): seq<seq<Complex>> {
    [[Complex(0.0, -(a + b)), Complex(0.0, a), Complex(0.0, b)],
     [Complex(0.0, a), Complex(0.0, -(a + c)), Complex(0.0, c)],
     [Complex(0.0, b), Complex(0.0, c), Complex(0.0, -(b + c))]]
  }

  lemma LosslessTriangleEntry(x12: real, x13: real, x23: real, i: nat, j: nat)
    requires x12 != 0.0 && x13 != 0.0 && x23 != 0.0 && i < 3 && j < 3
    ensures ValidLines(ToLines(LosslessTriangle(x12, x13, x23)), 3)
    ensures LineSum(ToLines(LosslessTriangle(x12, x13, x23)), 3, i, j) ==
      TriangleMatrix(1.0 / x12, 1.0 / x13, 1.0 / x23)[i][j]
  {
    var rows := LosslessTriangle(x12, x13, x23);
    var ls := ToLines(rows);
    assert ls == [ToLine(rows[0]), ToLine(rows[1]), ToLine(rows[2])];
    assert ls[1..][0] == ls[1] && ls[1..][1..][0] == ls[2] && ls[1..][1..][1..] == [];
    LosslessContribution(ls[0], 3, i, j);
    LosslessContribution(ls[1], 3, i, j);
    LosslessContribution(ls[2], 3, i, j);
    assert LineSum(ls[1..][1..], 3, i, j) == Contribution(ls[2], 3, i, j);
  }

  /** The whole matrix of the triangle. */
  lemma LosslessTriangleMatrix(x12: real, x13: real, x23: real)
    requires x12 != 0.0 && x13 != 0.0 && x23 != 0.0
    ensures ReadAdmittanceMatrix(LosslessTriangle(x12, x13, x23), 3) ==
      Success(TriangleMatrix(1.0 / x12, 1.0 / x13, 1.0 / x23))
  {
    LosslessTriangleEntry(x12, x13, x23, 0, 0);
    var y := ReadAdmittanceMatrix(LosslessTriangle(x12, x13, x23), 3).value;
    var t := TriangleMatrix(1.0 / x12, 1.0 / x13, 1.0 / x23);
    forall i | 0 <= i < 3 ensures y[i] == t[i] {
      forall j | 0 <= j < 3 ensures y[i][j] == t[i][j] {
        LosslessTriangleEntry(x12, x13, x23, i, j);
      }
    }
    assert y == t;
  }

  /** The three-bus example of the unit tests has reactances 0.1, 0.2 and
      0.25; with LosslessTriangleMatrix its matrix is exactly the one the test
      expects. */
  lemma ThreeBusExample()
    ensures TriangleMatrix(1.0 / 0.1, 1.0 / 0.2, 1.0 / 0.25) ==
      [[Complex(0.0, -15.0), Complex(0.0, 10.0), Complex(0.0, 5.0)],
       [Complex(0.0, 10.0), Complex(0.0, -14.0), Complex(0.0, 4.0)],
       [Complex(0.0, 5.0), Complex(0.0, 4.0), Complex(0.0, -9.0)]]
  {
  }

  // ------------------------------------------------------- one iteration's bookkeeping

  /** The positions among the first `i` buses of those that are not the slack
      bus, in list order. */
  function NonSlackUpTo(buses: seq<LegacyBus>, slack: int, i: nat): (ps: seq<nat>)
    requires i <= |buses|
    ensures |ps| <= i
    ensures forall c :: 0 <= c < |ps| ==> ps[c] < i && buses[ps[c]].number != slack
  {
    if i == 0 then []
    else NonSlackUpTo(buses, slack, i - 1) + (if buses[i - 1].number != slack then [i - 1] else [])
  }

  predicate InListOrder(ps: seq<nat>) {
    forall c, d :: 0 <= c < d < |ps| ==> ps[c] < ps[d]
  }

  /** The positions come in list order. */
  lemma {:induction false} NonSlackUpToIncreasing(buses: seq<LegacyBus>, slack: int, i: nat)
    requires i <= |buses|
    ensures InListOrder(NonSlackUpTo(buses, slack, i))
  {
    if i > 0 {
      NonSlackUpToIncreasing(buses, slack, i - 1);
      var prev := NonSlackUpTo(buses, slack, i - 1);
      var ps := NonSlackUpTo(buses, slack, i);
      if buses[i - 1].number != slack {
        assert ps == prev + [i - 1];
        forall c, d | 0 <= c < d < |ps| ensures ps[c] < ps[d] {
          if d == |prev| {
            assert prev[c] < i - 1;
          } else {
            assert ps[c] == prev[c] && ps[d] == prev[d];
          }
        }
      }
    }
  }

  /** No bus other than the slack bus is missed. */
  lemma {:induction false} NonSlackUpToCovers(buses: seq<LegacyBus>, slack: int, i: nat)
    requires i <= |buses|
    ensures forall p :: 0 <= p < i && buses[p].number != slack ==> p in NonSlackUpTo(buses, slack, i)
  {
    if i > 0 {
      NonSlackUpToCovers(buses, slack, i - 1);
      var prev := NonSlackUpTo(buses, slack, i - 1);
      var ps := NonSlackUpTo(buses, slack, i);
      forall p | 0 <= p < i && buses[p].number != slack ensures p in ps {
        if p == i - 1 {
          assert ps[|ps| - 1] == p;
        } else {
          assert p in prev;
          assert prev <= ps;
        }
      }
    }
  }

  /** In list order, and no bus other than the slack bus is missed. */
  lemma NonSlackUpToComplete(buses: seq<LegacyBus>, slack: int, i: nat)
    requires i <= |buses|
    ensures InListOrder(NonSlackUpTo(buses, slack, i))
    ensures forall p :: 0 <= p < i && buses[p].number != slack ==> p in NonSlackUpTo(buses, slack, i)
  {
    NonSlackUpToIncreasing(buses, slack, i);
    NonSlackUpToCovers(buses, slack, i);
  }

  function NonSlack(buses: seq<LegacyBus>, slack: int): (ps: seq<nat>)
    ensures ps == NonSlackUpTo(buses, slack, |buses|)
  {
    NonSlackUpTo(buses, slack, |buses|)
  }

  /** The error terms `calculated - specified` of the first `i` pairs of the zip
      of calculated powers with buses, the slack bus left out: term c belongs
      to the c-th of those buses other than the slack bus. */
  function ErrorsUpTo(sCalc: seq<Complex>, buses: seq<LegacyBus>, slack: int, i: nat): (es: seq<Complex>)
    requires i <= |sCalc| && i <= |buses|
    ensures var ps := NonSlackUpTo(buses, slack, i);
      |es| == |ps| && forall c :: 0 <= c < |es| ==> es[c] == Sub(sCalc[ps[c]], buses[ps[c]].power)
  {
    if i == 0 then []
    else ErrorsUpTo(sCalc, buses, slack, i - 1)
         + (if buses[i - 1].number != slack then [Sub(sCalc[i - 1], buses[i - 1].power)] else [])
  }

  /** The error list of an iteration; `zip` stops at the shorter list. With
      one calculated power per bus, error term c belongs to the c-th bus other
      than the slack bus, in list order: the same bus correction c is later
      applied to. */
  function ErrorList(sCalc: seq<Complex>, buses: seq<LegacyBus>, slack: int): (es: seq<Complex>)
    ensures |es| <= |sCalc| && |es| <= |buses|
    ensures |sCalc| == |buses| ==> var ps := NonSlack(buses, slack);
      |es| == |ps| && forall c :: 0 <= c < |es| ==> es[c] == Sub(sCalc[ps[c]], buses[ps[c]].power)
  {
    var m := if |sCalc| < |buses| then |sCalc| else |buses|;
    ErrorsUpTo(sCalc, buses, slack, m)
  }

  /** The loop of the convergence test: false at the first error whose real
      part reaches the active limit or whose imaginary part reaches the
      reactive limit. The comparison is signed. */
  function IsConvergent(errors: seq<Complex>, settings: Settings): (ok: bool)
    ensures ok <==> forall c :: 0 <= c < |errors| ==>
      errors[c].re < settings.maxActiveMismatch && errors[c].im < settings.maxReactiveMismatch
  {
    if |errors| == 0 then true
    else if errors[0].re >= settings.maxActiveMismatch || errors[0].im >= settings.maxReactiveMismatch then false
    else IsConvergent(errors[1..], settings)
  }

  /** A bus whose calculated power falls far below its specified power passes
      the signed test. */
  lemma SignedTestAcceptsLargeDeficit()
    ensures IsConvergent([Complex(-100.0, -100.0)], Settings(1, Polar(1.0, 0.0), 100.0, 0.001, 0.001))
  {
  }

  /** The test the module description states: every error's magnitude, in
      each of its parts, below its limit. */
  function IsConvergentByMagnitude(errors: seq<Complex>, settings: Settings): (ok: bool)
    ensures ok <==> forall c :: 0 <= c < |errors| ==>
      Abs(errors[c].re) < settings.maxActiveMismatch && Abs(errors[c].im) < settings.maxReactiveMismatch
  {
    if |errors| == 0 then true
    else if Abs(errors[0].re) >= settings.maxActiveMismatch || Abs(errors[0].im) >= settings.maxReactiveMismatch then false
    else IsConvergentByMagnitude(errors[1..], settings)
  }

  /** The magnitude test implies the signed one, and rejects the large deficit
      the signed test accepts. */
  lemma MagnitudeTestIsStricter(errors: seq<Complex>, settings: Settings)
    ensures IsConvergentByMagnitude(errors, settings) ==> IsConvergent(errors, settings)
    ensures !IsConvergentByMagnitude([Complex(-100.0, -100.0)], Settings(1, Polar(1.0, 0.0), 100.0, 0.001, 0.001))
  {
  }

  /** The new voltage of a corrected bus. */
  function Corrected(b: LegacyBus, dAngle: real, dMag: real): (r: LegacyBus)
    ensures r.number == b.number && r.power == b.power
    ensures r.voltage.mag - b.voltage.mag == dMag && r.voltage.angle - b.voltage.angle == dAngle
  {
    b.(voltage := Polar(b.voltage.mag + dMag, b.voltage.angle + dAngle))
  }

  /** The loop over the first `i` buses, skipping the slack bus and counting
      the others; the count-th bus reads entry `count` of each half. */
  function CorrectUpTo(buses: seq<LegacyBus>, slack: int, angles: seq<real>, mags: seq<real>, i: nat): (r: Result<seq<LegacyBus>, LegacyError>)
    requires i <= |buses| && |angles| <= |mags|
    ensures r.Failure? <==> |NonSlackUpTo(buses, slack, i)| > |angles|
    ensures r.Failure? ==> r.error == IndexOutOfRange
    ensures r.Success? ==> |r.value| == |buses|
    ensures r.Success? ==> forall p :: i <= p < |buses| ==> r.value[p] == buses[p]
  {
    if i == 0 then Success(buses)
    else
      match CorrectUpTo(buses, slack, angles, mags, i - 1)
      case Failure(e) => Failure(e)
      case Success(done) =>
        var b := done[i - 1];
        if b.number == slack then Success(done)
        else
          var count := |NonSlackUpTo(buses, slack, i - 1)|;
          if count >= |mags| || count >= |angles| then Failure(IndexOutOfRange)
          else Success(done[i - 1 := Corrected(b, angles[count], mags[count])])
  }

  /** The loop leaves the slack bus alone. */
  lemma {:induction false} CorrectUpToSkipsSlack(buses: seq<LegacyBus>, slack: int, angles: seq<real>, mags: seq<real>, i: nat, p: nat)
    requires i <= |buses| && |angles| <= |mags| && p < |buses| && buses[p].number == slack
    requires CorrectUpTo(buses, slack, angles, mags, i).Success?
    ensures CorrectUpTo(buses, slack, angles, mags, i).value[p] == buses[p]
  {
    if i > 0 {
      CorrectUpToSkipsSlack(buses, slack, angles, mags, i - 1, p);
    }
  }

  /** The c-th bus other than the slack bus gets entry c of each half. */
  lemma {:induction false} CorrectUpToCorrects(buses: seq<LegacyBus>, slack: int, angles: seq<real>, mags: seq<real>, i: nat, c: nat)
    requires i <= |buses| && |angles| <= |mags|
    requires CorrectUpTo(buses, slack, angles, mags, i).Success?
    requires c < |NonSlackUpTo(buses, slack, i)|
    ensures var p := NonSlackUpTo(buses, slack, i)[c];
      CorrectUpTo(buses, slack, angles, mags, i).value[p] == Corrected(buses[p], angles[c], mags[c])
  {
    var prev, ps := NonSlackUpTo(buses, slack, i - 1), NonSlackUpTo(buses, slack, i);
    var done := CorrectUpTo(buses, slack, angles, mags, i - 1).value;
    var r := CorrectUpTo(buses, slack, angles, mags, i).value;
    assert done[i - 1] == buses[i - 1];
    if c < |prev| {
      assert ps[c] == prev[c] < i - 1;
      CorrectUpToCorrects(buses, slack, angles, mags, i - 1, c);
    } else {
      assert buses[i - 1].number != slack && ps == prev + [i - 1] && c == |prev|;
      assert r == done[i - 1 := Corrected(buses[i - 1], angles[c], mags[c])];
    }
  }

  lemma CorrectionsLanded(buses: seq<LegacyBus>, slack: int, angles: seq<real>, mags: seq<real>)
    requires |angles| <= |mags| && CorrectUpTo(buses, slack, angles, mags, |buses|).Success?
    ensures var r := CorrectUpTo(buses, slack, angles, mags, |buses|).value;
      forall p :: 0 <= p < |buses| && buses[p].number == slack ==> r[p] == buses[p]
    ensures var r, ps := CorrectUpTo(buses, slack, angles, mags, |buses|).value, NonSlack(buses, slack);
      forall c :: 0 <= c < |ps| ==> r[ps[c]] == Corrected(buses[ps[c]], angles[c], mags[c])
  {
    forall p | 0 <= p < |buses| && buses[p].number == slack {
      CorrectUpToSkipsSlack(buses, slack, angles, mags, |buses|, p);
    }
    forall c | 0 <= c < |NonSlack(buses, slack)| {
      CorrectUpToCorrects(buses, slack, angles, mags, |buses|, c);
    }
  }

  /** Splits the corrections at `len // 2` into angle and magnitude halves and
      applies them to the buses other than the slack bus, in list order. */
  function ApplyCorrections(buses: seq<LegacyBus>, slack: int, c: seq<real>): (r: Result<seq<LegacyBus>, LegacyError>)
    ensures r.Failure? <==> |NonSlack(buses, slack)| > |c| / 2
    ensures r.Failure? ==> r.error == IndexOutOfRange
    ensures r.Success? ==> |r.value| == |buses|
    ensures r.Success? ==> forall p :: 0 <= p < |buses| && buses[p].number == slack ==> r.value[p] == buses[p]
    ensures r.Success? ==> var ps := NonSlack(buses, slack);
      forall k :: 0 <= k < |ps| ==> r.value[ps[k]] == Corrected(buses[ps[k]], c[k], c[|c| / 2 + k])
  {
    var half := |c| / 2;
    var r := CorrectUpTo(buses, slack, c[..half], c[half..], |buses|);
    if r.Success? then
      CorrectionsLanded(buses, slack, c[..half], c[half..]);
      r
    else r
  }

  /** A zero correction vector long enough for every bus changes nothing. */
  lemma ZeroCorrectionsChangeNothing(buses: seq<LegacyBus>, slack: int, c: seq<real>)
    requires |NonSlack(buses, slack)| <= |c| / 2
    requires forall k :: 0 <= k < |c| ==> c[k] == 0.0
    ensures ApplyCorrections(buses, slack, c) == Success(buses)
  {
    var r := ApplyCorrections(buses, slack, c).value;
    var ps := NonSlack(buses, slack);
    NonSlackUpToComplete(buses, slack, |buses|);
    forall p | 0 <= p < |buses| ensures r[p] == buses[p] {
      if buses[p].number != slack {
        var k :| 0 <= k < |ps| && ps[k] == p;
        assert r[p] == Corrected(buses[p], c[k], c[|c| / 2 + k]);
      }
    }
    assert r == buses;
  }
}
