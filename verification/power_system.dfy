/** The power-system records (buses and lines) and the assembly of the bus
    admittance matrix from the line list. */
module PowerSystem {
  import opened ComplexArith
  import opened Phasor
  import opened Matrices

  /** A bus. `activeGenerated` is the field the record declares as
      `active_power_injected`; the solver reads it under a name the record
      does not declare (see `Solver.NewSolverReading`). */
  datatype Bus = Bus(number: int, activeConsumed: real, reactiveConsumed: real,
                     activeGenerated: real, voltage: Polar)

  /** A line between two buses, given by their numbers. */
  datatype Line = Line(source: int, destination: int, impedance: Complex,
                       shunt: Complex, maxPower: real)

  datatype System = System(buses: seq<Bus>, lines: seq<Line>)

  /** A bus number is used as the row index `number - 1`; numpy accepts
      indices in [-n, n), negative ones counting from the end. */
  predicate Indexable(number: int, n: nat) {
    -(n as int) <= number - 1 < n
  }

  function Slot(number: int, n: nat): (k: nat)
    requires Indexable(number, n)
    ensures k < n
    ensures 1 <= number ==> k == number - 1
    ensures number < 1 ==> k == number - 1 + n
  {
    if number - 1 < 0 then number - 1 + n else number - 1
  }

  /** What the assembly needs of a line: both ends index the matrix and the
      impedance can be inverted. */
  predicate ValidLine(l: Line, n: nat) {
    Indexable(l.source, n) && Indexable(l.destination, n) && l.impedance != Zero
  }

  predicate ValidLines(lines: seq<Line>, n: nat) {
    forall k :: 0 <= k < |lines| ==> ValidLine(lines[k], n)
  }

  function SourceSlot(l: Line, n: nat): nat
    requires ValidLine(l, n)
  {
    Slot(l.source, n)
  }

  function DestinationSlot(l: Line, n: nat): nat
    requires ValidLine(l, n)
  {
    Slot(l.destination, n)
  }

  /** The series admittance 1/z of a line. */
  function SeriesAdmittance(l: Line): Complex
    requires l.impedance != Zero
  {
    Inv(l.impedance)
  }

  /** `m[i][j] += v`, everything else unchanged. */
  function AddTo(m: seq<seq<Complex>>, n: nat, i: nat, j: nat, v: Complex): (r: seq<seq<Complex>>)
    requires IsMatrix(m, n, n) && i < n && j < n
    ensures IsMatrix(r, n, n)
    ensures forall a, b :: 0 <= a < n && 0 <= b < n ==>
      r[a][b] == (if a == i && b == j then Add(m[a][b], v) else m[a][b])
  {
    m[i := m[i][j := Add(m[i][j], v)]]
  }

  /** What one line adds to entry (i, j): -y once for each way (i, j) is the
      ordered pair (source, destination) or (destination, source), and y + shunt
      once for each end that sits at (i, i) on the diagonal. */
  function Contribution(l: Line, n: nat, i: nat, j: nat): Complex
    requires ValidLine(l, n)
  {
    var s, d := SourceSlot(l, n), DestinationSlot(l, n);
    var y := SeriesAdmittance(l);
    var series := Add(if i == s && j == d then Neg(y) else Zero, if i == d && j == s then Neg(y) else Zero);
    var diagonal := Add(if i == s && j == s then Add(y, l.shunt) else Zero,
                        if i == d && j == d then Add(y, l.shunt) else Zero);
    Add(series, diagonal)
  }

  /** The four in-place updates one line makes, in the order the loop body
      makes them. */
  function StampLine(m: seq<seq<Complex>>, n: nat, l: Line): (r: seq<seq<Complex>>)
    requires IsMatrix(m, n, n) && ValidLine(l, n)
    ensures IsMatrix(r, n, n)
    ensures forall i, j :: 0 <= i < n && 0 <= j < n ==> r[i][j] == Add(m[i][j], Contribution(l, n, i, j))
  {
    var s, d := SourceSlot(l, n), DestinationSlot(l, n);
    var y := SeriesAdmittance(l);
    var m1 := AddTo(m, n, s, d, Neg(y));
    var m2 := AddTo(m1, n, d, s, Neg(y));
    var m3 := AddTo(m2, n, s, s, Add(y, l.shunt));
    AddTo(m3, n, d, d, Add(y, l.shunt))
  }

  /** The total every line of `lines` adds to entry (i, j). */
  function LineSum(lines: seq<Line>, n: nat, i: nat, j: nat): Complex
    requires ValidLines(lines, n)
  {
    if |lines| == 0 then Zero else Add(Contribution(lines[0], n, i, j), LineSum(lines[1..], n, i, j))
  }

  /** The loop over the lines, first line first. */
  function Assemble(m: seq<seq<Complex>>, n: nat, lines: seq<Line>): (r: seq<seq<Complex>>)
    requires IsMatrix(m, n, n) && ValidLines(lines, n)
    ensures IsMatrix(r, n, n)
    ensures forall i, j :: 0 <= i < n && 0 <= j < n ==> r[i][j] == Add(m[i][j], LineSum(lines, n, i, j))
    decreases |lines|
  {
    if |lines| == 0 then m else Assemble(StampLine(m, n, lines[0]), n, lines[1..])
  }

  /** The bus admittance matrix: n x n with n the number of buses, starting from
      all zeros, every entry the sum of the lines' contributions. */
  function AdmittanceMatrix(sys: System): (y: seq<seq<Complex>>)
    requires ValidLines(sys.lines, |sys.buses|)
    ensures IsMatrix(y, |sys.buses|, |sys.buses|)
    ensures forall i, j :: 0 <= i < |sys.buses| && 0 <= j < |sys.buses| ==>
      y[i][j] == LineSum(sys.lines, |sys.buses|, i, j)
    ensures |sys.lines| == 0 ==> y == Fill(|sys.buses|, |sys.buses|, Zero)
  {
    var n := |sys.buses|;
    Assemble(Fill(n, n, Zero), n, sys.lines)
  }

  predicate Symmetric(y: seq<seq<Complex>>, n: nat)
    requires IsMatrix(y, n, n)
  {
    forall i, j :: 0 <= i < n && 0 <= j < n ==> y[i][j] == y[j][i]
  }

  lemma {:induction false} LineSumSymmetric(lines: seq<Line>, n: nat, i: nat, j: nat)
    requires ValidLines(lines, n)
    ensures LineSum(lines, n, i, j) == LineSum(lines, n, j, i)
    decreases |lines|
  {
    if |lines| > 0 {
      LineSumSymmetric(lines[1..], n, i, j);
    }
  }

  /** The admittance matrix is symmetric for any list of lines. */
  lemma AdmittanceSymmetric(sys: System)
    requires ValidLines(sys.lines, |sys.buses|)
    ensures Symmetric(AdmittanceMatrix(sys), |sys.buses|)
  {
    var n := |sys.buses|;
    forall i, j | 0 <= i < n && 0 <= j < n
      ensures AdmittanceMatrix(sys)[i][j] == AdmittanceMatrix(sys)[j][i]
    {
      LineSumSymmetric(sys.lines, n, i, j);
    }
  }

  /** Line `l` joins the (distinct or equal) matrix slots `i` and `j`. */
  predicate Joins(l: Line, n: nat, i: nat, j: nat)
    requires ValidLine(l, n)
  {
    (SourceSlot(l, n) == i && DestinationSlot(l, n) == j) || (SourceSlot(l, n) == j && DestinationSlot(l, n) == i)
  }

  lemma {:induction false} LineSumUnjoined(lines: seq<Line>, n: nat, i: nat, j: nat)
    requires ValidLines(lines, n) && i != j
    requires forall k :: 0 <= k < |lines| ==> !Joins(lines[k], n, i, j)
    ensures LineSum(lines, n, i, j) == Zero
    decreases |lines|
  {
    if |lines| > 0 {
      LineSumUnjoined(lines[1..], n, i, j);
    }
  }

  /** An off-diagonal entry for a pair of buses no line joins is zero. */
  lemma AdmittanceUnjoinedZero(sys: System, i: nat, j: nat)
    requires ValidLines(sys.lines, |sys.buses|)
    requires i < |sys.buses| && j < |sys.buses| && i != j
    requires forall k :: 0 <= k < |sys.lines| ==> !Joins(sys.lines[k], |sys.buses|, i, j)
    ensures AdmittanceMatrix(sys)[i][j] == Zero
  {
    LineSumUnjoined(sys.lines, |sys.buses|, i, j);
  }

  lemma {:induction false} LineSumConcat(a: seq<Line>, b: seq<Line>, n: nat, i: nat, j: nat)
    requires ValidLines(a, n) && ValidLines(b, n)
    ensures ValidLines(a + b, n)
    ensures LineSum(a + b, n, i, j) == Add(LineSum(a, n, i, j), LineSum(b, n, i, j))
    decreases |a|
  {
    if |a| > 0 {
      assert (a + b)[1..] == a[1..] + b;
      LineSumConcat(a[1..], b, n, i, j);
    } else {
      assert a + b == b;
    }
  }

  lemma LineSumRemove(b: seq<Line>, k: nat, n: nat, i: nat, j: nat)
    requires ValidLines(b, n) && k < |b|
    ensures ValidLines(b[..k] + b[k + 1..], n)
    ensures LineSum(b, n, i, j) == Add(Contribution(b[k], n, i, j), LineSum(b[..k] + b[k + 1..], n, i, j))
  {
    assert b == b[..k] + ([b[k]] + b[k + 1..]);
    LineSumConcat([b[k]], b[k + 1..], n, i, j);
    LineSumConcat(b[..k], [b[k]] + b[k + 1..], n, i, j);
    LineSumConcat(b[..k], b[k + 1..], n, i, j);
  }

  /** Removing entry k of a sequence removes one occurrence from its multiset. */
  lemma MultisetRemove(b: seq<Line>, k: nat)
    requires k < |b|
    ensures multiset(b[..k] + b[k + 1..]) == multiset(b) - multiset{b[k]}
  {
    assert b == b[..k] + [b[k]] + b[k + 1..];
  }

  /** Dropping the first entry removes one occurrence of it. */
  lemma DropFirst(a: seq<Line>)
    requires 0 < |a|
    ensures multiset(a[1..]) == multiset(a) - multiset{a[0]}
  {
    assert a == [a[0]] + a[1..];
  }

  /** A reordering of valid lines is valid. */
  lemma PermutedValid(a: seq<Line>, b: seq<Line>, n: nat)
    requires ValidLines(a, n) && multiset(a) == multiset(b)
    ensures ValidLines(b, n)
  {
    forall k | 0 <= k < |b| ensures ValidLine(b[k], n) {
      assert b[k] in multiset(a);
    }
  }

  /** Removing the same line from two reorderings of each other leaves
      reorderings of each other. */
  lemma RemoveMatching(a: seq<Line>, b: seq<Line>, k: nat)
    requires multiset(a) == multiset(b) && 0 < |a| && k < |b| && b[k] == a[0]
    ensures multiset(a[1..]) == multiset(b[..k] + b[k + 1..])
  {
    DropFirst(a);
    MultisetRemove(b, k);
  }

  lemma {:induction false} LineSumPermutation(a: seq<Line>, b: seq<Line>, n: nat, i: nat, j: nat)
    requires ValidLines(a, n) && multiset(a) == multiset(b)
    ensures ValidLines(b, n)
    ensures LineSum(a, n, i, j) == LineSum(b, n, i, j)
    decreases |a|
  {
    PermutedValid(a, b, n);
    if |a| == 0 {
      assert |b| == |multiset(b)| == 0;
    } else {
      assert a[0] in multiset(b);
      var k :| 0 <= k < |b| && b[k] == a[0];
      RemoveMatching(a, b, k);
      LineSumPermutation(a[1..], b[..k] + b[k + 1..], n, i, j);
      LineSumRemove(b, k, n, i, j);
    }
  }

  /** Reordering the lines does not change the admittance matrix. */
  lemma AdmittanceOrderIndependent(sys: System, lines: seq<Line>)
    requires ValidLines(sys.lines, |sys.buses|)
    requires multiset(lines) == multiset(sys.lines)
    ensures ValidLines(lines, |sys.buses|)
    ensures AdmittanceMatrix(System(sys.buses, lines)) == AdmittanceMatrix(sys)
  {
    var n := |sys.buses|;
    PermutedValid(sys.lines, lines, n);
    var y, z := AdmittanceMatrix(System(sys.buses, lines)), AdmittanceMatrix(sys);
    forall i, j | 0 <= i < n && 0 <= j < n ensures y[i][j] == z[i][j] {
      LineSumPermutation(sys.lines, lines, n, i, j);
    }
    SameEntriesSame(y, z, n, n);
  }

  /** No line has both ends at the same slot. */
  predicate NoSelfLoops(lines: seq<Line>, n: nat)
    requires ValidLines(lines, n)
  {
    forall k :: 0 <= k < |lines| ==> SourceSlot(lines[k], n) != DestinationSlot(lines[k], n)
  }

  /** The total shunt admittance of the lines with an end at slot `i`. */
  function IncidentShunt(lines: seq<Line>, n: nat, i: nat): Complex
    requires ValidLines(lines, n)
  {
    if |lines| == 0 then Zero
    else
      var l := lines[0];
      Add(if SourceSlot(l, n) == i || DestinationSlot(l, n) == i then l.shunt else Zero,
          IncidentShunt(lines[1..], n, i))
  }

  function ContributionRow(l: Line, n: nat, i: nat): (row: seq<Complex>)
    requires ValidLine(l, n)
    ensures |row| == n && forall j :: 0 <= j < n ==> row[j] == Contribution(l, n, i, j)
  {
    seq(n, j requires 0 <= j => Contribution(l, n, i, j))
  }

  function LineSumRow(lines: seq<Line>, n: nat, i: nat): (row: seq<Complex>)
    requires ValidLines(lines, n)
    ensures |row| == n && forall j :: 0 <= j < n ==> row[j] == LineSum(lines, n, i, j)
  {
    seq(n, j requires 0 <= j => LineSum(lines, n, i, j))
  }

  /** Along the source's row, a line without a self-loop adds y + shunt on the
      diagonal and -y at the destination. */
  lemma ContributionAlongRow(l: Line, n: nat, i: nat, j: nat)
    requires ValidLine(l, n) && SourceSlot(l, n) != DestinationSlot(l, n)
    ensures Contribution(l, n, i, j) ==
      if (i == SourceSlot(l, n) || i == DestinationSlot(l, n)) && j == i then Add(SeriesAdmittance(l), l.shunt)
      else if Joins(l, n, i, j) then Neg(SeriesAdmittance(l))
      else Zero
  {
  }

  /** At an end of a line, its row is y + shunt on the diagonal, -y at the
      other end and zero elsewhere. */
  lemma EndpointRow(l: Line, n: nat, i: nat)
    requires ValidLine(l, n) && i < n && SourceSlot(l, n) != DestinationSlot(l, n)
    requires SourceSlot(l, n) == i || DestinationSlot(l, n) == i
    ensures var other := if i == SourceSlot(l, n) then DestinationSlot(l, n) else SourceSlot(l, n);
      ContributionRow(l, n, i) == Zeros(n)[i := Add(SeriesAdmittance(l), l.shunt)][other := Neg(SeriesAdmittance(l))]
  {
    var other := if i == SourceSlot(l, n) then DestinationSlot(l, n) else SourceSlot(l, n);
    var expected := Zeros(n)[i := Add(SeriesAdmittance(l), l.shunt)][other := Neg(SeriesAdmittance(l))];
    forall j | 0 <= j < n ensures ContributionRow(l, n, i)[j] == expected[j] {
      ContributionAlongRow(l, n, i, j);
    }
  }

  /** Away from both ends of a line, its row is all zeros. */
  lemma UnjoinedRow(l: Line, n: nat, i: nat)
    requires ValidLine(l, n) && i < n && SourceSlot(l, n) != DestinationSlot(l, n)
    requires SourceSlot(l, n) != i && DestinationSlot(l, n) != i
    ensures ContributionRow(l, n, i) == Zeros(n)
  {
    forall j | 0 <= j < n ensures ContributionRow(l, n, i)[j] == Zeros(n)[j] {
      ContributionAlongRow(l, n, i, j);
    }
  }

  /** The series terms y and -y cancel, leaving the shunt. */
  lemma SeriesCancels(y: Complex, shunt: Complex)
    ensures Add(Sub(Add(Sub(Zero, Zero), Add(y, shunt)), Zero), Neg(y)) == shunt
  {
  }

  /** A row of zeros with y + shunt at one index and -y at another sums to the shunt. */
  lemma TwoEntrySum(n: nat, i: nat, other: nat, y: Complex, shunt: Complex)
    requires i < n && other < n && i != other
    ensures Sum(Zeros(n)[i := Add(y, shunt)][other := Neg(y)]) == shunt
  {
    var z := Zeros(n);
    var z1 := z[i := Add(y, shunt)];
    SumOfZeros(n);
    SumUpdate(z, i, Add(y, shunt));
    assert z1[other] == Zero;
    SumUpdate(z1, other, Neg(y));
    SeriesCancels(y, shunt);
  }

  /** Row i of one line's contributions sums to its shunt when the line ends at i. */
  lemma ContributionRowSum(l: Line, n: nat, i: nat)
    requires ValidLine(l, n) && i < n && SourceSlot(l, n) != DestinationSlot(l, n)
    ensures Sum(ContributionRow(l, n, i)) ==
      (if SourceSlot(l, n) == i || DestinationSlot(l, n) == i then l.shunt else Zero)
  {
    var s, d := SourceSlot(l, n), DestinationSlot(l, n);
    if i == s || i == d {
      EndpointRow(l, n, i);
      TwoEntrySum(n, i, if i == s then d else s, SeriesAdmittance(l), l.shunt);
    } else {
      UnjoinedRow(l, n, i);
      SumOfZeros(n);
    }
  }

  /** Row i of the line sums is the pointwise sum of the first line's row and
      the rest's. */
  lemma LineSumRowSplit(lines: seq<Line>, n: nat, i: nat)
    requires ValidLines(lines, n) && |lines| > 0
    ensures var row, first, rest := LineSumRow(lines, n, i), ContributionRow(lines[0], n, i), LineSumRow(lines[1..], n, i);
      forall j :: 0 <= j < n ==> row[j] == Add(first[j], rest[j])
  {
  }

  /** The lines after the first are valid and free of self-loops too. */
  lemma TailLoopFree(lines: seq<Line>, n: nat)
    requires ValidLines(lines, n) && NoSelfLoops(lines, n) && |lines| > 0
    ensures ValidLines(lines[1..], n) && NoSelfLoops(lines[1..], n)
    ensures ValidLine(lines[0], n) && SourceSlot(lines[0], n) != DestinationSlot(lines[0], n)
  {
    assert forall k :: 0 <= k < |lines| - 1 ==> lines[1..][k] == lines[k + 1];
  }

  lemma {:induction false} LineSumRowSum(lines: seq<Line>, n: nat, i: nat)
    requires ValidLines(lines, n) && NoSelfLoops(lines, n) && i < n
    ensures Sum(LineSumRow(lines, n, i)) == IncidentShunt(lines, n, i)
    decreases |lines|
  {
    var row := LineSumRow(lines, n, i);
    if |lines| == 0 {
      SumOfZeros(n);
      assert row == Zeros(n);
    } else {
      var l := lines[0];
      TailLoopFree(lines, n);
      var first := ContributionRow(l, n, i);
      var rest := LineSumRow(lines[1..], n, i);
      LineSumRowSplit(lines, n, i);
      SumPointwise(first, rest, row);
      ContributionRowSum(l, n, i);
      LineSumRowSum(lines[1..], n, i);
      assert IncidentShunt(lines, n, i) ==
        Add(if SourceSlot(l, n) == i || DestinationSlot(l, n) == i then l.shunt else Zero, IncidentShunt(lines[1..], n, i));
    }
  }

  /** Without self-loops, row i sums to the total shunt admittance of the lines
      incident to bus slot i: the series terms cancel. */
  lemma AdmittanceRowSum(sys: System, i: nat)
    requires ValidLines(sys.lines, |sys.buses|) && NoSelfLoops(sys.lines, |sys.buses|)
    requires i < |sys.buses|
    ensures Sum(AdmittanceMatrix(sys)[i]) == IncidentShunt(sys.lines, |sys.buses|, i)
  {
    var n := |sys.buses|;
    assert AdmittanceMatrix(sys)[i] == LineSumRow(sys.lines, n, i);
    LineSumRowSum(sys.lines, n, i);
  }
}
