/** Dense matrices as sequences of rows, and the shape operations the two
    Jacobian builders use: block concatenation and row/column deletion. */
module Matrices {
  import opened Wrappers

  /** `m` has `rows` rows of `cols` entries each. */
  predicate IsMatrix<T>(m: seq<seq<T>>, rows: nat, cols: nat) {
    |m| == rows && forall i :: 0 <= i < rows ==> |m[i]| == cols
  }

  /** A `rows` x `cols` matrix holding `x` everywhere (numpy.zeros). */
  function Fill<T>(rows: nat, cols: nat, x: T): (m: seq<seq<T>>)
    ensures IsMatrix(m, rows, cols)
    ensures forall i, j :: 0 <= i < rows && 0 <= j < cols ==> m[i][j] == x
  {
    seq(rows, _ => seq(cols, _ => x))
  }

  /** The index in the original sequence of position `k` after index `gap` is deleted. */
  function Skip(k: nat, gap: nat): (r: nat)
    ensures r != gap
    ensures k < gap ==> r == k
    ensures gap <= k ==> r == k + 1
  {
    if k < gap then k else k + 1
  }

  /** numpy.delete on a sequence: removes the element at `gap`, keeping the others in order. */
  function DeleteAt<T>(s: seq<T>, gap: nat): (r: seq<T>)
    requires gap < |s|
    ensures |r| == |s| - 1
    ensures forall k :: 0 <= k < |r| ==> r[k] == s[Skip(k, gap)]
  {
    s[..gap] + s[gap + 1..]
  }

  /** Deletes row `gap` (axis 0) and then column `gap` (axis 1) of a square matrix. */
  function DeleteRowAndColumn<T>(m: seq<seq<T>>, n: nat, gap: nat): (r: seq<seq<T>>)
    requires IsMatrix(m, n, n) && gap < n
    ensures IsMatrix(r, n - 1, n - 1)
    ensures forall a, b :: 0 <= a < n - 1 && 0 <= b < n - 1 ==> r[a][b] == m[Skip(a, gap)][Skip(b, gap)]
  {
    var rows := DeleteAt(m, gap);
    seq(n - 1, a requires 0 <= a < n - 1 => DeleteAt(rows[a], gap))
  }

  /** The block matrix [[a, b], [c, d]]: `a` and `b` side by side (axis 1) above
      `c` and `d` side by side, the two halves stacked (axis 0). */
  function Block<T>(a: seq<seq<T>>, b: seq<seq<T>>, c: seq<seq<T>>, d: seq<seq<T>>,
                    p: nat, q: nat, s: nat, t: nat): (m: seq<seq<T>>)
    requires IsMatrix(a, p, s) && IsMatrix(b, p, t) && IsMatrix(c, q, s) && IsMatrix(d, q, t)
    ensures IsMatrix(m, p + q, s + t)
    ensures forall i, j :: 0 <= i < p && 0 <= j < s ==> m[i][j] == a[i][j]
    ensures forall i, j :: 0 <= i < p && 0 <= j < t ==> m[i][s + j] == b[i][j]
    ensures forall i, j :: 0 <= i < q && 0 <= j < s ==> m[p + i][j] == c[i][j]
    ensures forall i, j :: 0 <= i < q && 0 <= j < t ==> m[p + i][s + j] == d[i][j]
  {
    var top := seq(p, i requires 0 <= i < p => a[i] + b[i]);
    var bottom := seq(q, i requires 0 <= i < q => c[i] + d[i]);
    top + bottom
  }

  /** Entry (i, j) of a block matrix, read from the quadrant it falls in. */
  lemma BlockLookup<T>(a: seq<seq<T>>, b: seq<seq<T>>, c: seq<seq<T>>, d: seq<seq<T>>, p: nat, q: nat, s: nat, t: nat)
    requires IsMatrix(a, p, s) && IsMatrix(b, p, t) && IsMatrix(c, q, s) && IsMatrix(d, q, t)
    ensures forall i, j :: 0 <= i < p + q && 0 <= j < s + t ==>
      Block(a, b, c, d, p, q, s, t)[i][j] ==
        if i < p then (if j < s then a[i][j] else b[i][j - s])
        else (if j < s then c[i - p][j] else d[i - p][j - s])
  {
    var m := Block(a, b, c, d, p, q, s, t);
    forall i, j | 0 <= i < p + q && 0 <= j < s + t
      ensures m[i][j] == if i < p then (if j < s then a[i][j] else b[i][j - s])
                         else (if j < s then c[i - p][j] else d[i - p][j - s])
    {
      if i >= p && j >= s {
        assert m[p + (i - p)][s + (j - s)] == d[i - p][j - s];
      } else if i >= p {
        assert m[p + (i - p)][j] == c[i - p][j];
      } else if j >= s {
        assert m[i][s + (j - s)] == b[i][j - s];
      }
    }
  }

  /** Two matrices of the same shape with the same entries are equal. */
  lemma SameEntriesSame<T>(a: seq<seq<T>>, b: seq<seq<T>>, rows: nat, cols: nat)
    requires IsMatrix(a, rows, cols) && IsMatrix(b, rows, cols)
    requires forall i, j :: 0 <= i < rows && 0 <= j < cols ==> a[i][j] == b[i][j]
    ensures a == b
  {
    forall i | 0 <= i < rows ensures a[i] == b[i] {
      assert forall j :: 0 <= j < cols ==> a[i][j] == b[i][j];
    }
  }

  /** A linear solve `x = inv(J) * v`, standing for numpy.linalg.inv followed by
      numpy.matmul. `None` is numpy's LinAlgError for a singular matrix; the only
      fact known of a solution is that it has one entry per right-hand-side entry. */
  type LinearSolve = f: (seq<seq<real>>, seq<real>) -> Option<seq<real>>
    | forall m, v :: f(m, v).Some? ==> |f(m, v).value| == |v|
    witness (m: seq<seq<real>>, v: seq<real>) => None
}
