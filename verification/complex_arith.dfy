/** Complex numbers as pairs of reals, with the handful of operations the
    admittance matrix and the power-flow equations need. */
module ComplexArith {

  datatype Complex = Complex(re: real, im: real)

  const Zero: Complex := Complex(0.0, 0.0)
  const One: Complex := Complex(1.0, 0.0)

  function Add(a: Complex, b: Complex): Complex {
    Complex(a.re + b.re, a.im + b.im)
  }

  function Neg(a: Complex): Complex {
    Complex(-a.re, -a.im)
  }

  function Sub(a: Complex, b: Complex): Complex {
    Complex(a.re - b.re, a.im - b.im)
  }

  function Mul(a: Complex, b: Complex): Complex {
    Complex(a.re * b.re - a.im * b.im, a.re * b.im + a.im * b.re)
  }

  /** The absolute value of a real, numpy.abs on a float. */
  function Abs(x: real): real {
    if x < 0.0 then -x else x
  }

  /** Multiplication by a real scalar. */
  function Scale(k: real, a: Complex): Complex {
    Complex(k * a.re, k * a.im)
  }

  /** Complex conjugate. */
  function Conj(z: Complex): Complex {
    Complex(z.re, -z.im)
  }

  /** The squared modulus |z|^2, the real part of z * conj(z). */
  function Modulus2(z: Complex): real {
    Mul(z, Conj(z)).re
  }

  lemma ProductOfPositives(x: real, y: real)
    requires x > 0.0 && y > 0.0
    ensures x * y > 0.0
  {
  }

  lemma ProductOfNegatives(x: real, y: real)
    requires x < 0.0 && y < 0.0
    ensures x * y > 0.0
  {
  }

  lemma Modulus2Positive(z: Complex)
    requires z != Zero
    ensures Modulus2(z) > 0.0
  {
    var a, b := z.re, z.im;
    assert Modulus2(z) == a * a - b * (-b);
    if a > 0.0 { ProductOfPositives(a, a); } else if a < 0.0 { ProductOfNegatives(a, a); }
    if b > 0.0 { ProductOfPositives(b, b); } else if b < 0.0 { ProductOfNegatives(b, b); }
  }

  lemma Cancel(s: real, t: real, d: real)
    requires d != 0.0 && s * d == t * d
    ensures s == t
  {
    assert (s - t) * d == 0.0;
  }

  /** The reciprocal 1/z = conj(z) / |z|^2; Python raises ZeroDivisionError
      for z == 0, which callers rule out. */
  function Inv(z: Complex): Complex
    requires z != Zero
  {
    Modulus2Positive(z);
    Complex(z.re / Modulus2(z), -z.im / Modulus2(z))
  }

  lemma ReciprocalFacts(a: real, b: real, d: real)
    requires d > 0.0 && d == a * a - b * (-b)
    ensures a * (a / d) - b * (-b / d) == 1.0
    ensures a * (-b / d) + b * (a / d) == 0.0
  {
    var p, q := a / d, b / d;
    assert p * d == a && q * d == b;
    var s := a * p + b * q;
    assert s * d == a * (p * d) + b * (q * d);
    assert a * (p * d) == a * a;
    assert b * (q * d) == b * b;
    assert s * d == a * a + b * b;
    assert s * d == d;
    assert 1.0 * d == d;
    Cancel(s, 1.0, d);
    assert b * (-q) == -(b * q);
    assert (a * q) * d == a * (q * d) == a * b;
    assert (b * p) * d == b * (p * d) == a * b;
    Cancel(a * q, b * p, d);
    assert a * (-q) == -(a * q);
  }

  /** Inv really is the multiplicative inverse. */
  lemma InvIsReciprocal(z: Complex)
    requires z != Zero
    ensures Mul(z, Inv(z)) == One
  {
    Modulus2Positive(z);
    ReciprocalFacts(z.re, z.im, Modulus2(z));
  }

  /** Sum of a sequence, accumulated from the front. */
  function Sum(s: seq<Complex>): Complex
  {
    if |s| == 0 then Zero else Add(s[0], Sum(s[1..]))
  }

  lemma {:induction false} SumConcat(a: seq<Complex>, b: seq<Complex>)
    ensures Sum(a + b) == Add(Sum(a), Sum(b))
  {
    if |a| == 0 {
      assert a + b == b;
    } else {
      assert (a + b)[1..] == a[1..] + b;
      SumConcat(a[1..], b);
    }
  }

  /** Overwriting one element changes the sum by the difference. */
  lemma {:induction false} SumUpdate(s: seq<Complex>, k: nat, v: Complex)
    requires k < |s|
    ensures Sum(s[k := v]) == Add(Sub(Sum(s), s[k]), v)
  {
    if k == 0 {
      assert s[k := v][1..] == s[1..];
    } else {
      assert s[k := v][1..] == s[1..][k - 1 := v];
      SumUpdate(s[1..], k - 1, v);
    }
  }

  /** The all-zero sequence of length n. */
  function Zeros(n: nat): (z: seq<Complex>)
    ensures |z| == n && forall j :: 0 <= j < n ==> z[j] == Zero
  {
    seq(n, _ => Zero)
  }

  lemma {:induction false} SumOfZeros(n: nat)
    ensures Sum(Zeros(n)) == Zero
  {
    if n > 0 {
      assert Zeros(n)[1..] == Zeros(n - 1);
      SumOfZeros(n - 1);
    }
  }

  /** Sum distributes over a pointwise addition of two sequences. */
  lemma {:induction false} SumPointwise(a: seq<Complex>, b: seq<Complex>, c: seq<Complex>)
    requires |a| == |b| == |c|
    requires forall i :: 0 <= i < |c| ==> c[i] == Add(a[i], b[i])
    ensures Sum(c) == Add(Sum(a), Sum(b))
  {
    if |c| > 0 {
      SumPointwise(a[1..], b[1..], c[1..]);
    }
  }
}
