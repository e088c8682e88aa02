/** Real vectors as sequences: the elementwise operations, sums and means
    that the loss estimators and the reverse-time drift are built from. */
module Vectors {

  /** Sum of the entries (jnp.sum over one axis). */
  function Sum(v: seq<real>): real
  {
    if |v| == 0 then 0.0 else v[0] + Sum(v[1..])
  }

  /** Arithmetic mean (jnp.mean over one axis); the mean of nothing is not defined. */
  function Mean(v: seq<real>): real
    requires |v| > 0
  {
    Sum(v) / (|v| as real)
  }

  /** The vector of n zeros (jnp.zeros_like). */
  function Zeros(n: nat): (r: seq<real>)
    ensures |r| == n && forall i :: 0 <= i < n ==> r[i] == 0.0
  {
    seq(n, i => 0.0)
  }

  /** The vector of n copies of c. */
  function Constant(n: nat, c: real): (r: seq<real>)
    ensures |r| == n && forall i :: 0 <= i < n ==> r[i] == c
  {
    seq(n, i => c)
  }

  function Scale(c: real, v: seq<real>): (r: seq<real>)
    ensures |r| == |v| && forall i :: 0 <= i < |v| ==> r[i] == c * v[i]
  {
    seq(|v|, i requires 0 <= i < |v| => c * v[i])
  }

  function Add(a: seq<real>, b: seq<real>): (r: seq<real>)
    requires |a| == |b|
    ensures |r| == |a| && forall i :: 0 <= i < |a| ==> r[i] == a[i] + b[i]
  {
    seq(|a|, i requires 0 <= i < |a| => a[i] + b[i])
  }

  function Sub(a: seq<real>, b: seq<real>): (r: seq<real>)
    requires |a| == |b|
    ensures |r| == |a| && forall i :: 0 <= i < |a| ==> r[i] == a[i] - b[i]
  {
    seq(|a|, i requires 0 <= i < |a| => a[i] - b[i])
  }

  /** Elementwise square (jnp.square). */
  function Squares(v: seq<real>): (r: seq<real>)
    ensures |r| == |v| && forall i :: 0 <= i < |v| ==> r[i] == v[i] * v[i]
  {
    seq(|v|, i requires 0 <= i < |v| => v[i] * v[i])
  }

  /** Elementwise product. */
  function Mul(a: seq<real>, b: seq<real>): (r: seq<real>)
    requires |a| == |b|
    ensures |r| == |a| && forall i :: 0 <= i < |a| ==> r[i] == a[i] * b[i]
  {
    seq(|a|, i requires 0 <= i < |a| => a[i] * b[i])
  }

  function Dot(a: seq<real>, b: seq<real>): real
    requires |a| == |b|
  {
    Sum(Mul(a, b))
  }

  lemma {:induction false} SumAppend(a: seq<real>, b: seq<real>)
    ensures Sum(a + b) == Sum(a) + Sum(b)
  {
    if |a| == 0 {
      assert a + b == b;
    } else {
      assert (a + b)[1..] == a[1..] + b;
      SumAppend(a[1..], b);
    }
  }

  /** A factor common to every entry comes out of the sum. */
  lemma {:induction false} SumScale(c: real, v: seq<real>)
    ensures Sum(Scale(c, v)) == c * Sum(v)
  {
    if |v| > 0 {
      forall i | 0 <= i < |v| - 1 ensures Scale(c, v)[1..][i] == Scale(c, v[1..])[i] {
        assert v[1..][i] == v[i + 1];
      }
      assert Scale(c, v)[1..] == Scale(c, v[1..]);
      SumScale(c, v[1..]);
    }
  }

  lemma {:induction false} SumAdd(a: seq<real>, b: seq<real>)
    requires |a| == |b|
    ensures Sum(Add(a, b)) == Sum(a) + Sum(b)
  {
    if |a| > 0 {
      assert Add(a, b)[1..] == Add(a[1..], b[1..]);
      SumAdd(a[1..], b[1..]);
    }
  }

  lemma {:induction false} SumNonNegative(v: seq<real>)
    requires forall i :: 0 <= i < |v| ==> v[i] >= 0.0
    ensures Sum(v) >= 0.0
  {
    if |v| > 0 {
      SumNonNegative(v[1..]);
    }
  }

  lemma {:induction false} SumConstant(n: nat, c: real)
    ensures Sum(Constant(n, c)) == (n as real) * c
  {
    if n > 0 {
      assert Constant(n, c)[1..] == Constant(n - 1, c);
      SumConstant(n - 1, c);
    }
  }

  /** Sums agree on vectors that agree entry by entry. */
  lemma SumExt(a: seq<real>, b: seq<real>)
    requires |a| == |b| && forall i :: 0 <= i < |a| ==> a[i] == b[i]
    ensures Sum(a) == Sum(b)
  {
    assert a == b;
  }

  lemma MeanScale(c: real, v: seq<real>)
    requires |v| > 0
    ensures Mean(Scale(c, v)) == c * Mean(v)
  {
    SumScale(c, v);
  }

  lemma MeanAdd(a: seq<real>, b: seq<real>)
    requires |a| == |b| > 0
    ensures Mean(Add(a, b)) == Mean(a) + Mean(b)
  {
    SumAdd(a, b);
    DivAdd(Sum(a), Sum(b), |a| as real);
  }

  lemma DivAdd(x: real, y: real, n: real)
    requires n != 0.0
    ensures (x + y) / n == x / n + y / n
  {
  }

  lemma MeanNonNegative(v: seq<real>)
    requires |v| > 0
    requires forall i :: 0 <= i < |v| ==> v[i] >= 0.0
    ensures Mean(v) >= 0.0
  {
    SumNonNegative(v);
  }

  /** The mean of a constant vector is that constant. */
  lemma MeanConstant(n: nat, c: real)
    requires n > 0
    ensures Mean(Constant(n, c)) == c
  {
    SumConstant(n, c);
  }

  /** Appending an identical copy of a vector leaves its mean unchanged. */
  lemma MeanDoubled(v: seq<real>)
    requires |v| > 0
    ensures Mean(v + v) == Mean(v)
  {
    SumAppend(v, v);
    var n := |v| as real;
    calc {
      Mean(v + v);
      (Sum(v) + Sum(v)) / (2.0 * n);
      Sum(v) / n;
    }
  }
}
