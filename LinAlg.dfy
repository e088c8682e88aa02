/** Real matrices as sequences of rows, and the contraction
    "...ij,...kj,...k->...i" that the reverse-time drift applies to a full
    diffusion matrix G and a score s, proved equal to both G·(Gᵀ·s) and
    (G·Gᵀ)·s. */
module LinAlg {
  import opened Vectors

  /** Every row of g has `cols` entries. */
  predicate IsMatrix(g: seq<seq<real>>, cols: nat)
  {
    forall i :: 0 <= i < |g| ==> |g[i]| == cols
  }

  /** Number of columns, read off the first row. */
  function Cols(g: seq<seq<real>>): nat
  {
    if |g| == 0 then 0 else |g[0]|
  }

  predicate Rectangular(g: seq<seq<real>>)
  {
    IsMatrix(g, Cols(g))
  }

  function Column(g: seq<seq<real>>, k: nat): (r: seq<real>)
    requires forall i :: 0 <= i < |g| ==> k < |g[i]|
    ensures |r| == |g| && forall i :: 0 <= i < |g| ==> r[i] == g[i][k]
  {
    seq(|g|, i requires 0 <= i < |g| => g[i][k])
  }

  function Transpose(g: seq<seq<real>>): (r: seq<seq<real>>)
    requires Rectangular(g)
    ensures |r| == Cols(g) && IsMatrix(r, |g|)
    ensures forall j :: 0 <= j < Cols(g) ==> r[j] == Column(g, j)
  {
    seq(Cols(g), j requires 0 <= j < Cols(g) => Column(g, j))
  }

  /** Matrix-vector product a·v. */
  function MatVec(a: seq<seq<real>>, v: seq<real>): (r: seq<real>)
    requires IsMatrix(a, |v|)
    ensures |r| == |a| && forall i :: 0 <= i < |a| ==> r[i] == Dot(a[i], v)
  {
    seq(|a|, i requires 0 <= i < |a| => Dot(a[i], v))
  }

  /** The Gram matrix g·gᵀ. */
  function Gram(g: seq<seq<real>>): (r: seq<seq<real>>)
    requires Rectangular(g)
    ensures |r| == |g| && IsMatrix(r, |g|)
    ensures forall i, k :: 0 <= i < |g| && 0 <= k < |g| ==> r[i][k] == Dot(g[i], g[k])
  {
    seq(|g|, i requires 0 <= i < |g| =>
      seq(|g|, k requires 0 <= k < |g| => Dot(g[i], g[k])))
  }

  /** c times the n×n identity. */
  function ScaledIdentity(n: nat, c: real): (r: seq<seq<real>>)
    ensures |r| == n && IsMatrix(r, n)
    ensures forall i, j :: 0 <= i < n && 0 <= j < n ==> r[i][j] == if i == j then c else 0.0
  {
    seq(n, i => seq(n, j => if i == j then c else 0.0))
  }

  function RowSums(t: seq<seq<real>>): (r: seq<real>)
    ensures |r| == |t| && forall j :: 0 <= j < |t| ==> r[j] == Sum(t[j])
  {
    seq(|t|, j requires 0 <= j < |t| => Sum(t[j]))
  }

  function ColSums(t: seq<seq<real>>, n: nat): (r: seq<real>)
    requires IsMatrix(t, n)
    ensures |r| == n && forall k :: 0 <= k < n ==> r[k] == Sum(Column(t, k))
  {
    seq(n, k requires 0 <= k < n => Sum(Column(t, k)))
  }

  /** The table of products g[i][j]·g[k][j]·s[k], indexed by j then k, for one output row i. */
  function Terms(g: seq<seq<real>>, s: seq<real>, i: nat): (r: seq<seq<real>>)
    requires Rectangular(g) && |s| == |g| && i < |g|
    ensures |r| == Cols(g) && IsMatrix(r, |g|)
    ensures forall j, k :: 0 <= j < Cols(g) && 0 <= k < |g| ==> r[j][k] == g[i][j] * g[k][j] * s[k]
  {
    seq(Cols(g), j requires 0 <= j < Cols(g) =>
      seq(|g|, k requires 0 <= k < |g| => g[i][j] * g[k][j] * s[k]))
  }

  /** The contraction "...ij,...kj,...k->...i": entry i is Σ_j Σ_k g[i][j]·g[k][j]·s[k]. */
  function Contract(g: seq<seq<real>>, s: seq<real>): (r: seq<real>)
    requires Rectangular(g) && |s| == |g|
    ensures |r| == |g|
  {
    seq(|g|, i requires 0 <= i < |g| => Sum(RowSums(Terms(g, s, i))))
  }

  /** A vector whose entries vanish outside position p sums to its entry at p. */
  lemma {:induction false} SumSingle(v: seq<real>, p: nat)
    requires p < |v|
    requires forall q :: 0 <= q < |v| && q != p ==> v[q] == 0.0
    ensures Sum(v) == v[p]
  {
    if p == 0 {
      SumZero(v[1..]);
    } else {
      SumSingle(v[1..], p - 1);
    }
  }

  lemma {:induction false} SumZero(v: seq<real>)
    requires forall q :: 0 <= q < |v| ==> v[q] == 0.0
    ensures Sum(v) == 0.0
  {
    if |v| > 0 {
      SumZero(v[1..]);
    }
  }

  /** Summing a rectangular table row by row or column by column gives the same total. */
  lemma {:induction false} SumInterchange(t: seq<seq<real>>, n: nat)
    requires IsMatrix(t, n)
    ensures Sum(RowSums(t)) == Sum(ColSums(t, n))
  {
    if |t| == 0 {
      SumZero(ColSums(t, n));
    } else {
      var rest := t[1..];
      SumInterchange(rest, n);
      assert RowSums(t)[1..] == RowSums(rest);
      forall k | 0 <= k < n
        ensures ColSums(t, n)[k] == Add(t[0], ColSums(rest, n))[k]
      {
        assert Column(t, k)[1..] == Column(rest, k);
      }
      assert ColSums(t, n) == Add(t[0], ColSums(rest, n));
      SumAdd(t[0], ColSums(rest, n));
    }
  }

  /** Row j of the product table, summed, is g[i][j] times the j-th entry of gᵀ·s. */
  lemma TermsRow(g: seq<seq<real>>, s: seq<real>, i: nat, j: nat)
    requires Rectangular(g) && |s| == |g| && i < |g| && j < Cols(g)
    ensures Sum(Terms(g, s, i)[j]) == g[i][j] * Dot(Column(g, j), s)
  {
    var row := Terms(g, s, i)[j];
    var scaled := Scale(g[i][j], Mul(Column(g, j), s));
    forall k | 0 <= k < |g|
      ensures scaled[k] == row[k]
    {
      Associate(g[i][j], g[k][j], s[k]);
    }
    SumExt(scaled, row);
    SumScale(g[i][j], Mul(Column(g, j), s));
  }

  /** Column k of the product table, summed, is (g·gᵀ)[i][k] times s[k]. */
  lemma TermsColumn(g: seq<seq<real>>, s: seq<real>, i: nat, k: nat)
    requires Rectangular(g) && |s| == |g| && i < |g| && k < |g|
    ensures Sum(Column(Terms(g, s, i), k)) == Dot(g[i], g[k]) * s[k]
  {
    var col := Column(Terms(g, s, i), k);
    var scaled := Scale(s[k], Mul(g[i], g[k]));
    forall j | 0 <= j < Cols(g)
      ensures scaled[j] == col[j]
    {
      Commute(s[k], g[i][j] * g[k][j]);
    }
    SumExt(scaled, col);
    SumScale(s[k], Mul(g[i], g[k]));
  }

  lemma Associate(a: real, b: real, c: real)
    ensures a * (b * c) == a * b * c
  {
  }

  lemma Commute(a: real, b: real)
    ensures a * b == b * a
  {
  }

  /** Entry i of the contraction is entry i of g·(gᵀ·s). */
  lemma ContractRowFirst(g: seq<seq<real>>, s: seq<real>, i: nat)
    requires Rectangular(g) && |s| == |g| && i < |g|
    ensures Contract(g, s)[i] == MatVec(g, MatVec(Transpose(g), s))[i]
  {
    var w := MatVec(Transpose(g), s);
    var t := Terms(g, s, i);
    forall j | 0 <= j < Cols(g)
      ensures Mul(g[i], w)[j] == RowSums(t)[j]
    {
      TermsRow(g, s, i, j);
    }
    SumExt(Mul(g[i], w), RowSums(t));
  }

  /** Entry i of the contraction is entry i of (g·gᵀ)·s. */
  lemma ContractGramFirst(g: seq<seq<real>>, s: seq<real>, i: nat)
    requires Rectangular(g) && |s| == |g| && i < |g|
    ensures Contract(g, s)[i] == MatVec(Gram(g), s)[i]
  {
    var t := Terms(g, s, i);
    var gram := Gram(g);
    forall k | 0 <= k < |g|
      ensures Mul(gram[i], s)[k] == ColSums(t, |g|)[k]
    {
      TermsColumn(g, s, i, k);
    }
    SumExt(Mul(gram[i], s), ColSums(t, |g|));
    SumInterchange(t, |g|);
  }

  /** The contraction is the matrix product G·Gᵀ·score, in either association. */
  lemma ContractIsGGtProduct(g: seq<seq<real>>, s: seq<real>)
    requires Rectangular(g) && |s| == |g|
    ensures Contract(g, s) == MatVec(g, MatVec(Transpose(g), s))
    ensures Contract(g, s) == MatVec(Gram(g), s)
  {
    forall i | 0 <= i < |g|
      ensures Contract(g, s)[i] == MatVec(g, MatVec(Transpose(g), s))[i]
      ensures Contract(g, s)[i] == MatVec(Gram(g), s)[i]
    {
      ContractRowFirst(g, s, i);
      ContractGramFirst(g, s, i);
    }
  }

  /** For c·I, row j of the product table for output row i sums to c²·s[i] when
      j = i and to zero otherwise. */
  lemma ScaledIdentityTermsRow(n: nat, c: real, s: seq<real>, i: nat, j: nat)
    requires |s| == n && i < n && j < n
    ensures Sum(Terms(ScaledIdentity(n, c), s, i)[j]) == if j == i then c * c * s[i] else 0.0
  {
    var g := ScaledIdentity(n, c);
    var row := Terms(g, s, i)[j];
    if j == i {
      forall k | 0 <= k < n && k != i
        ensures row[k] == 0.0
      {
        assert g[k][j] == 0.0;
      }
      SumSingle(row, i);
    } else {
      forall k | 0 <= k < n
        ensures row[k] == 0.0
      {
        assert g[i][j] == 0.0;
      }
      SumZero(row);
    }
  }

  /** For an isotropic matrix c·I the contraction scales the score by c². */
  lemma ContractScaledIdentity(n: nat, c: real, s: seq<real>)
    requires |s| == n
    ensures Contract(ScaledIdentity(n, c), s) == Scale(c * c, s)
  {
    var g := ScaledIdentity(n, c);
    forall i | 0 <= i < n
      ensures Contract(g, s)[i] == c * c * s[i]
    {
      var sums := RowSums(Terms(g, s, i));
      forall j | 0 <= j < n
        ensures sums[j] == if j == i then c * c * s[i] else 0.0
      {
        ScaledIdentityTermsRow(n, c, s, i, j);
      }
      SumSingle(sums, i);
    }
  }
}
