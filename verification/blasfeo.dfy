/**
  The BLASFEO routines the conversions call, on the logical contents of a
  matrix (`BLASFEO_DMATEL(A, i, j)` is `A[i, j]`) and of a vector
  (`BLASFEO_DVECEL(x, i)` is `x[i]`): `blasfeo_dgese`, `blasfeo_pack_dmat`,
  `blasfeo_unpack_dmat`, `blasfeo_dvecse`, `blasfeo_pack_dvec` and
  `blasfeo_unpack_dvec` with unit increments.
*/
module Blasfeo {
  import opened Arith
  import opened ColMajor

  /** The entries of a matrix, row by row. */
  function Matrix(A: array2<real>): (M: seq<seq<real>>)
    reads A
    ensures |M| == A.Length0 && forall i :: 0 <= i < |M| ==> |M[i]| == A.Length1
    ensures forall i, j :: 0 <= i < A.Length0 && 0 <= j < A.Length1 ==> M[i][j] == A[i, j]
  {
    seq(A.Length0, i requires 0 <= i < A.Length0 reads A =>
      seq(A.Length1, j requires 0 <= j < A.Length1 reads A => A[i, j]))
  }

  /** `M` has `cols` columns in every row. */
  predicate Rect(M: seq<seq<real>>, cols: int)
  {
    forall i :: 0 <= i < |M| ==> |M[i]| == cols
  }

  /** The `m x n` block at `(ai, aj)` fits in a matrix of `rows x cols`. */
  predicate BlockFits(rows: int, cols: int, m: int, n: int, ai: int, aj: int)
  {
    0 <= m && 0 <= n && 0 <= ai && 0 <= aj && ai + m <= rows && aj + n <= cols
  }

  /** The packed position of cell `(r, c)` of an `m x n` block. */
  function PackedAt(r: int, c: int, m: int, n: int): (k: int)
    requires 0 <= r < m && 0 <= c < n
    ensures 0 <= k < m * n
  {
    AddrBelowPacked(r, c, m, n);
    Addr(r, c, m)
  }

  /** Matrix `M` with its `m x n` block at `(ai, aj)` replaced by the packed column-major values `vals`. */
  function MatWrite(M: seq<seq<real>>, cols: int, vals: seq<real>, m: int, n: int, ai: int, aj: int): (R: seq<seq<real>>)
    requires Rect(M, cols) && BlockFits(|M|, cols, m, n, ai, aj) && |vals| >= m * n
    ensures |R| == |M| && Rect(R, cols)
  {
    seq(|M|, i requires 0 <= i < |M| =>
      seq(cols, j requires 0 <= j < cols =>
        if ai <= i < ai + m && aj <= j < aj + n then vals[PackedAt(i - ai, j - aj, m, n)] else M[i][j]))
  }

  /** The `m x n` block of `M` at `(ai, aj)` in packed column-major order. */
  function MatRead(M: seq<seq<real>>, cols: int, m: int, n: int, ai: int, aj: int): (v: seq<real>)
    requires Rect(M, cols) && BlockFits(|M|, cols, m, n, ai, aj)
    ensures |v| == m * n
  {
    seq(m * n, k requires 0 <= k < m * n =>
      SplitBelow(k, m, n);
      M[ai + k % m][aj + k / m])
  }

  /** `len` copies of `x`. */
  function Constant(len: int, x: real): (s: seq<real>)
    requires 0 <= len
    ensures |s| == len && forall k :: 0 <= k < len ==> s[k] == x
  {
    seq(len, k => x)
  }

  /** Reading a block back after writing it returns the packed values. */
  lemma MatReadAfterWrite(M: seq<seq<real>>, cols: int, vals: seq<real>, m: int, n: int, ai: int, aj: int)
    requires Rect(M, cols) && BlockFits(|M|, cols, m, n, ai, aj) && |vals| >= m * n
    ensures MatRead(MatWrite(M, cols, vals, m, n, ai, aj), cols, m, n, ai, aj) == vals[..m * n]
  {
    var R := MatWrite(M, cols, vals, m, n, ai, aj);
    forall k | 0 <= k < m * n
      ensures MatRead(R, cols, m, n, ai, aj)[k] == vals[k]
    {
      SplitBelow(k, m, n);
      Split(k, m);
      var r, c := k % m, k / m;
      assert PackedAt(r, c, m, n) == k;
      assert R[ai + r][aj + c] == vals[PackedAt(r, c, m, n)];
    }
  }

  /** Writing back what was read leaves entry `(i, j)` as it was. */
  lemma MatWriteAfterReadAt(M: seq<seq<real>>, cols: int, m: int, n: int, ai: int, aj: int, i: int, j: int)
    requires Rect(M, cols) && BlockFits(|M|, cols, m, n, ai, aj)
    requires 0 <= i < |M| && 0 <= j < cols
    ensures MatWrite(M, cols, MatRead(M, cols, m, n, ai, aj), m, n, ai, aj)[i][j] == M[i][j]
  {
    if ai <= i < ai + m && aj <= j < aj + n {
      Decode(i - ai, j - aj, m);
      var k := PackedAt(i - ai, j - aj, m, n);
      assert MatRead(M, cols, m, n, ai, aj)[k] == M[ai + k % m][aj + k / m];
    }
  }

  /** Writing back what was read leaves the matrix as it was. */
  lemma MatWriteAfterRead(M: seq<seq<real>>, cols: int, m: int, n: int, ai: int, aj: int)
    requires Rect(M, cols) && BlockFits(|M|, cols, m, n, ai, aj)
    ensures MatWrite(M, cols, MatRead(M, cols, m, n, ai, aj), m, n, ai, aj) == M
  {
    var R := MatWrite(M, cols, MatRead(M, cols, m, n, ai, aj), m, n, ai, aj);
    forall i | 0 <= i < |M|
      ensures R[i] == M[i]
    {
      forall j | 0 <= j < cols
        ensures R[i][j] == M[i][j]
      {
        MatWriteAfterReadAt(M, cols, m, n, ai, aj, i, j);
      }
    }
  }

  /** A matrix whose entries are those of `R` has contents `R`. */
  lemma MatrixIs(A: array2<real>, R: seq<seq<real>>)
    requires |R| == A.Length0 && Rect(R, A.Length1)
    requires forall i, j :: 0 <= i < A.Length0 && 0 <= j < A.Length1 ==> A[i, j] == R[i][j]
    ensures Matrix(A) == R
  {
    var M := Matrix(A);
    forall i | 0 <= i < |R|
      ensures M[i] == R[i]
    {
      assert forall j :: 0 <= j < A.Length1 ==> M[i][j] == R[i][j];
    }
  }

  /** Two matrices of the same shape with the same entries are equal. */
  lemma SameEntries(R: seq<seq<real>>, S: seq<seq<real>>, cols: int)
    requires |R| == |S| && Rect(R, cols) && Rect(S, cols)
    requires forall i, j :: 0 <= i < |R| && 0 <= j < cols ==> R[i][j] == S[i][j]
    ensures R == S
  {
    forall i | 0 <= i < |R|
      ensures R[i] == S[i]
    {
      assert forall j :: 0 <= j < cols ==> R[i][j] == S[i][j];
    }
  }

  /** `BLASFEO_DMATEL(A, i, j) = x`: entry `(i, j)` becomes `x`, every other entry is unchanged. */
  method SetEntry(A: array2<real>, i: int, j: int, x: real)
    requires 0 <= i < A.Length0 && 0 <= j < A.Length1
    modifies A
    ensures Matrix(A) == old(Matrix(A))[i := old(Matrix(A))[i][j := x]]
  {
    ghost var M := Matrix(A);
    A[i, j] := x;
    MatrixIs(A, M[i := M[i][j := x]]);
  }

  /** `blasfeo_dgese`: every entry of the `m x n` block at `(ai, aj)` becomes `alpha`. */
  method Dgese(m: int, n: int, alpha: real, A: array2<real>, ai: int, aj: int)
    requires BlockFits(A.Length0, A.Length1, m, n, ai, aj)
    modifies A
    ensures Matrix(A) == MatWrite(old(Matrix(A)), A.Length1, Constant(m * n, alpha), m, n, ai, aj)
  {
    ghost var M := Matrix(A);
    var jj := 0;
    while jj < n
      invariant 0 <= jj <= n
      invariant forall i, j :: 0 <= i < A.Length0 && 0 <= j < A.Length1 ==>
        A[i, j] == if ai <= i < ai + m && aj <= j < aj + jj then alpha else M[i][j]
    {
      var ii := 0;
      while ii < m
        invariant 0 <= ii <= m
        invariant forall i, j :: 0 <= i < A.Length0 && 0 <= j < A.Length1 ==>
          A[i, j] == if (ai <= i < ai + m && aj <= j < aj + jj) || (aj + jj == j && ai <= i < ai + ii) then alpha else M[i][j]
      {
        A[ai + ii, aj + jj] := alpha;
        ii := ii + 1;
      }
      jj := jj + 1;
    }
    ghost var R := MatWrite(M, A.Length1, Constant(m * n, alpha), m, n, ai, aj);
    forall i, j | 0 <= i < A.Length0 && 0 <= j < A.Length1
      ensures A[i, j] == R[i][j]
    {
      if ai <= i < ai + m && aj <= j < aj + n {
        assert R[i][j] == Constant(m * n, alpha)[PackedAt(i - ai, j - aj, m, n)];
      }
    }
    MatrixIs(A, R);
  }

  /** `blasfeo_pack_dmat`: cell `(i, j)` of the block at `(ai, aj)` receives `src[i + j * lda]`. */
  method PackDmat(m: int, n: int, src: array<real>, lda: int, A: array2<real>, ai: int, aj: int)
    requires BlockFits(A.Length0, A.Length1, m, n, ai, aj) && m <= lda && BlockSpan(m, n, lda) <= src.Length
    modifies A
    ensures Matrix(A) == MatWrite(old(Matrix(A)), A.Length1, BlockRead(src[..], m, n, lda), m, n, ai, aj)
  {
    ghost var M := Matrix(A);
    ghost var vals := BlockRead(src[..], m, n, lda);
    var jj := 0;
    while jj < n
      invariant 0 <= jj <= n
      invariant forall i, j :: 0 <= i < A.Length0 && 0 <= j < A.Length1 ==>
        A[i, j] == if ai <= i < ai + m && aj <= j < aj + jj then vals[PackedAt(i - ai, j - aj, m, n)] else M[i][j]
    {
      var ii := 0;
      while ii < m
        invariant 0 <= ii <= m
        invariant forall i, j :: 0 <= i < A.Length0 && 0 <= j < A.Length1 ==>
          A[i, j] == if (ai <= i < ai + m && aj <= j < aj + jj) || (aj + jj == j && ai <= i < ai + ii)
                     then vals[PackedAt(i - ai, j - aj, m, n)] else M[i][j]
      {
        AddrInBlock(ii, jj, m, n, lda);
        Decode(ii, jj, m);
        ghost var k := PackedAt(ii, jj, m, n);
        assert vals[k] == src[ii + jj * lda];
        A[ai + ii, aj + jj] := src[ii + jj * lda];
        ii := ii + 1;
      }
      jj := jj + 1;
    }
    MatrixIs(A, MatWrite(M, A.Length1, vals, m, n, ai, aj));
  }

  /** `blasfeo_unpack_dmat`: `out[i + j * lda]` receives cell `(i, j)` of the block at `(ai, aj)`. */
  method UnpackDmat(m: int, n: int, A: array2<real>, ai: int, aj: int, out: array<real>, lda: int)
    requires BlockFits(A.Length0, A.Length1, m, n, ai, aj) && m <= lda && BlockSpan(m, n, lda) <= out.Length
    modifies out
    ensures out[..] == BlockWrite(old(out[..]), MatRead(Matrix(A), A.Length1, m, n, ai, aj), m, n, lda)
  {
    ghost var o := out[..];
    ghost var vals := MatRead(Matrix(A), A.Length1, m, n, ai, aj);
    BlockWriteStart(o, vals, m, n, lda, false);
    var jj := 0;
    while jj < n
      invariant 0 <= jj <= n
      invariant out[..] == BlockWritePart(o, vals, m, n, lda, false, jj, 0)
    {
      var ii := 0;
      while ii < m
        invariant 0 <= ii <= m
        invariant out[..] == BlockWritePart(o, vals, m, n, lda, false, jj, ii)
      {
        BlockWriteStep(o, vals, m, n, lda, false, ii, jj);
        Decode(ii, jj, m);
        out[ii + jj * lda] := A[ai + ii, aj + jj];
        ii := ii + 1;
      }
      BlockWriteWrap(o, vals, m, n, lda, false, jj);
      jj := jj + 1;
    }
    BlockWriteEnd(o, vals, m, n, lda, false);
  }

  /** `blasfeo_dvecse`: entries `xi..xi+n-1` become `alpha`. */
  method Dvecse(n: int, alpha: real, x: array<real>, xi: int)
    requires 0 <= n && 0 <= xi && xi + n <= x.Length
    modifies x
    ensures x[..] == old(x[..])[..xi] + Constant(n, alpha) + old(x[..])[xi + n..]
  {
    var ii := 0;
    while ii < n
      invariant 0 <= ii <= n
      invariant forall t :: 0 <= t < x.Length ==> x[t] == if xi <= t < xi + ii then alpha else old(x[t])
    {
      x[xi + ii] := alpha;
      ii := ii + 1;
    }
    assert x[..] == old(x[..])[..xi] + Constant(n, alpha) + old(x[..])[xi + n..];
  }

  /** `blasfeo_pack_dvec` with unit increment: entries `xi..xi+n-1` receive `src[0..n-1]`. */
  method PackDvec(n: int, src: array<real>, x: array<real>, xi: int)
    requires 0 <= n <= src.Length && 0 <= xi && xi + n <= x.Length && src != x
    modifies x
    ensures x[..] == old(x[..])[..xi] + src[..n] + old(x[..])[xi + n..]
  {
    var ii := 0;
    while ii < n
      invariant 0 <= ii <= n
      invariant forall t :: 0 <= t < x.Length ==> x[t] == if xi <= t < xi + ii then src[t - xi] else old(x[t])
    {
      x[xi + ii] := src[ii];
      ii := ii + 1;
    }
    assert x[..] == old(x[..])[..xi] + src[..n] + old(x[..])[xi + n..];
  }

  /** `blasfeo_unpack_dvec` with unit increment: `out[0..n-1]` receives entries `xi..xi+n-1`. */
  method UnpackDvec(n: int, x: array<real>, xi: int, out: array<real>)
    requires 0 <= n <= out.Length && 0 <= xi && xi + n <= x.Length && x != out
    modifies out
    ensures out[..] == x[xi..xi + n] + old(out[..])[n..]
  {
    var ii := 0;
    while ii < n
      invariant 0 <= ii <= n
      invariant forall t :: 0 <= t < out.Length ==> out[t] == if t < ii then x[xi + t] else old(out[t])
    {
      out[ii] := x[xi + ii];
      ii := ii + 1;
    }
    assert out[..] == x[xi..xi + n] + old(out[..])[n..];
  }
}
