/**
  The conversions between CasADi's packed nonzero buffers and plain
  column-major buffers: `d_cvt_casadi_to_colmaj`, `d_cvt_colmaj_to_casadi`
  and their `colmaj_args` variants with a leading dimension. Each is proved
  against the scatter or gather of the column-major model.
*/
module Convert {
  import opened Wrappers
  import opened Arith
  import opened Sparsity
  import opened ColMajor
  import opened Arena

  // ---------------------------------------------------------------------
  // The loops the conversions are made of.
  // ---------------------------------------------------------------------

  /** Copies the first `n` entries of `src` into `dst`. */
  method CopyPrefix(src: array<real>, dst: array<real>, n: int)
    requires 0 <= n <= src.Length && n <= dst.Length && src != dst
    modifies dst
    ensures dst[..] == src[..n] + old(dst[..])[n..]
  {
    var ii := 0;
    while ii < n
      invariant 0 <= ii <= n
      invariant forall k :: 0 <= k < ii ==> dst[k] == src[k]
      invariant forall k :: ii <= k < dst.Length ==> dst[k] == old(dst[k])
    {
      dst[ii] := src[ii];
      ii := ii + 1;
    }
    assert dst[..] == src[..n] + old(dst[..])[n..];
  }

  /** Zeroes the `m x n` block of `A`, column by column. */
  method FillBlockZero(A: array<real>, m: int, n: int, ld: int)
    requires 0 <= m <= ld && 0 <= n && BlockSpan(m, n, ld) <= A.Length
    modifies A
    ensures A[..] == BlockWrite(old(A[..]), Zeros(m * n), m, n, ld)
  {
    ghost var a := A[..];
    ghost var z := Zeros(m * n);
    BlockWriteStart(a, z, m, n, ld, false);
    var jj := 0;
    while jj < n
      invariant 0 <= jj <= n
      invariant A[..] == BlockWritePart(a, z, m, n, ld, false, jj, 0)
    {
      var ii := 0;
      while ii < m
        invariant 0 <= ii <= m
        invariant A[..] == BlockWritePart(a, z, m, n, ld, false, jj, ii)
      {
        BlockWriteStep(a, z, m, n, ld, false, ii, jj);
        A[ii + jj * ld] := 0.0;
        ii := ii + 1;
      }
      BlockWriteWrap(a, z, m, n, ld, false, jj);
      jj := jj + 1;
    }
    BlockWriteEnd(a, z, m, n, ld, false);
  }

  /**
    The index and the value of write `w` of a copy that runs `ii` over `m`
    outermost and `jj` over `n` innermost, storing `src[ii + m * jj]` at
    `A[ii + jj * ld]`: write `w` is the one with `ii == w / n` and `jj == w % n`.
  */
  function RowOrderTargets(m: int, n: int, ld: int): (t: seq<int>)
    requires 0 <= m && 0 < n
    ensures |t| == m * n
  {
    seq(m * n, w requires 0 <= w < m * n => Addr(w / n, w % n, ld))
  }

  function RowOrderValues(src: seq<real>, m: int, n: int): (vs: seq<real>)
    requires 0 <= m && 0 < n && m * n <= |src|
    ensures |vs| == m * n
  {
    seq(m * n, w requires 0 <= w < m * n =>
      SplitBelow(w, n, m); AddrBelowPacked(w / n, w % n, m, n); src[Addr(w / n, w % n, m)])
  }

  /** Cell `(r, c)` of an `m x n` block with any leading dimension `ld >= 0` lies below `BlockSpan(m, n, ld)`. */
  lemma StridedBelow(r: int, c: int, m: int, n: int, ld: int)
    requires 0 <= r < m && 0 <= c < n && 0 <= ld
    ensures 0 <= Addr(r, c, ld) < BlockSpan(m, n, ld)
  {
    MulMono(n - 1, c, ld);
  }

  /** Every write of the copy stays inside a buffer that holds `BlockSpan(m, n, ld)` entries. */
  lemma TargetsIn(m: int, n: int, ld: int, len: int)
    requires 0 <= m && 0 < n && 0 <= ld && BlockSpan(m, n, ld) <= len
    ensures IndicesIn(RowOrderTargets(m, n, ld), len)
  {
    var t := RowOrderTargets(m, n, ld);
    forall w | 0 <= w < |t|
      ensures 0 <= t[w] < len
    {
      SplitBelow(w, n, m);
      StridedBelow(w / n, w % n, m, n, ld);
    }
  }

  /**
    Buffer `a` after the writes of that copy in loop order. With `ld < m`
    two writes can hit the same index, and the later one stays.
  */
  function RowOrderCopy(a: seq<real>, src: seq<real>, m: int, n: int, ld: int): (b: seq<real>)
    requires 0 <= m && 0 < n && 0 <= ld && m * n <= |src| && BlockSpan(m, n, ld) <= |a|
    ensures |b| == |a|
  {
    TargetsIn(m, n, ld, |a|);
    ApplyUpdates(a, RowOrderTargets(m, n, ld), RowOrderValues(src, m, n))
  }

  /** Write `w == jj + ii * n` of the copy stores `src[ii + m * jj]` at `ii + jj * ld`. */
  lemma RowOrderAt(src: seq<real>, m: int, n: int, ld: int, ii: int, jj: int, w: int)
    requires 0 <= ii < m && 0 <= jj < n && m * n <= |src| && w == Addr(jj, ii, n)
    ensures 0 <= w < m * n && 0 <= Addr(ii, jj, m) < m * n
    ensures RowOrderTargets(m, n, ld)[w] == Addr(ii, jj, ld)
    ensures RowOrderValues(src, m, n)[w] == src[Addr(ii, jj, m)]
  {
    AddrBelowPacked(jj, ii, n, m);
    assert n * m == m * n;
    AddrBelowPacked(ii, jj, m, n);
    Decode(jj, ii, n);
  }

  /** With the rows fitting in the leading dimension every write of the copy lands in the block. */
  lemma TargetsInBlock(m: int, n: int, ld: int)
    requires 0 <= m <= ld && 0 < n
    ensures forall k :: 0 <= k < m * n ==> InBlock(RowOrderTargets(m, n, ld)[k], m, n, ld)
  {
    forall k | 0 <= k < m * n
      ensures InBlock(RowOrderTargets(m, n, ld)[k], m, n, ld)
    {
      SplitBelow(k, n, m);
      Decode(k / n, k % n, ld);
    }
  }

  /** Entry `i` of the copy, when the rows fit in the leading dimension. */
  lemma RowOrderCopyAt(a: seq<real>, src: seq<real>, m: int, n: int, ld: int, i: int)
    requires 0 <= m <= ld && 0 < n && m * n <= |src| && BlockSpan(m, n, ld) <= |a| && 0 <= i < |a|
    ensures RowOrderCopy(a, src, m, n, ld)[i] == BlockWrite(a, src, m, n, ld)[i]
  {
    var t := RowOrderTargets(m, n, ld);
    var vs := RowOrderValues(src, m, n);
    TargetsIn(m, n, ld, |a|);
    TargetsInBlock(m, n, ld);
    UpdatesAt(a, t, vs, i);
    var k := LastWrite(t, i);
    if InBlock(i, m, n, ld) {
      var r, c := i % ld, i / ld;
      Split(i, ld);
      RowOrderAt(src, m, n, ld, r, c, Addr(c, r, n));
      SplitBelow(k, n, m);
      Split(k, n);
      Decode(k / n, k % n, ld);
      RowOrderAt(src, m, n, ld, k / n, k % n, k);
    }
  }

  /**
    When the block's rows fit in the leading dimension no two writes meet,
    and the copy writes the block: `BlockWrite` of `src` with `m` rows.
  */
  lemma {:induction false} RowOrderCopyIsBlockWrite(a: seq<real>, src: seq<real>, m: int, n: int, ld: int)
    requires 0 <= m <= ld && 0 < n && m * n <= |src| && BlockSpan(m, n, ld) <= |a|
    ensures RowOrderCopy(a, src, m, n, ld) == BlockWrite(a, src, m, n, ld)
  {
    forall i | 0 <= i < |a|
      ensures RowOrderCopy(a, src, m, n, ld)[i] == BlockWrite(a, src, m, n, ld)[i]
    {
      RowOrderCopyAt(a, src, m, n, ld, i);
    }
  }

  /**
    Copies `src[ii + m * jj]` into `A[ii + jj * ld]`, `ii` outermost: with
    `m <= ld` this is the block copy, otherwise later writes may overwrite
    earlier ones.
  */
  method CopyRowOrder(src: array<real>, A: array<real>, m: int, n: int, ld: int)
    requires 0 <= m && 0 < n && 0 <= ld && m * n <= src.Length && BlockSpan(m, n, ld) <= A.Length && src != A
    modifies A
    ensures A[..] == RowOrderCopy(old(A[..]), src[..], m, n, ld)
  {
    ghost var a := A[..];
    ghost var t := RowOrderTargets(m, n, ld);
    ghost var vs := RowOrderValues(src[..], m, n);
    TargetsIn(m, n, ld, A.Length);
    var ii := 0;
    ghost var k := 0;
    while ii < m
      invariant 0 <= ii <= m && k == Addr(0, ii, n) && 0 <= k <= m * n
      invariant IndicesIn(t[..k], A.Length)
      invariant A[..] == ApplyUpdates(a, t[..k], vs)
    {
      var jj := 0;
      while jj < n
        invariant 0 <= jj <= n && k == Addr(jj, ii, n) && 0 <= k <= m * n
        invariant IndicesIn(t[..k], A.Length)
        invariant A[..] == ApplyUpdates(a, t[..k], vs)
      {
        RowOrderAt(src[..], m, n, ld, ii, jj, k);
        StridedBelow(ii, jj, m, n, ld);
        UpdatesSnoc(a, t, vs, k);
        A[ii + jj * ld] := src[ii + jj * m];
        jj := jj + 1;
        k := k + 1;
      }
      Distrib(ii + 1, 1, n);
      assert k == Addr(0, ii + 1, n);
      MulMono(m, ii + 1, n);
      ii := ii + 1;
    }
    assert k == m * n;
    assert t[..k] == t;
  }

  /** The `m x n` block of `a` with leading dimension `ld >= 0` read into packed order; cells may share an index when `ld < m`. */
  function StridedRead(a: seq<real>, m: int, n: int, ld: int): (v: seq<real>)
    requires 0 < m && 0 <= n && 0 <= ld && BlockSpan(m, n, ld) <= |a|
    ensures |v| == m * n
  {
    seq(m * n, k requires 0 <= k < m * n =>
      SplitBelow(k, m, n); StridedBelow(k % m, k / m, m, n, ld); a[Addr(k % m, k / m, ld)])
  }

  /** Cell `(r, c)` of the strided read is entry `Addr(r, c, ld)` of `a`. */
  lemma StridedReadAt(a: seq<real>, m: int, n: int, ld: int, r: int, c: int)
    requires 0 <= r < m && 0 <= c < n && 0 <= ld && BlockSpan(m, n, ld) <= |a|
    ensures 0 <= Addr(r, c, m) < m * n && 0 <= Addr(r, c, ld) < |a|
    ensures StridedRead(a, m, n, ld)[Addr(r, c, m)] == a[Addr(r, c, ld)]
  {
    AddrBelowPacked(r, c, m, n);
    StridedBelow(r, c, m, n, ld);
    Decode(r, c, m);
  }

  /** When the rows fit in the leading dimension the strided read is the block read. */
  lemma StridedReadIsBlockRead(a: seq<real>, m: int, n: int, ld: int)
    requires 0 < m <= ld && 0 <= n && BlockSpan(m, n, ld) <= |a|
    ensures StridedRead(a, m, n, ld) == BlockRead(a, m, n, ld)
  {
  }

  /** Copies cell `(ii, jj)` at `A[ii + jj * ld]` into `out[ii + m * jj]`, `ii` outermost. */
  method CopyOutOfBlock(A: array<real>, out: array<real>, m: int, n: int, ld: int)
    requires 0 < m && 0 <= n && 0 <= ld && BlockSpan(m, n, ld) <= A.Length && m * n <= out.Length && A != out
    modifies out
    ensures out[..] == StridedRead(A[..], m, n, ld) + old(out[..])[m * n..]
  {
    ghost var o := out[..];
    ghost var vals := StridedRead(A[..], m, n, ld);
    PackedSpan(m, n);
    BlockWriteStart(o, vals, m, n, m, true);
    var ii := 0;
    while ii < m
      invariant 0 <= ii <= m
      invariant out[..] == BlockWritePart(o, vals, m, n, m, true, ii, 0)
    {
      var jj := 0;
      while jj < n
        invariant 0 <= jj <= n
        invariant out[..] == BlockWritePart(o, vals, m, n, m, true, ii, jj)
      {
        BlockWriteStep(o, vals, m, n, m, true, ii, jj);
        StridedReadAt(A[..], m, n, ld, ii, jj);
        out[ii + jj * m] := A[ii + jj * ld];
        jj := jj + 1;
      }
      BlockWriteWrap(o, vals, m, n, m, true, ii);
      ii := ii + 1;
    }
    BlockWriteEnd(o, vals, m, n, m, true);
    BlockWritePacked(o, vals, m, n);
  }

  /**
    Stores each nonzero `v[idx]` of column `jj` at cell `(row[idx], jj)`,
    column by column; `ptr` walks the packed buffer and stays equal to
    `idx` because `colptr[0]` is 0.
  */
  method ScatterNonzeros(v: array<real>, sp: Descriptor, A: array<real>, ld: int)
    requires Compressed(sp) && v.Length >= Nnz(Some(sp)) && NRow(sp) <= ld
    requires BlockSpan(NRow(sp), NCol(sp), ld) <= A.Length && v != A
    modifies A
    ensures A[..] == ScatterPart(old(A[..]), sp, v[..], ld, NCol(sp), ColPtr(sp, NCol(sp)))
  {
    ghost var a := A[..];
    ghost var vs := v[..];
    ScatterStart(a, sp, vs, ld);
    var ptr := 0;
    var jj := 0;
    while jj < sp[1]
      invariant 0 <= jj <= sp[1] && ptr == ColPtr(sp, jj)
      invariant A[..] == ScatterPart(a, sp, vs, ld, jj, ColPtr(sp, jj))
    {
      var idx := ColPtr(sp, jj);
      while idx != ColPtr(sp, jj + 1)
        invariant ColPtr(sp, jj) <= idx <= ColPtr(sp, jj + 1) && ptr == idx
        invariant A[..] == ScatterPart(a, sp, vs, ld, jj, idx)
        decreases ColPtr(sp, jj + 1) - idx
      {
        EntryRow(sp, jj, idx);
        ScatterStep(a, sp, vs, ld, jj, idx);
        A[RowAt(sp, idx) + jj * ld] := v[ptr];
        ptr := ptr + 1;
        idx := idx + 1;
      }
      ScatterNextColumn(a, sp, vs, ld, jj);
      jj := jj + 1;
    }
  }

  /** Reads cell `(row[idx], jj)` into `out[idx]` for each nonzero, column by column. */
  method GatherNonzeros(A: array<real>, ld: int, sp: Descriptor, out: array<real>)
    requires Compressed(sp) && out.Length >= Nnz(Some(sp)) && NRow(sp) <= ld
    requires BlockSpan(NRow(sp), NCol(sp), ld) <= A.Length && A != out
    modifies out
    ensures out[..] == GatherFlat(A[..], sp, ld) + old(out[..])[Nnz(Some(sp))..]
  {
    ghost var g := GatherFlat(A[..], sp, ld);
    var ptr := 0;
    var jj := 0;
    while jj < sp[1]
      invariant 0 <= jj <= sp[1] && ptr == ColPtr(sp, jj)
      invariant forall k :: 0 <= k < ptr ==> out[k] == g[k]
      invariant forall k :: ptr <= k < out.Length ==> out[k] == old(out[k])
    {
      var idx := ColPtr(sp, jj);
      while idx != ColPtr(sp, jj + 1)
        invariant ColPtr(sp, jj) <= idx <= ColPtr(sp, jj + 1) && ptr == idx
        invariant forall k :: 0 <= k < ptr ==> out[k] == g[k]
        invariant forall k :: ptr <= k < out.Length ==> out[k] == old(out[k])
        decreases ColPtr(sp, jj + 1) - idx
      {
        ColumnOfUnique(sp, idx, jj);
        ghost var i := CellAddr(sp, idx, ld);
        out[ptr] := A[RowAt(sp, idx) + jj * ld];
        ptr := ptr + 1;
        idx := idx + 1;
      }
      jj := jj + 1;
    }
    assert out[..] == g + old(out[..])[Nnz(Some(sp))..];
  }

  // ---------------------------------------------------------------------
  // d_cvt_casadi_to_colmaj and d_cvt_colmaj_to_casadi.
  // ---------------------------------------------------------------------

  /**
    `d_cvt_casadi_to_colmaj`: nothing for an empty matrix; a flat copy of
    `nrow * ncol` values when the caller reports the pattern dense;
    otherwise zero the matrix and scatter the nonzeros. Either way the
    packed `nrow x ncol` buffer `A` ends up holding the scatter.
  */
  method CasadiToColmaj(v: array<real>, sp: Descriptor, A: array<real>, isDense: bool)
    requires WellFormed(sp) && v.Length >= Nnz(Some(sp)) && NRow(sp) * NCol(sp) <= A.Length && v != A
    requires isDense ==> Full(sp)
    requires !isDense && NRow(sp) > 0 && NCol(sp) > 0 ==> !DenseForm(sp)
    modifies A
    ensures A[..] == ScatterFlat(old(A[..]), sp, v[..], NRow(sp))
  {
    var nrow := sp[0];
    var ncol := sp[1];
    ghost var a := A[..];
    PackedSpan(nrow, ncol);
    if nrow <= 0 || ncol <= 0 {
      assert A[..] == ScatterFlat(a, sp, v[..], nrow);
      return;
    }
    if isDense {
      FullScatterIsCopy(a, sp, v[..], nrow);
      CopyPrefix(v, A, nrow * ncol);
      BlockWritePacked(a, v[..], nrow, ncol);
      assert v[..][..nrow * ncol] == v[..nrow * ncol];
    } else {
      FillBlockZero(A, nrow, ncol, nrow);
      ScatterNonzeros(v, sp, A, nrow);
      ZeroThenScatter(a, sp, v[..], nrow);
    }
  }

  /**
    `d_cvt_colmaj_to_casadi`: nothing for an empty matrix; a flat copy when
    the caller reports the pattern dense; otherwise read each nonzero out
    of its cell. Either way `out` starts with the gathered nonzeros and the
    rest of it is left alone.
  */
  method ColmajToCasadi(A: array<real>, out: array<real>, sp: Descriptor, isDense: bool)
    requires WellFormed(sp) && out.Length >= Nnz(Some(sp)) && NRow(sp) * NCol(sp) <= A.Length && A != out
    requires isDense ==> Full(sp)
    requires !isDense && NRow(sp) > 0 && NCol(sp) > 0 ==> !DenseForm(sp)
    modifies out
    ensures BlockSpan(NRow(sp), NCol(sp), NRow(sp)) <= A.Length
    ensures out[..] == GatherFlat(A[..], sp, NRow(sp)) + old(out[..])[Nnz(Some(sp))..]
  {
    var nrow := sp[0];
    var ncol := sp[1];
    PackedSpan(nrow, ncol);
    if nrow <= 0 || ncol <= 0 {
      EmptyIsFull(sp);
      assert GatherFlat(A[..], sp, nrow) == [];
      return;
    }
    if isDense {
      FullNnz(sp);
      FullGatherIsRead(A[..], sp, nrow);
      ReadPacked(A[..], nrow, ncol);
      CopyPrefix(A, out, nrow * ncol);
    } else {
      GatherNonzeros(A, nrow, sp, out);
    }
  }

  // ---------------------------------------------------------------------
  // d_cvt_casadi_to_colmaj_args and d_cvt_colmaj_args_to_casadi.
  // ---------------------------------------------------------------------

  /**
    `d_cvt_casadi_to_colmaj_args` with the dense branch copying cell
    `(ii, jj)` from `in[ii + nrow * jj]`, as the sparse branch lays it out.
  */
  method CasadiToColmajArgs(v: array<real>, sp: Descriptor, A: array<real>, lda: int, isDense: bool)
    requires WellFormed(sp) && v.Length >= Nnz(Some(sp)) && NRow(sp) <= lda
    requires BlockSpan(NRow(sp), NCol(sp), lda) <= A.Length && v != A
    requires isDense ==> Full(sp)
    requires !isDense && NRow(sp) > 0 && NCol(sp) > 0 ==> !DenseForm(sp)
    modifies A
    ensures A[..] == ScatterFlat(old(A[..]), sp, v[..], lda)
  {
    var nrow := sp[0];
    var ncol := sp[1];
    ghost var a := A[..];
    if nrow <= 0 || ncol <= 0 {
      assert A[..] == ScatterFlat(a, sp, v[..], lda);
      return;
    }
    if isDense {
      FullScatterIsCopy(a, sp, v[..], lda);
      CopyRowOrder(v, A, nrow, ncol, lda);
      RowOrderCopyIsBlockWrite(a, v[..], nrow, ncol, lda);
    } else {
      FillBlockZero(A, nrow, ncol, lda);
      ScatterNonzeros(v, sp, A, lda);
      ZeroThenScatter(a, sp, v[..], lda);
    }
  }

  /**
    The dense branch of the `colmaj_args` conversions as written touches
    `A[ii + jj * lda]` for `ii < ncol` and `jj < nrow`, so it runs past a
    buffer shorter than `BlockSpan(ncol, nrow, lda)`.
  */
  predicate DenseRunsOver(sp: Descriptor, lda: int, len: int, isDense: bool)
    requires |sp| >= 2
  {
    isDense && sp[0] > 0 && sp[1] > 0 && BlockSpan(sp[1], sp[0], lda) > len
  }

  /**
    `d_cvt_casadi_to_colmaj_args` as written: the dense branch runs `ii`
    over `ncol` and `jj` over `nrow` and copies `in[ii + ncol * jj]` into
    `A[ii + jj * lda]`, which lays the values out as an `ncol x nrow` block.
    When those writes would run past `A` the model reports `overrun` and
    leaves `A` alone.
  */
  method CasadiToColmajArgsAsWritten(v: array<real>, sp: Descriptor, A: array<real>, lda: int, isDense: bool)
    returns (overrun: bool)
    requires WellFormed(sp) && v.Length >= Nnz(Some(sp)) && NRow(sp) <= lda
    requires BlockSpan(NRow(sp), NCol(sp), lda) <= A.Length && v != A
    requires isDense ==> Full(sp)
    requires !isDense && NRow(sp) > 0 && NCol(sp) > 0 ==> !DenseForm(sp)
    modifies A
    ensures overrun == DenseRunsOver(sp, lda, A.Length, isDense)
    ensures overrun ==> A[..] == old(A[..])
    ensures isDense ==> Nnz(Some(sp)) == NRow(sp) * NCol(sp)
    ensures !overrun ==> A[..] == if isDense && NRow(sp) > 0 && NCol(sp) > 0
                                  then RowOrderCopy(old(A[..]), v[..], NCol(sp), NRow(sp), lda)
                                  else ScatterFlat(old(A[..]), sp, v[..], lda)
  {
    var nrow := sp[0];
    var ncol := sp[1];
    ghost var a := A[..];
    if isDense {
      FullNnz(sp);
    }
    overrun := DenseRunsOver(sp, lda, A.Length, isDense);
    if nrow <= 0 || ncol <= 0 {
      assert A[..] == ScatterFlat(a, sp, v[..], lda);
      return;
    }
    if isDense {
      if overrun {
        return;
      }
      CopyRowOrder(v, A, ncol, nrow, lda);
    } else {
      FillBlockZero(A, nrow, ncol, lda);
      ScatterNonzeros(v, sp, A, lda);
      ZeroThenScatter(a, sp, v[..], lda);
    }
  }

  /**
    `d_cvt_colmaj_args_to_casadi` with the dense branch reading cell
    `(ii, jj)` into `out[ii + nrow * jj]`.
  */
  method ColmajArgsToCasadi(A: array<real>, lda: int, out: array<real>, sp: Descriptor, isDense: bool)
    requires WellFormed(sp) && out.Length >= Nnz(Some(sp)) && NRow(sp) <= lda
    requires BlockSpan(NRow(sp), NCol(sp), lda) <= A.Length && A != out
    requires isDense ==> Full(sp)
    requires !isDense && NRow(sp) > 0 && NCol(sp) > 0 ==> !DenseForm(sp)
    modifies out
    ensures out[..] == GatherFlat(A[..], sp, lda) + old(out[..])[Nnz(Some(sp))..]
  {
    var nrow := sp[0];
    var ncol := sp[1];
    if nrow <= 0 || ncol <= 0 {
      EmptyIsFull(sp);
      assert GatherFlat(A[..], sp, lda) == [];
      return;
    }
    if isDense {
      FullNnz(sp);
      FullGatherIsRead(A[..], sp, lda);
      StridedReadIsBlockRead(A[..], nrow, ncol, lda);
      CopyOutOfBlock(A, out, nrow, ncol, lda);
    } else {
      GatherNonzeros(A, lda, sp, out);
    }
  }

  /**
    `d_cvt_colmaj_args_to_casadi` as written: the dense branch reads
    `A[ii + jj * lda]` for `ii < ncol`, `jj < nrow` into `out[ii + ncol * jj]`.
    When those reads would run past `A` the model reports `overrun` and
    leaves `out` alone.
  */
  method ColmajArgsToCasadiAsWritten(A: array<real>, lda: int, out: array<real>, sp: Descriptor, isDense: bool)
    returns (overrun: bool)
    requires WellFormed(sp) && out.Length >= Nnz(Some(sp)) && NRow(sp) <= lda
    requires BlockSpan(NRow(sp), NCol(sp), lda) <= A.Length && A != out
    requires isDense ==> Full(sp)
    requires !isDense && NRow(sp) > 0 && NCol(sp) > 0 ==> !DenseForm(sp)
    modifies out
    ensures overrun == DenseRunsOver(sp, lda, A.Length, isDense)
    ensures overrun ==> out[..] == old(out[..])
    ensures isDense ==> Nnz(Some(sp)) == NRow(sp) * NCol(sp)
    ensures !overrun ==> out[..] == if isDense && NRow(sp) > 0 && NCol(sp) > 0
                                    then StridedRead(A[..], NCol(sp), NRow(sp), lda) + old(out[..])[NRow(sp) * NCol(sp)..]
                                    else GatherFlat(A[..], sp, lda) + old(out[..])[Nnz(Some(sp))..]
  {
    var nrow := sp[0];
    var ncol := sp[1];
    if isDense {
      FullNnz(sp);
    }
    overrun := DenseRunsOver(sp, lda, A.Length, isDense);
    if nrow <= 0 || ncol <= 0 {
      EmptyIsFull(sp);
      assert GatherFlat(A[..], sp, lda) == [];
      return;
    }
    if isDense {
      if overrun {
        return;
      }
      CopyOutOfBlock(A, out, ncol, nrow, lda);
    } else {
      GatherNonzeros(A, lda, sp, out);
    }
  }

  // ---------------------------------------------------------------------
  // The dense branch of the colmaj_args conversions as written.
  // ---------------------------------------------------------------------

  /** For a square full pattern the dense scatter as written is the scatter, and stays inside the block. */
  lemma ColmajArgsAsWrittenSquare(a: seq<real>, sp: Descriptor, v: seq<real>, lda: int)
    requires WellFormed(sp) && Full(sp) && NRow(sp) == NCol(sp) > 0 && |v| >= Nnz(Some(sp)) && NRow(sp) <= lda
    requires BlockSpan(NRow(sp), NCol(sp), lda) <= |a|
    ensures !DenseRunsOver(sp, lda, |a|, true)
    ensures RowOrderCopy(a, v, NCol(sp), NRow(sp), lda) == ScatterFlat(a, sp, v, lda)
  {
    FullNnz(sp);
    FullScatterIsCopy(a, sp, v, lda);
    RowOrderCopyIsBlockWrite(a, v, NCol(sp), NRow(sp), lda);
  }

  /** For a square full pattern the dense gather as written is the gather. */
  lemma ColmajArgsReadAsWrittenSquare(a: seq<real>, sp: Descriptor, lda: int)
    requires WellFormed(sp) && Full(sp) && NRow(sp) == NCol(sp) > 0 && NRow(sp) <= lda
    requires BlockSpan(NRow(sp), NCol(sp), lda) <= |a|
    ensures !DenseRunsOver(sp, lda, |a|, true)
    ensures StridedRead(a, NCol(sp), NRow(sp), lda) == GatherFlat(a, sp, lda)
  {
    FullGatherIsRead(a, sp, lda);
    StridedReadIsBlockRead(a, NCol(sp), NRow(sp), lda);
  }

  /** The dense-form descriptor of a 1 x 2 row: well formed, full, and dense for both checks. */
  lemma RowVectorShape(sp: Descriptor)
    requires sp == [1, 2, 1]
    ensures WellFormed(sp) && Full(sp) && IsDense(Some(sp)) && IsDenseAsWritten(Some(sp))
    ensures NRow(sp) == 1 && NCol(sp) == 2 && Nnz(Some(sp)) == 2
  {
  }

  /** The dense-form descriptor of a 2 x 1 column: well formed, full, and dense for both checks. */
  lemma ColumnShape(sp: Descriptor)
    requires sp == [2, 1, 1]
    ensures WellFormed(sp) && Full(sp) && IsDense(Some(sp)) && IsDenseAsWritten(Some(sp))
    ensures NRow(sp) == 2 && NCol(sp) == 1 && Nnz(Some(sp)) == 2
  {
  }

  /**
    For a full `1 x ncol` row with `2 <= ncol <= lda` the dense branch as
    written stores the second value at index 1 (row 1 of column 0), which
    the scatter leaves alone, instead of at index `lda` (row 0 of column 1).
    `RowVectorShape` gives such a row.
  */
  lemma {:induction false} ColmajArgsAsWrittenMisplaces(sp: Descriptor, v: seq<real>, a: seq<real>, lda: int)
    requires WellFormed(sp) && Full(sp) && NRow(sp) == 1 && 2 <= NCol(sp) <= lda
    requires |v| >= Nnz(Some(sp)) && |v| >= NCol(sp)
    requires BlockSpan(NCol(sp), 1, lda) <= |a| && BlockSpan(1, NCol(sp), lda) <= |a|
    ensures 1 < lda < |a|
    ensures RowOrderCopy(a, v, NCol(sp), 1, lda)[1] == v[1]
    ensures ScatterFlat(a, sp, v, lda)[1] == a[1] && ScatterFlat(a, sp, v, lda)[lda] == v[1]
  {
    FullNnz(sp);
    RowOrderCopyIsBlockWrite(a, v, NCol(sp), 1, lda);
    Decode(1, 0, lda);
    Decode(0, 1, lda);
    Decode(1, 0, NCol(sp));
    FullLookup(sp, 0, 1);
  }

  /**
    For the same rows the dense read as written returns the value at index
    1 as the second nonzero, where the gather returns the one at index `lda`.
  */
  lemma ColmajArgsReadAsWrittenMisplaces(sp: Descriptor, a: seq<real>, lda: int)
    requires WellFormed(sp) && Full(sp) && NRow(sp) == 1 && 2 <= NCol(sp) <= lda
    requires BlockSpan(NCol(sp), 1, lda) <= |a| && BlockSpan(1, NCol(sp), lda) <= |a|
    ensures 1 < lda < |a|
    ensures StridedRead(a, NCol(sp), 1, lda)[1] == a[1]
    ensures GatherFlat(a, sp, lda)[1] == a[lda]
  {
    FullNnz(sp);
    Decode(1, 0, lda);
    Decode(0, 1, lda);
    Decode(1, 0, NCol(sp));
    FullPos(sp, 1);
  }

  /**
    For a full `nrow x 1` column with `2 <= nrow <= lda` the dense branch as
    written runs past a buffer that holds just the column, and in a longer
    buffer it stores the second value at index `lda`, leaving index 1, where
    the scatter puts it, alone. `ColumnShape` gives such a column.
  */
  lemma {:induction false} ColmajArgsColumnAsWritten(sp: Descriptor, v: seq<real>, a: seq<real>, lda: int)
    requires WellFormed(sp) && Full(sp) && NCol(sp) == 1 && 2 <= NRow(sp) <= lda && |v| >= Nnz(Some(sp))
    requires BlockSpan(1, NRow(sp), lda) <= |a|
    ensures DenseRunsOver(sp, lda, NRow(sp), true)
    ensures 1 < lda < |a| && |v| >= 2
    ensures RowOrderCopy(a, v, 1, NRow(sp), lda)[1] == a[1] && RowOrderCopy(a, v, 1, NRow(sp), lda)[lda] == v[1]
    ensures ScatterFlat(a, sp, v, lda)[1] == v[1] && ScatterFlat(a, sp, v, lda)[lda] == a[lda]
  {
    var n := NRow(sp);
    FullNnz(sp);
    MulAtLeast(n - 1, lda);
    RowOrderCopyIsBlockWrite(a, v, 1, n, lda);
    Decode(1, 0, lda);
    Decode(0, 1, lda);
    FullLookup(sp, 1, 0);
  }
}
