/**
  The conversions between CasADi's packed nonzero buffers and BLASFEO
  matrices and vectors: `d_cvt_casadi_to_dmat`, `d_cvt_dmat_to_casadi`,
  `d_cvt_casadi_to_dvec`, `d_cvt_dvec_to_casadi` and their `_args`
  variants with a row and column offset. A matrix is seen through its
  entries (`BLASFEO_DMATEL`), a vector through its elements.
*/
module ConvertBlasfeo {
  import opened Wrappers
  import opened Arith
  import opened Sparsity
  import opened ColMajor
  import opened Blasfeo

  // ---------------------------------------------------------------------
  // What a scatter or gather between a packed buffer and a matrix computes.
  // ---------------------------------------------------------------------

  /** Matrix `M` with the `nrow x ncol` block at `(ai, aj)` holding the scatter of `v` by `sp`. */
  function ScatterMat(M: seq<seq<real>>, cols: int, sp: Descriptor, v: seq<real>, ai: int, aj: int): (R: seq<seq<real>>)
    requires WellFormed(sp) && |v| >= Nnz(Some(sp)) && Rect(M, cols) && BlockFits(|M|, cols, sp[0], sp[1], ai, aj)
    ensures |R| == |M| && Rect(R, cols)
  {
    seq(|M|, i requires 0 <= i < |M| =>
      seq(cols, j requires 0 <= j < cols => ScatterEntry(M, cols, sp, v, ai, aj, i, j)))
  }

  /** Entry `(i, j)` of `ScatterMat`: the cell of the pattern inside the block, the old entry outside. */
  function ScatterEntry(M: seq<seq<real>>, cols: int, sp: Descriptor, v: seq<real>, ai: int, aj: int, i: int, j: int): real
    requires WellFormed(sp) && |v| >= Nnz(Some(sp)) && Rect(M, cols) && BlockFits(|M|, cols, sp[0], sp[1], ai, aj)
    requires 0 <= i < |M| && 0 <= j < cols
  {
    if ai <= i < ai + sp[0] && aj <= j < aj + sp[1] then Cell(sp, v, i - ai, j - aj) else M[i][j]
  }

  /** The nonzeros of `sp` read out of the block of `M` at `(ai, aj)`, in packed order. */
  function GatherMat(M: seq<seq<real>>, cols: int, sp: Descriptor, ai: int, aj: int): (v: seq<real>)
    requires WellFormed(sp) && Rect(M, cols) && BlockFits(|M|, cols, sp[0], sp[1], ai, aj)
    ensures |v| == Nnz(Some(sp))
  {
    seq(Nnz(Some(sp)), k requires 0 <= k < Nnz(Some(sp)) => M[ai + Pos(sp, k).0][aj + Pos(sp, k).1])
  }

  /** Gathering a scattered matrix gives back the nonzeros. */
  lemma GatherMatAfterScatter(M: seq<seq<real>>, cols: int, sp: Descriptor, v: seq<real>, ai: int, aj: int)
    requires WellFormed(sp) && |v| >= Nnz(Some(sp)) && Rect(M, cols) && BlockFits(|M|, cols, sp[0], sp[1], ai, aj)
    ensures GatherMat(ScatterMat(M, cols, sp, v, ai, aj), cols, sp, ai, aj) == v[..Nnz(Some(sp))]
  {
    var R := ScatterMat(M, cols, sp, v, ai, aj);
    forall k | 0 <= k < Nnz(Some(sp))
      ensures GatherMat(R, cols, sp, ai, aj)[k] == v[k]
    {
      CellOfPos(sp, v, k);
    }
  }

  /**
    Scattering what was gathered keeps the cells of the pattern, clears the
    other cells of the block and leaves the rest of the matrix alone.
  */
  lemma ScatterMatAfterGather(M: seq<seq<real>>, cols: int, sp: Descriptor, ai: int, aj: int)
    requires WellFormed(sp) && Rect(M, cols) && BlockFits(|M|, cols, sp[0], sp[1], ai, aj)
    ensures var R := ScatterMat(M, cols, sp, GatherMat(M, cols, sp, ai, aj), ai, aj);
            forall i, j :: 0 <= i < |M| && 0 <= j < cols ==>
              R[i][j] == if ai <= i < ai + sp[0] && aj <= j < aj + sp[1] && !InPattern(sp, i - ai, j - aj) then 0.0 else M[i][j]
  {
    var g := GatherMat(M, cols, sp, ai, aj);
    var R := ScatterMat(M, cols, sp, g, ai, aj);
    forall i, j | 0 <= i < |M| && 0 <= j < cols
      ensures R[i][j] == if ai <= i < ai + sp[0] && aj <= j < aj + sp[1] && !InPattern(sp, i - ai, j - aj) then 0.0 else M[i][j]
    {
      assert R[i][j] == ScatterEntry(M, cols, sp, g, ai, aj, i, j);
      ScatterGatheredEntry(M, cols, sp, ai, aj, i, j);
    }
  }

  /** Entry `(i, j)` of the scatter of what was gathered. */
  lemma ScatterGatheredEntry(M: seq<seq<real>>, cols: int, sp: Descriptor, ai: int, aj: int, i: int, j: int)
    requires WellFormed(sp) && Rect(M, cols) && BlockFits(|M|, cols, sp[0], sp[1], ai, aj)
    requires 0 <= i < |M| && 0 <= j < cols
    ensures ScatterEntry(M, cols, sp, GatherMat(M, cols, sp, ai, aj), ai, aj, i, j) ==
            if ai <= i < ai + sp[0] && aj <= j < aj + sp[1] && !InPattern(sp, i - ai, j - aj) then 0.0 else M[i][j]
  {
    if ai <= i < ai + sp[0] && aj <= j < aj + sp[1] {
      GatheredCell(M, cols, sp, ai, aj, i - ai, j - aj);
      assert ai + (i - ai) == i && aj + (j - aj) == j;
    }
  }

  /** A gathered cell of the pattern holds the entry it was read from; any other cell of the block reads as 0. */
  lemma GatheredCell(M: seq<seq<real>>, cols: int, sp: Descriptor, ai: int, aj: int, r: int, c: int)
    requires WellFormed(sp) && Rect(M, cols) && BlockFits(|M|, cols, sp[0], sp[1], ai, aj)
    requires 0 <= r < sp[0] && 0 <= c < sp[1]
    ensures Cell(sp, GatherMat(M, cols, sp, ai, aj), r, c) == if InPattern(sp, r, c) then M[ai + r][aj + c] else 0.0
  {
    if InPattern(sp, r, c) {
      PosOfLookup(sp, r, c);
    }
  }

  /** For a full pattern the scatter is the dense pack of the buffer with leading dimension `nrow`. */
  lemma FullScatterMatIsPack(M: seq<seq<real>>, cols: int, sp: Descriptor, v: seq<real>, ai: int, aj: int)
    requires WellFormed(sp) && Full(sp) && |v| >= Nnz(Some(sp)) && Rect(M, cols) && BlockFits(|M|, cols, sp[0], sp[1], ai, aj)
    ensures Nnz(Some(sp)) == NRow(sp) * NCol(sp) && BlockSpan(NRow(sp), NCol(sp), NRow(sp)) <= |v|
    ensures ScatterMat(M, cols, sp, v, ai, aj) == MatWrite(M, cols, BlockRead(v, sp[0], sp[1], sp[0]), sp[0], sp[1], ai, aj)
  {
    FullNnz(sp);
    ReadPacked(v, sp[0], sp[1]);
    var R := ScatterMat(M, cols, sp, v, ai, aj);
    var vals := BlockRead(v, sp[0], sp[1], sp[0]);
    var S := MatWrite(M, cols, vals, sp[0], sp[1], ai, aj);
    forall i, j | 0 <= i < |M| && 0 <= j < cols
      ensures R[i][j] == S[i][j]
    {
      if ai <= i < ai + sp[0] && aj <= j < aj + sp[1] {
        var r, c := i - ai, j - aj;
        FullLookup(sp, r, c);
        var k := PackedAt(r, c, sp[0], sp[1]);
        assert R[i][j] == Cell(sp, v, r, c) == v[k];
        assert S[i][j] == vals[k] == v[k];
      }
    }
    SameEntries(R, S, cols);
  }

  /** For a full pattern the gather is the dense unpack of the block. */
  lemma FullGatherMatIsRead(M: seq<seq<real>>, cols: int, sp: Descriptor, ai: int, aj: int)
    requires WellFormed(sp) && Full(sp) && Rect(M, cols) && BlockFits(|M|, cols, sp[0], sp[1], ai, aj)
    ensures GatherMat(M, cols, sp, ai, aj) == MatRead(M, cols, sp[0], sp[1], ai, aj)
  {
    FullNnz(sp);
    forall k | 0 <= k < Nnz(Some(sp))
      ensures GatherMat(M, cols, sp, ai, aj)[k] == MatRead(M, cols, sp[0], sp[1], ai, aj)[k]
    {
      FullPos(sp, k);
    }
  }

  // ---------------------------------------------------------------------
  // The sparse loops on matrices.
  // ---------------------------------------------------------------------

  /**
    Matrix `M` after the scatter loop has stored the nonzeros of columns
    `0..jj-1` and entries `colptr[jj]..idx-1` of column `jj` into the block
    at `(ai, aj)`; entries not written yet keep their value.
  */
  function ScatterMatPart(M: seq<seq<real>>, cols: int, sp: Descriptor, v: seq<real>, ai: int, aj: int, jj: int, idx: int): (R: seq<seq<real>>)
    requires Compressed(sp) && |v| >= Nnz(Some(sp)) && Rect(M, cols) && BlockFits(|M|, cols, sp[0], sp[1], ai, aj)
    requires 0 <= jj <= sp[1] && (jj < sp[1] ==> ColPtr(sp, jj) <= idx <= ColPtr(sp, jj + 1))
    ensures |R| == |M| && Rect(R, cols)
  {
    seq(|M|, i requires 0 <= i < |M| =>
      seq(cols, j requires 0 <= j < cols => PartEntry(M, cols, sp, v, ai, aj, jj, idx, i, j)))
  }

  /** Entry `(i, j)` of `ScatterMatPart`. */
  function PartEntry(M: seq<seq<real>>, cols: int, sp: Descriptor, v: seq<real>, ai: int, aj: int, jj: int, idx: int, i: int, j: int): real
    requires Compressed(sp) && |v| >= Nnz(Some(sp)) && Rect(M, cols) && BlockFits(|M|, cols, sp[0], sp[1], ai, aj)
    requires 0 <= jj <= sp[1] && (jj < sp[1] ==> ColPtr(sp, jj) <= idx <= ColPtr(sp, jj + 1))
    requires 0 <= i < |M| && 0 <= j < cols
  {
    if ai <= i < ai + sp[0] && aj <= j < aj + sp[1] then
      var k := ScannedIndex(sp, i - ai, j - aj, jj, idx);
      if k >= 0 then v[k] else M[i][j]
    else M[i][j]
  }

  /** Where cell `(r, c)` was last written from, once the scan has reached entry `idx` of column `jj`; -1 if not yet. */
  function ScannedIndex(sp: Descriptor, r: int, c: int, jj: int, idx: int): (k: int)
    requires Compressed(sp) && 0 <= c < sp[1] && 0 <= jj <= sp[1]
    requires jj < sp[1] ==> ColPtr(sp, jj) <= idx <= ColPtr(sp, jj + 1)
    ensures -1 <= k < ColPtr(sp, sp[1])
  {
    LookupIn(sp, r, ColPtr(sp, c), ScanEnd(sp, c, jj, idx))
  }

  /** Scanning entry `idx` of column `jj` makes it the last write of its own cell. */
  lemma ScannedIndexHit(sp: Descriptor, r: int, jj: int, idx: int)
    requires Compressed(sp) && 0 <= jj < sp[1] && ColPtr(sp, jj) <= idx < ColPtr(sp, jj + 1)
    requires r == RowAt(sp, idx)
    ensures ScannedIndex(sp, r, jj, jj, idx + 1) == idx
  {
    assert ScanEnd(sp, jj, jj, idx + 1) == idx + 1;
    LookupInExtend(sp, r, ColPtr(sp, jj), idx);
  }

  /** Scanning entry `idx` of column `jj` leaves the last write of every other cell as it was. */
  lemma ScannedIndexMiss(sp: Descriptor, r: int, c: int, jj: int, idx: int)
    requires Compressed(sp) && 0 <= c < sp[1]
    requires 0 <= jj < sp[1] && ColPtr(sp, jj) <= idx < ColPtr(sp, jj + 1)
    requires r != RowAt(sp, idx) || c != jj
    ensures ScannedIndex(sp, r, c, jj, idx + 1) == ScannedIndex(sp, r, c, jj, idx)
  {
    if c == jj {
      assert ScanEnd(sp, c, jj, idx + 1) == idx + 1;
      LookupInExtend(sp, r, ColPtr(sp, c), idx);
    } else {
      assert ScanEnd(sp, c, jj, idx) == ScanEnd(sp, c, jj, idx + 1);
    }
  }

  /** Before the loop no entry has been written. */
  lemma ScatterMatStart(M: seq<seq<real>>, cols: int, sp: Descriptor, v: seq<real>, ai: int, aj: int)
    requires Compressed(sp) && |v| >= Nnz(Some(sp)) && Rect(M, cols) && BlockFits(|M|, cols, sp[0], sp[1], ai, aj)
    ensures ScatterMatPart(M, cols, sp, v, ai, aj, 0, ColPtr(sp, 0)) == M
  {
    var P := ScatterMatPart(M, cols, sp, v, ai, aj, 0, ColPtr(sp, 0));
    forall i, j | 0 <= i < |M| && 0 <= j < cols
      ensures P[i][j] == M[i][j]
    {
      assert P[i][j] == PartEntry(M, cols, sp, v, ai, aj, 0, ColPtr(sp, 0), i, j);
      if ai <= i < ai + sp[0] && aj <= j < aj + sp[1] {
        assert ScanEnd(sp, j - aj, 0, ColPtr(sp, 0)) == ColPtr(sp, j - aj);
      }
    }
    SameEntries(P, M, cols);
  }

  /** Inside the block, storing entry `idx` changes entry `(i, j)` exactly when it is `(ai + row[idx], aj + jj)`. */
  lemma ScatterCellStep(M: seq<seq<real>>, cols: int, sp: Descriptor, v: seq<real>, ai: int, aj: int, jj: int, idx: int, i: int, j: int)
    requires Compressed(sp) && |v| >= Nnz(Some(sp)) && Rect(M, cols) && BlockFits(|M|, cols, sp[0], sp[1], ai, aj)
    requires 0 <= jj < sp[1] && ColPtr(sp, jj) <= idx < ColPtr(sp, jj + 1) && 0 <= i < |M| && 0 <= j < cols
    requires ai <= i < ai + sp[0] && aj <= j < aj + sp[1]
    ensures 0 <= RowAt(sp, idx) < sp[0]
    ensures PartEntry(M, cols, sp, v, ai, aj, jj, idx + 1, i, j) ==
            if i == ai + RowAt(sp, idx) && j == aj + jj then v[idx] else PartEntry(M, cols, sp, v, ai, aj, jj, idx, i, j)
  {
    EntryRow(sp, jj, idx);
    if i == ai + RowAt(sp, idx) && j == aj + jj {
      ScatterCellHit(M, cols, sp, v, ai, aj, jj, idx, i, j);
    } else {
      ScatterCellMiss(M, cols, sp, v, ai, aj, jj, idx, i, j);
    }
  }

  /** Storing entry `idx` writes `v[idx]` into its own entry. */
  lemma ScatterCellHit(M: seq<seq<real>>, cols: int, sp: Descriptor, v: seq<real>, ai: int, aj: int, jj: int, idx: int, i: int, j: int)
    requires Compressed(sp) && |v| >= Nnz(Some(sp)) && Rect(M, cols) && BlockFits(|M|, cols, sp[0], sp[1], ai, aj)
    requires 0 <= jj < sp[1] && ColPtr(sp, jj) <= idx < ColPtr(sp, jj + 1) && 0 <= i < |M| && 0 <= j < cols
    requires i == ai + RowAt(sp, idx) && j == aj + jj
    ensures idx < |v| && PartEntry(M, cols, sp, v, ai, aj, jj, idx + 1, i, j) == v[idx]
  {
    EntryRow(sp, jj, idx);
    ScannedIndexHit(sp, i - ai, jj, idx);
  }

  /** Storing entry `idx` leaves every other entry of the block as it was. */
  lemma ScatterCellMiss(M: seq<seq<real>>, cols: int, sp: Descriptor, v: seq<real>, ai: int, aj: int, jj: int, idx: int, i: int, j: int)
    requires Compressed(sp) && |v| >= Nnz(Some(sp)) && Rect(M, cols) && BlockFits(|M|, cols, sp[0], sp[1], ai, aj)
    requires 0 <= jj < sp[1] && ColPtr(sp, jj) <= idx < ColPtr(sp, jj + 1) && 0 <= i < |M| && 0 <= j < cols
    requires ai <= i < ai + sp[0] && aj <= j < aj + sp[1] && !(i == ai + RowAt(sp, idx) && j == aj + jj)
    ensures PartEntry(M, cols, sp, v, ai, aj, jj, idx + 1, i, j) == PartEntry(M, cols, sp, v, ai, aj, jj, idx, i, j)
  {
    ScannedIndexMiss(sp, i - ai, j - aj, jj, idx);
  }

  /** Storing entry `idx` changes entry `(i, j)` exactly when it is `(ai + row[idx], aj + jj)`. */
  lemma ScatterMatStepAt(M: seq<seq<real>>, cols: int, sp: Descriptor, v: seq<real>, ai: int, aj: int, jj: int, idx: int, i: int, j: int)
    requires Compressed(sp) && |v| >= Nnz(Some(sp)) && Rect(M, cols) && BlockFits(|M|, cols, sp[0], sp[1], ai, aj)
    requires 0 <= jj < sp[1] && ColPtr(sp, jj) <= idx < ColPtr(sp, jj + 1) && 0 <= i < |M| && 0 <= j < cols
    ensures 0 <= RowAt(sp, idx) < sp[0]
    ensures PartEntry(M, cols, sp, v, ai, aj, jj, idx + 1, i, j) ==
            if i == ai + RowAt(sp, idx) && j == aj + jj then v[idx] else PartEntry(M, cols, sp, v, ai, aj, jj, idx, i, j)
  {
    EntryRow(sp, jj, idx);
    if ai <= i < ai + sp[0] && aj <= j < aj + sp[1] {
      ScatterCellStep(M, cols, sp, v, ai, aj, jj, idx, i, j);
    } else {
      ScatterOutsideStep(M, cols, sp, v, ai, aj, jj, idx, i, j);
    }
  }

  /** Outside the block the scan leaves every entry alone. */
  lemma ScatterOutsideStep(M: seq<seq<real>>, cols: int, sp: Descriptor, v: seq<real>, ai: int, aj: int, jj: int, idx: int, i: int, j: int)
    requires Compressed(sp) && |v| >= Nnz(Some(sp)) && Rect(M, cols) && BlockFits(|M|, cols, sp[0], sp[1], ai, aj)
    requires 0 <= jj < sp[1] && ColPtr(sp, jj) <= idx < ColPtr(sp, jj + 1) && 0 <= i < |M| && 0 <= j < cols
    requires !(ai <= i < ai + sp[0] && aj <= j < aj + sp[1])
    ensures 0 <= RowAt(sp, idx) < sp[0] && !(i == ai + RowAt(sp, idx) && j == aj + jj)
    ensures PartEntry(M, cols, sp, v, ai, aj, jj, idx + 1, i, j) == M[i][j]
    ensures PartEntry(M, cols, sp, v, ai, aj, jj, idx, i, j) == M[i][j]
  {
    EntryRow(sp, jj, idx);
  }

  /** Widening the searched range by one entry finds that entry when its row matches. */
  lemma LookupInExtend(sp: Descriptor, r: int, lo: int, hi: int)
    requires Compressed(sp) && 0 <= lo <= hi < ColPtr(sp, sp[1])
    ensures LookupIn(sp, r, lo, hi + 1) == if RowAt(sp, hi) == r then hi else LookupIn(sp, r, lo, hi)
  {
  }

  /** Storing entry `idx`, whose row is `r`, changes exactly the entry `(ai + r, aj + jj)`, to `v[idx]`. */
  lemma ScatterMatStep(M: seq<seq<real>>, cols: int, sp: Descriptor, v: seq<real>, ai: int, aj: int, jj: int, idx: int, r: int)
    requires Compressed(sp) && |v| >= Nnz(Some(sp)) && Rect(M, cols) && BlockFits(|M|, cols, sp[0], sp[1], ai, aj)
    requires 0 <= jj < sp[1] && ColPtr(sp, jj) <= idx < ColPtr(sp, jj + 1) && r == RowAt(sp, idx)
    ensures 0 <= r < sp[0] && idx < |v|
    ensures var P := ScatterMatPart(M, cols, sp, v, ai, aj, jj, idx);
            ScatterMatPart(M, cols, sp, v, ai, aj, jj, idx + 1) == P[ai + r := P[ai + r][aj + jj := v[idx]]]
  {
    EntryRow(sp, jj, idx);
    var P := ScatterMatPart(M, cols, sp, v, ai, aj, jj, idx);
    var Q := ScatterMatPart(M, cols, sp, v, ai, aj, jj, idx + 1);
    var U := P[ai + r := P[ai + r][aj + jj := v[idx]]];
    forall i, j | 0 <= i < |M| && 0 <= j < cols
      ensures Q[i][j] == U[i][j]
    {
      ScatterMatStepAt(M, cols, sp, v, ai, aj, jj, idx, i, j);
      assert Q[i][j] == PartEntry(M, cols, sp, v, ai, aj, jj, idx + 1, i, j);
      assert P[i][j] == PartEntry(M, cols, sp, v, ai, aj, jj, idx, i, j);
    }
    SameEntries(Q, U, cols);
  }

  /** Reaching the end of column `jj` is starting column `jj + 1`. */
  lemma ScatterMatNextColumn(M: seq<seq<real>>, cols: int, sp: Descriptor, v: seq<real>, ai: int, aj: int, jj: int)
    requires Compressed(sp) && |v| >= Nnz(Some(sp)) && Rect(M, cols) && BlockFits(|M|, cols, sp[0], sp[1], ai, aj)
    requires 0 <= jj < sp[1]
    ensures ScatterMatPart(M, cols, sp, v, ai, aj, jj, ColPtr(sp, jj + 1)) ==
            ScatterMatPart(M, cols, sp, v, ai, aj, jj + 1, ColPtr(sp, jj + 1))
  {
    var e := ColPtr(sp, jj + 1);
    var P := ScatterMatPart(M, cols, sp, v, ai, aj, jj, e);
    var Q := ScatterMatPart(M, cols, sp, v, ai, aj, jj + 1, e);
    forall i, j | 0 <= i < |M| && 0 <= j < cols
      ensures P[i][j] == Q[i][j]
    {
      assert P[i][j] == PartEntry(M, cols, sp, v, ai, aj, jj, e, i, j);
      assert Q[i][j] == PartEntry(M, cols, sp, v, ai, aj, jj + 1, e, i, j);
      if ai <= i < ai + sp[0] && aj <= j < aj + sp[1] {
        assert ScanEnd(sp, j - aj, jj, e) == ScanEnd(sp, j - aj, jj + 1, e);
      }
    }
    SameEntries(P, Q, cols);
  }

  /** One entry of `ZeroThenScatterMat`. */
  lemma ZeroThenScatterEntry(M: seq<seq<real>>, cols: int, sp: Descriptor, v: seq<real>, ai: int, aj: int, i: int, j: int)
    requires Compressed(sp) && |v| >= Nnz(Some(sp)) && Rect(M, cols) && BlockFits(|M|, cols, sp[0], sp[1], ai, aj)
    requires 0 <= i < |M| && 0 <= j < cols
    ensures var Z := MatWrite(M, cols, Constant(sp[0] * sp[1], 0.0), sp[0], sp[1], ai, aj);
            PartEntry(Z, cols, sp, v, ai, aj, sp[1], ColPtr(sp, sp[1]), i, j) == ScatterEntry(M, cols, sp, v, ai, aj, i, j)
  {
    var Z := MatWrite(M, cols, Constant(sp[0] * sp[1], 0.0), sp[0], sp[1], ai, aj);
    if ai <= i < ai + sp[0] && aj <= j < aj + sp[1] {
      var r, c := i - ai, j - aj;
      assert Z[i][j] == Constant(sp[0] * sp[1], 0.0)[PackedAt(r, c, sp[0], sp[1])];
      assert ScanEnd(sp, c, sp[1], ColPtr(sp, sp[1])) == ColPtr(sp, c + 1);
      assert Lookup(sp, r, c) == LookupIn(sp, r, ColPtr(sp, c), ColPtr(sp, c + 1));
    } else {
      assert Z[i][j] == M[i][j];
    }
  }

  /** Zeroing the block and then scattering every column is the scatter. */
  lemma ZeroThenScatterMat(M: seq<seq<real>>, cols: int, sp: Descriptor, v: seq<real>, ai: int, aj: int)
    requires Compressed(sp) && |v| >= Nnz(Some(sp)) && Rect(M, cols) && BlockFits(|M|, cols, sp[0], sp[1], ai, aj)
    ensures var Z := MatWrite(M, cols, Constant(sp[0] * sp[1], 0.0), sp[0], sp[1], ai, aj);
            ScatterMatPart(Z, cols, sp, v, ai, aj, sp[1], ColPtr(sp, sp[1])) == ScatterMat(M, cols, sp, v, ai, aj)
  {
    var Z := MatWrite(M, cols, Constant(sp[0] * sp[1], 0.0), sp[0], sp[1], ai, aj);
    var P := ScatterMatPart(Z, cols, sp, v, ai, aj, sp[1], ColPtr(sp, sp[1]));
    var R := ScatterMat(M, cols, sp, v, ai, aj);
    forall i, j | 0 <= i < |M| && 0 <= j < cols
      ensures P[i][j] == R[i][j]
    {
      ZeroThenScatterEntry(M, cols, sp, v, ai, aj, i, j);
    }
    SameEntries(P, R, cols);
  }

  /** Stores each nonzero `v[idx]` of column `jj` at entry `(ai + row[idx], aj + jj)`. */
  method ScatterIntoMat(v: array<real>, sp: Descriptor, A: array2<real>, ai: int, aj: int)
    requires Compressed(sp) && v.Length >= Nnz(Some(sp)) && BlockFits(A.Length0, A.Length1, sp[0], sp[1], ai, aj)
    modifies A
    ensures Matrix(A) == ScatterMatPart(old(Matrix(A)), A.Length1, sp, v[..], ai, aj, sp[1], ColPtr(sp, sp[1]))
  {
    ghost var M := Matrix(A);
    ghost var vs := v[..];
    ghost var cols := A.Length1;
    ScatterMatStart(M, cols, sp, vs, ai, aj);
    var ptr := 0;
    var jj := 0;
    while jj < sp[1]
      invariant 0 <= jj <= sp[1] && ptr == ColPtr(sp, jj)
      invariant Matrix(A) == ScatterMatPart(M, cols, sp, vs, ai, aj, jj, ptr)
    {
      var idx := ColPtr(sp, jj);
      while idx != ColPtr(sp, jj + 1)
        invariant ColPtr(sp, jj) <= idx <= ColPtr(sp, jj + 1) && ptr == idx
        invariant Matrix(A) == ScatterMatPart(M, cols, sp, vs, ai, aj, jj, idx)
        decreases ColPtr(sp, jj + 1) - idx
      {
        ScatterMatStep(M, cols, sp, vs, ai, aj, jj, idx, RowAt(sp, idx));
        SetEntry(A, ai + RowAt(sp, idx), aj + jj, v[ptr]);
        ptr := ptr + 1;
        idx := idx + 1;
      }
      ScatterMatNextColumn(M, cols, sp, vs, ai, aj, jj);
      jj := jj + 1;
    }
  }

  /** Packed position `k` of column `jj` gathers entry `(ai + row[k], aj + jj)`. */
  lemma GatherMatEntry(M: seq<seq<real>>, cols: int, sp: Descriptor, ai: int, aj: int, jj: int, k: int)
    requires Compressed(sp) && Rect(M, cols) && BlockFits(|M|, cols, sp[0], sp[1], ai, aj)
    requires 0 <= jj < sp[1] && ColPtr(sp, jj) <= k < ColPtr(sp, jj + 1)
    ensures 0 <= RowAt(sp, k) < sp[0] && k < Nnz(Some(sp))
    ensures GatherMat(M, cols, sp, ai, aj)[k] == M[ai + RowAt(sp, k)][aj + jj]
  {
    ColumnOfUnique(sp, k, jj);
  }

  /** The inner loop of `GatherFromMat`: the nonzeros of column `jj` are read into their packed positions. */
  method GatherColumn(A: array2<real>, ai: int, aj: int, sp: Descriptor, out: array<real>, jj: int, ghost g: seq<real>)
    requires Compressed(sp) && out.Length >= Nnz(Some(sp)) && BlockFits(A.Length0, A.Length1, sp[0], sp[1], ai, aj)
    requires 0 <= jj < sp[1] && g == GatherMat(Matrix(A), A.Length1, sp, ai, aj)
    modifies out
    ensures forall k :: 0 <= k < out.Length ==>
      out[k] == if ColPtr(sp, jj) <= k < ColPtr(sp, jj + 1) then g[k] else old(out[k])
  {
    ghost var M := Matrix(A);
    var idx := ColPtr(sp, jj);
    while idx != ColPtr(sp, jj + 1)
      invariant ColPtr(sp, jj) <= idx <= ColPtr(sp, jj + 1)
      invariant forall k :: 0 <= k < out.Length ==>
        out[k] == if ColPtr(sp, jj) <= k < idx then g[k] else old(out[k])
      decreases ColPtr(sp, jj + 1) - idx
    {
      GatherMatEntry(M, A.Length1, sp, ai, aj, jj, idx);
      out[idx] := A[ai + RowAt(sp, idx), aj + jj];
      idx := idx + 1;
    }
  }

  /** Reads entry `(ai + row[idx], aj + jj)` into `out[idx]` for each nonzero, column by column. */
  method GatherFromMat(A: array2<real>, ai: int, aj: int, sp: Descriptor, out: array<real>)
    requires Compressed(sp) && out.Length >= Nnz(Some(sp)) && BlockFits(A.Length0, A.Length1, sp[0], sp[1], ai, aj)
    modifies out
    ensures out[..] == GatherMat(Matrix(A), A.Length1, sp, ai, aj) + old(out[..])[Nnz(Some(sp))..]
  {
    ghost var g := GatherMat(Matrix(A), A.Length1, sp, ai, aj);
    var jj := 0;
    while jj < sp[1]
      invariant 0 <= jj <= sp[1]
      invariant forall k :: 0 <= k < ColPtr(sp, jj) ==> out[k] == g[k]
      invariant forall k :: ColPtr(sp, jj) <= k < out.Length ==> out[k] == old(out[k])
    {
      GatherColumn(A, ai, aj, sp, out, jj, g);
      jj := jj + 1;
    }
    assert out[..] == g + old(out[..])[Nnz(Some(sp))..];
  }


  // ---------------------------------------------------------------------
  // d_cvt_casadi_to_dmat(_args) and d_cvt_dmat(_args)_to_casadi.
  // ---------------------------------------------------------------------

  /**
    `d_cvt_casadi_to_dmat_args`: nothing for an empty matrix; a dense pack
    when the caller reports the pattern dense; otherwise zero the block and
    store the nonzeros. Either way the block at `(ai, aj)` holds the scatter.
  */
  method CasadiToDmatArgs(v: array<real>, sp: Descriptor, A: array2<real>, ai: int, aj: int, isDense: bool)
    requires WellFormed(sp) && v.Length >= Nnz(Some(sp)) && BlockFits(A.Length0, A.Length1, sp[0], sp[1], ai, aj)
    requires isDense ==> Full(sp)
    requires !isDense && NRow(sp) > 0 && NCol(sp) > 0 ==> !DenseForm(sp)
    modifies A
    ensures Matrix(A) == ScatterMat(old(Matrix(A)), A.Length1, sp, v[..], ai, aj)
  {
    var nrow := sp[0];
    var ncol := sp[1];
    ghost var M := Matrix(A);
    if nrow <= 0 || ncol <= 0 {
      MatrixIs(A, ScatterMat(M, A.Length1, sp, v[..], ai, aj));
      return;
    }
    if isDense {
      FullScatterMatIsPack(M, A.Length1, sp, v[..], ai, aj);
      PackDmat(nrow, ncol, v, nrow, A, ai, aj);
    } else {
      Dgese(nrow, ncol, 0.0, A, ai, aj);
      ScatterIntoMat(v, sp, A, ai, aj);
      ZeroThenScatterMat(M, A.Length1, sp, v[..], ai, aj);
    }
  }

  /** `d_cvt_casadi_to_dmat`: the same conversion into the block at `(0, 0)`. */
  method CasadiToDmat(v: array<real>, sp: Descriptor, A: array2<real>, isDense: bool)
    requires WellFormed(sp) && v.Length >= Nnz(Some(sp)) && BlockFits(A.Length0, A.Length1, sp[0], sp[1], 0, 0)
    requires isDense ==> Full(sp)
    requires !isDense && NRow(sp) > 0 && NCol(sp) > 0 ==> !DenseForm(sp)
    modifies A
    ensures Matrix(A) == ScatterMat(old(Matrix(A)), A.Length1, sp, v[..], 0, 0)
  {
    CasadiToDmatArgs(v, sp, A, 0, 0, isDense);
  }

  /**
    `d_cvt_dmat_args_to_casadi`: nothing for an empty matrix; a dense
    unpack when the caller reports the pattern dense; otherwise read each
    nonzero out of its entry. Either way `out` starts with the gather.
  */
  method DmatArgsToCasadi(A: array2<real>, ai: int, aj: int, out: array<real>, sp: Descriptor, isDense: bool)
    requires WellFormed(sp) && out.Length >= Nnz(Some(sp)) && BlockFits(A.Length0, A.Length1, sp[0], sp[1], ai, aj)
    requires isDense ==> Full(sp)
    requires !isDense && NRow(sp) > 0 && NCol(sp) > 0 ==> !DenseForm(sp)
    modifies out
    ensures out[..] == GatherMat(Matrix(A), A.Length1, sp, ai, aj) + old(out[..])[Nnz(Some(sp))..]
  {
    var nrow := sp[0];
    var ncol := sp[1];
    if nrow <= 0 || ncol <= 0 {
      EmptyIsFull(sp);
      assert GatherMat(Matrix(A), A.Length1, sp, ai, aj) == [];
      return;
    }
    if isDense {
      FullNnz(sp);
      PackedSpan(nrow, ncol);
      FullGatherMatIsRead(Matrix(A), A.Length1, sp, ai, aj);
      ghost var o := out[..];
      UnpackDmat(nrow, ncol, A, ai, aj, out, nrow);
      BlockWritePacked(o, MatRead(Matrix(A), A.Length1, nrow, ncol, ai, aj), nrow, ncol);
    } else {
      GatherFromMat(A, ai, aj, sp, out);
    }
  }

  /** `d_cvt_dmat_to_casadi`: the same conversion out of the block at `(0, 0)`. */
  method DmatToCasadi(A: array2<real>, out: array<real>, sp: Descriptor, isDense: bool)
    requires WellFormed(sp) && out.Length >= Nnz(Some(sp)) && BlockFits(A.Length0, A.Length1, sp[0], sp[1], 0, 0)
    requires isDense ==> Full(sp)
    requires !isDense && NRow(sp) > 0 && NCol(sp) > 0 ==> !DenseForm(sp)
    modifies out
    ensures out[..] == GatherMat(Matrix(A), A.Length1, sp, 0, 0) + old(out[..])[Nnz(Some(sp))..]
  {
    DmatArgsToCasadi(A, 0, 0, out, sp, isDense);
  }

  // ---------------------------------------------------------------------
  // What a scatter or gather between a packed buffer and a vector computes.
  // The vector routines take a single column: `ncol` is 1, or the vector
  // is empty.
  // ---------------------------------------------------------------------

  /** Vector `x` with elements `xi..xi+nrow-1` holding the scatter of `v` by `sp`, unless there is no column. */
  function ScatterVec(x: seq<real>, sp: Descriptor, v: seq<real>, xi: int): (y: seq<real>)
    requires WellFormed(sp) && |v| >= Nnz(Some(sp)) && 0 <= xi && xi + sp[0] <= |x|
    ensures |y| == |x|
  {
    seq(|x|, t requires 0 <= t < |x| => VecEntry(x, sp, v, xi, t))
  }

  /** Element `t` of `ScatterVec`. */
  function VecEntry(x: seq<real>, sp: Descriptor, v: seq<real>, xi: int, t: int): real
    requires WellFormed(sp) && |v| >= Nnz(Some(sp)) && 0 <= xi && xi + sp[0] <= |x| && 0 <= t < |x|
  {
    if xi <= t < xi + sp[0] && sp[1] > 0 then Cell(sp, v, t - xi, 0) else x[t]
  }

  /** The nonzeros of a single-column `sp` read out of `x` from `xi` on, in packed order. */
  function GatherVec(x: seq<real>, sp: Descriptor, xi: int): (v: seq<real>)
    requires WellFormed(sp) && 0 <= xi && xi + sp[0] <= |x|
    ensures |v| == Nnz(Some(sp))
  {
    seq(Nnz(Some(sp)), k requires 0 <= k < Nnz(Some(sp)) => x[xi + Pos(sp, k).0])
  }

  /** Gathering a scattered single-column vector gives back the nonzeros. */
  lemma GatherVecAfterScatter(x: seq<real>, sp: Descriptor, v: seq<real>, xi: int)
    requires WellFormed(sp) && NCol(sp) <= 1 && |v| >= Nnz(Some(sp)) && 0 <= xi && xi + sp[0] <= |x|
    ensures GatherVec(ScatterVec(x, sp, v, xi), sp, xi) == v[..Nnz(Some(sp))]
  {
    var y := ScatterVec(x, sp, v, xi);
    forall k | 0 <= k < Nnz(Some(sp))
      ensures GatherVec(y, sp, xi)[k] == v[k]
    {
      CellOfPos(sp, v, k);
      assert y[xi + Pos(sp, k).0] == VecEntry(x, sp, v, xi, xi + Pos(sp, k).0);
    }
  }

  /**
    Scattering what was gathered keeps the elements of the pattern, clears
    the other elements of the range and leaves the rest of the vector alone.
  */
  lemma ScatterVecAfterGather(x: seq<real>, sp: Descriptor, xi: int)
    requires WellFormed(sp) && 0 <= xi && xi + sp[0] <= |x|
    ensures var y := ScatterVec(x, sp, GatherVec(x, sp, xi), xi);
            forall t :: 0 <= t < |x| ==>
              y[t] == if xi <= t < xi + sp[0] && sp[1] > 0 && !InPattern(sp, t - xi, 0) then 0.0 else x[t]
  {
    var g := GatherVec(x, sp, xi);
    var y := ScatterVec(x, sp, g, xi);
    forall t | 0 <= t < |x|
      ensures y[t] == if xi <= t < xi + sp[0] && sp[1] > 0 && !InPattern(sp, t - xi, 0) then 0.0 else x[t]
    {
      assert y[t] == VecEntry(x, sp, g, xi, t);
      VecGatheredEntry(x, sp, xi, t);
    }
  }

  /** Element `t` of the scatter of what was gathered. */
  lemma VecGatheredEntry(x: seq<real>, sp: Descriptor, xi: int, t: int)
    requires WellFormed(sp) && 0 <= xi && xi + sp[0] <= |x| && 0 <= t < |x|
    ensures VecEntry(x, sp, GatherVec(x, sp, xi), xi, t) ==
            if xi <= t < xi + sp[0] && sp[1] > 0 && !InPattern(sp, t - xi, 0) then 0.0 else x[t]
  {
    if xi <= t < xi + sp[0] && sp[1] > 0 && InPattern(sp, t - xi, 0) {
      PosOfLookup(sp, t - xi, 0);
      assert xi + (t - xi) == t;
    }
  }

  /** For a full single column the scatter copies `nrow` values into place. */
  lemma FullScatterVecIsPack(x: seq<real>, sp: Descriptor, v: seq<real>, xi: int)
    requires WellFormed(sp) && Full(sp) && NCol(sp) == 1 && |v| >= Nnz(Some(sp)) && 0 <= xi && xi + sp[0] <= |x|
    ensures Nnz(Some(sp)) == NRow(sp)
    ensures ScatterVec(x, sp, v, xi) == x[..xi] + v[..sp[0]] + x[xi + sp[0]..]
  {
    FullNnz(sp);
    var y := ScatterVec(x, sp, v, xi);
    var z := x[..xi] + v[..sp[0]] + x[xi + sp[0]..];
    forall t | 0 <= t < |x|
      ensures y[t] == z[t]
    {
      assert y[t] == VecEntry(x, sp, v, xi, t);
      if xi <= t < xi + sp[0] {
        FullLookup(sp, t - xi, 0);
      }
    }
  }

  /** For a full single column the gather reads `nrow` consecutive elements. */
  lemma FullGatherVecIsRead(x: seq<real>, sp: Descriptor, xi: int)
    requires WellFormed(sp) && Full(sp) && NCol(sp) == 1 && 0 <= xi && xi + sp[0] <= |x|
    ensures GatherVec(x, sp, xi) == x[xi..xi + sp[0]]
  {
    FullNnz(sp);
    forall k | 0 <= k < Nnz(Some(sp))
      ensures GatherVec(x, sp, xi)[k] == x[xi + k]
    {
      FullPos(sp, k);
    }
  }

  // ---------------------------------------------------------------------
  // The sparse loops on vectors.
  // ---------------------------------------------------------------------

  /** Vector `x` after the scatter loop has stored entries `colptr[0]..idx-1`; other elements keep their value. */
  function ScatterVecPart(x: seq<real>, sp: Descriptor, v: seq<real>, xi: int, idx: int): (y: seq<real>)
    requires Compressed(sp) && sp[1] == 1 && |v| >= Nnz(Some(sp)) && 0 <= xi && xi + sp[0] <= |x|
    requires ColPtr(sp, 0) <= idx <= ColPtr(sp, 1)
    ensures |y| == |x|
  {
    seq(|x|, t requires 0 <= t < |x| =>
      if xi <= t < xi + sp[0] then
        var k := LookupIn(sp, t - xi, ColPtr(sp, 0), idx);
        if k >= 0 then v[k] else x[t]
      else x[t])
  }

  /** Before the loop no element has been written. */
  lemma ScatterVecStart(x: seq<real>, sp: Descriptor, v: seq<real>, xi: int)
    requires Compressed(sp) && sp[1] == 1 && |v| >= Nnz(Some(sp)) && 0 <= xi && xi + sp[0] <= |x|
    ensures ScatterVecPart(x, sp, v, xi, ColPtr(sp, 0)) == x
  {
    var y := ScatterVecPart(x, sp, v, xi, ColPtr(sp, 0));
    forall t | 0 <= t < |x|
      ensures y[t] == x[t]
    {
      if xi <= t < xi + sp[0] {
        assert LookupIn(sp, t - xi, ColPtr(sp, 0), ColPtr(sp, 0)) == -1;
      }
    }
  }

  /** Storing entry `idx` changes exactly element `xi + row[idx]`, to `v[idx]`. */
  lemma ScatterVecStep(x: seq<real>, sp: Descriptor, v: seq<real>, xi: int, idx: int)
    requires Compressed(sp) && sp[1] == 1 && |v| >= Nnz(Some(sp)) && 0 <= xi && xi + sp[0] <= |x|
    requires ColPtr(sp, 0) <= idx < ColPtr(sp, 1)
    ensures 0 <= RowAt(sp, idx) < sp[0] && idx < |v|
    ensures ScatterVecPart(x, sp, v, xi, idx + 1) == ScatterVecPart(x, sp, v, xi, idx)[xi + RowAt(sp, idx) := v[idx]]
  {
    var r := RowAt(sp, idx);
    EntryRow(sp, 0, idx);
    var y, z := ScatterVecPart(x, sp, v, xi, idx + 1), ScatterVecPart(x, sp, v, xi, idx);
    forall t | 0 <= t < |x|
      ensures y[t] == z[xi + r := v[idx]][t]
    {
      if xi <= t < xi + sp[0] {
        LookupInExtend(sp, t - xi, ColPtr(sp, 0), idx);
      }
    }
  }

  /** Zeroing the range and then scattering the column is the scatter. */
  lemma ZeroThenScatterVec(x: seq<real>, sp: Descriptor, v: seq<real>, xi: int)
    requires Compressed(sp) && sp[1] == 1 && |v| >= Nnz(Some(sp)) && 0 <= xi && xi + sp[0] <= |x|
    ensures var z := x[..xi] + Constant(sp[0], 0.0) + x[xi + sp[0]..];
            ScatterVecPart(z, sp, v, xi, ColPtr(sp, 1)) == ScatterVec(x, sp, v, xi)
  {
    var z := x[..xi] + Constant(sp[0], 0.0) + x[xi + sp[0]..];
    var y, w := ScatterVecPart(z, sp, v, xi, ColPtr(sp, 1)), ScatterVec(x, sp, v, xi);
    forall t | 0 <= t < |x|
      ensures y[t] == w[t]
    {
      assert w[t] == VecEntry(x, sp, v, xi, t);
    }
  }

  /** Stores each nonzero `v[idx]` of the column at element `xi + row[idx]`. */
  method ScatterIntoVec(v: array<real>, sp: Descriptor, x: array<real>, xi: int)
    requires Compressed(sp) && sp[1] == 1 && v.Length >= Nnz(Some(sp)) && 0 <= xi && xi + sp[0] <= x.Length && v != x
    modifies x
    ensures x[..] == ScatterVecPart(old(x[..]), sp, v[..], xi, ColPtr(sp, 1))
  {
    ghost var x0 := x[..];
    ghost var vs := v[..];
    ScatterVecStart(x0, sp, vs, xi);
    var ptr := 0;
    var idx := ColPtr(sp, 0);
    while idx != ColPtr(sp, 1)
      invariant ColPtr(sp, 0) <= idx <= ColPtr(sp, 1) && ptr == idx
      invariant x[..] == ScatterVecPart(x0, sp, vs, xi, idx)
      decreases ColPtr(sp, 1) - idx
    {
      ScatterVecStep(x0, sp, vs, xi, idx);
      x[xi + RowAt(sp, idx)] := v[ptr];
      ptr := ptr + 1;
      idx := idx + 1;
    }
  }

  /** Reads element `xi + row[idx]` into `out[idx]` for each nonzero of the column. */
  method GatherFromVec(x: array<real>, xi: int, sp: Descriptor, out: array<real>)
    requires Compressed(sp) && sp[1] == 1 && out.Length >= Nnz(Some(sp)) && 0 <= xi && xi + sp[0] <= x.Length && x != out
    modifies out
    ensures out[..] == GatherVec(x[..], sp, xi) + old(out[..])[Nnz(Some(sp))..]
  {
    ghost var g := GatherVec(x[..], sp, xi);
    var ptr := 0;
    var idx := ColPtr(sp, 0);
    while idx != ColPtr(sp, 1)
      invariant ColPtr(sp, 0) <= idx <= ColPtr(sp, 1) && ptr == idx
      invariant forall k :: 0 <= k < ptr ==> out[k] == g[k]
      invariant forall k :: ptr <= k < out.Length ==> out[k] == old(out[k])
      decreases ColPtr(sp, 1) - idx
    {
      ColumnOfUnique(sp, idx, 0);
      out[ptr] := x[xi + RowAt(sp, idx)];
      ptr := ptr + 1;
      idx := idx + 1;
    }
    assert out[..] == g + old(out[..])[Nnz(Some(sp))..];
  }

  // ---------------------------------------------------------------------
  // d_cvt_casadi_to_dvec(_args) and d_cvt_dvec(_args)_to_casadi.
  // ---------------------------------------------------------------------

  /**
    `d_cvt_casadi_to_dvec_args` with the empty-vector guard covering both
    dimensions: nothing for an empty vector; a pack of `nrow` values when the
    caller reports the pattern dense; otherwise zero the range and store the
    nonzeros.
  */
  method CasadiToDvecArgs(v: array<real>, sp: Descriptor, x: array<real>, xi: int, isDense: bool)
    requires WellFormed(sp) && (NCol(sp) == 1 || NRow(sp) == 0 || NCol(sp) == 0)
    requires v.Length >= Nnz(Some(sp)) && 0 <= xi && xi + sp[0] <= x.Length && v != x
    requires isDense ==> Full(sp)
    requires !isDense && NRow(sp) > 0 && NCol(sp) > 0 ==> !DenseForm(sp)
    modifies x
    ensures x[..] == ScatterVec(old(x[..]), sp, v[..], xi)
  {
    var n := sp[0];
    if n <= 0 || sp[1] <= 0 {
      assert x[..] == ScatterVec(x[..], sp, v[..], xi);
      return;
    }
    if isDense {
      FullScatterVecIsPack(x[..], sp, v[..], xi);
      PackDvec(n, v, x, xi);
    } else {
      ghost var x0 := x[..];
      Dvecse(n, 0.0, x, xi);
      ScatterIntoVec(v, sp, x, xi);
      ZeroThenScatterVec(x0, sp, v[..], xi);
    }
  }

  /** `d_cvt_casadi_to_dvec`: the same conversion into the vector from element 0. */
  method CasadiToDvec(v: array<real>, sp: Descriptor, x: array<real>, isDense: bool)
    requires WellFormed(sp) && (NCol(sp) == 1 || NRow(sp) == 0 || NCol(sp) == 0)
    requires v.Length >= Nnz(Some(sp)) && sp[0] <= x.Length && v != x
    requires isDense ==> Full(sp)
    requires !isDense && NRow(sp) > 0 && NCol(sp) > 0 ==> !DenseForm(sp)
    modifies x
    ensures x[..] == ScatterVec(old(x[..]), sp, v[..], 0)
  {
    CasadiToDvecArgs(v, sp, x, 0, isDense);
  }

  /**
    `d_cvt_dvec_args_to_casadi` with the empty-vector guard covering both
    dimensions: nothing for an empty vector; an unpack of `nrow` values when
    the caller reports the pattern dense; otherwise read each nonzero.
  */
  method DvecArgsToCasadi(x: array<real>, xi: int, out: array<real>, sp: Descriptor, isDense: bool)
    requires WellFormed(sp) && (NCol(sp) == 1 || NRow(sp) == 0 || NCol(sp) == 0)
    requires out.Length >= Nnz(Some(sp)) && 0 <= xi && xi + sp[0] <= x.Length && x != out
    requires isDense ==> Full(sp)
    requires !isDense && NRow(sp) > 0 && NCol(sp) > 0 ==> !DenseForm(sp)
    modifies out
    ensures out[..] == GatherVec(x[..], sp, xi) + old(out[..])[Nnz(Some(sp))..]
  {
    var n := sp[0];
    if n <= 0 || sp[1] <= 0 {
      EmptyIsFull(sp);
      assert GatherVec(x[..], sp, xi) == [];
      return;
    }
    if isDense {
      FullNnz(sp);
      FullGatherVecIsRead(x[..], sp, xi);
      UnpackDvec(n, x, xi, out);
    } else {
      GatherFromVec(x, xi, sp, out);
    }
  }

  /** `d_cvt_dvec_to_casadi`: the same conversion out of the vector from element 0. */
  method DvecToCasadi(x: array<real>, out: array<real>, sp: Descriptor, isDense: bool)
    requires WellFormed(sp) && (NCol(sp) == 1 || NRow(sp) == 0 || NCol(sp) == 0)
    requires out.Length >= Nnz(Some(sp)) && sp[0] <= x.Length && x != out
    requires isDense ==> Full(sp)
    requires !isDense && NRow(sp) > 0 && NCol(sp) > 0 ==> !DenseForm(sp)
    modifies out
    ensures out[..] == GatherVec(x[..], sp, 0) + old(out[..])[Nnz(Some(sp))..]
  {
    DvecArgsToCasadi(x, 0, out, sp, isDense);
  }

  // ---------------------------------------------------------------------
  // The vector routines as written: the guard returns only when nrow <= 0.
  // ---------------------------------------------------------------------

  /**
    `d_cvt_casadi_to_dvec_args` as written. With `nrow > 0` and no column the
    pattern reports dense and holds no nonzero, yet the dense branch reads
    `nrow` values from the buffer. When that read would run past `v` the
    model reports `overrun` and leaves `x` alone.
  */
  method CasadiToDvecArgsAsWritten(v: array<real>, sp: Descriptor, x: array<real>, xi: int, isDense: bool)
    returns (overrun: bool)
    requires WellFormed(sp) && (NCol(sp) == 1 || NRow(sp) == 0 || NCol(sp) == 0)
    requires v.Length >= Nnz(Some(sp)) && 0 <= xi && xi + sp[0] <= x.Length && v != x
    requires isDense ==> Full(sp)
    requires !isDense && NRow(sp) > 0 ==> Compressed(sp) && NCol(sp) == 1
    modifies x
    ensures overrun <==> isDense && NRow(sp) > v.Length
    ensures overrun ==> x[..] == old(x[..])
    ensures !overrun ==> x[..] == if NRow(sp) <= 0 then old(x[..])
                                  else if isDense then old(x[..])[..xi] + v[..NRow(sp)] + old(x[..])[xi + NRow(sp)..]
                                  else ScatterVec(old(x[..]), sp, v[..], xi)
  {
    var n := sp[0];
    overrun := isDense && n > v.Length;
    if n <= 0 {
      return;
    }
    if isDense {
      if overrun {
        return;
      }
      PackDvec(n, v, x, xi);
    } else {
      ghost var x0 := x[..];
      Dvecse(n, 0.0, x, xi);
      ScatterIntoVec(v, sp, x, xi);
      ZeroThenScatterVec(x0, sp, v[..], xi);
    }
  }

  /** `d_cvt_casadi_to_dvec` as written: the same conversion into the vector from element 0. */
  method CasadiToDvecAsWritten(v: array<real>, sp: Descriptor, x: array<real>, isDense: bool)
    returns (overrun: bool)
    requires WellFormed(sp) && (NCol(sp) == 1 || NRow(sp) == 0 || NCol(sp) == 0)
    requires v.Length >= Nnz(Some(sp)) && sp[0] <= x.Length && v != x
    requires isDense ==> Full(sp)
    requires !isDense && NRow(sp) > 0 ==> Compressed(sp) && NCol(sp) == 1
    modifies x
    ensures overrun <==> isDense && NRow(sp) > v.Length
    ensures overrun ==> x[..] == old(x[..])
    ensures !overrun ==> x[..] == if NRow(sp) <= 0 then old(x[..])
                                  else if isDense then v[..NRow(sp)] + old(x[..])[NRow(sp)..]
                                  else ScatterVec(old(x[..]), sp, v[..], 0)
  {
    overrun := CasadiToDvecArgsAsWritten(v, sp, x, 0, isDense);
    if !overrun && NRow(sp) > 0 && isDense {
      assert old(x[..])[..0] == [];
    }
  }

  /**
    `d_cvt_dvec_args_to_casadi` as written. With `nrow > 0` and no column the
    dense branch writes `nrow` values into a buffer meant for no nonzero.
    When that write would run past `out` the model reports `overrun` and
    leaves `out` alone.
  */
  method DvecArgsToCasadiAsWritten(x: array<real>, xi: int, out: array<real>, sp: Descriptor, isDense: bool)
    returns (overrun: bool)
    requires WellFormed(sp) && (NCol(sp) == 1 || NRow(sp) == 0 || NCol(sp) == 0)
    requires out.Length >= Nnz(Some(sp)) && 0 <= xi && xi + sp[0] <= x.Length && x != out
    requires isDense ==> Full(sp)
    requires !isDense && NRow(sp) > 0 ==> Compressed(sp) && NCol(sp) == 1
    modifies out
    ensures overrun <==> isDense && NRow(sp) > out.Length
    ensures overrun ==> out[..] == old(out[..])
    ensures !overrun ==> out[..] == if NRow(sp) <= 0 then old(out[..])
                                    else if isDense then x[xi..xi + NRow(sp)] + old(out[..])[NRow(sp)..]
                                    else GatherVec(x[..], sp, xi) + old(out[..])[Nnz(Some(sp))..]
  {
    var n := sp[0];
    overrun := isDense && n > out.Length;
    if n <= 0 {
      return;
    }
    if isDense {
      if overrun {
        return;
      }
      UnpackDvec(n, x, xi, out);
    } else {
      GatherFromVec(x, xi, sp, out);
    }
  }

  /** `d_cvt_dvec_to_casadi` as written: the same conversion out of the vector from element 0. */
  method DvecToCasadiAsWritten(x: array<real>, out: array<real>, sp: Descriptor, isDense: bool)
    returns (overrun: bool)
    requires WellFormed(sp) && (NCol(sp) == 1 || NRow(sp) == 0 || NCol(sp) == 0)
    requires out.Length >= Nnz(Some(sp)) && sp[0] <= x.Length && x != out
    requires isDense ==> Full(sp)
    requires !isDense && NRow(sp) > 0 ==> Compressed(sp) && NCol(sp) == 1
    modifies out
    ensures overrun <==> isDense && NRow(sp) > out.Length
    ensures overrun ==> out[..] == old(out[..])
    ensures !overrun ==> out[..] == if NRow(sp) <= 0 then old(out[..])
                                    else if isDense then x[..NRow(sp)] + old(out[..])[NRow(sp)..]
                                    else GatherVec(x[..], sp, 0) + old(out[..])[Nnz(Some(sp))..]
  {
    overrun := DvecArgsToCasadiAsWritten(x, 0, out, sp, isDense);
  }

  /**
    A vector with rows but no column is reported dense and has no nonzero,
    so the as-written routines move `nrow` values where the intended ones
    move none and leave the vector as it was.
  */
  lemma NoColumnMovesNothing(sp: Descriptor, x: seq<real>, v: seq<real>, xi: int)
    requires WellFormed(sp) && NCol(sp) == 0 && NRow(sp) > 0 && 0 <= xi && xi + sp[0] <= |x|
    ensures IsDense(Some(sp)) && Full(sp) && Nnz(Some(sp)) == 0 < NRow(sp)
    ensures ScatterVec(x, sp, v, xi) == x && GatherVec(x, sp, xi) == []
  {
    EmptyIsFull(sp);
    assert ScatterVec(x, sp, v, xi) == x;
  }

  /** The column-less descriptor `[2, 0, 0]` is one such vector. */
  lemma TwoRowsNoColumn(sp: Descriptor)
    requires sp == [2, 0, 0]
    ensures WellFormed(sp) && NCol(sp) == 0 && NRow(sp) == 2 && !DenseForm(sp)
  {
  }
}
