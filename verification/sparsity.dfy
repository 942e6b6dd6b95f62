/**
  The CasADi sparsity descriptor and the two queries acados runs on it
  (`casadi_nnz`, `casadi_is_dense`), plus the correspondence between the
  cells of the pattern and the positions of the packed nonzero buffer that
  every conversion routine relies on.
*/
module Sparsity {
  import opened Wrappers
  import opened Arith

  /**
    A descriptor in CasADi's compressed-column layout
    `[nrow, ncol, colptr[0..ncol], row[0..nnz)]`, or the compact dense form
    `[nrow, ncol, 1]`. Entry 2 is both the dense flag and `colptr[0]`.
  */
  type Descriptor = seq<int>

  function NRow(sp: Descriptor): int
    requires |sp| >= 3
  {
    sp[0]
  }

  function NCol(sp: Descriptor): int
    requires |sp| >= 3
  {
    sp[1]
  }

  /** The compact dense form: the flag in entry 2 is set. */
  predicate DenseForm(sp: Descriptor)
    requires |sp| >= 3
  {
    sp[2] != 0
  }

  /** `colptr[j]`, stored at entry `2 + j`. */
  function ColPtr(sp: Descriptor, j: int): int
    requires |sp| >= 3 && 0 <= j <= sp[1] && sp[1] + 3 <= |sp|
  {
    sp[2 + j]
  }

  /** `row[idx]`, stored at entry `ncol + 3 + idx`. */
  function RowAt(sp: Descriptor, idx: int): int
    requires |sp| >= 3 && 0 <= sp[1] && 0 <= idx && sp[1] + 3 + idx < |sp|
  {
    sp[sp[1] + 3 + idx]
  }

  /**
    What CasADi guarantees of a descriptor: non-negative dimensions and, in
    the compressed form, a monotone column pointer starting at 0 (entry 2 is
    0 there), a row array of exactly `colptr[ncol]` entries, row indices in
    `[0, nrow)`, strictly increasing within each column.
  */
  predicate WellFormed(sp: Descriptor)
  {
    && |sp| >= 3 && sp[0] >= 0 && sp[1] >= 0
    && (!DenseForm(sp) ==>
          && sp[1] + 3 <= |sp|
          && (forall i, j :: 0 <= i <= j <= sp[1] ==> ColPtr(sp, i) <= ColPtr(sp, j))
          && (forall j :: 0 <= j <= sp[1] ==> 0 <= ColPtr(sp, j) <= ColPtr(sp, sp[1]))
          && |sp| == sp[1] + 3 + ColPtr(sp, sp[1])
          && (forall idx :: 0 <= idx < ColPtr(sp, sp[1]) ==> 0 <= RowAt(sp, idx) < sp[0])
          && (forall j :: 0 <= j < sp[1] ==> RowsIncrease(sp, j)))
  }

  /** The row indices of column `j` strictly increase. */
  predicate RowsIncrease(sp: Descriptor, j: int)
    requires |sp| >= 3 && 0 <= j < sp[1] && sp[1] + 3 <= |sp|
    requires sp[1] + 3 + ColPtr(sp, sp[1]) <= |sp| && 0 <= ColPtr(sp, j) && ColPtr(sp, j + 1) <= ColPtr(sp, sp[1])
  {
    forall a, b :: ColPtr(sp, j) <= a < b < ColPtr(sp, j + 1) ==> RowAt(sp, a) < RowAt(sp, b)
  }

  /** A well-formed descriptor in the compressed form. */
  predicate Compressed(sp: Descriptor)
  {
    WellFormed(sp) && !DenseForm(sp)
  }

  /** The nonzero count of columns `0..n-1`, summed column by column as `casadi_nnz` does. */
  function ColumnCounts(sp: Descriptor, n: int): int
    requires Compressed(sp) && 0 <= n <= sp[1]
  {
    if n == 0 then 0 else ColumnCounts(sp, n - 1) + (ColPtr(sp, n) - ColPtr(sp, n - 1))
  }

  /** The column-by-column sum telescopes to the difference of the outer column pointers. */
  lemma {:induction false} ColumnCountsTelescope(sp: Descriptor, n: int)
    requires Compressed(sp) && 0 <= n <= sp[1]
    ensures ColumnCounts(sp, n) == ColPtr(sp, n) - ColPtr(sp, 0)
  {
    if n > 0 {
      ColumnCountsTelescope(sp, n - 1);
    }
  }

  /**
    `casadi_nnz`: 0 for a NULL descriptor, `nrow * ncol` in the dense form,
    otherwise the sum of the column counts, which is `colptr[ncol]`.
  */
  function Nnz(osp: Option<Descriptor>): (nnz: int)
    requires osp.Some? ==> WellFormed(osp.value)
    ensures nnz >= 0
    ensures osp.Some? && !DenseForm(osp.value) ==> nnz == ColPtr(osp.value, NCol(osp.value))
  {
    match osp
    case None => 0
    case Some(sp) =>
      if DenseForm(sp) then MulMono(sp[0], 0, sp[1]); sp[0] * sp[1]
      else ColumnCountsTelescope(sp, sp[1]); ColumnCounts(sp, sp[1])
  }

  /** Entries `idx..colptr[jj+1]-1` of column `jj` satisfy `row[idx] + jj * stride == idx`. */
  function RowsFollow(sp: Descriptor, jj: int, stride: int, idx: int): bool
    requires Compressed(sp) && 0 <= jj < sp[1]
    requires ColPtr(sp, jj) <= idx <= ColPtr(sp, jj + 1)
    decreases ColPtr(sp, jj + 1) - idx
  {
    idx == ColPtr(sp, jj + 1) || (RowAt(sp, idx) + jj * stride == idx && RowsFollow(sp, jj, stride, idx + 1))
  }

  /** The fake-sparse scan of `casadi_is_dense` over columns `jj..ncol-1`. */
  function ColumnsFollow(sp: Descriptor, jj: int, stride: int): bool
    requires Compressed(sp) && 0 <= jj <= sp[1]
    decreases sp[1] - jj
  {
    jj == sp[1] ||
    (ColPtr(sp, jj + 1) - ColPtr(sp, jj) == sp[0] &&
     RowsFollow(sp, jj, stride, ColPtr(sp, jj)) &&
     ColumnsFollow(sp, jj + 1, stride))
  }

  /**
    `casadi_is_dense`, with the choice of multiplier in the row check
    (`ncol` or `nrow`) as a parameter:
    NULL, an empty matrix and the dense form are dense; otherwise every
    column must hold `nrow` entries whose row index plus `jj * stride` is
    their position in the row array.
  */
  function DenseTest(osp: Option<Descriptor>, strideIsNcol: bool): bool
    requires osp.Some? ==> WellFormed(osp.value)
  {
    match osp
    case None => true
    case Some(sp) =>
      if sp[0] <= 0 || sp[1] <= 0 then true
      else if DenseForm(sp) then true
      else ColumnsFollow(sp, 0, if strideIsNcol then sp[1] else sp[0])
  }

  /** `casadi_is_dense` as written: the row check multiplies the column by `ncol`. */
  function IsDenseAsWritten(osp: Option<Descriptor>): bool
    requires osp.Some? ==> WellFormed(osp.value)
  {
    DenseTest(osp, true)
  }

  /** `casadi_is_dense` as intended: the row check multiplies the column by `nrow`. */
  function IsDense(osp: Option<Descriptor>): bool
    requires osp.Some? ==> WellFormed(osp.value)
  {
    DenseTest(osp, false)
  }

  /**
    The pattern covers every cell in column-major order: the dense form, or
    a compressed pattern whose column `c` starts at `c * nrow` and lists rows
    `0, 1, ..., nrow-1`.
  */
  predicate Full(sp: Descriptor)
    requires WellFormed(sp)
  {
    DenseForm(sp) ||
    ((forall c :: 0 <= c <= sp[1] ==> ColPtr(sp, c) == c * sp[0]) &&
     (forall c, idx :: 0 <= c < sp[1] && ColPtr(sp, c) <= idx < ColPtr(sp, c + 1) ==>
        RowAt(sp, idx) == idx - ColPtr(sp, c)))
  }

  /** The last entry in `[lo, hi)` of the row array whose row index is `r`, or -1. */
  function LookupIn(sp: Descriptor, r: int, lo: int, hi: int): (k: int)
    requires Compressed(sp) && 0 <= lo <= hi <= ColPtr(sp, sp[1])
    ensures k == -1 || (lo <= k < hi && RowAt(sp, k) == r)
    ensures k == -1 <==> (forall i :: lo <= i < hi ==> RowAt(sp, i) != r)
    ensures k != -1 ==> forall i :: k < i < hi ==> RowAt(sp, i) != r
    decreases hi - lo
  {
    if lo == hi then -1
    else if RowAt(sp, hi - 1) == r then hi - 1
    else LookupIn(sp, r, lo, hi - 1)
  }

  /** The packed position of cell `(r, c)`, or -1 when the cell is not in the pattern. */
  function Lookup(sp: Descriptor, r: int, c: int): (k: int)
    requires WellFormed(sp) && 0 <= r < NRow(sp) && 0 <= c < NCol(sp)
    ensures -1 <= k < Nnz(Some(sp))
  {
    if DenseForm(sp) then AddrBelowPacked(r, c, sp[0], sp[1]); Addr(r, c, sp[0])
    else LookupIn(sp, r, ColPtr(sp, c), ColPtr(sp, c + 1))
  }

  /** Cell `(r, c)` is one of the pattern's nonzero positions. */
  predicate InPattern(sp: Descriptor, r: int, c: int)
    requires WellFormed(sp) && 0 <= r < NRow(sp) && 0 <= c < NCol(sp)
  {
    Lookup(sp, r, c) >= 0
  }

  /** The column holding packed position `k`, searched from column `c` on. */
  function ColumnOf(sp: Descriptor, k: int, c: int): (col: int)
    requires Compressed(sp) && 0 <= c < sp[1] && ColPtr(sp, c) <= k < ColPtr(sp, sp[1])
    ensures c <= col < sp[1] && ColPtr(sp, col) <= k < ColPtr(sp, col + 1)
    decreases sp[1] - c
  {
    if k < ColPtr(sp, c + 1) then c else ColumnOf(sp, k, c + 1)
  }

  /** The cell `(row, column)` that packed position `k` stands for. */
  function Pos(sp: Descriptor, k: int): (rc: (int, int))
    requires WellFormed(sp) && 0 <= k < Nnz(Some(sp))
    ensures 0 <= rc.0 < NRow(sp) && 0 <= rc.1 < NCol(sp)
  {
    if DenseForm(sp) then
      SplitBelow(k, sp[0], sp[1]);
      (k % sp[0], k / sp[0])
    else
      var c := ColumnOf(sp, k, 0);
      (RowAt(sp, k), c)
  }

  /**
    The value a scatter leaves in cell `(r, c)`: the packed value for that
    cell, or 0 outside the pattern.
  */
  function Cell(sp: Descriptor, v: seq<real>, r: int, c: int): real
    requires WellFormed(sp) && |v| >= Nnz(Some(sp))
    requires 0 <= r < NRow(sp) && 0 <= c < NCol(sp)
  {
    var k := Lookup(sp, r, c);
    if k >= 0 then v[k] else 0.0
  }

  // ---------------------------------------------------------------------
  // Cells and packed positions correspond one to one.
  // ---------------------------------------------------------------------

  /** Entry `idx` of column `jj` is an entry of the row array, and its row lies inside the pattern. */
  lemma EntryRow(sp: Descriptor, jj: int, idx: int)
    requires Compressed(sp) && 0 <= jj < sp[1] && ColPtr(sp, jj) <= idx < ColPtr(sp, jj + 1)
    ensures 0 <= idx < ColPtr(sp, sp[1]) && 0 <= RowAt(sp, idx) < sp[0]
  {
    assert ColPtr(sp, jj + 1) <= ColPtr(sp, sp[1]);
  }

  /** Looking up the cell of packed position `k` gives `k` back. */
  lemma LookupOfPos(sp: Descriptor, k: int)
    requires WellFormed(sp) && 0 <= k < Nnz(Some(sp))
    ensures Lookup(sp, Pos(sp, k).0, Pos(sp, k).1) == k
  {
    var (r, c) := Pos(sp, k);
    if DenseForm(sp) {
      Split(k, sp[0]);
    } else {
      var hi := ColPtr(sp, c + 1);
      var k' := LookupIn(sp, r, ColPtr(sp, c), hi);
      assert ColPtr(sp, c) <= k < hi;
      assert RowsIncrease(sp, c);
    }
  }

  /** A cell of the pattern is the cell of its packed position. */
  lemma PosOfLookup(sp: Descriptor, r: int, c: int)
    requires WellFormed(sp) && 0 <= r < NRow(sp) && 0 <= c < NCol(sp)
    requires InPattern(sp, r, c)
    ensures Pos(sp, Lookup(sp, r, c)) == (r, c)
  {
    var k := Lookup(sp, r, c);
    if DenseForm(sp) {
      Decode(r, c, sp[0]);
    } else {
      var col := ColumnOf(sp, k, 0);
    }
  }

  /** A packed position between `colptr[jj]` and `colptr[jj+1]` stands for a cell of column `jj`. */
  lemma ColumnOfUnique(sp: Descriptor, k: int, jj: int)
    requires Compressed(sp) && 0 <= jj < sp[1] && ColPtr(sp, jj) <= k < ColPtr(sp, jj + 1)
    ensures Pos(sp, k) == (RowAt(sp, k), jj)
  {
    var col := ColumnOf(sp, k, 0);
  }

  /** Scattering then reading packed position `k` back returns `v[k]`. */
  lemma CellOfPos(sp: Descriptor, v: seq<real>, k: int)
    requires WellFormed(sp) && |v| >= Nnz(Some(sp)) && 0 <= k < Nnz(Some(sp))
    ensures Cell(sp, v, Pos(sp, k).0, Pos(sp, k).1) == v[k]
  {
    LookupOfPos(sp, k);
  }

  // ---------------------------------------------------------------------
  // Full patterns: the dense branch and the scatter branch agree.
  // ---------------------------------------------------------------------

  /** In a full pattern every cell is present at its column-major address, and `nnz == nrow * ncol`. */
  lemma FullLookup(sp: Descriptor, r: int, c: int)
    requires WellFormed(sp) && Full(sp) && 0 <= r < NRow(sp) && 0 <= c < NCol(sp)
    ensures Lookup(sp, r, c) == Addr(r, c, NRow(sp))
    ensures Nnz(Some(sp)) == NRow(sp) * NCol(sp)
  {
    FullNnz(sp);
    if !DenseForm(sp) {
      var nrow := sp[0];
      var lo, hi := ColPtr(sp, c), ColPtr(sp, c + 1);
      Distrib(c + 1, 1, nrow);
      assert lo == c * nrow && hi == c * nrow + nrow;
      var idx := lo + r;
      assert lo <= idx < hi;
      assert RowAt(sp, idx) == r;
      var k := LookupIn(sp, r, lo, hi);
      assert k != -1;
      assert RowAt(sp, k) == k - lo;
    }
  }

  /** In a full pattern packed position `k` stands for the cell at column-major address `k`. */
  lemma FullPos(sp: Descriptor, k: int)
    requires WellFormed(sp) && Full(sp) && 0 <= k < Nnz(Some(sp))
    ensures NRow(sp) > 0 && Pos(sp, k) == (k % NRow(sp), k / NRow(sp))
  {
    var (r, c) := Pos(sp, k);
    LookupOfPos(sp, k);
    FullLookup(sp, r, c);
    Decode(r, c, sp[0]);
  }

  /** A full pattern's nonzero count is `nrow * ncol`, also when it is empty. */
  lemma FullNnz(sp: Descriptor)
    requires WellFormed(sp) && Full(sp)
    ensures Nnz(Some(sp)) == NRow(sp) * NCol(sp)
  {
    if !DenseForm(sp) {
      assert ColPtr(sp, sp[1]) == sp[1] * sp[0];
    }
  }

  /** A compressed pattern with entries has rows. */
  lemma EntriesNeedRows(sp: Descriptor)
    requires Compressed(sp)
    ensures ColPtr(sp, sp[1]) > 0 ==> sp[0] > 0
  {
    if ColPtr(sp, sp[1]) > 0 {
      assert 0 <= RowAt(sp, 0) < sp[0];
    }
  }

  /** With an empty dimension a compressed pattern has no entries and is full. */
  lemma EmptyIsFull(sp: Descriptor)
    requires WellFormed(sp) && (NRow(sp) == 0 || NCol(sp) == 0)
    ensures Full(sp) && Nnz(Some(sp)) == 0
  {
    if !DenseForm(sp) {
      EntriesNeedRows(sp);
      forall c | 0 <= c <= sp[1]
        ensures ColPtr(sp, c) == c * sp[0]
      {
        assert ColPtr(sp, 0) <= ColPtr(sp, c) <= ColPtr(sp, sp[1]);
      }
    }
  }

  /** `RowsFollow` checks exactly the remaining entries of column `jj`. */
  lemma {:induction false} RowsFollowIff(sp: Descriptor, jj: int, stride: int, idx: int)
    requires Compressed(sp) && 0 <= jj < sp[1]
    requires ColPtr(sp, jj) <= idx <= ColPtr(sp, jj + 1)
    ensures RowsFollow(sp, jj, stride, idx) <==>
            (forall i :: idx <= i < ColPtr(sp, jj + 1) ==> RowAt(sp, i) + jj * stride == i)
    decreases ColPtr(sp, jj + 1) - idx
  {
    if idx < ColPtr(sp, jj + 1) {
      RowsFollowIff(sp, jj, stride, idx + 1);
    }
  }

  /** What the column scan establishes, given that column `jj` starts at `jj * nrow`. */
  predicate FollowsFrom(sp: Descriptor, jj: int, stride: int)
    requires Compressed(sp) && 0 <= jj <= sp[1]
  {
    (forall c :: jj <= c <= sp[1] ==> ColPtr(sp, c) == c * sp[0]) &&
    (forall c, i :: jj <= c < sp[1] && ColPtr(sp, c) <= i < ColPtr(sp, c + 1) ==> RowAt(sp, i) + c * stride == i)
  }

  lemma {:induction false} ColumnsFollowIff(sp: Descriptor, jj: int, stride: int)
    requires Compressed(sp) && 0 <= jj <= sp[1] && ColPtr(sp, jj) == jj * sp[0]
    ensures ColumnsFollow(sp, jj, stride) <==> FollowsFrom(sp, jj, stride)
    decreases sp[1] - jj
  {
    if jj < sp[1] {
      RowsFollowIff(sp, jj, stride, ColPtr(sp, jj));
      Distrib(jj + 1, 1, sp[0]);
      if ColPtr(sp, jj + 1) - ColPtr(sp, jj) == sp[0] {
        ColumnsFollowIff(sp, jj + 1, stride);
      }
    }
  }

  /** The intended `casadi_is_dense` holds exactly of the full patterns. */
  lemma IsDenseIffFull(sp: Descriptor)
    requires WellFormed(sp)
    ensures IsDense(Some(sp)) <==> Full(sp)
  {
    if sp[0] <= 0 || sp[1] <= 0 {
      EmptyIsFull(sp);
    } else if !DenseForm(sp) {
      ColumnsFollowIff(sp, 0, sp[0]);
      if FollowsFrom(sp, 0, sp[0]) {
        assert Full(sp);
      }
      if Full(sp) {
        assert FollowsFrom(sp, 0, sp[0]);
      }
    }
  }

  /**
    The check as written forces a square pattern once there are two
    columns: column 1 must start with row `nrow - ncol >= 0` and end with
    row `2 * nrow - 1 - ncol < nrow`.
  */
  lemma AsWrittenForcesSquare(sp: Descriptor)
    requires Compressed(sp) && sp[0] > 0 && sp[1] > 1
    requires IsDenseAsWritten(Some(sp))
    ensures sp[0] == sp[1]
  {
    ColumnsFollowIff(sp, 0, sp[1]);
    var nrow := sp[0];
    assert ColPtr(sp, 1) == nrow;
    assert ColPtr(sp, 2) == 2 * nrow;
    assert RowAt(sp, nrow) + sp[1] == nrow;
    assert RowAt(sp, 2 * nrow - 1) + sp[1] == 2 * nrow - 1;
  }

  /** The check as written is sound: it reports dense only for full patterns. */
  lemma IsDenseAsWrittenSound(sp: Descriptor)
    requires WellFormed(sp) && IsDenseAsWritten(Some(sp))
    ensures Full(sp)
  {
    if sp[0] <= 0 || sp[1] <= 0 {
      EmptyIsFull(sp);
    } else if !DenseForm(sp) {
      if sp[1] > 1 {
        AsWrittenForcesSquare(sp);
      }
      ColumnsFollowIff(sp, 0, sp[1]);
      ColumnsFollowIff(sp, 0, sp[0]);
      assert FollowsFrom(sp, 0, sp[0]);
      IsDenseIffFull(sp);
    }
  }

  /** With one column the multiplier of the row check is never used: both checks agree. */
  lemma OneColumnFlagsAgree(sp: Descriptor)
    requires WellFormed(sp) && sp[1] == 1
    ensures IsDenseAsWritten(Some(sp)) == IsDense(Some(sp))
  {
    if sp[0] > 0 && !DenseForm(sp) {
      ColumnsFollowIff(sp, 0, 1);
      ColumnsFollowIff(sp, 0, sp[0]);
    }
  }

  /** The check as written rejects every full compressed pattern that is not square and has two or more columns. */
  lemma IsDenseAsWrittenMissesNonSquare(sp: Descriptor)
    requires Compressed(sp) && Full(sp) && sp[0] > 0 && sp[1] > 1 && sp[0] != sp[1]
    ensures !IsDenseAsWritten(Some(sp))
    ensures IsDense(Some(sp))
  {
    IsDenseIffFull(sp);
    if IsDenseAsWritten(Some(sp)) {
      AsWrittenForcesSquare(sp);
    }
  }

  /** The full 1 x 2 pattern in compressed form (column pointer `0, 1, 2`, row 0 in both columns) is well formed and full. */
  lemma FullOneByTwoShape(sp: Descriptor)
    requires sp == [1, 2, 0, 1, 2, 0, 0]
    ensures WellFormed(sp) && Full(sp)
  {
    assert |sp| == 7 && sp[0] == 1 && sp[1] == 2 && sp[2] == 0;
    forall c | 0 <= c <= 2
      ensures ColPtr(sp, c) == c
    {
      assert c == 0 || c == 1 || c == 2;
    }
    forall idx | 0 <= idx < 2
      ensures RowAt(sp, idx) == 0
    {
      assert idx == 0 || idx == 1;
    }
  }

  /** The full 1 x 2 pattern in compressed form: dense by intent, sparse as written. */
  lemma FullOneByTwoCounterexample(sp: Descriptor)
    requires sp == [1, 2, 0, 1, 2, 0, 0]
    ensures WellFormed(sp) && Full(sp)
    ensures IsDense(Some(sp)) && !IsDenseAsWritten(Some(sp))
  {
    FullOneByTwoShape(sp);
    IsDenseAsWrittenMissesNonSquare(sp);
  }
}
