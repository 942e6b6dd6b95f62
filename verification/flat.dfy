/**
  Column-major buffers with a leading dimension: which indices an
  `m x n` block covers, what writing a block of values into them leaves,
  and what a sparse scatter or gather between such a buffer and a packed
  nonzero buffer computes.
*/
module ColMajor {
  import opened Arith
  import opened Wrappers
  import opened Sparsity

  /** Index `i` of a buffer with leading dimension `ld` lies in the `m x n` block at its start. */
  predicate InBlock(i: int, m: int, n: int, ld: int)
  {
    0 < ld && 0 <= i && i % ld < m && i / ld < n
  }

  /** An index inside the block names a row and a column of it. */
  lemma InBlockCell(i: int, m: int, n: int, ld: int)
    requires InBlock(i, m, n, ld)
    ensures 0 <= i % ld < m && 0 <= i / ld < n
  {
  }

  /** The buffer length an `m x n` block with leading dimension `ld` needs. */
  function BlockSpan(m: int, n: int, ld: int): int
  {
    if m <= 0 || n <= 0 then 0 else (n - 1) * ld + m
  }

  /** A packed block (leading dimension `m`) spans exactly `m * n` entries. */
  lemma PackedSpan(m: int, n: int)
    requires 0 <= m && 0 <= n
    ensures BlockSpan(m, n, m) == m * n
  {
    if m > 0 && n > 0 {
      Distrib(n, 1, m);
    }
  }

  /** The cell address of a block index and its position in the packed block. */
  function PackedIndex(i: int, m: int, n: int, ld: int): (k: int)
    requires m <= ld && InBlock(i, m, n, ld)
    ensures 0 <= k < m * n && 0 <= i < BlockSpan(m, n, ld)
  {
    Split(i, ld);
    AddrBelowPacked(i % ld, i / ld, m, n);
    AddrBelow(i % ld, i / ld, ld, m, n);
    Addr(i % ld, i / ld, m)
  }

  /** The buffer index of entry `k` of the packed `m x n` block. */
  function StrideIndex(k: int, m: int, n: int, ld: int): (i: int)
    requires 0 <= m <= ld && 0 <= k < m * n
    ensures InBlock(i, m, n, ld) && 0 <= i < BlockSpan(m, n, ld)
    ensures i % ld == k % m && i / ld == k / m
  {
    SplitBelow(k, m, n);
    Decode(k % m, k / m, ld);
    AddrBelow(k % m, k / m, ld, m, n);
    Addr(k % m, k / m, ld)
  }

  /** Cell `(r, c)` of the block is at an index of the block, and decodes back. */
  lemma AddrInBlock(r: int, c: int, m: int, n: int, ld: int)
    requires 0 <= r < m <= ld && 0 <= c < n
    ensures InBlock(Addr(r, c, ld), m, n, ld) && Addr(r, c, ld) < BlockSpan(m, n, ld)
    ensures Addr(r, c, ld) % ld == r && Addr(r, c, ld) / ld == c
    ensures 0 <= Addr(r, c, m) < m * n
  {
    Decode(r, c, ld);
    AddrBelow(r, c, ld, m, n);
    AddrBelowPacked(r, c, m, n);
  }

  // ---------------------------------------------------------------------
  // Writing a packed block of values into a strided block.
  // ---------------------------------------------------------------------

  /** The `m * n` packed zeros a fill writes. */
  function Zeros(len: int): (z: seq<real>)
    requires 0 <= len
    ensures |z| == len && forall k :: 0 <= k < len ==> z[k] == 0.0
  {
    seq(len, k => 0.0)
  }

  /**
    Whether a nested loop at position `(p, q)` has written cell `(r, c)`:
    with rows outermost `p` is the row and `q` the column, otherwise the
    other way round.
  */
  predicate Reached(byRows: bool, r: int, c: int, p: int, q: int)
  {
    if byRows then r < p || (r == p && c < q) else c < p || (c == p && r < q)
  }

  /** Buffer `a` after cell `(r, c)` of the block has received `vals[r + c * m]` for every reached cell. */
  function BlockWritePart(a: seq<real>, vals: seq<real>, m: int, n: int, ld: int, byRows: bool, p: int, q: int): (b: seq<real>)
    requires 0 <= m <= ld && 0 <= n && |vals| >= m * n
    ensures |b| == |a|
  {
    seq(|a|, i requires 0 <= i < |a| =>
      if InBlock(i, m, n, ld) && Reached(byRows, i % ld, i / ld, p, q) then vals[PackedIndex(i, m, n, ld)] else a[i])
  }

  /** Buffer `a` with its `m x n` block replaced by the packed values `vals`. */
  function BlockWrite(a: seq<real>, vals: seq<real>, m: int, n: int, ld: int): (b: seq<real>)
    requires 0 <= m <= ld && 0 <= n && |vals| >= m * n
    ensures |b| == |a|
  {
    seq(|a|, i requires 0 <= i < |a| =>
      if InBlock(i, m, n, ld) then vals[PackedIndex(i, m, n, ld)] else a[i])
  }

  /** Before the first write nothing has changed. */
  lemma BlockWriteStart(a: seq<real>, vals: seq<real>, m: int, n: int, ld: int, byRows: bool)
    requires 0 <= m <= ld && 0 <= n && |vals| >= m * n
    ensures BlockWritePart(a, vals, m, n, ld, byRows, 0, 0) == a
  {
  }

  /** Writing the next cell of the loop order extends the written part by that cell. */
  lemma BlockWriteStep(a: seq<real>, vals: seq<real>, m: int, n: int, ld: int, byRows: bool, r: int, c: int)
    requires 0 <= r < m <= ld && 0 <= c < n && |vals| >= m * n && BlockSpan(m, n, ld) <= |a|
    ensures 0 <= Addr(r, c, ld) < |a| && 0 <= Addr(r, c, m) < m * n
    ensures var p := if byRows then r else c;
            var q := if byRows then c else r;
            BlockWritePart(a, vals, m, n, ld, byRows, p, q)[Addr(r, c, ld) := vals[Addr(r, c, m)]] ==
            BlockWritePart(a, vals, m, n, ld, byRows, p, q + 1)
  {
    AddrInBlock(r, c, m, n, ld);
    var p := if byRows then r else c;
    var q := if byRows then c else r;
    var before := BlockWritePart(a, vals, m, n, ld, byRows, p, q);
    var after := BlockWritePart(a, vals, m, n, ld, byRows, p, q + 1);
    forall i | 0 <= i < |a|
      ensures before[Addr(r, c, ld) := vals[Addr(r, c, m)]][i] == after[i]
    {
      if i != Addr(r, c, ld) {
        Split(i, ld);
      }
    }
  }

  /** Finishing the inner loop is starting the next outer iteration. */
  lemma BlockWriteWrap(a: seq<real>, vals: seq<real>, m: int, n: int, ld: int, byRows: bool, p: int)
    requires 0 <= m <= ld && 0 <= n && |vals| >= m * n
    ensures BlockWritePart(a, vals, m, n, ld, byRows, p, if byRows then n else m) ==
            BlockWritePart(a, vals, m, n, ld, byRows, p + 1, 0)
  {
    var before := BlockWritePart(a, vals, m, n, ld, byRows, p, if byRows then n else m);
    var after := BlockWritePart(a, vals, m, n, ld, byRows, p + 1, 0);
    forall i | 0 <= i < |a|
      ensures before[i] == after[i]
    {
      if InBlock(i, m, n, ld) {
        assert Reached(byRows, i % ld, i / ld, p, if byRows then n else m) == Reached(byRows, i % ld, i / ld, p + 1, 0);
      }
    }
  }

  /** After the last outer iteration the whole block is written. */
  lemma BlockWriteEnd(a: seq<real>, vals: seq<real>, m: int, n: int, ld: int, byRows: bool)
    requires 0 <= m <= ld && 0 <= n && |vals| >= m * n
    ensures BlockWritePart(a, vals, m, n, ld, byRows, if byRows then m else n, 0) == BlockWrite(a, vals, m, n, ld)
  {
  }

  /** Writing a packed block into a packed buffer overwrites exactly its first `m * n` entries. */
  lemma {:induction false} BlockWritePacked(a: seq<real>, vals: seq<real>, m: int, n: int)
    requires 0 <= m && 0 <= n && |vals| >= m * n && |a| >= m * n
    ensures BlockWrite(a, vals, m, n, m) == vals[..m * n] + a[m * n..]
  {
    var b := BlockWrite(a, vals, m, n, m);
    forall i | 0 <= i < |a|
      ensures b[i] == (vals[..m * n] + a[m * n..])[i]
    {
      if i < m * n {
        SplitBelow(i, m, n);
        Split(i, m);
      } else if m > 0 {
        Split(i, m);
        if i / m < n {
          AddrBelowPacked(i % m, i / m, m, n);
        }
      }
    }
  }

  /** The `m x n` block read out of buffer `a` into packed order. */
  function BlockRead(a: seq<real>, m: int, n: int, ld: int): (v: seq<real>)
    requires 0 <= m <= ld && 0 <= n && BlockSpan(m, n, ld) <= |a|
    ensures |v| == m * n
  {
    seq(m * n, k requires 0 <= k < m * n => a[StrideIndex(k, m, n, ld)])
  }

  /** Reading a packed block is taking the first `m * n` entries. */
  lemma ReadPacked(a: seq<real>, m: int, n: int)
    requires 0 <= m && 0 <= n && |a| >= m * n
    ensures BlockSpan(m, n, m) == m * n
    ensures BlockRead(a, m, n, m) == a[..m * n]
  {
    PackedSpan(m, n);
    forall k | 0 <= k < m * n
      ensures BlockRead(a, m, n, m)[k] == a[k]
    {
      SplitBelow(k, m, n);
      Split(k, m);
    }
  }

  /** Reading a block back after writing it returns the packed values. */
  lemma ReadAfterWrite(a: seq<real>, vals: seq<real>, m: int, n: int, ld: int)
    requires 0 <= m <= ld && 0 <= n && |vals| >= m * n && BlockSpan(m, n, ld) <= |a|
    ensures BlockRead(BlockWrite(a, vals, m, n, ld), m, n, ld) == vals[..m * n]
  {
    var b := BlockWrite(a, vals, m, n, ld);
    forall k | 0 <= k < m * n
      ensures BlockRead(b, m, n, ld)[k] == vals[k]
    {
      var i := StrideIndex(k, m, n, ld);
      Split(k, m);
    }
  }

  /** Writing back what was read leaves the buffer as it was. */
  lemma WriteAfterRead(a: seq<real>, m: int, n: int, ld: int)
    requires 0 <= m <= ld && 0 <= n && BlockSpan(m, n, ld) <= |a|
    ensures BlockWrite(a, BlockRead(a, m, n, ld), m, n, ld) == a
  {
    var b := BlockWrite(a, BlockRead(a, m, n, ld), m, n, ld);
    forall i | 0 <= i < |a|
      ensures b[i] == a[i]
    {
      if InBlock(i, m, n, ld) {
        var k := PackedIndex(i, m, n, ld);
        Split(i, ld);
        Decode(i % ld, i / ld, m);
      }
    }
  }

  // ---------------------------------------------------------------------
  // Sparse scatter and gather between a packed nonzero buffer and a block.
  // ---------------------------------------------------------------------

  /**
    Buffer `a` with the `nrow x ncol` block of pattern `sp` scattered in:
    each cell of the block holds its packed value, or 0 when it is not in
    the pattern; everything outside the block is left alone.
  */
  function ScatterFlat(a: seq<real>, sp: Descriptor, v: seq<real>, ld: int): (b: seq<real>)
    requires WellFormed(sp) && |v| >= Nnz(Some(sp)) && NRow(sp) <= ld
    ensures |b| == |a|
  {
    seq(|a|, i requires 0 <= i < |a| =>
      if InBlock(i, sp[0], sp[1], ld) then InBlockCell(i, sp[0], sp[1], ld); Cell(sp, v, i % ld, i / ld) else a[i])
  }

  /** The nonzeros of pattern `sp` read out of the block of buffer `a`, in packed order. */
  function GatherFlat(a: seq<real>, sp: Descriptor, ld: int): (v: seq<real>)
    requires WellFormed(sp) && NRow(sp) <= ld && BlockSpan(sp[0], sp[1], ld) <= |a|
    ensures |v| == Nnz(Some(sp))
  {
    seq(Nnz(Some(sp)), k requires 0 <= k < Nnz(Some(sp)) => a[CellAddr(sp, k, ld)])
  }

  /** The buffer index of the cell that packed position `k` stands for. */
  function CellAddr(sp: Descriptor, k: int, ld: int): (i: int)
    requires WellFormed(sp) && NRow(sp) <= ld && 0 <= k < Nnz(Some(sp))
    ensures 0 <= i < BlockSpan(sp[0], sp[1], ld)
    ensures InBlock(i, sp[0], sp[1], ld) && (i % ld, i / ld) == Pos(sp, k)
  {
    var rc := Pos(sp, k);
    AddrInBlock(rc.0, rc.1, sp[0], sp[1], ld);
    Addr(rc.0, rc.1, ld)
  }

  /** In a scattered buffer, cell `(r, c)` of the block holds the scattered value. */
  lemma ScatterFlatCell(a: seq<real>, sp: Descriptor, v: seq<real>, ld: int, r: int, c: int)
    requires WellFormed(sp) && |v| >= Nnz(Some(sp)) && NRow(sp) <= ld && BlockSpan(sp[0], sp[1], ld) <= |a|
    requires 0 <= r < NRow(sp) && 0 <= c < NCol(sp)
    ensures 0 <= Addr(r, c, ld) < |a|
    ensures ScatterFlat(a, sp, v, ld)[Addr(r, c, ld)] == Cell(sp, v, r, c)
  {
    AddrInBlock(r, c, sp[0], sp[1], ld);
  }

  /** Gathering a scattered buffer gives back the nonzeros. */
  lemma GatherAfterScatter(a: seq<real>, sp: Descriptor, v: seq<real>, ld: int)
    requires WellFormed(sp) && |v| >= Nnz(Some(sp)) && NRow(sp) <= ld && BlockSpan(sp[0], sp[1], ld) <= |a|
    ensures GatherFlat(ScatterFlat(a, sp, v, ld), sp, ld) == v[..Nnz(Some(sp))]
  {
    var b := ScatterFlat(a, sp, v, ld);
    forall k | 0 <= k < Nnz(Some(sp))
      ensures GatherFlat(b, sp, ld)[k] == v[k]
    {
      var i := CellAddr(sp, k, ld);
      CellOfPos(sp, v, k);
    }
  }

  /**
    Scattering what was gathered keeps the cells of the pattern, clears the
    other cells of the block and leaves the rest of the buffer alone.
  */
  lemma ScatterAfterGather(a: seq<real>, sp: Descriptor, ld: int)
    requires WellFormed(sp) && NRow(sp) <= ld && BlockSpan(sp[0], sp[1], ld) <= |a|
    ensures var b := ScatterFlat(a, sp, GatherFlat(a, sp, ld), ld);
            forall i :: 0 <= i < |a| ==>
              b[i] == if InBlock(i, sp[0], sp[1], ld) && !InPattern(sp, i % ld, i / ld) then 0.0 else a[i]
  {
    var g := GatherFlat(a, sp, ld);
    var b := ScatterFlat(a, sp, g, ld);
    forall i | 0 <= i < |a| && InBlock(i, sp[0], sp[1], ld) && InPattern(sp, i % ld, i / ld)
      ensures b[i] == a[i]
    {
      var r, c := i % ld, i / ld;
      Split(i, ld);
      var k := Lookup(sp, r, c);
      PosOfLookup(sp, r, c);
      assert CellAddr(sp, k, ld) == i;
      assert b[i] == Cell(sp, g, r, c) == g[k];
    }
  }

  /** For a full pattern the scatter is the copy of the packed block the dense branch performs. */
  lemma FullScatterIsCopy(a: seq<real>, sp: Descriptor, v: seq<real>, ld: int)
    requires WellFormed(sp) && Full(sp) && |v| >= Nnz(Some(sp)) && NRow(sp) <= ld
    ensures Nnz(Some(sp)) == NRow(sp) * NCol(sp)
    ensures ScatterFlat(a, sp, v, ld) == BlockWrite(a, v, NRow(sp), NCol(sp), ld)
  {
    FullNnz(sp);
    forall i | 0 <= i < |a| && InBlock(i, sp[0], sp[1], ld)
      ensures Cell(sp, v, i % ld, i / ld) == v[PackedIndex(i, sp[0], sp[1], ld)]
    {
      FullLookup(sp, i % ld, i / ld);
    }
  }

  /** For a full pattern the gather is the packed read of the block the dense branch performs. */
  lemma FullGatherIsRead(a: seq<real>, sp: Descriptor, ld: int)
    requires WellFormed(sp) && Full(sp) && NRow(sp) <= ld && BlockSpan(sp[0], sp[1], ld) <= |a|
    ensures GatherFlat(a, sp, ld) == BlockRead(a, NRow(sp), NCol(sp), ld)
  {
    FullNnz(sp);
    forall k | 0 <= k < Nnz(Some(sp))
      ensures CellAddr(sp, k, ld) == StrideIndex(k, sp[0], sp[1], ld)
    {
      FullPos(sp, k);
    }
  }

  /** How far the scan of column `jj` has got, seen from column `c`: the end of its scanned entries. */
  function ScanEnd(sp: Descriptor, c: int, jj: int, idx: int): (e: int)
    requires Compressed(sp) && 0 <= c < sp[1] && 0 <= jj <= sp[1]
    requires jj < sp[1] ==> ColPtr(sp, jj) <= idx <= ColPtr(sp, jj + 1)
    ensures ColPtr(sp, c) <= e <= ColPtr(sp, c + 1)
  {
    if c < jj then ColPtr(sp, c + 1) else if c == jj then idx else ColPtr(sp, c)
  }

  /**
    Buffer `a` after the scatter loop has copied the nonzeros of columns
    `0..jj-1` and entries `colptr[jj]..idx-1` of column `jj` into the block;
    cells not written yet keep their value.
  */
  function ScatterPart(a: seq<real>, sp: Descriptor, v: seq<real>, ld: int, jj: int, idx: int): (b: seq<real>)
    requires Compressed(sp) && |v| >= Nnz(Some(sp)) && NRow(sp) <= ld && 0 <= jj <= sp[1]
    requires jj < sp[1] ==> ColPtr(sp, jj) <= idx <= ColPtr(sp, jj + 1)
    ensures |b| == |a|
  {
    seq(|a|, i requires 0 <= i < |a| =>
      if InBlock(i, sp[0], sp[1], ld) then
        var k := LookupIn(sp, i % ld, ColPtr(sp, i / ld), ScanEnd(sp, i / ld, jj, idx));
        if k >= 0 then v[k] else a[i]
      else a[i])
  }

  lemma ScatterStart(a: seq<real>, sp: Descriptor, v: seq<real>, ld: int)
    requires Compressed(sp) && |v| >= Nnz(Some(sp)) && NRow(sp) <= ld
    ensures ScatterPart(a, sp, v, ld, 0, ColPtr(sp, 0)) == a
  {
  }

  /** Storing entry `idx` at its cell extends the scanned part by that entry. */
  lemma ScatterStep(a: seq<real>, sp: Descriptor, v: seq<real>, ld: int, jj: int, idx: int)
    requires Compressed(sp) && |v| >= Nnz(Some(sp)) && NRow(sp) <= ld && BlockSpan(sp[0], sp[1], ld) <= |a|
    requires 0 <= jj < sp[1] && ColPtr(sp, jj) <= idx < ColPtr(sp, jj + 1)
    ensures 0 <= RowAt(sp, idx) < NRow(sp) && 0 <= Addr(RowAt(sp, idx), jj, ld) < |a|
    ensures ScatterPart(a, sp, v, ld, jj, idx)[Addr(RowAt(sp, idx), jj, ld) := v[idx]] ==
            ScatterPart(a, sp, v, ld, jj, idx + 1)
  {
    var r := RowAt(sp, idx);
    AddrInBlock(r, jj, sp[0], sp[1], ld);
    var before := ScatterPart(a, sp, v, ld, jj, idx);
    var after := ScatterPart(a, sp, v, ld, jj, idx + 1);
    forall i | 0 <= i < |a|
      ensures before[Addr(r, jj, ld) := v[idx]][i] == after[i]
    {
      ScatterStepAt(a, sp, v, ld, jj, idx, i);
    }
  }

  lemma ScatterStepAt(a: seq<real>, sp: Descriptor, v: seq<real>, ld: int, jj: int, idx: int, i: int)
    requires Compressed(sp) && |v| >= Nnz(Some(sp)) && NRow(sp) <= ld
    requires 0 <= jj < sp[1] && ColPtr(sp, jj) <= idx < ColPtr(sp, jj + 1) && 0 <= i < |a|
    ensures 0 <= RowAt(sp, idx)
    ensures ScatterPart(a, sp, v, ld, jj, idx + 1)[i] ==
            if i == Addr(RowAt(sp, idx), jj, ld) && InBlock(i, sp[0], sp[1], ld) then v[idx] else ScatterPart(a, sp, v, ld, jj, idx)[i]
  {
    var r := RowAt(sp, idx);
    EntryRow(sp, jj, idx);
    if InBlock(i, sp[0], sp[1], ld) {
      Split(i, ld);
      Decode(r, jj, ld);
      var r', c' := i % ld, i / ld;
      assert i == Addr(r, jj, ld) <==> (r', c') == (r, jj);
      var lo := ColPtr(sp, c');
      if c' == jj {
        assert LookupIn(sp, r', lo, idx + 1) == if r' == r then idx else LookupIn(sp, r', lo, idx);
      } else {
        assert ScanEnd(sp, c', jj, idx) == ScanEnd(sp, c', jj, idx + 1);
      }
    }
  }

  /** Reaching the end of column `jj` is starting column `jj + 1`. */
  lemma ScatterNextColumn(a: seq<real>, sp: Descriptor, v: seq<real>, ld: int, jj: int)
    requires Compressed(sp) && |v| >= Nnz(Some(sp)) && NRow(sp) <= ld && 0 <= jj < sp[1]
    ensures ScatterPart(a, sp, v, ld, jj, ColPtr(sp, jj + 1)) == ScatterPart(a, sp, v, ld, jj + 1, ColPtr(sp, jj + 1))
  {
  }

  /** Zero-filling the block and then scattering every column is the scatter. */
  lemma ZeroThenScatter(a: seq<real>, sp: Descriptor, v: seq<real>, ld: int)
    requires Compressed(sp) && |v| >= Nnz(Some(sp)) && NRow(sp) <= ld
    ensures ScatterPart(BlockWrite(a, Zeros(sp[0] * sp[1]), sp[0], sp[1], ld), sp, v, ld, sp[1], ColPtr(sp, sp[1])) ==
            ScatterFlat(a, sp, v, ld)
  {
  }
}
