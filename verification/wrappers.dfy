/** Small helper datatypes shared by the other modules. */
module Wrappers {

  /** A value that may be absent; `None` stands for a NULL pointer of the C code. */
  datatype Option<+T> = None | Some(value: T)
}

/** Integer facts about column-major addressing `r + c * ld`. */
module Arith {

  /** Address of cell (r, c) in a column-major buffer with leading dimension `ld`. */
  function Addr(r: int, c: int, ld: int): int
  {
    r + c * ld
  }

  lemma MulAtLeast(k: int, ld: int)
    requires k >= 1 && ld > 0
    ensures k * ld >= ld
  {
  }

  lemma MulMono(a: int, b: int, ld: int)
    requires a >= b && ld >= 0
    ensures a * ld >= b * ld
  {
  }

  lemma Distrib(a: int, b: int, ld: int)
    ensures (a - b) * ld == a * ld - b * ld
  {
  }

  /** A column-major address decodes back to its row and column. */
  lemma Decode(r: int, c: int, ld: int)
    requires 0 <= r < ld && 0 <= c
    ensures Addr(r, c, ld) / ld == c && Addr(r, c, ld) % ld == r
  {
    var i := r + c * ld;
    var q, m := i / ld, i % ld;
    assert i == m + q * ld;
    Distrib(q, c, ld);
    if q > c {
      MulAtLeast(q - c, ld);
    } else if q < c {
      MulAtLeast(c - q, ld);
      Distrib(c, q, ld);
    }
  }

  /** Every non-negative index is the address of its own (row, column) split. */
  lemma Split(i: int, ld: int)
    requires 0 <= i && 0 < ld
    ensures i == Addr(i % ld, i / ld, ld) && 0 <= i / ld
  {
  }

  /** Cells of an `nrow` x `ncol` block with leading dimension `ld >= nrow` have addresses below `(ncol - 1) * ld + nrow`. */
  lemma AddrBelow(r: int, c: int, ld: int, nrow: int, ncol: int)
    requires 0 <= r < nrow <= ld && 0 <= c < ncol
    ensures 0 <= Addr(r, c, ld) < (ncol - 1) * ld + nrow
  {
    if c < ncol - 1 {
      MulAtLeast(ncol - 1 - c, ld);
      Distrib(ncol - 1, c, ld);
    }
  }

  /** The same bound for a packed buffer, whose leading dimension is `nrow`. */
  lemma AddrBelowPacked(r: int, c: int, nrow: int, ncol: int)
    requires 0 <= r < nrow && 0 <= c < ncol
    ensures 0 <= Addr(r, c, nrow) < nrow * ncol
  {
    AddrBelow(r, c, nrow, nrow, ncol);
    Distrib(ncol, 1, nrow);
  }

  /** An index below `nrow * ncol` splits into a row below `nrow` and a column below `ncol`. */
  lemma SplitBelow(i: int, nrow: int, ncol: int)
    requires 0 <= i < nrow * ncol && 0 < nrow
    ensures 0 <= i % nrow < nrow && 0 <= i / nrow < ncol
  {
    Split(i, nrow);
    if i / nrow >= ncol {
      MulMono(i / nrow, ncol, nrow);
    }
  }
}
