/**
  Byte arithmetic shared by the `calculate_size` / `assign` pairs: the
  rounding helpers of acados' memory utilities, running totals of region
  sizes, and the indexed parameter update that both parametric function
  kinds perform.
*/
module Arena {

  /** `sizeof(int)` and `sizeof(double)`; the pointer size is a parameter of each function object. */
  const IntSize := 4
  const DoubleSize := 8

  /**
    `make_int_multiple_of(8, ·)` and `align_char_to(8, ·)`: the least
    multiple of 8 that is not below `x`.
  */
  function RoundUp8(x: int): (r: int)
    requires x >= 0
    ensures r % 8 == 0 && x <= r < x + 8
  {
    (x + 7) / 8 * 8
  }

  /** Rounding up an already aligned address leaves it where it is. */
  lemma RoundUp8Aligned(x: int)
    requires x >= 0 && x % 8 == 0
    ensures RoundUp8(x) == x
  {
  }

  /** The total of the first `n` region sizes. */
  function Prefix(s: seq<int>, n: int): int
    requires 0 <= n <= |s|
  {
    if n == 0 then 0 else Prefix(s, n - 1) + s[n - 1]
  }

  /** With non-negative sizes, region `i` ends no later than region `j` starts. */
  lemma {:induction false} PrefixBelow(s: seq<int>, i: int, j: int)
    requires forall k :: 0 <= k < |s| ==> s[k] >= 0
    requires 0 <= i < j <= |s|
    ensures Prefix(s, i) + s[i] <= Prefix(s, j)
    decreases j - i
  {
    if i + 1 < j {
      PrefixBelow(s, i + 1, j);
    }
  }

  /** Running totals of non-negative sizes are non-negative. */
  lemma {:induction false} PrefixNonNegative(s: seq<int>, n: int)
    requires forall k :: 0 <= k < |s| ==> s[k] >= 0
    requires 0 <= n <= |s|
    ensures Prefix(s, n) >= 0
  {
    if n > 0 {
      PrefixNonNegative(s, n - 1);
    }
  }

  // ---------------------------------------------------------------------
  // Indexed parameter updates, `p[idx[ii]] = p_in[ii]` in order.
  // ---------------------------------------------------------------------

  /** Every index of `idx` addresses an entry of a sequence of length `len`. */
  predicate IndicesIn(idx: seq<int>, len: int)
  {
    forall i :: 0 <= i < |idx| ==> 0 <= idx[i] < len
  }

  /** `s` after the updates `s[idx[0]] := vals[0]`, ..., applied in order. */
  function ApplyUpdates(s: seq<real>, idx: seq<int>, vals: seq<real>): (r: seq<real>)
    requires |idx| <= |vals| && IndicesIn(idx, |s|)
    ensures |r| == |s|
    decreases |idx|
  {
    if |idx| == 0 then s
    else
      var n := |idx| - 1;
      ApplyUpdates(s, idx[..n], vals)[idx[n] := vals[n]]
  }

  /** Applying one more update of `idx` extends the updates applied so far by that one. */
  lemma UpdatesSnoc(s: seq<real>, idx: seq<int>, vals: seq<real>, k: int)
    requires |idx| <= |vals| && IndicesIn(idx, |s|) && 0 <= k < |idx|
    ensures IndicesIn(idx[..k], |s|) && IndicesIn(idx[..k + 1], |s|)
    ensures ApplyUpdates(s, idx[..k + 1], vals) == ApplyUpdates(s, idx[..k], vals)[idx[k] := vals[k]]
  {
    assert idx[..k + 1][..k] == idx[..k];
  }

  /** The position of the last update of entry `t`, or -1 when there is none. */
  function LastWrite(idx: seq<int>, t: int): (k: int)
    ensures -1 <= k < |idx|
    ensures k >= 0 ==> idx[k] == t
    ensures forall j :: k < j < |idx| ==> idx[j] != t
    decreases |idx|
  {
    if |idx| == 0 then -1
    else if idx[|idx| - 1] == t then |idx| - 1
    else LastWrite(idx[..|idx| - 1], t)
  }

  /** After the updates, an entry holds its last written value, or its old value when no update touched it. */
  lemma {:induction false} UpdatesAt(s: seq<real>, idx: seq<int>, vals: seq<real>, t: int)
    requires |idx| <= |vals| && IndicesIn(idx, |s|) && 0 <= t < |s|
    ensures ApplyUpdates(s, idx, vals)[t] == if LastWrite(idx, t) >= 0 then vals[LastWrite(idx, t)] else s[t]
    decreases |idx|
  {
    if |idx| > 0 {
      var n := |idx| - 1;
      if idx[n] != t {
        UpdatesAt(s, idx[..n], vals, t);
        assert LastWrite(idx, t) == LastWrite(idx[..n], t);
      }
    }
  }

  /** `p[idx[ii]] = vals[ii]` for `ii < n`, in order. */
  method ScatterUpdates(p: array<real>, n: int, idx: array<int>, vals: array<real>)
    requires 0 <= n <= idx.Length && n <= vals.Length && p != vals
    requires IndicesIn(idx[..n], p.Length)
    modifies p
    ensures p[..] == ApplyUpdates(old(p[..]), idx[..n], vals[..])
  {
    for ii := 0 to n
      invariant p[..] == ApplyUpdates(old(p[..]), idx[..ii], vals[..])
    {
      assert idx[..ii + 1][..ii] == idx[..ii];
      p[idx[ii]] := vals[ii];
    }
  }
}
