/**
  The batch simulator of the C interface: `N_batch` integrators driven
  together, a status array holding each member's last return code, and
  the arena arithmetic of `sim_batch_calculate_size` / `sim_batch_assign`.
  What each member does (`evaluate`, `precompute`, `memory_set`) is
  foreign code; its return codes come in as a sequence indexed by member.
*/
module SimBatch {

  /** Sum of a sequence of status codes, accumulated from the front as the C loop does. */
  function Sum(s: seq<int>): int
  {
    if |s| == 0 then 0 else Sum(s[..|s| - 1]) + s[|s| - 1]
  }

  /** The sequence `s` with its first `n` entries set to 0. */
  function Reset(s: seq<int>, n: int): (r: seq<int>)
    requires 0 <= n <= |s|
    ensures |r| == |s|
  {
    seq(|s|, i requires 0 <= i < |s| => if i < n then 0 else s[i])
  }

  /** The sequence `s` with its first `n` entries taken from `codes`. */
  function Record(s: seq<int>, codes: seq<int>, n: int): (r: seq<int>)
    requires 0 <= n <= |s| && n <= |codes|
    ensures |r| == |s|
  {
    seq(|s|, i requires 0 <= i < |s| => if i < n then codes[i] else s[i])
  }

  /** A sum of zeros is zero. */
  lemma {:induction false} SumOfZeros(s: seq<int>)
    requires forall i :: 0 <= i < |s| ==> s[i] == 0
    ensures Sum(s) == 0
  {
    if |s| > 0 {
      SumOfZeros(s[..|s| - 1]);
    }
  }

  /** Status codes are non-negative (0 is success); their sum is 0 exactly when every member succeeded. */
  lemma {:induction false} SumZeroIffAllZero(s: seq<int>)
    requires forall i :: 0 <= i < |s| ==> s[i] >= 0
    ensures Sum(s) >= 0
    ensures Sum(s) == 0 <==> forall i :: 0 <= i < |s| ==> s[i] == 0
  {
    if |s| > 0 {
      var t := s[..|s| - 1];
      assert forall i :: 0 <= i < |t| ==> t[i] == s[i];
      SumZeroIffAllZero(t);
      if Sum(s) == 0 {
        assert s[|s| - 1] == 0;
      }
    }
  }

  /** Resetting twice is resetting once. */
  lemma ResetIdempotent(s: seq<int>, n: int)
    requires 0 <= n <= |s|
    ensures Reset(Reset(s, n), n) == Reset(s, n)
  {
  }

  /** Right after a reset, the status of the batch sums to 0. */
  lemma SumAfterReset(s: seq<int>, n: int)
    requires 0 <= n <= |s|
    ensures Sum(Reset(s, n)[..n]) == 0
  {
    SumOfZeros(Reset(s, n)[..n]);
  }

  /** The recorded prefix is exactly the members' codes. */
  lemma RecordedPrefix(s: seq<int>, codes: seq<int>, n: int)
    requires 0 <= n <= |s| && n <= |codes|
    ensures Record(s, codes, n)[..n] == codes[..n]
    ensures Record(s, codes, n)[n..] == s[n..]
  {
  }

  /**
    `sim_batch_calculate_size`: the solver struct, then `N_batch` member
    memories and `N_batch` member workspaces.
  */
  function BatchSize(solverSize: int, memorySize: int, workspaceSize: int, nBatch: int): int
  {
    solverSize + nBatch * memorySize + nBatch * workspaceSize
  }

  /** Each extra member adds one memory and one workspace. */
  lemma BatchSizeAffine(solverSize: int, memorySize: int, workspaceSize: int, nBatch: int)
    ensures BatchSize(solverSize, memorySize, workspaceSize, nBatch + 1)
         == BatchSize(solverSize, memorySize, workspaceSize, nBatch) + memorySize + workspaceSize
  {
  }

  /** With non-negative member sizes the arena never shrinks as the batch grows. */
  lemma {:induction false} BatchSizeMonotone(solverSize: int, memorySize: int, workspaceSize: int, n: int, m: int)
    requires 0 <= memorySize && 0 <= workspaceSize && 0 <= n <= m
    ensures BatchSize(solverSize, memorySize, workspaceSize, n) <= BatchSize(solverSize, memorySize, workspaceSize, m)
    decreases m - n
  {
    if n < m {
      BatchSizeAffine(solverSize, memorySize, workspaceSize, n);
      BatchSizeMonotone(solverSize, memorySize, workspaceSize, n + 1, m);
    }
  }

  /** A sum of `n` copies of `x`. */
  lemma {:induction false} SumOfCopies(s: seq<int>, x: int)
    requires forall i :: 0 <= i < |s| ==> s[i] == x
    ensures Sum(s) == |s| * x
  {
    if |s| > 0 {
      SumOfCopies(s[..|s| - 1], x);
    }
  }

  /** Adding one more size to a prefix sum. */
  lemma SumPrefixStep(s: seq<int>, i: int)
    requires 0 <= i < |s|
    ensures Sum(s[..i + 1]) == Sum(s[..i]) + s[i]
  {
    assert s[..i + 1][..i] == s[..i];
  }

  /** With non-negative sizes, prefix sums grow: region `i` ends no later than region `j` starts. */
  lemma {:induction false} SumPrefixBelow(s: seq<int>, i: int, j: int)
    requires forall k :: 0 <= k < |s| ==> s[k] >= 0
    requires 0 <= i < j <= |s|
    ensures Sum(s[..i]) + s[i] <= Sum(s[..j])
    decreases j - i
  {
    SumPrefixStep(s, i);
    if i + 1 < j {
      SumPrefixBelow(s, i + 1, j);
      SumPrefixStep(s, i + 1);
    }
  }

  /** Prefix sums of non-negative sizes are non-negative. */
  lemma {:induction false} SumPrefixNonNegative(s: seq<int>, i: int)
    requires forall k :: 0 <= k < |s| ==> s[k] >= 0
    requires 0 <= i <= |s|
    ensures Sum(s[..i]) >= 0
  {
    if i > 0 {
      SumPrefixNonNegative(s, i - 1);
      SumPrefixStep(s, i - 1);
    }
  }

  /**
    `sim_batch_assign` as written. The loop reads the configuration of each
    member through `solver->sim_solvers[i]`, a pointer inside the arena that
    nothing has set; `solversSet` says whether it points at member solvers.
    When it does not and the batch is non-empty, the first read is through a
    null pointer (`fault`) and nothing further happens. Otherwise the cursor
    walks past the solver struct and each member's `sim_calculate_size`, but
    every member is handed `raw_memory` itself as its start address. The
    batch size, the status array and the member table are never stored.
  */
  method AssignAsWritten(raw: int, solverSize: int, memberSizes: seq<int>, nBatch: int, solversSet: bool)
    returns (fault: bool, cursor: int, starts: seq<int>)
    requires 0 <= nBatch <= |memberSizes|
    ensures fault <==> nBatch >= 1 && !solversSet
    ensures fault ==> cursor == raw + solverSize && starts == []
    ensures !fault ==> cursor == raw + solverSize + Sum(memberSizes[..nBatch])
    ensures !fault ==> |starts| == nBatch && forall i :: 0 <= i < nBatch ==> starts[i] == raw
  {
    fault := false;
    cursor := raw + solverSize;
    starts := [];
    for i := 0 to nBatch
      invariant !fault && (i > 0 ==> solversSet)
      invariant cursor == raw + solverSize + Sum(memberSizes[..i])
      invariant |starts| == i && forall k :: 0 <= k < i ==> starts[k] == raw
    {
      if !solversSet {
        fault := true;
        cursor := raw + solverSize;
        starts := [];
        return;
      }
      starts := starts + [raw];
      SumPrefixStep(memberSizes, i);
      cursor := cursor + memberSizes[i];
    }
  }

  /**
    `sim_batch_solver_create` as written: the arena comes from `calloc`, so
    the member table pointer is null and the stored batch size is 0 when
    `sim_batch_assign` runs. A non-empty batch faults inside the assign; an
    empty one returns, and the creation loop, bounded by the stored batch
    size, creates no member.
  */
  method CreateAsWritten(raw: int, solverSize: int, memberSizes: seq<int>, nBatch: int)
    returns (fault: bool, created: int)
    requires 0 <= nBatch <= |memberSizes|
    ensures fault <==> nBatch >= 1
    ensures !fault ==> created == 0
  {
    var cursor, starts;
    fault, cursor, starts := AssignAsWritten(raw, solverSize, memberSizes, nBatch, false);
    created := 0;
    if fault {
      return;
    }
    var storedBatch := 0;
    for i := 0 to storedBatch
      invariant created == i
    {
      created := created + 1;
    }
  }

  /** `sim_batch_assign` as intended: each member starts where the cursor stands. */
  method Assign(raw: int, solverSize: int, memberSizes: seq<int>, nBatch: int) returns (cursor: int, starts: seq<int>)
    requires 0 <= nBatch <= |memberSizes|
    ensures cursor == raw + solverSize + Sum(memberSizes[..nBatch])
    ensures |starts| == nBatch && forall i :: 0 <= i < nBatch ==> starts[i] == raw + solverSize + Sum(memberSizes[..i])
  {
    cursor := raw + solverSize;
    starts := [];
    for i := 0 to nBatch
      invariant cursor == raw + solverSize + Sum(memberSizes[..i])
      invariant |starts| == i && forall k :: 0 <= k < i ==> starts[k] == raw + solverSize + Sum(memberSizes[..k])
    {
      starts := starts + [cursor];
      SumPrefixStep(memberSizes, i);
      cursor := cursor + memberSizes[i];
    }
  }

  /**
    With the intended placement and non-negative sizes, every member lies
    past the solver struct, the members do not overlap, and all of them end
    by the final cursor.
  */
  lemma AssignedApart(raw: int, solverSize: int, memberSizes: seq<int>, nBatch: int, starts: seq<int>)
    requires 0 <= nBatch <= |memberSizes| && forall k :: 0 <= k < |memberSizes| ==> memberSizes[k] >= 0
    requires |starts| == nBatch && forall i :: 0 <= i < nBatch ==> starts[i] == raw + solverSize + Sum(memberSizes[..i])
    ensures forall i :: 0 <= i < nBatch ==> raw + solverSize <= starts[i]
    ensures forall i, j :: 0 <= i < j < nBatch ==> starts[i] + memberSizes[i] <= starts[j]
    ensures forall i :: 0 <= i < nBatch ==> starts[i] + memberSizes[i] <= raw + solverSize + Sum(memberSizes[..nBatch])
  {
    forall i | 0 <= i < nBatch
      ensures raw + solverSize <= starts[i]
    {
      SumPrefixNonNegative(memberSizes, i);
    }
    forall i, j | 0 <= i < j < nBatch
      ensures starts[i] + memberSizes[i] <= starts[j]
    {
      SumPrefixBelow(memberSizes, i, j);
    }
    forall i | 0 <= i < nBatch
      ensures starts[i] + memberSizes[i] <= raw + solverSize + Sum(memberSizes[..nBatch])
    {
      SumPrefixBelow(memberSizes, i, nBatch);
    }
  }

  /**
    As written, with a non-empty solver struct, member 0 starts inside the
    solver struct, and with two members of positive size they overlap.
  */
  lemma AssignAsWrittenOverlaps(raw: int, solverSize: int, memberSizes: seq<int>, nBatch: int, starts: seq<int>)
    requires 0 <= nBatch <= |memberSizes|
    requires |starts| == nBatch && forall i :: 0 <= i < nBatch ==> starts[i] == raw
    requires nBatch >= 2 && solverSize > 0 && memberSizes[0] > 0
    ensures starts[0] < raw + solverSize
    ensures starts[1] < starts[0] + memberSizes[0]
  {
  }

  /**
    The equality `sim_batch_assign` asserts holds exactly when the member
    sizes sum to `N_batch` memories plus workspaces; in particular it holds
    when every member's size is its memory plus its workspace.
  */
  lemma AssignAssertion(raw: int, solverSize: int, memorySize: int, workspaceSize: int, memberSizes: seq<int>, nBatch: int)
    requires 0 <= nBatch <= |memberSizes|
    ensures raw + solverSize + Sum(memberSizes[..nBatch]) == raw + BatchSize(solverSize, memorySize, workspaceSize, nBatch)
        <==> Sum(memberSizes[..nBatch]) == nBatch * (memorySize + workspaceSize)
    ensures (forall i :: 0 <= i < nBatch ==> memberSizes[i] == memorySize + workspaceSize) ==>
        raw + solverSize + Sum(memberSizes[..nBatch]) == raw + BatchSize(solverSize, memorySize, workspaceSize, nBatch)
  {
    if forall i :: 0 <= i < nBatch ==> memberSizes[i] == memorySize + workspaceSize {
      var s := memberSizes[..nBatch];
      assert forall i :: 0 <= i < |s| ==> s[i] == memorySize + workspaceSize;
      SumOfCopies(s, memorySize + workspaceSize);
    }
  }

  /**
    `sim_batch_solver`: the batch size and the per-member status array.
    The member solvers themselves are foreign and not held here.
  */
  class SimBatchSolver {
    var nBatch: int
    var status: array<int>

    predicate Valid()
      reads this
    {
      0 <= nBatch <= status.Length
    }

    constructor (n: int)
      requires n >= 0
      ensures Valid() && nBatch == n && status.Length == n && fresh(status)
      ensures status[..] == seq(n, _ => 0)
    {
      nBatch := n;
      status := new int[n](_ => 0);
    }

    /** `sim_batch_solver_sum_status`: the sum of the members' statuses. */
    method SumStatus() returns (total: int)
      requires Valid()
      ensures total == Sum(status[..nBatch])
    {
      total := 0;
      for i := 0 to nBatch
        invariant total == Sum(status[..i])
      {
        assert status[..i + 1][..i] == status[..i];
        total := total + status[i];
      }
    }

    /** `sim_batch_solver_reset_status`: every member's status becomes 0, nothing else changes. */
    method ResetStatus()
      requires Valid()
      modifies status
      ensures status[..] == Reset(old(status[..]), nBatch)
    {
      for i := 0 to nBatch
        invariant status[..] == Reset(old(status[..]), i)
      {
        status[i] := 0;
      }
    }

    /** Overwrite every member's status with its return code and report their sum. */
    method RecordAll(codes: seq<int>) returns (total: int)
      requires Valid() && nBatch <= |codes|
      modifies status
      ensures status[..] == Record(old(status[..]), codes, nBatch)
      ensures total == Sum(codes[..nBatch])
    {
      for i := 0 to nBatch
        invariant status[..] == Record(old(status[..]), codes, i)
      {
        status[i] := codes[i];
      }
      RecordedPrefix(old(status[..]), codes, nBatch);
      total := SumStatus();
    }

    /** `sim_batch_precompute`: record each member's `precompute` result and return their sum. */
    method Precompute(codes: seq<int>) returns (total: int)
      requires Valid() && nBatch <= |codes|
      modifies status
      ensures status[..] == Record(old(status[..]), codes, nBatch)
      ensures total == Sum(codes[..nBatch])
    {
      total := RecordAll(codes);
    }

    /** `sim_batch_solver_set`: record each member's `memory_set` result and return their sum. */
    method SolverSet(codes: seq<int>) returns (total: int)
      requires Valid() && nBatch <= |codes|
      modifies status
      ensures status[..] == Record(old(status[..]), codes, nBatch)
      ensures total == Sum(codes[..nBatch])
    {
      total := RecordAll(codes);
    }

    /**
      `sim_batch_solve` as written: the status array is reset, each
      member's result lands in a local variable that is overwritten by the
      next member, and the sum of the freshly reset array, 0, is returned.
    */
    method SolveAsWritten(codes: seq<int>) returns (total: int)
      requires Valid() && nBatch <= |codes|
      modifies status
      ensures status[..] == Reset(old(status[..]), nBatch)
      ensures total == 0
    {
      ResetStatus();
      var last := 0;
      for i := 0 to nBatch {
        last := codes[i];
      }
      total := SumStatus();
      SumAfterReset(old(status[..]), nBatch);
    }

    /** `sim_batch_solve` as intended: each member's result is stored in its status slot and summed. */
    method Solve(codes: seq<int>) returns (total: int)
      requires Valid() && nBatch <= |codes|
      modifies status
      ensures status[..] == Record(old(status[..]), codes, nBatch)
      ensures total == Sum(codes[..nBatch])
    {
      ResetStatus();
      ghost var cleared := status[..];
      total := RecordAll(codes);
      assert Record(cleared, codes, nBatch) == Record(old(status[..]), codes, nBatch);
    }
  }

  /**
    A batch of four members where member 2 fails with code 3: the codes
    sum to 3, so the as-written solve, which always answers 0, reports
    success for a failed batch.
  */
  lemma {:induction false} SolveHidesFailure(codes: seq<int>)
    requires codes == [0, 0, 3, 0]
    ensures Sum(codes[..4]) == 3
    ensures !(forall i :: 0 <= i < 4 ==> codes[i] == 0)
  {
    assert codes[..4] == codes;
    assert codes[..4][..3] == [0, 0, 3];
    assert [0, 0, 3][..2] == [0, 0];
    assert [0, 0][..1] == [0];
    assert [0][..0] == [];
    assert Sum([0]) == 0;
    assert Sum([0, 0]) == 0;
    assert Sum([0, 0, 3]) == 3;
  }
}
