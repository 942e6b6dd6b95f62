/**
  `external_function_casadi` and `external_function_param_casadi`: a
  CasADi-generated function behind acados' external-function interface.
  `calculate_size` asks the generated code for its slot counts and
  patterns and sizes one arena; `assign` carves the arena into the slot
  tables, the integer workspace and one packed buffer per argument and
  result; the wrapper converts the caller's arguments into those buffers,
  runs the generated code and converts the results back out. The
  parametric kind keeps its parameters in the last argument slot.
*/
module CasadiExternal {
  import opened Wrappers
  import opened Sparsity
  import opened Arena
  import opened Arguments
  import opened ColMajor
  import opened Convert

  /**
    What the generated code reports: `casadi_work` (argument slots, result
    slots, integer and real workspace), `casadi_n_in`, `casadi_n_out`, and
    `casadi_sparsity_in` / `casadi_sparsity_out` for every slot, NULL
    (`None`) where the generated code has no pattern.
  */
  datatype Generated = Generated(
    argsNum: int, resNum: int, iwSize: int, wSize: int, nIn: int, nOut: int,
    sparsityIn: seq<Option<Descriptor>>, sparsityOut: seq<Option<Descriptor>>)

  /** Every pattern the generated code reports is well formed. */
  predicate Patterns(ps: seq<Option<Descriptor>>)
  {
    forall i :: 0 <= i < |ps| ==> ps[i].Some? ==> WellFormed(ps[i].value)
  }

  /** The first `declared` slots have a pattern. */
  predicate Declared(ps: seq<Option<Descriptor>>, declared: int)
  {
    0 <= declared <= |ps| && forall i :: 0 <= i < declared ==> ps[i].Some?
  }

  /** The declared inputs and outputs fit in the work slots; sizes are non-negative. */
  predicate ValidGenerated(g: Generated)
  {
    && g.iwSize >= 0 && g.wSize >= 0
    && |g.sparsityIn| == g.argsNum && |g.sparsityOut| == g.resNum
    && Patterns(g.sparsityIn) && Patterns(g.sparsityOut)
    && Declared(g.sparsityIn, g.nIn) && Declared(g.sparsityOut, g.nOut)
  }

  /** `Σ casadi_nnz(sparsity(ii))` over the first `n` slots. */
  function SumNnz(ps: seq<Option<Descriptor>>, n: int): (total: int)
    requires Patterns(ps) && 0 <= n <= |ps|
    ensures total >= 0
  {
    if n == 0 then 0 else SumNnz(ps, n - 1) + Nnz(ps[n - 1])
  }

  /** Per-slot sizes that are the slots' nonzero counts add up to the total. */
  lemma {:induction false} SizesAddUp(ps: seq<Option<Descriptor>>, sizes: seq<int>, n: int)
    requires Patterns(ps) && 0 <= n <= |ps| && n <= |sizes|
    requires forall i :: 0 <= i < n ==> sizes[i] == Nnz(ps[i])
    ensures Prefix(sizes, n) == SumNnz(ps, n)
  {
    if n > 0 {
      SizesAddUp(ps, sizes, n - 1);
    }
  }

  /** The bytes the slot tables take: `args` and `res` pointers, then four `int` tables and `iw`. */
  function TableBytes(g: Generated, ptrSize: int): int
  {
    g.argsNum * ptrSize + g.resNum * ptrSize + 2 * g.argsNum * IntSize + 2 * g.resNum * IntSize + g.iwSize * IntSize
  }

  /** The bytes the doubles take: the argument and result buffers, `w`, and `np` parameters. */
  function DoubleBytes(g: Generated, np: int): int
    requires ValidGenerated(g)
  {
    (SumNnz(g.sparsityIn, g.argsNum) + SumNnz(g.sparsityOut, g.resNum) + g.wSize + np) * DoubleSize
  }

  /**
    `calculate_size`: tables and doubles plus 16 bytes for the two
    alignments, rounded up to a multiple of 8 (`np` is 0 for the plain kind).
  */
  function ArenaSize(g: Generated, np: int, ptrSize: int): (size: int)
    requires ValidGenerated(g) && np >= 0 && ptrSize >= 0
    ensures size % 8 == 0
    ensures TableBytes(g, ptrSize) + DoubleBytes(g, np) + 16 <= size < TableBytes(g, ptrSize) + DoubleBytes(g, np) + 24
  {
    RoundUp8(TableBytes(g, ptrSize) + DoubleBytes(g, np) + 16)
  }

  /** Where `assign` puts each region, as byte addresses. */
  datatype Layout = Layout(
    argsPtrs: int, resPtrs: int, argsSizeAt: int, argsDenseAt: int, resSizeAt: int, resDenseAt: int,
    iwAt: int, argsAt: seq<int>, resAt: seq<int>, wAt: int, end: int)

  /**
    The cursor walk of `assign` from `raw`: align to 8, the two pointer
    tables, the four `int` tables, `iw`, align to 8 again, one buffer of
    `argsSize[ii]` doubles per argument slot, one of `resSize[ii]` per
    result slot, then `w`; `end` is where the cursor stops.
  */
  function Place(g: Generated, argsSize: seq<int>, resSize: seq<int>, ptrSize: int, raw: int): (l: Layout)
    requires g.argsNum == |argsSize| && g.resNum == |resSize|
    requires g.iwSize >= 0 && g.wSize >= 0 && ptrSize >= 0 && raw >= 0
    ensures |l.argsAt| == g.argsNum && |l.resAt| == g.resNum
    ensures raw <= l.argsPtrs <= l.resPtrs <= l.argsSizeAt <= l.argsDenseAt <= l.resSizeAt <= l.resDenseAt <= l.iwAt
  {
    var argsPtrs := RoundUp8(raw);
    var resPtrs := argsPtrs + g.argsNum * ptrSize;
    var argsSizeAt := resPtrs + g.resNum * ptrSize;
    var argsDenseAt := argsSizeAt + g.argsNum * IntSize;
    var resSizeAt := argsDenseAt + g.argsNum * IntSize;
    var resDenseAt := resSizeAt + g.resNum * IntSize;
    var iwAt := resDenseAt + g.resNum * IntSize;
    var doubles := RoundUp8(iwAt + g.iwSize * IntSize);
    var resStart := doubles + Prefix(argsSize, g.argsNum) * DoubleSize;
    var wAt := resStart + Prefix(resSize, g.resNum) * DoubleSize;
    Layout(argsPtrs, resPtrs, argsSizeAt, argsDenseAt, resSizeAt, resDenseAt, iwAt,
      Offsets(argsSize, doubles), Offsets(resSize, resStart), wAt, wAt + g.wSize * DoubleSize)
  }

  /** The start addresses of consecutive double buffers of the given sizes from `start` on. */
  function Offsets(sizes: seq<int>, start: int): (at: seq<int>)
    ensures |at| == |sizes|
  {
    seq(|sizes|, i requires 0 <= i < |sizes| => start + Prefix(sizes, i) * DoubleSize)
  }

  /** The slot sizes `assign` records: each slot's nonzero count. */
  predicate SlotSizes(ps: seq<Option<Descriptor>>, sizes: seq<int>)
    requires Patterns(ps)
  {
    |sizes| == |ps| && forall i :: 0 <= i < |ps| ==> sizes[i] == Nnz(ps[i])
  }

  /**
    The trailing assertion of `assign`: with the recorded slot sizes the
    cursor stops inside `[raw, raw + calculate_size]`, and it starts on
    an 8-byte boundary no lower than `raw`.
  */
  lemma PlaceFits(g: Generated, argsSize: seq<int>, resSize: seq<int>, np: int, ptrSize: int, raw: int)
    requires ValidGenerated(g) && SlotSizes(g.sparsityIn, argsSize) && SlotSizes(g.sparsityOut, resSize)
    requires np >= 0 && ptrSize >= 0 && raw >= 0
    ensures var l := Place(g, argsSize, resSize, ptrSize, raw);
      && raw <= l.argsPtrs && l.argsPtrs % 8 == 0
      && l.end <= raw + ArenaSize(g, np, ptrSize)
  {
    SizesAddUp(g.sparsityIn, argsSize, g.argsNum);
    SizesAddUp(g.sparsityOut, resSize, g.resNum);
  }

  /** Adding whole doubles to an 8-aligned address keeps it aligned. */
  lemma AlignedPlus(a: int, k: int)
    requires a % 8 == 0
    ensures (a + k * DoubleSize) % 8 == 0
  {
    assert a == 8 * (a / 8);
    assert a + k * DoubleSize == 8 * (a / 8 + k);
  }

  /** Every double region `assign` places (argument buffers, result buffers, `w`) starts on an 8-byte boundary. */
  lemma PlaceAligned(g: Generated, argsSize: seq<int>, resSize: seq<int>, ptrSize: int, raw: int)
    requires g.argsNum == |argsSize| && g.resNum == |resSize|
    requires g.iwSize >= 0 && g.wSize >= 0 && ptrSize >= 0 && raw >= 0
    ensures var l := Place(g, argsSize, resSize, ptrSize, raw);
      && (forall i :: 0 <= i < g.argsNum ==> l.argsAt[i] % 8 == 0)
      && (forall i :: 0 <= i < g.resNum ==> l.resAt[i] % 8 == 0)
      && l.wAt % 8 == 0
  {
    var l := Place(g, argsSize, resSize, ptrSize, raw);
    var doubles := RoundUp8(l.iwAt + g.iwSize * IntSize);
    var resStart := doubles + Prefix(argsSize, g.argsNum) * DoubleSize;
    forall i | 0 <= i < g.argsNum
      ensures l.argsAt[i] % 8 == 0
    {
      AlignedPlus(doubles, Prefix(argsSize, i));
    }
    AlignedPlus(doubles, Prefix(argsSize, g.argsNum));
    forall i | 0 <= i < g.resNum
      ensures l.resAt[i] % 8 == 0
    {
      AlignedPlus(resStart, Prefix(resSize, i));
    }
    AlignedPlus(resStart, Prefix(resSize, g.resNum));
  }

  /**
    Buffers at consecutive offsets do not overlap: buffer `i` ends before
    buffer `j > i` starts, the first starts at `start` and the last ends at
    `start` plus all the sizes.
  */
  lemma OffsetsOrdered(sizes: seq<int>, start: int)
    requires forall k :: 0 <= k < |sizes| ==> sizes[k] >= 0
    ensures var at := Offsets(sizes, start);
      && (|sizes| > 0 ==> at[0] == start)
      && (forall i, j :: 0 <= i < j < |sizes| ==> at[i] + sizes[i] * DoubleSize <= at[j])
      && (forall i :: 0 <= i < |sizes| ==> at[i] + sizes[i] * DoubleSize <= start + Prefix(sizes, |sizes|) * DoubleSize)
  {
    var at := Offsets(sizes, start);
    forall i, j | 0 <= i < j <= |sizes|
      ensures Prefix(sizes, i) + sizes[i] <= Prefix(sizes, j)
    {
      PrefixBelow(sizes, i, j);
    }
  }

  /**
    The regions `assign` places follow one another without overlap: the
    tables and `iw` end before the first double region, the argument
    buffers come in slot order, the last one ends before the first result
    buffer, the result buffers come in slot order and end before `w`.
  */
  lemma PlaceOrdered(g: Generated, argsSize: seq<int>, resSize: seq<int>, ptrSize: int, raw: int)
    requires g.argsNum == |argsSize| && g.resNum == |resSize|
    requires g.iwSize >= 0 && g.wSize >= 0 && ptrSize >= 0 && raw >= 0
    requires forall k :: 0 <= k < |argsSize| ==> argsSize[k] >= 0
    requires forall k :: 0 <= k < |resSize| ==> resSize[k] >= 0
    ensures var l := Place(g, argsSize, resSize, ptrSize, raw);
      var resStart := l.wAt - Prefix(resSize, g.resNum) * DoubleSize;
      && l.iwAt + g.iwSize * IntSize <= (if g.argsNum > 0 then l.argsAt[0] else resStart)
      && (forall i, j :: 0 <= i < j < g.argsNum ==> l.argsAt[i] + argsSize[i] * DoubleSize <= l.argsAt[j])
      && (forall i :: 0 <= i < g.argsNum ==> l.argsAt[i] + argsSize[i] * DoubleSize <= resStart)
      && (g.resNum > 0 ==> l.resAt[0] == resStart)
      && (forall i, j :: 0 <= i < j < g.resNum ==> l.resAt[i] + resSize[i] * DoubleSize <= l.resAt[j])
      && (forall i :: 0 <= i < g.resNum ==> l.resAt[i] + resSize[i] * DoubleSize <= l.wAt)
  {
    var l := Place(g, argsSize, resSize, ptrSize, raw);
    var doubles := RoundUp8(l.iwAt + g.iwSize * IntSize);
    var resStart := doubles + Prefix(argsSize, g.argsNum) * DoubleSize;
    assert l.argsAt == Offsets(argsSize, doubles);
    assert l.resAt == Offsets(resSize, resStart);
    assert l.wAt == resStart + Prefix(resSize, g.resNum) * DoubleSize;
    assert l.iwAt + g.iwSize * IntSize <= doubles;
    OffsetsOrdered(argsSize, doubles);
    OffsetsOrdered(resSize, resStart);
    PrefixNonNegative(argsSize, g.argsNum);
  }

  /** The size and density tables of a list of slots: each slot's nonzero count and its `casadi_is_dense` flag as written. */
  predicate SlotTablesOk(ps: seq<Option<Descriptor>>, sizes: seq<int>, dense: seq<bool>)
    requires Patterns(ps)
  {
    SlotSizes(ps, sizes) && |dense| == |ps| && forall i :: 0 <= i < |ps| ==> dense[i] == IsDenseAsWritten(ps[i])
  }

  /** One distinct buffer per slot, of the slot's size. */
  predicate BuffersFit(bufs: seq<array<real>>, sizes: seq<int>)
  {
    && |bufs| == |sizes|
    && (forall i :: 0 <= i < |bufs| ==> bufs[i].Length == sizes[i])
    && (forall i, j :: 0 <= i < j < |bufs| ==> bufs[i] != bufs[j])
  }

  /** No buffer of one list is a buffer of the other. */
  predicate Apart(xs: seq<array<real>>, ys: seq<array<real>>)
  {
    forall i, j :: 0 <= i < |xs| && 0 <= j < |ys| ==> xs[i] != ys[j]
  }

  /**
    The size and density tables of both slot lists, and one distinct buffer
    per slot; no argument buffer is a result buffer.
  */
  predicate Fitted(g: Generated, aSize: seq<int>, aDense: seq<bool>, rSize: seq<int>, rDense: seq<bool>,
                   aBufs: seq<array<real>>, rBufs: seq<array<real>>)
    requires ValidGenerated(g)
  {
    && SlotTablesOk(g.sparsityIn, aSize, aDense) && SlotTablesOk(g.sparsityOut, rSize, rDense)
    && BuffersFit(aBufs, aSize) && BuffersFit(rBufs, rSize) && Apart(aBufs, rBufs)
  }

  /** What `assign` leaves in the arena at `raw`: tables and buffers fitted, every region where the cursor walk puts it. */
  predicate Arranged(g: Generated, ptrSize: int, raw: int, aSize: seq<int>, aDense: seq<bool>, rSize: seq<int>, rDense: seq<bool>,
                     aBufs: seq<array<real>>, rBufs: seq<array<real>>, l: Layout)
    requires ValidGenerated(g) && ptrSize > 0
  {
    && Fitted(g, aSize, aDense, rSize, rDense, aBufs, rBufs)
    && raw >= 0 && l == Place(g, aSize, rSize, ptrSize, raw)
  }

  /** The storage objects reached from a sequence of arguments. */
  ghost function Frames(xs: seq<Arg>): set<object>
  {
    set i, o | 0 <= i < |xs| && o in Frame(xs[i]) :: o
  }

  /** Each result buffer holds what the generated code writes for that slot. */
  predicate Shaped(r: seq<seq<real>>, sizes: seq<int>)
  {
    |r| == |sizes| && forall i :: 0 <= i < |r| ==> |r[i]| == sizes[i]
  }

  /**
    A conversion loop's slots line up: for each visited slot `k`, a well
    formed pattern the argument fits, the density flag as written of that pattern and
    a buffer of its nonzero count; no buffer is storage of a visited
    argument.
  */
  predicate Slots(xs: seq<Arg>, sps: seq<Descriptor>, dense: seq<bool>, bufs: seq<array<real>>)
  {
    && |sps| <= |xs| && |sps| <= |dense| && |sps| <= |bufs|
    && (forall k :: 0 <= k < |sps| ==> WellFormed(sps[k]) && ArgFits(xs[k], sps[k]))
    && (forall k :: 0 <= k < |sps| ==> bufs[k].Length == Nnz(Some(sps[k])) && dense[k] == IsDenseAsWritten(Some(sps[k])))
    && (forall k, j :: 0 <= k < |sps| && 0 <= j < |bufs| ==> bufs[j] !in Frame(xs[k]))
  }

  /** The input loop writes the buffers, so they must be distinct. */
  predicate Lined(xs: seq<Arg>, sps: seq<Descriptor>, dense: seq<bool>, bufs: seq<array<real>>)
  {
    Slots(xs, sps, dense, bufs) && forall i, j :: 0 <= i < j < |bufs| ==> bufs[i] != bufs[j]
  }

  /** The output loop writes the arguments, so their storage must not overlap. */
  predicate Spread(xs: seq<Arg>, sps: seq<Descriptor>, dense: seq<bool>, bufs: seq<array<real>>)
  {
    Slots(xs, sps, dense, bufs) && forall i, j :: 0 <= i < j < |sps| ==> Frame(xs[i]) !! Frame(xs[j])
  }

  /** One step of the input loop: slot `ii` is converted into `want`, or the conversion reports how it ends. */
  method LoadStep(xs: seq<Arg>, sps: seq<Descriptor>, dense: seq<bool>, bufs: seq<array<real>>, ii: int, ghost want: seq<real>)
    returns (outcome: Outcome)
    requires Lined(xs, sps, dense, bufs) && 0 <= ii < |sps|
    requires want == LoadAsWritten(Contents(xs[ii], sps[ii]), sps[ii], dense[ii], bufs[ii][..])
    modifies bufs[ii]
    ensures outcome == OutcomeOf(xs[ii], sps[ii], dense[ii])
    ensures bufs[ii][..] == want
    ensures forall k :: 0 <= k < |sps| ==> Contents(xs[k], sps[k]) == old(Contents(xs[k], sps[k]))
    ensures forall k :: 0 <= k < |bufs| && k != ii ==> bufs[k][..] == old(bufs[k][..])
  {
    outcome := LoadArg(xs[ii], sps[ii], dense[ii], bufs[ii]);
    forall k | 0 <= k < |sps|
      ensures Contents(xs[k], sps[k]) == old(Contents(xs[k], sps[k]))
    {
      assert bufs[ii] !in Frame(xs[k]);
    }
  }

  /**
    The input loop of the wrappers over the visited slots: convert each
    argument into its buffer by its type and the recorded density flag,
    stopping at the first unknown type (where the C code exits) or
    conversion that would run past a buffer. Buffers past the visited
    slots keep their contents.
  */
  method LoadAll(xs: seq<Arg>, sps: seq<Descriptor>, dense: seq<bool>, bufs: seq<array<real>>) returns (outcome: Outcome)
    requires Lined(xs, sps, dense, bufs)
    modifies set j | 0 <= j < |bufs| :: bufs[j]
    ensures outcome == Converted <==>
      forall k :: 0 <= k < |sps| ==> OutcomeOf(xs[k], sps[k], dense[k]) == Converted
    ensures outcome == Converted ==> forall k :: 0 <= k < |sps| ==>
      bufs[k][..] == LoadAsWritten(old(Contents(xs[k], sps[k])), sps[k], dense[k], old(bufs[k][..]))
    ensures forall k :: |sps| <= k < |bufs| ==> bufs[k][..] == old(bufs[k][..])
  {
    ghost var want := seq(|sps|, k requires 0 <= k < |sps| =>
      LoadAsWritten(old(Contents(xs[k], sps[k])), sps[k], dense[k], old(bufs[k][..])));
    outcome := Converted;
    for ii := 0 to |sps|
      invariant outcome == Converted
      invariant forall k :: 0 <= k < ii ==> OutcomeOf(xs[k], sps[k], dense[k]) == Converted
      invariant forall k :: 0 <= k < ii ==> bufs[k][..] == want[k]
      invariant forall k :: ii <= k < |bufs| ==> bufs[k][..] == old(bufs[k][..])
      invariant forall k :: 0 <= k < |sps| ==> Contents(xs[k], sps[k]) == old(Contents(xs[k], sps[k]))
    {
      outcome := LoadStep(xs, sps, dense, bufs, ii, want[ii]);
      if outcome != Converted {
        return;
      }
    }
  }

  /** One step of the output loop: buffer `ii` is scattered into argument `ii`, whose contents become `want`; no buffer changes. */
  method StoreStep(bufs: seq<array<real>>, sps: seq<Descriptor>, dense: seq<bool>, xs: seq<Arg>, ii: int, ghost want: Content)
    returns (outcome: Outcome)
    requires Spread(xs, sps, dense, bufs) && 0 <= ii < |sps|
    requires want == StoreAsWritten(Contents(xs[ii], sps[ii]), sps[ii], dense[ii], bufs[ii][..])
    modifies Frame(xs[ii])
    ensures outcome == OutcomeOf(xs[ii], sps[ii], dense[ii])
    ensures Contents(xs[ii], sps[ii]) == want
    ensures forall k :: 0 <= k < |sps| && k != ii ==> Contents(xs[k], sps[k]) == old(Contents(xs[k], sps[k]))
    ensures forall j :: 0 <= j < |bufs| ==> bufs[j][..] == old(bufs[j][..])
  {
    outcome := StoreArg(bufs[ii], sps[ii], dense[ii], xs[ii]);
    forall k | 0 <= k < |sps| && k != ii
      ensures Contents(xs[k], sps[k]) == old(Contents(xs[k], sps[k]))
    {
      assert Frame(xs[k]) !! Frame(xs[ii]);
    }
  }

  /**
    The output loop of the wrappers over the visited slots: scatter each
    buffer into its argument by the argument's type and the recorded
    density flag, stopping at the first unknown type (where the C code
    exits) or conversion that would run past a buffer. The buffers are
    only read.
  */
  method StoreAll(bufs: seq<array<real>>, sps: seq<Descriptor>, dense: seq<bool>, xs: seq<Arg>) returns (outcome: Outcome)
    requires Spread(xs, sps, dense, bufs)
    modifies Frames(xs[..|sps|])
    ensures outcome == Converted <==>
      forall k :: 0 <= k < |sps| ==> OutcomeOf(xs[k], sps[k], dense[k]) == Converted
    ensures outcome == Converted ==> forall k :: 0 <= k < |sps| ==>
      Contents(xs[k], sps[k]) == StoreAsWritten(old(Contents(xs[k], sps[k])), sps[k], dense[k], old(bufs[k][..]))
    ensures forall j :: 0 <= j < |bufs| ==> bufs[j][..] == old(bufs[j][..])
  {
    ghost var want := seq(|sps|, k requires 0 <= k < |sps| =>
      StoreAsWritten(old(Contents(xs[k], sps[k])), sps[k], dense[k], old(bufs[k][..])));
    outcome := Converted;
    for ii := 0 to |sps|
      invariant outcome == Converted
      invariant forall k :: 0 <= k < ii ==> OutcomeOf(xs[k], sps[k], dense[k]) == Converted
      invariant forall k :: 0 <= k < ii ==> Contents(xs[k], sps[k]) == want[k]
      invariant forall k :: ii <= k < |sps| ==> Contents(xs[k], sps[k]) == old(Contents(xs[k], sps[k]))
      invariant forall j :: 0 <= j < |bufs| ==> bufs[j][..] == old(bufs[j][..])
    {
      assert xs[..|sps|][ii] == xs[ii];
      outcome := StoreStep(bufs, sps, dense, xs, ii, want[ii]);
      if outcome != Converted {
        return;
      }
    }
  }

  /**
    The output loop over one function's tables: the result buffers are
    scattered into the outputs, and neither they nor the argument buffers
    change.
  */
  method StoreResults(g: Generated, rSize: seq<int>, rDense: seq<bool>, rBufs: seq<array<real>>, aBufs: seq<array<real>>,
                      outputs: seq<Arg>, sps: seq<Descriptor>) returns (outcome: Outcome)
    requires ValidGenerated(g) && SlotTablesOk(g.sparsityOut, rSize, rDense) && BuffersFit(rBufs, rSize)
    requires |sps| == g.nOut <= |outputs| && forall k :: 0 <= k < |sps| ==> g.sparsityOut[k] == Some(sps[k])
    requires forall k :: 0 <= k < |sps| ==> ArgFits(outputs[k], sps[k])
    requires forall k, j :: 0 <= k < |sps| && 0 <= j < |rBufs| ==> rBufs[j] !in Frame(outputs[k])
    requires forall k, j :: 0 <= k < |sps| && 0 <= j < |aBufs| ==> aBufs[j] !in Frame(outputs[k])
    requires forall i, j :: 0 <= i < j < |sps| ==> Frame(outputs[i]) !! Frame(outputs[j])
    modifies Frames(outputs[..|sps|])
    ensures outcome == Converted <==>
      forall k :: 0 <= k < |sps| ==> OutcomeOf(outputs[k], sps[k], rDense[k]) == Converted
    ensures outcome == Converted ==> forall k :: 0 <= k < |sps| ==>
      Contents(outputs[k], sps[k]) == StoreAsWritten(old(Contents(outputs[k], sps[k])), sps[k], rDense[k], rBufs[k][..])
    ensures forall j :: 0 <= j < |aBufs| ==> aBufs[j][..] == old(aBufs[j][..])
    ensures forall j :: 0 <= j < |rBufs| ==> rBufs[j][..] == old(rBufs[j][..])
  {
    assert Spread(outputs, sps, rDense, rBufs);
    ghost var outs := outputs[..|sps|];
    assert forall k :: 0 <= k < |outs| ==> outs[k] == outputs[k];
    assert forall j :: 0 <= j < |aBufs| ==> aBufs[j] !in Frames(outs);
    outcome := StoreAll(rBufs, sps, rDense, outputs);
  }

  class CasadiFunction {
    /** `external_function_param_casadi` rather than `external_function_casadi`. */
    const parametric: bool
    /** `sizeof(double *)`. */
    const ptrSize: int
    /** The generated code the `set_*` helpers install. */
    const gen: Generated
    /** Whether that code's counts and patterns agree with each other. */
    const consistent: bool := ValidGenerated(gen)

    var argsNum: int
    var resNum: int
    var iwSize: int
    var wSize: int
    var inNum: int
    var outNum: int
    var argsSizeTot: int
    var resSizeTot: int
    var np: int

    var argsSize: seq<int>
    var argsDense: seq<bool>
    var resSize: seq<int>
    var resDense: seq<bool>
    /** The packed argument and result buffers `args[ii]`, `res[ii]`. */
    var args: seq<array<real>>
    var res: seq<array<real>>
    var layout: Layout
    var ptrExtMem: int

    /** The object after the `set_*` helpers have installed the generated code. */
    constructor (g: Generated, parametric: bool, ptrSize: int)
      requires ValidGenerated(g) && ptrSize > 0
      ensures this.gen == g && this.parametric == parametric && this.ptrSize == ptrSize
    {
      this.gen := g;
      this.parametric := parametric;
      this.ptrSize := ptrSize;
    }

    /** The state `calculate_size` leaves: the counts the generated code reports and their totals. */
    predicate Sized()
      reads this`np, this`argsNum, this`resNum, this`iwSize, this`wSize, this`inNum, this`outNum
      reads this`argsSizeTot, this`resSizeTot
    {
      && consistent && ptrSize > 0
      && argsNum == gen.argsNum && resNum == gen.resNum && iwSize == gen.iwSize && wSize == gen.wSize
      && inNum == gen.nIn && outNum == gen.nOut
      && np >= 0 && (!parametric ==> np == 0)
    }

    /** The nonzero totals `calculate_size` records. */
    predicate Totals()
      reads this`argsNum, this`resNum, this`argsSizeTot, this`resSizeTot
    {
      && consistent && argsNum == gen.argsNum && resNum == gen.resNum
      && argsSizeTot == SumNnz(gen.sparsityIn, argsNum) && resSizeTot == SumNnz(gen.sparsityOut, resNum)
    }

    /** The state `assign` leaves: the arena at `ptrExtMem` arranged for the generated code's slots. */
    predicate Valid()
      reads this
    {
      Sized() && Arranged(gen, ptrSize, ptrExtMem, argsSize, argsDense, resSize, resDense, args, res, layout)
    }

    /** What the wrapper relies on: slot tables filled from the patterns and one distinct buffer per slot. */
    predicate Ready()
      reads this
    {
      Sized() && Fitted(gen, argsSize, argsDense, resSize, resDense, args, res)
    }

    /** The argument buffers. */
    ghost function ArgBuffers(): set<object>
      reads this
    {
      set i | 0 <= i < |args| :: args[i] as object
    }

    /** The result buffers. */
    ghost function ResBuffers(): set<object>
      reads this
    {
      set i | 0 <= i < |res| :: res[i] as object
    }

    /** The argument and result buffers. */
    ghost function Buffers(): set<object>
      reads this
    {
      ArgBuffers() + ResBuffers()
    }

    /** The contents of the argument buffers. */
    function ArgValues(): (vs: seq<seq<real>>)
      reads this, set i | 0 <= i < |args| :: args[i]
      ensures |vs| == |args| && forall i :: 0 <= i < |args| ==> vs[i] == args[i][..]
    {
      seq(|args|, i requires 0 <= i < |args| reads this, args => args[i][..])
    }

    /** The contents of the result buffers. */
    function ResValues(): (vs: seq<seq<real>>)
      reads this, set i | 0 <= i < |res| :: res[i]
      ensures |vs| == |res| && forall i :: 0 <= i < |res| ==> vs[i] == res[i][..]
    {
      seq(|res|, i requires 0 <= i < |res| reads this, res => res[i][..])
    }

    /** The inputs the wrapper converts: all of them, or all but the last (the parameters) in the parametric kind. */
    function InLimit(): (n: int)
      ensures 0 <= gen.nIn ==> 0 <= n <= gen.nIn
      ensures parametric && gen.nIn > 0 ==> n == gen.nIn - 1
      ensures !parametric ==> n == gen.nIn
    {
      if !parametric then gen.nIn else if gen.nIn > 0 then gen.nIn - 1 else 0
    }

    /** The pattern of declared input `j`. */
    function SpIn(j: int): (sp: Descriptor)
      requires consistent && 0 <= j < gen.nIn
      ensures WellFormed(sp) && gen.sparsityIn[j] == Some(sp)
    {
      gen.sparsityIn[j].value
    }

    /** The pattern of declared output `j`. */
    function SpOut(j: int): (sp: Descriptor)
      requires consistent && 0 <= j < gen.nOut
      ensures WellFormed(sp) && gen.sparsityOut[j] == Some(sp)
    {
      gen.sparsityOut[j].value
    }

    /**
      `calculate_size`: query the generated code, total the nonzeros of
      all argument and all result slots, and return the arena size. The
      parametric kind also records `np`; the plain kind has no parameters.
    */
    method CalculateSize(np: int) returns (size: int)
      requires consistent && ptrSize > 0 && np >= 0
      modifies this`np, this`argsNum, this`resNum, this`iwSize, this`wSize, this`inNum, this`outNum
      modifies this`argsSizeTot, this`resSizeTot
      ensures Sized() && Totals() && this.np == (if parametric then np else 0)
      ensures size == ArenaSize(gen, this.np, ptrSize)
    {
      var nParams := if parametric then np else 0;
      var aTot := TotalNnz(gen.sparsityIn);
      var rTot := TotalNnz(gen.sparsityOut);

      size := 0;
      size := size + gen.argsNum * ptrSize + gen.resNum * ptrSize;
      size := size + 2 * gen.argsNum * IntSize + 2 * gen.resNum * IntSize + gen.iwSize * IntSize;
      assert size == TableBytes(gen, ptrSize);
      size := size + (aTot + rTot + gen.wSize + nParams) * DoubleSize;
      size := size + 8 + 8;
      size := RoundUp8(size);

      this.np, argsSizeTot, resSizeTot := nParams, aTot, rTot;
      argsNum, resNum, iwSize, wSize := gen.argsNum, gen.resNum, gen.iwSize, gen.wSize;
      inNum, outNum := gen.nIn, gen.nOut;
    }

    /** The loop of `calculate_size` that totals `casadi_nnz` over all slots. */
    static method TotalNnz(ps: seq<Option<Descriptor>>) returns (tot: int)
      requires Patterns(ps)
      ensures tot == SumNnz(ps, |ps|)
    {
      tot := 0;
      for ii := 0 to |ps|
        invariant tot == SumNnz(ps, ii)
      {
        tot := tot + Nnz(ps[ii]);
      }
    }

    /** The size and density tables `assign` fills from the patterns. */
    static method SlotTables(ps: seq<Option<Descriptor>>) returns (sizes: seq<int>, dense: seq<bool>)
      requires Patterns(ps)
      ensures SlotTablesOk(ps, sizes, dense)
    {
      sizes, dense := [], [];
      for ii := 0 to |ps|
        invariant |sizes| == ii && |dense| == ii
        invariant forall i :: 0 <= i < ii ==> sizes[i] == Nnz(ps[i]) && dense[i] == IsDenseAsWritten(ps[i])
      {
        sizes := sizes + [Nnz(ps[ii])];
        dense := dense + [IsDenseAsWritten(ps[ii])];
      }
    }

    /** One fresh buffer per slot, of the slot's size, and the cursor past them. */
    static method PlaceBuffers(sizes: seq<int>, start: int) returns (bufs: seq<array<real>>, at: seq<int>, cursor: int)
      requires forall i :: 0 <= i < |sizes| ==> sizes[i] >= 0
      ensures BuffersFit(bufs, sizes) && forall i :: 0 <= i < |sizes| ==> fresh(bufs[i])
      ensures at == Offsets(sizes, start)
      ensures cursor == start + Prefix(sizes, |sizes|) * DoubleSize
    {
      bufs, at, cursor := [], [], start;
      for ii := 0 to |sizes|
        invariant |bufs| == ii && |at| == ii
        invariant forall i :: 0 <= i < ii ==> fresh(bufs[i]) && bufs[i].Length == sizes[i]
        invariant forall i, j :: 0 <= i < j < ii ==> bufs[i] != bufs[j]
        invariant forall i :: 0 <= i < ii ==> at[i] == start + Prefix(sizes, i) * DoubleSize
        invariant cursor == start + Prefix(sizes, ii) * DoubleSize
      {
        var b := new real[sizes[ii]];
        assert forall i :: 0 <= i < ii ==> bufs[i] != b;
        bufs := bufs + [b];
        at := at + [cursor];
        cursor := cursor + sizes[ii] * DoubleSize;
      }
      assert forall i :: 0 <= i < |bufs| ==> bufs[i].Length == sizes[i];
    }

    /**
      The cursor walk of `assign` from `raw`: the pointer tables, the size
      and density tables (filled from the patterns), `iw`, one fresh buffer
      per argument and result slot, and `w`.
    */
    static method Carve(g: Generated, ptrSize: int, raw: int)
      returns (aSize: seq<int>, aDense: seq<bool>, rSize: seq<int>, rDense: seq<bool>,
               aBufs: seq<array<real>>, rBufs: seq<array<real>>, l: Layout)
      requires ValidGenerated(g) && ptrSize > 0 && raw >= 0
      ensures Arranged(g, ptrSize, raw, aSize, aDense, rSize, rDense, aBufs, rBufs, l)
      ensures forall i :: 0 <= i < |aBufs| ==> fresh(aBufs[i])
      ensures forall i :: 0 <= i < |rBufs| ==> fresh(rBufs[i])
    {
      var c := RoundUp8(raw);
      var argsPtrs := c;
      c := c + g.argsNum * ptrSize;
      var resPtrs := c;
      c := c + g.resNum * ptrSize;
      var argsSizeAt := c;
      c := c + g.argsNum * IntSize;
      var argsDenseAt := c;
      c := c + g.argsNum * IntSize;
      aSize, aDense := SlotTables(g.sparsityIn);
      var resSizeAt := c;
      c := c + g.resNum * IntSize;
      var resDenseAt := c;
      c := c + g.resNum * IntSize;
      rSize, rDense := SlotTables(g.sparsityOut);
      var iwAt := c;
      c := c + g.iwSize * IntSize;
      c := RoundUp8(c);

      assert forall i :: 0 <= i < |aSize| ==> aSize[i] >= 0;
      assert forall i :: 0 <= i < |rSize| ==> rSize[i] >= 0;
      var argsAt, resAt;
      aBufs, argsAt, c := PlaceBuffers(aSize, c);
      rBufs, resAt, c := PlaceBuffers(rSize, c);
      var wAt := c;
      c := c + g.wSize * DoubleSize;
      assert Apart(aBufs, rBufs);
      l := Layout(argsPtrs, resPtrs, argsSizeAt, argsDenseAt, resSizeAt, resDenseAt, iwAt, argsAt, resAt, wAt, c);
    }

    /**
      `assign`: carve the arena at `raw` into the slot tables, `iw`, the
      buffers and `w`; the cursor stops inside the arena `calculate_size`
      asked for.
    */
    method Assign(raw: int)
      requires Sized() && raw >= 0
      modifies this`ptrExtMem, this`argsSize, this`argsDense, this`resSize, this`resDense
      modifies this`args, this`res, this`layout
      ensures Valid() && ptrExtMem == raw
      ensures forall i :: 0 <= i < argsNum ==> fresh(args[i])
      ensures forall i :: 0 <= i < resNum ==> fresh(res[i])
      ensures layout.end <= raw + ArenaSize(gen, np, ptrSize)
    {
      var aSize, aDense, rSize, rDense, aBufs, rBufs, l := Carve(gen, ptrSize, raw);
      PlaceFits(gen, aSize, rSize, np, ptrSize, raw);
      ptrExtMem, argsSize, argsDense, resSize, resDense := raw, aSize, aDense, rSize, rDense;
      args, res, layout := aBufs, rBufs, l;
    }

    /** The patterns of the first `n` declared inputs. */
    function InPatterns(n: int): (sps: seq<Descriptor>)
      requires consistent && 0 <= n <= gen.nIn
      ensures |sps| == n && forall k :: 0 <= k < n ==> sps[k] == SpIn(k)
    {
      if n == 0 then [] else InPatterns(n - 1) + [SpIn(n - 1)]
    }

    /** The patterns of the first `n` declared outputs. */
    function OutPatterns(n: int): (sps: seq<Descriptor>)
      requires consistent && 0 <= n <= gen.nOut
      ensures |sps| == n && forall k :: 0 <= k < n ==> sps[k] == SpOut(k)
    {
      if n == 0 then [] else OutPatterns(n - 1) + [SpOut(n - 1)]
    }

    /**
      The input loop of the wrapper: convert each of the first `InLimit()`
      arguments into its packed buffer by its type and the recorded density
      flag, stopping at the first unknown type (where the C code exits) or
      conversion that would run past a buffer. Slots past `InLimit()` (the
      parameters, in the parametric kind) and the result buffers keep
      their contents.
    */
    method LoadInputs(inputs: seq<Arg>) returns (outcome: Outcome)
      requires Ready() && |inputs| >= InLimit()
      requires forall k :: 0 <= k < InLimit() ==> ArgFits(inputs[k], SpIn(k)) && Frame(inputs[k]) !! Buffers()
      modifies ArgBuffers()
      ensures unchanged(this)
      ensures outcome == Converted <==> forall k :: 0 <= k < InLimit() ==>
        OutcomeOf(inputs[k], SpIn(k), argsDense[k]) == Converted
      ensures outcome == Converted ==> forall k :: 0 <= k < InLimit() ==>
        args[k][..] == LoadAsWritten(old(Contents(inputs[k], SpIn(k))), SpIn(k), argsDense[k], old(args[k][..]))
      ensures forall k :: InLimit() <= k < gen.argsNum ==> args[k][..] == old(args[k][..])
      ensures forall k :: 0 <= k < gen.resNum ==> res[k][..] == old(res[k][..])
    {
      var sps := InPatterns(InLimit());
      assert forall j :: 0 <= j < |args| ==> args[j] in ArgBuffers();
      assert forall j :: 0 <= j < |res| ==> res[j] !in ArgBuffers();
      outcome := LoadAll(inputs, sps, argsDense, args);
    }

    /** An object whose fields are unchanged stays ready. */
    twostate lemma ReadyKept()
      requires unchanged(this)
      ensures old(Ready()) ==> Ready()
    {
    }

    /** The function object is not storage of any argument. */
    lemma NotAnArgument(xs: seq<Arg>)
      ensures this !in Frames(xs)
    {
      forall i | 0 <= i < |xs|
        ensures this !in Frame(xs[i])
      {
      }
    }

    /**
      The output loop of the wrapper: scatter each of the `gen.nOut` result
      buffers into its output argument by the argument's type and the
      recorded density flag, stopping at the first unknown type (where the
      C code exits) or conversion that would run past a buffer.
    */
    method StoreOutputs(outputs: seq<Arg>) returns (outcome: Outcome)
      requires Ready() && |outputs| >= gen.nOut
      requires forall k :: 0 <= k < gen.nOut ==> ArgFits(outputs[k], SpOut(k)) && Frame(outputs[k]) !! Buffers()
      requires forall i, j :: 0 <= i < j < gen.nOut ==> Frame(outputs[i]) !! Frame(outputs[j])
      modifies Frames(outputs[..gen.nOut])
      ensures unchanged(this)
      ensures outcome == Converted <==> forall k :: 0 <= k < gen.nOut ==>
        OutcomeOf(outputs[k], SpOut(k), resDense[k]) == Converted
      ensures outcome == Converted ==> forall k :: 0 <= k < gen.nOut ==>
        Contents(outputs[k], SpOut(k)) == StoreAsWritten(old(Contents(outputs[k], SpOut(k))), SpOut(k), resDense[k], res[k][..])
      ensures ArgValues() == old(ArgValues()) && ResValues() == old(ResValues())
    {
      var sps := OutPatterns(gen.nOut);
      NotAnArgument(outputs[..gen.nOut]);
      assert forall j, k :: 0 <= j < |args| && 0 <= k < gen.nOut ==> args[j] in Buffers() && args[j] !in Frame(outputs[k]);
      assert forall j, k :: 0 <= j < |res| && 0 <= k < gen.nOut ==> res[j] in Buffers() && res[j] !in Frame(outputs[k]);
      outcome := StoreResults(gen, resSize, resDense, res, args, outputs, sps);
      ValuesKept();
    }

    /** Buffers whose contents are unchanged give the same values. */
    twostate lemma ValuesKept()
      requires unchanged(this)
      requires forall j :: 0 <= j < |args| ==> args[j][..] == old(args[j][..])
      requires forall j :: 0 <= j < |res| ==> res[j][..] == old(res[j][..])
      ensures ArgValues() == old(ArgValues()) && ResValues() == old(ResValues())
    {
    }

    /** Copy what the generated code computes for one result slot into its buffer. */
    static method CopyInto(buf: array<real>, v: seq<real>)
      requires |v| == buf.Length
      modifies buf
      ensures buf[..] == v
    {
      for t := 0 to buf.Length
        invariant buf[..t] == v[..t]
      {
        buf[t] := v[t];
      }
    }

    /** Copy what the generated code computes into the result buffers; the argument buffers are only read. */
    method RunKernel(vals: seq<seq<real>>)
      requires Shaped(vals, resSize) && BuffersFit(res, resSize) && Apart(args, res)
      modifies ResBuffers()
      ensures ResValues() == vals
      ensures forall k :: 0 <= k < |args| ==> args[k][..] == old(args[k][..])
    {
      for jj := 0 to |res|
        invariant forall k :: 0 <= k < jj ==> res[k][..] == vals[k]
        invariant forall k :: 0 <= k < |args| ==> args[k][..] == old(args[k][..])
      {
        label before:
        assert res[jj] in ResBuffers();
        CopyInto(res[jj], vals[jj]);
        assert forall k :: 0 <= k < |res| && k != jj ==> res[k][..] == old@before(res[k][..]);
      }
    }

    /**
      The first two steps of the wrapper: convert the inputs into the
      argument buffers and, when every conversion succeeds, run the
      generated code `kernel` on the argument buffers. The outputs are not
      touched.
    */
    method LoadAndRun(inputs: seq<Arg>, outputs: seq<Arg>, kernel: seq<seq<real>> -> seq<seq<real>>) returns (outcome: Outcome)
      requires Ready() && |inputs| >= InLimit() && |outputs| >= gen.nOut
      requires forall k :: 0 <= k < InLimit() ==> ArgFits(inputs[k], SpIn(k)) && Frame(inputs[k]) !! Buffers()
      requires forall k :: 0 <= k < gen.nOut ==> Frame(outputs[k]) !! Buffers()
      requires forall a :: Shaped(kernel(a), resSize)
      modifies Buffers()
      ensures unchanged(this)
      ensures outcome == Converted <==> forall k :: 0 <= k < InLimit() ==>
        OutcomeOf(inputs[k], SpIn(k), argsDense[k]) == Converted
      ensures outcome == Converted ==> forall k :: 0 <= k < InLimit() ==>
        args[k][..] == LoadAsWritten(old(Contents(inputs[k], SpIn(k))), SpIn(k), argsDense[k], old(args[k][..]))
      ensures forall k :: InLimit() <= k < gen.argsNum ==> args[k][..] == old(args[k][..])
      ensures outcome == Converted ==> ResValues() == kernel(ArgValues())
      ensures forall k :: 0 <= k < gen.nOut ==> Contents(outputs[k], SpOut(k)) == old(Contents(outputs[k], SpOut(k)))
    {
      outcome := LoadInputs(inputs);
      if outcome == Converted {
        label loaded:
        RunKernel(kernel(ArgValues()));
        ArgValuesKept@loaded();
      }
      forall k | 0 <= k < gen.nOut
        ensures Contents(outputs[k], SpOut(k)) == old(Contents(outputs[k], SpOut(k)))
      {
      }
    }

    /** Argument buffers whose contents are unchanged give the same values. */
    twostate lemma ArgValuesKept()
      requires unchanged(this)
      requires forall j :: 0 <= j < |args| ==> args[j][..] == old(args[j][..])
      ensures ArgValues() == old(ArgValues())
    {
    }

    /**
      `external_function_casadi_wrapper` and
      `external_function_param_casadi_wrapper`: convert the inputs into the
      argument buffers, run the generated code `kernel` on the argument
      buffers, and convert the result buffers into the outputs. An unknown
      argument type ends the call (the C code prints and exits), and so does,
      in the model, a conversion that would run past a buffer; the
      parametric kind skips its last input, the parameters, whose buffer
      keeps what `set_param` stored.
    */
    method Evaluate(inputs: seq<Arg>, outputs: seq<Arg>, kernel: seq<seq<real>> -> seq<seq<real>>) returns (outcome: Outcome)
      requires Ready() && |inputs| >= InLimit() && |outputs| >= gen.nOut
      requires forall k :: 0 <= k < InLimit() ==> ArgFits(inputs[k], SpIn(k)) && Frame(inputs[k]) !! Buffers()
      requires forall k :: 0 <= k < gen.nOut ==> ArgFits(outputs[k], SpOut(k)) && Frame(outputs[k]) !! Buffers()
      requires forall i, j :: 0 <= i < j < gen.nOut ==> Frame(outputs[i]) !! Frame(outputs[j])
      requires forall a :: Shaped(kernel(a), resSize)
      modifies Buffers(), Frames(outputs[..gen.nOut])
      ensures Ready()
      ensures outcome == Converted <==>
        && (forall k :: 0 <= k < InLimit() ==>
              OutcomeOf(inputs[k], SpIn(k), argsDense[k]) == Converted)
        && (forall k :: 0 <= k < gen.nOut ==>
              OutcomeOf(outputs[k], SpOut(k), resDense[k]) == Converted)
      ensures outcome == Converted ==> forall k :: 0 <= k < InLimit() ==>
        args[k][..] == LoadAsWritten(old(Contents(inputs[k], SpIn(k))), SpIn(k), argsDense[k], old(args[k][..]))
      ensures forall k :: InLimit() <= k < gen.argsNum ==> args[k][..] == old(args[k][..])
      ensures outcome == Converted ==> ResValues() == kernel(ArgValues())
      ensures outcome == Converted ==> forall k :: 0 <= k < gen.nOut ==>
        Contents(outputs[k], SpOut(k)) == StoreAsWritten(old(Contents(outputs[k], SpOut(k))), SpOut(k), resDense[k], res[k][..])
    {
      NotAnArgument(outputs[..gen.nOut]);
      outcome := LoadAndRun(inputs, outputs, kernel);
      if outcome != Converted {
        return;
      }
      outcome := StoreOutputs(outputs);
    }

    /** The pattern of the parameter slot, the last argument. */
    function SpParam(): (sp: Descriptor)
      requires consistent && gen.argsNum >= 1 && gen.sparsityIn[gen.argsNum - 1].Some?
      ensures WellFormed(sp) && gen.sparsityIn[gen.argsNum - 1] == Some(sp)
    {
      gen.sparsityIn[gen.argsNum - 1].value
    }

    /**
      `external_function_param_casadi_set_param`: the column-major
      `nrow x ncol` block at `p` is packed into the last argument's buffer,
      as the input loop packs a `COLMAJ` argument; no other buffer changes.
    */
    method SetParam(p: array<real>)
      requires Ready() && parametric && gen.argsNum >= 1 && gen.sparsityIn[gen.argsNum - 1].Some?
      requires NRow(SpParam()) * NCol(SpParam()) <= p.Length && p != args[gen.argsNum - 1]
      modifies args[gen.argsNum - 1]
      ensures args[gen.argsNum - 1][..] == GatherFlat(p[..], SpParam(), NRow(SpParam()))
      ensures forall k :: 0 <= k < gen.argsNum - 1 ==> args[k][..] == old(args[k][..])
    {
      var last := argsNum - 1;
      var sp := SpParam();
      DensityFlag(sp);
      ColmajToCasadi(p, args[last], sp, argsDense[last]);
    }

    /**
      The dense branch of `external_function_param_casadi_set_param_sparse`:
      `p_in[ii]` is written at position `idx[ii]` of the parameter buffer
      for `ii < nUpdate`, in order, so a later duplicate index wins.
    */
    method SetParamSparse(nUpdate: int, idx: array<int>, p: array<real>)
      requires Ready() && parametric && gen.argsNum >= 1 && argsDense[gen.argsNum - 1]
      requires 0 <= nUpdate <= idx.Length && nUpdate <= p.Length && p != args[gen.argsNum - 1]
      requires IndicesIn(idx[..nUpdate], args[gen.argsNum - 1].Length)
      modifies args[gen.argsNum - 1]
      ensures args[gen.argsNum - 1][..] == ApplyUpdates(old(args[gen.argsNum - 1][..]), idx[..nUpdate], p[..])
    {
      ScatterUpdates(args[argsNum - 1], nUpdate, idx, p);
    }

    /** `external_function_param_casadi_get_nparam`. */
    method GetNparam() returns (n: int)
      requires Sized()
      ensures n == np && n >= 0 && (!parametric ==> n == 0)
    {
      n := np;
    }
  }
}
