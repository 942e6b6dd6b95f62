/**
  The argument kinds an external function accepts (`ext_fun_arg_t` with
  the `*_args` structs that carry an offset or a leading dimension), what
  each one holds as a value, and the conversion the wrapper applies to
  one argument in each direction.
*/
module Arguments {
  import opened Wrappers
  import opened Sparsity
  import opened ColMajor
  import opened Blasfeo
  import opened Convert
  import opened ConvertBlasfeo

  /** An argument as the wrapper sees it: its type tag together with what the `void *` points to. */
  datatype Arg =
    | Colmaj(a: array<real>)
    | BlasfeoDmat(A: array2<real>)
    | BlasfeoDvec(x: array<real>)
    | ColmajArgs(a: array<real>, lda: int)
    | BlasfeoDmatArgs(A: array2<real>, ai: int, aj: int)
    | BlasfeoDvecArgs(x: array<real>, xi: int)
    | IgnoreArgument
    | Unknown(tag: int)

  /** The storage an argument points to. */
  function Frame(x: Arg): set<object>
  {
    match x
    case Colmaj(a) => {a}
    case BlasfeoDmat(A) => {A}
    case BlasfeoDvec(v) => {v}
    case ColmajArgs(a, _) => {a}
    case BlasfeoDmatArgs(A, _, _) => {A}
    case BlasfeoDvecArgs(v, _) => {v}
    case IgnoreArgument => {}
    case Unknown(_) => {}
  }

  /**
    What an argument holds: a column-major buffer with its leading
    dimension (`Strided` for the `colmaj_args` kind, whose dense branch
    differs), a matrix with its block offset, a vector with its offset, or
    nothing.
  */
  datatype Content =
    | Flat(a: seq<real>, ld: int)
    | Strided(a: seq<real>, ld: int)
    | Grid(M: seq<seq<real>>, cols: int, ai: int, aj: int)
    | Line(v: seq<real>, xi: int)
    | NoContent

  /** The vector conversions accept only a single column (or an empty matrix). */
  predicate VecShape(sp: Descriptor)
    requires |sp| >= 3
  {
    NCol(sp) == 1 || NRow(sp) == 0 || NCol(sp) == 0
  }

  /** The `nrow x ncol` block of pattern `sp` fits where the argument points. */
  predicate ArgFits(x: Arg, sp: Descriptor)
    requires WellFormed(sp)
  {
    match x
    case Colmaj(a) => NRow(sp) * NCol(sp) <= a.Length
    case BlasfeoDmat(A) => BlockFits(A.Length0, A.Length1, sp[0], sp[1], 0, 0)
    case BlasfeoDvec(v) => VecShape(sp) && sp[0] <= v.Length
    case ColmajArgs(a, lda) => NRow(sp) <= lda && BlockSpan(sp[0], sp[1], lda) <= a.Length
    case BlasfeoDmatArgs(A, ai, aj) => BlockFits(A.Length0, A.Length1, sp[0], sp[1], ai, aj)
    case BlasfeoDvecArgs(v, xi) => VecShape(sp) && 0 <= xi && xi + sp[0] <= v.Length
    case IgnoreArgument => true
    case Unknown(_) => true
  }

  /** The block of pattern `sp` fits in the content. */
  predicate Fits(c: Content, sp: Descriptor)
    requires WellFormed(sp)
  {
    match c
    case Flat(a, ld) => NRow(sp) <= ld && BlockSpan(sp[0], sp[1], ld) <= |a|
    case Strided(a, ld) => NRow(sp) <= ld && BlockSpan(sp[0], sp[1], ld) <= |a|
    case Grid(M, cols, ai, aj) => Rect(M, cols) && BlockFits(|M|, cols, sp[0], sp[1], ai, aj)
    case Line(v, xi) => VecShape(sp) && 0 <= xi && xi + sp[0] <= |v|
    case NoContent => true
  }

  /** The value an argument holds; the plain column-major kind has leading dimension `nrow`. */
  function Contents(x: Arg, sp: Descriptor): (c: Content)
    requires WellFormed(sp)
    reads Frame(x)
    ensures ArgFits(x, sp) ==> Fits(c, sp)
  {
    PackedSpan(sp[0], sp[1]);
    match x
    case Colmaj(a) => Flat(a[..], sp[0])
    case BlasfeoDmat(A) => Grid(Matrix(A), A.Length1, 0, 0)
    case BlasfeoDvec(v) => Line(v[..], 0)
    case ColmajArgs(a, lda) => Strided(a[..], lda)
    case BlasfeoDmatArgs(A, ai, aj) => Grid(Matrix(A), A.Length1, ai, aj)
    case BlasfeoDvecArgs(v, xi) => Line(v[..], xi)
    case IgnoreArgument => NoContent
    case Unknown(_) => NoContent
  }

  /** The packed nonzeros an input conversion produces; an ignored argument leaves the buffer as it was. */
  function Load(c: Content, sp: Descriptor, prev: seq<real>): (v: seq<real>)
    requires WellFormed(sp) && Fits(c, sp)
    ensures c != NoContent ==> |v| == Nnz(Some(sp))
  {
    match c
    case Flat(a, ld) => GatherFlat(a, sp, ld)
    case Strided(a, ld) => GatherFlat(a, sp, ld)
    case Grid(M, cols, ai, aj) => GatherMat(M, cols, sp, ai, aj)
    case Line(x, xi) => GatherVec(x, sp, xi)
    case NoContent => prev
  }

  /** The content after an output conversion scatters the packed nonzeros `v` into it. */
  function Store(c: Content, sp: Descriptor, v: seq<real>): (d: Content)
    requires WellFormed(sp) && Fits(c, sp) && |v| >= Nnz(Some(sp))
    ensures Fits(d, sp)
  {
    match c
    case Flat(a, ld) => Flat(ScatterFlat(a, sp, v, ld), ld)
    case Strided(a, ld) => Strided(ScatterFlat(a, sp, v, ld), ld)
    case Grid(M, cols, ai, aj) => Grid(ScatterMat(M, cols, sp, v, ai, aj), cols, ai, aj)
    case Line(x, xi) => Line(ScatterVec(x, sp, v, xi), xi)
    case NoContent => NoContent
  }

  /** Storing nonzeros into an argument and loading them back gives the nonzeros. */
  lemma LoadAfterStore(c: Content, sp: Descriptor, v: seq<real>, prev: seq<real>)
    requires WellFormed(sp) && Fits(c, sp) && |v| == Nnz(Some(sp)) && c != NoContent
    ensures Load(Store(c, sp, v), sp, prev) == v
  {
    match c
    case Flat(a, ld) => GatherAfterScatter(a, sp, v, ld);
    case Strided(a, ld) => GatherAfterScatter(a, sp, v, ld);
    case Grid(M, cols, ai, aj) => GatherMatAfterScatter(M, cols, sp, v, ai, aj);
    case Line(x, xi) =>
      if NCol(sp) <= 1 {
        GatherVecAfterScatter(x, sp, v, xi);
      } else if !DenseForm(sp) {
        EntriesNeedRows(sp);
      }
  }

  /**
    The flag the wrappers pass as `args_dense` / `res_dense`, recorded by
    `casadi_is_dense` as written, meets what the conversions require of it.
  */
  lemma DensityFlag(sp: Descriptor)
    requires WellFormed(sp)
    ensures IsDenseAsWritten(Some(sp)) ==> Full(sp)
    ensures !IsDenseAsWritten(Some(sp)) ==> NRow(sp) > 0 && NCol(sp) > 0 && !DenseForm(sp)
  {
    if IsDenseAsWritten(Some(sp)) {
      IsDenseAsWrittenSound(sp);
    }
  }

  /** How one conversion of the wrapper ends. */
  datatype Outcome =
    | Converted
    | UnknownType   // the C code prints a message and exits
    | Overrun       // the conversion as written would access past a buffer

  /**
    The conversions as written run past a buffer: the `colmaj_args` dense
    branch when the `ncol x nrow` block it walks does not fit, and the vector
    dense branch when it moves `nrow` values through a packed buffer of
    fewer nonzeros (a vector with rows and no column).
  */
  predicate Overruns(c: Content, sp: Descriptor, isDense: bool)
    requires WellFormed(sp)
  {
    match c
    case Strided(a, ld) => DenseRunsOver(sp, ld, |a|, isDense)
    case Line(_, _) => isDense && NRow(sp) > Nnz(Some(sp))
    case _ => false
  }

  /**
    How the conversion as written of argument `x` ends: an unknown tag
    ends the call, and whether a conversion runs past a buffer depends on
    the argument's kind and the lengths of its storage alone.
  */
  function OutcomeOf(x: Arg, sp: Descriptor, isDense: bool): Outcome
    requires WellFormed(sp)
  {
    match x
    case Unknown(_) => UnknownType
    case ColmajArgs(a, lda) => if DenseRunsOver(sp, lda, a.Length, isDense) then Overrun else Converted
    case BlasfeoDvec(_) => if isDense && NRow(sp) > Nnz(Some(sp)) then Overrun else Converted
    case BlasfeoDvecArgs(_, _) => if isDense && NRow(sp) > Nnz(Some(sp)) then Overrun else Converted
    case _ => Converted
  }

  /** The outcome reports an overrun exactly when the conversion as written of what `x` holds would run past a buffer. */
  lemma OutcomeOverruns(x: Arg, sp: Descriptor, isDense: bool)
    requires WellFormed(sp) && !x.Unknown?
    ensures OutcomeOf(x, sp, isDense) == Overrun <==> Overruns(Contents(x, sp), sp, isDense)
  {
  }

  /** The `colmaj_args` dense branch as written applies: a non-empty pattern flagged dense. */
  predicate WalksTransposed(c: Content, sp: Descriptor, isDense: bool)
    requires |sp| >= 2
  {
    c.Strided? && isDense && sp[0] > 0 && sp[1] > 0
  }

  /**
    The packed nonzeros an input conversion as written produces: the
    `colmaj_args` dense branch reads the block as `ncol x nrow`; a conversion
    that would run past a buffer is not performed and leaves `prev`.
  */
  function LoadAsWritten(c: Content, sp: Descriptor, isDense: bool, prev: seq<real>): (v: seq<real>)
    requires WellFormed(sp) && Fits(c, sp) && (isDense ==> IsDenseAsWritten(Some(sp)))
    ensures c != NoContent && !Overruns(c, sp, isDense) ==> |v| == Nnz(Some(sp))
  {
    DensityFlag(sp);
    if Overruns(c, sp, isDense) then prev
    else if WalksTransposed(c, sp, isDense) then
      FullNnz(sp);
      StridedRead(c.a, sp[1], sp[0], c.ld)
    else Load(c, sp, prev)
  }

  /**
    The content after an output conversion as written: the `colmaj_args`
    dense branch writes the values as an `ncol x nrow` block; a conversion
    that would run past a buffer is not performed and leaves `c`.
  */
  function StoreAsWritten(c: Content, sp: Descriptor, isDense: bool, v: seq<real>): (d: Content)
    requires WellFormed(sp) && Fits(c, sp) && |v| >= Nnz(Some(sp)) && (isDense ==> IsDenseAsWritten(Some(sp)))
    ensures Fits(d, sp)
  {
    DensityFlag(sp);
    if Overruns(c, sp, isDense) then c
    else if WalksTransposed(c, sp, isDense) then
      FullNnz(sp);
      Strided(RowOrderCopy(c.a, v, sp[1], sp[0], c.ld), c.ld)
    else Store(c, sp, v)
  }

  /**
    The conversions as written leave an argument as intended unless it is
    a `colmaj_args` argument with a non-square pattern flagged dense, or a
    vector argument with rows and no column.
  */
  predicate AsIntended(c: Content, sp: Descriptor, isDense: bool)
    requires |sp| >= 2
  {
    && !(WalksTransposed(c, sp, isDense) && sp[0] != sp[1])
    && !(c.Line? && isDense && sp[0] > 0 && sp[1] == 0)
  }

  /** Away from those two cases the conversions as written never overrun and agree with the intended ones. */
  lemma {:induction false} AsWrittenAgrees(c: Content, sp: Descriptor, isDense: bool, v: seq<real>, prev: seq<real>)
    requires WellFormed(sp) && Fits(c, sp) && |v| >= Nnz(Some(sp)) && (isDense ==> IsDenseAsWritten(Some(sp)))
    requires AsIntended(c, sp, isDense)
    ensures !Overruns(c, sp, isDense)
    ensures LoadAsWritten(c, sp, isDense, prev) == Load(c, sp, prev)
    ensures StoreAsWritten(c, sp, isDense, v) == Store(c, sp, v)
  {
    DensityFlag(sp);
    match c
    case Strided(a, ld) =>
      if WalksTransposed(c, sp, isDense) {
        ColmajArgsAsWrittenSquare(a, sp, v, ld);
        ColmajArgsReadAsWrittenSquare(a, sp, ld);
      }
    case Line(x, xi) =>
      if isDense && sp[0] > 0 {
        FullNnz(sp);
      }
    case _ =>
  }

  /**
    A full `nrow x 1` column with `2 <= nrow <= lda`, flagged dense, is not
    left as intended: in a buffer that holds just the column the store as
    written overruns, and in a longer one it puts the second value at
    index `lda` and leaves index 1, where the intended store puts it, alone.
  */
  lemma {:induction false} ColumnStoreAsWritten(sp: Descriptor, v: seq<real>, a: seq<real>, lda: int)
    requires WellFormed(sp) && Full(sp) && NCol(sp) == 1 && 2 <= NRow(sp) <= lda && |v| >= Nnz(Some(sp))
    requires BlockSpan(NRow(sp), 1, lda) <= |a|
    ensures IsDenseAsWritten(Some(sp))
    ensures !AsIntended(Strided(a, lda), sp, true)
    ensures |a| < BlockSpan(1, NRow(sp), lda) ==> Overruns(Strided(a, lda), sp, true)
    ensures BlockSpan(1, NRow(sp), lda) <= |a| ==>
              && 1 < lda < |a| && |v| >= 2
              && StoreAsWritten(Strided(a, lda), sp, true, v).a[1] == a[1]
              && StoreAsWritten(Strided(a, lda), sp, true, v).a[lda] == v[1]
              && Store(Strided(a, lda), sp, v).a[1] == v[1]
  {
    IsDenseIffFull(sp);
    OneColumnFlagsAgree(sp);
    if BlockSpan(1, NRow(sp), lda) <= |a| {
      ColmajArgsColumnAsWritten(sp, v, a, lda);
    }
  }

  /** The matrix kinds: column-major, `blasfeo_dmat` and `blasfeo_dmat_args`, which never run past a buffer. */
  predicate MatrixKind(x: Arg)
  {
    x.Colmaj? || x.BlasfeoDmat? || x.BlasfeoDmatArgs?
  }

  /** The vector kinds: `blasfeo_dvec` and `blasfeo_dvec_args`. */
  predicate VectorKind(x: Arg)
  {
    x.BlasfeoDvec? || x.BlasfeoDvecArgs?
  }

  /** The input conversion as written of a matrix kind. */
  method LoadMatrix(x: Arg, sp: Descriptor, isDense: bool, buf: array<real>) returns (outcome: Outcome)
    requires WellFormed(sp) && ArgFits(x, sp) && buf.Length == Nnz(Some(sp)) && buf !in Frame(x)
    requires isDense == IsDenseAsWritten(Some(sp)) && MatrixKind(x)
    modifies buf
    ensures outcome == OutcomeOf(x, sp, isDense)
    ensures buf[..] == LoadAsWritten(old(Contents(x, sp)), sp, isDense, old(buf[..]))
  {
    DensityFlag(sp);
    PackedSpan(sp[0], sp[1]);
    outcome := Converted;
    match x {
    case Colmaj(a) =>
      ColmajToCasadi(a, buf, sp, isDense);
    case BlasfeoDmat(A) =>
      DmatToCasadi(A, buf, sp, isDense);
    case BlasfeoDmatArgs(A, ai, aj) =>
      DmatArgsToCasadi(A, ai, aj, buf, sp, isDense);
    }
  }

  /** The input conversion as written of a vector kind, which runs past `buf` on a pattern with rows and no column flagged dense. */
  method LoadVector(x: Arg, sp: Descriptor, isDense: bool, buf: array<real>) returns (outcome: Outcome)
    requires WellFormed(sp) && ArgFits(x, sp) && buf.Length == Nnz(Some(sp)) && buf !in Frame(x)
    requires isDense == IsDenseAsWritten(Some(sp)) && VectorKind(x)
    modifies buf
    ensures outcome == OutcomeOf(x, sp, isDense)
    ensures buf[..] == LoadAsWritten(old(Contents(x, sp)), sp, isDense, old(buf[..]))
  {
    DensityFlag(sp);
    var overrun := false;
    match x {
    case BlasfeoDvec(v) =>
      overrun := DvecToCasadiAsWritten(v, buf, sp, isDense);
      if !overrun && isDense && NRow(sp) > 0 {
        FullNnz(sp);
        FullGatherVecIsRead(v[..], sp, 0);
      }
    case BlasfeoDvecArgs(v, xi) =>
      overrun := DvecArgsToCasadiAsWritten(v, xi, buf, sp, isDense);
      if !overrun && isDense && NRow(sp) > 0 {
        FullNnz(sp);
        FullGatherVecIsRead(v[..], sp, xi);
      }
    }
    outcome := if overrun then Overrun else Converted;
  }

  /** The output conversion as written of a matrix kind. */
  method StoreMatrix(buf: array<real>, sp: Descriptor, isDense: bool, x: Arg) returns (outcome: Outcome)
    requires WellFormed(sp) && ArgFits(x, sp) && buf.Length == Nnz(Some(sp)) && buf !in Frame(x)
    requires isDense == IsDenseAsWritten(Some(sp)) && MatrixKind(x)
    modifies Frame(x)
    ensures outcome == OutcomeOf(x, sp, isDense)
    ensures Contents(x, sp) == StoreAsWritten(old(Contents(x, sp)), sp, isDense, buf[..])
  {
    DensityFlag(sp);
    PackedSpan(sp[0], sp[1]);
    outcome := Converted;
    match x {
    case Colmaj(a) =>
      CasadiToColmaj(buf, sp, a, isDense);
    case BlasfeoDmat(A) =>
      CasadiToDmat(buf, sp, A, isDense);
    case BlasfeoDmatArgs(A, ai, aj) =>
      CasadiToDmatArgs(buf, sp, A, ai, aj, isDense);
    }
  }

  /** The output conversion as written of a vector kind, which runs past `buf` on a pattern with rows and no column flagged dense. */
  method StoreVector(buf: array<real>, sp: Descriptor, isDense: bool, x: Arg) returns (outcome: Outcome)
    requires WellFormed(sp) && ArgFits(x, sp) && buf.Length == Nnz(Some(sp)) && buf !in Frame(x)
    requires isDense == IsDenseAsWritten(Some(sp)) && VectorKind(x)
    modifies Frame(x)
    ensures outcome == OutcomeOf(x, sp, isDense)
    ensures Contents(x, sp) == StoreAsWritten(old(Contents(x, sp)), sp, isDense, buf[..])
  {
    DensityFlag(sp);
    var overrun := false;
    match x {
    case BlasfeoDvec(v) =>
      ghost var x0 := v[..];
      overrun := CasadiToDvecAsWritten(buf, sp, v, isDense);
      if !overrun && isDense && NRow(sp) > 0 {
        FullNnz(sp);
        FullScatterVecIsPack(x0, sp, buf[..], 0);
      }
    case BlasfeoDvecArgs(v, xi) =>
      ghost var x0 := v[..];
      overrun := CasadiToDvecArgsAsWritten(buf, sp, v, xi, isDense);
      if !overrun && isDense && NRow(sp) > 0 {
        FullNnz(sp);
        FullScatterVecIsPack(x0, sp, buf[..], xi);
      }
    }
    outcome := if overrun then Overrun else Converted;
  }

  /**
    One case of the input loop of the wrapper as written: convert argument
    `x` into the packed buffer `buf` by its type, with the flag
    `casadi_is_dense` recorded; `IGNORE_ARGUMENT` leaves `buf` alone and an
    unknown tag reports failure (the C code exits).
  */
  method LoadArg(x: Arg, sp: Descriptor, isDense: bool, buf: array<real>) returns (outcome: Outcome)
    requires WellFormed(sp) && ArgFits(x, sp) && buf.Length == Nnz(Some(sp)) && buf !in Frame(x)
    requires isDense == IsDenseAsWritten(Some(sp))
    modifies buf
    ensures outcome == OutcomeOf(x, sp, isDense)
    ensures buf[..] == LoadAsWritten(old(Contents(x, sp)), sp, isDense, old(buf[..]))
  {
    if MatrixKind(x) {
      outcome := LoadMatrix(x, sp, isDense, buf);
    } else if VectorKind(x) {
      outcome := LoadVector(x, sp, isDense, buf);
    } else if x.ColmajArgs? {
      DensityFlag(sp);
      var overrun := ColmajArgsToCasadiAsWritten(x.a, x.lda, buf, sp, isDense);
      outcome := if overrun then Overrun else Converted;
    } else if x.IgnoreArgument? {
      outcome := Converted;
    } else {
      outcome := UnknownType;
    }
  }

  /**
    One case of the output loop of the wrapper as written: scatter the
    packed buffer `buf` into argument `x` by its type; `IGNORE_ARGUMENT`
    leaves `x` alone and an unknown tag reports failure (the C code exits).
  */
  method StoreArg(buf: array<real>, sp: Descriptor, isDense: bool, x: Arg) returns (outcome: Outcome)
    requires WellFormed(sp) && ArgFits(x, sp) && buf.Length == Nnz(Some(sp)) && buf !in Frame(x)
    requires isDense == IsDenseAsWritten(Some(sp))
    modifies Frame(x)
    ensures outcome == OutcomeOf(x, sp, isDense)
    ensures Contents(x, sp) == StoreAsWritten(old(Contents(x, sp)), sp, isDense, buf[..])
  {
    if MatrixKind(x) {
      outcome := StoreMatrix(buf, sp, isDense, x);
    } else if VectorKind(x) {
      outcome := StoreVector(buf, sp, isDense, x);
    } else if x.ColmajArgs? {
      DensityFlag(sp);
      var overrun := CasadiToColmajArgsAsWritten(buf, sp, x.a, x.lda, isDense);
      outcome := if overrun then Overrun else Converted;
    } else if x.IgnoreArgument? {
      outcome := Converted;
    } else {
      outcome := UnknownType;
    }
  }
}
