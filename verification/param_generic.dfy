/**
  `external_function_param_generic`: a hand-written function with a
  parameter vector `p` of `np` doubles kept in the object's own arena.
*/
module ParamGeneric {
  import opened Arena

  /** `external_function_param_generic_calculate_size`: `np` doubles plus 8 bytes of alignment slack, rounded up to 8. */
  function GenericSize(np: int): int
    requires np >= 0
  {
    RoundUp8(np * DoubleSize + 8)
  }

  /** The size is a multiple of 8 that holds `p` after aligning any start address. */
  lemma GenericSizeFits(np: int, raw: int)
    requires np >= 0 && raw >= 0
    ensures GenericSize(np) % 8 == 0
    ensures raw <= RoundUp8(raw) && RoundUp8(raw) % 8 == 0
    ensures RoundUp8(raw) + np * DoubleSize <= raw + GenericSize(np)
  {
  }

  class ParamGenericFunction {
    /** Number of parameters, set by `calculate_size`. */
    var np: int
    /** The parameter vector placed in the arena by `assign`. */
    var p: array<real>
    /** Address of `p` inside the arena, and the arena itself. */
    var pAt: int
    var ptrExtMem: int

    /** The object before `calculate_size`: no parameters yet. */
    constructor ()
      ensures np == 0 && p.Length == 0
    {
      np := 0;
      p := new real[0];
      pAt := 0;
      ptrExtMem := 0;
    }

    predicate Valid()
      reads this
    {
      np >= 0 && p.Length == np
    }

    /** `external_function_param_generic_calculate_size`: records `np` and returns the arena size. */
    method CalculateSize(np: int) returns (size: int)
      requires np >= 0
      modifies this
      ensures this.np == np && p == old(p) && pAt == old(pAt) && ptrExtMem == old(ptrExtMem)
      ensures size == GenericSize(np)
    {
      this.np := np;
      size := np * DoubleSize;
      size := size + 8;
      size := RoundUp8(size);
    }

    /**
      `external_function_param_generic_assign`: align the cursor to 8 and
      place `np` doubles there; the cursor ends inside the arena.
    */
    method Assign(raw: int)
      requires np >= 0 && raw >= 0
      modifies this
      ensures Valid() && np == old(np) && fresh(p)
      ensures ptrExtMem == raw && pAt == RoundUp8(raw)
      ensures pAt % 8 == 0 && pAt + np * DoubleSize <= raw + GenericSize(np)
    {
      ptrExtMem := raw;
      var c := RoundUp8(raw);
      pAt := c;
      p := new real[np];
      c := c + np * DoubleSize;
      GenericSizeFits(np, raw);
      assert c <= raw + GenericSize(np);
    }

    /** `external_function_param_generic_get_nparam`. */
    method GetNparam() returns (n: int)
      ensures n == np
    {
      n := np;
    }

    /** `external_function_param_generic_set_param`: all `np` parameters are copied in. */
    method SetParam(pIn: array<real>)
      requires Valid() && pIn.Length >= np && pIn != p
      modifies p
      ensures p[..] == pIn[..np]
    {
      for ii := 0 to np
        invariant p[..ii] == pIn[..ii]
      {
        p[ii] := pIn[ii];
      }
      assert p[..] == p[..np];
    }

    /**
      `external_function_param_generic_set_param_sparse`: `p[idx[ii]] =
      pIn[ii]` for `ii < nUpdate`, in order, so a later duplicate index
      wins and untouched entries keep their values.
    */
    method SetParamSparse(nUpdate: int, idx: array<int>, pIn: array<real>)
      requires Valid() && 0 <= nUpdate <= idx.Length && nUpdate <= pIn.Length && pIn != p
      requires IndicesIn(idx[..nUpdate], np)
      modifies p
      ensures p[..] == ApplyUpdates(old(p[..]), idx[..nUpdate], pIn[..])
    {
      ScatterUpdates(p, nUpdate, idx, pIn);
    }
  }
}
