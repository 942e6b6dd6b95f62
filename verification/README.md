# acados external functions and batch simulator, modelled in Dafny

This project models two parts of acados.

The first is the layer in `acados/utils/external_function_generic.c` that turns CasADi-generated functions into acados external functions:

- the CasADi sparsity descriptor and its two queries, `casadi_nnz` and `casadi_is_dense`;
- the twelve `d_cvt_*` routines that move the packed nonzeros of a CasADi argument to and from four layouts:
  - a column-major buffer (optionally with a leading dimension);
  - a BLASFEO matrix (optionally with an offset);
  - a BLASFEO vector (optionally with an offset);
- the `calculate_size` / `assign` arena arithmetic of the three function kinds;
- the two CasADi wrappers, which convert every input, run the generated kernel and convert every output;
- the parameter setters.

The second is the batch simulator of `interfaces/acados_c/sim_batch_interface.c`: its arena size and assignment, and the status bookkeeping of `solve`, `precompute` and `solver_set`.

A sparsity descriptor is the raw integer array CasADi emits (`Sparsity.Descriptor`). Its layout is `[nrow, ncol, colptr[0..ncol], row[0..nnz-1]]`, or `[nrow, ncol, 1]` in the dense form. The packed nonzeros of an argument are a `seq<real>`. The doubles are only copied, never computed on.

Every conversion is a `method` over arrays, proved against a specification function on sequences:

- `ColMajor.ScatterFlat` / `GatherFlat`;
- `ConvertBlasfeo.ScatterMat` / `GatherMat`;
- `ConvertBlasfeo.ScatterVec` / `GatherVec`.

These functions are defined cell by cell through the pattern's bijection between packed indices and matrix cells (`Sparsity.Pos` / `Sparsity.Lookup`). Lemmas prove:

- the two round trips between scatter and gather;
- that the dense fast paths agree with the sparse loops whenever the pattern is full.

`casadi_is_dense` is proved to be exactly "the pattern is full", once its stride is corrected.

A function object whose fields `assign` and the setters update becomes a class: `CasadiExternal.CasadiFunction`, `ParamGeneric.ParamGenericFunction` and `SimBatch.SimBatchSolver`. Their methods state the whole new state.

`assign` records the density flag that `casadi_is_dense` computes as written, and the wrapper passes that flag to the conversions as written: the `colmaj_args` dense branch that walks an `ncol x nrow` block, and the vector routines that guard only `nrow <= 0`. The wrapper (`CasadiFunction.Evaluate`) is proved to do three things:

- load every input through the as-written conversion its type tag selects (`Arguments.LoadAsWritten`);
- set the result buffers to what the kernel computes from the argument buffers;
- store every output through its as-written conversion (`Arguments.StoreAsWritten`).

It stops with `UnknownType` on an unknown tag, and with `Overrun` where a conversion as written would access memory past a buffer. `Arguments.AsWrittenAgrees` proves that, away from a `colmaj_args` argument with a non-square pattern flagged dense and a vector argument with rows and no column, the as-written conversions never overrun and equal the intended ones (`Arguments.Load` / `Store`), whose round trip `Arguments.LoadAfterStore` proves.

## Model

| member | source | states |
|---|---|---|
| Sparsity.Nnz | acados/utils/external_function_generic.c:167-190 | `casadi_nnz`: 0 for NULL, `nrow*ncol` in the dense form, otherwise the column-by-column sum, which equals `colptr[ncol]` and is never negative |
| Sparsity.ColumnCountsTelescope | acados/utils/external_function_generic.c:181-185 | the per-column counts summed over the first `n` columns telescope to `colptr[n] - colptr[0]` |
| Sparsity.IsDenseIffFull | acados/utils/external_function_generic.c:193-237 | `casadi_is_dense` with the row stride `nrow` answers 1 exactly when the pattern lists every cell in column-major order (both directions) |
| Sparsity.RowsFollowIff | acados/utils/external_function_generic.c:222-230 | the inner row loop succeeds exactly when every remaining entry of the column satisfies `row[idx] + jj*stride == idx` |
| Sparsity.ColumnsFollowIff | acados/utils/external_function_generic.c:214-231 | the column loop succeeds exactly when every column has `nrow` entries and all rows follow with the given stride |
| Sparsity.IsDenseAsWrittenSound | acados/utils/external_function_generic.c:193-237 | with the stride `ncol` as written, a 1 answer still implies the pattern is full |
| Sparsity.AsWrittenForcesSquare | acados/utils/external_function_generic.c:224 | as written, a compressed pattern with more than one column is reported dense only if it is square |
| Sparsity.IsDenseAsWrittenMissesNonSquare | acados/utils/external_function_generic.c:224 | every full non-square pattern with at least two columns is reported sparse as written, though it is dense |
| Sparsity.OneColumnFlagsAgree | acados/utils/external_function_generic.c:224 | with one column the stride of the row check multiplies only column 0, so the check as written and the corrected one agree |
| Sparsity.FullOneByTwoCounterexample | acados/utils/external_function_generic.c:224 | the full 1x2 pattern `[1,2,0,1,2,0,0]` is dense but `casadi_is_dense` as written answers 0 |
| Sparsity.LookupOfPos | acados/utils/external_function_generic.c:268-275 | the cell the scatter loop writes packed entry `k` to is found again by the lookup, at `k` |
| Sparsity.PosOfLookup | acados/utils/external_function_generic.c:305-312 | a cell of the pattern is the position of the entry the lookup returns |
| Sparsity.FullLookup | acados/utils/external_function_generic.c:253-257 | in a full pattern the entry of cell `(r, c)` is `r + c*nrow`, and there are `nrow*ncol` entries |
| Sparsity.FullPos | acados/utils/external_function_generic.c:253-257 | in a full pattern entry `k` sits at row `k % nrow`, column `k / nrow` |
| Sparsity.EmptyIsFull | acados/utils/external_function_generic.c:203-204 | a pattern with no rows or no columns is full and has no entries, which is why `casadi_is_dense` returns 1 for it |
| ColMajor.GatherAfterScatter | acados/utils/external_function_generic.c:243-316 | converting CasADi to column-major and back returns the nonzeros |
| ColMajor.ScatterAfterGather | acados/utils/external_function_generic.c:243-316 | converting column-major to CasADi and back keeps the pattern's cells, zeroes the other cells of the block and leaves cells outside the block alone |
| ColMajor.ScatterFlatCell | acados/utils/external_function_generic.c:264-275 | after the scatter, block cell `(r, c)` holds its nonzero if it is in the pattern and 0 otherwise |
| ColMajor.FullScatterIsCopy | acados/utils/external_function_generic.c:253-257 | for a full pattern the sparse scatter equals the dense block copy |
| ColMajor.FullGatherIsRead | acados/utils/external_function_generic.c:293-297 | for a full pattern the sparse gather equals the dense block read |
| ColMajor.ReadAfterWrite | acados/utils/external_function_generic.c:253-257 | reading back a block just written gives the written values |
| ColMajor.WriteAfterRead | acados/utils/external_function_generic.c:293-297 | writing back a block just read leaves the buffer unchanged |
| ColMajor.BlockWritePacked | acados/utils/external_function_generic.c:256 | with leading dimension `nrow` the block copy is a plain prefix copy |
| ColMajor.ZeroThenScatter | acados/utils/external_function_generic.c:264-275 | zero-filling the block and then running the nonzero loop gives the scatter specification |
| ColMajor.ScatterStep | acados/utils/external_function_generic.c:270-274 | one step of the nonzero loop writes `v[idx]` to the cell `row[idx] + jj*ld` and changes nothing else |
| Convert.FillBlockZero | acados/utils/external_function_generic.c:265-266 | the zero-fill loop sets exactly the `nrow x ncol` block to 0 |
| Convert.ScatterNonzeros | acados/utils/external_function_generic.c:268-275 | the nonzero copy loop leaves the buffer as the scan specification after all columns |
| Convert.GatherNonzeros | acados/utils/external_function_generic.c:305-312 | the gather loop fills the first `nnz` outputs with the pattern's cells in order and leaves the rest alone |
| Convert.CasadiToColmaj | acados/utils/external_function_generic.c:243-279 | `d_cvt_casadi_to_colmaj`: the buffer becomes the scatter of the nonzeros with leading dimension `nrow`; nothing happens for an empty block |
| Convert.ColmajToCasadi | acados/utils/external_function_generic.c:283-316 | `d_cvt_colmaj_to_casadi`: the first `nnz` outputs become the gather of the block with leading dimension `nrow` |
| Convert.CasadiToColmajArgs | acados/utils/external_function_generic.c:462-500 | `d_cvt_casadi_to_colmaj_args` with the dense branch corrected: the buffer becomes the scatter with leading dimension `lda` |
| Convert.CopyRowOrder | acados/utils/external_function_generic.c:475-479 | the copy loop `A[ii + jj*ld] = in[ii + m*jj]`, `ii` outermost, leaves `A` as its writes applied in loop order |
| Convert.RowOrderCopyIsBlockWrite | acados/utils/external_function_generic.c:475-479 | when the rows fit in the leading dimension no two writes of that loop meet, and it writes the `m x n` block |
| Convert.StridedReadIsBlockRead | acados/utils/external_function_generic.c:517-521 | when the rows fit in the leading dimension the strided read of the dense branch is the block read |
| Convert.CopyOutOfBlock | acados/utils/external_function_generic.c:517-521 | the read loop fills the first `m*n` outputs with the strided read of the block and keeps the rest |
| Convert.CasadiToColmajArgsAsWritten | acados/utils/external_function_generic.c:462-500 | as written: the dense branch writes the values as an `ncol x nrow` block in row order, and reports an overrun, writing nothing, exactly when that block runs past `A`; the sparse branch scatters with `lda` |
| Convert.ColmajArgsToCasadi | acados/utils/external_function_generic.c:504-539 | `d_cvt_colmaj_args_to_casadi` with the dense branch corrected: the outputs become the gather with `lda` |
| Convert.ColmajArgsToCasadiAsWritten | acados/utils/external_function_generic.c:504-539 | as written: the dense branch reads an `ncol x nrow` block, and reports an overrun, reading nothing, exactly when that block runs past `A`; the sparse branch gathers with `lda` |
| Convert.ColmajArgsAsWrittenSquare | acados/utils/external_function_generic.c:475-479 | for a square full pattern the as-written dense branch agrees with the scatter |
| Convert.ColmajArgsReadAsWrittenSquare | acados/utils/external_function_generic.c:517-521 | for a square full pattern the as-written dense read stays inside the block and agrees with the gather |
| Convert.ColmajArgsAsWrittenMisplaces | acados/utils/external_function_generic.c:475-479 | for a full 1 x ncol pattern the as-written dense branch puts `v[1]` at index 1 where the scatter puts it at `lda` |
| Convert.ColmajArgsReadAsWrittenMisplaces | acados/utils/external_function_generic.c:517-521 | for a full 1 x ncol pattern the as-written dense read takes `a[1]` where the gather takes `a[lda]` |
| Convert.ColmajArgsColumnAsWritten | acados/utils/external_function_generic.c:475-479 | for a full `nrow x 1` column with `2 <= nrow <= lda` the as-written dense branch runs past a buffer holding just the column, and in a longer one puts `v[1]` at `lda` where the scatter puts it at 1 |
| Convert.RowVectorShape | acados/utils/external_function_generic.c:193-237 | the 1x2 dense-form descriptor is accepted as dense by both versions of `casadi_is_dense` |
| Convert.ColumnShape | acados/utils/external_function_generic.c:193-237 | the 2x1 dense-form descriptor `[2,1,1]` is accepted as dense by both versions of `casadi_is_dense` |
| Blasfeo.Dgese | acados/utils/external_function_generic.c:567 | `blasfeo_dgese`: the `m x n` block at `(ai, aj)` is set to `alpha`, the rest of the matrix kept; the same call, at offset 0, is at line 340 |
| Blasfeo.PackDmat | acados/utils/external_function_generic.c:559 | `blasfeo_pack_dmat`: the block becomes the column-major block of the source read with `lda`; the same call, at offset 0, is at line 332 |
| Blasfeo.UnpackDmat | acados/utils/external_function_generic.c:600 | `blasfeo_unpack_dmat`: the column-major target block becomes the matrix block; the same call, at offset 0, is at line 369 |
| Blasfeo.MatReadAfterWrite | acados/utils/external_function_generic.c:320-388 | reading back a matrix block just written gives the written values |
| Blasfeo.MatWriteAfterReadAt | acados/utils/external_function_generic.c:320-388 | entry by entry: writing back a matrix block just read leaves each entry unchanged |
| Blasfeo.MatWriteAfterRead | acados/utils/external_function_generic.c:320-388 | writing back a matrix block just read leaves the matrix unchanged |
| Blasfeo.Dvecse | acados/utils/external_function_generic.c:648 | `blasfeo_dvecse`: entries `xi..xi+n-1` become `alpha`, the rest kept; the same call, at offset 0, is at line 414 |
| Blasfeo.PackDvec | acados/utils/external_function_generic.c:640 | `blasfeo_pack_dvec`: entries `xi..xi+n-1` become the source prefix; the same call, at offset 0, is at line 406 |
| Blasfeo.UnpackDvec | acados/utils/external_function_generic.c:679 | `blasfeo_unpack_dvec`: the output prefix becomes entries `xi..xi+n-1`; the same call, at offset 0, is at line 442 |
| ConvertBlasfeo.GatherMatAfterScatter | acados/utils/external_function_generic.c:543-619 | converting CasADi to a matrix block and back returns the nonzeros |
| ConvertBlasfeo.ScatterMatAfterGather | acados/utils/external_function_generic.c:543-619 | converting a matrix block to CasADi and back keeps the pattern's cells, zeroes the block's other cells and keeps the rest of the matrix |
| ConvertBlasfeo.GatheredCell | acados/utils/external_function_generic.c:584-619 | cell `(r, c)` of the gathered nonzeros is the matrix entry `(ai+r, aj+c)` if in the pattern, 0 otherwise |
| ConvertBlasfeo.FullScatterMatIsPack | acados/utils/external_function_generic.c:557-560 | for a full pattern the sparse scatter equals the dense `blasfeo_pack_dmat` branch |
| ConvertBlasfeo.FullGatherMatIsRead | acados/utils/external_function_generic.c:598-601 | for a full pattern the sparse gather equals the dense `blasfeo_unpack_dmat` branch |
| ConvertBlasfeo.ScatterMatStep | acados/utils/external_function_generic.c:569-576 | one step of the matrix nonzero loop sets exactly entry `(ai+row[idx], aj+jj)` to `v[idx]` |
| ConvertBlasfeo.ZeroThenScatterMat | acados/utils/external_function_generic.c:567-576 | `blasfeo_dgese` to 0 followed by the nonzero loop gives the scatter specification |
| ConvertBlasfeo.ScatterIntoMat | acados/utils/external_function_generic.c:569-576 | the nonzero loop over the matrix leaves it as the scan specification after all columns |
| ConvertBlasfeo.GatherFromMat | acados/utils/external_function_generic.c:608-615 | the gather loop over the matrix fills the first `nnz` outputs with the pattern's entries |
| ConvertBlasfeo.CasadiToDmatArgs | acados/utils/external_function_generic.c:543-580 | `d_cvt_casadi_to_dmat_args`: the matrix becomes the scatter of the nonzeros at `(ai, aj)`, on both branches |
| ConvertBlasfeo.CasadiToDmat | acados/utils/external_function_generic.c:320-353 | `d_cvt_casadi_to_dmat`: the scatter at offset `(0, 0)` |
| ConvertBlasfeo.DmatArgsToCasadi | acados/utils/external_function_generic.c:584-619 | `d_cvt_dmat_args_to_casadi`: the first `nnz` outputs become the gather at `(ai, aj)` |
| ConvertBlasfeo.DmatToCasadi | acados/utils/external_function_generic.c:357-388 | `d_cvt_dmat_to_casadi`: the gather at offset `(0, 0)` |
| ConvertBlasfeo.GatherVecAfterScatter | acados/utils/external_function_generic.c:624-695 | converting CasADi to a vector and back returns the nonzeros |
| ConvertBlasfeo.ScatterVecAfterGather | acados/utils/external_function_generic.c:624-695 | converting a vector to CasADi and back keeps the pattern's entries, zeroes the other entries of the segment and keeps the rest |
| ConvertBlasfeo.FullScatterVecIsPack | acados/utils/external_function_generic.c:638-641 | for a full column the sparse scatter equals the dense `blasfeo_pack_dvec` branch |
| ConvertBlasfeo.FullGatherVecIsRead | acados/utils/external_function_generic.c:677-680 | for a full column the sparse gather equals the dense `blasfeo_unpack_dvec` branch |
| ConvertBlasfeo.ScatterVecStep | acados/utils/external_function_generic.c:652 | one step of the vector nonzero loop sets exactly entry `xi + row[idx]` to `v[idx]` |
| ConvertBlasfeo.ZeroThenScatterVec | acados/utils/external_function_generic.c:648-654 | `blasfeo_dvecse` to 0 followed by the nonzero loop gives the scatter specification |
| ConvertBlasfeo.ScatterIntoVec | acados/utils/external_function_generic.c:650-654 | the vector nonzero loop leaves the vector as the scan specification |
| ConvertBlasfeo.GatherFromVec | acados/utils/external_function_generic.c:687-691 | the vector gather loop fills the first `nnz` outputs with the pattern's entries |
| ConvertBlasfeo.CasadiToDvecArgs | acados/utils/external_function_generic.c:624-658 | `d_cvt_casadi_to_dvec_args` with the guard corrected: the vector becomes the scatter of the nonzeros at `xi` |
| ConvertBlasfeo.CasadiToDvec | acados/utils/external_function_generic.c:393-424 | `d_cvt_casadi_to_dvec` with the guard corrected to `nrow <= 0 \|\| ncol <= 0`: the scatter at offset 0 |
| ConvertBlasfeo.DvecArgsToCasadi | acados/utils/external_function_generic.c:663-695 | `d_cvt_dvec_args_to_casadi` with the guard corrected: the outputs become the gather at `xi` |
| ConvertBlasfeo.DvecToCasadi | acados/utils/external_function_generic.c:429-458 | `d_cvt_dvec_to_casadi` with the guard corrected to `nrow <= 0 \|\| ncol <= 0`: the gather at offset 0 |
| ConvertBlasfeo.CasadiToDvecArgsAsWritten | acados/utils/external_function_generic.c:624-658 | as written: nothing for `nrow <= 0`; on the dense branch a copy of `nrow` values even when `ncol == 0`, reported as an overrun exactly when the packed buffer holds fewer; the scatter otherwise |
| ConvertBlasfeo.DvecArgsToCasadiAsWritten | acados/utils/external_function_generic.c:663-695 | as written: nothing for `nrow <= 0`; on the dense branch a copy of `nrow` values even when `ncol == 0`, reported as an overrun exactly when the packed buffer holds fewer; the gather otherwise |
| ConvertBlasfeo.CasadiToDvecAsWritten | acados/utils/external_function_generic.c:393-424 | `d_cvt_casadi_to_dvec` as written: nothing for `nrow <= 0`, a copy of `nrow` values from element 0 on the dense branch, an overrun exactly when the packed buffer holds fewer, the scatter otherwise |
| ConvertBlasfeo.DvecToCasadiAsWritten | acados/utils/external_function_generic.c:429-458 | `d_cvt_dvec_to_casadi` as written: nothing for `nrow <= 0`, a copy of `nrow` values into the packed buffer on the dense branch, an overrun exactly when it holds fewer, the gather otherwise |
| ConvertBlasfeo.NoColumnMovesNothing | acados/utils/external_function_generic.c:628-636 | a pattern with rows but no columns is dense and has no nonzeros, so the intended conversion moves nothing |
| ConvertBlasfeo.TwoRowsNoColumn | acados/utils/external_function_generic.c:628-636 | `[2, 0, 0]` is a well-formed compressed descriptor with two rows and no column |
| Arguments.LoadArg | acados/utils/external_function_generic.c:876-925 | one case of the input loop as written: with the flag `casadi_is_dense` computes as written, the packed buffer becomes the as-written conversion its type tag selects; `IGNORE_ARGUMENT` keeps it; the outcome is `UnknownType` for an unknown tag and `Overrun` exactly when the conversion would run past a buffer |
| Arguments.StoreArg | acados/utils/external_function_generic.c:930-979 | one case of the output loop as written: the argument becomes the as-written store of the packed buffer its tag selects; `IGNORE_ARGUMENT` keeps it; the outcome is `UnknownType` for an unknown tag and `Overrun` exactly when the conversion would run past a buffer |
| Arguments.LoadAfterStore | acados/utils/external_function_generic.c:876-979 | storing nonzeros into any argument kind and loading them back gives the nonzeros |
| Arguments.DensityFlag | acados/utils/external_function_generic.c:822-843 | the `args_dense` / `res_dense` flag `assign` records, `casadi_is_dense` as written, is 1 only for a full pattern and 0 only for a non-empty compressed one |
| Arguments.OutcomeOverruns | acados/utils/external_function_generic.c:393-539 | an argument's outcome is `Overrun` exactly when the as-written conversion of what it holds would access past a buffer: the `colmaj_args` dense branch on a block that does not fit, the vector dense branch on a pattern with fewer nonzeros than rows |
| Arguments.AsWrittenAgrees | acados/utils/external_function_generic.c:393-695 | away from a `colmaj_args` argument with a non-square pattern flagged dense and a vector argument with rows and no column, the as-written conversions never overrun and equal the intended load and store |
| Arguments.ColumnStoreAsWritten | acados/utils/external_function_generic.c:952-956 | a full `nrow x 1` column with `2 <= nrow <= lda` is flagged dense and is not stored as intended: it overruns a buffer holding just the column, and otherwise leaves index 1 and writes `v[1]` at `lda` |
| Arguments.LoadMatrix | acados/utils/external_function_generic.c:880-908 | the `COLMAJ`, `BLASFEO_DMAT` and `BLASFEO_DMAT_ARGS` cases of the input loop: always `Converted`, and the buffer becomes the load |
| Arguments.LoadVector | acados/utils/external_function_generic.c:892-914 | the `BLASFEO_DVEC` and `BLASFEO_DVEC_ARGS` cases of the input loop: the as-written load, or `Overrun` exactly when the dense branch would write more values than the buffer holds |
| Arguments.StoreMatrix | acados/utils/external_function_generic.c:934-962 | the `COLMAJ`, `BLASFEO_DMAT` and `BLASFEO_DMAT_ARGS` cases of the output loop: always `Converted`, and the argument becomes the store |
| Arguments.StoreVector | acados/utils/external_function_generic.c:946-968 | the `BLASFEO_DVEC` and `BLASFEO_DVEC_ARGS` cases of the output loop: the as-written store, or `Overrun` exactly when the dense branch would read more values than the buffer holds |
| Arena.RoundUp8 | acados/utils/external_function_generic.c:94-96 | `make_int_multiple_of(8, ·)`: the least multiple of 8 not below its argument |
| Arena.UpdatesAt | acados/utils/external_function_generic.c:61-72 | after the indexed updates, an entry holds its last written value, or its old value when none touched it |
| Arena.ScatterUpdates | acados/utils/external_function_generic.c:67-70 | the loop `p[idx[ii]] = p_in[ii]` leaves the buffer as the updates applied in order |
| ParamGeneric.GenericSizeFits | acados/utils/external_function_generic.c:75-119 | the arena size is a multiple of 8 and holds `np` doubles after aligning any start address |
| ParamGeneric.ParamGenericFunction.CalculateSize | acados/utils/external_function_generic.c:75-98 | records `np` and returns `np*8 + 8` rounded up to 8 |
| ParamGeneric.ParamGenericFunction.Assign | acados/utils/external_function_generic.c:102-119 | `p` is placed at the arena start rounded up to 8 and ends inside the arena |
| ParamGeneric.ParamGenericFunction.GetNparam | acados/utils/external_function_generic.c:136-144 | returns `np` |
| ParamGeneric.ParamGenericFunction.SetParam | acados/utils/external_function_generic.c:148-160 | `p` becomes the first `np` entries of the input |
| ParamGeneric.ParamGenericFunction.SetParamSparse | acados/utils/external_function_generic.c:61-72 | `p` becomes the indexed updates applied in order, a later duplicate index winning |
| CasadiExternal.SizesAddUp | acados/utils/external_function_generic.c:773-779 | the `args_size` / `res_size` tables sum to the totals `calculate_size` accumulates |
| CasadiExternal.ArenaSize | acados/utils/external_function_generic.c:781-800 | the arena size is a multiple of 8 covering the pointer, int and double regions plus 16 bytes of alignment slack |
| CasadiExternal.PlaceFits | acados/utils/external_function_generic.c:807-862 | the layout `assign` carves starts inside the arena, aligned, and ends within `raw + calculate_size` |
| CasadiExternal.PlaceAligned | acados/utils/external_function_generic.c:838-860 | every argument and result buffer and `w` start on an 8-byte boundary |
| CasadiExternal.PlaceOrdered | acados/utils/external_function_generic.c:835-860 | `iw`, the argument buffers, the result buffers and `w` follow one another without overlap |
| CasadiExternal.OffsetsOrdered | acados/utils/external_function_generic.c:845-856 | consecutive buffers carved from a cursor do not overlap and end by the total |
| CasadiExternal.Place | acados/utils/external_function_generic.c:818-857 | the cursor walk of `assign`: the two pointer tables and the four `int` tables follow one another from the aligned start, in that order, before `iw` |
| CasadiExternal.CasadiFunction.SlotTables | acados/utils/external_function_generic.c:828-843 | the size and density tables hold each slot's `casadi_nnz` and its `casadi_is_dense` flag as written |
| CasadiExternal.CasadiFunction.PlaceBuffers | acados/utils/external_function_generic.c:850-855 | one fresh buffer per slot, of the slot's size, at the cursor offsets, and the cursor past them all |
| CasadiExternal.CasadiFunction.Carve | acados/utils/external_function_generic.c:816-857 | the cursor walk fills the tables from the patterns, carves distinct fresh buffers for the argument and result slots, and ends at the layout `Place` computes |
| CasadiExternal.LoadAll | acados/utils/external_function_generic.c:876-925 | the input loop as written: success exactly when every visited argument's outcome is `Converted`, and then every buffer holds its argument's as-written load; buffers past the visited slots are kept |
| CasadiExternal.StoreAll | acados/utils/external_function_generic.c:930-979 | the output loop as written: success exactly when every visited argument's outcome is `Converted`, and then every output holds the as-written store of its buffer; no buffer changes |
| CasadiExternal.CasadiFunction.CalculateSize | acados/utils/external_function_generic.c:758-803 | records the generated counts and totals (and `np` for the parametric kind, lines 1096-1150) and returns the arena size |
| CasadiExternal.CasadiFunction.Assign | acados/utils/external_function_generic.c:807-862 | records each slot's `casadi_nnz` and its `casadi_is_dense` flag as written, creates every buffer with its slot's size, and the layout ends inside the arena |
| CasadiExternal.CasadiFunction.InLimit | acados/utils/external_function_generic.c:1225 | the wrapper converts `in_num` inputs, or `in_num - 1` for the parametric kind, whose last input is the parameter |
| CasadiExternal.CasadiFunction.LoadInputs | acados/utils/external_function_generic.c:876-925 | the input loop over the object's buffers with the recorded flags: the outcomes and loads of `LoadAll`; the object's fields, the result buffers and the buffers past the limit are untouched |
| CasadiExternal.CasadiFunction.StoreOutputs | acados/utils/external_function_generic.c:930-979 | the output loop with the recorded flags: the outcomes and stores of `StoreAll`; the object's fields and the values of its argument and result buffers are untouched |
| CasadiExternal.CasadiFunction.RunKernel | acados/utils/external_function_generic.c:928 | the generated kernel sets the result buffers from the argument buffers and changes nothing else |
| CasadiExternal.CasadiFunction.LoadAndRun | acados/utils/external_function_generic.c:876-928 | the input loop followed, when every conversion succeeds, by the kernel on the argument buffers; the outputs are not touched |
| CasadiExternal.CasadiFunction.Evaluate | acados/utils/external_function_generic.c:866-982 | `external_function_casadi_wrapper` (and, for the parametric kind, lines 1214-1317): as-written load, kernel, as-written store; success exactly when every input and output conversion ends `Converted` |
| CasadiExternal.CasadiFunction.SetParam | acados/utils/external_function_generic.c:1042-1051 | the parameter slot becomes the gather of `p` through the slot's pattern; the other slots are untouched |
| CasadiExternal.CasadiFunction.SetParamSparse | acados/utils/external_function_generic.c:1054-1069 | on a dense parameter slot, the indexed updates applied in order |
| CasadiExternal.CasadiFunction.GetNparam | acados/utils/external_function_generic.c:1321-1329 | `external_function_param_casadi_get_nparam`: returns `np`; that `np` is 0 for the non-parametric kind is a property of the class shared by both kinds, since `external_function_casadi` has no `np` and no `get_nparam` |
| SimBatch.BatchSizeMonotone | interfaces/acados_c/sim_batch_interface.c:53-61 | with non-negative member sizes the batch arena never shrinks as the batch grows |
| SimBatch.BatchSizeAffine | interfaces/acados_c/sim_batch_interface.c:53-61 | each extra member adds one memory and one workspace |
| SimBatch.Assign | interfaces/acados_c/sim_batch_interface.c:64-80 | `sim_batch_assign` with members placed at the cursor: the final cursor, and member `i` starting after the solver struct and the members before it |
| SimBatch.AssignAsWritten | interfaces/acados_c/sim_batch_interface.c:64-80 | as written: a fault exactly when the batch is non-empty and the member table `sim_solvers` points at no solvers; otherwise the same final cursor as intended, but every member handed `raw_memory` as its start |
| SimBatch.CreateAsWritten | interfaces/acados_c/sim_batch_interface.c:84-100 | `sim_batch_solver_create` as written: the member table in the `calloc`-zeroed arena is null, so every non-empty batch faults inside the assign, and an empty one creates no member |
| SimBatch.AssignedApart | interfaces/acados_c/sim_batch_interface.c:66-75 | with the intended placement the members lie past the solver struct, apart from one another, and before the final cursor |
| SimBatch.AssignAsWrittenOverlaps | interfaces/acados_c/sim_batch_interface.c:73 | as written, member 0 overlaps the solver struct and members 0 and 1 overlap |
| SimBatch.AssignAssertion | interfaces/acados_c/sim_batch_interface.c:77 | the assertion holds exactly when the member sizes sum to `N_batch` memories plus workspaces |
| SimBatch.SumZeroIffAllZero | interfaces/acados_c/sim_batch_interface.c:118-127 | the status sum of non-negative codes is 0 exactly when every member succeeded |
| SimBatch.SimBatchSolver.SumStatus | interfaces/acados_c/sim_batch_interface.c:118-127 | `sim_batch_solver_sum_status` returns the sum of the members' statuses |
| SimBatch.SimBatchSolver.constructor | interfaces/acados_c/sim_batch_interface.c:84-100 | the solver as creation evidently intends: `N_batch` recorded and a fresh status array of `N_batch` entries, all 0 as the `calloc`-zeroed arena gives them |
| SimBatch.SimBatchSolver.ResetStatus | interfaces/acados_c/sim_batch_interface.c:129-136 | every member's status becomes 0, the rest of the array is kept |
| SimBatch.ResetIdempotent | interfaces/acados_c/sim_batch_interface.c:129-136 | resetting twice is resetting once |
| SimBatch.SumAfterReset | interfaces/acados_c/sim_batch_interface.c:129-136 | right after a reset the statuses sum to 0 |
| SimBatch.SimBatchSolver.SolveAsWritten | interfaces/acados_c/sim_batch_interface.c:138-154 | as written: the statuses are reset, the members' codes are lost, and the result is always 0 |
| SimBatch.SimBatchSolver.Solve | interfaces/acados_c/sim_batch_interface.c:138-154 | as intended: each member's code lands in its status slot, and the result is their sum |
| SimBatch.SolveHidesFailure | interfaces/acados_c/sim_batch_interface.c:147-153 | a batch whose member 2 fails with code 3 sums to 3, which the as-written solve reports as 0 |
| SimBatch.SimBatchSolver.Precompute | interfaces/acados_c/sim_batch_interface.c:156-166 | each member's `precompute` code is stored in its slot, and the result is their sum |
| SimBatch.SimBatchSolver.SolverSet | interfaces/acados_c/sim_batch_interface.c:169-178 | each member's `memory_set` code is stored in its slot, and the result is their sum |
| SimBatch.RecordedPrefix | interfaces/acados_c/sim_batch_interface.c:159-163 | after recording, the first `N_batch` statuses are the codes and the rest are kept |
| SimBatch.SimBatchSolver.RecordAll | interfaces/acados_c/sim_batch_interface.c:159-177 | each member's return code lands in its status slot, the rest of the array is kept, and the result is the codes' sum |

## Left out

- Integer width: sizes, counts and addresses are unbounded `int`; the C code's `int` / `acados_size_t` overflow is not modelled.
- Doubles are `real`; no arithmetic is done on them, so rounding does not arise.
- BLASFEO matrices are modelled by their logical entries (`array2<real>`), not by the panel-major memory layout; the BLASFEO routines themselves are foreign and are given the contracts their names promise.
- The leading dimension of a BLASFEO matrix, and the leading dimension `lda` of a column-major argument, are assumed to hold the block (`nrow <= lda`, the block inside the buffer); the C code does not check this.
- CasadiExternal.CasadiFunction.SetParamSparse: requires a dense parameter slot, because the sparse branch of `external_function_param_casadi_set_param_sparse` (lines 1070-1089) is not valid C (an empty index expression, an undeclared `jj`); only the dense branch is modelled.
- `printf` followed by `exit(1)` on an unknown argument type becomes the returned outcome `UnknownType`; nothing is promised about the arguments on that path.
- OpenMP parallelism in `sim_batch_solve` is left out; the members are visited in order.
- `calloc` / `free`, the `*_create` / `*_destroy` functions (apart from what SimBatch.CreateAsWritten captures of `sim_batch_solver_create`) and the `set_*` helpers that install generated code are left out; the generated code is a value (`Generated`) fixed at construction.
- The generated kernel `casadi_fun` is a parameter of CasadiExternal.CasadiFunction.Evaluate (a function from argument values to result values); its use of `iw` and `w` is not modelled.
- `external_function_param_generic_wrapper` only calls a foreign function pointer and is left out.
- The `mem.c` helpers are not part of this model; `make_int_multiple_of` and `align_char_to` are modelled by Arena.RoundUp8.
- Buffers carved by `assign` are fresh arrays whose byte addresses are recorded in a separate layout; overlap in memory is stated on the addresses, not on the arrays.
- `sim_assign`, `sim_calculate_size` and the members' `evaluate`, `precompute` and `memory_set` are foreign; their sizes and return codes are parameters.
- CasadiExternal.CasadiFunction.SetParam: the parameter is taken to be argument `args_num - 1` with a pattern, as the C code assumes without checking.
- CasadiExternal.CasadiFunction.StoreOutputs: the outputs must point to storage that is pairwise disjoint and apart from the object's own buffers; the C code does not check this.
- CasadiExternal.CasadiFunction.Evaluate: the argument bounds are stated through the generated counts (`n_in`, `n_out`) rather than through the fields `in_num`, `out_num`, which `calculate_size` sets equal to them.

- Dimensions and `np` are taken non-negative, as CasADi emits them: `Sparsity.WellFormed` requires `nrow >= 0` and `ncol >= 0`, and `calculate_size` requires `np >= 0`. The C code's `nrow <= 0 | ncol <= 0` guards also cover negative dimensions, and a dense-form descriptor with one negative dimension would have a negative `casadi_nnz`; neither is modelled.
- Evaluate: an access past a buffer by a conversion as written is undefined in C; the model reports it as the outcome `Overrun`, does not perform it, and the wrapper stops at the first such conversion. LoadAll, StoreAll, LoadInputs, StoreOutputs, LoadArg and StoreArg do the same, so nothing is promised about memory past a buffer.
- CasadiToColmajArgsAsWritten: requires `nrow <= lda` and the `nrow x ncol` block inside the buffer, which the C code does not check; a pattern with `nrow > lda`, whose cells would collide, is not modelled. Within those bounds every input is accepted, including `ncol > lda` and a dense column in a buffer that holds just the column, whose out-of-buffer writes are reported as an overrun rather than performed.
- ColmajArgsToCasadiAsWritten: the same bounds as the store, and out-of-buffer reads are reported as an overrun rather than performed.
- CasadiToDvec: states the conversion with the guard corrected; the conversion as written, which the wrapper uses, is ConvertBlasfeo.CasadiToDvecAsWritten.
- DvecToCasadi: states the conversion with the guard corrected; the conversion as written, which the wrapper uses, is ConvertBlasfeo.DvecToCasadiAsWritten.
- AssignAsWritten: the member sizes are parameters, and the reads of each member's configuration through `sim_solvers` are modelled only as whether that table points at member solvers; a null table faults at the first read.
- SimBatch.SimBatchSolver.constructor: states the intended state (`N_batch` and the status array recorded); the C code never stores `N_batch`, `status` or `sim_solvers` (SimBatch.CreateAsWritten), and `sim_batch_calculate_size` (SimBatch.BatchSize) reserves no room for the status array or the member table.

## Findings

| source | as written | input that shows it | evidently intended | confidence | as-written member | corrected member |
|---|---|---|---|---|---|---|
| acados/utils/external_function_generic.c:224 | `casadi_is_dense` checks `row[idx] + jj*ncol != idx` | the full 1x2 pattern `[1,2,0,1,2,0,0]`: entry 1 has row 0 in column 1, and `0 + 1*2 != 1` | stride `nrow`, so every full pattern is dense | high, not executed | Sparsity.FullOneByTwoCounterexample | Sparsity.IsDenseIffFull |
| acados/utils/external_function_generic.c:475-479, 517-521 | the dense branch of the `colmaj_args` conversions loops `ii < ncol`, `jj < nrow` and uses `A[ii + jj*lda]`, an `ncol x nrow` block | a full 1 x ncol pattern in dense form, such as `[1,2,1]`, which both checks flag dense, with `lda >= ncol`: `v[1]` lands at index 1 instead of `lda` | the `nrow x ncol` block that the sparse branch fills | high, not executed | Convert.ColmajArgsAsWrittenMisplaces | Convert.CasadiToColmajArgs |
| acados/utils/external_function_generic.c:475-479, 952-956 | the same dense branch, reached from the wrapper's `COLMAJ_ARGS` output case, walks a full column as a row | `[2,1,1]` (a dense 2x1 column, flagged dense) with `lda = 2`: `v[1]` is written at `A[2]`, past a 2-entry buffer, and in a longer buffer index 1 keeps its old value | `A[1] = v[1]`, the column the sparse branch fills | high, not executed | Arguments.ColumnStoreAsWritten | Convert.CasadiToColmajArgs |
| acados/utils/external_function_generic.c:400-406, 436-442, 628-636, 667-675 | all four `dvec` conversions guard only `nrow <= 0`, and `casadi_is_dense` answers 1 when `ncol <= 0` | `[2, 0, 0]`, two rows and no column: zero nonzeros, yet the dense branch moves two values | no values moved for an empty pattern (guard `nrow <= 0 \|\| ncol <= 0`, as the other conversions have) | medium, not executed | ConvertBlasfeo.CasadiToDvecArgsAsWritten | ConvertBlasfeo.CasadiToDvecArgs |
| interfaces/acados_c/sim_batch_interface.c:143-153 | each member's `evaluate` result goes to a local `status`, which is overwritten; the sum of the freshly reset array is returned | codes `[0, 0, 3, 0]`: member 2 fails, the solve returns 0 | `solver->status[i] = ...`, as `precompute` and `solver_set` do | high, not executed | SimBatch.SimBatchSolver.SolveAsWritten | SimBatch.SimBatchSolver.Solve |
| interfaces/acados_c/sim_batch_interface.c:73 | every member is assigned at `raw_memory` while the cursor `c_ptr` advances separately | a batch of two members with a non-empty solver struct: both members start at `raw_memory`, inside the solver struct | each member assigned at `c_ptr` | medium, not executed | SimBatch.AssignAsWrittenOverlaps | SimBatch.AssignedApart |
| interfaces/acados_c/sim_batch_interface.c:64-100 | `sim_batch_solver_create` hands `sim_batch_assign` a `calloc`-zeroed arena, and the assign reads each member's configuration through `solver->sim_solvers[i]` without ever setting `sim_solvers`, `N_batch` or `status` | `sim_batch_solver_create` with `N_batch = 1`: the first read goes through the null member table | the batch size, the status array and the member table stored in the solver, and the members created before they are read | high, not executed | SimBatch.CreateAsWritten | SimBatch.SimBatchSolver.constructor |
