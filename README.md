# haifisch matrix kernel in Dafny

This project models the dense matrix kernel of the header `haifisch/matrix.hpp`.

- A `matrix` owns a flat buffer of `cols * rows` elements. Element (x, y) lives at `mat[cols * y + x]`.
- Copy goes through `construct`, which reuses the buffer when the element count matches.
- Move hands the buffer over and leaves the source with a null buffer and extents 0.
- `fill`, `+=`, `-=` and scalar `*=` update the buffer in place. `+`, `-` and `*` copy first.
- `==` compares extents and elements.
- Matrix `*=` tests `(cols & (cols - 1)) == 0` and picks one of two strategies:
  - the naive product, which transposes the left operand and runs a triple loop;
  - Strassen's algorithm: seven recursive products of quadrant sums, with a 1-by-1 base case.
- Also modelled: the fixed-length `vector`, the matrix-times-vector product, `transpose` and `nearest_power_of_2`.

The model is imperative, like the header.

- `Haifisch.Matrix` and `Haifisch.Vector` are classes over Dafny arrays. Their methods carry `modifies` clauses and their loops carry invariants.
- A method's result or new state is tied to ghost functions over the flat contents (`Elements()`).
- Elements are unbounded integers, so the ring identities behind Strassen's algorithm hold exactly.

Modules:

- `Bits`:
  - the power-of-two guard on `size_t` extents, with the wrap-around of `0 - 1` written out;
  - `nearest_power_of_2` on `bv64`.
- `LinAlg`: the ghost specification over flat `seq<int>` buffers.
  - `Get` reads element (x, y).
  - `Dot` is the prefix sum of A(i, k) * B(k, j), and `IsProduct` says every cell is the full sum.
  - `IsQuadrant` and `IsAssembly` describe the quadrant split and assembly.
  - `StrassenStep` is the identity behind one level of Strassen's algorithm.
  - `RowDot` and `RowDotAsWritten` are the two readings of the matrix-times-vector loop.
- `Haifisch`: the classes, `Transpose`, `NaiveMul`, `StrassenMul`, the quadrant loops and the matrix-times-vector product.
  - The dispatcher `*=` is a method of `Matrix` and calls the strategies, so all of these share one module.
  - Each loop nest of the strategies is split into one method per loop level. The split and assembly loops go down to one method per cell write, so each proof stays small. Within a row the statements and their order are those of the header, with one exception: the header splits both operands in a single loop nest, and the model splits them one after the other (see "## Left out").

`(cols & (cols - 1)) == 0` is the usual power-of-two test, but it also holds for `cols == 0`: see `Bits.GuardAsWritten` and the first finding. The comment "If not power of 2" above the guard labels the Strassen branch backwards.

`strassen_mul_impl::process` is declared with an unused `allocated_block` first parameter, but every call passes only the two operands. The model is the two-operand form.

## Model

| member | source | states |
|---|---|---|
| Bits.SizeTDecrement | haifisch/matrix.hpp:240 | `cols - 1` on `size_t`: the result is again a `size_t`, and adding 1 modulo 2^64 gives back `cols`, so 0 wraps to 2^64 - 1 |
| Bits.PowerOfTwoGuard | haifisch/matrix.hpp:240 | the test `(cols & (cols - 1)) == 0` as written, with `cols - 1` wrapping modulo 2^64; Bits.GuardAsWritten states which extents pass it |
| Bits.UsesStrassen | haifisch/matrix.hpp:239-240 | the corrected dispatch test `cols != 0 && (cols & (cols - 1)) == 0`, which Haifisch.Matrix.MulAssign uses; Bits.UsesStrassenIffPowerOfTwo states that it selects exactly the powers of two |
| Bits.PositiveGuardIsPowerOfTwo | haifisch/matrix.hpp:240 | for n >= 1, n & (n - 1) is zero exactly when n is a power of two |
| Bits.GuardAsWritten | haifisch/matrix.hpp:240 | the guard as written, with `size_t` wrap-around, holds exactly for 0 and the powers of two |
| Bits.UsesStrassenIffPowerOfTwo | haifisch/matrix.hpp:239-254 | the corrected guard, which excludes 0, selects exactly the powers of two |
| Bits.HalfOfPowerOfTwo | haifisch/matrix.hpp:369 | halving a power of two above 1 gives an exact power of two, so every recursion level gets a power-of-two extent |
| Bits.Halved | haifisch/matrix.hpp:369 | the extent after d levels of halving never exceeds the start extent, so from 0 it stays 0 |
| Bits.GuardAdmitsEmpty | haifisch/matrix.hpp:240 | the guard admits extent 0, which is no power of two, and no depth of halving from 0 reaches the base extent 1 |
| Bits.PowerOfTwoReachesBase | haifisch/matrix.hpp:361-369 | from a power of two, some depth of halving reaches the base extent 1 |
| Bits.NearestPowerOf2 | haifisch/matrix.hpp:115-126 | 0 wraps to 0; for 1 <= v <= 2^32 the result p is a power of two with v <= p < 2v; 2^32 + 1 gives 2^33 - 1, no power of two |
| Haifisch.Vector.constructor | haifisch/matrix.hpp:65-69 | a buffer of exactly `size` elements, with `len == size` |
| Haifisch.Vector.Size | haifisch/matrix.hpp:87-90 | `size()` is the number of elements held |
| Haifisch.Vector.At | haifisch/matrix.hpp:78-86 | for index < len, `at` / `[]` reads element `index` |
| Haifisch.Vector.SetAt | haifisch/matrix.hpp:78-86 | writing through the returned reference changes element `index` and nothing else |
| Haifisch.Matrix.constructor | haifisch/matrix.hpp:135-139 | the extents are as given, and a fresh buffer holds exactly cols * rows elements |
| Haifisch.Matrix.Copy | haifisch/matrix.hpp:140-143 | a copy has rhs's extents and elements, in a fresh buffer |
| Haifisch.Matrix.Move | haifisch/matrix.hpp:144-152 | the new matrix owns rhs's buffer, extents and elements; rhs is left with a null buffer and extents 0 |
| Haifisch.Matrix.Construct | haifisch/matrix.hpp:302-321 | takes rhs's extents and elements and leaves rhs unchanged; keeps the buffer iff it is non-null with an equal element count, else allocates a fresh one |
| Haifisch.Matrix.CopyAssign | haifisch/matrix.hpp:195-199 | copy assignment has the same outcome as `construct` |
| Haifisch.Matrix.MoveAssign | haifisch/matrix.hpp:200-210 | takes over rhs's buffer, extents and elements; rhs ends with a null buffer and extents 0 |
| Haifisch.Matrix.Width | haifisch/matrix.hpp:164-167 | width times height is the element count |
| Haifisch.Matrix.Height | haifisch/matrix.hpp:168-171 | width times height is the element count |
| Haifisch.Matrix.At | haifisch/matrix.hpp:180-194 | for x < cols and y < rows, reads element (x, y) of the buffer |
| Haifisch.Matrix.SetAt | haifisch/matrix.hpp:180-194 | writing through the reference changes element (x, y) and no other cell |
| Haifisch.Matrix.Fill | haifisch/matrix.hpp:157-163 | every one of the cols * rows elements becomes `value` |
| Haifisch.Matrix.AddAssign | haifisch/matrix.hpp:211-222 | each element gains rhs's element at the same index; extents unchanged; rhs unchanged unless it shares the buffer |
| Haifisch.Matrix.SubAssign | haifisch/matrix.hpp:223-234 | each element loses rhs's element at the same index; extents unchanged; rhs unchanged unless it shares the buffer |
| Haifisch.Matrix.ScaleAssign | haifisch/matrix.hpp:256-264 | each element is multiplied by `val`; extents unchanged |
| Haifisch.Matrix.Plus | haifisch/matrix.hpp:265-269 | a fresh matrix holding the elementwise sum; both operands unchanged |
| Haifisch.Matrix.Minus | haifisch/matrix.hpp:270-274 | a fresh matrix holding the elementwise difference; both operands unchanged |
| Haifisch.Matrix.MulAssign | haifisch/matrix.hpp:235-255 | for n-by-n operands the receiver becomes their product; cols unchanged; rows becomes rhs.rows; rhs unchanged unless it is the receiver |
| Haifisch.Matrix.Times | haifisch/matrix.hpp:275-279 | a fresh matrix holding the product; both operands unchanged |
| Haifisch.Matrix.Equals | haifisch/matrix.hpp:280-285 | true iff the extents are equal and all elements are equal |
| Haifisch.Matrix.NotEquals | haifisch/matrix.hpp:286-289 | true iff `==` is false |
| Haifisch.Transpose | haifisch/matrix.hpp:468-484 | extents swapped and result(i, j) == m(j, i) over the height-by-height loop range; for square m, the full transpose |
| Haifisch.NaiveMul | haifisch/matrix.hpp:330-354 | for n-by-n operands, every result cell (i, j) is the sum over k < n of lhs(i, k) * rhs(k, j) |
| Haifisch.NaiveRow | haifisch/matrix.hpp:341-349 | one pass of the j loop sets row i of the result to the product sums and keeps earlier rows |
| Haifisch.NaiveCell | haifisch/matrix.hpp:343-347 | the k loop over transposed(k, i) * rhs(k, j) sums lhs(i, k) * rhs(k, j) |
| Haifisch.SplitQuadrants | haifisch/matrix.hpp:371-395 | four fresh k-by-k matrices, each holding one quadrant of the 2k-by-2k operand |
| Haifisch.SplitRow | haifisch/matrix.hpp:383-394 | one pass of the j loop fills row i of all four quadrants and keeps earlier rows |
| Haifisch.CopyCell | haifisch/matrix.hpp:385-393 | one assignment q(i, j) = m(ox + i, oy + j) extends the filled part of the quadrant by one cell |
| Haifisch.BlockKept | haifisch/matrix.hpp:414-417 | a write into one quadrant of C keeps what is already assembled in any other quadrant |
| Haifisch.BlockNextRow | haifisch/matrix.hpp:381-383 | a finished row i means row i + 1 starts with everything before it done |
| Haifisch.AssembleQuadrants | haifisch/matrix.hpp:410-421 | a fresh 2k-by-2k matrix whose quadrants equal c11, c12, c21 and c22 |
| Haifisch.AssembleRow | haifisch/matrix.hpp:412-418 | one pass of the j loop fills row i of all four quadrants of C and keeps earlier rows |
| Haifisch.PlaceCell | haifisch/matrix.hpp:414-417 | one assignment C(ox + i, oy + j) = q(i, j) extends the assembled part of that quadrant and changes nothing outside it |
| Haifisch.StrassenMul | haifisch/matrix.hpp:356-422 | for n-by-n operands with n a power of two, every result cell (i, j) is the sum over k < n of lhs(i, k) * rhs(k, j) |
| Haifisch.MatVecMulAsWritten | haifisch/matrix.hpp:450-466 | a vector of the input's length whose entry i, for i < width, is the sum over j of mat(i, j) * vec[i] |
| Haifisch.MatVecMul | haifisch/matrix.hpp:450-466 | the corrected product: entry i, for i < width, is the sum over j of mat(i, j) * vec[j] |
| LinAlg.GetUpdate | haifisch/matrix.hpp:185 | a write at flat index cols * y + x is in bounds and changes cell (x, y) only |
| LinAlg.Extensionality | haifisch/matrix.hpp:185 | two cols-by-rows buffers that agree on every cell (x, y) are equal |
| LinAlg.AddSubCancel | haifisch/matrix.hpp:211-234 | adding and then subtracting the same operand restores the elements |
| LinAlg.FilledArithmetic | test/tests.hpp:86-100 | fill(u) + fill(v) == fill(u + v) and fill(u) - fill(v) == fill(u - v), so fill(10) + fill(10) == fill(20) and fill(10) - fill(10) == fill(0) |
| LinAlg.ProductUnique | haifisch/matrix.hpp:330-422 | the product is determined by its operands, so the naive and Strassen products of the same operands are equal cell by cell |
| LinAlg.DotFilled | test/tests.hpp:102-117 | every partial row-by-column sum of an all-u and an all-v matrix up to m is u * v * m |
| LinAlg.FilledProduct | test/tests.hpp:102-117 | the product of an all-u and an all-v n-by-n matrix is all u * v * n, so an all-10 matrix squared is all 100 * n |
| LinAlg.TransposeInvolution | haifisch/matrix.hpp:468-484 | transposing a square matrix twice gives it back |
| LinAlg.DotAddLeft | haifisch/matrix.hpp:397-403 | the product distributes over a sum in the left operand |
| LinAlg.DotSubLeft | haifisch/matrix.hpp:397-403 | the product distributes over a difference in the left operand |
| LinAlg.DotAddRight | haifisch/matrix.hpp:397-403 | the product distributes over a sum in the right operand |
| LinAlg.DotSubRight | haifisch/matrix.hpp:397-403 | the product distributes over a difference in the right operand |
| LinAlg.DotLowerHalf | haifisch/matrix.hpp:381-395 | the first k terms of a cell's sum are the product of the left and top quadrants |
| LinAlg.DotUpperHalf | haifisch/matrix.hpp:381-395 | the remaining k terms are the product of the right and bottom quadrants |
| LinAlg.DotBlock | haifisch/matrix.hpp:381-395 | a cell of a 2k-by-2k product is the sum of two quadrant products |
| LinAlg.StrassenBlock11 | haifisch/matrix.hpp:397-405 | at every cell, p5 + p4 + p6 - p2 equals a11 b11 + a12 b21, the top-left block of the product |
| LinAlg.StrassenBlock12 | haifisch/matrix.hpp:397-406 | at every cell, p1 + p2 equals a11 b12 + a12 b22, the top-right block of the product |
| LinAlg.StrassenBlock21 | haifisch/matrix.hpp:399-407 | at every cell, p3 + p4 equals a21 b11 + a22 b21, the bottom-left block of the product |
| LinAlg.StrassenBlock22 | haifisch/matrix.hpp:397-408 | at every cell, p5 + p1 - p3 - p7 equals a21 b12 + a22 b22, the bottom-right block of the product |
| LinAlg.StrassenStep | haifisch/matrix.hpp:368-421 | if p1..p7 are the seven quadrant products and C is assembled from their combinations, C is the product of the operands |
| LinAlg.ProductOfSingletons | haifisch/matrix.hpp:361-366 | the 1-by-1 base case lhs(0, 0) * rhs(0, 0) is the product |
| LinAlg.RowDotUnit | haifisch/matrix.hpp:450-466 | in the corrected product, the unit vector e_c picks column c of each row |
| LinAlg.RowDotAsWrittenScalesOneEntry | haifisch/matrix.hpp:459-462 | the as-written entry i is vec[i] times the sum of row i, whatever the other entries of vec are |
| LinAlg.RowDotAsWrittenDiffers | haifisch/matrix.hpp:461 | for the 2-by-2 all-ones matrix and vec = [1, 0], row 0 is 2 as written and 1 under the standard product |

## Left out

- Allocation: `matrix_allocator` and the boost pool allocator are left out. `destroy`, which deallocates with count 1, and `delete[]` in `~vector` are left out too. Buffers are Dafny arrays and are never freed. Fresh buffers hold unspecified values, like the uninitialised memory the allocator returns.
- The OpenMP pragmas of the naive product are left out, and its loops run sequentially. The iterations write disjoint cells, so the result is the same.
- `data()` and `at_pointer` hand out raw pointers into the buffer. They are not modelled; element access goes through `At` and `SetAt`.
- The stream printers `operator<<` for `vector` and `matrix` are console output and are not modelled.
- `util/logger.hpp`, `util/func_benchmark.hpp`, `main.cpp` and `test/tests.hpp` are drivers, timing and logging. They are not part of this model. Their test cases are restated as lemmas: `LinAlg.FilledArithmetic` covers the add and subtract tests, and `LinAlg.FilledProduct` covers the all-10 square.
- Floating-point instantiations are left out. Elements are `int`, so Strassen's identities hold exactly.
- Haifisch.Matrix.Equals: compares elements, not bytes as `memcmp` does. For `int` the two agree.
- Haifisch.Matrix.Construct: requires `rhs != this`. On self-assignment the byte-counting `memset` clears part of the source through the alias before the copy. For the same reason the `memset` of a reused buffer is not modelled: every element is overwritten right after it.
- Haifisch.Matrix.CopyAssign: requires `rhs != this`, as `construct` does.
- Haifisch.Matrix.MoveAssign: the release of the old buffer (`destroy`) is not modelled.
- Haifisch.Matrix.At: requires `x < cols && y < rows`. That bound keeps the flat index in range. The header's own asserts (`y <= cols`, `x <= rows`) do not.
- Haifisch.Matrix.SetAt: requires `x < cols && y < rows`, as `At` does.
- Element arithmetic is on unbounded integers. 32-bit `int` overflow and 64-bit wrap-around of `cols * rows` are not modelled. The one place where the `size_t` width changes a decision, `cols - 1` at `cols == 0`, is modelled.
- Haifisch.NaiveMul: requires square operands of equal extent. Its loops mix `height` and `width`, and for other shapes the result is in general not the product. Depending on the shape, the loops leave the buffers, read cells of the transpose that `transpose` never writes, or stay in bounds and compute only part of the product. For example, a 3-column, 1-row `lhs` times a 3-by-3 `rhs` reads `transposed(1, 0)` and `transposed(2, 0)`, which are never written. A 3-column, 2-row `lhs` times a 2-column, 3-row `rhs` reads only written cells, but fills in just the entries x < 2 of the product. No product is promised for those shapes.
- Haifisch.Transpose: requires `rows <= cols`, which is exactly when the height-by-height loop stays inside both buffers. The full-transpose property is stated for square matrices only.
- Haifisch.StrassenMul: requires square operands whose extent is a power of two. Every extent n >= 1 still reaches the 1-by-1 base case, because `k = height / 2` rounds down. For an odd extent, though, the quadrants leave out the last row and column, so the result is not the product. Extent 0 never reaches the base case (see "## Findings").
- Haifisch.StrassenMul: the header splits both operands in one loop nest. The model runs `SplitQuadrants` once per operand; the writes go to disjoint fresh buffers, so the quadrants are the same.
- Haifisch.AssembleQuadrants: the header allocates `C` before the split; the model allocates it when the assembly starts. Nothing touches `C` in between.
- Haifisch.Matrix.MulAssign: requires square operands of equal extent. The header only asserts `cols == rhs.rows`. Some rectangular operands stay inside the buffers: a receiver with 2 columns and 1 row takes the 1-by-1 base case, and the 256-by-257 case of `test/tests.hpp` takes the Strassen branch with k = 128. For such shapes, though, the naive loops do not compute the product (see Haifisch.NaiveMul above), and Strassen's quadrants are sized by the height alone. No product property is claimed for them. It dispatches on the corrected guard: see Findings.
- Haifisch.Matrix.Times: requires square operands of equal extent, as `MulAssign` does.
- Haifisch.MatVecMulAsWritten: requires `width <= height`, so that `result.at(i)` and `vec[i]` stay in range. Result entries from the width up to the length are never written, and their values are unspecified.
- Haifisch.MatVecMul: requires `width <= height`, so that `result.at(i)` stays in range.
- Bits.NearestPowerOf2: promises rounding up to a power of two only for inputs up to 2^32. The shifts stop at 16, so not all larger inputs are rounded up: 2^32 + 1, for one, gives 2^33 - 1, as the method's last ensures states.
- The member `transpose()` that `test/tests.hpp` and `main.cpp` call does not exist in the header and is not modelled.

## Findings

| source | as written | input that shows it | evidently intended | confidence | as-written member | corrected member |
|---|---|---|---|---|---|---|
| haifisch/matrix.hpp:240 | `(cols & (cols - 1)) == 0` also holds for `cols == 0`, because `0 - 1` wraps to 2^64 - 1 | multiplying two 0-by-0 matrices: the Strassen branch runs, height 0 is not the base case 1, k = 0, and `process` recurses on 0-by-0 quadrants without end | only powers of two take the Strassen branch (`cols != 0 && ...`); 0 goes to the naive product | not executed | Bits.PowerOfTwoGuard (shown by Bits.GuardAdmitsEmpty) | Bits.UsesStrassen (proved by Bits.UsesStrassenIffPowerOfTwo; used by Haifisch.Matrix.MulAssign) |
| haifisch/matrix.hpp:461 | the inner loop accumulates `mat.at(i, j) * vec[i]` | the 2-by-2 all-ones matrix times [1, 0] gives 2 in row 0 | the standard product: `mat.at(i, j) * vec[j]`, giving 1 | not executed | Haifisch.MatVecMulAsWritten (shown by LinAlg.RowDotAsWrittenDiffers) | Haifisch.MatVecMul (proved by LinAlg.RowDotUnit) |
