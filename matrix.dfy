/**
 The owning containers of `haifisch/matrix.hpp`: a fixed-length `vector` and
 a `matrix` over a flat buffer, with copy, move, elementwise arithmetic,
 equality, transpose, the two product strategies and the dispatcher that
 chooses between them.

 Elements are unbounded integers, so the ring identities that Strassen's
 algorithm relies on hold exactly. Buffers are Dafny arrays; a moved-from
 matrix holds `null`.
 */
module Haifisch {
  import opened LinAlg
  import opened Bits

  /** `vector`: a buffer of exactly `len` elements, fixed at construction. */
  class Vector {
    var vec: array<int>
    var len: nat

    ghost predicate Valid()
      reads this
    {
      vec.Length == len
    }

    ghost function Contents(): seq<int>
      reads this, vec
    {
      vec[..]
    }

    /** Allocates `size` elements whose values are unspecified. */
    constructor (size: nat)
      ensures Valid() && len == size && fresh(vec)
    {
      vec := new int[size];
      len := size;
    }

    function Size(): (n: nat)
      reads this, vec
      requires Valid()
      ensures n == |Contents()|
    {
      len
    }

    /** Read access through `at` / `operator[]`; the index must be below `len`. */
    function At(index: nat): (e: int)
      reads this, vec
      requires Valid() && index < len
      ensures e == Contents()[index]
    {
      vec[index]
    }

    /** Write access through the reference `at` returns. */
    method SetAt(index: nat, v: int)
      requires Valid() && index < len
      modifies vec
      ensures Valid() && Contents() == old(Contents())[index := v]
    {
      vec[index] := v;
    }
  }

  /** `matrix`: `cols * rows` elements, element (x, y) at `mat[cols * y + x]`. */
  class Matrix {
    var cols: nat
    var rows: nat
    var mat: array?<int>

    /** The buffer holds exactly `cols * rows` elements; it is null only in
        the moved-from state, whose extents are both zero. */
    ghost predicate Valid()
      reads this
    {
      && (mat == null ==> cols == 0 && rows == 0)
      && (mat != null ==> mat.Length == cols * rows)
    }

    ghost function Elements(): seq<int>
      reads this, mat
    {
      if mat == null then [] else mat[..]
    }

    /** The explicit-extents constructor; contents are unspecified. */
    constructor (cols_: nat, rows_: nat)
      ensures Valid() && cols == cols_ && rows == rows_
      ensures mat != null && fresh(mat)
    {
      cols := cols_;
      rows := rows_;
      mat := new int[cols_ * rows_];
    }

    /** Copy construction: `mat` starts out null, so `construct` allocates. */
    constructor Copy(rhs: Matrix)
      requires rhs.Valid()
      ensures Valid() && cols == rhs.cols && rows == rhs.rows
      ensures Elements() == rhs.Elements()
      ensures mat != null && fresh(mat)
    {
      cols, rows, mat := 0, 0, null;
      new;
      Construct(rhs);
    }

    /** Move construction: takes over rhs's buffer and extents and leaves rhs
        empty. */
    constructor Move(rhs: Matrix)
      requires rhs.Valid()
      modifies rhs
      ensures Valid() && mat == old(rhs.mat) && cols == old(rhs.cols) && rows == old(rhs.rows)
      ensures Elements() == old(rhs.Elements())
      ensures rhs.Valid() && rhs.mat == null && rhs.cols == 0 && rhs.rows == 0
    {
      mat := rhs.mat;
      cols := rhs.cols;
      rows := rhs.rows;
      new;
      rhs.mat := null;
      rhs.rows := 0;
      rhs.cols := 0;
    }

    /** `construct`, behind copy construction and copy assignment: keeps the
        buffer when it exists and already has rhs's element count, otherwise
        allocates exactly that many; then copies rhs element by element. */
    method Construct(rhs: Matrix)
      requires Valid() && rhs.Valid() && rhs != this
      modifies this, mat
      ensures Valid() && cols == rhs.cols && rows == rhs.rows
      ensures Elements() == old(rhs.Elements())
      ensures rhs.Elements() == old(rhs.Elements())
      ensures old(mat) != null && old(cols * rows) == rhs.cols * rhs.rows ==> mat == old(mat)
      ensures !(old(mat) != null && old(cols * rows) == rhs.cols * rhs.rows) ==> mat != null && fresh(mat)
    {
      if mat != null && cols * rows == rhs.cols * rhs.rows {
        // The source clears the reused buffer first; every element is
        // overwritten below.
      } else {
        mat := new int[rhs.cols * rhs.rows];
      }
      cols := rhs.cols;
      rows := rhs.rows;
      ghost var source := rhs.Elements();
      var i := 0;
      while i < cols * rows
        modifies mat
        invariant 0 <= i <= cols * rows
        invariant mat != null && mat.Length == cols * rows
        invariant rhs.Elements() == source
        invariant forall k :: 0 <= k < i ==> mat[k] == source[k]
      {
        mat[i] := rhs.mat[i];
        i := i + 1;
      }
      assert mat[..] == source;
    }

    /** Copy assignment. */
    method CopyAssign(rhs: Matrix)
      requires Valid() && rhs.Valid() && rhs != this
      modifies this, mat
      ensures Valid() && cols == rhs.cols && rows == rhs.rows
      ensures Elements() == old(rhs.Elements())
      ensures rhs.Elements() == old(rhs.Elements())
      ensures old(mat) != null && old(cols * rows) == rhs.cols * rhs.rows ==> mat == old(mat)
      ensures !(old(mat) != null && old(cols * rows) == rhs.cols * rhs.rows) ==> mat != null && fresh(mat)
    {
      Construct(rhs);
    }

    /** Move assignment: releases the own buffer (not modelled), takes over
        rhs's buffer and extents, and leaves rhs empty. */
    method MoveAssign(rhs: Matrix)
      requires Valid() && rhs.Valid()
      modifies this, rhs
      ensures Valid() && rhs.Valid()
      ensures rhs.mat == null && rhs.cols == 0 && rhs.rows == 0
      ensures rhs != this ==> mat == old(rhs.mat) && cols == old(rhs.cols) && rows == old(rhs.rows)
      ensures rhs != this ==> Elements() == old(rhs.Elements())
    {
      mat := rhs.mat;
      cols := rhs.cols;
      rows := rhs.rows;
      rhs.mat := null;
      rhs.rows := 0;
      rhs.cols := 0;
    }

    function Width(): (w: nat)
      reads this, mat
      requires Valid()
      ensures w * rows == |Elements()|
    {
      cols
    }

    function Height(): (h: nat)
      reads this, mat
      requires Valid()
      ensures cols * h == |Elements()|
    {
      rows
    }

    /** Read access to element (x, y) through `at` / `operator()`. */
    function At(x: nat, y: nat): (e: int)
      reads this, mat
      requires Valid() && x < cols && y < rows
      ensures |Elements()| == cols * rows && e == Get(Elements(), cols, rows, x, y)
    {
      IndexInBounds(cols, rows, x, y);
      mat[cols * y + x]
    }

    /** Write access through the reference `at` returns: exactly element
        (x, y) changes. */
    method SetAt(x: nat, y: nat, v: int)
      requires Valid() && x < cols && y < rows
      modifies mat
      ensures Valid() && |Elements()| == cols * rows
      ensures forall x': nat, y': nat :: x' < cols && y' < rows ==>
                Get(Elements(), cols, rows, x', y') ==
                  if x' == x && y' == y then v else Get(old(Elements()), cols, rows, x', y')
    {
      IndexInBounds(cols, rows, x, y);
      ghost var before := Elements();
      mat[cols * y + x] := v;
      assert Elements() == before[cols * y + x := v];
      forall x': nat, y': nat | x' < cols && y' < rows
        ensures Get(Elements(), cols, rows, x', y') ==
                  if x' == x && y' == y then v else Get(before, cols, rows, x', y')
      {
        GetUpdate(before, cols, rows, x, y, v, x', y');
      }
    }

    /** `fill`: every element becomes `value`. */
    method Fill(value: int)
      requires Valid()
      modifies mat
      ensures Valid() && Elements() == Filled(value, cols * rows)
    {
      var i := 0;
      while i < cols * rows
        invariant 0 <= i <= cols * rows
        invariant |Elements()| == cols * rows
        invariant forall k :: 0 <= k < i ==> Elements()[k] == value
      {
        mat[i] := value;
        i := i + 1;
      }
    }

    /** `operator+=`: element i gains rhs's element i. */
    method AddAssign(rhs: Matrix)
      requires Valid() && rhs.Valid() && cols == rhs.cols && rows == rhs.rows
      modifies mat
      ensures Valid() && Elements() == Add(old(Elements()), old(rhs.Elements()))
      ensures rhs.mat != mat ==> rhs.Elements() == old(rhs.Elements())
    {
      var i := 0;
      while i < cols * rows
        invariant 0 <= i <= cols * rows
        invariant |Elements()| == cols * rows && |rhs.Elements()| == cols * rows
        invariant forall k :: 0 <= k < i ==> Elements()[k] == old(Elements())[k] + old(rhs.Elements())[k]
        invariant forall k :: i <= k < cols * rows ==> Elements()[k] == old(Elements())[k]
        invariant forall k :: i <= k < cols * rows ==> rhs.Elements()[k] == old(rhs.Elements())[k]
        invariant rhs.mat != mat ==> rhs.Elements() == old(rhs.Elements())
      {
        mat[i] := mat[i] + rhs.mat[i];
        i := i + 1;
      }
    }

    /** `operator-=`: element i loses rhs's element i. */
    method SubAssign(rhs: Matrix)
      requires Valid() && rhs.Valid() && cols == rhs.cols && rows == rhs.rows
      modifies mat
      ensures Valid() && Elements() == Sub(old(Elements()), old(rhs.Elements()))
      ensures rhs.mat != mat ==> rhs.Elements() == old(rhs.Elements())
    {
      var i := 0;
      while i < cols * rows
        invariant 0 <= i <= cols * rows
        invariant |Elements()| == cols * rows && |rhs.Elements()| == cols * rows
        invariant forall k :: 0 <= k < i ==> Elements()[k] == old(Elements())[k] - old(rhs.Elements())[k]
        invariant forall k :: i <= k < cols * rows ==> Elements()[k] == old(Elements())[k]
        invariant forall k :: i <= k < cols * rows ==> rhs.Elements()[k] == old(rhs.Elements())[k]
        invariant rhs.mat != mat ==> rhs.Elements() == old(rhs.Elements())
      {
        mat[i] := mat[i] - rhs.mat[i];
        i := i + 1;
      }
    }

    /** Scalar `operator*=`: every element is multiplied by `val`. */
    method ScaleAssign(val: int)
      requires Valid()
      modifies mat
      ensures Valid() && Elements() == Scale(old(Elements()), val)
    {
      var i := 0;
      while i < cols * rows
        invariant 0 <= i <= cols * rows
        invariant |Elements()| == cols * rows
        invariant forall k :: 0 <= k < i ==> Elements()[k] == old(Elements())[k] * val
        invariant forall k :: i <= k < cols * rows ==> Elements()[k] == old(Elements())[k]
      {
        mat[i] := mat[i] * val;
        i := i + 1;
      }
    }

    /** `operator+`: a copy of this, plus rhs; both operands unchanged. */
    method Plus(rhs: Matrix) returns (result: Matrix)
      requires Valid() && rhs.Valid() && cols == rhs.cols && rows == rhs.rows
      ensures fresh(result) && result.mat != null && fresh(result.mat)
      ensures result.Valid() && result.cols == cols && result.rows == rows
      ensures result.Elements() == Add(Elements(), rhs.Elements())
    {
      result := new Matrix.Copy(this);
      result.AddAssign(rhs);
    }

    /** `operator-`: a copy of this, minus rhs; both operands unchanged. */
    method Minus(rhs: Matrix) returns (result: Matrix)
      requires Valid() && rhs.Valid() && cols == rhs.cols && rows == rhs.rows
      ensures fresh(result) && result.mat != null && fresh(result.mat)
      ensures result.Valid() && result.cols == cols && result.rows == rows
      ensures result.Elements() == Sub(Elements(), rhs.Elements())
    {
      result := new Matrix.Copy(this);
      result.SubAssign(rhs);
    }

    /** Matrix `operator*=` for n-by-n operands: Strassen's algorithm when n
        is a power of two, the naive product otherwise; the product's buffer
        then replaces the receiver's by move assignment. */
    method MulAssign(rhs: Matrix)
      requires Valid() && rhs.Valid()
      requires cols == rows && rhs.cols == rhs.rows && cols == rhs.rows
      modifies this
      ensures Valid() && cols == old(cols) && rows == old(rhs.rows)
      ensures mat != null && fresh(mat)
      ensures IsProduct(Elements(), old(Elements()), old(rhs.Elements()), cols)
      ensures rhs != this ==> rhs.Elements() == old(rhs.Elements())
    {
      if UsesStrassen(cols) {
        UsesStrassenIffPowerOfTwo(cols);
        var product := StrassenMul(this, rhs);
        MoveAssign(product);
        rows := rhs.rows;
      } else {
        var product := NaiveMul(this, rhs);
        MoveAssign(product);
        rows := rhs.rows;
      }
    }

    /** `operator*`: a copy of this, multiplied by rhs; both operands unchanged. */
    method Times(rhs: Matrix) returns (result: Matrix)
      requires Valid() && rhs.Valid()
      requires cols == rows && rhs.cols == rhs.rows && cols == rhs.rows
      ensures fresh(result) && result.mat != null && fresh(result.mat)
      ensures result.Valid() && result.cols == cols && result.rows == rows
      ensures IsProduct(result.Elements(), Elements(), rhs.Elements(), cols)
    {
      result := new Matrix.Copy(this);
      result.MulAssign(rhs);
    }

    /** `operator==`: same extents and the same elements. */
    method Equals(other: Matrix) returns (eq: bool)
      requires Valid() && other.Valid()
      ensures eq <==> cols == other.cols && rows == other.rows && Elements() == other.Elements()
    {
      if rows != other.rows {
        return false;
      }
      if cols != other.cols {
        return false;
      }
      var i := 0;
      while i < cols * rows
        invariant 0 <= i <= cols * rows
        invariant |Elements()| == cols * rows && |other.Elements()| == cols * rows
        invariant forall k :: 0 <= k < i ==> Elements()[k] == other.Elements()[k]
      {
        if mat[i] != other.mat[i] {
          assert Elements()[i] != other.Elements()[i];
          return false;
        }
        i := i + 1;
      }
      assert Elements() == other.Elements();
      return true;
    }

    /** `operator!=`: the negation of `operator==`. */
    method NotEquals(other: Matrix) returns (ne: bool)
      requires Valid() && other.Valid()
      ensures ne <==> !(cols == other.cols && rows == other.rows && Elements() == other.Elements())
    {
      var eq := Equals(other);
      ne := !eq;
    }
  }

  /** `transpose`: a new matrix with the extents swapped, filled by a loop
      nest that runs both indices up to the height; it stays inside both
      buffers exactly when the height does not exceed the width, and for a
      square matrix it is the full transpose. */
  method Transpose(m: Matrix) returns (transposed: Matrix)
    requires m.Valid() && m.rows <= m.cols
    ensures fresh(transposed) && transposed.mat != null && fresh(transposed.mat)
    ensures transposed.Valid() && transposed.cols == m.rows && transposed.rows == m.cols
    ensures forall i: nat, j: nat :: i < m.rows && j < m.rows ==>
              Get(transposed.Elements(), m.rows, m.cols, i, j) == Get(m.Elements(), m.cols, m.rows, j, i)
    ensures m.cols == m.rows ==> IsTransposeOf(transposed.Elements(), m.Elements(), m.cols)
  {
    var height := m.Height();
    var width := m.Width();
    transposed := new Matrix(height, width);
    var i := 0;
    while i < height
      modifies transposed.mat
      invariant 0 <= i <= height
      invariant transposed.Valid() && |transposed.Elements()| == height * width
      invariant forall x: nat, y: nat :: x < i && y < height ==>
                  Get(transposed.Elements(), height, width, x, y) == Get(m.Elements(), width, height, y, x)
    {
      var j := 0;
      while j < height
        modifies transposed.mat
        invariant 0 <= j <= height
        invariant transposed.Valid() && |transposed.Elements()| == height * width
        invariant forall x: nat, y: nat :: (x < i && y < height) || (x == i && y < j) ==>
                    Get(transposed.Elements(), height, width, x, y) == Get(m.Elements(), width, height, y, x)
      {
        var e := m.At(j, i);
        transposed.SetAt(i, j, e);
        j := j + 1;
      }
      i := i + 1;
    }
  }

  /** `naive_mul_impl::process` for n-by-n operands: transpose the left
      operand, then set every cell (i, j) once to the sum over k of
      transposed(k, i) * rhs(k, j). The loop nest is split into one method
      per loop level. */
  method NaiveMul(lhs: Matrix, rhs: Matrix) returns (result: Matrix)
    requires lhs.Valid() && rhs.Valid()
    requires lhs.cols == lhs.rows && rhs.cols == rhs.rows && lhs.cols == rhs.cols
    ensures fresh(result) && result.mat != null && fresh(result.mat)
    ensures result.Valid() && result.cols == lhs.cols && result.rows == lhs.cols
    ensures IsProduct(result.Elements(), lhs.Elements(), rhs.Elements(), lhs.cols)
  {
    ghost var n, a, b := lhs.cols, lhs.Elements(), rhs.Elements();
    var transposed := Transpose(lhs);
    result := new Matrix(lhs.Height(), lhs.Width());
    var i := 0;
    while i < lhs.Height()
      modifies result.mat
      invariant 0 <= i <= n
      invariant result.Valid() && |result.Elements()| == n * n
      invariant forall x: nat, y: nat :: x < i && y < n ==>
                  Get(result.Elements(), n, n, x, y) == Dot(a, b, n, x, y, n)
    {
      NaiveRow(result, transposed, rhs, i, a);
      i := i + 1;
    }
  }

  /** The middle loop of the naive product: fills row i of result. */
  method NaiveRow(result: Matrix, transposed: Matrix, rhs: Matrix, i: nat, ghost a: seq<int>)
    requires rhs.Valid() && rhs.cols == rhs.rows && i < rhs.rows
    requires transposed.Valid() && transposed.cols == rhs.cols && transposed.rows == rhs.cols
    requires IsTransposeOf(transposed.Elements(), a, rhs.cols)
    requires result.Valid() && result.cols == rhs.cols && result.rows == rhs.cols
    requires result.mat != transposed.mat && result.mat != rhs.mat
    requires forall x: nat, y: nat :: x < i && y < rhs.cols ==>
               Get(result.Elements(), rhs.cols, rhs.cols, x, y) == Dot(a, rhs.Elements(), rhs.cols, x, y, rhs.cols)
    modifies result.mat
    ensures result.Valid() && |result.Elements()| == rhs.cols * rhs.cols
    ensures forall x: nat, y: nat :: x <= i && y < rhs.cols ==>
              Get(result.Elements(), rhs.cols, rhs.cols, x, y) == Dot(a, rhs.Elements(), rhs.cols, x, y, rhs.cols)
  {
    ghost var n, b := rhs.cols, rhs.Elements();
    var j := 0;
    while j < rhs.Height()
      modifies result.mat
      invariant 0 <= j <= n
      invariant result.Valid() && |result.Elements()| == n * n
      invariant forall x: nat, y: nat :: (x < i && y < n) || (x == i && y < j) ==>
                  Get(result.Elements(), n, n, x, y) == Dot(a, b, n, x, y, n)
    {
      var accumulator := NaiveCell(transposed, rhs, i, j, a);
      result.SetAt(i, j, accumulator);
      j := j + 1;
    }
  }

  /** The innermost loop of the naive product: the sum over k of
      transposed(k, i) * rhs(k, j), which is entry (i, j) of the product of
      the matrix transposed is the transpose of with rhs. */
  method NaiveCell(transposed: Matrix, rhs: Matrix, i: nat, j: nat, ghost a: seq<int>) returns (accumulator: int)
    requires rhs.Valid() && rhs.cols == rhs.rows && i < rhs.rows && j < rhs.rows
    requires transposed.Valid() && transposed.cols == rhs.cols && transposed.rows == rhs.cols
    requires IsTransposeOf(transposed.Elements(), a, rhs.cols)
    ensures accumulator == Dot(a, rhs.Elements(), rhs.cols, i, j, rhs.cols)
  {
    ghost var n, b := rhs.cols, rhs.Elements();
    accumulator := 0;
    var k := 0;
    while k < rhs.Width()
      invariant 0 <= k <= n
      invariant accumulator == Dot(a, b, n, i, j, k)
    {
      accumulator := accumulator + transposed.At(k, i) * rhs.At(k, j);
      k := k + 1;
    }
  }

  /** Cells of the k-by-k block q done by a row-major loop that is at row i,
      column j, equal the cells of the 2k-by-2k matrix s at offset (ox, oy). */
  ghost predicate BlockDone(q: seq<int>, s: seq<int>, k: nat, ox: nat, oy: nat, i: nat, j: nat)
  {
    && |q| == k * k && |s| == 2 * k * (2 * k) && ox <= k && oy <= k
    && forall x: nat, y: nat :: x < k && y < k && (x < i || (x == i && y < j)) ==>
         Get(q, k, k, x, y) == Get(s, 2 * k, 2 * k, ox + x, oy + y)
  }

  /** t equals s, both 2k-by-2k, except in the quadrant at offset (ox, oy). */
  ghost predicate SameOutside(s: seq<int>, t: seq<int>, k: nat, ox: nat, oy: nat)
  {
    && |s| == 2 * k * (2 * k) && |t| == |s|
    && forall x: nat, y: nat :: x < 2 * k && y < 2 * k && !(ox <= x < ox + k && oy <= y < oy + k) ==>
         Get(t, 2 * k, 2 * k, x, y) == Get(s, 2 * k, 2 * k, x, y)
  }

  /** A write confined to one quadrant keeps what is done in another. */
  lemma BlockKept(q: seq<int>, s: seq<int>, t: seq<int>, k: nat, ox: nat, oy: nat, wx: nat, wy: nat, i: nat, j: nat)
    requires BlockDone(q, s, k, ox, oy, i, j) && SameOutside(s, t, k, wx, wy)
    requires (ox == 0 || ox == k) && (oy == 0 || oy == k)
    requires (wx == 0 || wx == k) && (wy == 0 || wy == k) && (ox != wx || oy != wy)
    ensures BlockDone(q, t, k, ox, oy, i, j)
  {
    forall x: nat, y: nat | x < k && y < k && (x < i || (x == i && y < j))
      ensures Get(q, k, k, x, y) == Get(t, 2 * k, 2 * k, ox + x, oy + y)
    {
      assert !(wx <= ox + x < wx + k && wy <= oy + y < wy + k);
    }
  }

  /** Finishing row i is starting row i + 1. */
  lemma BlockNextRow(q: seq<int>, s: seq<int>, k: nat, ox: nat, oy: nat, i: nat)
    requires BlockDone(q, s, k, ox, oy, i, k)
    ensures BlockDone(q, s, k, ox, oy, i + 1, 0)
  {
  }

  /** q is the quadrant of m at offset (ox, oy), with both matrices well formed. */
  ghost predicate QuadrantDone(q: Matrix, m: Matrix, k: nat, ox: nat, oy: nat, i: nat, j: nat)
    reads q, q.mat, m, m.mat
  {
    && q.Valid() && q.cols == k && q.rows == k
    && m.Valid() && m.cols == 2 * k && m.rows == 2 * k
    && BlockDone(q.Elements(), m.Elements(), k, ox, oy, i, j)
  }

  /** The split loop of `strassen_mul_impl::process`: four fresh k-by-k
      matrices holding the quadrants of the 2k-by-2k matrix m. The loop nest
      is split into one method per loop level. */
  method SplitQuadrants(m: Matrix, k: nat) returns (q11: Matrix, q12: Matrix, q21: Matrix, q22: Matrix)
    requires m.Valid() && m.cols == 2 * k && m.rows == 2 * k
    ensures fresh(q11) && fresh(q12) && fresh(q21) && fresh(q22)
    ensures q11.Valid() && q11.cols == k && q11.rows == k
    ensures q12.Valid() && q12.cols == k && q12.rows == k
    ensures q21.Valid() && q21.cols == k && q21.rows == k
    ensures q22.Valid() && q22.cols == k && q22.rows == k
    ensures IsQuadrant(q11.Elements(), m.Elements(), 2 * k, k, 0, 0)
    ensures IsQuadrant(q12.Elements(), m.Elements(), 2 * k, k, 0, k)
    ensures IsQuadrant(q21.Elements(), m.Elements(), 2 * k, k, k, 0)
    ensures IsQuadrant(q22.Elements(), m.Elements(), 2 * k, k, k, k)
  {
    q11 := new Matrix(k, k);
    q12 := new Matrix(k, k);
    q21 := new Matrix(k, k);
    q22 := new Matrix(k, k);
    var i := 0;
    while i < k
      modifies q11.mat, q12.mat, q21.mat, q22.mat
      invariant 0 <= i <= k
      invariant QuadrantDone(q11, m, k, 0, 0, i, 0) && QuadrantDone(q12, m, k, 0, k, i, 0)
      invariant QuadrantDone(q21, m, k, k, 0, i, 0) && QuadrantDone(q22, m, k, k, k, i, 0)
    {
      SplitRow(m, q11, q12, q21, q22, k, i);
      i := i + 1;
    }
  }

  /** The middle loop of the split: row i of all four quadrants. */
  method SplitRow(m: Matrix, q11: Matrix, q12: Matrix, q21: Matrix, q22: Matrix, k: nat, i: nat)
    requires i < k
    requires QuadrantDone(q11, m, k, 0, 0, i, 0) && QuadrantDone(q12, m, k, 0, k, i, 0)
    requires QuadrantDone(q21, m, k, k, 0, i, 0) && QuadrantDone(q22, m, k, k, k, i, 0)
    requires q11.mat != q12.mat && q11.mat != q21.mat && q11.mat != q22.mat
    requires q12.mat != q21.mat && q12.mat != q22.mat && q21.mat != q22.mat
    requires m.mat != q11.mat && m.mat != q12.mat && m.mat != q21.mat && m.mat != q22.mat
    modifies q11.mat, q12.mat, q21.mat, q22.mat
    ensures QuadrantDone(q11, m, k, 0, 0, i + 1, 0) && QuadrantDone(q12, m, k, 0, k, i + 1, 0)
    ensures QuadrantDone(q21, m, k, k, 0, i + 1, 0) && QuadrantDone(q22, m, k, k, k, i + 1, 0)
  {
    var j := 0;
    while j < k
      modifies q11.mat, q12.mat, q21.mat, q22.mat
      invariant 0 <= j <= k
      invariant QuadrantDone(q11, m, k, 0, 0, i, j) && QuadrantDone(q12, m, k, 0, k, i, j)
      invariant QuadrantDone(q21, m, k, k, 0, i, j) && QuadrantDone(q22, m, k, k, k, i, j)
    {
      CopyCell(q11, m, k, 0, 0, i, j);
      CopyCell(q12, m, k, 0, k, i, j);
      CopyCell(q21, m, k, k, 0, i, j);
      CopyCell(q22, m, k, k, k, i, j);
      j := j + 1;
    }
    BlockNextRow(q11.Elements(), m.Elements(), k, 0, 0, i);
    BlockNextRow(q12.Elements(), m.Elements(), k, 0, k, i);
    BlockNextRow(q21.Elements(), m.Elements(), k, k, 0, i);
    BlockNextRow(q22.Elements(), m.Elements(), k, k, k, i);
  }

  /** One statement of the split loop: q(i, j) = m(ox + i, oy + j). */
  method CopyCell(q: Matrix, m: Matrix, k: nat, ox: nat, oy: nat, i: nat, j: nat)
    requires i < k && j < k && q.mat != m.mat
    requires QuadrantDone(q, m, k, ox, oy, i, j)
    modifies q.mat
    ensures QuadrantDone(q, m, k, ox, oy, i, j + 1)
  {
    var e := m.At(ox + i, oy + j);
    q.SetAt(i, j, e);
  }

  /** The assembly loop of `strassen_mul_impl::process`: a fresh 2k-by-2k
      matrix whose four quadrants are copies of c11, c12, c21 and c22. The
      loop nest is split into one method per loop level. */
  method AssembleQuadrants(c11: Matrix, c12: Matrix, c21: Matrix, c22: Matrix, k: nat) returns (c: Matrix)
    requires c11.Valid() && c11.cols == k && c11.rows == k
    requires c12.Valid() && c12.cols == k && c12.rows == k
    requires c21.Valid() && c21.cols == k && c21.rows == k
    requires c22.Valid() && c22.cols == k && c22.rows == k
    ensures fresh(c) && c.mat != null && fresh(c.mat)
    ensures c.Valid() && c.cols == 2 * k && c.rows == 2 * k
    ensures IsAssembly(c.Elements(), c11.Elements(), c12.Elements(), c21.Elements(), c22.Elements(), 2 * k, k)
  {
    c := new Matrix(2 * k, 2 * k);
    var i := 0;
    while i < k
      modifies c.mat
      invariant 0 <= i <= k
      invariant c.mat != null
      invariant QuadrantDone(c11, c, k, 0, 0, i, 0) && QuadrantDone(c12, c, k, 0, k, i, 0)
      invariant QuadrantDone(c21, c, k, k, 0, i, 0) && QuadrantDone(c22, c, k, k, k, i, 0)
    {
      AssembleRow(c, c11, c12, c21, c22, k, i);
      i := i + 1;
    }
  }

  /** The middle loop of the assembly: row i of all four quadrants of c. */
  method AssembleRow(c: Matrix, c11: Matrix, c12: Matrix, c21: Matrix, c22: Matrix, k: nat, i: nat)
    requires i < k
    requires QuadrantDone(c11, c, k, 0, 0, i, 0) && QuadrantDone(c12, c, k, 0, k, i, 0)
    requires QuadrantDone(c21, c, k, k, 0, i, 0) && QuadrantDone(c22, c, k, k, k, i, 0)
    requires c.mat != c11.mat && c.mat != c12.mat && c.mat != c21.mat && c.mat != c22.mat
    modifies c.mat
    ensures QuadrantDone(c11, c, k, 0, 0, i + 1, 0) && QuadrantDone(c12, c, k, 0, k, i + 1, 0)
    ensures QuadrantDone(c21, c, k, k, 0, i + 1, 0) && QuadrantDone(c22, c, k, k, k, i + 1, 0)
  {
    var j := 0;
    while j < k
      modifies c.mat
      invariant 0 <= j <= k
      invariant QuadrantDone(c11, c, k, 0, 0, i, j) && QuadrantDone(c12, c, k, 0, k, i, j)
      invariant QuadrantDone(c21, c, k, k, 0, i, j) && QuadrantDone(c22, c, k, k, k, i, j)
    {
      ghost var s := c.Elements();
      PlaceCell(c, c11, k, 0, 0, i, j);
      BlockKept(c12.Elements(), s, c.Elements(), k, 0, k, 0, 0, i, j);
      BlockKept(c21.Elements(), s, c.Elements(), k, k, 0, 0, 0, i, j);
      BlockKept(c22.Elements(), s, c.Elements(), k, k, k, 0, 0, i, j);
      s := c.Elements();
      PlaceCell(c, c12, k, 0, k, i, j);
      BlockKept(c11.Elements(), s, c.Elements(), k, 0, 0, 0, k, i, j + 1);
      BlockKept(c21.Elements(), s, c.Elements(), k, k, 0, 0, k, i, j);
      BlockKept(c22.Elements(), s, c.Elements(), k, k, k, 0, k, i, j);
      s := c.Elements();
      PlaceCell(c, c21, k, k, 0, i, j);
      BlockKept(c11.Elements(), s, c.Elements(), k, 0, 0, k, 0, i, j + 1);
      BlockKept(c12.Elements(), s, c.Elements(), k, 0, k, k, 0, i, j + 1);
      BlockKept(c22.Elements(), s, c.Elements(), k, k, k, k, 0, i, j);
      s := c.Elements();
      PlaceCell(c, c22, k, k, k, i, j);
      BlockKept(c11.Elements(), s, c.Elements(), k, 0, 0, k, k, i, j + 1);
      BlockKept(c12.Elements(), s, c.Elements(), k, 0, k, k, k, i, j + 1);
      BlockKept(c21.Elements(), s, c.Elements(), k, k, 0, k, k, i, j + 1);
      j := j + 1;
    }
    BlockNextRow(c11.Elements(), c.Elements(), k, 0, 0, i);
    BlockNextRow(c12.Elements(), c.Elements(), k, 0, k, i);
    BlockNextRow(c21.Elements(), c.Elements(), k, k, 0, i);
    BlockNextRow(c22.Elements(), c.Elements(), k, k, k, i);
  }

  /** One statement of the assembly loop: c(ox + i, oy + j) = q(i, j); the
      rest of c, outside that quadrant, is unchanged. */
  method PlaceCell(c: Matrix, q: Matrix, k: nat, ox: nat, oy: nat, i: nat, j: nat)
    requires i < k && j < k && c.mat != q.mat
    requires QuadrantDone(q, c, k, ox, oy, i, j)
    modifies c.mat
    ensures QuadrantDone(q, c, k, ox, oy, i, j + 1)
    ensures SameOutside(old(c.Elements()), c.Elements(), k, ox, oy)
  {
    var e := q.At(i, j);
    c.SetAt(ox + i, oy + j, e);
  }
  /** `strassen_mul_impl::process` for n-by-n operands, n a power of two:
      a 1-by-1 base case, otherwise seven recursive products of quadrant
      combinations, recombined into the four quadrants of the result. */
  method StrassenMul(lhs: Matrix, rhs: Matrix) returns (c: Matrix)
    requires lhs.Valid() && rhs.Valid()
    requires lhs.cols == lhs.rows && rhs.cols == rhs.rows && lhs.rows == rhs.rows
    requires IsPowerOfTwo(lhs.rows)
    ensures fresh(c) && c.mat != null && fresh(c.mat)
    ensures c.Valid() && c.cols == lhs.rows && c.rows == lhs.rows
    ensures IsProduct(c.Elements(), lhs.Elements(), rhs.Elements(), lhs.rows)
    decreases lhs.rows
  {
    if lhs.Height() == 1 {
      c := new Matrix(1, 1);
      c.SetAt(0, 0, lhs.At(0, 0) * rhs.At(0, 0));
      ProductOfSingletons(c.Elements(), lhs.Elements(), rhs.Elements());
      return;
    }
    ghost var n, a, b := lhs.rows, lhs.Elements(), rhs.Elements();
    HalfOfPowerOfTwo(n);
    var k := lhs.Height() / 2;

    var a11, a12, a21, a22 := SplitQuadrants(lhs, k);
    var b11, b12, b21, b22 := SplitQuadrants(rhs, k);
    ghost var A11, A12, A21, A22 := a11.Elements(), a12.Elements(), a21.Elements(), a22.Elements();
    ghost var B11, B12, B21, B22 := b11.Elements(), b12.Elements(), b21.Elements(), b22.Elements();

    var s1 := b12.Minus(b22);
    var p1 := StrassenMul(a11, s1);
    ghost var P1 := p1.Elements();
    var s2 := a11.Plus(a12);
    var p2 := StrassenMul(s2, b22);
    ghost var P2 := p2.Elements();
    var s3 := a21.Plus(a22);
    var p3 := StrassenMul(s3, b11);
    ghost var P3 := p3.Elements();
    var s4 := b21.Minus(b11);
    var p4 := StrassenMul(a22, s4);
    ghost var P4 := p4.Elements();
    var s5 := a11.Plus(a22);
    var s6 := b11.Plus(b22);
    var p5 := StrassenMul(s5, s6);
    ghost var P5 := p5.Elements();
    var s7 := a12.Minus(a22);
    var s8 := b21.Plus(b22);
    var p6 := StrassenMul(s7, s8);
    ghost var P6 := p6.Elements();
    var s9 := a11.Minus(a21);
    var s10 := b11.Plus(b12);
    var p7 := StrassenMul(s9, s10);
    ghost var P7 := p7.Elements();

    var t1 := p5.Plus(p4);
    var t2 := t1.Plus(p6);
    var c11 := t2.Minus(p2);
    var c12 := p1.Plus(p2);
    var c21 := p3.Plus(p4);
    var t3 := p5.Plus(p1);
    var t4 := t3.Minus(p3);
    var c22 := t4.Minus(p7);

    c := AssembleQuadrants(c11, c12, c21, c22, k);
    StrassenStep(a, b, c.Elements(), n, k, A11, A12, A21, A22, B11, B12, B21, B22, P1, P2, P3, P4, P5, P6, P7);
  }

  /** Matrix-times-vector `operator*=` as the header writes it: entry i of
      the result accumulates mat(i, j) * vec[i] over j. Entries from the
      width up to the length are left unwritten. */
  method MatVecMulAsWritten(m: Matrix, v: Vector) returns (result: Vector)
    requires m.Valid() && v.Valid() && m.rows == v.len && m.cols <= m.rows
    ensures fresh(result) && fresh(result.vec)
    ensures result.Valid() && result.len == v.len
    ensures forall i :: 0 <= i < m.cols ==>
              result.Contents()[i] == RowDotAsWritten(m.Elements(), m.cols, m.rows, v.Contents(), i, m.rows)
  {
    result := new Vector(v.Size());
    var i := 0;
    while i < m.Width()
      modifies result.vec
      invariant 0 <= i <= m.cols
      invariant result.Valid() && result.len == v.len
      invariant forall x :: 0 <= x < i ==>
                  result.Contents()[x] == RowDotAsWritten(m.Elements(), m.cols, m.rows, v.Contents(), x, m.rows)
    {
      var accumulator := 0;
      var j := 0;
      while j < m.Height()
        invariant 0 <= j <= m.rows
        invariant accumulator == RowDotAsWritten(m.Elements(), m.cols, m.rows, v.Contents(), i, j)
      {
        accumulator := accumulator + m.At(i, j) * v.At(i);
        j := j + 1;
      }
      result.SetAt(i, accumulator);
      i := i + 1;
    }
  }

  /** Matrix-times-vector with the evidently intended dot product: entry i of
      the result is the sum over j of mat(i, j) * vec[j]. */
  method MatVecMul(m: Matrix, v: Vector) returns (result: Vector)
    requires m.Valid() && v.Valid() && m.rows == v.len && m.cols <= m.rows
    ensures fresh(result) && fresh(result.vec)
    ensures result.Valid() && result.len == v.len
    ensures forall i :: 0 <= i < m.cols ==>
              result.Contents()[i] == RowDot(m.Elements(), m.cols, m.rows, v.Contents(), i, m.rows)
  {
    result := new Vector(v.Size());
    var i := 0;
    while i < m.Width()
      modifies result.vec
      invariant 0 <= i <= m.cols
      invariant result.Valid() && result.len == v.len
      invariant forall x :: 0 <= x < i ==>
                  result.Contents()[x] == RowDot(m.Elements(), m.cols, m.rows, v.Contents(), x, m.rows)
    {
      var accumulator := 0;
      var j := 0;
      while j < m.Height()
        invariant 0 <= j <= m.rows
        invariant accumulator == RowDot(m.Elements(), m.cols, m.rows, v.Contents(), i, j)
      {
        accumulator := accumulator + m.At(i, j) * v.At(j);
        j := j + 1;
      }
      result.SetAt(i, accumulator);
      i := i + 1;
    }
  }
}
