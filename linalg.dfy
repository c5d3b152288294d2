/**
 The mathematical view of the matrix kernel. A matrix with `cols` columns
 and `rows` rows is a flat sequence of `cols * rows` integers; element (x, y)
 sits at position `cols * y + x`, as in the C++ buffer. Everything here is
 ghost: the classes in module Haifisch are proved against these definitions.
 */
module LinAlg {

  // ---------------------------------------------------------------------------
  // Flat indexing

  lemma MulMonotone(c: nat, a: nat, b: nat)
    requires a <= b
    ensures c * a <= c * b
  {
    assert c * b == c * a + c * (b - a);
  }

  /** Every in-range (x, y) has its flat index inside the buffer. */
  lemma IndexInBounds(cols: nat, rows: nat, x: nat, y: nat)
    requires x < cols && y < rows
    ensures cols * y + x < cols * rows
  {
    assert cols * (y + 1) == cols * y + cols;
    MulMonotone(cols, y + 1, rows);
  }

  /** Distinct in-range coordinates have distinct flat indices. */
  lemma IndexInjective(cols: nat, x1: nat, y1: nat, x2: nat, y2: nat)
    requires x1 < cols && x2 < cols
    requires cols * y1 + x1 == cols * y2 + x2
    ensures x1 == x2 && y1 == y2
  {
    assert cols * (y1 + 1) == cols * y1 + cols;
    assert cols * (y2 + 1) == cols * y2 + cols;
    if y1 < y2 {
      MulMonotone(cols, y1 + 1, y2);
      assert false;
    } else if y2 < y1 {
      MulMonotone(cols, y2 + 1, y1);
      assert false;
    }
  }

  /** Element (x, y) of a cols-by-rows matrix stored flat in s. */
  ghost function Get(s: seq<int>, cols: nat, rows: nat, x: nat, y: nat): (e: int)
    requires |s| == cols * rows && x < cols && y < rows
  {
    IndexInBounds(cols, rows, x, y);
    s[cols * y + x]
  }

  /** Writing element (x, y) changes that element and no other. */
  lemma GetUpdate(s: seq<int>, cols: nat, rows: nat, x: nat, y: nat, v: int, x': nat, y': nat)
    requires |s| == cols * rows && x < cols && y < rows && x' < cols && y' < rows
    ensures cols * y + x < |s|
    ensures Get(s[cols * y + x := v], cols, rows, x', y') == if x' == x && y' == y then v else Get(s, cols, rows, x', y')
  {
    IndexInBounds(cols, rows, x, y);
    IndexInBounds(cols, rows, x', y');
    if cols * y' + x' == cols * y + x {
      IndexInjective(cols, x', y', x, y);
    }
  }

  /** Two matrices of the same extents are equal when all their elements are. */
  lemma Extensionality(a: seq<int>, b: seq<int>, cols: nat, rows: nat)
    requires |a| == cols * rows && |b| == cols * rows
    requires forall x: nat, y: nat :: x < cols && y < rows ==> Get(a, cols, rows, x, y) == Get(b, cols, rows, x, y)
    ensures a == b
  {
    forall idx | 0 <= idx < |a|
      ensures a[idx] == b[idx]
    {
      var x, y := idx % cols, idx / cols;
      assert cols * y + x == idx;
      if y >= rows {
        MulMonotone(cols, rows, y);
        assert false;
      }
      assert Get(a, cols, rows, x, y) == a[idx];
    }
  }

  // ---------------------------------------------------------------------------
  // Elementwise operations (the bodies of fill, +=, -= and scalar *=)

  ghost function Filled(v: int, len: nat): (r: seq<int>)
  {
    seq(len, _ => v)
  }

  ghost function Add(a: seq<int>, b: seq<int>): (r: seq<int>)
    requires |a| == |b|
  {
    seq(|a|, i requires 0 <= i < |a| => a[i] + b[i])
  }

  ghost function Sub(a: seq<int>, b: seq<int>): (r: seq<int>)
    requires |a| == |b|
  {
    seq(|a|, i requires 0 <= i < |a| => a[i] - b[i])
  }

  ghost function Scale(a: seq<int>, c: int): (r: seq<int>)
  {
    seq(|a|, i requires 0 <= i < |a| => a[i] * c)
  }

  /** Read through Add and Sub one element at a time. */
  lemma GetElementwise(a: seq<int>, b: seq<int>, cols: nat, rows: nat, x: nat, y: nat)
    requires |a| == cols * rows && |b| == cols * rows && x < cols && y < rows
    ensures Get(Add(a, b), cols, rows, x, y) == Get(a, cols, rows, x, y) + Get(b, cols, rows, x, y)
    ensures Get(Sub(a, b), cols, rows, x, y) == Get(a, cols, rows, x, y) - Get(b, cols, rows, x, y)
  {
    IndexInBounds(cols, rows, x, y);
  }

  /** (A + B) - B == A. */
  lemma AddSubCancel(a: seq<int>, b: seq<int>)
    requires |a| == |b|
    ensures Sub(Add(a, b), b) == a
  {
    assert forall i :: 0 <= i < |a| ==> Sub(Add(a, b), b)[i] == a[i];
  }

  /** fill(u) + fill(v) == fill(u + v) and fill(u) - fill(v) == fill(u - v). */
  lemma FilledArithmetic(u: int, v: int, len: nat)
    ensures Add(Filled(u, len), Filled(v, len)) == Filled(u + v, len)
    ensures Sub(Filled(u, len), Filled(v, len)) == Filled(u - v, len)
  {
    assert forall i :: 0 <= i < len ==> Add(Filled(u, len), Filled(v, len))[i] == Filled(u + v, len)[i];
    assert forall i :: 0 <= i < len ==> Sub(Filled(u, len), Filled(v, len))[i] == Filled(u - v, len)[i];
  }

  // ---------------------------------------------------------------------------
  // The matrix product

  /** Sum over k < m of A(i, k) * B(k, j), for n-by-n A and B. */
  ghost function Dot(a: seq<int>, b: seq<int>, n: nat, i: nat, j: nat, m: nat): (r: int)
    requires |a| == n * n && |b| == n * n && i < n && j < n && m <= n
    decreases m
  {
    if m == 0 then 0
    else Dot(a, b, n, i, j, m - 1) + Get(a, n, n, i, m - 1) * Get(b, n, n, m - 1, j)
  }

  /** c is the n-by-n product of a and b: c(i, j) = sum over k < n of a(i, k) * b(k, j). */
  ghost predicate IsProduct(c: seq<int>, a: seq<int>, b: seq<int>, n: nat)
  {
    && |a| == n * n && |b| == n * n && |c| == n * n
    && forall i: nat, j: nat :: i < n && j < n ==> Get(c, n, n, i, j) == Dot(a, b, n, i, j, n)
  }

  /** The product is a function of its operands. */
  lemma ProductUnique(c1: seq<int>, c2: seq<int>, a: seq<int>, b: seq<int>, n: nat)
    requires IsProduct(c1, a, b, n) && IsProduct(c2, a, b, n)
    ensures c1 == c2
  {
    Extensionality(c1, c2, n, n);
  }

  /** One step of the sum: the term for k = m - 1 added to the first m - 1 terms. */
  lemma DotStep(a: seq<int>, b: seq<int>, n: nat, i: nat, j: nat, m: nat)
    requires |a| == n * n && |b| == n * n && i < n && j < n && 0 < m <= n
    ensures Dot(a, b, n, i, j, m) == Dot(a, b, n, i, j, m - 1) + Get(a, n, n, i, m - 1) * Get(b, n, n, m - 1, j)
  {
  }

  /** The arithmetic of one step of the linearity lemmas below: if the
      prefix sums and the step terms combine with sign s, so do the sums
      one term longer. */
  lemma CombineStep(s: int, d: int, d1: int, d2: int, g: int, g1: int, g2: int, h: int, h1: int, h2: int)
    requires s == 1 || s == -1
    requires d == d1 + s * d2
    requires (g == g1 + s * g2 && h == h1 && h == h2) || (h == h1 + s * h2 && g == g1 && g == g2)
    ensures d + g * h == (d1 + g1 * h1) + s * (d2 + g2 * h2)
  {
    if g == g1 + s * g2 && h == h1 && h == h2 {
      assert g * h == g1 * h + s * (g2 * h);
    } else {
      assert g * h == g * h1 + s * (g * h2);
    }
  }

  /** The product distributes over a sum in the left operand. */
  lemma {:induction false} DotAddLeft(a1: seq<int>, a2: seq<int>, b: seq<int>, n: nat, i: nat, j: nat, m: nat)
    requires |a1| == n * n && |a2| == n * n && |b| == n * n && i < n && j < n && m <= n
    ensures Dot(Add(a1, a2), b, n, i, j, m) == Dot(a1, b, n, i, j, m) + Dot(a2, b, n, i, j, m)
    decreases m
  {
    if m > 0 {
      DotAddLeft(a1, a2, b, n, i, j, m - 1);
      GetElementwise(a1, a2, n, n, i, m - 1);
      DotStep(Add(a1, a2), b, n, i, j, m);
      DotStep(a1, b, n, i, j, m);
      DotStep(a2, b, n, i, j, m);
      CombineStep(1, Dot(Add(a1, a2), b, n, i, j, m - 1), Dot(a1, b, n, i, j, m - 1), Dot(a2, b, n, i, j, m - 1),
                  Get(Add(a1, a2), n, n, i, m - 1), Get(a1, n, n, i, m - 1), Get(a2, n, n, i, m - 1),
                  Get(b, n, n, m - 1, j), Get(b, n, n, m - 1, j), Get(b, n, n, m - 1, j));
    }
  }

  /** The product distributes over a difference in the left operand. */
  lemma {:induction false} DotSubLeft(a1: seq<int>, a2: seq<int>, b: seq<int>, n: nat, i: nat, j: nat, m: nat)
    requires |a1| == n * n && |a2| == n * n && |b| == n * n && i < n && j < n && m <= n
    ensures Dot(Sub(a1, a2), b, n, i, j, m) == Dot(a1, b, n, i, j, m) - Dot(a2, b, n, i, j, m)
    decreases m
  {
    if m > 0 {
      DotSubLeft(a1, a2, b, n, i, j, m - 1);
      GetElementwise(a1, a2, n, n, i, m - 1);
      DotStep(Sub(a1, a2), b, n, i, j, m);
      DotStep(a1, b, n, i, j, m);
      DotStep(a2, b, n, i, j, m);
      CombineStep(-1, Dot(Sub(a1, a2), b, n, i, j, m - 1), Dot(a1, b, n, i, j, m - 1), Dot(a2, b, n, i, j, m - 1),
                  Get(Sub(a1, a2), n, n, i, m - 1), Get(a1, n, n, i, m - 1), Get(a2, n, n, i, m - 1),
                  Get(b, n, n, m - 1, j), Get(b, n, n, m - 1, j), Get(b, n, n, m - 1, j));
    }
  }

  /** The product distributes over a sum in the right operand. */
  lemma {:induction false} DotAddRight(a: seq<int>, b1: seq<int>, b2: seq<int>, n: nat, i: nat, j: nat, m: nat)
    requires |a| == n * n && |b1| == n * n && |b2| == n * n && i < n && j < n && m <= n
    ensures Dot(a, Add(b1, b2), n, i, j, m) == Dot(a, b1, n, i, j, m) + Dot(a, b2, n, i, j, m)
    decreases m
  {
    if m > 0 {
      DotAddRight(a, b1, b2, n, i, j, m - 1);
      GetElementwise(b1, b2, n, n, m - 1, j);
      DotStep(a, Add(b1, b2), n, i, j, m);
      DotStep(a, b1, n, i, j, m);
      DotStep(a, b2, n, i, j, m);
      CombineStep(1, Dot(a, Add(b1, b2), n, i, j, m - 1), Dot(a, b1, n, i, j, m - 1), Dot(a, b2, n, i, j, m - 1),
                  Get(a, n, n, i, m - 1), Get(a, n, n, i, m - 1), Get(a, n, n, i, m - 1),
                  Get(Add(b1, b2), n, n, m - 1, j), Get(b1, n, n, m - 1, j), Get(b2, n, n, m - 1, j));
    }
  }

  /** The product distributes over a difference in the right operand. */
  lemma {:induction false} DotSubRight(a: seq<int>, b1: seq<int>, b2: seq<int>, n: nat, i: nat, j: nat, m: nat)
    requires |a| == n * n && |b1| == n * n && |b2| == n * n && i < n && j < n && m <= n
    ensures Dot(a, Sub(b1, b2), n, i, j, m) == Dot(a, b1, n, i, j, m) - Dot(a, b2, n, i, j, m)
    decreases m
  {
    if m > 0 {
      DotSubRight(a, b1, b2, n, i, j, m - 1);
      GetElementwise(b1, b2, n, n, m - 1, j);
      DotStep(a, Sub(b1, b2), n, i, j, m);
      DotStep(a, b1, n, i, j, m);
      DotStep(a, b2, n, i, j, m);
      CombineStep(-1, Dot(a, Sub(b1, b2), n, i, j, m - 1), Dot(a, b1, n, i, j, m - 1), Dot(a, b2, n, i, j, m - 1),
                  Get(a, n, n, i, m - 1), Get(a, n, n, i, m - 1), Get(a, n, n, i, m - 1),
                  Get(Sub(b1, b2), n, n, m - 1, j), Get(b1, n, n, m - 1, j), Get(b2, n, n, m - 1, j));
    }
  }

  /** Product with constant matrices: an all-u by all-v n-by-n product has
      every entry u * v * n (so an all-10 matrix squared has entries 100 * n). */
  lemma {:induction false} DotFilled(u: int, v: int, n: nat, i: nat, j: nat, m: nat)
    requires i < n && j < n && m <= n
    ensures Dot(Filled(u, n * n), Filled(v, n * n), n, i, j, m) == u * v * m
    decreases m
  {
    if m > 0 {
      DotFilled(u, v, n, i, j, m - 1);
      IndexInBounds(n, n, i, m - 1);
      IndexInBounds(n, n, m - 1, j);
      assert u * v * m == u * v * (m - 1) + u * v;
    }
  }

  /** The product of an all-u and an all-v n-by-n matrix is all u * v * n:
      squaring an all-10 matrix gives 100 * n everywhere. */
  lemma FilledProduct(c: seq<int>, u: int, v: int, n: nat)
    requires IsProduct(c, Filled(u, n * n), Filled(v, n * n), n)
    ensures c == Filled(u * v * n, n * n)
  {
    forall i: nat, j: nat | i < n && j < n
      ensures Get(c, n, n, i, j) == Get(Filled(u * v * n, n * n), n, n, i, j)
    {
      DotFilled(u, v, n, i, j, n);
      IndexInBounds(n, n, i, j);
    }
    Extensionality(c, Filled(u * v * n, n * n), n, n);
  }

  // ---------------------------------------------------------------------------
  // Transposition

  /** t is the transpose of the n-by-n matrix s. */
  ghost predicate IsTransposeOf(t: seq<int>, s: seq<int>, n: nat)
  {
    && |s| == n * n && |t| == n * n
    && forall i: nat, j: nat :: i < n && j < n ==> Get(t, n, n, i, j) == Get(s, n, n, j, i)
  }

  /** transpose(transpose(m)) == m for square m. */
  lemma TransposeInvolution(s: seq<int>, t: seq<int>, u: seq<int>, n: nat)
    requires IsTransposeOf(t, s, n) && IsTransposeOf(u, t, n)
    ensures u == s
  {
    forall x: nat, y: nat | x < n && y < n
      ensures Get(u, n, n, x, y) == Get(s, n, n, x, y)
    {
      assert Get(u, n, n, x, y) == Get(t, n, n, y, x);
    }
    Extensionality(u, s, n, n);
  }

  // ---------------------------------------------------------------------------
  // Block decomposition, the heart of Strassen's algorithm

  /** q is the k-by-k block of the n-by-n matrix a (n == 2k) whose top-left
      element is a(ox, oy). */
  ghost predicate IsQuadrant(q: seq<int>, a: seq<int>, n: nat, k: nat, ox: nat, oy: nat)
  {
    && n == 2 * k && |a| == n * n && |q| == k * k && ox <= k && oy <= k
    && forall i: nat, j: nat :: i < k && j < k ==> Get(q, k, k, i, j) == Get(a, n, n, ox + i, oy + j)
  }

  /** The first k terms of a row-by-column sum are the block product of the
      left block column and top block row. */
  lemma {:induction false} DotLowerHalf(a: seq<int>, b: seq<int>, n: nat, k: nat, aq: seq<int>, bq: seq<int>,
                                         ox: nat, oy: nat, i: nat, j: nat, t: nat)
    requires IsQuadrant(aq, a, n, k, ox, 0) && IsQuadrant(bq, b, n, k, 0, oy)
    requires i < k && j < k && t <= k
    ensures Dot(a, b, n, ox + i, oy + j, t) == Dot(aq, bq, k, i, j, t)
    decreases t
  {
    if t > 0 {
      DotLowerHalf(a, b, n, k, aq, bq, ox, oy, i, j, t - 1);
      assert Get(aq, k, k, i, t - 1) == Get(a, n, n, ox + i, t - 1);
      assert Get(bq, k, k, t - 1, j) == Get(b, n, n, t - 1, oy + j);
    }
  }

  /** The remaining terms are the block product of the right block column
      and the bottom block row. */
  lemma {:induction false} DotUpperHalf(a: seq<int>, b: seq<int>, n: nat, k: nat, aq: seq<int>, bq: seq<int>,
                                         ox: nat, oy: nat, i: nat, j: nat, t: nat)
    requires IsQuadrant(aq, a, n, k, ox, k) && IsQuadrant(bq, b, n, k, k, oy)
    requires i < k && j < k && t <= k
    ensures Dot(a, b, n, ox + i, oy + j, k + t) == Dot(a, b, n, ox + i, oy + j, k) + Dot(aq, bq, k, i, j, t)
    decreases t
  {
    if t > 0 {
      DotUpperHalf(a, b, n, k, aq, bq, ox, oy, i, j, t - 1);
      assert Get(aq, k, k, i, t - 1) == Get(a, n, n, ox + i, k + (t - 1));
      assert Get(bq, k, k, t - 1, j) == Get(b, n, n, k + (t - 1), oy + j);
    }
  }

  /** Element (ox + i, oy + j) of a product, read as a sum of two block products. */
  lemma DotBlock(a: seq<int>, b: seq<int>, n: nat, k: nat,
                 aLeft: seq<int>, aRight: seq<int>, bTop: seq<int>, bBottom: seq<int>,
                 ox: nat, oy: nat, i: nat, j: nat)
    requires IsQuadrant(aLeft, a, n, k, ox, 0) && IsQuadrant(aRight, a, n, k, ox, k)
    requires IsQuadrant(bTop, b, n, k, 0, oy) && IsQuadrant(bBottom, b, n, k, k, oy)
    requires i < k && j < k
    ensures Dot(a, b, n, ox + i, oy + j, n) == Dot(aLeft, bTop, k, i, j, k) + Dot(aRight, bBottom, k, i, j, k)
  {
    DotLowerHalf(a, b, n, k, aLeft, bTop, ox, oy, i, j, k);
    DotUpperHalf(a, b, n, k, aRight, bBottom, ox, oy, i, j, k);
  }

  // The four combinations of the seven Strassen products, at one cell, are
  // the four block products: one lemma per block of the result.

  /** c11 = p5 + p4 + p6 - p2 = a11 b11 + a12 b21. */
  lemma StrassenBlock11(a11: seq<int>, a12: seq<int>, a21: seq<int>, a22: seq<int>,
                         b11: seq<int>, b12: seq<int>, b21: seq<int>, b22: seq<int>,
                         k: nat, i: nat, j: nat)
    requires |a11| == k * k && |a12| == k * k && |a21| == k * k && |a22| == k * k
    requires |b11| == k * k && |b12| == k * k && |b21| == k * k && |b22| == k * k
    requires i < k && j < k
    ensures Dot(Add(a11, a22), Add(b11, b22), k, i, j, k) + Dot(a22, Sub(b21, b11), k, i, j, k)
            + Dot(Sub(a12, a22), Add(b21, b22), k, i, j, k) - Dot(Add(a11, a12), b22, k, i, j, k)
            == Dot(a11, b11, k, i, j, k) + Dot(a12, b21, k, i, j, k)
  {
    // p5 = (a11 + a22) (b11 + b22)
    DotAddLeft(a11, a22, Add(b11, b22), k, i, j, k);
    DotAddRight(a11, b11, b22, k, i, j, k);
    DotAddRight(a22, b11, b22, k, i, j, k);
    // p4 = a22 (b21 - b11)
    DotSubRight(a22, b21, b11, k, i, j, k);
    // p6 = (a12 - a22) (b21 + b22)
    DotSubLeft(a12, a22, Add(b21, b22), k, i, j, k);
    DotAddRight(a12, b21, b22, k, i, j, k);
    DotAddRight(a22, b21, b22, k, i, j, k);
    // p2 = (a11 + a12) b22
    DotAddLeft(a11, a12, b22, k, i, j, k);
  }

  /** c12 = p1 + p2 = a11 b12 + a12 b22. */
  lemma StrassenBlock12(a11: seq<int>, a12: seq<int>, a21: seq<int>, a22: seq<int>,
                         b11: seq<int>, b12: seq<int>, b21: seq<int>, b22: seq<int>,
                         k: nat, i: nat, j: nat)
    requires |a11| == k * k && |a12| == k * k && |a21| == k * k && |a22| == k * k
    requires |b11| == k * k && |b12| == k * k && |b21| == k * k && |b22| == k * k
    requires i < k && j < k
    ensures Dot(a11, Sub(b12, b22), k, i, j, k) + Dot(Add(a11, a12), b22, k, i, j, k)
            == Dot(a11, b12, k, i, j, k) + Dot(a12, b22, k, i, j, k)
  {
    // p1 = a11 (b12 - b22)
    DotSubRight(a11, b12, b22, k, i, j, k);
    // p2 = (a11 + a12) b22
    DotAddLeft(a11, a12, b22, k, i, j, k);
  }

  /** c21 = p3 + p4 = a21 b11 + a22 b21. */
  lemma StrassenBlock21(a11: seq<int>, a12: seq<int>, a21: seq<int>, a22: seq<int>,
                         b11: seq<int>, b12: seq<int>, b21: seq<int>, b22: seq<int>,
                         k: nat, i: nat, j: nat)
    requires |a11| == k * k && |a12| == k * k && |a21| == k * k && |a22| == k * k
    requires |b11| == k * k && |b12| == k * k && |b21| == k * k && |b22| == k * k
    requires i < k && j < k
    ensures Dot(Add(a21, a22), b11, k, i, j, k) + Dot(a22, Sub(b21, b11), k, i, j, k)
            == Dot(a21, b11, k, i, j, k) + Dot(a22, b21, k, i, j, k)
  {
    // p3 = (a21 + a22) b11
    DotAddLeft(a21, a22, b11, k, i, j, k);
    // p4 = a22 (b21 - b11)
    DotSubRight(a22, b21, b11, k, i, j, k);
  }

  /** c22 = p5 + p1 - p3 - p7 = a21 b12 + a22 b22. */
  lemma StrassenBlock22(a11: seq<int>, a12: seq<int>, a21: seq<int>, a22: seq<int>,
                         b11: seq<int>, b12: seq<int>, b21: seq<int>, b22: seq<int>,
                         k: nat, i: nat, j: nat)
    requires |a11| == k * k && |a12| == k * k && |a21| == k * k && |a22| == k * k
    requires |b11| == k * k && |b12| == k * k && |b21| == k * k && |b22| == k * k
    requires i < k && j < k
    ensures Dot(Add(a11, a22), Add(b11, b22), k, i, j, k) + Dot(a11, Sub(b12, b22), k, i, j, k)
            - Dot(Add(a21, a22), b11, k, i, j, k) - Dot(Sub(a11, a21), Add(b11, b12), k, i, j, k)
            == Dot(a21, b12, k, i, j, k) + Dot(a22, b22, k, i, j, k)
  {
    // p5 = (a11 + a22) (b11 + b22)
    DotAddLeft(a11, a22, Add(b11, b22), k, i, j, k);
    DotAddRight(a11, b11, b22, k, i, j, k);
    DotAddRight(a22, b11, b22, k, i, j, k);
    // p1 = a11 (b12 - b22)
    DotSubRight(a11, b12, b22, k, i, j, k);
    // p3 = (a21 + a22) b11
    DotAddLeft(a21, a22, b11, k, i, j, k);
    // p7 = (a11 - a21) (b11 + b12)
    DotSubLeft(a11, a21, Add(b11, b12), k, i, j, k);
    DotAddRight(a11, b11, b12, k, i, j, k);
    DotAddRight(a21, b11, b12, k, i, j, k);
  }

  /** c is the n-by-n matrix (n == 2k) assembled from four k-by-k blocks. */
  ghost predicate IsAssembly(c: seq<int>, c11: seq<int>, c12: seq<int>, c21: seq<int>, c22: seq<int>, n: nat, k: nat)
  {
    && n == 2 * k && |c| == n * n
    && |c11| == k * k && |c12| == k * k && |c21| == k * k && |c22| == k * k
    && forall i: nat, j: nat :: i < k && j < k ==>
         && Get(c, n, n, i, j) == Get(c11, k, k, i, j)
         && Get(c, n, n, i, k + j) == Get(c12, k, k, i, j)
         && Get(c, n, n, k + i, j) == Get(c21, k, k, i, j)
         && Get(c, n, n, k + i, k + j) == Get(c22, k, k, i, j)
  }

  /** One level of Strassen's algorithm: if p1..p7 are the seven products of
      the quadrant combinations, then the matrix assembled from
      c11 = p5 + p4 + p6 - p2, c12 = p1 + p2, c21 = p3 + p4 and
      c22 = p5 + p1 - p3 - p7 is the product of a and b. */
  lemma StrassenStep(a: seq<int>, b: seq<int>, c: seq<int>, n: nat, k: nat,
                     a11: seq<int>, a12: seq<int>, a21: seq<int>, a22: seq<int>,
                     b11: seq<int>, b12: seq<int>, b21: seq<int>, b22: seq<int>,
                     p1: seq<int>, p2: seq<int>, p3: seq<int>, p4: seq<int>,
                     p5: seq<int>, p6: seq<int>, p7: seq<int>)
    requires IsQuadrant(a11, a, n, k, 0, 0) && IsQuadrant(a12, a, n, k, 0, k)
    requires IsQuadrant(a21, a, n, k, k, 0) && IsQuadrant(a22, a, n, k, k, k)
    requires IsQuadrant(b11, b, n, k, 0, 0) && IsQuadrant(b12, b, n, k, 0, k)
    requires IsQuadrant(b21, b, n, k, k, 0) && IsQuadrant(b22, b, n, k, k, k)
    requires IsProduct(p1, a11, Sub(b12, b22), k)
    requires IsProduct(p2, Add(a11, a12), b22, k)
    requires IsProduct(p3, Add(a21, a22), b11, k)
    requires IsProduct(p4, a22, Sub(b21, b11), k)
    requires IsProduct(p5, Add(a11, a22), Add(b11, b22), k)
    requires IsProduct(p6, Sub(a12, a22), Add(b21, b22), k)
    requires IsProduct(p7, Sub(a11, a21), Add(b11, b12), k)
    requires IsAssembly(c, Sub(Add(Add(p5, p4), p6), p2), Add(p1, p2), Add(p3, p4),
                        Sub(Sub(Add(p5, p1), p3), p7), n, k)
    ensures IsProduct(c, a, b, n)
  {
    forall x: nat, y: nat | x < n && y < n
      ensures Get(c, n, n, x, y) == Dot(a, b, n, x, y, n)
    {
      var i := if x < k then x else x - k;
      var j := if y < k then y else y - k;
      var ox := x - i;
      var oy := y - j;
      if ox == 0 && oy == 0 {
        StrassenBlock11(a11, a12, a21, a22, b11, b12, b21, b22, k, i, j);
        assert Get(p2, k, k, i, j) == Dot(Add(a11, a12), b22, k, i, j, k);
        assert Get(p4, k, k, i, j) == Dot(a22, Sub(b21, b11), k, i, j, k);
        assert Get(p5, k, k, i, j) == Dot(Add(a11, a22), Add(b11, b22), k, i, j, k);
        assert Get(p6, k, k, i, j) == Dot(Sub(a12, a22), Add(b21, b22), k, i, j, k);
        GetElementwise(p5, p4, k, k, i, j);
        GetElementwise(Add(p5, p4), p6, k, k, i, j);
        GetElementwise(Add(Add(p5, p4), p6), p2, k, k, i, j);
        DotBlock(a, b, n, k, a11, a12, b11, b21, 0, 0, i, j);
      } else if ox == 0 {
        StrassenBlock12(a11, a12, a21, a22, b11, b12, b21, b22, k, i, j);
        assert Get(p1, k, k, i, j) == Dot(a11, Sub(b12, b22), k, i, j, k);
        assert Get(p2, k, k, i, j) == Dot(Add(a11, a12), b22, k, i, j, k);
        GetElementwise(p1, p2, k, k, i, j);
        DotBlock(a, b, n, k, a11, a12, b12, b22, 0, k, i, j);
      } else if oy == 0 {
        StrassenBlock21(a11, a12, a21, a22, b11, b12, b21, b22, k, i, j);
        assert Get(p3, k, k, i, j) == Dot(Add(a21, a22), b11, k, i, j, k);
        assert Get(p4, k, k, i, j) == Dot(a22, Sub(b21, b11), k, i, j, k);
        GetElementwise(p3, p4, k, k, i, j);
        DotBlock(a, b, n, k, a21, a22, b11, b21, k, 0, i, j);
      } else {
        StrassenBlock22(a11, a12, a21, a22, b11, b12, b21, b22, k, i, j);
        assert Get(p1, k, k, i, j) == Dot(a11, Sub(b12, b22), k, i, j, k);
        assert Get(p3, k, k, i, j) == Dot(Add(a21, a22), b11, k, i, j, k);
        assert Get(p5, k, k, i, j) == Dot(Add(a11, a22), Add(b11, b22), k, i, j, k);
        assert Get(p7, k, k, i, j) == Dot(Sub(a11, a21), Add(b11, b12), k, i, j, k);
        GetElementwise(p5, p1, k, k, i, j);
        GetElementwise(Add(p5, p1), p3, k, k, i, j);
        GetElementwise(Sub(Add(p5, p1), p3), p7, k, k, i, j);
        DotBlock(a, b, n, k, a21, a22, b12, b22, k, k, i, j);
      }
    }
  }

  /** The 1-by-1 base case: the product is the product of the single elements. */
  lemma ProductOfSingletons(c: seq<int>, a: seq<int>, b: seq<int>)
    requires |a| == 1 && |b| == 1 && |c| == 1
    requires Get(c, 1, 1, 0, 0) == Get(a, 1, 1, 0, 0) * Get(b, 1, 1, 0, 0)
    ensures IsProduct(c, a, b, 1)
  {
    assert Dot(a, b, 1, 0, 0, 1) == Get(a, 1, 1, 0, 0) * Get(b, 1, 1, 0, 0);
  }

  // ---------------------------------------------------------------------------
  // Matrix times vector

  /** Sum over j < m of M(i, j) * v[j]: row i of the standard product M v. */
  ghost function RowDot(mat: seq<int>, cols: nat, rows: nat, v: seq<int>, i: nat, m: nat): (r: int)
    requires |mat| == cols * rows && |v| == rows && i < cols && m <= rows
    decreases m
  {
    if m == 0 then 0 else RowDot(mat, cols, rows, v, i, m - 1) + Get(mat, cols, rows, i, m - 1) * v[m - 1]
  }

  /** The standard product reads every column: against the unit vector e_c,
      row i of M e_c is M(i, c). */
  lemma {:induction false} RowDotUnit(mat: seq<int>, cols: nat, rows: nat, v: seq<int>, i: nat, c: nat, m: nat)
    requires |mat| == cols * rows && |v| == rows && i < cols && m <= rows && c < rows
    requires forall j :: 0 <= j < rows ==> v[j] == (if j == c then 1 else 0)
    ensures RowDot(mat, cols, rows, v, i, m) == if c < m then Get(mat, cols, rows, i, c) else 0
    decreases m
  {
    if m > 0 {
      RowDotUnit(mat, cols, rows, v, i, c, m - 1);
    }
  }

  /** Sum over j < m of M(i, j) * v[i]: what the header's loop accumulates,
      reading v[i] where the standard product reads v[j]. */
  ghost function RowDotAsWritten(mat: seq<int>, cols: nat, rows: nat, v: seq<int>, i: nat, m: nat): (r: int)
    requires |mat| == cols * rows && |v| == rows && i < cols && i < rows && m <= rows
    decreases m
  {
    if m == 0 then 0 else RowDotAsWritten(mat, cols, rows, v, i, m - 1) + Get(mat, cols, rows, i, m - 1) * v[i]
  }

  /** Sum over j < m of M(i, j). */
  ghost function RowSum(mat: seq<int>, cols: nat, rows: nat, i: nat, m: nat): (r: int)
    requires |mat| == cols * rows && i < cols && m <= rows
    decreases m
  {
    if m == 0 then 0 else RowSum(mat, cols, rows, i, m - 1) + Get(mat, cols, rows, i, m - 1)
  }

  /** The as-written accumulation only ever scales v[i]: entry i of the result
      is v[i] times the sum of row i, whatever the other entries of v are. */
  lemma {:induction false} RowDotAsWrittenScalesOneEntry(mat: seq<int>, cols: nat, rows: nat, v: seq<int>, i: nat, m: nat)
    requires |mat| == cols * rows && |v| == rows && i < cols && i < rows && m <= rows
    ensures RowDotAsWritten(mat, cols, rows, v, i, m) == v[i] * RowSum(mat, cols, rows, i, m)
    decreases m
  {
    if m > 0 {
      RowDotAsWrittenScalesOneEntry(mat, cols, rows, v, i, m - 1);
      var e, s := Get(mat, cols, rows, i, m - 1), RowSum(mat, cols, rows, i, m - 1);
      assert v[i] * (s + e) == v[i] * s + e * v[i];
    }
  }

  /** A 2-by-2 all-ones matrix times [1, 0]: the standard product gives 1 in
      row 0, the as-written loop gives 2. */
  lemma RowDotAsWrittenDiffers()
    ensures |Filled(1, 4)| == 2 * 2
    ensures RowDot(Filled(1, 4), 2, 2, [1, 0], 0, 2) == 1
    ensures RowDotAsWritten(Filled(1, 4), 2, 2, [1, 0], 0, 2) == 2
  {
    var m := Filled(1, 4);
    assert Get(m, 2, 2, 0, 0) == 1 && Get(m, 2, 2, 0, 1) == 1;
  }
}
