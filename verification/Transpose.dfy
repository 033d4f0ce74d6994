/** lab8/trans.c: blocked transposes, in place in B.

    A is N by M and B is M by N.  Every stage says what each cell of B holds after it: an
    element of A, or what it held before; so that what is parked, moved or put off is
    accounted for. */
module Transpose {

  type Matrix = array2<int>

  /** B is the transpose of the N by M matrix A. */
  ghost predicate Shapes(a: Matrix, b: Matrix) {
    a != b && a.Length0 == b.Length1 && a.Length1 == b.Length0
  }

  ghost predicate IsTranspose(a: Matrix, b: Matrix)
    reads a, b
  {
    Shapes(a, b) && forall x, y | 0 <= x < b.Length0 && 0 <= y < b.Length1 :: b[x, y] == a[y, x]
  }

  /** The cell lies in the h by w block of B at row c and column r. */
  predicate In(x: int, y: int, c: int, h: int, r: int, w: int) {
    c <= x < c + h && r <= y < r + w
  }

  /** trans: the reference. */
  method Trans(a: Matrix, b: Matrix)
    requires Shapes(a, b)
    modifies b
    ensures IsTranspose(a, b)
  {
    for i := 0 to a.Length0
      invariant forall x, y | 0 <= x < b.Length0 && 0 <= y < i :: b[x, y] == a[y, x]
    {
      for j := 0 to a.Length1
        invariant forall x, y | 0 <= x < b.Length0 && 0 <= y < i :: b[x, y] == a[y, x]
        invariant forall x | 0 <= x < j :: b[x, i] == a[i, x]
      {
        b[j, i] := a[i, j];
      }
    }
  }

  // ----- 8 by 8 blocks in three stages

  /** Four values down a column of B. */
  method PutColumn(b: Matrix, x0: nat, y0: nat, t1: int, t2: int, t3: int, t4: int)
    requires x0 + 4 <= b.Length0 && y0 < b.Length1
    modifies b
    ensures forall x, y {:trigger b[x, y]} | 0 <= x < b.Length0 && 0 <= y < b.Length1 ::
              b[x, y] == if In(x, y, x0, 4, y0, 1) then [t1, t2, t3, t4][x - x0] else old(b[x, y])
  {
    b[x0, y0] := t1;
    b[x0 + 1, y0] := t2;
    b[x0 + 2, y0] := t3;
    b[x0 + 3, y0] := t4;
  }

  /** Four values along a row of B. */
  method PutRow(b: Matrix, x0: nat, y0: nat, t1: int, t2: int, t3: int, t4: int)
    requires x0 < b.Length0 && y0 + 4 <= b.Length1
    modifies b
    ensures forall x, y {:trigger b[x, y]} | 0 <= x < b.Length0 && 0 <= y < b.Length1 ::
              b[x, y] == if In(x, y, x0, 1, y0, 4) then [t1, t2, t3, t4][y - y0] else old(b[x, y])
  {
    b[x0, y0] := t1;
    b[x0, y0 + 1] := t2;
    b[x0, y0 + 2] := t3;
    b[x0, y0 + 3] := t4;
  }

  ghost predicate Fits(a: Matrix, b: Matrix, r: int, c: int) {
    Shapes(a, b) && 0 <= r && r + 8 <= a.Length0 && 0 <= c && c + 8 <= a.Length1
  }

  /** The upper half of A's block: its left quadrant lands, its right one is parked in the
      place of the lower left one. */
  method Stage1(a: Matrix, b: Matrix, r: nat, c: nat)
    requires Fits(a, b, r, c)
    modifies b
    ensures forall x, y {:trigger b[x, y]} | 0 <= x < b.Length0 && 0 <= y < b.Length1 ::
              b[x, y] == if In(x, y, c, 4, r, 4) then a[y, x]
                         else if In(x, y, c, 4, r + 4, 4) then a[y - 4, x + 4]
                         else old(b[x, y])
  {
    var i := r;
    while i < r + 4
      invariant r <= i <= r + 4
      invariant forall x, y {:trigger b[x, y]} | 0 <= x < b.Length0 && 0 <= y < b.Length1 ::
                  b[x, y] == if In(x, y, c, 4, r, i - r) then a[y, x]
                             else if In(x, y, c, 4, r + 4, i - r) then a[y - 4, x + 4]
                             else old(b[x, y])
    {
      var j := c;
      var t1, t2, t3, t4 := a[i, j], a[i, j + 1], a[i, j + 2], a[i, j + 3];
      var t5, t6, t7, t8 := a[i, j + 4], a[i, j + 5], a[i, j + 6], a[i, j + 7];
      PutColumn(b, j, i, t1, t2, t3, t4);
      PutColumn(b, j, i + 4, t5, t6, t7, t8);
      i := i + 1;
    }
  }

  /** The parked quadrant moves down a row at a time as the lower left one takes its place. */
  method Stage2(a: Matrix, b: Matrix, r: nat, c: nat)
    requires Fits(a, b, r, c)
    modifies b
    ensures forall x, y {:trigger b[x, y]} | 0 <= x < b.Length0 && 0 <= y < b.Length1 ::
              b[x, y] == if In(x, y, c, 4, r + 4, 4) then a[y, x]
                         else if In(x, y, c + 4, 4, r, 4) then old(b[x - 4, y + 4])
                         else old(b[x, y])
  {
    var j := c;
    while j < c + 4
      invariant c <= j <= c + 4
      invariant forall x, y {:trigger b[x, y]} | 0 <= x < b.Length0 && 0 <= y < b.Length1 ::
                  b[x, y] == if In(x, y, c, j - c, r + 4, 4) then a[y, x]
                             else if In(x, y, c + 4, j - c, r, 4) then old(b[x - 4, y + 4])
                             else old(b[x, y])
    {
      var i := r;
      var t1, t2, t3, t4 := a[i + 4, j], a[i + 5, j], a[i + 6, j], a[i + 7, j];
      var t5, t6, t7, t8 := b[j, i + 4], b[j, i + 5], b[j, i + 6], b[j, i + 7];
      PutRow(b, j, i + 4, t1, t2, t3, t4);
      PutRow(b, j + 4, i, t5, t6, t7, t8);
      j := j + 1;
    }
  }

  /** The lower right quadrant, two rows of A at a time. */
  method Stage3(a: Matrix, b: Matrix, r: nat, c: nat)
    requires Fits(a, b, r, c)
    modifies b
    ensures forall x, y {:trigger b[x, y]} | 0 <= x < b.Length0 && 0 <= y < b.Length1 ::
              b[x, y] == if In(x, y, c + 4, 4, r + 4, 4) then a[y, x] else old(b[x, y])
  {
    var i := r + 4;
    while i < r + 8
      invariant i == r + 4 || i == r + 6 || i == r + 8
      invariant forall x, y {:trigger b[x, y]} | 0 <= x < b.Length0 && 0 <= y < b.Length1 ::
                  b[x, y] == if In(x, y, c + 4, 4, r + 4, i - r - 4) then a[y, x] else old(b[x, y])
    {
      var j := c + 4;
      var t1, t2, t3, t4 := a[i, j], a[i, j + 1], a[i, j + 2], a[i, j + 3];
      var t5, t6, t7, t8 := a[i + 1, j], a[i + 1, j + 1], a[i + 1, j + 2], a[i + 1, j + 3];
      PutColumn(b, j, i, t1, t2, t3, t4);
      PutColumn(b, j, i + 1, t5, t6, t7, t8);
      i := i + 2;
    }
  }

  /** One block: parking and moving on puts all four quadrants in their places and
      touches nothing else. */
  method Block8(a: Matrix, b: Matrix, r: nat, c: nat)
    requires Fits(a, b, r, c)
    modifies b
    ensures forall x, y {:trigger b[x, y]} | 0 <= x < b.Length0 && 0 <= y < b.Length1 ::
              b[x, y] == if In(x, y, c, 8, r, 8) then a[y, x] else old(b[x, y])
  {
    Stage1(a, b, r, c);
    Stage2(a, b, r, c);
    Stage3(a, b, r, c);
  }

  lemma Multiple(k: int, n: int)
    requires 0 <= k < n && k % 8 == 0 && n % 8 == 0
    ensures k + 8 <= n
  {
  }

  /** trans2, and the branch of transpose_submit for M = 64. */
  method Trans2(a: Matrix, b: Matrix)
    requires Shapes(a, b) && a.Length0 % 8 == 0 && a.Length1 % 8 == 0
    modifies b
    ensures IsTranspose(a, b)
  {
    var r := 0;
    while r < a.Length0
      invariant 0 <= r <= a.Length0 && r % 8 == 0
      invariant forall x, y | 0 <= x < b.Length0 && 0 <= y < r :: b[x, y] == a[y, x]
    {
      Multiple(r, a.Length0);
      var c := 0;
      while c < a.Length1
        invariant 0 <= c <= a.Length1 && c % 8 == 0
        invariant forall x, y | 0 <= x < b.Length0 && 0 <= y < r :: b[x, y] == a[y, x]
        invariant forall x, y | 0 <= x < c && r <= y < r + 8 :: b[x, y] == a[y, x]
      {
        Multiple(c, a.Length1);
        Block8(a, b, r, c);
        c := c + 8;
      }
      r := r + 8;
    }
  }

  // ----- square blocks with the diagonal put off to the end of each row

  function Min(x: int, y: int): int { if x < y then x else y }

  /** One row of a block; the diagonal element, if the row has one, waits in t1 and t2. */
  method DeferRow(a: Matrix, b: Matrix, i: nat, c: nat, h: nat, u1: int, u2: int) returns (t1: int, t2: int)
    requires Shapes(a, b) && i < a.Length0 && c <= h <= a.Length1
    modifies b
    ensures forall x, y {:trigger b[x, y]} | 0 <= x < b.Length0 && 0 <= y < b.Length1 ::
              b[x, y] == if y == i && c <= x < h && x != i then a[y, x] else old(b[x, y])
    ensures if c <= i < h then t1 == a[i, i] && t2 == i else t1 == u1 && t2 == u2
  {
    t1, t2 := u1, u2;
    for j := c to h
      invariant forall x, y {:trigger b[x, y]} | 0 <= x < b.Length0 && 0 <= y < b.Length1 ::
                  b[x, y] == if y == i && c <= x < j && x != i then a[y, x] else old(b[x, y])
      invariant if c <= i < j then t1 == a[i, i] && t2 == i else t1 == u1 && t2 == u2
    {
      if i != j {
        b[j, i] := a[i, j];
      } else {
        t1 := a[i, j];
        t2 := i;
      }
    }
  }

  /** One block of `size`, cut off at the edges; t1 and t2 may come in stale, but on the
      diagonal the first row sets them, and below the last diagonal element they only
      repeat it. */
  method DeferBlock(a: Matrix, b: Matrix, r: nat, c: nat, size: nat, u1: int, u2: int) returns (t1: int, t2: int)
    requires Shapes(a, b) && r < a.Length0 && c < a.Length1 && size > 0
    requires r + size <= c || c + size <= r || r == c
    modifies b
    ensures forall x, y {:trigger b[x, y]} | 0 <= x < b.Length0 && 0 <= y < b.Length1 ::
              b[x, y] == if In(x, y, c, size, r, size) then a[y, x] else old(b[x, y])
  {
    t1, t2 := u1, u2;
    var h, w := Min(c + size, a.Length1), Min(r + size, a.Length0);
    for i := r to w
      invariant c == r && i > r ==> r <= t2 < i && t2 < h && t1 == a[t2, t2]
      invariant forall x, y {:trigger b[x, y]} | 0 <= x < b.Length0 && 0 <= y < b.Length1 ::
                  b[x, y] == if In(x, y, c, size, r, i - r) then a[y, x] else old(b[x, y])
    {
      t1, t2 := DeferRow(a, b, i, c, h, t1, t2);
      if c == r {
        b[t2, t2] := t1;
      }
    }
  }

  predicate Aligned(k: int, size: nat) {
    if size == 8 then k % 8 == 0 else k % 16 == 0
  }

  /** Multiples of a block size are equal or a block apart. */
  lemma Blocks(r: int, c: int, size: nat)
    requires (size == 8 || size == 16) && Aligned(r, size) && Aligned(c, size)
    ensures r + size <= c || c + size <= r || r == c
    ensures Aligned(r + size, size)
  {
    if size == 8 {
      Eights(r / 8, c / 8);
    } else {
      Sixteens(r / 16, c / 16);
    }
  }

  lemma Eights(p: int, q: int)
    ensures 8 * p + 8 <= 8 * q || 8 * q + 8 <= 8 * p || p == q
    ensures (8 * p + 8) % 8 == 0
  {
  }

  lemma Sixteens(p: int, q: int)
    ensures 16 * p + 16 <= 16 * q || 16 * q + 16 <= 16 * p || p == q
    ensures (16 * p + 16) % 16 == 0
  {
  }

  /** The loops over blocks of 8 or 16, on the first `rows` rows of A. */
  method TransDeferred(a: Matrix, b: Matrix, size: nat, rows: nat)
    requires Shapes(a, b) && (size == 8 || size == 16)
    requires rows == a.Length0 || (rows <= a.Length0 && Aligned(rows, size))
    modifies b
    ensures forall x, y {:trigger b[x, y]} | 0 <= x < b.Length0 && 0 <= y < b.Length1 ::
              b[x, y] == if y < rows then a[y, x] else old(b[x, y])
  {
    var t1: int, t2: int := *, *;
    var r := 0;
    while r < rows
      invariant 0 <= r && Aligned(r, size) && (Aligned(rows, size) ==> r <= rows)
      invariant forall x, y {:trigger b[x, y]} | 0 <= x < b.Length0 && 0 <= y < b.Length1 ::
                  b[x, y] == if y < r then a[y, x] else old(b[x, y])
    {
      var c := 0;
      while c < a.Length1
        invariant 0 <= c && Aligned(c, size)
        invariant forall x, y {:trigger b[x, y]} | 0 <= x < b.Length0 && 0 <= y < b.Length1 ::
                    b[x, y] == if y < r || (y < r + size && x < c) then a[y, x] else old(b[x, y])
      {
        Blocks(r, c, size);
        t1, t2 := DeferBlock(a, b, r, c, size, t1, t2);
        c := c + size;
      }
      if Aligned(rows, size) { Blocks(r, rows, size); }
      Blocks(r, r, size);
      r := r + size;
    }
  }

  // ----- transpose_submit

  /** The submission: every shape it was written for, and what it does to others. */
  method TransposeSubmit(a: Matrix, b: Matrix)
    requires Shapes(a, b)
    requires a.Length1 == 32 ==> a.Length0 >= 32
    requires a.Length1 == 64 ==> a.Length0 % 8 == 0
    modifies b
    ensures a.Length1 == 61 || a.Length1 == 64 ==> IsTranspose(a, b)
    ensures a.Length1 == 32 ==> forall x, y {:trigger b[x, y]} | 0 <= x < b.Length0 && 0 <= y < b.Length1 ::
                                  b[x, y] == if y < 32 then a[y, x] else old(b[x, y])
    ensures a.Length1 !in {32, 61, 64} ==> forall x, y {:trigger b[x, y]} | 0 <= x < b.Length0 && 0 <= y < b.Length1 ::
                                             b[x, y] == old(b[x, y])
  {
    if a.Length1 == 32 {
      TransDeferred(a, b, 8, 32);
    } else if a.Length1 == 64 {
      Trans2(a, b);
    } else if a.Length1 == 61 {
      TransDeferred(a, b, 16, a.Length0);
    }
  }
}
