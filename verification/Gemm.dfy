/**
 gemm_micro_6x16 and gemm_blocked: C += A * B on row-major windows with leading dimensions.

 Addition and multiplication are arbitrary functions, so the results hold for floats: every cell of the
 window is the left fold, in ascending k, of its products onto its old value, whatever the tiling.
 */
module Gemm {
  import opened Indexing
  import opened Sums

  /** The operands: where A, B and C start in their buffers and how far apart their rows are. */
  datatype Operands<!T> = Operands(add: (T, T) -> T, mul: (T, T) -> T,
                                   a: seq<T>, aBase: nat, lda: nat,
                                   b: seq<T>, bBase: nat, ldb: nat,
                                   cBase: nat, ldc: nat)

  /** A total read, so that the specification needs no bounds; the methods only read in bounds. */
  function At<T>(s: seq<T>, i: int): T
    requires |s| > 0
  {
    if 0 <= i < |s| then s[i] else s[0]
  }

  /** x + a[a0]*b[b0] + a[a0+1]*b[b0+ldb] + ..., n products, added from the left. */
  function Fold<T>(add: (T, T) -> T, mul: (T, T) -> T, a: seq<T>, a0: int, b: seq<T>, b0: int, ldb: int, x: T,
                   n: nat): T
    requires |a| > 0 && |b| > 0
  {
    if n == 0 then x
    else add(Fold(add, mul, a, a0, b, b0, ldb, x, n - 1), mul(At(a, a0 + (n - 1)), At(b, b0 + (n - 1) * ldb)))
  }

  /** Row and column of a buffer index relative to the window. */
  function Row(g: Operands, idx: int): int
    requires g.ldc > 0
  {
    (idx - g.cBase) / g.ldc
  }

  function Col(g: Operands, idx: int): int
    requires g.ldc > 0
  {
    (idx - g.cBase) % g.ldc
  }

  /** The operands can be read and C has room for an M x N window whose rows do not overlap. */
  ghost predicate Usable<T>(g: Operands<T>, cLength: nat, M: int, N: int, K: int) {
    && M > 0 && N > 0 && K > 0 && N <= g.ldc
    && g.aBase + (M - 1) * g.lda + K <= |g.a|
    && g.bBase + (K - 1) * g.ldb + N <= |g.b|
    && g.cBase + (M - 1) * g.ldc + N <= cLength
  }

  /** With a single row the leading dimension of C is never used, and any other one will do. */
  function Strided<T>(g: Operands<T>, M: int, N: int): Operands<T> {
    if M == 1 && N > 0 then g.(ldc := N) else g
  }

  /** A cell of C after n products. */
  function CellAfter<T>(g: Operands<T>, c0: seq<T>, idx: nat, n: nat): T
    requires idx < |c0| && g.ldc > 0 && |g.a| > 0 && |g.b| > 0
  {
    Fold(g.add, g.mul, g.a, g.aBase + Row(g, idx) * g.lda, g.b, g.bBase + Col(g, idx), g.ldb, c0[idx], n)
  }

  /** All of C after the product: window cells hold their full fold, every other cell is as before. */
  function Product<T>(g: Operands<T>, c0: seq<T>, M: int, N: int, K: nat): (r: seq<T>)
    requires g.ldc > 0 && |g.a| > 0 && |g.b| > 0
  {
    seq(|c0|, idx requires 0 <= idx < |c0| =>
      if 0 <= Row(g, idx) < M && 0 <= Col(g, idx) < N then CellAfter(g, c0, idx, K) else c0[idx])
  }

  // ---------- Index arithmetic ----------

  lemma WindowIndex(g: Operands, r: int, c: int)
    requires 0 <= c < g.ldc
    ensures Row(g, g.cBase + r * g.ldc + c) == r && Col(g, g.cBase + r * g.ldc + c) == c
  {
    FloorUnique(r * g.ldc + c, g.ldc, r, c);
  }

  lemma IndexOfRowCol(g: Operands, idx: int)
    requires g.ldc > 0
    ensures idx == g.cBase + Row(g, idx) * g.ldc + Col(g, idx) && 0 <= Col(g, idx) < g.ldc
  {
  }

  // ---------- How far each cell has come ----------

  /**
   Products already added at (r, c): rows before i0 are finished; in rows i0..i1, columns before j0 are
   finished and columns j0..j1 have k products, one more before position (rr, cc) of the running sweep.
   */
  function Done(n: int, full: nat, i0: int, i1: int, j0: int, j1: int, k: nat, rr: int, cc: int, r: int, c: int): nat {
    if r < 0 || c >= n then 0
    else if r < i0 then full
    else if r >= i1 || c >= j1 then 0
    else if c < j0 then full
    else if r < rr || (r == rr && c < cc) then k + 1
    else k
  }

  ghost predicate Reached<T>(g: Operands<T>, c0: seq<T>, c: seq<T>, n: int, full: nat,
                             i0: int, i1: int, j0: int, j1: int, k: nat, rr: int, cc: int)
    requires g.ldc > 0 && |g.a| > 0 && |g.b| > 0
  {
    |c| == |c0| && forall idx :: 0 <= idx < |c| ==>
      c[idx] == CellAfter(g, c0, idx, Done(n, full, i0, i1, j0, j1, k, rr, cc, Row(g, idx), Col(g, idx)))
  }

  /** One multiply-add at row r, column c, product k. */
  lemma OneProduct<T>(g: Operands<T>, c0: seq<T>, c: seq<T>, n: int, full: nat,
                      i0: int, i1: int, j0: int, j1: int, k: nat, r: int, col: int, at: nat, ai: nat, bi: nat, x: T)
    requires g.ldc > 0 && n <= g.ldc && k < full && |g.a| > 0 && |g.b| > 0
    requires 0 <= i0 <= r < i1 && 0 <= j0 <= col < j1 <= n
    requires Reached(g, c0, c, n, full, i0, i1, j0, j1, k, r, col)
    requires ai == g.aBase + r * g.lda + k && bi == g.bBase + k * g.ldb + col && at == g.cBase + r * g.ldc + col
    requires ai < |g.a| && bi < |g.b| && at < |c|
    requires x == g.add(c[at], g.mul(g.a[ai], g.b[bi]))
    ensures Reached(g, c0, c[at := x], n, full, i0, i1, j0, j1, k, r, col + 1)
  {
    WindowIndex(g, r, col);
    var c' := c[at := x];
    forall idx | 0 <= idx < |c'|
      ensures c'[idx] == CellAfter(g, c0, idx, Done(n, full, i0, i1, j0, j1, k, r, col + 1, Row(g, idx), Col(g, idx)))
    {
      IndexOfRowCol(g, idx);
    }
  }

  /** Every access of the innermost statement is in bounds. */
  lemma InBounds<T>(g: Operands<T>, cLength: nat, M: int, N: int, K: int, r: nat, col: nat, k: nat)
    requires Usable(g, cLength, M, N, K) && r < M && col < N && k < K
    ensures 0 <= g.aBase + r * g.lda + k < |g.a|
    ensures 0 <= g.bBase + k * g.ldb + col < |g.b|
    ensures 0 <= g.cBase + r * g.ldc + col < cLength
  {
    MulMonotone(r, M - 1, g.lda);
    MulMonotone(k, K - 1, g.ldb);
    MulMonotone(r, M - 1, g.ldc);
  }

  /** The same state seen from two loop levels. */
  lemma SameProgress<T>(g: Operands<T>, c0: seq<T>, c: seq<T>, n: int, full: nat,
                        i0: int, i1: int, j0: int, j1: int, k: nat, rr: int, cc: int,
                        i0': int, i1': int, j0': int, j1': int, k': nat, rr': int, cc': int)
    requires g.ldc > 0 && |g.a| > 0 && |g.b| > 0
    requires Reached(g, c0, c, n, full, i0, i1, j0, j1, k, rr, cc)
    requires forall r, col: nat :: Done(n, full, i0, i1, j0, j1, k, rr, cc, r, col)
                                == Done(n, full, i0', i1', j0', j1', k', rr', cc', r, col)
    ensures Reached(g, c0, c, n, full, i0', i1', j0', j1', k', rr', cc')
  {
  }

  lemma ProductReached<T>(g: Operands<T>, c0: seq<T>, c: seq<T>, M: int, N: int, K: nat, j: int)
    requires N <= g.ldc && g.ldc > 0 && |g.a| > 0 && |g.b| > 0
    requires Reached(g, c0, c, N, K, M, M, j, j, 0, 0, 0)
    ensures c == Product(g, c0, M, N, K)
  {
    forall idx | 0 <= idx < |c|
      ensures c[idx] == Product(g, c0, M, N, K)[idx]
    {
      IndexOfRowCol(g, idx);
    }
  }

  lemma NothingDone<T>(g: Operands<T>, c0: seq<T>, N: int, K: nat)
    requires g.ldc > 0 && |g.a| > 0 && |g.b| > 0
    ensures Reached(g, c0, c0, N, K, 0, 0, 0, 0, 0, 0, 0)
  {
    forall idx | 0 <= idx < |c0|
      ensures Done(N, K, 0, 0, 0, 0, 0, 0, 0, Row(g, idx), Col(g, idx)) == 0
    {
    }
  }

  /** The innermost loop: one row of the tile, one product per cell. */
  method MicroRow<T>(g: Operands<T>, ghost M: int, ghost N: int, ghost K: int, c: array<T>, ghost c0: seq<T>,
                     ghost i: nat, ghost mr: nat, j: nat, nr: nat, k: nat, row: nat)
    requires Usable(g, c.Length, M, N, K) && |g.a| > 0 && |g.b| > 0
    requires i <= row < i + mr <= M && j + nr <= N && k < K
    requires Reached(g, c0, c[..], N, K, i, i + mr, j, j + nr, k, row, j)
    modifies c
    ensures Reached(g, c0, c[..], N, K, i, i + mr, j, j + nr, k, row, j + nr)
  {
    hide Reached;
    InBounds(g, c.Length, M, N, K, row, 0, k);
    var aik := g.a[g.aBase + row * g.lda + k];
    var jj := 0;
    while jj < nr
      invariant 0 <= jj <= nr
      invariant Reached(g, c0, c[..], N, K, i, i + mr, j, j + nr, k, row, j + jj)
    {
      InBounds(g, c.Length, M, N, K, row, j + jj, k);
      var at := g.cBase + row * g.ldc + (j + jj);
      var bi := g.bBase + k * g.ldb + (j + jj);
      var x := g.add(c[at], g.mul(aik, g.b[bi]));
      OneProduct(g, c0, c[..], N, K, i, i + mr, j, j + nr, k, row, j + jj, at, g.aBase + row * g.lda + k, bi, x);
      ghost var next := c[..][at := x];
      c[at] := x;
      assert c[..] == next;
      jj := jj + 1;
    }
  }

  /** One register tile: all products k of the tile, row by row. */
  method MicroTile<T>(g: Operands<T>, ghost M: int, ghost N: int, K: int, c: array<T>, ghost c0: seq<T>,
                      i: nat, mr: nat, j: nat, nr: nat)
    requires Usable(g, c.Length, M, N, K) && i + mr <= M && j + nr <= N && mr > 0 && nr > 0
    requires |g.a| > 0 && |g.b| > 0
    requires Reached(g, c0, c[..], N, K, i, i + mr, j, j + nr, 0, i, j)
    modifies c
    ensures Reached(g, c0, c[..], N, K, i, i + mr, j, j + nr, K, i, j)
  {
    hide Reached;
    var k := 0;
    while k < K
      invariant 0 <= k <= K
      invariant Reached(g, c0, c[..], N, K, i, i + mr, j, j + nr, k, i, j)
    {
      var ii := 0;
      while ii < mr
        invariant 0 <= ii <= mr
        invariant Reached(g, c0, c[..], N, K, i, i + mr, j, j + nr, k, i + ii, j)
      {
        MicroRow(g, M, N, K, c, c0, i, mr, j, nr, k, i + ii);
        SameProgress(g, c0, c[..], N, K, i, i + mr, j, j + nr, k, i + ii, j + nr,
                     i, i + mr, j, j + nr, k, i + ii + 1, j);
        ii := ii + 1;
      }
      SameProgress(g, c0, c[..], N, K, i, i + mr, j, j + nr, k, i + mr, j, i, i + mr, j, j + nr, k + 1, i, j);
      k := k + 1;
    }
  }

  method Micro6x16<T>(g: Operands<T>, M: int, N: int, K: int, c: array<T>) returns (status: int)
    requires M > 0 && N > 0 && K > 0 ==> Usable(Strided(g, M, N), c.Length, M, N, K)
    modifies c
    ensures M <= 0 || N <= 0 || K <= 0 ==> status == -1 && unchanged(c)
    ensures M > 0 && N > 0 && K > 0 ==> status == 0 && |g.a| > 0 && |g.b| > 0 && Strided(g, M, N).ldc > 0
    ensures M > 0 && N > 0 && K > 0 ==> c[..] == Product(Strided(g, M, N), old(c[..]), M, N, K)
  {
    if M <= 0 || N <= 0 || K <= 0 {
      return -1;
    }
    MicroKernel(Strided(g, M, N), M, N, K, c);
    status := 0;
  }

  /** The loops of gemm_micro_6x16, for rows that do not overlap. */
  method MicroKernel<T>(g: Operands<T>, M: int, N: int, K: int, c: array<T>)
    requires Usable(g, c.Length, M, N, K)
    modifies c
    ensures |g.a| > 0 && |g.b| > 0 && c[..] == Product(g, old(c[..]), M, N, K)
  {
    ghost var c0 := c[..];
    InBounds(g, c.Length, M, N, K, 0, 0, 0);
    NothingDone(g, c0, N, K);
    hide Reached;
    hide Product;
    var i := 0;
    while i < M
      invariant 0 <= i
      invariant Reached(g, c0, c[..], N, K, Min(i, M), Min(i, M), 0, 0, 0, 0, 0)
    {
      var mr := if M - i < 6 then M - i else 6;
      SameProgress(g, c0, c[..], N, K, i, i, 0, 0, 0, 0, 0, i, i + mr, 0, 0, 0, i, 0);
      var j := 0;
      while j < N
        invariant 0 <= j
        invariant Reached(g, c0, c[..], N, K, i, i + mr, j, j, 0, i, j)
      {
        var nr := if N - j < 16 then N - j else 16;
        SameProgress(g, c0, c[..], N, K, i, i + mr, j, j, 0, i, j, i, i + mr, j, j + nr, 0, i, j);
        MicroTile(g, M, N, K, c, c0, i, mr, j, nr);
        SameProgress(g, c0, c[..], N, K, i, i + mr, j, j + nr, K, i, j, i, i + mr, j + 16, j + 16, 0, i, j + 16);
        j := j + 16;
      }
      SameProgress(g, c0, c[..], N, K, i, i + mr, j, j, 0, i, j, i + mr, i + mr, 0, 0, 0, 0, 0);
      i := i + 6;
    }
    SameProgress(g, c0, c[..], N, K, M, M, 0, 0, 0, 0, 0, M, M, 0, 0, 0, 0, 0);
    ProductReached(g, c0, c[..], M, N, K, 0);
  }

  // ---------- Cache blocking ----------

  /** A longer fold is a shorter one continued. */
  lemma {:induction false} FoldSplit<T>(add: (T, T) -> T, mul: (T, T) -> T, a: seq<T>, a0: int, b: seq<T>, b0: int,
                                        ldb: int, x: T, k: nat, n: nat)
    requires |a| > 0 && |b| > 0
    ensures Fold(add, mul, a, a0, b, b0, ldb, x, k + n)
         == Fold(add, mul, a, a0 + k, b, b0 + k * ldb, ldb, Fold(add, mul, a, a0, b, b0, ldb, x, k), n)
  {
    if n > 0 {
      FoldSplit(add, mul, a, a0, b, b0, ldb, x, k, n - 1);
      SplitSum(k, n - 1, ldb);
    }
  }

  /** The operands of the block whose corner is row i, column j, product k. */
  function Block<T>(g: Operands<T>, i: nat, j: nat, k: nat): Operands<T> {
    g.(aBase := g.aBase + i * g.lda + k, bBase := g.bBase + k * g.ldb + j, cBase := g.cBase + i * g.ldc + j)
  }

  lemma BlockUsable<T>(g: Operands<T>, cLength: nat, M: int, N: int, K: int, i: nat, mr: nat, j: nat, nr: nat, k: nat,
                       kr: nat)
    requires Usable(g, cLength, M, N, K)
    requires 0 < mr && i + mr <= M && 0 < nr && j + nr <= N && 0 < kr && k + kr <= K
    ensures Usable(Block(g, i, j, k), cLength, mr, nr, kr)
  {
    MulMonotone(i + (mr - 1), M - 1, g.lda);
    MulMonotone(k + (kr - 1), K - 1, g.ldb);
    MulMonotone(i + (mr - 1), M - 1, g.ldc);
    SplitSum(i, mr - 1, g.lda);
    SplitSum(k, kr - 1, g.ldb);
    SplitSum(i, mr - 1, g.ldc);
  }

  /** Where an index of the whole matrix lies in a block. */
  lemma BlockIndex<T>(g: Operands<T>, idx: int, i: nat, j: nat, k: nat, r: int, c: int)
    requires g.ldc > 0 && j < g.ldc && r == Row(g, idx) && c == Col(g, idx)
    ensures c >= j ==> Row(Block(g, i, j, k), idx) == r - i && Col(Block(g, i, j, k), idx) == c - j
    ensures c < j ==> Row(Block(g, i, j, k), idx) == r - i - 1 && Col(Block(g, i, j, k), idx) == c - j + g.ldc
  {
    IndexOfRowCol(g, idx);
    var q, rest := if c >= j then r - i else r - i - 1, if c >= j then c - j else c - j + g.ldc;
    SplitSum(r - i, i, g.ldc);
    SplitSum(r - i - 1, 1, g.ldc);
    FloorUnique(idx - g.cBase - i * g.ldc - j, g.ldc, q, rest);
  }

  /** The micro-kernel on a block advances exactly the cells of the block by kr products. */
  lemma BlockCell<T>(g: Operands<T>, c0: seq<T>, c: seq<T>, idx: nat, i: nat, mr: nat, j: nat, nr: nat, k: nat, kr: nat)
    requires idx < |c0| == |c| && j + nr <= g.ldc && g.ldc > 0 && |g.a| > 0 && |g.b| > 0
    ensures var inBlock := i <= Row(g, idx) < i + mr && j <= Col(g, idx) < j + nr;
            && (!inBlock ==> Product(Block(g, i, j, k), c, mr, nr, kr)[idx] == c[idx])
            && (inBlock && c[idx] == CellAfter(g, c0, idx, k) ==>
                  Product(Block(g, i, j, k), c, mr, nr, kr)[idx] == CellAfter(g, c0, idx, k + kr))
  {
    var r, col := Row(g, idx), Col(g, idx);
    if nr > 0 {
      BlockIndex(g, idx, i, j, k, r, col);
    }
    if i <= r < i + mr && j <= col < j + nr {
      SplitSum(r - i, i, g.lda);
      FoldSplit(g.add, g.mul, g.a, g.aBase + r * g.lda, g.b, g.bBase + col, g.ldb, c0[idx], k, kr);
    }
  }

  lemma BlockStep<T>(g: Operands<T>, c0: seq<T>, c: seq<T>, N: int, K: nat, i: nat, mr: nat, j: nat, nr: nat, k: nat,
                     kr: nat)
    requires N <= g.ldc && g.ldc > 0 && |g.a| > 0 && |g.b| > 0 && j + nr <= N
    requires Reached(g, c0, c, N, K, i, i + mr, j, j + nr, k, i, j)
    ensures Reached(g, c0, Product(Block(g, i, j, k), c, mr, nr, kr), N, K, i, i + mr, j, j + nr, k + kr, i, j)
  {
    var c' := Product(Block(g, i, j, k), c, mr, nr, kr);
    forall idx | 0 <= idx < |c'|
      ensures c'[idx] == CellAfter(g, c0, idx, Done(N, K, i, i + mr, j, j + nr, k + kr, i, j, Row(g, idx), Col(g, idx)))
    {
      hide CellAfter;
      hide Product;
      BlockCell(g, c0, c, idx, i, mr, j, nr, k, kr);
    }
  }

  method Blocked<T>(g: Operands<T>, M: int, N: int, K: int, c: array<T>, blockM: int, blockN: int, blockK: int)
    returns (status: int)
    requires M > 0 && N > 0 && K > 0 ==> Usable(Strided(g, M, N), c.Length, M, N, K)
    modifies c
    ensures M <= 0 || N <= 0 || K <= 0 ==> status == -1 && unchanged(c)
    ensures M > 0 && N > 0 && K > 0 ==> status == 0 && |g.a| > 0 && |g.b| > 0 && Strided(g, M, N).ldc > 0
    ensures M > 0 && N > 0 && K > 0 ==> c[..] == Product(Strided(g, M, N), old(c[..]), M, N, K)
  {
    if M <= 0 || N <= 0 || K <= 0 {
      return -1;
    }
    BlockRows(Strided(g, M, N), M, N, K, c, blockM, blockN, blockK);
    status := 0;
  }

  /** The loops of gemm_blocked, for rows that do not overlap. */
  method BlockRows<T>(g: Operands<T>, M: int, N: int, K: int, c: array<T>, blockM: int, blockN: int, blockK: int)
    requires Usable(g, c.Length, M, N, K)
    modifies c
    ensures |g.a| > 0 && |g.b| > 0 && c[..] == Product(g, old(c[..]), M, N, K)
  {
    var bm := if blockM > 0 then blockM else 64;
    var bn := if blockN > 0 then blockN else 64;
    var bk := if blockK > 0 then blockK else 64;
    ghost var c0 := c[..];
    InBounds(g, c.Length, M, N, K, 0, 0, 0);
    NothingDone(g, c0, N, K);
    hide Reached;
    hide Product;
    var i := 0;
    while i < M
      invariant 0 <= i
      invariant Reached(g, c0, c[..], N, K, Min(i, M), Min(i, M), 0, 0, 0, 0, 0)
    {
      var mr := if M - i < bm then M - i else bm;
      SameProgress(g, c0, c[..], N, K, i, i, 0, 0, 0, 0, 0, i, i + mr, 0, 0, 0, i, 0);
      var j := 0;
      while j < N
        invariant 0 <= j
        invariant Reached(g, c0, c[..], N, K, i, i + mr, j, j, 0, i, j)
      {
        var nr := if N - j < bn then N - j else bn;
        SameProgress(g, c0, c[..], N, K, i, i + mr, j, j, 0, i, j, i, i + mr, j, j + nr, 0, i, j);
        BlockColumn(g, M, N, K, c, c0, i, mr, j, nr, bk);
        SameProgress(g, c0, c[..], N, K, i, i + mr, j, j + nr, K, i, j, i, i + mr, j + bn, j + bn, 0, i, j + bn);
        j := j + bn;
      }
      SameProgress(g, c0, c[..], N, K, i, i + mr, j, j, 0, i, j, i + mr, i + mr, 0, 0, 0, 0, 0);
      i := i + bm;
    }
    ProductReached(g, c0, c[..], M, N, K, 0);
  }

  /** For rows that do not overlap, setting the unused leading dimension changes nothing. */
  lemma StridedUsable<T>(g: Operands<T>, c0: seq<T>, M: int, N: int, K: int)
    requires Usable(g, |c0|, M, N, K) && |g.a| > 0 && |g.b| > 0
    ensures Usable(Strided(g, M, N), |c0|, M, N, K)
    ensures Product(Strided(g, M, N), c0, M, N, K) == Product(g, c0, M, N, K)
  {
    if M == 1 {
      var s := Strided(g, M, N);
      forall idx | 0 <= idx < |c0| ensures Product(s, c0, M, N, K)[idx] == Product(g, c0, M, N, K)[idx] {
        OnlyRow(g, idx, N);
        OnlyRow(s, idx, N);
      }
    }
  }

  lemma OnlyRow(g: Operands, idx: int, N: int)
    requires 0 < N <= g.ldc
    ensures Row(g, idx) == 0 && Col(g, idx) < N <==> 0 <= idx - g.cBase < N
    ensures 0 <= idx - g.cBase < N ==> Col(g, idx) == idx - g.cBase
  {
    IndexOfRowCol(g, idx);
    if 0 <= idx - g.cBase < N { FloorUnique(idx - g.cBase, g.ldc, 0, idx - g.cBase); }
  }

  /** The k loop of one block: the micro-kernel on consecutive slices of the products. */
  method BlockColumn<T>(g: Operands<T>, ghost M: int, ghost N: int, K: int, c: array<T>, ghost c0: seq<T>,
                        i: nat, mr: nat, j: nat, nr: nat, bk: nat)
    requires Usable(g, c.Length, M, N, K) && i + mr <= M && j + nr <= N && mr > 0 && nr > 0 && bk > 0
    requires |g.a| > 0 && |g.b| > 0
    requires Reached(g, c0, c[..], N, K, i, i + mr, j, j + nr, 0, i, j)
    modifies c
    ensures Reached(g, c0, c[..], N, K, i, i + mr, j, j + nr, K, i, j)
  {
    hide Reached;
    hide Product;
    var k := 0;
    while k < K
      invariant 0 <= k
      invariant Reached(g, c0, c[..], N, K, i, i + mr, j, j + nr, Min(k, K), i, j)
    {
      var kr := if K - k < bk then K - k else bk;
      BlockUsable(g, c.Length, M, N, K, i, mr, j, nr, k, kr);
      BlockStep(g, c0, c[..], N, K, i, mr, j, nr, k, kr);
      ghost var before := c[..];
      StridedUsable(Block(g, i, j, k), before, mr, nr, kr);
      var _ := Micro6x16(Block(g, i, j, k), mr, nr, kr, c);
      k := k + bk;
    }
  }

  // ---------- What the fold means ----------

  function Products(a: seq<int>, a0: int, b: seq<int>, b0: int, ldb: int, n: nat): (r: seq<int>)
    requires |a| > 0 && |b| > 0
  {
    seq(n, k => At(a, a0 + k) * At(b, b0 + k * ldb))
  }

  /** Over the integers the fold is the old value plus the inner product of a row of A and a column of B. */
  lemma {:induction false} FoldIsInnerProduct(a: seq<int>, a0: int, b: seq<int>, b0: int, ldb: int, x: int, n: nat)
    requires |a| > 0 && |b| > 0
    ensures Fold((p, q) => p + q, (p, q) => p * q, a, a0, b, b0, ldb, x, n) == x + Sum(Products(a, a0, b, b0, ldb, n))
  {
    if n > 0 {
      FoldIsInnerProduct(a, a0, b, b0, ldb, x, n - 1);
      SumAppend(Products(a, a0, b, b0, ldb, n - 1), At(a, a0 + (n - 1)) * At(b, b0 + (n - 1) * ldb));
      assert Products(a, a0, b, b0, ldb, n)
          == Products(a, a0, b, b0, ldb, n - 1) + [At(a, a0 + (n - 1)) * At(b, b0 + (n - 1) * ldb)];
    }
  }
}
