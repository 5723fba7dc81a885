/**
 im2col and col2im_gradient: every position of the unrolled matrix reads one input cell or the padding.
 im2col gathers along that map, col2im scatters back along it, and the two are adjoint.
 */
module Im2Col {
  import opened Indexing

  /** Image height, width and channels; kernel height and width; stride and padding. */
  datatype Geometry = Geometry(h: int, w: int, c: int, kh: int, kw: int, stride: int, pad: int) {
    /** What the functions check before they start; the padding may have any sign. */
    predicate Accepted() {
      h > 0 && w > 0 && c > 0 && kh > 0 && kw > 0 && stride > 0
    }

    /** Division truncates toward zero, so an image smaller than the kernel can still give one output. */
    function OutH(): int
      requires stride > 0
    {
      TruncatedDivision(h + 2 * pad - kh, stride) + 1
    }

    function OutW(): int
      requires stride > 0
    {
      TruncatedDivision(w + 2 * pad - kw, stride) + 1
    }

    /** Cells of the image. */
    function Cells(): int {
      h * w * c
    }
  }

  function TruncatedDivision(a: int, b: int): int
    requires b > 0
  {
    if a >= 0 then a / b else -(-a / b)
  }

  /** The number of unrolled pixels, zero if either dimension is not positive. */
  function Pixels(g: Geometry): (r: nat)
    requires g.Accepted()
    ensures r > 0 ==> g.OutH() > 0 && g.OutW() > 0
  {
    if g.OutH() > 0 && g.OutW() > 0 then MulNonNegative(g.OutH(), g.OutW()); g.OutH() * g.OutW() else 0
  }

  /** The length of the unrolled matrix. */
  function Positions(g: Geometry): (r: nat)
    requires g.Accepted()
  {
    var n := Pixels(g);
    MulNonNegative(n, g.kh);
    MulNonNegative(n * g.kh, g.kw);
    MulNonNegative(n * g.kh * g.kw, g.c);
    n * g.kh * g.kw * g.c
  }

  /** The input cell under kernel position (ky, kx) of output pixel (oy, ox), channel ci; -1 in the padding. */
  function InputCell(g: Geometry, oy: int, ox: int, ky: int, kx: int, ci: int): int {
    var iy, ix := oy * g.stride + ky - g.pad, ox * g.stride + kx - g.pad;
    if 0 <= iy < g.h && 0 <= ix < g.w then (iy * g.w + ix) * g.c + ci else -1
  }

  /** The input cell read at position p of the unrolled matrix, whose digits are oy, ox, ky, kx, ci. */
  function SourceOf(g: Geometry, p: nat): int
    requires g.Accepted() && g.OutW() > 0
  {
    var kernelColumn := p / g.c;
    var kernelRow := kernelColumn / g.kw;
    var pixel := kernelRow / g.kh;
    InputCell(g, pixel / g.OutW(), pixel % g.OutW(), kernelRow % g.kh, kernelColumn % g.kw, p % g.c)
  }

  function Sources(g: Geometry): (r: seq<int>)
    requires g.Accepted()
    ensures |r| == Positions(g)
  {
    seq(Positions(g), p requires 0 <= p < Positions(g) => if g.OutW() > 0 then SourceOf(g, p) else -1)
  }

  /** Every source is a cell of the image or -1. */
  ghost predicate Into(sources: seq<int>, size: int) {
    forall p :: 0 <= p < |sources| ==> -1 <= sources[p] < size
  }

  lemma CellInImage(g: Geometry, iy: int, ix: int, ci: int)
    requires g.Accepted() && 0 <= iy < g.h && 0 <= ix < g.w && 0 <= ci < g.c
    ensures 0 <= (iy * g.w + ix) * g.c + ci < g.Cells()
  {
    MulMonotone(iy + 1, g.h, g.w);
    MulMonotone(0, iy, g.w);
    MulMonotone(iy * g.w + ix + 1, g.h * g.w, g.c);
    MulMonotone(0, iy * g.w + ix, g.c);
    SplitSum(iy, 1, g.w);
    SplitSum(iy * g.w + ix, 1, g.c);
  }

  lemma SourcesInImage(g: Geometry)
    requires g.Accepted()
    ensures Into(Sources(g), g.Cells())
  {
    forall p | 0 <= p < Positions(g)
      ensures -1 <= Sources(g)[p] < g.Cells()
    {
      MulMonotone(0, g.h, g.w);
      MulMonotone(0, g.h * g.w, g.c);
      if Sources(g)[p] != -1 {
        SourceInImage(g, p);
      }
    }
  }

  lemma SourceInImage(g: Geometry, p: nat)
    requires g.Accepted() && g.OutW() > 0 && SourceOf(g, p) != -1
    ensures 0 <= SourceOf(g, p) < g.Cells()
  {
    var kernelColumn := p / g.c;
    var kernelRow := kernelColumn / g.kw;
    var pixel := kernelRow / g.kh;
    var iy := pixel / g.OutW() * g.stride + kernelRow % g.kh - g.pad;
    var ix := pixel % g.OutW() * g.stride + kernelColumn % g.kw - g.pad;
    CellInImage(g, iy, ix, p % g.c);
  }

  // ---------- Gather and scatter ----------

  function Gather<T>(sources: seq<int>, x: seq<T>, zero: T): (r: seq<T>)
    requires forall p :: 0 <= p < |sources| ==> sources[p] < |x|
    ensures |r| == |sources|
  {
    seq(|sources|, p requires 0 <= p < |sources| => if sources[p] >= 0 then x[sources[p]] else zero)
  }

  /** An addition and what sums start from; neither needs to obey any law. */
  datatype Adder<!T> = Adder(add: (T, T) -> T, zero: T)

  const REALS := Adder((x: real, y: real) => x + y, 0.0)

  /** The first n entries of y added up, in this order, at their sources. */
  function Scatter<T>(o: Adder<T>, sources: seq<int>, y: seq<T>, n: nat, size: nat): (r: seq<T>)
    requires n <= |sources| && n <= |y| && Into(sources, size)
    ensures |r| == size
  {
    if n == 0 then seq(size, _ => o.zero)
    else
      var s, before := sources[n - 1], Scatter(o, sources, y, n - 1, size);
      if s >= 0 then before[s := o.add(before[s], y[n - 1])] else before
  }

  function Dot(a: seq<real>, b: seq<real>): real
    requires |a| == |b|
  {
    if |a| == 0 then 0.0 else Dot(a[..|a| - 1], b[..|b| - 1]) + a[|a| - 1] * b[|b| - 1]
  }

  lemma {:induction false} DotUpdate(a: seq<real>, b: seq<real>, i: nat, v: real)
    requires |a| == |b| && i < |a|
    ensures Dot(a, b[i := v]) == Dot(a, b) - a[i] * b[i] + a[i] * v
  {
    var m := |a| - 1;
    if i == m {
      var b' := b[i := v];
      assert b'[..m] == b[..m];
      assert Dot(a, b') == Dot(a[..m], b'[..m]) + a[m] * b'[m];
    } else {
      DotUpdate(a[..m], b[..m], i, v);
      assert b[i := v][..m] == b[..m][i := v];
    }
  }

  lemma {:induction false} DotZeros(a: seq<real>, b: seq<real>)
    requires |a| == |b| && forall i :: 0 <= i < |b| ==> b[i] == 0.0
    ensures Dot(a, b) == 0.0
  {
    if |a| > 0 { DotZeros(a[..|a| - 1], b[..|b| - 1]); }
  }

  lemma DotNext(a: seq<real>, b: seq<real>, n: nat)
    requires 0 < n <= |a| == |b|
    ensures Dot(a[..n], b[..n]) == Dot(a[..n - 1], b[..n - 1]) + a[n - 1] * b[n - 1]
  {
    assert a[..n][..n - 1] == a[..n - 1] && b[..n][..n - 1] == b[..n - 1];
  }

  lemma DotAdd(a: seq<real>, b: seq<real>, i: nat, d: real)
    requires |a| == |b| && i < |a|
    ensures Dot(a, b[i := b[i] + d]) == Dot(a, b) + a[i] * d
  {
    DotUpdate(a, b, i, b[i] + d);
    hide Dot;
  }

  lemma ScatterNext(sources: seq<int>, y: seq<real>, n: nat, size: nat)
    requires 0 < n <= |sources| && n <= |y| && Into(sources, size)
    ensures var s, before := sources[n - 1], Scatter(REALS, sources, y, n - 1, size);
            Scatter(REALS, sources, y, n, size) == if s >= 0 then before[s := before[s] + y[n - 1]] else before
  {
  }

  /** <gather(x), y> = <x, scatter(y)>, position by position. */
  lemma {:induction false} GatherScatterAdjoint(sources: seq<int>, x: seq<real>, y: seq<real>, n: nat)
    requires Into(sources, |x|) && n <= |sources| == |y|
    ensures Dot(Gather(sources, x, 0.0)[..n], y[..n]) == Dot(x, Scatter(REALS, sources, y, n, |x|))
  {
    hide Dot, Gather, Scatter;
    if n == 0 {
      ScatteredNothing(sources, x, y);
    } else {
      GatherScatterAdjoint(sources, x, y, n - 1);
      GatherNext(sources, x, y, n);
      ScatterNext(sources, y, n, |x|);
      var s := sources[n - 1];
      if s >= 0 { DotAdd(x, Scatter(REALS, sources, y, n - 1, |x|), s, y[n - 1]); }
    }
  }

  lemma ScatteredNothing(sources: seq<int>, x: seq<real>, y: seq<real>)
    requires Into(sources, |x|) && |sources| == |y|
    ensures Dot(Gather(sources, x, 0.0)[..0], y[..0]) == Dot(x, Scatter(REALS, sources, y, 0, |x|))
  {
    DotZeros(x, Scatter(REALS, sources, y, 0, |x|));
    hide Gather, Scatter;
  }

  lemma GatherNext(sources: seq<int>, x: seq<real>, y: seq<real>, n: nat)
    requires Into(sources, |x|) && 0 < n <= |sources| == |y|
    ensures var gathered := Gather(sources, x, 0.0);
            Dot(gathered[..n], y[..n])
            == Dot(gathered[..n - 1], y[..n - 1]) + (if sources[n - 1] >= 0 then x[sources[n - 1]] * y[n - 1] else 0.0)
  {
    DotNext(Gather(sources, x, 0.0), y, n);
    hide Dot;
  }

  /** col2im_gradient is the exact adjoint of im2col, for every image, kernel, stride and padding. */
  lemma Im2ColAdjoint(g: Geometry, x: seq<real>, y: seq<real>)
    requires g.Accepted() && |x| == g.Cells() && |y| == Positions(g)
    ensures Into(Sources(g), |x|)
    ensures Dot(Gather(Sources(g), x, 0.0), y) == Dot(x, Scatter(REALS, Sources(g), y, |y|, |x|))
  {
    SourcesInImage(g);
    GatherScatterAdjoint(Sources(g), x, y, |y|);
    var gathered := Gather(Sources(g), x, 0.0);
    assert gathered[..|y|] == gathered && y[..|y|] == y;
  }

  // ---------- Positions in loop order ----------

  /** The position of output pixel base at kernel row ky, kernel column kx, channel 0. */
  function PositionOf(g: Geometry, base: int, ky: int, kx: int): int {
    ((base * g.kh + ky) * g.kw + kx) * g.c
  }

  /** Reading off the digits of a position. */
  lemma PositionDigits(g: Geometry, oy: int, ox: int, ky: int, kx: int, ci: int)
    requires g.Accepted() && 0 <= oy < g.OutH() && 0 <= ox < g.OutW()
    requires 0 <= ky < g.kh && 0 <= kx < g.kw && 0 <= ci < g.c
    ensures var p := PositionOf(g, oy * g.OutW() + ox, ky, kx) + ci;
            0 <= p < Positions(g) && Sources(g)[p] == InputCell(g, oy, ox, ky, kx, ci)
  {
    var pixel := oy * g.OutW() + ox;
    var kernelRow := pixel * g.kh + ky;
    var kernelColumn := kernelRow * g.kw + kx;
    Digit(oy, g.OutH(), ox, g.OutW());
    Digit(pixel, Pixels(g), ky, g.kh);
    Digit(kernelRow, Pixels(g) * g.kh, kx, g.kw);
    Digit(kernelColumn, Pixels(g) * g.kh * g.kw, ci, g.c);
  }

  /** The offsets the C code adds up are the position. */
  lemma OffsetIsPosition(g: Geometry, base: int, ky: int, kx: int)
    ensures base * (g.kh * g.kw * g.c) + (ky * g.kw + kx) * g.c == PositionOf(g, base, ky, kx)
  {
    SplitSum(base * g.kh, ky, g.kw);
    SplitSum(base * g.kh * g.kw, ky * g.kw + kx, g.c);
    MulAssociates(base * g.kh, g.kw, g.c);
    MulAssociates(base, g.kh, g.kw * g.c);
    MulAssociates(g.kh, g.kw, g.c);
  }

  lemma NextKernelRow(g: Geometry, base: int, ky: int)
    ensures PositionOf(g, base, ky, g.kw) == PositionOf(g, base, ky + 1, 0)
  {
    SplitSum(base * g.kh + ky, 1, g.kw);
  }

  lemma NextPixel(g: Geometry, base: int)
    ensures PositionOf(g, base, g.kh, 0) == PositionOf(g, base + 1, 0, 0)
  {
    SplitSum(base, 1, g.kh);
  }

  // ---------- The loops ----------

  /** The channel loop at one kernel position. */
  method FillChannels<T>(input: seq<T>, g: Geometry, zero: T, oy: nat, ox: nat, ky: nat, kx: nat, offset: nat,
                         col: array<T>,
                         ghost gathered: seq<T>, ghost before: seq<T>)
    requires g.Accepted() && oy < g.OutH() && ox < g.OutW() && ky < g.kh && kx < g.kw
    requires g.Cells() <= |input| && Into(Sources(g), g.Cells()) && gathered == Gather(Sources(g), input, zero)
    requires offset == PositionOf(g, oy * g.OutW() + ox, ky, kx) && Filled(gathered, before, col[..], offset)
    modifies col
    ensures Filled(gathered, before, col[..], PositionOf(g, oy * g.OutW() + ox, ky, kx + 1))
  {
    hide Filled;
    hide Sources;
    hide Positions;
    var iy, ix := oy * g.stride + ky - g.pad, ox * g.stride + kx - g.pad;
    var ci := 0;
    while ci < g.c
      invariant 0 <= ci <= g.c && Filled(gathered, before, col[..], offset + ci)
    {
      PositionDigits(g, oy, ox, ky, kx, ci);
      FilledLength(gathered, before, col[..], offset + ci);
      ghost var was := col[..];
      if iy >= 0 && iy < g.h && ix >= 0 && ix < g.w {
        CellInImage(g, iy, ix, ci);
        col[offset + ci] := input[(iy * g.w + ix) * g.c + ci];
      } else {
        col[offset + ci] := zero;
      }
      FillOne(gathered, before, was, offset + ci, col[offset + ci]);
      assert col[..] == was[offset + ci := col[offset + ci]];
      ci := ci + 1;
    }
    SplitSum((oy * g.OutW() + ox) * g.kh * g.kw, 1, g.c);
    NextColumn(g, oy * g.OutW() + ox, ky, kx);
  }

  lemma NextColumn(g: Geometry, base: int, ky: int, kx: int)
    ensures PositionOf(g, base, ky, kx) + g.c == PositionOf(g, base, ky, kx + 1)
  {
    SplitSum((base * g.kh + ky) * g.kw + kx, 1, g.c);
  }

  /** The kernel loops at one output pixel. */
  method FillPatch<T>(input: seq<T>, g: Geometry, zero: T, oy: nat, ox: nat, col: array<T>,
                      ghost gathered: seq<T>, ghost before: seq<T>)
    requires g.Accepted() && oy < g.OutH() && ox < g.OutW()
    requires g.Cells() <= |input| && Into(Sources(g), g.Cells()) && gathered == Gather(Sources(g), input, zero)
    requires Filled(gathered, before, col[..], PositionOf(g, oy * g.OutW() + ox, 0, 0))
    modifies col
    ensures Filled(gathered, before, col[..], PositionOf(g, oy * g.OutW() + ox + 1, 0, 0))
  {
    hide Filled;
    hide Sources;
    hide Positions;
    hide PositionOf;
    var base := oy * g.OutW() + ox;
    var colOffset := base * (g.kh * g.kw * g.c);
    var ky := 0;
    while ky < g.kh
      invariant 0 <= ky <= g.kh && Filled(gathered, before, col[..], PositionOf(g, base, ky, 0))
    {
      var kx := 0;
      while kx < g.kw
        invariant 0 <= kx <= g.kw && Filled(gathered, before, col[..], PositionOf(g, base, ky, kx))
      {
        var inOffset := (ky * g.kw + kx) * g.c;
        OffsetIsPosition(g, base, ky, kx);
        FilledLength(gathered, before, col[..], PositionOf(g, base, ky, kx));
        FillChannels(input, g, zero, oy, ox, ky, kx, colOffset + inOffset, col, gathered, before);
        kx := kx + 1;
      }
      NextKernelRow(g, base, ky);
      ky := ky + 1;
    }
    NextPixel(g, base);
  }

  /** The loop over the outputs of one row. */
  method FillRow<T>(input: seq<T>, g: Geometry, zero: T, oy: nat, col: array<T>,
                    ghost gathered: seq<T>, ghost before: seq<T>)
    requires g.Accepted() && oy < g.OutH()
    requires g.Cells() <= |input| && Into(Sources(g), g.Cells()) && gathered == Gather(Sources(g), input, zero)
    requires Filled(gathered, before, col[..], PositionOf(g, oy * Max(0, g.OutW()), 0, 0))
    modifies col
    ensures Filled(gathered, before, col[..], PositionOf(g, (oy + 1) * Max(0, g.OutW()), 0, 0))
  {
    hide Filled, Sources, PositionOf, Positions, Pixels, Gather;
    var outW := g.OutW();
    ghost var start := oy * Max(0, outW);
    var ox := 0;
    while ox < outW
      invariant 0 <= ox <= Max(0, outW) && Filled(gathered, before, col[..], PositionOf(g, start + ox, 0, 0))
    {
      FillPatch(input, g, zero, oy, ox, col, gathered, before);
      ox := ox + 1;
    }
    NextRow(oy, Max(0, outW));
  }

  method Im2Col<T>(input: seq<T>, g: Geometry, zero: T, col: array<T>) returns (status: int)
    requires g.Accepted() ==> g.Cells() <= |input| && Positions(g) <= col.Length
    modifies col
    ensures !g.Accepted() ==> status == -1 && unchanged(col)
    ensures g.Accepted() ==> status == 0 && Into(Sources(g), |input|)
    ensures g.Accepted() ==> col[..] == Gather(Sources(g), input, zero) + old(col[Positions(g)..])
  {
    if g.h <= 0 || g.w <= 0 || g.c <= 0 || g.kh <= 0 || g.kw <= 0 || g.stride <= 0 {
      return -1;
    }
    hide Filled, Sources, PositionOf, Positions, Pixels, Gather;
    ghost var before := col[..];
    FillStart(g, input, zero, before);
    ghost var gathered := Gather(Sources(g), input, zero);
    var outH := g.OutH();
    var oy := 0;
    while oy < outH
      invariant 0 <= oy <= Max(0, outH)
      invariant Filled(gathered, before, col[..], PositionOf(g, oy * Max(0, g.OutW()), 0, 0))
    {
      FillRow(input, g, zero, oy, col, gathered, before);
      oy := oy + 1;
    }
    FilledAll(gathered, before, col[..]);
    status := 0;
  }

  lemma FillStart<T>(g: Geometry, input: seq<T>, zero: T, before: seq<T>)
    requires g.Accepted() && g.Cells() <= |input| && Positions(g) <= |before|
    ensures Into(Sources(g), g.Cells()) && Into(Sources(g), |input|)
    ensures var gathered := Gather(Sources(g), input, zero);
            |gathered| == Positions(g) && Filled(gathered, before, before, PositionOf(g, 0 * Max(0, g.OutW()), 0, 0))
    ensures PositionOf(g, Max(0, g.OutH()) * Max(0, g.OutW()), 0, 0) == Positions(g)
  {
    SourcesInImage(g);
    EndPosition(g);
    hide Sources, PositionOf, Positions;
  }

  lemma NextRow(oy: int, columns: int)
    ensures oy * columns + columns == (oy + 1) * columns
  {
  }

  /** The loops start at position 0 and end at Positions(g). */
  lemma EndPosition(g: Geometry)
    requires g.Accepted()
    ensures PositionOf(g, 0, 0, 0) == 0
    ensures PositionOf(g, Max(0, g.OutH()) * Max(0, g.OutW()), 0, 0) == Positions(g)
  {
  }

  // ---------- The gradient ----------

  /** The first n entries of y have been added up in the image part of now; the rest is as before. */
  ghost predicate Scattered<T>(o: Adder<T>, sources: seq<int>, y: seq<T>, size: nat, before: seq<T>, now: seq<T>,
                               n: int) {
    && Into(sources, size) && |y| >= |sources| && 0 <= n <= |sources| && size <= |before|
    && now == Scatter(o, sources, y, n, size) + before[size..]
  }

  lemma ScatterOne<T>(o: Adder<T>, sources: seq<int>, y: seq<T>, size: nat, before: seq<T>, now: seq<T>, n: int)
    requires Scattered(o, sources, y, size, before, now, n) && n < |sources|
    ensures sources[n] < size <= |now| == |before| && n < |y|
    ensures sources[n] >= 0 ==>
              Scattered(o, sources, y, size, before, now[sources[n] := o.add(now[sources[n]], y[n])], n + 1)
    ensures sources[n] < 0 ==> Scattered(o, sources, y, size, before, now, n + 1)
  {
  }

  /** Positions in the padding add nothing. */
  lemma {:induction false} ScatterNothing<T>(o: Adder<T>, sources: seq<int>, y: seq<T>, size: nat, before: seq<T>,
                                             now: seq<T>,
                                          n: int, m: nat)
    requires Scattered(o, sources, y, size, before, now, n) && n + m <= |sources|
    requires forall p :: n <= p < n + m ==> sources[p] < 0
    ensures Scattered(o, sources, y, size, before, now, n + m)
  {
    if m > 0 {
      ScatterNothing(o, sources, y, size, before, now, n, m - 1);
      ScatterOne(o, sources, y, size, before, now, n + (m - 1));
    }
  }

  lemma PaddingCell(g: Geometry, oy: nat, ox: nat, ky: nat, kx: nat, iy: int, ix: int, ci: int, offset: int)
    requires g.Accepted() && oy < g.OutH() && ox < g.OutW() && ky < g.kh && kx < g.kw && 0 <= ci < g.c
    requires iy == oy * g.stride + ky - g.pad && ix == ox * g.stride + kx - g.pad && !(0 <= iy < g.h && 0 <= ix < g.w)
    requires offset == PositionOf(g, oy * g.OutW() + ox, ky, kx)
    ensures 0 <= offset + ci < Positions(g) && Sources(g)[offset + ci] == -1
  {
    hide Sources;
    hide Positions;
    hide PositionOf;
    PositionDigits(g, oy, ox, ky, kx, ci);
  }

  /** In the padding every channel of a kernel position has no source. */
  lemma PaddingSources(g: Geometry, oy: nat, ox: nat, ky: nat, kx: nat, iy: int, ix: int, offset: int)
    requires g.Accepted() && oy < g.OutH() && ox < g.OutW() && ky < g.kh && kx < g.kw
    requires iy == oy * g.stride + ky - g.pad && ix == ox * g.stride + kx - g.pad && !(0 <= iy < g.h && 0 <= ix < g.w)
    requires offset == PositionOf(g, oy * g.OutW() + ox, ky, kx)
    ensures 0 <= offset && offset + g.c <= Positions(g)
    ensures forall p :: offset <= p < offset + g.c ==> Sources(g)[p] < 0
  {
    hide Sources;
    hide Positions;
    hide PositionOf;
    PaddingCell(g, oy, ox, ky, kx, iy, ix, 0, offset);
    PaddingCell(g, oy, ox, ky, kx, iy, ix, g.c - 1, offset);
    forall p | offset <= p < offset + g.c
      ensures Sources(g)[p] < 0
    {
      PaddingCell(g, oy, ox, ky, kx, iy, ix, p - offset, offset);
      assert offset + (p - offset) == p;
    }
  }

  /** The cell the code adds to is the source of the position it adds. */
  lemma AddedCell(g: Geometry, oy: nat, ox: nat, ky: nat, kx: nat, iy: int, ix: int, ci: int, offset: int)
    requires g.Accepted() && oy < g.OutH() && ox < g.OutW() && ky < g.kh && kx < g.kw && 0 <= ci < g.c
    requires iy == oy * g.stride + ky - g.pad && ix == ox * g.stride + kx - g.pad && 0 <= iy < g.h && 0 <= ix < g.w
    requires offset == PositionOf(g, oy * g.OutW() + ox, ky, kx)
    ensures 0 <= offset + ci < Positions(g) && Sources(g)[offset + ci] == (iy * g.w + ix) * g.c + ci >= 0
  {
    hide Sources;
    hide Positions;
    hide PositionOf;
    PositionDigits(g, oy, ox, ky, kx, ci);
    CellInImage(g, iy, ix, ci);
  }

  /** One kernel position of the gradient: all channels, or nothing in the padding. */
  method AddChannels<T>(o: Adder<T>, col: seq<T>, g: Geometry, oy: nat, ox: nat, ky: nat, kx: nat, offset: nat,
                        grad: array<T>,
                     ghost before: seq<T>)
    requires g.Accepted() && oy < g.OutH() && ox < g.OutW() && ky < g.kh && kx < g.kw
    requires Positions(g) <= |col| && g.Cells() >= 0
    requires offset == PositionOf(g, oy * g.OutW() + ox, ky, kx)
    requires Scattered(o, Sources(g), col, g.Cells(), before, grad[..], offset)
    modifies grad
    ensures Scattered(o, Sources(g), col, g.Cells(), before, grad[..], PositionOf(g, oy * g.OutW() + ox, ky, kx + 1))
  {
    hide Scattered;
    hide Sources;
    hide Positions;
    hide PositionOf;
    ghost var sources := Sources(g);
    NextColumn(g, oy * g.OutW() + ox, ky, kx);
    var iy, ix := oy * g.stride + ky - g.pad, ox * g.stride + kx - g.pad;
    if iy >= 0 && iy < g.h && ix >= 0 && ix < g.w {
      var ci := 0;
      while ci < g.c
        invariant 0 <= ci <= g.c && Scattered(o, sources, col, g.Cells(), before, grad[..], offset + ci)
      {
        var at := (iy * g.w + ix) * g.c + ci;
        AddedCell(g, oy, ox, ky, kx, iy, ix, ci, offset);
        ScatterOne(o, sources, col, g.Cells(), before, grad[..], offset + ci);
        ghost var next := grad[..][at := o.add(grad[at], col[offset + ci])];
        grad[at] := o.add(grad[at], col[offset + ci]);
        assert grad[..] == next;
        ci := ci + 1;
      }
    } else {
      PaddingSources(g, oy, ox, ky, kx, iy, ix, offset);
      ScatterNothing(o, sources, col, g.Cells(), before, grad[..], offset, g.c);
    }
  }

  method AddPatch<T>(o: Adder<T>, col: seq<T>, g: Geometry, oy: nat, ox: nat, grad: array<T>, ghost before: seq<T>)
    requires g.Accepted() && oy < g.OutH() && ox < g.OutW() && Positions(g) <= |col| && g.Cells() >= 0
    requires Scattered(o, Sources(g), col, g.Cells(), before, grad[..], PositionOf(g, oy * g.OutW() + ox, 0, 0))
    modifies grad
    ensures Scattered(o, Sources(g), col, g.Cells(), before, grad[..], PositionOf(g, oy * g.OutW() + ox + 1, 0, 0))
  {
    hide Scattered;
    hide Sources;
    hide Positions;
    hide PositionOf;
    var base := oy * g.OutW() + ox;
    var colOffset := base * (g.kh * g.kw * g.c);
    var ky := 0;
    while ky < g.kh
      invariant 0 <= ky <= g.kh
      invariant Scattered(o, Sources(g), col, g.Cells(), before, grad[..], PositionOf(g, base, ky, 0))
    {
      var kx := 0;
      while kx < g.kw
        invariant 0 <= kx <= g.kw
        invariant Scattered(o, Sources(g), col, g.Cells(), before, grad[..], PositionOf(g, base, ky, kx))
      {
        var inOffset := (ky * g.kw + kx) * g.c;
        OffsetIsPosition(g, base, ky, kx);
        ScatteredLength(o, Sources(g), col, g.Cells(), before, grad[..], PositionOf(g, base, ky, kx));
        AddChannels(o, col, g, oy, ox, ky, kx, colOffset + inOffset, grad, before);
        kx := kx + 1;
      }
      NextKernelRow(g, base, ky);
      ky := ky + 1;
    }
    NextPixel(g, base);
  }

  method ZeroGradient<T>(o: Adder<T>, grad: array<T>, total: nat)
    requires total <= grad.Length
    modifies grad
    ensures grad[..] == seq(total, _ => o.zero) + old(grad[total..])
  {
    for i := 0 to total
      invariant forall k :: 0 <= k < i ==> grad[k] == o.zero
      invariant grad[i..] == old(grad[i..])
    {
      grad[i] := o.zero;
    }
  }

  lemma ScatteredInit<T>(o: Adder<T>, sources: seq<int>, y: seq<T>, size: nat, before: seq<T>, now: seq<T>)
    requires Into(sources, size) && |y| >= |sources| && size <= |before|
    requires now == seq(size, _ => o.zero) + before[size..]
    ensures Scattered(o, sources, y, size, before, now, 0)
  {
  }

  method Col2ImGradient<T>(o: Adder<T>, col: seq<T>, g: Geometry, grad: array<T>) returns (status: int)
    requires g.Accepted() ==> g.Cells() <= grad.Length && Positions(g) <= |col|
    modifies grad
    ensures !g.Accepted() ==> status == -1 && unchanged(grad)
    ensures g.Accepted() ==> status == 0 && 0 <= g.Cells() && Into(Sources(g), g.Cells())
    ensures g.Accepted() ==> grad[..] == Scatter(o, Sources(g), col, Positions(g), g.Cells()) + old(grad[g.Cells()..])
  {
    if g.h <= 0 || g.w <= 0 || g.c <= 0 || g.kh <= 0 || g.kw <= 0 || g.stride <= 0 {
      return -1;
    }
    MulNonNegative(g.h, g.w);
    MulNonNegative(g.h * g.w, g.c);
    ghost var before := grad[..];
    var total := g.h * g.w * g.c;
    ZeroGradient(o, grad, total);
    var outH, outW := g.OutH(), g.OutW();
    SourcesInImage(g);
    ghost var rows, rowLength := Max(0, outH), Max(0, outW);
    EndPosition(g);
    ScatteredInit(o, Sources(g), col, g.Cells(), before, grad[..]);
    hide Scattered;
    hide Scatter;
    hide Sources;
    hide PositionOf;
    hide Positions;
    hide Pixels;
    var oy := 0;
    while oy < outH
      invariant 0 <= oy <= rows
      invariant Scattered(o, Sources(g), col, g.Cells(), before, grad[..], PositionOf(g, oy * rowLength, 0, 0))
    {
      var ox := 0;
      while ox < outW
        invariant 0 <= ox <= rowLength
        invariant Scattered(o, Sources(g), col, g.Cells(), before, grad[..], PositionOf(g, oy * rowLength + ox, 0, 0))
      {
        AddPatch(o, col, g, oy, ox, grad, before);
        ox := ox + 1;
      }
      NextRow(oy, rowLength);
      oy := oy + 1;
    }
    ScatteredAll(o, Sources(g), col, g.Cells(), before, grad[..], Positions(g));
    status := 0;
  }

  lemma ScatteredLength<T>(o: Adder<T>, sources: seq<int>, y: seq<T>, size: nat, before: seq<T>, now: seq<T>, n: int)
    requires Scattered(o, sources, y, size, before, now, n)
    ensures 0 <= n <= |sources|
  {
  }

  lemma ScatteredAll<T>(o: Adder<T>, sources: seq<int>, y: seq<T>, size: nat, before: seq<T>, now: seq<T>, n: int)
    requires Scattered(o, sources, y, size, before, now, n)
    ensures 0 <= n <= |sources| && n <= |y| && size <= |before| && Into(sources, size)
    ensures now == Scatter(o, sources, y, n, size) + before[size..]
  {
  }
}
