/**
 What im2col is for: the number of kernel positions it unrolls, and that a convolution of the zero-padded image
 is the product of the unrolled matrix and the kernel. Both add the same products in the same order.
 */
module Convolution {
  import opened Gemm
  import opened Im2Col
  import opened Indexing

  // ---------- How many kernel positions there are ----------

  /**
   Along one dimension, of size size, the outputs are the positions at which the kernel lies within the padded
   image. A kernel that is longer by less than a stride still gives one output, and a longer one none.
   */
  lemma PositionsAlong(size: int, k: int, stride: int, pad: int, o: nat)
    requires stride > 0
    ensures k <= size + 2 * pad ==>
              (o < TruncatedDivision(size + 2 * pad - k, stride) + 1 <==> o * stride + k <= size + 2 * pad)
    ensures k > size + 2 * pad ==>
              (o < TruncatedDivision(size + 2 * pad - k, stride) + 1 <==> o == 0 && k < size + 2 * pad + stride)
  {
    var room := size + 2 * pad - k;
    if room >= 0 {
      var q := room / stride;
      if o <= q { MulMonotone(o, q, stride); } else { MulMonotone(q + 1, o, stride); }
      SplitSum(q, 1, stride);
    } else {
      var q := -room / stride;
      if q >= 1 { MulMonotone(1, q, stride); }
    }
  }

  lemma OutputRows(g: Geometry, oy: nat)
    requires g.stride > 0
    ensures g.kh <= g.h + 2 * g.pad ==> (oy < g.OutH() <==> oy * g.stride + g.kh <= g.h + 2 * g.pad)
    ensures g.kh > g.h + 2 * g.pad ==> (oy < g.OutH() <==> oy == 0 && g.kh < g.h + 2 * g.pad + g.stride)
  {
    PositionsAlong(g.h, g.kh, g.stride, g.pad, oy);
  }

  lemma OutputColumns(g: Geometry, ox: nat)
    requires g.stride > 0
    ensures g.kw <= g.w + 2 * g.pad ==> (ox < g.OutW() <==> ox * g.stride + g.kw <= g.w + 2 * g.pad)
    ensures g.kw > g.w + 2 * g.pad ==> (ox < g.OutW() <==> ox == 0 && g.kw < g.w + 2 * g.pad + g.stride)
  {
    PositionsAlong(g.w, g.kw, g.stride, g.pad, ox);
  }

  // ---------- Convolution of the padded image ----------

  /** A convolution with outC output channels; the kernel is stored as rows ky, columns kx, input, output channel. */
  datatype Conv2d<!T> = Conv2d(add: (T, T) -> T, mul: (T, T) -> T, zero: T, g: Geometry, outC: int,
                               input: seq<T>, kernel: seq<T>) {
    ghost predicate Usable() {
      && g.Accepted() && outC > 0
      && |input| == g.h * g.w * g.c > 0 && |kernel| == g.kh * g.kw * g.c * outC > 0
    }

    /** The image with pad rows and columns of zeros on every side. */
    function Padded(py: int, px: int, ci: int): T
      requires |input| > 0
    {
      if g.pad <= py < g.pad + g.h && g.pad <= px < g.pad + g.w then
        At(input, ((py - g.pad) * g.w + (px - g.pad)) * g.c + ci)
      else
        zero
    }

    /** x plus the first n input channels at kernel position (ky, kx). */
    function SumChannels(oy: nat, ox: nat, oc: nat, ky: nat, kx: nat, x: T, n: nat): T
      requires |input| > 0 && |kernel| > 0
    {
      if n == 0 then x
      else
        add(SumChannels(oy, ox, oc, ky, kx, x, n - 1),
            mul(Padded(oy * g.stride + ky, ox * g.stride + kx, n - 1),
                At(kernel, ((ky * g.kw + kx) * g.c + (n - 1)) * outC + oc)))
    }

    /** x plus the first n columns of row ky of the kernel. */
    function SumColumns(oy: nat, ox: nat, oc: nat, ky: nat, x: T, n: nat): T
      requires |input| > 0 && |kernel| > 0 && g.c > 0
    {
      if n == 0 then x else SumChannels(oy, ox, oc, ky, n - 1, SumColumns(oy, ox, oc, ky, x, n - 1), g.c)
    }

    /** x plus the first n rows of the kernel. */
    function SumRows(oy: nat, ox: nat, oc: nat, x: T, n: nat): T
      requires |input| > 0 && |kernel| > 0 && g.c > 0 && g.kw > 0
    {
      if n == 0 then x else SumColumns(oy, ox, oc, n - 1, SumRows(oy, ox, oc, x, n - 1), g.kw)
    }

    /** The whole kernel at output position (oy, ox), onto x. */
    function Output(oy: nat, ox: nat, oc: nat, x: T): T
      requires Usable()
    {
      SumRows(oy, ox, oc, x, g.kh)
    }

    function Patch(): (r: nat)
      requires g.Accepted()
      ensures r > 0
    {
      AtLeastOne(g.kh, g.kw);
      AtLeastOne(g.kh * g.kw, g.c);
      g.kh * g.kw * g.c
    }
  }

  /** The unrolled image, a row for each output position, times the kernel, a row for each patch cell. */
  function AsProduct<T>(v: Conv2d<T>, unrolled: seq<T>): Operands<T>
    requires v.Usable()
  {
    Operands(v.add, v.mul, unrolled, 0, v.Patch(), v.kernel, 0, v.outC, 0, v.outC)
  }

  function Unrolled<T>(v: Conv2d<T>): (r: seq<T>)
    requires v.Usable() && Into(Sources(v.g), |v.input|)
    ensures |r| == Positions(v.g)
  {
    Gather(Sources(v.g), v.input, v.zero)
  }

  /** An offset into the unrolled matrix, as the product counts it. */
  lemma OffsetInRow(g: Geometry, pixel: int, ky: int, kx: int, ci: int)
    ensures pixel * (g.kh * g.kw * g.c) + ((ky * g.kw + kx) * g.c + ci) == PositionOf(g, pixel, ky, kx) + ci
  {
    OffsetIsPosition(g, pixel, ky, kx);
  }

  lemma GatheredAt<T>(v: Conv2d<T>, p: nat)
    requires v.Usable() && Into(Sources(v.g), |v.input|) && p < Positions(v.g)
    ensures |Unrolled(v)| > 0
    ensures var s := Sources(v.g)[p]; At(Unrolled(v), p) == if s < 0 then v.zero else At(v.input, s)
  {
    hide Sources, Positions;
  }

  lemma CellIsPadded<T>(v: Conv2d<T>, oy: nat, ox: nat, ky: nat, kx: nat, ci: nat)
    requires v.Usable() && ci < v.g.c
    ensures var s := InputCell(v.g, oy, ox, ky, kx, ci);
            (if s < 0 then v.zero else At(v.input, s)) == v.Padded(oy * v.g.stride + ky, ox * v.g.stride + kx, ci)
  {
    var iy, ix := oy * v.g.stride + ky - v.g.pad, ox * v.g.stride + kx - v.g.pad;
    if 0 <= iy < v.g.h && 0 <= ix < v.g.w { CellInImage(v.g, iy, ix, ci); }
    hide At;
  }

  /** A cell of the unrolled matrix is the padded image's under the kernel. */
  lemma UnrolledCell<T>(v: Conv2d<T>, oy: nat, ox: nat, ky: nat, kx: nat, ci: nat)
    requires v.Usable() && Into(Sources(v.g), |v.input|) && |Unrolled(v)| > 0
    requires oy < v.g.OutH() && ox < v.g.OutW() && ky < v.g.kh && kx < v.g.kw && ci < v.g.c
    ensures At(Unrolled(v), (oy * v.g.OutW() + ox) * v.Patch() + ((ky * v.g.kw + kx) * v.g.c + ci))
         == v.Padded(oy * v.g.stride + ky, ox * v.g.stride + kx, ci)
  {
    hide Sources, Positions, PositionOf, Unrolled, At, InputCell;
    var base := oy * v.g.OutW() + ox;
    OffsetInRow(v.g, base, ky, kx, ci);
    PositionDigits(v.g, oy, ox, ky, kx, ci);
    GatheredAt(v, PositionOf(v.g, base, ky, kx) + ci);
    CellIsPadded(v, oy, ox, ky, kx, ci);
  }

  /** The product's fold along a patch, up to n cells. */
  function Along<T>(v: Conv2d<T>, pixel: nat, oc: nat, x: T, n: nat): T
    requires v.Usable() && Into(Sources(v.g), |v.input|) && |Unrolled(v)| > 0
  {
    Fold(v.add, v.mul, Unrolled(v), pixel * v.Patch(), v.kernel, oc, v.outC, x, n)
  }

  /** One more cell of a patch. */
  lemma NextCell<T>(v: Conv2d<T>, oy: nat, ox: nat, pixel: nat, oc: nat, ky: nat, kx: nat, x: T, q: nat, ci: nat)
    requires v.Usable() && Into(Sources(v.g), |v.input|) && |Unrolled(v)| > 0
    requires oy < v.g.OutH() && ox < v.g.OutW() && ky < v.g.kh && kx < v.g.kw && ci < v.g.c
    requires pixel == oy * v.g.OutW() + ox && q == (ky * v.g.kw + kx) * v.g.c + ci
    ensures Along(v, pixel, oc, x, q + 1)
         == v.add(Along(v, pixel, oc, x, q),
                  v.mul(v.Padded(oy * v.g.stride + ky, ox * v.g.stride + kx, ci), At(v.kernel, q * v.outC + oc)))
  {
    hide Sources, Positions, Unrolled, Along, At, Gather;
    UnrolledCell(v, oy, ox, ky, kx, ci);
    FoldNext(v, pixel, oc, x, q);
  }

  lemma {:induction false} ChannelsAlong<T>(v: Conv2d<T>, oy: nat, ox: nat, pixel: nat, oc: nat,
                                            ky: nat, kx: nat, x: T, q: nat, n: nat)
    requires v.Usable() && Into(Sources(v.g), |v.input|) && |Unrolled(v)| > 0
    requires oy < v.g.OutH() && ox < v.g.OutW() && ky < v.g.kh && kx < v.g.kw && n <= v.g.c
    requires pixel == oy * v.g.OutW() + ox && q == (ky * v.g.kw + kx) * v.g.c
    ensures Along(v, pixel, oc, x, q + n) == v.SumChannels(oy, ox, oc, ky, kx, Along(v, pixel, oc, x, q), n)
  {
    hide Sources, Positions, Unrolled, Along, At, Gather;
    if n > 0 {
      ChannelsAlong(v, oy, ox, pixel, oc, ky, kx, x, q, n - 1);
      NextCell(v, oy, ox, pixel, oc, ky, kx, x, q + (n - 1), n - 1);
    }
  }

  lemma FoldNext<T>(v: Conv2d<T>, pixel: nat, oc: nat, x: T, n: nat)
    requires v.Usable() && Into(Sources(v.g), |v.input|) && |Unrolled(v)| > 0
    ensures Along(v, pixel, oc, x, n + 1)
         == v.add(Along(v, pixel, oc, x, n),
                  v.mul(At(Unrolled(v), pixel * v.Patch() + n), At(v.kernel, n * v.outC + oc)))
  {
  }

  lemma {:induction false} ColumnsAlong<T>(v: Conv2d<T>, oy: nat, ox: nat, oc: nat, ky: nat, x: T, q: nat, n: nat)
    requires v.Usable() && Into(Sources(v.g), |v.input|) && |Unrolled(v)| > 0
    requires oy < v.g.OutH() && ox < v.g.OutW() && ky < v.g.kh && n <= v.g.kw
    requires q == ky * v.g.kw * v.g.c && oy * v.g.OutW() + ox >= 0
    ensures var pixel := oy * v.g.OutW() + ox;
            n * v.g.c >= 0
            && Along(v, pixel, oc, x, q + n * v.g.c) == v.SumColumns(oy, ox, oc, ky, Along(v, pixel, oc, x, q), n)
  {
    MulNonNegative(n, v.g.c);
    hide Sources, Positions, Unrolled, Along;
    if n > 0 {
      ColumnsAlong(v, oy, ox, oc, ky, x, q, n - 1);
      SplitSum(ky * v.g.kw, n - 1, v.g.c);
      SplitSum(n - 1, 1, v.g.c);
      ChannelsAlong(v, oy, ox, oy * v.g.OutW() + ox, oc, ky, n - 1, x, q + (n - 1) * v.g.c, v.g.c);
    }
  }

  lemma {:induction false} RowsAlong<T>(v: Conv2d<T>, oy: nat, ox: nat, oc: nat, x: T, n: nat)
    requires v.Usable() && Into(Sources(v.g), |v.input|) && |Unrolled(v)| > 0
    requires oy < v.g.OutH() && ox < v.g.OutW() && n <= v.g.kh && oy * v.g.OutW() + ox >= 0
    ensures n * v.g.kw * v.g.c >= 0
    ensures Along(v, oy * v.g.OutW() + ox, oc, x, n * v.g.kw * v.g.c) == v.SumRows(oy, ox, oc, x, n)
  {
    hide Sources, Positions, Unrolled;
    MulNonNegative(n, v.g.kw);
    MulNonNegative(n * v.g.kw, v.g.c);
    if n > 0 {
      hide Along;
      RowsAlong(v, oy, ox, oc, x, n - 1);
      SplitSum(n - 1, 1, v.g.kw);
      SplitSum((n - 1) * v.g.kw, v.g.kw, v.g.c);
      ColumnsAlong(v, oy, ox, oc, n - 1, x, (n - 1) * v.g.kw * v.g.c, v.g.kw);
    }
  }

  /**
   conv2d(image, kernel) = im2col(image) * kernel: at every position of the kernel within the padded image, the
   product of the unrolled matrix and the kernel onto c0 is the convolution there onto c0.
   */
  lemma ConvolutionIsProduct<T>(v: Conv2d<T>, c0: seq<T>, oy: nat, ox: nat, oc: nat)
    requires v.Usable() && oc < v.outC
    requires oy * v.g.stride + v.g.kh <= v.g.h + 2 * v.g.pad && ox * v.g.stride + v.g.kw <= v.g.w + 2 * v.g.pad
    requires |c0| == Pixels(v.g) * v.outC
    ensures Into(Sources(v.g), |v.input|) && |Unrolled(v)| > 0 && oy < v.g.OutH() && ox < v.g.OutW()
    ensures Gemm.Usable(AsProduct(v, Unrolled(v)), |c0|, Pixels(v.g), v.outC, v.Patch())
    ensures var at := (oy * v.g.OutW() + ox) * v.outC + oc;
            && 0 <= at < |c0|
            && Product(AsProduct(v, Unrolled(v)), c0, Pixels(v.g), v.outC, v.Patch())[at]
               == v.Output(oy, ox, oc, c0[at])
  {
    SourcesInImage(v.g);
    Inside(v.g, oy, ox);
    UnrolledSize(v);
    hide Sources, Unrolled;
    var pixel := oy * v.g.OutW() + ox;
    Digit(oy, v.g.OutH(), ox, v.g.OutW());
    Digit(pixel, Pixels(v.g), oc, v.outC);
    ProductSize(v, |c0|);
    RowsAlong(v, oy, ox, oc, c0[pixel * v.outC + oc], v.g.kh);
  }

  lemma Inside(g: Geometry, oy: nat, ox: nat)
    requires g.Accepted()
    requires oy * g.stride + g.kh <= g.h + 2 * g.pad && ox * g.stride + g.kw <= g.w + 2 * g.pad
    ensures oy < g.OutH() && ox < g.OutW()
  {
    MulNonNegative(oy, g.stride);
    MulNonNegative(ox, g.stride);
    OutputRows(g, oy);
    OutputColumns(g, ox);
  }

  lemma UnrolledSize<T>(v: Conv2d<T>)
    requires v.Usable() && Into(Sources(v.g), |v.input|) && v.g.OutH() > 0 && v.g.OutW() > 0
    ensures |Unrolled(v)| == Pixels(v.g) * v.Patch() > 0 && Pixels(v.g) == v.g.OutH() * v.g.OutW() > 0
  {
    AtLeastOne(v.g.OutH(), v.g.OutW());
    var n := Pixels(v.g);
    MulAssociates(n * v.g.kh, v.g.kw, v.g.c);
    MulAssociates(n, v.g.kh, v.g.kw * v.g.c);
    MulAssociates(v.g.kh, v.g.kw, v.g.c);
    AtLeastOne(n, v.Patch());
  }

  lemma ProductSize<T>(v: Conv2d<T>, cLength: nat)
    requires v.Usable() && Into(Sources(v.g), |v.input|) && cLength == Pixels(v.g) * v.outC && Pixels(v.g) > 0
    requires |Unrolled(v)| == Pixels(v.g) * v.Patch()
    ensures Gemm.Usable(AsProduct(v, Unrolled(v)), cLength, Pixels(v.g), v.outC, v.Patch())
  {
    hide Sources, Unrolled, Positions, Pixels;
    SplitSum(Pixels(v.g) - 1, 1, v.Patch());
    SplitSum(v.Patch() - 1, 1, v.outC);
    SplitSum(Pixels(v.g) - 1, 1, v.outC);
  }
}
