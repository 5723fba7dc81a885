/**
 pointwise_conv2d_1x1, and why it is im2col with a 1x1 kernel followed by the matrix product with the
 transposed kernel on a C filled with the bias: both add the same products in the same order.
 */
module Pointwise {
  import opened Gemm
  import opened Im2Col
  import opened Indexing
  import opened Wrappers

  /** The convolution's parameters; a missing bias counts as zeros. */
  datatype Layer<!T> = Layer(add: (T, T) -> T, mul: (T, T) -> T, zero: T, input: seq<T>, kernel: seq<T>,
                             bias: Option<seq<T>>,
                             h: int, w: int, inC: int, outC: int) {
    predicate Accepted() {
      h > 0 && w > 0 && inC > 0 && outC > 0
    }

    function Cells(): int {
      h * w * outC
    }

    /** The buffers hold what the dimensions ask for. */
    ghost predicate Usable() {
      Accepted() && |input| == h * w * inC && |kernel| == inC * outC && (bias.Some? ==> |bias.value| == outC)
    }

    function BiasOf(oc: nat): T
      requires bias.Some? ==> oc < |bias.value|
    {
      if bias.Some? then bias.value[oc] else zero
    }
  }

  /** Output channel oc of a pixel: the bias plus the products over the input channels, in order. */
  function OutputCell<T>(l: Layer<T>, pixel: int, oc: nat): T
    requires l.Usable() && oc < l.outC && |l.input| > 0 && |l.kernel| > 0
  {
    Fold(l.add, l.mul, l.input, pixel * l.inC, l.kernel, oc * l.inC, 1, l.BiasOf(oc), l.inC)
  }

  lemma Sizes<T>(l: Layer<T>)
    requires l.Usable()
    ensures |l.input| > 0 && |l.kernel| > 0 && l.Cells() > 0 && l.h * l.w > 0
  {
    AtLeastOne(l.h, l.w);
    AtLeastOne(l.h * l.w, l.inC);
    AtLeastOne(l.h * l.w, l.outC);
    AtLeastOne(l.inC, l.outC);
  }

  function Convolved<T>(l: Layer<T>): (r: seq<T>)
    requires l.Usable() && |l.input| > 0 && |l.kernel| > 0 && l.Cells() > 0
    ensures |r| == l.Cells()
  {
    seq(l.Cells(), idx requires 0 <= idx < l.Cells() => OutputCell(l, idx / l.outC, idx % l.outC))
  }

  // ---------- The loops ----------

  /** Channels before oc are complete; channel oc is complete for the first pixels. */
  ghost predicate Covered<T>(l: Layer<T>, before: seq<T>, now: seq<T>, oc: int, pixels: int)
    requires l.Usable() && |l.input| > 0 && |l.kernel| > 0 && l.Cells() > 0
  {
    && |now| == |before| >= l.Cells()
    && (forall idx :: 0 <= idx < l.Cells() && (idx % l.outC < oc || (idx % l.outC == oc && idx / l.outC < pixels)) ==>
          now[idx] == Convolved(l)[idx])
    && (forall idx :: l.Cells() <= idx < |now| ==> now[idx] == before[idx])
  }

  lemma CoverOne<T>(l: Layer<T>, before: seq<T>, now: seq<T>, oc: nat, pixel: nat, x: T)
    requires l.Usable() && |l.input| > 0 && |l.kernel| > 0 && l.Cells() > 0
    requires Covered(l, before, now, oc, pixel) && oc < l.outC && pixel < l.h * l.w && x == OutputCell(l, pixel, oc)
    ensures 0 <= pixel * l.outC + oc < l.Cells()
    ensures Covered(l, before, now[pixel * l.outC + oc := x], oc, pixel + 1)
  {
    hide OutputCell;
    Digit(pixel, l.h * l.w, oc, l.outC);
    var at := pixel * l.outC + oc;
    forall idx | 0 <= idx < l.Cells() && (idx % l.outC < oc || (idx % l.outC == oc && idx / l.outC < pixel + 1))
      ensures now[at := x][idx] == Convolved(l)[idx]
    {
      assert idx == (idx / l.outC) * l.outC + idx % l.outC;
    }
  }

  lemma NextChannel<T>(l: Layer<T>, before: seq<T>, now: seq<T>, oc: nat)
    requires l.Usable() && |l.input| > 0 && |l.kernel| > 0 && l.Cells() > 0
    requires Covered(l, before, now, oc, l.h * l.w)
    ensures Covered(l, before, now, oc + 1, 0)
  {
    hide Convolved;
    forall idx | 0 <= idx < l.Cells() ensures 0 <= idx / l.outC < l.h * l.w {
      QuotientInRange(idx, l.h * l.w, l.outC);
    }
  }

  lemma AllCovered<T>(l: Layer<T>, before: seq<T>, now: seq<T>)
    requires l.Usable() && |l.input| > 0 && |l.kernel| > 0 && l.Cells() > 0
    requires Covered(l, before, now, l.outC, 0)
    ensures now == Convolved(l) + before[l.Cells()..]
  {
    hide OutputCell;
  }

  /** The loop over the input channels of one output cell. */
  method SumChannels<T>(l: Layer<T>, pixel: nat, oc: nat) returns (sum: T)
    requires l.Usable() && |l.input| > 0 && |l.kernel| > 0 && oc < l.outC && pixel < l.h * l.w
    ensures sum == OutputCell(l, pixel, oc)
  {
    sum := l.BiasOf(oc);
    var ic := 0;
    while ic < l.inC
      invariant 0 <= ic <= l.inC
      invariant sum == Fold(l.add, l.mul, l.input, pixel * l.inC, l.kernel, oc * l.inC, 1, l.BiasOf(oc), ic)
    {
      Digit(pixel, l.h * l.w, ic, l.inC);
      Digit(oc, l.outC, ic, l.inC);
      sum := l.add(sum, l.mul(l.input[pixel * l.inC + ic], l.kernel[oc * l.inC + ic]));
      ic := ic + 1;
    }
  }

  /** The loops over the pixels for one output channel. */
  method ConvolveChannel<T>(l: Layer<T>, output: array<T>, oc: nat, ghost before: seq<T>)
    requires l.Usable() && |l.input| > 0 && |l.kernel| > 0 && l.Cells() > 0 && oc < l.outC
    requires Covered(l, before, output[..], oc, 0)
    modifies output
    ensures Covered(l, before, output[..], oc + 1, 0)
  {
    hide Covered;
    hide OutputCell;
    var y := 0;
    while y < l.h
      invariant 0 <= y <= l.h && Covered(l, before, output[..], oc, y * l.w)
    {
      var x := 0;
      while x < l.w
        invariant 0 <= x <= l.w && Covered(l, before, output[..], oc, y * l.w + x)
      {
        Digit(y, l.h, x, l.w);
        var sum := SumChannels(l, y * l.w + x, oc);
        CoverOne(l, before, output[..], oc, y * l.w + x, sum);
        CoveredLength(l, before, output[..], oc, y * l.w + x);
        ghost var next := output[..][(y * l.w + x) * l.outC + oc := sum];
        output[(y * l.w + x) * l.outC + oc] := sum;
        assert output[..] == next;
        x := x + 1;
      }
      SplitSum(y, 1, l.w);
      y := y + 1;
    }
    NextChannel(l, before, output[..], oc);
  }

  lemma CoveredLength<T>(l: Layer<T>, before: seq<T>, now: seq<T>, oc: int, pixels: int)
    requires l.Usable() && |l.input| > 0 && |l.kernel| > 0 && l.Cells() > 0 && Covered(l, before, now, oc, pixels)
    ensures |now| >= l.Cells()
  {
  }

  method Conv1x1<T>(l: Layer<T>, output: array<T>) returns (status: int)
    requires l.Accepted() ==> l.Usable() && l.Cells() <= output.Length
    modifies output
    ensures !l.Accepted() ==> status == -1 && unchanged(output)
    ensures l.Accepted() ==> status == 0 && |l.input| > 0 && |l.kernel| > 0 && l.Cells() > 0
    ensures l.Accepted() ==> output[..] == Convolved(l) + old(output[l.Cells()..])
  {
    if l.h <= 0 || l.w <= 0 || l.inC <= 0 || l.outC <= 0 {
      return -1;
    }
    Sizes(l);
    ghost var before := output[..];
    var oc := 0;
    while oc < l.outC
      invariant 0 <= oc <= l.outC && Covered(l, before, output[..], oc, 0)
    {
      ConvolveChannel(l, output, oc, before);
      oc := oc + 1;
    }
    AllCovered(l, before, output[..]);
    status := 0;
  }

  // ---------- The same result by im2col and a matrix product ----------

  function Kernel1x1<T>(l: Layer<T>): Geometry {
    Geometry(l.h, l.w, l.inC, 1, 1, 1, 0)
  }

  /** The kernel as an inC x outC matrix. */
  function Transposed<T>(l: Layer<T>): (r: seq<T>)
    requires l.Usable() && |l.kernel| > 0
  {
    seq(l.inC * l.outC, q => At(l.kernel, (q % l.outC) * l.inC + q / l.outC))
  }

  function BiasRows<T>(l: Layer<T>): (r: seq<T>)
    requires l.Usable() && l.Cells() > 0
  {
    seq(l.Cells(), idx requires 0 <= idx => l.BiasOf(idx % l.outC))
  }

  function AsProduct<T>(l: Layer<T>, unrolled: seq<T>): Operands<T>
    requires l.Usable() && |l.kernel| > 0
  {
    Operands(l.add, l.mul, unrolled, 0, l.inC, Transposed(l), 0, l.outC, 0, l.outC)
  }

  /** With a 1x1 kernel, stride 1 and no padding, im2col copies the image. */
  lemma UnrollingIsCopying<T>(l: Layer<T>)
    requires l.Usable()
    ensures Kernel1x1(l).Accepted() && Into(Sources(Kernel1x1(l)), |l.input|)
    ensures Gather(Sources(Kernel1x1(l)), l.input, l.zero) == l.input
  {
    var g := Kernel1x1(l);
    SourcesInImage(g);
    forall p: nat | p < l.h * l.w * l.inC
      ensures g.OutW() == l.w && SourceOf(g, p) == p
    {
      SourceIsPosition(l, p);
    }
    AtLeastOne(l.h, l.w);
    assert Positions(g) == l.h * l.w * l.inC;
    hide SourceOf;
    assert Gather(Sources(g), l.input, l.zero) == l.input;
  }

  lemma SourceIsPosition<T>(l: Layer<T>, p: nat)
    requires l.Accepted() && p < l.h * l.w * l.inC
    ensures var g := Kernel1x1(l); g.OutW() == l.w && SourceOf(g, p) == p
  {
    var g := Kernel1x1(l);
    QuotientInRange(p, l.h * l.w, l.inC);
    QuotientInRange(p / l.inC, l.h, l.w);
    DigitsRecombine(p, l.inC);
    DigitsRecombine(p / l.inC, l.w);
  }

  lemma DigitsRecombine(p: nat, k: nat)
    requires k > 0
    ensures (p / k) * k + p % k == p && 0 <= p % k < k
  {
  }

  lemma {:induction false} FoldTransposed<T>(l: Layer<T>, a0: int, oc: nat, x: T, n: nat)
    requires l.Usable() && |l.input| > 0 && |l.kernel| > 0 && oc < l.outC && n <= l.inC && |Transposed(l)| > 0
    ensures Fold(l.add, l.mul, l.input, a0, Transposed(l), oc, l.outC, x, n)
         == Fold(l.add, l.mul, l.input, a0, l.kernel, oc * l.inC, 1, x, n)
  {
    if n > 0 {
      FoldTransposed(l, a0, oc, x, n - 1);
      Digit(n - 1, l.inC, oc, l.outC);
      assert At(Transposed(l), oc + (n - 1) * l.outC) == At(l.kernel, oc * l.inC + (n - 1));
    }
  }

  lemma ConvolutionIsProduct<T>(l: Layer<T>)
    requires l.Usable()
    ensures |l.input| > 0 && |l.kernel| > 0 && l.Cells() > 0 && Into(Sources(Kernel1x1(l)), |l.input|)
    ensures var g := AsProduct(l, Gather(Sources(Kernel1x1(l)), l.input, l.zero));
            && Gemm.Usable(g, l.Cells(), l.h * l.w, l.outC, l.inC) && |g.a| > 0 && |g.b| > 0
            && Convolved(l) == Product(g, BiasRows(l), l.h * l.w, l.outC, l.inC)
  {
    Sizes(l);
    UnrollingIsCopying(l);
    var g := AsProduct(l, l.input);
    SplitSum(l.h * l.w - 1, 1, l.inC);
    SplitSum(l.inC - 1, 1, l.outC);
    SplitSum(l.h * l.w - 1, 1, l.outC);
    forall idx: nat | idx < l.Cells()
      ensures Convolved(l)[idx] == Product(g, BiasRows(l), l.h * l.w, l.outC, l.inC)[idx]
    {
      QuotientInRange(idx, l.h * l.w, l.outC);
      FoldTransposed(l, idx / l.outC * l.inC, idx % l.outC, l.BiasOf(idx % l.outC), l.inC);
    }
  }
}
