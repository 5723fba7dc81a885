/**
 tensor_nhwc_to_nchw and tensor_nchw_to_nhwc: the element order of a four-dimensional tensor changes,
 and each conversion undoes the other.
 */
module Layout {
  import opened Indexing

  /** The offset of (i, j, k, l) in a tensor whose last three dimensions are b, c, d. */
  function Offset(i: int, j: int, k: int, l: int, b: int, c: int, d: int): int {
    ((i * b + j) * c + k) * d + l
  }

  /** The sum of products the C code writes for the same offset. */
  lemma OffsetAsWritten(i: int, j: int, k: int, l: int, b: int, c: int, d: int)
    ensures i * b * c * d + j * c * d + k * d + l == Offset(i, j, k, l, b, c, d)
  {
    SplitSum(i * b, j, c);
    SplitSum((i * b + j) * c, k, d);
    SplitSum(i * b * c, j * c, d);
  }

  datatype Index = Index(i: int, j: int, k: int, l: int)

  /** The digits of an offset. */
  function Digits(p: int, b: int, c: int, d: int): Index
    requires b > 0 && c > 0 && d > 0
  {
    Index(p / d / c / b, p / d / c % b, p / d % c, p % d)
  }

  ghost predicate InRange(x: Index, a: int, b: int, c: int, d: int) {
    0 <= x.i < a && 0 <= x.j < b && 0 <= x.k < c && 0 <= x.l < d
  }

  /** Offsets and index tuples in range correspond one to one. */
  lemma DigitsOfOffset(x: Index, a: int, b: int, c: int, d: int)
    requires b > 0 && c > 0 && d > 0 && InRange(x, a, b, c, d)
    ensures 0 <= Offset(x.i, x.j, x.k, x.l, b, c, d) < a * b * c * d
    ensures Digits(Offset(x.i, x.j, x.k, x.l, b, c, d), b, c, d) == x
  {
    Digit(x.i, a, x.j, b);
    Digit(x.i * b + x.j, a * b, x.k, c);
    Digit((x.i * b + x.j) * c + x.k, a * b * c, x.l, d);
  }

  lemma OffsetOfDigits(p: int, a: int, b: int, c: int, d: int)
    requires b > 0 && c > 0 && d > 0 && 0 <= p < a * b * c * d
    ensures InRange(Digits(p, b, c, d), a, b, c, d)
    ensures var x := Digits(p, b, c, d); Offset(x.i, x.j, x.k, x.l, b, c, d) == p
  {
    QuotientInRange(p, a * b * c, d);
    QuotientInRange(p / d, a * b, c);
    QuotientInRange(p / d / c, a, b);
  }

  /** Where position p of the NCHW tensor reads in the NHWC tensor. */
  function NhwcSource(p: int, h: int, w: int, c: int): int
    requires h > 0 && w > 0 && c > 0
  {
    var x := Digits(p, c, h, w);
    Offset(x.i, x.k, x.l, x.j, h, w, c)
  }

  /** Where position p of the NHWC tensor reads in the NCHW tensor. */
  function NchwSource(p: int, h: int, w: int, c: int): int
    requires h > 0 && w > 0 && c > 0
  {
    var x := Digits(p, h, w, c);
    Offset(x.i, x.l, x.j, x.k, c, h, w)
  }

  lemma SizesAgree(n: int, h: int, w: int, c: int)
    ensures n * c * h * w == n * h * w * c
  {
    MulAssociates(n, c, h);
    MulAssociates(n, h, c);
    MulAssociates(n * h, c, w);
    MulAssociates(n * h, w, c);
    assert c * h == h * c && c * w == w * c;
  }

  /** The two position maps are inverse bijections of 0..n*h*w*c-1. */
  lemma SourcesInvert(p: int, n: int, h: int, w: int, c: int)
    requires n > 0 && h > 0 && w > 0 && c > 0 && 0 <= p < n * h * w * c
    ensures 0 <= NhwcSource(p, h, w, c) < n * h * w * c && NchwSource(NhwcSource(p, h, w, c), h, w, c) == p
    ensures 0 <= NchwSource(p, h, w, c) < n * h * w * c && NhwcSource(NchwSource(p, h, w, c), h, w, c) == p
  {
    SizesAgree(n, h, w, c);
    OffsetOfDigits(p, n, c, h, w);
    var x := Digits(p, c, h, w);
    DigitsOfOffset(Index(x.i, x.k, x.l, x.j), n, h, w, c);
    OffsetOfDigits(p, n, h, w, c);
    var y := Digits(p, h, w, c);
    DigitsOfOffset(Index(y.i, y.l, y.j, y.k), n, c, h, w);
  }

  ghost predicate Tensor<T>(s: seq<T>, n: int, h: int, w: int, c: int) {
    n > 0 && h > 0 && w > 0 && c > 0 && |s| == n * h * w * c
  }

  function ToNchw<T>(s: seq<T>, n: int, h: int, w: int, c: int): (r: seq<T>)
    requires Tensor(s, n, h, w, c)
    ensures Tensor(r, n, h, w, c)
  {
    seq(|s|, p requires 0 <= p < |s| => SourcesInvert(p, n, h, w, c); s[NhwcSource(p, h, w, c)])
  }

  function ToNhwc<T>(s: seq<T>, n: int, h: int, w: int, c: int): (r: seq<T>)
    requires Tensor(s, n, h, w, c)
    ensures Tensor(r, n, h, w, c)
  {
    seq(|s|, p requires 0 <= p < |s| => SourcesInvert(p, n, h, w, c); s[NchwSource(p, h, w, c)])
  }

  /** Converting there and back is the identity, from either side. */
  lemma LayoutRoundTrip<T>(s: seq<T>, n: int, h: int, w: int, c: int)
    requires Tensor(s, n, h, w, c)
    ensures ToNhwc(ToNchw(s, n, h, w, c), n, h, w, c) == s
    ensures ToNchw(ToNhwc(s, n, h, w, c), n, h, w, c) == s
  {
    hide NhwcSource;
    hide NchwSource;
    forall p: int | 0 <= p < |s|
      ensures ToNhwc(ToNchw(s, n, h, w, c), n, h, w, c)[p] == s[p]
      ensures ToNchw(ToNhwc(s, n, h, w, c), n, h, w, c)[p] == s[p]
    {
      SourcesInvert(p, n, h, w, c);
    }
  }

  /** An element keeps its coordinates. */
  lemma SameElement<T>(s: seq<T>, n: int, h: int, w: int, c: int, ni: int, hi: int, wi: int, ci: int)
    requires Tensor(s, n, h, w, c) && 0 <= ni < n && 0 <= hi < h && 0 <= wi < w && 0 <= ci < c
    ensures 0 <= Offset(ni, ci, hi, wi, c, h, w) < |s| && 0 <= Offset(ni, hi, wi, ci, h, w, c) < |s|
    ensures ToNchw(s, n, h, w, c)[Offset(ni, ci, hi, wi, c, h, w)] == s[Offset(ni, hi, wi, ci, h, w, c)]
    ensures ToNhwc(s, n, h, w, c)[Offset(ni, hi, wi, ci, h, w, c)] == s[Offset(ni, ci, hi, wi, c, h, w)]
  {
    SizesAgree(n, h, w, c);
    DigitsOfOffset(Index(ni, ci, hi, wi), n, c, h, w);
    DigitsOfOffset(Index(ni, hi, wi, ci), n, h, w, c);
  }

  /** The first index past a finished inner loop. */
  lemma Carry(i: int, j: int, k: int, b: int, c: int, d: int)
    ensures Offset(i, j, k, d, b, c, d) == Offset(i, j, k + 1, 0, b, c, d)
    ensures Offset(i, j, c, 0, b, c, d) == Offset(i, j + 1, 0, 0, b, c, d)
    ensures Offset(i, b, 0, 0, b, c, d) == Offset(i + 1, 0, 0, 0, b, c, d)
  {
    SplitSum((i * b + j) * c + k, 1, d);
    SplitSum(i * b + j, 1, c);
    SplitSum(i, 1, b);
  }

  /** The loops start at offset 0 and end at the size of the tensor. */
  lemma EndOffsets(a: int, b: int, c: int, d: int)
    ensures Offset(0, 0, 0, 0, b, c, d) == 0 && Offset(a, 0, 0, 0, b, c, d) == a * b * c * d
  {
  }

  /** The loops over images and channels. */
  method NhwcToNchwLoops<T>(nhwc: seq<T>, n: int, h: int, w: int, c: int, nchw: array<T>, ghost before: seq<T>)
    requires Tensor(nhwc, n, h, w, c) && Filled(ToNchw(nhwc, n, h, w, c), before, nchw[..], Offset(0, 0, 0, 0, c, h, w))
    modifies nchw
    ensures Filled(ToNchw(nhwc, n, h, w, c), before, nchw[..], Offset(n, 0, 0, 0, c, h, w))
  {
    assert n > 0 && c > 0;
    hide Filled;
    hide Tensor;
    hide ToNchw;
    hide Offset;
    ghost var result := ToNchw(nhwc, n, h, w, c);
    var ni := 0;
    while ni < n
      invariant 0 <= ni <= n && Filled(result, before, nchw[..], Offset(ni, 0, 0, 0, c, h, w))
    {
      var ci := 0;
      while ci < c
        invariant 0 <= ci <= c && Filled(result, before, nchw[..], Offset(ni, ci, 0, 0, c, h, w))
      {
        NchwPlane(nhwc, n, h, w, c, nchw, ni, ci, before);
        ci := ci + 1;
      }
      Carry(ni, ci, 0, c, h, w);
      ni := ni + 1;
    }
  }

  method NhwcToNchw<T>(nhwc: seq<T>, n: int, h: int, w: int, c: int, nchw: array<T>) returns (status: int)
    requires n > 0 && h > 0 && w > 0 && c > 0 ==> Tensor(nhwc, n, h, w, c) && |nhwc| <= nchw.Length
    modifies nchw
    ensures n <= 0 || h <= 0 || w <= 0 || c <= 0 ==> status == -1 && unchanged(nchw)
    ensures n > 0 && h > 0 && w > 0 && c > 0 ==>
              status == 0 && nchw[..] == ToNchw(nhwc, n, h, w, c) + old(nchw[|nhwc|..])
  {
    if n <= 0 || h <= 0 || w <= 0 || c <= 0 {
      return -1;
    }
    ghost var before, result := nchw[..], ToNchw(nhwc, n, h, w, c);
    SizesAgree(n, h, w, c);
    EndOffsets(n, c, h, w);
    hide Offset;
    hide ToNchw;
    assert Filled(result, before, nchw[..], Offset(0, 0, 0, 0, c, h, w));
    NhwcToNchwLoops(nhwc, n, h, w, c, nchw, before);
    FilledAll(result, before, nchw[..]);
    status := 0;
  }

  /** The two inner loops: one channel plane. */
  method NchwPlane<T>(nhwc: seq<T>, n: int, h: int, w: int, c: int, nchw: array<T>, ni: int, ci: int,
                      ghost before: seq<T>)
    requires Tensor(nhwc, n, h, w, c) && 0 <= ni < n && 0 <= ci < c
    requires Filled(ToNchw(nhwc, n, h, w, c), before, nchw[..], Offset(ni, ci, 0, 0, c, h, w))
    modifies nchw
    ensures Filled(ToNchw(nhwc, n, h, w, c), before, nchw[..], Offset(ni, ci + 1, 0, 0, c, h, w))
  {
    ghost var result := ToNchw(nhwc, n, h, w, c);
    hide Filled;
    hide ToNchw;
    hide Offset;
    var hi := 0;
    while hi < h
      invariant 0 <= hi <= h && Filled(result, before, nchw[..], Offset(ni, ci, hi, 0, c, h, w))
    {
      var wi := 0;
      while wi < w
        invariant 0 <= wi <= w && Filled(result, before, nchw[..], Offset(ni, ci, hi, wi, c, h, w))
      {
        SameElement(nhwc, n, h, w, c, ni, hi, wi, ci);
        OffsetAsWritten(ni, ci, hi, wi, c, h, w);
        OffsetAsWritten(ni, hi, wi, ci, h, w, c);
        FilledLength(result, before, nchw[..], Offset(ni, ci, hi, wi, c, h, w));
        FillOne(result, before, nchw[..], Offset(ni, ci, hi, wi, c, h, w), nhwc[Offset(ni, hi, wi, ci, h, w, c)]);
        ghost var next := nchw[..][Offset(ni, ci, hi, wi, c, h, w) := nhwc[Offset(ni, hi, wi, ci, h, w, c)]];
        nchw[ni * c * h * w + ci * h * w + hi * w + wi] := nhwc[ni * h * w * c + hi * w * c + wi * c + ci];
        assert nchw[..] == next;
        NextOffset(ni, ci, hi, wi, c, h, w);
        wi := wi + 1;
      }
      Carry(ni, ci, hi, c, h, w);
      hi := hi + 1;
    }
    Carry(ni, ci, hi, c, h, w);
  }

  lemma NextOffset(i: int, j: int, k: int, l: int, b: int, c: int, d: int)
    ensures Offset(i, j, k, l, b, c, d) + 1 == Offset(i, j, k, l + 1, b, c, d)
  {
  }

  /** The loops over images and rows. */
  method NchwToNhwcLoops<T>(nchw: seq<T>, n: int, h: int, w: int, c: int, nhwc: array<T>, ghost before: seq<T>)
    requires Tensor(nchw, n, h, w, c) && Filled(ToNhwc(nchw, n, h, w, c), before, nhwc[..], Offset(0, 0, 0, 0, h, w, c))
    modifies nhwc
    ensures Filled(ToNhwc(nchw, n, h, w, c), before, nhwc[..], Offset(n, 0, 0, 0, h, w, c))
  {
    assert n > 0 && h > 0;
    hide Filled;
    hide Tensor;
    hide ToNhwc;
    hide Offset;
    ghost var result := ToNhwc(nchw, n, h, w, c);
    var ni := 0;
    while ni < n
      invariant 0 <= ni <= n && Filled(result, before, nhwc[..], Offset(ni, 0, 0, 0, h, w, c))
    {
      var hi := 0;
      while hi < h
        invariant 0 <= hi <= h && Filled(result, before, nhwc[..], Offset(ni, hi, 0, 0, h, w, c))
      {
        NhwcRow(nchw, n, h, w, c, nhwc, ni, hi, before);
        hi := hi + 1;
      }
      Carry(ni, hi, 0, h, w, c);
      ni := ni + 1;
    }
  }

  method NchwToNhwc<T>(nchw: seq<T>, n: int, c: int, h: int, w: int, nhwc: array<T>) returns (status: int)
    requires n > 0 && h > 0 && w > 0 && c > 0 ==> Tensor(nchw, n, h, w, c) && |nchw| <= nhwc.Length
    modifies nhwc
    ensures n <= 0 || h <= 0 || w <= 0 || c <= 0 ==> status == -1 && unchanged(nhwc)
    ensures n > 0 && h > 0 && w > 0 && c > 0 ==>
              status == 0 && nhwc[..] == ToNhwc(nchw, n, h, w, c) + old(nhwc[|nchw|..])
  {
    if n <= 0 || h <= 0 || w <= 0 || c <= 0 {
      return -1;
    }
    ghost var before, result := nhwc[..], ToNhwc(nchw, n, h, w, c);
    SizesAgree(n, h, w, c);
    EndOffsets(n, h, w, c);
    hide Offset;
    hide ToNhwc;
    assert Filled(result, before, nhwc[..], Offset(0, 0, 0, 0, h, w, c));
    NchwToNhwcLoops(nchw, n, h, w, c, nhwc, before);
    FilledAll(result, before, nhwc[..]);
    status := 0;
  }

  /** The two inner loops: one image row. */
  method NhwcRow<T>(nchw: seq<T>, n: int, h: int, w: int, c: int, nhwc: array<T>, ni: int, hi: int,
                    ghost before: seq<T>)
    requires Tensor(nchw, n, h, w, c) && 0 <= ni < n && 0 <= hi < h
    requires Filled(ToNhwc(nchw, n, h, w, c), before, nhwc[..], Offset(ni, hi, 0, 0, h, w, c))
    modifies nhwc
    ensures Filled(ToNhwc(nchw, n, h, w, c), before, nhwc[..], Offset(ni, hi + 1, 0, 0, h, w, c))
  {
    ghost var result := ToNhwc(nchw, n, h, w, c);
    hide Filled;
    hide ToNhwc;
    hide Offset;
    var wi := 0;
    while wi < w
      invariant 0 <= wi <= w && Filled(result, before, nhwc[..], Offset(ni, hi, wi, 0, h, w, c))
    {
      var ci := 0;
      while ci < c
        invariant 0 <= ci <= c && Filled(result, before, nhwc[..], Offset(ni, hi, wi, ci, h, w, c))
      {
        SameElement(nchw, n, h, w, c, ni, hi, wi, ci);
        OffsetAsWritten(ni, ci, hi, wi, c, h, w);
        OffsetAsWritten(ni, hi, wi, ci, h, w, c);
        FilledLength(result, before, nhwc[..], Offset(ni, hi, wi, ci, h, w, c));
        FillOne(result, before, nhwc[..], Offset(ni, hi, wi, ci, h, w, c), nchw[Offset(ni, ci, hi, wi, c, h, w)]);
        ghost var next := nhwc[..][Offset(ni, hi, wi, ci, h, w, c) := nchw[Offset(ni, ci, hi, wi, c, h, w)]];
        nhwc[ni * h * w * c + hi * w * c + wi * c + ci] := nchw[ni * c * h * w + ci * h * w + hi * w + wi];
        assert nhwc[..] == next;
        NextOffset(ni, hi, wi, ci, h, w, c);
        ci := ci + 1;
      }
      Carry(ni, hi, wi, h, w, c);
      wi := wi + 1;
    }
    Carry(ni, hi, wi, h, w, c);
  }
}
