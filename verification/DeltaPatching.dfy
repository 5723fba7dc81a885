/** A reader for the delta format, and what patching the old image with a delta gives. */
module DeltaPatching {
  import opened Delta
  import opened Indexing
  import opened Bits
  import opened Wrappers

  datatype Patch = Patch(offset: nat, data: seq<byte>)

  function Number(s: seq<byte>): nat {
    if |s| == 0 then 0 else s[0] + 256 * Number(s[1..])
  }

  /** Reads a delta as [offset: 4][length: 2][length bytes] records, with nothing left over. */
  function Parse(delta: seq<byte>): Option<seq<Patch>> {
    if |delta| == 0 then Some([])
    else if |delta| < 6 then None
    else
      var length := Number(delta[4..6]);
      if |delta| < 6 + length then None
      else match Parse(delta[6 + length..])
        case None => None
        case Some(rest) => Some([Patch(Number(delta[..4]), delta[6..6 + length])] + rest)
  }

  /** Overwrites the patched range, which must lie inside the image. */
  function Overwrite(image: seq<byte>, patch: Patch): Option<seq<byte>> {
    var end := patch.offset + |patch.data|;
    if end > |image| then None else Some(image[..patch.offset] + patch.data + image[end..])
  }

  function Apply(image: seq<byte>, patches: seq<Patch>): Option<seq<byte>> {
    if |patches| == 0 then Some(image)
    else match Apply(image, patches[..|patches| - 1])
      case None => None
      case Some(earlier) => Overwrite(earlier, patches[|patches| - 1])
  }

  function ApplyDelta(image: seq<byte>, delta: seq<byte>): Option<seq<byte>> {
    match Parse(delta)
    case None => None
    case Some(patches) => Apply(image, patches)
  }

  function PatchOf(after: seq<byte>, run: Run): Patch {
    Patch(run.start, Payload(after, run))
  }

  function Patches(after: seq<byte>, runs: seq<Run>): (r: seq<Patch>)
    ensures |r| == |runs|
  {
    seq(|runs|, i requires 0 <= i < |runs| => PatchOf(after, runs[i]))
  }

  /** The offsets and lengths that the format's four and two bytes can hold. */
  predicate Encodable(run: Run) {
    run.start < 0x1_0000_0000 && run.len < 0x1_0000
  }

  // ---------- Reading back what was written ----------

  lemma NumberOf4(b0: byte, b1: byte, b2: byte, b3: byte)
    ensures Number([b0, b1]) == b0 + 256 * b1
    ensures Number([b0, b1, b2, b3]) == b0 + 256 * b1 + 65536 * b2 + 16777216 * b3
  {
    assert [b0, b1][1..] == [b1] && [b1][1..] == [];
    assert [b0, b1, b2, b3][1..] == [b1, b2, b3] && [b1, b2, b3][1..] == [b2, b3];
    assert [b2, b3][1..] == [b3] && [b3][1..] == [];
    assert Number([b2, b3]) == b2 + 256 * Number([b3]);
    assert Number([b1, b2, b3]) == b1 + 256 * Number([b2, b3]);
  }

  /** The next digit in base 256. */
  lemma NextDigit(x: nat, d: nat)
    requires d > 0
    ensures x % d + d * (x / d % 256) == x % (256 * d)
  {
    NextDigitOf(x, d, x / d / 256, x / d % 256, x % d);
  }

  lemma NextDigitOf(x: nat, d: nat, high: nat, digit: nat, low: nat)
    requires d > 0 && x == d * (256 * high + digit) + low && digit < 256 && low < d
    ensures x % (256 * d) == low + d * digit
  {
    MulMonotone(digit, 255, d);
    assert d * (256 * high + digit) == high * (256 * d) + d * digit;
    FloorUnique(x, 256 * d, high, d * digit + low);
  }

  lemma NumberOfLittle(x: nat)
    ensures Number(Little4(x)) == x % 0x1_0000_0000
    ensures Number(Little2(x)) == x % 0x1_0000
  {
    NextDigit(x, 256);
    NextDigit(x, 65536);
    NextDigit(x, 16777216);
    NumberOf4(x % 256, x / 256 % 256, x / 65536 % 256, x / 16777216 % 256);
    hide Number;
  }

  /** How a record is split by the reader: its length field holds the length modulo 65536. */
  lemma ReadRecord(after: seq<byte>, run: Run, rest: seq<byte>)
    ensures var delta := Record(after, run) + rest;
            && Number(delta[..4]) == run.start % 0x1_0000_0000
            && Number(delta[4..6]) == run.len % 0x1_0000
            && delta[6..6 + run.len] == Payload(after, run) && delta[6 + run.len..] == rest
  {
    NumberOfLittle(run.start);
    NumberOfLittle(run.len);
    var delta := Record(after, run) + rest;
    hide Number, Payload;
    assert delta[..4] == Little4(run.start);
    assert delta[4..6] == Little2(run.len);
    assert delta == (Little4(run.start) + Little2(run.len)) + (Payload(after, run) + rest);
  }

  lemma {:induction false} RecordsFront(after: seq<byte>, runs: seq<Run>)
    requires |runs| > 0
    ensures Records(after, runs) == Record(after, runs[0]) + Records(after, runs[1..])
  {
    var n := |runs| - 1;
    hide Record;
    if n > 0 {
      RecordsFront(after, runs[..n]);
      assert runs[..n][1..] == runs[1..][..n - 1];
    }
  }

  /**
   The delta parses, and parses into exactly these patches, if and only if every run is short enough for its
   length field.
   */
  lemma {:induction false} ParseIff(after: seq<byte>, runs: seq<Run>)
    requires forall r :: 0 <= r < |runs| ==> runs[r].start < 0x1_0000_0000
    ensures Parse(Records(after, runs)) == Some(Patches(after, runs))
       <==> forall r :: 0 <= r < |runs| ==> Encodable(runs[r])
  {
    if |runs| == 0 {
      assert Patches(after, runs) == [];
    } else {
      hide Parse, Number, Patches, Payload, PatchOf, Record, Records, Little4, Little2;
      var first, rest := runs[0], Records(after, runs[1..]);
      RecordsFront(after, runs);
      ParseIff(after, runs[1..]);
      PatchesCons(after, runs);
      ParseRecord(after, first, rest, Patches(after, runs[1..]));
      assert forall r :: 0 < r < |runs| ==> runs[r] == runs[1..][r - 1];
    }
  }

  lemma PatchesCons(after: seq<byte>, runs: seq<Run>)
    requires |runs| > 0
    ensures Patches(after, runs) == [PatchOf(after, runs[0])] + Patches(after, runs[1..])
  {
  }

  lemma ParseUnfold(delta: seq<byte>, length: nat)
    requires |delta| >= 6 + length && length == Number(delta[4..6])
    ensures Parse(delta) == Cons(Patch(Number(delta[..4]), delta[6..6 + length]), Parse(delta[6 + length..]))
  {
  }

  function Cons(first: Patch, rest: Option<seq<Patch>>): Option<seq<Patch>> {
    match rest
    case None => None
    case Some(patches) => Some([first] + patches)
  }

  lemma ConsInjective(first: Patch, rest: Option<seq<Patch>>, first': Patch, rest': seq<Patch>)
    ensures Cons(first, rest) == Some([first'] + rest') <==> first == first' && rest == Some(rest')
  {
    if rest.Some? && [first] + rest.value == [first'] + rest' {
      assert ([first] + rest.value)[0] == first && ([first] + rest.value)[1..] == rest.value;
      assert ([first'] + rest')[0] == first' && ([first'] + rest')[1..] == rest';
    }
  }

  lemma PatchFields(after: seq<byte>, run: Run)
    ensures PatchOf(after, run) == Patch(run.start, Payload(after, run)) && |Payload(after, run)| == run.len
  {
  }

  lemma ParseCons(after: seq<byte>, run: Run, rest: seq<byte>)
    requires Encodable(run)
    ensures Parse(Record(after, run) + rest) == Cons(PatchOf(after, run), Parse(rest))
  {
    hide Parse, Number, Record, Payload, PatchOf, Cons;
    var delta := Record(after, run) + rest;
    ReadRecord(after, run, rest);
    ParseUnfold(delta, run.len);
    PatchFields(after, run);
  }

  /** A run that is too long is not read back as it was written. */
  lemma ParseLong(after: seq<byte>, run: Run, rest: seq<byte>, later: seq<Patch>)
    requires run.len >= 0x1_0000
    ensures Parse(Record(after, run) + rest) != Some([PatchOf(after, run)] + later)
  {
    var delta, length := Record(after, run) + rest, run.len % 0x1_0000;
    ReadRecord(after, run, rest);
    ParseUnfold(delta, length);
    var read := Patch(Number(delta[..4]), delta[6..6 + length]);
    assert |read.data| != |PatchOf(after, run).data|;
    hide Parse, Record, Number, PatchOf, Cons;
    ConsInjective(read, Parse(delta[6 + length..]), PatchOf(after, run), later);
  }

  lemma ParseRecord(after: seq<byte>, run: Run, rest: seq<byte>, later: seq<Patch>)
    requires run.start < 0x1_0000_0000
    ensures Parse(Record(after, run) + rest) == Some([PatchOf(after, run)] + later) <==>
              Encodable(run) && Parse(rest) == Some(later)
  {
    hide Parse, Record, PatchOf, Cons;
    if Encodable(run) {
      ParseCons(after, run, rest);
      ConsInjective(PatchOf(after, run), Parse(rest), PatchOf(after, run), later);
    } else {
      ParseLong(after, run, rest, later);
    }
  }

  // ---------- Patching ----------

  /** The image that is already new below k and still old from there. */
  function Mixed(before: seq<byte>, after: seq<byte>, k: nat, n: nat): (r: seq<byte>)
    ensures |r| == n
  {
    seq(n, i requires 0 <= i < n => if i < k then ByteAt(after, i) else ByteAt(before, i))
  }

  lemma PatchesFront(after: seq<byte>, runs: seq<Run>, last: Run)
    ensures Patches(after, runs + [last]) == Patches(after, runs) + [PatchOf(after, last)]
  {
  }

  lemma ApplyLast(image: seq<byte>, after: seq<byte>, runs: seq<Run>, last: Run)
    ensures Apply(image, Patches(after, runs + [last])) ==
            match Apply(image, Patches(after, runs))
            case None => None
            case Some(earlier) => Overwrite(earlier, PatchOf(after, last))
  {
    PatchesFront(after, runs, last);
  }

  /** The patches of the runs below k bring the image up to date below k. */
  lemma {:induction false} PatchesUpdate(before: seq<byte>, after: seq<byte>, k: nat, n: nat)
    requires k <= n
    ensures Apply(Padded(before, n), Patches(after, Runs(before, after, k))) == Some(Mixed(before, after, k, n))
  {
    if k == 0 {
      assert Padded(before, n) == Mixed(before, after, 0, n);
    } else {
      PatchesUpdate(before, after, k - 1, n);
      hide Apply, Patches, Padded;
      NextPatch(before, after, Padded(before, n), Runs(before, after, k - 1), k - 1, n);
    }
  }

  lemma NextPatch(before: seq<byte>, after: seq<byte>, image: seq<byte>, runs: seq<Run>, p: nat, n: nat)
    requires p < n && Apply(image, Patches(after, runs)) == Some(Mixed(before, after, p, n))
    ensures Apply(image, Patches(after, NextRuns(runs, p, Differs(before, after, p))))
              == Some(Mixed(before, after, p + 1, n))
  {
    hide Apply, Patches;
    if !Differs(before, after, p) {
      assert Mixed(before, after, p + 1, n) == Mixed(before, after, p, n);
    } else if OpenAt(runs, p) {
      hide Mixed, Overwrite, PatchOf;
      var front, last := runs[..|runs| - 1], runs[|runs| - 1];
      assert runs == front + [last];
      ApplyLast(image, after, front, last);
      ApplyLast(image, after, front, Run(last.start, last.len + 1));
      LongerPatch(before, after, p, n, Apply(image, Patches(after, front)).value, last);
    } else {
      hide Mixed, Overwrite, PatchOf;
      ApplyLast(image, after, runs, Run(p, 1));
      OnePatch(before, after, p, n);
    }
  }

  lemma LongerPatch(before: seq<byte>, after: seq<byte>, p: nat, n: nat, image: seq<byte>, run: Run)
    requires p < n && run.End() == p
    requires Overwrite(image, PatchOf(after, run)) == Some(Mixed(before, after, p, n))
    ensures Overwrite(image, PatchOf(after, Run(run.start, run.len + 1))) == Some(Mixed(before, after, p + 1, n))
  {
    var mixed := Mixed(before, after, p, n);
    PayloadGrows(after, run);
    NextMixed(before, after, p, n);
    hide Mixed, Payload;
    assert mixed[..p] == image[..run.start] + Payload(after, run);
    assert mixed[p + 1..] == image[p + 1..];
    var b := ByteAt(after, p);
    assert image[..run.start] + (Payload(after, run) + [b]) + image[p + 1..] == mixed[..p] + [b] + mixed[p + 1..];
  }

  lemma OnePatch(before: seq<byte>, after: seq<byte>, p: nat, n: nat)
    requires p < n
    ensures Overwrite(Mixed(before, after, p, n), PatchOf(after, Run(p, 1))) == Some(Mixed(before, after, p + 1, n))
  {
    PayloadGrows(after, Run(p, 0));
    NextMixed(before, after, p, n);
    hide Mixed;
    assert Payload(after, Run(p, 0)) == [];
    hide Payload;
    assert Payload(after, Run(p, 1)) == [ByteAt(after, p)];
  }

  lemma PayloadGrows(after: seq<byte>, run: Run)
    ensures Payload(after, Run(run.start, run.len + 1)) == Payload(after, run) + [ByteAt(after, run.End())]
  {
    var longer := Run(run.start, run.len + 1);
    PayloadAt(after, longer, run.len);
    forall j | 0 <= j < run.len ensures Payload(after, longer)[j] == Payload(after, run)[j] {
      PayloadAt(after, longer, j);
      PayloadAt(after, run, j);
    }
  }

  lemma NextMixed(before: seq<byte>, after: seq<byte>, p: nat, n: nat)
    requires p < n
    ensures Mixed(before, after, p + 1, n)
         == Mixed(before, after, p, n)[..p] + [ByteAt(after, p)] + Mixed(before, after, p, n)[p + 1..]
  {
  }

  // ---------- How large a delta gets ----------

  lemma {:induction false} RecordsSize(after: seq<byte>, runs: seq<Run>)
    requires forall r :: 0 <= r < |runs| ==> runs[r].len > 0
    requires forall r :: 0 < r < |runs| ==> runs[r - 1].End() < runs[r].start
    ensures |runs| > 0 ==> |Records(after, runs)| <= runs[|runs| - 1].End() + 1 + 5 * |runs|
    ensures |runs| > 0 ==> 2 * |runs| <= runs[|runs| - 1].End() + 1
  {
    hide Record;
    if |runs| > 0 { RecordsSize(after, runs[..|runs| - 1]); }
  }

  /** With room for the worst case the encoder writes the whole delta. */
  lemma RoomSuffices(before: seq<byte>, after: seq<byte>, n: nat, maxDelta: int)
    requires maxDelta >= n + 12 + 5 * ((n + 1) / 2)
    ensures Emitted(after, Runs(before, after, n), maxDelta) == Records(after, Runs(before, after, n))
  {
    var runs := Runs(before, after, n);
    RunsBelow(before, after, n);
    RecordsSize(after, runs);
    EmittedWholeIff(after, runs, maxDelta);
  }

  // ---------- What patching with the encoder's output gives ----------

  /** The runs of an image of less than 2 GB start at offsets that four bytes hold. */
  ghost predicate ShortRuns(before: seq<byte>, after: seq<byte>, n: nat) {
    n < INT_LIMIT && forall r :: 0 <= r < |Runs(before, after, n)| ==> Runs(before, after, n)[r].len <= 65535
  }

  lemma ShortRunsEncodable(before: seq<byte>, after: seq<byte>, n: nat)
    requires ShortRuns(before, after, n)
    ensures forall r :: 0 <= r < |Runs(before, after, n)| ==> Encodable(Runs(before, after, n)[r])
  {
    RunsBelow(before, after, n);
  }

  /** The whole delta gives the new image for images of any length whose runs fit the length field. */
  lemma WholeReconstructs(before: seq<byte>, after: seq<byte>, n: nat)
    requires ShortRuns(before, after, n)
    ensures ApplyDelta(Padded(before, n), Records(after, Runs(before, after, n))) == Some(Padded(after, n))
  {
    ShortRunsEncodable(before, after, n);
    ParseIff(after, Runs(before, after, n));
    PatchesUpdate(before, after, n, n);
    hide Parse, Apply, Runs, Records;
    assert Mixed(before, after, n, n) == Padded(after, n);
  }

  /** A delta that ends within the data of a record does not parse. */
  lemma {:induction false} ParseCut(after: seq<byte>, runs: seq<Run>, run: Run, x: nat)
    requires Encodable(run) && forall r :: 0 <= r < |runs| ==> Encodable(runs[r])
    requires 6 <= x < 6 + run.len
    ensures Parse(Records(after, runs) + Record(after, run)[..x]) == None
  {
    var cut := Record(after, run)[..x];
    if |runs| == 0 {
      ParseCutRecord(after, run, x);
      assert Records(after, runs) + cut == cut;
    } else {
      ParseCut(after, runs[1..], run, x);
      RecordsFront(after, runs);
      ParseCons(after, runs[0], Records(after, runs[1..]) + cut);
      assert Records(after, runs) + cut == Record(after, runs[0]) + (Records(after, runs[1..]) + cut) by {
        hide Record, Records;
      }
    }
    hide Parse, Record, Records, PatchOf;
  }

  lemma ParseCutRecord(after: seq<byte>, run: Run, x: nat)
    requires Encodable(run) && 6 <= x < 6 + run.len
    ensures Parse(Record(after, run)[..x]) == None
  {
    var cut := Record(after, run)[..x];
    ReadRecord(after, run, []);
    hide Number, Record;
    assert Record(after, run) + [] == Record(after, run);
    assert cut[4..6] == Record(after, run)[4..6];
  }

  /** The first m runs are those below some position where the images differ. */
  lemma {:induction false} RunsBefore(before: seq<byte>, after: seq<byte>, n: nat, m: nat) returns (k: nat)
    requires m < |Runs(before, after, n)|
    ensures k < n && Runs(before, after, k) == Runs(before, after, n)[..m] && Differs(before, after, k)
  {
    var earlier := Runs(before, after, n - 1);
    if m < |earlier| {
      k := RunsBefore(before, after, n - 1, m);
      assert earlier[..m] == Runs(before, after, n)[..m];
    } else {
      k := n - 1;
      assert Runs(before, after, n)[..m] == earlier;
    }
  }

  /** Without the last runs the image stays old somewhere. */
  lemma FewerPatches(before: seq<byte>, after: seq<byte>, n: nat, m: nat)
    requires m < |Runs(before, after, n)|
    ensures Apply(Padded(before, n), Patches(after, Runs(before, after, n)[..m])) != Some(Padded(after, n))
  {
    var k := RunsBefore(before, after, n, m);
    PatchesUpdate(before, after, k, n);
    hide Apply;
    assert Mixed(before, after, k, n)[k] != Padded(after, n)[k];
  }

  /**
   * Patching the old image with the encoder's output gives the new one, both extended with zeros
   * to the longer length, for images of any length whose runs of change fit the length field,
   * if and only if the buffer has room for the last record.
   */
  lemma ReconstructsIff(before: seq<byte>, after: seq<byte>, n: nat, maxDelta: int)
    requires n == Max(|before|, |after|) && ShortRuns(before, after, n)
    ensures ApplyDelta(Padded(before, n), Emitted(after, Runs(before, after, n), maxDelta)) == Some(Padded(after, n))
       <==> RoomFor(after, Runs(before, after, n), maxDelta)
  {
    var runs := Runs(before, after, n);
    ShortRunsEncodable(before, after, n);
    EmittedWholeIff(after, runs, maxDelta);
    if RoomFor(after, runs, maxDelta) {
      WholeReconstructs(before, after, n);
    } else {
      var m, x := EmittedForm(after, runs, maxDelta);
      hide Apply, Parse, Record, Encodable, RoomFor;
      assert runs[..|runs|] == runs;
      if m == |runs| {
        assert false;
      } else if x == 0 {
        assert Emitted(after, runs, maxDelta) == Records(after, runs[..m]);
        ParseIff(after, runs[..m]);
        FewerPatches(before, after, n, m);
      } else {
        ParseCut(after, runs[..m], runs[m], x);
      }
    }
  }

  /** For images of up to 65535 bytes and a buffer for the worst case there is nothing left to check. */
  lemma DeltaReconstructs(before: seq<byte>, after: seq<byte>, n: nat, maxDelta: int)
    requires n == Max(|before|, |after|) <= 65535
    requires maxDelta >= n + 12 + 5 * ((n + 1) / 2)
    ensures ApplyDelta(Padded(before, n), Emitted(after, Runs(before, after, n), maxDelta)) == Some(Padded(after, n))
  {
    RoomSuffices(before, after, n, maxDelta);
    EmittedWholeIff(after, Runs(before, after, n), maxDelta);
    RunsBelow(before, after, n);
    ReconstructsIff(before, after, n, maxDelta);
  }
}
