/** Where the two-byte length field of the delta format stops being enough. */
module DeltaLimits {
  import opened Delta
  import opened Indexing
  import opened DeltaPatching
  import opened Bits
  import opened Wrappers

  /** The number of positions in which two images of one length differ. */
  function Distance(a: seq<byte>, b: seq<byte>): nat
    requires |a| == |b|
  {
    if |a| == 0 then 0
    else Distance(a[..|a| - 1], b[..|a| - 1]) + if a[|a| - 1] != b[|a| - 1] then 1 else 0
  }

  lemma {:induction false} Triangle(a: seq<byte>, b: seq<byte>, c: seq<byte>)
    requires |a| == |b| == |c|
    ensures Distance(a, c) <= Distance(a, b) + Distance(b, c)
  {
    if |a| > 0 { Triangle(a[..|a| - 1], b[..|a| - 1], c[..|a| - 1]); }
  }

  function Clamp(x: int, high: nat): nat {
    if x < 0 then 0 else if x > high then high else x
  }

  lemma {:induction false} DistanceAtMost(a: seq<byte>, b: seq<byte>, start: nat, len: nat)
    requires |a| == |b|
    requires forall i :: 0 <= i < |a| && a[i] != b[i] ==> start <= i < start + len
    ensures Distance(a, b) <= Clamp(|a| - start, len)
  {
    if |a| > 0 { DistanceAtMost(a[..|a| - 1], b[..|a| - 1], start, len); }
  }

  function DataSize(patches: seq<Patch>): nat {
    if |patches| == 0 then 0 else DataSize(patches[..|patches| - 1]) + |patches[|patches| - 1].data|
  }

  lemma {:induction false} DataSizeFront(patches: seq<Patch>)
    requires |patches| > 0
    ensures DataSize(patches) == |patches[0].data| + DataSize(patches[1..])
  {
    var n := |patches| - 1;
    if n > 0 {
      DataSizeFront(patches[..n]);
      assert patches[..n][1..] == patches[1..][..n - 1];
    }
  }

  /** Patches change no more positions than they carry bytes. */
  lemma {:induction false} ApplyDistance(image: seq<byte>, patches: seq<Patch>)
    requires Apply(image, patches).Some?
    ensures |Apply(image, patches).value| == |image|
    ensures Distance(image, Apply(image, patches).value) <= DataSize(patches)
  {
    if |patches| == 0 {
      DistanceAtMost(image, image, 0, 0);
    } else {
      var last := patches[|patches| - 1];
      var earlier := Apply(image, patches[..|patches| - 1]).value;
      ApplyDistance(image, patches[..|patches| - 1]);
      var result := Overwrite(earlier, last).value;
      DistanceAtMost(earlier, result, last.offset, |last.data|);
      Triangle(image, earlier, result);
    }
  }

  /** Every record costs six bytes beside its data. */
  lemma {:induction false} ParseSize(delta: seq<byte>)
    requires Parse(delta).Some?
    ensures |delta| == 6 * |Parse(delta).value| + DataSize(Parse(delta).value)
    decreases |delta|
  {
    if |delta| > 0 {
      var length := Number(delta[4..6]);
      ParseUnfold(delta, length);
      ParseSize(delta[6 + length..]);
      var rest := Parse(delta[6 + length..]).value;
      var patches := [Patch(Number(delta[..4]), delta[6..6 + length])] + rest;
      DataSizeFront(patches);
      assert patches[1..] == rest;
    }
  }

  /** How many positions the runs cover. */
  function Covering(runs: seq<Run>): nat {
    if |runs| == 0 then 0 else Covering(runs[..|runs| - 1]) + runs[|runs| - 1].len
  }

  lemma {:induction false} CoveringFront(runs: seq<Run>)
    requires |runs| > 0
    ensures Covering(runs) == runs[0].len + Covering(runs[1..])
  {
    var n := |runs| - 1;
    if n > 0 {
      CoveringFront(runs[..n]);
      assert runs[..n][1..] == runs[1..][..n - 1];
    }
  }

  lemma {:induction false} RecordsLength(after: seq<byte>, runs: seq<Run>)
    ensures |Records(after, runs)| == 6 * |runs| + Covering(runs)
  {
    if |runs| > 0 { RecordsLength(after, runs[..|runs| - 1]); }
  }

  lemma {:induction false} RunsDistance(before: seq<byte>, after: seq<byte>, k: nat)
    ensures Distance(Padded(before, k), Padded(after, k)) == Covering(Runs(before, after, k))
  {
    if k > 0 {
      RunsDistance(before, after, k - 1);
      NextCovering(Runs(before, after, k - 1), k - 1, Differs(before, after, k - 1));
      assert Padded(before, k)[..k - 1] == Padded(before, k - 1) && Padded(after, k)[..k - 1] == Padded(after, k - 1);
      hide Runs, NextRuns, Covering;
    }
  }

  lemma NextCovering(runs: seq<Run>, k: nat, differs: bool)
    ensures Covering(NextRuns(runs, k, differs)) == Covering(runs) + if differs then 1 else 0
  {
    var next := NextRuns(runs, k, differs);
    if differs { assert next[..|next| - 1] == if OpenAt(runs, k) then runs[..|runs| - 1] else runs; }
  }

  /** A record carries at most 65535 bytes. */
  lemma {:induction false} ParsedSizes(delta: seq<byte>)
    requires Parse(delta).Some?
    ensures DataSize(Parse(delta).value) <= 65535 * |Parse(delta).value|
    decreases |delta|
  {
    if |delta| > 0 {
      var length := Number(delta[4..6]);
      var rest := delta[6 + length..];
      ParseUnfold(delta, length);
      ParsedSizes(rest);
      ConsSize(Patch(Number(delta[..4]), delta[6..6 + length]), Parse(rest).value);
      assert delta[4..6] == [delta[4], delta[5]];
      NumberOf4(delta[4], delta[5], 0, 0);
    }
  }

  lemma ConsSize(first: Patch, rest: seq<Patch>)
    ensures DataSize([first] + rest) == |first.data| + DataSize(rest)
  {
    DataSizeFront([first] + rest);
    assert ([first] + rest)[1..] == rest;
  }

  /** A run that is too long is read with its length cut down, whatever follows. */
  lemma LongRecord(after: seq<byte>, run: Run, rest: seq<byte>)
    requires run.len > 65535 && Parse(Record(after, run) + rest).Some?
    ensures var patches := Parse(Record(after, run) + rest).value;
            |patches| >= 1 && DataSize(patches) <= run.len % 0x1_0000 + 65535 * (|patches| - 1)
  {
    var delta, length := Record(after, run) + rest, run.len % 0x1_0000;
    ReadRecord(after, run, rest);
    ParseUnfold(delta, length);
    hide Record, Number, Parse;
    var later := delta[6 + length..];
    ParsedSizes(later);
    ConsSize(Patch(Number(delta[..4]), delta[6..6 + length]), Parse(later).value);
  }

  /**
   * Run i is the first one too long, and the records it and the later runs can be read back as,
   * 65535 bytes each, are too few for the positions they have to change.
   */
  ghost predicate TooFewBytes(runs: seq<Run>, i: nat) {
    && i < |runs| && runs[i].len > 65535 && (forall r :: 0 <= r < i ==> runs[r].len <= 65535)
    && runs[i].len % 0x1_0000 + 65535 * (|runs| - i - 1) < Covering(runs[i..])
  }

  lemma {:induction false} LongRunLosesBytes(after: seq<byte>, runs: seq<Run>, i: nat)
    requires TooFewBytes(runs, i) && forall r :: 0 <= r < |runs| ==> runs[r].start < 0x1_0000_0000
    ensures var parsed := Parse(Records(after, runs));
            parsed.Some? && |parsed.value| <= |runs| ==> DataSize(parsed.value) < Covering(runs)
  {
    hide Parse, Record, Records, DataSize, Covering, PatchOf;
    var rest := Records(after, runs[1..]);
    RecordsFront(after, runs);
    if Parse(Records(after, runs)).Some? && |Parse(Records(after, runs)).value| <= |runs| {
      if i == 0 {
        assert runs[0..] == runs;
        LongRecord(after, runs[0], rest);
      } else {
        assert runs[1..][i - 1..] == runs[i..];
        CoveringFront(runs);
        LongRunLosesBytes(after, runs[1..], i - 1);
        ShortRecord(after, runs[0], rest);
      }
    }
  }

  /** Then reading the whole delta back does not give the new image. */
  lemma LongRunBreaks(before: seq<byte>, after: seq<byte>, n: nat, i: nat)
    requires n < INT_LIMIT && TooFewBytes(Runs(before, after, n), i)
    ensures ApplyDelta(Padded(before, n), Records(after, Runs(before, after, n))) != Some(Padded(after, n))
  {
    var image, runs := Padded(before, n), Runs(before, after, n);
    var delta := Records(after, runs);
    RunsBelow(before, after, n);
    if ApplyDelta(image, delta) == Some(Padded(after, n)) {
      var patches := Parse(delta).value;
      LongRunLosesBytes(after, runs, i);
      ParseSize(delta);
      RecordsLength(after, runs);
      ApplyDistance(image, patches);
      RunsDistance(before, after, n);
      assert false;
    }
  }

  /** Of the last two runs, the first one too long is always too much. */
  lemma LastTwo(runs: seq<Run>) returns (i: nat)
    requires forall r :: 0 <= r < |runs| ==> runs[r].len > 0
    requires forall r :: 0 <= r < |runs| - 2 ==> runs[r].len <= 65535
    requires exists r :: 0 <= r < |runs| && runs[r].len > 65535
    ensures TooFewBytes(runs, i)
  {
    var n := |runs|;
    i := if n >= 2 && runs[n - 2].len > 65535 then n - 2 else n - 1;
    CoveringFront(runs[i..]);
    if i == n - 2 {
      assert runs[i..][1..] == runs[n - 1..];
      CoveringFront(runs[n - 1..]);
    }
  }

  lemma ShortRecord(after: seq<byte>, run: Run, rest: seq<byte>)
    requires Encodable(run) && Parse(Record(after, run) + rest).Some?
    ensures var patches := Parse(Record(after, run) + rest).value;
            && Parse(rest).Some? && |patches| == 1 + |Parse(rest).value|
            && DataSize(patches) == run.len + DataSize(Parse(rest).value)
  {
    hide Parse, Record, PatchOf;
    ParseCons(after, run, rest);
    PatchFields(after, run);
    ConsSize(PatchOf(after, run), Parse(rest).value);
  }

  /**
   * Reading the whole delta back gives the new image if and only if no run has more than 65535
   * bytes, for all images of which at most the last two runs are so long: a longer run is read back
   * as several records, which leaves too few data bytes for all the positions to change.
   */
  lemma LongRunsIff(before: seq<byte>, after: seq<byte>, n: nat)
    requires n == Max(|before|, |after|) < INT_LIMIT
    requires forall r :: 0 <= r < |Runs(before, after, n)| - 2 ==> Runs(before, after, n)[r].len <= 65535
    ensures ApplyDelta(Padded(before, n), Records(after, Runs(before, after, n))) == Some(Padded(after, n))
       <==> ShortRuns(before, after, n)
  {
    RunsBelow(before, after, n);
    if ShortRuns(before, after, n) {
      WholeReconstructs(before, after, n);
    } else {
      var i := LastTwo(Runs(before, after, n));
      LongRunBreaks(before, after, n, i);
    }
  }

  // ---------- An input that fails ----------

  function Repeated(b: byte, n: nat): (r: seq<byte>)
    ensures |r| == n && forall i :: 0 <= i < n ==> r[i] == b
  {
    seq(n, i => b)
  }

  lemma {:induction false} OneRun(before: seq<byte>, after: seq<byte>, k: nat)
    requires k > 0 && forall i: nat :: i < k ==> Differs(before, after, i)
    ensures Runs(before, after, k) == [Run(0, k)]
  {
    hide Differs;
    if k > 1 { OneRun(before, after, k - 1); }
    assert Differs(before, after, k - 1);
    assert Runs(before, after, k) == NextRuns(Runs(before, after, k - 1), k - 1, true);
  }

  /** Replacing 65536 zeros by ones: even the whole delta does not give the new image. */
  lemma LongRunFails(maxDelta: int)
    requires maxDelta >= 65542
    ensures var before, after := Repeated(0, 65536), Repeated(1, 65536);
            var runs := Runs(before, after, 65536);
            && runs == [Run(0, 65536)] && RoomFor(after, runs, maxDelta)
            && ApplyDelta(Padded(before, 65536), Emitted(after, runs, maxDelta)) != Some(Padded(after, 65536))
  {
    var before, after, run := Repeated(0, 65536), Repeated(1, 65536), Run(0, 65536);
    OneRun(before, after, 65536);
    RoomForOne(after, run, maxDelta);
    EmittedWholeIff(after, [run], maxDelta);
    hide Runs, Records, ApplyDelta, Emitted, Padded, Repeated, RoomFor;
    LongRunsIff(before, after, 65536);
    assert [run][0].len == 65536;
  }

  lemma RoomForOne(after: seq<byte>, run: Run, maxDelta: int)
    requires maxDelta >= 6 + run.len && maxDelta > 10
    ensures RoomFor(after, [run], maxDelta)
  {
    hide Record;
    assert [run][..0] == [] && Records(after, []) == [];
    assert Records(after, [run]) == Records(after, [run][..0]) + Record(after, run);
  }
}
