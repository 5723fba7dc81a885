/**
 * The binary delta between two firmware images: records of a four-byte offset, a two-byte length
 * and that many bytes of the new image, one for each maximal run of changed positions.
 */
module Delta {
  import opened Bits
  import opened Indexing

  const INT_LIMIT: int := 0x8000_0000

  /** An image reads as zero behind its end. */
  function ByteAt(s: seq<byte>, i: nat): byte {
    if i < |s| then s[i] else 0
  }

  function Padded(s: seq<byte>, n: nat): (r: seq<byte>)
    ensures |r| == n
  {
    seq(n, i requires 0 <= i < n => ByteAt(s, i))
  }

  predicate Differs(before: seq<byte>, after: seq<byte>, i: nat) {
    ByteAt(before, i) != ByteAt(after, i)
  }

  /** A range of positions. */
  datatype Run = Run(start: nat, len: nat) {
    function End(): nat {
      start + len
    }
  }

  /** The runs of differing positions below k, from left to right. */
  function Runs(before: seq<byte>, after: seq<byte>, k: nat): seq<Run> {
    if k == 0 then [] else NextRuns(Runs(before, after, k - 1), k - 1, Differs(before, after, k - 1))
  }

  /** A differing position k extends the run that ends just before it, or starts a new one. */
  function NextRuns(runs: seq<Run>, k: nat, differs: bool): seq<Run> {
    if !differs then runs
    else if OpenAt(runs, k) then runs[..|runs| - 1] + [Run(runs[|runs| - 1].start, runs[|runs| - 1].len + 1)]
    else runs + [Run(k, 1)]
  }

  /** The last run reaches up to k. */
  predicate OpenAt(runs: seq<Run>, k: nat) {
    |runs| > 0 && runs[|runs| - 1].End() == k
  }

  // ---------- The format ----------

  function Little4(x: nat): seq<byte> {
    [x % 256, x / 256 % 256, x / 65536 % 256, x / 16777216 % 256]
  }

  function Little2(x: nat): seq<byte> {
    [x % 256, x / 256 % 256]
  }

  function Payload(after: seq<byte>, run: Run): (r: seq<byte>)
    ensures |r| == run.len
  {
    Padded(after, run.End())[run.start..]
  }

  function Record(after: seq<byte>, run: Run): (r: seq<byte>)
    ensures |r| == 6 + run.len
  {
    Little4(run.start) + Little2(run.len) + Payload(after, run)
  }

  function Records(after: seq<byte>, runs: seq<Run>): seq<byte> {
    if |runs| == 0 then [] else Records(after, runs[..|runs| - 1]) + Record(after, runs[|runs| - 1])
  }

  /**
   The records as far as they fit: one is begun only with more than ten bytes left, and its payload is cut
   off at the end.
   */
  function Emitted(after: seq<byte>, runs: seq<Run>, maxDelta: int): seq<byte> {
    if |runs| == 0 then []
    else
      var earlier := Emitted(after, runs[..|runs| - 1], maxDelta);
      if |earlier| < maxDelta - 10
      then earlier + Record(after, runs[|runs| - 1])[..Min(6 + runs[|runs| - 1].len, maxDelta - |earlier|)]
      else earlier
  }

  // ---------- The encoder ----------

  method ComputeDelta(oldFw: seq<byte>, newFw: seq<byte>, delta: array<byte>, maxDelta: int) returns (dpos: nat)
    requires |oldFw| < INT_LIMIT && |newFw| < INT_LIMIT
    requires maxDelta <= delta.Length
    modifies delta
    ensures dpos <= delta.Length
    ensures delta[..dpos] == Emitted(newFw, Runs(oldFw, newFw, Max(|oldFw|, |newFw|)), maxDelta)
    ensures forall k :: dpos <= k < delta.Length ==> delta[k] == old(delta[k])
  {
    var maxLen := Max(|oldFw|, |newFw|);
    dpos := 0;
    var runStart: int, runLen := -1, 0;
    assert Scanned(oldFw, newFw, 0, maxDelta, [], runStart, runLen);
    var i := 0;
    assert delta[..0] == [];
    hide Scanned, Runs, Emitted, Record, OpenAt;
    while i < maxLen && dpos < maxDelta - 10
      invariant 0 <= i <= maxLen && dpos <= delta.Length
      invariant if runStart < 0 then runStart == -1 && runLen == 0 else runLen > 0
      invariant Scanned(oldFw, newFw, i, maxDelta, delta[..dpos], runStart, runLen)
      invariant forall k :: dpos <= k < delta.Length ==> delta[k] == old(delta[k])
    {
      var ob := if i < |oldFw| then oldFw[i] else 0;
      var nb := if i < |newFw| then newFw[i] else 0;
      assert Differs(oldFw, newFw, i) <==> ob != nb;
      ScanOne(oldFw, newFw, i, maxDelta, delta[..dpos], runStart, runLen);
      hide Differs, ByteAt, Min;
      if ob != nb {
        if runStart < 0 {
          runStart, runLen := i, 1;
        } else {
          runLen := runLen + 1;
        }
      } else if runStart >= 0 && runLen > 0 {
        dpos := EmitRun(newFw, runStart, runLen, delta, dpos, maxDelta);
        runStart, runLen := -1, 0;
      }
      i := i + 1;
    }
    ScanEnd(oldFw, newFw, i, maxLen, maxDelta, delta[..dpos], runStart, runLen);
    if runStart >= 0 && runLen > 0 && dpos < maxDelta - 6 {
      dpos := EmitRun(newFw, runStart, runLen, delta, dpos, maxDelta);
    }
  }

  /** The encoder's state after i positions: what is written, and the run still growing. */
  ghost predicate Scanned(before: seq<byte>, after: seq<byte>, i: nat, maxDelta: int, written: seq<byte>,
                          runStart: int, runLen: int) {
    var runs := Runs(before, after, i);
    if runStart < 0 then
      runStart == -1 && runLen == 0 && !OpenAt(runs, i) && written == Emitted(after, runs, maxDelta)
    else
      runLen > 0 && OpenAt(runs, i) && runs[|runs| - 1] == Run(runStart, runLen)
      && written == Emitted(after, runs[..|runs| - 1], maxDelta) && |written| < maxDelta - 10
  }

  /** Writes one record from dpos on, cutting the payload off at maxDelta. */
  method EmitRun(newFw: seq<byte>, runStart: nat, runLen: nat, delta: array<byte>, dpos: nat, maxDelta: int)
    returns (end: nat)
    requires dpos + 6 <= maxDelta <= delta.Length
    modifies delta
    ensures dpos <= end <= delta.Length
    ensures delta[..end]
         == old(delta[..dpos]) + Record(newFw, Run(runStart, runLen))[..Min(6 + runLen, maxDelta - dpos)]
    ensures forall k :: end <= k < delta.Length ==> delta[k] == old(delta[k])
  {
    EmitHeader(runStart, runLen, delta, dpos);
    end := dpos + 6;
    end := EmitPayload(newFw, Run(runStart, runLen), delta, end, maxDelta);
    RecordFront(newFw, Run(runStart, runLen), Min(runLen, maxDelta - dpos - 6));
  }

  method EmitHeader(runStart: nat, runLen: nat, delta: array<byte>, dpos: nat)
    requires dpos + 6 <= delta.Length
    modifies delta
    ensures delta[..dpos + 6] == old(delta[..dpos]) + (Little4(runStart) + Little2(runLen))
    ensures forall k :: dpos + 6 <= k < delta.Length ==> delta[k] == old(delta[k])
  {
    delta[dpos] := runStart % 256;
    delta[dpos + 1] := runStart / 256 % 256;
    delta[dpos + 2] := runStart / 65536 % 256;
    delta[dpos + 3] := runStart / 16777216 % 256;
    delta[dpos + 4] := runLen % 256;
    delta[dpos + 5] := runLen / 256 % 256;
  }

  method EmitPayload(newFw: seq<byte>, run: Run, delta: array<byte>, dpos: nat, maxDelta: int) returns (end: nat)
    requires dpos <= maxDelta <= delta.Length
    modifies delta
    ensures dpos <= end <= delta.Length
    ensures delta[..end] == old(delta[..dpos]) + Payload(newFw, run)[..Min(run.len, maxDelta - dpos)]
    ensures forall k :: end <= k < delta.Length ==> delta[k] == old(delta[k])
  {
    end := dpos;
    var j := 0;
    while j < run.len && end < maxDelta
      invariant 0 <= j <= run.len && end == dpos + j <= maxDelta
      invariant delta[..end] == old(delta[..dpos]) + Payload(newFw, run)[..j]
      invariant forall k :: end <= k < delta.Length ==> delta[k] == old(delta[k])
    {
      ghost var written := delta[..end];
      delta[end] := if run.start + j < |newFw| then newFw[run.start + j] else 0;
      PayloadAt(newFw, run, j);
      end := end + 1;
      j := j + 1;
      assert delta[..end] == written + [delta[end - 1]];
      hide Payload, ByteAt;
      assert Payload(newFw, run)[..j] == Payload(newFw, run)[..j - 1] + [Payload(newFw, run)[j - 1]];
    }
  }

  lemma PayloadAt(after: seq<byte>, run: Run, j: nat)
    requires j < run.len
    ensures Payload(after, run)[j] == if run.start + j < |after| then after[run.start + j] else 0
  {
    assert Payload(after, run)[j] == Padded(after, run.End())[run.start + j];
  }

  lemma RecordFront(after: seq<byte>, run: Run, j: nat)
    requires j <= run.len
    ensures Record(after, run)[..6 + j] == (Little4(run.start) + Little2(run.len)) + Payload(after, run)[..j]
  {
    hide Little4, Little2, Payload;
    assert |Little4(run.start)| == 4 && |Little2(run.len)| == 2 by { LittleLengths(run.start, run.len); }
  }

  lemma LittleLengths(x: nat, y: nat)
    ensures |Little4(x)| == 4 && |Little2(y)| == 2
  {
  }

  lemma ScanOne(before: seq<byte>, after: seq<byte>, i: nat, maxDelta: int, written: seq<byte>, runStart: int,
                runLen: int)
    requires Scanned(before, after, i, maxDelta, written, runStart, runLen) && |written| < maxDelta - 10
    ensures Differs(before, after, i) && runStart < 0 ==> Scanned(before, after, i + 1, maxDelta, written, i, 1)
    ensures Differs(before, after, i) && runStart >= 0 ==>
              Scanned(before, after, i + 1, maxDelta, written, runStart, runLen + 1)
    ensures !Differs(before, after, i) && runStart < 0 ==> Scanned(before, after, i + 1, maxDelta, written, -1, 0)
    ensures !Differs(before, after, i) && runStart >= 0 ==>
            Scanned(before, after, i + 1, maxDelta,
                    written + Record(after, Run(runStart, runLen))[..Min(6 + runLen, maxDelta - |written|)], -1, 0)
  {
    RunsBelow(before, after, i);
  }

  lemma ScanEnd(before: seq<byte>, after: seq<byte>, i: nat, n: nat, maxDelta: int, written: seq<byte>, runStart: int,
                runLen: int)
    requires Scanned(before, after, i, maxDelta, written, runStart, runLen) && i <= n
    requires i == n || |written| >= maxDelta - 10
    ensures runStart < 0 ==> Emitted(after, Runs(before, after, n), maxDelta) == written
    ensures runStart >= 0 ==>
            && |written| < maxDelta - 10 && runLen >= 0
            && Emitted(after, Runs(before, after, n), maxDelta)
               == written + Record(after, Run(runStart, runLen))[..Min(6 + runLen, maxDelta - |written|)]
  {
    if i < n { Saturated(before, after, i, n, maxDelta); }
    hide Record;
  }

  // ---------- The runs are the maximal ranges of change ----------

  /** Non-empty ranges below k with a gap before each next one. */
  ghost predicate Separated(runs: seq<Run>, k: nat) {
    && (forall r :: 0 <= r < |runs| ==> runs[r].len > 0 && runs[r].End() <= k)
    && (forall r :: 0 < r < |runs| ==> runs[r - 1].End() < runs[r].start)
  }

  ghost predicate Covered(runs: seq<Run>, p: nat) {
    exists r :: 0 <= r < |runs| && runs[r].start <= p < runs[r].End()
  }

  lemma NextSeparated(runs: seq<Run>, k: nat, differs: bool)
    requires Separated(runs, k)
    ensures Separated(NextRuns(runs, k, differs), k + 1)
    ensures OpenAt(NextRuns(runs, k, differs), k + 1) <==> differs
  {
  }

  lemma NoRuns()
    ensures Separated([], 0) && !OpenAt([], 0)
  {
  }

  lemma NextCovered(runs: seq<Run>, k: nat, differs: bool, p: nat)
    requires Separated(runs, k)
    ensures Covered(NextRuns(runs, k, differs), p) <==> Covered(runs, p) || (p == k && differs)
  {
    var next := NextRuns(runs, k, differs);
    if Covered(runs, p) {
      var r :| 0 <= r < |runs| && runs[r].start <= p < runs[r].End();
      assert next[r].start <= p < next[r].End();
    }
    if p == k && differs {
      assert next[|next| - 1].start <= p < next[|next| - 1].End();
    }
    if Covered(next, p) && p != k {
      var r :| 0 <= r < |next| && next[r].start <= p < next[r].End();
      assert r < |runs| && runs[r].start <= p < runs[r].End();
    }
  }

  lemma {:induction false} RunsBelow(before: seq<byte>, after: seq<byte>, k: nat)
    ensures Separated(Runs(before, after, k), k)
    ensures OpenAt(Runs(before, after, k), k) <==> k > 0 && Differs(before, after, k - 1)
  {
    if k > 0 {
      RunsBelow(before, after, k - 1);
      NextSeparated(Runs(before, after, k - 1), k - 1, Differs(before, after, k - 1));
    } else {
      NoRuns();
    }
    hide Separated, OpenAt, NextRuns, Differs;
  }

  /** The runs are separate, and a position lies in some run exactly when the images differ there. */
  lemma {:induction false} RunsCoverDifferences(before: seq<byte>, after: seq<byte>, k: nat, p: nat)
    ensures Separated(Runs(before, after, k), k)
    ensures Covered(Runs(before, after, k), p) <==> p < k && Differs(before, after, p)
  {
    RunsBelow(before, after, k);
    if k > 0 {
      RunsCoverDifferences(before, after, k - 1, p);
      NextCovered(Runs(before, after, k - 1), k - 1, Differs(before, after, k - 1), p);
    } else {
      assert !Covered([], p);
    }
    hide Separated, Covered, OpenAt, NextRuns, Differs;
  }

  // ---------- Running out of space ----------

  lemma {:induction false} ClosedPrefix(before: seq<byte>, after: seq<byte>, i: nat, k: nat)
    requires i <= k && !OpenAt(Runs(before, after, i), i)
    ensures |Runs(before, after, i)| <= |Runs(before, after, k)|
    ensures Runs(before, after, i) == Runs(before, after, k)[..|Runs(before, after, i)|]
    ensures |Runs(before, after, k)| == |Runs(before, after, i)| ==> !OpenAt(Runs(before, after, k), k)
  {
    RunsBelow(before, after, i);
    if i < k {
      ClosedPrefix(before, after, i, k - 1);
    }
  }

  lemma {:induction false} EmittedStops(after: seq<byte>, runs: seq<Run>, n: nat, maxDelta: int)
    requires n <= |runs| && |Emitted(after, runs[..n], maxDelta)| >= maxDelta - 10
    ensures Emitted(after, runs, maxDelta) == Emitted(after, runs[..n], maxDelta)
  {
    if n < |runs| {
      assert runs[..|runs| - 1][..n] == runs[..n];
      EmittedStops(after, runs[..|runs| - 1], n, maxDelta);
    } else {
      assert runs[..n] == runs;
    }
  }

  lemma Saturated(before: seq<byte>, after: seq<byte>, i: nat, n: nat, maxDelta: int)
    requires i <= n && !OpenAt(Runs(before, after, i), i)
    requires |Emitted(after, Runs(before, after, i), maxDelta)| >= maxDelta - 10
    ensures Emitted(after, Runs(before, after, n), maxDelta) == Emitted(after, Runs(before, after, i), maxDelta)
  {
    ClosedPrefix(before, after, i, n);
    EmittedStops(after, Runs(before, after, n), |Runs(before, after, i)|, maxDelta);
  }

  /** However small the buffer, what is written is a prefix of the whole delta. */
  lemma {:induction false} EmittedIsPrefix(after: seq<byte>, runs: seq<Run>, maxDelta: int)
    ensures Emitted(after, runs, maxDelta) <= Records(after, runs)
    ensures |Emitted(after, runs, maxDelta)| <= Max(0, maxDelta)
    ensures |Emitted(after, runs, maxDelta)| < maxDelta - 10 ==> Emitted(after, runs, maxDelta) == Records(after, runs)
  {
    if |runs| > 0 { EmittedIsPrefix(after, runs[..|runs| - 1], maxDelta); }
  }

  /** The last record starts with more than ten bytes left, and its end fits. */
  predicate RoomFor(after: seq<byte>, runs: seq<Run>, maxDelta: int) {
    |runs| == 0 || (|Records(after, runs[..|runs| - 1])| < maxDelta - 10 && |Records(after, runs)| <= maxDelta)
  }

  /** The delta is whole exactly when there is room for it. */
  lemma EmittedWholeIff(after: seq<byte>, runs: seq<Run>, maxDelta: int)
    ensures Emitted(after, runs, maxDelta) == Records(after, runs) <==> RoomFor(after, runs, maxDelta)
  {
    EmittedIsPrefix(after, runs, maxDelta);
    if |runs| > 0 { EmittedIsPrefix(after, runs[..|runs| - 1], maxDelta); }
  }

  /** Otherwise it ends behind some record, or within the data of the next one. */
  lemma {:induction false} EmittedForm(after: seq<byte>, runs: seq<Run>, maxDelta: int) returns (m: nat, x: nat)
    ensures m <= |runs| && (m == |runs| ==> x == 0)
    ensures m < |runs| ==> x == 0 || 6 <= x < 6 + runs[m].len
    ensures Emitted(after, runs, maxDelta)
         == Records(after, runs[..m]) + if m < |runs| then Record(after, runs[m])[..x] else []
  {
    hide Record;
    if |runs| == 0 {
      m, x := 0, 0;
    } else {
      var n := |runs| - 1;
      var front := runs[..n];
      m, x := EmittedForm(after, front, maxDelta);
      var earlier := Emitted(after, front, maxDelta);
      if |earlier| >= maxDelta - 10 {
        assert runs[..m] == front[..m];
      } else {
        EmittedIsPrefix(after, front, maxDelta);
        var fits := Min(6 + runs[n].len, maxDelta - |earlier|);
        m, x := if fits == 6 + runs[n].len then n + 1 else n, if fits == 6 + runs[n].len then 0 else fits;
        assert runs[..n + 1] == runs && Record(after, runs[n])[..6 + runs[n].len] == Record(after, runs[n]);
      }
    }
  }

  // ---------- The layout ----------

  lemma {:induction false} UnchangedRuns(before: seq<byte>, after: seq<byte>, k: nat)
    requires forall i :: 0 <= i < k ==> !Differs(before, after, i)
    ensures Runs(before, after, k) == []
  {
    if k > 0 { UnchangedRuns(before, after, k - 1); }
  }

  lemma {:induction false} OnlyRun(before: seq<byte>, after: seq<byte>, at: nat, k: nat)
    requires at < k && Differs(before, after, at)
    requires forall i :: 0 <= i < k && i != at ==> !Differs(before, after, i)
    ensures Runs(before, after, k) == [Run(at, 1)]
  {
    if k == at + 1 { UnchangedRuns(before, after, at); } else { OnlyRun(before, after, at, k - 1); }
  }

  /**
   The delta of images that differ in a single byte, with enough room: the offset, lowest byte first, the
   length 1 and the new byte.
   */
  lemma SingleByteDelta(before: seq<byte>, after: seq<byte>, at: nat, maxDelta: int)
    requires |before| == |after| && at < |after| < 0x8000_0000 && maxDelta > 10
    requires forall i :: 0 <= i < |after| ==> (before[i] != after[i] <==> i == at)
    ensures exists b0: byte, b1: byte, b2: byte, b3: byte ::
              && at == b0 + 0x100 * b1 + 0x1_0000 * b2 + 0x100_0000 * b3
              && Emitted(after, Runs(before, after, |after|), maxDelta) == [b0, b1, b2, b3, 1, 0, after[at]]
  {
    OnlyRun(before, after, at, |after|);
    var run := Run(at, 1);
    assert [run][..0] == [];
    assert Payload(after, run) == [after[at]];
    assert Record(after, run) == Little4(at) + [1, 0] + [after[at]];
    hide Record, Runs;
    var b := Little4(at);
    assert Emitted(after, [run], maxDelta) == Record(after, run)[..7] == [b[0], b[1], b[2], b[3], 1, 0, after[at]];
    DigitsOf(at);
  }

  lemma DigitsOf(x: nat)
    requires x < 0x1_0000_0000
    ensures var b: seq<int> := Little4(x); x == b[0] + 0x100 * b[1] + 0x1_0000 * b[2] + 0x100_0000 * b[3]
  {
    assert x / 65536 == x / 256 / 256 && x / 16777216 == x / 256 / 256 / 256;
  }
}
