/** What every run of update calls keeps, when an update goes through, and what a rollback undoes. */
module OtaRuns {
  import opened Bits
  import opened Indexing
  import opened Ota
  import opened Sums
  import opened Wrappers

  ghost predicate AllSound(calls: seq<Call>) {
    forall i :: 0 <= i < |calls| ==> calls[i].Sound()
  }

  /** The context after a run of calls, whether or not each one succeeds. */
  ghost function Run(c: Context, calls: seq<Call>): (r: Context)
    requires c.WellFormed() && AllSound(calls)
    ensures r.WellFormed()
  {
    if |calls| == 0 then c else Step(Run(c, calls[..|calls| - 1]), calls[|calls| - 1]).context
  }

  /** The result of the call at i in a run. */
  ghost predicate Succeeds(c: Context, calls: seq<Call>, i: nat)
    requires c.WellFormed() && AllSound(calls) && i < |calls|
  {
    Step(Run(c, calls[..i]), calls[i]).ok
  }

  ghost predicate AllSucceed(c: Context, calls: seq<Call>)
    requires c.WellFormed() && AllSound(calls)
  {
    forall i :: 0 <= i < |calls| ==> Succeeds(c, calls, i)
  }

  /** What the caller saw accepted since the last begin that succeeded: its manifest and the chunks. */
  datatype Journal = Journal(manifest: Option<Manifest>, bytes: seq<byte>)

  ghost function Observed(c: Context, calls: seq<Call>): Journal
    requires c.WellFormed() && AllSound(calls)
  {
    if |calls| == 0 then Journal(None, [])
    else
      var n := |calls| - 1;
      var earlier := Observed(c, calls[..n]);
      if !Succeeds(c, calls, n) then earlier
      else match calls[n]
        case Begin(m) => Journal(Some(m), [])
        case Receive(chunk, len) =>
          if 0 < len <= |chunk| then earlier.(bytes := earlier.bytes + chunk[..len]) else earlier
        case _ => earlier
  }

  // ---------- Safety ----------

  ghost predicate OneActiveBank(c: Context) {
    && c.WellFormed()
    && c.Active().active && !c.Inactive().active
    && c.Active().valid && c.Active().version == c.currentVersion
  }

  ghost predicate Pending(c: Context) {
    c.updateState in {DOWNLOADING, VERIFYING, APPLYING, FAILED}
  }

  ghost predicate Safe(c: Context) {
    && OneActiveBank(c)
    && (c.updateState == IDLE || c.updateState == COMMITTED || Pending(c))
    && (Pending(c) ==> ManifestVerified(c, c.currentManifest) && c.totalSize == c.currentManifest.fwSize)
    && (c.updateState == DOWNLOADING ==> c.bytesReceived < c.totalSize)
    && (c.updateState == APPLYING ==> Applied(c))
  }

  ghost predicate Applied(c: Context)
    requires c.WellFormed()
  {
    && c.bytesReceived == c.totalSize
    && PolyHash(c.receiveBuffer[..c.bytesReceived]) == PolyHash(c.currentManifest.fwHash)
    && c.Inactive().valid && c.Inactive().version == c.currentManifest.fwVersion
    && c.Inactive().fwHash == c.currentManifest.fwHash
  }

  lemma StepIsSafe(c: Context, call: Call)
    requires Safe(c) && call.Sound()
    ensures Safe(Step(c, call).context)
  {
    hide PolyHash;
  }

  lemma InitialIsSafe(id: DeviceId)
    ensures Safe(Initial(id))
  {
  }

  lemma {:induction false} RunIsSafe(c: Context, calls: seq<Call>)
    requires Safe(c) && AllSound(calls)
    ensures Safe(Run(c, calls))
  {
    if |calls| > 0 {
      var front := calls[..|calls| - 1];
      RunIsSafe(c, front);
      StepIsSafe(Run(c, front), calls[|calls| - 1]);
    }
  }

  /** The receive buffer holds exactly the accepted bytes, and the stored manifest is the accepted one. */
  ghost predicate Matches(c: Context, j: Journal)
    requires c.WellFormed()
  {
    c.updateState != IDLE ==> j.manifest == Some(c.currentManifest) && j.bytes == c.receiveBuffer[..c.bytesReceived]
  }

  lemma ReceiveAppends(c: Context, chunk: seq<byte>, len: int)
    requires Safe(c) && Receive(chunk, len).Sound() && AfterReceive(c, chunk, len).ok
    ensures var after := AfterReceive(c, chunk, len).context;
            && 0 < len <= MAX_CHUNK
            && after.receiveBuffer[..after.bytesReceived] == c.receiveBuffer[..c.bytesReceived] + chunk[..len]
  {
  }

  lemma {:induction false} JournalMatches(c: Context, calls: seq<Call>)
    requires Safe(c) && c.updateState == IDLE && AllSound(calls)
    ensures Matches(Run(c, calls), Observed(c, calls))
  {
    if |calls| > 0 {
      var n := |calls| - 1;
      JournalMatches(c, calls[..n]);
      RunIsSafe(c, calls[..n]);
      MatchesStep(Run(c, calls[..n]), Observed(c, calls[..n]), calls[n], Observed(c, calls));
    }
  }

  lemma MatchesStep(c: Context, j: Journal, call: Call, j': Journal)
    requires Safe(c) && Matches(c, j) && call.Sound()
    requires Step(c, call).ok && call.Begin? ==> j' == Journal(Some(call.manifest), [])
    requires Step(c, call).ok && call.Receive? && 0 < call.len <= |call.chunk| ==>
               j' == j.(bytes := j.bytes + call.chunk[..call.len])
    requires !Step(c, call).ok || !(call.Begin? || (call.Receive? && 0 < call.len <= |call.chunk|)) ==> j' == j
    ensures Matches(Step(c, call).context, j')
  {
    hide PolyHash;
    if call.Receive? && Step(c, call).ok {
      ReceiveAppends(c, call.chunk, call.len);
    }
  }

  /** The version, the active bank and its contents. */
  ghost predicate SameFirmware(a: Context, b: Context)
    requires a.WellFormed() && b.WellFormed()
  {
    a.currentVersion == b.currentVersion && a.activeBank == b.activeBank && a.Active() == b.Active()
  }

  /** The evidence a switch to version rests on. */
  ghost predicate Justified(id: DeviceId, j: Journal, version: uint32) {
    && j.manifest.Some?
    && j.manifest.value.fwVersion == version
    && j.manifest.value.deviceId == id
    && |j.bytes| == j.manifest.value.fwSize
    && PolyHash(j.bytes) == PolyHash(j.manifest.value.fwHash)
  }

  lemma StepKeepsFirmware(c: Context, call: Call)
    requires Safe(c) && call.Sound()
    ensures var after := Step(c, call);
            if call.Commit? && after.ok then
              c.updateState == APPLYING
              && after.context.currentVersion == c.currentManifest.fwVersion > c.currentVersion
            else SameFirmware(c, after.context)
  {
    hide PolyHash;
  }

  /**
   * In every run from initialisation the firmware in force changes at a successful commit only,
   * always to a higher version, and only when the chunks accepted since the last accepted
   * manifest have exactly the size and the hash the manifest announced.
   */
  lemma SwitchIsJustified(id: DeviceId, calls: seq<Call>)
    requires AllSound(calls) && |calls| > 0
    ensures var c, n := Initial(id), |calls| - 1;
            var before, after := Run(c, calls[..n]), Run(c, calls);
            && OneActiveBank(after)
            && (if calls[n].Commit? && Succeeds(c, calls, n) then
                  before.currentVersion < after.currentVersion
                    && Justified(id, Observed(c, calls[..n]), after.currentVersion)
                else SameFirmware(before, after))
  {
    var c, n := Initial(id), |calls| - 1;
    var before := Run(c, calls[..n]);
    InitialIsSafe(id);
    RunIsSafe(c, calls[..n]);
    RunIsSafe(c, calls);
    StepKeepsFirmware(before, calls[n]);
    JournalMatches(c, calls[..n]);
    DeviceIdStays(c, calls[..n]);
    hide PolyHash, Step, Run, Observed;
  }

  lemma {:induction false} DeviceIdStays(c: Context, calls: seq<Call>)
    requires c.WellFormed() && AllSound(calls)
    ensures Run(c, calls).deviceId == c.deviceId
  {
    if |calls| > 0 { DeviceIdStays(c, calls[..|calls| - 1]); }
  }

  // ---------- A committed context is final ----------

  lemma {:induction false} CommittedIsFinal(c: Context, calls: seq<Call>)
    requires c.WellFormed() && c.updateState == COMMITTED && AllSound(calls)
    ensures Run(c, calls) == c && forall i :: 0 <= i < |calls| ==> !Succeeds(c, calls, i)
  {
    if |calls| > 0 {
      var n := |calls| - 1;
      CommittedIsFinal(c, calls[..n]);
      forall i | 0 <= i < |calls| ensures !Succeeds(c, calls, i) {
        if i < n {
          assert calls[..n][..i] == calls[..i];
          assert !Succeeds(c, calls[..n], i);
        }
      }
    }
  }

  lemma {:induction false} RunConcat(c: Context, first: seq<Call>, second: seq<Call>)
    requires c.WellFormed() && AllSound(first) && AllSound(second)
    ensures AllSound(first + second)
    ensures Run(c, first + second) == Run(Run(c, first), second)
  {
    if |second| == 0 {
      assert first + second == first;
    } else {
      var n := |second| - 1;
      RunConcat(c, first, second[..n]);
      assert (first + second)[..|first| + n] == first + second[..n];
    }
  }

  /** What succeeds after a first part is what succeeds from the context that part leaves. */
  lemma SucceedsConcat(c: Context, first: seq<Call>, second: seq<Call>, i: nat)
    requires c.WellFormed() && AllSound(first) && AllSound(second) && i < |second|
    ensures AllSound(first + second)
    ensures Succeeds(c, first + second, |first| + i) == Succeeds(Run(c, first), second, i)
  {
    RunConcat(c, first, second[..i]);
    assert (first + second)[..|first| + i] == first + second[..i];
  }

  /** No run holds two successful commits: the context has to be initialised again. */
  lemma AtMostOneCommit(c: Context, calls: seq<Call>, i: nat, j: nat)
    requires c.WellFormed() && AllSound(calls) && i < j < |calls|
    requires calls[i].Commit? && Succeeds(c, calls, i)
    ensures !Succeeds(c, calls, j)
  {
    var first, second := calls[..i + 1], calls[i + 1..];
    assert calls == first + second;
    assert first[..i] == calls[..i];
    CommittedIsFinal(Run(c, first), second);
    SucceedsConcat(c, first, second, j - (i + 1));
  }

  // ---------- Rollback ----------

  ghost predicate SameBank(a: FirmwareBank, b: FirmwareBank) {
    a.version == b.version && a.active == b.active && a.valid == b.valid && a.fwHash == b.fwHash
  }

  ghost predicate SameTransfer(a: Context, b: Context) {
    && a.bytesReceived == b.bytesReceived && a.totalSize == b.totalSize
    && a.currentManifest == b.currentManifest && a.receiveBuffer == b.receiveBuffer
  }

  /** No later call tells the two contexts apart. */
  ghost predicate Alike(a: Context, b: Context) {
    && Safe(a) && Safe(b)
    && a.updateState == b.updateState && a.deviceId == b.deviceId
    && a.activeBank == b.activeBank && a.currentVersion == b.currentVersion && SameBank(a.Active(), b.Active())
    && (a.updateState != IDLE ==> SameTransfer(a, b))
    && (a.updateState == APPLYING ==> SameBank(a.Inactive(), b.Inactive()))
  }

  lemma AlikeBegin(a: Context, b: Context, m: Manifest)
    requires Alike(a, b)
    ensures AfterBegin(a, m).ok == AfterBegin(b, m).ok
    ensures Alike(AfterBegin(a, m).context, AfterBegin(b, m).context)
  {
    StepIsSafe(a, Begin(m));
    StepIsSafe(b, Begin(m));
    assert ManifestVerified(a, m) == ManifestVerified(b, m);
    hide PolyHash, Applied, ManifestVerified, Zeros;
  }

  lemma AlikeReceive(a: Context, b: Context, chunk: seq<byte>, len: int)
    requires Alike(a, b) && Receive(chunk, len).Sound()
    ensures AfterReceive(a, chunk, len).ok == AfterReceive(b, chunk, len).ok
    ensures Alike(AfterReceive(a, chunk, len).context, AfterReceive(b, chunk, len).context)
  {
    StepIsSafe(a, Receive(chunk, len));
    StepIsSafe(b, Receive(chunk, len));
    hide PolyHash, Applied, ManifestVerified, WrappedSum;
  }

  lemma AlikeApply(a: Context, b: Context, call: Call)
    requires Alike(a, b) && call.Sound() && !call.Begin? && !call.Receive?
    ensures Step(a, call).ok == Step(b, call).ok && Alike(Step(a, call).context, Step(b, call).context)
  {
    StepIsSafe(a, call);
    StepIsSafe(b, call);
    hide PolyHash, ManifestVerified, Applied;
  }

  lemma AlikeWellFormed(a: Context, b: Context)
    requires Alike(a, b)
    ensures a.WellFormed() && b.WellFormed()
  {
  }

  lemma AlikeStep(a: Context, b: Context, call: Call)
    requires Alike(a, b) && call.Sound()
    ensures Step(a, call).ok == Step(b, call).ok && Alike(Step(a, call).context, Step(b, call).context)
  {
    hide Alike, AfterBegin, AfterReceive, AfterVerify, AfterCommit, AfterRollback;
    assert a.WellFormed() && b.WellFormed() by { AlikeWellFormed(a, b); }
    match call {
      case Begin(m) => AlikeBegin(a, b, m);
      case Receive(chunk, len) => AlikeReceive(a, b, chunk, len);
      case _ => AlikeApply(a, b, call);
    }
  }

  lemma {:induction false} AlikeRuns(a: Context, b: Context, calls: seq<Call>)
    requires Alike(a, b) && AllSound(calls)
    ensures Alike(Run(a, calls), Run(b, calls))
    ensures forall i :: 0 <= i < |calls| ==> Succeeds(a, calls, i) == Succeeds(b, calls, i)
  {
    if |calls| > 0 {
      var n := |calls| - 1;
      AlikeRuns(a, b, calls[..n]);
      AlikeStep(Run(a, calls[..n]), Run(b, calls[..n]), calls[n]);
      forall i | 0 <= i < |calls| ensures Succeeds(a, calls, i) == Succeeds(b, calls, i) {
        if i < n {
          assert calls[..n][..i] == calls[..i];
          assert Succeeds(a, calls[..n], i) == Succeeds(b, calls[..n], i);
        }
      }
    }
  }

  lemma {:induction false} FirmwareStays(c: Context, calls: seq<Call>)
    requires Safe(c) && c.updateState == IDLE && AllSound(calls)
    ensures Safe(Run(c, calls)) && Run(c, calls).deviceId == c.deviceId
    ensures Run(c, calls).updateState != COMMITTED ==> SameFirmware(c, Run(c, calls))
  {
    RunIsSafe(c, calls);
    DeviceIdStays(c, calls);
    if |calls| > 0 {
      var front := calls[..|calls| - 1];
      FirmwareStays(c, front);
      StepKeepsFirmware(Run(c, front), calls[|calls| - 1]);
      hide PolyHash, Safe;
      assert Run(c, front).updateState == COMMITTED ==> Run(c, calls).updateState == COMMITTED;
    }
  }

  /**
   * A run that ends in a successful rollback leaves the firmware as before, and leaves no trace:
   * whatever is called next succeeds exactly when it would have without the abandoned update,
   * and ends in the same version, active bank and image.
   */
  lemma RollbackForgets(c: Context, calls: seq<Call>, next: seq<Call>)
    requires Safe(c) && c.updateState == IDLE && AllSound(calls) && AllSound(next) && |calls| > 0
    requires calls[|calls| - 1].Rollback? && Succeeds(c, calls, |calls| - 1)
    ensures Run(c, calls).updateState == IDLE && SameFirmware(c, Run(c, calls))
    ensures Run(c, calls).Inactive() == FirmwareBank(0, 0, 0, false, false, seq(32, _ => 0))
    ensures AllSound(calls + next) && Alike(Run(c, calls + next), Run(c, next))
    ensures forall i :: 0 <= i < |next| ==> Succeeds(c, calls + next, |calls| + i) == Succeeds(c, next, i)
  {
    FirmwareStays(c, calls);
    var c' := Run(c, calls);
    AlikeRuns(c', c, next);
    RunConcat(c, calls, next);
    forall i | 0 <= i < |next| ensures Succeeds(c, calls + next, |calls| + i) == Succeeds(c, next, i) {
      SucceedsConcat(c, calls, next, i);
      assert Succeeds(c', next, i) == Succeeds(c, next, i);
    }
  }

  // ---------- When an update goes through ----------

  ghost function Concat(chunks: seq<seq<byte>>): seq<byte> {
    if |chunks| == 0 then [] else Concat(chunks[..|chunks| - 1]) + chunks[|chunks| - 1]
  }

  function Receives(chunks: seq<seq<byte>>): (r: seq<Call>)
    ensures |r| == |chunks|
  {
    seq(|chunks|, i requires 0 <= i < |chunks| => Receive(chunks[i], |chunks[i]|))
  }

  ghost predicate ProperSizes(chunks: seq<seq<byte>>) {
    forall i :: 0 <= i < |chunks| ==> 1 <= |chunks[i]| <= 256
  }

  ghost predicate Started(c: Context) {
    Safe(c) && c.updateState == DOWNLOADING && c.bytesReceived == 0
  }

  /** Everything before the last chunk leaves something to receive, and the whole fits the buffer. */
  ghost predicate Fits(c: Context, chunks: seq<seq<byte>>) {
    && ProperSizes(chunks)
    && |Concat(chunks)| <= 65536
    && (|chunks| > 0 ==> |Concat(chunks[..|chunks| - 1])| < c.totalSize)
  }

  ghost predicate Holds(c: Context, after: Context, bytes: seq<byte>)
    requires after.WellFormed()
  {
    && after.bytesReceived == |bytes| && after.receiveBuffer[..after.bytesReceived] == bytes
    && after.totalSize == c.totalSize && after.currentManifest == c.currentManifest
    && after.updateState == if |bytes| >= c.totalSize then VERIFYING else DOWNLOADING
  }

  lemma FitsFront(c: Context, chunks: seq<seq<byte>>)
    requires Started(c) && |chunks| > 0 && Fits(c, chunks)
    ensures Fits(c, chunks[..|chunks| - 1])
  {
    var front := chunks[..|chunks| - 1];
    if |front| > 0 {
      assert |Concat(front)| >= |Concat(front[..|front| - 1])|;
    }
    assert ProperSizes(front);
  }

  lemma ReceiveOne(c: Context, before: Context, bytes: seq<byte>, chunk: seq<byte>)
    requires Started(c) && Safe(before) && Holds(c, before, bytes)
    ensures var after := AfterReceive(before, chunk, |chunk|);
            && (after.ok <==> 0 < |chunk| <= MAX_CHUNK && |bytes| + |chunk| <= MAX_PAYLOAD && |bytes| < c.totalSize)
            && (after.ok ==> Holds(c, after.context, bytes + chunk))
  {
    hide PolyHash;
    if AfterReceive(before, chunk, |chunk|).ok {
      ReceiveAppends(before, chunk, |chunk|);
      assert chunk[..|chunk|] == chunk;
    }
  }

  lemma ReceivesFront(chunks: seq<seq<byte>>)
    requires |chunks| > 0
    ensures Receives(chunks)[..|chunks| - 1] == Receives(chunks[..|chunks| - 1])
  {
  }

  lemma AllSucceedStep(c: Context, calls: seq<Call>)
    requires c.WellFormed() && AllSound(calls) && |calls| > 0
    ensures AllSucceed(c, calls) <==> AllSucceed(c, calls[..|calls| - 1]) && Succeeds(c, calls, |calls| - 1)
  {
    var n := |calls| - 1;
    forall i | 0 <= i < n ensures Succeeds(c, calls, i) == Succeeds(c, calls[..n], i) {
      assert calls[..n][..i] == calls[..i];
    }
  }

  lemma {:induction false} Download(c: Context, chunks: seq<seq<byte>>)
    requires Started(c)
    ensures AllSucceed(c, Receives(chunks)) <==> Fits(c, chunks)
    ensures Fits(c, chunks) ==> Holds(c, Run(c, Receives(chunks)), Concat(chunks))
  {
    if |chunks| == 0 {
      assert c.receiveBuffer[..0] == [];
    } else {
      var n := |chunks| - 1;
      Download(c, chunks[..n]);
      ReceivesFront(chunks);
      AllSucceedStep(c, Receives(chunks));
      var before := Run(c, Receives(chunks[..n]));
      RunIsSafe(c, Receives(chunks[..n]));
      if Fits(c, chunks[..n]) {
        ReceiveOne(c, before, Concat(chunks[..n]), chunks[n]);
        LastChunk(c, chunks);
      } else if Fits(c, chunks) {
        FitsFront(c, chunks);
        assert false;
      }
      hide PolyHash, Fits, Safe, Holds, AfterReceive;
    }
  }

  lemma LastChunk(c: Context, chunks: seq<seq<byte>>)
    requires Started(c) && |chunks| > 0 && Fits(c, chunks[..|chunks| - 1])
    ensures var front, last := Concat(chunks[..|chunks| - 1]), chunks[|chunks| - 1];
            && Concat(chunks) == front + last
            && (Fits(c, chunks) <==>
                0 < |last| <= MAX_CHUNK && |front| + |last| <= MAX_PAYLOAD && |front| < c.totalSize)
  {
  }

  function WholeUpdate(m: Manifest, chunks: seq<seq<byte>>): seq<Call> {
    [Begin(m)] + (Receives(chunks) + [VerifyAndApply, Commit])
  }

  ghost predicate Acceptable(c: Context, m: Manifest) {
    && m.fwVersion > c.currentVersion
    && 1 <= m.fwSize <= 65536
    && m.deviceId == c.deviceId
    && m.minBootloaderVer <= 1
    && (exists k :: 0 <= k < 32 && m.fwHash[k] != 0)
  }

  lemma AcceptableIff(c: Context, m: Manifest)
    ensures ManifestVerified(c, m) <==> Acceptable(c, m)
  {
    if m.fwHash != NO_HASH {
      var k :| 0 <= k < 32 && m.fwHash[k] != NO_HASH[k];
    }
  }

  /** The image a manifest announces. */
  ghost predicate Announces(m: Manifest, image: seq<byte>) {
    |image| == m.fwSize && PolyHash(image) == PolyHash(m.fwHash)
  }

  lemma AllSucceedConcat(c: Context, first: seq<Call>, second: seq<Call>)
    requires c.WellFormed() && AllSound(first) && AllSound(second)
    ensures AllSound(first + second)
    ensures AllSucceed(c, first + second) <==> AllSucceed(c, first) && AllSucceed(Run(c, first), second)
  {
    forall i | 0 <= i < |second|
      ensures Succeeds(c, first + second, |first| + i) == Succeeds(Run(c, first), second, i) {
      SucceedsConcat(c, first, second, i);
    }
    forall i | 0 <= i < |first| ensures Succeeds(c, first + second, i) == Succeeds(c, first, i) {
      assert (first + second)[..i] == first[..i];
    }
    if AllSucceed(c, first + second) {
      forall i | 0 <= i < |second| ensures Succeeds(Run(c, first), second, i) {
        assert Succeeds(c, first + second, |first| + i);
      }
    }
    if AllSucceed(c, first) && AllSucceed(Run(c, first), second) {
      forall i | 0 <= i < |first + second| ensures Succeeds(c, first + second, i) {
        if i >= |first| { assert Succeeds(Run(c, first), second, i - |first|); }
      }
    }
  }

  lemma RunOne(c: Context, call: Call)
    requires c.WellFormed() && call.Sound()
    ensures AllSound([call]) && Run(c, [call]) == Step(c, call).context
    ensures AllSucceed(c, [call]) <==> Step(c, call).ok
  {
    assert Run(c, [call][..0]) == c;
    assert Succeeds(c, [call], 0) <==> Step(c, call).ok;
  }

  /** The bank switch an update to m amounts to. */
  ghost predicate Switched(c: Context, after: Context, m: Manifest)
    requires c.WellFormed() && after.WellFormed()
  {
    && after.activeBank == 1 - c.activeBank && after.currentVersion == m.fwVersion
    && after.Active().fwHash == m.fwHash && after.Inactive() == c.Active().(active := false)
  }

  lemma ApplyAndCommit(c: Context)
    requires Safe(c)
    ensures AllSound([VerifyAndApply, Commit])
    ensures AllSucceed(c, [VerifyAndApply, Commit]) <==>
            c.updateState == VERIFYING && c.bytesReceived == c.totalSize
            && PolyHash(c.receiveBuffer[..c.bytesReceived]) == PolyHash(c.currentManifest.fwHash)
    ensures AllSucceed(c, [VerifyAndApply, Commit]) ==>
            Switched(c, Run(c, [VerifyAndApply, Commit]), c.currentManifest)
  {
    var verified := Step(c, VerifyAndApply);
    assert [VerifyAndApply, Commit] == [VerifyAndApply] + [Commit];
    AllSucceedConcat(c, [VerifyAndApply], [Commit]);
    RunConcat(c, [VerifyAndApply], [Commit]);
    RunOne(c, VerifyAndApply);
    RunOne(verified.context, Commit);
    hide Run, AllSucceed, PolyHash;
  }

  lemma FullImageFits(c: Context, chunks: seq<seq<byte>>)
    requires Started(c) && ProperSizes(chunks) && |Concat(chunks)| == c.totalSize
    ensures Fits(c, chunks)
  {
  }

  lemma DownloadThenCommit(c: Context, chunks: seq<seq<byte>>)
    requires Started(c)
    ensures var calls := Receives(chunks) + [VerifyAndApply, Commit];
            && AllSound(calls)
            && (AllSucceed(c, calls) <==> ProperSizes(chunks) && Announces(c.currentManifest, Concat(chunks)))
            && (AllSucceed(c, calls) ==> Switched(c, Run(c, calls), c.currentManifest))
  {
    var rest := [VerifyAndApply, Commit];
    var full := Run(c, Receives(chunks));
    Download(c, chunks);
    RunIsSafe(c, Receives(chunks));
    FirmwareWhileDownloading(c, Receives(chunks));
    ApplyAndCommit(full);
    if ProperSizes(chunks) && Announces(c.currentManifest, Concat(chunks)) { FullImageFits(c, chunks); }
    AllSucceedConcat(c, Receives(chunks), rest);
    RunConcat(c, Receives(chunks), rest);
    hide Run, AllSucceed, PolyHash, AllSound;
  }

  lemma {:induction false} FirmwareWhileDownloading(c: Context, calls: seq<Call>)
    requires Safe(c) && AllSound(calls) && forall i :: 0 <= i < |calls| ==> calls[i].Receive?
    ensures SameFirmware(c, Run(c, calls))
  {
    if |calls| > 0 {
      var n := |calls| - 1;
      FirmwareWhileDownloading(c, calls[..n]);
      RunIsSafe(c, calls[..n]);
      StepKeepsFirmware(Run(c, calls[..n]), calls[n]);
      hide Safe, PolyHash;
    }
  }

  /**
   * A complete update goes through exactly when the manifest is acceptable, every chunk has
   * 1 to 256 bytes, and the chunks together are an image the manifest announces.
   * It then runs the announced version from the other bank and keeps the old image beside it.
   */
  lemma UpdateSucceedsIff(c: Context, m: Manifest, chunks: seq<seq<byte>>)
    requires Safe(c) && c.updateState == IDLE
    ensures AllSound(WholeUpdate(m, chunks))
    ensures AllSucceed(c, WholeUpdate(m, chunks)) <==>
            Acceptable(c, m) && ProperSizes(chunks) && Announces(m, Concat(chunks))
    ensures AllSucceed(c, WholeUpdate(m, chunks)) ==> Switched(c, Run(c, WholeUpdate(m, chunks)), m)
  {
    var begun := AfterBegin(c, m).context;
    var rest := Receives(chunks) + [VerifyAndApply, Commit];
    assert AllSound(rest);
    RunOne(c, Begin(m));
    AllSucceedConcat(c, [Begin(m)], rest);
    RunConcat(c, [Begin(m)], rest);
    StepIsSafe(c, Begin(m));
    AcceptableIff(c, m);
    if AfterBegin(c, m).ok {
      DownloadThenCommit(begun, chunks);
    }
    hide Run, AllSucceed, PolyHash, AllSound, AfterVerify, AfterCommit, AfterReceive, AfterRollback, Acceptable;
  }

  // ---------- What the hash is and detects ----------

  function PowerOf31(n: nat): nat {
    if n == 0 then 1 else 31 * PowerOf31(n - 1)
  }

  /** Each byte times 31 to the number of bytes after it. */
  function HashTerms(s: seq<byte>): (r: seq<int>) {
    seq(|s|, i requires 0 <= i < |s| => s[i] * PowerOf31(|s| - 1 - i))
  }

  lemma StepModulo(x: int, c: byte)
    ensures HashStep(x % 0x1_0000_0000, c) == (31 * x + c) % 0x1_0000_0000
  {
    var wraps := x / 0x1_0000_0000;
    assert 31 * x + c == 31 * (x % 0x1_0000_0000) + c + 31 * wraps * 0x1_0000_0000;
    var low := 31 * (x % 0x1_0000_0000) + c;
    FloorUnique(31 * x + c, 0x1_0000_0000, low / 0x1_0000_0000 + 31 * wraps, low % 0x1_0000_0000);
  }

  lemma {:induction false} HashIsPolynomial(s: seq<byte>)
    ensures PolyHash(s) == Sum(HashTerms(s)) % 0x1_0000_0000
  {
    if |s| > 0 {
      var n := |s| - 1;
      HashIsPolynomial(s[..n]);
      var shifted := seq(n, i requires 0 <= i < n => 31 * HashTerms(s[..n])[i]);
      SumScale(HashTerms(s[..n]), shifted, 31);
      forall i | 0 <= i < n ensures HashTerms(s)[i] == shifted[i] {
        assert s[..n][i] == s[i] && |s| - 1 - i == (n - 1 - i) + 1;
        ShiftTerm(s[i], n - 1 - i);
      }
      assert HashTerms(s)[n] == s[n] * PowerOf31(0) == s[n];
      assert HashTerms(s) == shifted + [s[n] as int];
      SumAppend(shifted, s[n]);
      StepModulo(Sum(HashTerms(s[..n])), s[n]);
      hide Sum, HashStep;
    }
  }

  lemma ShiftTerm(x: byte, n: nat)
    ensures x * PowerOf31(n + 1) == 31 * (x * PowerOf31(n))
  {
  }

  const INVERSE_OF_31: int := 3186588639

  /** 31 has an inverse modulo 2^32, so a step loses nothing of the state. */
  lemma HashStepInjective(h: uint32, h': uint32, c: byte)
    requires HashStep(h, c) == HashStep(h', c)
    ensures h == h'
  {
    Undo(h, c);
    Undo(h', c);
  }

  lemma Undo(h: uint32, c: byte)
    ensures (HashStep(h, c) - c) * INVERSE_OF_31 % WORD_SIZE == h
  {
    var wraps := (h * 31 + c) / WORD_SIZE;
    var x := (HashStep(h, c) - c) * INVERSE_OF_31;
    assert HashStep(h, c) - c == h * 31 - wraps * WORD_SIZE;
    assert 31 * INVERSE_OF_31 == 23 * WORD_SIZE + 1;
    FloorUnique(x, WORD_SIZE, h * 23 - wraps * INVERSE_OF_31, h);
  }

  /** Images of one length that differ in a single byte never have the same hash. */
  lemma {:induction false} OneByteDamageDetected(s: seq<byte>, t: seq<byte>, at: nat)
    requires |s| == |t| && at < |s| && s[at] != t[at]
    requires forall i :: 0 <= i < |s| && i != at ==> s[i] == t[i]
    ensures PolyHash(s) != PolyHash(t)
  {
    var n := |s| - 1;
    if at == n {
      assert s[..n] == t[..n];
    } else {
      OneByteDamageDetected(s[..n], t[..n], at);
      if PolyHash(s) == PolyHash(t) {
        HashStepInjective(PolyHash(s[..n]), PolyHash(t[..n]), s[n]);
      }
    }
  }

  /** What two adjacent bytes add to the hash before anything wraps. */
  function Pair(x: int, y: int): int {
    31 * x + y
  }

  /** Two steps shift a word by 31^2 and add both bytes. */
  lemma TwoSteps(h: uint32, x: byte, y: byte)
    ensures HashStep(HashStep(h, x), y) == (h * 961 + Pair(x, y)) % WORD_SIZE
  {
    var wraps := (h * 31 + x) / WORD_SIZE;
    assert HashStep(h, x) == h * 31 + x - wraps * WORD_SIZE;
    var total := h * 961 + Pair(x, y);
    assert HashStep(h, x) * 31 + y == total - 31 * wraps * WORD_SIZE;
    FloorUnique(HashStep(h, x) * 31 + y, WORD_SIZE, total / WORD_SIZE - 31 * wraps, total % WORD_SIZE);
  }

  lemma CloseRemainders(a: int, b: int)
    requires a < b + WORD_SIZE && b < a + WORD_SIZE
    ensures a % WORD_SIZE == b % WORD_SIZE <==> a == b
  {
  }

  lemma TwoStepsIff(h: uint32, x: byte, y: byte, x': byte, y': byte)
    ensures HashStep(HashStep(h, x), y) == HashStep(HashStep(h, x'), y') <==> Pair(x, y) == Pair(x', y')
  {
    hide HashStep;
    TwoSteps(h, x, y);
    TwoSteps(h, x', y');
    CloseRemainders(h * 961 + Pair(x, y), h * 961 + Pair(x', y'));
  }

  /**
   Images of one length that differ in two adjacent bytes at most have the same hash exactly when the
   differences cancel.
   */
  lemma {:induction false} AdjacentBytesCollideIff(s: seq<byte>, t: seq<byte>, at: nat)
    requires |s| == |t| && at + 1 < |s|
    requires forall i :: 0 <= i < |s| && i != at && i != at + 1 ==> s[i] == t[i]
    ensures PolyHash(s) == PolyHash(t) <==> Pair(s[at], s[at + 1]) == Pair(t[at], t[at + 1])
  {
    hide HashStep;
    var n := |s| - 1;
    if at + 1 == n {
      assert s[..n][..at] == t[..n][..at];
      TwoStepsIff(PolyHash(s[..n][..at]), s[at], s[n], t[at], t[n]);
    } else {
      AdjacentBytesCollideIff(s[..n], t[..n], at);
      if PolyHash(s) == PolyHash(t) {
        HashStepInjective(PolyHash(s[..n]), PolyHash(t[..n]), s[n]);
      }
    }
  }

  /** So two bytes can cancel. */
  lemma TwoBytesCanCollide()
    ensures PolyHash([0, 31]) == PolyHash([1, 0])
  {
    AdjacentBytesCollideIff([0, 31], [1, 0], 0);
  }

  /** An image with one wrong byte is never installed. */
  lemma DamagedUpdateFails(c: Context, m: Manifest, image: seq<byte>, chunks: seq<seq<byte>>, at: nat)
    requires Safe(c) && c.updateState == IDLE && Announces(m, image)
    requires |Concat(chunks)| == |image| && at < |image| && Concat(chunks)[at] != image[at]
    requires forall i :: 0 <= i < |image| && i != at ==> Concat(chunks)[i] == image[i]
    ensures AllSound(WholeUpdate(m, chunks)) && !AllSucceed(c, WholeUpdate(m, chunks))
  {
    UpdateSucceedsIff(c, m, chunks);
    OneByteDamageDetected(Concat(chunks), image, at);
  }

  // ---------- The address a rollback erases ----------

  ghost predicate RolledBack(c: Context, calls: seq<Call>)
    requires c.WellFormed() && AllSound(calls)
  {
    exists i :: 0 <= i < |calls| && UndoneAt(c, calls, i)
  }

  /** A rollback is called while an update is under way or has failed. */
  ghost predicate UndoneAt(c: Context, calls: seq<Call>, i: nat)
    requires c.WellFormed() && AllSound(calls) && i < |calls|
  {
    calls[i].Rollback? && Run(c, calls[..i]).updateState !in {IDLE, COMMITTED}
  }

  /**
   * The second bank keeps its flash address exactly as long as no rollback is called during an
   * update: a rollback erases the whole bank record and no call restores the address, so an update
   * after it runs from a bank recorded at address 0.
   */
  lemma {:induction false} AddressKeptIff(id: DeviceId, calls: seq<Call>)
    requires AllSound(calls)
    ensures var c := Initial(id);
            Run(c, calls).banks[1].baseAddr == if RolledBack(c, calls) then 0 else 0x0801_0000
    ensures Run(Initial(id), calls).activeBank == 1 <==> Run(Initial(id), calls).updateState == COMMITTED
  {
    var c := Initial(id);
    if |calls| > 0 {
      var n := |calls| - 1;
      AddressKeptIff(id, calls[..n]);
      RolledBackStep(c, calls);
      hide PolyHash;
    }
  }

  lemma RolledBackStep(c: Context, calls: seq<Call>)
    requires c.WellFormed() && AllSound(calls) && |calls| > 0
    ensures RolledBack(c, calls) <==> RolledBack(c, calls[..|calls| - 1]) || UndoneAt(c, calls, |calls| - 1)
  {
    hide Run;
    var n := |calls| - 1;
    forall i | 0 <= i < n ensures UndoneAt(c, calls, i) == UndoneAt(c, calls[..n], i) {
      assert calls[..n][..i] == calls[..i];
    }
    hide UndoneAt;
    if RolledBack(c, calls[..n]) {
      var i :| 0 <= i < n && UndoneAt(c, calls[..n], i);
      assert UndoneAt(c, calls, i);
    }
    if RolledBack(c, calls) && !UndoneAt(c, calls, n) {
      var i :| 0 <= i < |calls| && UndoneAt(c, calls, i);
      assert UndoneAt(c, calls[..n], i);
    }
  }
}
