/** What every call answers, from the calls before it and their answers alone. */
module OtaHistory {
  import opened Bits
  import opened Ota
  import opened OtaRuns
  import opened Wrappers

  // ---------- The caller's view of a run ----------

  /** Where the update under way was begun: the last accepted manifest, unless a rollback has succeeded since. */
  ghost function BegunAt(c: Context, calls: seq<Call>): (b: int)
    requires c.WellFormed() && AllSound(calls)
    ensures -1 <= b < |calls|
  {
    if |calls| == 0 then -1
    else
      var n := |calls| - 1;
      if calls[n].Begin? && Succeeds(c, calls, n) then n
      else if calls[n].Rollback? && Succeeds(c, calls, n) then -1
      else BegunAt(c, calls[..n])
  }

  ghost predicate Underway(c: Context, calls: seq<Call>)
    requires c.WellFormed() && AllSound(calls)
  {
    BegunAt(c, calls) >= 0
  }

  /**
   A call that ends an update. While the image is incomplete: a chunk that would take the bytes, counted in 32
   bits, past 65536. Once it is complete: verifying an image of another size or another hash.
   */
  ghost predicate Breaking(j: Journal, call: Call) {
    && j.manifest.Some?
    && (call.Receive? ==> |j.bytes| < j.manifest.value.fwSize && (|j.bytes| + call.len) % 4294967296 > 65536)
    && (call.VerifyAndApply? ==> |j.bytes| >= j.manifest.value.fwSize && !Announces(j.manifest.value, j.bytes))
    && (call.Receive? || call.VerifyAndApply?)
  }

  ghost predicate BreaksAt(c: Context, calls: seq<Call>, i: nat)
    requires c.WellFormed() && AllSound(calls) && i < |calls|
  {
    Breaking(Observed(c, calls[..i]), calls[i])
  }

  ghost predicate VerifiesAt(c: Context, calls: seq<Call>, i: nat)
    requires c.WellFormed() && AllSound(calls) && i < |calls|
  {
    calls[i].VerifyAndApply? && Succeeds(c, calls, i)
  }

  ghost predicate CommitsAt(c: Context, calls: seq<Call>, i: nat)
    requires c.WellFormed() && AllSound(calls) && i < |calls|
  {
    calls[i].Commit? && Succeeds(c, calls, i)
  }

  /** Since the update under way began, a call ended it, verified it, or committed it. */
  ghost predicate Broken(c: Context, calls: seq<Call>)
    requires c.WellFormed() && AllSound(calls)
  {
    exists i :: BegunAt(c, calls) < i < |calls| && BreaksAt(c, calls, i)
  }

  ghost predicate Verified(c: Context, calls: seq<Call>)
    requires c.WellFormed() && AllSound(calls)
  {
    exists i :: BegunAt(c, calls) < i < |calls| && VerifiesAt(c, calls, i)
  }

  ghost predicate Committed(c: Context, calls: seq<Call>)
    requires c.WellFormed() && AllSound(calls)
  {
    exists i :: BegunAt(c, calls) < i < |calls| && CommitsAt(c, calls, i)
  }

  // ---------- The state of the context, from that view ----------

  ghost predicate InPhase(s: UpdateState, underway: bool, broken: bool, verified: bool, committed: bool, j: Journal) {
    s == if !underway then IDLE
         else if broken then FAILED
         else if committed then COMMITTED
         else if verified then APPLYING
         else if j.manifest.Some? && |j.bytes| >= j.manifest.value.fwSize then VERIFYING
         else DOWNLOADING
  }

  lemma InFront(c: Context, calls: seq<Call>, i: nat)
    requires c.WellFormed() && AllSound(calls) && i < |calls| - 1
    ensures var front := calls[..|calls| - 1];
            && AllSound(front) && BreaksAt(c, front, i) == BreaksAt(c, calls, i)
            && VerifiesAt(c, front, i) == VerifiesAt(c, calls, i) && CommitsAt(c, front, i) == CommitsAt(c, calls, i)
  {
    hide Run, Observed, Step, Breaking;
    assert calls[..|calls| - 1][..i] == calls[..i];
  }

  lemma BrokenStep(c: Context, calls: seq<Call>, b: int)
    requires c.WellFormed() && AllSound(calls) && -1 <= b < |calls| - 1
    requires BegunAt(c, calls) == BegunAt(c, calls[..|calls| - 1]) == b
    ensures Broken(c, calls) <==> Broken(c, calls[..|calls| - 1]) || BreaksAt(c, calls, |calls| - 1)
  {
    hide BreaksAt, Run, BegunAt, Observed, Step, Breaking, Succeeds;
    var n := |calls| - 1;
    if Broken(c, calls[..n]) {
      var i :| b < i < n && BreaksAt(c, calls[..n], i);
      InFront(c, calls, i);
    }
    if Broken(c, calls) && !BreaksAt(c, calls, n) {
      var i :| b < i < |calls| && BreaksAt(c, calls, i);
      assert i != n;
      InFront(c, calls, i);
    }
  }

  lemma VerifiedStep(c: Context, calls: seq<Call>, b: int)
    requires c.WellFormed() && AllSound(calls) && -1 <= b < |calls| - 1
    requires BegunAt(c, calls) == BegunAt(c, calls[..|calls| - 1]) == b
    ensures Verified(c, calls) <==> Verified(c, calls[..|calls| - 1]) || VerifiesAt(c, calls, |calls| - 1)
  {
    hide VerifiesAt, Run, BegunAt, Observed, Step, Breaking, Succeeds;
    var n := |calls| - 1;
    if Verified(c, calls[..n]) {
      var i :| b < i < n && VerifiesAt(c, calls[..n], i);
      InFront(c, calls, i);
    }
    if Verified(c, calls) && !VerifiesAt(c, calls, n) {
      var i :| b < i < |calls| && VerifiesAt(c, calls, i);
      assert i != n;
      InFront(c, calls, i);
    }
  }

  lemma CommittedStep(c: Context, calls: seq<Call>, b: int)
    requires c.WellFormed() && AllSound(calls) && -1 <= b < |calls| - 1
    requires BegunAt(c, calls) == BegunAt(c, calls[..|calls| - 1]) == b
    ensures Committed(c, calls) <==> Committed(c, calls[..|calls| - 1]) || CommitsAt(c, calls, |calls| - 1)
  {
    hide CommitsAt, Run, BegunAt, Observed, Step, Breaking, Succeeds;
    var n := |calls| - 1;
    if Committed(c, calls[..n]) {
      var i :| b < i < n && CommitsAt(c, calls[..n], i);
      InFront(c, calls, i);
    }
    if Committed(c, calls) && !CommitsAt(c, calls, n) {
      var i :| b < i < |calls| && CommitsAt(c, calls, i);
      assert i != n;
      InFront(c, calls, i);
    }
  }

  /** A verified image is the announced one. */
  ghost predicate VerifiedImage(underway: bool, verified: bool, committed: bool, j: Journal) {
    underway && (verified || committed) ==> j.manifest.Some? && Announces(j.manifest.value, j.bytes)
  }

  ghost predicate Records(c: Context, call: Call, ok: bool, j: Journal, j': Journal) {
    && (ok && call.Begin? ==> j' == Journal(Some(call.manifest), []))
    && (ok && call.Receive? && 0 < call.len <= |call.chunk| ==> j' == j.(bytes := j.bytes + call.chunk[..call.len]))
    && (!ok || !(call.Begin? || (call.Receive? && 0 < call.len <= |call.chunk|)) ==> j' == j)
  }

  lemma PhaseStep(c: Context, call: Call, j: Journal, j': Journal,
                  underway: bool, broken: bool, verified: bool, committed: bool)
    requires Safe(c) && Matches(c, j) && call.Sound() && Records(c, call, Step(c, call).ok, j, j')
    requires InPhase(c.updateState, underway, broken, verified, committed, j)
    requires VerifiedImage(underway, verified, committed, j)
    ensures var ok := Step(c, call).ok;
            var verified', committed' := verified || (call.VerifyAndApply? && ok), committed || (call.Commit? && ok);
            if call.Begin? && ok then InPhase(Step(c, call).context.updateState, true, false, false, false, j')
            else if call.Rollback? && ok then Step(c, call).context.updateState == IDLE
            else InPhase(Step(c, call).context.updateState, underway, broken || Breaking(j, call),
                         verified', committed', j')
                 && VerifiedImage(underway, verified', committed', j')
  {
    hide PolyHash;
    match call {
      case Begin(m) =>
      case Receive(chunk, len) =>
        if Step(c, call).ok { ReceiveAppends(c, chunk, len); }
      case VerifyAndApply =>
      case Commit =>
      case Rollback =>
    }
  }

  /** The context knows exactly what the caller can tell from the answers. */
  lemma {:induction false} PhaseIsHistory(c: Context, calls: seq<Call>)
    requires Safe(c) && c.updateState == IDLE && AllSound(calls)
    ensures InPhase(Run(c, calls).updateState, Underway(c, calls), Broken(c, calls), Verified(c, calls),
                    Committed(c, calls), Observed(c, calls))
    ensures VerifiedImage(Underway(c, calls), Verified(c, calls), Committed(c, calls), Observed(c, calls))
  {
    if |calls| > 0 {
      var n := |calls| - 1;
      var front := calls[..n];
      PhaseIsHistory(c, front);
      RunIsSafe(c, front);
      JournalMatches(c, front);
      if BegunAt(c, calls) == BegunAt(c, front) {
        BrokenStep(c, calls, BegunAt(c, calls));
        VerifiedStep(c, calls, BegunAt(c, calls));
        CommittedStep(c, calls, BegunAt(c, calls));
      }
      JournalStep(c, calls);
      PhaseStep(Run(c, front), calls[n], Observed(c, front), Observed(c, calls), Underway(c, front),
                Broken(c, front), Verified(c, front), Committed(c, front));
      StepOfRun(c, calls);
      hide Step, Safe, Matches, Records, Observed, InPhase, Breaking, VerifiedImage, Run, Succeeds;
    }
  }

  lemma StepOfRun(c: Context, calls: seq<Call>)
    requires c.WellFormed() && AllSound(calls) && |calls| > 0
    ensures var n := |calls| - 1; var outcome := Step(Run(c, calls[..n]), calls[n]);
            Run(c, calls) == outcome.context && Succeeds(c, calls, n) == outcome.ok
  {
  }

  lemma JournalStep(c: Context, calls: seq<Call>)
    requires c.WellFormed() && AllSound(calls) && |calls| > 0
    ensures var n := |calls| - 1;
            Records(Run(c, calls[..n]), calls[n], Succeeds(c, calls, n), Observed(c, calls[..n]), Observed(c, calls))
  {
    hide Succeeds;
  }

  /** A context has failed exactly when a call broke the update under way, so until a rollback has succeeded. */
  lemma FailedIff(c: Context, calls: seq<Call>)
    requires Safe(c) && c.updateState == IDLE && AllSound(calls)
    ensures Run(c, calls).updateState == FAILED <==> Underway(c, calls) && Broken(c, calls)
  {
    PhaseIsHistory(c, calls);
    hide Underway, Broken, Verified, Committed, Observed, Run;
  }

  /**
   When each call succeeds, told from the earlier calls and their answers alone: which update is under way, what
   it has received, and whether it was broken, verified or committed since it began.
   */
  ghost predicate Answers(c: Context, calls: seq<Call>, call: Call)
    requires c.WellFormed() && AllSound(calls)
  {
    var j := Observed(c, calls);
    match call
    case Begin(m) => !Underway(c, calls) && Acceptable(c, m)
    case Receive(chunk, len) =>
      && Underway(c, calls) && !Broken(c, calls) && j.manifest.Some? && |j.bytes| < j.manifest.value.fwSize
      && 1 <= len <= 256 && |j.bytes| + len <= 65536
    case VerifyAndApply =>
      && Underway(c, calls) && !Broken(c, calls) && !Verified(c, calls) && !Committed(c, calls)
      && j.manifest.Some? && Announces(j.manifest.value, j.bytes)
    case Commit =>
      Underway(c, calls) && !Broken(c, calls) && Verified(c, calls) && !Committed(c, calls)
    case Rollback => Underway(c, calls) && (Broken(c, calls) || !Committed(c, calls))
  }

  lemma CallSucceedsIff(c: Context, calls: seq<Call>, call: Call)
    requires Safe(c) && c.updateState == IDLE && AllSound(calls) && call.Sound()
    ensures Step(Run(c, calls), call).ok <==> Answers(c, calls, call)
  {
    var now, j := Run(c, calls), Observed(c, calls);
    PhaseIsHistory(c, calls);
    RunIsSafe(c, calls);
    JournalMatches(c, calls);
    FirmwareStays(c, calls);
    if call.Begin? { AcceptableIff(now, call.manifest); }
    AnswerOfPhase(now, call, j, Underway(c, calls), Broken(c, calls), Verified(c, calls), Committed(c, calls));
    hide Underway, Broken, Verified, Committed, Observed, Run, Step, ManifestVerified;
  }

  lemma AnswerOfPhase(now: Context, call: Call, j: Journal,
                      underway: bool, broken: bool, verified: bool, committed: bool)
    requires Safe(now) && Matches(now, j) && call.Sound()
    requires InPhase(now.updateState, underway, broken, verified, committed, j)
    requires VerifiedImage(underway, verified, committed, j)
    ensures call.Begin? ==> (Step(now, call).ok <==> !underway && ManifestVerified(now, call.manifest))
    ensures call.Receive? ==>
              (Step(now, call).ok <==>
               && underway && !broken && j.manifest.Some? && |j.bytes| < j.manifest.value.fwSize
               && 1 <= call.len <= 256 && |j.bytes| + call.len <= 65536)
    ensures call.VerifyAndApply? ==>
              (Step(now, call).ok <==>
               && underway && !broken && !verified && !committed
               && j.manifest.Some? && Announces(j.manifest.value, j.bytes))
    ensures call.Commit? ==> (Step(now, call).ok <==> underway && !broken && verified && !committed)
    ensures call.Rollback? ==> (Step(now, call).ok <==> underway && (broken || !committed))
  {
    hide PolyHash, ManifestVerified;
  }

  lemma {:induction false} FailedStays(c: Context, calls: seq<Call>, i: nat, k: nat)
    requires c.WellFormed() && AllSound(calls) && i <= k <= |calls| && Run(c, calls[..i]).updateState == FAILED
    requires forall m :: i <= m < k ==> !calls[m].Rollback?
    ensures Run(c, calls[..k]) == Run(c, calls[..i])
    ensures k < |calls| && !calls[k].Rollback? ==> !Succeeds(c, calls, k)
  {
    if i < k {
      FailedStays(c, calls, i, k - 1);
      assert calls[..k][..k - 1] == calls[..k - 1];
      RunOfMore(c, calls, k - 1);
      hide Run;
    }
  }

  lemma RunOfMore(c: Context, calls: seq<Call>, n: nat)
    requires c.WellFormed() && AllSound(calls) && n < |calls|
    ensures Run(c, calls[..n + 1]) == Step(Run(c, calls[..n]), calls[n]).context
  {
    assert calls[..n + 1][..n] == calls[..n];
  }

  /** Once an update is broken, no call changes anything or succeeds until a rollback is called. */
  lemma BrokenUntilRollback(c: Context, calls: seq<Call>, i: nat, k: nat)
    requires Safe(c) && c.updateState == IDLE && AllSound(calls) && i <= k < |calls|
    requires Underway(c, calls[..i]) && Broken(c, calls[..i])
    requires forall m :: i <= m <= k ==> !calls[m].Rollback?
    ensures Run(c, calls[..k]) == Run(c, calls[..i]) && !Succeeds(c, calls, k)
  {
    FailedIff(c, calls[..i]);
    FailedStays(c, calls, i, k);
    hide Run, Step, Broken, Underway, Succeeds;
  }

  /**
   A chunk that would take a download past 65536 bytes is refused and ends the update: neither it nor any later
   call succeeds until a rollback is called.
   */
  lemma OverflowEndsUpdate(c: Context, calls: seq<Call>, i: nat, k: nat)
    requires Safe(c) && c.updateState == IDLE && AllSound(calls) && i <= k < |calls|
    requires calls[i].Receive? && 1 <= calls[i].len <= 256 && Run(c, calls[..i]).updateState == DOWNLOADING
    requires |Observed(c, calls[..i]).bytes| + calls[i].len > 65536
    requires forall m :: i <= m <= k ==> !calls[m].Rollback?
    ensures !Succeeds(c, calls, k)
  {
    JournalMatches(c, calls[..i]);
    RunIsSafe(c, calls[..i]);
    OneOverflow(Run(c, calls[..i]), calls[i].chunk, calls[i].len);
    RunOfMore(c, calls, i);
    if k > i { FailedStays(c, calls, i + 1, k); }
    hide Run, Observed, Step, Safe;
  }

  lemma OneOverflow(c: Context, chunk: seq<byte>, len: int)
    requires c.WellFormed() && c.updateState == DOWNLOADING && Receive(chunk, len).Sound()
    requires 1 <= len <= 256 && c.bytesReceived + len > 65536
    ensures var after := Step(c, Receive(chunk, len)); !after.ok && after.context == c.(updateState := FAILED)
  {
  }

  // ---------- What no failed or abandoned update touches ----------

  /** Until an update is committed the device runs its factory image from the first bank. */
  lemma FactoryImage(id: DeviceId, calls: seq<Call>)
    requires AllSound(calls) && !Committed(Initial(id), calls)
    ensures var now := Run(Initial(id), calls);
            && now.currentVersion == 1 && now.activeBank == 0
            && now.Active() == FirmwareBank(0x0800_0000, 65536, 1, true, true, seq(32, _ => 0))
  {
    InitialIsSafe(id);
    FirmwareStays(Initial(id), calls);
    PhaseIsHistory(Initial(id), calls);
    hide Run, Committed, Safe;
  }

  /** The bookkeeping of a context of which no update is under way, and of one that is. */
  ghost predicate Kept(c: Context) {
    && (c.manifestVerified <==> c.updateState != IDLE) && c.retryCount == 0 && c.maxRetries == 3
    && (c.updateState == IDLE ==> c.bytesReceived == 0)
  }

  lemma {:induction false} BookkeepingKept(id: DeviceId, calls: seq<Call>)
    requires AllSound(calls)
    ensures Kept(Run(Initial(id), calls))
  {
    if |calls| > 0 {
      var front := calls[..|calls| - 1];
      BookkeepingKept(id, front);
      InitialIsSafe(id);
      RunIsSafe(Initial(id), front);
      KeptStep(Run(Initial(id), front), calls[|calls| - 1]);
      hide Kept, Step, Safe;
    }
  }

  lemma KeptStep(c: Context, call: Call)
    requires Safe(c) && Kept(c) && call.Sound()
    ensures Kept(Step(c, call).context)
  {
    hide PolyHash;
  }

  /** The manifest counts as verified exactly while an update is under way, and otherwise no bytes are held. */
  lemma VerifiedWhileUnderway(id: DeviceId, calls: seq<Call>)
    requires AllSound(calls)
    ensures var now := Run(Initial(id), calls);
            && (now.manifestVerified <==> Underway(Initial(id), calls))
            && (now.bytesReceived > 0 ==> Underway(Initial(id), calls))
            && now.retryCount == 0 && now.maxRetries == 3
  {
    InitialIsSafe(id);
    BookkeepingKept(id, calls);
    PhaseIsHistory(Initial(id), calls);
    hide Run, Underway, Broken, Verified, Committed, Observed;
  }

  /** While an update is under way the buffer is the bytes received so far, and zeros. */
  lemma {:induction false} BufferIsImage(c: Context, calls: seq<Call>)
    requires Safe(c) && c.updateState == IDLE && AllSound(calls) && Underway(c, calls)
    ensures var bytes := Observed(c, calls).bytes;
            |bytes| <= 65536 && Run(c, calls).receiveBuffer == bytes + seq(65536 - |bytes|, _ => 0)
  {
    var n := |calls| - 1;
    var front := calls[..n];
    var now, j := Run(c, front), Observed(c, front);
    RunIsSafe(c, front);
    JournalMatches(c, front);
    PhaseIsHistory(c, front);
    StepOfRun(c, calls);
    JournalStep(c, calls);
    if Underway(c, front) { BufferIsImage(c, front); }
    BufferStep(now, calls[n], j, Observed(c, calls), Underway(c, front));
    hide Run, Observed, Step, Broken, Verified, Committed, Safe, Matches;
  }

  lemma BufferStep(c: Context, call: Call, j: Journal, j': Journal, underway: bool)
    requires Safe(c) && Matches(c, j) && call.Sound() && Records(c, call, Step(c, call).ok, j, j')
    requires underway == (c.updateState != IDLE)
    requires underway ==> |j.bytes| <= 65536 && c.receiveBuffer == j.bytes + seq(65536 - |j.bytes|, _ => 0)
    ensures (underway && !(call.Rollback? && Step(c, call).ok)) || (call.Begin? && Step(c, call).ok) ==>
              |j'.bytes| <= 65536
              && Step(c, call).context.receiveBuffer == j'.bytes + seq(65536 - |j'.bytes|, _ => 0)
  {
    hide PolyHash;
    if call.Receive? && Step(c, call).ok { ReceiveAppends(c, call.chunk, call.len); }
  }
}
