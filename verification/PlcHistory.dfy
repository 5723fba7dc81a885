/**
 What timers and coils show, as functions of the whole history of inputs and scans. Kinds are the header's
 numbers: contacts 0 normally open, 1 normally closed; coils 0 output, 1 internal, 2 set latch, 3 reset latch;
 timers 0 on-delay, 1 off-delay, 2 pulse. A scan takes 10 ms.
 */
module PlcHistory {
  import opened PlcScan
  import opened Bits
  import opened Indexing

  /** The state after a run of input writes and scans. */
  function Run(s: State, events: seq<Event>): State {
    if |events| == 0 then s else After(Run(s, events[..|events| - 1]), events[|events| - 1])
  }

  /** The value last written to an address. */
  function LastWritten(events: seq<Event>, address: uint16, initial: bool): bool {
    if |events| == 0 then initial
    else
      var last := events[|events| - 1];
      if last.WriteInput? && last.address == address then last.value
      else LastWritten(events[..|events| - 1], address, initial)
  }

  /** Whether a contact conducts after the events, from the input history alone. */
  predicate ConductsAfter(contact: Contact, events: seq<Event>) {
    var level := LastWritten(events, contact.address, contact.state);
    (contact.kind == 0 && level) || (contact.kind == 1 && !level)
  }

  /** The power of a rung with these contacts at each scan, oldest first. */
  function PowerHistory(contacts: seq<Contact>, events: seq<Event>): seq<bool> {
    if |events| == 0 then []
    else
      var front := events[..|events| - 1];
      var earlier := PowerHistory(contacts, front);
      if events[|events| - 1].Scan?
      then earlier + [forall i :: 0 <= i < |contacts| ==> ConductsAfter(contacts[i], front)]
      else earlier
  }

  /** A timer and a coil fed a history of powers. */
  function TimerAfter(t: Timer, powers: seq<bool>): Timer {
    if |powers| == 0 then t else Powered(TimerAfter(t, powers[..|powers| - 1]), powers[|powers| - 1])
  }

  function CoilAfter(c: Coil, powers: seq<bool>): Coil {
    if |powers| == 0 then c else Driven(CoilAfter(c, powers[..|powers| - 1]), powers[|powers| - 1])
  }

  /** A rung's state depends on its inputs' history only. */
  ghost predicate Follows(rung: Rung, now: Rung, events: seq<Event>) {
    var powers := PowerHistory(rung.contacts, events);
    && |now.contacts| == |rung.contacts| && |now.timers| == |rung.timers| && |now.coils| == |rung.coils|
    && (forall i :: 0 <= i < |rung.contacts| ==>
          now.contacts[i] == rung.contacts[i].(state :=
            LastWritten(events, rung.contacts[i].address, rung.contacts[i].state)))
    && (forall i :: 0 <= i < |rung.timers| ==> now.timers[i] == TimerAfter(rung.timers[i], powers))
    && (forall i :: 0 <= i < |rung.coils| ==> now.coils[i] == CoilAfter(rung.coils[i], powers))
    && now.powerFlow == if |powers| == 0 then rung.powerFlow else powers[|powers| - 1]
  }

  lemma WriteFollows(rung: Rung, now: Rung, events: seq<Event>, address: uint16, value: bool)
    requires Follows(rung, now, events)
    ensures Follows(rung, RungWritten(now, address, value), events + [WriteInput(address, value)])
  {
    assert (events + [WriteInput(address, value)])[..|events|] == events;
  }

  lemma ScanFollows(rung: Rung, now: Rung, events: seq<Event>)
    requires Follows(rung, now, events)
    ensures Follows(rung, Output(Evaluated(now)), events + [Scan])
  {
    assert (events + [Scan])[..|events|] == events;
    var powers := PowerHistory(rung.contacts, events);
    var power := forall i :: 0 <= i < |rung.contacts| ==> ConductsAfter(rung.contacts[i], events);
    assert PowerHistory(rung.contacts, events + [Scan]) == powers + [power];
    SamePower(rung, now, events);
    hide PowerHistory, Ticked, Driven, LastWritten, Power, Conducts, ConductsAfter, TimerAfter, CoilAfter, Powered;
    forall t: Timer ensures TimerAfter(t, powers + [power]) == Powered(TimerAfter(t, powers), power) {
      NextPower(t, Coil(0, 0, false, false), powers, power);
    }
    forall c: Coil ensures CoilAfter(c, powers + [power]) == Driven(CoilAfter(c, powers), power) {
      NextPower(Timer(0, 0, 0, false, false, false), c, powers, power);
    }
    assert forall i :: 0 <= i < |rung.contacts| ==> rung.contacts[i].address == now.contacts[i].address;
  }

  lemma NextPower(t: Timer, c: Coil, powers: seq<bool>, power: bool)
    ensures TimerAfter(t, powers + [power]) == Powered(TimerAfter(t, powers), power)
    ensures CoilAfter(c, powers + [power]) == Driven(CoilAfter(c, powers), power)
  {
    hide Powered, Driven;
    assert (powers + [power])[..|powers|] == powers;
  }

  lemma SamePower(rung: Rung, now: Rung, events: seq<Event>)
    requires Follows(rung, now, events)
    ensures Power(now.contacts) <==> forall i :: 0 <= i < |rung.contacts| ==> ConductsAfter(rung.contacts[i], events)
  {
    hide LastWritten, PowerHistory, TimerAfter, CoilAfter;
    forall i | 0 <= i < |rung.contacts| ensures Conducts(now.contacts[i]) == ConductsAfter(rung.contacts[i], events) {}
  }

  /** Rung r of the engine, and its scan counter, follow the events. */
  ghost predicate EngineFollows(s: State, now: State, events: seq<Event>, r: nat)
    requires r < |s.rungs|
  {
    && !now.fault && |now.rungs| == |s.rungs| && Follows(s.rungs[r], now.rungs[r], events)
    && now.scanCounter == Advanced(s.scanCounter, |PowerHistory(s.rungs[r].contacts, events)|)
    && now.currentPhase == if |PowerHistory(s.rungs[r].contacts, events)| == 0 then s.currentPhase else HOUSEKEEPING
  }

  /**
   * Over every run of input writes and scans, each rung's timers and coils are what the power
   * history computed from the input writes makes of them; the scan counter counts the scans.
   */
  lemma {:induction false} RunFollowsInputs(s: State, events: seq<Event>, r: nat)
    requires !s.fault && r < |s.rungs|
    ensures EngineFollows(s, Run(s, events), events, r)
  {
    if |events| > 0 {
      var n := |events| - 1;
      RunFollowsInputs(s, events[..n], r);
      NextEngineFollows(s, Run(s, events[..n]), events, r);
    }
    hide After, EngineFollows;
    if |events| == 0 { NothingFollows(s, r); }
  }

  lemma NothingFollows(s: State, r: nat)
    requires !s.fault && r < |s.rungs|
    ensures EngineFollows(s, s, [], r)
  {
    assert Follows(s.rungs[r], s.rungs[r], []);
  }

  lemma NextEngineFollows(s: State, now: State, events: seq<Event>, r: nat)
    requires |events| > 0 && r < |s.rungs| && EngineFollows(s, now, events[..|events| - 1], r)
    ensures EngineFollows(s, After(now, events[|events| - 1]), events, r)
  {
    hide Follows, Output, Evaluated, RungWritten, After, PowerHistory, Advanced;
    var n := |events| - 1;
    AfterRung(now, events[n], r);
    CountScan(s.rungs[r].contacts, events);
    AdvancedTwice(s.scanCounter, |PowerHistory(s.rungs[r].contacts, events[..n])|, if events[n].Scan? then 1 else 0);
    NextFollows(s.rungs[r], now.rungs[r], events);
  }

  lemma NextFollows(rung: Rung, now: Rung, events: seq<Event>)
    requires |events| > 0 && Follows(rung, now, events[..|events| - 1])
    ensures Follows(rung, match events[|events| - 1]
                          case WriteInput(address, value) => RungWritten(now, address, value)
                          case Scan => Output(Evaluated(now)), events)
  {
    hide Follows, Output, Evaluated, RungWritten;
    var n := |events| - 1;
    assert events == events[..n] + [events[n]];
    match events[n] {
      case WriteInput(address, value) => WriteFollows(rung, now, events[..n], address, value);
      case Scan => ScanFollows(rung, now, events[..n]);
    }
  }

  /** A 16-bit counter raised n times. */
  function Advanced(counter: uint16, n: nat): uint16 {
    (counter + n) % 0x1_0000
  }

  lemma AdvancedTwice(counter: uint16, n: nat, k: nat)
    ensures Advanced(Advanced(counter, n), k) == Advanced(counter, n + k)
  {
  }

  lemma AfterRung(s: State, event: Event, r: nat)
    requires !s.fault && r < |s.rungs|
    ensures var now := After(s, event);
            && !now.fault && |now.rungs| == |s.rungs|
            && now.scanCounter == Advanced(s.scanCounter, if event.Scan? then 1 else 0)
            && now.currentPhase == (if event.Scan? then HOUSEKEEPING else s.currentPhase)
            && now.rungs[r] == match event
               case WriteInput(address, value) => RungWritten(s.rungs[r], address, value)
               case Scan => Output(Evaluated(s.rungs[r]))
  {
    hide Output, Evaluated, RungWritten;
  }

  lemma CountScan(contacts: seq<Contact>, events: seq<Event>)
    requires |events| > 0
    ensures |PowerHistory(contacts, events)|
         == |PowerHistory(contacts, events[..|events| - 1])| + (if events[|events| - 1].Scan? then 1 else 0)
  {
  }

  /** In a fault a scan leaves everything as it was, and writes still reach the contacts. */
  lemma {:induction false} FaultFreezes(s: State, events: seq<Event>)
    requires s.fault
    ensures var now := Run(s, events);
            && now.fault && now.scanCounter == s.scanCounter && now.currentPhase == s.currentPhase
            && |now.rungs| == |s.rungs|
            && forall r :: 0 <= r < |s.rungs| ==> Frozen(s.rungs[r], now.rungs[r], events)
  {
    if |events| > 0 {
      var n := |events| - 1;
      FaultFreezes(s, events[..n]);
      var before := Run(s, events[..n]);
      hide Frozen;
      forall r | 0 <= r < |s.rungs| ensures Frozen(s.rungs[r], After(before, events[n]).rungs[r], events) {
        FrozenStep(s.rungs[r], before.rungs[r], events);
      }
    }
  }

  ghost predicate Frozen(rung: Rung, now: Rung, events: seq<Event>) {
    && now.timers == rung.timers && now.coils == rung.coils && now.powerFlow == rung.powerFlow
    && |now.contacts| == |rung.contacts|
    && (forall i :: 0 <= i < |rung.contacts| ==>
          now.contacts[i] == rung.contacts[i].(state :=
            LastWritten(events, rung.contacts[i].address, rung.contacts[i].state)))
  }

  lemma FrozenStep(rung: Rung, now: Rung, events: seq<Event>)
    requires |events| > 0 && Frozen(rung, now, events[..|events| - 1])
    ensures Frozen(rung, match events[|events| - 1]
                         case WriteInput(address, value) => RungWritten(now, address, value)
                         case Scan => now, events)
  {
  }

  // ---------- Timers ----------

  /** The length of the run of equal values at the end of a history. */
  function Trailing(powers: seq<bool>, value: bool): nat {
    if |powers| == 0 || powers[|powers| - 1] != value then 0 else 1 + Trailing(powers[..|powers| - 1], value)
  }

  /** As a timer is added to a rung. */
  predicate Fresh(t: Timer) {
    t.accumulatedMs == 0 && !t.timing && !t.done && !t.inputState
  }

  predicate OnDelayDone(presetMs: uint32, powers: seq<bool>) {
    var m := Trailing(powers, true);
    m >= 1 && 10 * m >= presetMs
  }

  predicate OffDelayDone(presetMs: uint32, powers: seq<bool>) {
    var m := Trailing(powers, false);
    true in powers && (m == 0 || 10 * m < presetMs)
  }

  /** The last preset that the sum of scan periods reaches before it wraps around. */
  const LAST_PRESET: uint32 := 4294967290

  /** The last preset that can be counted past by one more scan without wrapping around. */
  const LAST_STEADY: uint32 := 4294967285

  ghost predicate OnDelayState(t: Timer, presetMs: uint32, m: nat) {
    && t.kind == 0 && t.presetMs == presetMs
    && (t.done <==> m >= 1 && 10 * m >= presetMs)
    && (t.timing <==> m > 0)
    && (!t.done || presetMs <= LAST_STEADY ==> t.accumulatedMs == Min(10 * m, presetMs))
  }

  lemma OnDelayStep(t: Timer, presetMs: uint32, m: nat, power: bool)
    requires OnDelayState(t, presetMs, m) && presetMs <= LAST_PRESET
    ensures OnDelayState(Powered(t, power), presetMs, if power then m + 1 else 0)
  {
    if !power {
      assert Powered(t, power) == t.(inputState := false, timing := false, accumulatedMs := 0, done := false);
    } else if t.timing && !t.done {
      assert Elapsed(t) == 10 * (m + 1);
    }
  }

  ghost predicate OffDelayState(t: Timer, presetMs: uint32, seen: bool, m: nat) {
    && t.kind == 1 && t.presetMs == presetMs
    && (t.done <==> seen && (m == 0 || 10 * m < presetMs))
    && (t.timing <==> m > 0)
    && ((seen && t.done) || presetMs <= LAST_STEADY ==> t.accumulatedMs == Min(10 * m, presetMs))
  }

  lemma OffDelayStep(t: Timer, presetMs: uint32, seen: bool, m: nat, power: bool)
    requires OffDelayState(t, presetMs, seen, m) && presetMs <= LAST_PRESET
    ensures OffDelayState(Powered(t, power), presetMs, seen || power, if power then 0 else m + 1)
  {
  }

  /** An on-delay timer is done exactly when the power has lasted for its preset. */
  lemma {:induction false} OnDelayHistory(t: Timer, powers: seq<bool>)
    requires t.kind == 0 && Fresh(t) && t.presetMs <= LAST_PRESET
    ensures OnDelayState(TimerAfter(t, powers), t.presetMs, Trailing(powers, true))
    ensures TimerAfter(t, powers).done <==> OnDelayDone(t.presetMs, powers)
  {
    if |powers| > 0 {
      var n := |powers| - 1;
      OnDelayHistory(t, powers[..n]);
      OnDelayStep(TimerAfter(t, powers[..n]), t.presetMs, Trailing(powers[..n], true), powers[n]);
      hide Powered;
    }
  }

  /** An off-delay timer is done exactly when there was power and it has not been gone for its preset. */
  lemma {:induction false} OffDelayHistory(t: Timer, powers: seq<bool>)
    requires t.kind == 1 && Fresh(t) && t.presetMs <= LAST_PRESET
    ensures OffDelayState(TimerAfter(t, powers), t.presetMs, true in powers, Trailing(powers, false))
    ensures TimerAfter(t, powers).done <==> OffDelayDone(t.presetMs, powers)
  {
    if |powers| > 0 {
      var n := |powers| - 1;
      OffDelayHistory(t, powers[..n]);
      OffDelayStep(TimerAfter(t, powers[..n]), t.presetMs, true in powers[..n], Trailing(powers[..n], false),
        powers[n]);
      assert powers == powers[..n] + [powers[n]];
      hide Powered;
    }
  }

  function Inverted(powers: seq<bool>): (r: seq<bool>)
    ensures |r| == |powers|
  {
    seq(|powers|, i requires 0 <= i < |powers| => !powers[i])
  }

  lemma {:induction false} TrailingInverted(powers: seq<bool>, value: bool)
    ensures Trailing(Inverted(powers), !value) == Trailing(powers, value)
  {
    if |powers| > 0 {
      assert Inverted(powers)[..|powers| - 1] == Inverted(powers[..|powers| - 1]);
      TrailingInverted(powers[..|powers| - 1], value);
    }
  }

  /** Once there has been power, off-delay on a history is the negation of on-delay on its complement. */
  lemma OffDelayIsDual(on: Timer, off: Timer, powers: seq<bool>)
    requires on.kind == 0 && off.kind == 1 && Fresh(on) && Fresh(off)
    requires on.presetMs == off.presetMs <= LAST_PRESET && true in powers
    ensures TimerAfter(off, powers).done <==> !TimerAfter(on, Inverted(powers)).done
  {
    OnDelayHistory(on, Inverted(powers));
    OffDelayHistory(off, powers);
    TrailingInverted(powers, false);
  }

  // ---------- The largest preset ----------

  function Constant(value: bool, n: nat): (r: seq<bool>)
    ensures |r| == n
  {
    seq(n, i => value)
  }

  lemma {:induction false} TrailingConstant(value: bool, n: nat)
    ensures Trailing(Constant(value, n), value) == n
  {
    if n > 0 {
      assert Constant(value, n)[..n - 1] == Constant(value, n - 1);
      TrailingConstant(value, n - 1);
    }
  }

  /** The sum of n scan periods in a 32-bit word, up to the first wrap-around. */
  function Wrapped(n: nat): uint32
    requires n <= 429496730
  {
    if n <= 429496729 then 10 * n else 4
  }

  lemma OverrunStep(t: Timer, n: nat)
    requires t.presetMs > LAST_PRESET && 0 < n <= 429496730
    requires t.accumulatedMs == Wrapped(n - 1) && (t.timing <==> n - 1 > 0)
    ensures Count(t, true) == Count(t, false) == t.(timing := true, accumulatedMs := Wrapped(n))
  {
  }

  /** Beyond the last preset the accumulated time passes it only by wrapping around. */
  lemma {:induction false} OnDelayOverrun(t: Timer, n: nat)
    requires t.kind == 0 && Fresh(t) && t.presetMs > LAST_PRESET && n <= 429496730
    ensures var now := TimerAfter(t, Constant(true, n));
            && now.kind == t.kind && now.presetMs == t.presetMs && !now.done && (now.timing <==> n > 0)
            && now.accumulatedMs == Wrapped(n)
  {
    if n > 0 {
      OnDelayOverrun(t, n - 1);
      OverrunStep(TimerAfter(t, Constant(true, n - 1)).(inputState := true), n);
      hide Wrapped, Count;
      assert Constant(true, n)[..n - 1] == Constant(true, n - 1);
    }
  }

  lemma OnDelayFails(t: Timer)
    requires t.kind == 0 && Fresh(t) && t.presetMs > LAST_PRESET
    ensures var powers := Constant(true, 429496730);
            !TimerAfter(t, powers).done && OnDelayDone(t.presetMs, powers)
  {
    OnDelayOverrun(t, 429496730);
    TrailingConstant(true, 429496730);
  }

  /** The on-delay timer keeps its promise on every history exactly for presets up to 4294967290 ms. */
  lemma OnDelayCorrectIff(t: Timer)
    requires t.kind == 0 && Fresh(t)
    ensures (forall powers :: TimerAfter(t, powers).done <==> OnDelayDone(t.presetMs, powers)) <==>
              t.presetMs <= LAST_PRESET
  {
    if t.presetMs <= LAST_PRESET {
      forall powers ensures TimerAfter(t, powers).done <==> OnDelayDone(t.presetMs, powers) {
        OnDelayHistory(t, powers);
      }
    } else {
      OnDelayFails(t);
    }
  }

  lemma HeldOnce(t: Timer, n: nat)
    ensures TimerAfter(t, Constant(true, n + 1)) == Powered(TimerAfter(t, Constant(true, n)), true)
  {
    assert Constant(true, n + 1)[..n] == Constant(true, n);
    hide Powered;
  }

  lemma PastThePreset(t: Timer)
    requires t.kind == 0 && t.timing && t.accumulatedMs == 4294967280 && LAST_STEADY < t.presetMs <= LAST_PRESET
    ensures Powered(Powered(t, true), true).accumulatedMs < 10
  {
  }

  /** A done timer whose preset lies within a scan of the wrap-around starts over, although it stays done. */
  lemma TimeStartsOver(t: Timer)
    requires t.kind == 0 && Fresh(t) && LAST_STEADY < t.presetMs <= LAST_PRESET
    ensures TimerAfter(t, Constant(true, 429496730)).accumulatedMs < 10
  {
    hide TimerAfter, Constant, Trailing, Powered;
    var n := 429496728;
    OnDelayHistory(t, Constant(true, n));
    TrailingConstant(true, n);
    HeldOnce(t, n);
    HeldOnce(t, n + 1);
    PastThePreset(TimerAfter(t, Constant(true, n)));
  }

  /** An on-delay timer shows the time the power has lasted, up to its preset, exactly for presets up to 4294967285. */
  lemma TimeShownIff(t: Timer)
    requires t.kind == 0 && Fresh(t)
    ensures (forall powers :: TimerAfter(t, powers).accumulatedMs == Min(10 * Trailing(powers, true), t.presetMs)) <==>
              t.presetMs <= LAST_STEADY
  {
    var powers := Constant(true, 429496730);
    TrailingConstant(true, 429496730);
    if t.presetMs <= LAST_STEADY {
      forall powers ensures TimerAfter(t, powers).accumulatedMs == Min(10 * Trailing(powers, true), t.presetMs) {
        OnDelayHistory(t, powers);
      }
    } else {
      if t.presetMs <= LAST_PRESET { TimeStartsOver(t); } else { OnDelayOverrun(t, 429496730); }
      assert TimerAfter(t, powers).accumulatedMs < t.presetMs == Min(10 * Trailing(powers, true), t.presetMs);
    }
  }

  lemma {:induction false} OffDelayOverrun(t: Timer, n: nat)
    requires t.kind == 1 && Fresh(t) && t.presetMs > LAST_PRESET && n <= 429496730
    ensures var now := TimerAfter(t, [true] + Constant(false, n));
            && now.kind == t.kind && now.presetMs == t.presetMs && now.done && (now.timing <==> n > 0)
            && now.accumulatedMs == Wrapped(n)
    ensures Trailing([true] + Constant(false, n), false) == n
  {
    var powers := [true] + Constant(false, n);
    if n > 0 {
      OffDelayOverrun(t, n - 1);
      OverrunStep(TimerAfter(t, [true] + Constant(false, n - 1)).(inputState := false), n);
      hide Wrapped, Count;
      assert powers[..n] == [true] + Constant(false, n - 1);
    } else {
      assert powers[..0] == [];
    }
  }

  /** And so does the off-delay timer. */
  lemma OffDelayCorrectIff(t: Timer)
    requires t.kind == 1 && Fresh(t)
    ensures (forall powers :: TimerAfter(t, powers).done <==> OffDelayDone(t.presetMs, powers)) <==>
              t.presetMs <= LAST_PRESET
  {
    if t.presetMs <= LAST_PRESET {
      forall powers ensures TimerAfter(t, powers).done <==> OffDelayDone(t.presetMs, powers) {
        OffDelayHistory(t, powers);
      }
    } else {
      OffDelayOverrun(t, 429496730);
      var powers := [true] + Constant(false, 429496730);
      assert TimerAfter(t, powers).done && !OffDelayDone(t.presetMs, powers);
    }
  }

  // ---------- Pulses ----------

  /** The scans a pulse takes: at least one, and as many as reach the preset. */
  function PulseLength(presetMs: uint32): (n: nat)
    ensures n >= 1 && 10 * n >= presetMs && (n == 1 || 10 * (n - 1) < presetMs)
  {
    if presetMs <= 10 then 1 else (presetMs + 9) / 10
  }

  /** The length of the latest run of powered scans, 0 if there was none. */
  function LatestRun(powers: seq<bool>): nat {
    if |powers| == 0 then 0
    else if powers[|powers| - 1] then Trailing(powers, true)
    else LatestRun(powers[..|powers| - 1])
  }

  /** A pulse is being put out: one has begun, and has not ended with the input still on or one scan after. */
  predicate Pulsing(latest: nat, n: nat, powered: bool)
    requires n > 0
  {
    latest % n != 0 && (powered || latest % n != n - 1)
  }

  predicate PulseDone(presetMs: uint32, powers: seq<bool>) {
    Pulsing(LatestRun(powers), PulseLength(presetMs), |powers| > 0 && powers[|powers| - 1])
  }

  /** A pulse timer after a latest run of powered scans of which the input has been on for m. */
  ghost predicate PulseState(t: Timer, presetMs: uint32, m: nat, latest: nat) {
    var n := PulseLength(presetMs);
    && t.kind == 2 && t.presetMs == presetMs && (m > 0 ==> latest == m)
    && (t.done <==> Pulsing(latest, n, m > 0))
    && (t.timing <==> m % n != 0)
    && t.accumulatedMs == PulseTime(latest, n, m > 0, presetMs)
  }

  /** The time a pulse timer shows: how far the pulse has got, or the preset once it is over. */
  function PulseTime(latest: nat, n: nat, powered: bool, presetMs: uint32): int
    requires n > 0
  {
    var k := latest % n;
    if latest == 0 then 0 else if k == 0 then presetMs else if powered then 10 * k else Min(10 * (k + 1), presetMs)
  }

  lemma NextRemainder(m: nat, n: nat)
    requires n > 0
    ensures (m + 1) % n == if m % n == n - 1 then 0 else m % n + 1
  {
    var q := m / n;
    if m % n == n - 1 {
      SplitSum(q, 1, n);
      FloorUnique(m + 1, n, q + 1, 0);
    } else {
      FloorUnique(m + 1, n, q, m % n + 1);
    }
  }

  lemma NoRemainder(n: nat)
    requires n > 0
    ensures 0 % n == 0
  {
  }

  /** A powered scan, k scans into a pulse of n. */
  lemma PulseTick(t: Timer, n: nat, k: nat)
    requires t.kind == 2 && k < n && 10 * n >= t.presetMs && (n == 1 || 10 * (n - 1) < t.presetMs)
    requires t.presetMs <= LAST_PRESET
    requires (t.timing <==> k != 0) && (t.timing ==> t.done && t.accumulatedMs == 10 * k)
    ensures var now := Powered(t, true);
            && now.kind == 2 && now.presetMs == t.presetMs
            && (now.timing <==> k + 1 != n) && (now.done <==> k + 1 != n)
            && now.accumulatedMs == if now.timing then 10 * (k + 1) else t.presetMs
  {
  }

  /** One more powered scan. */
  lemma PulseOn(t: Timer, presetMs: uint32, m: nat, latest: nat)
    requires PulseState(t, presetMs, m, latest) && presetMs <= LAST_PRESET
    ensures PulseState(Powered(t, true), presetMs, m + 1, m + 1)
  {
    hide Powered;
    var n := PulseLength(presetMs);
    NextRemainder(m, n);
    NoRemainder(n);
    hide PulseLength;
    PulseTick(t, n, m % n);
  }

  /** A scan without power, k scans into a pulse of n. */
  lemma PulseStops(t: Timer, n: nat, k: nat)
    requires t.kind == 2 && k < n && 10 * n >= t.presetMs && (n == 1 || 10 * (n - 1) < t.presetMs)
    requires t.presetMs <= LAST_PRESET
    requires (t.timing <==> k != 0) && (t.timing ==> t.accumulatedMs == 10 * k)
    ensures var now := Powered(t, false);
            && now.kind == 2 && now.presetMs == t.presetMs && !now.timing
            && (now.done <==> t.done && !(t.timing && k + 1 == n))
            && now.accumulatedMs == if t.timing then Min(10 * (k + 1), t.presetMs) else t.accumulatedMs
  {
  }

  /** The input goes, or stays away. */
  lemma PulseOff(t: Timer, presetMs: uint32, m: nat, latest: nat)
    requires PulseState(t, presetMs, m, latest) && presetMs <= LAST_PRESET
    ensures PulseState(Powered(t, false), presetMs, 0, latest)
  {
    hide Powered;
    var n := PulseLength(presetMs);
    NoRemainder(n);
    hide PulseLength;
    PulseStops(t, n, m % n);
  }

  /**
   A pulse timer whose input is held ends its pulse for one scan and begins another. One whose input goes counts
   that scan too, and unless this ends the pulse, the output stays on until the input has come back for a
   whole pulse.
   */
  lemma {:induction false} PulseHistory(t: Timer, powers: seq<bool>)
    requires t.kind == 2 && Fresh(t) && t.presetMs <= LAST_PRESET
    ensures PulseState(TimerAfter(t, powers), t.presetMs, Trailing(powers, true), LatestRun(powers))
    ensures TimerAfter(t, powers).done <==> PulseDone(t.presetMs, powers)
  {
    if |powers| > 0 {
      var n := |powers| - 1;
      PulseHistory(t, powers[..n]);
      var m, latest := Trailing(powers[..n], true), LatestRun(powers[..n]);
      if powers[n] {
        PulseOn(TimerAfter(t, powers[..n]), t.presetMs, m, latest);
      } else {
        PulseOff(TimerAfter(t, powers[..n]), t.presetMs, m, latest);
      }
      hide Powered, PulseState, PulseLength;
    }
  }

  /** Beyond the last preset the first pulse does not end when it should. */
  lemma {:induction false} PulseOverrun(t: Timer, n: nat)
    requires t.kind == 2 && Fresh(t) && t.presetMs > LAST_PRESET && n <= 429496730
    ensures var now := TimerAfter(t, Constant(true, n));
            && now.kind == t.kind && now.presetMs == t.presetMs && (now.done <==> n > 0) && (now.timing <==> n > 0)
            && now.accumulatedMs == Wrapped(n)
  {
    if n > 0 {
      PulseOverrun(t, n - 1);
      PulseOverrunStep(TimerAfter(t, Constant(true, n - 1)), n);
      hide Wrapped, Powered;
      assert Constant(true, n)[..n - 1] == Constant(true, n - 1);
    }
  }

  lemma PulseOverrunStep(t: Timer, n: nat)
    requires t.kind == 2 && t.presetMs > LAST_PRESET && 0 < n <= 429496730
    requires t.accumulatedMs == Wrapped(n - 1) && (t.timing <==> n - 1 > 0) && (t.done <==> n - 1 > 0)
    ensures Powered(t, true) == t.(inputState := true, timing := true, done := true, accumulatedMs := Wrapped(n))
  {
  }

  /** The law of the pulses holds on every history exactly for presets up to 4294967290 ms. */
  lemma PulseCorrectIff(t: Timer)
    requires t.kind == 2 && Fresh(t)
    ensures (forall powers :: TimerAfter(t, powers).done <==> PulseDone(t.presetMs, powers)) <==>
              t.presetMs <= LAST_PRESET
  {
    if t.presetMs <= LAST_PRESET {
      forall powers ensures TimerAfter(t, powers).done <==> PulseDone(t.presetMs, powers) {
        PulseHistory(t, powers);
      }
    } else {
      PulseOverrun(t, 429496730);
      TrailingConstant(true, 429496730);
      var powers := Constant(true, 429496730);
      assert LatestRun(powers) == 429496730 == PulseLength(t.presetMs);
      hide TimerAfter, LatestRun, PulseLength;
      assert TimerAfter(t, powers).done && !PulseDone(t.presetMs, powers);
    }
  }

  // ---------- Coils ----------

  /**
   A plain coil shows the last power; a set latch whether there ever was power, a reset latch whether there
   never was.
   */
  lemma {:induction false} CoilHistory(c: Coil, powers: seq<bool>)
    ensures var now := CoilAfter(c, powers);
            && now.kind == c.kind
            && (c.kind == 0 || c.kind == 1 ==>
                  now.state == if |powers| == 0 then c.state else powers[|powers| - 1])
            && (c.kind == 2 ==> now.state == (c.state || true in powers))
            && (c.kind == 3 ==> now.state == (c.state && true !in powers))
            && (|powers| > 0 ==> now.prevState == CoilAfter(c, powers[..|powers| - 1]).state)
  {
    if |powers| > 0 {
      var n := |powers| - 1;
      CoilHistory(c, powers[..n]);
      assert powers == powers[..n] + [powers[n]];
    }
  }

  /**
   In an engine started with fresh timers, all three kinds of timer report on the power history of their own
   rung.
   */
  lemma TimersThroughScans(s: State, events: seq<Event>, r: nat, j: nat)
    requires !s.fault && r < |s.rungs| && j < |s.rungs[r].timers|
    requires Fresh(s.rungs[r].timers[j]) && s.rungs[r].timers[j].presetMs <= LAST_PRESET
    ensures var now := Run(s, events);
            && |now.rungs| == |s.rungs| && |now.rungs[r].timers| == |s.rungs[r].timers|
            && var t, powers := s.rungs[r].timers[j], PowerHistory(s.rungs[r].contacts, events);
               && (t.kind == 0 ==> (now.rungs[r].timers[j].done <==> OnDelayDone(t.presetMs, powers)))
               && (t.kind == 1 ==> (now.rungs[r].timers[j].done <==> OffDelayDone(t.presetMs, powers)))
               && (t.kind == 2 ==> (now.rungs[r].timers[j].done <==> PulseDone(t.presetMs, powers)))
  {
    RunFollowsInputs(s, events, r);
    var t, powers := s.rungs[r].timers[j], PowerHistory(s.rungs[r].contacts, events);
    if t.kind == 0 { OnDelayHistory(t, powers); }
    if t.kind == 1 { OffDelayHistory(t, powers); }
    if t.kind == 2 { PulseHistory(t, powers); }
  }
}
