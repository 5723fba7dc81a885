/** The scan cycle of the ladder-logic engine: contacts, timers and coils, rung by rung. */
module PlcScan {
  import opened Bits

  const SCAN_PERIOD_MS: int := 10

  const CONTACT_NO: int := 0
  const CONTACT_NC: int := 1
  const COIL_OUTPUT: int := 0
  const COIL_INTERNAL: int := 1
  const COIL_LATCH_SET: int := 2
  const COIL_LATCH_RESET: int := 3
  const TIMER_TON: int := 0
  const TIMER_TOF: int := 1
  const TIMER_TP: int := 2

  datatype Phase = INPUTS | PROGRAM | OUTPUTS | HOUSEKEEPING
  datatype Contact = Contact(kind: int, address: uint16, state: bool)
  datatype Coil = Coil(kind: int, address: uint16, state: bool, prevState: bool)
  datatype Timer = Timer(kind: int, presetMs: uint32, accumulatedMs: uint32, timing: bool, done: bool, inputState: bool)
  datatype Rung = Rung(contacts: seq<Contact>, coils: seq<Coil>, timers: seq<Timer>, powerFlow: bool)
  datatype State = State(rungs: seq<Rung>, scanCounter: uint16, currentPhase: Phase, fault: bool)

  // ---------- One scan, as a function on values ----------

  predicate Conducts(contact: Contact) {
    (contact.kind == CONTACT_NO && contact.state) || (contact.kind == CONTACT_NC && !contact.state)
  }

  /** The contacts of a rung are in series. */
  predicate Power(contacts: seq<Contact>) {
    forall i :: 0 <= i < |contacts| ==> Conducts(contacts[i])
  }

  /** The time a timer shows one scan later, had it not yet reached its preset. */
  function Elapsed(t: Timer): uint32 {
    ((if t.timing then t.accumulatedMs else 0) + SCAN_PERIOD_MS) % WORD_SIZE
  }

  /** Counting one more scan; at the preset the output becomes whatever expiry means for the kind. */
  function Count(t: Timer, expired: bool): Timer {
    if Elapsed(t) >= t.presetMs
    then t.(timing := true, accumulatedMs := t.presetMs, done := expired)
    else t.(timing := true, accumulatedMs := Elapsed(t))
  }

  function Ticked(t: Timer): Timer {
    if t.kind == TIMER_TON then
      if t.inputState then Count(t, true) else t.(timing := false, accumulatedMs := 0, done := false)
    else if t.kind == TIMER_TOF then
      if !t.inputState then Count(t, false) else t.(timing := false, accumulatedMs := 0, done := true)
    else if t.kind == TIMER_TP then
      var started := if t.inputState && !t.timing then t.(timing := true, accumulatedMs := 0, done := true) else t;
      var counted := if started.timing then Count(started, false) else started;
      if !t.inputState || (started.timing && Elapsed(started) >= t.presetMs) then counted.(timing := false) else counted
    else t
  }

  function Powered(t: Timer, power: bool): Timer {
    Ticked(t.(inputState := power))
  }

  function Driven(coil: Coil, power: bool): Coil {
    if coil.kind == COIL_OUTPUT || coil.kind == COIL_INTERNAL then coil.(state := power, prevState := coil.state)
    else if coil.kind == COIL_LATCH_SET then coil.(state := coil.state || power, prevState := coil.state)
    else if coil.kind == COIL_LATCH_RESET then coil.(state := coil.state && !power, prevState := coil.state)
    else coil.(prevState := coil.state)
  }

  function Written(contact: Contact, address: uint16, value: bool): Contact {
    if contact.address == address then contact.(state := value) else contact
  }

  function Map<A, B>(f: A -> B, s: seq<A>): (r: seq<B>)
    ensures |r| == |s| && forall i :: 0 <= i < |s| ==> r[i] == f(s[i])
  {
    seq(|s|, i requires 0 <= i < |s| => f(s[i]))
  }

  /** Evaluating a rung refreshes its power flow and its timers. */
  function Evaluated(rung: Rung): Rung {
    var power := Power(rung.contacts);
    rung.(powerFlow := power, timers := Map((t: Timer) => Powered(t, power), rung.timers))
  }

  function Output(rung: Rung): Rung {
    rung.(coils := Map((c: Coil) => Driven(c, rung.powerFlow), rung.coils))
  }

  function RungWritten(rung: Rung, address: uint16, value: bool): Rung {
    rung.(contacts := Map((c: Contact) => Written(c, address, value), rung.contacts))
  }

  datatype Event = WriteInput(address: uint16, value: bool) | Scan

  function After(s: State, event: Event): State {
    match event
    case WriteInput(address, value) => s.(rungs := Map((r: Rung) => RungWritten(r, address, value), s.rungs))
    case Scan =>
      if s.fault then s
      else s.(rungs := Map((r: Rung) => Output(Evaluated(r)), s.rungs), currentPhase := HOUSEKEEPING,
              scanCounter := (s.scanCounter + 1) % 0x1_0000)
  }

  lemma EvaluatedRungs(before: seq<Rung>, after: seq<Rung>)
    requires |after| == |before| && forall k :: 0 <= k < |before| ==> after[k] == Evaluated(before[k])
    ensures after == Map((r: Rung) => Evaluated(r), before)
  {
  }

  lemma ScannedRungs(before: seq<Rung>, after: seq<Rung>)
    requires after == Map((r: Rung) => Output(r), Map((r: Rung) => Evaluated(r), before))
    ensures after == Map((r: Rung) => Output(Evaluated(r)), before)
  {
  }

  // ---------- The engine, updated in place ----------

  method EvaluateContact(contact: Contact) returns (closed: bool)
    ensures closed == Conducts(contact)
  {
    if contact.kind == CONTACT_NO {
      return contact.state;
    } else if contact.kind == CONTACT_NC {
      return !contact.state;
    }
    return false;
  }

  method UpdateTimer(timer: Timer) returns (t: Timer)
    ensures t == Ticked(timer)
  {
    t := timer;
    if t.kind == TIMER_TON {
      if t.inputState {
        if !t.timing { t := t.(timing := true, accumulatedMs := 0); }
        t := t.(accumulatedMs := (t.accumulatedMs + SCAN_PERIOD_MS) % WORD_SIZE);
        if t.accumulatedMs >= t.presetMs { t := t.(accumulatedMs := t.presetMs, done := true); }
      } else {
        t := t.(timing := false, accumulatedMs := 0, done := false);
      }
    } else if t.kind == TIMER_TOF {
      if !t.inputState {
        if !t.timing { t := t.(timing := true, accumulatedMs := 0); }
        t := t.(accumulatedMs := (t.accumulatedMs + SCAN_PERIOD_MS) % WORD_SIZE);
        if t.accumulatedMs >= t.presetMs { t := t.(accumulatedMs := t.presetMs, done := false); }
      } else {
        t := t.(timing := false, accumulatedMs := 0, done := true);
      }
    } else if t.kind == TIMER_TP {
      if t.inputState && !t.timing { t := t.(timing := true, accumulatedMs := 0, done := true); }
      if t.timing {
        t := t.(accumulatedMs := (t.accumulatedMs + SCAN_PERIOD_MS) % WORD_SIZE);
        if t.accumulatedMs >= t.presetMs { t := t.(accumulatedMs := t.presetMs, done := false, timing := false); }
      }
      if !t.inputState { t := t.(timing := false); }
    }
  }

  class PlcProgram {
    var rungs: seq<Rung>
    var scanCounter: uint16
    var currentPhase: Phase
    var fault: bool

    ghost function Value(): State
      reads this
    {
      State(rungs, scanCounter, currentPhase, fault)
    }

    constructor (rungs: seq<Rung>)
      ensures Value() == State(rungs, 0, INPUTS, false)
    {
      this.rungs, scanCounter, currentPhase, fault := rungs, 0, INPUTS, false;
    }

    method Write(address: uint16, value: bool)
      modifies this
      ensures Value() == After(old(Value()), WriteInput(address, value))
    {
      for i := 0 to |rungs|
        invariant Value() == old(Value()).(rungs := rungs) && |rungs| == |old(rungs)|
        invariant forall k :: 0 <= k < i ==> rungs[k] == RungWritten(old(rungs)[k], address, value)
        invariant forall k :: i <= k < |rungs| ==> rungs[k] == old(rungs)[k]
      {
        var contacts := rungs[i].contacts;
        for j := 0 to |contacts|
          invariant |contacts| == |rungs[i].contacts|
          invariant forall k :: 0 <= k < j ==> contacts[k] == Written(rungs[i].contacts[k], address, value)
          invariant forall k :: j <= k < |contacts| ==> contacts[k] == rungs[i].contacts[k]
        {
          if contacts[j].address == address { contacts := contacts[j := contacts[j].(state := value)]; }
        }
        assert rungs[i].(contacts := contacts) == RungWritten(rungs[i], address, value);
        rungs := rungs[i := rungs[i].(contacts := contacts)];
      }
      assert rungs == After(old(Value()), WriteInput(address, value)).rungs;
    }

    method EvaluateRung(i: nat) returns (power: bool)
      requires i < |rungs|
      modifies this
      ensures power == Power(old(rungs)[i].contacts)
      ensures Value() == old(Value()).(rungs := old(rungs)[i := Evaluated(old(rungs)[i])])
    {
      var rung := rungs[i];
      power := true;
      for j := 0 to |rung.contacts|
        invariant Value() == old(Value()) && power == Power(rung.contacts[..j])
      {
        var closed := EvaluateContact(rung.contacts[j]);
        power := power && closed;
        assert rung.contacts[..j + 1] == rung.contacts[..j] + [rung.contacts[j]];
      }
      assert rung.contacts[..|rung.contacts|] == rung.contacts;
      var timers := rung.timers;
      for j := 0 to |timers|
        invariant Value() == old(Value()) && |timers| == |rung.timers|
        invariant forall k :: 0 <= k < j ==> timers[k] == Powered(rung.timers[k], power)
        invariant forall k :: j <= k < |timers| ==> timers[k] == rung.timers[k]
      {
        var t := UpdateTimer(timers[j].(inputState := power));
        timers := timers[j := t];
      }
      rungs := rungs[i := rung.(powerFlow := power, timers := timers)];
      assert rungs[i].timers == Evaluated(rung).timers;
    }

    method UpdateOutputs()
      modifies this
      ensures Value() == old(Value()).(rungs := Map((r: Rung) => Output(r), old(rungs)))
    {
      for i := 0 to |rungs|
        invariant Value() == old(Value()).(rungs := rungs) && |rungs| == |old(rungs)|
        invariant forall k :: 0 <= k < i ==> rungs[k] == Output(old(rungs)[k])
        invariant forall k :: i <= k < |rungs| ==> rungs[k] == old(rungs)[k]
      {
        var coils := rungs[i].coils;
        for j := 0 to |coils|
          invariant |coils| == |rungs[i].coils|
          invariant forall k :: 0 <= k < j ==> coils[k] == Driven(rungs[i].coils[k], rungs[i].powerFlow)
          invariant forall k :: j <= k < |coils| ==> coils[k] == rungs[i].coils[k]
        {
          var coil := coils[j].(prevState := coils[j].state);
          if coil.kind == COIL_OUTPUT || coil.kind == COIL_INTERNAL {
            coil := coil.(state := rungs[i].powerFlow);
          } else if coil.kind == COIL_LATCH_SET {
            if rungs[i].powerFlow { coil := coil.(state := true); }
          } else if coil.kind == COIL_LATCH_RESET {
            if rungs[i].powerFlow { coil := coil.(state := false); }
          }
          coils := coils[j := coil];
        }
        assert rungs[i].(coils := coils) == Output(rungs[i]);
        rungs := rungs[i := rungs[i].(coils := coils)];
      }
      assert rungs == Map((r: Rung) => Output(r), old(rungs));
    }

    method ScanCycle()
      modifies this
      ensures Value() == After(old(Value()), Scan)
    {
      if fault { return; }
      hide Evaluated, Output;
      currentPhase := INPUTS;
      currentPhase := PROGRAM;
      for i := 0 to |rungs|
        invariant Value() == old(Value()).(rungs := rungs, currentPhase := PROGRAM) && |rungs| == |old(rungs)|
        invariant forall k :: 0 <= k < i ==> rungs[k] == Evaluated(old(rungs)[k])
        invariant forall k :: i <= k < |rungs| ==> rungs[k] == old(rungs)[k]
      {
        var _ := EvaluateRung(i);
      }
      EvaluatedRungs(old(rungs), rungs);
      currentPhase := OUTPUTS;
      UpdateOutputs();
      currentPhase := HOUSEKEEPING;
      scanCounter := (scanCounter + 1) % 0x1_0000;
      ScannedRungs(old(rungs), rungs);
      hide Map;
    }
  }
}
