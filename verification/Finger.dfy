/** The finger-detection fields of the device, updated in place; each method is tied to its transition. */
module Finger {
  import opened Common
  import opened F = FingerSpec

  function Zone(z: Zones, i: nat): Reading
    requires i < 6
  {
    match i
    case 0 => z.z0
    case 1 => z.z1
    case 2 => z.z2
    case 3 => z.z3
    case 4 => z.z4
    case _ => z.z5
  }

  /** How many of the six zones are touched. */
  method TouchCount(flag: Byte) returns (count: nat)
    ensures count == Bits(flag % 64)
  {
    var zones := flag % 64;
    count := 0;
    while zones != 0
      invariant 0 <= zones && count + Bits(zones) == Bits(flag % 64)
      decreases zones
    {
      count := count + zones % 2;
      zones := zones / 2;
    }
  }

  /** Every zone has the fixed low byte and its own half, raised and clamped. */
  lemma ThresholdsAt(z: Zones, offset: nat, i: nat)
    requires i < 6
    ensures Thresholds(z, offset)[2 * i] == 0x80
    ensures Thresholds(z, offset)[2 * i + 1] == Clamp(Zone(z, i) / 2 + offset)
  {
  }

  /** Writes a threshold table zone by zone. */
  method FillThresholds(regs: array<Byte>, z: Zones, offset: nat)
    requires regs.Length == 12
    modifies regs
    ensures regs[..] == Thresholds(z, offset)
  {
    var want := Thresholds(z, offset);
    for i := 0 to 6
      invariant forall k | 0 <= k < 2 * i :: regs[k] == want[k]
    {
      regs[2 * i] := 0x80;
      regs[2 * i + 1] := Clamp(Zone(z, i) / 2 + offset);
      ThresholdsAt(z, offset, i);
    }
  }

  class Detector {
    const profileMin: nat
    var fdtBaseline: Zones
    var fdtBaselineValid: bool
    var fdtDownSample: Zones
    var fdtDownSampleValid: bool
    const fdtDownRegs: array<Byte>
    var requireLiftGap: bool
    var sessionDesynced: bool
    var refreshedThisOpen: bool
    ghost var trace: seq<Event>

    ghost predicate Valid() {
      fdtDownRegs.Length == 12
    }

    ghost function State(): F.Finger
      requires Valid()
      reads this, fdtDownRegs
    {
      F.Finger.Finger(if fdtBaselineValid then Some(fdtBaseline) else None,
                      if fdtDownSampleValid then Some(fdtDownSample) else None,
                      fdtDownRegs[..], requireLiftGap, sessionDesynced, refreshedThisOpen, trace)
    }

    constructor (profileMin: nat)
      ensures Valid() && fresh(fdtDownRegs) && State() == INITIAL && this.profileMin == profileMin
    {
      this.profileMin := profileMin;
      fdtDownRegs := new Byte[12](i requires 0 <= i < 12 => DEFAULT_DOWN[i]);
      fdtBaseline, fdtDownSample := Zones(0, 0, 0, 0, 0, 0), Zones(0, 0, 0, 0, 0, 0);
      fdtBaselineValid, fdtDownSampleValid := false, false;
      requireLiftGap, sessionDesynced, refreshedThisOpen := false, false, false;
      trace := [];
      new;
      assert fdtDownRegs[..] == DEFAULT_DOWN;
    }

    method MarkColdBoundary()
      requires Valid()
      modifies this
      ensures State() == MarkCold(old(State()))
    {
      refreshedThisOpen := false;
      fdtBaselineValid := false;
      fdtDownSampleValid := false;
      requireLiftGap := false;
      trace := trace + [ColdBoundary];
    }

    method ResetCaptureState()
      requires Valid()
      modifies this, fdtDownRegs
      ensures State() == ResetCapture(old(State()))
    {
      sessionDesynced := false;
      fdtDownSampleValid := false;
      requireLiftGap := false;
      Memcpy(fdtDownRegs, 0, DEFAULT_DOWN);
      assert fdtDownRegs[..] == DEFAULT_DOWN;
    }

    // ---- readings ------------------------------------------------------------------

    method StoreZeroTouchBaseline(sample: Zones)
      modifies this`fdtBaseline, this`fdtBaselineValid
      ensures fdtBaselineValid && fdtBaseline == sample
    {
      fdtBaseline := sample;
      fdtBaselineValid := true;
    }

    /** A full sample feeds the baseline or, where the finger is on, the finger-down sample. */
    method Store(touchflag: Byte, zones: Option<Zones>)
      requires Valid()
      modifies this
      ensures State() == StoreEither(old(State()), touchflag, zones)
    {
      trace := trace + [Touch(touchflag, zones)];
      if zones.Some? {
        if touchflag % 64 == 0 {
          StoreZeroTouchBaseline(zones.value);
        } else {
          fdtDownSample := zones.value;
          fdtDownSampleValid := true;
        }
      }
    }

    method FdtDownRead(response: Bytes) returns (touchflag: Byte)
      requires Valid()
      modifies this
      ensures (State(), touchflag) == DownRead(old(State()), response)
    {
      if |response| < 17 {
        return TOUCH_IGNORE;
      }
      touchflag := response[5];
      trace := trace + [Touch(touchflag, ZonesOf(response))];
      fdtDownSampleValid := false;
      if |response| >= 20 {
        fdtDownSample := ZonesOf(response).value;
        fdtDownSampleValid := true;
        if touchflag % 64 == 0 {
          StoreZeroTouchBaseline(fdtDownSample);
        }
      }
    }

    method ParseFdtUp(response: Bytes) returns (touchflag: Option<Byte>)
      requires Valid()
      modifies this
      ensures (State(), touchflag) == UpRead(old(State()), response)
    {
      if |response| < 17 || response[0] != FDT_UP {
        return None;
      }
      Store(response[5], ZonesOf(response));
      touchflag := Some(response[5]);
    }

    method FdtMeasureBase(reply: Reply) returns (fingerOff: bool)
      requires Valid()
      modifies this
      ensures (State(), fingerOff) == MeasureBase(old(State()), reply)
    {
      var manual := ManualRead(reply);
      if manual.None? {
        return false;
      }
      Store(manual.value.0, Some(manual.value.1));
      fingerOff := manual.value.0 % 64 == 0;
    }

    // ---- arming --------------------------------------------------------------------

    /** Rewrites the register table from the baseline; without one it stays. */
    method UpdateDownThresholds()
      requires Valid()
      modifies fdtDownRegs
      ensures fdtDownRegs[..] == DownRegs(old(State()))
    {
      if fdtBaselineValid {
        FillThresholds(fdtDownRegs, fdtBaseline, 0);
      }
    }

    method FdtDownArm()
      requires Valid()
      modifies this, fdtDownRegs
      ensures State() == DownArm(old(State()))
    {
      UpdateDownThresholds();
      trace := trace + [DownArmed(fdtDownRegs[..])];
    }

    method FdtUpArm() returns (sent: bool)
      requires Valid()
      modifies this`trace
      ensures State() == UpArm(old(State())) && sent == fdtDownSampleValid
    {
      if !fdtDownSampleValid {
        return false;
      }
      var regs := new Byte[12](_ => 0);
      FillThresholds(regs, fdtDownSample, UP_OFFSET);
      trace := trace + [UpArmed(regs[..])];
      sent := true;
    }

    // ---- waiting -------------------------------------------------------------------

    /** What a touch flag means while waiting for a finger; settles an owed lift. */
    method Interpret(touchflag: Byte) returns (heard: Heard)
      requires Valid()
      modifies this`requireLiftGap
      ensures (State(), heard) == Hear(old(State()), profileMin, touchflag)
    {
      if touchflag == TOUCH_IGNORE {
        return Rearm;
      }
      if requireLiftGap {
        if touchflag == 0 {
          requireLiftGap := false;
        } else {
          return Rearm;
        }
      }
      var count := TouchCount(touchflag);
      heard := if count >= TriggerMin(profileMin) then FingerDown else Rearm;
    }

    method WaitForFinger(e: WaitEnv) returns (r: Outcome)
      requires Valid()
      modifies this, fdtDownRegs
      ensures (State(), r) == F.WaitForFinger(old(State()), profileMin, e)
    {
      if !fdtBaselineValid {
        var _ := FdtMeasureBase(e.base);
      }
      FdtDownArm();
      if !e.arm.Acked? {
        return SendOutcome(e.arm);
      }
      r := WaitLoop(e.turns);
    }

    /** One reply while armed. */
    method Listen(reply: Reply) returns (heard: Heard)
      requires Valid()
      modifies this
      ensures (State(), heard) == HearReply(old(State()), profileMin, reply)
    {
      match reply {
        case Packet(response) =>
          var touchflag := FdtDownRead(response);
          heard := Interpret(touchflag);
        case NoPacket(error) =>
          heard := if error == TimedOut then Heard.Listen else Rearm;
      }
    }

    /** One turn of the finger wait; no outcome means that it goes on. */
    method WaitOnce(t: WaitTurn) returns (r: Option<Outcome>)
      requires Valid()
      modifies this, fdtDownRegs
      ensures WaitTurnOnce(old(State()), profileMin, t)
           == if r.Some? then Ends(State(), r.value) else GoesOn(State())
    {
      if t.cancelled {
        sessionDesynced := true;
        return Some(Err(Failure));
      }
      if t.expired || (t.reply.NoPacket? && t.expiredAfter) {
        return Some(Err(Timeout));
      }
      var heard := Listen(t.reply);
      if heard == FingerDown {
        return Some(Ok);
      } else if heard == Rearm {
        FdtDownArm();
        if !t.rearm.Acked? {
          return Some(SendOutcome(t.rearm));
        }
      }
      r := None;
    }

    method WaitLoop(turns: seq<WaitTurn>) returns (r: Outcome)
      requires Valid()
      modifies this, fdtDownRegs
      ensures (State(), r) == WaitTurns(old(State()), profileMin, turns)
    {
      for i := 0 to |turns|
        invariant WaitTurns(State(), profileMin, turns[i..]) == WaitTurns(old(State()), profileMin, turns)
      {
        ghost var rest := turns[i..];
        assert rest[0] == turns[i] && rest[1..] == turns[i + 1..];
        var ended := WaitOnce(turns[i]);
        if ended.Some? {
          return ended.value;
        }
      }
      r := Err(Timeout);
    }

    /** An FDT-up answer, or after silence a manual reading; none if the turn failed. */
    method LiftAnswer(t: LiftTurn) returns (touchflag: Option<Byte>)
      requires Valid()
      modifies this
      ensures (State(), touchflag) == LiftFlag(old(State()), t)
    {
      match t.up {
        case Packet(response) =>
          touchflag := ParseFdtUp(response);
        case NoPacket(error) =>
          if error != TimedOut {
            return None;
          }
          var manual := ManualRead(t.manual);
          if manual.None? {
            return Some(TOUCH_IGNORE);
          }
          Store(manual.value.0, Some(manual.value.1));
          touchflag := Some(manual.value.0);
      }
    }

    method CaptureDarkFrame(captured: bool)
      requires Valid()
      modifies this
      ensures State() == DarkFrame(old(State()), captured)
    {
      if !refreshedThisOpen && captured {
        trace := trace + [BackFrame] + [Adopted];
        refreshedThisOpen := true;
      }
    }

    /** One turn of the lift wait; no outcome means that it goes on. */
    method LiftOnce(t: LiftTurn) returns (r: Option<Outcome>)
      requires Valid()
      modifies this
      ensures LiftTurnOnce(old(State()), t) == if r.Some? then Ends(State(), r.value) else GoesOn(State())
    {
      if t.cancelled {
        sessionDesynced := true;
        return Some(Err(Failure));
      }
      if t.expired {
        return Some(Err(Timeout));
      }
      var sent := FdtUpArm();
      if !sent {
        return Some(Err(Failure));
      }
      if !t.arm.Acked? {
        return Some(SendOutcome(t.arm));
      }
      var touchflag := LiftAnswer(t);
      if touchflag.None? {
        return Some(Err(if t.up.NoPacket? then AwaitFailure(t.up.error) else Failure));
      }
      if touchflag.value != 0 {
        return None;
      }
      CaptureDarkFrame(t.darkFrame);
      r := Some(Ok);
    }

    method WaitForLift(turns: seq<LiftTurn>) returns (r: Outcome)
      requires Valid()
      modifies this
      ensures (State(), r) == LiftTurns(old(State()), turns)
    {
      for i := 0 to |turns|
        invariant LiftTurns(State(), turns[i..]) == LiftTurns(old(State()), turns)
      {
        ghost var rest := turns[i..];
        assert rest[0] == turns[i] && rest[1..] == turns[i + 1..];
        var ended := LiftOnce(turns[i]);
        if ended.Some? {
          return ended.value;
        }
      }
      r := Err(Timeout);
    }

    method WaitForLiftReport(turns: seq<LiftTurn>, allowFdtDownGap: bool) returns (lifted: bool)
      requires Valid()
      modifies this
      ensures (State(), lifted) == LiftReport(old(State()), turns, allowFdtDownGap)
    {
      var r := WaitForLift(turns);
      if r.Err? {
        if allowFdtDownGap && r.error == Timeout {
          requireLiftGap := true;
          return true;
        }
        return false;
      }
      requireLiftGap := false;
      lifted := true;
    }

    // ---- sessions ------------------------------------------------------------------

    /** The T0 frame and the reading after it; adopted only between two finger-off readings. */
    method PrimeAround(fdt2FingerOff: bool, e: PrimeEnv)
      requires Valid()
      modifies this
      ensures State() == PrimeFrame(old(State()), fdt2FingerOff, e)
    {
      if e.frame {
        trace := trace + [BackFrame];
      }
      var fdt3FingerOff := FdtMeasureBase(e.fdt3);
      if e.frame && !refreshedThisOpen && fdt2FingerOff && fdt3FingerOff {
        trace := trace + [Adopted];
        refreshedThisOpen := true;
      }
    }

    /** The calibration pass after bring-up. */
    method PrimeT0(e: PrimeEnv)
      requires Valid()
      modifies this
      ensures State() == Prime(old(State()), e)
    {
      if refreshedThisOpen && !e.forced {
        return;
      }
      var _ := FdtMeasureBase(e.fdt1);
      var fdt2FingerOff := FdtMeasureBase(e.fdt2);
      PrimeAround(fdt2FingerOff, e);
    }

    method RestartSession(cause: Cause, e: SessionEnv)
      requires Valid()
      modifies this, fdtDownRegs
      ensures State() == Restart(old(State()), cause, e)
    {
      trace := trace + [Boundary(cause, requireLiftGap && e.primes != [])];
      sessionDesynced := false;
      for i := 0 to |e.primes|
        invariant Activations(State(), e.primes[i..]) == Restart(old(State()), cause, e)
      {
        ghost var rest := e.primes[i..];
        assert rest[0] == e.primes[i] && rest[1..] == e.primes[i + 1..];
        ResetCaptureState();
        if e.primes[i].Some? {
          PrimeT0(e.primes[i].value);
        }
      }
    }

    // ---- captures ------------------------------------------------------------------

    method CaptureOneRaw(first: CaptureEnv, second: CaptureEnv) returns (captured: bool)
      requires Valid()
      modifies this, fdtDownRegs
      ensures (State(), captured) == CaptureOne(old(State()), profileMin, first, second)
    {
      var retry := false;
      while true
        invariant CaptureOne(State(), profileMin, first, second, retry)
               == CaptureOne(old(State()), profileMin, first, second)
        decreases !retry
      {
        var e := if retry then second else first;
        var waited := WaitForFinger(e.wait);
        var outcome := if waited.Err? then waited else e.image;
        if outcome.Ok? {
          trace := trace + [Sample];
          return true;
        }
        if outcome.error != ConnectionClosed || retry {
          return false;
        }
        RestartSession(if waited.Err? then WaitFailed else CaptureFailed, e.session);
        if !e.session.ok {
          return false;
        }
        retry := true;
      }
    }

    method EnrollSync(stages: seq<Stage>)
      requires Valid()
      modifies this, fdtDownRegs
      ensures State() == Enroll(old(State()), profileMin, stages)
    {
      for i := 0 to |stages|
        invariant Enroll(State(), profileMin, stages[i..]) == Enroll(old(State()), profileMin, stages)
      {
        var s := stages[i];
        ghost var rest := stages[i..];
        assert rest[0] == s && rest[1..] == stages[i + 1..];
        var captured := CaptureOneRaw(s.first, s.second);
        if !captured || s.fatal || s.complete {
          return;
        }
        var lifted := WaitForLiftReport(s.lift, true);
        if !lifted {
          return;
        }
      }
    }

    /** Images of the current press, while a manual reading counts enough zones. */
    method RetryCaptures(retries: seq<RetryEnv>)
      requires Valid()
      modifies this
      ensures State() == Retries(old(State()), profileMin, retries)
    {
      for i := 0 to |retries|
        invariant Retries(State(), profileMin, retries[i..]) == Retries(old(State()), profileMin, retries)
      {
        ghost var rest := retries[i..];
        assert rest[0] == retries[i] && rest[1..] == retries[i + 1..];
        var manual := ManualRead(retries[i].manual);
        if manual.None? {
          return;
        }
        trace := trace + [Probe(manual.value.0)];
        var touched := TouchCount(manual.value.0);
        if touched < TriggerMin(profileMin) {
          return;
        }
        fdtDownSample := manual.value.1;
        fdtDownSampleValid := true;
        if !retries[i].image {
          return;
        }
        trace := trace + [RetryImage];
      }
    }

    /** One operation of a run. */
    method Run(op: Op)
      requires Valid()
      modifies this, fdtDownRegs
      ensures State() == Apply(old(State()), profileMin, op)
    {
      match op {
        case Open => MarkColdBoundary();
        case EnrollAction(session, stages) =>
          RestartSession(ActionStart, session);
          if session.ok {
            EnrollSync(stages);
          }
        case MatchAction(session, first, second, retries, cleanup) =>
          RestartSession(ActionStart, session);
          if !session.ok {
            return;
          }
          var captured := CaptureOneRaw(first, second);
          if captured {
            RetryCaptures(retries);
            if cleanup.Some? {
              var _ := WaitForLiftReport(cleanup.value, false);
            }
          }
      }
    }
  }
}
