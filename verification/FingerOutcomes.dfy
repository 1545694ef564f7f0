/** When a finger, a lift and a sample count: exact conditions for one turn, one capture and whole actions. */
module FingerOutcomes {
  import opened Common
  import opened FingerSpec
  import opened LiftGap

  // ---- readings and thresholds -------------------------------------------------------

  function ZoneAt(z: Zones, k: nat): Reading
    requires k < 6
  {
    [z.z0, z.z1, z.z2, z.z3, z.z4, z.z5][k]
  }

  /** Six little-endian words from byte seven on. */
  lemma ZonesExactly(b: Bytes, k: nat)
    requires |b| >= 20 && k < 6
    ensures var lo: int, hi: int := b[7 + 2 * k], b[8 + 2 * k];
            ZonesOf(b).Some? && ZoneAt(ZonesOf(b).value, k) == lo + 256 * hi
  {
  }

  /** Every zone gets the fixed low byte and half of its reading plus the offset, kept within 1..255. */
  lemma ThresholdsExactly(z: Zones, offset: nat, k: nat)
    requires k < 6
    ensures var half := ZoneAt(z, k) / 2 + offset;
            && Thresholds(z, offset)[2 * k] == 0x80
            && Thresholds(z, offset)[2 * k + 1] == if half > 255 then 255 else if half < 1 then 1 else half
  {
  }

  /** A lift packet or an on-demand reading is the new baseline if it is a zero touch, and the finger sample if not. */
  lemma StoredExactly(f: Finger, flag: Byte, z: Zones)
    ensures var g := StoreEither(f, flag, Some(z));
            && g.baseline == (if flag % 64 == 0 then Some(z) else f.baseline)
            && g.downSample == (if flag % 64 == 0 then f.downSample else Some(z))
            && g.trace == f.trace + [Touch(flag, Some(z))]
  {
  }

  /** An FDT-down arm sends and keeps the table of the baseline; without a baseline the table in force. */
  lemma DownArmExactly(f: Finger)
    ensures var regs := if f.baseline.Some? then Thresholds(f.baseline.value, 0) else f.downRegs;
            DownArm(f) == f.(downRegs := regs, trace := f.trace + [DownArmed(regs)])
  {
  }

  // ---- one turn of the finger wait -----------------------------------------------------

  /** The flag of a complete finger-down packet, in time. */
  function HeardFlag(t: WaitTurn): Option<Byte> {
    if t.cancelled || t.expired || t.reply.NoPacket? || |t.reply.bytes| < 17 then None else Some(t.reply.bytes[5])
  }

  /** Without its k lowest bits. */
  function Shifted(n: nat, k: nat): nat {
    if k == 0 then n else Shifted(n, k - 1) / 2
  }

  /** How many of the k lowest bits are set. */
  function LowBits(n: nat, k: nat): nat {
    if k == 0 then 0 else LowBits(n, k - 1) + Shifted(n, k - 1) % 2
  }

  lemma {:induction false} BitsSplit(n: nat, k: nat)
    ensures Bits(n) == LowBits(n, k) + Bits(Shifted(n, k))
  {
    if k > 0 {
      BitsSplit(n, k - 1);
    }
  }

  lemma {:induction false} ShiftedBound(n: nat, k: nat)
    requires n < PowerOfTwo(k)
    ensures Shifted(n, k) == 0
  {
    ShiftedBelow(n, k, k);
  }

  lemma {:induction false} ShiftedBelow(n: nat, k: nat, j: nat)
    requires j <= k && n < PowerOfTwo(k)
    ensures Shifted(n, j) < PowerOfTwo(k - j)
  {
    if j > 0 {
      ShiftedBelow(n, k, j - 1);
    }
  }

  /** The touched zones are the set bits among the six. */
  lemma BitsExactly(flag: Byte)
    ensures Bits(flag % 64) == LowBits(flag % 64, 6)
  {
    var n := flag % 64;
    BitsSplit(n, 6);
    assert PowerOfTwo(6) == 2 * PowerOfTwo(5) == 4 * PowerOfTwo(4) == 8 * PowerOfTwo(3) == 64;
    ShiftedBound(n, 6);
  }

  /** An on-demand reading needs a packet with all six zones; its flag is the sixth byte. */
  lemma ManualExactly(r: Reply)
    ensures ManualRead(r).Some? <==> r.Packet? && |r.bytes| >= 20
    ensures ManualRead(r).Some? ==> ManualRead(r).value == (r.bytes[5], ZonesOf(r.bytes).value)
  {
  }

  /** Enough zones, and no lift still owed. */
  predicate Presses(f: Finger, profileMin: nat, t: WaitTurn) {
    && HeardFlag(t).Some?
    && var flag := HeardFlag(t).value;
    && flag != 0xff && (f.requireLiftGap ==> flag == 0)
    && LowBits(flag % 64, 6) >= if profileMin > 0 then profileMin else 5
  }

  /** The listener had nothing yet, and the wait has time left. */
  predicate StillSilent(t: WaitTurn) {
    !t.cancelled && !t.expired && !t.expiredAfter && t.reply == NoPacket(TimedOut)
  }

  /** The turn got an answer that is no finger, so the detection is armed again. */
  predicate ArmsAgain(f: Finger, profileMin: nat, t: WaitTurn) {
    && !t.cancelled && !t.expired && !Presses(f, profileMin, t)
    && (t.reply.Packet? || (t.reply == NoPacket(Stopped) && !t.expiredAfter))
  }

  /** A turn ends the wait exactly with a finger, a cancellation, the deadline, or a failed arm. */
  lemma WaitTurnExactly(f: Finger, profileMin: nat, t: WaitTurn)
    ensures var r := WaitTurnOnce(f, profileMin, t);
            && (r.Ends? && r.outcome.Ok? <==> Presses(f, profileMin, t))
            && (r.GoesOn? <==> StillSilent(t) || (ArmsAgain(f, profileMin, t) && t.rearm.Acked?))
            && (r.Ends? && !Presses(f, profileMin, t) ==>
                  r.outcome == if t.cancelled then Err(Failure)
                               else if ArmsAgain(f, profileMin, t) then SendOutcome(t.rearm) else Err(Timeout))
            && (r.f.desynced <==> f.desynced || t.cancelled)
            && (ArmsAgain(f, profileMin, t) ==>
                  r.f.trace != [] && r.f.trace[|r.f.trace| - 1] == DownArmed(r.f.downRegs))
            && (r.f.requireLiftGap <==> f.requireLiftGap && HeardFlag(t) != Some(0))
            && r.f.downSample == if HeardFlag(t).Some? then ZonesOf(t.reply.bytes) else f.downSample
  {
    if HeardFlag(t).Some? {
      BitsExactly(HeardFlag(t).value);
    }
  }

  /** An arm fails by its cause: a broken descriptor closes the connection, and a missing ACK is a timeout. */
  lemma SendExactly(s: Send)
    ensures SendOutcome(s).Ok? <==> s.Acked?
    ensures SendOutcome(s) == Err(ConnectionClosed) <==> s == WriteFailed(BrokenPipe)
    ensures SendOutcome(s) == Err(Timeout) <==> s.NoAck? || s == WriteFailed(TimedOutErrno)
    ensures SendOutcome(s) == Err(Failure) <==> s.NoListener? || s == WriteFailed(OtherErrno)
  {
  }

  /** A finger is heard in one of these turns, and the wait goes on up to it. */
  predicate PressWithin(f: Finger, profileMin: nat, turns: seq<WaitTurn>)
    decreases |turns|
  {
    && turns != []
    && var r := WaitTurnOnce(f, profileMin, turns[0]);
    Presses(f, profileMin, turns[0]) || (r.GoesOn? && PressWithin(r.f, profileMin, turns[1..]))
  }

  lemma {:induction false} WaitTurnsExactly(f: Finger, profileMin: nat, turns: seq<WaitTurn>)
    ensures WaitTurns(f, profileMin, turns).1.Ok? <==> PressWithin(f, profileMin, turns)
    decreases |turns|
  {
    if turns != [] {
      WaitTurnExactly(f, profileMin, turns[0]);
      match WaitTurnOnce(f, profileMin, turns[0])
      case Ends(_, _) =>
      case GoesOn(g) => WaitTurnsExactly(g, profileMin, turns[1..]);
    }
  }

  /** A finger wait measures a missing base, arms, and succeeds exactly when the arm works and a press comes. */
  lemma WaitExactly(f: Finger, profileMin: nat, e: WaitEnv)
    ensures var armed := DownArm(if f.baseline.None? then MeasureBase(f, e.base).0 else f);
            && (WaitForFinger(f, profileMin, e).1.Ok? <==> e.arm.Acked? && PressWithin(armed, profileMin, e.turns))
            && (!e.arm.Acked? ==> WaitForFinger(f, profileMin, e) == (armed, SendOutcome(e.arm)))
            && armed.trace <= WaitForFinger(f, profileMin, e).0.trace
  {
    var armed := DownArm(if f.baseline.None? then MeasureBase(f, e.base).0 else f);
    WaitTurnsExactly(armed, profileMin, e.turns);
    WaitTurnsExtends(armed, profileMin, e.turns);
  }

  // ---- one turn of the lift wait -----------------------------------------------------------

  /** The answer of an armed lift turn is a zero touch: in a finger-up packet, or after silence in a manual reading. */
  predicate AnswersZero(t: LiftTurn) {
    match t.up
    case Packet(b) => |b| >= 17 && b[0] == 0x34 && b[5] == 0
    case NoPacket(error) => error == TimedOut && ReadsZero(t.manual)
  }

  /** The answer of an armed lift turn says that the finger is still there, or says nothing. */
  predicate AnswersTouched(t: LiftTurn) {
    match t.up
    case Packet(b) => |b| >= 17 && b[0] == 0x34 && b[5] != 0
    case NoPacket(error) => error == TimedOut && !ReadsZero(t.manual)
  }

  predicate ArmsLift(f: Finger, t: LiftTurn) {
    !t.cancelled && !t.expired && f.downSample.Some? && t.arm.Acked?
  }

  /** What the answer of an armed turn is taken for; none means that it failed. */
  lemma LiftFlagExactly(f: Finger, t: LiftTurn)
    ensures var (g, flag) := LiftFlag(f, t);
            && (flag == Some(0) <==> AnswersZero(t)) && (flag.Some? && flag.value != 0 <==> AnswersTouched(t))
            && g.desynced == f.desynced && g.requireLiftGap == f.requireLiftGap && g.refreshed == f.refreshed
  {
  }

  /** The sample of a finger that is still there, as the answer of an armed lift turn gives it. */
  function TouchedZones(t: LiftTurn): Option<Zones> {
    match t.up
    case Packet(b) => if |b| >= 20 && b[0] == 0x34 && b[5] % 64 != 0 then ZonesOf(b) else None
    case NoPacket(error) =>
      if error == TimedOut && ManualRead(t.manual).Some? && ManualRead(t.manual).value.0 % 64 != 0
      then Some(ManualRead(t.manual).value.1) else None
  }

  lemma LiftSampleExactly(f: Finger, t: LiftTurn)
    ensures LiftFlag(f, t).0.downSample == if TouchedZones(t).Some? then TouchedZones(t) else f.downSample
  {
  }

  lemma SettleExactly(g: Finger, flag: Option<Byte>, t: LiftTurn)
    ensures var r := Settle(g, flag, t);
            && (r.Ends? && r.outcome.Ok? <==> flag == Some(0)) && (r.GoesOn? <==> flag.Some? && flag.value != 0)
            && r.f.desynced == g.desynced && r.f.requireLiftGap == g.requireLiftGap
            && (r.f.refreshed <==> g.refreshed || (flag == Some(0) && t.darkFrame))
            && (flag == Some(0) && t.darkFrame && !g.refreshed ==> r.f.trace == g.trace + [BackFrame] + [Adopted])
            && (flag != Some(0) || !t.darkFrame || g.refreshed ==> r.f.trace == g.trace)
            && (flag.None? && (t.up.Packet? || t.up.error != TimedOut) ==> r == Ends(g, Err(Failure)))
  {
  }

  /** A lift turn confirms the lift exactly with a zero touch, and waits on exactly while the finger is not gone. */
  lemma LiftTurnExactly(f: Finger, t: LiftTurn)
    ensures var r := LiftTurnOnce(f, t);
            && (r.Ends? && r.outcome.Ok? <==> ArmsLift(f, t) && AnswersZero(t))
            && (r.GoesOn? <==> ArmsLift(f, t) && AnswersTouched(t))
            && (r.f.desynced <==> f.desynced || t.cancelled)
            && r.f.requireLiftGap == f.requireLiftGap
            && (r.f.refreshed <==> f.refreshed || (ArmsLift(f, t) && AnswersZero(t) && t.darkFrame))
  {
    if ArmsLift(f, t) {
      var (g, flag) := LiftFlag(UpArm(f), t);
      LiftFlagExactly(UpArm(f), t);
      SettleExactly(g, flag, t);
      assert LiftTurnOnce(f, t) == Settle(g, flag, t);
    }
  }

  /** And it fails by its cause: only the deadline and a timed-out arm are timeouts. */
  lemma LiftFailsExactly(f: Finger, t: LiftTurn)
    ensures var r := LiftTurnOnce(f, t);
            r.Ends? && r.outcome.Err? ==>
              r.outcome == if t.cancelled then Err(Failure) else if t.expired then Err(Timeout)
                           else if f.downSample.None? then Err(Failure)
                           else if !t.arm.Acked? then SendOutcome(t.arm) else Err(Failure)
  {
    if ArmsLift(f, t) {
      var (g, flag) := LiftFlag(UpArm(f), t);
      LiftFlagExactly(UpArm(f), t);
      SettleExactly(g, flag, t);
      assert LiftTurnOnce(f, t) == Settle(g, flag, t);
    }
  }

  /** A turn that reaches its arm sends half of the touched sample plus 29, in every zone. */
  lemma LiftArmExactly(f: Finger, t: LiftTurn)
    requires !t.cancelled && !t.expired && f.downSample.Some?
    ensures f.trace + [UpArmed(Thresholds(f.downSample.value, 29))] <= LiftTurnOnce(f, t).f.trace
  {
    if t.arm.Acked? {
      var armed := UpArm(f);
      LiftFlagExtends(armed, t);
      var (g, flag) := LiftFlag(armed, t);
      DarkFrameExtends(g, t.darkFrame);
      assert LiftTurnOnce(f, t) == Settle(g, flag, t);
    }
  }

  /** A deferred lift sets the flag, a confirmed one clears it, and a failed one leaves it and counts as no lift. */
  lemma LiftReportExactly(f: Finger, turns: seq<LiftTurn>, allowGap: bool)
    ensures var (waited, r) := LiftTurns(f, turns);
            var (g, lifted) := LiftReport(f, turns, allowGap);
            var deferred := allowGap && r == Err(Timeout);
            && (lifted <==> r.Ok? || deferred)
            && g == waited.(requireLiftGap := if lifted then deferred else waited.requireLiftGap)
  {
  }

  // ---- one capture --------------------------------------------------------------------------

  /** How one try ends: with the failure of its wait, or as its image ends. */
  function TryOutcome(f: Finger, profileMin: nat, e: CaptureEnv): Outcome {
    var waited := WaitForFinger(f, profileMin, e.wait).1;
    if waited.Ok? then e.image else waited
  }

  /** The finger was heard and its image taken. */
  predicate Takes(f: Finger, profileMin: nat, e: CaptureEnv) {
    WaitForFinger(f, profileMin, e.wait).1.Ok? && e.image.Ok?
  }

  /** The session was lost in the wait or in the image, and came up again. */
  predicate Recovers(f: Finger, profileMin: nat, e: CaptureEnv) {
    TryOutcome(f, profileMin, e) == Err(ConnectionClosed) && e.session.ok
  }

  /** The state in which the second try begins. */
  function Recovered(f: Finger, profileMin: nat, e: CaptureEnv): Finger {
    var (g, waited) := WaitForFinger(f, profileMin, e.wait);
    Restart(g, if waited.Ok? then CaptureFailed else WaitFailed, e.session)
  }

  /** A capture succeeds in its first try, or in its second after a lost session came up again. */
  predicate Captures(f: Finger, profileMin: nat, first: CaptureEnv, second: CaptureEnv) {
    || Takes(f, profileMin, first)
    || (Recovers(f, profileMin, first) && Takes(Recovered(f, profileMin, first), profileMin, second))
  }

  lemma TryKeepsSamples(f: Finger, profileMin: nat, e: CaptureEnv)
    ensures var g := WaitForFinger(f, profileMin, e.wait).0;
            Samples(g.trace) == Samples(f.trace) && Samples(g.Log(Sample).trace) == Samples(f.trace) + 1
    ensures TryOutcome(f, profileMin, e).Err? ==>
              Samples(Recovered(f, profileMin, e).trace) == Samples(f.trace)
  {
    var (g, waited) := WaitForFinger(f, profileMin, e.wait);
    WaitExtends(f, profileMin, e.wait);
    assert (g.trace + [Sample])[..|g.trace|] == g.trace;
    RestartExtends(g, if waited.Ok? then CaptureFailed else WaitFailed, e.session);
  }

  /**
    A capture counts, and logs exactly one sample, exactly when finger and image of its first try both work, or the
    first try lost the session, it came up again, and both work in the second try.
   */
  lemma CaptureExactly(f: Finger, profileMin: nat, first: CaptureEnv, second: CaptureEnv)
    ensures var (g, captured) := CaptureOne(f, profileMin, first, second);
            && (captured <==> Captures(f, profileMin, first, second))
            && Samples(g.trace) == Samples(f.trace) + (if captured then 1 else 0)
            && (captured ==> g.trace[|g.trace| - 1] == Sample)
  {
    FirstTry(f, profileMin, first, second);
    TryKeepsSamples(f, profileMin, first);
    if Recovers(f, profileMin, first) {
      var h := Recovered(f, profileMin, first);
      TryKeepsSamples(h, profileMin, second);
      SecondTry(h, profileMin, first, second);
    }
  }

  lemma FirstTry(f: Finger, profileMin: nat, first: CaptureEnv, second: CaptureEnv)
    ensures var g := WaitForFinger(f, profileMin, first.wait).0;
            CaptureOne(f, profileMin, first, second)
            == if Takes(f, profileMin, first) then (g.Log(Sample), true)
               else if TryOutcome(f, profileMin, first) != Err(ConnectionClosed) then (g, false)
               else if first.session.ok
               then CaptureOne(Recovered(f, profileMin, first), profileMin, first, second, true)
               else (Recovered(f, profileMin, first), false)
  {
  }

  /** The second try is not repeated. */
  lemma SecondTry(h: Finger, profileMin: nat, first: CaptureEnv, second: CaptureEnv)
    ensures var g := WaitForFinger(h, profileMin, second.wait).0;
            CaptureOne(h, profileMin, first, second, true)
            == if Takes(h, profileMin, second) then (g.Log(Sample), true) else (g, false)
  {
  }

  // ---- enrollment ------------------------------------------------------------------------------

  /** After this stage the enrollment goes on: captured, neither complete nor fatal, and the lift seen or deferred. */
  predicate StageGoesOn(f: Finger, profileMin: nat, s: Stage) {
    && Captures(f, profileMin, s.first, s.second) && !s.complete && !s.fatal
    && LiftReport(CaptureOne(f, profileMin, s.first, s.second).0, s.lift, true).1
  }

  function AfterStage(f: Finger, profileMin: nat, s: Stage): Finger {
    LiftReport(CaptureOne(f, profileMin, s.first, s.second).0, s.lift, true).0
  }

  /** The successful captures of the stages up to the first after which the enrollment does not go on. */
  function StageCaptures(f: Finger, profileMin: nat, stages: seq<Stage>): nat
    decreases |stages|
  {
    if stages == [] then 0
    else
      var s := stages[0];
      (if Captures(f, profileMin, s.first, s.second) then 1 else 0)
      + if !StageGoesOn(f, profileMin, s) then 0
        else StageCaptures(AfterStage(f, profileMin, s), profileMin, stages[1..])
  }

  lemma LiftKeepsSamples(f: Finger, turns: seq<LiftTurn>, allowGap: bool)
    ensures Samples(LiftReport(f, turns, allowGap).0.trace) == Samples(f.trace)
  {
    LiftIsZeroTouch(f, turns);
  }

  /** The samples of an enrollment are its successful captures, and it stops at its first complete or fatal stage. */
  lemma {:induction false} EnrollExactly(f: Finger, profileMin: nat, stages: seq<Stage>)
    ensures Samples(Enroll(f, profileMin, stages).trace) == Samples(f.trace) + StageCaptures(f, profileMin, stages)
    decreases |stages|
  {
    if stages != [] {
      var s := stages[0];
      var g := CaptureOne(f, profileMin, s.first, s.second).0;
      CaptureExactly(f, profileMin, s.first, s.second);
      LiftKeepsSamples(g, s.lift, true);
      if StageGoesOn(f, profileMin, s) {
        EnrollExactly(AfterStage(f, profileMin, s), profileMin, stages[1..]);
      }
    }
  }

  /** No stage after a complete or fatal one, a failed capture or a failed lift has any effect. */
  lemma EnrollStops(f: Finger, profileMin: nat, stages: seq<Stage>, s: Stage, more: seq<Stage>)
    requires stages == [s] + more && !StageGoesOn(f, profileMin, s)
    ensures Enroll(f, profileMin, stages) == Enroll(f, profileMin, [s])
  {
    CaptureExactly(f, profileMin, s.first, s.second);
    assert [s][1..] == [];
  }

  // ---- a match action ----------------------------------------------------------------------------

  predicate IsRetryImage(e: Event) {
    e.RetryImage?
  }

  function RetryImages(trace: seq<Event>): nat {
    Count(trace, IsRetryImage)
  }

  /** The press goes on: a manual reading still counts enough zones, and its image works. */
  predicate PressGoesOn(profileMin: nat, e: RetryEnv) {
    ManualRead(e.manual).Some? && IsFinger(profileMin, ManualRead(e.manual).value.0) && e.image
  }

  /** How often it does, from the start. */
  function PressLength(profileMin: nat, retries: seq<RetryEnv>): nat {
    if retries == [] || !PressGoesOn(profileMin, retries[0]) then 0 else 1 + PressLength(profileMin, retries[1..])
  }

  /** The sample of the last reading that still counted as a finger. */
  function LastPressed(sample: Option<Zones>, profileMin: nat, retries: seq<RetryEnv>): Option<Zones>
    decreases |retries|
  {
    if retries == [] || ManualRead(retries[0].manual).None? then sample
    else
      var (flag, zones) := ManualRead(retries[0].manual).value;
      if !IsFinger(profileMin, flag) then sample
      else if !retries[0].image then Some(zones)
      else LastPressed(Some(zones), profileMin, retries[1..])
  }

  lemma {:induction false} RetriesExactly(f: Finger, profileMin: nat, retries: seq<RetryEnv>)
    ensures var g := Retries(f, profileMin, retries);
            && RetryImages(g.trace) == RetryImages(f.trace) + PressLength(profileMin, retries)
            && Samples(g.trace) == Samples(f.trace) && g.requireLiftGap == f.requireLiftGap
            && g.downSample == LastPressed(f.downSample, profileMin, retries)
    decreases |retries|
  {
    if retries != [] && ManualRead(retries[0].manual).Some? {
      var (flag, zones) := ManualRead(retries[0].manual).value;
      var g := f.Log(Probe(flag));
      EventCounts(f, Probe(flag));
      if IsFinger(profileMin, flag) && retries[0].image {
        var h := g.(downSample := Some(zones));
        EventCounts(h, RetryImage);
        RetriesExactly(h.Log(RetryImage), profileMin, retries[1..]);
      }
    }
  }

  lemma EventCounts(f: Finger, e: Event)
    ensures RetryImages(f.Log(e).trace) == RetryImages(f.trace) + if e.RetryImage? then 1 else 0
    ensures Samples(f.Log(e).trace) == Samples(f.trace) + if e.Sample? then 1 else 0
  {
    assert (f.trace + [e])[..|f.trace|] == f.trace;
  }

  /** Every session boundary with an activation resets the capture state of the detector. */
  lemma RestartExactly(f: Finger, cause: Cause, e: SessionEnv)
    requires e.primes != []
    ensures var g := Restart(f, cause, e);
            !g.requireLiftGap && !g.desynced && g.downRegs == DEFAULT_DOWN && Samples(g.trace) == Samples(f.trace)
  {
    var b := Bounded(f, cause, e);
    EventCounts(f, Boundary(cause, f.requireLiftGap && e.primes != []));
    ActivationsExtend(b, e.primes);
    ActivationsReset(b, e.primes);
  }

  lemma {:induction false} ActivationsReset(f: Finger, primes: seq<Option<PrimeEnv>>)
    ensures var g := Activations(f, primes);
            primes != [] || (!f.desynced && f.downRegs == DEFAULT_DOWN) ==> !g.desynced && g.downRegs == DEFAULT_DOWN
    decreases |primes|
  {
    if primes != [] {
      var g := ResetCapture(f);
      if primes[0].Some? {
        PrimeKeepsTable(g, primes[0].value);
        ActivationsReset(Prime(g, primes[0].value), primes[1..]);
      } else {
        ActivationsReset(g, primes[1..]);
      }
    }
  }

  lemma MeasureKeepsTable(f: Finger, r: Reply)
    ensures MeasureBase(f, r).0.desynced == f.desynced && MeasureBase(f, r).0.downRegs == f.downRegs
  {
  }

  lemma PrimeKeepsTable(f: Finger, e: PrimeEnv)
    ensures Prime(f, e).desynced == f.desynced && Prime(f, e).downRegs == f.downRegs
  {
    var f1 := MeasureBase(f, e.fdt1).0;
    MeasureKeepsTable(f, e.fdt1);
    MeasureKeepsTable(f1, e.fdt2);
    PrimeFrameKeepsTable(MeasureBase(f1, e.fdt2).0, MeasureBase(f1, e.fdt2).1, e);
  }

  lemma PrimeFrameKeepsTable(f: Finger, off2: bool, e: PrimeEnv)
    ensures PrimeFrame(f, off2, e).desynced == f.desynced && PrimeFrame(f, off2, e).downRegs == f.downRegs
  {
    MeasureKeepsTable(if e.frame then f.Log(BackFrame) else f, e.fdt3);
  }

  /** A boundary whose activations read nothing leaves no finger sample. */
  lemma {:induction false} RestartForgets(f: Finger, primes: seq<Option<PrimeEnv>>)
    requires primes != [] && forall i | 0 <= i < |primes| :: primes[i].None?
    ensures Activations(f, primes).downSample.None?
    decreases |primes|
  {
    if |primes| > 1 {
      RestartForgets(ResetCapture(f), primes[1..]);
    }
  }

  predicate IsAdoption(e: Event) {
    e.Adopted?
  }

  function Adoptions(trace: seq<Event>): nat {
    Count(trace, IsAdoption)
  }

  lemma AdoptionLog(f: Finger, e: Event)
    ensures Adoptions(f.Log(e).trace) == Adoptions(f.trace) + if e.Adopted? then 1 else 0
  {
    assert (f.trace + [e])[..|f.trace|] == f.trace;
  }

  lemma MeasureAdoptsNothing(f: Finger, r: Reply)
    ensures Adoptions(MeasureBase(f, r).0.trace) == Adoptions(f.trace)
  {
    if ManualRead(r).Some? {
      var (flag, zones) := ManualRead(r).value;
      AdoptionLog(f, Touch(flag, Some(zones)));
      StoreBaseStep(f, flag, Some(zones));
    }
  }

  /** Priming adopts its frame exactly when none was adopted in this open and both readings around it are finger-off. */
  lemma PrimeAdoptsExactly(f: Finger, e: PrimeEnv)
    ensures Adoptions(Prime(f, e).trace)
            == Adoptions(f.trace) + if !f.refreshed && e.frame && ReadsOff(e.fdt2) && ReadsOff(e.fdt3) then 1 else 0
  {
    if PrimeReads(f.refreshed, e) {
      var f1 := MeasureBase(f, e.fdt1).0;
      MeasureAdoptsNothing(f, e.fdt1);
      MeasureSees(f, e.fdt1);
      var (f2, off2) := MeasureBase(f1, e.fdt2);
      MeasureAdoptsNothing(f1, e.fdt2);
      MeasureSees(f1, e.fdt2);
      FrameAdoptsExactly(f2, off2, e);
    }
  }

  lemma FrameAdoptsExactly(f: Finger, off2: bool, e: PrimeEnv)
    ensures Adoptions(PrimeFrame(f, off2, e).trace)
            == Adoptions(f.trace) + if !f.refreshed && e.frame && off2 && ReadsOff(e.fdt3) then 1 else 0
  {
    var framed := if e.frame then f.Log(BackFrame) else f;
    AdoptionLog(f, BackFrame);
    MeasureAdoptsNothing(framed, e.fdt3);
    MeasureSees(framed, e.fdt3);
    AdoptionLog(MeasureBase(framed, e.fdt3).0, Adopted);
  }

  lemma StartKeepsSamples(f: Finger, e: SessionEnv)
    ensures Samples(Restart(f, ActionStart, e).trace) == Samples(f.trace)
  {
    EventCounts(f, Boundary(ActionStart, f.requireLiftGap && e.primes != []));
    ActivationsExtend(Bounded(f, ActionStart, e), e.primes);
  }

  /** The samples an operation takes: none without a session, one per successful capture. */
  function TakenBy(f: Finger, profileMin: nat, op: Op): nat {
    match op
    case Open => 0
    case EnrollAction(session, stages) =>
      if session.ok then StageCaptures(Restart(f, ActionStart, session), profileMin, stages) else 0
    case MatchAction(session, first, second, _, _) =>
      if session.ok && Captures(Restart(f, ActionStart, session), profileMin, first, second) then 1 else 0
  }

  /** For every operation from every state the samples logged are exactly its successful captures. */
  lemma SamplesExactly(f: Finger, profileMin: nat, op: Op)
    ensures Samples(Apply(f, profileMin, op).trace) == Samples(f.trace) + TakenBy(f, profileMin, op)
  {
    match op
    case Open => EventCounts(f, ColdBoundary);
    case EnrollAction(session, stages) =>
      StartKeepsSamples(f, session);
      EnrollExactly(Restart(f, ActionStart, session), profileMin, stages);
    case MatchAction(session, first, second, retries, cleanup) =>
      var g := Restart(f, ActionStart, session);
      StartKeepsSamples(f, session);
      CaptureExactly(g, profileMin, first, second);
      var h := CaptureOne(g, profileMin, first, second).0;
      RetriesExactly(h, profileMin, retries);
      if cleanup.Some? {
        LiftKeepsSamples(Retries(h, profileMin, retries), cleanup.value, false);
      }
  }

  /** After a successful capture come the further images of the press, and the lift wait if one is asked for. */
  lemma MatchImagesExactly(f: Finger, profileMin: nat, op: Op)
    requires op.MatchAction? && op.session.ok
    ensures var (h, captured) := CaptureOne(Restart(f, ActionStart, op.session), profileMin, op.first, op.second);
            var pressed := Retries(h, profileMin, op.retries);
            Apply(f, profileMin, op)
            == if !captured then h
               else if op.cleanup.Some? then LiftReport(pressed, op.cleanup.value, false).0 else pressed
  {
  }

  /** Opening is a cold boundary: baseline, finger sample, flag and adoption are forgotten. */
  lemma OpenExactly(f: Finger, profileMin: nat)
    ensures var g := Apply(f, profileMin, Open);
            && g.baseline.None? && g.downSample.None? && !g.requireLiftGap && !g.refreshed
            && g.downRegs == f.downRegs && g.desynced == f.desynced && g.trace == f.trace + [ColdBoundary]
  {
  }
}
