/** Finger detection, lift confirmation and frame adoption as transitions over the finger state. */
module FingerSpec {
  import opened Common

  const FDT_UP: Byte := 0x34
  const TOUCH_IGNORE: Byte := 0xff
  const UP_OFFSET: nat := 29

  /** One 16-bit reading per sensor zone. */
  type Reading = x: int | 0 <= x < 0x1_0000
  datatype Zones = Zones(z0: Reading, z1: Reading, z2: Reading, z3: Reading, z4: Reading, z5: Reading)

  type Registers = b: Bytes | |b| == 12 witness seq(12, _ => 0)

  const DEFAULT_DOWN: Bytes := [0x80, 0xad, 0x80, 0xbb, 0x80, 0xa2, 0x80, 0xae, 0x80, 0xa3, 0x80, 0xae]

  // ---- state -----------------------------------------------------------------------

  /** Why a session boundary was crossed. */
  datatype Cause = ActionStart | WaitFailed | CaptureFailed

  datatype Event =
    | ColdBoundary
      // forgets: the boundary cleared a set lift-gap flag
    | Boundary(cause: Cause, forgets: bool)
    | Touch(flag: Byte, zones: Option<Zones>)
      // a reading that is only counted, between two images of one press
    | Probe(flag: Byte)
    | DownArmed(regs: Registers)
    | UpArmed(regs: Registers)
    | Sample
    | RetryImage
    | BackFrame
    | Adopted

  datatype Finger = Finger(
    baseline: Option<Zones>,
    downSample: Option<Zones>,
    downRegs: Registers,
    requireLiftGap: bool,
    desynced: bool,
    refreshed: bool,
    trace: seq<Event>)
  {
    function Log(e: Event): Finger {
      this.(trace := trace + [e])
    }
  }

  /** How a step fails; only a closed connection calls for a session restart. */
  datatype Error = Timeout | ConnectionClosed | Failure

  datatype Outcome = Ok | Err(error: Error)

  /** A listener wait ends by timeout or because the listener stopped; no wait reports a closed connection. */
  datatype AwaitError = TimedOut | Stopped

  /** What an awaited packet turns out to be. */
  datatype Reply = Packet(bytes: Bytes) | NoPacket(error: AwaitError)

  /** The error number of a failed write: EPIPE or ECONNRESET, ETIMEDOUT, or any other. */
  datatype Errno = BrokenPipe | TimedOutErrno | OtherErrno

  /** How an acknowledged submit ends. */
  datatype Send = Acked | NoAck | NoListener | WriteFailed(errno: Errno)

  /** Outside image captures only a write to a broken SPI descriptor becomes a closed connection. */
  function SendOutcome(s: Send): Outcome {
    match s
    case Acked => Ok
    case NoAck => Err(Timeout)
    case NoListener => Err(Failure)
    case WriteFailed(errno) =>
      Err(if errno == BrokenPipe then ConnectionClosed else if errno == TimedOutErrno then Timeout else Failure)
  }

  function AwaitFailure(error: AwaitError): Error {
    if error == TimedOut then Timeout else Failure
  }

  // ---- readings ----------------------------------------------------------------------

  /** All six touch bits are clear. */
  predicate ZeroTouch(flag: Byte) {
    flag % 64 == 0
  }

  function Bits(n: nat): nat {
    if n == 0 then 0 else n % 2 + Bits(n / 2)
  }

  function TriggerMin(profileMin: nat): nat {
    if profileMin > 0 then profileMin else 5
  }

  predicate IsFinger(profileMin: nat, flag: Byte) {
    Bits(flag % 64) >= TriggerMin(profileMin)
  }

  function Word(b: Bytes, at: nat): Reading
    requires at + 1 < |b|
  {
    var lo: int, hi: int := b[at], b[at + 1];
    lo + 256 * hi
  }

  function ZonesOf(b: Bytes): Option<Zones> {
    if |b| < 20 then None
    else Some(Zones(Word(b, 7), Word(b, 9), Word(b, 11), Word(b, 13), Word(b, 15), Word(b, 17)))
  }

  /** A zero-touch sample becomes the no-finger baseline. */
  function StoreBase(f: Finger, flag: Byte, zones: Option<Zones>): Finger {
    var g := f.Log(Touch(flag, zones));
    if zones.Some? && ZeroTouch(flag) then g.(baseline := zones) else g
  }

  /** The same, and any other sample becomes the finger-down sample. */
  function StoreEither(f: Finger, flag: Byte, zones: Option<Zones>): Finger {
    var g := StoreBase(f, flag, zones);
    if zones.Some? && !ZeroTouch(flag) then g.(downSample := zones) else g
  }

  /** The touch flag of an FDT-down packet; a short one is to be ignored. */
  function DownRead(f: Finger, b: Bytes): (Finger, Byte) {
    if |b| < 17 then (f, TOUCH_IGNORE)
    else (StoreBase(f, b[5], ZonesOf(b)).(downSample := ZonesOf(b)), b[5])
  }

  function UpRead(f: Finger, b: Bytes): (Finger, Option<Byte>) {
    if |b| < 17 || b[0] != FDT_UP then (f, None) else (StoreEither(f, b[5], ZonesOf(b)), Some(b[5]))
  }

  /** An on-demand reading; without all six zones it fails. */
  function ManualRead(r: Reply): Option<(Byte, Zones)> {
    if r.NoPacket? || |r.bytes| < 20 then None else Some((r.bytes[5], ZonesOf(r.bytes).value))
  }

  /** Measures the base; reports whether the finger is known to be off. */
  function MeasureBase(f: Finger, r: Reply): (Finger, bool) {
    match ManualRead(r)
    case None => (f, false)
    case Some((flag, zones)) => (StoreEither(f, flag, Some(zones)), ZeroTouch(flag))
  }

  // ---- arming ----------------------------------------------------------------------------

  function Clamp(x: int): (r: Byte)
    ensures 1 <= r && (1 <= x <= 255 ==> r == x) && (x < 1 ==> r == 1) && (x > 255 ==> r == 255)
  {
    if x < 1 then 1 else if x > 255 then 255 else x
  }

  /** The fixed low byte and a threshold of half the reading plus an offset, for every zone. */
  function Thresholds(z: Zones, offset: nat): Registers {
    [0x80, Clamp(z.z0 / 2 + offset), 0x80, Clamp(z.z1 / 2 + offset), 0x80, Clamp(z.z2 / 2 + offset),
     0x80, Clamp(z.z3 / 2 + offset), 0x80, Clamp(z.z4 / 2 + offset), 0x80, Clamp(z.z5 / 2 + offset)]
  }

  /** The registers to send; without a baseline the present table stays. */
  function DownRegs(f: Finger): Registers {
    if f.baseline.Some? then Thresholds(f.baseline.value, 0) else f.downRegs
  }

  function DownArm(f: Finger): Finger {
    f.(downRegs := DownRegs(f)).Log(DownArmed(DownRegs(f)))
  }

  function UpArm(f: Finger): Finger {
    if f.downSample.None? then f else f.Log(UpArmed(Thresholds(f.downSample.value, UP_OFFSET)))
  }

  // ---- waiting for a finger -------------------------------------------------------------------

  /** One turn of the finger wait: flags and clock, the reply, and how a re-arm would end. */
  datatype WaitTurn = WaitTurn(cancelled: bool, expired: bool, reply: Reply, expiredAfter: bool, rearm: Send)

  datatype WaitEnv = WaitEnv(base: Reply, arm: Send, turns: seq<WaitTurn>)

  /** What one reply means: a finger, another wait, or another wait after re-arming. */
  datatype Heard = FingerDown | Listen | Rearm

  function Hear(f: Finger, profileMin: nat, flag: Byte): (Finger, Heard) {
    if flag == TOUCH_IGNORE then (f, Rearm)
    else if f.requireLiftGap && flag != 0 then (f, Rearm)
    else
      var g := f.(requireLiftGap := false);
      if IsFinger(profileMin, flag) then (g, FingerDown) else (g, Rearm)
  }

  function HearReply(f: Finger, profileMin: nat, r: Reply): (Finger, Heard) {
    match r
    case Packet(b) =>
      var (g, flag) := DownRead(f, b);
      Hear(g, profileMin, flag)
    case NoPacket(error) => (f, if error == TimedOut then Listen else Rearm)
  }

  /** One turn of a wait: it ends, or goes on from here. */
  datatype Turned = Ends(f: Finger, outcome: Outcome) | GoesOn(f: Finger)

  function WaitTurnOnce(f: Finger, profileMin: nat, t: WaitTurn): Turned {
    if t.cancelled then Ends(f.(desynced := true), Err(Failure))
    else if t.expired || (t.reply.NoPacket? && t.expiredAfter) then Ends(f, Err(Timeout))
    else
      var (g, heard) := HearReply(f, profileMin, t.reply);
      match heard
      case FingerDown => Ends(g, Ok)
      case Listen => GoesOn(g)
      case Rearm => if t.rearm.Acked? then GoesOn(DownArm(g)) else Ends(DownArm(g), SendOutcome(t.rearm))
  }

  function WaitTurns(f: Finger, profileMin: nat, turns: seq<WaitTurn>): (Finger, Outcome)
    decreases |turns|
  {
    if turns == [] then (f, Err(Timeout))
    else
      match WaitTurnOnce(f, profileMin, turns[0])
      case Ends(g, outcome) => (g, outcome)
      case GoesOn(g) => WaitTurns(g, profileMin, turns[1..])
  }

  function WaitForFinger(f: Finger, profileMin: nat, e: WaitEnv): (Finger, Outcome) {
    var f0 := if f.baseline.None? then MeasureBase(f, e.base).0 else f;
    if !e.arm.Acked? then (DownArm(f0), SendOutcome(e.arm)) else WaitTurns(DownArm(f0), profileMin, e.turns)
  }

  // ---- waiting for the lift ---------------------------------------------------------------------

  datatype LiftTurn = LiftTurn(cancelled: bool, expired: bool, arm: Send, up: Reply, manual: Reply, darkFrame: bool)

  /** Silence is not a lift: a manual reading decides, and a failed one counts as touched. */
  function ProbeLift(f: Finger, r: Reply): (Finger, Byte) {
    match ManualRead(r)
    case None => (f, TOUCH_IGNORE)
    case Some((flag, zones)) => (StoreEither(f, flag, Some(zones)), flag)
  }

  /** The touch flag an armed lift turn ends with, or none if it failed. */
  function LiftFlag(f: Finger, t: LiftTurn): (Finger, Option<Byte>) {
    match t.up
    case Packet(b) => UpRead(f, b)
    case NoPacket(error) =>
      if error != TimedOut then (f, None)
      else
        var (g, flag) := ProbeLift(f, t.manual);
        (g, Some(flag))
  }

  /** A confirmed lift is the chance to refresh the ImageBase, once per open. */
  function DarkFrame(f: Finger, captured: bool): Finger {
    if !f.refreshed && captured then f.Log(BackFrame).Log(Adopted).(refreshed := true) else f
  }

  function LiftTurnOnce(f: Finger, t: LiftTurn): Turned {
    if t.cancelled then Ends(f.(desynced := true), Err(Failure))
    else if t.expired then Ends(f, Err(Timeout))
    else if f.downSample.None? then Ends(f, Err(Failure))
    else if !t.arm.Acked? then Ends(UpArm(f), SendOutcome(t.arm))
    else
      var (g, flag) := LiftFlag(UpArm(f), t);
      Settle(g, flag, t)
  }

  /** A failed answer ends the wait, a zero touch confirms the lift, and anything else waits on. */
  function Settle(g: Finger, flag: Option<Byte>, t: LiftTurn): Turned {
    if flag.None? then Ends(g, Err(if t.up.NoPacket? then AwaitFailure(t.up.error) else Failure))
    else if flag.value == 0 then Ends(DarkFrame(g, t.darkFrame), Ok)
    else GoesOn(g)
  }

  function LiftTurns(f: Finger, turns: seq<LiftTurn>): (Finger, Outcome)
    decreases |turns|
  {
    if turns == [] then (f, Err(Timeout))
    else
      match LiftTurnOnce(f, turns[0])
      case Ends(g, outcome) => (g, outcome)
      case GoesOn(g) => LiftTurns(g, turns[1..])
  }

  /** A missed lift is owed to the next finger wait when the caller allows it. */
  function LiftReport(f: Finger, turns: seq<LiftTurn>, allowGap: bool): (Finger, bool) {
    var (g, r) := LiftTurns(f, turns);
    if r.Ok? then (g.(requireLiftGap := false), true)
    else if allowGap && r.error == Timeout then (g.(requireLiftGap := true), true)
    else (g, false)
  }

  // ---- priming and session boundaries --------------------------------------------------------------

  datatype PrimeEnv = PrimeEnv(forced: bool, fdt1: Reply, fdt2: Reply, frame: bool, fdt3: Reply)

  /** The frame between two base measurements, adopted when both found the finger off. */
  function PrimeFrame(f: Finger, off2: bool, e: PrimeEnv): Finger {
    var framed := if e.frame then f.Log(BackFrame) else f;
    var (g, off3) := MeasureBase(framed, e.fdt3);
    if e.frame && !g.refreshed && off2 && off3 then g.Log(Adopted).(refreshed := true) else g
  }

  function PrimeBase(f: Finger, e: PrimeEnv): Finger {
    var f1 := MeasureBase(f, e.fdt1).0;
    var (f2, off2) := MeasureBase(f1, e.fdt2);
    PrimeFrame(f2, off2, e)
  }

  function Prime(f: Finger, e: PrimeEnv): Finger {
    if f.refreshed && !e.forced then f else PrimeBase(f, e)
  }

  function ResetCapture(f: Finger): Finger {
    f.(desynced := false, downSample := None, requireLiftGap := false, downRegs := DEFAULT_DOWN)
  }

  /** The activations behind one boundary; each resets the capture state, and primes once its session is up. */
  function Activations(f: Finger, primes: seq<Option<PrimeEnv>>): Finger
    decreases |primes|
  {
    if primes == [] then f
    else
      var g := ResetCapture(f);
      Activations(if primes[0].Some? then Prime(g, primes[0].value) else g, primes[1..])
  }

  datatype Session = Session(primes: seq<Option<PrimeEnv>>, ok: bool)

  /** A session only comes up through an activation that reached its priming. */
  type SessionEnv = e: Session | e.ok ==> e.primes != [] && e.primes[|e.primes| - 1].Some?
    witness Session([], false)

  /** The old session ends; the first activation, if there is one, clears the lift-gap flag. */
  function Bounded(f: Finger, cause: Cause, e: SessionEnv): Finger {
    f.Log(Boundary(cause, f.requireLiftGap && e.primes != [])).(desynced := false)
  }

  function Restart(f: Finger, cause: Cause, e: SessionEnv): Finger {
    Activations(Bounded(f, cause, e), e.primes)
  }

  function MarkCold(f: Finger): Finger {
    f.(refreshed := false, baseline := None, downSample := None, requireLiftGap := false).Log(ColdBoundary)
  }

  // ---- one capture, and enrollment ---------------------------------------------------------------------

  datatype CaptureEnv = CaptureEnv(wait: WaitEnv, image: Outcome, session: SessionEnv)

  /** Two tries; a lost session before or during the image is restarted once. */
  function CaptureOne(f: Finger, profileMin: nat, first: CaptureEnv, second: CaptureEnv, retry: bool := false)
    : (Finger, bool)
    decreases !retry
  {
    var e := if retry then second else first;
    var (g, waited) := WaitForFinger(f, profileMin, e.wait);
    var failed := if waited.Err? then waited else e.image;
    if failed.Ok? then (g.Log(Sample), true)
    else if failed.error == ConnectionClosed && !retry then
      var h := Restart(g, if waited.Err? then WaitFailed else CaptureFailed, e.session);
      if e.session.ok then CaptureOne(h, profileMin, first, second, true) else (h, false)
    else (g, false)
  }

  /** One pass of the enrollment loop: a capture, then complete, fatal, or a lift before the next. */
  datatype Stage = Stage(first: CaptureEnv, second: CaptureEnv, complete: bool, fatal: bool, lift: seq<LiftTurn>)

  function Enroll(f: Finger, profileMin: nat, stages: seq<Stage>): Finger
    decreases |stages|
  {
    if stages == [] then f
    else
      var s := stages[0];
      var (g, captured) := CaptureOne(f, profileMin, s.first, s.second);
      if !captured || s.fatal || s.complete then g
      else
        var (h, lifted) := LiftReport(g, s.lift, true);
        if lifted then Enroll(h, profileMin, stages[1..]) else h
  }

  datatype RetryEnv = RetryEnv(manual: Reply, image: bool)

  /** Further images of the current press, as long as a manual reading still counts enough zones. */
  function Retries(f: Finger, profileMin: nat, retries: seq<RetryEnv>): Finger
    decreases |retries|
  {
    if retries == [] then f
    else
      match ManualRead(retries[0].manual)
      case None => f
      case Some((flag, zones)) =>
        var g := f.Log(Probe(flag));
        if !IsFinger(profileMin, flag) then g
        else
          var h := g.(downSample := Some(zones));
          if retries[0].image then Retries(h.Log(RetryImage), profileMin, retries[1..]) else h
  }

  datatype Op =
    | Open
    | EnrollAction(session: SessionEnv, stages: seq<Stage>)
      // verify and identify: one press with retry images, and a lift wait that may be skipped
    | MatchAction(session: SessionEnv, first: CaptureEnv, second: CaptureEnv, retries: seq<RetryEnv>,
                  cleanup: Option<seq<LiftTurn>>)

  function Apply(f: Finger, profileMin: nat, op: Op): Finger {
    match op
    case Open => MarkCold(f)
    case EnrollAction(session, stages) =>
      var g := Restart(f, ActionStart, session);
      if session.ok then Enroll(g, profileMin, stages) else g
    case MatchAction(session, first, second, retries, cleanup) =>
      var g := Restart(f, ActionStart, session);
      if !session.ok then g
      else
        var (h, captured) := CaptureOne(g, profileMin, first, second);
        if !captured then h
        else
          var pressed := Retries(h, profileMin, retries);
          if cleanup.Some? then LiftReport(pressed, cleanup.value, false).0 else pressed
  }

  function RunOps(f: Finger, profileMin: nat, ops: seq<Op>): Finger
    decreases |ops|
  {
    if ops == [] then f else RunOps(Apply(f, profileMin, ops[0]), profileMin, ops[1..])
  }

  const INITIAL: Finger := Finger(None, None, DEFAULT_DOWN, false, false, false, [])

  // ---- the monitor -----------------------------------------------------------------------------------------

  /**
    Over the trace: the last zero-touch sample since the cold boundary, whether every arm followed it, whether
    the latest reading was finger-off now and at the last background frame, and whether a lift is still owed.
   */
  datatype Monitor = Monitor(base: Option<Zones>, armsRight: bool, off: bool, offAtFrame: bool, adoptSafe: bool,
                             owed: bool, gapsKept: bool)

  /** The no-finger baseline after an event: a zero-touch sample sets it, a cold boundary forgets it. */
  function BaseAfter(base: Option<Zones>, e: Event): Option<Zones> {
    if e.ColdBoundary? then None
    else if e.Touch? && e.zones.Some? && ZeroTouch(e.flag) then e.zones
    else base
  }

  /** Half of the baseline, clamped, for every zone. */
  predicate ArmFollows(base: Option<Zones>, e: Event) {
    e.DownArmed? && base.Some? ==> e.regs == Thresholds(base.value, 0)
  }

  predicate IsReading(e: Event) {
    e.Touch? || e.Probe?
  }

  predicate OffAfter(off: bool, e: Event) {
    if IsReading(e) then ZeroTouch(e.flag) else off
  }

  predicate IsZeroTouch(e: Event) {
    IsReading(e) && e.flag == 0
  }

  predicate StartsAction(e: Event) {
    e.Boundary? && e.cause == ActionStart
  }

  /** A failed finger wait restarted the session, and that cleared a set lift-gap flag. */
  predicate ForgetsLift(e: Event) {
    e.Boundary? && e.cause == WaitFailed && e.forgets
  }

  predicate Separates(e: Event) {
    IsZeroTouch(e) || StartsAction(e) || ForgetsLift(e)
  }

  function Observe(m: Monitor, e: Event): Monitor {
    Monitor(BaseAfter(m.base, e), m.armsRight && ArmFollows(m.base, e), OffAfter(m.off, e),
            if e.BackFrame? then m.off else m.offAtFrame, m.adoptSafe && (e.Adopted? ==> m.offAtFrame),
            e.Sample? || (m.owed && !Separates(e)), m.gapsKept && (e.Sample? ==> !m.owed))
  }

  function Monitored(trace: seq<Event>): Monitor {
    if trace == [] then Monitor(None, true, false, false, true, false, true)
    else Observe(Monitored(trace[..|trace| - 1]), trace[|trace| - 1])
  }

  lemma MonitoredLog(f: Finger, e: Event)
    ensures Monitored(f.Log(e).trace) == Observe(Monitored(f.trace), e)
  {
    assert (f.trace + [e])[..|f.trace|] == f.trace;
  }

  /** What holds after every step. */
  ghost predicate Sound(f: Finger) {
    var m := Monitored(f.trace);
    m.base == f.baseline && m.armsRight && m.adoptSafe && m.gapsKept
  }

  ghost predicate Owed(f: Finger) {
    Monitored(f.trace).owed
  }

  /** A lift that is owed is remembered. */
  ghost predicate Remembered(f: Finger) {
    Owed(f) ==> f.requireLiftGap
  }

  // ---- every step keeps it ---------------------------------------------------------------------------------

  lemma StoreBaseSound(f: Finger, flag: Byte, zones: Option<Zones>)
    requires Sound(f)
    ensures var g := StoreBase(f, flag, zones);
            && Sound(g) && (Owed(g) <==> Owed(f) && flag != 0) && Monitored(g.trace).off == ZeroTouch(flag)
  {
    MonitoredLog(f, Touch(flag, zones));
    StoreBaseStep(f, flag, zones);
  }

  lemma StoreBaseStep(f: Finger, flag: Byte, zones: Option<Zones>)
    ensures var g := StoreBase(f, flag, zones);
            && g.trace == f.Log(Touch(flag, zones)).trace
            && g.baseline == BaseAfter(f.baseline, Touch(flag, zones))
  {
  }

  lemma StoreEitherSound(f: Finger, flag: Byte, zones: Option<Zones>)
    requires Sound(f)
    ensures var g := StoreEither(f, flag, zones);
            && Sound(g) && (Owed(g) <==> Owed(f) && flag != 0) && Monitored(g.trace).off == ZeroTouch(flag)
            && g.requireLiftGap == f.requireLiftGap
  {
    StoreBaseSound(f, flag, zones);
    var g := StoreBase(f, flag, zones);
    assert StoreEither(f, flag, zones).trace == g.trace && StoreEither(f, flag, zones).baseline == g.baseline;
  }

  lemma MeasureSound(f: Finger, r: Reply)
    requires Sound(f)
    ensures var (g, off) := MeasureBase(f, r);
            && Sound(g) && (Owed(g) ==> Owed(f)) && g.requireLiftGap == f.requireLiftGap
            && (off ==> Monitored(g.trace).off)
  {
    if ManualRead(r).Some? {
      var (flag, zones) := ManualRead(r).value;
      StoreEitherSound(f, flag, Some(zones));
    }
  }

  lemma DownArmSound(f: Finger)
    requires Sound(f)
    ensures Sound(DownArm(f)) && (Owed(DownArm(f)) <==> Owed(f))
  {
    MonitoredLog(f.(downRegs := DownRegs(f)), DownArmed(DownRegs(f)));
  }

  lemma DownReadSound(f: Finger, b: Bytes)
    requires Sound(f)
    ensures var (g, flag) := DownRead(f, b);
            && Sound(g) && g.requireLiftGap == f.requireLiftGap
            && (Owed(g) ==> Owed(f)) && (flag == 0 ==> !Owed(g))
  {
    if |b| >= 17 {
      StoreBaseSound(f, b[5], ZonesOf(b));
      assert DownRead(f, b).0.trace == StoreBase(f, b[5], ZonesOf(b)).trace;
    }
  }

  /** A finger is only reported once no lift is owed any more. */
  lemma HearFlagSound(f: Finger, profileMin: nat, flag: Byte)
    requires Sound(f) && Remembered(f) && (flag == 0 ==> !Owed(f))
    ensures var (g, heard) := Hear(f, profileMin, flag);
            Sound(g) && Remembered(g) && (heard == FingerDown ==> !Owed(g))
  {
    assert Hear(f, profileMin, flag).0.trace == f.trace;
  }

  lemma HearSound(f: Finger, profileMin: nat, r: Reply)
    requires Sound(f) && Remembered(f)
    ensures var (g, heard) := HearReply(f, profileMin, r);
            Sound(g) && Remembered(g) && (heard == FingerDown ==> !Owed(g))
  {
    if r.Packet? {
      var (g, flag) := DownRead(f, r.bytes);
      DownReadSound(f, r.bytes);
      HearFlagSound(g, profileMin, flag);
    }
  }

  lemma WaitTurnOnceSound(f: Finger, profileMin: nat, t: WaitTurn)
    requires Sound(f) && Remembered(f)
    ensures var r := WaitTurnOnce(f, profileMin, t);
            Sound(r.f) && Remembered(r.f) && (r.Ends? && r.outcome.Ok? ==> !Owed(r.f))
  {
    if t.cancelled {
      assert WaitTurnOnce(f, profileMin, t).f.trace == f.trace
             && WaitTurnOnce(f, profileMin, t).f.baseline == f.baseline;
    } else if !t.expired && !(t.reply.NoPacket? && t.expiredAfter) {
      HearSound(f, profileMin, t.reply);
      DownArmSound(HearReply(f, profileMin, t.reply).0);
    }
  }

  lemma {:induction false} WaitTurnsSound(f: Finger, profileMin: nat, turns: seq<WaitTurn>)
    requires Sound(f) && Remembered(f)
    ensures var (g, r) := WaitTurns(f, profileMin, turns);
            Sound(g) && Remembered(g) && (r.Ok? ==> !Owed(g))
    decreases |turns|
  {
    if turns != [] {
      WaitTurnOnceSound(f, profileMin, turns[0]);
      match WaitTurnOnce(f, profileMin, turns[0])
      case Ends(_, _) =>
      case GoesOn(g) => WaitTurnsSound(g, profileMin, turns[1..]);
    }
  }

  lemma WaitSound(f: Finger, profileMin: nat, e: WaitEnv)
    requires Sound(f) && Remembered(f)
    ensures var (g, r) := WaitForFinger(f, profileMin, e);
            Sound(g) && Remembered(g) && (r.Ok? ==> !Owed(g))
  {
    var f0 := if f.baseline.None? then MeasureBase(f, e.base).0 else f;
    MeasureSound(f, e.base);
    DownArmSound(f0);
    WaitTurnsSound(DownArm(f0), profileMin, e.turns);
  }

  lemma UpReadSound(f: Finger, b: Bytes)
    requires Sound(f)
    ensures var (g, flag) := UpRead(f, b);
            Sound(g) && (flag == Some(0) ==> !Owed(g) && Monitored(g.trace).off)
  {
    if |b| >= 17 {
      StoreEitherSound(f, b[5], ZonesOf(b));
    }
  }

  lemma ProbeLiftSound(f: Finger, r: Reply)
    requires Sound(f)
    ensures var (g, flag) := ProbeLift(f, r);
            Sound(g) && (flag == 0 ==> !Owed(g) && Monitored(g.trace).off)
  {
    if ManualRead(r).Some? {
      StoreEitherSound(f, ManualRead(r).value.0, Some(ManualRead(r).value.1));
    }
  }

  lemma LiftFlagSound(f: Finger, t: LiftTurn)
    requires Sound(f)
    ensures var (g, flag) := LiftFlag(f, t);
            Sound(g) && (flag == Some(0) ==> !Owed(g) && Monitored(g.trace).off)
  {
    match t.up
    case Packet(b) => UpReadSound(f, b);
    case NoPacket(_) => ProbeLiftSound(f, t.manual);
  }

  lemma DarkFrameSound(f: Finger, captured: bool)
    requires Sound(f) && Monitored(f.trace).off
    ensures Sound(DarkFrame(f, captured)) && (Owed(DarkFrame(f, captured)) <==> Owed(f))
  {
    MonitoredLog(f, BackFrame);
    MonitoredLog(f.Log(BackFrame), Adopted);
  }

  lemma UpArmSound(f: Finger)
    requires Sound(f)
    ensures Sound(UpArm(f)) && (Owed(UpArm(f)) <==> Owed(f))
  {
    if f.downSample.Some? {
      MonitoredLog(f, UpArmed(Thresholds(f.downSample.value, UP_OFFSET)));
    }
  }

  lemma LiftTurnSound(f: Finger, t: LiftTurn)
    requires Sound(f)
    ensures var (g, flag) := LiftFlag(UpArm(f), t);
            && Sound(g) && (flag == Some(0) ==> !Owed(g) && Monitored(g.trace).off)
  {
    UpArmSound(f);
    LiftFlagSound(UpArm(f), t);
  }

  /** A turn leaves a sound state, and a successful end owes nothing. */
  ghost predicate TurnedWell(r: Turned) {
    Sound(r.f) && (r.Ends? && r.outcome.Ok? ==> !Owed(r.f))
  }

  lemma SettleSound(g: Finger, flag: Option<Byte>, t: LiftTurn)
    requires Sound(g) && (flag == Some(0) ==> !Owed(g) && Monitored(g.trace).off)
    ensures TurnedWell(Settle(g, flag, t))
  {
    if flag == Some(0) {
      DarkFrameSound(g, t.darkFrame);
    }
  }

  lemma LiftTurnOnceSound(f: Finger, t: LiftTurn)
    requires Sound(f)
    ensures TurnedWell(LiftTurnOnce(f, t))
  {
    if t.cancelled {
      assert LiftTurnOnce(f, t).f.trace == f.trace && LiftTurnOnce(f, t).f.baseline == f.baseline;
    } else if t.expired || f.downSample.None? {
    } else if !t.arm.Acked? {
      UpArmSound(f);
    } else {
      var (g, flag) := LiftFlag(UpArm(f), t);
      LiftTurnSound(f, t);
      SettleSound(g, flag, t);
      assert LiftTurnOnce(f, t) == Settle(g, flag, t);
    }
  }

  lemma {:induction false} LiftTurnsSound(f: Finger, turns: seq<LiftTurn>)
    requires Sound(f)
    ensures var (g, r) := LiftTurns(f, turns);
            Sound(g) && (r.Ok? ==> !Owed(g))
    decreases |turns|
  {
    if turns != [] {
      LiftTurnOnceSound(f, turns[0]);
      match LiftTurnOnce(f, turns[0])
      case Ends(_, _) =>
      case GoesOn(g) => LiftTurnsSound(g, turns[1..]);
    }
  }

  /** Where a lift may be deferred, it is either observed or remembered. */
  lemma LiftReportSound(f: Finger, turns: seq<LiftTurn>, allowGap: bool)
    requires Sound(f)
    ensures var (g, lifted) := LiftReport(f, turns, allowGap);
            Sound(g) && (lifted ==> Remembered(g))
  {
    LiftTurnsSound(f, turns);
  }

  lemma PrimeFrameSound(f: Finger, off2: bool, e: PrimeEnv)
    requires Sound(f) && !Owed(f) && (off2 ==> Monitored(f.trace).off)
    ensures Sound(PrimeFrame(f, off2, e)) && !Owed(PrimeFrame(f, off2, e))
  {
    var framed := if e.frame then f.Log(BackFrame) else f;
    MonitoredLog(f, BackFrame);
    MeasureSound(framed, e.fdt3);
    MeasureKeepsFrame(framed, e.fdt3);
    MonitoredLog(MeasureBase(framed, e.fdt3).0, Adopted);
  }

  /** Priming adopts its frame only right after a finger-off reading. */
  lemma PrimeSound(f: Finger, e: PrimeEnv)
    requires Sound(f) && !Owed(f)
    ensures Sound(Prime(f, e)) && !Owed(Prime(f, e))
  {
    var f1 := MeasureBase(f, e.fdt1).0;
    MeasureSound(f, e.fdt1);
    var (f2, off2) := MeasureBase(f1, e.fdt2);
    MeasureSound(f1, e.fdt2);
    PrimeFrameSound(f2, off2, e);
  }

  lemma MeasureKeepsFrame(f: Finger, r: Reply)
    ensures Monitored(MeasureBase(f, r).0.trace).offAtFrame == Monitored(f.trace).offAtFrame
  {
    if ManualRead(r).Some? {
      MonitoredLog(f, Touch(ManualRead(r).value.0, Some(ManualRead(r).value.1)));
    }
  }

  lemma {:induction false} ActivationsSound(f: Finger, primes: seq<Option<PrimeEnv>>)
    requires Sound(f) && !Owed(f)
    ensures Sound(Activations(f, primes)) && !Owed(Activations(f, primes))
    decreases |primes|
  {
    if primes != [] {
      var g := ResetCapture(f);
      if primes[0].Some? {
        PrimeSound(g, primes[0].value);
      }
      ActivationsSound(if primes[0].Some? then Prime(g, primes[0].value) else g, primes[1..]);
    }
  }

  lemma BoundedSound(f: Finger, cause: Cause, e: SessionEnv)
    requires Sound(f) && (cause == CaptureFailed ==> !Owed(f)) && (cause == WaitFailed ==> Remembered(f))
    ensures var g := Bounded(f, cause, e);
            Sound(g) && (e.primes != [] ==> !Owed(g))
  {
    MonitoredLog(f, Boundary(cause, f.requireLiftGap && e.primes != []));
  }

  /** A restart after a failed image is harmless: the finger wait before it saw every owed lift. */
  lemma RestartSound(f: Finger, cause: Cause, e: SessionEnv)
    requires Sound(f) && (cause == CaptureFailed ==> !Owed(f)) && (cause == WaitFailed ==> Remembered(f))
    ensures Sound(Restart(f, cause, e)) && (e.primes != [] ==> !Owed(Restart(f, cause, e)))
  {
    BoundedSound(f, cause, e);
    if e.primes != [] {
      ActivationsSound(Bounded(f, cause, e), e.primes);
    }
  }

  lemma CaptureSound(f: Finger, profileMin: nat, first: CaptureEnv, second: CaptureEnv, retry: bool)
    requires Sound(f) && Remembered(f)
    ensures Sound(CaptureOne(f, profileMin, first, second, retry).0)
    decreases !retry
  {
    var e := if retry then second else first;
    var (g, waited) := WaitForFinger(f, profileMin, e.wait);
    WaitSound(f, profileMin, e.wait);
    MonitoredLog(g, Sample);
    var failed := if waited.Err? then waited else e.image;
    if failed.Err? && failed.error == ConnectionClosed && !retry {
      var cause := if waited.Err? then WaitFailed else CaptureFailed;
      RestartSound(g, cause, e.session);
      if e.session.ok {
        CaptureSound(Restart(g, cause, e.session), profileMin, first, second, true);
      }
    }
  }

  lemma {:induction false} EnrollSound(f: Finger, profileMin: nat, stages: seq<Stage>)
    requires Sound(f) && Remembered(f)
    ensures Sound(Enroll(f, profileMin, stages))
    decreases |stages|
  {
    if stages != [] {
      var s := stages[0];
      CaptureSound(f, profileMin, s.first, s.second, false);
      var (g, captured) := CaptureOne(f, profileMin, s.first, s.second);
      LiftReportSound(g, s.lift, true);
      var (h, lifted) := LiftReport(g, s.lift, true);
      if lifted {
        EnrollSound(h, profileMin, stages[1..]);
      }
    }
  }

  lemma {:induction false} RetriesSound(f: Finger, profileMin: nat, retries: seq<RetryEnv>)
    requires Sound(f)
    ensures Sound(Retries(f, profileMin, retries))
    decreases |retries|
  {
    if retries != [] && ManualRead(retries[0].manual).Some? {
      var (flag, zones) := ManualRead(retries[0].manual).value;
      MonitoredLog(f, Probe(flag));
      var h := f.Log(Probe(flag)).(downSample := Some(zones));
      MonitoredLog(h, RetryImage);
      RetriesSound(h.Log(RetryImage), profileMin, retries[1..]);
    }
  }

  lemma ApplySound(f: Finger, profileMin: nat, op: Op)
    requires Sound(f)
    ensures Sound(Apply(f, profileMin, op))
  {
    match op
    case Open => MonitoredLog(MarkCold(f).(trace := f.trace), ColdBoundary);
    case EnrollAction(session, stages) =>
      RestartSound(f, ActionStart, session);
      if session.ok {
        EnrollSound(Restart(f, ActionStart, session), profileMin, stages);
      }
    case MatchAction(session, first, second, retries, cleanup) =>
      var g := Restart(f, ActionStart, session);
      RestartSound(f, ActionStart, session);
      if session.ok {
        CaptureSound(g, profileMin, first, second, false);
        var h := CaptureOne(g, profileMin, first, second).0;
        RetriesSound(h, profileMin, retries);
        if cleanup.Some? {
          LiftReportSound(Retries(h, profileMin, retries), cleanup.value, false);
        }
      }
  }

  lemma {:induction false} RunSound(f: Finger, profileMin: nat, ops: seq<Op>)
    requires Sound(f)
    ensures Sound(RunOps(f, profileMin, ops))
    decreases |ops|
  {
    if ops != [] {
      ApplySound(f, profileMin, ops[0]);
      RunSound(Apply(f, profileMin, ops[0]), profileMin, ops[1..]);
    }
  }

  // ---- what the monitor stands for -----------------------------------------------------------------------------

  /** The latest zero-touch sample read since the last cold boundary. */
  function LatestBase(trace: seq<Event>): Option<Zones> {
    if trace == [] then None else BaseAfter(LatestBase(trace[..|trace| - 1]), trace[|trace| - 1])
  }

  /** Every FDT-down arm follows the baseline of its moment. */
  ghost predicate ArmsFollowBase(trace: seq<Event>) {
    forall i | 0 <= i < |trace| :: ArmFollows(LatestBase(trace[..i]), trace[i])
  }

  /** The last reading so far had all touch bits clear. */
  predicate FingerOff(trace: seq<Event>) {
    trace != [] && OffAfter(FingerOff(trace[..|trace| - 1]), trace[|trace| - 1])
  }

  /** The reading just before the last background frame was finger-off. */
  predicate FrameTakenOff(trace: seq<Event>) {
    && trace != []
    && var before := trace[..|trace| - 1];
    if trace[|trace| - 1].BackFrame? then FingerOff(before) else FrameTakenOff(before)
  }

  ghost predicate AdoptionSafe(trace: seq<Event>) {
    forall i | 0 <= i < |trace| && trace[i].Adopted? :: FrameTakenOff(trace[..i])
  }

  ghost predicate Separated(trace: seq<Event>, i: nat, j: nat) {
    exists k | i < k < j && k < |trace| :: Separates(trace[k])
  }

  ghost predicate GapsKept(trace: seq<Event>) {
    forall i, j | 0 <= i < j < |trace| && trace[i].Sample? && trace[j].Sample? :: Separated(trace, i, j)
  }

  lemma {:induction false} MonitorBase(trace: seq<Event>)
    ensures Monitored(trace).base == LatestBase(trace)
  {
    if trace != [] {
      MonitorBase(trace[..|trace| - 1]);
    }
  }

  lemma {:induction false} MonitorOff(trace: seq<Event>)
    ensures Monitored(trace).off == FingerOff(trace)
  {
    if trace != [] {
      MonitorOff(trace[..|trace| - 1]);
    }
  }

  lemma {:induction false} MonitorFrame(trace: seq<Event>)
    ensures Monitored(trace).offAtFrame == FrameTakenOff(trace)
  {
    if trace != [] {
      MonitorFrame(trace[..|trace| - 1]);
      MonitorOff(trace[..|trace| - 1]);
    }
  }

  lemma {:induction false} MonitorArms(trace: seq<Event>)
    ensures Monitored(trace).armsRight ==> ArmsFollowBase(trace)
  {
    if trace != [] {
      var before := trace[..|trace| - 1];
      MonitorArms(before);
      MonitorBase(before);
      if Monitored(trace).armsRight {
        ArmsLast(trace);
      }
    }
  }

  lemma ArmsLast(trace: seq<Event>)
    requires trace != [] && ArmsFollowBase(trace[..|trace| - 1])
    requires ArmFollows(LatestBase(trace[..|trace| - 1]), trace[|trace| - 1])
    ensures ArmsFollowBase(trace)
  {
    var before := trace[..|trace| - 1];
    forall i | 0 <= i < |trace| ensures ArmFollows(LatestBase(trace[..i]), trace[i]) {
      if i < |before| {
        assert before[..i] == trace[..i] && before[i] == trace[i];
      }
    }
  }

  lemma {:induction false} MonitorAdoption(trace: seq<Event>)
    ensures Monitored(trace).adoptSafe ==> AdoptionSafe(trace)
  {
    if trace != [] {
      var before, n := trace[..|trace| - 1], |trace| - 1;
      MonitorAdoption(before);
      MonitorFrame(before);
      assert forall i | 0 <= i < n :: before[i] == trace[i] && before[..i] == trace[..i];
    }
  }

  /** Once no lift is owed, every earlier sample has been followed by a separating event. */
  lemma {:induction false} MonitorOwed(trace: seq<Event>, i: nat)
    requires i < |trace| && trace[i].Sample? && !Monitored(trace).owed
    ensures Separated(trace, i, |trace|)
  {
    var n := |trace| - 1;
    if !Separates(trace[n]) {
      assert !trace[n].Sample?;
      MonitorOwed(trace[..n], i);
      var k :| i < k < n && Separates(trace[..n][k]);
      assert Separates(trace[k]);
    }
  }

  lemma {:induction false} MonitorGaps(trace: seq<Event>)
    ensures Monitored(trace).gapsKept ==> GapsKept(trace)
  {
    if trace != [] && Monitored(trace).gapsKept {
      var before, n := trace[..|trace| - 1], |trace| - 1;
      MonitorGaps(before);
      forall i, j | 0 <= i < j < |trace| && trace[i].Sample? && trace[j].Sample? ensures Separated(trace, i, j) {
        if j < n {
          assert before[i].Sample? && before[j].Sample?;
        } else {
          MonitorOwed(before, i);
        }
        assert Separated(before, i, j);
        var k :| i < k < j && k < |before| && Separates(before[k]);
        assert Separates(trace[k]);
      }
    }
  }

  /**
    For every run: the baseline is the latest zero-touch sample, every arm follows it, an ImageBase is adopted only
    from a frame taken with the finger off, and between two samples of one action a zero touch was read unless the
    restart of a failed finger wait cleared a set lift-gap flag in between.
   */
  lemma EveryRun(profileMin: nat, ops: seq<Op>)
    ensures var f := RunOps(INITIAL, profileMin, ops);
            && f.baseline == LatestBase(f.trace)
            && ArmsFollowBase(f.trace) && AdoptionSafe(f.trace) && GapsKept(f.trace)
  {
    var f := RunOps(INITIAL, profileMin, ops);
    RunSound(INITIAL, profileMin, ops);
    MonitorBase(f.trace);
    MonitorArms(f.trace);
    MonitorAdoption(f.trace);
    MonitorGaps(f.trace);
  }
}
