/** When a second sample is certain to come after an observed lift: the exact condition, and the run that misses it. */
module LiftGap {
  import opened Common
  import opened FingerSpec

  // ---- what a trace shows ----------------------------------------------------------

  /** The zero touches read so far. */
  function Zeros(trace: seq<Event>): nat {
    Count(trace, IsZeroTouch)
  }

  predicate IsSample(e: Event) {
    e.Sample?
  }

  /** The samples taken so far. */
  function Samples(trace: seq<Event>): nat {
    Count(trace, IsSample)
  }

  /** In this action a sample was taken, and no zero touch has been read since. */
  predicate Unseen(trace: seq<Event>) {
    && trace != []
    && var e := trace[|trace| - 1];
    e.Sample? || (Unseen(trace[..|trace| - 1]) && !IsZeroTouch(e) && !StartsAction(e))
  }

  /** A trace went on without samples and without a new action. */
  ghost predicate Extends(a: seq<Event>, b: seq<Event>) {
    && a <= b && Zeros(a) <= Zeros(b) && Samples(a) == Samples(b)
    && (Unseen(b) <==> Unseen(a) && Zeros(a) == Zeros(b))
  }

  lemma LogExtends(f: Finger, e: Event)
    requires !e.Sample? && !StartsAction(e)
    ensures Extends(f.trace, f.Log(e).trace)
    ensures Zeros(f.trace) < Zeros(f.Log(e).trace) <==> IsZeroTouch(e)
  {
    assert (f.trace + [e])[..|f.trace|] == f.trace;
  }

  lemma ExtendsOn(a: seq<Event>, b: seq<Event>, c: seq<Event>)
    requires Extends(a, b) && Extends(b, c)
    ensures Extends(a, c)
  {
    assert |a| <= |b| <= |c| && c[..|b|] == b && b[..|a|] == a && c[..|a|] == c[..|b|][..|a|];
  }

  // ---- readings and arms ---------------------------------------------------------------

  lemma StoreExtends(f: Finger, flag: Byte, zones: Option<Zones>)
    ensures Extends(f.trace, StoreBase(f, flag, zones).trace)
    ensures StoreEither(f, flag, zones).trace == StoreBase(f, flag, zones).trace
    ensures Zeros(f.trace) < Zeros(StoreBase(f, flag, zones).trace) <==> flag == 0
  {
    LogExtends(f, Touch(flag, zones));
    StoreBaseStep(f, flag, zones);
  }

  lemma MeasureExtends(f: Finger, r: Reply)
    ensures Extends(f.trace, MeasureBase(f, r).0.trace)
    ensures MeasureBase(f, r).0.requireLiftGap == f.requireLiftGap
  {
    if ManualRead(r).Some? {
      StoreExtends(f, ManualRead(r).value.0, Some(ManualRead(r).value.1));
    }
  }

  lemma DownArmExtends(f: Finger)
    ensures Extends(f.trace, DownArm(f).trace) && Zeros(DownArm(f).trace) == Zeros(f.trace)
  {
    LogExtends(f.(downRegs := DownRegs(f)), DownArmed(DownRegs(f)));
  }

  lemma DownReadExtends(f: Finger, b: Bytes)
    ensures var (g, flag) := DownRead(f, b);
            && Extends(f.trace, g.trace) && g.requireLiftGap == f.requireLiftGap
            && (flag == 0 ==> Zeros(f.trace) < Zeros(g.trace))
  {
    if |b| >= 17 {
      StoreExtends(f, b[5], ZonesOf(b));
    }
  }

  /** While the flag is set, only a zero touch ends the wait for the gap; more than six zones are never touched. */
  lemma HearFlag(f: Finger, profileMin: nat, flag: Byte)
    ensures var (g, heard) := Hear(f, profileMin, flag);
            && g.trace == f.trace
            && (f.requireLiftGap && flag != 0 ==> g.requireLiftGap && heard != FingerDown)
            && (TriggerMin(profileMin) > 6 ==> heard != FingerDown)
  {
    AtMostSix(flag);
  }

  lemma HearExtends(f: Finger, profileMin: nat, r: Reply)
    ensures var (g, heard) := HearReply(f, profileMin, r);
            && Extends(f.trace, g.trace)
            && (f.requireLiftGap ==> Zeros(f.trace) < Zeros(g.trace) || (g.requireLiftGap && heard != FingerDown))
            && (TriggerMin(profileMin) > 6 ==> heard != FingerDown)
  {
    if r.Packet? {
      var (g, flag) := DownRead(f, r.bytes);
      DownReadExtends(f, r.bytes);
      HearFlag(g, profileMin, flag);
    }
  }

  lemma AtMostSix(flag: Byte)
    ensures Bits(flag % 64) <= 6
  {
    BitsBelow(flag % 64, 6);
  }

  function PowerOfTwo(k: nat): nat {
    if k == 0 then 1 else 2 * PowerOfTwo(k - 1)
  }

  lemma {:induction false} BitsBelow(n: nat, k: nat)
    requires n < PowerOfTwo(k)
    ensures Bits(n) <= k
  {
    if k > 0 && n > 0 {
      BitsBelow(n / 2, k - 1);
    }
  }

  lemma WaitTurnOnceExtends(f: Finger, profileMin: nat, t: WaitTurn)
    ensures var r := WaitTurnOnce(f, profileMin, t);
            && Extends(f.trace, r.f.trace)
            && (f.requireLiftGap ==> Zeros(f.trace) < Zeros(r.f.trace)
                                     || (r.f.requireLiftGap && !(r.Ends? && r.outcome.Ok?)))
            && (TriggerMin(profileMin) > 6 && r.Ends? ==> !r.outcome.Ok?)
  {
    var g := HearReply(f, profileMin, t.reply).0;
    HearExtends(f, profileMin, t.reply);
    DownArmExtends(g);
    ExtendsOn(f.trace, g.trace, DownArm(g).trace);
  }

  lemma {:induction false} WaitTurnsExtends(f: Finger, profileMin: nat, turns: seq<WaitTurn>)
    ensures var (g, r) := WaitTurns(f, profileMin, turns);
            && Extends(f.trace, g.trace)
            && (f.requireLiftGap && r.Ok? ==> Zeros(f.trace) < Zeros(g.trace))
            && (TriggerMin(profileMin) > 6 ==> !r.Ok?)
    decreases |turns|
  {
    if turns != [] {
      WaitTurnOnceExtends(f, profileMin, turns[0]);
      match WaitTurnOnce(f, profileMin, turns[0])
      case Ends(_, _) =>
      case GoesOn(g) =>
        WaitTurnsExtends(g, profileMin, turns[1..]);
        ExtendsOn(f.trace, g.trace, WaitTurns(g, profileMin, turns[1..]).0.trace);
    }
  }

  /** With the flag set, a finger wait only succeeds after reading a zero touch. */
  lemma WaitExtends(f: Finger, profileMin: nat, e: WaitEnv)
    ensures var (g, r) := WaitForFinger(f, profileMin, e);
            && Extends(f.trace, g.trace)
            && (f.requireLiftGap && r.Ok? ==> Zeros(f.trace) < Zeros(g.trace))
            && (TriggerMin(profileMin) > 6 ==> !r.Ok?)
  {
    var f0 := if f.baseline.None? then MeasureBase(f, e.base).0 else f;
    var armed := DownArm(f0);
    MeasureExtends(f, e.base);
    DownArmExtends(f0);
    ExtendsOn(f.trace, f0.trace, armed.trace);
    WaitTurnsExtends(armed, profileMin, e.turns);
    ExtendsOn(f.trace, armed.trace, WaitTurns(armed, profileMin, e.turns).0.trace);
  }

  // ---- a press that is accepted at once -----------------------------------------------------

  /** An FDT-down packet that reports all six zones touched. */
  const PRESS: Bytes := [0x32, 0, 0, 0, 0, 0x3f, 0, 9, 0, 9, 0, 9, 0, 9, 0, 9, 0, 9, 0, 0]

  function Pressed(): WaitEnv {
    WaitEnv(NoPacket(TimedOut), Acked, [WaitTurn(false, false, Packet(PRESS), false, Acked)])
  }

  function AfterPress(f: Finger): Finger {
    DownArm(f).Log(Touch(0x3f, ZonesOf(PRESS))).(downSample := ZonesOf(PRESS))
  }

  lemma SixBits()
    ensures Bits(0x3f % 64) == 6
  {
    var n: nat := 0x3f % 64;
    assert n == 63 && n / 2 == 31 && 31 / 2 == 15 && 15 / 2 == 7 && 7 / 2 == 3 && 3 / 2 == 1;
    calc {
      Bits(n);
      1 + Bits(31);
      2 + Bits(15);
      3 + Bits(7);
      4 + Bits(3);
    }
  }

  lemma PressedWait(f: Finger, profileMin: nat)
    requires !f.requireLiftGap && TriggerMin(profileMin) <= 6
    ensures WaitForFinger(f, profileMin, Pressed()) == (AfterPress(f), Ok)
  {
    var armed := DownArm(f);
    assert DownRead(armed, PRESS) == (AfterPress(f), 0x3f);
    SixBits();
    assert Hear(AfterPress(f), profileMin, 0x3f) == (AfterPress(f), FingerDown);
    var turn := WaitTurn(false, false, Packet(PRESS), false, Acked);
    assert HearReply(armed, profileMin, turn.reply) == (AfterPress(f), FingerDown);
    assert WaitTurns(armed, profileMin, [turn]) == (AfterPress(f), Ok);
  }

  lemma PressExtends(f: Finger)
    ensures Extends(f.trace, AfterPress(f).trace) && Zeros(AfterPress(f).trace) == Zeros(f.trace)
  {
    DownArmExtends(f);
    LogExtends(DownArm(f), Touch(0x3f, ZonesOf(PRESS)));
    ExtendsOn(f.trace, DownArm(f).trace, AfterPress(f).trace);
  }

  // ---- the exact condition ---------------------------------------------------------------------

  /** Whatever happens in the finger wait, a finger is only accepted after a zero touch was read in it. */
  ghost predicate WaitsForZero(f: Finger, profileMin: nat) {
    forall e :: WaitForFinger(f, profileMin, e).1.Ok? ==>
      Zeros(f.trace) < Zeros(WaitForFinger(f, profileMin, e).0.trace)
  }

  /**
    A finger wait is certain to see a zero touch before it accepts a finger exactly when the lift-gap flag is set (or
    when the profile asks for more zones than there are, and no finger is ever accepted).
   */
  lemma WaitsForZeroExactly(f: Finger, profileMin: nat)
    ensures WaitsForZero(f, profileMin) <==> f.requireLiftGap || TriggerMin(profileMin) > 6
  {
    forall e | WaitForFinger(f, profileMin, e).1.Ok? && (f.requireLiftGap || TriggerMin(profileMin) > 6)
      ensures Zeros(f.trace) < Zeros(WaitForFinger(f, profileMin, e).0.trace)
    {
      WaitExtends(f, profileMin, e);
    }
    if !f.requireLiftGap && TriggerMin(profileMin) <= 6 {
      PressedWait(f, profileMin);
      PressExtends(f);
      assert WaitForFinger(f, profileMin, Pressed()).1.Ok?;
    }
  }

  /** Whatever happens in the finger wait, the next sample will not be taken with the last lift unseen. */
  ghost predicate Guarded(f: Finger, profileMin: nat) {
    forall e :: WaitForFinger(f, profileMin, e).1.Ok? ==> !Unseen(WaitForFinger(f, profileMin, e).0.trace)
  }

  /** The next sample is guarded exactly when no lift is unseen, or the flag remembers it. */
  lemma GuardedExactly(f: Finger, profileMin: nat)
    ensures Guarded(f, profileMin) <==> !Unseen(f.trace) || f.requireLiftGap || TriggerMin(profileMin) > 6
  {
    forall e | WaitForFinger(f, profileMin, e).1.Ok?
             && (!Unseen(f.trace) || f.requireLiftGap || TriggerMin(profileMin) > 6)
      ensures !Unseen(WaitForFinger(f, profileMin, e).0.trace)
    {
      WaitExtends(f, profileMin, e);
    }
    if Unseen(f.trace) && !f.requireLiftGap && TriggerMin(profileMin) <= 6 {
      PressedWait(f, profileMin);
      PressExtends(f);
      assert WaitForFinger(f, profileMin, Pressed()).1.Ok?;
    }
  }

  // ---- over a restart ------------------------------------------------------------------------------

  lemma PrimeFrameExtends(f: Finger, off2: bool, e: PrimeEnv)
    ensures Extends(f.trace, PrimeFrame(f, off2, e).trace)
    ensures PrimeFrame(f, off2, e).requireLiftGap == f.requireLiftGap
  {
    var framed := if e.frame then f.Log(BackFrame) else f;
    var g := MeasureBase(framed, e.fdt3).0;
    LogExtends(f, BackFrame);
    MeasureExtends(framed, e.fdt3);
    ExtendsOn(f.trace, framed.trace, g.trace);
    LogExtends(g, Adopted);
    ExtendsOn(f.trace, g.trace, g.Log(Adopted).trace);
  }

  lemma PrimeExtends(f: Finger, e: PrimeEnv)
    ensures Extends(f.trace, Prime(f, e).trace) && Prime(f, e).requireLiftGap == f.requireLiftGap
  {
    var f1 := MeasureBase(f, e.fdt1).0;
    MeasureExtends(f, e.fdt1);
    var (f2, off2) := MeasureBase(f1, e.fdt2);
    MeasureExtends(f1, e.fdt2);
    ExtendsOn(f.trace, f1.trace, f2.trace);
    PrimeFrameExtends(f2, off2, e);
    ExtendsOn(f.trace, f2.trace, PrimeFrame(f2, off2, e).trace);
  }

  lemma {:induction false} ActivationsExtend(f: Finger, primes: seq<Option<PrimeEnv>>)
    ensures Extends(f.trace, Activations(f, primes).trace)
    ensures Activations(f, primes).requireLiftGap == (f.requireLiftGap && primes == [])
    decreases |primes|
  {
    if primes != [] {
      var g := ResetCapture(f);
      var h := if primes[0].Some? then Prime(g, primes[0].value) else g;
      if primes[0].Some? {
        PrimeExtends(g, primes[0].value);
      }
      ActivationsExtend(h, primes[1..]);
      ExtendsOn(f.trace, h.trace, Activations(h, primes[1..]).trace);
    }
  }

  lemma RestartExtends(f: Finger, cause: Cause, e: SessionEnv)
    requires cause != ActionStart
    ensures Extends(f.trace, Restart(f, cause, e).trace)
    ensures Restart(f, cause, e).requireLiftGap == (f.requireLiftGap && e.primes == [])
  {
    var b := Boundary(cause, f.requireLiftGap && e.primes != []);
    LogExtends(f, b);
    ActivationsExtend(Bounded(f, cause, e), e.primes);
    ExtendsOn(f.trace, Bounded(f, cause, e).trace, Restart(f, cause, e).trace);
  }

  /** A reading with a clear touch flag. */
  predicate ReadsZero(r: Reply) {
    ManualRead(r).Some? && ManualRead(r).value.0 == 0
  }

  /** A reading that counts as finger-off. */
  predicate ReadsOff(r: Reply) {
    ManualRead(r).Some? && ZeroTouch(ManualRead(r).value.0)
  }

  /** Priming is skipped once a frame was adopted, unless it is forced. */
  predicate PrimeReads(refreshed: bool, e: PrimeEnv) {
    !refreshed || e.forced
  }

  predicate PrimeSees(refreshed: bool, e: PrimeEnv) {
    PrimeReads(refreshed, e) && (ReadsZero(e.fdt1) || ReadsZero(e.fdt2) || ReadsZero(e.fdt3))
  }

  predicate RefreshedAfter(refreshed: bool, e: PrimeEnv) {
    refreshed || (e.frame && ReadsOff(e.fdt2) && ReadsOff(e.fdt3))
  }

  /** One of the readings that these activations really make is a zero touch. */
  predicate RestartSees(refreshed: bool, primes: seq<Option<PrimeEnv>>)
    decreases |primes|
  {
    && primes != []
    && match primes[0]
       case None => RestartSees(refreshed, primes[1..])
       case Some(e) => PrimeSees(refreshed, e) || RestartSees(RefreshedAfter(refreshed, e), primes[1..])
  }

  lemma MeasureSees(f: Finger, r: Reply)
    ensures var (g, off) := MeasureBase(f, r);
            && Zeros(g.trace) == Zeros(f.trace) + (if ReadsZero(r) then 1 else 0)
            && (off <==> ReadsOff(r)) && g.refreshed == f.refreshed
  {
    if ManualRead(r).Some? {
      var (flag, zones) := ManualRead(r).value;
      ZerosLog(f, Touch(flag, Some(zones)));
      StoreBaseStep(f, flag, Some(zones));
    }
  }

  lemma ZerosLog(f: Finger, e: Event)
    ensures Zeros(f.Log(e).trace) == Zeros(f.trace) + if IsZeroTouch(e) then 1 else 0
  {
    assert (f.trace + [e])[..|f.trace|] == f.trace;
  }

  lemma PrimeFrameSees(f: Finger, off2: bool, e: PrimeEnv)
    ensures var g := PrimeFrame(f, off2, e);
            && Zeros(g.trace) == Zeros(f.trace) + (if ReadsZero(e.fdt3) then 1 else 0)
            && (g.refreshed <==> f.refreshed || (e.frame && off2 && ReadsOff(e.fdt3)))
  {
    var framed := if e.frame then f.Log(BackFrame) else f;
    ZerosLog(f, BackFrame);
    MeasureSees(framed, e.fdt3);
    ZerosLog(MeasureBase(framed, e.fdt3).0, Adopted);
  }

  lemma PrimeSeesExactly(f: Finger, e: PrimeEnv)
    ensures Zeros(f.trace) <= Zeros(Prime(f, e).trace)
    ensures Zeros(f.trace) < Zeros(Prime(f, e).trace) <==> PrimeSees(f.refreshed, e)
    ensures Prime(f, e).refreshed == RefreshedAfter(f.refreshed, e)
  {
    if PrimeReads(f.refreshed, e) {
      var f1 := MeasureBase(f, e.fdt1).0;
      MeasureSees(f, e.fdt1);
      var (f2, off2) := MeasureBase(f1, e.fdt2);
      MeasureSees(f1, e.fdt2);
      PrimeFrameSees(f2, off2, e);
    }
  }

  lemma {:induction false} ActivationsSeeExactly(f: Finger, primes: seq<Option<PrimeEnv>>)
    ensures Zeros(f.trace) <= Zeros(Activations(f, primes).trace)
    ensures Zeros(f.trace) < Zeros(Activations(f, primes).trace) <==> RestartSees(f.refreshed, primes)
    decreases |primes|
  {
    if primes != [] {
      var g := ResetCapture(f);
      if primes[0].Some? {
        PrimeSeesExactly(g, primes[0].value);
        ActivationsSeeExactly(Prime(g, primes[0].value), primes[1..]);
      } else {
        ActivationsSeeExactly(g, primes[1..]);
      }
    }
  }

  /**
    After the restart of a failed finger wait the next sample is still guarded exactly when no lift was unseen, or a
    reading that the restart makes is a zero touch: the flag that remembered the lift is gone.
   */
  lemma RestartGuardsExactly(f: Finger, profileMin: nat, e: SessionEnv)
    requires e.ok
    ensures Guarded(Restart(f, WaitFailed, e), profileMin)
            <==> !Unseen(f.trace) || RestartSees(f.refreshed, e.primes) || TriggerMin(profileMin) > 6
  {
    RestartExtends(f, WaitFailed, e);
    GuardedExactly(Restart(f, WaitFailed, e), profileMin);
    ZerosLog(f, Boundary(WaitFailed, f.requireLiftGap && e.primes != []));
    ActivationsSeeExactly(Bounded(f, WaitFailed, e), e.primes);
  }

  // ---- the lift ----------------------------------------------------------------------------------------

  lemma LiftFlagExtends(f: Finger, t: LiftTurn)
    ensures var (g, flag) := LiftFlag(f, t);
            && Extends(f.trace, g.trace) && (flag == Some(0) ==> Zeros(f.trace) < Zeros(g.trace))
  {
    match t.up
    case Packet(b) =>
      if |b| >= 17 {
        StoreExtends(f, b[5], ZonesOf(b));
      }
    case NoPacket(_) =>
      if ManualRead(t.manual).Some? {
        StoreExtends(f, ManualRead(t.manual).value.0, Some(ManualRead(t.manual).value.1));
      }
  }

  lemma UpArmExtends(f: Finger)
    ensures Extends(f.trace, UpArm(f).trace) && Zeros(UpArm(f).trace) == Zeros(f.trace)
  {
    if f.downSample.Some? {
      LogExtends(f, UpArmed(Thresholds(f.downSample.value, UP_OFFSET)));
    }
  }

  lemma DarkFrameExtends(f: Finger, captured: bool)
    ensures Extends(f.trace, DarkFrame(f, captured).trace)
    ensures Zeros(DarkFrame(f, captured).trace) == Zeros(f.trace)
  {
    LogExtends(f, BackFrame);
    LogExtends(f.Log(BackFrame), Adopted);
    ExtendsOn(f.trace, f.Log(BackFrame).trace, f.Log(BackFrame).Log(Adopted).trace);
  }

  lemma LiftTurnExtends(f: Finger, t: LiftTurn)
    ensures var (g, flag) := LiftFlag(UpArm(f), t);
            && Extends(f.trace, g.trace) && (flag == Some(0) ==> Zeros(f.trace) < Zeros(g.trace))
  {
    UpArmExtends(f);
    LiftFlagExtends(UpArm(f), t);
    ExtendsOn(f.trace, UpArm(f).trace, LiftFlag(UpArm(f), t).0.trace);
  }

  lemma SettleExtends(a: seq<Event>, g: Finger, flag: Option<Byte>, t: LiftTurn)
    requires Extends(a, g.trace) && (flag == Some(0) ==> Zeros(a) < Zeros(g.trace))
    ensures TurnExtends(a, Settle(g, flag, t))
  {
    DarkFrameExtends(g, t.darkFrame);
    ExtendsOn(a, g.trace, DarkFrame(g, t.darkFrame).trace);
  }

  /** A turn goes on from the trace a, and a successful end has read a zero touch. */
  ghost predicate TurnExtends(a: seq<Event>, r: Turned) {
    Extends(a, r.f.trace) && (r.Ends? && r.outcome.Ok? ==> Zeros(a) < Zeros(r.f.trace))
  }

  lemma LiftTurnOnceExtends(f: Finger, t: LiftTurn)
    ensures TurnExtends(f.trace, LiftTurnOnce(f, t))
  {
    UpArmExtends(f);
    var (g, flag) := LiftFlag(UpArm(f), t);
    LiftTurnExtends(f, t);
    SettleExtends(f.trace, g, flag, t);
  }

  /** A confirmed lift is a zero touch that was read in this lift wait. */
  lemma {:induction false} LiftIsZeroTouch(f: Finger, turns: seq<LiftTurn>)
    ensures var (g, r) := LiftTurns(f, turns);
            Extends(f.trace, g.trace) && (r.Ok? ==> Zeros(f.trace) < Zeros(g.trace))
    decreases |turns|
  {
    if turns != [] {
      LiftTurnOnceExtends(f, turns[0]);
      match LiftTurnOnce(f, turns[0])
      case Ends(_, _) =>
      case GoesOn(g) =>
        LiftIsZeroTouch(g, turns[1..]);
        ExtendsOn(f.trace, g.trace, LiftTurns(g, turns[1..]).0.trace);
    }
  }

  /** After a lift report that counts, the next sample is guarded: the lift was seen, or the flag is set. */
  lemma LiftReportGuards(f: Finger, profileMin: nat, turns: seq<LiftTurn>, allowGap: bool)
    ensures var (g, lifted) := LiftReport(f, turns, allowGap);
            lifted ==> Guarded(g, profileMin)
  {
    var (g, lifted) := LiftReport(f, turns, allowGap);
    LiftIsZeroTouch(f, turns);
    assert g.trace == LiftTurns(f, turns).0.trace;
    GuardedExactly(g, profileMin);
  }

  // ---- a run that misses a lift ----------------------------------------------------------------------------

  /** A session that comes up with its frame, while every FDT reading fails. */
  function ColdSession(): SessionEnv {
    Session([Some(PrimeEnv(false, NoPacket(TimedOut), NoPacket(TimedOut), true, NoPacket(TimedOut)))], true)
  }

  function Press(): CaptureEnv {
    CaptureEnv(Pressed(), Ok, ColdSession())
  }

  /** A finger wait whose arm meets a broken SPI descriptor. */
  function BrokenWait(): CaptureEnv {
    CaptureEnv(WaitEnv(NoPacket(TimedOut), WriteFailed(BrokenPipe), []), Ok, ColdSession())
  }

  /** A lift wait in which neither the FDT-up answer nor the manual reading arrives. */
  function SilentLift(): seq<LiftTurn> {
    [LiftTurn(false, false, Acked, NoPacket(TimedOut), NoPacket(TimedOut), false)]
  }

  /** A press whose lift nobody sees, then one more press after the broken wait. */
  function MissingStages(): seq<Stage> {
    [Stage(Press(), Press(), false, false, SilentLift()), Stage(BrokenWait(), Press(), true, false, [])]
  }

  /** A fresh session: nothing learnt, nothing adopted, the default thresholds. */
  predicate Fresh(f: Finger) {
    f.baseline.None? && !f.refreshed && !f.requireLiftGap && f.downRegs == DEFAULT_DOWN
  }

  lemma ColdSessionComesUp(f: Finger, cause: Cause)
    requires f.baseline.None? && !f.refreshed
    ensures var g := Restart(f, cause, ColdSession());
            Fresh(g) && g.trace == f.trace + [Boundary(cause, f.requireLiftGap), BackFrame]
  {
    var e := ColdSession();
    var b := Bounded(f, cause, e);
    var r := ResetCapture(b);
    assert Prime(r, e.primes[0].value) == r.Log(BackFrame);
    assert e.primes[1..] == [];
    assert Activations(b, e.primes) == Activations(r.Log(BackFrame), e.primes[1..]);
    assert f.trace + [Boundary(cause, f.requireLiftGap)] + [BackFrame]
        == f.trace + [Boundary(cause, f.requireLiftGap), BackFrame];
  }

  /** What a press logs up to its sample. */
  function PressLog(): seq<Event> {
    [DownArmed(DEFAULT_DOWN), Touch(0x3f, ZonesOf(PRESS)), Sample]
  }

  lemma PressIsSampled(f: Finger, profileMin: nat, first: CaptureEnv, retry: bool)
    requires Fresh(f) && TriggerMin(profileMin) <= 6 && (!retry ==> first == Press())
    ensures var (g, captured) := CaptureOne(f, profileMin, first, Press(), retry);
            && captured && g.trace == f.trace + PressLog()
            && g.baseline.None? && !g.refreshed && !g.requireLiftGap
            && g.downRegs == DEFAULT_DOWN && g.downSample == ZonesOf(PRESS)
  {
    PressedWait(f, profileMin);
    assert CaptureOne(f, profileMin, first, Press(), retry) == (AfterPress(f).Log(Sample), true);
    assert f.trace + [DownArmed(DEFAULT_DOWN)] + [Touch(0x3f, ZonesOf(PRESS))] + [Sample] == f.trace + PressLog();
  }

  function UpTable(): Registers {
    Thresholds(ZonesOf(PRESS).value, UP_OFFSET)
  }

  lemma SilentLiftIsRemembered(f: Finger)
    requires f.downSample == ZonesOf(PRESS)
    ensures LiftReport(f, SilentLift(), true) == (f.Log(UpArmed(UpTable())).(requireLiftGap := true), true)
  {
    var t, armed := SilentLift()[0], f.Log(UpArmed(UpTable()));
    assert LiftFlag(armed, t) == (armed, Some(TOUCH_IGNORE));
    assert LiftTurnOnce(f, t) == GoesOn(armed);
    assert SilentLift()[1..] == [];
    assert LiftTurns(f, SilentLift()) == (armed, Err(Timeout));
  }

  lemma BrokenWaitRestarts(f: Finger, profileMin: nat)
    requires f.baseline.None? && f.downRegs == DEFAULT_DOWN
    ensures WaitForFinger(f, profileMin, BrokenWait().wait)
            == (f.Log(DownArmed(DEFAULT_DOWN)), Err(ConnectionClosed))
  {
    assert DownArm(f) == f.Log(DownArmed(DEFAULT_DOWN));
  }

  /** The second sample: the broken wait restarts the session, and the press is accepted at once. */
  lemma SecondSample(f: Finger, profileMin: nat)
    requires f.baseline.None? && !f.refreshed && f.requireLiftGap && f.downRegs == DEFAULT_DOWN
    requires TriggerMin(profileMin) <= 6
    ensures var (g, captured) := CaptureOne(f, profileMin, BrokenWait(), Press());
            && captured
            && g.trace == f.trace + ([DownArmed(DEFAULT_DOWN), Boundary(WaitFailed, true), BackFrame] + PressLog())
  {
    var lost := f.Log(DownArmed(DEFAULT_DOWN));
    BrokenWaitRestarts(f, profileMin);
    ColdSessionComesUp(lost, WaitFailed);
    var back := Restart(lost, WaitFailed, ColdSession());
    PressIsSampled(back, profileMin, BrokenWait(), true);
    assert CaptureOne(f, profileMin, BrokenWait(), Press())
        == CaptureOne(back, profileMin, BrokenWait(), Press(), true);
    assert f.trace + [DownArmed(DEFAULT_DOWN)] + [Boundary(WaitFailed, true), BackFrame] + PressLog()
        == f.trace + ([DownArmed(DEFAULT_DOWN), Boundary(WaitFailed, true), BackFrame] + PressLog());
  }

  /** What the two stages log. */
  function MissingLog(): seq<Event> {
    PressLog() + [UpArmed(UpTable())] + [DownArmed(DEFAULT_DOWN), Boundary(WaitFailed, true), BackFrame] + PressLog()
  }

  lemma MissingEnroll(f: Finger, profileMin: nat, stages: seq<Stage>)
    requires Fresh(f) && TriggerMin(profileMin) <= 6 && stages == MissingStages()
    ensures Enroll(f, profileMin, stages).trace == f.trace + MissingLog()
  {
    var first, second := stages[0], stages[1];
    var g := CaptureOne(f, profileMin, first.first, first.second).0;
    PressIsSampled(f, profileMin, first.first, false);
    SilentLiftIsRemembered(g);
    var h := g.Log(UpArmed(UpTable())).(requireLiftGap := true);
    SecondSample(h, profileMin);
    assert stages[1..] == [second];
    assert Enroll(f, profileMin, stages) == Enroll(h, profileMin, [second]);
    assert Enroll(h, profileMin, [second]) == CaptureOne(h, profileMin, second.first, second.second).0;
    MissingTrace(f.trace);
  }

  lemma MissingTrace(t: seq<Event>)
    ensures t + PressLog() + [UpArmed(UpTable())]
              + ([DownArmed(DEFAULT_DOWN), Boundary(WaitFailed, true), BackFrame] + PressLog())
            == t + MissingLog()
  {
  }

  /** The whole run: open, then one enrollment. */
  function MissingRun(): seq<Op> {
    [Open, EnrollAction(ColdSession(), MissingStages())]
  }

  lemma RunTwoOps(f: Finger, profileMin: nat, ops: seq<Op>)
    requires |ops| == 2
    ensures RunOps(f, profileMin, ops) == Apply(Apply(f, profileMin, ops[0]), profileMin, ops[1])
  {
    var g := Apply(f, profileMin, ops[0]);
    assert RunOps(f, profileMin, ops) == RunOps(g, profileMin, ops[1..]);
    assert ops[1..][0] == ops[1] && ops[1..][1..] == [];
  }

  lemma MissingApply(profileMin: nat, session: SessionEnv, stages: seq<Stage>)
    requires TriggerMin(profileMin) <= 6 && session == ColdSession() && stages == MissingStages()
    ensures Apply(MarkCold(INITIAL), profileMin, EnrollAction(session, stages)).trace
            == [ColdBoundary] + [Boundary(ActionStart, false), BackFrame] + MissingLog()
  {
    var cold := MarkCold(INITIAL);
    ColdSessionComesUp(cold, ActionStart);
    MissingEnroll(Restart(cold, ActionStart, session), profileMin, stages);
    assert cold.trace == [ColdBoundary];
  }

  lemma MissingShows(trace: seq<Event>)
    requires trace == [ColdBoundary] + [Boundary(ActionStart, false), BackFrame] + MissingLog()
    ensures trace[5].Sample? && trace[12].Sample? && ForgetsLift(trace[8])
    ensures forall k | 5 < k < 12 :: !IsZeroTouch(trace[k])
  {
  }

  /**
    From the initial state, for every profile a finger can satisfy, this run takes two samples of one enrollment with
    no zero touch between them; the boundary in between cleared the set lift-gap flag.
   */
  lemma RunMissesLift(profileMin: nat, ops: seq<Op>)
    requires TriggerMin(profileMin) <= 6 && ops == MissingRun()
    ensures var trace := RunOps(INITIAL, profileMin, ops).trace;
            && |trace| == 13 && trace[5].Sample? && trace[12].Sample? && ForgetsLift(trace[8])
            && forall k | 5 < k < 12 :: !IsZeroTouch(trace[k])
  {
    RunTwoOps(INITIAL, profileMin, ops);
    MissingApply(profileMin, ColdSession(), MissingStages());
    MissingShows(RunOps(INITIAL, profileMin, ops).trace);
  }
}
