/** Verification and identification: which entry matches, what is reported, and how an action completes. */
module Matching {
  import opened Common

  const ATTEMPTS: nat := 3

  // ---- the environment ---------------------------------------------------------------

  /** What the engine returns for one entry; only the score is looked at here. */
  datatype MatchResult = MatchResult(score: int, engine: Bytes)

  /** Errors that leave no trace of the finger are later reported as a non-match. */
  datatype Scored = Score(result: MatchResult) | ScoreError(transient: bool)

  datatype Capture = Raw | FingerGone | CaptureError(transient: bool)

  datatype Preparation = ProbeReady | Rejected(named: bool) | PrepareError(transient: bool)

  datatype Attempt = Attempt(capture: Capture, preparation: Preparation, scores: nat -> Scored)

  // ---- the best entry -------------------------------------------------------------------

  datatype Leader = Nobody | Lead(entry: nat, result: MatchResult) | Aborted(transient: bool)

  function Scan(scores: nat -> Scored, n: nat): Leader {
    if n == 0 then Nobody
    else
      var before := Scan(scores, n - 1);
      if before.Aborted? then before
      else
        match scores(n - 1)
        case ScoreError(transient) => Aborted(transient)
        case Score(result) =>
          if result.score > 0 && (before.Lead? ==> result.score > before.result.score) then Lead(n - 1, result)
          else before
  }

  /** The earliest of the entries with the greatest score, which is positive; no entry failed. */
  ghost predicate IsBest(scores: nat -> Scored, n: nat, entry: nat) {
    && (forall i: nat | i < n :: scores(i).Score?)
    && entry < n && scores(entry).result.score > 0
    && (forall i: nat | i < n :: scores(i).result.score <= scores(entry).result.score)
    && (forall i: nat | i < entry :: scores(i).result.score < scores(entry).result.score)
  }

  ghost predicate NoneMatches(scores: nat -> Scored, n: nat) {
    forall i: nat | i < n :: scores(i).Score? && scores(i).result.score <= 0
  }

  /** The scan aborts exactly at the first failing entry, and otherwise finds exactly the best entry and its result. */
  lemma {:induction false} ScanFindsBest(scores: nat -> Scored, n: nat)
    ensures Scan(scores, n).Lead? ==>
              IsBest(scores, n, Scan(scores, n).entry) && Scan(scores, n).result == scores(Scan(scores, n).entry).result
    ensures Scan(scores, n).Nobody? <==> NoneMatches(scores, n)
    ensures Scan(scores, n).Aborted? <==> exists i: nat | i < n :: scores(i).ScoreError?
  {
    if n > 0 {
      ScanFindsBest(scores, n - 1);
    }
  }

  lemma {:induction false} ScanStaysAborted(scores: nat -> Scored, i: nat, n: nat)
    requires i <= n && Scan(scores, i).Aborted?
    ensures Scan(scores, n) == Scan(scores, i)
  {
    if i < n {
      ScanStaysAborted(scores, i, n - 1);
    }
  }

  lemma BestIsUnique(scores: nat -> Scored, n: nat, entry: nat)
    requires IsBest(scores, n, entry)
    ensures Scan(scores, n) == Lead(entry, scores(entry).result)
  {
    ScanFindsBest(scores, n);
  }

  // ---- the verdict of an action ------------------------------------------------------------

  datatype Verdict = Failed(transient: bool) | Matched(entry: nat, result: MatchResult) | NoMatch | BadCapture

  /** The captures ended without a decision: a capture that was only ever rejected is worth retrying. */
  function Undecided(sawProbe: bool, rejected: bool): Verdict {
    if !sawProbe && rejected then BadCapture else NoMatch
  }

  /** Up to three captures against a gallery of n entries. */
  function Decide(n: nat, env: nat -> Attempt, attempt: nat, sawProbe: bool, rejected: bool): Verdict
    requires 1 <= attempt <= ATTEMPTS
    decreases ATTEMPTS - attempt
  {
    var e := env(attempt);
    if e.capture.CaptureError? then Failed(e.capture.transient)
    else if e.capture.FingerGone? then Undecided(sawProbe, rejected)
    else
      match e.preparation
      case PrepareError(transient) => Failed(transient)
      case Rejected(named) =>
        if attempt == ATTEMPTS then Undecided(sawProbe, named) else Decide(n, env, attempt + 1, sawProbe, named)
      case ProbeReady =>
        match Scan(e.scores, n)
        case Aborted(transient) => Failed(transient)
        case Lead(entry, result) => Matched(entry, result)
        case Nobody => if attempt == ATTEMPTS then NoMatch else Decide(n, env, attempt + 1, true, false)
  }

  function Verdicts(n: nat, env: nat -> Attempt): Verdict {
    Decide(n, env, 1, false, false)
  }

  /** This attempt produced a probe, and the entry is its best with its own result. */
  ghost predicate MatchedAt(n: nat, e: Attempt, entry: nat, result: MatchResult) {
    e.capture.Raw? && e.preparation.ProbeReady? && IsBest(e.scores, n, entry) && result == e.scores(entry).result
  }

  /** This attempt ended without a match, an error or the end of the press. */
  ghost predicate PassedOver(n: nat, e: Attempt) {
    e.capture.Raw? && (e.preparation.Rejected? || (e.preparation.ProbeReady? && NoneMatches(e.scores, n)))
  }

  /** From this attempt on, attempt a is the first that has a match, and all before it were passed over. */
  ghost predicate FirstMatch(n: nat, env: nat -> Attempt, attempt: nat, a: nat, entry: nat, result: MatchResult) {
    && attempt <= a <= ATTEMPTS && MatchedAt(n, env(a), entry, result)
    && forall b: nat | attempt <= b < a :: PassedOver(n, env(b))
  }

  /** Exactly the attempts that give a first match lead to a match, of that entry with its own result. */
  lemma {:induction false} MatchExactly(n: nat, env: nat -> Attempt, attempt: nat, sawProbe: bool, rejected: bool,
                                        entry: nat, result: MatchResult)
    requires 1 <= attempt <= ATTEMPTS
    ensures Decide(n, env, attempt, sawProbe, rejected) == Matched(entry, result)
            <==> exists a: nat :: FirstMatch(n, env, attempt, a, entry, result)
  {
    MatchIsBest(n, env, attempt, sawProbe, rejected);
    if a: nat :| FirstMatch(n, env, attempt, a, entry, result) {
      FirstMatchDecides(n, env, attempt, sawProbe, rejected, a, entry, result);
    }
  }

  lemma {:induction false} FirstMatchDecides(n: nat, env: nat -> Attempt, attempt: nat, sawProbe: bool, rejected: bool,
                                             a: nat, entry: nat, result: MatchResult)
    requires 1 <= attempt <= ATTEMPTS && FirstMatch(n, env, attempt, a, entry, result)
    ensures Decide(n, env, attempt, sawProbe, rejected) == Matched(entry, result)
    decreases a - attempt
  {
    var e := env(attempt);
    if a == attempt {
      BestIsUnique(e.scores, n, entry);
    } else {
      ScanFindsBest(e.scores, n);
      assert PassedOver(n, e);
      var saw, named := sawProbe || e.preparation.ProbeReady?, e.preparation.Rejected? && e.preparation.named;
      FirstMatchDecides(n, env, attempt + 1, saw, named, a, entry, result);
    }
  }

  // ---- errors and endings without a match ----------------------------------------------------

  /** The first entry that fails, with the kind of its error. */
  ghost predicate FailsAt(scores: nat -> Scored, n: nat, entry: nat, transient: bool) {
    entry < n && scores(entry) == ScoreError(transient) && forall i: nat | i < entry :: scores(i).Score?
  }

  lemma {:induction false} ScanAbortsExactly(scores: nat -> Scored, n: nat, transient: bool)
    ensures Scan(scores, n) == Aborted(transient) <==> exists i: nat :: FailsAt(scores, n, i, transient)
  {
    if n > 0 {
      ScanAbortsExactly(scores, n - 1, transient);
      ScanFindsBest(scores, n - 1);
      if Scan(scores, n) == Aborted(transient) {
        if Scan(scores, n - 1).Aborted? {
          var i: nat :| FailsAt(scores, n - 1, i, transient);
          assert FailsAt(scores, n, i, transient);
        } else {
          assert FailsAt(scores, n, n - 1, transient);
        }
      }
      if i: nat :| FailsAt(scores, n, i, transient) && i < n - 1 {
        assert FailsAt(scores, n - 1, i, transient);
      }
    }
  }

  /** This attempt ends in an error of that kind: in the capture, the preparation, or the scan. */
  ghost predicate ErrorAt(n: nat, e: Attempt, transient: bool) {
    || e.capture == CaptureError(transient)
    || (e.capture.Raw? && e.preparation == PrepareError(transient))
    || (e.capture.Raw? && e.preparation.ProbeReady? && exists i: nat :: FailsAt(e.scores, n, i, transient))
  }

  ghost predicate FirstError(n: nat, env: nat -> Attempt, attempt: nat, a: nat, transient: bool) {
    && attempt <= a <= ATTEMPTS && ErrorAt(n, env(a), transient)
    && forall b: nat | attempt <= b < a :: PassedOver(n, env(b))
  }

  /** From this attempt on, an error of that kind comes before any match or lift. */
  ghost predicate Errs(n: nat, env: nat -> Attempt, attempt: nat, transient: bool) {
    exists a: nat :: FirstError(n, env, attempt, a, transient)
  }

  /** An action fails exactly when an attempt fails before any attempt has matched or found the finger gone. */
  lemma {:induction false} ErrorExactly(n: nat, env: nat -> Attempt, attempt: nat, sawProbe: bool, rejected: bool,
                                        transient: bool)
    requires 1 <= attempt <= ATTEMPTS
    ensures Decide(n, env, attempt, sawProbe, rejected) == Failed(transient)
            <==> Errs(n, env, attempt, transient)
    decreases ATTEMPTS - attempt
  {
    var e := env(attempt);
    ScanAbortsExactly(e.scores, n, transient);
    ScanFindsBest(e.scores, n);
    if PassedOver(n, e) && attempt < ATTEMPTS {
      var saw, named := sawProbe || e.preparation.ProbeReady?, e.preparation.Rejected? && e.preparation.named;
      ErrorExactly(n, env, attempt + 1, saw, named, transient);
      ErrorLater(n, env, attempt, transient);
    } else {
      ErrorNow(n, env, attempt, transient);
    }
  }

  lemma ErrorNow(n: nat, env: nat -> Attempt, attempt: nat, transient: bool)
    requires 1 <= attempt <= ATTEMPTS && (!PassedOver(n, env(attempt)) || attempt == ATTEMPTS)
    ensures Errs(n, env, attempt, transient) <==> ErrorAt(n, env(attempt), transient)
  {
    if ErrorAt(n, env(attempt), transient) {
      assert FirstError(n, env, attempt, attempt, transient);
    }
  }

  lemma ErrorLater(n: nat, env: nat -> Attempt, attempt: nat, transient: bool)
    requires PassedOver(n, env(attempt)) && 1 <= attempt < ATTEMPTS
    ensures Errs(n, env, attempt, transient) <==> Errs(n, env, attempt + 1, transient)
  {
    var next := attempt + 1;
    PassedOverIsNoError(n, env(attempt), transient);
    if a: nat :| FirstError(n, env, attempt, a, transient) {
      assert FirstError(n, env, next, a, transient);
    }
    if a: nat :| FirstError(n, env, next, a, transient) {
      assert FirstError(n, env, attempt, a, transient);
    }
  }

  lemma PassedOverIsNoError(n: nat, e: Attempt, transient: bool)
    requires PassedOver(n, e)
    ensures !ErrorAt(n, e, transient)
  {
  }

  /** The press ends without a match or an error: with the finger gone, or with the last attempt. */
  ghost predicate Ended(n: nat, env: nat -> Attempt, attempt: nat)
    requires attempt <= ATTEMPTS
    decreases ATTEMPTS - attempt
  {
    || env(attempt).capture.FingerGone?
    || (PassedOver(n, env(attempt)) && (attempt == ATTEMPTS || Ended(n, env, attempt + 1)))
  }

  lemma {:induction false} EndedExactly(n: nat, env: nat -> Attempt, attempt: nat, sawProbe: bool, rejected: bool)
    requires 1 <= attempt <= ATTEMPTS
    ensures var v := Decide(n, env, attempt, sawProbe, rejected);
            v.NoMatch? || v.BadCapture? <==> Ended(n, env, attempt)
    decreases ATTEMPTS - attempt
  {
    var e := env(attempt);
    ScanFindsBest(e.scores, n);
    if PassedOver(n, e) && attempt < ATTEMPTS {
      var saw, named := sawProbe || e.preparation.ProbeReady?, e.preparation.Rejected? && e.preparation.named;
      EndedExactly(n, env, attempt + 1, saw, named);
    }
  }

  lemma FirstMatchLater(n: nat, env: nat -> Attempt, attempt: nat, a: nat, entry: nat, result: MatchResult)
    requires PassedOver(n, env(attempt)) && FirstMatch(n, env, attempt + 1, a, entry, result)
    ensures FirstMatch(n, env, attempt, a, entry, result)
  {
  }

  /** A match is the best entry of the first attempt that has one. */
  lemma {:induction false} MatchIsBest(n: nat, env: nat -> Attempt, attempt: nat, sawProbe: bool, rejected: bool)
    requires 1 <= attempt <= ATTEMPTS
    ensures var v := Decide(n, env, attempt, sawProbe, rejected);
            v.Matched? ==> exists a: nat :: FirstMatch(n, env, attempt, a, v.entry, v.result)
    decreases ATTEMPTS - attempt
  {
    var e, v := env(attempt), Decide(n, env, attempt, sawProbe, rejected);
    ScanFindsBest(e.scores, n);
    if v.Matched? {
      if e.preparation.ProbeReady? && Scan(e.scores, n).Lead? {
        assert FirstMatch(n, env, attempt, attempt, v.entry, v.result);
      } else {
        var saw, named := sawProbe || e.preparation.ProbeReady?, e.preparation.Rejected? && e.preparation.named;
        MatchIsBest(n, env, attempt + 1, saw, named);
        var a: nat :| FirstMatch(n, env, attempt + 1, a, v.entry, v.result);
        FirstMatchLater(n, env, attempt, a, v.entry, v.result);
      }
    }
  }

  /** The first captures up to this one were all rejected. */
  ghost predicate RejectedUpTo(env: nat -> Attempt, a: nat) {
    forall b: nat | 1 <= b <= a :: env(b).capture.Raw? && env(b).preparation.Rejected?
  }

  /** The last of the rejected captures, for a named reason: no attempt is left, or the finger is gone. */
  ghost predicate EndsRejected(env: nat -> Attempt, a: nat) {
    && 1 <= a <= ATTEMPTS && RejectedUpTo(env, a) && env(a).preparation.named
    && (a < ATTEMPTS ==> env(a + 1).capture.FingerGone?)
  }

  /** The user is asked to try again exactly when every capture was rejected and no probe was ever compared. */
  lemma RetryExactlyWhenRejected(n: nat, env: nat -> Attempt)
    ensures Verdicts(n, env) == BadCapture <==> EndsRejected(env, 1) || EndsRejected(env, 2) || EndsRejected(env, 3)
  {
    if env(1).capture.Raw? && env(1).preparation.Rejected? {
      var second := Decide(n, env, 2, false, env(1).preparation.named);
      assert Verdicts(n, env) == second;
      if env(2).capture.Raw? && env(2).preparation.Rejected? {
        assert second == Decide(n, env, 3, false, env(2).preparation.named);
      } else {
        NoRetryAfterProbe(n, env, 3, false);
      }
    } else {
      NoRetryAfterProbe(n, env, 2, false);
    }
  }

  /** Once a probe was compared, the outcome is never a request to try again. */
  lemma {:induction false} NoRetryAfterProbe(n: nat, env: nat -> Attempt, attempt: nat, rejected: bool)
    requires 1 <= attempt <= ATTEMPTS
    ensures Decide(n, env, attempt, true, rejected) != BadCapture
    decreases ATTEMPTS - attempt
  {
    if attempt < ATTEMPTS {
      NoRetryAfterProbe(n, env, attempt + 1, false);
      if env(attempt).preparation.Rejected? {
        NoRetryAfterProbe(n, env, attempt + 1, env(attempt).preparation.named);
      }
    }
  }

  // ---- what the frontend sees ----------------------------------------------------------------

  datatype Event =
    | ReportMatch(entry: nat)
    | ReportNoMatch
    | ReportRetry
    | Study(entry: nat, result: MatchResult)
    | Hold
    | Complete(failed: bool)

  /** The events of one action. */
  function Visible(v: Verdict): seq<Event> {
    match v
    case Failed(transient) => if transient then [ReportNoMatch, Hold, Complete(false)] else [Complete(true)]
    case Matched(entry, result) => [Study(entry, result), ReportMatch(entry), Complete(false)]
    case NoMatch => [ReportNoMatch, Hold, Complete(false)]
    case BadCapture => [ReportRetry, Hold, Complete(false)]
  }

  /** Every capture so far was rejected, for a named reason at last, and then the finger was gone or no try was left. */
  ghost predicate AlwaysRejected(env: nat -> Attempt) {
    EndsRejected(env, 1) || EndsRejected(env, 2) || EndsRejected(env, 3)
  }

  /** Exactly what a frontend may see of these attempts, and in which order. */
  ghost predicate Shows(events: seq<Event>, n: nat, env: nat -> Attempt) {
    && (forall i: nat :: ReportMatch(i) in events <==> exists a: nat, r :: FirstMatch(n, env, 1, a, i, r))
    && (forall i: nat, r :: Study(i, r) in events <==> exists a: nat :: FirstMatch(n, env, 1, a, i, r))
    && (ReportRetry in events <==> AlwaysRejected(env))
    && (ReportNoMatch in events <==> Errs(n, env, 1, true) || (Ended(n, env, 1) && !AlwaysRejected(env)))
    && (Complete(true) in events <==> Errs(n, env, 1, false))
    && (Hold in events <==> ReportRetry in events || ReportNoMatch in events)
    && InOrder(events)
  }

  /** A study comes before its report, a report before its hold, and one completion ends the action. */
  ghost predicate InOrder(events: seq<Event>) {
    && events != [] && events[|events| - 1].Complete?
    && forall i, j | 0 <= i < j < |events| :: Rank(events[i]) < Rank(events[j])
  }

  function Rank(e: Event): nat {
    if e.Study? then 0 else if e.Hold? then 2 else if e.Complete? then 3 else 1
  }

  /** The events of a verify or identify are exactly those its attempts call for. */
  lemma ShownExactly(n: nat, env: nat -> Attempt)
    ensures Shows(Visible(Verdicts(n, env)), n, env)
  {
    var v, w := Verdicts(n, env), Visible(Verdicts(n, env));
    RetryExactlyWhenRejected(n, env);
    EndedExactly(n, env, 1, false, false);
    ErrorExactly(n, env, 1, false, false, true);
    ErrorExactly(n, env, 1, false, false, false);
    forall i: nat, r ensures Study(i, r) in w <==> exists a: nat :: FirstMatch(n, env, 1, a, i, r) {
      MatchExactly(n, env, 1, false, false, i, r);
    }
    forall i: nat ensures ReportMatch(i) in w <==> exists a: nat, r :: FirstMatch(n, env, 1, a, i, r) {
      ReportedExactly(n, env, i);
    }
  }

  lemma ReportedExactly(n: nat, env: nat -> Attempt, i: nat)
    ensures ReportMatch(i) in Visible(Verdicts(n, env)) <==> exists a: nat, r :: FirstMatch(n, env, 1, a, i, r)
  {
    var v := Verdicts(n, env);
    if v.Matched? && v.entry == i {
      MatchExactly(n, env, 1, false, false, i, v.result);
    }
    if a: nat, r :| FirstMatch(n, env, 1, a, i, r) {
      MatchExactly(n, env, 1, false, false, i, r);
    }
  }

  predicate IsReport(e: Event) {
    e.ReportMatch? || e.ReportNoMatch? || e.ReportRetry?
  }

  predicate IsCompletion(e: Event) {
    e.Complete?
  }

  predicate IsSuccess(e: Event) {
    e == Complete(false)
  }

  lemma CountOne(a: Event, p: Event -> bool)
    ensures Count([a], p) == if p(a) then 1 else 0
  {
    assert [a][..0] == [];
  }

  lemma CountThree(a: Event, b: Event, c: Event, p: Event -> bool)
    ensures Count([a, b, c], p) == (if p(a) then 1 else 0) + (if p(b) then 1 else 0) + (if p(c) then 1 else 0)
  {
    assert [a, b, c][..2] == [a, b] && [a, b][..1] == [a];
    CountOne(a, p);
  }

  // ---- the device -------------------------------------------------------------------------------

  datatype Action = Match(n: nat, env: nat -> Attempt) | Identify(n: nat, env: nat -> Attempt) | EnrollDone

  class Matcher {
    var skipNextIdentify: bool
    var events: seq<Event>

    constructor ()
      ensures !skipNextIdentify && events == []
    {
      skipNextIdentify, events := false, [];
    }

    /** Keeps the earliest entry with the greatest positive score. */
    static method IdentifyBest(scores: nat -> Scored, n: nat) returns (leader: Leader)
      ensures leader == Scan(scores, n)
    {
      leader := Nobody;
      var bestScore := -0x8000_0000;
      for i := 0 to n
        invariant leader == Scan(scores, i) && !leader.Aborted?
        invariant if leader.Lead? then leader.result.score == bestScore else bestScore <= 0
      {
        var scored := scores(i);
        if scored.ScoreError? {
          ScanStaysAborted(scores, i + 1, n);
          return Aborted(scored.transient);
        }
        var score := scored.result.score;
        if score > 0 && score > bestScore {
          bestScore := score;
          leader := Lead(i, scored.result);
        }
      }
    }

    /** Reports unless that was done before, then completes; a non-match is held on screen first. */
    method MatchComplete(reportResult: bool, matched: Option<nat>, failed: bool)
      modifies this`events
      ensures events == old(events)
                        + (if failed || !reportResult then []
                           else if matched.Some? then [ReportMatch(matched.value)] else [ReportNoMatch])
                        + (if !failed && matched.None? then [Hold] else [])
                        + [Complete(failed)]
    {
      if !failed && reportResult {
        events := events + [if matched.Some? then ReportMatch(matched.value) else ReportNoMatch];
      }
      if !failed && matched.None? {
        events := events + [Hold];
      }
      events := events + [Complete(failed)];
    }

    /** The capture loop: what it decides, and whether it reported a non-match itself. */
    method Captures(n: nat, env: nat -> Attempt)
      returns (error: Option<bool>, leader: Leader, reported: bool, sawProbe: bool, rejected: bool)
      modifies this`events
      ensures !leader.Aborted?
      ensures error.Some? ==>
                !reported && leader.Nobody? && events == old(events) && Verdicts(n, env) == Failed(error.value)
      ensures error.None? && reported ==>
                if leader.Lead? then events == old(events) && Verdicts(n, env) == Matched(leader.entry, leader.result)
                else events == old(events) + [ReportNoMatch] && Verdicts(n, env) == NoMatch
      ensures error.None? && !reported ==>
                leader.Nobody? && events == old(events) && Verdicts(n, env) == Undecided(sawProbe, rejected)
    {
      leader, reported, sawProbe, rejected := Nobody, false, false, false;
      for attempt := 1 to ATTEMPTS + 1
        invariant events == old(events) && !reported && leader == Nobody
        invariant attempt <= ATTEMPTS
        invariant Decide(n, env, attempt, sawProbe, rejected) == Verdicts(n, env)
      {
        var e := env(attempt);
        if e.capture.CaptureError? {
          return Some(e.capture.transient), leader, false, sawProbe, rejected;
        }
        if e.capture.FingerGone? {
          return None, leader, false, sawProbe, rejected;
        }
        if e.preparation.PrepareError? {
          return Some(e.preparation.transient), leader, false, sawProbe, rejected;
        }
        if e.preparation.Rejected? {
          rejected := e.preparation.named;
          if attempt < ATTEMPTS {
            continue;
          }
          return None, leader, false, sawProbe, rejected;
        }
        sawProbe, rejected := true, false;
        var best := IdentifyBest(e.scores, n);
        if best.Aborted? {
          return Some(best.transient), Nobody, false, sawProbe, rejected;
        }
        if best.Lead? || attempt == ATTEMPTS {
          if best.Nobody? {
            events := events + [ReportNoMatch];
          }
          return None, best, true, sawProbe, rejected;
        }
      }
      assert false;
    }

    /** One verify (a gallery of one entry) or identify. */
    method VerifyOrIdentify(n: nat, env: nat -> Attempt)
      modifies this`events
      ensures events == old(events) + Visible(Verdicts(n, env))
    {
      var error, leader, reported, sawProbe, rejected := Captures(n, env);
      var reportSent := reported && leader.Nobody?;
      if error.None? {
        if reported && leader.Lead? {
          events := events + [Study(leader.entry, leader.result)];
        }
        if !reported {
          events := events + [if !sawProbe && rejected then ReportRetry else ReportNoMatch];
          reported, reportSent := true, true;
        }
      } else if error.value {
        // a transient failure is reported as a non-match and its error dropped
        events := events + [ReportNoMatch];
        reported, reportSent := true, true;
        error := None;
      }
      MatchComplete(reported && !reportSent, if leader.Lead? then Some(leader.entry) else None, error.Some?);
    }

    /** The duplicate check after an enrollment is answered without a capture. */
    method IdentifySync(n: nat, env: nat -> Attempt)
      modifies this
      ensures !skipNextIdentify
      ensures events == old(events) + Visible(if old(skipNextIdentify) then NoMatch else Verdicts(n, env))
    {
      if skipNextIdentify {
        skipNextIdentify := false;
        MatchComplete(true, None, false);
        return;
      }
      VerifyOrIdentify(n, env);
    }

    method Run(action: Action)
      modifies this
      ensures (skipNextIdentify, events) == Step(old(skipNextIdentify), old(events), action)
    {
      match action {
        case Match(n, env) => VerifyOrIdentify(n, env);
        case Identify(n, env) => IdentifySync(n, env);
        case EnrollDone => skipNextIdentify := true;
      }
    }
  }

  function Step(skip: bool, events: seq<Event>, action: Action): (bool, seq<Event>) {
    match action
    case Match(n, env) => (skip, events + Visible(Verdicts(n, env)))
    case Identify(n, env) => (false, events + Visible(if skip then NoMatch else Verdicts(n, env)))
    case EnrollDone => (true, events)
  }

  function RunAll(actions: seq<Action>): (bool, seq<Event>) {
    if actions == [] then (false, [])
    else
      var (skip, events) := RunAll(actions[..|actions| - 1]);
      Step(skip, events, actions[|actions| - 1])
  }

  function Matches(actions: seq<Action>): nat {
    if actions == [] then 0
    else Matches(actions[..|actions| - 1]) + if actions[|actions| - 1].EnrollDone? then 0 else 1
  }

  /** What an action adds: nothing for an enrollment, a plain non-match for a skipped identify, else its attempts. */
  ghost predicate ActionShows(skip: bool, action: Action, after: bool, added: seq<Event>) {
    match action
    case EnrollDone => added == [] && after
    case Match(n, env) => Shows(added, n, env) && after == skip
    case Identify(n, env) =>
      !after && if skip then added == [ReportNoMatch, Hold, Complete(false)] else Shows(added, n, env)
  }

  /** For every run of actions, one more action adds exactly what it must show. */
  lemma EveryActionShows(actions: seq<Action>, action: Action)
    ensures var (skip, events) := RunAll(actions);
            var (after, all) := RunAll(actions + [action]);
            events <= all && ActionShows(skip, action, after, all[|events|..])
  {
    assert (actions + [action])[..|actions|] == actions;
    var (skip, events) := RunAll(actions);
    if !action.EnrollDone? {
      var v := if action.Identify? && skip then NoMatch else Verdicts(action.n, action.env);
      ShownExactly(action.n, action.env);
      assert (events + Visible(v))[|events|..] == Visible(v);
    } else {
      assert events[|events|..] == [];
    }
  }

  lemma VisibleCounts(v: Verdict)
    ensures Count(Visible(v), IsCompletion) == 1
    ensures Count(Visible(v), IsReport) == Count(Visible(v), IsSuccess) <= 1
  {
    var w := Visible(v);
    CountOne(w[0], IsCompletion);
    CountOne(w[0], IsReport);
    CountOne(w[0], IsSuccess);
    if |w| == 3 {
      CountThree(w[0], w[1], w[2], IsCompletion);
      CountThree(w[0], w[1], w[2], IsReport);
      CountThree(w[0], w[1], w[2], IsSuccess);
    }
  }

  /** The report at this place is followed by its completion, with at most the no-match hold in between. */
  predicate CompletedNext(events: seq<Event>, i: nat) {
    || (i + 1 < |events| && events[i + 1] == Complete(false))
    || (i + 2 < |events| && events[i + 1] == Hold && events[i + 2] == Complete(false))
  }

  ghost predicate EachReportCompletes(events: seq<Event>) {
    forall i: nat | i < |events| && IsReport(events[i]) :: CompletedNext(events, i)
  }

  /**
    For every run of actions: each verify or identify completes exactly once, and there are exactly as many reports
    as completions without error, each report directly before the completion of its action.
   */
  lemma {:induction false} OneReportPerSuccess(actions: seq<Action>)
    ensures var events := RunAll(actions).1;
            && Count(events, IsCompletion) == Matches(actions)
            && Count(events, IsReport) == Count(events, IsSuccess)
            && EachReportCompletes(events)
  {
    if actions != [] {
      var before, action := actions[..|actions| - 1], actions[|actions| - 1];
      OneReportPerSuccess(before);
      var (skip, events) := RunAll(before);
      if !action.EnrollDone? {
        var v := if action.Identify? && skip then NoMatch else Verdicts(action.n, action.env);
        VisibleCounts(v);
        CountAppend(events, Visible(v), IsCompletion);
        CountAppend(events, Visible(v), IsReport);
        CountAppend(events, Visible(v), IsSuccess);
        ReportsAppend(events, v);
      }
    }
  }

  lemma ReportsAppend(events: seq<Event>, v: Verdict)
    requires EachReportCompletes(events)
    ensures EachReportCompletes(events + Visible(v))
  {
    var all, n, w := events + Visible(v), |events|, Visible(v);
    forall i: nat | i < |all| && IsReport(all[i]) ensures CompletedNext(all, i) {
      if i < n {
        assert IsReport(events[i]) && CompletedNext(events, i);
      } else {
        assert all[i] == w[i - n] && (i + 1 < |all| ==> all[i + 1] == w[i + 1 - n]);
        assert i + 2 < |all| ==> all[i + 2] == w[i + 2 - n];
      }
    }
  }
}
