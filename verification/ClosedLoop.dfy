/**
 The command in a closed loop with the TV, whose power key is a toggle. A run
 interleaves what the client logs with what the TV does on its own.
 */
module ClosedLoop {
  import opened Wrappers
  import opened Handshake
  import opened Network
  import opened Session
  import opened Discipline
  import opened Reporting

  /** A written key is in flight until it lands (toggling the TV) or is lost. */
  datatype Step =
    | Client(e: Event)
    | KeyLands
    | KeyLost
    | Drift

  /** The steps so far, the latest outermost. */
  datatype Loop = Begin | Then(past: Loop, step: Step)

  datatype Tv = Tv(on: bool, inFlight: nat)

  /** What the client sees of a run. */
  function Logged(r: Loop): Log {
    match r
    case Begin => Silence
    case Then(past, Client(e)) => After(Logged(past), e)
    case Then(past, _) => Logged(past)
  }

  function TvStep(t: Tv, step: Step): Tv {
    match step
    case Client(e) => if e == Sent(POWER_KEY) then t.(inFlight := t.inFlight + 1) else t
    case KeyLands => Tv(!t.on, if t.inFlight > 0 then t.inFlight - 1 else 0)
    case KeyLost => t.(inFlight := if t.inFlight > 0 then t.inFlight - 1 else 0)
    case Drift => t.(on := !t.on)
  }

  function TvAfter(r: Loop, on: bool): Tv {
    match r
    case Begin => Tv(on, 0)
    case Then(past, step) => TvStep(TvAfter(past, on), step)
  }

  /** `m` is the session's first power report. */
  predicate FirstReport(v: View, m: RemoteMessage) { IsStart(m) && v.report.None? }

  /**
   The TV assumed: a connection's first report is its true state; a key has settled by
   then; and it changes by itself only before it has reported or once the key has settled.
   */
  predicate TvMay(t: Tv, v: View, step: Step) {
    match step
    case Client(Got(m)) => FirstReport(v, m) ==> m.start == Some(t.on) && t.inFlight == 0
    case Client(_) => true
    case KeyLands => t.inFlight > 0
    case KeyLost => t.inFlight > 0
    case Drift => t.inFlight == 0 && (v.report.Some? ==> v.keyed)
  }

  predicate Plays(r: Loop, on: bool) {
    r.Then? ==> Plays(r.past, on) && TvMay(TvAfter(r.past, on), Watch(Logged(r.past)), r.step)
  }

  /** No key is written to, and none lands on, a TV that is already as wanted. */
  predicate NeverUndone(r: Loop, on: bool, wantOn: bool) {
    r.Then? ==>
      && NeverUndone(r.past, on, wantOn)
      && (r.step == KeyLands || r.step == Client(Sent(POWER_KEY)) ==> TvAfter(r.past, on).on != wantOn)
  }

  /**
   The TV and the observer: at most one key is in flight, and only while the TV is not as
   wanted; and while a report can still be acted on it is the TV's true and settled state.
   */
  predicate Consistent(t: Tv, v: View, wantOn: bool) {
    && t.inFlight <= 1
    && (t.inFlight == 1 ==> t.on != wantOn)
    && (v.report.Some? && !v.keyed ==> v.report == Some(t.on) && t.inFlight == 0)
  }

  /** What the observer knows after a step: only the client's events are seen. */
  function Viewed(v: View, step: Step): View {
    match step
    case Client(e) => See(v, e)
    case _ => v
  }

  predicate ClientMay(v: View, step: Step, wantOn: bool) { step.Client? ==> MayHappen(v, step.e, wantOn) }

  /** The step is harmless: it neither writes nor lands a key on a TV that is already as wanted. */
  predicate Harmless(t: Tv, step: Step, wantOn: bool) {
    step == KeyLands || step == Client(Sent(POWER_KEY)) ==> t.on != wantOn
  }

  lemma StepIsConsistent(t: Tv, v: View, step: Step, wantOn: bool)
    requires Consistent(t, v, wantOn) && TvMay(t, v, step) && ClientMay(v, step, wantOn)
    ensures Consistent(TvStep(t, step), Viewed(v, step), wantOn) && Harmless(t, step, wantOn)
  {
    hide Owed, Masked;
  }

  lemma OneStep(r: Loop, on: bool, wantOn: bool)
    requires r.Then? && Legal(Logged(r), wantOn) && Plays(r, on)
    ensures var t, v := TvAfter(r.past, on), Watch(Logged(r.past));
            && Legal(Logged(r.past), wantOn) && Plays(r.past, on)
            && TvMay(t, v, r.step) && ClientMay(v, r.step, wantOn)
            && TvAfter(r, on) == TvStep(t, r.step) && Watch(Logged(r)) == Viewed(v, r.step)
            && (NeverUndone(r, on, wantOn) <==> NeverUndone(r.past, on, wantOn) && Harmless(t, r.step, wantOn))
  {
    hide See, MayHappen, TvMay, TvStep;
  }

  /** A log that keeps the rules stays consistent with every such TV, and no key is wrong. */
  lemma {:induction false} LoopInvariant(r: Loop, on: bool, wantOn: bool)
    requires Legal(Logged(r), wantOn) && Plays(r, on)
    ensures NeverUndone(r, on, wantOn) && Consistent(TvAfter(r, on), Watch(Logged(r)), wantOn)
  {
    hide Consistent, ClientMay, Viewed, TvMay, TvStep, Harmless, Legal, Plays, NeverUndone, Watch, Logged, TvAfter;
    if r.Then? {
      OneStep(r, on, wantOn);
      LoopInvariant(r.past, on, wantOn);
      StepIsConsistent(TvAfter(r.past, on), Watch(Logged(r.past)), r.step, wantOn);
    } else {
      BeginsConsistent(on, wantOn);
    }
  }

  lemma BeginsConsistent(on: bool, wantOn: bool)
    ensures Consistent(TvAfter(Begin, on), Watch(Logged(Begin)), wantOn) && NeverUndone(Begin, on, wantOn)
  {
  }

  lemma {:induction false} PastIsLegal(t: Log, u: Log, wantOn: bool)
    requires PastOf(t, u) && Legal(u, wantOn)
    ensures Legal(t, wantOn)
  {
    if t != u {
      PastIsLegal(t, u.past, wantOn);
    }
  }

  /**
   Toggle safety: against every such TV and on every script of chatter, timeouts,
   closes and failures, no run of the command, stopped at any moment, turns the TV away
   from the wanted state.
   */
  lemma ToggleSafety(n: Net, wantOn: bool, mac: Option<seq<int>>, r: Loop, on: bool)
    requires n.log == Silence && Plays(r, on)
    requires PastOf(Logged(r), PowerSetWithWake(n, wantOn, mac).net.log)
    ensures NeverUndone(r, on, wantOn)
  {
    hide PowerSetWithWake, Legal, Plays, NeverUndone, PastOf;
    CommandObeys(n, wantOn, mac);
    PastIsLegal(Logged(r), PowerSetWithWake(n, wantOn, mac).net.log, wantOn);
    LoopInvariant(r, on, wantOn);
  }

  // ---------------------------------------------- a TV that applies keys late

  /** As `TvMay`, but a key may still be in flight when the next session reports. */
  predicate LateTvMay(t: Tv, v: View, step: Step) {
    match step
    case Client(Got(m)) => FirstReport(v, m) ==> m.start == Some(t.on)
    case _ => TvMay(t, v, step)
  }

  predicate PlaysLate(r: Loop, on: bool) {
    r.Then? ==> PlaysLate(r.past, on) && LateTvMay(TvAfter(r.past, on), Watch(Logged(r.past)), r.step)
  }

  lemma {:induction false} PlaysIsLate(r: Loop, on: bool)
    requires Plays(r, on)
    ensures PlaysLate(r, on)
  {
    if r.Then? {
      PlaysIsLate(r.past, on);
    }
  }

  /** The TV never changes by itself. */
  predicate Still(r: Loop) { r.Then? ==> Still(r.past) && r.step != Drift }

  function Landed(r: Loop): nat {
    match r
    case Begin => 0
    case Then(past, step) => Landed(past) + if step == KeyLands then 1 else 0
  }

  function Lost(r: Loop): nat {
    match r
    case Begin => 0
    case Then(past, step) => Lost(past) + if step == KeyLost then 1 else 0
  }

  /** Every key written is in flight, has landed or was lost, late keys too. */
  lemma {:induction false} KeysConserved(r: Loop, on: bool)
    requires PlaysLate(r, on)
    ensures Keys(Logged(r)) == Landed(r) + Lost(r) + TvAfter(r, on).inFlight
  {
    hide Watch, FirstReport;
    if r.Then? {
      KeysConserved(r.past, on);
    }
  }

  /** A session that reports off, takes the key and then closes. */
  const SILENT_SESSION := Accepted([Reception(Success(OFF_REPORT), 0)], [], 0)

  lemma SilentSession(n: Net)
    requires n.dials != [] && n.dials[0] == SILENT_SESSION
    ensures var p := Press(n, true);
            && p.attempt == Success(PowerAttempt(true, true, None))
            && p.net.dials == n.dials[1..]
            && p.net.log == SilentLog(n.log)
  {
    var d := n.Dial();
    assert d.NextRead() == Reception(Success(OFF_REPORT), 0);
    assert Answer(FRESH, OFF_REPORT) == Success(None);
    assert Pump(d, FRESH, false) == Pump(d.Receive(), Next(FRESH, OFF_REPORT), true);
    var p := PowerRead(n);
    assert p.power == Success(false) && p.net == d.Receive();
    var k := KeyWritten(p);
    assert k.NextRead() == Reception(Failure(Eof), 0);
  }

  /** Two silent sessions, then nobody answers: the command presses twice and reports on. */
  lemma TwoSilentSessions() returns (n: Net)
    ensures n.log == Silence
    ensures PowerSet(n, true).output == Success(PowerOutput(true, true, None))
    ensures PowerSet(n, true).net.log == After(BackOff(SilentLog(BackOff(SilentLog(Silence)))), DialFailed(Unreachable))
  {
    hide Press, Pump, Await;
    n := Net(0, [SILENT_SESSION, SILENT_SESSION], [], [], [], [], Silence);
    SilentSession(n);
    var p1 := Press(n, true);
    var n1 := p1.net.Sleep(POWER_ON_RETRY_BACKOFF);
    SilentSession(n1);
    var p2 := Press(n1, true);
    var n2 := p2.net.Sleep(POWER_ON_RETRY_BACKOFF);
    NobodyAnswers(n2);
    var p3 := Press(n2, true);
    assert Retry(p2.net, true, p2.attempt.value, true, 2) == Powered(p3.net, Success(PowerOutput(true, true, None)));
    assert PowerSet(n, true) == Retry(p1.net, true, p1.attempt.value, true, 1);
  }

  function SilentLog(t: Log): Log {
    After(After(After(After(After(t, Dialed), Got(OFF_REPORT)), Slept(1000)), Sent(POWER_KEY)), RecvFailed)
  }

  function BackOff(t: Log): Log { After(t, Slept(2000)) }

  lemma NobodyAnswers(n: Net)
    requires n.dials == []
    ensures Press(n, true).attempt == Failure(Unreachable)
    ensures Press(n, true).net.log == After(n.log, DialFailed(Unreachable))
  {
  }

  function SilentSteps(r: Loop): Loop {
    Then(Then(Then(Then(Then(r, Client(Dialed)), Client(Got(OFF_REPORT))), Client(Slept(1000))),
              Client(Sent(POWER_KEY))), Client(RecvFailed))
  }

  /** One silent session against a TV that is off and still has `k` keys in flight. */
  lemma SilentStepsPlayLate(r: Loop, on: bool, k: nat)
    requires PlaysLate(r, on) && TvAfter(r, on) == Tv(false, k)
    ensures var s := SilentSteps(r);
            && PlaysLate(s, on) && TvAfter(s, on) == Tv(false, k + 1) && Logged(s) == SilentLog(Logged(r))
            && (k > 0 ==> !Plays(s, on)) && (Still(r) ==> Still(s))
  {
    hide PlaysLate, Plays, TvAfter, Logged, Watch, Still;
    var s1 := Then(r, Client(Dialed));
    var s2 := Then(s1, Client(Got(OFF_REPORT)));
    var s3 := Then(s2, Client(Slept(1000)));
    var s4 := Then(s3, Client(Sent(POWER_KEY)));
    LateStep(r, on, Client(Dialed));
    JustDialed(Logged(r));
    LateStep(s1, on, Client(Got(OFF_REPORT)));
    LateStep(s2, on, Client(Slept(1000)));
    LateStep(s3, on, Client(Sent(POWER_KEY)));
    LateStep(s4, on, Client(RecvFailed));
  }

  lemma JustDialed(t: Log)
    ensures Watch(After(t, Dialed)).report.None? && IsStart(OFF_REPORT)
  {
  }

  lemma LateStep(r: Loop, on: bool, step: Step)
    requires PlaysLate(r, on) && LateTvMay(TvAfter(r, on), Watch(Logged(r)), step)
    ensures var s := Then(r, step);
            && PlaysLate(s, on) && TvAfter(s, on) == TvStep(TvAfter(r, on), step)
            && Logged(s) == (if step.Client? then After(Logged(r), step.e) else Logged(r))
            && (Plays(s, on) <==> Plays(r, on) && TvMay(TvAfter(r, on), Watch(Logged(r)), step))
            && (Still(s) <==> Still(r) && step != Drift)
  {
  }

  lemma Nothing(on: bool)
    ensures PlaysLate(Begin, on) && TvAfter(Begin, on) == Tv(on, 0) && Logged(Begin) == Silence && Still(Begin)
    ensures Watch(Silence).report.None?
  {
  }

  /** The TV is off before the command begins, by itself if it was on. */
  lemma OffAtFirst(on: bool) returns (r: Loop)
    ensures PlaysLate(r, on) && TvAfter(r, on) == Tv(false, 0) && Logged(r) == Silence && (!on ==> Still(r))
  {
    hide Watch, PlaysLate, Plays, TvAfter, Logged, Still;
    Nothing(on);
    r := Begin;
    if on {
      LateStep(Begin, on, Drift);
      r := Then(Begin, Drift);
    }
  }

  /**
   The assumption is needed: two sessions report off while the first key is still in flight,
   both keys land, and the command reports on while it has turned the TV off. The TV need not
   drift for it if it begins off.
   */
  lemma LateKeyUndoes(on: bool) returns (n: Net, r: Loop)
    ensures n.log == Silence && Logged(r) == PowerSet(n, true).net.log
    ensures PlaysLate(r, on) && !Plays(r, on) && (!on ==> Still(r))
    ensures !NeverUndone(r, on, true) && !TvAfter(r, on).on
    ensures PowerSet(n, true).output == Success(PowerOutput(true, true, None))
  {
    hide PowerSet, PlaysLate, Plays, TvAfter, NeverUndone, SilentSteps, SilentLog, Logged, Watch, Still;
    n := TwoSilentSessions();
    var begin := OffAtFirst(on);
    var first := SilentSteps(begin);
    SilentStepsPlayLate(begin, on, 0);
    LateStep(first, on, Client(Slept(2000)));
    var rested := Then(first, Client(Slept(2000)));
    var second := SilentSteps(rested);
    SilentStepsPlayLate(rested, on, 1);
    LateStep(second, on, Client(Slept(2000)));
    r := TwoKeysLand(Then(second, Client(Slept(2000))), on);
  }

  lemma TwoKeysLand(r: Loop, on: bool) returns (s: Loop)
    requires PlaysLate(r, on) && !Plays(r, on) && TvAfter(r, on) == Tv(false, 2)
    ensures PlaysLate(s, on) && !Plays(s, on) && (Still(r) ==> Still(s))
    ensures !NeverUndone(s, on, true) && TvAfter(s, on) == Tv(false, 0)
    ensures Logged(s) == After(Logged(r), DialFailed(Unreachable))
  {
    var once := Then(r, KeyLands);
    var twice := Then(once, KeyLands);
    assert TvAfter(once, on) == Tv(true, 1) && PlaysLate(once, on) && !Plays(once, on);
    assert TvAfter(twice, on) == Tv(false, 0) && PlaysLate(twice, on) && !Plays(twice, on);
    assert !NeverUndone(twice, on, true);
    s := Then(twice, Client(DialFailed(Unreachable)));
  }

  // ------------------------------------------- exactly when late keys are safe

  /**
   The late TV and the observer while at most one key has been written: before it nothing is in
   flight and a report still to be acted on is true; it is in flight only while the TV is not as
   wanted.
   */
  predicate LateConsistent(t: Tv, v: View, keys: nat, wantOn: bool) {
    && t.inFlight <= keys
    && (t.inFlight > 0 ==> t.on != wantOn)
    && (keys == 0 && v.report.Some? && !v.keyed ==> v.report == Some(t.on))
  }

  function Written(step: Step): nat { if step == Client(Sent(POWER_KEY)) then 1 else 0 }

  lemma LateStepIsConsistent(t: Tv, v: View, keys: nat, step: Step, wantOn: bool)
    requires LateConsistent(t, v, keys, wantOn) && LateTvMay(t, v, step) && ClientMay(v, step, wantOn)
    requires keys + Written(step) <= 1
    ensures LateConsistent(TvStep(t, step), Viewed(v, step), keys + Written(step), wantOn) && Harmless(t, step, wantOn)
  {
    hide Owed, Masked;
  }

  lemma OneLateStep(r: Loop, on: bool, wantOn: bool)
    requires r.Then? && Legal(Logged(r), wantOn) && PlaysLate(r, on)
    ensures var t, v := TvAfter(r.past, on), Watch(Logged(r.past));
            && Legal(Logged(r.past), wantOn) && PlaysLate(r.past, on)
            && LateTvMay(t, v, r.step) && ClientMay(v, r.step, wantOn)
            && TvAfter(r, on) == TvStep(t, r.step) && Watch(Logged(r)) == Viewed(v, r.step)
            && Keys(Logged(r)) == Keys(Logged(r.past)) + Written(r.step)
            && (NeverUndone(r, on, wantOn) <==> NeverUndone(r.past, on, wantOn) && Harmless(t, r.step, wantOn))
  {
    hide See, MayHappen, LateTvMay, TvStep;
  }

  /** A log that keeps the rules and writes at most one key is safe with every late TV, drifting ones too. */
  lemma {:induction false} OneKeyIsSafe(r: Loop, on: bool, wantOn: bool)
    requires Legal(Logged(r), wantOn) && PlaysLate(r, on) && Keys(Logged(r)) <= 1
    ensures NeverUndone(r, on, wantOn)
    ensures LateConsistent(TvAfter(r, on), Watch(Logged(r)), Keys(Logged(r)), wantOn)
  {
    hide LateConsistent, ClientMay, Viewed, LateTvMay, TvStep, Harmless, Legal, PlaysLate, NeverUndone, Watch, Logged,
      TvAfter, Keys;
    if r.Then? {
      OneLateStep(r, on, wantOn);
      OneKeyIsSafe(r.past, on, wantOn);
      LateStepIsConsistent(TvAfter(r.past, on), Watch(Logged(r.past)), Keys(Logged(r.past)), r.step, wantOn);
    } else {
      BeginsLateConsistent(on, wantOn);
    }
  }

  lemma BeginsLateConsistent(on: bool, wantOn: bool)
    ensures LateConsistent(TvAfter(Begin, on), Watch(Logged(Begin)), Keys(Logged(Begin)), wantOn)
    ensures NeverUndone(Begin, on, wantOn) && TvAfter(Begin, on) == Tv(on, 0) && Keys(Logged(Begin)) == 0
  {
  }

  /** A late TV that begins as wanted and does not drift gets no key at all. */
  lemma {:induction false} NoKeyWhenAsWanted(r: Loop, on: bool)
    requires Legal(Logged(r), on) && PlaysLate(r, on) && Still(r)
    ensures Keys(Logged(r)) == 0 && TvAfter(r, on) == Tv(on, 0)
  {
    hide LateConsistent, ClientMay, Viewed, Legal, PlaysLate, NeverUndone, Watch, Logged, TvAfter, Keys;
    BeginsLateConsistent(on, on);
    if r.Then? {
      OneLateStep(r, on, on);
      NoKeyWhenAsWanted(r.past, on);
      OneKeyIsSafe(r.past, on, on);
      LateStepIsConsistent(TvAfter(r.past, on), Watch(Logged(r.past)), 0, r.step, on);
    }
  }

  lemma {:induction false} KeysGrow(t: Log, u: Log)
    requires PastOf(t, u)
    ensures Keys(t) <= Keys(u)
  {
    if t != u {
      KeysGrow(t, u.past);
    }
  }

  /**
   `off` never undoes what is wanted, nor does `on` of a TV that begins on and does not drift,
   however late keys are applied: `off` because it writes at most one key, `on` because it writes none.
   */
  lemma LateSafety(n: Net, wantOn: bool, mac: Option<seq<int>>, r: Loop, on: bool)
    requires n.log == Silence && PlaysLate(r, on)
    requires PastOf(Logged(r), PowerSetWithWake(n, wantOn, mac).net.log)
    requires !wantOn || (on && Still(r))
    ensures NeverUndone(r, on, wantOn) && Keys(Logged(r)) <= 1
  {
    hide PowerSetWithWake, Legal, PlaysLate, NeverUndone, PastOf, Still, Keys, Logged;
    CommandObeys(n, wantOn, mac);
    PastIsLegal(Logged(r), PowerSetWithWake(n, wantOn, mac).net.log, wantOn);
    KeysGrow(Logged(r), PowerSetWithWake(n, wantOn, mac).net.log);
    if wantOn {
      NoKeyWhenAsWanted(r, on);
    }
    OneKeyIsSafe(r, on, wantOn);
  }

  /**
   No run of the command, stopped at any moment, turns a TV away from the wanted state that
   begins as `on` and may apply keys late; if `still`, the TV does not drift.
   */
  ghost predicate LateSafe(wantOn: bool, on: bool, still: bool) {
    forall n: Net, mac, r: Loop ::
      n.log == Silence && PlaysLate(r, on) && (still ==> Still(r))
      && PastOf(Logged(r), PowerSetWithWake(n, wantOn, mac).net.log)
      ==> NeverUndone(r, on, wantOn)
  }

  /** Exactly when the command is safe with late keys: `off` always is, `on` only if the TV begins on and stays so by itself. */
  lemma LateSafeExactly(wantOn: bool, on: bool, still: bool)
    ensures LateSafe(wantOn, on, still) <==> !wantOn || (on && still)
  {
    hide PowerSetWithWake, PlaysLate, NeverUndone, PastOf, Still, Logged;
    if !wantOn || (on && still) {
      forall n: Net, mac, r: Loop
        | n.log == Silence && PlaysLate(r, on) && (still ==> Still(r))
          && PastOf(Logged(r), PowerSetWithWake(n, wantOn, mac).net.log)
        ensures NeverUndone(r, on, wantOn)
      {
        LateSafety(n, wantOn, mac, r, on);
      }
    } else {
      var n, r := LateKeyUndoes(on);
      WithoutAddress(n);
      assert PastOf(Logged(r), PowerSetWithWake(n, true, None).net.log);
    }
  }

  lemma WithoutAddress(n: Net)
    ensures PowerSetWithWake(n, true, None) == PowerSet(n, true)
    ensures PastOf(PowerSet(n, true).net.log, PowerSet(n, true).net.log)
  {
    hide PowerSet;
  }

  // ------------------------------------------------------------- convergence

  /** Whenever the client reads "on", the TV is on. */
  predicate OnIsTrue(r: Loop, on: bool) {
    r.Then? ==>
      && OnIsTrue(r.past, on)
      && (r.step.Client? && ReadsOn(r.step.e) ==> TvAfter(r.past, on).on)
  }

  /** Steps that concern a TV that is on and settled leave it so. */
  lemma OnStep(t: Tv, v: View, step: Step)
    requires Consistent(t, v, true) && TvMay(t, v, step) && Harmless(t, step, true) && step != Drift
    ensures t == Tv(true, 0) ==> TvStep(t, step) == t
    ensures step == KeyLands ==> TvStep(t, step) == Tv(true, 0)
    ensures t.on ==> t == Tv(true, 0)
    ensures step.Client? && ReadsOn(step.e) ==> TvStep(t, step) == t
  {
  }

  lemma OneStepCounted(r: Loop, on: bool)
    requires r.Then?
    ensures Landed(r) == Landed(r.past) + if r.step == KeyLands then 1 else 0
    ensures Keys(Logged(r)) == Keys(Logged(r.past)) + if r.step == Client(Sent(POWER_KEY)) then 1 else 0
    ensures EverReadOn(Logged(r)) <==> EverReadOn(Logged(r.past)) || (r.step.Client? && ReadsOn(r.step.e))
    ensures Still(r) <==> Still(r.past) && r.step != Drift
    ensures OnIsTrue(r, on) <==>
              OnIsTrue(r.past, on) && (r.step.Client? && ReadsOn(r.step.e) ==> TvAfter(r.past, on).on)
  {
  }

  lemma BeginsCounted(on: bool)
    ensures Landed(Begin) == 0 && Keys(Logged(Begin)) == 0 && !EverReadOn(Logged(Begin))
    ensures TvAfter(Begin, on) == Tv(on, 0)
  {
  }

  /**
   Once on, a TV that does not drift stays on, and no further key is even written:
   a key that worked but was never confirmed is recognised by the next report.
   */
  lemma {:induction false} OnStaysOn(r: Loop, on: bool)
    requires Legal(Logged(r), true) && Plays(r, on) && Still(r) && OnIsTrue(r, on)
    ensures on || Landed(r) > 0 || EverReadOn(Logged(r)) ==> TvAfter(r, on) == Tv(true, 0)
    ensures Landed(r) <= 1 && (on ==> Landed(r) == 0 && Keys(Logged(r)) == 0)
  {
    hide Consistent, ClientMay, Viewed, TvMay, TvStep, Legal, Plays, NeverUndone, Watch, Logged, TvAfter,
      Landed, Keys, EverReadOn, Still, OnIsTrue, ReadsOn;
    BeginsCounted(on);
    if r.Then? {
      OneStep(r, on, true);
      OneStepCounted(r, on);
      LoopInvariant(r, on, true);
      LoopInvariant(r.past, on, true);
      OnStaysOn(r.past, on);
      OnStep(TvAfter(r.past, on), Watch(Logged(r.past)), r.step);
    }
  }

  // --------------------------------------- exactly when the TV ends as wanted

  /** No key lands on a TV that is as wanted. */
  predicate NeverTurnedAway(r: Loop, on: bool, wantOn: bool) {
    r.Then? ==> NeverTurnedAway(r.past, on, wantOn) && (r.step == KeyLands ==> TvAfter(r.past, on).on != wantOn)
  }

  /**
   Any TV that does not drift, late keys included: it ends as it began exactly when an even
   number of keys landed, and is never turned away exactly when at most the one key landed
   that its first state called for.
   */
  lemma {:induction false} LandedDecides(r: Loop, on: bool, wantOn: bool)
    requires Still(r)
    ensures TvAfter(r, on).on == on <==> Landed(r) % 2 == 0
    ensures NeverTurnedAway(r, on, wantOn) <==> Landed(r) <= (if on == wantOn then 0 else 1)
  {
    if r.Then? {
      LandedDecides(r.past, on, wantOn);
    }
  }

  lemma {:induction false} HarmlessNeverTurnsAway(r: Loop, on: bool, wantOn: bool)
    requires NeverUndone(r, on, wantOn)
    ensures NeverTurnedAway(r, on, wantOn)
  {
    if r.Then? {
      HarmlessNeverTurnsAway(r.past, on, wantOn);
    }
  }

  /** A log that keeps the rules: the TV ends as wanted exactly when it began so or a key was not lost. */
  lemma LegalEndsAsWanted(r: Loop, on: bool, wantOn: bool)
    requires Legal(Logged(r), wantOn) && Plays(r, on) && Still(r) && TvAfter(r, on).inFlight == 0
    ensures TvAfter(r, on).on == wantOn <==> on == wantOn || Lost(r) < Keys(Logged(r))
  {
    hide Legal, Plays, Still, NeverUndone, NeverTurnedAway, Keys, Landed, Lost, TvAfter, Logged, Watch;
    LoopInvariant(r, on, wantOn);
    HarmlessNeverTurnsAway(r, on, wantOn);
    LandedDecides(r, on, wantOn);
    PlaysIsLate(r, on);
    KeysConserved(r, on);
  }

  /**
   The whole command, on or off, with or without a wake-up, failing attempts and failed commands
   included: once its keys have settled, a TV that does not drift is as wanted exactly when it
   began so or not every key written was lost.
   */
  lemma EndsAsWanted(n: Net, wantOn: bool, mac: Option<seq<int>>, r: Loop, on: bool)
    requires n.log == Silence && Logged(r) == PowerSetWithWake(n, wantOn, mac).net.log
    requires Plays(r, on) && Still(r) && TvAfter(r, on).inFlight == 0
    ensures TvAfter(r, on).on == wantOn <==> on == wantOn || Lost(r) < Keys(Logged(r))
  {
    hide PowerSetWithWake, Legal, Plays, Still, Keys, Lost, TvAfter, Logged;
    CommandObeys(n, wantOn, mac);
    LegalEndsAsWanted(r, on, wantOn);
  }

  /**
   With late keys, for the whole command: the same condition decides for `off` and for a TV that
   begins as wanted; an `on` of a TV that is off ends on exactly when an odd number of keys is not lost.
   */
  lemma LateEndsAsWanted(n: Net, wantOn: bool, mac: Option<seq<int>>, r: Loop, on: bool)
    requires n.log == Silence && Logged(r) == PowerSetWithWake(n, wantOn, mac).net.log
    requires PlaysLate(r, on) && Still(r) && TvAfter(r, on).inFlight == 0
    ensures var kept := Keys(Logged(r)) - Lost(r);
            TvAfter(r, on).on == wantOn <==> on == wantOn || if wantOn then kept % 2 == 1 else kept > 0
  {
    hide PowerSetWithWake, Legal, PlaysLate, Still, Keys, Landed, Lost, TvAfter, Logged;
    CommandObeys(n, wantOn, mac);
    KeysConserved(r, on);
    LandedDecides(r, on, wantOn);
    if on == wantOn {
      NoKeyWhenAsWanted(r, on);
    }
  }

  /**
   Convergence of `on`, when no attempt fails and "on" is read only of a TV that is on: the TV
   ends on exactly when at most three keys are lost.
   */
  lemma Converges(n: Net, r: Loop, on: bool)
    requires n.log == Silence && Logged(r) == PowerSet(n, true).net.log
    requires NoneFails(Made(n, true, POWER_ON_ATTEMPTS))
    requires Plays(r, on) && Still(r) && OnIsTrue(r, on) && TvAfter(r, on).inFlight == 0
    ensures TvAfter(r, on).on <==> Lost(r) <= 3
  {
    hide Made, NoneFails, PowerSet, Legal, Plays, Still, OnIsTrue, Keys, Landed, Lost, TvAfter, EverReadOn, Logged, Watch;
    Beginning(n.log, true);
    PowerSetObeys(n, true);
    PlaysIsLate(r, on);
    KeysConserved(r, on);
    OnStaysOn(r, on);
    OnOrFourKeys(n);
    LegalEndsAsWanted(r, on, true);
  }

  /**
   When the report is the TV's state. It is whenever no key was written, even of a TV that
   drifted before it reported. Otherwise, for a TV that does not drift and whose keys have settled, the target is a
   true report exactly when the TV began as wanted or not every key was lost, and the opposite
   of the target exactly when it did not and every key was.
   */
  lemma ReportIsTheTvs(n: Net, wantOn: bool, mac: Option<seq<int>>, r: Loop, on: bool)
    requires n.log == Silence && Logged(r) == PowerSetWithWake(n, wantOn, mac).net.log
    requires Plays(r, on)
    requires PowerSetWithWake(n, wantOn, mac).output.Success?
    ensures var out := PowerSetWithWake(n, wantOn, mac).output.value;
            !out.changed ==> out.power == wantOn && TvAfter(r, on) == Tv(wantOn, 0)
    ensures var out := PowerSetWithWake(n, wantOn, mac).output.value;
            Still(r) && TvAfter(r, on).inFlight == 0 ==>
              var kept := on == wantOn || Lost(r) < Keys(Logged(r));
              (out.power == wantOn ==> (out.power == TvAfter(r, on).on <==> kept))
              && (out.power != wantOn ==> (out.power == TvAfter(r, on).on <==> !kept))
  {
    hide PowerSetWithWake, Legal, Plays, Still, Keys, Lost, TvAfter, Logged, Watch;
    CommandObeys(n, wantOn, mac);
    LoopInvariant(r, on, wantOn);
    if Still(r) && TvAfter(r, on).inFlight == 0 {
      EndsAsWanted(n, wantOn, mac, r, on);
    }
  }

  /** As `LateStep`, for the TV assumed. */
  lemma PlayStep(r: Loop, on: bool, step: Step)
    requires Plays(r, on) && TvMay(TvAfter(r, on), Watch(Logged(r)), step)
    ensures var s := Then(r, step);
            && Plays(s, on) && TvAfter(s, on) == TvStep(TvAfter(r, on), step)
            && Logged(s) == (if step.Client? then After(Logged(r), step.e) else Logged(r))
            && Lost(s) == Lost(r) + (if step == KeyLost then 1 else 0)
            && (step != Drift && Still(r) ==> Still(s))
            && (!(step.Client? && ReadsOn(step.e)) && OnIsTrue(r, on) ==> OnIsTrue(s, on))
  {
  }

  /** One silent session whose key is lost, and the back-off, against a TV that is off. */
  function LostSteps(r: Loop): Loop { Then(SilentSteps(r), KeyLost) }

  lemma LostSession(r: Loop)
    requires Plays(r, false) && Still(r) && OnIsTrue(r, false) && TvAfter(r, false) == Tv(false, 0)
    ensures var s := LostSteps(r);
            && Plays(s, false) && Still(s) && OnIsTrue(s, false) && TvAfter(s, false) == Tv(false, 0)
            && Lost(s) == Lost(r) + 1 && Logged(s) == SilentLog(Logged(r))
  {
    hide Plays, TvAfter, Logged, Watch, Lost, Still, OnIsTrue;
    var s1 := Then(r, Client(Dialed));
    var s2 := Then(s1, Client(Got(OFF_REPORT)));
    var s3 := Then(s2, Client(Slept(1000)));
    var s4 := Then(s3, Client(Sent(POWER_KEY)));
    var s5 := Then(s4, Client(RecvFailed));
    PlayStep(r, false, Client(Dialed));
    JustDialed(Logged(r));
    PlayStep(s1, false, Client(Got(OFF_REPORT)));
    PlayStep(s2, false, Client(Slept(1000)));
    PlayStep(s3, false, Client(Sent(POWER_KEY)));
    PlayStep(s4, false, Client(RecvFailed));
    PlayStep(s5, false, KeyLost);
  }

  /** The other side of `Converges` happens: four lost keys, no attempt fails, and the TV stays off while on is reported. */
  lemma FourLostKeys() returns (n: Net, r: Loop)
    ensures n.log == Silence && Logged(r) == PowerSet(n, true).net.log
    ensures NoneFails(Made(n, true, POWER_ON_ATTEMPTS))
    ensures Plays(r, false) && Still(r) && OnIsTrue(r, false) && Lost(r) == 4
    ensures TvAfter(r, false) == Tv(false, 0)
    ensures PowerSet(n, true).output == Success(PowerOutput(true, true, None))
  {
    hide Press, LostSteps, SilentLog, Plays, Still, OnIsTrue, TvAfter, Lost, Logged, Watch, Made, PowerSet;
    n := Net(0, seq(4, _ => SILENT_SESSION), [], [], [], [], Silence);
    AllSilent(n, 4);
    SilentPowerSet(n);
    NothingYet();
    r := Begin;
    LostSession(r);
    r := LostSteps(r);
    for i := 1 to 4
      invariant Plays(r, false) && Still(r) && OnIsTrue(r, false) && TvAfter(r, false) == Tv(false, 0)
      invariant Lost(r) == i && Logged(r) == SilentRun(Silence, i)
    {
      PlayStep(r, false, Client(Slept(2000)));
      r := Then(r, Client(Slept(2000)));
      LostSession(r);
      r := LostSteps(r);
    }
  }

  lemma NothingYet()
    ensures Plays(Begin, false) && Still(Begin) && OnIsTrue(Begin, false) && Lost(Begin) == 0
    ensures TvAfter(Begin, false) == Tv(false, 0) && Logged(Begin) == Silence
  {
  }

  /** The log of `count` silent sessions with back-offs between them. */
  function SilentRun(t: Log, count: nat): Log
    requires count > 0
  {
    if count == 1 then SilentLog(t) else SilentLog(BackOff(SilentRun(t, count - 1)))
  }

  /** With `left` silent sessions ahead, `left` attempts are made and none fails. */
  lemma {:induction false} AllSilent(n: Net, left: nat)
    requires |n.dials| == left && forall i :: 0 <= i < left ==> n.dials[i] == SILENT_SESSION
    ensures NoneFails(Made(n, true, left))
    decreases left
  {
    hide Press, SilentLog;
    if left > 0 {
      SilentSession(n);
      var next := Press(n, true).net.Sleep(POWER_ON_RETRY_BACKOFF);
      AllSilent(next, left - 1);
      assert Made(n, true, left) == [Press(n, true).attempt] + Made(next, true, left - 1);
    }
  }

  /** Retrying over silent sessions only, `tries` of them used so far. */
  lemma {:induction false} SilentRetries(n: Net, t: Log, attempt: PowerAttempt, tries: nat)
    requires 1 <= tries <= POWER_ON_ATTEMPTS && attempt == PowerAttempt(true, true, None)
    requires |n.dials| == POWER_ON_ATTEMPTS - tries
    requires forall i :: 0 <= i < |n.dials| ==> n.dials[i] == SILENT_SESSION
    requires n.log == SilentRun(t, tries)
    ensures var r := Retry(n, true, attempt, true, tries);
            r.output == Success(PowerOutput(true, true, None)) && r.net.log == SilentRun(t, POWER_ON_ATTEMPTS)
    decreases POWER_ON_ATTEMPTS - tries
  {
    hide Press, SilentLog;
    if tries < POWER_ON_ATTEMPTS {
      var rested := n.Sleep(POWER_ON_RETRY_BACKOFF);
      SilentSession(rested);
      SilentRetries(Press(rested, true).net, t, attempt, tries + 1);
    }
  }

  lemma SilentPowerSet(n: Net)
    requires |n.dials| == 4 && forall i :: 0 <= i < 4 ==> n.dials[i] == SILENT_SESSION
    ensures var r := PowerSet(n, true);
            r.output == Success(PowerOutput(true, true, None)) && r.net.log == SilentRun(n.log, 4)
  {
    hide Press, SilentLog, Retry;
    SilentSession(n);
    var p := Press(n, true);
    SilentRetries(p.net, n.log, p.attempt.value, 1);
  }
}
