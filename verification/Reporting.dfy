/**
 What a command reports, against the attempts it made and the messages it read.
 */
module Reporting {
  import opened Wrappers
  import opened Handshake
  import opened Network
  import opened Session
  import opened Discipline

  // ------------------------------------------------------------ what was read

  /** The last power report read since the last connect or power key. */
  function Seen(t: Log): Option<bool> {
    match t
    case Silence => None
    case After(_, Dialed) => None
    case After(past, Got(m)) => if IsStart(m) then m.start else Seen(past)
    case After(past, Sent(m)) => if m == POWER_KEY then None else Seen(past)
    case After(past, _) => Seen(past)
  }

  /** An effective report of "on" is read. */
  predicate ReadsOn(e: Event) { e.Got? && IsStart(e.m) && e.m.start == Some(true) }

  /** "On" was read at some point. */
  predicate EverReadOn(t: Log) { t.After? && (EverReadOn(t.past) || ReadsOn(t.last)) }

  /** Reading one message and replying moves `Seen` as it moves the handshake's power. */
  lemma SeenStep(n: Net, h: Hs)
    requires Seen(n.log) == h.power
    ensures n.NextRead().result.Failure? ==> Seen(n.Receive().log) == h.power
    ensures n.NextRead().result.Success? ==>
              var m := n.NextRead().result.value;
              && Seen(n.Receive().log) == Next(h, m).power
              && (forall reply :: Answer(h, m) == Success(Some(reply)) ==>
                    Seen(n.Receive().Send(reply).log) == Next(h, m).power)
    ensures EverReadOn(n.log) ==> EverReadOn(n.Receive().log)
  {
  }

  lemma {:induction false} PumpSeen(n: Net, h: Hs, gotAny: bool)
    requires Seen(n.log) == h.power
    ensures var p := Pump(n, h, gotAny);
            Seen(p.net.log) == p.hs.power && (p.power.Success? ==> p.hs.power == Some(p.power.value))
    decreases |n.recvs|
  {
    hide Seen, Next, Answer;
    if h.power.None? {
      SeenStep(n, h);
      if n.NextRead().result.Success? {
        var m := n.NextRead().result.value;
        match Answer(h, m) {
          case Failure(_) =>
          case Success(None) => PumpSeen(n.Receive(), Next(h, m), true);
          case Success(Some(reply)) =>
            if n.Receive().NextWrite().ok {
              PumpSeen(n.Receive().Send(reply), Next(h, m), true);
            }
        }
      }
    }
  }

  lemma {:induction false} AwaitSeen(n: Net, h: Hs, wantOn: bool, deadline: nat)
    requires Seen(n.log) == h.power
    ensures var a := Await(n, h, wantOn, deadline); Seen(a.net.log) == a.hs.power
    decreases |n.recvs|
  {
    hide Seen, Next, Answer;
    SeenStep(n, h);
    if n.clock < deadline && n.NextRead().result.Success? {
      var m := n.NextRead().result.value;
      ReactedShrinks(n, h, m);
      if Next(h, m).power != Some(wantOn) {
        AwaitSeen(Reacted(n, h, m), Next(h, m), wantOn, deadline);
      }
    }
  }

  /** An attempt observed exactly the last power report it read since its key, or since connecting. */
  lemma ObservedIsSeen(n: Net, wantOn: bool)
    ensures var p := Press(n, wantOn);
            p.attempt.Success? ==>
              var a := p.attempt.value;
              a.observed == Seen(p.net.log) && TrueAttempt(a, wantOn)
  {
    hide Seen, Await, Pump;
    var p := PowerRead(n);
    if n.NextDial().Accepted? {
      FreshlySeen(n);
      PumpSeen(n.Dial(), FRESH, false);
      if p.power.Success? && NeedsPowerKey(p.power.value, wantOn) && p.net.NextWrite().ok {
        var k := KeyWritten(p);
        AwaitSeen(k, p.hs.(power := None), wantOn, k.clock + CONFIRM_WAIT);
      }
    }
  }

  lemma FreshlySeen(n: Net)
    ensures n.NextDial().Accepted? ==> Seen(n.Dial().log).None?
    ensures forall p: Pumped :: p.net.NextWrite().ok ==> Seen(KeyWritten(p).log).None?
  {
  }

  lemma {:induction false} SeenWasRead(t: Log)
    ensures Seen(t) == Some(true) ==> EverReadOn(t)
  {
    if t.After? {
      SeenWasRead(t.past);
    }
  }

  // ------------------------------------------------------- the attempts made

  /**
   The attempts `set_power` makes, in order, `left` at most: each follows an attempt that
   completed without confirming "on", after a back-off.
   */
  function Made(n: Net, wantOn: bool, left: nat): seq<Result<PowerAttempt, ErrorKind>>
    decreases left
  {
    if left == 0 then []
    else
      var p := Press(n, wantOn);
      if p.attempt.Success? && ShouldRetryPowerOn(wantOn, p.attempt.value.observed) then
        [p.attempt] + Made(p.net.Sleep(POWER_ON_RETRY_BACKOFF), wantOn, left - 1)
      else [p.attempt]
  }

  /** The world after those attempts. */
  function AfterMade(n: Net, wantOn: bool, left: nat): Net
    decreases left
  {
    if left == 0 then n
    else
      var p := Press(n, wantOn);
      if left > 1 && p.attempt.Success? && ShouldRetryPowerOn(wantOn, p.attempt.value.observed) then
        AfterMade(p.net.Sleep(2000), wantOn, left - 1)
      else p.net
  }

  /** `set_power` makes those attempts and nothing else. */
  lemma MakesTheAttempts(n: Net, wantOn: bool)
    ensures PowerSet(n, wantOn).net == AfterMade(n, wantOn, 4)
  {
    hide Press;
    var p := Press(n, wantOn);
    if p.attempt.Success? {
      RetryMakes(p.net, wantOn, p.attempt.value, p.attempt.value.changed, 1);
    }
  }

  lemma {:induction false} RetryMakes(n: Net, wantOn: bool, attempt: PowerAttempt, changed: bool, tries: nat)
    requires 1 <= tries <= 4
    ensures var again := tries < 4 && ShouldRetryPowerOn(wantOn, attempt.observed);
            Retry(n, wantOn, attempt, changed, tries).net ==
              if again then AfterMade(n.Sleep(2000), wantOn, 4 - tries) else n
    decreases 4 - tries
  {
    hide Press;
    var p := Press(n.Sleep(2000), wantOn);
    if tries < 4 && p.attempt.Success? {
      RetryMakes(p.net, wantOn, p.attempt.value, changed || p.attempt.value.changed, tries + 1);
    }
  }

  /** The attempts that completed: all of them, or all but a failed last one. */
  function Completed(made: seq<Result<PowerAttempt, ErrorKind>>): seq<PowerAttempt>
    decreases |made|
  {
    if made == [] || made[0].Failure? then [] else [made[0].value] + Completed(made[1..])
  }

  predicate AnyChanged(done: seq<PowerAttempt>) { exists i :: 0 <= i < |done| && done[i].changed }

  lemma {:induction false} RetryReports(
    n: Net, wantOn: bool, attempt: PowerAttempt, changed: bool, tries: nat)
    requires tries <= POWER_ON_ATTEMPTS
    requires ShouldRetryPowerOn(wantOn, attempt.observed)
    ensures var rest := Completed(Made(n.Sleep(POWER_ON_RETRY_BACKOFF), wantOn, POWER_ON_ATTEMPTS - tries));
            var last := if rest == [] then attempt else rest[|rest| - 1];
            Retry(n, wantOn, attempt, changed, tries).output ==
              Success(PowerOutput(last.resulting, changed || AnyChanged(rest), None))
    decreases POWER_ON_ATTEMPTS - tries
  {
    hide Press;
    if tries < POWER_ON_ATTEMPTS {
      var rested := n.Sleep(POWER_ON_RETRY_BACKOFF);
      var p := Press(rested, wantOn);
      var made := Made(rested, wantOn, POWER_ON_ATTEMPTS - tries);
      assert made[0] == p.attempt;
      if p.attempt.Success? {
        var a := p.attempt.value;
        if ShouldRetryPowerOn(wantOn, a.observed) {
          RetryReports(p.net, wantOn, a, changed || a.changed, tries + 1);
          assert made[1..] == Made(p.net.Sleep(POWER_ON_RETRY_BACKOFF), wantOn, POWER_ON_ATTEMPTS - tries - 1);
        } else {
          assert made[1..] == [];
        }
        AnyChangedCons(a, Completed(made[1..]));
      }
    }
  }

  lemma AnyChangedCons(a: PowerAttempt, rest: seq<PowerAttempt>)
    ensures AnyChanged([a] + rest) <==> a.changed || AnyChanged(rest)
  {
    var all := [a] + rest;
    assert all[0] == a && forall i :: 0 <= i < |rest| ==> all[i + 1] == rest[i];
    if a.changed || AnyChanged(rest) {
      if !a.changed {
        var i :| 0 <= i < |rest| && rest[i].changed;
        assert all[i + 1].changed;
      }
    }
    if AnyChanged(all) && !a.changed {
      var i :| 0 <= i < |all| && all[i].changed;
      assert rest[i - 1].changed;
    }
  }

  /** What a completed attempt reports: its observation, else the target; and no key only if already there. */
  predicate TrueAttempt(a: PowerAttempt, wantOn: bool) {
    && a.resulting == (if a.observed.Some? then a.observed.value else wantOn)
    && (!a.changed ==> a.observed == Some(wantOn))
  }

  predicate AllTrue(done: seq<PowerAttempt>, wantOn: bool) {
    forall i :: 0 <= i < |done| ==> TrueAttempt(done[i], wantOn)
  }

  lemma AllTrueCons(a: PowerAttempt, rest: seq<PowerAttempt>, wantOn: bool)
    requires TrueAttempt(a, wantOn) && AllTrue(rest, wantOn)
    ensures AllTrue([a] + rest, wantOn)
  {
  }

  lemma {:induction false} CompletedAreTrue(n: Net, wantOn: bool, left: nat)
    ensures AllTrue(Completed(Made(n, wantOn, left)), wantOn)
    decreases left
  {
    hide Press, TrueAttempt;
    if left > 0 {
      ObservedIsSeen(n, wantOn);
      var p := Press(n, wantOn);
      if p.attempt.Success? {
        var next := p.net.Sleep(POWER_ON_RETRY_BACKOFF);
        CompletedAreTrue(next, wantOn, left - 1);
        var rest := if ShouldRetryPowerOn(wantOn, p.attempt.value.observed) then Made(next, wantOn, left - 1) else [];
        var made := Made(n, wantOn, left);
        assert made == [p.attempt] + rest && made[1..] == rest;
        AllTrueCons(p.attempt.value, Completed(rest), wantOn);
      }
    }
  }

  /**
   `out` tells of the attempts made: the first one's error, or the state of the last completed
   one and whether any pressed the key.
   */
  predicate ReportsAttempts(
    out: Result<PowerOutput, ErrorKind>, made: seq<Result<PowerAttempt, ErrorKind>>, wantOn: bool, wol: Option<bool>)
  {
    var done := Completed(made);
    if done == [] then |made| == 1 && made[0].Failure? && out == Failure(made[0].error)
    else
      var last := done[|done| - 1];
      && out == Success(PowerOutput(last.resulting, AnyChanged(done), wol))
      && AllTrue(done, wantOn)
  }

  /**
   The truth of the report: an error exactly when the first attempt errs; otherwise the
   power is what the last completed attempt observed, or the target when it observed
   nothing, and `changed` says whether any completed attempt pressed the key.
   */
  lemma ReportIsTrue(n: Net, wantOn: bool)
    ensures ReportsAttempts(PowerSet(n, wantOn).output, Made(n, wantOn, 4), wantOn, None)
  {
    hide Press, TrueAttempt;
    CompletedAreTrue(n, wantOn, POWER_ON_ATTEMPTS);
    var p := Press(n, wantOn);
    var made := Made(n, wantOn, POWER_ON_ATTEMPTS);
    assert made[0] == p.attempt;
    if p.attempt.Success? {
      var a := p.attempt.value;
      if ShouldRetryPowerOn(wantOn, a.observed) {
        RetryReports(p.net, wantOn, a, a.changed, 1);
        assert made[1..] == Made(p.net.Sleep(POWER_ON_RETRY_BACKOFF), wantOn, 3);
      } else {
        assert made[1..] == [];
      }
      AnyChangedCons(a, Completed(made[1..]));
    }
  }

  /** Each attempt but the last completed without confirming "on" where `on` was wanted. */
  predicate EachLedOn(made: seq<Result<PowerAttempt, ErrorKind>>, wantOn: bool) {
    forall i :: 0 <= i < |made| - 1 ==> made[i].Success? && ShouldRetryPowerOn(wantOn, made[i].value.observed)
  }

  /**
   How many attempts: an attempt is followed by another exactly when it completed, `on` was
   wanted, "on" was not observed and fewer than `left` were made; so `off` makes one, and
   `on` gives up unobserved only after `left` attempts or a failed retry.
   */
  lemma {:induction false} MadeShape(n: Net, wantOn: bool, left: nat)
    requires left > 0
    ensures var made := Made(n, wantOn, left);
            && 1 <= |made| <= left && EachLedOn(made, wantOn)
            && (|made| < left ==>
                  var last := made[|made| - 1];
                  last.Failure? || !ShouldRetryPowerOn(wantOn, last.value.observed))
    decreases left
  {
    hide Press;
    var p := Press(n, wantOn);
    if p.attempt.Success? && ShouldRetryPowerOn(wantOn, p.attempt.value.observed) && left > 1 {
      var next := p.net.Sleep(POWER_ON_RETRY_BACKOFF);
      var rest := Made(next, wantOn, left - 1);
      var made := Made(n, wantOn, left);
      MadeShape(next, wantOn, left - 1);
      assert made == [p.attempt] + rest;
      assert forall i :: 0 < i < |made| ==> made[i] == rest[i - 1];
    }
  }

  /** Only the last attempt made can be one that failed. */
  lemma {:induction false} CompletedShape(made: seq<Result<PowerAttempt, ErrorKind>>, wantOn: bool)
    requires made != [] && EachLedOn(made, wantOn)
    ensures |Completed(made)| == (if made[|made| - 1].Failure? then |made| - 1 else |made|)
    ensures forall i :: 0 <= i < |Completed(made)| ==> made[i] == Success(Completed(made)[i])
    decreases |made|
  {
    if |made| > 1 {
      assert made[0].Success?;
      assert forall i :: 0 < i < |made| ==> made[i] == made[1..][i - 1];
      CompletedShape(made[1..], wantOn);
    }
  }

  // ---------------------------------------------- confirmed, or four keys written

  predicate NoneFails(made: seq<Result<PowerAttempt, ErrorKind>>) {
    forall i :: 0 <= i < |made| ==> made[i].Success?
  }

  lemma NoneFailsStep(n: Net, wantOn: bool, left: nat)
    requires left > 0 && NoneFails(Made(n, wantOn, left))
    ensures var p := Press(n, wantOn);
            && p.attempt.Success?
            && (ShouldRetryPowerOn(wantOn, p.attempt.value.observed) ==>
                  NoneFails(Made(p.net.Sleep(POWER_ON_RETRY_BACKOFF), wantOn, left - 1)))
  {
    hide Press;
    var p := Press(n, wantOn);
    var made := Made(n, wantOn, left);
    assert made[0] == p.attempt;
    if ShouldRetryPowerOn(wantOn, p.attempt.value.observed) {
      var rest := Made(p.net.Sleep(POWER_ON_RETRY_BACKOFF), wantOn, left - 1);
      assert forall i :: 0 <= i < |rest| ==> rest[i] == made[i + 1];
    }
  }

  lemma {:induction false} RetryConfirms(n: Net, attempt: PowerAttempt, changed: bool, tries: nat)
    requires Seen(n.log) == attempt.observed
    requires Legal(n.log, true) && Settled(Watch(n.log)) && tries <= POWER_ON_ATTEMPTS
    requires attempt.observed != Some(true)
             ==> NoneFails(Made(n.Sleep(POWER_ON_RETRY_BACKOFF), true, POWER_ON_ATTEMPTS - tries))
    ensures var r := Retry(n, true, attempt, changed, tries);
            Seen(r.net.log) == Some(true) || Keys(r.net.log) == Keys(n.log) + POWER_ON_ATTEMPTS - tries
    decreases POWER_ON_ATTEMPTS - tries
  {
    hide Press, Seen, Legal, Watch, Keys, Packets, Made, NoneFails;
    if tries < POWER_ON_ATTEMPTS && ShouldRetryPowerOn(true, attempt.observed) {
      var rested := n.Sleep(POWER_ON_RETRY_BACKOFF);
      NoneFailsStep(rested, true, POWER_ON_ATTEMPTS - tries);
      RestKeepsRules(n, POWER_ON_RETRY_BACKOFF, true);
      PressObeys(rested, true);
      ObservedIsSeen(rested, true);
      var p := Press(rested, true);
      var a := p.attempt.value;
      RetryConfirms(p.net, a, changed || a.changed, tries + 1);
    }
  }

  /** An `on` run none of whose attempts fails ends having just read "on", or writes four keys. */
  lemma OnOrFourKeys(n: Net)
    requires Legal(n.log, true) && MayDial(Watch(n.log))
    requires NoneFails(Made(n, true, POWER_ON_ATTEMPTS))
    ensures var t := PowerSet(n, true).net.log;
            EverReadOn(t) || Keys(t) == Keys(n.log) + POWER_ON_ATTEMPTS
  {
    hide Press, Seen, Legal, Watch, Keys, Packets, Retry, Made, NoneFails;
    NoneFailsStep(n, true, POWER_ON_ATTEMPTS);
    PressObeys(n, true);
    ObservedIsSeen(n, true);
    var p := Press(n, true);
    var first := p.attempt.value;
    RetryConfirms(p.net, first, first.changed, 1);
    assert PowerSet(n, true) == Retry(p.net, true, first, first.changed, 1);
    SeenWasRead(PowerSet(n, true).net.log);
    assert Seen(p.net.log) == Some(true) ==> PowerSet(n, true).net == p.net by {
      if first.observed == Some(true) {
        RetryStops(p.net, true, first, first.changed, 1);
      }
    }
  }
}
