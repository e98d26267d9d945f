/**
 What every command may put on the wire, as an observer that sees only the log, and
 the proof that each driver keeps to it on every script. Key presses and wake-up
 packets are counted on the same log.
 */
module Discipline {
  import opened Wrappers
  import opened Handshake
  import opened Network
  import opened Session

  // ------------------------------------------------------------- the observer

  /** Where the wake-up fallback is. */
  datatype WakePhase = NoPacket | Waiting(probed: bool) | Up

  /**
   What the observer knows: whether a session is open, the reply still owed, the last
   configure reply of this session (or `FEATURES`), the session's first power report,
   whether the power key was written in this session, whether any session was opened so
   far, the wake-up phase, and for how long the client has slept since anything happened.
   */
  datatype View = View(
    open: bool, owed: Option<RemoteMessage>, config: i32, report: Option<bool>, keyed: bool,
    used: bool, wake: WakePhase, rested: nat)

  const NOTHING := View(false, None, FEATURES, None, false, false, NoPacket, 0)

  function See(v: View, e: Event): View {
    match e
    case Dialed => NOTHING.(open := true, used := true, wake := v.wake)
    case DialFailed(_) => NOTHING.(used := v.used, wake := v.wake)
    case Got(m) =>
      v.(owed := Owed(Masked(v.config, m), m),
         report := if v.report.None? && IsStart(m) then m.start else v.report,
         rested := 0)
    case Sent(m) => Written(v, m)
    case SendFailed(m) => Written(v, m)
    case RecvFailed => v.(open := false, rested := 0)
    case Woke(_) => v.(wake := Waiting(false), rested := 0)
    case WakeFailed => v.(rested := 0)
    case Probed(up) => v.(wake := if up then Up else Waiting(true), rested := 0)
    case Slept(ms) => v.(rested := v.rested + ms)
  }

  function Written(v: View, m: RemoteMessage): View {
    if m == POWER_KEY then v.(keyed := true, rested := 0)
    else v.(owed := None, config := if m.configure.Some? then m.configure.value.code1 else v.config, rested := 0)
  }

  function Watch(t: Log): View {
    match t
    case Silence => NOTHING
    case After(past, e) => See(Watch(past), e)
  }

  /**
   The rules. Reads and connects happen only when no reply is owed. A write is either exactly
   the owed reply, or one power key in a session whose own first report is the opposite of
   the target, a grace period after the last message. A new session follows an earlier one
   only after a back-off, and a magic packet only after the port was seen up. The packet
   goes out at most once, to switch on, when no session was ever opened; probes are spaced.
   */
  predicate MayHappen(v: View, e: Event, wantOn: bool) {
    match e
    case Dialed => MayDial(v)
    case DialFailed(_) => MayDial(v)
    case Got(_) => v.open && v.owed.None?
    case RecvFailed => v.open && v.owed.None?
    case Sent(m) => MayWrite(v, m, wantOn)
    case SendFailed(m) => MayWrite(v, m, wantOn)
    case Woke(_) => MayWake(v, wantOn)
    case WakeFailed => MayWake(v, wantOn)
    case Probed(_) => v.wake.Waiting? && (v.wake.probed ==> v.rested >= 500)
    case Slept(_) => true
  }

  predicate MayDial(v: View) { Settled(v) && (v.used ==> v.rested >= 2000) }

  /** No reply is owed and no wake-up is under way. */
  predicate Settled(v: View) { v.owed.None? && !v.wake.Waiting? }

  predicate MayWake(v: View, wantOn: bool) { wantOn && !v.open && !v.used && v.wake.NoPacket? }

  predicate MayWrite(v: View, m: RemoteMessage, wantOn: bool) {
    && v.open
    && if m == POWER_KEY then v.owed.None? && v.report == Some(!wantOn) && !v.keyed && v.rested >= 1000
       else v.owed == Some(m)
  }

  predicate Legal(t: Log, wantOn: bool) {
    t.After? ==> Legal(t.past, wantOn) && MayHappen(Watch(t.past), t.last, wantOn)
  }

  /** `t` is what `u` was at some earlier moment, or now. */
  predicate PastOf(t: Log, u: Log) { t == u || (u.After? && PastOf(t, u.past)) }

  // ------------------------------------------------------------------ counting

  /** Power keys delivered; a failed write delivers nothing. */
  function Keys(t: Log): nat {
    match t
    case Silence => 0
    case After(past, e) => Keys(past) + if e == Sent(POWER_KEY) then 1 else 0
  }

  /** The addresses of the magic packets broadcast, in order. */
  function Packets(t: Log): seq<seq<int>> {
    match t
    case Silence => []
    case After(past, e) => if e.Woke? then Packets(past) + [e.mac] else Packets(past)
  }

  /** Neither a key nor a packet went out between the two logs. */
  predicate Quiet(before: Log, now: Log) {
    Keys(now) == Keys(before) && Packets(now) == Packets(before)
  }

  // ------------------------------------------------------- drivers keep the rules

  /** Handling a message and the reply it is owed leave the observer and the client with the same mask. */
  lemma OwedReply(h: Hs, m: RemoteMessage)
    ensures var features := Next(h, m).features;
            match Owed(features, m)
            case None => features == h.features
            case Some(reply) =>
              && reply != POWER_KEY
              && features == (if reply.configure.Some? then reply.configure.value.code1 else h.features)
    ensures match Answer(h, m)
            case Success(owed) => owed == Owed(Next(h, m).features, m)
            case Failure(_) => Owed(Next(h, m).features, m).None?
    ensures Next(h, m).features == Masked(h.features, m)
    ensures Next(h, m).power == if IsStart(m) then m.start else h.power
  {
  }

  lemma ReadKeepsRules(n: Net, wantOn: bool)
    requires Legal(n.log, wantOn) && Watch(n.log).open && Watch(n.log).owed.None?
    ensures Legal(n.Receive().log, wantOn) && Quiet(n.log, n.Receive().log)
    ensures var v := Watch(n.log);
            match n.NextRead().result
            case Failure(_) => Watch(n.Receive().log) == v.(open := false, rested := 0)
            case Success(m) =>
              Watch(n.Receive().log) ==
                v.(owed := Owed(Masked(v.config, m), m),
                   report := if v.report.None? && IsStart(m) then m.start else v.report,
                   rested := 0)
  {
  }

  lemma ReplyKeepsRules(n: Net, reply: RemoteMessage, wantOn: bool)
    requires Legal(n.log, wantOn) && Watch(n.log).open
    requires Watch(n.log).owed == Some(reply) && reply != POWER_KEY
    ensures Legal(n.Send(reply).log, wantOn) && Quiet(n.log, n.Send(reply).log)
    ensures var v := Watch(n.log);
            Watch(n.Send(reply).log) ==
              v.(owed := None,
                 config := if reply.configure.Some? then reply.configure.value.code1 else v.config,
                 rested := 0)
  {
  }

  /** The observer and the client agree during a handshake. */
  predicate Shaking(v: View, h: Hs) {
    v == View(true, None, h.features, h.power, false, true, v.wake, 0)
  }

  /** One message of a handshake and its reply. */
  lemma ShakeOnce(n: Net, h: Hs, m: RemoteMessage, wantOn: bool)
    requires Legal(n.log, wantOn) && Shaking(Watch(n.log), h) && h.power.None?
    requires n.NextRead().result == Success(m)
    ensures var got := n.Receive();
            Legal(got.log, wantOn) && Quiet(n.log, got.log) && Watch(got.log).wake == Watch(n.log).wake
    ensures var got := n.Receive();
            var answer := Answer(h, m);
            if answer.Failure? then Watch(got.log).owed.None?
            else if answer.value.None? then Shaking(Watch(got.log), Next(h, m))
            else
              var sent := got.Send(answer.value.value);
              && Legal(sent.log, wantOn) && Quiet(n.log, sent.log) && Watch(sent.log).wake == Watch(n.log).wake
              && Shaking(Watch(sent.log), Next(h, m))
  {
    hide Legal, Watch, Keys, Packets, Owed, Masked, Answer, Next, IsStart;
    ReadKeepsRules(n, wantOn);
    OwedReply(h, m);
    match Answer(h, m) {
      case Success(Some(reply)) => ReplyKeepsRules(n.Receive(), reply, wantOn);
      case _ =>
    }
  }

  lemma {:induction false} PumpObeys(n: Net, h: Hs, gotAny: bool, wantOn: bool)
    requires Legal(n.log, wantOn) && Shaking(Watch(n.log), h)
    ensures var p := Pump(n, h, gotAny);
            && Legal(p.net.log, wantOn) && Quiet(n.log, p.net.log)
            && Watch(p.net.log).owed.None? && Watch(p.net.log).wake == Watch(n.log).wake
            && (p.power.Success? ==>
                  Shaking(Watch(p.net.log), p.hs) && p.hs.power == Some(p.power.value))
    decreases |n.recvs|
  {
    hide Legal, Watch, Keys, Packets, Answer, Next;
    if h.power.None? {
      match n.NextRead().result {
        case Failure(_) => ReadKeepsRules(n, wantOn);
        case Success(m) =>
          ShakeOnce(n, h, m, wantOn);
          match Answer(h, m) {
            case Failure(_) =>
            case Success(None) => PumpObeys(n.Receive(), Next(h, m), true, wantOn);
            case Success(Some(reply)) =>
              if n.Receive().NextWrite().ok {
                PumpObeys(n.Receive().Send(reply), Next(h, m), true, wantOn);
              }
          }
      }
    }
  }

  /** The observer and the client agree in the middle of a session whose report is known. */
  predicate InSession(n: Net, h: Hs, wantOn: bool) {
    var v := Watch(n.log);
    Legal(n.log, wantOn) && v.open && v.owed.None? && v.config == h.features && v.report.Some?
  }

  lemma ReactionKeepsRules(n: Net, h: Hs, m: RemoteMessage, wantOn: bool)
    requires InSession(n, h, wantOn) && n.NextRead().result == Success(m)
    ensures InSession(Reacted(n, h, m), Next(h, m), wantOn) && Quiet(n.log, Reacted(n, h, m).log)
    ensures Watch(Reacted(n, h, m).log).wake == Watch(n.log).wake
  {
    hide Legal, Watch, Keys, Packets, Owed, Masked, Answer, Next, IsStart;
    ReadKeepsRules(n, wantOn);
    OwedReply(h, m);
    match Answer(h, m) {
      case Success(Some(reply)) => ReplyKeepsRules(n.Receive(), reply, wantOn);
      case _ =>
    }
  }

  lemma {:induction false} AwaitObeys(n: Net, h: Hs, wantOn: bool, deadline: nat)
    requires InSession(n, h, wantOn)
    ensures var a := Await(n, h, wantOn, deadline);
            && Legal(a.net.log, wantOn) && Quiet(n.log, a.net.log)
            && Watch(a.net.log).owed.None? && Watch(a.net.log).wake == Watch(n.log).wake
    decreases |n.recvs|
  {
    hide Legal, Watch, Keys, Packets, Answer, Next, Reacted;
    if n.clock < deadline {
      ReadKeepsRules(n, wantOn);
      if n.NextRead().result.Success? {
        var m := n.NextRead().result.value;
        ReactionKeepsRules(n, h, m, wantOn);
        ReactedShrinks(n, h, m);
        if Next(h, m).power != Some(wantOn) {
          AwaitObeys(Reacted(n, h, m), Next(h, m), wantOn, deadline);
        }
      }
    }
  }

  lemma ReactedShrinks(n: Net, h: Hs, m: RemoteMessage)
    requires n.NextRead().result == Success(m)
    ensures |Reacted(n, h, m).recvs| < |n.recvs|
  {
  }

  lemma PowerReadObeys(n: Net, wantOn: bool)
    requires Legal(n.log, wantOn) && MayDial(Watch(n.log))
    ensures var p := PowerRead(n);
            && Legal(p.net.log, wantOn) && Settled(Watch(p.net.log)) && Quiet(n.log, p.net.log)
            && (p.power.Success? ==>
                  Shaking(Watch(p.net.log), p.hs) && p.hs.power == Some(p.power.value))
  {
    if n.NextDial().Accepted? {
      PumpObeys(n.Dial(), FRESH, false, wantOn);
    }
  }

  lemma RestKeepsRules(n: Net, ms: nat, wantOn: bool)
    requires Legal(n.log, wantOn)
    ensures Legal(n.Sleep(ms).log, wantOn) && Quiet(n.log, n.Sleep(ms).log)
    ensures Watch(n.Sleep(ms).log) == var v := Watch(n.log); v.(rested := v.rested + ms)
  {
  }

  /** The current session reported the wanted state, and no key was written in it. */
  predicate Unpressed(v: View, wantOn: bool) { v.report == Some(wantOn) && !v.keyed }

  /** One attempt writes one key exactly when it completes and says it changed something. */
  lemma PressObeys(n: Net, wantOn: bool)
    requires Legal(n.log, wantOn) && MayDial(Watch(n.log))
    ensures var p := Press(n, wantOn);
            && Legal(p.net.log, wantOn) && Settled(Watch(p.net.log))
            && Packets(p.net.log) == Packets(n.log)
            && Keys(p.net.log) ==
                 Keys(n.log) + (if p.attempt.Success? && p.attempt.value.changed then 1 else 0)
            && (p.attempt.Success? && !p.attempt.value.changed ==>
                  p.attempt.value == PowerAttempt(false, wantOn, Some(wantOn)) && Unpressed(Watch(p.net.log), wantOn))
  {
    hide PowerRead, Await, Legal, Keys, Packets, Watch;
    PowerReadObeys(n, wantOn);
    var p := PowerRead(n);
    if p.power.Success? && NeedsPowerKey(p.power.value, wantOn) {
      RestKeepsRules(p.net, KEY_INJECT_GRACE, wantOn);
      KeyKeepsRules(p.net.Sleep(KEY_INJECT_GRACE), wantOn);
      if p.net.NextWrite().ok {
        var k := KeyWritten(p);
        AwaitObeys(k, p.hs.(power := None), wantOn, k.clock + CONFIRM_WAIT);
      }
    }
  }

  lemma KeyKeepsRules(n: Net, wantOn: bool)
    requires Legal(n.log, wantOn) && MayWrite(Watch(n.log), POWER_KEY, wantOn)
    ensures var k := n.Send(POWER_KEY);
            && Legal(k.log, wantOn) && Watch(k.log) == Watch(n.log).(keyed := true, rested := 0)
            && Packets(k.log) == Packets(n.log)
            && Keys(k.log) == Keys(n.log) + if n.NextWrite().ok then 1 else 0
  {
  }

  lemma {:induction false} RetryObeys(n: Net, wantOn: bool, attempt: PowerAttempt, changed: bool, tries: nat)
    requires Legal(n.log, wantOn) && Settled(Watch(n.log))
    ensures var r := Retry(n, wantOn, attempt, changed, tries);
            && Legal(r.net.log, wantOn) && Settled(Watch(r.net.log))
            && Packets(r.net.log) == Packets(n.log)
            && r.output.Success?
            && (r.output.value.changed <==> changed || Keys(r.net.log) > Keys(n.log))
            && Keys(n.log) <= Keys(r.net.log)
            && Keys(r.net.log) <= Keys(n.log) + (if wantOn && tries <= POWER_ON_ATTEMPTS then POWER_ON_ATTEMPTS - tries else 0)
    decreases POWER_ON_ATTEMPTS - tries
  {
    hide Press, Legal, Keys, Packets, Watch;
    if tries < POWER_ON_ATTEMPTS && ShouldRetryPowerOn(wantOn, attempt.observed) {
      var rested := n.Sleep(POWER_ON_RETRY_BACKOFF);
      RestKeepsRules(n, POWER_ON_RETRY_BACKOFF, wantOn);
      PressObeys(rested, wantOn);
      var p := Press(rested, wantOn);
      if p.attempt.Success? {
        RetryObeys(p.net, wantOn, p.attempt.value, changed || p.attempt.value.changed, tries + 1);
      }
    }
  }

  function MaxKeys(wantOn: bool): nat { if wantOn then POWER_ON_ATTEMPTS else 1 }

  /** `set_power`: legal on every script, and its report counts the keys. */
  lemma PowerSetObeys(n: Net, wantOn: bool)
    requires Legal(n.log, wantOn) && MayDial(Watch(n.log))
    ensures var r := PowerSet(n, wantOn);
            && Legal(r.net.log, wantOn) && Settled(Watch(r.net.log))
            && Packets(r.net.log) == Packets(n.log)
            && Keys(n.log) <= Keys(r.net.log) <= Keys(n.log) + MaxKeys(wantOn)
            && (r.output.Failure? ==> Keys(r.net.log) == Keys(n.log))
            && (r.output.Success? ==>
                  (r.output.value.changed <==> Keys(r.net.log) > Keys(n.log)) && r.output.value.wol.None?)
            && (r.output.Success? && !r.output.value.changed ==>
                  r.output.value.power == wantOn && Unpressed(Watch(r.net.log), wantOn))
  {
    hide Press, Retry, Legal, Keys, Packets, Watch;
    PressObeys(n, wantOn);
    var p := Press(n, wantOn);
    if p.attempt.Success? {
      RetryObeys(p.net, wantOn, p.attempt.value, p.attempt.value.changed, 1);
      if !p.attempt.value.changed {
        RetryStops(p.net, wantOn, p.attempt.value, false, 1);
      }
      RetryNeverWakes(p.net, wantOn, p.attempt.value, p.attempt.value.changed, 1);
    }
  }

  lemma RetryStops(n: Net, wantOn: bool, attempt: PowerAttempt, changed: bool, tries: nat)
    requires attempt.observed == Some(wantOn)
    ensures Retry(n, wantOn, attempt, changed, tries) ==
              Powered(n, Success(PowerOutput(attempt.resulting, changed, None)))
  {
  }

  lemma {:induction false} RetryNeverWakes(n: Net, wantOn: bool, attempt: PowerAttempt, changed: bool, tries: nat)
    ensures var r := Retry(n, wantOn, attempt, changed, tries); r.output.Success? && r.output.value.wol.None?
    decreases POWER_ON_ATTEMPTS - tries
  {
    hide Press;
    var p := Press(n.Sleep(POWER_ON_RETRY_BACKOFF), wantOn);
    if tries < POWER_ON_ATTEMPTS && p.attempt.Success? {
      RetryNeverWakes(p.net, wantOn, p.attempt.value, changed || p.attempt.value.changed, tries + 1);
    }
  }

  // --------------------------------------------------- unreachable means no session

  /** A session that fails is a rejected certificate or a protocol error, never an unreachable TV. */
  lemma {:induction false} PumpErrors(n: Net, h: Hs, gotAny: bool)
    ensures var power := Pump(n, h, gotAny).power;
            power.Failure? ==> power.error == AuthRejected || power.error == ProtocolError
    decreases |n.recvs|
  {
    if h.power.None? && n.NextRead().result.Success? {
      var m := n.NextRead().result.value;
      match Answer(h, m) {
        case Failure(_) =>
        case Success(None) => PumpErrors(n.Receive(), Next(h, m), true);
        case Success(Some(reply)) => PumpErrors(n.Receive().Send(reply), Next(h, m), true);
      }
    }
  }

  /** `Unreachable` comes only from the connection attempt, before any session is open. */
  lemma UnreachableOnlyFromDial(n: Net, wantOn: bool)
    ensures var r := PowerSet(n, wantOn);
            r.output == Failure(Unreachable)
            <==> n.NextDial().Refused? && n.NextDial().kind == Unreachable
    ensures PowerSet(n, wantOn).output == Failure(Unreachable) ==> PowerSet(n, wantOn).net == n.Dial()
  {
    hide Await, Pump;
    PumpErrors(n.Dial(), FRESH, false);
    var p := Press(n, wantOn);
    if p.attempt.Success? {
      RetryNeverWakes(p.net, wantOn, p.attempt.value, p.attempt.value.changed, 1);
    }
  }

  lemma {:induction false} PollObeys(n: Net, deadline: nat, wantOn: bool)
    requires Legal(n.log, wantOn) && Watch(n.log).owed.None? && !Watch(n.log).used
    requires var v := Watch(n.log); v.wake.Waiting? && (v.wake.probed ==> v.rested >= 500)
    ensures var p := Poll(n, deadline);
            && Legal(p.net.log, wantOn) && Quiet(n.log, p.net.log)
            && (p.up ==> MayDial(Watch(p.net.log)))
    decreases deadline - n.clock
  {
    hide Legal, Watch, Keys, Packets;
    if n.clock < deadline {
      ProbeKeepsRules(n, wantOn);
      if !n.NextProbe().ok {
        RestKeepsRules(n.Probe(), PROBE_PAUSE, wantOn);
        PollObeys(n.Probe().Sleep(PROBE_PAUSE), deadline, wantOn);
      }
    }
  }

  lemma ProbeKeepsRules(n: Net, wantOn: bool)
    requires Legal(n.log, wantOn) && MayHappen(Watch(n.log), Probed(n.NextProbe().ok), wantOn)
    ensures Legal(n.Probe().log, wantOn) && Quiet(n.log, n.Probe().log)
    ensures Watch(n.Probe().log) ==
              Watch(n.log).(wake := if n.NextProbe().ok then Up else Waiting(true), rested := 0)
  {
  }

  /**
   The whole command, on every script: it keeps the rules; a failure means that no power
   key was written at all; `changed` is true exactly when at least one was; `wol` is set
   exactly when a magic packet went out, and at most one ever does.
   */
  lemma CommandObeys(n: Net, wantOn: bool, mac: Option<seq<int>>)
    requires n.log == Silence
    ensures var r := PowerSetWithWake(n, wantOn, mac);
            && Legal(r.net.log, wantOn)
            && Keys(r.net.log) <= MaxKeys(wantOn)
            && (Packets(r.net.log) == [] || (wantOn && mac.Some? && Packets(r.net.log) == [mac.value]))
            && (r.output.Failure? ==> Keys(r.net.log) == 0)
            && (r.output.Success? ==>
                  && (r.output.value.changed <==> Keys(r.net.log) > 0)
                  && r.output.value.wol == (if Packets(r.net.log) != [] then Some(true) else None))
            && (Packets(r.net.log) != [] ==> PowerSet(n, wantOn).output == Failure(Unreachable))
            && (r.output.Success? && !r.output.value.changed ==>
                  r.output.value.power == wantOn && Unpressed(Watch(r.net.log), wantOn))
  {
    hide PowerSet, Poll, Legal, Keys, Packets, Watch;
    Beginning(n.log, wantOn);
    PowerSetObeys(n, wantOn);
    var first := PowerSet(n, wantOn);
    if WakesUp(first.output, wantOn, mac) {
      UnreachableOnlyFromDial(n, wantOn);
      DialRefusedCloses(n);
      BroadcastKeepsRules(first.net, mac.value, wantOn);
      var woken := first.net.Broadcast(mac.value);
      if first.net.NextWake().ok {
        PollObeys(woken, woken.clock + WOL_WAIT, wantOn);
        var polled := Poll(woken, woken.clock + WOL_WAIT);
        if polled.up {
          PowerSetObeys(polled.net, wantOn);
        }
      }
    }
  }

  lemma Beginning(t: Log, wantOn: bool)
    requires t == Silence
    ensures Legal(t, wantOn) && Watch(t) == NOTHING && Keys(t) == 0 && Packets(t) == []
  {
  }

  lemma DialRefusedCloses(n: Net)
    requires n.NextDial().Refused?
    ensures Watch(n.Dial().log) == See(Watch(n.log), DialFailed(n.NextDial().kind))
  {
  }

  lemma BroadcastKeepsRules(n: Net, mac: seq<int>, wantOn: bool)
    requires Legal(n.log, wantOn) && MayWake(Watch(n.log), wantOn)
    ensures var w := n.Broadcast(mac);
            && Legal(w.log, wantOn) && Keys(w.log) == Keys(n.log)
            && Packets(w.log) == (if n.NextWake().ok then Packets(n.log) + [mac] else Packets(n.log))
            && (n.NextWake().ok ==> Watch(w.log) == Watch(n.log).(wake := Waiting(false), rested := 0))
  {
  }

  // ------------------------------------------------------------ the keys written

  /** The messages delivered that inject a key, in order. */
  function Injections(t: Log): seq<RemoteMessage> {
    match t
    case Silence => []
    case After(past, Sent(m)) => if m.keyInject.Some? then Injections(past) + [m] else Injections(past)
    case After(past, _) => Injections(past)
  }

  /** A message that injects a short press of the given key and does nothing else. */
  predicate ShortPress(m: RemoteMessage, keyCode: int) {
    m == RemoteMessage(None, None, None, None, None, None, Some(KeyInject(keyCode, 3)), None)
  }

  /** Whatever keeps the rules injects nothing but short presses of key 26, and `Keys` counts exactly these. */
  lemma {:induction false} LegalKeys(t: Log, wantOn: bool)
    requires Legal(t, wantOn)
    ensures Watch(t).owed.Some? ==> Watch(t).owed.value.keyInject.None?
    ensures |Injections(t)| == Keys(t) && forall i :: 0 <= i < |Injections(t)| ==> ShortPress(Injections(t)[i], 26)
  {
    hide MayHappen, See, Watch, ShortPress;
    if t.After? {
      LegalKeys(t.past, wantOn);
      KeyStep(t, wantOn);
    } else {
      Beginning(t, wantOn);
    }
  }

  lemma KeyStep(t: Log, wantOn: bool)
    requires t.After? && Legal(t, wantOn)
    requires Watch(t.past).owed.Some? ==> Watch(t.past).owed.value.keyInject.None?
    ensures Legal(t.past, wantOn)
    ensures Watch(t).owed.Some? ==> Watch(t).owed.value.keyInject.None?
    ensures t.last.Sent? ==> (t.last.m.keyInject.Some? <==> t.last.m == POWER_KEY)
    ensures ShortPress(POWER_KEY, 26)
  {
    hide Masked;
  }

  /** A power command injects short presses of the power key only, as many as it counts. */
  lemma CommandKeys(n: Net, wantOn: bool, mac: Option<seq<int>>)
    requires n.log == Silence
    ensures var t := PowerSetWithWake(n, wantOn, mac).net.log;
            |Injections(t)| == Keys(t) && forall i :: 0 <= i < |Injections(t)| ==> ShortPress(Injections(t)[i], 26)
  {
    hide PowerSetWithWake;
    CommandObeys(n, wantOn, mac);
    LegalKeys(PowerSetWithWake(n, wantOn, mac).net.log, wantOn);
  }

  // -------------------------------------------------------- set_active replies

  /** The code of the latest configure reply in the current session, or `FEATURES`. */
  function LatestConfigured(t: Log): i32 {
    match t
    case Silence => FEATURES
    case After(past, Dialed) => FEATURES
    case After(past, DialFailed(_)) => FEATURES
    case After(past, Sent(m)) => if m.configure.Some? then m.configure.value.code1 else LatestConfigured(past)
    case After(past, SendFailed(m)) => if m.configure.Some? then m.configure.value.code1 else LatestConfigured(past)
    case After(past, _) => LatestConfigured(past)
  }

  /** Every `set_active` written carries the latest configure reply of its session. */
  predicate SetActiveFollows(t: Log) {
    match t
    case Silence => true
    case After(past, Sent(m)) => SetActiveFollows(past) && (m.setActive.Some? ==> m.setActive.value == LatestConfigured(past))
    case After(past, SendFailed(m)) => SetActiveFollows(past) && (m.setActive.Some? ==> m.setActive.value == LatestConfigured(past))
    case After(past, _) => SetActiveFollows(past)
  }

  /** A `set_active` that is owed carries the configured code. */
  predicate OwesConfigured(v: View) {
    v.owed.Some? && v.owed.value.setActive.Some? ==> v.owed.value.setActive.value == v.config
  }

  lemma OwedSetActive(config: i32, m: RemoteMessage)
    ensures var owed := Owed(Masked(config, m), m);
            owed.Some? && owed.value.setActive.Some? ==> owed.value.setActive.value == config
  {
  }

  lemma OneMoreConfigured(v: View, e: Event)
    requires OwesConfigured(v)
    ensures OwesConfigured(See(v, e))
    ensures See(v, e).config ==
              match e
              case Dialed => FEATURES
              case DialFailed(_) => FEATURES
              case Sent(m) => if m.configure.Some? then m.configure.value.code1 else v.config
              case SendFailed(m) => if m.configure.Some? then m.configure.value.code1 else v.config
              case _ => v.config
  {
    hide Owed, Masked;
    if e.Got? {
      OwedSetActive(v.config, e.m);
    }
  }

  /** The observer's last configure reply is the one in the log. */
  lemma {:induction false} WatchedReply(t: Log)
    ensures Watch(t).config == LatestConfigured(t) && OwesConfigured(Watch(t))
  {
    hide See;
    if t.After? {
      WatchedReply(t.past);
      OneMoreConfigured(Watch(t.past), t.last);
    }
  }

  lemma {:induction false} LegalSetActiveFollows(t: Log, wantOn: bool)
    requires Legal(t, wantOn)
    ensures SetActiveFollows(t)
  {
    if t.After? {
      LegalSetActiveFollows(t.past, wantOn);
      WatchedReply(t.past);
    }
  }

  /** Through the handshake, the wait after the key, retries and the wake path. */
  lemma CommandSetActiveFollows(n: Net, wantOn: bool, mac: Option<seq<int>>)
    requires n.log == Silence
    ensures SetActiveFollows(PowerSetWithWake(n, wantOn, mac).net.log)
  {
    hide PowerSetWithWake;
    CommandObeys(n, wantOn, mac);
    LegalSetActiveFollows(PowerSetWithWake(n, wantOn, mac).net.log, wantOn);
  }
}
