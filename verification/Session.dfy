/**
 The session drivers of `src/session.rs`: the loops over a live connection, each
 with the function of the world's script that it computes.
 */
module Session {
  import opened Wrappers
  import opened Handshake
  import opened Network
  import opened Keycodes

  const KEY_INJECT_GRACE: nat := 1000
  const KEY_INTERVAL: nat := 100
  const SEND_SETTLE: nat := 250
  const CONFIRM_WAIT: nat := 5000
  const POWER_ON_ATTEMPTS: nat := 4
  const POWER_ON_RETRY_BACKOFF: nat := 2000
  const WOL_WAIT: nat := 15000
  const PROBE_PAUSE: nat := 500

  datatype PowerAttempt = PowerAttempt(changed: bool, resulting: bool, observed: Option<bool>)

  datatype PowerOutput = PowerOutput(power: bool, changed: bool, wol: Option<bool>)

  predicate NeedsPowerKey(currentOn: bool, wantOn: bool) { currentOn != wantOn }

  predicate ShouldRetryPowerOn(wantOn: bool, observed: Option<bool>) { wantOn && observed != Some(true) }

  function MapSessionReadError(e: IoError, gotAny: bool): ErrorKind {
    if !gotAny then AuthRejected
    else
      match e
      case TimedOut => ProtocolError
      case WouldBlock => ProtocolError
      case _ => ProtocolError
  }

  // --------------------------------------------------------------- read_power

  datatype Pumped = Pumped(net: Net, hs: Hs, power: Result<bool, ErrorKind>)

  /** The read loop, from handshake state `h` on. */
  function Pump(n: Net, h: Hs, gotAny: bool): Pumped
    decreases |n.recvs|
  {
    if h.power.Some? then Pumped(n, h, Success(h.power.value))
    else
      match n.NextRead().result
      case Failure(e) => Pumped(n.Receive(), h, Failure(MapSessionReadError(e, gotAny)))
      case Success(m) =>
        match Answer(h, m)
        case Failure(kind) => Pumped(n.Receive(), Next(h, m), Failure(kind))
        case Success(None) => Pump(n.Receive(), Next(h, m), true)
        case Success(Some(reply)) =>
          if n.Receive().NextWrite().ok then Pump(n.Receive().Send(reply), Next(h, m), true)
          else Pumped(n.Receive().Send(reply), Next(h, m), Failure(ProtocolError))
  }

  function PowerRead(n: Net): Pumped {
    match n.NextDial()
    case Refused(kind, _) => Pumped(n.Dial(), FRESH, Failure(kind))
    case Accepted(_, _, _) => Pump(n.Dial(), FRESH, false)
  }

  method ReadPower(w: World) returns (r: Result<bool, ErrorKind>, hs: SessionHandshake)
    modifies w
    ensures fresh(hs)
    ensures Pumped(w.net, hs.State(), r) == PowerRead(old(w.net))
  {
    hide HandledByFields;
    hs := new SessionHandshake();
    var refused := w.Dial();
    if refused.Some? {
      return Failure(refused.value), hs;
    }
    var gotAny := false;
    while hs.power.None?
      invariant fresh(hs)
      invariant Pump(w.net, hs.State(), gotAny) == PowerRead(old(w.net))
      decreases hs.power.None?, |w.net.recvs|, if gotAny then 0 else 1
    {
      var msg := w.Receive();
      if msg.Failure? {
        return Failure(MapSessionReadError(msg.error, gotAny)), hs;
      }
      gotAny := true;
      var reply := hs.Handle(msg.value);
      if reply.Failure? {
        return Failure(reply.error), hs;
      }
      if reply.value.Some? {
        var ok := w.Send(reply.value.value);
        if !ok {
          return Failure(ProtocolError), hs;
        }
      }
    }
    r := Success(hs.power.value);
  }

  // -------------------------------------------------------- press_power_once

  datatype Awaited = Awaited(net: Net, hs: Hs)

  /** Handling one message after the key: a reply is attempted, errors are ignored. */
  function Reacted(n: Net, h: Hs, m: RemoteMessage): Net {
    match Answer(h, m)
    case Success(Some(reply)) => n.Receive().Send(reply)
    case _ => n.Receive()
  }

  /** The wait for confirmation, from handshake state `h` on. */
  function Await(n: Net, h: Hs, wantOn: bool, deadline: nat): Awaited
    decreases |n.recvs|
  {
    if n.clock >= deadline then Awaited(n, h)
    else
      match n.NextRead().result
      case Failure(_) => Awaited(n.Receive(), h)
      case Success(m) =>
        if Next(h, m).power == Some(wantOn) then Awaited(Reacted(n, h, m), Next(h, m))
        else Await(Reacted(n, h, m), Next(h, m), wantOn, deadline)
  }

  datatype Pressed = Pressed(net: Net, attempt: Result<PowerAttempt, ErrorKind>)

  /** What the wait starts from: grace period over, key written, power forgotten. */
  function KeyWritten(p: Pumped): Net { p.net.Sleep(KEY_INJECT_GRACE).Send(POWER_KEY) }

  function Confirmation(p: Pumped, wantOn: bool): Awaited {
    var n := KeyWritten(p);
    Await(n, p.hs.(power := None), wantOn, n.clock + CONFIRM_WAIT)
  }

  function Press(n: Net, wantOn: bool): Pressed {
    var p := PowerRead(n);
    match p.power
    case Failure(kind) => Pressed(p.net, Failure(kind))
    case Success(current) =>
      if !NeedsPowerKey(current, wantOn) then
        Pressed(p.net, Success(PowerAttempt(false, current, Some(current))))
      else if !p.net.NextWrite().ok then
        Pressed(KeyWritten(p), Failure(ProtocolError))
      else
        var a := Confirmation(p, wantOn);
        var resulting := if a.hs.power.Some? then a.hs.power.value else wantOn;
        Pressed(a.net, Success(PowerAttempt(true, resulting, a.hs.power)))
  }

  method PressPowerOnce(w: World, wantOn: bool) returns (r: Result<PowerAttempt, ErrorKind>)
    modifies w
    ensures Pressed(w.net, r) == Press(old(w.net), wantOn)
  {
    hide PowerRead, Next, Answer, HandledByFields;
    var current, hs := ReadPower(w);
    if current.Failure? {
      return Failure(current.error);
    }
    var changed := NeedsPowerKey(current.value, wantOn);
    var resulting := current.value;
    var observed := Some(current.value);
    if changed {
      w.Sleep(KEY_INJECT_GRACE);
      var ok := w.Send(POWER_KEY);
      if !ok {
        return Failure(ProtocolError);
      }
      hs.power := None;
      resulting := wantOn;
      var now := w.Now();
      var deadline := now + CONFIRM_WAIT;
      ghost var target := Await(w.net, hs.State(), wantOn, deadline);
      var waiting := true;
      while waiting && now < deadline
        invariant now == w.net.clock
        invariant waiting ==> Await(w.net, hs.State(), wantOn, deadline) == target
        invariant !waiting ==> Awaited(w.net, hs.State()) == target
        decreases waiting, |w.net.recvs|
      {
        var msg := w.Receive();
        if msg.Failure? {
          waiting := false;
        } else {
          var reply := hs.Handle(msg.value);
          match reply {
            case Success(Some(m)) => var _ := w.Send(m);
            case Success(None) =>
            case Failure(_) =>
          }
          if hs.power == Some(wantOn) {
            waiting := false;
          }
        }
        now := w.Now();
      }
      observed := hs.power;
      if hs.power.Some? {
        resulting := hs.power.value;
      }
    }
    r := Success(PowerAttempt(changed, resulting, observed));
  }

  // ---------------------------------------------------------------- set_power

  datatype Powered = Powered(net: Net, output: Result<PowerOutput, ErrorKind>)

  /** The retry loop, after `tries` attempts of which the last completed one is `attempt`. */
  function Retry(n: Net, wantOn: bool, attempt: PowerAttempt, changed: bool, tries: nat): Powered
    decreases POWER_ON_ATTEMPTS - tries
  {
    var done := Success(PowerOutput(attempt.resulting, changed, None));
    if tries >= POWER_ON_ATTEMPTS || !ShouldRetryPowerOn(wantOn, attempt.observed) then Powered(n, done)
    else
      var p := Press(n.Sleep(POWER_ON_RETRY_BACKOFF), wantOn);
      match p.attempt
      case Failure(_) => Powered(p.net, done)
      case Success(next) => Retry(p.net, wantOn, next, changed || next.changed, tries + 1)
  }

  function PowerSet(n: Net, wantOn: bool): Powered {
    var p := Press(n, wantOn);
    match p.attempt
    case Failure(kind) => Powered(p.net, Failure(kind))
    case Success(first) => Retry(p.net, wantOn, first, first.changed, 1)
  }

  method SetPower(w: World, wantOn: bool) returns (r: Result<PowerOutput, ErrorKind>)
    modifies w
    ensures Powered(w.net, r) == PowerSet(old(w.net), wantOn)
  {
    hide Press;
    var first := PressPowerOnce(w, wantOn);
    if first.Failure? {
      return Failure(first.error);
    }
    var attempt := first.value;
    var changed := attempt.changed;
    var tries := 1;
    ghost var target := Retry(w.net, wantOn, attempt, changed, tries);
    while tries < POWER_ON_ATTEMPTS && ShouldRetryPowerOn(wantOn, attempt.observed)
      invariant Retry(w.net, wantOn, attempt, changed, tries) == target
    {
      w.Sleep(POWER_ON_RETRY_BACKOFF);
      var next := PressPowerOnce(w, wantOn);
      if next.Failure? {
        return Success(PowerOutput(attempt.resulting, changed, None));
      }
      changed := changed || next.value.changed;
      attempt := next.value;
      tries := tries + 1;
    }
    r := Success(PowerOutput(attempt.resulting, changed, None));
  }

  // ------------------------------------------------------ set_power_with_wake

  datatype Polled = Polled(net: Net, up: bool)

  function Poll(n: Net, deadline: nat): Polled
    decreases deadline - n.clock
  {
    if n.clock >= deadline then Polled(n, false)
    else if n.NextProbe().ok then Polled(n.Probe(), true)
    else Poll(n.Probe().Sleep(PROBE_PAUSE), deadline)
  }

  method WaitForPort(w: World, budget: nat) returns (r: Result<(), ErrorKind>)
    modifies w
    ensures var p := Poll(old(w.net), old(w.net.clock) + budget);
            w.net == p.net && r == (if p.up then Success(()) else Failure(Unreachable))
  {
    var now := w.Now();
    var deadline := now + budget;
    ghost var target := Poll(w.net, deadline);
    while now < deadline
      invariant now == w.net.clock && Poll(w.net, deadline) == target
      decreases deadline - now
    {
      var up := w.Probe();
      if up {
        return Success(());
      }
      w.Sleep(PROBE_PAUSE);
      now := w.Now();
    }
    r := Failure(Unreachable);
  }

  /** Whether the first run calls for the magic packet. */
  predicate WakesUp(first: Result<PowerOutput, ErrorKind>, wantOn: bool, mac: Option<seq<int>>) {
    mac.Some? && wantOn && first == Failure(Unreachable)
  }

  function PowerSetWithWake(n: Net, wantOn: bool, mac: Option<seq<int>>): Powered {
    var first := PowerSet(n, wantOn);
    if !WakesUp(first.output, wantOn, mac) then first
    else if !first.net.NextWake().ok then Powered(first.net.Broadcast(mac.value), Failure(ProtocolError))
    else
      var woken := first.net.Broadcast(mac.value);
      var polled := Poll(woken, woken.clock + WOL_WAIT);
      if !polled.up then Powered(polled.net, Failure(Unreachable))
      else
        var second := PowerSet(polled.net, wantOn);
        match second.output
        case Failure(kind) => Powered(second.net, Failure(kind))
        case Success(out) => Powered(second.net, Success(out.(wol := Some(true))))
  }

  method SetPowerWithWake(w: World, wantOn: bool, mac: Option<seq<int>>)
    returns (r: Result<PowerOutput, ErrorKind>)
    modifies w
    ensures Powered(w.net, r) == PowerSetWithWake(old(w.net), wantOn, mac)
  {
    hide PowerSet, Poll;
    var first := SetPower(w, wantOn);
    if mac.None? {
      return first;
    }
    if first.Failure? && wantOn && first.error == Unreachable {
      var sent := w.Broadcast(mac.value);
      if !sent {
        return Failure(ProtocolError);
      }
      var up := WaitForPort(w, WOL_WAIT);
      if up.Failure? {
        return Failure(up.error);
      }
      var out := SetPower(w, wantOn);
      if out.Failure? {
        return Failure(out.error);
      }
      return Success(out.value.(wol := Some(true)));
    }
    r := first;
  }

  // ---------------------------------------------------------------- send_keys

  datatype Keyed = Keyed(net: Net, ok: bool)

  /** The key loop, from the i-th key on. */
  function SendFrom(n: Net, keys: seq<int>, i: nat): Keyed
    requires i <= |keys|
    decreases |keys| - i
  {
    if i == |keys| then Keyed(n, true)
    else
      var ready := if i > 0 then n.Sleep(KEY_INTERVAL) else n;
      var after := ready.Send(KeyMessage(keys[i]));
      if ready.NextWrite().ok then SendFrom(after, keys, i + 1) else Keyed(after, false)
  }

  datatype KeysSent = KeysSent(net: Net, result: Result<seq<string>, ErrorKind>)

  /** The names reported for the keys sent. */
  function Names(table: map<int, string>, keys: seq<int>): (names: seq<string>)
    ensures |names| == |keys| && forall i :: 0 <= i < |keys| ==> names[i] == KeycodeName(table, keys[i])
  {
    seq(|keys|, i requires 0 <= i < |keys| => KeycodeName(table, keys[i]))
  }

  function KeysRun(n: Net, table: map<int, string>, keys: seq<int>): KeysSent {
    var p := PowerRead(n);
    match p.power
    case Failure(kind) => KeysSent(p.net, Failure(kind))
    case Success(_) =>
      var s := SendFrom(p.net.Sleep(KEY_INJECT_GRACE), keys, 0);
      if s.ok then KeysSent(s.net.Sleep(SEND_SETTLE), Success(Names(table, keys)))
      else KeysSent(s.net, Failure(ProtocolError))
  }

  method SendKeys(w: World, table: map<int, string>, keys: seq<int>) returns (r: Result<seq<string>, ErrorKind>)
    modifies w
    ensures KeysSent(w.net, r) == KeysRun(old(w.net), table, keys)
  {
    var on, hs := ReadPower(w);
    if on.Failure? {
      return Failure(on.error);
    }
    w.Sleep(KEY_INJECT_GRACE);
    ghost var target := SendFrom(w.net, keys, 0);
    for i := 0 to |keys|
      invariant SendFrom(w.net, keys, i) == target
    {
      if i > 0 {
        w.Sleep(KEY_INTERVAL);
      }
      var ok := w.Send(KeyMessage(keys[i]));
      if !ok {
        return Failure(ProtocolError);
      }
    }
    w.Sleep(SEND_SETTLE);
    r := Success(Names(table, keys));
  }
}
