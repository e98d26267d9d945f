/**
 The wake-up fallback of `src/session.rs`, exactly: when the packet goes out, what the
 polling of the port concludes, and what the command then does and reports.
 */
module Waking {
  import opened Wrappers
  import opened Handshake
  import opened Network
  import opened Session
  import opened Discipline
  import opened Reporting

  // ------------------------------------------------------------ polling the port

  /** The i-th probe from now; probes beyond the script fail at once. */
  function ProbeAt(ps: seq<Effort>, i: nat): Effort { if i < |ps| then ps[i] else Effort(false, 0) }

  /** How long after the start the i-th probe begins, when all before it fail: each is followed by 500 ms. */
  function ProbeStart(ps: seq<Effort>, i: nat): nat
    decreases i
  {
    if i == 0 then 0 else ProbeStart(ps, i - 1) + ProbeAt(ps, i - 1).took + 500
  }

  /** The log after `count` probes that failed, a pause after each. */
  function Missed(t: Log, count: nat): Log
    decreases count
  {
    if count == 0 then t else After(After(Missed(t, count - 1), Probed(false)), Slept(500))
  }

  lemma {:induction false} ProbesShift(ps: seq<Effort>, i: nat)
    ensures var rest := if ps == [] then [] else ps[1..];
            ProbeAt(ps, i + 1) == ProbeAt(rest, i)
            && ProbeStart(ps, i + 1) == ProbeStart(rest, i) + ProbeAt(ps, 0).took + 500
    decreases i
  {
    if i > 0 {
      ProbesShift(ps, i - 1);
    }
  }

  lemma {:induction false} MissedShift(t: Log, count: nat)
    ensures Missed(After(After(t, Probed(false)), Slept(500)), count) == Missed(t, count + 1)
    decreases count
  {
    if count > 0 {
      MissedShift(t, count - 1);
    }
  }

  /** The first `k` probes fail and each of them begins before the deadline. */
  predicate AllMiss(n: Net, deadline: nat, k: nat) {
    forall i :: 0 <= i < k ==> !ProbeAt(n.probes, i).ok && n.clock + ProbeStart(n.probes, i) < deadline
  }

  /**
   The polling by position: `k` probes fail before the deadline; then either the next one begins
   before it too and succeeds, or the deadline has passed. Nothing else is done.
   */
  lemma {:induction false} PollExact(n: Net, deadline: nat) returns (k: nat)
    ensures AllMiss(n, deadline, k)
    ensures var p := Poll(n, deadline);
            var start := n.clock + ProbeStart(n.probes, k);
            && (p.up <==> start < deadline) && (p.up ==> ProbeAt(n.probes, k).ok)
            && p.net.log == (if p.up then After(Missed(n.log, k), Probed(true)) else Missed(n.log, k))
            && p.net.clock == (if p.up then start + ProbeAt(n.probes, k).took else start)
            && p.net.dials == n.dials
    decreases deadline - n.clock
  {
    if n.clock >= deadline || n.NextProbe().ok {
      k := 0;
    } else {
      var next := n.Probe().Sleep(500);
      var j := PollExact(next, deadline);
      k := j + 1;
      ProbesShift(n.probes, j);
      MissedShift(n.log, j);
      forall i | 0 <= i < k ensures !ProbeAt(n.probes, i).ok && n.clock + ProbeStart(n.probes, i) < deadline {
        if i > 0 {
          ProbesShift(n.probes, i - 1);
          assert !ProbeAt(next.probes, i - 1).ok;
        }
      }
    }
  }

  /** Some probe would succeed that begins before the deadline. */
  ghost predicate ComesUp(n: Net, deadline: nat) {
    exists i: nat :: ProbeAt(n.probes, i).ok && n.clock + ProbeStart(n.probes, i) < deadline
  }

  lemma {:induction false} StartsInOrder(ps: seq<Effort>, i: nat, j: nat)
    requires i <= j
    ensures ProbeStart(ps, i) <= ProbeStart(ps, j)
    decreases j
  {
    if i < j {
      StartsInOrder(ps, i, j - 1);
    }
  }

  /** `wait_for_port` succeeds exactly when the port comes up in time. */
  lemma PollSucceedsExactly(n: Net, deadline: nat)
    ensures Poll(n, deadline).up <==> ComesUp(n, deadline)
  {
    var k := PollExact(n, deadline);
    if ComesUp(n, deadline) {
      var i: nat :| ProbeAt(n.probes, i).ok && n.clock + ProbeStart(n.probes, i) < deadline;
      if k <= i {
        StartsInOrder(n.probes, k, i);
      }
    }
  }

  // ------------------------------------------------- nothing that happened is undone

  lemma {:induction false} PastTrans(t: Log, u: Log, v: Log)
    requires PastOf(t, u) && PastOf(u, v)
    ensures PastOf(t, v)
  {
    if u != v {
      PastTrans(t, u, v.past);
    }
  }

  lemma OneMore(t: Log, u: Log, e: Event)
    requires PastOf(t, u)
    ensures PastOf(t, After(u, e))
  {
  }

  lemma {:induction false} PumpAdds(n: Net, h: Hs, gotAny: bool, t: Log)
    requires PastOf(t, n.log)
    ensures PastOf(t, Pump(n, h, gotAny).net.log)
    decreases |n.recvs|
  {
    hide Answer, Next;
    if h.power.None? && n.NextRead().result.Success? {
      var m := n.NextRead().result.value;
      match Answer(h, m) {
        case Failure(_) =>
        case Success(None) => PumpAdds(n.Receive(), Next(h, m), true, t);
        case Success(Some(reply)) =>
          OneMore(t, n.Receive().log, n.Receive().Send(reply).log.last);
          PumpAdds(n.Receive().Send(reply), Next(h, m), true, t);
      }
    }
  }

  lemma {:induction false} AwaitAdds(n: Net, h: Hs, wantOn: bool, deadline: nat, t: Log)
    requires PastOf(t, n.log)
    ensures PastOf(t, Await(n, h, wantOn, deadline).net.log)
    decreases |n.recvs|
  {
    hide Next;
    if n.clock < deadline && n.NextRead().result.Success? {
      var m := n.NextRead().result.value;
      ReactedShrinks(n, h, m);
      assert PastOf(t, Reacted(n, h, m).log);
      if Next(h, m).power != Some(wantOn) {
        AwaitAdds(Reacted(n, h, m), Next(h, m), wantOn, deadline, t);
      }
    }
  }

  lemma PressAdds(n: Net, wantOn: bool, t: Log)
    requires PastOf(t, n.Dial().log)
    ensures PastOf(t, Press(n, wantOn).net.log)
  {
    hide Pump, Await;
    PumpAdds(n.Dial(), FRESH, false, t);
    var p := PowerRead(n);
    var k := KeyWritten(p);
    OneMore(t, p.net.log, Slept(1000));
    AwaitAdds(k, p.hs.(power := None), wantOn, k.clock + CONFIRM_WAIT, t);
  }

  lemma {:induction false} AttemptsAdd(n: Net, wantOn: bool, left: nat, t: Log)
    requires left > 0 && PastOf(t, n.Dial().log)
    ensures PastOf(t, AfterMade(n, wantOn, left).log)
    decreases left
  {
    hide Press;
    PressAdds(n, wantOn, t);
    var p := Press(n, wantOn);
    var next := p.net.Sleep(2000);
    OneMore(t, p.net.log, Slept(2000));
    if left > 1 && p.attempt.Success? && ShouldRetryPowerOn(wantOn, p.attempt.value.observed) {
      OneMore(t, next.log, next.Dial().log.last);
      AttemptsAdd(next, wantOn, left - 1, t);
    }
  }

  // ------------------------------------------------------------- the whole fallback

  /** The next connection attempt finds nobody there. */
  predicate Asleep(n: Net) { n.NextDial().Refused? && n.NextDial().kind == Unreachable }

  /** The log when the packet has gone out. */
  function PacketOut(mac: seq<int>): Log { After(After(Silence, DialFailed(Unreachable)), Woke(mac)) }

  /**
   `set_power_with_wake`, from the first event to the report. The packet goes out exactly when on
   is wanted, an address is given, the first connect finds the TV unreachable and the broadcast
   works. Then the port is polled for 15 s; if it comes up, a new connection attempt follows and
   `set_power` runs from there, and the report is that run's with the wake-up noted. In every
   other case the report and the world are those of one `set_power`.
   */
  lemma WakeExactly(n: Net, wantOn: bool, mac: Option<seq<int>>) returns (k: nat, up: Net)
    requires n.log == Silence
    ensures var r := PowerSetWithWake(n, wantOn, mac);
            var asked := wantOn && mac.Some? && Asleep(n);
            && Packets(r.net.log) == (if asked && n.NextWake().ok then [mac.value] else [])
            && (!asked ==> ReportsAttempts(r.output, Made(n, wantOn, 4), wantOn, None) && r.net == AfterMade(n, wantOn, 4))
            && (asked && !n.NextWake().ok ==>
                  && r.output == Failure(ProtocolError)
                  && r.net.log == After(After(Silence, DialFailed(Unreachable)), WakeFailed))
            && (asked && n.NextWake().ok ==> WokenUp(n, mac.value, r, k, up))
  {
    hide PowerSet, Poll, Packets, Made, AfterMade, ReportsAttempts, ComesUp, AllMiss;
    k, up := 0, n;
    CommandObeys(n, wantOn, mac);
    UnreachableOnlyFromDial(n, wantOn);
    ReportIsTrue(n, wantOn);
    MakesTheAttempts(n, wantOn);
    if wantOn && mac.Some? && Asleep(n) {
      BeforeAndAfterPacket(mac.value);
      if n.NextWake().ok {
        k, up := WakeContinues(n, mac.value);
        PacketsGrow(PacketOut(mac.value), PowerSetWithWake(n, true, mac).net.log);
      }
    }
  }

  lemma BeforeAndAfterPacket(mac: seq<int>)
    ensures Packets(PacketOut(mac)) == [mac]
    ensures Packets(After(After(Silence, DialFailed(Unreachable)), WakeFailed)) == []
  {
  }

  lemma {:induction false} PacketsGrow(t: Log, u: Log)
    requires PastOf(t, u)
    ensures |Packets(t)| <= |Packets(u)|
  {
    if t != u {
      PacketsGrow(t, u.past);
    }
  }

  lemma {:induction false} MissedAdds(t: Log, count: nat)
    ensures PastOf(t, Missed(t, count))
    decreases count
  {
    if count > 0 {
      MissedAdds(t, count - 1);
    }
  }

  /** After a packet that went out. */
  lemma WakeContinues(n: Net, mac: seq<int>) returns (k: nat, up: Net)
    requires n.log == Silence && Asleep(n) && n.NextWake().ok
    ensures var r := PowerSetWithWake(n, true, Some(mac));
            WokenUp(n, mac, r, k, up) && PastOf(PacketOut(mac), r.net.log)
  {
    hide PowerSet, PowerSetWithWake, Poll, Made, AfterMade, ReportsAttempts, ComesUp, AllMiss, Missed, PastOf, WakeRun;
    var woken := n.Dial().Broadcast(mac);
    var deadline := woken.clock + WOL_WAIT;
    WakeUnfolds(n, mac);
    k := PollExact(woken, deadline);
    PollSucceedsExactly(woken, deadline);
    up := Poll(woken, deadline).net;
    MissedAdds(woken.log, k);
    if Poll(woken, deadline).up {
      OneMore(PacketOut(mac), Missed(woken.log, k), Probed(true));
      RunFollows(up, PowerSetWithWake(n, true, Some(mac)), PacketOut(mac));
    }
  }

  /** `r` is a run of `set_power` from `up`, with the wake-up noted. */
  predicate WakeRun(up: Net, r: Powered) {
    var second := PowerSet(up, true);
    && r.net == second.net
    && r.output == match second.output
                   case Failure(kind) => Failure(kind)
                   case Success(out) => Success(out.(wol := Some(true)))
  }

  lemma WakeUnfolds(n: Net, mac: seq<int>)
    requires Asleep(n) && n.NextWake().ok
    ensures var r := PowerSetWithWake(n, true, Some(mac));
            var woken := n.Dial().Broadcast(mac);
            var polled := Poll(woken, woken.clock + WOL_WAIT);
            if polled.up then WakeRun(polled.net, r) else r == Powered(polled.net, Failure(Unreachable))
  {
    hide PowerSet, Poll;
    UnreachableOnlyFromDial(n, true);
  }

  lemma RunFollows(up: Net, r: Powered, t: Log)
    requires WakeRun(up, r) && PastOf(t, up.log)
    ensures r.net == AfterMade(up, true, 4) && ReportsAttempts(r.output, Made(up, true, 4), true, Some(true))
    ensures PastOf(up.Dial().log, r.net.log) && PastOf(t, r.net.log)
  {
    hide PowerSet, Made, AfterMade, ReportsAttempts;
    ReportIsTrue(up, true);
    MakesTheAttempts(up, true);
    ReportsWake(PowerSet(up, true).output, Made(up, true, 4));
    OneMore(t, up.log, up.Dial().log.last);
    AttemptsAdd(up, true, 4, up.Dial().log);
    PastTrans(t, up.Dial().log, AfterMade(up, true, 4).log);
  }

  lemma ReportsWake(out: Result<PowerOutput, ErrorKind>, made: seq<Result<PowerAttempt, ErrorKind>>)
    requires ReportsAttempts(out, made, true, None)
    ensures var noted := match out case Failure(e) => Failure(e) case Success(o) => Success(o.(wol := Some(true)));
            ReportsAttempts(noted, made, true, Some(true))
  {
  }

  /** The packet went out; `k` probes failed; and the port came up, leaving the world as `up`, or did not. */
  ghost predicate WokenUp(n: Net, mac: seq<int>, r: Powered, k: nat, up: Net) {
    var woken := n.Dial().Broadcast(mac);
    && AllMiss(woken, woken.clock + 15000, k)
    && if ComesUp(woken, woken.clock + 15000) then
         && up.log == After(Missed(PacketOut(mac), k), Probed(true)) && up.dials == n.Dial().dials
         && PastOf(up.Dial().log, r.net.log)
         && r.net == AfterMade(up, true, 4) && ReportsAttempts(r.output, Made(up, true, 4), true, Some(true))
       else
         k > 0 && r.output == Failure(Unreachable) && r.net.log == Missed(PacketOut(mac), k)
  }
}
