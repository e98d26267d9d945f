/**
 Which messages the loops of `src/session.rs` consume, what they answer and what they
 conclude, stated on the script of a connection by position instead of by loop.
 */
module Observation {
  import opened Wrappers
  import opened Handshake
  import opened Network
  import opened Session
  import opened Discipline

  /** The message is read and, beyond any reply, has no effect on the read loop. */
  predicate Passes(r: Reception) {
    r.result.Success? && !IsStart(r.result.value) && !IsError(r.result.value)
  }

  /** The item is an effective report of `on`. */
  predicate Reports(r: Reception, on: bool) {
    r.result.Success? && IsStart(r.result.value) && r.result.value.start == Some(on)
  }

  /** How many items at the head of the script pass. */
  function Leading(rs: seq<Reception>): (k: nat)
    ensures k <= |rs|
    ensures forall i :: 0 <= i < k ==> Passes(rs[i])
    ensures k < |rs| ==> !Passes(rs[k])
    decreases |rs|
  {
    if rs == [] || !Passes(rs[0]) then 0 else 1 + Leading(rs[1..])
  }

  /** How many of the items want a reply. */
  function Wanting(rs: seq<Reception>): nat
    decreases |rs|
  {
    if rs == [] then 0
    else (if rs[0].result.Success? && WantsReply(rs[0].result.value) then 1 else 0) + Wanting(rs[1..])
  }

  /** The first `count` writes succeed; writes beyond the script do. */
  predicate WritesWell(ws: seq<Effort>, count: nat) {
    forall i :: 0 <= i < count && i < |ws| ==> ws[i].ok
  }

  /** The log of an exchange in which every item is read and answered by what it is owed, in order. */
  function Exchange(t: Log, features: i32, rs: seq<Reception>): Log
    decreases |rs|
  {
    if rs == [] then t
    else
      match rs[0].result
      case Failure(_) => After(t, RecvFailed)
      case Success(m) =>
        var f := Masked(features, m);
        match Owed(f, m)
        case None => Exchange(After(t, Got(m)), f, rs[1..])
        case Some(reply) => Exchange(After(After(t, Got(m)), Sent(reply)), f, rs[1..])
  }

  function Messages(rs: seq<Reception>): seq<RemoteMessage>
    decreases |rs|
  {
    if rs == [] then []
    else if rs[0].result.Success? then [rs[0].result.value] + Messages(rs[1..])
    else Messages(rs[1..])
  }

  lemma OneExchanged(rs: seq<Reception>, k: nat)
    requires 0 < k <= |rs|
    ensures rs[..k][0] == rs[0] && rs[..k][1..] == rs[1..][..k - 1]
  {
  }

  lemma WritesWellTail(ws: seq<Effort>, count: nat)
    ensures WritesWell(ws, count + 1)
            <==> (ws == [] || ws[0].ok) && WritesWell(if ws == [] then [] else ws[1..], count)
  {
    if ws != [] {
      if ws[0].ok && WritesWell(ws[1..], count) {
        assert forall i :: 0 < i < |ws| ==> ws[i] == ws[1..][i - 1];
      }
      if WritesWell(ws, count + 1) {
        assert forall i :: 0 <= i < |ws[1..]| ==> ws[1..][i] == ws[i + 1];
      }
    }
  }

  /** The script seen from the next item, when the first one passes. */
  lemma PassOne(n: Net, h: Hs, gotAny: bool)
    requires n.recvs != [] && Passes(n.recvs[0]) && h.power.None?
    ensures var m := n.recvs[0].result.value;
            var next := Reacted(n, h, m);
            && next.recvs == n.recvs[1..] && Next(h, m).power.None?
            && (if WantsReply(m) then
                  && Answer(h, m) == Success(Owed(Masked(h.features, m), m)) && Owed(Masked(h.features, m), m).Some?
                  && next.sends == (if n.sends == [] then [] else n.sends[1..])
                  && (Pump(n, h, gotAny) ==
                        if n.NextWrite().ok then Pump(next, Next(h, m), true)
                        else Pumped(next, Next(h, m), Failure(ProtocolError)))
                  && (n.NextWrite().ok ==> next.log == After(After(n.log, Got(m)), Sent(Owed(Masked(h.features, m), m).value)))
                else
                  && Owed(Masked(h.features, m), m).None?
                  && next.sends == n.sends && next.log == After(n.log, Got(m))
                  && Pump(n, h, gotAny) == Pump(next, Next(h, m), true))
  {
  }

  /**
   The read loop by position. It succeeds exactly when the first item that does not pass
   is a power report and every reply owed before it could be written. It has then read
   exactly up to that report, answered every message before it by what it was owed, in
   order, and left the rest unread.
   */
  lemma {:induction false} PumpExact(n: Net, h: Hs, gotAny: bool, on: bool)
    requires h.power.None?
    ensures Pump(n, h, gotAny).power == Success(on) <==> ReportsAt(n, Leading(n.recvs), on)
    ensures Pump(n, h, gotAny).power == Success(on) ==> EndsAt(Pump(n, h, gotAny), n, h, Leading(n.recvs))
    decreases |n.recvs|
  {
    hide Passes, Reports, WantsReply, Owed, Masked, Next, Answer, Reacted, IsStart, IsError,
      Exchange, Messages, Run, Wanting, WritesWell, Leading, Pump;
    var k := Leading(n.recvs);
    if k > 0 {
      PassedFirst(n, h, k);
      var m := n.recvs[0].result.value;
      var next := Reacted(n, h, m);
      PassOne(n, h, gotAny);
      WritesWellTail(n.sends, Wanting(n.recvs[1..][..k - 1]));
      PumpExact(next, Next(h, m), true, on);
    } else {
      PumpStops(n, h, gotAny, on);
    }
  }

  /** Item `k` is a report of `on`, and the replies owed to the items before it can be written. */
  predicate ReportsAt(n: Net, k: nat, on: bool)
    requires k <= |n.recvs|
  {
    k < |n.recvs| && Reports(n.recvs[k], on) && WritesWell(n.sends, Wanting(n.recvs[..k]))
  }

  /** The loop has read up to item `k`, exchanged exactly what the items before it called for, and left the rest. */
  predicate EndsAt(p: Pumped, n: Net, h: Hs, k: nat) {
    && k < |n.recvs| && n.recvs[k].result.Success?
    && p.net.recvs == n.recvs[k + 1..]
    && p.net.log == After(Exchange(n.log, h.features, n.recvs[..k]), Got(n.recvs[k].result.value))
    && p.hs == Run(h, Messages(n.recvs[..k + 1]))
  }

  /** What the first item contributes to the positions before the k-th. */
  lemma PassedFirst(n: Net, h: Hs, k: nat)
    requires 0 < k <= |n.recvs| && Passes(n.recvs[0])
    ensures n.recvs[0].result.Success?
    ensures Leading(n.recvs) == 1 + Leading(n.recvs[1..])
    ensures var m := n.recvs[0].result.value;
            var rest := n.recvs[1..];
            && Wanting(n.recvs[..k]) == (if WantsReply(m) then 1 else 0) + Wanting(rest[..k - 1])
            && Next(h, m).features == Masked(h.features, m)
            && Exchange(n.log, h.features, n.recvs[..k]) ==
                 (match Owed(Masked(h.features, m), m)
                  case None => Exchange(After(n.log, Got(m)), Next(h, m).features, rest[..k - 1])
                  case Some(reply) =>
                    Exchange(After(After(n.log, Got(m)), Sent(reply)), Next(h, m).features, rest[..k - 1]))
            && (k < |n.recvs| ==> Run(h, Messages(n.recvs[..k + 1])) == Run(Next(h, m), Messages(rest[..k])))
  {
    OneExchanged(n.recvs, k);
    if k < |n.recvs| {
      OneExchanged(n.recvs, k + 1);
      var m := n.recvs[0].result.value;
      assert ([m] + Messages(n.recvs[1..][..k]))[1..] == Messages(n.recvs[1..][..k]);
    }
  }

  lemma PumpStops(n: Net, h: Hs, gotAny: bool, on: bool)
    requires h.power.None? && Leading(n.recvs) == 0
    ensures Pump(n, h, gotAny).power == Success(on) <==> ReportsAt(n, 0, on)
    ensures Pump(n, h, gotAny).power == Success(on) ==> EndsAt(Pump(n, h, gotAny), n, h, 0)
  {
    if n.recvs != [] && Reports(n.recvs[0], on) {
      var m := n.recvs[0].result.value;
      assert n.recvs[..1][1..] == [] && Messages(n.recvs[..1]) == [m];
      assert Run(h, [m]) == Run(Next(h, m), [m][1..]);
    }
  }

  /** The client certificate counts as rejected exactly when nothing at all could be read. */
  lemma {:induction false} RejectedExactly(n: Net, h: Hs, gotAny: bool)
    requires h.power.None?
    ensures Pump(n, h, gotAny).power == Failure(AuthRejected) <==> !gotAny && n.NextRead().result.Failure?
    decreases |n.recvs|
  {
    if n.NextRead().result.Success? {
      var m := n.NextRead().result.value;
      if Next(h, m).power.None? {
        match Answer(h, m) {
          case Failure(_) =>
          case Success(None) => RejectedExactly(n.Receive(), Next(h, m), true);
          case Success(Some(reply)) => RejectedExactly(n.Receive().Send(reply), Next(h, m), true);
        }
      }
    }
  }

  /**
   `read_power` on every script. A refused connection is reported as it was refused; an accepted
   one is read as `PumpExact` says, and if that fails, nothing having been read means a rejected
   certificate and everything else a protocol error.
   */
  lemma PowerReadExactly(n: Net, on: bool)
    ensures var p := PowerRead(n);
            match n.NextDial()
            case Refused(kind, _) => p.power == Failure(kind) && p.net == n.Dial() && p.hs == FRESH
            case Accepted(rs, ws, _) =>
              var k := Leading(rs);
              && (p.power == Success(on)
                  <==> k < |rs| && Reports(rs[k], on) && WritesWell(ws, Wanting(rs[..k])))
              && (p.power.Failure? ==>
                    p.power.error == if rs == [] || rs[0].result.Failure? then AuthRejected else ProtocolError)
  {
    hide Pump, Leading, Reports, WritesWell, Wanting;
    if n.NextDial().Accepted? {
      PumpExact(n.Dial(), FRESH, false, on);
      PumpErrors(n.Dial(), FRESH, false);
      RejectedExactly(n.Dial(), FRESH, false);
    }
  }

  // ------------------------------------------------------- after the power key

  /** The last effective report among the items, or `before` if there is none. */
  function LastReport(before: Option<bool>, rs: seq<Reception>): Option<bool>
    decreases |rs|
  {
    if rs == [] then before
    else
      LastReport(if rs[0].result.Success? && IsStart(rs[0].result.value) then rs[0].result.value.start else before,
                 rs[1..])
  }

  predicate AllRead(rs: seq<Reception>) { forall i :: 0 <= i < |rs| ==> rs[i].result.Success? }

  /**
   The wait after the key by position: it reads `k` messages; what it observes is the last
   effective report among them; only the last one can be a report of the target; and it
   stopped there, or at a failed read, or because the deadline had passed.
   */
  lemma {:induction false} AwaitExact(n: Net, h: Hs, wantOn: bool, deadline: nat) returns (k: nat)
    requires h.power != Some(wantOn)
    ensures k <= |n.recvs| && AllRead(n.recvs[..k])
    ensures var a := Await(n, h, wantOn, deadline);
            var confirmed := k > 0 && Reports(n.recvs[k - 1], wantOn);
            && a.hs == Run(h, Messages(n.recvs[..k]))
            && a.hs.power == LastReport(h.power, n.recvs[..k])
            && (forall i :: 0 <= i < k - 1 ==> !Reports(n.recvs[i], wantOn))
            && (confirmed <==> a.hs.power == Some(wantOn))
            && (confirmed || a.net.clock >= deadline || k == |n.recvs| || n.recvs[k].result.Failure?)
            && (a.net.recvs == n.recvs[k..]
                || (k < |n.recvs| && n.recvs[k].result.Failure? && a.net.recvs == n.recvs[k + 1..]))
    decreases |n.recvs|
  {
    hide Reacted, Next, Answer, IsStart, Reports;
    if n.clock >= deadline || n.recvs == [] || n.recvs[0].result.Failure? {
      k := 0;
      assert n.recvs[0..] == n.recvs;
    } else {
      var m := n.recvs[0].result.value;
      var next := Reacted(n, h, m);
      ReactedRecvs(n, h, m);
      OneRead(n, h, wantOn);
      if Next(h, m).power == Some(wantOn) {
        k := 1;
      } else {
        var j := AwaitExact(next, Next(h, m), wantOn, deadline);
        k := j + 1;
        OneExchanged(n.recvs, k);
        AwaitShift(n, h, wantOn, deadline, j);
      }
    }
  }

  lemma OneRead(n: Net, h: Hs, wantOn: bool)
    requires n.recvs != [] && n.recvs[0].result.Success? && h.power != Some(wantOn)
    ensures var m := n.recvs[0].result.value;
            && Run(h, Messages(n.recvs[..1])) == Next(h, m)
            && LastReport(h.power, n.recvs[..1]) == Next(h, m).power
            && (Next(h, m).power == Some(wantOn) <==> Reports(n.recvs[0], wantOn))
  {
    var m := n.recvs[0].result.value;
    assert n.recvs[..1][1..] == [];
    assert Messages(n.recvs[..1]) == [m];
    assert Run(h, [m]) == Run(Next(h, m), [m][1..]);
  }

  lemma ReactedRecvs(n: Net, h: Hs, m: RemoteMessage)
    requires n.NextRead().result == Success(m) && n.recvs != []
    ensures Reacted(n, h, m).recvs == n.recvs[1..]
  {
  }

  /** Counting one more message in front shifts every position by one. */
  lemma AwaitShift(n: Net, h: Hs, wantOn: bool, deadline: nat, j: nat)
    requires n.recvs != [] && n.recvs[0].result.Success? && j <= |n.recvs| - 1
    requires Next(h, n.recvs[0].result.value).power != Some(wantOn) && h.power != Some(wantOn)
    requires AllRead(n.recvs[1..][..j])
    requires forall i :: 0 <= i < j - 1 ==> !Reports(n.recvs[1..][i], wantOn)
    ensures AllRead(n.recvs[..j + 1])
    ensures forall i :: 0 <= i < j ==> !Reports(n.recvs[i], wantOn)
    ensures j == 0 ==> !Reports(n.recvs[j], wantOn)
    ensures Messages(n.recvs[..j + 1]) == [n.recvs[0].result.value] + Messages(n.recvs[1..][..j])
    ensures Run(h, Messages(n.recvs[..j + 1])) == Run(Next(h, n.recvs[0].result.value), Messages(n.recvs[1..][..j]))
    ensures LastReport(h.power, n.recvs[..j + 1]) ==
              LastReport(Next(h, n.recvs[0].result.value).power, n.recvs[1..][..j])
  {
    OneExchanged(n.recvs, j + 1);
    var m := n.recvs[0].result.value;
    var rest := Messages(n.recvs[1..][..j]);
    assert ([m] + rest)[1..] == rest;
    assert n.recvs[..j + 1] == [n.recvs[0]] + n.recvs[1..][..j];
    assert forall i :: 0 < i < j ==> n.recvs[i] == n.recvs[1..][i - 1];
  }

  /** The log once the grace period is over and the power key, code 26, was written or not. */
  function Pressed26(t: Log, ok: bool): Log {
    var key := RemoteMessage(None, None, None, None, None, None, Some(KeyInject(26, 3)), None);
    After(After(t, Slept(1000)), if ok then Sent(key) else SendFailed(key))
  }

  /**
   One attempt on every script. Without the power it fails as the reading did; with the target
   already reported it does nothing more; otherwise it waits a second and writes the power key,
   failing as a protocol error if that cannot be written. Then it reads `k` messages: what it
   observes is the last report among them, and it stops at a report of the target, at a failed
   read or 5 s after the key.
   */
  lemma PressExactly(n: Net, wantOn: bool) returns (k: nat)
    ensures var read := PowerRead(n);
            var p := Press(n, wantOn);
            match read.power
            case Failure(kind) => p == Pressed(read.net, Failure(kind))
            case Success(current) =>
              if current == wantOn then
                p == Pressed(read.net, Success(PowerAttempt(false, wantOn, Some(wantOn))))
              else if !read.net.NextWrite().ok then
                p.attempt == Failure(ProtocolError) && p.net.log == Pressed26(read.net.log, false)
              else
                var pressed := KeyWritten(read);
                var rs := read.net.recvs;
                && pressed.log == Pressed26(read.net.log, true) && pressed.recvs == rs
                && k <= |rs| && AllRead(rs[..k])
                && var seen := LastReport(None, rs[..k]);
                   && p.attempt == Success(PowerAttempt(true, if seen.Some? then seen.value else wantOn, seen))
                   && (forall i :: 0 <= i < k - 1 ==> !Reports(rs[i], wantOn))
                   && (seen == Some(wantOn) <==> k > 0 && Reports(rs[k - 1], wantOn))
                   && (seen == Some(wantOn) || p.net.clock >= pressed.clock + 5000 || k == |rs| || rs[k].result.Failure?)
  {
    hide PowerRead, Await, Reports, LastReport;
    k := 0;
    var read := PowerRead(n);
    if read.power.Success? && read.power.value != wantOn && read.net.NextWrite().ok {
      var pressed := KeyWritten(read);
      k := AwaitExact(pressed, read.hs.(power := None), wantOn, pressed.clock + 5000);
    }
  }

  // ------------------------------------------------------------------ send_keys

  /** The log after the keys have been written one after another, with a gap before all but the very first. */
  function Typed(t: Log, keys: seq<int>, first: bool): Log
    decreases |keys|
  {
    if keys == [] then t else Typed(After(Gap(t, first), Sent(KeyMessage(keys[0]))), keys[1..], false)
  }

  function Gap(t: Log, first: bool): Log { if first then t else After(t, Slept(100)) }

  /**
   The key loop writes the keys in order, each 100 ms after the one before, until all are
   written or one cannot be; it succeeds exactly when all were.
   */
  lemma {:induction false} SendFromExact(n: Net, keys: seq<int>, i: nat) returns (j: nat)
    requires i <= |keys|
    ensures i <= j <= |keys|
    ensures var s := SendFrom(n, keys, i);
            var typed := Typed(n.log, keys[i..j], i == 0);
            && (s.ok <==> j == |keys|)
            && (s.ok <==> WritesWell(n.sends, |keys| - i))
            && s.net.log == (if s.ok then typed else After(Gap(typed, j == 0), SendFailed(KeyMessage(keys[j]))))
    decreases |keys| - i
  {
    hide Typed, WritesWell;
    NothingTyped(n.log, i == 0);
    j := i;
    if i == |keys| {
      assert keys[i..j] == [] && WritesWell(n.sends, 0) by { NoWrites(n.sends); }
    } else {
      var ready := if i > 0 then n.Sleep(KEY_INTERVAL) else n;
      assert ready.log == Gap(n.log, i == 0);
      WritesWellTail(n.sends, |keys| - i - 1);
      if ready.NextWrite().ok {
        j := SendFromExact(ready.Send(KeyMessage(keys[i])), keys, i + 1);
        OneTyped(n.log, keys, i, j);
      } else {
        assert keys[i..j] == [];
      }
    }
  }

  lemma NothingTyped(t: Log, first: bool)
    ensures Typed(t, [], first) == t
  {
  }

  lemma NoWrites(ws: seq<Effort>)
    ensures WritesWell(ws, 0)
  {
  }

  lemma OneTyped(t: Log, keys: seq<int>, i: nat, j: nat)
    requires i < j <= |keys|
    ensures Typed(t, keys[i..j], i == 0) == Typed(After(Gap(t, i == 0), Sent(KeyMessage(keys[i]))), keys[i + 1..j], false)
  {
    assert keys[i..j][0] == keys[i] && keys[i..j][1..] == keys[i + 1..j];
  }

  /** The messages delivered, in order. */
  function Delivered(t: Log): seq<RemoteMessage> {
    match t
    case Silence => []
    case After(past, Sent(m)) => Delivered(past) + [m]
    case After(past, _) => Delivered(past)
  }

  /** The messages are short presses of these keys, in this order, and nothing else. */
  predicate ShortPresses(ms: seq<RemoteMessage>, keys: seq<int>) {
    |ms| == |keys| && forall i :: 0 <= i < |keys| ==> ShortPress(ms[i], keys[i])
  }

  lemma {:induction false} TypedDelivers(t: Log, keys: seq<int>, first: bool)
    ensures var ms := Delivered(Typed(t, keys, first));
            |Delivered(t)| <= |ms| && ms[..|Delivered(t)|] == Delivered(t) && ShortPresses(ms[|Delivered(t)|..], keys)
    decreases |keys|
  {
    if keys != [] {
      var next := After(Gap(t, first), Sent(KeyMessage(keys[0])));
      var before := |Delivered(t)|;
      TypedDelivers(next, keys[1..], false);
      assert Delivered(next) == Delivered(t) + [KeyMessage(keys[0])];
      var ms := Delivered(Typed(t, keys, first));
      assert ms[..before + 1][..before] == ms[..before];
      assert ms[..before + 1][before] == ms[before];
      assert ms[before..][1..] == ms[before + 1..];
      forall i | 0 <= i < |keys| ensures ShortPress(ms[before..][i], keys[i]) {
        if i > 0 {
          assert ms[before..][i] == ms[before + 1..][i - 1];
        }
      }
    }
  }

  /** The log once `j` keys were written after a grace period; `ok` says that the next thing was not a failed write. */
  function KeysTyped(t: Log, keys: seq<int>, ok: bool, j: nat): Log
    requires j <= |keys| && (ok <==> j == |keys|)
  {
    var typed := Typed(After(t, Slept(1000)), keys[..j], true);
    if ok then After(typed, Slept(250)) else After(Gap(typed, j == 0), SendFailed(KeyMessage(keys[j])))
  }

  /**
   `send_keys` on every script. Without the power it fails as the reading did. Otherwise, after
   the grace period, it delivers short presses of the first `j` keys, in order and 100 ms apart:
   all of them, then the settle time and their names; or those before the first that cannot be
   written, and a protocol error.
   */
  lemma KeysRunExact(n: Net, table: map<int, string>, keys: seq<int>) returns (j: nat)
    ensures j <= |keys|
    ensures var p := PowerRead(n);
            var r := KeysRun(n, table, keys);
            match p.power
            case Failure(kind) => r == KeysSent(p.net, Failure(kind))
            case Success(_) =>
              && (j == |keys| <==> WritesWell(p.net.sends, |keys|))
              && r.net.log == KeysTyped(p.net.log, keys, j == |keys|, j)
              && r.result == (if j == |keys| then Success(Names(table, keys)) else Failure(ProtocolError))
              && |Delivered(p.net.log)| <= |Delivered(r.net.log)|
              && Delivered(r.net.log)[..|Delivered(p.net.log)|] == Delivered(p.net.log)
              && ShortPresses(Delivered(r.net.log)[|Delivered(p.net.log)|..], keys[..j])
  {
    hide PowerRead, Delivered, Typed;
    j := 0;
    var p := PowerRead(n);
    if p.power.Success? {
      j := SendFromExact(p.net.Sleep(KEY_INJECT_GRACE), keys, 0);
      assert keys[0..j] == keys[..j] && (j == |keys| ==> keys[..j] == keys);
      TypedDelivers(After(p.net.log, Slept(1000)), keys[..j], true);
      OnlySentDelivers(p.net.log, Typed(After(p.net.log, Slept(1000)), keys[..j], true), keys, j);
    }
  }

  lemma OnlySentDelivers(t: Log, typed: Log, keys: seq<int>, j: nat)
    requires j <= |keys|
    ensures Delivered(After(t, Slept(1000))) == Delivered(t)
    ensures Delivered(After(typed, Slept(250))) == Delivered(typed)
    ensures j < |keys| ==> Delivered(After(Gap(typed, j == 0), SendFailed(KeyMessage(keys[j])))) == Delivered(typed)
  {
  }
}
