/**
 How long the commands take on a script whose single operations are bounded, and that
 the read loop has no bound of its own.
 */
module Timing {
  import opened Wrappers
  import opened Handshake
  import opened Network
  import opened Session
  import opened Observation
  import opened Discipline

  /** Every read takes at most `r` and every write at most `w` milliseconds. */
  predicate Prompt(rs: seq<Reception>, ws: seq<Effort>, r: nat, w: nat) {
    && (forall i :: 0 <= i < |rs| ==> rs[i].took <= r)
    && (forall i :: 0 <= i < |ws| ==> ws[i].took <= w)
  }

  lemma PromptAfter(n: Net, h: Hs, m: RemoteMessage, r: nat, w: nat)
    requires Prompt(n.recvs, n.sends, r, w)
    ensures Prompt(n.Receive().recvs, n.Receive().sends, r, w)
    ensures Prompt(n.Send(m).recvs, n.Send(m).sends, r, w)
    ensures n.Receive().clock <= n.clock + r && n.Send(m).clock <= n.clock + w
    ensures n.NextRead().result == Success(m) ==>
              var next := Reacted(n, h, m);
              Prompt(next.recvs, next.sends, r, w) && next.clock <= n.clock + r + w
  {
  }

  /** The wait after the key lasts less than 5 s plus one read and one reply. */
  lemma {:induction false} AwaitIsBounded(n: Net, h: Hs, wantOn: bool, deadline: nat, r: nat, w: nat)
    requires Prompt(n.recvs, n.sends, r, w)
    ensures var a := Await(n, h, wantOn, deadline);
            n.clock <= a.net.clock && (n.clock < deadline ==> a.net.clock < deadline + r + w)
            && (n.clock >= deadline ==> a.net == n)
    decreases |n.recvs|
  {
    if n.clock < deadline {
      PromptAfter(n, h, EMPTY, r, w);
      if n.NextRead().result.Success? {
        var m := n.NextRead().result.value;
        PromptAfter(n, h, m, r, w);
        if Next(h, m).power != Some(wantOn) {
          AwaitIsBounded(Reacted(n, h, m), Next(h, m), wantOn, deadline, r, w);
        }
      }
    }
  }

  /** The wait ends unconfirmed only at its deadline or at a failed read. */
  lemma {:induction false} AwaitGivesUp(n: Net, h: Hs, wantOn: bool, deadline: nat)
    requires h.power != Some(wantOn)
    ensures var a := Await(n, h, wantOn, deadline);
            a.hs.power != Some(wantOn) ==>
              a.net.clock >= deadline || (a.net.log.After? && a.net.log.last == RecvFailed)
    decreases |n.recvs|
  {
    if n.clock < deadline && n.NextRead().result.Success? {
      var m := n.NextRead().result.value;
      if Next(h, m).power != Some(wantOn) {
        AwaitGivesUp(Reacted(n, h, m), Next(h, m), wantOn, deadline);
      }
    }
  }

  /** An attempt leaves a key unconfirmed only 5 s after writing it, or because reading failed. */
  lemma UnconfirmedWaitsOut(n: Net, wantOn: bool)
    ensures var p := Press(n, wantOn);
            p.attempt.Success? && p.attempt.value.changed && p.attempt.value.observed != Some(wantOn) ==>
              || p.net.clock >= KeyWritten(PowerRead(n)).clock + 5000
              || (p.net.log.After? && p.net.log.last == RecvFailed)
  {
    hide PowerRead, Await;
    var p := PowerRead(n);
    var k := KeyWritten(p);
    AwaitGivesUp(k, p.hs.(power := None), wantOn, k.clock + CONFIRM_WAIT);
  }

  // ---------------------------------------------------------------- handshakes

  function ReadTime(rs: seq<Reception>): nat
    decreases |rs|
  {
    if rs == [] then 0 else rs[0].took + ReadTime(rs[1..])
  }

  /** The time of the first `count` writes; those beyond the script are instant. */
  function WriteTime(ws: seq<Effort>, count: nat): nat
    decreases count
  {
    if count == 0 || ws == [] then 0 else ws[0].took + WriteTime(ws[1..], count - 1)
  }

  /** The first `s` items were consumed, with one write for each of them that wants a reply. */
  predicate Spent(n: Net, s: int, after: Net) {
    && 0 <= s <= |n.recvs| && after.recvs == n.recvs[s..]
    && var writes := Wanting(n.recvs[..s]);
       && after.clock == n.clock + ReadTime(n.recvs[..s]) + WriteTime(n.sends, writes)
       && after.sends == if writes <= |n.sends| then n.sends[writes..] else []
  }

  /** The last of the first `s` items wants a reply, and the write of it is the first one to fail. */
  predicate BrokenAt(n: Net, s: int) {
    && 0 < s <= |n.recvs| && n.recvs[s - 1].result.Success? && WantsReply(n.recvs[s - 1].result.value)
    && var writes := Wanting(n.recvs[..s]);
       0 < writes <= |n.sends| && !n.sends[writes - 1].ok && WritesWell(n.sends, writes - 1)
  }

  /**
   The read loop from `n` ended as `p` after `s` items: the passing ones at the head of the
   script and the one that ends them, or fewer because a write failed on the way.
   */
  predicate EndsAfter(n: Net, p: Pumped, s: int) {
    var k := Leading(n.recvs);
    && Spent(n, s, p.net) && p.net.dials == n.dials
    && if WritesWell(n.sends, Wanting(n.recvs[..k])) then s == (if k < |n.recvs| then k + 1 else k)
       else s <= k && BrokenAt(n, s) && p.power.Failure?
  }

  /**
   How long the read loop takes, by position: the time of the items it consumes and of one
   write for each of them that wants a reply.
   */
  lemma {:induction false} PumpTakes(n: Net, h: Hs, gotAny: bool)
    requires h.power.None?
    ensures var p := Pump(n, h, gotAny); EndsAfter(n, p, |n.recvs| - |p.net.recvs|)
    decreases |n.recvs|
  {
    hide Passes, WantsReply, Owed, Masked, Next, Answer, Reacted, Wanting, WritesWell, Leading, Pump, IsStart, IsError,
      ReadTime, WriteTime, Spent, BrokenAt, EndsAfter;
    if Leading(n.recvs) > 0 {
      LeadingHead(n);
      var m := n.recvs[0].result.value;
      PassOne(n, h, gotAny);
      if WantsReply(m) && !n.NextWrite().ok {
        BrokenAtOnce(n, h, Pump(n, h, gotAny));
      } else {
        PumpTakes(Reacted(n, h, m), Next(h, m), true);
        EndsOneLater(n, h, Pump(n, h, gotAny));
      }
    } else {
      EndsAtOnce(n, h, gotAny);
    }
  }

  lemma LeadingHead(n: Net)
    requires Leading(n.recvs) > 0
    ensures n.recvs != [] && Passes(n.recvs[0]) && n.recvs[0].result.Success?
    ensures var k := Leading(n.recvs);
            && k <= |n.recvs| && Leading(n.recvs[1..]) == k - 1
            && Wanting(n.recvs[..k]) ==
                 (if WantsReply(n.recvs[0].result.value) then 1 else 0) + Wanting(n.recvs[1..][..k - 1])
  {
    OneExchanged(n.recvs, Leading(n.recvs));
  }

  /** What the first item adds to the time of the items after it. */
  lemma SpentMore(n: Net, h: Hs, s: int, after: Net)
    requires n.recvs != [] && Passes(n.recvs[0])
    requires WantsReply(n.recvs[0].result.value) ==> n.NextWrite().ok
    requires var next := Reacted(n, h, n.recvs[0].result.value); Spent(next, s, after)
    ensures Spent(n, s + 1, after) && |n.recvs| - |after.recvs| == s + 1
  {
    OneExchanged(n.recvs, s + 1);
    assert n.recvs[s + 1..] == n.recvs[1..][s..];
  }

  lemma BrokenLater(n: Net, h: Hs, s: int)
    requires n.recvs != [] && Passes(n.recvs[0])
    requires WantsReply(n.recvs[0].result.value) ==> n.NextWrite().ok
    requires BrokenAt(Reacted(n, h, n.recvs[0].result.value), s)
    ensures BrokenAt(n, s + 1)
  {
    OneExchanged(n.recvs, s + 1);
    assert n.recvs[1..][s - 1] == n.recvs[s];
    WritesWellTail(n.sends, Wanting(n.recvs[1..][..s]) - 1);
  }

  lemma PassedLeaves(n: Net, h: Hs)
    requires n.recvs != [] && Passes(n.recvs[0])
    ensures var m := n.recvs[0].result.value;
            var next := Reacted(n, h, m);
            && next.recvs == n.recvs[1..] && next.dials == n.dials
            && next.sends == if WantsReply(m) && n.sends != [] then n.sends[1..] else n.sends
  {
  }

  /** Whether the replies before the report can be written is decided the same way one item later. */
  lemma WellOneLater(n: Net, h: Hs)
    requires Leading(n.recvs) > 0 && n.recvs != [] && n.recvs[0].result.Success?
    requires WantsReply(n.recvs[0].result.value) ==> n.NextWrite().ok
    ensures var next := Reacted(n, h, n.recvs[0].result.value);
            && Leading(n.recvs) <= |n.recvs| && Leading(next.recvs) == Leading(n.recvs) - 1
            && next.dials == n.dials && |next.recvs| == |n.recvs| - 1
            && (WritesWell(n.sends, Wanting(n.recvs[..Leading(n.recvs)]))
                <==> WritesWell(next.sends, Wanting(next.recvs[..Leading(next.recvs)])))
  {
    hide WritesWell, Wanting, Leading, Passes, WantsReply, Reacted;
    LeadingHead(n);
    PassedLeaves(n, h);
    WritesWellTail(n.sends, Wanting(n.recvs[1..][..Leading(n.recvs) - 1]));
  }

  lemma EndsOneLater(n: Net, h: Hs, p: Pumped)
    requires Leading(n.recvs) > 0 && n.recvs != [] && n.recvs[0].result.Success?
    requires WantsReply(n.recvs[0].result.value) ==> n.NextWrite().ok
    requires var next := Reacted(n, h, n.recvs[0].result.value); EndsAfter(next, p, |next.recvs| - |p.net.recvs|)
    ensures EndsAfter(n, p, |n.recvs| - |p.net.recvs|)
  {
    hide Spent, BrokenAt, WritesWell, Wanting, Leading, Passes, WantsReply, Reacted;
    LeadingHead(n);
    WellOneLater(n, h);
    var next := Reacted(n, h, n.recvs[0].result.value);
    SpentMore(n, h, |next.recvs| - |p.net.recvs|, p.net);
    if BrokenAt(next, |next.recvs| - |p.net.recvs|) {
      BrokenLater(n, h, |next.recvs| - |p.net.recvs|);
    }
  }

  lemma BrokenAtOnce(n: Net, h: Hs, p: Pumped)
    requires Leading(n.recvs) > 0 && n.recvs != [] && n.recvs[0].result.Success?
    requires WantsReply(n.recvs[0].result.value) && !n.NextWrite().ok
    requires p.net == Reacted(n, h, n.recvs[0].result.value) && p.power.Failure?
    ensures EndsAfter(n, p, |n.recvs| - |p.net.recvs|)
  {
    LeadingHead(n);
    OneExchanged(n.recvs, 1);
    assert n.recvs[1..][..0] == [];
  }

  lemma EndsAtOnce(n: Net, h: Hs, gotAny: bool)
    requires h.power.None? && Leading(n.recvs) == 0
    ensures var p := Pump(n, h, gotAny); EndsAfter(n, p, |n.recvs| - |p.net.recvs|)
  {
    if n.recvs == [] {
      assert Spent(n, 0, n.Receive());
    } else {
      OneExchanged(n.recvs, 1);
      assert n.recvs[1..][..0] == [] && n.recvs[..1][1..] == [];
      assert Spent(n, 1, n.Receive());
    }
  }

  // ------------------------------------------------------------- whole commands

  /**
   How fast a TV is: connecting takes at most `connect`; at most `ahead` messages come before
   a session's first report (or error or failed read); reads up to it take at most `opening`
   each, later ones `read`, and writes `write`.
   */
  datatype Pace = Pace(connect: nat, ahead: nat, opening: nat, read: nat, write: nat)

  predicate Brisk(d: Dial, c: Pace) {
    d.took <= c.connect
    && (d.Accepted? ==>
          && var k := Leading(d.recvs);
          && k <= c.ahead
          && (forall i :: 0 <= i < |d.recvs| ==> d.recvs[i].took <= if i <= k then c.opening else c.read)
          && (forall i :: 0 <= i < |d.sends| ==> d.sends[i].took <= c.write))
  }

  predicate AllBrisk(dials: seq<Dial>, c: Pace) {
    forall i :: 0 <= i < |dials| ==> Brisk(dials[i], c)
  }

  /** Connecting and reading the power: one more read than messages ahead, a write for each of these. */
  function HandshakeTime(c: Pace): nat { c.connect + (c.ahead + 1) * c.opening + c.ahead * c.write }

  /** One attempt: handshake, grace period, key, and less than one read and one write after the 5 s. */
  function AttemptTime(c: Pace): nat {
    HandshakeTime(c) + KEY_INJECT_GRACE + c.write + (CONFIRM_WAIT + c.read + c.write - 1)
  }

  lemma {:induction false} ReadTimeBound(rs: seq<Reception>, r: nat)
    requires forall i :: 0 <= i < |rs| ==> rs[i].took <= r
    ensures ReadTime(rs) <= |rs| * r
    decreases |rs|
  {
    if rs != [] {
      ReadTimeBound(rs[1..], r);
      OneMore(|rs| - 1, r);
    }
  }

  lemma {:induction false} WriteTimeBound(ws: seq<Effort>, count: nat, w: nat)
    requires forall i :: 0 <= i < |ws| ==> ws[i].took <= w
    ensures WriteTime(ws, count) <= count * w
    decreases count
  {
    if count > 0 {
      OneMore(count - 1, w);
      if ws != [] {
        WriteTimeBound(ws[1..], count - 1, w);
      }
    }
  }

  /** Of the items up to the one that ends the handshake, only the passing ones can want a reply. */
  lemma {:induction false} WantingWithin(rs: seq<Reception>, s: nat)
    requires s <= |rs| && s <= Leading(rs) + 1
    ensures Wanting(rs[..s]) <= Leading(rs)
    decreases |rs|
  {
    if s > 0 {
      OneExchanged(rs, s);
      if Passes(rs[0]) {
        WantingWithin(rs[1..], s - 1);
      } else {
        assert rs[1..][..0] == [];
      }
    }
  }

  lemma OneMore(k: nat, each: nat)
    ensures (k + 1) * each == each + k * each && k * each >= 0
  {
  }

  lemma MoreTakesLonger(j: nat, k: nat, each: nat)
    requires j <= k
    ensures j * each <= k * each
  {
  }

  /** The time spent on `s` items of a brisk script, and what remains of it. */
  lemma SpentBound(n: Net, s: int, after: Net, c: Pace)
    requires Spent(n, s, after) && s <= Leading(n.recvs) + 1
    requires Brisk(Accepted(n.recvs, n.sends, 0), c)
    ensures after.clock <= n.clock + (c.ahead + 1) * c.opening + c.ahead * c.write
    ensures s == Leading(n.recvs) + 1 ==> Prompt(after.recvs, after.sends, c.read, c.write)
  {
    var k := Leading(n.recvs);
    var writes := Wanting(n.recvs[..s]);
    WantingWithin(n.recvs, s);
    ReadTimeBound(n.recvs[..s], c.opening);
    WriteTimeBound(n.sends, writes, c.write);
    MoreTakesLonger(s, c.ahead + 1, c.opening);
    MoreTakesLonger(writes, c.ahead, c.write);
  }

  lemma BriskDial(n: Net, c: Pace)
    requires AllBrisk(n.dials, c)
    ensures AllBrisk(n.Dial().dials, c) && n.Dial().clock <= n.clock + c.connect
    ensures n.NextDial().Accepted? ==> Brisk(Accepted(n.Dial().recvs, n.Dial().sends, 0), c)
  {
    assert n.dials != [] ==> Brisk(n.dials[0], c);
  }

  /** `read_power` ends within the handshake's time of a brisk script. */
  lemma PowerReadTakes(n: Net, c: Pace)
    requires AllBrisk(n.dials, c)
    ensures var p := PowerRead(n);
            && p.net.clock <= n.clock + HandshakeTime(c) && AllBrisk(p.net.dials, c)
            && (p.power.Success? ==> Prompt(p.net.recvs, p.net.sends, c.read, c.write))
  {
    hide Pump, Spent, Brisk, AllBrisk, Prompt, BrokenAt, WritesWell;
    BriskDial(n, c);
    MoreTakesLonger(0, c.ahead + 1, c.opening);
    MoreTakesLonger(0, c.ahead, c.write);
    if n.NextDial().Accepted? {
      var d := n.Dial();
      PumpTakes(d, FRESH, false);
      var p := Pump(d, FRESH, false);
      if p.power.Success? {
        SuccessConsumes(d, FRESH, false);
      }
      SpentBound(d, |d.recvs| - |p.net.recvs|, p.net, c);
    }
  }

  /** A successful read loop has consumed the report. */
  lemma SuccessConsumes(n: Net, h: Hs, gotAny: bool)
    requires h.power.None? && Pump(n, h, gotAny).power.Success?
    ensures |n.recvs| - |Pump(n, h, gotAny).net.recvs| == Leading(n.recvs) + 1
  {
    PumpExact(n, h, gotAny, Pump(n, h, gotAny).power.value);
  }

  lemma {:induction false} AwaitKeepsDials(n: Net, h: Hs, wantOn: bool, deadline: nat)
    ensures Await(n, h, wantOn, deadline).net.dials == n.dials
    decreases |n.recvs|
  {
    if n.clock < deadline && n.NextRead().result.Success? {
      var m := n.NextRead().result.value;
      if Next(h, m).power != Some(wantOn) {
        AwaitKeepsDials(Reacted(n, h, m), Next(h, m), wantOn, deadline);
      }
    }
  }

  lemma PressTakes(n: Net, wantOn: bool, c: Pace)
    requires AllBrisk(n.dials, c)
    ensures var p := Press(n, wantOn);
            p.net.clock <= n.clock + AttemptTime(c) && AllBrisk(p.net.dials, c)
  {
    hide PowerRead, Await, Prompt, AllBrisk, HandshakeTime;
    PowerReadTakes(n, c);
    var p := PowerRead(n);
    if p.power.Success? {
      var g := p.net.Sleep(KEY_INJECT_GRACE);
      PromptAfter(g, p.hs, POWER_KEY, c.read, c.write);
      var k := KeyWritten(p);
      AwaitIsBounded(k, p.hs.(power := None), wantOn, k.clock + CONFIRM_WAIT, c.read, c.write);
      AwaitKeepsDials(k, p.hs.(power := None), wantOn, k.clock + CONFIRM_WAIT);
    }
  }

  lemma {:induction false} RetryTakes(
    n: Net, wantOn: bool, attempt: PowerAttempt, changed: bool, tries: nat, c: Pace)
    requires AllBrisk(n.dials, c) && tries <= POWER_ON_ATTEMPTS
    ensures var left := if ShouldRetryPowerOn(wantOn, attempt.observed) then POWER_ON_ATTEMPTS - tries else 0;
            Retry(n, wantOn, attempt, changed, tries).net.clock
            <= n.clock + left * (POWER_ON_RETRY_BACKOFF + AttemptTime(c))
    decreases POWER_ON_ATTEMPTS - tries
  {
    hide Press, AllBrisk, AttemptTime;
    if tries < POWER_ON_ATTEMPTS && ShouldRetryPowerOn(wantOn, attempt.observed) {
      var rested := n.Sleep(POWER_ON_RETRY_BACKOFF);
      PressTakes(rested, wantOn, c);
      var p := Press(rested, wantOn);
      var each := POWER_ON_RETRY_BACKOFF + AttemptTime(c);
      OneMore(POWER_ON_ATTEMPTS - tries - 1, each);
      if p.attempt.Success? {
        RetryTakes(p.net, wantOn, p.attempt.value, changed || p.attempt.value.changed, tries + 1, c);
      }
    }
  }

  /**
   A whole `on` takes at most four attempts and three back-offs of 2 s, a whole `off` one
   attempt. With later reads of 3 s and everything else instant that is 41 996 ms.
   */
  lemma PowerSetTakes(n: Net, wantOn: bool, c: Pace)
    requires AllBrisk(n.dials, c)
    ensures var took := PowerSet(n, wantOn).net.clock - n.clock;
            && took <= (if wantOn then 4 * AttemptTime(c) + 6000 else AttemptTime(c))
            && (c == INSTANT_HANDSHAKE ==> took <= 41996)
  {
    hide Press, Retry, AllBrisk;
    PressTakes(n, wantOn, c);
    var p := Press(n, wantOn);
    if p.attempt.Success? {
      RetryTakes(p.net, wantOn, p.attempt.value, p.attempt.value.changed, 1, c);
    }
  }

  /** Everything is instant except the reads after the report, which may take 3 s. */
  const INSTANT_HANDSHAKE := Pace(0, 0, 0, 3000, 0)

  // --------------------------------------------------------- the bound is reached

  function Ping(took: nat): Reception { Reception(Success(EMPTY.(pingRequest := Some(1))), took) }

  /** Reports off, pings at 2500 ms and at 4999 ms after the key, and then stays silent for 3 s. */
  const SLOW_SESSION :=
    Accepted([Reception(Success(OFF_REPORT), 0), Ping(2500), Ping(2499), Reception(Failure(TimedOut), 3000)], [], 0)

  /** The wait that starts at the first ping. */
  lemma SlowWait(n: Net, h: Hs)
    requires n.recvs == SLOW_SESSION.recvs[1..] && n.sends == [] && h.power.None?
    ensures var a := Await(n, h, true, n.clock + CONFIRM_WAIT);
            a.hs.power.None? && a.net.clock == n.clock + 7999
  {
    var deadline := n.clock + CONFIRM_WAIT;
    var ping := EMPTY.(pingRequest := Some(1));
    var n1 := Reacted(n, h, ping);
    var h1 := Next(h, ping);
    assert n.NextRead() == Ping(2500) && n1.clock == n.clock + 2500 && n1.recvs == SLOW_SESSION.recvs[2..];
    assert Await(n, h, true, deadline) == Await(n1, h1, true, deadline);
    var n2 := Reacted(n1, h1, ping);
    var h2 := Next(h1, ping);
    assert n1.NextRead() == Ping(2499) && n2.clock == n1.clock + 2499 && n2.recvs == SLOW_SESSION.recvs[3..];
    assert Await(n1, h1, true, deadline) == Await(n2, h2, true, deadline);
    assert n2.NextRead() == Reception(Failure(TimedOut), 3000);
  }

  lemma SlowSession(n: Net)
    requires n.dials != [] && n.dials[0] == SLOW_SESSION
    ensures var p := Press(n, true);
            && p.attempt == Success(PowerAttempt(true, true, None))
            && p.net.dials == n.dials[1..] && p.net.clock == n.clock + 8999
  {
    hide Await;
    var d := n.Dial();
    assert d.NextRead() == Reception(Success(OFF_REPORT), 0);
    assert Answer(FRESH, OFF_REPORT) == Success(None);
    assert Pump(d, FRESH, false) == Pump(d.Receive(), Next(FRESH, OFF_REPORT), true);
    var p := PowerRead(n);
    assert p.power == Success(false) && p.net == d.Receive();
    var k := KeyWritten(p);
    SlowWait(k, p.hs.(power := None));
    AwaitKeepsDials(k, p.hs.(power := None), true, k.clock + CONFIRM_WAIT);
  }

  /** The bound for reads of 3 s is exact: four such sessions make `on` take 41 996 ms. */
  lemma SlowestOn() returns (n: Net)
    ensures AllBrisk(n.dials, INSTANT_HANDSHAKE)
    ensures PowerSet(n, true).output.Success? && PowerSet(n, true).net.clock == n.clock + 41996
  {
    hide Press;
    n := Net(0, seq(4, _ => SLOW_SESSION), [], [], [], [], Silence);
    assert Leading(SLOW_SESSION.recvs) == 0;
    SlowSession(n);
    var p1 := Press(n, true);
    var n1 := p1.net.Sleep(POWER_ON_RETRY_BACKOFF);
    SlowSession(n1);
    var p2 := Press(n1, true);
    var n2 := p2.net.Sleep(POWER_ON_RETRY_BACKOFF);
    SlowSession(n2);
    var p3 := Press(n2, true);
    var n3 := p3.net.Sleep(POWER_ON_RETRY_BACKOFF);
    SlowSession(n3);
    var p4 := Press(n3, true);
    assert Retry(p4.net, true, p4.attempt.value, true, 4).net == p4.net;
    assert Retry(p3.net, true, p3.attempt.value, true, 3).net == p4.net;
    assert Retry(p2.net, true, p2.attempt.value, true, 2).net == p4.net;
    assert Retry(p1.net, true, p1.attempt.value, true, 1).net == p4.net;
  }

  // --------------------------------------------------------------- wait_for_port

  function Probes(t: Log): nat {
    match t
    case Silence => 0
    case After(past, e) => Probes(past) + if e.Probed? then 1 else 0
  }

  /** Polling stops at the first success, or within one probe and one pause of the deadline. */
  lemma {:induction false} PollIsBounded(n: Net, deadline: nat, c: nat)
    requires forall i :: 0 <= i < |n.probes| ==> n.probes[i].took <= c
    ensures var p := Poll(n, deadline);
            && (n.clock < deadline ==> p.net.clock < deadline + c + PROBE_PAUSE)
            && (n.clock >= deadline ==> p.net == n)
            && (!p.up ==> p.net.clock >= deadline)
            && PROBE_PAUSE * (Probes(p.net.log) - Probes(n.log))
                 <= (if n.clock < deadline then deadline - n.clock + PROBE_PAUSE - 1 else 0)
    decreases deadline - n.clock
  {
    if n.clock < deadline && !n.NextProbe().ok {
      PollIsBounded(n.Probe().Sleep(PROBE_PAUSE), deadline, c);
    }
  }

  /** `wait_for_port` after a magic packet: at most 30 polls, over within 16.5 s, and not given up before 15 s. */
  lemma WaitForPortIsBounded(n: Net)
    requires forall i :: 0 <= i < |n.probes| ==> n.probes[i].took <= 1000
    ensures var p := Poll(n, n.clock + WOL_WAIT);
            && p.net.clock < n.clock + 16500 && Probes(p.net.log) <= Probes(n.log) + 30
            && (!p.up ==> p.net.clock >= n.clock + 15000)
  {
    PollIsBounded(n, n.clock + WOL_WAIT, 1000);
  }

  lemma {:induction false} PollKeepsDials(n: Net, deadline: nat)
    ensures Poll(n, deadline).net.dials == n.dials
    decreases deadline - n.clock
  {
    if n.clock < deadline && !n.NextProbe().ok {
      PollKeepsDials(n.Probe().Sleep(PROBE_PAUSE), deadline);
    }
  }

  /** The whole `on` command with a wake-up: one failed connect, the packet, the polling, and one `on`. */
  lemma CommandTakes(n: Net, mac: Option<seq<int>>, c: Pace)
    requires AllBrisk(n.dials, c)
    requires forall i :: 0 <= i < |n.wakes| ==> n.wakes[i].took <= c.write
    requires forall i :: 0 <= i < |n.probes| ==> n.probes[i].took <= 1000
    ensures PowerSetWithWake(n, true, mac).net.clock - n.clock
            < c.connect + c.write + 16500 + 4 * AttemptTime(c) + 6000
  {
    hide PowerSet, Poll, AllBrisk, AttemptTime;
    PowerSetTakes(n, true, c);
    var first := PowerSet(n, true);
    if WakesUp(first.output, true, mac) {
      UnreachableOnlyFromDial(n, true);
      BriskDial(n, c);
      var woken := n.Dial().Broadcast(mac.value);
      WaitForPortIsBounded(woken);
      PollKeepsDials(woken, woken.clock + WOL_WAIT);
      var polled := Poll(woken, woken.clock + WOL_WAIT);
      PowerSetTakes(polled.net, true, c);
    }
  }

  // ------------------------------------------------------ no bound on read_power

  /** `count` pings, each arriving after nine seconds, and then a power report. */
  function Pinging(count: nat): seq<Reception> {
    if count == 0 then [Reception(Success(EMPTY.(start := Some(true))), 0)]
    else [Reception(Success(EMPTY.(pingRequest := Some(count))), 9000)] + Pinging(count - 1)
  }

  lemma {:induction false} PumpFollowsPings(n: Net, h: Hs, gotAny: bool, count: nat)
    requires n.recvs == Pinging(count) && n.sends == [] && h.power.None?
    ensures var p := Pump(n, h, gotAny);
            p.power == Success(true) && p.net.clock == n.clock + 9000 * count
    decreases count
  {
    var m := n.NextRead().result.value;
    if count > 0 {
      assert Answer(h, m) == Success(Some(PingReply(count)));
      assert n.Receive().Send(PingReply(count)).recvs == Pinging(count - 1);
      PumpFollowsPings(n.Receive().Send(PingReply(count)), Next(h, m), true, count - 1);
    } else {
      assert Next(h, m).power == Some(true) && Answer(h, m) == Success(None);
    }
  }

  /** For every length of time there is a TV whose reads are all under 10 s that keeps `read_power` busy for longer. */
  lemma ReadPowerHasNoDeadline(time: nat) returns (n: Net)
    ensures AllReadsUnder(n.dials, 10000)
    ensures var p := PowerRead(n); p.power == Success(true) && p.net.clock > n.clock + time
  {
    var count := time / 9000 + 1;
    PingsUnder(count);
    n := Net(0, [Accepted(Pinging(count), [], 0)], [], [], [], [], Silence);
    PumpFollowsPings(n.Dial(), FRESH, false, count);
  }

  predicate AllReadsUnder(dials: seq<Dial>, r: nat) {
    forall i :: 0 <= i < |dials| && dials[i].Accepted? ==> Prompt(dials[i].recvs, dials[i].sends, r, 0)
  }

  lemma {:induction false} PingsUnder(count: nat)
    ensures Prompt(Pinging(count), [], 10000, 0)
  {
    if count > 0 {
      PingsUnder(count - 1);
    }
  }
}
