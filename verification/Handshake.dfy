/**
 The Remote v2 session handshake of `src/session.rs`: one message in, at most one
 reply out, and what is negotiated over any run of messages.
 */
module Handshake {
  import opened Wrappers

  /** An i32 as its 32 bits, two's complement. */
  type i32 = bv32

  /** PING (1) | KEY (2) | POWER (32) | APP_LINK (512). */
  const FEATURES: i32 := 1 | 2 | 32 | 512

  const KEYCODE_POWER: int := 26
  const DIRECTION_SHORT: int := 3

  datatype DeviceInfo = DeviceInfo(
    model: string, vendor: string, unknown1: int, unknown2: string, packageName: string, appVersion: string)

  datatype Configure = Configure(code1: i32, deviceInfo: Option<DeviceInfo>)
  datatype KeyInject = KeyInject(keyCode: int, direction: int)

  /** The fields of a session message that this client reads or writes; any may be absent. */
  datatype RemoteMessage = RemoteMessage(
    configure: Option<Configure>,
    setActive: Option<i32>,
    pingRequest: Option<int>,
    pingResponse: Option<int>,
    start: Option<bool>,
    error: Option<bool>,
    keyInject: Option<KeyInject>,
    appLink: Option<string>)

  const EMPTY := RemoteMessage(None, None, None, None, None, None, None, None)

  const THIS_DEVICE := DeviceInfo("", "", 1, "1", "atv", "0.1.0")

  function ConfigureReply(code1: i32): RemoteMessage {
    EMPTY.(configure := Some(Configure(code1, Some(THIS_DEVICE))))
  }

  function SetActiveReply(active: i32): RemoteMessage { EMPTY.(setActive := Some(active)) }

  function PingReply(val1: int): RemoteMessage { EMPTY.(pingResponse := Some(val1)) }

  function KeyMessage(keyCode: int): RemoteMessage {
    EMPTY.(keyInject := Some(KeyInject(keyCode, DIRECTION_SHORT)))
  }

  const POWER_KEY := KeyMessage(KEYCODE_POWER)

  /** The TV reports that it is off. */
  const OFF_REPORT := EMPTY.(start := Some(false))

  // -------------------------------------------------- what a message means

  /** The message asks for a reply, whatever else it carries. */
  predicate WantsReply(m: RemoteMessage) {
    m.configure.Some? || m.setActive.Some? || m.pingRequest.Some?
  }

  /** A `remote_start` that takes effect: nothing in the same message comes before it. */
  predicate IsStart(m: RemoteMessage) { m.start.Some? && !WantsReply(m) }

  /** A `remote_error` that takes effect. */
  predicate IsError(m: RemoteMessage) { m.error.Some? && m.start.None? && !WantsReply(m) }

  /** What the mask becomes when `m` is handled: a zero `code1` leaves it alone. */
  function Masked(features: i32, m: RemoteMessage): i32 {
    if m.configure.Some? && m.configure.value.code1 != 0 then features & m.configure.value.code1 else features
  }

  /** The one reply `m` is owed when the mask, after `m`, is `features`. */
  function Owed(features: i32, m: RemoteMessage): Option<RemoteMessage> {
    if m.configure.Some? then Some(ConfigureReply(features))
    else if m.setActive.Some? then Some(SetActiveReply(features))
    else if m.pingRequest.Some? then Some(PingReply(m.pingRequest.value))
    else None
  }

  /** The handshake's state as a value. */
  datatype Hs = Hs(power: Option<bool>, features: i32)

  const FRESH := Hs(None, FEATURES)

  function Next(h: Hs, m: RemoteMessage): Hs {
    Hs(if IsStart(m) then m.start else h.power, Masked(h.features, m))
  }

  function Answer(h: Hs, m: RemoteMessage): Result<Option<RemoteMessage>, ErrorKind> {
    if IsError(m) then Failure(ProtocolError) else Success(Owed(Masked(h.features, m), m))
  }

  /**
   What handling `m` must do, by its fields: of configure, set_active, ping request, start and
   error, only the first one present takes effect, and everything else is ignored.
   */
  predicate HandledByFields(before: Hs, m: RemoteMessage, now: Hs, r: Result<Option<RemoteMessage>, ErrorKind>) {
    if m.configure.Some? then
      var offered := m.configure.value.code1;
      var kept := if offered == 0 then before.features else before.features & offered;
      var device := DeviceInfo("", "", 1, "1", "atv", "0.1.0");
      && now == Hs(before.power, kept)
      && r == Success(Some(RemoteMessage(Some(Configure(kept, Some(device))), None, None, None, None, None, None, None)))
    else if m.setActive.Some? then
      && now == before
      && r == Success(Some(RemoteMessage(None, Some(before.features), None, None, None, None, None, None)))
    else if m.pingRequest.Some? then
      && now == before
      && r == Success(Some(RemoteMessage(None, None, None, Some(m.pingRequest.value), None, None, None, None)))
    else if m.start.Some? then now == Hs(Some(m.start.value), before.features) && r == Success(None)
    else now == before && r == if m.error.Some? then Failure(ProtocolError) else Success(None)
  }

  /** The functions the session loops are stated with do just that, from a handshake that offers 1 + 2 + 32 + 512. */
  lemma AnswersByFields(h: Hs, m: RemoteMessage)
    ensures HandledByFields(h, m, Next(h, m), Answer(h, m))
    ensures FRESH == Hs(None, 547)
  {
  }

  class SessionHandshake {
    var power: Option<bool>
    var activeFeatures: i32

    function State(): Hs
      reads this
    {
      Hs(power, activeFeatures)
    }

    constructor ()
      ensures State() == FRESH == Hs(None, 547)
    {
      power, activeFeatures := None, FEATURES;
    }

    method Handle(msg: RemoteMessage) returns (r: Result<Option<RemoteMessage>, ErrorKind>)
      modifies this
      ensures State() == Next(old(State()), msg)
      ensures r == Answer(old(State()), msg)
      ensures HandledByFields(old(State()), msg, State(), r)
    {
      hide HandledByFields;
      AnswersByFields(State(), msg);
      if msg.configure.Some? {
        var configure := msg.configure.value;
        var code1 := if configure.code1 != 0 then activeFeatures & configure.code1 else activeFeatures;
        activeFeatures := code1;
        return Success(Some(ConfigureReply(code1)));
      }
      if msg.setActive.Some? {
        return Success(Some(SetActiveReply(activeFeatures)));
      }
      if msg.pingRequest.Some? {
        return Success(Some(PingReply(msg.pingRequest.value)));
      }
      if msg.start.Some? {
        power := Some(msg.start.value);
        return Success(None);
      }
      if msg.error.Some? {
        return Failure(ProtocolError);
      }
      r := Success(None);
    }
  }

  // ------------------------------------------------------ runs of messages

  /** The handshake's state after handling `ms` in order. */
  function Run(h: Hs, ms: seq<RemoteMessage>): Hs
    decreases |ms|
  {
    if ms == [] then h else Run(Next(h, ms[0]), ms[1..])
  }

  /** The set of feature bits `x` is contained in the set of feature bits `y`. */
  predicate Within(x: i32, y: i32) { x & y == x }

  /** The TV offers the bits `x` in `m`, or `m` does not restrict them. */
  predicate Grants(m: RemoteMessage, x: i32) {
    m.configure.Some? && m.configure.value.code1 != 0 ==> Within(x, m.configure.value.code1)
  }

  lemma WithinBoth(x: bv32, y: bv32, z: bv32)
    requires x & y == x && x & z == x
    ensures x & (y & z) == x
  {
  }

  lemma WithinEach(x: bv32, y: bv32, z: bv32)
    requires x & (y & z) == x
    ensures x & y == x && x & z == x
  {
  }

  lemma WithinAnd(x: i32, y: i32, z: i32)
    ensures Within(x, y & z) <==> Within(x, y) && Within(x, z)
  {
    if Within(x, y & z) {
      WithinEach(x, y, z);
    } else if Within(x, y) && Within(x, z) {
      WithinBoth(x, y, z);
    }
  }

  lemma OneOffer(h: Hs, m: RemoteMessage, x: i32)
    ensures Within(x, Next(h, m).features) <==> Within(x, h.features) && Grants(m, x)
  {
    if m.configure.Some? {
      WithinAnd(x, h.features, m.configure.value.code1);
    }
  }

  /**
   Feature negotiation over any run: a set of bits survives exactly when it was
   supported at the start and every non-zero `code1` handled so far granted it.
   */
  lemma {:induction false} Negotiated(h: Hs, ms: seq<RemoteMessage>, x: i32)
    ensures Within(x, Run(h, ms).features)
            <==> Within(x, h.features) && forall i :: 0 <= i < |ms| ==> Grants(ms[i], x)
    decreases |ms|
  {
    hide Within, Grants, Next;
    if ms != [] {
      Negotiated(Next(h, ms[0]), ms[1..], x);
      OneOffer(h, ms[0], x);
      assert forall i :: 0 < i < |ms| ==> ms[i] == ms[1..][i - 1];
    }
  }

  lemma SameBits(x: i32, y: i32)
    requires Within(x, y) && Within(y, x)
    ensures x == y
  {
  }

  /** The mask does not depend on the order or the number of times offers are made. */
  lemma NegotiationIsASet(ms: seq<RemoteMessage>, ns: seq<RemoteMessage>)
    requires forall m :: m in ms <==> m in ns
    ensures Run(FRESH, ms).features == Run(FRESH, ns).features
  {
    var x, y := Run(FRESH, ms).features, Run(FRESH, ns).features;
    Negotiated(FRESH, ms, x);
    Negotiated(FRESH, ns, x);
    Negotiated(FRESH, ms, y);
    Negotiated(FRESH, ns, y);
    assert forall i :: 0 <= i < |ns| ==> ns[i] in ms;
    assert forall i :: 0 <= i < |ms| ==> ms[i] in ns;
    SameBits(x, y);
  }

  /** No bit is ever regained, and none outside the supported ones appears, for negative `code1` too. */
  lemma {:induction false} NoBitRegained(ms: seq<RemoteMessage>, k: nat)
    requires k <= |ms|
    ensures Within(Run(FRESH, ms).features, Run(FRESH, ms[..k]).features)
    ensures Within(Run(FRESH, ms[..k]).features, FEATURES)
  {
    var x := Run(FRESH, ms).features;
    Negotiated(FRESH, ms, x);
    Negotiated(FRESH, ms[..k], x);
    Negotiated(FRESH, ms[..k], Run(FRESH, ms[..k]).features);
  }
}
