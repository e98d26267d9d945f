/** The pairing flow of `src/pairing.rs`: its message handler, the driver, and whole runs. */
module Pairing {
  import opened Wrappers
  import opened Secret

  const STATUS_OK: int := 200
  const ENCODING_HEXADECIMAL: int := 3
  const ROLE_INPUT: int := 1

  datatype Encoding = Encoding(kind: int, symbolLength: int)
  datatype PairingRequest = PairingRequest(serviceName: string, clientName: Option<string>)
  datatype Options = Options(inputEncodings: seq<Encoding>, outputEncodings: seq<Encoding>, preferredRole: Option<int>)
  datatype Configuration = Configuration(encoding: Encoding, clientRole: int)

  /** The pairing envelope; the contents of what only the TV sends are not read by the client. */
  datatype OuterMessage = OuterMessage(
    protocolVersion: int,
    status: int,
    pairingRequest: Option<PairingRequest>,
    pairingRequestAck: Option<()>,
    options: Option<Options>,
    configuration: Option<Configuration>,
    configurationAck: Option<()>,
    secret: Option<seq<byte>>,
    secretAck: Option<()>)

  const OUR_ENVELOPE := OuterMessage(2, STATUS_OK, None, None, None, None, None, None, None)

  const HEX6 := Encoding(ENCODING_HEXADECIMAL, 6)

  const INITIAL := OUR_ENVELOPE.(pairingRequest := Some(PairingRequest("atvremote", Some("atv"))))

  const OUR_OPTIONS := OUR_ENVELOPE.(options := Some(Options([HEX6], [], Some(ROLE_INPUT))))

  const OUR_CONFIGURATION := OUR_ENVELOPE.(configuration := Some(Configuration(HEX6, ROLE_INPUT)))

  function SecretMessage(secret: seq<byte>): OuterMessage { OUR_ENVELOPE.(secret := Some(secret)) }

  // --------------------------------------------------------------- the handler

  datatype Kind = RequestAck | OptionsOffer | ConfigAck | SecretAck | Unknown

  /** What a message counts as: the first of these that it carries. */
  function KindOf(m: OuterMessage): Kind {
    if m.pairingRequestAck.Some? then RequestAck
    else if m.options.Some? then OptionsOffer
    else if m.configurationAck.Some? then ConfigAck
    else if m.secretAck.Some? then SecretAck
    else Unknown
  }

  /** The message is taken: its status is OK and it is of a known kind. */
  predicate Taken(m: OuterMessage) { m.status == STATUS_OK && KindOf(m) != Unknown }

  /** The reply a taken message is owed. */
  function Owed(m: OuterMessage): Option<OuterMessage> {
    match KindOf(m)
    case RequestAck => Some(OUR_OPTIONS)
    case OptionsOffer => Some(OUR_CONFIGURATION)
    case _ => None
  }

  function Handled(m: OuterMessage): Result<Option<OuterMessage>, ErrorKind> {
    if m.status != STATUS_OK then Failure(PairingFailed)
    else if KindOf(m) == Unknown then Failure(ProtocolError)
    else Success(Owed(m))
  }

  /** The TV shows its code from the first taken configuration acknowledgement on. */
  predicate ShowsCode(awaiting: bool, m: OuterMessage) { awaiting || (Taken(m) && KindOf(m) == ConfigAck) }

  // What the client writes, field by field.

  predicate IsRequest(m: OuterMessage) {
    m == OuterMessage(2, 200, Some(PairingRequest("atvremote", Some("atv"))), None, None, None, None, None, None)
  }

  /** Six hexadecimal symbols, with the client as the input device. */
  predicate IsOptions(m: OuterMessage) {
    m == OuterMessage(2, 200, None, None, Some(Options([Encoding(3, 6)], [], Some(1))), None, None, None, None)
  }

  predicate IsConfiguration(m: OuterMessage) {
    m == OuterMessage(2, 200, None, None, None, Some(Configuration(Encoding(3, 6), 1)), None, None, None)
  }

  predicate IsSecret(m: OuterMessage, secret: seq<byte>) {
    m == OuterMessage(2, 200, None, None, None, None, None, Some(secret), None)
  }

  /** The message carries one of the four kinds the client knows. */
  predicate KnownByFields(m: OuterMessage) {
    m.pairingRequestAck.Some? || m.options.Some? || m.configurationAck.Some? || m.secretAck.Some?
  }

  /**
   What handling `m` must do, by its fields: any status but 200 is a pairing failure; of the four
   known kinds the first one present takes effect; and a message of none is a protocol error.
   */
  predicate HandledByFields(
    awaiting: bool, m: OuterMessage, now: bool, r: Result<Option<OuterMessage>, ErrorKind>)
  {
    if m.status != 200 then now == awaiting && r == Failure(PairingFailed)
    else if m.pairingRequestAck.Some? then now == awaiting && r.Success? && r.value.Some? && IsOptions(r.value.value)
    else if m.options.Some? then now == awaiting && r.Success? && r.value.Some? && IsConfiguration(r.value.value)
    else if m.configurationAck.Some? then now && r == Success(None)
    else now == awaiting && r == if m.secretAck.Some? then Success(None) else Failure(ProtocolError)
  }

  /** The functions the runs are stated with do just that. */
  lemma HandlesByFields(awaiting: bool, m: OuterMessage)
    ensures HandledByFields(awaiting, m, ShowsCode(awaiting, m), Handled(m))
    ensures Taken(m) <==> m.status == 200 && KnownByFields(m)
    ensures IsRequest(INITIAL)
  {
  }

  class PairingFlow {
    var awaitingCode: bool

    constructor ()
      ensures !awaitingCode
    {
      awaitingCode := false;
    }

    method Handle(msg: OuterMessage) returns (r: Result<Option<OuterMessage>, ErrorKind>)
      modifies this
      ensures r == Handled(msg)
      ensures awaitingCode == ShowsCode(old(awaitingCode), msg)
      ensures HandledByFields(old(awaitingCode), msg, awaitingCode, r)
      ensures old(awaitingCode) ==> awaitingCode
    {
      hide HandledByFields;
      HandlesByFields(awaitingCode, msg);
      if msg.status != STATUS_OK {
        return Failure(PairingFailed);
      }
      if msg.pairingRequestAck.Some? {
        return Success(Some(OUR_OPTIONS));
      } else if msg.options.Some? {
        return Success(Some(OUR_CONFIGURATION));
      } else if msg.configurationAck.Some? {
        awaitingCode := true;
        return Success(None);
      } else if msg.secretAck.Some? {
        return Success(None);
      } else {
        return Failure(ProtocolError);
      }
    }
  }

  // ------------------------------------------------------------------ the driver

  datatype Event =
    | In(m: OuterMessage)
    | InFailed
    | Out(m: OuterMessage)
    | OutFailed(m: OuterMessage)
    | CodeRead(code: string)

  type Log = Trace<Event>

  /** The connection's script: reads (`None` fails, and so does reading on) and write outcomes. */
  datatype Line = Line(recvs: seq<Option<OuterMessage>>, sends: seq<bool>, log: Log)
  {
    function Note(e: Event): Line { this.(log := After(log, e)) }

    function NextRead(): Option<OuterMessage> { if recvs == [] then None else recvs[0] }

    function Receive(): Line {
      this.(recvs := if recvs == [] then [] else recvs[1..])
          .Note(match NextRead() case Some(m) => In(m) case None => InFailed)
    }

    predicate NextWrite() { sends == [] || sends[0] }

    function Send(m: OuterMessage): Line {
      this.(sends := if sends == [] then [] else sends[1..]).Note(if NextWrite() then Out(m) else OutFailed(m))
    }
  }

  class Connection {
    var line: Line

    method Receive() returns (m: Option<OuterMessage>)
      modifies this
      ensures line == old(line).Receive() && m == old(line).NextRead()
    {
      m := line.NextRead();
      line := line.Receive();
    }

    method Send(m: OuterMessage) returns (ok: bool)
      modifies this
      ensures line == old(line).Send(m) && ok == old(line).NextWrite()
    {
      ok := line.NextWrite();
      line := line.Send(m);
    }

    method Note(e: Event)
      modifies this
      ensures line == old(line).Note(e)
    {
      line := line.Note(e);
    }
  }

  /** The hash, this client's key, the key in the TV's certificate (if it sent one), and the line read from stdin. */
  datatype Setting = Setting(
    sha: seq<byte> -> seq<byte>, client: CertKey, server: Option<CertKey>, entered: Option<string>)

  datatype Ended = Ended(line: Line, result: Result<(), ErrorKind>)

  /** The message loop, until the TV shows its code. */
  function Exchange(n: Line, awaiting: bool): Ended
    decreases |n.recvs|
  {
    if awaiting then Ended(n, Success(()))
    else
      match n.NextRead()
      case None => Ended(n.Receive(), Failure(ProtocolError))
      case Some(m) =>
        match Handled(m)
        case Failure(kind) => Ended(n.Receive(), Failure(kind))
        case Success(None) => Exchange(n.Receive(), ShowsCode(awaiting, m))
        case Success(Some(reply)) =>
          if n.Receive().NextWrite() then Exchange(n.Receive().Send(reply), ShowsCode(awaiting, m))
          else Ended(n.Receive().Send(reply), Failure(ProtocolError))
  }

  /** From the code on: the secret, and one more message. */
  function Conclude(n: Line, s: Setting): Ended {
    match s.entered
    case None => Ended(n, Failure(PairingFailed))
    case Some(code) =>
      var read := n.Note(CodeRead(code));
      if s.server.None? then Ended(read, Failure(ProtocolError))
      else
        match Computed(s.sha, s.client, s.server.value, code)
        case Failure(kind) => Ended(read, Failure(kind))
        case Success(digest) =>
          var sent := read.Send(SecretMessage(digest));
          if !read.NextWrite() then Ended(sent, Failure(ProtocolError))
          else
            match sent.NextRead()
            case None => Ended(sent.Receive(), Failure(PairingFailed))
            case Some(ack) =>
              match Handled(ack)
              case Failure(kind) => Ended(sent.Receive(), Failure(kind))
              case Success(_) => Ended(sent.Receive(), Success(()))
  }

  function Paired(n: Line, s: Setting): Ended {
    var asked := n.Send(INITIAL);
    if !n.NextWrite() then Ended(asked, Failure(ProtocolError))
    else
      var e := Exchange(asked, false);
      match e.result
      case Failure(kind) => Ended(e.line, Failure(kind))
      case Success(_) => Conclude(e.line, s)
  }

  /** `pair`, once connected; success stands for `paired: true`. */
  method Pair(conn: Connection, s: Setting) returns (r: Result<(), ErrorKind>)
    requires IsHash(s.sha)
    modifies conn
    ensures Ended(conn.line, r) == Paired(old(conn.line), s)
  {
    hide Computed;
    var flow := new PairingFlow();
    var ok := conn.Send(INITIAL);
    if !ok {
      return Failure(ProtocolError);
    }
    ghost var target := Exchange(conn.line, false);
    while !flow.awaitingCode
      invariant fresh(flow)
      invariant Exchange(conn.line, flow.awaitingCode) == target
      decreases !flow.awaitingCode, |conn.line.recvs|
    {
      var msg := conn.Receive();
      if msg.None? {
        return Failure(ProtocolError);
      }
      var reply := flow.Handle(msg.value);
      if reply.Failure? {
        return Failure(reply.error);
      }
      if reply.value.Some? {
        ok := conn.Send(reply.value.value);
        if !ok {
          return Failure(ProtocolError);
        }
      }
    }
    if s.entered.None? {
      return Failure(PairingFailed);
    }
    conn.Note(CodeRead(s.entered.value));
    if s.server.None? {
      return Failure(ProtocolError);
    }
    var secret := ComputePairingSecret(s.sha, s.client, s.server.value, s.entered.value);
    if secret.Failure? {
      return Failure(secret.error);
    }
    ok := conn.Send(SecretMessage(secret.value));
    if !ok {
      return Failure(ProtocolError);
    }
    var ack := conn.Receive();
    if ack.None? {
      return Failure(PairingFailed);
    }
    var done := flow.Handle(ack.value);
    if done.Failure? {
      return Failure(done.error);
    }
    r := Success(());
  }

  // ------------------------------------------------------------------ whole runs

  /**
   What an observer of the log knows: whether anything was written, the reply owed, whether the
   run is over, whether the TV shows its code, the code read, and whether the secret was written.
   */
  datatype View = View(
    begun: bool, owed: Option<OuterMessage>, over: bool, shown: bool, code: Option<string>, secret: bool)

  const NOTHING := View(false, None, false, false, None, false)

  function See(v: View, e: Event): View {
    match e
    case In(m) => v.(owed := if Taken(m) then Owed(m) else None, over := !Taken(m) || v.secret, shown := ShowsCode(v.shown, m))
    case InFailed => v.(over := true)
    case Out(m) => v.(begun := true, owed := None, secret := v.secret || m.secret.Some?)
    case OutFailed(m) => v.(begun := true, over := true)
    case CodeRead(code) => v.(code := Some(code))
  }

  function Watch(t: Log): View {
    match t
    case Silence => NOTHING
    case After(past, e) => See(Watch(past), e)
  }

  /**
   The rules. Nothing happens once a message was refused, a read or write failed or the message
   after the secret came. The first write is the request. Until the code is shown each message
   is read with no reply owed and each write is the owed reply. The secret is written once, after
   an accepted configuration acknowledgement and a code accepted for the two certificates.
   */
  predicate MayHappen(v: View, e: Event, s: Setting) {
    && !v.over
    && match e
       case In(_) => v.begun && v.owed.None? && (v.shown ==> v.secret)
       case InFailed => v.begun && v.owed.None? && (v.shown ==> v.secret)
       case Out(m) => MayWrite(v, m, s)
       case OutFailed(m) => MayWrite(v, m, s)
       case CodeRead(code) => v.shown && v.owed.None? && v.code.None? && s.entered == Some(code)
  }

  predicate MayWrite(v: View, m: OuterMessage, s: Setting) {
    if !v.begun then m == INITIAL
    else if v.owed.Some? then m == v.owed.value
    else
      && v.shown && !v.secret && v.code.Some? && s.server.Some?
      && Accepted(s.sha, s.client, s.server.value, v.code.value)
      && m == SecretMessage(s.sha(Material(s.client, s.server.value, Nonce(v.code.value))))
  }

  predicate Legal(t: Log, s: Setting) {
    t.After? ==> Legal(t.past, s) && MayHappen(Watch(t.past), t.last, s)
  }

  /** The loop keeps the rules and ends with the code shown, or with an error. */
  lemma {:induction false} ExchangeObeys(n: Line, awaiting: bool, s: Setting)
    requires Legal(n.log, s) && Watch(n.log) == View(true, None, false, awaiting, None, false)
    ensures var e := Exchange(n, awaiting);
            && Legal(e.line.log, s)
            && (e.result.Success? ==> Watch(e.line.log) == View(true, None, false, true, None, false))
    decreases |n.recvs|
  {
    if !awaiting && n.NextRead().Some? {
      var m := n.NextRead().value;
      OwedIsNoSecret(m);
      match Handled(m) {
        case Failure(_) =>
        case Success(None) => ExchangeObeys(n.Receive(), ShowsCode(awaiting, m), s);
        case Success(Some(reply)) =>
          if n.Receive().NextWrite() {
            ExchangeObeys(n.Receive().Send(reply), ShowsCode(awaiting, m), s);
          }
      }
    }
  }

  lemma OwedIsNoSecret(m: OuterMessage)
    ensures Owed(m).Some? ==> Owed(m).value.secret.None?
  {
  }

  /**
   Every pairing run keeps the rules. It ends with `paired` exactly when the secret went out and
   one further taken message came, of any known kind; that message came right after the secret.
   */
  lemma PairObeys(n: Line, s: Setting)
    requires n.log == Silence
    ensures var e := Paired(n, s);
            && Legal(e.line.log, s)
            && (e.result.Success?
                <==> Watch(e.line.log).secret && e.line.log.last.In? && Taken(e.line.log.last.m))
            && (e.result.Success? ==>
                  e.line.log.past.After? && e.line.log.past.last.Out? && e.line.log.past.last.m.secret.Some?)
  {
    hide Accepted, Material, Taken;
    PairKeepsRules(n, s);
    PairedByLog(n, s);
    LegalRun(Paired(n, s).line.log, s);
  }

  lemma PairKeepsRules(n: Line, s: Setting)
    requires n.log == Silence
    ensures var e := Paired(n, s);
            && Legal(e.line.log, s)
            && (e.result.Success? ==>
                  && Watch(e.line.log).secret
                  && e.line.log.After? && e.line.log.last.In? && Taken(e.line.log.last.m)
                  && e.line.log.past.After? && e.line.log.past.last.Out? && e.line.log.past.last.m.secret.Some?)
  {
    hide Accepted, Material;
    var asked := n.Send(INITIAL);
    assert Legal(asked.log, s);
    if n.NextWrite() {
      ExchangeObeys(asked, false, s);
      var e := Exchange(asked, false);
      if e.result.Success? {
        ConcludeObeys(e.line, s);
      }
    }
  }

  lemma ConcludeObeys(n: Line, s: Setting)
    requires Legal(n.log, s) && Watch(n.log) == View(true, None, false, true, None, false)
    ensures var e := Conclude(n, s);
            && Legal(e.line.log, s)
            && (e.result.Success? ==>
                  && Watch(e.line.log).secret && Watch(e.line.log).shown
                  && e.line.log.After? && e.line.log.last.In? && Taken(e.line.log.last.m)
                  && e.line.log.past.After? && e.line.log.past.last.Out? && e.line.log.past.last.m.secret.Some?)
  {
    hide Accepted, Material, Legal, Watch;
    if s.entered.Some? {
      var read := n.Note(CodeRead(s.entered.value));
      LogStep(n.log, CodeRead(s.entered.value), s);
      if s.server.Some? && Computed(s.sha, s.client, s.server.value, s.entered.value).Success? {
        var digest := Computed(s.sha, s.client, s.server.value, s.entered.value).value;
        var sent := read.Send(SecretMessage(digest));
        LogStep(read.log, sent.log.last, s);
        if read.NextWrite() {
          LogStep(sent.log, sent.Receive().log.last, s);
        }
      }
    }
  }

  lemma LogStep(t: Log, e: Event, s: Setting)
    requires Legal(t, s) && MayHappen(Watch(t), e, s)
    ensures Legal(After(t, e), s) && Watch(After(t, e)) == See(Watch(t), e)
  {
  }

  /** Secrets written in a log. */
  function Secrets(t: Log): nat {
    match t
    case Silence => 0
    case After(past, Out(m)) => Secrets(past) + if m.secret.Some? then 1 else 0
    case After(past, _) => Secrets(past)
  }

  /** Every message read but the last had an OK status and a known kind. */
  predicate TakenSoFar(t: Log) {
    match t
    case Silence => true
    case After(past, In(m)) => TakenSoFar(past) && Taken(m)
    case After(past, _) => TakenSoFar(past)
  }

  /** A configuration acknowledgement was taken. */
  predicate Acknowledged(t: Log) {
    match t
    case Silence => false
    case After(past, In(m)) => Acknowledged(past) || (Taken(m) && KindOf(m) == ConfigAck)
    case After(past, _) => Acknowledged(past)
  }

  lemma {:induction false} LegalRun(t: Log, s: Setting)
    requires Legal(t, s)
    ensures Secrets(t) == (if Watch(t).secret then 1 else 0)
    ensures Watch(t).shown <==> Acknowledged(t)
    ensures Watch(t).secret ==> Acknowledged(t)
    ensures !Watch(t).over ==> TakenSoFar(t)
    ensures t.After? ==> TakenSoFar(t.past)
    ensures !Watch(t).begun ==> Watch(t) == NOTHING
    ensures Watch(t).owed.Some? ==> Watch(t).owed.value.secret.None?
  {
    if t.After? {
      LegalRun(t.past, s);
      if t.last.In? {
        OwedIsNoSecret(t.last.m);
      }
    }
  }

  /** The secret stands for a code that was read and accepted for the two keys. */
  lemma {:induction false} SecretWasAccepted(t: Log, s: Setting)
    requires Legal(t, s)
    ensures Watch(t).code.Some? ==> Watch(t).code == s.entered
    ensures Watch(t).secret ==>
              s.entered.Some? && s.server.Some? && Accepted(s.sha, s.client, s.server.value, s.entered.value)
  {
    hide Accepted, Material;
    if t.After? {
      SecretWasAccepted(t.past, s);
      LegalRun(t.past, s);
    }
  }

  /** The writes of a log, in order. */
  function Writes(t: Log): seq<OuterMessage> {
    match t
    case Silence => []
    case After(past, Out(m)) => Writes(past) + [m]
    case After(past, _) => Writes(past)
  }

  /** The pairing secret of these settings: the digest over both keys and the last four digits of the code read. */
  function SecretOf(s: Setting): seq<byte>
    requires s.entered.Some? && IsCode(s.entered.value) && s.client.Rsa? && s.server.Some? && s.server.value.Rsa?
  {
    s.sha(HashInput(s.client, s.server.value, [ByteAt(s.entered.value, 2), ByteAt(s.entered.value, 4)]))
  }

  /** The first write is the request, and every other one of the two replies or the secret of these settings. */
  predicate WritesByFields(ms: seq<OuterMessage>, s: Setting) {
    forall i :: 0 <= i < |ms| ==>
      if i == 0 then IsRequest(ms[i])
      else
        || IsOptions(ms[i]) || IsConfiguration(ms[i])
        || (&& s.entered.Some? && IsCode(s.entered.value) && s.client.Rsa? && s.server.Some? && s.server.value.Rsa?
            && IsSecret(ms[i], SecretOf(s)))
  }

  lemma {:induction false} LegalWrites(t: Log, s: Setting)
    requires Legal(t, s)
    ensures WritesByFields(Writes(t), s) && (Writes(t) != [] ==> Watch(t).begun)
    ensures Watch(t).begun && !Watch(t).over ==> Writes(t) != []
    ensures Watch(t).owed.Some? ==> IsOptions(Watch(t).owed.value) || IsConfiguration(Watch(t).owed.value)
  {
    hide Legal, MayHappen, See, Watch, IsRequest, IsOptions, IsConfiguration, IsSecret, SecretOf, IsCode, Accepted;
    if t.After? {
      LegalPast(t, s);
      LegalWrites(t.past, s);
      WriteStep(t, s);
    } else {
      assert Watch(t) == NOTHING by { Quiet(s); }
    }
  }

  lemma Quiet(s: Setting)
    ensures Legal(Silence, s) && Watch(Silence) == NOTHING
  {
  }

  lemma LegalPast(t: Log, s: Setting)
    requires t.After? && Legal(t, s)
    ensures Legal(t.past, s) && MayHappen(Watch(t.past), t.last, s) && Watch(t) == See(Watch(t.past), t.last)
  {
  }

  lemma WriteStep(t: Log, s: Setting)
    requires t.After? && Legal(t.past, s) && MayHappen(Watch(t.past), t.last, s) && Watch(t) == See(Watch(t.past), t.last)
    requires Watch(t.past).owed.Some? ==> IsOptions(Watch(t.past).owed.value) || IsConfiguration(Watch(t.past).owed.value)
    ensures Watch(t).owed.Some? ==> IsOptions(Watch(t).owed.value) || IsConfiguration(Watch(t).owed.value)
    ensures Watch(t.past).begun ==> Watch(t).begun
    ensures !Watch(t.past).over && (Watch(t).begun && !Watch(t).over ==> Watch(t.past).begun || t.last.Out?)
    ensures t.last.Out? ==>
              && Watch(t).begun
              && if !Watch(t.past).begun then IsRequest(t.last.m)
                 else
                   || IsOptions(t.last.m) || IsConfiguration(t.last.m)
                   || (&& s.entered.Some? && IsCode(s.entered.value) && s.client.Rsa? && s.server.Some? && s.server.value.Rsa?
                       && IsSecret(t.last.m, SecretOf(s)))
  {
    hide Legal, Material, HashInput, Watch, KindOf;
    if t.last.In? {
      OwedByFields(t.last.m);
    } else if t.last.Out? && Watch(t.past).begun && Watch(t.past).owed.None? {
      SecretWasAccepted(t.past, s);
      MaterialIsHashInput(s.client, s.server.value, Nonce(s.entered.value));
    }
  }

  lemma OwedByFields(m: OuterMessage)
    ensures Owed(m).Some? ==> IsOptions(Owed(m).value) || IsConfiguration(Owed(m).value)
  {
  }

  /**
   Whole pairing runs on every script: the secret is written at most once, and only after a
   configuration acknowledgement was taken and a code accepted for the two keys; every message
   before the last was taken; nothing is written but the request, the two replies and the secret
   of these settings; and `paired` means exactly that the secret was written and the
   last event is a taken message.
   */
  lemma PairRun(n: Line, s: Setting)
    requires n.log == Silence
    ensures var e := Paired(n, s);
            && Secrets(e.line.log) <= 1
            && (Secrets(e.line.log) == 1 ==>
                  && Acknowledged(e.line.log)
                  && s.entered.Some? && s.server.Some?
                  && Accepted(s.sha, s.client, s.server.value, s.entered.value))
            && (e.line.log.After? ==> TakenSoFar(e.line.log.past))
            && WritesByFields(Writes(e.line.log), s)
            && (e.result.Success?
                <==> Secrets(e.line.log) == 1 && e.line.log.last.In? && Taken(e.line.log.last.m))
  {
    hide Paired, Legal, Watch, Acknowledged, Accepted, Taken, WritesByFields;
    PairObeys(n, s);
    LegalWrites(Paired(n, s).line.log, s);
    PairedByLog(n, s);
    LegalRun(Paired(n, s).line.log, s);
    SecretWasAccepted(Paired(n, s).line.log, s);
  }

  // ----------------------------------------------------------- exactly when paired

  /** How many messages at the head of the script are taken and do not make the TV show its code. */
  function Opening(rs: seq<Option<OuterMessage>>): (k: nat)
    ensures k <= |rs|
    decreases |rs|
  {
    if rs != [] && Opens(rs[0]) then 1 + Opening(rs[1..]) else 0
  }

  predicate Opens(r: Option<OuterMessage>) { r.Some? && Taken(r.value) && KindOf(r.value) != ConfigAck }

  /** How many of the messages are owed a reply. */
  function Replying(rs: seq<Option<OuterMessage>>): nat
    decreases |rs|
  {
    if rs == [] then 0
    else (if rs[0].Some? && Owed(rs[0].value).Some? then 1 else 0) + Replying(rs[1..])
  }

  /** The first `count` writes succeed; writes beyond the script do. */
  predicate WritesWell(ws: seq<bool>, count: nat) { forall i :: 0 <= i < count && i < |ws| ==> ws[i] }

  function Later(ws: seq<bool>, count: nat): seq<bool> { if count <= |ws| then ws[count..] else [] }

  lemma OneWrite(ws: seq<bool>, count: nat)
    ensures WritesWell(ws, count + 1) <==> (ws == [] || ws[0]) && WritesWell(Later(ws, 1), count)
    ensures Later(ws, count + 1) == Later(Later(ws, 1), count)
    ensures Later(ws, 1) == (if ws == [] then [] else ws[1..]) && Later(ws, 0) == ws
  {
    if ws != [] && ws[0] && WritesWell(ws[1..], count) {
      assert forall i :: 0 < i < |ws| ==> ws[i] == ws[1..][i - 1];
    }
    if ws != [] && WritesWell(ws, count + 1) {
      assert forall i :: 0 <= i < |ws[1..]| ==> ws[1..][i] == ws[i + 1];
    }
  }

  /** The message loop ends well at item `k`: it acknowledges the configuration, and all replies before it can be written. */
  predicate AcknowledgedAt(n: Line, k: nat)
    requires k <= |n.recvs|
  {
    && k < |n.recvs| && n.recvs[k].Some? && Taken(n.recvs[k].value) && KindOf(n.recvs[k].value) == ConfigAck
    && WritesWell(n.sends, Replying(n.recvs[..k]))
  }

  /** The loop succeeds exactly at the acknowledgement at item `k`, having read up to it and written the replies. */
  predicate EndsWellAt(n: Line, k: nat, e: Ended)
    requires k <= |n.recvs|
  {
    && (e.result.Success? <==> AcknowledgedAt(n, k))
    && (e.result.Success? ==>
          k < |n.recvs| && e.line.recvs == n.recvs[k + 1..] && e.line.sends == Later(n.sends, Replying(n.recvs[..k])))
  }

  lemma {:induction false} ExchangeExact(n: Line)
    ensures EndsWellAt(n, Opening(n.recvs), Exchange(n, false))
    decreases |n.recvs|
  {
    hide KindOf, Taken, Exchange, EndsWellAt;
    if Opening(n.recvs) > 0 {
      var m := n.recvs[0].value;
      OneExchange(n);
      if Owed(m).None? {
        ExchangeExact(n.Receive());
        EndsOneLater(n, n.Receive(), Exchange(n, false));
      } else if n.Receive().NextWrite() {
        var next := n.Receive().Send(Owed(m).value);
        ExchangeExact(next);
        EndsOneLater(n, next, Exchange(n, false));
      } else {
        EndsBroken(n, Exchange(n, false));
      }
    } else {
      EndsAtOnce(n);
    }
  }

  /** The positions seen from the item after an opening one. */
  lemma OneOpened(n: Line)
    requires Opening(n.recvs) > 0
    ensures n.recvs != [] && n.recvs[0].Some? && Opening(n.recvs) <= |n.recvs|
    ensures var rest := n.recvs[1..];
            var k := Opening(n.recvs);
            && Opening(rest) == k - 1
            && Replying(n.recvs[..k]) == (if Owed(n.recvs[0].value).Some? then 1 else 0) + Replying(rest[..k - 1])
            && (k < |n.recvs| ==> rest[k - 1] == n.recvs[k] && rest[k..] == n.recvs[k + 1..])
  {
    hide KindOf, Taken, Owed;
    var k := Opening(n.recvs);
    assert n.recvs[..k][0] == n.recvs[0] && n.recvs[..k][1..] == n.recvs[1..][..k - 1];
  }

  /** The first item only opens the exchange: one position and perhaps one reply more. */
  lemma EndsOneLater(n: Line, next: Line, e: Ended)
    requires Opening(n.recvs) > 0 && n.recvs[0].Some? && next.recvs == n.recvs[1..]
    requires next.sends == if Owed(n.recvs[0].value).Some? then Later(n.sends, 1) else n.sends
    requires Owed(n.recvs[0].value).Some? ==> n.NextWrite()
    requires EndsWellAt(next, Opening(next.recvs), e)
    ensures EndsWellAt(n, Opening(n.recvs), e)
  {
    hide KindOf, Taken, Later, WritesWell, Owed, Opening, Replying;
    OneOpened(n);
    OneWrite(n.sends, Replying(n.recvs[1..][..Opening(n.recvs) - 1]));
  }

  lemma EndsBroken(n: Line, e: Ended)
    requires Opening(n.recvs) > 0 && n.recvs[0].Some? && Owed(n.recvs[0].value).Some?
    requires !n.NextWrite() && e.result.Failure?
    ensures EndsWellAt(n, Opening(n.recvs), e)
  {
    hide KindOf, Taken, Later, WritesWell, Owed, Opening, Replying;
    OneOpened(n);
    OneWrite(n.sends, Replying(n.recvs[1..][..Opening(n.recvs) - 1]));
  }

  lemma EndsAtOnce(n: Line)
    requires Opening(n.recvs) == 0
    ensures EndsWellAt(n, 0, Exchange(n, false))
  {
    OneWrite(n.sends, 0);
    if n.recvs != [] && n.recvs[0].Some? && Taken(n.recvs[0].value) {
      OneExchange(n);
      ExchangeEnds(n.Receive());
    }
  }

  /**
   Exactly when a run is paired, by its script: the request and all replies can be written, the
   first message that does not merely open the exchange acknowledges the configuration, the code
   is accepted for the two keys, the secret can be written, and one more message is taken.
   */
  lemma PairedExactly(n: Line, s: Setting)
    ensures var n0 := n.Send(INITIAL);
            var k := Opening(n.recvs);
            Paired(n, s).result.Success? <==>
              && n.NextWrite()
              && AcknowledgedAt(n0, k)
              && s.entered.Some? && s.server.Some?
              && Accepted(s.sha, s.client, s.server.value, s.entered.value)
              && (var left := Later(n0.sends, Replying(n.recvs[..k])); left == [] || left[0])
              && k + 1 < |n.recvs| && n.recvs[k + 1].Some? && Taken(n.recvs[k + 1].value)
  {
    hide Accepted, Taken, KindOf, Exchange;
    var n0 := n.Send(INITIAL);
    ExchangeExact(n0);
    var e := Exchange(n0, false);
    if n.NextWrite() && e.result.Success? {
      ConcludeExact(e.line, s);
      var k := Opening(n.recvs);
      assert k + 1 < |n.recvs| ==> n.recvs[k + 1..][0] == n.recvs[k + 1];
    }
  }

  lemma ConcludeExact(n: Line, s: Setting)
    ensures Conclude(n, s).result.Success? <==>
              && s.entered.Some? && s.server.Some?
              && Accepted(s.sha, s.client, s.server.value, s.entered.value)
              && n.NextWrite() && n.NextRead().Some? && Taken(n.NextRead().value)
  {
    hide Accepted, KindOf;
    if s.entered.Some? && s.server.Some? {
      AcceptedComputes(s.sha, s.client, s.server.value, s.entered.value);
    }
  }

  lemma AcceptedComputes(sha: seq<byte> -> seq<byte>, client: CertKey, server: CertKey, code: string)
    ensures Computed(sha, client, server, code).Success? <==> Accepted(sha, client, server, code)
  {
  }

  lemma {:induction false} ExchangeKeepsSecret(n: Line, awaiting: bool)
    ensures Secrets(Exchange(n, awaiting).line.log) == Secrets(n.log)
    decreases |n.recvs|
  {
    if !awaiting && n.NextRead().Some? {
      var m := n.NextRead().value;
      OwedIsNoSecret(m);
      match Handled(m) {
        case Failure(_) =>
        case Success(None) => ExchangeKeepsSecret(n.Receive(), ShowsCode(awaiting, m));
        case Success(Some(reply)) => ExchangeKeepsSecret(n.Receive().Send(reply), ShowsCode(awaiting, m));
      }
    }
  }

  /** Exactly when a run is paired, by its log: the secret was written, and the last event is a taken message. */
  lemma PairedByLog(n: Line, s: Setting)
    requires n.log == Silence
    ensures var e := Paired(n, s);
            e.result.Success?
            <==> Secrets(e.line.log) == 1 && e.line.log.After? && e.line.log.last.In? && Taken(e.line.log.last.m)
  {
    hide Exchange, Computed, Taken, KindOf;
    var n0 := n.Send(INITIAL);
    ExchangeKeepsSecret(n0, false);
    if n.NextWrite() && Exchange(n0, false).result.Success? {
      ConcludeByLog(Exchange(n0, false).line, s);
    }
  }

  lemma ConcludeByLog(n: Line, s: Setting)
    ensures var e := Conclude(n, s);
            e.result.Success?
            <==> Secrets(e.line.log) == Secrets(n.log) + 1 && e.line.log.After? && e.line.log.last.In?
                 && Taken(e.line.log.last.m)
    ensures Secrets(Conclude(n, s).line.log) <= Secrets(n.log) + 1
  {
    hide Computed, KindOf;
    if s.entered.Some? {
      var read := n.Note(CodeRead(s.entered.value));
      assert Secrets(read.log) == Secrets(n.log) && !read.log.last.In?;
      if s.server.Some? && Computed(s.sha, s.client, s.server.value, s.entered.value).Success? {
        var sent := read.Send(SecretMessage(Computed(s.sha, s.client, s.server.value, s.entered.value).value));
        assert Secrets(sent.log) == Secrets(n.log) + if read.NextWrite() then 1 else 0;
        assert !sent.log.last.In? && Secrets(sent.Receive().log) == Secrets(sent.log);
      }
    }
  }

  /** `paired` without any `secret_ack`: a second configuration acknowledgement ends the run as well. */
  lemma PairedByConfigAck(s: Setting) returns (n: Line)
    requires s.entered.Some? && s.server.Some?
    requires Accepted(s.sha, s.client, s.server.value, s.entered.value)
    ensures n.log == Silence && Paired(n, s).result.Success?
    ensures forall i :: 0 <= i < |n.recvs| ==> n.recvs[i].Some? && n.recvs[i].value.secretAck.None?
  {
    var ack := OUR_ENVELOPE.(configurationAck := Some(()));
    n := Line([Some(ack), Some(ack)], [], Silence);
    assert Opening(n.recvs) == 0;
    PairedExactly(n, s);
  }

  // ------------------------------------------------------------- how runs fail

  /**
   The error a run that ended with this log reports, by its last event. A write that failed is a
   protocol error; a read that failed too, unless the secret was out; a bad status is a pairing
   failure and a message of no known kind a protocol error; the last message having shown the
   code, the code could not be read; and after the code, the certificate or the secret is at fault.
   */
  predicate FailsFor(t: Log, s: Setting, kind: ErrorKind) {
    && t.After?
    && match t.last
       case OutFailed(_) => kind == ProtocolError
       case InFailed => kind == if Secrets(t) > 0 then PairingFailed else ProtocolError
       case In(m) =>
         if m.status != 200 then kind == PairingFailed
         else if !KnownByFields(m) then kind == ProtocolError
         else s.entered.None? && m.configurationAck.Some? && kind == PairingFailed
       case CodeRead(code) =>
         && s.entered == Some(code)
         && if s.server.None? then kind == ProtocolError
            else SecretFor(s.sha, s.client, s.server.value, code, Failure(kind))
       case Out(_) => false
  }

  lemma {:induction false} ExchangeFails(n: Line, s: Setting)
    requires Secrets(n.log) == 0
    ensures var e := Exchange(n, false);
            match e.result
            case Failure(kind) => FailsFor(e.line.log, s, kind)
            case Success(_) => e.line.log.After? && e.line.log.last.In? && Taken(e.line.log.last.m)
                               && KindOf(e.line.log.last.m) == ConfigAck && Secrets(e.line.log) == 0
    decreases |n.recvs|
  {
    if n.NextRead().Some? {
      var m := n.NextRead().value;
      HandlesByFields(false, m);
      OwedIsNoSecret(m);
      if Taken(m) {
        hide KindOf, Taken, SecretFor, FailsFor, Exchange;
        OneExchange(n);
        if KindOf(m) == ConfigAck {
          ExchangeEnds(n.Receive());
        } else if Owed(m).None? {
          ExchangeFails(n.Receive(), s);
        } else {
          WriteFails(n.Receive(), s, Owed(m).value);
          if n.Receive().NextWrite() {
            ExchangeFails(n.Receive().Send(Owed(m).value), s);
          }
        }
      }
    }
  }

  lemma WriteFails(n: Line, s: Setting, m: OuterMessage)
    ensures !n.NextWrite() ==> FailsFor(n.Send(m).log, s, ProtocolError)
  {
  }

  /** Every run that fails reports the error of its last event. */
  lemma PairFailsFor(n: Line, s: Setting)
    requires n.log == Silence
    ensures Paired(n, s).result.Failure? ==> FailsFor(Paired(n, s).line.log, s, Paired(n, s).result.error)
  {
    hide Exchange, FailsFor, KindOf, SecretFor, Computed;
    var n0 := n.Send(INITIAL);
    WriteFails(n, s, INITIAL);
    if n.NextWrite() {
      ExchangeFails(n0, s);
      var e := Exchange(n0, false);
      if e.result.Success? {
        ConcludeFails(e.line, s);
      }
    }
  }

  lemma ConcludeFails(n: Line, s: Setting)
    requires n.log.After? && n.log.last.In? && Taken(n.log.last.m) && KindOf(n.log.last.m) == ConfigAck && Secrets(n.log) == 0
    ensures Conclude(n, s).result.Failure? ==> FailsFor(Conclude(n, s).line.log, s, Conclude(n, s).result.error)
  {
    hide SecretFor, Computed;
    HandlesByFields(true, n.log.last.m);
    if s.entered.Some? && s.server.Some? {
      var read := n.Note(CodeRead(s.entered.value));
      var computed := Computed(s.sha, s.client, s.server.value, s.entered.value);
      ComputedIsSecret(s.sha, s.client, s.server.value, s.entered.value);
      if computed.Success? {
        var sent := read.Send(SecretMessage(computed.value));
        assert read.NextWrite() ==> Secrets(sent.log) == 1;
        if sent.NextRead().Some? {
          HandlesByFields(true, sent.NextRead().value);
        }
      }
    }
  }

  // ------------------------------------------------------------ a conforming TV

  /** The TV answers in order, each with status 200: request ack, options, configuration ack, and any known kind at the end. */
  predicate Conforms(rs: seq<Option<OuterMessage>>) {
    && |rs| >= 4
    && (forall i :: 0 <= i < 4 ==> rs[i].Some? && rs[i].value.status == 200 && KnownByFields(rs[i].value))
    && rs[0].value.pairingRequestAck.Some?
    && rs[1].value.pairingRequestAck.None? && rs[1].value.options.Some?
    && rs[2].value.pairingRequestAck.None? && rs[2].value.options.None? && rs[2].value.configurationAck.Some?
  }

  lemma ConformingKinds(rs: seq<Option<OuterMessage>>)
    requires Conforms(rs)
    ensures forall i :: 0 <= i < 4 ==> rs[i].Some? && Taken(rs[i].value)
    ensures KindOf(rs[0].value) == RequestAck && KindOf(rs[1].value) == OptionsOffer && KindOf(rs[2].value) == ConfigAck
  {
  }

  lemma OneExchange(n: Line)
    requires n.NextRead().Some? && Taken(n.NextRead().value)
    ensures var m := n.NextRead().value;
            Exchange(n, false) ==
              match Owed(m)
              case None => Exchange(n.Receive(), KindOf(m) == ConfigAck)
              case Some(reply) =>
                if n.Receive().NextWrite() then Exchange(n.Receive().Send(reply), false)
                else Ended(n.Receive().Send(reply), Failure(ProtocolError))
  {
  }

  /**
   Against a conforming TV whose connection holds, the writes are exactly request, options,
   configuration and secret when the code is accepted, and the first three otherwise, when the
   run fails as computing the secret does.
   */
  lemma ConformingRun(n: Line, s: Setting)
    requires n.log == Silence && Conforms(n.recvs) && n.sends == []
    requires s.server.Some? && s.entered.Some?
    ensures var e := Paired(n, s);
            var computed := Computed(s.sha, s.client, s.server.value, s.entered.value);
            var ms := Writes(e.line.log);
            && SecretFor(s.sha, s.client, s.server.value, s.entered.value, computed)
            && |ms| == (if computed.Success? then 4 else 3)
            && IsRequest(ms[0]) && IsOptions(ms[1]) && IsConfiguration(ms[2])
            && if computed.Success? then e.result == Success(()) && IsSecret(ms[3], computed.value)
               else e.result == Failure(computed.error)
  {
    hide Computed, SecretFor, KindOf, Exchange, KnownByFields;
    ConformingKinds(n.recvs);
    ComputedIsSecret(s.sha, s.client, s.server.value, s.entered.value);
    ConformingWrites(n, s);
  }

  lemma ConformingWrites(n: Line, s: Setting)
    requires n.log == Silence && n.sends == [] && s.server.Some? && s.entered.Some? && |n.recvs| >= 4
    requires forall i :: 0 <= i < 4 ==> n.recvs[i].Some? && Taken(n.recvs[i].value)
    requires KindOf(n.recvs[0].value) == RequestAck && KindOf(n.recvs[1].value) == OptionsOffer
    requires KindOf(n.recvs[2].value) == ConfigAck
    ensures var e := Paired(n, s);
            var computed := Computed(s.sha, s.client, s.server.value, s.entered.value);
            if computed.Success? then
              && e.result == Success(())
              && Writes(e.line.log) == [INITIAL, OUR_OPTIONS, OUR_CONFIGURATION, SecretMessage(computed.value)]
            else
              e.result == Failure(computed.error) && Writes(e.line.log) == [INITIAL, OUR_OPTIONS, OUR_CONFIGURATION]
  {
    hide Computed, KindOf, Exchange;
    var n0 := n.Send(INITIAL);
    OneExchange(n0);
    var n1 := n0.Receive().Send(OUR_OPTIONS);
    assert Writes(n0.log) == [INITIAL] && Writes(n0.Receive().log) == [INITIAL];
    assert Writes(n1.log) == [INITIAL, OUR_OPTIONS] && Writes(n1.Receive().log) == [INITIAL, OUR_OPTIONS];
    assert n1.recvs == n.recvs[1..] && n1.NextRead() == n.recvs[1];
    OneExchange(n1);
    var n2 := n1.Receive().Send(OUR_CONFIGURATION);
    assert Writes(n2.log) == [INITIAL, OUR_OPTIONS, OUR_CONFIGURATION];
    assert n2.recvs == n1.recvs[1..] && n2.NextRead() == n.recvs[2];
    OneExchange(n2);
    var n3 := n2.Receive();
    assert n3.recvs == n2.recvs[1..] && n3.NextRead() == n.recvs[3];
    ExchangeEnds(n3);
    assert Writes(n3.log) == [INITIAL, OUR_OPTIONS, OUR_CONFIGURATION];
    ConcludeWrites(n3, s);
  }

  lemma ConcludeWrites(n: Line, s: Setting)
    requires n.sends == [] && n.NextRead().Some? && Taken(n.NextRead().value)
    requires s.server.Some? && s.entered.Some?
    ensures var e := Conclude(n, s);
            var computed := Computed(s.sha, s.client, s.server.value, s.entered.value);
            if computed.Success? then
              e.result == Success(()) && Writes(e.line.log) == Writes(n.log) + [SecretMessage(computed.value)]
            else e.result == Failure(computed.error) && Writes(e.line.log) == Writes(n.log)
  {
    hide Computed, KindOf;
    var read := n.Note(CodeRead(s.entered.value));
    assert Writes(read.log) == Writes(n.log);
  }

  lemma ExchangeEnds(n: Line)
    ensures Exchange(n, true) == Ended(n, Success(()))
  {
  }
}
