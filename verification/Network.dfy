/**
 The outside world of a session command as a script: what each connection attempt,
 read, write, probe and broadcast will do and how long it will take. The script is
 arbitrary, so it stands for every TV and every network. What happens is logged.
 */
module Network {
  import opened Wrappers
  import opened Handshake

  /** One `read_message` on the open connection. */
  datatype Reception = Reception(result: Result<RemoteMessage, IoError>, took: nat)

  /** One write, probe or broadcast. */
  datatype Effort = Effort(ok: bool, took: nat)

  /**
   One attempt to connect (credentials included). An accepted connection carries the
   script of its reads and writes; reads beyond the script find the connection closed,
   writes beyond it succeed at once.
   */
  datatype Dial =
    | Refused(kind: ErrorKind, took: nat)
    | Accepted(recvs: seq<Reception>, sends: seq<Effort>, took: nat)

  datatype Event =
    | Dialed
    | DialFailed(kind: ErrorKind)
    | Got(m: RemoteMessage)
    | RecvFailed
    | Sent(m: RemoteMessage)
    | SendFailed(m: RemoteMessage)
    | Woke(mac: seq<int>)
    | WakeFailed
    | Probed(up: bool)
    | Slept(ms: nat)

  type Log = Trace<Event>

  /** Clock in milliseconds; attempts beyond `dials` are refused as unreachable. */
  datatype Net = Net(
    clock: nat,
    dials: seq<Dial>,
    recvs: seq<Reception>,
    sends: seq<Effort>,
    wakes: seq<Effort>,
    probes: seq<Effort>,
    log: Log)
  {
    function Note(e: Event): Net { this.(log := After(log, e)) }

    function Elapse(ms: nat): Net { this.(clock := clock + ms) }

    function Sleep(ms: nat): Net { Elapse(ms).Note(Slept(ms)) }

    function NextDial(): Dial { if dials == [] then Refused(Unreachable, 0) else dials[0] }

    function NextRead(): Reception { if recvs == [] then Reception(Failure(Eof), 0) else recvs[0] }

    function NextWrite(): Effort { if sends == [] then Effort(true, 0) else sends[0] }

    function NextWake(): Effort { if wakes == [] then Effort(true, 0) else wakes[0] }

    function NextProbe(): Effort { if probes == [] then Effort(false, 0) else probes[0] }

    function Dial(): Net {
      var rest := this.(dials := if dials == [] then [] else dials[1..]);
      match NextDial()
      case Refused(kind, took) => rest.(recvs := [], sends := []).Elapse(took).Note(DialFailed(kind))
      case Accepted(rs, ws, took) => rest.(recvs := rs, sends := ws).Elapse(took).Note(Dialed)
    }

    function Receive(): Net {
      var r := NextRead();
      this.(recvs := if recvs == [] then [] else recvs[1..]).Elapse(r.took)
          .Note(match r.result case Success(m) => Got(m) case Failure(_) => RecvFailed)
    }

    function Send(m: RemoteMessage): Net {
      var w := NextWrite();
      this.(sends := if sends == [] then [] else sends[1..]).Elapse(w.took)
          .Note(if w.ok then Sent(m) else SendFailed(m))
    }

    function Broadcast(mac: seq<int>): Net {
      var w := NextWake();
      this.(wakes := if wakes == [] then [] else wakes[1..]).Elapse(w.took)
          .Note(if w.ok then Woke(mac) else WakeFailed)
    }

    function Probe(): Net {
      var p := NextProbe();
      this.(probes := if probes == [] then [] else probes[1..]).Elapse(p.took).Note(Probed(p.ok))
    }
  }

  class World {
    var net: Net

    constructor (net: Net)
      ensures this.net == net
    {
      this.net := net;
    }

    method Dial() returns (refused: Option<ErrorKind>)
      modifies this
      ensures net == old(net).Dial()
      ensures refused == match old(net).NextDial()
                         case Refused(kind, _) => Some(kind)
                         case Accepted(_, _, _) => None
    {
      refused := match net.NextDial() case Refused(kind, _) => Some(kind) case Accepted(_, _, _) => None;
      net := net.Dial();
    }

    method Receive() returns (r: Result<RemoteMessage, IoError>)
      modifies this
      ensures net == old(net).Receive() && r == old(net).NextRead().result
    {
      r := net.NextRead().result;
      net := net.Receive();
    }

    method Send(m: RemoteMessage) returns (ok: bool)
      modifies this
      ensures net == old(net).Send(m) && ok == old(net).NextWrite().ok
    {
      ok := net.NextWrite().ok;
      net := net.Send(m);
    }

    method Broadcast(mac: seq<int>) returns (ok: bool)
      modifies this
      ensures net == old(net).Broadcast(mac) && ok == old(net).NextWake().ok
    {
      ok := net.NextWake().ok;
      net := net.Broadcast(mac);
    }

    method Probe() returns (up: bool)
      modifies this
      ensures net == old(net).Probe() && up == old(net).NextProbe().ok
    {
      up := net.NextProbe().ok;
      net := net.Probe();
    }

    method Sleep(ms: nat)
      modifies this
      ensures net == old(net).Sleep(ms)
    {
      net := net.Sleep(ms);
    }

    method Now() returns (ms: nat)
      ensures ms == net.clock
    {
      ms := net.clock;
    }
  }
}
