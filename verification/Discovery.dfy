/** The browse loop of `src/discover.rs`: a deadline, and devices keyed by `host:port`. */
module Discovery {
  import opened Wrappers
  import opened Text

  datatype Addr = V4(text: string) | V6(text: string)

  /** A resolved service; `addrs` is in the (unspecified) order the set iterates in. */
  datatype Info = Info(fullname: string, addrs: seq<Addr>, port: nat)

  datatype Event = Resolved(info: Info) | OtherEvent | Closed

  /** What the channel delivers next, and after how long. */
  datatype Arrival = Arrival(event: Event, after: nat)

  datatype Device = Device(name: string, host: string, port: nat)

  const SERVICE_TYPE := "_androidtvremote2._tcp.local."

  // -------------------------------------------------------------- what is resolved

  function FirstV4(addrs: seq<Addr>): Option<Addr>
    decreases |addrs|
  {
    if addrs == [] then None
    else if addrs[0].V4? then Some(addrs[0])
    else FirstV4(addrs[1..])
  }

  /** An IPv4 address if there is one, else any address. */
  function Chosen(addrs: seq<Addr>): (a: Option<Addr>)
    ensures a.None? <==> addrs == []
    ensures a.Some? ==> a.value in addrs && (a.value.V4? <==> exists b :: b in addrs && b.V4?)
  {
    FirstV4Found(addrs);
    if FirstV4(addrs).Some? then FirstV4(addrs)
    else if addrs == [] then None
    else Some(addrs[0])
  }

  lemma {:induction false} FirstV4Found(addrs: seq<Addr>)
    ensures FirstV4(addrs).Some? <==> exists b :: b in addrs && b.V4?
    ensures FirstV4(addrs).Some? ==> FirstV4(addrs).value in addrs && FirstV4(addrs).value.V4?
    decreases |addrs|
  {
    if addrs != [] && !addrs[0].V4? {
      FirstV4Found(addrs[1..]);
      assert addrs == [addrs[0]] + addrs[1..];
    }
  }

  predicate EndsWith(s: string, suffix: string) {
    |suffix| <= |s| && s[|s| - |suffix|..] == suffix
  }

  function StripSuffix(s: string, suffix: string): (r: string)
    ensures if EndsWith(s, suffix) then s == r + suffix else r == s
  {
    if EndsWith(s, suffix) then s[..|s| - |suffix|] else s
  }

  /** The device an event stands for, if it is a resolved service with an address. */
  function DeviceOf(e: Event): Option<Device> {
    match e
    case Resolved(info) =>
      (match Chosen(info.addrs)
       case None => None
       case Some(addr) => Some(Device(StripSuffix(info.fullname, "." + SERVICE_TYPE), addr.text, info.port)))
    case _ => None
  }

  /** The j-th address is the one to use: the first IPv4 address, or the very first if there is none. */
  predicate Preferred(addrs: seq<Addr>, j: nat) {
    && j < |addrs|
    && if addrs[j].V4? then forall i :: 0 <= i < j ==> addrs[i].V6?
       else j == 0 && forall i :: 0 <= i < |addrs| ==> addrs[i].V6?
  }

  /** `name` is the full name without the service type behind it, or all of it if it does not end so. */
  ghost predicate Names(name: string, fullname: string) {
    if exists front: string :: fullname == front + "._androidtvremote2._tcp.local."
    then fullname == name + "._androidtvremote2._tcp.local."
    else name == fullname
  }

  /** `d` is what a resolved service stands for: its name, the preferred address and its port. */
  ghost predicate Describes(d: Device, info: Info) {
    && Names(d.name, info.fullname)
    && (exists j: nat :: Preferred(info.addrs, j) && d.host == info.addrs[j].text)
    && d.port == info.port
  }

  lemma {:induction false} FirstV4Preferred(addrs: seq<Addr>) returns (j: nat)
    requires FirstV4(addrs).Some?
    ensures j < |addrs| && addrs[j] == FirstV4(addrs).value && addrs[j].V4? && forall i :: 0 <= i < j ==> addrs[i].V6?
    decreases |addrs|
  {
    if addrs[0].V4? {
      j := 0;
    } else {
      var k := FirstV4Preferred(addrs[1..]);
      j := k + 1;
      assert forall i :: 0 < i < j ==> addrs[i] == addrs[1..][i - 1];
    }
  }

  lemma ChosenIsPreferred(addrs: seq<Addr>) returns (j: nat)
    requires addrs != []
    ensures Preferred(addrs, j) && Chosen(addrs) == Some(addrs[j])
    ensures forall i: nat :: Preferred(addrs, i) ==> i == j
  {
    FirstV4Found(addrs);
    if FirstV4(addrs).Some? {
      j := FirstV4Preferred(addrs);
    } else {
      j := 0;
    }
  }

  lemma StripsService(fullname: string, name: string)
    ensures StripSuffix(fullname, "." + SERVICE_TYPE) == name <==> Names(name, fullname)
  {
    var service := "._androidtvremote2._tcp.local.";
    assert "." + SERVICE_TYPE == service;
    if front: string :| fullname == front + service {
      assert fullname[|fullname| - |service|..] == service;
    }
    if fullname == name + service {
      assert fullname[..|fullname| - |service|] == name;
    }
  }

  /** An event yields a device exactly when it resolves a service that the device describes. */
  lemma YieldsExactly(e: Event, d: Device)
    ensures DeviceOf(e) == Some(d) <==> e.Resolved? && Describes(d, e.info)
    ensures DeviceOf(e).Some? ==> e.Resolved? && Describes(DeviceOf(e).value, e.info)
  {
    hide StripSuffix, Names, Chosen;
    if e.Resolved? {
      StripsService(e.info.fullname, d.name);
      if e.info.addrs != [] {
        var j := ChosenIsPreferred(e.info.addrs);
        StripsService(e.info.fullname, StripSuffix(e.info.fullname, "." + SERVICE_TYPE));
      }
    }
  }

  // ----------------------------------------------------------------------- the key

  function Key(host: string, port: nat): string { host + ":" + Decimal(port) }

  lemma DecimalHasNoColon(port: nat)
    ensures forall i :: 0 <= i < |Decimal(port)| ==> Decimal(port)[i] != ':'
  {
    DecimalDenotes(port);
  }

  /** The key determines host and port, whatever colons the host contains. */
  lemma KeyIsInjective(h1: string, p1: nat, h2: string, p2: nat)
    requires Key(h1, p1) == Key(h2, p2)
    ensures h1 == h2 && p1 == p2
  {
    var k, d1, d2 := Key(h1, p1), Decimal(p1), Decimal(p2);
    DecimalHasNoColon(p1);
    DecimalHasNoColon(p2);
    assert k[|h1|] == ':' && k[|h2|] == ':';
    assert forall i :: |h1| < i < |k| ==> k[i] == d1[i - |h1| - 1];
    assert forall i :: |h2| < i < |k| ==> k[i] == d2[i - |h2| - 1];
    assert |h1| == |h2|;
    assert h1 == k[..|h1|] == h2;
    assert d1 == k[|h1| + 1..] == d2;
    DecimalDenotes(p1);
    DecimalDenotes(p2);
  }

  // ------------------------------------------------------------- the ordered map

  /** `a` comes before `b`: from the first place where they differ on, `a` ends or is smaller. */
  ghost predicate Before(a: string, b: string, i: nat) {
    && i <= |a| && i < |b| && a[..i] == b[..i]
    && (i == |a| || a[i] < b[i])
  }

  /** String order by code points, as for bytes of UTF-8. */
  predicate Less(a: string, b: string)
    decreases |a|
  {
    b != "" && (a == "" || a[0] < b[0] || (a[0] == b[0] && Less(a[1..], b[1..])))
  }

  /** The order is the lexicographic one. */
  lemma {:induction false} LessIsLexicographic(a: string, b: string)
    ensures Less(a, b) <==> exists i: nat :: Before(a, b, i)
    decreases |a|
  {
    if a != "" && b != "" && a[0] == b[0] {
      var c, d := a[1..], b[1..];
      LessIsLexicographic(c, d);
      if i: nat :| Before(c, d, i) {
        assert a[..i + 1] == [a[0]] + c[..i] && b[..i + 1] == [b[0]] + d[..i];
        assert Before(a, b, i + 1);
      }
      if i: nat :| Before(a, b, i) {
        assert i > 0;
        assert c[..i - 1] == a[..i][1..] && d[..i - 1] == b[..i][1..];
        assert Before(c, d, i - 1);
      }
    } else if Less(a, b) {
      assert Before(a, b, 0);
    } else {
      forall i: nat | Before(a, b, i) ensures i == 0 {
        SameHead(a, b, i);
      }
    }
  }

  lemma SameHead(a: string, b: string, i: nat)
    requires Before(a, b, i)
    ensures i > 0 ==> a != "" && b != "" && a[0] == b[0]
  {
    if i > 0 {
      assert a[..i][0] == b[..i][0];
    }
  }

  lemma {:induction false} LessIsTotal(a: string, b: string)
    ensures Less(a, b) || a == b || Less(b, a)
    ensures !(Less(a, b) && Less(b, a)) && !Less(a, a)
    decreases |a|
  {
    if a != "" && b != "" && a[0] == b[0] {
      LessIsTotal(a[1..], b[1..]);
      LessIsTotal(a[1..], a[1..]);
      assert a == [a[0]] + a[1..] && b == [b[0]] + b[1..];
    } else if a != "" {
      LessIsTotal(a[1..], a[1..]);
    }
  }

  lemma {:induction false} LessIsTransitive(a: string, b: string, c: string)
    requires Less(a, b) && Less(b, c)
    ensures Less(a, c)
    decreases |a|
  {
    if a != "" && a[0] == b[0] && b[0] == c[0] {
      LessIsTransitive(a[1..], b[1..], c[1..]);
    }
  }

  datatype Entry = Entry(key: string, device: Device)

  predicate Sorted(es: seq<Entry>) {
    forall i, j :: 0 <= i < j < |es| ==> Less(es[i].key, es[j].key)
  }

  function KeySet(es: seq<Entry>): set<string> { set i | 0 <= i < |es| :: es[i].key }

  /** The map an ordered sequence of entries stands for. */
  ghost predicate Represents(es: seq<Entry>, m: map<string, Device>) {
    m.Keys == KeySet(es) && forall i :: 0 <= i < |es| ==> es[i].key in m && m[es[i].key] == es[i].device
  }

  class BTreeMap {
    var entries: seq<Entry>

    constructor ()
      ensures entries == []
    {
      entries := [];
    }

    /** `insert`: the value replaces the one stored under an equal key. */
    method Insert(key: string, device: Device, ghost m: map<string, Device>)
      requires Sorted(entries) && Represents(entries, m)
      modifies this
      ensures Sorted(entries) && Represents(entries, m[key := device])
    {
      var at := 0;
      while at < |entries| && Less(entries[at].key, key)
        invariant at <= |entries|
        invariant forall i :: 0 <= i < at ==> Less(entries[i].key, key)
      {
        at := at + 1;
      }
      ghost var before := entries;
      if at < |entries| && entries[at].key == key {
        entries := entries[at := Entry(key, device)];
        Replaced(before, m, at, device);
      } else {
        entries := entries[..at] + [Entry(key, device)] + entries[at..];
        Inserted(before, m, at, key, device);
      }
    }
  }

  lemma Replaced(es: seq<Entry>, m: map<string, Device>, at: nat, device: Device)
    requires Sorted(es) && Represents(es, m) && at < |es|
    ensures var now := es[at := Entry(es[at].key, device)];
            Sorted(now) && Represents(now, m[es[at].key := device])
  {
    var key := es[at].key;
    var now := es[at := Entry(key, device)];
    forall i | 0 <= i < |es| && i != at ensures es[i].key != key {
      LessIsTotal(key, key);
    }
    assert forall i :: 0 <= i < |es| ==> now[i].key == es[i].key;
    assert KeySet(now) == KeySet(es);
  }

  lemma Inserted(es: seq<Entry>, m: map<string, Device>, at: nat, key: string, device: Device)
    requires Sorted(es) && Represents(es, m) && at <= |es|
    requires forall i :: 0 <= i < at ==> Less(es[i].key, key)
    requires at < |es| ==> !Less(es[at].key, key) && es[at].key != key
    ensures var now := es[..at] + [Entry(key, device)] + es[at..];
            Sorted(now) && Represents(now, m[key := device])
  {
    forall i | at <= i < |es| ensures Less(key, es[i].key) {
      LessIsTotal(key, es[at].key);
      if i > at {
        LessIsTransitive(key, es[at].key, es[i].key);
      }
    }
    InsertedSorted(es, at, Entry(key, device));
    LessIsTotal(key, key);
    assert forall i :: 0 <= i < |es| ==> es[i].key != key;
    InsertedKeys(es, at, Entry(key, device));
    InsertedValues(es, m, at, Entry(key, device));
  }

  lemma InsertedValues(es: seq<Entry>, m: map<string, Device>, at: nat, e: Entry)
    requires Represents(es, m) && at <= |es| && forall i :: 0 <= i < |es| ==> es[i].key != e.key
    ensures var now := es[..at] + [e] + es[at..];
            forall i :: 0 <= i < |now| ==>
              now[i].key in m[e.key := e.device] && m[e.key := e.device][now[i].key] == now[i].device
  {
    var now := es[..at] + [e] + es[at..];
    forall i | 0 <= i < |now|
      ensures now[i].key in m[e.key := e.device] && m[e.key := e.device][now[i].key] == now[i].device
    {
      assert now[i] == if i < at then es[i] else if i == at then e else es[i - 1];
    }
  }

  lemma InsertedSorted(es: seq<Entry>, at: nat, e: Entry)
    requires Sorted(es) && at <= |es|
    requires forall i :: 0 <= i < at ==> Less(es[i].key, e.key)
    requires forall i :: at <= i < |es| ==> Less(e.key, es[i].key)
    ensures Sorted(es[..at] + [e] + es[at..])
  {
    hide Less;
    var now := es[..at] + [e] + es[at..];
    assert forall i :: 0 <= i < |now| ==> now[i] == if i < at then es[i] else if i == at then e else es[i - 1];
  }

  lemma InsertedKeys(es: seq<Entry>, at: nat, e: Entry)
    requires at <= |es|
    ensures KeySet(es[..at] + [e] + es[at..]) == KeySet(es) + {e.key}
  {
    var now := es[..at] + [e] + es[at..];
    assert now[at] == e;
    forall i | 0 <= i < |es| ensures es[i].key in KeySet(now) {
      assert now[if i < at then i else i + 1] == es[i];
    }
    forall i | 0 <= i < |now| ensures now[i].key in KeySet(es) + {e.key} {
      assert now[i] == if i < at then es[i] else if i == at then e else es[i - 1];
    }
  }

  // ----------------------------------------------------------------------- the loop

  /** How many arrivals the loop takes before `budget` milliseconds are over or the channel closes. */
  function Taken(arrivals: seq<Arrival>, budget: nat): (k: nat)
    ensures k <= |arrivals|
    decreases |arrivals|
  {
    if budget == 0 || arrivals == [] || arrivals[0].after > budget || arrivals[0].event.Closed? then 0
    else 1 + Taken(arrivals[1..], budget - arrivals[0].after)
  }

  function Elapsed(arrivals: seq<Arrival>): nat
    decreases |arrivals|
  {
    if arrivals == [] then 0 else arrivals[0].after + Elapsed(arrivals[1..])
  }

  /** What is taken arrives in time and before the channel closes; the next arrival would not. */
  lemma {:induction false} TakenExactly(arrivals: seq<Arrival>, budget: nat)
    ensures var k := Taken(arrivals, budget);
            && Elapsed(arrivals[..k]) <= budget
            && (forall i :: 0 <= i < k ==> !arrivals[i].event.Closed?)
            && (k == |arrivals| || arrivals[k].event.Closed?
                || Elapsed(arrivals[..k]) == budget || Elapsed(arrivals[..k + 1]) > budget)
    decreases |arrivals|
  {
    var k := Taken(arrivals, budget);
    if k > 0 {
      TakenExactly(arrivals[1..], budget - arrivals[0].after);
      assert arrivals[..k][1..] == arrivals[1..][..k - 1];
      if k < |arrivals| {
        assert arrivals[..k + 1][1..] == arrivals[1..][..k];
      }
    } else if arrivals != [] {
      assert arrivals[..1][1..] == [];
    }
  }

  /** The last device written under each key, over the arrivals in order. */
  function LastWrites(arrivals: seq<Arrival>): map<string, Device>
    decreases |arrivals|
  {
    if arrivals == [] then map[]
    else
      var before := LastWrites(arrivals[..|arrivals| - 1]);
      match DeviceOf(arrivals[|arrivals| - 1].event)
      case None => before
      case Some(d) => before[Key(d.host, d.port) := d]
  }

  lemma OneMoreWrite(arrivals: seq<Arrival>, i: nat)
    requires i < |arrivals|
    ensures LastWrites(arrivals[..i + 1]) ==
              match DeviceOf(arrivals[i].event)
              case None => LastWrites(arrivals[..i])
              case Some(d) => LastWrites(arrivals[..i])[Key(d.host, d.port) := d]
  {
    assert arrivals[..i + 1][..i] == arrivals[..i];
  }

  /** The output lists, in the order of their keys, exactly the last devices of the arrivals taken in time. */
  ghost predicate Lists(devices: seq<Device>, m: map<string, Device>) {
    exists es: seq<Entry> :: Sorted(es) && Represents(es, m) && devices == Devices(es)
  }

  function Devices(es: seq<Entry>): (ds: seq<Device>)
    ensures |ds| == |es| && forall i :: 0 <= i < |es| ==> ds[i] == es[i].device
  {
    seq(|es|, i requires 0 <= i < |es| => es[i].device)
  }

  method Discover(arrivals: seq<Arrival>, timeout: nat) returns (devices: seq<Device>)
    ensures Lists(devices, LastWrites(arrivals[..Taken(arrivals, timeout)]))
    ensures ListsResolved(devices, arrivals[..Taken(arrivals, timeout)])
  {
    var tree := new BTreeMap();
    var remaining: nat := timeout;
    var i: nat := 0;
    var browsing := true;
    while browsing && remaining > 0
      invariant i <= |arrivals|
      invariant Sorted(tree.entries) && Represents(tree.entries, LastWrites(arrivals[..i]))
      invariant Taken(arrivals, timeout) == i + (if browsing then Taken(arrivals[i..], remaining) else 0)
      decreases browsing, |arrivals| - i
    {
      if i == |arrivals| || arrivals[i].after > remaining || arrivals[i].event.Closed? {
        browsing := false;
      } else {
        OneMoreWrite(arrivals, i);
        assert arrivals[i..][0] == arrivals[i] && arrivals[i..][1..] == arrivals[i + 1..];
        match DeviceOf(arrivals[i].event) {
          case None =>
          case Some(device) =>
            tree.Insert(Key(device.host, device.port), device, LastWrites(arrivals[..i]));
        }
        remaining := remaining - arrivals[i].after;
        i := i + 1;
      }
    }
    devices := Devices(tree.entries);
    ListedFromInfo(devices, arrivals[..Taken(arrivals, timeout)]);
  }

  // ------------------------------------------------------- what the result means

  predicate SamePlace(d: Device, e: Device) { d.host == e.host && d.port == e.port }

  /** The k-th arrival resolves `d`, and no later one resolves its host and port again. */
  predicate LastFor(arrivals: seq<Arrival>, k: nat, d: Device) {
    && k < |arrivals| && DeviceOf(arrivals[k].event) == Some(d)
    && forall j :: k < j < |arrivals| && DeviceOf(arrivals[j].event).Some? ==>
         !SamePlace(DeviceOf(arrivals[j].event).value, d)
  }

  lemma LastForPrefix(arrivals: seq<Arrival>, k: nat, d: Device)
    requires arrivals != []
    ensures var n := |arrivals| - 1;
            var last := DeviceOf(arrivals[n].event);
            LastFor(arrivals, k, d) <==>
              if k == n then last == Some(d)
              else LastFor(arrivals[..n], k, d) && (last.Some? ==> !SamePlace(last.value, d))
  {
    var n := |arrivals| - 1;
    assert forall j :: 0 <= j < n ==> arrivals[..n][j] == arrivals[j];
  }

  /** A device is stored under a key exactly when it is the last one resolved for its host and port. */
  lemma {:induction false} StoredIsLast(arrivals: seq<Arrival>, key: string, d: Device)
    ensures key in LastWrites(arrivals) && LastWrites(arrivals)[key] == d
            <==> key == Key(d.host, d.port) && IsLast(arrivals, d)
    decreases |arrivals|
  {
    if arrivals != [] {
      var n := |arrivals| - 1;
      var before := arrivals[..n];
      StoredIsLast(before, key, d);
      forall k: nat {
        LastForPrefix(arrivals, k, d);
      }
      var last := DeviceOf(arrivals[n].event);
      if last.Some? && Key(last.value.host, last.value.port) == Key(d.host, d.port) {
        KeyIsInjective(last.value.host, last.value.port, d.host, d.port);
      }
      assert last == Some(d) ==> LastFor(arrivals, n, d);
      if exists k :: LastFor(before, k, d) && !(last.Some? && SamePlace(last.value, d)) {
        var k :| LastFor(before, k, d) && !(last.Some? && SamePlace(last.value, d));
        assert LastFor(arrivals, k, d);
      }
    }
  }

  /** `d` is the last device resolved for its host and port. */
  ghost predicate IsLast(arrivals: seq<Arrival>, d: Device) { exists k :: LastFor(arrivals, k, d) }

  lemma ListedAreLast(es: seq<Entry>, arrivals: seq<Arrival>)
    requires Represents(es, LastWrites(arrivals))
    ensures forall i :: 0 <= i < |es| ==>
              es[i].key == Key(es[i].device.host, es[i].device.port) && IsLast(arrivals, es[i].device)
  {
    hide LastFor, LastWrites, Key;
    forall i | 0 <= i < |es|
      ensures es[i].key == Key(es[i].device.host, es[i].device.port) && IsLast(arrivals, es[i].device)
    {
      StoredIsLast(arrivals, es[i].key, es[i].device);
    }
  }

  lemma LastIsListed(es: seq<Entry>, arrivals: seq<Arrival>, d: Device)
    requires Represents(es, LastWrites(arrivals)) && IsLast(arrivals, d)
    ensures d in Devices(es)
  {
    hide LastFor, LastWrites, Key;
    var key := Key(d.host, d.port);
    StoredIsLast(arrivals, key, d);
    assert key in KeySet(es);
    var i :| 0 <= i < |es| && es[i].key == key;
    assert Devices(es)[i] == d;
  }

  /**
   The output: no two devices share a host and port, each is the last one resolved for its
   host and port within the time, every such one is there, and they are in key order.
   */
  lemma ListedExactly(devices: seq<Device>, arrivals: seq<Arrival>)
    requires Lists(devices, LastWrites(arrivals))
    ensures forall d :: d in devices <==> IsLast(arrivals, d)
    ensures forall i, j :: 0 <= i < j < |devices| ==>
              !SamePlace(devices[i], devices[j])
              && Less(Key(devices[i].host, devices[i].port), Key(devices[j].host, devices[j].port))
  {
    hide Less, LastFor, LastWrites, Key;
    var m := LastWrites(arrivals);
    var es: seq<Entry> :| Sorted(es) && Represents(es, m) && devices == Devices(es);
    ListedAreLast(es, arrivals);
    forall d | IsLast(arrivals, d) ensures d in devices {
      LastIsListed(es, arrivals, d);
    }
    forall i, j | 0 <= i < j < |devices|
      ensures !SamePlace(devices[i], devices[j])
      ensures Less(Key(devices[i].host, devices[i].port), Key(devices[j].host, devices[j].port))
    {
      assert Less(es[i].key, es[j].key);
      LessIsTotal(es[i].key, es[i].key);
    }
  }

  // ------------------------------------------- the result against what was resolved

  /** The k-th arrival resolves a service that `d` describes, and no later one resolves its host and port again. */
  ghost predicate LastResolved(arrivals: seq<Arrival>, k: nat, d: Device) {
    && k < |arrivals| && arrivals[k].event.Resolved? && Describes(d, arrivals[k].event.info)
    && forall j, other: Device ::
         k < j < |arrivals| && arrivals[j].event.Resolved? && Describes(other, arrivals[j].event.info) ==>
           other.host != d.host || other.port != d.port
  }

  /** The devices are the last resolved for their host and port, all of them, once each and in the order of `host:port`. */
  ghost predicate ListsResolved(devices: seq<Device>, arrivals: seq<Arrival>) {
    && (forall d :: d in devices <==> exists k :: LastResolved(arrivals, k, d))
    && (forall i, j :: 0 <= i < j < |devices| ==>
          && (devices[i].host != devices[j].host || devices[i].port != devices[j].port)
          && Less(devices[i].host + ":" + Decimal(devices[i].port), devices[j].host + ":" + Decimal(devices[j].port)))
  }

  lemma LastForIsResolved(arrivals: seq<Arrival>, k: nat, d: Device)
    ensures LastFor(arrivals, k, d) <==> LastResolved(arrivals, k, d)
  {
    hide Describes, DeviceOf;
    if k < |arrivals| {
      YieldsExactly(arrivals[k].event, d);
    }
    if LastFor(arrivals, k, d) {
      forall j, other: Device | k < j < |arrivals| && arrivals[j].event.Resolved? && Describes(other, arrivals[j].event.info)
        ensures other.host != d.host || other.port != d.port
      {
        YieldsExactly(arrivals[j].event, other);
      }
    }
    if LastResolved(arrivals, k, d) {
      forall j | k < j < |arrivals| && DeviceOf(arrivals[j].event).Some?
        ensures !SamePlace(DeviceOf(arrivals[j].event).value, d)
      {
        YieldsExactly(arrivals[j].event, DeviceOf(arrivals[j].event).value);
      }
    }
  }

  /** The output against the services resolved. */
  lemma ListedFromInfo(devices: seq<Device>, arrivals: seq<Arrival>)
    requires Lists(devices, LastWrites(arrivals))
    ensures ListsResolved(devices, arrivals)
  {
    hide LastFor, LastResolved, LastWrites, Lists, Less;
    ListedExactly(devices, arrivals);
    forall d ensures d in devices <==> exists k :: LastResolved(arrivals, k, d) {
      forall k: nat {
        LastForIsResolved(arrivals, k, d);
      }
    }
  }
}
