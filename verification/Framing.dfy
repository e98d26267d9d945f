/**
 Length-prefixed frames, as in `src/framing.rs`: the writer and the reader over
 a byte stream that arrives in arbitrary chunks, and what one makes of the other.
 */
module Framing {
  import opened Wrappers
  import opened Varint

  /** The reader's cap on a frame body: 1 MiB. */
  const MAX_FRAME: nat := 0x10_0000

  /** Lengths from here on need more than five groups. */
  const FIVE_GROUPS: nat := 0x8_0000_0000

  datatype ReadError = Io(ending: IoError) | VarintTooLong | FrameTooBig | BadBody

  // ------------------------------------------------------------ length prefixes

  /** A continuation bit says that more groups follow. */
  predicate More(b: byte) { b >= 128 }

  /** The number a prefix spells, least significant group first. */
  ghost function Spell(p: seq<byte>): nat {
    if p == [] then 0 else p[0] % 128 + 128 * Spell(p[1..])
  }

  /** `p` is a complete prefix: every byte but the last announces another. */
  ghost predicate Terminated(p: seq<byte>) {
    && p != []
    && (forall i :: 0 <= i < |p| - 1 ==> More(p[i]))
    && !More(p[|p| - 1])
  }

  lemma ContinuationByte(b: byte, q: seq<byte>)
    requires More(b)
    ensures Terminated([b] + q) <==> Terminated(q)
    ensures Spell([b] + q) == b % 128 + 128 * Spell(q)
  {
    var p := [b] + q;
    assert p[1..] == q;
    assert forall i :: 0 <= i < |q| ==> p[i + 1] == q[i];
    assert forall i :: 0 < i < |p| ==> p[i] == q[i - 1];
  }

  /** `p` is a length prefix within the reader's limit that stands for `n`. */
  ghost predicate Accepts(p: seq<byte>, n: nat) {
    |p| <= MAX_GROUPS && Terminated(p) && Spell(p) == n
  }

  /** The prefix the writer produces for length `n`. */
  ghost function Prefix(n: nat): (p: seq<byte>)
    ensures p != []
  {
    if n < 128 then [n] else [n % 128 + 128] + Prefix(n / 128)
  }

  function Power128(k: nat): (w: nat)
    ensures w > 0
  {
    if k == 0 then 1 else 128 * Power128(k - 1)
  }

  /** The i-th byte the writer produces: the i-th group of seven bits from the low end, and 128 more on all but the last. */
  lemma {:induction false} PrefixByte(n: nat, i: nat)
    requires i < |Prefix(n)|
    ensures Prefix(n)[i] == n / Power128(i) % 128 + (if i < |Prefix(n)| - 1 then 128 else 0)
    decreases n
  {
    if i > 0 {
      PrefixByte(n / 128, i - 1);
      DivTwice(n, Power128(i - 1));
    }
  }

  /** It produces as few bytes as the length needs. */
  lemma {:induction false} PrefixSize(n: nat, k: nat)
    ensures |Prefix(n)| <= k + 1 <==> n < Power128(k + 1)
    decreases n
  {
    OneGroupLess(n, Power128(k));
    if k > 0 {
      PowerGrows(k);
      if n >= 128 {
        PrefixSize(n / 128, k - 1);
      }
    } else {
      assert Power128(1) == 128;
    }
  }

  lemma {:induction false} PowerGrows(k: nat)
    ensures Power128(k + 1) >= 128
  {
    if k > 0 {
      PowerGrows(k - 1);
    }
  }

  lemma DivTwice(n: nat, w: nat)
    requires w > 0
    ensures n / 128 / w == n / (128 * w)
  {
    var q, r := n / 128 / w, n / 128 % w;
    assert n / 128 == q * w + r;
    var rest := 128 * r + n % 128;
    assert n == (128 * w) * q + rest by {
      assert n == 128 * (q * w + r) + n % 128;
      assert 128 * (q * w) == (128 * w) * q;
    }
    assert 0 <= rest < 128 * w;
    QuotientIs(n, 128 * w, q, rest);
  }

  lemma QuotientIs(n: int, w: int, q: int, r: int)
    requires w > 0 && n == w * q + r && 0 <= r < w
    ensures n / w == q
  {
    var k := n / w - q;
    assert w * k == r - n % w;
    NotBelow(w, k);
    NotBelow(w, -k);
  }

  lemma NotBelow(w: int, k: int)
    requires w > 0
    ensures k >= 1 ==> w * k >= w
    ensures w * -k == -(w * k)
  {
  }

  datatype Header =
    | Length(n: nat, used: nat)
    | TooLong
    | CutShort

  /** What the reader makes of the bytes `s` when it is at group `k`. */
  ghost function Scan(s: seq<byte>, k: nat): (h: Header)
    requires k < MAX_GROUPS
    ensures h.Length? ==> 1 <= h.used <= |s| && h.used + k <= MAX_GROUPS
    ensures h.TooLong? ==> |s| >= MAX_GROUPS - k
    decreases MAX_GROUPS - k
  {
    if s == [] then CutShort
    else if !More(s[0]) then Length(s[0] % 128, 1)
    else if k == MAX_GROUPS - 1 then TooLong
    else
      match Scan(s[1..], k + 1)
      case Length(n, used) => Length(s[0] % 128 + 128 * n, used + 1)
      case other => other
  }

  /** The reader accepts a length exactly when the stream starts with a prefix that spells it. */
  lemma {:induction false} ScanAccepts(s: seq<byte>, k: nat, n: nat, used: nat)
    requires k < MAX_GROUPS
    ensures Scan(s, k) == Length(n, used)
            <==> used <= |s| && used + k <= MAX_GROUPS && Terminated(s[..used]) && Spell(s[..used]) == n
    decreases MAX_GROUPS - k
  {
    if 0 < used <= |s| {
      var p := s[..used];
      assert p[0] == s[0];
      if More(s[0]) {
        var q := s[1..][..used - 1];
        assert p == [s[0]] + q;
        ContinuationByte(s[0], q);
        if k < MAX_GROUPS - 1 {
          ScanAccepts(s[1..], k + 1, Spell(q), used - 1);
          if Scan(s, k) == Length(n, used) {
            ScanAccepts(s[1..], k + 1, Scan(s[1..], k + 1).n, used - 1);
          }
        }
      } else {
        assert p[1..] == s[1..used];
      }
    }
  }

  lemma OneGroupLess(n: nat, w: nat)
    ensures n < 128 * w <==> n / 128 < w
  {
  }

  /**
   The exact writer/reader relation for prefixes, from group `k` on: lengths that fit
   the remaining groups are read back, consuming exactly the prefix; all longer ones are refused.
   */
  lemma {:induction false} ScanPrefix(n: nat, rest: seq<byte>, k: nat)
    requires k < MAX_GROUPS
    ensures n < Weight(MAX_GROUPS - k) ==> Scan(Prefix(n) + rest, k) == Length(n, |Prefix(n)|)
    ensures n >= Weight(MAX_GROUPS - k) ==> Scan(Prefix(n) + rest, k) == TooLong
    decreases MAX_GROUPS - k
  {
    hide Weight, Spell, Terminated;
    var s := Prefix(n) + rest;
    var w := Weight(MAX_GROUPS - k);
    WeightBounds(MAX_GROUPS - k);
    if n < 128 {
      assert s[0] == n;
    } else {
      assert s[0] == n % 128 + 128 && s[1..] == Prefix(n / 128) + rest;
      if k < MAX_GROUPS - 1 {
        OneGroupLess(n, Weight(MAX_GROUPS - k - 1));
        ScanPrefix(n / 128, rest, k + 1);
      }
    }
  }

  lemma WeightBounds(k: nat)
    requires 1 <= k <= MAX_GROUPS
    ensures Weight(k) >= 128 && Weight(1) == 128
  {
  }

  /** A prefix cut anywhere reads as end of stream. */
  lemma {:induction false} ScanCut(n: nat, cut: nat, k: nat)
    requires k < MAX_GROUPS && n < Weight(MAX_GROUPS - k) && cut < |Prefix(n)|
    ensures Scan(Prefix(n)[..cut], k) == CutShort
    decreases MAX_GROUPS - k
  {
    if cut > 0 {
      ScanCut(n / 128, cut - 1, k + 1);
      assert Prefix(n)[..cut][1..] == Prefix(n / 128)[..cut - 1];
    }
  }

  // ------------------------------------------------------------------ canonicity

  /** The writer's prefix for `n` continued by `j` groups of zeros. */
  ghost function Padded(n: nat, j: nat): seq<byte>
    decreases n, j
  {
    if n >= 128 then [n % 128 + 128] + Padded(n / 128, j)
    else if j == 0 then [n]
    else [n + 128] + Padded(0, j - 1)
  }

  lemma ContinuedGroup(n: nat, q: seq<byte>)
    requires Terminated(q) && Spell(q) == n / 128
    ensures Terminated([n % 128 + 128] + q) && Spell([n % 128 + 128] + q) == n
  {
    ContinuationByte(n % 128 + 128, q);
    DivModUnique(n % 128 + 128, 1, n % 128);
  }

  lemma {:induction false} PaddedSpells(n: nat, j: nat)
    ensures Terminated(Padded(n, j)) && Spell(Padded(n, j)) == n
    decreases n, j
  {
    if n >= 128 {
      PaddedSpells(n / 128, j);
      ContinuedGroup(n, Padded(n / 128, j));
    } else if j > 0 {
      PaddedSpells(0, j - 1);
      ContinuedGroup(n, Padded(0, j - 1));
    } else {
      assert Padded(n, j) == [n] && [n][1..] == [];
    }
  }

  lemma {:induction false} PaddedExtends(n: nat, j: nat)
    ensures |Padded(n, j)| == |Prefix(n)| + j
    ensures j == 0 ==> Padded(n, j) == Prefix(n)
    decreases n, j
  {
    if n >= 128 {
      PaddedExtends(n / 128, j);
    } else if j > 0 {
      PaddedExtends(0, j - 1);
    }
  }

  lemma {:induction false} SpelledIsPadded(p: seq<byte>)
    requires Terminated(p)
    ensures |Prefix(Spell(p))| <= |p| && p == Padded(Spell(p), |p| - |Prefix(Spell(p))|)
    decreases |p|
  {
    hide Prefix, Padded, Spell, More;
    if |p| > 1 {
      var q := p[1..];
      assert More(p[0]);
      assert p == [p[0]] + q;
      ContinuationByte(p[0], q);
      SpelledIsPadded(q);
      GroupOnTop(p[0], Spell(q), |q| - |Prefix(Spell(q))|);
    } else {
      LastGroup(p);
    }
  }

  lemma LastGroup(p: seq<byte>)
    requires Terminated(p) && |p| == 1
    ensures Prefix(Spell(p)) == p && Padded(Spell(p), 0) == p
  {
    assert p[1..] == [] && p == [p[0]];
  }

  /** Putting a continued group before a padded prefix gives a padded prefix. */
  lemma GroupOnTop(b: byte, m: nat, j: nat)
    requires More(b)
    ensures var n := b % 128 + 128 * m;
            var p := [b] + Padded(m, j);
            |Prefix(n)| <= |p| && p == Padded(n, |p| - |Prefix(n)|)
  {
    var n := b % 128 + 128 * m;
    DivModUnique(n, m, b % 128);
    PaddedExtends(m, j);
    if m > 0 {
      assert Prefix(n) == [b] + Prefix(m) && Padded(n, j) == [b] + Padded(m, j);
    } else {
      assert Prefix(m) == [0] && Padded(n, j + 1) == [b] + Padded(m, j);
    }
  }

  /**
   The prefixes read as `n` are exactly the written one and its zero-padded continuations
   up to five bytes, so the written one is the unique shortest.
   */
  lemma CanonicalPrefix(n: nat, p: seq<byte>)
    requires n < FIVE_GROUPS
    ensures |Prefix(n)| <= MAX_GROUPS
    ensures Accepts(p, n)
            <==> |Prefix(n)| <= |p| <= MAX_GROUPS && p == Padded(n, |p| - |Prefix(n)|)
    ensures |p| == |Prefix(n)| ==> (Accepts(p, n) <==> p == Prefix(n))
  {
    hide Prefix, Padded, Spell, Terminated;
    PrefixFits(n);
    if Accepts(p, n) {
      SpelledIsPadded(p);
    }
    if |Prefix(n)| <= |p| {
      PaddedSpells(n, |p| - |Prefix(n)|);
      PaddedExtends(n, |p| - |Prefix(n)|);
    }
  }

  lemma PrefixFits(n: nat)
    requires n < FIVE_GROUPS
    ensures |Prefix(n)| <= MAX_GROUPS
  {
    ScanPrefix(n, [], 0);
  }

  lemma PrefixFree(p: seq<byte>, n: nat, q: seq<byte>, m: nat)
    requires Accepts(p, n) && Accepts(q, m) && p <= q
    ensures p == q && n == m
  {
    assert p[|p| - 1] == q[|p| - 1];
  }

  // ---------------------------------------------------------------------- frames

  datatype Frame =
    | Body(body: seq<byte>, rest: seq<byte>)
    | Stop(error: ReadError, consumed: nat)

  /** The first frame of the pending bytes `s`, after which the stream stops as `ending`, or why there is none. */
  ghost function FirstFrame(s: seq<byte>, ending: IoError): (f: Frame)
    ensures f.Body? ==> |f.rest| < |s|
    ensures f.Stop? ==> f.consumed <= |s|
  {
    match Scan(s, 0)
    case CutShort => Stop(Io(ending), |s|)
    case TooLong => Stop(VarintTooLong, MAX_GROUPS)
    case Length(n, used) =>
      if n > MAX_FRAME then Stop(FrameTooBig, used)
      else if |s| - used < n then Stop(Io(ending), |s|)
      else Body(s[used..used + n], s[used + n..])
  }

  ghost function Encoded(body: seq<byte>): seq<byte> { Prefix(|body|) + body }

  /** What any written frame reads as, by the size of its body: up to 1 MiB, below 2^35, and from there on. */
  lemma WrittenFrame(body: seq<byte>, rest: seq<byte>, ending: IoError)
    requires |body| < U64_LIMIT
    ensures |body| <= 1024 * 1024 ==> FirstFrame(Encoded(body) + rest, ending) == Body(body, rest)
    ensures 1024 * 1024 < |body| < 0x8_0000_0000
            ==> FirstFrame(Encoded(body) + rest, ending) == Stop(FrameTooBig, |Prefix(|body|)|)
    ensures |body| >= 0x8_0000_0000 ==> FirstFrame(Encoded(body) + rest, ending) == Stop(VarintTooLong, 5)
  {
    ScanPrefix(|body|, body + rest, 0);
    assert Encoded(body) + rest == Prefix(|body|) + (body + rest);
  }

  lemma CutFrame(body: seq<byte>, cut: nat, ending: IoError)
    requires |body| <= MAX_FRAME && cut < |Encoded(body)|
    ensures FirstFrame(Encoded(body)[..cut], ending) == Stop(Io(ending), cut)
  {
    var p := Prefix(|body|);
    if cut < |p| {
      ScanCut(|body|, cut, 0);
      assert Encoded(body)[..cut] == p[..cut];
    } else {
      ScanPrefix(|body|, body[..cut - |p|], 0);
      assert Encoded(body)[..cut] == p + body[..cut - |p|];
    }
  }

  /** The stream begins with a length prefix of at most five bytes for a body of `n` bytes. */
  ghost predicate Announces(s: seq<byte>, used: nat, n: nat) {
    && used <= |s| && used <= 5 && Terminated(s[..used]) && Spell(s[..used]) == n
  }

  /** The stream begins with five bytes that all announce another. */
  predicate Endless(s: seq<byte>) { |s| >= 5 && forall i :: 0 <= i < 5 ==> s[i] >= 128 }

  lemma {:induction false} EndlessScan(s: seq<byte>, k: nat)
    requires k < MAX_GROUPS
    ensures Scan(s, k) == TooLong <==> |s| >= 5 - k && forall i :: 0 <= i < 5 - k ==> s[i] >= 128
    decreases MAX_GROUPS - k
  {
    if s != [] && s[0] >= 128 && k < MAX_GROUPS - 1 {
      EndlessScan(s[1..], k + 1);
      if |s| >= 5 - k && forall i :: 0 <= i < 4 - k ==> s[1..][i] >= 128 {
        forall i | 0 <= i < 5 - k ensures s[i] >= 128 {
          if i > 0 {
            assert s[1..][i - 1] >= 128;
          }
        }
      }
    }
  }

  /**
   The first frame of any bytes, by the bytes alone. A body is read exactly if it stands behind a
   prefix that announces its length, at most 1 MiB, and nothing of what follows is consumed; a
   longer announcement and five unfinished prefix bytes are refused; and everything else means
   that the stream stopped too early, and gives its own ending.
   */
  lemma FirstFrameExactly(s: seq<byte>, ending: IoError, n: nat, used: nat)
    ensures Announces(s, used, n) ==>
              FirstFrame(s, ending) ==
                if n > 1024 * 1024 then Stop(FrameTooBig, used)
                else if used + n <= |s| then Body(s[used..used + n], s[used + n..])
                else Stop(Io(ending), |s|)
    ensures FirstFrame(s, ending) == Stop(VarintTooLong, 5) <==> Endless(s)
    ensures (forall u, m :: !Announces(s, u, m)) && !Endless(s) ==> FirstFrame(s, ending) == Stop(Io(ending), |s|)
  {
    hide Scan, Terminated, Spell;
    ScanAccepts(s, 0, n, used);
    EndlessScan(s, 0);
    if Scan(s, 0).Length? {
      ScanAccepts(s, 0, Scan(s, 0).n, Scan(s, 0).used);
      assert Announces(s, Scan(s, 0).used, Scan(s, 0).n);
    }
  }

  /** What one `read_message` call makes of the pending bytes, and what it leaves unread. */
  ghost function Delivered<M>(s: seq<byte>, ending: IoError, decode: seq<byte> -> Option<M>)
    : (Result<M, ReadError>, seq<byte>) {
    match FirstFrame(s, ending)
    case Stop(e, consumed) => (Failure(e), s[consumed..])
    case Body(body, rest) =>
      (match decode(body) case None => Failure(BadBody) case Some(m) => Success(m), rest)
  }

  /** A complete frame is decoded; the message or the decoding error is the result, and what follows it stays unread. */
  lemma DeliversByBytes<M>(s: seq<byte>, ending: IoError, decode: seq<byte> -> Option<M>, n: nat, used: nat)
    requires Announces(s, used, n)
    ensures var (res, rest) := Delivered(s, ending, decode);
            if n > 1024 * 1024 then res == Failure(FrameTooBig) && rest == s[used..]
            else if used + n > |s| then res == Failure(Io(ending)) && rest == []
            else
              && rest == s[used + n..]
              && (forall m :: res == Success(m) <==> decode(s[used..used + n]) == Some(m))
              && (res == Failure(BadBody) <==> decode(s[used..used + n]) == None)
  {
    hide Announces;
    FirstFrameExactly(s, ending, n, used);
  }

  /** For every codec: a message that is written comes back, if its body is within the cap. */
  lemma MessageRoundTrip<M>(
    encode: M -> seq<byte>, decode: seq<byte> -> Option<M>, m: M, rest: seq<byte>, ending: IoError)
    requires decode(encode(m)) == Some(m) && |encode(m)| < U64_LIMIT
    ensures |encode(m)| <= 1024 * 1024 <==> Delivered(Encoded(encode(m)) + rest, ending, decode) == (Success(m), rest)
    ensures |encode(m)| > 1024 * 1024 ==> Delivered(Encoded(encode(m)) + rest, ending, decode).0.Failure?
  {
    WrittenFrame(encode(m), rest, ending);
  }

  // --------------------------------------------------------------------- streams

  /** Bodies written back to back. */
  ghost function Stream(bodies: seq<seq<byte>>): seq<byte> {
    if bodies == [] then [] else Encoded(bodies[0]) + Stream(bodies[1..])
  }

  ghost predicate AllWithinCap(bodies: seq<seq<byte>>) {
    forall i :: 0 <= i < |bodies| ==> |bodies[i]| <= MAX_FRAME
  }

  datatype Received = Received(bodies: seq<seq<byte>>, rest: seq<byte>, stopped: Option<ReadError>)

  /** `count` reads in a row, ending early at the first error. */
  ghost function ReadMany(s: seq<byte>, ending: IoError, count: nat): Received
    decreases count
  {
    if count == 0 then Received([], s, None)
    else
      match FirstFrame(s, ending)
      case Stop(e, consumed) => Received([], s[consumed..], Some(e))
      case Body(body, rest) =>
        var more := ReadMany(rest, ending, count - 1);
        more.(bodies := [body] + more.bodies)
  }

  /** Written bodies come back as the same sequence and the bytes after them stay unread. */
  lemma {:induction false} StreamRoundTrip(bodies: seq<seq<byte>>, rest: seq<byte>, ending: IoError)
    requires AllWithinCap(bodies)
    ensures ReadMany(Stream(bodies) + rest, ending, |bodies|) == Received(bodies, rest, None)
    decreases |bodies|
  {
    hide Encoded, FirstFrame;
    if bodies == [] {
      assert Stream(bodies) + rest == rest;
    } else {
      var tail := Stream(bodies[1..]) + rest;
      assert Stream(bodies) + rest == Encoded(bodies[0]) + tail;
      WrittenFrame(bodies[0], tail, ending);
      StreamRoundTrip(bodies[1..], rest, ending);
      assert bodies == [bodies[0]] + bodies[1..];
    }
  }

  /** A stream cut anywhere yields exactly the frames that are complete, then the way it stopped. */
  lemma {:induction false} StreamTruncated(bodies: seq<seq<byte>>, cut: nat, ending: IoError) returns (j: nat)
    requires AllWithinCap(bodies) && cut < |Stream(bodies)|
    ensures j < |bodies| && |Stream(bodies[..j])| <= cut < |Stream(bodies[..j + 1])|
    ensures ReadMany(Stream(bodies)[..cut], ending, |bodies|) == Received(bodies[..j], [], Some(Io(ending)))
    decreases |bodies|
  {
    hide Encoded, FirstFrame;
    var first := Encoded(bodies[0]);
    var s := Stream(bodies)[..cut];
    StreamOfFirst(bodies, 0);
    if cut < |first| {
      j := 0;
      assert s == first[..cut];
      CutFrame(bodies[0], cut, ending);
    } else {
      var i := StreamTruncated(bodies[1..], cut - |first|, ending);
      j := i + 1;
      StreamOfFirst(bodies, i);
      StreamOfFirst(bodies, j);
      StreamCutAfterFirst(bodies, cut, i, ending);
    }
  }

  /** The first frame is read whole, and the rest is a cut of the remaining stream. */
  lemma StreamCutAfterFirst(bodies: seq<seq<byte>>, cut: nat, i: nat, ending: IoError)
    requires i < |bodies| && |bodies[0]| <= MAX_FRAME
    requires |Encoded(bodies[0])| <= cut <= |Stream(bodies)|
    requires var tail := Stream(bodies[1..])[..cut - |Encoded(bodies[0])|];
             ReadMany(tail, ending, |bodies| - 1) == Received(bodies[1..][..i], [], Some(Io(ending)))
    ensures ReadMany(Stream(bodies)[..cut], ending, |bodies|) == Received(bodies[..i + 1], [], Some(Io(ending)))
  {
    hide Encoded, FirstFrame;
    var first := Encoded(bodies[0]);
    var tail := Stream(bodies[1..])[..cut - |first|];
    assert Stream(bodies)[..cut] == first + tail;
    WrittenFrame(bodies[0], tail, ending);
    assert bodies[..i + 1] == [bodies[0]] + bodies[1..][..i];
  }

  lemma StreamOfFirst(bodies: seq<seq<byte>>, i: nat)
    requires i < |bodies|
    ensures Stream(bodies[..i + 1]) == Encoded(bodies[0]) + Stream(bodies[1..][..i])
    ensures Stream(bodies[..0]) == []
  {
    assert bodies[..i + 1][1..] == bodies[1..][..i];
  }

  // ---------------------------------------------------------------- the code itself

  /** What one read call may find: some bytes, or an interruption by a signal. */
  datatype Chunk = Bytes(bytes: seq<byte>) | Interruption

  ghost function Flatten(chunks: seq<Chunk>): seq<byte> {
    if chunks == [] then []
    else if chunks[0].Bytes? then chunks[0].bytes + Flatten(chunks[1..])
    else Flatten(chunks[1..])
  }

  datatype ReadFault = Interrupted | Failed(ending: IoError)

  /** A reader whose bytes arrive in chunks of any size and which then stops as `ending`. */
  class ByteSource {
    var chunks: seq<Chunk>
    const ending: IoError

    ghost predicate Valid()
      reads this
    {
      forall i :: 0 <= i < |chunks| ==> chunks[i] != Bytes([])
    }

    ghost function Pending(): seq<byte>
      reads this
    {
      Flatten(chunks)
    }

    constructor (chunks: seq<Chunk>, ending: IoError)
      requires forall i :: 0 <= i < |chunks| ==> chunks[i] != Bytes([])
      ensures Valid() && Pending() == Flatten(chunks) && this.ending == ending
    {
      this.chunks := chunks;
      this.ending := ending;
    }

    /** One read call: some bytes, none at end of file, or a fault. */
    method Read(max: nat) returns (r: Result<seq<byte>, ReadFault>)
      requires Valid() && max > 0
      modifies this
      ensures Valid()
      ensures r.Success? ==> |r.value| <= max && old(Pending()) == r.value + Pending()
      ensures r.Success? && r.value == [] ==> old(Pending()) == [] && ending == Eof
      ensures r.Failure? ==> Pending() == old(Pending())
      ensures r.Failure? && r.error.Interrupted? ==> |chunks| < |old(chunks)|
      ensures r.Failure? && r.error.Failed? ==> Pending() == [] && ending == r.error.ending
    {
      if chunks == [] {
        return if ending == Eof then Success([]) else Failure(Failed(ending));
      }
      match chunks[0] {
        case Interruption =>
          chunks := chunks[1..];
          r := Failure(Interrupted);
        case Bytes(head) =>
          if |head| <= max {
            chunks := chunks[1..];
            r := Success(head);
          } else {
            chunks := [Bytes(head[max..])] + chunks[1..];
            assert head == head[..max] + head[max..];
            assert chunks[1..] == old(chunks)[1..];
            r := Success(head[..max]);
          }
      }
    }

    /** The library's `read_exact`: reads on, past interruptions, until the buffer is full or the stream stops. */
    method ReadExact(n: nat) returns (r: Result<seq<byte>, IoError>)
      requires Valid()
      modifies this
      ensures Valid()
      ensures n <= |old(Pending())| ==> r == Success(old(Pending())[..n]) && Pending() == old(Pending())[n..]
      ensures n > |old(Pending())| ==> r == Failure(ending) && Pending() == []
    {
      var got := [];
      while |got| < n
        invariant Valid() && |got| <= n
        invariant old(Pending()) == got + Pending()
        decreases n - |got|, |chunks|
      {
        var part := Read(n - |got|);
        match part {
          case Success(bytes) =>
            if bytes == [] {
              return Failure(Eof);
            }
            got := got + bytes;
          case Failure(Interrupted) =>
          case Failure(Failed(e)) =>
            return Failure(e);
        }
      }
      r := Success(got);
    }
  }

  /** A writer that takes everything, or breaks once `room` bytes are in. */
  class ByteSink {
    var written: seq<byte>
    var room: Option<nat>

    constructor (room: Option<nat>)
      ensures written == [] && this.room == room
    {
      written, this.room := [], room;
    }

    /** The library's `write_all`: all the bytes, or an error after some of them. */
    method WriteAll(bytes: seq<byte>) returns (ok: bool)
      modifies this
      ensures ok <==> old(room).None? || |bytes| <= old(room).value
      ensures ok ==> written == old(written) + bytes
      ensures !ok ==> written == old(written) + bytes[..old(room).value] && room == Some(0)
    {
      match room {
        case None =>
          written := written + bytes;
          ok := true;
        case Some(k) =>
          ok := |bytes| <= k;
          written := written + if ok then bytes else bytes[..k];
          room := Some(if ok then k - |bytes| else 0);
      }
    }
  }

  /** Writing one group: the rest of the prefix is the prefix of the quotient. */
  lemma PrefixStep(frame: seq<byte>, n: nat)
    ensures n / 128 == 0 ==> frame + Prefix(n) == frame + [n % 128]
    ensures n / 128 != 0 ==> frame + Prefix(n) == (frame + [n % 128 + 128]) + Prefix(n / 128)
  {
  }

  /** `write_message`, for an encoded body. */
  method WriteMessage(w: ByteSink, body: seq<byte>) returns (ok: bool)
    requires |body| < U64_LIMIT
    modifies w
    ensures ok <==> old(w.room).None? || |Encoded(body)| <= old(w.room).value
    ensures ok ==> w.written == old(w.written) + Encoded(body)
    ensures !ok ==> w.written == old(w.written) + Encoded(body)[..old(w.room).value]
  {
    hide Val8, Val64, Prefix, AsU64;
    var frame: seq<byte> := [];
    var len := AsU64(|body|);
    assert frame + Prefix(Val64(len)) == Prefix(|body|);
    var writing := true;
    while writing
      invariant writing ==> frame + Prefix(Val64(len)) == Prefix(|body|)
      invariant !writing ==> frame == Prefix(|body|)
      invariant w.written == old(w.written) && w.room == old(w.room)
      decreases writing, Val64(len)
    {
      PrefixStep(frame, Val64(len));
      MaskAndShift(len);
      var byte := (len & 0x7f) as bv8;
      len := len >> 7;
      ZeroWord(len);
      if len == 0 {
        frame := frame + [Val8(byte)];
        writing := false;
      } else {
        SetContinuation(byte);
        frame := frame + [Val8(byte | 0x80)];
      }
    }
    frame := frame + body;
    ok := w.WriteAll(frame);
  }

  /** What a whole scan gives once `k` groups worth `acc` have been read off it. */
  ghost function Resumed(h: Header, acc: nat, k: nat): Header
    requires k < MAX_GROUPS
  {
    match h
    case Length(n, used) => Length(acc + Weight(k) * n, used + k)
    case other => other
  }

  /** Reading one more group of a scan, whose bytes `s` are at group `k`. */
  lemma ScanStep(s: seq<byte>, acc: nat, k: nat)
    requires k < MAX_GROUPS && s != []
    ensures var next := acc + Weight(k) * (s[0] % 128);
            Resumed(Scan(s, k), acc, k) ==
              if s[0] < 128 then Length(next, k + 1)
              else if k == MAX_GROUPS - 1 then TooLong
              else Resumed(Scan(s[1..], k + 1), next, k + 1)
  {
    if s[0] >= 128 && k < MAX_GROUPS - 1 && Scan(s[1..], k + 1).Length? {
      Regroup(acc, Weight(k), s[0] % 128, Scan(s[1..], k + 1).n);
    }
  }

  lemma Regroup(acc: nat, w: nat, d: nat, n: nat)
    ensures acc + w * d + (128 * w) * n == acc + w * (d + 128 * n)
  {
  }

  lemma ScanStart(s: seq<byte>)
    ensures AtGroup(0, 0) && Below(0, 0)
    ensures Val64(0) == 0 && Resumed(Scan(s, 0), 0, 0) == Scan(s, 0)
  {
  }

  lemma ScanEnds(s: seq<byte>, acc: nat, k: nat)
    requires k < MAX_GROUPS
    ensures s == [] ==> Resumed(Scan(s, k), acc, k) == CutShort
  {
  }

  /** The prefix loop of `read_message`. */
  method ReadLength(r: ByteSource) returns (res: Result<bv64, ReadError>)
    requires r.Valid()
    modifies r
    ensures r.Valid()
    ensures match Scan(old(r.Pending()), 0)
            case CutShort => res == Failure(Io(r.ending)) && r.Pending() == []
            case TooLong => res == Failure(VarintTooLong) && r.Pending() == old(r.Pending())[MAX_GROUPS..]
            case Length(n, used) =>
              && res.Success? && Val64(res.value) == n && Below(res.value, used)
              && r.Pending() == old(r.Pending())[used..]
  {
    hide Val8, Val64, Octet, Scan, Flatten, Weight, Accumulate, Below, AtGroup, Continues;
    ghost var s := r.Pending();
    var len: bv64 := 0;
    var shift: bv32 := 0;
    ghost var k: nat := 0;
    var reading := true;
    ScanStart(s);
    assert s[0..] == s;
    while reading
      invariant r.Valid() && k <= |s| && r.Pending() == s[k..]
      invariant reading ==> k < MAX_GROUPS && AtGroup(shift, k) && Below(len, k)
      invariant reading ==> Scan(s, 0) == Resumed(Scan(s[k..], k), Val64(len), k)
      invariant !reading ==> Scan(s, 0) == Length(Val64(len), k) && k <= MAX_GROUPS && Below(len, k)
      decreases reading, MAX_GROUPS - k
    {
      ScanEnds(s[k..], Val64(len), k);
      var byte := r.ReadExact(1);
      if byte.Failure? {
        return Failure(Io(byte.error));
      }
      var b := byte.value[0];
      GroupRead(len, b, shift, k);
      ScanStep(s[k..], Val64(len), k);
      assert s[k..][1..] == s[k + 1..];
      len := Accumulate(len, Octet(b), shift);
      k := k + 1;
      if !Continues(b) {
        reading := false;
      } else if shift == 4 {
        return Failure(VarintTooLong);
      } else {
        shift := shift + 1;
      }
    }
    res := Success(len);
  }

  /** `read_message`, with the body codec's `decode` as a parameter. */
  method ReadMessage<M>(r: ByteSource, decode: seq<byte> -> Option<M>) returns (res: Result<M, ReadError>)
    requires r.Valid()
    modifies r
    ensures r.Valid()
    ensures (res, r.Pending()) == Delivered(old(r.Pending()), r.ending, decode)
  {
    hide Val64, Scan, Flatten, Below;
    ghost var s := r.Pending();
    var length := ReadLength(r);
    if length.Failure? {
      return Failure(length.error);
    }
    var len := length.value;
    CapTestAt(len, Scan(s, 0).used);
    if len > 0x10_0000 {
      return Failure(FrameTooBig);
    }
    ghost var used := Scan(s, 0).used;
    ghost var n := Val64(len);
    assert used + n <= |s| ==> s[used..][..n] == s[used..used + n] && s[used..][n..] == s[used + n..];
    var body := r.ReadExact(Val64(len));
    if body.Failure? {
      return Failure(Io(body.error));
    }
    match decode(body.value) {
      case None => res := Failure(BadBody);
      case Some(m) => res := Success(m);
    }
  }

}
