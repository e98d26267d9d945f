/**
 Base-128 varints: the arithmetic they stand for, and the facts that connect
 the masks, shifts and ORs of the source to that arithmetic.
 (Protocol Buffers Encoding guide, "Base 128 Varints"; DWARF 5, section 7.6.)
 */
module Varint {
  import opened Wrappers

  const U64_LIMIT: nat := 0x1_0000_0000_0000_0000

  /** More than five groups of seven bits are never read. */
  const MAX_GROUPS: nat := 5

  // ---------------------------------------------------------------- casts

  lemma BitsJoin(h: bv1, l: bv1)
    ensures ((h as bv2 << 1) | l as bv2) as int == 2 * (h as int) + l as int
  {
  }

  lemma PairsJoin(h: bv2, l: bv2)
    ensures ((h as bv4 << 2) | l as bv4) as int == 4 * (h as int) + l as int
  {
  }

  lemma NibblesJoin(h: bv4, l: bv4)
    ensures ((h as bv8 << 4) | l as bv8) as int == 16 * (h as int) + l as int
  {
  }

  function U1(n: nat): (x: bv1)
    requires n < 2
    ensures x as int == n
  {
    if n == 0 then 0 else 1
  }

  function U2(n: nat): (x: bv2)
    requires n < 4
    ensures x as int == n
  {
    var h, l := U1(n / 2), U1(n % 2);
    BitsJoin(h, l);
    (h as bv2 << 1) | l as bv2
  }

  function U4(n: nat): (x: bv4)
    requires n < 16
    ensures x as int == n
  {
    var h, l := U2(n / 4), U2(n % 4);
    PairsJoin(h, l);
    (h as bv4 << 2) | l as bv4
  }

  /** The u8 that holds `n`. */
  function Octet(n: byte): (b: bv8)
    ensures b as int == n
  {
    NibblesJoin(U4(n / 16), U4(n % 16));
    (U4(n / 16) as bv8 << 4) | U4(n % 16) as bv8
  }

  /** The number a u8 holds. */
  function Val8(b: bv8): byte { b as int }

  /** The number a u64 holds. */
  function Val64(x: bv64): nat { x as int }

  lemma OctetsJoin(h: bv8, l: bv8)
    ensures ((h as bv16 << 8) | l as bv16) as int == 0x100 * (h as int) + l as int
  {
  }

  lemma HalfWordsJoin(h: bv16, l: bv16)
    ensures ((h as bv32 << 16) | l as bv32) as int == 0x1_0000 * (h as int) + l as int
  {
  }

  lemma WordsJoin(h: bv32, l: bv32)
    ensures ((h as bv64 << 32) | l as bv64) as int == 0x1_0000_0000 * (h as int) + l as int
  {
  }

  function U16(n: nat): (x: bv16)
    requires n < 0x1_0000
    ensures x as int == n
  {
    var h, l := Octet(n / 0x100), Octet(n % 0x100);
    OctetsJoin(h, l);
    (h as bv16 << 8) | l as bv16
  }

  lemma U32Of(n: nat, h: bv16, l: bv16)
    requires h as int == n / 0x1_0000 && l as int == n % 0x1_0000
    ensures ((h as bv32 << 16) | l as bv32) as int == n
  {
    HalfWordsJoin(h, l);
  }

  function U32(n: nat): (x: bv32)
    requires n < 0x1_0000_0000
    ensures x as int == n
  {
    var h, l := U16(n / 0x1_0000), U16(n % 0x1_0000);
    U32Of(n, h, l);
    (h as bv32 << 16) | l as bv32
  }

  lemma U64Of(n: nat, h: bv32, l: bv32)
    requires h as int == n / 0x1_0000_0000 && l as int == n % 0x1_0000_0000
    ensures ((h as bv64 << 32) | l as bv64) as int == n
  {
    WordsJoin(h, l);
  }

  /** The 64-bit word whose value is `n`, assembled from its halves. */
  function U64(n: nat): (x: bv64)
    requires n < U64_LIMIT
    ensures x as int == n
  {
    var h, l := U32(n / 0x1_0000_0000), U32(n % 0x1_0000_0000);
    U64Of(n, h, l);
    (h as bv64 << 32) | l as bv64
  }

  lemma WordRoundTrip(x: bv64)
    ensures (x as int) as bv64 == x
  {
  }

  lemma CastOf(n: nat, x: bv64)
    requires n < U64_LIMIT && x as int == n
    ensures n as bv64 == x
  {
    WordRoundTrip(x);
  }

  /** `len() as u64`, which loses nothing below 2^64. */
  function AsU64(n: nat): (x: bv64)
    requires n < U64_LIMIT
    ensures Val64(x) == n
  {
    CastOf(n, U64(n));
    n as bv64
  }

  // ------------------------------------------------- one group of seven bits

  lemma LowAndHighBits(x: bv64) returns (q: bv57, d: bv7)
    ensures x == (q as bv64 << 7) | d as bv64
    ensures x >> 7 == q as bv64
    ensures x & 0x7f <= 0x7f
    ensures (x & 0x7f) as bv8 == d as bv8
  {
    q, d := (x >> 7) as bv57, (x & 0x7f) as bv7;
  }

  lemma GroupsJoin(q: bv57, d: bv7)
    ensures ((q as bv64 << 7) | d as bv64) as int == 128 * (q as int) + d as int
    ensures q as bv64 as int == q as int
    ensures d as bv8 as int == d as int
    ensures 0 <= d as int < 128
  {
  }

  lemma DivModUnique(n: int, q: int, d: int)
    requires n == 128 * q + d && 0 <= d < 128
    ensures n / 128 == q && n % 128 == d
  {
  }

  lemma GroupsDivMod(x: bv64, q: bv57, d: bv7)
    requires x == (q as bv64 << 7) | d as bv64
    ensures q as bv64 as int == x as int / 128
    ensures d as bv8 as int == x as int % 128
  {
    GroupsJoin(q, d);
    DivModUnique(x as int, q as int, d as int);
  }

  /** `len & 0x7f` and `len >> 7` are remainder and quotient by 128, for every u64. */
  lemma MaskAndShift(x: bv64)
    ensures x & 0x7f <= 0x7f
    ensures Val8((x & 0x7f) as bv8) == Val64(x) % 128
    ensures Val64(x >> 7) == Val64(x) / 128
  {
    var q, d := LowAndHighBits(x);
    GroupsDivMod(x, q, d);
  }

  lemma ZeroWord(x: bv64)
    ensures x == 0 <==> Val64(x) == 0
  {
  }

  /** The continuation bit: `byte | 0x80` adds 128 to a seven-bit group. */
  lemma SetContinuation(d: bv8)
    requires Val8(d) < 128
    ensures Val8(d | 0x80) == Val8(d) + 128
  {
  }

  lemma TestContinuation(b: bv8)
    ensures Val8(b & 0x7f) == Val8(b) % 128
    ensures b & 0x80 == 0 <==> Val8(b) < 128
  {
  }

  // --------------------------------------------- accumulating groups by OR

  /** 128 to the power of `k`, for the five groups that are read. */
  function Weight(k: nat): (w: nat)
    requires k <= MAX_GROUPS
    ensures k > 0 ==> w == 128 * Weight(k - 1)
  {
    if k == 0 then 1
    else if k == 1 then 0x80
    else if k == 2 then 0x4000
    else if k == 3 then 0x20_0000
    else if k == 4 then 0x1000_0000
    else 0x8_0000_0000
  }

  /** No bit at or above position `7 * k` is set. */
  predicate Below(acc: bv64, k: nat)
    requires k <= MAX_GROUPS
  {
    if k == 0 then acc == 0
    else if k == 1 then acc < 0x80
    else if k == 2 then acc < 0x4000
    else if k == 3 then acc < 0x20_0000
    else if k == 4 then acc < 0x1000_0000
    else acc < 0x8_0000_0000
  }

  /** The u32 loop counter `shift` is at its k-th value. */
  predicate AtGroup(shift: bv32, k: nat)
    requires k <= MAX_GROUPS
  {
    if k == 0 then shift == 0
    else if k == 1 then shift == 1
    else if k == 2 then shift == 2
    else if k == 3 then shift == 3
    else if k == 4 then shift == 4
    else shift == 5
  }

  lemma Or0(acc: bv64, d: bv8, r: bv64)
    requires acc < 1 && d < 0x80 && r == acc | (d as bv64 << 0)
    ensures r < 0x80 && Val64(r) == Val64(acc) + 1 * Val8(d)
  {
  }

  lemma Or1(acc: bv64, d: bv8, r: bv64)
    requires acc < 0x80 && d < 0x80 && r == acc | (d as bv64 << 7)
    ensures r < 0x4000 && Val64(r) == Val64(acc) + 0x80 * Val8(d)
  {
  }

  lemma Or2(acc: bv64, d: bv8, r: bv64)
    requires acc < 0x4000 && d < 0x80 && r == acc | (d as bv64 << 14)
    ensures r < 0x20_0000 && Val64(r) == Val64(acc) + 0x4000 * Val8(d)
  {
  }

  lemma Or3(acc: bv64, d: bv8, r: bv64)
    requires acc < 0x20_0000 && d < 0x80 && r == acc | (d as bv64 << 21)
    ensures r < 0x1000_0000 && Val64(r) == Val64(acc) + 0x20_0000 * Val8(d)
  {
  }

  lemma Or4(acc: bv64, d: bv8, r: bv64)
    requires acc < 0x1000_0000 && d < 0x80 && r == acc | (d as bv64 << 28)
    ensures r < 0x8_0000_0000 && Val64(r) == Val64(acc) + 0x1000_0000 * Val8(d)
  {
  }

  /** What one pass of the reader's loop does to its accumulator. */
  function Accumulate(acc: bv64, b: bv8, shift: bv32): bv64
    requires shift < 5
  {
    acc | ((b & 0x7f) as bv64 << (7 * shift))
  }

  lemma AccumulateAt0(acc: bv64, b: bv8, shift: bv32)
    requires shift == 0
    ensures b & 0x7f < 0x80 && Accumulate(acc, b, shift) == acc | ((b & 0x7f) as bv64 << 0)
  {
  }

  lemma AccumulateAt1(acc: bv64, b: bv8, shift: bv32)
    requires shift == 1
    ensures b & 0x7f < 0x80 && Accumulate(acc, b, shift) == acc | ((b & 0x7f) as bv64 << 7)
  {
  }

  lemma AccumulateAt2(acc: bv64, b: bv8, shift: bv32)
    requires shift == 2
    ensures b & 0x7f < 0x80 && Accumulate(acc, b, shift) == acc | ((b & 0x7f) as bv64 << 14)
  {
  }

  lemma AccumulateAt3(acc: bv64, b: bv8, shift: bv32)
    requires shift == 3
    ensures b & 0x7f < 0x80 && Accumulate(acc, b, shift) == acc | ((b & 0x7f) as bv64 << 21)
  {
  }

  lemma AccumulateAt4(acc: bv64, b: bv8, shift: bv32)
    requires shift == 4
    ensures b & 0x7f < 0x80 && Accumulate(acc, b, shift) == acc | ((b & 0x7f) as bv64 << 28)
  {
  }

  lemma Accumulate0(acc: bv64, b: bv8, shift: bv32)
    requires shift == 0 && acc < 1
    ensures Accumulate(acc, b, shift) < 0x80
    ensures Val64(Accumulate(acc, b, shift)) == Val64(acc) + 1 * Val8(b & 0x7f)
  {
    hide Val8, Val64, Accumulate;
    AccumulateAt0(acc, b, shift);
    Or0(acc, b & 0x7f, Accumulate(acc, b, shift));
  }

  lemma Accumulate1(acc: bv64, b: bv8, shift: bv32)
    requires shift == 1 && acc < 0x80
    ensures Accumulate(acc, b, shift) < 0x4000
    ensures Val64(Accumulate(acc, b, shift)) == Val64(acc) + 0x80 * Val8(b & 0x7f)
  {
    hide Val8, Val64, Accumulate;
    AccumulateAt1(acc, b, shift);
    Or1(acc, b & 0x7f, Accumulate(acc, b, shift));
  }

  lemma Accumulate2(acc: bv64, b: bv8, shift: bv32)
    requires shift == 2 && acc < 0x4000
    ensures Accumulate(acc, b, shift) < 0x20_0000
    ensures Val64(Accumulate(acc, b, shift)) == Val64(acc) + 0x4000 * Val8(b & 0x7f)
  {
    hide Val8, Val64, Accumulate;
    AccumulateAt2(acc, b, shift);
    Or2(acc, b & 0x7f, Accumulate(acc, b, shift));
  }

  lemma Accumulate3(acc: bv64, b: bv8, shift: bv32)
    requires shift == 3 && acc < 0x20_0000
    ensures Accumulate(acc, b, shift) < 0x1000_0000
    ensures Val64(Accumulate(acc, b, shift)) == Val64(acc) + 0x20_0000 * Val8(b & 0x7f)
  {
    hide Val8, Val64, Accumulate;
    AccumulateAt3(acc, b, shift);
    Or3(acc, b & 0x7f, Accumulate(acc, b, shift));
  }

  lemma Accumulate4(acc: bv64, b: bv8, shift: bv32)
    requires shift == 4 && acc < 0x1000_0000
    ensures Accumulate(acc, b, shift) < 0x8_0000_0000
    ensures Val64(Accumulate(acc, b, shift)) == Val64(acc) + 0x1000_0000 * Val8(b & 0x7f)
  {
    hide Val8, Val64, Accumulate;
    AccumulateAt4(acc, b, shift);
    Or4(acc, b & 0x7f, Accumulate(acc, b, shift));
  }

  /** ORing in group `k` adds it at its weight: no bit collides or falls off the word. */
  lemma OrIsAdd(acc: bv64, b: bv8, shift: bv32, k: nat)
    requires k < MAX_GROUPS && AtGroup(shift, k) && Below(acc, k)
    ensures shift < 5 && Below(Accumulate(acc, b, shift), k + 1)
    ensures Val64(Accumulate(acc, b, shift)) == Val64(acc) + Weight(k) * Val8(b & 0x7f)
  {
    hide Val8, Val64, Accumulate;
    if k == 0 { Accumulate0(acc, b, shift); }
    else if k == 1 { Accumulate1(acc, b, shift); }
    else if k == 2 { Accumulate2(acc, b, shift); }
    else if k == 3 { Accumulate3(acc, b, shift); }
    else { Accumulate4(acc, b, shift); }
  }

  lemma NextGroup(shift: bv32, k: nat)
    requires k < MAX_GROUPS && AtGroup(shift, k)
    ensures AtGroup(shift + 1, k + 1)
    ensures shift < 5 && (shift == 4 <==> k == 4)
  {
  }

  lemma CapTest(len: bv64)
    requires Below(len, MAX_GROUPS)
    ensures len > 0x10_0000 <==> Val64(len) > 0x10_0000
  {
  }

  /** Fewer groups stay below the bound of more groups. */
  lemma BelowGrows(acc: bv64, k: nat)
    requires k <= MAX_GROUPS && Below(acc, k)
    ensures Below(acc, MAX_GROUPS)
  {
  }

  lemma CapTestAt(len: bv64, k: nat)
    requires k <= MAX_GROUPS && Below(len, k)
    ensures len > 0x10_0000 <==> Val64(len) > 0x10_0000
  {
    BelowGrows(len, k);
    CapTest(len);
  }

  /** `byte[0] & 0x80`: whether another group follows. */
  predicate Continues(b: byte) { Octet(b) & 0x80 != 0 }

  /** One pass of the reader's loop at group `k`, over the byte `b`. */
  lemma GroupRead(acc: bv64, b: byte, shift: bv32, k: nat)
    requires k < MAX_GROUPS && AtGroup(shift, k) && Below(acc, k)
    ensures shift < 5
    ensures Below(Accumulate(acc, Octet(b), shift), k + 1)
    ensures Val64(Accumulate(acc, Octet(b), shift)) == Val64(acc) + Weight(k) * (b % 128)
    ensures Continues(b) <==> b >= 128
    ensures AtGroup(shift + 1, k + 1)
    ensures shift == 4 <==> k == 4
  {
    hide Val8, Val64, Octet, Weight, Accumulate, Below, AtGroup;
    OctetValue(b);
    OrIsAdd(acc, Octet(b), shift, k);
    TestContinuation(Octet(b));
    NextGroup(shift, k);
  }

  lemma OctetValue(n: byte)
    ensures Val8(Octet(n)) == n
  {
  }
}
