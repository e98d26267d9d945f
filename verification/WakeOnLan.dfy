/** The MAC argument and the magic packet of `src/wol.rs`. */
module WakeOnLan {
  import opened Wrappers
  import opened Text

  predicate IsSeparator(c: char) { c == ':' || c == '-' }

  /** `s.split([':', '-'])`: the fields between separators. */
  function Split(s: string): (parts: seq<string>)
    ensures |parts| > 0
    decreases |s|
  {
    if s == "" then [""]
    else
      var rest := Split(s[1..]);
      if IsSeparator(s[0]) then [""] + rest else [[s[0]] + rest[0]] + rest[1..]
  }

  /** `u8::from_str_radix(part, 16)`: an optional plus sign, at least one digit, at most 255. */
  function FromStrRadix16(part: string): Option<byte> {
    var digits := if part != "" && part[0] == '+' then part[1..] else part;
    if digits == "" || !AllHex(digits) then None
    else if HexNumber(digits) < 256 then Some(HexNumber(digits))
    else None
  }

  predicate AllHex(s: string) { forall i :: 0 <= i < |s| ==> IsHexDigit(s[i]) }

  function HexNumber(s: string): nat
    requires AllHex(s)
  {
    if s == "" then 0 else 16 * HexNumber(s[..|s| - 1]) + HexValue(s[|s| - 1])
  }

  // -------------------------------------------------- the shape of what is accepted

  /** A field: two hex digits, or a plus sign and one hex digit. */
  predicate IsField(a: char, b: char) { (IsHexDigit(a) || a == '+') && IsHexDigit(b) }

  function FieldValue(a: char, b: char): byte
    requires IsField(a, b)
  {
    if a == '+' then HexValue(b) else Pair(a, b)
  }

  lemma TwoCharField(part: string)
    requires |part| == 2
    ensures FromStrRadix16(part) ==
              if IsField(part[0], part[1]) then Some(FieldValue(part[0], part[1])) else None
  {
    if part[0] == '+' {
      OneHexDigit(part[1..]);
    } else {
      OneHexDigit(part[..1]);
      assert AllHex(part) <==> IsHexDigit(part[0]) && IsHexDigit(part[1]);
    }
  }

  lemma OneHexDigit(s: string)
    requires |s| == 1
    ensures AllHex(s) <==> IsHexDigit(s[0])
    ensures AllHex(s) ==> HexNumber(s) == HexValue(s[0])
  {
    assert s[..0] == "";
    if AllHex(s) {
      assert HexNumber(s) == 16 * HexNumber(s[..0]) + HexValue(s[0]);
    }
  }

  /** Fields of two characters each, `k` of them, with single separators between. */
  predicate IsRow(s: string, k: nat) {
    && k > 0 && |s| == 3 * k - 1
    && forall i :: 0 <= i < |s| ==> (s[i] == ':' || s[i] == '-' <==> i % 3 == 2)
  }

  /** The place of the first separator, or the length of the string. */
  function FirstSeparator(s: string): (j: nat)
    ensures j <= |s| && (j < |s| ==> IsSeparator(s[j]))
    ensures forall i :: 0 <= i < j ==> !IsSeparator(s[i])
  {
    if s == "" || IsSeparator(s[0]) then 0 else 1 + FirstSeparator(s[1..])
  }

  lemma {:induction false} SplitFirst(s: string)
    ensures var j := FirstSeparator(s);
            Split(s) == if j == |s| then [s] else [s[..j]] + Split(s[j + 1..])
    decreases |s|
  {
    hide IsSeparator;
    var j := FirstSeparator(s);
    if j > 0 {
      var r := s[1..];
      SplitFirst(r);
      assert s == [s[0]] + r && FirstSeparator(r) == j - 1;
      if j < |s| {
        assert s[..j] == [s[0]] + r[..j - 1] && s[j + 1..] == r[j..];
        assert Split(s) == [[s[0]] + r[..j - 1]] + Split(r[j..]);
      }
    } else if s != "" {
      assert s[..0] == "";
    }
  }

  /** All fields are two characters long exactly when the separators are at every third place. */
  lemma {:induction false} SplitRow(s: string, k: nat)
    ensures (|Split(s)| == k && forall i :: 0 <= i < k ==> |Split(s)[i]| == 2) <==> IsRow(s, k)
    ensures IsRow(s, k) ==> forall i :: 0 <= i < k ==> Split(s)[i] == s[3 * i..3 * i + 2]
    decreases |s|
  {
    var j := FirstSeparator(s);
    SplitFirst(s);
    if IsRow(s, k) {
      assert !IsSeparator(s[0]) && !IsSeparator(s[1]);
      assert |s| > 2 ==> IsSeparator(s[2]);
    }
    if j == 2 && |s| > 2 && k > 1 {
      var tail := s[3..];
      var parts := Split(s);
      SplitRow(tail, k - 1);
      RowTail(s, k);
      assert forall i :: 0 < i < |parts| ==> parts[i] == Split(tail)[i - 1];
      if IsRow(tail, k - 1) {
        forall i | 0 <= i < k ensures |parts[i]| == 2 && parts[i] == s[3 * i..3 * i + 2] {
          if i > 0 {
            assert tail[3 * (i - 1)..3 * (i - 1) + 2] == s[3 * i..3 * i + 2];
          }
        }
      } else if |parts| == k {
        var i :| 0 <= i < k - 1 && |Split(tail)[i]| != 2;
        assert parts[i + 1] == Split(tail)[i];
      }
    } else if j == 2 && |s| == 2 {
      assert s[0..2] == s;
    } else if j != 2 {
      assert |Split(s)[0]| == j;
    }
  }

  lemma RowTail(s: string, k: nat)
    requires k > 1 && |s| >= 3 && !IsSeparator(s[0]) && !IsSeparator(s[1]) && IsSeparator(s[2])
    ensures IsRow(s, k) <==> IsRow(s[3..], k - 1)
  {
    var tail := s[3..];
    if IsRow(tail, k - 1) {
      assert forall i :: 3 <= i < |s| ==> s[i] == tail[i - 3] && i % 3 == (i - 3) % 3;
    }
    if IsRow(s, k) {
      assert forall i :: 0 <= i < |tail| ==> tail[i] == s[i + 3] && i % 3 == (i + 3) % 3;
    }
  }

  /** The strings accepted: six fields in a row. */
  predicate IsMac(s: string) {
    IsRow(s, 6) && forall i :: 0 <= i < 6 ==> IsField(s[3 * i], s[3 * i + 1])
  }

  function MacOf(s: string): (mac: seq<byte>)
    requires IsMac(s)
    ensures |mac| == 6 && forall i :: 0 <= i < 6 ==> mac[i] == FieldValue(s[3 * i], s[3 * i + 1])
  {
    seq(6, i requires 0 <= i < 6 => FieldValue(s[3 * i], s[3 * i + 1]))
  }

  /** The strings of that shape are exactly those whose fields can all be read, and the values agree. */
  lemma FieldsDecide(s: string)
    ensures IsMac(s) <==> |Split(s)| == 6 && forall i :: 0 <= i < 6 ==> Readable(Split(s)[i])
    ensures IsMac(s) ==> forall i :: 0 <= i < 6 ==> FromStrRadix16(Split(s)[i]) == Some(MacOf(s)[i])
  {
    var parts := Split(s);
    SplitRow(s, 6);
    if IsRow(s, 6) {
      forall i | 0 <= i < 6
        ensures Readable(parts[i]) <==> IsField(s[3 * i], s[3 * i + 1])
        ensures Readable(parts[i]) ==> FromStrRadix16(parts[i]) == Some(FieldValue(s[3 * i], s[3 * i + 1]))
      {
        assert parts[i][0] == s[3 * i] && parts[i][1] == s[3 * i + 1];
        TwoCharField(parts[i]);
      }
    } else if |parts| == 6 {
      var i :| 0 <= i < 6 && |parts[i]| != 2;
      assert !Readable(parts[i]);
    }
  }

  /** A field `parse_mac` accepts. */
  predicate Readable(part: string) { |part| == 2 && FromStrRadix16(part).Some? }

  /** `parse_mac` accepts exactly the strings of that shape and returns their field values. */
  method ParseMac(s: string) returns (r: Option<seq<byte>>)
    ensures r == if IsMac(s) then Some(MacOf(s)) else None
  {
    hide IsMac, Split, FromStrRadix16;
    FieldsDecide(s);
    var parts := Split(s);
    if |parts| != 6 {
      return None;
    }
    var mac := new byte[6](_ => 0);
    for i := 0 to 6
      invariant forall j :: 0 <= j < i ==> Readable(parts[j])
      invariant forall j :: 0 <= j < i ==> FromStrRadix16(parts[j]) == Some(mac[j])
    {
      if |parts[i]| != 2 {
        assert !Readable(parts[i]);
        return None;
      }
      var v := FromStrRadix16(parts[i]);
      if v == None {
        assert !Readable(parts[i]);
        return None;
      }
      mac[i] := v.value;
    }
    assert mac[..] == MacOf(s) by {
      forall i | 0 <= i < 6 ensures mac[i] == MacOf(s)[i] {
        assert FromStrRadix16(parts[i]) == Some(MacOf(s)[i]);
      }
    }
    r := Some(mac[..]);
  }

  // ------------------------------------------------------------------- round trip

  /** A MAC printed with any separator after each field and either case for each digit. */
  function Printed(mac: seq<byte>, separator: int -> char, upper: int -> bool): (s: string)
    requires |mac| == 6
    ensures |s| == 17
  {
    seq(17, i requires 0 <= i < 17 =>
      if i % 3 == 0 then HexChar(mac[i / 3] / 16, upper(i))
      else if i % 3 == 1 then HexChar(mac[i / 3] % 16, upper(i))
      else separator(i / 3))
  }

  /** Printing a MAC with any mix of separators and cases and parsing it gives it back. */
  lemma PrintedMacParses(mac: seq<byte>, separator: int -> char, upper: int -> bool)
    requires |mac| == 6 && forall i :: separator(i) == ':' || separator(i) == '-'
    ensures IsMac(Printed(mac, separator, upper)) && MacOf(Printed(mac, separator, upper)) == mac
  {
    var s := Printed(mac, separator, upper);
    assert IsRow(s, 6) by {
      forall i | 0 <= i < 17 ensures IsSeparator(s[i]) <==> i % 3 == 2 {
        assert forall v, u: bool :: 0 <= v < 16 ==> !IsSeparator(HexChar(v, u));
      }
    }
    forall i | 0 <= i < 6 ensures IsField(s[3 * i], s[3 * i + 1]) && FieldValue(s[3 * i], s[3 * i + 1]) == mac[i] {
      ThirdPlaces(i);
      assert s[3 * i] == HexChar(mac[i] / 16, upper(3 * i));
      assert s[3 * i + 1] == HexChar(mac[i] % 16, upper(3 * i + 1));
    }
  }

  lemma ThirdPlaces(i: nat)
    ensures (3 * i) % 3 == 0 && (3 * i) / 3 == i && (3 * i + 1) % 3 == 1 && (3 * i + 1) / 3 == i
  {
  }

  // ----------------------------------------------------------------- magic packet

  /** Six 0xff bytes, then the MAC sixteen times. */
  predicate IsMagicPacket(pkt: seq<byte>, mac: seq<byte>)
    requires |mac| == 6
  {
    && |pkt| == 102
    && (forall i :: 0 <= i < 6 ==> pkt[i] == 0xff)
    && (forall i :: 6 <= i < 102 ==> pkt[i] == mac[i % 6])
  }

  method MagicPacket(mac: seq<byte>) returns (pkt: array<byte>)
    requires |mac| == 6
    ensures fresh(pkt) && IsMagicPacket(pkt[..], mac)
  {
    pkt := new byte[102](_ => 0xff);
    for i := 0 to 16
      invariant forall j :: 0 <= j < 6 ==> pkt[j] == 0xff
      invariant forall j :: 6 <= j < 6 + i * 6 ==> pkt[j] == mac[j % 6]
    {
      forall j | 0 <= j < 6 {
        pkt[6 + i * 6 + j] := mac[j];
      }
      forall j | 6 + i * 6 <= j < 12 + i * 6 ensures pkt[j] == mac[j % 6] {
        assert j == 6 + i * 6 + (j - 6 - i * 6);
        assert j % 6 == j - 6 - i * 6;
      }
    }
  }

  /** The packet determines the MAC. */
  lemma PacketDeterminesMac(pkt: seq<byte>, mac: seq<byte>, other: seq<byte>)
    requires |mac| == 6 && |other| == 6
    requires IsMagicPacket(pkt, mac) && IsMagicPacket(pkt, other)
    ensures mac == other
  {
    forall i | 0 <= i < 6 ensures mac[i] == other[i] {
      assert pkt[i + 6] == mac[(i + 6) % 6] && pkt[i + 6] == other[(i + 6) % 6];
    }
  }
}
