/** Digits and numbers as text: the standard library's parsing and printing that the client relies on. */
module Text {
  import opened Wrappers

  // ------------------------------------------------------------------ hexadecimal

  predicate IsHexDigit(c: char) {
    '0' <= c <= '9' || 'a' <= c <= 'f' || 'A' <= c <= 'F'
  }

  function HexValue(c: char): (v: nat)
    requires IsHexDigit(c)
    ensures v < 16
  {
    if c <= '9' then c as int - '0' as int
    else if c <= 'F' then c as int - 'A' as int + 10
    else c as int - 'a' as int + 10
  }

  function HexChar(v: nat, upper: bool): (c: char)
    requires v < 16
    ensures IsHexDigit(c) && HexValue(c) == v
  {
    if v < 10 then ('0' as int + v) as char
    else if upper then ('A' as int + v - 10) as char
    else ('a' as int + v - 10) as char
  }

  function Pair(hi: char, lo: char): byte
    requires IsHexDigit(hi) && IsHexDigit(lo)
  {
    16 * HexValue(hi) + HexValue(lo)
  }

  function LowerChar(c: char): char { if 'A' <= c <= 'Z' then (c as int + 32) as char else c }

  function UpperChar(c: char): char { if 'a' <= c <= 'z' then (c as int - 32) as char else c }

  function Upper(s: string): (r: string)
    ensures |r| == |s| && forall i :: 0 <= i < |s| ==> r[i] == UpperChar(s[i])
  {
    if s == "" then "" else [UpperChar(s[0])] + Upper(s[1..])
  }

  /** The hex digits are the usual ones, in either case, with the usual values. */
  lemma HexDigits(v: nat)
    requires v < 16
    ensures var lower, upper := "0123456789abcdef"[v], "0123456789ABCDEF"[v];
            && HexChar(v, false) == lower && HexChar(v, true) == upper
            && IsHexDigit(lower) && HexValue(lower) == v && IsHexDigit(upper) && HexValue(upper) == v
  {
  }

  /** There are no others: a hex digit is the one printed for its value, in one of the cases. */
  lemma NoOtherHexDigits(c: char)
    requires IsHexDigit(c)
    ensures c == HexChar(HexValue(c), false) || c == HexChar(HexValue(c), true)
  {
  }

  /** Case changes letters only, between the two usual alphabets. */
  lemma Letters(c: char, i: nat)
    requires i < 26
    ensures UpperChar("abcdefghijklmnopqrstuvwxyz"[i]) == "ABCDEFGHIJKLMNOPQRSTUVWXYZ"[i]
    ensures LowerChar("ABCDEFGHIJKLMNOPQRSTUVWXYZ"[i]) == "abcdefghijklmnopqrstuvwxyz"[i]
    ensures !('a' <= c <= 'z') ==> UpperChar(c) == c
    ensures !('A' <= c <= 'Z') ==> LowerChar(c) == c
  {
  }

  /** A hex digit is, up to case, the one printed for its value. */
  lemma HexCharOfValue(c: char)
    requires IsHexDigit(c)
    ensures LowerChar(c) == HexChar(HexValue(c), false)
  {
  }

  // ---------------------------------------------------------------------- decimal

  predicate IsDigit(c: char) { '0' <= c <= '9' }

  function Digit(d: nat): (c: char)
    requires d < 10
    ensures IsDigit(c) && c as int - '0' as int == d
  {
    ('0' as int + d) as char
  }

  predicate AllDigits(s: string) { s != "" && forall i :: 0 <= i < |s| ==> IsDigit(s[i]) }

  /** The number a string of decimal digits denotes. */
  function Number(s: string): nat
    requires forall i :: 0 <= i < |s| ==> IsDigit(s[i])
  {
    if s == "" then 0
    else
      assert IsDigit(s[|s| - 1]);
      10 * Number(s[..|s| - 1]) + (s[|s| - 1] as int - '0' as int)
  }

  /** A number printed in decimal. */
  function Decimal(n: nat): (s: string)
    ensures s != ""
  {
    if n < 10 then [Digit(n)] else Decimal(n / 10) + [Digit(n % 10)]
  }

  lemma {:induction false} DecimalDenotes(n: nat)
    ensures AllDigits(Decimal(n)) && Number(Decimal(n)) == n
  {
    if n >= 10 {
      DecimalDenotes(n / 10);
      var s := Decimal(n);
      assert s[..|s| - 1] == Decimal(n / 10);
    }
  }

  function DecimalInt(n: int): string { if n < 0 then "-" + Decimal(-n) else Decimal(n) }

  const I32_MIN: int := -0x8000_0000
  const I32_MAX: int := 0x7fff_ffff

  /** `s.parse::<i32>()`: an optional sign, at least one digit, and a value in range. */
  function ParseI32(s: string): Option<int> {
    var signed := s != "" && (s[0] == '+' || s[0] == '-');
    var digits := if signed then s[1..] else s;
    if !AllDigits(digits) then None
    else
      var v: int := if signed && s[0] == '-' then 0 - Number(digits) else Number(digits);
      if I32_MIN <= v <= I32_MAX then Some(v) else None
  }

  function Zeros(k: nat): (z: string)
    ensures |z| == k && forall i :: 0 <= i < k ==> z[i] == '0'
  {
    seq(k, _ => '0')
  }

  /** The digits of a number are its decimal form behind any zeros. */
  lemma {:induction false} DigitsAre(s: string) returns (k: nat)
    requires AllDigits(s)
    ensures s == Zeros(k) + Decimal(Number(s))
    decreases |s|
  {
    var front, d := s[..|s| - 1], s[|s| - 1] as int - '0' as int;
    assert s == front + [Digit(d)];
    if front == "" {
      k := 0;
      assert Number(s) == d;
    } else {
      var j := DigitsAre(front);
      if Number(front) == 0 {
        k := j + 1;
        assert Zeros(k) == Zeros(j) + Decimal(0);
      } else {
        k := j;
        assert Number(s) / 10 == Number(front) && Number(s) % 10 == d;
      }
    }
  }

  lemma {:induction false} ZerosDenoteNothing(k: nat, n: nat)
    ensures var s := Zeros(k) + Decimal(n); AllDigits(s) && Number(s) == n
    decreases k, n
  {
    DecimalDenotes(n);
    var s := Zeros(k) + Decimal(n);
    assert forall i :: 0 <= i < |s| ==> s[i] == (if i < k then '0' else Decimal(n)[i - k]);
    if n >= 10 {
      ZerosDenoteNothing(k, n / 10);
      assert s[..|s| - 1] == Zeros(k) + Decimal(n / 10);
    } else if k > 0 {
      ZerosDenoteNothing(k - 1, 0);
      assert s[..|s| - 1] == Zeros(k - 1) + Decimal(0);
    } else {
      assert s == Decimal(n);
    }
  }

  datatype Sign = NoSign | Plus | Minus

  function SignText(sign: Sign): string { match sign case NoSign => "" case Plus => "+" case Minus => "-" }

  function Size(v: int): nat { if v < 0 then -v else v }

  /** A minus where needed or an optional sign, then zeros, then the decimal form of the size. */
  predicate Spelled(s: string, sign: Sign, k: nat, v: int) {
    && s == SignText(sign) + (Zeros(k) + Decimal(Size(v)))
    && if sign.Minus? then v <= 0 else v >= 0
  }

  lemma SpelledParses(s: string, sign: Sign, k: nat, v: int)
    requires Spelled(s, sign, k, v) && I32_MIN <= v <= I32_MAX
    ensures ParseI32(s) == Some(v)
  {
    hide Decimal, Number;
    ZerosDenoteNothing(k, Size(v));
    var digits := Zeros(k) + Decimal(Size(v));
    if sign == NoSign {
      assert s == digits;
      assert IsDigit(s[0]);
    } else {
      assert s[0] == SignText(sign)[0] && s[1..] == digits;
    }
  }

  lemma ParsedIsSpelled(s: string, v: int) returns (sign: Sign, k: nat)
    requires ParseI32(s) == Some(v)
    ensures Spelled(s, sign, k, v) && I32_MIN <= v <= I32_MAX
  {
    hide Decimal, Number, Zeros;
    if s != "" && (s[0] == '+' || s[0] == '-') {
      sign := if s[0] == '+' then Plus else Minus;
      k := DigitsAre(s[1..]);
      assert s == [s[0]] + s[1..];
    } else {
      sign := NoSign;
      k := DigitsAre(s);
      assert s == "" + s;
    }
  }

  /** `parse::<i32>` accepts exactly the spellings of the i32 values. */
  lemma ParseI32Exactly(s: string, v: int)
    ensures ParseI32(s) == Some(v) <==> I32_MIN <= v <= I32_MAX && exists sign, k: nat :: Spelled(s, sign, k, v)
  {
    hide ParseI32, Spelled;
    if ParseI32(s) == Some(v) {
      var sign, k := ParsedIsSpelled(s, v);
    }
    if I32_MIN <= v <= I32_MAX && exists sign, k: nat :: Spelled(s, sign, k, v) {
      var sign, k: nat :| Spelled(s, sign, k, v);
      SpelledParses(s, sign, k, v);
    }
  }

  lemma PrintedParses(n: int)
    requires I32_MIN <= n <= I32_MAX
    ensures ParseI32(DecimalInt(n)) == Some(n)
  {
    DecimalDenotes(if n < 0 then -n else n);
    var s := DecimalInt(n);
    if n < 0 {
      assert s[1..] == Decimal(-n);
    } else {
      assert IsDigit(s[0]);
    }
  }
}
