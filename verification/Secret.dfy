/**
 The pairing secret of `src/pairing.rs`: RSA integers in canonical form, and the
 relation between the code shown on the screen, its checksum and the digest.
 */
module Secret {
  import opened Wrappers
  import opened Text

  // ------------------------------------------------------------ canonical integers

  /** The unsigned big-endian value of a byte string. */
  function Value(b: seq<byte>): nat
    decreases |b|
  {
    if b == [] then 0 else 256 * Value(b[..|b| - 1]) + b[|b| - 1]
  }

  /** The shortest big-endian byte string of a value. */
  function Minimal(n: nat): seq<byte> {
    if n == 0 then [] else Minimal(n / 256) + [n % 256]
  }

  function StripLeadingZeros(b: seq<byte>): seq<byte>
    decreases |b|
  {
    if b != [] && b[0] == 0 then StripLeadingZeros(b[1..]) else b
  }

  lemma {:induction false} MinimalValue(n: nat)
    ensures Value(Minimal(n)) == n
  {
    if n > 0 {
      MinimalValue(n / 256);
      var b := Minimal(n);
      assert b[..|b| - 1] == Minimal(n / 256);
    }
  }

  /** Stripping before or after appending a byte. */
  lemma {:induction false} StripAppend(b: seq<byte>, x: byte)
    ensures StripLeadingZeros(b + [x]) ==
              if StripLeadingZeros(b) == [] && x == 0 then [] else StripLeadingZeros(b) + [x]
    decreases |b|
  {
    if b == [] {
      assert b + [x] == [x];
      assert [x][1..] == [];
    } else if b[0] == 0 {
      StripAppend(b[1..], x);
      assert (b + [x])[1..] == b[1..] + [x];
    }
  }

  /** Stripping leaves the shortest byte string of the same value. */
  lemma {:induction false} StripIsMinimal(b: seq<byte>)
    ensures StripLeadingZeros(b) == Minimal(Value(b))
    decreases |b|
  {
    if b != [] {
      var front, x := b[..|b| - 1], b[|b| - 1];
      StripIsMinimal(front);
      StripAppend(front, x);
      assert b == front + [x];
      assert Value(b) / 256 == Value(front) && Value(b) % 256 == x;
      if Value(front) > 0 {
        assert Minimal(Value(front)) != [];
      }
    }
  }

  /** `strip_leading_zeros` keeps the value, is idempotent, and identifies exactly equal values. */
  lemma CanonicalInteger(a: seq<byte>, b: seq<byte>)
    ensures Value(StripLeadingZeros(a)) == Value(a)
    ensures StripLeadingZeros(StripLeadingZeros(a)) == StripLeadingZeros(a)
    ensures StripLeadingZeros(a) == StripLeadingZeros(b) <==> Value(a) == Value(b)
  {
    StripIsMinimal(a);
    StripIsMinimal(b);
    MinimalValue(Value(a));
    MinimalValue(Value(b));
    StripIsMinimal(StripLeadingZeros(a));
  }

  /** `f"{n:X}"`. */
  function HexString(n: nat): (s: string)
    ensures s != "" && forall i :: 0 <= i < |s| ==> IsHexDigit(s[i])
  {
    if n < 16 then [HexChar(n, true)] else HexString(n / 16) + [HexChar(n % 16, true)]
  }

  /** `bytes.fromhex`, which demands an even number of digits. */
  function FromHex(s: string): seq<byte>
    requires |s| % 2 == 0 && forall i :: 0 <= i < |s| ==> IsHexDigit(s[i])
    decreases |s|
  {
    if s == "" then []
    else FromHex(s[..|s| - 2]) + [Pair(s[|s| - 2], s[|s| - 1])]
  }

  lemma FromHexAppend(s: string, hi: char, lo: char)
    requires |s| % 2 == 0 && forall i :: 0 <= i < |s| ==> IsHexDigit(s[i])
    requires IsHexDigit(hi) && IsHexDigit(lo)
    ensures FromHex(s + [hi] + [lo]) == FromHex(s) + [Pair(hi, lo)]
  {
    var t := s + [hi] + [lo];
    assert t[..|t| - 2] == s;
  }

  function EvenHex(n: nat): (s: string)
    ensures |s| % 2 == 0 && forall i :: 0 <= i < |s| ==> IsHexDigit(s[i])
  {
    if |HexString(n)| % 2 == 0 then HexString(n) else "0" + HexString(n)
  }

  function LowPair(n: nat): (r: string)
    ensures |r| == 2 && IsHexDigit(r[0]) && IsHexDigit(r[1])
  {
    [HexChar(n / 16 % 16, true), HexChar(n % 16, true)]
  }

  lemma LowPairValue(n: nat)
    ensures Pair(LowPair(n)[0], LowPair(n)[1]) == n % 256
    ensures n / 16 / 16 == n / 256
  {
    hide HexChar, HexValue, IsHexDigit;
    TwoNibbles(n);
  }

  lemma TwoNibbles(n: nat)
    ensures 16 * (n / 16 % 16) + n % 16 == n % 256 && n / 16 / 16 == n / 256
  {
    var m := n / 16;
    assert n == 16 * m + n % 16;
    assert m == 16 * (m / 16) + m % 16;
    assert n == 256 * (m / 16) + (16 * (m % 16) + n % 16);
  }

  /** Two more hex digits for one more byte. */
  lemma HexOfLarger(n: nat)
    requires n >= 256
    ensures EvenHex(n) == EvenHex(n / 256) + LowPair(n)
  {
    LowPairValue(n);
    var q := n / 16;
    assert q >= 16;
    assert HexString(n) == HexString(q) + [HexChar(n % 16, true)];
    assert HexString(q) == HexString(q / 16) + [HexChar(q % 16, true)];
  }

  lemma HexOfOneByte(n: nat)
    requires n < 256
    ensures EvenHex(n) == LowPair(n)
  {
    if n >= 16 {
      var q := n / 16;
      assert q < 16 && q % 16 == q;
      assert HexString(n) == HexString(q) + [HexChar(n % 16, true)];
    }
  }

  /** For a positive value the hex digits, padded to an even number, are the shortest byte string. */
  lemma {:induction false} EvenHexIsMinimal(n: nat)
    requires n > 0
    ensures FromHex(EvenHex(n)) == Minimal(n)
    decreases n
  {
    hide EvenHex, LowPair, Pair;
    LowPairValue(n);
    var p := LowPair(n);
    if n < 256 {
      HexOfOneByte(n);
      assert p == "" + [p[0]] + [p[1]];
      FromHexAppend("", p[0], p[1]);
      assert Minimal(n / 256) == [];
    } else {
      HexOfLarger(n);
      EvenHexIsMinimal(n / 256);
      var e := EvenHex(n / 256);
      assert e + p == e + [p[0]] + [p[1]];
      FromHexAppend(e, p[0], p[1]);
    }
  }

  /**
   The fixtures' encodings: the plain hex string where it has an even number of digits (the
   modulus), and the one with a 0 in front where it has an odd number (the exponent).
   */
  lemma FixtureEncodings(b: seq<byte>)
    requires Value(b) > 0
    ensures var s := HexString(Value(b));
            StripLeadingZeros(b) == FromHex(if |s| % 2 == 0 then s else "0" + s)
  {
    StripIsMinimal(b);
    EvenHexIsMinimal(Value(b));
  }

  // ---------------------------------------------------------------------- the secret

  /** What parsing a certificate gives. */
  datatype CertKey = Unparseable | NotRsa | Rsa(modulus: seq<byte>, exponent: seq<byte>)

  datatype RsaNumbers = RsaNumbers(modulus: seq<byte>, exponent: seq<byte>)

  function RsaNumbersOf(key: CertKey): Result<RsaNumbers, ErrorKind> {
    match key
    case Rsa(m, e) => Success(RsaNumbers(StripLeadingZeros(m), StripLeadingZeros(e)))
    case _ => Failure(ProtocolError)
  }

  /** A hash with 32 bytes of output; nothing else is known of it. */
  ghost predicate IsHash(sha: seq<byte> -> seq<byte>) { forall x :: |sha(x)| == 32 }

  /** What is hashed for two RSA keys and a nonce. */
  function Material(client: CertKey, server: CertKey, nonce: seq<byte>): seq<byte>
    requires client.Rsa? && server.Rsa?
  {
    StripLeadingZeros(client.modulus) + StripLeadingZeros(client.exponent)
    + StripLeadingZeros(server.modulus) + StripLeadingZeros(server.exponent) + nonce
  }

  /**
   What the two sides hash: the shortest big-endian bytes of the client's modulus and exponent and
   of the server's modulus and exponent, in this order, and then the nonce.
   */
  function HashInput(client: CertKey, server: CertKey, nonce: seq<byte>): seq<byte>
    requires client.Rsa? && server.Rsa?
  {
    Minimal(Value(client.modulus)) + Minimal(Value(client.exponent))
    + Minimal(Value(server.modulus)) + Minimal(Value(server.exponent)) + nonce
  }

  lemma MaterialIsHashInput(client: CertKey, server: CertKey, nonce: seq<byte>)
    requires client.Rsa? && server.Rsa?
    ensures Material(client, server, nonce) == HashInput(client, server, nonce)
  {
    StripIsMinimal(client.modulus);
    StripIsMinimal(client.exponent);
    StripIsMinimal(server.modulus);
    StripIsMinimal(server.exponent);
  }

  /** For small keys and the code "AB1234" that is these six bytes. */
  lemma HashInputExample()
    ensures HashInput(Rsa([0, 7], [3]), Rsa([0, 0, 5], [3]), Nonce("AB1234")) == [7, 3, 5, 3, 0x12, 0x34]
    ensures Material(Rsa([0, 7], [3]), Rsa([0, 0, 5], [3]), Nonce("AB1234")) == [7, 3, 5, 3, 0x12, 0x34]
  {
    MaterialIsHashInput(Rsa([0, 7], [3]), Rsa([0, 0, 5], [3]), Nonce("AB1234"));
    assert StripLeadingZeros([0, 7]) == [7] && StripLeadingZeros([0, 0, 5]) == [5] && StripLeadingZeros([3]) == [3];
  }

  predicate IsCode(code: string) { |code| == 6 && forall i :: 0 <= i < 6 ==> IsHexDigit(code[i]) }

  function Checksum(code: string): byte
    requires IsCode(code)
  {
    Pair(code[0], code[1])
  }

  function Nonce(code: string): seq<byte>
    requires IsCode(code)
  {
    [Pair(code[2], code[3]), Pair(code[4], code[5])]
  }

  /** SHA-256 fed step by step. */
  class Hasher {
    var fed: seq<byte>

    constructor ()
      ensures fed == []
    {
      fed := [];
    }

    method Update(bytes: seq<byte>)
      modifies this
      ensures fed == old(fed) + bytes
    {
      fed := fed + bytes;
    }
  }

  /** Whether `code` is accepted for the two keys. */
  predicate Accepted(sha: seq<byte> -> seq<byte>, client: CertKey, server: CertKey, code: string) {
    && IsCode(code) && client.Rsa? && server.Rsa?
    && |sha(Material(client, server, Nonce(code)))| > 0
    && sha(Material(client, server, Nonce(code)))[0] == Checksum(code)
  }

  /** What `compute_pairing_secret` returns. */
  function Computed(sha: seq<byte> -> seq<byte>, client: CertKey, server: CertKey, code: string)
    : Result<seq<byte>, ErrorKind>
  {
    if !IsCode(code) then Failure(PairingFailed)
    else if !client.Rsa? || !server.Rsa? then Failure(ProtocolError)
    else if !Accepted(sha, client, server, code) then Failure(PairingFailed)
    else Success(sha(Material(client, server, Nonce(code))))
  }

  /** The byte that two characters of a code spell, the high digit first. */
  function ByteAt(code: string, i: nat): byte
    requires i + 1 < |code| && IsHexDigit(code[i]) && IsHexDigit(code[i + 1])
  {
    16 * HexValue(code[i]) + HexValue(code[i + 1])
  }

  /**
   What the pairing secret must be: not six hex digits is a pairing failure, before anything else;
   a certificate without an RSA key a protocol error; and otherwise the digest, if its first byte
   is the one the code begins with, and a pairing failure if it is not.
   */
  predicate SecretFor(
    sha: seq<byte> -> seq<byte>, client: CertKey, server: CertKey, code: string, r: Result<seq<byte>, ErrorKind>)
  {
    if |code| != 6 || exists i :: 0 <= i < |code| && !IsHexDigit(code[i]) then r == Failure(PairingFailed)
    else if !client.Rsa? || !server.Rsa? then r == Failure(ProtocolError)
    else
      var digest := sha(HashInput(client, server, [ByteAt(code, 2), ByteAt(code, 4)]));
      r == if digest != [] && digest[0] == ByteAt(code, 0) then Success(digest) else Failure(PairingFailed)
  }

  lemma ComputedIsSecret(sha: seq<byte> -> seq<byte>, client: CertKey, server: CertKey, code: string)
    ensures SecretFor(sha, client, server, code, Computed(sha, client, server, code))
  {
    hide HashInput, Material, HexValue;
    if IsCode(code) && client.Rsa? && server.Rsa? {
      MaterialIsHashInput(client, server, Nonce(code));
    }
  }

  method ComputePairingSecret(sha: seq<byte> -> seq<byte>, client: CertKey, server: CertKey, code: string)
    returns (r: Result<seq<byte>, ErrorKind>)
    requires IsHash(sha)
    ensures r == Computed(sha, client, server, code)
    ensures SecretFor(sha, client, server, code, r)
  {
    hide Minimal, StripLeadingZeros, Value, Pair, SecretFor;
    ComputedIsSecret(sha, client, server, code);
    if |code| != 6 || exists i :: 0 <= i < |code| && !IsHexDigit(code[i]) {
      return Failure(PairingFailed);
    }
    var checksum := Pair(code[0], code[1]);
    var nonce := [Pair(code[2], code[3]), Pair(code[4], code[5])];
    var c := RsaNumbersOf(client);
    if c.Failure? {
      return Failure(c.error);
    }
    var s := RsaNumbersOf(server);
    if s.Failure? {
      return Failure(s.error);
    }
    var hasher := new Hasher();
    hasher.Update(c.value.modulus);
    hasher.Update(c.value.exponent);
    hasher.Update(s.value.modulus);
    hasher.Update(s.value.exponent);
    hasher.Update(nonce);
    assert hasher.fed == Material(client, server, Nonce(code));
    var digest := sha(hasher.fed);
    if digest[0] != checksum {
      return Failure(PairingFailed);
    }
    r := Success(digest);
  }

  // -------------------------------------------------------------- codes and digests

  function Lower(s: string): (r: string)
    ensures |r| == |s| && forall i :: 0 <= i < |s| ==> r[i] == LowerChar(s[i])
  {
    seq(|s|, i requires 0 <= i < |s| => LowerChar(s[i]))
  }

  /** A byte as two lower-case hex digits. */
  function HexByte(b: byte): string { [HexChar(b / 16, false), HexChar(b % 16, false)] }

  /** The code a TV shows for a digest byte and a nonce. */
  function Shown(checksum: byte, nonce: seq<byte>): string
    requires |nonce| == 2
  {
    HexByte(checksum) + HexByte(nonce[0]) + HexByte(nonce[1])
  }

  /** Printing a code and reading it back is the identity. */
  lemma ShownReadsBack(checksum: byte, nonce: seq<byte>)
    requires |nonce| == 2
    ensures var code := Shown(checksum, nonce);
            IsCode(code) && Checksum(code) == checksum && Nonce(code) == nonce && Lower(code) == code
  {
  }

  /** Two hex digits read as a byte and printed are the same digits in lower case. */
  lemma PairPrints(hi: char, lo: char)
    requires IsHexDigit(hi) && IsHexDigit(lo)
    ensures HexByte(Pair(hi, lo)) == [LowerChar(hi), LowerChar(lo)]
  {
    hide HexValue, HexChar, LowerChar, IsHexDigit;
    HexCharOfValue(hi);
    HexCharOfValue(lo);
    assert Pair(hi, lo) / 16 == HexValue(hi) && Pair(hi, lo) % 16 == HexValue(lo);
  }

  lemma CodeIsShown(code: string)
    requires IsCode(code)
    ensures Lower(code) == Shown(Checksum(code), Nonce(code))
  {
    hide HexByte, Pair, LowerChar;
    PairPrints(code[0], code[1]);
    PairPrints(code[2], code[3]);
    PairPrints(code[4], code[5]);
  }

  /**
   Accepted codes, compared without case: exactly the hex of the digest's first byte followed
   by the hex of a nonce that gives that digest. Every other string fails as `PairingFailed`.
   */
  lemma AcceptedExactly(sha: seq<byte> -> seq<byte>, client: CertKey, server: CertKey, code: string)
    requires IsHash(sha) && client.Rsa? && server.Rsa?
    ensures Accepted(sha, client, server, code)
            <==> exists nonce: seq<byte> :: |nonce| == 2
                   && Lower(code) == Shown(sha(HashInput(client, server, nonce))[0], nonce)
    ensures !Accepted(sha, client, server, code)
            <==> Computed(sha, client, server, code) == Failure(PairingFailed)
  {
    hide HashInput, Material;
    if Accepted(sha, client, server, code) {
      CodeIsShown(code);
      var nonce := Nonce(code);
      MaterialIsHashInput(client, server, nonce);
      assert Lower(code) == Shown(sha(HashInput(client, server, nonce))[0], nonce);
    }
    if nonce: seq<byte> :| |nonce| == 2 && Lower(code) == Shown(sha(HashInput(client, server, nonce))[0], nonce) {
      MaterialIsHashInput(client, server, nonce);
      LowerIsCode(code, sha(HashInput(client, server, nonce))[0], nonce);
    }
  }

  /** A string equal to a shown code up to case is a code with the same bytes. */
  lemma LowerIsCode(code: string, checksum: byte, nonce: seq<byte>)
    requires |nonce| == 2 && Lower(code) == Shown(checksum, nonce)
    ensures IsCode(code) && Checksum(code) == checksum && Nonce(code) == nonce
  {
    ShownReadsBack(checksum, nonce);
    forall i | 0 <= i < 6 ensures IsHexDigit(code[i]) && HexValue(code[i]) == HexValue(Shown(checksum, nonce)[i]) {
      assert LowerChar(code[i]) == Shown(checksum, nonce)[i];
    }
  }

  /** For any two RSA keys and nonce, exactly one of the 256 checksum bytes is accepted. */
  lemma OneChecksum(sha: seq<byte> -> seq<byte>, client: CertKey, server: CertKey, nonce: seq<byte>, checksum: byte)
    requires IsHash(sha) && client.Rsa? && server.Rsa? && |nonce| == 2
    ensures var digest := sha(HashInput(client, server, nonce));
            && (Accepted(sha, client, server, Shown(checksum, nonce)) <==> checksum == digest[0])
            && Computed(sha, client, server, Shown(digest[0], nonce)) == Success(digest)
  {
    hide HashInput, Material;
    MaterialIsHashInput(client, server, nonce);
    ShownReadsBack(checksum, nonce);
    ShownReadsBack(sha(HashInput(client, server, nonce))[0], nonce);
  }

  /** The secret depends on the certificates only through the values of their integers. */
  lemma SecretDependsOnValues(sha: seq<byte> -> seq<byte>, c1: CertKey, c2: CertKey, s1: CertKey, s2: CertKey, code: string)
    requires c1.Rsa? && c2.Rsa? && s1.Rsa? && s2.Rsa?
    requires Value(c1.modulus) == Value(c2.modulus) && Value(c1.exponent) == Value(c2.exponent)
    requires Value(s1.modulus) == Value(s2.modulus) && Value(s1.exponent) == Value(s2.exponent)
    ensures Computed(sha, c1, s1, code) == Computed(sha, c2, s2, code)
  {
    CanonicalInteger(c1.modulus, c2.modulus);
    CanonicalInteger(c1.exponent, c2.exponent);
    CanonicalInteger(s1.modulus, s2.modulus);
    CanonicalInteger(s1.exponent, s2.exponent);
    assert IsCode(code) ==> Material(c1, s1, Nonce(code)) == Material(c2, s2, Nonce(code));
  }
}
