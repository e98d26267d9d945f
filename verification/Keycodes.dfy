/** The keycode argument of `src/cli.rs` against the printer of `src/session.rs`. */
module Keycodes {
  import opened Wrappers
  import opened Text

  const PREFIX := "KEYCODE_"

  predicate UpperCase(s: string) { forall i :: 0 <= i < |s| ==> UpperChar(s[i]) == s[i] }

  /** The vendored enum: distinct upper-case `KEYCODE_` names for i32 codes. */
  ghost predicate IsTable(names: map<int, string>) {
    && (forall c :: c in names ==>
          I32_MIN <= c <= I32_MAX && "KEYCODE_" <= names[c] && UpperCase(names[c]))
    && (forall c, d :: c in names && d in names && names[c] == names[d] ==> c == d)
  }

  /** `from_str_name`: the code of a name, if it is in the table. */
  ghost function CodeOf(names: map<int, string>, name: string): Option<int> {
    if exists c :: c in names && names[c] == name then
      var c :| c in names && names[c] == name; Some(c)
    else None
  }

  function KeycodeName(names: map<int, string>, code: int): string {
    if code in names then names[code] else DecimalInt(code)
  }

  function Canonical(s: string): string {
    if PREFIX <= Upper(s) then Upper(s) else PREFIX + Upper(s)
  }

  ghost function ParseKeycode(names: map<int, string>, s: string): Option<int> {
    match ParseI32(s)
    case Some(n) => if n in names then Some(n) else None
    case None => CodeOf(names, Canonical(s))
  }

  lemma CodeOfName(names: map<int, string>, code: int)
    requires IsTable(names) && code in names
    ensures CodeOf(names, names[code]) == Some(code)
  {
  }

  lemma UpperOfUpper(s: string, name: string)
    requires Upper(s) == Upper(name) && UpperCase(name)
    ensures Upper(s) == name
  {
    assert forall i :: 0 <= i < |name| ==> Upper(name)[i] == name[i];
  }

  /** The canonical name of an argument: in upper case, with the prefix put in front if it is missing. */
  predicate Names(name: string, s: string) {
    && |name| >= |s|
    && (forall i :: 0 <= i < |s| ==> name[|name| - |s| + i] == UpperChar(s[i]))
    && name[..|name| - |s|] == if "KEYCODE_" <= name[|name| - |s|..] then "" else "KEYCODE_"
  }

  lemma CanonicalNames(s: string, name: string)
    ensures Canonical(s) == name <==> Names(name, s)
  {
    assert PREFIX == "KEYCODE_";
    var u := Upper(s);
    if Names(name, s) {
      assert name[|name| - |s|..] == u && name == name[..|name| - |s|] + u;
    }
    if Canonical(s) == name {
      assert name[|name| - |s|..] == u;
    }
  }

  /** What is accepted: a spelling of a known number, or, of no i32 at all, an argument that names a known code. */
  lemma AcceptedIsKnown(names: map<int, string>, s: string, code: int)
    requires IsTable(names)
    ensures ParseKeycode(names, s) == Some(code)
            <==> code in names
                 && ((exists sign, k: nat :: Spelled(s, sign, k, code))
                     || (ParseI32(s).None? && Names(names[code], s)))
  {
    ParseI32Exactly(s, code);
    if code in names {
      CodeOfName(names, code);
      CanonicalNames(s, names[code]);
    }
  }

  /** The canonical name, in any case, parses to its code. */
  lemma NameParses(names: map<int, string>, code: int, s: string)
    requires IsTable(names) && code in names && Upper(s) == Upper(names[code])
    ensures ParseKeycode(names, s) == Some(code)
  {
    UpperOfUpper(s, names[code]);
    assert Upper(s)[0] == 'K';
    assert UpperChar(s[0]) == 'K' && !IsDigit(s[0]);
    CodeOfName(names, code);
  }

  /**
   The name without its prefix, in any case, parses to the code exactly when it does not
   read as an i32 (or reads as that very code) and does not itself start with the prefix.
   */
  lemma SuffixParses(names: map<int, string>, code: int, s: string)
    requires IsTable(names) && code in names && "KEYCODE_" + Upper(s) == names[code]
    ensures ParseKeycode(names, s) == Some(code)
            <==> (if ParseI32(s).Some? then ParseI32(s).value == code else !("KEYCODE_" <= Upper(s)))
  {
    CodeOfName(names, code);
  }

  /** Printing and parsing are inverse on the known codes, and an unknown code is refused. */
  lemma PrintedNameParses(names: map<int, string>, code: int)
    requires IsTable(names) && I32_MIN <= code <= I32_MAX
    ensures ParseKeycode(names, KeycodeName(names, code)) == (if code in names then Some(code) else None)
  {
    if code in names {
      NameParses(names, code, names[code]);
    } else {
      PrintedParses(code);
    }
  }

  /** A code is printed as its name, or as its decimal form, which no other number has. */
  lemma NameOrNumber(names: map<int, string>, code: int, other: int)
    requires IsTable(names) && I32_MIN <= code <= I32_MAX && I32_MIN <= other <= I32_MAX
    ensures code in names ==> KeycodeName(names, code) == names[code]
    ensures code !in names ==>
              && Spelled(KeycodeName(names, code), if code < 0 then Minus else NoSign, 0, code)
              && (other !in names && KeycodeName(names, other) == KeycodeName(names, code) ==> other == code)
  {
    PrintedParses(code);
    PrintedParses(other);
    assert Zeros(0) + Decimal(Size(code)) == Decimal(Size(code));
  }

  /** Where a digit name is concerned the number wins: `5` is code 5, not `KEYCODE_5`. */
  lemma DigitNameIsANumber(names: map<int, string>)
    requires IsTable(names) && 5 in names && 12 in names && names[12] == "KEYCODE_5"
    ensures ParseKeycode(names, "5") == Some(5) && ParseKeycode(names, "KEYCODE_5") == Some(12)
  {
    assert "5"[..0] == "" && ParseI32("5") == Some(5);
    NameParses(names, 12, "KEYCODE_5");
  }
}
