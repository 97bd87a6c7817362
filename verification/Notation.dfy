/** How the texts the viewer shows are read: decimal numbers, hexadecimal bytes and quoted
    characters.  Written from the standards (sections 6 and 7 of RFC 8259, section 8 of
    RFC 8949), without the printers in mind. */
module Notation {
  import opened Text

  predicate IsDigit(c: char) { '0' <= c <= '9' }

  predicate AllDigits(s: string) { forall i :: 0 <= i < |s| ==> IsDigit(s[i]) }

  function DigitsValue(s: string): nat
    requires AllDigits(s)
  {
    if s == "" then 0 else 10 * DigitsValue(s[..|s| - 1]) + (s[|s| - 1] as int - '0' as int)
  }

  /** A number without leading zeros. */
  function ReadDecimal(s: string): Option<nat> {
    if s != "" && AllDigits(s) && (s[0] != '0' || |s| == 1) then Some(DigitsValue(s)) else None
  }

  lemma {:induction false} DecimalValue(n: nat)
    ensures AllDigits(Decimal(n)) && DigitsValue(Decimal(n)) == n
    ensures n > 0 ==> Decimal(n)[0] != '0'
  {
    if n >= 10 {
      DecimalValue(n / 10);
      var s := Decimal(n);
      assert s[..|s| - 1] == Decimal(n / 10);
    } else {
      assert Decimal(n)[..0] == "";
    }
  }

  /** What printf("%u") writes is read back. */
  lemma DecimalReads(n: nat)
    ensures ReadDecimal(Decimal(n)) == Some(n)
  {
    DecimalValue(n);
  }

  /** How many digits a number takes. */
  function DigitCount(n: nat): nat { if n < 10 then 1 else 1 + DigitCount(n / 10) }

  lemma {:induction false} DecimalCount(n: nat)
    ensures |Decimal(n)| == DigitCount(n)
  {
    if n >= 10 { DecimalCount(n / 10); }
  }

  // ----- bytes in base 16

  function HexValue(c: char): Option<nat> {
    if IsDigit(c) then Some(c as int - '0' as int)
    else if 'a' <= c <= 'f' then Some(10 + (c as int - 'a' as int))
    else None
  }

  function ReadPair(a: char, b: char): (r: Option<byte>) {
    if HexValue(a).Some? && HexValue(b).Some? then Some(16 * HexValue(a).value + HexValue(b).value) else None
  }

  function ReadHex(s: string): Option<seq<byte>> {
    if s == "" then Some([])
    else if |s| < 2 then None
    else
      var b, r := ReadPair(s[0], s[1]), ReadHex(s[2..]);
      if b.None? || r.None? then None else Some([b.value] + r.value)
  }

  // ----- characters between quotes

  /** The character a letter after a backslash stands for. */
  function Named(e: char): Option<char> {
    if e == '\"' || e == '\\' || e == '/' then Some(e)
    else if e == 'n' then Some(10 as char)
    else if e == 'r' then Some(13 as char)
    else if e == 't' then Some(9 as char)
    else if e == 'b' then Some(8 as char)
    else if e == 'f' then Some(12 as char)
    else None
  }

  /** The text without its escapes; no quote stands unescaped. */
  function ReadChars(s: string): Option<string>
    decreases |s|
  {
    if s == "" then Some("")
    else if s[0] == '\"' then None
    else if s[0] != '\\' then After(s[0], ReadChars(s[1..]))
    else if |s| < 2 then None
    else if Named(s[1]).Some? then After(Named(s[1]).value, ReadChars(s[2..]))
    else if s[1] == 'u' && |s| >= 6 && s[2] == s[3] == '0' && ReadPair(s[4], s[5]).Some? then
      After(ReadPair(s[4], s[5]).value as char, ReadChars(s[6..]))
    else None
  }

  function After(c: char, r: Option<string>): Option<string> {
    if r.None? then None else Some([c] + r.value)
  }
}
