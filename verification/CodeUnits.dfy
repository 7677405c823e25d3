/** Program text as the source's strings hold it: UTF-16 code units. */
module CodeUnits {
  type Unit = u: nat | u < 0x1_0000

  type Text = seq<Unit>

  const QUOTE: Unit := 0x22
  const AMPERSAND: Unit := 0x26
  const SEMICOLON: Unit := 0x3B
  const HASH: Unit := 0x23
  const BACKSLASH: Unit := 0x5C
  const LEFT_BRACE: Unit := 0x7B
  const RIGHT_BRACE: Unit := 0x7D

  function UnitOf(c: char): (u: Unit)
    requires c as int < 0x80
  {
    c as int
  }

  /** The code units of a literal written in plain ASCII. */
  function Ascii(s: string): (t: Text)
    requires forall i :: 0 <= i < |s| ==> s[i] as int < 0x80
  {
    seq(|s|, i requires 0 <= i < |s| => UnitOf(s[i]))
  }

  predicate IsDigit(u: Unit) {
    0x30 <= u <= 0x39
  }

  predicate IsHexDigit(u: Unit) {
    IsDigit(u) || 0x41 <= u <= 0x46 || 0x61 <= u <= 0x66
  }

  function DigitValue(u: Unit): (d: nat)
    requires IsHexDigit(u)
    ensures d < 16
  {
    if IsDigit(u) then u - 0x30 else if u <= 0x46 then u - 0x37 else u - 0x57
  }

  function HexDigit(d: nat): (u: Unit)
    requires d < 16
    ensures IsHexDigit(u) && DigitValue(u) == d
  {
    if d < 10 then 0x30 + d else 0x57 + d
  }

  /** The digits of both cases, in order of their values. */
  lemma DigitsAre(d: nat)
    requires d < 16
    ensures var lower, upper := Ascii("0123456789abcdef")[d], Ascii("0123456789ABCDEF")[d];
            && IsHexDigit(lower) && DigitValue(lower) == d && IsHexDigit(upper) && DigitValue(upper) == d
            && HexDigit(d) == lower && (IsDigit(lower) <==> d < 10)
  {
  }
}
