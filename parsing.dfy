/**
 * The integer parser the entry hands each scalar field to
 * (ParsingHelper.parseFilteredInteger(text, fallback, fieldName)). Its code
 * is not part of this model: the codec takes the parser as a value and
 * relies on one property only, that it reads back what Integer.toString
 * wrote. ReferenceParse is one parser with that property.
 */
module Parsing {
  import opened JavaLang

  /** `parse(text, fallback, fieldName)`. */
  type IntParser = (string, Int32, string) -> Int32

  /** The parser returns `n` for the decimal text of `n`, whatever the fallback and field name. */
  ghost predicate InvertsToString(parse: IntParser) {
    forall n: Int32, fallback: Int32, field: string :: parse(IntToString(n), fallback, field) == n
  }

  /** The value of a string of decimal digits. */
  function DigitsValue(s: string): nat
    requires AllDigits(s)
  {
    if s == [] then 0 else 10 * DigitsValue(s[..|s| - 1]) + (s[|s| - 1] as int - '0' as int)
  }

  /** Reading back the digits NatToString writes gives the number. */
  lemma {:induction false} DigitsValueOfNatToString(n: nat)
    ensures DigitsValue(NatToString(n)) == n
    decreases n
  {
    var s := NatToString(n);
    if n >= 10 {
      DigitsValueOfNatToString(n / 10);
      assert s[..|s| - 1] == NatToString(n / 10);
    }
  }

  /** Optional '-', then one or more decimal digits. */
  predicate IsNumeral(s: string) {
    (s != [] && AllDigits(s)) || (|s| > 1 && s[0] == '-' && AllDigits(s[1..]))
  }

  function NumeralValue(s: string): int
    requires IsNumeral(s)
  {
    if s[0] == '-' then -(DigitsValue(s[1..]) as int) else DigitsValue(s)
  }

  /**
   * A parser that accepts an optional '-' followed by decimal digits whose
   * value fits an `int`, and returns the fallback for anything else.
   */
  function ReferenceParse(s: string, fallback: Int32, field: string): (r: Int32)
    ensures !IsNumeral(s) ==> r == fallback
  {
    if IsNumeral(s) && -0x8000_0000 <= NumeralValue(s) < 0x8000_0000 then NumeralValue(s) else fallback
  }

  /** ReferenceParse meets the one assumption the codec makes of its parser. */
  lemma ReferenceParseInvertsToString()
    ensures InvertsToString(ReferenceParse)
  {
    forall n: Int32, fallback: Int32, field: string
      ensures ReferenceParse(IntToString(n), fallback, field) == n
    {
      var s := IntToString(n);
      var v: int := n;
      if v < 0 {
        assert s[1..] == NatToString(-v);
        DigitsValueOfNatToString(-v);
      } else {
        DigitsValueOfNatToString(n);
      }
    }
  }
}
