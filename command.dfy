/**
 * Parsing of the command number the client's `prompt` reads (main.py:64-73).
 * Empty text and text that is not all digits give -1; otherwise the value of
 * the digits, as Python's `int` reads them (leading zeros allowed).
 */
module Command {

  predicate IsDigit(c: char) { '0' <= c <= '9' }

  /** `str.isnumeric` on ASCII text: at least one character, and every one a digit. */
  predicate IsNumeric(s: string)
  {
    |s| > 0 && forall i :: 0 <= i < |s| ==> IsDigit(s[i])
  }

  function DigitValue(c: char): nat
    requires IsDigit(c)
  {
    c as int - '0' as int
  }

  function Digit(d: nat): (c: char)
    requires d < 10
    ensures IsDigit(c) && DigitValue(c) == d
  {
    ('0' as int + d) as char
  }

  /** The value of a digit string, most significant digit first. */
  function DigitsValue(s: string): nat
    requires forall i :: 0 <= i < |s| ==> IsDigit(s[i])
  {
    if |s| == 0 then 0 else DigitsValue(s[..|s| - 1]) * 10 + DigitValue(s[|s| - 1])
  }

  /** The command number for the text the user typed. */
  function ParseCommand(cmd: string): (r: int)
    ensures r == -1 <==> cmd == "" || !IsNumeric(cmd)
    ensures r != -1 ==> r >= 0 && r == DigitsValue(cmd)
  {
    if cmd == "" then -1
    else if !IsNumeric(cmd) then -1
    else DigitsValue(cmd)
  }

  /** Decimal notation of n, without leading zeros. */
  function ShowNat(n: nat): (s: string)
    ensures IsNumeric(s)
    decreases n
  {
    if n < 10 then [Digit(n)] else ShowNat(n / 10) + [Digit(n % 10)]
  }

  /** Every command number typed in decimal is read back as itself. */
  lemma {:induction false} ParseShowNat(n: nat)
    ensures ParseCommand(ShowNat(n)) == n
  {
    var s := ShowNat(n);
    if n >= 10 {
      ParseShowNat(n / 10);
      assert s[..|s| - 1] == ShowNat(n / 10);
      assert DigitsValue(s) == DigitsValue(ShowNat(n / 10)) * 10 + n % 10;
    }
  }

  /** A digit string without a leading zero starting at least one digit is at least 1. */
  lemma {:induction false} NoLeadingZeroPositive(s: string)
    requires IsNumeric(s) && s[0] != '0'
    ensures DigitsValue(s) >= 1
    decreases |s|
  {
    if |s| > 1 {
      var p := s[..|s| - 1];
      assert p[0] == s[0];
      NoLeadingZeroPositive(p);
    }
  }

  /**
   * Conversely, a numeric text without leading zeros (or "0" itself) is the
   * decimal notation of the number it is parsed as: the parse is one to one
   * on such texts.
   */
  lemma {:induction false} ShowParse(s: string)
    requires IsNumeric(s) && (s[0] != '0' || s == "0")
    ensures ShowNat(ParseCommand(s)) == s
    decreases |s|
  {
    if |s| == 1 {
      assert ShowNat(DigitValue(s[0])) == [s[0]];
    } else {
      var p := s[..|s| - 1];
      assert p[0] == s[0] && IsNumeric(p);
      NoLeadingZeroPositive(p);
      ShowParse(p);
      var v := DigitsValue(s);
      assert v == DigitsValue(p) * 10 + DigitValue(s[|s| - 1]);
      assert v / 10 == DigitsValue(p) && v % 10 == DigitValue(s[|s| - 1]);
      assert Digit(v % 10) == s[|s| - 1];
      assert s == p + [s[|s| - 1]];
    }
  }
}
