/**
 * The two JavaScript number coercions the engine relies on: `+text` (in
 * `setNumberValue` and in the relational comparisons of `min`/`max`) and
 * `'' + n` (in the React Native number adapter). Only integers written as an
 * optional sign followed by decimal digits are recognised as numbers.
 */
module Numbers {
  import opened Wrappers
  import opened FormTypes

  predicate IsDigit(c: char) {
    '0' <= c <= '9'
  }

  predicate AllDigits(s: string) {
    forall i | 0 <= i < |s| :: IsDigit(s[i])
  }

  function DigitValue(c: char): (d: nat)
    requires IsDigit(c)
    ensures d < 10
  {
    (c as int) - ('0' as int)
  }

  function DigitChar(d: nat): (c: char)
    requires d < 10
    ensures IsDigit(c) && DigitValue(c) == d
  {
    ('0' as int + d) as char
  }

  /** The number a run of decimal digits denotes (0 for the empty run). */
  function DigitsValue(s: string): nat
    requires AllDigits(s)
  {
    if s == [] then 0 else DigitsValue(s[..|s| - 1]) * 10 + DigitValue(s[|s| - 1])
  }

  /** The decimal digits of `n`, most significant first, without leading zeros. */
  function NatToDigits(n: nat): (s: string)
    ensures |s| > 0 && AllDigits(s)
    ensures DigitsValue(s) == n
    ensures s[0] == '0' ==> n == 0
  {
    if n < 10 then [DigitChar(n)]
    else
      var prefix := NatToDigits(n / 10);
      var s := prefix + [DigitChar(n % 10)];
      assert s[..|s| - 1] == prefix;
      s
  }

  /** `'' + n` for an integer `n`. */
  function IntToString(n: int): (s: string)
    ensures |s| > 0
  {
    if n < 0 then "-" + NatToDigits(-n) else NatToDigits(n)
  }

  /**
   * `+s` for a non-empty string `s`: `Some(n)` when `s` is an optional `+` or
   * `-` followed by at least one decimal digit, `None` (JavaScript's NaN) otherwise.
   */
  function ParseDecimal(s: string): (r: Option<int>)
    ensures r.Some? ==> |s| > 0 && (r.value < 0 ==> s[0] == '-')
    ensures |s| > 0 && AllDigits(s) ==> r == Some(DigitsValue(s))
  {
    if |s| > 1 && (s[0] == '-' || s[0] == '+') && AllDigits(s[1..]) then
      var magnitude: int := DigitsValue(s[1..]);
      Some(if s[0] == '-' then -magnitude else magnitude)
    else if |s| > 0 && AllDigits(s) then
      Some(DigitsValue(s))
    else
      None
  }

  /** `+s` for any string: the empty string coerces to 0. */
  function StringToNumber(s: string): (r: Option<int>)
    ensures AllDigits(s) ==> r == Some(DigitsValue(s))
    ensures r.Some? && r.value < 0 ==> s[0] == '-'
  {
    if s == "" then Some(0) else ParseDecimal(s)
  }

  /**
   * The number a relational comparison `value < n` coerces `value` to, or
   * `None` for NaN (then every comparison is false).
   */
  function ToNumber(v: Value): (r: Option<int>)
    ensures v.Num? ==> r == Some(v.n)
    ensures v.Null? || v == Bool(false) || v == Str("") ==> r == Some(0)
    ensures v.Undefined? || v.Obj? ==> r.None?
  {
    match v
    case Null => Some(0)
    case Undefined => None
    case Bool(b) => Some(if b then 1 else 0)
    case Num(n) => Some(n)
    case Str(s) => StringToNumber(s)
    case Arr(_, length) => if length == 0 then Some(0) else None
    case Obj(_) => None
  }

  /** Rendering an integer and coercing the text back gives the integer again. */
  lemma ParseIntToString(n: int)
    ensures ParseDecimal(IntToString(n)) == Some(n)
    ensures StringToNumber(IntToString(n)) == Some(n)
  {
    var s := IntToString(n);
    if n < 0 {
      var d := NatToDigits(-n);
      assert s[1..] == d;
      assert s[0] == '-';
    } else {
      var d := NatToDigits(n);
      assert s == d;
      assert !(s[0] == '-' || s[0] == '+') by {
        assert IsDigit(s[0]);
      }
    }
  }

  /** A text with a character that is neither a digit nor a leading sign is not a number. */
  lemma NonNumericText(s: string, i: nat)
    requires 0 < i < |s| && !IsDigit(s[i])
    ensures ParseDecimal(s) == None
  {
    assert !AllDigits(s);
    assert !IsDigit(s[1..][i - 1]);
  }
}
