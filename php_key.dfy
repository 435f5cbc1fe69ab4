/**
 * Keys of a PHP array, and the case conversion that array_change_key_case
 * applies to them.
 *
 * A PHP array key is an integer or a string. PHP stores a string that spells a
 * canonical decimal integer within the 64-bit range ("7", "-12", but not "07",
 * "-0" or "1e3") as that integer, so a string key never spells one. The case
 * conversion is the locale-independent ASCII one: only 'A'..'Z' and 'a'..'z'
 * are touched.
 */
module PhpKey {

  datatype Key = IntKey(i: int) | StrKey(s: string)

  /** The bounds of a PHP integer on a 64-bit platform. */
  const PHP_INT_MIN: int := -0x8000_0000_0000_0000
  const PHP_INT_MAX: int := 0x7fff_ffff_ffff_ffff

  predicate IsDigit(c: char) { '0' <= c <= '9' }
  predicate IsUpper(c: char) { 'A' <= c <= 'Z' }
  predicate IsLower(c: char) { 'a' <= c <= 'z' }

  function ToLowerChar(c: char): (r: char)
    ensures !IsUpper(r)
    ensures IsUpper(c) <==> r != c
  {
    if IsUpper(c) then (c as int + 32) as char else c
  }

  function ToUpperChar(c: char): (r: char)
    ensures !IsLower(r)
    ensures IsLower(c) <==> r != c
  {
    if IsLower(c) then (c as int - 32) as char else c
  }

  /** The case conversion of one character: upper-casing when `upper`, else lower-casing. */
  function ConvertChar(c: char, upper: bool): char
  {
    if upper then ToUpperChar(c) else ToLowerChar(c)
  }

  /** Case conversion of a whole string, one character at a time. */
  function ConvertCase(s: string, upper: bool): (r: string)
    ensures |r| == |s|
  {
    seq(|s|, i requires 0 <= i < |s| => ConvertChar(s[i], upper))
  }

  /** array_change_key_case leaves integer keys alone and converts string keys. */
  function ConvertKey(k: Key, upper: bool): Key
  {
    match k
    case IntKey(_) => k
    case StrKey(s) => StrKey(ConvertCase(s, upper))
  }

  /** The value of a non-empty run of decimal digits. */
  function DecimalValue(d: string): nat
    requires forall i :: 0 <= i < |d| ==> IsDigit(d[i])
    decreases |d|
  {
    if d == [] then 0
    else
      assert IsDigit(d[|d| - 1]);
      DecimalValue(d[..|d| - 1]) * 10 + (d[|d| - 1] as int - '0' as int)
  }

  /**
   * True when PHP would store the string `s`, used as an array key, as an
   * integer key: an optional '-', then decimal digits without a leading zero
   * (except "0" itself), with a value inside the 64-bit range.
   */
  predicate IsIntegerKeyString(s: string)
  {
    var negative := |s| > 0 && s[0] == '-';
    var digits := if negative then s[1..] else s;
    && |digits| > 0
    && (forall i :: 0 <= i < |digits| ==> IsDigit(digits[i]))
    && (digits[0] == '0' ==> |s| == 1)
    && var n: int := if negative then -(DecimalValue(digits) as int) else DecimalValue(digits);
       PHP_INT_MIN <= n <= PHP_INT_MAX
  }

  /** A key in the form PHP stores it. */
  predicate NormalKey(k: Key)
  {
    match k
    case IntKey(i) => PHP_INT_MIN <= i <= PHP_INT_MAX
    case StrKey(s) => !IsIntegerKeyString(s)
  }

  /** Only a '-' and digits: the characters an integer key string is made of. */
  predicate DecimalChars(s: string)
  {
    forall i :: 0 <= i < |s| ==> s[i] == '-' || IsDigit(s[i])
  }

  /** Converting a string that is already converted changes nothing. */
  lemma ConvertCaseIdempotent(s: string, upper: bool)
    ensures ConvertCase(ConvertCase(s, upper), upper) == ConvertCase(s, upper)
  {
  }

  lemma ConvertKeyIdempotent(k: Key, upper: bool)
    ensures ConvertKey(ConvertKey(k, upper), upper) == ConvertKey(k, upper)
  {
  }

  /**
   * A string of digits and '-' is its own case conversion, and a string whose
   * conversion is made of digits and '-' was that conversion already.
   */
  lemma DecimalCharsUnconverted(s: string, upper: bool)
    requires DecimalChars(s) || DecimalChars(ConvertCase(s, upper))
    ensures ConvertCase(s, upper) == s
  {
  }

  lemma IntegerKeyStringDecimalChars(s: string)
    requires IsIntegerKeyString(s)
    ensures DecimalChars(s)
  {
  }

  /**
   * Case conversion never turns a string key into one PHP would store as an
   * integer, nor the reverse: the converted key is normal exactly when the
   * original is. So rekeying a PHP array never needs integer normalisation.
   */
  lemma ConvertKeyNormal(k: Key, upper: bool)
    ensures NormalKey(ConvertKey(k, upper)) <==> NormalKey(k)
  {
    if k.StrKey? {
      var r := ConvertCase(k.s, upper);
      if IsIntegerKeyString(k.s) {
        IntegerKeyStringDecimalChars(k.s);
        DecimalCharsUnconverted(k.s, upper);
      } else if IsIntegerKeyString(r) {
        IntegerKeyStringDecimalChars(r);
        DecimalCharsUnconverted(k.s, upper);
      }
    }
  }
}
