/**
 Conversion of a string to a 32-bit `int`, built with checked arithmetic.

 The conversion rejects a null or blank string, strips one leading sign and
 converts the rest again (negating it for `-`), and otherwise adds up each
 digit weighted by its place counted from the end of the WHOLE string,
 raising an overflow as soon as a power of ten, a product or the running sum
 leaves the `int` range, and a format error at the first character that is
 not a digit.

 `Convert` states the outcome in closed form; `ConvertToInt` is the loop.
 */
module ConverterToInt {
  import opened Common

  /** `char.IsNumber`, for the ASCII decimal digits. */
  predicate IsNumber(c: char) {
    '0' <= c <= '9'
  }

  /** `sourceString[i] - 48`: the character's code less that of `'0'`. */
  function DigitValue(c: char): int {
    c as int - 48
  }

  /**
   `char.IsWhiteSpace`: the space, line and paragraph separators of Unicode,
   the controls U+0009 to U+000D, and U+0085.
   */
  function IsWhiteSpace(c: char): (r: bool)
    ensures r ==> !IsNumber(c) && c != '+' && c != '-'
  {
    c == ' ' || '\t' <= c <= '\r' || c == '\U{85}' || c == '\U{A0}' || c == '\U{1680}'
    || '\U{2000}' <= c <= '\U{200A}' || c == '\U{2028}' || c == '\U{2029}' || c == '\U{202F}'
    || c == '\U{205F}' || c == '\U{3000}'
  }

  /** `string.IsNullOrEmpty`. */
  predicate IsNullOrEmpty(s: NullableString) {
    s.Null? || |s.chars| == 0
  }

  /** `string.IsNullOrWhiteSpace`: null, or no character other than white space. */
  predicate IsNullOrWhiteSpace(s: NullableString) {
    s.Null? || forall k :: 0 <= k < |s.chars| ==> IsWhiteSpace(s.chars[k])
  }

  /**
   The guard of `ConvertToInt`: `string.IsNullOrEmpty(s) || string.IsNullOrWhiteSpace(s)`.
   The first test adds nothing, since an empty string has no character other than white space.
   */
  function IsBlank(s: NullableString): (r: bool)
    ensures r <==> IsNullOrWhiteSpace(s)
    ensures !r ==> s.Str? && s.chars != []
  {
    IsNullOrEmpty(s) || IsNullOrWhiteSpace(s)
  }

  function Pow10(k: nat): (r: nat)
    ensures r >= 1
  {
    if k == 0 then 1 else 10 * Pow10(k - 1)
  }

  lemma {:induction false} Pow10Monotone(j: nat, k: nat)
    requires j <= k
    ensures Pow10(j) <= Pow10(k)
    decreases k
  {
    if j < k {
      Pow10Monotone(j, k - 1);
    }
  }

  /**
   `(int)Math.Pow(10, k)` in a checked context: the double is exact, and its
   conversion to `int` overflows from `k = 10` on.
   */
  function CheckedPow10(k: nat): (r: Result<int>)
    ensures r.Ok? <==> k <= 9
    ensures r.Ok? ==> r.value == Pow10(k) && 1 <= r.value <= 1_000_000_000
    ensures r.Throws? ==> r.error == Overflow
  {
    if k <= 9 then
      Pow10Monotone(k, 9);
      Ok(Pow10(k))
    else Throws(Overflow)
  }

  /**
   The sum the loop has accumulated after its first `j` iterations: each
   digit weighted by ten to the number of characters after it.
   */
  function Weighted(s: string, j: nat): int
    requires j <= |s|
  {
    if j == 0 then 0 else Weighted(s, j - 1) + DigitValue(s[j - 1]) * Pow10(|s| - j)
  }

  /** The length of the run of digits `s` starts with. */
  function DigitRun(s: string): (r: nat)
    ensures r <= |s|
    ensures forall k :: 0 <= k < r ==> IsNumber(s[k])
    ensures r < |s| ==> !IsNumber(s[r])
  {
    if s == [] || !IsNumber(s[0]) then 0 else 1 + DigitRun(s[1..])
  }

  /** `x * (-1)`, passing an exception through. */
  function Negated(x: Result<int>): (r: Result<int>)
    ensures r.Throws? <==> x.Throws?
    ensures x.Throws? ==> r == x
    ensures x.Ok? && -IntMax <= x.value <= IntMax ==> r == CheckedMul(x.value, -1)
  {
    match x
    case Ok(v) => Ok(-v)
    case Throws(e) => Throws(e)
  }

  /**
   The outcome of converting `s`. A blank string is rejected; a leading sign
   is stripped and the rest converted, negated for `-`. Otherwise a string
   starting with a digit overflows when it is longer than ten characters (the
   weight of its first digit does not fit) or when its leading run of digits
   already sums past `int.MaxValue`; failing that, a non-digit after the run
   is a format error, and a string of digits only yields its sum.
   */
  function Convert(s: NullableString): (r: Result<int>)
    ensures r.Ok? ==> -IntMax <= r.value <= IntMax
    decreases if s.Null? then 0 else |s.chars|
  {
    if IsBlank(s) then Throws(ArgumentNull)
    else
      var cs := s.chars;
      if cs[0] == '+' then Convert(Str(cs[1..]))
      else if cs[0] == '-' then Negated(Convert(Str(cs[1..])))
      else if !IsNumber(cs[0]) then Throws(Format)
      else if |cs| > 10 || Weighted(cs, DigitRun(cs)) > IntMax then Throws(Overflow)
      else if DigitRun(cs) < |cs| then Throws(Format)
      else
        WeightedNonNegative(cs, |cs|);
        Ok(Weighted(cs, |cs|))
  }

  lemma {:induction false} WeightedNonNegative(s: string, j: nat)
    requires j <= DigitRun(s)
    ensures Weighted(s, j) >= 0
    decreases j
  {
    if j > 0 {
      WeightedNonNegative(s, j - 1);
    }
  }

  /** Over a run of digits the running sum never decreases. */
  lemma {:induction false} WeightedMonotone(s: string, i: nat, j: nat)
    requires i <= j <= DigitRun(s)
    ensures Weighted(s, i) <= Weighted(s, j)
    decreases j - i
  {
    if i < j {
      WeightedMonotone(s, i, j - 1);
    }
  }

  /** `IsFormatCorrect`. */
  function IsFormatCorrect(symbol: char): (r: bool)
    ensures r <==> '0' <= symbol <= '9'
  {
    IsNumber(symbol)
  }

  /** A string starting with a digit is a format error at the end of its first run, if nothing overflowed before. */
  lemma ConvertStopsAtNonDigit(cs: string)
    requires DigitRun(cs) < |cs| && !IsBlank(Str(cs)) && cs[0] != '+' && cs[0] != '-'
    requires DigitRun(cs) > 0 ==> |cs| <= 10 && Weighted(cs, DigitRun(cs)) <= IntMax
    ensures Convert(Str(cs)) == Throws(Format)
  {
  }

  /** A string whose digit run reaches a sum past `int.MaxValue` overflows. */
  lemma ConvertOverflowsInRun(cs: string, i: nat)
    requires i < DigitRun(cs) && (|cs| > 10 || Weighted(cs, i + 1) > IntMax)
    ensures Convert(Str(cs)) == Throws(Overflow)
  {
    WeightedMonotone(cs, i + 1, DigitRun(cs));
  }

  /** A string of digits only whose sum fits converts to that sum. */
  lemma ConvertAllDigits(cs: string)
    requires cs != [] && DigitRun(cs) == |cs| <= 10 && Weighted(cs, |cs|) <= IntMax
    ensures Convert(Str(cs)) == Ok(Weighted(cs, |cs|))
  {
    assert !IsWhiteSpace(cs[0]);
  }

  /** The product of a digit and a place is never negative. */
  lemma TermNonNegative(digit: int, place: int)
    requires 0 <= digit <= 9 && 1 <= place
    ensures digit * place >= 0
  {
  }

  /**
   `ConvertToInt`: the loop over the characters with checked arithmetic, the
   sign branches converting the rest of the string again.
   */
  method ConvertToInt(sourceString: NullableString) returns (r: Result<int>)
    ensures r == Convert(sourceString)
    decreases if sourceString.Null? then 0 else |sourceString.chars|
  {
    if IsBlank(sourceString) {
      return Throws(ArgumentNull);
    }
    var cs := sourceString.chars;
    var result := 0;
    var i := 0;
    while i < |cs|
      invariant 0 <= i <= |cs|
      invariant i <= DigitRun(cs)
      invariant result == Weighted(cs, i) && 0 <= result <= IntMax
      invariant i > 0 ==> IsNumber(cs[0]) && |cs| <= 10
    {
      if !IsFormatCorrect(cs[i]) {
        if cs[0] == '+' {
          r := ConvertToInt(Str(cs[1..]));
          return;
        }
        if cs[0] == '-' {
          var rest := ConvertToInt(Str(cs[1..]));
          if rest.Throws? {
            return rest;
          }
          r := CheckedMul(rest.value, -1);
          return;
        }
        ConvertStopsAtNonDigit(cs);
        return Throws(Format);
      }
      var place := CheckedPow10(|cs| - i - 1);
      if place.Throws? {
        ConvertOverflowsInRun(cs, i);
        return place;
      }
      var digit := DigitValue(cs[i]);
      TermNonNegative(digit, place.value);
      assert Weighted(cs, i + 1) == result + digit * place.value;
      var term := CheckedMul(digit, place.value);
      if term.Throws? {
        ConvertOverflowsInRun(cs, i);
        return term;
      }
      var sum := CheckedAdd(result, term.value);
      if sum.Throws? {
        ConvertOverflowsInRun(cs, i);
        return sum;
      }
      assert sum.value == Weighted(cs, i + 1);
      result := sum.value;
      i := i + 1;
    }
    ConvertAllDigits(cs);
    return Ok(result);
  }
}
