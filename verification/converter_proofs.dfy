/**
 Properties of the string-to-int conversion: the loop's place-weighted sum
 is the usual decimal value, every `int` from `-int.MaxValue` to
 `int.MaxValue` survives a round trip through its decimal text, leading signs
 stack, blank input is the only source of `ArgumentNullException`, short
 strings never overflow, and the outcomes the unit tests expect.
 */
module ConverterProofs {
  import opened Common
  import opened ConverterToInt

  // ---------------------------------------------------------------------------
  // Decimal value
  // ---------------------------------------------------------------------------

  /** The decimal value of a string of digits, read left to right. */
  function Value(s: string): int {
    if s == [] then 0 else 10 * Value(s[..|s| - 1]) + DigitValue(s[|s| - 1])
  }

  predicate AllDigits(s: string) {
    forall k :: 0 <= k < |s| ==> IsNumber(s[k])
  }

  /** After `j` iterations the loop holds the value of the first `j` digits, shifted by the places still to come. */
  lemma {:induction false} WeightedPrefix(s: string, j: nat)
    requires j <= |s|
    ensures Weighted(s, j) == Value(s[..j]) * Pow10(|s| - j)
    decreases j
  {
    if j > 0 {
      WeightedPrefix(s, j - 1);
      var p := Pow10(|s| - j);
      assert Pow10(|s| - (j - 1)) == 10 * p;
      assert s[..j][..j - 1] == s[..j - 1];
      assert Value(s[..j]) == 10 * Value(s[..j - 1]) + DigitValue(s[j - 1]);
      calc {
        Weighted(s, j);
        Weighted(s, j - 1) + DigitValue(s[j - 1]) * p;
        Value(s[..j - 1]) * (10 * p) + DigitValue(s[j - 1]) * p;
        { MulAssoc(Value(s[..j - 1]), 10, p); }
        (10 * Value(s[..j - 1])) * p + DigitValue(s[j - 1]) * p;
        (10 * Value(s[..j - 1]) + DigitValue(s[j - 1])) * p;
      }
    }
  }

  /** Over a whole string of digits the loop's sum is its decimal value. */
  lemma WeightedIsValue(s: string)
    ensures Weighted(s, |s|) == Value(s)
  {
    WeightedPrefix(s, |s|);
    assert s[..|s|] == s;
  }

  /** A string of `n` digits is worth less than `10^n`. */
  lemma {:induction false} ValueBound(s: string)
    requires AllDigits(s)
    ensures 0 <= Value(s) < Pow10(|s|)
    decreases |s|
  {
    if s != [] {
      var t := s[..|s| - 1];
      assert AllDigits(t) by {
        forall k | 0 <= k < |t| ensures IsNumber(t[k]) {
          assert t[k] == s[k];
        }
      }
      ValueBound(t);
      assert IsNumber(s[|s| - 1]);
    }
  }

  lemma {:induction false} Pow10Add(a: nat, b: nat)
    ensures Pow10(a) * Pow10(b) == Pow10(a + b)
    decreases a
  {
    if a > 0 {
      Pow10Add(a - 1, b);
      MulAssoc(10, Pow10(a - 1), Pow10(b));
    }
  }

  /** Over a run of digits the loop's sum stays below ten to the length of the whole string. */
  lemma WeightedBound(s: string, j: nat)
    requires j <= DigitRun(s)
    ensures 0 <= Weighted(s, j) < Pow10(|s|)
  {
    WeightedPrefix(s, j);
    assert AllDigits(s[..j]);
    ValueBound(s[..j]);
    Pow10Add(j, |s| - j);
    MulMonotone(Value(s[..j]), Pow10(j), Pow10(|s| - j));
  }

  // ---------------------------------------------------------------------------
  // Strings of digits
  // ---------------------------------------------------------------------------

  /**
   A non-empty string of digits converts to its decimal value when it has at
   most ten characters and that value fits an `int`, and overflows otherwise.
   */
  lemma AllDigitsConvert(s: string)
    requires s != [] && AllDigits(s)
    ensures Convert(Str(s)) == if |s| <= 10 && Value(s) <= IntMax then Ok(Value(s)) else Throws(Overflow)
  {
    assert IsNumber(s[0]) && !IsWhiteSpace(s[0]);
    assert DigitRun(s) == |s|;
    WeightedIsValue(s);
  }

  /** A digit run of eleven or more characters overflows even when it is all zeros: the first place does not fit. */
  lemma LeadingZerosOverflow(s: string)
    requires |s| > 10 && AllDigits(s)
    ensures Convert(Str(s)) == Throws(Overflow)
  {
    AllDigitsConvert(s);
  }

  /** `n.ToString()` for a non-negative `n`: its decimal digits, without leading zeros. */
  function Decimal(n: nat): (r: string)
    ensures |r| >= 1
    decreases n
  {
    if n < 10 then [(n + 48) as char] else Decimal(n / 10) + [(n % 10 + 48) as char]
  }

  lemma {:induction false} DecimalDigits(n: nat)
    ensures AllDigits(Decimal(n))
    decreases n
  {
    if n >= 10 {
      DecimalDigits(n / 10);
    }
  }

  lemma {:induction false} DecimalValue(n: nat)
    ensures Value(Decimal(n)) == n
    decreases n
  {
    if n >= 10 {
      DecimalValue(n / 10);
      var s := Decimal(n);
      assert s[..|s| - 1] == Decimal(n / 10);
    }
  }

  lemma {:induction false} DecimalLength(n: nat, k: nat)
    requires 1 <= k && n < Pow10(k)
    ensures |Decimal(n)| <= k
    decreases k
  {
    if n >= 10 && k > 1 {
      DecimalLength(n / 10, k - 1);
    }
  }

  /** Every `int` from 0 to `int.MaxValue` has at most ten decimal digits. */
  lemma DecimalFits(n: nat)
    requires n <= IntMax
    ensures |Decimal(n)| <= 10
  {
    assert Pow10(10) == 10_000_000_000;
    DecimalLength(n, 10);
  }

  /**
   The decimal text of any `int` except `int.MinValue` converts back to it:
   `n`, `+n` and `-n` for `0 <= n <= int.MaxValue`.
   */
  lemma RoundTrip(n: int)
    requires 0 <= n <= IntMax
    ensures Convert(Str(Decimal(n))) == Ok(n)
    ensures Convert(Str("+" + Decimal(n))) == Ok(n)
    ensures Convert(Str("-" + Decimal(n))) == Ok(-n)
  {
    var t := Decimal(n);
    UnsignedRoundTrip(n);
    var plus, minus := "+" + t, "-" + t;
    assert plus[0] == '+' && plus[1..] == t;
    assert minus[0] == '-' && minus[1..] == t;
    Signed(plus);
    Signed(minus);
  }

  /** The decimal text of every `n` from 0 to `int.MaxValue` converts back to `n`. */
  lemma UnsignedRoundTrip(n: int)
    requires 0 <= n <= IntMax
    ensures Convert(Str(Decimal(n))) == Ok(n)
  {
    DecimalValue(n);
    DecimalFits(n);
    DecimalDigits(n);
    AllDigitsConvert(Decimal(n));
  }

  /** `int.MinValue` itself cannot be converted: its magnitude is accumulated as an `int` first. */
  lemma MinValueOverflows()
    ensures Convert(Str("-" + Decimal(IntMax + 1))) == Throws(Overflow)
    ensures forall s :: Convert(s) != Ok(IntMin)
  {
    var t := Decimal(IntMax + 1);
    DecimalValue(IntMax + 1);
    DecimalDigits(IntMax + 1);
    AllDigitsConvert(t);
    assert ("-" + t)[1..] == t;
  }

  // ---------------------------------------------------------------------------
  // Signs
  // ---------------------------------------------------------------------------

  /** The string with its leading signs removed. */
  function DropSigns(s: string): (r: string)
    ensures |r| <= |s| && r == s[|s| - |r|..]
    ensures r == [] || (r[0] != '+' && r[0] != '-')
  {
    if s != [] && (s[0] == '+' || s[0] == '-') then DropSigns(s[1..]) else s
  }

  /** Whether the leading signs of `s` hold an odd number of minus signs. */
  predicate OddMinuses(s: string) {
    if s != [] && s[0] == '+' then OddMinuses(s[1..])
    else if s != [] && s[0] == '-' then !OddMinuses(s[1..])
    else false
  }

  lemma NegatedTwice(r: Result<int>)
    ensures Negated(Negated(r)) == r
  {
  }

  /**
   Leading signs stack: a string converts to what it converts to without them,
   negated when they hold an odd number of minus signs.
   */
  lemma {:induction false} SignsStack(s: string)
    ensures Convert(Str(s)) == if OddMinuses(s) then Negated(Convert(Str(DropSigns(s)))) else Convert(Str(DropSigns(s)))
    decreases |s|
  {
    if s != [] && (s[0] == '+' || s[0] == '-') {
      assert !IsWhiteSpace(s[0]);
      SignsStack(s[1..]);
      NegatedTwice(Convert(Str(DropSigns(s[1..]))));
    }
  }

  /**
   `ArgumentNullException` comes from null input, and from input that is blank
   once its leading signs are removed (a lone sign converts the empty rest).
   */
  lemma {:induction false} ArgumentNullIffBlank(s: NullableString)
    ensures Convert(s) == Throws(ArgumentNull) <==> s.Null? || IsBlank(Str(DropSigns(s.chars)))
    decreases if s.Null? then 0 else |s.chars|
  {
    if !s.Null? {
      var cs := s.chars;
      if cs != [] && (cs[0] == '+' || cs[0] == '-') {
        assert !IsWhiteSpace(cs[0]);
        ArgumentNullIffBlank(Str(cs[1..]));
      } else if cs != [] {
        assert IsBlank(s) ==> IsWhiteSpace(cs[0]);
      }
    }
  }

  // ---------------------------------------------------------------------------
  // Format errors
  // ---------------------------------------------------------------------------

  /**
   A string of at most nine characters never overflows; once its leading
   signs are removed, if anything is left that is not blank, it converts
   exactly when all of it is digits, and is a format error otherwise.
   */
  lemma {:induction false} ShortStrings(s: string)
    requires |s| <= 9
    ensures Convert(Str(s)) != Throws(Overflow)
    ensures !IsBlank(Str(DropSigns(s))) ==>
      (Convert(Str(s)).Ok? <==> AllDigits(DropSigns(s))) && (Convert(Str(s)).Throws? ==> Convert(Str(s)).error == Format)
    decreases |s|
  {
    if s != [] && (s[0] == '+' || s[0] == '-') {
      Signed(s);
      ShortStrings(s[1..]);
    } else {
      ShortUnsigned(s);
    }
  }

  /** `ShortStrings` for a string that does not start with a sign. */
  lemma ShortUnsigned(s: string)
    requires |s| <= 9 && (s == [] || (s[0] != '+' && s[0] != '-'))
    ensures Convert(Str(s)) != Throws(Overflow)
    ensures !IsBlank(Str(s)) ==>
      (Convert(Str(s)).Ok? <==> AllDigits(s)) && (Convert(Str(s)).Throws? ==> Convert(Str(s)).error == Format)
  {
    if !IsBlank(Str(s)) && IsNumber(s[0]) {
      WeightedBound(s, DigitRun(s));
      Pow10Monotone(|s|, 9);
      if AllDigits(s) {
        assert DigitRun(s) == |s|;
      }
    }
  }

  /** A leading sign is stripped, and `-` negates what the rest converts to. */
  lemma Signed(s: string)
    requires s != [] && (s[0] == '+' || s[0] == '-')
    ensures Convert(Str(s)) == if s[0] == '+' then Convert(Str(s[1..])) else Negated(Convert(Str(s[1..])))
  {
    assert !IsWhiteSpace(s[0]);
  }

  /** A first character that is neither a digit, a sign nor white space is a format error. */
  lemma FormatAtStart(s: string)
    requires s != [] && !IsNumber(s[0]) && s[0] != '+' && s[0] != '-' && !IsWhiteSpace(s[0])
    ensures Convert(Str(s)) == Throws(Format)
  {
  }

  /** A digit followed by ten or more characters of any kind overflows. */
  lemma OverlongOverflows(s: string)
    requires |s| > 10 && IsNumber(s[0])
    ensures Convert(Str(s)) == Throws(Overflow)
  {
    assert !IsWhiteSpace(s[0]);
  }

  /** The loop's sum splits into the first digit's term and the sum over the rest of the string. */
  lemma {:induction false} WeightedShift(s: string, j: nat)
    requires 1 <= j <= |s|
    ensures Weighted(s, j) == DigitValue(s[0]) * Pow10(|s| - 1) + Weighted(s[1..], j - 1)
    decreases j
  {
    if j > 1 {
      WeightedShift(s, j - 1);
      assert s[1..][j - 2] == s[j - 1];
    }
  }

  /** The run of digits sums to less than the first digit plus one, at the first digit's place. */
  lemma LeadingDigitBound(s: string)
    requires s != [] && IsNumber(s[0])
    ensures Weighted(s, DigitRun(s)) < (DigitValue(s[0]) + 1) * Pow10(|s| - 1)
  {
    var t := s[1..];
    RunShift(s);
    WeightedBound(t, DigitRun(t));
    NextMultiple(DigitValue(s[0]), Pow10(|s| - 1), Weighted(t, DigitRun(t)));
  }

  /** The run's sum is the first digit's term plus the sum of the run of the rest. */
  lemma RunShift(s: string)
    requires s != [] && IsNumber(s[0])
    ensures Weighted(s, DigitRun(s)) == DigitValue(s[0]) * Pow10(|s| - 1) + Weighted(s[1..], DigitRun(s[1..]))
    ensures |s[1..]| == |s| - 1
  {
    assert DigitRun(s) == 1 + DigitRun(s[1..]);
    WeightedShift(s, DigitRun(s));
  }

  /**
   A string that starts with a digit and has a non-digit further on is a
   format error when nothing can overflow before the non-digit: when it has
   at most nine characters, or ten with a leading `0` or `1`.
   */
  lemma FormatAfterDigits(s: string, k: nat)
    requires 0 < k < |s| <= 10 && IsNumber(s[0]) && !IsNumber(s[k])
    requires |s| <= 9 || s[0] <= '1'
    ensures Convert(Str(s)) == Throws(Format)
  {
    assert !IsWhiteSpace(s[0]);
    RunFits(s);
    assert DigitRun(s) <= k;
    ConvertStopsAtNonDigit(s);
  }

  /** The leading run of a string of at most nine characters, or of ten starting with `0` or `1`, fits an `int`. */
  lemma RunFits(s: string)
    requires 0 < |s| <= 10 && IsNumber(s[0])
    requires |s| <= 9 || s[0] <= '1'
    ensures Weighted(s, DigitRun(s)) <= IntMax
  {
    LeadingDigitBound(s);
    var d := DigitValue(s[0]);
    var p := Pow10(|s| - 1);
    if |s| <= 9 {
      Pow10Monotone(|s| - 1, 8);
      Pow10Eight();
      ProductBound(d + 1, p, 10, 100_000_000);
    } else {
      assert CheckedPow10(9).value == p;
      ProductBound(d + 1, p, 2, 1_000_000_000);
    }
  }

  // ---------------------------------------------------------------------------
  // The outcomes the unit tests expect
  // ---------------------------------------------------------------------------

  /** Null, empty and white-space strings. */
  lemma BlankInputs()
    ensures Convert(Null) == Throws(ArgumentNull)
    ensures Convert(Str("")) == Throws(ArgumentNull)
    ensures Convert(Str(" ")) == Throws(ArgumentNull)
  {
  }

  lemma Converts123487645()
    ensures Convert(Str("123487645")) == Ok(123487645)
  {
    RoundTrip(123487645);
    DecimalText123487645();
  }

  lemma ConvertsPlus1896()
    ensures Convert(Str("+1896")) == Ok(1896)
  {
    Signed("+1896");
    DecimalText1896();
    assert "+1896"[1..] == "1896";
    RoundTrip(1896);
  }

  lemma ConvertsPlus123328()
    ensures Convert(Str("+123328")) == Ok(123328)
  {
    Signed("+123328");
    DecimalText123328();
    assert "+123328"[1..] == "123328";
    RoundTrip(123328);
  }

  lemma ConvertsMinus85543328()
    ensures Convert(Str("-85543328")) == Ok(-85543328)
  {
    Signed("-85543328");
    DecimalText85543328();
    assert "-85543328"[1..] == "85543328";
    RoundTrip(85543328);
  }

  lemma ConvertsMinus855()
    ensures Convert(Str("-855")) == Ok(-855)
  {
    Signed("-855");
    DecimalText855();
    assert "-855"[1..] == "855";
    RoundTrip(855);
  }

  lemma DecimalText123487645()
    ensures Decimal(123487645) == "123487645"
  {
    assert Decimal(1234) == "1234";
    assert Decimal(12348) == "1234" + "8";
    assert Decimal(123487) == "12348" + "7";
    assert Decimal(1234876) == "123487" + "6";
    assert Decimal(12348764) == "1234876" + "4";
    assert Decimal(123487645) == "12348764" + "5";
  }

  lemma DecimalText1896()
    ensures Decimal(1896) == "1896"
  {
  }

  lemma DecimalText123328()
    ensures Decimal(123328) == "123328"
  {
    assert Decimal(123) == "123";
    assert Decimal(1233) == "123" + "3";
    assert Decimal(12332) == "1233" + "2";
    assert Decimal(123328) == "12332" + "8";
  }

  lemma DecimalText85543328()
    ensures Decimal(85543328) == "85543328"
  {
    DecimalText855();
    assert Decimal(8554) == "855" + "4";
    assert Decimal(85543) == "8554" + "3";
    assert Decimal(855433) == "85543" + "3";
    assert Decimal(8554332) == "855433" + "2";
    assert Decimal(85543328) == "8554332" + "8";
  }

  lemma DecimalText855()
    ensures Decimal(855) == "855"
  {
  }

  /** Strings with a character that is neither a digit nor a leading sign. */
  lemma MalformedInputs()
    ensures Convert(Str("#123456789")) == Throws(Format)
    ensures Convert(Str("somestring")) == Throws(Format)
    ensures Convert(Str("-somestring")) == Throws(Format)
  {
    FormatAtStart("#123456789");
    FormatAtStart("somestring");
    Signed("-somestring");
    FormatAtStart("-somestring"[1..]);
  }

  /*
   Strings with a stray sign or letter after a digit: format errors, reached
   before any place or sum could overflow.
   */

  lemma RejectsStrayCharacters()
    ensures Convert(Str("-123456789-")) == Throws(Format)
    ensures Convert(Str("-789-7895")) == Throws(Format)
    ensures Convert(Str("+123456+789")) == Throws(Format)
    ensures Convert(Str("+515+")) == Throws(Format)
    ensures Convert(Str("+1258774a")) == Throws(Format)
  {
    Signed("-123456789-");
    FormatAfterDigits("-123456789-"[1..], 9);
    Signed("-789-7895");
    FormatAfterDigits("-789-7895"[1..], 3);
    Signed("+123456+789");
    FormatAfterDigits("+123456+789"[1..], 6);
    Signed("+515+");
    FormatAfterDigits("+515+"[1..], 3);
    Signed("+1258774a");
    FormatAfterDigits("+1258774a"[1..], 7);
  }

  /*
   `int.MaxValue` and `int.MinValue` with more digits appended overflow, even
   where a stray `-` follows: the first digit's place is already out of range.
   */

  lemma OverflowsPastMaxValue()
    ensures Convert(Str("214748364715")) == Throws(Overflow)
    ensures Convert(Str("21474836471")) == Throws(Overflow)
  {
    OverlongOverflows("214748364715");
    OverlongOverflows("21474836471");
  }

  lemma OverflowsPastMinValue()
    ensures Convert(Str("-2147483648-1")) == Throws(Overflow)
    ensures Convert(Str("-2147483648-100")) == Throws(Overflow)
  {
    Signed("-2147483648-1");
    OverlongOverflows("-2147483648-1"[1..]);
    Signed("-2147483648-100");
    OverlongOverflows("-2147483648-100"[1..]);
  }

  // ---------------------------------------------------------------------------
  // Arithmetic helpers: nonlinear facts the proofs above need
  // ---------------------------------------------------------------------------

  lemma MulAssoc(a: int, b: int, c: int)
    ensures a * (b * c) == (a * b) * c
  {
  }

  lemma MulMonotone(a: int, b: int, c: int)
    requires 0 <= a < b && c >= 1
    ensures 0 <= a * c < b * c
  {
  }

  lemma NextMultiple(d: int, p: int, w: int)
    requires w < p
    ensures d * p + w < (d + 1) * p
  {
  }

  lemma Pow10Eight()
    ensures Pow10(8) == 100_000_000
  {
  }

  lemma ProductBound(a: int, b: int, x: int, y: int)
    requires 0 <= a <= x && 0 <= b <= y
    ensures a * b <= x * y
  {
    MulMonotoneLe(a, x, b);
    MulMonotoneLe(b, y, x);
  }

  lemma MulMonotoneLe(a: int, b: int, c: int)
    requires a <= b && c >= 0
    ensures a * c <= b * c
  {
  }
}
