/**
 `FirstChar`, the string extension that returns a string's first character
 and rejects a null or empty string. Unlike the integer conversion it accepts
 a string of white space.
 */
module ExtensionString {
  import opened Common
  import ConverterToInt

  /** `sourceString.FirstChar()`. */
  function FirstChar(sourceString: NullableString): (r: Result<char>)
    ensures r.Throws? <==> sourceString.Null? || |sourceString.chars| == 0
    ensures r.Throws? ==> r.error == ArgumentNull
    ensures r.Ok? ==> r.value == sourceString.chars[0]
  {
    if sourceString.Null? || |sourceString.chars| == 0 then Throws(ArgumentNull) else Ok(sourceString.chars[0])
  }

  /** Prepending a character and taking the first character gives it back, whatever follows it. */
  lemma FirstOfPrepended(c: char, rest: string)
    ensures FirstChar(Str([c] + rest)) == Ok(c)
  {
  }

  /**
   A non-empty string of white space is accepted: its first character is
   returned, where the integer conversion rejects the same string as blank.
   */
  lemma WhiteSpaceAccepted(s: string)
    requires s != [] && forall k :: 0 <= k < |s| ==> ConverterToInt.IsWhiteSpace(s[k])
    ensures FirstChar(Str(s)).Ok? && ConverterToInt.IsWhiteSpace(FirstChar(Str(s)).value)
    ensures ConverterToInt.Convert(Str(s)) == Throws(ArgumentNull)
  {
  }

  /** Null, empty and a single space. */
  lemma Examples()
    ensures FirstChar(Null) == Throws(ArgumentNull)
    ensures FirstChar(Str("")) == Throws(ArgumentNull)
    ensures FirstChar(Str(" ")) == Ok(' ')
    ensures FirstChar(Str("abc")) == Ok('a')
  {
  }
}
