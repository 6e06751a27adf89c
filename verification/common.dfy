/**
 Shared vocabulary of the model: the .NET notions the three components use
 (a nullable string, the exceptions they throw, the 32-bit `int` range) and
 a result type standing for "returns a value or throws".
 */
module Common {

  /** A .NET reference that may be null. */
  datatype Option<+T> = None | Some(value: T)

  /**
   A .NET `string`: either `null` or a sequence of characters. A Dafny `char`
   is a Unicode scalar value, so a character outside the Basic Multilingual
   Plane is one position here where .NET counts two UTF-16 code units.
   */
  datatype NullableString = Null | Str(chars: string)

  /** The exceptions the modelled members throw. */
  datatype Exception = ArgumentNull | Format | Overflow

  /** Either the member returned `value`, or it threw `error`. */
  datatype Result<+T> = Ok(value: T) | Throws(error: Exception)

  /** `int.MaxValue` and `int.MinValue` of the 32-bit signed `int`. */
  const IntMax: int := 0x7FFF_FFFF
  const IntMin: int := -0x8000_0000

  predicate InInt32(x: int) {
    IntMin <= x <= IntMax
  }

  /** Addition in a `checked` context: an out-of-range sum throws. */
  function CheckedAdd(a: int, b: int): (r: Result<int>)
    requires InInt32(a) && InInt32(b)
    ensures r.Ok? <==> InInt32(a + b)
    ensures r.Ok? ==> r.value == a + b
    ensures r.Throws? ==> r.error == Overflow
  {
    if InInt32(a + b) then Ok(a + b) else Throws(Overflow)
  }

  /** Multiplication in a `checked` context: an out-of-range product throws. */
  function CheckedMul(a: int, b: int): (r: Result<int>)
    requires InInt32(a) && InInt32(b)
    ensures r.Ok? <==> InInt32(a * b)
    ensures r.Ok? ==> r.value == a * b
    ensures r.Throws? ==> r.error == Overflow
  {
    if InInt32(a * b) then Ok(a * b) else Throws(Overflow)
  }
}
