/** The parts of Java's semantics the model depends on: 32-bit `int`
    arithmetic, the exceptions the core throws, and the result and
    nullable-value wrappers that stand for them. */
module JavaLang {

  const MIN_INT: int := -0x8000_0000
  const MAX_INT: int := 0x7fff_ffff

  /** Values of Java's `int`. */
  type Int32 = x: int | -0x8000_0000 <= x <= 0x7fff_ffff

  /** Two's-complement wrap-around, as Java's `int` operators apply it to
      the mathematical result. */
  function Wrap(x: int): (r: Int32)
    ensures MIN_INT <= x <= MAX_INT ==> r == x
  {
    var m := x % 0x1_0000_0000;
    if m <= MAX_INT then m else m - 0x1_0000_0000
  }

  /** The Java exceptions that the modelled code can raise. */
  datatype Exception =
    | IllegalArgument    // java.lang.IllegalArgumentException
    | IndexOutOfBounds   // java.lang.IndexOutOfBoundsException from List.get
    | NumberFormat       // java.lang.NumberFormatException from new Integer(String)

  /** A call that either returns normally or throws. */
  datatype Result<T> = Success(value: T) | Failure(error: Exception)

  /** A reference that may be null. */
  datatype Option<T> = None | Some(value: T)
}
