/** Values shared by every part of the model: nullable values and C#'s 32-bit `int`. */
module Base {

  /** A C# reference or `Nullable<T>` that may be null. */
  datatype Option<T> = None | Some(value: T) {
    /** `x ?? d` */
    function GetOr(d: T): T {
      match this
      case Some(v) => v
      case None => d
    }
  }

  const MinInt32: int := -0x8000_0000
  const MaxInt32: int := 0x7FFF_FFFF

  /** The values of a C# `int`. */
  type Int32 = x: int | -0x8000_0000 <= x <= 0x7FFF_FFFF

  /** Two's-complement wrap-around of unchecked C# `int` arithmetic. */
  function Wrap32(x: int): (r: Int32)
    ensures MinInt32 <= x <= MaxInt32 ==> r == x
    ensures x == MaxInt32 + 1 ==> r == MinInt32
    ensures (r - x) % 0x1_0000_0000 == 0
  {
    (x + 0x8000_0000) % 0x1_0000_0000 - 0x8000_0000
  }

  /** `a * b` by repeated addition; `Product` below shows it is the product. */
  function Times(a: int, b: int): int
    decreases if b < 0 then -b else b
  {
    if b == 0 then 0 else if b > 0 then Times(a, b - 1) + a else Times(a, b + 1) - a
  }

  lemma {:induction false} Product(a: int, b: int)
    ensures Times(a, b) == a * b
    decreases if b < 0 then -b else b
  {
    if b > 0 {
      Product(a, b - 1);
      assert (b - 1) * a + a == b * a;
    } else if b < 0 {
      Product(a, b + 1);
      assert (b + 1) * a - a == b * a;
    }
  }

  function Min(a: int, b: int): int {
    if a <= b then a else b
  }
}
