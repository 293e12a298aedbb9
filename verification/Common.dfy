/** Machine integers, addresses and result types shared by every contract model. */
module Common {

  const U32_MAX: int := 0xFFFF_FFFF
  const U64_MAX: int := 0xFFFF_FFFF_FFFF_FFFF
  const I128_MAX: int := 0x7FFF_FFFF_FFFF_FFFF_FFFF_FFFF_FFFF_FFFF
  const I128_MIN: int := -0x8000_0000_0000_0000_0000_0000_0000_0000

  type u32 = x: int | 0 <= x <= U32_MAX
  type u64 = x: int | 0 <= x <= U64_MAX
  type i128 = x: int | I128_MIN <= x <= I128_MAX

  /** Accounts are compared for equality and nothing else. */
  datatype Address = Address(id: nat)

  datatype Option<+T> = None | Some(value: T) {
    function GetOr(default: T): T {
      match this
      case Some(v) => v
      case None => default
    }
  }

  /** An entry point's result. A host trap is an `Err`: the invocation is rolled back. */
  datatype Result<+T, +E> = Ok(value: T) | Err(error: E) {
    predicate IsFailure() {
      Err?
    }

    function PropagateFailure<U>(): Result<U, E>
      requires Err?
    {
      Err(error)
    }

    function Extract(): T
      requires Ok?
    {
      value
    }
  }

  /** A result without its value. */
  function ToUnit<T, E>(r: Result<T, E>): Result<(), E> {
    match r
    case Ok(_) => Ok(())
    case Err(e) => Err(e)
  }

  predicate InI128(x: int) {
    I128_MIN <= x <= I128_MAX
  }

  /** The value if it fits, else the error an overflow has. */
  function CheckedI128<E>(x: int, overflow: E): Result<i128, E> {
    if InI128(x) then Ok(x) else Err(overflow)
  }

  /** Division that truncates toward zero, as the contracts' integer division does. */
  function TruncDiv(a: int, b: int): int
    requires b != 0
  {
    if (a < 0) == (b < 0) then Abs(a) / Abs(b) else -(Abs(a) / Abs(b))
  }

  function Abs(a: int): nat {
    if a < 0 then -a else a
  }

  function SaturatingSubU32(a: u32, b: u32): u32 {
    if a < b then 0 else a - b
  }

  function SaturatingAddU32(a: u32, b: u32): u32 {
    if a + b > U32_MAX then U32_MAX else a + b
  }

  function SaturatingAddU64(a: u64, b: u64): u64 {
    if a + b > U64_MAX then U64_MAX else a + b
  }

  lemma TruncIsFloor(a: int, b: int)
    requires 0 <= a && 0 < b
    ensures TruncDiv(a, b) == a / b
  {
  }

  lemma MulMono(a: int, b: int, d: int)
    requires a <= b && 0 <= d
    ensures a * d <= b * d
  {
  }

  /** A quotient clears a floor exactly when the product does. */
  lemma FloorMeaning(x: int, d: int, floor: int)
    requires 0 < d
    ensures x / d >= floor <==> x >= floor * d
  {
    var q := x / d;
    assert x == q * d + x % d;
    assert (q + 1) * d == q * d + d;
    if q >= floor {
      MulMono(floor, q, d);
    } else {
      MulMono(q + 1, floor, d);
    }
  }
}
