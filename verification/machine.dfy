/** C++ integer arithmetic the engine relies on, written out over Dafny's
    unbounded integers: division and remainder truncate toward zero, and
    conversions to fixed-width types wrap around. */
module Machine {

  /** C++ `/` on integers: the quotient truncated toward zero. Dafny's own
      `/` rounds toward negative infinity for a positive divisor, so the two
      differ on negative dividends. */
  function TruncDiv(a: int, b: int): (q: int)
    requires b != 0
    ensures a >= 0 && b > 0 ==> q == a / b
    ensures a < 0 && b > 0 ==> q == -((-a) / b) && q <= 0
    ensures b > 0 ==> (if a >= 0 then q * b <= a else a <= q * b)
  {
    if b > 0 then (if a >= 0 then a / b else -((-a) / b))
    else (if a >= 0 then -(a / (-b)) else (-a) / (-b))
  }

  /** C++ `%`: the remainder that goes with `TruncDiv`, carrying the sign of
      the dividend. */
  function TruncMod(a: int, b: int): (r: int)
    requires b != 0
    ensures a == TruncDiv(a, b) * b + r
    ensures a >= 0 && b > 0 ==> r == a % b
    ensures b > 0 ==> -b < r < b
    ensures a >= 0 ==> 0 <= r
    ensures a <= 0 ==> r <= 0
  {
    a - TruncDiv(a, b) * b
  }

  /** Conversion to `int8_t`: two's complement wrap-around. */
  function ToInt8(x: int): (r: int)
    ensures -128 <= r < 128 && (r - x) % 256 == 0
    ensures -128 <= x < 128 ==> r == x
  {
    (x + 128) % 256 - 128
  }

  /** Conversion to `uint8_t`. */
  function ToUint8(x: int): (r: int)
    ensures 0 <= r < 256 && (r - x) % 256 == 0
    ensures 0 <= x < 256 ==> r == x
  {
    x % 256
  }

  /** Conversion to `uint32_t`. */
  function ToUint32(x: int): (r: int)
    ensures 0 <= r < 0x1_0000_0000 && (r - x) % 0x1_0000_0000 == 0
    ensures 0 <= x < 0x1_0000_0000 ==> r == x
  {
    x % 0x1_0000_0000
  }

  const INT32_MIN: int := -0x8000_0000
  const INT32_MAX: int := 0x7FFF_FFFF

  predicate IsInt8(x: int) { -128 <= x < 128 }
  predicate IsInt32(x: int) { INT32_MIN <= x <= INT32_MAX }

  /** `2^n`. */
  function Pow2(n: nat): (p: nat)
    ensures p >= 1
  {
    if n == 0 then 1 else 2 * Pow2(n - 1)
  }
}

/** Bytes built from unbounded integers. A direct conversion `n as bv8`
    of an arbitrary integer leaves the solver to relate the two number
    systems bit by bit; counting up one at a time needs only the successor
    step. */
module Bytes {

  /** Adding one to a byte below 255 adds one to its value. */
  lemma Succ(x: bv8)
    requires x < 255
    ensures (x + 1) as int == x as int + 1
  {
  }

  /** The byte whose value is `n`. */
  function ByteOf(n: nat): (b: bv8)
    requires n < 256
    ensures b as int == n
  {
    if n == 0 then 0 else Succ(ByteOf(n - 1)); ByteOf(n - 1) + 1
  }

  /** Bytes with the same value are the same byte. */
  lemma SameByte(x: bv8, y: bv8)
    requires x as int == y as int
    ensures x == y
  {
  }

  /** `ByteOf` undoes the widening of a byte. */
  lemma ByteOfValue(x: bv8)
    ensures ByteOf(x as int) == x
  {
    SameByte(ByteOf(x as int), x);
  }
}
