/** The C integer types of the daemon and the conversions between them.
    Values are mathematical integers; every wrap-around is written out. */
module Machine {
  const TWO31: int := 0x8000_0000
  const TWO32: int := 0x1_0000_0000
  const TWO63: int := 0x8000_0000_0000_0000
  const TWO64: int := 0x1_0000_0000_0000_0000

  type u64 = x: int | 0 <= x < TWO64
  type i64 = x: int | -TWO63 <= x < TWO63
  type i32 = x: int | -TWO31 <= x < TWO31

  function ToU64(x: int): u64 { x % TWO64 }

  function ToI64(x: int): i64 {
    var r := x % TWO64;
    if r < TWO63 then r else r - TWO64
  }

  function ToI32(x: int): i32 {
    var r := x % TWO32;
    if r < TWO31 then r else r - TWO32
  }

  function ToI16(x: int): int {
    var r := x % 0x1_0000;
    if r < 0x8000 then r else r - 0x1_0000
  }

  /** Subtraction after both operands were converted to `uint64_t`. */
  function SubU(a: int, b: int): u64 { ToU64(a - b) }

  /** C division truncates toward zero. */
  function DivC(x: int, d: int): int
    requires d > 0
  {
    if x >= 0 then x / d else -((-x) / d)
  }

  function Abs(x: int): int { if x < 0 then -x else x }

  /** `MIN` compares unsigned 64-bit values: signed arguments are converted first. */
  function Min(a: int, b: int): u64 {
    if ToU64(a) < ToU64(b) then ToU64(a) else ToU64(b)
  }

  /** `MAX` compares signed 64-bit values. */
  function Max(a: i64, b: i64): i64 {
    if a > b then a else b
  }

  /** A conversion keeps the value up to whole turns and lands in the range of its type, which leaves
      only one value. */
  lemma ConversionsWrap(x: int) returns (a: int, b: int, c: int, d: int)
    ensures x == ToU64(x) + a * 0x1_0000_0000_0000_0000 && 0 <= ToU64(x) < 0x1_0000_0000_0000_0000
    ensures x == ToI64(x) + b * 0x1_0000_0000_0000_0000 && -0x8000_0000_0000_0000 <= ToI64(x) < 0x8000_0000_0000_0000
    ensures x == ToI32(x) + c * 0x1_0000_0000 && -0x8000_0000 <= ToI32(x) < 0x8000_0000
    ensures x == ToI16(x) + d * 0x1_0000 && -0x8000 <= ToI16(x) < 0x8000
  {
    a, c, d := x / 0x1_0000_0000_0000_0000, x / 0x1_0000_0000, x / 0x1_0000;
    b := if ToU64(x) < TWO63 then a else a + 1;
    c := if x % 0x1_0000_0000 < TWO31 then c else c + 1;
    d := if x % 0x1_0000 < 0x8000 then d else d + 1;
  }

  /** The quotient is cut toward zero: what is left is smaller than the divisor and has the sign of
      the dividend. */
  lemma DivCTruncates(x: int, d: int)
    requires d > 0
    ensures var left := x - DivC(x, d) * d; -d < left < d && (x >= 0 ==> left >= 0) && (x <= 0 ==> left <= 0)
  {
  }

  lemma InRangeUnchanged(x: int)
    ensures 0 <= x < TWO64 ==> ToU64(x) == x
    ensures -TWO63 <= x < TWO63 ==> ToI64(x) == x
  {
  }

  lemma IntUnchanged(x: i32)
    ensures ToI32(x) == x
  {
  }

  /** Cutting to 32 bits changes exactly the values that do not fit. */
  lemma IntFitsIff(x: int)
    ensures ToI32(x) == x <==> -TWO31 <= x < TWO31
  {
  }

  /** Whole turns do not show in a wrapped value. */
  lemma WrapTurns(x: int, turns: int)
    ensures ToU64(x + turns * TWO64) == ToU64(x)
    ensures ToI64(x + turns * TWO64) == ToI64(x)
  {
  }

  /** Wrapping is a homomorphism: intermediate wrap-arounds of a sum do not show. */
  lemma WrapSum(a: int, b: int)
    ensures ToI64(ToU64(a) + ToU64(b)) == ToI64(a + b)
  {
    WrapTurns(a + b, -(a / TWO64) - (b / TWO64));
  }

  /** The unsigned `MIN` is the signed minimum exactly on equal signs or equal bit patterns;
      for mixed signs it returns the non-negative operand. */
  lemma MinOfSigned(a: i64, b: i64)
    ensures (a >= 0) == (b >= 0) ==> ToI64(Min(a, b)) == if a < b then a else b
    ensures a >= 0 > b ==> ToI64(Min(a, b)) == a
    ensures b >= 0 > a ==> ToI64(Min(a, b)) == b
  {
  }

  /** An unsigned window test `a - b < w` is the two-sided test on the mathematical values
      as soon as the difference itself fits a signed 64-bit integer. */
  lemma UnsignedWindow(a: int, b: int, w: int)
    requires 0 <= w < TWO63 && -TWO63 <= a - b < TWO63
    ensures SubU(a, b) < w <==> b <= a < b + w
    ensures SubU(a, b) <= w <==> b <= a <= b + w
  {
  }
}
