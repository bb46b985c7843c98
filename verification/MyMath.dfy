/** C integer arithmetic as the allocator uses it, and the DIV_CEIL macros of
    Kernel/include/myMath.h. */
module MyMath {
  const INT_MAX: int := 0x7FFF_FFFF
  const UINT64_SIZE: int := 0x1_0000_0000_0000_0000

  /** Conversion to a 32-bit int: keeps the low 32 bits, read as two's complement. */
  function Int32(x: int): (r: int)
    ensures -INT_MAX - 1 <= r <= INT_MAX
    ensures -INT_MAX - 1 <= x <= INT_MAX ==> r == x
  {
    (x + 0x8000_0000) % 0x1_0000_0000 - 0x8000_0000
  }

  /** Conversion to uint64_t. */
  function UInt64(x: int): (r: int)
    ensures 0 <= r < UINT64_SIZE
    ensures 0 <= x < UINT64_SIZE ==> r == x
  {
    x % UINT64_SIZE
  }

  /** The conversions add multiples of 2^32 and 2^64: with the ranges above, this says what they are. */
  lemma ConversionsKeepLowBits(x: int) returns (q: int, r: int)
    ensures x == Int32(x) + q * 0x1_0000_0000 && x == UInt64(x) + r * UINT64_SIZE
  {
    q, r := (x + 0x8000_0000) / 0x1_0000_0000, x / UINT64_SIZE;
  }

  /** C division truncates toward zero. */
  function CDiv(x: int, y: int): int
    requires y != 0
  {
    if x >= 0 then x / y else -((-x) / y)
  }

  function CMod(x: int, y: int): int
    requires y != 0
  {
    x - y * CDiv(x, y)
  }

  function PositiveDivCeilNum(x: int, y: int): int
    requires y > 0
  {
    x + CMod(y - CMod(x, y), y)
  }

  function DivCeilFixed(x: int, y: int): int
    requires y > 0
  {
    if x > 0 then CDiv(PositiveDivCeilNum(x, y), y) else CDiv(x, y)
  }

  function DivCeil(x: int, y: int): int
    requires y != 0
  {
    if y > 0 then DivCeilFixed(x, y) else DivCeilFixed(-x, -y)
  }

  lemma MulAtLeast(k: int, y: int)
    requires y > 0
    ensures k >= 1 ==> k * y >= y
    ensures k <= -1 ==> k * y <= -y
  {
  }

  lemma DivideWithRemainder(k: int, r: int, y: int)
    requires 0 <= r < y
    ensures (k * y + r) / y == k
  {
    var q, s := (k * y + r) / y, (k * y + r) % y;
    assert (q - k) * y == r - s;
    MulAtLeast(q - k, y);
  }

  lemma DivideMultiple(k: int, y: int)
    requires y > 0
    ensures (k * y) / y == k
  {
    DivideWithRemainder(k, 0, y);
  }

  lemma CeilingOfMultiple(q: int, y: int)
    requires y > 0 && q > 0
    ensures q * y > 0 && DivCeilFixed(q * y, y) == q
  {
    MulAtLeast(q, y);
    DivideMultiple(q, y);
    DivideMultiple(1, y);
    assert CMod(q * y, y) == 0 && CMod(y, y) == 0;
  }

  lemma CeilingWithRemainder(q: int, r: int, y: int)
    requires y > 0 && q >= 0 && 0 < r < y
    ensures q * y + r > 0 && DivCeilFixed(q * y + r, y) == q + 1
  {
    var x := q * y + r;
    assert q * y >= 0;
    DivideWithRemainder(q, r, y);
    assert CMod(x, y) == r;
    DivideWithRemainder(0, y - r, y);
    assert PositiveDivCeilNum(x, y) == x + (y - r) == (q + 1) * y;
    DivideMultiple(q + 1, y);
  }

  lemma CeilingWhenPositive(a: int, b: int)
    requires b > 0 && a > 0
    ensures (DivCeilFixed(a, b) - 1) * b < a <= DivCeilFixed(a, b) * b
  {
    hide DivCeilFixed;
    var q, r := a / b, a % b;
    assert a == q * b + r;
    if r == 0 {
      CeilingOfMultiple(q, b);
    } else {
      CeilingWithRemainder(q, r, b);
    }
  }

  lemma CeilingWhenNotPositive(a: int, b: int)
    requires b > 0 && a <= 0
    ensures (DivCeilFixed(a, b) - 1) * b < a <= DivCeilFixed(a, b) * b
  {
    var q, r := (-a) / b, (-a) % b;
    assert -a == q * b + r;
    assert DivCeilFixed(a, b) == -q;
    assert (-q) * b == a + r;
    assert (-q - 1) * b == a + r - b;
  }

  /** DIV_CEIL is the true ceiling of x/y for every sign of x and y: with the sign moved to
      the numerator, it is the least q such that q * |y| reaches it. */
  lemma DivCeilIsCeiling(x: int, y: int)
    requires y != 0
    ensures var (a, b) := if y > 0 then (x, y) else (-x, -y);
            (DivCeil(x, y) - 1) * b < a <= DivCeil(x, y) * b
  {
    hide DivCeilFixed;
    var (a, b) := if y > 0 then (x, y) else (-x, -y);
    if a > 0 {
      CeilingWhenPositive(a, b);
    } else {
      CeilingWhenNotPositive(a, b);
    }
  }
}
