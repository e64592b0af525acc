/** Java's fixed-width integers as mathematical integers, and the long
    operators the UUID codec uses. A `long` is the integer it denotes, in
    -2^63 .. 2^63 - 1; its 64-bit two's complement pattern is `Unsigned`.
    Following chapter 15 of the Java Language Specification: `x >> s` is
    floor(x / 2^s) (section 15.19), `x << s` is x * 2^s wrapped to 64 bits
    (section 15.19), and `&` and `|` act bit by bit on the two's complement
    patterns (section 15.22.1). */
module JavaArith {

  const TwoTo63: int := 0x8000_0000_0000_0000
  const TwoTo64: int := 0x1_0000_0000_0000_0000

  /** A Java `int`. */
  type Int32 = x: int | -0x8000_0000 <= x < 0x8000_0000

  /** A Java `long`. */
  type Long = x: int | -0x8000_0000_0000_0000 <= x < 0x8000_0000_0000_0000

  /** A Java `byte` as the unsigned value of its eight bits: what
      `InputStream.read()` returns and what `%02x` prints. */
  type Byte = b: int | 0 <= b < 256

  function Pow2(k: nat): (r: nat)
    ensures r >= 1
  {
    if k == 0 then 1 else 2 * Pow2(k - 1)
  }

  /** The 64-bit pattern of `x`, read as an unsigned number. */
  function Unsigned(x: Long): (u: nat)
    ensures u < TwoTo64
    ensures (x >= 0 ==> u == x) && (x < 0 ==> u == x + TwoTo64)
  {
    if x < 0 then x + TwoTo64 else x
  }

  /** The long whose 64-bit pattern is `u`. */
  function Signed(u: nat): (x: Long)
    requires u < TwoTo64
    ensures Unsigned(x) == u
    ensures x >= 0 <==> u < TwoTo63
  {
    if u < TwoTo63 then u else u - TwoTo64
  }

  /** Bitwise or of two naturals, lowest bit first. */
  function OrBits(a: nat, b: nat): nat
    decreases a + b
  {
    if a == 0 then b
    else if b == 0 then a
    else 2 * OrBits(a / 2, b / 2) + (if a % 2 == 1 || b % 2 == 1 then 1 else 0)
  }

  /** Bitwise and of two naturals, lowest bit first. */
  function AndBits(a: nat, b: nat): nat
    decreases a + b
  {
    if a == 0 || b == 0 then 0
    else 2 * AndBits(a / 2, b / 2) + (if a % 2 == 1 && b % 2 == 1 then 1 else 0)
  }

  /** Neither operation sets a bit at or above bit k when neither operand
      does. */
  lemma {:induction false} BitsBounded(a: nat, b: nat, k: nat)
    requires a < Pow2(k) && b < Pow2(k)
    ensures OrBits(a, b) < Pow2(k) && AndBits(a, b) < Pow2(k)
    decreases a + b
  {
    if a != 0 && b != 0 {
      BitsBounded(a / 2, b / 2, k - 1);
    }
  }

  lemma {:induction false} AndBitsAtMost(a: nat, b: nat)
    ensures AndBits(a, b) <= b
    decreases a + b
  {
    if a != 0 && b != 0 {
      AndBitsAtMost(a / 2, b / 2);
    }
  }

  /** Java `x | y` on longs. */
  function Or(x: Long, y: Long): Long {
    Pow2Of56And64();
    BitsBounded(Unsigned(x), Unsigned(y), 64);
    Signed(OrBits(Unsigned(x), Unsigned(y)))
  }

  /** Java `x & y` on longs. */
  function And(x: Long, y: Long): Long {
    Pow2Of56And64();
    BitsBounded(Unsigned(x), Unsigned(y), 64);
    Signed(AndBits(Unsigned(x), Unsigned(y)))
  }

  /** Java `x << s` on a long, for a shift distance in 0..63. */
  function ShiftLeft(x: Long, s: nat): Long
    requires s < 64
  {
    Signed((Unsigned(x) * Pow2(s)) % TwoTo64)
  }

  /** Java `x >> s` on a long, for a shift distance in 0..63. */
  function ShiftRight(x: Long, s: nat): (r: Long)
    requires s < 64
  {
    DivShrinks(x, Pow2(s));
    x / Pow2(s)
  }

  /** Floor division by a positive number moves towards zero, never past it. */
  lemma DivShrinks(x: int, d: int)
    requires d >= 1
    ensures x >= 0 ==> 0 <= x / d <= x
    ensures x < 0 ==> x <= x / d < 0
  {
    QuotientBounds(x, d, x / d, x % d);
  }

  lemma QuotientBounds(x: int, d: int, q: int, r: int)
    requires d >= 1 && x == d * q + r && 0 <= r < d
    ensures x >= 0 ==> 0 <= q <= x
    ensures x < 0 ==> x <= q < 0
  {
    if q > 0 {
      // q <= d * q <= x
      MulMonotone(1, d, q);
    } else if q < 0 {
      // -q - 1 <= d * (-q - 1), so x < d * q + d <= q + 1
      MulMonotone(1, d, -q - 1);
      assert d * (-q - 1) == -(d * q) - d;
    }
  }

  /** Eight doublings multiply by 256. */
  lemma Pow2Byte(k: nat)
    ensures Pow2(k + 8) == 256 * Pow2(k)
  {
    assert Pow2(k + 1) == 2 * Pow2(k);
    assert Pow2(k + 2) == 2 * Pow2(k + 1);
    assert Pow2(k + 3) == 2 * Pow2(k + 2);
    assert Pow2(k + 4) == 2 * Pow2(k + 3);
    assert Pow2(k + 5) == 2 * Pow2(k + 4);
    assert Pow2(k + 6) == 2 * Pow2(k + 5);
    assert Pow2(k + 7) == 2 * Pow2(k + 6);
  }

  lemma Pow2Of8()
    ensures Pow2(8) == 256
  {
    Pow2Byte(0);
  }

  lemma Pow2Of56And64()
    ensures Pow2(56) == 0x100_0000_0000_0000 && Pow2(64) == TwoTo64
  {
    assert Pow2(8) == 0x100 by { Pow2Byte(0); }
    assert Pow2(16) == 0x1_0000 by { Pow2Byte(8); }
    assert Pow2(24) == 0x100_0000 by { Pow2Byte(16); }
    assert Pow2(32) == 0x1_0000_0000 by { Pow2Byte(24); }
    assert Pow2(40) == 0x100_0000_0000 by { Pow2Byte(32); }
    assert Pow2(48) == 0x1_0000_0000_0000 by { Pow2Byte(40); }
    assert Pow2(56) == 0x100_0000_0000_0000 by { Pow2Byte(48); }
    assert Pow2(64) == TwoTo64 by { Pow2Byte(56); }
  }

  lemma {:induction false} Pow2Monotone(j: nat, k: nat)
    requires j <= k
    ensures Pow2(j) <= Pow2(k)
    decreases k
  {
    if j < k {
      Pow2Monotone(j, k - 1);
    }
  }

  /** `b` with its low k bits cleared: the low k bits of `b` are 0. */
  predicate LowBitsClear(b: nat, k: nat) {
    k == 0 || (b % 2 == 0 && LowBitsClear(b / 2, k - 1))
  }

  /** `b` shifted right by k bits, the low bits dropped. */
  function DropBits(b: nat, k: nat): nat {
    if k == 0 then b else DropBits(b / 2, k - 1)
  }

  /** A multiple of 2^k has its low k bits clear. */
  lemma {:induction false} MultipleLowBitsClear(m: nat, k: nat)
    ensures LowBitsClear(m * Pow2(k), k)
  {
    if k > 0 {
      assert m * Pow2(k) == 2 * (m * Pow2(k - 1));
      MultipleLowBitsClear(m, k - 1);
    }
  }

  /** Or-ing `a`, which lies in bits 0 .. k - 1, with a number whose low k
      bits are clear is adding them: no bit is set in both. */
  lemma {:induction false} OrDisjoint(a: nat, b: nat, k: nat)
    requires a < Pow2(k) && LowBitsClear(b, k)
    ensures OrBits(a, b) == a + b
  {
    if a != 0 && b != 0 {
      OrDisjoint(a / 2, b / 2, k - 1);
    }
  }

  lemma MulDouble(p: nat, d: nat)
    ensures (2 * p) * d == 2 * (p * d)
  {
  }

  /** And-ing with 2^k - 1 keeps the low k bits: what is left once the bits
      from k up are taken away. */
  lemma {:induction false} AndLowBits(u: nat, k: nat)
    ensures AndBits(u, Pow2(k) - 1) + Pow2(k) * DropBits(u, k) == u
  {
    if k > 0 {
      var p, d := Pow2(k - 1), DropBits(u / 2, k - 1);
      assert Pow2(k) - 1 == 2 * (p - 1) + 1;
      AndLowBits(u / 2, k - 1);
      MulDouble(p, d);
    }
  }

  /** `x & 0xFF` is the low byte of the pattern: x modulo 256, whatever the
      sign of x. */
  lemma AndLowByte(x: Long)
    ensures And(x, 0xFF) == x % 256
  {
    var u := Unsigned(x);
    var low := AndBits(u, 255);
    assert low + 256 * DropBits(u, 8) == u by {
      Pow2Of8();
      AndLowBits(u, 8);
    }
    assert low <= 255 by {
      AndBitsAtMost(u, 255);
    }
    ModUnique(u, low, DropBits(u, 8));
    if x < 0 {
      ModUnique(x, x % 256, x / 256);
      ModUnique(u, x % 256, x / 256 + 0x100_0000_0000_0000);
    }
  }

  lemma ModUnique(u: int, low: int, d: int)
    requires u == low + 256 * d && 0 <= low < 256
    ensures u % 256 == low
  {
  }

  /** `x >> 8` is floor(x / 256), the step the write loop takes on its
      running value, with 2^8 evaluated; the sign is kept. */
  lemma ShiftRightByte(x: Long)
    ensures ShiftRight(x, 8) == x / 256
    ensures ShiftRight(x, 8) < 0 <==> x < 0
  {
    Pow2Of8();
  }

  // ---- integer arithmetic the byte loops need

  lemma MulMonotone(a: nat, b: nat, c: nat)
    requires a <= b
    ensures a * c <= b * c
  {
  }

  lemma Distribute(p: int, r: int, s: int)
    ensures p * (r + 256 * s) == r * p + (256 * p) * s
  {
  }

  lemma BelowTwoTo64(x: int)
    requires 0 <= x < TwoTo64
    ensures x % TwoTo64 == x
  {
  }

  /** Division by b and then by c is division by b * c. */
  lemma DivDiv(v: int, b: int, c: int)
    requires b > 0 && c > 0
    ensures (v / b) / c == v / (b * c)
  {
    var q, r := v / b, v % b;
    var q2, r2 := q / c, q % c;
    assert v == (b * c) * q2 + (b * r2 + r) by {
      assert v == b * q + r;
      assert q == c * q2 + r2;
      assert b * q == b * (c * q2) + b * r2;
      assert b * (c * q2) == (b * c) * q2;
    }
    assert 0 <= b * r2 + r < b * c by {
      assert b * r2 <= b * (c - 1) by { MulMonotone(r2, c - 1, b); }
      assert b * (c - 1) == b * c - b;
    }
    DivUnique(v, b * c, q2, b * r2 + r);
  }

  /** Dividing by b and then by 256 is dividing by 256b. */
  lemma DivByByte(v: int, b: int, c: int)
    requires b > 0 && c == 256 * b
    ensures (v / b) / 256 == v / c
  {
    DivDiv(v, b, 256);
  }

  lemma DivUnique(v: int, d: int, q: int, r: int)
    requires d > 0 && v == d * q + r && 0 <= r < d
    ensures v / d == q
  {
    var q', r' := v / d, v % d;
    var e := q - q';
    assert d * e == r' - r by {
      assert v == d * q' + r';
      assert d * q - d * q' == d * e;
    }
    if e > 0 {
      MulMonotone(1, e, d);
    }
  }
}
