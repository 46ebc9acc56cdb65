/** C integer semantics shared by every component: fixed-width wrap-around,
    division that truncates toward zero, and an Option for nullable results. */
module CInt {

  const U32: int := 0x1_0000_0000

  predicate IsInt16(v: int) { -32768 <= v <= 32767 }

  predicate IsU32(v: int) { 0 <= v < U32 }

  /** Storing an int into an int16_t: keep the value modulo 2^16, read back signed. */
  function Wrap16(v: int): (r: int)
    ensures IsInt16(r)
    ensures IsInt16(v) ==> r == v
    ensures 32767 < v < 98304 ==> r == v - 65536
    ensures -98304 <= v < -32768 ==> r == v + 65536
  {
    if IsInt16(v) then v else (v + 32768) % 65536 - 32768
  }

  /** Conversion to uint32_t: the value modulo 2^32. */
  function ToU32(v: int): (r: int)
    ensures IsU32(r)
    ensures (r - v) % U32 == 0
    ensures IsU32(v) ==> r == v
  {
    v % U32
  }

  /** C's `/` on int: the quotient is truncated toward zero (Dafny's `/` floors for b > 0). */
  function CDiv(a: int, b: int): (q: int)
    requires b > 0
    ensures a >= 0 ==> 0 <= a - b * q < b
    ensures a < 0 ==> 0 <= b * q - a < b
  {
    if a >= 0 then a / b else -((-a) / b)
  }

  function Abs(v: int): (r: int)
    ensures r >= 0 && (r == v || r == -v)
  {
    if v < 0 then -v else v
  }

  /** Stepping the dividend down by one divisor steps the quotient down by one. */
  lemma DivStep(y: int, d: int)
    requires y >= d > 0
    ensures y / d == (y - d) / d + 1
  {
    DivModUnique(y, d, (y - d) / d + 1, (y - d) % d);
  }

  /** Euclidean division has exactly one quotient and remainder. */
  lemma DivModUnique(m: int, n: int, q: int, r: int)
    requires n > 0 && 0 <= r < n && m == q * n + r
    ensures m / n == q && m % n == r
  {
    var q', r' := m / n, m % n;
    if q' > q {
      assert (q' - q) * n == r - r';
      MulAtLeast(q' - q, n);
    } else if q' < q {
      assert (q - q') * n == r' - r;
      MulAtLeast(q - q', n);
    }
  }

  lemma MulAtLeast(a: int, b: int)
    requires a >= 1 && b > 0
    ensures a * b >= b
  {
  }

  function Pow2(n: nat): (p: nat)
    ensures p >= 1
  {
    if n == 0 then 1 else 2 * Pow2(n - 1)
  }

  lemma Pow2Is32()
    ensures Pow2(32) == U32
  {
    assert Pow2(2) == 4;
    Pow2Add(2, 2);
    Pow2Add(4, 4);
    assert Pow2(8) == 256;
    Pow2Add(8, 8);
    assert Pow2(16) == 65536;
    Pow2Add(16, 16);
  }

  lemma {:induction false} Pow2Add(a: nat, b: nat)
    ensures Pow2(a + b) == Pow2(a) * Pow2(b)
  {
    if a > 0 {
      Pow2Add(a - 1, b);
    }
  }

  /** Bitwise exclusive or of the low n bits, bit 0 first. */
  function XorBits(a: nat, b: nat, n: nat): (r: nat)
    ensures r < Pow2(n)
  {
    if n == 0 then 0 else (a + b) % 2 + 2 * XorBits(a / 2, b / 2, n - 1)
  }

  /** `a ^ b` on `uint32_t`. */
  function Xor32(a: nat, b: nat): (r: nat)
    ensures IsU32(r)
  {
    Pow2Is32();
    XorBits(a, b, 32)
  }

  lemma {:induction false} XorBitsZero(a: nat, n: nat)
    requires a < Pow2(n)
    ensures XorBits(a, 0, n) == a
  {
    if n > 0 {
      XorBitsZero(a / 2, n - 1);
    }
  }

  lemma {:induction false} XorBitsCancel(a: nat, b: nat, n: nat)
    requires a < Pow2(n)
    ensures XorBits(XorBits(a, b, n), b, n) == a
  {
    if n > 0 {
      var r' := XorBits(a / 2, b / 2, n - 1);
      var r := (a + b) % 2 + 2 * r';
      assert XorBits(a, b, n) == r;
      LowBit(a, b, r');
      XorBitsCancel(a / 2, b / 2, n - 1);
      assert XorBits(r, b, n) == (r + b) % 2 + 2 * XorBits(r', b / 2, n - 1);
    }
  }

  /** One bit of the exclusive or: the low bit and the rest of `(a+b)%2 + 2*rest`,
      and the low bit of xor-ing it again with b. */
  lemma LowBit(a: nat, b: nat, rest: nat)
    ensures ((a + b) % 2 + 2 * rest) % 2 == (a + b) % 2
    ensures ((a + b) % 2 + 2 * rest) / 2 == rest
    ensures ((a + b) % 2 + 2 * rest + b) % 2 == a % 2
  {
    var p, q := a % 2, b % 2;
    assert a == 2 * (a / 2) + p && b == 2 * (b / 2) + q;
    var t := (a + b) % 2;
    assert t == (p + q) % 2 by {
      assert a + b == 2 * (a / 2 + b / 2) + (p + q);
    }
    assert t + 2 * rest + b == 2 * (rest + b / 2) + (t + q);
  }

  lemma {:induction false} XorBitsCommutes(a: nat, b: nat, n: nat)
    ensures XorBits(a, b, n) == XorBits(b, a, n)
  {
    if n > 0 {
      XorBitsCommutes(a / 2, b / 2, n - 1);
    }
  }

  /** Exclusive or with zero is the identity, the operands commute, and xor-ing
      twice with the same word undoes it. */
  lemma Xor32Laws(a: nat, b: nat)
    requires IsU32(a)
    ensures Xor32(a, 0) == a && Xor32(0, a) == a
    ensures Xor32(a, b) == Xor32(b, a)
    ensures Xor32(Xor32(a, b), b) == a
  {
    Pow2Is32();
    XorBitsCommutes(a, b, 32);
    XorBitsZero(a, 32);
    XorBitsCommutes(0, a, 32);
    XorBitsCancel(a, b, 32);
  }

  datatype Option<T> = None | Some(value: T)
}
