/** Machine words as naturals: powers of two, the bitwise operators the sources use,
    little-endian byte strings, and the alignment idioms. */
module Words {

  type byte = x: int | 0 <= x < 0x100
  type u16 = x: int | 0 <= x < 0x1_0000
  type u32 = x: int | 0 <= x < 0x1_0000_0000
  type u64 = x: int | 0 <= x < 0x1_0000_0000_0000_0000

  datatype Option<+T> = None | Some(value: T)

  datatype Result<+T> = Ok(value: T) | Err

  /** Unsigned 64-bit wrap-around. */
  function Wrap64(x: int): (r: u64)
    ensures 0 <= x < 0x1_0000_0000_0000_0000 ==> r == x
    ensures -0x1_0000_0000_0000_0000 <= x < 0 ==> r == x + 0x1_0000_0000_0000_0000
  {
    x % 0x1_0000_0000_0000_0000
  }

  /** Addition of 64-bit words. */
  function Add64(a: int, b: int): (r: u64)
    ensures r == Wrap64(a + b)
  {
    Wrap64(a + b)
  }

  /** Unsigned 32-bit wrap-around. */
  function Wrap32(x: int): (r: u32)
    ensures 0 <= x < 0x1_0000_0000 ==> r == x
  {
    x % 0x1_0000_0000
  }

  function Min(a: int, b: int): int {
    if a <= b then a else b
  }

  function Max(a: int, b: int): int {
    if a >= b then a else b
  }

  // ---- powers of two -------------------------------------------------------

  function Pow2(n: nat): (p: nat)
    ensures p >= 1
  {
    if n == 0 then 1 else 2 * Pow2(n - 1)
  }

  lemma {:induction false} Pow2Add(a: nat, b: nat)
    ensures Pow2(a + b) == Pow2(a) * Pow2(b)
  {
    if a == 0 {
    } else {
      Pow2Add(a - 1, b);
      MulAssoc(2, Pow2(a - 1), Pow2(b));
    }
  }

  lemma {:induction false} Pow2Monotone(a: nat, b: nat)
    requires a <= b
    ensures Pow2(a) <= Pow2(b)
    decreases b - a
  {
    if a < b {
      Pow2Monotone(a + 1, b);
    }
  }

  lemma Pow2Values()
    ensures Pow2(7) == 128 && Pow2(8) == 256 && Pow2(12) == 4096 && Pow2(21) == 0x20_0000
    ensures Pow2(32) == 0x1_0000_0000 && Pow2(63) == 0x8000_0000_0000_0000
    ensures Pow2(64) == 0x1_0000_0000_0000_0000
  {
    assert Pow2(4) == 16 && Pow2(5) == 32 && Pow2(7) == 128;
    Pow2Add(4, 4);
    Pow2Add(8, 4);
    Pow2Add(8, 8);
    Pow2Add(16, 5);
    Pow2Add(16, 16);
    Pow2Add(32, 32);
    assert Pow2(64) == 2 * Pow2(63);
  }

  lemma MulAssoc(a: int, b: int, c: int)
    ensures (a * b) * c == a * (b * c)
  {
  }

  // ---- bitwise operators ---------------------------------------------------

  function And(a: nat, b: nat): nat {
    if a == 0 || b == 0 then 0
    else (if a % 2 == 1 && b % 2 == 1 then 1 else 0) + 2 * And(a / 2, b / 2)
  }

  function Or(a: nat, b: nat): nat {
    if a == 0 then b
    else if b == 0 then a
    else (if a % 2 == 1 || b % 2 == 1 then 1 else 0) + 2 * Or(a / 2, b / 2)
  }

  function Xor(a: nat, b: nat): nat {
    if a == 0 then b
    else if b == 0 then a
    else (if a % 2 != b % 2 then 1 else 0) + 2 * Xor(a / 2, b / 2)
  }

  /** The operator `a & ~m` on words of any width holding both operands. */
  function AndNot(a: nat, m: nat): nat {
    if a == 0 then 0
    else (if a % 2 == 1 && m % 2 == 0 then 1 else 0) + 2 * AndNot(a / 2, m / 2)
  }

  /** `|` is `+` when the right operand lies above the bits of the left one. */
  lemma {:induction false} OrAbove(v: nat, b: nat, s: nat)
    requires v < Pow2(s)
    ensures Or(v, b * Pow2(s)) == v + b * Pow2(s)
  {
    if s > 0 && v != 0 && b != 0 {
      var p := Pow2(s - 1);
      assert b * Pow2(s) == 2 * (b * p) by { MulAssoc(b, 2, p); }
      OrAbove(v / 2, b, s - 1);
    }
  }

  lemma {:induction false} OrContains(w: nat, m: nat)
    ensures And(Or(w, m), m) == m
    ensures And(Or(m, w), m) == m
  {
    if m == 0 || w == 0 {
      AndSelf(m);
    } else {
      OrContains(w / 2, m / 2);
      OrParity(w, m);
      OrParity(m, w);
    }
  }

  lemma {:induction false} AndSelf(m: nat)
    ensures And(m, m) == m
  {
    if m != 0 {
      AndSelf(m / 2);
    }
  }

  lemma OrParity(a: nat, b: nat)
    ensures Or(a, b) / 2 == Or(a / 2, b / 2)
    ensures Or(a, b) % 2 == (if a % 2 == 1 || b % 2 == 1 then 1 else 0)
    ensures Or(a, b) == 0 <==> a == 0 && b == 0
  {
  }

  /** Setting more bits never clears a mask that was already present. */
  lemma {:induction false} OrKeeps(w: nat, x: nat, m: nat)
    requires And(w, m) == m
    ensures And(Or(w, x), m) == m
  {
    if m != 0 && w != 0 && x != 0 {
      OrParity(w, x);
      OrKeeps(w / 2, x / 2, m / 2);
    }
  }

  /** `((a ^ b) >> 1) == 0` compares everything but the lowest bit. */
  lemma {:induction false} XorZero(a: nat, b: nat)
    ensures Xor(a, b) == 0 <==> a == b
  {
    if a != 0 && b != 0 {
      XorZero(a / 2, b / 2);
    }
  }

  lemma XorHigh(a: nat, b: nat)
    ensures Xor(a, b) / 2 == 0 <==> a / 2 == b / 2
  {
    assert Xor(a, b) / 2 == Xor(a / 2, b / 2);
    XorZero(a / 2, b / 2);
  }

  lemma {:induction false} AndSplit(a: nat, m: nat)
    ensures AndNot(a, m) + And(a, m) == a
    ensures And(a, m) <= m
    ensures And(AndNot(a, m), m) == 0
  {
    if a != 0 && m != 0 {
      AndSplit(a / 2, m / 2);
    } else if a != 0 {
      AndSplit(a / 2, 0);
    }
  }

  lemma {:induction false} AndLowMask(a: nat, k: nat)
    ensures And(a, Pow2(k) - 1) == a % Pow2(k)
  {
    if k > 0 {
      var p := Pow2(k - 1);
      AndLowMask(a / 2, k - 1);
      ModHalf(a, p);
      AndOddMask(a, p);
    }
  }

  lemma AndOddMask(a: nat, p: nat)
    requires p >= 1
    ensures And(a, 2 * p - 1) == a % 2 + 2 * And(a / 2, p - 1)
  {
    assert (2 * p - 1) / 2 == p - 1;
  }

  lemma ModHalf(a: nat, p: nat)
    requires p > 0
    ensures a % (2 * p) == a % 2 + 2 * ((a / 2) % p)
  {
    var h := a / 2;
    var q, r := h / p, h % p;
    assert h == p * q + r;
    assert a == (2 * p) * q + (a % 2 + 2 * r) by { MulAssoc(2, p, q); }
    ModUnique(a, 2 * p, q, a % 2 + 2 * r);
  }

  lemma ModUnique(a: int, d: int, q: int, r: int)
    requires 0 <= r < d && a == d * q + r
    ensures a / d == q && a % d == r
  {
    var q', r' := a / d, a % d;
    MulDistribute(d, q, q');
    if q > q' {
      MulAtLeast(d, q - q');
    } else if q < q' {
      MulDistribute(d, q', q);
      MulAtLeast(d, q' - q);
    }
  }

  lemma MulDistribute(d: int, a: int, b: int)
    ensures d * (a - b) == d * a - d * b
  {
  }

  lemma MulAtLeast(d: int, k: int)
    requires d >= 0 && k >= 1
    ensures d * k >= d
  {
  }

  // ---- alignment -----------------------------------------------------------

  /** The idiom `(x + mask) & ~mask` in 64-bit arithmetic. */
  function RoundUp(x: nat, mask: nat): u64 {
    AndSplit(Wrap64(x + mask), mask);
    AndNot(Wrap64(x + mask), mask)
  }

  /** Rounding up never goes below `x`, overshoots by at most the mask, and clears the mask's
      bits - for every mask, power of two or not - unless the addition wraps. */
  lemma RoundUpBounds(x: nat, mask: nat)
    requires x + mask < 0x1_0000_0000_0000_0000
    ensures x <= RoundUp(x, mask) <= x + mask
    ensures And(RoundUp(x, mask), mask) == 0
  {
    AndSplit(x + mask, mask);
  }

  /** With a power-of-two alignment the result is the least multiple not below `x`. */
  lemma RoundUpAligned(x: nat, k: nat)
    requires x + Pow2(k) - 1 < 0x1_0000_0000_0000_0000
    ensures RoundUp(x, Pow2(k) - 1) % Pow2(k) == 0
    ensures x <= RoundUp(x, Pow2(k) - 1) < x + Pow2(k)
  {
    RoundUpBounds(x, Pow2(k) - 1);
    AndLowMask(RoundUp(x, Pow2(k) - 1), k);
  }

  // ---- little-endian bytes -------------------------------------------------

  function Pow256(n: nat): nat {
    if n == 0 then 1 else 256 * Pow256(n - 1)
  }

  function LeBytes(v: nat, n: nat): (bs: seq<byte>)
    ensures |bs| == n
  {
    if n == 0 then [] else [v % 256] + LeBytes(v / 256, n - 1)
  }

  function LeValue(bs: seq<byte>): nat {
    if bs == [] then 0 else bs[0] + 256 * LeValue(bs[1..])
  }

  lemma {:induction false} LeRoundTrip(v: nat, n: nat)
    requires v < Pow256(n)
    ensures LeValue(LeBytes(v, n)) == v
  {
    if n > 0 {
      LeRoundTrip(v / 256, n - 1);
      assert LeBytes(v, n)[1..] == LeBytes(v / 256, n - 1);
    }
  }

  lemma {:induction false} LeOfBytes(bs: seq<byte>)
    ensures LeValue(bs) < Pow256(|bs|)
    ensures LeBytes(LeValue(bs), |bs|) == bs
  {
    if bs != [] {
      LeOfBytes(bs[1..]);
    }
  }

  lemma Pow256Values()
    ensures Pow256(2) == 0x1_0000 && Pow256(4) == 0x1_0000_0000
    ensures Pow256(8) == 0x1_0000_0000_0000_0000
  {
  }
}
