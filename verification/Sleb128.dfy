/** The SLEB128 decoder of the linker's packed relocations (section 7.6 of DWARF 5). */
module Sleb128 {
  import opened Words

  // ---- what a call of the decoder computes ------------------------------------

  /** The value of a SLEB128 number and the bytes after it, in plain arithmetic modulo 2^64:
      `scale` is the weight of the next 7-bit group, and is 0 once it has left the word. */
  function Pop(bs: seq<byte>, value: u64, scale: u64): (r: Result<(u64, seq<byte>)>)
    ensures r.Ok? ==> |r.value.1| < |bs| && r.value.1 == bs[|bs| - |r.value.1|..]
  {
    if bs == [] then Err
    else
      var v := Wrap64(value + (bs[0] % 128) * scale);
      var next := Wrap64(128 * scale);
      if bs[0] >= 128 then Pop(bs[1..], v, next)
      else Ok((if bs[0] >= 64 then Wrap64(v - next) else v, bs[1..]))
  }

  function PopFront(bs: seq<byte>): (r: Result<(u64, seq<byte>)>)
    ensures r.Ok? ==> |r.value.1| < |bs| && r.value.1 == bs[|bs| - |r.value.1|..]
  {
    Pop(bs, 0, 1)
  }

  /** The whole stream as numbers, up to where it is cut off. */
  function Numbers(bs: seq<byte>): seq<u64> {
    match PopFront(bs)
    case Err => []
    case Ok((x, rest)) => [x] + Numbers(rest)
  }

  // ---- the encoder it inverts ---------------------------------------------------

  /** Two's-complement reading of a word. */
  function Signed(x: u64): int {
    if x < 0x8000_0000_0000_0000 then x else x - 0x1_0000_0000_0000_0000
  }

  function Abs(v: int): nat {
    if v < 0 then -v else v
  }

  function EncodeSigned(v: int): (bs: seq<byte>)
    ensures |bs| >= 1
    decreases Abs(v)
  {
    if -64 <= v < 64 then [v % 128]
    else [v % 128 + 128] + EncodeSigned(v / 128)
  }

  function Encode(x: u64): (bs: seq<byte>)
    ensures |bs| >= 1
  {
    EncodeSigned(Signed(x))
  }

  /** The range of `n` further 7-bit groups. */
  function Range(n: nat): (r: nat)
    ensures r >= 1
  {
    if n == 0 then 1 else 128 * Range(n - 1)
  }

  /** With `p` the weight of the next group and room for `n` more, decoding adds `v * p`. */
  lemma {:induction false} PopEncoded(v: int, value: u64, p: u64, n: nat, tail: seq<byte>)
    requires value < p && p * Range(n) <= 0x8000_0000_0000_0000
    requires 0 - Range(n) <= v < Range(n)
    ensures Pop(EncodeSigned(v) + tail, value, p) == Ok((Wrap64(value + v * p), tail))
    decreases Abs(v)
  {
    var bs := EncodeSigned(v) + tail;
    if -64 <= v < 64 {
      MulAtLeast(p, Range(n));
      assert bs == [v % 128] + tail;
      LastGroup(v, value, p, tail);
    } else {
      FirstOfMany(v, tail);
      NextRoom(p, n);
      var next := MoreGroups(v, bs, value, p);
      PopEncoded(v / 128, next, 128 * p, n - 1, tail);
    }
  }

  lemma FirstOfMany(v: int, tail: seq<byte>)
    requires !(-64 <= v < 64)
    ensures var bs := EncodeSigned(v) + tail;
            bs[0] == v % 128 + 128 && bs[1..] == EncodeSigned(v / 128) + tail
  {
  }

  lemma NextRoom(p: nat, n: nat)
    requires n > 0
    ensures 128 * p <= (128 * p) * Range(n - 1) == p * Range(n)
  {
    MulAssoc(p, 128, Range(n - 1));
    MulAtLeast(128 * p, Range(n - 1));
  }

  lemma MoreGroups(v: int, bs: seq<byte>, value: u64, p: nat) returns (next: u64)
    requires bs != [] && bs[0] == v % 128 + 128 && value < p && 128 * p <= 0x8000_0000_0000_0000
    ensures next < 128 * p && next + (v / 128) * (128 * p) == value + v * p
    ensures Pop(bs, value, p) == Pop(bs[1..], next, 128 * p)
  {
    assert value + (v % 128) * p < 128 * p by { LessTimes(value, v % 128, 128, p); }
    next := value + (v % 128) * p;
    Regroup(v, p);
  }

  lemma LastGroup(v: int, value: u64, p: nat, tail: seq<byte>)
    requires -64 <= v < 64 && value < p <= 0x8000_0000_0000_0000
    ensures Pop([v % 128] + tail, value, p) == Ok((Wrap64(value + v * p), tail))
  {
    var bs, t, q := [v % 128] + tail, (v % 128) * p, 128 * p;
    assert bs[0] == v % 128 && bs[1..] == tail;
    assert v * p == if v < 0 then t - q else t by { LowGroup(v, p); }
    WrapMinus(value + t, q);
  }

  lemma LowGroup(v: int, p: int)
    requires -64 <= v < 64
    ensures v * p == if v < 0 then (v % 128) * p - 128 * p else (v % 128) * p
  {
    MulDistribute(p, v % 128, 128);
  }

  lemma WrapMinus(a: int, b: int)
    ensures Wrap64(Wrap64(a) - Wrap64(b)) == Wrap64(a - b)
  {
  }

  lemma Regroup(v: int, p: int)
    ensures (v % 128) * p + (v / 128) * (128 * p) == v * p
  {
    var low, high := v % 128, v / 128;
    assert v * p == (low + high * 128) * p == low * p + (high * 128) * p;
    MulAssoc(high, 128, p);
  }

  lemma LessTimes(value: nat, k: nat, n: nat, p: nat)
    requires value < p && k < n
    ensures value + k * p < n * p
  {
    MulDistribute(p, n, k);
    MulAtLeast(p, n - k);
  }

  /** Every word survives encoding and decoding, whatever follows it in the stream. */
  lemma RoundTrip(x: u64, tail: seq<byte>)
    ensures PopFront(Encode(x) + tail) == Ok((x, tail))
  {
    assert Range(9) == 0x8000_0000_0000_0000;
    PopEncoded(Signed(x), 0, 1, 9, tail);
  }

  function EncodeAll(xs: seq<u64>): seq<byte> {
    if xs == [] then [] else Encode(xs[0]) + EncodeAll(xs[1..])
  }

  /** Every list of words survives encoding and decoding. */
  lemma {:induction false} NumbersOfEncoded(xs: seq<u64>)
    ensures Numbers(EncodeAll(xs)) == xs
  {
    if xs != [] {
      RoundTrip(xs[0], EncodeAll(xs[1..]));
      NumbersOfEncoded(xs[1..]);
    }
  }

  lemma NumbersNone(bs: seq<byte>)
    requires PopFront(bs) == Err
    ensures Numbers(bs) == []
  {
  }

  lemma NumbersSome(bs: seq<byte>, x: u64, rest: seq<byte>)
    requires PopFront(bs) == Ok((x, rest))
    ensures Numbers(bs) == [x] + Numbers(rest)
  {
  }

  // ---- the decoder object -------------------------------------------------------

  /** `b << s` on 64-bit words. A distance of 64 or more, undefined in C, shifts everything out. */
  function Shl(b: nat, s: nat): u64 {
    if s >= 64 then 0 else Wrap64(b * Pow2(s))
  }

  lemma Pow2Seven(s: nat)
    ensures Pow2(s + 7) == 128 * Pow2(s)
  {
    Pow2Add(s, 7);
    Pow2Values();
  }

  lemma Pow2Fits(s: nat)
    requires s <= 63
    ensures Pow2(s) <= 0x8000_0000_0000_0000
    ensures Shl(1, s) == Pow2(s)
  {
    Pow2Monotone(s, 63);
    Pow2Values();
  }

  /** OR-ing the next group into the value adds it, and the weight grows by 2^7. */
  lemma OrGroup(value: u64, low: nat, k: nat)
    requires low < 128 && (7 * k < 64 ==> value < Pow2(7 * k))
    ensures Or(value, Shl(low, 7 * k)) == Wrap64(value + low * Shl(1, 7 * k))
    ensures Wrap64(128 * Shl(1, 7 * k)) == Shl(1, 7 * (k + 1))
    ensures 7 * (k + 1) < 64 ==> Or(value, Shl(low, 7 * k)) < Pow2(7 * (k + 1))
  {
    var s := 7 * k;
    if s <= 56 {
      assert Shl(1, s) == Pow2(s) && Shl(1, s + 7) == Pow2(s + 7) by { Pow2Fits(s); Pow2Fits(s + 7); }
      assert Wrap64(128 * Shl(1, s)) == Shl(1, s + 7) by { Pow2Seven(s); Pow2Fits(s + 7); }
      OrLow(value, low, s);
    } else if s == 63 {
      OrTop(value, low);
    }
  }

  lemma OrTop(value: u64, low: nat)
    requires value < Pow2(63)
    ensures Or(value, Shl(low, 63)) == Wrap64(value + low * Shl(1, 63))
    ensures Wrap64(128 * Shl(1, 63)) == 0
  {
    assert Pow2(63) == 0x8000_0000_0000_0000 by { Pow2Values(); }
    OddEven(value, low);
    OrAbove(value, low % 2, 63);
  }

  lemma OddEven(value: nat, low: nat)
    requires value < 0x8000_0000_0000_0000
    ensures Wrap64(value + low * 0x8000_0000_0000_0000) == value + (low % 2) * 0x8000_0000_0000_0000
    ensures Wrap64(low * 0x8000_0000_0000_0000) == (low % 2) * 0x8000_0000_0000_0000
  {
  }

  lemma GroupFits(value: u64, low: nat, s: nat)
    requires s <= 56 && value < Pow2(s) && low < 128
    ensures value + low * Pow2(s) < Pow2(s + 7) <= 0x8000_0000_0000_0000
  {
    LessTimes(value, low, 128, Pow2(s));
    Pow2Seven(s);
    Pow2Fits(s + 7);
  }

  lemma OrLow(value: u64, low: nat, s: nat)
    requires s <= 56 && value < Pow2(s) && low < 128
    ensures Or(value, Shl(low, s)) == Wrap64(value + low * Pow2(s)) < Pow2(s + 7)
  {
    GroupFits(value, low, s);
    ShlSmall(low, s);
    OrAbove(value, low, s);
  }

  lemma ShlSmall(low: nat, s: nat)
    requires s <= 63 && low * Pow2(s) < 0x1_0000_0000_0000_0000
    ensures Shl(low, s) == low * Pow2(s)
  {
  }

  /** OR-ing in `-(1 << s)` subtracts the weight of the first bit above the value. */
  lemma OrSign(x: u64, s: nat)
    requires s <= 63 && x < Pow2(s)
    ensures Or(x, Wrap64(0 - Shl(1, s))) == Wrap64(x - Shl(1, s))
  {
    Pow2Fits(s);
    var high := 0x1_0000_0000_0000_0000 - Pow2(s);
    assert Or(x, high) == x + high by {
      assert (Pow2(64 - s) - 1) * Pow2(s) == high by { HighMask(s); }
      OrAbove(x, Pow2(64 - s) - 1, s);
    }
  }

  lemma HighMask(s: nat)
    requires s <= 63
    ensures (Pow2(64 - s) - 1) * Pow2(s) == 0x1_0000_0000_0000_0000 - Pow2(s)
  {
    assert Pow2(64 - s) * Pow2(s) == 0x1_0000_0000_0000_0000 by { Pow2Add(64 - s, s); Pow2Values(); }
    MulPred(Pow2(64 - s), Pow2(s));
  }

  lemma MulPred(n: int, p: int)
    ensures (n - 1) * p == n * p - p
  {
  }

  /** One byte of the loop: shifting and OR-ing follows the arithmetic of `Pop`. */
  lemma PopByte(bs: seq<byte>, value: u64, k: nat) returns (v: u64)
    requires bs != [] && (7 * k < 64 ==> value < Pow2(7 * k))
    ensures v == Or(value, Shl(bs[0] % 128, 7 * k))
    ensures 7 * (k + 1) < 64 ==> v < Pow2(7 * (k + 1))
    ensures bs[0] >= 128 ==> Pop(bs, value, Shl(1, 7 * k)) == Pop(bs[1..], v, Shl(1, 7 * (k + 1)))
    ensures bs[0] < 128 ==> Pop(bs, value, Shl(1, 7 * k)) == Ok((SignExtend(v, 7 * (k + 1), bs[0]), bs[1..]))
  {
    var g: int, n: int, s := Shl(1, 7 * k), Shl(1, 7 * (k + 1)), 7 * (k + 1);
    v := Wrap64(value + (bs[0] % 128) * g);
    assert v == Or(value, Shl(bs[0] % 128, 7 * k)) && Wrap64(128 * g) == n && (s < 64 ==> v < Pow2(s)) by {
      OrGroup(value, bs[0] % 128, k);
    }
    assert SignExtend(v, s, bs[0]) == if bs[0] >= 64 then Wrap64(v - n) else v by {
      if s < 64 {
        OrSign(v, s);
      }
    }
  }

  /** Bit 6 of the last byte is the sign, unless the value already fills the word. */
  function SignExtend(value: u64, shift: nat, last: byte): nat {
    if shift < 64 && last >= 64 then Or(value, Wrap64(0 - Shl(1, shift))) else value
  }

  /** After `k` bytes of a number that began at `start`. */
  ghost predicate Partway(start: seq<byte>, rest: seq<byte>, value: u64, k: nat) {
    (7 * k < 64 ==> value < Pow2(7 * k)) && PopFront(start) == Pop(rest, value, Shl(1, 7 * k))
  }

  lemma PartwayOn(start: seq<byte>, rest: seq<byte>, value: u64, k: nat)
    requires rest != [] && Partway(start, rest, value, k)
    ensures var v := Or(value, Shl(rest[0] % 128, 7 * k));
            if rest[0] >= 128 then v < 0x1_0000_0000_0000_0000 && Partway(start, rest[1..], v, k + 1)
            else v < 0x1_0000_0000_0000_0000 && PopFront(start) == Ok((SignExtend(v, 7 * (k + 1), rest[0]), rest[1..]))
  {
    var v := PopByte(rest, value, k);
  }

  /** A buffer and a position in it that only moves forward. */
  class Decoder {
    const buffer: seq<byte>
    var current: nat

    constructor (buffer: seq<byte>, start: nat)
      requires start <= |buffer|
      ensures this.buffer == buffer && current == start
    {
      this.buffer := buffer;
      current := start;
    }

    /** The numbers still to be read. */
    ghost function Rest(): seq<u64>
      reads this
      requires current <= |buffer|
    {
      Numbers(buffer[current..])
    }

    /** The next number. Running past the end is fatal: the result is then `None`. */
    method PopFront() returns (r: Option<u64>)
      requires current <= |buffer|
      modifies this
      ensures old(current) <= current <= |buffer|
      ensures old(Rest()) == (if r.Some? then [r.value] + Rest() else [])
    {
      var value: u64, shift: nat := 0, 0;
      ghost var k, start := 0, buffer[current..];
      while true
        invariant old(current) <= current <= |buffer| && shift == 7 * k
        invariant Partway(start, buffer[current..], value, k)
        decreases |buffer| - current
      {
        if current >= |buffer| {
          NumbersNone(start);
          return None;
        }
        PartwayOn(start, buffer[current..], value, k);
        assert buffer[current..][1..] == buffer[current + 1..];
        var b := buffer[current];
        current := current + 1;
        value := Or(value, Shl(b % 128, shift));
        shift, k := shift + 7, k + 1;
        if b < 128 {
          NumbersSome(start, SignExtend(value, shift, b), buffer[current..]);
          return Some(SignExtend(value, shift, b));
        }
      }
    }
  }
}
