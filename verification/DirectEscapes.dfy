/** Libraries that the bound check accepts although part of them is written outside their window. Each
    is a whole family, at every 2 MiB boundary that leaves room. */
module DirectEscapes {
  import opened Words
  import opened DirectImage

  // Sizes and addresses are parameters throughout: with numerals the solver would compute the bitwise
  // operators of the alignment functions bit by bit.

  lemma PageUpZero(z: u64)
    requires z == 0
    ensures PageUp(z) == 0
  {
    assert Pow2(12) == PAGE_MASK + 1 by { Pow2Values(); }
    BelowMask(z + PAGE_MASK, 12);
  }

  lemma OneSegment(segments: seq<Segment>, s: Segment)
    requires segments == [s]
    ensures LoadMin(segments) == PageDown(s.vaddr)
    ensures LoadMax(segments) == PageUp(Add64(s.vaddr, s.memsz))
  {
    assert segments[..0] == [];
    PageDownBelow(s.vaddr);
  }

  lemma TwoSegments(segments: seq<Segment>, s: Segment, t: Segment)
    requires segments == [s, t] && s.vaddr == 0
    ensures LoadMin(segments) == 0
    ensures LoadMax(segments) == Max(PageUp(s.memsz), PageUp(Add64(t.vaddr, t.memsz)))
  {
    var first := segments[..1];
    assert first == [s];
    OneSegment(first, s);
    PageDownBelow(s.vaddr);
    assert Add64(s.vaddr, s.memsz) == s.memsz;
  }

  lemma TargetAt(obj: Object, s: Segment)
    ensures Target(obj, s) as int == obj.base + s.vaddr - (if obj.base + s.vaddr < TOP then 0 else TOP)
  {
    SubtractTop(obj.base as int + s.vaddr as int);
  }

  lemma OneBlock(low: u64, d: u64)
    requires low % 0x20_0000 == 0 && low + 0x20_0000 < TOP && 0 < d < 0x11_0000
    ensures AlignUp(Add64(low, d)) == low + 0x20_0000
  {
    LastBlock(low);
    assert Add64(low, d) == low + d;
    AlignUpMeans(low + d);
    NextBlock(AlignUp(low + d), low, d);
  }

  lemma NextBlock(up: nat, low: nat, d: nat)
    requires up % 0x20_0000 == 0 && low % 0x20_0000 == 0 && low + d <= up <= low + d + BLOCK_MASK && 0 < d < 0x20_0000
    ensures up == low + 0x20_0000
  {
  }

  /** Below 2^64 there is room for a whole block after every aligned address that leaves any. */
  lemma LastBlock(low: u64)
    requires low % 0x20_0000 == 0 && low + 0x20_0000 < TOP
    ensures low + 0x40_0000 <= TOP
  {
  }

  /** A segment of `k` bytes at 0, and one of `n` bytes at `v`. */
  function Pair(k: u64, v: u64, n: u64): File {
    Lib("a", [], [Segment(0, k, k), Segment(v, n, n)], true)
  }

  lemma PairMaps(obj: Object, k: u64, v: u64, n: u64, guestSize: nat)
    requires AlignUp(End(obj)) <= guestSize
    requires obj.base + k <= guestSize && obj.base + k < TOP && obj.base + v >= TOP && obj.base + v - TOP + n <= guestSize
    ensures Maps(Pair(k, v, n), obj, guestSize)
    ensures Target(obj, Segment(v, n, n)) == obj.base + v - TOP
  {
    TargetAt(obj, Segment(0, k, k));
    TargetAt(obj, Segment(v, n, n));
    var segments := Pair(k, v, n).segments;
    forall i | 0 <= i < |segments| ensures InGuest(obj, segments[i], guestSize) {
      assert segments[i] == if i == 0 then Segment(0, k, k) else Segment(v, n, n);
    }
  }

  /** A segment that ends at 2^64 exactly does not count towards the load range. The window is the one
      of the first segment alone, and the `n` bytes below it are written. */
  lemma WrappedSegmentEscapes(path: string, low: u64, guestSize: nat, k: u64, v: u64, n: u64)
    requires 0 < k < 0x10_0000 && v + n == TOP && 0 < n <= low
    requires low % 0x20_0000 == 0 && low + 0x20_0000 <= guestSize < TOP
    ensures var file := Pair(k, v, n);
            var obj := Place(file, path, low);
            && Loadable(file) && Maps(file, obj, guestSize)
            && Start(obj) == low && AlignUp(End(obj)) == low + 0x20_0000
            && Target(obj, file.segments[1]) + n == low
  {
    var file := Pair(k, v, n);
    var obj := Place(file, path, low);
    TwoSegments(file.segments, Segment(0, k, k), Segment(v, n, n));
    SubtractTop(v as int + n as int);
    PageUpZero(Add64(v, n));
    RoundUpBounds(k, PAGE_MASK);
    WindowMeans(file, path, low);
    assert Extent(obj) == obj.loadMax && obj.base == low;
    OneBlock(low, obj.loadMax);
    PairMaps(obj, k, v, n, guestSize);
  }

  /** Two small ordinary segments, `d` bytes apart across 2^64. The window wraps: the next base falls
      below the start, and the second segment is written `d` bytes below it. */
  lemma DistantSegmentEscapes(path: string, low: u64, guestSize: nat, k: u64, v: u64, n: u64, d: nat)
    requires 0 < k < 0x10_0000 && v + d == TOP && n > 0 && n + 0x20_1000 <= d <= low
    requires low % 0x20_0000 == 0 && low + 0x20_0000 <= guestSize < TOP
    ensures var file := Pair(k, v, n);
            var obj := Place(file, path, low);
            && Loadable(file) && Ordinary(file.segments[0]) && Ordinary(file.segments[1])
            && Maps(file, obj, guestSize)
            && Start(obj) == low && AlignUp(End(obj)) < low
            && Target(obj, file.segments[1]) + d == low
  {
    var file := Pair(k, v, n);
    var obj := Place(file, path, low);
    TwoSegments(file.segments, Segment(0, k, k), Segment(v, n, n));
    assert Add64(v, n) == v + n;
    RoundUpBounds(k, PAGE_MASK);
    RoundUpBounds(v + n, PAGE_MASK);
    WindowMeans(file, path, low);
    assert Extent(obj) == obj.loadMax == PageUp(v + n) && obj.base == low;
    SubtractTop(low as int + obj.loadMax as int);
    AlignUpMeans(End(obj));
    PairMaps(obj, k, v, n, guestSize);
  }

  /** A segment with more bytes in the file than in memory. The window is that of its memory size, and
      the file's bytes run over its end into the next library's. */
  lemma LongFileEscapes(path: string, low: u64, guestSize: nat, k: u64, f: u64)
    requires 0 < k < 0x10_0000 && f > 0x20_0000
    requires low % 0x20_0000 == 0 && low + f <= guestSize < TOP
    ensures var file := Lib("a", [], [Segment(0, k, f)], true);
            var obj := Place(file, path, low);
            && Loadable(file) && Maps(file, obj, guestSize)
            && Start(obj) == low && Target(obj, file.segments[0]) == low
            && AlignUp(End(obj)) == low + 0x20_0000 < Target(obj, file.segments[0]) + Size(file.segments[0])
  {
    var s := Segment(0, k, f);
    var file := Lib("a", [], [s], true);
    var obj := Place(file, path, low);
    OneSegment(file.segments, s);
    PageDownBelow(s.vaddr);
    assert Add64(s.vaddr, s.memsz) == k;
    RoundUpBounds(k, PAGE_MASK);
    WindowMeans(file, path, low);
    assert Extent(obj) == obj.loadMax && obj.base == low;
    OneBlock(low, obj.loadMax);
    TargetAt(obj, s);
    forall i | 0 <= i < |file.segments| ensures InGuest(obj, file.segments[i], guestSize) {
      assert file.segments[i] == s;
    }
  }
}
