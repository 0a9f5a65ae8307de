/** One library file as the direct `.so` loader sees it: its names, its load range, and the window of
    guest addresses it is given. */
module DirectImage {
  import opened Words

  const PAGE_MASK := 0xFFF
  const BLOCK_MASK := 0x1F_FFFF
  const TOP := 0x1_0000_0000_0000_0000
  const NO_SEGMENT: u64 := 0xFFFF_FFFF_FFFF_FFFF

  /** A loadable segment. Nothing keeps its file size below its memory size. */
  datatype Segment = Segment(vaddr: u64, memsz: u64, filesz: u64)

  /** How many bytes the loader writes for a segment: it clears the memory size, then copies the file
      size. */
  function Size(s: Segment): nat {
    Max(s.memsz, s.filesz)
  }

  /** A file as the metadata parser sees it. `readable` is false when reading a segment's bytes or
      mapping its pages fails. */
  datatype File =
    | Bad
    | Lib(soname: string, needed: seq<string>, segments: seq<Segment>, readable: bool)

  datatype Object = Object(path: string, soname: string, needed: seq<string>, base: u64, loadMin: u64, loadMax: u64)

  // ---- names ---------------------------------------------------------------------------------------

  /** The part of a path after its last slash. */
  function FileName(path: string): string {
    if path == "" || path[|path| - 1] == '/' then ""
    else FileName(path[..|path| - 1]) + [path[|path| - 1]]
  }

  /** Path joining: an absolute name replaces the directory. */
  function Join(dir: string, name: string): string {
    if name != "" && name[0] == '/' then name
    else if dir != "" && dir[|dir| - 1] == '/' then dir + name
    else dir + "/" + name
  }

  lemma {:induction false} FileNameNoSlash(path: string)
    ensures '/' !in FileName(path)
  {
    if path != "" && path[|path| - 1] != '/' {
      FileNameNoSlash(path[..|path| - 1]);
    }
  }

  lemma {:induction false} FileNameAppend(dir: string, name: string)
    requires dir != "" && dir[|dir| - 1] == '/' && '/' !in name
    ensures FileName(dir + name) == name
  {
    var all := dir + name;
    if name == "" {
      assert all == dir;
    } else {
      var k := |name| - 1;
      assert name[k] in name;
      assert all[..|all| - 1] == dir + name[..k];
      FileNameAppend(dir, name[..k]);
    }
  }

  lemma FileNameJoin(dir: string, name: string)
    requires '/' !in name
    ensures FileName(Join(dir, name)) == name
  {
    assert name != "" ==> name[0] in name;
    if dir != "" && dir[|dir| - 1] == '/' {
      FileNameAppend(dir, name);
    } else {
      FileNameAppend(dir + "/", name);
    }
  }

  function SonameOf(file: File, path: string): string
    requires file.Lib?
  {
    if file.soname == "" then FileName(path) else file.soname
  }

  // ---- the load range --------------------------------------------------------------------------------

  function PageDown(x: u64): u64 {
    AndSplit(x, PAGE_MASK);
    AndNot(x, PAGE_MASK)
  }

  function PageUp(x: u64): u64 {
    RoundUp(x, PAGE_MASK)
  }

  /** The lowest page a segment starts on; all ones without segments. */
  function LoadMin(segments: seq<Segment>): u64 {
    if segments == [] then NO_SEGMENT
    else Min(LoadMin(segments[..|segments| - 1]), PageDown(segments[|segments| - 1].vaddr))
  }

  /** The highest page end, each computed with wrap-around. */
  function LoadMax(segments: seq<Segment>): u64 {
    if segments == [] then 0
    else Max(LoadMax(segments[..|segments| - 1]),
             PageUp(Add64(segments[|segments| - 1].vaddr, segments[|segments| - 1].memsz)))
  }

  /** A file parses as a library only with a loadable segment. */
  predicate Loadable(file: File) {
    file.Lib? && file.segments != []
  }

  method LoadRange(segments: seq<Segment>) returns (low: u64, high: u64)
    ensures low == LoadMin(segments) && high == LoadMax(segments)
    ensures low == NO_SEGMENT <==> segments == []
  {
    low, high := NO_SEGMENT, 0;
    for k := 0 to |segments|
      invariant low == LoadMin(segments[..k]) && high == LoadMax(segments[..k])
    {
      assert segments[..k + 1][..k] == segments[..k];
      low := Min(low, PageDown(segments[k].vaddr));
      high := Max(high, RoundUp(Add64(segments[k].vaddr, segments[k].memsz), PAGE_MASK));
    }
    assert segments[..|segments|] == segments;
    if segments != [] {
      LoadMinBelow(segments, 0);
    }
  }

  lemma PageDownBelow(x: u64)
    ensures PageDown(x) <= x && PageDown(x) < NO_SEGMENT
  {
    AndSplit(x, PAGE_MASK);
    Pow2Values();
    AndLowMask(PageDown(x), 12);
  }

  /** The load range starts at or below every segment. */
  lemma {:induction false} LoadMinBelow(segments: seq<Segment>, i: nat)
    requires i < |segments|
    ensures LoadMin(segments) <= segments[i].vaddr && LoadMin(segments) < NO_SEGMENT
  {
    var k := |segments| - 1;
    PageDownBelow(segments[k].vaddr);
    if i < k {
      LoadMinBelow(segments[..k], i);
    }
  }

  /** It ends at or above every segment whose end does not wrap. */
  lemma {:induction false} LoadMaxAbove(segments: seq<Segment>, i: nat)
    requires i < |segments| && segments[i].vaddr + segments[i].memsz + PAGE_MASK < TOP
    ensures segments[i].vaddr + segments[i].memsz <= LoadMax(segments)
  {
    var k := |segments| - 1;
    if i < k {
      LoadMaxAbove(segments[..k], i);
    } else {
      RoundUpBounds(segments[i].vaddr + segments[i].memsz, PAGE_MASK);
    }
  }

  // ---- the window ------------------------------------------------------------------------------------

  function AlignUp(x: u64): u64 {
    RoundUp(x, BLOCK_MASK)
  }

  function Start(obj: Object): u64 {
    Add64(obj.base, obj.loadMin)
  }

  function End(obj: Object): u64 {
    Add64(obj.base, obj.loadMax)
  }

  /** The length of the load range in 64-bit arithmetic, also when the range is inverted. */
  function Extent(obj: Object): u64 {
    Wrap64(obj.loadMax as int - obj.loadMin as int)
  }

  function FileExtent(file: File): u64
    requires file.Lib?
  {
    Wrap64(LoadMax(file.segments) as int - LoadMin(file.segments) as int)
  }

  /** A library placed with its lowest address at `low`. */
  function Place(file: File, path: string, low: u64): Object
    requires file.Lib?
  {
    Object(path, SonameOf(file, path), file.needed, Wrap64(low as int - LoadMin(file.segments) as int),
           LoadMin(file.segments), LoadMax(file.segments))
  }

  /** Where a segment is cleared and copied to. */
  function Target(obj: Object, s: Segment): u64 {
    Add64(obj.base, s.vaddr)
  }

  predicate InGuest(obj: Object, s: Segment, guestSize: nat) {
    Size(s) == 0 || Target(obj, s) + Size(s) <= guestSize
  }

  /** No segment is written beyond guest memory. */
  predicate AllInGuest(file: File, obj: Object, guestSize: nat)
    requires file.Lib?
  {
    forall i :: 0 <= i < |file.segments| ==> InGuest(obj, file.segments[i], guestSize)
  }

  /** The loader maps an object when its window ends inside the guest and its segments can be written
      there and read. */
  predicate Maps(file: File, obj: Object, guestSize: nat)
    requires file.Lib?
  {
    AlignUp(End(obj)) <= guestSize && AllInGuest(file, obj, guestSize) && file.readable
  }

  lemma AlignWraps(x: u64)
    ensures x <= AlignUp(x) <==> x + BLOCK_MASK < TOP
    ensures x + BLOCK_MASK >= TOP ==> AlignUp(x) == 0
  {
    if x + BLOCK_MASK < TOP {
      RoundUpBounds(x, BLOCK_MASK);
    } else {
      assert Wrap64(x + BLOCK_MASK) == x + BLOCK_MASK - TOP;
      MaskedOut(x + BLOCK_MASK - TOP);
    }
  }

  lemma MaskedOut(y: nat)
    requires y <= BLOCK_MASK
    ensures AndNot(y, BLOCK_MASK) == 0
  {
    Pow2Values();
    BelowMask(y, 21);
  }

  lemma BelowMask(y: nat, k: nat)
    requires y < Pow2(k)
    ensures AndNot(y, Pow2(k) - 1) == 0
  {
    AndSplit(y, Pow2(k) - 1);
    AndLowMask(y, k);
    ModUnique(y, Pow2(k), 0, y);
  }

  /** Aligned addresses are multiples of the block size, also when the rounding wraps to 0. */
  lemma AlignUpAligned(x: u64)
    ensures AlignUp(x) % 0x20_0000 == 0
  {
    AlignWraps(x);
    if x + BLOCK_MASK < TOP {
      AlignUpMeans(x);
    }
  }

  lemma AlignUpMeans(x: u64)
    requires x + BLOCK_MASK < TOP
    ensures AlignUp(x) % 0x20_0000 == 0 && x <= AlignUp(x) <= x + BLOCK_MASK
  {
    Pow2Values();
    RoundUpAligned(x, 21);
  }

  /** A window starts where asked and its end is the start plus the extent, modulo 2^64. */
  lemma WindowMeans(file: File, path: string, low: u64)
    requires file.Lib?
    ensures Start(Place(file, path, low)) == low
    ensures End(Place(file, path, low)) == Add64(low, Extent(Place(file, path, low)))
  {
    var a, b := LoadMin(file.segments), LoadMax(file.segments);
    PlaceSums(low, a, b);
  }

  lemma PlaceSums(low: u64, a: u64, b: u64)
    ensures Wrap64(Wrap64(low as int - a as int) as int + a as int) == low
    ensures Wrap64(Wrap64(low as int - a as int) as int + b as int) == Wrap64(low as int + Wrap64(b as int - a as int) as int)
  {
    var base: int := Wrap64(low as int - a as int);
    var extent: int := Wrap64(b as int - a as int);
    assert base == (if low >= a then low as int - a as int else low as int - a as int + TOP);
    assert extent == (if b >= a then b as int - a as int else b as int - a as int + TOP);
    SubtractTop(base + a as int);
    SubtractTop(base + b as int);
    SubtractTop(low as int + extent);
  }

  lemma SubtractTop(x: int)
    requires 0 <= x < 2 * TOP
    ensures Wrap64(x) == if x < TOP then x else x - TOP
  {
    if x >= TOP {
      ModUnique(x, TOP, 1, x - TOP);
    }
  }

  /** The next base clears the whole window if and only if the end of the window, rounded up, does
      not wrap. */
  lemma WindowExactly(file: File, path: string, low: u64)
    requires file.Lib?
    ensures var obj := Place(file, path, low);
            low + Extent(obj) <= AlignUp(End(obj)) <==> low + Extent(obj) + BLOCK_MASK < TOP
  {
    var obj := Place(file, path, low);
    WindowMeans(file, path, low);
    AlignWraps(End(obj));
    SubtractTop(low as int + Extent(obj) as int);
  }

  /** The bound check never lets the next base fall below a 2 MiB aligned window start if and only if
      the window is at 0, its rounded end does not wrap, or its range is inverted by less than a block
      (the rounding up then undoes the inversion). */
  lemma NextBaseExactly(file: File, path: string, low: u64)
    requires file.Lib? && low % 0x20_0000 == 0
    ensures var obj := Place(file, path, low);
            low <= AlignUp(End(obj)) <==>
            low == 0 || low + Extent(obj) + BLOCK_MASK < TOP || Extent(obj) as int + BLOCK_MASK >= TOP
  {
    var obj := Place(file, path, low);
    WindowMeans(file, path, low);
    EndAgainst(low, Extent(obj));
  }

  lemma EndAgainst(low: u64, d: u64)
    requires low % 0x20_0000 == 0
    ensures low <= AlignUp(Add64(low, d)) <==> low == 0 || low + d + BLOCK_MASK < TOP || d + BLOCK_MASK >= TOP
  {
    var e: int := if low + d < TOP then low + d else low + d - TOP;
    SubtractTop(low as int + d as int);
    AlignWraps(e);
    if low + d >= TOP && e + BLOCK_MASK < TOP {
      AlignUpMeans(e);
      BlockAbove(AlignUp(e), e, low);
    }
  }

  /** Among multiples of the block size, the rounded value is at least `low` exactly when it is less
      than a block below. */
  lemma BlockAbove(up: nat, e: nat, low: nat)
    requires up % 0x20_0000 == 0 && low % 0x20_0000 == 0 && e <= up <= e + BLOCK_MASK && e < low
    ensures low <= up <==> e + BLOCK_MASK >= low
  {
  }

  // ---- the segments ------------------------------------------------------------------------------------

  /** What is written for the segment ends within the extent of the load range. */
  predicate Contained(file: File, i: nat)
    requires file.Lib? && i < |file.segments|
  {
    var s := file.segments[i];
    LoadMinBelow(file.segments, i);
    Size(s) == 0 || s.vaddr - LoadMin(file.segments) + Size(s) <= FileExtent(file)
  }

  /** What is written for a segment lies in the object's window if and only if the window does not
      wrap and the segment ends within the extent. */
  lemma InsideExactly(file: File, path: string, low: u64, i: nat)
    requires file.Lib? && i < |file.segments| && Size(file.segments[i]) > 0
    ensures var obj, s := Place(file, path, low), file.segments[i];
            low <= Target(obj, s) && Target(obj, s) + Size(s) <= End(obj)
            <==> low + FileExtent(file) < TOP && Contained(file, i)
  {
    var obj, s := Place(file, path, low), file.segments[i];
    WindowMeans(file, path, low);
    LoadMinBelow(file.segments, i);
    assert Target(obj, s) == Wrap64(Wrap64(low as int - LoadMin(file.segments) as int) as int + s.vaddr as int);
    InsideNumbers(low, LoadMin(file.segments), FileExtent(file), s.vaddr, Size(s));
  }

  lemma InsideNumbers(low: u64, a: u64, extent: u64, v: u64, n: nat)
    requires a <= v && n > 0
    ensures var target := Wrap64(Wrap64(low as int - a as int) as int + v as int);
            low <= target && target + n <= Add64(low, extent) <==> low + extent < TOP && v - a + n <= extent
  {
    var offset := v as int - a as int;
    PlaceSums(low, a, v);
    SubtractTop(low as int + offset);
    SubtractTop(low as int + extent as int);
  }

  /** A segment whose end does not wrap and whose file size does not exceed its memory size. */
  predicate Ordinary(s: Segment) {
    s.filesz <= s.memsz && s.vaddr + s.memsz + PAGE_MASK < TOP
  }

  lemma OrdinaryContained(file: File, i: nat)
    requires file.Lib? && i < |file.segments| && Ordinary(file.segments[i])
    ensures Contained(file, i)
  {
    LoadMinBelow(file.segments, i);
    LoadMaxAbove(file.segments, i);
  }

  /** In a file of ordinary segments that end by `room`, the load range is not inverted and no longer
      than that. */
  lemma OrdinaryExtent(file: File, room: nat)
    requires Loadable(file) && room < TOP
    requires forall i :: 0 <= i < |file.segments| ==>
               Ordinary(file.segments[i]) && file.segments[i].vaddr + file.segments[i].memsz + PAGE_MASK <= room
    ensures LoadMin(file.segments) <= LoadMax(file.segments) && FileExtent(file) <= room
  {
    LoadMinBelow(file.segments, 0);
    LoadMaxAbove(file.segments, 0);
    LoadMaxBelow(file.segments, room);
  }

  lemma {:induction false} LoadMaxBelow(segments: seq<Segment>, room: nat)
    requires room < TOP
    requires forall i :: 0 <= i < |segments| ==> segments[i].vaddr + segments[i].memsz + PAGE_MASK <= room
    ensures LoadMax(segments) <= room
  {
    if segments != [] {
      var k := |segments| - 1;
      LoadMaxBelow(segments[..k], room);
      RoundUpBounds(segments[k].vaddr + segments[k].memsz, PAGE_MASK);
    }
  }
}
