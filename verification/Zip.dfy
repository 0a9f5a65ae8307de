/** The zip directory reader: the backward search for the end record, the walk over the central
    directory, and the extraction of one entry. */
module Zip {
  import opened Words

  const EOCD_SIG := 0x0605_4b50
  const CEN_SIG := 0x0201_4b50
  const LOC_SIG := 0x0403_4b50
  const EOCD_MIN_SIZE := 22
  const EOCD_MAX_COMMENT := 65535

  datatype ZipEntry = ZipEntry(
    name: seq<byte>, flags: nat, method_: nat, compressedSize: nat, uncompressedSize: nat, localOffset: nat)

  /** The library that inflates: compressed bytes and expected size to the result. */
  type Inflate = (seq<byte>, nat) -> Result<seq<byte>>

  // ---- little-endian fields ------------------------------------------------------------------------

  function Le(data: seq<byte>, off: nat, n: nat): nat
    requires off + n <= |data|
  {
    LeValue(data[off..off + n])
  }

  function ReadU16(data: seq<byte>, off: nat): (r: Result<nat>)
    ensures r == if off + 2 > |data| then Err else Ok(Le(data, off, 2))
  {
    if off + 2 > |data| then Err
    else
      Or16(data[off], data[off + 1]);
      assert data[off..off + 2] == [data[off], data[off + 1]];
      Ok(Or(data[off], data[off + 1] as int * 0x100))
  }

  function ReadU32(data: seq<byte>, off: nat): (r: Result<nat>)
    ensures r == if off + 4 > |data| then Err else Ok(Le(data, off, 4))
  {
    if off + 4 > |data| then Err
    else
      Or32(data[off], data[off + 1], data[off + 2], data[off + 3]);
      assert data[off..off + 4] == [data[off], data[off + 1], data[off + 2], data[off + 3]];
      Ok(Or(Or(Or(data[off], data[off + 1] as int * 0x100), data[off + 2] as int * 0x1_0000), data[off + 3] as int * 0x100_0000))
  }

  lemma Or16(a: byte, b: byte)
    ensures Or(a, b as int * 0x100) == a as int + b as int * 0x100 == LeValue([a, b])
  {
    Pow2Values();
    OrAbove(a, b, 8);
    LeCons(a, [b]);
    LeCons(b, []);
  }

  lemma LeCons(a: byte, rest: seq<byte>)
    ensures LeValue([a] + rest) == a as int + 256 * LeValue(rest)
  {
    assert ([a] + rest)[1..] == rest;
  }

  lemma Or32(a: byte, b: byte, c: byte, d: byte)
    ensures Or(Or(Or(a, b as int * 0x100), c as int * 0x1_0000), d as int * 0x100_0000) == LeValue([a, b, c, d])
  {
    Or16(a, b);
    Pow2Values();
    Pow2Add(8, 8);
    Pow2Add(16, 8);
    OrAbove(a as int + b as int * 0x100, c, 16);
    OrAbove(a as int + b as int * 0x100 + c as int * 0x1_0000, d, 24);
    LeFour(a, b, c, d);
  }

  lemma LeFour(a: byte, b: byte, c: byte, d: byte)
    ensures LeValue([a, b, c, d]) == a as int + b as int * 0x100 + c as int * 0x1_0000 + d as int * 0x100_0000
  {
    assert [a, b, c, d] == [a] + [b, c, d] && [b, c, d] == [b] + [c, d];
    LeCons(a, [b, c, d]);
    LeCons(b, [c, d]);
    LeCons(c, [d]);
    LeCons(d, []);
  }

  // ---- what the reader computes ----------------------------------------------------------------------

  function SearchStart(apk: seq<byte>): nat {
    if |apk| > EOCD_MIN_SIZE + EOCD_MAX_COMMENT then |apk| - (EOCD_MIN_SIZE + EOCD_MAX_COMMENT) else 0
  }

  predicate SignedAt(apk: seq<byte>, off: nat) {
    off + 4 <= |apk| && Le(apk, off, 4) == EOCD_SIG
  }

  /** `off` is the last end-record signature in the search window. */
  predicate LastSigned(apk: seq<byte>, off: nat) {
    && SearchStart(apk) <= off <= |apk| - EOCD_MIN_SIZE && SignedAt(apk, off)
    && forall p :: off < p <= |apk| - EOCD_MIN_SIZE ==> !SignedAt(apk, p)
  }

  /** The highest signed offset below `hi` in the window. */
  function LastBelow(apk: seq<byte>, hi: nat): Option<nat> {
    if hi <= SearchStart(apk) then None
    else if SignedAt(apk, hi - 1) then Some(hi - 1)
    else LastBelow(apk, hi - 1)
  }

  function Eocd(apk: seq<byte>): Option<nat>
  {
    if |apk| < EOCD_MIN_SIZE then None else LastBelow(apk, |apk| - EOCD_MIN_SIZE + 1)
  }

  lemma {:induction false} LastBelowIsLast(apk: seq<byte>, hi: nat)
    requires hi <= |apk| - EOCD_MIN_SIZE + 1
    requires forall p :: hi <= p <= |apk| - EOCD_MIN_SIZE ==> !SignedAt(apk, p)
    ensures forall off: nat :: LastBelow(apk, hi) == Some(off) <==> LastSigned(apk, off)
    ensures LastBelow(apk, hi) == None <==> forall p :: SearchStart(apk) <= p <= |apk| - EOCD_MIN_SIZE ==> !SignedAt(apk, p)
  {
    if hi > SearchStart(apk) && !SignedAt(apk, hi - 1) {
      LastBelowIsLast(apk, hi - 1);
    }
  }

  /** The search finds exactly the last signature of its window, and nothing exactly when the window
      holds none. */
  lemma EocdIsLast(apk: seq<byte>, off: nat)
    ensures Eocd(apk) == Some(off) <==> LastSigned(apk, off)
    ensures Eocd(apk) == None <==> forall p :: SearchStart(apk) <= p <= |apk| - EOCD_MIN_SIZE ==> !SignedAt(apk, p)
  {
    if |apk| >= EOCD_MIN_SIZE {
      LastBelowIsLast(apk, |apk| - EOCD_MIN_SIZE + 1);
    }
  }

  function EntrySize(apk: seq<byte>, off: nat): nat
    requires off + 46 <= |apk|
  {
    46 + Le(apk, off + 28, 2) + Le(apk, off + 30, 2) + Le(apk, off + 32, 2)
  }

  function EntryAt(apk: seq<byte>, off: nat): ZipEntry
    requires off + 46 <= |apk| && off + EntrySize(apk, off) <= |apk|
  {
    ZipEntry(apk[off + 46..off + 46 + Le(apk, off + 28, 2)], Le(apk, off + 8, 2), Le(apk, off + 10, 2),
             Le(apk, off + 20, 4), Le(apk, off + 24, 4), Le(apk, off + 42, 4))
  }

  predicate EntryFits(apk: seq<byte>, off: nat) {
    off + 46 <= |apk| && Le(apk, off, 4) == CEN_SIG && off + EntrySize(apk, off) <= |apk|
  }

  /** `n` central directory records from `off` on. */
  function Walk(apk: seq<byte>, off: nat, n: nat): Result<seq<ZipEntry>>
    decreases n
  {
    if n == 0 then Ok([])
    else if !EntryFits(apk, off) then Err
    else
      match Walk(apk, off + EntrySize(apk, off), n - 1)
      case Err => Err
      case Ok(rest) => Ok([EntryAt(apk, off)] + rest)
  }

  /** Everything that follows once the end record is found. */
  function ReadDirectory(apk: seq<byte>, eocd: nat): Result<seq<ZipEntry>>
    requires eocd + EOCD_MIN_SIZE <= |apk|
  {
    var count, size, off := Le(apk, eocd + 10, 2), Le(apk, eocd + 12, 4), Le(apk, eocd + 16, 4);
    if off == 0xffff_ffff || size == 0xffff_ffff || off + size > |apk| then Err
    else Walk(apk, off, count)
  }

  function Entries(apk: seq<byte>): Result<seq<ZipEntry>> {
    match Eocd(apk)
    case None => Err
    case Some(eocd) => EocdIsLast(apk, eocd); ReadDirectory(apk, eocd)
  }

  /** Where an entry's bytes start, past its local header. */
  function DataOffset(apk: seq<byte>, off: nat): nat
    requires off + 30 <= |apk|
  {
    off + 30 + Le(apk, off + 26, 2) + Le(apk, off + 28, 2)
  }

  /** What extraction means, with the inflater as a parameter. */
  function Extract(apk: seq<byte>, entry: ZipEntry, inflate: Inflate): Result<seq<byte>> {
    var off := entry.localOffset;
    if off + 30 > |apk| || Le(apk, off, 4) != LOC_SIG || DataOffset(apk, off) + entry.compressedSize > |apk| then Err
    else
      var src := apk[DataOffset(apk, off)..DataOffset(apk, off) + entry.compressedSize];
      if entry.method_ == 0 then Ok(src)
      else if entry.method_ != 8 then Err
      else inflate(src, entry.uncompressedSize)
  }

  // ---- the code ----------------------------------------------------------------------------------------

  /** The backward scan. */
  method FindEocd(apk: seq<byte>) returns (r: Option<nat>)
    ensures r == Eocd(apk)
  {
    if |apk| < EOCD_MIN_SIZE {
      return None;
    }
    var off := |apk| - EOCD_MIN_SIZE + 1;
    while off > SearchStart(apk)
      invariant SearchStart(apk) <= off <= |apk| - EOCD_MIN_SIZE + 1
      invariant Eocd(apk) == LastBelow(apk, off)
    {
      off := off - 1;
      var word := ReadU32(apk, off);
      if word == Ok(EOCD_SIG) {
        return Some(off);
      }
    }
    return None;
  }

  method ReadZipEntries(apk: seq<byte>) returns (r: Result<seq<ZipEntry>>)
    ensures r == Entries(apk)
  {
    var found := FindEocd(apk);
    if found.None? {
      return Err;
    }
    EocdIsLast(apk, found.value);
    var count, size, off := ReadEnd(apk, found.value);
    if off == 0xffff_ffff || size == 0xffff_ffff || off + size > |apk| {
      return Err;
    }
    r := WalkDirectory(apk, off, count);
  }

  method ReadEnd(apk: seq<byte>, eocd: nat) returns (count: nat, size: nat, off: nat)
    requires eocd + EOCD_MIN_SIZE <= |apk|
    ensures count == Le(apk, eocd + 10, 2) && size == Le(apk, eocd + 12, 4) && off == Le(apk, eocd + 16, 4)
  {
    count := ReadU16(apk, eocd + 10).value;
    size := ReadU32(apk, eocd + 12).value;
    off := ReadU32(apk, eocd + 16).value;
  }

  function ExtractEntryData(apk: seq<byte>, entry: ZipEntry, inflate: Inflate): (r: Result<seq<byte>>)
    ensures r == Extract(apk, entry, inflate)
  {
    var off := entry.localOffset;
    if off + 30 > |apk| || ReadU32(apk, off) != Ok(LOC_SIG) then Err
    else
      var nameLen, extraLen := ReadU16(apk, off + 26).value, ReadU16(apk, off + 28).value;
      var dataOff := off + 30 + nameLen + extraLen;
      if dataOff + entry.compressedSize > |apk| then Err
      else if entry.method_ == 0 then Ok(apk[dataOff..dataOff + entry.compressedSize])
      else if entry.method_ != 8 then Err
      else inflate(apk[dataOff..dataOff + entry.compressedSize], entry.uncompressedSize)
  }

  /** One record, and the distance to the next. */
  method ReadEntry(apk: seq<byte>, off: nat) returns (r: Result<ZipEntry>, size: nat)
    ensures r == if EntryFits(apk, off) then Ok(EntryAt(apk, off)) else Err
    ensures r.Ok? ==> size == EntrySize(apk, off)
  {
    size := 0;
    if off + 46 > |apk| || ReadU32(apk, off) != Ok(CEN_SIG) {
      return Err, size;
    }
    var nameLen := ReadU16(apk, off + 28).value;
    var extraLen := ReadU16(apk, off + 30).value;
    var commentLen := ReadU16(apk, off + 32).value;
    size := 46 + nameLen + extraLen + commentLen;
    if off + size > |apk| {
      return Err, size;
    }
    r := Ok(ZipEntry(apk[off + 46..off + 46 + nameLen], ReadU16(apk, off + 8).value, ReadU16(apk, off + 10).value,
                     ReadU32(apk, off + 20).value, ReadU32(apk, off + 24).value, ReadU32(apk, off + 42).value));
  }

  /** The loop over the records, moving the offset and collecting the entries. */
  method WalkDirectory(apk: seq<byte>, start: nat, count: nat) returns (r: Result<seq<ZipEntry>>)
    ensures r == Walk(apk, start, count)
  {
    var entries: seq<ZipEntry> := [];
    var off: nat := start;
    ghost var whole := Walk(apk, start, count);
    PrependsNothing(whole);
    for i := 0 to count
      invariant Prepends(whole, entries, Walk(apk, off, count - i))
    {
      WalkStep(apk, off, count - i, entries, whole);
      var entry, size := ReadEntry(apk, off);
      if entry.Err? {
        return Err;
      }
      entries := entries + [entry.value];
      off := off + size;
    }
    PrependsLast(whole, entries);
    return Ok(entries);
  }

  lemma PrependsNothing(whole: Result<seq<ZipEntry>>)
    ensures Prepends(whole, [], whole)
  {
    assert whole.Ok? ==> [] + whole.value == whole.value;
  }

  lemma PrependsLast(whole: Result<seq<ZipEntry>>, done: seq<ZipEntry>)
    requires Prepends(whole, done, Ok([]))
    ensures whole == Ok(done)
  {
    assert done + [] == done;
  }

  ghost predicate Prepends(whole: Result<seq<ZipEntry>>, done: seq<ZipEntry>, rest: Result<seq<ZipEntry>>) {
    whole == match rest
             case Err => Err
             case Ok(entries) => Ok(done + entries)
  }

  lemma WalkStep(apk: seq<byte>, off: nat, n: nat, done: seq<ZipEntry>, whole: Result<seq<ZipEntry>>)
    requires n > 0 && Prepends(whole, done, Walk(apk, off, n))
    ensures !EntryFits(apk, off) ==> whole == Err
    ensures EntryFits(apk, off) ==>
              Prepends(whole, done + [EntryAt(apk, off)], Walk(apk, off + EntrySize(apk, off), n - 1))
  {
    if EntryFits(apk, off) {
      var rest := Walk(apk, off + EntrySize(apk, off), n - 1);
      if rest.Ok? {
        assert done + ([EntryAt(apk, off)] + rest.value) == done + [EntryAt(apk, off)] + rest.value;
      }
    }
  }

  // ---- the records, byte by byte -------------------------------------------------------------------------

  function U16(apk: seq<byte>, p: nat): nat
    requires p + 2 <= |apk|
  {
    apk[p] as int + apk[p + 1] as int * 256
  }

  function U32(apk: seq<byte>, p: nat): nat
    requires p + 4 <= |apk|
  {
    apk[p] as int + apk[p + 1] as int * 256 + apk[p + 2] as int * 65536 + apk[p + 3] as int * 16777216
  }

  lemma FieldMeans(apk: seq<byte>, p: nat)
    ensures p + 2 <= |apk| ==> Le(apk, p, 2) == U16(apk, p)
    ensures p + 4 <= |apk| ==> Le(apk, p, 4) == U32(apk, p)
  {
    if p + 2 <= |apk| {
      assert apk[p..p + 2] == [apk[p], apk[p + 1]];
      Or16(apk[p], apk[p + 1]);
    }
    if p + 4 <= |apk| {
      assert apk[p..p + 4] == [apk[p], apk[p + 1], apk[p + 2], apk[p + 3]];
      FourMean(apk[p], apk[p + 1], apk[p + 2], apk[p + 3]);
    }
  }

  lemma FourMean(a: byte, b: byte, c: byte, d: byte)
    ensures LeValue([a, b, c, d]) == a as int + b as int * 256 + c as int * 65536 + d as int * 16777216
  {
    assert [a, b, c, d] == [a] + [b, c, d] && [b, c, d] == [b] + [c, d] && [c, d] == [c] + [d] && [d] == [d] + [];
    LeCons(a, [b, c, d]);
    LeCons(b, [c, d]);
    LeCons(c, [d]);
    LeCons(d, []);
  }

  /** A central directory record stands at `off`, and this is its entry. */
  ghost predicate RecordAt(apk: seq<byte>, off: nat, e: ZipEntry, next: nat) {
    && off + 46 <= |apk| && apk[off] == 0x50 && apk[off + 1] == 0x4b && apk[off + 2] == 1 && apk[off + 3] == 2
    && next == off + 46 + U16(apk, off + 28) + U16(apk, off + 30) + U16(apk, off + 32) && next <= |apk|
    && e == ZipEntry(apk[off + 46..off + 46 + U16(apk, off + 28)], U16(apk, off + 8), U16(apk, off + 10),
                     U32(apk, off + 20), U32(apk, off + 24), U32(apk, off + 42))
  }

  lemma RecordMeans(apk: seq<byte>, off: nat)
    ensures EntryFits(apk, off) ==> RecordAt(apk, off, EntryAt(apk, off), off + EntrySize(apk, off))
    ensures forall e, next: nat :: RecordAt(apk, off, e, next) ==>
              EntryFits(apk, off) && e == EntryAt(apk, off) && next == off + EntrySize(apk, off)
  {
    if off + 46 <= |apk| {
      FieldMeans(apk, off);
      FieldMeans(apk, off + 8);
      FieldMeans(apk, off + 10);
      FieldMeans(apk, off + 20);
      FieldMeans(apk, off + 24);
      FieldMeans(apk, off + 28);
      FieldMeans(apk, off + 30);
      FieldMeans(apk, off + 32);
      FieldMeans(apk, off + 42);
      SignatureMeans(apk, off, 0x50, 0x4b, 1, 2);
    }
  }

  lemma SignatureMeans(apk: seq<byte>, off: nat, a: byte, b: byte, c: byte, d: byte)
    requires off + 4 <= |apk|
    ensures U32(apk, off) == a as int + b as int * 256 + c as int * 65536 + d as int * 16777216 <==>
            apk[off] == a && apk[off + 1] == b && apk[off + 2] == c && apk[off + 3] == d
  {
  }

  /** The entries of consecutive records. */
  ghost predicate Chain(apk: seq<byte>, off: nat, es: seq<ZipEntry>)
    decreases |es|
  {
    es == [] || exists next: nat :: RecordAt(apk, off, es[0], next) && Chain(apk, next, es[1..])
  }

  lemma ChainFirst(apk: seq<byte>, off: nat, es: seq<ZipEntry>)
    requires es != []
    ensures Chain(apk, off, es) <==>
            EntryFits(apk, off) && es[0] == EntryAt(apk, off) && Chain(apk, off + EntrySize(apk, off), es[1..])
  {
    RecordMeans(apk, off);
  }

  lemma {:induction false} WalkFirst(apk: seq<byte>, off: nat, n: nat, es: seq<ZipEntry>)
    requires n > 0
    ensures Walk(apk, off, n) == Ok(es) <==>
            es != [] && EntryFits(apk, off) && es[0] == EntryAt(apk, off) && Walk(apk, off + EntrySize(apk, off), n - 1) == Ok(es[1..])
  {
    if es != [] {
      assert es == [es[0]] + es[1..];
    }
  }

  ghost predicate Agrees(apk: seq<byte>, off: nat, n: nat, es: seq<ZipEntry>) {
    Walk(apk, off, n) == Ok(es) <==> |es| == n && Chain(apk, off, es)
  }

  /** The walk accepts exactly chains of records, and returns their entries. */
  lemma {:induction false} WalkMeans(apk: seq<byte>, off: nat, n: nat, es: seq<ZipEntry>)
    ensures Agrees(apk, off, n, es)
    decreases n
  {
    if n == 0 {
      NoneWalked(apk, off, es);
    } else if es != [] && EntryFits(apk, off) {
      WalkMeans(apk, off + EntrySize(apk, off), n - 1, es[1..]);
      MoreWalked(apk, off, n, es);
    } else {
      WalkFirst(apk, off, n, es);
      NoneChained(apk, off, n, es);
    }
  }

  lemma NoneWalked(apk: seq<byte>, off: nat, es: seq<ZipEntry>)
    ensures Agrees(apk, off, 0, es)
  {
  }

  lemma {:induction false} MoreWalked(apk: seq<byte>, off: nat, n: nat, es: seq<ZipEntry>)
    requires n > 0 && es != [] && EntryFits(apk, off) && Agrees(apk, off + EntrySize(apk, off), n - 1, es[1..])
    ensures Agrees(apk, off, n, es)
  {
    WalkFirst(apk, off, n, es);
    ChainFirst(apk, off, es);
  }

  lemma {:induction false} NoneChained(apk: seq<byte>, off: nat, n: nat, es: seq<ZipEntry>)
    requires n > 0 && (es == [] || !EntryFits(apk, off)) && Walk(apk, off, n) != Ok(es)
    ensures Agrees(apk, off, n, es)
  {
    if es != [] {
      ChainFirst(apk, off, es);
    }
  }

  /** What the reader accepts, byte by byte: the last signature of the window at `eocd`, no field that stands
      for a larger format, a directory inside the file, and as many records in a row as the count says. */
  lemma EntriesExactly(apk: seq<byte>, eocd: nat, es: seq<ZipEntry>)
    requires LastSigned(apk, eocd)
    ensures var count, size, off := U16(apk, eocd + 10), U32(apk, eocd + 12), U32(apk, eocd + 16);
            Entries(apk) == Ok(es) <==>
            off != 0xffff_ffff && size != 0xffff_ffff && off + size <= |apk| && |es| == count && Chain(apk, off, es)
  {
    EocdIsLast(apk, eocd);
    FieldMeans(apk, eocd + 10);
    FieldMeans(apk, eocd + 12);
    FieldMeans(apk, eocd + 16);
    WalkMeans(apk, U32(apk, eocd + 16), U16(apk, eocd + 10), es);
  }

  /** The window: the record's 22 fixed bytes fit behind it, and no more than they and 65535 more. */
  lemma WindowMeans(apk: seq<byte>, p: nat)
    ensures LastSigned(apk, p) <==>
            && p + 22 <= |apk| <= p + 22 + 65535 && SignedAt(apk, p)
            && forall q :: p < q && q + 22 <= |apk| ==> !SignedAt(apk, q)
  {
  }

  /** Without a signature in the window nothing is accepted; a signature is these four bytes. */
  lemma EntriesNeedEnd(apk: seq<byte>)
    ensures (forall p: nat :: !LastSigned(apk, p)) ==> Entries(apk) == Err
    ensures forall p: nat :: SignedAt(apk, p) <==>
              p + 4 <= |apk| && apk[p] == 0x50 && apk[p + 1] == 0x4b && apk[p + 2] == 5 && apk[p + 3] == 6
  {
    if Eocd(apk).Some? {
      EocdIsLast(apk, Eocd(apk).value);
    }
    forall p: nat ensures SignedAt(apk, p) <==>
              p + 4 <= |apk| && apk[p] == 0x50 && apk[p + 1] == 0x4b && apk[p + 2] == 5 && apk[p + 3] == 6 {
      FieldMeans(apk, p);
      if p + 4 <= |apk| {
        SignatureMeans(apk, p, 0x50, 0x4b, 5, 6);
      }
    }
  }

  /** Extraction: the local header's signature, its two lengths, and the compressed bytes behind them. */
  lemma ExtractExactly(apk: seq<byte>, e: ZipEntry, inflate: Inflate)
    ensures var off := e.localOffset;
            Extract(apk, e, inflate) ==
            if off + 30 > |apk| || !(apk[off] == 0x50 && apk[off + 1] == 0x4b && apk[off + 2] == 3 && apk[off + 3] == 4) then Err
            else
              var start := off + 30 + U16(apk, off + 26) + U16(apk, off + 28);
              if start + e.compressedSize > |apk| then Err
              else if e.method_ == 0 then Ok(apk[start..start + e.compressedSize])
              else if e.method_ == 8 then inflate(apk[start..start + e.compressedSize], e.uncompressedSize)
              else Err
  {
    var off := e.localOffset;
    if off + 30 <= |apk| {
      FieldMeans(apk, off);
      FieldMeans(apk, off + 26);
      FieldMeans(apk, off + 28);
      SignatureMeans(apk, off, 0x50, 0x4b, 3, 4);
    }
  }
}
