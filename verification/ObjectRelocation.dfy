/** The three encodings of relative relocations mean the same, and so does any way of
    splitting an object's relocations over its RELR, packed, RELA and PLT tables. */
module ObjectRelocation {
  import opened Words
  import opened Relocation
  import opened PackedRela

  // ---- RELR tables for a given set of slots ----------------------------------------

  predicate Reaches(low: nat, offset: int) {
    low <= offset && (offset - low) % 8 == 0
  }

  /** Strictly increasing offsets, each a multiple of 8 above `low`. */
  predicate Ascending(offsets: seq<u64>, low: nat) {
    offsets != [] ==> Reaches(low, offsets[0]) && Ascending(offsets[1..], offsets[0] as int + 8)
  }

  /** The bitmap for the `n` slots from `at`, and the offsets beyond them. */
  function TakeBits(at: nat, offsets: seq<u64>, n: nat): (r: (nat, seq<u64>))
    ensures r.0 < Pow2(n) && |r.1| <= |offsets|
    decreases n
  {
    if n == 0 then (0, offsets)
    else if offsets != [] && offsets[0] == at then
      var (bits, rest) := TakeBits(at + 8, offsets[1..], n - 1);
      (2 * bits + 1, rest)
    else
      var (bits, rest) := TakeBits(at + 8, offsets, n - 1);
      (2 * bits, rest)
  }

  lemma BitmapFits(width: nat)
    requires 8 * width == 504
    ensures Pow2(width) == 0x8000_0000_0000_0000
  {
    Pow2Values();
  }

  /** A table as a static linker emits it: an address, then bitmaps while they are of use.
      `width` is the number of slots a bitmap word covers, 63; it is a parameter, fixed by its
      premise, so that a proof about one bitmap does not unfold TakeBits 63 times. */
  function RelrTable(offsets: seq<u64>, width: nat): seq<u64>
    requires Ascending(offsets, 0) && 8 * width == 504
    decreases |offsets|, 0
  {
    if offsets == [] then []
    else
      AscendingAbove(offsets[1..], offsets[0] as int + 8, 0);
      [offsets[0]] + RelrBitmaps(offsets[0] as int + 8, offsets[1..], width)
  }

  function RelrBitmaps(at: nat, offsets: seq<u64>, width: nat): seq<u64>
    requires Ascending(offsets, 0) && Ascending(offsets, at) && 8 * width == 504
    decreases |offsets|, 1
  {
    if offsets == [] then []
    else if offsets[0] < at + 8 * width then
      TakeBitsRest(at, offsets, width);
      BitmapFits(width);
      var (bits, rest) := TakeBits(at, offsets, width);
      [2 * bits + 1] + RelrBitmaps(at + 8 * width, rest, width)
    else RelrTable(offsets, width)
  }

  function EncodeRelr(offsets: seq<u64>): seq<u64>
    requires Ascending(offsets, 0)
  {
    RelrTable(offsets, 63)
  }

  lemma {:induction false} AscendingAbove(offsets: seq<u64>, low: nat, low': nat)
    requires Ascending(offsets, low) && (offsets != [] ==> Reaches(low', offsets[0]))
    ensures Ascending(offsets, low')
  {
  }

  lemma {:induction false} TakeBitsRest(at: nat, offsets: seq<u64>, n: nat)
    requires Ascending(offsets, 0) && Ascending(offsets, at)
    ensures var rest := TakeBits(at, offsets, n).1;
            && Ascending(rest, 0) && Ascending(rest, at + 8 * n)
            && (offsets != [] && offsets[0] < at + 8 * n ==> |rest| < |offsets|)
    decreases n
  {
    if n > 0 {
      if offsets != [] && offsets[0] == at {
        AscendingAbove(offsets[1..], at + 8, 0);
        TakeBitsRest(at + 8, offsets[1..], n - 1);
      } else {
        AscendingAbove(offsets, at, at + 8);
        TakeBitsRest(at + 8, offsets, n - 1);
      }
    }
  }

  lemma Add64Twice(a: int, b: int, c: int)
    ensures Add64(Add64(a, b), c) == Add64(a + c, b)
  {
  }

  lemma BitmapShift(bits: nat, slot: u64)
    ensures BitmapSlots(2 * bits, slot) == BitmapSlots(bits, Add64(slot, 8))
    ensures BitmapSlots(2 * bits + 1, slot) == [slot] + BitmapSlots(bits, Add64(slot, 8))
  {
    assert (2 * bits + 1) / 2 == bits && (2 * bits) / 2 == bits;
  }

  lemma Prefixed(x: u64, a: seq<u64>, b: seq<u64>)
    ensures ([x] + a) + b == [x] + (a + b)
  {
  }

  lemma SlotHit(bits: nat, rest: seq<u64>, offsets: seq<u64>, slot: u64, base: u64)
    requires offsets != [] && slot == Add64(offsets[0], base)
    requires BitmapSlots(bits, Add64(slot, 8)) + Slots(rest, base) == Slots(offsets[1..], base)
    ensures BitmapSlots(2 * bits + 1, slot) + Slots(rest, base) == Slots(offsets, base)
  {
    BitmapShift(bits, slot);
    Prefixed(slot, BitmapSlots(bits, Add64(slot, 8)), Slots(rest, base));
    SlotsHead(offsets, base);
  }

  lemma {:induction false} TakeBitsSlots(at: nat, offsets: seq<u64>, n: nat, base: u64)
    ensures BitmapSlots(TakeBits(at, offsets, n).0, Add64(at, base)) + Slots(TakeBits(at, offsets, n).1, base) ==
            Slots(offsets, base)
    decreases n
  {
    if n > 0 {
      var slot := Add64(at, base);
      assert Add64(slot, 8) == Add64(at + 8, base) by { Add64Twice(at, base, 8); }
      if offsets != [] && offsets[0] == at {
        var t := TakeBits(at + 8, offsets[1..], n - 1);
        TakeBitsSlots(at + 8, offsets[1..], n - 1, base);
        SlotHit(t.0, t.1, offsets, slot, base);
      } else {
        TakeBitsSlots(at + 8, offsets, n - 1, base);
        BitmapShift(TakeBits(at + 8, offsets, n - 1).0, slot);
      }
    }
  }

  lemma SlotsHead(offsets: seq<u64>, base: u64)
    requires offsets != []
    ensures Slots(offsets, base) == [Add64(offsets[0], base)] + Slots(offsets[1..], base)
  {
  }

  lemma RelrHead(entry: u64, tail: seq<u64>, slot: u64, base: u64)
    ensures RelrSlots([entry] + tail, slot, base) ==
            if entry % 2 == 0 then [Add64(entry, base)] + RelrSlots(tail, Add64(Add64(entry, base), 8), base)
            else BitmapSlots(entry / 2, slot) + RelrSlots(tail, Add64(slot, 504), base)
  {
    assert ([entry] + tail)[1..] == tail;
  }

  lemma BitmapEntry(bits: nat, tail: seq<u64>, slot: u64, base: u64)
    requires bits < 0x8000_0000_0000_0000
    ensures RelrSlots([2 * bits + 1] + tail, slot, base) == BitmapSlots(bits, slot) + RelrSlots(tail, Add64(slot, 504), base)
  {
    RelrHead(2 * bits + 1, tail, slot, base);
  }

  lemma AddressEntry(entry: u64, tail: seq<u64>, slot: u64, base: u64)
    requires Reaches(0, entry)
    ensures RelrSlots([entry] + tail, slot, base) == [Add64(entry, base)] + RelrSlots(tail, Add64(entry as int + 8, base), base)
  {
    assert entry % 2 == 0;
    assert Add64(Add64(entry, base), 8) == Add64(entry as int + 8, base) by { Add64Twice(entry, base, 8); }
    RelrHead(entry, tail, slot, base);
  }

  lemma BitmapStep(at: nat, offsets: seq<u64>, width: nat, base: u64, tail: seq<u64>)
    requires 8 * width == 504
    requires RelrSlots(tail, Add64(at + 8 * width, base), base) == Slots(TakeBits(at, offsets, width).1, base)
    ensures TakeBits(at, offsets, width).0 < 0x8000_0000_0000_0000
    ensures RelrSlots([2 * TakeBits(at, offsets, width).0 + 1] + tail, Add64(at, base), base) == Slots(offsets, base)
  {
    BitmapFits(width);
    BitmapEntry(TakeBits(at, offsets, width).0, tail, Add64(at, base), base);
    TakeBitsSlots(at, offsets, width, base);
    assert Add64(Add64(at, base), 504) == Add64(at + 8 * width, base) by { Add64Twice(at, base, 504); }
  }

  lemma {:induction false} BitmapsRoundTrip(at: nat, offsets: seq<u64>, width: nat, base: u64)
    requires Ascending(offsets, 0) && Ascending(offsets, at) && 8 * width == 504
    ensures RelrSlots(RelrBitmaps(at, offsets, width), Add64(at, base), base) == Slots(offsets, base)
    decreases |offsets|, 1
  {
    if offsets == [] {
    } else if offsets[0] < at + 8 * width {
      TakeBitsRest(at, offsets, width);
      var next, rest := at + 8 * width, TakeBits(at, offsets, width).1;
      BitmapsRoundTrip(next, rest, width, base);
      BitmapStep(at, offsets, width, base, RelrBitmaps(next, rest, width));
    } else {
      TableRoundTrip(offsets, width, Add64(at, base), base);
    }
  }

  lemma {:induction false} TableRoundTrip(offsets: seq<u64>, width: nat, slot: u64, base: u64)
    requires Ascending(offsets, 0) && 8 * width == 504
    ensures RelrSlots(RelrTable(offsets, width), slot, base) == Slots(offsets, base)
    decreases |offsets|, 0
  {
    if offsets != [] {
      var at := offsets[0] as int + 8;
      AscendingAbove(offsets[1..], at, 0);
      BitmapsRoundTrip(at, offsets[1..], width, base);
      AddressEntry(offsets[0], RelrBitmaps(at, offsets[1..], width), slot, base);
      SlotsHead(offsets, base);
    }
  }

  /** The table patches exactly the given slots, in order. */
  lemma RelrRoundTrip(offsets: seq<u64>, slot: u64, base: u64)
    requires Ascending(offsets, 0)
    ensures RelrSlots(EncodeRelr(offsets), slot, base) == Slots(offsets, base)
  {
    TableRoundTrip(offsets, 63, slot, base);
  }

  lemma {:induction false} AscendingBounds(offsets: seq<u64>, low: nat)
    requires Ascending(offsets, low)
    ensures forall i :: 0 <= i < |offsets| ==> low + 8 * i <= offsets[i]
    ensures forall i, j :: 0 <= i < j < |offsets| ==> offsets[i] < offsets[j]
  {
    if offsets != [] {
      AscendingBounds(offsets[1..], offsets[0] as int + 8);
    }
  }

  lemma AscendingSlots(offsets: seq<u64>, base: u64)
    requires Ascending(offsets, 0)
    ensures Distinct(Slots(offsets, base)) && |offsets| < 0x1_0000_0000_0000_0000
  {
    AscendingBounds(offsets, 0);
    if |offsets| > 0 {
      assert offsets[|offsets| - 1] >= 8 * (|offsets| - 1);
    }
    forall i, j | 0 <= i < j < |offsets|
      ensures Slots(offsets, base)[i] != Slots(offsets, base)[j]
    {
      Add64Injective(offsets[i], offsets[j], base);
    }
  }

  lemma Add64Injective(a: u64, b: u64, base: u64)
    requires a != b
    ensures Add64(a, base) != Add64(b, base)
  {
  }

  /** For every set of 8-aligned slots: a RELR table (addends in place), a plain table of
      relative relocations, and a packed table under any legal grouping leave the same memory,
      in which exactly the slots are raised by the base. The two explicit tables do so whatever
      the slots held before. */
  lemma EncodingsAgree(m: Memory, m': Memory, base: u64, env: Symbols, offsets: seq<u64>,
                       groups: seq<Group>, start: u64)
    requires Ascending(offsets, 0)
    requires forall i :: 0 <= i < |offsets| ==> Add64(offsets[i], base) in m
    requires m'.Keys == m.Keys && forall a :: a in m && a !in Slots(offsets, base) ==> m'[a] == m[a]
    requires Legal(groups, Running(start, 0, 0)) && Flatten(groups) == RelativeTable(m, offsets, base)
    ensures |offsets| < 0x1_0000_0000_0000_0000
    ensures var after := Relocated(m, Elements(Slots(offsets, base)), base);
            && AddBaseAll(m, RelrSlots(EncodeRelr(offsets), 0, base), base) == after
            && RelaAll(m', base, env, RelativeTable(m, offsets, base)) == after
            && DecodePacked(EncodePacked(groups, start)).Ok?
            && RelaAll(m', base, env, DecodePacked(EncodePacked(groups, start)).value) == after
  {
    AscendingSlots(offsets, base);
    RelrRoundTrip(offsets, 0, base);
    AddBaseAllMeaning(m, Slots(offsets, base), base);
    RelativeTableMeaning(m, m', offsets, base, env);
    PackedRoundTrip(groups, start);
  }

  // ---- whole objects ---------------------------------------------------------------

  datatype Tables = Tables(relr: seq<u64>, packed: seq<byte>, rela: seq<Rela>, jmprel: seq<Rela>)

  /** What relocating an object does to memory; an error is a fatal exit. */
  function Relocate(m: Memory, base: u64, env: Symbols, t: Tables): Result<Memory> {
    match DecodePacked(t.packed)
    case Err => Err
    case Ok(relas) =>
      Ok(RelaAll(AddBaseAll(m, RelrSlots(t.relr, 0, base), base), base, env, relas + t.rela + t.jmprel))
  }

  method RelocateObject(ram: AddressSpace, base: u64, env: Symbols, t: Tables) returns (ok: bool)
    modifies ram
    ensures ok == Relocate(old(ram.words), base, env, t).Ok?
    ensures ok ==> ram.words == Relocate(old(ram.words), base, env, t).value
  {
    if t.relr != [] {
      ApplyRelr(ram, base, t.relr);
    }
    ghost var m := ram.words;
    ok := true;
    if t.packed != [] {
      ok := ApplyAndroidRela(ram, base, env, t.packed);
      if !ok { return; }
    }
    ghost var relas := DecodePacked(t.packed).value;
    RelaAllConcat(m, base, env, relas, t.rela);
    RelaAllConcat(m, base, env, relas + t.rela, t.jmprel);
    if t.rela != [] {
      ApplyRela(ram, base, env, t.rela);
    }
    if t.jmprel != [] {
      ApplyRela(ram, base, env, t.jmprel);
    }
  }

  /** However an object's relocations are packaged, relocating it does what one plain table
      holding all of them in order does. */
  lemma PackagingIsTransparent(m: Memory, base: u64, env: Symbols, offsets: seq<u64>, groups: seq<Group>,
                               start: u64, rela: seq<Rela>, jmprel: seq<Rela>)
    requires Ascending(offsets, 0)
    requires forall i :: 0 <= i < |offsets| ==> Add64(offsets[i], base) in m
    requires |Flatten(groups)| < 0x1_0000_0000_0000_0000 && Legal(groups, Running(start, 0, 0))
    ensures Relocate(m, base, env, Tables(EncodeRelr(offsets), EncodePacked(groups, start), rela, jmprel)) ==
            Ok(RelaAll(m, base, env, RelativeTable(m, offsets, base) + (Flatten(groups) + rela + jmprel)))
  {
    AscendingSlots(offsets, base);
    RelrRoundTrip(offsets, 0, base);
    AddBaseAllMeaning(m, Slots(offsets, base), base);
    RelativeTableMeaning(m, m, offsets, base, env);
    PackedRoundTrip(groups, start);
    RelaAllConcat(m, base, env, RelativeTable(m, offsets, base), Flatten(groups) + rela + jmprel);
  }
}
