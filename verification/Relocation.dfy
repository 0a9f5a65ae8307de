/** Applying relocations to memory: plain RELA tables, RELR bitmaps, the linker's and the
    direct loader's loops, and what a set of relative relocations means. */
module Relocation {
  import opened Words

  /** Memory as the 8-byte words at the mapped slot addresses. A store elsewhere has no effect. */
  type Memory = map<u64, u64>

  function Store(m: Memory, a: u64, v: u64): Memory {
    if a in m then m[a := v] else m
  }

  class AddressSpace {
    var words: Memory

    constructor (words: Memory)
      ensures this.words == words
    {
      this.words := words;
    }
  }

  // ---- RELA -------------------------------------------------------------------

  datatype Rela = Rela(offset: u64, info: u64, addend: u64)

  const R_ABS64 := 257
  const R_GLOB_DAT := 1025
  const R_JUMP_SLOT := 1026
  const R_RELATIVE := 1027
  const R_TPREL64 := 1030
  const R_TLSDESC := 1031
  const R_IRELATIVE := 1032

  /** What an object's symbols mean while it is relocated: `lookup` is None for an undefined
      name found nowhere, `resolver` calls the IFUNC resolver at an address. */
  datatype Symbols = Symbols(
    tables: bool,
    lookup: u32 -> Option<u64>,
    tls: u32 -> u64,
    tlsOffset: u64,
    resolver: u64 -> u64,
    tlsdesc: u64)

  function ThreadOffset(env: Symbols, sym: u32): u64 {
    if sym != 0 && env.tables then env.tls(sym) else env.tlsOffset
  }

  function RelaStep(m: Memory, base: u64, env: Symbols, r: Rela): Memory {
    var sym: u32 := r.info / 0x1_0000_0000;
    var kind := r.info % 0x1_0000_0000;
    var slot := Add64(r.offset, base);
    if kind == R_RELATIVE then Store(m, slot, Add64(base, r.addend))
    else if kind == R_GLOB_DAT || kind == R_JUMP_SLOT || kind == R_ABS64 then
      if sym != 0 && env.tables then
        match env.lookup(sym)
        case None => m
        case Some(v) => Store(m, slot, Add64(v, r.addend))
      else Store(m, slot, r.addend)
    else if kind == R_TPREL64 then Store(m, slot, Add64(ThreadOffset(env, sym), r.addend))
    else if kind == R_TLSDESC then
      Store(Store(m, slot, env.tlsdesc), Add64(slot, 8), Add64(ThreadOffset(env, sym), r.addend))
    else if kind == R_IRELATIVE then Store(m, slot, env.resolver(Add64(base, r.addend)))
    else m
  }

  function RelaAll(m: Memory, base: u64, env: Symbols, relas: seq<Rela>): Memory {
    if relas == [] then m else RelaAll(RelaStep(m, base, env, relas[0]), base, env, relas[1..])
  }

  lemma {:induction false} RelaAllConcat(m: Memory, base: u64, env: Symbols, a: seq<Rela>, b: seq<Rela>)
    ensures RelaAll(m, base, env, a + b) == RelaAll(RelaAll(m, base, env, a), base, env, b)
  {
    if a == [] {
      assert a + b == b;
    } else {
      assert (a + b)[0] == a[0] && (a + b)[1..] == a[1..] + b;
      RelaAllConcat(RelaStep(m, base, env, a[0]), base, env, a[1..], b);
    }
  }

  /** The word an entry stores at `a`, if it stores one there. */
  function Written(base: u64, env: Symbols, r: Rela, a: u64): Option<u64> {
    var sym: u32 := r.info / 0x1_0000_0000;
    var kind := r.info % 0x1_0000_0000;
    var slot := Add64(r.offset, base);
    if kind == R_TLSDESC && a == Add64(slot, 8) then Some(Add64(ThreadOffset(env, sym), r.addend))
    else if a != slot then None
    else if kind == R_TLSDESC then Some(env.tlsdesc)
    else if kind == R_RELATIVE then Some(Add64(base, r.addend))
    else if kind == R_TPREL64 then Some(Add64(ThreadOffset(env, sym), r.addend))
    else if kind == R_IRELATIVE then Some(env.resolver(Add64(base, r.addend)))
    else if kind != R_GLOB_DAT && kind != R_JUMP_SLOT && kind != R_ABS64 then None
    else if sym == 0 || !env.tables then Some(r.addend)
    else if env.lookup(sym).None? then None
    else Some(Add64(env.lookup(sym).value, r.addend))
  }

  /** The word the last entry that reaches `a` stores there. */
  function LastWritten(base: u64, env: Symbols, relas: seq<Rela>, a: u64): Option<u64> {
    if relas == [] then None
    else
      var later := LastWritten(base, env, relas[1..], a);
      if later.Some? then later else Written(base, env, relas[0], a)
  }

  function OrElse<T>(o: Option<T>, otherwise: T): T {
    if o.Some? then o.value else otherwise
  }

  lemma StepMeaning(m: Memory, base: u64, env: Symbols, r: Rela, a: u64)
    ensures RelaStep(m, base, env, r).Keys == m.Keys
    ensures a in m ==> RelaStep(m, base, env, r)[a] == OrElse(Written(base, env, r, a), m[a])
  {
  }

  /** The AArch64 kinds by number, with the arithmetic modulo 2^64 written out: what an entry for symbol
      `sym` does to the mapped word at `a`. */
  lemma EntryMeans(m: Memory, base: u64, env: Symbols, offset: u64, sym: u32, kind: u32, addend: u64, a: u64)
    requires a in m
    ensures var slot := (base as int + offset as int) % 0x1_0000_0000_0000_0000;
            var after := RelaStep(m, base, env, Rela(offset, sym * 0x1_0000_0000 + kind, addend))[a];
            var tls: int := if sym > 0 && env.tables then env.tls(sym) else env.tlsOffset;
            && (a != slot && !(kind == 1031 && a as int == (slot + 8) % 0x1_0000_0000_0000_0000) ==> after == m[a])
            && (kind == 1027 && a == slot ==> after as int == (base as int + addend as int) % 0x1_0000_0000_0000_0000)
            && (kind in {257, 1025, 1026} && a == slot ==>
                  after as int == if sym == 0 || !env.tables then addend as int
                                  else if env.lookup(sym) == None then m[a] as int
                                  else (env.lookup(sym).value as int + addend as int) % 0x1_0000_0000_0000_0000)
            && (kind == 1030 && a == slot ==> after as int == (tls + addend as int) % 0x1_0000_0000_0000_0000)
            && (kind == 1031 && a == slot ==> after == env.tlsdesc)
            && (kind == 1031 && a as int == (slot + 8) % 0x1_0000_0000_0000_0000 ==>
                  after as int == (tls + addend as int) % 0x1_0000_0000_0000_0000)
            && (kind == 1032 && a == slot ==>
                  after == env.resolver((base as int + addend as int) % 0x1_0000_0000_0000_0000))
            && (kind !in {257, 1025, 1026, 1027, 1030, 1031, 1032} ==> after == m[a])
  {
    var r := Rela(offset, sym * 0x1_0000_0000 + kind, addend);
    assert r.info / 0x1_0000_0000 == sym && r.info % 0x1_0000_0000 == kind;
    StepMeaning(m, base, env, r, a);
  }

  /** What a whole table means, for every kind of entry: each mapped word is what the last entry
      that reaches it stores, and the word it was if none does. */
  lemma {:induction false} RelaAllMeaning(m: Memory, base: u64, env: Symbols, relas: seq<Rela>, a: u64)
    ensures RelaAll(m, base, env, relas).Keys == m.Keys
    ensures a in m ==> RelaAll(m, base, env, relas)[a] == OrElse(LastWritten(base, env, relas, a), m[a])
  {
    if relas != [] {
      StepMeaning(m, base, env, relas[0], a);
      RelaAllMeaning(RelaStep(m, base, env, relas[0]), base, env, relas[1..], a);
    }
  }

  method ApplyRela(ram: AddressSpace, base: u64, env: Symbols, relas: seq<Rela>)
    modifies ram
    ensures ram.words == RelaAll(old(ram.words), base, env, relas)
  {
    var i := 0;
    while i < |relas|
      invariant i <= |relas|
      invariant RelaAll(ram.words, base, env, relas[i..]) == RelaAll(old(ram.words), base, env, relas)
    {
      assert relas[i..][1..] == relas[i + 1..];
      ram.words := RelaStep(ram.words, base, env, relas[i]);
      i := i + 1;
    }
  }

  // ---- RELR -------------------------------------------------------------------

  /** `*slot += base`. */
  function AddBase(m: Memory, slot: u64, base: u64): Memory {
    if slot in m then m[slot := Add64(m[slot], base)] else m
  }

  function AddBaseAll(m: Memory, slots: seq<u64>, base: u64): Memory {
    if slots == [] then m else AddBaseAll(AddBase(m, slots[0], base), slots[1..], base)
  }

  /** The slots selected by a bitmap whose lowest bit stands for `slot`. */
  function BitmapSlots(bitmap: nat, slot: u64): seq<u64> {
    if bitmap == 0 then []
    else (if bitmap % 2 == 1 then [slot] else []) + BitmapSlots(bitmap / 2, Add64(slot, 8))
  }

  /** The slots a RELR table patches, in order, from current position `slot`. */
  function RelrSlots(relr: seq<u64>, slot: u64, base: u64): seq<u64> {
    if relr == [] then []
    else if relr[0] % 2 == 0 then
      [Add64(relr[0], base)] + RelrSlots(relr[1..], Add64(Add64(relr[0], base), 8), base)
    else
      BitmapSlots(relr[0] / 2, slot) + RelrSlots(relr[1..], Add64(slot, 504), base)
  }

  lemma {:induction false} AddBaseAllConcat(m: Memory, a: seq<u64>, b: seq<u64>, base: u64)
    ensures AddBaseAll(m, a + b, base) == AddBaseAll(AddBaseAll(m, a, base), b, base)
  {
    if a == [] {
      assert a + b == b;
    } else {
      assert (a + b)[0] == a[0] && (a + b)[1..] == a[1..] + b;
      AddBaseAllConcat(AddBase(m, a[0], base), a[1..], b, base);
    }
  }

  /** The linker's loop. */
  method ApplyRelr(ram: AddressSpace, base: u64, relr: seq<u64>)
    modifies ram
    ensures ram.words == AddBaseAll(old(ram.words), RelrSlots(relr, 0, base), base)
  {
    var slot: u64 := 0;
    ghost var goal := AddBaseAll(ram.words, RelrSlots(relr, 0, base), base);
    var i := 0;
    while i < |relr|
      invariant i <= |relr|
      invariant AddBaseAll(ram.words, RelrSlots(relr[i..], slot, base), base) == goal
    {
      var entry := relr[i];
      assert relr[i..][1..] == relr[i + 1..];
      if entry % 2 == 0 {
        slot := Add64(entry, base);
        ghost var rest := RelrSlots(relr[i + 1..], Add64(slot, 8), base);
        assert ([slot] + rest)[1..] == rest;
        ram.words := AddBase(ram.words, slot, base);
        slot := Add64(slot, 8);
      } else {
        ghost var rest := RelrSlots(relr[i + 1..], Add64(slot, 504), base);
        AddBaseAllConcat(ram.words, BitmapSlots(entry / 2, slot), rest, base);
        PatchBitmap(ram, base, entry / 2, slot);
        slot := Add64(slot, 504);
      }
      i := i + 1;
    }
  }

  method PatchBitmap(ram: AddressSpace, base: u64, bits: nat, slot: u64)
    modifies ram
    ensures ram.words == AddBaseAll(old(ram.words), BitmapSlots(bits, slot), base)
  {
    var bitmap, s := bits, slot;
    while bitmap != 0
      invariant AddBaseAll(ram.words, BitmapSlots(bitmap, s), base) ==
                AddBaseAll(old(ram.words), BitmapSlots(bits, slot), base)
      decreases bitmap
    {
      ghost var rest := BitmapSlots(bitmap / 2, Add64(s, 8));
      assert ([s] + rest)[1..] == rest && [] + rest == rest;
      if bitmap % 2 == 1 {
        ram.words := AddBase(ram.words, s, base);
      }
      s := Add64(s, 8);
      bitmap := bitmap / 2;
    }
  }

  // ---- the direct loader's RELR loop ----------------------------------------------

  function CountMapped(m: Memory, slots: seq<u64>): nat {
    if slots == [] then 0 else (if slots[0] in m then 1 else 0) + CountMapped(m, slots[1..])
  }

  lemma {:induction false} CountMappedConcat(m: Memory, a: seq<u64>, b: seq<u64>)
    ensures CountMapped(m, a + b) == CountMapped(m, a) + CountMapped(m, b)
  {
    if a == [] {
      assert a + b == b;
    } else {
      assert (a + b)[0] == a[0] && (a + b)[1..] == a[1..] + b;
      CountMappedConcat(m, a[1..], b);
    }
  }

  lemma {:induction false} CountMappedKeys(m: Memory, m': Memory, slots: seq<u64>)
    requires m.Keys == m'.Keys
    ensures CountMapped(m, slots) == CountMapped(m', slots)
  {
    if slots != [] {
      CountMappedKeys(m, m', slots[1..]);
    }
  }

  /** Reads and writes that fail are skipped and not counted. */
  method GuestAddBase(ram: AddressSpace, base: u64, gpa: u64, applied: nat) returns (applied': nat)
    modifies ram
    ensures ram.words == AddBase(old(ram.words), gpa, base)
    ensures applied' == applied + CountMapped(old(ram.words), [gpa])
  {
    applied' := applied;
    assert CountMapped(ram.words, [gpa]) == if gpa in ram.words then 1 else 0;
    if gpa in ram.words {
      ram.words := ram.words[gpa := Add64(ram.words[gpa], base)];
      applied' := applied + 1;
    }
  }

  method GuestApplyRelr(ram: AddressSpace, base: u64, relr: seq<u64>) returns (applied: nat)
    modifies ram
    ensures ram.words == AddBaseAll(old(ram.words), RelrSlots(relr, 0, base), base)
    ensures applied == CountMapped(old(ram.words), RelrSlots(relr, 0, base))
  {
    var slot: u64 := 0;
    ghost var m := ram.words;
    ghost var goal, total := AddBaseAll(m, RelrSlots(relr, 0, base), base), CountMapped(m, RelrSlots(relr, 0, base));
    applied := 0;
    var i := 0;
    while i < |relr|
      invariant i <= |relr| && ram.words.Keys == m.Keys
      invariant AddBaseAll(ram.words, RelrSlots(relr[i..], slot, base), base) == goal
      invariant applied + CountMapped(m, RelrSlots(relr[i..], slot, base)) == total
    {
      var entry := relr[i];
      assert relr[i..][1..] == relr[i + 1..];
      if entry % 2 == 0 {
        slot := Add64(entry, base);
        ghost var rest := RelrSlots(relr[i + 1..], Add64(slot, 8), base);
        assert ([slot] + rest)[1..] == rest;
        CountMappedKeys(ram.words, m, [slot]);
        CountMappedConcat(m, [slot], rest);
        applied := GuestAddBase(ram, base, slot, applied);
        slot := Add64(slot, 8);
      } else {
        ghost var these, rest := BitmapSlots(entry / 2, slot), RelrSlots(relr[i + 1..], Add64(slot, 504), base);
        AddBaseAllConcat(ram.words, these, rest, base);
        CountMappedConcat(m, these, rest);
        CountMappedKeys(ram.words, m, these);
        var n := GuestPatchBitmap(ram, base, entry / 2, slot);
        applied := applied + n;
        slot := Add64(slot, 504);
      }
      i := i + 1;
    }
  }

  method GuestPatchBitmap(ram: AddressSpace, base: u64, bits: nat, slot: u64) returns (applied: nat)
    modifies ram
    ensures ram.words == AddBaseAll(old(ram.words), BitmapSlots(bits, slot), base)
    ensures ram.words.Keys == old(ram.words.Keys)
    ensures applied == CountMapped(old(ram.words), BitmapSlots(bits, slot))
  {
    var bitmap, scan := bits, slot;
    ghost var m := ram.words;
    applied := 0;
    while bitmap != 0
      invariant ram.words.Keys == m.Keys
      invariant AddBaseAll(ram.words, BitmapSlots(bitmap, scan), base) == AddBaseAll(m, BitmapSlots(bits, slot), base)
      invariant applied + CountMapped(m, BitmapSlots(bitmap, scan)) == CountMapped(m, BitmapSlots(bits, slot))
      decreases bitmap
    {
      ghost var rest := BitmapSlots(bitmap / 2, Add64(scan, 8));
      assert ([scan] + rest)[1..] == rest && [] + rest == rest;
      if bitmap % 2 == 1 {
        CountMappedKeys(ram.words, m, [scan]);
        CountMappedConcat(m, [scan], rest);
        applied := GuestAddBase(ram, base, scan, applied);
      }
      scan := Add64(scan, 8);
      bitmap := bitmap / 2;
    }
  }

  // ---- what relative relocation means -----------------------------------------------

  /** Every listed slot raised by the base, everything else untouched. */
  function Relocated(m: Memory, slots: set<u64>, base: u64): Memory {
    map a | a in m :: if a in slots then Add64(m[a], base) else m[a]
  }

  predicate Distinct(s: seq<u64>) {
    forall i, j :: 0 <= i < j < |s| ==> s[i] != s[j]
  }

  function Elements(s: seq<u64>): set<u64> {
    set a | a in s
  }

  lemma {:induction false} AddBaseAllMeaning(m: Memory, slots: seq<u64>, base: u64)
    requires Distinct(slots)
    ensures AddBaseAll(m, slots, base) == Relocated(m, Elements(slots), base)
  {
    if slots == [] {
      assert Relocated(m, {}, base) == m;
    } else {
      var m' := AddBase(m, slots[0], base);
      AddBaseAllMeaning(m', slots[1..], base);
      assert slots == [slots[0]] + slots[1..];
      assert slots[0] !in slots[1..];
    }
  }

  /** Applying a RELR table a second time changes the memory again, unless the base is 0 or
      no slot is mapped: relocation has to happen exactly once. */
  lemma RelrTwice(m: Memory, slots: seq<u64>, base: u64)
    requires Distinct(slots)
    ensures AddBaseAll(AddBaseAll(m, slots, base), slots, base) == AddBaseAll(m, slots, base)
            <==> base == 0 || Elements(slots) !! m.Keys
  {
    var once := AddBaseAll(m, slots, base);
    AddBaseAllMeaning(m, slots, base);
    AddBaseAllMeaning(once, slots, base);
    var twice := Relocated(once, Elements(slots), base);
    if base != 0 && !(Elements(slots) !! m.Keys) {
      var a :| a in Elements(slots) && a in m;
      assert twice[a] == Add64(once[a], base) != once[a];
    } else {
      assert forall a :: a in once ==> twice[a] == once[a];
    }
  }

  function Slots(offsets: seq<u64>, base: u64): (r: seq<u64>)
    ensures |r| == |offsets|
    ensures forall i :: 0 <= i < |r| ==> r[i] == Add64(offsets[i], base)
  {
    seq(|offsets|, i requires 0 <= i < |offsets| => Add64(offsets[i], base))
  }

  /** The plain table for the same slots: the addends are the words RELR finds in place. */
  function RelativeTable(m: Memory, offsets: seq<u64>, base: u64): (r: seq<Rela>)
    requires forall i :: 0 <= i < |offsets| ==> Add64(offsets[i], base) in m
    ensures |r| == |offsets|
  {
    seq(|offsets|, i requires 0 <= i < |offsets| => Rela(offsets[i], R_RELATIVE, m[Add64(offsets[i], base)]))
  }

  /** A relative table overwrites its slots, so what they held before does not matter. */
  lemma {:induction false} RelativeTableMeaning(m: Memory, m': Memory, offsets: seq<u64>, base: u64, env: Symbols)
    requires forall i :: 0 <= i < |offsets| ==> Add64(offsets[i], base) in m
    requires m'.Keys == m.Keys
    requires forall a :: a in m && a !in Slots(offsets, base) ==> m'[a] == m[a]
    requires Distinct(Slots(offsets, base))
    ensures RelaAll(m', base, env, RelativeTable(m, offsets, base)) ==
            Relocated(m, Elements(Slots(offsets, base)), base)
  {
    RelativeTablePointwise(m, m', offsets, base, env);
    var r := RelaAll(m', base, env, RelativeTable(m, offsets, base));
    assert r == Relocated(m, Elements(Slots(offsets, base)), base);
  }

  lemma {:induction false} RelativeTablePointwise(m: Memory, m': Memory, offsets: seq<u64>, base: u64, env: Symbols)
    requires forall i :: 0 <= i < |offsets| ==> Add64(offsets[i], base) in m
    requires m'.Keys == m.Keys
    requires Distinct(Slots(offsets, base))
    ensures var r := RelaAll(m', base, env, RelativeTable(m, offsets, base));
            r.Keys == m.Keys &&
            forall a :: a in m ==> r[a] == if a in Slots(offsets, base) then Add64(m[a], base) else m'[a]
  {
    if offsets != [] {
      var slots, table := Slots(offsets, base), RelativeTable(m, offsets, base);
      var m1 := m'[slots[0] := Add64(m[slots[0]], base)];
      assert RelaStep(m', base, env, table[0]) == m1;
      assert table[1..] == RelativeTable(m, offsets[1..], base);
      assert slots[1..] == Slots(offsets[1..], base);
      RelativeTablePointwise(m, m1, offsets[1..], base, env);
      assert slots[0] !in slots[1..];
      assert forall a :: a in slots <==> a == slots[0] || a in slots[1..] by {
        assert slots == [slots[0]] + slots[1..];
      }
    }
  }
}
