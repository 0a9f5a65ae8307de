/** The class-file normaliser: parsing the constant pool, and the in-place rewrite of the version
    and of the method references whose class is an interface. */
module ClassFile {
  import opened Words

  /** Text decoding of a Utf8 constant; it never fails, undecodable bytes are replaced. */
  type Decode = seq<byte> -> string

  datatype Entry =
    | Utf8(text: string)
    | One(tag: byte, a: nat)
    | Two(tag: byte, a: nat, b: nat)

  /** One index of the pool: where its constant starts, and what was kept of it. */
  datatype Slot = Slot(offset: Option<nat>, entry: Option<Entry>)

  const BLANK := Slot(None, None)

  datatype Pool = Pool(slots: seq<Slot>, end: nat)

  // ---- parsing --------------------------------------------------------------------------------------

  function Be16(data: seq<byte>, off: nat): nat
    requires off + 2 <= |data|
  {
    data[off] as int * 256 + data[off + 1] as int
  }

  /** A slice that is cut off at the end of the data. */
  function Slice(data: seq<byte>, lo: nat, hi: nat): seq<byte>
    requires lo <= hi
  {
    data[Min(lo, |data|)..Min(hi, |data|)]
  }

  /** How a constant is laid out after its tag. */
  datatype Layout = Text | Fixed(width: nat, indices: nat) | OneIndex | TwoIndices | Unsupported

  function LayoutOf(tag: byte): Layout {
    if tag == 1 then Text
    else if tag == 3 || tag == 4 then Fixed(5, 1)
    else if tag == 5 || tag == 6 then Fixed(9, 2)
    else if tag == 7 || tag == 8 || tag == 16 || tag == 19 || tag == 20 then OneIndex
    else if 9 <= tag <= 12 || tag == 17 || tag == 18 then TwoIndices
    else if tag == 15 then Fixed(4, 1)
    else Unsupported
  }

  /** A constant: what is kept, its length in bytes, and how many indices it takes. */
  datatype Item = Item(entry: Option<Entry>, width: nat, indices: nat)

  function ReadItem(decode: Decode, data: seq<byte>, off: nat): (r: Result<Item>)
    ensures r.Ok? ==> off < |data| && r.value.width > 0 && 1 <= r.value.indices <= 2
  {
    if off >= |data| then Err
    else
      match LayoutOf(data[off])
      case Text =>
        if off + 3 > |data| then Err
        else
          var size := Be16(data, off + 1);
          Ok(Item(Some(Utf8(decode(Slice(data, off + 3, off + 3 + size)))), 3 + size, 1))
      case Fixed(width, indices) => Ok(Item(None, width, indices))
      case OneIndex =>
        if off + 3 > |data| then Err else Ok(Item(Some(One(data[off], Be16(data, off + 1))), 3, 1))
      case TwoIndices =>
        if off + 5 > |data| then Err
        else Ok(Item(Some(Two(data[off], Be16(data, off + 1), Be16(data, off + 3))), 5, 1))
      case Unsupported => Err
  }

  /** The slots a constant fills, at most `room` of them. */
  function SlotsOf(item: Item, off: nat, room: nat): seq<Slot> {
    [Slot(Some(off), item.entry)] + if item.indices == 2 && room > 1 then [BLANK] else []
  }

  /** The rest of the pool from an index and an offset on. */
  function Scan(decode: Decode, data: seq<byte>, count: nat, index: nat, off: nat): (r: Result<Pool>)
    ensures r.Ok? && index <= count ==> |r.value.slots| == count - index
    decreases count - index
  {
    if index >= count then Ok(Pool([], off))
    else
      match ReadItem(decode, data, off)
      case Err => Err
      case Ok(item) =>
        match Scan(decode, data, count, index + item.indices, off + item.width)
        case Err => Err
        case Ok(rest) => Ok(Pool(SlotsOf(item, off, count - index) + rest.slots, rest.end))
  }

  function Parse(decode: Decode, data: seq<byte>): (r: Result<Pool>) {
    if |data| < 10 then Err
    else if Be16(data, 8) == 0 then Ok(Pool([], 10))
    else
      match Scan(decode, data, Be16(data, 8), 1, 10)
      case Err => Err
      case Ok(rest) => Ok(Pool([BLANK] + rest.slots, rest.end))
  }

  function ClassName(slots: seq<Slot>, c: nat): Result<string> {
    if c >= |slots| then Err
    else if slots[c].entry.None? || !slots[c].entry.value.One? || slots[c].entry.value.tag != 7 then Ok("")
    else
      var n := slots[c].entry.value.a;
      if n >= |slots| then Err
      else if slots[n].entry.None? || !slots[n].entry.value.Utf8? then Ok("")
      else Ok(slots[n].entry.value.text)
  }

  /** The name of the class a file defines, if it is an interface. */
  function InterfaceName(decode: Decode, data: seq<byte>): Result<Option<string>> {
    match Parse(decode, data)
    case Err => Err
    case Ok(pool) => NameAfter(data, pool)
  }

  function NameAfter(data: seq<byte>, pool: Pool): Result<Option<string>> {
    if pool.end + 4 > |data| then Err
    else if And(Be16(data, pool.end), 0x200) == 0 then Ok(None)
    else
      match ClassName(pool.slots, Be16(data, pool.end + 2))
      case Err => Err
      case Ok(name) => Ok(Some(name))
  }

  // ---- the rewrite, as a specification --------------------------------------------------------------

  predicate IsMethodref(slot: Slot) {
    slot.entry.Some? && slot.entry.value.Two? && slot.entry.value.tag == 10
  }

  /** Every Methodref names a class index inside the pool, so that the lookup does not fail. */
  predicate Resolvable(slots: seq<Slot>) {
    forall i :: 0 <= i < |slots| && IsMethodref(slots[i]) ==> ClassName(slots, slots[i].entry.value.a).Ok?
  }

  predicate Selected(slots: seq<Slot>, interfaces: set<string>, i: nat)
    requires i < |slots|
  {
    && IsMethodref(slots[i])
    && var name := ClassName(slots, slots[i].entry.value.a);
       name.Ok? && name.value in interfaces
  }

  predicate PatchedAt(slots: seq<Slot>, interfaces: set<string>, n: nat, p: nat)
    requires n <= |slots|
  {
    exists i :: 0 <= i < n && Selected(slots, interfaces, i) && slots[i].offset == Some(p)
  }

  function Major(data: seq<byte>): nat
    requires |data| >= 8
  {
    Be16(data, 6)
  }

  /** The byte at `p` after the version is raised and the first `n` slots are processed. */
  function ByteAfter(data: seq<byte>, slots: seq<Slot>, interfaces: set<string>, n: nat, p: nat): byte
    requires p < |data| && |data| >= 8 && n <= |slots|
  {
    if PatchedAt(slots, interfaces, n, p) then 11
    else if Major(data) < 52 && p == 6 then 0
    else if Major(data) < 52 && p == 7 then 52
    else data[p]
  }

  function Rewritten(data: seq<byte>, slots: seq<Slot>, interfaces: set<string>): (r: seq<byte>)
    requires |data| >= 8
    ensures |r| == |data|
    ensures forall p :: 0 <= p < |r| ==> r[p] == ByteAfter(data, slots, interfaces, |slots|, p)
  {
    seq(|data|, p requires 0 <= p < |data| => ByteAfter(data, slots, interfaces, |slots|, p))
  }

  function CountSelected(slots: seq<Slot>, interfaces: set<string>, n: nat): nat
    requires n <= |slots|
  {
    if n == 0 then 0
    else CountSelected(slots, interfaces, n - 1) + if Selected(slots, interfaces, n - 1) then 1 else 0
  }

  datatype Outcome = Outcome(data: seq<byte>, changedVersion: bool, methodrefs: nat)

  function Normalize(decode: Decode, data: seq<byte>, interfaces: set<string>): Result<Outcome> {
    match Parse(decode, data)
    case Err => Err
    case Ok(pool) =>
      if !Resolvable(pool.slots) then Err
      else Ok(Outcome(Rewritten(data, pool.slots, interfaces), Major(data) < 52,
                      CountSelected(pool.slots, interfaces, |pool.slots|)))
  }

  // ---- the code ---------------------------------------------------------------------------------------

  ghost predicate Prepends(whole: Result<Pool>, done: seq<Slot>, rest: Result<Pool>) {
    match rest
    case Err => whole == Err
    case Ok(pool) => whole == Ok(Pool(done + pool.slots, pool.end))
  }

  lemma ScanStep(decode: Decode, data: seq<byte>, count: nat, index: nat, off: nat, whole: Result<Pool>, done: seq<Slot>)
    requires index < count && Prepends(whole, done, Scan(decode, data, count, index, off))
    ensures var item := ReadItem(decode, data, off);
            if item.Err? then whole == Err
            else Prepends(whole, done + SlotsOf(item.value, off, count - index),
                          Scan(decode, data, count, index + item.value.indices, off + item.value.width))
  {
    var item := ReadItem(decode, data, off);
    if item.Ok? {
      var rest := Scan(decode, data, count, index + item.value.indices, off + item.value.width);
      if rest.Ok? {
        var mine := SlotsOf(item.value, off, count - index);
        assert done + (mine + rest.value.slots) == done + mine + rest.value.slots;
      }
    }
  }

  /** The loop over the pool: indices and offsets advance together and the list is filled in place. */
  method ConstantPool(decode: Decode, data: seq<byte>) returns (r: Result<Pool>)
    ensures r == Parse(decode, data)
  {
    if |data| < 10 {
      return Err;
    }
    var count := Be16(data, 8);
    var slots := seq(count, _ => BLANK);
    var off, index := 10, 1;
    ghost var whole := Scan(decode, data, count, 1, 10);
    FillingStarts(whole, count);
    while index < count
      invariant 1 <= index && 0 <= off && |slots| == count
      invariant count > 0 ==> Filling(whole, slots, index, Scan(decode, data, count, index, off))
    {
      PoolStep(decode, data, count, index, off, whole, slots);
      var item := ReadItem(decode, data, off);
      if item.Err? {
        return Err;
      }
      slots := slots[index := Slot(Some(off), item.value.entry)];
      off := off + item.value.width;
      index := index + item.value.indices;
    }
    if count == 0 {
      return Ok(Pool([], 10));
    }
    FillingEnds(whole, slots, index, off);
    return Ok(Pool(slots, off));
  }

  /** The list is filled below `index`, blank from there on. */
  ghost predicate Filling(whole: Result<Pool>, slots: seq<Slot>, index: nat, rest: Result<Pool>)
    requires |slots| > 0 && index >= 1
  {
    && slots[0] == BLANK
    && (forall k :: index <= k < |slots| ==> slots[k] == BLANK)
    && Prepends(whole, slots[1..Min(index, |slots|)], rest)
  }

  lemma FillingStarts(whole: Result<Pool>, count: nat)
    ensures count > 0 ==> Filling(whole, seq(count, _ => BLANK), 1, whole)
  {
    if count > 0 && whole.Ok? {
      var slots := seq(count, _ => BLANK);
      assert slots[1..1] + whole.value.slots == whole.value.slots;
    }
  }

  lemma FillingEnds(whole: Result<Pool>, slots: seq<Slot>, index: nat, off: nat)
    requires 1 <= |slots| <= index && Filling(whole, slots, index, Ok(Pool([], off)))
    ensures whole.Ok? && slots == [BLANK] + whole.value.slots && whole.value.end == off
  {
    assert slots[1..|slots|] + [] == slots[1..|slots|];
  }

  lemma PoolStep(decode: Decode, data: seq<byte>, count: nat, index: nat, off: nat, whole: Result<Pool>, slots: seq<Slot>)
    requires 1 <= index < count == |slots| && Filling(whole, slots, index, Scan(decode, data, count, index, off))
    ensures var item := ReadItem(decode, data, off);
            if item.Err? then whole == Err
            else Filling(whole, slots[index := Slot(Some(off), item.value.entry)], index + item.value.indices,
                         Scan(decode, data, count, index + item.value.indices, off + item.value.width))
  {
    ScanStep(decode, data, count, index, off, whole, slots[1..index]);
    var item := ReadItem(decode, data, off);
    if item.Ok? {
      FillingStep(whole, slots, index, item.value, off,
                  Scan(decode, data, count, index + item.value.indices, off + item.value.width));
    }
  }

  lemma FillingStep(whole: Result<Pool>, slots: seq<Slot>, index: nat, item: Item, off: nat, rest: Result<Pool>)
    requires 1 <= index < |slots| && 1 <= item.indices <= 2
    requires slots[0] == BLANK && forall k :: index <= k < |slots| ==> slots[k] == BLANK
    requires Prepends(whole, slots[1..index] + SlotsOf(item, off, |slots| - index), rest)
    ensures Filling(whole, slots[index := Slot(Some(off), item.entry)], index + item.indices, rest)
  {
    var more := slots[index := Slot(Some(off), item.entry)];
    assert more[1..Min(index + item.indices, |slots|)] == slots[1..index] + SlotsOf(item, off, |slots| - index);
  }

  method NormalizeClass(decode: Decode, data: seq<byte>, interfaces: set<string>) returns (r: Result<Outcome>)
    ensures r == Normalize(decode, data, interfaces)
  {
    if |data| < 8 {
      return Err;
    }
    var changed, methodrefs := false, 0;
    var mutable := new byte[|data|](p requires 0 <= p < |data| => data[p]);
    if Be16(data, 6) < 52 {
      mutable[6], mutable[7] := 0, 52;
      changed := true;
    }
    var parsed := ConstantPool(decode, data);
    if parsed.Err? {
      return Err;
    }
    var slots := parsed.value.slots;
    ParsedOffsets(decode, data);
    for i := 0 to |slots|
      invariant forall p :: 0 <= p < |data| ==> mutable[p] == ByteAfter(data, slots, interfaces, i, p)
      invariant methodrefs == CountSelected(slots, interfaces, i)
      invariant forall k :: 0 <= k < i && IsMethodref(slots[k]) ==> ClassName(slots, slots[k].entry.value.a).Ok?
    {
      if IsMethodref(slots[i]) {
        var name := ClassName(slots, slots[i].entry.value.a);
        if name.Err? {
          return Err;
        }
        if name.value in interfaces {
          assert Located(data, slots, i);
          mutable[slots[i].offset.value] := 11;
          methodrefs := methodrefs + 1;
        }
      }
      PatchStep(data, slots, interfaces, i);
    }
    assert mutable[..] == Rewritten(data, slots, interfaces);
    return Ok(Outcome(mutable[..], changed, methodrefs));
  }

  /** One more slot patches at most the byte its constant starts at. */
  lemma PatchStep(data: seq<byte>, slots: seq<Slot>, interfaces: set<string>, i: nat)
    requires i < |slots| && |data| >= 8
    ensures forall p :: 0 <= p < |data| ==>
              ByteAfter(data, slots, interfaces, i + 1, p) ==
              if Selected(slots, interfaces, i) && slots[i].offset == Some(p) then 11
              else ByteAfter(data, slots, interfaces, i, p)
  {
    forall p: nat
      ensures PatchedAt(slots, interfaces, i + 1, p) <==>
              PatchedAt(slots, interfaces, i, p) || (Selected(slots, interfaces, i) && slots[i].offset == Some(p))
    {
    }
  }

  // ---- where constants lie ------------------------------------------------------------------------------

  /** A slot with an entry knows a position inside the data, past the header. */
  predicate Located(data: seq<byte>, slots: seq<Slot>, i: nat)
    requires i < |slots|
  {
    && (slots[i].entry.Some? ==> slots[i].offset.Some?)
    && (slots[i].offset.Some? ==> 10 <= slots[i].offset.value < |data|)
  }

  lemma {:induction false} ScannedOffsets(decode: Decode, data: seq<byte>, count: nat, index: nat, off: nat)
    requires Scan(decode, data, count, index, off).Ok?
    ensures off <= Scan(decode, data, count, index, off).value.end
    ensures var slots := Scan(decode, data, count, index, off).value.slots;
            forall i :: 0 <= i < |slots| ==>
              && (slots[i].entry.Some? ==> slots[i].offset.Some?)
              && (slots[i].offset.Some? ==> off <= slots[i].offset.value < |data|
                                            && slots[i].offset.value < Scan(decode, data, count, index, off).value.end)
    decreases count - index
  {
    if index < count {
      var item := ReadItem(decode, data, off).value;
      ScannedOffsets(decode, data, count, index + item.indices, off + item.width);
    }
  }

  lemma ParsedOffsets(decode: Decode, data: seq<byte>)
    requires Parse(decode, data).Ok?
    ensures var slots := Parse(decode, data).value.slots;
            forall i :: 0 <= i < |slots| ==> Located(data, slots, i)
  {
    if Be16(data, 8) != 0 {
      ScannedOffsets(decode, data, Be16(data, 8), 1, 10);
    }
  }

  // ---- parsing the rewritten file ------------------------------------------------------------------------

  /** A slot as it reads once its tag byte is among the patched positions. */
  function Patched(slot: Slot, at: set<nat>): Slot {
    if IsMethodref(slot) && slot.offset.Some? && slot.offset.value in at then
      slot.(entry := Some(Two(11, slot.entry.value.a, slot.entry.value.b)))
    else slot
  }

  function PatchAll(slots: seq<Slot>, at: set<nat>): (r: seq<Slot>)
    ensures |r| == |slots| && forall i :: 0 <= i < |r| ==> r[i] == Patched(slots[i], at)
  {
    seq(|slots|, i requires 0 <= i < |slots| => Patched(slots[i], at))
  }

  /** From `off` on, `out` is `data` with 11 at the positions in `at`. */
  ghost predicate Agrees(data: seq<byte>, out: seq<byte>, at: set<nat>, off: nat) {
    |out| == |data| && forall p :: off <= p < |data| ==> out[p] == if p in at then 11 else data[p]
  }

  /** Every patched position from `off` on is where one of these Methodrefs starts. */
  ghost predicate OnMethodrefs(slots: seq<Slot>, at: set<nat>, off: nat) {
    forall p :: p in at && off <= p ==> exists i :: 0 <= i < |slots| && StartsAt(slots[i], p)
  }

  predicate StartsAt(slot: Slot, p: nat) {
    IsMethodref(slot) && slot.offset == Some(p)
  }

  /** One constant reads the same, up to the patched tag. */
  lemma ItemPatched(decode: Decode, data: seq<byte>, out: seq<byte>, off: nat, at: set<nat>)
    requires ReadItem(decode, data, off).Ok? && Agrees(data, out, at, off)
    requires forall p :: off < p < off + ReadItem(decode, data, off).value.width ==> p !in at
    requires off in at ==> IsMethodref(Slot(Some(off), ReadItem(decode, data, off).value.entry))
    ensures var item := ReadItem(decode, data, off).value;
            ReadItem(decode, out, off) == Ok(item.(entry := Patched(Slot(Some(off), item.entry), at).entry))
  {
    var item := ReadItem(decode, data, off).value;
    forall p | off < p < off + item.width && p < |data| ensures out[p] == data[p] {
    }
    if data[off] == 1 {
      var size := Be16(data, off + 1);
      assert Slice(out, off + 3, off + 3 + size) == Slice(data, off + 3, off + 3 + size);
    }
  }

  /** The slots of one constant and of those after it: each patched position is the constant's own
      start or belongs to the rest. */
  lemma SplitPatches(item: Item, room: nat, rest: seq<Slot>, at: set<nat>, off: nat, next: nat)
    requires off < next && OnMethodrefs(SlotsOf(item, off, room) + rest, at, off)
    requires forall i :: 0 <= i < |rest| && rest[i].offset.Some? ==> rest[i].offset.value >= next
    ensures forall p :: off < p < next ==> p !in at
    ensures OnMethodrefs(rest, at, next)
    ensures off in at ==> IsMethodref(Slot(Some(off), item.entry))
  {
    var mine := SlotsOf(item, off, room);
    forall p | p in at && off <= p
      ensures if p == off then IsMethodref(mine[0])
              else p >= next && exists i :: 0 <= i < |rest| && StartsAt(rest[i], p)
    {
      var i :| 0 <= i < |mine + rest| && StartsAt((mine + rest)[i], p);
      if i >= |mine| {
        assert StartsAt(rest[i - |mine|], p);
      } else {
        assert StartsAt(mine[i], p);
      }
    }
  }

  lemma PatchAllConcat(a: seq<Slot>, b: seq<Slot>, at: set<nat>)
    ensures PatchAll(a + b, at) == PatchAll(a, at) + PatchAll(b, at)
  {
  }

  lemma PatchOwnSlots(item: Item, off: nat, room: nat, at: set<nat>)
    ensures SlotsOf(item.(entry := Patched(Slot(Some(off), item.entry), at).entry), off, room)
            == PatchAll(SlotsOf(item, off, room), at)
  {
  }

  lemma ScanCons(decode: Decode, data: seq<byte>, count: nat, index: nat, off: nat, item: Item, rest: Pool)
    requires index < count && ReadItem(decode, data, off) == Ok(item)
    requires Scan(decode, data, count, index + item.indices, off + item.width) == Ok(rest)
    ensures Scan(decode, data, count, index, off) == Ok(Pool(SlotsOf(item, off, count - index) + rest.slots, rest.end))
  {
  }

  /** Before the recursion: the current constant reads as patched, and the rest is set up alike. */
  lemma PatchedHead(decode: Decode, data: seq<byte>, out: seq<byte>, count: nat, index: nat, off: nat, at: set<nat>,
                    item: Item, rest: Pool)
    requires index < count && ReadItem(decode, data, off) == Ok(item)
    requires Scan(decode, data, count, index + item.indices, off + item.width) == Ok(rest)
    requires Agrees(data, out, at, off) && OnMethodrefs(SlotsOf(item, off, count - index) + rest.slots, at, off)
    ensures ReadItem(decode, out, off) == Ok(item.(entry := Patched(Slot(Some(off), item.entry), at).entry))
    ensures Agrees(data, out, at, off + item.width) && OnMethodrefs(rest.slots, at, off + item.width)
  {
    ScannedOffsets(decode, data, count, index + item.indices, off + item.width);
    SplitPatches(item, count - index, rest.slots, at, off, off + item.width);
    ItemPatched(decode, data, out, off, at);
  }

  /** After it: the two readings join. */
  lemma PatchedTail(decode: Decode, out: seq<byte>, count: nat, index: nat, off: nat, at: set<nat>, item: Item, rest: Pool)
    requires index < count
    requires ReadItem(decode, out, off) == Ok(item.(entry := Patched(Slot(Some(off), item.entry), at).entry))
    requires Scan(decode, out, count, index + item.indices, off + item.width) == Ok(Pool(PatchAll(rest.slots, at), rest.end))
    ensures Scan(decode, out, count, index, off)
            == Ok(Pool(PatchAll(SlotsOf(item, off, count - index) + rest.slots, at), rest.end))
  {
    PatchAllConcat(SlotsOf(item, off, count - index), rest.slots, at);
    PatchOwnSlots(item, off, count - index, at);
    ScanCons(decode, out, count, index, off, item.(entry := Patched(Slot(Some(off), item.entry), at).entry),
             Pool(PatchAll(rest.slots, at), rest.end));
  }

  lemma {:induction false} ScanPatched(decode: Decode, data: seq<byte>, out: seq<byte>, count: nat, index: nat, off: nat,
                                       at: set<nat>, pool: Pool)
    requires Scan(decode, data, count, index, off) == Ok(pool)
    requires Agrees(data, out, at, off) && OnMethodrefs(pool.slots, at, off)
    ensures Scan(decode, out, count, index, off) == Ok(Pool(PatchAll(pool.slots, at), pool.end))
    decreases count - index
  {
    if index < count {
      var item := ReadItem(decode, data, off).value;
      var rest := Scan(decode, data, count, index + item.indices, off + item.width).value;
      assert pool == Pool(SlotsOf(item, off, count - index) + rest.slots, rest.end);
      PatchedHead(decode, data, out, count, index, off, at, item, rest);
      ScanPatched(decode, data, out, count, index + item.indices, off + item.width, at, rest);
      PatchedTail(decode, out, count, index, off, at, item, rest);
    }
  }

  // ---- the theorem ------------------------------------------------------------------------------------------

  function PatchSet(slots: seq<Slot>, interfaces: set<string>): (r: set<nat>)
    ensures forall p :: p in r <==> PatchedAt(slots, interfaces, |slots|, p)
  {
    set i | 0 <= i < |slots| && Selected(slots, interfaces, i) && slots[i].offset.Some? :: slots[i].offset.value
  }

  /** What the slots of the rewritten file are: only selected Methodrefs change, into tag 11. */
  function Converted(slots: seq<Slot>, interfaces: set<string>): (r: seq<Slot>)
    ensures |r| == |slots|
    ensures forall i :: 0 <= i < |r| ==> r[i].offset == slots[i].offset
    ensures forall i :: 0 <= i < |r| && !Selected(slots, interfaces, i) ==> r[i] == slots[i]
    ensures forall i :: 0 <= i < |r| && Selected(slots, interfaces, i) ==>
              r[i].entry == Some(Two(11, slots[i].entry.value.a, slots[i].entry.value.b))
  {
    seq(|slots|, i requires 0 <= i < |slots| =>
      if Selected(slots, interfaces, i) then
        slots[i].(entry := Some(Two(11, slots[i].entry.value.a, slots[i].entry.value.b)))
      else slots[i])
  }

  lemma {:induction false} ScannedDistinct(decode: Decode, data: seq<byte>, count: nat, index: nat, off: nat)
    requires Scan(decode, data, count, index, off).Ok?
    ensures var slots := Scan(decode, data, count, index, off).value.slots;
            forall i, j :: 0 <= i < j < |slots| && slots[i].offset.Some? ==> slots[i].offset != slots[j].offset
    decreases count - index
  {
    if index < count {
      var item := ReadItem(decode, data, off).value;
      ScannedDistinct(decode, data, count, index + item.indices, off + item.width);
      ScannedOffsets(decode, data, count, index + item.indices, off + item.width);
    }
  }

  lemma ParsedDistinct(decode: Decode, data: seq<byte>)
    requires Parse(decode, data).Ok?
    ensures var slots := Parse(decode, data).value.slots;
            forall i, j :: 0 <= i < j < |slots| && slots[i].offset.Some? ==> slots[i].offset != slots[j].offset
  {
    if Be16(data, 8) != 0 {
      ScannedDistinct(decode, data, Be16(data, 8), 1, 10);
    }
  }

  lemma PatchAllIsConverted(decode: Decode, data: seq<byte>, interfaces: set<string>)
    requires Parse(decode, data).Ok?
    ensures var slots := Parse(decode, data).value.slots;
            PatchAll(slots, PatchSet(slots, interfaces)) == Converted(slots, interfaces)
  {
    var slots := Parse(decode, data).value.slots;
    ParsedDistinct(decode, data);
    ParsedOffsets(decode, data);
    var at := PatchSet(slots, interfaces);
    forall i | 0 <= i < |slots| ensures Patched(slots[i], at) == Converted(slots, interfaces)[i] {
      assert Located(data, slots, i);
    }
  }

  /** The rewritten file parses to the same pool: same offsets, same end, same entries but for the
      selected Methodrefs, which have become InterfaceMethodrefs. */
  lemma RewrittenParses(decode: Decode, data: seq<byte>, interfaces: set<string>)
    requires Parse(decode, data).Ok?
    ensures var pool := Parse(decode, data).value;
            Parse(decode, Rewritten(data, pool.slots, interfaces)) == Ok(Pool(Converted(pool.slots, interfaces), pool.end))
  {
    var pool := Parse(decode, data).value;
    var slots := pool.slots;
    var at := PatchSet(slots, interfaces);
    var out := Rewritten(data, slots, interfaces);
    ParsedOffsets(decode, data);
    PatchedAreTags(data, slots, interfaces);
    var count := Be16(data, 8);
    assert out[8] == data[8] && out[9] == data[9];
    if count != 0 {
      var rest := Scan(decode, data, count, 1, 10).value.slots;
      assert OnMethodrefs(rest, at, 10) by {
        forall p | p in at ensures exists i :: 0 <= i < |rest| && StartsAt(rest[i], p) {
          var i :| 0 <= i < |slots| && Selected(slots, interfaces, i) && slots[i].offset == Some(p);
          assert StartsAt(rest[i - 1], p);
        }
      }
      ScanPatched(decode, data, out, count, 1, 10, at, Scan(decode, data, count, 1, 10).value);
      assert PatchAll(slots, at) == [BLANK] + PatchAll(rest, at);
      PatchAllIsConverted(decode, data, interfaces);
    }
  }

  lemma PatchedAreTags(data: seq<byte>, slots: seq<Slot>, interfaces: set<string>)
    requires forall i :: 0 <= i < |slots| ==> Located(data, slots, i)
    ensures forall p: nat :: PatchedAt(slots, interfaces, |slots|, p) ==> p >= 10
  {
    forall p: nat | PatchedAt(slots, interfaces, |slots|, p) ensures p >= 10 {
      var i :| 0 <= i < |slots| && Selected(slots, interfaces, i) && slots[i].offset == Some(p);
      assert Located(data, slots, i);
    }
  }

  /** Class names are read from constants that are never rewritten. */
  lemma ClassNameKept(slots: seq<Slot>, interfaces: set<string>, c: nat)
    ensures ClassName(Converted(slots, interfaces), c) == ClassName(slots, c)
  {
  }

  lemma ConvertedSelectsNothing(slots: seq<Slot>, interfaces: set<string>, n: nat)
    requires n <= |slots|
    ensures forall i :: 0 <= i < n ==> !Selected(Converted(slots, interfaces), interfaces, i)
    ensures CountSelected(Converted(slots, interfaces), interfaces, n) == 0
  {
    var conv := Converted(slots, interfaces);
    forall i | 0 <= i < n ensures !Selected(conv, interfaces, i) {
      if IsMethodref(conv[i]) {
        ClassNameKept(slots, interfaces, conv[i].entry.value.a);
      }
    }
    if n > 0 {
      ConvertedSelectsNothing(slots, interfaces, n - 1);
    }
  }

  /** Main result. Whenever the normaliser accepts a file, the result has the same length, its major
      version is the old one raised to at least 52, it parses to the same pool with exactly the
      selected Methodrefs turned into InterfaceMethodrefs, and every other byte is the old one. */
  lemma NormalizeMeaning(decode: Decode, data: seq<byte>, interfaces: set<string>)
    requires Normalize(decode, data, interfaces).Ok?
    ensures var out := Normalize(decode, data, interfaces).value.data;
            var pool := Parse(decode, data).value;
            && |out| == |data| && |data| >= 10
            && Major(out) == Max(Major(data), 52)
            && Parse(decode, out) == Ok(Pool(Converted(pool.slots, interfaces), pool.end))
            && (forall p :: 0 <= p < |data| && !PatchedAt(pool.slots, interfaces, |pool.slots|, p) && p != 6 && p != 7 ==>
                  out[p] == data[p])
            && (forall p :: 0 <= p < |data| && PatchedAt(pool.slots, interfaces, |pool.slots|, p) ==>
                  out[p] == 11 && data[p] == 10)
  {
    var pool := Parse(decode, data).value;
    RewrittenParses(decode, data, interfaces);
    ParsedOffsets(decode, data);
    PatchedAreTags(data, pool.slots, interfaces);
    forall p | 0 <= p < |data| && PatchedAt(pool.slots, interfaces, |pool.slots|, p) ensures data[p] == 10 {
      var i :| 0 <= i < |pool.slots| && Selected(pool.slots, interfaces, i) && pool.slots[i].offset == Some(p);
      TagIsThere(decode, data, i);
    }
  }

  lemma {:induction false} ScannedTags(decode: Decode, data: seq<byte>, count: nat, index: nat, off: nat, i: nat, pool: Pool)
    requires Scan(decode, data, count, index, off) == Ok(pool) && i < |pool.slots| && IsMethodref(pool.slots[i])
    ensures var at := pool.slots[i].offset;
            at.Some? && at.value < |data| && data[at.value] == 10
    decreases count - index
  {
    if index < count {
      var item := ReadItem(decode, data, off).value;
      var rest := Scan(decode, data, count, index + item.indices, off + item.width).value;
      var mine := SlotsOf(item, off, count - index);
      assert pool.slots == mine + rest.slots;
      if i >= |mine| {
        ScannedTags(decode, data, count, index + item.indices, off + item.width, i - |mine|, rest);
      }
    }
  }

  lemma TagIsThere(decode: Decode, data: seq<byte>, i: nat)
    requires Parse(decode, data).Ok? && i < |Parse(decode, data).value.slots|
    requires IsMethodref(Parse(decode, data).value.slots[i])
    ensures var at := Parse(decode, data).value.slots[i].offset;
            at.Some? && at.value < |data| && data[at.value] == 10
  {
    assert i > 0;
    ScannedTags(decode, data, Be16(data, 8), 1, 10, i - 1, Scan(decode, data, Be16(data, 8), 1, 10).value);
  }

  /** Normalising twice is normalising once: the second pass accepts and changes nothing. */
  lemma NormalizeTwice(decode: Decode, data: seq<byte>, interfaces: set<string>)
    requires Normalize(decode, data, interfaces).Ok?
    ensures var out := Normalize(decode, data, interfaces).value.data;
            Normalize(decode, out, interfaces) == Ok(Outcome(out, false, 0))
  {
    var out := Normalize(decode, data, interfaces).value.data;
    var slots := Parse(decode, data).value.slots;
    var conv := Converted(slots, interfaces);
    NormalizeMeaning(decode, data, interfaces);
    ConvertedSelectsNothing(slots, interfaces, |slots|);
    forall i | 0 <= i < |conv| && IsMethodref(conv[i]) ensures ClassName(conv, conv[i].entry.value.a).Ok? {
      ClassNameKept(slots, interfaces, conv[i].entry.value.a);
    }
    assert Rewritten(out, conv, interfaces) == out;
  }

  /** Normalising does not change which interface a file defines, so the interface set collected
      from a jar is the same before and after. */
  lemma InterfaceNameKept(decode: Decode, data: seq<byte>, interfaces: set<string>)
    requires Normalize(decode, data, interfaces).Ok?
    ensures InterfaceName(decode, Normalize(decode, data, interfaces).value.data) == InterfaceName(decode, data)
  {
    var pool := Parse(decode, data).value;
    RewrittenParses(decode, data, interfaces);
    TailKept(decode, data, interfaces);
    NameAfterKept(data, Rewritten(data, pool.slots, interfaces), pool, interfaces);
  }

  lemma NameAfterKept(data: seq<byte>, out: seq<byte>, pool: Pool, interfaces: set<string>)
    requires |out| == |data| && forall p :: pool.end <= p < |data| ==> out[p] == data[p]
    ensures NameAfter(out, Pool(Converted(pool.slots, interfaces), pool.end)) == NameAfter(data, pool)
  {
    if pool.end + 4 <= |data| {
      ClassNameKept(pool.slots, interfaces, Be16(data, pool.end + 2));
    }
  }

  /** Everything after the pool stays as it is. */
  lemma TailKept(decode: Decode, data: seq<byte>, interfaces: set<string>)
    requires Parse(decode, data).Ok?
    ensures var pool := Parse(decode, data).value;
            forall p :: pool.end <= p < |data| ==> Rewritten(data, pool.slots, interfaces)[p] == data[p]
  {
    PatchesBeforeEnd(decode, data, interfaces);
  }

  lemma PatchesBeforeEnd(decode: Decode, data: seq<byte>, interfaces: set<string>)
    requires Parse(decode, data).Ok?
    ensures Parse(decode, data).value.end >= 10
    ensures var pool := Parse(decode, data).value;
            forall p: nat :: PatchedAt(pool.slots, interfaces, |pool.slots|, p) ==> p < pool.end
  {
    if Be16(data, 8) != 0 {
      ScannedOffsets(decode, data, Be16(data, 8), 1, 10);
    }
  }
}
