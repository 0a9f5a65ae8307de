/** Android packed relocations ("APS2"): groups of relocations over a SLEB128 stream. */
module PackedRela {
  import opened Words
  import opened Relocation
  import opened Sleb128

  /** The running values the decoder carries from one relocation to the next. */
  datatype Running = Running(offset: u64, info: u64, addend: u64)

  /** The flag bits of a group: shared info, shared offset delta, shared addend, any addend. */
  datatype Shape = Shape(byInfo: bool, byDelta: bool, byAddend: bool, hasAddend: bool) {
    predicate EachAddend() { hasAddend && !byAddend }
    predicate SharedAddend() { hasAddend && byAddend }
  }

  function ShapeOf(flags: u64): Shape {
    Shape(flags % 2 == 1, (flags / 2) % 2 == 1, (flags / 4) % 2 == 1, (flags / 8) % 2 == 1)
  }

  // ---- decoding, over the numbers of the stream ------------------------------------

  /** A number read only when `wanted`, else the default, with nothing consumed. */
  function PopIf(wanted: bool, xs: seq<u64>, default: u64): (r: Result<(u64, seq<u64>)>)
    ensures r.Ok? ==> |r.value.1| <= |xs|
  {
    if !wanted then Ok((default, xs))
    else if xs == [] then Err
    else Ok((xs[0], xs[1..]))
  }

  /** One relocation of a group: the new running values and the numbers left. */
  function DecodeEntry(xs: seq<u64>, st: Running, shape: Shape, delta: u64): (r: Result<(Running, seq<u64>)>)
    ensures r.Ok? ==> |r.value.1| <= |xs|
  {
    match PopIf(!shape.byDelta, xs, delta)
    case Err => Err
    case Ok((d, xs1)) =>
      match PopIf(!shape.byInfo, xs1, st.info)
      case Err => Err
      case Ok((info, xs2)) =>
        match PopIf(shape.EachAddend(), xs2, 0)
        case Err => Err
        case Ok((a, xs3)) => Ok((Running(Add64(st.offset, d), info, Add64(st.addend, a)), xs3))
  }

  function AsRela(st: Running): Rela {
    Rela(st.offset, st.info, st.addend)
  }

  function DecodeEntries(xs: seq<u64>, st: Running, shape: Shape, delta: u64, n: nat)
    : (r: Result<(seq<Rela>, Running, seq<u64>)>)
    ensures r.Ok? ==> |r.value.2| <= |xs|
    decreases n
  {
    if n == 0 then Ok(([], st, xs))
    else
      match DecodeEntry(xs, st, shape, delta)
      case Err => Err
      case Ok((st1, xs1)) =>
        match DecodeEntries(xs1, st1, shape, delta, n - 1)
        case Err => Err
        case Ok((relas, st2, xs2)) => Ok(([AsRela(st1)] + relas, st2, xs2))
  }

  /** A group header: size, flags, shared delta, and the running values after shared fields. */
  datatype Header = Header(size: u64, shape: Shape, delta: u64, st: Running)

  function DecodeHeader(xs: seq<u64>, st: Running): (r: Result<(Header, seq<u64>)>)
    ensures r.Ok? ==> |r.value.1| + 2 <= |xs|
  {
    if |xs| < 2 then Err
    else
      var size, shape := xs[0], ShapeOf(xs[1]);
      match PopIf(shape.byDelta, xs[2..], 0)
      case Err => Err
      case Ok((delta, xs1)) =>
        match PopIf(shape.byInfo, xs1, st.info)
        case Err => Err
        case Ok((info, xs2)) =>
          match PopIf(shape.SharedAddend(), xs2, 0)
          case Err => Err
          case Ok((a, xs3)) =>
            Ok((Header(size, shape, delta,
                       Running(st.offset, info, if shape.hasAddend then Add64(st.addend, a) else 0)), xs3))
  }

  datatype Decoded = Decoded(size: u64, relas: seq<Rela>, st: Running)

  function DecodeGroup(xs: seq<u64>, st: Running): (r: Result<(Decoded, seq<u64>)>)
    ensures r.Ok? ==> |r.value.1| + 2 <= |xs|
  {
    match DecodeHeader(xs, st)
    case Err => Err
    case Ok((h, xs1)) =>
      match DecodeEntries(xs1, h.st, h.shape, h.delta, h.size)
      case Err => Err
      case Ok((relas, st2, xs2)) => Ok((Decoded(h.size, relas, st2), xs2))
  }

  /** The group loop. Every group takes at least two numbers, so it ends on every stream. */
  function DecodeGroups(xs: seq<u64>, st: Running, idx: u64, total: u64): Result<seq<Rela>>
    decreases |xs|
  {
    if idx >= total then Ok([])
    else
      match DecodeGroup(xs, st)
      case Err => Err
      case Ok((d, xs1)) =>
        match DecodeGroups(xs1, d.st, Add64(idx, d.size), total)
        case Err => Err
        case Ok(more) => Ok(d.relas + more)
  }

  const SIGNATURE: seq<byte> := [0x41, 0x50, 0x53, 0x32]

  /** The relocations a packed table stands for; an error is a fatal exit. */
  function DecodePacked(packed: seq<byte>): Result<seq<Rela>> {
    if |packed| < 4 then Ok([])
    else if packed[..4] != SIGNATURE then Err
    else
      var xs := Numbers(packed[4..]);
      if |xs| < 2 then Err else DecodeGroups(xs[2..], Running(xs[1], 0, 0), 0, xs[0])
  }

  // ---- encoding ---------------------------------------------------------------

  datatype Group = Group(flags: u64, relas: seq<Rela>) {
    function Shape(): Shape { ShapeOf(flags) }
  }

  /** The first relocation's difference from the running offset: the shared delta, if any. */
  function Delta(g: Group, st: Running): u64 {
    if g.relas == [] then 0 else Wrap64(g.relas[0].offset - st.offset)
  }

  function Info(g: Group, st: Running): u64 {
    if g.Shape().byInfo && g.relas != [] then g.relas[0].info else st.info
  }

  /** The running addend when the group's relocations start. */
  function Addend(g: Group, st: Running): u64 {
    if !g.Shape().hasAddend then 0
    else if g.Shape().byAddend && g.relas != [] then g.relas[0].addend
    else st.addend
  }

  function Opened(g: Group, st: Running): Running {
    Running(st.offset, Info(g, st), Addend(g, st))
  }

  /** A relocation may use what its group shares. */
  predicate Fits(r: Rela, st: Running, shape: Shape, delta: u64) {
    && (shape.byDelta ==> r.offset == Add64(st.offset, delta))
    && (shape.byInfo ==> r.info == st.info)
    && (!shape.EachAddend() ==> r.addend == st.addend)
  }

  predicate LegalEntries(relas: seq<Rela>, st: Running, shape: Shape, delta: u64) {
    relas != [] ==>
      && Fits(relas[0], st, shape, delta)
      && LegalEntries(relas[1..], After(relas[0]), shape, delta)
  }

  function After(r: Rela): Running {
    Running(r.offset, r.info, r.addend)
  }

  function Closed(relas: seq<Rela>, st: Running): Running {
    if relas == [] then st else After(relas[|relas| - 1])
  }

  function NextRunning(g: Group, st: Running): Running {
    Closed(g.relas, Opened(g, st))
  }

  predicate Legal(groups: seq<Group>, st: Running) {
    groups != [] ==>
      && LegalEntries(groups[0].relas, Opened(groups[0], st), groups[0].Shape(), Delta(groups[0], st))
      && Legal(groups[1..], NextRunning(groups[0], st))
  }

  function Flatten(groups: seq<Group>): seq<Rela> {
    if groups == [] then [] else groups[0].relas + Flatten(groups[1..])
  }

  function EncodeIf(wanted: bool, x: u64): seq<u64> {
    if wanted then [x] else []
  }

  function EncodeFields(shape: Shape, d: u64, info: u64, a: u64): seq<u64> {
    EncodeIf(!shape.byDelta, d) + EncodeIf(!shape.byInfo, info) + EncodeIf(shape.EachAddend(), a)
  }

  function EncodeEntry(r: Rela, st: Running, shape: Shape): seq<u64> {
    EncodeFields(shape, Wrap64(r.offset - st.offset), r.info, Wrap64(r.addend - st.addend))
  }

  function EncodeEntries(relas: seq<Rela>, st: Running, shape: Shape): seq<u64> {
    if relas == [] then []
    else EncodeEntry(relas[0], st, shape) + EncodeEntries(relas[1..], After(relas[0]), shape)
  }

  function EncodeHeader(g: Group, st: Running): seq<u64>
    requires |g.relas| < 0x1_0000_0000_0000_0000
  {
    [|g.relas|, g.flags] +
    EncodeIf(g.Shape().byDelta, Delta(g, st)) +
    EncodeIf(g.Shape().byInfo, Info(g, st)) +
    EncodeIf(g.Shape().SharedAddend(), Wrap64(Addend(g, st) - st.addend))
  }

  function EncodeGroups(groups: seq<Group>, st: Running): seq<u64>
    requires |Flatten(groups)| < 0x1_0000_0000_0000_0000
  {
    if groups == [] then []
    else
      EncodeHeader(groups[0], st) +
      EncodeEntries(groups[0].relas, Opened(groups[0], st), groups[0].Shape()) +
      EncodeGroups(groups[1..], NextRunning(groups[0], st))
  }

  function EncodePacked(groups: seq<Group>, start: u64): seq<byte>
    requires |Flatten(groups)| < 0x1_0000_0000_0000_0000
  {
    SIGNATURE + EncodeAll([|Flatten(groups)|, start] + EncodeGroups(groups, Running(start, 0, 0)))
  }

  // ---- decoding inverts encoding -----------------------------------------------------

  lemma PopIfEncoded(wanted: bool, x: u64, default: u64, tail: seq<u64>)
    ensures PopIf(wanted, EncodeIf(wanted, x) + tail, default) == Ok((if wanted then x else default, tail))
  {
    assert [] + tail == tail;
  }

  lemma Regrouped(a: seq<u64>, b: seq<u64>, c: seq<u64>, d: seq<u64>)
    ensures a + b + c + d == a + (b + (c + d))
  {
  }

  lemma Restore(a: u64, b: u64)
    ensures Add64(a, Wrap64(b - a)) == b
  {
  }

  lemma EntryRoundTrip(r: Rela, st: Running, shape: Shape, delta: u64, tail: seq<u64>)
    requires Fits(r, st, shape, delta)
    ensures DecodeEntry(EncodeEntry(r, st, shape) + tail, st, shape, delta) == Ok((After(r), tail))
  {
    var d, a := Wrap64(r.offset - st.offset), Wrap64(r.addend - st.addend);
    Restore(st.offset, r.offset);
    Restore(st.addend, r.addend);
    FieldsRoundTrip(st, shape, delta, d, r.info, a, tail);
  }

  lemma FieldsRoundTrip(st: Running, shape: Shape, delta: u64, d: u64, info: u64, a: u64, tail: seq<u64>)
    ensures DecodeEntry(EncodeFields(shape, d, info, a) + tail, st, shape, delta) ==
            Ok((Running(Add64(st.offset, if shape.byDelta then delta else d),
                        if shape.byInfo then st.info else info,
                        Add64(st.addend, if shape.EachAddend() then a else 0)), tail))
  {
    var e2 := EncodeIf(shape.EachAddend(), a) + tail;
    var e1 := EncodeIf(!shape.byInfo, info) + e2;
    Regrouped(EncodeIf(!shape.byDelta, d), EncodeIf(!shape.byInfo, info), EncodeIf(shape.EachAddend(), a), tail);
    PopIfEncoded(!shape.byDelta, d, delta, e1);
    PopIfEncoded(!shape.byInfo, info, st.info, e2);
    PopIfEncoded(shape.EachAddend(), a, 0, tail);
  }

  lemma {:induction false} EntriesRoundTrip(relas: seq<Rela>, st: Running, shape: Shape, delta: u64, tail: seq<u64>)
    requires LegalEntries(relas, st, shape, delta)
    ensures DecodeEntries(EncodeEntries(relas, st, shape) + tail, st, shape, delta, |relas|) ==
            Ok((relas, Closed(relas, st), tail))
  {
    if relas == [] {
      assert [] + tail == tail;
    } else {
      var rest := EncodeEntries(relas[1..], After(relas[0]), shape) + tail;
      assert EncodeEntries(relas, st, shape) + tail == EncodeEntry(relas[0], st, shape) + rest;
      EntryRoundTrip(relas[0], st, shape, delta, rest);
      EntriesRoundTrip(relas[1..], After(relas[0]), shape, delta, tail);
      assert [AsRela(After(relas[0]))] + relas[1..] == relas;
    }
  }

  lemma HeaderRoundTrip(g: Group, st: Running, tail: seq<u64>)
    requires |g.relas| < 0x1_0000_0000_0000_0000
    ensures DecodeHeader(EncodeHeader(g, st) + tail, st) ==
            Ok((Header(|g.relas|, g.Shape(), if g.Shape().byDelta then Delta(g, st) else 0, Opened(g, st)), tail))
  {
    var shape, a := g.Shape(), Wrap64(Addend(g, st) - st.addend);
    var e4 := EncodeIf(shape.SharedAddend(), a) + tail;
    var e3 := EncodeIf(shape.byInfo, Info(g, st)) + e4;
    var xs := EncodeHeader(g, st) + tail;
    assert xs[0] == |g.relas| && xs[1] == g.flags && xs[2..] == EncodeIf(shape.byDelta, Delta(g, st)) + e3;
    PopIfEncoded(shape.byDelta, Delta(g, st), 0, e3);
    PopIfEncoded(shape.byInfo, Info(g, st), st.info, e4);
    PopIfEncoded(shape.SharedAddend(), a, 0, tail);
    Restore(st.addend, Addend(g, st));
  }

  lemma {:induction false} LegalEntriesDelta(relas: seq<Rela>, st: Running, shape: Shape, delta: u64, delta': u64)
    requires LegalEntries(relas, st, shape, delta) && (shape.byDelta ==> delta == delta')
    ensures LegalEntries(relas, st, shape, delta')
  {
    if relas != [] {
      LegalEntriesDelta(relas[1..], After(relas[0]), shape, delta, delta');
    }
  }

  lemma GroupRoundTrip(g: Group, st: Running, tail: seq<u64>)
    requires |g.relas| < 0x1_0000_0000_0000_0000
    requires LegalEntries(g.relas, Opened(g, st), g.Shape(), Delta(g, st))
    ensures DecodeGroup(EncodeHeader(g, st) + EncodeEntries(g.relas, Opened(g, st), g.Shape()) + tail, st) ==
            Ok((Decoded(|g.relas|, g.relas, NextRunning(g, st)), tail))
  {
    var entries := EncodeEntries(g.relas, Opened(g, st), g.Shape());
    var delta := if g.Shape().byDelta then Delta(g, st) else 0;
    assert EncodeHeader(g, st) + entries + tail == EncodeHeader(g, st) + (entries + tail);
    HeaderRoundTrip(g, st, entries + tail);
    LegalEntriesDelta(g.relas, Opened(g, st), g.Shape(), Delta(g, st), delta);
    EntriesRoundTrip(g.relas, Opened(g, st), g.Shape(), delta, tail);
  }

  lemma {:induction false} GroupsRoundTrip(groups: seq<Group>, st: Running, idx: u64, total: u64)
    requires Legal(groups, st) && idx + |Flatten(groups)| == total
    ensures DecodeGroups(EncodeGroups(groups, st), st, idx, total) == Ok(Flatten(groups))
  {
    if idx < total {
      var g, next := groups[0], NextRunning(groups[0], st);
      var tail := EncodeGroups(groups[1..], next);
      FirstRoundTrip(groups, st);
      GroupsRoundTrip(groups[1..], next, idx + |g.relas|, total);
      GroupDecoded(EncodeGroups(groups, st), st, idx, total, |g.relas|, g.relas, next, tail, Flatten(groups[1..]));
    }
  }

  lemma {:induction false} FirstRoundTrip(groups: seq<Group>, st: Running)
    requires groups != [] && Legal(groups, st) && |Flatten(groups)| < 0x1_0000_0000_0000_0000
    ensures var g, next := groups[0], NextRunning(groups[0], st);
            && Legal(groups[1..], next) && |Flatten(groups)| == |g.relas| + |Flatten(groups[1..])|
            && DecodeGroup(EncodeGroups(groups, st), st)
               == Ok((Decoded(|g.relas|, g.relas, next), EncodeGroups(groups[1..], next)))
  {
    GroupRoundTrip(groups[0], st, EncodeGroups(groups[1..], NextRunning(groups[0], st)));
  }

  lemma {:induction false} GroupDecoded(xs: seq<u64>, st: Running, idx: u64, total: u64, size: u64, relas: seq<Rela>,
                                        next: Running, tail: seq<u64>, rest: seq<Rela>)
    requires idx < total && idx + size <= total
    requires DecodeGroup(xs, st) == Ok((Decoded(size, relas, next), tail))
    requires DecodeGroups(tail, next, idx + size, total) == Ok(rest)
    ensures DecodeGroups(xs, st, idx, total) == Ok(relas + rest)
  {
    assert Add64(idx, size) == idx + size;
  }

  /** Whatever the grouping, the decoder hands over exactly the relocations that were packed,
      in order. */
  lemma PackedRoundTrip(groups: seq<Group>, start: u64)
    requires |Flatten(groups)| < 0x1_0000_0000_0000_0000 && Legal(groups, Running(start, 0, 0))
    ensures DecodePacked(EncodePacked(groups, start)) == Ok(Flatten(groups))
  {
    var n := |Flatten(groups)|;
    var body := EncodeGroups(groups, Running(start, 0, 0));
    var xs, packed := [n, start] + body, EncodePacked(groups, start);
    assert packed[..4] == SIGNATURE && packed[4..] == EncodeAll(xs);
    NumbersOfEncoded(xs);
    assert xs[2..] == body;
    GroupsRoundTrip(groups, Running(start, 0, 0), 0, n);
  }

  /** Every list has a legal grouping, for instance one group that shares nothing. */
  lemma {:induction false} UngroupedIsLegal(relas: seq<Rela>, st: Running)
    ensures LegalEntries(relas, st, ShapeOf(8), 0)
    ensures Legal([Group(8, relas)], st) && Flatten([Group(8, relas)]) == relas
  {
    if relas != [] {
      UngroupedIsLegal(relas[1..], After(relas[0]));
    }
    assert [Group(8, relas)][1..] == [];
    assert relas + Flatten([]) == relas;
    LegalEntriesDelta(relas, st, ShapeOf(8), 0, Delta(Group(8, relas), st));
  }

  // ---- what the flag bits mean -------------------------------------------------------

  // The stream once more, written number by number: bit 1 shares the info, bit 2 the offset delta,
  // bit 8 says that there are addends and bit 4 that they are shared. Nothing here goes by `ShapeOf`.

  /** One relocation's numbers; which of them are written is up to the flags of its group. */
  datatype Numbered = Numbered(delta: u64, info: u64, addend: u64)

  /** A group as it stands in the stream, with the shared numbers that its flags may ask for. */
  datatype Wire = Wire(flags: u64, delta: u64, info: u64, addend: u64, entries: seq<Numbered>)

  function EntryNumbers(flags: u64, e: Numbered): seq<u64> {
    (if (flags / 2) % 2 == 0 then [e.delta] else []) +
    (if flags % 2 == 0 then [e.info] else []) +
    (if (flags / 8) % 2 == 1 && (flags / 4) % 2 == 0 then [e.addend] else [])
  }

  function AllEntryNumbers(flags: u64, entries: seq<Numbered>): seq<u64> {
    if entries == [] then [] else EntryNumbers(flags, entries[0]) + AllEntryNumbers(flags, entries[1..])
  }

  function WireNumbers(g: Wire): seq<u64>
    requires |g.entries| < 0x1_0000_0000_0000_0000
  {
    [|g.entries|, g.flags] +
    (if (g.flags / 2) % 2 == 1 then [g.delta] else []) +
    (if g.flags % 2 == 1 then [g.info] else []) +
    (if (g.flags / 8) % 2 == 1 && (g.flags / 4) % 2 == 1 then [g.addend] else []) +
    AllEntryNumbers(g.flags, g.entries)
  }

  /** The addend before the first relocation of a group. */
  function AddendBefore(g: Wire, addend: u64): u64 {
    if (g.flags / 8) % 2 == 0 then 0
    else if (g.flags / 4) % 2 == 1 then Wrap64(addend + g.addend)
    else addend
  }

  /** The relocation that entry `e` stands for when the one before it was `last`. */
  function Next(g: Wire, last: Rela, e: Numbered): Rela {
    Rela(Wrap64(last.offset + (if (g.flags / 2) % 2 == 1 then g.delta else e.delta)),
         if g.flags % 2 == 1 then g.info else e.info,
         Wrap64(last.addend + (if (g.flags / 8) % 2 == 1 && (g.flags / 4) % 2 == 0 then e.addend else 0)))
  }

  function MeantFrom(g: Wire, last: Rela, entries: seq<Numbered>): (r: seq<Rela>)
    ensures |r| == |entries|
    decreases |entries|
  {
    if entries == [] then [] else [Next(g, last, entries[0])] + MeantFrom(g, Next(g, last, entries[0]), entries[1..])
  }

  /** What the running values stand at before the first relocation of the group, after `last`. */
  function Before(g: Wire, last: Rela): Rela {
    Rela(last.offset, if g.flags % 2 == 1 then g.info else last.info, AddendBefore(g, last.addend))
  }

  function Meant(g: Wire, last: Rela): seq<Rela> {
    MeantFrom(g, Before(g, last), g.entries)
  }

  function LastOf(g: Wire, last: Rela): Rela {
    if g.entries == [] then Before(g, last) else Meant(g, last)[|g.entries| - 1]
  }

  lemma EntryMeans(g: Wire, last: Rela, e: Numbered, delta: u64, tail: seq<u64>)
    requires g.flags % 2 == 1 ==> last.info == g.info
    requires (g.flags / 2) % 2 == 1 ==> delta == g.delta
    ensures DecodeEntry(EntryNumbers(g.flags, e) + tail, After(last), ShapeOf(g.flags), delta) ==
            Ok((After(Next(g, last, e)), tail))
  {
    var shape := ShapeOf(g.flags);
    assert EntryNumbers(g.flags, e) == EncodeFields(shape, e.delta, e.info, e.addend);
    FieldsRoundTrip(After(last), shape, delta, e.delta, e.info, e.addend, tail);
  }

  lemma {:induction false} EntriesMean(g: Wire, last: Rela, entries: seq<Numbered>, delta: u64, tail: seq<u64>)
    requires g.flags % 2 == 1 ==> last.info == g.info
    requires (g.flags / 2) % 2 == 1 ==> delta == g.delta
    ensures DecodeEntries(AllEntryNumbers(g.flags, entries) + tail, After(last), ShapeOf(g.flags), delta, |entries|) ==
            Ok((MeantFrom(g, last, entries), Closed(MeantFrom(g, last, entries), After(last)), tail))
    decreases |entries|
  {
    if entries == [] {
      assert [] + tail == tail;
    } else {
      var rest, next := AllEntryNumbers(g.flags, entries[1..]) + tail, Next(g, last, entries[0]);
      assert AllEntryNumbers(g.flags, entries) + tail == EntryNumbers(g.flags, entries[0]) + rest;
      EntryMeans(g, last, entries[0], delta, rest);
      EntriesMean(g, next, entries[1..], delta, tail);
      EntryDecoded(AllEntryNumbers(g.flags, entries) + tail, last, next, ShapeOf(g.flags), delta, rest, |entries| - 1,
                   MeantFrom(g, next, entries[1..]), tail);
    }
  }

  lemma {:induction false} EntryDecoded(xs: seq<u64>, last: Rela, next: Rela, shape: Shape, delta: u64, rest: seq<u64>, n: nat,
                                        relas: seq<Rela>, tail: seq<u64>)
    requires DecodeEntry(xs, After(last), shape, delta) == Ok((After(next), rest))
    requires DecodeEntries(rest, After(next), shape, delta, n) == Ok((relas, Closed(relas, After(next)), tail))
    ensures DecodeEntries(xs, After(last), shape, delta, n + 1)
            == Ok(([next] + relas, Closed([next] + relas, After(last)), tail))
  {
    assert AsRela(After(next)) == next;
  }

  lemma HeaderMeans(g: Wire, last: Rela, tail: seq<u64>)
    requires |g.entries| < 0x1_0000_0000_0000_0000
    ensures DecodeHeader(WireNumbers(g) + tail, After(last)) ==
            Ok((Header(|g.entries|, ShapeOf(g.flags), if (g.flags / 2) % 2 == 1 then g.delta else 0, After(Before(g, last))),
                AllEntryNumbers(g.flags, g.entries) + tail))
  {
    var shape := ShapeOf(g.flags);
    var e5 := AllEntryNumbers(g.flags, g.entries) + tail;
    var e4 := EncodeIf(shape.SharedAddend(), g.addend) + e5;
    var e3 := EncodeIf(shape.byInfo, g.info) + e4;
    var xs := WireNumbers(g) + tail;
    HeaderSplit(g, shape, tail);
    PopIfEncoded(shape.byDelta, g.delta, 0, e3);
    PopIfEncoded(shape.byInfo, g.info, last.info, e4);
    PopIfEncoded(shape.SharedAddend(), g.addend, 0, e5);
  }

  lemma HeaderSplit(g: Wire, shape: Shape, tail: seq<u64>)
    requires |g.entries| < 0x1_0000_0000_0000_0000 && shape == ShapeOf(g.flags)
    ensures var xs := WireNumbers(g) + tail;
            && |xs| >= 2 && xs[0] == |g.entries| && xs[1] == g.flags
            && xs[2..] == EncodeIf(shape.byDelta, g.delta) + (EncodeIf(shape.byInfo, g.info) +
                            (EncodeIf(shape.SharedAddend(), g.addend) + (AllEntryNumbers(g.flags, g.entries) + tail)))
  {
    var a, b, c := EncodeIf(shape.byDelta, g.delta), EncodeIf(shape.byInfo, g.info), EncodeIf(shape.SharedAddend(), g.addend);
    FiveParts([|g.entries|, g.flags], a, b, c, AllEntryNumbers(g.flags, g.entries), tail);
  }

  lemma FiveParts(h: seq<u64>, a: seq<u64>, b: seq<u64>, c: seq<u64>, d: seq<u64>, tail: seq<u64>)
    requires |h| == 2
    ensures var xs := h + a + b + c + d + tail;
            xs[0] == h[0] && xs[1] == h[1] && xs[2..] == a + (b + (c + (d + tail)))
  {
  }

  /** For every flags value, a group decodes to what its numbers mean. */
  lemma GroupMeans(g: Wire, last: Rela, tail: seq<u64>)
    requires |g.entries| < 0x1_0000_0000_0000_0000
    ensures DecodeGroup(WireNumbers(g) + tail, After(last)) ==
            Ok((Decoded(|g.entries|, Meant(g, last), After(LastOf(g, last))), tail))
  {
    HeaderMeans(g, last, tail);
    EntriesMean(g, Before(g, last), g.entries, if (g.flags / 2) % 2 == 1 then g.delta else 0, tail);
  }

  function TotalSize(groups: seq<Wire>): nat {
    if groups == [] then 0 else |groups[0].entries| + TotalSize(groups[1..])
  }

  function AllNumbers(groups: seq<Wire>): seq<u64>
    requires TotalSize(groups) < 0x1_0000_0000_0000_0000
  {
    if groups == [] then [] else WireNumbers(groups[0]) + AllNumbers(groups[1..])
  }

  function AllMeant(groups: seq<Wire>, last: Rela): seq<Rela>
    decreases |groups|
  {
    if groups == [] then [] else Meant(groups[0], last) + AllMeant(groups[1..], LastOf(groups[0], last))
  }

  lemma {:induction false} NothingMeant(groups: seq<Wire>, last: Rela)
    requires TotalSize(groups) == 0
    ensures AllMeant(groups, last) == []
    decreases |groups|
  {
    if groups != [] {
      NothingMeant(groups[1..], LastOf(groups[0], last));
    }
  }

  lemma {:induction false} GroupsMean(groups: seq<Wire>, last: Rela, idx: u64, total: u64, tail: seq<u64>)
    requires idx + TotalSize(groups) == total
    ensures DecodeGroups(AllNumbers(groups) + tail, After(last), idx, total) == Ok(AllMeant(groups, last))
    decreases |groups|
  {
    if idx == total {
      NothingMeant(groups, last);
    } else {
      var g, next := groups[0], LastOf(groups[0], last);
      var rest := AllNumbers(groups[1..]) + tail;
      GroupsMean(groups[1..], next, idx + |g.entries|, total, tail);
      FirstGroupMeans(groups, last, tail);
      GroupDecoded(AllNumbers(groups) + tail, After(last), idx, total, |g.entries|, Meant(g, last), After(next), rest,
                   AllMeant(groups[1..], next));
    }
  }

  lemma {:induction false} FirstGroupMeans(groups: seq<Wire>, last: Rela, tail: seq<u64>)
    requires groups != [] && TotalSize(groups) < 0x1_0000_0000_0000_0000
    ensures var g := groups[0];
            DecodeGroup(AllNumbers(groups) + tail, After(last)) ==
            Ok((Decoded(|g.entries|, Meant(g, last), After(LastOf(g, last))), AllNumbers(groups[1..]) + tail))
  {
    var rest := AllNumbers(groups[1..]) + tail;
    assert AllNumbers(groups) + tail == WireNumbers(groups[0]) + rest;
    GroupMeans(groups[0], last, rest);
  }

  /** Main result on the flag bits: a whole table of groups, whatever their flags, means relocation by
      relocation what its numbers say. Running values start at the given offset, info 0 and addend 0. */
  lemma PackedMeans(groups: seq<Wire>, start: u64)
    requires TotalSize(groups) < 0x1_0000_0000_0000_0000
    ensures DecodePacked([0x41, 0x50, 0x53, 0x32] + EncodeAll([TotalSize(groups), start] + AllNumbers(groups)))
            == Ok(AllMeant(groups, Rela(start, 0, 0)))
  {
    var xs := [TotalSize(groups), start] + AllNumbers(groups);
    var packed := [0x41, 0x50, 0x53, 0x32] + EncodeAll(xs);
    assert packed[..4] == [0x41, 0x50, 0x53, 0x32] && packed[4..] == EncodeAll(xs);
    NumbersOfEncoded(xs);
    assert xs[2..] == AllNumbers(groups) + [];
    GroupsMean(groups, Rela(start, 0, 0), 0, TotalSize(groups), []);
  }

  /** What a list needs to be written under some flags: equal steps for bit 2, the info for bit 1, and
      no change of addend unless each has its own. */
  predicate Suits(flags: u64, delta: u64, info: u64, last: Rela, relas: seq<Rela>)
    decreases |relas|
  {
    relas != [] ==>
      && ((flags / 2) % 2 == 1 ==> relas[0].offset == Wrap64(last.offset + delta))
      && (flags % 2 == 1 ==> relas[0].info == info)
      && (!((flags / 8) % 2 == 1 && (flags / 4) % 2 == 0) ==> relas[0].addend == last.addend)
      && Suits(flags, delta, info, relas[0], relas[1..])
  }

  function Differences(last: Rela, relas: seq<Rela>): (r: seq<Numbered>)
    ensures |r| == |relas|
    decreases |relas|
  {
    if relas == [] then []
    else [Numbered(Wrap64(relas[0].offset - last.offset), relas[0].info, Wrap64(relas[0].addend - last.addend))]
         + Differences(relas[0], relas[1..])
  }

  /** Under any flags, a list that suits them is what its differences mean. */
  lemma {:induction false} DifferencesMean(g: Wire, last: Rela, relas: seq<Rela>)
    requires Suits(g.flags, g.delta, g.info, last, relas)
    ensures MeantFrom(g, last, Differences(last, relas)) == relas
    decreases |relas|
  {
    if relas != [] {
      var entries := Differences(last, relas);
      Restore(last.offset, relas[0].offset);
      Restore(last.addend, relas[0].addend);
      assert Next(g, last, entries[0]) == relas[0];
      assert entries[1..] == Differences(relas[0], relas[1..]);
      DifferencesMean(g, relas[0], relas[1..]);
      assert [relas[0]] + relas[1..] == relas;
    }
  }

  /** A step and an addend for each relocation. */
  function StepsAndAddends(last: Rela, relas: seq<Rela>): seq<u64>
    decreases |relas|
  {
    if relas == [] then []
    else [Wrap64(relas[0].offset - last.offset), Wrap64(relas[0].addend - last.addend)]
         + StepsAndAddends(relas[0], relas[1..])
  }

  /** The usual group, flags 9: one info for all, then a step and an addend each. */
  lemma SharedInfoMeans(relas: seq<Rela>, last: Rela, info: u64, tail: seq<u64>)
    requires |relas| < 0x1_0000_0000_0000_0000 && forall i :: 0 <= i < |relas| ==> relas[i].info == info
    ensures var r := DecodeGroup([|relas|, 9, info] + StepsAndAddends(last, relas) + tail, After(last));
            r.Ok? && r.value.0.relas == relas && r.value.1 == tail
  {
    var from := Rela(last.offset, info, last.addend);
    var g := Wire(9, 0, info, 0, Differences(from, relas));
    StepsWritten(from, relas);
    SharedSuits(from, info, relas);
    DifferencesMean(g, from, relas);
    StepsFrom(last, from, relas);
    assert WireNumbers(g) == [|relas|, 9, info] + StepsAndAddends(last, relas);
    GroupMeans(g, last, tail);
  }

  lemma {:induction false} StepsWritten(last: Rela, relas: seq<Rela>)
    ensures AllEntryNumbers(9, Differences(last, relas)) == StepsAndAddends(last, relas)
    decreases |relas|
  {
    if relas != [] {
      var entries := Differences(last, relas);
      assert entries[1..] == Differences(relas[0], relas[1..]);
      StepsWritten(relas[0], relas[1..]);
    }
  }

  lemma StepsFrom(last: Rela, from: Rela, relas: seq<Rela>)
    requires from.offset == last.offset && from.addend == last.addend
    ensures StepsAndAddends(last, relas) == StepsAndAddends(from, relas)
  {
  }

  lemma {:induction false} SharedSuits(last: Rela, info: u64, relas: seq<Rela>)
    requires forall i :: 0 <= i < |relas| ==> relas[i].info == info
    ensures Suits(9, 0, info, last, relas)
    decreases |relas|
  {
    if relas != [] {
      SharedSuits(relas[0], info, relas[1..]);
    }
  }

  // ---- the linker's loops ---------------------------------------------------------

  /** Reading an optional number from the decoder. */
  method PopNumberIf(dec: Decoder, wanted: bool, default: u64) returns (r: Option<u64>)
    requires dec.current <= |dec.buffer|
    modifies dec
    ensures dec.current <= |dec.buffer|
    ensures PopIf(wanted, old(dec.Rest()), default) ==
            if r.Some? then Ok((r.value, dec.Rest())) else Err
  {
    r := Some(default);
    if wanted {
      r := dec.PopFront();
      assert r.Some? ==> ([r.value] + dec.Rest())[1..] == dec.Rest();
    }
  }

  method PopHeader(dec: Decoder, st: Running) returns (r: Option<Header>)
    requires dec.current <= |dec.buffer|
    modifies dec
    ensures dec.current <= |dec.buffer|
    ensures DecodeHeader(old(dec.Rest()), st) == if r.Some? then Ok((r.value, dec.Rest())) else Err
  {
    ghost var xs := dec.Rest();
    var size := dec.PopFront();
    if size.None? { return None; }
    assert xs[1..] == dec.Rest();
    var flags := dec.PopFront();
    if flags.None? { return None; }
    assert xs[2..] == dec.Rest();
    var shape := ShapeOf(flags.value);
    var delta := PopNumberIf(dec, shape.byDelta, 0);
    if delta.None? { return None; }
    var info := PopNumberIf(dec, shape.byInfo, st.info);
    if info.None? { return None; }
    var a := PopNumberIf(dec, shape.SharedAddend(), 0);
    if a.None? { return None; }
    var addend := if shape.hasAddend then Add64(st.addend, a.value) else 0;
    r := Some(Header(size.value, shape, delta.value, Running(st.offset, info.value, addend)));
  }

  method PopEntry(dec: Decoder, st: Running, shape: Shape, delta: u64) returns (r: Option<Running>)
    requires dec.current <= |dec.buffer|
    modifies dec
    ensures dec.current <= |dec.buffer|
    ensures DecodeEntry(old(dec.Rest()), st, shape, delta) == if r.Some? then Ok((r.value, dec.Rest())) else Err
  {
    var d := PopNumberIf(dec, !shape.byDelta, delta);
    if d.None? { return None; }
    var info := PopNumberIf(dec, !shape.byInfo, st.info);
    if info.None? { return None; }
    var a := PopNumberIf(dec, shape.EachAddend(), 0);
    if a.None? { return None; }
    r := Some(Running(Add64(st.offset, d.value), info.value, Add64(st.addend, a.value)));
  }

  function Continue(done: seq<Rela>, r: Result<(seq<Rela>, Running, seq<u64>)>)
    : Result<(seq<Rela>, Running, seq<u64>)>
  {
    if r.Ok? then Ok((done + r.value.0, r.value.1, r.value.2)) else Err
  }

  method ApplyEntries(ram: AddressSpace, dec: Decoder, base: u64, env: Symbols, h: Header)
    returns (r: Option<Running>, ghost relas: seq<Rela>)
    requires dec.current <= |dec.buffer|
    modifies ram, dec
    ensures dec.current <= |dec.buffer|
    ensures DecodeEntries(old(dec.Rest()), h.st, h.shape, h.delta, h.size) ==
            if r.Some? then Ok((relas, r.value, dec.Rest())) else Err
    ensures r.Some? ==> ram.words == RelaAll(old(ram.words), base, env, relas)
  {
    var st := h.st;
    relas := [];
    ghost var goal := DecodeEntries(dec.Rest(), h.st, h.shape, h.delta, h.size);
    assert goal.Ok? ==> [] + goal.value.0 == goal.value.0;
    var i := 0;
    while i < h.size
      invariant i <= h.size && dec.current <= |dec.buffer|
      invariant goal == Continue(relas, DecodeEntries(dec.Rest(), st, h.shape, h.delta, h.size - i))
      invariant ram.words == RelaAll(old(ram.words), base, env, relas)
    {
      var next := PopEntry(dec, st, h.shape, h.delta);
      if next.None? {
        return None, relas;
      }
      st := next.value;
      ghost var tail := DecodeEntries(dec.Rest(), st, h.shape, h.delta, h.size - i - 1);
      assert tail.Ok? ==> relas + ([AsRela(st)] + tail.value.0) == (relas + [AsRela(st)]) + tail.value.0;
      RelaAllConcat(old(ram.words), base, env, relas, [AsRela(st)]);
      ApplyRela(ram, base, env, [AsRela(st)]);
      relas := relas + [AsRela(st)];
      i := i + 1;
    }
    assert relas + [] == relas;
    r := Some(st);
  }

  function Then(done: seq<Rela>, r: Result<seq<Rela>>): Result<seq<Rela>> {
    if r.Ok? then Ok(done + r.value) else Err
  }

  /** The whole decoder: `ok` is false when the linker exits with a fatal error. */
  method ApplyAndroidRela(ram: AddressSpace, base: u64, env: Symbols, packed: seq<byte>) returns (ok: bool)
    modifies ram
    ensures ok == DecodePacked(packed).Ok?
    ensures ok ==> ram.words == RelaAll(old(ram.words), base, env, DecodePacked(packed).value)
  {
    if |packed| < 4 { return true; }
    if packed[..4] != SIGNATURE { return false; }
    var dec := new Decoder(packed, 4);
    ghost var xs := dec.Rest();
    var total := dec.PopFront();
    if total.None? { return false; }
    assert xs[1..] == dec.Rest();
    var start := dec.PopFront();
    if start.None? { return false; }
    assert xs[2..] == dec.Rest();
    ok := ApplyGroups(ram, dec, base, env, Running(start.value, 0, 0), total.value);
  }

  method ApplyGroup(ram: AddressSpace, dec: Decoder, base: u64, env: Symbols, st: Running)
    returns (size: u64, next: Option<Running>, ghost relas: seq<Rela>)
    requires dec.current <= |dec.buffer|
    modifies ram, dec
    ensures dec.current <= |dec.buffer|
    ensures DecodeGroup(old(dec.Rest()), st) ==
            if next.Some? then Ok((Decoded(size, relas, next.value), dec.Rest())) else Err
    ensures next.Some? ==> ram.words == RelaAll(old(ram.words), base, env, relas)
  {
    var h := PopHeader(dec, st);
    if h.None? { return 0, None, []; }
    size := h.value.size;
    next, relas := ApplyEntries(ram, dec, base, env, h.value);
  }

  method ApplyGroups(ram: AddressSpace, dec: Decoder, base: u64, env: Symbols, start: Running, total: u64)
    returns (ok: bool)
    requires dec.current <= |dec.buffer|
    modifies ram, dec
    ensures ok == DecodeGroups(old(dec.Rest()), start, 0, total).Ok?
    ensures ok ==> ram.words ==
                   RelaAll(old(ram.words), base, env, DecodeGroups(old(dec.Rest()), start, 0, total).value)
  {
    var st, idx: u64 := start, 0;
    ghost var done: seq<Rela>, goal := [], DecodeGroups(dec.Rest(), start, 0, total);
    assert goal.Ok? ==> [] + goal.value == goal.value;
    while idx < total
      invariant dec.current <= |dec.buffer|
      invariant goal == Then(done, DecodeGroups(dec.Rest(), st, idx, total))
      invariant ram.words == RelaAll(old(ram.words), base, env, done)
      decreases |dec.Rest()|
    {
      ghost var tail := DecodeGroups(dec.Rest(), st, idx, total);
      var size, next, relas := ApplyGroup(ram, dec, base, env, st);
      if next.None? { return false; }
      RelaAllConcat(old(ram.words), base, env, done, relas);
      ThenThen(done, relas, DecodeGroups(dec.Rest(), next.value, Add64(idx, size), total));
      done := done + relas;
      st, idx := next.value, Add64(idx, size);
    }
    assert done + [] == done;
    ok := true;
  }

  lemma ThenThen(a: seq<Rela>, b: seq<Rela>, r: Result<seq<Rela>>)
    ensures Then(a, Then(b, r)) == Then(a + b, r)
  {
    assert r.Ok? ==> a + (b + r.value) == (a + b) + r.value;
  }
}
