/** Archives as a writer lays them out, and the round trip through the reader. */
module ZipArchive {
  import opened Words
  import opened Zip

  /** One member: what the reader uses, and the header bytes it skips (`localHead`, `made`, `stamp`,
      `attributes`), which may hold anything. */
  datatype Member = Member(
    name: seq<byte>, payload: seq<byte>, flags: u16, method_: u16, fullSize: u32,
    localHead: seq<byte>, localName: seq<byte>, localExtra: seq<byte>,
    made: seq<byte>, stamp: seq<byte>, attributes: seq<byte>, extra: seq<byte>, comment: seq<byte>)

  /** Bytes before the first record, members, bytes between the records and the directory (where a
      signing block lives), the skipped part of the end record, and the archive comment. */
  datatype Archive = Archive(
    front: seq<byte>, members: seq<Member>, gap: seq<byte>, endHead: seq<byte>, comment: seq<byte>)

  predicate Short(s: seq<byte>) {
    |s| < 0x1_0000
  }

  predicate MemberFits(m: Member) {
    && |m.localHead| == 22 && |m.made| == 4 && |m.stamp| == 8 && |m.attributes| == 8
    && Short(m.name) && Short(m.localName) && Short(m.localExtra) && Short(m.extra) && Short(m.comment)
  }

  // ---- layout --------------------------------------------------------------------------------------

  function LocalRecord(m: Member): seq<byte> {
    LeBytes(LOC_SIG, 4) + (m.localHead + (LeBytes(|m.localName|, 2) + (LeBytes(|m.localExtra|, 2) +
      (m.localName + (m.localExtra + m.payload)))))
  }

  function CentralRecord(m: Member, at: nat): seq<byte> {
    CentralHead(m) + (CentralSizes(m) + (CentralTail(m, at) + (m.name + (m.extra + m.comment))))
  }

  function CentralHead(m: Member): seq<byte> {
    LeBytes(CEN_SIG, 4) + (m.made + (LeBytes(m.flags, 2) + (LeBytes(m.method_, 2) + m.stamp)))
  }

  function CentralSizes(m: Member): seq<byte> {
    LeBytes(|m.payload|, 4) + (LeBytes(m.fullSize, 4) + (LeBytes(|m.name|, 2) + (LeBytes(|m.extra|, 2) + LeBytes(|m.comment|, 2))))
  }

  function CentralTail(m: Member, at: nat): seq<byte> {
    m.attributes + LeBytes(at, 4)
  }

  /** The lengths of the two records of a member. */
  function LocalSize(m: Member): nat {
    30 + |m.localName| + |m.localExtra| + |m.payload|
  }

  function CentralSize(m: Member): nat {
    46 + |m.name| + |m.extra| + |m.comment|
  }

  function LocalsSize(ms: seq<Member>): nat {
    if ms == [] then 0 else LocalSize(ms[0]) + LocalsSize(ms[1..])
  }

  function Locals(ms: seq<Member>): seq<byte> {
    if ms == [] then [] else LocalRecord(ms[0]) + Locals(ms[1..])
  }

  function Central(ms: seq<Member>, at: nat): seq<byte> {
    if ms == [] then [] else CentralRecord(ms[0], at) + Central(ms[1..], at + LocalSize(ms[0]))
  }

  function EndRecord(a: Archive): seq<byte> {
    LeBytes(EOCD_SIG, 4) + (a.endHead + (LeBytes(|a.members|, 2) + (LeBytes(|Central(a.members, |a.front|)|, 4) +
      (LeBytes(CentralOffset(a), 4) + (LeBytes(|a.comment|, 2) + a.comment)))))
  }

  function CentralOffset(a: Archive): nat {
    |a.front| + |Locals(a.members)| + |a.gap|
  }

  function EndOffset(a: Archive): nat {
    CentralOffset(a) + |Central(a.members, |a.front|)|
  }

  function Write(a: Archive): seq<byte> {
    a.front + (Locals(a.members) + (a.gap + (Central(a.members, |a.front|) + EndRecord(a))))
  }

  /** Every field the writer has to fill holds its value: counts, lengths and offsets. */
  predicate Writable(a: Archive) {
    && |a.members| < 0x1_0000 && |a.endHead| == 6 && Short(a.comment)
    && EndOffset(a) < 0xffff_ffff
    && AllFit(a.members)
  }

  /** What the reader should report for the members. */
  function Listing(ms: seq<Member>, at: nat): (r: seq<ZipEntry>)
    ensures |r| == |ms|
  {
    if ms == [] then []
    else [Listed(ms[0], at)] + Listing(ms[1..], at + LocalSize(ms[0]))
  }

  function Listed(m: Member, at: nat): ZipEntry {
    ZipEntry(m.name, m.flags, m.method_, |m.payload|, m.fullSize, at)
  }

  function Meaning(m: Member, inflate: Inflate): Result<seq<byte>> {
    if m.method_ == 0 then Ok(m.payload) else if m.method_ == 8 then inflate(m.payload, m.fullSize) else Err
  }

  // ---- pieces at offsets -----------------------------------------------------------------------------

  predicate At(data: seq<byte>, off: nat, piece: seq<byte>) {
    off + |piece| <= |data| && data[off..off + |piece|] == piece
  }

  lemma Split(data: seq<byte>, off: nat, a: seq<byte>, b: seq<byte>)
    requires At(data, off, a + b)
    ensures At(data, off, a) && At(data, off + |a|, b)
  {
    var whole := data[off..off + |a + b|];
    assert whole[..|a|] == a && whole[|a|..] == b;
    assert data[off..off + |a|] == whole[..|a|];
    assert data[off + |a|..off + |a| + |b|] == whole[|a|..];
  }

  lemma Field(data: seq<byte>, off: nat, v: nat, n: nat, rest: seq<byte>)
    requires At(data, off, LeBytes(v, n) + rest) && v < Pow256(n)
    ensures off + n <= |data| && Le(data, off, n) == v && At(data, off + n, rest)
  {
    Split(data, off, LeBytes(v, n), rest);
    LeRoundTrip(v, n);
  }

  lemma LastField(data: seq<byte>, off: nat, v: nat, n: nat)
    requires At(data, off, LeBytes(v, n)) && v < Pow256(n)
    ensures off + n <= |data| && Le(data, off, n) == v
  {
    LeRoundTrip(v, n);
  }

  // ---- one record --------------------------------------------------------------------------------------

  lemma HeadFields(data: seq<byte>, off: nat, m: Member)
    requires At(data, off, CentralHead(m)) && MemberFits(m)
    ensures off + 20 <= |data| && |CentralHead(m)| == 20
    ensures Le(data, off, 4) == CEN_SIG && Le(data, off + 8, 2) == m.flags && Le(data, off + 10, 2) == m.method_
  {
    Pow256Values();
    var r3 := LeBytes(m.method_, 2) + m.stamp;
    var r2 := LeBytes(m.flags, 2) + r3;
    Field(data, off, CEN_SIG, 4, m.made + r2);
    Split(data, off + 4, m.made, r2);
    Field(data, off + 8, m.flags, 2, r3);
    Field(data, off + 10, m.method_, 2, m.stamp);
  }

  lemma SizeFields(data: seq<byte>, off: nat, m: Member)
    requires At(data, off, CentralSizes(m)) && MemberFits(m) && |m.payload| < 0x1_0000_0000
    ensures off + 14 <= |data| && |CentralSizes(m)| == 14
    ensures Le(data, off, 4) == |m.payload| && Le(data, off + 4, 4) == m.fullSize
    ensures Le(data, off + 8, 2) == |m.name| && Le(data, off + 10, 2) == |m.extra| && Le(data, off + 12, 2) == |m.comment|
  {
    Pow256Values();
    var r4 := LeBytes(|m.extra|, 2) + LeBytes(|m.comment|, 2);
    var r3 := LeBytes(|m.name|, 2) + r4;
    Field(data, off, |m.payload|, 4, LeBytes(m.fullSize, 4) + r3);
    Field(data, off + 4, m.fullSize, 4, r3);
    Field(data, off + 8, |m.name|, 2, r4);
    Field(data, off + 10, |m.extra|, 2, LeBytes(|m.comment|, 2));
    LastField(data, off + 12, |m.comment|, 2);
  }

  lemma CentralParts(data: seq<byte>, off: nat, m: Member, at: nat)
    requires At(data, off, CentralRecord(m, at)) && MemberFits(m) && |m.payload| < 0x1_0000_0000 && at < 0x1_0000_0000
    ensures At(data, off, CentralHead(m)) && At(data, off + 20, CentralSizes(m))
    ensures off + 46 <= |data| && Le(data, off + 42, 4) == at
    ensures At(data, off + 46, m.name) && |CentralRecord(m, at)| == 46 + |m.name| + |m.extra| + |m.comment|
  {
    Pow256Values();
    var names := m.name + (m.extra + m.comment);
    var rest := CentralTail(m, at) + names;
    Split(data, off, CentralHead(m), CentralSizes(m) + rest);
    Split(data, off + 20, CentralSizes(m), rest);
    Split(data, off + 34, CentralTail(m, at), names);
    Split(data, off + 34, m.attributes, LeBytes(at, 4));
    LastField(data, off + 42, at, 4);
    Split(data, off + 46, m.name, m.extra + m.comment);
  }

  /** A written record reads back as its entry, and the reader steps to its end. */
  lemma CentralReads(data: seq<byte>, off: nat, m: Member, at: nat)
    requires At(data, off, CentralRecord(m, at)) && MemberFits(m) && |m.payload| < 0x1_0000_0000 && at < 0x1_0000_0000
    ensures EntryFits(data, off) && EntrySize(data, off) == |CentralRecord(m, at)| == CentralSize(m)
    ensures EntryAt(data, off) == ZipEntry(m.name, m.flags, m.method_, |m.payload|, m.fullSize, at)
  {
    CentralParts(data, off, m, at);
    HeadFields(data, off, m);
    SizeFields(data, off + 20, m);
  }

  lemma LocalReads(data: seq<byte>, off: nat, m: Member, inflate: Inflate, name: seq<byte>, flags: nat)
    requires At(data, off, LocalRecord(m)) && MemberFits(m)
    ensures Extract(data, ZipEntry(name, flags, m.method_, |m.payload|, m.fullSize, off), inflate) == Meaning(m, inflate)
  {
    Pow256Values();
    var names := m.localName + (m.localExtra + m.payload);
    var r3 := LeBytes(|m.localExtra|, 2) + names;
    var r2 := LeBytes(|m.localName|, 2) + r3;
    Field(data, off, LOC_SIG, 4, m.localHead + r2);
    Split(data, off + 4, m.localHead, r2);
    Field(data, off + 26, |m.localName|, 2, r3);
    Field(data, off + 28, |m.localExtra|, 2, names);
    LocalPayload(data, off + 30, m);
  }

  lemma LocalPayload(data: seq<byte>, off: nat, m: Member)
    requires At(data, off, m.localName + (m.localExtra + m.payload))
    ensures At(data, off + |m.localName| + |m.localExtra|, m.payload)
  {
    Split(data, off, m.localName, m.localExtra + m.payload);
    Split(data, off + |m.localName|, m.localExtra, m.payload);
  }

  // ---- all records -------------------------------------------------------------------------------------

  predicate AllFit(ms: seq<Member>) {
    forall i :: 0 <= i < |ms| ==> MemberFits(ms[i])
  }

  lemma FirstFits(ms: seq<Member>)
    requires ms != [] && AllFit(ms)
    ensures MemberFits(ms[0]) && AllFit(ms[1..])
  {
  }

  lemma {:induction false} LocalLength(m: Member)
    requires MemberFits(m)
    ensures |LocalRecord(m)| == LocalSize(m)
  {
  }

  lemma {:induction false} LocalsLength(ms: seq<Member>)
    requires AllFit(ms)
    ensures |Locals(ms)| == LocalsSize(ms)
  {
    if ms != [] {
      FirstFits(ms);
      LocalLength(ms[0]);
      LocalsLength(ms[1..]);
    }
  }

  /** The directory walk over the records at `off` lists the members. */
  ghost predicate Lists(data: seq<byte>, off: nat, ms: seq<Member>, at: nat) {
    Walk(data, off, |ms|) == Ok(Listing(ms, at))
  }

  /** Payloads and offsets fit their 32-bit fields as long as the local records end below 2^32. */
  ghost predicate Written(data: seq<byte>, off: nat, ms: seq<Member>, at: nat) {
    At(data, off, Central(ms, at)) && AllFit(ms) && at + LocalsSize(ms) < 0xffff_ffff
  }

  predicate FirstReads(data: seq<byte>, off: nat, m: Member, at: nat) {
    EntryFits(data, off) && EntrySize(data, off) == CentralSize(m) && EntryAt(data, off) == Listed(m, at)
  }

  lemma {:induction false} WalkWritten(data: seq<byte>, off: nat, ms: seq<Member>, at: nat)
    requires Written(data, off, ms, at)
    ensures Lists(data, off, ms, at)
    decreases |ms|
  {
    if ms == [] {
      NoneListed(data, off, ms, at);
    } else {
      var off', at' := FirstWritten(data, off, ms, at);
      WalkWritten(data, off', ms[1..], at');
      FirstListed(data, off, ms, at, off', at');
    }
  }

  lemma {:induction false} NoneListed(data: seq<byte>, off: nat, ms: seq<Member>, at: nat)
    requires ms == []
    ensures Lists(data, off, ms, at)
  {
  }

  /** What the first record of a written directory reads back as, and where the others are. */
  lemma {:induction false} FirstWritten(data: seq<byte>, off: nat, ms: seq<Member>, at: nat) returns (off': nat, at': nat)
    requires ms != [] && Written(data, off, ms, at)
    ensures FirstReads(data, off, ms[0], at) && off' == off + CentralSize(ms[0]) && at' == at + LocalSize(ms[0])
    ensures Written(data, off', ms[1..], at')
  {
    off', at' := off + CentralSize(ms[0]), at + LocalSize(ms[0]);
    FirstFits(ms);
    Split(data, off, CentralRecord(ms[0], at), Central(ms[1..], at'));
    CentralReads(data, off, ms[0], at);
  }

  lemma {:induction false} FirstListed(data: seq<byte>, off: nat, ms: seq<Member>, at: nat, off': nat, at': nat)
    requires ms != [] && FirstReads(data, off, ms[0], at)
    requires off' == off + CentralSize(ms[0]) && at' == at + LocalSize(ms[0]) && Lists(data, off', ms[1..], at')
    ensures Lists(data, off, ms, at)
  {
    var m, rest := ms[0], Listing(ms[1..], at');
    assert Listing(ms, at) == [Listed(m, at)] + rest;
    WalkCons(data, off, m, at, |ms|, rest);
  }

  lemma {:induction false} WalkCons(data: seq<byte>, off: nat, m: Member, at: nat, n: nat, rest: seq<ZipEntry>)
    requires n > 0 && FirstReads(data, off, m, at) && Walk(data, off + CentralSize(m), n - 1) == Ok(rest)
    ensures Walk(data, off, n) == Ok([Listed(m, at)] + rest)
  {
  }

  lemma {:induction false} ExtractWritten(data: seq<byte>, at: nat, ms: seq<Member>, inflate: Inflate, i: nat)
    requires At(data, at, Locals(ms)) && i < |ms|
    requires AllFit(ms)
    ensures Extract(data, Listing(ms, at)[i], inflate) == Meaning(ms[i], inflate)
    decreases |ms|
  {
    var m := ms[0];
    FirstFits(ms);
    LocalLength(m);
    Split(data, at, LocalRecord(m), Locals(ms[1..]));
    if i == 0 {
      LocalReads(data, at, m, inflate, m.name, m.flags);
    } else {
      ExtractWritten(data, at + LocalSize(m), ms[1..], inflate, i - 1);
      assert Listing(ms, at)[i] == Listing(ms[1..], at + LocalSize(m))[i - 1];
    }
  }

  // ---- the end record ------------------------------------------------------------------------------------

  lemma {:induction false} Layout(a: Archive)
    ensures At(Write(a), |a.front|, Locals(a.members))
    ensures At(Write(a), CentralOffset(a), Central(a.members, |a.front|))
    ensures At(Write(a), EndOffset(a), EndRecord(a))
    ensures |Write(a)| == EndOffset(a) + |EndRecord(a)|
  {
    var locals, central, end := Parts(a);
    Pieces(Write(a), a.front, locals, a.gap, central, end);
  }

  lemma {:induction false} Parts(a: Archive) returns (locals: seq<byte>, central: seq<byte>, end: seq<byte>)
    ensures locals == Locals(a.members) && central == Central(a.members, |a.front|) && end == EndRecord(a)
    ensures Write(a) == a.front + (locals + (a.gap + (central + end)))
    ensures CentralOffset(a) == |a.front| + |locals| + |a.gap| && EndOffset(a) == CentralOffset(a) + |central|
  {
    locals, central, end := Locals(a.members), Central(a.members, |a.front|), EndRecord(a);
  }

  lemma {:induction false} Pieces(data: seq<byte>, front: seq<byte>, locals: seq<byte>, gap: seq<byte>, central: seq<byte>, end: seq<byte>)
    requires data == front + (locals + (gap + (central + end)))
    ensures At(data, |front|, locals)
    ensures At(data, |front| + |locals| + |gap|, central)
    ensures At(data, |front| + |locals| + |gap| + |central|, end)
    ensures |data| == |front| + |locals| + |gap| + |central| + |end|
  {
    assert data[0..|data|] == data;
    Split(data, 0, front, locals + (gap + (central + end)));
    Split(data, |front|, locals, gap + (central + end));
    Split(data, |front| + |locals|, gap, central + end);
    Split(data, |front| + |locals| + |gap|, central, end);
  }

  lemma {:induction false} EndFields(a: Archive)
    requires Writable(a)
    ensures var data, off := Write(a), EndOffset(a);
            && off + 22 + |a.comment| == |data| && SignedAt(data, off)
            && Le(data, off + 10, 2) == |a.members|
            && Le(data, off + 12, 4) == |Central(a.members, |a.front|)|
            && Le(data, off + 16, 4) == CentralOffset(a)
  {
    Layout(a);
    EndFieldsAt(Write(a), EndOffset(a), a);
  }

  lemma {:induction false} EndFieldsAt(data: seq<byte>, off: nat, a: Archive)
    requires Writable(a) && At(data, off, EndRecord(a))
    ensures |EndRecord(a)| == 22 + |a.comment| && SignedAt(data, off)
    ensures Le(data, off + 10, 2) == |a.members|
    ensures Le(data, off + 12, 4) == |Central(a.members, |a.front|)|
    ensures Le(data, off + 16, 4) == CentralOffset(a)
  {
    Pow256Values();
    var size, start := |Central(a.members, |a.front|)|, CentralOffset(a);
    var r5 := LeBytes(|a.comment|, 2) + a.comment;
    var r4 := LeBytes(start, 4) + r5;
    var r3 := LeBytes(size, 4) + r4;
    var r2 := LeBytes(|a.members|, 2) + r3;
    Field(data, off, EOCD_SIG, 4, a.endHead + r2);
    Split(data, off + 4, a.endHead, r2);
    Field(data, off + 10, |a.members|, 2, r3);
    Field(data, off + 12, size, 4, r4);
    Field(data, off + 16, start, 4, r5);
  }

  /** The end record by itself holds no second signature early enough to be taken for one. */
  predicate NoForgery(a: Archive) {
    forall j :: 1 <= j <= |a.comment| ==> !SignedAt(EndRecord(a), j)
  }

  lemma SignedInside(data: seq<byte>, off: nat, piece: seq<byte>, j: nat)
    requires At(data, off, piece) && j + 4 <= |piece|
    ensures SignedAt(data, off + j) <==> SignedAt(piece, j)
  {
    AtAt(data, off, piece, j, piece[j..j + 4]);
  }

  /** The reader finds the record that was written if and only if the end record is free of a second
      signature; what lies before it does not matter. */
  lemma {:induction false} EndFoundExactly(a: Archive)
    requires Writable(a)
    ensures Eocd(Write(a)) == Some(EndOffset(a)) <==> NoForgery(a)
  {
    var data, end, record := Write(a), EndOffset(a), EndRecord(a);
    EndFields(a);
    Layout(a);
    EocdIsLast(data, end);
    SignedLater(data, end, record, |a.comment|);
  }

  /** Past its start, the record's signatures are those of the archive. */
  lemma {:induction false} SignedLater(data: seq<byte>, end: nat, record: seq<byte>, n: nat)
    requires At(data, end, record) && |record| == 22 + n && |data| == end + 22 + n
    ensures (forall p :: end < p <= |data| - EOCD_MIN_SIZE ==> !SignedAt(data, p)) <==>
            (forall j :: 1 <= j <= n ==> !SignedAt(record, j))
  {
    forall j: nat | j <= n ensures SignedAt(data, end + j) <==> SignedAt(record, j) {
      SignedInside(data, end, record, j);
    }
    forall p | end < p <= |data| - EOCD_MIN_SIZE ensures SignedAt(data, p) <==> SignedAt(record, p - end) {
      var j := p - end;
      assert p == end + j;
    }
  }

  /** Main result: reading a written archive returns its members in order, with their names, flags,
      methods, sizes and offsets ... */
  lemma {:induction false} ListsMembers(a: Archive)
    requires Writable(a) && NoForgery(a)
    ensures Entries(Write(a)) == Ok(Listing(a.members, |a.front|))
  {
    EndFoundExactly(a);
    DirectoryReads(a);
  }

  lemma {:induction false} DirectoryReads(a: Archive)
    requires Writable(a)
    ensures EndOffset(a) + EOCD_MIN_SIZE <= |Write(a)|
    ensures ReadDirectory(Write(a), EndOffset(a)) == Ok(Listing(a.members, |a.front|))
  {
    EndFields(a);
    Layout(a);
    LocalsLength(a.members);
    WalkWritten(Write(a), CentralOffset(a), a.members, |a.front|);
  }

  /** ... and extracting any of them returns what its method says its bytes mean. */
  lemma {:induction false} ExtractsMembers(a: Archive, inflate: Inflate, i: nat)
    requires Writable(a) && i < |a.members|
    ensures Extract(Write(a), Listing(a.members, |a.front|)[i], inflate) == Meaning(a.members[i], inflate)
  {
    Layout(a);
    ExtractWritten(Write(a), |a.front|, a.members, inflate, i);
  }

  /** In particular, stored members come back byte for byte, whatever the inflater does. */
  lemma {:induction false} StoredRoundTrip(a: Archive, inflate: Inflate, i: nat)
    requires Writable(a) && NoForgery(a) && i < |a.members| && a.members[i].method_ == 0
    ensures Entries(Write(a)).Ok? && i < |Entries(Write(a)).value|
    ensures Entries(Write(a)).value[i].name == a.members[i].name
    ensures Extract(Write(a), Entries(Write(a)).value[i], inflate) == Ok(a.members[i].payload)
  {
    ListsMembers(a);
    ExtractsMembers(a, inflate, i);
    ListingNames(a.members, |a.front|, i);
  }

  lemma {:induction false} ListingNames(ms: seq<Member>, at: nat, i: nat)
    requires i < |ms|
    ensures Listing(ms, at)[i].name == ms[i].name
    decreases |ms|
  {
    if i > 0 {
      ListingNames(ms[1..], at + LocalSize(ms[0]), i - 1);
    }
  }

  /** Any comment with a signature at least 22 bytes before its end is such a forgery. */
  lemma {:induction false} CommentForges(a: Archive, k: nat)
    requires Writable(a) && k + EOCD_MIN_SIZE <= |a.comment| && At(a.comment, k, LeBytes(EOCD_SIG, 4))
    ensures !NoForgery(a) && Eocd(Write(a)) != Some(EndOffset(a))
  {
    var record := EndRecord(a);
    CommentLast(a);
    AtAt(record, 22, a.comment, k, LeBytes(EOCD_SIG, 4));
    Pow256Values();
    LastField(record, 22 + k, EOCD_SIG, 4);
    assert SignedAt(record, 22 + k);
    EndFoundExactly(a);
  }

  lemma AtAt(data: seq<byte>, off: nat, piece: seq<byte>, k: nat, part: seq<byte>)
    requires At(data, off, piece) && At(piece, k, part)
    ensures At(data, off + k, part)
  {
    var rest := part + piece[k + |part|..];
    assert piece == piece[..k] + rest;
    Split(data, off, piece[..k], rest);
    Split(data, off + k, part, piece[k + |part|..]);
  }

  lemma {:induction false} CommentLast(a: Archive)
    requires Writable(a)
    ensures At(EndRecord(a), 22, a.comment) && |EndRecord(a)| == 22 + |a.comment|
  {
    var head := EndRecord(a)[..22];
    assert EndRecord(a) == head + a.comment;
    assert EndRecord(a)[22..22 + |a.comment|] == a.comment;
  }
}
