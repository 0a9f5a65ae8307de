/** Constant pools as a compiler writes them (section 4.4 of the Java Virtual Machine Specification), and
    what the normaliser makes of a written class. */
module ClassWriter {
  import opened Words
  import opened ClassFile

  datatype Constant =
    | CUtf8(text: seq<byte>)
    | CInteger(value: seq<byte>)
    | CFloat(value: seq<byte>)
    | CLong(value: seq<byte>)
    | CDouble(value: seq<byte>)
    | CClass(name: nat)
    | CString(utf8: nat)
    | CFieldref(owner: nat, sort: nat)
    | CMethodref(owner: nat, sort: nat)
    | CInterfaceMethodref(owner: nat, sort: nat)
    | CNameAndType(name: nat, descriptor: nat)
    | CMethodHandle(kind: byte, target: nat)
    | CMethodType(descriptor: nat)
    | CDynamic(bootstrap: nat, sort: nat)
    | CInvokeDynamic(bootstrap: nat, sort: nat)
    | CModule(name: nat)
    | CPackage(name: nat)

  function Be(n: nat): (r: seq<byte>)
    requires n < 0x1_0000
    ensures |r| == 2 && Be16(r, 0) == n
  {
    [n / 256, n % 256]
  }

  predicate Index(n: nat) {
    n < 0x1_0000
  }

  /** Indices fit their fields and values have their widths. */
  predicate Wellformed(c: Constant) {
    match c
    case CUtf8(text) => |text| < 0x1_0000
    case CInteger(value) => |value| == 4
    case CFloat(value) => |value| == 4
    case CLong(value) => |value| == 8
    case CDouble(value) => |value| == 8
    case CClass(n) => Index(n)
    case CString(n) => Index(n)
    case CFieldref(a, b) => Index(a) && Index(b)
    case CMethodref(a, b) => Index(a) && Index(b)
    case CInterfaceMethodref(a, b) => Index(a) && Index(b)
    case CNameAndType(a, b) => Index(a) && Index(b)
    case CMethodHandle(_, n) => Index(n)
    case CMethodType(n) => Index(n)
    case CDynamic(a, b) => Index(a) && Index(b)
    case CInvokeDynamic(a, b) => Index(a) && Index(b)
    case CModule(n) => Index(n)
    case CPackage(n) => Index(n)
  }

  /** The bytes of a constant: its tag and its fields. */
  function Bytes(c: Constant): (r: seq<byte>)
    requires Wellformed(c)
    ensures r != []
  {
    match c
    case CUtf8(text) => [1] + Be(|text|) + text
    case CInteger(value) => [3] + value
    case CFloat(value) => [4] + value
    case CLong(value) => [5] + value
    case CDouble(value) => [6] + value
    case CClass(n) => [7] + Be(n)
    case CString(n) => [8] + Be(n)
    case CFieldref(a, b) => [9] + Be(a) + Be(b)
    case CMethodref(a, b) => [10] + Be(a) + Be(b)
    case CInterfaceMethodref(a, b) => [11] + Be(a) + Be(b)
    case CNameAndType(a, b) => [12] + Be(a) + Be(b)
    case CMethodHandle(kind, n) => [15, kind] + Be(n)
    case CMethodType(n) => [16] + Be(n)
    case CDynamic(a, b) => [17] + Be(a) + Be(b)
    case CInvokeDynamic(a, b) => [18] + Be(a) + Be(b)
    case CModule(n) => [19] + Be(n)
    case CPackage(n) => [20] + Be(n)
  }

  /** The 8-byte constants take two indices. */
  function Indices(c: Constant): nat {
    if c.CLong? || c.CDouble? then 2 else 1
  }

  /** What is kept of a constant. */
  function Kept(decode: Decode, c: Constant): Option<Entry> {
    match c
    case CUtf8(text) => Some(Utf8(decode(text)))
    case CInteger(_) => None
    case CFloat(_) => None
    case CLong(_) => None
    case CDouble(_) => None
    case CClass(n) => Some(One(7, n))
    case CString(n) => Some(One(8, n))
    case CFieldref(a, b) => Some(Two(9, a, b))
    case CMethodref(a, b) => Some(Two(10, a, b))
    case CInterfaceMethodref(a, b) => Some(Two(11, a, b))
    case CNameAndType(a, b) => Some(Two(12, a, b))
    case CMethodHandle(_, _) => None
    case CMethodType(n) => Some(One(16, n))
    case CDynamic(a, b) => Some(Two(17, a, b))
    case CInvokeDynamic(a, b) => Some(Two(18, a, b))
    case CModule(n) => Some(One(19, n))
    case CPackage(n) => Some(One(20, n))
  }

  predicate AllWellformed(cs: seq<Constant>) {
    forall k :: 0 <= k < |cs| ==> Wellformed(cs[k])
  }

  function PoolBytes(cs: seq<Constant>): seq<byte>
    requires AllWellformed(cs)
  {
    if cs == [] then [] else Bytes(cs[0]) + PoolBytes(cs[1..])
  }

  function TotalIndices(cs: seq<Constant>): nat {
    if cs == [] then 0 else Indices(cs[0]) + TotalIndices(cs[1..])
  }

  predicate Writable(head: seq<byte>, cs: seq<Constant>) {
    |head| == 8 && AllWellformed(cs) && 1 + TotalIndices(cs) < 0x1_0000
  }

  /** A class file: magic and version, the pool, and everything behind it. */
  function Written(head: seq<byte>, cs: seq<Constant>, tail: seq<byte>): seq<byte>
    requires Writable(head, cs)
  {
    head + (Be(1 + TotalIndices(cs)) + (PoolBytes(cs) + tail))
  }

  /** The slots of written constants, the first of which starts at `off`. */
  function WrittenSlots(decode: Decode, cs: seq<Constant>, off: nat): (r: seq<Slot>)
    requires AllWellformed(cs)
    ensures |r| == TotalIndices(cs)
  {
    if cs == [] then []
    else OwnSlots(decode, cs[0], off) + WrittenSlots(decode, cs[1..], off + |Bytes(cs[0])|)
  }

  // ---- reading back --------------------------------------------------------------------------------------

  predicate At(data: seq<byte>, off: nat, piece: seq<byte>) {
    off + |piece| <= |data| && data[off..off + |piece|] == piece
  }

  lemma Split(data: seq<byte>, off: nat, a: seq<byte>, b: seq<byte>)
    requires At(data, off, a + b)
    ensures At(data, off, a) && At(data, off + |a|, b)
  {
    var whole := data[off..off + |a + b|];
    assert whole[..|a|] == a && whole[|a|..] == b;
    assert data[off..off + |a|] == whole[..|a|];
    assert data[off + |a|..off + |a| + |b|] == whole[|a|..];
  }

  lemma TagAt(data: seq<byte>, off: nat, tag: byte, rest: seq<byte>)
    requires At(data, off, [tag] + rest)
    ensures off < |data| && data[off] == tag && At(data, off + 1, rest)
  {
    Split(data, off, [tag], rest);
    assert data[off..off + 1][0] == data[off];
  }

  lemma BeAt(data: seq<byte>, off: nat, n: nat, rest: seq<byte>)
    requires n < 0x1_0000 && At(data, off, Be(n) + rest)
    ensures off + 2 <= |data| && Be16(data, off) == n && At(data, off + 2, rest)
  {
    Split(data, off, Be(n), rest);
    assert data[off..off + 2][0] == data[off] && data[off..off + 2][1] == data[off + 1];
  }

  /** A constant with one index field. */
  lemma OneReads(decode: Decode, data: seq<byte>, off: nat, tag: byte, n: nat)
    requires tag in {7, 8, 16, 19, 20} && Index(n) && At(data, off, [tag] + Be(n))
    ensures ReadItem(decode, data, off) == Ok(Item(Some(One(tag, n)), 3, 1))
  {
    TagAt(data, off, tag, Be(n));
    assert Be(n) + [] == Be(n);
    BeAt(data, off + 1, n, []);
  }

  /** A constant with two. */
  lemma TwoReads(decode: Decode, data: seq<byte>, off: nat, tag: byte, a: nat, b: nat)
    requires tag in {9, 10, 11, 12, 17, 18} && Index(a) && Index(b) && At(data, off, [tag] + Be(a) + Be(b))
    ensures ReadItem(decode, data, off) == Ok(Item(Some(Two(tag, a, b)), 5, 1))
  {
    assert [tag] + Be(a) + Be(b) == [tag] + (Be(a) + (Be(b) + []));
    TagAt(data, off, tag, Be(a) + (Be(b) + []));
    BeAt(data, off + 1, a, Be(b) + []);
    BeAt(data, off + 3, b, []);
  }

  lemma TextReads(decode: Decode, data: seq<byte>, off: nat, text: seq<byte>)
    requires |text| < 0x1_0000 && At(data, off, [1] + Be(|text|) + text)
    ensures ReadItem(decode, data, off) == Ok(Item(Some(Utf8(decode(text))), 3 + |text|, 1))
  {
    assert [1] + Be(|text|) + text == [1] + (Be(|text|) + text);
    TagAt(data, off, 1, Be(|text|) + text);
    BeAt(data, off + 1, |text|, text);
    assert Slice(data, off + 3, off + 3 + |text|) == text;
  }

  /** What the parser reads where a constant was written. */
  lemma ConstantReads(decode: Decode, data: seq<byte>, off: nat, c: Constant)
    requires Wellformed(c) && At(data, off, Bytes(c))
    ensures ReadItem(decode, data, off) == Ok(Item(Kept(decode, c), |Bytes(c)|, Indices(c)))
  {
    match c {
      case CUtf8(text) => TextReads(decode, data, off, text);
      case CInteger(value) => TagAt(data, off, 3, value);
      case CFloat(value) => TagAt(data, off, 4, value);
      case CLong(value) => TagAt(data, off, 5, value);
      case CDouble(value) => TagAt(data, off, 6, value);
      case CClass(n) => OneReads(decode, data, off, 7, n);
      case CString(n) => OneReads(decode, data, off, 8, n);
      case CFieldref(a, b) => TwoReads(decode, data, off, 9, a, b);
      case CMethodref(a, b) => TwoReads(decode, data, off, 10, a, b);
      case CInterfaceMethodref(a, b) => TwoReads(decode, data, off, 11, a, b);
      case CNameAndType(a, b) => TwoReads(decode, data, off, 12, a, b);
      case CMethodHandle(kind, n) =>
        assert [15, kind] + Be(n) == [15] + ([kind] + Be(n));
        TagAt(data, off, 15, [kind] + Be(n));
      case CMethodType(n) => OneReads(decode, data, off, 16, n);
      case CDynamic(a, b) => TwoReads(decode, data, off, 17, a, b);
      case CInvokeDynamic(a, b) => TwoReads(decode, data, off, 18, a, b);
      case CModule(n) => OneReads(decode, data, off, 19, n);
      case CPackage(n) => OneReads(decode, data, off, 20, n);
    }
  }

  /** From an index and an offset on, the parser finds these slots and this end. */
  ghost predicate Scans(decode: Decode, data: seq<byte>, count: nat, index: nat, off: nat, slots: seq<Slot>, end: nat) {
    Scan(decode, data, count, index, off) == Ok(Pool(slots, end))
  }

  /** The constants are written from `off` to `end`. */
  ghost predicate PoolAt(data: seq<byte>, cs: seq<Constant>, off: nat, end: nat) {
    AllWellformed(cs) && At(data, off, PoolBytes(cs)) && end == off + |PoolBytes(cs)|
  }

  lemma {:induction false} PoolReads(decode: Decode, data: seq<byte>, cs: seq<Constant>, count: nat, index: nat, off: nat,
                                     end: nat, slots: seq<Slot>)
    requires PoolAt(data, cs, off, end) && index + TotalIndices(cs) == count && slots == WrittenSlots(decode, cs, off)
    ensures Scans(decode, data, count, index, off, slots, end)
    decreases |cs|
  {
    if cs == [] {
      NoneScanned(decode, data, count, off);
    } else {
      var off', index' := FirstReads(decode, data, cs, index, off, end);
      var rest := RestSlots(decode, cs, off, off', slots);
      PoolReads(decode, data, cs[1..], count, index', off', end, rest);
      ScanCons(decode, data, count, index, off, cs[0], index', off', slots, rest, end);
    }
  }

  lemma RestSlots(decode: Decode, cs: seq<Constant>, off: nat, off': nat, slots: seq<Slot>) returns (rest: seq<Slot>)
    requires cs != [] && AllWellformed(cs) && slots == WrittenSlots(decode, cs, off) && off' == off + |Bytes(cs[0])|
    ensures rest == WrittenSlots(decode, cs[1..], off') && slots == OwnSlots(decode, cs[0], off) + rest
  {
    rest := WrittenSlots(decode, cs[1..], off');
  }

  lemma NoneScanned(decode: Decode, data: seq<byte>, count: nat, off: nat)
    ensures Scans(decode, data, count, count, off, [], off)
  {
  }

  ghost predicate ReadsAs(decode: Decode, data: seq<byte>, off: nat, c: Constant)
    requires Wellformed(c)
  {
    ReadItem(decode, data, off) == Ok(Item(Kept(decode, c), |Bytes(c)|, Indices(c)))
  }

  /** The slots of one constant. */
  function OwnSlots(decode: Decode, c: Constant, off: nat): seq<Slot> {
    [Slot(Some(off), Kept(decode, c))] + if Indices(c) == 2 then [BLANK] else []
  }

  lemma FirstReads(decode: Decode, data: seq<byte>, cs: seq<Constant>, index: nat, off: nat, end: nat)
    returns (off': nat, index': nat)
    requires cs != [] && PoolAt(data, cs, off, end)
    ensures Wellformed(cs[0]) && ReadsAs(decode, data, off, cs[0]) && PoolAt(data, cs[1..], off', end)
    ensures off' == off + |Bytes(cs[0])| && index' == index + Indices(cs[0])
    ensures index' + TotalIndices(cs[1..]) == index + TotalIndices(cs)
  {
    off', index' := off + |Bytes(cs[0])|, index + Indices(cs[0]);
    Split(data, off, Bytes(cs[0]), PoolBytes(cs[1..]));
    ConstantReads(decode, data, off, cs[0]);
  }

  lemma {:induction false} ScanCons(decode: Decode, data: seq<byte>, count: nat, index: nat, off: nat, c: Constant,
                                    index': nat, off': nat, slots: seq<Slot>, rest: seq<Slot>, end: nat)
    requires Wellformed(c) && index' == index + Indices(c) <= count && off' == off + |Bytes(c)|
    requires slots == OwnSlots(decode, c, off) + rest && ReadsAs(decode, data, off, c)
    requires Scans(decode, data, count, index', off', rest, end)
    ensures Scans(decode, data, count, index, off, slots, end)
  {
  }

  /** Main result on parsing. Whatever constants are written, and whatever stands around them, the parser
      finds exactly their entries at their offsets, and the end of the pool. */
  lemma WrittenParses(decode: Decode, head: seq<byte>, cs: seq<Constant>, tail: seq<byte>)
    requires Writable(head, cs)
    ensures Parse(decode, Written(head, cs, tail)) ==
            Ok(Pool([BLANK] + WrittenSlots(decode, cs, 10), 10 + |PoolBytes(cs)|))
  {
    var data, count := Written(head, cs, tail), 1 + TotalIndices(cs);
    WrittenHere(head, cs, tail);
    PoolReads(decode, data, cs, count, 1, 10, 10 + |PoolBytes(cs)|, WrittenSlots(decode, cs, 10));
    ParseOf(decode, data, count, WrittenSlots(decode, cs, 10), 10 + |PoolBytes(cs)|);
  }

  lemma ParseOf(decode: Decode, data: seq<byte>, count: nat, slots: seq<Slot>, end: nat)
    requires |data| >= 10 && Be16(data, 8) == count > 0 && Scans(decode, data, count, 1, 10, slots, end)
    ensures Parse(decode, data) == Ok(Pool([BLANK] + slots, end))
  {
  }

  lemma WrittenHere(head: seq<byte>, cs: seq<Constant>, tail: seq<byte>)
    requires Writable(head, cs)
    ensures var data := Written(head, cs, tail);
            && |data| == 10 + |PoolBytes(cs)| + |tail| && data[..8] == head && Be16(data, 8) == 1 + TotalIndices(cs)
            && At(data, 10, PoolBytes(cs)) && At(data, 10 + |PoolBytes(cs)|, tail)
  {
    var data, count := Written(head, cs, tail), 1 + TotalIndices(cs);
    assert data[8..|data|] == Be(count) + (PoolBytes(cs) + tail);
    BeAt(data, 8, count, PoolBytes(cs) + tail);
    Split(data, 10, PoolBytes(cs), tail);
  }

  // ---- lookups in the written pool ------------------------------------------------------------------------

  /** The constant with index `i`; nothing at 0, at the second index of an 8-byte constant, or past the end. */
  function ConstantAt(cs: seq<Constant>, i: nat): Option<Constant> {
    if cs == [] || i == 0 then None
    else if i == 1 then Some(cs[0])
    else if i <= Indices(cs[0]) then None
    else ConstantAt(cs[1..], i - Indices(cs[0]))
  }

  function KeptAt(decode: Decode, cs: seq<Constant>, i: nat): Option<Entry> {
    match ConstantAt(cs, i)
    case None => None
    case Some(c) => Kept(decode, c)
  }

  /** The name of the class with index `i`: the text its CONSTANT_Class names, nothing if either constant is
      of another kind, and an error past the end of the pool. */
  function ClassText(decode: Decode, cs: seq<Constant>, i: nat): Result<string> {
    if i > TotalIndices(cs) then Err
    else
      match ConstantAt(cs, i)
      case Some(CClass(n)) =>
        if n > TotalIndices(cs) then Err
        else (match ConstantAt(cs, n) case Some(CUtf8(text)) => Ok(decode(text)) case _ => Ok(""))
      case _ => Ok("")
  }

  lemma {:induction false} SlotAt(decode: Decode, cs: seq<Constant>, off: nat, i: nat)
    requires AllWellformed(cs) && 1 <= i <= TotalIndices(cs)
    ensures WrittenSlots(decode, cs, off)[i - 1].entry == KeptAt(decode, cs, i)
    decreases |cs|
  {
    var off', n := off + |Bytes(cs[0])|, Indices(cs[0]);
    if i > n {
      assert KeptAt(decode, cs, i) == KeptAt(decode, cs[1..], i - n);
      SlotAt(decode, cs[1..], off', i - n);
      assert WrittenSlots(decode, cs, off)[i - 1] == WrittenSlots(decode, cs[1..], off')[i - n - 1];
    } else {
      assert WrittenSlots(decode, cs, off)[i - 1] == OwnSlots(decode, cs[0], off)[i - 1];
    }
  }

  function AllSlots(decode: Decode, cs: seq<Constant>): (r: seq<Slot>)
    requires AllWellformed(cs)
    ensures |r| == 1 + TotalIndices(cs)
  {
    [BLANK] + WrittenSlots(decode, cs, 10)
  }

  lemma EntryAt(decode: Decode, cs: seq<Constant>, i: nat)
    requires AllWellformed(cs) && i <= TotalIndices(cs)
    ensures AllSlots(decode, cs)[i].entry == KeptAt(decode, cs, i)
  {
    if i > 0 {
      SlotAt(decode, cs, 10, i);
    }
  }

  /** The code's class names are those of the written pool. */
  lemma ClassNameIsText(decode: Decode, cs: seq<Constant>, i: nat)
    requires AllWellformed(cs)
    ensures ClassName(AllSlots(decode, cs), i) == ClassText(decode, cs, i)
  {
    if i <= TotalIndices(cs) {
      EntryAt(decode, cs, i);
      var c := ConstantAt(cs, i);
      if c.Some? && c.value.CClass? && c.value.name <= TotalIndices(cs) {
        EntryAt(decode, cs, c.value.name);
      }
    }
  }

  // ---- what the normaliser makes of a written class ----------------------------------------------------------

  /** A method reference whose class is one of the interfaces. */
  predicate Chosen(decode: Decode, all: seq<Constant>, interfaces: set<string>, c: Constant) {
    c.CMethodref? && ClassText(decode, all, c.owner).Ok? && ClassText(decode, all, c.owner).value in interfaces
  }

  function Convert(decode: Decode, all: seq<Constant>, interfaces: set<string>, c: Constant): Constant {
    if Chosen(decode, all, interfaces, c) then CInterfaceMethodref(c.owner, c.sort) else c
  }

  function ConvertAll(decode: Decode, all: seq<Constant>, interfaces: set<string>, cs: seq<Constant>): (r: seq<Constant>)
    ensures |r| == |cs| && forall k :: 0 <= k < |cs| ==> r[k] == Convert(decode, all, interfaces, cs[k])
  {
    seq(|cs|, k requires 0 <= k < |cs| => Convert(decode, all, interfaces, cs[k]))
  }

  function NumberChosen(decode: Decode, all: seq<Constant>, interfaces: set<string>, cs: seq<Constant>): nat {
    if cs == [] then 0
    else (if Chosen(decode, all, interfaces, cs[0]) then 1 else 0) + NumberChosen(decode, all, interfaces, cs[1..])
  }

  /** The version, major number 52 at least. */
  function Raised(head: seq<byte>): seq<byte>
    requires |head| == 8
  {
    if head[6] as int * 256 + head[7] as int < 52 then head[..6] + [0, 52] else head
  }

  /** Where the chosen constants start. */
  function ChosenOffsets(decode: Decode, all: seq<Constant>, interfaces: set<string>, cs: seq<Constant>, off: nat): set<nat>
    requires AllWellformed(cs)
    decreases |cs|
  {
    if cs == [] then {}
    else (if Chosen(decode, all, interfaces, cs[0]) then {off} else {})
         + ChosenOffsets(decode, all, interfaces, cs[1..], off + |Bytes(cs[0])|)
  }

  ghost predicate Inside(at: set<nat>, lo: nat, hi: nat) {
    forall q :: q in at ==> lo <= q < hi
  }

  /** `b` is `a` with the tag 11 at the offsets `at`; the bytes start at `off`. */
  ghost predicate Turned(a: seq<byte>, b: seq<byte>, at: set<nat>, off: nat) {
    |a| == |b| && Inside(at, off, off + |a|) && forall p :: 0 <= p < |a| ==> b[p] == if off + p in at then 11 else a[p]
  }

  lemma TurnedJoin(a: seq<byte>, b: seq<byte>, at: set<nat>, a': seq<byte>, b': seq<byte>, at': set<nat>, off: nat)
    requires Turned(a, b, at, off) && Turned(a', b', at', off + |a|)
    ensures Turned(a + a', b + b', at + at', off)
  {
    forall p | 0 <= p < |a + a'| ensures (b + b')[p] == if off + p in at + at' then 11 else (a + a')[p] {
      if p >= |a| {
        assert (b + b')[p] == b'[p - |a|] && (a + a')[p] == a'[p - |a|];
      }
    }
  }

  lemma ConvertCons(decode: Decode, all: seq<Constant>, interfaces: set<string>, cs: seq<Constant>)
    requires cs != []
    ensures var conv := ConvertAll(decode, all, interfaces, cs);
            conv[0] == Convert(decode, all, interfaces, cs[0]) && conv[1..] == ConvertAll(decode, all, interfaces, cs[1..])
  {
  }

  lemma ConvertBytes(decode: Decode, all: seq<Constant>, interfaces: set<string>, c: Constant, off: nat)
    requires Wellformed(c)
    ensures TurnsOne(decode, all, interfaces, c, Convert(decode, all, interfaces, c), off)
  {
  }

  /** What conversion does to the bytes of the pool. */
  ghost predicate Converts(decode: Decode, all: seq<Constant>, interfaces: set<string>, cs: seq<Constant>, conv: seq<Constant>,
                           off: nat) {
    && AllWellformed(cs) && AllWellformed(conv) && TotalIndices(conv) == TotalIndices(cs)
    && Turned(PoolBytes(cs), PoolBytes(conv), ChosenOffsets(decode, all, interfaces, cs, off), off)
  }

  lemma {:induction false} ConvertPool(decode: Decode, all: seq<Constant>, interfaces: set<string>, cs: seq<Constant>, off: nat)
    requires AllWellformed(cs)
    ensures Converts(decode, all, interfaces, cs, ConvertAll(decode, all, interfaces, cs), off)
    decreases |cs|
  {
    if cs == [] {
      assert ConvertAll(decode, all, interfaces, cs) == [];
    } else {
      var off' := off + |Bytes(cs[0])|;
      ConvertCons(decode, all, interfaces, cs);
      ConvertBytes(decode, all, interfaces, cs[0], off);
      ConvertPool(decode, all, interfaces, cs[1..], off');
      ConvertsFirst(decode, all, interfaces, cs, ConvertAll(decode, all, interfaces, cs), off, off');
    }
  }

  ghost predicate TurnsOne(decode: Decode, all: seq<Constant>, interfaces: set<string>, c: Constant, conv: Constant, off: nat) {
    && Wellformed(c) && Wellformed(conv) && Indices(conv) == Indices(c)
    && Turned(Bytes(c), Bytes(conv), if Chosen(decode, all, interfaces, c) then {off} else {}, off)
  }

  lemma {:induction false} ConvertsFirst(decode: Decode, all: seq<Constant>, interfaces: set<string>, cs: seq<Constant>,
                                         conv: seq<Constant>, off: nat, off': nat)
    requires cs != [] && conv != [] && TurnsOne(decode, all, interfaces, cs[0], conv[0], off)
    requires off' == off + |Bytes(cs[0])| && Converts(decode, all, interfaces, cs[1..], conv[1..], off')
    ensures Converts(decode, all, interfaces, cs, conv, off)
  {
    WellformedCons(cs);
    WellformedCons(conv);
    var at := if Chosen(decode, all, interfaces, cs[0]) then {off} else {};
    var rest := ChosenOffsets(decode, all, interfaces, cs[1..], off');
    TurnedJoin(Bytes(cs[0]), Bytes(conv[0]), at, PoolBytes(cs[1..]), PoolBytes(conv[1..]), rest, off);
    assert PoolBytes(cs) == Bytes(cs[0]) + PoolBytes(cs[1..]) && PoolBytes(conv) == Bytes(conv[0]) + PoolBytes(conv[1..]);
    assert ChosenOffsets(decode, all, interfaces, cs, off) == at + rest;
  }

  lemma WellformedCons(cs: seq<Constant>)
    requires cs != [] && Wellformed(cs[0]) && AllWellformed(cs[1..])
    ensures AllWellformed(cs)
  {
    assert forall k :: 0 < k < |cs| ==> cs[k] == cs[1..][k - 1];
  }

  // ---- the code's selection is the writer's ------------------------------------------------------------------

  /** The slots from `lo` on are those of the constants `cs`, which start at `off`. */
  ghost predicate SlotsFrom(slots: seq<Slot>, decode: Decode, cs: seq<Constant>, lo: nat, off: nat) {
    AllWellformed(cs) && lo <= |slots| && slots[lo..] == WrittenSlots(decode, cs, off)
  }

  lemma SlotsStart(decode: Decode, all: seq<Constant>)
    requires AllWellformed(all)
    ensures SlotsFrom(AllSlots(decode, all), decode, all, 1, 10)
  {
  }

  /** The slots at `lo` are those of one constant at `off`. */
  ghost predicate SlotHere(slots: seq<Slot>, decode: Decode, c: Constant, lo: nat, off: nat) {
    && lo + Indices(c) <= |slots| && slots[lo] == Slot(Some(off), Kept(decode, c))
    && (Indices(c) == 2 ==> slots[lo + 1] == BLANK)
  }

  lemma {:induction false} SlotsNext(slots: seq<Slot>, decode: Decode, cs: seq<Constant>, lo: nat, off: nat, lo': nat, off': nat)
    requires cs != [] && SlotsFrom(slots, decode, cs, lo, off)
    requires lo' == lo + Indices(cs[0]) && off' == off + |Bytes(cs[0])|
    ensures SlotHere(slots, decode, cs[0], lo, off) && SlotsFrom(slots, decode, cs[1..], lo', off')
  {
    var rest := WrittenSlots(decode, cs[1..], off');
    assert WrittenSlots(decode, cs, off) == OwnSlots(decode, cs[0], off) + rest;
    SlotsSplit(slots, decode, cs[0], lo, off, rest);
  }

  lemma SlotsSplit(slots: seq<Slot>, decode: Decode, c: Constant, lo: nat, off: nat, rest: seq<Slot>)
    requires lo <= |slots| && slots[lo..] == OwnSlots(decode, c, off) + rest
    ensures SlotHere(slots, decode, c, lo, off) && slots[lo + Indices(c)..] == rest
  {
    var own, n := OwnSlots(decode, c, off), Indices(c);
    assert slots[lo] == slots[lo..][0] == own[0];
    if n == 2 {
      assert slots[lo + 1] == slots[lo..][1] == own[1];
    }
    assert slots[lo + n..] == slots[lo..][n..];
  }

  ghost predicate NamesAgree(slots: seq<Slot>, decode: Decode, all: seq<Constant>) {
    forall i: nat :: ClassName(slots, i) == ClassText(decode, all, i)
  }

  lemma NamesHold(decode: Decode, all: seq<Constant>)
    requires AllWellformed(all)
    ensures NamesAgree(AllSlots(decode, all), decode, all)
  {
    forall i: nat ensures ClassName(AllSlots(decode, all), i) == ClassText(decode, all, i) {
      ClassNameIsText(decode, all, i);
    }
  }

  ghost predicate SelectedAt(slots: seq<Slot>, interfaces: set<string>, lo: nat, q: nat) {
    exists i :: lo <= i < |slots| && Selected(slots, interfaces, i) && slots[i].offset == Some(q)
  }

  ghost predicate ResolvableFrom(slots: seq<Slot>, lo: nat) {
    forall i :: lo <= i < |slots| && IsMethodref(slots[i]) ==> ClassName(slots, slots[i].entry.value.a).Ok?
  }

  predicate Resolves(decode: Decode, all: seq<Constant>, c: Constant) {
    c.CMethodref? ==> ClassText(decode, all, c.owner).Ok?
  }

  ghost predicate SameOffsets(slots: seq<Slot>, interfaces: set<string>, lo: nat, at: set<nat>) {
    forall q: nat :: SelectedAt(slots, interfaces, lo, q) <==> q in at
  }

  ghost predicate SameCount(slots: seq<Slot>, interfaces: set<string>, lo: nat, n: nat)
    requires lo <= |slots|
  {
    CountSelected(slots, interfaces, |slots|) == CountSelected(slots, interfaces, lo) + n
  }

  ghost predicate SameResolve(slots: seq<Slot>, lo: nat, all: bool) {
    ResolvableFrom(slots, lo) <==> all
  }

  /** The code's loop over the slots from `lo` on does what the writer expects of the constants `cs`. */
  ghost predicate Agrees(slots: seq<Slot>, decode: Decode, all: seq<Constant>, interfaces: set<string>, cs: seq<Constant>,
                         lo: nat, off: nat)
    requires AllWellformed(cs) && lo <= |slots|
  {
    && SameOffsets(slots, interfaces, lo, ChosenOffsets(decode, all, interfaces, cs, off))
    && SameCount(slots, interfaces, lo, NumberChosen(decode, all, interfaces, cs))
    && SameResolve(slots, lo, AllResolve(decode, all, cs))
  }

  predicate AllResolve(decode: Decode, all: seq<Constant>, cs: seq<Constant>) {
    forall k :: 0 <= k < |cs| ==> Resolves(decode, all, cs[k])
  }

  lemma {:induction false} SelectionAgrees(slots: seq<Slot>, decode: Decode, all: seq<Constant>, interfaces: set<string>,
                                           cs: seq<Constant>, lo: nat, off: nat)
    requires SlotsFrom(slots, decode, cs, lo, off) && NamesAgree(slots, decode, all)
    ensures Agrees(slots, decode, all, interfaces, cs, lo, off)
    decreases |cs|
  {
    if cs == [] {
      assert slots[lo..] == [];
      NoneAgrees(slots, decode, all, interfaces, lo, off);
    } else {
      var lo', off' := lo + Indices(cs[0]), off + |Bytes(cs[0])|;
      SlotsNext(slots, decode, cs, lo, off, lo', off');
      FirstSlotOf(slots, decode, all, interfaces, cs[0], lo, off);
      SelectionAgrees(slots, decode, all, interfaces, cs[1..], lo', off');
      FirstAgrees(slots, decode, all, interfaces, cs, lo, off, lo', off');
    }
  }

  lemma NoneAgrees(slots: seq<Slot>, decode: Decode, all: seq<Constant>, interfaces: set<string>, lo: nat, off: nat)
    requires lo == |slots|
    ensures Agrees(slots, decode, all, interfaces, [], lo, off)
  {
  }

  /** The slot at `lo`, for a constant of `n` indices at `off`. */
  ghost predicate SlotIs(slots: seq<Slot>, interfaces: set<string>, lo: nat, n: nat, off: nat, chosen: bool, resolves: bool) {
    && 1 <= n <= 2 && lo + n <= |slots| && slots[lo].offset == Some(off) && (n == 2 ==> slots[lo + 1] == BLANK)
    && (Selected(slots, interfaces, lo) <==> chosen)
    && (resolves <==> (IsMethodref(slots[lo]) ==> ClassName(slots, slots[lo].entry.value.a).Ok?))
  }

  /** It is that of the constant `c`, and selected if and only if that is chosen. */
  ghost predicate FirstSlot(slots: seq<Slot>, decode: Decode, all: seq<Constant>, interfaces: set<string>, c: Constant,
                            lo: nat, off: nat) {
    SlotIs(slots, interfaces, lo, Indices(c), off, Chosen(decode, all, interfaces, c), Resolves(decode, all, c))
  }

  lemma FirstSlotOf(slots: seq<Slot>, decode: Decode, all: seq<Constant>, interfaces: set<string>, c: Constant, lo: nat, off: nat)
    requires NamesAgree(slots, decode, all) && SlotHere(slots, decode, c, lo, off)
    ensures FirstSlot(slots, decode, all, interfaces, c, lo, off)
  {
  }

  lemma {:induction false} FirstAgrees(slots: seq<Slot>, decode: Decode, all: seq<Constant>, interfaces: set<string>,
                                       cs: seq<Constant>, lo: nat, off: nat, lo': nat, off': nat)
    requires cs != [] && AllWellformed(cs) && FirstSlot(slots, decode, all, interfaces, cs[0], lo, off)
    requires lo' == lo + Indices(cs[0]) && off' == off + |Bytes(cs[0])|
    requires Agrees(slots, decode, all, interfaces, cs[1..], lo', off')
    ensures Agrees(slots, decode, all, interfaces, cs, lo, off)
  {
    ChosenCons(decode, all, interfaces, cs, off, off');
    ResolveCons(decode, all, cs);
    var c, n, rest := cs[0], Indices(cs[0]), cs[1..];
    var at, count, fine := ChosenOffsets(decode, all, interfaces, rest, off'), NumberChosen(decode, all, interfaces, rest),
                           AllResolve(decode, all, rest);
    AgreesStep(slots, interfaces, lo, n, off, Chosen(decode, all, interfaces, c), Resolves(decode, all, c), at, count, fine);
  }

  lemma ChosenCons(decode: Decode, all: seq<Constant>, interfaces: set<string>, cs: seq<Constant>, off: nat, off': nat)
    requires cs != [] && AllWellformed(cs) && off' == off + |Bytes(cs[0])|
    ensures var chosen := Chosen(decode, all, interfaces, cs[0]);
            && ChosenOffsets(decode, all, interfaces, cs, off) ==
               (if chosen then {off} else {}) + ChosenOffsets(decode, all, interfaces, cs[1..], off')
            && NumberChosen(decode, all, interfaces, cs) ==
               (if chosen then 1 else 0) + NumberChosen(decode, all, interfaces, cs[1..])
  {
  }

  /** One constant more, whatever it is. */
  lemma AgreesStep(slots: seq<Slot>, interfaces: set<string>, lo: nat, n: nat, off: nat, chosen: bool, resolves: bool,
                   at: set<nat>, count: nat, all: bool)
    requires SlotIs(slots, interfaces, lo, n, off, chosen, resolves)
    requires SameOffsets(slots, interfaces, lo + n, at) && SameCount(slots, interfaces, lo + n, count)
    requires SameResolve(slots, lo + n, all)
    ensures SameOffsets(slots, interfaces, lo, (if chosen then {off} else {}) + at)
    ensures SameCount(slots, interfaces, lo, (if chosen then 1 else 0) + count)
    ensures SameResolve(slots, lo, resolves && all)
  {
    MoreSelected(slots, interfaces, lo, n);
    OneMoreSelected(slots, interfaces, lo, n);
  }

  lemma ResolveCons(decode: Decode, all: seq<Constant>, cs: seq<Constant>)
    requires cs != []
    ensures AllResolve(decode, all, cs) <==> Resolves(decode, all, cs[0]) && AllResolve(decode, all, cs[1..])
  {
    assert forall k :: 0 < k < |cs| ==> cs[k] == cs[1..][k - 1];
    assert forall k :: 0 <= k < |cs| - 1 ==> cs[1..][k] == cs[k + 1];
  }

  /** One constant's slots: the first may be selected, the second is blank. */
  lemma OneMoreSelected(slots: seq<Slot>, interfaces: set<string>, lo: nat, n: nat)
    requires 1 <= n <= 2 && lo + n <= |slots| && (n == 2 ==> slots[lo + 1] == BLANK)
    ensures ResolvableFrom(slots, lo) <==>
            ResolvableFrom(slots, lo + n) && (IsMethodref(slots[lo]) ==> ClassName(slots, slots[lo].entry.value.a).Ok?)
    ensures CountSelected(slots, interfaces, lo + n) ==
            CountSelected(slots, interfaces, lo) + if Selected(slots, interfaces, lo) then 1 else 0
  {
    if n == 2 {
      assert !IsMethodref(slots[lo + 1]) && !Selected(slots, interfaces, lo + 1);
      assert CountSelected(slots, interfaces, lo + 2) == CountSelected(slots, interfaces, lo + 1);
    }
  }

  lemma MoreSelected(slots: seq<Slot>, interfaces: set<string>, lo: nat, n: nat)
    requires 1 <= n <= 2 && lo + n <= |slots| && (n == 2 ==> slots[lo + 1] == BLANK)
    ensures forall q: nat :: SelectedAt(slots, interfaces, lo, q) <==>
              SelectedAt(slots, interfaces, lo + n, q) || (Selected(slots, interfaces, lo) && slots[lo].offset == Some(q))
  {
    if n == 2 {
      assert !Selected(slots, interfaces, lo + 1);
    }
  }

  lemma ConvertedFile(decode: Decode, head: seq<byte>, cs: seq<Constant>, tail: seq<byte>, interfaces: set<string>)
    requires Writable(head, cs)
    ensures Writable(Raised(head), ConvertAll(decode, cs, interfaces, cs))
    ensures Rewritten(Written(head, cs, tail), AllSlots(decode, cs), interfaces) ==
            Written(Raised(head), ConvertAll(decode, cs, interfaces, cs), tail)
  {
    var conv, at := ConvertAll(decode, cs, interfaces, cs), ChosenOffsets(decode, cs, interfaces, cs, 10);
    ConvertPool(decode, cs, interfaces, cs, 10);
    SlotsStart(decode, cs);
    NamesHold(decode, cs);
    SelectionAgrees(AllSlots(decode, cs), decode, cs, interfaces, cs, 1, 10);
    WrittenHere(head, cs, tail);
    FileTurned(AllSlots(decode, cs), interfaces, at, head, PoolBytes(cs), PoolBytes(conv), Be(1 + TotalIndices(cs)), tail);
  }

  /** The same bytes on both sides, part by part. */
  lemma FileTurned(slots: seq<Slot>, interfaces: set<string>, at: set<nat>, head: seq<byte>, pool: seq<byte>, pool': seq<byte>,
                   count: seq<byte>, tail: seq<byte>)
    requires slots != [] && slots[0] == BLANK && |head| == 8 && |count| == 2 && Turned(pool, pool', at, 10)
    requires forall q: nat :: SelectedAt(slots, interfaces, 1, q) <==> q in at
    ensures Rewritten(head + (count + (pool + tail)), slots, interfaces) == Raised(head) + (count + (pool' + tail))
  {
    var data, out := head + (count + (pool + tail)), Raised(head) + (count + (pool' + tail));
    forall p | 0 <= p < |data| ensures ByteAfter(data, slots, interfaces, |slots|, p) == out[p] {
      PatchedIsSelected(slots, interfaces, p);
      if 10 <= p < 10 + |pool| {
        assert data[p] == pool[p - 10] && out[p] == pool'[p - 10];
      }
    }
  }

  lemma PatchedIsSelected(slots: seq<Slot>, interfaces: set<string>, q: nat)
    requires slots != [] && slots[0] == BLANK
    ensures PatchedAt(slots, interfaces, |slots|, q) <==> SelectedAt(slots, interfaces, 1, q)
  {
  }

  /** Main result. A written class is refused exactly if a method reference names a class, or that class a
      text, past the end of the pool. Otherwise the result is the same class written with exactly the
      method references to the interfaces turned into interface method references, and its major version
      raised to 52. */
  lemma NormalizeWritten(decode: Decode, head: seq<byte>, cs: seq<Constant>, tail: seq<byte>, interfaces: set<string>)
    requires Writable(head, cs)
    ensures Writable(Raised(head), ConvertAll(decode, cs, interfaces, cs))
    ensures Normalize(decode, Written(head, cs, tail), interfaces) ==
            if !AllResolve(decode, cs, cs) then Err
            else Ok(Outcome(Written(Raised(head), ConvertAll(decode, cs, interfaces, cs), tail),
                            head[6] as int * 256 + head[7] as int < 52, NumberChosen(decode, cs, interfaces, cs)))
  {
    var slots := AllSlots(decode, cs);
    WrittenParses(decode, head, cs, tail);
    WrittenMajor(head, cs, tail);
    ConvertedFile(decode, head, cs, tail, interfaces);
    WholeAgrees(decode, cs, interfaces);
  }

  lemma WrittenMajor(head: seq<byte>, cs: seq<Constant>, tail: seq<byte>)
    requires Writable(head, cs)
    ensures |Written(head, cs, tail)| >= 8 && Major(Written(head, cs, tail)) == head[6] as int * 256 + head[7] as int
  {
    WrittenHere(head, cs, tail);
    assert Written(head, cs, tail)[..8][6] == head[6] && Written(head, cs, tail)[..8][7] == head[7];
  }

  lemma WholeAgrees(decode: Decode, cs: seq<Constant>, interfaces: set<string>)
    requires AllWellformed(cs)
    ensures var slots := AllSlots(decode, cs);
            && (Resolvable(slots) <==> AllResolve(decode, cs, cs))
            && CountSelected(slots, interfaces, |slots|) == NumberChosen(decode, cs, interfaces, cs)
  {
    var slots := AllSlots(decode, cs);
    SlotsStart(decode, cs);
    NamesHold(decode, cs);
    SelectionAgrees(AllSlots(decode, cs), decode, cs, interfaces, cs, 1, 10);
    assert slots[0] == BLANK;
    assert Resolvable(slots) <==> ResolvableFrom(slots, 1);
    assert !Selected(slots, interfaces, 0) && CountSelected(slots, interfaces, 1) == 0;
  }

  /** The interface a written class defines: none without the flag, else the text of its class. */
  lemma InterfaceWritten(decode: Decode, head: seq<byte>, cs: seq<Constant>, flags: nat, this_: nat, tail: seq<byte>)
    requires Writable(head, cs) && Index(flags) && Index(this_)
    ensures InterfaceName(decode, Written(head, cs, Be(flags) + (Be(this_) + tail))) ==
            if (flags / 512) % 2 == 0 then Ok(None)
            else match ClassText(decode, cs, this_) case Err => Err case Ok(name) => Ok(Some(name))
  {
    var rest := Be(flags) + (Be(this_) + tail);
    WrittenParses(decode, head, cs, rest);
    WrittenTail(head, cs, rest);
    FieldsAt(Written(head, cs, rest), 10 + |PoolBytes(cs)|, rest, flags, this_, tail);
    FlagBit(flags);
    ClassNameIsText(decode, cs, this_);
  }

  lemma WrittenTail(head: seq<byte>, cs: seq<Constant>, rest: seq<byte>)
    requires Writable(head, cs)
    ensures At(Written(head, cs, rest), 10 + |PoolBytes(cs)|, rest)
  {
    WrittenHere(head, cs, rest);
  }

  lemma FieldsAt(data: seq<byte>, end: nat, rest: seq<byte>, flags: nat, this_: nat, tail: seq<byte>)
    requires Index(flags) && Index(this_) && At(data, end, rest) && rest == Be(flags) + (Be(this_) + tail)
    ensures end + 4 <= |data| && Be16(data, end) == flags && Be16(data, end + 2) == this_
  {
    BeAt(data, end, flags, Be(this_) + tail);
    BeAt(data, end + 2, this_, tail);
  }

  lemma FlagBit(x: nat)
    ensures And(x, 0x200) == 0 <==> (x / 512) % 2 == 0
  {
    assert Pow2(9) == 512;
    BitAt(x, 9);
  }

  lemma {:induction false} BitAt(x: nat, k: nat)
    ensures And(x, Pow2(k)) == 0 <==> (x / Pow2(k)) % 2 == 0
  {
    if k == 0 {
      assert And(x, 1) == x % 2 by { assert And(x / 2, 0) == 0; }
    } else {
      BitAt(x / 2, k - 1);
      DivTwice(x, Pow2(k - 1));
      assert And(x, Pow2(k)) == 2 * And(x / 2, Pow2(k - 1));
    }
  }

  lemma DivTwice(x: nat, p: nat)
    requires p > 0
    ensures (x / 2) / p == x / (2 * p)
  {
    var q, r := (x / 2) / p, (x / 2) % p;
    assert x == 2 * (q * p + r) + x % 2;
    MulAssoc(2, q, p);
    MulAssoc(q, 2, p);
    ModUnique(x, 2 * p, q, 2 * r + x % 2);
  }

  // ---- what is refused ----------------------------------------------------------------------------------------

  ghost predicate FailAlike(decode: Decode, data: seq<byte>, count: nat, index: nat, off: nat, index': nat, off': nat) {
    Scan(decode, data, count, index, off).Err? <==> Scan(decode, data, count, index', off').Err?
  }

  /** After the constants that are written, parsing goes on as if it started there. */
  lemma {:induction false} PrefixScans(decode: Decode, data: seq<byte>, cs: seq<Constant>, count: nat, index: nat, off: nat,
                                       last: nat, end: nat)
    requires PoolAt(data, cs, off, end) && last == index + TotalIndices(cs) <= count
    ensures FailAlike(decode, data, count, index, off, last, end)
    decreases |cs|
  {
    if cs != [] {
      var off', index' := FirstReads(decode, data, cs, index, off, end);
      PrefixScans(decode, data, cs[1..], count, index', off', last, end);
      OneScanned(decode, data, count, index, off, cs[0], index', off', last, end);
    }
  }

  lemma OneScanned(decode: Decode, data: seq<byte>, count: nat, index: nat, off: nat, c: Constant, index': nat, off': nat,
                   last: nat, end: nat)
    requires Wellformed(c) && index < count && ReadsAs(decode, data, off, c)
    requires index' == index + Indices(c) && off' == off + |Bytes(c)| && FailAlike(decode, data, count, index', off', last, end)
    ensures FailAlike(decode, data, count, index, off, last, end)
  {
  }

  lemma FailsBehind(decode: Decode, data: seq<byte>, cs: seq<Constant>, count: nat, end: nat)
    requires |data| >= 10 && Be16(data, 8) == count && 1 + TotalIndices(cs) < count
    requires PoolAt(data, cs, 10, end) && ReadItem(decode, data, end).Err?
    ensures Parse(decode, data) == Err
  {
    PrefixScans(decode, data, cs, count, 1, 10, 1 + TotalIndices(cs), end);
  }

  /** The file with `count` announced, the constants written, and something behind them. */
  function Announced(head: seq<byte>, count: nat, cs: seq<Constant>, tail: seq<byte>): seq<byte>
    requires count < 0x1_0000 && AllWellformed(cs)
  {
    head + (Be(count) + (PoolBytes(cs) + tail))
  }

  lemma AnnouncedAt(head: seq<byte>, count: nat, cs: seq<Constant>, tail: seq<byte>)
    requires |head| == 8 && count < 0x1_0000 && AllWellformed(cs)
    ensures var data, end := Announced(head, count, cs, tail), 10 + |PoolBytes(cs)|;
            && |data| == end + |tail| && Be16(data, 8) == count && PoolAt(data, cs, 10, end) && At(data, end, tail)
  {
    HeaderAt(head, count, PoolBytes(cs), tail);
  }

  lemma HeaderAt(head: seq<byte>, count: nat, pool: seq<byte>, tail: seq<byte>)
    requires |head| == 8 && count < 0x1_0000
    ensures var data := head + (Be(count) + (pool + tail));
            && |data| == 10 + |pool| + |tail| && Be16(data, 8) == count
            && At(data, 10, pool) && At(data, 10 + |pool|, tail)
  {
    var data := head + (Be(count) + (pool + tail));
    assert data[8..|data|] == Be(count) + (pool + tail);
    BeAt(data, 8, count, pool + tail);
    Split(data, 10, pool, tail);
  }

  /** A pool that announces more constants than are there is refused if the file ends behind them, or if
      anything but one of the 17 tags comes next. */
  lemma MissingIsRefused(decode: Decode, head: seq<byte>, cs: seq<Constant>, count: nat, tail: seq<byte>)
    requires |head| == 8 && AllWellformed(cs) && 1 + TotalIndices(cs) < count < 0x1_0000
    requires tail == [] || tail[0] !in {1, 3, 4, 5, 6, 7, 8, 9, 10, 11, 12, 15, 16, 17, 18, 19, 20}
    ensures Parse(decode, Announced(head, count, cs, tail)) == Err
  {
    AnnouncedAt(head, count, cs, tail);
    NothingReads(decode, Announced(head, count, cs, tail), 10 + |PoolBytes(cs)|, tail);
    FailsBehind(decode, Announced(head, count, cs, tail), cs, count, 10 + |PoolBytes(cs)|);
  }

  lemma NothingReads(decode: Decode, data: seq<byte>, end: nat, tail: seq<byte>)
    requires At(data, end, tail) && |data| == end + |tail|
    requires tail == [] || tail[0] !in {1, 3, 4, 5, 6, 7, 8, 9, 10, 11, 12, 15, 16, 17, 18, 19, 20}
    ensures ReadItem(decode, data, end).Err?
  {
    if tail != [] {
      assert data[end] == data[end..end + |tail|][0];
    }
  }

  /** The bytes the code has to read of a constant with this tag. */
  function MustRead(tag: byte): nat {
    if tag in {1, 7, 8, 16, 19, 20} then 3 else if tag in {9, 10, 11, 12, 17, 18} then 5 else 0
  }

  /** A constant whose fixed fields are cut off is refused, wherever the code has to read one: its indices,
      or the length of a text. */
  lemma CutOffIsRefused(decode: Decode, head: seq<byte>, cs: seq<Constant>, count: nat, tail: seq<byte>)
    requires |head| == 8 && AllWellformed(cs) && 1 + TotalIndices(cs) < count < 0x1_0000
    requires tail != [] && |tail| < MustRead(tail[0])
    ensures Parse(decode, Announced(head, count, cs, tail)) == Err
  {
    AnnouncedAt(head, count, cs, tail);
    CutOffReads(decode, Announced(head, count, cs, tail), 10 + |PoolBytes(cs)|, tail);
    FailsBehind(decode, Announced(head, count, cs, tail), cs, count, 10 + |PoolBytes(cs)|);
  }

  lemma CutOffReads(decode: Decode, data: seq<byte>, end: nat, tail: seq<byte>)
    requires At(data, end, tail) && |data| == end + |tail| && tail != [] && |tail| < MustRead(tail[0])
    ensures ReadItem(decode, data, end).Err?
  {
    assert data[end] == data[end..end + |tail|][0];
  }
}
