/** The byte format of parcels sent to the service daemon. */
module ParcelCodec {
  import opened Words

  const MAGIC := 0x4d425031
  const LAST_KIND := 16
  const MAX_VALUES := 4096
  const MAX_ITEMS := 65536

  datatype Value = Value(kind: u32, value: u64, text: seq<byte>, elements: seq<u64>, strings: seq<seq<byte>>)

  // ---- encoding ------------------------------------------------------------------------

  /** A size as 32 bits; larger sizes are truncated, as the cast does. */
  function U32(n: nat): (r: seq<byte>)
    ensures |r| == 4
  {
    LeBytes(n, 4)
  }

  function U64(n: nat): (r: seq<byte>)
    ensures |r| == 8
  {
    LeBytes(n, 8)
  }

  function Text(s: seq<byte>): seq<byte> {
    U32(|s|) + s
  }

  function Elements(es: seq<u64>): seq<byte> {
    if es == [] then [] else U64(es[0]) + Elements(es[1..])
  }

  function Strings(ss: seq<seq<byte>>): seq<byte> {
    if ss == [] then [] else Text(ss[0]) + Strings(ss[1..])
  }

  function EncodeValue(v: Value): seq<byte> {
    U32(v.kind) + (U64(v.value) + (Text(v.text) +
      (U32(|v.elements|) + (Elements(v.elements) + (U32(|v.strings|) + Strings(v.strings))))))
  }

  function EncodeValues(vs: seq<Value>): seq<byte> {
    if vs == [] then [] else EncodeValue(vs[0]) + EncodeValues(vs[1..])
  }

  function EncodeParcel(code: u32, flags: u32, vs: seq<Value>): seq<byte> {
    U32(MAGIC) + (U32(code) + (U32(flags) + (U32(|vs|) + EncodeValues(vs))))
  }

  // ---- decoding ------------------------------------------------------------------------

  function TakeU32(b: seq<byte>): (r: Result<(u32, seq<byte>)>) {
    if |b| < 4 then Err else U32Value(b[..4]); Ok((LeValue(b[..4]), b[4..]))
  }

  function TakeU64(b: seq<byte>): (r: Result<(u64, seq<byte>)>) {
    if |b| < 8 then Err else U64Value(b[..8]); Ok((LeValue(b[..8]), b[8..]))
  }

  function TakeText(b: seq<byte>): Result<(seq<byte>, seq<byte>)> {
    match TakeU32(b)
    case Err => Err
    case Ok((n, b1)) => if n > |b1| then Err else Ok((b1[..n], b1[n..]))
  }

  function TakeElements(b: seq<byte>, n: nat): Result<(seq<u64>, seq<byte>)>
    decreases n
  {
    if n == 0 then Ok(([], b))
    else
      match TakeU64(b)
      case Err => Err
      case Ok((e, b1)) =>
        match TakeElements(b1, n - 1)
        case Err => Err
        case Ok((es, b2)) => Ok(([e] + es, b2))
  }

  function TakeStrings(b: seq<byte>, n: nat): Result<(seq<seq<byte>>, seq<byte>)>
    decreases n
  {
    if n == 0 then Ok(([], b))
    else
      match TakeText(b)
      case Err => Err
      case Ok((s, b1)) =>
        match TakeStrings(b1, n - 1)
        case Err => Err
        case Ok((ss, b2)) => Ok(([s] + ss, b2))
  }

  /** A count, refused above the limit. */
  function TakeCount(b: seq<byte>, limit: nat): Result<(u32, seq<byte>)> {
    match TakeU32(b)
    case Err => Err
    case Ok((n, b1)) => if n > limit then Err else Ok((n, b1))
  }

  function TakeArrays(b: seq<byte>): Result<(seq<u64>, seq<seq<byte>>, seq<byte>)> {
    match TakeCount(b, MAX_ITEMS)
    case Err => Err
    case Ok((n, b1)) =>
      match TakeElements(b1, n)
      case Err => Err
      case Ok((es, b2)) =>
        match TakeCount(b2, MAX_ITEMS)
        case Err => Err
        case Ok((k, b3)) =>
          match TakeStrings(b3, k)
          case Err => Err
          case Ok((ss, b4)) => Ok((es, ss, b4))
  }

  function TakeValue(b: seq<byte>): Result<(Value, seq<byte>)> {
    match TakeCount(b, LAST_KIND)
    case Err => Err
    case Ok((kind, b1)) =>
      match TakeU64(b1)
      case Err => Err
      case Ok((value, b2)) =>
        match TakeText(b2)
        case Err => Err
        case Ok((text, b3)) =>
          match TakeArrays(b3)
          case Err => Err
          case Ok((es, ss, b4)) => Ok((Value(kind, value, text, es, ss), b4))
  }

  function TakeValues(b: seq<byte>, n: nat): Result<(seq<Value>, seq<byte>)>
    decreases n
  {
    if n == 0 then Ok(([], b))
    else
      match TakeValue(b)
      case Err => Err
      case Ok((v, b1)) =>
        match TakeValues(b1, n - 1)
        case Err => Err
        case Ok((vs, b2)) => Ok(([v] + vs, b2))
  }

  function DecodeParcel(b: seq<byte>): Result<seq<Value>> {
    match TakeU32(b)
    case Err => Err
    case Ok((magic, b1)) =>
      if magic != MAGIC then Err
      else
        match TakeU32(b1)
        case Err => Err
        case Ok((_, b2)) =>
          match TakeU32(b2)
          case Err => Err
          case Ok((_, b3)) =>
            match TakeCount(b3, MAX_VALUES)
            case Err => Err
            case Ok((n, b4)) =>
              match TakeValues(b4, n)
              case Err => Err
              case Ok((vs, rest)) => if rest == [] then Ok(vs) else Err
  }

  // ---- the two are inverse ---------------------------------------------------------------

  predicate WithinLimits(v: Value) {
    && v.kind <= LAST_KIND && |v.text| < 0x1_0000_0000
    && |v.elements| <= MAX_ITEMS && |v.strings| <= MAX_ITEMS
    && forall i :: 0 <= i < |v.strings| ==> |v.strings[i]| < 0x1_0000_0000
  }

  predicate AllWithinLimits(vs: seq<Value>) {
    |vs| <= MAX_VALUES && EachWithin(vs)
  }

  predicate EachWithin(vs: seq<Value>) {
    forall i :: 0 <= i < |vs| ==> WithinLimits(vs[i])
  }

  lemma EachWithinCons(vs: seq<Value>)
    requires vs != []
    ensures EachWithin(vs) <==> WithinLimits(vs[0]) && EachWithin(vs[1..])
  {
    forall i | 0 <= i < |vs| ensures vs[i] == if i == 0 then vs[0] else vs[1..][i - 1] {
    }
    assert forall i :: 0 <= i < |vs| - 1 ==> vs[1..][i] == vs[i + 1];
  }

  lemma U32Value(b: seq<byte>)
    requires |b| == 4
    ensures LeValue(b) < 0x1_0000_0000 && U32(LeValue(b)) == b
  {
    LeOfBytes(b);
    Pow256Values();
  }

  lemma U64Value(b: seq<byte>)
    requires |b| == 8
    ensures LeValue(b) < 0x1_0000_0000_0000_0000 && U64(LeValue(b)) == b
  {
    LeOfBytes(b);
    Pow256Values();
  }

  /** A parser accepts exactly the encodings: here for 32-bit words. */
  lemma U32Exact(b: seq<byte>, n: u32, rest: seq<byte>)
    ensures TakeU32(b) == Ok((n, rest)) <==> b == U32(n) + rest
  {
    if |b| >= 4 {
      U32Value(b[..4]);
      assert b == b[..4] + b[4..];
    }
    if b == U32(n) + rest {
      assert b[..4] == U32(n) && b[4..] == rest;
      Pow256Values();
      LeRoundTrip(n, 4);
    }
  }

  lemma U64Exact(b: seq<byte>, n: u64, rest: seq<byte>)
    ensures TakeU64(b) == Ok((n, rest)) <==> b == U64(n) + rest
  {
    if |b| >= 8 {
      U64Value(b[..8]);
      assert b == b[..8] + b[8..];
    }
    if b == U64(n) + rest {
      assert b[..8] == U64(n) && b[8..] == rest;
      Pow256Values();
      LeRoundTrip(n, 8);
    }
  }

  lemma TextExact(b: seq<byte>, s: seq<byte>, rest: seq<byte>)
    ensures TakeText(b) == Ok((s, rest)) <==> |s| < 0x1_0000_0000 && b == Text(s) + rest
  {
    if TakeText(b) == Ok((s, rest)) {
      var (n, b1) := TakeU32(b).value;
      U32Exact(b, n, b1);
      assert b1 == s + rest;
      assert U32(|s|) + (s + rest) == Text(s) + rest;
    }
    if |s| < 0x1_0000_0000 && b == Text(s) + rest {
      assert b == U32(|s|) + (s + rest);
      U32Exact(b, |s|, s + rest);
      assert (s + rest)[..|s|] == s && (s + rest)[|s|..] == rest;
    }
  }

  lemma {:induction false} ElementsExact(b: seq<byte>, n: nat, es: seq<u64>, rest: seq<byte>)
    ensures TakeElements(b, n) == Ok((es, rest)) <==> |es| == n && b == Elements(es) + rest
    decreases n
  {
    if n == 0 {
      assert Elements([]) + rest == rest;
    } else {
      if TakeElements(b, n) == Ok((es, rest)) {
        var (e, b1) := TakeU64(b).value;
        var (es1, b2) := TakeElements(b1, n - 1).value;
        U64Exact(b, e, b1);
        ElementsExact(b1, n - 1, es1, b2);
        assert es[0] == e && es[1..] == es1;
        Glue(U64(e), Elements(es1), rest);
      }
      if |es| == n && b == Elements(es) + rest {
        var b1 := Elements(es[1..]) + rest;
        Glue(U64(es[0]), Elements(es[1..]), rest);
        U64Exact(b, es[0], b1);
        ElementsExact(b1, n - 1, es[1..], rest);
        assert [es[0]] + es[1..] == es;
      }
    }
  }

  lemma Glue(a: seq<byte>, b: seq<byte>, c: seq<byte>)
    ensures (a + b) + c == a + (b + c)
  {
  }

  lemma {:induction false} TakeStringsCons(b: seq<byte>, n: nat, s: seq<byte>, b1: seq<byte>, ss: seq<seq<byte>>, rest: seq<byte>)
    requires n > 0 && TakeText(b) == Ok((s, b1)) && TakeStrings(b1, n - 1) == Ok((ss, rest))
    ensures TakeStrings(b, n) == Ok(([s] + ss, rest))
  {
  }

  lemma {:induction false} StringsExact(b: seq<byte>, n: nat, ss: seq<seq<byte>>, rest: seq<byte>)
    ensures TakeStrings(b, n) == Ok((ss, rest)) <==>
            |ss| == n && (forall i :: 0 <= i < n ==> |ss[i]| < 0x1_0000_0000) && b == Strings(ss) + rest
    decreases n
  {
    if n == 0 {
      assert Strings([]) + rest == rest;
    } else {
      if TakeStrings(b, n) == Ok((ss, rest)) {
        var (s, b1) := TakeText(b).value;
        TextExact(b, s, b1);
        StringsExact(b1, n - 1, ss[1..], rest);
        assert ss == [s] + ss[1..];
        Glue(Text(s), Strings(ss[1..]), rest);
      }
      if |ss| == n && (forall i :: 0 <= i < n ==> |ss[i]| < 0x1_0000_0000) && b == Strings(ss) + rest {
        var b1 := Strings(ss[1..]) + rest;
        Glue(Text(ss[0]), Strings(ss[1..]), rest);
        TextExact(b, ss[0], b1);
        StringsExact(b1, n - 1, ss[1..], rest);
        TakeStringsCons(b, n, ss[0], b1, ss[1..], rest);
        assert [ss[0]] + ss[1..] == ss;
      }
    }
  }

  lemma CountExact(b: seq<byte>, limit: nat, n: u32, rest: seq<byte>)
    ensures TakeCount(b, limit) == Ok((n, rest)) <==> n <= limit && b == U32(n) + rest
  {
    U32Exact(b, n, rest);
  }

  function EncodeArrays(es: seq<u64>, ss: seq<seq<byte>>): seq<byte> {
    U32(|es|) + (Elements(es) + (U32(|ss|) + Strings(ss)))
  }

  lemma ArraysExact(b: seq<byte>, es: seq<u64>, ss: seq<seq<byte>>, rest: seq<byte>)
    ensures TakeArrays(b) == Ok((es, ss, rest)) <==>
            && |es| <= MAX_ITEMS && |ss| <= MAX_ITEMS
            && (forall i :: 0 <= i < |ss| ==> |ss[i]| < 0x1_0000_0000)
            && b == EncodeArrays(es, ss) + rest
  {
    var b3 := Strings(ss) + rest;
    var b2 := U32(|ss|) + b3;
    var b1 := Elements(es) + b2;
    assert EncodeArrays(es, ss) + rest == U32(|es|) + b1;
    if TakeArrays(b) == Ok((es, ss, rest)) {
      var (n, c1) := TakeCount(b, MAX_ITEMS).value;
      var (_, c2) := TakeElements(c1, n).value;
      var (k, c3) := TakeCount(c2, MAX_ITEMS).value;
      CountExact(b, MAX_ITEMS, n, c1);
      ElementsExact(c1, n, es, c2);
      CountExact(c2, MAX_ITEMS, k, c3);
      StringsExact(c3, k, ss, rest);
    }
    if |es| <= MAX_ITEMS && |ss| <= MAX_ITEMS && b == U32(|es|) + b1 {
      CountExact(b, MAX_ITEMS, |es|, b1);
      ElementsExact(b1, |es|, es, b2);
      CountExact(b2, MAX_ITEMS, |ss|, b3);
      StringsExact(b3, |ss|, ss, rest);
    }
  }

  lemma ValueExact(b: seq<byte>, v: Value, rest: seq<byte>)
    ensures TakeValue(b) == Ok((v, rest)) <==> WithinLimits(v) && b == EncodeValue(v) + rest
  {
    var b3 := EncodeArrays(v.elements, v.strings) + rest;
    var b2 := Text(v.text) + b3;
    var b1 := U64(v.value) + b2;
    assert EncodeValue(v) + rest == U32(v.kind) + b1;
    if TakeValue(b) == Ok((v, rest)) {
      var (kind, c1) := TakeCount(b, LAST_KIND).value;
      var (value, c2) := TakeU64(c1).value;
      var (text, c3) := TakeText(c2).value;
      CountExact(b, LAST_KIND, kind, c1);
      U64Exact(c1, value, c2);
      TextExact(c2, text, c3);
      ArraysExact(c3, v.elements, v.strings, rest);
    }
    if WithinLimits(v) && b == U32(v.kind) + b1 {
      CountExact(b, LAST_KIND, v.kind, b1);
      U64Exact(b1, v.value, b2);
      TextExact(b2, v.text, b3);
      ArraysExact(b3, v.elements, v.strings, rest);
    }
  }

  lemma {:induction false} ValuesSound(b: seq<byte>, n: nat, vs: seq<Value>, rest: seq<byte>)
    requires TakeValues(b, n) == Ok((vs, rest))
    ensures |vs| == n && EachWithin(vs) && b == EncodeValues(vs) + rest
    decreases n
  {
    if n == 0 {
      assert EncodeValues([]) + rest == rest;
    } else {
      var b1 := ValuesUncons(b, n, vs, rest);
      ValuesSound(b1, n - 1, vs[1..], rest);
      ValuesJoin(b, vs, b1, rest);
    }
  }

  lemma ValuesJoin(b: seq<byte>, vs: seq<Value>, b1: seq<byte>, rest: seq<byte>)
    requires vs != [] && TakeValue(b) == Ok((vs[0], b1)) && EachWithin(vs[1..]) && b1 == EncodeValues(vs[1..]) + rest
    ensures EachWithin(vs) && b == EncodeValues(vs) + rest
  {
    ValueExact(b, vs[0], b1);
    EachWithinCons(vs);
    Glue(EncodeValue(vs[0]), EncodeValues(vs[1..]), rest);
  }

  lemma ValuesUncons(b: seq<byte>, n: nat, vs: seq<Value>, rest: seq<byte>) returns (b1: seq<byte>)
    requires n > 0 && TakeValues(b, n) == Ok((vs, rest))
    ensures vs != [] && TakeValue(b) == Ok((vs[0], b1)) && TakeValues(b1, n - 1) == Ok((vs[1..], rest))
  {
    b1 := TakeValue(b).value.1;
    var tail := TakeValues(b1, n - 1).value.0;
    assert vs == [TakeValue(b).value.0] + tail && vs[1..] == tail;
  }

  lemma {:induction false} ValuesComplete(vs: seq<Value>, rest: seq<byte>)
    requires EachWithin(vs)
    ensures TakeValues(EncodeValues(vs) + rest, |vs|) == Ok((vs, rest))
  {
    if vs == [] {
      assert EncodeValues([]) + rest == rest;
    } else {
      var b1 := EncodeValues(vs[1..]) + rest;
      EachWithinCons(vs);
      Glue(EncodeValue(vs[0]), EncodeValues(vs[1..]), rest);
      ValueExact(EncodeValue(vs[0]) + b1, vs[0], b1);
      ValuesComplete(vs[1..], rest);
      ValuesCons(EncodeValues(vs) + rest, vs, b1, rest);
    }
  }

  lemma ValuesCons(b: seq<byte>, vs: seq<Value>, b1: seq<byte>, rest: seq<byte>)
    requires vs != [] && TakeValue(b) == Ok((vs[0], b1)) && TakeValues(b1, |vs| - 1) == Ok((vs[1..], rest))
    ensures TakeValues(b, |vs|) == Ok((vs, rest))
  {
    assert [vs[0]] + vs[1..] == vs;
  }

  /** Decoding accepts a byte string exactly when it is the encoding of some code, flags and
      value list within the limits, and yields that list. */
  lemma DecodeExact(b: seq<byte>, vs: seq<Value>)
    ensures DecodeParcel(b) == Ok(vs) <==>
            AllWithinLimits(vs) && exists code: u32, flags: u32 :: b == EncodeParcel(code, flags, vs)
  {
    if DecodeParcel(b) == Ok(vs) {
      var code, flags := DecodeSound(b, vs);
    }
    forall code: u32, flags: u32 | AllWithinLimits(vs) && b == EncodeParcel(code, flags, vs)
      ensures DecodeParcel(b) == Ok(vs)
    {
      DecodeComplete(code, flags, vs);
    }
  }

  lemma DecodeSound(b: seq<byte>, vs: seq<Value>) returns (code: u32, flags: u32)
    requires DecodeParcel(b) == Ok(vs)
    ensures AllWithinLimits(vs) && b == EncodeParcel(code, flags, vs)
  {
    var (magic, b1) := TakeU32(b).value;
    U32Exact(b, magic, b1);
    var b2, b3;
    code, b2 := TakeU32(b1).value.0, TakeU32(b1).value.1;
    U32Exact(b1, code, b2);
    flags, b3 := TakeU32(b2).value.0, TakeU32(b2).value.1;
    U32Exact(b2, flags, b3);
    var (n, b4) := TakeCount(b3, MAX_VALUES).value;
    CountExact(b3, MAX_VALUES, n, b4);
    ValuesSound(b4, n, vs, []);
    assert EncodeValues(vs) + [] == EncodeValues(vs);
  }

  lemma DecodeComplete(code: u32, flags: u32, vs: seq<Value>)
    requires AllWithinLimits(vs)
    ensures DecodeParcel(EncodeParcel(code, flags, vs)) == Ok(vs)
  {
    var b4 := EncodeValues(vs);
    var b3 := U32(|vs|) + b4;
    var b2 := U32(flags) + b3;
    var b1 := U32(code) + b2;
    U32Exact(U32(MAGIC) + b1, MAGIC, b1);
    U32Exact(b1, code, b2);
    U32Exact(b2, flags, b3);
    CountExact(b3, MAX_VALUES, |vs|, b4);
    assert b4 + [] == b4;
    ValuesComplete(vs, []);
  }

  // ---- the encoder's loops -----------------------------------------------------------------

  method AppendElements(out: seq<byte>, es: seq<u64>) returns (r: seq<byte>)
    ensures r == out + Elements(es)
  {
    r := out;
    for i := 0 to |es|
      invariant r + Elements(es[i..]) == out + Elements(es)
    {
      assert es[i..][1..] == es[i + 1..];
      Glue(r, U64(es[i]), Elements(es[i + 1..]));
      r := r + U64(es[i]);
    }
    assert Elements(es[|es|..]) == [];
  }

  method AppendStrings(out: seq<byte>, ss: seq<seq<byte>>) returns (r: seq<byte>)
    ensures r == out + Strings(ss)
  {
    r := out;
    for i := 0 to |ss|
      invariant r + Strings(ss[i..]) == out + Strings(ss)
    {
      assert ss[i..][1..] == ss[i + 1..];
      Glue(r, Text(ss[i]), Strings(ss[i + 1..]));
      Glue(r, U32(|ss[i]|), ss[i]);
      r := r + U32(|ss[i]|) + ss[i];
    }
    assert Strings(ss[|ss|..]) == [];
  }

  method AppendValue(out: seq<byte>, v: Value) returns (r: seq<byte>)
    ensures r == out + EncodeValue(v)
  {
    ghost var t5 := U32(|v.strings|) + Strings(v.strings);
    ghost var t4 := Elements(v.elements) + t5;
    ghost var t3 := U32(|v.elements|) + t4;
    ghost var t2 := Text(v.text) + t3;
    ghost var t1 := U64(v.value) + t2;
    r := out + U32(v.kind);
    Glue(out, U32(v.kind), t1);
    Glue(r, U64(v.value), t2);
    r := r + U64(v.value);
    Glue(r, Text(v.text), t3);
    Glue(r, U32(|v.text|), v.text);
    r := r + U32(|v.text|) + v.text;
    Glue(r, U32(|v.elements|), t4);
    r := r + U32(|v.elements|);
    Glue(r, Elements(v.elements), t5);
    r := AppendElements(r, v.elements);
    Glue(r, U32(|v.strings|), Strings(v.strings));
    r := r + U32(|v.strings|);
    r := AppendStrings(r, v.strings);
  }

  /** A missing parcel encodes like an empty one. */
  method Encode(parcel: Option<seq<Value>>, code: u32, flags: u32) returns (out: seq<byte>)
    ensures out == EncodeParcel(code, flags, if parcel.Some? then parcel.value else [])
  {
    var vs := if parcel.Some? then parcel.value else [];
    out := U32(MAGIC) + U32(code) + U32(flags) + U32(|vs|);
    var header := out;
    Glue(U32(MAGIC), U32(code), U32(flags) + (U32(|vs|) + EncodeValues(vs)));
    Glue(U32(MAGIC) + U32(code), U32(flags), U32(|vs|) + EncodeValues(vs));
    Glue(U32(MAGIC) + U32(code) + U32(flags), U32(|vs|), EncodeValues(vs));
    for i := 0 to |vs|
      invariant out + EncodeValues(vs[i..]) == header + EncodeValues(vs)
    {
      assert vs[i..][1..] == vs[i + 1..];
      Glue(out, EncodeValue(vs[i]), EncodeValues(vs[i + 1..]));
      out := AppendValue(out, vs[i]);
    }
    assert EncodeValues(vs[|vs|..]) == [];
  }

  // ---- the decoder's loops -----------------------------------------------------------------

  /** The input and how much of it has been read. */
  class Reader {
    const input: seq<byte>
    var offset: nat

    constructor (input: seq<byte>)
      ensures this.input == input && offset == 0
    {
      this.input := input;
      offset := 0;
    }

    ghost function Rest(): seq<byte>
      reads this
      requires offset <= |input|
    {
      input[offset..]
    }

    method ReadU32() returns (r: Option<u32>)
      requires offset <= |input|
      modifies this
      ensures offset <= |input|
      ensures TakeU32(old(Rest())) == if r.Some? then Ok((r.value, Rest())) else Err
    {
      if 4 > |input| - offset { return None; }
      ghost var rest := Rest();
      assert input[offset..offset + 4] == rest[..4] && input[offset + 4..] == rest[4..];
      U32Value(rest[..4]);
      r := Some(LeValue(input[offset..offset + 4]));
      offset := offset + 4;
    }

    method ReadU64() returns (r: Option<u64>)
      requires offset <= |input|
      modifies this
      ensures offset <= |input|
      ensures TakeU64(old(Rest())) == if r.Some? then Ok((r.value, Rest())) else Err
    {
      if 8 > |input| - offset { return None; }
      ghost var rest := Rest();
      assert input[offset..offset + 8] == rest[..8] && input[offset + 8..] == rest[8..];
      U64Value(rest[..8]);
      r := Some(LeValue(input[offset..offset + 8]));
      offset := offset + 8;
    }

    method ReadCount(limit: nat) returns (r: Option<u32>)
      requires offset <= |input|
      modifies this
      ensures offset <= |input|
      ensures TakeCount(old(Rest()), limit) == if r.Some? then Ok((r.value, Rest())) else Err
    {
      r := ReadU32();
      if r.Some? && r.value > limit { r := None; }
    }

    method ReadText() returns (r: Option<seq<byte>>)
      requires offset <= |input|
      modifies this
      ensures offset <= |input|
      ensures TakeText(old(Rest())) == if r.Some? then Ok((r.value, Rest())) else Err
    {
      var n := ReadU32();
      if n.None? || n.value > |input| - offset { return None; }
      ghost var rest := Rest();
      assert input[offset..offset + n.value] == rest[..n.value] && input[offset + n.value..] == rest[n.value..];
      r := Some(input[offset..offset + n.value]);
      offset := offset + n.value;
    }

    method ReadElements(n: nat) returns (r: Option<seq<u64>>)
      requires offset <= |input|
      modifies this
      ensures offset <= |input|
      ensures TakeElements(old(Rest()), n) == if r.Some? then Ok((r.value, Rest())) else Err
    {
      var es: seq<u64> := [];
      ghost var goal := TakeElements(Rest(), n);
      assert goal.Ok? ==> [] + goal.value.0 == goal.value.0;
      for i := 0 to n
        invariant offset <= |input|
        invariant goal == After(es, TakeElements(Rest(), n - i))
      {
        var e := ReadU64();
        if e.None? { return None; }
        AfterStep(es, e.value, TakeElements(Rest(), n - i - 1));
        es := es + [e.value];
      }
      assert es + [] == es;
      r := Some(es);
    }

    method ReadStrings(n: nat) returns (r: Option<seq<seq<byte>>>)
      requires offset <= |input|
      modifies this
      ensures offset <= |input|
      ensures TakeStrings(old(Rest()), n) == if r.Some? then Ok((r.value, Rest())) else Err
    {
      var ss: seq<seq<byte>> := [];
      ghost var goal := TakeStrings(Rest(), n);
      assert goal.Ok? ==> [] + goal.value.0 == goal.value.0;
      for i := 0 to n
        invariant offset <= |input|
        invariant goal == After(ss, TakeStrings(Rest(), n - i))
      {
        var s := ReadText();
        if s.None? { return None; }
        AfterStep(ss, s.value, TakeStrings(Rest(), n - i - 1));
        ss := ss + [s.value];
      }
      assert ss + [] == ss;
      r := Some(ss);
    }

    method ReadValue() returns (r: Option<Value>)
      requires offset <= |input|
      modifies this
      ensures offset <= |input|
      ensures TakeValue(old(Rest())) == if r.Some? then Ok((r.value, Rest())) else Err
    {
      var kind := ReadCount(LAST_KIND);
      if kind.None? { return None; }
      var value := ReadU64();
      if value.None? { return None; }
      var text := ReadText();
      if text.None? { return None; }
      var n := ReadCount(MAX_ITEMS);
      if n.None? { return None; }
      var es := ReadElements(n.value);
      if es.None? { return None; }
      var k := ReadCount(MAX_ITEMS);
      if k.None? { return None; }
      var ss := ReadStrings(k.value);
      if ss.None? { return None; }
      r := Some(Value(kind.value, value.value, text.value, es.value, ss.value));
    }
  }

  /** What a list parser yields when `done` was read before. */
  ghost function After<T>(done: seq<T>, r: Result<(seq<T>, seq<byte>)>): Result<(seq<T>, seq<byte>)> {
    if r.Ok? then Ok((done + r.value.0, r.value.1)) else Err
  }

  lemma AfterNothing<T>(r: Result<(seq<T>, seq<byte>)>)
    ensures After([], r) == r
  {
    assert r.Ok? ==> [] + r.value.0 == r.value.0;
  }

  lemma AfterLast<T>(done: seq<T>, rest: seq<byte>)
    ensures After(done, Ok(([], rest))) == Ok((done, rest))
  {
    assert done + [] == done;
  }

  lemma AfterStep<T>(done: seq<T>, x: T, r: Result<(seq<T>, seq<byte>)>)
    ensures After(done, if r.Ok? then Ok(([x] + r.value.0, r.value.1)) else Err) == After(done + [x], r)
  {
    assert r.Ok? ==> done + ([x] + r.value.0) == (done + [x]) + r.value.0;
  }

  method Decode(input: seq<byte>) returns (r: Option<seq<Value>>)
    ensures DecodeParcel(input) == if r.Some? then Ok(r.value) else Err
  {
    var reader := new Reader(input);
    assert reader.Rest() == input;
    var magic := reader.ReadU32();
    if magic.None? || magic.value != MAGIC { return None; }
    var code := reader.ReadU32();
    if code.None? { return None; }
    var flags := reader.ReadU32();
    if flags.None? { return None; }
    var count := reader.ReadCount(MAX_VALUES);
    if count.None? { return None; }
    var vs := DecodeValues(reader, count.value);
    if vs.Some? && reader.offset == |input| { r := vs; } else { r := None; }
  }

  lemma TakeValuesStep(b: seq<byte>, n: nat)
    requires n > 0
    ensures TakeValue(b).Err? ==> TakeValues(b, n).Err?
    ensures TakeValue(b).Ok? ==>
              var (v, b1) := TakeValue(b).value;
              var r := TakeValues(b1, n - 1);
              TakeValues(b, n) == if r.Ok? then Ok(([v] + r.value.0, r.value.1)) else Err
  {
  }

  lemma {:induction false} GoalStep(goal: Result<(seq<Value>, seq<byte>)>, done: seq<Value>, b: seq<byte>, n: nat)
    requires n > 0 && goal == After(done, TakeValues(b, n))
    ensures TakeValue(b).Err? ==> goal.Err?
    ensures TakeValue(b).Ok? ==> goal == After(done + [TakeValue(b).value.0], TakeValues(TakeValue(b).value.1, n - 1))
  {
    TakeValuesStep(b, n);
    if TakeValue(b).Ok? {
      AfterStep(done, TakeValue(b).value.0, TakeValues(TakeValue(b).value.1, n - 1));
    }
  }

  method DecodeValues(reader: Reader, n: nat) returns (r: Option<seq<Value>>)
    requires reader.offset <= |reader.input|
    modifies reader
    ensures reader.offset <= |reader.input|
    ensures TakeValues(old(reader.Rest()), n) == if r.Some? then Ok((r.value, reader.Rest())) else Err
  {
    var vs: seq<Value> := [];
    ghost var goal := TakeValues(reader.Rest(), n);
    AfterNothing(goal);
    for i := 0 to n
      invariant reader.offset <= |reader.input|
      invariant goal == After(vs, TakeValues(reader.Rest(), n - i))
    {
      ghost var b := reader.Rest();
      var v := reader.ReadValue();
      GoalStep(goal, vs, b, n - i);
      if v.None? { return None; }
      vs := vs + [v.value];
    }
    AfterLast(vs, reader.Rest());
    r := Some(vs);
  }
}
