/** JNI symbol escaping, its inverse, and exactly when the escaping can be undone. */
module JniNames {
  import opened Words

  const UNDERSCORE: byte := 0x5f
  const SLASH: byte := 0x2f
  const DOT: byte := 0x2e
  const SEMICOLON: byte := 0x3b
  const BRACKET: byte := 0x5b
  const ZERO: byte := 0x30

  predicate IsAlnum(c: byte) {
    0x30 <= c <= 0x39 || 0x41 <= c <= 0x5a || 0x61 <= c <= 0x7a
  }

  predicate IsSeparator(c: byte) {
    c == SLASH || c == DOT
  }

  function HexDigit(d: nat): byte
    requires d < 16
  {
    if d < 10 then 0x30 + d else 0x57 + d
  }

  function Hex4(c: byte): seq<byte> {
    [ZERO, ZERO, HexDigit(c / 16), HexDigit(c % 16)]
  }

  function Escape(c: byte): seq<byte> {
    if IsAlnum(c) then [c]
    else if IsSeparator(c) then [UNDERSCORE]
    else if c == UNDERSCORE then [UNDERSCORE, 0x31]
    else if c == SEMICOLON then [UNDERSCORE, 0x32]
    else if c == BRACKET then [UNDERSCORE, 0x33]
    else [UNDERSCORE, ZERO] + Hex4(c)
  }

  function Mangle(value: seq<byte>): seq<byte> {
    if value == [] then [] else Escape(value[0]) + Mangle(value[1..])
  }

  /** The loop that appends to the output. */
  method JniMangle(value: seq<byte>) returns (out: seq<byte>)
    ensures out == Mangle(value)
    ensures forall i :: 0 <= i < |out| ==> IsAlnum(out[i]) || out[i] == UNDERSCORE
  {
    out := [];
    for k := 0 to |value|
      invariant out + Mangle(value[k..]) == Mangle(value)
      invariant forall i :: 0 <= i < |out| ==> IsAlnum(out[i]) || out[i] == UNDERSCORE
    {
      var c := value[k];
      MangleStep(value, k, out);
      if IsAlnum(c) {
        out := out + [c];
      } else if c == SLASH || c == DOT {
        out := out + [UNDERSCORE];
      } else if c == UNDERSCORE {
        out := out + [UNDERSCORE, 0x31];
      } else if c == SEMICOLON {
        out := out + [UNDERSCORE, 0x32];
      } else if c == BRACKET {
        out := out + [UNDERSCORE, 0x33];
      } else {
        out := out + ([UNDERSCORE, ZERO] + Hex4(c));
      }
    }
  }

  lemma MangleStep(value: seq<byte>, k: nat, out: seq<byte>)
    requires k < |value|
    ensures out + Mangle(value[k..]) == out + Escape(value[k]) + Mangle(value[k + 1..])
  {
    assert value[k..][1..] == value[k + 1..];
  }

  // ---- the inverse -------------------------------------------------------------------------------------

  function HexValue(c: byte): Option<nat> {
    if 0x30 <= c <= 0x39 then Some(c - 0x30)
    else if 0x61 <= c <= 0x66 then Some(c - 0x57)
    else None
  }

  predicate FourHex(s: seq<byte>) {
    |s| >= 4 && HexValue(s[0]).Some? && HexValue(s[1]).Some? && HexValue(s[2]).Some? && HexValue(s[3]).Some?
  }

  function HexWord(s: seq<byte>): nat
    requires FourHex(s)
  {
    ((HexValue(s[0]).value * 16 + HexValue(s[1]).value) * 16 + HexValue(s[2]).value) * 16 + HexValue(s[3]).value
  }

  /** One character off the front of a mangled name, and how many bytes it takes. */
  function Take(s: seq<byte>): (r: Option<(nat, nat)>)
    requires s != []
    ensures r.Some? ==> 1 <= r.value.1 <= |s|
  {
    if s[0] != UNDERSCORE then Some((s[0] as nat, 1))
    else if |s| >= 2 && s[1] == 0x31 then Some((UNDERSCORE as nat, 2))
    else if |s| >= 2 && s[1] == 0x32 then Some((SEMICOLON as nat, 2))
    else if |s| >= 2 && s[1] == 0x33 then Some((BRACKET as nat, 2))
    else if |s| >= 2 && s[1] == ZERO then
      if FourHex(s[2..]) then Some((HexWord(s[2..]), 6)) else None
    else Some((SLASH as nat, 1))
  }

  function Demangle(s: seq<byte>): Option<seq<nat>>
    decreases |s|
  {
    if s == [] then Some([])
    else
      match Take(s)
      case None => None
      case Some((c, n)) =>
        match Demangle(s[n..])
        case None => None
        case Some(rest) => Some([c] + rest)
  }

  /** Both separators stand for the same one. */
  function Normal(value: seq<byte>): (r: seq<nat>)
    ensures |r| == |value|
  {
    if value == [] then []
    else [if value[0] == DOT then SLASH as nat else value[0] as nat] + Normal(value[1..])
  }

  predicate IsEscapeDigit(c: byte) {
    0x30 <= c <= 0x33
  }

  /** No separator is followed by a digit from 0 to 3, as in every Java name. */
  predicate Safe(value: seq<byte>) {
    forall i :: 0 <= i < |value| - 1 && IsSeparator(value[i]) ==> !IsEscapeDigit(value[i + 1])
  }

  // ---- lemmas --------------------------------------------------------------------------------------------

  lemma MangleFirst(value: seq<byte>)
    requires value != []
    ensures Mangle(value) != []
    ensures Mangle(value)[0] == if IsAlnum(value[0]) then value[0] else UNDERSCORE
  {
  }

  lemma HexRoundTrip(c: byte, rest: seq<byte>)
    ensures FourHex(Hex4(c) + rest) && HexWord(Hex4(c) + rest) == c
  {
    var s := Hex4(c) + rest;
    assert s[0] == ZERO && s[1] == ZERO && s[2] == HexDigit(c / 16) && s[3] == HexDigit(c % 16);
  }

  /** A character that is not a misread separator is taken back exactly. */
  lemma TakeBack(c: byte, rest: seq<byte>)
    requires IsSeparator(c) ==> rest == [] || !IsEscapeDigit(rest[0])
    ensures Take(Escape(c) + rest) == Some((if c == DOT then SLASH as nat else c as nat, |Escape(c)|))
  {
    var s := Escape(c) + rest;
    if !IsAlnum(c) && !IsSeparator(c) && c != UNDERSCORE && c != SEMICOLON && c != BRACKET {
      assert s[2..] == Hex4(c) + rest;
      HexRoundTrip(c, rest);
    }
  }

  lemma DemangleHead(c: byte, rest: seq<byte>)
    requires IsSeparator(c) ==> rest == [] || !IsEscapeDigit(rest[0])
    ensures Demangle(Escape(c) + rest) ==
            match Demangle(rest)
            case None => None
            case Some(r) => Some([if c == DOT then SLASH as nat else c as nat] + r)
  {
    TakeBack(c, rest);
    assert (Escape(c) + rest)[|Escape(c)|..] == rest;
  }

  /** Plain characters at the front of a mangled name are characters of the name. */
  lemma {:induction false} PlainPrefix(value: seq<byte>, k: nat)
    requires k <= |Mangle(value)| && forall i :: 0 <= i < k ==> IsAlnum(Mangle(value)[i])
    ensures k <= |value| && Mangle(value)[k..] == Mangle(value[k..])
    ensures Mangle(value)[..k] == value[..k]
  {
    if k > 0 {
      assert value != [];
      MangleFirst(value);
      var rest := Mangle(value[1..]);
      assert Mangle(value) == [value[0]] + rest;
      forall i | 0 <= i < k - 1 ensures IsAlnum(rest[i]) {
        assert rest[i] == Mangle(value)[i + 1];
      }
      PlainPrefix(value[1..], k - 1);
      PrefixCons(value[0], rest, value[1..], k);
      assert [value[0]] + value[1..] == value;
    }
  }

  lemma PrefixCons(c: byte, a: seq<byte>, b: seq<byte>, k: nat)
    requires 0 < k <= |a| + 1 && k <= |b| + 1 && a[..k - 1] == b[..k - 1]
    ensures ([c] + a)[k..] == a[k - 1..] && ([c] + b)[k..] == b[k - 1..] && ([c] + a)[..k] == ([c] + b)[..k]
  {
    assert ([c] + a)[..k] == [c] + a[..k - 1] && ([c] + b)[..k] == [c] + b[..k - 1];
  }

  /** A separator misread as a hexadecimal escape swallows four more characters of the name. */
  lemma {:induction false} MisreadHex(tail: seq<byte>)
    requires FourHex(Mangle(tail))
    ensures |tail| >= 4 && Mangle(tail)[4..] == Mangle(tail[4..])
  {
    var m := Mangle(tail);
    assert IsAlnum(m[0]) && IsAlnum(m[1]) && IsAlnum(m[2]) && IsAlnum(m[3]);
    PlainPrefix(tail, 4);
  }

  predicate Misread(value: seq<byte>) {
    |value| >= 2 && IsSeparator(value[0]) && IsEscapeDigit(value[1])
  }

  lemma NotMisread(value: seq<byte>)
    requires value != [] && !Misread(value)
    ensures Demangle(Mangle(value)) ==
            match Demangle(Mangle(value[1..]))
            case None => None
            case Some(r) => Some([if value[0] == DOT then SLASH as nat else value[0] as nat] + r)
  {
    if |value| >= 2 {
      MangleFirst(value[1..]);
    }
    DemangleHead(value[0], Mangle(value[1..]));
  }

  /** What a misread separator turns into. */
  lemma MisreadTakes(value: seq<byte>)
    requires Misread(value)
    ensures var s := Mangle(value);
            && |s| >= 2 && s[0] == UNDERSCORE && s[1] == value[1] && s[2..] == Mangle(value[2..])
            && (value[1] != ZERO ==> Take(s).Some? && Take(s).value.0 != SLASH && Take(s).value.1 == 2)
  {
    MangleFirst(value[1..]);
    var m := Mangle(value[1..]);
    assert Mangle(value) == [UNDERSCORE] + m;
    assert m == [value[1]] + Mangle(value[1..][1..]);
    assert value[1..][1..] == value[2..];
  }

  /** Reading back never yields more characters than were written. */
  lemma {:induction false} NeverLonger(value: seq<byte>)
    ensures Demangle(Mangle(value)).Some? ==> |Demangle(Mangle(value)).value| <= |value|
    decreases |value|
  {
    if value != [] {
      if Misread(value) {
        MisreadTakes(value);
        if value[1] == ZERO {
          if FourHex(Mangle(value)[2..]) {
            MisreadHex(value[2..]);
            assert Mangle(value)[6..] == Mangle(value)[2..][4..];
            NeverLonger(value[2..][4..]);
          }
        } else {
          NeverLonger(value[2..]);
        }
      } else {
        NotMisread(value);
        NeverLonger(value[1..]);
      }
    }
  }

  lemma MisreadLoses(value: seq<byte>)
    requires Misread(value)
    ensures Demangle(Mangle(value)) != Some(Normal(value))
  {
    MisreadTakes(value);
    var s := Mangle(value);
    if value[1] != ZERO {
      var rest := Demangle(s[2..]);
      assert rest.Some? ==> ([Take(s).value.0] + rest.value)[0] != Normal(value)[0];
    } else if FourHex(s[2..]) {
      MisreadHex(value[2..]);
      assert s[6..] == s[2..][4..];
      NeverLonger(value[2..][4..]);
    }
  }

  /** Main result: the escaping can be undone exactly when no separator is followed by a digit
      from 0 to 3. */
  lemma {:induction false} RoundTripExactly(value: seq<byte>)
    ensures Demangle(Mangle(value)) == Some(Normal(value)) <==> Safe(value)
  {
    if value != [] {
      if Misread(value) {
        MisreadLoses(value);
      } else {
        NotMisread(value);
        RoundTripExactly(value[1..]);
        SafeTail(value);
        var rest := Demangle(Mangle(value[1..]));
        if rest.Some? {
          ConsExactly(Normal(value)[0], rest.value, Normal(value[1..]));
        }
      }
    }
  }

  lemma ConsExactly(c: nat, a: seq<nat>, b: seq<nat>)
    ensures [c] + a == [c] + b <==> a == b
  {
    assert ([c] + a)[1..] == a && ([c] + b)[1..] == b;
  }

  lemma SafeTail(value: seq<byte>)
    requires value != [] && !Misread(value)
    ensures Safe(value) <==> Safe(value[1..])
  {
    var rest := value[1..];
    if Safe(rest) {
      forall i | 0 <= i < |value| - 1 && IsSeparator(value[i]) ensures !IsEscapeDigit(value[i + 1]) {
        assert i > 0 ==> rest[i - 1] == value[i] && rest[i] == value[i + 1];
      }
    }
    if Safe(value) {
      forall i | 0 <= i < |rest| - 1 && IsSeparator(rest[i]) ensures !IsEscapeDigit(rest[i + 1]) {
        assert rest[i] == value[i + 1] && rest[i + 1] == value[i + 2];
      }
    }
  }

  // ---- when two names share a symbol ----------------------------------------------------------------------

  /** A byte that is written as an underscore and something more. */
  predicate Escaped(c: byte) {
    !IsAlnum(c) && !IsSeparator(c)
  }

  /** What follows the underscore. */
  function Suffix(c: byte): (r: seq<byte>)
    requires Escaped(c)
    ensures Escape(c) == [UNDERSCORE] + r && |r| > 0
    ensures forall i :: 0 <= i < |r| ==> IsAlnum(r[i])
  {
    Escape(c)[1..]
  }

  /** At `i` the name holds an escaped byte, or a separator and then, letter by letter, what an
      escaped byte would be written as: 1, 2, 3, or 0 and the four hexadecimal digits of one that is
      written in hexadecimal. */
  predicate AmbiguousAt(value: seq<byte>, i: nat)
    requires i < |value|
  {
    Escaped(value[i]) ||
    (IsSeparator(value[i]) && exists c: byte :: Escaped(c) && Suffix(c) <= value[i + 1..])
  }

  predicate Ambiguous(value: seq<byte>) {
    exists i :: 0 <= i < |value| && AmbiguousAt(value, i)
  }

  /** The escaped bytes and their suffixes, spelled out. */
  lemma Suffixes(c: byte)
    requires Escaped(c)
    ensures Suffix(c) == if c == UNDERSCORE then [0x31] else if c == SEMICOLON then [0x32]
                         else if c == BRACKET then [0x33] else [ZERO] + Hex4(c)
  {
  }

  lemma {:induction false} MangleConcat(a: seq<byte>, b: seq<byte>)
    ensures Mangle(a + b) == Mangle(a) + Mangle(b)
  {
    if a == [] {
      assert a + b == b;
    } else {
      assert (a + b)[1..] == a[1..] + b;
      MangleConcat(a[1..], b);
    }
  }

  lemma {:induction false} MangleAlnum(value: seq<byte>)
    requires forall i :: 0 <= i < |value| ==> IsAlnum(value[i])
    ensures Mangle(value) == value
  {
    if value != [] {
      MangleAlnum(value[1..]);
    }
  }

  /** A separator and a spelled-out suffix have the symbol of the escaped byte. */
  lemma SpelledOut(separator: byte, c: byte)
    requires IsSeparator(separator) && Escaped(c)
    ensures Mangle([separator] + Suffix(c)) == Mangle([c]) == Escape(c)
  {
    var spelled := [separator] + Suffix(c);
    assert spelled[1..] == Suffix(c);
    MangleAlnum(Suffix(c));
    assert [c][1..] == [];
  }

  /** Exchanging a part for another of the same symbol and a different length makes a collision. */
  lemma Exchange(value: seq<byte>, i: nat, n: nat, part: seq<byte>) returns (other: seq<byte>)
    requires i + n <= |value| && Mangle(value[i..i + n]) == Mangle(part) && |part| != n
    ensures Mangle(other) == Mangle(value) && Normal(other) != Normal(value)
  {
    var front, back := value[..i], value[i + n..];
    other := front + part + back;
    assert value == front + value[i..i + n] + back;
    MangleConcat(front + value[i..i + n], back);
    MangleConcat(front, value[i..i + n]);
    MangleConcat(front + part, back);
    MangleConcat(front, part);
  }

  lemma AmbiguousCollides(value: seq<byte>, i: nat) returns (other: seq<byte>)
    requires i < |value| && AmbiguousAt(value, i)
    ensures Mangle(other) == Mangle(value) && Normal(other) != Normal(value)
  {
    if Escaped(value[i]) {
      SpelledOut(SLASH, value[i]);
      assert value[i..i + 1] == [value[i]];
      other := Exchange(value, i, 1, [SLASH] + Suffix(value[i]));
    } else {
      var c: byte :| Escaped(c) && Suffix(c) <= value[i + 1..];
      SpelledOut(value[i], c);
      var n := 1 + |Suffix(c)|;
      assert value[i..i + n] == [value[i]] + Suffix(c);
      other := Exchange(value, i, n, [c]);
    }
  }

  lemma AmbiguousTail(value: seq<byte>)
    requires value != [] && !Ambiguous(value)
    ensures !AmbiguousAt(value, 0) && !Ambiguous(value[1..])
  {
    var rest := value[1..];
    forall i | 0 <= i < |rest| ensures !AmbiguousAt(rest, i) {
      assert rest[i] == value[i + 1] && rest[i + 1..] == value[i + 2..];
      assert !AmbiguousAt(value, i + 1);
    }
  }

  /** After a separator, no name can continue like the suffix of an escaped byte. */
  lemma SuffixShows(a: seq<byte>, c: byte, more: seq<byte>)
    requires a != [] && IsSeparator(a[0]) && Escaped(c) && Mangle(a[1..]) == Suffix(c) + more
    ensures AmbiguousAt(a, 0)
  {
    var k := |Suffix(c)|;
    assert Mangle(a[1..])[..k] == Suffix(c);
    forall i | 0 <= i < k ensures IsAlnum(Mangle(a[1..])[i]) {
      assert Mangle(a[1..])[i] == Suffix(c)[i];
    }
    PlainPrefix(a[1..], k);
    assert Suffix(c) <= a[0 + 1..];
  }

  lemma MangleCons(value: seq<byte>)
    requires value != [] && !Escaped(value[0])
    ensures Mangle(value) == [if IsAlnum(value[0]) then value[0] else UNDERSCORE] + Mangle(value[1..])
  {
  }

  lemma SameHead(a: seq<byte>, b: seq<byte>)
    requires a != [] && b != [] && !Escaped(a[0]) && !Escaped(b[0]) && Mangle(a) == Mangle(b)
    ensures a[0] == b[0] || (IsSeparator(a[0]) && IsSeparator(b[0]))
    ensures Mangle(a[1..]) == Mangle(b[1..])
  {
    MangleCons(a);
    MangleCons(b);
    assert Mangle(a)[1..] == Mangle(a[1..]) && Mangle(b)[1..] == Mangle(b[1..]);
  }

  lemma EscapedHead(a: seq<byte>, b: seq<byte>)
    requires a != [] && b != [] && !Escaped(a[0]) && Escaped(b[0]) && Mangle(a) == Mangle(b)
    ensures AmbiguousAt(a, 0)
  {
    MangleCons(a);
    MangleEscaped(b);
    var head := if IsAlnum(a[0]) then a[0] else UNDERSCORE;
    ConsSame(head, Mangle(a[1..]), UNDERSCORE, Suffix(b[0]) + Mangle(b[1..]));
    SuffixShows(a, b[0], Mangle(b[1..]));
  }

  lemma MangleEscaped(value: seq<byte>)
    requires value != [] && Escaped(value[0])
    ensures Mangle(value) == [UNDERSCORE] + (Suffix(value[0]) + Mangle(value[1..]))
  {
  }

  lemma ConsSame(x: byte, u: seq<byte>, y: byte, v: seq<byte>)
    requires [x] + u == [y] + v
    ensures x == y && u == v
  {
    assert ([x] + u)[0] == ([y] + v)[0] && ([x] + u)[1..] == u && ([y] + v)[1..] == v;
  }

  lemma {:induction false} UnambiguousAlone(a: seq<byte>, b: seq<byte>)
    requires !Ambiguous(a) && Mangle(a) == Mangle(b)
    ensures Normal(a) == Normal(b)
    decreases |a|
  {
    if a == [] || b == [] {
      if a != [] {
        MangleFirst(a);
      } else if b != [] {
        MangleFirst(b);
      }
    } else {
      AmbiguousTail(a);
      if Escaped(b[0]) {
        EscapedHead(a, b);
      } else {
        SameHead(a, b);
        UnambiguousAlone(a[1..], b[1..]);
      }
    }
  }

  /** Main result: a name shares its symbol with one that is not the same up to the choice of separator
      if and only if it is ambiguous - whatever inverse one has in mind. */
  lemma CollidesExactly(a: seq<byte>)
    ensures (exists b: seq<byte> :: Mangle(b) == Mangle(a) && Normal(b) != Normal(a)) <==> Ambiguous(a)
  {
    if Ambiguous(a) {
      var i :| 0 <= i < |a| && AmbiguousAt(a, i);
      var b := AmbiguousCollides(a, i);
      assert Mangle(b) == Mangle(a);
    } else {
      forall b: seq<byte> | Mangle(b) == Mangle(a) ensures Normal(b) == Normal(a) {
        UnambiguousAlone(a, b);
      }
    }
  }

  /** Among safe names the symbol decides the name, up to the choice of separator. */
  lemma SymbolsDistinct(a: seq<byte>, b: seq<byte>)
    requires Safe(a) && Safe(b)
    ensures Mangle(a) == Mangle(b) <==> Normal(a) == Normal(b)
  {
    if Mangle(a) == Mangle(b) {
      RoundTripExactly(a);
      RoundTripExactly(b);
    }
    if Normal(a) == Normal(b) {
      NormalDecides(a, b);
    }
  }

  lemma {:induction false} NormalDecides(a: seq<byte>, b: seq<byte>)
    requires Normal(a) == Normal(b)
    ensures Mangle(a) == Mangle(b)
  {
    if a != [] {
      assert b != [] && Normal(a)[0] == Normal(b)[0];
      assert Normal(a)[1..] == Normal(a[1..]) && Normal(b)[1..] == Normal(b[1..]);
      NormalDecides(a[1..], b[1..]);
    }
  }

  /** The names "a/1" and "a_" have the same symbol: the separator of the first is followed by a 1. */
  lemma UnsafeNamesCollide()
    ensures var a, b: seq<byte> := [0x61, SLASH, 0x31], [0x61, UNDERSCORE];
            && Mangle(a) == Mangle(b) && Normal(a) != Normal(b) && !Safe(a) && Safe(b) && Ambiguous(a) && Ambiguous(b)
  {
    var a, b: seq<byte> := [0x61, SLASH, 0x31], [0x61, UNDERSCORE];
    assert a == [0x61] + [SLASH, 0x31] && b == [0x61] + [UNDERSCORE];
    assert [SLASH] + Suffix(UNDERSCORE) == [SLASH, 0x31];
    SpelledOut(SLASH, UNDERSCORE);
    MangleConcat([0x61], [SLASH, 0x31]);
    MangleConcat([0x61], [UNDERSCORE]);
    assert IsSeparator(a[1]) && IsEscapeDigit(a[2]);
    assert Suffix(UNDERSCORE) <= a[1 + 1..];
    assert AmbiguousAt(a, 1) && AmbiguousAt(b, 1);
  }

  // ---- the escapes, written out ---------------------------------------------------------------------------

  /** A string of ASCII characters as bytes. */
  function Ascii(text: string): (r: seq<byte>)
    requires forall i :: 0 <= i < |text| ==> text[i] as int < 128
    ensures |r| == |text| && forall i :: 0 <= i < |r| ==> r[i] == text[i] as int
  {
    seq(|text|, i requires 0 <= i < |text| => text[i] as int)
  }

  /** A lower-case hexadecimal digit. */
  function Digit(d: nat): char
    requires d < 16
  {
    "0123456789abcdef"[d]
  }

  /** Mangling goes character by character: letters and digits stand for themselves, both separators for an
      underscore, and every other character for an escape. */
  lemma MangleMeans(c: byte, rest: seq<byte>)
    ensures Mangle([]) == []
    ensures Mangle([c] + rest) ==
            (if 'A' as int <= c <= 'Z' as int || 'a' as int <= c <= 'z' as int || '0' as int <= c <= '9' as int then [c]
             else if c == '/' as int || c == '.' as int then Ascii("_")
             else if c == '_' as int then Ascii("_1")
             else if c == ';' as int then Ascii("_2")
             else if c == '[' as int then Ascii("_3")
             else Ascii("_000" + [Digit(c / 16), Digit(c % 16)])) + Mangle(rest)
  {
    assert ([c] + rest)[1..] == rest;
    DigitIs(c / 16);
    DigitIs(c % 16);
  }

  lemma DigitIs(d: nat)
    requires d < 16
    ensures HexDigit(d) == Digit(d) as int < 128
  {
  }
}
