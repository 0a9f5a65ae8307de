/** DT_GNU_HASH: the linker's lookup through Bloom filter, buckets and chains agrees with a
    linear search, and the direct loader's chain walk counts the symbols. */
module GnuHash {
  import opened Words

  // ---- names and their hash -------------------------------------------------------

  /** 32-bit hash of a C string. */
  function Hash(name: seq<byte>): u32 {
    if name == [] then 5381
    else Wrap32(33 * Hash(name[..|name| - 1]) + name[|name| - 1])
  }

  method ComputeHash(name: seq<byte>) returns (h: u32)
    ensures h == Hash(name)
  {
    h := 5381;
    for i := 0 to |name|
      invariant h == Hash(name[..i])
    {
      assert name[..i + 1][..i] == name[..i];
      HashStep(h, name[i]);
      h := Wrap32(Wrap32(h as int * 32) as int + h + name[i]);
    }
    assert name[..|name|] == name;
  }

  lemma HashStep(h: u32, c: byte)
    ensures Wrap32(Wrap32(h as int * 32) as int + h + c) == Wrap32(33 * h as int + c)
  {
  }

  /** The NUL-terminated string at an offset of the string table. */
  predicate StringAt(strtab: seq<byte>, off: nat, name: seq<byte>) {
    off + |name| < |strtab| && strtab[off..off + |name|] == name && strtab[off + |name|] == 0 && 0 !in name
  }

  lemma StringAtUnique(strtab: seq<byte>, off: nat, a: seq<byte>, b: seq<byte>)
    requires StringAt(strtab, off, a) && StringAt(strtab, off, b)
    ensures a == b
  {
  }

  /** `strcmp(strtab + off, name) == 0`. */
  method SameString(strtab: seq<byte>, off: nat, name: seq<byte>) returns (same: bool)
    requires off < |strtab| && strtab[|strtab| - 1] == 0 && 0 !in name
    ensures same == StringAt(strtab, off, name)
  {
    var i := 0;
    while strtab[off + i] != 0 && i < |name| && strtab[off + i] == name[i]
      invariant off + i < |strtab| && i <= |name|
      invariant strtab[off..off + i] == name[..i]
      decreases |name| - i
    {
      assert strtab[off..off + i + 1] == strtab[off..off + i] + [name[i]];
      i := i + 1;
    }
    same := i == |name| && strtab[off + i] == 0;
  }

  // ---- tables ----------------------------------------------------------------------

  datatype Table = Table(symoffset: nat, shift: nat, bloom: seq<nat>, buckets: seq<u32>, chains: seq<u32>)

  /** The remainder, by repeated subtraction. */
  function Residue(h: nat, n: nat): (r: nat)
    requires n > 0
    ensures r < n
  {
    if h < n then h else Residue(h - n, n)
  }

  lemma {:induction false} ResidueIsMod(h: nat, n: nat)
    requires n > 0
    ensures Residue(h, n) == h % n
  {
    var q, r := h / n, h % n;
    if h >= n {
      ResidueIsMod(h - n, n);
      MulDistribute(n, q, 1);
      ModUnique(h - n, n, q - 1, r);
    } else {
      ModUnique(h, n, 0, h);
    }
  }

  function Bucket(t: Table, name: seq<byte>): nat
    requires t.buckets != []
  {
    Residue(Hash(name), |t.buckets|)
  }

  /** The two bits a name sets in its Bloom word. */
  function NameMask(shift: nat, name: seq<byte>): nat {
    Or(Pow2(Hash(name) % 64), Pow2((Hash(name) / Pow2(shift)) % 64))
  }

  function BloomIndex(t: Table, name: seq<byte>): nat
    requires t.bloom != []
  {
    Residue(Hash(name) / 64, |t.bloom|)
  }

  predicate Hashed(t: Table, names: seq<seq<byte>>, i: int) {
    t.symoffset <= i < |names|
  }

  predicate LastOfChain(t: Table, names: seq<seq<byte>>, i: int)
    requires t.buckets != [] && Hashed(t, names, i)
  {
    i + 1 == |names| || Bucket(t, names[i + 1]) != Bucket(t, names[i])
  }

  predicate ChainWord(t: Table, names: seq<seq<byte>>, i: int, word: u32)
    requires t.buckets != [] && Hashed(t, names, i)
  {
    word / 2 == Hash(names[i]) / 2 && (word % 2 == 1 <==> LastOfChain(t, names, i))
  }

  /** Symbols are grouped by bucket. */
  ghost predicate Sorted(t: Table, names: seq<seq<byte>>) {
    && t.buckets != []
    && forall i, j :: t.symoffset <= i < j < |names| ==> Bucket(t, names[i]) <= Bucket(t, names[j])
  }

  ghost predicate Chained(t: Table, names: seq<seq<byte>>) {
    && t.buckets != [] && t.symoffset + |t.chains| == |names|
    && forall i :: Hashed(t, names, i) ==> ChainWord(t, names, i, t.chains[i - t.symoffset])
  }

  /** A bucket holds its first symbol, or something below `symoffset` when it is empty. */
  ghost predicate Headed(t: Table, names: seq<seq<byte>>) {
    && t.buckets != []
    && (forall i :: Hashed(t, names, i) ==> t.symoffset <= t.buckets[Bucket(t, names[i])] <= i)
    && (forall b :: 0 <= b < |t.buckets| && t.symoffset <= t.buckets[b] ==>
          Hashed(t, names, t.buckets[b]) && Bucket(t, names[t.buckets[b]]) == b)
  }

  ghost predicate Filtered(t: Table, names: seq<seq<byte>>) {
    && t.bloom != []
    && forall i :: Hashed(t, names, i) ==>
         And(t.bloom[BloomIndex(t, names[i])], NameMask(t.shift, names[i])) == NameMask(t.shift, names[i])
  }

  /** The index a static linker writes for the symbol names `names`. */
  ghost predicate WellFormed(t: Table, names: seq<seq<byte>>) {
    Sorted(t, names) && Chained(t, names) && Headed(t, names) && Filtered(t, names)
  }

  /** Linear search: the lowest index from `i` on bearing the name. */
  function FirstNamed(names: seq<seq<byte>>, name: seq<byte>, i: nat): (r: Option<nat>)
    ensures r.Some? ==> i <= r.value < |names| && names[r.value] == name
    ensures r.Some? ==> forall j :: i <= j < r.value ==> names[j] != name
    ensures r.None? ==> forall j :: i <= j < |names| ==> names[j] != name
    decreases |names| - i
  {
    if i >= |names| then None
    else if names[i] == name then Some(i)
    else FirstNamed(names, name, i + 1)
  }

  /** The lowest symbol bearing the name, provided its chain position is below the loop limit. */
  function Expected(t: Table, names: seq<seq<byte>>, name: seq<byte>): Option<nat>
    requires t.buckets != []
  {
    match FirstNamed(names, name, t.symoffset)
    case None => None
    case Some(i) => if i - t.buckets[Bucket(t, name)] < 10000 then Some(i) else None
  }

  /** What an object keeps of its tables: absent ones are null pointers. */
  datatype Object = Object(table: Option<Table>, symtab: Option<seq<u32>>, strtab: Option<seq<byte>>)

  /** The symbol and string tables spell `names`. */
  ghost predicate Spells(symtab: seq<u32>, strtab: seq<byte>, names: seq<seq<byte>>) {
    && |symtab| == |names|
    && strtab != [] && strtab[|strtab| - 1] == 0
    && forall i :: 0 <= i < |names| ==> StringAt(strtab, symtab[i], names[i])
  }

  ghost predicate Describes(obj: Object, names: seq<seq<byte>>) {
    obj.table.Some? && obj.symtab.Some? && obj.strtab.Some? ==>
      WellFormed(obj.table.value, names) && Spells(obj.symtab.value, obj.strtab.value, names)
  }

  /** On every well-formed table the result is that of the linear search, as long as the symbol
      sits within the first 10000 of its chain. */
  method LookupGnuHash(obj: Object, name: seq<byte>, ghost names: seq<seq<byte>>) returns (r: Option<nat>)
    requires Describes(obj, names) && 0 !in name
    ensures r == if obj.table.Some? && obj.symtab.Some? && obj.strtab.Some?
                 then Expected(obj.table.value, names, name) else None
  {
    if obj.table.None? || obj.symtab.None? || obj.strtab.None? {
      return None;
    }
    var t := obj.table.value;
    var hash := ComputeHash(name);
    ResidueIsMod(hash / 64, |t.bloom|);
    ResidueIsMod(hash, |t.buckets|);
    var word := t.bloom[(hash / 64) % |t.bloom|];
    var mask := Or(Pow2(hash % 64), Pow2((hash / Pow2(t.shift)) % 64));
    if And(word, mask) != mask {
      return None;
    }
    var bucket := t.buckets[hash % |t.buckets|];
    if bucket < t.symoffset {
      return None;
    }
    ghost var last;
    r, last := WalkChain(t, obj.symtab.value, obj.strtab.value, name, hash, bucket, names);
    WalkIsSearch(t, names, name, last);
  }

  /** Walks one chain; `last` is the last symbol looked at. */
  method WalkChain(t: Table, symtab: seq<u32>, strtab: seq<byte>, name: seq<byte>, hash: u32, bucket: u32,
                   ghost names: seq<seq<byte>>) returns (r: Option<nat>, ghost last: nat)
    requires Chained(t, names) && Spells(symtab, strtab, names) && 0 !in name && hash == Hash(name)
    requires Hashed(t, names, bucket) && Bucket(t, names[bucket]) == Bucket(t, name)
    ensures Walked(t, names, name, bucket, last)
    ensures r == if names[last] == name then Some(last) else None
  {
    var i: nat, limit := bucket, 10000;
    last := bucket;
    while limit > 0
      invariant bucket <= i < |names| && Bucket(t, names[i]) == Bucket(t, name)
      invariant limit == 10000 - (i - bucket)
      invariant forall j :: bucket <= j < i ==> names[j] != name
      invariant limit < 10000 ==> last == i - 1 && Bucket(t, names[last]) == Bucket(t, name)
      decreases limit
    {
      last := i;
      var chain := t.chains[i - t.symoffset];
      assert Hashed(t, names, i);
      XorHigh(chain, hash);
      if Xor(chain, hash) / 2 == 0 {
        if symtab[i] < |strtab| {
          var same := SameString(strtab, symtab[i], name);
          if same {
            StringAtUnique(strtab, symtab[i], names[i], name);
            return Some(i), i;
          }
        }
      }
      assert names[i] != name;
      if chain % 2 == 1 {
        return None, i;
      }
      i, limit := i + 1, limit - 1;
    }
    r := None;
  }

  /** No symbol of the chain before `last` bears the name, and the walk had a reason to stop. */
  ghost predicate Walked(t: Table, names: seq<seq<byte>>, name: seq<byte>, bucket: nat, last: nat)
    requires t.buckets != []
  {
    && Hashed(t, names, bucket) && bucket <= last < |names| && last - bucket < 10000
    && Bucket(t, names[last]) == Bucket(t, name)
    && (forall j :: bucket <= j < last ==> names[j] != name)
    && (names[last] == name || LastOfChain(t, names, last) || last - bucket == 9999)
  }

  lemma WalkIsSearch(t: Table, names: seq<seq<byte>>, name: seq<byte>, last: nat)
    requires Sorted(t, names) && Headed(t, names)
    requires Walked(t, names, name, t.buckets[Bucket(t, name)], last)
    ensures Expected(t, names, name) == if names[last] == name then Some(last) else None
  {
    var bucket := t.buckets[Bucket(t, name)];
    NoneBefore(t, names, name, bucket);
    if names[last] == name {
      FirstIs(names, name, t.symoffset, bucket, last);
    } else if LastOfChain(t, names, last) {
      EndOfChain(t, names, name, last);
      NoneIs(names, name, t.symoffset, bucket, last);
    } else {
      FirstNotBefore(names, name, t.symoffset, bucket, last);
    }
  }

  lemma FirstIs(names: seq<seq<byte>>, name: seq<byte>, from: nat, mid: nat, i: nat)
    requires from <= mid <= i < |names| && names[i] == name
    requires forall j :: from <= j < mid ==> names[j] != name
    requires forall j :: mid <= j < i ==> names[j] != name
    ensures FirstNamed(names, name, from) == Some(i)
  {
  }

  lemma NoneIs(names: seq<seq<byte>>, name: seq<byte>, from: nat, mid: nat, i: nat)
    requires from <= mid <= i < |names| && names[i] != name
    requires forall j :: from <= j < mid ==> names[j] != name
    requires forall j :: mid <= j < i ==> names[j] != name
    requires forall j :: i < j < |names| ==> names[j] != name
    ensures FirstNamed(names, name, from) == None
  {
  }

  lemma FirstNotBefore(names: seq<seq<byte>>, name: seq<byte>, from: nat, mid: nat, i: nat)
    requires from <= mid <= i < |names| && names[i] != name
    requires forall j :: from <= j < mid ==> names[j] != name
    requires forall j :: mid <= j < i ==> names[j] != name
    ensures FirstNamed(names, name, from).Some? ==> FirstNamed(names, name, from).value > i
  {
  }

  lemma NoneBefore(t: Table, names: seq<seq<byte>>, name: seq<byte>, bucket: nat)
    requires Headed(t, names) && bucket == t.buckets[Bucket(t, name)]
    ensures forall j :: t.symoffset <= j < bucket && j < |names| ==> names[j] != name
  {
    forall j | t.symoffset <= j < bucket && j < |names|
      ensures names[j] != name
    {
      assert Hashed(t, names, j);
    }
  }

  /** After the last word of the name's chain no symbol can bear the name. */
  lemma EndOfChain(t: Table, names: seq<seq<byte>>, name: seq<byte>, i: nat)
    requires Sorted(t, names) && Hashed(t, names, i)
    requires Bucket(t, names[i]) == Bucket(t, name) && LastOfChain(t, names, i)
    ensures forall j :: i < j < |names| ==> names[j] != name
  {
    forall j | i < j < |names|
      ensures names[j] != name
    {
      assert Bucket(t, names[i]) <= Bucket(t, names[i + 1]);
      assert j > i + 1 ==> Bucket(t, names[i + 1]) <= Bucket(t, names[j]);
    }
  }

  // ---- the hash and the table format, written out ----------------------------------------------------

  function Power33(n: nat): nat {
    if n == 0 then 1 else 33 * Power33(n - 1)
  }

  /** The sum of the characters from `i` on, each times 33 to the number of characters behind it. */
  function WeightedSum(name: seq<byte>, i: nat): nat
    requires i <= |name|
    decreases |name| - i
  {
    if i == |name| then 0 else name[i] as int * Power33(|name| - 1 - i) + WeightedSum(name, i + 1)
  }

  /** The hash in closed form: 5381 times 33 to the length plus the weighted sum, modulo 2^32. */
  lemma {:induction false} HashMeans(name: seq<byte>)
    ensures Hash(name) == (5381 * Power33(|name|) + WeightedSum(name, 0)) % 0x1_0000_0000
  {
    if name != [] {
      var k := |name| - 1;
      var init, c: nat := name[..k], name[k] as nat;
      HashMeans(init);
      SumGrows(name, 0);
      var x: nat := 5381 * Power33(k) + WeightedSum(init, 0);
      assert 5381 * (33 * Power33(k)) == 33 * (5381 * Power33(k));
      assert 5381 * Power33(|name|) + WeightedSum(name, 0) == 33 * x + c;
      ModStep(x, c);
    }
  }

  lemma ModStep(x: nat, c: nat)
    ensures (33 * (x % 0x1_0000_0000) + c) % 0x1_0000_0000 == (33 * x + c) % 0x1_0000_0000
  {
  }

  lemma {:induction false} SumGrows(name: seq<byte>, i: nat)
    requires i < |name|
    ensures var k := |name| - 1;
            WeightedSum(name, i) == 33 * WeightedSum(name[..k], i) + name[k] as int
    decreases |name| - i
  {
    var k := |name| - 1;
    if i < k {
      SumGrows(name, i + 1);
      var w, v: nat := Power33(k - 1 - i), name[i] as nat;
      assert Power33(k - i) == 33 * w;
      MulAssoc(v, 33, w);
      MulAssoc(33, v, w);
      assert v * 33 == 33 * v;
    }
  }

  /** Which bucket, Bloom word and Bloom bits a name has. */
  lemma FormatMeans(t: Table, name: seq<byte>)
    requires t.buckets != [] && t.bloom != []
    ensures Bucket(t, name) == Hash(name) % |t.buckets|
    ensures BloomIndex(t, name) == (Hash(name) / 64) % |t.bloom|
    ensures var a, b := Hash(name) % 64, (Hash(name) / Pow2(t.shift)) % 64;
            NameMask(t.shift, name) == if a == b then Pow2(a) else Pow2(a) + Pow2(b)
  {
    ResidueIsMod(Hash(name), |t.buckets|);
    ResidueIsMod(Hash(name) / 64, |t.bloom|);
    OrPowers(Hash(name) % 64, (Hash(name) / Pow2(t.shift)) % 64);
  }

  lemma {:induction false} OrPowers(a: nat, b: nat)
    ensures Or(Pow2(a), Pow2(b)) == if a == b then Pow2(a) else Pow2(a) + Pow2(b)
  {
    if a > 0 && b > 0 {
      OrPowers(a - 1, b - 1);
      OrTwice(Pow2(a - 1), 0, Pow2(b - 1), 0);
    } else if b > 0 {
      OrTwice(0, 1, Pow2(b - 1), 0);
    } else if a > 0 {
      OrTwice(Pow2(a - 1), 0, 0, 1);
    } else {
      OrTwice(0, 1, 0, 1);
    }
  }

  /** Bit by bit from the right. */
  lemma OrTwice(x: nat, p: nat, y: nat, q: nat)
    requires p < 2 && q < 2
    ensures Or(2 * x + p, 2 * y + q) == 2 * Or(x, y) + (if p == 1 || q == 1 then 1 else 0)
  {
    assert (2 * x + p) / 2 == x && (2 * y + q) / 2 == y;
  }
}
