/** Building a DT_GNU_HASH table the way a static linker does, and counting its symbols the
    way the direct loader does. */
module GnuHashBuild {
  import opened Words
  import opened GnuHash

  /** Index of the first symbol from `i` on in bucket `b` of `n`, or 0 (no symbol) if none. */
  function Head(names: seq<seq<byte>>, n: nat, b: nat, i: nat): (r: nat)
    requires n > 0
    ensures r != 0 ==> i <= r < |names| && Residue(Hash(names[r]), n) == b
    ensures forall j :: i <= j < |names| && Residue(Hash(names[j]), n) == b && i > 0 ==> i <= r <= j
    decreases |names| - i
  {
    if i >= |names| then 0
    else if Residue(Hash(names[i]), n) == b then i
    else Head(names, n, b, i + 1)
  }

  /** Bloom word `k` of `n`: the masks of the symbols in `[from, upto)` that fall on it. */
  function BloomWord(names: seq<seq<byte>>, shift: nat, n: nat, k: nat, from: nat, upto: nat): nat
    requires n > 0 && from <= upto <= |names|
    decreases upto
  {
    if from == upto then 0
    else
      var word := BloomWord(names, shift, n, k, from, upto - 1);
      var name := names[upto - 1];
      if Residue(Hash(name) / 64, n) == k then Or(word, NameMask(shift, name)) else word
  }

  lemma {:induction false} BloomWordHolds(names: seq<seq<byte>>, shift: nat, n: nat, k: nat, from: nat, upto: nat, i: nat)
    requires n > 0 && from <= i < upto <= |names| && Residue(Hash(names[i]) / 64, n) == k
    ensures And(BloomWord(names, shift, n, k, from, upto), NameMask(shift, names[i])) == NameMask(shift, names[i])
    decreases upto
  {
    var word, mask := BloomWord(names, shift, n, k, from, upto - 1), NameMask(shift, names[i]);
    if i == upto - 1 {
      OrContains(word, mask);
    } else {
      BloomWordHolds(names, shift, n, k, from, upto - 1, i);
      if Residue(Hash(names[upto - 1]) / 64, n) == k {
        OrKeeps(word, NameMask(shift, names[upto - 1]), mask);
      }
    }
  }

  ghost predicate Grouped(names: seq<seq<byte>>, from: nat, n: nat)
    requires n > 0
  {
    forall i, j :: from <= i < j < |names| ==> Residue(Hash(names[i]), n) <= Residue(Hash(names[j]), n)
  }

  predicate EndOfBucket(names: seq<seq<byte>>, n: nat, i: nat)
    requires n > 0 && i < |names|
  {
    i + 1 == |names| || Residue(Hash(names[i + 1]), n) != Residue(Hash(names[i]), n)
  }

  function ChainEntry(names: seq<seq<byte>>, n: nat, i: nat): u32
    requires n > 0 && i < |names|
  {
    Hash(names[i]) / 2 * 2 + if EndOfBucket(names, n, i) then 1 else 0
  }

  function Blooms(names: seq<seq<byte>>, shift: nat, n: nat, symoffset: nat): (r: seq<nat>)
    requires n > 0 && symoffset <= |names|
    ensures |r| == n && forall k :: 0 <= k < n ==> r[k] == BloomWord(names, shift, n, k, symoffset, |names|)
  {
    seq(n, (k: nat) => BloomWord(names, shift, n, k, symoffset, |names|))
  }

  function Heads(names: seq<seq<byte>>, n: nat, symoffset: nat): (r: seq<u32>)
    requires n > 0 && |names| < 0x1_0000_0000
    ensures |r| == n && forall b :: 0 <= b < n ==> r[b] == Head(names, n, b, symoffset)
  {
    seq<u32>(n, (b: nat) => Head(names, n, b, symoffset))
  }

  function ChainEntries(names: seq<seq<byte>>, n: nat, symoffset: nat): (r: seq<u32>)
    requires n > 0 && symoffset <= |names|
    ensures symoffset + |r| == |names|
    ensures forall i :: symoffset <= i < |names| ==> r[i - symoffset] == ChainEntry(names, n, i)
  {
    seq<u32>(|names| - symoffset,
             (k: nat) requires k < |names| - symoffset => ChainEntry(names, n, k + symoffset))
  }

  function Build(names: seq<seq<byte>>, symoffset: nat, nbuckets: nat, nbloom: nat, shift: nat): Table
    requires symoffset <= |names| < 0x1_0000_0000 && nbuckets > 0 && nbloom > 0
  {
    Table(symoffset, shift, Blooms(names, shift, nbloom, symoffset), Heads(names, nbuckets, symoffset),
          ChainEntries(names, nbuckets, symoffset))
  }

  /** The linker's lookup works on every table built from symbols grouped by bucket. */
  lemma BuiltIsWellFormed(names: seq<seq<byte>>, symoffset: nat, nbuckets: nat, nbloom: nat, shift: nat)
    requires 1 <= symoffset <= |names| < 0x1_0000_0000 && nbuckets > 0 && nbloom > 0
    requires Grouped(names, symoffset, nbuckets)
    ensures WellFormed(Build(names, symoffset, nbuckets, nbloom, shift), names)
  {
    var t := Build(names, symoffset, nbuckets, nbloom, shift);
    BuiltChains(t, names);
    BuiltHeads(t, names);
    BuiltFilter(t, names);
  }

  lemma BuiltChains(t: Table, names: seq<seq<byte>>)
    requires t.buckets != [] && t.symoffset <= |names|
    requires t.chains == ChainEntries(names, |t.buckets|, t.symoffset)
    ensures Chained(t, names)
  {
    forall i | Hashed(t, names, i)
      ensures ChainWord(t, names, i, t.chains[i - t.symoffset])
    {
      assert t.chains[i - t.symoffset] == ChainEntry(names, |t.buckets|, i);
    }
  }

  lemma BuiltHeads(t: Table, names: seq<seq<byte>>)
    requires t.buckets != [] && 1 <= t.symoffset && |names| < 0x1_0000_0000
    requires t.buckets == Heads(names, |t.buckets|, t.symoffset)
    ensures Headed(t, names)
  {
    forall i | Hashed(t, names, i)
      ensures t.symoffset <= t.buckets[Bucket(t, names[i])] <= i
    {
      assert Residue(Hash(names[i]), |t.buckets|) == Bucket(t, names[i]);
    }
  }

  lemma BuiltFilter(t: Table, names: seq<seq<byte>>)
    requires t.bloom != [] && t.symoffset <= |names|
    requires t.bloom == Blooms(names, t.shift, |t.bloom|, t.symoffset)
    ensures Filtered(t, names)
  {
    forall i | Hashed(t, names, i)
      ensures And(t.bloom[BloomIndex(t, names[i])], NameMask(t.shift, names[i])) == NameMask(t.shift, names[i])
    {
      BloomWordHolds(names, t.shift, |t.bloom|, BloomIndex(t, names[i]), t.symoffset, |names|, i);
    }
  }

  // ---- counting symbols ------------------------------------------------------------

  /** Where the walk starts: the head of the last non-empty bucket. */
  function LastHead(t: Table, names: seq<seq<byte>>): nat
    requires t.buckets != [] && t.symoffset < |names|
  {
    t.buckets[Bucket(t, names[|names| - 1])]
  }

  /** The direct loader's count. `after` is whatever the file holds behind the chains. It is
      right exactly when the last chain has at most 65536 words or, for a table without hashed
      symbols, when the file ends at the table. */
  method CountSymbols(t: Table, after: seq<u32>, ghost names: seq<seq<byte>>) returns (count: nat)
    requires Sorted(t, names) && Chained(t, names) && Headed(t, names)
    ensures t.symoffset < |names| ==> count == Min(|names|, LastHead(t, names) + 65536)
    ensures count == |names| <==>
            if t.symoffset < |names| then |names| - LastHead(t, names) <= 65536 else after == []
  {
    var start := MaxBucket(t);
    MaxBucketIsLast(t, names, start);
    count := WalkToEnd(t, after, start, names);
  }

  method MaxBucket(t: Table) returns (max: nat)
    ensures max >= t.symoffset && forall b :: 0 <= b < |t.buckets| ==> t.buckets[b] <= max
    ensures max == t.symoffset || exists b :: 0 <= b < |t.buckets| && t.buckets[b] == max
  {
    max := t.symoffset;
    for b := 0 to |t.buckets|
      invariant max >= t.symoffset && forall c :: 0 <= c < b ==> t.buckets[c] <= max
      invariant max == t.symoffset || exists c :: 0 <= c < b && t.buckets[c] == max
    {
      if t.buckets[b] > max {
        max := t.buckets[b];
      }
    }
  }

  lemma MaxBucketIsLast(t: Table, names: seq<seq<byte>>, max: nat)
    requires Sorted(t, names) && Headed(t, names)
    requires max >= t.symoffset && forall b :: 0 <= b < |t.buckets| ==> t.buckets[b] <= max
    requires max == t.symoffset || exists b :: 0 <= b < |t.buckets| && t.buckets[b] == max
    ensures t.symoffset < |names| ==> max == LastHead(t, names)
    ensures t.symoffset >= |names| ==> max == t.symoffset
  {
    if t.symoffset < |names| {
      var n := |names| - 1;
      assert Hashed(t, names, n);
      assert forall b :: 0 <= b < |t.buckets| && t.symoffset <= t.buckets[b] ==>
          Hashed(t, names, t.buckets[b]) && b <= Bucket(t, names[n]) && t.buckets[b] <= LastHead(t, names);
    }
  }

  method WalkToEnd(t: Table, after: seq<u32>, start: nat, ghost names: seq<seq<byte>>) returns (sym: nat)
    requires Sorted(t, names) && Chained(t, names) && Headed(t, names)
    requires t.symoffset < |names| ==> start == LastHead(t, names)
    requires t.symoffset >= |names| ==> start == t.symoffset
    ensures t.symoffset < |names| ==> sym == Min(|names|, start + 65536)
    ensures t.symoffset >= |names| ==> (sym == |names| <==> after == [])
  {
    var words := t.chains + after;
    sym := start;
    var iter := 0;
    while iter < 65536
      invariant 0 <= iter <= 65536 && sym == start + iter
      invariant t.symoffset < |names| ==> sym < |names|
      invariant t.symoffset >= |names| && iter > 0 ==> after != []
    {
      if sym - t.symoffset >= |words| { break; }
      var chain := words[sym - t.symoffset];
      if t.symoffset < |names| {
        InLastChain(t, names, sym);
      }
      if chain % 2 == 1 {
        sym := sym + 1;
        break;
      }
      sym := sym + 1;
      iter := iter + 1;
    }
  }

  /** From the last head on, only the very last symbol ends a chain. */
  lemma InLastChain(t: Table, names: seq<seq<byte>>, i: nat)
    requires Sorted(t, names) && Chained(t, names) && Headed(t, names) && t.symoffset < |names|
    requires LastHead(t, names) <= i < |names|
    ensures t.symoffset <= i && (t.chains[i - t.symoffset] % 2 == 1 <==> i + 1 == |names|)
  {
    var n, head := |names| - 1, LastHead(t, names);
    assert Hashed(t, names, n);
    assert Hashed(t, names, i) && Hashed(t, names, head);
    SameBucket(t, names, head, i);
    if i < n {
      SameBucket(t, names, head, i + 1);
    }
  }

  lemma SameBucket(t: Table, names: seq<seq<byte>>, head: nat, i: nat)
    requires Sorted(t, names) && t.symoffset <= head <= i < |names|
    requires Bucket(t, names[head]) == Bucket(t, names[|names| - 1])
    ensures Bucket(t, names[i]) == Bucket(t, names[head])
  {
    assert head < i ==> Bucket(t, names[head]) <= Bucket(t, names[i]);
    assert i < |names| - 1 ==> Bucket(t, names[i]) <= Bucket(t, names[|names| - 1]);
  }
}
