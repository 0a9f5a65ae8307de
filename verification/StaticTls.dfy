/** Static thread-local storage: offsets after the 256-byte control block, then the copy of
    every object's initial image into the 16384-byte block. */
module StaticTls {
  import opened Words

  const TLS_BLOCK := 16384
  const TCB_SIZE := 256

  /** An object's PT_TLS segment; `image` is the memory at its load address. */
  datatype Segment = Segment(vaddr: u64, filesz: u64, memsz: u64, image: seq<byte>)

  predicate Copied(s: Segment) {
    s.memsz > 0 && s.vaddr > 0
  }

  // ---- layout -------------------------------------------------------------------------

  /** Offsets assigned from position `cur` on; objects without TLS keep offset 0. */
  function Offsets(segs: seq<Segment>, cur: nat): (r: seq<nat>)
    ensures |r| == |segs|
  {
    if segs == [] then []
    else if segs[0].memsz == 0 then [0] + Offsets(segs[1..], cur)
    else
      var off := RoundUp(cur, 15);
      [off] + Offsets(segs[1..], Add64(off, segs[0].memsz))
  }

  function Align16(x: nat): (r: nat)
    ensures r % 16 == 0 && x <= r < x + 16
  {
    (x + 15) / 16 * 16
  }

  /** Where the layout ends, in unbounded arithmetic. */
  function End(segs: seq<Segment>, cur: nat): nat {
    if segs == [] then cur
    else if segs[0].memsz == 0 then End(segs[1..], cur)
    else End(segs[1..], Align16(cur) + segs[0].memsz)
  }

  lemma {:induction false} EndGrows(segs: seq<Segment>, cur: nat)
    ensures cur <= End(segs, cur)
  {
    if segs != [] {
      EndGrows(segs[1..], if segs[0].memsz == 0 then cur else Align16(cur) + segs[0].memsz);
    }
  }

  lemma RoundUp16(cur: nat)
    requires cur < 0x1_0000_0000_0000_0000 - 15
    ensures RoundUp(cur, 15) == Align16(cur)
  {
    assert Pow2(4) == 16;
    RoundUpAligned(cur, 4);
  }

  /** Blocks are 16-aligned, at or above `cur`, inside the block, and in object order without
      overlap. */
  ghost predicate LaidOut(segs: seq<Segment>, offs: seq<nat>, cur: nat)
    requires |offs| == |segs|
  {
    && (forall i :: 0 <= i < |segs| && segs[i].memsz > 0 ==>
          offs[i] % 16 == 0 && cur <= offs[i] && offs[i] + segs[i].memsz <= TLS_BLOCK)
    && (forall i, j :: 0 <= i < j < |segs| && segs[i].memsz > 0 && segs[j].memsz > 0 ==>
          offs[i] + segs[i].memsz <= offs[j])
  }

  lemma LaidOutCons(segs: seq<Segment>, off: nat, offs: seq<nat>, cur: nat, next: nat)
    requires segs != [] && |offs| == |segs| - 1 && LaidOut(segs[1..], offs, next) && cur <= next
    requires segs[0].memsz > 0 ==> off % 16 == 0 && cur <= off && off + segs[0].memsz <= next <= TLS_BLOCK
    ensures LaidOut(segs, [off] + offs, cur)
  {
    var all := [off] + offs;
    forall i | 0 < i < |segs| ensures segs[i] == segs[1..][i - 1] && all[i] == offs[i - 1] {
    }
  }

  lemma LaidOutTail(segs: seq<Segment>, off: nat, offs: seq<nat>, cur: nat)
    requires segs != [] && |offs| == |segs| - 1 && LaidOut(segs, [off] + offs, cur)
    ensures LaidOut(segs[1..], offs, if segs[0].memsz == 0 then cur else off + segs[0].memsz)
    ensures segs[0].memsz > 0 ==> off + segs[0].memsz <= TLS_BLOCK
  {
    var all := [off] + offs;
    forall i | 0 < i < |segs| ensures segs[i] == segs[1..][i - 1] && all[i] == offs[i - 1] {
    }
    assert all[0] == off;
  }

  /** The layout is sound if and only if everything fits: the code itself checks nothing. */
  lemma {:induction false} LayoutExactly(segs: seq<Segment>, cur: nat)
    requires cur <= TLS_BLOCK
    ensures LaidOut(segs, Offsets(segs, cur), cur) <==> End(segs, cur) <= TLS_BLOCK
  {
    if segs != [] {
      var off := Align16(cur);
      var next := if segs[0].memsz == 0 then cur else off + segs[0].memsz;
      if segs[0].memsz > 0 {
        RoundUp16(cur);
        EndGrows(segs[1..], next);
      }
      if next <= TLS_BLOCK {
        LayoutExactly(segs[1..], next);
        LaidOutStep(segs, cur, off, next);
      } else if LaidOut(segs, Offsets(segs, cur), cur) {
        LaidOutTail(segs, off, Offsets(segs[1..], Add64(off, segs[0].memsz)), cur);
      }
    }
  }

  lemma LaidOutStep(segs: seq<Segment>, cur: nat, off: nat, next: nat)
    requires segs != [] && cur <= TLS_BLOCK && next <= TLS_BLOCK && off == Align16(cur)
    requires segs[0].memsz > 0 ==> RoundUp(cur, 15) == off
    requires next == if segs[0].memsz == 0 then cur else off + segs[0].memsz
    ensures LaidOut(segs, Offsets(segs, cur), cur) <==> LaidOut(segs[1..], Offsets(segs[1..], next), next)
  {
    var tail := Offsets(segs[1..], next);
    var head := if segs[0].memsz == 0 then 0 else off;
    assert Offsets(segs, cur) == [head] + tail;
    if LaidOut(segs, [head] + tail, cur) {
      LaidOutTail(segs, head, tail, cur);
    }
    if LaidOut(segs[1..], tail, next) {
      LaidOutCons(segs, head, tail, cur, next);
    }
  }

  method AssignOffsets(segs: seq<Segment>) returns (offs: seq<nat>)
    ensures offs == Offsets(segs, TCB_SIZE)
  {
    var current: u64 := TCB_SIZE;
    offs := [];
    for i := 0 to |segs|
      invariant offs + Offsets(segs[i..], current) == Offsets(segs, TCB_SIZE)
    {
      OffsetsStep(segs, i, current, offs);
      if segs[i].memsz > 0 {
        current := RoundUp(current, 15);
        offs := offs + [current];
        current := Add64(current, segs[i].memsz);
      } else {
        offs := offs + [0];
      }
    }
    assert offs + [] == offs;
  }

  lemma OffsetsStep(segs: seq<Segment>, i: nat, cur: nat, offs: seq<nat>)
    requires i < |segs|
    ensures offs + Offsets(segs[i..], cur) ==
            if segs[i].memsz == 0 then offs + [0] + Offsets(segs[i + 1..], cur)
            else offs + [RoundUp(cur, 15)] + Offsets(segs[i + 1..], Add64(RoundUp(cur, 15), segs[i].memsz))
  {
    assert segs[i..][1..] == segs[i + 1..];
  }

  // ---- contents -----------------------------------------------------------------------

  /** The byte at `p` after the images of the first `n` objects were copied. */
  function Content(segs: seq<Segment>, offs: seq<nat>, n: nat, p: nat): byte
    requires n <= |segs| == |offs| && forall i :: 0 <= i < |segs| ==> |segs[i].image| == segs[i].filesz
  {
    if n == 0 then 0
    else if Copied(segs[n - 1]) && offs[n - 1] <= p < offs[n - 1] + segs[n - 1].filesz then
      segs[n - 1].image[p - offs[n - 1]]
    else Content(segs, offs, n - 1, p)
  }

  ghost predicate Fits(segs: seq<Segment>) {
    && End(segs, TCB_SIZE) <= TLS_BLOCK
    && forall i :: 0 <= i < |segs| ==> |segs[i].image| == segs[i].filesz <= segs[i].memsz
  }

  /** Zeroes the block, copies the images, and fills the first two control-block slots. */
  method InitBlock(block: array<byte>, segs: seq<Segment>, offs: seq<nat>, self: u64, thread: u64)
    requires block.Length == TLS_BLOCK && offs == Offsets(segs, TCB_SIZE)
    requires forall i :: 0 <= i < |segs| ==>
               |segs[i].image| == segs[i].filesz && (Copied(segs[i]) ==> offs[i] + segs[i].filesz <= TLS_BLOCK)
    modifies block
    ensures block[..16] == LeBytes(self, 8) + LeBytes(thread, 8)
    ensures forall p :: 16 <= p < TLS_BLOCK ==> block[p] == Content(segs, offs, |segs|, p)
  {
    var z := 0;
    while z < block.Length
      invariant z <= block.Length && forall p :: 0 <= p < z ==> block[p] == 0
    {
      block[z] := 0;
      z := z + 1;
    }
    for i := 0 to |segs|
      invariant forall p :: 0 <= p < TLS_BLOCK ==> block[p] == Content(segs, offs, i, p)
    {
      if Copied(segs[i]) {
        CopyImage(block, segs[i], offs[i]);
      }
    }
    StoreSlots(block, self, thread);
  }

  method CopyImage(block: array<byte>, s: Segment, off: nat)
    requires |s.image| == s.filesz && off + s.filesz <= block.Length
    modifies block
    ensures forall p :: 0 <= p < block.Length ==>
              block[p] == if off <= p < off + s.filesz then s.image[p - off] else old(block[p])
  {
    var k := 0;
    while k < s.filesz
      invariant k <= s.filesz
      invariant forall p :: 0 <= p < block.Length ==>
                  block[p] == if off <= p < off + k then s.image[p - off] else old(block[p])
    {
      block[off + k] := s.image[k];
      k := k + 1;
    }
  }

  method StoreSlots(block: array<byte>, self: u64, thread: u64)
    requires block.Length >= 16
    modifies block
    ensures block[..16] == LeBytes(self, 8) + LeBytes(thread, 8)
    ensures forall p :: 16 <= p < block.Length ==> block[p] == old(block[p])
  {
    var bytes := LeBytes(self, 8) + LeBytes(thread, 8);
    var k := 0;
    while k < 16
      invariant 0 <= k <= 16 && block[..k] == bytes[..k]
      invariant forall p :: 16 <= p < block.Length ==> block[p] == old(block[p])
    {
      block[k] := bytes[k];
      k := k + 1;
    }
  }

  /** After the whole copy loop each object's block holds its own image followed by zeros: no
      later copy disturbed it. */
  lemma {:induction false} ImagesSurvive(segs: seq<Segment>, offs: seq<nat>, n: nat, i: nat, k: nat)
    requires Fits(segs) && offs == Offsets(segs, TCB_SIZE)
    requires n <= |segs| && i < |segs| && segs[i].memsz > 0 && k < segs[i].memsz
    ensures Content(segs, offs, n, offs[i] + k) ==
            if i < n && segs[i].vaddr > 0 && k < segs[i].filesz then segs[i].image[k] else 0
  {
    LayoutExactly(segs, TCB_SIZE);
    if n > 0 {
      ImagesSurvive(segs, offs, n - 1, i, k);
    }
  }
}
