/** One bump heap shared by every allocator of the runtime: where each request is placed, what is
    stored there, and what the blocks of a whole run have in common. */
module BumpHeap {
  import opened Words

  const HEAP_SIZE := 0x80_0000
  const THREAD_STACK := 0x1_0000
  const BITMAP_BYTES := 4
  const FIRST_THREAD: u64 := 0x8000_0001
  const TOP := 0x1_0000_0000_0000_0000

  type Memory = map<nat, byte>

  /** A block handed out: where it is, what is reserved, and what was asked for. */
  datatype Block = Block(ptr: nat, size: nat, asked: nat)

  datatype State = State(base: nat, bump: u64, nextThread: u64, mem: Memory, blocks: seq<Block>)

  function Init(base: u64): State {
    State(base, base, FIRST_THREAD, map[], [])
  }

  // ---- guest memory ------------------------------------------------------------------------------

  function Get(mem: Memory, a: nat): byte {
    if a in mem then mem[a] else 0
  }

  predicate Within(a: nat, lo: nat, n: nat) {
    lo <= a < lo + n
  }

  function Range(lo: nat, n: nat): (r: set<nat>)
    ensures forall a: nat :: a in r <==> Within(a, lo, n)
  {
    set a: nat | lo <= a < lo + n && Within(a, lo, n)
  }

  /** Memory with `bytes` stored from `ptr` on. */
  function Fill(mem: Memory, ptr: nat, bytes: seq<byte>): (r: Memory)
    ensures forall a: nat :: Within(a, ptr, |bytes|) ==> Get(r, a) == bytes[a - ptr]
    ensures forall a: nat :: !Within(a, ptr, |bytes|) ==> Get(r, a) == Get(mem, a)
  {
    mem + map a: nat | a in Range(ptr, |bytes|) :: bytes[a - ptr]
  }

  function Fetch(mem: Memory, ptr: nat, n: nat): (r: seq<byte>)
    ensures |r| == n && forall i :: 0 <= i < n ==> r[i] == Get(mem, ptr + i)
  {
    seq<byte>(n, (i: nat) => Get(mem, ptr + i))
  }

  function Zeros(n: nat): (r: seq<byte>)
    ensures |r| == n && forall i :: 0 <= i < n ==> r[i] == 0
  {
    seq<byte>(n, _ => 0)
  }

  /** The buffer realloc fills before it writes the new block `[ptr, ptr + size)`: it compares its
      argument with the already raised bump pointer and bounds the copy by the wrapped distance. */
  function Copied(base: nat, mem: Memory, p: u64, ptr: u64, size: u64): (r: seq<byte>)
    ensures |r| == size
  {
    if base <= p < Add64(ptr, size) then
      Padded(mem, p, Min(size, Wrap64(ptr as int - p as int)), size)
    else Zeros(size)
  }

  /** A buffer of `size` bytes of which the first are read from `p`. */
  function Padded(mem: Memory, p: nat, copied: nat, size: nat): (r: seq<byte>)
    requires copied <= size
    ensures |r| == size
  {
    Fetch(mem, p, copied) + Zeros(size - copied)
  }

  // ---- the allocators: where a request would go ---------------------------------------------------

  datatype Op =
    | Malloc(n: u64)                       // also the operators new
    | Calloc(count: u64, each: u64)
    | Realloc(p: u64, n: u64)
    | Strdup(text: seq<byte>)              // also strerror and status messages
    | Vasprintf(out: u64, format: u64, text: seq<byte>)
    | Memalign(out: u64, align: u64, n: u64)
    | Mmap(n: u64)
    | Thread(out: u64)
    | Pixels
    | AllocGuest(n: u64, align: u64)
    | GuestStore(a: nat, bytes: seq<byte>) // the guest writing its own memory

  function Limit(s: State): u64 {
    Add64(s.base, HEAP_SIZE)
  }

  function AlignMask(align: u64): nat {
    if align == 0 then 0 else align - 1
  }

  /** What is added to the bump pointer before the low bits are cleared. */
  function PointerMask(op: Op): nat {
    match op
    case Memalign(_, align, _) => Max(align, 16) - 1
    case Mmap(_) => 4095
    case Thread(_) => 15
    case Pixels => 15
    case AllocGuest(_, align) => AlignMask(align)
    case _ => 0
  }

  function SizeMask(op: Op): nat {
    match op
    case Mmap(_) => 4095
    case AllocGuest(_, align) => AlignMask(align)
    case Thread(_) => 0
    case Pixels => 0
    case GuestStore(_, _) => 0
    case _ => 15
  }

  function Product(a: nat, b: nat): nat {
    a * b
  }

  /** The number of bytes the caller asked for, in unbounded arithmetic. */
  function Asked(op: Op): nat {
    match op
    case Malloc(n) => n
    case Calloc(count, each) => Product(count, each)
    case Realloc(_, n) => n
    case Strdup(text) => |text| + 1
    case Vasprintf(_, _, text) => |text| + 1
    case Memalign(_, _, n) => n
    case Mmap(n) => n
    case Thread(_) => THREAD_STACK
    case Pixels => BITMAP_BYTES
    case AllocGuest(n, _) => n
    case GuestStore(_, _) => 0
  }

  function Pointer(s: State, op: Op): u64 {
    RoundUp(s.bump, PointerMask(op))
  }

  function Size(op: Op): u64 {
    RoundUp(Wrap64(Asked(op)), SizeMask(op))
  }

  /** The checks each handler makes before it takes the memory. */
  predicate Accepts(s: State, op: Op) {
    && !op.GuestStore?
    && Add64(Pointer(s, op), Size(op)) <= Limit(s)
    && match op
       case Malloc(n) => n != 0
       case Calloc(_, _) => Size(op) != 0
       case Realloc(_, _) => Size(op) != 0
       case Vasprintf(out, format, _) => out != 0 && format != 0 && Size(op) != 0
       case Memalign(out, align, _) => out != 0 && align != 0
       case Mmap(_) => Size(op) != 0 && Add64(s.bump, Size(op)) <= Limit(s)
       case _ => true
  }

  /** What is stored in a new block. */
  function Contents(s: State, op: Op): seq<byte> {
    var ptr, size := Pointer(s, op), Size(op);
    match op
    case Realloc(p, _) => Copied(s.base, s.mem, p, ptr, size)
    case Strdup(text) => text + [0]
    case Vasprintf(_, _, text) => text + [0]
    case AllocGuest(_, _) => []
    case _ => Zeros(size)
  }

  /** What is stored through the caller's out-pointer, after the block is filled. */
  function StoreOut(s: State, op: Op, mem: Memory): Memory {
    match op
    case Memalign(out, _, _) => Fill(mem, out, LeBytes(Pointer(s, op), 8))
    case Vasprintf(out, _, _) => Fill(mem, out, LeBytes(Pointer(s, op), 8))
    case Thread(out) => if out == 0 then mem else Fill(mem, out, LeBytes(s.nextThread, 8))
    case _ => mem
  }

  function NextThread(s: State, op: Op): u64 {
    if op.Thread? then Add64(s.nextThread, 1) else s.nextThread
  }

  function Step(s: State, op: Op): State {
    if op.GuestStore? then s.(mem := Fill(s.mem, op.a, op.bytes))
    else if !Accepts(s, op) then s.(nextThread := NextThread(s, op))
    else
      State(s.base, Add64(Pointer(s, op), Size(op)), NextThread(s, op),
            StoreOut(s, op, Fill(s.mem, Pointer(s, op), Contents(s, op))),
            s.blocks + [Block(Pointer(s, op), Size(op), Asked(op))])
  }

  function Run(s: State, ops: seq<Op>): State
    decreases |ops|
  {
    if ops == [] then s else Run(Step(s, ops[0]), ops[1..])
  }

  // ---- when a request is sound --------------------------------------------------------------------

  /** No sum or product of the size computation leaves 64 bits. */
  predicate NoOverflow(s: State, op: Op) {
    && Asked(op) + SizeMask(op) < TOP
    && s.bump as int + PointerMask(op) < TOP
    && Pointer(s, op) as int + Size(op) as int < TOP
  }

  ghost predicate Fits(s: State, b: Block) {
    s.base <= b.ptr && b.ptr + b.size <= s.bump && b.asked <= b.size
  }

  /** Blocks lie in the heap in order of allocation, each large enough for its request, none
      reaching into the next, and the bump pointer stands at the end of the last one. */
  ghost predicate Valid(s: State) {
    && s.base <= s.bump <= s.base + HEAP_SIZE < TOP
    && (forall i :: 0 <= i < |s.blocks| ==> Fits(s, s.blocks[i]))
    && (forall i, j :: 0 <= i < j < |s.blocks| ==> s.blocks[i].ptr + s.blocks[i].size <= s.blocks[j].ptr)
    && s.bump == (if s.blocks == [] then s.base else s.blocks[|s.blocks| - 1].ptr + s.blocks[|s.blocks| - 1].size)
  }

  lemma InitValid(base: u64)
    requires base + HEAP_SIZE < TOP
    ensures Valid(Init(base))
  {
  }

  /** Rounding that does wrap lands below the number it started from. */
  lemma RoundUpWraps(x: u64, mask: nat)
    requires x + mask >= TOP && mask < TOP
    ensures RoundUp(x, mask) < x
  {
    assert Wrap64(x + mask) == x + mask - TOP by {
      ModUnique(x + mask, TOP, 1, x + mask - TOP);
    }
    AndSplit(x + mask - TOP, mask);
  }

  lemma SizeHolds(op: Op)
    ensures Asked(op) + SizeMask(op) < TOP ==> Asked(op) <= Size(op)
    ensures Asked(op) + SizeMask(op) >= TOP ==> Size(op) < Asked(op)
  {
    if Asked(op) + SizeMask(op) < TOP {
      RoundUpBounds(Asked(op), SizeMask(op));
    } else if Asked(op) < TOP {
      RoundUpWraps(Asked(op), SizeMask(op));
    }
  }

  lemma PointerHolds(s: State, op: Op)
    ensures s.bump as int + PointerMask(op) < TOP ==> s.bump <= Pointer(s, op)
    ensures s.bump as int + PointerMask(op) >= TOP ==> Pointer(s, op) < s.bump
  {
    if s.bump as int + PointerMask(op) < TOP {
      RoundUpBounds(s.bump, PointerMask(op));
    } else {
      RoundUpWraps(s.bump, PointerMask(op));
    }
  }

  /** The whole 64-bit computation of an accepted request is sound exactly when nothing overflows:
      an overflow always yields a block too small for its request, or one that reaches back into
      memory already given away or out of the heap. */
  lemma SoundExactly(s: State, op: Op)
    requires Valid(s) && Accepts(s, op)
    ensures Valid(Step(s, op)) <==> NoOverflow(s, op)
  {
    SizeHolds(op);
    PointerHolds(s, op);
    var t := Step(s, op);
    var b := Block(Pointer(s, op), Size(op), Asked(op));
    var n := |s.blocks|;
    assert t.blocks[n] == b && (n > 0 ==> t.blocks[n - 1] == s.blocks[n - 1]);
    if NoOverflow(s, op) {
      forall i | 0 <= i <= n ensures Fits(t, t.blocks[i]) {
        assert i < n ==> t.blocks[i] == s.blocks[i] && Fits(s, s.blocks[i]);
      }
      forall i, j | 0 <= i < j <= n ensures t.blocks[i].ptr + t.blocks[i].size <= t.blocks[j].ptr {
        assert t.blocks[i] == s.blocks[i] && Fits(s, s.blocks[i]);
      }
    }
  }

  lemma StepValid(s: State, op: Op)
    requires Valid(s) && (Accepts(s, op) ==> NoOverflow(s, op))
    ensures Valid(Step(s, op))
  {
    if Accepts(s, op) {
      SoundExactly(s, op);
    } else {
      RefusedValid(s, Step(s, op));
    }
  }

  lemma RefusedValid(s: State, s': State)
    requires Valid(s) && s'.base == s.base && s'.bump == s.bump && s'.blocks == s.blocks
    ensures Valid(s')
  {
    forall i | 0 <= i < |s.blocks| ensures Fits(s', s.blocks[i]) {
      assert Fits(s, s.blocks[i]);
    }
  }

  /** No accepted request of the run overflows. */
  predicate NoOverflowRun(s: State, ops: seq<Op>)
    decreases |ops|
  {
    ops == [] ||
    ((Accepts(s, ops[0]) ==> NoOverflow(s, ops[0])) && NoOverflowRun(Step(s, ops[0]), ops[1..]))
  }

  lemma {:induction false} RunValid(s: State, ops: seq<Op>)
    requires Valid(s) && NoOverflowRun(s, ops)
    ensures Valid(Run(s, ops))
    ensures Run(s, ops).base == s.base
    decreases |ops|
  {
    if ops != [] {
      StepValid(s, ops[0]);
      RunValid(Step(s, ops[0]), ops[1..]);
    }
  }

  /** Over every interleaving of allocator calls and guest stores the blocks handed out are pairwise
      disjoint, lie inside the heap and are as large as was asked. */
  lemma BlocksDisjoint(base: u64, ops: seq<Op>, i: nat, j: nat, a: nat)
    requires base + HEAP_SIZE < TOP
    requires NoOverflowRun(Init(base), ops)
    requires i < |Run(Init(base), ops).blocks| && j < |Run(Init(base), ops).blocks|
    requires Within(a, Run(Init(base), ops).blocks[i].ptr, Run(Init(base), ops).blocks[i].size)
    ensures base <= a < base + HEAP_SIZE
    ensures Run(Init(base), ops).blocks[i].asked <= Run(Init(base), ops).blocks[i].size
    ensures Within(a, Run(Init(base), ops).blocks[j].ptr, Run(Init(base), ops).blocks[j].size) ==> i == j
  {
    var s := Run(Init(base), ops);
    RunValid(Init(base), ops);
    assert Fits(s, s.blocks[i]) && Fits(s, s.blocks[j]);
    if i < j {
      assert s.blocks[i].ptr + s.blocks[i].size <= s.blocks[j].ptr;
    } else if j < i {
      assert s.blocks[j].ptr + s.blocks[j].size <= s.blocks[i].ptr;
    }
  }

  // ---- what the new block holds, and what happens to the others -----------------------------------

  /** The bytes a call writes outside the block it hands out: through the out-pointers of vasprintf,
      posix_memalign and pthread_create, and where the guest stores itself. */
  predicate Aimed(op: Op, a: nat) {
    match op
    case Memalign(out, _, _) => Within(a, out, 8)
    case Vasprintf(out, _, _) => Within(a, out, 8)
    case Thread(out) => out != 0 && Within(a, out, 8)
    case GuestStore(p, bytes) => Within(a, p, |bytes|)
    case _ => false
  }

  /** Allocation leaves every byte of every earlier block as it was, unless the caller aimed its own
      out-pointer or store at it. */
  lemma EarlierBlocksKept(s: State, op: Op, i: nat, a: nat)
    requires Valid(s) && (Accepts(s, op) ==> NoOverflow(s, op)) && !Aimed(op, a)
    requires i < |s.blocks| && Within(a, s.blocks[i].ptr, s.blocks[i].size)
    ensures Get(Step(s, op).mem, a) == Get(s.mem, a)
  {
    assert Fits(s, s.blocks[i]);
    PointerHolds(s, op);
    if Accepts(s, op) {
      assert !Within(a, Pointer(s, op), |Contents(s, op)|);
      StoreOutKeeps(s, op, Fill(s.mem, Pointer(s, op), Contents(s, op)), a);
    }
  }

  lemma StoreOutKeeps(s: State, op: Op, mem: Memory, a: nat)
    requires !Aimed(op, a)
    ensures Get(StoreOut(s, op, mem), a) == Get(mem, a)
  {
  }

  /** `realloc` of a live block copies everything from there to the old end of the heap that fits
      in the new block, and clears the rest ... */
  lemma ReallocContents(s: State, p: u64, n: u64)
    requires Valid(s) && s.base <= p <= s.bump
    requires Accepts(s, Realloc(p, n)) && NoOverflow(s, Realloc(p, n))
    ensures var size := Size(Realloc(p, n));
            var copied := Min(size, s.bump as int - p as int);
            Fetch(Step(s, Realloc(p, n)).mem, s.bump, size) == Padded(s.mem, p, copied, size)
  {
    var op := Realloc(p, n);
    PlainPointer(s, op);
    var size := Size(op);
    var bytes := Copied(s.base, s.mem, p, s.bump, size);
    assert Step(s, op).mem == Fill(s.mem, s.bump, bytes);
    FillFetch(s.mem, s.bump, bytes);
    CopiedAll(s.base, s.mem, p, s.bump, size);
  }

  lemma CopiedAll(base: nat, mem: Memory, p: u64, ptr: u64, size: u64)
    requires base <= p <= ptr && ptr + size < TOP
    ensures Copied(base, mem, p, ptr, size) == Padded(mem, p, Min(size, ptr - p), size)
  {
    if p == ptr + size {
      assert Fetch(mem, p, 0) + Zeros(0) == Zeros(0);
    }
  }

  lemma FillFetch(mem: Memory, ptr: nat, bytes: seq<byte>)
    ensures Fetch(Fill(mem, ptr, bytes), ptr, |bytes|) == bytes
  {
    forall i | 0 <= i < |bytes| ensures Get(Fill(mem, ptr, bytes), ptr + i) == bytes[i] {
      assert Within(ptr + i, ptr, |bytes|);
    }
  }

  lemma FetchPrefix(mem: Memory, ptr: nat, n: nat, k: nat)
    requires k <= n
    ensures Fetch(mem, ptr, n)[..k] == Fetch(mem, ptr, k)
  {
  }

  /** ... so a block keeps its first bytes, as many as both the old and the new request cover. */
  lemma ReallocKeeps(s: State, n: u64, i: nat)
    requires Valid(s) && i < |s.blocks|
    requires var op := Realloc(s.blocks[i].ptr, n); Accepts(s, op) && NoOverflow(s, op)
    ensures var t := Step(s, Realloc(s.blocks[i].ptr, n));
            var kept := Min(s.blocks[i].asked, n);
            && |t.blocks| == |s.blocks| + 1 && t.blocks[..|s.blocks|] == s.blocks
            && n <= t.blocks[|s.blocks|].size
            && Fetch(t.mem, t.blocks[|s.blocks|].ptr, kept) == Fetch(s.mem, s.blocks[i].ptr, kept)
  {
    assert Fits(s, s.blocks[i]);
    var p := s.blocks[i].ptr;
    var op := Realloc(p, n);
    var size := Size(op);
    PlainPointer(s, op);
    SizeHolds(op);
    ReallocContents(s, p, n);
    var copied := Min(size, s.bump as int - p);
    var kept := Min(s.blocks[i].asked, n);
    FetchPrefix(Step(s, op).mem, s.bump, size, kept);
    FetchPrefix(s.mem, p, copied, kept);
  }

  lemma PlainPointer(s: State, op: Op)
    requires PointerMask(op) == 0
    ensures Pointer(s, op) == s.bump
  {
    AndSplit(s.bump, 0);
  }

  /** Every other allocator that clears its memory hands out zeros only, strdup a terminated copy, and so
      does vasprintf if its out-pointer does not point into that. */
  lemma FreshContents(s: State, op: Op, k: nat)
    requires Accepts(s, op) && NoOverflow(s, op)
    ensures (op.Malloc? || op.Calloc? || op.Mmap? || op.Pixels?) && k < Size(op) ==>
              Get(Step(s, op).mem, Pointer(s, op) + k) == 0
    ensures op.Strdup? && k <= |op.text| ==>
              Get(Step(s, op).mem, Pointer(s, op) + k) == (op.text + [0])[k]
    ensures op.Vasprintf? && k <= |op.text| && !Aimed(op, Pointer(s, op) + k) ==>
              Get(Step(s, op).mem, Pointer(s, op) + k) == (op.text + [0])[k]
  {
    if k < |Contents(s, op)| {
      assert Within(Pointer(s, op) + k, Pointer(s, op), |Contents(s, op)|);
    }
  }

  // ---- alignment ----------------------------------------------------------------------------------

  /** posix_memalign with a power of two, mmap, thread stacks and alloc_guest are aligned as asked. */
  lemma AlignedAsAsked(s: State, op: Op, k: nat)
    requires NoOverflow(s, op)
    requires PointerMask(op) == Pow2(k) - 1
    ensures Pointer(s, op) % Pow2(k) == 0
    ensures Pointer(s, op) < s.bump as int + Pow2(k)
  {
    RoundUpAligned(s.bump, k);
  }

  lemma MmapAligned(s: State, n: u64)
    requires NoOverflow(s, Mmap(n))
    ensures Pointer(s, Mmap(n)) % 4096 == 0
  {
    Pow2Values();
    AlignedAsAsked(s, Mmap(n), 12);
  }

  lemma MemalignAligned(s: State, out: u64, k: nat, n: u64)
    requires Pow2(k) < TOP && NoOverflow(s, Memalign(out, Pow2(k), n))
    ensures Pointer(s, Memalign(out, Pow2(k), n)) % Pow2(k) == 0
  {
    var op := Memalign(out, Pow2(k), n);
    if k >= 4 {
      Pow2Monotone(4, k);
      AlignedAsAsked(s, op, k);
    } else {
      AlignedAsAsked(s, op, 4);
      SmallPowers(Pointer(s, op), k);
    }
  }

  lemma SmallPowers(x: nat, k: nat)
    requires k < 4 && x % Pow2(4) == 0
    ensures x % Pow2(k) == 0
  {
    var q := x / Pow2(4);
    Pow2Add(k, 4 - k);
    MulAssoc(Pow2(k), Pow2(4 - k), q);
    ModUnique(x, Pow2(k), Pow2(4 - k) * q, 0);
  }

  // ---- two ways in which callers are misled -------------------------------------------------------

  /** `malloc(2^64 - 1)` rounds to nothing and is accepted: the pointer reserves no byte at all. */
  lemma HugeRequestAccepted(s: State)
    requires Valid(s)
    ensures var op := Malloc(0xFFFF_FFFF_FFFF_FFFF);
            Accepts(s, op) && Size(op) == 0 && !NoOverflow(s, op) && !Valid(Step(s, op))
  {
    var op := Malloc(0xFFFF_FFFF_FFFF_FFFF);
    assert Wrap64(0xFFFF_FFFF_FFFF_FFFF + 15) == 14;
    assert AndNot(14, 15) == 0;
    PlainPointer(s, op);
    SoundExactly(s, op);
  }

  /** What malloc, calloc, realloc and strdup put in the result register. */
  function Answer(s: State, op: Op): u64 {
    if Accepts(s, op) then Pointer(s, op) else 0
  }

  /** The register tells success from failure exactly when the bump pointer has left zero ... */
  lemma AnswerTells(s: State, op: Op)
    requires op.Malloc? || op.Calloc? || op.Realloc? || op.Strdup?
    requires Accepts(s, op)
    ensures Answer(s, op) == 0 <==> s.bump == 0
  {
    PlainPointer(s, op);
  }

  /** ... which the runtime's own heap, whose base field keeps its initial zero, has not done when
      the first request comes: that request is granted at address zero. */
  lemma FirstGrantIsNull(n: u64)
    requires 0 < n <= HEAP_SIZE
    ensures Accepts(Init(0), Malloc(n)) && Answer(Init(0), Malloc(n)) == 0
    ensures Step(Init(0), Malloc(n)).blocks == [Block(0, Size(Malloc(n)), n)]
    ensures Size(Malloc(n)) >= n
  {
    PlainPointer(Init(0), Malloc(n));
    SmallSize(n);
  }

  lemma SmallSize(n: u64)
    requires n <= HEAP_SIZE
    ensures n <= Size(Malloc(n)) <= HEAP_SIZE
  {
    RoundUpAligned(n, 4);
    MultipleBelow(RoundUp(n, 15), n);
  }

  lemma MultipleBelow(r: nat, n: nat)
    requires r % 16 == 0 && r < n + 16 && n <= HEAP_SIZE
    ensures r <= HEAP_SIZE
  {
  }

  // ---- the requests, written out -----------------------------------------------------------------------

  /** The alignment of the block a request gets: that of the bump pointer, kept at 16 by most calls, or
      as asked for. */
  function Alignment(op: Op): nat {
    match op
    case Memalign(_, align, _) => if align < 16 then 16 else align
    case Mmap(_) => 4096
    case Thread(_) => 16
    case Pixels => 16
    case AllocGuest(_, align) => if align == 0 then 1 else align
    case _ => 1
  }

  /** The multiple to which a size is rounded. */
  function Grain(op: Op): nat {
    match op
    case Mmap(_) => 4096
    case AllocGuest(_, align) => if align == 0 then 1 else align
    case Thread(_) => 1
    case Pixels => 1
    case GuestStore(_, _) => 1
    case _ => 16
  }

  function Power(k: nat): nat {
    if k == 0 then 1 else 2 * Power(k - 1)
  }

  lemma {:induction false} PowerIsPow2(k: nat)
    ensures Power(k) == Pow2(k)
  {
    if k > 0 {
      PowerIsPow2(k - 1);
    }
  }

  /** For power-of-two alignments and without overflow, a block starts at the next multiple of its
      alignment, and is as long as was asked, rounded up to the next multiple of its grain. */
  lemma BlockExactly(s: State, op: Op, j: nat, k: nat)
    requires NoOverflow(s, op) && Alignment(op) == Power(j) && Grain(op) == Power(k)
    ensures Pointer(s, op) % Alignment(op) == 0 && s.bump <= Pointer(s, op) < s.bump + Alignment(op)
    ensures Size(op) % Grain(op) == 0 && Asked(op) <= Size(op) < Asked(op) + Grain(op)
  {
    PowerIsPow2(j);
    PowerIsPow2(k);
    MasksAreGrains(op);
    RoundUpAligned(s.bump, j);
    RoundUpBounds(s.bump, PointerMask(op));
    RoundUpAligned(Asked(op), k);
    RoundUpBounds(Asked(op), SizeMask(op));
  }

  lemma MasksAreGrains(op: Op)
    ensures PointerMask(op) == Alignment(op) - 1 && SizeMask(op) == Grain(op) - 1
  {
  }

  /** Which arguments a call refuses, whatever room there is. */
  predicate Askable(op: Op) {
    match op
    case Malloc(n) => n > 0
    case Calloc(count, each) => Product(count, each) > 0
    case Realloc(_, n) => n > 0
    case Strdup(_) => true
    case Vasprintf(out, format, _) => out > 0 && format > 0
    case Memalign(out, align, _) => out > 0 && align > 0
    case Mmap(n) => n > 0
    case Thread(_) => true
    case Pixels => true
    case AllocGuest(_, _) => true
    case GuestStore(_, _) => false
  }

  /** In a sound heap, a request that does not overflow is granted if and only if its arguments are in
      order and the block ends within the heap. */
  lemma AcceptsExactly(s: State, op: Op)
    requires Valid(s) && NoOverflow(s, op)
    ensures Accepts(s, op) <==> Askable(op) && Pointer(s, op) as int + Size(op) as int <= s.base + HEAP_SIZE
  {
    SizeHolds(op);
    PointerHolds(s, op);
    SizeZero(op);
    assert Limit(s) == s.base + HEAP_SIZE;
    assert Add64(Pointer(s, op), Size(op)) == Pointer(s, op) as int + Size(op) as int;
    if op.Mmap? {
      assert Add64(s.bump, Size(op)) == s.bump as int + Size(op) as int;
    }
  }

  lemma SizeZero(op: Op)
    requires Asked(op) + SizeMask(op) < TOP
    ensures Asked(op) == 0 ==> Size(op) == 0 || op.Memalign? || op.Thread? || op.AllocGuest? || op.GuestStore? || op.Pixels?
    ensures Asked(op) > 0 ==> Size(op) > 0
  {
    SizeHolds(op);
    if Asked(op) == 0 && !op.AllocGuest? {
      NothingRounds(SizeMask(op));
    }
  }

  lemma NothingRounds(mask: nat)
    requires mask == 0 || mask == 15 || mask == 4095
    ensures RoundUp(0, mask) == 0
  {
    if mask == 15 {
      assert Pow2(4) == 16;
      RoundUpAligned(0, 4);
    } else if mask == 4095 {
      assert Pow2(12) == 4096;
      RoundUpAligned(0, 12);
    } else {
      AndSplit(0, 0);
    }
  }

  /** What is found at the out-pointers: the block's address little-endian for posix_memalign and vasprintf,
      the handle for pthread_create. */
  lemma OutPointers(s: State, op: Op)
    requires Accepts(s, op)
    ensures op.Memalign? || op.Vasprintf? ==> Fetch(Step(s, op).mem, op.out, 8) == LeBytes(Pointer(s, op), 8)
    ensures op.Thread? && op.out > 0 ==> Fetch(Step(s, op).mem, op.out, 8) == LeBytes(s.nextThread, 8)
  {
    if op.Memalign? || op.Vasprintf? {
      FillFetch(Fill(s.mem, Pointer(s, op), Contents(s, op)), op.out, LeBytes(Pointer(s, op), 8));
    } else if op.Thread? && op.out > 0 {
      FillFetch(Fill(s.mem, Pointer(s, op), Contents(s, op)), op.out, LeBytes(s.nextThread, 8));
    }
  }

  /** Thread stacks and posix_memalign blocks are zeros too, but for an out-pointer into them. */
  lemma ClearedBlocks(s: State, op: Op, k: nat)
    requires Accepts(s, op) && (op.Memalign? || op.Thread?) && k < Size(op) && !Aimed(op, Pointer(s, op) + k)
    ensures Get(Step(s, op).mem, Pointer(s, op) + k) == 0
  {
    assert Within(Pointer(s, op) + k, Pointer(s, op), |Contents(s, op)|);
    StoreOutKeeps(s, op, Fill(s.mem, Pointer(s, op), Contents(s, op)), Pointer(s, op) + k);
  }

  /** A refused request changes nothing but the handle that pthread_create uses up; a granted one moves the
      bump pointer to the end of its block. */
  lemma StepMeans(s: State, op: Op)
    requires !op.GuestStore?
    ensures !Accepts(s, op) ==> Step(s, op) == s.(nextThread := Step(s, op).nextThread)
    ensures Step(s, op).nextThread == if op.Thread? then Add64(s.nextThread, 1) else s.nextThread
    ensures Accepts(s, op) ==>
              && Step(s, op).base == s.base
              && Step(s, op).bump as int == (Pointer(s, op) as int + Size(op) as int) % TOP
              && Step(s, op).blocks == s.blocks + [Block(Pointer(s, op), Size(op), Asked(op))]
  {
  }
}
