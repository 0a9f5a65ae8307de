/** The allocator handlers themselves, as they update the bump pointer and write guest memory. */
module HeapRuntime {
  import opened Words
  import opened BumpHeap

  const NEGATIVE_ONE: u64 := 0xFFFF_FFFF_FFFF_FFFF
  const EAGAIN: u64 := 11
  const ENOMEM: u64 := 12
  const EINVAL: u64 := 22

  datatype ThreadStack = ThreadStack(base: u64, size: u64)

  datatype PendingThread = PendingThread(handle: u64, fn: u64, arg: u64, stackTop: u64)

  class Heap {
    var base: u64
    var bump: u64
    var nextThread: u64
    var mem: Memory
    ghost var blocks: seq<Block>
    var threads: map<u64, ThreadStack>
    var pending: seq<PendingThread>

    ghost function View(): State
      reads this
    {
      State(base, bump, nextThread, mem, blocks)
    }

    constructor (heapBase: u64)
      ensures View() == Init(heapBase) && (heapBase + HEAP_SIZE < TOP ==> Valid())
    {
      base, bump, nextThread, mem, blocks := heapBase, heapBase, FIRST_THREAD, map[], [];
      threads, pending := map[], [];
      new;
      if heapBase + HEAP_SIZE < TOP {
        InitValid(heapBase);
      }
    }

    /** Blocks lie in the heap, large enough and without overlap. */
    ghost predicate Valid()
      reads this
    {
      BumpHeap.Valid(View())
    }

    method Malloc(n: u64) returns (r: u64)
      modifies this`bump, this`mem, this`blocks
      ensures View() == Step(old(View()), Op.Malloc(n))
      ensures old(Valid()) ==> (Valid() <==> Sound(old(View()), Op.Malloc(n)))
      ensures r == Answer(old(View()), Op.Malloc(n))
    {
      KeepsValid(View(), Op.Malloc(n));
      PlainPointer(View(), Op.Malloc(n));
      var size := RoundUp(n, 15);
      if n == 0 || Add64(bump, size) > Add64(base, HEAP_SIZE) {
        return 0;
      }
      r := bump;
      bump := Add64(bump, size);
      mem := Fill(mem, r, Zeros(size));
      blocks := blocks + [Block(r, size, n)];
    }

    method Calloc(count: u64, each: u64) returns (r: u64)
      modifies this`bump, this`mem, this`blocks
      ensures View() == Step(old(View()), Op.Calloc(count, each))
      ensures old(Valid()) ==> (Valid() <==> Sound(old(View()), Op.Calloc(count, each)))
      ensures r == Answer(old(View()), Op.Calloc(count, each))
    {
      KeepsValid(View(), Op.Calloc(count, each));
      PlainPointer(View(), Op.Calloc(count, each));
      var total := RoundUp(Wrap64(Product(count, each)), 15);
      if total == 0 || Add64(bump, total) > Add64(base, HEAP_SIZE) {
        return 0;
      }
      r := bump;
      bump := Add64(bump, total);
      mem := Fill(mem, r, Zeros(total));
      blocks := blocks + [Block(r, total, Product(count, each))];
    }

    method Realloc(p: u64, n: u64) returns (r: u64)
      modifies this`bump, this`mem, this`blocks
      ensures View() == Step(old(View()), Op.Realloc(p, n))
      ensures old(Valid()) ==> (Valid() <==> Sound(old(View()), Op.Realloc(p, n)))
      ensures r == Answer(old(View()), Op.Realloc(p, n))
    {
      KeepsValid(View(), Op.Realloc(p, n));
      PlainPointer(View(), Op.Realloc(p, n));
      var size := RoundUp(n, 15);
      if size == 0 || Add64(bump, size) > Add64(base, HEAP_SIZE) {
        return 0;
      }
      r := bump;
      bump := Add64(bump, size);
      var buf := CopyOf(p, r, size);
      mem := Fill(mem, r, buf);
      blocks := blocks + [Block(r, size, n)];
    }

    /** The part of `realloc` that reads the old block, once the bump pointer is raised. */
    method CopyOf(p: u64, ptr: u64, size: u64) returns (buf: seq<byte>)
      requires bump == Add64(ptr, size)
      ensures buf == Copied(base, mem, p, ptr, size)
    {
      buf := Zeros(size);
      if base <= p < bump {
        var copy := Min(size, Wrap64(ptr as int - p as int));
        buf := Fetch(mem, p, copy) + buf[copy..];
        assert buf[copy..] == Zeros(size - copy);
      }
    }

    method Strdup(text: seq<byte>) returns (r: u64)
      modifies this`bump, this`mem, this`blocks
      ensures View() == Step(old(View()), Op.Strdup(text))
      ensures old(Valid()) ==> (Valid() <==> Sound(old(View()), Op.Strdup(text)))
      ensures r == Answer(old(View()), Op.Strdup(text))
    {
      KeepsValid(View(), Op.Strdup(text));
      PlainPointer(View(), Op.Strdup(text));
      var size := RoundUp(Wrap64(|text| + 1), 15);
      if Add64(bump, size) > Add64(base, HEAP_SIZE) {
        return 0;
      }
      r := bump;
      bump := Add64(bump, size);
      mem := Fill(mem, r, text + [0]);
      blocks := blocks + [Block(r, size, |text| + 1)];
    }

    /** The format is copied as it is. The result is its length; the block goes to the out-pointer. */
    method Vasprintf(out: u64, format: u64, text: seq<byte>) returns (r: u64)
      modifies this`bump, this`mem, this`blocks
      ensures View() == Step(old(View()), Op.Vasprintf(out, format, text))
      ensures old(Valid()) ==> (Valid() <==> Sound(old(View()), Op.Vasprintf(out, format, text)))
      ensures r == if Accepts(old(View()), Op.Vasprintf(out, format, text)) then Wrap64(|text|) else NEGATIVE_ONE
    {
      KeepsValid(View(), Op.Vasprintf(out, format, text));
      PlainPointer(View(), Op.Vasprintf(out, format, text));
      if out == 0 || format == 0 {
        return NEGATIVE_ONE;
      }
      var size := RoundUp(Wrap64(|text| + 1), 15);
      if size == 0 || Add64(bump, size) > Add64(base, HEAP_SIZE) {
        return NEGATIVE_ONE;
      }
      var ptr := bump;
      bump := Add64(bump, size);
      mem := Fill(mem, ptr, text + [0]);
      mem := Fill(mem, out, LeBytes(ptr, 8));
      blocks := blocks + [Block(ptr, size, |text| + 1)];
      r := Wrap64(|text|);
    }

    method PosixMemalign(out: u64, align: u64, n: u64) returns (r: u64)
      modifies this`bump, this`mem, this`blocks
      ensures View() == Step(old(View()), Memalign(out, align, n))
      ensures old(Valid()) ==> (Valid() <==> Sound(old(View()), Memalign(out, align, n)))
      ensures r == if Accepts(old(View()), Memalign(out, align, n)) then 0
                   else if out == 0 || align == 0 then EINVAL else ENOMEM
    {
      KeepsValid(View(), Memalign(out, align, n));
      if out == 0 || align == 0 {
        return EINVAL;
      }
      var mask := Max(align, 16) - 1;
      var ptr := RoundUp(bump, mask);
      var size := RoundUp(n, 15);
      if Add64(ptr, size) > Add64(base, HEAP_SIZE) {
        return ENOMEM;
      }
      bump := Add64(ptr, size);
      mem := Fill(mem, ptr, Zeros(size));
      mem := Fill(mem, out, LeBytes(ptr, 8));
      blocks := blocks + [Block(ptr, size, n)];
      r := 0;
    }

    method MapAnonymous(n: u64) returns (r: u64)
      modifies this`bump, this`mem, this`blocks
      ensures View() == Step(old(View()), Mmap(n))
      ensures old(Valid()) ==> (Valid() <==> Sound(old(View()), Mmap(n)))
      ensures r == if Accepts(old(View()), Mmap(n)) then Pointer(old(View()), Mmap(n)) else NEGATIVE_ONE
    {
      KeepsValid(View(), Mmap(n));
      var size := RoundUp(n, 4095);
      if size == 0 || Add64(bump, size) > Add64(base, HEAP_SIZE) {
        return NEGATIVE_ONE;
      }
      r := RoundUp(bump, 4095);
      if Add64(r, size) > Add64(base, HEAP_SIZE) {
        return NEGATIVE_ONE;
      }
      bump := Add64(r, size);
      mem := Fill(mem, r, Zeros(size));
      blocks := blocks + [Block(r, size, n)];
    }

    /** The stack of a new thread, which is queued to run later. */
    method PthreadCreate(out: u64, fn: u64, arg: u64) returns (r: u64)
      modifies this`bump, this`mem, this`blocks, this`nextThread, this`threads, this`pending
      ensures View() == Step(old(View()), Thread(out))
      ensures old(Valid()) ==> (Valid() <==> Sound(old(View()), Thread(out)))
      ensures r == if Accepts(old(View()), Thread(out)) then 0 else EAGAIN
      ensures r != 0 ==> threads == old(threads) && pending == old(pending)
      ensures r == 0 ==>
                var h, ptr := old(nextThread), Pointer(old(View()), Thread(out));
                && threads == old(threads)[h := ThreadStack(ptr, THREAD_STACK)]
                && pending == old(pending) + [PendingThread(h, fn, arg, bump)]
                && bump == Add64(ptr, THREAD_STACK)
    {
      KeepsValid(View(), Thread(out));
      StackSize(out);
      var h := nextThread;
      nextThread := Add64(nextThread, 1);
      var stackBase := RoundUp(bump, 15);
      var stackTop := Add64(stackBase, THREAD_STACK);
      if stackTop > Add64(base, HEAP_SIZE) {
        return EAGAIN;
      }
      bump := stackTop;
      mem := Fill(mem, stackBase, Zeros(THREAD_STACK));
      if out != 0 {
        mem := Fill(mem, out, LeBytes(h, 8));
      }
      blocks := blocks + [Block(stackBase, THREAD_STACK, THREAD_STACK)];
      threads := threads[h := ThreadStack(stackBase, THREAD_STACK)];
      pending := pending + [PendingThread(h, fn, arg, stackTop)];
      r := 0;
    }

    method AllocPixels() returns (r: u64)
      modifies this`bump, this`mem, this`blocks
      ensures View() == Step(old(View()), Pixels)
      ensures old(Valid()) ==> (Valid() <==> Sound(old(View()), Pixels))
      ensures r == if Accepts(old(View()), Pixels) then Pointer(old(View()), Pixels) else 0
    {
      KeepsValid(View(), Pixels);
      PixelSize();
      var ptr := RoundUp(bump, 15);
      if Add64(ptr, BITMAP_BYTES) > Add64(base, HEAP_SIZE) {
        return 0;
      }
      bump := Add64(ptr, BITMAP_BYTES);
      mem := Fill(mem, ptr, Zeros(BITMAP_BYTES));
      blocks := blocks + [Block(ptr, BITMAP_BYTES, BITMAP_BYTES)];
      r := ptr;
    }

    method AllocGuest(n: u64, align: u64) returns (r: u64)
      modifies this`bump, this`blocks
      ensures View() == Step(old(View()), Op.AllocGuest(n, align))
      ensures old(Valid()) ==> (Valid() <==> Sound(old(View()), Op.AllocGuest(n, align)))
      ensures r == if Accepts(old(View()), Op.AllocGuest(n, align)) then Pointer(old(View()), Op.AllocGuest(n, align)) else 0
    {
      KeepsValid(View(), Op.AllocGuest(n, align));
      var mask := if align == 0 then 0 else align - 1;
      var ptr := RoundUp(bump, mask);
      var size := RoundUp(n, mask);
      if Add64(ptr, size) > Add64(base, HEAP_SIZE) {
        return 0;
      }
      bump := Add64(ptr, size);
      assert Fill(mem, ptr, []) == mem;
      blocks := blocks + [Block(ptr, size, n)];
      r := ptr;
    }
  }

  /** A request that is refused, or whose 64-bit arithmetic does not overflow. */
  predicate Sound(s: State, op: Op) {
    Accepts(s, op) ==> NoOverflow(s, op)
  }

  lemma KeepsValid(s: State, op: Op)
    ensures BumpHeap.Valid(s) ==> (BumpHeap.Valid(Step(s, op)) <==> Sound(s, op))
  {
    if BumpHeap.Valid(s) {
      if Accepts(s, op) {
        SoundExactly(s, op);
      } else {
        StepValid(s, op);
      }
    }
  }

  lemma StackSize(out: u64)
    ensures Size(Thread(out)) == THREAD_STACK
  {
    AndSplit(THREAD_STACK, 0);
  }

  lemma PixelSize()
    ensures Size(Pixels) == BITMAP_BYTES
  {
    AndSplit(BITMAP_BYTES, 0);
  }
}
