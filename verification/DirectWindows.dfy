/** The address windows of a whole run of the direct `.so` loader: when the next base never moves back,
    and what is then kept apart. */
module DirectWindows {
  import opened Words
  import opened DirectImage
  import opened DirectLoader

  /** No window starts above this. */
  function Ceiling(w: World, start: seq<Object>): nat {
    Max(w.guestSize, FirstFree(start)) + BLOCK_MASK
  }

  /** What a caller can check of a placed object: it starts at 0, the rounded end of its window does not
      wrap, or its range is inverted by less than a block. */
  predicate Forward(obj: Object) {
    Start(obj) == 0 || Start(obj) + Extent(obj) + BLOCK_MASK < TOP || Extent(obj) as int + BLOCK_MASK >= TOP
  }

  ghost predicate AllForward(start: seq<Object>, objects: seq<Object>) {
    forall k :: |start| <= k < |objects| ==> Forward(objects[k])
  }

  // ---- where the next base stands ----------------------------------------------------------------------

  lemma JustifiedFacts(w: World, objects: seq<Object>, n: nat, obj: Object)
    requires n <= |objects| && Justified(w, objects, n, obj)
    ensures obj.path in w.fs && Loadable(w.fs[obj.path])
    ensures obj == Place(w.fs[obj.path], obj.path, AlignUp(NextBase(objects, n)))
    ensures AlignUp(End(obj)) <= w.guestSize
  {
    var i, name :| 0 <= i < |objects| && name in NonEmpty(objects[i].needed) && LoadedFor(w, objects, n, name, obj);
    assert NextLoad(w, objects, n, name).value == obj;
  }

  lemma NextAfter(objects: seq<Object>, n: nat, k: nat)
    requires n <= k < |objects|
    ensures NextBase(objects[..k + 1], n) == AlignUp(End(objects[k]))
  {
    assert objects[..k + 1][k] == objects[k];
  }

  lemma Facts(w: World, start: seq<Object>, objects: seq<Object>, k: nat)
    requires Grown(w, start, objects) && |start| <= k < |objects|
    ensures var path := objects[k].path;
            && path in w.fs && Loadable(w.fs[path])
            && objects[k] == Place(w.fs[path], path, AlignUp(NextBase(objects[..k], |start|)))
    ensures AlignUp(End(objects[k])) <= w.guestSize
  {
    assert JustifiedAt(w, objects, |start|, k);
    JustifiedFacts(w, objects[..k], |start|, objects[k]);
  }

  lemma {:induction false} FirstFreeAligned(start: seq<Object>)
    ensures FirstFree(start) % 0x20_0000 == 0 && FIRST_BASE <= FirstFree(start)
  {
    if start != [] {
      FirstFreeAligned(start[..|start| - 1]);
      AlignUpAligned(End(start[|start| - 1]));
    }
  }

  lemma NextBaseAligned(objects: seq<Object>, n: nat)
    requires n <= |objects|
    ensures NextBase(objects, n) % 0x20_0000 == 0
  {
    if |objects| == n {
      FirstFreeAligned(objects);
    } else {
      AlignUpAligned(End(objects[|objects| - 1]));
    }
  }

  lemma LaterBounded(w: World, start: seq<Object>, objects: seq<Object>, m: nat)
    requires Grown(w, start, objects) && |start| <= m < |objects|
    ensures NextBase(objects[..m + 1], |start|) <= w.guestSize
  {
    Facts(w, start, objects, m);
    NextAfter(objects, |start|, m);
  }

  lemma NextBaseBounded(w: World, start: seq<Object>, objects: seq<Object>, k: nat)
    requires Grown(w, start, objects) && |start| <= k <= |objects|
    ensures NextBase(objects[..k], |start|) <= Max(w.guestSize, FirstFree(start))
  {
    var next := NextBase(objects[..k], |start|);
    if k == |start| {
      assert next == FirstFree(start) by { assert objects[..k] == start; }
    } else {
      var m := k - 1;
      assert next <= w.guestSize by { LaterBounded(w, start, objects, m); assert m + 1 == k; }
    }
  }

  lemma AlignedStays(x: u64)
    requires x % 0x20_0000 == 0 && x + BLOCK_MASK < TOP
    ensures AlignUp(x) == x
  {
    AlignUpMeans(x);
    SameBlock(AlignUp(x), x);
  }

  lemma SameBlock(up: nat, low: nat)
    requires up % 0x20_0000 == 0 && low % 0x20_0000 == 0 && low <= up <= low + BLOCK_MASK
    ensures up == low
  {
  }

  /** Every object starts exactly where the next base stood. */
  lemma StartsAtBase(w: World, start: seq<Object>, objects: seq<Object>, k: nat)
    requires Grown(w, start, objects) && |start| <= k < |objects| && Ceiling(w, start) < TOP
    ensures Start(objects[k]) == NextBase(objects[..k], |start|) && Start(objects[k]) % 0x20_0000 == 0
    ensures End(objects[k]) == Add64(Start(objects[k]), Extent(objects[k]))
  {
    var next := NextBase(objects[..k], |start|);
    Facts(w, start, objects, k);
    NextBaseAligned(objects[..k], |start|);
    NextBaseBounded(w, start, objects, k);
    AlignedStays(next);
    WindowMeans(w.fs[objects[k].path], objects[k].path, next);
  }

  // ---- the next base over a run -------------------------------------------------------------------------

  lemma StepForward(w: World, start: seq<Object>, objects: seq<Object>, k: nat)
    requires Grown(w, start, objects) && |start| <= k < |objects| && Ceiling(w, start) < TOP
    ensures NextBase(objects[..k], |start|) <= NextBase(objects[..k + 1], |start|) <==> Forward(objects[k])
  {
    Facts(w, start, objects, k);
    StartsAtBase(w, start, objects, k);
    NextAfter(objects, |start|, k);
    EndAgainst(Start(objects[k]), Extent(objects[k]));
  }

  ghost predicate NeverBack(start: seq<Object>, objects: seq<Object>)
    requires |start| <= |objects|
  {
    forall j, k :: |start| <= j <= k <= |objects| ==> NextBase(objects[..j], |start|) <= NextBase(objects[..k], |start|)
  }

  lemma {:induction false} NextBaseGrows(w: World, start: seq<Object>, objects: seq<Object>, j: nat, k: nat)
    requires Grown(w, start, objects) && |start| <= j <= k <= |objects| && Ceiling(w, start) < TOP
    requires AllForward(start, objects)
    ensures NextBase(objects[..j], |start|) <= NextBase(objects[..k], |start|)
    decreases k - j
  {
    if j < k {
      StepForward(w, start, objects, j);
      NextBaseGrows(w, start, objects, j + 1, k);
    }
  }

  /** Over a run the next base never moves back if and only if every loaded object passes the check. */
  lemma NeverBackExactly(w: World, start: seq<Object>, objects: seq<Object>)
    requires Grown(w, start, objects) && Ceiling(w, start) < TOP
    ensures NeverBack(start, objects) <==> AllForward(start, objects)
  {
    if NeverBack(start, objects) {
      forall k | |start| <= k < |objects| ensures Forward(objects[k]) {
        StepForward(w, start, objects, k);
      }
    }
    if AllForward(start, objects) {
      forall j, k | |start| <= j <= k <= |objects|
        ensures NextBase(objects[..j], |start|) <= NextBase(objects[..k], |start|)
      {
        NextBaseGrows(w, start, objects, j, k);
      }
    }
  }

  lemma {:induction false} FirstFreeAbove(start: seq<Object>, i: nat)
    requires i < |start| && End(start[i]) + BLOCK_MASK < TOP
    ensures End(start[i]) <= FirstFree(start)
  {
    if i == |start| - 1 {
      AlignWraps(End(start[i]));
    } else {
      FirstFreeAbove(start[..|start| - 1], i);
    }
  }

  /** Then the windows, up to the block boundary, are 2 MiB aligned, inside the guest, pairwise disjoint
      in loading order, at or above the fixed base, and above every initially loaded object. */
  lemma WindowsDisjoint(w: World, start: seq<Object>, objects: seq<Object>, j: nat, k: nat)
    requires Grown(w, start, objects) && Ceiling(w, start) < TOP && AllForward(start, objects)
    requires j < k && |start| <= k < |objects|
    ensures Start(objects[k]) % 0x20_0000 == 0
    ensures FIRST_BASE <= Start(objects[k]) <= AlignUp(End(objects[k])) <= w.guestSize
    ensures j >= |start| ==> AlignUp(End(objects[j])) <= Start(objects[k])
    ensures j < |start| && End(objects[j]) + BLOCK_MASK < TOP ==> End(objects[j]) <= Start(objects[k])
  {
    var n := |start|;
    WindowPlaced(w, start, objects, k);
    if j >= n {
      NextAfter(objects, n, j);
      NextBaseGrows(w, start, objects, j + 1, k);
    } else if End(objects[j]) + BLOCK_MASK < TOP {
      assert start[j] == objects[j];
      FirstFreeAbove(start, j);
      NextBaseGrows(w, start, objects, n, k);
      assert objects[..n] == start;
    }
  }

  lemma WindowPlaced(w: World, start: seq<Object>, objects: seq<Object>, k: nat)
    requires Grown(w, start, objects) && Ceiling(w, start) < TOP && AllForward(start, objects)
    requires |start| <= k < |objects|
    ensures Start(objects[k]) % 0x20_0000 == 0 && Start(objects[k]) == NextBase(objects[..k], |start|)
    ensures FIRST_BASE <= Start(objects[k]) <= AlignUp(End(objects[k])) <= w.guestSize
  {
    Facts(w, start, objects, k);
    StartsAtBase(w, start, objects, k);
    NextAfter(objects, |start|, k);
    StepForward(w, start, objects, k);
    NextBaseGrows(w, start, objects, |start|, k);
    FirstFreeAligned(start);
    assert objects[..|start|] == start;
  }

  // ---- what is written -----------------------------------------------------------------------------------

  /** The segment is written inside the object's window: the window does not wrap and the segment ends
      within the load range. */
  predicate Within(w: World, obj: Object, i: nat) {
    && obj.path in w.fs && w.fs[obj.path].Lib? && i < |w.fs[obj.path].segments|
    && Size(w.fs[obj.path].segments[i]) > 0
    && Start(obj) + Extent(obj) < TOP && Contained(w.fs[obj.path], i)
  }

  lemma SegmentInside(w: World, start: seq<Object>, objects: seq<Object>, k: nat, i: nat)
    requires Grown(w, start, objects) && Ceiling(w, start) < TOP && AllForward(start, objects)
    requires |start| <= k < |objects| && Within(w, objects[k], i)
    ensures var obj, s := objects[k], w.fs[objects[k].path].segments[i];
            Start(obj) <= Target(obj, s) && Target(obj, s) + Size(s) <= End(obj) <= AlignUp(End(obj))
  {
    var obj := objects[k];
    Facts(w, start, objects, k);
    WindowPlaced(w, start, objects, k);
    StartsAtBase(w, start, objects, k);
    var low := AlignUp(NextBase(objects[..k], |start|));
    WindowMeans(w.fs[obj.path], obj.path, low);
    InsideExactly(w.fs[obj.path], obj.path, low, i);
    AlignWraps(End(obj));
  }

  /** No byte is written for two libraries, when the next base never moves back and the segments in
      question are written inside their windows. */
  lemma SegmentsDisjoint(w: World, start: seq<Object>, objects: seq<Object>, j: nat, k: nat, i: nat, m: nat)
    requires Grown(w, start, objects) && Ceiling(w, start) < TOP && AllForward(start, objects)
    requires |start| <= j < k < |objects| && Within(w, objects[j], i) && Within(w, objects[k], m)
    ensures var s, t := w.fs[objects[j].path].segments[i], w.fs[objects[k].path].segments[m];
            Target(objects[j], s) + Size(s) <= Target(objects[k], t)
  {
    SegmentInside(w, start, objects, j, i);
    SegmentInside(w, start, objects, k, m);
    WindowsDisjoint(w, start, objects, j, k);
  }

  // ---- a condition on the files alone --------------------------------------------------------------------

  /** Every segment is no longer in the file than in memory and ends where no window can wrap. It can be
      checked before anything is loaded. */
  ghost predicate OrdinaryFiles(w: World, start: seq<Object>) {
    && Ceiling(w, start) < TOP
    && forall path, i :: path in w.fs && w.fs[path].Lib? && 0 <= i < |w.fs[path].segments| ==>
         OrdinaryBelow(w.fs[path].segments[i], Ceiling(w, start) + BLOCK_MASK)
  }

  predicate OrdinaryBelow(s: Segment, taken: nat) {
    s.filesz <= s.memsz && s.vaddr + s.memsz + PAGE_MASK + taken < TOP
  }

  lemma OrdinaryForward(w: World, start: seq<Object>, objects: seq<Object>, k: nat)
    requires Grown(w, start, objects) && OrdinaryFiles(w, start) && |start| <= k < |objects|
    ensures Start(objects[k]) + Extent(objects[k]) + BLOCK_MASK < TOP
  {
    Facts(w, start, objects, k);
    StartsAtBase(w, start, objects, k);
    NextBaseBounded(w, start, objects, k);
    OrdinaryExtent(w.fs[objects[k].path], TOP - 1 - BLOCK_MASK - Ceiling(w, start));
  }

  /** Main result on the files alone: no byte is written for two libraries, by any segments of theirs. */
  lemma OrdinaryDisjoint(w: World, start: seq<Object>, objects: seq<Object>, j: nat, k: nat, i: nat, m: nat)
    requires Grown(w, start, objects) && OrdinaryFiles(w, start)
    requires |start| <= j < k < |objects| && objects[j].path in w.fs && objects[k].path in w.fs
    requires var a, b := w.fs[objects[j].path], w.fs[objects[k].path];
             && a.Lib? && b.Lib? && i < |a.segments| && m < |b.segments|
             && Size(a.segments[i]) > 0 && Size(b.segments[m]) > 0
    ensures var s, t := w.fs[objects[j].path].segments[i], w.fs[objects[k].path].segments[m];
            Target(objects[j], s) + Size(s) <= Target(objects[k], t)
  {
    forall o | |start| <= o < |objects| ensures Forward(objects[o]) {
      OrdinaryForward(w, start, objects, o);
    }
    OrdinaryWithin(w, start, objects, j, i);
    OrdinaryWithin(w, start, objects, k, m);
    SegmentsDisjoint(w, start, objects, j, k, i, m);
  }

  lemma OrdinaryWithin(w: World, start: seq<Object>, objects: seq<Object>, k: nat, i: nat)
    requires Grown(w, start, objects) && OrdinaryFiles(w, start) && |start| <= k < |objects| && objects[k].path in w.fs
    requires var file := w.fs[objects[k].path]; file.Lib? && i < |file.segments| && Size(file.segments[i]) > 0
    ensures Within(w, objects[k], i)
  {
    OrdinaryForward(w, start, objects, k);
    var file := w.fs[objects[k].path];
    assert OrdinaryBelow(file.segments[i], Ceiling(w, start) + BLOCK_MASK);
    OrdinaryContained(file, i);
  }
}
