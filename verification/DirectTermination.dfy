/** When the direct `.so` loader's worklist ends. */
module DirectTermination {
  import opened Words
  import opened DirectImage
  import opened DirectLoader
  import opened DirectWindows
  import opened DirectEscapes

  // ---- the names that can come up ----------------------------------------------------------------------

  function NeededBy(file: File): seq<string> {
    if file.Bad? then [] else file.needed
  }

  /** Every name that can come up: needed by an initial object or by a file. */
  function Names(w: World, start: seq<Object>): set<string> {
    (set k, n | 0 <= k < |start| && n in NonEmpty(start[k].needed) :: n) +
    (set path, n | path in w.fs && n in NonEmpty(NeededBy(w.fs[path])) :: n)
  }

  function Pending(w: World, start: seq<Object>, objects: seq<Object>): set<string> {
    set n | n in Names(w, start) && !Loaded(objects, n)
  }

  lemma {:induction false} PendingShrinks(w: World, start: seq<Object>, objects: seq<Object>, obj: Object, name: string)
    requires name in Pending(w, start, objects) && Loaded(objects + [obj], name)
    ensures |Pending(w, start, objects + [obj])| < |Pending(w, start, objects)|
  {
    var p, q := Pending(w, start, objects), Pending(w, start, objects + [obj]);
    forall n | n in q ensures n in p {
      if Loaded(objects, n) {
        LoadedGrows(objects, obj, n);
        assert false;
      }
    }
    assert q <= p - {name};
    SubsetSize(q, p - {name});
  }

  lemma {:induction false} SubsetSize(a: set<string>, b: set<string>)
    requires a <= b
    ensures |a| <= |b|
  {
    assert b == a + (b - a);
  }

  lemma {:induction false} NeededIsNamed(w: World, start: seq<Object>, objects: seq<Object>, i: nat, name: string)
    requires Grown(w, start, objects) && i < |objects| && name in NonEmpty(objects[i].needed)
    ensures name in Names(w, start)
  {
    if i < |start| {
      assert objects[i] == start[i];
    } else {
      Facts(w, start, objects, i);
      assert NeededBy(w.fs[objects[i].path]) == objects[i].needed;
    }
  }

  // ---- a condition for each name ------------------------------------------------------------------------

  /** A load range that takes room and does not wrap anywhere below the ceiling. */
  predicate Advancing(file: File, ceiling: nat)
    requires file.Lib?
  {
    0 < FileExtent(file) && ceiling + FileExtent(file) + BLOCK_MASK < TOP
  }

  /** A name that cannot be loaded over and over: it is recognised once its library is loaded, or that
      library takes room. */
  predicate Settles(w: World, start: seq<Object>, name: string) {
    Recognisable(w, name) ||
    match Find(w, w.dirs, name)
    case None => true
    case Some(path) => Loadable(w.fs[path]) && Advancing(w.fs[path], Ceiling(w, start))
  }

  ghost predicate AllSettle(w: World, start: seq<Object>) {
    forall n :: n in Names(w, start) ==> Settles(w, start, n)
  }

  /** Room below the end of the guest. */
  function Room(w: World, next: nat): nat {
    if next < w.guestSize then w.guestSize - next else 0
  }

  /** Falls with every load: either a name is settled for good, or room is used up. */
  ghost function Weight(w: World, start: seq<Object>, objects: seq<Object>): nat
    requires |start| <= |objects|
  {
    Weigh(|Pending(w, start, objects)|, Room(w, NextBase(objects, |start|)), w.guestSize)
  }

  function Weigh(p: nat, r: nat, g: nat): nat {
    p * (g + 1) + r
  }

  lemma {:induction false} PendingKept(w: World, start: seq<Object>, objects: seq<Object>, obj: Object)
    ensures |Pending(w, start, objects + [obj])| <= |Pending(w, start, objects)|
  {
    var p, q := Pending(w, start, objects), Pending(w, start, objects + [obj]);
    forall n | n in q ensures n in p {
      if Loaded(objects, n) {
        LoadedGrows(objects, obj, n);
        assert false;
      }
    }
    SubsetSize(q, p);
  }

  lemma {:induction false} RecognisedShrinks(w: World, start: seq<Object>, objects: seq<Object>, name: string, obj: Object)
    requires |start| <= |objects| && name in Names(w, start) && Recognisable(w, name)
    requires LoadedFor(w, objects, |start|, name, obj)
    ensures |Pending(w, start, objects + [obj])| < |Pending(w, start, objects)|
  {
    var d :| d in w.dirs && obj.path == Join(d, name);
    LoadSatisfiesExactly(objects, obj, d, name);
    PendingShrinks(w, start, objects, obj, name);
  }

  lemma {:induction false} RoomShrinks(w: World, start: seq<Object>, objects: seq<Object>, name: string, obj: Object)
    requires Grown(w, start, objects) && LoadedFor(w, objects, |start|, name, obj)
    requires Advancing(w.fs[obj.path], Ceiling(w, start))
    ensures Room(w, AlignUp(End(obj))) < Room(w, NextBase(objects, |start|))
  {
    var next := NextBase(objects, |start|);
    var file := w.fs[obj.path];
    assert objects[..|objects|] == objects;
    NextBaseBounded(w, start, objects, |objects|);
    NextBaseAligned(objects, |start|);
    AlignedStays(next);
    WindowExactly(file, obj.path, next);
  }

  lemma {:induction false} Carried(p: nat, p': nat, r: nat, r': nat, g: nat)
    requires r' <= g && (p' < p || (p' == p && r' < r))
    ensures Weigh(p', r', g) < Weigh(p, r, g)
  {
    if p' < p {
      MulDistribute(g + 1, p, p');
      MulAtLeast(g + 1, p - p');
    }
  }

  lemma {:induction false} WeightShrinks(w: World, start: seq<Object>, objects: seq<Object>, name: string, obj: Object)
    requires Grown(w, start, objects) && name in Names(w, start) && Settles(w, start, name)
    requires LoadedFor(w, objects, |start|, name, obj)
    ensures Weight(w, start, objects + [obj]) < Weight(w, start, objects)
  {
    var more := objects + [obj];
    var p, p' := |Pending(w, start, objects)|, |Pending(w, start, more)|;
    var r, r' := Room(w, NextBase(objects, |start|)), Room(w, NextBase(more, |start|));
    assert NextBase(more, |start|) == AlignUp(End(obj));
    PendingKept(w, start, objects, obj);
    if Recognisable(w, name) {
      RecognisedShrinks(w, start, objects, name, obj);
    } else {
      RoomShrinks(w, start, objects, name, obj);
    }
    Carried(p, p', r, r', w.guestSize);
  }

  /** The number of names still to look at in the current object. */
  function Left(s: Work): nat {
    if s.i < |s.objects| then |NonEmpty(s.objects[s.i].needed)| - Min(s.j, |NonEmpty(s.objects[s.i].needed)|) else 0
  }

  /** The objects still to take up, the current one included. */
  function Ahead(s: Work): nat {
    |s.objects| - Min(s.i, |s.objects|)
  }

  /** Every visit loads a library, or looks at one name or object more. */
  lemma {:induction false} VisitProgress(w: World, start: seq<Object>, s: Work)
    requires AllSettle(w, start) && Grown(w, start, s.objects) && Visit(w, |start|, s).Going?
    ensures var t := Visit(w, |start|, s).work;
            && Grown(w, start, t.objects)
            && (Weight(w, start, t.objects) < Weight(w, start, s.objects) ||
                (t.objects == s.objects && (Ahead(t) < Ahead(s) || (Ahead(t) == Ahead(s) && Left(t) < Left(s)))))
  {
    var t := Visit(w, |start|, s).work;
    VisitGrows(w, start, s);
    var names := NonEmpty(s.objects[s.i].needed);
    if t.objects != s.objects {
      assert names[s.j] in names;
      NeededIsNamed(w, start, s.objects, s.i, names[s.j]);
      WeightShrinks(w, start, s.objects, names[s.j], NextLoad(w, s.objects, |start|, names[s.j]).value);
    }
  }

  lemma {:induction false} EndsFrom(w: World, start: seq<Object>, s: Work) returns (k: nat)
    requires AllSettle(w, start) && Grown(w, start, s.objects)
    ensures !After(w, |start|, Going(s), k).Going?
    decreases Weight(w, start, s.objects), Ahead(s), Left(s)
  {
    var next := Visit(w, |start|, s);
    var rest := 0;
    if next.Going? {
      VisitProgress(w, start, s);
      rest := EndsFrom(w, start, next.work);
    }
    k := OneVisitMore(w, |start|, s, rest);
  }

  lemma {:induction false} OneVisitMore(w: World, n: nat, s: Work, rest: nat) returns (k: nat)
    requires n <= |s.objects| && (Visit(w, n, s).Going? ==> !After(w, n, Visit(w, n, s), rest).Going?)
    ensures !After(w, n, Going(s), k).Going?
  {
    k := rest + 1;
    assert After(w, n, Going(s), k) == After(w, n, Visit(w, n, s), rest);
  }

  /** When every name settles - each for a reason of its own - the worklist ends. */
  lemma {:induction false} RunEnds(w: World, start: seq<Object>)
    requires AllSettle(w, start)
    ensures exists k :: !After(w, |start|, Begin(start), k).Going?
  {
    assert start[..|start|] == start;
    var k := EndsFrom(w, start, Work(start, 0, 0));
    assert !After(w, |start|, Begin(start), k).Going?;
  }

  // ---- names without slashes -----------------------------------------------------------------------------

  ghost predicate SlashFree(w: World, start: seq<Object>) {
    forall n :: n in Names(w, start) ==> '/' !in n
  }

  lemma {:induction false} SlashFreeSettles(w: World, start: seq<Object>)
    requires SlashFree(w, start)
    ensures AllSettle(w, start)
  {
    forall n | n in Names(w, start) ensures Settles(w, start, n) {
      assert Recognisable(w, n);
    }
  }

  /** Every needed name is loaded or built in. */
  ghost predicate Resolved(w: World, objects: seq<Object>) {
    forall i, name :: 0 <= i < |objects| && name in NonEmpty(objects[i].needed) ==>
      Loaded(objects, name) || BuiltIn(w, name)
  }

  /** The usual case, in which needed names are plain file names: the worklist ends, either with every
      needed name loaded or built in, or stuck with one that is neither. */
  lemma {:induction false} SlashFreeLoads(w: World, start: seq<Object>) returns (k: nat)
    requires SlashFree(w, start)
    ensures match After(w, |start|, Begin(start), k)
            case Going(_) => false
            case Complete(objects) => Grown(w, start, objects) && Resolved(w, objects)
            case Failed(objects, name) => Grown(w, start, objects) && Stuck(w, objects, |start|, name)
                                          && exists i :: 0 <= i < |objects| && name in NonEmpty(objects[i].needed)
  {
    SlashFreeSettles(w, start);
    RunEnds(w, start);
    k :| !After(w, |start|, Begin(start), k).Going?;
    assert start[..|start|] == start;
    RunCloses(w, start, Begin(start), k);
    var p := After(w, |start|, Begin(start), k);
    if p.Complete? {
      ClosedIsResolved(w, start, p.objects);
    }
  }

  lemma {:induction false} ClosedIsResolved(w: World, start: seq<Object>, objects: seq<Object>)
    requires SlashFree(w, start) && Grown(w, start, objects) && ClosedBelow(w, objects, |objects|)
    ensures Resolved(w, objects)
  {
    forall i, name | 0 <= i < |objects| && name in NonEmpty(objects[i].needed)
      ensures Loaded(objects, name) || BuiltIn(w, name)
    {
      NeededIsNamed(w, start, objects, i, name);
      RecognisedIsLoaded(w, objects, name);
    }
  }

  // ---- a library that needs itself: exactly when the worklist ends ---------------------------------------

  /** One name is all that is ever needed, by an initial object and by its own library; the library can be
      mapped, and its window does not wrap. */
  ghost predicate SelfNeed(w: World, start: seq<Object>, name: string, path: string) {
    && Find(w, w.dirs, name) == Some(path) && Loadable(w.fs[path])
    && name in NonEmpty(w.fs[path].needed)
    && (exists i :: 0 <= i < |start| && name in NonEmpty(start[i].needed))
    && (forall n :: n in Names(w, start) ==> n == name)
    && !Loaded(start, name)
    && Maps(w.fs[path], Place(w.fs[path], path, AlignUp(FirstFree(start))), w.guestSize)
    && Ceiling(w, start) + FileExtent(w.fs[path]) + BLOCK_MASK < TOP
  }

  /** The library in the case where it takes no room and its name is never recognised. */
  ghost predicate Trap(w: World, start: seq<Object>, name: string, path: string) {
    && Find(w, w.dirs, name) == Some(path) && Loadable(w.fs[path]) && !Recognisable(w, name)
    && NeedsOnly(w.fs[path].needed, name)
    && FileExtent(w.fs[path]) == 0 && Ceiling(w, start) + BLOCK_MASK < TOP
    && Maps(w.fs[path], Place(w.fs[path], path, AlignUp(FirstFree(start))), w.guestSize)
  }

  ghost predicate NeedsOnly(needed: seq<string>, name: string) {
    name in NonEmpty(needed) && forall n :: n in NonEmpty(needed) ==> n == name
  }

  lemma {:induction false} Trapped(w: World, start: seq<Object>, name: string, path: string)
    requires SelfNeed(w, start, name, path) && !Recognisable(w, name) && FileExtent(w.fs[path]) == 0
    ensures Trap(w, start, name, path)
  {
    forall n | n in NonEmpty(w.fs[path].needed) ensures n == name {
      assert n in NonEmpty(NeededBy(w.fs[path]));
      assert n in Names(w, start);
    }
  }

  /** At or after the current position, name `p` of object `x` is `name`. */
  predicate Awaits(s: Work, name: string, x: nat, p: nat) {
    && s.i <= x < |s.objects| && (x == s.i ==> s.j <= p)
    && p < |NonEmpty(s.objects[x].needed)| && NonEmpty(s.objects[x].needed)[p] == name
  }

  /** A state of the worklist from which the library is loaded again and again. */
  ghost predicate Insatiable(w: World, start: seq<Object>, name: string, s: Work) {
    && |start| <= |s.objects| && !Loaded(s.objects, name)
    && NextBase(s.objects, |start|) == FirstFree(start)
    && OnlyName(s.objects, name)
    && exists x, p :: Awaits(s, name, x, p)
  }

  lemma {:induction false} PositionOf(names: seq<string>, name: string) returns (p: nat)
    requires name in names
    ensures p < |names| && names[p] == name
  {
    p :| 0 <= p < |names| && names[p] == name;
  }

  /** The library as it is loaded every time. */
  lemma {:induction false} SameAgain(w: World, start: seq<Object>, name: string, path: string, objects: seq<Object>)
    requires Trap(w, start, name, path)
    requires |start| <= |objects| && NextBase(objects, |start|) == FirstFree(start)
    ensures NextLoad(w, objects, |start|, name).Some?
    ensures var obj := NextLoad(w, objects, |start|, name).value;
            AlignUp(End(obj)) == FirstFree(start) && obj.needed == w.fs[path].needed
  {
    var low := FirstFree(start);
    FirstFreeAligned(start);
    AlignedStays(low);
    WindowMeans(w.fs[path], path, low);
  }

  lemma {:induction false} NeverRecognised(w: World, name: string, path: string, objects: seq<Object>, n: nat, obj: Object)
    requires n <= |objects| && !Recognisable(w, name) && LoadedFor(w, objects, n, name, obj)
    ensures !Loaded(objects + [obj], name)
  {
    var d :| d in w.dirs && obj.path == Join(d, name);
    LoadSatisfiesExactly(objects, obj, d, name);
  }

  ghost predicate OnlyName(objects: seq<Object>, name: string) {
    forall k, n :: 0 <= k < |objects| && n in NonEmpty(objects[k].needed) ==> n == name
  }

  lemma {:induction false} OnlyNameKept(objects: seq<Object>, obj: Object, name: string)
    requires OnlyName(objects, name) && NeedsOnly(obj.needed, name)
    ensures OnlyName(objects + [obj], name)
  {
    var more := objects + [obj];
    forall k, n | 0 <= k < |more| && n in NonEmpty(more[k].needed) ensures n == name {
      assert more[k] == if k < |objects| then objects[k] else obj;
    }
  }

  lemma {:induction false} AwaitsNew(objects: seq<Object>, obj: Object, name: string, i: nat, j: nat)
    requires i < |objects| && name in NonEmpty(obj.needed)
    ensures exists x, p :: Awaits(Work(objects + [obj], i, j), name, x, p)
  {
    var p := PositionOf(NonEmpty(obj.needed), name);
    assert (objects + [obj])[|objects|] == obj;
    assert Awaits(Work(objects + [obj], i, j), name, |objects|, p);
  }

  /** A visit to a name loads the library and leaves it insatiable. */
  lemma {:induction false} LoadsAgain(w: World, start: seq<Object>, name: string, path: string, s: Work)
    requires Trap(w, start, name, path)
    requires Insatiable(w, start, name, s) && s.i < |s.objects| && s.j < |NonEmpty(s.objects[s.i].needed)|
    ensures var r := Visit(w, |start|, s);
            r.Going? && Insatiable(w, start, name, r.work) && |r.work.objects| == |s.objects| + 1
  {
    SameAgain(w, start, name, path, s.objects);
    var obj := NextLoad(w, s.objects, |start|, name).value;
    NeverRecognised(w, name, path, s.objects, |start|, obj);
    InsatiableMore(w, start, name, s, obj);
    VisitLoads(w, |start|, s, name, obj);
  }

  lemma {:induction false} VisitLoads(w: World, n: nat, s: Work, name: string, obj: Object)
    requires n <= |s.objects| && s.i < |s.objects| && s.j < |NonEmpty(s.objects[s.i].needed)|
    requires OnlyName(s.objects, name) && LoadedFor(w, s.objects, n, name, obj)
    ensures Visit(w, n, s) == Going(Work(s.objects + [obj], s.i, s.j + 1))
  {
    assert NonEmpty(s.objects[s.i].needed)[s.j] in NonEmpty(s.objects[s.i].needed);
  }

  lemma {:induction false} InsatiableMore(w: World, start: seq<Object>, name: string, s: Work, obj: Object)
    requires Insatiable(w, start, name, s) && s.i < |s.objects| && NeedsOnly(obj.needed, name)
    requires !Loaded(s.objects + [obj], name) && AlignUp(End(obj)) == FirstFree(start)
    ensures Insatiable(w, start, name, Work(s.objects + [obj], s.i, s.j + 1))
  {
    OnlyNameKept(s.objects, obj, name);
    AwaitsNew(s.objects, obj, name, s.i, s.j + 1);
  }

  /** Between loads only finished objects are passed over. */
  lemma {:induction false} LoadComes(w: World, start: seq<Object>, name: string, path: string, s: Work)
    returns (k: nat, s': Work)
    requires Trap(w, start, name, path)
    requires Insatiable(w, start, name, s)
    ensures k > 0 && Reaches(w, |start|, s, k, s')
    ensures Insatiable(w, start, name, s') && |s'.objects| == |s.objects| + 1
    decreases |s.objects| - s.i
  {
    var x, p :| Awaits(s, name, x, p);
    if s.j < |NonEmpty(s.objects[s.i].needed)| {
      LoadsAgain(w, start, name, path, s);
      k, s' := 1, Visit(w, |start|, s).work;
      assert After(w, |start|, Going(s'), 0) == Going(s');
    } else {
      var t := Work(s.objects, s.i + 1, 0);
      assert Awaits(t, name, x, p);
      var rest;
      rest, s' := LoadComes(w, start, name, path, t);
      k := rest + 1;
    }
  }

  predicate Reaches(w: World, n: nat, s: Work, k: nat, t: Work) {
    n <= |s.objects| && n <= |t.objects| && After(w, n, Going(s), k) == Going(t)
  }

  lemma {:induction false} Chained(w: World, n: nat, s: Work, a: nat, t: Work, b: nat, u: Work)
    requires Reaches(w, n, s, a, t) && Reaches(w, n, t, b, u)
    ensures Reaches(w, n, s, a + b, u)
  {
    AfterAdd(w, n, Going(s), a, b);
  }

  /** After `k` visits the run is at `s`, where the worklist is insatiable. */
  ghost predicate Unsated(w: World, start: seq<Object>, name: string, k: nat, s: Work) {
    Reaches(w, |start|, Work(start, 0, 0), k, s) && Insatiable(w, start, name, s)
  }

  lemma {:induction false} Onward(w: World, start: seq<Object>, name: string, path: string, k: nat, s: Work)
    returns (k': nat, s': Work)
    requires Trap(w, start, name, path)
    requires Unsated(w, start, name, k, s)
    ensures Unsated(w, start, name, k', s') && k < k' && |s'.objects| == |s.objects| + 1
  {
    var more, t := LoadComes(w, start, name, path, s);
    UnsatedLater(w, start, name, k, s, more, t);
    k', s' := k + more, t;
  }

  lemma {:induction false} UnsatedLater(w: World, start: seq<Object>, name: string, k: nat, s: Work, more: nat, t: Work)
    requires Reaches(w, |start|, Work(start, 0, 0), k, s) && Reaches(w, |start|, s, more, t)
    requires Insatiable(w, start, name, t)
    ensures Unsated(w, start, name, k + more, t)
  {
    Chained(w, |start|, Work(start, 0, 0), k, s, more, t);
  }

  lemma {:induction false} LoadsUnbounded(w: World, start: seq<Object>, name: string, path: string, m: nat)
    returns (k: nat, s: Work)
    requires Trap(w, start, name, path) && Insatiable(w, start, name, Work(start, 0, 0))
    ensures k >= m && Unsated(w, start, name, k, s) && |s.objects| == |start| + m
    decreases m
  {
    if m == 0 {
      k, s := 0, Work(start, 0, 0);
    } else {
      var before, t := LoadsUnbounded(w, start, name, path, m - 1);
      k, s := Onward(w, start, name, path, before, t);
    }
  }

  lemma {:induction false} BeginsInsatiable(w: World, start: seq<Object>, name: string, path: string)
    requires SelfNeed(w, start, name, path)
    ensures Insatiable(w, start, name, Work(start, 0, 0))
  {
    var i :| 0 <= i < |start| && name in NonEmpty(start[i].needed);
    var p := PositionOf(NonEmpty(start[i].needed), name);
    assert Awaits(Work(start, 0, 0), name, i, p);
    forall k, n | 0 <= k < |start| && n in NonEmpty(start[k].needed) ensures n == name {
      assert n in Names(w, start);
    }
  }

  /** Main result. The worklist of such a library ends if and only if its name is recognised or it takes
      room. Otherwise the run loads it any number of times, each load justified, and its name is never
      recognised. */
  lemma {:induction false} SelfNeedExactly(w: World, start: seq<Object>, name: string, path: string)
    requires SelfNeed(w, start, name, path)
    ensures var ends := Recognisable(w, name) || FileExtent(w.fs[path]) > 0;
            && ((exists k :: !After(w, |start|, Begin(start), k).Going?) <==> ends)
            && (!ends ==> forall m: nat :: LoadedTimes(w, start, name, m))
  {
    if Recognisable(w, name) || FileExtent(w.fs[path]) > 0 {
      RunEnds(w, start);
    } else {
      Trapped(w, start, name, path);
      BeginsInsatiable(w, start, name, path);
      forall m: nat ensures LoadedTimes(w, start, name, m) {
        var k, s := LoadsUnbounded(w, start, name, path, m);
        assert start[..|start|] == start;
        RunGrows(w, start, Begin(start), k);
        assert After(w, |start|, Begin(start), k) == Going(s);
      }
      forall k ensures After(w, |start|, Begin(start), k).Going? {
        var more, s := LoadsUnbounded(w, start, name, path, k);
        if !After(w, |start|, Begin(start), k).Going? {
          OneOutcome(w, |start|, Begin(start), k, more);
        }
      }
    }
  }

  /** At some point of the run the library has been loaded `m` times and is not recognised. */
  ghost predicate LoadedTimes(w: World, start: seq<Object>, name: string, m: nat) {
    exists k ::
      var p := After(w, |start|, Begin(start), k);
      p.Going? && Grown(w, start, p.work.objects) && |p.work.objects| == |start| + m && !Loaded(p.work.objects, name)
  }

  // ---- such a library exists -----------------------------------------------------------------------------

  /** A library whose one segment, at `v`, takes no memory but has `f` bytes in the file (its tables), and
      that needs `name`. The lemmas below take `v` as a parameter that is 0, not the numeral, for the
      reason given in DirectEscapes. */
  function Hungry(soname: string, name: string, v: u64, f: u64): File {
    Lib(soname, [name], [Segment(v, 0, f)], true)
  }

  /** It cannot end for this one: nothing recognises it, and it takes no room. */
  lemma {:induction false} Endless(w: World, start: seq<Object>, name: string, soname: string, v: u64, f: u64, path: string)
    requires v == 0 && '/' in name && soname != "" && soname != name
    requires Find(w, w.dirs, name) == Some(path) && w.fs == map[path := Hungry(soname, name, v, f)]
    requires exists i :: 0 <= i < |start| && name in NonEmpty(start[i].needed)
    requires OnlyName(start, name) && !Loaded(start, name)
    requires FirstFree(start) + f <= w.guestSize && Ceiling(w, start) + BLOCK_MASK < TOP
    ensures SelfNeed(w, start, name, path)
    ensures forall k :: After(w, |start|, Begin(start), k).Going?
    ensures forall m: nat :: LoadedTimes(w, start, name, m)
  {
    HungrySelfNeed(w, start, name, soname, v, f, path);
    SelfNeedExactly(w, start, name, path);
  }

  lemma {:induction false} HungrySelfNeed(w: World, start: seq<Object>, name: string, soname: string, v: u64, f: u64, path: string)
    requires v == 0 && '/' in name && soname != "" && soname != name
    requires Find(w, w.dirs, name) == Some(path) && w.fs == map[path := Hungry(soname, name, v, f)]
    requires exists i :: 0 <= i < |start| && name in NonEmpty(start[i].needed)
    requires OnlyName(start, name) && !Loaded(start, name)
    requires FirstFree(start) + f <= w.guestSize && Ceiling(w, start) + BLOCK_MASK < TOP
    ensures SelfNeed(w, start, name, path) && FileExtent(w.fs[path]) == 0 && !Recognisable(w, name)
  {
    var file := Hungry(soname, name, v, f);
    var low := FirstFree(start);
    FirstFreeAligned(start);
    AlignedStays(low);
    HungryExtent(soname, name, v, f);
    HungryMaps(file, path, low, w.guestSize);
    HungryNames(w, start, name, file, path);
    var i :| 0 <= i < |start| && name in NonEmpty(start[i].needed);
    assert name != "" && name in file.needed;
  }

  lemma {:induction false} HungryExtent(soname: string, name: string, v: u64, f: u64)
    requires v == 0
    ensures var file := Hungry(soname, name, v, f);
            LoadMin(file.segments) == 0 && LoadMax(file.segments) == 0 && FileExtent(file) == 0
  {
    var file := Hungry(soname, name, v, f);
    OneSegment(file.segments, Segment(v, 0, f));
    EmptyRange(file, v);
  }

  lemma {:induction false} EmptyRange(file: File, v: u64)
    requires v == 0 && file.Lib? && LoadMin(file.segments) == PageDown(v) && LoadMax(file.segments) == PageUp(v)
    ensures LoadMin(file.segments) == 0 && LoadMax(file.segments) == 0 && FileExtent(file) == 0
  {
    PageUpZero(v);
    PageDownBelow(v);
  }

  lemma {:induction false} HungryMaps(file: File, path: string, low: u64, guestSize: nat)
    requires file.Lib? && file.readable && |file.segments| == 1 && FileExtent(file) == 0 && LoadMin(file.segments) == 0
    requires file.segments[0].vaddr == 0 && low + Size(file.segments[0]) <= guestSize && AlignUp(low) == low
    ensures Maps(file, Place(file, path, low), guestSize)
  {
    var obj := Place(file, path, low);
    WindowMeans(file, path, low);
    TargetAt(obj, file.segments[0]);
    forall i | 0 <= i < |file.segments| ensures InGuest(obj, file.segments[i], guestSize) {
      assert i == 0;
    }
  }

  lemma {:induction false} HungryNames(w: World, start: seq<Object>, name: string, file: File, path: string)
    requires OnlyName(start, name) && w.fs == map[path := file] && file.Lib? && file.needed == [name]
    ensures forall n :: n in Names(w, start) ==> n == name
  {
    forall n | n in Names(w, start) ensures n == name {
      if k :| 0 <= k < |start| && n in NonEmpty(start[k].needed) {
      } else {
        var q :| q in w.fs && n in NonEmpty(NeededBy(w.fs[q]));
        assert q == path;
      }
    }
  }
}
