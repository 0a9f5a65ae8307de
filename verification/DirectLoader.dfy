/** The direct `.so` loader's dependency worklist: as a run of single visits, and as the loops that
    perform it. */
module DirectLoader {
  import opened Words
  import opened DirectImage

  const FIRST_BASE: u64 := 0x1_8000_0000

  datatype World = World(fs: map<string, File>, dirs: seq<string>, builtins: set<string>, guestSize: u64)

  // ---- what is loaded ------------------------------------------------------------------------------

  predicate Loaded(objects: seq<Object>, name: string) {
    exists k :: 0 <= k < |objects| && Bears(objects[k], name)
  }

  predicate Bears(obj: Object, name: string) {
    obj.soname == name || FileName(obj.path) == name
  }

  /** The names of DT_NEEDED entries that could be read. */
  function NonEmpty(names: seq<string>): (r: seq<string>)
    ensures forall n :: n in r <==> n in names && n != ""
  {
    if names == [] then []
    else (if names[0] == "" then [] else [names[0]]) + NonEmpty(names[1..])
  }

  function Find(w: World, dirs: seq<string>, name: string): (r: Option<string>)
    ensures r.Some? ==> r.value in w.fs && exists d :: d in dirs && r.value == Join(d, name)
  {
    if dirs == [] then None
    else if dirs[0] != "" && Join(dirs[0], name) in w.fs then Some(Join(dirs[0], name))
    else Find(w, dirs[1..], name)
  }

  // ---- the worklist, as a specification ----------------------------------------------------------

  /** Where the first dependency may go: past the fixed base and every object already there. */
  function FirstFree(objects: seq<Object>): u64 {
    if objects == [] then FIRST_BASE
    else Max(FirstFree(objects[..|objects| - 1]), AlignUp(End(objects[|objects| - 1])))
  }

  /** The value of the loader's `next_base` once `objects` are loaded, `n` of them initially. */
  function NextBase(objects: seq<Object>, n: nat): u64
    requires n <= |objects|
  {
    if |objects| == n then FirstFree(objects) else AlignUp(End(objects[|objects| - 1]))
  }

  /** The object the loader makes for a name: the library on the search path, placed at the next 2 MiB
      boundary, if it parses and can be mapped there. */
  function NextLoad(w: World, objects: seq<Object>, n: nat, name: string): (r: Option<Object>)
    requires n <= |objects|
    ensures r.Some? ==>
              var path := r.value.path;
              && Find(w, w.dirs, name) == Some(path) && Loadable(w.fs[path])
              && r.value == Place(w.fs[path], path, AlignUp(NextBase(objects, n)))
              && Maps(w.fs[path], r.value, w.guestSize)
  {
    match Find(w, w.dirs, name)
    case None => None
    case Some(path) =>
      if !Loadable(w.fs[path]) then None
      else
        var obj := Place(w.fs[path], path, AlignUp(NextBase(objects, n)));
        if Maps(w.fs[path], obj, w.guestSize) then Some(obj) else None
  }

  /** Not on the search path, but provided by the runtime. */
  predicate BuiltIn(w: World, name: string) {
    Find(w, w.dirs, name) == None && name in w.builtins
  }

  predicate LoadedFor(w: World, objects: seq<Object>, n: nat, name: string, obj: Object)
    requires n <= |objects|
  {
    !Loaded(objects, name) && NextLoad(w, objects, n, name) == Some(obj)
  }

  /** Why the loader gives up: a missing name that the runtime does not provide, a file that does
      not parse, or an object that cannot be mapped at the next 2 MiB boundary. */
  predicate Stuck(w: World, objects: seq<Object>, n: nat, name: string)
    requires n <= |objects|
  {
    !Loaded(objects, name) && !BuiltIn(w, name) && NextLoad(w, objects, n, name) == None
  }

  // ---- the worklist as a run -------------------------------------------------------------------------

  /** The worklist about to look at name `j` of object `i`. */
  datatype Work = Work(objects: seq<Object>, i: nat, j: nat)

  datatype Progress = Going(work: Work) | Complete(objects: seq<Object>) | Failed(objects: seq<Object>, name: string)

  /** One visit: a needed name is skipped, loaded or found missing, or the next object is taken up. */
  function Visit(w: World, n: nat, s: Work): (r: Progress)
    requires n <= |s.objects|
    ensures r.Going? ==> s.objects <= r.work.objects
  {
    if s.i >= |s.objects| then Complete(s.objects)
    else
      var names := NonEmpty(s.objects[s.i].needed);
      if s.j >= |names| then Going(Work(s.objects, s.i + 1, 0))
      else if Loaded(s.objects, names[s.j]) || BuiltIn(w, names[s.j]) then Going(Work(s.objects, s.i, s.j + 1))
      else
        match NextLoad(w, s.objects, n, names[s.j])
        case None => Failed(s.objects, names[s.j])
        case Some(obj) => Going(Work(s.objects + [obj], s.i, s.j + 1))
  }

  /** The state after `k` visits, or the outcome reached before. */
  function After(w: World, n: nat, p: Progress, k: nat): (r: Progress)
    requires p.Going? ==> n <= |p.work.objects|
    ensures r.Going? ==> n <= |r.work.objects|
    decreases k
  {
    if k == 0 || !p.Going? then p else After(w, n, Visit(w, n, p.work), k - 1)
  }

  function Begin(start: seq<Object>): Progress {
    Going(Work(start, 0, 0))
  }

  lemma {:induction false} AfterAdd(w: World, n: nat, p: Progress, a: nat, b: nat)
    requires p.Going? ==> n <= |p.work.objects|
    ensures After(w, n, p, a + b) == After(w, n, After(w, n, p, a), b)
    decreases a
  {
    if a > 0 && p.Going? {
      AfterAdd(w, n, Visit(w, n, p.work), a - 1, b);
    }
  }

  lemma OneMore(w: World, n: nat, p: Progress, k: nat, s: Work)
    requires p.Going? ==> n <= |p.work.objects|
    requires After(w, n, p, k) == Going(s)
    ensures n <= |s.objects| && After(w, n, p, k + 1) == Visit(w, n, s)
  {
    AfterAdd(w, n, p, k, 1);
    assert After(w, n, Going(s), 1) == After(w, n, Visit(w, n, s), 0);
  }

  /** A run has one outcome. */
  lemma OneOutcome(w: World, n: nat, p: Progress, a: nat, b: nat)
    requires p.Going? ==> n <= |p.work.objects|
    requires !After(w, n, p, a).Going? && a <= b
    ensures After(w, n, p, b) == After(w, n, p, a)
  {
    AfterAdd(w, n, p, a, b - a);
  }

  // ---- what a run only ever does ---------------------------------------------------------------------

  /** An object that may follow `objects`: one the loader makes for a needed, so far missing name. */
  predicate Justified(w: World, objects: seq<Object>, n: nat, obj: Object)
    requires n <= |objects|
  {
    exists i, name ::
      0 <= i < |objects| && name in NonEmpty(objects[i].needed) && LoadedFor(w, objects, n, name, obj)
  }

  /** The initial objects, then nothing but justified ones. */
  ghost predicate Grown(w: World, start: seq<Object>, objects: seq<Object>) {
    && |start| <= |objects| && objects[..|start|] == start
    && forall k :: |start| <= k < |objects| ==> JustifiedAt(w, objects, |start|, k)
  }

  predicate JustifiedAt(w: World, objects: seq<Object>, n: nat, k: nat)
    requires n <= k < |objects|
  {
    Justified(w, objects[..k], n, objects[k])
  }

  /** The object is the library the search finds for the name. */
  predicate Answers(w: World, obj: Object, name: string) {
    && Find(w, w.dirs, name) == Some(obj.path) && Loadable(w.fs[obj.path])
    && obj.soname == SonameOf(w.fs[obj.path], obj.path)
  }

  predicate Answered(w: World, objects: seq<Object>, name: string) {
    exists k :: 0 <= k < |objects| && Answers(w, objects[k], name)
  }

  /** A name the loader is done with: recognised as loaded, built in, or its library is loaded. */
  predicate Satisfied(w: World, objects: seq<Object>, name: string) {
    Loaded(objects, name) || BuiltIn(w, name) || Answered(w, objects, name)
  }

  predicate AllSatisfied(w: World, objects: seq<Object>, names: seq<string>, j: nat)
    requires j <= |names|
  {
    forall m :: 0 <= m < j ==> Satisfied(w, objects, names[m])
  }

  lemma SatisfiedNext(w: World, objects: seq<Object>, names: seq<string>, j: nat)
    requires j < |names| && AllSatisfied(w, objects, names, j) && (Loaded(objects, names[j]) || BuiltIn(w, names[j]))
    ensures AllSatisfied(w, objects, names, j + 1)
  {
  }

  ghost predicate ClosedBelow(w: World, objects: seq<Object>, i: nat)
    requires i <= |objects|
  {
    forall k, name :: 0 <= k < i && name in NonEmpty(objects[k].needed) ==> Satisfied(w, objects, name)
  }

  // ---- recognising what is loaded ---------------------------------------------------------------------

  /** Loading a library for a name satisfies that name exactly when the name has no slash or is the
      library's own soname: file names never contain a slash. */
  lemma LoadSatisfiesExactly(objects: seq<Object>, obj: Object, dir: string, name: string)
    requires obj.path == Join(dir, name) && !Loaded(objects, name)
    ensures Loaded(objects + [obj], name) <==> '/' !in name || obj.soname == name
  {
    var more := objects + [obj];
    FileNameNoSlash(obj.path);
    if '/' !in name {
      FileNameJoin(dir, name);
    }
    if '/' !in name || obj.soname == name {
      assert Bears(more[|objects|], name);
    } else {
      forall k | 0 <= k < |more| ensures !Bears(more[k], name) {
        assert k < |objects| ==> more[k] == objects[k] && !Bears(objects[k], name);
      }
    }
  }

  predicate Recognisable(w: World, name: string) {
    match Find(w, w.dirs, name)
    case None => true
    case Some(path) => Loadable(w.fs[path]) ==> '/' !in name || SonameOf(w.fs[path], path) == name
  }

  /** For a recognisable name, being satisfied means that the loader itself would find it loaded, or
      that it is built in. */
  lemma RecognisedIsLoaded(w: World, objects: seq<Object>, name: string)
    requires Satisfied(w, objects, name) && Recognisable(w, name)
    ensures Loaded(objects, name) || BuiltIn(w, name)
  {
    if Answered(w, objects, name) {
      var k :| 0 <= k < |objects| && Answers(w, objects[k], name);
      var d :| d in w.dirs && objects[k].path == Join(d, name);
      if '/' !in name {
        FileNameJoin(d, name);
      }
      assert Bears(objects[k], name);
    }
  }

  lemma LoadedGrows(objects: seq<Object>, obj: Object, name: string)
    requires Loaded(objects, name)
    ensures Loaded(objects + [obj], name)
  {
    var k :| 0 <= k < |objects| && Bears(objects[k], name);
    assert Bears((objects + [obj])[k], name);
  }

  // ---- one step of the worklist --------------------------------------------------------------------

  lemma GrownByOne(w: World, start: seq<Object>, objects: seq<Object>, i: nat, name: string, obj: Object)
    requires Grown(w, start, objects) && i < |objects| && name in NonEmpty(objects[i].needed)
    requires LoadedFor(w, objects, |start|, name, obj)
    ensures Grown(w, start, objects + [obj])
  {
    var more := objects + [obj];
    assert more[..|start|] == objects[..|start|];
    forall k | |start| <= k < |more| ensures JustifiedAt(w, more, |start|, k) {
      if k == |objects| {
        assert more[..k] == objects && more[k] == obj;
        assert Justified(w, objects, |start|, obj);
      } else {
        assert JustifiedAt(w, objects, |start|, k);
        JustifiedKept(w, objects, obj, |start|, k);
      }
    }
  }

  lemma JustifiedKept(w: World, objects: seq<Object>, obj: Object, n: nat, k: nat)
    requires n <= k < |objects| && JustifiedAt(w, objects, n, k)
    ensures JustifiedAt(w, objects + [obj], n, k)
  {
    assert (objects + [obj])[..k] == objects[..k];
  }

  lemma ClosedGrows(w: World, objects: seq<Object>, obj: Object, i: nat)
    requires i <= |objects| && ClosedBelow(w, objects, i)
    ensures ClosedBelow(w, objects + [obj], i)
  {
    var more := objects + [obj];
    forall k, name | 0 <= k < i && name in NonEmpty(more[k].needed) ensures Satisfied(w, more, name) {
      assert name in NonEmpty(objects[k].needed);
      SatisfiedGrows(w, objects, obj, name);
    }
  }

  lemma SatisfiedGrows(w: World, objects: seq<Object>, obj: Object, name: string)
    requires Satisfied(w, objects, name)
    ensures Satisfied(w, objects + [obj], name)
  {
    if Loaded(objects, name) {
      LoadedGrows(objects, obj, name);
    } else if Answered(w, objects, name) {
      var k :| 0 <= k < |objects| && Answers(w, objects[k], name);
      assert Answers(w, (objects + [obj])[k], name);
    }
  }

  // ---- the code ------------------------------------------------------------------------------------

  method AlreadyLoaded(objects: seq<Object>, name: string) returns (r: bool)
    ensures r == Loaded(objects, name)
  {
    for k := 0 to |objects|
      invariant forall m :: 0 <= m < k ==> !Bears(objects[m], name)
    {
      if objects[k].soname == name || FileName(objects[k].path) == name {
        assert Bears(objects[k], name);
        return true;
      }
    }
    return false;
  }

  method FindDependency(w: World, name: string) returns (r: Option<string>)
    ensures r == Find(w, w.dirs, name)
  {
    for k := 0 to |w.dirs|
      invariant Find(w, w.dirs, name) == Find(w, w.dirs[k..], name)
    {
      if w.dirs[k] != "" && Join(w.dirs[k], name) in w.fs {
        return Some(Join(w.dirs[k], name));
      }
    }
    return None;
  }

  method FirstFreeBase(objects: seq<Object>) returns (next: u64)
    ensures next == FirstFree(objects)
  {
    next := FIRST_BASE;
    for k := 0 to |objects|
      invariant next == FirstFree(objects[..k])
    {
      assert objects[..k + 1][..k] == objects[..k];
      next := Max(next, AlignUp(Add64(objects[k].base, objects[k].loadMax)));
    }
    assert objects[..|objects|] == objects;
  }

  /** Parsing the load range and mapping: the window must end inside the guest, and every segment is
      then cleared and copied. */
  method MapObject(w: World, path: string, low: u64) returns (r: Option<Object>)
    requires path in w.fs && Loadable(w.fs[path])
    ensures r == if Maps(w.fs[path], Place(w.fs[path], path, low), w.guestSize)
                 then Some(Place(w.fs[path], path, low)) else None
  {
    var file := w.fs[path];
    var loadMin, loadMax := LoadRange(file.segments);
    var base := Wrap64(low as int - loadMin as int);
    var runtimeEnd := Add64(base, loadMax);
    if RoundUp(runtimeEnd, BLOCK_MASK) > w.guestSize {
      return None;
    }
    var obj := Object(path, SonameOf(file, path), file.needed, base, loadMin, loadMax);
    assert obj == Place(file, path, low);
    var fits := WriteSegments(file.segments, obj, w.guestSize);
    assert fits <==> AllInGuest(file, obj, w.guestSize);
    return if fits && file.readable then Some(obj) else None;
  }

  /** The loop over the segments, each cleared and copied to its target. */
  method WriteSegments(segments: seq<Segment>, obj: Object, guestSize: nat) returns (fits: bool)
    ensures fits <==> forall i :: 0 <= i < |segments| ==> InGuest(obj, segments[i], guestSize)
  {
    for i := 0 to |segments|
      invariant forall m :: 0 <= m < i ==> InGuest(obj, segments[m], guestSize)
    {
      var size := Max(segments[i].memsz, segments[i].filesz);
      if size > 0 && Add64(obj.base, segments[i].vaddr) + size > guestSize {
        assert !InGuest(obj, segments[i], guestSize);
        return false;
      }
    }
    return true;
  }

  /** Loads the library for one missing name. */
  method LoadOne(w: World, ghost start: seq<Object>, objects: seq<Object>, name: string, next: u64)
    returns (r: Option<Object>, skip: bool)
    requires |start| <= |objects| && next == NextBase(objects, |start|)
    ensures skip == BuiltIn(w, name)
    ensures r == NextLoad(w, objects, |start|, name)
  {
    var found := FindDependency(w, name);
    if found.None? {
      return None, name in w.builtins;
    }
    if w.fs[found.value].Bad? || w.fs[found.value].segments == [] {
      return None, false;
    }
    r := MapObject(w, found.value, RoundUp(next, BLOCK_MASK));
    skip := false;
  }

  /** The inner loop before name `j` of object `i`, which it took up with `before` loaded. */
  ghost predicate Underway(w: World, start: seq<Object>, before: seq<Object>, s: Work) {
    && |start| <= |before| && before <= s.objects && Grown(w, start, s.objects)
    && s.i < |before| && s.j <= |NonEmpty(before[s.i].needed)|
    && ClosedBelow(w, s.objects, s.i) && AllSatisfied(w, s.objects, NonEmpty(before[s.i].needed), s.j)
    && After(w, |start|, Going(Work(before, s.i, 0)), s.j) == Going(s)
  }

  /** The visit of name `j` of object `i`, after which `objects` are loaded, or the loader gives up. */
  ghost predicate NameDone(w: World, start: seq<Object>, before: seq<Object>, s: Work, objects: seq<Object>, ok: bool)
    requires Underway(w, start, before, s) && s.j < |NonEmpty(before[s.i].needed)|
  {
    var name := NonEmpty(before[s.i].needed)[s.j];
    && |start| <= |objects|
    && if ok then Underway(w, start, before, Work(objects, s.i, s.j + 1))
       else objects == s.objects && Stuck(w, objects, |start|, name)
            && After(w, |start|, Going(Work(before, s.i, 0)), s.j + 1) == Failed(objects, name)
  }

  lemma NameSkipped(w: World, start: seq<Object>, before: seq<Object>, s: Work, names: seq<string>)
    requires Underway(w, start, before, s) && names == NonEmpty(before[s.i].needed) && s.j < |names|
    requires Loaded(s.objects, names[s.j]) || BuiltIn(w, names[s.j])
    ensures NameDone(w, start, before, s, s.objects, true)
  {
    assert s.objects[s.i] == before[s.i];
    SatisfiedNext(w, s.objects, names, s.j);
    StillUnderway(w, start, before, s, s.objects);
  }

  lemma NameMissing(w: World, start: seq<Object>, before: seq<Object>, s: Work, names: seq<string>)
    requires Underway(w, start, before, s) && names == NonEmpty(before[s.i].needed) && s.j < |names|
    requires !Loaded(s.objects, names[s.j]) && !BuiltIn(w, names[s.j])
    ensures var r := NextLoad(w, s.objects, |start|, names[s.j]);
            if r.Some? then NameDone(w, start, before, s, s.objects + [r.value], true)
                            && NextBase(s.objects + [r.value], |start|) == AlignUp(End(r.value))
            else NameDone(w, start, before, s, s.objects, false)
  {
    OneMore(w, |start|, Going(Work(before, s.i, 0)), s.j, s);
    var r := NextLoad(w, s.objects, |start|, names[s.j]);
    if r.Some? {
      NameLoaded(w, start, before, s, names, r.value);
    }
  }

  lemma NameLoaded(w: World, start: seq<Object>, before: seq<Object>, s: Work, names: seq<string>, obj: Object)
    requires Underway(w, start, before, s) && names == NonEmpty(before[s.i].needed) && s.j < |names|
    requires Visit(w, |start|, s) == Going(Work(s.objects + [obj], s.i, s.j + 1))
    requires LoadedFor(w, s.objects, |start|, names[s.j], obj)
    ensures Underway(w, start, before, Work(s.objects + [obj], s.i, s.j + 1))
    ensures NextBase(s.objects + [obj], |start|) == AlignUp(End(obj))
  {
    assert names[s.j] in names && s.objects[s.i] == before[s.i];
    Advance(w, start, s.objects, s.i, names[s.j], obj, names, s.j);
    StillUnderway(w, start, before, s, s.objects + [obj]);
  }

  lemma StillUnderway(w: World, start: seq<Object>, before: seq<Object>, s: Work, objects: seq<Object>)
    requires Underway(w, start, before, s) && s.j < |NonEmpty(before[s.i].needed)|
    requires Visit(w, |start|, s) == Going(Work(objects, s.i, s.j + 1))
    requires Grown(w, start, objects) && ClosedBelow(w, objects, s.i)
    requires AllSatisfied(w, objects, NonEmpty(before[s.i].needed), s.j + 1)
    ensures Underway(w, start, before, Work(objects, s.i, s.j + 1))
  {
    OneMore(w, |start|, Going(Work(before, s.i, 0)), s.j, s);
  }

  /** One needed name of object `i`. */
  method LoadName(w: World, ghost start: seq<Object>, ghost before: seq<Object>, now: seq<Object>, ghost i: nat,
                  names: seq<string>, j: nat, next: u64)
    returns (objects: seq<Object>, next': u64, ok: bool)
    requires Underway(w, start, before, Work(now, i, j)) && names == NonEmpty(before[i].needed) && j < |names|
    requires next == NextBase(now, |start|)
    ensures NameDone(w, start, before, Work(now, i, j), objects, ok) && next' == NextBase(objects, |start|)
  {
    objects, next', ok := now, next, true;
    var loaded := AlreadyLoaded(objects, names[j]);
    if loaded {
      NameSkipped(w, start, before, Work(now, i, j), names);
      return;
    }
    var r, skip := LoadOne(w, start, objects, names[j], next);
    if skip {
      NameSkipped(w, start, before, Work(now, i, j), names);
      return;
    }
    NameMissing(w, start, before, Work(now, i, j), names);
    if r.None? {
      ok := false;
    } else {
      next' := RoundUp(Add64(r.value.base, r.value.loadMax), BLOCK_MASK);
      objects := objects + [r.value];
    }
  }

  /** The dependencies of one object; `visits` counts the turns. */
  method LoadNeeded(w: World, ghost start: seq<Object>, before: seq<Object>, i: nat, next: u64)
    returns (objects: seq<Object>, next': u64, ok: bool, missing: string, ghost visits: nat)
    requires Grown(w, start, before) && next == NextBase(before, |start|)
    requires i < |before| && ClosedBelow(w, before, i)
    ensures Grown(w, start, objects) && next' == NextBase(objects, |start|)
    ensures i < |objects| && visits > 0
    ensures ok ==> ClosedBelow(w, objects, i + 1)
    ensures !ok ==> missing in NonEmpty(objects[i].needed) && Stuck(w, objects, |start|, missing)
    ensures After(w, |start|, Going(Work(before, i, 0)), visits) ==
            if ok then Going(Work(objects, i + 1, 0)) else Failed(objects, missing)
  {
    objects, next', ok, missing := before, next, true, "";
    var names := NonEmpty(before[i].needed);
    for j := 0 to |names|
      invariant ok && Underway(w, start, before, Work(objects, i, j)) && next' == NextBase(objects, |start|)
    {
      visits := j + 1;
      objects, next', ok := LoadName(w, start, before, objects, i, names, j, next');
      if !ok {
        missing := names[j];
        return;
      }
    }
    TakenUp(w, start, before, Work(objects, i, |names|));
    visits := |names| + 1;
  }

  lemma TakenUp(w: World, start: seq<Object>, before: seq<Object>, s: Work)
    requires Underway(w, start, before, s) && s.j == |NonEmpty(before[s.i].needed)|
    ensures ClosedBelow(w, s.objects, s.i + 1)
    ensures After(w, |start|, Going(Work(before, s.i, 0)), s.j + 1) == Going(Work(s.objects, s.i + 1, 0))
  {
    assert s.objects[s.i] == before[s.i];
    OneMore(w, |start|, Going(Work(before, s.i, 0)), s.j, s);
  }

  /** The whole worklist, for a run that ends after `steps` visits at most: it reaches the outcome of the
      run, and on success every needed name is satisfied. */
  method LoadDependencies(w: World, start: seq<Object>, ghost steps: nat)
    returns (objects: seq<Object>, ok: bool, missing: string)
    requires !After(w, |start|, Begin(start), steps).Going?
    ensures After(w, |start|, Begin(start), steps) == if ok then Complete(objects) else Failed(objects, missing)
    ensures Grown(w, start, objects)
    ensures ok ==> ClosedBelow(w, objects, |objects|)
    ensures !ok ==> Stuck(w, objects, |start|, missing)
                    && exists i :: 0 <= i < |objects| && missing in NonEmpty(objects[i].needed)
  {
    objects, missing := start, "";
    var next := FirstFreeBase(start);
    var i := 0;
    ghost var done := 0;
    while i < |objects|
      invariant 0 <= i <= |objects|
      invariant Grown(w, start, objects) && next == NextBase(objects, |start|)
      invariant ClosedBelow(w, objects, i)
      invariant done <= steps && After(w, |start|, Begin(start), done) == Going(Work(objects, i, 0))
      decreases steps - done
    {
      ghost var visits;
      ghost var before := objects;
      objects, next, ok, missing, visits := LoadNeeded(w, start, objects, i, next);
      Joined(w, |start|, Begin(start), done, Work(before, i, 0), visits, steps);
      if !ok {
        return;
      }
      done := done + visits;
      i := i + 1;
    }
    AllVisited(w, start, done, Work(objects, i, 0), steps);
    ok := true;
  }

  lemma AllVisited(w: World, start: seq<Object>, done: nat, s: Work, steps: nat)
    requires |start| <= |s.objects| == s.i
    requires After(w, |start|, Begin(start), done) == Going(s) && !After(w, |start|, Begin(start), steps).Going?
    ensures After(w, |start|, Begin(start), steps) == Complete(s.objects)
  {
    assert After(w, |start|, Going(s), 1) == Complete(s.objects);
    Joined(w, |start|, Begin(start), done, s, 1, steps);
  }

  /** Visits from the state after `done` visits either leave some of `steps` over or reach the outcome. */
  lemma Joined(w: World, n: nat, p: Progress, done: nat, s: Work, visits: nat, steps: nat)
    requires p.Going? ==> n <= |p.work.objects|
    requires !After(w, n, p, steps).Going? && After(w, n, p, done) == Going(s) && n <= |s.objects|
    ensures var r := After(w, n, Going(s), visits);
            && After(w, n, p, done + visits) == r
            && (if r.Going? then done + visits < steps else r == After(w, n, p, steps))
  {
    AfterAdd(w, n, p, done, visits);
    if steps <= done + visits {
      OneOutcome(w, n, p, steps, done + visits);
    } else if !After(w, n, Going(s), visits).Going? {
      OneOutcome(w, n, p, done + visits, steps);
    }
  }

  /** Everything that loading one library brings about. */
  lemma Advance(w: World, start: seq<Object>, objects: seq<Object>, i: nat, name: string, obj: Object,
                names: seq<string>, j: nat)
    requires Grown(w, start, objects) && i < |objects| && name in NonEmpty(objects[i].needed)
    requires LoadedFor(w, objects, |start|, name, obj) && ClosedBelow(w, objects, i)
    requires j < |names| && names[j] == name && AllSatisfied(w, objects, names, j)
    ensures Grown(w, start, objects + [obj]) && ClosedBelow(w, objects + [obj], i)
    ensures AllSatisfied(w, objects + [obj], names, j + 1)
    ensures NextBase(objects + [obj], |start|) == AlignUp(End(obj))
  {
    assert Answers(w, (objects + [obj])[|objects|], name);
    GrownByOne(w, start, objects, i, name, obj);
    ClosedGrows(w, objects, obj, i);
    forall m | 0 <= m < j ensures Satisfied(w, objects + [obj], names[m]) {
      SatisfiedGrows(w, objects, obj, names[m]);
    }
  }

  // ---- runs load only what is justified ----------------------------------------------------------------

  function ObjectsOf(p: Progress): seq<Object> {
    match p
    case Going(s) => s.objects
    case Complete(objects) => objects
    case Failed(objects, _) => objects
  }

  lemma VisitGrows(w: World, start: seq<Object>, s: Work)
    requires Grown(w, start, s.objects)
    ensures Grown(w, start, ObjectsOf(Visit(w, |start|, s)))
  {
    if s.i < |s.objects| {
      var names := NonEmpty(s.objects[s.i].needed);
      if s.j < |names| && !Loaded(s.objects, names[s.j]) && !BuiltIn(w, names[s.j]) {
        var r := NextLoad(w, s.objects, |start|, names[s.j]);
        if r.Some? {
          assert names[s.j] in names;
          GrownByOne(w, start, s.objects, s.i, names[s.j], r.value);
        }
      }
    }
  }

  /** Whatever a run has loaded after any number of visits is justified, one object after the other. */
  lemma {:induction false} RunGrows(w: World, start: seq<Object>, p: Progress, k: nat)
    requires Grown(w, start, ObjectsOf(p))
    ensures Grown(w, start, ObjectsOf(After(w, |start|, p, k)))
    decreases k
  {
    if k > 0 && p.Going? {
      VisitGrows(w, start, p.work);
      RunGrows(w, start, Visit(w, |start|, p.work), k - 1);
    }
  }

  // ---- runs leave every needed name satisfied ----------------------------------------------------------

  /** What holds after every visit: the names visited so far are satisfied. */
  ghost predicate Closing(w: World, start: seq<Object>, p: Progress) {
    && Grown(w, start, ObjectsOf(p))
    && match p
       case Going(s) =>
         && s.i <= |s.objects| && ClosedBelow(w, s.objects, s.i)
         && (s.i < |s.objects| ==> SatisfiedUpTo(w, s.objects, NonEmpty(s.objects[s.i].needed), s.j))
       case Complete(objects) => ClosedBelow(w, objects, |objects|)
       case Failed(objects, name) =>
         Stuck(w, objects, |start|, name) && exists i :: 0 <= i < |objects| && name in NonEmpty(objects[i].needed)
  }

  predicate SatisfiedUpTo(w: World, objects: seq<Object>, names: seq<string>, j: nat) {
    j <= |names| && AllSatisfied(w, objects, names, j)
  }

  lemma {:induction false} VisitCloses(w: World, start: seq<Object>, s: Work)
    requires Closing(w, start, Going(s))
    ensures Closing(w, start, Visit(w, |start|, s))
  {
    VisitGrows(w, start, s);
    if s.i < |s.objects| {
      var names := NonEmpty(s.objects[s.i].needed);
      if s.j >= |names| {
        TakesUpNext(w, s.objects, s.i);
      } else if Loaded(s.objects, names[s.j]) || BuiltIn(w, names[s.j]) {
        SatisfiedNext(w, s.objects, names, s.j);
      } else {
        assert names[s.j] in names;
        var r := NextLoad(w, s.objects, |start|, names[s.j]);
        if r.Some? {
          Advance(w, start, s.objects, s.i, names[s.j], r.value, names, s.j);
        }
      }
    }
  }

  lemma {:induction false} TakesUpNext(w: World, objects: seq<Object>, i: nat)
    requires i < |objects| && ClosedBelow(w, objects, i)
    requires AllSatisfied(w, objects, NonEmpty(objects[i].needed), |NonEmpty(objects[i].needed)|)
    ensures ClosedBelow(w, objects, i + 1)
    ensures i + 1 < |objects| ==> SatisfiedUpTo(w, objects, NonEmpty(objects[i + 1].needed), 0)
  {
  }

  /** A run that completes leaves every needed name satisfied; one that fails is stuck with a needed name. */
  lemma {:induction false} RunCloses(w: World, start: seq<Object>, p: Progress, k: nat)
    requires Closing(w, start, p)
    ensures Closing(w, start, After(w, |start|, p, k))
    decreases k
  {
    if k > 0 && p.Going? {
      VisitCloses(w, start, p.work);
      RunCloses(w, start, Visit(w, |start|, p.work), k - 1);
    }
  }
}
