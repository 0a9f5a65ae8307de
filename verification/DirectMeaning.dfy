/** What the direct `.so` loader does with one needed name, in plain terms: where it looks, what it takes for
    loaded, and where it puts a library. */
module DirectMeaning {
  import opened Words
  import opened DirectImage
  import opened DirectLoader

  // ---- names -------------------------------------------------------------------------------------------------

  /** The part of a path behind its last slash, or all of it. */
  ghost predicate LastPart(path: string, name: string) {
    '/' !in name && (path == name || exists dir: string :: path == dir + "/" + name)
  }

  lemma {:induction false} FileNameExactly(path: string, name: string)
    ensures LastPart(path, name) <==> name == FileName(path)
  {
    FileNameSplits(path);
    if LastPart(path, name) && path != name {
      var dir: string :| path == dir + "/" + name;
      assert dir + "/" + name == (dir + "/") + name;
      FileNameAppend(dir + "/", name);
    } else if LastPart(path, name) {
      FileNameWhole(path);
    }
  }

  lemma {:induction false} FileNameSplits(path: string)
    ensures LastPart(path, FileName(path))
  {
    if path != "" {
      var k := |path| - 1;
      var init, c := path[..k], path[k];
      assert path == init + [c];
      if c == '/' {
        assert path == init + "/" + "";
      } else {
        FileNameSplits(init);
        var name := FileName(init);
        if init != name {
          var dir: string :| init == dir + "/" + name;
          assert path == dir + "/" + (name + [c]);
        }
      }
    }
  }

  lemma {:induction false} FileNameWhole(path: string)
    requires '/' !in path
    ensures FileName(path) == path
  {
    if path != "" {
      assert path[|path| - 1] in path;
      FileNameWhole(path[..|path| - 1]);
    }
  }

  /** The needed names that are not empty, in order; `at` says where they stood. */
  ghost predicate Kept(names: seq<string>, kept: seq<string>, at: seq<nat>) {
    && |at| == |kept| && (forall k, m :: 0 <= k < m < |at| ==> at[k] < at[m])
    && (forall k :: 0 <= k < |at| ==> at[k] < |names| && kept[k] == names[at[k]] && kept[k] != "")
    && (forall i :: 0 <= i < |names| && names[i] != "" ==> i in at)
  }

  lemma {:induction false} NonEmptyMeans(names: seq<string>) returns (at: seq<nat>)
    ensures Kept(names, NonEmpty(names), at)
  {
    if names == [] {
      at := [];
    } else {
      var rest := NonEmptyMeans(names[1..]);
      at := seq(|rest|, k requires 0 <= k < |rest| => rest[k] + 1);
      KeptLater(names, NonEmpty(names[1..]), rest, at);
      if names[0] != "" {
        KeptFirst(names, NonEmpty(names[1..]), at);
        at := [0] + at;
      }
    }
  }

  /** All but the first of the names. */
  ghost predicate KeptBehind(names: seq<string>, kept: seq<string>, at: seq<nat>) {
    && |at| == |kept| && (forall k, m :: 0 <= k < m < |at| ==> at[k] < at[m])
    && (forall k :: 0 <= k < |at| ==> 0 < at[k] < |names| && kept[k] == names[at[k]] && kept[k] != "")
    && (forall i :: 0 < i < |names| && names[i] != "" ==> i in at)
  }

  lemma KeptLater(names: seq<string>, kept: seq<string>, rest: seq<nat>, at: seq<nat>)
    requires names != [] && Kept(names[1..], kept, rest) && |at| == |rest|
    requires forall k :: 0 <= k < |at| ==> at[k] == rest[k] + 1
    ensures KeptBehind(names, kept, at)
    ensures names[0] == "" ==> Kept(names, kept, at)
  {
    forall i | 0 < i < |names| && names[i] != "" ensures i in at {
      assert names[1..][i - 1] == names[i];
      var k :| 0 <= k < |rest| && rest[k] == i - 1;
      assert at[k] == i;
    }
  }

  lemma KeptFirst(names: seq<string>, kept: seq<string>, at: seq<nat>)
    requires names != [] && names[0] != "" && KeptBehind(names, kept, at)
    ensures Kept(names, [names[0]] + kept, [0] + at)
  {
    var all := [0] + at;
    forall i | 0 <= i < |names| && names[i] != "" ensures i in all {
    }
  }

  // ---- where a name is looked for -----------------------------------------------------------------------------

  /** A directory and a name; an absolute name stands for itself. */
  ghost predicate Joined(dir: string, name: string, path: string) {
    if |name| > 0 && name[0] == '/' then path == name
    else if |dir| > 0 && dir[|dir| - 1] == '/' then path == dir + name
    else path == dir + "/" + name
  }

  /** None of the directories from `i` to `k`, empty ones passed over, has a file of that name. */
  ghost predicate NoneHas(w: World, name: string, i: nat, k: nat) {
    k <= |w.dirs| && forall j, p :: i <= j < k && w.dirs[j] != "" && Joined(w.dirs[j], name, p) ==> p !in w.fs
  }

  /** The first of the directories from `i` on that has one. */
  ghost predicate HitFrom(w: World, name: string, i: nat, k: nat, path: string) {
    i <= k < |w.dirs| && w.dirs[k] != "" && Joined(w.dirs[k], name, path) && path in w.fs && NoneHas(w, name, i, k)
  }

  ghost predicate FirstHit(w: World, name: string, k: nat, path: string) {
    HitFrom(w, name, 0, k, path)
  }

  lemma {:induction false} FindFrom(w: World, name: string, i: nat)
    requires i <= |w.dirs|
    ensures var r := Find(w, w.dirs[i..], name);
            if r.None? then NoneHas(w, name, i, |w.dirs|) else exists k :: HitFrom(w, name, i, k, r.value)
    decreases |w.dirs| - i
  {
    if i < |w.dirs| {
      assert w.dirs[i..][1..] == w.dirs[i + 1..] && w.dirs[i..][0] == w.dirs[i];
      var path := Join(w.dirs[i], name);
      assert Joined(w.dirs[i], name, path);
      if w.dirs[i] != "" && path in w.fs {
        assert HitFrom(w, name, i, i, path);
      } else {
        FindFrom(w, name, i + 1);
        var r := Find(w, w.dirs[i + 1..], name);
        if r.Some? {
          var k :| HitFrom(w, name, i + 1, k, r.value);
          assert HitFrom(w, name, i, k, r.value);
        }
      }
    }
  }

  /** The search finds the first directory's file, or nothing if no directory has one. */
  lemma FindMeans(w: World, name: string)
    ensures var r := Find(w, w.dirs, name);
            if r.None? then forall k, path :: !FirstHit(w, name, k, path)
            else exists k :: FirstHit(w, name, k, r.value)
  {
    FindFrom(w, name, 0);
    assert w.dirs[0..] == w.dirs;
    var r := Find(w, w.dirs, name);
    if r.Some? {
      var k :| HitFrom(w, name, 0, k, r.value);
      assert FirstHit(w, name, k, r.value);
    }
  }

  // ---- the load range -------------------------------------------------------------------------------------------

  /** The page a byte lies on, and the end of the pages up to it, which is 0 where it would be past 2^64. */
  lemma PagesMean(x: u64)
    ensures PageDown(x) % 4096 == 0 && PageDown(x) <= x < PageDown(x) + 4096
    ensures x as int + 4095 < TOP ==> PageUp(x) % 4096 == 0 && x <= PageUp(x) < x as int + 4096
    ensures x as int + 4095 >= TOP ==> PageUp(x) == 0
  {
    PageMask();
    MaskedDown(x, 12, PAGE_MASK);
    MaskedUp(x, 12, PAGE_MASK);
  }

  lemma PageMask()
    ensures Pow2(12) == 4096
  {
  }

  lemma MaskedDown(x: u64, k: nat, mask: nat)
    requires mask == Pow2(k) - 1
    ensures AndNot(x, mask) % Pow2(k) == 0 && AndNot(x, mask) <= x < AndNot(x, mask) + Pow2(k)
  {
    AndSplit(x, mask);
    AndLowMask(x, k);
    Multiple(x, Pow2(k));
  }

  lemma Multiple(x: nat, p: nat)
    requires p > 0
    ensures (x - x % p) % p == 0 && x < x - x % p + p
  {
    ModUnique(x - x % p, p, x / p, 0);
  }

  lemma MaskedUp(x: u64, k: nat, mask: nat)
    requires mask == Pow2(k) - 1 < TOP
    ensures x as int + mask < TOP ==> RoundUp(x, mask) % Pow2(k) == 0 && x <= RoundUp(x, mask) < x as int + Pow2(k)
    ensures x as int + mask >= TOP ==> RoundUp(x, mask) == 0
  {
    if x as int + mask < TOP {
      RoundUpAligned(x, k);
    } else {
      SubtractTop(x as int + mask);
      BelowMask(x as int + mask - TOP, k);
    }
  }

  function StartPage(s: Segment): u64 {
    PageDown(s.vaddr)
  }

  function EndPage(s: Segment): u64 {
    PageUp(Add64(s.vaddr, s.memsz))
  }

  /** The load range starts on the page of some segment and on or below that of every one ... */
  lemma {:induction false} LoadMinMeans(segments: seq<Segment>)
    requires segments != []
    ensures exists i :: 0 <= i < |segments| && LoadMin(segments) == StartPage(segments[i])
    ensures forall i :: 0 <= i < |segments| ==> LoadMin(segments) <= StartPage(segments[i])
  {
    var k := |segments| - 1;
    var init := segments[..k];
    PageDownBelow(segments[k].vaddr);
    if k > 0 {
      LoadMinMeans(init);
      var i :| 0 <= i < k && LoadMin(init) == StartPage(init[i]);
      assert segments[i] == init[i];
      assert LoadMin(segments) == StartPage(segments[if LoadMin(init) < StartPage(segments[k]) then i else k]);
      assert forall m :: 0 <= m < k ==> segments[m] == init[m];
    } else {
      assert LoadMin(segments) == StartPage(segments[0]);
    }
  }

  /** ... and ends with the pages of some segment and at or above those of every one. */
  lemma {:induction false} LoadMaxMeans(segments: seq<Segment>)
    requires segments != []
    ensures exists i :: 0 <= i < |segments| && LoadMax(segments) == EndPage(segments[i])
    ensures forall i :: 0 <= i < |segments| ==> EndPage(segments[i]) <= LoadMax(segments)
  {
    var k := |segments| - 1;
    var init := segments[..k];
    if k > 0 {
      LoadMaxMeans(init);
      var i :| 0 <= i < k && LoadMax(init) == EndPage(init[i]);
      assert segments[i] == init[i];
      assert LoadMax(segments) == EndPage(segments[if LoadMax(init) >= EndPage(segments[k]) then i else k]);
      assert forall m :: 0 <= m < k ==> segments[m] == init[m];
    } else {
      assert LoadMax(segments) == EndPage(segments[0]);
    }
  }

  /** The first free base is the fixed one, or the end of some object up to the block boundary, whichever is
      highest. */
  lemma {:induction false} FirstFreeMeans(objects: seq<Object>)
    ensures 0x1_8000_0000 <= FirstFree(objects)
    ensures forall i :: 0 <= i < |objects| ==> AlignUp(End(objects[i])) <= FirstFree(objects)
    ensures FirstFree(objects) == 0x1_8000_0000 || exists i :: 0 <= i < |objects| && FirstFree(objects) == AlignUp(End(objects[i]))
  {
    if objects != [] {
      var k := |objects| - 1;
      var init := objects[..k];
      FirstFreeMeans(init);
      assert forall m :: 0 <= m < k ==> objects[m] == init[m];
      if FirstFree(init) > 0x1_8000_0000 && FirstFree(init) >= AlignUp(End(objects[k])) {
        var i :| 0 <= i < k && FirstFree(init) == AlignUp(End(init[i]));
        assert objects[i] == init[i];
      }
    }
  }

  // ---- one name ---------------------------------------------------------------------------------------------------

  /** Some object has that soname or that file name. */
  ghost predicate Present(objects: seq<Object>, name: string) {
    exists k :: 0 <= k < |objects| && (objects[k].soname == name || LastPart(objects[k].path, name))
  }

  lemma PresentExactly(objects: seq<Object>, name: string)
    ensures Present(objects, name) <==> Loaded(objects, name)
  {
    forall k | 0 <= k < |objects|
      ensures objects[k].soname == name || LastPart(objects[k].path, name) <==> Bears(objects[k], name)
    {
      FileNameExactly(objects[k].path, name);
    }
    if Loaded(objects, name) {
      var k :| 0 <= k < |objects| && Bears(objects[k], name);
      assert objects[k].soname == name || LastPart(objects[k].path, name);
    }
    if Present(objects, name) {
      var k :| 0 <= k < |objects| && (objects[k].soname == name || LastPart(objects[k].path, name));
      assert Bears(objects[k], name);
    }
  }

  /** The file is a library with segments; the window ends inside the guest at the next 2 MiB boundary, and so
      does what is written for every segment; and the file can be read. */
  ghost predicate Mappable(w: World, path: string, low: u64)
    requires path in w.fs
  {
    w.fs[path].Lib? && w.fs[path].segments != [] &&
    var file := w.fs[path];
    var base := Wrap64(low as int - LoadMin(file.segments) as int);
    && AlignUp(Add64(base, LoadMax(file.segments))) <= w.guestSize && file.readable
    && forall i :: 0 <= i < |file.segments| ==>
         var n := if file.segments[i].memsz < file.segments[i].filesz then file.segments[i].filesz else file.segments[i].memsz;
         n == 0 || Add64(base, file.segments[i].vaddr) as int + n as int <= w.guestSize
  }

  /** The object made of a file at `low`: its own soname, or else the file's name. */
  ghost predicate MadeOf(w: World, path: string, low: u64, obj: Object)
    requires path in w.fs && w.fs[path].Lib?
  {
    && obj.path == path && obj.needed == w.fs[path].needed
    && (if w.fs[path].soname == "" then LastPart(path, obj.soname) else obj.soname == w.fs[path].soname)
    && obj.loadMin == LoadMin(w.fs[path].segments) && obj.loadMax == LoadMax(w.fs[path].segments)
    && Add64(obj.base, obj.loadMin) == low
  }

  /** Main result. One needed name, in plain terms: skipped if present; else the first file on the search path
      is mapped at the next boundary, even if the name is built in, or the loader gives up; and only a name that
      is nowhere on the path is skipped for being built in. */
  lemma VisitMeans(w: World, n: nat, s: Work)
    requires n <= |s.objects| && s.i < |s.objects| && s.j < |NonEmpty(s.objects[s.i].needed)|
    ensures var name := NonEmpty(s.objects[s.i].needed)[s.j];
            var next := Going(Work(s.objects, s.i, s.j + 1));
            var low := AlignUp(NextBase(s.objects, n));
            var r := Visit(w, n, s);
            && (Present(s.objects, name) ==> r == next)
            && (!Present(s.objects, name) && (forall k, path :: !FirstHit(w, name, k, path)) ==>
                  r == if name in w.builtins then next else Failed(s.objects, name))
            && (forall k, path :: !Present(s.objects, name) && FirstHit(w, name, k, path) ==>
                  if Mappable(w, path, low)
                  then r.Going? && r.work.i == s.i && r.work.j == s.j + 1 && |r.work.objects| == |s.objects| + 1
                       && s.objects <= r.work.objects && MadeOf(w, path, low, r.work.objects[|s.objects|])
                  else r == Failed(s.objects, name))
  {
    var name := NonEmpty(s.objects[s.i].needed)[s.j];
    PresentExactly(s.objects, name);
    FindMeans(w, name);
    if !Present(s.objects, name) {
      forall k, path | FirstHit(w, name, k, path)
        ensures if Mappable(w, path, AlignUp(NextBase(s.objects, n)))
                then var r := Visit(w, n, s);
                     r.Going? && r.work.i == s.i && r.work.j == s.j + 1 && |r.work.objects| == |s.objects| + 1
                     && s.objects <= r.work.objects && MadeOf(w, path, AlignUp(NextBase(s.objects, n)), r.work.objects[|s.objects|])
                else Visit(w, n, s) == Failed(s.objects, name)
      {
        HitOnce(w, name, k, path);
        HitLoads(w, n, s, name, path);
      }
    }
  }

  lemma HitOnce(w: World, name: string, k: nat, path: string)
    requires FirstHit(w, name, k, path)
    ensures Find(w, w.dirs, name) == Some(path)
  {
    FindMeans(w, name);
    var r := Find(w, w.dirs, name);
    var m :| FirstHit(w, name, m, r.value);
    assert m == k;
  }

  lemma HitLoads(w: World, n: nat, s: Work, name: string, path: string)
    requires n <= |s.objects| && s.i < |s.objects| && s.j < |NonEmpty(s.objects[s.i].needed)|
    requires name == NonEmpty(s.objects[s.i].needed)[s.j] && !Loaded(s.objects, name) && Find(w, w.dirs, name) == Some(path)
    ensures var low, r := AlignUp(NextBase(s.objects, n)), Visit(w, n, s);
            if Mappable(w, path, low)
            then r.Going? && r.work.i == s.i && r.work.j == s.j + 1 && |r.work.objects| == |s.objects| + 1
                 && s.objects <= r.work.objects && MadeOf(w, path, low, r.work.objects[|s.objects|])
            else r == Failed(s.objects, name)
  {
    var low := AlignUp(NextBase(s.objects, n));
    if Loadable(w.fs[path]) {
      MapsMeans(w, path, low);
      WindowMeans(w.fs[path], path, low);
      FileNameExactly(path, FileName(path));
    }
  }

  lemma MapsMeans(w: World, path: string, low: u64)
    requires path in w.fs && Loadable(w.fs[path])
    ensures Maps(w.fs[path], Place(w.fs[path], path, low), w.guestSize) <==> Mappable(w, path, low)
  {
    var file := w.fs[path];
    var obj := Place(file, path, low);
    forall i | 0 <= i < |file.segments|
      ensures InGuest(obj, file.segments[i], w.guestSize) <==>
              var n := if file.segments[i].memsz < file.segments[i].filesz then file.segments[i].filesz else file.segments[i].memsz;
              n == 0 || Add64(obj.base, file.segments[i].vaddr) as int + n as int <= w.guestSize
    {
    }
  }
}
