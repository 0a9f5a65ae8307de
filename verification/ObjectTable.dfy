/** The linker's object table: recursive loading of DT_NEEDED, dlopen, and the rule that every
    object is relocated exactly once. */
module ObjectTable {
  import opened Words

  const MAX_OBJECTS := 1024
  const MAX_NEEDED := 256

  /** A table entry; phantoms (system libraries and files not found) need nothing. */
  datatype Object = Object(soname: string, path: string, needed: seq<string>)

  /** Library files by path, with the DT_NEEDED names each one lists. */
  type Files = map<string, seq<string>>

  const DIRS: seq<string> := [
    "/data/local/tmp", "/system/lib64", "/apex/com.android.art/lib64",
    "/apex/com.android.runtime/lib64", "/apex/com.android.i18n/lib64",
    "/apex/com.android.conscrypt/lib64", "/vendor/lib64", "/lib", "/usr/lib"]

  predicate SystemLib(soname: string) {
    soname == "libdl.so" || soname == "libdl_android.so" || soname == "ld-android.so"
  }

  /** The first search directory, from number `k` on, that has the file. */
  function FindPath(fs: Files, soname: string, k: nat): Option<string>
    decreases |DIRS| - k
  {
    if k >= |DIRS| then None
    else if DIRS[k] + "/" + soname in fs then Some(DIRS[k] + "/" + soname)
    else FindPath(fs, soname, k + 1)
  }

  /** Only the first MAX_NEEDED dependencies are recorded. */
  function Recorded(needed: seq<string>): (r: seq<string>)
    ensures |r| <= MAX_NEEDED
  {
    if |needed| <= MAX_NEEDED then needed else needed[..MAX_NEEDED]
  }

  function Resolve(fs: Files, soname: string): (o: Object)
    ensures o.soname == soname
  {
    if SystemLib(soname) then Object(soname, "", [])
    else
      match FindPath(fs, soname, 0)
      case None => Object(soname, "", [])
      case Some(path) => if path in fs then Object(soname, path, Recorded(fs[path])) else Object(soname, "", [])
  }

  predicate Has(t: seq<Object>, soname: string) {
    exists i :: 0 <= i < |t| && t[i].soname == soname
  }

  // ---- loading ----------------------------------------------------------------------

  /** The table after loading a library and, recursively, all it needs; an error is fatal. */
  function Load(fs: Files, t: seq<Object>, soname: string): (r: Result<seq<Object>>)
    requires |t| <= MAX_OBJECTS
    ensures r.Ok? ==> t <= r.value && |r.value| <= MAX_OBJECTS
    decreases MAX_OBJECTS - |t|, 0
  {
    if Has(t, soname) then Ok(t)
    else if |t| >= MAX_OBJECTS then Err
    else
      var o := Resolve(fs, soname);
      LoadAll(fs, t + [o], o.needed)
  }

  function LoadAll(fs: Files, t: seq<Object>, names: seq<string>): (r: Result<seq<Object>>)
    requires |t| <= MAX_OBJECTS
    ensures r.Ok? ==> t <= r.value && |r.value| <= MAX_OBJECTS
    decreases MAX_OBJECTS - |t|, |names|
  {
    if names == [] then Ok(t)
    else
      match Load(fs, t, names[0])
      case Err => Err
      case Ok(t1) => LoadAll(fs, t1, names[1..])
  }

  ghost predicate Unique(t: seq<Object>) {
    forall i, j :: 0 <= i < j < |t| ==> t[i].soname != t[j].soname
  }

  /** Everything objects `from` and up need is in the table. */
  ghost predicate ClosedFrom(t: seq<Object>, from: nat) {
    forall i, k :: from <= i < |t| && 0 <= k < |t[i].needed| ==> Has(t, t[i].needed[k])
  }

  lemma HasPrefix(t: seq<Object>, t': seq<Object>, soname: string)
    requires t <= t' && Has(t, soname)
    ensures Has(t', soname)
  {
    var i :| 0 <= i < |t| && t[i].soname == soname;
    assert t'[i] == t[i];
  }

  lemma ClosedAfter(t: seq<Object>, t1: seq<Object>, t2: seq<Object>)
    requires t <= t1 <= t2 && ClosedFrom(t1, |t|) && ClosedFrom(t2, |t1|)
    ensures ClosedFrom(t2, |t|)
  {
    forall i, k | |t| <= i < |t2| && 0 <= k < |t2[i].needed|
      ensures Has(t2, t2[i].needed[k])
    {
      if i < |t1| {
        assert t1[i] == t2[i];
        HasPrefix(t1, t2, t1[i].needed[k]);
      }
    }
  }

  /** Loading keeps names unique, leaves the name loaded, and closes what it added. */
  lemma {:induction false} LoadCloses(fs: Files, t: seq<Object>, soname: string)
    requires |t| <= MAX_OBJECTS && Unique(t) && Load(fs, t, soname).Ok?
    ensures var t' := Load(fs, t, soname).value;
            Unique(t') && Has(t', soname) && ClosedFrom(t', |t|)
    decreases MAX_OBJECTS - |t|, 0
  {
    if !Has(t, soname) {
      var o := Resolve(fs, soname);
      var t1 := t + [o];
      LoadAllCloses(fs, t1, o.needed);
      var t' := LoadAll(fs, t1, o.needed).value;
      assert t1[|t|] == t'[|t|] == o;
      forall i, k | |t| <= i < |t'| && 0 <= k < |t'[i].needed|
        ensures Has(t', t'[i].needed[k])
      {
        if i == |t| {
          assert o.needed[k] in o.needed;
        }
      }
    }
  }

  lemma {:induction false} LoadAllCloses(fs: Files, t: seq<Object>, names: seq<string>)
    requires |t| <= MAX_OBJECTS && Unique(t) && LoadAll(fs, t, names).Ok?
    ensures var t' := LoadAll(fs, t, names).value;
            Unique(t') && ClosedFrom(t', |t|) && forall k :: 0 <= k < |names| ==> Has(t', names[k])
    decreases MAX_OBJECTS - |t|, |names|
  {
    if names != [] {
      LoadCloses(fs, t, names[0]);
      var t1 := Load(fs, t, names[0]).value;
      LoadAllCloses(fs, t1, names[1..]);
      var t' := LoadAll(fs, t, names).value;
      ClosedAfter(t, t1, t');
      HasPrefix(t1, t', names[0]);
      forall k | 0 <= k < |names|
        ensures Has(t', names[k])
      {
        assert k > 0 ==> names[k] == names[1..][k - 1];
      }
    }
  }

  lemma LoadHas(fs: Files, t: seq<Object>, soname: string)
    requires |t| <= MAX_OBJECTS && Load(fs, t, soname).Ok?
    ensures Has(Load(fs, t, soname).value, soname)
  {
    if !Has(t, soname) {
      LoadedFirst(fs, t, soname);
    }
  }

  /** A name not yet present gets the next free entry; its dependencies come after it. */
  lemma LoadedFirst(fs: Files, t: seq<Object>, soname: string)
    requires |t| <= MAX_OBJECTS && !Has(t, soname) && Load(fs, t, soname).Ok?
    ensures var t' := Load(fs, t, soname).value;
            |t| < |t'| && t'[|t|] == Resolve(fs, soname)
  {
    var o := Resolve(fs, soname);
    assert (t + [o])[|t|] == o;
  }

  // ---- what an entry is, in plain terms -----------------------------------------------------

  /** The file named after the soname in directory `k` of the nine, and in none before. */
  ghost predicate LiesIn(fs: Files, soname: string, dirs: seq<string>, k: nat)
    requires k < |dirs|
  {
    dirs[k] + "/" + soname in fs && forall j :: 0 <= j < k ==> dirs[j] + "/" + soname !in fs
  }

  /** What the linker makes of a soname: nothing for the three libraries it must not load and for one
      that no directory has, else the file in the first directory that has it, with its first 256 needs. */
  ghost predicate FoundFor(fs: Files, o: Object) {
    var dirs := ["/data/local/tmp", "/system/lib64", "/apex/com.android.art/lib64", "/apex/com.android.runtime/lib64",
                 "/apex/com.android.i18n/lib64", "/apex/com.android.conscrypt/lib64", "/vendor/lib64", "/lib", "/usr/lib"];
    if o.soname in {"libdl.so", "libdl_android.so", "ld-android.so"} || forall k :: 0 <= k < 9 ==> dirs[k] + "/" + o.soname !in fs
    then o.path == "" && o.needed == []
    else exists k :: 0 <= k < 9 && LiesIn(fs, o.soname, dirs, k) && o.path == dirs[k] + "/" + o.soname
                     && o.needed == fs[o.path][..Min(256, |fs[o.path]|)]
  }

  lemma {:induction false} FindPathMeans(fs: Files, soname: string, k: nat)
    requires k <= 9
    ensures var r := FindPath(fs, soname, k);
            if r.None? then forall j :: k <= j < 9 ==> DIRS[j] + "/" + soname !in fs
            else exists j :: k <= j < 9 && r.value == DIRS[j] + "/" + soname && r.value in fs
                             && forall i :: k <= i < j ==> DIRS[i] + "/" + soname !in fs
    decreases 9 - k
  {
    if k < 9 && DIRS[k] + "/" + soname !in fs {
      FindPathMeans(fs, soname, k + 1);
    }
  }

  /** An entry is what is found for its soname if and only if it is what `Resolve` makes. */
  lemma FoundExactly(fs: Files, o: Object)
    ensures FoundFor(fs, o) <==> o == Resolve(fs, o.soname)
  {
    FindPathMeans(fs, o.soname, 0);
    var r := FindPath(fs, o.soname, 0);
    if !SystemLib(o.soname) && r.Some? {
      var j :| 0 <= j < 9 && r.value == DIRS[j] + "/" + o.soname && r.value in fs
               && forall i :: 0 <= i < j ==> DIRS[i] + "/" + o.soname !in fs;
      assert LiesIn(fs, o.soname, DIRS, j);
      assert forall k :: 0 <= k < 9 && LiesIn(fs, o.soname, DIRS, k) ==> k == j;
    }
  }

  /** The order of the table: a missing name gets the next entry, then come its needs, one after the other,
      each with its own needs in turn; a name that is there adds nothing. */
  lemma {:induction false} LoadOrder(fs: Files, t: seq<Object>, a: seq<string>, b: seq<string>)
    requires |t| <= MAX_OBJECTS
    ensures LoadAll(fs, t, []) == Ok(t)
    ensures LoadAll(fs, t, a + b) == match LoadAll(fs, t, a) case Err => Err case Ok(t1) => LoadAll(fs, t1, b)
    decreases |a|
  {
    if a == [] {
      assert a + b == b;
    } else {
      assert (a + b)[0] == a[0] && (a + b)[1..] == a[1..] + b;
      var r := Load(fs, t, a[0]);
      if r.Ok? {
        LoadOrder(fs, r.value, a[1..], b);
      }
    }
  }

  lemma LoadMeans(fs: Files, t: seq<Object>, o: Object)
    requires |t| <= MAX_OBJECTS && FoundFor(fs, o)
    ensures LoadAll(fs, t, [o.soname]) ==
            if exists i :: 0 <= i < |t| && t[i].soname == o.soname then Ok(t)
            else if |t| == 1024 then Err
            else LoadAll(fs, t + [o], o.needed)
  {
    FoundExactly(fs, o);
    var r := Load(fs, t, o.soname);
    assert [o.soname][1..] == [];
    if r.Ok? {
      assert LoadAll(fs, r.value, []) == r;
    }
  }

  ghost predicate AllFound(fs: Files, t: seq<Object>, from: nat) {
    forall i :: from <= i < |t| ==> FoundFor(fs, t[i])
  }

  /** Everything a load adds is what is found for its soname. */
  lemma {:induction false} LoadFinds(fs: Files, t: seq<Object>, soname: string)
    requires |t| <= MAX_OBJECTS && Load(fs, t, soname).Ok?
    ensures AllFound(fs, Load(fs, t, soname).value, |t|)
    decreases MAX_OBJECTS - |t|, 0
  {
    if !Has(t, soname) {
      var o := Resolve(fs, soname);
      FoundExactly(fs, o);
      LoadAllFinds(fs, t + [o], o.needed);
      assert (t + [o])[|t|] == o;
    }
  }

  lemma {:induction false} LoadAllFinds(fs: Files, t: seq<Object>, names: seq<string>)
    requires |t| <= MAX_OBJECTS && LoadAll(fs, t, names).Ok?
    ensures AllFound(fs, LoadAll(fs, t, names).value, |t|)
    decreases MAX_OBJECTS - |t|, |names|
  {
    if names != [] {
      LoadFinds(fs, t, names[0]);
      LoadAllFinds(fs, Load(fs, t, names[0]).value, names[1..]);
    }
  }

  // ---- start-up and dlopen -------------------------------------------------------------

  /** The table and the indices relocated so far, in order. */
  datatype State = State(objects: seq<Object>, relocated: seq<nat>)

  function Range(lo: nat, hi: nat): (r: seq<nat>)
    requires lo <= hi
    ensures |r| == hi - lo && forall i :: 0 <= i < |r| ==> r[i] == lo + i
  {
    seq(hi - lo, (i: nat) => lo + i)
  }

  function Basename(path: string): string
    decreases |path|
  {
    if path == [] then [] else if path[|path| - 1] == '/' then [] else Basename(path[..|path| - 1]) + [path[|path| - 1]]
  }

  /** The part of a path behind its last slash, or all of it. */
  ghost predicate LastPart(path: string, name: string) {
    '/' !in name && (path == name || exists dir: string :: path == dir + "/" + name)
  }

  lemma {:induction false} LastPartExactly(path: string, name: string)
    ensures LastPart(path, name) <==> name == Basename(path)
  {
    BasenameSplits(path);
    if LastPart(path, name) && path != name {
      var dir: string :| path == dir + "/" + name;
      BasenameJoined(dir, name);
    } else if LastPart(path, name) {
      BasenameWhole(path);
    }
  }

  lemma {:induction false} BasenameSplits(path: string)
    ensures LastPart(path, Basename(path))
  {
    if path != [] {
      var k := |path| - 1;
      var init, c := path[..k], path[k];
      assert path == init + [c];
      if c == '/' {
        assert path == init + "/" + [];
      } else {
        BasenameSplits(init);
        var name := Basename(init);
        if init != name {
          var dir: string :| init == dir + "/" + name;
          assert path == dir + "/" + (name + [c]);
        }
      }
    }
  }

  lemma {:induction false} BasenameJoined(dir: string, name: string)
    requires '/' !in name
    ensures Basename(dir + "/" + name) == name
  {
    var path := dir + "/" + name;
    if name == [] {
      assert path[|path| - 1] == '/';
    } else {
      var k := |name| - 1;
      assert path[..|path| - 1] == dir + "/" + name[..k] && name[k] in name;
      BasenameJoined(dir, name[..k]);
    }
  }

  lemma {:induction false} BasenameWhole(path: string)
    requires '/' !in path
    ensures Basename(path) == path
  {
    if path != [] {
      assert path[|path| - 1] in path;
      BasenameWhole(path[..|path| - 1]);
    }
  }

  lemma BasenameStep(path: string, start: nat, i: nat)
    requires start <= i < |path| && Basename(path[..i]) == path[start..i]
    ensures Basename(path[..i + 1]) == path[if path[i] == '/' then i + 1 else start..i + 1]
  {
    var more := path[..i + 1];
    assert more[..i] == path[..i] && more[i] == path[i];
    assert Basename(more) == if path[i] == '/' then [] else Basename(path[..i]) + [path[i]];
  }

  /** Scanning forward, the name starts anew behind every slash. */
  method GetBasename(path: string) returns (base: string)
    ensures base == Basename(path) && LastPart(path, base)
  {
    var start := 0;
    for i := 0 to |path|
      invariant start <= i && Basename(path[..i]) == path[start..i]
    {
      BasenameStep(path, start, i);
      if path[i] == '/' {
        start := i + 1;
      }
    }
    assert path[..|path|] == path;
    base := path[start..];
    LastPartExactly(path, base);
  }

  function Start(fs: Files, argv0: string, needed: seq<string>): Result<State> {
    match LoadAll(fs, [Object(argv0, "", Recorded(needed))], Recorded(needed))
    case Err => Err
    case Ok(t) => Ok(State(t, Range(0, |t|)))
  }

  predicate Matches(o: Object, filename: string) {
    o.soname == filename || o.path == filename || o.soname == Basename(filename)
  }

  /** The same in plain terms. */
  ghost predicate Answers(o: Object, filename: string) {
    o.soname == filename || o.path == filename || LastPart(filename, o.soname)
  }

  ghost predicate FirstToAnswer(t: seq<Object>, filename: string, i: nat) {
    i < |t| && Answers(t[i], filename) && forall j :: 0 <= j < i ==> !Answers(t[j], filename)
  }

  lemma AnswersExactly(t: seq<Object>, filename: string)
    ensures forall i :: 0 <= i < |t| ==> (Answers(t[i], filename) <==> Matches(t[i], filename))
    ensures forall i :: 0 <= i < |t| ==> (FirstToAnswer(t, filename, i) <==> FirstMatch(t, filename, 0) == Some(i))
  {
    forall i | 0 <= i < |t| ensures Answers(t[i], filename) <==> Matches(t[i], filename) {
      LastPartExactly(filename, t[i].soname);
    }
  }

  /** The lowest entry from `i` on that matches. */
  function FirstMatch(t: seq<Object>, filename: string, i: nat): (r: Option<nat>)
    ensures r.Some? ==> i <= r.value < |t| && Matches(t[r.value], filename)
    ensures r.Some? ==> forall j :: i <= j < r.value ==> !Matches(t[j], filename)
    ensures r.None? ==> forall j :: i <= j < |t| ==> !Matches(t[j], filename)
    decreases |t| - i
  {
    if i >= |t| then None
    else if Matches(t[i], filename) then Some(i)
    else FirstMatch(t, filename, i + 1)
  }

  function FirstNamed(t: seq<Object>, soname: string, i: nat): (r: Option<nat>)
    ensures r.Some? ==> i <= r.value < |t| && t[r.value].soname == soname
    ensures r.Some? ==> forall j :: i <= j < r.value ==> t[j].soname != soname
    ensures r.None? ==> forall j :: i <= j < |t| ==> t[j].soname != soname
    decreases |t| - i
  {
    if i >= |t| then None
    else if t[i].soname == soname then Some(i)
    else FirstNamed(t, soname, i + 1)
  }

  /** One dlopen call: new state and handle (an entry index, or a null pointer). */
  function Open(fs: Files, s: State, filename: Option<string>): Result<(State, Option<nat>)>
    requires |s.objects| <= MAX_OBJECTS
  {
    if filename.None? then Ok((s, Some(0)))
    else
      match FirstMatch(s.objects, filename.value, 0)
      case Some(i) => Ok((s, Some(i)))
      case None =>
        var base := Basename(filename.value);
        match Load(fs, s.objects, base)
        case Err => Err
        case Ok(t) =>
          Ok((State(t, s.relocated + Range(|s.objects|, |t|)), FirstNamed(t, base, 0)))
  }

  ghost predicate Valid(s: State) {
    && 0 < |s.objects| <= MAX_OBJECTS && Unique(s.objects) && ClosedFrom(s.objects, 0)
    && s.relocated == Range(0, |s.objects|)
  }

  lemma StartIsValid(fs: Files, argv0: string, needed: seq<string>)
    requires Start(fs, argv0, needed).Ok?
    ensures Valid(Start(fs, argv0, needed).value)
  {
    var exe := Object(argv0, "", Recorded(needed));
    LoadAllCloses(fs, [exe], Recorded(needed));
    var t := LoadAll(fs, [exe], Recorded(needed)).value;
    assert t[0] == exe;
    forall i, k | 0 <= i < |t| && 0 <= k < |t[i].needed|
      ensures Has(t, t[i].needed[k])
    {
      if i == 0 {
        assert exe.needed[k] == Recorded(needed)[k];
      }
    }
  }

  lemma OpenKeepsValid(fs: Files, s: State, filename: Option<string>)
    requires Valid(s) && Open(fs, s, filename).Ok?
    ensures Valid(Open(fs, s, filename).value.0)
    ensures s.objects <= Open(fs, s, filename).value.0.objects
  {
    if filename.Some? && FirstMatch(s.objects, filename.value, 0).None? {
      var base := Basename(filename.value);
      var t := Load(fs, s.objects, base).value;
      LoadCloses(fs, s.objects, base);
      assert t[..|s.objects|] == s.objects;
      ClosedAfter([], s.objects, t);
      assert Range(0, |s.objects|) + Range(|s.objects|, |t|) == Range(0, |t|);
    }
  }

  /** A run: start-up, then any dlopen calls. */
  function Run(fs: Files, argv0: string, needed: seq<string>, calls: seq<Option<string>>): (r: Result<State>)
    ensures r.Ok? ==> |r.value.objects| <= MAX_OBJECTS
  {
    if calls == [] then Start(fs, argv0, needed)
    else
      match Run(fs, argv0, needed, calls[..|calls| - 1])
      case Err => Err
      case Ok(s) =>
        match Open(fs, s, calls[|calls| - 1])
        case Err => Err
        case Ok((s', _)) => Ok(s')
  }

  /** In every reachable state sonames are unique, the table is closed under recorded
      dependencies, and the relocation log is 0, 1, ..., n - 1: every object exactly once. */
  lemma {:induction false} RunIsValid(fs: Files, argv0: string, needed: seq<string>, calls: seq<Option<string>>)
    requires Run(fs, argv0, needed, calls).Ok?
    ensures Valid(Run(fs, argv0, needed, calls).value)
  {
    if calls == [] {
      StartIsValid(fs, argv0, needed);
    } else {
      RunIsValid(fs, argv0, needed, calls[..|calls| - 1]);
      OpenKeepsValid(fs, Run(fs, argv0, needed, calls[..|calls| - 1]).value, calls[|calls| - 1]);
    }
  }

  /** A successful dlopen never yields a null handle, and its handle is the lowest match of the
      table it leaves behind. */
  lemma OpenHandle(fs: Files, s: State, filename: string)
    requires Valid(s) && Open(fs, s, Some(filename)).Ok?
    ensures var (s', h) := Open(fs, s, Some(filename)).value;
            h.Some? && FirstMatch(s'.objects, filename, 0) == h
  {
    if FirstMatch(s.objects, filename, 0).None? {
      var base := Basename(filename);
      LoadedFirst(fs, s.objects, base);
      var t := Load(fs, s.objects, base).value;
      assert forall j :: 0 <= j < |s.objects| ==> t[j] == s.objects[j];
    }
  }

  lemma MatchPrefix(t: seq<Object>, t': seq<Object>, filename: string)
    requires t <= t' && FirstMatch(t, filename, 0).Some?
    ensures FirstMatch(t', filename, 0) == FirstMatch(t, filename, 0)
  {
    var i := FirstMatch(t, filename, 0).value;
    assert forall j :: 0 <= j <= i ==> t'[j] == t[j];
  }

  /** Later calls, whatever they are, only append to the table. */
  lemma {:induction false} RunGrows(fs: Files, argv0: string, needed: seq<string>,
                                    calls: seq<Option<string>>, more: seq<Option<string>>)
    requires Run(fs, argv0, needed, calls + more).Ok?
    ensures Run(fs, argv0, needed, calls).Ok?
    ensures Run(fs, argv0, needed, calls).value.objects <= Run(fs, argv0, needed, calls + more).value.objects
  {
    if more == [] {
      assert calls + more == calls;
    } else {
      var all, most := calls + more, more[..|more| - 1];
      assert all[..|all| - 1] == calls + most;
      RunGrows(fs, argv0, needed, calls, most);
      RunIsValid(fs, argv0, needed, calls + most);
      OpenKeepsValid(fs, Run(fs, argv0, needed, calls + most).value, all[|all| - 1]);
    }
  }

  /** Opening a file again, after any further calls, returns the handle it returned before and
      changes nothing. */
  lemma ReopenIsStable(fs: Files, argv0: string, needed: seq<string>, calls: seq<Option<string>>,
                       filename: string, more: seq<Option<string>>)
    requires Run(fs, argv0, needed, calls + [Some(filename)] + more).Ok?
    ensures Run(fs, argv0, needed, calls).Ok?
    ensures var s := Run(fs, argv0, needed, calls).value;
            var later := Run(fs, argv0, needed, calls + [Some(filename)] + more).value;
            && Open(fs, s, Some(filename)).Ok?
            && Open(fs, later, Some(filename)) == Ok((later, Open(fs, s, Some(filename)).value.1))
  {
    var after := calls + [Some(filename)];
    RunGrows(fs, argv0, needed, after, more);
    assert after[..|after| - 1] == calls;
    RunIsValid(fs, argv0, needed, calls);
    var s := Run(fs, argv0, needed, calls).value;
    OpenHandle(fs, s, filename);
    MatchPrefix(Run(fs, argv0, needed, after).value.objects,
                Run(fs, argv0, needed, after + more).value.objects, filename);
  }

  lemma OpenMeans(fs: Files, s: State, filename: Option<string>)
    requires Valid(s)
    ensures Open(fs, s, filename).Ok? ==>
              var (s', h) := Open(fs, s, filename).value;
              && Valid(s') && s.objects <= s'.objects && h.Some? && h.value < |s'.objects|
              && (filename.Some? ==> Matches(s'.objects[h.value], filename.value))
  {
    if Open(fs, s, filename).Ok? {
      OpenKeepsValid(fs, s, filename);
      if filename.Some? {
        OpenHandle(fs, s, filename.value);
      }
    }
  }

  /** One dlopen call in plain terms: only what is found for sonames is added, nothing if an entry answers
      already, and the handle is the first entry to answer. */
  lemma OpenAdds(fs: Files, s: State, filename: Option<string>)
    requires Valid(s) && Open(fs, s, filename).Ok?
    ensures var (s', h) := Open(fs, s, filename).value;
            && AllFound(fs, s'.objects, |s.objects|) && h.Some?
            && (filename.None? ==> s' == s && h.value == 0)
            && (filename.Some? ==> FirstToAnswer(s'.objects, filename.value, h.value))
            && (filename.Some? && (exists i :: 0 <= i < |s.objects| && Answers(s.objects[i], filename.value)) ==> s' == s)
  {
    OpenMeans(fs, s, filename);
    if filename.Some? {
      OpenHandle(fs, s, filename.value);
      AnswersExactly(s.objects, filename.value);
      AnswersExactly(Open(fs, s, filename).value.0.objects, filename.value);
      if FirstMatch(s.objects, filename.value, 0).None? {
        LoadFinds(fs, s.objects, Basename(filename.value));
      }
    }
  }

  lemma StartFinds(fs: Files, argv0: string, needed: seq<string>)
    requires Start(fs, argv0, needed).Ok?
    ensures var t := Start(fs, argv0, needed).value.objects;
            && t != [] && t[0] == Object(argv0, "", needed[..Min(256, |needed|)]) && AllFound(fs, t, 1)
  {
    LoadAllFinds(fs, [Object(argv0, "", Recorded(needed))], Recorded(needed));
    assert Recorded(needed) == needed[..Min(256, |needed|)];
    assert [Object(argv0, "", Recorded(needed))][0] == Start(fs, argv0, needed).value.objects[0];
  }

  /** In every reachable state the first entry is the executable and every other one is what is found
      for its soname. */
  lemma {:induction false} RunFinds(fs: Files, argv0: string, needed: seq<string>, calls: seq<Option<string>>)
    requires Run(fs, argv0, needed, calls).Ok?
    ensures var t := Run(fs, argv0, needed, calls).value.objects;
            && t != [] && t[0] == Object(argv0, "", needed[..Min(256, |needed|)]) && AllFound(fs, t, 1)
  {
    if calls == [] {
      StartFinds(fs, argv0, needed);
    } else {
      var k := |calls| - 1;
      RunFinds(fs, argv0, needed, calls[..k]);
      RunIsValid(fs, argv0, needed, calls[..k]);
      var s := Run(fs, argv0, needed, calls[..k]).value;
      OpenAdds(fs, s, calls[k]);
      OpenKeepsValid(fs, s, calls[k]);
    }
  }

  // ---- the linker's global state ---------------------------------------------------------

  class Linker {
    const fs: Files
    var objects: seq<Object>
    /** The relocate_object calls made, by table index. */
    var relocated: seq<nat>

    constructor (fs: Files)
      ensures this.fs == fs && objects == [] && relocated == []
    {
      this.fs := fs;
      objects, relocated := [], [];
    }

    ghost function View(): State
      reads this
    {
      State(objects, relocated)
    }

    /** Past start-up: unique names, a closed table, every object relocated once. */
    ghost predicate Running()
      reads this
    {
      Valid(View())
    }

    /** Loads a library and what it needs; `ok` is false on a fatal exit. */
    method LoadNeeded(soname: string) returns (ok: bool)
      requires |objects| <= MAX_OBJECTS
      modifies this`objects
      ensures Load(fs, old(objects), soname) == if ok then Ok(objects) else Err
      ensures |objects| <= MAX_OBJECTS
      ensures ok ==> old(objects) <= objects && AllFound(fs, objects, |old(objects)|)
      ensures ok ==> exists i :: 0 <= i < |objects| && objects[i].soname == soname
      ensures ok && objects != old(objects) ==> forall i :: 0 <= i < |old(objects)| ==> old(objects)[i].soname != soname
      decreases MAX_OBJECTS - |objects|, 0
    {
      ghost var goal := Load(fs, objects, soname);
      if goal.Ok? {
        LoadFinds(fs, objects, soname);
        LoadHas(fs, objects, soname);
      }
      var i := 0;
      while i < |objects|
        invariant i <= |objects| && forall j :: 0 <= j < i ==> objects[j].soname != soname
      {
        if objects[i].soname == soname {
          return true;
        }
        i := i + 1;
      }
      if |objects| >= MAX_OBJECTS {
        return false;
      }
      var o := Resolve(fs, soname);
      objects := objects + [o];
      ok := LoadEach(o.needed);
    }

    method LoadEach(names: seq<string>) returns (ok: bool)
      requires |objects| <= MAX_OBJECTS
      modifies this`objects
      ensures LoadAll(fs, old(objects), names) == if ok then Ok(objects) else Err
      ensures |objects| <= MAX_OBJECTS
      ensures ok ==> old(objects) <= objects && AllFound(fs, objects, |old(objects)|)
      decreases MAX_OBJECTS - |objects|, |names| + 1
    {
      ghost var goal := LoadAll(fs, objects, names);
      if goal.Ok? {
        LoadAllFinds(fs, objects, names);
      }
      var i := 0;
      while i < |names|
        invariant i <= |names| && |old(objects)| <= |objects| <= MAX_OBJECTS
        invariant LoadAll(fs, old(objects), names) == LoadAll(fs, objects, names[i..])
      {
        assert names[i..][1..] == names[i + 1..];
        ok := LoadNeeded(names[i]);
        if !ok {
          return false;
        }
        i := i + 1;
      }
      ok := true;
    }

    /** relocate_object on the entries from `lo` up. */
    method RelocateFrom(lo: nat)
      requires lo <= |objects|
      modifies this`relocated
      ensures relocated == old(relocated) + Range(lo, |objects|)
    {
      var i := lo;
      while i < |objects|
        invariant lo <= i <= |objects|
        invariant relocated == old(relocated) + Range(lo, i)
      {
        relocated := relocated + [i];
        i := i + 1;
      }
    }

    method StartUp(argv0: string, needed: seq<string>) returns (ok: bool)
      requires objects == [] && relocated == []
      modifies this
      ensures Start(fs, argv0, needed) == if ok then Ok(View()) else Err
      ensures ok ==> Running()
      ensures ok ==> objects != [] && objects[0] == Object(argv0, "", needed[..Min(256, |needed|)]) && AllFound(fs, objects, 1)
    {
      ghost var goal := Start(fs, argv0, needed);
      if goal.Ok? {
        StartIsValid(fs, argv0, needed);
        StartFinds(fs, argv0, needed);
      }
      objects := [Object(argv0, "", Recorded(needed))];
      ok := LoadEach(Recorded(needed));
      if ok {
        relocated := [0];
        RelocateFrom(1);
        assert relocated == Range(0, |objects|);
      }
    }

    method Dlopen(filename: Option<string>) returns (ok: bool, handle: Option<nat>)
      requires Running()
      modifies this
      ensures Open(fs, old(View()), filename) == if ok then Ok((View(), handle)) else Err
      ensures ok ==> Running() && old(objects) <= objects && handle.Some? && handle.value < |objects|
      ensures ok ==> AllFound(fs, objects, |old(objects)|)
      ensures filename.None? ==> ok && handle == Some(0) && objects == old(objects)
      ensures ok && filename.Some? ==> FirstToAnswer(objects, filename.value, handle.value)
      ensures (exists i :: 0 <= i < |old(objects)| && filename.Some? && Answers(old(objects)[i], filename.value)) ==>
                ok && objects == old(objects)
    {
      OpenMeans(fs, View(), filename);
      ghost var goal := Open(fs, View(), filename);
      if goal.Ok? {
        OpenAdds(fs, View(), filename);
      }
      if filename.None? {
        return true, Some(0);
      }
      var i := 0;
      while i < |objects|
        invariant i <= |objects|
        invariant FirstMatch(objects, filename.value, 0) == FirstMatch(objects, filename.value, i)
      {
        if Matches(objects[i], filename.value) {
          return true, Some(i);
        }
        i := i + 1;
      }
      AnswersExactly(objects, filename.value);
      var before := |objects|;
      var base := GetBasename(filename.value);
      ok := LoadNeeded(base);
      if !ok {
        return false, None;
      }
      RelocateFrom(before);
      i := 0;
      while i < |objects|
        invariant i <= |objects|
        invariant FirstNamed(objects, base, 0) == FirstNamed(objects, base, i)
      {
        if objects[i].soname == base {
          return true, Some(i);
        }
        i := i + 1;
      }
      handle := None;
    }
  }
}
