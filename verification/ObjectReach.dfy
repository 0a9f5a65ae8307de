/** The loaded sonames are exactly those reachable through recorded DT_NEEDED names, and loading
    fails exactly when there are too many of them for the table. */
module ObjectReach {
  import opened Words
  import opened ObjectTable

  /** What a name needs: what its entry of the initial table records, or the library found for it. */
  function Needs(fs: Files, t0: seq<Object>, soname: string): seq<string> {
    match FirstNamed(t0, soname, 0)
    case Some(i) => t0[i].needed
    case None => Resolve(fs, soname).needed
  }

  /** In plain terms: a name that the table lacks needs what the entry found for it records. */
  lemma NeedsMeans(fs: Files, t0: seq<Object>, o: Object)
    requires !Has(t0, o.soname) && FoundFor(fs, o)
    ensures Needs(fs, t0, o.soname) == o.needed
  {
    FoundExactly(fs, o);
  }

  ghost predicate Closed(fs: Files, t0: seq<Object>, names: set<string>) {
    forall n, m :: n in names && m in Needs(fs, t0, n) ==> m in names
  }

  function Names(t: seq<Object>): (r: set<string>)
    ensures forall n :: n in r <==> Has(t, n)
  {
    set i | 0 <= i < |t| :: t[i].soname
  }

  /** The reachable names: the least set that holds the roots and what its members need. */
  ghost predicate Reachable(fs: Files, t0: seq<Object>, roots: set<string>, names: set<string>) {
    && roots <= names && Closed(fs, t0, names)
    && forall s: set<string> :: roots <= s && Closed(fs, t0, s) ==> names <= s
  }

  // ---- tables grown from an initial one --------------------------------------------------------------

  /** New entries are libraries found for names the initial table lacks. */
  ghost predicate Grown(fs: Files, t0: seq<Object>, t: seq<Object>) {
    && t0 <= t && Unique(t)
    && forall i :: |t0| <= i < |t| ==> t[i] == Resolve(fs, t[i].soname)
  }

  lemma EntryNeeds(fs: Files, t0: seq<Object>, t: seq<Object>, i: nat)
    requires Grown(fs, t0, t) && i < |t|
    ensures t[i].needed == Needs(fs, t0, t[i].soname)
  {
    if i < |t0| {
      assert t0[i] == t[i];
      var k := FirstNamed(t0, t[i].soname, 0).value;
      assert t0[k] == t[k];
    } else {
      assert forall k :: 0 <= k < |t0| ==> t0[k] == t[k];
    }
  }

  lemma {:induction false} NamesSize(t: seq<Object>)
    requires Unique(t)
    ensures |Names(t)| == |t|
  {
    if t != [] {
      var k := |t| - 1;
      var init := t[..k];
      NamesSize(init);
      assert Names(t) == Names(init) + {t[k].soname} by {
        forall n ensures n in Names(t) <==> n in Names(init) || n == t[k].soname {
          HasLast(t, n);
        }
      }
      assert t[k].soname !in Names(init);
    }
  }

  lemma HasLast(t: seq<Object>, n: string)
    requires t != []
    ensures Has(t, n) <==> Has(t[..|t| - 1], n) || t[|t| - 1].soname == n
  {
    var init := t[..|t| - 1];
    if Has(t, n) {
      var i :| 0 <= i < |t| && t[i].soname == n;
      assert i < |init| ==> init[i].soname == n;
    }
    if Has(init, n) {
      var i :| 0 <= i < |init| && init[i].soname == n;
      assert t[i].soname == n;
    }
  }

  lemma {:induction false} SubsetSize(a: set<string>, b: set<string>)
    requires a <= b
    ensures |a| <= |b|
  {
    assert b == a + (b - a);
  }

  lemma GrownByOne(fs: Files, t0: seq<Object>, t: seq<Object>, soname: string)
    requires Grown(fs, t0, t) && !Has(t, soname)
    ensures Grown(fs, t0, t + [Resolve(fs, soname)])
    ensures Resolve(fs, soname).needed == Needs(fs, t0, soname)
    ensures Names(t + [Resolve(fs, soname)]) == Names(t) + {soname}
  {
    var o := Resolve(fs, soname);
    var t1 := t + [o];
    assert t1[..|t|] == t && t1[|t|] == o;
    forall n ensures Has(t1, n) <==> Has(t, n) || n == soname {
      HasLast(t1, n);
    }
    EntryNeeds(fs, t0, t1, |t|);
  }

  // ---- loading stays inside every closed set, and succeeds if one fits ---------------------------------

  lemma {:induction false} LoadWithin(fs: Files, t0: seq<Object>, t: seq<Object>, soname: string, s: set<string>)
    requires |t| <= MAX_OBJECTS && Grown(fs, t0, t) && Names(t) <= s && soname in s && Closed(fs, t0, s)
    ensures |s| <= MAX_OBJECTS ==> Load(fs, t, soname).Ok?
    ensures Load(fs, t, soname).Ok? ==> Grown(fs, t0, Load(fs, t, soname).value) && Names(Load(fs, t, soname).value) <= s
    decreases MAX_OBJECTS - |t|, 0
  {
    if !Has(t, soname) {
      NamesSize(t);
      SubsetSize(Names(t) + {soname}, s);
      if |t| < MAX_OBJECTS {
        GrownByOne(fs, t0, t, soname);
        LoadAllWithin(fs, t0, t + [Resolve(fs, soname)], Resolve(fs, soname).needed, s);
      }
    }
  }

  lemma {:induction false} LoadAllWithin(fs: Files, t0: seq<Object>, t: seq<Object>, names: seq<string>, s: set<string>)
    requires |t| <= MAX_OBJECTS && Grown(fs, t0, t) && Names(t) <= s && Closed(fs, t0, s)
    requires forall n :: n in names ==> n in s
    ensures |s| <= MAX_OBJECTS ==> LoadAll(fs, t, names).Ok?
    ensures LoadAll(fs, t, names).Ok? ==> Grown(fs, t0, LoadAll(fs, t, names).value) && Names(LoadAll(fs, t, names).value) <= s
    decreases MAX_OBJECTS - |t|, |names|
  {
    if names != [] {
      LoadWithin(fs, t0, t, names[0], s);
      if Load(fs, t, names[0]).Ok? {
        LoadAllWithin(fs, t0, Load(fs, t, names[0]).value, names[1..], s);
      }
    }
  }

  /** A table that is closed entry by entry is closed as a set of names. */
  lemma ClosedTable(fs: Files, t0: seq<Object>, t: seq<Object>)
    requires Grown(fs, t0, t) && ClosedFrom(t, 0)
    ensures Closed(fs, t0, Names(t))
  {
    forall n, m | n in Names(t) && m in Needs(fs, t0, n) ensures m in Names(t) {
      var i :| 0 <= i < |t| && t[i].soname == n;
      EntryNeeds(fs, t0, t, i);
      var k :| 0 <= k < |t[i].needed| && t[i].needed[k] == m;
      assert Has(t, t[i].needed[k]);
    }
  }

  /** When a table is the least closed one above some roots, and when there is one at all. */
  lemma ExactlyReachable(fs: Files, t0: seq<Object>, r: Result<seq<Object>>, roots: set<string>)
    requires r.Ok? ==> |r.value| <= MAX_OBJECTS && Grown(fs, t0, r.value) && ClosedFrom(r.value, 0) && roots <= Names(r.value)
    requires forall s: set<string> :: roots <= s && Closed(fs, t0, s) ==>
               (|s| <= MAX_OBJECTS ==> r.Ok?) && (r.Ok? ==> Names(r.value) <= s)
    ensures r.Ok? ==> Reachable(fs, t0, roots, Names(r.value))
    ensures r.Ok? <==> exists s: set<string> :: roots <= s && Closed(fs, t0, s) && |s| <= MAX_OBJECTS
  {
    if r.Ok? {
      ClosedTable(fs, t0, r.value);
      NamesSize(r.value);
    }
  }

  /** Main result at start-up: the loaded sonames are exactly those reachable from the executable,
      and start-up fails if and only if they do not fit the table. */
  lemma StartLoadsReachable(fs: Files, argv0: string, needed: seq<string>)
    ensures var t0 := [Object(argv0, "", Recorded(needed))];
            && (Start(fs, argv0, needed).Ok? ==> Reachable(fs, t0, {argv0}, Names(Start(fs, argv0, needed).value.objects)))
            && (Start(fs, argv0, needed).Ok? <==>
                  exists s: set<string> :: {argv0} <= s && Closed(fs, t0, s) && |s| <= MAX_OBJECTS)
  {
    var t0 := [Object(argv0, "", Recorded(needed))];
    var r := LoadAll(fs, t0, Recorded(needed));
    forall s: set<string> | {argv0} <= s && Closed(fs, t0, s)
      ensures (|s| <= MAX_OBJECTS ==> r.Ok?) && (r.Ok? ==> Grown(fs, t0, r.value) && Names(r.value) <= s)
    {
      EntryNeeds(fs, t0, t0, 0);
      assert Names(t0) == {argv0};
      LoadAllWithin(fs, t0, t0, Recorded(needed), s);
    }
    if r.Ok? {
      StartIsValid(fs, argv0, needed);
      assert t0 <= r.value && r.value[0].soname == argv0;
      GrownAlways(fs, t0, t0, Recorded(needed));
    }
    ExactlyReachable(fs, t0, r, {argv0});
  }

  /** Main result for dlopen of a name not yet present: the table then holds exactly what is reachable
      from what it held and the new name, and the call fails if and only if that does not fit. */
  lemma LoadAddsReachable(fs: Files, t0: seq<Object>, soname: string)
    requires |t0| <= MAX_OBJECTS && Unique(t0) && ClosedFrom(t0, 0)
    ensures Load(fs, t0, soname).Ok? ==>
              Reachable(fs, t0, Names(t0) + {soname}, Names(Load(fs, t0, soname).value))
    ensures Load(fs, t0, soname).Ok? <==>
              exists s: set<string> :: Names(t0) + {soname} <= s && Closed(fs, t0, s) && |s| <= MAX_OBJECTS
  {
    var r := Load(fs, t0, soname);
    forall s: set<string> | Names(t0) + {soname} <= s && Closed(fs, t0, s)
      ensures (|s| <= MAX_OBJECTS ==> r.Ok?) && (r.Ok? ==> Names(r.value) <= s)
    {
      LoadWithin(fs, t0, t0, soname, s);
    }
    if r.Ok? {
      LoadCloses(fs, t0, soname);
      var t := r.value;
      assert t[..|t0|] == t0;
      ClosedAfter([], t0, t);
      forall n | n in Names(t0) ensures n in Names(t) {
        HasPrefix(t0, t, n);
      }
      GrownLoad(fs, t0, t0, soname);
    }
    ExactlyReachable(fs, t0, r, Names(t0) + {soname});
  }

  lemma {:induction false} GrownLoad(fs: Files, t0: seq<Object>, t: seq<Object>, soname: string)
    requires |t| <= MAX_OBJECTS && Grown(fs, t0, t) && Load(fs, t, soname).Ok?
    ensures Grown(fs, t0, Load(fs, t, soname).value)
    decreases MAX_OBJECTS - |t|, 0
  {
    if !Has(t, soname) {
      GrownByOne(fs, t0, t, soname);
      GrownAlways(fs, t0, t + [Resolve(fs, soname)], Resolve(fs, soname).needed);
    }
  }

  lemma {:induction false} GrownAlways(fs: Files, t0: seq<Object>, t: seq<Object>, names: seq<string>)
    requires |t| <= MAX_OBJECTS && Grown(fs, t0, t) && LoadAll(fs, t, names).Ok?
    ensures Grown(fs, t0, LoadAll(fs, t, names).value)
    decreases MAX_OBJECTS - |t|, |names|
  {
    if names != [] {
      GrownLoad(fs, t0, t, names[0]);
      GrownAlways(fs, t0, Load(fs, t, names[0]).value, names[1..]);
    }
  }
}
