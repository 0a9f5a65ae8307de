/** Names, handles and weak references, in every run whatever the guest does - including runs
    that over-release. */
module BinderLifetime {
  import opened BinderModel

  /** Names are published or removed but not both, and lead to existing entries. */
  ghost predicate NamesValid(names: map<string, nat>, removed: set<string>, services: map<nat, Service>) {
    names.Keys !! removed && forall n :: n in names ==> names[n] in services
  }

  ghost predicate HandlesValid(services: map<nat, Service>, n: nat) {
    forall h :: h in services ==> 0 < h < n
  }

  ghost predicate WeaksValid(weaks: map<nat, nat>, nextWeak: nat, n: nat) {
    forall w :: w in weaks ==> w < nextWeak && 0 < weaks[w] < n
  }

  /** Destroyed handles are gone for good, and none is destroyed twice. */
  ghost predicate DestroyedValid(destroyed: seq<nat>, services: map<nat, Service>, n: nat) {
    && (forall i :: 0 <= i < |destroyed| ==> destroyed[i] < n && destroyed[i] !in services)
    && (forall i, j :: 0 <= i < j < |destroyed| ==> destroyed[i] != destroyed[j])
  }

  ghost predicate TablesValid(s: State) {
    && NamesValid(s.names, s.removed, s.services)
    && HandlesValid(s.services, s.nextBinder)
    && WeaksValid(s.weaks, s.nextWeak, s.nextBinder)
    && DestroyedValid(s.destroyed, s.services, s.nextBinder)
  }

  /** Handles are never reused, so an entry found under an old handle is the same object; remote
      binders stay. */
  ghost predicate LaterServices(services: map<nat, Service>, n: nat, services': map<nat, Service>) {
    && (forall h :: h in services' && h < n ==>
          h in services && services'[h].remote == services[h].remote && services'[h].userData == services[h].userData)
    && (forall h :: h in services && services[h].remote ==> h in services')
  }

  /** A weak reference never changes its target. */
  ghost predicate LaterWeaks(weaks: map<nat, nat>, nextWeak: nat, weaks': map<nat, nat>) {
    forall w :: w in weaks' && w < nextWeak ==> w in weaks && weaks'[w] == weaks[w]
  }

  ghost predicate Later(s: State, s': State) {
    && s.nextBinder <= s'.nextBinder && s.nextWeak <= s'.nextWeak
    && LaterServices(s.services, s.nextBinder, s'.services) && LaterWeaks(s.weaks, s.nextWeak, s'.weaks)
  }

  lemma LaterTransitive(a: State, b: State, c: State)
    requires HandlesValid(a.services, a.nextBinder) && Later(a, b) && Later(b, c)
    ensures Later(a, c)
  {
  }

  /** Entries may change, but not appear, disappear or change identity. */
  ghost predicate SameBinders(services: map<nat, Service>, services': map<nat, Service>) {
    && services'.Keys == services.Keys
    && forall h :: h in services ==>
         services'[h].remote == services[h].remote && services'[h].userData == services[h].userData
  }

  lemma SetSame(services: map<nat, Service>, h: nat, v: Service)
    requires h in services && v.remote == services[h].remote && v.userData == services[h].userData
    ensures SameBinders(services, services[h := v])
  {
  }

  lemma SameBindersValid(s: State, s': State)
    requires TablesValid(s) && SameBinders(s.services, s'.services) && s'.nextBinder == s.nextBinder
    requires s'.names == s.names && s'.removed == s.removed && s'.destroyed == s.destroyed
    requires s'.weaks == s.weaks && s'.nextWeak == s.nextWeak
    ensures TablesValid(s') && Later(s, s')
  {
  }

  // ---- dropping references ---------------------------------------------------------------------

  lemma DestroyValid(s: State, h: nat)
    requires TablesValid(s) && h in s.services && !s.services[h].remote
    ensures TablesValid(Destroy(s, h)) && Later(s, Destroy(s, h))
  {
  }

  lemma CountDown(s: State, h: nat)
    requires TablesValid(s) && h in s.services && s.services[h].refCount > 1
    ensures TablesValid(Release(s, h)) && Later(s, Release(s, h))
  {
    var v := s.services[h];
    SetSame(s.services, h, v.(refCount := v.refCount - 1));
    SameBindersValid(s, Release(s, h));
  }

  lemma {:induction false} ReleaseValid(s: State, h: nat)
    requires TablesValid(s)
    ensures TablesValid(Release(s, h)) && Later(s, Release(s, h))
    decreases |s.services|
  {
    if h !in s.services || (s.services[h].refCount <= 1 && s.services[h].remote) {
    } else if s.services[h].refCount > 1 {
      CountDown(s, h);
    } else {
      EraseShrinks(s.services, h);
      DestroyValid(s, h);
      if s.services[h].extension != 0 {
        ReleaseValid(Destroy(s, h), s.services[h].extension);
        LaterTransitive(s, Destroy(s, h), Release(s, h));
      }
    }
  }

  lemma SetExtensionValid(s: State, h: nat, e: nat)
    requires TablesValid(s)
    ensures TablesValid(SetExtension(s, h, e).0) && Later(s, SetExtension(s, h, e).0)
  {
    if SetExtension(s, h, e).1 == Okay && s.services[h].extension != e {
      var s1 := SetService(s, e, Counted(s.services[e]));
      var s2 := SetService(s1, h, s1.services[h].(extension := e));
      RewireValid(s, h, e);
      if s1.services[h].extension != 0 {
        ReleaseValid(s2, s1.services[h].extension);
        LaterTransitive(s, s2, SetExtension(s, h, e).0);
      }
    }
  }

  lemma RewireValid(s: State, h: nat, e: nat)
    requires TablesValid(s) && h in s.services && e in s.services
    ensures var s1 := SetService(s, e, Counted(s.services[e]));
            var s2 := SetService(s1, h, s1.services[h].(extension := e));
            TablesValid(s2) && Later(s, s2)
  {
    var s1 := SetService(s, e, Counted(s.services[e]));
    var s2 := SetService(s1, h, s1.services[h].(extension := e));
    SetSame(s.services, e, Counted(s.services[e]));
    SetSame(s1.services, h, s1.services[h].(extension := e));
    SameBindersValid(s, s2);
  }

  lemma DecValid(s: State, h: nat)
    requires TablesValid(s)
    ensures TablesValid(DecStrong(s, h)) && Later(s, DecStrong(s, h))
  {
    var s1 := s.(held := Drop(s.held, h));
    SameBindersValid(s, s1);
    ReleaseValid(s1, h);
    LaterTransitive(s, s1, DecStrong(s, h));
  }

  // ---- every other step ---------------------------------------------------------------------------

  lemma CreateServices(services: map<nat, Service>, n: nat, v: Service, destroyed: seq<nat>)
    requires HandlesValid(services, n) && n > 0 && DestroyedValid(destroyed, services, n)
    ensures HandlesValid(services[n := v], n + 1) && LaterServices(services, n, services[n := v])
    ensures DestroyedValid(destroyed, services[n := v], n + 1)
  {
  }

  lemma NewValid(s: State, cls: nat, arg: nat, created: nat)
    requires TablesValid(s) && s.nextBinder > 0
    ensures TablesValid(New(s, cls, arg, created).0) && Later(s, New(s, cls, arg, created).0)
  {
    if cls in s.classes {
      CreateServices(s.services, s.nextBinder, New(s, cls, arg, created).0.services[s.nextBinder], s.destroyed);
    }
  }

  lemma GetServiceValid(s: State, name: string, owned: bool)
    requires TablesValid(s) && s.nextBinder > 0
    ensures TablesValid(GetService(s, name, owned).0) && Later(s, GetService(s, name, owned).0)
  {
    var v := Service(name, 1, true, true, owned, 0, 0, 0, []);
    CreateServices(s.services, s.nextBinder, v, s.destroyed);
    CreatedName(s.names, s.removed, s.services, name, s.nextBinder, v);
  }

  lemma CreatedName(names: map<string, nat>, removed: set<string>, services: map<nat, Service>, name: string, h: nat, v: Service)
    requires NamesValid(names, removed, services)
    ensures NamesValid(names - {name}, removed, services)
    ensures name !in removed ==> NamesValid((names - {name})[name := h], removed, services[h := v])
  {
  }

  lemma AddServiceValid(s: State, h: nat, name: string)
    requires TablesValid(s)
    ensures TablesValid(AddService(s, h, name).0) && Later(s, AddService(s, h, name).0)
  {
    var s' := AddService(s, h, name).0;
    if h in s.services {
      SetSame(s.services, h, s.services[h].(name := name));
      var named := SetService(s, h, s.services[h].(name := name));
      SameBindersValid(s, named);
      assert s' == s || s' == named.(names := s.names[name := h], removed := s.removed - {name});
    }
  }

  lemma RetireValid(s: State, h: nat)
    requires TablesValid(s)
    ensures TablesValid(Retire(s, h).0) && Later(s, Retire(s, h).0)
  {
    if Retire(s, h).1 == Okay {
      var v := s.services[h].(alive := false, links := []);
      SetSame(s.services, h, v);
      SameBindersValid(s, SetService(s, h, v));
    }
  }

  /** Calls that change service entries in place and no other table of interest. */
  lemma InPlaceValid(s: State, s': State, h: nat)
    requires TablesValid(s)
    requires s'.services == s.services ||
             (h in s.services && h in s'.services && s'.services == s.services[h := s'.services[h]] &&
              s'.services[h].remote == s.services[h].remote && s'.services[h].userData == s.services[h].userData)
    requires s'.nextBinder == s.nextBinder && s'.names == s.names && s'.removed == s.removed
    requires s'.destroyed == s.destroyed && s'.weaks == s.weaks && s'.nextWeak == s.nextWeak
    ensures TablesValid(s') && Later(s, s')
  {
    if s'.services != s.services {
      SetSame(s.services, h, s'.services[h]);
    }
    SameBindersValid(s, s');
  }

  lemma LinkValid(s: State, h: nat, r: nat, cookie: nat)
    requires TablesValid(s)
    ensures TablesValid(Link(s, h, r, cookie).0) && Later(s, Link(s, h, r, cookie).0)
  {
    InPlaceValid(s, Link(s, h, r, cookie).0, h);
  }

  lemma UnlinkValid(s: State, h: nat, r: nat, cookie: nat)
    requires TablesValid(s)
    ensures TablesValid(Unlink(s, h, r, cookie).0) && Later(s, Unlink(s, h, r, cookie).0)
  {
    InPlaceValid(s, Unlink(s, h, r, cookie).0, h);
  }

  lemma DaemonLostValid(s: State, h: nat)
    requires TablesValid(s)
    ensures TablesValid(DaemonLost(s, h)) && Later(s, DaemonLost(s, h))
  {
    InPlaceValid(s, DaemonLost(s, h), h);
  }

  lemma AssociateValid(s: State, h: nat, cls: nat)
    requires TablesValid(s)
    ensures TablesValid(AssociateClass(s, h, cls).0) && Later(s, AssociateClass(s, h, cls).0)
  {
    InPlaceValid(s, AssociateClass(s, h, cls).0, h);
  }

  lemma IncValid(s: State, h: nat)
    requires TablesValid(s)
    ensures TablesValid(IncStrong(s, h)) && Later(s, IncStrong(s, h))
  {
    InPlaceValid(s, IncStrong(s, h), h);
  }

  lemma GetExtensionValid(s: State, h: nat, out: bool)
    requires TablesValid(s)
    ensures TablesValid(GetExtension(s, h, out).0) && Later(s, GetExtension(s, h, out).0)
  {
    if GetExtension(s, h, out).1 != 0 {
      var e := s.services[h].extension;
      SetSame(s.services, e, Counted(s.services[e]));
      SameBindersValid(s, GetExtension(s, h, out).0);
    }
  }

  lemma WeakPromoteValid(s: State, w: nat)
    requires TablesValid(s)
    ensures TablesValid(WeakPromote(s, w).0) && Later(s, WeakPromote(s, w).0)
  {
    if w in s.weaks {
      InPlaceValid(s, WeakPromote(s, w).0, s.weaks[w]);
    }
  }

  lemma WeakNewValid(s: State, h: nat)
    requires TablesValid(s)
    ensures TablesValid(WeakNew(s, h).0) && Later(s, WeakNew(s, h).0)
  {
  }

  lemma WeakCloneValid(s: State, w: nat)
    requires TablesValid(s)
    ensures TablesValid(WeakClone(s, w).0) && Later(s, WeakClone(s, w).0)
  {
  }

  lemma WeakDeleteValid(s: State, w: nat)
    requires TablesValid(s)
    ensures TablesValid(WeakDelete(s, w)) && Later(s, WeakDelete(s, w))
  {
  }

  lemma DeathDeleteValid(s: State, r: nat)
    requires TablesValid(s)
    ensures TablesValid(DeathDelete(s, r)) && Later(s, DeathDelete(s, r))
  {
    SameBindersValid(s, DeathDelete(s, r));
  }

  lemma DeathNewValid(s: State, f: nat)
    requires TablesValid(s)
    ensures TablesValid(DeathNew(s, f).0) && Later(s, DeathNew(s, f).0)
  {
    SameBindersValid(s, DeathNew(s, f).0);
  }

  lemma SetUnlinkedValid(s: State, r: nat, f: nat)
    requires TablesValid(s)
    ensures TablesValid(DeathSetUnlinked(s, r, f)) && Later(s, DeathSetUnlinked(s, r, f))
  {
    SameBindersValid(s, DeathSetUnlinked(s, r, f));
  }

  lemma ClassDefineValid(s: State, d: string, c: nat, x: nat)
    requires TablesValid(s)
    ensures TablesValid(ClassDefine(s, d, c, x).0) && Later(s, ClassDefine(s, d, c, x).0)
  {
    SameBindersValid(s, ClassDefine(s, d, c, x).0);
  }

  predicate ForDeath(op: Op) {
    op.OpKill? || op.OpLink? || op.OpUnlink? || op.OpDaemonLost? || op.OpDeathDelete?
  }

  predicate ForWeak(op: Op) {
    op.OpWeakNew? || op.OpWeakClone? || op.OpWeakPromote? || op.OpWeakDelete?
  }

  lemma DeathStepValid(s: State, op: Op)
    requires TablesValid(s) && ForDeath(op)
    ensures TablesValid(Step(s, op)) && Later(s, Step(s, op))
  {
    match op {
      case OpKill(h) => RetireValid(s, h);
      case OpLink(h, r, cookie) => LinkValid(s, h, r, cookie);
      case OpUnlink(h, r, cookie) => UnlinkValid(s, h, r, cookie);
      case OpDaemonLost(h) => DaemonLostValid(s, h);
      case OpDeathDelete(r) => DeathDeleteValid(s, r);
    }
  }

  lemma WeakStepValid(s: State, op: Op)
    requires TablesValid(s) && ForWeak(op)
    ensures TablesValid(Step(s, op)) && Later(s, Step(s, op))
  {
    match op {
      case OpWeakNew(h) => WeakNewValid(s, h);
      case OpWeakClone(w) => WeakCloneValid(s, w);
      case OpWeakPromote(w) => WeakPromoteValid(s, w);
      case OpWeakDelete(w) => WeakDeleteValid(s, w);
    }
  }

  lemma StepValid(s: State, op: Op)
    requires TablesValid(s) && s.nextBinder > 0
    ensures TablesValid(Step(s, op)) && Later(s, Step(s, op))
  {
    if ForDeath(op) {
      DeathStepValid(s, op);
    } else if ForWeak(op) {
      WeakStepValid(s, op);
    } else {
      match op {
        case OpNew(cls, arg, created) => NewValid(s, cls, arg, created);
        case OpInc(h) => IncValid(s, h);
        case OpDec(h) => DecValid(s, h);
        case OpSetExtension(h, e) => SetExtensionValid(s, h, e);
        case OpGetExtension(h, out) => GetExtensionValid(s, h, out);
        case OpGetService(name, owned) => GetServiceValid(s, name, owned);
        case OpAddService(h, name) => AddServiceValid(s, h, name);
        case OpAssociateClass(h, cls) => AssociateValid(s, h, cls);
        case OpDeathNew(f) => DeathNewValid(s, f);
        case OpDeathSetUnlinked(r, f) => SetUnlinkedValid(s, r, f);
        case OpClassDefine(d, c, x) => ClassDefineValid(s, d, c, x);
      }
    }
  }

  /** The registry and handle invariants hold in every reachable state. */
  lemma {:induction false} TablesAlwaysValid(binder: nat, cls: nat, weak: nat, death: nat, ops: seq<Op>)
    requires binder > 0
    ensures var s := Run(Init(binder, cls, weak, death), ops);
            TablesValid(s) && s.nextBinder > 0
  {
    if ops != [] {
      TablesAlwaysValid(binder, cls, weak, death, ops[..|ops| - 1]);
      StepValid(Run(Init(binder, cls, weak, death), ops[..|ops| - 1]), ops[|ops| - 1]);
    }
  }

  // ---- weak references over a whole run ----------------------------------------------------------

  ghost predicate Steps(s: State, s': State) {
    exists op :: s' == Step(s, op)
  }

  /** Consecutive states of a run. */
  ghost predicate Trace(t: seq<State>) {
    |t| > 0 && forall i :: 0 <= i < |t| - 1 ==> Steps(t[i], t[i + 1])
  }

  lemma StepsValid(s: State, s': State)
    requires TablesValid(s) && s.nextBinder > 0 && Steps(s, s')
    ensures TablesValid(s') && Later(s, s')
  {
    var op :| s' == Step(s, op);
    StepValid(s, op);
  }

  /** What all steps of a run have in common. */
  ghost predicate Good(s: State, s': State) {
    TablesValid(s') && Later(s, s')
  }

  ghost predicate GoodTrace(t: seq<State>) {
    |t| > 0 && TablesValid(t[0]) && t[0].nextBinder > 0 && forall i :: 0 <= i < |t| - 1 ==> Good(t[i], t[i + 1])
  }

  lemma {:induction false} StepIsGood(t: seq<State>, i: nat)
    requires Trace(t) && TablesValid(t[0]) && t[0].nextBinder > 0 && i < |t| - 1
    ensures Good(t[i], t[i + 1]) && t[i + 1].nextBinder > 0
  {
    if i > 0 {
      StepIsGood(t, i - 1);
    }
    StepsValid(t[i], t[i + 1]);
  }

  lemma TraceIsGood(t: seq<State>)
    requires Trace(t) && TablesValid(t[0]) && t[0].nextBinder > 0
    ensures GoodTrace(t)
  {
    forall i | 0 <= i < |t| - 1
      ensures Good(t[i], t[i + 1])
    {
      StepIsGood(t, i);
    }
  }

  lemma {:induction false} TraceLater(t: seq<State>, i: nat, j: nat)
    requires GoodTrace(t) && i <= j < |t|
    ensures TablesValid(t[j]) && Later(t[i], t[j])
    decreases j - i
  {
    if i < j {
      TraceLater(t, i, j - 1);
      assert Good(t[j - 1], t[j]);
      TablesAlong(t, i);
      LaterTransitive(t[i], t[j - 1], t[j]);
    } else {
      TablesAlong(t, i);
    }
  }

  lemma TablesAlong(t: seq<State>, i: nat)
    requires GoodTrace(t) && i < |t|
    ensures TablesValid(t[i])
  {
    if i > 0 {
      assert Good(t[i - 1], t[i]);
    }
  }

  /** `w` is the weak reference made by step `i`, or a clone, made before step `j`, of one such. */
  ghost predicate Derived(t: seq<State>, i: nat, w: nat, j: nat)
    requires i < j < |t|
    decreases j
  {
    w == t[i].nextWeak || exists k, w' :: i < k < j && ClonedAt(t[k], t[k + 1], w', w) && Derived(t, i, w', k)
  }

  predicate ClonedAt(s: State, s': State, w: nat, clone: nat) {
    w in s.weaks && clone == s.nextWeak && s' == WeakClone(s, w).0
  }

  lemma {:induction false} NewTarget(s: State, s': State, h: nat)
    requires h in s.services && s' == WeakNew(s, h).0
    ensures s.nextWeak < s'.nextWeak && s.nextWeak in s'.weaks && s'.weaks[s.nextWeak] == h
  {
  }

  lemma {:induction false} CloneTarget(s: State, s': State, w: nat, clone: nat)
    requires ClonedAt(s, s', w, clone)
    ensures clone < s'.nextWeak && w in s.weaks && clone in s'.weaks && s'.weaks[clone] == s.weaks[w]
  {
  }

  /** While it exists, a derived weak reference has the target of the first one. */
  lemma {:induction false} DerivedTarget(t: seq<State>, i: nat, h: nat, w: nat, j: nat)
    requires GoodTrace(t) && i < j < |t|
    requires h in t[i].services && t[i + 1] == WeakNew(t[i], h).0
    requires Derived(t, i, w, j) && w in t[j].weaks
    ensures t[j].weaks[w] == h
    decreases j
  {
    if w == t[i].nextWeak {
      NewTarget(t[i], t[i + 1], h);
      TargetKept(t, i + 1, w, j);
    } else {
      var k, w' :| i < k < j && ClonedAt(t[k], t[k + 1], w', w) && Derived(t, i, w', k);
      assert w' in t[k].weaks;
      DerivedTarget(t, i, h, w', k);
      CloneKept(t, k, w', w, j);
    }
  }

  lemma {:induction false} CloneKept(t: seq<State>, k: nat, w: nat, clone: nat, j: nat)
    requires GoodTrace(t) && k < j < |t| && ClonedAt(t[k], t[k + 1], w, clone) && clone in t[j].weaks
    ensures w in t[k].weaks && t[j].weaks[clone] == t[k].weaks[w]
  {
    CloneTarget(t[k], t[k + 1], w, clone);
    TargetKept(t, k + 1, clone, j);
  }

  lemma {:induction false} TargetKept(t: seq<State>, k: nat, w: nat, j: nat)
    requires GoodTrace(t) && k <= j < |t| && w < t[k].nextWeak && w in t[j].weaks
    ensures w in t[k].weaks && t[j].weaks[w] == t[k].weaks[w]
  {
    TraceLater(t, k, j);
  }

  /** A weak reference made of binder `h`, or any clone of it, promotes - however many calls later
      - only to `h`, only while `h` is alive, and that `h` is the object the reference was made
      of: it was there in every state between. */
  lemma WeakPromotesOnlyItsObject(t: seq<State>, i: nat, h: nat, w: nat, j: nat)
    requires Trace(t) && TablesValid(t[0]) && t[0].nextBinder > 0 && i < j < |t|
    requires h in t[i].services && t[i + 1] == WeakNew(t[i], h).0 && Derived(t, i, w, j)
    ensures var r := WeakPromote(t[j], w).1;
            r != 0 ==>
              && r == h && h in t[j].services && t[j].services[h].alive
              && t[j].services[h].userData == t[i].services[h].userData
              && forall k :: i <= k <= j ==> h in t[k].services
  {
    if WeakPromote(t[j], w).1 != 0 {
      TraceIsGood(t);
      DerivedTarget(t, i, h, w, j);
      TraceLater(t, i, j);
      TablesAlong(t, i);
      forall k | i <= k <= j
        ensures h in t[k].services
      {
        TraceLater(t, i, k);
        TraceLater(t, k, j);
      }
    }
  }

  /** Remote binders are never erased. */
  lemma RemoteStays(t: seq<State>, i: nat, j: nat, h: nat)
    requires Trace(t) && TablesValid(t[0]) && t[0].nextBinder > 0 && i <= j < |t|
    requires h in t[i].services && t[i].services[h].remote
    ensures h in t[j].services && t[j].services[h].remote
  {
    TraceIsGood(t);
    TraceLater(t, i, j);
    TablesAlong(t, i);
  }
}
