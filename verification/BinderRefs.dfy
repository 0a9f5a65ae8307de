/** Strong reference counts are exact: for every local binder the count is the references the
    guest holds plus the services whose extension it is. */
module BinderRefs {
  import opened Words
  import opened BinderModel

  /** Services below handle `n` whose extension is `h`. */
  function Extending(services: map<nat, Service>, h: nat, n: nat): nat {
    if n == 0 then 0
    else Extending(services, h, n - 1) + (if n - 1 in services && services[n - 1].extension == h then 1 else 0)
  }

  function Edge(services: map<nat, Service>, k: nat, h: nat): nat {
    if k in services && services[k].extension == h then 1 else 0
  }

  lemma {:induction false} ExtendingSet(services: map<nat, Service>, k: nat, v: Service, h: nat, n: nat)
    ensures Extending(services[k := v], h, n) + (if k < n then Edge(services, k, h) else 0) ==
            Extending(services, h, n) + (if k < n && v.extension == h then 1 else 0)
  {
    if n > 0 {
      ExtendingSet(services, k, v, h, n - 1);
    }
  }

  lemma {:induction false} ExtendingErase(services: map<nat, Service>, k: nat, h: nat, n: nat)
    ensures Extending(services - {k}, h, n) + (if k < n then Edge(services, k, h) else 0) == Extending(services, h, n)
  {
    if n > 0 {
      ExtendingErase(services, k, h, n - 1);
    }
  }

  lemma {:induction false} ExtendingSame(services: map<nat, Service>, services': map<nat, Service>, h: nat, n: nat)
    requires services.Keys == services'.Keys
    requires forall k :: k in services ==> services[k].extension == services'[k].extension
    ensures Extending(services, h, n) == Extending(services', h, n)
  {
    if n > 0 {
      ExtendingSame(services, services', h, n - 1);
    }
  }

  lemma {:induction false} ExtendingSome(services: map<nat, Service>, k: nat, h: nat, n: nat)
    requires k < n && Edge(services, k, h) == 1
    ensures Extending(services, h, n) >= 1
  {
    if k < n - 1 {
      ExtendingSome(services, k, h, n - 1);
    }
  }

  /** Handles are in range, extension edges lead somewhere, held handles exist. */
  ghost predicate Grounded(services: map<nat, Service>, held: map<nat, nat>, n: nat) {
    && (forall h :: h in services ==> 0 < h < n && services[h].refCount >= 1)
    && (forall h :: h in services && services[h].extension != 0 ==> services[h].extension in services)
    && (forall h :: Held(held, h) > 0 ==> h in services)
  }

  /** Exact counts, except that `debt` (0 for none) still counts a reference just given up. */
  ghost predicate Exact(services: map<nat, Service>, held: map<nat, nat>, n: nat, debt: nat) {
    forall h :: h in services && !services[h].remote ==>
      services[h].refCount == Held(held, h) + Extending(services, h, n) + (if h == debt then 1 else 0)
  }

  ghost predicate Refs(services: map<nat, Service>, held: map<nat, nat>, n: nat) {
    Grounded(services, held, n) && Exact(services, held, n, 0)
  }

  ghost predicate RefsValid(s: State) {
    Refs(s.services, s.held, s.nextBinder)
  }

  // ---- dropping a reference ---------------------------------------------------------------

  lemma SetCount(services: map<nat, Service>, held: map<nat, nat>, n: nat, h: nat, c: u32, debt: nat)
    requires Grounded(services, held, n) && h in services && c >= 1
    requires Exact(services, held, n, debt)
    requires !services[h].remote ==> c == Held(held, h) + Extending(services, h, n)
    ensures var services' := services[h := services[h].(refCount := c)];
            Grounded(services', held, n) && (debt == h || debt == 0 ==> Exact(services', held, n, 0))
  {
    var services' := services[h := services[h].(refCount := c)];
    forall k | k in services' && !services'[k].remote
      ensures Extending(services', k, n) == Extending(services, k, n)
    {
      ExtendingSame(services, services', k, n);
    }
  }

  /** A local binder whose last reference is the debt has no edge to it. */
  lemma EraseLast(services: map<nat, Service>, held: map<nat, nat>, n: nat, h: nat)
    requires Grounded(services, held, n) && Exact(services, held, n, h)
    requires h in services && !services[h].remote && services[h].refCount == 1
    ensures var services' := services - {h};
            Grounded(services', held, n) && Exact(services', held, n, services[h].extension)
    ensures Held(held, h) == 0 && services[h].extension != h
    ensures services[h].extension != 0 ==> services[h].extension in services - {h}
  {
    var services' := services - {h};
    forall k | k in services
      ensures services[k].extension != h
    {
      if services[k].extension == h {
        ExtendingSome(services, k, h, n);
      }
    }
    forall k | k in services' && !services'[k].remote
      ensures Extending(services', k, n) + (if services[h].extension == k then 1 else 0) == Extending(services, k, n)
    {
      ExtendingErase(services, h, k, n);
    }
  }

  /** Paying a debt restores exact counts, and destroys nothing the guest holds. */
  lemma {:induction false} ReleaseExact(services: map<nat, Service>, held: map<nat, nat>, n: nat, h: nat)
    requires h in services && Grounded(services, held, n) && Exact(services, held, n, h)
    ensures Refs(ReleaseServices(services, h), held, n)
    decreases |services|
  {
    var v := services[h];
    if v.refCount > 1 {
      SetCount(services, held, n, h, v.refCount - 1, h);
    } else if !v.remote {
      EraseShrinks(services, h);
      EraseLast(services, held, n, h);
      if v.extension != 0 {
        ReleaseExact(services - {h}, held, n, v.extension);
      }
    }
  }

  // ---- every other step ----------------------------------------------------------------------

  /** Changes that touch neither counts nor edges nor existence. */
  ghost predicate SameShape(services: map<nat, Service>, services': map<nat, Service>) {
    && services'.Keys == services.Keys
    && forall h :: h in services ==>
         && services'[h].refCount == services[h].refCount
         && services'[h].remote == services[h].remote
         && services'[h].extension == services[h].extension
  }

  lemma SameShapeValid(s: State, s': State)
    requires RefsValid(s) && SameShape(s.services, s'.services) && s'.held == s.held && s'.nextBinder == s.nextBinder
    ensures RefsValid(s')
  {
    forall h | h in s.services
      ensures Extending(s'.services, h, s.nextBinder) == Extending(s.services, h, s.nextBinder)
    {
      ExtendingSame(s.services, s'.services, h, s.nextBinder);
    }
  }

  lemma SetKeepsShape(services: map<nat, Service>, h: nat, v: Service)
    requires h in services && v.refCount == services[h].refCount
    requires v.remote == services[h].remote && v.extension == services[h].extension
    ensures SameShape(services, services[h := v])
  {
  }

  lemma GrantParts(services: map<nat, Service>, held: map<nat, nat>, n: nat, h: nat)
    requires Refs(services, held, n) && h in services && services[h].refCount < 0xffff_ffff
    ensures Refs(services[h := Counted(services[h])], Grant(held, h), n)
  {
    var services' := services[h := Counted(services[h])];
    forall k | k in services'
      ensures Extending(services', k, n) == Extending(services, k, n)
    {
      ExtendingSame(services, services', k, n);
    }
  }

  lemma GrantValid(s: State, h: nat)
    requires RefsValid(s) && h in s.services && s.services[h].refCount < 0xffff_ffff
    ensures RefsValid(SetService(s, h, Counted(s.services[h])).(held := Grant(s.held, h)))
  {
    GrantParts(s.services, s.held, s.nextBinder, h);
  }

  lemma CreateParts(services: map<nat, Service>, held: map<nat, nat>, n: nat, v: Service)
    requires Refs(services, held, n) && n > 0 && v.refCount == 1 && v.extension == 0
    ensures Refs(services[n := v], held[n := 1], n + 1)
  {
    var services' := services[n := v];
    forall k | k in services'
      ensures Extending(services', k, n + 1) == Extending(services, k, n)
    {
      ExtendingSet(services, n, v, k, n);
    }
    NoEdgeTo(services, n, n);
  }

  lemma {:induction false} NoEdgeTo(services: map<nat, Service>, h: nat, n: nat)
    requires forall k :: k in services ==> services[k].extension != h
    ensures Extending(services, h, n) == 0
  {
    if n > 0 {
      NoEdgeTo(services, h, n - 1);
    }
  }

  lemma SetExtensionValid(s: State, h: nat, e: nat)
    requires RefsValid(s)
    requires e in s.services ==> s.services[e].refCount < 0xffff_ffff
    ensures RefsValid(SetExtension(s, h, e).0)
  {
    if SetExtension(s, h, e).1 == Okay && s.services[h].extension != e {
      var prior := s.services[h].extension;
      var s1 := SetService(s, e, Counted(s.services[e]));
      var s2 := SetService(s1, h, s1.services[h].(extension := e));
      assert s2.services == Rewire(s.services, h, e);
      Rewired(s.services, s.held, s.nextBinder, h, e);
      if prior != 0 {
        ReleaseFrame(s2, prior);
        ReleaseExact(s2.services, s2.held, s2.nextBinder, prior);
      }
    }
  }

  function Rewire(services: map<nat, Service>, h: nat, e: nat): map<nat, Service>
    requires h in services && e in services
  {
    var services1 := services[e := Counted(services[e])];
    services1[h := services1[h].(extension := e)]
  }

  /** Moving an edge from one extension to another leaves a debt on the former. */
  lemma Rewired(services: map<nat, Service>, held: map<nat, nat>, n: nat, h: nat, e: nat)
    requires Refs(services, held, n) && h in services && e in services && services[h].extension != e
    requires services[e].refCount < 0xffff_ffff
    ensures Grounded(Rewire(services, h, e), held, n)
    ensures Exact(Rewire(services, h, e), held, n, services[h].extension)
  {
    var services1 := services[e := Counted(services[e])];
    var v := services1[h].(extension := e);
    var services2 := Rewire(services, h, e);
    forall k | k in services
      ensures Extending(services2, k, n) + (if services[h].extension == k then 1 else 0) ==
              Extending(services, k, n) + (if k == e then 1 else 0)
    {
      ExtendingSame(services, services1, k, n);
      ExtendingSet(services1, h, v, k, n);
    }
  }

  // ---- runs ---------------------------------------------------------------------------------------

  /** The binder whose count a call raises, if any. */
  function Raised(s: State, op: Op): Option<nat> {
    match op
    case OpInc(h) => Some(h)
    case OpSetExtension(_, e) => Some(e)
    case OpGetExtension(h, _) => if h in s.services then Some(s.services[h].extension) else None
    case OpWeakPromote(w) => if w in s.weaks then Some(s.weaks[w]) else None
    case _ => None
  }

  /** The guest drops a local binder only if a reference was counted for it, and no 32-bit count
      overflows. */
  predicate Legal(s: State, op: Op) {
    && (op.OpDec? && op.h in s.services && !s.services[op.h].remote ==> Held(s.held, op.h) > 0)
    && var x := Raised(s, op); x.Some? && x.value in s.services ==> s.services[x.value].refCount < 0xffff_ffff
  }

  /** Calls that neither create nor count. */
  predicate Plain(op: Op) {
    !op.OpNew? && !op.OpInc? && !op.OpDec? && !op.OpSetExtension? && !op.OpGetExtension? &&
    !op.OpGetService? && !op.OpWeakPromote?
  }

  ghost predicate SameAll(s: State, s': State) {
    SameShape(s.services, s'.services) && s'.held == s.held && s'.nextBinder == s.nextBinder
  }

  lemma AddServiceShape(s: State, h: nat, name: string)
    ensures SameAll(s, AddService(s, h, name).0)
  {
    var s' := AddService(s, h, name).0;
    if s'.services != s.services {
      assert s'.services == s.services[h := s'.services[h]];
      SetKeepsShape(s.services, h, s'.services[h]);
    }
  }

  lemma LinkShape(s: State, h: nat, r: nat, cookie: nat)
    ensures SameAll(s, Link(s, h, r, cookie).0)
  {
    var s' := Link(s, h, r, cookie).0;
    if s'.services != s.services {
      assert s'.services == s.services[h := s'.services[h]];
      SetKeepsShape(s.services, h, s'.services[h]);
    }
  }

  lemma UnlinkShape(s: State, h: nat, r: nat, cookie: nat)
    ensures SameAll(s, Unlink(s, h, r, cookie).0)
  {
    var s' := Unlink(s, h, r, cookie).0;
    if s'.services != s.services {
      assert s'.services == s.services[h := s'.services[h]];
      SetKeepsShape(s.services, h, s'.services[h]);
    }
  }

  lemma RetireShape(s: State, h: nat)
    ensures SameAll(s, Retire(s, h).0)
  {
    var s' := Retire(s, h).0;
    if s'.services != s.services {
      assert s'.services == s.services[h := s'.services[h]];
      SetKeepsShape(s.services, h, s'.services[h]);
    }
  }

  lemma DaemonLostShape(s: State, h: nat)
    ensures SameAll(s, DaemonLost(s, h))
  {
    var s' := DaemonLost(s, h);
    if s'.services != s.services {
      assert s'.services == s.services[h := s'.services[h]];
      SetKeepsShape(s.services, h, s'.services[h]);
    }
  }

  lemma AssociateShape(s: State, h: nat, cls: nat)
    ensures SameAll(s, AssociateClass(s, h, cls).0)
  {
    var s' := AssociateClass(s, h, cls).0;
    if s'.services != s.services {
      assert s'.services == s.services[h := s'.services[h]];
      SetKeepsShape(s.services, h, s'.services[h]);
    }
  }

  lemma DeathDeleteShape(s: State, r: nat)
    ensures SameAll(s, DeathDelete(s, r))
  {
  }

  predicate Linking(op: Op) {
    op.OpLink? || op.OpUnlink? || op.OpKill? || op.OpDeathDelete?
  }

  lemma LinkingKeepsShape(s: State, op: Op)
    requires Linking(op)
    ensures SameAll(s, Step(s, op))
  {
    match op {
      case OpLink(h, r, cookie) => LinkShape(s, h, r, cookie);
      case OpUnlink(h, r, cookie) => UnlinkShape(s, h, r, cookie);
      case OpDeathDelete(r) => DeathDeleteShape(s, r);
      case OpKill(h) => RetireShape(s, h);
    }
  }

  lemma PlainKeepsShape(s: State, op: Op)
    requires Plain(op)
    ensures SameAll(s, Step(s, op))
  {
    if Linking(op) {
      LinkingKeepsShape(s, op);
    } else if op.OpAddService? {
      AddServiceShape(s, op.h, op.name);
    } else if op.OpDaemonLost? {
      DaemonLostShape(s, op.h);
    } else if op.OpAssociateClass? {
      AssociateShape(s, op.h, op.cls);
    } else {
      assert Step(s, op).services == s.services;
    }
  }

  lemma NewValid(s: State, cls: nat, arg: nat, created: nat)
    requires RefsValid(s) && s.nextBinder > 0
    ensures RefsValid(New(s, cls, arg, created).0)
  {
    if cls in s.classes {
      CreateParts(s.services, s.held, s.nextBinder, New(s, cls, arg, created).0.services[s.nextBinder]);
    }
  }

  lemma GetServiceValid(s: State, name: string, owned: bool)
    requires RefsValid(s) && s.nextBinder > 0
    ensures RefsValid(GetService(s, name, owned).0)
  {
    CreateParts(s.services, s.held, s.nextBinder, Service(name, 1, true, true, owned, 0, 0, 0, []));
  }

  lemma DecValid(s: State, h: nat)
    requires RefsValid(s) && Held(s.held, h) > 0
    ensures RefsValid(DecStrong(s, h))
  {
    var s1 := s.(held := Drop(s.held, h));
    assert forall k :: Held(s1.held, k) == Held(s.held, k) - (if k == h then 1 else 0);
    ReleaseFrame(s1, h);
    ReleaseExact(s1.services, s1.held, s1.nextBinder, h);
  }

  lemma StepValid(s: State, op: Op)
    requires RefsValid(s) && s.nextBinder > 0 && Legal(s, op)
    ensures RefsValid(Step(s, op))
  {
    match op {
      case OpNew(cls, arg, created) => NewValid(s, cls, arg, created);
      case OpInc(h) => if h in s.services { GrantValid(s, h); }
      case OpDec(h) => DropExactly(s, h);
      case OpSetExtension(h, e) => SetExtensionValid(s, h, e);
      case OpGetExtension(h, out) => if GetExtension(s, h, out).1 != 0 { GrantValid(s, s.services[h].extension); }
      case OpGetService(name, owned) => GetServiceValid(s, name, owned);
      case OpWeakPromote(w) => if WeakPromote(s, w).1 != 0 { GrantValid(s, s.weaks[w]); }
      case _ =>
        PlainKeepsShape(s, op);
        SameShapeValid(s, Step(s, op));
    }
  }

  predicate LegalRun(s: State, ops: seq<Op>) {
    ops != [] ==>
      var before := Run(s, ops[..|ops| - 1]);
      LegalRun(s, ops[..|ops| - 1]) && Legal(before, ops[|ops| - 1])
  }

  lemma NextBinderGrows(s: State, op: Op)
    ensures s.nextBinder <= Step(s, op).nextBinder
  {
    match op {
      case OpDec(h) => ReleaseFrame(s.(held := Drop(s.held, h)), h);
      case OpSetExtension(h, e) => SetExtensionGrows(s, h, e);
      case _ =>
    }
  }

  lemma SetExtensionGrows(s: State, h: nat, e: nat)
    ensures s.nextBinder == SetExtension(s, h, e).0.nextBinder
  {
    if h in s.services && e in s.services {
      var s1 := SetService(s, e, Counted(s.services[e]));
      var s2 := SetService(s1, h, s1.services[h].(extension := e));
      ReleaseFrame(s2, s1.services[h].extension);
    }
  }

  /** Over every run in which the guest drops only what was counted for it: each local binder's
      count is exact, so nothing the guest holds is ever destroyed and no extension dangles. */
  lemma {:induction false} CountsExact(binder: nat, cls: nat, weak: nat, death: nat, ops: seq<Op>)
    requires binder > 0 && LegalRun(Init(binder, cls, weak, death), ops)
    ensures var s := Run(Init(binder, cls, weak, death), ops);
            && s.nextBinder > 0
            && (forall h :: h in s.services && !s.services[h].remote ==>
                  s.services[h].refCount == Held(s.held, h) + Extending(s.services, h, s.nextBinder))
            && (forall h :: Held(s.held, h) > 0 ==> h in s.services)
            && (forall h :: h in s.services && s.services[h].extension != 0 ==> s.services[h].extension in s.services)
            && RefsValid(s)
  {
    var s0 := Init(binder, cls, weak, death);
    if ops != [] {
      CountsExact(binder, cls, weak, death, ops[..|ops| - 1]);
      var before, op := Run(s0, ops[..|ops| - 1]), ops[|ops| - 1];
      StepValid(before, op);
      NextBinderGrows(before, op);
    }
  }

  // ---- the condition on the guest, exactly ------------------------------------------------------

  lemma {:induction false} ExtendingWitness(services: map<nat, Service>, h: nat, n: nat) returns (k: nat)
    requires Extending(services, h, n) >= 1
    ensures k < n && Edge(services, k, h) == 1
  {
    if Edge(services, n - 1, h) == 1 {
      k := n - 1;
    } else {
      k := ExtendingWitness(services, h, n - 1);
    }
  }

  predicate LastLocal(services: map<nat, Service>, x: nat) {
    x in services && !services[x].remote && services[x].refCount == 1
  }

  /** Following extensions from `x` through local binders of count 1 leads to `h`. */
  predicate LeadsTo(services: map<nat, Service>, x: nat, h: nat)
    decreases |services|
  {
    x == h || (LastLocal(services, x) && (EraseShrinks(services, x); LeadsTo(services - {x}, services[x].extension, h)))
  }

  /** `h` is a local binder of count 1 whose only reference is an extension edge that it keeps alive
      itself, directly or through others like it. */
  predicate OnLooseCycle(services: map<nat, Service>, h: nat) {
    LastLocal(services, h) && LeadsTo(services - {h}, services[h].extension, h)
  }

  /** `h` has been erased though a service may still name it; the reference `x` is to be paid. */
  ghost predicate Broken(services: map<nat, Service>, held: map<nat, nat>, n: nat, h: nat, x: nat) {
    && 0 < h < n && h !in services && 0 !in services
    && (forall k :: k in services ==> k < n && services[k].refCount >= 1)
    && (forall k :: k in services && services[k].extension != 0 ==>
          services[k].extension == h || services[k].extension in services)
    && (forall k :: Held(held, k) > 0 ==> k in services)
    && Exact(services, held, n, x)
    && Extending(services, h, n) == (if x == h then 0 else 1)
    && (x == 0 || x == h || x in services)
  }

  /** Erasing a local binder that is down to the reference to be paid moves the debt along. */
  lemma BrokenErase(services: map<nat, Service>, held: map<nat, nat>, n: nat, h: nat, x: nat)
    requires Broken(services, held, n, h, x) && x != h && LastLocal(services, x)
    ensures Broken(services - {x}, held, n, h, services[x].extension)
  {
    var services', e := services - {x}, services[x].extension;
    assert Held(held, x) == 0 && Extending(services, x, n) == 0;
    forall k | k in services ensures services[k].extension != x {
      if services[k].extension == x {
        ExtendingSome(services, k, x, n);
      }
    }
    ExtendingErase(services, x, h, n);
    forall k | k in services' && !services'[k].remote
      ensures services'[k].refCount == Held(held, k) + Extending(services', k, n) + (if k == e then 1 else 0)
    {
      ExtendingErase(services, x, k, n);
    }
  }

  /** A dangling extension stays as long as its service does. */
  lemma BrokenStays(services: map<nat, Service>, services': map<nat, Service>, held: map<nat, nat>, n: nat, h: nat, x: nat)
    requires Broken(services, held, n, h, x) && x != h
    requires services'.Keys == services.Keys
    requires forall k :: k in services ==> services'[k].extension == services[k].extension
    ensures !Refs(services', held, n)
  {
    var k := ExtendingWitness(services, h, n);
    assert k in services' && services'[k].extension == h && h !in services';
  }

  lemma {:induction false} ReleaseBroken(services: map<nat, Service>, held: map<nat, nat>, n: nat, h: nat, x: nat)
    requires Broken(services, held, n, h, x)
    ensures Refs(ReleaseServices(services, x), held, n) <==> LeadsTo(services, x, h)
    decreases |services|
  {
    if x == h {
      BrokenPaid(services, held, n, h);
    } else if LastLocal(services, x) {
      var e := services[x].extension;
      EraseShrinks(services, x);
      BrokenErase(services, held, n, h, x);
      ReleaseBroken(services - {x}, held, n, h, e);
      assert ReleaseServices(services, x) == ReleaseServices(services - {x}, e);
    } else {
      BrokenStays(services, ReleaseServices(services, x), held, n, h, x);
    }
  }

  /** When the reference to be paid is the one to `h` itself, nothing names `h` any more. */
  lemma BrokenPaid(services: map<nat, Service>, held: map<nat, nat>, n: nat, h: nat)
    requires Broken(services, held, n, h, h)
    ensures Refs(services, held, n)
  {
    forall k | k in services ensures services[k].extension != h {
      if services[k].extension == h {
        ExtendingSome(services, k, h, n);
      }
    }
  }

  lemma BreaksOpen(services: map<nat, Service>, held: map<nat, nat>, n: nat, h: nat)
    requires Refs(services, held, n) && LastLocal(services, h) && Held(held, h) == 0
    ensures Broken(services - {h}, held, n, h, services[h].extension)
  {
    var services', e := services - {h}, services[h].extension;
    ExtendingErase(services, h, h, n);
    forall k | k in services' && !services'[k].remote
      ensures services'[k].refCount == Held(held, k) + Extending(services', k, n) + (if k == e then 1 else 0)
    {
      ExtendingErase(services, h, k, n);
    }
  }

  /** Dropping a reference keeps the counts exact if and only if there is nothing to get wrong - the
      binder does not exist or is remote -, the guest has a counted reference to drop, or the binder
      lies on a cycle of extensions that nothing else keeps alive. In every other case a count goes
      wrong or a service is left with an extension that no longer exists. */
  lemma DropExactly(s: State, h: nat)
    requires RefsValid(s)
    ensures RefsValid(DecStrong(s, h)) <==>
            h !in s.services || s.services[h].remote || Held(s.held, h) > 0 || OnLooseCycle(s.services, h)
  {
    ReleaseFrame(s.(held := Drop(s.held, h)), h);
    if Held(s.held, h) > 0 {
      DecValid(s, h);
    } else if h in s.services {
      var v, n := s.services[h], s.nextBinder;
      var services' := ReleaseServices(s.services, h);
      if v.remote {
        if v.refCount > 1 {
          SetCount(s.services, s.held, n, h, v.refCount - 1, 0);
        }
      } else if v.refCount > 1 {
        ExtendingSame(s.services, services', h, n);
        assert services'[h].refCount != Held(s.held, h) + Extending(services', h, n);
      } else {
        BreaksOpen(s.services, s.held, n, h);
        ReleaseBroken(s.services - {h}, s.held, n, h, v.extension);
      }
    }
  }
}
