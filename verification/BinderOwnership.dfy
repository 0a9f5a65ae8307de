/** The references the guest owns, counted or not. The handlers return a strong reference that the
    guest has to drop; a lookup of a registered name returns one without counting it. The books
    kept here follow both, and show exactly where counts and ownership part. */
module BinderOwnership {
  import opened Words
  import opened BinderModel
  import opened BinderRefs
  import Lifetime = BinderLifetime

  // ---- the books -----------------------------------------------------------------------------------

  /** A lookup that finds a living service in the registry. */
  predicate Hit(s: State, op: Op) {
    && op.OpGetService? && op.name != "" && op.name in s.names
    && s.names[op.name] in s.services && s.services[s.names[op.name]].alive
  }

  /** A lookup that finds a living local service in the registry. */
  predicate LocalHit(s: State, op: Op) {
    Hit(s, op) && !s.services[s.names[op.name]].remote
  }

  /** The handle with which a call hands the guest a strong reference, or 0. */
  function Handed(s: State, op: Op): nat {
    match op
    case OpNew(cls, arg, created) => New(s, cls, arg, created).1
    case OpInc(h) => if h in s.services then h else 0
    case OpGetExtension(h, out) => GetExtension(s, h, out).1
    case OpGetService(name, owned) => GetService(s, name, owned).1
    case OpWeakPromote(w) => WeakPromote(s, w).1
    case _ => 0
  }

  /** References owned by the guest, and registry hits, for every handle. */
  datatype Books = Books(owned: map<nat, nat>, hits: map<nat, nat>)

  function Enter(s: State, b: Books, op: Op): Books {
    if op.OpDec? then b.(owned := Drop(b.owned, op.h))
    else if Handed(s, op) == 0 then b
    else Handover(b, Handed(s, op), Hit(s, op))
  }

  function Handover(b: Books, h: nat, uncounted: bool): Books {
    Books(Grant(b.owned, h), if uncounted then Grant(b.hits, h) else b.hits)
  }

  function Ledger(s: State, ops: seq<Op>): Books {
    if ops == [] then Books(map[], map[])
    else Enter(Run(s, ops[..|ops| - 1]), Ledger(s, ops[..|ops| - 1]), ops[|ops| - 1])
  }

  /** The guest drops only references it owns, and no 32-bit count overflows. */
  predicate OwnerLegal(s: State, b: Books, op: Op) {
    && (op.OpDec? ==> Held(b.owned, op.h) > 0)
    && var x := Raised(s, op); x.Some? && x.value in s.services ==> s.services[x.value].refCount < 0xffff_ffff
  }

  predicate OwnerLegalRun(s: State, ops: seq<Op>) {
    ops != [] ==>
      var before := ops[..|ops| - 1];
      OwnerLegalRun(s, before) && OwnerLegal(Run(s, before), Ledger(s, before), ops[|ops| - 1])
  }

  // ---- what the books say about the counts -----------------------------------------------------------

  ghost predicate Bounds(services: map<nat, Service>, b: Books, n: nat) {
    && n > 0 && (forall h :: h in services ==> 0 < h < n && services[h].extension < n)
    && (forall h: nat :: Held(b.owned, h) > 0 || Held(b.hits, h) > 0 ==> h < n)
  }

  /** Count and uncounted hits together are the owned references and the extension edges; `debt`
      (0 for none) still counts a reference just given up. */
  ghost predicate Balanced(services: map<nat, Service>, b: Books, n: nat, debt: nat) {
    forall h :: h in services && !services[h].remote ==>
      services[h].refCount + Held(b.hits, h) == Held(b.owned, h) + Extending(services, h, n) + (if h == debt then 1 else 0)
  }

  ghost predicate InOrder(services: map<nat, Service>, b: Books, n: nat) {
    Bounds(services, b, n) && Balanced(services, b, n, 0)
  }

  lemma SetCountBooks(services: map<nat, Service>, b: Books, b': Books, n: nat, h: nat, c: u32, debt: nat)
    requires Bounds(services, b, n) && Balanced(services, b, n, debt) && h in services
    requires debt == 0 || debt == h
    requires forall k :: k != h ==> Held(b'.owned, k) == Held(b.owned, k) && Held(b'.hits, k) == Held(b.hits, k)
    requires !services[h].remote ==> c + Held(b'.hits, h) == Held(b'.owned, h) + Extending(services, h, n)
    ensures InOrder(services[h := services[h].(refCount := c)], b', n)
  {
    var services' := services[h := services[h].(refCount := c)];
    forall k | k in services' ensures Extending(services', k, n) == Extending(services, k, n) {
      ExtendingSame(services, services', k, n);
    }
  }

  lemma EraseBooks(services: map<nat, Service>, b: Books, n: nat, h: nat)
    requires Bounds(services, b, n) && Balanced(services, b, n, h) && h in services
    ensures Bounds(services - {h}, b, n) && Balanced(services - {h}, b, n, services[h].extension)
  {
    forall k | k in services - {h} ensures Extending(services - {h}, k, n) + Edge(services, h, k) == Extending(services, k, n) {
      ExtendingErase(services, h, k, n);
    }
  }

  lemma {:induction false} ReleaseBooks(services: map<nat, Service>, b: Books, n: nat, h: nat)
    requires Bounds(services, b, n) && Balanced(services, b, n, h)
    ensures InOrder(ReleaseServices(services, h), b, n)
    decreases |services|
  {
    if h in services {
      var v := services[h];
      if v.refCount > 1 {
        SetCountBooks(services, b, b, n, h, v.refCount - 1, h);
      } else if !v.remote {
        EraseShrinks(services, h);
        EraseBooks(services, b, n, h);
        if v.extension != 0 {
          ReleaseBooks(services - {h}, b, n, v.extension);
        }
      }
    }
  }

  lemma CreateBooks(services: map<nat, Service>, b: Books, n: nat, v: Service)
    requires InOrder(services, b, n) && v.refCount == 1 && v.extension == 0
    ensures InOrder(services[n := v], Handover(b, n, false), n + 1)
  {
    var services' := services[n := v];
    forall k | k in services' ensures Extending(services', k, n + 1) == Extending(services, k, n) {
      ExtendingSet(services, n, v, k, n);
    }
    NoEdgeTo(services, n, n);
    assert forall k: nat :: Held(Grant(b.owned, n), k) == Held(b.owned, k) + (if k == n then 1 else 0);
  }

  lemma RewireBooks(services: map<nat, Service>, b: Books, n: nat, h: nat, e: nat)
    requires InOrder(services, b, n) && h in services && e in services && services[h].extension != e
    requires services[e].refCount < 0xffff_ffff
    ensures Bounds(Rewire(services, h, e), b, n) && Balanced(Rewire(services, h, e), b, n, services[h].extension)
  {
    var services1 := services[e := Counted(services[e])];
    var v := services1[h].(extension := e);
    var services2 := Rewire(services, h, e);
    forall k | k in services
      ensures Extending(services2, k, n) + (if services[h].extension == k then 1 else 0) ==
              Extending(services, k, n) + (if k == e then 1 else 0)
    {
      ExtendingSame(services, services1, k, n);
      ExtendingSet(services1, h, v, k, n);
    }
  }

  // ---- every step ----------------------------------------------------------------------------------------

  ghost predicate StateInOrder(s: State, b: Books) {
    InOrder(s.services, b, s.nextBinder)
  }

  lemma GrantInOrder(s: State, b: Books, h: nat)
    requires StateInOrder(s, b) && h in s.services && s.services[h].refCount < 0xffff_ffff
    ensures InOrder(s.services[h := Counted(s.services[h])], Handover(b, h, false), s.nextBinder)
  {
    SetCountBooks(s.services, b, Handover(b, h, false), s.nextBinder, h, s.services[h].refCount + 1, 0);
  }

  lemma HitInOrder(s: State, b: Books, h: nat)
    requires StateInOrder(s, b) && h in s.services
    ensures StateInOrder(s, Handover(b, h, true))
  {
    var b' := Handover(b, h, true);
    var v := s.services[h];
    assert s.services[h := v] == s.services;
    SetCountBooks(s.services, b, b', s.nextBinder, h, v.refCount, 0);
  }

  lemma DropInOrder(s: State, b: Books, h: nat)
    requires StateInOrder(s, b) && Held(b.owned, h) > 0
    ensures StateInOrder(DecStrong(s, h), b.(owned := Drop(b.owned, h)))
  {
    var b' := b.(owned := Drop(b.owned, h));
    assert forall k :: Held(b'.owned, k) == Held(b.owned, k) - (if k == h then 1 else 0);
    ReleaseFrame(s.(held := Drop(s.held, h)), h);
    ReleaseBooks(s.services, b', s.nextBinder, h);
  }

  lemma ExtendInOrder(s: State, b: Books, h: nat, e: nat)
    requires StateInOrder(s, b)
    requires e in s.services ==> s.services[e].refCount < 0xffff_ffff
    ensures StateInOrder(SetExtension(s, h, e).0, b)
  {
    if SetExtension(s, h, e).1 == Okay && s.services[h].extension != e {
      var prior := s.services[h].extension;
      var s1 := SetService(s, e, Counted(s.services[e]));
      var s2 := SetService(s1, h, s1.services[h].(extension := e));
      assert s2.services == Rewire(s.services, h, e);
      RewireBooks(s.services, b, s.nextBinder, h, e);
      if prior != 0 {
        ReleaseFrame(s2, prior);
        ReleaseBooks(s2.services, b, s2.nextBinder, prior);
      }
    }
  }

  lemma NewInOrder(s: State, b: Books, cls: nat, arg: nat, created: nat)
    requires StateInOrder(s, b) && cls in s.classes
    ensures StateInOrder(New(s, cls, arg, created).0, Handover(b, s.nextBinder, false))
  {
    CreateBooks(s.services, b, s.nextBinder, New(s, cls, arg, created).0.services[s.nextBinder]);
  }

  /** The three outcomes of a lookup, for the services and the handle returned. */
  predicate Found(s: State, s': State, h: nat) {
    h in s.services && s'.services == s.services && s'.nextBinder == s.nextBinder
  }

  predicate Made(s: State, s': State, h: nat) {
    && h == s.nextBinder && s'.nextBinder == h + 1 && h in s'.services
    && s'.services == s.services[h := s'.services[h]]
    && s'.services[h].refCount == 1 && s'.services[h].extension == 0 && s'.services[h].remote
  }

  predicate Refused(s: State, s': State, h: nat) {
    h == 0 && s'.services == s.services && s'.nextBinder == s.nextBinder
  }

  lemma LookupEffect(s: State, name: string, owned: bool)
    ensures var s', h := GetService(s, name, owned).0, GetService(s, name, owned).1;
            if Hit(s, OpGetService(name, owned)) then Found(s, s', h) && h == s.names[name]
            else Refused(s, s', h) || Made(s, s', h)
  {
  }

  lemma LookupBooks(s: State, s': State, b: Books, h: nat, hit: bool)
    requires StateInOrder(s, b) && if hit then Found(s, s', h) else Refused(s, s', h) || Made(s, s', h)
    ensures StateInOrder(s', if h == 0 then b else Handover(b, h, hit))
  {
    if hit {
      HitInOrder(s, b, h);
    } else if h != 0 {
      CreateBooks(s.services, b, s.nextBinder, s'.services[h]);
    }
  }

  lemma LookupInOrder(s: State, b: Books, name: string, owned: bool)
    requires StateInOrder(s, b)
    ensures StateInOrder(GetService(s, name, owned).0, Enter(s, b, OpGetService(name, owned)))
  {
    LookupEffect(s, name, owned);
    LookupBooks(s, GetService(s, name, owned).0, b, GetService(s, name, owned).1, Hit(s, OpGetService(name, owned)));
  }

  lemma PlainInOrder(s: State, b: Books, op: Op)
    requires StateInOrder(s, b) && Plain(op)
    ensures StateInOrder(Step(s, op), b)
  {
    PlainKeepsShape(s, op);
    forall h | h in s.services ensures Extending(Step(s, op).services, h, s.nextBinder) == Extending(s.services, h, s.nextBinder) {
      ExtendingSame(s.services, Step(s, op).services, h, s.nextBinder);
    }
  }

  lemma StepInOrder(s: State, b: Books, op: Op)
    requires StateInOrder(s, b) && OwnerLegal(s, b, op)
    ensures StateInOrder(Step(s, op), Enter(s, b, op))
  {
    if Plain(op) {
      PlainInOrder(s, b, op);
    } else if op.OpInc? || op.OpGetExtension? || op.OpWeakPromote? {
      CountingInOrder(s, b, op);
    } else {
      match op {
        case OpNew(cls, arg, created) => if cls in s.classes { NewInOrder(s, b, cls, arg, created); }
        case OpDec(h) => DropInOrder(s, b, h);
        case OpSetExtension(h, e) => ExtendInOrder(s, b, h, e);
        case OpGetService(name, owned) => LookupInOrder(s, b, name, owned);
      }
    }
  }

  lemma CountingInOrder(s: State, b: Books, op: Op)
    requires StateInOrder(s, b) && OwnerLegal(s, b, op) && (op.OpInc? || op.OpGetExtension? || op.OpWeakPromote?)
    ensures StateInOrder(Step(s, op), Enter(s, b, op))
  {
    var h := Handed(s, op);
    if h != 0 {
      assert Step(s, op).services == s.services[h := Counted(s.services[h])];
      GrantInOrder(s, b, h);
    }
  }

  /** Over every run in which the guest drops only references it owns, for every local binder: the
      count plus the registry hits it does not know of are the owned references plus the services
      whose extension it is. */
  lemma {:induction false} CountsBalance(binder: nat, cls: nat, weak: nat, death: nat, ops: seq<Op>)
    requires binder > 0 && OwnerLegalRun(Init(binder, cls, weak, death), ops)
    ensures var s0 := Init(binder, cls, weak, death);
            var s, b := Run(s0, ops), Ledger(s0, ops);
            && StateInOrder(s, b)
            && forall h :: h in s.services && !s.services[h].remote ==>
                 s.services[h].refCount + Held(b.hits, h) == Held(b.owned, h) + Extending(s.services, h, s.nextBinder)
  {
    var s0 := Init(binder, cls, weak, death);
    if ops != [] {
      CountsBalance(binder, cls, weak, death, ops[..|ops| - 1]);
      StepInOrder(Run(s0, ops[..|ops| - 1]), Ledger(s0, ops[..|ops| - 1]), ops[|ops| - 1]);
    }
  }

  // ---- the lookup that breaks ownership, exactly -----------------------------------------------------

  /** Counts cover every reference the guest owns. */
  ghost predicate Covered(s: State, b: Books) {
    && Bounds(s.services, b, s.nextBinder)
    && forall h :: h in s.services && !s.services[h].remote ==>
         s.services[h].refCount == Held(b.owned, h) + Extending(s.services, h, s.nextBinder)
  }

  /** A lookup keeps ownership covered by the counts if and only if the name is not published to a
      living local binder. */
  lemma LookupExactly(s: State, b: Books, name: string, owned: bool)
    requires Covered(s, b)
    ensures var op := OpGetService(name, owned);
            Covered(Step(s, op), Enter(s, b, op)) <==> !LocalHit(s, op)
  {
    var op := OpGetService(name, owned);
    var s', h := GetService(s, name, owned).0, GetService(s, name, owned).1;
    LookupEffect(s, name, owned);
    if Hit(s, op) {
      LookupUncovers(s, s', b, h);
    } else {
      LookupCovers(s, s', b, h);
    }
  }

  lemma LookupUncovers(s: State, s': State, b: Books, h: nat)
    requires Covered(s, b) && Found(s, s', h)
    ensures Covered(s', Handover(b, h, true)) <==> s.services[h].remote
  {
    assert forall k: nat :: Held(Handover(b, h, true).owned, k) == Held(b.owned, k) + (if k == h then 1 else 0);
    assert forall k: nat :: Held(Handover(b, h, true).hits, k) == Held(b.hits, k) + (if k == h then 1 else 0);
  }

  lemma LookupCovers(s: State, s': State, b: Books, h: nat)
    requires Covered(s, b) && (Refused(s, s', h) || Made(s, s', h))
    ensures Covered(s', if h == 0 then b else Handover(b, h, false))
  {
    var b0 := b.(hits := map[]);
    LookupBooks(s, s', b0, h, false);
  }

  const PUBLISH := [OpClassDefine("c", 0, 0), OpNew(1, 0, 0), OpAddService(1, "n")]

  /** A class, a binder of it, and its name: the guest owns one reference, which is counted. */
  lemma Published()
    ensures var s0 := Init(1, 1, 1, 1);
            var s := Run(s0, PUBLISH);
            && s.services == map[1 := Service("n", 1, true, false, false, 1, 0, 0, [])]
            && s.names == map["n" := 1] && s.held == map[1 := 1] && Ledger(s0, PUBLISH).owned == map[1 := 1]
            && OwnerLegalRun(s0, PUBLISH) && LegalRun(s0, PUBLISH)
  {
    var s0 := Init(1, 1, 1, 1);
    var op1, op2, op3 := OpClassDefine("c", 0, 0), OpNew(1, 0, 0), OpAddService(1, "n");
    assert [] + [op1] == [op1] && [op1] + [op2] == [op1, op2] && [op1, op2] + [op3] == PUBLISH;
    RunOne(s0, [], op1);
    var s1 := s0.(classes := map[1 := Class("c", 0, 0)], nextClass := 2);
    assert Run(s0, [op1]) == s1 && Ledger(s0, [op1]) == Books(map[], map[]);
    RunOne(s0, [op1], op2);
    var s2 := s1.(services := map[1 := Service("c", 1, true, false, false, 1, 0, 0, [])], nextBinder := 2, held := map[1 := 1]);
    assert Run(s0, [op1, op2]) == s2 && Ledger(s0, [op1, op2]) == Books(map[1 := 1], map[]);
    RunOne(s0, [op1, op2], op3);
  }

  /** The guest's own reference, a published name and one lookup: dropping one of the two references
      the guest then owns destroys the binder behind the other, although the drop was counted. */
  lemma OwnedIsDestroyed()
    ensures var s0 := Init(1, 1, 1, 1);
            var ops := PUBLISH + [OpGetService("n", false)] + [OpDec(1)];
            && OwnerLegalRun(s0, ops) && LegalRun(s0, ops)
            && Held(Ledger(s0, ops).owned, 1) == 1 && 1 !in Run(s0, ops).services
  {
    var s0, op4, op5 := Init(1, 1, 1, 1), OpGetService("n", false), OpDec(1);
    Published();
    RunOne(s0, PUBLISH, op4);
    var s3, s4 := Run(s0, PUBLISH), Run(s0, PUBLISH + [op4]);
    assert Handed(s3, op4) == 1 && s4 == s3 && Held(Ledger(s0, PUBLISH + [op4]).owned, 1) == 2;
    RunOne(s0, PUBLISH + [op4], op5);
    ReleaseFrame(s4.(held := Drop(s4.held, 1)), 1);
  }

  lemma RunOne(s: State, ops: seq<Op>, op: Op)
    ensures Run(s, ops + [op]) == Step(Run(s, ops), op)
    ensures Ledger(s, ops + [op]) == Enter(Run(s, ops), Ledger(s, ops), op)
    ensures OwnerLegalRun(s, ops + [op]) <==> OwnerLegalRun(s, ops) && OwnerLegal(Run(s, ops), Ledger(s, ops), op)
    ensures LegalRun(s, ops + [op]) <==> LegalRun(s, ops) && Legal(Run(s, ops), op)
  {
    assert (ops + [op])[..|ops|] == ops;
  }

  // ---- without such lookups nothing owned is lost -----------------------------------------------------

  predicate NoLocalHits(s: State, ops: seq<Op>) {
    ops != [] ==> NoLocalHits(s, ops[..|ops| - 1]) && !LocalHit(Run(s, ops[..|ops| - 1]), ops[|ops| - 1])
  }

  /** For every handle that is not a remote binder the owned references are the counted ones. */
  ghost predicate SameAccount(services: map<nat, Service>, held: map<nat, nat>, owned: map<nat, nat>) {
    forall h :: (h in services && services[h].remote) || Held(held, h) == Held(owned, h)
  }

  /** Both accounts move alike, except on remote binders, which stay. */
  lemma MoveAlike(services: map<nat, Service>, services': map<nat, Service>,
                  held: map<nat, nat>, held': map<nat, nat>, owned: map<nat, nat>, owned': map<nat, nat>)
    requires SameAccount(services, held, owned)
    requires forall k :: k in services && services[k].remote ==> k in services' && services'[k].remote
    requires forall k: nat :: (k in services' && services'[k].remote) ||
                              Held(held', k) + Held(owned, k) == Held(owned', k) + Held(held, k)
    ensures SameAccount(services', held', owned')
  {
  }

  lemma StepSameAccount(s: State, b: Books, op: Op)
    requires SameAccount(s.services, s.held, b.owned) && Lifetime.Later(s, Step(s, op)) && !LocalHit(s, op)
    requires RefsValid(s) && StateInOrder(s, b)
    requires Lifetime.HandlesValid(s.services, s.nextBinder)
    ensures SameAccount(Step(s, op).services, Step(s, op).held, Enter(s, b, op).owned)
  {
    var s', b' := Step(s, op), Enter(s, b, op);
    forall k: nat
      ensures (k in s'.services && s'.services[k].remote) ||
              Held(s'.held, k) + Held(b.owned, k) == Held(b'.owned, k) + Held(s.held, k)
    {
      HeldStep(s, b, op, k);
    }
    MoveAlike(s.services, s'.services, s.held, s'.held, b.owned, b'.owned);
  }

  lemma HeldStep(s: State, b: Books, op: Op, k: nat)
    requires SameAccount(s.services, s.held, b.owned) && !LocalHit(s, op) && RefsValid(s) && StateInOrder(s, b)
    ensures (k in Step(s, op).services && Step(s, op).services[k].remote) ||
            Held(Step(s, op).held, k) + Held(b.owned, k) == Held(Enter(s, b, op).owned, k) + Held(s.held, k)
  {
    if Plain(op) {
      PlainKeepsShape(s, op);
    } else if op.OpGetService? {
      LookupHeld(s, b, op.name, op.owned, k);
    } else if op.OpDec? {
      DropHeld(s, b, op.h, k);
    } else if op.OpSetExtension? {
      SetExtensionHeld(s, op.h, op.e);
    } else if op.OpNew? {
      NewHeld(s, b, op, k);
    } else {
      CountingHeld(s, b, op, k);
    }
  }

  lemma DropHeld(s: State, b: Books, h: nat, k: nat)
    requires SameAccount(s.services, s.held, b.owned)
    ensures (k in DecStrong(s, h).services && DecStrong(s, h).services[k].remote) ||
            Held(DecStrong(s, h).held, k) + Held(b.owned, k) == Held(Drop(b.owned, h), k) + Held(s.held, k)
  {
    var s1 := s.(held := Drop(s.held, h));
    ReleaseFrame(s1, h);
    if k in s.services && s.services[k].remote {
      RemoteKept(s.services, h, k);
    }
  }

  lemma {:induction false} RemoteKept(services: map<nat, Service>, h: nat, k: nat)
    requires k in services && services[k].remote
    ensures k in ReleaseServices(services, h) && ReleaseServices(services, h)[k].remote
    decreases |services|
  {
    if h in services && services[h].refCount <= 1 && !services[h].remote && services[h].extension != 0 {
      EraseShrinks(services, h);
      RemoteKept(services - {h}, services[h].extension, k);
    }
  }

  lemma LookupHeld(s: State, b: Books, name: string, owned: bool, k: nat)
    requires !LocalHit(s, OpGetService(name, owned))
    ensures var s', op := GetService(s, name, owned).0, OpGetService(name, owned);
            (k in s'.services && s'.services[k].remote) ||
            Held(s'.held, k) + Held(b.owned, k) == Held(Enter(s, b, op).owned, k) + Held(s.held, k)
  {
    var h, op := GetService(s, name, owned).1, OpGetService(name, owned);
    assert Enter(s, b, op).owned == if h == 0 then b.owned else Grant(b.owned, h);
    if k != h {
      assert Held(GetService(s, name, owned).0.held, k) == Held(s.held, k);
    }
  }

  lemma NewHeld(s: State, b: Books, op: Op, k: nat)
    requires op.OpNew? && RefsValid(s) && StateInOrder(s, b)
    ensures Held(Step(s, op).held, k) + Held(b.owned, k) == Held(Enter(s, b, op).owned, k) + Held(s.held, k)
  {
  }

  lemma CountingHeld(s: State, b: Books, op: Op, k: nat)
    requires op.OpInc? || op.OpGetExtension? || op.OpWeakPromote?
    requires RefsValid(s)
    ensures Held(Step(s, op).held, k) + Held(b.owned, k) == Held(Enter(s, b, op).owned, k) + Held(s.held, k)
  {
  }

  lemma SetExtensionHeld(s: State, h: nat, e: nat)
    ensures SetExtension(s, h, e).0.held == s.held
  {
    if h in s.services && e in s.services {
      var s1 := SetService(s, e, Counted(s.services[e]));
      var s2 := SetService(s1, h, s1.services[h].(extension := e));
      ReleaseFrame(s2, s1.services[h].extension);
    }
  }

  /** Over every run in which the guest drops only references it owns and no lookup finds a living
      local binder: every owned binder exists, no extension dangles, and the counts are exact. */
  lemma {:induction false} OwnersKeep(binder: nat, cls: nat, weak: nat, death: nat, ops: seq<Op>)
    requires binder > 0
    requires OwnerLegalRun(Init(binder, cls, weak, death), ops) && NoLocalHits(Init(binder, cls, weak, death), ops)
    ensures var s0 := Init(binder, cls, weak, death);
            var s, b := Run(s0, ops), Ledger(s0, ops);
            && LegalRun(s0, ops) && RefsValid(s) && SameAccount(s.services, s.held, b.owned)
            && (forall h :: Held(b.owned, h) > 0 ==> h in s.services)
  {
    var s0 := Init(binder, cls, weak, death);
    if ops != [] {
      var prefix, op := ops[..|ops| - 1], ops[|ops| - 1];
      OwnersKeep(binder, cls, weak, death, prefix);
      CountsBalance(binder, cls, weak, death, prefix);
      Lifetime.TablesAlwaysValid(binder, cls, weak, death, prefix);
      Lifetime.StepValid(Run(s0, prefix), op);
      StepSameAccount(Run(s0, prefix), Ledger(s0, prefix), op);
    }
    CountsExact(binder, cls, weak, death, ops);
  }
}
