/** Death links are conserved: every valid attempt to link is accounted for, by a link that was
    ended or by one still held. */
module BinderDeath {
  import opened BinderModel

  /** The links held by the services below handle `n`. */
  function HeldLinks(services: map<nat, Service>, n: nat): multiset<DeathLink> {
    if n == 0 then multiset{}
    else HeldLinks(services, n - 1) + (if n - 1 in services then multiset(services[n - 1].links) else multiset{})
  }

  function LinksAt(services: map<nat, Service>, h: nat): multiset<DeathLink> {
    if h in services then multiset(services[h].links) else multiset{}
  }

  lemma Swap(a: multiset<DeathLink>, b: multiset<DeathLink>, c: multiset<DeathLink>)
    ensures (a + b) + c == (a + c) + b
  {
  }

  lemma Cancel(a: multiset<DeathLink>, b: multiset<DeathLink>, c: multiset<DeathLink>)
    requires a + c == b + c
    ensures a == b
  {
    forall x: DeathLink
      ensures a[x] == b[x]
    {
      assert (a + c)[x] == (b + c)[x];
    }
  }

  lemma {:induction false} HeldLinksSet(services: map<nat, Service>, h: nat, v: Service, n: nat)
    ensures if h < n
            then HeldLinks(services[h := v], n) + LinksAt(services, h) == HeldLinks(services, n) + multiset(v.links)
            else HeldLinks(services[h := v], n) == HeldLinks(services, n)
  {
    if n > 0 {
      var services' := services[h := v];
      HeldLinksSet(services, h, v, n - 1);
      if h == n - 1 {
        Swap(HeldLinks(services, h), multiset(v.links), LinksAt(services, h));
      } else {
        var m := LinksAt(services, n - 1);
        assert HeldLinks(services', n) == HeldLinks(services', n - 1) + m;
        assert HeldLinks(services, n) == HeldLinks(services, n - 1) + m;
        Swap(HeldLinks(services', n - 1), m, LinksAt(services, h));
        Swap(HeldLinks(services, n - 1), m, multiset(v.links));
      }
    }
  }

  lemma {:induction false} HeldLinksErase(services: map<nat, Service>, h: nat, n: nat)
    requires h in services && services[h].links == []
    ensures HeldLinks(services - {h}, n) == HeldLinks(services, n)
  {
    if n > 0 {
      HeldLinksErase(services, h, n - 1);
      assert LinksAt(services - {h}, n - 1) == LinksAt(services, n - 1);
    }
  }

  lemma {:induction false} HeldLinksSame(services: map<nat, Service>, services': map<nat, Service>, n: nat)
    requires services.Keys == services'.Keys
    requires forall h :: h in services ==> services'[h].links == services[h].links
    ensures HeldLinks(services', n) == HeldLinks(services, n)
  {
    if n > 0 {
      HeldLinksSame(services, services', n - 1);
    }
  }

  predicate Clash(a: DeathLink, b: DeathLink) {
    a.recipient == b.recipient && a.cookie == b.cookie
  }

  ghost predicate UniqueLinks(links: seq<DeathLink>) {
    forall i, j :: 0 <= i < j < |links| ==> !Clash(links[i], links[j])
  }

  /** A binder's own links: registered recipients, no (recipient, cookie) twice, none if local. */
  ghost predicate LinksValid(v: Service, recipients: set<nat>) {
    && (forall i :: 0 <= i < |v.links| ==> v.links[i].recipient in recipients)
    && UniqueLinks(v.links)
    && (!v.remote ==> v.links == [])
  }

  ghost predicate AllLinksValid(services: map<nat, Service>, recipients: set<nat>) {
    forall h :: h in services ==> LinksValid(services[h], recipients)
  }

  ghost predicate Below(services: map<nat, Service>, n: nat) {
    forall h :: h in services ==> h < n
  }

  ghost predicate Conserved(services: map<nat, Service>, n: nat, attempted: multiset<DeathLink>, ended: multiset<DeathLink>) {
    Below(services, n) && attempted == ended + HeldLinks(services, n)
  }

  ghost predicate DeathValid(s: State) {
    Conserved(s.services, s.nextBinder, s.attempted, s.ended) && AllLinksValid(s.services, s.recipients.Keys)
  }

  // ---- steps that leave links alone ---------------------------------------------------------------

  ghost predicate SameLinks(services: map<nat, Service>, services': map<nat, Service>) {
    && services'.Keys == services.Keys
    && forall h :: h in services ==> services'[h].links == services[h].links && services'[h].remote == services[h].remote
  }

  lemma SetSameLinks(services: map<nat, Service>, h: nat, v: Service)
    requires h in services && v.links == services[h].links && v.remote == services[h].remote
    ensures SameLinks(services, services[h := v])
  {
  }

  lemma SameLinksValid(s: State, s': State)
    requires DeathValid(s) && SameLinks(s.services, s'.services) && s'.nextBinder == s.nextBinder
    requires s'.attempted == s.attempted && s'.ended == s.ended && s.recipients.Keys <= s'.recipients.Keys
    ensures DeathValid(s')
  {
    HeldLinksSame(s.services, s'.services, s.nextBinder);
    forall h | h in s'.services
      ensures LinksValid(s'.services[h], s'.recipients.Keys)
    {
      assert LinksValid(s.services[h], s.recipients.Keys);
    }
  }

  /** One entry changed in place, or none. */
  lemma InPlaceValid(s: State, s': State, h: nat)
    requires DeathValid(s)
    requires s'.services == s.services ||
             (h in s.services && h in s'.services && s'.services == s.services[h := s'.services[h]] &&
              s'.services[h].links == s.services[h].links && s'.services[h].remote == s.services[h].remote)
    requires s'.nextBinder == s.nextBinder && s'.attempted == s.attempted && s'.ended == s.ended
    requires s.recipients.Keys <= s'.recipients.Keys
    ensures DeathValid(s')
  {
    if s'.services != s.services {
      SetSameLinks(s.services, h, s'.services[h]);
    }
    SameLinksValid(s, s');
  }

  lemma CreateValid(s: State, s': State, v: Service)
    requires DeathValid(s) && v.links == []
    requires s'.services == s.services[s.nextBinder := v] && s'.nextBinder == s.nextBinder + 1
    requires s'.attempted == s.attempted && s'.ended == s.ended && s'.recipients == s.recipients
    ensures DeathValid(s')
  {
    HeldLinksSet(s.services, s.nextBinder, v, s.nextBinder);
  }

  lemma NewValid(s: State, cls: nat, arg: nat, created: nat)
    requires DeathValid(s)
    ensures DeathValid(New(s, cls, arg, created).0)
  {
    if cls in s.classes {
      CreateValid(s, New(s, cls, arg, created).0, New(s, cls, arg, created).0.services[s.nextBinder]);
    }
  }

  lemma GetServiceValid(s: State, name: string, owned: bool)
    requires DeathValid(s)
    ensures DeathValid(GetService(s, name, owned).0)
  {
    var s' := GetService(s, name, owned).0;
    if s'.nextBinder != s.nextBinder {
      CreateValid(s, s', Service(name, 1, true, true, owned, 0, 0, 0, []));
    } else {
      SameLinksValid(s, s');
    }
  }

  lemma DestroyValid(s: State, h: nat)
    requires DeathValid(s) && h in s.services && !s.services[h].remote
    ensures DeathValid(Destroy(s, h))
  {
    assert LinksValid(s.services[h], s.recipients.Keys);
    HeldLinksErase(s.services, h, s.nextBinder);
  }

  lemma {:induction false} ReleaseValid(s: State, h: nat)
    requires DeathValid(s)
    ensures DeathValid(Release(s, h))
    decreases |s.services|
  {
    if h !in s.services || (s.services[h].refCount <= 1 && s.services[h].remote) {
    } else if s.services[h].refCount > 1 {
      InPlaceValid(s, Release(s, h), h);
    } else {
      EraseShrinks(s.services, h);
      DestroyValid(s, h);
      if s.services[h].extension != 0 {
        ReleaseValid(Destroy(s, h), s.services[h].extension);
      }
    }
  }

  lemma DecValid(s: State, h: nat)
    requires DeathValid(s)
    ensures DeathValid(DecStrong(s, h))
  {
    ReleaseValid(s.(held := Drop(s.held, h)), h);
  }

  lemma SetExtensionValid(s: State, h: nat, e: nat)
    requires DeathValid(s)
    ensures DeathValid(SetExtension(s, h, e).0)
  {
    if SetExtension(s, h, e).1 == Okay && s.services[h].extension != e {
      var s1 := SetService(s, e, Counted(s.services[e]));
      var s2 := SetService(s1, h, s1.services[h].(extension := e));
      InPlaceValid(s, s1, e);
      InPlaceValid(s1, s2, h);
      if s1.services[h].extension != 0 {
        ReleaseValid(s2, s1.services[h].extension);
      }
    }
  }

  // ---- linking and unlinking --------------------------------------------------------------------------

  lemma LinksSet(services: map<nat, Service>, recipients: set<nat>, h: nat, v: Service)
    requires AllLinksValid(services, recipients) && LinksValid(v, recipients)
    ensures AllLinksValid(services[h := v], recipients)
  {
  }

  lemma HeldPlus(services: map<nat, Service>, n: nat, h: nat, link: DeathLink)
    requires Below(services, n) && h in services
    ensures var v := services[h];
            HeldLinks(services[h := v.(links := v.links + [link])], n) == HeldLinks(services, n) + multiset{link}
  {
    var v := services[h];
    var v' := v.(links := v.links + [link]);
    HeldLinksSet(services, h, v', n);
    assert multiset(v'.links) == multiset(v.links) + multiset{link};
    Swap(HeldLinks(services, n), multiset(v.links), multiset{link});
    Cancel(HeldLinks(services[h := v'], n), HeldLinks(services, n) + multiset{link}, multiset(v.links));
  }

  lemma LinkValid(s: State, h: nat, r: nat, cookie: nat)
    requires DeathValid(s)
    ensures DeathValid(Link(s, h, r, cookie).0)
  {
    if Link(s, h, r, cookie).1 == Okay {
      var v, link := s.services[h], NewLink(s, r, cookie);
      var v' := v.(links := v.links + [link]);
      assert LinksValid(v, s.recipients.Keys);
      LinksSet(s.services, s.recipients.Keys, h, v');
      HeldPlus(s.services, s.nextBinder, h, link);
    } else if Link(s, h, r, cookie).1 != BadValue {
      Swap(s.ended, HeldLinks(s.services, s.nextBinder), multiset{NewLink(s, r, cookie)});
    }
  }

  lemma HeldMinus(services: map<nat, Service>, n: nat, h: nat, v: Service, gone: multiset<DeathLink>)
    requires Below(services, n) && h in services && multiset(services[h].links) == multiset(v.links) + gone
    ensures HeldLinks(services, n) == gone + HeldLinks(services[h := v], n)
  {
    var held, held', kept := HeldLinks(services, n), HeldLinks(services[h := v], n), multiset(v.links);
    HeldLinksSet(services, h, v, n);
    assert (gone + held') + kept == held + kept;
    Cancel(held, gone + held', kept);
  }

  lemma RemoveAt(links: seq<DeathLink>, i: nat)
    requires i < |links|
    ensures multiset(links) == multiset(links[..i] + links[i + 1..]) + multiset{links[i]}
  {
    assert links == links[..i] + [links[i]] + links[i + 1..];
  }

  lemma RemovedValid(v: Service, i: nat, recipients: set<nat>)
    requires LinksValid(v, recipients) && i < |v.links|
    ensures LinksValid(v.(links := v.links[..i] + v.links[i + 1..]), recipients)
  {
    var kept := v.links[..i] + v.links[i + 1..];
    assert forall k :: 0 <= k < |kept| ==> kept[k] == v.links[if k < i then k else k + 1];
  }

  /** Links may go from a service if they are recorded as ended. */
  lemma EndedValid(s: State, h: nat, v: Service, gone: multiset<DeathLink>)
    requires DeathValid(s) && h in s.services && LinksValid(v, s.recipients.Keys)
    requires multiset(s.services[h].links) == multiset(v.links) + gone
    ensures DeathValid(SetService(s, h, v).(ended := s.ended + gone))
  {
    LinksSet(s.services, s.recipients.Keys, h, v);
    HeldMinus(s.services, s.nextBinder, h, v, gone);
  }

  lemma UnlinkValid(s: State, h: nat, r: nat, cookie: nat)
    requires DeathValid(s)
    ensures DeathValid(Unlink(s, h, r, cookie).0)
  {
    if Unlink(s, h, r, cookie).1 == Okay {
      var v := s.services[h];
      var i := FindLink(v.links, r, cookie);
      var v' := v.(links := v.links[..i] + v.links[i + 1..]);
      RemovedValid(v, i, s.recipients.Keys);
      RemoveAt(v.links, i);
      EndedValid(s, h, v', multiset{v.links[i]});
    }
  }

  lemma RetireValid(s: State, h: nat)
    requires DeathValid(s)
    ensures DeathValid(Retire(s, h).0)
  {
    if Retire(s, h).1 == Okay {
      var v, gone := s.services[h].(alive := false, links := []), multiset(s.services[h].links);
      LinksSet(s.services, s.recipients.Keys, h, v);
      assert multiset(v.links) + gone == gone;
      HeldMinus(s.services, s.nextBinder, h, v, gone);
      var s' := Retire(s, h).0;
      assert s'.services == s.services[h := v] && s'.ended == s.ended + gone && s'.attempted == s.attempted;
    }
  }

  lemma {:induction false} KeepDrop(links: seq<DeathLink>, r: nat)
    ensures multiset(links) == multiset(KeepLinks(links, r)) + multiset(DropLinks(links, r))
  {
    if links != [] {
      assert links == [links[0]] + links[1..];
      KeepDrop(links[1..], r);
    }
  }

  lemma {:induction false} KeepLinksFrom(links: seq<DeathLink>, r: nat, k: nat) returns (i: nat)
    requires k < |KeepLinks(links, r)|
    ensures i < |links| && KeepLinks(links, r)[k] == links[i] && links[i].recipient != r
  {
    if links[0].recipient == r {
      var j := KeepLinksFrom(links[1..], r, k);
      i := j + 1;
    } else if k == 0 {
      i := 0;
    } else {
      var j := KeepLinksFrom(links[1..], r, k - 1);
      i := j + 1;
    }
  }

  lemma {:induction false} KeepLinksUnique(links: seq<DeathLink>, r: nat)
    requires UniqueLinks(links)
    ensures UniqueLinks(KeepLinks(links, r))
  {
    if links != [] {
      var kept, rest := KeepLinks(links, r), KeepLinks(links[1..], r);
      assert UniqueLinks(links[1..]) by {
        assert forall i :: 0 <= i < |links| - 1 ==> links[1..][i] == links[i + 1];
      }
      KeepLinksUnique(links[1..], r);
      if links[0].recipient == r {
        assert kept == rest;
      } else {
        assert kept == [links[0]] + rest;
        forall i, j | 0 <= i < j < |kept|
          ensures !Clash(kept[i], kept[j])
        {
          if i == 0 {
            var m := KeepLinksFrom(links[1..], r, j - 1);
            assert !Clash(links[0], links[m + 1]);
          } else {
            assert !Clash(rest[i - 1], rest[j - 1]);
          }
        }
      }
    }
  }

  lemma KeptValid(v: Service, r: nat, recipients: set<nat>)
    requires LinksValid(v, recipients)
    ensures LinksValid(v.(links := KeepLinks(v.links, r)), recipients - {r})
  {
    var kept := KeepLinks(v.links, r);
    forall k | 0 <= k < |kept|
      ensures kept[k].recipient in recipients - {r}
    {
      var i := KeepLinksFrom(v.links, r, k);
    }
    KeepLinksUnique(v.links, r);
  }

  lemma {:induction false} AllKeepDrop(services: map<nat, Service>, r: nat, n: nat)
    ensures HeldLinks(services, n) == HeldLinks(WithoutRecipient(services, r), n) + AllDropped(services, r, n)
  {
    if n > 0 {
      AllKeepDrop(services, r, n - 1);
      if n - 1 in services {
        KeepDrop(services[n - 1].links, r);
      }
    }
  }

  lemma DeathDeleteValid(s: State, r: nat)
    requires DeathValid(s)
    ensures DeathValid(DeathDelete(s, r))
  {
    if r in s.recipients {
      AllKeepDrop(s.services, r, s.nextBinder);
      forall h | h in s.services
        ensures LinksValid(WithoutRecipient(s.services, r)[h], s.recipients.Keys - {r})
      {
        KeptValid(s.services[h], r, s.recipients.Keys);
      }
      assert (s.recipients - {r}).Keys == s.recipients.Keys - {r};
    }
  }

  // ---- runs ---------------------------------------------------------------------------------------------

  lemma IncValid(s: State, h: nat)
    requires DeathValid(s)
    ensures DeathValid(IncStrong(s, h))
  {
    InPlaceValid(s, IncStrong(s, h), h);
  }

  lemma GetExtensionValid(s: State, h: nat, out: bool)
    requires DeathValid(s)
    ensures DeathValid(GetExtension(s, h, out).0)
  {
    if GetExtension(s, h, out).1 != 0 {
      InPlaceValid(s, GetExtension(s, h, out).0, s.services[h].extension);
    }
  }

  lemma WeakPromoteValid(s: State, w: nat)
    requires DeathValid(s)
    ensures DeathValid(WeakPromote(s, w).0)
  {
    if w in s.weaks {
      InPlaceValid(s, WeakPromote(s, w).0, s.weaks[w]);
    }
  }

  lemma AddServiceValid(s: State, h: nat, name: string)
    requires DeathValid(s)
    ensures DeathValid(AddService(s, h, name).0)
  {
    InPlaceValid(s, AddService(s, h, name).0, h);
  }

  lemma AssociateValid(s: State, h: nat, cls: nat)
    requires DeathValid(s)
    ensures DeathValid(AssociateClass(s, h, cls).0)
  {
    InPlaceValid(s, AssociateClass(s, h, cls).0, h);
  }

  lemma DaemonLostValid(s: State, h: nat)
    requires DeathValid(s)
    ensures DeathValid(DaemonLost(s, h))
  {
    InPlaceValid(s, DaemonLost(s, h), h);
  }

  lemma DeathNewValid(s: State, f: nat)
    requires DeathValid(s)
    ensures DeathValid(DeathNew(s, f).0)
  {
    SameLinksValid(s, DeathNew(s, f).0);
  }

  lemma SetUnlinkedValid(s: State, r: nat, f: nat)
    requires DeathValid(s)
    ensures DeathValid(DeathSetUnlinked(s, r, f))
  {
    SameLinksValid(s, DeathSetUnlinked(s, r, f));
  }

  predicate OfTables(op: Op) {
    op.OpWeakNew? || op.OpWeakDelete? || op.OpWeakClone? || op.OpClassDefine?
  }

  lemma TableValid(s: State, op: Op)
    requires DeathValid(s) && OfTables(op)
    ensures DeathValid(Step(s, op))
  {
  }

  lemma {:induction false} CountingValid(s: State, op: Op)
    requires DeathValid(s) && (op.OpInc? || op.OpGetExtension? || op.OpWeakPromote?)
    ensures DeathValid(Step(s, op))
  {
    match op {
      case OpInc(h) => IncValid(s, h);
      case OpGetExtension(h, out) => GetExtensionValid(s, h, out);
      case OpWeakPromote(w) => WeakPromoteValid(s, w);
    }
  }

  lemma {:induction false} NamingValid(s: State, op: Op)
    requires DeathValid(s) && (op.OpAddService? || op.OpAssociateClass? || op.OpDaemonLost?)
    ensures DeathValid(Step(s, op))
  {
    match op {
      case OpAddService(h, name) => AddServiceValid(s, h, name);
      case OpAssociateClass(h, cls) => AssociateValid(s, h, cls);
      case OpDaemonLost(h) => DaemonLostValid(s, h);
    }
  }

  lemma StepValid(s: State, op: Op)
    requires DeathValid(s)
    ensures DeathValid(Step(s, op))
  {
    if OfTables(op) {
      TableValid(s, op);
    } else {
      match op {
        case OpNew(cls, arg, created) => NewValid(s, cls, arg, created);
        case OpDec(h) => DecValid(s, h);
        case OpSetExtension(h, e) => SetExtensionValid(s, h, e);
        case OpGetService(name, owned) => GetServiceValid(s, name, owned);
        case OpDeathDelete(r) => DeathDeleteValid(s, r);
        case OpLink(h, r, cookie) => LinkValid(s, h, r, cookie);
        case OpUnlink(h, r, cookie) => UnlinkValid(s, h, r, cookie);
        case OpKill(h) => RetireValid(s, h);
        case OpDeathNew(f) => DeathNewValid(s, f);
        case OpDeathSetUnlinked(r, f) => SetUnlinkedValid(s, r, f);
        case _ =>
          if op.OpInc? || op.OpGetExtension? || op.OpWeakPromote? {
            CountingValid(s, op);
          } else {
            NamingValid(s, op);
          }
      }
    }
  }

  /** Over every run, whatever the guest does: the valid linkToDeath attempts are exactly the links
      ended plus the links still held - as multisets of links, not just in number - and every held link
      is well formed. */
  lemma {:induction false} LinksConserved(binder: nat, cls: nat, weak: nat, death: nat, ops: seq<Op>)
    ensures var s := Run(Init(binder, cls, weak, death), ops);
            && s.attempted == s.ended + HeldLinks(s.services, s.nextBinder)
            && |s.attempted| == |s.ended| + |HeldLinks(s.services, s.nextBinder)|
            && AllLinksValid(s.services, s.recipients.Keys)
            && DeathValid(s)
  {
    var s0 := Init(binder, cls, weak, death);
    if ops == [] {
      NoLinks(binder);
    } else {
      LinksConserved(binder, cls, weak, death, ops[..|ops| - 1]);
      StepValid(Run(s0, ops[..|ops| - 1]), ops[|ops| - 1]);
    }
  }

  lemma {:induction false} NoLinks(n: nat)
    ensures HeldLinks(map[], n) == multiset{}
  {
    if n > 0 {
      NoLinks(n - 1);
    }
  }
}
