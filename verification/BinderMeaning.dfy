/** What every libbinder handler does, in plain terms: under which condition it gives which status, and
    which entries of which tables are different afterwards. The predicates speak of the two states only. */
module BinderMeaning {
  import opened Words
  import opened BinderModel

  // ---- what did not change ----------------------------------------------------------------------------

  /** Apart from the service tables and the count of references the guest holds. */
  ghost predicate ElseSame(s: State, s': State) {
    s' == s.(services := s'.services, held := s'.held)
  }

  /** No service but `h` is different, and none but `h` appeared or went. */
  ghost predicate OthersSame(services: map<nat, Service>, services': map<nat, Service>, h: nat) {
    && (forall k :: k != h ==> (k in services' <==> k in services))
    && (forall k :: k != h && k in services ==> services'[k] == services[k])
  }

  /** One more strong reference to `h`, counted in 32 bits. */
  ghost predicate CountedUp(services: map<nat, Service>, services': map<nat, Service>, h: nat) {
    && h in services && h in services' && OthersSame(services, services', h)
    && services'[h] == services[h].(refCount := services'[h].refCount)
    && services'[h].refCount == if services[h].refCount == 0xffff_ffff then 0 else services[h].refCount + 1
  }

  /** The guest holds one more reference to `h`. */
  ghost predicate HeldUp(held: map<nat, nat>, held': map<nat, nat>, h: nat) {
    && h in held' && held'[h] == (if h in held then held[h] else 0) + 1
    && (forall k :: k != h ==> (k in held' <==> k in held))
    && (forall k :: k != h && k in held ==> held'[k] == held[k])
  }

  // ---- binders and references ---------------------------------------------------------------------------

  /** AIBinder_new: a living local binder of the class under the next handle. */
  ghost predicate Created(s: State, s': State, cls: nat, arg: nat, created: nat, h: nat) {
    if cls !in s.classes then s' == s && h == 0
    else
      && h == s.nextBinder && s'.nextBinder == h + 1 && s' == s.(services := s'.services, nextBinder := s'.nextBinder, held := s'.held)
      && h in s'.services && OthersSame(s.services, s'.services, h)
      && var v := s'.services[h];
         && v.name == s.classes[cls].descriptor && v.refCount == 1 && v.alive && !v.remote && !v.daemonOwned
         && v.classHandle == cls && v.userData == (if s.classes[cls].onCreate == 0 then arg else created)
         && v.extension == 0 && v.links == []
  }

  /** AIBinder_incStrong. */
  ghost predicate Raised(s: State, s': State, h: nat) {
    if h !in s.services then s' == s
    else ElseSame(s, s') && CountedUp(s.services, s'.services, h) && HeldUp(s.held, s'.held, h)
  }

  /** A reference goes. Only the last one of a local binder erases it: its names are unpublished and
      marked removed, its links ended, and then its extension loses the reference it had from it. */
  ghost predicate Released(s: State, s': State, h: nat) {
    if h !in s.services then s' == s
    else
      var v := s.services[h];
      if v.refCount > 1 then
        && s' == s.(services := s'.services) && h in s'.services && OthersSame(s.services, s'.services, h)
        && s'.services[h] == v.(refCount := v.refCount - 1)
      else if v.remote then s' == s
      else exists s1: State :: Erases(s, s1, h) && (if v.extension == 0 then s' == s1 else s' == Release(s1, v.extension))
  }

  ghost predicate Erases(s: State, s': State, h: nat)
    requires h in s.services
  {
    && s' == s.(services := s'.services, names := s'.names, removed := s'.removed, destroyed := s'.destroyed, ended := s'.ended)
    && h !in s'.services && OthersSame(s.services, s'.services, h) && s'.destroyed == s.destroyed + [h]
    && (forall n :: n in s'.names <==> n in s.names && s.names[n] != h)
    && (forall n :: n in s'.names ==> s'.names[n] == s.names[n])
    && (forall n :: n in s'.removed <==> n in s.removed || (n in s.names && s.names[n] == h))
    && s'.ended == s.ended + multiset(s.services[h].links)
  }

  /** The erased binder's extension is released as a whole, so that the two predicates above say what
      happens to it in turn. */
  lemma {:induction false} ReleaseMeans(s: State, h: nat)
    ensures Released(s, Release(s, h), h)
  {
    if h in s.services && s.services[h].refCount <= 1 && !s.services[h].remote {
      assert Erases(s, Destroy(s, h), h);
    }
  }

  /** AIBinder_decStrong: one reference less held, and one released. */
  lemma DecMeans(s: State, h: nat)
    ensures exists s1: State ::
              && s1 == s.(held := s1.held) && Released(s1, DecStrong(s, h), h)
              && (forall k :: Held(s1.held, k) == if k == h && Held(s.held, k) > 0 then Held(s.held, k) - 1 else Held(s.held, k))
  {
    var s1 := s.(held := Drop(s.held, h));
    ReleaseMeans(s1, h);
    assert Released(s1, DecStrong(s, h), h);
  }

  lemma NewMeans(s: State, cls: nat, arg: nat, created: nat)
    ensures Created(s, New(s, cls, arg, created).0, cls, arg, created, New(s, cls, arg, created).1)
  {
  }

  lemma IncMeans(s: State, h: nat)
    ensures Raised(s, IncStrong(s, h), h)
  {
    if h in s.services {
      WrapMeans(s.services[h].refCount);
    }
  }

  lemma WrapMeans(c: u32)
    ensures Wrap32(c as int + 1) == if c == 0xffff_ffff then 0 else c + 1
  {
  }

  /** AIBinder_setExtension: null handles, missing binders, dead ones, a remote one; then nothing if the
      extension is the same, else `e` gains a reference, becomes the extension, and the old one loses one. */
  ghost predicate ExtensionSet(s: State, s': State, h: nat, e: nat, r: Status) {
    && (r == UnexpectedNull <==> h == 0 || e == 0)
    && (r == BadValue <==> h != 0 && e != 0 && (h !in s.services || e !in s.services))
    && (h != 0 && e != 0 && h in s.services && e in s.services ==>
         && (r == DeadObject <==> !s.services[h].alive || !s.services[e].alive)
         && (r == InvalidOperation <==> s.services[h].alive && s.services[e].alive && s.services[h].remote)
         && (r == Okay <==> s.services[h].alive && s.services[e].alive && !s.services[h].remote))
    && (r != Okay ==> s' == s)
    && (r == Okay ==> if s.services[h].extension == e then s' == s else Rewires(s, s', h, e))
  }

  ghost predicate Rewires(s: State, s': State, h: nat, e: nat)
    requires h in s.services && e in s.services
  {
    exists s1: State, s2: State ::
      && s1 == s.(services := s1.services) && CountedUp(s.services, s1.services, e)
      && h in s1.services && s2 == s1.(services := s2.services) && h in s2.services && OthersSame(s1.services, s2.services, h)
      && s2.services[h] == s1.services[h].(extension := e)
      && if s.services[h].extension == 0 then s' == s2 else Released(s2, s', s.services[h].extension)
  }

  lemma SetExtensionMeans(s: State, h: nat, e: nat)
    ensures ExtensionSet(s, SetExtension(s, h, e).0, h, e, SetExtension(s, h, e).1)
  {
    if SetExtension(s, h, e).1 == Okay && s.services[h].extension != e {
      var s1 := SetService(s, e, Counted(s.services[e]));
      var s2 := SetService(s1, h, s1.services[h].(extension := e));
      WrapMeans(s.services[e].refCount);
      assert CountedUp(s.services, s1.services, e);
      ReleaseMeans(s2, s.services[h].extension);
      RewireMeans(s, s1, s2, SetExtension(s, h, e).0, h, e);
    }
  }

  lemma RewireMeans(s: State, s1: State, s2: State, s': State, h: nat, e: nat)
    requires h in s.services && e in s.services && s1 == s.(services := s1.services) && CountedUp(s.services, s1.services, e)
    requires h in s1.services && s2 == SetService(s1, h, s1.services[h].(extension := e))
    requires if s.services[h].extension == 0 then s' == s2 else Released(s2, s', s.services[h].extension)
    ensures Rewires(s, s', h, e)
  {
    assert OthersSame(s1.services, s2.services, h);
  }

  /** AIBinder_getExtension: a living extension is handed out with a reference. */
  ghost predicate ExtensionGot(s: State, s': State, h: nat, out: bool, e: nat, r: Status) {
    && (r == UnexpectedNull <==> h == 0)
    && (r == BadValue <==> h != 0 && (!out || h !in s.services))
    && (h != 0 && out && h in s.services ==>
          var x := s.services[h].extension;
          && (r == DeadObject <==> x != 0 && (x !in s.services || !s.services[x].alive))
          && (r == Okay <==> x == 0 || (x in s.services && s.services[x].alive))
          && (r == Okay && x != 0 ==> e == x && ElseSame(s, s') && CountedUp(s.services, s'.services, x) && HeldUp(s.held, s'.held, x)))
    && (!(r == Okay && e != 0) ==> s' == s && e == 0)
    && (r == Okay ==> h in s.services && e == s.services[h].extension)
  }

  lemma GetExtensionMeans(s: State, h: nat, out: bool)
    ensures var r := GetExtension(s, h, out); ExtensionGot(s, r.0, h, out, r.1, r.2)
  {
    if h in s.services && s.services[h].extension in s.services {
      WrapMeans(s.services[s.services[h].extension].refCount);
    }
  }

  // ---- names -----------------------------------------------------------------------------------------

  /** The name leads to a living service. */
  ghost predicate Leads(s: State, name: string) {
    name in s.names && s.names[name] in s.services && s.services[s.names[name]].alive
  }

  ghost predicate OtherNamesSame(names: map<string, nat>, names': map<string, nat>, name: string) {
    && (forall n :: n != name ==> (n in names' <==> n in names))
    && (forall n :: n != name && n in names ==> names'[n] == names[n])
  }

  /** The service lookup: a name that leads to a living service gives it, without a further reference. Any
      other name is forgotten; a removed one gives nothing, and a fresh one a new remote binder. */
  ghost predicate LookedUp(s: State, s': State, name: string, owned: bool, h: nat) {
    if name == "" then s' == s && h == 0
    else if Leads(s, name) then s' == s && h == s.names[name]
    else if name in s.removed then
      h == 0 && s' == s.(names := s'.names) && name !in s'.names && OtherNamesSame(s.names, s'.names, name)
    else
      && h == s.nextBinder && s'.nextBinder == h + 1
      && s' == s.(services := s'.services, names := s'.names, nextBinder := s'.nextBinder, held := s'.held)
      && name in s'.names && s'.names[name] == h && OtherNamesSame(s.names, s'.names, name)
      && h in s'.services && OthersSame(s.services, s'.services, h)
      && var v := s'.services[h];
         && v.name == name && v.refCount == 1 && v.alive && v.remote && v.daemonOwned == owned
         && v.classHandle == 0 && v.userData == 0 && v.extension == 0 && v.links == []
  }

  lemma GetServiceMeans(s: State, name: string, owned: bool)
    ensures LookedUp(s, GetService(s, name, owned).0, name, owned, GetService(s, name, owned).1)
  {
  }

  /** AServiceManager_addService: refused without a name or a living local binder, or if another living
      service has the name; else the name leads to the binder, is not removed any more, and is its name. */
  ghost predicate Published(s: State, s': State, h: nat, name: string, r: Status) {
    && (r == BadValue <==> name == "" || h !in s.services || !s.services[h].alive || s.services[h].remote)
    && (r == AlreadyExists <==> r != BadValue && Leads(s, name) && s.names[name] != h)
    && (r == Okay <==> r != BadValue && r != AlreadyExists)
    && (r != Okay ==> s' == s)
    && (r == Okay ==>
         && s' == s.(services := s'.services, names := s'.names, removed := s'.removed)
         && name in s'.names && s'.names[name] == h && OtherNamesSame(s.names, s'.names, name)
         && (forall n :: n in s'.removed <==> n in s.removed && n != name)
         && h in s'.services && OthersSame(s.services, s'.services, h)
         && s'.services[h] == s.services[h].(name := name))
  }

  lemma AddServiceMeans(s: State, h: nat, name: string)
    ensures Published(s, AddService(s, h, name).0, h, name, AddService(s, h, name).1)
  {
  }

  // ---- weak references ---------------------------------------------------------------------------------

  ghost predicate OtherWeaksSame(weaks: map<nat, nat>, weaks': map<nat, nat>, w: nat) {
    && (forall k :: k != w ==> (k in weaks' <==> k in weaks))
    && (forall k :: k != w && k in weaks ==> weaks'[k] == weaks[k])
  }

  /** A weak reference to `target` under the next handle. */
  ghost predicate WeakMade(s: State, s': State, target: nat, w: nat) {
    && w == s.nextWeak && s' == s.(weaks := s'.weaks, nextWeak := w + 1)
    && w in s'.weaks && s'.weaks[w] == target && OtherWeaksSame(s.weaks, s'.weaks, w)
  }

  lemma WeakMeans(s: State, h: nat)
    ensures var (s', w) := WeakNew(s, h); if h in s.services then WeakMade(s, s', h, w) else s' == s && w == 0
    ensures var (s', w) := WeakClone(s, h); if h in s.weaks then WeakMade(s, s', s.weaks[h], w) else s' == s && w == 0
    ensures var s' := WeakDelete(s, h); s' == s.(weaks := s'.weaks) && h !in s'.weaks && OtherWeaksSame(s.weaks, s'.weaks, h)
  {
  }

  /** AIBinder_Weak_promote: the living target with one more reference, or null. */
  ghost predicate Promoted(s: State, s': State, w: nat, h: nat) {
    if w in s.weaks && s.weaks[w] in s.services && s.services[s.weaks[w]].alive then
      h == s.weaks[w] && ElseSame(s, s') && CountedUp(s.services, s'.services, h) && HeldUp(s.held, s'.held, h)
    else s' == s && h == 0
  }

  lemma PromoteMeans(s: State, w: nat)
    ensures Promoted(s, WeakPromote(s, w).0, w, WeakPromote(s, w).1)
  {
    if w in s.weaks && s.weaks[w] in s.services {
      WrapMeans(s.services[s.weaks[w]].refCount);
    }
  }

  // ---- death links ---------------------------------------------------------------------------------------

  ghost predicate OtherRecipientsSame(recipients: map<nat, Recipient>, recipients': map<nat, Recipient>, r: nat) {
    && (forall k :: k != r ==> (k in recipients' <==> k in recipients))
    && (forall k :: k != r && k in recipients ==> recipients'[k] == recipients[k])
  }

  lemma RecipientMeans(s: State, onDied: nat, r: nat, f: nat)
    ensures var (s', r') := DeathNew(s, onDied);
            if onDied == 0 then s' == s && r' == 0
            else && r' == s.nextDeath && s' == s.(recipients := s'.recipients, nextDeath := r' + 1)
                 && r' in s'.recipients && s'.recipients[r'].onDied == onDied && s'.recipients[r'].onUnlinked == 0
                 && OtherRecipientsSame(s.recipients, s'.recipients, r')
    ensures var s' := DeathSetUnlinked(s, r, f);
            if r !in s.recipients then s' == s
            else && s' == s.(recipients := s'.recipients) && OtherRecipientsSame(s.recipients, s'.recipients, r)
                 && r in s'.recipients && s'.recipients[r] == s.recipients[r].(onUnlinked := f)
  {
  }

  /** AIBinder_DeathRecipient_delete: the recipient goes, and with it exactly its links. */
  ghost predicate RecipientGone(s: State, s': State, r: nat) {
    if r !in s.recipients then s' == s
    else
      && s' == s.(services := s'.services, recipients := s'.recipients, ended := s'.ended)
      && r !in s'.recipients && OtherRecipientsSame(s.recipients, s'.recipients, r)
      && s'.services.Keys == s.services.Keys
      && (forall h :: h in s.services ==> s'.services[h] == s.services[h].(links := s'.services[h].links))
      && (forall h, link :: h in s.services ==>
            multiset(s'.services[h].links)[link] == if link.recipient == r then 0 else multiset(s.services[h].links)[link])
  }

  lemma DeathDeleteMeans(s: State, r: nat)
    ensures RecipientGone(s, DeathDelete(s, r), r)
  {
    forall h, link | h in s.services
      ensures multiset(KeepLinks(s.services[h].links, r))[link] == if link.recipient == r then 0 else multiset(s.services[h].links)[link]
    {
      KeepMeans(s.services[h].links, r, link);
    }
  }

  lemma {:induction false} KeepMeans(links: seq<DeathLink>, r: nat, link: DeathLink)
    ensures multiset(KeepLinks(links, r))[link] == if link.recipient == r then 0 else multiset(links)[link]
  {
    if links != [] {
      assert links == [links[0]] + links[1..];
      KeepMeans(links[1..], r, link);
    }
  }

  /** Some link of the service has this recipient and cookie. */
  ghost predicate Linked(v: Service, r: nat, cookie: nat) {
    exists i :: 0 <= i < |v.links| && v.links[i].recipient == r && v.links[i].cookie == cookie
  }

  /** AIBinder_linkToDeath: when each status is given, and what the attempt changes. A valid attempt that
      fails ends its link at once. */
  ghost predicate LinkTried(s: State, s': State, h: nat, r: nat, cookie: nat, status: Status) {
    && (status == BadValue <==> h !in s.services || r !in s.recipients)
    && (h in s.services && r in s.recipients ==>
          var v, link := s.services[h], DeathLink(r, cookie, s.recipients[r].onDied, s.recipients[r].onUnlinked);
          && (status == DeadObject <==> !v.alive)
          && (status == InvalidOperation <==> v.alive && !v.remote)
          && (status == AlreadyExists <==> v.alive && v.remote && Linked(v, r, cookie))
          && (status == Okay <==> v.alive && v.remote && !Linked(v, r, cookie))
          && s'.attempted == s.attempted + multiset{link}
          && (status == Okay ==>
                && s' == s.(services := s'.services, attempted := s'.attempted)
                && h in s'.services && OthersSame(s.services, s'.services, h)
                && s'.services[h] == v.(links := v.links + [link]))
          && (status != Okay ==>
                s' == s.(ended := s'.ended, attempted := s'.attempted) && s'.ended == s.ended + multiset{link}))
    && (status == BadValue ==> s' == s)
  }

  lemma LinkMeans(s: State, h: nat, r: nat, cookie: nat)
    ensures LinkTried(s, Link(s, h, r, cookie).0, h, r, cookie, Link(s, h, r, cookie).1)
  {
    if h in s.services {
      var i := FindLink(s.services[h].links, r, cookie);
      assert i < |s.services[h].links| <==> Linked(s.services[h], r, cookie);
    }
  }

  /** AIBinder_unlinkToDeath: the first link with the recipient and the cookie goes, and is ended. */
  ghost predicate UnlinkTried(s: State, s': State, h: nat, r: nat, cookie: nat, status: Status) {
    && (status == BadValue <==> h !in s.services || r !in s.recipients)
    && (h in s.services && r in s.recipients ==>
          var v := s.services[h];
          && (status == NameNotFound <==> !Linked(v, r, cookie))
          && (status == Okay <==> Linked(v, r, cookie))
          && (status == Okay ==> exists i ::
                && 0 <= i < |v.links| && v.links[i].recipient == r && v.links[i].cookie == cookie
                && (forall j :: 0 <= j < i ==> !(v.links[j].recipient == r && v.links[j].cookie == cookie))
                && s' == s.(services := s'.services, ended := s'.ended)
                && h in s'.services && OthersSame(s.services, s'.services, h)
                && s'.services[h] == v.(links := v.links[..i] + v.links[i + 1..])
                && s'.ended == s.ended + multiset{v.links[i]}))
    && (status != Okay ==> s' == s)
  }

  lemma UnlinkMeans(s: State, h: nat, r: nat, cookie: nat)
    ensures UnlinkTried(s, Unlink(s, h, r, cookie).0, h, r, cookie, Unlink(s, h, r, cookie).1)
  {
    if h in s.services {
      var i := FindLink(s.services[h].links, r, cookie);
      assert i < |s.services[h].links| <==> Linked(s.services[h], r, cookie);
    }
  }

  /** A binder's death: once, unpublished, with every link told of it and ended. */
  ghost predicate Died(s: State, s': State, h: nat, status: Status) {
    && (status == BadValue <==> h !in s.services)
    && (h in s.services ==>
          && (status == DeadObject <==> !s.services[h].alive)
          && (status == Okay <==> s.services[h].alive))
    && (status != Okay ==> s' == s)
    && (status == Okay ==>
         && s' == s.(services := s'.services, names := s'.names, died := s'.died, ended := s'.ended)
         && h in s'.services && OthersSame(s.services, s'.services, h)
         && s'.services[h] == s.services[h].(alive := false, links := [])
         && (forall n :: n in s'.names <==> n in s.names && s.names[n] != h)
         && (forall n :: n in s'.names ==> s'.names[n] == s.names[n])
         && s'.died == s.died + multiset(s.services[h].links) && s'.ended == s.ended + multiset(s.services[h].links))
  }

  lemma RetireMeans(s: State, h: nat)
    ensures Died(s, Retire(s, h).0, h, Retire(s, h).1)
  {
  }

  /** A transaction the daemon did not deliver: the binder is dead, but nobody is told. */
  lemma DaemonLostMeans(s: State, h: nat)
    ensures var s' := DaemonLost(s, h);
            if h in s.services && s.services[h].alive && s.services[h].remote && s.services[h].daemonOwned then
              && s' == s.(services := s'.services) && h in s'.services && OthersSame(s.services, s'.services, h)
              && s'.services[h] == s.services[h].(alive := false)
            else s' == s
  {
  }

  // ---- classes ---------------------------------------------------------------------------------------------

  lemma ClassMeans(s: State, descriptor: string, onCreate: nat, onDestroy: nat, h: nat, cls: nat)
    ensures var (s', c) := ClassDefine(s, descriptor, onCreate, onDestroy);
            if descriptor == "" then s' == s && c == 0
            else && c == s.nextClass && s' == s.(classes := s'.classes, nextClass := c + 1)
                 && c in s'.classes && s'.classes[c].descriptor == descriptor
                 && s'.classes[c].onCreate == onCreate && s'.classes[c].onDestroy == onDestroy
                 && (forall k :: k != c ==> (k in s'.classes <==> k in s.classes))
                 && (forall k :: k != c && k in s.classes ==> s'.classes[k] == s.classes[k])
    ensures var (s', ok) := AssociateClass(s, h, cls);
            && (ok <==> h in s.services && cls in s.classes)
            && (!ok ==> s' == s)
            && (ok ==> s' == s.(services := s'.services) && h in s'.services && OthersSame(s.services, s'.services, h)
                       && s'.services[h] == s.services[h].(classHandle := cls))
  {
  }
}
