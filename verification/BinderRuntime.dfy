/** The runtime object behind the libbinder handlers. Each handler updates the tables in place, does
    exactly what the corresponding function of the model says, keeps the object's invariant, and
    tells its caller what the result is good for. */
module BinderRuntime {
  import opened BinderModel
  import Lifetime = BinderLifetime
  import Death = BinderDeath
  import Meaning = BinderMeaning

  class Binder {
    var services: map<nat, Service>
    var nextBinder: nat
    var names: map<string, nat>
    var removed: set<string>
    var classes: map<nat, Class>
    var nextClass: nat
    var weaks: map<nat, nat>
    var nextWeak: nat
    var recipients: map<nat, Recipient>
    var nextDeath: nat
    /** What the guest is told of. */
    var destroyed: seq<nat>
    var died: multiset<DeathLink>
    /** The unlinked callbacks made. */
    var callbacks: multiset<DeathLink>
    /** History no handler looks at. */
    ghost var ended: multiset<DeathLink>
    ghost var attempted: multiset<DeathLink>
    ghost var held: map<nat, nat>

    constructor ()
      ensures Valid()
      ensures View() == Init(0xB1D0_0001, 0xB1C0_0001, 0xB1D4_0001, 0xB1D3_0001)
    {
      services, nextBinder, names, removed := map[], 0xB1D0_0001, map[], {};
      classes, nextClass, weaks, nextWeak := map[], 0xB1C0_0001, map[], 0xB1D4_0001;
      recipients, nextDeath := map[], 0xB1D3_0001;
      destroyed, died, callbacks, ended := [], multiset{}, multiset{}, multiset{};
      attempted, held := multiset{}, map[];
      new;
      InitSound(nextBinder, nextClass, nextWeak, nextDeath);
    }

    ghost function View(): State
      reads this
    {
      State(services, nextBinder, names, removed, classes, nextClass, weaks, nextWeak,
            recipients, nextDeath, destroyed, died, ended, attempted, held)
    }

    /** The tables are consistent, death links are accounted for, and fresh handles are fresh. */
    ghost predicate Valid()
      reads this
    {
      && Sound(View()) && Tallied(callbacks, ended)
      && nextWeak > 0 && nextDeath > 0 && forall r :: r in recipients ==> r < nextDeath
    }

    // ---- helpers with loops ---------------------------------------------------------------

    /** Erases every name of a handle and marks it removed. */
    method RemoveNames(h: nat)
      modifies this`names, this`removed
      ensures names == old(names) - NamesOf(old(names), h)
      ensures removed == old(removed) + NamesOf(old(names), h)
    {
      var todo := names.Keys;
      ghost var seen: set<string> := {};
      while todo != {}
        invariant seen + todo == old(names).Keys && seen !! todo
        invariant names == old(names) - (NamesOf(old(names), h) * seen)
        invariant removed == old(removed) + NamesOf(old(names), h) * seen
        decreases todo
      {
        var n :| n in todo;
        if names[n] == h {
          removed := removed + {n};
          names := names - {n};
        }
        todo, seen := todo - {n}, seen + {n};
      }
      assert NamesOf(old(names), h) * seen == NamesOf(old(names), h);
    }

    /** The notifier: a link without a callback is passed over in silence. */
    method NotifyEnded(link: DeathLink)
      requires Tallied(callbacks, ended)
      modifies this`ended, this`callbacks
      ensures Tallied(callbacks, ended) && ended == old(ended) + multiset{link}
    {
      ended := ended + multiset{link};
      if link.onUnlinked != 0 {
        callbacks := callbacks + multiset{link};
      }
    }

    method NotifyUnlinked(links: seq<DeathLink>)
      requires Tallied(callbacks, ended)
      modifies this`ended, this`callbacks
      ensures Tallied(callbacks, ended)
      ensures ended == old(ended) + multiset(links)
    {
      for i := 0 to |links|
        invariant Tallied(callbacks, ended) && ended == old(ended) + multiset(links[..i])
      {
        assert links[..i + 1] == links[..i] + [links[i]];
        NotifyEnded(links[i]);
      }
      assert links[..|links|] == links;
    }

    // ---- strong references ----------------------------------------------------------------

    method DestroyService(h: nat)
      requires h in services
      requires Tallied(callbacks, ended)
      modifies this`services, this`names, this`removed, this`destroyed, this`ended, this`callbacks
      ensures Tallied(callbacks, ended)
      ensures services == old(services) - {h} && destroyed == old(destroyed) + [h]
      ensures names == old(names) - NamesOf(old(names), h) && removed == old(removed) + NamesOf(old(names), h)
      ensures ended == old(ended) + multiset(old(services)[h].links)
    {
      destroyed := destroyed + [h];
      NotifyUnlinked(services[h].links);
      RemoveNames(h);
      services := services - {h};
    }

    method CountDown(h: nat)
      requires h in services && services[h].refCount > 1
      modifies this`services
      ensures View() == Release(old(View()), h)
    {
      services := services[h := services[h].(refCount := services[h].refCount - 1)];
    }

    method ReleaseStrong(h: nat)
      requires Tallied(callbacks, ended)
      modifies this`services, this`names, this`removed, this`destroyed, this`ended, this`callbacks
      ensures Tallied(callbacks, ended)
      ensures View() == Release(old(View()), h)
      decreases |services|
    {
      if h !in services {
        return;
      }
      var service := services[h];
      if service.remote {
        if service.refCount > 1 {
          CountDown(h);
        }
        return;
      }
      if service.refCount > 1 {
        CountDown(h);
        return;
      }
      ghost var s := View();
      EraseShrinks(services, h);
      DestroyService(h);
      assert View() == Destroy(s, h);
      if service.extension != 0 {
        ReleaseStrong(service.extension);
      }
    }

    method AIBinderNew(cls: nat, arg: nat, created: nat) returns (h: nat)
      requires Valid()
      modifies this`services, this`nextBinder, this`held
      ensures Valid()
      ensures (View(), h) == New(old(View()), cls, arg, created)
      ensures Meaning.Created(old(View()), View(), cls, arg, created, h)
      ensures h != 0 <==> cls in classes
      ensures h != 0 ==> h !in old(services) && h !in destroyed && services.Keys == old(services).Keys + {h}
      ensures h != 0 ==> services[h].alive && !services[h].remote && services[h].refCount == 1 == Held(held, h)
    {
      Meaning.NewMeans(View(), cls, arg, created);
      NewMeans(View(), cls, arg, created);
      h := Create(cls, arg, created);
    }

    method Create(cls: nat, arg: nat, created: nat) returns (h: nat)
      modifies this`services, this`nextBinder, this`held
      ensures (View(), h) == New(old(View()), cls, arg, created)
    {
      if cls !in classes {
        return 0;
      }
      var userData := arg;
      if classes[cls].onCreate != 0 {
        userData := created;
      }
      h := nextBinder;
      nextBinder := nextBinder + 1;
      services := services[h := Service(classes[cls].descriptor, 1, true, false, false, cls, userData, 0, [])];
      held := held[h := 1];
    }

    method IncStrong(h: nat)
      requires Valid()
      modifies this`services, this`held
      ensures Valid()
      ensures View() == BinderModel.IncStrong(old(View()), h) && Meaning.Raised(old(View()), View(), h)
      ensures h in old(held) && h in services && 0 < old(services)[h].refCount < 0xffff_ffff ==>
                BinderModel.DecStrong(View(), h) == old(View())
    {
      Meaning.IncMeans(View(), h);
      IncMeans(View(), h);
      if h in services && 0 < services[h].refCount < 0xffff_ffff && h in held {
        IncUndone(View(), h);
      }
      CountUp(h);
    }

    method CountUp(h: nat)
      modifies this`services, this`held
      ensures View() == BinderModel.IncStrong(old(View()), h)
    {
      if h in services {
        services := services[h := Counted(services[h])];
        held := Grant(held, h);
      }
    }

    method DecStrong(h: nat)
      requires Valid()
      modifies this`services, this`names, this`removed, this`destroyed, this`ended, this`callbacks, this`held
      ensures Valid()
      ensures View() == BinderModel.DecStrong(old(View()), h)
      ensures Meaning.Released(old(View()).(held := Drop(old(held), h)), View(), h)
      ensures Erased(old(services), services, old(destroyed), destroyed)
    {
      Meaning.ReleaseMeans(View().(held := Drop(held, h)), h);
      DecMeans(View(), h);
      ReleaseErases(View().(held := Drop(held, h)), h);
      held := Drop(held, h);
      ReleaseStrong(h);
    }

    method SetExtension(h: nat, e: nat) returns (r: Status)
      requires Valid()
      modifies this`services, this`names, this`removed, this`destroyed, this`ended, this`callbacks
      ensures Valid()
      ensures (View(), r) == BinderModel.SetExtension(old(View()), h, e)
      ensures Meaning.ExtensionSet(old(View()), View(), h, e, r)
      ensures r != Okay ==> View() == old(View())
      ensures r == Okay && h in services ==> services[h].extension == e
      ensures Erased(old(services), services, old(destroyed), destroyed)
    {
      Meaning.SetExtensionMeans(View(), h, e);
      SetExtensionMeans(View(), h, e);
      r := ChangeExtension(h, e);
    }

    method ChangeExtension(h: nat, e: nat) returns (r: Status)
      requires Tallied(callbacks, ended)
      modifies this`services, this`names, this`removed, this`destroyed, this`ended, this`callbacks
      ensures Tallied(callbacks, ended)
      ensures (View(), r) == BinderModel.SetExtension(old(View()), h, e)
    {
      if h == 0 || e == 0 { return UnexpectedNull; }
      if h !in services || e !in services { return BadValue; }
      if !services[h].alive || !services[e].alive { return DeadObject; }
      if services[h].remote { return InvalidOperation; }
      if services[h].extension == e { return Okay; }
      services := services[e := Counted(services[e])];
      var prior := services[h].extension;
      services := services[h := services[h].(extension := e)];
      if prior != 0 {
        ReleaseStrong(prior);
      }
      r := Okay;
    }

    method GetExtension(h: nat, out: bool) returns (e: nat, r: Status)
      requires Valid()
      modifies this`services, this`held
      ensures Valid()
      ensures (View(), e, r) == BinderModel.GetExtension(old(View()), h, out)
      ensures Meaning.ExtensionGot(old(View()), View(), h, out, e, r)
      ensures e != 0 ==> r == Okay && h in services && services[h].extension == e && e in services && services[e].alive
      ensures e == 0 ==> View() == old(View())
      ensures e == 0 && r == Okay ==> h in services && services[h].extension == 0
    {
      Meaning.GetExtensionMeans(View(), h, out);
      GetExtensionMeans(View(), h, out);
      e, r := TakeExtension(h, out);
    }

    method TakeExtension(h: nat, out: bool) returns (e: nat, r: Status)
      modifies this`services, this`held
      ensures (View(), e, r) == BinderModel.GetExtension(old(View()), h, out)
    {
      if h == 0 { return 0, UnexpectedNull; }
      if !out || h !in services { return 0, BadValue; }
      e := services[h].extension;
      if e == 0 { return 0, Okay; }
      if e !in services || !services[e].alive { return 0, DeadObject; }
      services := services[e := Counted(services[e])];
      held := Grant(held, e);
      r := Okay;
    }

    // ---- names ---------------------------------------------------------------------------

    method ServiceHandle(name: string, owned: bool) returns (h: nat)
      requires Valid()
      modifies this`services, this`nextBinder, this`names, this`held
      ensures Valid()
      ensures (View(), h) == GetService(old(View()), name, owned)
      ensures Meaning.LookedUp(old(View()), View(), name, owned, h)
      ensures h != 0 ==> name in names && names[name] == h && services[h].alive && name !in removed
      ensures h != 0 && h !in old(services) ==> services[h].remote && h !in destroyed
      ensures h == 0 <==> name == "" || (name in removed && name !in names)
    {
      Meaning.GetServiceMeans(View(), name, owned);
      GetServiceMeans(View(), name, owned);
      h := LookUp(name, owned);
    }

    method LookUp(name: string, owned: bool) returns (h: nat)
      modifies this`services, this`nextBinder, this`names, this`held
      ensures (View(), h) == GetService(old(View()), name, owned)
    {
      if name == "" {
        h := 0;
      } else if name in names && names[name] in services && services[names[name]].alive {
        h := names[name];
      } else {
        if name in names {
          names := names - {name};
        }
        assert names == old(names) - {name};
        if name in removed {
          h := 0;
        } else {
          h := nextBinder;
          nextBinder := nextBinder + 1;
          services := services[h := Service(name, 1, true, true, owned, 0, 0, 0, [])];
          names := names[name := h];
          held := held[h := 1];
        }
      }
    }

    method AddService(h: nat, name: string) returns (r: Status)
      requires Valid()
      modifies this`services, this`names, this`removed
      ensures Valid()
      ensures (View(), r) == BinderModel.AddService(old(View()), h, name)
      ensures Meaning.Published(old(View()), View(), h, name, r)
      ensures r == Okay ==> name in names && names[name] == h && name !in removed && !services[h].remote
      ensures r == AlreadyExists ==> name in names && names[name] != h && services[names[name]].alive
      ensures r != Okay ==> View() == old(View())
    {
      Meaning.AddServiceMeans(View(), h, name);
      AddServiceMeans(View(), h, name);
      r := Publish(h, name);
    }

    method Publish(h: nat, name: string) returns (r: Status)
      modifies this`services, this`names, this`removed
      ensures (View(), r) == BinderModel.AddService(old(View()), h, name)
    {
      if name == "" || h !in services || !services[h].alive || services[h].remote { return BadValue; }
      if name in names && names[name] != h {
        if names[name] in services && services[names[name]].alive { return AlreadyExists; }
      }
      names := names[name := h];
      removed := removed - {name};
      services := services[h := services[h].(name := name)];
      r := Okay;
    }

    // ---- weak references --------------------------------------------------------------------

    method WeakNew(h: nat) returns (w: nat)
      requires Valid()
      modifies this`weaks, this`nextWeak
      ensures Valid()
      ensures (View(), w) == BinderModel.WeakNew(old(View()), h)
      ensures h in services ==> Meaning.WeakMade(old(View()), View(), h, w)
      ensures h !in services ==> View() == old(View())
      ensures w != 0 <==> h in services
      ensures w != 0 ==> w !in old(weaks) && (services[h].alive ==> BinderModel.WeakPromote(View(), w).1 == h)
    {
      Meaning.WeakMeans(View(), h);
      WeakNewMeans(View(), h);
      if h !in services { return 0; }
      w := nextWeak;
      nextWeak := nextWeak + 1;
      weaks := weaks[w := h];
    }

    method WeakDelete(w: nat)
      requires Valid()
      modifies this`weaks
      ensures Valid()
      ensures View() == BinderModel.WeakDelete(old(View()), w)
      ensures w !in weaks && Meaning.OtherWeaksSame(old(weaks), weaks, w)
      ensures BinderModel.WeakPromote(View(), w).1 == 0
      ensures forall other :: other != w ==>
                BinderModel.WeakPromote(View(), other).1 == BinderModel.WeakPromote(old(View()), other).1
    {
      WeakDeleteMeans(View(), w);
      weaks := weaks - {w};
    }

    method WeakPromote(w: nat) returns (h: nat)
      requires Valid()
      modifies this`services, this`held
      ensures Valid()
      ensures (View(), h) == BinderModel.WeakPromote(old(View()), w)
      ensures Meaning.Promoted(old(View()), View(), w, h)
      ensures h != 0 ==> w in weaks && weaks[w] == h && h in services && services[h].alive && h !in destroyed
      ensures h == 0 <==> w !in weaks || weaks[w] !in services || !services[weaks[w]].alive
      ensures h == 0 ==> View() == old(View())
    {
      Meaning.PromoteMeans(View(), w);
      WeakPromoteMeans(View(), w);
      h := Promote(w);
    }

    method Promote(w: nat) returns (h: nat)
      modifies this`services, this`held
      ensures (View(), h) == BinderModel.WeakPromote(old(View()), w)
    {
      if w !in weaks { return 0; }
      h := weaks[w];
      if h !in services || !services[h].alive { return 0; }
      services := services[h := Counted(services[h])];
      held := Grant(held, h);
    }

    method WeakClone(w: nat) returns (clone: nat)
      requires Valid()
      modifies this`weaks, this`nextWeak
      ensures Valid()
      ensures (View(), clone) == BinderModel.WeakClone(old(View()), w)
      ensures w in old(weaks) ==> Meaning.WeakMade(old(View()), View(), old(weaks)[w], clone)
      ensures w !in old(weaks) ==> View() == old(View())
      ensures clone != 0 <==> w in old(weaks)
      ensures clone != 0 ==> clone !in old(weaks) && w in weaks &&
                             BinderModel.WeakPromote(View(), clone).1 == BinderModel.WeakPromote(View(), w).1
    {
      Meaning.WeakMeans(View(), w);
      WeakCloneMeans(View(), w);
      if w !in weaks { return 0; }
      clone := nextWeak;
      nextWeak := nextWeak + 1;
      weaks := weaks[clone := weaks[w]];
    }

    // ---- death links -------------------------------------------------------------------------

    method DeathRecipientNew(onDied: nat) returns (r: nat)
      requires Valid()
      modifies this`recipients, this`nextDeath
      ensures Valid()
      ensures (View(), r) == DeathNew(old(View()), onDied)
      ensures r != 0 <==> onDied != 0
      ensures r != 0 ==> r !in old(recipients) && r in recipients && recipients[r] == Recipient(onDied, 0)
      ensures Meaning.OtherRecipientsSame(old(recipients), recipients, r)
      ensures r != 0 ==> forall h, i :: h in services && 0 <= i < |services[h].links| ==> services[h].links[i].recipient != r
    {
      DeathNewMeans(View(), onDied);
      RecipientsOf(View());
      if onDied == 0 { return 0; }
      r := nextDeath;
      nextDeath := nextDeath + 1;
      recipients := recipients[r := Recipient(onDied, 0)];
    }

    method SetOnUnlinked(r: nat, f: nat)
      requires Valid()
      modifies this`recipients
      ensures Valid()
      ensures View() == DeathSetUnlinked(old(View()), r, f)
      ensures r in recipients ==> recipients[r] == old(recipients)[r].(onUnlinked := f)
      ensures forall h, cookie :: r in recipients && LinkStatus(View(), h, r, cookie) == Okay ==>
                NewLink(View(), r, cookie).onUnlinked == f
      ensures recipients.Keys == old(recipients).Keys && forall q :: q in recipients && q != r ==> recipients[q] == old(recipients)[q]
    {
      SetUnlinkedMeans(View(), r, f);
      if r in recipients {
        recipients := recipients[r := recipients[r].(onUnlinked := f)];
      }
    }

    /** Removes the links of one recipient from one service, notifying each. */
    method RemoveFrom(links: seq<DeathLink>, r: nat) returns (kept: seq<DeathLink>)
      requires Tallied(callbacks, ended)
      modifies this`ended, this`callbacks
      ensures Tallied(callbacks, ended)
      ensures kept == KeepLinks(links, r)
      ensures ended == old(ended) + multiset(DropLinks(links, r))
    {
      kept := [];
      assert links[0..] == links;
      for i := 0 to |links|
        invariant kept + KeepLinks(links[i..], r) == KeepLinks(links, r)
        invariant Tallied(callbacks, ended)
        invariant ended + multiset(DropLinks(links[i..], r)) == old(ended) + multiset(DropLinks(links, r))
      {
        assert links[i..][1..] == links[i + 1..];
        if links[i].recipient == r {
          NotifyEnded(links[i]);
        } else {
          kept := kept + [links[i]];
        }
      }
    }

    method RemoveRecipientLinks(r: nat)
      requires Death.Below(services, nextBinder)
      requires Tallied(callbacks, ended)
      modifies this`services, this`ended, this`callbacks
      ensures Tallied(callbacks, ended)
      ensures services == WithoutRecipient(old(services), r)
      ensures ended == old(ended) + AllDropped(old(services), r, nextBinder)
    {
      var todo := services.Keys;
      ghost var seen: set<nat>, before, start := {}, services, ended;
      DroppedNone(before, r, nextBinder);
      while todo != {}
        invariant todo <= before.Keys && seen == before.Keys - todo
        invariant services == Partly(before, r, seen)
        invariant Tallied(callbacks, ended) && ended == start + DroppedIn(before, r, nextBinder, seen)
        decreases todo
      {
        var h :| h in todo;
        DroppedOne(before, r, nextBinder, seen, h);
        PartlyOne(before, r, seen, h);
        var kept := RemoveFrom(services[h].links, r);
        services := services[h := services[h].(links := kept)];
        todo, seen := todo - {h}, seen + {h};
      }
      DroppedAll(before, r, nextBinder, seen);
    }

    method DeathRecipientDelete(r: nat)
      requires Valid()
      modifies this`services, this`ended, this`callbacks, this`recipients
      ensures Valid()
      ensures View() == DeathDelete(old(View()), r) && Meaning.RecipientGone(old(View()), View(), r)
      ensures r !in recipients
      ensures forall h, i :: h in services && 0 <= i < |services[h].links| ==> services[h].links[i].recipient != r
    {
      Meaning.DeathDeleteMeans(View(), r);
      DeathDeleteMeans(View(), r);
      RecipientsOf(DeathDelete(View(), r));
      ForgetRecipient(r);
    }

    method ForgetRecipient(r: nat)
      requires Death.Below(services, nextBinder)
      requires Tallied(callbacks, ended)
      modifies this`services, this`ended, this`callbacks, this`recipients
      ensures Tallied(callbacks, ended)
      ensures View() == DeathDelete(old(View()), r)
    {
      if r !in recipients { return; }
      RemoveRecipientLinks(r);
      assert View() == old(View()).(services := services, ended := ended);
      recipients := recipients - {r};
    }

    method LinkToDeath(h: nat, r: nat, cookie: nat) returns (status: Status)
      requires Valid()
      modifies this`services, this`ended, this`callbacks, this`attempted
      ensures Valid()
      ensures (View(), status) == Link(old(View()), h, r, cookie)
      ensures Meaning.LinkTried(old(View()), View(), h, r, cookie, status)
    {
      Meaning.LinkMeans(View(), h, r, cookie);
      LinkMeans(View(), h, r, cookie);
      status := AddLink(h, r, cookie);
    }

    method AddLink(h: nat, r: nat, cookie: nat) returns (status: Status)
      requires Tallied(callbacks, ended)
      modifies this`services, this`ended, this`callbacks, this`attempted
      ensures Tallied(callbacks, ended)
      ensures (View(), status) == Link(old(View()), h, r, cookie)
    {
      if h !in services || r !in recipients { return BadValue; }
      var link := DeathLink(r, cookie, recipients[r].onDied, recipients[r].onUnlinked);
      attempted := attempted + multiset{link};
      if !services[h].alive {
        NotifyEnded(link);
        return DeadObject;
      }
      if !services[h].remote {
        NotifyEnded(link);
        return InvalidOperation;
      }
      var i := SearchLink(services[h].links, r, cookie);
      if i < |services[h].links| {
        NotifyEnded(link);
        return AlreadyExists;
      }
      services := services[h := services[h].(links := services[h].links + [link])];
      status := Okay;
    }

    method UnlinkToDeath(h: nat, r: nat, cookie: nat) returns (status: Status)
      requires Valid()
      modifies this`services, this`ended, this`callbacks
      ensures Valid()
      ensures (View(), status) == Unlink(old(View()), h, r, cookie)
      ensures Meaning.UnlinkTried(old(View()), View(), h, r, cookie, status)
    {
      Meaning.UnlinkMeans(View(), h, r, cookie);
      UnlinkMeans(View(), h, r, cookie);
      status := DropLink(h, r, cookie);
    }

    method DropLink(h: nat, r: nat, cookie: nat) returns (status: Status)
      requires Tallied(callbacks, ended)
      modifies this`services, this`ended, this`callbacks
      ensures Tallied(callbacks, ended)
      ensures (View(), status) == Unlink(old(View()), h, r, cookie)
    {
      if h !in services || r !in recipients { return BadValue; }
      var links := services[h].links;
      var i := SearchLink(links, r, cookie);
      if i == |links| { return NameNotFound; }
      services := services[h := services[h].(links := links[..i] + links[i + 1..])];
      NotifyEnded(links[i]);
      status := Okay;
    }

    /** A service marked dead; each link is notified of the death and then ended. */
    method RetireService(h: nat) returns (status: Status)
      requires Valid()
      modifies this`services, this`names, this`died, this`ended, this`callbacks
      ensures Valid()
      ensures (View(), status) == Retire(old(View()), h)
      ensures Meaning.Died(old(View()), View(), h, status)
      ensures h in services ==> !services[h].alive
      ensures forall w :: w in weaks && weaks[w] == h ==> BinderModel.WeakPromote(View(), w).1 == 0
    {
      Meaning.RetireMeans(View(), h);
      RetireMeans(View(), h);
      status := MarkDead(h);
    }

    method MarkDead(h: nat) returns (status: Status)
      requires Tallied(callbacks, ended)
      modifies this`services, this`names, this`died, this`ended, this`callbacks
      ensures Tallied(callbacks, ended)
      ensures (View(), status) == Retire(old(View()), h)
    {
      if h !in services {
        status := BadValue;
      } else if !services[h].alive {
        status := DeadObject;
      } else {
        RetireAlive(h);
        status := Okay;
      }
    }

    method RetireAlive(h: nat)
      requires h in services && services[h].alive
      requires Tallied(callbacks, ended)
      modifies this`services, this`names, this`died, this`ended, this`callbacks
      ensures Tallied(callbacks, ended)
      ensures services == old(services)[h := old(services)[h].(alive := false, links := [])]
      ensures names == old(names) - NamesOf(old(names), h)
      ensures died == old(died) + multiset(old(services)[h].links)
      ensures ended == old(ended) + multiset(old(services)[h].links)
    {
      var links := services[h].links;
      services := services[h := services[h].(alive := false)];
      DropNames(h);
      NotifyDied(links);
      UpdateTwice(old(services), h, services[h], services[h].(links := []));
      services := services[h := services[h].(links := [])];
    }

    method DropNames(h: nat)
      modifies this`names
      ensures names == old(names) - NamesOf(old(names), h)
    {
      var todo := names.Keys;
      ghost var seen: set<string> := {};
      while todo != {}
        invariant seen + todo == old(names).Keys && seen !! todo
        invariant names == old(names) - (NamesOf(old(names), h) * seen)
        decreases todo
      {
        var n :| n in todo;
        if names[n] == h {
          names := names - {n};
        }
        todo, seen := todo - {n}, seen + {n};
      }
      assert NamesOf(old(names), h) * seen == NamesOf(old(names), h);
    }

    method NotifyDied(links: seq<DeathLink>)
      requires Tallied(callbacks, ended)
      modifies this`died, this`ended, this`callbacks
      ensures Tallied(callbacks, ended)
      ensures died == old(died) + multiset(links) && ended == old(ended) + multiset(links)
    {
      for i := 0 to |links|
        invariant Tallied(callbacks, ended)
        invariant died == old(died) + multiset(links[..i]) && ended == old(ended) + multiset(links[..i])
      {
        assert links[..i + 1] == links[..i] + [links[i]];
        died := died + multiset{links[i]};
        NotifyEnded(links[i]);
      }
      assert links[..|links|] == links;
    }

    /** The branch of a transaction whose delivery to the daemon failed. */
    method DaemonTransactFailed(h: nat)
      requires Valid()
      modifies this`services
      ensures Valid()
      ensures View() == DaemonLost(old(View()), h)
      ensures h in services ==> services[h] == old(services)[h].(alive := services[h].alive)
      ensures h in services ==> (services[h].alive <==> old(services)[h].alive && !(services[h].remote && services[h].daemonOwned))
      ensures h in services && services[h].remote && services[h].daemonOwned ==> !services[h].alive
      ensures services.Keys == old(services).Keys
      ensures forall k :: k in services && k != h ==> services[k] == old(services)[k]
    {
      DaemonLostMeans(View(), h);
      LoseDaemon(h);
    }

    method LoseDaemon(h: nat)
      modifies this`services
      ensures View() == DaemonLost(old(View()), h)
    {
      if h in services && services[h].alive && services[h].remote && services[h].daemonOwned {
        services := services[h := services[h].(alive := false)];
      }
    }
  }

  /** What every reachable state has. */
  ghost predicate Sound(s: State) {
    Lifetime.TablesValid(s) && Death.DeathValid(s) && s.nextBinder > 0
  }

  lemma StepSound(s: State, op: Op)
    requires Sound(s)
    ensures Sound(Step(s, op))
  {
    Lifetime.StepValid(s, op);
    Death.StepValid(s, op);
  }

  lemma InitSound(binder: nat, cls: nat, weak: nat, death: nat)
    requires binder > 0
    ensures Sound(Init(binder, cls, weak, death))
  {
    Death.NoLinks(binder);
  }

  // ---- what results are good for ------------------------------------------------------------

  lemma IncUndone(s: State, h: nat)
    requires h in s.services && 0 < s.services[h].refCount < 0xffff_ffff && h in s.held
    ensures BinderModel.DecStrong(BinderModel.IncStrong(s, h), h) == s
  {
    var s1 := BinderModel.IncStrong(s, h);
    assert s1.services[h := s1.services[h].(refCount := s.services[h].refCount)] == s.services;
    assert Drop(s1.held, h) == s.held;
  }

  lemma SetExtensionMeans(s: State, h: nat, e: nat)
    requires Sound(s)
    ensures var s', r := BinderModel.SetExtension(s, h, e).0, BinderModel.SetExtension(s, h, e).1;
            && Sound(s') && (r != Okay ==> s' == s)
            && (r == Okay && h in s'.services ==> s'.services[h].extension == e)
            && Erased(s.services, s'.services, s.destroyed, s'.destroyed)
  {
    Lifetime.SetExtensionValid(s, h, e);
    Death.SetExtensionValid(s, h, e);
    SetExtensionErases(s, h, e);
  }

  lemma SetExtensionErases(s: State, h: nat, e: nat)
    ensures var s', r := BinderModel.SetExtension(s, h, e).0, BinderModel.SetExtension(s, h, e).1;
            && (r == Okay && h in s'.services ==> s'.services[h].extension == e)
            && Erased(s.services, s'.services, s.destroyed, s'.destroyed)
  {
    if BinderModel.SetExtension(s, h, e).1 == Okay && s.services[h].extension != e {
      var s1 := SetService(s, e, Counted(s.services[e]));
      var s2 := SetService(s1, h, s1.services[h].(extension := e));
      var prior, s' := s1.services[h].extension, BinderModel.SetExtension(s, h, e).0;
      assert s' == if prior != 0 then Release(s2, prior) else s2;
      if prior != 0 {
        RewiredReleases(s, s2, h, prior);
      }
    }
  }

  lemma RewiredReleases(s: State, s2: State, h: nat, prior: nat)
    requires s2.services.Keys == s.services.Keys && s2.destroyed == s.destroyed && h in s2.services
    ensures Erased(s.services, Release(s2, prior).services, s.destroyed, Release(s2, prior).destroyed)
    ensures h in Release(s2, prior).services ==> Release(s2, prior).services[h].extension == s2.services[h].extension
  {
    ReleaseErases(s2, prior);
    ReleaseKeepsEdges(s2, prior, h);
  }

  /** A lookup returns a living service that is published under the name, a new one only if it is
      remote, and nothing exactly when the name is empty or was removed. */
  lemma GetServiceMeans(s: State, name: string, owned: bool)
    requires Sound(s)
    ensures var s', h := GetService(s, name, owned).0, GetService(s, name, owned).1;
            && Sound(s')
            && (h != 0 ==> name in s'.names && s'.names[name] == h && h in s'.services && s'.services[h].alive && name !in s'.removed)
            && (h != 0 && h !in s.services ==> s'.services[h].remote && h !in s'.destroyed)
            && (h == 0 <==> name == "" || (name in s'.removed && name !in s'.names))
  {
    StepSound(s, OpGetService(name, owned));
  }

  /** Publishing succeeds for a living local binder, changes no other lookup, and is refused exactly
      when another living service has the name. */
  lemma AddServiceMeans(s: State, h: nat, name: string)
    requires Sound(s)
    ensures var s', r := BinderModel.AddService(s, h, name).0, BinderModel.AddService(s, h, name).1;
            && Sound(s') && (r != Okay ==> s' == s)
            && (r == Okay ==> name in s'.names && s'.names[name] == h && name !in s'.removed && !s'.services[h].remote)
            && (r == AlreadyExists ==> name in s.names && s.names[name] != h && s.services[s.names[name]].alive)
  {
    StepSound(s, OpAddService(h, name));
  }

  lemma AddServiceElsewhere(s: State, h: nat, name: string, other: string)
    requires other != name
    ensures GetService(BinderModel.AddService(s, h, name).0, other, false).1 == GetService(s, other, false).1
  {
  }

  lemma RetireMeans(s: State, h: nat)
    requires Sound(s)
    ensures var s' := Retire(s, h).0;
            && Sound(s') && (h in s'.services ==> !s'.services[h].alive)
            && forall w :: w in s'.weaks && s'.weaks[w] == h ==> BinderModel.WeakPromote(s', w).1 == 0
  {
    StepSound(s, OpKill(h));
  }

  /** A new binder has a handle that nothing has had before. */
  lemma NewMeans(s: State, cls: nat, arg: nat, created: nat)
    requires Sound(s)
    ensures Sound(New(s, cls, arg, created).0)
    ensures s.nextBinder !in s.services && s.nextBinder !in s.destroyed
  {
    Lifetime.NewValid(s, cls, arg, created);
    Death.NewValid(s, cls, arg, created);
  }

  lemma IncMeans(s: State, h: nat)
    requires Sound(s)
    ensures Sound(BinderModel.IncStrong(s, h))
  {
    Lifetime.IncValid(s, h);
    Death.IncValid(s, h);
  }

  lemma DecMeans(s: State, h: nat)
    requires Sound(s)
    ensures Sound(BinderModel.DecStrong(s, h))
  {
    Lifetime.DecValid(s, h);
    Death.DecValid(s, h);
  }

  /** An extension is handed out only while it is alive. */
  lemma GetExtensionMeans(s: State, h: nat, out: bool)
    requires Sound(s)
    ensures var (s', e, r) := BinderModel.GetExtension(s, h, out);
            && Sound(s') && (e == 0 ==> s' == s)
            && (e != 0 ==> r == Okay && h in s'.services && s'.services[h].extension == e && e in s'.services && s'.services[e].alive)
            && (e == 0 && r == Okay ==> h in s.services && s.services[h].extension == 0)
  {
    Lifetime.GetExtensionValid(s, h, out);
    Death.GetExtensionValid(s, h, out);
  }

  lemma WeakNewMeans(s: State, h: nat)
    requires Sound(s)
    ensures Sound(BinderModel.WeakNew(s, h).0) && s.nextWeak !in s.weaks
  {
    Lifetime.WeakNewValid(s, h);
    Death.TableValid(s, OpWeakNew(h));
  }

  lemma WeakDeleteMeans(s: State, w: nat)
    requires Sound(s)
    ensures Sound(BinderModel.WeakDelete(s, w))
  {
    Lifetime.WeakDeleteValid(s, w);
    Death.TableValid(s, OpWeakDelete(w));
  }

  lemma WeakCloneMeans(s: State, w: nat)
    requires Sound(s)
    ensures Sound(BinderModel.WeakClone(s, w).0) && s.nextWeak !in s.weaks
  {
    Lifetime.WeakCloneValid(s, w);
    Death.TableValid(s, OpWeakClone(w));
  }

  /** A weak reference promotes to its target exactly while that is alive. */
  lemma WeakPromoteMeans(s: State, w: nat)
    requires Sound(s)
    ensures var s', h := BinderModel.WeakPromote(s, w).0, BinderModel.WeakPromote(s, w).1;
            && Sound(s') && (h == 0 ==> s' == s)
            && (h != 0 ==> w in s.weaks && s.weaks[w] == h && h in s'.services && s'.services[h].alive && h !in s.destroyed)
            && (h == 0 <==> w !in s.weaks || s.weaks[w] !in s.services || !s.services[s.weaks[w]].alive)
  {
    Lifetime.WeakPromoteValid(s, w);
    Death.WeakPromoteValid(s, w);
  }

  lemma DeathNewMeans(s: State, f: nat)
    requires Sound(s)
    ensures Sound(DeathNew(s, f).0)
  {
    Lifetime.DeathNewValid(s, f);
    Death.DeathNewValid(s, f);
  }

  lemma SetUnlinkedMeans(s: State, r: nat, f: nat)
    requires Sound(s)
    ensures Sound(DeathSetUnlinked(s, r, f))
  {
    Lifetime.SetUnlinkedValid(s, r, f);
    Death.SetUnlinkedValid(s, r, f);
  }

  lemma DeathDeleteMeans(s: State, r: nat)
    requires Sound(s)
    ensures Sound(DeathDelete(s, r))
  {
    Lifetime.DeathDeleteValid(s, r);
    Death.DeathDeleteValid(s, r);
  }

  /** A service whose daemon is lost is dead, so nothing can be linked to it; no other changes. */
  lemma DaemonLostMeans(s: State, h: nat)
    requires Sound(s)
    ensures var s' := DaemonLost(s, h);
            && Sound(s') && s'.services.Keys == s.services.Keys
            && (h in s'.services && s'.services[h].remote && s'.services[h].daemonOwned ==> !s'.services[h].alive)
            && (forall k :: k in s.services && k != h ==> s'.services[k] == s.services[k])
  {
    Lifetime.DaemonLostValid(s, h);
    Death.DaemonLostValid(s, h);
  }

  lemma LinkMeans(s: State, h: nat, r: nat, cookie: nat)
    requires Sound(s)
    ensures Sound(Link(s, h, r, cookie).0)
  {
    Lifetime.LinkValid(s, h, r, cookie);
    Death.LinkValid(s, h, r, cookie);
  }

  lemma UnlinkMeans(s: State, h: nat, r: nat, cookie: nat)
    requires Sound(s)
    ensures Sound(Unlink(s, h, r, cookie).0)
  {
    Lifetime.UnlinkValid(s, h, r, cookie);
    Death.UnlinkValid(s, h, r, cookie);
  }

  /** Exactly the services newly reported as destroyed are gone, and they were local. */
  ghost predicate Erased(before: map<nat, Service>, after: map<nat, Service>, was: seq<nat>, destroyed: seq<nat>) {
    && was <= destroyed && after.Keys <= before.Keys
    && forall h :: h in before && h !in after <==> h in destroyed[|was|..]
  }

  lemma {:induction false} ReleaseErases(s: State, h: nat)
    ensures Erased(s.services, Release(s, h).services, s.destroyed, Release(s, h).destroyed)
    decreases |s.services|
  {
    if h in s.services && s.services[h].refCount <= 1 && !s.services[h].remote {
      EraseShrinks(s.services, h);
      var s1 := Destroy(s, h);
      ErasedFirst(s, h);
      if s.services[h].extension != 0 {
        ReleaseErases(s1, s.services[h].extension);
        var s2 := Release(s1, s.services[h].extension);
        ErasedMore(s.services, s1.services, s2.services, s.destroyed, s1.destroyed, s2.destroyed);
      }
    }
  }

  lemma ErasedFirst(s: State, h: nat)
    requires h in s.services
    ensures Erased(s.services, Destroy(s, h).services, s.destroyed, Destroy(s, h).destroyed)
  {
    assert Destroy(s, h).destroyed[|s.destroyed|..] == [h];
  }

  lemma ErasedMore(a: map<nat, Service>, b: map<nat, Service>, c: map<nat, Service>, x: seq<nat>, y: seq<nat>, z: seq<nat>)
    requires Erased(a, b, x, y) && Erased(b, c, y, z)
    ensures Erased(a, c, x, z)
  {
    assert z[|x|..] == y[|x|..] + z[|y|..];
  }

  /** Releasing changes no extension of a service that stays. */
  lemma {:induction false} ReleaseKeepsEdges(s: State, h: nat, k: nat)
    ensures k in Release(s, h).services ==> k in s.services && Release(s, h).services[k].extension == s.services[k].extension
    decreases |s.services|
  {
    if h in s.services && s.services[h].refCount <= 1 && !s.services[h].remote && s.services[h].extension != 0 {
      EraseShrinks(s.services, h);
      ReleaseKeepsEdges(Destroy(s, h), s.services[h].extension, k);
    }
  }

  lemma RecipientsOf(s: State)
    requires Death.DeathValid(s)
    ensures forall h, i :: h in s.services && 0 <= i < |s.services[h].links| ==> s.services[h].links[i].recipient in s.recipients
  {
    forall h, i | h in s.services && 0 <= i < |s.services[h].links|
      ensures s.services[h].links[i].recipient in s.recipients
    {
      assert Death.LinksValid(s.services[h], s.recipients.Keys);
    }
  }

  /** Each link that was ended was called back if it has a callback, and no other was. */
  ghost predicate Tallied(callbacks: multiset<DeathLink>, ended: multiset<DeathLink>) {
    forall link: DeathLink :: callbacks[link] == if link.onUnlinked != 0 then ended[link] else 0
  }

  /** In every valid state, hence between any two calls: a link with a callback has been called back
      once for every attempt that is not still held, and one without never. */
  lemma CallbacksConserved(b: Binder, link: DeathLink)
    requires b.Valid()
    ensures b.callbacks[link] ==
            if link.onUnlinked == 0 then 0 else b.attempted[link] - Death.HeldLinks(b.services, b.nextBinder)[link]
  {
  }

  lemma UpdateTwice(m: map<nat, Service>, h: nat, a: Service, b: Service)
    ensures m[h := a][h := b] == m[h := b]
  {
  }

  method SearchLink(links: seq<DeathLink>, r: nat, cookie: nat) returns (i: nat)
    ensures i == FindLink(links, r, cookie)
  {
    i := 0;
    assert links[0..] == links;
    while i < |links|
      invariant i <= |links| && i + FindLink(links[i..], r, cookie) == FindLink(links, r, cookie)
    {
      if links[i].recipient == r && links[i].cookie == cookie { return; }
      assert links[i..][1..] == links[i + 1..];
      i := i + 1;
    }
  }

  /** The services once those in `seen` have lost their links to `r`. */
  ghost function Partly(services: map<nat, Service>, r: nat, seen: set<nat>): map<nat, Service> {
    map h | h in services :: if h in seen then services[h].(links := KeepLinks(services[h].links, r)) else services[h]
  }

  lemma PartlyOne(services: map<nat, Service>, r: nat, seen: set<nat>, h: nat)
    requires h in services && h !in seen
    ensures Partly(services, r, seen)[h] == services[h]
    ensures Partly(services, r, seen + {h}) ==
            Partly(services, r, seen)[h := services[h].(links := KeepLinks(services[h].links, r))]
  {
  }

  /** The links to `r` dropped so far, from the services in `seen`. */
  ghost function DroppedIn(services: map<nat, Service>, r: nat, n: nat, seen: set<nat>): multiset<DeathLink> {
    if n == 0 then multiset{}
    else DroppedIn(services, r, n - 1, seen) +
         (if n - 1 in services && n - 1 in seen then multiset(DropLinks(services[n - 1].links, r)) else multiset{})
  }

  lemma {:induction false} DroppedOne(services: map<nat, Service>, r: nat, n: nat, seen: set<nat>, h: nat)
    requires h in services && h !in seen
    ensures DroppedIn(services, r, n, seen + {h}) ==
            DroppedIn(services, r, n, seen) + (if h < n then multiset(DropLinks(services[h].links, r)) else multiset{})
  {
    if n > 0 {
      var before, after := DroppedIn(services, r, n - 1, seen), DroppedIn(services, r, n - 1, seen + {h});
      DroppedOne(services, r, n - 1, seen, h);
      if h == n - 1 {
        assert DroppedIn(services, r, n, seen) == before && after == before;
      } else if n - 1 in services && n - 1 in seen {
        Death.Swap(before, multiset(DropLinks(services[n - 1].links, r)),
             if h < n then multiset(DropLinks(services[h].links, r)) else multiset{});
      } else {
        assert DroppedIn(services, r, n, seen) == before && DroppedIn(services, r, n, seen + {h}) == after;
      }
    }
  }

  lemma {:induction false} DroppedAll(services: map<nat, Service>, r: nat, n: nat, seen: set<nat>)
    requires services.Keys <= seen
    ensures DroppedIn(services, r, n, seen) == AllDropped(services, r, n)
  {
    if n > 0 {
      DroppedAll(services, r, n - 1, seen);
    }
  }

  lemma {:induction false} DroppedNone(services: map<nat, Service>, r: nat, n: nat)
    ensures DroppedIn(services, r, n, {}) == multiset{}
  {
    if n > 0 {
      DroppedNone(services, r, n - 1);
    }
  }
}
