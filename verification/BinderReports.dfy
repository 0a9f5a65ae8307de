/** A death link, once made, is reported: over any calls in between that do not take it away. */
module BinderReports {
  import opened Words
  import opened BinderModel
  import opened BinderMeaning
  import Runtime = BinderRuntime
  import Death = BinderDeath

  /** The calls that take the link away before the death: unlinking it, deleting its recipient, and a
      death itself. */
  predicate Withdraws(op: Op, h: nat, link: DeathLink) {
    op == OpUnlink(h, link.recipient, link.cookie) || op == OpDeathDelete(link.recipient) || op == OpKill(h)
  }

  /** The binder is remote and holds the link. */
  ghost predicate Holds(s: State, h: nat, link: DeathLink) {
    h in s.services && s.services[h].remote && link in s.services[h].links
  }

  /** The daemon failed to deliver a transaction to the binder. */
  predicate Loses(s: State, op: Op, h: nat) {
    op == OpDaemonLost(h) && h in s.services && s.services[h].daemonOwned
  }

  // ---- one call ------------------------------------------------------------------------------------------

  lemma {:induction false} ReleaseHolds(s: State, x: nat, h: nat, link: DeathLink)
    requires Holds(s, h, link)
    ensures Holds(Release(s, x), h, link) && Release(s, x).services[h].alive == s.services[h].alive
    decreases |s.services|
  {
    if x in s.services && s.services[x].refCount <= 1 && !s.services[x].remote && s.services[x].extension != 0 {
      EraseShrinks(s.services, x);
      ReleaseHolds(Destroy(s, x), s.services[x].extension, h, link);
    }
  }

  lemma SetExtensionHolds(s: State, x: nat, e: nat, h: nat, link: DeathLink)
    requires Holds(s, h, link)
    ensures var s' := SetExtension(s, x, e).0; Holds(s', h, link) && s'.services[h].alive == s.services[h].alive
  {
    if SetExtension(s, x, e).1 == Okay && s.services[x].extension != e {
      var s1 := SetService(s, e, Counted(s.services[e]));
      var s2 := SetService(s1, x, s1.services[x].(extension := e));
      ReleaseHolds(s2, s.services[x].extension, h, link);
    }
  }

  lemma LinkHolds(s: State, x: nat, r: nat, cookie: nat, h: nat, link: DeathLink)
    requires Holds(s, h, link)
    ensures var s' := Link(s, x, r, cookie).0; Holds(s', h, link) && s'.services[h].alive == s.services[h].alive
  {
  }

  lemma UnlinkHolds(s: State, x: nat, r: nat, cookie: nat, h: nat, link: DeathLink)
    requires Holds(s, h, link) && !(x == h && r == link.recipient && cookie == link.cookie)
    ensures var s' := Unlink(s, x, r, cookie).0; Holds(s', h, link) && s'.services[h].alive == s.services[h].alive
  {
    if x == h && Unlink(s, x, r, cookie).1 == Okay {
      var links := s.services[h].links;
      var i := FindLink(links, r, cookie);
      var k :| 0 <= k < |links| && links[k] == link;
      var kept := links[..i] + links[i + 1..];
      assert k != i;
      assert kept[if k < i then k else k - 1] == link;
    }
  }

  lemma DeleteHolds(s: State, r: nat, h: nat, link: DeathLink)
    requires Holds(s, h, link) && r != link.recipient
    ensures var s' := DeathDelete(s, r); Holds(s', h, link) && s'.services[h].alive == s.services[h].alive
  {
    KeepMeans(s.services[h].links, r, link);
    if r in s.recipients {
      assert link in multiset(s.services[h].links);
      assert link in multiset(KeepLinks(s.services[h].links, r));
    }
  }

  predicate Simple(op: Op) {
    !op.OpDec? && !op.OpSetExtension? && !op.OpLink? && !op.OpUnlink? && !op.OpDeathDelete?
  }

  lemma SimpleHolds(s: State, op: Op, h: nat, link: DeathLink)
    requires Simple(op) && Holds(s, h, link) && h < s.nextBinder && !Withdraws(op, h, link)
    ensures Holds(Step(s, op), h, link)
    ensures Step(s, op).services[h].alive <==> s.services[h].alive && !Loses(s, op, h)
  {
    if op.OpKill? {
      KillHolds(s, op.h, h, link);
    } else if op.OpDaemonLost? {
      LoseHolds(s, op.h, h, link);
    } else {
      OtherHolds(s, op, h, link);
    }
  }

  lemma KillHolds(s: State, x: nat, h: nat, link: DeathLink)
    requires Holds(s, h, link) && x != h
    ensures var s' := Retire(s, x).0; Holds(s', h, link) && s'.services[h].alive == s.services[h].alive
  {
  }

  lemma LoseHolds(s: State, x: nat, h: nat, link: DeathLink)
    requires Holds(s, h, link)
    ensures var s' := DaemonLost(s, x);
            Holds(s', h, link) && (s'.services[h].alive <==> s.services[h].alive && !(x == h && s.services[h].daemonOwned))
  {
  }

  predicate Counts(op: Op) {
    op.OpInc? || op.OpGetExtension? || op.OpWeakPromote?
  }

  predicate Creates(op: Op) {
    op.OpNew? || op.OpGetService?
  }

  predicate Names(op: Op) {
    op.OpAddService? || op.OpAssociateClass?
  }

  lemma NameHolds(s: State, op: Op, h: nat, link: DeathLink)
    requires Names(op) && Holds(s, h, link)
    ensures Holds(Step(s, op), h, link) && Step(s, op).services[h].alive == s.services[h].alive
  {
  }

  lemma RaisedHolds(s: State, s': State, x: nat, h: nat, link: DeathLink)
    requires Holds(s, h, link) && x in s.services && s'.services == s.services[x := Counted(s.services[x])]
    ensures Holds(s', h, link) && s'.services[h].alive == s.services[h].alive
  {
  }

  lemma CountHolds(s: State, op: Op, h: nat, link: DeathLink)
    requires Counts(op) && Holds(s, h, link)
    ensures Holds(Step(s, op), h, link) && Step(s, op).services[h].alive == s.services[h].alive
  {
    var s' := Step(s, op);
    if s'.services != s.services {
      var x := Raises(s, op);
      RaisedHolds(s, s', x, h, link);
    }
  }

  /** The binder whose count the call raises, if it raises one. */
  lemma Raises(s: State, op: Op) returns (x: nat)
    requires Counts(op) && Step(s, op).services != s.services
    ensures x in s.services && Step(s, op).services == s.services[x := Counted(s.services[x])]
  {
    x := if op.OpInc? then op.h else if op.OpGetExtension? then s.services[op.h].extension else s.weaks[op.w];
  }

  lemma CreateHolds(s: State, op: Op, h: nat, link: DeathLink)
    requires Creates(op) && Holds(s, h, link) && h < s.nextBinder
    ensures Holds(Step(s, op), h, link) && Step(s, op).services[h].alive == s.services[h].alive
  {
  }

  lemma OtherHolds(s: State, op: Op, h: nat, link: DeathLink)
    requires Simple(op) && !op.OpKill? && !op.OpDaemonLost? && Holds(s, h, link) && h < s.nextBinder
    ensures Holds(Step(s, op), h, link) && Step(s, op).services[h].alive == s.services[h].alive
  {
    if Counts(op) {
      CountHolds(s, op, h, link);
    } else if Creates(op) {
      CreateHolds(s, op, h, link);
    } else if Names(op) {
      NameHolds(s, op, h, link);
    } else {
      assert Step(s, op).services == s.services;
    }
  }

  /** A call that does not withdraw the link leaves it, and the binder alive unless its daemon is lost. */
  lemma StepHolds(s: State, op: Op, h: nat, link: DeathLink)
    requires Holds(s, h, link) && h < s.nextBinder && !Withdraws(op, h, link)
    ensures Holds(Step(s, op), h, link)
    ensures Step(s, op).services[h].alive <==> s.services[h].alive && !Loses(s, op, h)
  {
    match op {
      case OpDec(x) => ReleaseHolds(s.(held := Drop(s.held, x)), x, h, link);
      case OpSetExtension(x, e) => SetExtensionHolds(s, x, e, h, link);
      case OpLink(x, r, cookie) => LinkHolds(s, x, r, cookie, h, link);
      case OpUnlink(x, r, cookie) => UnlinkHolds(s, x, r, cookie, h, link);
      case OpDeathDelete(r) => DeleteHolds(s, r, h, link);
      case _ => SimpleHolds(s, op, h, link);
    }
  }

  // ---- a stretch of calls ------------------------------------------------------------------------------------

  ghost predicate Leaves(ops: seq<Op>, h: nat, link: DeathLink) {
    forall k :: 0 <= k < |ops| ==> !Withdraws(ops[k], h, link)
  }

  /** Call `k` is a lost transaction. */
  ghost predicate LosesAt(s: State, ops: seq<Op>, k: nat, h: nat) {
    k < |ops| && Loses(Run(s, ops[..k]), ops[k], h)
  }

  ghost predicate EverLost(s: State, ops: seq<Op>, h: nat) {
    exists k: nat :: LosesAt(s, ops, k, h)
  }

  lemma {:induction false} RunHolds(s: State, ops: seq<Op>, h: nat, link: DeathLink)
    requires Runtime.Sound(s) && Holds(s, h, link) && s.services[h].alive && Leaves(ops, h, link)
    ensures Runtime.Sound(Run(s, ops)) && Holds(Run(s, ops), h, link)
    ensures Run(s, ops).services[h].alive <==> !EverLost(s, ops, h)
  {
    if ops != [] {
      var n := |ops| - 1;
      var before := Run(s, ops[..n]);
      RunHolds(s, ops[..n], h, link);
      StepSound(before, ops[n]);
      StepHolds(before, ops[n], h, link);
      LostLater(s, ops, ops[..n], n, h);
    }
  }

  lemma StepSound(s: State, op: Op)
    requires Runtime.Sound(s)
    ensures Runtime.Sound(Step(s, op)) && forall h :: h in s.services ==> h < s.nextBinder
  {
    Runtime.StepSound(s, op);
  }

  lemma LosesAtSame(s: State, ops: seq<Op>, h: nat, k: nat)
    requires k + 1 < |ops|
    ensures LosesAt(s, ops[..|ops| - 1], k, h) <==> LosesAt(s, ops, k, h)
  {
    assert ops[..|ops| - 1][..k] == ops[..k];
  }

  lemma LostLater(s: State, ops: seq<Op>, init: seq<Op>, last: nat, h: nat)
    requires last + 1 == |ops| && init == ops[..last]
    ensures EverLost(s, ops, h) <==> EverLost(s, init, h) || LosesAt(s, ops, last, h)
  {
    forall k: nat | k < last ensures LosesAt(s, init, k, h) <==> LosesAt(s, ops, k, h) {
      LosesAtSame(s, ops, h, k);
    }
    assert forall k: nat :: LosesAt(s, init, k, h) ==> k < last;
    assert forall k: nat :: LosesAt(s, ops, k, h) ==> k <= last;
  }

  /** Main result. After a successful linkToDeath and any calls that do not withdraw the link, the binder's
      death is reported to it exactly once - if and only if no transaction to its daemon was lost in
      between; then the binder is dead already and the link is never told. */
  lemma LinkIsReported(s: State, h: nat, r: nat, cookie: nat, ops: seq<Op>)
    requires Runtime.Sound(s) && Link(s, h, r, cookie).1 == Okay
    requires Leaves(ops, h, DeathLink(r, cookie, s.recipients[r].onDied, s.recipients[r].onUnlinked))
    ensures var link := DeathLink(r, cookie, s.recipients[r].onDied, s.recipients[r].onUnlinked);
            var s1 := Link(s, h, r, cookie).0;
            var s2 := Run(s1, ops);
            var (s3, status) := Retire(s2, h);
            && Holds(s2, h, link)
            && (if EverLost(s1, ops, h) then status == DeadObject && s3 == s2
                else status == Okay && s3.died[link] == s2.died[link] + 1 && s3.ended[link] == s2.ended[link] + 1)
  {
    var link := DeathLink(r, cookie, s.recipients[r].onDied, s.recipients[r].onUnlinked);
    var s1 := Link(s, h, r, cookie).0;
    LinkMeans(s, h, r, cookie);
    StepSound(s, OpLink(h, r, cookie));
    assert Step(s, OpLink(h, r, cookie)) == s1;
    assert s1.services[h].links[|s.services[h].links|] == link;
    RunHolds(s1, ops, h, link);
    var s2 := Run(s1, ops);
    RetireMeans(s2, h);
    assert Death.LinksValid(s2.services[h], s2.recipients.Keys);
    HeldOnce(s2.services[h].links, link);
  }

  lemma HeldOnce(links: seq<DeathLink>, link: DeathLink)
    requires Death.UniqueLinks(links) && link in links
    ensures multiset(links)[link] == 1
  {
    var k :| 0 <= k < |links| && links[k] == link;
    assert links == links[..k] + [link] + links[k + 1..];
    assert link !in links[..k] && link !in links[k + 1..] by {
      assert forall i :: 0 <= i < |links| && i != k ==> links[i] != link;
    }
  }
}
