/** The Binder state machine: services with strong counts and extension edges, the name
    registry, weak references and death links, as functions from state to state. */
module BinderModel {
  import opened Words

  datatype DeathLink = DeathLink(recipient: nat, cookie: nat, onDied: nat, onUnlinked: nat)

  datatype Recipient = Recipient(onDied: nat, onUnlinked: nat)

  datatype Class = Class(descriptor: string, onCreate: nat, onDestroy: nat)

  datatype Service = Service(
    name: string, refCount: u32, alive: bool, remote: bool, daemonOwned: bool,
    classHandle: nat, userData: nat, extension: nat, links: seq<DeathLink>)

  datatype Status = Okay | BadValue | DeadObject | InvalidOperation | AlreadyExists | NameNotFound | UnexpectedNull

  /** The runtime's tables, followed by what has happened: services destroyed, links told of a death
      (`died`), links that came to an end and were passed to the unlinked notifier (`ended`), the
      linkToDeath attempts with a valid binder and recipient, and the strong references that were
      counted when handed to the guest and not yet dropped by it (`held`). */
  datatype State = State(
    services: map<nat, Service>, nextBinder: nat,
    names: map<string, nat>, removed: set<string>,
    classes: map<nat, Class>, nextClass: nat,
    weaks: map<nat, nat>, nextWeak: nat,
    recipients: map<nat, Recipient>, nextDeath: nat,
    destroyed: seq<nat>, died: multiset<DeathLink>, ended: multiset<DeathLink>,
    attempted: multiset<DeathLink>, held: map<nat, nat>)

  function Init(binder: nat, cls: nat, weak: nat, death: nat): State {
    State(map[], binder, map[], {}, map[], cls, map[], weak, map[], death,
          [], multiset{}, multiset{}, multiset{}, map[])
  }

  function Held(held: map<nat, nat>, h: nat): nat {
    if h in held then held[h] else 0
  }

  function Grant(held: map<nat, nat>, h: nat): map<nat, nat> {
    held[h := Held(held, h) + 1]
  }

  function Drop(held: map<nat, nat>, h: nat): map<nat, nat> {
    if Held(held, h) > 0 then held[h := Held(held, h) - 1] else held
  }

  function SetService(s: State, h: nat, v: Service): State {
    s.(services := s.services[h := v])
  }

  function Counted(v: Service): Service {
    v.(refCount := Wrap32(v.refCount as int + 1))
  }

  // ---- strong references ------------------------------------------------------------------

  function NamesOf(names: map<string, nat>, h: nat): set<string> {
    set n | n in names && names[n] == h
  }

  /** One service destroyed: callbacks, names marked removed, entry erased. */
  function Destroy(s: State, h: nat): State
    requires h in s.services
  {
    s.(services := s.services - {h},
       names := s.names - NamesOf(s.names, h),
       removed := s.removed + NamesOf(s.names, h),
       destroyed := s.destroyed + [h],
       ended := s.ended + multiset(s.services[h].links))
  }

  /** Dropping a strong reference. Each recursive call follows the erasure of a service, so this
      ends for every extension graph. */
  function Release(s: State, h: nat): State
    decreases |s.services|
  {
    if h !in s.services then s
    else
      var v := s.services[h];
      if v.refCount > 1 then SetService(s, h, v.(refCount := v.refCount - 1))
      else if v.remote then s
      else
        EraseShrinks(s.services, h);
        if v.extension != 0 then Release(Destroy(s, h), v.extension) else Destroy(s, h)
  }

  /** What `Release` does to the services alone. */
  function ReleaseServices(services: map<nat, Service>, h: nat): map<nat, Service>
    decreases |services|
  {
    if h !in services then services
    else
      var v := services[h];
      if v.refCount > 1 then services[h := v.(refCount := v.refCount - 1)]
      else if v.remote then services
      else
        EraseShrinks(services, h);
        if v.extension != 0 then ReleaseServices(services - {h}, v.extension) else services - {h}
  }

  lemma {:induction false} ReleaseFrame(s: State, h: nat)
    ensures Release(s, h).services == ReleaseServices(s.services, h)
    ensures Release(s, h).held == s.held && Release(s, h).nextBinder == s.nextBinder
    ensures Release(s, h).weaks == s.weaks && Release(s, h).nextWeak == s.nextWeak
    ensures Release(s, h).recipients == s.recipients && Release(s, h).attempted == s.attempted
    decreases |s.services|
  {
    if h in s.services && s.services[h].refCount <= 1 && !s.services[h].remote && s.services[h].extension != 0 {
      EraseShrinks(s.services, h);
      ReleaseFrame(Destroy(s, h), s.services[h].extension);
    }
  }

  lemma EraseShrinks<T>(m: map<nat, T>, h: nat)
    requires h in m
    ensures |m - {h}| == |m| - 1
  {
    assert (m - {h}).Keys == m.Keys - {h};
    assert |m.Keys| == |m| && |(m - {h}).Keys| == |m - {h}|;
  }

  function New(s: State, cls: nat, arg: nat, created: nat): (State, nat) {
    if cls !in s.classes then (s, 0)
    else
      var c := s.classes[cls];
      var h := s.nextBinder;
      var v := Service(c.descriptor, 1, true, false, false, cls, if c.onCreate != 0 then created else arg, 0, []);
      (SetService(s, h, v).(nextBinder := h + 1, held := s.held[h := 1]), h)
  }

  function IncStrong(s: State, h: nat): State {
    if h in s.services then SetService(s, h, Counted(s.services[h])).(held := Grant(s.held, h)) else s
  }

  function DecStrong(s: State, h: nat): State {
    Release(s.(held := Drop(s.held, h)), h)
  }

  function SetExtension(s: State, h: nat, e: nat): (State, Status) {
    if h == 0 || e == 0 then (s, UnexpectedNull)
    else if h !in s.services || e !in s.services then (s, BadValue)
    else if !s.services[h].alive || !s.services[e].alive then (s, DeadObject)
    else if s.services[h].remote then (s, InvalidOperation)
    else if s.services[h].extension == e then (s, Okay)
    else
      var s1 := SetService(s, e, Counted(s.services[e]));
      var prior := s1.services[h].extension;
      var s2 := SetService(s1, h, s1.services[h].(extension := e));
      (if prior != 0 then Release(s2, prior) else s2, Okay)
  }

  /** `out` tells whether the guest gave a place for the result, which is the second component. */
  function GetExtension(s: State, h: nat, out: bool): (State, nat, Status) {
    if h == 0 then (s, 0, UnexpectedNull)
    else if !out || h !in s.services then (s, 0, BadValue)
    else
      var e := s.services[h].extension;
      if e == 0 then (s, 0, Okay)
      else if e !in s.services || !s.services[e].alive then (s, 0, DeadObject)
      else (SetService(s, e, Counted(s.services[e])).(held := Grant(s.held, e)), e, Okay)
  }

  // ---- names ---------------------------------------------------------------------------------

  /** check/get/waitForService; `owned` is what the daemon says of a service created here. */
  function GetService(s: State, name: string, owned: bool): (State, nat) {
    if name == "" then (s, 0)
    else if name in s.names && s.names[name] in s.services && s.services[s.names[name]].alive then (s, s.names[name])
    else
      var s1 := s.(names := s.names - {name});
      if name in s.removed then (s1, 0)
      else
        var h := s.nextBinder;
        var v := Service(name, 1, true, true, owned, 0, 0, 0, []);
        (SetService(s1, h, v).(nextBinder := h + 1, names := s1.names[name := h], held := s.held[h := 1]), h)
  }

  function AddService(s: State, h: nat, name: string): (State, Status) {
    if name == "" || h !in s.services || !s.services[h].alive || s.services[h].remote then (s, BadValue)
    else if name in s.names && s.names[name] != h && s.names[name] in s.services && s.services[s.names[name]].alive then
      (s, AlreadyExists)
    else
      (SetService(s, h, s.services[h].(name := name)).(names := s.names[name := h], removed := s.removed - {name}), Okay)
  }

  // ---- weak references ---------------------------------------------------------------------------

  function WeakNew(s: State, h: nat): (State, nat) {
    if h !in s.services then (s, 0)
    else (s.(weaks := s.weaks[s.nextWeak := h], nextWeak := s.nextWeak + 1), s.nextWeak)
  }

  function WeakDelete(s: State, w: nat): State {
    s.(weaks := s.weaks - {w})
  }

  function WeakPromote(s: State, w: nat): (State, nat) {
    if w !in s.weaks || s.weaks[w] !in s.services || !s.services[s.weaks[w]].alive then (s, 0)
    else
      var h := s.weaks[w];
      (SetService(s, h, Counted(s.services[h])).(held := Grant(s.held, h)), h)
  }

  function WeakClone(s: State, w: nat): (State, nat) {
    if w !in s.weaks then (s, 0)
    else (s.(weaks := s.weaks[s.nextWeak := s.weaks[w]], nextWeak := s.nextWeak + 1), s.nextWeak)
  }

  // ---- death links -----------------------------------------------------------------------------------

  function DeathNew(s: State, onDied: nat): (State, nat) {
    if onDied == 0 then (s, 0)
    else
      (s.(recipients := s.recipients[s.nextDeath := Recipient(onDied, 0)], nextDeath := s.nextDeath + 1), s.nextDeath)
  }

  function DeathSetUnlinked(s: State, r: nat, f: nat): State {
    if r in s.recipients then s.(recipients := s.recipients[r := s.recipients[r].(onUnlinked := f)]) else s
  }

  function KeepLinks(links: seq<DeathLink>, r: nat): seq<DeathLink> {
    if links == [] then []
    else if links[0].recipient == r then KeepLinks(links[1..], r)
    else [links[0]] + KeepLinks(links[1..], r)
  }

  function DropLinks(links: seq<DeathLink>, r: nat): seq<DeathLink> {
    if links == [] then []
    else if links[0].recipient == r then [links[0]] + DropLinks(links[1..], r)
    else DropLinks(links[1..], r)
  }

  /** Links to recipient `r` over all services below handle `n`. */
  function AllDropped(services: map<nat, Service>, r: nat, n: nat): multiset<DeathLink> {
    if n == 0 then multiset{}
    else AllDropped(services, r, n - 1) +
         (if n - 1 in services then multiset(DropLinks(services[n - 1].links, r)) else multiset{})
  }

  function WithoutRecipient(services: map<nat, Service>, r: nat): map<nat, Service> {
    map h | h in services :: services[h].(links := KeepLinks(services[h].links, r))
  }

  function DeathDelete(s: State, r: nat): State {
    if r !in s.recipients then s
    else s.(services := WithoutRecipient(s.services, r),
            ended := s.ended + AllDropped(s.services, r, s.nextBinder),
            recipients := s.recipients - {r})
  }

  /** Position of the first link with this recipient and cookie, or the length if none. */
  function FindLink(links: seq<DeathLink>, r: nat, cookie: nat): (i: nat)
    ensures i <= |links|
    ensures i < |links| ==> links[i].recipient == r && links[i].cookie == cookie
    ensures forall j :: 0 <= j < i ==> !(links[j].recipient == r && links[j].cookie == cookie)
  {
    if links == [] then 0
    else if links[0].recipient == r && links[0].cookie == cookie then 0
    else 1 + FindLink(links[1..], r, cookie)
  }

  function LinkStatus(s: State, h: nat, r: nat, cookie: nat): Status {
    if h !in s.services || r !in s.recipients then BadValue
    else if !s.services[h].alive then DeadObject
    else if !s.services[h].remote then InvalidOperation
    else if FindLink(s.services[h].links, r, cookie) < |s.services[h].links| then AlreadyExists
    else Okay
  }

  function NewLink(s: State, r: nat, cookie: nat): DeathLink
    requires r in s.recipients
  {
    DeathLink(r, cookie, s.recipients[r].onDied, s.recipients[r].onUnlinked)
  }

  /** A valid attempt either adds the link or ends at once. */
  function Link(s: State, h: nat, r: nat, cookie: nat): (State, Status) {
    var status := LinkStatus(s, h, r, cookie);
    if status == BadValue then (s, status)
    else
      var link := NewLink(s, r, cookie);
      var attempted := s.attempted + multiset{link};
      if status == Okay then
        var v := s.services[h];
        (s.(services := s.services[h := v.(links := v.links + [link])], attempted := attempted), status)
      else
        (s.(ended := s.ended + multiset{link}, attempted := attempted), status)
  }

  function Unlink(s: State, h: nat, r: nat, cookie: nat): (State, Status) {
    if h !in s.services || r !in s.recipients then (s, BadValue)
    else
      var v := s.services[h];
      var i := FindLink(v.links, r, cookie);
      if i == |v.links| then (s, NameNotFound)
      else (SetService(s, h, v.(links := v.links[..i] + v.links[i + 1..])).(
              ended := s.ended + multiset{v.links[i]}), Okay)
  }

  /** A service marked dead: names dropped, every link notified of the death, and ended. */
  function Retire(s: State, h: nat): (State, Status) {
    if h !in s.services then (s, BadValue)
    else if !s.services[h].alive then (s, DeadObject)
    else
      var v := s.services[h];
      (SetService(s, h, v.(alive := false, links := [])).(
         names := s.names - NamesOf(s.names, h),
         died := s.died + multiset(v.links), ended := s.ended + multiset(v.links)), Okay)
  }

  /** A transaction the daemon did not deliver clears `alive` and nothing else. */
  function DaemonLost(s: State, h: nat): State {
    if h in s.services && s.services[h].alive && s.services[h].remote && s.services[h].daemonOwned then
      SetService(s, h, s.services[h].(alive := false))
    else s
  }

  // ---- classes -----------------------------------------------------------------------------------

  function ClassDefine(s: State, descriptor: string, onCreate: nat, onDestroy: nat): (State, nat) {
    if descriptor == "" then (s, 0)
    else (s.(classes := s.classes[s.nextClass := Class(descriptor, onCreate, onDestroy)],
             nextClass := s.nextClass + 1), s.nextClass)
  }

  function AssociateClass(s: State, h: nat, cls: nat): (State, bool) {
    if h !in s.services || cls !in s.classes then (s, false)
    else (SetService(s, h, s.services[h].(classHandle := cls)), true)
  }

  // ---- runs ----------------------------------------------------------------------------------------

  datatype Op =
    | OpNew(cls: nat, arg: nat, created: nat)
    | OpInc(h: nat)            // incStrong, and reading a strong binder out of a parcel
    | OpDec(h: nat)
    | OpSetExtension(h: nat, e: nat)
    | OpGetExtension(h: nat, out: bool)
    | OpGetService(name: string, owned: bool)
    | OpAddService(h: nat, name: string)
    | OpWeakNew(h: nat)
    | OpWeakDelete(w: nat)
    | OpWeakPromote(w: nat)
    | OpWeakClone(w: nat)
    | OpDeathNew(onDied: nat)
    | OpDeathSetUnlinked(r: nat, f: nat)
    | OpDeathDelete(r: nat)
    | OpLink(h: nat, r: nat, cookie: nat)
    | OpUnlink(h: nat, r: nat, cookie: nat)
    | OpKill(h: nat)
    | OpDaemonLost(h: nat)
    | OpClassDefine(descriptor: string, onCreate: nat, onDestroy: nat)
    | OpAssociateClass(h: nat, cls: nat)

  function Step(s: State, op: Op): State {
    match op
    case OpNew(cls, arg, created) => New(s, cls, arg, created).0
    case OpInc(h) => IncStrong(s, h)
    case OpDec(h) => DecStrong(s, h)
    case OpSetExtension(h, e) => SetExtension(s, h, e).0
    case OpGetExtension(h, out) => GetExtension(s, h, out).0
    case OpGetService(name, owned) => GetService(s, name, owned).0
    case OpAddService(h, name) => AddService(s, h, name).0
    case OpWeakNew(h) => WeakNew(s, h).0
    case OpWeakDelete(w) => WeakDelete(s, w)
    case OpWeakPromote(w) => WeakPromote(s, w).0
    case OpWeakClone(w) => WeakClone(s, w).0
    case OpDeathNew(onDied) => DeathNew(s, onDied).0
    case OpDeathSetUnlinked(r, f) => DeathSetUnlinked(s, r, f)
    case OpDeathDelete(r) => DeathDelete(s, r)
    case OpLink(h, r, cookie) => Link(s, h, r, cookie).0
    case OpUnlink(h, r, cookie) => Unlink(s, h, r, cookie).0
    case OpKill(h) => Retire(s, h).0
    case OpDaemonLost(h) => DaemonLost(s, h)
    case OpClassDefine(d, c, x) => ClassDefine(s, d, c, x).0
    case OpAssociateClass(h, cls) => AssociateClass(s, h, cls).0
  }

  /** The state after a sequence of calls. */
  function Run(s: State, ops: seq<Op>): State {
    if ops == [] then s else Step(Run(s, ops[..|ops| - 1]), ops[|ops| - 1])
  }
}
