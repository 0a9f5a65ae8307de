/** Guest pipes and the looper that watches them. */
module LooperModel {
  import opened Words

  const INPUT_QUEUE_FD := 91
  const FIRST_PIPE_FD := 200

  datatype Pipe = Pipe(readFd: int, writeFd: int, readOpen: bool, writeOpen: bool, buffer: seq<byte>)

  datatype Registration = Registration(fd: int, ident: int, events: int, callback: nat, data: nat, delivered: bool)

  /** All bytes ever written to and read from a pipe. */
  datatype History = History(written: seq<byte>, taken: seq<byte>)

  /** `attached` tells whether the input queue has a looper; `queued` are the callbacks handed to the
      host loop; `history` runs parallel to `pipes`. */
  datatype State = State(
    pipes: seq<Pipe>, nextFd: int, regs: seq<Registration>, attached: bool, queued: seq<Registration>,
    history: seq<History>)

  datatype Outcome = Done(n: nat) | Again | BadFd | Fault | HostFile

  function Init(): State {
    State([], FIRST_PIPE_FD, [], false, [], [])
  }

  // ---- pipes ----------------------------------------------------------------------------------

  /** The first pipe with this end, or the number of pipes. */
  function PipeFor(pipes: seq<Pipe>, fd: int): (i: nat)
    ensures i <= |pipes|
    ensures i < |pipes| ==> pipes[i].readFd == fd || pipes[i].writeFd == fd
    ensures forall j :: 0 <= j < i ==> pipes[j].readFd != fd && pipes[j].writeFd != fd
  {
    if pipes == [] || pipes[0].readFd == fd || pipes[0].writeFd == fd then 0 else 1 + PipeFor(pipes[1..], fd)
  }

  predicate Ready(pipes: seq<Pipe>, fd: int) {
    var i := PipeFor(pipes, fd);
    if i == |pipes| then true
    else if fd == pipes[i].readFd then pipes[i].buffer != [] || !pipes[i].writeOpen
    else pipes[i].writeOpen
  }

  function Rearm(regs: seq<Registration>, fd: int): (r: seq<Registration>)
    ensures |r| == |regs|
    ensures forall i :: 0 <= i < |r| ==> r[i] == if regs[i].fd == fd then regs[i].(delivered := false) else regs[i]
  {
    if regs == [] then []
    else [if regs[0].fd == fd then regs[0].(delivered := false) else regs[0]] + Rearm(regs[1..], fd)
  }

  function CreatePipe(s: State, out: bool): (State, Outcome) {
    if !out then (s, Fault)
    else (s.(pipes := s.pipes + [Pipe(s.nextFd, s.nextFd + 1, true, true, [])],
             nextFd := s.nextFd + 2, history := s.history + [History([], [])]), Done(0))
  }

  /** `buffer` and `copied` tell whether the guest passed an address and could be written to. */
  function Read(s: State, fd: int, want: nat, buffer: bool, copied: bool): (State, Outcome) {
    if fd == 0 then (s, HostFile)
    else
      var i := PipeFor(s.pipes, fd);
      if i == |s.pipes| || fd != s.pipes[i].readFd || !s.pipes[i].readOpen then (s, BadFd)
      else if !buffer && want != 0 then (s, Fault)
      else
        var p := s.pipes[i];
        var n := Min(want, |p.buffer|);
        if n == 0 then (s, if p.writeOpen then Again else Done(0))
        else if !copied then (s, Fault)
        else
          var rest := p.buffer[n..];
          var s1 := s.(pipes := s.pipes[i := p.(buffer := rest)]);
          var s2 := if i < |s.history|
                    then s1.(history := s.history[i := s.history[i].(taken := s.history[i].taken + p.buffer[..n])]) else s1;
          (if rest != [] then s2.(regs := Rearm(s.regs, p.readFd)) else s2, Done(n))
  }

  /** `readable` tells whether the guest's bytes could be fetched. */
  function Write(s: State, fd: int, bytes: seq<byte>, readable: bool): (State, Outcome) {
    if !readable then (s, Fault)
    else if fd == 1 || fd == 2 then (s, HostFile)
    else
      var i := PipeFor(s.pipes, fd);
      if i == |s.pipes| || fd != s.pipes[i].writeFd || !s.pipes[i].writeOpen then (s, BadFd)
      else
        var p := s.pipes[i];
        var s1 := s.(pipes := s.pipes[i := p.(buffer := p.buffer + bytes)], regs := Rearm(s.regs, p.readFd));
        (if i < |s.history|
         then s1.(history := s.history[i := s.history[i].(written := s.history[i].written + bytes)]) else s1, Done(|bytes|))
  }

  function Close(s: State, fd: int): (State, Outcome) {
    var i := PipeFor(s.pipes, fd);
    if i == |s.pipes| then (s, BadFd)
    else
      var p := s.pipes[i];
      var p1 := if fd == p.readFd then p.(readOpen := false) else p;
      if fd == p.writeFd then
        (s.(pipes := s.pipes[i := p1.(writeOpen := false)], regs := Rearm(s.regs, p.readFd)), Done(0))
      else (s.(pipes := s.pipes[i := p1]), Done(0))
  }

  // ---- the looper -------------------------------------------------------------------------------

  function RegFor(regs: seq<Registration>, fd: int): (i: nat)
    ensures i <= |regs|
    ensures i < |regs| ==> regs[i].fd == fd
    ensures forall j :: 0 <= j < i ==> regs[j].fd != fd
  {
    if regs == [] || regs[0].fd == fd then 0 else 1 + RegFor(regs[1..], fd)
  }

  /** The registration in the place of the one with the same fd, or at the end. */
  function Put(regs: seq<Registration>, r: Registration): seq<Registration> {
    var i := RegFor(regs, r.fd);
    if i == |regs| then regs + [r] else regs[i := r]
  }

  function AddFd(s: State, fd: int, ident: int, events: int, callback: nat, data: nat): (State, bool) {
    if fd < 0 || (callback == 0 && ident < 0) then (s, false)
    else (s.(regs := Put(s.regs, Registration(fd, ident, events, callback, data, false))), true)
  }

  function Without(regs: seq<Registration>, fd: int): seq<Registration> {
    if regs == [] then []
    else if regs[0].fd == fd then Without(regs[1..], fd)
    else [regs[0]] + Without(regs[1..], fd)
  }

  function RemoveFd(s: State, fd: int): (State, bool) {
    (s.(regs := Without(s.regs, fd)), |Without(s.regs, fd)| != |s.regs|)
  }

  /** Attaching the input queue registers it whatever the ident and the callback. `queue` tells whether
      the guest passed the input queue. */
  function Attach(s: State, queue: bool, ident: int, callback: nat, data: nat): State {
    if !queue then s
    else s.(attached := true, regs := Put(s.regs, Registration(INPUT_QUEUE_FD, ident, 1, callback, data, false)))
  }

  function Detach(s: State, queue: bool): State {
    if !queue then s else s.(attached := false, regs := Without(s.regs, INPUT_QUEUE_FD))
  }

  /** New input events, or a finished one that leaves others, re-arm the input queue while it is attached. */
  function InputArrived(s: State): State {
    if s.attached then s.(regs := Rearm(s.regs, INPUT_QUEUE_FD)) else s
  }

  function Wake(s: State): State {
    s.(regs := seq(|s.regs|, i requires 0 <= i < |s.regs| => s.regs[i].(delivered := false)))
  }

  /** Whether a registration is due; `input` tells whether the input queue is attached and has events. */
  predicate Due(pipes: seq<Pipe>, r: Registration, input: bool) {
    !r.delivered && (r.fd == INPUT_QUEUE_FD ==> input) && Ready(pipes, r.fd)
  }

  /** The first due registration from `i` on, or their number. */
  function FirstDue(s: State, input: bool, i: nat): (k: nat)
    requires i <= |s.regs|
    ensures i <= k <= |s.regs| && (k < |s.regs| ==> Due(s.pipes, s.regs[k], input))
    ensures forall j :: i <= j < k ==> !Due(s.pipes, s.regs[j], input)
    decreases |s.regs| - i
  {
    if i == |s.regs| || Due(s.pipes, s.regs[i], input) then i else FirstDue(s, input, i + 1)
  }

  /** One poll reports at most one registration: the second component is it, or None on timeout.
      `pending` tells whether there are input events. */
  function Poll(s: State, pending: bool): (State, Option<Registration>) {
    var k := FirstDue(s, s.attached && pending, 0);
    if k == |s.regs| then (s, None)
    else
      var r := s.regs[k].(delivered := true);
      (s.(regs := s.regs[k := r], queued := if r.callback != 0 then s.queued + [r] else s.queued), Some(r))
  }

  /** The host loop queues every due registration that has a callback. */
  function QueueFrom(s: State, input: bool, i: nat): State
    requires i <= |s.regs|
    decreases |s.regs| - i
  {
    if i == |s.regs| then s
    else if s.regs[i].callback != 0 && Due(s.pipes, s.regs[i], input) then
      var r := s.regs[i].(delivered := true);
      QueueFrom(s.(regs := s.regs[i := r], queued := s.queued + [r]), input, i + 1)
    else QueueFrom(s, input, i + 1)
  }

  datatype Op =
    | OpPipe(out: bool)
    | OpRead(fd: int, want: nat, buffer: bool, copied: bool)
    | OpWrite(fd: int, bytes: seq<byte>, readable: bool)
    | OpClose(fd: int)
    | OpAddFd(fd: int, ident: int, events: int, callback: nat, data: nat)
    | OpRemoveFd(fd: int)
    | OpWake
    | OpAttach(queue: bool, ident: int, callback: nat, data: nat)
    | OpDetach(queue: bool)
    | OpInputArrived
    | OpPoll(pending: bool)
    | OpQueueReady(pending: bool)

  function Step(s: State, op: Op): State {
    match op
    case OpPipe(out) => CreatePipe(s, out).0
    case OpRead(fd, want, buffer, copied) => Read(s, fd, want, buffer, copied).0
    case OpWrite(fd, bytes, readable) => Write(s, fd, bytes, readable).0
    case OpClose(fd) => Close(s, fd).0
    case OpAddFd(fd, ident, events, callback, data) => AddFd(s, fd, ident, events, callback, data).0
    case OpRemoveFd(fd) => RemoveFd(s, fd).0
    case OpWake => Wake(s)
    case OpAttach(queue, ident, callback, data) => Attach(s, queue, ident, callback, data)
    case OpDetach(queue) => Detach(s, queue)
    case OpInputArrived => InputArrived(s)
    case OpPoll(pending) => Poll(s, pending).0
    case OpQueueReady(pending) => QueueFrom(s, s.attached && pending, 0)
  }

  function Run(s: State, ops: seq<Op>): State {
    if ops == [] then s else Step(Run(s, ops[..|ops| - 1]), ops[|ops| - 1])
  }

  // ---- what every run keeps -------------------------------------------------------------------------

  /** Pipe ends are numbered consecutively, so no two are equal. */
  ghost predicate PipesValid(pipes: seq<Pipe>, nextFd: int) {
    && nextFd == FIRST_PIPE_FD + 2 * |pipes|
    && forall i :: 0 <= i < |pipes| ==> pipes[i].readFd == FIRST_PIPE_FD + 2 * i && pipes[i].writeFd == pipes[i].readFd + 1
  }

  ghost predicate RegsDistinct(regs: seq<Registration>) {
    forall i, j :: 0 <= i < j < |regs| ==> regs[i].fd != regs[j].fd
  }

  /** First in, first out: what was written is what was read followed by what is buffered. */
  ghost predicate Fifo(pipes: seq<Pipe>, history: seq<History>) {
    |history| == |pipes| && forall i :: 0 <= i < |pipes| ==> history[i].written == history[i].taken + pipes[i].buffer
  }

  ghost predicate Valid(s: State) {
    PipesValid(s.pipes, s.nextFd) && RegsDistinct(s.regs) && Fifo(s.pipes, s.history)
  }

  lemma ReadValid(s: State, fd: int, want: nat, buffer: bool, copied: bool)
    requires Valid(s)
    ensures Valid(Read(s, fd, want, buffer, copied).0)
  {
    var i := PipeFor(s.pipes, fd);
    if Read(s, fd, want, buffer, copied).1.Done? && i < |s.pipes| {
      var p := s.pipes[i];
      var n := Min(want, |p.buffer|);
      assert p.buffer == p.buffer[..n] + p.buffer[n..];
      assert s.history[i].taken + p.buffer == (s.history[i].taken + p.buffer[..n]) + p.buffer[n..];
    }
  }

  lemma WriteValid(s: State, fd: int, bytes: seq<byte>, readable: bool)
    requires Valid(s)
    ensures Valid(Write(s, fd, bytes, readable).0)
  {
    var i := PipeFor(s.pipes, fd);
    if i < |s.pipes| {
      var p, h := s.pipes[i], s.history[i];
      assert (h.taken + p.buffer) + bytes == h.taken + (p.buffer + bytes);
    }
  }

  lemma {:induction false} WithoutFrom(regs: seq<Registration>, fd: int, k: nat) returns (i: nat)
    requires k < |Without(regs, fd)|
    ensures k <= i < |regs| && Without(regs, fd)[k] == regs[i] && regs[i].fd != fd
  {
    if regs[0].fd == fd {
      var j := WithoutFrom(regs[1..], fd, k);
      i := j + 1;
    } else if k == 0 {
      i := 0;
    } else {
      var j := WithoutFrom(regs[1..], fd, k - 1);
      i := j + 1;
    }
  }

  lemma {:induction false} WithoutDistinct(regs: seq<Registration>, fd: int)
    requires RegsDistinct(regs)
    ensures RegsDistinct(Without(regs, fd))
  {
    if regs != [] {
      var kept, rest := Without(regs, fd), Without(regs[1..], fd);
      assert RegsDistinct(regs[1..]) by {
        assert forall i :: 0 <= i < |regs| - 1 ==> regs[1..][i] == regs[i + 1];
      }
      WithoutDistinct(regs[1..], fd);
      if regs[0].fd != fd {
        assert kept == [regs[0]] + rest;
        forall j | 0 < j < |kept|
          ensures kept[0].fd != kept[j].fd
        {
          var m := WithoutFrom(regs[1..], fd, j - 1);
          assert regs[0].fd != regs[m + 1].fd;
        }
      }
    }
  }

  /** A callback for `fd` was queued between the two states. */
  predicate QueuedSince(s: State, s': State, fd: int) {
    exists k :: |s.queued| <= k < |s'.queued| && s'.queued[k].fd == fd
  }

  lemma {:induction false} QueueKeeps(s: State, input: bool, i: nat)
    requires i <= |s.regs|
    ensures var s' := QueueFrom(s, input, i);
            && s'.pipes == s.pipes && s'.nextFd == s.nextFd && s'.history == s.history && |s'.regs| == |s.regs|
            && forall j :: 0 <= j < |s.regs| ==>
                 && s'.regs[j].fd == s.regs[j].fd
                 && (s.regs[j].delivered ==> s'.regs[j].delivered)
                 && (s'.regs[j].delivered && !s.regs[j].delivered ==> QueuedSince(s, s', s.regs[j].fd))
    ensures s.queued <= QueueFrom(s, input, i).queued
    decreases |s.regs| - i
  {
    if i < |s.regs| {
      if s.regs[i].callback != 0 && Due(s.pipes, s.regs[i], input) {
        var r := s.regs[i].(delivered := true);
        var s1 := s.(regs := s.regs[i := r], queued := s.queued + [r]);
        QueueKeeps(s1, input, i + 1);
        var s' := QueueFrom(s1, input, i + 1);
        QueueStable(s1, input, i + 1, i);
        assert s1.queued[|s.queued|] == r && s'.queued[|s.queued|] == r;
        assert QueuedSince(s, s', r.fd);
        assert forall fd :: QueuedSince(s1, s', fd) ==> QueuedSince(s, s', fd);
      } else {
        QueueKeeps(s, input, i + 1);
      }
    }
  }

  /** The queueing pass never revisits a registration. */
  lemma {:induction false} QueueStable(s: State, input: bool, i: nat, j: nat)
    requires j < i <= |s.regs|
    ensures |QueueFrom(s, input, i).regs| == |s.regs| && QueueFrom(s, input, i).regs[j] == s.regs[j]
    decreases |s.regs| - i
  {
    if i < |s.regs| {
      var r := s.regs[i].(delivered := true);
      QueueStable(s.(regs := s.regs[i := r], queued := s.queued + [r]), input, i + 1, j);
      QueueStable(s, input, i + 1, j);
    }
  }

  lemma PutDistinct(regs: seq<Registration>, r: Registration)
    requires RegsDistinct(regs)
    ensures RegsDistinct(Put(regs, r))
  {
  }

  /** What a step that only touches the registrations has to keep. */
  lemma RegsValid(s: State, s': State)
    requires Valid(s) && s'.pipes == s.pipes && s'.nextFd == s.nextFd && s'.history == s.history
    requires RegsDistinct(s'.regs)
    ensures Valid(s')
  {
  }

  lemma QueueValid(s: State, input: bool)
    requires Valid(s)
    ensures Valid(QueueFrom(s, input, 0))
  {
    var s' := QueueFrom(s, input, 0);
    QueueKeeps(s, input, 0);
    assert RegsDistinct(s'.regs);
    RegsValid(s, s');
  }

  lemma PipeStepValid(s: State, op: Op)
    requires Valid(s) && (op.OpPipe? || op.OpRead? || op.OpWrite? || op.OpClose?)
    ensures Valid(Step(s, op))
  {
    match op {
      case OpRead(fd, want, buffer, copied) => ReadValid(s, fd, want, buffer, copied);
      case OpWrite(fd, bytes, readable) => WriteValid(s, fd, bytes, readable);
      case _ =>
    }
  }

  lemma StepValid(s: State, op: Op)
    requires Valid(s)
    ensures Valid(Step(s, op))
  {
    match op {
      case OpAddFd(fd, ident, events, callback, data) =>
        PutDistinct(s.regs, Registration(fd, ident, events, callback, data, false));
      case OpAttach(_, ident, callback, data) =>
        PutDistinct(s.regs, Registration(INPUT_QUEUE_FD, ident, 1, callback, data, false));
      case OpRemoveFd(fd) => WithoutDistinct(s.regs, fd);
      case OpDetach(_) => WithoutDistinct(s.regs, INPUT_QUEUE_FD);
      case OpWake =>
      case OpInputArrived =>
      case OpPoll(_) =>
      case OpQueueReady(pending) => QueueValid(s, s.attached && pending);
      case _ => PipeStepValid(s, op);
    }
  }

  /** In every reachable state pipe ends are distinct, registrations have distinct fds, and every
      pipe is first in, first out. */
  lemma {:induction false} AlwaysValid(ops: seq<Op>)
    ensures Valid(Run(Init(), ops))
  {
    if ops != [] {
      AlwaysValid(ops[..|ops| - 1]);
      StepValid(Run(Init(), ops[..|ops| - 1]), ops[|ops| - 1]);
    }
  }

  // ---- a written pipe is reported ------------------------------------------------------------------

  predicate Registered(regs: seq<Registration>, fd: int) {
    RegFor(regs, fd) < |regs|
  }

  /** Registered and not yet delivered. */
  predicate Armed(regs: seq<Registration>, fd: int) {
    Registered(regs, fd) && !regs[RegFor(regs, fd)].delivered
  }

  /** A successful non-empty write leaves the read end ready, and armed if it is registered. */
  lemma WriteArms(s: State, fd: int, bytes: seq<byte>)
    requires Valid(s) && bytes != [] && Write(s, fd, bytes, true).1 == Done(|bytes|)
    ensures var s' := Write(s, fd, bytes, true).0;
            && Ready(s'.pipes, fd - 1) && (Registered(s.regs, fd - 1) ==>
                 Armed(s'.regs, fd - 1) && RegFor(s'.regs, fd - 1) == RegFor(s.regs, fd - 1))
  {
    var s' := Write(s, fd, bytes, true).0;
    WriteValid(s, fd, bytes, true);
    var i := PipeFor(s.pipes, fd);
    assert s'.pipes[i].readFd == fd - 1;
    assert PipeFor(s'.pipes, fd - 1) == i;
    if Registered(s.regs, fd - 1) {
      RearmArms(s.regs, fd - 1);
    }
  }

  lemma RearmArms(regs: seq<Registration>, fd: int)
    requires Registered(regs, fd)
    ensures Armed(Rearm(regs, fd), fd) && RegFor(Rearm(regs, fd), fd) == RegFor(regs, fd)
  {
    assert Rearm(regs, fd)[RegFor(regs, fd)].fd == fd;
  }

  /** The step tells the guest or the host loop about `fd`. */
  predicate Reports(s: State, op: Op, fd: int) {
    match op
    case OpPoll(pending) => Poll(s, pending).1.Some? && Poll(s, pending).1.value.fd == fd
    case OpQueueReady(_) => QueuedSince(s, Step(s, op), fd)
    case _ => false
  }

  /** Undelivered registrations that a poll looks at before the one of `fd`. */
  function Ahead(regs: seq<Registration>, fd: int): (n: nat)
    ensures n <= RegFor(regs, fd)
  {
    if regs == [] || regs[0].fd == fd then 0 else (if regs[0].delivered then 0 else 1) + Ahead(regs[1..], fd)
  }

  // Every operation either leaves the registrations at their places, possibly with more behind them,
  // or takes some out.

  /** The same fds at the same places, then perhaps more. */
  ghost predicate InPlace(regs: seq<Registration>, regs': seq<Registration>) {
    |regs| <= |regs'| && forall i :: 0 <= i < |regs| ==> regs'[i].fd == regs[i].fd
  }

  lemma InPlaceFor(regs: seq<Registration>, regs': seq<Registration>, fd: int)
    requires InPlace(regs, regs') && Registered(regs, fd)
    ensures RegFor(regs', fd) == RegFor(regs, fd)
  {
    var i := RegFor(regs, fd);
    assert regs'[i].fd == fd;
  }

  lemma {:induction false} InPlaceAhead(regs: seq<Registration>, regs': seq<Registration>, fd: int, k: nat)
    requires InPlace(regs, regs') && Registered(regs, fd)
    requires forall i :: 0 <= i < RegFor(regs, fd) && regs[i].delivered ==> regs'[i].delivered
    ensures Ahead(regs', fd) <= Ahead(regs, fd)
    ensures k < RegFor(regs, fd) && !regs[k].delivered && regs'[k].delivered ==> Ahead(regs', fd) < Ahead(regs, fd)
  {
    if regs[0].fd != fd {
      assert regs'[0].fd == regs[0].fd;
      forall i | 0 <= i < |regs| - 1 ensures regs'[1..][i].fd == regs[1..][i].fd {
        assert regs'[i + 1].fd == regs[i + 1].fd;
      }
      forall i | 0 <= i < RegFor(regs[1..], fd) && regs[1..][i].delivered ensures regs'[1..][i].delivered {
        assert regs[i + 1].delivered;
      }
      InPlaceAhead(regs[1..], regs'[1..], fd, if k > 0 then k - 1 else 0);
    }
  }

  lemma {:induction false} WithoutAhead(regs: seq<Registration>, x: int, fd: int)
    requires x != fd
    ensures Ahead(Without(regs, x), fd) <= Ahead(regs, fd)
    ensures Registered(Without(regs, x), fd) <==> Registered(regs, fd)
    ensures Registered(regs, fd) ==> Without(regs, x)[RegFor(Without(regs, x), fd)] == regs[RegFor(regs, fd)]
  {
    if regs != [] {
      WithoutAhead(regs[1..], x, fd);
      var rest := Without(regs[1..], x);
      if regs[0].fd == fd {
        assert Without(regs, x) == [regs[0]] + rest;
      } else if regs[0].fd != x {
        assert Without(regs, x) == [regs[0]] + rest;
        BehindOne(regs[0], rest, fd);
      }
    }
  }

  lemma BehindOne(r: Registration, regs: seq<Registration>, fd: int)
    requires r.fd != fd
    ensures RegFor([r] + regs, fd) == 1 + RegFor(regs, fd)
    ensures Ahead([r] + regs, fd) == (if r.delivered then 0 else 1) + Ahead(regs, fd)
  {
    assert ([r] + regs)[1..] == regs;
  }

  lemma {:induction false} WithoutGone(regs: seq<Registration>, fd: int)
    ensures !Registered(Without(regs, fd), fd)
  {
    if Registered(Without(regs, fd), fd) {
      var i := WithoutFrom(regs, fd, RegFor(Without(regs, fd), fd));
      assert false;
    }
  }

  predicate Removes(op: Op) {
    op.OpRemoveFd? || (op.OpDetach? && op.queue)
  }

  function RemovedFd(op: Op): int
    requires Removes(op)
  {
    if op.OpRemoveFd? then op.fd else INPUT_QUEUE_FD
  }

  lemma StaysInPlace(s: State, op: Op)
    requires !Removes(op)
    ensures InPlace(s.regs, Step(s, op).regs)
  {
    if op.OpQueueReady? {
      QueueKeeps(s, s.attached && op.pending, 0);
    }
  }

  /** Only a report marks a registration delivered. */
  lemma DeliveredMeansReported(s: State, op: Op, fd: int)
    requires Armed(s.regs, fd) && Registered(Step(s, op).regs, fd) && !Armed(Step(s, op).regs, fd)
    ensures Reports(s, op, fd)
  {
    if Removes(op) {
      var x := RemovedFd(op);
      if x == fd {
        WithoutGone(s.regs, fd);
      } else {
        WithoutAhead(s.regs, x, fd);
      }
      assert false;
    } else {
      StaysInPlace(s, op);
      InPlaceFor(s.regs, Step(s, op).regs, fd);
      OnlyReportsMark(s, op, RegFor(s.regs, fd));
    }
  }

  lemma OnlyReportsMark(s: State, op: Op, k: nat)
    requires !Removes(op) && k < |s.regs| && !s.regs[k].delivered
    requires k < |Step(s, op).regs| && Step(s, op).regs[k].delivered
    ensures Reports(s, op, s.regs[k].fd)
  {
    if op.OpQueueReady? {
      QueueKeeps(s, s.attached && op.pending, 0);
    }
  }

  // ---- how long it takes ---------------------------------------------------------------------------

  /** No delivered registration ahead of `fd` that stays ahead of it is re-armed. Anything else may
      happen: registrations added, removed or replaced, and those behind `fd` re-armed. */
  ghost predicate NoneRearmedAhead(regs: seq<Registration>, regs': seq<Registration>, fd: int) {
    forall i, j ::
      0 <= i < RegFor(regs, fd) && 0 <= j < RegFor(regs', fd) && regs[i].fd == regs'[j].fd && regs[i].delivered ==>
        regs'[j].delivered
  }

  /** If the step is a poll, it finds `fd` due as long as `fd` is armed. */
  predicate Offered(s: State, op: Op, fd: int) {
    op.OpPoll? ==> Ready(s.pipes, fd) && (fd == INPUT_QUEUE_FD ==> s.attached && op.pending)
  }

  /** A poll that does not report an armed, ready `fd` works off a registration ahead of it. */
  lemma PollWorksOff(s: State, pending: bool, fd: int)
    requires Armed(s.regs, fd) && Offered(s, OpPoll(pending), fd) && !Reports(s, OpPoll(pending), fd)
    ensures Ahead(Poll(s, pending).0.regs, fd) < Ahead(s.regs, fd)
  {
    var k, i := RegFor(s.regs, fd), FirstDue(s, s.attached && pending, 0);
    assert Due(s.pipes, s.regs[k], s.attached && pending);
    assert i < k;
    InPlaceAhead(s.regs, Poll(s, pending).0.regs, fd, i);
  }

  /** Between two states `fd` stays armed, and nothing gets ahead of it. */
  lemma StepWaits(s: State, op: Op, fd: int)
    requires Armed(s.regs, fd) && Registered(Step(s, op).regs, fd) && !Reports(s, op, fd)
    requires Offered(s, op, fd) && NoneRearmedAhead(s.regs, Step(s, op).regs, fd)
    ensures Armed(Step(s, op).regs, fd)
    ensures Ahead(Step(s, op).regs, fd) + (if op.OpPoll? then 1 else 0) <= Ahead(s.regs, fd)
  {
    var regs' := Step(s, op).regs;
    if !Armed(regs', fd) {
      DeliveredMeansReported(s, op, fd);
    }
    if op.OpPoll? {
      PollWorksOff(s, op.pending, fd);
    } else if Removes(op) {
      var x := RemovedFd(op);
      if x == fd {
        WithoutGone(s.regs, fd);
      } else {
        WithoutAhead(s.regs, x, fd);
      }
    } else {
      StaysInPlace(s, op);
      InPlaceFor(s.regs, regs', fd);
      forall i | 0 <= i < RegFor(s.regs, fd) && s.regs[i].delivered ensures regs'[i].delivered {
        assert regs'[i].fd == s.regs[i].fd;
      }
      InPlaceAhead(s.regs, regs', fd, 0);
    }
  }

  function Polls(ops: seq<Op>): nat {
    if ops == [] then 0 else Polls(ops[..|ops| - 1]) + (if ops[|ops| - 1].OpPoll? then 1 else 0)
  }

  /** A stretch of a run during which `fd` stays registered, is ready whenever there is a poll, and nothing
      ahead of it is re-armed. */
  ghost predicate Undisturbed(t: seq<State>, ops: seq<Op>, fd: int) {
    |t| == |ops| + 1 && forall n :: 0 <= n < |ops| ==> Calm(t[n], ops[n], t[n + 1], fd)
  }

  ghost predicate Calm(s: State, op: Op, s': State, fd: int) {
    && s' == Step(s, op) && Offered(s, op, fd)
    && Registered(s'.regs, fd) && NoneRearmedAhead(s.regs, s'.regs, fd)
  }

  lemma UndisturbedPrefix(t: seq<State>, ops: seq<Op>, fd: int)
    requires Undisturbed(t, ops, fd) && ops != []
    ensures Undisturbed(t[..|ops|], ops[..|ops| - 1], fd)
  {
  }

  /** As long as `fd` goes unreported, every poll has shortened the queue ahead of it. */
  lemma {:induction false} Waiting(t: seq<State>, ops: seq<Op>, fd: int)
    requires Undisturbed(t, ops, fd) && Armed(t[0].regs, fd)
    requires forall n :: 0 <= n < |ops| ==> !Reports(t[n], ops[n], fd)
    ensures Armed(t[|ops|].regs, fd)
    ensures Polls(ops) + Ahead(t[|ops|].regs, fd) <= Ahead(t[0].regs, fd)
    decreases |ops|
  {
    if ops != [] {
      var n := |ops| - 1;
      UndisturbedPrefix(t, ops, fd);
      Waiting(t[..|ops|], ops[..n], fd);
      assert t[..|ops|][n] == t[n] && Calm(t[n], ops[n], t[n + 1], fd) && !Reports(t[n], ops[n], fd);
      StepWaits(t[n], ops[n], fd);
    }
  }

  /** A registered, armed descriptor is reported once there have been more polls than undelivered
      registrations ahead of it, hence within as many polls as there are registrations. */
  lemma ReportedInTime(t: seq<State>, ops: seq<Op>, fd: int)
    requires Undisturbed(t, ops, fd) && Armed(t[0].regs, fd)
    requires Polls(ops) > Ahead(t[0].regs, fd)
    ensures exists n :: 0 <= n < |ops| && Reports(t[n], ops[n], fd)
    ensures Ahead(t[0].regs, fd) < |t[0].regs|
  {
    if forall n :: 0 <= n < |ops| ==> !Reports(t[n], ops[n], fd) {
      Waiting(t, ops, fd);
      assert false;
    }
  }

  /** The same from a write to a pipe whose read end is registered. */
  lemma WrittenIsReported(s: State, fd: int, bytes: seq<byte>, t: seq<State>, ops: seq<Op>)
    requires Valid(s) && bytes != [] && Write(s, fd, bytes, true).1 == Done(|bytes|)
    requires Registered(s.regs, fd - 1)
    requires Undisturbed(t, ops, fd - 1) && t[0] == Write(s, fd, bytes, true).0
    requires Polls(ops) > RegFor(s.regs, fd - 1)
    ensures exists n :: 0 <= n < |ops| && Reports(t[n], ops[n], fd - 1)
  {
    WriteArms(s, fd, bytes);
    ReportedInTime(t, ops, fd - 1);
  }

  // ---- how long exactly, and what happens without the premise ------------------------------------------

  function PollTimes(s: State, pending: bool, n: nat): State
    decreases n
  {
    if n == 0 then s else Poll(PollTimes(s, pending, n - 1), pending).0
  }

  /** Due registrations that a poll looks at before the one of `fd`. */
  function DueAhead(pipes: seq<Pipe>, regs: seq<Registration>, input: bool, fd: int): (n: nat)
    ensures n == 0 <==> forall i :: 0 <= i < RegFor(regs, fd) ==> !Due(pipes, regs[i], input)
  {
    if regs == [] || regs[0].fd == fd then 0
    else
      assert forall i :: 0 <= i < |regs| - 1 ==> regs[1..][i] == regs[i + 1];
      (if Due(pipes, regs[0], input) then 1 else 0) + DueAhead(pipes, regs[1..], input, fd)
  }

  lemma {:induction false} OneLess(pipes: seq<Pipe>, regs: seq<Registration>, input: bool, fd: int, k: nat)
    requires k < RegFor(regs, fd) && Due(pipes, regs[k], input)
    ensures RegFor(regs[k := regs[k].(delivered := true)], fd) == RegFor(regs, fd)
    ensures DueAhead(pipes, regs[k := regs[k].(delivered := true)], input, fd) == DueAhead(pipes, regs, input, fd) - 1
  {
    var marked := regs[k := regs[k].(delivered := true)];
    if k == 0 {
      assert marked[1..] == regs[1..];
    } else {
      assert marked[1..] == regs[1..][k - 1 := regs[1..][k - 1].(delivered := true)];
      OneLess(pipes, regs[1..], input, fd, k - 1);
    }
  }

  predicate Settled(s: State, fd: int) {
    forall i :: 0 <= i < |s.regs| && s.regs[i].fd == fd ==> s.regs[i].delivered
  }

  lemma SettledStays(s: State, pending: bool, fd: int)
    requires Settled(s, fd)
    ensures Settled(Poll(s, pending).0, fd) && !Reports(s, OpPoll(pending), fd)
  {
  }

  predicate DueFor(s: State, pending: bool, fd: int) {
    Registered(s.regs, fd) && Due(s.pipes, s.regs[RegFor(s.regs, fd)], s.attached && pending)
  }

  function Turn(s: State, pending: bool, fd: int): nat {
    DueAhead(s.pipes, s.regs, s.attached && pending, fd)
  }

  /** The next poll reports a due `fd` exactly if nothing due is ahead of it. */
  lemma NextTurn(s: State, pending: bool, fd: int)
    requires DueFor(s, pending, fd)
    ensures FirstDue(s, s.attached && pending, 0) <= RegFor(s.regs, fd)
    ensures Turn(s, pending, fd) == 0 <==> FirstDue(s, s.attached && pending, 0) == RegFor(s.regs, fd)
    ensures Reports(s, OpPoll(pending), fd) <==> Turn(s, pending, fd) == 0
  {
  }

  lemma TurnOver(s: State, pending: bool, fd: int)
    requires RegsDistinct(s.regs) && Registered(s.regs, fd)
    requires FirstDue(s, s.attached && pending, 0) == RegFor(s.regs, fd)
    ensures Settled(Poll(s, pending).0, fd)
  {
  }

  lemma TurnComes(s: State, pending: bool, fd: int)
    requires RegsDistinct(s.regs) && DueFor(s, pending, fd)
    ensures var s1 := Poll(s, pending).0;
            if Turn(s, pending, fd) == 0 then Settled(s1, fd)
            else RegsDistinct(s1.regs) && DueFor(s1, pending, fd) && Turn(s1, pending, fd) == Turn(s, pending, fd) - 1
  {
    NextTurn(s, pending, fd);
    var k, j := FirstDue(s, s.attached && pending, 0), RegFor(s.regs, fd);
    if k < j {
      OneLess(s.pipes, s.regs, s.attached && pending, fd, k);
      assert Poll(s, pending).0 == s.(regs := Poll(s, pending).0.regs, queued := Poll(s, pending).0.queued);
      assert Poll(s, pending).0.regs == s.regs[k := s.regs[k].(delivered := true)];
    } else {
      TurnOver(s, pending, fd);
    }
  }

  ghost predicate Waits(s: State, pending: bool, fd: int, turn: int) {
    if turn >= 0 then RegsDistinct(s.regs) && DueFor(s, pending, fd) && Turn(s, pending, fd) == turn
    else Settled(s, fd)
  }

  lemma PollWaits(s: State, pending: bool, fd: int, turn: int)
    requires Waits(s, pending, fd, turn)
    ensures Waits(Poll(s, pending).0, pending, fd, turn - 1)
    ensures Reports(s, OpPoll(pending), fd) <==> turn == 0
  {
    if turn >= 0 {
      NextTurn(s, pending, fd);
      TurnComes(s, pending, fd);
    } else {
      SettledStays(s, pending, fd);
    }
  }

  lemma {:induction false} WaitsOn(s: State, pending: bool, fd: int, turn: int, n: nat)
    requires Waits(s, pending, fd, turn)
    ensures Waits(PollTimes(s, pending, n), pending, fd, turn - n)
    decreases n
  {
    if n > 0 {
      WaitsOn(s, pending, fd, turn, n - 1);
      PollWaits(PollTimes(s, pending, n - 1), pending, fd, turn - (n - 1));
    }
  }

  /** If the guest does nothing but poll, a due `fd` is reported once: by the poll that follows as many
      others as there are due registrations ahead of it. */
  lemma ReportedExactly(s: State, pending: bool, fd: int, n: nat)
    requires RegsDistinct(s.regs) && DueFor(s, pending, fd)
    ensures Reports(PollTimes(s, pending, n), OpPoll(pending), fd) <==> n == Turn(s, pending, fd)
  {
    var turn := Turn(s, pending, fd);
    WaitsOn(s, pending, fd, turn, n);
    PollWaits(PollTimes(s, pending, n), pending, fd, turn - n);
  }

  /** Rounds of ALooper_wake and a poll. */
  function Rounds(s: State, pending: bool, n: nat): State {
    if n == 0 then s else Poll(Wake(Rounds(s, pending, n - 1)), pending).0
  }

  lemma RoundKeeps(s: State, pending: bool)
    ensures var s' := Poll(Wake(s), pending).0;
            s'.pipes == s.pipes && InPlace(s.regs, s'.regs) && InPlace(s.regs, Wake(s).regs)
  {
  }

  lemma FrontFirst(s: State, pending: bool)
    requires s.regs != [] && s.regs[0].fd != INPUT_QUEUE_FD && Ready(s.pipes, s.regs[0].fd)
    ensures Poll(Wake(s), pending).1.Some? && Poll(Wake(s), pending).1.value.fd == s.regs[0].fd
  {
    var w := Wake(s);
    assert Due(w.pipes, w.regs[0], w.attached && pending);
  }

  /** Re-arming what is ahead can keep an armed, ready descriptor waiting for any number of polls. */
  lemma {:induction false} Starved(s: State, pending: bool, fd: int, n: nat)
    requires Registered(s.regs, fd) && s.regs[0].fd != fd
    requires s.regs[0].fd != INPUT_QUEUE_FD && Ready(s.pipes, s.regs[0].fd)
    ensures var s' := Rounds(s, pending, n);
            && s'.pipes == s.pipes && InPlace(s.regs, s'.regs)
            && Armed(Wake(s').regs, fd) && !Reports(Wake(s'), OpPoll(pending), fd)
  {
    if n > 0 {
      Starved(s, pending, fd, n - 1);
      RoundKeeps(Rounds(s, pending, n - 1), pending);
    }
    var s' := Rounds(s, pending, n);
    InPlaceFor(s.regs, s'.regs, fd);
    RoundKeeps(s', pending);
    InPlaceFor(s'.regs, Wake(s').regs, fd);
    FrontFirst(s', pending);
  }

  // ---- what the guest is told ---------------------------------------------------------------------------

  const POLL_CALLBACK := -2
  const POLL_TIMEOUT := -3

  /** The register value of a poll. */
  function PollAnswer(s: State, pending: bool): int {
    match Poll(s, pending).1
    case None => POLL_TIMEOUT
    case Some(r) => if r.callback != 0 then POLL_CALLBACK else r.ident
  }

  /** The input queue was never attached without a callback under a negative ident. */
  predicate Spoken(ops: seq<Op>) {
    forall k :: 0 <= k < |ops| && ops[k].OpAttach? && ops[k].queue ==> ops[k].callback != 0 || ops[k].ident >= 0
  }

  predicate Tells(r: Registration) {
    r.callback != 0 || r.ident >= 0
  }

  ghost predicate AllTell(regs: seq<Registration>) {
    forall i :: 0 <= i < |regs| ==> Tells(regs[i])
  }

  lemma WithoutTells(regs: seq<Registration>, fd: int)
    requires AllTell(regs)
    ensures AllTell(Without(regs, fd))
  {
    forall k | 0 <= k < |Without(regs, fd)| ensures Tells(Without(regs, fd)[k]) {
      var i := WithoutFrom(regs, fd, k);
    }
  }

  lemma {:induction false} QueueTells(s: State, input: bool, i: nat)
    requires i <= |s.regs| && AllTell(s.regs)
    ensures AllTell(QueueFrom(s, input, i).regs)
    decreases |s.regs| - i
  {
    if i < |s.regs| {
      var r := s.regs[i].(delivered := true);
      assert Tells(s.regs[i]);
      QueueTells(s.(regs := s.regs[i := r], queued := s.queued + [r]), input, i + 1);
      QueueTells(s, input, i + 1);
    }
  }

  lemma PutTells(regs: seq<Registration>, r: Registration)
    requires AllTell(regs) && Tells(r)
    ensures AllTell(Put(regs, r))
  {
  }

  lemma StepTells(s: State, op: Op)
    requires AllTell(s.regs) && (op.OpAttach? && op.queue ==> op.callback != 0 || op.ident >= 0)
    ensures AllTell(Step(s, op).regs)
  {
    if Removes(op) {
      WithoutTells(s.regs, RemovedFd(op));
    } else if op.OpQueueReady? {
      QueueTells(s, s.attached && op.pending, 0);
    } else if op.OpAddFd? && AddFd(s, op.fd, op.ident, op.events, op.callback, op.data).1 {
      PutTells(s.regs, Registration(op.fd, op.ident, op.events, op.callback, op.data, false));
    } else if op.OpAttach? && op.queue {
      PutTells(s.regs, Registration(INPUT_QUEUE_FD, op.ident, 1, op.callback, op.data, false));
    } else {
      MarksTell(s, op);
    }
  }

  lemma MarksTell(s: State, op: Op)
    requires AllTell(s.regs) && !op.OpQueueReady? && !Removes(op) && (op.OpAddFd? ==> !AddFd(s, op.fd, op.ident, op.events, op.callback, op.data).1)
    requires !(op.OpAttach? && op.queue)
    ensures AllTell(Step(s, op).regs)
  {
  }

  lemma {:induction false} RunTells(ops: seq<Op>)
    requires Spoken(ops)
    ensures AllTell(Run(Init(), ops).regs)
  {
    if ops != [] {
      var n := |ops| - 1;
      RunTells(ops[..n]);
      StepTells(Run(Init(), ops[..n]), ops[n]);
    }
  }

  /** Over such runs the answer of a poll tells timeout, callback and ident apart. */
  lemma AnswerTells(ops: seq<Op>, pending: bool)
    requires Spoken(ops)
    ensures var s := Run(Init(), ops);
            var r := Poll(s, pending).1;
            && (PollAnswer(s, pending) == POLL_TIMEOUT <==> r == None)
            && (PollAnswer(s, pending) == POLL_CALLBACK <==> r.Some? && r.value.callback != 0)
  {
    RunTells(ops);
    var s := Run(Init(), ops);
    assert Poll(s, pending).1.Some? ==> Tells(s.regs[FirstDue(s, s.attached && pending, 0)]);
  }

  /** Otherwise a report can be taken for a timeout, and the input queue counts as delivered. */
  lemma MisreadTimeout(s: State)
    requires s == Run(Init(), [OpAttach(true, POLL_TIMEOUT, 0, 0)])
    ensures PollAnswer(s, true) == POLL_TIMEOUT && Reports(s, OpPoll(true), INPUT_QUEUE_FD)
    ensures Poll(Poll(s, true).0, true).1 == None
  {
    var op := OpAttach(true, POLL_TIMEOUT, 0, 0);
    assert [op][..0] == [] && Run(Init(), []) == Init();
    assert s == Step(Init(), op);
  }
}
