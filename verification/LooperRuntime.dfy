/** The runtime object behind the pipe and looper handlers. Its invariant holds between any two calls:
    pipe ends and registrations are distinct and every pipe is first in, first out. */
module LooperRuntime {
  import opened Words
  import opened LooperModel
  import Meaning = LooperMeaning

  class Looper {
    var pipes: seq<Pipe>
    var nextFd: int
    var regs: seq<Registration>
    var attached: bool
    var queued: seq<Registration>
    ghost var history: seq<History>

    constructor ()
      ensures Valid() && View() == Init()
    {
      pipes, nextFd, regs, attached, queued, history := [], FIRST_PIPE_FD, [], false, [], [];
    }

    ghost function View(): State
      reads this
    {
      State(pipes, nextFd, regs, attached, queued, history)
    }

    ghost predicate Valid()
      reads this
    {
      LooperModel.Valid(View())
    }

    method FindPipe(fd: int) returns (i: nat)
      ensures i == PipeFor(pipes, fd)
      ensures if i < |pipes| then Meaning.Finds(pipes, fd, i) else Meaning.NoPipe(pipes, fd)
    {
      i := 0;
      assert pipes[0..] == pipes;
      while i < |pipes|
        invariant i <= |pipes| && i + PipeFor(pipes[i..], fd) == PipeFor(pipes, fd)
      {
        if pipes[i].readFd == fd || pipes[i].writeFd == fd { return; }
        assert pipes[i..][1..] == pipes[i + 1..];
        i := i + 1;
      }
    }

    method FdReady(fd: int) returns (ready: bool)
      ensures ready == Ready(pipes, fd)
      ensures Meaning.NoPipe(pipes, fd) ==> ready
      ensures forall i: nat :: Meaning.Finds(pipes, fd, i) ==>
                (ready <==> if fd == pipes[i].readFd then |pipes[i].buffer| > 0 || !pipes[i].writeOpen else pipes[i].writeOpen)
    {
      Meaning.ReadyExactly(pipes, fd);
      var i := FindPipe(fd);
      if i == |pipes| { return true; }
      if fd == pipes[i].readFd { return pipes[i].buffer != [] || !pipes[i].writeOpen; }
      ready := pipes[i].writeOpen;
    }

    method RearmFd(fd: int)
      modifies this`regs
      ensures regs == Rearm(old(regs), fd)
    {
      var i := 0;
      ghost var target := Rearm(regs, fd);
      while i < |regs|
        invariant i <= |regs| == |old(regs)|
        invariant forall j :: 0 <= j < |regs| ==> regs[j] == if j < i then target[j] else old(regs)[j]
      {
        if regs[i].fd == fd {
          regs := regs[i := regs[i].(delivered := false)];
        }
        i := i + 1;
      }
    }

    method CreatePipe(out: bool) returns (r: Outcome)
      requires Valid()
      modifies this
      ensures Valid()
      ensures (View(), r) == LooperModel.CreatePipe(old(View()), out)
      ensures out <==> r == Done(0)
      ensures out ==> |pipes| == |old(pipes)| + 1 && pipes[..|old(pipes)|] == old(pipes)
      ensures out ==> var p := pipes[|old(pipes)|];
                      FreshEnd(old(pipes), pipes, p.readFd) && FreshEnd(old(pipes), pipes, p.writeFd)
                      && p.readFd != p.writeFd && !Ready(pipes, p.readFd) && Ready(pipes, p.writeFd)
    {
      StepValid(View(), OpPipe(out));
      NewPipe(View());
      if !out { return Fault; }
      pipes := pipes + [Pipe(nextFd, nextFd + 1, true, true, [])];
      nextFd := nextFd + 2;
      history := history + [History([], [])];
      r := Done(0);
    }

    method Read(fd: int, want: nat, buffer: bool, copied: bool) returns (r: Outcome, bytes: seq<byte>)
      requires Valid()
      modifies this
      ensures Valid()
      ensures (View(), r) == LooperModel.Read(old(View()), fd, want, buffer, copied)
      ensures Meaning.ReadDone(old(View()), View(), fd, want, buffer, copied, r)
      ensures r.Done? ==> |bytes| == r.n &&
                          (r.n > 0 ==> bytes <= old(pipes)[PipeFor(old(pipes), fd)].buffer)
    {
      Meaning.ReadMeans(View(), fd, want, buffer, copied);
      StepValid(View(), OpRead(fd, want, buffer, copied));
      bytes := [];
      if fd == 0 { return HostFile, []; }
      var i := FindPipe(fd);
      if i == |pipes| || fd != pipes[i].readFd || !pipes[i].readOpen { return BadFd, []; }
      if !buffer && want != 0 { return Fault, []; }
      var p := pipes[i];
      var n := Min(want, |p.buffer|);
      if n == 0 { return if p.writeOpen then Again else Done(0), []; }
      if !copied { return Fault, []; }
      bytes := p.buffer[..n];
      pipes := pipes[i := p.(buffer := p.buffer[n..])];
      if i < |history| {
        history := history[i := history[i].(taken := history[i].taken + p.buffer[..n])];
      }
      if pipes[i].buffer != [] {
        RearmFd(p.readFd);
      }
      r := Done(n);
    }

    method Write(fd: int, bytes: seq<byte>, readable: bool) returns (r: Outcome)
      requires Valid()
      modifies this
      ensures Valid()
      ensures (View(), r) == LooperModel.Write(old(View()), fd, bytes, readable)
      ensures Meaning.WriteDone(old(View()), View(), fd, bytes, readable, r)
    {
      Meaning.WriteMeans(View(), fd, bytes, readable);
      StepValid(View(), OpWrite(fd, bytes, readable));
      r := Append(fd, bytes, readable);
    }

    method Append(fd: int, bytes: seq<byte>, readable: bool) returns (r: Outcome)
      modifies this
      ensures (View(), r) == LooperModel.Write(old(View()), fd, bytes, readable)
    {
      if !readable { return Fault; }
      if fd == 1 || fd == 2 { return HostFile; }
      var i := FindPipe(fd);
      if i == |pipes| || fd != pipes[i].writeFd || !pipes[i].writeOpen { return BadFd; }
      pipes := pipes[i := pipes[i].(buffer := pipes[i].buffer + bytes)];
      if i < |history| {
        history := history[i := history[i].(written := history[i].written + bytes)];
      }
      RearmFd(pipes[i].readFd);
      r := Done(|bytes|);
    }

    method Close(fd: int) returns (r: Outcome)
      requires Valid()
      modifies this
      ensures Valid()
      ensures (View(), r) == LooperModel.Close(old(View()), fd)
      ensures Meaning.CloseDone(old(View()), View(), fd, r)
    {
      Meaning.CloseMeans(View(), fd);
      StepValid(View(), OpClose(fd));
      var i := FindPipe(fd);
      if i == |pipes| { return BadFd; }
      var p := pipes[i];
      if fd == p.readFd {
        p := p.(readOpen := false);
      }
      if fd == p.writeFd {
        p := p.(writeOpen := false);
        RearmFd(p.readFd);
      }
      pipes := pipes[i := p];
      r := Done(0);
    }

    method FindReg(fd: int) returns (i: nat)
      ensures i == RegFor(regs, fd)
    {
      i := 0;
      assert regs[0..] == regs;
      while i < |regs| && regs[i].fd != fd
        invariant i <= |regs| && i + RegFor(regs[i..], fd) == RegFor(regs, fd)
      {
        assert regs[i..][1..] == regs[i + 1..];
        i := i + 1;
      }
    }

    method AddFd(fd: int, ident: int, events: int, callback: nat, data: nat) returns (ok: bool)
      requires Valid()
      modifies this`regs
      ensures Valid()
      ensures (View(), ok) == LooperModel.AddFd(old(View()), fd, ident, events, callback, data)
      ensures Meaning.Added(old(View()), View(), fd, ident, events, callback, data, ok)
    {
      Meaning.AddMeans(View(), fd, ident, events, callback, data);
      StepValid(View(), OpAddFd(fd, ident, events, callback, data));
      if fd < 0 || (callback == 0 && ident < 0) { return false; }
      PutReg(Registration(fd, ident, events, callback, data, false));
      ok := true;
    }

    /** Replaces the registration with the same fd, or appends. */
    method PutReg(r: Registration)
      modifies this`regs
      ensures regs == Put(old(regs), r)
    {
      var i := FindReg(r.fd);
      regs := if i == |regs| then regs + [r] else regs[i := r];
    }

    method AttachLooper(queue: bool, ident: int, callback: nat, data: nat)
      requires Valid()
      modifies this`regs, this`attached
      ensures Valid()
      ensures View() == Attach(old(View()), queue, ident, callback, data)
      ensures if queue then attached && Meaning.Placed(old(regs), regs, Registration(91, ident, 1, callback, data, false))
              else View() == old(View())
    {
      Meaning.QueueMeans(View(), ident, callback, data);
      StepValid(View(), OpAttach(queue, ident, callback, data));
      if !queue { return; }
      attached := true;
      PutReg(Registration(INPUT_QUEUE_FD, ident, 1, callback, data, false));
    }

    method DetachLooper(queue: bool)
      requires Valid()
      modifies this`regs, this`attached
      ensures Valid()
      ensures View() == Detach(old(View()), queue)
      ensures if queue then !attached && exists at :: Meaning.Removed(old(regs), regs, 91, at) else View() == old(View())
    {
      Meaning.WithoutMeans(regs, 91);
      StepValid(View(), OpDetach(queue));
      if !queue { return; }
      attached := false;
      EraseFd(INPUT_QUEUE_FD);
    }

    /** The end of event collection: new events re-arm the input queue if it is attached. */
    method CollectInput()
      requires Valid()
      modifies this`regs
      ensures Valid()
      ensures View() == InputArrived(old(View()))
      ensures if attached then Meaning.Rearmed(old(regs), regs, 91) else regs == old(regs)
    {
      StepValid(View(), OpInputArrived);
      if attached {
        RearmFd(INPUT_QUEUE_FD);
      }
    }

    method RemoveFd(fd: int) returns (found: bool)
      requires Valid()
      modifies this`regs
      ensures Valid()
      ensures (View(), found) == LooperModel.RemoveFd(old(View()), fd)
      ensures exists at :: Meaning.Removed(old(regs), regs, fd, at)
      ensures found <==> exists i :: 0 <= i < |old(regs)| && old(regs)[i].fd == fd
    {
      Meaning.WithoutMeans(regs, fd);
      Meaning.WithoutShrinks(regs, fd);
      StepValid(View(), OpRemoveFd(fd));
      var size := |regs|;
      EraseFd(fd);
      found := |regs| != size;
    }

    method EraseFd(fd: int)
      modifies this`regs
      ensures regs == Without(old(regs), fd)
    {
      var kept: seq<Registration> := [];
      assert regs[0..] == regs;
      for i := 0 to |regs|
        invariant kept + Without(regs[i..], fd) == Without(regs, fd)
      {
        assert regs[i..][1..] == regs[i + 1..];
        if regs[i].fd != fd {
          assert kept + ([regs[i]] + Without(regs[i + 1..], fd)) == (kept + [regs[i]]) + Without(regs[i + 1..], fd);
          kept := kept + [regs[i]];
        }
      }
      assert kept + [] == kept;
      regs := kept;
    }

    method Wake()
      requires Valid()
      modifies this`regs
      ensures Valid()
      ensures View() == LooperModel.Wake(old(View()))
      ensures |regs| == |old(regs)| && forall k :: 0 <= k < |regs| ==> regs[k] == old(regs)[k].(delivered := false)
    {
      StepValid(View(), OpWake);
      var i := 0;
      while i < |regs|
        invariant i <= |regs| == |old(regs)|
        invariant forall j :: 0 <= j < |regs| ==>
                    regs[j] == if j < i then old(regs)[j].(delivered := false) else old(regs)[j]
      {
        regs := regs[i := regs[i].(delivered := false)];
        i := i + 1;
      }
    }

    /** `answer` is the register value. */
    method Poll(pending: bool) returns (r: Option<Registration>, answer: int)
      requires Valid()
      modifies this`regs, this`queued
      ensures Valid()
      ensures (View(), r) == LooperModel.Poll(old(View()), pending)
      ensures answer == PollAnswer(old(View()), pending)
      ensures Meaning.PollDone(old(View()), View(), pending, r, answer)
    {
      Meaning.PollMeans(View(), pending);
      StepValid(View(), OpPoll(pending));
      r, answer := ReportFirst(pending);
    }

    method ReportFirst(pending: bool) returns (r: Option<Registration>, answer: int)
      modifies this`regs, this`queued
      ensures (View(), r) == LooperModel.Poll(old(View()), pending)
      ensures answer == PollAnswer(old(View()), pending)
    {
      var i := 0;
      ghost var input := attached && pending;
      while i < |regs|
        invariant i <= |regs| && View() == old(View()) && FirstDue(View(), input, 0) == FirstDue(View(), input, i)
      {
        if !regs[i].delivered && (regs[i].fd == INPUT_QUEUE_FD ==> attached && pending) {
          var ready := FdReady(regs[i].fd);
          if ready {
            regs := regs[i := regs[i].(delivered := true)];
            if regs[i].callback != 0 {
              queued := queued + [regs[i]];
              return Some(regs[i]), POLL_CALLBACK;
            }
            return Some(regs[i]), regs[i].ident;
          }
        }
        i := i + 1;
      }
      r, answer := None, POLL_TIMEOUT;
    }

    method QueueReady(pending: bool) returns (worked: bool)
      requires Valid()
      modifies this`regs, this`queued
      ensures Valid()
      ensures View() == QueueFrom(old(View()), attached && pending, 0)
      ensures Meaning.QueueDone(old(View()), View(), pending)
    {
      Meaning.QueueReadyMeans(View(), pending);
      StepValid(View(), OpQueueReady(pending));
      worked := false;
      var i := 0;
      ghost var input := attached && pending;
      while i < |regs|
        invariant i <= |regs| && QueueFrom(View(), input, i) == QueueFrom(old(View()), input, 0)
      {
        if !regs[i].delivered && regs[i].callback != 0 && (regs[i].fd == INPUT_QUEUE_FD ==> attached && pending) {
          var ready := FdReady(regs[i].fd);
          if ready {
            regs := regs[i := regs[i].(delivered := true)];
            queued := queued + [regs[i]];
            worked := true;
          }
        }
        i := i + 1;
      }
    }
  }

  /** A descriptor that no pipe had before and that the new pipe, the last one, has now. */
  predicate FreshEnd(before: seq<Pipe>, after: seq<Pipe>, fd: int) {
    |after| == |before| + 1 && PipeFor(before, fd) == |before| && PipeFor(after, fd) == |before|
  }

  lemma NewPipe(s: State)
    requires LooperModel.Valid(s)
    ensures var pipes := LooperModel.CreatePipe(s, true).0.pipes;
            && FreshEnd(s.pipes, pipes, s.nextFd) && FreshEnd(s.pipes, pipes, s.nextFd + 1)
            && !Ready(pipes, s.nextFd) && Ready(pipes, s.nextFd + 1)
  {
    var n, pipes := |s.pipes|, LooperModel.CreatePipe(s, true).0.pipes;
    NoSuchPipe(s.pipes, s.nextFd, s.nextFd);
    NoSuchPipe(s.pipes, s.nextFd, s.nextFd + 1);
    LastPipe(s.pipes, pipes[n], s.nextFd);
    LastPipe(s.pipes, pipes[n], s.nextFd + 1);
  }

  lemma NoSuchPipe(pipes: seq<Pipe>, nextFd: int, fd: int)
    requires PipesValid(pipes, nextFd) && fd >= nextFd
    ensures PipeFor(pipes, fd) == |pipes|
  {
  }

  lemma LastPipe(pipes: seq<Pipe>, p: Pipe, fd: int)
    requires PipeFor(pipes, fd) == |pipes| && (p.readFd == fd || p.writeFd == fd)
    ensures PipeFor(pipes + [p], fd) == |pipes|
  {
    var more := pipes + [p];
    assert more[|pipes|] == p;
    forall j | 0 <= j < |pipes| ensures more[j].readFd != fd && more[j].writeFd != fd {
      assert more[j] == pipes[j];
    }
  }
}
