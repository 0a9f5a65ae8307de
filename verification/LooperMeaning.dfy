/** What every pipe and looper handler does, in plain terms of the two states, and how a descriptor that is
    added, written and polled is answered. */
module LooperMeaning {
  import opened Words
  import opened LooperModel

  // ---- pipes -----------------------------------------------------------------------------------------------

  /** Pipe `i` is the first with this end. */
  ghost predicate Finds(pipes: seq<Pipe>, fd: int, i: nat) {
    && i < |pipes| && (pipes[i].readFd == fd || pipes[i].writeFd == fd)
    && forall j :: 0 <= j < i ==> pipes[j].readFd != fd && pipes[j].writeFd != fd
  }

  ghost predicate NoPipe(pipes: seq<Pipe>, fd: int) {
    forall i :: 0 <= i < |pipes| ==> pipes[i].readFd != fd && pipes[i].writeFd != fd
  }

  /** No pipe but `i` is different. */
  ghost predicate OtherPipesSame(pipes: seq<Pipe>, pipes': seq<Pipe>, i: nat) {
    |pipes'| == |pipes| && forall j :: 0 <= j < |pipes| && j != i ==> pipes'[j] == pipes[j]
  }

  /** Exactly the registrations of `fd` are re-armed. */
  ghost predicate Rearmed(regs: seq<Registration>, regs': seq<Registration>, fd: int) {
    |regs'| == |regs| && forall k :: 0 <= k < |regs| ==>
      regs'[k] == if regs[k].fd == fd then regs[k].(delivered := false) else regs[k]
  }

  /** A descriptor that is no pipe is always ready, a read end with bytes or without a writer, a write end
      while it is open. */
  lemma ReadyExactly(pipes: seq<Pipe>, fd: int)
    ensures NoPipe(pipes, fd) ==> Ready(pipes, fd)
    ensures forall i: nat :: Finds(pipes, fd, i) && fd == pipes[i].readFd ==>
              (Ready(pipes, fd) <==> |pipes[i].buffer| > 0 || !pipes[i].writeOpen)
    ensures forall i: nat :: Finds(pipes, fd, i) && fd != pipes[i].readFd ==> (Ready(pipes, fd) <==> pipes[i].writeOpen)
  {
    FoundOnce(pipes, fd);
  }

  lemma FoundOnce(pipes: seq<Pipe>, fd: int)
    ensures PipeFor(pipes, fd) == |pipes| <==> NoPipe(pipes, fd)
    ensures forall i: nat :: Finds(pipes, fd, i) <==> i == PipeFor(pipes, fd) && i < |pipes|
  {
  }

  /** read: every outcome, and what is left in the pipe. */
  ghost predicate ReadDone(s: State, s': State, fd: int, want: nat, buffer: bool, copied: bool, r: Outcome) {
    if fd == 0 then r == HostFile && s' == s
    else if !exists i: nat :: Finds(s.pipes, fd, i) && fd == s.pipes[i].readFd && s.pipes[i].readOpen then r == BadFd && s' == s
    else exists i: nat :: Finds(s.pipes, fd, i) && fd == s.pipes[i].readFd && s.pipes[i].readOpen && ReadFrom(s, s', i, want, buffer, copied, r)
  }

  ghost predicate ReadFrom(s: State, s': State, i: nat, want: nat, buffer: bool, copied: bool, r: Outcome)
    requires i < |s.pipes|
  {
    var p := s.pipes[i];
    if !buffer && want > 0 then r == Fault && s' == s
    else if want == 0 || |p.buffer| == 0 then s' == s && r == if p.writeOpen then Again else Done(0)
    else if !copied then r == Fault && s' == s
    else
      && r.Done? && r.n == (if want < |p.buffer| then want else |p.buffer|)
      && s' == s.(pipes := s'.pipes, regs := s'.regs, history := s'.history)
      && OtherPipesSame(s.pipes, s'.pipes, i) && s'.pipes[i] == p.(buffer := p.buffer[r.n..])
      && (if |p.buffer| > r.n then Rearmed(s.regs, s'.regs, p.readFd) else s'.regs == s.regs)
  }

  lemma ReadMeans(s: State, fd: int, want: nat, buffer: bool, copied: bool)
    ensures ReadDone(s, Read(s, fd, want, buffer, copied).0, fd, want, buffer, copied, Read(s, fd, want, buffer, copied).1)
  {
    FoundOnce(s.pipes, fd);
    var i := PipeFor(s.pipes, fd);
    if i < |s.pipes| && fd == s.pipes[i].readFd && s.pipes[i].readOpen && fd != 0 {
      assert Finds(s.pipes, fd, i);
      assert ReadFrom(s, Read(s, fd, want, buffer, copied).0, i, want, buffer, copied, Read(s, fd, want, buffer, copied).1);
    }
  }

  /** write: every outcome; the bytes go to the end of the buffer and the read end is re-armed. */
  ghost predicate WriteDone(s: State, s': State, fd: int, bytes: seq<byte>, readable: bool, r: Outcome) {
    if !readable then r == Fault && s' == s
    else if fd == 1 || fd == 2 then r == HostFile && s' == s
    else if !exists i: nat :: Finds(s.pipes, fd, i) && fd == s.pipes[i].writeFd && s.pipes[i].writeOpen then r == BadFd && s' == s
    else exists i: nat ::
      && Finds(s.pipes, fd, i) && fd == s.pipes[i].writeFd && s.pipes[i].writeOpen && r == Done(|bytes|)
      && s' == s.(pipes := s'.pipes, regs := s'.regs, history := s'.history)
      && OtherPipesSame(s.pipes, s'.pipes, i)
      && s'.pipes[i] == s.pipes[i].(buffer := s.pipes[i].buffer + bytes)
      && Rearmed(s.regs, s'.regs, s.pipes[i].readFd)
  }

  lemma WriteMeans(s: State, fd: int, bytes: seq<byte>, readable: bool)
    ensures WriteDone(s, Write(s, fd, bytes, readable).0, fd, bytes, readable, Write(s, fd, bytes, readable).1)
  {
    FoundOnce(s.pipes, fd);
  }

  /** close: the end named is shut; closing a write end re-arms the read end. */
  ghost predicate CloseDone(s: State, s': State, fd: int, r: Outcome) {
    if NoPipe(s.pipes, fd) then r == BadFd && s' == s
    else exists i: nat ::
      && Finds(s.pipes, fd, i) && r == Done(0) && s' == s.(pipes := s'.pipes, regs := s'.regs)
      && OtherPipesSame(s.pipes, s'.pipes, i)
      && s'.pipes[i] == s.pipes[i].(readOpen := s.pipes[i].readOpen && fd != s.pipes[i].readFd,
                                    writeOpen := s.pipes[i].writeOpen && fd != s.pipes[i].writeFd)
      && (if fd == s.pipes[i].writeFd then Rearmed(s.regs, s'.regs, s.pipes[i].readFd) else s'.regs == s.regs)
  }

  lemma CloseMeans(s: State, fd: int)
    ensures CloseDone(s, Close(s, fd).0, fd, Close(s, fd).1)
  {
    FoundOnce(s.pipes, fd);
    var i := PipeFor(s.pipes, fd);
    if i < |s.pipes| {
      assert Finds(s.pipes, fd, i);
    }
  }

  // ---- registrations ------------------------------------------------------------------------------------------

  /** `r` stands at the old place of its descriptor if it had one, else at the end; nothing else moved. */
  ghost predicate Placed(regs: seq<Registration>, regs': seq<Registration>, r: Registration) {
    exists k ::
      && 0 <= k < |regs'| && regs'[k] == r
      && (if k < |regs| then regs[k].fd == r.fd && |regs'| == |regs| else k == |regs| && |regs'| == |regs| + 1)
      && (forall j :: 0 <= j < k && j < |regs| ==> regs[j].fd != r.fd)
      && (forall j :: 0 <= j < |regs| && j != k ==> regs'[j] == regs[j])
  }

  lemma PutPlaces(regs: seq<Registration>, r: Registration)
    ensures Placed(regs, Put(regs, r), r)
  {
    var k := RegFor(regs, r.fd);
    assert Put(regs, r)[k] == r;
  }

  /** ALooper_addFd succeeds exactly for a descriptor with a callback or an ident that is not negative. */
  ghost predicate Added(s: State, s': State, fd: int, ident: int, events: int, callback: nat, data: nat, ok: bool) {
    && (ok <==> fd >= 0 && (callback != 0 || ident >= 0))
    && (!ok ==> s' == s)
    && (ok ==> s' == s.(regs := s'.regs) && Placed(s.regs, s'.regs, Registration(fd, ident, events, callback, data, false)))
  }

  lemma AddMeans(s: State, fd: int, ident: int, events: int, callback: nat, data: nat)
    ensures var r := AddFd(s, fd, ident, events, callback, data); Added(s, r.0, fd, ident, events, callback, data, r.1)
  {
    PutPlaces(s.regs, Registration(fd, ident, events, callback, data, false));
  }

  /** The registrations without those of `fd`: every other one, in order. `at` says where they stood. */
  ghost predicate Removed(regs: seq<Registration>, regs': seq<Registration>, fd: int, at: seq<nat>) {
    && |at| == |regs'| && (forall k, m :: 0 <= k < m < |at| ==> at[k] < at[m])
    && (forall k :: 0 <= k < |at| ==> at[k] < |regs| && regs'[k] == regs[at[k]] && regs[at[k]].fd != fd)
    && (forall i :: 0 <= i < |regs| && regs[i].fd != fd ==> i in at)
  }

  /** The places of the others, from place `base` on. */
  function Places(regs: seq<Registration>, fd: int, base: nat): seq<nat> {
    if regs == [] then [] else (if regs[0].fd == fd then [] else [base]) + Places(regs[1..], fd, base + 1)
  }

  /** The same for a list whose first registration has the place `base`. */
  ghost predicate PlacedFrom(regs: seq<Registration>, kept: seq<Registration>, fd: int, at: seq<nat>, base: nat) {
    && |at| == |kept| && (forall k, m :: 0 <= k < m < |at| ==> at[k] < at[m])
    && (forall k :: 0 <= k < |at| ==> InPlaceOf(regs, kept[k], fd, at[k], base))
    && (forall i :: 0 <= i < |regs| && regs[i].fd != fd ==> base + i in at)
  }

  predicate InPlaceOf(regs: seq<Registration>, r: Registration, fd: int, place: nat, base: nat) {
    base <= place < base + |regs| && r == regs[place - base] && r.fd != fd
  }

  lemma {:induction false} PlacesMean(regs: seq<Registration>, fd: int, base: nat)
    ensures PlacedFrom(regs, Without(regs, fd), fd, Places(regs, fd, base), base)
  {
    if regs != [] {
      PlacesMean(regs[1..], fd, base + 1);
      if regs[0].fd == fd {
        PlacedSkip(regs, Without(regs[1..], fd), fd, Places(regs[1..], fd, base + 1), base);
      } else {
        PlacedCons(regs, Without(regs[1..], fd), fd, Places(regs[1..], fd, base + 1), base);
      }
    }
  }

  lemma PlacedSkip(regs: seq<Registration>, kept: seq<Registration>, fd: int, at: seq<nat>, base: nat)
    requires regs != [] && regs[0].fd == fd && PlacedFrom(regs[1..], kept, fd, at, base + 1)
    ensures PlacedFrom(regs, kept, fd, at, base)
  {
    forall k | 0 <= k < |at| ensures InPlaceOf(regs, kept[k], fd, at[k], base) {
      assert InPlaceOf(regs[1..], kept[k], fd, at[k], base + 1);
    }
    forall i | 0 <= i < |regs| && regs[i].fd != fd ensures base + i in at {
      assert regs[1..][i - 1] == regs[i];
      assert base + 1 + (i - 1) in at;
    }
  }

  lemma PlacedCons(regs: seq<Registration>, kept: seq<Registration>, fd: int, at: seq<nat>, base: nat)
    requires regs != [] && regs[0].fd != fd && PlacedFrom(regs[1..], kept, fd, at, base + 1)
    ensures PlacedFrom(regs, [regs[0]] + kept, fd, [base] + at, base)
  {
    ConsInPlace(regs, kept, fd, at, base);
    ConsComplete(regs, fd, at, base);
  }

  lemma ConsInPlace(regs: seq<Registration>, kept: seq<Registration>, fd: int, at: seq<nat>, base: nat)
    requires regs != [] && regs[0].fd != fd && |at| == |kept|
    requires forall k :: 0 <= k < |at| ==> InPlaceOf(regs[1..], kept[k], fd, at[k], base + 1)
    ensures var all, more := [base] + at, [regs[0]] + kept;
            forall k :: 0 <= k < |all| ==> InPlaceOf(regs, more[k], fd, all[k], base) && (k > 0 ==> base < all[k])
  {
    var all, more := [base] + at, [regs[0]] + kept;
    forall k | 0 <= k < |all| ensures InPlaceOf(regs, more[k], fd, all[k], base) && (k > 0 ==> base < all[k]) {
      if k > 0 {
        assert InPlaceOf(regs[1..], kept[k - 1], fd, at[k - 1], base + 1);
      }
    }
  }

  lemma ConsComplete(regs: seq<Registration>, fd: int, at: seq<nat>, base: nat)
    requires regs != [] && forall i :: 0 <= i < |regs[1..]| && regs[1..][i].fd != fd ==> base + 1 + i in at
    ensures forall i :: 0 <= i < |regs| && regs[i].fd != fd ==> base + i in [base] + at
  {
    forall i | 0 <= i < |regs| && regs[i].fd != fd ensures base + i in [base] + at {
      if i > 0 {
        assert regs[1..][i - 1] == regs[i];
        assert base + 1 + (i - 1) in at;
      }
    }
  }

  lemma WithoutMeans(regs: seq<Registration>, fd: int)
    ensures Removed(regs, Without(regs, fd), fd, Places(regs, fd, 0))
  {
    PlacesMean(regs, fd, 0);
    PlacedIsRemoved(regs, Without(regs, fd), fd, Places(regs, fd, 0));
  }

  lemma PlacedIsRemoved(regs: seq<Registration>, kept: seq<Registration>, fd: int, at: seq<nat>)
    requires PlacedFrom(regs, kept, fd, at, 0)
    ensures Removed(regs, kept, fd, at)
  {
    assert forall k :: 0 <= k < |at| ==> InPlaceOf(regs, kept[k], fd, at[k], 0);
    assert forall i :: 0 <= i < |regs| && regs[i].fd != fd ==> 0 + i in at;
  }

  lemma {:induction false} WithoutShrinks(regs: seq<Registration>, fd: int)
    ensures |Without(regs, fd)| <= |regs|
    ensures |Without(regs, fd)| != |regs| <==> exists i :: 0 <= i < |regs| && regs[i].fd == fd
  {
    if regs != [] {
      WithoutShrinks(regs[1..], fd);
      assert forall i :: 0 < i < |regs| ==> regs[1..][i - 1] == regs[i];
      assert forall i :: 0 <= i < |regs| - 1 ==> regs[1..][i] == regs[i + 1];
    }
  }

  /** Attaching and detaching the input queue, and the arrival of events. */
  lemma QueueMeans(s: State, ident: int, callback: nat, data: nat)
    ensures var s' := Attach(s, true, ident, callback, data);
            && s' == s.(attached := true, regs := s'.regs)
            && Placed(s.regs, s'.regs, Registration(91, ident, 1, callback, data, false))
    ensures var s' := Detach(s, true); s' == s.(attached := false, regs := s'.regs) && Removed(s.regs, s'.regs, 91, Places(s.regs, 91, 0))
    ensures Attach(s, false, ident, callback, data) == s && Detach(s, false) == s
    ensures var s' := InputArrived(s);
            if s.attached then s' == s.(regs := s'.regs) && Rearmed(s.regs, s'.regs, 91) else s' == s
  {
    PutPlaces(s.regs, Registration(91, ident, 1, callback, data, false));
    WithoutMeans(s.regs, 91);
  }

  // ---- polling --------------------------------------------------------------------------------------------------

  /** A registration a poll may report: not delivered, ready, and for the input queue attached with events. */
  ghost predicate Reportable(s: State, r: Registration, pending: bool) {
    !r.delivered && Ready(s.pipes, r.fd) && (r.fd == 91 ==> s.attached && pending)
  }

  /** A poll reports the first reportable registration and marks it, or times out if there is none. */
  ghost predicate PollDone(s: State, s': State, pending: bool, r: Option<Registration>, answer: int) {
    if forall k :: 0 <= k < |s.regs| ==> !Reportable(s, s.regs[k], pending) then s' == s && r == None && answer == -3
    else exists k ::
      && 0 <= k < |s.regs| && Reportable(s, s.regs[k], pending)
      && (forall j :: 0 <= j < k ==> !Reportable(s, s.regs[j], pending))
      && r == Some(s.regs[k].(delivered := true)) && s' == s.(regs := s'.regs, queued := s'.queued)
      && |s'.regs| == |s.regs| && s'.regs[k] == s.regs[k].(delivered := true)
      && (forall j :: 0 <= j < |s.regs| && j != k ==> s'.regs[j] == s.regs[j])
      && (if s.regs[k].callback != 0 then s'.queued == s.queued + [s'.regs[k]] && answer == -2
          else s'.queued == s.queued && answer == s.regs[k].ident)
  }

  lemma PollMeans(s: State, pending: bool)
    ensures PollDone(s, Poll(s, pending).0, pending, Poll(s, pending).1, PollAnswer(s, pending))
  {
    var k := FirstDue(s, s.attached && pending, 0);
    if k < |s.regs| {
      assert Reportable(s, s.regs[k], pending);
    }
  }

  /** The host loop marks exactly the reportable registrations that have a callback, and queues them. */
  ghost predicate QueueDone(s: State, s': State, pending: bool) {
    && s' == s.(regs := s'.regs, queued := s'.queued) && |s'.regs| == |s.regs|
    && (forall k :: 0 <= k < |s.regs| ==>
          s'.regs[k] == s.regs[k].(delivered := s.regs[k].delivered || Calls(s, s.regs[k], pending)))
    && s'.queued == s.queued + QueuedFrom(s, pending, 0)
  }

  ghost predicate Calls(s: State, r: Registration, pending: bool) {
    r.callback != 0 && Reportable(s, r, pending)
  }

  /** The callbacks queued, in order, from registration `i` on. */
  ghost function QueuedFrom(s: State, pending: bool, i: nat): seq<Registration>
    requires i <= |s.regs|
    decreases |s.regs| - i
  {
    if i == |s.regs| then []
    else (if Calls(s, s.regs[i], pending) then [s.regs[i].(delivered := true)] else []) + QueuedFrom(s, pending, i + 1)
  }

  lemma QueueReadyMeans(s: State, pending: bool)
    ensures QueueDone(s, QueueFrom(s, s.attached && pending, 0), pending)
  {
    QueuedSoFar(s, s, pending, 0);
    var s' := QueueFrom(s, s.attached && pending, 0);
    assert s'.queued + [] == s'.queued;
  }

  /** With the first `i` registrations done, the others still as they were. */
  ghost predicate DoneSoFar(s: State, t: State, pending: bool, i: nat) {
    && i <= |s.regs| == |t.regs| && t == s.(regs := t.regs, queued := t.queued)
    && (forall k :: 0 <= k < |s.regs| ==>
          t.regs[k] == if k < i then s.regs[k].(delivered := s.regs[k].delivered || Calls(s, s.regs[k], pending)) else s.regs[k])
    && s.queued + QueuedFrom(s, pending, 0) == t.queued + QueuedFrom(s, pending, i)
  }

  lemma {:induction false} QueuedSoFar(s: State, t: State, pending: bool, i: nat)
    requires DoneSoFar(s, t, pending, i)
    ensures DoneSoFar(s, QueueFrom(t, s.attached && pending, i), pending, |s.regs|)
    decreases |s.regs| - i
  {
    if i < |s.regs| {
      if Calls(s, s.regs[i], pending) {
        var r := t.regs[i].(delivered := true);
        var t1 := t.(regs := t.regs[i := r], queued := t.queued + [r]);
        assert t.queued + ([r] + QueuedFrom(s, pending, i + 1)) == t.queued + [r] + QueuedFrom(s, pending, i + 1);
        QueuedSoFar(s, t1, pending, i + 1);
      } else {
        assert [] + QueuedFrom(s, pending, i + 1) == QueuedFrom(s, pending, i + 1);
        QueuedSoFar(s, t, pending, i + 1);
      }
    }
  }

  // ---- a descriptor added, written and polled ---------------------------------------------------------------------

  /** Main result. A pipe's read end is added without a callback, then bytes are written to the pipe: if
      the guest does nothing but poll from then on, exactly one poll answers with that ident for it - the
      one after as many as there are due registrations ahead. */
  lemma AddedIsAnswered(s: State, fd: int, ident: int, events: int, data: nat, bytes: seq<byte>, pending: bool, n: nat)
    requires Valid(s) && fd >= 0 && ident >= 0 && fd != 91 && bytes != []
    requires var s1 := AddFd(s, fd, ident, events, 0, data).0; Write(s1, fd + 1, bytes, true).1 == Done(|bytes|)
    ensures var s2 := Write(AddFd(s, fd, ident, events, 0, data).0, fd + 1, bytes, true).0;
            && DueFor(s2, pending, fd)
            && (Reports(PollTimes(s2, pending, n), OpPoll(pending), fd) <==> n == Turn(s2, pending, fd))
            && (n == Turn(s2, pending, fd) ==> PollAnswer(PollTimes(s2, pending, n), pending) == ident)
  {
    var s1 := AddFd(s, fd, ident, events, 0, data).0;
    var s2 := Write(s1, fd + 1, bytes, true).0;
    AddValid(s, fd, ident, events, data);
    WriteValid(s1, fd + 1, bytes, true);
    WriteArms(s1, fd + 1, bytes);
    WrittenKeeps(s1, fd + 1, bytes, fd, ident);
    ReportedExactly(s2, pending, fd, n);
    if n == Turn(s2, pending, fd) {
      PollTimesKeeps(s2, pending, n, fd, ident);
    }
  }

  /** Every registration of `fd` has this ident and no callback. */
  ghost predicate Speaks(regs: seq<Registration>, fd: int, ident: int) {
    forall k :: 0 <= k < |regs| && regs[k].fd == fd ==> regs[k].ident == ident && regs[k].callback == 0
  }

  lemma AddValid(s: State, fd: int, ident: int, events: int, data: nat)
    requires Valid(s) && fd >= 0 && ident >= 0
    ensures var s1 := AddFd(s, fd, ident, events, 0, data).0;
            && Valid(s1) && Registered(s1.regs, fd) && Speaks(s1.regs, fd, ident)
  {
    var r := Registration(fd, ident, events, 0, data, false);
    StepValid(s, OpAddFd(fd, ident, events, 0, data));
    PutPlaces(s.regs, r);
    var s1 := AddFd(s, fd, ident, events, 0, data).0;
    assert s1.regs[RegFor(s.regs, fd)] == r;
  }

  lemma WrittenKeeps(s: State, x: int, bytes: seq<byte>, fd: int, ident: int)
    requires Speaks(s.regs, fd, ident)
    ensures Speaks(Write(s, x, bytes, true).0.regs, fd, ident)
  {
  }

  lemma {:induction false} PollTimesKeeps(s: State, pending: bool, n: nat, fd: int, ident: int)
    requires Speaks(s.regs, fd, ident)
    ensures Speaks(PollTimes(s, pending, n).regs, fd, ident)
    decreases n
  {
    if n > 0 {
      PollTimesKeeps(s, pending, n - 1, fd, ident);
    }
  }
}
