/** What each operation of the command queue comes to, and what a closed or cancelled queue never does. */
module QueueOperations {
  import opened CommandQueue

  /** Only client `c` may have moved, and it is outside every operation. */
  ghost predicate BackFrom(s: State, c: nat, t: State) {
    Phase(t, c) == Idle && forall d :: d != c ==> Phase(t, d) == Phase(s, d)
  }

  ghost function Steps3(s: State, x: Act, y: Act, z: Act): State {
    Do(Do(Do(s, x), y), z)
  }

  ghost function Steps4(s: State, x: Act, y: Act, z: Act, w: Act): State {
    Do(Steps3(s, x, y, z), w)
  }

  // ---- Clients -----------------------------------------------------------------------

  /** A client inside an operation begins no other. */
  lemma OneOperationAtATime(s: State, c: nat, op: Operation)
    requires Phase(s, c) != Idle
    ensures Do(s, Call(c, op)) == s
  {
  }

  /**
   A submission that is not interrupted: refused when the queue is closed or cancelled; turned
   away with its number spent when the queue is full; else last in the queue and pending.
   */
  lemma SubmitOutcome(s: State, c: nat)
    requires Phase(s, c) == Idle
    ensures var t := Steps4(s, Call(c, Submit), Go(c), Go(c), Go(c));
      && BackFrom(s, c, t)
      && t ==
         if s.closed || s.cancel then s.(clients := t.clients)
         else if |s.queue| >= s.maxsize then s.(clients := t.clients, nextSeq := s.nextSeq + 1)
         else s.(clients := t.clients, nextSeq := s.nextSeq + 1, queue := s.queue + [Command(s.nextSeq)],
                 futures := s.futures[s.nextSeq := Pending], enqueued := s.enqueued + [s.nextSeq])
  {
    var t1 := Do(s, Call(c, Submit));
    var t2 := Do(t1, Go(c));
    var t3 := Do(t2, Go(c));
    assert Phase(t1, c) == if s.closed then Idle else Entering;
    assert Phase(t2, c) == if s.closed || s.cancel then Idle else Admitted;
    assert Phase(t3, c) == if s.closed || s.cancel then Idle else Numbered(s.nextSeq);
  }

  /** A close that is not interrupted: the flags are set at once, and the end mark goes last or waits for room. */
  lemma CloseOutcome(s: State, c: nat, cancelPending: bool)
    requires Phase(s, c) == Idle
    ensures var t := Steps4(s, Call(c, Close(cancelPending)), Go(c), Go(c), Go(c));
      if s.closed then t == s
      else
        && (forall d :: d != c ==> Phase(t, d) == Phase(s, d))
        && Phase(t, c) == (if |s.queue| < s.maxsize then Idle else Stopping)
        && t == s.(clients := t.clients, closed := true, cancel := s.cancel || cancelPending,
                   queue := if |s.queue| < s.maxsize then s.queue + [Stop] else s.queue)
  {
    var t1 := Do(s, Call(c, Close(cancelPending)));
    var t2 := Do(t1, Go(c));
    var t3 := Do(t2, Go(c));
    assert Phase(t1, c) == if s.closed then Idle else Closing(cancelPending);
    assert Phase(t2, c) == if s.closed then Idle else Marked(cancelPending);
    assert Phase(t3, c) == if s.closed then Idle else Stopping;
  }

  /** A request to cancel sets the flag at once; clearing it is refused on a closed queue. */
  lemma CancelOutcome(s: State, c: nat)
    requires Phase(s, c) == Idle
    ensures Do(s, Call(c, RequestCancel)) == s.(cancel := true)
    ensures var t := Do(Do(s, Call(c, ClearCancel)), Go(c));
      BackFrom(s, c, t) && t == if s.closed then s else s.(clients := t.clients, cancel := false)
  {
    var t1 := Do(s, Call(c, ClearCancel));
    assert Phase(t1, c) == if s.closed then Idle else Clearing;
  }

  // ---- The worker --------------------------------------------------------------------

  /** `n` steps of the worker with nobody else moving. */
  ghost function AfterWork(s: State, n: nat, ok: bool): State {
    if n == 0 then s else Do(AfterWork(s, n - 1, ok), Work(ok))
  }

  /** The worker waits for a command, ends at the end mark, and then does nothing more. */
  lemma WaitsOrEnds(s: State, ok: bool)
    requires s.worker == Waiting && (s.queue == [] || s.queue[0] == Stop)
    ensures Do(s, Work(ok)) == if s.queue == [] then s else s.(worker := Ended, queue := s.queue[1..])
    ensures s.worker == Ended ==> Do(s, Work(ok)) == s
  {
  }

  /** A command comes up: whoever is not cancelled and not overtaken gets as far as its turn to run. */
  ghost predicate ComesUp(s: State, q: nat) {
    && s.worker == Waiting && s.queue != [] && s.queue[0] == Command(q)
    && (FutureOf(s, q) == Pending || FutureOf(s, q) == Cancelled)
  }

  /** The command is out of the queue and the worker waits again. */
  ghost function Off(s: State, q: nat): State
    requires s.queue != []
  {
    s.(queue := s.queue[1..], dequeued := s.dequeued + [q])
  }

  /** Ends with this outcome, unless its client cancelled it before. */
  ghost function EndsAs(s: State, q: nat, f: Future): State {
    if FutureOf(s, q) == Cancelled then s else s.(futures := s.futures[q := f], settled := s.settled + [q])
  }

  /** On a cancelled queue a command fails unrun. */
  lemma CancelledOutcome(s: State, q: nat, ok: bool)
    requires ComesUp(s, q) && s.cancel
    ensures AfterWork(s, if FutureOf(s, q) == Cancelled then 3 else 4, ok)
      == EndsAs(Off(s, q), q, Failed(CommandCancelled))
  {
    var t1, t2, t3 := AfterWork(s, 1, ok), AfterWork(s, 2, ok), AfterWork(s, 3, ok);
    assert t1 == Do(s, Work(ok)) by { assert AfterWork(s, 0, ok) == s; }
    assert t1 == Off(s, q).(worker := Busy(q, Held));
    assert t2 == Off(s, q).(worker := Busy(q, Failing(CommandCancelled)));
    assert t3 ==
      Off(s, q).(worker := if FutureOf(s, q) == Cancelled then Waiting else Busy(q, Settling(CommandCancelled)));
  }

  lemma ReachesTheCheck(s: State, q: nat, ok: bool)
    requires ComesUp(s, q) && !s.cancel
    ensures AfterWork(s, 2, ok) == Off(s, q).(worker := Busy(q, Uncancelled))
  {
    var t1 := AfterWork(s, 1, ok);
    assert t1 == Do(s, Work(ok)) by { assert AfterWork(s, 0, ok) == s; }
    assert t1 == Off(s, q).(worker := Busy(q, Held));
  }

  /** A command with an overtaken number fails unrun and is counted. */
  lemma OvertakenOutcome(s: State, q: nat, ok: bool)
    requires ComesUp(s, q) && !s.cancel && (q <= s.lastCompleted || s.active)
    ensures AfterWork(s, if FutureOf(s, q) == Cancelled then 4 else 5, ok) ==
      EndsAs(Off(s, q), q, Failed(OrderViolation)).(violations := s.violations + 1, checked := s.checked + [q],
                                                  violators := s.violators + [q])
  {
    ReachesTheCheck(s, q, ok);
    var t3, t4 := AfterWork(s, 3, ok), AfterWork(s, 4, ok);
    var counted :=
      Off(s, q).(violations := s.violations + 1, checked := s.checked + [q], violators := s.violators + [q]);
    assert t3 == counted.(worker := Busy(q, Failing(OrderViolation)));
    assert t4 == counted.(worker := if FutureOf(s, q) == Cancelled then Waiting else Busy(q, Settling(OrderViolation)));
  }

  lemma ReachesItsTurn(s: State, q: nat, ok: bool)
    requires ComesUp(s, q) && !s.cancel && q > s.lastCompleted && !s.active
    ensures AfterWork(s, 3, ok) == Off(s, q).(worker := Busy(q, InOrder), checked := s.checked + [q])
  {
    ReachesTheCheck(s, q, ok);
  }

  /** A command its client cancelled in time is acknowledged and not run. */
  lemma WithdrawnOutcome(s: State, q: nat, ok: bool)
    requires ComesUp(s, q) && !s.cancel && q > s.lastCompleted && !s.active && FutureOf(s, q) == Cancelled
    ensures AfterWork(s, 4, ok) == Off(s, q).(checked := s.checked + [q], futures := s.futures[q := Acknowledged])
  {
    ReachesItsTurn(s, q, ok);
  }

  /** Its function is being called. */
  ghost function Called(s: State, q: nat): State
    requires s.queue != []
  {
    Off(s, q).(checked := s.checked + [q], started := s.started + [q], futures := s.futures[q := Running])
  }

  lemma StartsToRun(s: State, q: nat, ok: bool)
    requires ComesUp(s, q) && !s.cancel && q > s.lastCompleted && !s.active && FutureOf(s, q) == Pending
    ensures AfterWork(s, 4, ok) == Called(s, q).(worker := Busy(q, Executing), active := true)
  {
    ReachesItsTurn(s, q, ok);
  }

  /** Any other command runs, once; its future holds the result and its number is the last completed. */
  lemma RunOutcome(s: State, q: nat)
    requires ComesUp(s, q) && !s.cancel && q > s.lastCompleted && !s.active && FutureOf(s, q) == Pending
    ensures AfterWork(s, 6, true) ==
      Off(s, q).(checked := s.checked + [q], started := s.started + [q], completed := s.completed + [q],
                 lastCompleted := q, futures := s.futures[q := Finished], settled := s.settled + [q])
  {
    StartsToRun(s, q, true);
    var t5 := AfterWork(s, 5, true);
    var up := Called(s, q);
    assert t5 == up.(worker := Busy(q, Publishing), lastCompleted := q, completed := s.completed + [q]);
    assert s.futures[q := Running][q := Finished] == s.futures[q := Finished];
  }

  /** A command that raises fails with its own error and completes nothing. */
  lemma RaiseOutcome(s: State, q: nat)
    requires ComesUp(s, q) && !s.cancel && q > s.lastCompleted && !s.active && FutureOf(s, q) == Pending
    ensures AfterWork(s, 7, false) ==
      Off(s, q).(checked := s.checked + [q], started := s.started + [q],
                 futures := s.futures[q := Failed(FunctionRaised)], settled := s.settled + [q])
  {
    StartsToRun(s, q, false);
    var t5, t6 := AfterWork(s, 5, false), AfterWork(s, 6, false);
    var up := Called(s, q);
    assert t5 == up.(worker := Busy(q, Failing(FunctionRaised)));
    assert t6 == up.(worker := Busy(q, Settling(FunctionRaised)));
    assert s.futures[q := Running][q := Failed(FunctionRaised)] == s.futures[q := Failed(FunctionRaised)];
  }

  // ---- Every run ---------------------------------------------------------------------

  /** The backlog never exceeds its limit, the end mark included. */
  lemma {:induction false} BacklogIsBounded(maxsize: nat, acts: seq<Act>)
    ensures After(maxsize, acts).maxsize == maxsize && |After(maxsize, acts).queue| <= maxsize
  {
    if acts != [] {
      BacklogIsBounded(maxsize, acts[..|acts| - 1]);
      BoundKept(After(maxsize, acts[..|acts| - 1]), acts[|acts| - 1]);
    }
  }

  lemma BoundKept(s: State, a: Act)
    requires |s.queue| <= s.maxsize
    ensures Do(s, a).maxsize == s.maxsize && |Do(s, a).queue| <= s.maxsize
  {
    match a
    case Call(c, op) =>
    case Go(c) => AdvanceKeepsBound(s, c);
    case CancelFuture(q) =>
    case Work(ok) => ServeKeepsBound(s, ok);
  }

  lemma AdvanceKeepsBound(s: State, c: nat)
    requires |s.queue| <= s.maxsize
    ensures Advance(s, c).maxsize == s.maxsize && |Advance(s, c).queue| <= s.maxsize
  {
    match Phase(s, c)
    case Numbered(q) => assert Put(s, c, q).queue == s.queue + [Command(q)];
    case Stopping =>
    case _ =>
  }

  lemma ServeKeepsBound(s: State, ok: bool)
    requires |s.queue| <= s.maxsize
    ensures Serve(s, ok).maxsize == s.maxsize && |Serve(s, ok).queue| <= s.maxsize
  {
    match s.worker
    case Busy(q, stage) => HandlingKeepsFlags(s, q, stage, ok);
    case _ =>
  }

  /** Nobody is on the way in. */
  ghost predicate ShutOut(s: State) {
    s.closed && forall c :: !Submitting(s, c)
  }

  /** Closing is for good, and only clients that were on their way in get further. */
  lemma ClosedForGood(s: State, a: Act, c: nat)
    requires s.closed
    ensures Do(s, a).closed
    ensures Submitting(Do(s, a), c) ==> Submitting(s, c)
  {
    match a
    case Call(d, op) =>
    case Go(d) => AdvanceStaysClosed(s, d, c);
    case CancelFuture(q) =>
    case Work(ok) => ServeKeepsClients(s, ok);
  }

  lemma AdvanceStaysClosed(s: State, d: nat, c: nat)
    requires s.closed
    ensures Advance(s, d).closed
    ensures Submitting(Advance(s, d), c) ==> Submitting(s, c)
  {
    match Phase(s, d)
    case Entering =>
    case Admitted =>
    case Numbered(q) =>
    case _ =>
  }

  lemma ServeKeepsClients(s: State, ok: bool)
    ensures Serve(s, ok).clients == s.clients && Serve(s, ok).closed == s.closed && Serve(s, ok).cancel == s.cancel
    ensures Serve(s, ok).enqueued == s.enqueued && Serve(s, ok).nextSeq == s.nextSeq
  {
    match s.worker
    case Busy(q, stage) => HandlingKeepsFlags(s, q, stage, ok);
    case _ =>
  }

  lemma HandlingKeepsFlags(s: State, q: nat, stage: Stage, ok: bool)
    ensures var t := Handle(s, q, stage, ok);
      && t.clients == s.clients && t.closed == s.closed && t.cancel == s.cancel
      && t.enqueued == s.enqueued && t.nextSeq == s.nextSeq && t.queue == s.queue && t.maxsize == s.maxsize
  {
    match stage
    case _ =>
  }

  /** Once the last of them is through, a closed queue takes nothing in, whatever anybody does. */
  lemma {:induction false} ClosedAdmitsNobody(s: State, acts: seq<Act>)
    requires ShutOut(s)
    ensures var t := Play(s, acts); ShutOut(t) && t.enqueued == s.enqueued && t.nextSeq == s.nextSeq
    decreases |acts|
  {
    if acts != [] {
      var next := Do(s, acts[0]);
      forall c ensures !Submitting(next, c) { ClosedForGood(s, acts[0], c); }
      ShutOutStep(s, acts[0]);
      ClosedAdmitsNobody(next, acts[1..]);
    }
  }

  lemma ShutOutStep(s: State, a: Act)
    requires ShutOut(s)
    ensures Do(s, a).closed && Do(s, a).enqueued == s.enqueued && Do(s, a).nextSeq == s.nextSeq
  {
    match a
    case Call(c, op) =>
    case Go(c) => assert !Submitting(s, c);
    case CancelFuture(q) =>
    case Work(ok) => ServeKeepsClients(s, ok);
  }

  /** Closed and cancelled, nobody inside `clear_cancel`, and the command in hand not past the check for it. */
  ghost predicate LockedOut(s: State) {
    && s.closed && s.cancel && (forall c :: Phase(s, c) != Clearing)
    && !(s.worker.Busy? && (s.worker.stage == Uncancelled || s.worker.stage == InOrder))
  }

  lemma LockedOutStep(s: State, a: Act)
    requires LockedOut(s)
    ensures LockedOut(Do(s, a)) && Do(s, a).started == s.started
  {
    forall c ensures Phase(Do(s, a), c) != Clearing {
      assert Phase(s, c) != Clearing;
      if a.Work? { ServeKeepsClients(s, a.ok); }
    }
    match a
    case Call(c, op) =>
    case Go(c) => assert Phase(s, c) != Clearing;
    case CancelFuture(q) =>
    case Work(ok) =>
      ServeKeepsClients(s, ok);
      if s.worker.Busy? { HandlingStartsNothing(s, s.worker.seqNo, s.worker.stage, ok); }
  }

  lemma HandlingStartsNothing(s: State, q: nat, stage: Stage, ok: bool)
    requires s.cancel && stage != Uncancelled && stage != InOrder
    ensures var t := Handle(s, q, stage, ok);
      t.started == s.started && !(t.worker.Busy? && (t.worker.stage == Uncancelled || t.worker.stage == InOrder))
  {
  }

  /** From then on no queued command ever starts. */
  lemma {:induction false} CancelledNeverStarts(s: State, acts: seq<Act>)
    requires LockedOut(s)
    ensures LockedOut(Play(s, acts)) && Play(s, acts).started == s.started
    decreases |acts|
  {
    if acts != [] {
      LockedOutStep(s, acts[0]);
      CancelledNeverStarts(Do(s, acts[0]), acts[1..]);
    }
  }

  /** But one client still inside `clear_cancel` brings the next command back to life on a closed queue. */
  lemma LateClearRevives(s: State, c: nat, q: nat)
    requires s.closed && s.cancel && Phase(s, c) == Clearing
    requires ComesUp(s, q) && q > s.lastCompleted && !s.active && FutureOf(s, q) == Pending
    ensures var t := AfterWork(Do(s, Go(c)), 6, true);
      t.closed && !t.cancel && t.started == s.started + [q] && FutureOf(t, q) == Finished
  {
    var cleared := Do(s, Go(c));
    assert cleared == s.(clients := cleared.clients, cancel := false);
    RunOutcome(cleared, q);
  }

  lemma AfterPush(maxsize: nat, acts: seq<Act>, a: Act)
    ensures After(maxsize, acts + [a]) == Do(After(maxsize, acts), a)
  {
    assert (acts + [a])[..|acts|] == acts;
  }

  lemma {:induction false} AfterWorks(maxsize: nat, acts: seq<Act>, n: nat) returns (all: seq<Act>)
    ensures acts <= all && After(maxsize, all) == AfterWork(After(maxsize, acts), n, true)
  {
    if n == 0 {
      all := acts;
    } else {
      var front := AfterWorks(maxsize, acts, n - 1);
      AfterPush(maxsize, front, Work(true));
      all := front + [Work(true)];
    }
  }

  /** A client enters `clear_cancel`, then another closes the queue, cancelling what is pending. */
  lemma ClosedAroundClear(s: State, c: nat, d: nat)
    requires c != d && Phase(s, c) == Idle && Phase(s, d) == Idle && !s.closed
    ensures var t := Steps4(s, Call(c, ClearCancel), Call(d, Close(true)), Go(d), Go(d));
      t == s.(clients := t.clients, closed := true, cancel := true) && Phase(t, c) == Clearing
  {
    var t1 := Do(s, Call(c, ClearCancel));
    var t2 := Do(t1, Call(d, Close(true)));
    assert Phase(t2, d) == Closing(true) && Phase(t2, c) == Clearing;
    var t3 := Do(t2, Go(d));
    assert Phase(t3, d) == Marked(true) && Phase(t3, c) == Clearing;
  }

  lemma AfterFour(maxsize: nat, acts: seq<Act>, x: Act, y: Act, z: Act, w: Act)
    ensures After(maxsize, acts + [x, y, z, w]) == Steps4(After(maxsize, acts), x, y, z, w)
  {
    AfterPush(maxsize, acts, x);
    AfterPush(maxsize, acts + [x], y);
    AfterPush(maxsize, acts + [x] + [y], z);
    AfterPush(maxsize, acts + [x] + [y] + [z], w);
    assert acts + [x, y, z, w] == acts + [x] + [y] + [z] + [w];
  }

  lemma ClosedWhileClearing() returns (closing: seq<Act>)
    ensures var s := After(2, closing);
      && s.closed && s.cancel && s.queue == [Command(1)] && s.started == [] && Phase(s, 1) == Clearing
      && s.worker == Waiting && !s.active && s.lastCompleted == 0 && FutureOf(s, 1) == Pending
  {
    SubmitOutcome(Start(2), 0);
    var submitting := [Call(0, Submit), Go(0), Go(0), Go(0)];
    AfterFour(2, [], Call(0, Submit), Go(0), Go(0), Go(0));
    assert [] + submitting == submitting;
    var s := After(2, submitting);
    assert Phase(s, 1) == Phase(Start(2), 1) && Phase(s, 2) == Phase(Start(2), 2);
    ClosedAroundClear(s, 1, 2);
    AfterFour(2, submitting, Call(1, ClearCancel), Call(2, Close(true)), Go(2), Go(2));
    closing := submitting + [Call(1, ClearCancel), Call(2, Close(true)), Go(2), Go(2)];
  }

  /** A run in which a command starts after its queue was closed with everything pending cancelled. */
  lemma RevivedAfterClose() returns (closing: seq<Act>, all: seq<Act>)
    ensures closing <= all
    ensures var s := After(2, closing); s.closed && s.cancel && s.queue == [Command(1)] && s.started == []
    ensures var t := After(2, all); t.closed && t.started == [1] && FutureOf(t, 1) == Finished
  {
    closing := ClosedWhileClearing();
    AfterPush(2, closing, Go(1));
    all := AfterWorks(2, closing + [Go(1)], 6);
    LateClearRevives(After(2, closing), 1, 1);
  }
}
