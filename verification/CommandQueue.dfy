/** The device command queue: several clients, one worker, every interleaving. */
module CommandQueue {
  import opened Orders

  datatype Item = Stop | Command(seqNo: nat)

  datatype Cause = CommandCancelled | OrderViolation | FunctionRaised

  /** A future is cancelled by a client only while pending; the worker then acknowledges it. */
  datatype Future = Pending | Running | Cancelled | Acknowledged | Finished | Failed(cause: Cause) {
    predicate Done() {
      !Pending? && !Running?
    }
  }

  datatype Operation = Submit | RequestCancel | ClearCancel | Close(cancelPending: bool)

  /** Where a client stands inside `submit`, `clear_cancel` or `close`. */
  datatype Client = Idle | Entering | Admitted | Numbered(seqNo: nat)
                  | Clearing | Closing(cancelPending: bool) | Marked(cancelPending: bool) | Stopping

  /** How far the worker got with the command in hand. */
  datatype Stage = Held | Uncancelled | InOrder | Executing | Publishing
                 | Failing(cause: Cause) | Settling(cause: Cause)

  datatype Worker = Waiting | Busy(seqNo: nat, stage: Stage) | Crashed | Ended

  datatype State = State(
    maxsize: nat,
    nextSeq: nat,
    lastCompleted: nat,
    violations: nat,
    active: bool,
    cancel: bool,
    closed: bool,
    queue: seq<Item>,
    futures: map<nat, Future>,
    clients: map<nat, Client>,
    worker: Worker,
    // what happened so far, in order
    enqueued: seq<nat>,
    dequeued: seq<nat>,
    started: seq<nat>,
    completed: seq<nat>,
    checked: seq<nat>,
    violators: seq<nat>,
    settled: seq<nat>)

  function Start(maxsize: nat): State {
    State(maxsize, 1, 0, 0, false, false, false, [], map[], map[], Waiting, [], [], [], [], [], [], [])
  }

  /** One atomic step of some thread; a step that cannot be taken changes nothing. */
  datatype Act = Call(client: nat, op: Operation) | Go(client: nat) | CancelFuture(seqNo: nat) | Work(ok: bool)

  function Phase(s: State, c: nat): Client {
    if c in s.clients then s.clients[c] else Idle
  }

  function FutureOf(s: State, q: nat): Future {
    if q in s.futures then s.futures[q] else Pending
  }

  function At(s: State, c: nat, phase: Client): map<nat, Client> {
    s.clients[c := phase]
  }

  /** The first step of an operation; on a closed queue some raise and some return at once. */
  function Begin(s: State, c: nat, op: Operation): State {
    if Phase(s, c) != Idle then s
    else match op
      case Submit => if s.closed then s else s.(clients := At(s, c, Entering))
      case RequestCancel => s.(cancel := true)
      case ClearCancel => if s.closed then s else s.(clients := At(s, c, Clearing))
      case Close(cancelPending) => if s.closed then s else s.(clients := At(s, c, Closing(cancelPending)))
  }

  /** The client's next step: a full queue turns a command away, but `close` waits for room. */
  function Advance(s: State, c: nat): State {
    match Phase(s, c)
    case Idle => s
    case Entering => s.(clients := At(s, c, if s.cancel then Idle else Admitted))
    case Admitted => s.(clients := At(s, c, Numbered(s.nextSeq)), nextSeq := s.nextSeq + 1)
    case Numbered(q) => if |s.queue| < s.maxsize then Put(s, c, q) else s.(clients := At(s, c, Idle))
    case Clearing => s.(clients := At(s, c, Idle), cancel := false)
    case Closing(cancelPending) => s.(clients := At(s, c, Marked(cancelPending)), closed := true)
    case Marked(cancelPending) => s.(clients := At(s, c, Stopping), cancel := s.cancel || cancelPending)
    case Stopping => if |s.queue| < s.maxsize then s.(clients := At(s, c, Idle), queue := s.queue + [Stop]) else s
  }

  function Put(s: State, c: nat, q: nat): State {
    s.(clients := At(s, c, Idle), queue := s.queue + [Command(q)],
       futures := s.futures[q := Pending], enqueued := s.enqueued + [q])
  }

  function Settle(s: State, q: nat, f: Future): State {
    s.(futures := s.futures[q := f], settled := s.settled + [q], worker := Waiting)
  }

  /** The worker's next step; `ok` tells whether the running command returns or raises. */
  function Serve(s: State, ok: bool): State {
    match s.worker
    case Waiting => Take(s)
    case Busy(q, stage) => Handle(s, q, stage, ok)
    case Crashed => s
    case Ended => s
  }

  function Take(s: State): State {
    if s.queue == [] then s
    else match s.queue[0]
      case Stop => s.(worker := Ended, queue := s.queue[1..])
      case Command(q) => s.(worker := Busy(q, Held), queue := s.queue[1..], dequeued := s.dequeued + [q])
  }

  function Handle(s: State, q: nat, stage: Stage, ok: bool): State {
    match stage
    case Held => s.(worker := Busy(q, if s.cancel then Failing(CommandCancelled) else Uncancelled))
    case Uncancelled =>
      if q <= s.lastCompleted || s.active
      then s.(worker := Busy(q, Failing(OrderViolation)), violations := s.violations + 1,
              checked := s.checked + [q], violators := s.violators + [q])
      else s.(worker := Busy(q, InOrder), checked := s.checked + [q])
    case InOrder =>
      if FutureOf(s, q) == Cancelled then s.(futures := s.futures[q := Acknowledged], worker := Waiting)
      else s.(futures := s.futures[q := Running], worker := Busy(q, Executing), active := true,
        started := s.started + [q])
    case Executing =>
      if ok
      then s.(worker := Busy(q, Publishing), active := false, lastCompleted := q, completed := s.completed + [q])
      else s.(worker := Busy(q, Failing(FunctionRaised)), active := false)
    case Publishing => Settle(s, q, Finished)
    case Failing(cause) => s.(worker := if FutureOf(s, q).Done() then Waiting else Busy(q, Settling(cause)))
    case Settling(cause) => if FutureOf(s, q).Done() then s.(worker := Crashed) else Settle(s, q, Failed(cause))
  }

  function Do(s: State, a: Act): State {
    match a
    case Call(c, op) => Begin(s, c, op)
    case Go(c) => Advance(s, c)
    case CancelFuture(q) =>
      if q in s.futures && s.futures[q] == Pending
      then s.(futures := s.futures[q := Cancelled], settled := s.settled + [q]) else s
    case Work(ok) => Serve(s, ok)
  }

  /** The state after the threads took the steps `acts`, in that order. */
  function After(maxsize: nat, acts: seq<Act>): State {
    if acts == [] then Start(maxsize)
    else Do(After(maxsize, acts[..|acts| - 1]), acts[|acts| - 1])
  }

  // ---- The queue ---------------------------------------------------------------------

  function Waits(queue: seq<Item>): seq<nat> {
    if queue == [] then [] else (if queue[0].Command? then [queue[0].seqNo] else []) + Waits(queue[1..])
  }

  lemma {:induction false} WaitsPush(queue: seq<Item>, item: Item)
    ensures Waits(queue + [item]) == Waits(queue) + if item.Command? then [item.seqNo] else []
  {
    if queue != [] {
      assert (queue + [item])[1..] == queue[1..] + [item];
      WaitsPush(queue[1..], item);
    }
  }

  /** First in, first out. */
  ghost predicate Fifo(s: State) {
    s.enqueued == s.dequeued + Waits(s.queue)
  }

  ghost predicate SameLine(s: State, t: State) {
    t.queue == s.queue && t.enqueued == s.enqueued && t.dequeued == s.dequeued
  }

  ghost predicate Stopped(s: State, t: State) {
    t.queue == s.queue + [Stop] && t.enqueued == s.enqueued && t.dequeued == s.dequeued
  }

  ghost predicate Joined(s: State, q: nat, t: State) {
    t.queue == s.queue + [Command(q)] && t.enqueued == s.enqueued + [q] && t.dequeued == s.dequeued
  }

  ghost predicate Puts(s: State, a: Act) {
    a.Go? && Phase(s, a.client).Numbered? && |s.queue| < s.maxsize
  }

  /** What one step does to the queue. */
  lemma LineOfHandling(s: State, q: nat, stage: Stage, ok: bool)
    ensures SameLine(s, Handle(s, q, stage, ok))
  {
  }

  lemma LineOfClient(s: State, a: Act)
    requires !a.Work?
    ensures if Puts(s, a) then Joined(s, Phase(s, a.client).seqNo, Do(s, a))
            else SameLine(s, Do(s, a)) || Stopped(s, Do(s, a))
  {
  }

  lemma FifoKept(s: State, a: Act)
    requires Fifo(s)
    ensures Fifo(Do(s, a))
  {
    if a.Work? {
      if s.worker.Busy? { LineOfHandling(s, s.worker.seqNo, s.worker.stage, a.ok); }
      if s.worker.Waiting? { FifoAfterTake(s); }
    } else {
      LineOfClient(s, a);
      WaitsPush(s.queue, Stop);
      if Puts(s, a) { WaitsPush(s.queue, Command(Phase(s, a.client).seqNo)); }
    }
  }

  lemma FifoAfterTake(s: State)
    requires Fifo(s)
    ensures Fifo(Take(s))
  {
  }

  // ---- The command in hand -----------------------------------------------------------

  /** The command the worker holds is the one it took last. */
  ghost predicate HandOk(s: State) {
    s.worker.Busy? ==> s.dequeued != [] && s.dequeued[|s.dequeued| - 1] == s.worker.seqNo
  }

  lemma HandlingKeepsHand(s: State, q: nat, stage: Stage, ok: bool)
    ensures var t := Handle(s, q, stage, ok); t.worker.Busy? ==> t.worker.seqNo == q
  {
  }

  lemma AdvanceKeepsWorker(s: State, c: nat)
    ensures Advance(s, c).worker == s.worker && Advance(s, c).dequeued == s.dequeued
  {
  }

  lemma ClientKeepsWorker(s: State, a: Act)
    requires !a.Work?
    ensures Do(s, a).worker == s.worker && Do(s, a).dequeued == s.dequeued
  {
    if a.Go? { AdvanceKeepsWorker(s, a.client); }
  }

  lemma HandOkKept(s: State, a: Act)
    requires HandOk(s)
    ensures HandOk(Do(s, a))
  {
    if !a.Work? {
      ClientKeepsWorker(s, a);
    } else if s.worker.Busy? {
      LineOfHandling(s, s.worker.seqNo, s.worker.stage, a.ok);
      HandlingKeepsHand(s, s.worker.seqNo, s.worker.stage, a.ok);
    }
  }

  // ---- Numbers -----------------------------------------------------------------------

  ghost predicate Owns(s: State, c: nat) {
    Phase(s, c).Numbered?
  }

  ghost predicate BelowNext(s: State, q: nat) {
    0 < q < s.nextSeq
  }

  /** Every number is taken once: by one client or by one queued command. */
  ghost predicate NumbersUnique(s: State) {
    && s.nextSeq > 0 && NoDuplicates(s.enqueued)
    && (forall q {:trigger BelowNext(s, q)} :: q in s.enqueued ==> BelowNext(s, q))
    && (forall c {:trigger Owns(s, c)} ::
      Owns(s, c) ==> BelowNext(s, Phase(s, c).seqNo) && Phase(s, c).seqNo !in s.enqueued)
    && (forall c, d {:trigger Owns(s, c), Owns(s, d)} ::
      c != d && Owns(s, c) && Owns(s, d) ==> Phase(s, c).seqNo != Phase(s, d).seqNo)
  }

  /** Nobody but `c` changes phase. */
  ghost predicate OthersStay(s: State, t: State, c: nat) {
    forall d {:trigger Phase(t, d)} :: d != c ==> Phase(t, d) == Phase(s, d)
  }

  lemma NumbersOfServing(s: State, ok: bool)
    ensures var t := Serve(s, ok); t.clients == s.clients && t.nextSeq == s.nextSeq && t.enqueued == s.enqueued
  {
    if s.worker.Busy? { NumbersOfHandling(s, s.worker.seqNo, s.worker.stage, ok); }
  }

  lemma NumbersOfHandling(s: State, q: nat, stage: Stage, ok: bool)
    ensures var t := Handle(s, q, stage, ok);
      t.clients == s.clients && t.nextSeq == s.nextSeq && t.enqueued == s.enqueued
  {
  }

  lemma NumbersOfClient(s: State, c: nat)
    ensures var t := Advance(s, c);
      && OthersStay(s, t, c)
      && match Phase(s, c)
         case Admitted => Phase(t, c) == Numbered(s.nextSeq) && t.nextSeq == s.nextSeq + 1 && t.enqueued == s.enqueued
         case Numbered(q) => Phase(t, c) == Idle && t.nextSeq == s.nextSeq
           && (t.enqueued == s.enqueued || t.enqueued == s.enqueued + [q])
         case _ => !Phase(t, c).Numbered? && t.nextSeq == s.nextSeq && t.enqueued == s.enqueued
  {
  }

  lemma NumbersOfCall(s: State, c: nat, op: Operation)
    ensures var t := Begin(s, c, op);
      && OthersStay(s, t, c) && t.nextSeq == s.nextSeq && t.enqueued == s.enqueued
      && (Phase(t, c).Numbered? ==> Phase(t, c) == Phase(s, c))
  {
  }

  lemma NumbersUniqueKept(s: State, a: Act)
    requires NumbersUnique(s)
    ensures NumbersUnique(Do(s, a))
  {
    match a
    case Call(c, op) => NumbersOfCall(s, c, op); NumbersStay(s, Do(s, a));
    case Go(c) =>
      NumbersOfClient(s, c);
      if Phase(s, c).Admitted? { NumberTaken(s, Do(s, a), c); }
      else if Do(s, a).enqueued == s.enqueued { NumbersStay(s, Do(s, a)); }
      else { NumberPut(s, Do(s, a), c); }
    case CancelFuture(q) => NumbersStay(s, Do(s, a));
    case Work(ok) => NumbersOfServing(s, ok); NumbersStay(s, Do(s, a));
  }

  lemma NumbersStay(s: State, t: State)
    requires NumbersUnique(s) && t.nextSeq == s.nextSeq && t.enqueued == s.enqueued
    requires forall d {:trigger Phase(t, d)} :: Phase(t, d).Numbered? ==> Phase(t, d) == Phase(s, d)
    ensures NumbersUnique(t)
  {
    forall c | Owns(t, c) ensures Owns(s, c) && Phase(t, c) == Phase(s, c) { }
    assert forall q :: BelowNext(t, q) == BelowNext(s, q);
  }

  lemma NumberTaken(s: State, t: State, c: nat)
    requires NumbersUnique(s) && OthersStay(s, t, c)
    requires Phase(t, c) == Numbered(s.nextSeq) && t.nextSeq == s.nextSeq + 1 && t.enqueued == s.enqueued
    ensures NumbersUnique(t)
  {
    forall q | q in t.enqueued ensures BelowNext(t, q) { assert BelowNext(s, q); }
    assert s.nextSeq !in s.enqueued by { assert !BelowNext(s, s.nextSeq); }
    forall d | Owns(t, d) && d != c
      ensures Owns(s, d) && Phase(t, d) == Phase(s, d) && BelowNext(s, Phase(t, d).seqNo)
        && BelowNext(t, Phase(t, d).seqNo)
    {
      assert Owns(s, d);
    }
  }

  lemma NumberPut(s: State, t: State, c: nat)
    requires NumbersUnique(s) && OthersStay(s, t, c) && Phase(s, c).Numbered? && Phase(t, c) == Idle
    requires t.nextSeq == s.nextSeq && t.enqueued == s.enqueued + [Phase(s, c).seqNo]
    ensures NumbersUnique(t)
  {
    assert Owns(s, c);
    forall d | Owns(t, d) ensures d != c && Owns(s, d) && Phase(t, d) == Phase(s, d) { }
    forall q | q in t.enqueued ensures BelowNext(t, q) { assert BelowNext(s, q); }
    forall d | Owns(t, d) ensures BelowNext(t, Phase(t, d).seqNo) { assert BelowNext(s, Phase(s, d).seqNo); }
  }

  // ---- Futures -----------------------------------------------------------------------

  ghost predicate FuturesKnown(s: State) {
    forall q {:trigger q in s.futures} :: q in s.futures ==> q in s.enqueued
  }

  predicate Untouched(f: Future) {
    f.Pending? || f.Cancelled?
  }

  /** What the future of the command in hand may be. */
  predicate StageFits(stage: Stage, f: Future) {
    match stage
    case Executing => f.Running?
    case Publishing => f.Running?
    case Failing(cause) => if cause.FunctionRaised? then f.Running? else Untouched(f)
    case Settling(cause) => if cause.FunctionRaised? then f.Running? else Untouched(f)
    case _ => Untouched(f)
  }

  predicate InHand(s: State, q: nat) {
    s.worker.Busy? && s.worker.seqNo == q
  }

  /** Waiting commands are untouched, served ones are settled. */
  ghost predicate Fits(s: State, q: nat) {
    if InHand(s, q) then StageFits(s.worker.stage, FutureOf(s, q))
    else if q in s.dequeued then FutureOf(s, q).Done()
    else Untouched(FutureOf(s, q))
  }

  ghost predicate FuturesFit(s: State) {
    forall q {:trigger Fits(s, q)} :: q in s.enqueued ==> Fits(s, q)
  }

  lemma HandlingFits(s: State, q: nat, stage: Stage, ok: bool)
    requires StageFits(stage, FutureOf(s, q))
    ensures var t := Handle(s, q, stage, ok);
      && (t.worker.Busy? ==> t.worker.seqNo == q && StageFits(t.worker.stage, FutureOf(t, q)))
      && (!t.worker.Busy? ==> FutureOf(t, q).Done())
  {
    match stage {
      case Held =>
      case Uncancelled =>
      case InOrder =>
      case Executing =>
      case Publishing =>
      case Failing(_) =>
      case Settling(_) =>
    }
  }

  /** Handling a command touches its own future only. */
  lemma HandlingFutures(s: State, q: nat, stage: Stage, ok: bool)
    ensures var t := Handle(s, q, stage, ok);
      && (forall p {:trigger FutureOf(t, p)} :: p != q ==> FutureOf(t, p) == FutureOf(s, p))
      && t.futures.Keys <= s.futures.Keys + {q}
  {
  }

  lemma InHandIsLast(s: State, q: nat)
    requires HandOk(s) && Fifo(s) && InHand(s, q)
    ensures q in s.dequeued && q in s.enqueued
  {
    assert s.dequeued[|s.dequeued| - 1] == q;
  }

  lemma FitsAfterHandling(s: State, ok: bool)
    requires FuturesFit(s) && HandOk(s) && Fifo(s) && s.worker.Busy?
    ensures FuturesFit(Serve(s, ok))
  {
    var q, stage := s.worker.seqNo, s.worker.stage;
    var t := Handle(s, q, stage, ok);
    InHandIsLast(s, q);
    assert Fits(s, q);
    LineOfHandling(s, q, stage, ok);
    HandlingFits(s, q, stage, ok);
    HandlingFutures(s, q, stage, ok);
    forall p | p in t.enqueued ensures Fits(t, p) { assert Fits(s, p); }
  }

  lemma QueuedNotDequeued(s: State, q: nat)
    requires Fifo(s) && NoDuplicates(s.enqueued) && s.queue != [] && s.queue[0] == Command(q)
    ensures q !in s.dequeued
  {
    assert Waits(s.queue)[0] == q;
    assert s.enqueued[|s.dequeued|] == q;
    assert forall i :: 0 <= i < |s.dequeued| ==> s.enqueued[i] == s.dequeued[i];
  }

  lemma FitsAfterTake(s: State)
    requires FuturesFit(s) && Fifo(s) && NoDuplicates(s.enqueued) && s.worker.Waiting?
    ensures FuturesFit(Take(s))
  {
    var t := Take(s);
    if s.queue != [] && s.queue[0].Command? { QueuedNotDequeued(s, s.queue[0].seqNo); }
    forall p | p in t.enqueued ensures Fits(t, p) { assert Fits(s, p); }
  }

  lemma FitsAfterPut(s: State, c: nat, q: nat)
    requires FuturesFit(s) && Fifo(s) && HandOk(s) && q !in s.enqueued
    ensures FuturesFit(Put(s, c, q))
  {
    var t := Put(s, c, q);
    if s.worker.Busy? { InHandIsLast(s, s.worker.seqNo); }
    forall p | p in t.enqueued ensures Fits(t, p) {
      if p != q { assert Fits(s, p); }
    }
  }

  /** A step of a client that puts nothing leaves the futures alone. */
  lemma FuturesOfClient(s: State, a: Act)
    requires (a.Call? || a.Go?) && !Puts(s, a)
    ensures var t := Do(s, a); t.futures == s.futures && t.settled == s.settled && t.enqueued == s.enqueued
  {
    if a.Go? { FuturesOfAdvance(s, a.client); }
  }

  lemma FuturesOfAdvance(s: State, c: nat)
    requires !(Phase(s, c).Numbered? && |s.queue| < s.maxsize)
    ensures var t := Advance(s, c); t.futures == s.futures && t.settled == s.settled && t.enqueued == s.enqueued
  {
    match Phase(s, c) {
      case Idle =>
      case Entering =>
      case Admitted =>
      case Numbered(q) =>
      case Clearing =>
      case Closing(_) =>
      case Marked(_) =>
      case Stopping =>
    }
  }

  lemma FuturesFitKept(s: State, a: Act)
    requires FuturesFit(s) && Fifo(s) && HandOk(s) && NumbersUnique(s)
    ensures FuturesFit(Do(s, a))
  {
    if a.Work? {
      if s.worker.Busy? { FitsAfterHandling(s, a.ok); }
      if s.worker.Waiting? { FitsAfterTake(s); }
    } else if Puts(s, a) {
      assert Owns(s, a.client);
      FitsAfterPut(s, a.client, Phase(s, a.client).seqNo);
    } else if a.CancelFuture? {
      FitsAfterCancel(s, a.seqNo);
    } else {
      FitsAfterCall(s, a);
    }
  }

  lemma FitsAfterCancel(s: State, q: nat)
    requires FuturesFit(s)
    ensures FuturesFit(Do(s, CancelFuture(q)))
  {
    var t := Do(s, CancelFuture(q));
    forall p | p in t.enqueued ensures Fits(t, p) { assert Fits(s, p); }
  }

  lemma FitsAfterCall(s: State, a: Act)
    requires FuturesFit(s) && (a.Call? || a.Go?) && !Puts(s, a)
    ensures FuturesFit(Do(s, a))
  {
    var t := Do(s, a);
    ClientKeepsWorker(s, a);
    FuturesOfClient(s, a);
    forall p | p in t.enqueued ensures Fits(t, p) { assert Fits(s, p); }
  }

  lemma FuturesKnownKept(s: State, a: Act)
    requires FuturesKnown(s) && Fifo(s) && HandOk(s)
    ensures FuturesKnown(Do(s, a))
  {
    if a.Work? && s.worker.Busy? {
      InHandIsLast(s, s.worker.seqNo);
      HandlingFutures(s, s.worker.seqNo, s.worker.stage, a.ok);
      LineOfHandling(s, s.worker.seqNo, s.worker.stage, a.ok);
    } else if (a.Call? || a.Go?) && !Puts(s, a) {
      FuturesOfClient(s, a);
    }
  }

  // ---- Settled once ------------------------------------------------------------------

  ghost predicate SettledOnce(s: State) {
    && NoDuplicates(s.settled)
    && forall q {:trigger q in s.settled} :: q in s.settled <==> FutureOf(s, q).Done()
  }

  lemma HandlingSettles(s: State, q: nat, stage: Stage, ok: bool)
    requires StageFits(stage, FutureOf(s, q))
    ensures var t := Handle(s, q, stage, ok);
      if FutureOf(t, q).Done() && !FutureOf(s, q).Done() then t.settled == s.settled + [q]
      else t.settled == s.settled && FutureOf(t, q).Done() == FutureOf(s, q).Done()
  {
  }

  lemma SettledKept(s: State, t: State, q: nat)
    requires SettledOnce(s)
    requires forall p {:trigger FutureOf(t, p)} :: p != q ==> FutureOf(t, p) == FutureOf(s, p)
    requires if FutureOf(t, q).Done() && !FutureOf(s, q).Done() then t.settled == s.settled + [q]
             else t.settled == s.settled && FutureOf(t, q).Done() == FutureOf(s, q).Done()
    ensures SettledOnce(t)
  {
    assert q in s.settled <==> FutureOf(s, q).Done();
    forall p ensures p in t.settled <==> FutureOf(t, p).Done() { assert p in s.settled <==> FutureOf(s, p).Done(); }
  }

  lemma SettledOnceKept(s: State, a: Act)
    requires SettledOnce(s) && FuturesFit(s) && FuturesKnown(s) && Fifo(s) && HandOk(s) && NumbersUnique(s)
    ensures SettledOnce(Do(s, a))
  {
    if a.Work? && s.worker.Busy? {
      SettledAfterHandling(s, a.ok);
    } else if Puts(s, a) {
      assert Owns(s, a.client);
      SettledKept(s, Do(s, a), Phase(s, a.client).seqNo);
    } else if a.CancelFuture? {
      SettledKept(s, Do(s, a), a.seqNo);
    } else if !a.Work? {
      FuturesOfClient(s, a);
      SettledKept(s, Do(s, a), 0);
    }
  }

  lemma SettledAfterHandling(s: State, ok: bool)
    requires SettledOnce(s) && FuturesFit(s) && Fifo(s) && HandOk(s) && s.worker.Busy?
    ensures SettledOnce(Serve(s, ok))
  {
    var q, stage := s.worker.seqNo, s.worker.stage;
    InHandIsLast(s, q);
    assert Fits(s, q);
    HandlingFutures(s, q, stage, ok);
    HandlingSettles(s, q, stage, ok);
    SettledKept(s, Handle(s, q, stage, ok), q);
  }

  // ---- Completions -------------------------------------------------------------------

  ghost predicate Rises(a: seq<nat>) {
    forall i, j :: 0 <= i < j < |a| ==> a[i] < a[j]
  }

  predicate MayRun(stage: Stage) {
    stage.InOrder? || stage.Executing?
  }

  /** Completed numbers rise, and the last of them is remembered. */
  ghost predicate Progress(s: State) {
    && Rises(s.completed)
    && s.lastCompleted == (if s.completed == [] then 0 else s.completed[|s.completed| - 1])
    && s.violations == |s.violators|
    && (s.worker.Busy? && MayRun(s.worker.stage) ==> s.lastCompleted < s.worker.seqNo)
    && (s.active <==> s.worker.Busy? && s.worker.stage == Executing)
  }

  lemma ProgressOfExecuting(s: State, ok: bool)
    requires Progress(s) && s.worker.Busy? && s.worker.stage.Executing?
    ensures Progress(Serve(s, ok))
  {
  }

  lemma ProgressOfOthers(s: State, ok: bool)
    requires Progress(s) && s.worker.Busy? && !s.worker.stage.Executing?
    ensures Progress(Serve(s, ok))
  {
  }

  lemma ProgressOfHandling(s: State, ok: bool)
    requires Progress(s) && s.worker.Busy?
    ensures Progress(Serve(s, ok))
  {
    if s.worker.stage.Executing? { ProgressOfExecuting(s, ok); } else { ProgressOfOthers(s, ok); }
  }

  ghost predicate SameWork(s: State, t: State) {
    && t.worker == s.worker && t.completed == s.completed && t.lastCompleted == s.lastCompleted && t.active == s.active
    && t.violations == s.violations && t.checked == s.checked && t.violators == s.violators && t.started == s.started
      && t.dequeued == s.dequeued
  }

  lemma WorkOfAdvance(s: State, c: nat)
    ensures SameWork(s, Advance(s, c))
  {
  }

  lemma WorkOfClient(s: State, a: Act)
    requires !a.Work?
    ensures SameWork(s, Do(s, a))
  {
    if a.Go? { WorkOfAdvance(s, a.client); }
  }

  lemma ProgressKept(s: State, a: Act)
    requires Progress(s)
    ensures Progress(Do(s, a))
  {
    if !a.Work? { WorkOfClient(s, a); }
    else if s.worker.Busy? { ProgressOfHandling(s, a.ok); }
  }

  /** A completed command is finished, or about to be. */
  ghost predicate CompletedDone(s: State) {
    forall c {:trigger c in s.completed} :: c in s.completed ==>
      c in s.dequeued && if InHand(s, c) then s.worker.stage == Publishing else FutureOf(s, c) == Finished
  }

  lemma CompletedDoneKept(s: State, a: Act)
    requires CompletedDone(s) && FuturesFit(s) && Fifo(s) && HandOk(s) && NumbersUnique(s)
    ensures CompletedDone(Do(s, a))
  {
    var t := Do(s, a);
    if a.Work? {
      if s.worker.Busy? { CompletedAfterHandling(s, a.ok); }
      if s.worker.Waiting? { CompletedAfterTake(s); }
    } else {
      WorkOfClient(s, a);
      if Puts(s, a) {
        assert Owns(s, a.client);
      } else if !a.CancelFuture? {
        FuturesOfClient(s, a);
      }
    }
  }

  lemma CompletedOfHandling(s: State, q: nat, stage: Stage, ok: bool)
    ensures var t := Handle(s, q, stage, ok);
      if stage == Executing && ok then t.completed == s.completed + [q] && t.worker == Busy(q, Publishing)
      else t.completed == s.completed
  {
  }

  lemma PublishingFinishes(s: State, q: nat, ok: bool)
    ensures FutureOf(Handle(s, q, Publishing, ok), q) == Finished && Handle(s, q, Publishing, ok).worker == Waiting
  {
  }

  lemma CompletedAfterHandling(s: State, ok: bool)
    requires CompletedDone(s) && Fifo(s) && HandOk(s) && s.worker.Busy?
    ensures CompletedDone(Serve(s, ok))
  {
    var q, stage := s.worker.seqNo, s.worker.stage;
    InHandIsLast(s, q);
    LineOfHandling(s, q, stage, ok);
    HandlingFutures(s, q, stage, ok);
    HandlingKeepsHand(s, q, stage, ok);
    CompletedOfHandling(s, q, stage, ok);
    PublishingFinishes(s, q, ok);
  }

  lemma CompletedAfterTake(s: State)
    requires CompletedDone(s) && Fifo(s) && NoDuplicates(s.enqueued) && s.worker.Waiting?
    ensures CompletedDone(Take(s))
  {
    if s.queue != [] && s.queue[0].Command? { QueuedNotDequeued(s, s.queue[0].seqNo); }
  }

  // ---- Order -------------------------------------------------------------------------

  /** `v` was queued behind a completed command of a higher number. */
  ghost predicate Overtaken(s: State, v: nat) {
    exists i, j :: 0 <= i < j < |s.dequeued| && s.dequeued[j] == v < s.dequeued[i] && s.dequeued[i] in s.completed
  }

  lemma OvertakenStays(s: State, t: State, v: nat)
    requires Overtaken(s, v) && s.dequeued <= t.dequeued && forall c :: c in s.completed ==> c in t.completed
    ensures Overtaken(t, v)
  {
    var i, j :| 0 <= i < j < |s.dequeued| && s.dequeued[j] == v < s.dequeued[i] && s.dequeued[i] in s.completed;
    assert t.dequeued[j] == v && t.dequeued[i] == s.dequeued[i];
  }

  /** The check fails only for a command that was overtaken. */
  lemma CheckFindsOvertaken(s: State)
    requires Progress(s) && CompletedDone(s) && HandOk(s) && Fifo(s) && NumbersUnique(s)
    requires s.worker.Busy? && s.worker.stage == Uncancelled && (s.worker.seqNo <= s.lastCompleted || s.active)
    ensures Overtaken(s, s.worker.seqNo)
  {
    var q, n := s.worker.seqNo, |s.dequeued| - 1;
    InHandIsLast(s, q);
    assert BelowNext(s, q);
    var c := s.lastCompleted;
    assert c in s.completed && c in s.dequeued && !InHand(s, c);
    var i :| 0 <= i < |s.dequeued| && s.dequeued[i] == c;
    assert 0 <= i < n && s.dequeued[n] == q < s.dequeued[i] && s.dequeued[i] in s.completed;
  }

  /** Nobody is overtaken by a step unless it is taken from the queue by it. */
  lemma OvertakenBefore(s: State, t: State, v: nat)
    requires Overtaken(t, v) && NoDuplicates(t.dequeued)
    requires t.dequeued == s.dequeued && t.completed == s.completed + [s.dequeued[|s.dequeued| - 1]] && s.dequeued != []
    ensures Overtaken(s, v)
  {
    var i, j :| 0 <= i < j < |t.dequeued| && t.dequeued[j] == v < t.dequeued[i] && t.dequeued[i] in t.completed;
    assert t.dequeued[i] != t.dequeued[|t.dequeued| - 1];
    assert s.dequeued[j] == v && s.dequeued[i] in s.completed;
  }

  lemma OvertakenIfTaken(s: State, t: State, v: nat, q: nat)
    requires Overtaken(t, v) && v in s.dequeued && NoDuplicates(t.dequeued)
    requires t.dequeued == s.dequeued + [q] && t.completed == s.completed
    ensures Overtaken(s, v)
  {
    var i, j :| 0 <= i < j < |t.dequeued| && t.dequeued[j] == v < t.dequeued[i] && t.dequeued[i] in t.completed;
    var k :| 0 <= k < |s.dequeued| && s.dequeued[k] == v;
    assert t.dequeued[k] == v;
    assert s.dequeued[j] == v && s.dequeued[i] == t.dequeued[i];
  }

  /** The check passes only a command that was not overtaken. */
  lemma CheckPassesInOrder(s: State, q: nat)
    requires Progress(s) && s.lastCompleted < q
    ensures !Overtaken(s, q)
  {
    forall c | c in s.completed ensures c <= s.lastCompleted {
      var k :| 0 <= k < |s.completed| && s.completed[k] == c;
    }
  }

  predicate Unchecked(stage: Stage) {
    stage == Held || stage == Uncancelled
  }

  /** What is known of a command that reached the order check. */
  ghost predicate Verdict(s: State, v: nat) {
    && v in s.dequeued && (InHand(s, v) ==> !Unchecked(s.worker.stage))
    && (v in s.violators <==> Overtaken(s, v))
  }

  /** The check counts exactly the overtaken commands, and the others are started. */
  ghost predicate ChecksExact(s: State) {
    && NoDuplicates(s.checked) && NoDuplicates(s.violators)
    && (forall v {:trigger Verdict(s, v)} :: v in s.checked ==> Verdict(s, v))
    && (forall v :: v in s.violators ==> v in s.checked)
    && (forall v :: v in s.started ==> v in s.checked && v !in s.violators)
    && (s.worker.Busy? && s.worker.stage == InOrder ==> s.worker.seqNo in s.checked && s.worker.seqNo !in s.violators)
  }

  lemma ChecksOfHandling(s: State, q: nat, stage: Stage, ok: bool)
    ensures var t := Handle(s, q, stage, ok);
      if stage == Uncancelled then
        && t.checked == s.checked + [q] && t.started == s.started && t.completed == s.completed && t.worker.Busy?
        && t.worker.seqNo == q && !Unchecked(t.worker.stage)
        && (if q <= s.lastCompleted || s.active then t.violators == s.violators + [q] && t.worker.stage != InOrder
            else t.violators == s.violators)
      else
        && t.checked == s.checked && t.violators == s.violators
        && (t.started == s.started || (stage == InOrder && t.started == s.started + [q]))
        && (t.worker.Busy? ==>
          t.worker.seqNo == q && t.worker.stage != InOrder && (Unchecked(t.worker.stage) ==> stage == Held))
  {
  }

  lemma VerdictAtCheck(s: State, ok: bool, v: nat)
    requires ChecksExact(s) && Progress(s) && CompletedDone(s) && HandOk(s) && Fifo(s) && NumbersUnique(s)
    requires s.worker.Busy? && s.worker.stage == Uncancelled && (v in s.checked || v == s.worker.seqNo)
    ensures Verdict(Serve(s, ok), v)
  {
    var q, t := s.worker.seqNo, Serve(s, ok);
    ChecksOfHandling(s, q, s.worker.stage, ok);
    LineOfHandling(s, q, s.worker.stage, ok);
    InHandIsLast(s, q);
    assert Overtaken(t, v) == Overtaken(s, v);
    if v in s.checked { assert Verdict(s, v); }
    if v == q {
      assert q !in s.checked by { assert !Verdict(s, q); }
      if q <= s.lastCompleted || s.active { CheckFindsOvertaken(s); } else { CheckPassesInOrder(s, q); }
    }
  }

  lemma ChecksAtCheck(s: State, ok: bool)
    requires ChecksExact(s) && Progress(s) && CompletedDone(s) && HandOk(s) && Fifo(s) && NumbersUnique(s)
    requires s.worker.Busy? && s.worker.stage == Uncancelled
    ensures ChecksExact(Serve(s, ok))
  {
    var q, t := s.worker.seqNo, Serve(s, ok);
    ChecksOfHandling(s, q, s.worker.stage, ok);
    assert q !in s.checked by { assert !Verdict(s, q); }
    forall v | v in t.checked ensures Verdict(t, v) { VerdictAtCheck(s, ok, v); }
  }

  lemma VerdictLater(s: State, ok: bool, v: nat)
    requires Verdict(s, v) && HandOk(s) && Fifo(s) && NumbersUnique(s)
    requires s.worker.Busy? && s.worker.stage != Uncancelled
    ensures Verdict(Serve(s, ok), v)
  {
    var q, stage, t := s.worker.seqNo, s.worker.stage, Serve(s, ok);
    ChecksOfHandling(s, q, stage, ok);
    LineOfHandling(s, q, stage, ok);
    CompletedOfHandling(s, q, stage, ok);
    TakenOnce(s);
    if Overtaken(s, v) { OvertakenStays(s, t, v); }
    if Overtaken(t, v) && t.completed != s.completed { OvertakenBefore(s, t, v); }
    assert t.completed == s.completed ==> Overtaken(t, v) == Overtaken(s, v);
  }

  /** No command is taken twice. */
  lemma TakenOnce(s: State)
    requires Fifo(s) && NoDuplicates(s.enqueued)
    ensures NoDuplicates(s.dequeued)
  {
    assert forall i :: 0 <= i < |s.dequeued| ==> s.dequeued[i] == s.enqueued[i];
  }

  lemma ChecksLater(s: State, ok: bool)
    requires ChecksExact(s) && HandOk(s) && Fifo(s) && NumbersUnique(s)
    requires s.worker.Busy? && s.worker.stage != Uncancelled
    ensures ChecksExact(Serve(s, ok))
  {
    var t := Serve(s, ok);
    ChecksOfHandling(s, s.worker.seqNo, s.worker.stage, ok);
    forall v | v in t.checked ensures Verdict(t, v) {
      assert Verdict(s, v);
      VerdictLater(s, ok, v);
    }
  }

  /** `t` is `s` with `q` taken from the queue. */
  ghost predicate Took(s: State, q: nat, t: State) {
    && q !in s.dequeued && t.dequeued == s.dequeued + [q] && t.completed == s.completed && NoDuplicates(t.dequeued)
    && t.checked == s.checked && t.violators == s.violators && t.started == s.started
    && !s.worker.Busy? && t.worker == Busy(q, Held)
  }

  lemma TakeTakes(s: State)
    requires Fifo(s) && NumbersUnique(s) && s.worker.Waiting? && s.queue != [] && s.queue[0].Command?
    ensures Took(s, s.queue[0].seqNo, Take(s))
  {
    QueuedNotDequeued(s, s.queue[0].seqNo);
    FifoAfterTake(s);
    TakenOnce(Take(s));
  }

  lemma VerdictAfterTake(s: State, q: nat, t: State, v: nat)
    requires Verdict(s, v) && Took(s, q, t)
    ensures Verdict(t, v)
  {
    if Overtaken(s, v) { OvertakenStays(s, t, v); }
    if Overtaken(t, v) { OvertakenIfTaken(s, t, v, q); }
  }

  lemma ChecksAfterTake(s: State, q: nat, t: State)
    requires ChecksExact(s) && Took(s, q, t)
    ensures ChecksExact(t)
  {
    forall v | v in t.checked ensures Verdict(t, v) {
      assert Verdict(s, v);
      VerdictAfterTake(s, q, t, v);
    }
  }

  lemma ChecksAfterServing(s: State)
    requires ChecksExact(s) && Fifo(s) && NumbersUnique(s) && s.worker.Waiting?
    ensures ChecksExact(Take(s))
  {
    if s.queue != [] && s.queue[0].Command? {
      TakeTakes(s);
      ChecksAfterTake(s, s.queue[0].seqNo, Take(s));
    } else {
      ChecksStay(s, Take(s));
    }
  }

  lemma ChecksStay(s: State, t: State)
    requires ChecksExact(s) && t.dequeued == s.dequeued && t.completed == s.completed && t.checked == s.checked
    requires t.violators == s.violators && t.started == s.started && (t.worker == s.worker || !t.worker.Busy?)
    ensures ChecksExact(t)
  {
    forall v | v in t.checked ensures Verdict(t, v) {
      assert Verdict(s, v);
      assert Overtaken(t, v) == Overtaken(s, v);
    }
  }

  lemma ChecksExactKept(s: State, a: Act)
    requires ChecksExact(s) && Progress(s) && CompletedDone(s) && HandOk(s) && Fifo(s) && NumbersUnique(s)
    ensures ChecksExact(Do(s, a))
  {
    if !a.Work? {
      WorkOfClient(s, a);
      ChecksStay(s, Do(s, a));
    } else if s.worker.Waiting? {
      ChecksAfterServing(s);
    } else if s.worker.Busy? {
      if s.worker.stage == Uncancelled { ChecksAtCheck(s, a.ok); } else { ChecksLater(s, a.ok); }
    }
  }

  /** `a` is `b` with some elements left out. */
  predicate Within(a: seq<nat>, b: seq<nat>) {
    if a == [] then true
    else if b == [] then false
    else (a[|a| - 1] == b[|b| - 1] && Within(a[..|a| - 1], b[..|b| - 1])) || Within(a, b[..|b| - 1])
  }

  predicate BeforeRun(stage: Stage) {
    stage == Held || stage == Uncancelled || stage == InOrder
  }

  /** Commands start in the order they were taken. */
  ghost predicate StartsInOrder(s: State) {
    if s.worker.Busy? && BeforeRun(s.worker.stage)
    then s.dequeued != [] && Within(s.started, s.dequeued[..|s.dequeued| - 1])
    else Within(s.started, s.dequeued)
  }

  lemma WithinPush(a: seq<nat>, b: seq<nat>, x: nat)
    requires Within(a, b)
    ensures Within(a, b + [x]) && Within(a + [x], b + [x])
  {
    assert (b + [x])[..|b|] == b && (a + [x])[..|a|] == a;
  }

  lemma StartsOfHandling(s: State, q: nat, stage: Stage, ok: bool)
    ensures var t := Handle(s, q, stage, ok);
      && (t.started == s.started
        || (stage == InOrder && t.started == s.started + [q] && t.worker == Busy(q, Executing)))
      && (t.worker.Busy? && BeforeRun(t.worker.stage) ==> BeforeRun(stage) && t.started == s.started)
  {
  }

  lemma StartsInOrderKept(s: State, a: Act)
    requires StartsInOrder(s) && HandOk(s)
    ensures StartsInOrder(Do(s, a))
  {
    if !a.Work? { WorkOfClient(s, a); }
    else if s.worker.Busy? { StartsAfterHandling(s, a.ok); }
    else if s.worker.Waiting? { StartsAfterTake(s); }
  }

  lemma StartsAfterHandling(s: State, ok: bool)
    requires StartsInOrder(s) && HandOk(s) && s.worker.Busy?
    ensures StartsInOrder(Serve(s, ok))
  {
    var q, stage, n := s.worker.seqNo, s.worker.stage, |s.dequeued| - 1;
    LineOfHandling(s, q, stage, ok);
    HandlingKeepsHand(s, q, stage, ok);
    StartsOfHandling(s, q, stage, ok);
    if BeforeRun(stage) {
      WithinPush(s.started, s.dequeued[..n], q);
      assert s.dequeued == s.dequeued[..n] + [q];
    }
  }

  lemma StartsAfterTake(s: State)
    requires StartsInOrder(s) && s.worker.Waiting?
    ensures StartsInOrder(Take(s))
  {
    if s.queue != [] && s.queue[0].Command? {
      assert (s.dequeued + [s.queue[0].seqNo])[..|s.dequeued|] == s.dequeued;
    }
  }

  // ---- Every interleaving ------------------------------------------------------------

  ghost predicate Inv(s: State) {
    && Fifo(s) && HandOk(s) && NumbersUnique(s) && FuturesKnown(s) && FuturesFit(s) && SettledOnce(s)
    && Progress(s) && CompletedDone(s) && ChecksExact(s) && StartsInOrder(s)
  }

  lemma InvKept(s: State, a: Act)
    requires Inv(s)
    ensures Inv(Do(s, a))
  {
    FifoKept(s, a);
    HandOkKept(s, a);
    NumbersUniqueKept(s, a);
    FuturesKnownKept(s, a);
    FuturesFitKept(s, a);
    SettledOnceKept(s, a);
    ProgressKept(s, a);
    CompletedDoneKept(s, a);
    ChecksExactKept(s, a);
    StartsInOrderKept(s, a);
  }

  lemma {:induction false} InvHolds(maxsize: nat, acts: seq<Act>)
    ensures Inv(After(maxsize, acts))
  {
    if acts != [] {
      InvHolds(maxsize, acts[..|acts| - 1]);
      InvKept(After(maxsize, acts[..|acts| - 1]), acts[|acts| - 1]);
    }
  }

  /** At most one command runs, and it is the one the worker holds. */
  lemma OneAtATime(maxsize: nat, acts: seq<Act>, p: nat, q: nat)
    requires FutureOf(After(maxsize, acts), p).Running? && FutureOf(After(maxsize, acts), q).Running?
    ensures p == q && InHand(After(maxsize, acts), p)
  {
    InvHolds(maxsize, acts);
    assert Fits(After(maxsize, acts), p) && Fits(After(maxsize, acts), q);
  }

  /** Successful completions have strictly rising numbers. */
  lemma CompletionsRise(maxsize: nat, acts: seq<Act>)
    ensures Rises(After(maxsize, acts).completed)
  {
    InvHolds(maxsize, acts);
  }

  /** No future is settled twice, and every command the worker took and let go is settled. */
  lemma EveryTakenSettledOnce(maxsize: nat, acts: seq<Act>)
    ensures var s := After(maxsize, acts);
      && NoDuplicates(s.settled)
      && forall q :: q in s.dequeued && !InHand(s, q) ==> q in s.settled
  {
    InvHolds(maxsize, acts);
    var s := After(maxsize, acts);
    forall q | q in s.dequeued && !InHand(s, q) ensures q in s.settled {
      assert q in s.enqueued;
      assert Fits(s, q);
      assert q in s.settled <==> FutureOf(s, q).Done();
    }
  }

  /** Commands leave the queue in the order they entered it, and start in that order. */
  lemma QueueOrder(maxsize: nat, acts: seq<Act>)
    ensures var s := After(maxsize, acts);
      s.dequeued <= s.enqueued && NoDuplicates(s.enqueued) && Within(s.started, s.dequeued)
  {
    InvHolds(maxsize, acts);
    var s := After(maxsize, acts);
    if s.worker.Busy? && BeforeRun(s.worker.stage) {
      var n := |s.dequeued| - 1;
      WithinPush(s.started, s.dequeued[..n], s.dequeued[n]);
      assert s.dequeued == s.dequeued[..n] + [s.dequeued[n]];
    }
  }

  /**
   Of the commands that reach the order check, exactly those queued behind a completed one
   of a higher number are counted, each once; every other one of them, and no more, is fit to start.
   */
  lemma ViolationsAreOvertakings(maxsize: nat, acts: seq<Act>)
    ensures var s := After(maxsize, acts);
      && s.violations == |s.violators| && NoDuplicates(s.violators)
      && (forall v :: v in s.violators <==> v in s.checked && Overtaken(s, v))
      && (forall v :: v in s.started ==> v in s.checked && !Overtaken(s, v))
  {
    InvHolds(maxsize, acts);
    var s := After(maxsize, acts);
    forall v ensures v in s.violators <==> v in s.checked && Overtaken(s, v) {
      if v in s.checked { assert Verdict(s, v); }
    }
    forall v | v in s.started ensures v in s.checked && !Overtaken(s, v) { assert Verdict(s, v); }
  }

  // ---- One submitter -----------------------------------------------------------------

  predicate Submitting(s: State, c: nat) {
    Phase(s, c).Entering? || Phase(s, c).Admitted? || Phase(s, c).Numbered?
  }

  ghost predicate OnlySubmitter(acts: seq<Act>, c: nat) {
    forall a :: a in acts && a.Call? && a.op.Submit? ==> a.client == c
  }

  /** Only `c` is submitting, so commands are queued by rising number. */
  ghost predicate SingleFile(s: State, c: nat) {
    && (forall d {:trigger Submitting(s, d)} :: Submitting(s, d) ==> d == c)
    && Rises(s.enqueued)
    && (Owns(s, c) ==> forall q :: q in s.enqueued ==> q < Phase(s, c).seqNo)
  }

  lemma FileOfCall(s: State, d: nat, op: Operation, c: nat)
    requires SingleFile(s, c) && (op.Submit? ==> d == c)
    ensures SingleFile(Begin(s, d, op), c)
  {
    var t := Begin(s, d, op);
    forall e | Submitting(t, e)
      ensures e == c
    {
      assert e != d ==> Submitting(s, e);
      assert Submitting(s, d) ==> d == c;
    }
    assert Owns(t, c) ==> Owns(s, c);
  }

  lemma RisesPush(a: seq<nat>, x: nat)
    requires Rises(a) && forall q :: q in a ==> q < x
    ensures Rises(a + [x])
  {
    assert forall i :: 0 <= i < |a| ==> a[i] in a;
  }

  lemma FileOfAdvance(s: State, d: nat, c: nat)
    requires SingleFile(s, c) && NumbersUnique(s)
    ensures SingleFile(Advance(s, d), c)
  {
    var t := Advance(s, d);
    NumbersOfClient(s, d);
    forall e | Submitting(t, e) ensures e == c { assert Submitting(s, e); }
    if Submitting(s, d) {
      forall q | q in s.enqueued ensures q < s.nextSeq { assert BelowNext(s, q); }
      if Phase(s, d).Numbered? {
        assert Owns(s, d);
        RisesPush(s.enqueued, Phase(s, d).seqNo);
      }
    } else {
      FileStays(s, t, d, c);
    }
  }

  lemma FileStays(s: State, t: State, d: nat, c: nat)
    requires SingleFile(s, c) && OthersStay(s, t, d) && !Submitting(s, d) && !Phase(t, d).Numbered?
      && t.enqueued == s.enqueued
    ensures Rises(t.enqueued) && (Owns(t, c) ==> forall q :: q in t.enqueued ==> q < Phase(t, c).seqNo)
  {
    if Owns(t, c) { assert c != d && Owns(s, c) && Phase(t, c) == Phase(s, c); }
  }

  lemma SingleFileKept(s: State, a: Act, c: nat)
    requires SingleFile(s, c) && NumbersUnique(s)
    requires a.Call? && a.op.Submit? ==> a.client == c
    ensures SingleFile(Do(s, a), c)
  {
    match a
    case Call(d, op) => FileOfCall(s, d, op, c);
    case Go(d) => FileOfAdvance(s, d, c);
    case CancelFuture(q) => FileSame(s, Do(s, a), c);
    case Work(ok) => NumbersOfServing(s, ok); FileSame(s, Do(s, a), c);
  }

  lemma FileSame(s: State, t: State, c: nat)
    requires SingleFile(s, c) && t.clients == s.clients && t.enqueued == s.enqueued
    ensures SingleFile(t, c)
  {
    forall d | Submitting(t, d) ensures d == c { assert Submitting(s, d); }
    assert Owns(t, c) == Owns(s, c);
  }

  lemma {:induction false} SingleFileHolds(maxsize: nat, acts: seq<Act>, c: nat)
    requires OnlySubmitter(acts, c)
    ensures SingleFile(After(maxsize, acts), c)
  {
    if acts != [] {
      var before := acts[..|acts| - 1];
      SingleFileHolds(maxsize, before, c);
      InvHolds(maxsize, before);
      SingleFileKept(After(maxsize, before), acts[|acts| - 1], c);
    }
  }

  /** With one submitter commands start in the order submitted, and no violation is counted. */
  lemma OneSubmitterInOrder(maxsize: nat, acts: seq<Act>, c: nat)
    requires OnlySubmitter(acts, c)
    ensures var s := After(maxsize, acts);
      s.violations == 0 && Rises(s.enqueued) && Within(s.started, s.dequeued) && s.dequeued <= s.enqueued
  {
    var s := After(maxsize, acts);
    SingleFileHolds(maxsize, acts, c);
    QueueOrder(maxsize, acts);
    ViolationsAreOvertakings(maxsize, acts);
    NoOvertaking(s);
    FirstViolator(s);
  }

  lemma FirstViolator(s: State)
    requires forall v :: v in s.violators ==> Overtaken(s, v)
    ensures s.violators == [] || Overtaken(s, s.violators[0])
  {
    if s.violators != [] { assert s.violators[0] in s.violators; }
  }

  lemma NoOvertaking(s: State)
    requires Rises(s.enqueued) && s.dequeued <= s.enqueued
    ensures forall v :: !Overtaken(s, v)
  {
    forall i, j | 0 <= i < j < |s.dequeued| ensures s.dequeued[i] < s.dequeued[j] {
      assert s.enqueued[i] == s.dequeued[i] && s.enqueued[j] == s.dequeued[j];
    }
  }

  // ---- What can go wrong -------------------------------------------------------------

  function Play(s: State, acts: seq<Act>): State
    decreases |acts|
  {
    if acts == [] then s else Play(Do(s, acts[0]), acts[1..])
  }

  lemma {:induction false} PlayIsAfter(maxsize: nat, done: seq<Act>, acts: seq<Act>)
    ensures After(maxsize, done + acts) == Play(After(maxsize, done), acts)
    decreases |acts|
  {
    if acts == [] {
      assert done + acts == done;
    } else {
      var next := done + [acts[0]];
      assert next[..|done|] == done;
      assert done + acts == next + acts[1..];
      PlayIsAfter(maxsize, next, acts[1..]);
    }
  }

  /** A client submits, up to taking its number. */
  function Enter(c: nat): seq<Act> {
    [Call(c, Submit), Go(c), Go(c)]
  }

  const TWO_SUBMIT: seq<Act> := Enter(0) + Enter(1) + [Go(1), Go(0)]

  const SERVE_ONE: seq<Act> := [Work(true), Work(true), Work(true), Work(true), Work(true), Work(true)]

  const REFUSE_ONE: seq<Act> := [Work(true), Work(true), Work(true)]

  /** The worker is free to take `q` next. */
  ghost predicate UpNext(s: State, q: nat) {
    && s.worker.Waiting? && s.queue != [] && s.queue[0] == Command(q) && !s.cancel && !s.active
      && FutureOf(s, q).Pending?
  }

  lemma ServeOne(s: State, q: nat)
    requires UpNext(s, q) && s.lastCompleted < q
    ensures var t := Play(s, SERVE_ONE);
      && t.worker.Waiting? && t.queue == s.queue[1..] && !t.cancel && !t.active && t.lastCompleted == q
      && t.violations == s.violations && t.enqueued == s.enqueued
      && forall p :: p != q ==> FutureOf(t, p) == FutureOf(s, p)
  {
    var s1 := Do(s, Work(true));
    var s2 := Do(s1, Work(true));
    var s3 := Do(s2, Work(true));
    var s4 := Do(s3, Work(true));
    var s5 := Do(s4, Work(true));
    assert s5.worker == Busy(q, Publishing);
    assert Play(s3, [Work(true), Work(true), Work(true)]) == Do(s5, Work(true));
  }

  lemma RefuseOne(s: State, q: nat)
    requires UpNext(s, q) && q <= s.lastCompleted
    ensures var t := Play(s, REFUSE_ONE); t.violations == s.violations + 1 && t.enqueued == s.enqueued
  {
    var s1 := Do(s, Work(true));
    var s2 := Do(s1, Work(true));
    assert s2.worker == Busy(q, Uncancelled);
  }

  lemma PlayThree(s: State, x: Act, y: Act, z: Act)
    ensures Play(s, [x, y, z]) == Do(Do(Do(s, x), y), z)
  {
    var s1 := Do(s, x);
    assert [x, y, z][1..] == [y, z] && [y, z][1..] == [z] && [z][1..] == [];
    assert Play(s1, [y, z]) == Play(Do(s1, y), [z]) == Do(Do(s1, y), z);
  }

  /** A client without an operation calls `submit`, passes the checks and takes a number. */
  lemma Entered(s: State, c: nat)
    requires Phase(s, c) == Idle && !s.closed && !s.cancel
    ensures Play(s, Enter(c)) == s.(clients := s.clients[c := Numbered(s.nextSeq)], nextSeq := s.nextSeq + 1)
  {
    PlayThree(s, Call(c, Submit), Go(c), Go(c));
    var s1 := s.(clients := s.clients[c := Entering]);
    var s2 := s.(clients := s.clients[c := Admitted]);
    assert Begin(s, c, Submit) == s1;
    assert s1.clients[c := Admitted] == s2.clients;
    assert Advance(s1, c) == s2;
    assert s2.clients[c := Numbered(s.nextSeq)] == s.clients[c := Numbered(s.nextSeq)];
  }

  lemma BothEntered()
    ensures After(2, Enter(0) + Enter(1)) == Start(2).(clients := map[0 := Numbered(1), 1 := Numbered(2)], nextSeq := 3)
  {
    PlayIsAfter(2, [], Enter(0));
    assert [] + Enter(0) == Enter(0);
    Entered(Start(2), 0);
    PlayIsAfter(2, Enter(0), Enter(1));
    Entered(After(2, Enter(0)), 1);
    assert map[0 := Numbered(1)][1 := Numbered(2)] == map[0 := Numbered(1), 1 := Numbered(2)];
  }

  lemma TwoSubmitted()
    ensures var s := After(2, TWO_SUBMIT);
      && s.enqueued == [2, 1] && s.queue == [Command(2), Command(1)] && s.violations == 0 && s.lastCompleted == 0
      && UpNext(s, 2) && FutureOf(s, 1).Pending?
  {
    BothEntered();
    var s := After(2, Enter(0) + Enter(1));
    PlayIsAfter(2, Enter(0) + Enter(1), [Go(1), Go(0)]);
    var s1 := Do(s, Go(1));
    assert s1 == Put(s, 1, 2);
    assert Play(s, [Go(1), Go(0)]) == Play(s1, [Go(0)]) == Do(s1, Go(0)) == Put(s1, 0, 1);
  }

  /** Two submitters: the later number is queued first, and the earlier one is refused. */
  lemma TwoSubmittersViolate()
    ensures var s := After(2, TWO_SUBMIT + SERVE_ONE + REFUSE_ONE); s.enqueued == [2, 1] && s.violations == 1
  {
    TwoSubmitted();
    var s := After(2, TWO_SUBMIT);
    ServeOne(s, 2);
    PlayIsAfter(2, TWO_SUBMIT, SERVE_ONE);
    RefuseOne(Play(s, SERVE_ONE), 1);
    PlayIsAfter(2, TWO_SUBMIT + SERVE_ONE, REFUSE_ONE);
  }

  const SUBMIT_THEN_STOP: seq<Act> := [Call(0, Submit), Go(0), Go(0), Go(0), Call(1, RequestCancel)]

  const LATE_CANCEL: seq<Act> := [Work(true), Work(true), Work(true), CancelFuture(1), Work(true)]

  lemma LateCancelCrashes(s: State)
    requires s.worker.Waiting? && s.queue == [Command(1)] && s.cancel && 1 in s.futures && s.futures[1] == Pending
    ensures Play(s, LATE_CANCEL).worker.Crashed?
  {
    var s1 := Do(s, Work(true));
    var s2 := Do(s1, Work(true));
    var s3 := Do(s2, Work(true));
    assert s3.worker == Busy(1, Settling(CommandCancelled));
    assert Play(s3, [CancelFuture(1), Work(true)]).worker.Crashed?;
  }

  lemma SubmittedThenStopped()
    ensures var s := After(1, SUBMIT_THEN_STOP);
      s.worker.Waiting? && s.queue == [Command(1)] && s.cancel && 1 in s.futures && s.futures[1] == Pending
  {
    PlayIsAfter(1, [], SUBMIT_THEN_STOP);
    assert [] + SUBMIT_THEN_STOP == SUBMIT_THEN_STOP;
  }

  /** A client that cancels its future at the wrong moment ends the worker. */
  lemma LateCancelEndsWorker()
    ensures After(1, SUBMIT_THEN_STOP + LATE_CANCEL).worker.Crashed?
  {
    SubmittedThenStopped();
    LateCancelCrashes(After(1, SUBMIT_THEN_STOP));
    PlayIsAfter(1, SUBMIT_THEN_STOP, LATE_CANCEL);
  }

  /** The client cancels just after the worker found the future unsettled. */
  ghost predicate CancelsLate(s: State, a: Act) {
    a.CancelFuture? && InHand(s, a.seqNo) && s.worker.stage.Settling? && a.seqNo in s.futures
      && s.futures[a.seqNo] == Pending
  }

  ghost predicate CancelledLate(maxsize: nat, acts: seq<Act>) {
    exists k {:trigger acts[k]} :: 0 <= k < |acts| && CancelsLate(After(maxsize, acts[..k]), acts[k])
  }

  lemma CancelledLatePush(maxsize: nat, acts: seq<Act>)
    requires acts != [] && CancelledLate(maxsize, acts[..|acts| - 1])
    ensures CancelledLate(maxsize, acts)
  {
    var before := acts[..|acts| - 1];
    var k :| 0 <= k < |before| && CancelsLate(After(maxsize, before[..k]), before[k]);
    assert before[..k] == acts[..k] && before[k] == acts[k];
  }

  ghost predicate TooLate(s: State) {
    s.worker.Crashed? || (s.worker.Busy? && s.worker.stage.Settling? && FutureOf(s, s.worker.seqNo).Done())
  }

  lemma HowTooLate(s: State, a: Act)
    requires Inv(s) && TooLate(Do(s, a)) && !TooLate(s)
    ensures CancelsLate(s, a)
  {
    if a.Work? {
      if s.worker.Busy? {
        InHandIsLast(s, s.worker.seqNo);
        assert Fits(s, s.worker.seqNo);
        NotLateByHandling(s, s.worker.seqNo, s.worker.stage, a.ok);
      }
    } else {
      OthersNeverLate(s, a);
    }
  }

  /** Of the clients' steps only a cancellation settles the command in hand. */
  lemma OthersNeverLate(s: State, a: Act)
    requires Inv(s) && !a.Work?
    ensures TooLate(Do(s, a)) ==> TooLate(s) || a.CancelFuture?
    ensures TooLate(s) ==> TooLate(Do(s, a))
  {
    ClientKeepsWorker(s, a);
    if s.worker.Busy? {
      InHandIsLast(s, s.worker.seqNo);
      if Puts(s, a) { PutKeepsFuture(s, a.client, s.worker.seqNo); } else if !a.CancelFuture? { FuturesOfClient(s, a); }
    }
  }

  lemma PutKeepsFuture(s: State, c: nat, q: nat)
    requires NumbersUnique(s) && Owns(s, c) && q in s.enqueued
    ensures FutureOf(Put(s, c, Phase(s, c).seqNo), q) == FutureOf(s, q)
  {
    assert Owns(s, c);
  }

  lemma NotLateByHandling(s: State, q: nat, stage: Stage, ok: bool)
    requires s.worker == Busy(q, stage) && !TooLate(s)
    ensures !TooLate(Handle(s, q, stage, ok))
  {
  }

  /** Only such a late cancellation ends the worker that way. */
  lemma {:induction false} CrashedByLateCancel(maxsize: nat, acts: seq<Act>)
    requires TooLate(After(maxsize, acts))
    ensures CancelledLate(maxsize, acts)
  {
    var n := |acts| - 1;
    var s := After(maxsize, acts[..n]);
    InvHolds(maxsize, acts[..n]);
    if TooLate(s) {
      CrashedByLateCancel(maxsize, acts[..n]);
      CancelledLatePush(maxsize, acts);
    } else {
      HowTooLate(s, acts[n]);
    }
  }

  /** Nothing saves a worker that is too late. */
  lemma TooLateStays(s: State, a: Act)
    requires Inv(s) && TooLate(s)
    ensures TooLate(Do(s, a))
  {
    if !a.Work? { OthersNeverLate(s, a); }
  }

  lemma LateIsTooLate(s: State, a: Act)
    requires CancelsLate(s, a)
    ensures TooLate(Do(s, a))
  {
  }

  lemma {:induction false} LateCancelIsTooLate(maxsize: nat, acts: seq<Act>, k: nat)
    requires k < |acts| && CancelsLate(After(maxsize, acts[..k]), acts[k])
    ensures TooLate(After(maxsize, acts))
  {
    var n := |acts| - 1;
    if k == n {
      LateIsTooLate(After(maxsize, acts[..k]), acts[k]);
    } else {
      assert acts[..n][..k] == acts[..k] && acts[..n][k] == acts[k];
      LateCancelIsTooLate(maxsize, acts[..n], k);
      InvHolds(maxsize, acts[..n]);
      TooLateStays(After(maxsize, acts[..n]), acts[n]);
    }
  }

  /** The worker is doomed exactly when a client cancelled late: its next step ends it. */
  lemma DoomedIffCancelledLate(maxsize: nat, acts: seq<Act>, ok: bool)
    ensures TooLate(After(maxsize, acts)) <==> CancelledLate(maxsize, acts)
    ensures CancelledLate(maxsize, acts) <==> After(maxsize, acts + [Work(ok)]).worker.Crashed?
  {
    if TooLate(After(maxsize, acts)) { CrashedByLateCancel(maxsize, acts); }
    if CancelledLate(maxsize, acts) {
      var k :| 0 <= k < |acts| && CancelsLate(After(maxsize, acts[..k]), acts[k]);
      LateCancelIsTooLate(maxsize, acts, k);
    }
    assert (acts + [Work(ok)])[..|acts|] == acts;
    OnlyTooLateCrashes(After(maxsize, acts), ok);
  }

  lemma OnlyTooLateCrashes(s: State, ok: bool)
    ensures TooLate(s) <==> Serve(s, ok).worker.Crashed?
  {
    if s.worker.Busy? { CrashOfHandling(s, s.worker.seqNo, s.worker.stage, ok); }
  }

  lemma CrashOfHandling(s: State, q: nat, stage: Stage, ok: bool)
    ensures Handle(s, q, stage, ok).worker.Crashed? <==> stage.Settling? && FutureOf(s, q).Done()
  {
  }
}
