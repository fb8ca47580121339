/** The thread pool: any threads, tasks included, submit tasks; a fixed set of workers dequeues and runs them.
    A task is identified by the ticket under which the queue accepted it. */
module ThreadPool {
  import opened Wrappers
  import opened QueueProtocol
  import opened QueueInvariant
  import opened QueueTheorems
  import opened QueueProgress

  /** Where a worker stands in its loop. */
  datatype WorkerPc =
    | AtLoopTest          // reading `stop` in the loop condition
    | InCall              // inside task_queue.dequeue, or holding what it returned
    | Running(p: nat)     // inside the task
    | TestStop            // dequeue returned false
    | Exited

  datatype PoolState<T> = PoolState(
    q: State<T>, stop: bool, workers: map<Tid, WorkerPc>, started: seq<nat>, finished: set<nat>)
  {
    function At(w: Tid, pc: WorkerPc): PoolState<T> { this.(workers := workers[w := pc]) }
  }

  datatype PoolLabel<T> = Submitter(l: Label<T>) | Worker(w: Tid, spurious: bool, residue: T) | Shutdown

  function PoolInit<T>(cap: nat, fill: T, names: set<Tid>): PoolState<T>
    requires 2 <= cap
  {
    PoolState(Init(cap, fill), false, map w | w in names :: AtLoopTest, [], {})
  }

  function WorkerAct<T>(s: PoolState<T>, w: Tid, spurious: bool, residue: T): (s': PoolState<T>)
    requires s.q.WellFormed() && w in s.workers
    ensures s'.q.WellFormed()
  {
    match s.workers[w]
    case AtLoopTest => if s.stop then s.At(w, Exited) else s.(q := Act(s.q, CallDequeue(w))).At(w, InCall)
    case InCall =>
      (match s.q.PcOf(w)
       case DeqReturned(Some((p, _))) => s.(started := s.started + [p]).At(w, Running(p))
       case DeqReturned(None) => s.At(w, TestStop)
       case _ => s.(q := Act(s.q, Access(w, spurious, residue))))
    case Running(p) => if Ready(s.q.PcOf(w)) then s.(finished := s.finished + {p}).At(w, AtLoopTest) else s
    case TestStop => s.At(w, if s.stop then Exited else AtLoopTest)
    case Exited => s
  }

  /** Any thread may submit; a worker does so from inside a task, which then ends only after the call. */
  predicate MaySubmit<T>(s: PoolState<T>, t: Tid) { t in s.workers ==> s.workers[t].Running? }

  function PoolAct<T>(s: PoolState<T>, l: PoolLabel<T>): (s': PoolState<T>)
    requires s.q.WellFormed()
    ensures s'.q.WellFormed()
  {
    match l
    case Submitter(l) => if MaySubmit(s, l.t) && !l.CallDequeue? then s.(q := Act(s.q, l)) else s
    case Worker(w, spurious, residue) => if w in s.workers then WorkerAct(s, w, spurious, residue) else s
    case Shutdown => s.(stop := true)
  }

  function PoolRun<T>(s: PoolState<T>, ls: seq<PoolLabel<T>>): (s': PoolState<T>)
    requires s.q.WellFormed()
    ensures s'.q.WellFormed()
    decreases |ls|
  {
    if ls == [] then s else PoolRun(PoolAct(s, ls[0]), ls[1..])
  }

  // ----- The four stages of an accepted task

  ghost predicate Queued<T>(s: PoolState<T>, p: nat) { s.q.tail <= p < s.q.head }

  /** Claimed by a worker whose `dequeue` is under way, or has returned and the task is about to start. */
  ghost predicate InTransfer<T>(s: PoolState<T>, p: nat) {
    exists w: Tid :: w in s.workers && s.workers[w].InCall? && Carries(s.q.PcOf(w), p)
  }

  ghost predicate Carries<T>(pc: Pc<T>, p: nat) {
    Consuming(pc, p) || (pc.DeqReturned? && pc.got.Some? && pc.got.value.0 == p)
  }

  ghost predicate IsRunning<T>(s: PoolState<T>, p: nat) {
    exists w: Tid :: w in s.workers && s.workers[w] == Running(p)
  }

  /** The stage of a claimed ticket, read off the worker that claimed it. */
  ghost predicate ClaimedOk<T>(s: PoolState<T>, p: nat)
    requires Counters(s.q) && p < s.q.tail
  {
    var w := s.q.deqBy[p];
    && w in s.workers
    && (p in s.started <==> p in s.finished || s.workers[w] == Running(p))
    && !(p in s.finished && s.workers[w] == Running(p))
    && (p !in s.started <==> s.workers[w].InCall? && Carries(s.q.PcOf(w), p))
  }

  ghost predicate WorkerOk<T>(s: PoolState<T>, w: Tid)
    requires Counters(s.q) && w in s.workers
  {
    match s.workers[w]
    case InCall => InDequeue(s.q.PcOf(w)) || s.q.PcOf(w).DeqReturned?
    case Running(p) => !InDequeue(s.q.PcOf(w)) && p < s.q.tail && s.q.deqBy[p] == w
    case _ => Ready(s.q.PcOf(w))
  }

  ghost predicate NoDuplicates(a: seq<nat>) { forall i, j :: 0 <= i < j < |a| ==> a[i] != a[j] }

  ghost predicate PoolInv<T>(s: PoolState<T>) {
    && Inv(s.q)
    && (forall t: Tid :: t !in s.workers ==> !InDequeue(s.q.PcOf(t)))
    && (forall w: Tid :: w in s.workers ==> WorkerOk(s, w))
    && (forall p: nat :: p < s.q.tail ==> ClaimedOk(s, p))
    && (forall p: nat :: p in s.started ==> p < s.q.tail)
    && (forall p: nat :: p in s.finished ==> p < s.q.tail)
    && NoDuplicates(s.started)
  }

  lemma PoolInitInv<T>(cap: nat, fill: T, names: set<Tid>)
    requires 2 <= cap
    ensures PoolInv(PoolInit(cap, fill, names))
  {
    InitInv(cap, fill);
  }

  lemma SubmitterStepInv<T>(s: PoolState<T>, l: Label<T>)
    requires PoolInv(s) && MaySubmit(s, l.t) && !l.CallDequeue?
    ensures PoolInv(PoolAct(s, Submitter(l)))
  {
    var s' := PoolAct(s, Submitter(l));
    StepInv(s.q, l);
    OthersStay(s.q, l);
    EnqueueSide(s.q, l);
    forall w: Tid | w in s'.workers ensures WorkerOk(s', w) { assert WorkerOk(s, w); }
    forall p: nat | p < s'.q.tail ensures ClaimedOk(s', p) { assert ClaimedOk(s, p); }
  }

  /** The worker calls `dequeue`. */
  lemma CallStepInv<T>(s: PoolState<T>, w: Tid, s': PoolState<T>)
    requires PoolInv(s) && w in s.workers && s.workers[w].AtLoopTest? && !s.stop
    requires s' == s.(q := Act(s.q, CallDequeue(w))).At(w, InCall)
    ensures PoolInv(s')
  {
    assert WorkerOk(s, w);
    StepInv(s.q, CallDequeue(w));
    OthersStay(s.q, CallDequeue(w));
    forall u: Tid | u in s'.workers ensures WorkerOk(s', u) { assert WorkerOk(s, u); }
    forall p: nat | p < s'.q.tail ensures ClaimedOk(s', p) { assert ClaimedOk(s, p); }
  }

  /** One atomic step inside `dequeue`. */
  lemma DequeueStepInv<T>(s: PoolState<T>, w: Tid, a: Label<T>, s': PoolState<T>)
    requires PoolInv(s) && w in s.workers && s.workers[w].InCall? && InDequeue(s.q.PcOf(w)) && a.Access? && a.t == w
    requires s' == s.(q := Act(s.q, a))
    ensures PoolInv(s')
  {
    assert WorkerOk(s, w);
    StepInv(s.q, a);
    OthersStay(s.q, a);
    DequeueSide(s.q, a);
    forall u: Tid | u in s'.workers ensures WorkerOk(s', u) { assert WorkerOk(s, u); }
    forall p: nat | p < s'.q.tail ensures ClaimedOk(s', p) {
      if p < s.q.tail { assert ClaimedOk(s, p); }
    }
  }

  /** The worker starts the task it was handed. */
  lemma StartStepInv<T>(s: PoolState<T>, w: Tid, p: nat, s': PoolState<T>)
    requires PoolInv(s) && w in s.workers && s.workers[w].InCall?
    requires s.q.PcOf(w).DeqReturned? && s.q.PcOf(w).got.Some? && s.q.PcOf(w).got.value.0 == p
    requires s' == s.(started := s.started + [p]).At(w, Running(p))
    ensures PoolInv(s')
  {
    assert ThreadOk(s.q, w, s.q.PcOf(w));
    assert ClaimedOk(s, p);
    assert Carries(s.q.PcOf(w), p);
    forall u: Tid | u in s'.workers ensures WorkerOk(s', u) { assert WorkerOk(s, u); }
    forall r: nat | r < s'.q.tail ensures ClaimedOk(s', r) { assert ClaimedOk(s, r); }
  }

  /** The task ends. */
  lemma FinishStepInv<T>(s: PoolState<T>, w: Tid, p: nat, s': PoolState<T>)
    requires PoolInv(s) && w in s.workers && s.workers[w] == Running(p) && Ready(s.q.PcOf(w))
    requires s' == s.(finished := s.finished + {p}).At(w, AtLoopTest)
    ensures PoolInv(s')
  {
    assert WorkerOk(s, w);
    assert ClaimedOk(s, p);
    forall u: Tid | u in s'.workers ensures WorkerOk(s', u) { assert WorkerOk(s, u); }
    forall r: nat | r < s'.q.tail ensures ClaimedOk(s', r) { assert ClaimedOk(s, r); }
  }

  /** The worker tests `stop`, or learns that nothing was ready. */
  lemma TestStepInv<T>(s: PoolState<T>, w: Tid, pc: WorkerPc, s': PoolState<T>)
    requires PoolInv(s) && w in s.workers && !s.workers[w].Running? && !pc.Running? && !pc.InCall?
    requires s.workers[w].InCall? ==> s.q.PcOf(w) == DeqReturned(None)
    requires s' == s.At(w, pc)
    ensures PoolInv(s')
  {
    assert WorkerOk(s, w);
    forall u: Tid | u in s'.workers ensures WorkerOk(s', u) { assert WorkerOk(s, u); }
    forall p: nat | p < s'.q.tail ensures ClaimedOk(s', p) { assert ClaimedOk(s, p); }
  }

  lemma PoolStepInv<T>(s: PoolState<T>, l: PoolLabel<T>)
    requires PoolInv(s)
    ensures PoolInv(PoolAct(s, l))
  {
    var s' := PoolAct(s, l);
    match l
    case Submitter(l) => if MaySubmit(s, l.t) && !l.CallDequeue? { SubmitterStepInv(s, l); }
    case Shutdown =>
      forall p: nat | p < s'.q.tail ensures ClaimedOk(s', p) { assert ClaimedOk(s, p); }
      forall u: Tid | u in s'.workers ensures WorkerOk(s', u) { assert WorkerOk(s, u); }
    case Worker(w, spurious, residue) =>
      if w in s.workers {
        assert WorkerOk(s, w);
        match s.workers[w]
        case AtLoopTest => if s.stop { TestStepInv(s, w, Exited, s'); } else { CallStepInv(s, w, s'); }
        case InCall =>
          var pc := s.q.PcOf(w);
          if InDequeue(pc) {
            DequeueStepInv(s, w, Access(w, spurious, residue), s');
          } else if pc.got.Some? {
            StartStepInv(s, w, pc.got.value.0, s');
          } else {
            TestStepInv(s, w, TestStop, s');
          }
        case Running(p) => if Ready(s.q.PcOf(w)) { FinishStepInv(s, w, p, s'); }
        case TestStop => TestStepInv(s, w, if s.stop then Exited else AtLoopTest, s');
        case Exited =>
      }
  }

  lemma {:induction false} PoolRunInv<T>(s: PoolState<T>, ls: seq<PoolLabel<T>>)
    requires PoolInv(s)
    ensures PoolInv(PoolRun(s, ls))
    decreases |ls|
  {
    if ls != [] {
      PoolStepInv(s, ls[0]);
      PoolRunInv(PoolAct(s, ls[0]), ls[1..]);
    }
  }

  ghost predicate PoolReachable<T(!new)>(s: PoolState<T>) {
    exists cap: nat, fill: T, names: set<Tid>, ls: seq<PoolLabel<T>> ::
      2 <= cap && s == PoolRun(PoolInit(cap, fill, names), ls)
  }

  lemma PoolReachableInv<T(!new)>(s: PoolState<T>)
    requires PoolReachable(s)
    ensures PoolInv(s)
  {
    var cap: nat, fill: T, names, ls :| 2 <= cap && s == PoolRun(PoolInit(cap, fill, names), ls);
    PoolInitInv(cap, fill, names);
    PoolRunInv(PoolInit(cap, fill, names), ls);
  }

  /** The stage of a claimed ticket, from the side of its worker. */
  lemma ClaimedStage<T>(s: PoolState<T>, p: nat)
    requires PoolInv(s) && p < s.q.tail
    ensures p in s.finished || (IsRunning(s, p) && p in s.started) || (InTransfer(s, p) && p !in s.started)
  {
    assert ClaimedOk(s, p);
    var w := s.q.deqBy[p];
    if s.workers[w].InCall? && Carries(s.q.PcOf(w), p) { assert InTransfer(s, p); }
    if s.workers[w] == Running(p) { assert IsRunning(s, p); }
  }

  lemma TransferStage<T>(s: PoolState<T>, p: nat)
    requires PoolInv(s) && InTransfer(s, p)
    ensures p < s.q.tail && p !in s.started && p !in s.finished && !IsRunning(s, p)
  {
    var w :| w in s.workers && s.workers[w].InCall? && Carries(s.q.PcOf(w), p);
    assert ThreadOk(s.q, w, s.q.PcOf(w));
    assert s.q.deqBy[p] == w && ClaimedOk(s, p);
    forall u: Tid | u in s.workers ensures s.workers[u] != Running(p) { assert WorkerOk(s, u); }
  }

  lemma RunningStage<T>(s: PoolState<T>, p: nat)
    requires PoolInv(s) && IsRunning(s, p)
    ensures p < s.q.tail && p in s.started && p !in s.finished
  {
    var w :| w in s.workers && s.workers[w] == Running(p);
    assert WorkerOk(s, w) && ClaimedOk(s, p);
  }

  /** Conservation: in every reachable state each accepted task is in exactly one of the four stages, and no task
      was started twice. */
  lemma EveryTaskAccountedFor<T(!new)>(s: PoolState<T>, p: nat)
    requires PoolReachable(s)
    ensures p < s.q.head <==> Queued(s, p) || InTransfer(s, p) || IsRunning(s, p) || p in s.finished
    ensures Queued(s, p) ==> !InTransfer(s, p) && !IsRunning(s, p) && p !in s.finished
    ensures InTransfer(s, p) ==> !IsRunning(s, p) && p !in s.finished
    ensures IsRunning(s, p) ==> p !in s.finished
    ensures p in s.started <==> IsRunning(s, p) || p in s.finished
    ensures NoDuplicates(s.started)
  {
    PoolReachableInv(s);
    if InTransfer(s, p) { TransferStage(s, p); }
    if IsRunning(s, p) { RunningStage(s, p); }
    if p < s.q.tail {
      ClaimedStage(s, p);
      assert ClaimedOk(s, p);
    }
  }

  /** After the destructor has joined every worker, each accepted task has finished or is still in the queue. */
  lemma AfterJoin<T(!new)>(s: PoolState<T>, p: nat)
    requires PoolReachable(s) && forall w: Tid :: w in s.workers ==> s.workers[w].Exited?
    ensures p < s.q.head <==> p in s.finished || s.q.tail <= p < s.q.head
    ensures p in s.finished <==> p < s.q.tail
  {
    EveryTaskAccountedFor(s, p);
    PoolReachableInv(s);
  }

  // ----- When workers leave

  ghost predicate LeftOnlyIfStopped<T>(s: PoolState<T>) { forall w: Tid :: w in s.workers && s.workers[w].Exited? ==> s.stop }

  lemma {:induction false} LeftRun<T>(s: PoolState<T>, ls: seq<PoolLabel<T>>)
    requires s.q.WellFormed() && LeftOnlyIfStopped(s)
    ensures LeftOnlyIfStopped(PoolRun(s, ls))
    decreases |ls|
  {
    if ls != [] { LeftRun(PoolAct(s, ls[0]), ls[1..]); }
  }

  /** No worker leaves a pool that has not been told to stop. */
  lemma ExitOnlyIfStopped<T(!new)>(s: PoolState<T>, w: Tid)
    requires PoolReachable(s) && w in s.workers && s.workers[w].Exited?
    ensures s.stop
  {
    var cap: nat, fill: T, names, ls :| 2 <= cap && s == PoolRun(PoolInit(cap, fill, names), ls);
    LeftRun(PoolInit(cap, fill, names), ls);
  }

  /** The worker can move on: it has not left, and if it is in a task, the task is not in the middle of a submission. */
  ghost predicate Able<T>(s: PoolState<T>, w: Tid) {
    w in s.workers && !s.workers[w].Exited? && (s.workers[w].Running? ==> Ready(s.q.PcOf(w)))
  }

  function Alone<T>(w: Tid, residue: T): PoolLabel<T> { Worker(w, false, residue) }

  function AloneFor<T>(w: Tid, residue: T, n: nat): seq<PoolLabel<T>> { seq(n, _ => Alone(w, residue)) }

  lemma AloneForMore<T>(s: PoolState<T>, w: Tid, residue: T, n: nat)
    requires s.q.WellFormed()
    ensures PoolRun(s, AloneFor(w, residue, n + 1)) == PoolRun(PoolAct(s, Alone(w, residue)), AloneFor(w, residue, n))
    ensures PoolRun(s, AloneFor(w, residue, 0)) == s
  {
    var ls := AloneFor(w, residue, n + 1);
    assert ls[0] == Alone(w, residue) && ls[1..] == AloneFor(w, residue, n);
  }

  /** How many steps a worker running alone in a stopped pool still takes at most. */
  ghost function StepsToLeave<T>(s: PoolState<T>, w: Tid): nat
    requires w in s.workers
  {
    match s.workers[w]
    case AtLoopTest => 1
    case TestStop => 1
    case Running(_) => 2
    case InCall => if s.q.PcOf(w).DeqReturned? && s.q.PcOf(w).got.None? then 2 else 3 + StepsLeft(s.q, w)
    case Exited => 0
  }

  lemma LeaveStep<T>(s: PoolState<T>, w: Tid, residue: T)
    requires PoolInv(s) && s.stop && Able(s, w)
    ensures var s' := PoolAct(s, Alone(w, residue));
            s'.stop && w in s'.workers && (s'.workers[w].Exited? || Able(s', w)) && StepsToLeave(s', w) < StepsToLeave(s, w)
  {
    assert WorkerOk(s, w);
    if s.workers[w].InCall? && InDequeue(s.q.PcOf(w)) {
      SoloStep(s.q, w, residue);
      DequeueSide(s.q, Access(w, false, residue));
    }
  }

  lemma {:induction false} LeaveRun<T>(s: PoolState<T>, w: Tid, residue: T, n: nat)
    requires PoolInv(s) && s.stop && w in s.workers && (s.workers[w].Exited? || Able(s, w)) && StepsToLeave(s, w) <= n
    ensures var s' := PoolRun(s, AloneFor(w, residue, n)); w in s'.workers && s'.workers[w].Exited?
    decreases n
  {
    AloneForMore(s, w, residue, 0);
    if n > 0 {
      var l := Alone(w, residue);
      PoolStepInv(s, l);
      if Able(s, w) { LeaveStep(s, w, residue); }
      AloneForMore(s, w, residue, n - 1);
      LeaveRun(PoolAct(s, l), w, residue, n - 1);
    }
  }

  /** The join ends: told to stop, a worker that is not held up by its task leaves within nine steps. */
  lemma WorkerLeaves<T(!new)>(s: PoolState<T>, w: Tid, residue: T)
    requires PoolReachable(s) && Able(s, w)
    ensures var s' := PoolRun(PoolAct(s, Shutdown), AloneFor(w, residue, 9)); w in s'.workers && s'.workers[w].Exited?
  {
    PoolReachableInv(s);
    assert WorkerOk(s, w);
    PoolStepInv(s, Shutdown);
    LeaveRun(PoolAct(s, Shutdown), w, residue, 9);
  }

  // ----- Tasks get run

  /** The ticket of the task that the worker is going to start next. */
  ghost function NextTask<T>(s: PoolState<T>, w: Tid): nat
    requires w in s.workers
  {
    if s.workers[w].InCall? then NextTicket(s.q, w) else s.q.tail
  }

  /** The worker has a task in hand that it has not started. */
  ghost predicate Carrying<T>(s: PoolState<T>, w: Tid)
    requires w in s.workers
  {
    s.workers[w].InCall? && exists p: nat :: Carries(s.q.PcOf(w), p)
  }

  ghost function StepsToStart<T>(s: PoolState<T>, w: Tid): nat
    requires w in s.workers
  {
    match s.workers[w]
    case AtLoopTest => 7
    case TestStop => 8
    case Running(_) => 8
    case InCall => if s.q.PcOf(w).DeqReturned? && s.q.PcOf(w).got.None? then 9 else 1 + StepsLeft(s.q, w)
    case Exited => 0
  }

  ghost predicate WillStart<T>(s: PoolState<T>, w: Tid)
    requires s.q.WellFormed()
  {
    !s.stop && Able(s, w) && (Carrying(s, w) || Published(s.q))
  }

  ghost predicate Started<T>(s: PoolState<T>, s': PoolState<T>, w: Tid, p: nat) {
    s'.started == s.started + [p] && w in s'.workers && s'.workers[w] == Running(p)
  }

  /** A step of the worker inside `dequeue`. */
  lemma StartStepInCall<T>(s: PoolState<T>, w: Tid, residue: T)
    requires PoolInv(s) && WillStart(s, w) && s.workers[w].InCall? && InDequeue(s.q.PcOf(w))
    ensures var s' := PoolAct(s, Alone(w, residue));
            && WillStart(s', w) && StepsToStart(s', w) < StepsToStart(s, w) && NextTask(s', w) == NextTask(s, w)
            && s'.started == s.started && s'.q.head == s.q.head
            && s'.q.tail == s.q.tail + if s'.q.PcOf(w).DeqTake? then 1 else 0
  {
    var pc := s.q.PcOf(w);
    if !InDequeueLoop(pc) { assert Carries(pc, pc.pos); }
    SoloDequeueStep(s.q, w, residue);
    var pc' := PoolAct(s, Alone(w, residue)).q.PcOf(w);
    if !InDequeueLoop(pc') { assert Carries(pc', NextTicket(s.q, w)); }
  }

  /** A worker running alone, with a task in hand or one in the queue to take, starts that task next. */
  lemma StartStep<T>(s: PoolState<T>, w: Tid, residue: T)
    requires PoolInv(s) && WillStart(s, w)
    ensures var s' := PoolAct(s, Alone(w, residue)); var p := NextTask(s, w);
            && s'.q.head == s.q.head && !s'.stop
            && (Started(s, s', w, p) ||
                (WillStart(s', w) && StepsToStart(s', w) < StepsToStart(s, w) && NextTask(s', w) == p && s'.started == s.started))
  {
    assert WorkerOk(s, w);
    if s.workers[w].InCall? && InDequeue(s.q.PcOf(w)) { StartStepInCall(s, w, residue); }
  }

  lemma {:induction false} StartRun<T>(s: PoolState<T>, w: Tid, residue: T) returns (n: nat)
    requires PoolInv(s) && WillStart(s, w)
    ensures 0 < n <= StepsToStart(s, w) && Started(s, PoolRun(s, AloneFor(w, residue, n)), w, NextTask(s, w))
    decreases StepsToStart(s, w)
  {
    var s' := PoolAct(s, Alone(w, residue));
    StartStep(s, w, residue);
    AloneForMore(s, w, residue, 0);
    AloneForMore(s', w, residue, 0);
    if Started(s, s', w, NextTask(s, w)) {
      n := 1;
    } else {
      PoolStepInv(s, Alone(w, residue));
      var m := StartRun(s', w, residue);
      AloneForMore(s, w, residue, m);
      n := m + 1;
    }
  }

  /** A queued task is run: in a pool that is not stopped, with the oldest task published, a worker that has no task in
      hand and is not held up by one starts it within nine steps of its own. */
  lemma QueuedTaskStarts<T(!new)>(s: PoolState<T>, w: Tid, residue: T) returns (n: nat)
    requires PoolReachable(s) && !s.stop && Able(s, w) && !Carrying(s, w)
    requires s.q.tail < s.q.head && NoProducer(s.q)
    ensures 0 < n <= 9
    ensures var s' := PoolRun(s, AloneFor(w, residue, n));
            s'.started == s.started + [s.q.tail] && w in s'.workers && s'.workers[w] == Running(s.q.tail)
  {
    PoolReachableInv(s);
    ThenPublished(s.q);
    assert WorkerOk(s, w);
    var pc := s.q.PcOf(w);
    if s.workers[w].InCall? && !InDequeueLoop(pc) && !(pc.DeqReturned? && pc.got.None?) {
      assert Carries(pc, NextTicket(s.q, w));
    }
    n := StartRun(s, w, residue);
  }

  // ----- Tasks get in

  lemma {:induction false} SubmitterRun<T>(s: PoolState<T>, t: Tid, ls: seq<Label<T>>)
    requires s.q.WellFormed() && MaySubmit(s, t) && forall i :: 0 <= i < |ls| ==> ls[i].t == t && !ls[i].CallDequeue?
    ensures PoolRun(s, seq(|ls|, i requires 0 <= i < |ls| => Submitter(ls[i]))) == s.(q := Run(s.q, ls))
    decreases |ls|
  {
    var all := seq(|ls|, i requires 0 <= i < |ls| => Submitter(ls[i]));
    if ls != [] {
      assert all[0] == Submitter(ls[0]);
      assert all[1..] == seq(|ls[1..]|, i requires 0 <= i < |ls[1..]| => Submitter(ls[1..][i]));
      SubmitterRun(PoolAct(s, all[0]), t, ls[1..]);
    }
  }

  /** A submission succeeds: with room in the queue, a thread that may submit and runs alone gets its task accepted and
      published in six steps, and nothing else changes. */
  lemma SubmissionAccepted<T(!new)>(s: PoolState<T>, t: Tid, v: T, residue: T) returns (ls: seq<PoolLabel<T>>)
    requires PoolReachable(s) && MaySubmit(s, t) && Ready(s.q.PcOf(t)) && !NoRoom(s.q)
    ensures |ls| == 6 && ls[0] == Submitter(CallEnqueue(t, v))
    ensures var s' := PoolRun(s, ls);
            && s'.q.accepted == s.q.accepted + [v] && s'.q.PcOf(t) == EnqReturned(true) && Queued(s', s.q.head)
            && s'.q.IdAt(s.q.head) == s.q.head + 1 && s' == s.(q := s'.q)
  {
    PoolReachableInv(s);
    var accesses := seq(5, _ => Access(t, false, residue));
    var labels := [CallEnqueue(t, v)] + accesses;
    SoloEnqueues(s.q, t, v, residue);
    assert labels[1..] == accesses;
    SubmitterRun(s, t, labels);
    ls := seq(|labels|, i requires 0 <= i < |labels| => Submitter(labels[i]));
  }
}
