/** Lock-freedom of the ticket protocol: a retry is always paid for by somebody's progress. */
module QueueProgress {
  import opened Wrappers
  import opened QueueProtocol
  import opened QueueInvariant
  import opened QueueTheorems

  /** In the retry loop of `enqueue`, between the call and the successful compare-and-swap. */
  ghost predicate InEnqueueLoop<T>(pc: Pc<T>) { pc.EnqLoadHead? || pc.EnqLoadId? || pc.EnqCas? }

  ghost predicate InDequeueLoop<T>(pc: Pc<T>) { pc.DeqLoadTail? || pc.DeqLoadId? || pc.DeqCas? }

  ghost predicate AllAlong<T>(s: State<T>, ls: seq<Label<T>>, t: Tid, inside: Pc<T> -> bool)
    requires s.WellFormed()
    decreases |ls|
  {
    inside(s.PcOf(t)) && (ls == [] || AllAlong(Act(s, ls[0]), ls[1..], t, inside))
  }

  /** The step makes `t` go round its loop once more: it saw a positive `diff`, or its compare-and-swap failed. */
  ghost predicate IsRetry<T>(s: State<T>, l: Label<T>, t: Tid)
    requires s.WellFormed()
  {
    l.Access? && l.t == t &&
    match s.PcOf(t)
    case EnqLoadId(_, pos) => s.IdAt(pos) > pos
    case EnqCas(_, pos) => s.head != pos || l.spurious
    case DeqLoadId(pos) => s.IdAt(pos) > pos + 1
    case DeqCas(pos) => s.tail != pos || l.spurious
    case _ => false
  }

  /** The compare-and-swap of `t` fails although the counter still has the expected value. */
  ghost predicate IsSpurious<T>(s: State<T>, l: Label<T>, t: Tid) {
    l.Access? && l.t == t && l.spurious &&
    match s.PcOf(t)
    case EnqCas(_, pos) => s.head == pos
    case DeqCas(pos) => s.tail == pos
    case _ => false
  }

  ghost function Retries<T>(s: State<T>, ls: seq<Label<T>>, t: Tid): nat
    requires s.WellFormed()
    decreases |ls|
  {
    if ls == [] then 0 else (if IsRetry(s, ls[0], t) then 1 else 0) + Retries(Act(s, ls[0]), ls[1..], t)
  }

  ghost function SpuriousFailures<T>(s: State<T>, ls: seq<Label<T>>, t: Tid): nat
    requires s.WellFormed()
    decreases |ls|
  {
    if ls == [] then 0 else (if IsSpurious(s, ls[0], t) then 1 else 0) + SpuriousFailures(Act(s, ls[0]), ls[1..], t)
  }

  /** The counter value `t` works with, or will work with if it loads the counter now. */
  ghost function Seen<T>(s: State<T>, t: Tid): nat {
    match s.PcOf(t)
    case EnqLoadHead(_) => s.head
    case EnqLoadId(_, pos) => pos
    case EnqCas(_, pos) => pos
    case DeqLoadTail => s.tail
    case DeqLoadId(pos) => pos
    case DeqCas(pos) => pos
    case _ => 0
  }

  /** A step of `t` within its loop: a retry that is not spurious moves on to a newer counter value. */
  lemma OwnEnqueueStep<T>(s: State<T>, l: Label<T>, t: Tid, s': State<T>)
    requires s.WellFormed() && s' == Act(s, l) && l.t == t && InEnqueueLoop(s.PcOf(t)) && InEnqueueLoop(s'.PcOf(t))
    requires Seen(s, t) <= s.head && (s.PcOf(t).EnqLoadId? && s.IdAt(s.PcOf(t).pos) > s.PcOf(t).pos ==> s.PcOf(t).pos < s.head)
    ensures Seen(s', t) - Seen(s, t) >= (if IsRetry(s, l, t) then 1 else 0) - (if IsSpurious(s, l, t) then 1 else 0)
    ensures s'.enqBy == s.enqBy && s'.head == s.head
  {
  }

  lemma OwnDequeueStep<T>(s: State<T>, l: Label<T>, t: Tid, s': State<T>)
    requires s.WellFormed() && s' == Act(s, l) && l.t == t && InDequeueLoop(s.PcOf(t)) && InDequeueLoop(s'.PcOf(t))
    requires Seen(s, t) <= s.tail && (s.PcOf(t).DeqLoadId? && s.IdAt(s.PcOf(t).pos) > s.PcOf(t).pos + 1 ==> s.PcOf(t).pos < s.tail)
    ensures Seen(s', t) - Seen(s, t) >= (if IsRetry(s, l, t) then 1 else 0) - (if IsSpurious(s, l, t) then 1 else 0)
    ensures s'.deqBy == s.deqBy && s'.tail == s.tail
  {
  }

  /** A step of another thread leaves `t` where it is. */
  lemma OthersStepProgress<T>(s: State<T>, l: Label<T>, t: Tid, s': State<T>)
    requires s.WellFormed() && s' == Act(s, l) && l.t != t
    ensures s'.PcOf(t) == s.PcOf(t) && s.head <= s'.head && s.tail <= s'.tail
    ensures s'.enqBy == s.enqBy || s'.enqBy == s.enqBy + [l.t]
    ensures s'.deqBy == s.deqBy || s'.deqBy == s.deqBy + [l.t]
    ensures !IsRetry(s, l, t) && !IsSpurious(s, l, t)
  {
    OthersStay(s, l);
  }

  ghost predicate EnqueueProgress<T>(s: State<T>, s': State<T>, t: Tid, retries: nat, spurious: nat) {
    && Seen(s, t) + retries <= Seen(s', t) + spurious
    && |s.enqBy| == s.head <= s'.head == |s'.enqBy| && Prefix(s.enqBy, s'.enqBy)
    && forall p :: s.head <= p < s'.head ==> s'.enqBy[p] != t
  }

  ghost predicate DequeueProgress<T>(s: State<T>, s': State<T>, t: Tid, retries: nat, spurious: nat) {
    && Seen(s, t) + retries <= Seen(s', t) + spurious
    && |s.deqBy| == s.tail <= s'.tail == |s'.deqBy| && Prefix(s.deqBy, s'.deqBy)
    && forall p :: s.tail <= p < s'.tail ==> s'.deqBy[p] != t
  }

  lemma EnqueueStepProgress<T>(s: State<T>, l: Label<T>, t: Tid, s': State<T>)
    requires Inv(s) && s' == Act(s, l) && Inv(s') && InEnqueueLoop(s.PcOf(t)) && InEnqueueLoop(s'.PcOf(t))
    ensures EnqueueProgress(s, s', t, if IsRetry(s, l, t) then 1 else 0, if IsSpurious(s, l, t) then 1 else 0)
  {
    assert ThreadOk(s, t, s.PcOf(t));
    if s.PcOf(t).EnqLoadId? { EnqueueDiff(s, t); }
    if l.t == t { OwnEnqueueStep(s, l, t, s'); } else { OthersStepProgress(s, l, t, s'); }
  }

  lemma DequeueStepProgress<T>(s: State<T>, l: Label<T>, t: Tid, s': State<T>)
    requires Inv(s) && s' == Act(s, l) && Inv(s') && InDequeueLoop(s.PcOf(t)) && InDequeueLoop(s'.PcOf(t))
    ensures DequeueProgress(s, s', t, if IsRetry(s, l, t) then 1 else 0, if IsSpurious(s, l, t) then 1 else 0)
  {
    assert ThreadOk(s, t, s.PcOf(t));
    if s.PcOf(t).DeqLoadId? { DequeueDiff(s, t); }
    if l.t == t { OwnDequeueStep(s, l, t, s'); } else { OthersStepProgress(s, l, t, s'); }
  }

  lemma EnqueueProgressAdds<T>(s: State<T>, m: State<T>, s': State<T>, t: Tid, r1: nat, f1: nat, r2: nat, f2: nat)
    requires EnqueueProgress(s, m, t, r1, f1) && EnqueueProgress(m, s', t, r2, f2)
    ensures EnqueueProgress(s, s', t, r1 + r2, f1 + f2)
  {
  }

  lemma DequeueProgressAdds<T>(s: State<T>, m: State<T>, s': State<T>, t: Tid, r1: nat, f1: nat, r2: nat, f2: nat)
    requires DequeueProgress(s, m, t, r1, f1) && DequeueProgress(m, s', t, r2, f2)
    ensures DequeueProgress(s, s', t, r1 + r2, f1 + f2)
  {
  }

  lemma {:induction false} EnqueueRunProgress<T>(s: State<T>, ls: seq<Label<T>>, t: Tid)
    requires Inv(s) && AllAlong(s, ls, t, pc => InEnqueueLoop(pc))
    ensures Inv(Run(s, ls)) && InEnqueueLoop(Run(s, ls).PcOf(t))
    ensures EnqueueProgress(s, Run(s, ls), t, Retries(s, ls, t), SpuriousFailures(s, ls, t))
    decreases |ls|
  {
    if ls != [] {
      var l, m := ls[0], Act(s, ls[0]);
      StepInv(s, l);
      EnqueueRunProgress(m, ls[1..], t);
      assert AllAlong(m, ls[1..], t, pc => InEnqueueLoop(pc));
      EnqueueStepProgress(s, l, t, m);
      EnqueueProgressAdds(s, m, Run(m, ls[1..]), t, if IsRetry(s, l, t) then 1 else 0, if IsSpurious(s, l, t) then 1 else 0,
                          Retries(m, ls[1..], t), SpuriousFailures(m, ls[1..], t));
    }
  }

  lemma {:induction false} DequeueRunProgress<T>(s: State<T>, ls: seq<Label<T>>, t: Tid)
    requires Inv(s) && AllAlong(s, ls, t, pc => InDequeueLoop(pc))
    ensures Inv(Run(s, ls)) && InDequeueLoop(Run(s, ls).PcOf(t))
    ensures DequeueProgress(s, Run(s, ls), t, Retries(s, ls, t), SpuriousFailures(s, ls, t))
    decreases |ls|
  {
    if ls != [] {
      var l, m := ls[0], Act(s, ls[0]);
      StepInv(s, l);
      DequeueRunProgress(m, ls[1..], t);
      assert AllAlong(m, ls[1..], t, pc => InDequeueLoop(pc));
      DequeueStepProgress(s, l, t, m);
      DequeueProgressAdds(s, m, Run(m, ls[1..]), t, if IsRetry(s, l, t) then 1 else 0, if IsSpurious(s, l, t) then 1 else 0,
                          Retries(m, ls[1..], t), SpuriousFailures(m, ls[1..], t));
    }
  }

  /** While one `enqueue` call of `t` keeps looping, its retries are at most the tickets that other threads claimed
      since the call, plus its spurious failures. */
  lemma EnqueueRetriesPaidFor<T(!new)>(s: State<T>, ls: seq<Label<T>>, t: Tid)
    requires Reachable(s) && s.PcOf(t).EnqLoadHead? && AllAlong(s, ls, t, pc => InEnqueueLoop(pc))
    ensures var s' := Run(s, ls);
            && s.head <= s'.head == |s'.enqBy|
            && Retries(s, ls, t) <= (s'.head - s.head) + SpuriousFailures(s, ls, t)
            && forall p :: s.head <= p < s'.head ==> s'.enqBy[p] != t
  {
    ReachableInv(s);
    EnqueueRunProgress(s, ls, t);
    var s' := Run(s, ls);
    assert ThreadOk(s', t, s'.PcOf(t));
  }

  lemma DequeueRetriesPaidFor<T(!new)>(s: State<T>, ls: seq<Label<T>>, t: Tid)
    requires Reachable(s) && s.PcOf(t).DeqLoadTail? && AllAlong(s, ls, t, pc => InDequeueLoop(pc))
    ensures var s' := Run(s, ls);
            && s.tail <= s'.tail == |s'.deqBy|
            && Retries(s, ls, t) <= (s'.tail - s.tail) + SpuriousFailures(s, ls, t)
            && forall p :: s.tail <= p < s'.tail ==> s'.deqBy[p] != t
  {
    ReachableInv(s);
    DequeueRunProgress(s, ls, t);
    var s' := Run(s, ls);
    assert ThreadOk(s', t, s'.PcOf(t));
  }

  /** An upper bound on the steps `t` still needs when no other thread moves and no failure is spurious. */
  ghost function StepsLeft<T>(s: State<T>, t: Tid): nat {
    match s.PcOf(t)
    case EnqLoadHead(_) => 5
    case EnqLoadId(_, pos) => if pos == s.head then 4 else 6
    case EnqCas(_, pos) => if pos == s.head then 3 else 5
    case EnqWrite(_, _) => 2
    case EnqPublish(_, _) => 1
    case DeqLoadTail => 5
    case DeqLoadId(pos) => if pos == s.tail then 4 else 6
    case DeqCas(pos) => if pos == s.tail then 3 else 5
    case DeqTake(_) => 2
    case DeqRelease(_, _) => 1
    case _ => 0
  }

  lemma SoloStep<T>(s: State<T>, t: Tid, residue: T)
    requires Inv(s) && !Ready(s.PcOf(t))
    ensures StepsLeft(Act(s, Access(t, false, residue)), t) < StepsLeft(s, t)
  {
    if s.PcOf(t).EnqLoadId? { EnqueueDiff(s, t); }
    if s.PcOf(t).DeqLoadId? { DequeueDiff(s, t); }
  }

  lemma {:induction false} SoloRun<T>(s: State<T>, t: Tid, residue: T, n: nat)
    requires Inv(s) && StepsLeft(s, t) <= n
    ensures Ready(Run(s, seq(n, _ => Access(t, false, residue))).PcOf(t))
    decreases n
  {
    var l := Access(t, false, residue);
    var ls := seq(n, _ => l);
    if n > 0 {
      assert ls[0] == l && ls[1..] == seq(n - 1, _ => l);
      if Ready(s.PcOf(t)) {
        assert Act(s, l) == s;
      } else {
        SoloStep(s, t, residue);
        StepInv(s, l);
      }
      SoloRun(Act(s, l), t, residue, n - 1);
    } else {
      assert Ready(s.PcOf(t));
    }
  }

  /** From any reachable state, whatever the other threads were in the middle of, a thread left to run alone
      returns from `enqueue` or `dequeue` within six steps. */
  lemma SoloFinishes<T(!new)>(s: State<T>, t: Tid, residue: T)
    requires Reachable(s)
    ensures Ready(Run(s, seq(6, _ => Access(t, false, residue))).PcOf(t))
  {
    ReachableInv(s);
    SoloRun(s, t, residue, 6);
  }

  // ----- What a thread running alone gets done

  /** The oldest value in the queue can be taken. */
  ghost predicate Published<T>(s: State<T>)
    requires s.WellFormed()
  {
    s.tail < s.head && s.IdAt(s.tail) == s.tail + 1
  }

  /** No producer is between its claim and the publication. */
  ghost predicate NoProducer<T>(s: State<T>) { forall u: Tid :: !s.PcOf(u).EnqWrite? && !s.PcOf(u).EnqPublish? }

  lemma ThenPublished<T>(s: State<T>)
    requires Inv(s) && NoProducer(s) && s.tail < s.head
    ensures Published(s)
  {
    assert FilledSlot(s, s.tail);
  }

  /** The tail ticket that `t` has claimed, or is going to claim if nobody else does. */
  ghost function NextTicket<T>(s: State<T>, t: Tid): nat {
    match s.PcOf(t)
    case DeqTake(pos) => pos
    case DeqRelease(pos, _) => pos
    case DeqReturned(Some((pos, _))) => pos
    case _ => s.tail
  }

  /** `t` is inside `dequeue`, and has a ticket or can get one. */
  ghost predicate Dequeuing<T>(s: State<T>, t: Tid)
    requires s.WellFormed()
  {
    InDequeue(s.PcOf(t)) && (InDequeueLoop(s.PcOf(t)) ==> Published(s))
  }

  /** A solo step inside `dequeue` brings `t` nearer to returning the value under its next ticket. */
  lemma SoloDequeueStep<T>(s: State<T>, t: Tid, residue: T)
    requires Inv(s) && Dequeuing(s, t)
    ensures var s' := Act(s, Access(t, false, residue)); var p := NextTicket(s, t);
            && StepsLeft(s', t) < StepsLeft(s, t) && s'.head == s.head && s'.accepted == s.accepted
            && (Dequeuing(s', t) || (p < |s.accepted| && s'.PcOf(t) == DeqReturned(Some((p, s.accepted[p])))))
            && NextTicket(s', t) == p && s'.tail == s.tail + if s'.PcOf(t).DeqTake? then 1 else 0
  {
    assert ThreadOk(s, t, s.PcOf(t));
    SoloStep(s, t, residue);
    DequeueSide(s, Access(t, false, residue));
    if s.PcOf(t).DeqLoadId? { DequeueDiff(s, t); }
  }

  /** `t` is inside `enqueue` with `v`, which is accepted behind `before` or, there being room, is going to be. */
  ghost predicate Enqueuing<T>(s: State<T>, t: Tid, v: T, before: seq<T>)
    requires s.WellFormed()
  {
    match s.PcOf(t)
    case EnqWrite(w, pos) => w == v && pos == |before| && s.accepted == before + [v]
    case EnqPublish(w, pos) => w == v && pos == |before| && s.accepted == before + [v]
    case pc => InEnqueueLoop(pc) && pc.v == v && s.accepted == before && s.head == |before| && s.IdAt(s.head) == s.head
  }

  ghost predicate Enqueued<T>(s: State<T>, t: Tid, v: T, before: seq<T>)
    requires s.WellFormed()
  {
    s.PcOf(t) == EnqReturned(true) && s.accepted == before + [v] && s.IdAt(|before|) == |before| + 1
  }

  lemma SoloEnqueueStep<T>(s: State<T>, t: Tid, v: T, before: seq<T>, residue: T)
    requires Inv(s) && Enqueuing(s, t, v, before)
    ensures var s' := Act(s, Access(t, false, residue));
            StepsLeft(s', t) < StepsLeft(s, t) && s'.tail == s.tail && (Enqueuing(s', t, v, before) || Enqueued(s', t, v, before))
  {
    assert ThreadOk(s, t, s.PcOf(t));
    SoloStep(s, t, residue);
    if s.PcOf(t).EnqLoadId? { EnqueueDiff(s, t); }
  }

  lemma {:induction false} SoloEnqueueRun<T>(s: State<T>, t: Tid, v: T, before: seq<T>, residue: T, n: nat)
    requires Inv(s) && (if Enqueuing(s, t, v, before) then StepsLeft(s, t) <= n else Enqueued(s, t, v, before))
    ensures var s' := Run(s, seq(n, _ => Access(t, false, residue))); Enqueued(s', t, v, before) && s'.tail == s.tail
    decreases n
  {
    var l := Access(t, false, residue);
    var ls := seq(n, _ => l);
    if n > 0 {
      assert ls[0] == l && ls[1..] == seq(n - 1, _ => l);
      StepInv(s, l);
      if Enqueuing(s, t, v, before) { SoloEnqueueStep(s, t, v, before, residue); } else { assert Act(s, l) == s; }
      SoloEnqueueRun(Act(s, l), t, v, before, residue, n - 1);
    }
  }

  lemma RoomIsFree<T>(s: State<T>)
    requires Inv(s) && !NoRoom(s)
    ensures s.IdAt(s.head) == s.head
  {
    if s.head == s.tail + s.cap { assert NoRoom(s); }
    assert FreeSlot(s, s.head);
  }

  /** With room in the queue a call of `enqueue` that runs alone succeeds in five steps. */
  lemma SoloEnqueues<T>(s: State<T>, t: Tid, v: T, residue: T)
    requires Inv(s) && !NoRoom(s) && Ready(s.PcOf(t))
    ensures var s' := Run(Act(s, CallEnqueue(t, v)), seq(5, _ => Access(t, false, residue)));
            Enqueued(s', t, v, s.accepted) && s'.tail == s.tail && Inv(s')
  {
    RoomIsFree(s);
    StepInv(s, CallEnqueue(t, v));
    SoloEnqueueRun(Act(s, CallEnqueue(t, v)), t, v, s.accepted, residue, 5);
    RunInv(Act(s, CallEnqueue(t, v)), seq(5, _ => Access(t, false, residue)));
  }
}
