/** What the ticket protocol guarantees in every interleaving. */
module QueueTheorems {
  import opened Wrappers
  import opened QueueProtocol
  import opened QueueInvariant

  lemma ReachableInv<T(!new)>(s: State<T>)
    requires Reachable(s)
    ensures Inv(s)
  {
    var cap: nat, fill: T, ls :| 2 <= cap && s == Run(Init(cap, fill), ls);
    InitInv(cap, fill);
    RunInv(Init(cap, fill), ls);
  }

  ghost predicate Prefix<A>(a: seq<A>, b: seq<A>) { |a| <= |b| && a == b[..|a|] }

  ghost predicate InDequeue<T>(pc: Pc<T>) {
    pc.DeqLoadTail? || pc.DeqLoadId? || pc.DeqCas? || pc.DeqTake? || pc.DeqRelease?
  }

  /** A step moves only the thread it schedules. */
  lemma OthersStay<T>(s: State<T>, l: Label<T>)
    requires s.WellFormed()
    ensures forall t: Tid :: t != l.t ==> Act(s, l).PcOf(t) == s.PcOf(t)
  {
  }

  /** A thread that only enqueues leaves the consumer side alone. */
  lemma EnqueueSide<T>(s: State<T>, l: Label<T>)
    requires Inv(s) && !InDequeue(s.PcOf(l.t)) && !l.CallDequeue?
    ensures var s' := Act(s, l);
            && s'.tail == s.tail && s'.deqBy == s.deqBy && s'.taken == s.taken && !InDequeue(s'.PcOf(l.t))
            && s.head <= s'.head && Prefix(s.accepted, s'.accepted)
            && (Ready(s.PcOf(l.t)) && l.Access? ==> s' == s)
  {
    assert ThreadOk(s, l.t, s.PcOf(l.t));
  }

  /** A thread inside `dequeue` leaves the producer side alone, and claims at most the current tail ticket. */
  lemma DequeueSide<T>(s: State<T>, l: Label<T>)
    requires Inv(s) && InDequeue(s.PcOf(l.t)) && l.Access?
    ensures var s' := Act(s, l); var pc, pc' := s.PcOf(l.t), s'.PcOf(l.t);
            && s'.head == s.head && s'.accepted == s.accepted && s'.enqBy == s.enqBy
            && (InDequeue(pc') || pc'.DeqReturned?)
            && (if pc'.DeqTake? then s'.tail == s.tail + 1 && pc'.pos == s.tail && s'.deqBy == s.deqBy + [l.t]
                else s'.tail == s.tail && s'.deqBy == s.deqBy)
            && (pc'.DeqTake? ==> pc.DeqCas?)
            && (pc.DeqTake? <==> pc'.DeqRelease?) && (pc.DeqTake? ==> pc'.pos == pc.pos)
            && (pc.DeqRelease? <==> pc'.DeqReturned? && pc'.got.Some?)
            && (pc.DeqRelease? ==> pc'.got.value == (pc.pos, s.accepted[pc.pos]))
  {
    assert ThreadOk(s, l.t, s.PcOf(l.t));
  }

  // ----- First in, first out

  /** From `s` to `s'` no ticket changes its value or its owner, and no value that was moved out changes. */
  ghost predicate Grown<T>(s: State<T>, s': State<T>) {
    && Prefix(s.accepted, s'.accepted) && Prefix(s.enqBy, s'.enqBy) && Prefix(s.deqBy, s'.deqBy)
    && forall p :: p in s.taken ==> p in s'.taken && s'.taken[p] == s.taken[p]
  }

  lemma StepGrows<T>(s: State<T>, l: Label<T>, s': State<T>)
    requires Inv(s) && s' == Act(s, l)
    ensures Grown(s, s')
  {
    assert ThreadOk(s, l.t, s.PcOf(l.t));
    assert s'.enqBy == s.enqBy || s'.enqBy == s.enqBy + [l.t];
    assert s'.deqBy == s.deqBy || s'.deqBy == s.deqBy + [l.t];
  }

  lemma GrownTransitive<T>(s: State<T>, m: State<T>, s': State<T>)
    requires Grown(s, m) && Grown(m, s')
    ensures Grown(s, s')
  {
  }

  /** Tickets are given out once and for all: histories only grow. */
  lemma {:induction false} HistoryGrows<T>(s: State<T>, ls: seq<Label<T>>)
    requires Inv(s)
    ensures Grown(s, Run(s, ls))
    decreases |ls|
  {
    if ls != [] {
      var m := Act(s, ls[0]);
      StepGrows(s, ls[0], m);
      StepInv(s, ls[0]);
      HistoryGrows(m, ls[1..]);
      GrownTransitive(s, m, Run(m, ls[1..]));
    }
  }

  /** In every reachable state the counters are in range; the value moved out under tail ticket `p` is the value
      accepted under head ticket `p`; and the value a completed `dequeue` hands to its caller is that same value,
      under a ticket no other thread was handed. */
  lemma FirstInFirstOut<T(!new)>(s: State<T>)
    requires Reachable(s)
    ensures s.tail <= s.head <= s.tail + s.cap && |s.accepted| == s.head && |s.deqBy| == s.tail
    ensures forall p: nat :: p in s.taken ==> p < s.tail && s.taken[p] == s.accepted[p]
    ensures forall p: nat :: p < s.tail && p !in s.taken ==> exists t: Tid :: s.PcOf(t) == DeqTake(p)
    ensures forall t: Tid, p: nat, w :: s.PcOf(t) == DeqReturned(Some((p, w))) ==>
              p < s.tail && w == s.accepted[p] && s.deqBy[p] == t
  {
    ReachableInv(s);
    forall p: nat | p < s.tail ensures TakenOk(s, p) { }
    forall p: nat | p in s.taken ensures p < s.tail && s.taken[p] == s.accepted[p] { assert TakenOk(s, p); }
    forall p: nat | p < s.tail && p !in s.taken ensures s.PcOf(s.deqBy[p]) == DeqTake(p) { assert TakenOk(s, p); }
    forall t: Tid, p: nat, w | s.PcOf(t) == DeqReturned(Some((p, w)))
      ensures p < s.tail && w == s.accepted[p] && s.deqBy[p] == t
    {
      assert ThreadOk(s, t, s.PcOf(t));
    }
  }

  /** Once the first `n` tail tickets have been moved out, their values in ticket order are exactly the first `n`
      accepted values: none lost, none duplicated, none reordered. */
  lemma TakenInOrder<T(!new)>(s: State<T>, n: nat)
    requires Reachable(s) && forall p: nat :: p < n ==> p in s.taken
    ensures n <= s.tail <= |s.accepted|
    ensures seq(n, p requires 0 <= p < n => s.taken[p]) == s.accepted[..n]
  {
    FirstInFirstOut(s);
    if n > 0 { assert n - 1 in s.taken; }
  }

  datatype Op<T> = Push(v: T) | Pop(v: T)

  /** The values between the two counters: accepted, and not yet claimed by a consumer. */
  function Queued<T>(s: State<T>): seq<T>
    requires s.tail <= s.head == |s.accepted|
  {
    s.accepted[s.tail..]
  }

  /** The queue operation that takes effect at a step: a successful compare-and-swap, and nothing else. */
  function Effect<T>(s: State<T>, l: Label<T>): seq<Op<T>>
    requires s.tail <= s.head == |s.accepted|
  {
    if !l.Access? || l.spurious then [] else
      match s.PcOf(l.t)
      case EnqCas(v, pos) => if pos == s.head then [Push(v)] else []
      case DeqCas(pos) => if pos == s.tail < s.head then [Pop(s.accepted[pos])] else []
      case _ => []
  }

  ghost function Effects<T>(s: State<T>, ls: seq<Label<T>>): seq<Op<T>>
    requires Inv(s)
    decreases |ls|
  {
    if ls == [] then [] else
      StepInv(s, ls[0]);
      Effect(s, ls[0]) + Effects(Act(s, ls[0]), ls[1..])
  }

  /** A sequential bounded queue.  `None` when an operation is not allowed: a push on a full queue, or a pop that
      does not return the front. */
  function Replay<T(==)>(q: seq<T>, cap: nat, ops: seq<Op<T>>): Option<seq<T>>
    decreases |ops|
  {
    if ops == [] then Some(q) else
      match ops[0]
      case Push(v) => if |q| < cap then Replay(q + [v], cap, ops[1..]) else None
      case Pop(v) => if q != [] && q[0] == v then Replay(q[1..], cap, ops[1..]) else None
  }

  lemma {:induction false} ReplayAppend<T>(q: seq<T>, cap: nat, a: seq<Op<T>>, b: seq<Op<T>>)
    requires Replay(q, cap, a).Some?
    ensures Replay(q, cap, a + b) == Replay(Replay(q, cap, a).value, cap, b)
    decreases |a|
  {
    if a == [] {
      assert a + b == b;
    } else {
      assert (a + b)[1..] == a[1..] + b;
      match a[0]
      case Push(v) => ReplayAppend(q + [v], cap, a[1..], b);
      case Pop(_) => ReplayAppend(q[1..], cap, a[1..], b);
    }
  }

  /** What a step does to the values between the counters. */
  lemma QueuedStep<T>(s: State<T>, l: Label<T>, s': State<T>)
    requires Inv(s) && s' == Act(s, l)
    ensures s'.tail <= s'.head == |s'.accepted|
    ensures var e := Effect(s, l);
            if e == [] then Queued(s') == Queued(s)
            else if e[0].Push? then e == [Push(e[0].v)] && Queued(s') == Queued(s) + [e[0].v] && s'.tail == s.tail
            else e == [Pop(e[0].v)] && Queued(s) != [] && Queued(s)[0] == e[0].v && Queued(s') == Queued(s)[1..]
  {
    assert ThreadOk(s, l.t, s.PcOf(l.t));
    assert s.tail == s.head ==> FreeSlot(s, s.tail);
  }

  lemma StepLinearizes<T>(s: State<T>, l: Label<T>)
    requires Inv(s) && Inv(Act(s, l))
    ensures Replay(Queued(s), s.cap, Effect(s, l)) == Some(Queued(Act(s, l)))
  {
    QueuedStep(s, l, Act(s, l));
  }

  /** Linearizability of successful operations: in any interleaving the successful compare-and-swaps, in the order
      in which they happen, form a legal history of a sequential FIFO queue of the same capacity. */
  lemma {:induction false} RunLinearizes<T>(s: State<T>, ls: seq<Label<T>>)
    requires Inv(s)
    ensures Inv(Run(s, ls))
    ensures Replay(Queued(s), s.cap, Effects(s, ls)) == Some(Queued(Run(s, ls)))
    decreases |ls|
  {
    if ls != [] {
      StepInv(s, ls[0]);
      StepLinearizes(s, ls[0]);
      RunLinearizes(Act(s, ls[0]), ls[1..]);
      ReplayAppend(Queued(s), s.cap, Effect(s, ls[0]), Effects(Act(s, ls[0]), ls[1..]));
    }
  }

  // ----- Exclusive access

  /** Two threads are never both between a successful compare-and-swap and the `id` store for the same slot, so no
      slot's `data` is read or written by two threads at once. */
  lemma SlotOwnerUnique<T(!new)>(s: State<T>, t: Tid, u: Tid, p: nat, q: nat)
    requires Reachable(s) && t != u
    requires Producing(s.PcOf(t), p) || Consuming(s.PcOf(t), p)
    requires Producing(s.PcOf(u), q) || Consuming(s.PcOf(u), q)
    ensures Slot(p, s.cap) != Slot(q, s.cap)
  {
    ReachableInv(s);
    assert ThreadOk(s, t, s.PcOf(t));
    assert ThreadOk(s, u, s.PcOf(u));
    OtherSlots(p, s.cap);
  }

  // ----- The meaning of a false return

  /** The `id` of a slot never falls behind a ticket that has been claimed by a consumer. */
  lemma {:induction false} SpentSlot<T>(s: State<T>, p: nat)
    requires Inv(s) && p < s.tail
    ensures s.IdAt(p) > p
    decreases s.tail - p
  {
    assert Slot(p + s.cap, s.cap) == Slot(p, s.cap);
    if p + s.cap < s.tail {
      SpentSlot(s, p + s.cap);
    } else if p + s.cap < s.head {
      assert FilledSlot(s, p + s.cap);
    } else {
      assert FreeSlot(s, p + s.cap);
    }
  }

  /** The queue is full, or the consumer of the next slot's previous ticket has claimed but not released it. */
  ghost predicate NoRoom<T>(s: State<T>) {
    s.head >= s.cap && (s.head == s.tail + s.cap || exists u: Tid :: Consuming(s.PcOf(u), s.head - s.cap))
  }

  /** The queue is empty, or the producer of the next ticket has claimed but not published it. */
  ghost predicate NothingReady<T>(s: State<T>) {
    s.tail == s.head || exists u: Tid :: Producing(s.PcOf(u), s.tail)
  }

  /** `diff` at the `id` load of `enqueue`: positive only when `pos` is stale, and negative exactly when `pos` is
      current and there is no room. */
  lemma EnqueueDiff<T>(s: State<T>, t: Tid)
    requires Inv(s) && s.PcOf(t).EnqLoadId?
    ensures var pos := s.PcOf(t).pos;
            && pos <= s.head
            && (s.IdAt(pos) > pos ==> pos < s.head)
            && (s.IdAt(pos) < pos <==> pos == s.head && NoRoom(s))
  {
    var pos := s.PcOf(t).pos;
    assert ThreadOk(s, t, s.PcOf(t));
    if s.cap <= pos { assert Slot(pos, s.cap) == Slot(pos - s.cap, s.cap); }
    if pos < s.tail {
      SpentSlot(s, pos);
    } else if pos < s.head {
      assert FilledSlot(s, pos);
    } else if pos == s.tail + s.cap {
      assert FilledSlot(s, s.tail);
    } else {
      assert FreeSlot(s, pos);
      forall u: Tid | s.cap <= pos && Consuming(s.PcOf(u), pos - s.cap) ensures s.IdAt(pos) < pos {
        assert ThreadOk(s, u, s.PcOf(u));
      }
    }
  }

  lemma DequeueDiff<T>(s: State<T>, t: Tid)
    requires Inv(s) && s.PcOf(t).DeqLoadId?
    ensures var pos := s.PcOf(t).pos;
            && pos <= s.tail
            && (s.IdAt(pos) > pos + 1 ==> pos < s.tail)
            && (s.IdAt(pos) < pos + 1 <==> pos == s.tail && NothingReady(s))
  {
    var pos := s.PcOf(t).pos;
    assert ThreadOk(s, t, s.PcOf(t));
    if pos < s.tail {
      SpentSlot(s, pos);
    } else if pos < s.head {
      assert FilledSlot(s, pos);
      forall u: Tid | Producing(s.PcOf(u), pos) ensures s.IdAt(pos) < pos + 1 { assert ThreadOk(s, u, s.PcOf(u)); }
    } else {
      assert FreeSlot(s, pos);
    }
  }

  /** `enqueue` returns false at a step exactly when, at that `id` load, its ticket is the next one to hand out and
      there is no room for it; it never returns false on a stale ticket. */
  lemma EnqueueReturnsFalse<T(!new)>(s: State<T>, t: Tid, residue: T)
    requires Reachable(s) && s.PcOf(t).EnqLoadId?
    ensures Act(s, Access(t, false, residue)).PcOf(t) == EnqReturned(false) <==> s.PcOf(t).pos == s.head && NoRoom(s)
  {
    ReachableInv(s);
    EnqueueDiff(s, t);
  }

  /** `dequeue` returns false at a step exactly when, at that `id` load, its ticket is the next one to take and
      nothing is ready under it. */
  lemma DequeueReturnsFalse<T(!new)>(s: State<T>, t: Tid, residue: T)
    requires Reachable(s) && s.PcOf(t).DeqLoadId?
    ensures Act(s, Access(t, false, residue)).PcOf(t) == DeqReturned(None) <==>
              s.PcOf(t).pos == s.tail && NothingReady(s)
  {
    ReachableInv(s);
    DequeueDiff(s, t);
  }
}
