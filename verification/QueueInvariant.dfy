/** The inductive invariant of the ticket protocol.

    Ticket `p` lives in slot `Slot(p)`.  Of the tickets that share a slot exactly one lies in the window
    `[tail, tail + cap)`, and the slot's `id` tells what is happening to it. */
module QueueInvariant {
  import opened Wrappers
  import opened QueueProtocol

  /** Between a successful compare-and-swap on `head` for ticket `p` and the store of the slot's `id`. */
  ghost predicate Producing<T>(pc: Pc<T>, p: nat) { (pc.EnqWrite? || pc.EnqPublish?) && pc.pos == p }

  /** Between a successful compare-and-swap on `tail` for ticket `p` and the store of the slot's `id`. */
  ghost predicate Consuming<T>(pc: Pc<T>, p: nat) { (pc.DeqTake? || pc.DeqRelease?) && pc.pos == p }

  ghost predicate Counters<T>(s: State<T>) {
    && s.WellFormed() && 2 <= s.cap && s.tail <= s.head <= s.tail + s.cap
    && |s.accepted| == |s.enqBy| == s.head && |s.deqBy| == s.tail
  }

  /** What a thread may rely on at its program counter. */
  ghost predicate ThreadOk<T>(s: State<T>, t: Tid, pc: Pc<T>)
    requires Counters(s)
  {
    match pc
    case EnqLoadId(v, pos) => pos <= s.head
    case EnqCas(v, pos) => pos <= s.head && (pos == s.head ==> s.IdAt(pos) == pos)
    case EnqWrite(v, pos) =>
      s.tail <= pos < s.head && s.enqBy[pos] == t && s.IdAt(pos) == pos && s.accepted[pos] == v
    case EnqPublish(v, pos) =>
      s.tail <= pos < s.head && s.enqBy[pos] == t && s.IdAt(pos) == pos && s.accepted[pos] == v && s.DataAt(pos) == v
    case DeqLoadId(pos) => pos <= s.tail
    case DeqCas(pos) => pos <= s.tail && (pos == s.tail ==> s.IdAt(pos) == pos + 1)
    case DeqTake(pos) =>
      pos < s.tail && s.head <= pos + s.cap && s.deqBy[pos] == t && s.IdAt(pos) == pos + 1
      && s.DataAt(pos) == s.accepted[pos] && pos !in s.taken
    case DeqRelease(pos, w) =>
      pos < s.tail && s.head <= pos + s.cap && s.deqBy[pos] == t && s.IdAt(pos) == pos + 1
      && w == s.accepted[pos] && pos in s.taken
    case DeqReturned(Some((pos, w))) => pos < s.tail && s.deqBy[pos] == t && w == s.accepted[pos] && pos in s.taken
    case _ => true
  }

  /** An accepted ticket that no consumer has claimed: published, or its producer is on its way. */
  ghost predicate FilledSlot<T>(s: State<T>, p: nat)
    requires Counters(s) && p < s.head
  {
    || (s.IdAt(p) == p + 1 && s.DataAt(p) == s.accepted[p])
    || (s.IdAt(p) == p && Producing(s.PcOf(s.enqBy[p]), p))
  }

  /** A ticket not handed out yet: free, or the consumer of the slot's previous ticket is on its way. */
  ghost predicate FreeSlot<T>(s: State<T>, p: nat)
    requires Counters(s) && p < s.tail + s.cap
  {
    || s.IdAt(p) == p
    || (s.cap <= p && s.IdAt(p) == p - s.cap + 1 && Consuming(s.PcOf(s.deqBy[p - s.cap]), p - s.cap))
  }

  /** A ticket claimed by a consumer: its value has been moved out, or its consumer is about to do so. */
  ghost predicate TakenOk<T>(s: State<T>, p: nat)
    requires Counters(s) && p < s.tail
  {
    if p in s.taken then s.taken[p] == s.accepted[p] else s.PcOf(s.deqBy[p]) == DeqTake(p)
  }

  ghost predicate Inv<T>(s: State<T>) {
    && Counters(s)
    && (forall t: Tid :: ThreadOk(s, t, s.PcOf(t)))
    && (forall p: nat :: s.tail <= p < s.head ==> FilledSlot(s, p))
    && (forall p: nat :: s.head <= p < s.tail + s.cap ==> FreeSlot(s, p))
    && (forall p: nat :: p < s.tail ==> TakenOk(s, p))
    && (forall p: nat :: p in s.taken ==> p < s.tail)
  }

  lemma InitInv<T>(cap: nat, fill: T)
    requires 2 <= cap
    ensures Inv(Init(cap, fill))
  {
    var s := Init(cap, fill);
    forall p: nat | s.head <= p < s.tail + s.cap ensures FreeSlot(s, p) {
      assert Slot(p, cap) == p;
    }
  }

  /** Calling, loading a counter, loading an `id`, returning: a step between two places that own no slot. */
  lemma LocalStep<T>(s: State<T>, t: Tid, pc: Pc<T>)
    requires Inv(s) && ThreadOk(s, t, pc)
    requires forall p :: !Producing(s.PcOf(t), p) && !Consuming(s.PcOf(t), p)
    ensures Inv(s.Goto(t, pc))
  {
    var s' := s.Goto(t, pc);
    forall u: Tid ensures ThreadOk(s', u, s'.PcOf(u)) { assert ThreadOk(s, u, s.PcOf(u)); }
    forall p: nat | s'.tail <= p < s'.head ensures FilledSlot(s', p) { assert FilledSlot(s, p); }
    forall p: nat | s'.head <= p < s'.tail + s'.cap ensures FreeSlot(s', p) { assert FreeSlot(s, p); }
    forall p: nat | p < s'.tail ensures TakenOk(s', p) {
      assert TakenOk(s, p);
      assert s.PcOf(s.deqBy[p]) == DeqTake(p) ==> Consuming(s.PcOf(s.deqBy[p]), p);
    }
  }

  ghost predicate EnqueueClaims<T>(s: State<T>, t: Tid, v: T, s': State<T>) {
    && Inv(s) && s.PcOf(t) == EnqCas(v, s.head)
    && s' == s.Goto(t, EnqWrite(v, s.head)).(head := s.head + 1, accepted := s.accepted + [v], enqBy := s.enqBy + [t])
  }

  /** The slot under `head` is free, so the window is not full. */
  lemma EnqueueClaimRoom<T>(s: State<T>, t: Tid, v: T, s': State<T>)
    requires EnqueueClaims(s, t, v, s')
    ensures s.head < s.tail + s.cap && Counters(s') && s.IdAt(s.head) == s.head
  {
    assert ThreadOk(s, t, s.PcOf(t));
    if s.tail < s.head { assert FilledSlot(s, s.tail); }
    assert Slot(s.tail + s.cap, s.cap) == Slot(s.tail, s.cap);
  }

  lemma EnqueueClaimThreads<T>(s: State<T>, t: Tid, v: T, s': State<T>)
    requires EnqueueClaims(s, t, v, s')
    ensures Counters(s') && forall u: Tid :: ThreadOk(s', u, s'.PcOf(u))
  {
    EnqueueClaimRoom(s, t, v, s');
    forall u: Tid ensures ThreadOk(s', u, s'.PcOf(u)) { assert ThreadOk(s, u, s.PcOf(u)); }
  }

  lemma EnqueueClaimSlots<T>(s: State<T>, t: Tid, v: T, s': State<T>)
    requires EnqueueClaims(s, t, v, s')
    ensures Counters(s')
    ensures forall p: nat :: s'.tail <= p < s'.head ==> FilledSlot(s', p)
    ensures forall p: nat :: s'.head <= p < s'.tail + s'.cap ==> FreeSlot(s', p)
    ensures forall p: nat :: p < s'.tail ==> TakenOk(s', p)
  {
    EnqueueClaimRoom(s, t, v, s');
    forall p: nat | s'.tail <= p < s'.head ensures FilledSlot(s', p) { if p < s.head { assert FilledSlot(s, p); } }
    forall p: nat | s'.head <= p < s'.tail + s'.cap ensures FreeSlot(s', p) { assert FreeSlot(s, p); }
    forall p: nat | p < s'.tail ensures TakenOk(s', p) { assert TakenOk(s, p); }
  }

  lemma EnqueueClaim<T>(s: State<T>, t: Tid, v: T, s': State<T>)
    requires EnqueueClaims(s, t, v, s')
    ensures Inv(s')
  {
    EnqueueClaimThreads(s, t, v, s');
    EnqueueClaimSlots(s, t, v, s');
  }

  ghost predicate DequeueClaims<T>(s: State<T>, t: Tid, s': State<T>) {
    && Inv(s) && s.PcOf(t) == DeqCas(s.tail)
    && s' == s.Goto(t, DeqTake(s.tail)).(tail := s.tail + 1, deqBy := s.deqBy + [t])
  }

  /** The slot under `tail` is published, so the queue is not empty. */
  lemma DequeueClaimReady<T>(s: State<T>, t: Tid, s': State<T>)
    requires DequeueClaims(s, t, s')
    ensures s.tail < s.head && Counters(s') && s.IdAt(s.tail) == s.tail + 1 && s.DataAt(s.tail) == s.accepted[s.tail]
    ensures s.tail !in s.taken && Slot(s.tail + s.cap, s.cap) == Slot(s.tail, s.cap)
  {
    assert ThreadOk(s, t, s.PcOf(t));
    assert FreeSlot(s, s.tail) || FilledSlot(s, s.tail);
  }

  lemma DequeueClaimThreads<T>(s: State<T>, t: Tid, s': State<T>)
    requires DequeueClaims(s, t, s')
    ensures Counters(s') && forall u: Tid :: ThreadOk(s', u, s'.PcOf(u))
  {
    DequeueClaimReady(s, t, s');
    forall u: Tid ensures ThreadOk(s', u, s'.PcOf(u)) { assert ThreadOk(s, u, s.PcOf(u)); }
  }

  lemma DequeueClaimSlots<T>(s: State<T>, t: Tid, s': State<T>)
    requires DequeueClaims(s, t, s')
    ensures Counters(s')
    ensures forall p: nat :: s'.tail <= p < s'.head ==> FilledSlot(s', p)
    ensures forall p: nat :: s'.head <= p < s'.tail + s'.cap ==> FreeSlot(s', p)
    ensures forall p: nat :: p < s'.tail ==> TakenOk(s', p)
  {
    DequeueClaimReady(s, t, s');
    forall p: nat | s'.tail <= p < s'.head ensures FilledSlot(s', p) { assert FilledSlot(s, p); }
    forall p: nat | s'.head <= p < s'.tail + s'.cap ensures FreeSlot(s', p) { if p < s.tail + s.cap { assert FreeSlot(s, p); } }
    forall p: nat | p < s'.tail ensures TakenOk(s', p) { if p < s.tail { assert TakenOk(s, p); } }
  }

  lemma DequeueClaim<T>(s: State<T>, t: Tid, s': State<T>)
    requires DequeueClaims(s, t, s')
    ensures Inv(s')
  {
    DequeueClaimThreads(s, t, s');
    DequeueClaimSlots(s, t, s');
  }

  /** What a step of `t` on the slot it owns may change: its program counter, that slot, and (while it consumes)
      the history entry of its own ticket. */
  ghost predicate OwnSlotStep<T>(s: State<T>, t: Tid, pos: nat, s': State<T>) {
    && Inv(s) && (Producing(s.PcOf(t), pos) || Consuming(s.PcOf(t), pos))
    && s' == s.(threads := s'.threads, ids := s'.ids, data := s'.data, taken := s'.taken)
    && s'.threads == s.threads[t := s'.PcOf(t)]
    && s'.WellFormed()
    && s'.ids == s.ids[Slot(pos, s.cap) := s'.IdAt(pos)] && s'.data == s.data[Slot(pos, s.cap) := s'.DataAt(pos)]
    && (s'.taken == s.taken || (Consuming(s.PcOf(t), pos) && s'.taken == s.taken[pos := s.accepted[pos]]))
  }

  lemma OthersUndisturbed<T>(s: State<T>, t: Tid, pos: nat, s': State<T>)
    requires OwnSlotStep(s, t, pos, s')
    ensures forall u: Tid :: u != t ==> ThreadOk(s', u, s'.PcOf(u))
  {
    OtherSlots(pos, s.cap);
    assert Slot(pos + s.cap, s.cap) == Slot(pos, s.cap);
    assert ThreadOk(s, t, s.PcOf(t));
    forall u: Tid | u != t ensures ThreadOk(s', u, s'.PcOf(u)) { assert ThreadOk(s, u, s.PcOf(u)); }
  }

  lemma OtherTicketsUndisturbed<T>(s: State<T>, t: Tid, pos: nat, s': State<T>)
    requires OwnSlotStep(s, t, pos, s')
    ensures forall p: nat :: s.tail <= p < s.head && p != pos ==> FilledSlot(s', p)
    ensures forall p: nat :: s.head <= p < s.tail + s.cap && p != pos + s.cap ==> FreeSlot(s', p)
    ensures forall p: nat :: p < s.tail && p != pos ==> TakenOk(s', p)
  {
    OtherSlots(pos, s.cap);
    assert ThreadOk(s, t, s.PcOf(t));
    forall p: nat | s.tail <= p < s.head && p != pos ensures FilledSlot(s', p) { assert FilledSlot(s, p); }
    forall p: nat | s.head <= p < s.tail + s.cap && p != pos + s.cap ensures FreeSlot(s', p) {
      OtherSlots(pos + s.cap, s.cap);
      assert FreeSlot(s, p);
    }
    forall p: nat | p < s.tail && p != pos ensures TakenOk(s', p) { assert TakenOk(s, p); }
  }

  lemma EnqueueWrite<T>(s: State<T>, t: Tid, v: T, pos: nat, s': State<T>)
    requires Inv(s) && s.PcOf(t) == EnqWrite(v, pos)
    requires s' == s.Goto(t, EnqPublish(v, pos)).(data := s.data[Slot(pos, s.cap) := v])
    ensures Inv(s')
  {
    assert ThreadOk(s, t, s.PcOf(t));
    OthersUndisturbed(s, t, pos, s');
    OtherTicketsUndisturbed(s, t, pos, s');
  }

  lemma EnqueuePublish<T>(s: State<T>, t: Tid, v: T, pos: nat, s': State<T>)
    requires Inv(s) && s.PcOf(t) == EnqPublish(v, pos)
    requires s' == s.Goto(t, EnqReturned(true)).(ids := s.ids[Slot(pos, s.cap) := pos + 1])
    ensures Inv(s')
  {
    assert ThreadOk(s, t, s.PcOf(t));
    OthersUndisturbed(s, t, pos, s');
    OtherTicketsUndisturbed(s, t, pos, s');
  }

  lemma DequeueTake<T>(s: State<T>, t: Tid, pos: nat, residue: T, s': State<T>)
    requires Inv(s) && s.PcOf(t) == DeqTake(pos)
    requires s' == s.Goto(t, DeqRelease(pos, s.DataAt(pos)))
                    .(data := s.data[Slot(pos, s.cap) := residue], taken := s.taken[pos := s.DataAt(pos)])
    ensures Inv(s')
  {
    assert ThreadOk(s, t, s.PcOf(t));
    assert Slot(pos + s.cap, s.cap) == Slot(pos, s.cap);
    OthersUndisturbed(s, t, pos, s');
    OtherTicketsUndisturbed(s, t, pos, s');
  }

  lemma DequeueRelease<T>(s: State<T>, t: Tid, pos: nat, w: T, s': State<T>)
    requires Inv(s) && s.PcOf(t) == DeqRelease(pos, w)
    requires s' == s.Goto(t, DeqReturned(Some((pos, w)))).(ids := s.ids[Slot(pos, s.cap) := pos + s.cap])
    ensures Inv(s')
  {
    assert ThreadOk(s, t, s.PcOf(t));
    assert Slot(pos + s.cap, s.cap) == Slot(pos, s.cap);
    assert TakenOk(s, pos);
    OthersUndisturbed(s, t, pos, s');
    OtherTicketsUndisturbed(s, t, pos, s');
  }

  lemma EnqueueStep<T>(s: State<T>, t: Tid, spurious: bool, residue: T, s': State<T>)
    requires Inv(s) && s' == Act(s, Access(t, spurious, residue))
    requires var pc := s.PcOf(t);
             pc.EnqLoadHead? || pc.EnqLoadId? || pc.EnqCas? || pc.EnqWrite? || pc.EnqPublish?
    ensures Inv(s')
  {
    assert ThreadOk(s, t, s.PcOf(t));
    match s.PcOf(t)
    case EnqLoadHead(v) => LocalStep(s, t, EnqLoadId(v, s.head));
    case EnqLoadId(v, pos) => LocalStep(s, t, s'.PcOf(t));
    case EnqCas(v, pos) =>
      if s.head == pos && !spurious { EnqueueClaim(s, t, v, s'); } else { LocalStep(s, t, EnqLoadId(v, s.head)); }
    case EnqWrite(v, pos) => EnqueueWrite(s, t, v, pos, s');
    case EnqPublish(v, pos) => EnqueuePublish(s, t, v, pos, s');
  }

  lemma DequeueStep<T>(s: State<T>, t: Tid, spurious: bool, residue: T, s': State<T>)
    requires Inv(s) && s' == Act(s, Access(t, spurious, residue))
    requires var pc := s.PcOf(t);
             pc.DeqLoadTail? || pc.DeqLoadId? || pc.DeqCas? || pc.DeqTake? || pc.DeqRelease?
    ensures Inv(s')
  {
    assert ThreadOk(s, t, s.PcOf(t));
    match s.PcOf(t)
    case DeqLoadTail => LocalStep(s, t, DeqLoadId(s.tail));
    case DeqLoadId(pos) => LocalStep(s, t, s'.PcOf(t));
    case DeqCas(pos) =>
      if s.tail == pos && !spurious { DequeueClaim(s, t, s'); } else { LocalStep(s, t, DeqLoadId(s.tail)); }
    case DeqTake(pos) => DequeueTake(s, t, pos, residue, s');
    case DeqRelease(pos, w) => DequeueRelease(s, t, pos, w, s');
  }

  /** Every atomic step of every thread keeps the invariant. */
  lemma StepInv<T>(s: State<T>, l: Label<T>)
    requires Inv(s)
    ensures Inv(Act(s, l))
  {
    var pc := s.PcOf(l.t);
    match l
    case CallEnqueue(t, v) => if Ready(pc) { LocalStep(s, t, EnqLoadHead(v)); }
    case CallDequeue(t) => if Ready(pc) { LocalStep(s, t, DeqLoadTail); }
    case Access(t, spurious, residue) =>
      if pc.EnqLoadHead? || pc.EnqLoadId? || pc.EnqCas? || pc.EnqWrite? || pc.EnqPublish? {
        EnqueueStep(s, t, spurious, residue, Act(s, l));
      } else if pc.DeqLoadTail? || pc.DeqLoadId? || pc.DeqCas? || pc.DeqTake? || pc.DeqRelease? {
        DequeueStep(s, t, spurious, residue, Act(s, l));
      }
  }

  lemma {:induction false} RunInv<T>(s: State<T>, ls: seq<Label<T>>)
    requires Inv(s)
    ensures Inv(Run(s, ls))
    decreases |ls|
  {
    if ls != [] {
      StepInv(s, ls[0]);
      RunInv(Act(s, ls[0]), ls[1..]);
    }
  }
}
