/** How far the machine's counters can be trusted: exactly when the signed cast takes the right branch, and a run that
    shows the bound of `QueueWrap` to be the best possible. */
module QueueWrapLimit {
  import opened Wrappers
  import opened Bits
  import opened QueueProtocol
  import opened QueueInvariant
  import opened QueueTheorems
  import opened QueueWrap

  /** A difference from 2^63 up to 2^64 comes out negative. */
  lemma SignedOfLarge(a: nat, b: nat)
    requires HALF_WORD <= a - b < WORD
    ensures Signed(Sub(a % WORD, b % WORD)) == a - b - WORD < 0
  {
    SubOfWrapped(a, b);
    DivUnique(a - b, 0, a - b, WORD);
  }

  lemma LargeEnqueueDiff<T>(s: State<T>, k: nat, t: Tid, residue: T)
    requires s.WellFormed() && 2 <= s.cap == Pow2(k) && k < 64
    requires s.PcOf(t).EnqLoadId? && HALF_WORD <= Diff(s, t) < WORD
    ensures Wrap(s).WellFormed()
    ensures MachineAct(Wrap(s), Access(t, false, residue)).PcOf(t) == EnqReturned(false)
  {
    var pc := s.PcOf(t);
    WrapLoad(s, k, pc.pos);
    assert Wrap(s).PcOf(t) == WrapPc(pc);
    SignedOfLarge(s.IdAt(pc.pos), pc.pos);
  }

  lemma LargeDequeueDiff<T>(s: State<T>, k: nat, t: Tid, residue: T)
    requires s.WellFormed() && 2 <= s.cap == Pow2(k) && k < 64
    requires s.PcOf(t).DeqLoadId? && HALF_WORD <= Diff(s, t) < WORD
    ensures Wrap(s).WellFormed()
    ensures MachineAct(Wrap(s), Access(t, false, residue)).PcOf(t) == DeqReturned(None)
  {
    var pc := s.PcOf(t);
    WrapLoad(s, k, pc.pos);
    assert Wrap(s).PcOf(t) == WrapPc(pc);
    WrapSucc(pc.pos, 1);
    SignedOfLarge(s.IdAt(pc.pos), pc.pos + 1);
  }

  /** On a difference that large the machine returns false where the protocol goes round its loop. */
  lemma LargeDiffReturnsFalse<T>(s: State<T>, k: nat, t: Tid, residue: T)
    requires s.WellFormed() && 2 <= s.cap == Pow2(k) && k < 64
    requires (s.PcOf(t).EnqLoadId? || s.PcOf(t).DeqLoadId?) && HALF_WORD <= Diff(s, t) < WORD
    ensures Wrap(s).WellFormed()
    ensures var l := Access(t, false, residue); var pc, pc' := Act(s, l).PcOf(t), MachineAct(Wrap(s), l).PcOf(t);
            if s.PcOf(t).EnqLoadId? then pc.EnqLoadHead? && pc' == EnqReturned(false)
            else pc.DeqLoadTail? && pc' == DeqReturned(None)
  {
    if s.PcOf(t).EnqLoadId? { LargeEnqueueDiff(s, k, t, residue); } else { LargeDequeueDiff(s, k, t, residue); }
  }

  /** Within one turn of the counters, the `id` load takes the right branch on words if and only if the slot's `id` is
      less than 2^63 ahead of what the thread expects there. */
  lemma BranchRightIff<T>(s: State<T>, k: nat, t: Tid, residue: T)
    requires Inv(s) && s.cap == Pow2(k) && k < 64 && (s.PcOf(t).EnqLoadId? || s.PcOf(t).DeqLoadId?)
    requires (if s.PcOf(t).EnqLoadId? then s.head else s.tail) - s.PcOf(t).pos <= WORD - s.cap
    ensures var l := Access(t, false, residue);
            Wrap(s).WellFormed() && (MachineAct(Wrap(s), l) == Wrap(Act(s, l)) <==> Diff(s, t) < HALF_WORD)
  {
    var l := Access(t, false, residue);
    WrapWellFormed(s, k);
    DiffRange(s, t);
    if Diff(s, t) < HALF_WORD {
      BranchStepWraps(s, k, l);
    } else {
      LargeDiffReturnsFalse(s, k, t, residue);
      assert Wrap(Act(s, l)).PcOf(t) == WrapPc(Act(s, l).PcOf(t));
    }
  }

  // ----- The bound is reached

  lemma {:induction false} RunAppend<T>(s: State<T>, a: seq<Label<T>>, b: seq<Label<T>>)
    requires s.WellFormed()
    ensures Run(s, a + b) == Run(Run(s, a), b)
    decreases |a|
  {
    if a == [] {
      assert a + b == b;
    } else {
      assert (a + b)[1..] == a[1..] + b;
      RunAppend(Act(s, a[0]), a[1..], b);
    }
  }

  /** One step more of a run. */
  lemma Extend<T>(s0: State<T>, s: State<T>, ls: seq<Label<T>>, l: Label<T>) returns (s': State<T>, ls': seq<Label<T>>)
    requires s0.WellFormed() && s == Run(s0, ls)
    ensures s' == Act(s, l) && s' == Run(s0, ls') && s'.WellFormed()
  {
    s', ls' := Act(s, l), ls + [l];
    RunAppend(s0, ls, [l]);
    assert Run(s, [l]) == Act(s, l);
  }

  const WORKER: Tid := 1
  const SLEEPER: Tid := 2

  /** A queue that `n` values have passed through is empty and all its slots are free, while the sleeper still is where
      it fell asleep, with ticket 0. */
  ghost predicate Passed<T>(s: State<T>, n: nat, asleep: Pc<T>) {
    && s.WellFormed() && s.head == s.tail == n && Ready(s.PcOf(WORKER)) && s.PcOf(SLEEPER) == asleep
    && forall p: nat :: n <= p < n + s.cap ==> s.IdAt(p) == p
  }

  /** Two states that differ in the worker's program counter and in what is named. */
  ghost predicate Moved<T>(s: State<T>, s': State<T>, pc: Pc<T>, head: nat, tail: nat, ids: seq<nat>) {
    && s'.WellFormed() && s'.cap == s.cap && s'.head == head && s'.tail == tail && s'.ids == ids
    && s'.PcOf(WORKER) == pc && s'.PcOf(SLEEPER) == s.PcOf(SLEEPER)
  }

  lemma LoadHeadAlone<T>(s: State<T>, v: T, s': State<T>)
    requires s.WellFormed() && Ready(s.PcOf(WORKER))
    requires s' == Act(Act(s, CallEnqueue(WORKER, v)), Access(WORKER, false, v))
    ensures Moved(s, s', EnqLoadId(v, s.head), s.head, s.tail, s.ids)
  {
    var m := s.Goto(WORKER, EnqLoadHead(v));
    assert m == Act(s, CallEnqueue(WORKER, v));
    assert s' == m.Goto(WORKER, EnqLoadId(v, s.head));
  }

  lemma ClaimHeadAlone<T>(s: State<T>, v: T, n: nat, s': State<T>)
    requires s.WellFormed() && s.PcOf(WORKER) == EnqLoadId(v, n) && s.head == n && s.IdAt(n) == n
    requires s' == Act(Act(s, Access(WORKER, false, v)), Access(WORKER, false, v))
    ensures Moved(s, s', EnqWrite(v, n), n + 1, s.tail, s.ids)
  {
    assert Act(s, Access(WORKER, false, v)) == s.Goto(WORKER, EnqCas(v, n));
  }

  lemma PublishAlone<T>(s: State<T>, v: T, n: nat, s': State<T>)
    requires s.WellFormed() && s.PcOf(WORKER) == EnqWrite(v, n)
    requires s' == Act(Act(s, Access(WORKER, false, v)), Access(WORKER, false, v))
    ensures Moved(s, s', EnqReturned(true), s.head, s.tail, s.ids[Slot(n, s.cap) := n + 1])
  {
    var m := Act(s, Access(WORKER, false, v));
    assert m.PcOf(WORKER) == EnqPublish(v, n) && m.ids == s.ids;
  }

  lemma LoadTailAlone<T>(s: State<T>, v: T, s': State<T>)
    requires s.WellFormed() && Ready(s.PcOf(WORKER))
    requires s' == Act(Act(s, CallDequeue(WORKER)), Access(WORKER, false, v))
    ensures Moved(s, s', DeqLoadId(s.tail), s.head, s.tail, s.ids)
  {
    var m := s.Goto(WORKER, DeqLoadTail);
    assert m == Act(s, CallDequeue(WORKER));
    assert s' == m.Goto(WORKER, DeqLoadId(s.tail));
  }

  lemma ClaimTailAlone<T>(s: State<T>, v: T, n: nat, s': State<T>)
    requires s.WellFormed() && s.PcOf(WORKER) == DeqLoadId(n) && s.tail == n && s.IdAt(n) == n + 1
    requires s' == Act(Act(s, Access(WORKER, false, v)), Access(WORKER, false, v))
    ensures Moved(s, s', DeqTake(n), s.head, n + 1, s.ids)
  {
    assert Act(s, Access(WORKER, false, v)) == s.Goto(WORKER, DeqCas(n));
  }

  lemma ReleaseAlone<T>(s: State<T>, v: T, n: nat, s': State<T>)
    requires s.WellFormed() && s.PcOf(WORKER) == DeqTake(n)
    requires s' == Act(Act(s, Access(WORKER, false, v)), Access(WORKER, false, v))
    ensures s'.PcOf(WORKER).DeqReturned?
    ensures Moved(s, s', s'.PcOf(WORKER), s.head, s.tail, s.ids[Slot(n, s.cap) := n + s.cap])
  {
    var m := Act(s, Access(WORKER, false, v));
    assert m.PcOf(WORKER) == DeqRelease(n, s.DataAt(n)) && m.ids == s.ids;
  }

  lemma ExtendTwice<T>(s0: State<T>, s: State<T>, ls: seq<Label<T>>, l: Label<T>, l': Label<T>)
      returns (s': State<T>, ls': seq<Label<T>>)
    requires s0.WellFormed() && s == Run(s0, ls)
    ensures s' == Act(Act(s, l), l') && s' == Run(s0, ls')
  {
    s', ls' := Extend(s0, s, ls, l);
    s', ls' := Extend(s0, s', ls', l');
  }

  /** The worker enqueues on an empty queue. */
  lemma EnqueueAlone<T>(s0: State<T>, s: State<T>, ls: seq<Label<T>>, n: nat, v: T)
      returns (s': State<T>, ls': seq<Label<T>>)
    requires s0.WellFormed() && s == Run(s0, ls) && s.WellFormed() && s.head == n && s.IdAt(n) == n && Ready(s.PcOf(WORKER))
    ensures s' == Run(s0, ls') && Moved(s, s', EnqReturned(true), n + 1, s.tail, s.ids[Slot(n, s.cap) := n + 1])
  {
    var a := Access(WORKER, false, v);
    var s1, l1 := ExtendTwice(s0, s, ls, CallEnqueue(WORKER, v), a);
    LoadHeadAlone(s, v, s1);
    var s2, l2 := ExtendTwice(s0, s1, l1, a, a);
    ClaimHeadAlone(s1, v, n, s2);
    s', ls' := ExtendTwice(s0, s2, l2, a, a);
    PublishAlone(s2, v, n, s');
  }

  lemma ReachTail<T>(s0: State<T>, s: State<T>, ls: seq<Label<T>>, n: nat, v: T)
      returns (s': State<T>, ls': seq<Label<T>>)
    requires s0.WellFormed() && s == Run(s0, ls) && s.WellFormed() && s.tail == n && s.IdAt(n) == n + 1 && Ready(s.PcOf(WORKER))
    ensures s' == Run(s0, ls') && Moved(s, s', DeqTake(n), s.head, n + 1, s.ids)
  {
    var a := Access(WORKER, false, v);
    var s1, l1 := ExtendTwice(s0, s, ls, CallDequeue(WORKER), a);
    LoadTailAlone(s, v, s1);
    s', ls' := ExtendTwice(s0, s1, l1, a, a);
    ClaimTailAlone(s1, v, n, s');
  }

  lemma ReleaseTail<T>(s0: State<T>, s: State<T>, ls: seq<Label<T>>, n: nat, v: T)
      returns (s': State<T>, ls': seq<Label<T>>)
    requires s0.WellFormed() && s == Run(s0, ls) && s.WellFormed() && s.PcOf(WORKER) == DeqTake(n)
    ensures s' == Run(s0, ls') && s'.PcOf(WORKER).DeqReturned?
    ensures Moved(s, s', s'.PcOf(WORKER), s.head, s.tail, s.ids[Slot(n, s.cap) := n + s.cap])
  {
    s', ls' := ExtendTwice(s0, s, ls, Access(WORKER, false, v), Access(WORKER, false, v));
    ReleaseAlone(s, v, n, s');
  }

  /** The worker takes the value out again. */
  lemma DequeueAlone<T>(s0: State<T>, s: State<T>, ls: seq<Label<T>>, n: nat, v: T)
      returns (s': State<T>, ls': seq<Label<T>>)
    requires s0.WellFormed() && s == Run(s0, ls) && s.WellFormed() && s.tail == n && s.IdAt(n) == n + 1 && Ready(s.PcOf(WORKER))
    ensures s' == Run(s0, ls') && s'.PcOf(WORKER).DeqReturned?
    ensures Moved(s, s', s'.PcOf(WORKER), s.head, n + 1, s.ids[Slot(n, s.cap) := n + s.cap])
  {
    var s1, l1 := ReachTail(s0, s, ls, n, v);
    s', ls' := ReleaseTail(s0, s1, l1, n, v);
  }

  /** The slot that a value has passed through is free for the ticket one round later. */
  lemma FreedSlot<T>(s: State<T>, s': State<T>, n: nat)
    requires s.WellFormed() && s'.WellFormed() && s'.cap == s.cap
    requires s'.ids == s.ids[Slot(n, s.cap) := n + 1][Slot(n, s.cap) := n + s.cap]
    requires forall p: nat :: n <= p < n + s.cap ==> s.IdAt(p) == p
    ensures forall p: nat :: n + 1 <= p < n + 1 + s.cap ==> s'.IdAt(p) == p
  {
    OtherSlots(n, s.cap);
    assert Slot(n + s.cap, s.cap) == Slot(n, s.cap);
    forall p: nat | n + 1 <= p < n + 1 + s.cap ensures s'.IdAt(p) == p {
      if p < n + s.cap { assert s.IdAt(p) == p; }
    }
  }

  /** One value passes through. */
  lemma PassOne<T>(s0: State<T>, s: State<T>, ls: seq<Label<T>>, n: nat, v: T, asleep: Pc<T>)
      returns (s': State<T>, ls': seq<Label<T>>)
    requires s0.WellFormed() && s == Run(s0, ls) && Passed(s, n, asleep)
    ensures s' == Run(s0, ls') && s'.cap == s.cap && Passed(s', n + 1, asleep)
  {
    assert s.IdAt(n) == n;
    var m, lm := EnqueueAlone(s0, s, ls, n, v);
    s', ls' := DequeueAlone(s0, m, lm, n, v);
    FreedSlot(s, s', n);
  }

  /** The first two steps of a call by the sleeper, `enqueue` or `dequeue`. */
  lemma FallAsleep<T>(cap: nat, v: T, call: Label<T>) returns (s: State<T>, ls: seq<Label<T>>)
    requires 2 <= cap && (call == CallEnqueue(SLEEPER, v) || call == CallDequeue(SLEEPER))
    ensures s == Run(Init(cap, v), ls) && s.cap == cap
    ensures Passed(s, 0, if call.CallEnqueue? then EnqLoadId(v, 0) else DeqLoadId(0))
  {
    var s0 := Init(cap, v);
    s, ls := Extend(s0, s0, [], call);
    s, ls := Extend(s0, s, ls, Access(SLEEPER, false, v));
    forall p: nat | p < cap ensures s.IdAt(p) == p { assert Slot(p, cap) == p; }
  }

  lemma {:induction false} PassMany<T>(cap: nat, n: nat, v: T, call: Label<T>) returns (s: State<T>, ls: seq<Label<T>>)
    requires 2 <= cap && (call == CallEnqueue(SLEEPER, v) || call == CallDequeue(SLEEPER))
    ensures s == Run(Init(cap, v), ls) && s.cap == cap
    ensures Passed(s, n, if call.CallEnqueue? then EnqLoadId(v, 0) else DeqLoadId(0))
    decreases n
  {
    if n == 0 {
      s, ls := FallAsleep(cap, v, call);
    } else {
      s, ls := PassMany(cap, n - 1, v, call);
      s, ls := PassOne(Init(cap, v), s, ls, n - 1, v, if call.CallEnqueue? then EnqLoadId(v, 0) else DeqLoadId(0));
    }
  }

  /** After `n` values have passed through, `i` more are in the queue. */
  ghost predicate Filled<T>(s: State<T>, n: nat, i: nat, asleep: Pc<T>) {
    && s.WellFormed() && s.tail == n && s.head == n + i && Ready(s.PcOf(WORKER)) && s.PcOf(SLEEPER) == asleep
    && (forall p: nat :: n <= p < n + i ==> s.IdAt(p) == p + 1)
    && (forall p: nat :: n + i <= p < n + s.cap ==> s.IdAt(p) == p)
  }

  /** The state after one value more, given what changed. */
  lemma FilledOneMore<T>(s: State<T>, s': State<T>, n: nat, i: nat, asleep: Pc<T>)
    requires Filled(s, n, i, asleep) && i < s.cap
    requires Moved(s, s', EnqReturned(true), n + i + 1, n, s.ids[Slot(n + i, s.cap) := n + i + 1])
    ensures Filled(s', n, i + 1, asleep)
  {
    OtherSlots(n + i, s.cap);
    forall p: nat | n <= p < n + s.cap ensures s'.IdAt(p) == if p <= n + i then p + 1 else p {
      if p != n + i { assert s'.IdAt(p) == s.IdAt(p); }
    }
  }

  lemma FillOne<T>(s0: State<T>, s: State<T>, ls: seq<Label<T>>, n: nat, i: nat, v: T, asleep: Pc<T>)
      returns (s': State<T>, ls': seq<Label<T>>)
    requires s0.WellFormed() && s == Run(s0, ls) && Filled(s, n, i, asleep) && i < s.cap
    ensures s' == Run(s0, ls') && s'.cap == s.cap && Filled(s', n, i + 1, asleep)
  {
    assert s.IdAt(n + i) == n + i;
    s', ls' := EnqueueAlone(s0, s, ls, n + i, v);
    FilledOneMore(s, s', n, i, asleep);
  }

  lemma {:induction false} Fill<T>(s0: State<T>, s: State<T>, ls: seq<Label<T>>, n: nat, i: nat, v: T, asleep: Pc<T>)
      returns (s': State<T>, ls': seq<Label<T>>)
    requires s0.WellFormed() && s == Run(s0, ls) && Passed(s, n, asleep) && i <= s.cap
    ensures s' == Run(s0, ls') && s'.cap == s.cap && Filled(s', n, i, asleep)
    decreases i
  {
    if i == 0 { return s, ls; }
    var m, lm := Fill(s0, s, ls, n, i - 1, v, asleep);
    s', ls' := FillOne(s0, m, lm, n, i - 1, v, asleep);
  }

  /** The slot of ticket 2^63 is the slot of ticket 0. */
  lemma HalfWordSlot(k: nat)
    requires 0 < k < 64
    ensures 2 <= Pow2(k) <= HALF_WORD && Slot(HALF_WORD, Pow2(k)) == Slot(0, Pow2(k))
  {
    WordIsPow2();
    Pow2Add(63 - k, k);
    assert Pow2(k) == 2 * Pow2(k - 1);
    SlotIsRemainder(HALF_WORD, Pow2(k));
    DivUnique(HALF_WORD, Pow2(63 - k), 0, Pow2(k));
    NonNegativeProduct(Pow2(63 - k), Pow2(k));
  }

  lemma NonNegativeProduct(a: nat, b: nat)
    requires a > 0
    ensures b <= a * b
  {
    assert a * b == b + (a - 1) * b;
  }

  /** No weaker bound will do.  For every capacity there is a run after which a thread in the retry loop of `enqueue`
      is just one claim older than `QueueWrap.LagOk` allows, and the machine returns false from a queue that is empty,
      where the protocol reloads `head`. */
  lemma LagBoundTight<T>(k: nat, v: T) returns (s: State<T>, ls: seq<Label<T>>)
    requires 0 < k < 64
    ensures s == Run(Init(Pow2(k), v), ls) && Pow2(k) >= 2
    ensures s.head == s.tail == HALF_WORD - s.cap + 1 && s.PcOf(SLEEPER) == EnqLoadId(v, 0) && s.cap == Pow2(k)
    ensures var l := Access(SLEEPER, false, v);
            && Act(s, l).PcOf(SLEEPER) == EnqLoadHead(v)
            && Wrap(s).WellFormed() && MachineAct(Wrap(s), l).PcOf(SLEEPER) == EnqReturned(false)
  {
    HalfWordSlot(k);
    s, ls := PassMany(Pow2(k), HALF_WORD - Pow2(k) + 1, v, CallEnqueue(SLEEPER, v));
    assert s.IdAt(HALF_WORD) == HALF_WORD;
    assert s.IdAt(0) == s.IdAt(HALF_WORD);
    LargeDiffReturnsFalse(s, k, SLEEPER, v);
  }

  /** The same for `dequeue`: as old a ticket makes it return false from a queue that is full, where the protocol
      reloads `tail`. */
  lemma DequeueLagBoundTight<T>(k: nat, v: T) returns (s: State<T>, ls: seq<Label<T>>)
    requires 0 < k < 64
    ensures s == Run(Init(Pow2(k), v), ls) && Pow2(k) >= 2
    ensures s.tail == HALF_WORD - s.cap + 1 && s.head == s.tail + s.cap && s.PcOf(SLEEPER) == DeqLoadId(0) && s.cap == Pow2(k)
    ensures var l := Access(SLEEPER, false, v);
            && Act(s, l).PcOf(SLEEPER) == DeqLoadTail
            && Wrap(s).WellFormed() && MachineAct(Wrap(s), l).PcOf(SLEEPER) == DeqReturned(None)
  {
    HalfWordSlot(k);
    var s0, n := Init(Pow2(k), v), HALF_WORD - Pow2(k) + 1;
    s, ls := PassMany(Pow2(k), n, v, CallDequeue(SLEEPER));
    s, ls := Fill(s0, s, ls, n, Pow2(k), v, DeqLoadId(0));
    assert s.IdAt(HALF_WORD) == HALF_WORD + 1;
    assert s.IdAt(0) == s.IdAt(HALF_WORD);
    LargeDiffReturnsFalse(s, k, SLEEPER, v);
  }
}
