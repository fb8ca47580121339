/** The queue as the machine runs it: `head`, `tail`, every `id` and every local `pos` are 64-bit words, slots are
    found by masking, and `diff` is a signed reinterpretation of a wrapped difference. */
module QueueWrap {
  import opened Wrappers
  import opened Bits
  import opened QueueProtocol
  import opened QueueInvariant
  import opened QueueTheorems

  datatype Machine<T> = Machine(
    capacity: nat, mask: nat, head: nat, tail: nat, ids: seq<nat>, data: seq<T>, threads: map<Tid, Pc<T>>)
  {
    ghost predicate WellFormed() {
      && 2 <= capacity < WORD && mask == capacity - 1 && |ids| == |data| == capacity
      && (forall p: nat {:trigger BitAnd(p, mask)} :: BitAnd(p, mask) < capacity)
    }

    function PcOf(t: Tid): Pc<T> { if t in threads then threads[t] else Idle }

    function Goto(t: Tid, pc: Pc<T>): Machine<T> { this.(threads := threads[t := pc]) }
  }

  function MachineAct<T>(m: Machine<T>, l: Label<T>): (m': Machine<T>)
    requires m.WellFormed()
    ensures m'.WellFormed()
  {
    match l
    case CallEnqueue(t, v) => if Ready(m.PcOf(t)) then m.Goto(t, EnqLoadHead(v)) else m
    case CallDequeue(t) => if Ready(m.PcOf(t)) then m.Goto(t, DeqLoadTail) else m
    case Access(t, spurious, residue) =>
      match m.PcOf(t)
      case EnqLoadHead(v) => m.Goto(t, EnqLoadId(v, m.head))
      case EnqLoadId(v, pos) =>
        var diff := Signed(Sub(m.ids[BitAnd(pos, m.mask)], pos));
        m.Goto(t, if diff == 0 then EnqCas(v, pos) else if diff < 0 then EnqReturned(false) else EnqLoadHead(v))
      case EnqCas(v, pos) =>
        if m.head == pos && !spurious then m.Goto(t, EnqWrite(v, pos)).(head := (pos + 1) % WORD)
        else m.Goto(t, EnqLoadId(v, m.head))
      case EnqWrite(v, pos) => m.Goto(t, EnqPublish(v, pos)).(data := m.data[BitAnd(pos, m.mask) := v])
      case EnqPublish(v, pos) =>
        m.Goto(t, EnqReturned(true)).(ids := m.ids[BitAnd(pos, m.mask) := (pos + 1) % WORD])
      case DeqLoadTail => m.Goto(t, DeqLoadId(m.tail))
      case DeqLoadId(pos) =>
        var diff := Signed(Sub(m.ids[BitAnd(pos, m.mask)], (pos + 1) % WORD));
        m.Goto(t, if diff == 0 then DeqCas(pos) else if diff < 0 then DeqReturned(None) else DeqLoadTail)
      case DeqCas(pos) =>
        if m.tail == pos && !spurious then m.Goto(t, DeqTake(pos)).(tail := (pos + 1) % WORD)
        else m.Goto(t, DeqLoadId(m.tail))
      case DeqTake(pos) =>
        m.Goto(t, DeqRelease(pos, m.data[BitAnd(pos, m.mask)])).(data := m.data[BitAnd(pos, m.mask) := residue])
      case DeqRelease(pos, w) =>
        m.Goto(t, DeqReturned(Some((pos, w)))).(ids := m.ids[BitAnd(pos, m.mask) := (pos + m.mask + 1) % WORD])
      case _ => m
  }

  function MachineRun<T>(m: Machine<T>, ls: seq<Label<T>>): (m': Machine<T>)
    requires m.WellFormed()
    ensures m'.WellFormed()
    decreases |ls|
  {
    if ls == [] then m else MachineRun(MachineAct(m, ls[0]), ls[1..])
  }

  /** The constructor's test on its argument. */
  predicate CapacityAccepted(capacity: nat) { !(capacity < 2 || BitAnd(capacity, capacity - 1) != 0) }

  /** It accepts exactly the powers of two from two on. */
  lemma CapacityAcceptedIff(capacity: nat)
    ensures CapacityAccepted(capacity) <==> capacity >= 2 && IsPow2(capacity)
  {
    if capacity >= 2 { PowerOfTwoTest(capacity); }
  }

  function WrapPc<T>(pc: Pc<T>): Pc<T> {
    match pc
    case EnqLoadId(v, pos) => EnqLoadId(v, pos % WORD)
    case EnqCas(v, pos) => EnqCas(v, pos % WORD)
    case EnqWrite(v, pos) => EnqWrite(v, pos % WORD)
    case EnqPublish(v, pos) => EnqPublish(v, pos % WORD)
    case DeqLoadId(pos) => DeqLoadId(pos % WORD)
    case DeqCas(pos) => DeqCas(pos % WORD)
    case DeqTake(pos) => DeqTake(pos % WORD)
    case DeqRelease(pos, w) => DeqRelease(pos % WORD, w)
    case DeqReturned(Some((pos, w))) => DeqReturned(Some((pos % WORD, w)))
    case _ => pc
  }

  /** The machine's view of an unbounded state: every counter modulo 2^64, history forgotten. */
  function Wrap<T>(s: State<T>): Machine<T> {
    Machine(s.cap, if s.cap > 0 then s.cap - 1 else 0, s.head % WORD, s.tail % WORD,
            seq(|s.ids|, i requires 0 <= i < |s.ids| => s.ids[i] % WORD), s.data,
            map t | t in s.threads :: WrapPc(s.threads[t]))
  }

  /** No thread in a retry loop works with a ticket that is nearly 2^63 claims old. */
  ghost predicate LagOk<T>(s: State<T>) {
    forall t: Tid ::
      match s.PcOf(t)
      case EnqLoadId(_, pos) => s.head - pos <= HALF_WORD - s.cap
      case EnqCas(_, pos) => s.head - pos <= HALF_WORD - s.cap
      case DeqLoadId(pos) => s.tail - pos <= HALF_WORD - s.cap
      case DeqCas(pos) => s.tail - pos <= HALF_WORD - s.cap
      case _ => true
  }

  ghost predicate LagOkAlong<T>(s: State<T>, ls: seq<Label<T>>)
    requires s.WellFormed()
    decreases |ls|
  {
    LagOk(s) && (ls == [] || LagOkAlong(Act(s, ls[0]), ls[1..]))
  }

  /** The slot of a ticket is its remainder by the capacity. */
  lemma {:induction false} SlotIsRemainder(p: nat, cap: nat)
    requires 0 < cap
    ensures Slot(p, cap) == p % cap
    decreases p
  {
    if p >= cap {
      SlotIsRemainder(p - cap, cap);
      assert p % cap == (p - cap) % cap by {
        var q, r := (p - cap) / cap, (p - cap) % cap;
        assert p == (q + 1) * cap + r;
        DivUnique(p, q + 1, r, cap);
      }
    }
  }

  lemma SlotByMask(k: nat, p: nat)
    requires k < 64
    ensures BitAnd(p % WORD, Pow2(k) - 1) == Slot(p, Pow2(k))
  {
    MaskOfWrapped(p, k);
    SlotIsRemainder(p, Pow2(k));
  }

  lemma WrapWellFormed<T>(s: State<T>, k: nat)
    requires s.WellFormed() && 2 <= s.cap == Pow2(k) && k < 64
    ensures Wrap(s).WellFormed() && s.cap <= HALF_WORD
  {
    WordIsPow2();
    Pow2Add(k, 64 - k);
    assert Pow2(64 - k) >= 2;
    assert s.cap * 2 <= WORD;
    forall p: nat {:trigger BitAnd(p, s.cap - 1)} ensures BitAnd(p, s.cap - 1) < s.cap { BitAndMask(p, k); }
  }

  /** Above: the `id` in a slot is less than `cap` ahead of `head`.  Below: see `SpentSlot`. */
  lemma {:induction false} IdRange<T>(s: State<T>, p: nat)
    requires Inv(s) && p < s.tail + s.cap
    ensures p - s.cap < s.IdAt(p) <= s.tail + s.cap && s.IdAt(p) < s.head + s.cap
    decreases s.tail + s.cap - p
  {
    if p < s.tail {
      assert Slot(p + s.cap, s.cap) == Slot(p, s.cap);
      IdRange(s, p + s.cap);
      SpentSlot(s, p);
    } else if p < s.head {
      assert FilledSlot(s, p);
    } else {
      assert FreeSlot(s, p);
    }
  }

  /** Masking finds the slot, and the slot holds the wrapped `id`. */
  lemma WrapLoad<T>(s: State<T>, k: nat, pos: nat)
    requires s.WellFormed() && 2 <= s.cap == Pow2(k) && k < 64
    ensures Wrap(s).WellFormed() && Wrap(s).ids[BitAnd(pos % WORD, Wrap(s).mask)] == s.IdAt(pos) % WORD
  {
    WrapWellFormed(s, k);
    SlotByMask(k, pos);
  }

  /** How far a slot's `id` can be from the ticket a thread looks it up for. */
  lemma EnqueueIdRange<T>(s: State<T>, v: T, pos: nat, t: Tid)
    requires Inv(s) && s.PcOf(t) == EnqLoadId(v, pos)
    ensures pos <= s.head && 0 - s.cap <= s.IdAt(pos) - pos < s.head - pos + s.cap
  {
    assert ThreadOk(s, t, s.PcOf(t));
    if pos == s.tail + s.cap {
      assert Slot(s.tail + s.cap, s.cap) == Slot(s.tail, s.cap);
      assert FilledSlot(s, s.tail);
    } else {
      IdRange(s, pos);
    }
  }

  lemma DequeueIdRange<T>(s: State<T>, pos: nat, t: Tid)
    requires Inv(s) && s.PcOf(t) == DeqLoadId(pos)
    ensures pos <= s.tail && 0 - s.cap <= s.IdAt(pos) - (pos + 1) < s.tail - pos + s.cap
  {
    assert ThreadOk(s, t, s.PcOf(t));
    IdRange(s, pos);
  }

  lemma EnqueueBranch<T>(s: State<T>, k: nat, pos: nat)
    requires s.WellFormed() && 2 <= s.cap == Pow2(k) && k < 64 && -HALF_WORD <= s.IdAt(pos) - pos < HALF_WORD
    ensures Wrap(s).WellFormed()
    ensures Signed(Sub(Wrap(s).ids[BitAnd(pos % WORD, Wrap(s).mask)], pos % WORD)) == s.IdAt(pos) - pos
  {
    WrapLoad(s, k, pos);
    SignedDifference(s.IdAt(pos), pos);
  }

  lemma DequeueBranch<T>(s: State<T>, k: nat, pos: nat)
    requires s.WellFormed() && 2 <= s.cap == Pow2(k) && k < 64 && -HALF_WORD <= s.IdAt(pos) - (pos + 1) < HALF_WORD
    ensures Wrap(s).WellFormed()
    ensures Signed(Sub(Wrap(s).ids[BitAnd(pos % WORD, Wrap(s).mask)], (pos % WORD + 1) % WORD)) == s.IdAt(pos) - (pos + 1)
  {
    WrapLoad(s, k, pos);
    WrapSucc(pos, 1);
    SignedDifference(s.IdAt(pos), pos + 1);
  }

  lemma WrapGoto<T>(s: State<T>, t: Tid, pc: Pc<T>)
    requires s.WellFormed()
    ensures Wrap(s.Goto(t, pc)) == Wrap(s).Goto(t, WrapPc(pc))
  {
    assert Wrap(s.Goto(t, pc)).threads == Wrap(s).threads[t := WrapPc(pc)];
  }

  lemma WrapPcOf<T>(s: State<T>, t: Tid)
    ensures Wrap(s).PcOf(t) == WrapPc(s.PcOf(t))
  {
  }

  // The steps that touch a counter or a slot.

  lemma EnqueueCasWraps<T>(s: State<T>, k: nat, l: Label<T>)
    requires s.WellFormed() && s.cap == Pow2(k) && 2 <= s.cap && k < 64 && l.Access?
    requires s.PcOf(l.t).EnqCas? && s.PcOf(l.t).pos <= s.head < s.PcOf(l.t).pos + WORD
    ensures Wrap(s).WellFormed() && MachineAct(Wrap(s), l) == Wrap(Act(s, l))
  {
    WrapWellFormed(s, k);
    WrapGoto(s, l.t, Act(s, l).PcOf(l.t));
    WrapPcOf(s, l.t);
    WrapEqual(s.head, s.PcOf(l.t).pos);
    WrapSucc(s.PcOf(l.t).pos, 1);
  }

  lemma EnqueueWriteWraps<T>(s: State<T>, k: nat, l: Label<T>)
    requires s.WellFormed() && s.cap == Pow2(k) && 2 <= s.cap && k < 64 && l.Access? && s.PcOf(l.t).EnqWrite?
    ensures Wrap(s).WellFormed() && MachineAct(Wrap(s), l) == Wrap(Act(s, l))
  {
    WrapWellFormed(s, k);
    WrapGoto(s, l.t, Act(s, l).PcOf(l.t));
    WrapPcOf(s, l.t);
    SlotByMask(k, s.PcOf(l.t).pos);
  }

  /** Storing an `id` and moving on commutes with wrapping. */
  lemma WrapStored<T>(s: State<T>, t: Tid, pc: Pc<T>, slot: nat, id: nat)
    requires s.WellFormed() && slot < s.cap
    ensures Wrap(s.Goto(t, pc).(ids := s.ids[slot := id]))
            == Wrap(s).Goto(t, WrapPc(pc)).(ids := Wrap(s).ids[slot := id % WORD])
  {
    WrapGoto(s, t, pc);
    assert Wrap(s.Goto(t, pc).(ids := s.ids[slot := id])).ids == Wrap(s).ids[slot := id % WORD];
  }

  lemma MachinePublishes<T>(m: Machine<T>, l: Label<T>, v: T, pos: nat, slot: nat, id: nat)
    requires m.WellFormed() && l.Access? && m.PcOf(l.t) == EnqPublish(v, pos)
    requires BitAnd(pos, m.mask) == slot < |m.ids| && (pos + 1) % WORD == id
    ensures MachineAct(m, l) == m.Goto(l.t, EnqReturned(true)).(ids := m.ids[slot := id])
  {
  }

  lemma MachineReleases<T>(m: Machine<T>, l: Label<T>, w: T, pos: nat, slot: nat, id: nat)
    requires m.WellFormed() && l.Access? && m.PcOf(l.t) == DeqRelease(pos, w)
    requires BitAnd(pos, m.mask) == slot < |m.ids| && (pos + m.mask + 1) % WORD == id
    ensures MachineAct(m, l) == m.Goto(l.t, DeqReturned(Some((pos, w)))).(ids := m.ids[slot := id])
  {
  }

  lemma EnqueuePublishWraps<T>(s: State<T>, k: nat, l: Label<T>)
    requires s.WellFormed() && s.cap == Pow2(k) && 2 <= s.cap && k < 64 && l.Access? && s.PcOf(l.t).EnqPublish?
    ensures Wrap(s).WellFormed() && MachineAct(Wrap(s), l) == Wrap(Act(s, l))
  {
    WrapWellFormed(s, k);
    WrapPcOf(s, l.t);
    var pos, slot := s.PcOf(l.t).pos, Slot(s.PcOf(l.t).pos, s.cap);
    SlotByMask(k, pos);
    WrapSucc(pos, 1);
    MachinePublishes(Wrap(s), l, s.PcOf(l.t).v, pos % WORD, slot, (pos + 1) % WORD);
    WrapStored(s, l.t, EnqReturned(true), slot, pos + 1);
  }

  lemma DequeueCasWraps<T>(s: State<T>, k: nat, l: Label<T>)
    requires s.WellFormed() && s.cap == Pow2(k) && 2 <= s.cap && k < 64 && l.Access?
    requires s.PcOf(l.t).DeqCas? && s.PcOf(l.t).pos <= s.tail < s.PcOf(l.t).pos + WORD
    ensures Wrap(s).WellFormed() && MachineAct(Wrap(s), l) == Wrap(Act(s, l))
  {
    WrapWellFormed(s, k);
    WrapGoto(s, l.t, Act(s, l).PcOf(l.t));
    WrapPcOf(s, l.t);
    WrapEqual(s.tail, s.PcOf(l.t).pos);
    WrapSucc(s.PcOf(l.t).pos, 1);
  }

  lemma DequeueTakeWraps<T>(s: State<T>, k: nat, l: Label<T>)
    requires s.WellFormed() && s.cap == Pow2(k) && 2 <= s.cap && k < 64 && l.Access? && s.PcOf(l.t).DeqTake?
    ensures Wrap(s).WellFormed() && MachineAct(Wrap(s), l) == Wrap(Act(s, l))
  {
    WrapWellFormed(s, k);
    WrapGoto(s, l.t, Act(s, l).PcOf(l.t));
    WrapPcOf(s, l.t);
    SlotByMask(k, s.PcOf(l.t).pos);
  }

  lemma DequeueReleaseWraps<T>(s: State<T>, k: nat, l: Label<T>)
    requires s.WellFormed() && s.cap == Pow2(k) && 2 <= s.cap && k < 64 && l.Access? && s.PcOf(l.t).DeqRelease?
    ensures Wrap(s).WellFormed() && MachineAct(Wrap(s), l) == Wrap(Act(s, l))
  {
    WrapWellFormed(s, k);
    WrapPcOf(s, l.t);
    var pos, w, slot := s.PcOf(l.t).pos, s.PcOf(l.t).w, Slot(s.PcOf(l.t).pos, s.cap);
    SlotByMask(k, pos);
    WrapSucc(pos, s.cap);
    MachineReleases(Wrap(s), l, w, pos % WORD, slot, (pos + s.cap) % WORD);
    WrapStored(s, l.t, DeqReturned(Some((pos, w))), slot, pos + s.cap);
  }

  /** Calls, returns and loads: only a program counter changes, and it changes alike. */
  lemma LocalStepWraps<T>(s: State<T>, l: Label<T>, pc: Pc<T>)
    requires s.WellFormed() && Wrap(s).WellFormed()
    requires Act(s, l) == s.Goto(l.t, pc) && MachineAct(Wrap(s), l) == Wrap(s).Goto(l.t, WrapPc(pc))
    ensures MachineAct(Wrap(s), l) == Wrap(Act(s, l))
  {
    WrapGoto(s, l.t, pc);
  }

  lemma CallStepWraps<T>(s: State<T>, k: nat, l: Label<T>)
    requires s.WellFormed() && 2 <= s.cap == Pow2(k) && k < 64
    requires !l.Access? || (var pc := s.PcOf(l.t); Ready(pc) || pc.EnqLoadHead? || pc.DeqLoadTail?)
    ensures Wrap(s).WellFormed() && MachineAct(Wrap(s), l) == Wrap(Act(s, l))
  {
    WrapWellFormed(s, k);
    WrapPcOf(s, l.t);
    if Act(s, l) != s { LocalStepWraps(s, l, Act(s, l).PcOf(l.t)); }
  }

  /** What a thread at an `id` load compares: the slot's `id`, less what it expects there. */
  ghost function Diff<T>(s: State<T>, t: Tid): int
    requires s.WellFormed() && (s.PcOf(t).EnqLoadId? || s.PcOf(t).DeqLoadId?)
  {
    var pc := s.PcOf(t);
    s.IdAt(pc.pos) - if pc.EnqLoadId? then pc.pos else pc.pos + 1
  }

  /** A machine that computes the same difference takes the same branch. */
  lemma EnqueueSameBranch<T>(s: State<T>, m: Machine<T>, l: Label<T>, v: T, pos: nat)
    requires s.WellFormed() && m.WellFormed() && l.Access?
    requires s.PcOf(l.t) == EnqLoadId(v, pos) && m.PcOf(l.t) == EnqLoadId(v, pos % WORD)
    requires Signed(Sub(m.ids[BitAnd(pos % WORD, m.mask)], pos % WORD)) == s.IdAt(pos) - pos
    ensures Act(s, l) == s.Goto(l.t, Act(s, l).PcOf(l.t))
    ensures MachineAct(m, l) == m.Goto(l.t, WrapPc(Act(s, l).PcOf(l.t)))
  {
  }

  lemma DequeueSameBranch<T>(s: State<T>, m: Machine<T>, l: Label<T>, pos: nat)
    requires s.WellFormed() && m.WellFormed() && l.Access?
    requires s.PcOf(l.t) == DeqLoadId(pos) && m.PcOf(l.t) == DeqLoadId(pos % WORD)
    requires Signed(Sub(m.ids[BitAnd(pos % WORD, m.mask)], (pos % WORD + 1) % WORD)) == s.IdAt(pos) - (pos + 1)
    ensures Act(s, l) == s.Goto(l.t, Act(s, l).PcOf(l.t))
    ensures MachineAct(m, l) == m.Goto(l.t, WrapPc(Act(s, l).PcOf(l.t)))
  {
  }

  lemma BranchStepWraps<T>(s: State<T>, k: nat, l: Label<T>)
    requires s.WellFormed() && 2 <= s.cap == Pow2(k) && k < 64 && l.Access?
    requires (s.PcOf(l.t).EnqLoadId? || s.PcOf(l.t).DeqLoadId?) && -HALF_WORD <= Diff(s, l.t) < HALF_WORD
    ensures Wrap(s).WellFormed() && MachineAct(Wrap(s), l) == Wrap(Act(s, l))
  {
    var pc := s.PcOf(l.t);
    WrapPcOf(s, l.t);
    if pc.EnqLoadId? {
      EnqueueBranch(s, k, pc.pos);
      EnqueueSameBranch(s, Wrap(s), l, pc.v, pc.pos);
    } else {
      DequeueBranch(s, k, pc.pos);
      DequeueSameBranch(s, Wrap(s), l, pc.pos);
    }
    LocalStepWraps(s, l, Act(s, l).PcOf(l.t));
  }

  lemma DiffRange<T>(s: State<T>, t: Tid)
    requires Inv(s) && (s.PcOf(t).EnqLoadId? || s.PcOf(t).DeqLoadId?)
    ensures var pc := s.PcOf(t); var newest := if pc.EnqLoadId? then s.head else s.tail;
            pc.pos <= newest && 0 - s.cap <= Diff(s, t) < newest - pc.pos + s.cap
  {
    var pc := s.PcOf(t);
    if pc.EnqLoadId? { EnqueueIdRange(s, pc.v, pc.pos, t); } else { DequeueIdRange(s, pc.pos, t); }
  }

  /** A machine step on wrapped counters takes the same branch, touches the same slot and stores the same values. */
  lemma StepWraps<T>(s: State<T>, k: nat, l: Label<T>)
    requires Inv(s) && s.cap == Pow2(k) && k < 64 && LagOk(s)
    ensures Wrap(s).WellFormed() && MachineAct(Wrap(s), l) == Wrap(Act(s, l))
  {
    var pc := s.PcOf(l.t);
    assert ThreadOk(s, l.t, pc);
    if !l.Access? || Ready(pc) || pc.EnqLoadHead? || pc.DeqLoadTail? {
      CallStepWraps(s, k, l);
    } else if pc.EnqLoadId? || pc.DeqLoadId? {
      WrapWellFormed(s, k);
      DiffRange(s, l.t);
      BranchStepWraps(s, k, l);
    } else if pc.EnqCas? {
      EnqueueCasWraps(s, k, l);
    } else if pc.EnqWrite? {
      EnqueueWriteWraps(s, k, l);
    } else if pc.EnqPublish? {
      EnqueuePublishWraps(s, k, l);
    } else if pc.DeqCas? {
      DequeueCasWraps(s, k, l);
    } else if pc.DeqTake? {
      DequeueTakeWraps(s, k, l);
    } else {
      DequeueReleaseWraps(s, k, l);
    }
  }

  /** So the machine refines the unbounded protocol along every run in which no in-flight ticket gets that old. */
  lemma {:induction false} RunWraps<T>(s: State<T>, k: nat, ls: seq<Label<T>>)
    requires Inv(s) && s.cap == Pow2(k) && k < 64 && LagOkAlong(s, ls)
    ensures Wrap(s).WellFormed() && MachineRun(Wrap(s), ls) == Wrap(Run(s, ls))
    decreases |ls|
  {
    WrapWellFormed(s, k);
    if ls != [] {
      StepWraps(s, k, ls[0]);
      StepInv(s, ls[0]);
      RunWraps(Act(s, ls[0]), k, ls[1..]);
    }
  }
}
