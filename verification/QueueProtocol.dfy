/** The ticket protocol of the multi-producer multi-consumer queue, as a transition system.

    A state holds the shared memory of one queue (`head`, `tail`, and per slot an `id` and a `data` field)
    together with the program counter and locals of every thread.  One transition is one atomic access:
    a load, a compare-and-swap, a data move or a store.  Counters are unbounded here; `QueueWrap` relates
    them to the 64-bit counters of the program. */
module QueueProtocol {
  import opened Wrappers

  type Tid = nat

  /** Where a thread stands inside `enqueue` or `dequeue`, with the locals that are live there. */
  datatype Pc<T> =
    | Idle
    | EnqLoadHead(v: T)
    | EnqLoadId(v: T, pos: nat)
    | EnqCas(v: T, pos: nat)
    | EnqWrite(v: T, pos: nat)
    | EnqPublish(v: T, pos: nat)
    | EnqReturned(ok: bool)
    | DeqLoadTail
    | DeqLoadId(pos: nat)
    | DeqCas(pos: nat)
    | DeqTake(pos: nat)
    | DeqRelease(pos: nat, w: T)
    | DeqReturned(got: Option<(nat, T)>)

  /** The last four fields are history, which no transition reads: the value accepted under each head ticket
      and the thread that claimed it, in ticket order; the thread that claimed each tail ticket; and the value
      moved out under each tail ticket so far. */
  datatype State<T> = State(
    cap: nat, head: nat, tail: nat, ids: seq<nat>, data: seq<T>,
    threads: map<Tid, Pc<T>>,
    accepted: seq<T>, enqBy: seq<Tid>, deqBy: seq<Tid>, taken: map<nat, T>)
  {
    ghost predicate WellFormed() { 0 < cap && |ids| == cap && |data| == cap }

    function PcOf(t: Tid): Pc<T> { if t in threads then threads[t] else Idle }

    function Goto(t: Tid, pc: Pc<T>): State<T> { this.(threads := threads[t := pc]) }

    function IdAt(p: nat): nat
      requires WellFormed()
    {
      ids[Slot(p, cap)]
    }

    function DataAt(p: nat): T
      requires WellFormed()
    {
      data[Slot(p, cap)]
    }
  }

  /** One scheduling decision.  `spurious` makes a weak compare-and-swap fail although it could succeed;
      `residue` is whatever a move leaves behind in the slot. */
  datatype Label<T> =
    | CallEnqueue(t: Tid, v: T)
    | CallDequeue(t: Tid)
    | Access(t: Tid, spurious: bool, residue: T)

  /** The slot of ticket `p`.  Written without division; `QueueWrap` gives the usual forms. */
  function Slot(p: nat, cap: nat): (i: nat)
    requires 0 < cap
    ensures i < cap
  {
    if p < cap then p else Slot(p - cap, cap)
  }

  function Init<T>(cap: nat, fill: T): (s: State<T>)
    requires 2 <= cap
    ensures s.WellFormed()
  {
    State(cap, 0, 0, seq(cap, i => i), seq(cap, _ => fill), map[], [], [], [], map[])
  }

  predicate Ready<T>(pc: Pc<T>) { pc.Idle? || pc.EnqReturned? || pc.DeqReturned? }

  function Act<T>(s: State<T>, l: Label<T>): (s': State<T>)
    requires s.WellFormed()
    ensures s'.WellFormed() && s'.cap == s.cap
  {
    match l
    case CallEnqueue(t, v) => if Ready(s.PcOf(t)) then s.Goto(t, EnqLoadHead(v)) else s
    case CallDequeue(t) => if Ready(s.PcOf(t)) then s.Goto(t, DeqLoadTail) else s
    case Access(t, spurious, residue) =>
      match s.PcOf(t)
      case EnqLoadHead(v) => s.Goto(t, EnqLoadId(v, s.head))
      case EnqLoadId(v, pos) =>
        var diff := s.IdAt(pos) - pos;
        s.Goto(t, if diff == 0 then EnqCas(v, pos) else if diff < 0 then EnqReturned(false) else EnqLoadHead(v))
      case EnqCas(v, pos) =>
        if s.head == pos && !spurious then
          s.Goto(t, EnqWrite(v, pos)).(head := pos + 1, accepted := s.accepted + [v], enqBy := s.enqBy + [t])
        else
          s.Goto(t, EnqLoadId(v, s.head))
      case EnqWrite(v, pos) => s.Goto(t, EnqPublish(v, pos)).(data := s.data[Slot(pos, s.cap) := v])
      case EnqPublish(v, pos) => s.Goto(t, EnqReturned(true)).(ids := s.ids[Slot(pos, s.cap) := pos + 1])
      case DeqLoadTail => s.Goto(t, DeqLoadId(s.tail))
      case DeqLoadId(pos) =>
        var diff := s.IdAt(pos) - (pos + 1);
        s.Goto(t, if diff == 0 then DeqCas(pos) else if diff < 0 then DeqReturned(None) else DeqLoadTail)
      case DeqCas(pos) =>
        if s.tail == pos && !spurious then
          s.Goto(t, DeqTake(pos)).(tail := pos + 1, deqBy := s.deqBy + [t])
        else
          s.Goto(t, DeqLoadId(s.tail))
      case DeqTake(pos) =>
        var w := s.DataAt(pos);
        s.Goto(t, DeqRelease(pos, w)).(data := s.data[Slot(pos, s.cap) := residue], taken := s.taken[pos := w])
      case DeqRelease(pos, w) =>
        s.Goto(t, DeqReturned(Some((pos, w)))).(ids := s.ids[Slot(pos, s.cap) := pos + s.cap])
      case _ => s
  }

  function Run<T>(s: State<T>, ls: seq<Label<T>>): (s': State<T>)
    requires s.WellFormed()
    ensures s'.WellFormed() && s'.cap == s.cap
    decreases |ls|
  {
    if ls == [] then s else Run(Act(s, ls[0]), ls[1..])
  }

  /** States that some interleaving of some threads can reach from a fresh queue. */
  ghost predicate Reachable<T(!new)>(s: State<T>) {
    exists cap: nat, fill: T, ls: seq<Label<T>> :: 2 <= cap && s == Run(Init(cap, fill), ls)
  }

  // ----- Slots

  lemma {:induction false} SlotDistinct(p: nat, q: nat, cap: nat)
    requires 0 < cap && p < q < p + cap
    ensures Slot(p, cap) != Slot(q, cap)
    decreases p
  {
    if p >= cap {
      SlotDistinct(p - cap, q - cap, cap);
    }
  }

  /** Every other ticket less than `cap` away from `p` uses a different slot. */
  lemma OtherSlots(p: nat, cap: nat)
    requires 0 < cap
    ensures forall q: nat :: q != p && q < p + cap && p < q + cap ==> Slot(q, cap) != Slot(p, cap)
  {
    forall q: nat | q != p && q < p + cap && p < q + cap ensures Slot(q, cap) != Slot(p, cap) {
      if p < q { SlotDistinct(p, q, cap); } else { SlotDistinct(q, p, cap); }
    }
  }
}
