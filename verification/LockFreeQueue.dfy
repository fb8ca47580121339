/** The queue as an object: `Enqueue` and `Dequeue` with their retry loops, run by one thread while others interfere.

    Between any two of a thread's own atomic accesses the other threads may do anything the protocol lets them do.
    What they do comes from a finite schedule; once it is used up the thread runs alone.  Counters are unbounded, as
    in `QueueProtocol`; `QueueWrap` carries over to machine words. */
module LockFreeQueue {
  import opened Wrappers
  import opened QueueProtocol
  import opened QueueInvariant
  import opened QueueTheorems

  /** What happens before one access: steps of other threads, and whether a weak compare-and-swap fails for no
      reason. */
  datatype Burst<T> = Burst(labels: seq<Label<T>>, spurious: bool)

  /** How one pass of a retry loop ends. */
  datatype Pass = Won | Refused | Again

  predicate OfOthers<T>(schedule: seq<Burst<T>>, t: Tid) {
    forall i, j :: 0 <= i < |schedule| && 0 <= j < |schedule[i].labels| ==> schedule[i].labels[j].t != t
  }

  /** History only grows from `s` to `s'`, and `t` has claimed no ticket on the way. */
  ghost predicate NoClaimBy<T>(s: State<T>, s': State<T>, t: Tid) {
    && Prefix(s.accepted, s'.accepted) && Prefix(s.enqBy, s'.enqBy) && Prefix(s.deqBy, s'.deqBy)
    && (forall p :: |s.enqBy| <= p < |s'.enqBy| ==> s'.enqBy[p] != t)
    && (forall p :: |s.deqBy| <= p < |s'.deqBy| ==> s'.deqBy[p] != t)
  }

  lemma NoClaimTransitive<T>(s: State<T>, s1: State<T>, s2: State<T>, t: Tid)
    requires NoClaimBy(s, s1, t) && NoClaimBy(s1, s2, t)
    ensures NoClaimBy(s, s2, t)
  {
  }

  lemma OthersStep<T>(s: State<T>, l: Label<T>, t: Tid)
    requires s.WellFormed() && l.t != t
    ensures Act(s, l).PcOf(t) == s.PcOf(t) && NoClaimBy(s, Act(s, l), t)
  {
    OthersStay(s, l);
    var s' := Act(s, l);
    assert s'.accepted == s.accepted || exists v :: s'.accepted == s.accepted + [v];
    assert s'.enqBy == s.enqBy || s'.enqBy == s.enqBy + [l.t];
    assert s'.deqBy == s.deqBy || s'.deqBy == s.deqBy + [l.t];
  }

  /** Of the tickets from `from` on, `t` claimed `p` and no other. */
  ghost predicate OnlyClaim(claims: seq<Tid>, from: nat, p: nat, t: Tid) {
    from <= p < |claims| && claims[p] == t && forall q :: from <= q < |claims| && q != p ==> claims[q] != t
  }

  /** `t` has claimed exactly one head ticket, for `v`, and no tail ticket. */
  ghost predicate Accepted<T>(s: State<T>, s': State<T>, t: Tid, v: T) {
    && |s.enqBy| == |s.accepted| && |s'.enqBy| == |s'.accepted|
    && Prefix(s.accepted, s'.accepted) && Prefix(s.enqBy, s'.enqBy) && Prefix(s.deqBy, s'.deqBy)
    && (exists p: nat :: OnlyClaim(s'.enqBy, |s.enqBy|, p, t) && s'.accepted[p] == v)
    && (forall p :: |s.deqBy| <= p < |s'.deqBy| ==> s'.deqBy[p] != t)
  }

  /** `t` has claimed exactly one tail ticket, the one `v` was accepted under, and no head ticket. */
  ghost predicate Delivered<T>(s: State<T>, s': State<T>, t: Tid, v: T) {
    && |s'.deqBy| <= |s'.accepted|
    && Prefix(s.accepted, s'.accepted) && Prefix(s.enqBy, s'.enqBy) && Prefix(s.deqBy, s'.deqBy)
    && (exists p: nat :: OnlyClaim(s'.deqBy, |s.deqBy|, p, t) && s'.accepted[p] == v)
    && (forall p :: |s.enqBy| <= p < |s'.enqBy| ==> s'.enqBy[p] != t)
  }

  lemma AcceptedThen<T>(s: State<T>, s1: State<T>, s2: State<T>, t: Tid, v: T)
    requires Accepted(s, s1, t, v) && NoClaimBy(s1, s2, t) && |s2.enqBy| == |s2.accepted|
    ensures Accepted(s, s2, t, v)
  {
    var p: nat :| OnlyClaim(s1.enqBy, |s.enqBy|, p, t) && s1.accepted[p] == v;
    assert OnlyClaim(s2.enqBy, |s.enqBy|, p, t);
  }

  lemma DeliveredThen<T>(s: State<T>, s1: State<T>, s2: State<T>, t: Tid, v: T)
    requires Delivered(s, s1, t, v) && NoClaimBy(s1, s2, t) && |s2.deqBy| <= |s2.accepted|
    ensures Delivered(s, s2, t, v)
  {
    var p: nat :| OnlyClaim(s1.deqBy, |s.deqBy|, p, t) && s1.accepted[p] == v;
    assert OnlyClaim(s2.deqBy, |s.deqBy|, p, t);
  }

  lemma ThenAccepted<T>(s: State<T>, s1: State<T>, s2: State<T>, t: Tid, v: T)
    requires NoClaimBy(s, s1, t) && Accepted(s1, s2, t, v) && |s.enqBy| == |s.accepted|
    ensures Accepted(s, s2, t, v)
  {
    var p: nat :| OnlyClaim(s2.enqBy, |s1.enqBy|, p, t) && s2.accepted[p] == v;
    assert OnlyClaim(s2.enqBy, |s.enqBy|, p, t);
  }

  lemma ThenDelivered<T>(s: State<T>, s1: State<T>, s2: State<T>, t: Tid, v: T)
    requires NoClaimBy(s, s1, t) && Delivered(s1, s2, t, v)
    ensures Delivered(s, s2, t, v)
  {
    var p: nat :| OnlyClaim(s2.deqBy, |s1.deqBy|, p, t) && s2.accepted[p] == v;
    assert OnlyClaim(s2.deqBy, |s.deqBy|, p, t);
  }

  class LockFreeQueue<T> {
    const capacity: nat
    var head: nat
    var tail: nat
    const ids: array<nat>
    const data: array<T>
    /** Where every thread stands. */
    var threads: map<Tid, Pc<T>>
    ghost var accepted: seq<T>
    ghost var enqBy: seq<Tid>
    ghost var deqBy: seq<Tid>
    ghost var taken: map<nat, T>

    ghost function View(): State<T>
      reads this, ids, data
    {
      State(capacity, head, tail, ids[..], data[..], threads, accepted, enqBy, deqBy, taken)
    }

    ghost predicate Valid()
      reads this, ids, data
    {
      (ids as object) != (data as object) && Inv(View())
    }

    constructor (capacity: nat, fill: T)
      requires 2 <= capacity
      ensures Valid() && View() == Init(capacity, fill) && fresh(ids) && fresh(data)
    {
      this.capacity, head, tail, threads := capacity, 0, 0, map[];
      accepted, enqBy, deqBy, taken := [], [], [], map[];
      ids := new nat[capacity](i => i);
      data := new T[capacity](_ => fill);
      new;
      assert View() == Init(capacity, fill);
      InitInv(capacity, fill);
    }

    // ----- Atomic accesses

    method LoadHead(t: Tid, v: T) returns (pos: nat)
      requires Valid() && View().PcOf(t) == EnqLoadHead(v)
      modifies this`threads
      ensures Valid() && View() == Act(old(View()), Access(t, false, v))
      ensures pos == head && View() == old(View()).Goto(t, EnqLoadId(v, pos))
    {
      StepInv(View(), Access(t, false, v));
      pos := head;
      threads := threads[t := EnqLoadId(v, pos)];
    }

    method LoadTail(t: Tid, ghost v: T) returns (pos: nat)
      requires Valid() && View().PcOf(t) == DeqLoadTail
      modifies this`threads
      ensures Valid() && View() == Act(old(View()), Access(t, false, v))
      ensures pos == tail && View() == old(View()).Goto(t, DeqLoadId(pos))
    {
      StepInv(View(), Access(t, false, v));
      pos := tail;
      threads := threads[t := DeqLoadId(pos)];
    }

    /** Loads the `id` under `pos` and compares it with what the thread expects there. */
    method LoadId(t: Tid, pos: nat, expected: nat, ghost v: T) returns (diff: int)
      requires Valid()
      requires match View().PcOf(t)
               case EnqLoadId(_, p) => pos == p == expected
               case DeqLoadId(p) => pos == p == expected - 1
               case _ => false
      modifies this`threads
      ensures Valid() && View() == Act(old(View()), Access(t, false, v)) && diff == View().IdAt(pos) - expected
    {
      StepInv(View(), Access(t, false, v));
      diff := ids[Slot(pos, capacity)] - expected;
      if threads[t].EnqLoadId? {
        var w := threads[t].v;
        threads := threads[t := if diff == 0 then EnqCas(w, pos) else if diff < 0 then EnqReturned(false) else EnqLoadHead(w)];
      } else {
        threads := threads[t := if diff == 0 then DeqCas(pos) else if diff < 0 then DeqReturned(None) else DeqLoadTail];
      }
    }

    /** `compare_exchange_weak` on `head`: on failure `pos` becomes the current value. */
    method CasHead(t: Tid, v: T, pos: nat, spurious: bool) returns (won: bool, pos': nat)
      requires Valid() && View().PcOf(t) == EnqCas(v, pos)
      modifies this`threads, this`head, this`accepted, this`enqBy
      ensures Valid() && View() == Act(old(View()), Access(t, spurious, v))
      ensures won <==> old(head) == pos && !spurious
      ensures if won then pos' == pos && Accepted(old(View()), View(), t, v) && View().PcOf(t) == EnqWrite(v, pos)
              else pos' == head && View() == old(View()).Goto(t, EnqLoadId(v, head))
    {
      StepInv(View(), Access(t, spurious, v));
      won := head == pos && !spurious;
      if won {
        head, pos' := pos + 1, pos;
        accepted, enqBy := accepted + [v], enqBy + [t];
        threads := threads[t := EnqWrite(v, pos)];
        assert OnlyClaim(enqBy, pos, pos, t);
      } else {
        pos' := head;
        threads := threads[t := EnqLoadId(v, head)];
      }
    }

    method CasTail(t: Tid, pos: nat, spurious: bool, ghost v: T) returns (won: bool, pos': nat)
      requires Valid() && View().PcOf(t) == DeqCas(pos)
      modifies this`threads, this`tail, this`deqBy
      ensures Valid() && View() == Act(old(View()), Access(t, spurious, v))
      ensures won <==> old(tail) == pos && !spurious
      ensures if won then pos' == pos && pos < head && Delivered(old(View()), View(), t, accepted[pos])
                          && View().PcOf(t) == DeqTake(pos)
              else pos' == tail && View() == old(View()).Goto(t, DeqLoadId(tail))
    {
      StepInv(View(), Access(t, spurious, v));
      won := tail == pos && !spurious;
      if won {
        tail, pos' := pos + 1, pos;
        deqBy := deqBy + [t];
        threads := threads[t := DeqTake(pos)];
        assert OnlyClaim(deqBy, pos, pos, t);
      } else {
        pos' := tail;
        threads := threads[t := DeqLoadId(tail)];
      }
    }

    method StoreData(t: Tid, v: T, pos: nat)
      requires Valid() && View().PcOf(t) == EnqWrite(v, pos)
      modifies this`threads, data
      ensures Valid() && View() == Act(old(View()), Access(t, false, v)) && View().PcOf(t) == EnqPublish(v, pos)
      ensures NoClaimBy(old(View()), View(), t)
    {
      StepInv(View(), Access(t, false, v));
      data[Slot(pos, capacity)] := v;
      threads := threads[t := EnqPublish(v, pos)];
    }

    method Publish(t: Tid, v: T, pos: nat)
      requires Valid() && View().PcOf(t) == EnqPublish(v, pos)
      modifies this`threads, ids
      ensures Valid() && View() == Act(old(View()), Access(t, false, v)) && View().PcOf(t) == EnqReturned(true)
      ensures NoClaimBy(old(View()), View(), t)
    {
      StepInv(View(), Access(t, false, v));
      ids[Slot(pos, capacity)] := pos + 1;
      threads := threads[t := EnqReturned(true)];
    }

    method Take(t: Tid, pos: nat, residue: T) returns (v: T)
      requires Valid() && View().PcOf(t) == DeqTake(pos)
      modifies this`threads, this`taken, data
      ensures Valid() && View() == Act(old(View()), Access(t, false, residue)) && View().PcOf(t) == DeqRelease(pos, v)
      ensures NoClaimBy(old(View()), View(), t)
    {
      StepInv(View(), Access(t, false, residue));
      v := data[Slot(pos, capacity)];
      data[Slot(pos, capacity)] := residue;
      taken := taken[pos := v];
      threads := threads[t := DeqRelease(pos, v)];
    }

    method Release(t: Tid, pos: nat, v: T)
      requires Valid() && View().PcOf(t) == DeqRelease(pos, v)
      modifies this`threads, ids
      ensures Valid() && View() == Act(old(View()), Access(t, false, v)) && View().PcOf(t) == DeqReturned(Some((pos, v)))
      ensures NoClaimBy(old(View()), View(), t)
    {
      StepInv(View(), Access(t, false, v));
      ids[Slot(pos, capacity)] := pos + capacity;
      threads := threads[t := DeqReturned(Some((pos, v)))];
    }

    // ----- Interference

    /** A step of any thread. */
    method Perform(l: Label<T>)
      requires Valid()
      modifies this, ids, data
      ensures Valid() && View() == Act(old(View()), l)
    {
      StepInv(View(), l);
      var pc := if l.t in threads then threads[l.t] else Idle;
      match l
      case CallEnqueue(t, v) => if Ready(pc) { threads := threads[t := EnqLoadHead(v)]; }
      case CallDequeue(t) => if Ready(pc) { threads := threads[t := DeqLoadTail]; }
      case Access(t, spurious, residue) => PerformAccess(t, spurious, residue);
    }

    method PerformAccess(t: Tid, spurious: bool, residue: T)
      requires Valid()
      modifies this, ids, data
      ensures Valid() && View() == Act(old(View()), Access(t, spurious, residue))
    {
      var pc := if t in threads then threads[t] else Idle;
      if pc.EnqLoadId? || pc.DeqLoadId? {
        var _ := LoadId(t, pc.pos, if pc.EnqLoadId? then pc.pos else pc.pos + 1, residue);
      } else if pc.EnqLoadHead? || pc.EnqCas? || pc.EnqWrite? || pc.EnqPublish? {
        PerformEnqueue(t, pc, spurious, residue);
      } else if pc.DeqLoadTail? || pc.DeqCas? || pc.DeqTake? || pc.DeqRelease? {
        PerformDequeue(t, pc, spurious, residue);
      }
    }

    method PerformEnqueue(t: Tid, pc: Pc<T>, spurious: bool, ghost residue: T)
      requires Valid() && View().PcOf(t) == pc && (pc.EnqLoadHead? || pc.EnqCas? || pc.EnqWrite? || pc.EnqPublish?)
      modifies this, ids, data
      ensures Valid() && View() == Act(old(View()), Access(t, spurious, residue))
    {
      match pc
      case EnqLoadHead(v) => var _ := LoadHead(t, v);
      case EnqCas(v, pos) => var _, _ := CasHead(t, v, pos, spurious);
      case EnqWrite(v, pos) => StoreData(t, v, pos);
      case EnqPublish(v, pos) => Publish(t, v, pos);
    }

    method PerformDequeue(t: Tid, pc: Pc<T>, spurious: bool, residue: T)
      requires Valid() && View().PcOf(t) == pc && (pc.DeqLoadTail? || pc.DeqCas? || pc.DeqTake? || pc.DeqRelease?)
      modifies this, ids, data
      ensures Valid() && View() == Act(old(View()), Access(t, spurious, residue))
    {
      match pc
      case DeqLoadTail => var _ := LoadTail(t, residue);
      case DeqCas(pos) => var _, _ := CasTail(t, pos, spurious, residue);
      case DeqTake(pos) => var _ := Take(t, pos, residue);
      case DeqRelease(pos, v) => Release(t, pos, v);
    }

    /** The other threads take the next burst of the schedule. */
    method Interfere(t: Tid, schedule: seq<Burst<T>>) returns (rest: seq<Burst<T>>, spurious: bool)
      requires Valid() && OfOthers(schedule, t)
      modifies this, ids, data
      ensures Valid() && OfOthers(rest, t) && View().PcOf(t) == old(View()).PcOf(t) && NoClaimBy(old(View()), View(), t)
      ensures if schedule == [] then rest == [] && !spurious && View() == old(View()) else |rest| < |schedule|
    {
      if schedule == [] { return schedule, false; }
      var ls, i := schedule[0].labels, 0;
      while i < |ls|
        invariant i <= |ls| && Valid() && View().PcOf(t) == old(View()).PcOf(t) && NoClaimBy(old(View()), View(), t)
      {
        ghost var s := View();
        OthersStep(s, ls[i], t);
        Perform(ls[i]);
        NoClaimTransitive(old(View()), s, View(), t);
        i := i + 1;
      }
      return schedule[1..], schedule[0].spurious;
    }

    // ----- The operations

    /** `Interfere`, in the middle of a call that began in `s0` and has claimed nothing yet. */
    method InterfereAfter(ghost s0: State<T>, t: Tid, schedule: seq<Burst<T>>) returns (rest: seq<Burst<T>>, spurious: bool)
      requires Valid() && OfOthers(schedule, t) && NoClaimBy(s0, View(), t)
      modifies this, ids, data
      ensures Valid() && OfOthers(rest, t) && View().PcOf(t) == old(View()).PcOf(t) && NoClaimBy(s0, View(), t)
      ensures if schedule == [] then rest == [] && !spurious && View() == old(View()) else |rest| < |schedule|
    {
      rest, spurious := Interfere(t, schedule);
      NoClaimTransitive(s0, old(View()), View(), t);
    }

    /** The `id` load of `enqueue`, and what a negative difference means. */
    method CheckRoom(ghost s0: State<T>, t: Tid, v: T, pos: nat) returns (diff: int)
      requires Valid() && View().PcOf(t) == EnqLoadId(v, pos) && NoClaimBy(s0, View(), t)
      modifies this`threads
      ensures Valid() && NoClaimBy(s0, View(), t) && NoClaimBy(old(View()), View(), t)
      ensures View().PcOf(t) == if diff == 0 then EnqCas(v, pos) else if diff < 0 then EnqReturned(false) else EnqLoadHead(v)
      ensures (diff < 0 ==> NoRoom(old(View()))) && (diff > 0 ==> pos < head)
    {
      EnqueueDiff(View(), t);
      diff := LoadId(t, pos, pos, v);
    }

    method ClaimHead(ghost s0: State<T>, t: Tid, v: T, pos: nat, schedule: seq<Burst<T>>)
        returns (won: bool, pos': nat, rest: seq<Burst<T>>)
      requires Valid() && View().PcOf(t) == EnqCas(v, pos) && OfOthers(schedule, t) && NoClaimBy(s0, View(), t)
      requires |s0.enqBy| == |s0.accepted|
      modifies this, ids, data
      ensures Valid() && OfOthers(rest, t)
      ensures won || |rest| < |schedule| || (rest == [] && pos' == head == old(head) && pos != old(head))
      ensures if won then View().PcOf(t) == EnqWrite(v, pos') && Accepted(s0, View(), t, v)
              else View().PcOf(t) == EnqLoadId(v, pos') && NoClaimBy(s0, View(), t)
    {
      var spurious;
      rest, spurious := InterfereAfter(s0, t, schedule);
      ghost var s1 := View();
      won, pos' := CasHead(t, v, pos, spurious);
      if won { ThenAccepted(s0, s1, View(), t, v); }
    }

    method ReloadHead(ghost s0: State<T>, t: Tid, v: T, schedule: seq<Burst<T>>) returns (pos: nat, rest: seq<Burst<T>>)
      requires Valid() && View().PcOf(t) == EnqLoadHead(v) && OfOthers(schedule, t) && NoClaimBy(s0, View(), t)
      modifies this, ids, data
      ensures Valid() && OfOthers(rest, t) && View().PcOf(t) == EnqLoadId(v, pos) && NoClaimBy(s0, View(), t)
      ensures |rest| < |schedule| || (rest == [] && pos == head == old(head))
    {
      var spurious;
      rest, spurious := InterfereAfter(s0, t, schedule);
      pos := LoadHead(t, v);
    }

    method BeginEnqueue(t: Tid, v: T, schedule: seq<Burst<T>>) returns (pos: nat, rest: seq<Burst<T>>)
      requires Valid() && Ready(View().PcOf(t)) && OfOthers(schedule, t)
      modifies this, ids, data
      ensures Valid() && OfOthers(rest, t) && View().PcOf(t) == EnqLoadId(v, pos) && NoClaimBy(old(View()), View(), t)
    {
      ghost var s0 := View();
      Perform(CallEnqueue(t, v));
      pos, rest := ReloadHead(s0, t, v, schedule);
    }

    /** One pass of the retry loop of `enqueue`.  A pass that must be repeated has met interference, or has turned a
        stale ticket into a current one. */
    method EnqueuePass(ghost s0: State<T>, t: Tid, v: T, pos: nat, schedule: seq<Burst<T>>)
        returns (pass: Pass, pos': nat, rest: seq<Burst<T>>, ghost seen: State<T>)
      requires Valid() && View().PcOf(t) == EnqLoadId(v, pos) && OfOthers(schedule, t) && NoClaimBy(s0, View(), t)
      requires |s0.enqBy| == |s0.accepted|
      modifies this, ids, data
      ensures Valid() && OfOthers(rest, t)
      ensures match pass
              case Won => View().PcOf(t) == EnqWrite(v, pos') && Accepted(s0, View(), t, v)
              case Refused => View().PcOf(t) == EnqReturned(false) && NoClaimBy(s0, seen, t) && NoClaimBy(seen, View(), t)
                              && NoRoom(seen)
              case Again => View().PcOf(t) == EnqLoadId(v, pos') && NoClaimBy(s0, View(), t)
                            && (|rest| < |schedule| || (rest == schedule == [] && pos < old(head) && pos' == head))
    {
      var spurious;
      rest, spurious := InterfereAfter(s0, t, schedule);
      seen := View();
      var diff := CheckRoom(s0, t, v, pos);
      if diff == 0 {
        var won;
        won, pos', rest := ClaimHead(s0, t, v, pos, rest);
        pass := if won then Won else Again;
      } else if diff < 0 {
        pass, pos' := Refused, pos;
      } else {
        pos', rest := ReloadHead(s0, t, v, rest);
        pass := Again;
      }
    }

    /** True: `v` was accepted under exactly one ticket claimed by this call.  False: no ticket was claimed, and at
        `seen`, a moment within the call, there was no room. */
    method Enqueue(t: Tid, v: T, schedule: seq<Burst<T>>) returns (ok: bool, ghost seen: State<T>)
      requires Valid() && Ready(View().PcOf(t)) && OfOthers(schedule, t)
      modifies this, ids, data
      ensures Valid() && View().PcOf(t) == EnqReturned(ok)
      ensures ok ==> Accepted(old(View()), View(), t, v)
      ensures !ok ==> NoClaimBy(old(View()), seen, t) && NoClaimBy(seen, View(), t) && NoRoom(seen)
    {
      ghost var s0 := View();
      seen := s0;
      var pos: nat, rest := BeginEnqueue(t, v, schedule);
      while true
        invariant Valid() && View().PcOf(t) == EnqLoadId(v, pos) && OfOthers(rest, t) && NoClaimBy(s0, View(), t)
        decreases |rest|, if pos < head then 1 else 0
      {
        var pass;
        pass, pos, rest, seen := EnqueuePass(s0, t, v, pos, rest);
        if pass == Won { break; }
        if pass == Refused { return false, seen; }
      }
      Finish(s0, t, v, pos, rest);
      return true, seen;
    }

    /** The end of a successful `enqueue`: the move into the slot and the store of its `id`. */
    method Finish(ghost s0: State<T>, t: Tid, v: T, pos: nat, schedule: seq<Burst<T>>)
      requires Valid() && View().PcOf(t) == EnqWrite(v, pos) && OfOthers(schedule, t) && Accepted(s0, View(), t, v)
      modifies this, ids, data
      ensures Valid() && View().PcOf(t) == EnqReturned(true) && Accepted(s0, View(), t, v)
    {
      ghost var s1 := View();
      assert NoClaimBy(s1, s1, t);
      var rest, spurious := InterfereAfter(s1, t, schedule);
      ghost var s2 := View();
      StoreData(t, v, pos);
      NoClaimTransitive(s1, s2, View(), t);
      rest, spurious := InterfereAfter(s1, t, rest);
      s2 := View();
      Publish(t, v, pos);
      NoClaimTransitive(s1, s2, View(), t);
      AcceptedThen(s0, s1, View(), t, v);
    }

    /** The `id` load of `dequeue`, and what a negative difference means. */
    method CheckReady(ghost s0: State<T>, t: Tid, pos: nat, ghost v: T) returns (diff: int)
      requires Valid() && View().PcOf(t) == DeqLoadId(pos) && NoClaimBy(s0, View(), t)
      modifies this`threads
      ensures Valid() && NoClaimBy(s0, View(), t) && NoClaimBy(old(View()), View(), t)
      ensures View().PcOf(t) == if diff == 0 then DeqCas(pos) else if diff < 0 then DeqReturned(None) else DeqLoadTail
      ensures (diff < 0 ==> NothingReady(old(View()))) && (diff > 0 ==> pos < tail)
    {
      DequeueDiff(View(), t);
      diff := LoadId(t, pos, pos + 1, v);
    }

    method ClaimTail(ghost s0: State<T>, t: Tid, pos: nat, schedule: seq<Burst<T>>, ghost v: T)
        returns (won: bool, pos': nat, rest: seq<Burst<T>>)
      requires Valid() && View().PcOf(t) == DeqCas(pos) && OfOthers(schedule, t) && NoClaimBy(s0, View(), t)
      modifies this, ids, data
      ensures Valid() && OfOthers(rest, t)
      ensures won || |rest| < |schedule| || (rest == [] && pos' == tail == old(tail) && pos != old(tail))
      ensures if won then View().PcOf(t) == DeqTake(pos') && pos' < head == |accepted| && Delivered(s0, View(), t, accepted[pos'])
              else View().PcOf(t) == DeqLoadId(pos') && NoClaimBy(s0, View(), t)
    {
      var spurious;
      rest, spurious := InterfereAfter(s0, t, schedule);
      ghost var s1 := View();
      won, pos' := CasTail(t, pos, spurious, v);
      if won { ThenDelivered(s0, s1, View(), t, accepted[pos']); }
    }

    method ReloadTail(ghost s0: State<T>, t: Tid, schedule: seq<Burst<T>>, ghost v: T) returns (pos: nat, rest: seq<Burst<T>>)
      requires Valid() && View().PcOf(t) == DeqLoadTail && OfOthers(schedule, t) && NoClaimBy(s0, View(), t)
      modifies this, ids, data
      ensures Valid() && OfOthers(rest, t) && View().PcOf(t) == DeqLoadId(pos) && NoClaimBy(s0, View(), t)
      ensures |rest| < |schedule| || (rest == [] && pos == tail == old(tail))
    {
      var spurious;
      rest, spurious := InterfereAfter(s0, t, schedule);
      pos := LoadTail(t, v);
    }

    method BeginDequeue(t: Tid, schedule: seq<Burst<T>>, v: T) returns (pos: nat, rest: seq<Burst<T>>)
      requires Valid() && Ready(View().PcOf(t)) && OfOthers(schedule, t)
      modifies this, ids, data
      ensures Valid() && OfOthers(rest, t) && View().PcOf(t) == DeqLoadId(pos) && NoClaimBy(old(View()), View(), t)
    {
      ghost var s0 := View();
      Perform(CallDequeue(t));
      pos, rest := ReloadTail(s0, t, schedule, v);
    }

    method DequeuePass(ghost s0: State<T>, t: Tid, pos: nat, schedule: seq<Burst<T>>, v: T)
        returns (pass: Pass, pos': nat, rest: seq<Burst<T>>, ghost seen: State<T>)
      requires Valid() && View().PcOf(t) == DeqLoadId(pos) && OfOthers(schedule, t) && NoClaimBy(s0, View(), t)
      modifies this, ids, data
      ensures Valid() && OfOthers(rest, t)
      ensures match pass
              case Won => View().PcOf(t) == DeqTake(pos') && pos' < head == |accepted| && Delivered(s0, View(), t, accepted[pos'])
              case Refused => View().PcOf(t) == DeqReturned(None) && NoClaimBy(s0, seen, t) && NoClaimBy(seen, View(), t)
                              && NothingReady(seen)
              case Again => View().PcOf(t) == DeqLoadId(pos') && NoClaimBy(s0, View(), t)
                            && (|rest| < |schedule| || (rest == schedule == [] && pos < old(tail) && pos' == tail))
    {
      var spurious;
      rest, spurious := InterfereAfter(s0, t, schedule);
      seen := View();
      var diff := CheckReady(s0, t, pos, v);
      if diff == 0 {
        var won;
        won, pos', rest := ClaimTail(s0, t, pos, rest, v);
        pass := if won then Won else Again;
      } else if diff < 0 {
        pass, pos' := Refused, pos;
      } else {
        pos', rest := ReloadTail(s0, t, rest, v);
        pass := Again;
      }
    }

    /** True: `v` is what was accepted under the one ticket that this call claimed.  False: no ticket was claimed, and
        at `seen`, a moment within the call, nothing was ready.  `residue` is what the move leaves in the slot. */
    method Dequeue(t: Tid, residue: T, schedule: seq<Burst<T>>) returns (ok: bool, v: T, ghost seen: State<T>)
      requires Valid() && Ready(View().PcOf(t)) && OfOthers(schedule, t)
      modifies this, ids, data
      ensures Valid() && View().PcOf(t).DeqReturned? && (ok <==> View().PcOf(t).got.Some?)
      ensures ok ==> Delivered(old(View()), View(), t, v) && View().PcOf(t).got.value.1 == v
      ensures !ok ==> NoClaimBy(old(View()), seen, t) && NoClaimBy(seen, View(), t) && NothingReady(seen)
    {
      ghost var s0 := View();
      v, seen := residue, s0;
      var pos: nat, rest := BeginDequeue(t, schedule, residue);
      while true
        invariant Valid() && View().PcOf(t) == DeqLoadId(pos) && OfOthers(rest, t) && NoClaimBy(s0, View(), t)
        decreases |rest|, if pos < tail then 1 else 0
      {
        var pass;
        pass, pos, rest, seen := DequeuePass(s0, t, pos, rest, residue);
        if pass == Won { break; }
        if pass == Refused { return false, v, seen; }
      }
      v := FinishDequeue(s0, t, pos, residue, rest);
      return true, v, seen;
    }

    /** The move out of the slot, in the middle of interference. */
    method TakeAfter(ghost s1: State<T>, t: Tid, pos: nat, residue: T, schedule: seq<Burst<T>>)
        returns (v: T, rest: seq<Burst<T>>)
      requires Valid() && View().PcOf(t) == DeqTake(pos) && OfOthers(schedule, t) && NoClaimBy(s1, View(), t)
      modifies this, ids, data
      ensures Valid() && View().PcOf(t) == DeqRelease(pos, v) && OfOthers(rest, t) && NoClaimBy(s1, View(), t)
    {
      var spurious;
      rest, spurious := InterfereAfter(s1, t, schedule);
      ghost var s2 := View();
      v := Take(t, pos, residue);
      NoClaimTransitive(s1, s2, View(), t);
    }

    method ReleaseAfter(ghost s1: State<T>, t: Tid, pos: nat, v: T, schedule: seq<Burst<T>>)
      requires Valid() && View().PcOf(t) == DeqRelease(pos, v) && OfOthers(schedule, t) && NoClaimBy(s1, View(), t)
      modifies this, ids, data
      ensures Valid() && View().PcOf(t) == DeqReturned(Some((pos, v))) && NoClaimBy(s1, View(), t)
      ensures pos < |accepted| && v == accepted[pos]
    {
      var rest, spurious := InterfereAfter(s1, t, schedule);
      ghost var s2 := View();
      Release(t, pos, v);
      NoClaimTransitive(s1, s2, View(), t);
      assert ThreadOk(View(), t, View().PcOf(t));
    }

    /** The end of a successful `dequeue`: the move out of the slot and the store of its `id`. */
    method FinishDequeue(ghost s0: State<T>, t: Tid, pos: nat, residue: T, schedule: seq<Burst<T>>) returns (v: T)
      requires Valid() && View().PcOf(t) == DeqTake(pos) && OfOthers(schedule, t)
      requires pos < |accepted| && Delivered(s0, View(), t, accepted[pos])
      modifies this, ids, data
      ensures Valid() && View().PcOf(t) == DeqReturned(Some((pos, v))) && Delivered(s0, View(), t, v)
    {
      ghost var s1 := View();
      assert NoClaimBy(s1, s1, t);
      var rest;
      v, rest := TakeAfter(s1, t, pos, residue, schedule);
      ReleaseAfter(s1, t, pos, v, rest);
      DeliveredThen(s0, s1, View(), t, s1.accepted[pos]);
    }
  }
}
