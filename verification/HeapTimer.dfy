/** The timer: an array-shaped binary heap ordered by expiry, with a map from id to heap position.
    Every operation is proved against a plain map from id to (expiry, callback); heap order is a second layer,
    because `Adjust` can break it. */
module HeapTimer {
  import opened Wrappers

  const NS_PER_MS: int := 1_000_000
  const INT_MAX: int := 0x7fff_ffff
  const INT_MIN: int := -0x8000_0000
  type Int32 = x: int | INT_MIN <= x <= INT_MAX

  /** A timeout callback, as the ids it cancels while it runs.  It neither adds nor adjusts timers. */
  datatype Callback = Nothing | Callback(tag: int, cancels: seq<int>)

  function CancelList(cb: Callback): seq<int> { if cb.Nothing? then [] else cb.cancels }

  function Among(ids: seq<int>): set<int> { set id | id in ids }

  function Cancels(cb: Callback): set<int> { Among(CancelList(cb)) }

  datatype TimerNode = TimerNode(id: int, expires: int, cb: Callback)

  /** Division of a duration by a millisecond, truncated toward zero. */
  function WholeMs(d: int): int { if d >= 0 then d / NS_PER_MS else -((-d) / NS_PER_MS) }

  lemma WholeMsBounds(d: int)
    ensures d >= 0 ==> 0 <= WholeMs(d) * NS_PER_MS <= d < (WholeMs(d) + 1) * NS_PER_MS
    ensures d < 0 ==> WholeMs(d) <= 0
    ensures WholeMs(d) > 0 <==> d >= NS_PER_MS
  {
  }

  /** Conversion of a wide integer to a 32-bit one. */
  function Narrow(x: int): (r: Int32)
    ensures INT_MIN <= x <= INT_MAX ==> r == x
  {
    var y := x % 0x1_0000_0000;
    if y <= INT_MAX then y else y - 0x1_0000_0000
  }

  function Parent(i: nat): nat
    requires i > 0
  {
    (i - 1) / 2
  }

  ghost predicate PairOk(h: seq<TimerNode>, k: nat)
    requires 0 < k < |h|
  {
    h[Parent(k)].expires <= h[k].expires
  }

  /** Heap order among the first `n` nodes. */
  ghost predicate OrderedTo(h: seq<TimerNode>, n: nat)
    requires n <= |h|
  {
    forall k: nat :: 0 < k < n ==> PairOk(h, k)
  }

  /** Order holds except around node `i`, whose children are still no earlier than its parent. */
  ghost predicate OrderedAround(h: seq<TimerNode>, n: nat, i: nat)
    requires n <= |h|
  {
    && (forall k: nat :: 0 < k < n && k != i && Parent(k) != i ==> PairOk(h, k))
    && (forall k: nat :: 0 < k < n && Parent(k) == i && i > 0 ==> h[Parent(i)].expires <= h[k].expires)
  }

  ghost predicate ChildrenOk(h: seq<TimerNode>, n: nat, i: nat)
    requires n <= |h|
  {
    forall k: nat :: 0 < k < n && Parent(k) == i ==> PairOk(h, k)
  }

  ghost predicate Indexed(h: seq<TimerNode>, ref: map<int, nat>) {
    && (forall i: nat :: i < |h| ==> h[i].id in ref && ref[h[i].id] == i)
    && (forall id :: id in ref ==> ref[id] < |h| && h[ref[id]].id == id)
  }

  ghost predicate SameFrom(n: nat, h: seq<TimerNode>, g: seq<TimerNode>) {
    |h| == |g| && forall k :: n <= k < |h| ==> h[k] == g[k]
  }

  function Swapped(h: seq<TimerNode>, i: nat, j: nat): (r: seq<TimerNode>)
    requires i < |h| && j < |h|
  {
    h[i := h[j]][j := h[i]]
  }

  /** Swapping a node with a parent that is not earlier moves the disorder up. */
  lemma SwapUp(h: seq<TimerNode>, n: nat, k: nat)
    requires 0 < k < n <= |h| && OrderedAround(h, n, k) && ChildrenOk(h, n, k)
    requires h[k].expires <= h[Parent(k)].expires
    ensures OrderedAround(Swapped(h, k, Parent(k)), n, Parent(k)) && ChildrenOk(Swapped(h, k, Parent(k)), n, Parent(k))
  {
    var j := Parent(k);
    var h' := Swapped(h, k, j);
    if j > 0 { assert PairOk(h, j); }
    forall m: nat | 0 < m < n && Parent(m) == j ensures PairOk(h', m) {
      if m != k { assert PairOk(h, m); }
    }
    forall m: nat | 0 < m < n && m != j && Parent(m) != j ensures PairOk(h', m) {
      if Parent(m) != k { assert PairOk(h, m); }
    }
    forall m: nat | 0 < m < n && Parent(m) == j && j > 0 ensures h'[Parent(j)].expires <= h'[m].expires {
      if m != k { assert PairOk(h, m); }
    }
  }

  /** Swapping a node with the earlier of its children, if that child is not later, moves the disorder down. */
  lemma SwapDown(h: seq<TimerNode>, n: nat, i: nat, j: nat)
    requires 0 < j < n <= |h| && i == Parent(j) && OrderedAround(h, n, i)
    requires h[j].expires <= h[i].expires
    requires forall k: nat :: 0 < k < n && Parent(k) == i ==> h[j].expires <= h[k].expires
    ensures OrderedAround(Swapped(h, i, j), n, j) && PairOk(Swapped(h, i, j), j)
    ensures i > 0 ==> PairOk(Swapped(h, i, j), i)
  {
    var h' := Swapped(h, i, j);
    forall m: nat | 0 < m < n && m != j && Parent(m) != j && m != i ensures PairOk(h', m) {
      if Parent(m) != i { assert PairOk(h, m); }
    }
    forall m: nat | 0 < m < n && Parent(m) == j ensures h'[Parent(j)].expires <= h'[m].expires {
      assert PairOk(h, m);
    }
  }

  lemma SwapDownEarlier(h: seq<TimerNode>, n: nat, i: nat, j: nat)
    requires j < n <= |h| && (j == 2 * i + 1 || j == 2 * i + 2) && OrderedAround(h, n, i)
    requires h[j].expires <= h[2 * i + 1].expires && (2 * i + 2 < n ==> h[j].expires <= h[2 * i + 2].expires)
    requires h[j].expires <= h[i].expires
    ensures OrderedAround(Swapped(h, i, j), n, j) && PairOk(Swapped(h, i, j), j)
  {
    forall k: nat | 0 < k < n && Parent(k) == i ensures h[j].expires <= h[k].expires { }
    SwapDown(h, n, i, j);
  }

  lemma NoEarlierChild(h: seq<TimerNode>, n: nat, i: nat)
    requires i < n <= |h|
    requires (2 * i + 1 < n ==> h[i].expires <= h[2 * i + 1].expires) && (2 * i + 2 < n ==> h[i].expires <= h[2 * i + 2].expires)
    ensures ChildrenOk(h, n, i)
    ensures OrderedAround(h, n, i) && (i > 0 ==> PairOk(h, i)) ==> OrderedTo(h, n)
  {
    forall k: nat | 0 < k < n && Parent(k) == i ensures PairOk(h, k) { }
  }

  /** The abstract timer: which ids are pending, when they expire, and what happens then. */
  ghost function Entries(h: seq<TimerNode>, ref: map<int, nat>): map<int, (int, Callback)>
    requires Indexed(h, ref)
  {
    map id | id in ref :: (h[ref[id]].expires, h[ref[id]].cb)
  }

  lemma DropLast(h: seq<TimerNode>, ref: map<int, nat>)
    requires Indexed(h, ref) && h != []
    ensures var n := |h| - 1; var ref' := ref - {h[n].id};
            && Indexed(h[..n], ref') && Entries(h[..n], ref') == Entries(h, ref) - {h[n].id}
            && (OrderedTo(h, n) ==> OrderedTo(h[..n], n))
  {
    var n := |h| - 1;
    var a, b := Entries(h[..n], ref - {h[n].id}), Entries(h, ref) - {h[n].id};
    forall id | id in a || id in b ensures id in a && id in b && a[id] == b[id] { }
    assert a == b;
    if OrderedTo(h, n) {
      forall k: nat | 0 < k < n ensures PairOk(h[..n], k) { assert PairOk(h, k); }
    }
  }

  lemma AppendNode(h: seq<TimerNode>, ref: map<int, nat>, node: TimerNode)
    requires Indexed(h, ref) && node.id !in ref
    ensures var h', ref' := h + [node], ref[node.id := |h|];
            && Indexed(h', ref') && Entries(h', ref') == Entries(h, ref)[node.id := (node.expires, node.cb)]
            && (OrderedTo(h, |h|) ==> OrderedAround(h', |h'|, |h|) && ChildrenOk(h', |h'|, |h|))
  {
    var h', ref' := h + [node], ref[node.id := |h|];
    assert Indexed(h', ref');
    var a, b := Entries(h', ref'), Entries(h, ref)[node.id := (node.expires, node.cb)];
    forall id | id in a || id in b ensures id in a && id in b && a[id] == b[id] { }
    assert a == b;
    if OrderedTo(h, |h|) {
      forall k: nat | 0 < k < |h'| && k != |h| && Parent(k) != |h| ensures PairOk(h', k) { assert PairOk(h, k); }
    }
  }

  lemma UpdateNode(h: seq<TimerNode>, ref: map<int, nat>, node: TimerNode)
    requires Indexed(h, ref) && node.id in ref
    ensures var h' := h[ref[node.id] := node];
            Indexed(h', ref) && Entries(h', ref) == Entries(h, ref)[node.id := (node.expires, node.cb)]
  {
    var h' := h[ref[node.id] := node];
    var a, b := Entries(h', ref), Entries(h, ref)[node.id := (node.expires, node.cb)];
    forall id | id in a || id in b ensures id in a && id in b && a[id] == b[id] { }
    assert a == b;
  }

  /** Replacing one node's expiry leaves order intact away from that node. */
  lemma ReplaceNode(h: seq<TimerNode>, i: nat, node: TimerNode)
    requires i < |h| && OrderedTo(h, |h|)
    ensures OrderedAround(h[i := node], |h|, i)
  {
    var h' := h[i := node];
    forall k: nat | 0 < k < |h| && k != i && Parent(k) != i ensures PairOk(h', k) { assert PairOk(h, k); }
    forall k: nat | 0 < k < |h| && Parent(k) == i && i > 0 ensures h'[Parent(i)].expires <= h'[k].expires {
      assert PairOk(h, k) && PairOk(h, i);
    }
  }

  /** Order around `i` among the first `n` nodes depends on those nodes only. */
  lemma AroundInPrefix(g: seq<TimerNode>, h: seq<TimerNode>, n: nat, i: nat)
    requires n <= |h| <= |g| && OrderedAround(g, |g|, i) && forall k :: 0 <= k < n ==> h[k] == g[k]
    ensures OrderedAround(h, n, i)
  {
    forall k: nat | 0 < k < n && k != i && Parent(k) != i ensures PairOk(h, k) { assert PairOk(g, k); }
    forall k: nat | 0 < k < n && Parent(k) == i && i > 0 ensures h[Parent(i)].expires <= h[k].expires {
      assert g[Parent(i)].expires <= g[k].expires;
    }
  }

  /** Moving the last node into the place of node `i` leaves the shorter prefix ordered away from `i`. */
  lemma ReplaceByLast(h: seq<TimerNode>, i: nat)
    requires i < |h| - 1 && OrderedTo(h, |h|)
    ensures OrderedAround(Swapped(h, i, |h| - 1), |h| - 1, i)
  {
    var n := |h| - 1;
    ReplaceNode(h, i, h[n]);
    AroundInPrefix(h[i := h[n]], Swapped(h, i, n), n, i);
  }

  /** In an ordered heap the front node expires no later than any other. */
  lemma {:induction false} FrontIsEarliest(h: seq<TimerNode>, i: nat)
    requires OrderedTo(h, |h|) && i < |h|
    ensures h[0].expires <= h[i].expires
  {
    if i > 0 {
      assert PairOk(h, i);
      FrontIsEarliest(h, Parent(i));
    }
  }

  /** The front node of a nonempty heap is a pending entry and, when the heap is ordered, an earliest one. */
  lemma Front(h: seq<TimerNode>, ref: map<int, nat>)
    requires Indexed(h, ref)
    ensures h == [] <==> Entries(h, ref) == map[]
    ensures h != [] ==> h[0].id in Entries(h, ref) && Entries(h, ref)[h[0].id] == (h[0].expires, h[0].cb)
    ensures h != [] && OrderedTo(h, |h|) ==>
              forall id :: id in Entries(h, ref) ==> h[0].expires <= Entries(h, ref)[id].0
  {
    var m := Entries(h, ref);
    if h == [] {
      assert m.Keys == ref.Keys;
      assert ref.Keys == {} by { assert forall id :: id !in ref.Keys; }
    }
    assert h != [] ==> h[0].id in m;
    if h != [] && OrderedTo(h, |h|) {
      forall id | id in Entries(h, ref) ensures h[0].expires <= Entries(h, ref)[id].0 { FrontIsEarliest(h, ref[id]); }
    }
  }

  type Timers = map<int, (int, Callback)>

  ghost predicate NoneAfter(p: Timers, t: int) { forall id :: id in p ==> p[id].0 <= t }

  ghost predicate NoneDue(p: Timers, t: int) { forall id :: id in p ==> WholeMs(p[id].0 - t) > 0 }

  /** What firing these nodes in turn takes out of the timer: each node itself, and what its callback cancels. */
  ghost function Removed(fired: seq<TimerNode>): set<int> {
    if fired == [] then {} else
      var last := fired[|fired| - 1];
      Removed(fired[..|fired| - 1]) + {last.id} + Cancels(last.cb)
  }

  /** The `k`th node fired is an entry of `p`, still there when its turn came (neither fired nor cancelled before),
      with no whole millisecond left at the clock reading that released it. */
  ghost predicate FiredAt(p: Timers, start: int, fired: seq<TimerNode>, times: seq<int>, k: nat)
    requires k < |fired| == |times|
  {
    && fired[k].id in p && p[fired[k].id] == (fired[k].expires, fired[k].cb)
    && fired[k].id !in Removed(fired[..k])
    && start <= times[k] && WholeMs(fired[k].expires - times[k]) <= 0
  }

  ghost predicate Ascending(times: seq<int>) { forall k :: 0 < k < |times| ==> times[k - 1] <= times[k] }

  /** `fired` is a legal firing from `p`, at the clock readings `times`. */
  ghost predicate LegalFiring(p: Timers, start: int, fired: seq<TimerNode>, times: seq<int>) {
    |times| == |fired| && (forall k: nat :: k < |fired| ==> FiredAt(p, start, fired, times, k)) && Ascending(times)
  }

  ghost predicate ByExpiry(fired: seq<TimerNode>) {
    forall a, b :: 0 <= a < b < |fired| ==> fired[a].expires <= fired[b].expires
  }

  /** How far a run of `Tick` has got: `fired` has been taken out of `p`, and nothing earlier is left. */
  ghost predicate TickProgress(p: Timers, start: int, now: int, fired: seq<TimerNode>, times: seq<int>, q: Timers) {
    && start <= now && (times != [] ==> times[|times| - 1] <= now)
    && LegalFiring(p, start, fired, times) && q == p - Removed(fired)
  }

  ghost predicate NothingEarlier(fired: seq<TimerNode>, q: Timers) {
    ByExpiry(fired) && (fired != [] ==> forall id :: id in q ==> fired[|fired| - 1].expires <= q[id].0)
  }

  lemma RemovedSnoc(fired: seq<TimerNode>, node: TimerNode)
    ensures Removed(fired + [node]) == Removed(fired) + {node.id} + Cancels(node.cb)
  {
    assert (fired + [node])[..|fired|] == fired;
  }

  lemma FiredAtSnoc(p: Timers, start: int, fired: seq<TimerNode>, times: seq<int>, node: TimerNode, t: int, k: nat)
    requires k < |fired| == |times| && FiredAt(p, start, fired, times, k)
    ensures FiredAt(p, start, fired + [node], times + [t], k)
  {
    assert (fired + [node])[..k] == fired[..k];
  }

  lemma FireOne(p: Timers, start: int, fired: seq<TimerNode>, times: seq<int>, node: TimerNode, t: int)
    requires LegalFiring(p, start, fired, times)
    requires node.id in p && p[node.id] == (node.expires, node.cb) && node.id !in Removed(fired)
    requires start <= t && (times != [] ==> times[|times| - 1] <= t) && WholeMs(node.expires - t) <= 0
    ensures LegalFiring(p, start, fired + [node], times + [t])
  {
    var f, ts := fired + [node], times + [t];
    assert f[..|fired|] == fired;
    forall k: nat | k < |f| ensures FiredAt(p, start, f, ts, k) {
      if k < |fired| { FiredAtSnoc(p, start, fired, times, node, t, k); }
    }
  }

  lemma TickStep(p: Timers, start: int, fired: seq<TimerNode>, times: seq<int>, q: Timers, node: TimerNode, t: int, q': Timers)
    requires exists now :: now <= t && TickProgress(p, start, now, fired, times, q)
    requires node.id in q && q[node.id] == (node.expires, node.cb) && WholeMs(node.expires - t) <= 0
    requires q' == q - {node.id} - Cancels(node.cb)
    ensures TickProgress(p, start, t, fired + [node], times + [t], q')
  {
    FireOne(p, start, fired, times, node, t);
    RemovedSnoc(fired, node);
  }

  lemma StillNothingEarlier(fired: seq<TimerNode>, q: Timers, node: TimerNode, q': Timers)
    requires NothingEarlier(fired, q) && node.id in q && q[node.id].0 == node.expires
    requires forall id :: id in q ==> node.expires <= q[id].0
    requires forall id :: id in q' ==> id in q && q'[id] == q[id]
    ensures NothingEarlier(fired + [node], q')
  {
    if fired != [] { assert fired[|fired| - 1].expires <= node.expires; }
  }

  lemma LaterIsNotDue(q: Timers, node: TimerNode, t: int)
    requires WholeMs(node.expires - t) > 0 && forall id :: id in q ==> node.expires <= q[id].0
    ensures NoneDue(q, t)
  {
    WholeMsBounds(node.expires - t);
    forall id | id in q ensures WholeMs(q[id].0 - t) > 0 { WholeMsBounds(q[id].0 - t); }
  }

  /** No node fires twice. */
  lemma {:induction false} FiredOnce(fired: seq<TimerNode>, a: nat, b: nat)
    requires a < b <= |fired|
    ensures fired[a].id in Removed(fired[..b])
    decreases b
  {
    var f := fired[..b];
    assert f[..b - 1] == fired[..b - 1];
    if a < b - 1 { FiredOnce(fired, a, b - 1); }
  }

  // ----- What other threads do meanwhile

  /** What one locked section of another thread does to the timer; `Set` and `Renew` pass the timer's one timeout.  A
      timer that another thread fires is dropped as well. */
  datatype Atom = Set(id: int, cb: Callback) | Renew(id: int) | Drop(id: int)

  /** What has been done to the timer during a call: this thread fired a node or a callback of its cancelled one, or
      another thread got in between. */
  datatype Done = Fired(node: TimerNode, at: int) | Cancelled(id: int) | Other(a: Atom, at: int)

  /** Where a call began: the pending timers, the time, whether heap order can be relied on throughout, and whether no
      timer was further away than the timeout. */
  datatype Origin = Origin(p: Timers, start: int, calm: bool, timely: bool)

  predicate Reliable(o: Origin, others: seq<seq<Atom>>) { o.calm && others != [] ==> o.timely }

  function Effect(p: Timers, timeout: int, d: Done): Timers {
    match d
    case Fired(node, _) => p - {node.id}
    case Cancelled(id) => p - {id}
    case Other(Drop(id), _) => p - {id}
    case Other(Set(id, cb), at) => p[id := (at + timeout * NS_PER_MS, cb)]
    case Other(Renew(id), at) => if id in p then p[id := (at + timeout * NS_PER_MS, p[id].1)] else p
  }

  /** The pending timers after `h`. */
  function Replay(p: Timers, timeout: int, h: seq<Done>): Timers {
    if h == [] then p else Effect(Replay(p, timeout, h[..|h| - 1]), timeout, h[|h| - 1])
  }

  /** The node is pending in `q` with no whole millisecond left at time `at`; and an earliest one, if `earliest`. */
  ghost predicate MayFire(q: Timers, node: TimerNode, at: int, earliest: bool) {
    && node.id in q && q[node.id] == (node.expires, node.cb) && WholeMs(node.expires - at) <= 0
    && (earliest ==> forall id :: id in q ==> node.expires <= q[id].0)
  }

  /** Every node that was fired was due and pending when it was. */
  ghost predicate Legal(p: Timers, timeout: int, h: seq<Done>, earliest: bool) {
    h == [] ||
    var before, d := h[..|h| - 1], h[|h| - 1];
    Legal(p, timeout, before, earliest) && (d.Fired? ==> MayFire(Replay(p, timeout, before), d.node, d.at, earliest))
  }

  /** The clock readings on the way. */
  function Times(h: seq<Done>): seq<int> {
    if h == [] then [] else
      var d := h[|h| - 1];
      Times(h[..|h| - 1]) + if d.Cancelled? then [] else [d.at]
  }

  function FiredIn(h: seq<Done>): seq<TimerNode> {
    if h == [] then [] else
      var d := h[|h| - 1];
      FiredIn(h[..|h| - 1]) + if d.Fired? then [d.node] else []
  }

  /** The ids this thread took out, in order. */
  function OwnIn(h: seq<Done>): seq<int> {
    if h == [] then [] else
      var d := h[|h| - 1];
      OwnIn(h[..|h| - 1]) + if d.Fired? then [d.node.id] else if d.Cancelled? then [d.id] else []
  }

  function OthersIn(h: seq<Done>): seq<Atom> {
    if h == [] then [] else
      var d := h[|h| - 1];
      OthersIn(h[..|h| - 1]) + if d.Other? then [d.a] else []
  }

  /** What firing these nodes takes out, in order: each node, and then what its callback cancels. */
  function Script(fired: seq<TimerNode>): seq<int> {
    if fired == [] then [] else
      var last := fired[|fired| - 1];
      Script(fired[..|fired| - 1]) + [last.id] + CancelList(last.cb)
  }

  function Flat(bursts: seq<seq<Atom>>): seq<Atom> {
    if bursts == [] then [] else Flat(bursts[..|bursts| - 1]) + bursts[|bursts| - 1]
  }

  ghost predicate Clocked(times: seq<int>, start: int, now: int) {
    Ascending(times) && start <= now && forall k :: 0 <= k < |times| ==> start <= times[k] <= now
  }

  lemma FlatSnoc(bursts: seq<seq<Atom>>, n: nat)
    requires n < |bursts|
    ensures Flat(bursts[..n + 1]) == Flat(bursts[..n]) + bursts[n]
  {
    assert bursts[..n + 1][..n] == bursts[..n];
  }

  lemma ScriptSnoc(fired: seq<TimerNode>, node: TimerNode)
    ensures Script(fired + [node]) == Script(fired) + [node.id] + CancelList(node.cb)
  {
    assert (fired + [node])[..|fired|] == fired;
  }

  lemma ClockedSnoc(times: seq<int>, start: int, now: int, t: int, now': int)
    requires Clocked(times, start, now) && now <= t <= now'
    ensures Clocked(times + [t], start, now')
  {
  }

  /** One thing more. */
  lemma DoneSnoc(o: Origin, timeout: int, h: seq<Done>, d: Done, now: int, now': int)
    requires Legal(o.p, timeout, h, o.calm) && Clocked(Times(h), o.start, now) && now <= now'
    requires d.Fired? ==> MayFire(Replay(o.p, timeout, h), d.node, d.at, o.calm)
    requires !d.Cancelled? ==> now <= d.at <= now'
    ensures var h' := h + [d];
            && Replay(o.p, timeout, h') == Effect(Replay(o.p, timeout, h), timeout, d) && Legal(o.p, timeout, h', o.calm)
            && Clocked(Times(h'), o.start, now')
            && FiredIn(h') == FiredIn(h) + (if d.Fired? then [d.node] else [])
            && OwnIn(h') == OwnIn(h) + (if d.Fired? then [d.node.id] else if d.Cancelled? then [d.id] else [])
            && OthersIn(h') == OthersIn(h) + (if d.Other? then [d.a] else [])
  {
    assert (h + [d])[..|h|] == h;
    if d.Cancelled? { assert Times(h) + [] == Times(h); } else { ClockedSnoc(Times(h), o.start, now, d.at, now'); }
  }

  /** How far a run of `Tick` has got without other threads. */
  ghost predicate Alone(o: Origin, now: int, fired: seq<TimerNode>, times: seq<int>, q: Timers) {
    TickProgress(o.p, o.start, now, fired, times, q) && (o.calm ==> NothingEarlier(fired, q))
  }

  lemma FiredAlone(o: Origin, now: int, fired: seq<TimerNode>, times: seq<int>, q: Timers, node: TimerNode, t: int, q': Timers)
    requires Alone(o, now, fired, times, q) && MayFire(q, node, t, o.calm) && now <= t && q' == q - {node.id} - Cancels(node.cb)
    ensures Alone(o, t, fired + [node], times + [t], q')
  {
    TickStep(o.p, o.start, fired, times, q, node, t, q');
    if o.calm { StillNothingEarlier(fired, q, node, q'); }
  }

  /** No timer comes to lie further away than the timeout. */
  lemma StaysTimely(p: Timers, timeout: int, a: Atom, now: int, now': int)
    requires NoneAfter(p, now + timeout * NS_PER_MS) && now <= now'
    ensures NoneAfter(Effect(p, timeout, Other(a, now')), now' + timeout * NS_PER_MS)
    ensures NoneAfter(p, now' + timeout * NS_PER_MS)
  {
  }

  lemma OneIdMore(p: Timers, ids: seq<int>, k: nat)
    requires k < |ids|
    ensures ids[..k + 1] == ids[..k] + [ids[k]] && p - Among(ids[..k]) - {ids[k]} == p - Among(ids[..k + 1])
  {
    assert Among(ids[..k + 1]) == Among(ids[..k]) + {ids[k]};
  }

  /** `res` is the wait for the timer `id`, an earliest one, as the program computes it. */
  ghost predicate WaitFor(p: Timers, now: int, res: int, id: int) {
    && id in p && (forall other :: other in p ==> p[id].0 <= p[other].0)
    && var ms := Narrow(WholeMs(p[id].0 - now)); res == if ms < 0 then 0 else ms
  }

  /** Unless it is 0, the wait is never past any expiry if and only if the earliest is not a whole millisecond ago, or so
      long ago that the 32-bit conversion makes it positive; and it is less than a millisecond short of the earliest if
      and only if that one is within an int of milliseconds. */
  lemma WaitIsTight(p: Timers, now: int, res: int, id: int)
    requires WaitFor(p, now, res, id)
    ensures var ms := WholeMs(p[id].0 - now);
            && ((forall other :: other in p && res > 0 ==> now + res * NS_PER_MS <= p[other].0) <==> ms >= 0 || Narrow(ms) <= 0)
            && (p[id].0 < now + (res + 1) * NS_PER_MS <==> ms <= INT_MAX)
  {
    var ms := WholeMs(p[id].0 - now);
    WholeMsBounds(p[id].0 - now);
    NarrowBelow(ms);
  }

  lemma NarrowBelow(ms: int)
    ensures ms >= 0 ==> Narrow(ms) <= ms
    ensures ms > INT_MAX ==> Narrow(ms) < ms
  {
  }

  /** With no expiry further away than the timeout, the wait is no longer than that if and only if the conversion does
      not make a longer one of an expiry long ago. */
  lemma WaitIsBounded(p: Timers, now: int, timeout: Int32, res: int, id: int)
    requires WaitFor(p, now, res, id) && NoneAfter(p, now + timeout * NS_PER_MS) && timeout >= 0
    ensures var ms := WholeMs(p[id].0 - now);
            ms <= timeout && 0 <= res && (res <= timeout <==> ms >= INT_MIN || Narrow(ms) <= timeout)
  {
    var ms := WholeMs(p[id].0 - now);
    WholeMsBounds(p[id].0 - now);
    assert ms * NS_PER_MS <= timeout * NS_PER_MS || ms <= 0;
  }

  class Clock {
    var now: int

    constructor (start: int)
      ensures now == start
    {
      now := start;
    }

    /** Time does not run backwards; nothing else is known about it. */
    method Read() returns (t: int)
      modifies this
      ensures t == now && now >= old(now)
    {
      t :| t >= now;
      now := t;
    }
  }

  class HeapTimer {
    const timeoutMs: Int32
    var heap: seq<TimerNode>
    var ref: map<int, nat>

    ghost predicate Valid()
      reads this
    {
      Indexed(heap, ref)
    }

    ghost predicate Ordered()
      reads this
    {
      OrderedTo(heap, |heap|)
    }

    ghost function Pending(): map<int, (int, Callback)>
      reads this
      requires Valid()
    {
      Entries(heap, ref)
    }

    constructor (timeoutMs: Int32)
      ensures Valid() && Ordered() && Pending() == map[] && this.timeoutMs == timeoutMs
    {
      this.timeoutMs := timeoutMs;
      heap, ref := [], map[];
    }

    method SwapNode(i: nat, j: nat)
      requires Valid() && i < |heap| && j < |heap|
      modifies this
      ensures Valid() && Pending() == old(Pending())
      ensures heap == Swapped(old(heap), i, j)
    {
      heap := heap[i := heap[j]][j := heap[i]];
      ref := ref[heap[i].id := i];
      ref := ref[heap[j].id := j];
      assert Valid();
      assert forall id :: id in ref ==> heap[ref[id]] == old(heap[ref[id]]);
    }

    method SiftUp(i: nat, ghost n: nat)
      requires Valid() && i < n <= |heap|
      modifies this
      ensures Valid() && Pending() == old(Pending()) && SameFrom(n, heap, old(heap))
      ensures old(OrderedAround(heap, n, i) && ChildrenOk(heap, n, i)) ==> OrderedTo(heap, n)
    {
      var k: nat := i;
      ghost var fine := OrderedAround(heap, n, i) && ChildrenOk(heap, n, i);
      while k > 0
        invariant Valid() && Pending() == old(Pending()) && SameFrom(n, heap, old(heap))
        invariant k < n
        invariant fine ==> OrderedAround(heap, n, k) && ChildrenOk(heap, n, k)
      {
        var j := (k - 1) / 2;
        if heap[j].expires < heap[k].expires { break; }
        if fine { SwapUp(heap, n, k); }
        SwapNode(k, j);
        k := j;
      }
    }

    /** The child of `i` that expires first, the left one on a tie. */
    method EarlierChild(i: nat, n: nat) returns (j: nat)
      requires 2 * i + 1 < n <= |heap|
      ensures j < n && (j == 2 * i + 1 || j == 2 * i + 2) && heap[j].expires <= heap[2 * i + 1].expires
      ensures 2 * i + 2 < n ==> heap[j].expires <= heap[2 * i + 2].expires
    {
      j := i * 2 + 1;
      if j + 1 < n && heap[j + 1].expires < heap[j].expires { j := j + 1; }
    }

    method SiftDown(index: nat, n: nat) returns (moved: bool)
      requires Valid() && index < n <= |heap|
      modifies this
      ensures Valid() && Pending() == old(Pending()) && SameFrom(n, heap, old(heap))
      ensures !moved ==> heap == old(heap)
      ensures !moved && old(OrderedAround(heap, n, index)) ==> ChildrenOk(heap, n, index)
      ensures moved && old(OrderedAround(heap, n, index)) ==> OrderedTo(heap, n)
      ensures moved ==> exists k: nat :: 0 < k < n && Parent(k) == index && old(heap)[k].expires <= old(heap)[index].expires
    {
      var i: nat := index;
      var j: nat;
      ghost var child: nat := 0;
      ghost var fine := OrderedAround(heap, n, index);
      while i * 2 + 1 < n
        invariant Valid() && Pending() == old(Pending()) && SameFrom(n, heap, old(heap))
        invariant index <= i < n
        invariant i == index ==> heap == old(heap)
        invariant fine == old(OrderedAround(heap, n, index))
        invariant i > index ==> 0 < child < n && Parent(child) == index && old(heap)[child].expires <= old(heap)[index].expires
        invariant fine ==> OrderedAround(heap, n, i) && (i > index ==> PairOk(heap, i))
      {
        j := EarlierChild(i, n);
        if heap[i].expires < heap[j].expires { break; }
        if fine { SwapDownEarlier(heap, n, i, j); }
        if i == index { child := j; }
        SwapNode(i, j);
        i := j;
      }
      NoEarlierChild(heap, n, i);
      moved := i > index;
    }

    /** The first half of `Del`: brings the node at `index` to the back and repairs the order of the others. */
    method MoveToBack(index: nat)
      requires Valid() && index < |heap|
      modifies this
      ensures Valid() && Pending() == old(Pending()) && |heap| == |old(heap)|
      ensures heap[|heap| - 1] == old(heap)[index]
      ensures old(Ordered()) ==> OrderedTo(heap, |heap| - 1)
    {
      var n := |heap| - 1;
      ghost var fine := Ordered();
      if index < n {
        if fine { ReplaceByLast(heap, index); }
        SwapNode(index, n);
        var moved := SiftDown(index, n);
        if !moved { SiftUp(index, n); }
      } else if fine {
        assert forall k: nat :: 0 < k < n ==> PairOk(heap, k);
      }
    }

    /** Removes the node at `index`. */
    method Del(index: nat)
      requires Valid() && index < |heap|
      modifies this
      ensures Valid() && Pending() == old(Pending() - {heap[index].id}) && |heap| == old(|heap|) - 1
      ensures old(Ordered()) ==> Ordered()
    {
      MoveToBack(index);
      var n := |heap| - 1;
      DropLast(heap, ref);
      ref := ref - {heap[n].id};
      heap := heap[..n];
    }

    /** Appends a node for a new id. */
    method Insert(node: TimerNode)
      requires Valid() && node.id !in ref
      modifies this
      ensures Valid() && Pending() == old(Pending())[node.id := (node.expires, node.cb)]
      ensures old(Ordered()) ==> Ordered()
    {
      var i := |heap|;
      AppendNode(heap, ref, node);
      ref := ref[node.id := i];
      heap := heap + [node];
      SiftUp(i, |heap|);
    }

    /** Gives the node of a known id a new expiry and a new callback. */
    method Overwrite(i: nat, expires: int, cb: Callback)
      requires Valid() && i < |heap|
      modifies this
      ensures Valid() && Pending() == old(Pending())[old(heap)[i].id := (expires, cb)]
      ensures old(Ordered()) ==> Ordered()
    {
      ghost var node := heap[i].(expires := expires, cb := cb);
      if Ordered() { ReplaceNode(heap, i, node); }
      UpdateNode(heap, ref, node);
      heap := heap[i := heap[i].(expires := expires)];
      heap := heap[i := heap[i].(cb := cb)];
      assert heap == old(heap)[i := node];
      var moved := SiftDown(i, |heap|);
      if !moved { SiftUp(i, |heap|); }
    }

    /** Sets the timer `id` to `timeout` milliseconds from now, whether or not it was pending. */
    method Add(id: int, timeout: Int32, cb: Callback, clock: Clock)
      requires Valid()
      modifies this, clock
      ensures Valid() && clock.now >= old(clock.now)
      ensures Pending() == old(Pending())[id := (clock.now + timeout * NS_PER_MS, cb)]
      ensures old(Ordered()) ==> Ordered()
    {
      var t := clock.Read();
      if id !in ref {
        Insert(TimerNode(id, t + timeout * NS_PER_MS, cb));
      } else {
        Overwrite(ref[id], t + timeout * NS_PER_MS, cb);
      }
    }

    method Cancel(id: int)
      requires Valid()
      modifies this
      ensures Valid() && Pending() == old(Pending()) - {id} && |heap| <= old(|heap|)
      ensures old(Ordered()) ==> Ordered()
    {
      if heap == [] || id !in ref { return; }
      Del(ref[id]);
    }

    /** The moment now, for a call during which other threads do `others`. */
    ghost function Now(clock: Clock, others: seq<seq<Atom>>): Origin
      reads this, clock
      requires Valid()
    {
      var timely := NoneAfter(Pending(), clock.now + timeoutMs * NS_PER_MS);
      Origin(Pending(), clock.now, Ordered() && (others == [] || timely), timely)
    }

    /** `h` is what has been done to the timers since `o`. */
    ghost predicate Since(o: Origin, h: seq<Done>, clock: Clock)
      reads this, clock
    {
      && Valid() && Pending() == Replay(o.p, timeoutMs, h) && Legal(o.p, timeoutMs, h, o.calm)
      && Clocked(Times(h), o.start, clock.now)
      && (o.calm ==> Ordered()) && (o.timely ==> NoneAfter(Pending(), clock.now + timeoutMs * NS_PER_MS))
    }

    /** The call that a locked section of another thread makes. */
    method Apply(a: Atom, clock: Clock)
      requires Valid()
      modifies this, clock
      ensures Valid() && clock.now >= old(clock.now)
      ensures Pending() == Effect(old(Pending()), timeoutMs, Other(a, clock.now))
      ensures old(NoneAfter(Pending(), clock.now + timeoutMs * NS_PER_MS)) ==>
                NoneAfter(Pending(), clock.now + timeoutMs * NS_PER_MS) && (old(Ordered()) ==> Ordered())
    {
      ghost var p, now := Pending(), clock.now;
      match a {
        case Set(id, cb) => Add(id, timeoutMs, cb, clock);
        case Renew(id) => Adjust(id, timeoutMs, clock);
        case Drop(id) => Cancel(id);
      }
      if NoneAfter(p, now + timeoutMs * NS_PER_MS) { StaysTimely(p, timeoutMs, a, now, clock.now); }
    }

    /** One locked section of another thread. */
    method Perform(a: Atom, clock: Clock, ghost o: Origin, ghost h: seq<Done>) returns (ghost h': seq<Done>)
      requires Since(o, h, clock) && (o.calm ==> o.timely)
      modifies this, clock
      ensures Since(o, h', clock) && clock.now >= old(clock.now)
      ensures h <= h' && FiredIn(h') == FiredIn(h) && OwnIn(h') == OwnIn(h) && OthersIn(h') == OthersIn(h) + [a]
    {
      ghost var now := clock.now;
      Apply(a, clock);
      h' := h + [Other(a, clock.now)];
      DoneSnoc(o, timeoutMs, h, Other(a, clock.now), now, clock.now);
    }

    /** Whatever other threads do while the lock is free: the next burst of `others`, of which `n` have gone by. */
    method LetIn(clock: Clock, others: seq<seq<Atom>>, n: nat,
                 ghost o: Origin, ghost h: seq<Done>)
        returns (n': nat, ghost h': seq<Done>)
      requires Since(o, h, clock) && n <= |others| && OthersIn(h) == Flat(others[..n]) && Reliable(o, others)
      modifies this, clock
      ensures clock.now >= old(clock.now)
      ensures Since(o, h', clock) && n <= n' <= |others| && OthersIn(h') == Flat(others[..n'])
      ensures h <= h' && FiredIn(h') == FiredIn(h) && OwnIn(h') == OwnIn(h)
      ensures n == |others| ==> heap == old(heap) && ref == old(ref) && h' == h && clock.now == old(clock.now)
      ensures n < |others| ==> n' == n + 1
    {
      n', h' := n, h;
      if n < |others| {
        for k := 0 to |others[n]|
          invariant clock.now >= old(clock.now)
          invariant Since(o, h', clock) && h <= h' && FiredIn(h') == FiredIn(h) && OwnIn(h') == OwnIn(h)
          invariant OthersIn(h') == Flat(others[..n]) + others[n][..k]
        {
          h' := Perform(others[n][k], clock, o, h');
        }
        assert others[n][..|others[n]|] == others[n];
        FlatSnoc(others, n);
        n' := n + 1;
      }
    }

    /** This thread takes out `id`, as a callback does or on its way to one. */
    method TakeOut(id: int, clock: Clock, ghost o: Origin, ghost h: seq<Done>) returns (ghost h': seq<Done>)
      requires Since(o, h, clock)
      modifies this
      ensures Since(o, h', clock) && Pending() == old(Pending()) - {id} && |heap| <= old(|heap|)
      ensures FiredIn(h') == FiredIn(h) && OwnIn(h') == OwnIn(h) + [id] && OthersIn(h') == OthersIn(h)
    {
      Cancel(id);
      h' := h + [Cancelled(id)];
      DoneSnoc(o, timeoutMs, h, Cancelled(id), clock.now, clock.now);
    }

    /** A callback cancels one id, other threads first. */
    method CancelNext(id: int, clock: Clock, others: seq<seq<Atom>>, n: nat, ghost o: Origin, ghost h: seq<Done>)
        returns (n': nat, ghost h': seq<Done>)
      requires Since(o, h, clock) && n <= |others| && OthersIn(h) == Flat(others[..n]) && Reliable(o, others)
      modifies this, clock
      ensures Since(o, h', clock) && n <= n' <= |others| && OthersIn(h') == Flat(others[..n'])
      ensures FiredIn(h') == FiredIn(h) && OwnIn(h') == OwnIn(h) + [id]
      ensures n' == n ==> |heap| <= old(|heap|)
      ensures n == |others| ==> Pending() == old(Pending()) - {id} && clock.now == old(clock.now)
    {
      n', h' := LetIn(clock, others, n, o, h);
      h' := TakeOut(id, clock, o, h');
    }

    /** Runs a callback: all it can do to the timer is cancel ids, taking the lock for each. */
    method RunCallback(cb: Callback, clock: Clock, others: seq<seq<Atom>>, n: nat, ghost o: Origin, ghost h: seq<Done>)
        returns (n': nat, ghost h': seq<Done>)
      requires Since(o, h, clock) && n <= |others| && OthersIn(h) == Flat(others[..n]) && Reliable(o, others)
      modifies this, clock
      ensures Since(o, h', clock) && n <= n' <= |others| && OthersIn(h') == Flat(others[..n'])
      ensures FiredIn(h') == FiredIn(h) && OwnIn(h') == OwnIn(h) + CancelList(cb)
      ensures n' == n ==> |heap| <= old(|heap|)
      ensures n == |others| ==> Pending() == old(Pending()) - Cancels(cb) && clock.now == old(clock.now)
    {
      n', h' := n, h;
      var ids := CancelList(cb);
      assert ids[..0] == [] && old(Pending()) - Among(ids[..0]) == old(Pending());
      for k := 0 to |ids|
        invariant Since(o, h', clock) && n <= n' <= |others| && OthersIn(h') == Flat(others[..n'])
        invariant FiredIn(h') == FiredIn(h) && OwnIn(h') == OwnIn(h) + ids[..k]
        invariant n' == n ==> |heap| <= old(|heap|)
        invariant n == |others| ==> Pending() == old(Pending()) - Among(ids[..k]) && clock.now == old(clock.now)
      {
        n', h' := CancelNext(ids[k], clock, others, n', o, h');
        OneIdMore(old(Pending()), ids, k);
      }
      assert ids[..|ids|] == ids;
    }

    /** Removes timer `id` and runs its callback. */
    method DoWork(id: int, clock: Clock, others: seq<seq<Atom>>) returns (n: nat, ghost h: seq<Done>)
      requires Valid()
      modifies this, clock
      ensures Since(old(Now(clock, others)), h, clock)
      ensures n <= |others| && OthersIn(h) == Flat(others[..n]) && FiredIn(h) == []
      ensures OwnIn(h) == if id in old(Pending()) then [id] + CancelList(old(Pending())[id].1) else []
      ensures others == [] ==>
                Pending() == if id in old(Pending()) then old(Pending()) - {id} - Cancels(old(Pending())[id].1) else old(Pending())
    {
      n, h := 0, [];
      if heap == [] || id !in ref { return; }
      ghost var o := Now(clock, others);
      var cb := heap[ref[id]].cb;
      h := TakeOut(id, clock, o, h);
      n, h := RunCallback(cb, clock, others, 0, o, h);
    }

    /** A new expiry for node `i`, followed by a sift down only: heap order survives exactly when the new expiry is
        not before the parent's. */
    method Rearm(i: nat, expires: int)
      requires Valid() && i < |heap|
      modifies this
      ensures Valid() && Pending() == old(Pending())[old(heap)[i].id := (expires, old(heap)[i].cb)]
      ensures old(Ordered()) ==> (Ordered() <==> i == 0 || old(heap)[Parent(i)].expires <= expires)
    {
      ghost var h, node := heap, heap[i].(expires := expires);
      ghost var fine := Ordered();
      if fine { ReplaceNode(heap, i, node); }
      UpdateNode(heap, ref, node);
      heap := heap[i := heap[i].(expires := expires)];
      ghost var g := heap;
      var moved := SiftDown(i, |heap|);
      if fine && i > 0 {
        assert PairOk(h, i);
        if h[Parent(i)].expires <= expires {
          assert PairOk(g, i);
        } else {
          assert forall k: nat :: 0 < k < |h| && Parent(k) == i ==> PairOk(h, k);
          assert !moved && !PairOk(heap, i);
        }
      }
    }

    /** Re-arms timer `id`.  The code only sifts down. */
    method Adjust(id: int, timeout: Int32, clock: Clock)
      requires Valid()
      modifies this, clock
      ensures Valid() && clock.now >= old(clock.now)
      ensures id !in old(Pending()) ==> heap == old(heap) && Pending() == old(Pending())
      ensures id in old(Pending()) ==>
                Pending() == old(Pending())[id := (clock.now + timeout * NS_PER_MS, old(Pending())[id].1)]
      ensures old(Ordered()) && id in old(ref) ==>
                (Ordered() <==> old(ref[id]) == 0 || clock.now + timeout * NS_PER_MS >= old(heap[Parent(ref[id])].expires))
      ensures old(Ordered()) && NoneAfter(old(Pending()), clock.now + timeout * NS_PER_MS) ==> Ordered()
    {
      if heap == [] || id !in ref { return; }
      var i := ref[id];
      var t := clock.Read();
      if i > 0 { assert heap[Parent(i)].id in Pending(); }
      Rearm(i, t + timeout * NS_PER_MS);
    }

    /** Removes the front node. */
    method Pop()
      requires Valid() && heap != []
      modifies this
      ensures Valid() && Pending() == old(Pending()) - {old(heap)[0].id}
      ensures old(Ordered()) ==> Ordered() && forall id :: id in old(Pending()) ==> old(heap)[0].expires <= old(Pending())[id].0
    {
      Front(heap, ref);
      Del(0);
    }

    method Clear()
      modifies this
      ensures Valid() && Ordered() && Pending() == map[]
    {
      ref := map[];
      heap := [];
    }

    /** Removes the front node and runs its callback. */
    method FireFront(t: int, clock: Clock, others: seq<seq<Atom>>, n: nat,
                     ghost o: Origin, ghost h: seq<Done>)
        returns (n': nat, ghost h': seq<Done>)
      requires Since(o, h, clock) && n <= |others| && OthersIn(h) == Flat(others[..n]) && Reliable(o, others)
      requires heap != [] && t == clock.now && MayFire(Pending(), heap[0], t, o.calm)
      modifies this, clock
      ensures Since(o, h', clock) && n <= n' <= |others| && OthersIn(h') == Flat(others[..n'])
      ensures FiredIn(h') == FiredIn(h) + [old(heap)[0]]
      ensures OwnIn(h') == OwnIn(h) + [old(heap)[0].id] + CancelList(old(heap)[0].cb)
      ensures n' == n ==> |heap| < old(|heap|)
      ensures n == |others| ==>
                Pending() == old(Pending()) - {old(heap)[0].id} - Cancels(old(heap)[0].cb) && clock.now == old(clock.now)
    {
      var node := heap[0];
      Del(0);
      DoneSnoc(o, timeoutMs, h, Fired(node, t), t, t);
      n', h' := RunCallback(node.cb, clock, others, n, o, h + [Fired(node, t)]);
    }

    /** One turn of `Tick`: other threads first; then the front node, if it is due, is fired. */
    method FireNext(clock: Clock, others: seq<seq<Atom>>, n: nat, ghost o: Origin, ghost h: seq<Done>)
        returns (due: Option<(TimerNode, int)>, n': nat, ghost h': seq<Done>)
      requires Since(o, h, clock) && n <= |others| && OthersIn(h) == Flat(others[..n]) && Reliable(o, others)
      modifies this, clock
      ensures Since(o, h', clock) && n <= n' <= |others| && OthersIn(h') == Flat(others[..n'])
      ensures due.None? ==> FiredIn(h') == FiredIn(h) && OwnIn(h') == OwnIn(h) && (o.calm ==> NoneDue(Pending(), clock.now))
      ensures due.Some? ==> FiredIn(h') == FiredIn(h) + [due.value.0]
      ensures due.Some? ==> OwnIn(h') == OwnIn(h) + [due.value.0.id] + CancelList(due.value.0.cb)
      ensures due.Some? && n' == n ==> |heap| < old(|heap|)
      ensures others == [] && due.None? ==> Pending() == old(Pending())
      ensures others == [] && due.Some? ==>
                var (node, t) := due.value;
                && MayFire(old(Pending()), node, t, o.calm) && old(clock.now) <= t == clock.now
                && Pending() == old(Pending()) - {node.id} - Cancels(node.cb)
    {
      due := None;
      n', h' := LetIn(clock, others, n, o, h);
      Front(heap, ref);
      if heap == [] { return; }
      var node := heap[0];
      var t := clock.Read();
      if WholeMs(node.expires - t) > 0 {
        if o.calm { LaterIsNotDue(Pending(), node, t); }
        return;
      }
      n', h' := FireFront(t, clock, others, n', o, h');
      due := Some((node, t));
    }

    /** Fires every timer that is due, while other threads use the timer whenever it is unlocked: `others` holds what
        they do each time, of which `n` got their turn.  `fired` and `times` record what was fired and at which clock
        readings, and `h` everything that was done. */
    method Tick(clock: Clock, others: seq<seq<Atom>>)
        returns (fired: seq<TimerNode>, times: seq<int>, n: nat, ghost h: seq<Done>)
      requires Valid()
      modifies this, clock
      ensures Since(old(Now(clock, others)), h, clock)
      ensures FiredIn(h) == fired && OwnIn(h) == Script(fired) && n <= |others| && OthersIn(h) == Flat(others[..n])
      ensures old(Now(clock, others)).calm ==> NoneDue(Pending(), clock.now)
      ensures others == [] ==>
                LegalFiring(old(Pending()), old(clock.now), fired, times) && Pending() == old(Pending()) - Removed(fired)
      ensures others == [] && old(Ordered()) ==> ByExpiry(fired)
    {
      fired, times, n, h := [], [], 0, [];
      ghost var o := Now(clock, others);
      while true
        invariant Since(o, h, clock) && n <= |others| && OthersIn(h) == Flat(others[..n])
        invariant FiredIn(h) == fired && OwnIn(h) == Script(fired)
        invariant others == [] ==> Alone(o, clock.now, fired, times, Pending())
        decreases |others| - n, |heap|
      {
        ghost var q, now := Pending(), clock.now;
        var due;
        due, n, h := FireNext(clock, others, n, o, h);
        if due.None? { break; }
        var (node, t) := due.value;
        ScriptSnoc(fired, node);
        if others == [] { FiredAlone(o, now, fired, times, q, node, t, Pending()); }
        fired, times := fired + [node], times + [t];
      }
    }

    /** The wait for the front node. */
    method Wait(clock: Clock) returns (res: Int32)
      requires Valid()
      modifies clock
      ensures clock.now >= old(clock.now) && (res == -1 <==> Pending() == map[]) && -1 <= res
      ensures Ordered() && Pending() != map[] ==> exists id :: WaitFor(Pending(), clock.now, res, id)
    {
      res := -1;
      Front(heap, ref);
      if heap != [] {
        var t := clock.Read();
        res := Narrow(WholeMs(heap[0].expires - t));
        if res < 0 { res := 0; }
        assert Ordered() ==> WaitFor(Pending(), clock.now, res, heap[0].id);
      }
    }

    /** Fires what is due, and tells the wait until the next expiry in milliseconds.  Other threads may get in between
        the ticking and the look.  `ticked` is what was fired, and what had been done when the ticking was over. */
    method GetNextTick(clock: Clock, others: seq<seq<Atom>>) returns (res: Int32, n: nat, ghost ticked: Ticked, ghost h: seq<Done>)
      requires Valid()
      modifies this, clock
      ensures Since(old(Now(clock, others)), h, clock) && n <= |others| && OthersIn(h) == Flat(others[..n])
      ensures ticked.h <= h && OwnIn(h) == OwnIn(ticked.h) == Script(ticked.fired) && FiredIn(ticked.h) == ticked.fired
      ensures old(clock.now) <= ticked.at <= clock.now
      ensures old(Now(clock, others)).calm ==> NoneDue(Replay(old(Pending()), timeoutMs, ticked.h), ticked.at)
      ensures others == [] ==>
                && LegalFiring(old(Pending()), old(clock.now), ticked.fired, ticked.times)
                && Pending() == old(Pending()) - Removed(ticked.fired) && (old(Ordered()) ==> NoneDue(Pending(), ticked.at))
      ensures (res == -1 <==> Pending() == map[]) && -1 <= res
      ensures old(Now(clock, others)).calm && Pending() != map[] ==> exists id :: WaitFor(Pending(), clock.now, res, id)
      ensures old(Now(clock, others)).calm && old(Now(clock, others)).timely && timeoutMs >= 0 ==>
                res <= timeoutMs || exists id :: id in Pending() && WholeMs(Pending()[id].0 - clock.now) < INT_MIN
    {
      ghost var o := Now(clock, others);
      var fired, times, n', h' := Tick(clock, others);
      ticked := Ticked(fired, times, h', clock.now);
      n, h := LetIn(clock, others, n', o, h');
      res := Wait(clock);
      if o.calm && o.timely && timeoutMs >= 0 && Pending() != map[] {
        ghost var id :| WaitFor(Pending(), clock.now, res, id);
        WaitIsBounded(Pending(), clock.now, timeoutMs, res, id);
      }
    }
  }

  /** What a tick fired, at which clock readings, what had been done by then, and when it was over. */
  datatype Ticked = Ticked(fired: seq<TimerNode>, times: seq<int>, h: seq<Done>, at: int)

  /** The calls the server makes; one that fires timers leaves other threads in between. */
  datatype Call = Locked(a: Atom) | Work(id: int, others: seq<seq<Atom>>) | First | Due(others: seq<seq<Atom>>)
                | Next(others: seq<seq<Atom>>) | Reset

  /** What the server relies on: heap order, and no expiry further away than the timeout. */
  ghost predicate ServerOk(timer: HeapTimer, clock: Clock)
    reads timer, clock
  {
    timer.Valid() && timer.Ordered() && NoneAfter(timer.Pending(), clock.now + timer.timeoutMs * NS_PER_MS)
  }

  /** The pending timers and the time, between two calls. */
  datatype Moment = Moment(p: Timers, now: int)

  ghost function AtMoment(timer: HeapTimer, clock: Clock): Moment
    reads timer, clock
    requires timer.Valid()
  {
    Moment(timer.Pending(), clock.now)
  }

  /** `h`, in which other threads had `n` of their turns, leads from `m` to `m'`; every timer in it that was fired was
      pending, due and an earliest one. */
  ghost predicate Leads(timeout: int, m: Moment, m': Moment, h: seq<Done>, others: seq<seq<Atom>>, n: nat) {
    && m'.p == Replay(m.p, timeout, h) && Legal(m.p, timeout, h, true) && Clocked(Times(h), m.now, m'.now)
    && n <= |others| && OthersIn(h) == Flat(others[..n])
  }

  /** By the time `at`, in the course of `h`, nothing was due any more. */
  ghost predicate TickedBy(timeout: int, m: Moment, h: seq<Done>, ticked: Ticked) {
    && ticked.h <= h && OwnIn(h) == OwnIn(ticked.h) == Script(ticked.fired) && FiredIn(ticked.h) == ticked.fired
    && m.now <= ticked.at && NoneDue(Replay(m.p, timeout, ticked.h), ticked.at)
  }

  ghost predicate WorkDoes(timeout: int, m: Moment, m': Moment, id: int, others: seq<seq<Atom>>, h: seq<Done>, n: nat) {
    Leads(timeout, m, m', h, others, n) && OwnIn(h) == if id in m.p then [id] + CancelList(m.p[id].1) else []
  }

  ghost predicate TickDoes(timeout: int, m: Moment, m': Moment, others: seq<seq<Atom>>, h: seq<Done>, n: nat, ticked: Ticked) {
    Leads(timeout, m, m', h, others, n) && TickedBy(timeout, m, h, ticked) && ticked.at <= m'.now
  }

  ghost predicate EarliestIn(p: Timers, id: int) { id in p && forall other :: other in p ==> p[id].0 <= p[other].0 }

  /** What a call does to the pending timers, from `m` to `m'`. */
  ghost predicate CallDoes(timeout: int, c: Call, m: Moment, m': Moment) {
    m.now <= m'.now &&
    match c
    case Locked(a) => m'.p == Effect(m.p, timeout, Other(a, m'.now))
    case Work(id, others) => exists h, n :: WorkDoes(timeout, m, m', id, others, h, n)
    case First => if m.p == map[] then m'.p == m.p else exists id :: EarliestIn(m.p, id) && m'.p == m.p - {id}
    case Due(others) => exists h, n, ticked :: TickDoes(timeout, m, m', others, h, n, ticked) && ticked.h == h
    case Next(others) => exists h, n, ticked :: TickDoes(timeout, m, m', others, h, n, ticked)
    case Reset => m'.p == map[]
  }

  method MakeTick(timer: HeapTimer, clock: Clock, others: seq<seq<Atom>>)
    requires ServerOk(timer, clock)
    modifies timer, clock
    ensures ServerOk(timer, clock) && CallDoes(timer.timeoutMs, Due(others), old(AtMoment(timer, clock)), AtMoment(timer, clock))
  {
    ghost var m := AtMoment(timer, clock);
    var fired, times, n, h := timer.Tick(clock, others);
    ghost var ticked := Ticked(fired, times, h, clock.now);
    assert TickDoes(timer.timeoutMs, m, AtMoment(timer, clock), others, h, n, ticked);
  }

  method MakeNext(timer: HeapTimer, clock: Clock, others: seq<seq<Atom>>)
    requires ServerOk(timer, clock)
    modifies timer, clock
    ensures ServerOk(timer, clock) && CallDoes(timer.timeoutMs, Next(others), old(AtMoment(timer, clock)), AtMoment(timer, clock))
  {
    ghost var m := AtMoment(timer, clock);
    var res, n, ticked, h := timer.GetNextTick(clock, others);
    assert TickDoes(timer.timeoutMs, m, AtMoment(timer, clock), others, h, n, ticked);
  }

  method MakeWork(timer: HeapTimer, clock: Clock, id: int, others: seq<seq<Atom>>)
    requires ServerOk(timer, clock)
    modifies timer, clock
    ensures ServerOk(timer, clock) && CallDoes(timer.timeoutMs, Work(id, others), old(AtMoment(timer, clock)), AtMoment(timer, clock))
  {
    ghost var m := AtMoment(timer, clock);
    var n, h := timer.DoWork(id, clock, others);
    assert WorkDoes(timer.timeoutMs, m, AtMoment(timer, clock), id, others, h, n);
  }

  method MakeFirst(timer: HeapTimer, clock: Clock)
    requires ServerOk(timer, clock)
    modifies timer
    ensures ServerOk(timer, clock) && CallDoes(timer.timeoutMs, First, old(AtMoment(timer, clock)), AtMoment(timer, clock))
  {
    Front(timer.heap, timer.ref);
    ghost var p := timer.Pending();
    if timer.heap != [] {
      ghost var id := timer.heap[0].id;
      timer.Pop();
      assert EarliestIn(p, id);
    }
  }

  /** One call of the server. */
  method Make(timer: HeapTimer, clock: Clock, c: Call)
    requires ServerOk(timer, clock)
    modifies timer, clock
    ensures ServerOk(timer, clock) && CallDoes(timer.timeoutMs, c, old(AtMoment(timer, clock)), AtMoment(timer, clock))
  {
    match c {
      case Locked(a) => timer.Apply(a, clock);
      case Work(id, others) => MakeWork(timer, clock, id, others);
      case First => MakeFirst(timer, clock);
      case Due(others) => MakeTick(timer, clock, others);
      case Next(others) => MakeNext(timer, clock, others);
      case Reset => timer.Clear();
    }
  }

  /** Every sequence of the server's calls, at whatever times and with whatever other threads do meanwhile, keeps the
      heap ordered: with one timeout and a clock that does not run backwards, `Adjust` never has to sift up.  `log` holds
      the moments between the calls, each of which did what it is for. */
  method ServerRun(timer: HeapTimer, clock: Clock, calls: seq<Call>) returns (ghost log: seq<Moment>)
    requires ServerOk(timer, clock)
    modifies timer, clock
    ensures ServerOk(timer, clock)
    ensures |log| == |calls| + 1 && log[0] == old(AtMoment(timer, clock)) && log[|calls|] == AtMoment(timer, clock)
    ensures forall k :: 0 <= k < |calls| ==> CallDoes(timer.timeoutMs, calls[k], log[k], log[k + 1])
  {
    log := [AtMoment(timer, clock)];
    for k := 0 to |calls|
      invariant ServerOk(timer, clock)
      invariant |log| == k + 1 && log[0] == old(AtMoment(timer, clock)) && log[k] == AtMoment(timer, clock)
      invariant forall j :: 0 <= j < k ==> CallDoes(timer.timeoutMs, calls[j], log[j], log[j + 1])
    {
      Make(timer, clock, calls[k]);
      log := log + [AtMoment(timer, clock)];
    }
  }
}
