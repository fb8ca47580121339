/** The asynchronous logger: any threads enqueue entries, one writer thread drains the queue into the log file. */
module AsyncLog {
  import opened Wrappers
  import opened QueueProtocol
  import opened QueueInvariant
  import opened QueueTheorems
  import opened QueueProgress

  /** Where the writer thread stands in `async_write`. */
  datatype WriterPc<T> =
    | Looping             // about to call dequeue in the main loop
    | LoopDequeue         // inside that call
    | LoopWrite(v: T)     // appending the entry it returned
    | TestStop            // the call returned false
    | Draining            // about to call dequeue after the main loop
    | DrainDequeue
    | DrainWrite(v: T)
    | Exited

  datatype LogState<T> = LogState(q: State<T>, file: seq<T>, stop: bool, pc: WriterPc<T>)

  const WRITER: Tid := 0

  datatype LogLabel<T> = Producer(l: Label<T>) | Writer(spurious: bool, residue: T) | Stop

  /** What threads other than the writer do with the queue: they only enqueue. */
  predicate ProducerLabel<T>(l: Label<T>) { l.t != WRITER && !l.CallDequeue? }

  function LogInit<T>(cap: nat, fill: T): LogState<T>
    requires 2 <= cap
  {
    LogState(Init(cap, fill), [], false, Looping)
  }

  function LogAct<T>(s: LogState<T>, l: LogLabel<T>): (s': LogState<T>)
    requires s.q.WellFormed()
    ensures s'.q.WellFormed()
  {
    match l
    case Producer(l) => if ProducerLabel(l) then s.(q := Act(s.q, l)) else s
    case Stop => s.(stop := true)
    case Writer(spurious, residue) =>
      match s.pc
      case Looping => s.(q := Act(s.q, CallDequeue(WRITER)), pc := LoopDequeue)
      case LoopDequeue =>
        var q := Act(s.q, Access(WRITER, spurious, residue));
        (match q.PcOf(WRITER)
         case DeqReturned(Some((_, v))) => s.(q := q, pc := LoopWrite(v))
         case DeqReturned(None) => s.(q := q, pc := TestStop)
         case _ => s.(q := q))
      case LoopWrite(v) => s.(file := s.file + [v], pc := Looping)
      case TestStop => s.(pc := if s.stop then Draining else Looping)
      case Draining => s.(q := Act(s.q, CallDequeue(WRITER)), pc := DrainDequeue)
      case DrainDequeue =>
        var q := Act(s.q, Access(WRITER, spurious, residue));
        (match q.PcOf(WRITER)
         case DeqReturned(Some((_, v))) => s.(q := q, pc := DrainWrite(v))
         case DeqReturned(None) => s.(q := q, pc := Exited)
         case _ => s.(q := q))
      case DrainWrite(v) => s.(file := s.file + [v], pc := Draining)
      case Exited => s
  }

  function LogRun<T>(s: LogState<T>, ls: seq<LogLabel<T>>): (s': LogState<T>)
    requires s.q.WellFormed()
    ensures s'.q.WellFormed()
    decreases |ls|
  {
    if ls == [] then s else LogRun(LogAct(s, ls[0]), ls[1..])
  }

  /** The writer has claimed the latest tail ticket and has not written its entry yet. */
  ghost predicate EntryInHand<T>(s: LogState<T>) {
    s.pc.LoopWrite? || s.pc.DrainWrite? || s.q.PcOf(WRITER).DeqTake? || s.q.PcOf(WRITER).DeqRelease?
  }

  ghost predicate LogInv<T>(s: LogState<T>) {
    var w := s.q.PcOf(WRITER);
    && Inv(s.q)
    && (forall t: Tid :: t != WRITER ==> !InDequeue(s.q.PcOf(t)))
    && ((s.pc.LoopDequeue? || s.pc.DrainDequeue?) <==> InDequeue(w))
    && (Ready(w) || InDequeue(w))
    && (w.DeqTake? || w.DeqRelease? ==> w.pos == s.q.tail - 1)
    && (s.pc.LoopWrite? || s.pc.DrainWrite? ==> s.q.tail > 0 && s.q.accepted[s.q.tail - 1] == s.pc.v)
    && s.file == s.q.accepted[..s.q.tail - if EntryInHand(s) then 1 else 0]
  }

  lemma LogInitInv<T>(cap: nat, fill: T)
    requires 2 <= cap
    ensures LogInv(LogInit(cap, fill))
  {
    InitInv(cap, fill);
  }

  lemma ProducerStepInv<T>(s: LogState<T>, l: Label<T>)
    requires LogInv(s) && ProducerLabel(l)
    ensures LogInv(LogAct(s, Producer(l)))
  {
    StepInv(s.q, l);
    OthersStay(s.q, l);
    EnqueueSide(s.q, l);
  }

  lemma WriterDequeueInv<T>(s: LogState<T>, l: LogLabel<T>)
    requires LogInv(s) && l.Writer? && (s.pc.LoopDequeue? || s.pc.DrainDequeue?)
    ensures LogInv(LogAct(s, l))
  {
    var a := Access(WRITER, l.spurious, l.residue);
    StepInv(s.q, a);
    OthersStay(s.q, a);
    DequeueSide(s.q, a);
    var s' := LogAct(s, l);
    assert s'.q == Act(s.q, a) && s'.file == s.file;
    var w' := s'.q.PcOf(WRITER);
    assert w'.DeqReturned? <==> s'.pc != s.pc;
  }

  lemma WriterStepInv<T>(s: LogState<T>, l: LogLabel<T>)
    requires LogInv(s) && l.Writer?
    ensures LogInv(LogAct(s, l))
  {
    if s.pc.Looping? || s.pc.Draining? {
      StepInv(s.q, CallDequeue(WRITER));
      OthersStay(s.q, CallDequeue(WRITER));
    } else if s.pc.LoopDequeue? || s.pc.DrainDequeue? {
      WriterDequeueInv(s, l);
    } else if s.pc.LoopWrite? || s.pc.DrainWrite? {
      var n := s.q.tail;
      assert s.q.accepted[..n] == s.q.accepted[..n - 1] + [s.q.accepted[n - 1]];
    }
  }

  lemma LogStepInv<T>(s: LogState<T>, l: LogLabel<T>)
    requires LogInv(s)
    ensures LogInv(LogAct(s, l))
  {
    match l
    case Producer(l) => if ProducerLabel(l) { ProducerStepInv(s, l); }
    case Writer(_, _) => WriterStepInv(s, l);
    case Stop =>
  }

  lemma {:induction false} LogRunInv<T>(s: LogState<T>, ls: seq<LogLabel<T>>)
    requires LogInv(s)
    ensures LogInv(LogRun(s, ls))
    decreases |ls|
  {
    if ls != [] {
      LogStepInv(s, ls[0]);
      LogRunInv(LogAct(s, ls[0]), ls[1..]);
    }
  }

  /** At every moment of every run the file holds the accepted entries in ticket order, up to the tail ticket
      (or one less, while the writer has an entry in hand). */
  lemma FileIsPrefix<T>(cap: nat, fill: T, ls: seq<LogLabel<T>>)
    requires 2 <= cap
    ensures var s := LogRun(LogInit(cap, fill), ls);
            Prefix(s.file, s.q.accepted) && s.q.tail - 1 <= |s.file| <= s.q.tail
  {
    LogInitInv(cap, fill);
    LogRunInv(LogInit(cap, fill), ls);
  }

  // ----- When nothing is lost

  /** The writer's last look at the queue. */
  ghost predicate LooksLast<T>(s: LogState<T>, l: LogLabel<T>)
    requires s.q.WellFormed()
  {
    l.Writer? && s.pc.DrainDequeue? && LogAct(s, l).pc.Exited?
  }

  /** At the writer's last look the file is complete if and only if no producer holds the tail ticket unpublished. */
  lemma CompleteAtExitIff<T>(s: LogState<T>, l: LogLabel<T>)
    requires LogInv(s) && LooksLast(s, l)
    ensures var s' := LogAct(s, l);
            && s'.file == s.q.accepted[..s.q.tail] && s'.q.accepted == s.q.accepted
            && (s'.file == s'.q.accepted <==> forall u: Tid :: !Producing(s.q.PcOf(u), s.q.tail))
  {
    var a := Access(WRITER, l.spurious, l.residue);
    DequeueSide(s.q, a);
    assert s.q.PcOf(WRITER).DeqLoadId?;
    DequeueDiff(s.q, WRITER);
    assert s.file == s.q.accepted[..s.q.tail];
    if s.q.tail == s.q.head {
      forall u: Tid ensures !Producing(s.q.PcOf(u), s.q.tail) { assert ThreadOk(s.q, u, s.q.PcOf(u)); }
    }
  }

  /** After the writer has left nothing is written, while tickets may still be claimed. */
  lemma {:induction false} FileFinal<T>(s: LogState<T>, ls: seq<LogLabel<T>>)
    requires LogInv(s) && s.pc.Exited?
    ensures var s' := LogRun(s, ls); s'.file == s.file && Prefix(s.q.accepted, s'.q.accepted) && LogInv(s') && s'.pc.Exited?
    decreases |ls|
  {
    if ls != [] {
      LogStepInv(s, ls[0]);
      if ls[0].Producer? && ProducerLabel(ls[0].l) { EnqueueSide(s.q, ls[0].l); }
      FileFinal(LogAct(s, ls[0]), ls[1..]);
    }
  }

  /** Over a whole run, before and after the writer's last look: the file holds every accepted entry if and only if at
      that look no producer held the tail ticket unpublished, and no ticket has been claimed since. */
  lemma NothingLostIff<T>(cap: nat, fill: T, before: seq<LogLabel<T>>, l: LogLabel<T>, after: seq<LogLabel<T>>)
    requires 2 <= cap && LooksLast(LogRun(LogInit(cap, fill), before), l)
    ensures var s := LogRun(LogInit(cap, fill), before); var s' := LogRun(s, [l] + after);
            s' == LogRun(LogInit(cap, fill), before + [l] + after) && s'.pc.Exited? &&
            (s'.file == s'.q.accepted <==> (forall u: Tid :: !Producing(s.q.PcOf(u), s.q.tail)) && s'.q.head == s.q.head)
  {
    var s0 := LogInit(cap, fill);
    var s := LogRun(s0, before);
    LogInitInv(cap, fill);
    LogRunInv(s0, before);
    CompleteAtExitIff(s, l);
    LogStepInv(s, l);
    var e := LogAct(s, l);
    assert ([l] + after)[0] == l && ([l] + after)[1..] == after;
    FileFinal(e, after);
    LogRunAppend(s0, before, [l] + after);
    assert before + [l] + after == before + ([l] + after);
    PrefixComplete(e.file, e.q.accepted, LogRun(e, after).q.accepted);
  }

  lemma PrefixComplete<A>(file: seq<A>, accepted: seq<A>, later: seq<A>)
    requires Prefix(file, accepted) && Prefix(accepted, later)
    ensures file == later <==> file == accepted && |later| == |accepted|
  {
  }

  lemma {:induction false} LogRunAppend<T>(s: LogState<T>, a: seq<LogLabel<T>>, b: seq<LogLabel<T>>)
    requires s.q.WellFormed()
    ensures LogRun(s, a + b) == LogRun(LogRun(s, a), b)
    decreases |a|
  {
    if a == [] {
      assert a + b == b;
    } else {
      assert (a + b)[1..] == a[1..] + b;
      LogRunAppend(LogAct(s, a[0]), a[1..], b);
    }
  }

  // ----- The writer leaves

  /** The work an unwritten entry costs the writer at most. */
  const PER_ENTRY: nat := 8

  /** An upper bound on the steps that the writer, once told to stop, still takes if it runs alone. */
  ghost function WriterSteps<T>(s: LogState<T>): int {
    var w := s.q.PcOf(WRITER);
    var claimed := w.DeqTake? || w.DeqRelease?;
    PER_ENTRY * (s.q.head - s.q.tail) +
    match s.pc
    case Looping => 16
    case LoopDequeue => (if claimed then 17 else 9) + StepsLeft(s.q, WRITER)
    case LoopWrite(_) => 17
    case TestStop => 9
    case Draining => 8
    case DrainDequeue => (if claimed then 9 else 1) + StepsLeft(s.q, WRITER)
    case DrainWrite(_) => 9
    case Exited => 0
  }

  lemma WriterDequeueAlone<T>(s: LogState<T>, l: LogLabel<T>)
    requires LogInv(s) && s.stop && l.Writer? && !l.spurious && (s.pc.LoopDequeue? || s.pc.DrainDequeue?)
    ensures WriterSteps(LogAct(s, l)) < WriterSteps(s)
  {
    var a := Access(WRITER, l.spurious, l.residue);
    DequeueSide(s.q, a);
    SoloStep(s.q, WRITER, l.residue);
  }

  lemma WriterStepAlone<T>(s: LogState<T>, l: LogLabel<T>)
    requires LogInv(s) && s.stop && l.Writer? && !l.spurious && !s.pc.Exited?
    ensures LogAct(s, l).stop && 0 <= WriterSteps(LogAct(s, l)) < WriterSteps(s)
  {
    LogStepInv(s, l);
    if s.pc.LoopDequeue? || s.pc.DrainDequeue? { WriterDequeueAlone(s, l); }
  }

  function WriterFor<T>(residue: T, n: nat): seq<LogLabel<T>> { seq(n, _ => Writer(false, residue)) }

  lemma WriterForMore<T>(s: LogState<T>, residue: T, n: nat)
    requires s.q.WellFormed()
    ensures LogRun(s, WriterFor(residue, n + 1)) == LogRun(LogAct(s, Writer(false, residue)), WriterFor(residue, n))
    ensures LogRun(s, WriterFor(residue, 0)) == s
  {
    var ls := WriterFor(residue, n + 1);
    assert ls[0] == Writer(false, residue) && ls[1..] == WriterFor(residue, n);
  }

  lemma WriterMoves<T>(s: LogState<T>, residue: T)
    requires LogInv(s) && s.stop
    ensures var s' := LogAct(s, Writer(false, residue));
            LogInv(s') && s'.stop && if s.pc.Exited? then s'.pc.Exited? else 0 <= WriterSteps(s') < WriterSteps(s)
  {
    LogStepInv(s, Writer(false, residue));
    if !s.pc.Exited? { WriterStepAlone(s, Writer(false, residue)); }
  }

  lemma {:induction false} WriterRunAlone<T>(s: LogState<T>, residue: T, n: nat)
    requires LogInv(s) && s.stop && (s.pc.Exited? || WriterSteps(s) <= n)
    ensures LogRun(s, WriterFor(residue, n)).pc.Exited?
    decreases n
  {
    WriterForMore(s, residue, 0);
    if n > 0 {
      WriterMoves(s, residue);
      WriterForMore(s, residue, n - 1);
      WriterRunAlone(LogAct(s, Writer(false, residue)), residue, n - 1);
    }
  }

  lemma WriterStepsBound<T>(s: LogState<T>)
    requires LogInv(s)
    ensures s.q.tail <= s.q.head && WriterSteps(s) <= PER_ENTRY * (s.q.head - s.q.tail) + 19
  {
  }

  lemma StoppedWriterExits<T>(s: LogState<T>, residue: T)
    requires LogInv(s)
    ensures s.q.tail <= s.q.head
    ensures LogRun(LogAct(s, Stop), WriterFor(residue, PER_ENTRY * (s.q.head - s.q.tail) + 19)).pc.Exited?
  {
    var s' := LogAct(s, Stop);
    LogStepInv(s, Stop);
    WriterStepsBound(s');
    WriterRunAlone(s', residue, PER_ENTRY * (s.q.head - s.q.tail) + 19);
  }

  /** The join in the destructor ends: told to stop at any moment of any run, and left to run alone, the writer exits
      within eight steps for each entry it has not claimed yet and nineteen more. */
  lemma WriterExits<T>(cap: nat, fill: T, ls: seq<LogLabel<T>>, s: LogState<T>, residue: T)
    requires 2 <= cap && s == LogRun(LogInit(cap, fill), ls)
    ensures s.q.tail <= s.q.head
    ensures LogRun(LogAct(s, Stop), WriterFor(residue, PER_ENTRY * (s.q.head - s.q.tail) + 19)).pc.Exited?
  {
    LogInitInv(cap, fill);
    LogRunInv(LogInit(cap, fill), ls);
    StoppedWriterExits(s, residue);
  }

  // ----- The writer stays and writes

  /** The writer has left its main loop only if it was told to stop. */
  ghost predicate LeftOnlyIfStopped<T>(s: LogState<T>) {
    s.pc.Draining? || s.pc.DrainDequeue? || s.pc.DrainWrite? || s.pc.Exited? ==> s.stop
  }

  lemma {:induction false} LeftRun<T>(s: LogState<T>, ls: seq<LogLabel<T>>)
    requires s.q.WellFormed() && LeftOnlyIfStopped(s)
    ensures LeftOnlyIfStopped(LogRun(s, ls))
    decreases |ls|
  {
    if ls != [] { LeftRun(LogAct(s, ls[0]), ls[1..]); }
  }

  /** In every run: the writer exits only if it was told to stop. */
  lemma ExitOnlyIfStopped<T>(cap: nat, fill: T, ls: seq<LogLabel<T>>)
    requires 2 <= cap && LogRun(LogInit(cap, fill), ls).pc.Exited?
    ensures LogRun(LogInit(cap, fill), ls).stop
  {
    LeftRun(LogInit(cap, fill), ls);
  }

  /** The next entry to be written is in hand, or published and there for the taking. */
  ghost predicate WillWrite<T>(s: LogState<T>)
    requires s.q.WellFormed()
  {
    !s.pc.Exited? && (EntryInHand(s) || Published(s.q))
  }

  ghost function StepsToWrite<T>(s: LogState<T>): nat {
    match s.pc
    case TestStop => 8
    case Looping => 7
    case Draining => 7
    case LoopDequeue => 1 + StepsLeft(s.q, WRITER)
    case DrainDequeue => 1 + StepsLeft(s.q, WRITER)
    case LoopWrite(_) => 1
    case DrainWrite(_) => 1
    case Exited => 0
  }

  /** A solo step of the writer brings it nearer to writing the next entry, or writes it. */
  lemma WriteStep<T>(s: LogState<T>, residue: T)
    requires LogInv(s) && WillWrite(s)
    ensures var s' := LogAct(s, Writer(false, residue));
            && s'.q.accepted == s.q.accepted
            && (if s.pc.LoopWrite? || s.pc.DrainWrite? then |s'.file| == |s.file| + 1
                else s'.file == s.file && WillWrite(s') && StepsToWrite(s') < StepsToWrite(s))
  {
    if s.pc.LoopDequeue? || s.pc.DrainDequeue? {
      SoloDequeueStep(s.q, WRITER, residue);
      DequeueSide(s.q, Access(WRITER, false, residue));
    }
  }

  lemma {:induction false} WriteRun<T>(s: LogState<T>, residue: T) returns (n: nat)
    requires LogInv(s) && WillWrite(s)
    ensures 0 < n <= StepsToWrite(s)
    ensures var s' := LogRun(s, WriterFor(residue, n)); |s'.file| == |s.file| + 1 && LogInv(s') && s'.q.accepted == s.q.accepted
    decreases StepsToWrite(s)
  {
    var s' := LogAct(s, Writer(false, residue));
    WriteStep(s, residue);
    LogStepInv(s, Writer(false, residue));
    WriterForMore(s, residue, 0);
    WriterForMore(s', residue, 0);
    if s.pc.LoopWrite? || s.pc.DrainWrite? {
      n := 1;
    } else {
      var m := WriteRun(s', residue);
      WriterForMore(s, residue, m);
      n := m + 1;
    }
  }

  lemma NextInHand<T>(s: LogState<T>)
    requires LogInv(s) && !s.pc.Exited? && NoProducer(s.q) && |s.file| < |s.q.accepted|
    ensures WillWrite(s) && StepsToWrite(s) <= 8
  {
    if !EntryInHand(s) { ThenPublished(s.q); }
  }

  lemma FileFollows<T>(s: LogState<T>)
    requires LogInv(s)
    ensures Prefix(s.file, s.q.accepted)
  {
  }

  lemma OneLonger<A>(file: seq<A>, file': seq<A>, accepted: seq<A>)
    requires Prefix(file, accepted) && Prefix(file', accepted) && |file'| == |file| + 1
    ensures file' == file + [accepted[|file|]]
  {
  }

  lemma WriteNext<T>(s: LogState<T>, residue: T) returns (n: nat)
    requires LogInv(s) && !s.pc.Exited? && NoProducer(s.q) && |s.file| < |s.q.accepted|
    ensures 0 < n <= 8 && LogRun(s, WriterFor(residue, n)).file == s.file + [s.q.accepted[|s.file|]]
  {
    NextInHand(s);
    FileFollows(s);
    n := WriteRun(s, residue);
    FileFollows(LogRun(s, WriterFor(residue, n)));
    OneLonger(s.file, LogRun(s, WriterFor(residue, n)).file, s.q.accepted);
  }

  /** Entries get written, stopped or not: as long as the writer has not left, no producer is between claim and
      publication, and some accepted entry is not in the file yet, the writer running alone appends the next one within
      eight steps. */
  lemma NextEntryWritten<T>(cap: nat, fill: T, ls: seq<LogLabel<T>>, residue: T) returns (n: nat)
    requires 2 <= cap && !LogRun(LogInit(cap, fill), ls).pc.Exited?
    requires var s := LogRun(LogInit(cap, fill), ls); NoProducer(s.q) && |s.file| < |s.q.accepted|
    ensures 0 < n <= 8
    ensures var s := LogRun(LogInit(cap, fill), ls);
            |s.file| < |s.q.accepted| && LogRun(s, WriterFor(residue, n)).file == s.file + [s.q.accepted[|s.file|]]
  {
    LogInitInv(cap, fill);
    LogRunInv(LogInit(cap, fill), ls);
    n := WriteNext(LogRun(LogInit(cap, fill), ls), residue);
  }

  // ----- Quiet producers

  /** No thread is inside `enqueue`. */
  ghost predicate ProducersQuiet<T>(s: LogState<T>) { forall t: Tid :: t != WRITER ==> Ready(s.q.PcOf(t)) }

  ghost predicate NoNewEntries<T>(ls: seq<LogLabel<T>>) {
    forall i :: 0 <= i < |ls| ==> !(ls[i].Producer? && ls[i].l.CallEnqueue?)
  }

  lemma QuietStep<T>(s: LogState<T>, l: LogLabel<T>)
    requires LogInv(s) && ProducersQuiet(s) && !(l.Producer? && l.l.CallEnqueue?)
    requires s.pc.Exited? ==> s.file == s.q.accepted
    ensures var s' := LogAct(s, l);
            ProducersQuiet(s') && s'.q.accepted == s.q.accepted && (s'.pc.Exited? ==> s'.file == s'.q.accepted)
  {
    if l.Producer? && ProducerLabel(l.l) {
      EnqueueSide(s.q, l.l);
    } else if l.Writer? && (s.pc.LoopDequeue? || s.pc.DrainDequeue?) {
      var a := Access(WRITER, l.spurious, l.residue);
      OthersStay(s.q, a);
      DequeueSide(s.q, a);
      if LogAct(s, l).pc.Exited? { CompleteAtExitIff(s, l); }
    } else {
      OthersStay(s.q, CallDequeue(WRITER));
    }
  }

  /** Shutdown loses nothing: if from some moment on no thread is inside `enqueue` and none calls it, then when
      `async_write` exits the file holds every entry ever accepted. */
  lemma {:induction false} DrainedOnExit<T>(s: LogState<T>, ls: seq<LogLabel<T>>)
    requires LogInv(s) && ProducersQuiet(s) && NoNewEntries(ls)
    requires s.pc.Exited? ==> s.file == s.q.accepted
    ensures var s' := LogRun(s, ls); s'.q.accepted == s.q.accepted && (s'.pc.Exited? ==> s'.file == s'.q.accepted)
    decreases |ls|
  {
    if ls != [] {
      QuietStep(s, ls[0]);
      LogStepInv(s, ls[0]);
      DrainedOnExit(LogAct(s, ls[0]), ls[1..]);
    }
  }

  // ----- How an entry gets lost

  /** One step more of a run. */
  lemma Extend<T>(s0: LogState<T>, s: LogState<T>, ls: seq<LogLabel<T>>, l: LogLabel<T>)
      returns (s': LogState<T>, ls': seq<LogLabel<T>>)
    requires s0.q.WellFormed() && s == LogRun(s0, ls)
    ensures s' == LogAct(s, l) && s' == LogRun(s0, ls') && s'.q.WellFormed()
  {
    s', ls' := LogAct(s, l), ls + [l];
    LogRunAppend(s0, ls, [l]);
    assert LogRun(s, [l]) == LogAct(s, l);
  }

  const LATE: Tid := 1

  /** The late producer has claimed ticket 0 of an empty queue and published nothing; the writer has no entry. */
  ghost predicate Claimed<T>(s: LogState<T>, v: T) {
    && s.q.WellFormed() && s.q.PcOf(LATE) == EnqWrite(v, 0) && s.q.accepted == [v] && s.q.tail == 0 && s.q.IdAt(0) == 0
    && s.file == [] && s.stop && Ready(s.q.PcOf(WRITER))
  }

  lemma ProducerClaims<T>(cap: nat, v: T, fill: T) returns (s: LogState<T>, ls: seq<LogLabel<T>>)
    requires 2 <= cap
    ensures s == LogRun(LogInit(cap, fill), ls) && Claimed(s, v) && s.pc.Looping?
  {
    var p, s0 := Producer(Access(LATE, false, fill)), LogInit(cap, fill);
    assert Slot(0, cap) == 0 && s0.q.ids[0] == 0;
    s, ls := Extend(s0, s0, [], Producer(CallEnqueue(LATE, v)));
    assert s.q == s0.q.Goto(LATE, EnqLoadHead(v));
    s, ls := Extend(s0, s, ls, p);
    assert s.q.PcOf(LATE) == EnqLoadId(v, 0) && s.q == s0.q.(threads := s.q.threads) && Ready(s.q.PcOf(WRITER));
    s, ls := Extend(s0, s, ls, p);
    assert s.q.PcOf(LATE) == EnqCas(v, 0) && s.q == s0.q.(threads := s.q.threads) && Ready(s.q.PcOf(WRITER));
    s, ls := Extend(s0, s, ls, p);
    s, ls := Extend(s0, s, ls, Stop);
  }

  lemma LookFails<T>(s: LogState<T>, fill: T)
    requires s.q.WellFormed() && Ready(s.q.PcOf(WRITER)) && s.q.IdAt(s.q.tail) <= s.q.tail
    requires s.pc.Looping? || s.pc.Draining?
    ensures var w := Writer(false, fill);
            LogAct(LogAct(LogAct(s, w), w), w)
            == s.(q := s.q.Goto(WRITER, DeqReturned(None)), pc := if s.pc.Looping? then TestStop else Exited)
  {
    var w := Writer(false, fill);
    var s1 := LogAct(s, w);
    assert s1.q.PcOf(WRITER) == DeqLoadTail;
    var s2 := LogAct(s1, w);
    assert s2.q == s1.q.Goto(WRITER, DeqLoadId(s.q.tail));
    var s3 := LogAct(s2, w);
    assert s3.q.threads == s.q.threads[WRITER := DeqReturned(None)];
  }

  /** A call of `dequeue` by the writer that finds the tail ticket unpublished. */
  lemma LooksInVain<T>(s0: LogState<T>, s: LogState<T>, ls: seq<LogLabel<T>>, v: T)
      returns (s': LogState<T>, ls': seq<LogLabel<T>>)
    requires s0.q.WellFormed() && s == LogRun(s0, ls) && Claimed(s, v) && (s.pc.Looping? || s.pc.Draining?)
    ensures s' == LogRun(s0, ls') && Claimed(s', v) && s'.pc == if s.pc.Looping? then TestStop else Exited
  {
    var w := Writer(false, v);
    LookFails(s, v);
    s', ls' := ExtendThrice(s0, s, ls, w);
  }

  lemma ExtendThrice<T>(s0: LogState<T>, s: LogState<T>, ls: seq<LogLabel<T>>, l: LogLabel<T>)
      returns (s': LogState<T>, ls': seq<LogLabel<T>>)
    requires s0.q.WellFormed() && s.q.WellFormed() && s == LogRun(s0, ls)
    ensures s' == LogAct(LogAct(LogAct(s, l), l), l) && s' == LogRun(s0, ls')
  {
    s', ls' := Extend(s0, s, ls, l);
    s', ls' := Extend(s0, s', ls', l);
    s', ls' := Extend(s0, s', ls', l);
  }

  lemma PublishesLate<T>(s0: LogState<T>, s: LogState<T>, ls: seq<LogLabel<T>>, v: T)
      returns (s': LogState<T>, ls': seq<LogLabel<T>>)
    requires s0.q.WellFormed() && s == LogRun(s0, ls) && Claimed(s, v) && s.pc.Exited?
    ensures s' == LogRun(s0, ls') && s'.q.PcOf(LATE) == EnqReturned(true) && s'.q.accepted == [v]
    ensures s'.stop && s'.pc.Exited? && s'.file == []
  {
    var p := Producer(Access(LATE, false, v));
    s', ls' := Extend(s0, s, ls, p);
    assert s'.q.PcOf(LATE) == EnqPublish(v, 0) && s'.q.accepted == [v];
    s', ls' := Extend(s0, s', ls', p);
  }

  /** With a queue of any capacity: a producer that has claimed a ticket but not published it when the writer looks for
      the last time is told that its entry was accepted, and the entry is never written. */
  lemma LateProducerIsLost<T>(cap: nat, v: T, fill: T) returns (ls: seq<LogLabel<T>>)
    requires 2 <= cap
    ensures var s := LogRun(LogInit(cap, fill), ls);
            s.stop && s.pc.Exited? && s.q.accepted == [v] && s.q.PcOf(LATE) == EnqReturned(true) && s.file == []
  {
    var s0 := LogInit(cap, fill);
    var s;
    s, ls := ProducerClaims(cap, v, fill);
    s, ls := LooksInVain(s0, s, ls, v);
    s, ls := Extend(s0, s, ls, Writer(false, fill));
    s, ls := LooksInVain(s0, s, ls, v);
    s, ls := PublishesLate(s0, s, ls, v);
  }
}
