/** The life of a connection across the accepting thread, the pool workers, the timer and the kernel.

    The program names a connection by its file descriptor only, and the kernel reuses descriptors.  The model tags
    every connection with a generation number, so that "the same descriptor" and "the same connection" can be told
    apart.  Each lock-guarded region is one step; the three actions of the destructor are three steps. */
module ConnectionLifecycle {
  type Fd = nat
  type Gen = nat
  type Task = nat

  datatype Slot = Empty | Conn(g: Gen)

  /** What the main thread is in the middle of. */
  datatype MainPc =
    | Loop
    | Built(fd: Fd, g: Gen)       // accepted and constructed; the timer is not set yet
    | Armed(fd: Fd, g: Gen)       // timer set; not in `users` yet
    | Expiring(fd: Fd, g: Gen)    // timer entry popped; its callback, which knows only `fd`, has not run yet

  datatype DyingPc = RemoveChannel | CancelTimer | CloseFd

  datatype TimerEntry = TimerEntry(g: Gen, renewals: nat)

  /** Who holds a shared pointer to a connection. */
  datatype Holder = InUsers | InMain | InTask(k: Task)

  /** Generations are numbered in order of acceptance.  `fds` and `holders` give the descriptor of each generation
      and who refers to it now; `closed` says whose descriptor has been closed.  The generations in `timers` and in
      `main` are history: the program keeps only the descriptor there. */
  datatype State = State(
    fds: seq<Fd>, holders: seq<set<Holder>>, dying: map<Gen, DyingPc>, closed: set<Gen>,
    open: map<Fd, Gen>, users: map<Fd, Slot>, timers: map<Fd, TimerEntry>, tasks: map<Task, Gen>, main: MainPc)
  {
    ghost predicate WellFormed() {
      && |holders| == |fds|
      && (forall fd :: fd in users && users[fd].Conn? ==> users[fd].g < |fds|)
      && (forall k :: k in tasks ==> tasks[k] < |fds|)
      && (main.Loop? || main.g < |fds|)
      && (forall g :: g in dying || g in closed ==> g < |fds|)
    }
  }

  datatype Label =
    | Accept(fd: Fd) | Arm | Publish                  // HandleNewConnection
    | Dispatch(fd: Fd, k: Task)                       // run: an event for `fd` becomes pool task `k`
    | Expire(fd: Fd) | RunTimeout                     // tick, and the callback it calls
    | Renew(k: Task) | Close(k: Task) | Finish(k: Task)   // a task: adjust, close callback, release of its reference
    | Destroy(g: Gen)                                 // the next action of a destructor

  const INIT := State([], [], map[], {}, map[], map[], map[], map[], Loop)

  /** One reference to `g` goes away; with the last one the destructor starts. */
  ghost function Release(s: State, g: Gen, h: Holder): State
    requires s.WellFormed() && g < |s.fds|
  {
    var left := s.holders[g] - {h};
    s.(holders := s.holders[g := left], dying := if left == {} then s.dying[g := RemoveChannel] else s.dying)
  }

  /** `users_.erase(fd)`. */
  ghost function EraseUser(s: State, fd: Fd): State
    requires s.WellFormed()
  {
    if fd in s.users && s.users[fd].Conn? then Release(s, s.users[fd].g, InUsers).(users := s.users - {fd})
    else s.(users := s.users - {fd})
  }

  /** `users_[fd] = std::move(conn)`: the reference moves from the main thread to the table; a connection that was
      there is dropped. */
  ghost function PutUser(s: State, fd: Fd, g: Gen): State
    requires s.WellFormed() && g < |s.fds|
  {
    var m := EraseUser(s, fd);
    m.(users := m.users[fd := Conn(g)], holders := m.holders[g := m.holders[g] - {InMain} + {InUsers}], main := Loop)
  }

  /** The steps of the main thread outside its callbacks. */
  ghost function MainAct(s: State, l: Label): (s': State)
    requires s.WellFormed()
    ensures s'.WellFormed()
  {
    match l
    case Accept(fd) =>
      if s.main.Loop? && 0 < fd && fd !in s.open then
        var g := |s.fds|;
        s.(fds := s.fds + [fd], holders := s.holders + [{InMain}], open := s.open[fd := g], main := Built(fd, g))
      else s
    case Arm =>
      if s.main.Built? then
        s.(timers := s.timers[s.main.fd := TimerEntry(s.main.g, 0)], main := Armed(s.main.fd, s.main.g))
      else s
    case Expire(fd) =>
      if s.main.Loop? && fd in s.timers && s.timers[fd].g < |s.fds| then
        s.(timers := s.timers - {fd}, main := Expiring(fd, s.timers[fd].g))
      else s
    case _ => s
  }

  /** A task is started, renews its timeout, or ends. */
  ghost function TaskAct(s: State, l: Label): (s': State)
    requires s.WellFormed()
    ensures s'.WellFormed()
  {
    match l
    case Dispatch(fd, k) =>
      if s.main.Loop? && k !in s.tasks then
        if fd !in s.users then s.(users := s.users[fd := Empty])
        else if s.users[fd].Conn? then
          var g := s.users[fd].g;
          s.(tasks := s.tasks[k := g], holders := s.holders[g := s.holders[g] + {InTask(k)}])
        else s
      else s
    case Renew(k) =>
      if k in s.tasks && s.fds[s.tasks[k]] in s.timers then
        var fd := s.fds[s.tasks[k]];
        s.(timers := s.timers[fd := s.timers[fd].(renewals := s.timers[fd].renewals + 1)])
      else s
    case Finish(k) => if k in s.tasks then Release(s, s.tasks[k], InTask(k)).(tasks := s.tasks - {k}) else s
    case _ => s
  }

  /** The destructor, action by action. */
  ghost function DestroyAct(s: State, g: Gen): (s': State)
    requires s.WellFormed()
    ensures s'.WellFormed()
  {
    if g in s.dying then
      match s.dying[g]
      case RemoveChannel => s.(dying := s.dying[g := CancelTimer])
      case CancelTimer => s.(timers := s.timers - {s.fds[g]}, dying := s.dying[g := CloseFd])
      case CloseFd => s.(open := s.open - {s.fds[g]}, dying := s.dying - {g}, closed := s.closed + {g})
    else s
  }

  ghost function Act(s: State, l: Label): (s': State)
    requires s.WellFormed()
    ensures s'.WellFormed()
  {
    if l.Destroy? then DestroyAct(s, l.g)
    else if l.Publish? then (if s.main.Armed? then PutUser(s, s.main.fd, s.main.g) else s)
    else if l.RunTimeout? then (if s.main.Expiring? then EraseUser(s, s.main.fd).(main := Loop) else s)
    else if l.Close? then (if l.k in s.tasks then EraseUser(s, s.fds[s.tasks[l.k]]) else s)
    else if l.Dispatch? || l.Renew? || l.Finish? then TaskAct(s, l)
    else MainAct(s, l)
  }

  ghost function Run(s: State, ls: seq<Label>): (s': State)
    requires s.WellFormed()
    ensures s'.WellFormed()
    decreases |ls|
  {
    if ls == [] then s else Run(Act(s, ls[0]), ls[1..])
  }

  ghost predicate Reachable(s: State) { exists ls :: s == Run(INIT, ls) }

  /** Generation `g` is accepted, its descriptor is not closed yet, and the kernel has it under `fd`. */
  ghost predicate Owns(s: State, fd: Fd, g: Gen) {
    g < |s.fds| && g !in s.closed && s.fds[g] == fd && fd in s.open && s.open[fd] == g
  }

  ghost predicate GenOk(s: State, g: Gen)
    requires s.WellFormed() && g < |s.fds|
  {
    var fd := s.fds[g];
    && (g !in s.closed ==> fd in s.open && s.open[fd] == g)
    // referenced, or being destroyed, or closed: exactly one of the three
    && (s.holders[g] != {} ==> g !in s.closed && g !in s.dying)
    && (g !in s.closed ==> s.holders[g] != {} || g in s.dying)
    && (g in s.dying ==> g !in s.closed)
    && (InUsers in s.holders[g] <==> fd in s.users && s.users[fd] == Conn(g))
    && (InMain in s.holders[g] <==> (s.main.Built? || s.main.Armed?) && s.main.g == g)
    && TasksOk(s, g)
  }

  ghost predicate TasksOk(s: State, g: Gen)
    requires s.WellFormed() && g < |s.fds|
  {
    forall k :: InTask(k) in s.holders[g] <==> k in s.tasks && s.tasks[k] == g
  }

  ghost predicate FdOk(s: State, fd: Fd) {
    && (fd in s.open ==> Owns(s, fd, s.open[fd]))
    && (fd in s.users && s.users[fd].Conn? ==> Owns(s, fd, s.users[fd].g))
    && (fd in s.timers ==> Owns(s, fd, s.timers[fd].g))
    // the destructor cancels before it closes
    && (fd in s.timers && s.timers[fd].g in s.dying ==> s.dying[s.timers[fd].g] != CloseFd)
    // a published connection is covered by a timer, or its timeout is about to run
    && (fd in s.users && s.users[fd].Conn? ==> fd in s.timers || (s.main.Expiring? && s.main.fd == fd))
  }

  ghost predicate MainOk(s: State)
    requires s.WellFormed()
  {
    && (!s.main.Loop? ==> s.fds[s.main.g] == s.main.fd)
    // the main thread's own connection is not visible to others yet
    && (s.main.Built? || s.main.Armed? ==>
          Owns(s, s.main.fd, s.main.g) && (s.main.fd in s.users ==> s.users[s.main.fd].Empty?)
          && (s.main.fd in s.timers <==> s.main.Armed?))
    // while a popped timeout waits to run, nobody else can have moved in at its descriptor
    && (s.main.Expiring? && s.main.fd in s.users && s.users[s.main.fd].Conn? ==> s.users[s.main.fd].g == s.main.g)
  }

  ghost predicate Inv(s: State) {
    && s.WellFormed()
    && (forall g: Gen :: g < |s.fds| ==> GenOk(s, g))
    && (forall fd: Fd :: FdOk(s, fd))
    && MainOk(s)
  }

  /** The connection on whose behalf a step is taken. */
  ghost function Actor(s: State, l: Label): Slot {
    match l
    case Accept(fd) => Conn(|s.fds|)
    case Arm => if s.main.Built? then Conn(s.main.g) else Empty
    case Publish => if s.main.Armed? then Conn(s.main.g) else Empty
    case Dispatch(fd, k) => if fd in s.users then s.users[fd] else Empty
    case Expire(fd) => if fd in s.timers then Conn(s.timers[fd].g) else Empty
    case RunTimeout => if s.main.Expiring? then Conn(s.main.g) else Empty
    case Renew(k) => if k in s.tasks then Conn(s.tasks[k]) else Empty
    case Close(k) => if k in s.tasks then Conn(s.tasks[k]) else Empty
    case Finish(k) => if k in s.tasks then Conn(s.tasks[k]) else Empty
    case Destroy(g) => Conn(g)
  }

  ghost predicate ActorOk(s: State, l: Label)
    requires s.WellFormed()
  {
    Actor(s, l).Conn? && Actor(s, l).g < |s.fds| ==> GenOk(s, Actor(s, l).g) && FdOk(s, s.fds[Actor(s, l).g])
  }

  /** The part of the invariant that one step can involve besides the entry in question. */
  ghost predicate Around(s: State, l: Label) {
    && s.WellFormed() && MainOk(s) && ActorOk(s, l)
    && ((l.Accept? || l.Dispatch?) ==> FdOk(s, l.fd))
  }

  lemma AcceptKeepsGen(s: State, l: Label, g: Gen)
    requires Around(s, l) && g < |Act(s, l).fds| && (l.Accept? || l.Arm? || l.Expire?)
    requires g < |s.fds| ==> GenOk(s, g) && FdOk(s, s.fds[g])
    ensures GenOk(Act(s, l), g)
  {
  }

  lemma AcceptKeepsFd(s: State, l: Label, fd: Fd)
    requires Around(s, l) && (l.Accept? || l.Arm? || l.Expire?)
    requires FdOk(s, fd) && (fd in s.open ==> GenOk(s, s.open[fd]))
    ensures FdOk(Act(s, l), fd)
  {
  }

  lemma PublishKeepsGen(s: State, l: Label, g: Gen)
    requires Around(s, l) && g < |Act(s, l).fds| && (l.Publish?)
    requires g < |s.fds| ==> GenOk(s, g) && FdOk(s, s.fds[g])
    ensures GenOk(Act(s, l), g)
  {
  }

  lemma PublishKeepsFd(s: State, l: Label, fd: Fd)
    requires Around(s, l) && (l.Publish?)
    requires FdOk(s, fd) && (fd in s.open ==> GenOk(s, s.open[fd]))
    ensures FdOk(Act(s, l), fd)
  {
  }

  lemma EraseUserKeepsGen(s: State, fd: Fd, g: Gen)
    requires s.WellFormed() && g < |s.fds| && GenOk(s, g)
    requires fd in s.users && s.users[fd].Conn? ==> s.fds[s.users[fd].g] == fd && GenOk(s, s.users[fd].g)
    ensures GenOk(EraseUser(s, fd), g)
  {
    assert TasksOk(EraseUser(s, fd), g);
  }

  lemma EraseKeepsGen(s: State, l: Label, g: Gen)
    requires Around(s, l) && g < |Act(s, l).fds| && (l.RunTimeout? || l.Close?)
    requires g < |s.fds| ==> GenOk(s, g) && FdOk(s, s.fds[g])
    ensures GenOk(Act(s, l), g)
  {
    if l.RunTimeout? && s.main.Expiring? {
      EraseUserKeepsGen(s, s.main.fd, g);
      assert TasksOk(Act(s, l), g);
    } else if l.Close? && l.k in s.tasks {
      assert InTask(l.k) in s.holders[s.tasks[l.k]];
      EraseUserKeepsGen(s, s.fds[s.tasks[l.k]], g);
    }
  }

  lemma EraseUserKeepsFd(s: State, at: Fd, fd: Fd)
    requires s.WellFormed() && FdOk(s, fd)
    requires at in s.users && s.users[at].Conn? ==> s.fds[s.users[at].g] == at && GenOk(s, s.users[at].g)
    ensures FdOk(EraseUser(s, at), fd)
  {
  }

  lemma EraseKeepsFd(s: State, l: Label, fd: Fd)
    requires Around(s, l) && (l.RunTimeout? || l.Close?)
    requires FdOk(s, fd) && (fd in s.open ==> GenOk(s, s.open[fd]))
    ensures FdOk(Act(s, l), fd)
  {
    if l.RunTimeout? && s.main.Expiring? {
      EraseUserKeepsFd(s, s.main.fd, fd);
    } else if l.Close? && l.k in s.tasks {
      EraseUserKeepsFd(s, s.fds[s.tasks[l.k]], fd);
    }
  }

  lemma DispatchKeepsGen(s: State, k: Task, f: Gen, g: Gen)
    requires s.WellFormed() && f < |s.fds| && g < |s.fds| && GenOk(s, g) && GenOk(s, f) && k !in s.tasks
    requires InUsers in s.holders[f]
    ensures GenOk(s.(tasks := s.tasks[k := f], holders := s.holders[f := s.holders[f] + {InTask(k)}]), g)
  {
    assert TasksOk(s, g);
    assert TasksOk(s.(tasks := s.tasks[k := f], holders := s.holders[f := s.holders[f] + {InTask(k)}]), g);
  }

  lemma FinishKeepsGen(s: State, k: Task, g: Gen)
    requires s.WellFormed() && g < |s.fds| && GenOk(s, g) && k in s.tasks && GenOk(s, s.tasks[k])
    ensures GenOk(Release(s, s.tasks[k], InTask(k)).(tasks := s.tasks - {k}), g)
  {
    assert InTask(k) in s.holders[s.tasks[k]];
    assert TasksOk(s, g);
    assert TasksOk(Release(s, s.tasks[k], InTask(k)).(tasks := s.tasks - {k}), g);
  }

  lemma TaskKeepsGen(s: State, l: Label, g: Gen)
    requires Around(s, l) && g < |Act(s, l).fds| && (l.Dispatch? || l.Renew? || l.Finish?)
    requires g < |s.fds| ==> GenOk(s, g) && FdOk(s, s.fds[g])
    ensures GenOk(Act(s, l), g)
  {
    if l.Dispatch? && s.main.Loop? && l.k !in s.tasks && l.fd in s.users && s.users[l.fd].Conn? {
      DispatchKeepsGen(s, l.k, s.users[l.fd].g, g);
    } else if l.Finish? && l.k in s.tasks {
      FinishKeepsGen(s, l.k, g);
    } else {
      assert TasksOk(s, g);
    }
  }

  lemma TaskKeepsFd(s: State, l: Label, fd: Fd)
    requires Around(s, l) && (l.Dispatch? || l.Renew? || l.Finish?)
    requires FdOk(s, fd) && (fd in s.open ==> GenOk(s, s.open[fd]))
    ensures FdOk(Act(s, l), fd)
  {
  }

  lemma CloseKeepsGen(s: State, h: Gen, g: Gen)
    requires s.WellFormed() && h < |s.fds| && g < |s.fds| && GenOk(s, g) && GenOk(s, h) && h in s.dying
    ensures GenOk(s.(open := s.open - {s.fds[h]}, dying := s.dying - {h}, closed := s.closed + {h}), g)
  {
    var s' := s.(open := s.open - {s.fds[h]}, dying := s.dying - {h}, closed := s.closed + {h});
    assert TasksOk(s', g);
  }

  /** The first two actions of a destructor only move it on, whatever they do to the timers. */
  lemma DyingKeepsGen(s: State, h: Gen, pc: DyingPc, timers: map<Fd, TimerEntry>, g: Gen)
    requires s.WellFormed() && h < |s.fds| && g < |s.fds| && GenOk(s, g) && h in s.dying
    ensures GenOk(s.(timers := timers, dying := s.dying[h := pc]), g)
  {
    var s' := s.(timers := timers, dying := s.dying[h := pc]);
    assert TasksOk(s', g);
  }

  lemma DestroyKeepsGen(s: State, l: Label, g: Gen)
    requires Around(s, l) && g < |Act(s, l).fds| && l.Destroy?
    requires g < |s.fds| ==> GenOk(s, g)
    ensures GenOk(Act(s, l), g)
  {
    if l.g in s.dying {
      match s.dying[l.g]
      case RemoveChannel => DyingKeepsGen(s, l.g, CancelTimer, s.timers, g);
      case CancelTimer => DyingKeepsGen(s, l.g, CloseFd, s.timers - {s.fds[l.g]}, g);
      case CloseFd => CloseKeepsGen(s, l.g, g);
    }
  }

  lemma DestroyKeepsFd(s: State, l: Label, fd: Fd)
    requires Around(s, l) && (l.Destroy?)
    requires FdOk(s, fd) && (fd in s.open ==> GenOk(s, s.open[fd]))
    ensures FdOk(Act(s, l), fd)
  {
  }

  ghost predicate AroundMain(s: State, l: Label) {
    && Around(s, l) && (!s.main.Loop? ==> GenOk(s, s.main.g) && FdOk(s, s.main.fd)) && (l.Expire? ==> FdOk(s, l.fd))
  }

  lemma MainAfterMain(s: State, l: Label)
    requires AroundMain(s, l) && (l.Accept? || l.Arm? || l.Expire?)
    ensures MainOk(Act(s, l))
  {
  }

  lemma MainAfterTask(s: State, l: Label)
    requires AroundMain(s, l) && (l.Dispatch? || l.Renew? || l.Finish?)
    ensures MainOk(Act(s, l))
  {
  }

  lemma MainAfterErase(s: State, l: Label)
    requires AroundMain(s, l) && (l.Publish? || l.RunTimeout? || l.Close?)
    ensures MainOk(Act(s, l))
  {
  }

  lemma MainAfterDestroy(s: State, l: Label)
    requires AroundMain(s, l) && l.Destroy?
    ensures MainOk(Act(s, l))
  {
  }

  lemma MainStep(s: State, l: Label)
    requires AroundMain(s, l)
    ensures MainOk(Act(s, l))
  {
    if l.Destroy? { MainAfterDestroy(s, l); }
    else if l.Publish? || l.RunTimeout? || l.Close? { MainAfterErase(s, l); }
    else if l.Dispatch? || l.Renew? || l.Finish? { MainAfterTask(s, l); }
    else { MainAfterMain(s, l); }
  }

  lemma InvAround(s: State, l: Label)
    requires Inv(s)
    ensures AroundMain(s, l)
  {
  }

  lemma GensStep(s: State, l: Label)
    requires Inv(s) && Around(s, l)
    ensures var s' := Act(s, l); forall g: Gen :: g < |s'.fds| ==> GenOk(s', g)
  {
    forall g: Gen | g < |Act(s, l).fds| ensures GenOk(Act(s, l), g) {
      assert g < |s.fds| ==> GenOk(s, g) && FdOk(s, s.fds[g]);
      match l
      case Publish => PublishKeepsGen(s, l, g);
      case Destroy(_) => DestroyKeepsGen(s, l, g);
      case RunTimeout => EraseKeepsGen(s, l, g);
      case Close(_) => EraseKeepsGen(s, l, g);
      case Dispatch(_, _) => TaskKeepsGen(s, l, g);
      case Renew(_) => TaskKeepsGen(s, l, g);
      case Finish(_) => TaskKeepsGen(s, l, g);
      case _ => AcceptKeepsGen(s, l, g);
    }
  }

  lemma FdsStep(s: State, l: Label)
    requires Inv(s) && Around(s, l)
    ensures var s' := Act(s, l); forall fd: Fd :: FdOk(s', fd)
  {
    forall fd: Fd ensures FdOk(Act(s, l), fd) {
      assert FdOk(s, fd) && (fd in s.open ==> GenOk(s, s.open[fd]));
      match l
      case Publish => PublishKeepsFd(s, l, fd);
      case Destroy(_) => DestroyKeepsFd(s, l, fd);
      case RunTimeout => EraseKeepsFd(s, l, fd);
      case Close(_) => EraseKeepsFd(s, l, fd);
      case Dispatch(_, _) => TaskKeepsFd(s, l, fd);
      case Renew(_) => TaskKeepsFd(s, l, fd);
      case Finish(_) => TaskKeepsFd(s, l, fd);
      case _ => AcceptKeepsFd(s, l, fd);
    }
  }

  /** Every step of every thread keeps the invariant. */
  lemma StepInv(s: State, l: Label)
    requires Inv(s)
    ensures Inv(Act(s, l))
  {
    InvAround(s, l);
    GensStep(s, l);
    FdsStep(s, l);
    MainStep(s, l);
  }

  lemma {:induction false} RunInv(s: State, ls: seq<Label>)
    requires Inv(s)
    ensures Inv(Run(s, ls))
    decreases |ls|
  {
    if ls != [] {
      StepInv(s, ls[0]);
      RunInv(Act(s, ls[0]), ls[1..]);
    }
  }

  lemma ReachableInv(s: State)
    requires Reachable(s)
    ensures Inv(s)
  {
    var ls :| s == Run(INIT, ls);
    RunInv(INIT, ls);
  }

  /** In every reachable state an entry of `users_` or of the timer under `fd` belongs to the one live connection
      that owns `fd`, whoever put it there and however often `fd` has been reused. */
  lemma EntriesBelongToOwner(s: State, fd: Fd)
    requires Reachable(s)
    ensures fd in s.users && s.users[fd].Conn? ==> Owns(s, fd, s.users[fd].g)
    ensures fd in s.timers ==> Owns(s, fd, s.timers[fd].g)
    ensures forall g, h :: Owns(s, fd, g) && Owns(s, fd, h) ==> g == h
  {
    ReachableInv(s);
    assert FdOk(s, fd);
  }

  /** The two states agree on everything recorded about connection `h`; by `EntriesBelongToOwner` its entries can
      only be found under its own descriptor. */
  ghost predicate SameFor(s: State, s': State, h: Gen)
    requires h < |s.fds|
  {
    var fd := s.fds[h];
    && h < |s'.fds| && s'.fds[h] == fd
    && (fd in s.users && s.users[fd] == Conn(h) <==> fd in s'.users && s'.users[fd] == Conn(h))
    && (fd in s.timers && s.timers[fd].g == h <==> fd in s'.timers && s'.timers[fd].g == h)
    && (fd in s.timers && s.timers[fd].g == h ==> s'.timers[fd] == s.timers[fd])
    && (Owns(s, fd, h) <==> Owns(s', fd, h))
  }

  ghost predicate Bystander(s: State, l: Label, h: Gen) {
    && Around(s, l) && h < |s.fds| && GenOk(s, h) && FdOk(s, s.fds[h]) && Actor(s, l) != Conn(h)
    && ((l.Close? || l.Renew?) && l.k in s.tasks ==> InTask(l.k) in s.holders[s.tasks[l.k]])
    && (l.Expire? ==> FdOk(s, l.fd))
  }

  lemma AcceptTouches(s: State, l: Label, h: Gen)
    requires Bystander(s, l, h) && l.Accept?
    ensures SameFor(s, Act(s, l), h)
  {
  }

  lemma MainTouches(s: State, l: Label, h: Gen)
    requires Bystander(s, l, h) && (l.Accept? || l.Arm? || l.Expire?)
    ensures SameFor(s, Act(s, l), h)
  {
    if l.Accept? { AcceptTouches(s, l, h); }
  }

  lemma PublishTouches(s: State, l: Label, h: Gen)
    requires Bystander(s, l, h) && (l.Publish?)
    ensures SameFor(s, Act(s, l), h)
  {
  }

  lemma EraseUserTouches(s: State, at: Fd, h: Gen)
    requires s.WellFormed() && h < |s.fds|
    requires at in s.users ==> s.users[at] != Conn(h)
    ensures SameFor(s, EraseUser(s, at), h)
  {
  }

  lemma EraseTouches(s: State, l: Label, h: Gen)
    requires Bystander(s, l, h) && (l.RunTimeout? || l.Close?)
    ensures SameFor(s, Act(s, l), h)
  {
    if l.RunTimeout? && s.main.Expiring? {
      EraseUserTouches(s, s.main.fd, h);
    } else if l.Close? && l.k in s.tasks {
      EraseUserTouches(s, s.fds[s.tasks[l.k]], h);
    }
  }

  lemma TaskTouches(s: State, l: Label, h: Gen)
    requires Bystander(s, l, h) && (l.Dispatch? || l.Renew? || l.Finish?)
    ensures SameFor(s, Act(s, l), h)
  {
  }

  lemma DestroyTouches(s: State, l: Label, h: Gen)
    requires Bystander(s, l, h) && (l.Destroy?)
    ensures SameFor(s, Act(s, l), h)
  {
  }

  /** A late close, timeout, adjust, cancel or descriptor close of one connection never touches another, although
      it goes by the descriptor alone: a step taken on behalf of one connection leaves every entry, timer and
      descriptor of every other connection exactly as it was. */
  lemma StepTouchesOnlyItsActor(s: State, l: Label, h: Gen)
    requires Reachable(s) && h < |s.fds| && Actor(s, l) != Conn(h)
    ensures SameFor(s, Act(s, l), h)
  {
    ReachableInv(s);
    InvAround(s, l);
    assert GenOk(s, h) && FdOk(s, s.fds[h]);
    if (l.Close? || l.Renew?) && l.k in s.tasks { assert TasksOk(s, s.tasks[l.k]); }
    match l
    case Publish => PublishTouches(s, l, h);
    case Destroy(_) => DestroyTouches(s, l, h);
    case RunTimeout => EraseTouches(s, l, h);
    case Close(_) => EraseTouches(s, l, h);
    case Dispatch(_, _) => TaskTouches(s, l, h);
    case Renew(_) => TaskTouches(s, l, h);
    case Finish(_) => TaskTouches(s, l, h);
    case _ => MainTouches(s, l, h);
  }

  /** No use after destruction: while a task holds a reference, its connection is not being destroyed and still owns
      its descriptor, so everything the task does by descriptor concerns its own connection. */
  lemma TaskKeepsItsDescriptor(s: State, k: Task)
    requires Reachable(s) && k in s.tasks
    ensures var g := s.tasks[k];
            g < |s.fds| && g !in s.dying && Owns(s, s.fds[g], g)
            && (s.fds[g] in s.users && s.users[s.fds[g]].Conn? ==> s.users[s.fds[g]].g == g)
            && (s.fds[g] in s.timers ==> s.timers[s.fds[g]].g == g)
  {
    ReachableInv(s);
    var g := s.tasks[k];
    assert GenOk(s, g) && TasksOk(s, g);
    assert InTask(k) in s.holders[g];
    assert FdOk(s, s.fds[g]);
  }

  /** No descriptor leaks and no connection lingers unwatched: every open descriptor belongs to a connection that is
      referenced or being destroyed, and a published connection has a pending timeout or one that is about to run. */
  lemma NothingLeaks(s: State, fd: Fd)
    requires Reachable(s)
    ensures fd in s.open ==> Owns(s, fd, s.open[fd]) && (s.holders[s.open[fd]] != {} <==> s.open[fd] !in s.dying)
    ensures fd in s.users && s.users[fd].Conn? ==>
              (fd in s.timers && s.timers[fd].g == s.users[fd].g) || s.main == Expiring(fd, s.users[fd].g)
  {
    ReachableInv(s);
    assert FdOk(s, fd);
    if fd in s.open { assert GenOk(s, s.open[fd]); }
  }

  lemma StepKeepsClosed(s: State, l: Label)
    requires s.WellFormed()
    ensures s.closed <= Act(s, l).closed
  {
  }

  /** A descriptor is closed once per connection: from the moment it is closed the connection stays closed, and the
      kernel's table never lists it again. */
  lemma {:induction false} ClosedForGood(s: State, ls: seq<Label>, g: Gen)
    requires Inv(s) && g in s.closed
    ensures var s' := Run(s, ls); g in s'.closed && forall fd :: fd in s'.open ==> s'.open[fd] != g
    decreases |ls|
  {
    if ls != [] {
      StepInv(s, ls[0]);
      StepKeepsClosed(s, ls[0]);
      ClosedForGood(Act(s, ls[0]), ls[1..], g);
    } else {
      forall fd | fd in s.open ensures s.open[fd] != g { assert FdOk(s, fd); }
    }
  }

  // ----- Connections come and go

  /** A connection under construction is known to the main thread alone. */
  ghost predicate MainAlone(s: State)
    requires s.WellFormed()
  {
    s.main.Built? || s.main.Armed? ==> s.holders[s.main.g] == {InMain}
  }

  lemma MainAloneStep(s: State, l: Label)
    requires Inv(s) && MainAlone(s)
    ensures MainAlone(Act(s, l))
  {
    if s.main.Built? || s.main.Armed? {
      var g := s.main.g;
      assert GenOk(s, g) && FdOk(s, s.main.fd);
      if (l.Close? || l.Renew? || l.Finish?) && l.k in s.tasks { assert GenOk(s, s.tasks[l.k]); }
      if l.Dispatch? && l.fd in s.users { assert FdOk(s, l.fd); }
      if l.Close? && l.k in s.tasks { assert FdOk(s, s.fds[s.tasks[l.k]]); }
    }
  }

  lemma {:induction false} MainAloneRun(s: State, ls: seq<Label>)
    requires Inv(s) && MainAlone(s)
    ensures MainAlone(Run(s, ls))
    decreases |ls|
  {
    if ls != [] {
      StepInv(s, ls[0]);
      MainAloneStep(s, ls[0]);
      MainAloneRun(Act(s, ls[0]), ls[1..]);
    }
  }

  lemma ReachableMainAlone(s: State)
    requires Reachable(s)
    ensures MainAlone(s)
  {
    var ls :| s == Run(INIT, ls);
    MainAloneRun(INIT, ls);
  }

  /** Only tasks, if any, still refer to the connection. */
  ghost predicate LetGo(s: State, g: Gen)
    requires s.WellFormed()
  {
    g < |s.fds| && InUsers !in s.holders[g] && InMain !in s.holders[g]
  }

  ghost predicate InTable(s: State, g: Gen) { exists fd :: fd in s.users && s.users[fd] == Conn(g) }

  /** A close closes: whatever else is going on, after the close callback the table has no entry for the task's
      connection, and nobody but tasks refers to it. */
  lemma CloseLetsGo(s: State, k: Task)
    requires Reachable(s) && k in s.tasks
    ensures var s' := Act(s, Close(k)); LetGo(s', s.tasks[k]) && !InTable(s', s.tasks[k]) && s'.tasks == s.tasks
  {
    ReachableInv(s);
    ReachableMainAlone(s);
    StepInv(s, Close(k));
    var g := s.tasks[k];
    assert GenOk(s, g) && TasksOk(s, g) && FdOk(s, s.fds[g]);
    assert GenOk(Act(s, Close(k)), g);
    NotInTable(Act(s, Close(k)), g);
  }

  /** So does a timeout: once its callback has run. */
  lemma TimeoutLetsGo(s: State)
    requires Inv(s) && s.main.Expiring?
    ensures var s' := Act(s, RunTimeout); LetGo(s', s.main.g) && !InTable(s', s.main.g) && s'.main.Loop?
  {
    StepInv(s, RunTimeout);
    var g := s.main.g;
    assert GenOk(s, g) && FdOk(s, s.main.fd);
    assert GenOk(Act(s, RunTimeout), g);
    NotInTable(Act(s, RunTimeout), g);
  }

  lemma NotInTable(s: State, g: Gen)
    requires Inv(s) && g < |s.fds| && InUsers !in s.holders[g]
    ensures !InTable(s, g)
  {
    forall fd | fd in s.users ensures s.users[fd] != Conn(g) {
      assert FdOk(s, fd) && GenOk(s, g);
    }
  }

  /** How many steps are left until the connection is closed: the release of each reference, and the three actions of the
      destructor. */
  ghost function Remaining(s: State, g: Gen): nat
    requires s.WellFormed() && g < |s.fds|
  {
    if g in s.closed then 0
    else if g in s.dying then
      match s.dying[g]
      case RemoveChannel => 3
      case CancelTimer => 2
      case CloseFd => 1
    else 3 + |s.holders[g]|
  }

  /** A task lets go of the connection, or its destructor moves on. */
  ghost predicate Advances(s: State, l: Label, g: Gen) {
    (l.Finish? && l.k in s.tasks && s.tasks[l.k] == g) || (l.Destroy? && l.g == g && g in s.dying)
  }

  lemma EraseOther(s: State, fd: Fd, g: Gen)
    requires s.WellFormed() && g < |s.fds| && (fd in s.users ==> s.users[fd] != Conn(g))
    ensures var s' := EraseUser(s, fd);
            s'.holders[g] == s.holders[g] && (g in s'.dying <==> g in s.dying) && s'.closed == s.closed
            && (g in s.dying ==> s'.dying[g] == s.dying[g]) && s'.fds == s.fds
  {
  }

  lemma FinishAdvances(s: State, k: Task, g: Gen)
    requires Inv(s) && LetGo(s, g) && k in s.tasks && s.tasks[k] == g
    ensures LetGo(Act(s, Finish(k)), g) && Remaining(Act(s, Finish(k)), g) == Remaining(s, g) - 1
  {
    assert GenOk(s, g) && TasksOk(s, g);
    assert InTask(k) in s.holders[g];
    var left := s.holders[g] - {InTask(k)};
    assert |left| == |s.holders[g]| - 1;
  }

  lemma DestroyAdvances(s: State, g: Gen)
    requires Inv(s) && LetGo(s, g) && g in s.dying
    ensures LetGo(Act(s, Destroy(g)), g) && Remaining(Act(s, Destroy(g)), g) == Remaining(s, g) - 1
  {
    assert GenOk(s, g);
  }

  lemma EraseLeavesIt(s: State, l: Label, g: Gen)
    requires Inv(s) && LetGo(s, g) && (l.Close? || l.RunTimeout? || l.Publish?)
    ensures LetGo(Act(s, l), g) && Remaining(Act(s, l), g) == Remaining(s, g)
  {
    NotInTable(s, g);
    if l.Close? && l.k in s.tasks { EraseOther(s, s.fds[s.tasks[l.k]], g); }
    if l.RunTimeout? && s.main.Expiring? { EraseOther(s, s.main.fd, g); }
    if l.Publish? && s.main.Armed? {
      assert GenOk(s, g);
      EraseOther(s, s.main.fd, g);
    }
  }

  lemma TaskLeavesIt(s: State, l: Label, g: Gen)
    requires Inv(s) && LetGo(s, g) && !Advances(s, l, g) && (l.Dispatch? || l.Renew? || l.Finish?)
    ensures LetGo(Act(s, l), g) && Remaining(Act(s, l), g) == Remaining(s, g)
  {
    NotInTable(s, g);
  }

  lemma MainLeavesIt(s: State, l: Label, g: Gen)
    requires Inv(s) && LetGo(s, g) && (l.Accept? || l.Arm? || l.Expire?)
    ensures LetGo(Act(s, l), g) && Remaining(Act(s, l), g) == Remaining(s, g)
  {
  }

  lemma DestroyLeavesIt(s: State, l: Label, g: Gen)
    requires Inv(s) && LetGo(s, g) && !Advances(s, l, g) && l.Destroy?
    ensures LetGo(Act(s, l), g) && Remaining(Act(s, l), g) == Remaining(s, g)
  {
  }

  /** No other step holds the connection back, or brings it back. */
  lemma OthersLeaveIt(s: State, l: Label, g: Gen)
    requires Inv(s) && LetGo(s, g) && !Advances(s, l, g)
    ensures LetGo(Act(s, l), g) && Remaining(Act(s, l), g) == Remaining(s, g)
  {
    if l.Close? || l.RunTimeout? || l.Publish? {
      EraseLeavesIt(s, l, g);
    } else if l.Dispatch? || l.Renew? || l.Finish? {
      TaskLeavesIt(s, l, g);
    } else if l.Destroy? {
      DestroyLeavesIt(s, l, g);
    } else {
      MainLeavesIt(s, l, g);
    }
  }

  ghost function Advanced(s: State, ls: seq<Label>, g: Gen): nat
    requires s.WellFormed()
    decreases |ls|
  {
    if ls == [] then 0 else (if Advances(s, ls[0], g) then 1 else 0) + Advanced(Act(s, ls[0]), ls[1..], g)
  }

  /** Once nobody but tasks refers to a connection it never comes back; and over any run, whatever else happens, it comes
      nearer to its end by exactly one with each release of a reference and each action of its destructor. */
  lemma {:induction false} LetGoForGood(s: State, ls: seq<Label>, g: Gen)
    requires Inv(s) && LetGo(s, g)
    ensures var s' := Run(s, ls); Inv(s') && LetGo(s', g) && Remaining(s', g) + Advanced(s, ls, g) == Remaining(s, g)
    decreases |ls|
  {
    if ls != [] {
      var l := ls[0];
      StepInv(s, l);
      if Advances(s, l, g) {
        if l.Finish? { FinishAdvances(s, l.k, g); } else { DestroyAdvances(s, g); }
      } else {
        OthersLeaveIt(s, l, g);
      }
      LetGoForGood(Act(s, l), ls[1..], g);
    }
  }

  /** The end: no step is left exactly when the connection is closed, and then the kernel's table does not list it. */
  lemma EndIsClosed(s: State, g: Gen)
    requires Inv(s) && g < |s.fds|
    ensures Remaining(s, g) == 0 <==> g in s.closed
    ensures g in s.closed ==> forall fd :: fd in s.open ==> s.open[fd] != g
  {
    forall fd | fd in s.open && g in s.closed ensures s.open[fd] != g { assert FdOk(s, fd); }
  }

  /** As long as it is not closed, somebody can bring the end nearer: a task that holds it, or its destructor. */
  lemma SomebodyAdvances(s: State, g: Gen) returns (l: Label)
    requires Inv(s) && LetGo(s, g) && g !in s.closed
    ensures Advances(s, l, g)
  {
    assert GenOk(s, g) && TasksOk(s, g);
    if g in s.dying {
      l := Destroy(g);
    } else {
      var h :| h in s.holders[g];
      assert h.InTask?;
      l := Finish(h.k);
    }
  }

  lemma {:induction false} EndInSteps(s: State, g: Gen) returns (ls: seq<Label>)
    requires Inv(s) && LetGo(s, g)
    ensures |ls| == Remaining(s, g) && Inv(Run(s, ls)) && g in Run(s, ls).closed
    ensures forall l :: l in ls ==> l.Finish? || l == Destroy(g)
    decreases Remaining(s, g)
  {
    EndIsClosed(s, g);
    if g in s.closed {
      ls := [];
    } else {
      var l := SomebodyAdvances(s, g);
      StepInv(s, l);
      if l.Finish? { FinishAdvances(s, l.k, g); } else { DestroyAdvances(s, g); }
      var rest := EndInSteps(Act(s, l), g);
      ls := [l] + rest;
      assert ls[1..] == rest;
    }
  }

  /** From the close callback to the closed descriptor: the tasks that still hold the connection finish, and the
      destructor takes its three actions; there is nothing else to wait for. */
  lemma CloseClosesDescriptor(s: State, k: Task) returns (ls: seq<Label>)
    requires Reachable(s) && k in s.tasks
    ensures var s', g := Run(s, [Close(k)] + ls), s.tasks[k];
            g in s'.closed && (forall fd :: fd in s'.open ==> s'.open[fd] != g)
            && |ls| == Remaining(Act(s, Close(k)), g) && forall l :: l in ls ==> l.Finish? || l == Destroy(g)
  {
    ReachableInv(s);
    CloseLetsGo(s, k);
    StepInv(s, Close(k));
    ls := EndInSteps(Act(s, Close(k)), s.tasks[k]);
    assert ([Close(k)] + ls)[1..] == ls;
    EndIsClosed(Run(s, [Close(k)] + ls), s.tasks[k]);
  }

  lemma RunTwo(s: State, a: Label, b: Label, ls: seq<Label>)
    requires s.WellFormed()
    ensures Run(s, [a, b] + ls) == Run(Act(Act(s, a), b), ls)
  {
    assert ([a, b] + ls)[1..] == [b] + ls && ([b] + ls)[1..] == ls;
  }

  /** A timeout that is due ends in the same way. */
  lemma TimeoutClosesDescriptor(s: State, fd: Fd) returns (ls: seq<Label>)
    requires Reachable(s) && s.main.Loop? && fd in s.timers
    ensures var s', g := Run(s, [Expire(fd), RunTimeout] + ls), s.timers[fd].g;
            g in s'.closed && (forall f :: f in s'.open ==> s'.open[f] != g)
            && forall l :: l in ls ==> l.Finish? || l == Destroy(g)
  {
    ReachableInv(s);
    assert FdOk(s, fd);
    var s1 := Act(s, Expire(fd));
    StepInv(s, Expire(fd));
    TimeoutLetsGo(s1);
    StepInv(s1, RunTimeout);
    ls := EndInSteps(Act(s1, RunTimeout), s.timers[fd].g);
    RunTwo(s, Expire(fd), RunTimeout, ls);
    EndIsClosed(Run(Act(s1, RunTimeout), ls), s.timers[fd].g);
  }

  lemma PublishPuts(s: State, fd: Fd, g: Gen)
    requires Inv(s) && s.main == Armed(fd, g)
    ensures var s' := Act(s, Publish);
            fd in s'.users && s'.users[fd] == Conn(g) && s'.timers == s.timers && s'.open == s.open && s'.closed == s.closed
            && s'.fds == s.fds && s'.main.Loop?
  {
  }

  /** An accepted connection is served: three steps later it is in the table and in the timer under its descriptor. */
  lemma AcceptPublishes(s: State, fd: Fd)
    requires Reachable(s) && s.main.Loop? && 0 < fd && fd !in s.open
    ensures var s', g := Run(s, [Accept(fd), Arm] + [Publish]), |s.fds|;
            && g < |s'.fds| && Owns(s', fd, g) && fd in s'.users && s'.users[fd] == Conn(g)
            && fd in s'.timers && s'.timers[fd].g == g && s'.main.Loop?
  {
    ReachableInv(s);
    var s1 := Act(s, Accept(fd));
    StepInv(s, Accept(fd));
    var s2 := Act(s1, Arm);
    StepInv(s1, Arm);
    assert s2.main == Armed(fd, |s.fds|) && s2.timers[fd].g == |s.fds|;
    PublishPuts(s2, fd, |s.fds|);
    RunTwo(s, Accept(fd), Arm, [Publish]);
    assert Run(s2, [Publish]) == Act(s2, Publish);
    assert Owns(s2, fd, |s.fds|);
  }

  /** An event for a published connection becomes a task that holds it; and a task renews its own connection's timer. */
  lemma EventsReachTheirConnection(s: State, fd: Fd, k: Task)
    requires Reachable(s) && fd in s.users && s.users[fd].Conn? && k !in s.tasks && s.main.Loop?
    ensures var s', g := Act(s, Dispatch(fd, k)), s.users[fd].g;
            && k in s'.tasks && s'.tasks[k] == g && InTask(k) in s'.holders[g] && fd in s'.timers
            && Act(s', Renew(k)).timers == s'.timers[fd := TimerEntry(g, s'.timers[fd].renewals + 1)]
  {
    ReachableInv(s);
    var g := s.users[fd].g;
    assert FdOk(s, fd) && GenOk(s, g);
    assert s.timers[fd].g == g;
  }
}
