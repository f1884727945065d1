/**
 One-time initialization guards: `__cxa_guard_acquire`, `__cxa_guard_release` and
 `__cxa_guard_abort` over one mutex, one counting semaphore and a waiting count.

 Any number of tasks and guards.  Every blocking call, every token given and every access to
 a guard is a step of its own, so a run is an arbitrary interleaving of the tasks.  A task may
 start a nested initialization while it holds other guards.
 */
module InitGuards {
  import opened Basics

  type Task = nat
  type Guard = nat

  /** The guard object of the ABI: `ready` and `pending` bytes. */
  datatype Cell = Cell(ready: bool, pending: bool)

  ghost const FREE: Cell := Cell(false, false)
  ghost const PENDING: Cell := Cell(false, true)
  ghost const READY: Cell := Cell(true, false)

  /** Where a task is.  The comments name the next thing the task does. */
  datatype Pc =
    | Idle                             // outside the guard functions
    | Acquire(g: Guard)                // take the mutex in __cxa_guard_acquire
    | Entered(g: Guard)                // has mutex: read pending
    | Yield(g: Guard)                  // has mutex: top of the wait loop, give the mutex
    | Sleep(g: Guard)                  // take the wait semaphore
    | Woken(g: Guard)                  // has consumed a token: take the mutex again
    | Recheck(g: Guard)                // has mutex: read pending again
    | Decide(g: Guard)                 // has mutex: read ready
    | Leave(g: Guard, ret: nat)        // has mutex: give it and return ret
    | Finish(g: Guard, ok: bool)       // take the mutex in __cxa_guard_release / __cxa_guard_abort
    | Finishing(g: Guard, ok: bool)    // has mutex: clear pending (and set ready)
    | Signal(left: nat)                // has mutex: give the semaphore `left` more times

  datatype State = State(
    pc: map<Task, Pc>,
    held: map<Task, set<Guard>>,       // guards the task was told to initialize and has not finished
    cells: map<Guard, Cell>,
    mutex: Option<Task>,
    tokens: nat,                       // count of the wait semaphore
    waiting: nat)                      // s_static_init_waiting_count

  datatype Action =
    | CallAcquire(t: Task, g: Guard)
    | CallFinish(t: Task, g: Guard, ok: bool)   // ok: release, otherwise abort
    | Run(t: Task)

  predicate InCritical(p: Pc) {
    p.Entered? || p.Yield? || p.Recheck? || p.Decide? || p.Leave? || p.Finishing? || p.Signal?
  }

  /** Counted by the waiting count. */
  predicate InWait(p: Pc) {
    p.Yield? || p.Sleep? || p.Woken? || p.Recheck?
  }

  /** Still has to consume a token of the wait semaphore. */
  predicate NeedsToken(p: Pc) {
    p.Yield? || p.Sleep?
  }

  function Waiters(s: State): set<Task> {
    set t | t in s.pc && InWait(s.pc[t])
  }

  function Sleepers(s: State): set<Task> {
    set t | t in s.pc && NeedsToken(s.pc[t])
  }

  /** Tokens that the task inside signal_waiting_tasks has yet to give. */
  function Owed(s: State): nat {
    if s.mutex.Some? && s.mutex.value in s.pc && s.pc[s.mutex.value].Signal?
    then s.pc[s.mutex.value].left else 0
  }

  // ---------------------------------------------------------------- steps

  predicate Enabled(s: State, a: Action) {
    && a.t in s.pc && a.t in s.held
    && match a
       case CallAcquire(t, g) => s.pc[t].Idle? && g in s.cells
       case CallFinish(t, g, _) => s.pc[t].Idle? && g in s.cells && g in s.held[t]
       case Run(t) =>
         match s.pc[t]
         case Idle => false
         case Acquire(_) => s.mutex.None?
         case Woken(_) => s.mutex.None?
         case Finish(_, _) => s.mutex.None?
         case Sleep(_) => s.tokens > 0
         case Signal(_) => true
         case _ => s.pc[t].g in s.cells
  }

  function At(s: State, t: Task, p: Pc): State {
    s.(pc := s.pc[t := p])
  }

  function Apply(s: State, a: Action): State
    requires Enabled(s, a)
  {
    match a
    case CallAcquire(t, g) => At(s, t, Acquire(g))
    case CallFinish(t, g, ok) => At(s, t, Finish(g, ok))
    case Run(t) => RunTask(s, t)
  }

  function RunTask(s: State, t: Task): State
    requires Enabled(s, Run(t))
  {
    match s.pc[t]
    case Idle => s
    case Acquire(g) => At(s, t, Entered(g)).(mutex := Some(t))
    case Entered(g) =>
      if s.cells[g].pending then At(s, t, Yield(g)).(waiting := s.waiting + 1)
      else At(s, t, Decide(g))
    case Yield(g) => At(s, t, Sleep(g)).(mutex := None)
    case Sleep(g) => At(s, t, Woken(g)).(tokens := s.tokens - 1)
    case Woken(g) => At(s, t, Recheck(g)).(mutex := Some(t))
    case Recheck(g) =>
      if s.cells[g].pending then At(s, t, Yield(g))
      else At(s, t, Decide(g)).(waiting := if s.waiting > 0 then s.waiting - 1 else 0)
    case Decide(g) =>
      if s.cells[g].ready then At(s, t, Leave(g, 0))
      else At(s, t, Leave(g, 1)).(cells := s.cells[g := s.cells[g].(pending := true)],
                                  held := s.held[t := s.held[t] + {g}])
    case Leave(_, _) => At(s, t, Idle).(mutex := None)
    case Finish(g, ok) => At(s, t, Finishing(g, ok)).(mutex := Some(t))
    case Finishing(g, ok) =>
      At(s, t, Signal(s.waiting)).(cells := s.cells[g := Cell(s.cells[g].ready || ok, false)],
                                   held := s.held[t := s.held[t] - {g}])
    case Signal(n) =>
      if n == 0 then At(s, t, Idle).(mutex := None)
      else At(s, t, Signal(n - 1)).(tokens := s.tokens + 1)
  }

  // ---------------------------------------------------------------- runs

  predicate ValidRun(s: State, run: seq<Action>)
    decreases |run|
  {
    run == [] || (Enabled(s, run[0]) && ValidRun(Apply(s, run[0]), run[1..]))
  }

  function Exec(s: State, run: seq<Action>): State
    requires ValidRun(s, run)
    decreases |run|
  {
    if run == [] then s else Exec(Apply(s, run[0]), run[1..])
  }

  /** All tasks outside the guard functions, all guards untouched, prepared primitives. */
  ghost predicate Init(s: State) {
    && s.pc.Keys == s.held.Keys
    && (forall t :: t in s.pc ==> s.pc[t].Idle?)
    && (forall t :: t in s.held ==> s.held[t] == {})
    && (forall g :: g in s.cells ==> s.cells[g] == Cell(false, false))
    && s.mutex.None? && s.tokens == 0 && s.waiting == 0
  }

  // ---------------------------------------------------------------- invariant

  ghost predicate MutexInv(s: State) {
    && (forall t :: t in s.pc ==> (InCritical(s.pc[t]) <==> s.mutex == Some(t)))
    && (s.mutex.Some? ==> s.mutex.value in s.pc)
  }

  /** What holds of task `t` at each program point. */
  predicate PcOk(s: State, t: Task)
    requires t in s.pc && t in s.held
  {
    match s.pc[t]
    case Idle => true
    case Signal(_) => true
    case Decide(g) => g in s.cells && !s.cells[g].pending
    case Leave(g, ret) =>
      g in s.cells && ret <= 1 && (if ret == 1 then g in s.held[t] else s.cells[g].ready)
    case Finish(g, _) => g in s.cells && g in s.held[t]
    case Finishing(g, _) => g in s.cells && g in s.held[t]
    case p => p.g in s.cells
  }

  ghost predicate PcInv(s: State) {
    && s.pc.Keys == s.held.Keys
    && forall t :: t in s.pc ==> PcOk(s, t)
  }

  /** The task initializing `g`: `pending` is set exactly while there is one, and there is at most one. */
  ghost predicate OwnerInv(s: State) {
    && (forall t, g :: t in s.held && g in s.held[t] ==> g in s.cells && s.cells[g].pending)
    && (forall t, u, g :: t in s.held && u in s.held && g in s.held[t] && g in s.held[u] ==> t == u)
    && (forall g :: g in s.cells && s.cells[g].pending ==> HasOwner(s, g))
    && (forall g :: g in s.cells ==> !(s.cells[g].ready && s.cells[g].pending))
  }

  ghost predicate HasOwner(s: State, g: Guard) {
    exists t :: t in s.held && g in s.held[t]
  }

  ghost predicate WaitsForPending(s: State, t: Task) {
    t in s.pc && InWait(s.pc[t]) && s.pc[t].g in s.cells && s.cells[s.pc[t].g].pending
  }

  ghost predicate WaitedForPending(s: State) {
    exists t :: WaitsForPending(s, t)
  }

  /** No lost wakeup, in the form the code maintains. */
  ghost predicate TokenInv(s: State) {
    WaitedForPending(s) || s.tokens + Owed(s) >= |Sleepers(s)|
  }

  ghost predicate Inv(s: State) {
    MutexInv(s) && PcInv(s) && OwnerInv(s) && s.waiting == |Waiters(s)| && TokenInv(s)
  }

  // How one task's move changes the two counted sets.

  lemma CardinalityAfterMove(a: set<Task>, b: set<Task>, t: Task)
    requires a - {t} == b - {t}
    ensures |b| == |a| + (if t in b then 1 else 0) - (if t in a then 1 else 0)
  {
    assert t in a ==> a == (a - {t}) + {t};
    assert t !in a ==> a == a - {t};
    assert t in b ==> b == (a - {t}) + {t};
    assert t !in b ==> b == a - {t};
  }

  lemma CountsAfterMove(s: State, s': State, t: Task, p: Pc)
    requires t in s.pc && s'.pc == s.pc[t := p]
    ensures |Waiters(s')| == |Waiters(s)| + (if InWait(p) then 1 else 0) - (if InWait(s.pc[t]) then 1 else 0)
    ensures |Sleepers(s')| == |Sleepers(s)| + (if NeedsToken(p) then 1 else 0) - (if NeedsToken(s.pc[t]) then 1 else 0)
  {
    CardinalityAfterMove(Waiters(s), Waiters(s'), t);
    CardinalityAfterMove(Sleepers(s), Sleepers(s'), t);
  }

  // Each part of the invariant survives every step.

  lemma StepKeepsMutex(s: State, a: Action)
    requires MutexInv(s) && Enabled(s, a)
    ensures MutexInv(Apply(s, a))
  {
  }

  lemma StepKeepsPcs(s: State, a: Action)
    requires MutexInv(s) && PcInv(s) && Enabled(s, a)
    ensures PcInv(Apply(s, a))
  {
    var s' := Apply(s, a);
    assert s'.pc.Keys == s.pc.Keys && s'.held.Keys == s.held.Keys;
    forall u | u in s'.pc
      ensures PcOk(s', u)
    {
      if u == a.t {
        StepKeepsOwnPc(s, a);
      } else {
        StepKeepsOtherPc(s, a, u);
      }
    }
  }

  lemma StepKeepsOwnPc(s: State, a: Action)
    requires Enabled(s, a) && PcOk(s, a.t)
    ensures a.t in Apply(s, a).pc && a.t in Apply(s, a).held && PcOk(Apply(s, a), a.t)
  {
  }

  lemma StepKeepsOtherPc(s: State, a: Action, u: Task)
    requires MutexInv(s) && PcInv(s) && Enabled(s, a) && u in s.pc && u != a.t
    ensures u in Apply(s, a).pc && u in Apply(s, a).held && PcOk(Apply(s, a), u)
  {
    assert PcOk(s, u) && PcOk(s, a.t);
    // only the holder of the mutex touches a guard, so `u` cannot be at Decide or Leave then
    assert s.pc[u].Decide? || s.pc[u].Leave? ==> !InCritical(s.pc[a.t]);
  }

  /** A step changes what a task holds only together with the guard: it takes one that is free, or gives up its own. */
  lemma StepOnHeld(s: State, a: Action)
    requires OwnerInv(s) && Enabled(s, a) && PcOk(s, a.t)
    ensures var s' := Apply(s, a);
            || (s'.held == s.held && s'.cells == s.cells)
            || (exists g :: g in s.cells && !s.cells[g].pending && !s.cells[g].ready
                  && s'.held == s.held[a.t := s.held[a.t] + {g}] && s'.cells == s.cells[g := PENDING])
            || (exists g, ready :: g in s.cells && g in s.held[a.t] && (ready ==> !s.cells[g].ready)
                  && s'.held == s.held[a.t := s.held[a.t] - {g}] && s'.cells == s.cells[g := Cell(ready, false)])
  {
  }

  lemma OwnersAfterTake(s: State, s': State, t: Task, g: Guard)
    requires OwnerInv(s) && t in s.held && g in s.cells && !s.cells[g].pending && !s.cells[g].ready
    requires s'.held == s.held[t := s.held[t] + {g}] && s'.cells == s.cells[g := PENDING]
    ensures OwnerInv(s')
  {
    forall x | x in s'.cells && s'.cells[x].pending
      ensures HasOwner(s', x)
    {
      if x == g {
        assert g in s'.held[t];
      } else {
        assert HasOwner(s, x);
        var u :| u in s.held && x in s.held[u];
        assert x in s'.held[u];
      }
    }
  }

  lemma OwnersAfterGive(s: State, s': State, t: Task, g: Guard, ready: bool)
    requires OwnerInv(s) && t in s.held && g in s.cells && g in s.held[t]
    requires s'.held == s.held[t := s.held[t] - {g}] && s'.cells == s.cells[g := Cell(ready, false)]
    ensures OwnerInv(s')
  {
    forall x | x in s'.cells && s'.cells[x].pending
      ensures HasOwner(s', x)
    {
      assert HasOwner(s, x);
      var u :| u in s.held && x in s.held[u];
      assert x in s'.held[u];
    }
  }

  lemma StepKeepsOwners(s: State, a: Action)
    requires OwnerInv(s) && Enabled(s, a) && PcOk(s, a.t)
    ensures OwnerInv(Apply(s, a))
  {
    StepOnHeld(s, a);
    var s' := Apply(s, a);
    if s'.held == s.held && s'.cells == s.cells {
      forall x | x in s'.cells && s'.cells[x].pending
        ensures HasOwner(s', x)
      {
        assert HasOwner(s, x);
        var u :| u in s.held && x in s.held[u];
        assert u in s'.held && x in s'.held[u];
      }
    } else if g :| g in s.cells && !s.cells[g].pending && !s.cells[g].ready
                   && s'.held == s.held[a.t := s.held[a.t] + {g}] && s'.cells == s.cells[g := PENDING] {
      OwnersAfterTake(s, s', a.t, g);
    } else {
      var g, ready :| g in s.cells && g in s.held[a.t]
                      && s'.held == s.held[a.t := s.held[a.t] - {g}] && s'.cells == s.cells[g := Cell(ready, false)];
      OwnersAfterGive(s, s', a.t, g, ready);
    }
  }

  lemma StepKeepsWaitingCount(s: State, a: Action)
    requires s.waiting == |Waiters(s)| && Enabled(s, a)
    ensures Apply(s, a).waiting == |Waiters(Apply(s, a))|
  {
    var s' := Apply(s, a);
    CountsAfterMove(s, s', a.t, s'.pc[a.t]);
    if InWait(s.pc[a.t]) {
      assert a.t in Waiters(s);
    }
  }

  lemma StepKeepsTokens(s: State, a: Action)
    requires MutexInv(s) && TokenInv(s) && s.waiting == |Waiters(s)| && Enabled(s, a) && PcOk(s, a.t)
    ensures TokenInv(Apply(s, a))
  {
    var s' := Apply(s, a);
    var t := a.t;
    CountsAfterMove(s, s', t, s'.pc[t]);
    if s.pc[t].Finishing? {
      // everyone counted as waiting is owed a token
      assert Sleepers(s') <= Waiters(s');
      CardinalityOfSubset(Sleepers(s'), Waiters(s'));
      StepKeepsWaitingCount(s, a);
    } else if s'.pc[t].Yield? {
      assert WaitsForPending(s', t);
    } else if u :| WaitsForPending(s, u) {
      assert WaitsForPending(s', u);
    }
  }

  lemma CardinalityOfSubset(a: set<Task>, b: set<Task>)
    requires a <= b
    ensures |a| <= |b|
  {
    assert b == a + (b - a);
  }

  lemma StepKeepsInv(s: State, a: Action)
    requires Inv(s) && Enabled(s, a)
    ensures Inv(Apply(s, a))
  {
    assert PcOk(s, a.t);
    StepKeepsMutex(s, a);
    StepKeepsPcs(s, a);
    StepKeepsOwners(s, a);
    StepKeepsWaitingCount(s, a);
    StepKeepsTokens(s, a);
  }

  lemma {:induction false} RunKeepsInv(s: State, run: seq<Action>)
    requires Inv(s) && ValidRun(s, run)
    ensures Inv(Exec(s, run))
    decreases |run|
  {
    if run != [] {
      StepKeepsInv(s, run[0]);
      RunKeepsInv(Apply(s, run[0]), run[1..]);
    }
  }

  lemma InitIsInv(s: State)
    requires Init(s)
    ensures Inv(s)
  {
    assert Waiters(s) == {} && Sleepers(s) == {};
  }

  // ---------------------------------------------------------------- what every run keeps

  /** No lost wakeup: when no task waits for a guard that is still pending, every task that
      sleeps or is about to sleep has a token in the semaphore or about to be put there. */
  lemma NoLostWakeup(s: State, run: seq<Action>)
    requires Init(s) && ValidRun(s, run)
    ensures var e := Exec(s, run);
            (forall t :: !WaitsForPending(e, t)) ==> e.tokens + Owed(e) >= |Sleepers(e)|
  {
    InitIsInv(s);
    RunKeepsInv(s, run);
  }

  /** At most one initializer, and `pending` says whether there is one; never ready and pending. */
  lemma OneInitializer(s: State, run: seq<Action>, g: Guard)
    requires Init(s) && ValidRun(s, run)
    ensures var e := Exec(s, run);
            && (g in e.cells ==> !(e.cells[g].ready && e.cells[g].pending))
            && (g in e.cells ==> (e.cells[g].pending <==> exists t :: t in e.held && g in e.held[t]))
            && (forall t, u :: t in e.held && u in e.held && g in e.held[t] && g in e.held[u] ==> t == u)
  {
    InitIsInv(s);
    RunKeepsInv(s, run);
    assert HasOwner(Exec(s, run), g) <==> exists t :: t in Exec(s, run).held && g in Exec(s, run).held[t];
  }

  lemma {:induction false} ReadyIsForever(s: State, run: seq<Action>, g: Guard)
    requires ValidRun(s, run) && g in s.cells && s.cells[g].ready
    ensures g in Exec(s, run).cells && Exec(s, run).cells[g].ready
    decreases |run|
  {
    if run != [] {
      ReadyIsForever(Apply(s, run[0]), run[1..], g);
    }
  }

  lemma ReadyMeansZero(e: State, g: Guard)
    requires Inv(e) && g in e.cells && e.cells[g].ready
    ensures forall t :: t in e.held ==> g !in e.held[t]
    ensures forall t :: t in e.pc && e.pc[t].Leave? && e.pc[t].g == g ==> e.pc[t].ret == 0
  {
    forall t | t in e.pc && e.pc[t].Leave? && e.pc[t].g == g
      ensures e.pc[t].ret == 0
    {
      assert PcOk(e, t);
    }
  }

  /** After a release: nobody ever initializes the guard again, and every acquire returns 0. */
  lemma AfterRelease(s: State, before: seq<Action>, after: seq<Action>, g: Guard)
    requires Init(s) && ValidRun(s, before) && ValidRun(Exec(s, before), after)
    requires g in Exec(s, before).cells && Exec(s, before).cells[g].ready
    ensures var e := Exec(Exec(s, before), after);
            && (forall t :: t in e.held ==> g !in e.held[t])
            && (forall t :: t in e.pc && e.pc[t].Leave? && e.pc[t].g == g ==> e.pc[t].ret == 0)
  {
    InitIsInv(s);
    RunKeepsInv(s, before);
    RunKeepsInv(Exec(s, before), after);
    ReadyIsForever(Exec(s, before), after, g);
    ReadyMeansZero(Exec(Exec(s, before), after), g);
  }

  /** The verdict of an acquire: 1 exactly when the guard is not ready, and then this task is the
      only initializer.  In particular the first acquirer to decide after an abort gets 1 and all
      others find the guard pending. */
  lemma AcquireVerdict(s: State, t: Task, g: Guard)
    requires Inv(s) && Enabled(s, Run(t)) && s.pc[t] == Decide(g)
    ensures var e := Apply(s, Run(t));
            && e.pc[t] == Leave(g, if s.cells[g].ready then 0 else 1)
            && (e.pc[t].ret == 1 ==>
                  && g in e.held[t] && e.cells[g].pending
                  && forall u :: u in e.held && u != t ==> g !in e.held[u])
  {
    StepKeepsInv(s, Run(t));
  }

  /** The assertions in release and abort hold, and abort leaves the guard free for a new owner. */
  lemma FinishFindsPending(s: State, t: Task)
    requires Inv(s) && t in s.pc && s.pc[t].Finishing?
    ensures Enabled(s, Run(t))
    ensures var g := s.pc[t].g;
            && s.cells[g].pending && !s.cells[g].ready
            && Apply(s, Run(t)).cells[g] == Cell(s.pc[t].ok, false)
            && Apply(s, Run(t)).pc[t] == Signal(|Waiters(s)|)
  {
    assert PcOk(s, t);
  }

  // ---------------------------------------------------------------- who initializes

  predicate Decides(s: State, a: Action, g: Guard) {
    a.Run? && a.t in s.pc && s.pc[a.t] == Decide(g)
  }

  /** How often an acquire of `g` returns 1 in a run. */
  function Grants(s: State, run: seq<Action>, g: Guard): nat
    requires ValidRun(s, run)
    decreases |run|
  {
    if run == [] then 0 else GrantOf(s, run[0], g) + Grants(Apply(s, run[0]), run[1..], g)
  }

  function GrantOf(s: State, a: Action, g: Guard): nat {
    if Decides(s, a, g) && g in s.cells && !s.cells[g].ready then 1 else 0
  }

  function EndOf(s: State, a: Action, g: Guard): nat {
    if a.Run? && a.t in s.pc && s.pc[a.t].Finishing? && s.pc[a.t].g == g then 1 else 0
  }

  /** How often an acquire of `g` decides at all. */
  function Decisions(s: State, run: seq<Action>, g: Guard): nat
    requires ValidRun(s, run)
    decreases |run|
  {
    if run == [] then 0
    else (if Decides(s, run[0], g) then 1 else 0) + Decisions(Apply(s, run[0]), run[1..], g)
  }

  /** How often an initialization of `g` ends, by release or abort. */
  function Ends(s: State, run: seq<Action>, g: Guard): nat
    requires ValidRun(s, run)
    decreases |run|
  {
    if run == [] then 0 else EndOf(s, run[0], g) + Ends(Apply(s, run[0]), run[1..], g)
  }

  function PendingCount(s: State, g: Guard): nat {
    if g in s.cells && s.cells[g].pending then 1 else 0
  }

  lemma GrantStep(s: State, a: Action, g: Guard)
    requires Enabled(s, a) && PcOk(s, a.t)
    requires s.pc[a.t].Finishing? ==> s.cells[s.pc[a.t].g].pending
    ensures PendingCount(s, g) + GrantOf(s, a, g) == EndOf(s, a, g) + PendingCount(Apply(s, a), g)
  {
  }

  lemma FinishingIsPending(s: State, t: Task)
    requires Inv(s) && t in s.pc
    ensures t in s.held && PcOk(s, t) && (s.pc[t].Finishing? ==> s.cells[s.pc[t].g].pending)
  {
  }

  /** Initializations that begin are those that end and the one under way. */
  lemma {:induction false} GrantsBalance(s: State, run: seq<Action>, g: Guard)
    requires Inv(s) && ValidRun(s, run)
    ensures PendingCount(s, g) + Grants(s, run, g) == Ends(s, run, g) + PendingCount(Exec(s, run), g)
    decreases |run|
  {
    if run != [] {
      var a := run[0];
      FinishingIsPending(s, a.t);
      GrantStep(s, a, g);
      StepKeepsInv(s, a);
      GrantsBalance(Apply(s, a), run[1..], g);
    }
  }

  lemma StaysUndecided(s: State, a: Action, g: Guard)
    requires Enabled(s, a) && g in s.cells && !s.cells[g].ready
    requires EndOf(s, a, g) == 0 && GrantOf(s, a, g) == 0
    ensures !Decides(s, a, g) && g in Apply(s, a).cells && !Apply(s, a).cells[g].ready
  {
  }

  lemma {:induction false} NoGrantNoDecision(s: State, run: seq<Action>, g: Guard)
    requires ValidRun(s, run) && g in s.cells && !s.cells[g].ready
    requires Ends(s, run, g) == 0 && Grants(s, run, g) == 0
    ensures Decisions(s, run, g) == 0
    decreases |run|
  {
    if run != [] {
      StaysUndecided(s, run[0], g);
      NoGrantNoDecision(Apply(s, run[0]), run[1..], g);
    }
  }

  /** After an abort, until the next initialization ends: as soon as any acquirer decides, exactly one has got 1. */
  lemma ExactlyOneAfterAbort(s: State, before: seq<Action>, after: seq<Action>, g: Guard)
    requires Init(s) && ValidRun(s, before) && ValidRun(Exec(s, before), after)
    requires g in Exec(s, before).cells && Exec(s, before).cells[g] == Cell(false, false)
    requires Ends(Exec(s, before), after, g) == 0
    ensures Grants(Exec(s, before), after, g) == if Decisions(Exec(s, before), after, g) > 0 then 1 else 0
  {
    InitIsInv(s);
    RunKeepsInv(s, before);
    var m := Exec(s, before);
    GrantsBalance(m, after, g);
    if Grants(m, after, g) == 0 {
      NoGrantNoDecision(m, after, g);
    } else {
      GrantsAreDecisions(m, after, g);
    }
  }

  lemma {:induction false} GrantsAreDecisions(s: State, run: seq<Action>, g: Guard)
    requires ValidRun(s, run)
    ensures Grants(s, run, g) <= Decisions(s, run, g)
    decreases |run|
  {
    if run != [] {
      GrantsAreDecisions(Apply(s, run[0]), run[1..], g);
    }
  }

  // ---------------------------------------------------------------- sleepers wake

  /** Guards `h` and `g` such that a task may acquire `g` while it is initializing `h`. */
  type Nesting = set<(Guard, Guard)>

  predicate Nests(s: State, a: Action, n: Nesting) {
    a.CallAcquire? && a.t in s.held ==> forall h :: h in s.held[a.t] ==> (h, a.g) in n
  }

  /** Every acquire inside an initialization is one that `n` allows. */
  predicate NestedRun(s: State, run: seq<Action>, n: Nesting)
    requires ValidRun(s, run)
    decreases |run|
  {
    run == [] || (Nests(s, run[0], n) && NestedRun(Apply(s, run[0]), run[1..], n))
  }

  ghost predicate Reaches(n: Nesting, s: State, e: State) {
    exists run :: ValidRun(s, run) && NestedRun(s, run, n) && Exec(s, run) == e
  }

  lemma ReachesStep(n: Nesting, s: State, a: Action)
    requires Enabled(s, a) && Nests(s, a, n)
    ensures Reaches(n, s, Apply(s, a))
  {
    var e := Apply(s, a);
    assert [a][1..] == [];
    assert ValidRun(e, []) && NestedRun(e, [], n) && Exec(e, []) == e;
    assert ValidRun(s, [a]) && NestedRun(s, [a], n) && Exec(s, [a]) == e;
  }

  lemma {:induction false} NestedConcat(n: Nesting, s: State, a: seq<Action>, b: seq<Action>)
    requires ValidRun(s, a) && NestedRun(s, a, n) && ValidRun(Exec(s, a), b) && NestedRun(Exec(s, a), b, n)
    ensures ValidRun(s, a + b) && NestedRun(s, a + b, n) && Exec(s, a + b) == Exec(Exec(s, a), b)
    decreases |a|
  {
    if a == [] {
      assert a + b == b;
    } else {
      assert (a + b)[1..] == a[1..] + b;
      NestedConcat(n, Apply(s, a[0]), a[1..], b);
    }
  }

  lemma ReachesTrans(n: Nesting, s: State, m: State, e: State)
    requires Reaches(n, s, m) && Reaches(n, m, e)
    ensures Reaches(n, s, e)
  {
    var a :| ValidRun(s, a) && NestedRun(s, a, n) && Exec(s, a) == m;
    var b :| ValidRun(m, b) && NestedRun(m, b, n) && Exec(m, b) == e;
    NestedConcat(n, s, a, b);
  }

  lemma ReachesBy(n: Nesting, s: State, m: State, a: Action)
    requires Reaches(n, s, m) && Enabled(m, a) && Nests(m, a, n)
    ensures Reaches(n, s, Apply(m, a))
  {
    ReachesStep(n, m, a);
    ReachesTrans(n, s, m, Apply(m, a));
  }

  /** Once no waiting task's guard is pending and the mutex is free, every sleeper can complete
      its acquire by its own steps alone. */
  lemma SleeperCompletes(s: State, t: Task)
    requires Inv(s) && s.mutex.None? && (forall u :: !WaitsForPending(s, u))
    requires t in s.pc && s.pc[t].Sleep?
    ensures exists e :: Reaches({}, s, e) && t in e.pc && e.pc[t].Idle?
  {
    var g := s.pc[t].g;
    assert PcOk(s, t) && !WaitsForPending(s, t) && t in Sleepers(s);
    var s1 := Apply(s, Run(t));
    ReachesStep({}, s, Run(t));
    var s2 := Apply(s1, Run(t));
    ReachesBy({}, s, s1, Run(t));
    var s3 := Apply(s2, Run(t));
    ReachesBy({}, s, s2, Run(t));
    var s4 := Apply(s3, Run(t));
    ReachesBy({}, s, s3, Run(t));
    ReachesBy({}, s, s4, Run(t));
  }

  // ---------------------------------------------------------------- runs without nested initialization

  /** No task enters an acquire while it is initializing another guard. */
  predicate FlatRun(s: State, run: seq<Action>)
    requires ValidRun(s, run)
    decreases |run|
  {
    run == [] ||
    ((run[0].CallAcquire? ==> s.held[run[0].t] == {}) && FlatRun(Apply(s, run[0]), run[1..]))
  }

  ghost predicate FlatInv(s: State) {
    forall t :: t in s.pc && t in s.held && (s.pc[t].Acquire? || s.pc[t].Entered? || InWait(s.pc[t]) || s.pc[t].Decide?)
      ==> s.held[t] == {}
  }

  lemma FlatStep(s: State, a: Action)
    requires FlatInv(s) && Enabled(s, a) && (a.CallAcquire? ==> s.held[a.t] == {})
    ensures FlatInv(Apply(s, a))
  {
  }

  lemma {:induction false} FlatRunKeeps(s: State, run: seq<Action>)
    requires Inv(s) && FlatInv(s) && ValidRun(s, run) && FlatRun(s, run)
    ensures Inv(Exec(s, run)) && FlatInv(Exec(s, run))
    decreases |run|
  {
    if run != [] {
      StepKeepsInv(s, run[0]);
      FlatStep(s, run[0]);
      FlatRunKeeps(Apply(s, run[0]), run[1..]);
    }
  }

  predicate Finished(s: State, t: Task)
    requires t in s.pc && t in s.held
  {
    s.pc[t].Idle? && s.held[t] == {}
  }

  /** A step that does not begin new work: a task inside a guard function moves, or a task that
      runs an initializer finishes it. */
  ghost predicate CanProgress(s: State) {
    exists a: Action :: !a.CallAcquire? && Enabled(s, a)
  }

  /** Without nested initialization a run never gets stuck before all tasks are done. */
  lemma FlatRunsNeverStick(s: State, run: seq<Action>, t: Task)
    requires Init(s) && ValidRun(s, run) && FlatRun(s, run)
    requires t in Exec(s, run).pc && t in Exec(s, run).held && !Finished(Exec(s, run), t)
    ensures CanProgress(Exec(s, run))
  {
    InitIsInv(s);
    FlatRunKeeps(s, run);
    FlatStateProgress(Exec(s, run), t);
  }

  /** The task that initializes a pending guard is not inside an acquire. */
  lemma OwnerProgress(s: State, g: Guard)
    requires Inv(s) && FlatInv(s) && s.mutex.None? && g in s.cells && s.cells[g].pending
    ensures CanProgress(s)
  {
    assert HasOwner(s, g);
    var u :| u in s.held && g in s.held[u];
    assert PcOk(s, u);
    assert s.pc[u].Idle? || s.pc[u].Finish?;
    assert Enabled(s, if s.pc[u].Idle? then CallFinish(u, g, true) else Run(u));
  }

  lemma HolderProgress(s: State)
    requires Inv(s) && s.mutex.Some?
    ensures CanProgress(s)
  {
    hide Apply, RunTask, ValidRun, TokenInv, OwnerInv;
    assert PcOk(s, s.mutex.value);
    assert Enabled(s, Run(s.mutex.value));
  }

  lemma WithoutTokens(s: State, t: Task) returns (g: Guard)
    requires Inv(s) && s.mutex.None? && s.tokens == 0 && t in s.pc && s.pc[t].Sleep?
    ensures g in s.cells && s.cells[g].pending
  {
    hide Apply, RunTask, ValidRun, OwnerInv, PcInv, MutexInv;
    assert t in Sleepers(s);
    var w :| WaitsForPending(s, w);
    g := s.pc[w].g;
  }

  lemma FlatStateProgress(s: State, t: Task)
    requires Inv(s) && FlatInv(s)
    requires t in s.pc && t in s.held && !Finished(s, t)
    ensures CanProgress(s)
  {
    if s.mutex.Some? {
      HolderProgress(s);
    } else if s.pc[t].Sleep? && s.tokens == 0 {
      var g := WithoutTokens(s, t);
      OwnerProgress(s, g);
    } else {
      assert PcOk(s, t);
      hide Apply, RunTask, ValidRun, TokenInv, OwnerInv, FlatInv;
      if s.pc[t].Idle? {
        var g :| g in s.held[t];
        assert g in s.cells by { HeldExists(s, t, g); }
        assert Enabled(s, CallFinish(t, g, true));
      } else {
        assert Enabled(s, Run(t));
      }
    }
  }

  lemma HeldExists(s: State, t: Task, g: Guard)
    requires Inv(s) && t in s.held && g in s.held[t]
    ensures g in s.cells
  {
  }

  // ---------------------------------------------------------------- runs without new work end

  /** Inside an acquire that has not decided yet. */
  predicate Acquiring(p: Pc) {
    p.Acquire? || p.Entered? || InWait(p) || p.Decide?
  }

  /** The steps left of the present call, where a token counts for four. */
  function Rank(p: Pc, holds: bool): nat {
    match p
    case Idle => if holds then 3 else 0
    case Acquire(_) => 9
    case Woken(_) => 9
    case Entered(_) => 8
    case Recheck(_) => 8
    case Yield(_) => 7
    case Sleep(_) => 6
    case Decide(_) => 5
    case Leave(_, _) => 4
    case Finish(_, _) => 2
    case Finishing(_, _) => 1
    case Signal(left) => 5 * left + 4
  }

  /** What one initialization can cost beyond that, with tasks numbered below `n`: signalling as many times. */
  function Cost(n: nat): nat {
    5 * n + 4
  }

  function WorkOf(p: Pc, held: nat, n: nat): nat {
    held * Cost(n) + (if Acquiring(p) then Cost(n) else 0) + Rank(p, held > 0)
  }

  function TaskWork(s: State, t: Task, n: nat): nat {
    if t in s.pc && t in s.held then WorkOf(s.pc[t], |s.held[t]|, n) else 0
  }

  function WorkBelow(s: State, k: nat, n: nat): nat {
    if k == 0 then 0 else WorkBelow(s, k - 1, n) + TaskWork(s, k - 1, n)
  }

  /** A bound on the steps that are possible without new calls of acquire, with tasks numbered below `n`. */
  function Work(s: State, n: nat): nat {
    4 * s.tokens + WorkBelow(s, n, n)
  }

  lemma {:induction false} WorkAfterMove(s: State, s': State, t: Task, k: nat, n: nat)
    requires forall u :: u != t ==> TaskWork(s', u, n) == TaskWork(s, u, n)
    ensures WorkBelow(s', k, n) == WorkBelow(s, k, n) + if t < k then TaskWork(s', t, n) - TaskWork(s, t, n) else 0
  {
    if k > 0 {
      WorkAfterMove(s, s', t, k - 1, n);
    }
  }

  lemma {:induction false} AtMostSoMany(a: set<Task>, n: nat)
    requires forall t :: t in a ==> t < n
    ensures |a| <= n
  {
    if n == 0 {
      assert a == {};
    } else {
      AtMostSoMany(a - {n - 1}, n - 1);
    }
  }

  lemma OneHeldLess(held: set<Guard>, g: Guard, n: nat)
    requires g in held
    ensures |held - {g}| * Cost(n) == |held| * Cost(n) - Cost(n)
  {
    assert |held - {g}| == |held| - 1;
  }

  lemma OneHeldMore(held: set<Guard>, g: Guard, n: nat)
    ensures |held + {g}| * Cost(n) <= |held| * Cost(n) + Cost(n)
  {
    if g in held {
      assert held + {g} == held;
    } else {
      assert |held + {g}| == |held| + 1;
    }
  }

  lemma DecidingTakesWork(s: State, t: Task, n: nat)
    requires Enabled(s, Run(t)) && s.pc[t].Decide?
    ensures var s' := Apply(s, Run(t)); 4 * s'.tokens + TaskWork(s', t, n) < 4 * s.tokens + TaskWork(s, t, n)
  {
    hide Cost;
    OneHeldMore(s.held[t], s.pc[t].g, n);
  }

  lemma FinishingTakesWork(s: State, t: Task, n: nat)
    requires Enabled(s, Run(t)) && PcOk(s, t) && s.pc[t].Finishing? && s.waiting <= n
    ensures var s' := Apply(s, Run(t)); 4 * s'.tokens + TaskWork(s', t, n) < 4 * s.tokens + TaskWork(s, t, n)
  {
    CostIs(n);
    hide Cost;
    OneHeldLess(s.held[t], s.pc[t].g, n);
  }

  /** The task itself pays for its step. */
  lemma StepTakesWork(s: State, a: Action, n: nat)
    requires Enabled(s, a) && !a.CallAcquire? && PcOk(s, a.t) && s.waiting <= n
    ensures var s' := Apply(s, a); 4 * s'.tokens + TaskWork(s', a.t, n) < 4 * s.tokens + TaskWork(s, a.t, n)
  {
    hide Cost;
    if a.Run? && s.pc[a.t].Decide? {
      DecidingTakesWork(s, a.t, n);
    } else if a.Run? && s.pc[a.t].Finishing? {
      FinishingTakesWork(s, a.t, n);
    }
  }

  lemma CostIs(n: nat)
    ensures Cost(n) == 5 * n + 4
  {
  }

  lemma OthersKeepWork(s: State, a: Action, u: Task, n: nat)
    requires Enabled(s, a) && u != a.t
    ensures TaskWork(Apply(s, a), u, n) == TaskWork(s, u, n)
  {
    hide WorkOf;
  }

  ghost predicate TasksBelow(s: State, n: nat) {
    forall t :: t in s.pc ==> t < n
  }

  /** Every step but a call of acquire leaves less work. */
  lemma StepLeavesLess(s: State, a: Action, n: nat)
    requires Inv(s) && Enabled(s, a) && !a.CallAcquire? && TasksBelow(s, n)
    ensures Work(Apply(s, a), n) < Work(s, n) && TasksBelow(Apply(s, a), n)
  {
    assert PcOk(s, a.t);
    AtMostSoMany(Waiters(s), n);
    StepTakesWork(s, a, n);
    forall u | u != a.t
      ensures TaskWork(Apply(s, a), u, n) == TaskWork(s, u, n)
    {
      OthersKeepWork(s, a, u, n);
    }
    hide TaskWork, RunTask;
    WorkAfterMove(s, Apply(s, a), a.t, n, n);
  }

  predicate NoAcquire(run: seq<Action>) {
    forall a :: a in run ==> !a.CallAcquire?
  }

  /** Nested or not, there are no more steps than that without a new call of acquire. */
  lemma {:induction false} RunIsShort(s: State, run: seq<Action>, n: nat)
    requires Inv(s) && ValidRun(s, run) && NoAcquire(run) && TasksBelow(s, n)
    ensures |run| <= Work(s, n)
    decreases |run|
  {
    if run != [] {
      hide Inv, Apply, Work, TasksBelow;
      assert !run[0].CallAcquire?;
      StepKeepsInv(s, run[0]);
      StepLeavesLess(s, run[0], n);
      RunIsShort(Apply(s, run[0]), run[1..], n);
    }
  }

  lemma {:induction false} NoAcquireIsFlat(s: State, run: seq<Action>)
    requires ValidRun(s, run) && NoAcquire(run)
    ensures FlatRun(s, run)
    decreases |run|
  {
    if run != [] {
      assert !run[0].CallAcquire?;
      NoAcquireIsFlat(Apply(s, run[0]), run[1..]);
    }
  }

  /** Without nested initialization and without new calls of acquire every run is finite, and where it cannot go on
      all tasks are done. */
  lemma FlatRunsFinish(s: State, run: seq<Action>, rest: seq<Action>, n: nat)
    requires Init(s) && ValidRun(s, run) && FlatRun(s, run)
    requires ValidRun(Exec(s, run), rest) && NoAcquire(rest) && TasksBelow(Exec(s, run), n)
    ensures |rest| <= Work(Exec(s, run), n)
    ensures var e := Exec(Exec(s, run), rest);
            !CanProgress(e) ==> forall t :: t in e.pc && t in e.held ==> Finished(e, t)
  {
    hide Apply, CanProgress, Work, TasksBelow;
    InitIsInv(s);
    FlatRunKeeps(s, run);
    var m := Exec(s, run);
    RunIsShort(m, rest, n);
    NoAcquireIsFlat(m, rest);
    FlatRunKeeps(m, rest);
    var e := Exec(m, rest);
    forall t | t in e.pc && t in e.held && !Finished(e, t)
      ensures CanProgress(e)
    {
      FlatStateProgress(e, t);
    }
  }

  // ---------------------------------------------------------------- nested initialization sticks

  lemma {:induction false} NestedInNothingIsFlat(s: State, run: seq<Action>)
    requires ValidRun(s, run) && NestedRun(s, run, {})
    ensures FlatRun(s, run)
    decreases |run|
  {
    if run != [] {
      NestedInNothingIsFlat(Apply(s, run[0]), run[1..]);
    }
  }

  /** Some run with this nesting gets to a state in which a task is not done and nothing can go on. */
  ghost predicate CanStick(n: Nesting) {
    exists s, e, t :: Init(s) && Reaches(n, s, e) && Unfinished(e, t) && !CanProgress(e)
  }

  predicate Unfinished(s: State, t: Task) {
    t in s.pc && t in s.held && !Finished(s, t)
  }

  // Shorthand for whole calls, each made of single steps.

  lemma AcquireFree(n: Nesting, s0: State, s: State, t: Task, g: Guard)
    requires Reaches(n, s0, s) && t in s.pc && t in s.held && s.pc[t].Idle? && s.mutex.None?
    requires g in s.cells && s.cells[g] == FREE && s.held[t] == {}
    ensures Reaches(n, s0, s.(cells := s.cells[g := PENDING], held := s.held[t := {g}]))
  {
    assert s.held[t] + {g} == {g};
    var s1 := Apply(s, CallAcquire(t, g));
    ReachesBy(n, s0, s, CallAcquire(t, g));
    var s2 := Apply(s1, Run(t));
    ReachesBy(n, s0, s1, Run(t));
    var s3 := Apply(s2, Run(t));
    ReachesBy(n, s0, s2, Run(t));
    var s4 := Apply(s3, Run(t));
    ReachesBy(n, s0, s3, Run(t));
    ReachesBy(n, s0, s4, Run(t));
    assert Apply(s4, Run(t)).pc == s.pc;
  }

  lemma AcquirePending(n: Nesting, s0: State, s: State, t: Task, g: Guard)
    requires Reaches(n, s0, s) && t in s.pc && t in s.held && s.pc[t].Idle? && s.mutex.None?
    requires g in s.cells && s.cells[g].pending && Nests(s, CallAcquire(t, g), n)
    ensures Reaches(n, s0, s.(pc := s.pc[t := Sleep(g)], waiting := s.waiting + 1))
  {
    var s1 := Apply(s, CallAcquire(t, g));
    ReachesBy(n, s0, s, CallAcquire(t, g));
    var s2 := Apply(s1, Run(t));
    ReachesBy(n, s0, s1, Run(t));
    var s3 := Apply(s2, Run(t));
    ReachesBy(n, s0, s2, Run(t));
    ReachesBy(n, s0, s3, Run(t));
    assert Apply(s3, Run(t)).pc == s.pc[t := Sleep(g)];
  }

  lemma WakeInVain(n: Nesting, s0: State, s: State, t: Task, g: Guard)
    requires Reaches(n, s0, s) && t in s.pc && t in s.held && s.pc[t] == Sleep(g) && s.mutex.None?
    requires g in s.cells && s.cells[g].pending && s.tokens > 0
    ensures Reaches(n, s0, s.(tokens := s.tokens - 1))
  {
    var s1 := Apply(s, Run(t));
    ReachesBy(n, s0, s, Run(t));
    var s2 := Apply(s1, Run(t));
    ReachesBy(n, s0, s1, Run(t));
    var s3 := Apply(s2, Run(t));
    ReachesBy(n, s0, s2, Run(t));
    ReachesBy(n, s0, s3, Run(t));
    assert Apply(s3, Run(t)).pc == s.pc;
  }

  lemma SignalAll(n: Nesting, s0: State, s: State, t: Task, count: nat)
    requires Reaches(n, s0, s) && t in s.pc && t in s.held && s.pc[t] == Signal(count)
    ensures Reaches(n, s0, s.(pc := s.pc[t := Idle], mutex := None, tokens := s.tokens + count))
    decreases count
  {
    var s1 := Apply(s, Run(t));
    ReachesBy(n, s0, s, Run(t));
    if count > 0 {
      SignalAll(n, s0, s1, t, count - 1);
      assert s1.pc[t := Idle] == s.pc[t := Idle];
    }
  }

  lemma Release(n: Nesting, s0: State, s: State, t: Task, g: Guard)
    requires Reaches(n, s0, s) && t in s.pc && t in s.held && s.pc[t].Idle? && s.mutex.None?
    requires g in s.cells && s.held[t] == {g}
    ensures Reaches(n, s0, s.(cells := s.cells[g := READY], held := s.held[t := {}], tokens := s.tokens + s.waiting))
  {
    assert s.held[t] - {g} == {};
    var s1 := Apply(s, CallFinish(t, g, true));
    ReachesBy(n, s0, s, CallFinish(t, g, true));
    var s2 := Apply(s1, Run(t));
    ReachesBy(n, s0, s1, Run(t));
    var s3 := Apply(s2, Run(t));
    ReachesBy(n, s0, s2, Run(t));
    SignalAll(n, s0, s3, t, s.waiting);
    assert s3.pc[t := Idle] == s.pc;
  }

  // Any two guards h and g, and three tasks: task 0 initializes h and needs g, task 1 needs h, task 2 initializes g.

  ghost function Three(h: Guard, g: Guard, p0: Pc, p1: Pc, held0: set<Guard>, held2: set<Guard>, ch: Cell, cg: Cell,
                       tokens: nat, waiting: nat): State
  {
    State(map[0 := p0, 1 := p1, 2 := Idle], map[0 := held0, 1 := {}, 2 := held2], map[h := ch, g := cg],
          None, tokens, waiting)
  }

  lemma OneInitializes(n: Nesting, h: Guard, g: Guard)
    requires h != g
    ensures var s0 := Three(h, g, Idle, Idle, {}, {}, FREE, FREE, 0, 0);
            Init(s0) && Reaches(n, s0, Three(h, g, Idle, Idle, {h}, {}, PENDING, FREE, 0, 0))
  {
    var s0 := Three(h, g, Idle, Idle, {}, {}, FREE, FREE, 0, 0);
    assert ValidRun(s0, []) && NestedRun(s0, [], n) && Exec(s0, []) == s0;
    AcquireFree(n, s0, s0, 0, h);
    var s1 := Three(h, g, Idle, Idle, {h}, {}, PENDING, FREE, 0, 0);
    assert s1 == s0.(cells := s0.cells[h := PENDING], held := s0.held[0 := {h}]);
  }

  lemma TwoInitializers(n: Nesting, h: Guard, g: Guard)
    requires h != g
    ensures var s0 := Three(h, g, Idle, Idle, {}, {}, FREE, FREE, 0, 0);
            Init(s0) && Reaches(n, s0, Three(h, g, Idle, Idle, {h}, {g}, PENDING, PENDING, 0, 0))
  {
    hide Reaches;
    var s0 := Three(h, g, Idle, Idle, {}, {}, FREE, FREE, 0, 0);
    OneInitializes(n, h, g);
    var s1 := Three(h, g, Idle, Idle, {h}, {}, PENDING, FREE, 0, 0);
    AcquireFree(n, s0, s1, 2, g);
    var s2 := Three(h, g, Idle, Idle, {h}, {g}, PENDING, PENDING, 0, 0);
    assert s2 == s1.(cells := s1.cells[g := PENDING], held := s1.held[2 := {g}]);
  }

  lemma TwoSleepers(n: Nesting, h: Guard, g: Guard)
    requires h != g && (h, g) in n
    ensures Reaches(n, Three(h, g, Idle, Idle, {}, {}, FREE, FREE, 0, 0),
                    Three(h, g, Sleep(g), Sleep(h), {h}, {g}, PENDING, PENDING, 0, 2))
  {
    hide Reaches;
    var s0 := Three(h, g, Idle, Idle, {}, {}, FREE, FREE, 0, 0);
    TwoInitializers(n, h, g);
    var s2 := Three(h, g, Idle, Idle, {h}, {g}, PENDING, PENDING, 0, 0);
    AcquirePending(n, s0, s2, 0, g);
    var s3 := Three(h, g, Sleep(g), Idle, {h}, {g}, PENDING, PENDING, 0, 1);
    assert s3 == s2.(pc := s2.pc[0 := Sleep(g)], waiting := 1);
    AcquirePending(n, s0, s3, 1, h);
    var s4 := Three(h, g, Sleep(g), Sleep(h), {h}, {g}, PENDING, PENDING, 0, 2);
    assert s4 == s3.(pc := s3.pc[1 := Sleep(h)], waiting := 2);
  }

  lemma BothTokensToOneWaiter(n: Nesting, h: Guard, g: Guard)
    requires h != g && (h, g) in n
    ensures Reaches(n, Three(h, g, Idle, Idle, {}, {}, FREE, FREE, 0, 0),
                    Three(h, g, Sleep(g), Sleep(h), {h}, {}, PENDING, READY, 0, 2))
  {
    hide Reaches;
    var s0 := Three(h, g, Idle, Idle, {}, {}, FREE, FREE, 0, 0);
    TwoSleepers(n, h, g);
    var s4 := Three(h, g, Sleep(g), Sleep(h), {h}, {g}, PENDING, PENDING, 0, 2);
    Release(n, s0, s4, 2, g);
    var s5 := Three(h, g, Sleep(g), Sleep(h), {h}, {}, PENDING, READY, 2, 2);
    assert s5 == s4.(cells := s4.cells[g := READY], held := s4.held[2 := {}], tokens := 2);
    WakeInVain(n, s0, s5, 1, h);
    WakeInVain(n, s0, s5.(tokens := 1), 1, h);
    assert s5.(tokens := 1).(tokens := 0) == Three(h, g, Sleep(g), Sleep(h), {h}, {}, PENDING, READY, 0, 2);
  }

  /** Tasks 0 and 1 sleep without a token, although guard g, which task 0 waits for, is ready. */
  ghost predicate Stuck(s: State, h: Guard, g: Guard) {
    && h != g && s.pc.Keys == {0, 1, 2} && s.held.Keys == {0, 1, 2} && s.cells.Keys == {h, g}
    && s.pc[0] == Sleep(g) && s.pc[1] == Sleep(h)
    && s.held[0] == {h} && s.held[1] == {} && s.held[2] == {}
    && s.cells[g] == READY && s.cells[h] == PENDING && s.tokens == 0
    && match s.pc[2] {
         case Idle => true
         case Acquire(x) => x in {h, g}
         case Entered(x) => x in {h, g}
         case Yield(x) => x == h
         case Sleep(x) => x == h
         case Decide(x) => x == g
         case Leave(x, ret) => x == g
         case _ => false
       }
  }

  /** A single nesting is enough: for any two guards, if one may be acquired while the other is initialized. */
  lemma StuckIsReachable(n: Nesting, h: Guard, g: Guard)
    requires h != g && (h, g) in n
    ensures var s := Three(h, g, Idle, Idle, {}, {}, FREE, FREE, 0, 0);
            Init(s) && exists e :: Reaches(n, s, e) && Stuck(e, h, g) && !CanProgress(e)
  {
    TwoInitializers(n, h, g);
    BothTokensToOneWaiter(n, h, g);
    var e := Three(h, g, Sleep(g), Sleep(h), {h}, {}, PENDING, READY, 0, 2);
    assert Stuck(e, h, g);
    assert forall a: Action :: Enabled(e, a) ==> a.t == 2;
  }

  /** From there no run of the three tasks, however long, wakes the two. */
  lemma {:induction false} StuckForever(s: State, run: seq<Action>, h: Guard, g: Guard)
    requires Stuck(s, h, g) && ValidRun(s, run)
    ensures Stuck(Exec(s, run), h, g)
    decreases |run|
  {
    if run != [] {
      StuckForever(Apply(s, run[0]), run[1..], h, g);
    }
  }

  // A guard that is acquired again inside its own initialization.

  ghost function Alone(g: Guard, p: Pc, held: set<Guard>, cell: Cell, waiting: nat): State {
    State(map[0 := p], map[0 := held], map[g := cell], None, 0, waiting)
  }

  lemma WaitsForItself(n: Nesting, g: Guard)
    requires (g, g) in n
    ensures CanStick(n)
  {
    var s0 := Alone(g, Idle, {}, FREE, 0);
    assert ValidRun(s0, []) && NestedRun(s0, [], n) && Exec(s0, []) == s0;
    AcquireFree(n, s0, s0, 0, g);
    var s1 := Alone(g, Idle, {g}, PENDING, 0);
    assert s1 == s0.(cells := s0.cells[g := PENDING], held := s0.held[0 := {g}]);
    AcquirePending(n, s0, s1, 0, g);
    var s2 := Alone(g, Sleep(g), {g}, PENDING, 1);
    assert s2 == s1.(pc := s1.pc[0 := Sleep(g)], waiting := 1);
    assert Unfinished(s2, 0) && !CanProgress(s2);
  }

  /** A set of tasks and guards can get stuck if and only if some initialization may acquire a guard. */
  lemma CanStickIff(n: Nesting)
    ensures CanStick(n) <==> n != {}
  {
    if n == {} {
      if CanStick(n) {
        var s, e, t :| Init(s) && Reaches(n, s, e) && Unfinished(e, t) && !CanProgress(e);
        var run :| ValidRun(s, run) && NestedRun(s, run, n) && Exec(s, run) == e;
        NestedInNothingIsFlat(s, run);
        FlatRunsNeverStick(s, run, t);
      }
    } else {
      var p :| p in n;
      if p.0 == p.1 {
        WaitsForItself(n, p.0);
      } else {
        StuckIsReachable(n, p.0, p.1);
        var s := Three(p.0, p.1, Idle, Idle, {}, {}, FREE, FREE, 0, 0);
        var e :| Reaches(n, s, e) && Stuck(e, p.0, p.1) && !CanProgress(e);
        assert Unfinished(e, 0);
      }
    }
  }

  // ---------------------------------------------------------------- ready by release

  /** The release of `g` takes effect with this step. */
  predicate Releases(s: State, a: Action, g: Guard) {
    a.Run? && a.t in s.pc && s.pc[a.t] == Finishing(g, true)
  }

  predicate Released(s: State, run: seq<Action>, g: Guard)
    requires ValidRun(s, run)
    decreases |run|
  {
    run != [] && (Releases(s, run[0], g) || Released(Apply(s, run[0]), run[1..], g))
  }

  lemma ReadyAfterStep(s: State, a: Action, g: Guard)
    requires Enabled(s, a) && g in s.cells
    ensures g in Apply(s, a).cells && (Apply(s, a).cells[g].ready <==> s.cells[g].ready || Releases(s, a, g))
  {
  }

  /** A guard is ready exactly when an initialization of it has been released: an abort leaves it to the next
      caller. */
  lemma {:induction false} ReadyIffReleased(s: State, run: seq<Action>, g: Guard)
    requires ValidRun(s, run) && g in s.cells
    ensures g in Exec(s, run).cells && (Exec(s, run).cells[g].ready <==> s.cells[g].ready || Released(s, run, g))
    decreases |run|
  {
    if run != [] {
      ReadyAfterStep(s, run[0], g);
      ReadyIffReleased(Apply(s, run[0]), run[1..], g);
    }
  }
}
