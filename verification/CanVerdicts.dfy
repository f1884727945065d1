/**
 What a sender is told and what happens to its frame: when a frame whose sender was told that it failed can be
 sent all the same, and when the driver's assertions can fail.  Every sender has a frame of its own.
 */
module CanVerdicts {
  import opened CanDriver

  /** What may happen while a sender is in the window, and what may happen while the bus is off. */
  datatype Policy = Policy(
    resetInWindow: bool,            // the queue is emptied while a sender is in the window
    startInWindow: bool,            // the driver is started while a sender is in the window
    busOffInWindow: bool,           // the bus goes off while a sender is in the window
    txInBusOff: bool,               // a transmit interrupt comes while the bus is off
    accountInBusOff: bool)          // a sender accounts for its frame while the bus is off

  /** The frames seen so far, those whose sender found the driver in a wrong state after queueing its frame, those
      whose sender was told that all went well, and those that a sender of the first kind took out of the queue. */
  datatype Log = Log(begun: set<Frame>, failed: set<Frame>, ok: set<Frame>, removed: set<Frame>)

  const EMPTY: Log := Log({}, {}, {}, {})

  predicate Allowed(p: Policy, s: State, a: Action) {
    match a
    case Start => p.startInWindow || s.window == multiset{}
    case BusOff => p.busOffInWindow || s.window == multiset{}
    case TxFree => p.txInBusOff || !s.busOff
    case Account(_) => p.accountInBusOff || !s.busOff
    case _ => true
  }

  /** A failed assertion ends a run. */
  predicate Legal(c: Config, p: Policy, s: State, l: Log, a: Action) {
    && Possible(c, s, a) && Do(c, s, a).1 != AssertFailed
    && (p.resetInWindow || Clean(c, s, a)) && Allowed(p, s, a)
    && (a.Begin? ==> a.f !in l.begun)
  }

  function LogAfter(c: Config, s: State, l: Log, a: Action): Log
    requires Possible(c, s, a)
  {
    match a
    case Begin(f) => l.(begun := l.begun + {f}, ok := if Do(c, s, a).1 == Ok then l.ok + {f} else l.ok)
    case Account(f) =>
      if Do(c, s, a).1 == InvalidState then l.(failed := l.failed + {f}, removed := l.removed + {s.queue[0]})
      else if Do(c, s, a).1 == Ok then l.(ok := l.ok + {f})
      else l
    case _ => l
  }

  predicate LegalRun(c: Config, p: Policy, s: State, l: Log, run: seq<Action>)
    decreases |run|
  {
    run == [] || (Legal(c, p, s, l, run[0]) && LegalRun(c, p, Do(c, s, run[0]).0, LogAfter(c, s, l, run[0]), run[1..]))
  }

  function End(c: Config, p: Policy, s: State, l: Log, run: seq<Action>): (State, Log)
    requires LegalRun(c, p, s, l, run)
    decreases |run|
  {
    if run == [] then (s, l) else End(c, p, Do(c, s, run[0]).0, LogAfter(c, s, l, run[0]), run[1..])
  }

  /** `s` and `l` are reached from installation by a run of legal steps. */
  ghost predicate Reached(c: Config, p: Policy, s: State, l: Log) {
    exists run :: LegalRun(c, p, Init(), EMPTY, run) && End(c, p, Init(), EMPTY, run) == (s, l)
  }

  /** No frame whose sender was told of a failure is ever sent. */
  ghost predicate FailuresAreTrue(c: Config, p: Policy) {
    forall s, l, f :: Reached(c, p, s, l) && f in l.failed ==> f !in s.h.loaded
  }

  /** There is a queue that a sender can put a frame into. */
  predicate CanQueue(c: Config) {
    !c.listenOnly && c.hasQueue && c.capacity > 0
  }

  /** A driver on which a sender finds at most its own frame in the queue. */
  predicate OneAtATime(c: Config) {
    c.listenOnly || !c.hasQueue || c.capacity < 2
  }

  // ---------------------------------------------------------------- one frame

  /** Where a frame can be, each in one place. */
  predicate Placed(s: State, l: Log, f: Frame) {
    && s.waiting[f] + s.window[f] <= 1 && Times(s.queue, f) <= 1
    && (f in s.waiting || f in s.window || f in s.queue || f in s.h.loaded || f in l.failed ==> f in l.begun)
    && (f in s.waiting ==> f !in s.queue && f !in s.h.loaded && f !in l.failed)
    && (f in s.queue ==> f !in s.h.loaded)
    && (f in s.window ==> f !in l.failed)
    && (f in l.failed ==> f !in s.h.loaded)
  }

  /** A sender that accounts for its frame now is told of a failure. */
  predicate Held(p: Policy, s: State) {
    s.stopped || s.recovering || (p.accountInBusOff && s.busOff)
  }

  /** While that is so, the frames of the senders in the window have not been sent either; a frame of a failed
      sender stays in the queue only then; and a stopped driver sends nothing. */
  predicate HeldBack(p: Policy, s: State, l: Log, f: Frame) {
    && (Held(p, s) && f in s.window ==> f !in s.h.loaded)
    && (f in l.failed && f in s.queue ==> Held(p, s))
    && (s.stopped ==> !s.occupied)
  }

  /** The first kind of run without wrong failures. */
  predicate Quiet(p: Policy) {
    !p.resetInWindow && !p.startInWindow && (!p.accountInBusOff || (!p.busOffInWindow && !p.txInBusOff))
  }

  /** With a short queue a sender in the window finds its own frame there. */
  predicate OwnFrame(c: Config, s: State, l: Log, f: Frame) {
    && |s.queue| <= 1
    && (f in s.window ==> f !in s.h.loaded && f in s.queue)
    && (f in l.failed ==> f !in s.queue)
  }

  lemma TimesOfRest(q: seq<Frame>, f: Frame)
    requires q != []
    ensures Times(q, f) == (if q[0] == f then 1 else 0) + Times(q[1..], f)
    ensures f in q <==> Times(q, f) > 0
    ensures f in q[1..] <==> Times(q[1..], f) > 0
  {
    assert q == [q[0]] + q[1..];
  }

  lemma TimesOfMore(q: seq<Frame>, g: Frame, f: Frame)
    ensures Times(q + [g], f) == Times(q, f) + (if g == f then 1 else 0)
    ensures f in q <==> Times(q, f) > 0
  {
  }

  // ---------------------------------------------------------------- nothing happens in a window

  ghost predicate QuietAt(c: Config, p: Policy, s: State, l: Log, f: Frame) {
    Inv(c, s) && Placed(s, l, f) && HeldBack(p, s, l, f)
  }

  lemma QuietBegin(c: Config, p: Policy, s: State, l: Log, a: Action, f: Frame)
    requires a.Begin?
    requires Quiet(p) && QuietAt(c, p, s, l, f) && Legal(c, p, s, l, a)
    ensures QuietAt(c, p, Do(c, s, a).0, LogAfter(c, s, l, a), f)
  {
    StepKeepsInv(c, s, a);
  }

  lemma QuietGiveUp(c: Config, p: Policy, s: State, l: Log, a: Action, f: Frame)
    requires a.GiveUp?
    requires Quiet(p) && QuietAt(c, p, s, l, f) && Legal(c, p, s, l, a)
    ensures QuietAt(c, p, Do(c, s, a).0, LogAfter(c, s, l, a), f)
  {
    StepKeepsInv(c, s, a);
  }

  lemma QuietEnqueue(c: Config, p: Policy, s: State, l: Log, a: Action, f: Frame)
    requires a.Enqueue?
    requires Quiet(p) && QuietAt(c, p, s, l, f) && Legal(c, p, s, l, a)
    ensures QuietAt(c, p, Do(c, s, a).0, LogAfter(c, s, l, a), f)
  {
    StepKeepsInv(c, s, a);
    TimesOfMore(s.queue, a.f, f);
  }

  lemma QuietAccount(c: Config, p: Policy, s: State, l: Log, a: Action, f: Frame)
    requires a.Account?
    requires Quiet(p) && QuietAt(c, p, s, l, f) && Legal(c, p, s, l, a)
    ensures QuietAt(c, p, Do(c, s, a).0, LogAfter(c, s, l, a), f)
  {
    StepKeepsInv(c, s, a);
    if s.queue != [] {
      TimesOfRest(s.queue, f);
    }
  }

  lemma QuietTxFree(c: Config, p: Policy, s: State, l: Log, a: Action, f: Frame)
    requires a.TxFree?
    requires Quiet(p) && QuietAt(c, p, s, l, f) && Legal(c, p, s, l, a)
    ensures QuietAt(c, p, Do(c, s, a).0, LogAfter(c, s, l, a), f)
  {
    StepKeepsInv(c, s, a);
    if s.queue != [] {
      TimesOfRest(s.queue, f);
    }
  }

  lemma QuietReset(c: Config, p: Policy, s: State, l: Log, a: Action, f: Frame)
    requires a.Stop? || a.InitiateRecovery? || a.ClearTransmitQueue?
    requires Quiet(p) && QuietAt(c, p, s, l, f) && Legal(c, p, s, l, a)
    ensures QuietAt(c, p, Do(c, s, a).0, LogAfter(c, s, l, a), f)
  {
    StepKeepsInv(c, s, a);
  }

  lemma QuietFlags(c: Config, p: Policy, s: State, l: Log, a: Action, f: Frame)
    requires a.Start? || a.BusOff? || a.RecoveryComplete?
    requires Quiet(p) && QuietAt(c, p, s, l, f) && Legal(c, p, s, l, a)
    ensures QuietAt(c, p, Do(c, s, a).0, LogAfter(c, s, l, a), f)
  {
    StepKeepsInv(c, s, a);
  }

  lemma QuietStep(c: Config, p: Policy, s: State, l: Log, a: Action, f: Frame)
    requires Quiet(p) && QuietAt(c, p, s, l, f) && Legal(c, p, s, l, a)
    ensures QuietAt(c, p, Do(c, s, a).0, LogAfter(c, s, l, a), f)
  {
    hide QuietAt, Do, LogAfter, Allowed, Clean;
    match a
    case Begin(_) => QuietBegin(c, p, s, l, a, f);
    case GiveUp(_) => QuietGiveUp(c, p, s, l, a, f);
    case Enqueue(_) => QuietEnqueue(c, p, s, l, a, f);
    case Account(_) => QuietAccount(c, p, s, l, a, f);
    case TxFree => QuietTxFree(c, p, s, l, a, f);
    case Stop => QuietReset(c, p, s, l, a, f);
    case InitiateRecovery => QuietReset(c, p, s, l, a, f);
    case ClearTransmitQueue => QuietReset(c, p, s, l, a, f);
    case _ => QuietFlags(c, p, s, l, a, f);
  }

  lemma {:induction false} QuietRun(c: Config, p: Policy, s: State, l: Log, run: seq<Action>, f: Frame)
    requires Quiet(p) && QuietAt(c, p, s, l, f) && LegalRun(c, p, s, l, run)
    ensures var (e, m) := End(c, p, s, l, run); QuietAt(c, p, e, m, f)
    decreases |run|
  {
    hide QuietAt, Do, LogAfter, Allowed, Clean;
    if run != [] {
      QuietStep(c, p, s, l, run[0], f);
      QuietRun(c, p, Do(c, s, run[0]).0, LogAfter(c, s, l, run[0]), run[1..], f);
    }
  }

  // ---------------------------------------------------------------- a short queue

  ghost predicate ShortAt(c: Config, s: State, l: Log, f: Frame) {
    Inv(c, s) && Placed(s, l, f) && OwnFrame(c, s, l, f)
  }

  lemma ShortBegin(c: Config, p: Policy, s: State, l: Log, a: Action, f: Frame)
    requires a.Begin?
    requires CanQueue(c) && OneAtATime(c) && !p.resetInWindow && ShortAt(c, s, l, f) && Legal(c, p, s, l, a)
    ensures ShortAt(c, Do(c, s, a).0, LogAfter(c, s, l, a), f)
  {
    StepKeepsInv(c, s, a);
  }

  lemma ShortGiveUp(c: Config, p: Policy, s: State, l: Log, a: Action, f: Frame)
    requires a.GiveUp?
    requires CanQueue(c) && OneAtATime(c) && !p.resetInWindow && ShortAt(c, s, l, f) && Legal(c, p, s, l, a)
    ensures ShortAt(c, Do(c, s, a).0, LogAfter(c, s, l, a), f)
  {
    StepKeepsInv(c, s, a);
  }

  lemma ShortEnqueue(c: Config, p: Policy, s: State, l: Log, a: Action, f: Frame)
    requires a.Enqueue?
    requires CanQueue(c) && OneAtATime(c) && !p.resetInWindow && ShortAt(c, s, l, f) && Legal(c, p, s, l, a)
    ensures ShortAt(c, Do(c, s, a).0, LogAfter(c, s, l, a), f)
  {
    StepKeepsInv(c, s, a);
    TimesOfMore(s.queue, a.f, f);
  }

  lemma ShortAccount(c: Config, p: Policy, s: State, l: Log, a: Action, f: Frame)
    requires a.Account?
    requires CanQueue(c) && OneAtATime(c) && !p.resetInWindow && ShortAt(c, s, l, f) && Legal(c, p, s, l, a)
    ensures ShortAt(c, Do(c, s, a).0, LogAfter(c, s, l, a), f)
  {
    StepKeepsInv(c, s, a);
    if s.queue != [] {
      TimesOfRest(s.queue, f);
    }
  }

  lemma ShortTxFree(c: Config, p: Policy, s: State, l: Log, a: Action, f: Frame)
    requires a.TxFree?
    requires CanQueue(c) && OneAtATime(c) && !p.resetInWindow && ShortAt(c, s, l, f) && Legal(c, p, s, l, a)
    ensures ShortAt(c, Do(c, s, a).0, LogAfter(c, s, l, a), f)
  {
    StepKeepsInv(c, s, a);
    if s.queue != [] {
      TimesOfRest(s.queue, f);
    }
  }

  lemma ShortReset(c: Config, p: Policy, s: State, l: Log, a: Action, f: Frame)
    requires a.Stop? || a.InitiateRecovery? || a.ClearTransmitQueue?
    requires CanQueue(c) && OneAtATime(c) && !p.resetInWindow && ShortAt(c, s, l, f) && Legal(c, p, s, l, a)
    ensures ShortAt(c, Do(c, s, a).0, LogAfter(c, s, l, a), f)
  {
    StepKeepsInv(c, s, a);
  }

  lemma ShortFlags(c: Config, p: Policy, s: State, l: Log, a: Action, f: Frame)
    requires a.Start? || a.BusOff? || a.RecoveryComplete?
    requires CanQueue(c) && OneAtATime(c) && !p.resetInWindow && ShortAt(c, s, l, f) && Legal(c, p, s, l, a)
    ensures ShortAt(c, Do(c, s, a).0, LogAfter(c, s, l, a), f)
  {
    StepKeepsInv(c, s, a);
  }

  lemma ShortStep(c: Config, p: Policy, s: State, l: Log, a: Action, f: Frame)
    requires CanQueue(c) && OneAtATime(c) && !p.resetInWindow && ShortAt(c, s, l, f) && Legal(c, p, s, l, a)
    ensures ShortAt(c, Do(c, s, a).0, LogAfter(c, s, l, a), f)
  {
    hide ShortAt, Do, LogAfter, Allowed, Clean;
    match a
    case Begin(_) => ShortBegin(c, p, s, l, a, f);
    case GiveUp(_) => ShortGiveUp(c, p, s, l, a, f);
    case Enqueue(_) => ShortEnqueue(c, p, s, l, a, f);
    case Account(_) => ShortAccount(c, p, s, l, a, f);
    case TxFree => ShortTxFree(c, p, s, l, a, f);
    case Stop => ShortReset(c, p, s, l, a, f);
    case InitiateRecovery => ShortReset(c, p, s, l, a, f);
    case ClearTransmitQueue => ShortReset(c, p, s, l, a, f);
    case _ => ShortFlags(c, p, s, l, a, f);
  }

  lemma {:induction false} ShortRun(c: Config, p: Policy, s: State, l: Log, run: seq<Action>, f: Frame)
    requires CanQueue(c) && OneAtATime(c) && !p.resetInWindow && ShortAt(c, s, l, f) && LegalRun(c, p, s, l, run)
    ensures var (e, m) := End(c, p, s, l, run); ShortAt(c, e, m, f)
    decreases |run|
  {
    hide ShortAt, Do, LogAfter, Allowed, Clean;
    if run != [] {
      ShortStep(c, p, s, l, run[0], f);
      ShortRun(c, p, Do(c, s, run[0]).0, LogAfter(c, s, l, run[0]), run[1..], f);
    }
  }

  // ---------------------------------------------------------------- no queue

  predicate NobodyQueues(c: Config, s: State, l: Log) {
    && s.queue == [] && s.window == multiset{} && l.failed == {} && l.removed == {}
    && (c.listenOnly || !c.hasQueue ==> s.waiting == multiset{})
  }

  lemma {:induction false} NobodyQueuesRun(c: Config, p: Policy, s: State, l: Log, run: seq<Action>)
    requires !CanQueue(c) && NobodyQueues(c, s, l) && LegalRun(c, p, s, l, run)
    ensures var (e, m) := End(c, p, s, l, run); NobodyQueues(c, e, m)
    decreases |run|
  {
    if run != [] {
      NobodyQueuesRun(c, p, Do(c, s, run[0]).0, LogAfter(c, s, l, run[0]), run[1..]);
    }
  }

  // ---------------------------------------------------------------- what goes wrong otherwise

  lemma {:induction false} OneMore(c: Config, p: Policy, s: State, l: Log, run: seq<Action>, a: Action)
    requires LegalRun(c, p, s, l, run) && Legal(c, p, End(c, p, s, l, run).0, End(c, p, s, l, run).1, a)
    ensures LegalRun(c, p, s, l, run + [a])
    ensures var (e, m) := End(c, p, s, l, run);
            End(c, p, s, l, run + [a]) == (Do(c, e, a).0, LogAfter(c, e, m, a))
    decreases |run|
  {
    if run == [] {
      assert [] + [a] == [a] && [a][1..] == [];
      assert LegalRun(c, p, Do(c, s, a).0, LogAfter(c, s, l, a), []);
    } else {
      assert (run + [a])[1..] == run[1..] + [a];
      OneMore(c, p, Do(c, s, run[0]).0, LogAfter(c, s, l, run[0]), run[1..], a);
    }
  }

  lemma ReachedNext(c: Config, p: Policy, s: State, l: Log, a: Action)
    requires Reached(c, p, s, l) && Legal(c, p, s, l, a)
    ensures Reached(c, p, Do(c, s, a).0, LogAfter(c, s, l, a))
  {
    var run :| LegalRun(c, p, Init(), EMPTY, run) && End(c, p, Init(), EMPTY, run) == (s, l);
    OneMore(c, p, Init(), EMPTY, run, a);
  }

  lemma Goes(c: Config, p: Policy, s: State, l: Log, a: Action, e: State, m: Log)
    requires Reached(c, p, s, l) && Legal(c, p, s, l, a)
    requires Do(c, s, a).0 == e && LogAfter(c, s, l, a) == m
    ensures Reached(c, p, e, m)
  {
    ReachedNext(c, p, s, l, a);
  }

  /** Frame 0 is under transmission on a running driver. */
  function Sending(waiting: multiset<Frame>): State {
    State(false, false, false, true, 1, [], waiting, multiset{}, History([], [], [0], [0], []))
  }

  const SEEN: Log := Log({0, 1, 2, 3}, {}, {0}, {})

  lemma ReachSending(c: Config, p: Policy)
    requires !c.listenOnly
    ensures Reached(c, p, Sending(multiset{}), Log({0}, {}, {0}, {}))
  {
    assert LegalRun(c, p, Init(), EMPTY, []) && End(c, p, Init(), EMPTY, []) == (Init(), EMPTY);
    var started := Init().(stopped := false);
    Goes(c, p, Init(), EMPTY, Start, started, EMPTY);
    Goes(c, p, started, EMPTY, Begin(0), Sending(multiset{}), Log({0}, {}, {0}, {}));
  }

  lemma AnotherWaits(c: Config, p: Policy, waiting: multiset<Frame>, begun: set<Frame>, f: Frame)
    requires !c.listenOnly && c.hasQueue && f !in begun
    requires Reached(c, p, Sending(waiting), Log(begun, {}, {0}, {}))
    ensures Reached(c, p, Sending(waiting + multiset{f}), Log(begun + {f}, {}, {0}, {}))
  {
    Goes(c, p, Sending(waiting), Log(begun, {}, {0}, {}), Begin(f),
         Sending(waiting + multiset{f}), Log(begun + {f}, {}, {0}, {}));
  }

  /** The senders of 1, 2 and 3 are about to queue their frames. */
  lemma ReachSenders(c: Config, p: Policy)
    requires !c.listenOnly && c.hasQueue
    ensures Reached(c, p, Sending(multiset{1, 2, 3}), SEEN)
  {
    ReachSending(c, p);
    assert multiset{} + multiset{1} == multiset{1} && {0} + {1} == {0, 1};
    AnotherWaits(c, p, multiset{}, {0}, 1);
    assert multiset{1} + multiset{2} == multiset{1, 2} && {0, 1} + {2} == {0, 1, 2};
    AnotherWaits(c, p, multiset{1}, {0, 1}, 2);
    assert multiset{1, 2} + multiset{3} == multiset{1, 2, 3} && {0, 1, 2} + {3} == {0, 1, 2, 3};
    AnotherWaits(c, p, multiset{1, 2}, {0, 1, 2}, 3);
  }

  /** Stopped, with the frames of 1 and 2 queued and their senders in the window. */
  const STOPPED_WITH_TWO: State :=
    State(true, false, false, false, 0, [1, 2], multiset{3}, multiset{1, 2}, History([1, 2], [], [0], [0], []))

  lemma StoppedWithTwo(c: Config, p: Policy)
    requires !OneAtATime(c)
    ensures Reached(c, p, STOPPED_WITH_TWO, SEEN)
  {
    hide Reached;
    ReachSenders(c, p);
    var s1 := Sending(multiset{1, 2, 3}).(stopped := true, occupied := false, count := 0);
    Goes(c, p, Sending(multiset{1, 2, 3}), SEEN, Stop, s1, SEEN);
    var s2 := s1.(queue := [1], waiting := multiset{2, 3}, window := multiset{1}, h := History([1], [], [0], [0], []));
    Goes(c, p, s1, SEEN, Enqueue(1), s2, SEEN);
    Goes(c, p, s2, SEEN, Enqueue(2), STOPPED_WITH_TWO, SEEN);
  }

  lemma WrongOneRemoved(c: Config, p: Policy)
    requires !OneAtATime(c)
    ensures Reached(c, p, STOPPED_WITH_TWO.(queue := [2], window := multiset{1}, h := History([1, 2], [1], [0], [0], [1])),
                    Log({0, 1, 2, 3}, {2}, {0}, {1}))
  {
    hide Reached;
    StoppedWithTwo(c, p);
    var s4 := STOPPED_WITH_TWO.(queue := [2], window := multiset{1}, h := History([1, 2], [1], [0], [0], [1]));
    Goes(c, p, STOPPED_WITH_TWO, SEEN, Account(2), s4, Log({0, 1, 2, 3}, {2}, {0}, {1}));
  }

  /** Started while a sender is in the window: the sender of 2 removes frame 1 and is told of a failure, the
      driver is started, and the sender of 1 sends frame 2 and is told that all went well. */
  lemma StartInWindow(c: Config, p: Policy)
    requires !OneAtATime(c) && p.startInWindow
    ensures exists s, l :: Reached(c, p, s, l) && 2 in l.failed && 2 in s.h.loaded
                           && 1 in l.ok && 1 in l.removed && 1 in s.h.dropped
  {
    hide Reached;
    WrongOneRemoved(c, p);
    var s4 := STOPPED_WITH_TWO.(queue := [2], window := multiset{1}, h := History([1, 2], [1], [0], [0], [1]));
    var failed := Log({0, 1, 2, 3}, {2}, {0}, {1});
    var s5 := s4.(stopped := false);
    Goes(c, p, s4, failed, Start, s5, failed);
    var s6 := s5.(queue := [], window := multiset{}, occupied := true, count := 1, h := History([1, 2], [1, 2], [0], [0, 2], [1]));
    var swapped := Log({0, 1, 2, 3}, {2}, {0, 1}, {1});
    Goes(c, p, s5, failed, Account(1), s6, swapped);
    assert 2 in swapped.failed && 2 in s6.h.loaded && 1 in swapped.ok && 1 in swapped.removed && 1 in s6.h.dropped;
  }

  /** Frame 1 was sent on the count of sender 2 before its own sender accounts for it. */
  const FIRST_SENT: State :=
    State(false, false, false, true, 1, [2], multiset{3}, multiset{1}, History([1, 2], [1], [0], [0, 1], []))

  lemma BothQueued(c: Config, p: Policy)
    requires !OneAtATime(c)
    ensures Reached(c, p, FIRST_SENT.(queue := [1, 2], window := multiset{1, 2}, h := History([1, 2], [], [0], [0], [])), SEEN)
  {
    hide Reached;
    ReachSenders(c, p);
    var s0 := Sending(multiset{1, 2, 3});
    var s1 := s0.(queue := [1], waiting := multiset{2, 3}, window := multiset{1}, h := History([1], [], [0], [0], []));
    Goes(c, p, s0, SEEN, Enqueue(1), s1, SEEN);
    var s2 := s1.(queue := [1, 2], waiting := multiset{3}, window := multiset{1, 2}, h := History([1, 2], [], [0], [0], []));
    Goes(c, p, s1, SEEN, Enqueue(2), s2, SEEN);
  }

  lemma FirstSent(c: Config, p: Policy)
    requires !OneAtATime(c)
    ensures Reached(c, p, FIRST_SENT, SEEN.(ok := {0, 2}))
  {
    hide Reached;
    BothQueued(c, p);
    var s2 := FIRST_SENT.(queue := [1, 2], window := multiset{1, 2}, h := History([1, 2], [], [0], [0], []));
    var s3 := s2.(window := multiset{1}, count := 2);
    Goes(c, p, s2, SEEN, Account(2), s3, SEEN.(ok := {0, 2}));
    Goes(c, p, s3, SEEN.(ok := {0, 2}), TxFree, FIRST_SENT, SEEN.(ok := {0, 2}));
  }

  /** Bus-off while a sender is in the window: its frame has been sent already when it is told of a failure. */
  lemma BusOffInWindow(c: Config, p: Policy)
    requires !OneAtATime(c) && p.busOffInWindow && p.accountInBusOff
    ensures exists s, l :: Reached(c, p, s, l) && 1 in l.failed && 1 in s.h.loaded
  {
    hide Reached;
    FirstSent(c, p);
    var ok2 := SEEN.(ok := {0, 2});
    var s5 := FIRST_SENT.(busOff := true);
    Goes(c, p, FIRST_SENT, ok2, BusOff, s5, ok2);
    var s6 := s5.(queue := [], window := multiset{}, h := History([1, 2], [1, 2], [0], [0, 1], [2]));
    var failed := Log({0, 1, 2, 3}, {1}, {0, 2}, {2});
    Goes(c, p, s5, ok2, Account(1), s6, failed);
    assert 1 in failed.failed && 1 in s6.h.loaded;
  }

  /** Frame 1 is queued and accounted for, the bus is off, and the sender of 2 is about to queue its frame. */
  const BEHIND_ONE: State :=
    State(false, false, true, true, 2, [1], multiset{2, 3}, multiset{}, History([1], [], [0], [0], []))

  lemma BusOffBehindOne(c: Config, p: Policy)
    requires !OneAtATime(c)
    ensures Reached(c, p, BEHIND_ONE, SEEN.(ok := {0, 1}))
  {
    hide Reached;
    ReachSenders(c, p);
    var s0 := Sending(multiset{1, 2, 3});
    var s1 := s0.(queue := [1], waiting := multiset{2, 3}, window := multiset{1}, h := History([1], [], [0], [0], []));
    Goes(c, p, s0, SEEN, Enqueue(1), s1, SEEN);
    var s2 := s1.(window := multiset{}, count := 2);
    Goes(c, p, s1, SEEN, Account(1), s2, SEEN.(ok := {0, 1}));
    Goes(c, p, s2, SEEN.(ok := {0, 1}), BusOff, BEHIND_ONE, SEEN.(ok := {0, 1}));
  }

  /** The sender of 2 accounts for its frame while the bus is off: it removes frame 1, whose sender was told that
      all went well, and leaves its own in the queue. */
  lemma AccountInBusOff(c: Config, p: Policy)
    requires !OneAtATime(c) && p.accountInBusOff
    ensures var s := BEHIND_ONE.(queue := [2], waiting := multiset{3}, h := History([1, 2], [1], [0], [0], [1]));
            var l := Log({0, 1, 2, 3}, {2}, {0, 1}, {1});
            Reached(c, p, s, l)
  {
    hide Reached;
    BusOffBehindOne(c, p);
    var ok1 := SEEN.(ok := {0, 1});
    var s4 := BEHIND_ONE.(queue := [1, 2], waiting := multiset{3}, window := multiset{2}, h := History([1, 2], [], [0], [0], []));
    Goes(c, p, BEHIND_ONE, ok1, Enqueue(2), s4, ok1);
    var s5 := s4.(queue := [2], window := multiset{}, h := History([1, 2], [1], [0], [0], [1]));
    Goes(c, p, s4, ok1, Account(2), s5, Log({0, 1, 2, 3}, {2}, {0, 1}, {1}));
  }

  /** A transmit interrupt while the bus is off: the failed sender removed another's frame, and its own follows. */
  lemma TxInBusOff(c: Config, p: Policy)
    requires !OneAtATime(c) && p.txInBusOff && p.accountInBusOff
    ensures exists s, l :: Reached(c, p, s, l) && 2 in l.failed && 2 in s.h.loaded
  {
    hide Reached;
    AccountInBusOff(c, p);
    var s5 := BEHIND_ONE.(queue := [2], waiting := multiset{3}, h := History([1, 2], [1], [0], [0], [1]));
    var l := Log({0, 1, 2, 3}, {2}, {0, 1}, {1});
    var s6 := s5.(queue := [], count := 1, h := History([1, 2], [1, 2], [0], [0, 2], [1]));
    Goes(c, p, s5, l, TxFree, s6, l);
    assert 2 in l.failed && 2 in s6.h.loaded;
  }

  /** The queue was cleared while the sender of 1 was in the window; frame 2 is queued behind its back. */
  const CLEARED: State :=
    State(false, false, false, true, 1, [2], multiset{3}, multiset{1, 2}, History([1, 2], [1], [0], [0], [1]))

  lemma ReachCleared(c: Config, p: Policy)
    requires CanQueue(c) && p.resetInWindow
    ensures Reached(c, p, CLEARED, SEEN)
  {
    hide Reached;
    ReachSenders(c, p);
    var s0 := Sending(multiset{1, 2, 3});
    var s1 := s0.(queue := [1], waiting := multiset{2, 3}, window := multiset{1}, h := History([1], [], [0], [0], []));
    Goes(c, p, s0, SEEN, Enqueue(1), s1, SEEN);
    var s2 := s1.(queue := [], h := History([1], [1], [0], [0], [1]));
    Goes(c, p, s1, SEEN, ClearTransmitQueue, s2, SEEN);
    Goes(c, p, s2, SEEN, Enqueue(2), CLEARED, SEEN);
  }

  /** Frame 2 was sent on the count of sender 1 before its own sender accounts for it. */
  const SECOND_SENT: State := CLEARED.(window := multiset{2}, queue := [], h := History([1, 2], [1, 2], [0], [0, 2], [1]))

  lemma SecondSent(c: Config, p: Policy)
    requires CanQueue(c) && p.resetInWindow
    ensures Reached(c, p, SECOND_SENT, SEEN.(ok := {0, 1}))
  {
    hide Reached;
    ReachCleared(c, p);
    var ok1 := SEEN.(ok := {0, 1});
    var s4 := CLEARED.(window := multiset{2}, count := 2);
    Goes(c, p, CLEARED, SEEN, Account(1), s4, ok1);
    Goes(c, p, s4, ok1, TxFree, SECOND_SENT, ok1);
  }

  /** Cleared and then stopped while a sender is in the window: frame 2 has been sent, and after the stop its
      sender is told of a failure and removes frame 3. */
  lemma ResetInWindow(c: Config, p: Policy)
    requires CanQueue(c) && p.resetInWindow
    ensures exists s, l :: Reached(c, p, s, l) && 2 in l.failed && 2 in s.h.loaded
  {
    hide Reached;
    SecondSent(c, p);
    var ok1 := SEEN.(ok := {0, 1});
    var s6 := SECOND_SENT.(stopped := true, occupied := false, count := 0);
    Goes(c, p, SECOND_SENT, ok1, Stop, s6, ok1);
    var s7 := s6.(queue := [3], waiting := multiset{}, window := multiset{2, 3}, h := History([1, 2, 3], [1, 2], [0], [0, 2], [1]));
    Goes(c, p, s6, ok1, Enqueue(3), s7, ok1);
    var s8 := s7.(queue := [], window := multiset{3}, h := History([1, 2, 3], [1, 2, 3], [0], [0, 2], [1, 3]));
    var failed := Log({0, 1, 2, 3}, {2}, {0, 1}, {3});
    Goes(c, p, s7, ok1, Account(2), s8, failed);
    assert 2 in failed.failed && 2 in s8.h.loaded;
  }

  lemma FailuresAreTrueWhen(c: Config, p: Policy, s: State, l: Log, f: Frame)
    requires !CanQueue(c) || Quiet(p) || (OneAtATime(c) && !p.resetInWindow)
    requires Reached(c, p, s, l) && f in l.failed
    ensures f !in s.h.loaded
  {
    hide Legal;
    var run :| LegalRun(c, p, Init(), EMPTY, run) && End(c, p, Init(), EMPTY, run) == (s, l);
    if !CanQueue(c) {
      NobodyQueuesRun(c, p, Init(), EMPTY, run);
    } else if Quiet(p) {
      QuietRun(c, p, Init(), EMPTY, run, f);
    } else {
      ShortRun(c, p, Init(), EMPTY, run, f);
    }
  }

  /** A sender told of a failure never has its frame sent if and only if nobody can queue a frame, or the queue is
      never emptied while a sender is in the window and either it holds at most one frame, or the driver is not
      started while a sender is in the window and, if senders account for their frames while the bus is off, the
      bus does not go off while a sender is in the window and no transmit interrupt comes while it is off. */
  lemma FailuresAreTrueIff(c: Config, p: Policy)
    ensures FailuresAreTrue(c, p)
            <==> || !CanQueue(c)
                 || (&& !p.resetInWindow
                     && (|| OneAtATime(c)
                         || (&& !p.startInWindow
                             && (!p.accountInBusOff || (!p.busOffInWindow && !p.txInBusOff)))))
  {
    hide Reached;
    if !CanQueue(c) || Quiet(p) || (OneAtATime(c) && !p.resetInWindow) {
      forall s, l, f | Reached(c, p, s, l) && f in l.failed
        ensures f !in s.h.loaded
      {
        FailuresAreTrueWhen(c, p, s, l, f);
      }
    } else if p.resetInWindow {
      ResetInWindow(c, p);
    } else if p.startInWindow {
      StartInWindow(c, p);
    } else if p.busOffInWindow {
      BusOffInWindow(c, p);
    } else {
      TxInBusOff(c, p);
    }
  }

  // ---------------------------------------------------------------- the assertions

  /** No assertion fails in any run, with or without resets in a window. */
  ghost predicate AssertionsHold(c: Config, resetInWindow: bool) {
    forall run :: ValidRun(c, Init(), run) && (resetInWindow || CleanRun(c, Init(), run))
                  ==> AssertFailed !in Results(c, Init(), run)
  }

  lemma {:induction false} NobodyInWindow(c: Config, s: State, run: seq<Action>)
    requires !CanQueue(c) && Inv(c, s) && ValidRun(c, s, run)
    requires s.window == multiset{} && (c.listenOnly ==> s.waiting == multiset{})
    ensures CleanRun(c, s, run)
    decreases |run|
  {
    if run != [] {
      StepKeepsInv(c, s, run[0]);
      NobodyInWindow(c, Do(c, s, run[0]).0, run[1..]);
    }
  }

  /** Frame 0 is under transmission, the sender of 1 is in the window, and the queue is cleared: the next
      interrupt finds nothing. */
  lemma ClearedQueueFails(c: Config)
    requires CanQueue(c)
    ensures var s := State(false, false, false, true, 1, [1], multiset{}, multiset{1}, History([1], [], [0], [0], []));
            && ValidRun(c, s, [ClearTransmitQueue, Account(1), TxFree])
            && AssertFailed in Results(c, s, [ClearTransmitQueue, Account(1), TxFree])
  {
    var s4 := State(false, false, false, true, 1, [1], multiset{}, multiset{1}, History([1], [], [0], [0], []));
    var s5 := s4.(queue := [], h := History([1], [1], [0], [0], [1]));
    var s6 := s5.(window := multiset{}, count := 2);
    assert ValidRun(c, Do(c, s6, TxFree).0, [TxFree][1..]);
    RunsOn(c, s6, [TxFree], s6.(count := 1));
    assert [Account(1), TxFree][1..] == [TxFree];
    RunsOn(c, s5, [Account(1), TxFree], s6);
    assert [ClearTransmitQueue, Account(1), TxFree][1..] == [Account(1), TxFree];
    RunsOn(c, s4, [ClearTransmitQueue, Account(1), TxFree], s5);
  }

  /** And that state is reached from installation. */
  lemma ClearedInWindow(c: Config)
    requires CanQueue(c)
    ensures exists run :: ValidRun(c, Init(), run) && AssertFailed in Results(c, Init(), run)
  {
    var tail := [ClearTransmitQueue, Account(1), TxFree];
    ClearedQueueFails(c);
    var s3 := Sending(multiset{1});
    var s4 := State(false, false, false, true, 1, [1], multiset{}, multiset{1}, History([1], [], [0], [0], []));
    RunsOn(c, s3, [Enqueue(1)] + tail, s4);
    RunsOn(c, Sending(multiset{}), [Begin(1)] + ([Enqueue(1)] + tail), s3);
    var started := Init().(stopped := false);
    RunsOn(c, started, [Begin(0)] + ([Begin(1)] + ([Enqueue(1)] + tail)), Sending(multiset{}));
    RunsOn(c, Init(), [Start] + ([Begin(0)] + ([Begin(1)] + ([Enqueue(1)] + tail))), started);
  }

  lemma RunsOn(c: Config, s: State, run: seq<Action>, e: State)
    requires run != [] && Possible(c, s, run[0]) && Do(c, s, run[0]).0 == e && ValidRun(c, e, run[1..])
    ensures ValidRun(c, s, run)
    ensures Do(c, s, run[0]).1 == AssertFailed || AssertFailed in Results(c, e, run[1..])
            ==> AssertFailed in Results(c, s, run)
  {
  }

  /** The driver's and the interrupt handler's assertions hold over all runs if and only if the queue is never
      emptied while a sender is in the window, or nobody can get into it. */
  lemma AssertionsHoldIff(c: Config, resetInWindow: bool)
    ensures AssertionsHold(c, resetInWindow) <==> !resetInWindow || !CanQueue(c)
  {
    if resetInWindow && CanQueue(c) {
      ClearedInWindow(c);
    } else {
      forall run | ValidRun(c, Init(), run) && (resetInWindow || CleanRun(c, Init(), run))
        ensures AssertFailed !in Results(c, Init(), run)
      {
        if resetInWindow {
          NobodyInWindow(c, Init(), run);
        }
        RunKeepsInv(c, Init(), run);
      }
    }
  }
}
