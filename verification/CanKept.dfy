/**
 When a frame whose sender was told that all went well can be taken out of the queue by another sender, which was
 told of a failure.
 */
module CanKept {
  import opened CanDriver
  import opened CanVerdicts

  /** No frame whose sender was told that all went well is ever removed by a failing sender. */
  ghost predicate OkIsKept(c: Config, p: Policy) {
    forall s, l, f :: Reached(c, p, s, l) && f in l.ok ==> f !in l.removed
  }

  // ---------------------------------------------------------------- one frame

  /** Each frame is queued and told about once. */
  predicate Told(s: State, l: Log, f: Frame) {
    && s.waiting[f] + s.window[f] <= 1 && Times(s.queue, f) <= 1
    && (f in s.waiting || f in s.window || f in s.queue || f in l.ok || f in l.removed ==> f in l.begun)
    && (f in s.waiting ==> f !in s.queue && f !in l.ok && f !in l.removed)
    && (f in l.ok ==> f !in s.window)
    && (f in l.removed ==> f !in l.ok && f !in s.queue)
  }

  /** While senders fail, no frame of a satisfied sender is at the front of the queue when one of them comes, and
      the sender of a removed frame is about to fail too. */
  predicate Spared(p: Policy, s: State, l: Log, f: Frame) {
    && ((s.stopped || s.recovering) && f in s.queue ==> f !in l.ok)
    && (p.accountInBusOff && s.busOff && f in s.queue && f in l.ok ==> s.window == multiset{})
    && (f in l.removed && f in s.window ==> s.stopped || (p.accountInBusOff && s.busOff))
    && (s.recovering ==> s.busOff)
    && (p.accountInBusOff ==> |s.queue| <= 1)
  }

  /** Failing senders remove their own frames. */
  predicate RemovesOwn(c: Config, s: State, l: Log, f: Frame) {
    && |s.queue| <= 1
    && (f in s.window ==> f in s.queue)
    && (f in s.queue && s.window != multiset{} ==> f in s.window)
    && (f in l.removed ==> f in l.failed)
    && (f in l.failed ==> f in l.begun && f !in s.waiting && f !in s.window && f !in l.ok)
  }

  ghost predicate SparedAt(c: Config, p: Policy, s: State, l: Log, f: Frame) {
    Told(s, l, f) && Spared(p, s, l, f)
  }

  ghost predicate OwnAt(c: Config, p: Policy, s: State, l: Log, f: Frame) {
    Inv(c, s) && Told(s, l, f) && RemovesOwn(c, s, l, f)
  }

  predicate Sparing(c: Config, p: Policy) {
    CanQueue(c) && !p.startInWindow && (!p.accountInBusOff || (OneAtATime(c) && !p.busOffInWindow))
  }

  predicate Owning(c: Config, p: Policy) {
    CanQueue(c) && OneAtATime(c) && !p.resetInWindow
  }

  // ---------------------------------------------------------------- nothing is started in a window

  lemma SparedBegin(c: Config, p: Policy, s: State, l: Log, a: Action, f: Frame)
    requires a.Begin?
    requires Sparing(c, p) && SparedAt(c, p, s, l, f) && Legal(c, p, s, l, a)
    ensures SparedAt(c, p, Do(c, s, a).0, LogAfter(c, s, l, a), f)
  {
  }

  lemma SparedGiveUp(c: Config, p: Policy, s: State, l: Log, a: Action, f: Frame)
    requires a.GiveUp?
    requires Sparing(c, p) && SparedAt(c, p, s, l, f) && Legal(c, p, s, l, a)
    ensures SparedAt(c, p, Do(c, s, a).0, LogAfter(c, s, l, a), f)
  {
  }

  lemma SparedEnqueue(c: Config, p: Policy, s: State, l: Log, a: Action, f: Frame)
    requires a.Enqueue?
    requires Sparing(c, p) && SparedAt(c, p, s, l, f) && Legal(c, p, s, l, a)
    ensures SparedAt(c, p, Do(c, s, a).0, LogAfter(c, s, l, a), f)
  {
    TimesOfMore(s.queue, a.f, f);
  }

  lemma SparedAccount(c: Config, p: Policy, s: State, l: Log, a: Action, f: Frame)
    requires a.Account?
    requires Sparing(c, p) && SparedAt(c, p, s, l, f) && Legal(c, p, s, l, a)
    ensures SparedAt(c, p, Do(c, s, a).0, LogAfter(c, s, l, a), f)
  {
    if s.queue != [] {
      TimesOfRest(s.queue, f);
    }
  }

  lemma SparedTxFree(c: Config, p: Policy, s: State, l: Log, a: Action, f: Frame)
    requires a.TxFree?
    requires Sparing(c, p) && SparedAt(c, p, s, l, f) && Legal(c, p, s, l, a)
    ensures SparedAt(c, p, Do(c, s, a).0, LogAfter(c, s, l, a), f)
  {
    if s.queue != [] {
      TimesOfRest(s.queue, f);
    }
  }

  lemma SparedReset(c: Config, p: Policy, s: State, l: Log, a: Action, f: Frame)
    requires a.Stop? || a.InitiateRecovery? || a.ClearTransmitQueue?
    requires Sparing(c, p) && SparedAt(c, p, s, l, f) && Legal(c, p, s, l, a)
    ensures SparedAt(c, p, Do(c, s, a).0, LogAfter(c, s, l, a), f)
  {
  }

  lemma SparedFlags(c: Config, p: Policy, s: State, l: Log, a: Action, f: Frame)
    requires a.Start? || a.BusOff? || a.RecoveryComplete?
    requires Sparing(c, p) && SparedAt(c, p, s, l, f) && Legal(c, p, s, l, a)
    ensures SparedAt(c, p, Do(c, s, a).0, LogAfter(c, s, l, a), f)
  {
  }

  lemma SparedStep(c: Config, p: Policy, s: State, l: Log, a: Action, f: Frame)
    requires Sparing(c, p) && SparedAt(c, p, s, l, f) && Legal(c, p, s, l, a)
    ensures SparedAt(c, p, Do(c, s, a).0, LogAfter(c, s, l, a), f)
  {
    hide SparedAt, Do, LogAfter, Allowed, Clean;
    match a
    case Begin(_) => SparedBegin(c, p, s, l, a, f);
    case GiveUp(_) => SparedGiveUp(c, p, s, l, a, f);
    case Enqueue(_) => SparedEnqueue(c, p, s, l, a, f);
    case Account(_) => SparedAccount(c, p, s, l, a, f);
    case TxFree => SparedTxFree(c, p, s, l, a, f);
    case Stop => SparedReset(c, p, s, l, a, f);
    case InitiateRecovery => SparedReset(c, p, s, l, a, f);
    case ClearTransmitQueue => SparedReset(c, p, s, l, a, f);
    case _ => SparedFlags(c, p, s, l, a, f);
  }

  lemma {:induction false} SparedRun(c: Config, p: Policy, s: State, l: Log, run: seq<Action>, f: Frame)
    requires Sparing(c, p) && SparedAt(c, p, s, l, f) && LegalRun(c, p, s, l, run)
    ensures var (e, m) := End(c, p, s, l, run); SparedAt(c, p, e, m, f)
    decreases |run|
  {
    hide SparedAt, Do, LogAfter, Allowed, Clean;
    if run != [] {
      SparedStep(c, p, s, l, run[0], f);
      SparedRun(c, p, Do(c, s, run[0]).0, LogAfter(c, s, l, run[0]), run[1..], f);
    }
  }

  // ---------------------------------------------------------------- a short queue

  lemma OwnBegin(c: Config, p: Policy, s: State, l: Log, a: Action, f: Frame)
    requires a.Begin?
    requires Owning(c, p) && OwnAt(c, p, s, l, f) && Legal(c, p, s, l, a)
    ensures OwnAt(c, p, Do(c, s, a).0, LogAfter(c, s, l, a), f)
  {
    StepKeepsInv(c, s, a);
  }

  lemma OwnGiveUp(c: Config, p: Policy, s: State, l: Log, a: Action, f: Frame)
    requires a.GiveUp?
    requires Owning(c, p) && OwnAt(c, p, s, l, f) && Legal(c, p, s, l, a)
    ensures OwnAt(c, p, Do(c, s, a).0, LogAfter(c, s, l, a), f)
  {
    StepKeepsInv(c, s, a);
  }

  lemma OwnEnqueue(c: Config, p: Policy, s: State, l: Log, a: Action, f: Frame)
    requires a.Enqueue?
    requires Owning(c, p) && OwnAt(c, p, s, l, f) && Legal(c, p, s, l, a)
    ensures OwnAt(c, p, Do(c, s, a).0, LogAfter(c, s, l, a), f)
  {
    StepKeepsInv(c, s, a);
    TimesOfMore(s.queue, a.f, f);
  }

  lemma OwnAccount(c: Config, p: Policy, s: State, l: Log, a: Action, f: Frame)
    requires a.Account?
    requires Owning(c, p) && OwnAt(c, p, s, l, f) && Legal(c, p, s, l, a)
    ensures OwnAt(c, p, Do(c, s, a).0, LogAfter(c, s, l, a), f)
  {
    StepKeepsInv(c, s, a);
    if s.queue != [] {
      TimesOfRest(s.queue, f);
    }
  }

  lemma OwnTxFree(c: Config, p: Policy, s: State, l: Log, a: Action, f: Frame)
    requires a.TxFree?
    requires Owning(c, p) && OwnAt(c, p, s, l, f) && Legal(c, p, s, l, a)
    ensures OwnAt(c, p, Do(c, s, a).0, LogAfter(c, s, l, a), f)
  {
    StepKeepsInv(c, s, a);
    if s.queue != [] {
      TimesOfRest(s.queue, f);
    }
  }

  lemma OwnReset(c: Config, p: Policy, s: State, l: Log, a: Action, f: Frame)
    requires a.Stop? || a.InitiateRecovery? || a.ClearTransmitQueue?
    requires Owning(c, p) && OwnAt(c, p, s, l, f) && Legal(c, p, s, l, a)
    ensures OwnAt(c, p, Do(c, s, a).0, LogAfter(c, s, l, a), f)
  {
    StepKeepsInv(c, s, a);
  }

  lemma OwnFlags(c: Config, p: Policy, s: State, l: Log, a: Action, f: Frame)
    requires a.Start? || a.BusOff? || a.RecoveryComplete?
    requires Owning(c, p) && OwnAt(c, p, s, l, f) && Legal(c, p, s, l, a)
    ensures OwnAt(c, p, Do(c, s, a).0, LogAfter(c, s, l, a), f)
  {
    StepKeepsInv(c, s, a);
  }

  lemma OwnStep(c: Config, p: Policy, s: State, l: Log, a: Action, f: Frame)
    requires Owning(c, p) && OwnAt(c, p, s, l, f) && Legal(c, p, s, l, a)
    ensures OwnAt(c, p, Do(c, s, a).0, LogAfter(c, s, l, a), f)
  {
    hide OwnAt, Do, LogAfter, Allowed, Clean;
    match a
    case Begin(_) => OwnBegin(c, p, s, l, a, f);
    case GiveUp(_) => OwnGiveUp(c, p, s, l, a, f);
    case Enqueue(_) => OwnEnqueue(c, p, s, l, a, f);
    case Account(_) => OwnAccount(c, p, s, l, a, f);
    case TxFree => OwnTxFree(c, p, s, l, a, f);
    case Stop => OwnReset(c, p, s, l, a, f);
    case InitiateRecovery => OwnReset(c, p, s, l, a, f);
    case ClearTransmitQueue => OwnReset(c, p, s, l, a, f);
    case _ => OwnFlags(c, p, s, l, a, f);
  }

  lemma {:induction false} OwnRun(c: Config, p: Policy, s: State, l: Log, run: seq<Action>, f: Frame)
    requires Owning(c, p) && OwnAt(c, p, s, l, f) && LegalRun(c, p, s, l, run)
    ensures var (e, m) := End(c, p, s, l, run); OwnAt(c, p, e, m, f)
    decreases |run|
  {
    hide OwnAt, Do, LogAfter, Allowed, Clean;
    if run != [] {
      OwnStep(c, p, s, l, run[0], f);
      OwnRun(c, p, Do(c, s, run[0]).0, LogAfter(c, s, l, run[0]), run[1..], f);
    }
  }

  // ---------------------------------------------------------------- what goes wrong otherwise

  /** The bus is off: the sender of 2 removes frame 1 from the queue, whose sender was told that all went well. */
  lemma AnotherRemoved(c: Config, p: Policy)
    requires !OneAtATime(c) && p.accountInBusOff
    ensures exists s, l :: Reached(c, p, s, l) && 1 in l.ok && 1 in l.removed
  {
    hide Reached;
    AccountInBusOff(c, p);
    assert 1 in Log({0, 1, 2, 3}, {2}, {0, 1}, {1}).ok && 1 in Log({0, 1, 2, 3}, {2}, {0, 1}, {1}).removed;
  }

  /** Frame 2 was removed by the sender of 1, and its own sender is in the window. */
  const TWO_REMOVED: State :=
    State(true, false, false, false, 0, [], multiset{3}, multiset{2}, History([1, 2], [1, 2], [0], [0], [1, 2]))

  lemma StoppedOverOne(c: Config, p: Policy)
    requires CanQueue(c) && p.resetInWindow
    ensures Reached(c, p, TWO_REMOVED.(queue := [2], window := multiset{1, 2}, h := History([1, 2], [1], [0], [0], [1])), SEEN)
  {
    hide Reached;
    ReachSenders(c, p);
    var s0 := Sending(multiset{1, 2, 3});
    var s1 := s0.(queue := [1], waiting := multiset{2, 3}, window := multiset{1}, h := History([1], [], [0], [0], []));
    Goes(c, p, s0, SEEN, Enqueue(1), s1, SEEN);
    var s2 := s1.(stopped := true, occupied := false, count := 0, queue := [], h := History([1], [1], [0], [0], [1]));
    Goes(c, p, s1, SEEN, Stop, s2, SEEN);
    var s3 := TWO_REMOVED.(queue := [2], window := multiset{1, 2}, h := History([1, 2], [1], [0], [0], [1]));
    Goes(c, p, s2, SEEN, Enqueue(2), s3, SEEN);
  }

  /** Stopped and started again while senders are in the window: the sender of 2 is told that all went well when
      it sends frame 3 in place of its own, which the sender of 1 removed. */
  lemma SentAnother(c: Config, p: Policy)
    requires CanQueue(c) && p.resetInWindow && p.startInWindow
    ensures exists s, l :: Reached(c, p, s, l) && 2 in l.ok && 2 in l.removed
  {
    hide Reached;
    StoppedOverOne(c, p);
    var s3 := TWO_REMOVED.(queue := [2], window := multiset{1, 2}, h := History([1, 2], [1], [0], [0], [1]));
    var failed := Log({0, 1, 2, 3}, {1}, {0}, {2});
    Goes(c, p, s3, SEEN, Account(1), TWO_REMOVED, failed);
    var s5 := TWO_REMOVED.(stopped := false);
    Goes(c, p, TWO_REMOVED, failed, Start, s5, failed);
    var s6 := s5.(queue := [3], waiting := multiset{}, window := multiset{2, 3}, h := History([1, 2, 3], [1, 2], [0], [0], [1, 2]));
    Goes(c, p, s5, failed, Enqueue(3), s6, failed);
    var s7 := s6.(queue := [], window := multiset{3}, occupied := true, count := 1,
                  h := History([1, 2, 3], [1, 2, 3], [0], [0, 3], [1, 2]));
    var both := failed.(ok := {0, 2});
    Goes(c, p, s6, failed, Account(2), s7, both);
    assert 2 in both.ok && 2 in both.removed;
  }

  /** Cleared, and the bus goes off, while the sender of 1 is in the window: it removes frame 2. */
  lemma RemovedInBusOff(c: Config, p: Policy)
    requires CanQueue(c) && p.resetInWindow && p.busOffInWindow && p.accountInBusOff
    ensures exists s, l :: Reached(c, p, s, l) && 2 in l.ok && 2 in l.removed
  {
    hide Reached;
    ReachCleared(c, p);
    var s4 := CLEARED.(window := multiset{1}, count := 2);
    var ok2 := SEEN.(ok := {0, 2});
    Goes(c, p, CLEARED, SEEN, Account(2), s4, ok2);
    var s5 := s4.(busOff := true);
    Goes(c, p, s4, ok2, BusOff, s5, ok2);
    var s6 := s5.(window := multiset{}, queue := [], h := History([1, 2], [1, 2], [0], [0], [1, 2]));
    var both := Log({0, 1, 2, 3}, {1}, {0, 2}, {2});
    Goes(c, p, s5, ok2, Account(1), s6, both);
    assert 2 in both.ok && 2 in both.removed;
  }

  lemma OkIsKeptWhen(c: Config, p: Policy, s: State, l: Log, f: Frame)
    requires !CanQueue(c) || Sparing(c, p) || Owning(c, p)
    requires Reached(c, p, s, l) && f in l.ok
    ensures f !in l.removed
  {
    hide Legal;
    var run :| LegalRun(c, p, Init(), EMPTY, run) && End(c, p, Init(), EMPTY, run) == (s, l);
    if !CanQueue(c) {
      NobodyQueuesRun(c, p, Init(), EMPTY, run);
    } else if Sparing(c, p) {
      SparedRun(c, p, Init(), EMPTY, run, f);
    } else {
      OwnRun(c, p, Init(), EMPTY, run, f);
    }
  }

  /** A frame whose sender was told that all went well is never removed by a failing sender if and only if nobody
      can queue a frame, or the driver is not started while a sender is in the window and no sender accounts for
      its frame while the bus is off, or the queue holds at most one frame and either it is never emptied while a
      sender is in the window, or in that time the driver is not started and the bus does not go off. */
  lemma OkIsKeptIff(c: Config, p: Policy)
    ensures OkIsKept(c, p)
            <==> || !CanQueue(c)
                 || (!p.startInWindow && !p.accountInBusOff)
                 || (OneAtATime(c) && (!p.resetInWindow || (!p.startInWindow && !p.busOffInWindow)))
  {
    hide Reached;
    if !CanQueue(c) || Sparing(c, p) || Owning(c, p) {
      forall s, l, f | Reached(c, p, s, l) && f in l.ok
        ensures f !in l.removed
      {
        OkIsKeptWhen(c, p, s, l, f);
      }
    } else if !OneAtATime(c) && p.startInWindow {
      StartInWindow(c, p);
    } else if !OneAtATime(c) {
      AnotherRemoved(c, p);
    } else if p.startInWindow {
      SentAnother(c, p);
    } else {
      RemovedInBusOff(c, p);
    }
  }
}
