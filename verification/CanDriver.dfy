/**
 The transmit side of the CAN driver: control flags, message counter, transmit queue and transmit
 interrupt, with any number of senders.

 A sender puts its frame into the queue outside the critical section and accounts for it later.
 In between it is "in the window".  Each critical section, each queue operation and each interrupt
 event is one step.
 */
module CanDriver {

  type Frame = nat

  datatype Config = Config(listenOnly: bool, hasQueue: bool, capacity: nat)

  datatype State = State(
    stopped: bool, recovering: bool, busOff: bool, occupied: bool,   // CTRL_FLAG_*
    count: int,                     // tx_msg_count
    queue: seq<Frame>,              // tx_queue
    waiting: multiset<Frame>,       // senders that go on to xQueueSend, with their frames
    window: multiset<Frame>,        // senders between xQueueSend and their accounting
    h: History)

  /** What has happened to the frames so far. */
  datatype History = History(
    enqueued: seq<Frame>,           // put into the queue
    taken: seq<Frame>,              // taken out of it for whatever reason
    direct: seq<Frame>,             // sent past the queue
    loaded: seq<Frame>,             // put into the transmit buffer
    dropped: seq<Frame>)            // removed without being sent

  function SentDirectly(h: History, f: Frame): History {
    h.(direct := h.direct + [f], loaded := h.loaded + [f])
  }

  function Enqueued(h: History, f: Frame): History {
    h.(enqueued := h.enqueued + [f])
  }

  function SentFromQueue(h: History, f: Frame): History {
    h.(taken := h.taken + [f], loaded := h.loaded + [f])
  }

  function DroppedFromQueue(h: History, fs: seq<Frame>): History {
    h.(taken := h.taken + fs, dropped := h.dropped + fs)
  }

  datatype Action =
    | Begin(f: Frame)               // can_transmit up to the end of its first critical section
    | Enqueue(f: Frame)             // xQueueSend succeeds
    | GiveUp(f: Frame)              // xQueueSend times out
    | Account(f: Frame)             // second critical section of the sender of f
    | TxFree                        // interrupt: transmit buffer free
    | Start
    | Stop
    | BusOff                        // interrupt: bus-off
    | InitiateRecovery
    | RecoveryComplete              // interrupt: bus recovery complete
    | ClearTransmitQueue

  datatype Result = Ok | Pending | Fail | Timeout | InvalidState | NotSupported | AssertFailed

  function Init(): State {
    State(true, false, false, false, 0, [], multiset{}, multiset{}, History([], [], [], [], []))
  }

  /** What the environment does: senders act on their own frames, a transmit interrupt comes only
      while the buffer is occupied, the recovery interrupt only during recovery. */
  predicate Possible(c: Config, s: State, a: Action) {
    match a
    case Enqueue(f) => f in s.waiting && |s.queue| < c.capacity
    case GiveUp(f) => f in s.waiting
    case Account(f) => f in s.window
    case TxFree => s.occupied
    case RecoveryComplete => s.recovering
    case _ => true
  }

  /** xQueueReceive without waiting, and the frame goes to the transmit buffer. */
  function LoadOldest(s: State): State
    requires s.queue != []
  {
    s.(queue := s.queue[1..], occupied := true, h := SentFromQueue(s.h, s.queue[0]))
  }

  /** xQueueReset, with the counter and flags its callers set along with it. */
  function ResetQueue(s: State, count: int): State {
    s.(queue := [], count := count, h := DroppedFromQueue(s.h, s.queue))
  }

  function Do(c: Config, s: State, a: Action): (State, Result)
    requires Possible(c, s, a)
  {
    match a
    case Begin(f) =>
      if c.listenOnly then (s, NotSupported)
      else if s.stopped || s.busOff then (s, InvalidState)
      else if s.count == 0 && !s.occupied then
        (s.(occupied := true, count := s.count + 1, h := SentDirectly(s.h, f)), Ok)
      else if !c.hasQueue then (s, Fail)
      else (s.(waiting := s.waiting + multiset{f}), Pending)
    case Enqueue(f) =>
      (s.(waiting := s.waiting - multiset{f}, window := s.window + multiset{f},
          queue := s.queue + [f], h := Enqueued(s.h, f)), Pending)
    case GiveUp(f) => (s.(waiting := s.waiting - multiset{f}), Timeout)
    case Account(f) =>
      var s1 := s.(window := s.window - multiset{f});
      if s.stopped || s.busOff then
        if s.queue == [] then (s1, AssertFailed)
        else (s1.(queue := s.queue[1..], h := DroppedFromQueue(s.h, [s.queue[0]])), InvalidState)
      else if s.count == 0 && !s.occupied then
        if s.queue == [] then (s1, AssertFailed)
        else (LoadOldest(s1).(count := s.count + 1), Ok)
      else (s1.(count := s.count + 1), Ok)
    case TxFree =>
      var s1 := s.(count := s.count - 1);
      if s1.count < 0 then (s1, AssertFailed)
      else if s1.count > 0 && c.hasQueue then
        if s.queue == [] then (s1, AssertFailed)
        else (LoadOldest(s1), Ok)
      else (s1.(occupied := false), Ok)
    case Start =>
      if !s.stopped then (s, InvalidState) else (s.(stopped := false), Ok)
    case Stop =>
      if s.stopped || s.busOff then (s, InvalidState)
      else (ResetQueue(s, 0).(occupied := false, stopped := true), Ok)
    case BusOff => (s.(busOff := true), Ok)
    case InitiateRecovery =>
      if !s.busOff || s.recovering then (s, InvalidState)
      else (ResetQueue(s, 0).(occupied := false, recovering := true), Ok)
    case RecoveryComplete =>
      (s.(recovering := false, busOff := false, occupied := false, stopped := true), Ok)
    case ClearTransmitQueue =>
      if !c.hasQueue then (s, NotSupported)
      else (ResetQueue(s, if s.occupied then 1 else 0), Ok)
  }

  // ---------------------------------------------------------------- invariant

  function One(b: bool): nat {
    if b then 1 else 0
  }

  ghost predicate Inv(c: Config, s: State) {
    && s.count + |s.window| == |s.queue| + One(s.occupied)
    && |s.window| <= |s.queue|
    && (s.count > 0 <==> s.occupied)
    && (s.recovering ==> s.busOff && !s.occupied)
    && (!c.hasQueue ==> s.queue == [] && s.waiting == multiset{})
    && (c.hasQueue ==> |s.queue| <= c.capacity)
  }

  /** A call that empties the transmit queue. */
  predicate Resets(c: Config, s: State, a: Action) {
    match a
    case Stop => !(s.stopped || s.busOff)
    case InitiateRecovery => s.busOff && !s.recovering
    case ClearTransmitQueue => c.hasQueue
    case _ => false
  }

  predicate Clean(c: Config, s: State, a: Action) {
    Resets(c, s, a) ==> s.window == multiset{}
  }

  lemma BeginningKeepsInv(c: Config, s: State, a: Action)
    requires a.Begin? || a.GiveUp?
    requires Inv(c, s) && Possible(c, s, a) && Clean(c, s, a)
    ensures Inv(c, Do(c, s, a).0)
    ensures Do(c, s, a).1 != AssertFailed
  {
    hide SentDirectly, Enqueued, SentFromQueue, DroppedFromQueue;
  }

  lemma EnqueuingKeepsInv(c: Config, s: State, a: Action)
    requires a.Enqueue?
    requires Inv(c, s) && Possible(c, s, a) && Clean(c, s, a)
    ensures Inv(c, Do(c, s, a).0)
    ensures Do(c, s, a).1 != AssertFailed
  {
    hide SentDirectly, Enqueued, SentFromQueue, DroppedFromQueue;
    assert |s.window + multiset{a.f}| == |s.window| + 1;
  }

  lemma AccountingKeepsInv(c: Config, s: State, a: Action)
    requires a.Account?
    requires Inv(c, s) && Possible(c, s, a) && Clean(c, s, a)
    ensures Inv(c, Do(c, s, a).0)
    ensures Do(c, s, a).1 != AssertFailed
  {
    hide SentDirectly, Enqueued, SentFromQueue, DroppedFromQueue;
    assert |s.window - multiset{a.f}| == |s.window| - 1;
  }

  lemma InterruptKeepsInv(c: Config, s: State, a: Action)
    requires a.TxFree? || a.BusOff? || a.RecoveryComplete? || a.Start?
    requires Inv(c, s) && Possible(c, s, a) && Clean(c, s, a)
    ensures Inv(c, Do(c, s, a).0)
    ensures Do(c, s, a).1 != AssertFailed
  {
    hide SentDirectly, Enqueued, SentFromQueue, DroppedFromQueue;
  }

  lemma ResettingKeepsInv(c: Config, s: State, a: Action)
    requires a.Stop? || a.InitiateRecovery? || a.ClearTransmitQueue?
    requires Inv(c, s) && Possible(c, s, a) && Clean(c, s, a)
    ensures Inv(c, Do(c, s, a).0)
    ensures Do(c, s, a).1 != AssertFailed
  {
    hide SentDirectly, Enqueued, SentFromQueue, DroppedFromQueue;
  }

  lemma StepKeepsInv(c: Config, s: State, a: Action)
    requires Inv(c, s) && Possible(c, s, a) && Clean(c, s, a)
    ensures Inv(c, Do(c, s, a).0)
    ensures Do(c, s, a).1 != AssertFailed
  {
    hide Inv, Do;
    match a
    case Begin(_) => BeginningKeepsInv(c, s, a);
    case Enqueue(_) => EnqueuingKeepsInv(c, s, a);
    case GiveUp(_) => BeginningKeepsInv(c, s, a);
    case Account(_) => AccountingKeepsInv(c, s, a);
    case Stop => ResettingKeepsInv(c, s, a);
    case InitiateRecovery => ResettingKeepsInv(c, s, a);
    case ClearTransmitQueue => ResettingKeepsInv(c, s, a);
    case _ => InterruptKeepsInv(c, s, a);
  }

  /** Exactly the resets with nobody in the window keep the accounting. */
  lemma ResetKeepsInvIff(c: Config, s: State, a: Action)
    requires Inv(c, s) && Possible(c, s, a) && Resets(c, s, a)
    ensures Inv(c, Do(c, s, a).0) <==> s.window == multiset{}
  {
    if s.window == multiset{} {
      StepKeepsInv(c, s, a);
    }
  }

  /** And on a running driver a reset inside a sender's window ends in a failing assertion: that of the next
      transmit interrupt when a frame is under transmission, and otherwise that of the sender itself. */
  lemma ResetInWindowFails(c: Config, s: State, f: Frame)
    requires Inv(c, s) && c.hasQueue && !s.stopped && !s.busOff && f in s.window
    ensures var s1 := Do(c, s, ClearTransmitQueue).0;
            Possible(c, s1, Account(f)) &&
            if s.occupied then
              var s2 := Do(c, s1, Account(f)).0;
              Possible(c, s2, TxFree) && Do(c, s2, TxFree).1 == AssertFailed
            else
              Do(c, s1, Account(f)).1 == AssertFailed
  {
  }

  // ---------------------------------------------------------------- runs

  predicate ValidRun(c: Config, s: State, run: seq<Action>)
    decreases |run|
  {
    run == [] || (Possible(c, s, run[0]) && ValidRun(c, Do(c, s, run[0]).0, run[1..]))
  }

  predicate CleanRun(c: Config, s: State, run: seq<Action>)
    requires ValidRun(c, s, run)
    decreases |run|
  {
    run == [] || (Clean(c, s, run[0]) && CleanRun(c, Do(c, s, run[0]).0, run[1..]))
  }

  function Exec(c: Config, s: State, run: seq<Action>): State
    requires ValidRun(c, s, run)
    decreases |run|
  {
    if run == [] then s else Exec(c, Do(c, s, run[0]).0, run[1..])
  }

  function Results(c: Config, s: State, run: seq<Action>): seq<Result>
    requires ValidRun(c, s, run)
    decreases |run|
  {
    if run == [] then [] else [Do(c, s, run[0]).1] + Results(c, Do(c, s, run[0]).0, run[1..])
  }

  lemma {:induction false} RunKeepsInv(c: Config, s: State, run: seq<Action>)
    requires Inv(c, s) && ValidRun(c, s, run) && CleanRun(c, s, run)
    ensures Inv(c, Exec(c, s, run)) && AssertFailed !in Results(c, s, run)
    decreases |run|
  {
    if run != [] {
      StepKeepsInv(c, s, run[0]);
      RunKeepsInv(c, Do(c, s, run[0]).0, run[1..]);
    }
  }

  /** In every run without a reset inside a sender's window: the counter and the senders in the
      window together account for the queue and the buffer, the counter is never negative, and the
      driver and the interrupt handler always find the frame they assert is there. */
  lemma Accounting(c: Config, run: seq<Action>)
    requires ValidRun(c, Init(), run) && CleanRun(c, Init(), run)
    ensures var e := Exec(c, Init(), run);
            && e.count >= 0
            && e.count + |e.window| == |e.queue| + One(e.occupied)
            && (e.occupied <==> e.count > 0)
    ensures AssertFailed !in Results(c, Init(), run)
  {
    RunKeepsInv(c, Init(), run);
  }

  /** No frame is stranded: when nothing is being transmitted, every queued frame belongs to a
      sender that will still account for it. */
  lemma NothingStranded(c: Config, run: seq<Action>)
    requires ValidRun(c, Init(), run) && CleanRun(c, Init(), run)
    requires !Exec(c, Init(), run).occupied
    ensures var e := Exec(c, Init(), run); |e.queue| == |e.window| && e.count == 0
  {
    RunKeepsInv(c, Init(), run);
  }

  // ---------------------------------------------------------------- frames

  function Times(fs: seq<Frame>, f: Frame): nat {
    multiset(fs)[f]
  }

  ghost predicate FramesInv(s: State) {
    && s.h.enqueued == s.h.taken + s.queue
    && forall f :: Balanced(s.h, f)
  }

  /** Of frame `f`, as many were sent or dropped as were sent directly or left the queue. */
  predicate Balanced(h: History, f: Frame) {
    Times(h.loaded, f) + Times(h.dropped, f) == Times(h.direct, f) + Times(h.taken, f)
  }

  lemma Appended(a: seq<Frame>, b: seq<Frame>, f: Frame)
    ensures Times(a + b, f) == Times(a, f) + Times(b, f)
  {
  }

  lemma HistoryKeepsBalance(h: History, f: Frame, g: Frame, fs: seq<Frame>)
    requires Balanced(h, f)
    ensures Balanced(SentDirectly(h, g), f) && Balanced(Enqueued(h, g), f)
    ensures Balanced(SentFromQueue(h, g), f) && Balanced(DroppedFromQueue(h, fs), f)
  {
    Appended(h.loaded, [g], f);
    Appended(h.direct, [g], f);
    Appended(h.taken, [g], f);
    Appended(h.taken, fs, f);
    Appended(h.dropped, fs, f);
  }

  /** The ways a step can change the history. */
  lemma HistoryAfter(c: Config, s: State, a: Action)
    requires Possible(c, s, a)
    ensures var h := Do(c, s, a).0.h;
            || h == s.h
            || (a.Begin? && h == SentDirectly(s.h, a.f))
            || (a.Enqueue? && h == Enqueued(s.h, a.f))
            || (s.queue != [] && h == SentFromQueue(s.h, s.queue[0]))
            || (s.queue != [] && h == DroppedFromQueue(s.h, [s.queue[0]]))
            || h == DroppedFromQueue(s.h, s.queue)
  {
  }

  lemma StepKeepsBalance(c: Config, s: State, a: Action, f: Frame)
    requires Balanced(s.h, f) && Possible(c, s, a)
    ensures Balanced(Do(c, s, a).0.h, f)
  {
    HistoryAfter(c, s, a);
    var g := if a.Begin? || a.Enqueue? then a.f else if s.queue != [] then s.queue[0] else f;
    HistoryKeepsBalance(s.h, f, g, s.queue);
    HistoryKeepsBalance(s.h, f, g, [g]);
  }

  lemma StepKeepsOrder(c: Config, s: State, a: Action)
    requires s.h.enqueued == s.h.taken + s.queue && Possible(c, s, a)
    ensures Do(c, s, a).0.h.enqueued == Do(c, s, a).0.h.taken + Do(c, s, a).0.queue
  {
    if s.queue != [] {
      assert s.h.taken + s.queue == (s.h.taken + [s.queue[0]]) + s.queue[1..];
    }
    assert s.h.taken + s.queue + [] == s.h.taken + s.queue;
    assert a.Enqueue? ==> s.h.taken + (s.queue + [a.f]) == s.h.taken + s.queue + [a.f];
  }

  lemma StepKeepsFrames(c: Config, s: State, a: Action)
    requires FramesInv(s) && Possible(c, s, a)
    ensures FramesInv(Do(c, s, a).0)
  {
    StepKeepsOrder(c, s, a);
    forall f
      ensures Balanced(Do(c, s, a).0.h, f)
    {
      StepKeepsBalance(c, s, a, f);
    }
  }

  lemma {:induction false} RunKeepsFrames(c: Config, s: State, run: seq<Action>)
    requires FramesInv(s) && ValidRun(c, s, run)
    ensures FramesInv(Exec(c, s, run))
    decreases |run|
  {
    if run != [] {
      StepKeepsFrames(c, s, run[0]);
      RunKeepsFrames(c, Do(c, s, run[0]).0, run[1..]);
    }
  }

  /** Over every run, resets included: the queue is first in, first out, and each frame that entered
      was loaded into the transmit buffer once, dropped once, or is still queued. */
  lemma FrameConservation(c: Config, run: seq<Action>, f: Frame)
    requires ValidRun(c, Init(), run)
    ensures var e := Exec(c, Init(), run);
            && e.h.enqueued == e.h.taken + e.queue
            && Times(e.h.direct, f) + Times(e.h.enqueued, f) == Times(e.h.loaded, f) + Times(e.h.dropped, f) + Times(e.queue, f)
  {
    RunKeepsFrames(c, Init(), run);
    var e := Exec(c, Init(), run);
    assert Balanced(e.h, f);
    Appended(e.h.taken, e.queue, f);
  }

  // ---------------------------------------------------------------- what calls are told

  /** The mode of the driver as its callers know it, from the results of their calls and the bus events so far. */
  datatype Mode = Mode(stopped: bool, busOff: bool, recovering: bool)

  const INSTALLED: Mode := Mode(true, false, false)

  function ModeAfter(m: Mode, a: Action, r: Result): Mode {
    match a
    case Start => if r == Ok then m.(stopped := false) else m
    case Stop => if r == Ok then m.(stopped := true) else m
    case BusOff => m.(busOff := true)
    case InitiateRecovery => if r == Ok then m.(recovering := true) else m
    case RecoveryComplete => INSTALLED
    case _ => m
  }

  function ModeFrom(m: Mode, run: seq<Action>, results: seq<Result>): Mode
    requires |run| == |results|
    decreases |run|
  {
    if run == [] then m else ModeFrom(ModeAfter(m, run[0], results[0]), run[1..], results[1..])
  }

  /** What a call must be told in mode `m`. */
  predicate Told(c: Config, m: Mode, a: Action, r: Result) {
    match a
    case Begin(_) =>
      && (r == NotSupported <==> c.listenOnly)
      && (r == InvalidState <==> !c.listenOnly && (m.stopped || m.busOff))
      && r in {NotSupported, InvalidState, Ok, Pending, Fail}
      && (r == Pending ==> c.hasQueue) && (r == Fail ==> !c.hasQueue)
    case Enqueue(_) => r == Pending
    case GiveUp(_) => r == Timeout
    case Account(_) => r == AssertFailed || r == if m.stopped || m.busOff then InvalidState else Ok
    case TxFree => r == AssertFailed || r == Ok
    case Start => r == if m.stopped then Ok else InvalidState
    case Stop => r == if m.stopped || m.busOff then InvalidState else Ok
    case BusOff => r == Ok
    case InitiateRecovery => r == if m.busOff && !m.recovering then Ok else InvalidState
    case RecoveryComplete => r == Ok
    case ClearTransmitQueue => r == if c.hasQueue then Ok else NotSupported
  }

  /** And what it does: a refused call changes nothing; while the driver is stopped or the bus is off no call of a
      sender sends a frame or begins to wait for the queue; a sent frame occupies the buffer; a call that empties
      the queue drops what was in it. */
  ghost predicate Does(m: Mode, s: State, a: Action, r: Result, e: State) {
    && (!a.Account? && r in {InvalidState, NotSupported, Fail} ==> e == s)
    && ((m.stopped || m.busOff) && !a.TxFree? ==> e.h.loaded == s.h.loaded && e.waiting <= s.waiting)
    && (a.Begin? && r == Ok ==> e.h == SentDirectly(s.h, a.f) && e.occupied && e.waiting == s.waiting && e.queue == s.queue)
    && (a.Begin? && r == Pending ==> e == s.(waiting := s.waiting + multiset{a.f}))
    && (a.Account? && r == InvalidState ==> s.queue != [] && e.queue == s.queue[1..] && e.h == DroppedFromQueue(s.h, [s.queue[0]]))
    && (r == Ok && a in {Stop, InitiateRecovery, ClearTransmitQueue} ==>
          e.queue == [] && e.h == DroppedFromQueue(s.h, s.queue))
    && (r == Ok && a in {Stop, InitiateRecovery, RecoveryComplete} ==> !e.occupied)
  }

  lemma StepIsTold(c: Config, m: Mode, s: State, a: Action)
    requires Possible(c, s, a) && m == Mode(s.stopped, s.busOff, s.recovering)
    ensures var (e, r) := Do(c, s, a);
            && Told(c, m, a, r) && Does(m, s, a, r, e)
            && ModeAfter(m, a, r) == Mode(e.stopped, e.busOff, e.recovering)
  {
  }

  /** The state before call `k` of a run. */
  function StateAt(c: Config, s: State, run: seq<Action>, k: nat): State
    requires ValidRun(c, s, run) && k <= |run|
    decreases k
  {
    if k == 0 then s else StateAt(c, Do(c, s, run[0]).0, run[1..], k - 1)
  }

  lemma {:induction false} RunIsToldFrom(c: Config, m: Mode, s: State, run: seq<Action>, k: nat)
    requires ValidRun(c, s, run) && k < |run| && m == Mode(s.stopped, s.busOff, s.recovering)
    ensures |Results(c, s, run)| == |run|
    ensures var rs := Results(c, s, run);
            var now := ModeFrom(m, run[..k], rs[..k]);
            && Told(c, now, run[k], rs[k])
            && Does(now, StateAt(c, s, run, k), run[k], rs[k], StateAt(c, s, run, k + 1))
    decreases k
  {
    hide Do, Told, Does, Possible, ModeAfter;
    ResultsLength(c, s, run);
    var rs := Results(c, s, run);
    StepIsTold(c, m, s, run[0]);
    if k > 0 {
      RunIsToldFrom(c, ModeAfter(m, run[0], rs[0]), Do(c, s, run[0]).0, run[1..], k - 1);
      assert rs[1..] == Results(c, Do(c, s, run[0]).0, run[1..]);
      assert run[..k][1..] == run[1..][..k - 1] && rs[..k][1..] == rs[1..][..k - 1];
    }
  }

  lemma {:induction false} ResultsLength(c: Config, s: State, run: seq<Action>)
    requires ValidRun(c, s, run)
    ensures |Results(c, s, run)| == |run|
    decreases |run|
  {
    if run != [] {
      ResultsLength(c, Do(c, s, run[0]).0, run[1..]);
    }
  }

  /** Over every run from installation, resets and failed assertions included: each call is told what the results and
      events before it say it must be, and does what that result says. */
  lemma RunIsTold(c: Config, run: seq<Action>, k: nat)
    requires ValidRun(c, Init(), run) && k < |run|
    ensures |Results(c, Init(), run)| == |run|
    ensures var rs := Results(c, Init(), run);
            var m := ModeFrom(INSTALLED, run[..k], rs[..k]);
            && Told(c, m, run[k], rs[k])
            && Does(m, StateAt(c, Init(), run, k), run[k], rs[k], StateAt(c, Init(), run, k + 1))
  {
    RunIsToldFrom(c, INSTALLED, Init(), run, k);
  }

  /** In a clean run a call that begins on a running driver sends its frame at once exactly when no frame is under
      transmission, and otherwise waits for the queue, or fails without one. */
  lemma BeginsWhenIdle(c: Config, run: seq<Action>, f: Frame)
    requires ValidRun(c, Init(), run) && CleanRun(c, Init(), run) && !c.listenOnly
    requires !Exec(c, Init(), run).stopped && !Exec(c, Init(), run).busOff
    ensures var s := Exec(c, Init(), run);
            Do(c, s, Begin(f)).1 == if !s.occupied then Ok else if c.hasQueue then Pending else Fail
  {
    RunKeepsInv(c, Init(), run);
  }

  // ---------------------------------------------------------------- the driver object

  /** The driver object: every method is one critical section, queue operation or interrupt event,
      and does what `Do` says of the corresponding action. */
  class Driver {
    const c: Config
    var stopped: bool
    var recovering: bool
    var busOff: bool
    var occupied: bool
    var txMsgCount: int
    var txQueue: seq<Frame>
    ghost var waiting: multiset<Frame>
    ghost var window: multiset<Frame>
    ghost var h: History

    ghost function St(): State
      reads this
    {
      State(stopped, recovering, busOff, occupied, txMsgCount, txQueue, waiting, window, h)
    }

    /** The accounting of the messages. */
    ghost predicate Valid()
      reads this
    {
      Inv(c, St())
    }

    // can_driver_install: the driver is created stopped.
    constructor (c: Config)
      ensures this.c == c && St() == Init() && Valid()
    {
      this.c := c;
      stopped, recovering, busOff, occupied := true, false, false, false;
      txMsgCount, txQueue := 0, [];
      waiting, window, h := multiset{}, multiset{}, History([], [], [], [], []);
    }

    lemma KeepsValid(a: Action)
      requires Possible(c, St(), a)
      ensures Valid() && Clean(c, St(), a) ==> Inv(c, Do(c, St(), a).0) && Do(c, St(), a).1 != AssertFailed
    {
      if Valid() && Clean(c, St(), a) {
        StepKeepsInv(c, St(), a);
      }
    }

    method TransmitBegin(f: Frame) returns (ret: Result)
      modifies this
      ensures (St(), ret) == Do(c, old(St()), Begin(f))
      ensures old(Valid()) && old(Clean(c, St(), Begin(f))) ==> Valid() && ret != AssertFailed
    {
      KeepsValid(Begin(f));
      if c.listenOnly {
        return NotSupported;
      }
      if stopped || busOff {
        return InvalidState;
      }
      ret := Fail;
      if txMsgCount == 0 && !occupied {
        // bypass the queue
        h := SentDirectly(h, f);
        txMsgCount := txMsgCount + 1;
        occupied := true;
        ret := Ok;
      }
      if ret != Ok {
        if !c.hasQueue {
          ret := Fail;
        } else {
          waiting := waiting + multiset{f};
          ret := Pending;
        }
      }
    }

    method QueueSend(f: Frame, inTime: bool) returns (ret: Result)
      requires Possible(c, St(), if inTime then Enqueue(f) else GiveUp(f))
      modifies this
      ensures (St(), ret) == Do(c, old(St()), if inTime then Enqueue(f) else GiveUp(f))
      ensures old(Valid()) && old(Clean(c, St(), if inTime then Enqueue(f) else GiveUp(f))) ==> Valid() && ret != AssertFailed
    {
      KeepsValid(if inTime then Enqueue(f) else GiveUp(f));
      waiting := waiting - multiset{f};
      if inTime {
        txQueue := txQueue + [f];
        window, h := window + multiset{f}, Enqueued(h, f);
        ret := Pending;
      } else {
        ret := Timeout;
      }
    }

    method TransmitAccount(f: Frame) returns (ret: Result)
      requires Possible(c, St(), Account(f))
      modifies this
      ensures (St(), ret) == Do(c, old(St()), Account(f))
      ensures old(Valid()) && old(Clean(c, St(), Account(f))) ==> Valid() && ret != AssertFailed
    {
      KeepsValid(Account(f));
      window := window - multiset{f};
      if stopped || busOff {
        // the queue was reset: take a frame out again
        if txQueue == [] {
          return AssertFailed;
        }
        h := DroppedFromQueue(h, [txQueue[0]]);
        txQueue := txQueue[1..];
        ret := InvalidState;
      } else if txMsgCount == 0 && !occupied {
        // the transmit buffer was freed during the copy
        if txQueue == [] {
          return AssertFailed;
        }
        h := SentFromQueue(h, txQueue[0]);
        txQueue := txQueue[1..];
        txMsgCount := txMsgCount + 1;
        occupied := true;
        ret := Ok;
      } else {
        txMsgCount := txMsgCount + 1;
        ret := Ok;
      }
    }

    method HandleTxBufferFrame() returns (ret: Result)
      requires Possible(c, St(), TxFree)
      modifies this
      ensures (St(), ret) == Do(c, old(St()), TxFree)
      ensures old(Valid()) && old(Clean(c, St(), TxFree)) ==> Valid() && ret != AssertFailed
    {
      KeepsValid(TxFree);
      txMsgCount := txMsgCount - 1;
      if txMsgCount < 0 {
        return AssertFailed;
      }
      if txMsgCount > 0 && c.hasQueue {
        if txQueue == [] {
          return AssertFailed;
        }
        h := SentFromQueue(h, txQueue[0]);
        txQueue := txQueue[1..];
      } else {
        occupied := false;
      }
      ret := Ok;
    }

    method HandleBusOff()
      modifies this
      ensures (St(), Ok) == Do(c, old(St()), BusOff)
      ensures old(Valid()) && old(Clean(c, St(), BusOff)) ==> Valid()
    {
      KeepsValid(BusOff);
      busOff := true;
    }

    method HandleRecoveryComplete()
      requires Possible(c, St(), RecoveryComplete)
      modifies this
      ensures (St(), Ok) == Do(c, old(St()), RecoveryComplete)
      ensures old(Valid()) && old(Clean(c, St(), RecoveryComplete)) ==> Valid()
    {
      KeepsValid(RecoveryComplete);
      recovering, busOff, occupied := false, false, false;
      stopped := true;
    }

    method CanStart() returns (ret: Result)
      modifies this
      ensures (St(), ret) == Do(c, old(St()), Start)
      ensures old(Valid()) && old(Clean(c, St(), Start)) ==> Valid() && ret != AssertFailed
    {
      KeepsValid(Start);
      if !stopped {
        return InvalidState;
      }
      stopped := false;
      ret := Ok;
    }

    method CanStop() returns (ret: Result)
      modifies this
      ensures (St(), ret) == Do(c, old(St()), Stop)
      ensures old(Valid()) && old(Clean(c, St(), Stop)) ==> Valid() && ret != AssertFailed
    {
      KeepsValid(Stop);
      if stopped || busOff {
        return InvalidState;
      }
      occupied := false;
      stopped := true;
      h := DroppedFromQueue(h, txQueue);
      txQueue := [];
      txMsgCount := 0;
      ret := Ok;
    }

    method CanInitiateRecovery() returns (ret: Result)
      modifies this
      ensures (St(), ret) == Do(c, old(St()), InitiateRecovery)
      ensures old(Valid()) && old(Clean(c, St(), InitiateRecovery)) ==> Valid() && ret != AssertFailed
    {
      KeepsValid(InitiateRecovery);
      if !busOff || recovering {
        return InvalidState;
      }
      h := DroppedFromQueue(h, txQueue);
      txQueue := [];
      txMsgCount := 0;
      occupied := false;
      recovering := true;
      ret := Ok;
    }

    method CanClearTransmitQueue() returns (ret: Result)
      modifies this
      ensures (St(), ret) == Do(c, old(St()), ClearTransmitQueue)
      ensures old(Valid()) && old(Clean(c, St(), ClearTransmitQueue)) ==> Valid() && ret != AssertFailed
    {
      KeepsValid(ClearTransmitQueue);
      if !c.hasQueue {
        return NotSupported;
      }
      // a frame being transmitted is taken off by the interrupt handler
      txMsgCount := if occupied then 1 else 0;
      h := DroppedFromQueue(h, txQueue);
      txQueue := [];
      ret := Ok;
    }
  }

  // One step of the driver object.
  method Perform(d: Driver, a: Action) returns (ret: Result)
    requires Possible(d.c, d.St(), a)
    modifies d
    ensures (d.St(), ret) == Do(d.c, old(d.St()), a)
    ensures old(d.Valid()) && Clean(d.c, old(d.St()), a) ==> d.Valid() && ret != AssertFailed
  {
    ret := Ok;
    match a
    case Begin(f) => ret := d.TransmitBegin(f);
    case Enqueue(f) => ret := d.QueueSend(f, true);
    case GiveUp(f) => ret := d.QueueSend(f, false);
    case Account(f) => ret := d.TransmitAccount(f);
    case TxFree => ret := d.HandleTxBufferFrame();
    case Start => ret := d.CanStart();
    case Stop => ret := d.CanStop();
    case BusOff => d.HandleBusOff();
    case InitiateRecovery => ret := d.CanInitiateRecovery();
    case RecoveryComplete => d.HandleRecoveryComplete();
    case ClearTransmitQueue => ret := d.CanClearTransmitQueue();
  }

  /** A driver object from installation on, through any run: its results are those of the transitions, and
      without a reset in a window no assertion fails. */
  method Drive(c: Config, run: seq<Action>) returns (results: seq<Result>)
    requires ValidRun(c, Init(), run)
    ensures results == Results(c, Init(), run) && |results| == |run|
    ensures forall k :: 0 <= k < |run| ==> Told(c, ModeFrom(INSTALLED, run[..k], results[..k]), run[k], results[k])
    ensures CleanRun(c, Init(), run) ==> AssertFailed !in results
  {
    hide Told, ModeFrom;
    var d := new Driver(c);
    results := [];
    for k := 0 to |run|
      invariant fresh(d) && d.c == c
      invariant ValidRun(c, d.St(), run[k..])
      invariant results + Results(c, d.St(), run[k..]) == Results(c, Init(), run)
    {
      ghost var was := d.St();
      assert run[k..][1..] == run[k + 1..];
      var r := Perform(d, run[k]);
      assert Results(c, was, run[k..]) == [r] + Results(c, d.St(), run[k + 1..]);
      results := results + [r];
    }
    assert results + [] == results;
    ResultsLength(c, Init(), run);
    forall k | 0 <= k < |run|
      ensures Told(c, ModeFrom(INSTALLED, run[..k], results[..k]), run[k], results[k])
    {
      RunIsTold(c, run, k);
    }
    if CleanRun(c, Init(), run) {
      RunKeepsInv(c, Init(), run);
    }
  }
}
