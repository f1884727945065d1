/**
 The tracing protocol above the memory: user blocks on their way from the application to the
 host, through the pending chunks, the input block and the exposed block.

 A state says which whole user blocks are where; `TraceTransport.Transport` keeps this state in
 its rings, trace memory blocks and control register.
 */
module TraceProtocol {
  import opened Basics

  /** One user block as it lies in memory: header and data. */
  type Block = seq<byte>

  const BLOCK_SIZE: nat := 0x4000    // ESP_APPTRACE_TRAX_BLOCK_SIZE
  const HEADER: nat := 4             // sizeof(esp_tracedata_hdr_t)

  function Bytes(bs: seq<Block>): seq<byte> {
    if bs == [] then [] else bs[0] + Bytes(bs[1..])
  }

  function Size(bs: seq<Block>): nat {
    |Bytes(bs)|
  }

  function Flat(chunks: seq<seq<Block>>): seq<Block> {
    if chunks == [] then [] else chunks[0] + Flat(chunks[1..])
  }

  lemma {:induction false} BytesConcat(a: seq<Block>, b: seq<Block>)
    ensures Bytes(a + b) == Bytes(a) + Bytes(b)
  {
    if a == [] {
      assert a + b == b;
    } else {
      BytesConcat(a[1..], b);
      assert (a + b)[1..] == a[1..] + b;
      assert a[0] + (Bytes(a[1..]) + Bytes(b)) == (a[0] + Bytes(a[1..])) + Bytes(b);
    }
  }

  lemma BytesOfOne(b: Block)
    ensures Bytes([b]) == b
  {
    assert [b][1..] == [];
  }

  lemma {:induction false} FlatAppend(chunks: seq<seq<Block>>, c: seq<Block>)
    ensures Flat(chunks + [c]) == Flat(chunks) + c
  {
    if chunks == [] {
      assert Flat([]) == [];
      assert (chunks + [c])[1..] == [];
    } else {
      FlatAppend(chunks[1..], c);
      assert (chunks + [c])[1..] == chunks[1..] + [c];
      assert chunks[0] + (Flat(chunks[1..]) + c) == (chunks[0] + Flat(chunks[1..])) + c;
    }
  }

  // ---------------------------------------------------------------- states and steps

  datatype State = State(
    delivered: seq<Block>,        // read and acknowledged by the host
    exposed: seq<Block>,          // in the block the host may read, not yet acknowledged
    filled: seq<Block>,           // in the input block
    queued: seq<seq<Block>>,      // complete chunks of the pending ring, oldest first
    current: seq<Block>)          // the chunk still being accumulated

  datatype Step =
    | Ack                         // the host clears the block length
    | Switch                      // the input block is exposed and one chunk is pumped
    | ToInput(b: Block)
    | ToPending(b: Block)

  function Pending(s: State): seq<Block> {
    Flat(s.queued) + s.current
  }

  /** Every user block there is, in the order the host gets them. */
  function All(s: State): seq<Block> {
    s.delivered + s.exposed + s.filled + Pending(s)
  }

  const INIT: State := State([], [], [], [], [])

  /** The steps of the driver: it stores into the pending ring only what does not fit the input block, and
      once there is pending data only after trying to switch, so with a block exposed. */
  predicate Enabled(s: State, step: Step) {
    match step
    case Ack => true
    case Switch => s.exposed == []
    case ToInput(b) => HEADER < |b| && Pending(s) == [] && Size(s.filled) + |b| <= BLOCK_SIZE
    case ToPending(b) =>
      && HEADER < |b| <= BLOCK_SIZE && s.filled != []
      && if Pending(s) == [] then Size(s.filled) + |b| > BLOCK_SIZE else s.exposed != []
  }

  function Next(s: State, step: Step): State
    requires Enabled(s, step)
  {
    match step
    case Ack => s.(delivered := s.delivered + s.exposed, exposed := [])
    case Switch =>
      if s.queued == [] then s.(exposed := s.filled, filled := s.current, current := [])
      else s.(exposed := s.filled, filled := s.queued[0], queued := s.queued[1..])
    case ToInput(b) => s.(filled := s.filled + [b])
    case ToPending(b) =>
      if Size(s.current) + |b| <= BLOCK_SIZE then s.(current := s.current + [b])
      else s.(queued := s.queued + [s.current], current := [b])
  }

  // ---------------------------------------------------------------- invariant

  predicate ChunkOk(c: seq<Block>) {
    && c != [] && Size(c) <= BLOCK_SIZE
    && HEADER < |c[0]|
  }

  /** A chunk is closed only when the next user block does not fit. */
  predicate Tight(c: seq<Block>, next: seq<Block>) {
    c != [] && next != [] && Size(c) + |next[0]| > BLOCK_SIZE
  }

  ghost predicate Inv(s: State) {
    && Size(s.exposed) <= BLOCK_SIZE && Size(s.filled) <= BLOCK_SIZE
    && (s.exposed != [] ==> Size(s.exposed) > 0)
    && (s.filled != [] ==> Size(s.filled) > 0)
    && (forall i :: 0 <= i < |s.queued| ==> ChunkOk(s.queued[i]))
    && (s.current != [] ==> ChunkOk(s.current))
    && (forall i :: 0 <= i < |s.queued| - 1 ==> Tight(s.queued[i], s.queued[i + 1]))
    && (s.queued != [] ==> Tight(s.queued[|s.queued| - 1], s.current))
    && (s.current != [] ==> s.filled != [])       // pending data implies a nonempty input block
  }

  lemma {:induction false} SizeOfFirst(c: seq<Block>)
    requires c != []
    ensures Size(c) >= |c[0]|
  {
  }

  lemma AppendSize(bs: seq<Block>, b: Block)
    ensures Size(bs + [b]) == Size(bs) + |b|
  {
    BytesConcat(bs, [b]);
    BytesOfOne(b);
  }

  lemma SwitchKeepsInv(s: State)
    requires Inv(s) && Enabled(s, Switch)
    ensures Inv(Next(s, Switch))
  {
    if s.current != [] { SizeOfFirst(s.current); }
    if s.queued != [] { SizeOfFirst(s.queued[0]); }
  }

  lemma ToInputKeepsInv(s: State, b: Block)
    requires Inv(s) && Enabled(s, ToInput(b))
    ensures Inv(Next(s, ToInput(b)))
  {
    AppendSize(s.filled, b);
  }

  lemma ToPendingKeepsInv(s: State, b: Block)
    requires Inv(s) && Enabled(s, ToPending(b))
    ensures Inv(Next(s, ToPending(b)))
  {
    hide Flat, Pending;
    if Size(s.current) + |b| <= BLOCK_SIZE {
      AppendSize(s.current, b);
      assert ChunkOk(s.current + [b]);
    } else {
      BytesOfOne(b);
      assert Size([]) == 0;
    }
  }

  lemma StepKeepsInv(s: State, step: Step)
    requires Inv(s) && Enabled(s, step)
    ensures Inv(Next(s, step))
  {
    match step
    case Ack =>
    case Switch => SwitchKeepsInv(s);
    case ToInput(b) => ToInputKeepsInv(s, b);
    case ToPending(b) => ToPendingKeepsInv(s, b);
  }

  /** What a step adds at the end of the stream; nothing is ever lost, doubled or reordered. */
  function Added(step: Step): seq<Block> {
    if step.ToInput? || step.ToPending? then [step.b] else []
  }

  /** The chunk a switch pumps is the beginning of the pending data. */
  lemma SwitchPumpsFront(s: State)
    requires Inv(s) && Enabled(s, Switch)
    ensures Next(s, Switch).filled + Pending(Next(s, Switch)) == Pending(s)
  {
    if s.queued != [] {
      Assoc(s.queued[0], Flat(s.queued[1..]), s.current);
    }
  }

  lemma SwitchBytes(s: State)
    requires Inv(s) && Enabled(s, Switch)
    ensures var n := Next(s, Switch);
            && Size(n.filled) <= |Bytes(Pending(s))|
            && Bytes(Pending(s))[..Size(n.filled)] == Bytes(n.filled)
            && Bytes(Pending(s))[Size(n.filled)..] == Bytes(Pending(n))
  {
    SwitchPumpsFront(s);
    BytesConcat(Next(s, Switch).filled, Pending(Next(s, Switch)));
  }

  lemma SwitchKeepsAll(s: State)
    requires Inv(s) && Enabled(s, Switch)
    ensures All(Next(s, Switch)) == All(s)
  {
    var s' := Next(s, Switch);
    SwitchPumpsFront(s);
    assert s.delivered + s.exposed == s.delivered;
    Assoc(s.delivered + s'.exposed, s'.filled, Pending(s'));
  }

  lemma AckMoves(s: State)
    ensures var n := Next(s, Ack);
            && n.filled == s.filled && n.queued == s.queued && n.current == s.current && n.exposed == []
            && Pending(n) == Pending(s) && Size(n.exposed) == 0 && Bytes(n.exposed) == []
            && Bytes(n.delivered) == Bytes(s.delivered) + Bytes(s.exposed)
  {
    BytesConcat(s.delivered, s.exposed);
  }

  lemma ToPendingAppends(s: State, b: Block)
    requires Enabled(s, ToPending(b))
    ensures Pending(Next(s, ToPending(b))) == Pending(s) + [b]
  {
    if Size(s.current) + |b| <= BLOCK_SIZE {
      Assoc(Flat(s.queued), s.current, [b]);
    } else {
      FlatAppend(s.queued, s.current);
    }
  }

  lemma ToInputBytes(s: State, b: Block)
    requires Enabled(s, ToInput(b))
    ensures Bytes(Next(s, ToInput(b)).filled) == Bytes(s.filled) + b
  {
    BytesConcat(s.filled, [b]);
    BytesOfOne(b);
  }

  lemma PendingBytesIff(s: State)
    requires Inv(s)
    ensures Bytes(Pending(s)) == [] <==> Pending(s) == []
  {
    BytesConcat(Flat(s.queued), s.current);
    if s.current != [] {
      SizeOfFirst(s.current);
    }
  }

  /** Which step the target may take with a user block. */
  lemma WhereToStore(s: State, b: Block)
    requires Inv(s) && HEADER < |b| <= BLOCK_SIZE
    requires Bytes(Pending(s)) != [] ==> s.exposed != []
    ensures Bytes(Pending(s)) != [] || Size(s.filled) + |b| > BLOCK_SIZE ==> Enabled(s, ToPending(b))
    ensures Bytes(Pending(s)) == [] && Size(s.filled) + |b| <= BLOCK_SIZE ==> Enabled(s, ToInput(b))
  {
    PendingBytesIff(s);
    if s.filled == [] {
      EmptyInputMeansEmptyRing(s);
    }
  }

  lemma ToPendingBytes(s: State, b: Block)
    requires Enabled(s, ToPending(b))
    ensures Bytes(Pending(Next(s, ToPending(b)))) == Bytes(Pending(s)) + b
    ensures Size(Next(s, ToPending(b)).current) == if Size(s.current) + |b| <= BLOCK_SIZE then Size(s.current) + |b| else |b|
  {
    ToPendingAppends(s, b);
    BytesConcat(Pending(s), [b]);
    BytesOfOne(b);
    AppendSize(s.current, b);
  }

  lemma StepKeepsOrder(s: State, step: Step)
    requires Inv(s) && Enabled(s, step)
    ensures All(Next(s, step)) == All(s) + Added(step)
  {
    hide Inv, Flat, Bytes, Size;
    match step
    case Ack => assert All(s) + [] == All(s); assert (s.delivered + s.exposed) + [] == s.delivered + s.exposed;
    case Switch => SwitchKeepsAll(s); assert All(s) + [] == All(s);
    case ToInput(b) =>
      Assoc(s.delivered + s.exposed, s.filled, [b]);
      assert All(s) + [] == All(s);
      assert All(Next(s, step)) + [] == All(Next(s, step));
    case ToPending(b) =>
      ToPendingAppends(s, b);
      Assoc(s.delivered + s.exposed + s.filled, Pending(s), [b]);
  }

  // ---------------------------------------------------------------- runs

  predicate ValidRun(s: State, run: seq<Step>)
    decreases |run|
  {
    run == [] || (Enabled(s, run[0]) && ValidRun(Next(s, run[0]), run[1..]))
  }

  function Exec(s: State, run: seq<Step>): State
    requires ValidRun(s, run)
    decreases |run|
  {
    if run == [] then s else Exec(Next(s, run[0]), run[1..])
  }

  /** A run can be extended by any step its last state allows. */
  lemma {:induction false} Extended(s: State, run: seq<Step>, step: Step)
    requires ValidRun(s, run) && Enabled(Exec(s, run), step)
    ensures ValidRun(s, run + [step]) && Exec(s, run + [step]) == Next(Exec(s, run), step)
    ensures Allocated(run + [step]) == Allocated(run) + Added(step)
    decreases |run|
  {
    if run == [] {
      assert [] + [step] == [step] && [step][1..] == [];
      assert ValidRun(Next(s, step), []) && Exec(Next(s, step), []) == Next(s, step);
      assert Added(step) + [] == Added(step);
    } else {
      assert (run + [step])[1..] == run[1..] + [step];
      Extended(Next(s, run[0]), run[1..], step);
    }
  }

  function Allocated(run: seq<Step>): seq<Block> {
    if run == [] then [] else Added(run[0]) + Allocated(run[1..])
  }

  lemma {:induction false} RunKeeps(s: State, run: seq<Step>)
    requires Inv(s) && ValidRun(s, run)
    ensures Inv(Exec(s, run)) && All(Exec(s, run)) == All(s) + Allocated(run)
    decreases |run|
  {
    if run != [] {
      StepKeepsInv(s, run[0]);
      StepKeepsOrder(s, run[0]);
      RunKeeps(Next(s, run[0]), run[1..]);
      Assoc(All(s), Added(run[0]), Allocated(run[1..]));
    }
  }

  /** `log` is a run from the initial state to `s`. */
  predicate Reached(log: seq<Step>, s: State) {
    ValidRun(INIT, log) && Exec(INIT, log) == s
  }

  lemma NothingYet()
    ensures Reached([], INIT)
    ensures Bytes(Pending(INIT)) == [] && Sizes(INIT.queued) == [] && Bytes([]) == []
  {
  }

  lemma ReachedInv(log: seq<Step>, s: State)
    requires Reached(log, s)
    ensures Inv(s)
  {
    RunFromInit(log);
  }

  lemma ReachedNext(log: seq<Step>, s: State, step: Step)
    requires Reached(log, s) && Enabled(s, step)
    ensures Reached(log + [step], Next(s, step))
    ensures Allocated(log + [step]) == Allocated(log) + Added(step)
  {
    Extended(INIT, log, step);
  }

  lemma RunFromInit(run: seq<Step>)
    requires ValidRun(INIT, run)
    ensures Inv(Exec(INIT, run))
  {
    RunKeeps(INIT, run);
  }

  /** Conservation over every run: what the host has read, then the exposed block, the input block
      and the pending ring are exactly the allocated user blocks in allocation order. */
  lemma Conservation(run: seq<Step>)
    requires ValidRun(INIT, run)
    ensures var e := Exec(INIT, run);
            && e.delivered + e.exposed + e.filled + Pending(e) == Allocated(run)
            && e.delivered <= Allocated(run)
  {
    RunKeeps(INIT, run);
    var e := Exec(INIT, run);
    assert All(INIT) == [];
    Assoc(e.delivered + e.exposed, e.filled, Pending(e));
    Assoc(e.delivered, e.exposed, e.filled + Pending(e));
  }

  /** The first pending user block does not fit behind what fills the input block. */
  predicate InputFull(s: State) {
    Pending(s) != [] ==> Size(s.filled) + |Pending(s)[0]| > BLOCK_SIZE
  }

  lemma StepKeepsInputFull(s: State, step: Step)
    requires Inv(s) && InputFull(s) && Enabled(s, step)
    ensures InputFull(Next(s, step))
  {
    hide Bytes;
    match step
    case Switch =>
      if |s.queued| > 1 {
        assert Tight(s.queued[0], s.queued[1]);
      }
    case ToPending(b) => ToPendingAppends(s, b);
    case _ =>
  }

  lemma {:induction false} RunKeepsInputFull(s: State, run: seq<Step>)
    requires Inv(s) && ValidRun(s, run) && InputFull(s)
    ensures InputFull(Exec(s, run))
    decreases |run|
  {
    if run != [] {
      StepKeepsInv(s, run[0]);
      StepKeepsInputFull(s, run[0]);
      RunKeepsInputFull(Next(s, run[0]), run[1..]);
    }
  }

  /** Over every run there is pending data only while the input block and the first pending user block exceed a
      trace memory block. */
  lemma PendingNeedsABlock(run: seq<Step>)
    requires ValidRun(INIT, run)
    ensures InputFull(Exec(INIT, run))
    ensures var e := Exec(INIT, run); Pending(e) != [] ==> Size(e.filled) + Size(Pending(e)) > BLOCK_SIZE
  {
    NothingAtFirst();
    RunKeepsInputFull(INIT, run);
    if Pending(Exec(INIT, run)) != [] {
      SizeOfFirst(Pending(Exec(INIT, run)));
    }
  }

  lemma RunFacts(run: seq<Step>)
    requires ValidRun(INIT, run)
    ensures var e := Exec(INIT, run);
            && Inv(e) && All(e) == Allocated(run)
            && (Pending(e) != [] ==> Size(e.filled) + Size(Pending(e)) > BLOCK_SIZE)
  {
    hide Exec, ValidRun, Size, Bytes, Inv, All, Pending, Allocated, InputFull;
    assert Inv(INIT) && All(INIT) == [] by { NothingAtFirst(); }
    RunKeeps(INIT, run);
    PendingNeedsABlock(run);
    assert [] + Allocated(run) == Allocated(run);
  }

  lemma NothingAtFirst()
    ensures Inv(INIT) && All(INIT) == [] && InputFull(INIT)
  {
  }

  lemma AllSize(s: State)
    ensures Size(All(s)) == Size(s.delivered) + Size(s.exposed) + Size(s.filled) + Size(Pending(s))
  {
    BytesConcat(s.delivered, s.exposed);
    BytesConcat(s.delivered + s.exposed, s.filled);
    BytesConcat(s.delivered + s.exposed + s.filled, Pending(s));
  }

  // ---------------------------------------------------------------- flushing

  /** The switches it takes to expose everything. */
  function Switches(s: State): nat {
    if s.filled == [] then 0 else 1 + |s.queued| + if s.current == [] then 0 else 1
  }

  lemma SwitchCounts(s: State)
    requires Inv(s) && Enabled(s, Switch) && s.filled != []
    ensures Switches(Next(s, Switch)) == Switches(s) - 1 && Next(s, Switch).exposed != []
  {
  }

  /** The host reads what is exposed, if anything, and the target switches. */
  function AfterWait(s: State): State {
    Next(Next(s, Ack), Switch)
  }

  lemma WaitCounts(s: State)
    requires Inv(s) && s.filled != []
    ensures Switches(AfterWait(s)) == Switches(s) - 1 && AfterWait(s).exposed != []
    ensures Pending(s) == [] ==> Pending(AfterWait(s)) == []
  {
    StepKeepsInv(s, Ack);
    var a := Next(s, Ack);
    SwitchCounts(a);
    SwitchPumpsFront(a);
    assert Pending(a) == Pending(s);
  }

  lemma AckNothing(s: State)
    requires s.exposed == []
    ensures Next(s, Ack) == s
  {
    assert s.delivered + [] == s.delivered;
  }

  /** Bytes the target still has to expose. */
  function Backlog(s: State): nat {
    Size(s.filled) + Size(Pending(s))
  }

  lemma SwitchShrinks(s: State)
    requires Inv(s) && Enabled(s, Switch) && s.filled != []
    ensures Backlog(Next(s, Switch)) < Backlog(s)
  {
    SwitchPumpsFront(s);
    BytesConcat(Next(s, Switch).filled, Pending(Next(s, Switch)));
  }

  /** The host reads and acknowledges what is exposed, then the target switches. */
  function Round(s: State): (e: State)
    requires Inv(s)
    ensures Inv(e) && All(e) == All(s)
    ensures s.filled != [] ==> Backlog(e) < Backlog(s)
  {
    StepKeepsInv(s, Ack);
    var a := Next(s, Ack);
    StepKeepsInv(a, Switch);
    StepKeepsOrder(s, Ack);
    SwitchKeepsAll(a);
    assert All(s) + [] == All(s);
    assert s.filled != [] ==> Backlog(Next(a, Switch)) < Backlog(s) by {
      if s.filled != [] { SwitchShrinks(a); }
    }
    Next(a, Switch)
  }

  /** The flush loop, with a host that reads every block: switch until the input block is empty. */
  function Drain(s: State): (e: State)
    requires Inv(s)
    decreases Backlog(s)
  {
    if s.filled == [] then s else Drain(Round(s))
  }

  /** A successful flush leaves both the input block and the pending ring empty: every block ever
      allocated has then been delivered or is exposed. */
  lemma {:induction false} DrainEmpties(s: State)
    requires Inv(s)
    ensures Drain(s).filled == [] && Pending(Drain(s)) == []
    ensures Drain(s).delivered + Drain(s).exposed == All(s)
    decreases Backlog(s)
  {
    hide Round, Inv, Next, Enabled, Size, Bytes, Backlog;
    if s.filled == [] {
      EmptyInputMeansEmptyRing(s);
    } else {
      DrainEmpties(Round(s));
    }
  }

  lemma EmptyInputMeansEmptyRing(s: State)
    requires Inv(s) && s.filled == []
    ensures Pending(s) == [] && s.queued == [] && s.current == []
  {
  }

  // ---------------------------------------------------------------- chunk accounting

  function Sizes(chunks: seq<seq<Block>>): seq<nat> {
    seq(|chunks|, i requires 0 <= i < |chunks| => Size(chunks[i]))
  }

  function Sum(sizes: seq<nat>): nat {
    if sizes == [] then 0 else sizes[0] + Sum(sizes[1..])
  }

  /** The queued chunk sizes and the accumulating one add up to the unread bytes of the ring. */
  lemma {:induction false} ChunkAccounting(chunks: seq<seq<Block>>, current: seq<Block>)
    ensures Size(Flat(chunks) + current) == Sum(Sizes(chunks)) + Size(current)
  {
    if chunks == [] {
      assert Flat(chunks) + current == current;
    } else {
      ChunkAccounting(chunks[1..], current);
      assert Sizes(chunks)[1..] == Sizes(chunks[1..]);
      Assoc(chunks[0], Flat(chunks[1..]), current);
      BytesConcat(chunks[0], Flat(chunks[1..]) + current);
    }
  }

  // ---------------------------------------------------------------- slots for chunk sizes

  // The pending ring holds at most `capacity` bytes (CONFIG_APPTRACE_PENDING_DATA_SIZE_MAX); the
  // ring of chunk sizes has capacity / BLOCK_SIZE + 2 cells, of which one stays free.

  function Slots(capacity: nat): nat {
    capacity / BLOCK_SIZE + 1
  }

  const MIN_BLOCK: nat := HEADER + 1

  /** The fewest bytes that `n` chunks in a row can have. */
  function LeastBytes(n: nat): nat {
    n / 2 * (BLOCK_SIZE + 1) + n % 2 * MIN_BLOCK
  }

  ghost predicate TightSizes(sizes: seq<nat>) {
    && (forall i :: 0 <= i < |sizes| ==> sizes[i] >= MIN_BLOCK)
    && (forall i :: 0 <= i < |sizes| - 1 ==> sizes[i] + sizes[i + 1] > BLOCK_SIZE)
  }

  lemma {:induction false} TightSizesSum(sizes: seq<nat>)
    requires TightSizes(sizes)
    ensures Sum(sizes) >= LeastBytes(|sizes|)
  {
    if |sizes| >= 2 {
      assert sizes[1..][1..] == sizes[2..];
      TightSizesSum(sizes[2..]);
    }
  }

  lemma InvSizesTight(s: State)
    requires Inv(s) && s.current != []
    ensures TightSizes(Sizes(s.queued + [s.current]))
  {
    var all := s.queued + [s.current];
    forall i | 0 <= i < |all|
      ensures Sizes(all)[i] >= MIN_BLOCK
    {
      assert ChunkOk(all[i]);
      SizeOfFirst(all[i]);
    }
    forall i | 0 <= i < |all| - 1
      ensures Sizes(all)[i] + Sizes(all)[i + 1] > BLOCK_SIZE
    {
      assert Tight(all[i], all[i + 1]);
      SizeOfFirst(all[i + 1]);
    }
  }

  lemma InvSizesSum(s: State)
    ensures Sum(Sizes(s.queued + [s.current])) == Size(Pending(s))
  {
    var all := s.queued + [s.current];
    ChunkAccounting(all, []);
    FlatAppend(s.queued, s.current);
    assert Flat(all) + [] == Flat(all);
  }

  /** Runs in which the pending ring never holds more than `capacity` bytes. */
  predicate Within(s: State, run: seq<Step>, capacity: nat)
    requires ValidRun(s, run)
    decreases |run|
  {
    Size(Pending(s)) <= capacity &&
    (run == [] || Within(Next(s, run[0]), run[1..], capacity))
  }

  lemma {:induction false} WithinAtEnd(s: State, run: seq<Step>, capacity: nat)
    requires ValidRun(s, run) && Within(s, run, capacity)
    ensures Size(Pending(Exec(s, run))) <= capacity
    decreases |run|
  {
    if run != [] {
      WithinAtEnd(Next(s, run[0]), run[1..], capacity);
    }
  }

  lemma LeastBytesGrows(n: nat, m: nat)
    requires n <= m
    ensures LeastBytes(n) <= LeastBytes(m)
  {
    assert n / 2 <= m / 2;
  }

  lemma FewerChunks(n: nat, m: nat)
    requires LeastBytes(n) < LeastBytes(m)
    ensures n < m
  {
    if m <= n {
      LeastBytesGrows(m, n);
    }
  }

  lemma QueuedBound(s: State, slots: nat)
    requires Inv(s) && Size(Pending(s)) < LeastBytes(slots + 2)
    ensures |s.queued| <= slots
  {
    if s.queued != [] {
      InvSizesTight(s);
      InvSizesSum(s);
      TightSizesSum(Sizes(s.queued + [s.current]));
      FewerChunks(|s.queued| + 1, slots + 2);
    }
  }

  lemma EnoughSlots(run: seq<Step>, capacity: nat, slots: nat)
    requires ValidRun(INIT, run) && Within(INIT, run, capacity)
    requires capacity < LeastBytes(slots + 2)
    ensures |Exec(INIT, run).queued| <= slots
  {
    RunFromInit(run);
    WithinAtEnd(INIT, run, capacity);
    var e := Exec(INIT, run);
    QueuedBound(e, slots);
  }

  // The other direction: with a full block exposed and the input block full, smallest and largest user blocks in
  // turn.

  function Zeros(n: nat): Block {
    seq(n, _ => 0)
  }

  function Turn(i: nat): Block {
    if i % 2 == 0 then Zeros(MIN_BLOCK) else Zeros(BLOCK_SIZE - HEADER)
  }

  function OverflowRun(n: nat): seq<Step> {
    if n == 0 then [ToInput(Zeros(BLOCK_SIZE)), Switch, ToInput(Zeros(BLOCK_SIZE))]
    else OverflowRun(n - 1) + [ToPending(Turn(n - 1))]
  }

  lemma {:induction false} AppendStep(s: State, run: seq<Step>, step: Step, capacity: nat)
    requires ValidRun(s, run) && Within(s, run, capacity)
    requires Enabled(Exec(s, run), step) && Size(Pending(Next(Exec(s, run), step))) <= capacity
    ensures ValidRun(s, run + [step]) && Exec(s, run + [step]) == Next(Exec(s, run), step)
    ensures Within(s, run + [step], capacity)
    decreases |run|
  {
    if run == [] {
      assert [] + [step] == [step] && [step][1..] == [];
      assert ValidRun(Next(s, step), []) && Exec(Next(s, step), []) == Next(s, step);
    } else {
      assert (run + [step])[1..] == run[1..] + [step];
      AppendStep(Next(s, run[0]), run[1..], step, capacity);
    }
  }

  /** Where the overflowing run is after `n` pending blocks. */
  predicate Overflowing(e: State, n: nat) {
    && e.exposed != [] && Size(e.filled) == BLOCK_SIZE && Size(Pending(e)) == LeastBytes(n)
    && (if n == 0 then e.queued == [] && e.current == [] else |e.queued| == n - 1 && e.current == [Turn(n - 1)])
  }

  lemma OverflowStep(e: State, n: nat)
    requires Overflowing(e, n)
    ensures Enabled(e, ToPending(Turn(n))) && Overflowing(Next(e, ToPending(Turn(n))), n + 1)
  {
    BytesOfOne(Turn(n));
    if n > 0 { BytesOfOne(Turn(n - 1)); }
    ToPendingAppends(e, Turn(n));
    AppendSize(Pending(e), Turn(n));
  }

  lemma OverflowStart(capacity: nat)
    ensures ValidRun(INIT, OverflowRun(0)) && Within(INIT, OverflowRun(0), capacity)
    ensures Overflowing(Exec(INIT, OverflowRun(0)), 0)
  {
    var full := Zeros(BLOCK_SIZE);
    AppendSize([], full);
    assert [] + [full] == [full];
    AppendStep(INIT, [], ToInput(full), capacity);
    assert [] + [ToInput(full)] == [ToInput(full)];
    var one := State([], [], [full], [], []);
    AppendStep(INIT, [ToInput(full)], Switch, capacity);
    var two := State([], [full], [], [], []);
    assert Next(one, Switch) == two;
    AppendStep(INIT, [ToInput(full)] + [Switch], ToInput(full), capacity);
    assert [ToInput(full)] + [Switch] + [ToInput(full)] == OverflowRun(0);
  }

  lemma {:induction false} OverflowRunQueues(n: nat, capacity: nat)
    requires LeastBytes(n) <= capacity
    ensures ValidRun(INIT, OverflowRun(n)) && Within(INIT, OverflowRun(n), capacity)
    ensures Overflowing(Exec(INIT, OverflowRun(n)), n)
  {
    if n == 0 {
      OverflowStart(capacity);
    } else {
      LeastBytesGrows(n - 1, n);
      OverflowRunQueues(n - 1, capacity);
      OverflowStep(Exec(INIT, OverflowRun(n - 1)), n - 1);
      AppendStep(INIT, OverflowRun(n - 1), ToPending(Turn(n - 1)), capacity);
    }
  }

  /** In the runs of the driver the ring of chunk sizes never runs full if and only if the configured capacity is below the
      fewest bytes that take one chunk more than there are slots. */
  lemma SlotsSuffice(capacity: nat)
    requires capacity > BLOCK_SIZE
    ensures (forall run :: ValidRun(INIT, run) && Within(INIT, run, capacity)
                           ==> |Exec(INIT, run).queued| <= Slots(capacity))
            <==> capacity < LeastBytes(Slots(capacity) + 2)
  {
    if capacity < LeastBytes(Slots(capacity) + 2) {
      forall run | ValidRun(INIT, run) && Within(INIT, run, capacity)
        ensures |Exec(INIT, run).queued| <= Slots(capacity)
      {
        EnoughSlots(run, capacity, Slots(capacity));
      }
    } else {
      var n := Slots(capacity) + 2;
      OverflowRunQueues(n, capacity);
      assert |Exec(INIT, OverflowRun(n)).queued| == n - 1;
    }
  }

  /** In numbers: the slots suffice below two blocks and seven bytes, and again from three blocks to
      three blocks and two bytes; from there on they never do. */
  lemma SlotsSufficeInNumbers(capacity: nat)
    requires capacity > BLOCK_SIZE
    ensures capacity < LeastBytes(Slots(capacity) + 2)
            <==> capacity < 2 * BLOCK_SIZE + 7 || 3 * BLOCK_SIZE <= capacity < 3 * BLOCK_SIZE + 3
  {
    var m := capacity / BLOCK_SIZE;
    assert m * BLOCK_SIZE <= capacity < (m + 1) * BLOCK_SIZE;
    assert m < 4 || LeastBytes(m + 3) <= m * BLOCK_SIZE by {
      if m >= 4 { LongQueues(m); }
    }
  }

  lemma {:induction false} LongQueues(m: nat)
    requires 4 <= m
    ensures LeastBytes(m + 3) <= m * BLOCK_SIZE
  {
    if m >= 6 {
      LongQueues(m - 2);
      assert (m + 3) / 2 == (m + 1) / 2 + 1;
    }
  }
}
