/**
 Whole tracing sessions: any sequence of writes, flushes and host moves, from start-up on.
 */
module TraceSession {
  import opened Basics
  import opened TraceProtocol
  import opened TraceFormat
  import opened TraceTransport
  import RingBuffer

  datatype Op =
    | Write(core: nat, data: seq<byte>, host: seq<HostMove>)
    | Flush(minSz: nat, waits: seq<seq<HostMove>>)
    | Host(move: HostMove)

  predicate OpOk(op: Op) {
    match op
    case Write(core, _, host) => core < 2 && HostOk(host)
    case Flush(_, waits) => forall k :: 0 <= k < |waits| ==> HostOk(waits[k])
    case Host(move) => MoveOk(move)
  }

  datatype Result = Ok | InvalidArg | NoMemory | Timeout | Abort

  /** The user data of the writes that returned Ok, in order. */
  function Accepted(ops: seq<Op>, results: seq<Result>): seq<User>
    requires |results| <= |ops|
  {
    if results == [] then []
    else
      var last := |results| - 1;
      Accepted(ops, results[..last]) +
      if results[last].Ok? && ops[last].Write? then [User(ops[last].core, ops[last].data)] else []
  }

  lemma {:induction false} EncodeAllAppend(us: seq<User>, u: User)
    requires UserOk(u) && forall v :: v in us ==> UserOk(v)
    ensures EncodeAll(us + [u]) == EncodeAll(us) + [Encode(u)]
  {
    if us == [] {
      assert us + [u] == [u] && EncodeAll([u][1..]) == [];
    } else {
      assert (us + [u])[1..] == us[1..] + [u];
      EncodeAllAppend(us[1..], u);
    }
  }

  lemma {:induction false} EncodeAllPrefix(us: seq<User>, bs: seq<Block>)
    requires (forall u :: u in us ==> UserOk(u)) && bs <= EncodeAll(us)
    ensures |bs| <= |us| && bs == EncodeAll(us[..|bs|])
  {
    if bs != [] {
      EncodeAllPrefix(us[1..], bs[1..]);
      assert us[..|bs|][1..] == us[1..][..|bs| - 1];
    }
  }

  /** Everything in the transport is an encoding of what was accepted. */
  ghost predicate Carries(t: Transport, users: seq<User>)
    reads t`log
  {
    && (forall u :: u in users ==> UserOk(u))
    && Allocated(t.log) == EncodeAll(users)
  }

  /** The host can cut what it has read into the first of `users`, unchanged. */
  ghost predicate GotPrefix(received: seq<byte>, users: seq<User>) {
    exists k :: 0 <= k <= |users| && HostParse(received) == Some(users[..k])
  }

  lemma DeliveredParses(t: Transport, users: seq<User>)
    requires t.Valid() && Carries(t, users)
    ensures |t.st.delivered| <= |users|
    ensures HostParse(t.received) == Some(users[..|t.st.delivered|])
  {
    Conservation(t.log);
    EncodeAllPrefix(users, t.st.delivered);
    HostParsesWholeBlocks(users[..|t.st.delivered|]);
  }

  /** What the host has read so far it can cut into the first accepted user blocks, unchanged. */
  lemma HostGetsPrefix(t: Transport, users: seq<User>)
    requires t.Valid() && Carries(t, users)
    ensures GotPrefix(t.received, users)
  {
    DeliveredParses(t, users);
  }

  lemma EverythingDelivered(t: Transport, users: seq<User>)
    requires t.Valid() && Carries(t, users)
    requires t.st.exposed == [] && t.st.filled == [] && Pending(t.st) == []
    ensures HostParse(t.received) == Some(users)
  {
    Conservation(t.log);
    assert EncodeAll(users) == t.st.delivered;
    EncodeAllLength(users);
    DeliveredParses(t, users);
    assert users[..|users|] == users;
  }

  lemma {:induction false} EncodeAllLength(us: seq<User>)
    requires forall u :: u in us ==> UserOk(u)
    ensures |EncodeAll(us)| == |us|
  {
    if us != [] { EncodeAllLength(us[1..]); }
  }

  /** The bytes that user data takes, headers included. */
  function Volume(us: seq<User>): nat {
    if us == [] then 0 else Volume(us[..|us| - 1]) + HEADER + |us[|us| - 1].data|
  }

  lemma {:induction false} VolumeOfEncoded(us: seq<User>)
    requires forall u :: u in us ==> UserOk(u)
    ensures Size(EncodeAll(us)) == Volume(us)
    decreases |us|
  {
    if us == [] {
      assert Size([]) == 0;
    } else {
      var n := |us| - 1;
      VolumeOfEncoded(us[..n]);
      assert us == us[..n] + [us[n]];
      EncodeAllAppend(us[..n], us[n]);
      AppendSize(EncodeAll(us[..n]), Encode(us[n]));
    }
  }

  lemma EverythingIsAllocated(t: Transport)
    requires t.Valid()
    ensures Inv(t.st) && All(t.st) == Allocated(t.log)
    ensures Pending(t.st) != [] ==> Size(t.st.filled) + Size(Pending(t.st)) > BLOCK_SIZE
  {
    hide Exec, ValidRun, Inv, All, Pending, Size, Allocated;
    RunFacts(t.log);
  }

  /** A user block is refused only when it and the accepted data that the host has not read exceed a trace
      memory block. */
  lemma RefusedNeedsABlock(t: Transport, users: seq<User>, b: Block)
    requires t.Valid() && Carries(t, users) && t.NoPlace(b)
    ensures Volume(users) - |t.received| + |b| > BLOCK_SIZE
  {
    EverythingIsAllocated(t);
    VolumeOfEncoded(users);
    AllSize(t.st);
  }

  /** Everything accepted is exposed or read. */
  ghost predicate Flushed(t: Transport)
    reads t
  {
    t.st.filled == [] && Pending(t.st) == []
  }

  /** And once the host has read what is exposed it has read everything. */
  lemma EverythingRead(t: Transport, users: seq<User>)
    requires t.Valid() && Carries(t, users) && Flushed(t) && t.st.exposed == []
    ensures |t.received| == Volume(users)
  {
    EverythingIsAllocated(t);
    VolumeOfEncoded(users);
    AllSize(t.st);
    assert Size([]) == 0;
  }

  /** Never more switches than user blocks to expose everything. */
  lemma SwitchesAtMost(t: Transport, users: seq<User>)
    requires t.Valid() && Carries(t, users)
    ensures Switches(t.st) <= |users|
  {
    EverythingIsAllocated(t);
    EncodeAllLength(users);
    ChunksAtMostBlocks(t.st.queued);
  }

  lemma {:induction false} ChunksAtMostBlocks(chunks: seq<seq<Block>>)
    requires forall i :: 0 <= i < |chunks| ==> chunks[i] != []
    ensures |chunks| <= |Flat(chunks)|
  {
    if chunks != [] {
      ChunksAtMostBlocks(chunks[1..]);
    }
  }

  /** The result that a call must have, if the host has read `read` bytes after it: a write of a proper size is
      refused only when it and the accepted data that the host has not read exceed a trace memory block, and a
      flush succeeds with a host that acknowledges often enough. */
  predicate Deserved(op: Op, r: Result, users: seq<User>, read: nat) {
    match op
    case Write(_, data, _) =>
      && (r == InvalidArg <==> data == [])
      && (|data| > BLOCK_SIZE - HEADER ==> r == NoMemory)
      && (0 < |data| <= BLOCK_SIZE - HEADER && r != Ok ==>
            r == NoMemory && Volume(users) - read + HEADER + |data| > BLOCK_SIZE)
    case Flush(_, waits) => r == Ok || (r == Timeout && !AlwaysAcks(waits, |users|))
    case Host(_) => r == Ok
  }

  /** A flush that leaves nothing in the input block and the pending ring. */
  predicate Flushes(op: Op, r: Result) {
    op.Flush? && op.minSz == 0 && r == Ok
  }

  predicate AlwaysAcks(waits: seq<seq<HostMove>>, n: nat) {
    n <= |waits| && forall k :: 0 <= k < |waits| ==> Acks(waits[k])
  }

  // esp_apptrace_write
  method WriteUser(t: Transport, core: nat, data: seq<byte>, host: seq<HostMove>, ghost users: seq<User>)
    returns (r: Result)
    requires t.Valid() && Carries(t, users) && core < 2 && HostOk(host)
    modifies t.Repr()
    ensures r != Abort ==> t.Valid() && Deserved(Write(core, data, host), r, users, |t.received|)
    ensures |old(t.received)| <= |t.received|
    ensures r == Ok ==> Carries(t, users + [User(core, data)])
    ensures r == InvalidArg || r == NoMemory ==> Carries(t, users)
    ensures r == NoMemory && |data| <= BLOCK_SIZE - HEADER ==> t.NoPlace(Encode(User(core, data)))
    ensures r == Abort ==> t.pend.data.Length > LeastBytes(t.chunkSz.data.Length + 1)
    ensures r != Timeout
  {
    hide RingBuffer.Index.Place, Inv, Next, ValidRun, Exec, Bytes, Size;
    if data == [] {
      return InvalidArg;
    }
    if |data| > BLOCK_SIZE - HEADER {
      return NoMemory;
    }
    var u := User(core, data);
    EncodeAllAppend(users, u);
    var o := t.Store(Encode(u), host);
    match o
    case Stored => r := Ok;
    case NoMem =>
      r := NoMemory;
      RefusedNeedsABlock(t, users, Encode(u));
    case Aborted => r := Abort;
  }

  method FlushAll(t: Transport, minSz: nat, waits: seq<seq<HostMove>>, ghost users: seq<User>) returns (ok: bool)
    requires t.Valid() && Carries(t, users) && forall k :: 0 <= k < |waits| ==> HostOk(waits[k])
    modifies t.Repr()
    ensures t.Valid() && Carries(t, users)
    ensures |old(t.received)| <= |t.received|
    ensures AlwaysAcks(waits, |users|) ==> ok
    ensures ok && old(Size(t.st.filled)) >= minSz ==> Flushed(t)
  {
    hide Transport.Valid, RingBuffer.Index.Place, Inv, Next, Allocated, EncodeAll, Size;
    SwitchesAtMost(t, users);
    ok := t.Flush(minSz, waits);
  }

  method HostTurn(t: Transport, move: HostMove, ghost users: seq<User>)
    requires t.Valid() && Carries(t, users) && MoveOk(move)
    modifies t.Repr()
    ensures t.Valid() && Carries(t, users)
    ensures |old(t.received)| <= |t.received|
    ensures move.AckWith? && old(Flushed(t)) ==> |t.received| == Volume(users)
  {
    hide Transport.Valid, RingBuffer.Index.Place, Inv, Allocated, EncodeAll, Size;
    ghost var flushed := Flushed(t);
    t.HostMoves(move);
    if move.AckWith? && flushed {
      EverythingRead(t, users);
    }
  }

  method Perform(t: Transport, op: Op, ghost users: seq<User>) returns (r: Result)
    requires t.Valid() && Carries(t, users) && OpOk(op)
    modifies t.Repr()
    ensures r != Abort ==> t.Valid() && Deserved(op, r, users, |t.received|)
    ensures r != Abort ==> Carries(t, if r.Ok? && op.Write? then users + [User(op.core, op.data)] else users)
    ensures |old(t.received)| <= |t.received|
    ensures Flushes(op, r) ==> Flushed(t)
    ensures op.Host? && op.move.AckWith? && old(Flushed(t)) ==> |t.received| == Volume(users)
    ensures r == Abort ==> t.pend.data.Length > LeastBytes(t.chunkSz.data.Length + 1)
  {
    hide Transport.Valid, RingBuffer.Index.Place, Inv, Next, Allocated, EncodeAll, Size, Flushed;
    match op
    case Write(core, data, host) =>
      r := WriteUser(t, core, data, host, users);
    case Flush(minSz, waits) =>
      var ok := FlushAll(t, minSz, waits, users);
      r := if ok then Ok else Timeout;
    case Host(move) =>
      HostTurn(t, move, users);
      r := Ok;
  }

  // Static memory and the initialized transport.
  method Start(pendingMax: nat, downSize: nat) returns (t: Transport)
    requires pendingMax > BLOCK_SIZE
    ensures fresh(t.Repr()) && t.Valid() && t.log == []
    ensures t.pend.data.Length == pendingMax + 1 && t.pend.rd == 0
    ensures t.chunkSz.data.Length == pendingMax / BLOCK_SIZE + 2
  {
    hide Transport.Valid, RingBuffer.Ring.Valid, RingBuffer.Ring.Contents, RingBuffer.Index.Ok, Inv;
    var b0 := new byte[BLOCK_SIZE];
    var b1 := new byte[BLOCK_SIZE];
    var p := new byte[pendingMax + 1];
    var d := new byte[downSize];
    var c := new nat[pendingMax / BLOCK_SIZE + 2];
    var pend := new RingBuffer.Ring(p);
    var down := new RingBuffer.Ring(d);
    var chunkSz := new RingBuffer.Ring(c);
    t := new Transport(b0, b1, pend, chunkSz, down);
  }

  /** Call `i` has the result it must have; the host never unreads, and when it reads what a flush has exposed
      it has read everything. */
  predicate DeservedAt(ops: seq<Op>, results: seq<Result>, readBy: seq<nat>, i: nat)
    requires i < |results| == |readBy| <= |ops|
  {
    var users := Accepted(ops, results[..i]);
    && Deserved(ops[i], results[i], users, readBy[i])
    && (i > 0 ==> readBy[i - 1] <= readBy[i])
    && (i > 0 && Flushes(ops[i - 1], results[i - 1]) && ops[i].Host? && ops[i].move.AckWith? ==> readBy[i] == Volume(users))
  }

  ghost predicate AllDeserved(ops: seq<Op>, results: seq<Result>, readBy: seq<nat>)
    requires |results| == |readBy| <= |ops|
  {
    forall i :: 0 <= i < |results| ==> DeservedAt(ops, results, readBy, i)
  }

  lemma AnotherDeserved(ops: seq<Op>, results: seq<Result>, readBy: seq<nat>, r: Result, read: nat)
    requires |results| == |readBy| < |ops| && AllDeserved(ops, results, readBy)
    requires var n, users := |results|, Accepted(ops, results);
             && Deserved(ops[n], r, users, read)
             && (n > 0 ==> readBy[n - 1] <= read)
             && (n > 0 && Flushes(ops[n - 1], results[n - 1]) && ops[n].Host? && ops[n].move.AckWith? ==> read == Volume(users))
    ensures AllDeserved(ops, results + [r], readBy + [read])
  {
    hide Deserved, Accepted, Volume;
    var n, more := |results|, results + [r];
    assert more[..n] == results;
    forall i | 0 <= i < |more|
      ensures DeservedAt(ops, more, readBy + [read], i)
    {
      if i < n {
        assert more[..i] == results[..i];
        assert DeservedAt(ops, results, readBy, i);
      }
    }
  }

  lemma AcceptedGrows(ops: seq<Op>, results: seq<Result>, r: Result)
    requires |results| < |ops|
    ensures var op := ops[|results|];
            Accepted(ops, results + [r]) ==
            if r.Ok? && op.Write? then Accepted(ops, results) + [User(op.core, op.data)] else Accepted(ops, results)
  {
    assert (results + [r])[..|results|] == results;
    assert Accepted(ops, results) + [] == Accepted(ops, results);
  }

  /** Between two calls of a session. */
  ghost predicate Between(t: Transport, ops: seq<Op>, results: seq<Result>, readBy: seq<nat>)
    reads t, t.pend, t.chunkSz, t.down, t.pend.data, t.chunkSz.data, t.mem0, t.mem1
  {
    && t.Valid()
    && |results| == |readBy| <= |ops| && AllDeserved(ops, results, readBy)
    && Carries(t, Accepted(ops, results))
    && (readBy != [] ==> readBy[|readBy| - 1] == |t.received|)
    && (results != [] && Flushes(ops[|results| - 1], results[|results| - 1]) ==> Flushed(t))
  }

  method RunOne(t: Transport, ops: seq<Op>, results: seq<Result>, ghost readBy: seq<nat>) returns (r: Result)
    requires Between(t, ops, results, readBy) && |results| < |ops| && OpOk(ops[|results|])
    modifies t.Repr()
    ensures r != Abort ==> Between(t, ops, results + [r], readBy + [|t.received|])
    ensures r == Abort ==> t.pend.data.Length > LeastBytes(t.chunkSz.data.Length + 1)
  {
    hide Transport.Valid, Carries, Deserved, Accepted, OpOk, AllDeserved, Flushed;
    r := Perform(t, ops[|results|], Accepted(ops, results));
    if r != Abort {
      AnotherDeserved(ops, results, readBy, r, |t.received|);
      AcceptedGrows(ops, results, r);
    }
  }

  /** What a session has shown so far. */
  ghost predicate Shown(ops: seq<Op>, results: seq<Result>, readBy: seq<nat>, received: seq<byte>) {
    && |results| == |readBy| <= |ops| && AllDeserved(ops, results, readBy)
    && GotPrefix(received, Accepted(ops, results))
    && (readBy != [] ==> readBy[|readBy| - 1] <= |received|)
  }

  // The calls from the next one on.
  method RunFrom(t: Transport, ops: seq<Op>, before: seq<Result>, readBefore: seq<nat>)
    returns (results: seq<Result>, readBy: seq<nat>, received: seq<byte>)
    requires Between(t, ops, before, readBefore)
    requires forall k :: 0 <= k < |ops| ==> OpOk(ops[k])
    modifies t.Repr()
    ensures Shown(ops, results, readBy, received)
    ensures |results| < |ops| ==> t.pend.data.Length > LeastBytes(t.chunkSz.data.Length + 1)
    ensures |results| >= |ops| ==> Between(t, ops, results, readBy)
    decreases |ops| - |before|
  {
    hide *;
    SoFar(t, ops, before, readBefore);
    results, readBy, received := before, readBefore, t.received;
    if |results| < |ops| {
      var r := RunOne(t, ops, results, readBy);
      if r != Abort {
        results, readBy, received := RunFrom(t, ops, results + [r], readBy + [|t.received|]);
      }
    }
  }

  lemma SoFar(t: Transport, ops: seq<Op>, results: seq<Result>, readBy: seq<nat>)
    requires Between(t, ops, results, readBy)
    ensures Shown(ops, results, readBy, t.received)
  {
    HostGetsPrefix(t, Accepted(ops, results));
  }

  lemma NothingCarried(t: Transport, ops: seq<Op>)
    requires t.log == []
    ensures t.Valid() ==> Between(t, ops, [], [])
  {
  }

  // A last flush, and the host reads the exposed block.
  method Finish(t: Transport, waits: seq<seq<HostMove>>, ghost users: seq<User>) returns (flushed: bool)
    requires t.Valid() && Carries(t, users)
    requires forall k :: 0 <= k < |waits| ==> HostOk(waits[k])
    modifies t.Repr()
    ensures t.Valid() && Carries(t, users)
    ensures AlwaysAcks(waits, |users|) ==> flushed
    ensures |old(t.received)| <= |t.received|
    ensures flushed ==> t.st.exposed == [] && t.st.filled == [] && Pending(t.st) == []
  {
    hide Transport.Valid, RingBuffer.Index.Place, Inv, Allocated, EncodeAll, Size;
    flushed := FlushAll(t, 0, waits, users);
    if flushed {
      t.HostMoves(AckWith([]));
    }
  }

  /** Any session on a target with any pending capacity above one trace memory block.  However the
      host delays, acknowledges or sends data, what it has read at the end is the byte image of the
      first accepted user blocks, whole and in order; and if a last flush succeeds and the host then
      reads the exposed block, it has all of them.  A write is refused only when it does not fit a trace
      memory block together with what the host has not read, and flushes succeed with a host that
      acknowledges in every wait.  `readBy` says how much the host has read after each call.  Only a
      capacity for which the chunk slots do not suffice can end a session by the assertion. */
  method Session(pendingMax: nat, downSize: nat, ops: seq<Op>, waits: seq<seq<HostMove>>)
    returns (results: seq<Result>, readBy: seq<nat>, received: seq<byte>, flushed: bool)
    requires pendingMax > BLOCK_SIZE
    requires forall k :: 0 <= k < |ops| ==> OpOk(ops[k])
    requires forall k :: 0 <= k < |waits| ==> HostOk(waits[k])
    ensures |results| == |readBy| <= |ops| && AllDeserved(ops, results, readBy)
    ensures readBy != [] ==> readBy[|readBy| - 1] <= |received|
    ensures |results| < |ops| ==> pendingMax >= LeastBytes(Slots(pendingMax) + 2)
    ensures GotPrefix(received, Accepted(ops, results))
    ensures flushed ==> |results| == |ops| && HostParse(received) == Some(Accepted(ops, results))
    ensures |results| == |ops| && AlwaysAcks(waits, |Accepted(ops, results)|) ==> flushed
  {
    hide Transport.Valid, Carries, GotPrefix, Deserved, Accepted, OpOk, HostParse, AllDeserved;
    var t := Start(pendingMax, downSize);
    NothingCarried(t, ops);
    results, readBy, received := RunFrom(t, ops, [], []);
    if |results| < |ops| {
      return results, readBy, received, false;
    }
    flushed := Finish(t, waits, Accepted(ops, results));
    received := t.received;
    HostGetsPrefix(t, Accepted(ops, results));
    if flushed {
      EverythingDelivered(t, Accepted(ops, results));
    }
  }

  // ---------------------------------------------------------------- a session that ends by the assertion

  lemma StartsEmpty(t: Transport)
    requires t.Valid() && t.log == []
    ensures t.st == INIT
  {
  }

  lemma FullBlock(full: Block, s: State)
    requires |full| == BLOCK_SIZE && s.filled == [] && Inv(s)
    ensures var n := s.(filled := [full]);
            && Pending(s) == [] && s.queued == [] && s.current == [] && Next(s, ToInput(full)) == n
            && Size(s.filled) == 0 && Size(n.filled) == BLOCK_SIZE && Switches(n) == 1 && Pending(n) == []
            && Size(Pending(n)) == LeastBytes(0)
  {
    EmptyInputMeansEmptyRing(s);
    BytesOfOne(full);
    assert [] + [full] == [full];
    assert Size([]) == 0;
  }

  // A full block is exposed and never acknowledged, and another one fills the input block.
  method FillBothBlocks(t: Transport)
    requires t.Valid() && t.st == INIT && t.pend.rd == 0
    modifies t.Repr()
    ensures t.Valid() && Overflowing(t.st, 0) && t.pend.rd == 0
  {
    hide Transport.Valid, RingBuffer.Index.Place, Allocated, Inv, Next, Pending, Size, Switches, RingBuffer.Ring.Valid;
    var full := Zeros(BLOCK_SIZE);
    EverythingIsAllocated(t);
    FullBlock(full, t.st);
    var r := t.Store(full, []);
    assert WaitSucceeds(t.st, [[]], 0);
    var ok := t.Flush(0, [[]]);
    EverythingIsAllocated(t);
    FullBlock(full, t.st);
    r := t.Store(full, []);
  }

  /** Data that was never consumed lies at the start of the ring: what fits behind it has a place. */
  lemma PlaceBehind(t: Transport, i: nat)
    requires t.Valid() && Overflowing(t.st, i) && t.pend.rd == 0 && LeastBytes(i + 1) < t.pend.data.Length
    ensures t.pend.Idx().Place(|Turn(i)|).Some? && t.Overflows(Turn(i))
    ensures t.NoSlotFor(Turn(i)) <==> i >= 1 && i >= t.chunkSz.data.Length
  {
    assert t.pend.wr == |t.pend.Contents()|;
    assert Size(Pending(t.st)) == LeastBytes(i);
    assert Size([]) == 0;
    if i > 0 {
      BytesOfOne(Turn(i - 1));
    }
  }

  // One more pending user block of the overflowing run.
  method FillOne(t: Transport, i: nat) returns (r: Outcome)
    requires t.Valid() && Overflowing(t.st, i) && t.pend.rd == 0
    requires LeastBytes(i + 1) < t.pend.data.Length && HEADER < |Turn(i)| <= BLOCK_SIZE
    modifies t.Repr()
    ensures r == Aborted <==> i >= 1 && i >= t.chunkSz.data.Length
    ensures r != Aborted ==> t.Valid() && Overflowing(t.st, i + 1) && t.pend.rd == 0
  {
    ghost var was := t.st;
    OverflowStep(was, i);
    PlaceBehind(t, i);
    OverflowingExposes(was, i);
    hide *;
    r := t.Store(Turn(i), []);
  }

  lemma OverflowingExposes(s: State, i: nat)
    requires Overflowing(s, i)
    ensures s.exposed != []
  {
  }

  /** For the other capacities a session of a target whose host never acknowledges ends by the assertion. */
  method SlotsRunOut(pendingMax: nat) returns (last: Outcome)
    requires pendingMax > BLOCK_SIZE && pendingMax >= LeastBytes(Slots(pendingMax) + 2)
    ensures last == Aborted
  {
    hide Transport.Valid, RingBuffer.Index.Place, Allocated, Inv, Next, Pending, Size, Overflowing, Turn, LeastBytes;
    var t := Start(pendingMax, 0);
    StartsEmpty(t);
    FillBothBlocks(t);
    var cells := pendingMax / BLOCK_SIZE + 2;
    var i := 0;
    while i < cells
      invariant i <= cells && t.Valid() && fresh(t.Repr()) && t.pend.rd == 0 && Overflowing(t.st, i)
    {
      TurnsFit(i, cells + 1, pendingMax);
      last := FillOne(t, i);
      i := i + 1;
    }
    TurnsFit(i, cells + 1, pendingMax);
    last := FillOne(t, i);
  }

  lemma TurnsFit(i: nat, n: nat, capacity: nat)
    requires i + 1 <= n && LeastBytes(n) <= capacity
    ensures LeastBytes(i + 1) <= capacity && HEADER < |Turn(i)| <= BLOCK_SIZE
  {
    LeastBytesGrows(i + 1, n);
  }
}
