/**
 The tracing transport in streaming mode: two trace memory blocks, the control register, the
 pending ring, the ring of chunk sizes and the ring of data from the host.

 Target code is written as it runs on one CPU under the module's lock; the host acts between any
 two reads of the control register.  The configuration is the one with a pending ring larger than
 a trace memory block.
 */
module TraceTransport {
  import opened Basics
  import opened TraceProtocol
  import opened RingBuffer

  /** The control register; the block id has 7 bits, the length 15. */
  datatype Ctrl = Ctrl(hostConnect: bool, hostData: bool, blockId: nat, blockLen: nat)

  const ID_MASK: nat := 0x7F
  const LEN_MASK: nat := 0x7FFF

  datatype Outcome =
    | Stored       // a buffer was allocated and filled
    | NoMem        // the switch timed out or there is no room
    | Aborted      // assert(false): no slot for a chunk size

  /** What the host does between two reads of the control register. */
  datatype HostMove = Nothing | AckWith(payload: seq<byte>)

  predicate PayloadOk(payload: seq<byte>) {
    2 + |payload| <= BLOCK_SIZE
  }

  predicate MoveOk(move: HostMove) {
    move.AckWith? ==> PayloadOk(move.payload)
  }

  predicate HostOk(host: seq<HostMove>) {
    forall k :: 0 <= k < |host| ==> MoveOk(host[k])
  }

  predicate Acks(host: seq<HostMove>) {
    exists k :: 0 <= k < |host| && host[k].AckWith?
  }

  // The body of the pump loop: consume one contiguous piece and copy it behind the marker.
  method CopyPiece(pend: Ring<byte>, dst: array<byte>, marker: nat, n: nat)
    requires pend.Valid() && pend.data != dst && marker + n <= dst.Length
    requires n <= Contiguous(pend.Idx())
    modifies pend, dst
    ensures pend.Valid()
    ensures n <= |old(pend.Contents())| && pend.Contents() == old(pend.Contents())[n..]
    ensures dst[..marker] == old(dst[..marker])
    ensures dst[marker..marker + n] == old(pend.Contents())[..n]
  {
    var p := pend.Consume(n);
    forall k | 0 <= k < n {
      dst[marker + k] := pend.data[p.value + k];
    }
    assert dst[marker..marker + n] == pend.data[p.value..p.value + n];
  }

  // Copying the pending data of one chunk into a trace memory block.
  method Pump(pend: Ring<byte>, dst: array<byte>, max: nat) returns (marker: nat)
    requires pend.Valid() && pend.data != dst && max <= dst.Length
    modifies pend, dst
    ensures pend.Valid()
    ensures marker == if max <= |old(pend.Contents())| then max else |old(pend.Contents())|
    ensures dst[..marker] + pend.Contents() == old(pend.Contents())
    ensures old(pend.Contents()) == [] ==> pend.Idx() == old(pend.Idx())
  {
    hide Index.Place, Index.Ok, Cell, UnreadOf, Ring.Valid, Ring.Contents;
    ghost var all, done, left := pend.Contents(), [], pend.Contents();
    marker := 0;
    while marker < max
      invariant pend.Valid() && marker <= max
      invariant done == dst[..marker] && left == pend.Contents()
      invariant done + left == all
      invariant all == [] ==> pend.Idx() == old(pend.Idx())
    {
      var readSz := pend.ReadSize();
      if readSz == 0 {
        break;
      }
      if readSz > max - marker {
        readSz := max - marker;
      }
      CopyPiece(pend, dst, marker, readSz);
      Carry(done, left, readSz);
      assert dst[..marker + readSz] == dst[..marker] + dst[marker..marker + readSz];
      done, left := done + left[..readSz], left[readSz..];
      marker := marker + readSz;
    }
  }

  lemma Carry(a: seq<byte>, c: seq<byte>, n: nat)
    requires n <= |c|
    ensures a + c[..n] + c[n..] == a + c
  {
    assert c[..n] + c[n..] == c;
    Assoc(a, c[..n], c[n..]);
  }

  lemma SmallerFits(r: Ring<byte>, n: nat, m: nat)
    requires r.Valid() && r.Idx().Place(n) == Some(r.wr) && m <= n
    ensures r.Idx().Place(m) == Some(r.wr)
  {
  }

  // esp_apptrace_trax_down_buffer_write_nolock: as much of `s` as the down ring takes.
  method DownWrite(down: Ring<byte>, s: seq<byte>) returns (total: nat)
    requires down.Valid()
    modifies down, down.data
    ensures down.Valid() && total <= |s|
    ensures down.Contents() == old(down.Contents()) + s[..total]
    ensures total < |s| ==> forall m :: m > 0 ==> down.Idx().Place(m) != Some(down.wr)
  {
    hide Index.Place, Index.Ok, Cell, UnreadOf, Ring.Valid, Ring.Contents;
    ghost var all := down.Contents();
    total := 0;
    while total < |s|
      invariant down.Valid() && total <= |s|
      invariant down.Contents() == all + s[..total]
    {
      var wrSz := down.WriteSize();
      if wrSz == 0 {
        break;
      }
      var piece := if wrSz > |s| - total then |s| - total else wrSz;
      SmallerFits(down, wrSz, piece);
      var ok := down.Put(s[total..total + piece]);
      assert s[..total + piece] == s[..total] + s[total..total + piece];
      total := total + piece;
    }
  }

  // What the host writes to the block it has read: a length field and its data.
  method LeaveData(mem: array<byte>, payload: seq<byte>)
    requires mem.Length == BLOCK_SIZE && PayloadOk(payload)
    modifies mem
    ensures HostSize(mem[..]) == |payload| && mem[2..2 + |payload|] == payload
  {
    mem[0], mem[1] := |payload| % 256, |payload| / 256;
    forall k | 0 <= k < |payload| {
      mem[2 + k] := payload[k];
    }
  }

  /** The host's data in an acknowledged block. */
  function Payload(hostData: bool, mem: seq<byte>): seq<byte>
    requires |mem| == BLOCK_SIZE && (hostData ==> 2 + HostSize(mem) <= BLOCK_SIZE)
  {
    if hostData then mem[2..2 + HostSize(mem)] else []
  }

  /** The down ring got the beginning of `payload` behind `before`: all of it, or as much as it takes. */
  ghost predicate Received(down: Ring<byte>, before: seq<byte>, payload: seq<byte>)
    requires down.Valid()
    reads down, down.data
  {
    var n := |down.Contents()| - |before|;
    && 0 <= n <= |payload| && down.Contents() == before + payload[..n]
    && (n < |payload| ==> forall m :: m > 0 ==> down.Idx().Place(m) != Some(down.wr))
  }

  // Upon a switch: move the host's data, if any, to the down ring and mark it taken.
  method TakeHostData(hostData: bool, mem: array<byte>, down: Ring<byte>)
    requires mem.Length == BLOCK_SIZE && down.Valid() && down.data != mem
    requires hostData ==> 2 + HostSize(mem[..]) <= BLOCK_SIZE
    modifies mem, down, down.data
    ensures down.Valid()
    ensures Received(down, old(down.Contents()), old(Payload(hostData, mem[..])))
  {
    var size := HostSize(mem[..]);
    if hostData && size > 0 {
      var taken := DownWrite(down, mem[2..2 + size]);
      mem[0], mem[1] := 0, 0;
    }
  }

  method FillAt(mem: array<byte>, at: nat, b: seq<byte>)
    requires at + |b| <= mem.Length
    modifies mem
    ensures mem[..at + |b|] == old(mem[..at]) + b
  {
    forall k | 0 <= k < |b| {
      mem[at + k] := b[k];
    }
    assert mem[..at] == old(mem[..at]);
    assert mem[..at + |b|] == mem[..at] + b;
  }

  class Transport {
    const mem0: array<byte>              // the two trace memory blocks
    const mem1: array<byte>
    const pend: Ring<byte>               // pending user blocks
    const chunkSz: Ring<nat>             // sizes of the complete pending chunks, in 16-bit cells
    const down: Ring<byte>               // data from the host
    var markers: seq<nat>                // filling level per block
    var inBlock: nat
    var curChunk: nat                    // cur_pending_chunk_sz
    var ctrl: Ctrl
    var received: seq<byte>              // host side: every byte the host has read so far
    ghost var st: State                  // which user blocks are where
    ghost var log: seq<Step>             // the protocol steps taken since the start

    function In(): nat
      reads this`inBlock
    {
      inBlock % 2
    }

    function Out(): nat
      reads this`inBlock
    {
      1 - inBlock % 2
    }

    /** The trace memory block with number `n`. */
    function Mem(n: nat): array<byte> {
      if n == 0 then mem0 else mem1
    }

    ghost predicate Layout() {
      && mem0 != mem1 && mem0.Length == mem1.Length == BLOCK_SIZE
      && pend.data != mem0 && pend.data != mem1
      && down.data != mem0 && down.data != mem1
      && pend.data != down.data && pend != down
    }

    ghost function Repr(): set<object> {
      {this, pend, chunkSz, down, pend.data, chunkSz.data, down.data, mem0, mem1}
    }

    ghost predicate RingsValid()
      reads pend, chunkSz, down
    {
      && pend.Valid() && down.Valid() && chunkSz.Valid()
      && chunkSz.curSize == chunkSz.data.Length
    }

    /** The pending side of `s` is in the rings. */
    ghost predicate PendingIs(s: State)
      requires RingsValid()
      reads this`curChunk, pend, chunkSz, down, pend.data, chunkSz.data
    {
      && pend.Contents() == Bytes(Pending(s))
      && chunkSz.Contents() == Sizes(s.queued)
      && curChunk == Size(s.current)
    }

    /** The input block holds the filled user blocks. */
    ghost predicate InputIs(filled: seq<Block>)
      requires Layout()
      reads this`markers, this`inBlock, mem0, mem1
    {
      && |markers| == 2 && markers[In()] == Size(filled) <= BLOCK_SIZE
      && Mem(In())[..markers[In()]] == Bytes(filled)
    }

    /** The block the host may read holds the exposed user blocks, and the control register says how
        many bytes they are. */
    ghost predicate ExposedIs(exposed: seq<Block>)
      requires Layout()
      reads this`ctrl, this`inBlock, mem0, mem1
    {
      && ctrl.blockLen == Size(exposed) <= BLOCK_SIZE
      && Mem(Out())[..ctrl.blockLen] == Bytes(exposed)
    }

    ghost predicate CtrlOk()
      requires Layout()
      reads this`ctrl, this`inBlock, mem0, mem1
    {
      && ctrl.hostConnect && inBlock < 0x1_0000_0000 && ctrl.blockId == inBlock % (ID_MASK + 1)
      && (ctrl.hostData ==> 2 + HostSize(Mem(Out())[..]) <= BLOCK_SIZE)
    }

    ghost predicate Valid()
      reads this, pend, chunkSz, down, pend.data, chunkSz.data, mem0, mem1
    {
      && Layout() && RingsValid()
      && Reached(log, st)
      && PendingIs(st) && InputIs(st.filled) && ExposedIs(st.exposed) && CtrlOk()
      && received == Bytes(st.delivered)
    }

    /** Static memory and empty rings, the host connected: the state after initialization. */
    constructor (b0: array<byte>, b1: array<byte>, pend: Ring<byte>, chunkSz: Ring<nat>, down: Ring<byte>)
      requires b0 != b1 && b0.Length == b1.Length == BLOCK_SIZE
      requires pend.data != b0 && pend.data != b1 && down.data != b0 && down.data != b1
      requires pend.data != down.data && pend != down
      requires pend.Valid() && pend.Contents() == [] && down.Valid() && down.Contents() == []
      requires chunkSz.Valid() && chunkSz.Contents() == [] && chunkSz.curSize == chunkSz.data.Length
      ensures Valid() && log == [] && st == INIT
      ensures this.mem0 == b0 && this.mem1 == b1 && this.pend == pend && this.chunkSz == chunkSz && this.down == down
    {
      mem0, mem1 := b0, b1;
      this.pend, this.chunkSz, this.down := pend, chunkSz, down;
      markers := [0, 0];
      inBlock := 0;
      curChunk := 0;
      ctrl := Ctrl(true, false, 0, 0);
      received := [];
      st := INIT;
      log := [];
      NothingYet();
    }

    // What the host does to the block and the register.
    method HostWrites(payload: seq<byte>)
      requires Layout() && CtrlOk() && PayloadOk(payload)
      modifies this`ctrl, Mem(Out())
      ensures CtrlOk() && ctrl.blockLen == 0 && ctrl.blockId == old(ctrl.blockId)
    {
      if payload != [] {
        LeaveData(Mem(Out()), payload);
      }
      ctrl := ctrl.(blockLen := 0, hostData := ctrl.hostData || payload != []);
    }

    /** The host reads the exposed block, may leave data behind a length field, and clears the
        block length. */
    method HostAck(payload: seq<byte>)
      requires Valid() && PayloadOk(payload)
      modifies this`ctrl, this`received, this`st, this`log, Mem(Out())
      ensures Valid()
      ensures received == old(received) + Bytes(old(st).exposed)
      ensures st == Next(old(st), Ack) && log == old(log) + [Ack]
      ensures ctrl.blockLen == 0 && ctrl.blockId == old(ctrl.blockId)
    {
      hide Next, Inv, ValidRun, Exec, Index.Place, Pending, Sizes, Size, Bytes;
      received := received + Mem(Out())[..ctrl.blockLen];
      HostWrites(payload);
      AckMoves(st);
      ReachedNext(log, st, Ack);
      st := Next(st, Ack);
      log := log + [Ack];
    }

    // esp_apptrace_trax_pend_chunk_sz_get
    method TakeChunk() returns (sz: nat)
      requires RingsValid() && chunkSz.Contents() == Sizes(st.queued) && curChunk == Size(st.current)
      requires Enabled(st, Switch)
      modifies this`curChunk, chunkSz
      ensures RingsValid()
      ensures sz == Size(Next(st, Switch).filled)
      ensures chunkSz.Contents() == Sizes(Next(st, Switch).queued) && curChunk == Size(Next(st, Switch).current)
    {
      chunkSz.NothingContiguous();
      hide Index.Place, Contiguous, Count, Cell, UnreadOf, Advance, Bytes;
      ghost var sizes := Sizes(st.queued);
      assert |sizes| == |st.queued|;
      var p := chunkSz.Consume(1);
      if p.None? {
        sz := curChunk;
        curChunk := 0;
      } else {
        sz := chunkSz.data[p.value];
        assert sz == chunkSz.data[p.value..p.value + 1][0] == sizes[..1][0];
        assert Sizes(st.queued)[1..] == Sizes(st.queued[1..]);
      }
    }

    // Pump one chunk of pending data into the new input block.
    method PumpChunk(next: array<byte>) returns (marker: nat)
      requires RingsValid() && pend != down && next.Length == BLOCK_SIZE && next != pend.data
      requires Reached(log, st) && Enabled(st, Switch) && PendingIs(st)
      modifies this`curChunk, chunkSz, pend, next
      ensures RingsValid() && PendingIs(Next(st, Switch))
      ensures marker == Size(Next(st, Switch).filled) <= BLOCK_SIZE
      ensures next[..marker] == Bytes(Next(st, Switch).filled)
      ensures old(pend.Contents()) == [] ==> pend.Idx() == old(pend.Idx())
    {
      SwitchBytesNow();
      var max := TakeChunk();
      marker := Pump(pend, next, max);
      assert next[..marker] == (next[..marker] + pend.Contents())[..marker];
      assert pend.Contents() == (next[..marker] + pend.Contents())[marker..];
    }

    lemma SwitchBytesNow()
      requires Reached(log, st) && Enabled(st, Switch)
      ensures var n := Next(st, Switch);
              && Size(n.filled) <= BLOCK_SIZE && Size(n.filled) <= |Bytes(Pending(st))|
              && Bytes(Pending(st))[..Size(n.filled)] == Bytes(n.filled)
              && Bytes(Pending(st))[Size(n.filled)..] == Bytes(Pending(n))
    {
      ReachedInv(log, st);
      SwitchBytes(st);
      SwitchKeepsInv(st);
    }

    // The part of a switch after the check: a new input block, the host's data, one pending chunk,
    // and the control register for the host.
    method Expose()
      requires Valid() && ctrl.blockLen == 0
      modifies Repr()
      ensures Valid()
      ensures Enabled(old(st), Switch) && st == Next(old(st), Switch) && log == old(log) + [Switch]
      ensures inBlock == Following(old(inBlock))
      ensures received == old(received)
      ensures Received(down, old(down.Contents()), old(Payload(ctrl.hostData, Mem(Out())[..])))
      ensures old(pend.Contents()) == [] ==> pend.Idx() == old(pend.Idx())
    {
      NothingExposed();
      var next := Mem(Out());
      TakeHostData(ctrl.hostData, next, down);
      var marker := PumpChunk(next);
      Publish(marker);
    }

    // Markers, block number and control register for the other block as input block.
    method Announce(marker: nat, ghost was: seq<Block>, ghost pumped: seq<Block>)
      requires Layout() && InputIs(was) && marker == Size(pumped) <= BLOCK_SIZE
      requires Mem(Out())[..marker] == Bytes(pumped)
      requires ctrl.hostConnect && inBlock < 0x1_0000_0000
      modifies this`markers, this`inBlock, this`ctrl
      ensures InputIs(pumped) && ExposedIs(was) && CtrlOk()
      ensures inBlock == Following(old(inBlock))
    {
      var prev := In();
      markers := markers[Out() := marker];
      inBlock := Following(inBlock);
      ctrl := Ctrl(ctrl.hostConnect, false, inBlock % (ID_MASK + 1), markers[prev] % (LEN_MASK + 1));
    }

    // The filled block becomes the exposed one, the other one the input block.
    method Publish(marker: nat)
      requires Layout() && RingsValid() && Reached(log, st) && Enabled(st, Switch)
      requires PendingIs(Next(st, Switch)) && InputIs(st.filled)
      requires marker == Size(Next(st, Switch).filled) <= BLOCK_SIZE
      requires Mem(Out())[..marker] == Bytes(Next(st, Switch).filled)
      requires ctrl.hostConnect && inBlock < 0x1_0000_0000 && received == Bytes(st.delivered)
      modifies this`markers, this`inBlock, this`ctrl, this`st, this`log
      ensures Valid()
      ensures st == Next(old(st), Switch) && log == old(log) + [Switch]
      ensures inBlock == Following(old(inBlock))
    {
      ReachedNext(log, st, Switch);
      Announce(marker, st.filled, Next(st, Switch).filled);
      st := Next(st, Switch);
      log := log + [Switch];
    }

    lemma NothingExposed()
      requires Valid() && ctrl.blockLen == 0
      ensures st.exposed == []
    {
      ReachedInv(log, st);
    }

    // esp_apptrace_trax_block_switch
    method SwitchBlock() returns (ok: bool)
      requires Valid()
      modifies Repr()
      ensures Valid()
      ensures ok ==> ctrl.blockId == (old(ctrl.blockId) + 1) % 128
      ensures ok <==> old(ctrl.blockLen) == 0
      ensures received == old(received)
      ensures ok ==> Enabled(old(st), Switch) && st == Next(old(st), Switch) && log == old(log) + [Switch]
      ensures ok ==> Received(down, old(down.Contents()), old(Payload(ctrl.hostData, Mem(Out())[..])))
      ensures !ok || old(pend.Contents()) == [] ==> pend.Idx() == old(pend.Idx())
      ensures !ok ==> unchanged(this, mem0, mem1, pend, chunkSz, down, pend.data, chunkSz.data, down.data)
    {
      if ctrl.hostConnect {
        if ctrl.blockLen != 0 || ctrl.blockId != inBlock % (ID_MASK + 1) {
          return false;
        }
      }
      NextId(inBlock);
      Expose();
      return true;
    }

    lemma ExposedIff()
      requires Valid()
      ensures ctrl.blockLen == 0 <==> st.exposed == []
      ensures pend.Contents() == [] <==> Pending(st) == []
    {
      ReachedInv(log, st);
      PendingBytesIff(st);
    }

    // A switch attempt as its callers see it.
    method Attempt() returns (ok: bool)
      requires Valid()
      modifies Repr()
      ensures Valid() && Allocated(log) == old(Allocated(log))
      ensures ok <==> old(st).exposed == []
      ensures received == old(received)
      ensures st == if ok then Next(old(st), Switch) else old(st)
      ensures !ok || Pending(old(st)) == [] ==> pend.Idx() == old(pend.Idx())
    {
      ExposedIff();
      if st.exposed == [] {
        ReachedNext(log, st, Switch);
        assert Allocated(log) + [] == Allocated(log);
      }
      ok := SwitchBlock();
    }

    method HostMoves(move: HostMove)
      requires Valid() && MoveOk(move)
      modifies this`ctrl, this`received, this`st, this`log, Mem(Out())
      ensures Valid() && Allocated(log) == old(Allocated(log))
      ensures st == if move.AckWith? then Next(old(st), Ack) else old(st)
      ensures |old(received)| <= |received|
    {
      if move.AckWith? {
        ReachedNext(log, st, Ack);
        assert Allocated(log) + [] == Allocated(log);
        HostAck(move.payload);
      }
    }

    // The attempt before any waiting.
    method FirstAttempt() returns (ok: bool)
      requires Valid()
      modifies Repr()
      ensures Valid() && Allocated(log) == old(Allocated(log))
      ensures ok <==> old(st).exposed == []
      ensures received == old(received)
      ensures st == if ok then AfterWait(old(st)) else old(st)
      ensures !ok || Pending(old(st)) == [] ==> pend.Idx() == old(pend.Idx())
    {
      if st.exposed == [] {
        AckNothing(st);
      }
      ok := Attempt();
    }

    // One turn of the waiting loop: the host acts, and the switch is attempted again.
    method MoveAndAttempt(move: HostMove) returns (ok: bool)
      requires Valid() && MoveOk(move) && st.exposed != []
      modifies Repr()
      ensures Valid() && Allocated(log) == old(Allocated(log))
      ensures ok <==> move.AckWith?
      ensures |old(received)| <= |received|
      ensures st == if ok then AfterWait(old(st)) else old(st)
      ensures !ok || Pending(old(st)) == [] ==> pend.Idx() == old(pend.Idx())
    {
      HostMoves(move);
      ok := Attempt();
    }

    // esp_apptrace_trax_block_switch_waitus: attempts until one succeeds or the time is up; the
    // host acts after every failed attempt, and `host` is as long as the time allows.
    method SwitchWait(host: seq<HostMove>) returns (ok: bool)
      requires Valid()
      requires HostOk(host)
      modifies Repr()
      ensures Valid() && Allocated(log) == old(Allocated(log))
      ensures ok <==> old(st).exposed == [] || Acks(host)
      ensures |old(received)| <= |received|
      ensures st == if ok then AfterWait(old(st)) else old(st)
      ensures !ok || Pending(old(st)) == [] ==> pend.Idx() == old(pend.Idx())
    {
      hide Valid, Next, Inv, Allocated, Pending, AfterWait, Index.Place;
      ghost var was, users, index := st, Allocated(log), pend.Idx();
      ok := FirstAttempt();
      var i := 0;
      while !ok && i < |host|
        invariant Valid() && i <= |host| && Allocated(log) == users
        invariant |old(received)| <= |received|
        invariant ok ==> was.exposed == [] || Acks(host)
        invariant !ok ==> was.exposed != [] && forall k :: 0 <= k < i ==> !host[k].AckWith?
        invariant st == if ok then AfterWait(was) else was
        invariant !ok || Pending(was) == [] ==> pend.Idx() == index
      {
        ok := MoveAndAttempt(host[i]);
        i := i + 1;
      }
    }

    // The user block goes directly behind the marker of the input block.
    method StoreInput(b: Block)
      requires Valid() && Enabled(st, ToInput(b))
      modifies this`markers, this`st, this`log, Mem(In())
      ensures Valid() && st == Next(old(st), ToInput(b)) && log == old(log) + [ToInput(b)]
      ensures Allocated(log) == old(Allocated(log)) + [b]
    {
      hide Inv, ValidRun, Exec, Index.Place, Bytes, Sizes;
      ReachedNext(log, st, ToInput(b));
      ToInputBytes(st, b);
      var marker := markers[In()];
      FillAt(Mem(In()), marker, b);
      markers := markers[In() := marker + |b|];
      st := Next(st, ToInput(b));
      log := log + [ToInput(b)];
    }

    // esp_apptrace_trax_pend_chunk_sz_update
    method UpdateChunk(size: nat, ghost s: State) returns (ok: bool)
      requires RingsValid() && chunkSz.Contents() == Sizes(s.queued) && curChunk == Size(s.current)
      modifies this`curChunk, chunkSz, chunkSz.data
      ensures RingsValid()
      ensures Size(s.current) + size <= BLOCK_SIZE ==>
                ok && chunkSz.Contents() == Sizes(s.queued) && curChunk == Size(s.current) + size
      ensures Size(s.current) + size > BLOCK_SIZE && ok ==>
                chunkSz.Contents() == Sizes(s.queued + [s.current]) && curChunk == size
      ensures ok <==> Size(s.current) + size <= BLOCK_SIZE || |s.queued| + 1 < chunkSz.data.Length
    {
      OneCell(chunkSz.Idx());
      if curChunk + size <= BLOCK_SIZE {
        curChunk := curChunk + size;
        ok := true;
      } else {
        ok := chunkSz.Put([curChunk]);
        if ok {
          curChunk := size;
          assert Sizes(s.queued + [s.current]) == Sizes(s.queued) + [Size(s.current)];
        }
      }
    }

    // esp_apptrace_rb_produce on the pending ring, the fill, and the chunk accounting.
    method PutPending(b: Block) returns (r: Outcome)
      requires RingsValid() && pend != down && Reached(log, st) && PendingIs(st) && Enabled(st, ToPending(b))
      modifies this`curChunk, pend, pend.data, chunkSz, chunkSz.data
      ensures r != Aborted ==> RingsValid()
      ensures r == Stored ==> PendingIs(Next(st, ToPending(b)))
      ensures r == NoMem ==> PendingIs(st) && pend.Idx() == old(pend.Idx())
      ensures r == NoMem <==> old(pend.Idx().Place(|b|).None?)
      ensures r == Aborted <==> old(pend.Idx().Place(|b|).Some?) && NoSlotFor(b)
      ensures r == Aborted ==> pend.data.Length > LeastBytes(chunkSz.data.Length + 1)
      ensures old(pend.rd) == 0 ==> pend.rd == 0
    {
      hide Inv, ValidRun, Exec, Index.Place, Bytes;
      ToPendingBytes(st, b);
      var ok := pend.Put(b);
      if !ok {
        return NoMem;
      }
      var slot := UpdateChunk(|b|, st);
      if !slot {
        NeverFull(pend.Idx());
        NoSlot(b);
        return Aborted;
      }
      return Stored;
    }

    /** A missing slot means that the capacity is one for which the slots do not suffice. */
    lemma NoSlot(b: Block)
      requires Reached(log, st) && Enabled(st, ToPending(b)) && chunkSz.data.Length <= |st.queued| + 1
      requires Size(st.current) + |b| > BLOCK_SIZE
      requires Size(Pending(Next(st, ToPending(b)))) < pend.data.Length
      ensures pend.data.Length > LeastBytes(chunkSz.data.Length + 1)
    {
      var n := Next(st, ToPending(b));
      ReachedInv(log, st);
      ToPendingKeepsInv(st, b);
      if pend.data.Length <= LeastBytes(chunkSz.data.Length + 1) {
        LeastBytesGrows(chunkSz.data.Length + 1, |st.queued| + 2);
        QueuedBound(n, |st.queued|);
      }
    }

    // The user block goes to the pending ring, if it has room.  The one thing that can go wrong
    // behind that is the missing slot for a chunk size.
    method StorePending(b: Block) returns (r: Outcome)
      requires Valid() && Enabled(st, ToPending(b))
      modifies this`curChunk, this`st, this`log, pend, pend.data, chunkSz, chunkSz.data
      ensures r != Aborted ==> Valid()
      ensures r == Stored ==> st == Next(old(st), ToPending(b)) && log == old(log) + [ToPending(b)]
      ensures r == Stored ==> Allocated(log) == old(Allocated(log)) + [b]
      ensures r == NoMem ==> st == old(st) && log == old(log) && pend.Idx() == old(pend.Idx())
      ensures r == NoMem <==> old(pend.Idx().Place(|b|).None?)
      ensures r == Aborted <==> old(pend.Idx().Place(|b|).Some?) && old(NoSlotFor(b))
      ensures r == Aborted ==> pend.data.Length > LeastBytes(chunkSz.data.Length + 1)
      ensures old(pend.rd) == 0 ==> pend.rd == 0
    {
      hide Inv, ValidRun, Exec, Index.Place, Bytes, Size;
      ReachedNext(log, st, ToPending(b));
      r := PutPending(b);
      if r == Stored {
        st := Next(st, ToPending(b));
        log := log + [ToPending(b)];
      }
    }

    lemma Choices(b: Block)
      requires Valid() && HEADER < |b| <= BLOCK_SIZE
      requires pend.Contents() != [] ==> st.exposed != []
      ensures pend.Contents() != [] || markers[In()] + |b| > BLOCK_SIZE ==> Enabled(st, ToPending(b))
      ensures pend.Contents() == [] && markers[In()] + |b| <= BLOCK_SIZE ==> Enabled(st, ToInput(b))
    {
      ReachedInv(log, st);
      WhereToStore(st, b);
    }

    /** The user block does not go to the input block. */
    ghost predicate Overflows(b: Block)
      reads this`st
    {
      Pending(st) != [] || Size(st.filled) + |b| > BLOCK_SIZE
    }

    /** What a refused user block meets: it has to go to the pending ring, which has no place for it, while the
        host has not acknowledged the exposed block. */
    ghost predicate NoPlace(b: Block)
      requires pend.Valid()
      reads this`st, pend
    {
      Overflows(b) && pend.Idx().Place(|b|).None? && st.exposed != []
    }

    /** There is no slot for the size of the chunk that the user block would close. */
    ghost predicate NoSlotFor(b: Block)
      reads this`st
    {
      Size(st.current) + |b| > BLOCK_SIZE && |st.queued| + 1 >= chunkSz.data.Length
    }

    // Where the user block goes once a switch has been tried.
    method Place(b: Block) returns (r: Outcome)
      requires Valid() && HEADER < |b| <= BLOCK_SIZE && (Pending(st) != [] ==> st.exposed != [])
      modifies this`curChunk, this`markers, this`st, this`log, pend, pend.data, chunkSz, chunkSz.data, Mem(In())
      ensures r != Aborted ==> Valid()
      ensures r == Stored ==> Allocated(log) == old(Allocated(log)) + [b]
      ensures r == Stored ==>
                var step := if old(Overflows(b)) then ToPending(b) else ToInput(b);
                Enabled(old(st), step) && st == Next(old(st), step)
      ensures r == NoMem ==> st == old(st) && Allocated(log) == old(Allocated(log)) && pend.Idx() == old(pend.Idx())
      ensures r == NoMem <==> old(Overflows(b)) && old(pend.Idx().Place(|b|).None?)
      ensures r == Aborted <==> old(Overflows(b)) && old(pend.Idx().Place(|b|).Some?) && old(NoSlotFor(b))
      ensures r == Aborted ==> pend.data.Length > LeastBytes(chunkSz.data.Length + 1)
      ensures r == Stored && !old(Overflows(b)) ==> pend.Idx() == old(pend.Idx())
      ensures r == Stored && old(pend.rd) == 0 ==> pend.rd == 0
    {
      ExposedIff();
      Choices(b);
      var pending := pend.ReadSize();
      if pending > 0 || markers[In()] + |b| > BLOCK_SIZE {
        r := StorePending(b);
      } else {
        StoreInput(b);
        r := Stored;
      }
    }

    // esp_apptrace_trax_wait4buf and what its callers do with the buffer.
    method WaitThenStore(b: Block, host: seq<HostMove>) returns (r: Outcome)
      requires Valid() && HEADER < |b| <= BLOCK_SIZE && HostOk(host)
      requires Overflows(b) && pend.Idx().Place(|b|).None?
      modifies Repr()
      ensures r != Aborted ==> Valid()
      ensures |old(received)| <= |received|
      ensures r == Stored ==> Allocated(log) == old(Allocated(log)) + [b]
      ensures r == Stored ==> old(st).exposed == [] || Acks(host)
      ensures r == NoMem ==> Allocated(log) == old(Allocated(log)) && NoPlace(b)
      ensures r == NoMem ==> st == if old(st).exposed == [] || Acks(host) then AfterWait(old(st)) else old(st)
      ensures r == Aborted ==> pend.data.Length > LeastBytes(chunkSz.data.Length + 1)
      ensures r == Aborted ==> old(st).exposed == [] || Acks(host)
    {
      hide Valid, Next, Inv, Allocated, AfterWait, Index.Place;
      OverflowsExposes(b);
      var switched := SwitchWait(host);
      if !switched {
        return NoMem;
      }
      r := Place(b);
    }

    /** With a user block that does not fit, the input block is not empty, and a switch exposes something. */
    lemma OverflowsExposes(b: Block)
      requires Valid() && |b| <= BLOCK_SIZE && Overflows(b)
      ensures st.filled != [] && AfterWait(st).exposed != []
      ensures st.exposed == [] ==> Next(st, Switch).exposed != []
    {
      ReachedInv(log, st);
      if st.filled == [] {
        EmptyInputMeansEmptyRing(st);
      }
    }

    // The first switch attempt of esp_apptrace_trax_get_buffer: only when there is pending data.
    method TrySwitch()
      requires Valid()
      modifies Repr()
      ensures Valid() && Allocated(log) == old(Allocated(log))
      ensures received == old(received)
      ensures st == Tried(old(st)) && (Pending(st) != [] ==> st.exposed != [])
      ensures st == old(st) ==> pend.Idx() == old(pend.Idx())
    {
      ExposedIff();
      ReachedInv(log, st);
      if st.filled == [] {
        EmptyInputMeansEmptyRing(st);
      }
      var pending := pend.ReadSize();
      if pending > 0 {
        // part or all of the pending data is pumped if the attempt succeeds
        var _ := Attempt();
      }
    }

    // esp_apptrace_trax_get_buffer, the fill and esp_apptrace_trax_put_buffer of one user block.
    // `host` is what the host does while the target waits.
    method Store(b: Block, host: seq<HostMove>) returns (r: Outcome)
      requires Valid() && HEADER < |b| <= BLOCK_SIZE
      requires HostOk(host)
      modifies Repr()
      ensures r != Aborted ==> Valid()
      ensures |old(received)| <= |received|
      ensures r == Stored ==> Allocated(log) == old(Allocated(log)) + [b]
      ensures r == NoMem ==> Allocated(log) == old(Allocated(log)) && NoPlace(b)
      ensures r == NoMem ==> st == Refused(old(st), host)
      ensures r == Aborted ==> pend.data.Length > LeastBytes(chunkSz.data.Length + 1)
      ensures !old(Overflows(b)) ==>
                r == Stored && st == Next(old(st), ToInput(b)) && pend.Idx() == old(pend.Idx())
      ensures old(Overflows(b)) && old(st).exposed != [] && old(pend.Idx().Place(|b|).Some?) ==>
                if old(NoSlotFor(b)) then r == Aborted
                else r == Stored && Enabled(old(st), ToPending(b)) && st == Next(old(st), ToPending(b))
                     && (old(pend.rd) == 0 ==> pend.rd == 0)
    {
      hide Valid, Next, Inv, Allocated, AfterWait, Index.Place;
      TrySwitch();
      r := Place(b);
      if r == NoMem {
        r := WaitThenStore(b, host);
      }
    }

    // esp_apptrace_trax_flush; `host[k]` is what the host does during the k-th wait.
    method Flush(minSz: nat, host: seq<seq<HostMove>>) returns (ok: bool)
      requires Valid() && forall k :: 0 <= k < |host| ==> HostOk(host[k])
      modifies Repr()
      ensures Valid() && Allocated(log) == old(Allocated(log))
      ensures |old(received)| <= |received|
      ensures ok <==> old(Size(st.filled)) < minSz || EnoughAcks(old(st), host)
      ensures ok && old(Size(st.filled)) >= minSz ==> st.filled == [] && Pending(st) == [] && pend.Contents() == []
      ensures ok && old(Size(st.filled)) >= minSz && old(st).filled != [] ==> st.exposed != []
      ensures Pending(old(st)) == [] ==> pend.Idx() == old(pend.Idx())
      ensures old(Size(st.filled)) < minSz ==> st == old(st)
    {
      if markers[In()] < minSz {
        return true;
      }
      ok := SwitchUntilEmpty(host);
    }

    method SwitchUntilEmpty(host: seq<seq<HostMove>>) returns (ok: bool)
      requires Valid() && forall k :: 0 <= k < |host| ==> HostOk(host[k])
      modifies Repr()
      ensures Valid() && Allocated(log) == old(Allocated(log))
      ensures |old(received)| <= |received|
      ensures ok <==> EnoughAcks(old(st), host)
      ensures ok ==> st.filled == [] && Pending(st) == [] && pend.Contents() == []
      ensures ok && old(st).filled != [] ==> st.exposed != []
      ensures Pending(old(st)) == [] ==> pend.Idx() == old(pend.Idx())
    {
      hide Valid, Next, Inv, Allocated, AfterWait, Index.Place, Switches, Pending, MoveOk;
      ghost var was, users, index := st, Allocated(log), pend.Idx();
      var i: nat := 0;
      NoneFilledNoSwitches();
      while markers[In()] > 0
        invariant Valid() && Allocated(log) == users && |old(received)| <= |received|
        invariant i + Switches(st) == Switches(was) && |markers| == 2
        invariant i == 0 ==> st == was
        invariant i > 0 ==> st.exposed != []
        invariant forall k :: 0 <= k < i ==> WaitSucceeds(was, host, k)
        invariant Pending(was) == [] ==> Pending(st) == [] && pend.Idx() == index
        decreases Switches(st)
      {
        var wait := if i < |host| then host[i] else [];
        var switched := SwitchOnce(wait);
        if !switched {
          assert !WaitSucceeds(was, host, i);
          return false;
        }
        assert WaitSucceeds(was, host, i);
        NoneFilledNoSwitches();
        i := i + 1;
      }
      NoneFilledNoSwitches();
      NothingFilled();
      return true;
    }

    // One turn of the flush loop.
    method SwitchOnce(wait: seq<HostMove>) returns (ok: bool)
      requires Valid() && HostOk(wait) && |markers| == 2 && markers[In()] > 0
      modifies Repr()
      ensures Valid() && Allocated(log) == old(Allocated(log))
      ensures |old(received)| <= |received|
      ensures ok <==> old(st).exposed == [] || Acks(wait)
      ensures old(Switches(st)) > 0
      ensures if ok then Switches(st) == old(Switches(st)) - 1 && st.exposed != [] else st == old(st)
      ensures Pending(old(st)) == [] ==> Pending(st) == [] && pend.Idx() == old(pend.Idx())
    {
      hide Valid, Next, Inv, Allocated, AfterWait, Index.Place;
      NoneFilledNoSwitches();
      WaitCounts(st);
      ok := SwitchWait(wait);
    }

    lemma NoneFilledNoSwitches()
      requires Valid()
      ensures |markers| == 2 && (markers[In()] > 0 <==> Switches(st) > 0) && Inv(st)
    {
      ReachedInv(log, st);
    }

    /** The chunk sizes in their ring and the accumulating one add up to the unread bytes of the pending ring; each
        is that of a chunk that fits a trace memory block; and there is pending data only behind a filled one. */
    lemma RingAccounting()
      requires Valid()
      ensures Sum(chunkSz.Contents()) + curChunk == |pend.Contents()|
      ensures forall k :: 0 <= k < |chunkSz.Contents()| ==> 0 < chunkSz.Contents()[k] <= BLOCK_SIZE
      ensures curChunk <= BLOCK_SIZE && |markers| == 2
      ensures pend.Contents() != [] ==> curChunk > 0 && markers[In()] > 0
    {
      ReachedInv(log, st);
      ChunkAccounting(st.queued, st.current);
      forall k | 0 <= k < |st.queued|
        ensures 0 < Size(st.queued[k]) <= BLOCK_SIZE
      {
        assert ChunkOk(st.queued[k]);
        SizeOfFirst(st.queued[k]);
      }
      if st.current != [] {
        SizeOfFirst(st.current);
      }
    }

    lemma NothingFilled()
      requires Valid() && |markers| == 2 && markers[In()] == 0
      ensures st.filled == [] && Pending(st) == [] && pend.Contents() == []
    {
      ReachedInv(log, st);
      EmptyInputMeansEmptyRing(st);
    }
  }

  /** After the first attempt of a store. */
  function Tried(s: State): State {
    if Pending(s) != [] && s.exposed == [] then Next(s, Switch) else s
  }

  /** After a refused store: the wait was used for a switch if the host let it. */
  function Refused(s: State, host: seq<HostMove>): State {
    var t := Tried(s);
    if t.exposed == [] || Acks(host) then AfterWait(t) else t
  }

  /** In the `k`-th wait of a flush the switch succeeds: nothing was exposed at first, or the host acknowledges. */
  predicate WaitSucceeds(s: State, host: seq<seq<HostMove>>, k: nat) {
    (k == 0 && s.exposed == []) || (k < |host| && Acks(host[k]))
  }

  /** Every wait that a flush needs succeeds. */
  predicate EnoughAcks(s: State, host: seq<seq<HostMove>>) {
    forall k :: 0 <= k < Switches(s) ==> WaitSucceeds(s, host, k)
  }

  /** The 32-bit block counter. */
  function Following(inBlock: nat): (n: nat)
    requires inBlock < 0x1_0000_0000
    ensures n < 0x1_0000_0000 && n % 2 == 1 - inBlock % 2
  {
    (inBlock + 1) % 0x1_0000_0000
  }

  lemma NextId(inBlock: nat)
    requires inBlock < 0x1_0000_0000
    ensures Following(inBlock) % (ID_MASK + 1) == (inBlock % (ID_MASK + 1) + 1) % 128
  {
  }

  /** `block_sz` of the header the host leaves in front of its data. */
  function HostSize(mem: seq<byte>): nat
    requires |mem| >= 2
  {
    (mem[0] as nat) + 256 * (mem[1] as nat)
  }
}
