/**
 Transmitting a list of items of any length through the circular item memory of an RMT channel:
 `rmt_write_items`, the threshold and end parts of the default interrupt handler, and the hardware
 that reads the memory.

 The memory has two halves.  Hardware raises a threshold interrupt each time it has read one half;
 the handler refills that half while hardware reads the other.  The timing assumption is that
 hardware does not enter a half again before its refill has been served.
 */
module RmtTransmit {

  /** An item with nonzero durations is positive; 0 is the stop item, at which hardware ends. */
  type Item = nat

  const STOP: Item := 0
  const ITEMS_PER_BLOCK: nat := 64     // RMT_MEM_ITEM_NUM

  ghost predicate AllItems(items: seq<Item>) {
    forall k :: 0 <= k < |items| ==> items[k] != STOP
  }

  /** What hardware has to find at position `p` of the stream. */
  function Stream(items: seq<Item>, p: nat): Item {
    if p < |items| then items[p] else STOP
  }

  class Channel {
    const mem: array<Item>
    const half: nat
    // driver state
    var items: seq<Item>
    var txData: nat                    // index of the next item to copy
    var txLenRem: nat
    var txOffset: nat
    var txSubLen: nat
    // hardware state
    var addr: nat                      // next cell to read
    var sent: seq<Item>
    var running: bool
    // stream position of the oldest cell that has not been refilled
    ghost var base: nat

    ghost predicate Layout()
    {
      mem.Length == 2 * half && half > 0
    }

    /** Nothing is being sent, and the state left by the end interrupt. */
    ghost predicate Idle()
      reads this
    {
      Layout() && !running && addr == 0 && txOffset == 0 && txSubLen == 0 && txLenRem == 0
    }

    /** The cell of stream position `p`. */
    ghost function CellOf(p: nat): int
      reads this
    {
      var d := txOffset + (p - base);
      if d < 2 * half then d else d - 2 * half
    }

    /** The next positions up to the stop item are in memory, as far as two halves reach. */
    ghost predicate Loaded()
      requires Layout()
      reads this, mem
    {
      forall p: nat :: base <= p < base + 2 * half && |sent| <= p <= |items| ==>
                         0 <= CellOf(p) < 2 * half && mem[CellOf(p)] == Stream(items, p)
    }

    /** A transmission is under way. */
    ghost predicate Busy()
      reads this, mem
    {
      && Layout() && running && AllItems(items)
      && sent <= items && base <= |sent| <= base + 2 * half
      && addr == CellOf(|sent|)
      && (txOffset == 0 || txOffset == half)
      && Loaded()
      && txData + txLenRem == |items|
      && (if txSubLen == half then txData == if base + 2 * half <= |items| then base + 2 * half else |items|
          else txSubLen == 0 && base == 0 && txOffset == 0 && txLenRem == 0 && |items| < 2 * half)
    }

    constructor (blocks: nat)
      requires blocks > 0
      ensures Idle() && half == blocks * ITEMS_PER_BLOCK / 2 && fresh(mem)
    {
      var h := blocks * ITEMS_PER_BLOCK / 2;
      half := h;
      mem := new Item[2 * h];
      items, sent := [], [];
      txData, txLenRem, txOffset, txSubLen, addr := 0, 0, 0, 0, 0;
      running := false;
      base := 0;
    }

    // rmt_fill_memory
    method Fill(from: nat, n: nat, offset: nat)
      requires Layout() && from + n <= |items| && offset + n <= 2 * half
      modifies mem
      ensures forall k :: 0 <= k < 2 * half ==>
                mem[k] == if offset <= k < offset + n then items[from + (k - offset)] else old(mem[k])
    {
      for i := 0 to n
        invariant forall k :: 0 <= k < 2 * half ==>
                    mem[k] == if offset <= k < offset + i then items[from + (k - offset)] else old(mem[k])
      {
        mem[offset + i] := items[from + i];
      }
    }

    // rmt_write_items up to the start of transmission
    method WriteItems(list: seq<Item>)
      requires Idle() && |list| > 0 && AllItems(list)
      modifies this, mem
      ensures Busy() && items == list && sent == []
    {
      items, sent := list, [];
      base := 0;
      if |list| >= 2 * half {
        Fill(0, 2 * half, 0);
        txData := 2 * half;
        txLenRem := |list| - 2 * half;
        txOffset := 0;
        txSubLen := half;
      } else {
        Fill(0, |list|, 0);
        mem[|list|] := STOP;
        txData := |list|;
        txLenRem := 0;
      }
      running := true;
    }

    // The threshold part of rmt_driver_isr_default: refill the half at txOffset ...
    method Refill()
      requires Busy() && |sent| >= base + half
      modifies this`txData, this`txLenRem, mem
      ensures txData + txLenRem == |items|
      ensures txSubLen == half ==> txData == if base + 3 * half <= |items| then base + 3 * half else |items|
      ensures txSubLen == 0 ==> txLenRem == 0
      ensures forall k :: 0 <= k < 2 * half && !(txOffset <= k < txOffset + txSubLen) ==> mem[k] == old(mem[k])
      ensures forall k :: txOffset <= k < txOffset + txSubLen && base + 2 * half + (k - txOffset) <= |items| ==>
                mem[k] == Stream(items, base + 2 * half + (k - txOffset))
    {
      if txLenRem >= txSubLen {
        Fill(txData, txSubLen, txOffset);
        txData := txData + txSubLen;
        txLenRem := txLenRem - txSubLen;
      } else if txLenRem == 0 {
        mem[txOffset] := STOP;
      } else {
        Fill(txData, txLenRem, txOffset);
        mem[txOffset + txLenRem] := STOP;
        txData := txData + txLenRem;
        txLenRem := 0;
      }
    }

    // ... and turn to the other half.
    method ThresholdIsr()
      requires Busy() && |sent| >= base + half
      modifies this`txData, this`txLenRem, this`base, this`txOffset, mem
      ensures Busy() && base == old(base) + txSubLen
    {
      Refill();
      ghost var from, offset := base, txOffset;
      base := base + txSubLen;
      txOffset := if txOffset == 0 then txSubLen else 0;
      forall p: nat | base <= p < base + 2 * half && |sent| <= p <= |items|
        ensures 0 <= CellOf(p) < 2 * half && mem[CellOf(p)] == Stream(items, p)
      {
        if p >= from + 2 * half {
          assert CellOf(p) == offset + (p - (from + 2 * half));
        }
      }
    }

    // Hardware reads the next item; the guard is the timing assumption.
    method HardwareReads()
      requires Busy() && |sent| < base + 2 * half
      modifies this`addr, this`sent, this`running
      ensures running ==> Busy() && |sent| == |old(sent)| + 1
      ensures !running ==> Layout() && sent == items
      ensures running || sent == old(sent)
    {
      var v := mem[addr];
      assert v == Stream(items, |sent|);
      if v == STOP {
        running := false;
      } else {
        sent := sent + [v];
        addr := if addr + 1 == 2 * half then 0 else addr + 1;
      }
    }

    // The end part of rmt_driver_isr_default.
    method EndIsr()
      requires Layout() && !running
      modifies this
      ensures Idle() && sent == old(sent)
    {
      addr := 0;
      txLenRem := 0;
      txOffset := 0;
      txSubLen := 0;
    }

    /** One transmission, with any interleaving of hardware and interrupts: `schedule` says at each
        point whether a pending threshold interrupt is served first; afterwards interrupts are served
        only when hardware would otherwise have to wait. */
    method Transmit(list: seq<Item>, schedule: seq<bool>)
      requires Idle() && |list| > 0 && AllItems(list)
      modifies this, mem
      ensures Idle() && sent == list
    {
      WriteItems(list);
      var i := 0;
      var threshold := half;         // hardware raises the next threshold interrupt here
      while running
        invariant items == list && (running ==> Busy()) && (!running ==> Layout() && sent == list)
        invariant running ==> threshold == base + half
        decreases running, |list| - |sent|, |sent| - base, |schedule| - i
      {
        var pendingIsr := threshold <= |sent|;
        var mayRead := |sent| < threshold + half;
        if pendingIsr && (!mayRead || (i < |schedule| && schedule[i])) {
          threshold := threshold + txSubLen;
          ThresholdIsr();
        } else {
          HardwareReads();
        }
        i := i + 1;
      }
      EndIsr();
    }
  }

  /** Any number of transmissions, one after the other, on a channel with any number of memory blocks:
      each list is sent exactly, in order, and ended by one stop item. */
  method TransmitAll(blocks: nat, lists: seq<seq<Item>>, schedules: seq<seq<bool>>) returns (out: seq<seq<Item>>)
    requires blocks > 0 && |schedules| == |lists|
    requires forall k :: 0 <= k < |lists| ==> |lists[k]| > 0 && AllItems(lists[k])
    ensures out == lists
  {
    var ch := new Channel(blocks);
    out := [];
    for k := 0 to |lists|
      invariant ch.Idle() && fresh(ch) && fresh(ch.mem)
      invariant out == lists[..k]
    {
      ch.Transmit(lists[k], schedules[k]);
      out := out + [ch.sent];
    }
  }
}
