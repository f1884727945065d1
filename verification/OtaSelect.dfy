/**
 Selecting the application to boot: the two-sector otadata record, the search for the next sequence
 number on the device and in the host tool, and a switch that may lose power at any point.
 */
module OtaSelect {
  import opened Basics

  const U32: nat := 0x1_0000_0000
  const ERASED: nat := 0xFFFF_FFFF

  // ota_state values of an entry that must not boot
  const IMG_INVALID: nat := 3
  const IMG_ABORTED: nat := 4

  type Word = x: int | 0 <= x < 0x1_0000_0000
  type Crc = Word -> Word

  /** `esp_ota_select_entry_t` without its label; the CRC covers the sequence number only. */
  datatype Entry = Entry(seqNo: Word, state: Word, crc: Word)

  const BLANK: Entry := Entry(ERASED, ERASED, ERASED)

  datatype Boot = Default | Slot(n: nat)

  predicate Invalid(e: Entry) {
    e.seqNo == ERASED || e.state == IMG_INVALID || e.state == IMG_ABORTED
  }

  predicate ValidEntry(crc: Crc, e: Entry) {
    !Invalid(e) && e.crc == crc(e.seqNo)
  }

  // bootloader_common_get_active_otadata; -1 when neither entry is valid
  function Active(crc: Crc, e0: Entry, e1: Entry): int {
    var v0, v1 := ValidEntry(crc, e0), ValidEntry(crc, e1);
    if v0 && v1 then (if e0.seqNo >= e1.seqNo then 0 else 1)
    else if v0 then 0
    else if v1 then 1
    else -1
  }

  function SlotOf(seqNo: nat, count: nat): nat
    requires count > 0
  {
    (if seqNo == 0 then U32 - 1 else seqNo - 1) % count      // unsigned: 0 wraps
  }

  // esp_ota_get_boot_partition
  function GetBoot(crc: Crc, e0: Entry, e1: Entry, count: nat): Boot {
    if (Invalid(e0) && Invalid(e1)) || count == 0 then Default
    else
      var a := Active(crc, e0, e1);
      if a == -1 then Default
      else Slot(SlotOf(if a == 0 then e0.seqNo else e1.seqNo, count))
  }

  // ---------------------------------------------------------------- the next sequence number

  /** `s` is the first number from `seqNo` on that selects `slot`. */
  ghost predicate IsNextSeq(seqNo: nat, slot: nat, count: nat, s: nat)
    requires count > 0
  {
    && s >= seqNo && s % count == (slot + 1) % count
    && forall t :: seqNo <= t < s ==> t % count != (slot + 1) % count
  }

  lemma SlotOfResidue(s: nat, slot: nat, count: nat)
    requires 0 < s && slot < count
    ensures s % count == (slot + 1) % count <==> SlotOf(s, count) == slot
  {
    var q, r := (s - 1) / count, (s - 1) % count;
    assert s == q * count + (r + 1);
    if r + 1 == count {
      DivMod(q + 1, 0, count, s);
    } else {
      DivMod(q, r + 1, count, s);
    }
    if slot + 1 == count {
      DivMod(1, 0, count, slot + 1);
    } else {
      DivMod(0, slot + 1, count, slot + 1);
    }
  }

  /** For sequence numbers from 1 on, the least one not below `seqNo` whose slot is the requested one. */
  lemma NextSeqSelects(seqNo: nat, slot: nat, count: nat, s: nat)
    requires 1 <= seqNo && slot < count && IsNextSeq(seqNo, slot, count, s)
    ensures SlotOf(s, count) == slot
    ensures forall t :: seqNo <= t < s ==> SlotOf(t, count) != slot
  {
    SlotOfResidue(s, slot, count);
    forall t | seqNo <= t < s
      ensures SlotOf(t, count) != slot
    {
      SlotOfResidue(t, slot, count);
    }
  }

  /** Whether the number found from `seqNo` on selects the slot: it does unless it is 0 again. */
  predicate Selectable(seqNo: nat, slot: nat, count: nat)
    requires count > 0
  {
    seqNo > 0 || slot + 1 < count || U32 % count == 0
  }

  lemma NextSeqSelectsIff(seqNo: nat, slot: nat, count: nat, s: nat)
    requires slot < count && IsNextSeq(seqNo, slot, count, s)
    ensures SlotOf(s, count) == slot <==> Selectable(seqNo, slot, count)
    ensures SlotOf(s, count) == slot || s == seqNo
  {
    DivMod(0, 0, count, 0);
    DivMod(1, 0, count, count);
    assert 0 % count == count % count;
    if s > 0 {
      SlotOfResidue(s, slot, count);
    } else {
      if slot + 1 < count {
        DivMod(0, slot + 1, count, slot + 1);
      }
      LastSlotOfZero(count);
    }
  }

  /** The number 0 selects the last slot only if the number of slots divides 2^32. */
  lemma LastSlotOfZero(count: nat)
    requires count > 0
    ensures SlotOf(0, count) == count - 1 <==> U32 % count == 0
  {
    var q, r := (U32 - 1) / count, (U32 - 1) % count;
    if r == count - 1 {
      DivMod(q + 1, 0, count, U32);
    } else {
      DivMod(q, r + 1, count, U32);
    }
  }

  lemma NextSeqUnique(seqNo: nat, slot: nat, count: nat, s: nat, t: nat)
    requires count > 0 && IsNextSeq(seqNo, slot, count, s) && IsNextSeq(seqNo, slot, count, t)
    ensures s == t
  {
  }

  /** Numbers strictly between two neighbours of a residue class are not in it. */
  lemma BetweenNeighbours(r: nat, i: nat, count: nat, t: nat)
    requires r < count && r + i * count < t < r + (i + 1) * count
    ensures t % count != r
  {
    var d := t - (r + i * count);
    assert (i + 1) * count == i * count + count;
    if r + d < count {
      DivMod(i, r + d, count, t);
    } else {
      assert t == (i + 1) * count + (r + d - count);
      DivMod(i + 1, r + d - count, count, t);
    }
  }

  // The loop of esp_rewrite_ota_data, in 32-bit unsigned arithmetic, where nothing wraps.
  method NextSeqOnDevice(seqNo: Word, slot: nat, count: nat) returns (s: Word)
    requires slot < count <= 16 && seqNo + count <= ERASED
    ensures IsNextSeq(seqNo, slot, count, s)
    ensures s < seqNo + count || s < count
  {
    var r := (slot + 1) % count;
    var i: nat := 0;
    while seqNo > (r + i * count) % U32
      invariant i == 0 || r + (i - 1) * count < seqNo
      decreases seqNo - (r + i * count)
    {
      assert (i + 1) * count == i * count + count;
      i := i + 1;
    }
    s := (r + i * count) % U32;
    NextSeqFound(seqNo, slot, count, i);
  }

  lemma NextSeqFound(seqNo: nat, slot: nat, count: nat, i: nat)
    requires 0 < count && var r := (slot + 1) % count; seqNo <= r + i * count && (i == 0 || r + (i - 1) * count < seqNo)
    ensures IsNextSeq(seqNo, slot, count, (slot + 1) % count + i * count)
  {
    var r := (slot + 1) % count;
    var s := r + i * count;
    DivMod(i, r, count, s);
    forall t | seqNo <= t < s
      ensures t % count != r
    {
      if i > 0 {
        BetweenNeighbours(r, i - 1, count, t);
      } else {
        DivMod(0, t, count, t);
      }
    }
  }

  // What a switch needs of the number.
  method NumberForSlot(seqNo: Word, slot: nat, count: nat) returns (s: Word)
    requires slot < count <= 16 && seqNo + count <= ERASED
    ensures seqNo <= s < ERASED && IsNextSeq(seqNo, slot, count, s)
    ensures SlotOf(s, count) == slot <==> Selectable(seqNo, slot, count)
    ensures SlotOf(s, count) == slot || s == seqNo
  {
    s := NextSeqOnDevice(seqNo, slot, count);
    NextSeqSelectsIff(seqNo, slot, count, s);
  }

  // The loop of switch_ota_partition in the host tool, in unbounded integers.
  method NextSeqInTool(baseSeq: nat, targetSeq: nat, count: nat) returns (s: nat)
    requires 1 <= targetSeq <= count
    ensures IsNextSeq(baseSeq, targetSeq - 1, count, s)
  {
    var r := targetSeq % count;
    var i: nat := 0;
    while baseSeq > r + i * count
      invariant i == 0 || r + (i - 1) * count < baseSeq
      decreases baseSeq - (r + i * count)
    {
      assert (i + 1) * count == i * count + count;
      i := i + 1;
    }
    s := r + i * count;
    NextSeqFound(baseSeq, targetSeq - 1, count, i);
  }

  /** Device and host tool compute the same number. */
  method SameOnBothSides(seqNo: Word, slot: nat, count: nat) returns (device: nat, tool: nat)
    requires slot < count <= 16 && seqNo + count <= ERASED
    ensures device == tool
  {
    device := NextSeqOnDevice(seqNo, slot, count);
    tool := NextSeqInTool(seqNo, slot + 1, count);
    NextSeqUnique(seqNo, slot, count, device, tool);
  }

  // ---------------------------------------------------------------- a switch under power loss

  /** Beside a valid entry the other one decides exactly when it is valid and newer; of two valid entries
      with one number it does not matter which counts. */
  lemma DecisionBesideActive(crc: Crc, active: Entry, other: Entry, count: nat)
    requires count > 0 && ValidEntry(crc, active)
    ensures var seqNo := if ValidEntry(crc, other) && other.seqNo > active.seqNo then other.seqNo else active.seqNo;
            GetBoot(crc, active, other, count) == GetBoot(crc, other, active, count) == Slot(SlotOf(seqNo, count))
  {
  }

  /** The same when neither entry is valid and the first sector is written. */
  lemma DecisionWithoutActive(crc: Crc, first: Entry, second: Entry, slot: nat, count: nat)
    requires slot < count && !ValidEntry(crc, second)
    requires ValidEntry(crc, first) ==> first.seqNo == slot + 1
    ensures GetBoot(crc, first, second, count) == if ValidEntry(crc, first) then Slot(slot) else Default
  {
    if ValidEntry(crc, first) {
      DivMod(0, slot, count, slot);
    }
  }

  /** The active entry is the valid one with the greater number; 3 and 4 are the states that must not boot. */
  lemma ActiveIsNewer(crc: Crc, e0: Entry, e1: Entry)
    ensures var v0 := e0.seqNo != 0xFFFF_FFFF && e0.crc == crc(e0.seqNo) && e0.state !in {3, 4};
            var v1 := e1.seqNo != 0xFFFF_FFFF && e1.crc == crc(e1.seqNo) && e1.state !in {3, 4};
            match Active(crc, e0, e1)
            case 0 => v0 && (v1 ==> e0.seqNo >= e1.seqNo)
            case 1 => v1 && (v0 ==> e1.seqNo > e0.seqNo)
            case b => b == -1 && !v0 && !v1
  {
  }

  datatype Result = Ok | InvalidArg

  /** The entry `b` is kept, and the other one, or the first if there is none to keep, gets the next number that
      selects the slot, with its CRC. */
  ghost predicate Rewritten(crc: Crc, b: int, e0: Entry, e1: Entry, slot: nat, count: nat, n0: Entry, n1: Entry)
    requires count > 0
  {
    && (if b == 0 then n0 == e0 else n1 == e1)
    && var w := if b == 0 then n1 else n0;
       && w.crc == crc(w.seqNo)
       && if b == 0 then IsNextSeq(e0.seqNo, slot, count, w.seqNo)
          else if b == 1 then IsNextSeq(e1.seqNo, slot, count, w.seqNo)
          else w.seqNo == slot + 1
  }

  /** The otadata partition.  `power` is the number of flash operations before the power fails; a
      sector whose erase was interrupted reads as `torn`. */
  class OtaData {
    var sec0: Entry
    var sec1: Entry
    var power: nat
    const torn: Entry

    /** The sequence number of the active entry. */
    function ActiveSeq(crc: Crc): nat
      reads this`sec0, this`sec1
      requires Active(crc, sec0, sec1) != -1
    {
      if Active(crc, sec0, sec1) == 0 then sec0.seqNo else sec1.seqNo
    }

    function Boot(crc: Crc, count: nat): Boot
      reads this`sec0, this`sec1
    {
      GetBoot(crc, sec0, sec1, count)
    }

    method Put(i: nat, e: Entry)
      requires i < 2
      modifies this
      ensures power == if old(power) > 0 then old(power) - 1 else 0
      ensures sec0 == (if old(power) > 0 && i == 0 then e else old(sec0))
      ensures sec1 == (if old(power) > 0 && i == 1 then e else old(sec1))
    {
      if power > 0 {
        if i == 0 { sec0 := e; } else { sec1 := e; }
        power := power - 1;
      }
    }

    /** The content of the sector at each point of an erase and a write of `w`, word by word. */
    ghost predicate Stage(e: Entry, w: Entry) {
      e in {torn, BLANK, Entry(w.seqNo, ERASED, ERASED), Entry(w.seqNo, w.state, ERASED), w}
    }

    // esp_partition_erase_range and esp_partition_write on one sector
    method Rewrite(i: nat, w: Entry)
      requires i < 2
      modifies this
      ensures i == 0 ==> sec1 == old(sec1) && (sec0 == old(sec0) || Stage(sec0, w))
      ensures i == 1 ==> sec0 == old(sec0) && (sec1 == old(sec1) || Stage(sec1, w))
      ensures power > 0 ==> (if i == 0 then sec0 else sec1) == w
    {
      Put(i, torn);
      Put(i, BLANK);
      Put(i, Entry(w.seqNo, ERASED, ERASED));
      Put(i, Entry(w.seqNo, w.state, ERASED));
      Put(i, w);
    }

    // The sector next to the active one is rewritten with a number that is not lower.
    method RewriteBeside(crc: Crc, a: int, w: Entry, count: nat)
      requires count > 0 && a == Active(crc, sec0, sec1) && a != -1
      requires !ValidEntry(crc, torn) && ValidEntry(crc, w) && w.seqNo >= ActiveSeq(crc)
      modifies this
      ensures Boot(crc, count) == old(Boot(crc, count)) || Boot(crc, count) == Slot(SlotOf(w.seqNo, count))
      ensures power > 0 ==> Boot(crc, count) == Slot(SlotOf(w.seqNo, count))
      ensures if a == 0 then sec0 == old(sec0) && (power > 0 ==> sec1 == w) else sec1 == old(sec1) && (power > 0 ==> sec0 == w)
    {
      ghost var active := if a == 0 then sec0 else sec1;
      DecisionBesideActive(crc, active, torn, count);
      DecisionBesideActive(crc, active, BLANK, count);
      DecisionBesideActive(crc, active, Entry(w.seqNo, ERASED, ERASED), count);
      DecisionBesideActive(crc, active, Entry(w.seqNo, w.state, ERASED), count);
      DecisionBesideActive(crc, active, w, count);
      Rewrite(1 - a, w);
    }

    // The first sector is written while neither is valid.
    method RewriteFirst(crc: Crc, w: Entry, slot: nat, count: nat)
      requires slot < count && Active(crc, sec0, sec1) == -1
      requires !ValidEntry(crc, torn) && ValidEntry(crc, w) && w.seqNo == slot + 1
      modifies this
      ensures Boot(crc, count) == old(Boot(crc, count)) || Boot(crc, count) == Slot(slot)
      ensures power > 0 ==> Boot(crc, count) == Slot(slot)
      ensures sec1 == old(sec1) && (power > 0 ==> sec0 == w)
    {
      DecisionWithoutActive(crc, sec0, sec1, slot, count);
      DecisionWithoutActive(crc, torn, sec1, slot, count);
      DecisionWithoutActive(crc, BLANK, sec1, slot, count);
      DecisionWithoutActive(crc, Entry(w.seqNo, ERASED, ERASED), sec1, slot, count);
      DecisionWithoutActive(crc, Entry(w.seqNo, w.state, ERASED), sec1, slot, count);
      DecisionWithoutActive(crc, w, sec1, slot, count);
      Rewrite(0, w);
    }

    /** Rewriting the sector that is not active, or the first one when none is: wherever the power
        fails, the decision is the old or the requested one, and after completion it is the requested
        one, except when the number found is 0 again.  A half-erased sector does not count as valid, and
        the number found must not wrap. */
    method RewriteOtaData(crc: Crc, slot: nat, count: nat, newState: Word) returns (r: Result)
      requires count <= 16 && newState != IMG_INVALID && newState != IMG_ABORTED
      requires !ValidEntry(crc, torn)
      requires var a := Active(crc, sec0, sec1); a != -1 ==> ActiveSeq(crc) <= ERASED - count
      modifies this
      ensures r == InvalidArg <==> slot >= count
      ensures r == InvalidArg ==> sec0 == old(sec0) && sec1 == old(sec1)
      ensures Boot(crc, count) == old(Boot(crc, count)) || Boot(crc, count) == Slot(slot)
      ensures r == Ok && power > 0 ==>
                (Boot(crc, count) == Slot(slot)
                 <==> old(Active(crc, sec0, sec1)) == -1 || Selectable(old(ActiveSeq(crc)), slot, count))
      ensures r == Ok && power > 0 ==>
                Rewritten(crc, old(Active(crc, sec0, sec1)), old(sec0), old(sec1), slot, count, sec0, sec1)
                && (if old(Active(crc, sec0, sec1)) == 0 then sec1 else sec0).state == newState
    {
      if slot >= count {
        return InvalidArg;
      }
      hide IsNextSeq, GetBoot, SlotOf, Selectable;
      var a := Active(crc, sec0, sec1);
      if a != -1 {
        var seqNo := if a == 0 then sec0.seqNo else sec1.seqNo;
        var s := NumberForSlot(seqNo, slot, count);
        RewriteBeside(crc, a, Entry(s, newState, crc(s)), count);
      } else {
        RewriteFirst(crc, Entry(slot + 1, newState, crc(slot + 1)), slot, count);
      }
      r := Ok;
    }
  }

  // ---------------------------------------------------------------- where the promise ends

  /** Three slots and an active sequence number of 0: a completed switch to the last slot writes 0 again,
      and the device boots the first slot. */
  lemma SequenceZeroFails(crc: Crc, active: Entry, newState: Word)
    requires ValidEntry(crc, active) && active.seqNo == 0
    requires newState != IMG_INVALID && newState != IMG_ABORTED
    ensures IsNextSeq(0, 2, 3, 0)
    ensures GetBoot(crc, active, Entry(0, newState, crc(0)), 3) == Slot(0)
  {
  }

  // is_otadata_info_valid of the host tool: the state is not looked at
  predicate ToolValid(crc: Crc, e: Entry) {
    e.seqNo < ERASED && e.crc == crc(e.seqNo)
  }

  predicate MayBoot(e: Entry) {
    e.state != IMG_INVALID && e.state != IMG_ABORTED
  }

  // otadata_compute_base
  function ToolBase(crc: Crc, e0: Entry, e1: Entry): int {
    var v0, v1 := ToolValid(crc, e0), ToolValid(crc, e1);
    if v0 && v1 then (if e0.seqNo >= e1.seqNo then 0 else 1)
    else if v0 then 0
    else if v1 then 1
    else -1
  }

  /** The tool goes by the valid entry with the greater number, whatever its state. */
  lemma ToolBaseIsNewer(crc: Crc, e0: Entry, e1: Entry)
    ensures var v0 := e0.seqNo != 0xFFFF_FFFF && e0.crc == crc(e0.seqNo);
            var v1 := e1.seqNo != 0xFFFF_FFFF && e1.crc == crc(e1.seqNo);
            match ToolBase(crc, e0, e1)
            case 0 => v0 && (v1 ==> e0.seqNo >= e1.seqNo)
            case 1 => v1 && (v0 ==> e1.seqNo > e0.seqNo)
            case b => b == -1 && !v0 && !v1
  {
  }

  lemma ToolValidIff(crc: Crc, e: Entry)
    ensures ValidEntry(crc, e) <==> ToolValid(crc, e) && MayBoot(e)
  {
  }

  /** What has to hold for a switch by the host tool: the sector it writes keeps its state, which must be one
      that boots, and the number must select the slot; otherwise the base entry alone decides. */
  predicate ToolSwitchWorks(crc: Crc, e0: Entry, e1: Entry, slot: nat, count: nat)
    requires count > 0
  {
    var b := ToolBase(crc, e0, e1);
    if b == -1 then MayBoot(e0)
    else
      var base, other := if b == 0 then e0 else e1, if b == 0 then e1 else e0;
      if MayBoot(other) then Selectable(base.seqNo, slot, count)
      else MayBoot(base) && SlotOf(base.seqNo, count) == slot
  }

  // The computation and the write of switch_ota_partition: the number and the CRC of one sector change.
  method ToolSwitch(crc: Crc, e0: Entry, e1: Entry, slot: nat, count: nat) returns (n0: Entry, n1: Entry)
    requires slot < count <= 16
    requires var b := ToolBase(crc, e0, e1); b != -1 ==> (if b == 0 then e0 else e1).seqNo <= ERASED - count
    ensures GetBoot(crc, n0, n1, count) == Slot(slot) <==> ToolSwitchWorks(crc, e0, e1, slot, count)
    ensures n0.state == e0.state && n1.state == e1.state
    ensures Rewritten(crc, ToolBase(crc, e0, e1), e0, e1, slot, count, n0, n1)
  {
    n0, n1 := e0, e1;
    var b := ToolBase(crc, e0, e1);
    if b != -1 {
      var baseSeq := if b == 0 then e0.seqNo else e1.seqNo;
      var s := NextSeqInTool(baseSeq, slot + 1, count);
      NextSeqBelow(baseSeq, slot, count, s);
      if b == 0 {
        n1 := e1.(seqNo := s, crc := crc(s));
        ToolBesideBase(crc, e0, e1, s, slot, count);
      } else {
        n0 := e0.(seqNo := s, crc := crc(s));
        ToolBesideBase(crc, e1, e0, s, slot, count);
      }
    } else {
      n0 := e0.(seqNo := slot + 1, crc := crc(slot + 1));
      ToolValidIff(crc, n0);
      ToolValidIff(crc, e1);
      DecisionWithoutActive(crc, n0, e1, slot, count);
    }
  }

  /** From the same two entries the device and the tool rewrite the same sector with the same number, unless a state
      does not let an entry boot. */
  lemma ToolWritesAsDevice(crc: Crc, e0: Entry, e1: Entry, slot: nat, count: nat, d0: Entry, d1: Entry, t0: Entry, t1: Entry)
    requires slot < count && MayBoot(e0) && MayBoot(e1)
    requires Rewritten(crc, Active(crc, e0, e1), e0, e1, slot, count, d0, d1)
    requires Rewritten(crc, ToolBase(crc, e0, e1), e0, e1, slot, count, t0, t1)
    ensures if Active(crc, e0, e1) == 0 then d0 == t0 && d1.seqNo == t1.seqNo && d1.crc == t1.crc
            else d1 == t1 && d0.seqNo == t0.seqNo && d0.crc == t0.crc
  {
    ActiveIsNewer(crc, e0, e1);
    ToolBaseIsNewer(crc, e0, e1);
    if Active(crc, e0, e1) == 0 {
      NextSeqUnique(e0.seqNo, slot, count, d1.seqNo, t1.seqNo);
    } else if Active(crc, e0, e1) == 1 {
      NextSeqUnique(e1.seqNo, slot, count, d0.seqNo, t0.seqNo);
    }
  }

  /** The number found is less than the number of slots ahead. */
  lemma NextSeqBelow(seqNo: nat, slot: nat, count: nat, s: nat)
    requires count > 0 && IsNextSeq(seqNo, slot, count, s)
    ensures s < seqNo + count
  {
    if s >= seqNo + count {
      var q, r := s / count, s % count;
      assert s - count == (q - 1) * count + r;
      DivMod(q - 1, r, count, s - count);
    }
  }

  lemma ToolBesideBase(crc: Crc, base: Entry, other: Entry, s: Word, slot: nat, count: nat)
    requires slot < count && ToolValid(crc, base) && s < ERASED && IsNextSeq(base.seqNo, slot, count, s)
    ensures var written := other.(seqNo := s, crc := crc(s));
            var works := if MayBoot(other) then Selectable(base.seqNo, slot, count)
                         else MayBoot(base) && SlotOf(base.seqNo, count) == slot;
            && (GetBoot(crc, base, written, count) == Slot(slot) <==> works)
            && (GetBoot(crc, written, base, count) == Slot(slot) <==> works)
  {
    var written := other.(seqNo := s, crc := crc(s));
    NextSeqSelectsIff(base.seqNo, slot, count, s);
    ToolValidIff(crc, base);
    ToolValidIff(crc, written);
    if MayBoot(base) {
      DecisionBesideActive(crc, base, written, count);
    } else if MayBoot(other) {
      DecisionBesideActive(crc, written, base, count);
    }
  }

  /** After a rollback both sectors can hold states that do not boot; the tool's switch is then without effect,
      and the device falls back to its default. */
  lemma ToolSwitchAfterRollback(crc: Crc)
    ensures var base, other := Entry(1, IMG_ABORTED, crc(1)), Entry(ERASED, IMG_INVALID, ERASED);
            && ToolBase(crc, base, other) == 0 && IsNextSeq(1, 0, 2, 1)
            && GetBoot(crc, base, other.(seqNo := 1, crc := crc(1)), 2) == Default
  {
  }
}
