/**
 The table-driven CRC-7 of the SD bus: `sdspi_crc7`.  The generator is x^7 + x^3 + 1 (section 4.5 of
 the SD Physical Layer Simplified Specification).
 */
module Crc7 {

  // ---------------------------------------------------------------- the shift register, bit by bit

  /** The shift register, highest place first. */
  datatype Reg = Reg(r6: bool, r5: bool, r4: bool, r3: bool, r2: bool, r1: bool, r0: bool)

  const ZERO: Reg := Reg(false, false, false, false, false, false, false)

  /** One step of the shift register of the generator: the outgoing bit and the incoming one are the
      feedback to places 0 and 3. */
  function BitStep(r: Reg, b: bool): Reg {
    var feedback := r.r6 != b;
    Reg(r.r5, r.r4, r.r3, r.r2 != feedback, r.r1, r.r0, feedback)
  }

  /** The register after a sequence of bits. */
  function Feed(r: Reg, bs: seq<bool>): Reg
    decreases |bs|
  {
    if bs == [] then r else Feed(BitStep(r, bs[0]), bs[1..])
  }

  lemma {:induction false} FeedConcat(r: Reg, a: seq<bool>, b: seq<bool>)
    ensures Feed(r, a + b) == Feed(Feed(r, a), b)
    decreases |a|
  {
    if a == [] {
      assert a + b == b;
    } else {
      assert (a + b)[1..] == a[1..] + b;
      FeedConcat(BitStep(r, a[0]), a[1..], b);
    }
  }

  function Iterate<T>(f: T -> T, x: T, n: nat): T
    decreases n
  {
    if n == 0 then x else Iterate(f, f(x), n - 1)
  }

  /** The bits that `top` shows while `shift` moves through `d`. */
  function Shown<D>(top: D -> bool, shift: D -> D, d: D, n: nat): (s: seq<bool>)
    ensures |s| == n
    decreases n
  {
    if n == 0 then [] else [top(d)] + Shown(top, shift, shift(d), n - 1)
  }

  /** The eight bits of a byte, highest first. */
  function ByteBits(d: bv8): (s: seq<bool>)
    ensures |s| == 8
  {
    Shown(TopBit, ShiftLeft, d, 8)
  }

  function TopBit(d: bv8): bool {
    d & 0x80 != 0
  }

  function ShiftLeft(d: bv8): bv8 {
    d << 1
  }

  function MessageBits(msg: seq<bv8>): (s: seq<bool>)
    ensures |s| == 8 * |msg|
  {
    if msg == [] then [] else MessageBits(msg[..|msg| - 1]) + ByteBits(msg[|msg| - 1])
  }

  // ---------------------------------------------------------------- the table and the loop

  function Pick(lo: bv8, v0: bv8, v1: bv8, v2: bv8, v3: bv8, v4: bv8, v5: bv8, v6: bv8, v7: bv8, v8: bv8, v9: bv8, v10: bv8, v11: bv8, v12: bv8, v13: bv8, v14: bv8, v15: bv8): bv8
  {
    if lo == 0 then v0
    else if lo == 1 then v1
    else if lo == 2 then v2
    else if lo == 3 then v3
    else if lo == 4 then v4
    else if lo == 5 then v5
    else if lo == 6 then v6
    else if lo == 7 then v7
    else if lo == 8 then v8
    else if lo == 9 then v9
    else if lo == 10 then v10
    else if lo == 11 then v11
    else if lo == 12 then v12
    else if lo == 13 then v13
    else if lo == 14 then v14
    else v15
  }

  /** `crc7_table`, sixteen entries a row. */
  function Table(x: bv8): bv8 {
    var hi, lo := x & 0xF0, x & 0x0F;
    if hi == 0x00 then Pick(lo, 0x00, 0x09, 0x12, 0x1b, 0x24, 0x2d, 0x36, 0x3f, 0x48, 0x41, 0x5a, 0x53, 0x6c, 0x65, 0x7e, 0x77)
    else if hi == 0x10 then Pick(lo, 0x19, 0x10, 0x0b, 0x02, 0x3d, 0x34, 0x2f, 0x26, 0x51, 0x58, 0x43, 0x4a, 0x75, 0x7c, 0x67, 0x6e)
    else if hi == 0x20 then Pick(lo, 0x32, 0x3b, 0x20, 0x29, 0x16, 0x1f, 0x04, 0x0d, 0x7a, 0x73, 0x68, 0x61, 0x5e, 0x57, 0x4c, 0x45)
    else if hi == 0x30 then Pick(lo, 0x2b, 0x22, 0x39, 0x30, 0x0f, 0x06, 0x1d, 0x14, 0x63, 0x6a, 0x71, 0x78, 0x47, 0x4e, 0x55, 0x5c)
    else if hi == 0x40 then Pick(lo, 0x64, 0x6d, 0x76, 0x7f, 0x40, 0x49, 0x52, 0x5b, 0x2c, 0x25, 0x3e, 0x37, 0x08, 0x01, 0x1a, 0x13)
    else if hi == 0x50 then Pick(lo, 0x7d, 0x74, 0x6f, 0x66, 0x59, 0x50, 0x4b, 0x42, 0x35, 0x3c, 0x27, 0x2e, 0x11, 0x18, 0x03, 0x0a)
    else if hi == 0x60 then Pick(lo, 0x56, 0x5f, 0x44, 0x4d, 0x72, 0x7b, 0x60, 0x69, 0x1e, 0x17, 0x0c, 0x05, 0x3a, 0x33, 0x28, 0x21)
    else if hi == 0x70 then Pick(lo, 0x4f, 0x46, 0x5d, 0x54, 0x6b, 0x62, 0x79, 0x70, 0x07, 0x0e, 0x15, 0x1c, 0x23, 0x2a, 0x31, 0x38)
    else if hi == 0x80 then Pick(lo, 0x41, 0x48, 0x53, 0x5a, 0x65, 0x6c, 0x77, 0x7e, 0x09, 0x00, 0x1b, 0x12, 0x2d, 0x24, 0x3f, 0x36)
    else if hi == 0x90 then Pick(lo, 0x58, 0x51, 0x4a, 0x43, 0x7c, 0x75, 0x6e, 0x67, 0x10, 0x19, 0x02, 0x0b, 0x34, 0x3d, 0x26, 0x2f)
    else if hi == 0xa0 then Pick(lo, 0x73, 0x7a, 0x61, 0x68, 0x57, 0x5e, 0x45, 0x4c, 0x3b, 0x32, 0x29, 0x20, 0x1f, 0x16, 0x0d, 0x04)
    else if hi == 0xb0 then Pick(lo, 0x6a, 0x63, 0x78, 0x71, 0x4e, 0x47, 0x5c, 0x55, 0x22, 0x2b, 0x30, 0x39, 0x06, 0x0f, 0x14, 0x1d)
    else if hi == 0xc0 then Pick(lo, 0x25, 0x2c, 0x37, 0x3e, 0x01, 0x08, 0x13, 0x1a, 0x6d, 0x64, 0x7f, 0x76, 0x49, 0x40, 0x5b, 0x52)
    else if hi == 0xd0 then Pick(lo, 0x3c, 0x35, 0x2e, 0x27, 0x18, 0x11, 0x0a, 0x03, 0x74, 0x7d, 0x66, 0x6f, 0x50, 0x59, 0x42, 0x4b)
    else if hi == 0xe0 then Pick(lo, 0x17, 0x1e, 0x05, 0x0c, 0x33, 0x3a, 0x21, 0x28, 0x5f, 0x56, 0x4d, 0x44, 0x7b, 0x72, 0x69, 0x60)
    else Pick(lo, 0x0e, 0x07, 0x1c, 0x15, 0x2a, 0x23, 0x38, 0x31, 0x46, 0x4f, 0x54, 0x5d, 0x62, 0x6b, 0x70, 0x79)
  }

  // The register kept one place to the left, as the table's index has it.
  function LeftStep(x: bv8): bv8 {
    var out := x >> 7;
    (x << 1) ^ (out << 1) ^ (out << 4)
  }

  function LeftSteps(x: bv8, n: nat): bv8 {
    Iterate(LeftStep, x, n)
  }

  function EightLeftSteps(x: bv8): bv8 {
    LeftStep(LeftStep(LeftStep(LeftStep(LeftStep(LeftStep(LeftStep(LeftStep(x))))))))
  }

  lemma TableLowHalf(x: bv8)
    requires x < 0x80
    ensures Table(x) == EightLeftSteps(x) >> 1
  {
  }

  lemma TableHighHalf(x: bv8)
    requires x >= 0x80
    ensures Table(x) == EightLeftSteps(x) >> 1
  {
  }

  lemma EightIsEight(x: bv8)
    ensures LeftSteps(x, 8) == EightLeftSteps(x)
  {
    var x2 := LeftStep(LeftStep(x));
    var x4 := LeftStep(LeftStep(x2));
    var x6 := LeftStep(LeftStep(x4));
    assert LeftSteps(x, 8) == LeftSteps(x2, 6);
    assert LeftSteps(x2, 6) == LeftSteps(x4, 4);
    assert LeftSteps(x4, 4) == LeftSteps(x6, 2);
  }

  /** Every one of the 256 entries of the table is eight steps of the register. */
  lemma TableIsEightSteps()
    ensures forall x :: Table(x) == LeftSteps(x, 8) >> 1
  {
    forall x
      ensures Table(x) == LeftSteps(x, 8) >> 1
    {
      EightIsEight(x);
      if x < 0x80 {
        TableLowHalf(x);
      } else {
        TableHighHalf(x);
      }
    }
  }

  /** The register in a byte below 0x80. */
  function RegOf(x: bv8): Reg {
    Reg(x & 0x40 != 0, x & 0x20 != 0, x & 0x10 != 0, x & 0x08 != 0, x & 0x04 != 0, x & 0x02 != 0, x & 0x01 != 0)
  }

  // One bit step on the register in a byte, with the top bit of `d`.
  function StepByte(r: bv8, d: bv8): bv8 {
    var feedback := (r >> 6) ^ (d >> 7);
    ((r << 1) & 0x7F) ^ feedback ^ (feedback << 3)
  }

  /** The index of the lookup: register and byte together. */
  function Index(r: bv8, d: bv8): bv8 {
    (r << 1) ^ d
  }

  predicate Aligned(x: bv8, r: bv8, d: bv8) {
    r < 0x80 && x == Index(r, d)
  }

  lemma StepByteIsBitStep(r: bv8, d: bv8)
    requires r < 0x80
    ensures StepByte(r, d) < 0x80
    ensures RegOf(StepByte(r, d)) == BitStep(RegOf(r), TopBit(d))
  {
  }

  lemma LeftStepKeepsAligned(x: bv8, r: bv8, d: bv8)
    requires Aligned(x, r, d)
    ensures Aligned(LeftStep(x), StepByte(r, d), ShiftLeft(d))
  {
  }

  /** If one step keeps a register aligned with a word and its remaining byte, so do `n` steps, and
      the register is fed what the byte shows. */
  lemma {:induction false} StepsInLockstep<X, R, D>(
      step: X -> X, regStep: (R, D) -> R, shift: D -> D, top: D -> bool, reg: R -> Reg, aligned: (X, R, D) -> bool,
      x: X, r: R, d: D, n: nat) returns (r': R)
    requires forall x, r, d :: aligned(x, r, d) ==>
               aligned(step(x), regStep(r, d), shift(d)) && reg(regStep(r, d)) == BitStep(reg(r), top(d))
    requires aligned(x, r, d)
    ensures aligned(Iterate(step, x, n), r', Iterate(shift, d, n))
    ensures reg(r') == Feed(reg(r), Shown(top, shift, d, n))
    decreases n
  {
    if n == 0 {
      r' := r;
    } else {
      r' := StepsInLockstep(step, regStep, shift, top, reg, aligned, step(x), regStep(r, d), shift(d), n - 1);
      assert Shown(top, shift, d, n)[1..] == Shown(top, shift, shift(d), n - 1);
    }
  }

  /** `v` is the register `r` after the byte `d`. */
  predicate FedByte(r: bv8, d: bv8, v: bv8) {
    v < 0x80 && RegOf(v) == Feed(RegOf(r), ByteBits(d))
  }

  lemma LeftStepsFollowRegister()
    ensures forall x, r, d :: Aligned(x, r, d) ==>
              Aligned(LeftStep(x), StepByte(r, d), ShiftLeft(d)) && RegOf(StepByte(r, d)) == BitStep(RegOf(r), TopBit(d))
  {
    forall x, r, d | Aligned(x, r, d)
      ensures Aligned(LeftStep(x), StepByte(r, d), ShiftLeft(d)) && RegOf(StepByte(r, d)) == BitStep(RegOf(r), TopBit(d))
    {
      StepByteIsBitStep(r, d);
      LeftStepKeepsAligned(x, r, d);
    }
  }

  lemma EightLeftStepsFeed(r: bv8, d: bv8) returns (r': bv8)
    requires r < 0x80
    ensures Aligned(LeftSteps(Index(r, d), 8), r', Iterate(ShiftLeft, d, 8))
    ensures RegOf(r') == Feed(RegOf(r), ByteBits(d))
  {
    LeftStepsFollowRegister();
    r' := StepsInLockstep(LeftStep, StepByte, ShiftLeft, TopBit, RegOf, Aligned, Index(r, d), r, d, 8);
  }

  lemma LookupFeedsByte(r: bv8, d: bv8)
    requires r < 0x80
    ensures FedByte(r, d, LeftSteps(Index(r, d), 8) >> 1)
  {
    var r' := EightLeftStepsFeed(r, d);
    EightShiftsClear(d);
    NothingLeft(r');
  }

  lemma NothingLeft(r: bv8)
    requires r < 0x80
    ensures Index(r, 0) >> 1 == r
  {
  }

  lemma EightShiftsClear(d: bv8)
    ensures Iterate(ShiftLeft, d, 8) == 0
  {
    var d2 := ShiftLeft(ShiftLeft(d));
    var d4 := ShiftLeft(ShiftLeft(d2));
    var d6 := ShiftLeft(ShiftLeft(d4));
    assert Iterate(ShiftLeft, d, 8) == Iterate(ShiftLeft, d2, 6);
    assert Iterate(ShiftLeft, d2, 6) == Iterate(ShiftLeft, d4, 4);
    assert Iterate(ShiftLeft, d4, 4) == Iterate(ShiftLeft, d6, 2);
  }

  lemma TableFeedsBytes()
    ensures forall r, d :: r < 0x80 ==> FedByte(r, d, Table(Index(r, d)))
  {
    TableIsEightSteps();
    forall r, d | r < 0x80
      ensures FedByte(r, d, Table(Index(r, d)))
    {
      LookupFeedsByte(r, d);
    }
  }

  // The loop of sdspi_crc7 over a table.
  method CrcByTable(table: bv8 -> bv8, data: seq<bv8>) returns (result: bv8)
    requires forall r, d :: r < 0x80 ==> FedByte(r, d, table(Index(r, d)))
    ensures result < 0x80 && RegOf(result) == Feed(ZERO, MessageBits(data))
  {
    result := 0;
    for i := 0 to |data|
      invariant result < 0x80 && RegOf(result) == Feed(ZERO, MessageBits(data[..i]))
    {
      assert data[..i + 1][..i] == data[..i];
      FeedConcat(ZERO, MessageBits(data[..i]), ByteBits(data[i]));
      assert FedByte(result, data[i], table(Index(result, data[i])));
      result := table(Index(result, data[i]));
    }
    assert data[..|data|] == data;
  }

  // sdspi_crc7
  method Crc7OfMessage(data: seq<bv8>) returns (result: bv8)
    ensures result < 0x80 && RegOf(result) == Feed(ZERO, MessageBits(data))
  {
    TableFeedsBytes();
    result := CrcByTable(Table, data);
  }
}
