/**
 What the CRC-7 of the SD bus is for: it is the remainder of a polynomial division, a message followed
 by its own CRC comes out as zero and by no other, and every burst of up to seven changed bits shows.
 */
module Crc7Code {

  import opened Crc7

  function Zeros(n: nat): (s: seq<bool>)
    ensures |s| == n
  {
    seq(n, i => false)
  }

  /** The seven bits of the register, highest first. */
  function Bits(r: Reg): seq<bool> {
    [r.r6, r.r5, r.r4, r.r3, r.r2, r.r1, r.r0]
  }

  // ---------------------------------------------------------------- the remainder of a division

  // Polynomials over the two-element field are sequences of coefficients, highest first.

  /** The coefficient at `i`, none outside the sequence. */
  function At(q: seq<bool>, i: int): bool {
    0 <= i < |q| && q[i]
  }

  /** Coefficient `i`, counted from the highest, of the product of `q` and x^7 + x^3 + 1: `q` moved up by
      seven, by three and by no places, added. */
  predicate Product(q: seq<bool>, i: int) {
    (At(q, i) != At(q, i - 4)) != At(q, i - 7)
  }

  /** From x^7 upwards the product of quotient and generator is the message times x^7. */
  predicate Quotient(message: seq<bool>, q: seq<bool>) {
    && |q| == |message|
    && forall i :: 0 <= i < |q| ==> message[i] == Product(q, i)
  }

  /** The product of quotient and generator below x^7. */
  function Low(q: seq<bool>): Reg {
    var n := |q|;
    Reg(Product(q, n), Product(q, n + 1), Product(q, n + 2), Product(q, n + 3), Product(q, n + 4),
        Product(q, n + 5), Product(q, n + 6))
  }

  /** Message times x^7 is quotient times generator plus a remainder of degree below 7. */
  predicate Division(message: seq<bool>, quotient: seq<bool>, remainder: Reg) {
    Quotient(message, quotient) && Low(quotient) == remainder
  }

  // The register in terms of the last seven bits fed back, the latest last.
  function Window(f7: bool, f6: bool, f5: bool, f4: bool, f3: bool, f2: bool, f1: bool): Reg {
    Reg(f4 != f7, f3 != f6, f2 != f5, f1 != f4, f3, f2, f1)
  }

  lemma WindowMoves(f7: bool, f6: bool, f5: bool, f4: bool, f3: bool, f2: bool, f1: bool, f0: bool)
    ensures BitStep(Window(f7, f6, f5, f4, f3, f2, f1), (f0 != f4) != f7) == Window(f6, f5, f4, f3, f2, f1, f0)
  {
  }

  lemma LowIsWindow(q: seq<bool>)
    ensures var n := |q|;
            Low(q) == Window(At(q, n - 7), At(q, n - 6), At(q, n - 5), At(q, n - 4), At(q, n - 3), At(q, n - 2), At(q, n - 1))
  {
  }

  lemma LowMoves(q: seq<bool>, f: bool)
    ensures Low(q + [f]) == BitStep(Low(q), Product(q + [f], |q|))
  {
    var n, q' := |q|, q + [f];
    LowIsWindow(q);
    LowIsWindow(q');
    WindowMoves(At(q, n - 7), At(q, n - 6), At(q, n - 5), At(q, n - 4), At(q, n - 3), At(q, n - 2), At(q, n - 1), f);
  }

  lemma QuotientOfPrefix(message: seq<bool>, b: bool, q: seq<bool>, f: bool)
    ensures Quotient(message + [b], q + [f]) <==> Quotient(message, q) && b == Product(q + [f], |q|)
  {
    var m', q' := message + [b], q + [f];
    if |q| == |message| {
      assert forall i :: 0 <= i < |q| ==> (Product(q', i) <==> Product(q, i)) && m'[i] == message[i];
      assert m'[|q|] == b;
    }
  }

  lemma {:induction false} RegisterIsLow(message: seq<bool>, q: seq<bool>)
    requires Quotient(message, q)
    ensures Feed(ZERO, message) == Low(q)
    decreases |message|
  {
    if message != [] {
      var n := |message| - 1;
      var m', q' := message[..n], q[..n];
      assert message == m' + [message[n]] && q == q' + [q[n]];
      QuotientOfPrefix(m', message[n], q', q[n]);
      RegisterIsLow(m', q');
      FeedLast(m', message[n]);
      LowMoves(q', q[n]);
    }
  }

  lemma FeedLast(bs: seq<bool>, b: bool)
    ensures Feed(ZERO, bs + [b]) == BitStep(Feed(ZERO, bs), b)
  {
    FeedConcat(ZERO, bs, [b]);
    assert [b][1..] == [];
  }

  /** The quotient is what the register feeds back. */
  lemma {:induction false} QuotientExists(message: seq<bool>) returns (q: seq<bool>)
    ensures Quotient(message, q)
    decreases |message|
  {
    if message == [] {
      q := [];
    } else {
      var n := |message| - 1;
      var q' := QuotientExists(message[..n]);
      var f := (message[n] != At(q', n - 4)) != At(q', n - 7);
      q := q' + [f];
      FeedsBack(q', f, message[n]);
      assert message == message[..n] + [message[n]];
      QuotientOfPrefix(message[..n], message[n], q', f);
    }
  }

  lemma FeedsBack(q: seq<bool>, f: bool, b: bool)
    requires f == ((b != At(q, |q| - 4)) != At(q, |q| - 7))
    ensures Product(q + [f], |q|) <==> b
  {
  }

  /** The register holds the remainder of the message times x^7 modulo the generator, and no other. */
  lemma RegisterIsRemainder(message: seq<bool>, r: Reg)
    ensures (exists q :: Division(message, q, r)) <==> r == Feed(ZERO, message)
  {
    var q := QuotientExists(message);
    RegisterIsLow(message, q);
    assert Division(message, q, Feed(ZERO, message));
    forall q | Division(message, q, r)
      ensures r == Feed(ZERO, message)
    {
      RegisterIsLow(message, q);
    }
  }

  // ---------------------------------------------------------------- linearity

  function Sum(a: seq<bool>, b: seq<bool>): (s: seq<bool>)
    requires |a| == |b|
    ensures |s| == |a|
  {
    seq(|a|, i requires 0 <= i < |a| => a[i] != b[i])
  }

  function Plus(r: Reg, s: Reg): Reg {
    Reg(r.r6 != s.r6, r.r5 != s.r5, r.r4 != s.r4, r.r3 != s.r3, r.r2 != s.r2, r.r1 != s.r1, r.r0 != s.r0)
  }

  lemma StepIsLinear(r: Reg, s: Reg, a: bool, b: bool)
    ensures BitStep(Plus(r, s), a != b) == Plus(BitStep(r, a), BitStep(s, b))
  {
  }

  lemma {:induction false} FeedIsLinear(r: Reg, s: Reg, a: seq<bool>, b: seq<bool>)
    requires |a| == |b|
    ensures Feed(Plus(r, s), Sum(a, b)) == Plus(Feed(r, a), Feed(s, b))
    decreases |a|
  {
    if a != [] {
      StepIsLinear(r, s, a[0], b[0]);
      FeedIsLinear(BitStep(r, a[0]), BitStep(s, b[0]), a[1..], b[1..]);
      assert Sum(a, b)[1..] == Sum(a[1..], b[1..]);
    }
  }

  // ---------------------------------------------------------------- which bits lead to zero

  /** A register that begins with the bits `bs` and is zero below them. */
  function Padded(bs: seq<bool>): Reg {
    Reg(At(bs, 0), At(bs, 1), At(bs, 2), At(bs, 3), At(bs, 4), At(bs, 5), At(bs, 6))
  }

  /** Up to seven bits bring the register to zero exactly when they are what it holds. */
  lemma {:induction false} ZeroAfter(r: Reg, bs: seq<bool>)
    requires |bs| <= 7
    ensures Feed(r, bs) == ZERO <==> r == Padded(bs)
    decreases |bs|
  {
    if bs != [] {
      ZeroAfter(BitStep(r, bs[0]), bs[1..]);
      assert forall i :: 0 <= i ==> At(bs[1..], i) == At(bs, i + 1);
    }
  }

  lemma {:induction false} ZerosKeepNonzero(r: Reg, n: nat)
    ensures Feed(r, Zeros(n)) == ZERO <==> r == ZERO
    decreases n
  {
    if n > 0 {
      assert Zeros(n)[1..] == Zeros(n - 1);
      ZerosKeepNonzero(BitStep(r, false), n - 1);
    }
  }

  lemma PaddedBits(r: Reg)
    ensures Padded(Bits(r)) == r
  {
  }

  lemma OneMoreZero(r: Reg)
    ensures Feed(r, [false]) == ZERO <==> r == ZERO
  {
    assert Zeros(1) == [false];
    ZerosKeepNonzero(r, 1);
  }

  /** A message, seven more bits and a zero give zero exactly when those bits are the message's CRC. */
  lemma OwnCrcGivesZero(message: seq<bool>, crc: Reg)
    ensures Feed(ZERO, message + Bits(crc) + [false]) == ZERO <==> crc == Feed(ZERO, message)
  {
    var bits := Bits(crc);
    FeedConcat(ZERO, message + bits, [false]);
    FeedConcat(ZERO, message, bits);
    OneMoreZero(Feed(ZERO, message + bits));
    PaddedBits(crc);
    ZeroAfter(Feed(ZERO, message), bits);
  }

  // ---------------------------------------------------------------- errors that show

  lemma PaddedZero(bs: seq<bool>)
    requires |bs| <= 7
    ensures Padded(bs) == ZERO <==> bs == Zeros(|bs|)
  {
    assert forall i :: 0 <= i < |bs| ==> bs[i] == At(bs, i);
    if Padded(bs) == ZERO {
      assert !At(bs, 0) && !At(bs, 1) && !At(bs, 2) && !At(bs, 3) && !At(bs, 4) && !At(bs, 5) && !At(bs, 6);
    }
  }

  /** Up to seven bits anywhere in an otherwise zero message show unless they are zero as well. */
  lemma BurstAloneShows(before: nat, burst: seq<bool>, after: nat)
    requires |burst| <= 7
    ensures Feed(ZERO, Zeros(before) + burst + Zeros(after)) == ZERO <==> burst == Zeros(|burst|)
  {
    FeedConcat(ZERO, Zeros(before) + burst, Zeros(after));
    FeedConcat(ZERO, Zeros(before), burst);
    ZerosKeepNonzero(ZERO, before);
    ZerosKeepNonzero(Feed(ZERO, burst), after);
    ZeroAfter(ZERO, burst);
    PaddedZero(burst);
  }

  lemma SumZeroIffSame(r: Reg, s: Reg)
    ensures Plus(r, s) == ZERO <==> r == s
  {
  }

  lemma SameCrcIff(a: seq<bool>, b: seq<bool>)
    requires |a| == |b|
    ensures Feed(ZERO, a) == Feed(ZERO, b) <==> Feed(ZERO, Sum(a, b)) == ZERO
  {
    FeedIsLinear(ZERO, ZERO, a, b);
    SumZeroIffSame(ZERO, ZERO);
    SumZeroIffSame(Feed(ZERO, a), Feed(ZERO, b));
  }

  lemma BurstSum(a: seq<bool>, b: seq<bool>, lo: nat, hi: nat)
    requires |a| == |b| && lo <= hi <= |a|
    requires forall i :: 0 <= i < |a| && !(lo <= i < hi) ==> a[i] == b[i]
    ensures Sum(a, b) == Zeros(lo) + Sum(a, b)[lo..hi] + Zeros(|a| - hi)
    ensures Sum(a, b)[lo..hi] == Zeros(hi - lo) ==> a == b
  {
    var e := Sum(a, b);
    assert e[..lo] == Zeros(lo);
    assert e[hi..] == Zeros(|a| - hi);
    assert e == e[..lo] + e[lo..hi] + e[hi..];
    if e[lo..hi] == Zeros(hi - lo) {
      forall i | 0 <= i < |a|
        ensures a[i] == b[i]
      {
        if lo <= i < hi {
          assert e[i] == e[lo..hi][i - lo];
        }
      }
    }
  }

  lemma BurstShowsBetween(a: seq<bool>, b: seq<bool>, lo: nat, hi: nat)
    requires |a| == |b| && a != b && lo <= hi <= |a| && hi - lo <= 7
    requires forall i :: 0 <= i < |a| && !(lo <= i < hi) ==> a[i] == b[i]
    ensures Feed(ZERO, a) != Feed(ZERO, b)
  {
    BurstSum(a, b, lo, hi);
    BurstAloneShows(lo, Sum(a, b)[lo..hi], |a| - hi);
    SameCrcIff(a, b);
  }

  /** Two messages that differ, all within seven consecutive bits, have different CRCs. */
  lemma BurstShows(a: seq<bool>, b: seq<bool>, k: nat)
    requires |a| == |b| && a != b
    requires forall i :: 0 <= i < |a| && !(k <= i < k + 7) ==> a[i] == b[i]
    ensures Feed(ZERO, a) != Feed(ZERO, b)
  {
    var n := |a|;
    BurstShowsBetween(a, b, if k <= n then k else n, if k + 7 <= n then k + 7 else n);
  }

  // ---------------------------------------------------------------- two flipped bits

  const TOP_ONE: Reg := Reg(true, false, false, false, false, false, false)

  /** The register after `n` zeros. */
  function Spin(r: Reg, n: nat): Reg {
    Feed(r, Zeros(n))
  }

  lemma SpinTwice(r: Reg, a: nat, b: nat)
    ensures Spin(r, a + b) == Spin(Spin(r, a), b)
  {
    assert Zeros(a + b) == Zeros(a) + Zeros(b);
    FeedConcat(r, Zeros(a), Zeros(b));
  }

  lemma SpinOnce(r: Reg, n: nat)
    requires n > 0
    ensures Spin(r, n) == Spin(BitStep(r, false), n - 1)
  {
    assert Zeros(n)[1..] == Zeros(n - 1);
  }

  lemma SpinIsLinear(r: Reg, s: Reg, n: nat)
    ensures Spin(Plus(r, s), n) == Plus(Spin(r, n), Spin(s, n))
  {
    assert Sum(Zeros(n), Zeros(n)) == Zeros(n);
    FeedIsLinear(r, s, Zeros(n), Zeros(n));
  }

  /** `a` steps are `b` steps and none, added: x^a is x^b + 1. */
  ghost predicate Folds(a: nat, b: nat) {
    forall r :: Spin(r, a) == Plus(Spin(r, b), r)
  }

  lemma ThreeSteps(r: Reg)
    ensures Spin(r, 3) == BitStep(BitStep(BitStep(r, false), false), false)
  {
    var r1 := BitStep(r, false);
    var r2 := BitStep(r1, false);
    SpinOnce(r, 3);
    SpinOnce(r1, 2);
    SpinOnce(r2, 1);
  }

  lemma FourSteps(r: Reg)
    ensures Spin(r, 4) == BitStep(BitStep(BitStep(BitStep(r, false), false), false), false)
  {
    SpinOnce(r, 4);
    ThreeSteps(BitStep(r, false));
  }

  lemma ThreeThenFour(r: Reg)
    ensures var t := BitStep(BitStep(BitStep(r, false), false), false);
            BitStep(BitStep(BitStep(BitStep(t, false), false), false), false) == Plus(t, r)
  {
  }

  /** The generator: x^7 is x^3 + 1. */
  lemma SevenSteps(r: Reg, t: Reg, u: Reg)
    requires t == Spin(r, 3) && u == Spin(r, 7)
    ensures u == Plus(t, r)
  {
    SpinTwice(r, 3, 4);
    ThreeSteps(r);
    FourSteps(t);
    ThreeThenFour(r);
  }

  lemma SevenFolds()
    ensures Folds(7, 3)
  {
    forall r
      ensures Spin(r, 7) == Plus(Spin(r, 3), r)
    {
      SevenSteps(r, Spin(r, 3), Spin(r, 7));
    }
  }

  lemma Cancels(a: Reg, b: Reg, c: Reg)
    ensures Plus(Plus(a, b), Plus(b, c)) == Plus(a, c)
  {
  }

  /** Squaring. */
  lemma DoubleFolds(a: nat, b: nat)
    requires Folds(a, b)
    ensures Folds(2 * a, 2 * b)
  {
    forall r
      ensures Spin(r, 2 * a) == Plus(Spin(r, 2 * b), r)
    {
      var s := Spin(r, b);
      SpinTwice(r, a, a);
      SpinTwice(r, b, b);
      assert Spin(r, a) == Plus(s, r);
      assert Spin(Plus(s, r), a) == Plus(Spin(Plus(s, r), b), Plus(s, r));
      SpinIsLinear(s, r, b);
      Cancels(Spin(s, b), s, r);
    }
  }

  lemma FoldBehind(r: Reg, a: nat, b: nat, n: nat)
    requires Folds(a, b)
    ensures Spin(r, n + a) == Plus(Spin(r, n + b), Spin(r, n))
  {
    SpinTwice(r, n, a);
    SpinTwice(r, n, b);
  }

  predicate Returns(n: nat) {
    Spin(TOP_ONE, n) == TOP_ONE
  }

  lemma LastFold(r3: Reg, r7: Reg, r15: Reg, r: Reg)
    requires r7 == Plus(r3, r)
    ensures Plus(Plus(Plus(r15, r3), r7), r15) == r
  {
  }

  lemma FourSevensFold(r: Reg, n: nat)
    requires n == 7
    ensures Spin(r, 3 + 4 * n) == Plus(Spin(r, 15), Spin(r, 3))
  {
    SevenFolds();
    DoubleFolds(n, 3);
    DoubleFolds(2 * n, 6);
    FoldBehind(r, 4 * n, 12, 3);
  }

  lemma FoldsOfEight(n: nat)
    requires n == 7
    ensures Folds(8 * n, 24)
  {
    SevenFolds();
    DoubleFolds(n, 3);
    DoubleFolds(2 * n, 6);
    DoubleFolds(4 * n, 12);
  }

  lemma EightSevensFold(r: Reg, n: nat)
    requires n == 7
    ensures Spin(r, n + 8 * n) == Plus(Spin(r, 3 + 4 * n), Spin(r, n))
  {
    FoldsOfEight(n);
    FoldBehind(r, 8 * n, 24, n);
  }

  lemma SixteenSevensFold(r: Reg, n: nat)
    requires n == 7
    ensures Spin(r, 15 + 16 * n) == Plus(Spin(r, n + 8 * n), Spin(r, 15))
  {
    FoldsOfEight(n);
    DoubleFolds(8 * n, 24);
    FoldBehind(r, 16 * n, 48, 15);
  }

  /** x^127 is x^63 + x^15, x^63 is x^31 + x^7, and x^31 is x^15 + x^3. */
  lemma AllReturn(r: Reg, n: nat)
    requires n == 7
    ensures Spin(r, 15 + 16 * n) == r
  {
    SixteenSevensFold(r, n);
    EightSevensFold(r, n);
    FourSevensFold(r, n);
    SevenFolds();
    assert Spin(r, n) == Plus(Spin(r, 3), r);
    LastFold(Spin(r, 3), Spin(r, n), Spin(r, 15), r);
  }

  lemma ReturnsAfterPeriod(n: nat)
    requires n == 127
    ensures Returns(n)
  {
    AllReturn(TOP_ONE, n - 120);
  }

  lemma OneLessOf(p: nat, q: nat, m: nat)
    requires q > 0
    ensures p * q + m == p + (p * (q - 1) + m)
  {
  }

  lemma {:induction false} ReturnsAfterMany(p: nat, q: nat, m: nat)
    requires Returns(p)
    ensures Returns(p * q + m) <==> Returns(m)
    decreases q
  {
    if q > 0 {
      hide Feed, Zeros;
      OneLessOf(p, q, m);
      SpinTwice(TOP_ONE, p, p * (q - 1) + m);
      ReturnsAfterMany(p, q - 1, m);
    }
  }

  lemma ReturnsModulo(n: nat, p: nat)
    requires p > 0 && Returns(p)
    ensures Returns(n) <==> Returns(n % p)
  {
    ReturnsAfterMany(p, n / p, n % p);
  }

  lemma NotADivisor(p: nat)
    requires 2 <= p < 127
    ensures 127 % p != 0
  {
    var k := 127 / p;
    assert p * k + 127 % p == 127;
    if p >= 12 {
      assert p * k >= 12 * k;
      assert k == 0 || k == 1 || k == 2 || k == 3 || k == 4 || k == 5 || k == 6 || k == 7 || k == 8 || k == 9 || k == 10;
    } else {
      assert p == 2 || p == 3 || p == 4 || p == 5 || p == 6 || p == 7 || p == 8 || p == 9 || p == 10 || p == 11;
    }
  }

  /** A return before 127 would come with a divisor of 127. */
  lemma {:induction false} NoEarlierReturn(p: nat, n: nat)
    requires 0 < p < n == 127
    ensures !Returns(p)
    decreases p
  {
    if p == 1 {
      SpinOnce(TOP_ONE, 1);
    } else {
      NotADivisor(p);
      NoEarlierReturn(n % p, n);
      if Returns(p) {
        ReturnsAfterPeriod(n);
        ReturnsModulo(n, p);
        assert false;
      }
    }
  }

  lemma ReturnsIff(n: nat)
    ensures Returns(n) <==> n % 127 == 0
  {
    var period := 127;
    ReturnsAfterPeriod(period);
    ReturnsModulo(n, period);
    if n % period > 0 {
      NoEarlierReturn(n % period, period);
    }
  }

  lemma TwoBitsAloneCancelIff(before: nat, d: nat, after: nat)
    requires d > 0
    ensures Feed(ZERO, Zeros(before) + [true] + Zeros(d - 1) + [true] + Zeros(after)) == ZERO <==> d % 127 == 0
  {
    var first := Zeros(before) + [true];
    var second := first + Zeros(d - 1);
    FeedConcat(ZERO, second + [true], Zeros(after));
    FeedConcat(ZERO, second, [true]);
    FeedConcat(ZERO, first, Zeros(d - 1));
    FeedConcat(ZERO, Zeros(before), [true]);
    ZerosKeepNonzero(ZERO, before);
    ZerosKeepNonzero(Feed(ZERO, second + [true]), after);
    ZeroAfter(Feed(ZERO, second), [true]);
    assert Padded([true]) == TOP_ONE;
    assert [true][1..] == [];
    assert Feed(ZERO, [true]) == BitStep(ZERO, true) == BitStep(TOP_ONE, false);
    SpinOnce(TOP_ONE, d);
    ReturnsIff(d);
  }

  lemma TwoBitSum(a: seq<bool>, b: seq<bool>, i: nat, j: nat)
    requires |a| == |b| && i < j < |a|
    requires forall k :: 0 <= k < |a| ==> (a[k] != b[k] <==> k == i || k == j)
    ensures Sum(a, b) == Zeros(i) + [true] + Zeros(j - i - 1) + [true] + Zeros(|a| - j - 1)
  {
    var e := Sum(a, b);
    assert e[..i] == Zeros(i);
    assert e[i + 1..j] == Zeros(j - i - 1);
    assert e[j + 1..] == Zeros(|a| - j - 1);
    assert e[i] && e[j];
    assert e == e[..i] + [e[i]] + e[i + 1..j] + [e[j]] + e[j + 1..];
  }

  /** Two messages that differ in exactly two bits have the same CRC exactly when the bits are a multiple
      of 127 places apart. */
  lemma TwoFlipsShowIff(a: seq<bool>, b: seq<bool>, i: nat, j: nat)
    requires |a| == |b| && i < j < |a|
    requires forall k :: 0 <= k < |a| ==> (a[k] != b[k] <==> k == i || k == j)
    ensures Feed(ZERO, a) == Feed(ZERO, b) <==> (j - i) % 127 == 0
  {
    SameCrcIff(a, b);
    TwoBitsAloneCancelIff(i, j - i, |a| - j - 1);
    TwoBitSum(a, b, i, j);
  }

  // ---------------------------------------------------------------- bytes

  /** `crc` is what `sdspi_crc7` gives for `data`. */
  predicate IsCrc(data: seq<bv8>, crc: bv8) {
    crc < 0x80 && RegOf(crc) == Feed(ZERO, MessageBits(data))
  }

  lemma ShiftedByteBits(crc: bv8)
    requires crc < 0x80
    ensures ByteBits(crc << 1) == Bits(RegOf(crc)) + [false]
  {
  }

  /** Sent as the protocol has it, in the upper seven bits of a byte after the message, a CRC makes the CRC of
      the whole zero; any other seven bits there do not. */
  lemma CheckByte(data: seq<bv8>, crc: bv8)
    requires crc < 0x80
    ensures IsCrc(data + [crc << 1], 0) <==> IsCrc(data, crc)
  {
    var all := data + [crc << 1];
    assert all[..|all| - 1] == data;
    ShiftedByteBits(crc);
    assert MessageBits(data) + (Bits(RegOf(crc)) + [false]) == MessageBits(data) + Bits(RegOf(crc)) + [false];
    OwnCrcGivesZero(MessageBits(data), RegOf(crc));
    assert RegOf(0) == ZERO;
  }
}
