/**
 The divider and frequency arithmetic of the LED PWM timers: `ledc_set_timer_div`, `ledc_get_freq`.
 */
module LedcTimer {
  import opened Basics

  const APB_CLK_HZ := 80_000_000
  const REF_CLK_HZ := 1_000_000
  const DIV_NUM_MAX := 0x3FFFF
  const DIV_NUM_MIN := 256
  const WORD := 0x1_0000_0000

  /** `clk_cfg`: the driver chooses between two clocks, or the caller names one by its frequency. */
  datatype ClockChoice = Auto | Given(hz: nat)

  datatype Setting = Set(clockHz: nat, divider: nat) | Refused

  // The 64-bit quotient stored in a 32-bit variable.
  function DivParam(clockHz: nat, freqHz: nat, precision: nat): nat
    requires freqHz > 0 && precision > 0
  {
    clockHz * 256 / freqHz / precision % WORD
  }

  predicate InRange(divider: nat) {
    DIV_NUM_MIN <= divider <= DIV_NUM_MAX
  }

  // ledc_set_timer_div
  function SetTimerDiv(choice: ClockChoice, freqHz: nat, precision: nat): Setting
    requires freqHz > 0 && precision > 0
  {
    match choice
    case Auto =>
      var apb := DivParam(APB_CLK_HZ, freqHz, precision);
      if apb > DIV_NUM_MAX then
        var ref := DivParam(REF_CLK_HZ, freqHz, precision);
        if InRange(ref) then Set(REF_CLK_HZ, ref) else Refused
      else if apb < DIV_NUM_MIN then Refused
      else Set(APB_CLK_HZ, apb)
    case Given(hz) =>
      var d := DivParam(hz, freqHz, precision);
      if InRange(d) then Set(hz, d) else Refused
  }

  // ledc_get_freq
  function GetFreq(clockHz: nat, divider: nat, precision: nat): nat
    requires divider > 0 && precision > 0
  {
    clockHz * 256 / precision / divider
  }

  // ---------------------------------------------------------------- nested quotients

  /** A floor quotient is the only number whose products enclose the dividend. */
  lemma QuotientIff(n: nat, a: nat, q: nat)
    requires a > 0
    ensures n / a == q <==> a * q <= n < a * (q + 1)
  {
    assert a * (n / a) <= n < a * (n / a + 1);
    if a * q <= n < a * (q + 1) {
      DivMod(q, n - a * q, a, n);
    }
  }

  lemma AtLeastIff(n: nat, k: nat, q: nat)
    requires k > 0
    ensures n / k >= q <==> k * q <= n
  {
    QuotientIff(n, k, n / k);
    if n / k >= q {
      MulMonotone(k, q, n / k);
    } else {
      MulMonotone(k, n / k + 1, q);
    }
  }

  /** Dividing twice is dividing by the product. */
  lemma NestedQuotient(n: nat, a: nat, b: nat)
    requires a > 0 && b > 0
    ensures a * b > 0 && n / a / b == n / (a * b)
  {
    var q := n / a;
    var r := q / b;
    QuotientIff(n, a, q);
    QuotientIff(q, b, r);
    MulMonotone(a, b * r, q);
    MulMonotone(a, q + 1, b * (r + 1));
    assert a * b * r == a * (b * r) && a * b * (r + 1) == a * (b * (r + 1));
    MulMonotone(a, 1, b);
    QuotientIff(n, a * b, r);
  }

  // ---------------------------------------------------------------- reading back

  /** A clock whose quotients survive the 32-bit variable or are refused after losing their upper part. */
  predicate Harmless(clockHz: nat) {
    clockHz < 0x100_0000 || clockHz == 40_000_000 || clockHz == APB_CLK_HZ
  }

  lemma FitsWord(q: nat)
    requires q < WORD
    ensures q % WORD == q
  {
  }

  /** The 64-bit quotient. */
  function Quotient(clockHz: nat, k: nat): nat
    requires k > 0
  {
    clockHz * 256 / k
  }

  lemma TruncatedIsTooBig(clockHz: nat, k: nat)
    requires Harmless(clockHz) && k >= 2
    ensures Quotient(clockHz, k) >= WORD ==> Quotient(clockHz, k) % WORD > DIV_NUM_MAX
  {
    var n := clockHz * 256;
    AtLeastIff(n, k, WORD);
    if n / k >= WORD {
      assert 2 * WORD <= k * WORD <= n;
      assert k == 2 || k == 3 || k == 4;
    }
  }

  lemma DivParamOfProduct(clockHz: nat, freqHz: nat, precision: nat)
    requires freqHz > 0 && precision >= 2
    ensures freqHz * precision >= 2
    ensures DivParam(clockHz, freqHz, precision) == clockHz * 256 / (freqHz * precision) % WORD
  {
    NestedQuotient(clockHz * 256, freqHz, precision);
    MulMonotone(precision, 1, freqHz);
  }

  lemma InRangeIsWhole(clockHz: nat, k: nat, d: nat)
    requires Harmless(clockHz) && k >= 2 && d == Quotient(clockHz, k) % WORD && InRange(d)
    ensures d == Quotient(clockHz, k)
  {
    TruncatedIsTooBig(clockHz, k);
    hide Quotient, Harmless;
    WholeIf(Quotient(clockHz, k), d);
  }

  lemma WholeIf(q: nat, d: nat)
    requires d == q % WORD && InRange(d) && (q >= WORD ==> d > DIV_NUM_MAX)
    ensures d == q
  {
    FitsWord(q);
  }

  /** For those clocks a setting is never based on a truncated quotient. */
  lemma NoTruncatedSetting(clockHz: nat, freqHz: nat, precision: nat)
    requires Harmless(clockHz) && freqHz > 0 && precision >= 2
    ensures InRange(DivParam(clockHz, freqHz, precision)) ==>
              DivParam(clockHz, freqHz, precision) == clockHz * 256 / (freqHz * precision)
  {
    DivParamOfProduct(clockHz, freqHz, precision);
    hide DivParam, InRange, Harmless;
    var k, d := freqHz * precision, DivParam(clockHz, freqHz, precision);
    if InRange(d) {
      InRangeIsWhole(clockHz, k, d);
    }
  }

  /** A frequency that is set and read back on the same clock comes out no lower, and by less than one part in
      the divider higher: the error is below 1/256. */
  lemma ReadBack(clockHz: nat, freqHz: nat, precision: nat, divider: nat)
    requires freqHz > 0 && precision > 0 && divider >= DIV_NUM_MIN
    requires divider == clockHz * 256 / (freqHz * precision)
    ensures var g := GetFreq(clockHz, divider, precision);
            freqHz <= g && g * divider < freqHz * (divider + 1) && (g - freqHz) * 256 < freqHz
  {
    var n := clockHz * 256;
    var g := GetFreq(clockHz, divider, precision);
    MulMonotone(precision, 1, freqHz);
    NestedQuotient(n, precision, divider);
    QuotientIff(n, freqHz * precision, divider);
    QuotientIff(n, precision * divider, g);
    GoesInAtLeast(n, precision * divider, g, freqHz, freqHz * precision * divider);
    ErrorBelow(n, precision, divider, freqHz, g);
  }

  lemma GoesInAtLeast(n: nat, a: nat, q: nat, x: nat, p: nat)
    requires a > 0 && q == n / a && p == a * x <= n
    ensures x <= q
  {
    QuotientIff(n, a, q);
    if q < x {
      MulMonotone(a, q + 1, x);
    }
  }

  lemma ErrorBelow(n: nat, p: nat, d: nat, f: nat, g: nat)
    requires p > 0 && d >= 256 && f <= g
    requires p * d * g <= n < f * p * (d + 1)
    ensures g * d < f * (d + 1) && (g - f) * 256 < f
  {
    assert p * (d * g) < p * (f * (d + 1)) by {
      assert p * d * g == p * (d * g);
      assert f * p * (d + 1) == p * (f * (d + 1));
    }
    if d * g >= f * (d + 1) {
      MulMonotone(p, f * (d + 1), d * g);
    }
    assert d * g < f * d + f;
    assert d * (g - f) == d * g - f * d;
    MulMonotone(g - f, 256, d);
  }

  /** Every accepted setting reads back that way on the clock it chose. */
  lemma SettingReadsBack(choice: ClockChoice, freqHz: nat, precision: nat)
    requires freqHz > 0 && precision >= 2 && (choice.Given? ==> Harmless(choice.hz))
    ensures match SetTimerDiv(choice, freqHz, precision)
            case Refused => true
            case Set(clockHz, divider) =>
              && InRange(divider)
              && var g := GetFreq(clockHz, divider, precision);
                 freqHz <= g && g * divider < freqHz * (divider + 1) && (g - freqHz) * 256 < freqHz
  {
    var s := SetTimerDiv(choice, freqHz, precision);
    if s.Set? {
      NoTruncatedSetting(s.clockHz, freqHz, precision);
      ReadBack(s.clockHz, freqHz, precision, s.divider);
    }
  }

  // ---------------------------------------------------------------- what is accepted

  lemma ApbParam(k: nat)
    requires k >= 2
    ensures var d := APB_CLK_HZ * 256 / k % WORD;
            (d > DIV_NUM_MAX <==> k < 78126) && (d < DIV_NUM_MIN <==> k > APB_CLK_HZ)
  {
    var q := APB_CLK_HZ * 256 / k;
    TruncatedIsTooBig(APB_CLK_HZ, k);
    AtLeastIff(APB_CLK_HZ * 256, k, DIV_NUM_MIN);
    AtLeastIff(APB_CLK_HZ * 256, k, DIV_NUM_MAX + 1);
    if q < WORD {
      FitsWord(q);
    }
  }

  lemma RefParam(k: nat)
    requires 2 <= k <= REF_CLK_HZ
    ensures InRange(REF_CLK_HZ * 256 / k % WORD) <==> k >= 977
  {
    var q := REF_CLK_HZ * 256 / k;
    AtLeastIff(REF_CLK_HZ * 256, k, DIV_NUM_MIN);
    AtLeastIff(REF_CLK_HZ * 256, k, DIV_NUM_MAX + 1);
    AtLeastIff(REF_CLK_HZ * 256, k, WORD);
    FitsWord(q);
  }

  /** The automatic choice accepts exactly the frequencies whose product with the precision is between 977 and
      the faster clock, and takes the faster clock from 78126 on. */
  lemma AutoAcceptsIff(freqHz: nat, precision: nat)
    requires freqHz > 0 && precision >= 2
    ensures var s := SetTimerDiv(Auto, freqHz, precision);
            && (s.Set? <==> 977 <= freqHz * precision <= APB_CLK_HZ)
            && (s.Set? ==> s.clockHz == if freqHz * precision >= 78126 then APB_CLK_HZ else REF_CLK_HZ)
  {
    var k := freqHz * precision;
    MulMonotone(precision, 1, freqHz);
    NestedQuotient(APB_CLK_HZ * 256, freqHz, precision);
    NestedQuotient(REF_CLK_HZ * 256, freqHz, precision);
    ApbParam(k);
    if k < 78126 {
      RefParam(k);
    }
  }

  lemma NamedParam(hz: nat, k: nat)
    requires Harmless(hz) && k >= 2
    ensures InRange(Quotient(hz, k) % WORD) <==> k <= hz < 1024 * k
  {
    var n := hz * 256;
    AtLeastIff(n, k, DIV_NUM_MIN);
    AtLeastIff(n, k, DIV_NUM_MAX + 1);
    TruncatedIsTooBig(hz, k);
    hide Harmless;
    if Quotient(hz, k) < WORD {
      FitsWord(Quotient(hz, k));
    }
  }

  /** A named clock is taken for exactly the frequencies whose product with the precision is no more than its own
      frequency and more than a 1024th of it. */
  lemma NamedAcceptsIff(hz: nat, freqHz: nat, precision: nat)
    requires freqHz > 0 && precision >= 2 && Harmless(hz)
    ensures SetTimerDiv(Given(hz), freqHz, precision).Set? <==> freqHz * precision <= hz < 1024 * (freqHz * precision)
    ensures var s := SetTimerDiv(Given(hz), freqHz, precision); s.Set? ==> s.clockHz == hz
  {
    DivParamOfProduct(hz, freqHz, precision);
    hide Harmless;
    NamedParam(hz, freqHz * precision);
  }

  /** In numbers for the two clocks. */
  lemma NamedClocksAccept(freqHz: nat, precision: nat)
    requires freqHz > 0 && precision >= 2
    ensures SetTimerDiv(Given(APB_CLK_HZ), freqHz, precision).Set? <==> 78126 <= freqHz * precision <= 80_000_000
    ensures SetTimerDiv(Given(REF_CLK_HZ), freqHz, precision).Set? <==> 977 <= freqHz * precision <= 1_000_000
  {
    NamedAcceptsIff(APB_CLK_HZ, freqHz, precision);
    NamedAcceptsIff(REF_CLK_HZ, freqHz, precision);
    hide SetTimerDiv;
  }
}
