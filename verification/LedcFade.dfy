/**
 The fades of the LED PWM channels: `_ledc_set_fade_with_step`, `_ledc_set_fade_with_time` and
 `ledc_fade_isr`, with the hardware that moves the duty.
 */
module LedcFade {
  import opened Basics

  const STEP_NUM_MAX := 1023
  const CYCLE_NUM_MAX := 1023
  const SCALE_MAX := 1023
  const DUTIES := 0x10_0000         // with the highest resolution, 20 bits
  const WORD := 0x1_0000_0000

  function Min(a: nat, b: nat): nat {
    if a < b then a else b
  }

  function Distance(a: nat, b: nat): nat {
    if a < b then b - a else a - b
  }

  function Times(n: nat, s: nat): nat
    decreases n
  {
    if n == 0 then 0 else s + Times(n - 1, s)
  }

  lemma TimesOne(n: nat)
    ensures Times(n, 1) == n
  {
    TimesIsProduct(n, 1);
  }

  lemma {:induction false} TimesIsProduct(n: nat, s: nat)
    ensures Times(n, s) == n * s
    decreases n
  {
    if n > 0 {
      TimesIsProduct(n - 1, s);
      assert n * s == s + (n - 1) * s;
    }
  }

  // ---------------------------------------------------------------- counting segments

  /** The whole steps that go into one segment. */
  function StepsIn(left: nat, scale: nat): nat
    requires scale > 0
  {
    Min(left / scale, STEP_NUM_MAX)
  }

  /** What one segment leaves of a distance `left`: as many whole steps as a segment holds, or all of it when it
      is no more than one step. */
  function AfterSegment(left: nat, scale: nat): (r: nat)
    requires scale > 0
    ensures left > 0 ==> r < left
  {
    if left > scale then
      StepsFit(left, scale);
      left - Times(StepsIn(left, scale), scale)
    else 0
  }

  lemma StepsFit(left: nat, scale: nat)
    requires scale > 0
    ensures Times(StepsIn(left, scale), scale) <= left
    ensures StepsIn(left, scale) == 0 <==> left < scale
    ensures left == scale ==> StepsIn(left, scale) == 1
  {
    TimesIsProduct(StepsIn(left, scale), scale);
    MulMonotone(scale, StepsIn(left, scale), left / scale);
    if left >= scale {
      assert left / scale >= 1;
    }
    if left == scale {
      assert left / scale == 1;
    }
  }

  /** Whole steps, if there is one to make, and the rest are the distance. */
  lemma SegmentAndRest(left: nat, scale: nat)
    requires scale > 0
    ensures StepsIn(left, scale) == 0 <==> left < scale
    ensures left >= scale ==> Times(StepsIn(left, scale), scale) + AfterSegment(left, scale) == left
    ensures left <= scale ==> AfterSegment(left, scale) == 0
  {
    StepsFit(left, scale);
  }

  /** The segments it takes to cover a distance. */
  function Segments(left: nat, scale: nat): nat
    requires scale > 0
    decreases left
  {
    if left == 0 then 0 else 1 + Segments(AfterSegment(left, scale), scale)
  }

  function DivUp(n: nat, d: nat): nat
    requires d > 0
  {
    (n + d - 1) / d
  }

  lemma MoreSteps(rest: nat, scale: nat, k: nat)
    requires scale > 0
    ensures (rest + k * scale) / scale == rest / scale + k && (rest + k * scale) % scale == rest % scale
  {
    var q, m := rest / scale, rest % scale;
    assert rest + k * scale == (q + k) * scale + m by {
      assert rest == q * scale + m;
    }
    DivMod(q + k, m, scale, rest + k * scale);
  }

  lemma StepsTaken(left: nat, scale: nat, k: nat)
    requires scale > 0 && Times(k, scale) <= left
    ensures left / scale == (left - Times(k, scale)) / scale + k
    ensures (left - Times(k, scale)) % scale == left % scale
  {
    TimesIsProduct(k, scale);
    MoreSteps(left - Times(k, scale), scale, k);
  }

  lemma OneSegmentLess(q: nat, k: nat)
    requires q > 0 && k == Min(q, STEP_NUM_MAX)
    ensures DivUp(q, STEP_NUM_MAX) == 1 + DivUp(q - k, STEP_NUM_MAX)
  {
  }

  function Counted(q: nat, m: nat): nat {
    DivUp(q, STEP_NUM_MAX) + if m > 0 then 1 else 0
  }

  lemma SmallQuotient(left: nat, scale: nat)
    requires scale > 0 && left <= scale
    ensures left < scale ==> left / scale == 0 && left % scale == left
    ensures left == scale ==> left / scale == 1 && left % scale == 0
  {
    if left < scale {
      DivMod(0, left, scale, left);
    } else {
      DivMod(1, 0, scale, left);
    }
  }

  /** A segment for every 1023 whole steps, or part of them, and one for what is left below a step. */
  lemma {:induction false} SegmentsCounted(left: nat, scale: nat)
    requires scale > 0
    ensures Segments(left, scale) == Counted(left / scale, left % scale)
    decreases left
  {
    var rest := AfterSegment(left, scale);
    SegmentAndRest(left, scale);
    if left <= scale {
      assert Segments(0, scale) == 0;
      SmallQuotient(left, scale);
    } else {
      var k := StepsIn(left, scale);
      StepsTaken(left, scale, k);
      OneSegmentLess(left / scale, k);
      SegmentsCounted(rest, scale);
    }
  }

  // ---------------------------------------------------------------- the time a fade takes

  /** The PWM cycles the interrupt handler's segments take for what is left. */
  function LaterCycles(left: nat, scale: nat, cycleNum: nat): nat
    requires scale > 0
    decreases left
  {
    if left == 0 then 0
    else if left <= scale then 1
    else Times(StepsIn(left, scale), cycleNum) + LaterCycles(AfterSegment(left, scale), scale, cycleNum)
  }

  /** The PWM cycles of a whole fade: the first segment has no cycle when it is a jump. */
  function FadeCycles(left: nat, scale: nat, cycleNum: nat): nat
    requires scale > 0
  {
    if left < scale then 0
    else Times(StepsIn(left, scale), cycleNum) + LaterCycles(AfterSegment(left, scale), scale, cycleNum)
  }

  lemma Distributed(a: nat, b: nat, c: nat)
    ensures (a + b) * c == a * c + b * c
  {
  }

  /** `q` whole steps of `c` cycles and a rest `m`, which takes one cycle, as does a last step that the segments
      before have left alone. */
  function StepCycles(q: nat, m: nat, c: nat): nat {
    if m == 0 && q % STEP_NUM_MAX == 1 then (q - 1) * c + 1 else q * c + if m > 0 then 1 else 0
  }

  lemma FullSegmentCycles(q: nat, m: nat, c: nat)
    requires q > STEP_NUM_MAX
    ensures StepCycles(q, m, c) == STEP_NUM_MAX * c + StepCycles(q - STEP_NUM_MAX, m, c)
  {
    Distributed(STEP_NUM_MAX, q - STEP_NUM_MAX, c);
    if q % STEP_NUM_MAX == 1 {
      Distributed(STEP_NUM_MAX, q - STEP_NUM_MAX - 1, c);
    }
  }

  lemma {:induction false} LaterCyclesCounted(left: nat, scale: nat, c: nat)
    requires scale > 0
    ensures LaterCycles(left, scale, c) == StepCycles(left / scale, left % scale, c)
    decreases left
  {
    if left <= scale {
      SmallQuotient(left, scale);
    } else {
      SegmentCycles(left, scale, c);
      LaterCyclesCounted(AfterSegment(left, scale), scale, c);
    }
  }

  lemma SegmentCycles(left: nat, scale: nat, c: nat)
    requires 0 < scale < left
    ensures var rest := AfterSegment(left, scale);
            StepCycles(left / scale, left % scale, c)
            == Times(StepsIn(left, scale), c) + StepCycles(rest / scale, rest % scale, c)
  {
    hide AfterSegment, StepsIn, Times, StepCycles;
    SegmentQuotients(left, scale);
    TimesIsProduct(StepsIn(left, scale), c);
    StepsSplit(left / scale, left % scale, StepsIn(left, scale), c);
  }

  lemma SegmentQuotients(left: nat, scale: nat)
    requires 0 < scale < left
    ensures var q, m, k, rest := left / scale, left % scale, StepsIn(left, scale), AfterSegment(left, scale);
            k == Min(q, STEP_NUM_MAX) && rest / scale == q - k && rest % scale == m && (q == 1 ==> m > 0)
  {
    SegmentAndRest(left, scale);
    StepsTaken(left, scale, StepsIn(left, scale));
    if left % scale == 0 {
      assert left == left / scale * scale;
    }
    hide StepsIn, Times;
  }

  lemma StepsSplit(q: nat, m: nat, k: nat, c: nat)
    requires k == Min(q, STEP_NUM_MAX) && (q == 1 ==> m > 0)
    ensures StepCycles(q, m, c) == k * c + StepCycles(q - k, m, c)
  {
    if q > STEP_NUM_MAX {
      FullSegmentCycles(q, m, c);
    }
  }

  /** The cycles of a whole fade in closed form. */
  lemma FadeCyclesCounted(left: nat, scale: nat, c: nat)
    requires scale > 0
    ensures FadeCycles(left, scale, c) ==
            if left < scale then 0 else if left == scale then c else StepCycles(left / scale, left % scale, c)
  {
    if left == scale {
      SegmentAndRest(left, scale);
      StepsFit(left, scale);
      assert Times(1, c) == c + Times(0, c);
    } else if left > scale {
      SegmentCycles(left, scale, c);
      LaterCyclesCounted(AfterSegment(left, scale), scale, c);
    }
  }

  lemma DivUpIs(left: nat, scale: nat)
    requires scale > 0
    ensures DivUp(left, scale) == left / scale + if left % scale > 0 then 1 else 0
  {
    var q, m := left / scale, left % scale;
    assert left == q * scale + m;
    if m > 0 {
      DivMod(q + 1, m - 1, scale, left + scale - 1);
    } else {
      DivMod(q, scale - 1, scale, left + scale - 1);
    }
  }

  /** With one cycle a step a fade takes its distance in steps, rounded up. */
  lemma FadeCyclesOfOne(left: nat, scale: nat)
    requires scale > 0
    ensures FadeCycles(left, scale, 1) == if left < scale then 0 else DivUp(left, scale)
  {
    FadeCyclesCounted(left, scale, 1);
    DivUpIs(left, scale);
    if left == scale {
      SmallQuotient(left, scale);
    }
  }

  /** With steps of one a fade takes no more than its distance times the cycles a step, and more than one step less. */
  lemma FadeCyclesOfSteps(left: nat, c: nat)
    requires c > 0
    ensures FadeCycles(left, 1, c) == if left > 1 && left % STEP_NUM_MAX == 1 then (left - 1) * c + 1 else left * c
    ensures FadeCycles(left, 1, c) <= left * c
    ensures left > 0 ==> (left - 1) * c < FadeCycles(left, 1, c)
  {
    FadeCyclesCounted(left, 1, c);
    if left > 0 {
      Distributed(left - 1, 1, c);
    }
  }

  datatype Plan = Plan(scale: nat, cycleNum: nat)

  /** How `_ledc_set_fade_with_time` covers a distance in a number of cycles; a plan without scale is a jump. */
  function PlanFor(distance: nat, total: nat): Plan {
    if distance == 0 || total == 0 then Plan(0, 0)
    else if total > distance then Plan(1, Min(total / distance, CYCLE_NUM_MAX))
    else Plan(Min(distance / total, SCALE_MAX), 1)
  }

  /** The cycles of a fade over `covered` that was planned for `distance`. */
  function PlannedCycles(covered: nat, distance: nat, total: nat): nat
  {
    var p := PlanFor(distance, total);
    if p.scale == 0 then 0 else FadeCycles(covered, p.scale, p.cycleNum)
  }

  lemma DivUpAtMostIff(n: nat, d: nat, t: nat)
    requires d > 0
    ensures DivUp(n, d) <= t <==> n <= t * d
  {
    var q, m := (n + d - 1) / d, (n + d - 1) % d;
    assert n + d - 1 == q * d + m;
    if q <= t {
      MulMonotone(d, q, t);
    } else {
      MulMonotone(d, t + 1, q);
      assert (t + 1) * d == t * d + d;
    }
  }

  lemma ShortFadeWithin(covered: nat, distance: nat, total: nat)
    requires covered <= distance && 0 < distance < total
    ensures PlannedCycles(covered, distance, total) <= total
  {
    var q := total / distance;
    var c := Min(q, CYCLE_NUM_MAX);
    assert total == distance * q + total % distance;
    assert q >= 1;
    FadeCyclesOfSteps(covered, c);
    ProductsGrow(covered, distance, c, q);
  }

  lemma ProductsGrow(a: nat, b: nat, c: nat, d: nat)
    requires a <= b && c <= d
    ensures a * c <= b * d
  {
    MulMonotone(c, a, b);
    MulMonotone(b, c, d);
    assert c * b == b * c && d * b == b * d;
  }

  /** A fade in steps is within the time exactly when the steps chosen cover it in that many cycles. */
  lemma LongFadeWithinIff(covered: nat, distance: nat, total: nat)
    requires 0 < total <= distance && covered <= distance
    ensures PlannedCycles(covered, distance, total) <= total <==> covered <= Min(distance / total, SCALE_MAX) * total
  {
    var q := distance / total;
    var s := Min(q, SCALE_MAX);
    assert q >= 1;
    FadeCyclesOfOne(covered, s);
    DivUpAtMostIff(covered, s, total);
    assert total * s == s * total;
    MulMonotone(s, 1, total);
  }

  lemma CoveredIff(distance: nat, total: nat)
    requires total > 0
    ensures distance <= Min(distance / total, SCALE_MAX) * total <==> distance / total <= SCALE_MAX && distance % total == 0
  {
    var q, m := distance / total, distance % total;
    assert distance == q * total + m;
    if q > SCALE_MAX {
      MulMonotone(total, SCALE_MAX + 1, q);
    }
  }

  /** The same with one duty less to cover. */
  lemma AllButOneCoveredIff(distance: nat, total: nat)
    requires 0 < total <= distance
    ensures distance - 1 <= Min(distance / total, SCALE_MAX) * total <==>
            (distance / total <= SCALE_MAX && distance % total <= 1) || (distance == SCALE_MAX + 1 && total == 1)
  {
    var q, m := distance / total, distance % total;
    assert distance == q * total + m;
    if q > SCALE_MAX {
      assert q * total == SCALE_MAX * total + (q - SCALE_MAX) * total by {
        Distributed(SCALE_MAX, q - SCALE_MAX, total);
      }
      MulMonotone(total, 1, q - SCALE_MAX);
      MulMonotone(q - SCALE_MAX, 1, total);
    }
  }

  // ---------------------------------------------------------------- the time asked for

  /** The cycles that the driver plans for `maxFadeTimeMs`: the product with the frequency is kept in 32 bits. */
  function Total(maxFadeTimeMs: nat, freq: nat): nat {
    maxFadeTimeMs * freq % WORD / 1000
  }

  /** `cycles` at `freq` last no longer than `maxFadeTimeMs`. */
  predicate WithinMs(cycles: nat, maxFadeTimeMs: nat, freq: nat) {
    cycles * 1000 <= maxFadeTimeMs * freq
  }

  /** When a fade keeps to the time asked for: it is a jump, or the product does not fit into 32 bits, or there are
      more cycles than duties to pass, or the cycles divide the distance, up to the duty that a fade from the full
      duty does not cover, and the quotient is an allowed step; a step can also miss the largest one by one. */
  predicate KeepsTime(distance: nat, fromFull: bool, maxFadeTimeMs: nat, freq: nat) {
    var total := Total(maxFadeTimeMs, freq);
    || total == 0
    || maxFadeTimeMs * freq >= WORD
    || total > distance
    || (distance / total <= SCALE_MAX && distance % total <= if fromFull then 1 else 0)
    || (fromFull && distance == SCALE_MAX + 1 && total == 1)
  }

  /** The duties that a fade covers of the distance it was planned for. */
  predicate Covers(covered: nat, distance: nat, fromFull: bool) {
    distance == 0 || covered == if fromFull then distance - 1 else distance
  }

  lemma CyclesOfWhole(product: nat, cycles: nat)
    requires product < WORD
    ensures cycles * 1000 <= product <==> cycles <= product % WORD / 1000
  {
  }

  lemma CyclesAtMostCovered(covered: nat, distance: nat, total: nat)
    requires 0 < total <= distance && covered <= distance
    ensures PlannedCycles(covered, distance, total) <= covered
  {
    var s := Min(distance / total, SCALE_MAX);
    assert distance / total >= 1;
    FadeCyclesOfOne(covered, s);
    MulMonotone(covered, 1, s);
    DivUpAtMostIff(covered, s, covered);
  }

  lemma StepsCover(covered: nat, distance: nat, fromFull: bool, total: nat)
    requires 0 < total <= distance && Covers(covered, distance, fromFull)
    ensures PlannedCycles(covered, distance, total) <= total <==>
            || (distance / total <= SCALE_MAX && distance % total <= if fromFull then 1 else 0)
            || (fromFull && distance == SCALE_MAX + 1 && total == 1)
  {
    hide PlannedCycles;
    LongFadeWithinIff(covered, distance, total);
    if fromFull {
      AllButOneCoveredIff(distance, total);
    } else {
      CoveredIff(distance, total);
    }
  }

  /** A fade lasts no longer than the time asked for exactly when `KeepsTime` says so. */
  lemma WithinTimeIff(covered: nat, distance: nat, fromFull: bool, maxFadeTimeMs: nat, freq: nat)
    requires distance <= DUTIES && Covers(covered, distance, fromFull)
    ensures WithinMs(PlannedCycles(covered, distance, Total(maxFadeTimeMs, freq)), maxFadeTimeMs, freq)
            <==> KeepsTime(distance, fromFull, maxFadeTimeMs, freq)
  {
    var product := maxFadeTimeMs * freq;
    var total := product % WORD / 1000;
    var cycles := PlannedCycles(covered, distance, total);
    assert product % WORD <= product;
    if total == 0 || distance == 0 {
      assert cycles == 0;
    } else if total > distance {
      ShortFadeWithin(covered, distance, total);
    } else if product >= WORD {
      CyclesAtMostCovered(covered, distance, total);
    } else {
      CyclesOfWhole(product, cycles);
      StepsCover(covered, distance, fromFull, total);
    }
  }

  /** With an allowed step a fade takes less than twice the cycles planned for it. */
  lemma LessThanTwice(covered: nat, distance: nat, total: nat)
    requires 0 < total <= distance && covered <= distance && distance / total <= SCALE_MAX
    ensures PlannedCycles(covered, distance, total) < 2 * total
  {
    var q := distance / total;
    assert distance == q * total + distance % total;
    assert q >= 1;
    FadeCyclesOfOne(covered, q);
    MulMonotone(total, 1, q);
    MulMonotone(2 * total - 1, 1, q);
    assert (2 * total - 1) * q == total * q + (total - 1) * q;
    MulMonotone(total - 1, 1, q);
    DivUpAtMostIff(covered, q, 2 * total - 1);
  }

  /** 1999 duties in at most 1000 cycles: it takes 1999. */
  lemma TwiceTheTime()
    ensures PlannedCycles(1999, 1999, 1000) == 1999
  {
    FadeCyclesOfOne(1999, 1);
  }

  /** And with a step that is not allowed there is no such bound: 1048575 duties in one cycle take 1025. */
  lemma ThousandTimes()
    ensures PlannedCycles(1048575, 1048575, 1) == 1025
  {
    FadeCyclesOfOne(1048575, SCALE_MAX);
  }

  // ---------------------------------------------------------------- no faster than need be

  /** The cycles of a fade over `covered` duties planned for `distance` duties in `total` cycles, in closed form. */
  function TimedCycles(covered: nat, distance: nat, total: nat): nat {
    if distance == 0 || total == 0 then 0
    else if total > distance then
      var c := Min(total / distance, CYCLE_NUM_MAX);
      if covered > 1 && covered % STEP_NUM_MAX == 1 then (covered - 1) * c + 1 else covered * c
    else
      var s := Min(distance / total, SCALE_MAX);
      if s == 0 || covered < s then 0 else DivUp(covered, s)
  }

  lemma AtLeastOnceIn(total: nat, distance: nat)
    requires 0 < distance <= total
    ensures total / distance >= 1
  {
  }

  lemma PlannedIsTimed(covered: nat, distance: nat, total: nat)
    ensures PlannedCycles(covered, distance, total) == TimedCycles(covered, distance, total)
  {
    if 0 < distance < total {
      AtLeastOnceIn(total, distance);
      FadeCyclesOfSteps(covered, Min(total / distance, CYCLE_NUM_MAX));
    } else if 0 < total <= distance {
      AtLeastOnceIn(distance, total);
      FadeCyclesOfOne(covered, Min(distance / total, SCALE_MAX));
    }
  }

  /** With more cycles than duties a fade takes more than one step less than the whole steps the cycles allow. */
  lemma ShortFadeLasts(covered: nat, distance: nat, total: nat)
    requires 0 < distance < total && 0 < covered
    ensures (covered - 1) * Min(total / distance, CYCLE_NUM_MAX) < TimedCycles(covered, distance, total)
  {
    AtLeastOnceIn(total, distance);
    FadeCyclesOfSteps(covered, Min(total / distance, CYCLE_NUM_MAX));
  }

  lemma DivUpCovers(n: nat, d: nat)
    requires d > 0
    ensures n <= DivUp(n, d) * d
  {
    DivUpAtMostIff(n, d, DivUp(n, d));
  }

  /** Otherwise it takes all the planned cycles, but for the duty that a fade from the full duty does not cover. */
  lemma LongFadeLasts(covered: nat, distance: nat, total: nat)
    requires 0 < total <= distance && covered <= distance
    ensures total <= TimedCycles(covered, distance, total) + (distance - covered)
  {
    var q := distance / total;
    var s := Min(q, SCALE_MAX);
    AtLeastOnceIn(distance, total);
    var cycles, missing := TimedCycles(covered, distance, total), distance - covered;
    assert s * total <= distance by {
      assert distance == q * total + distance % total;
      MulMonotone(total, s, q);
    }
    DivUpCovers(covered, s);
    MulMonotone(missing, 1, s);
    Distributed(cycles, missing, s);
    if total > cycles + missing {
      MulMonotone(s, cycles + missing + 1, total);
      Distributed(cycles + missing, 1, s);
    }
  }

  /** What a fade can fall short of the planned cycles: what the quotient cuts off, one step, and the duty that is
      not covered. */
  function Shortfall(missing: nat, distance: nat, total: nat): nat {
    if 0 < distance < total then (missing + 1) * (total / distance) + total % distance else missing + 1
  }

  lemma AlmostTheCycles(covered: nat, distance: nat, total: nat)
    requires 0 < distance && 0 < total && covered <= distance && total / distance <= CYCLE_NUM_MAX
    ensures total < TimedCycles(covered, distance, total) + Shortfall(distance - covered, distance, total)
  {
    var missing := distance - covered;
    if total > distance {
      var q := total / distance;
      assert total == distance * q + total % distance;
      AtLeastOnceIn(total, distance);
      if covered > 0 {
        ShortFadeLasts(covered, distance, total);
        Distributed(covered - 1, missing + 1, q);
      } else {
        Distributed(missing, 1, q);
      }
    } else {
      LongFadeLasts(covered, distance, total);
    }
  }

  /** A fade that is not a jump falls short of the time asked for by no more than that, unless the cycles a step
      or the product of time and frequency are cut. */
  lemma AlmostTheTime(covered: nat, distance: nat, fromFull: bool, maxFadeTimeMs: nat, freq: nat)
    requires Covers(covered, distance, fromFull) && distance > 0 && maxFadeTimeMs * freq < WORD
    requires Total(maxFadeTimeMs, freq) > 0 && Total(maxFadeTimeMs, freq) / distance <= CYCLE_NUM_MAX
    ensures var total := Total(maxFadeTimeMs, freq);
            maxFadeTimeMs * freq
            < (TimedCycles(covered, distance, total) + Shortfall(distance - covered, distance, total)) * 1000
  {
    var total := Total(maxFadeTimeMs, freq);
    WholeCycles(maxFadeTimeMs * freq);
    AlmostTheCycles(covered, distance, total);
    hide TimedCycles, Shortfall;
  }

  lemma WholeCycles(product: nat)
    requires product < WORD
    ensures product < (product % WORD / 1000 + 1) * 1000
  {
  }

  // ---------------------------------------------------------------- the channel

  /** From each duty to the next the output moves towards `target`, does not pass it and moves by at most `most`. */
  predicate Glides(trail: seq<nat>, up: bool, target: nat, most: nat)
    decreases |trail|
  {
    if trail == [] then true
    else
      var n := |trail| - 1;
      && (if up then trail[n] <= target else target <= trail[n])
      && (n == 0 || Onward(trail[n - 1], up, trail[n], most))
      && Glides(trail[..n], up, target, most)
  }

  predicate Onward(last: nat, up: bool, duty: nat, most: nat) {
    if up then last <= duty <= last + most else duty <= last <= duty + most
  }

  lemma GlideOn(trail: seq<nat>, up: bool, target: nat, most: nat, duty: nat)
    requires Glides(trail, up, target, most) && |trail| > 0
    requires Onward(trail[|trail| - 1], up, duty, most)
    requires if up then duty <= target else target <= duty
    ensures Glides(trail + [duty], up, target, most)
  {
    assert (trail + [duty])[..|trail|] == trail;
  }

  /** Of two duties on the way the later one is nearer the target, on the same side of it. */
  lemma {:induction false} GlidesTowards(trail: seq<nat>, up: bool, target: nat, most: nat, i: nat, j: nat)
    requires Glides(trail, up, target, most) && i <= j < |trail|
    ensures if up then trail[i] <= trail[j] <= target else target <= trail[j] <= trail[i]
    decreases |trail|
  {
    var n := |trail| - 1;
    if j < n {
      GlidesTowards(trail[..n], up, target, most, i, j);
    } else if i < n {
      GlidesTowards(trail[..n], up, target, most, i, n - 1);
    }
  }

  class Fade {
    const maxDuty: nat

    // the fade record
    var target: nat
    var scale: nat
    var cycleNum: nat
    var increase: bool

    // the channel's registers: the duty and the segment it is to run
    var duty: nat
    var up: bool
    var steps: nat
    var cycles: nat
    var stepScale: nat

    // the semaphore that says that the fade is over
    var given: bool

    // the duties of the output since the fade was set, and the PWM cycles
    ghost var trail: seq<nat>
    ghost var elapsed: nat

    constructor (maxDuty: nat, duty: nat)
      requires 0 < maxDuty && duty <= maxDuty
      ensures this.maxDuty == maxDuty && this.duty == duty
    {
      this.maxDuty := maxDuty;
      this.duty := duty;
      target, scale, cycleNum, increase, up, steps, cycles, stepScale := 0, 0, 0, false, false, 0, 0, 0;
      given, trail, elapsed := true, [], 0;
    }

    /** The duty a fade starts from: the full duty is lowered by one first. */
    function Begin(): nat
      requires 0 < maxDuty
      reads `duty
    {
      if duty == maxDuty then duty - 1 else duty
    }

    function Left(): nat
      reads `duty, `target
    {
      Distance(duty, target)
    }

    /** The output has glided to the present duty, which is not past the target. */
    ghost predicate Gliding()
      reads `trail, `increase, `target, `scale, `duty
    {
      && |trail| > 0 && trail[|trail| - 1] == duty
      && Glides(trail, increase, target, scale)
    }

    /** The configured segment covers what a segment is to cover of the distance `left`. */
    ghost predicate Configured(left: nat)
      reads `duty, `target, `scale, `increase, `up, `steps, `stepScale
    {
      && scale > 0 && up == increase
      && stepScale <= scale
      && Left() == Times(steps, stepScale) + AfterSegment(left, scale)
    }

    // ledc_duty_config
    method DutyConfig(duty: nat, up: bool, steps: nat, cycles: nat, stepScale: nat)
      requires |trail| > 0
      modifies `duty, `up, `steps, `cycles, `stepScale, `trail
      ensures this.duty == duty && this.up == up
      ensures this.steps == steps && this.cycles == cycles && this.stepScale == stepScale
      ensures |trail| > 0 && trail[0] == old(trail[0])
      ensures GlidesTo(old(trail), duty) ==> Gliding()
    {
      if GlidesTo(trail, duty) {
        GlideOn(trail, increase, target, scale, duty);
      }
      this.duty, this.up, this.steps, this.cycles, this.stepScale := duty, up, steps, cycles, stepScale;
      trail := trail + [duty];
    }

    ghost predicate GlidesTo(trail: seq<nat>, duty: nat)
      reads `increase, `target, `scale
    {
      && |trail| > 0 && Glides(trail, increase, target, scale)
      && Onward(trail[|trail| - 1], increase, duty, scale)
      && if increase then duty <= target else target <= duty
    }

    // _ledc_set_fade_with_step
    method SetFadeWithStep(target: nat, scale: nat, cycleNum: nat)
      requires 0 < maxDuty && duty <= maxDuty && target <= maxDuty
      modifies this
      ensures this.target == target && this.scale == scale && this.cycleNum == cycleNum
      ensures |trail| > 0 && trail[0] == old(Begin()) && elapsed == 0
      ensures given == old(given)
      ensures scale > 0 ==> Gliding() && Configured(Distance(old(Begin()), target)) && increase == (old(Begin()) <= target)
      ensures scale == 0 ==> duty == target && Times(steps, stepScale) == 0
      ensures Times(steps, cycles) == if scale == 0 || Distance(old(Begin()), target) < scale then 0
                                else Times(StepsIn(Distance(old(Begin()), target), scale), cycleNum)
    {
      var dutyCur := duty;
      if dutyCur == maxDuty {
        dutyCur := dutyCur - 1;
      }
      trail, elapsed := [dutyCur], 0;
      this.target, this.cycleNum, this.scale := target, cycleNum, scale;
      var stepNum := 0;
      var dir := false;
      ghost var distance := Distance(dutyCur, target);
      if scale > 0 {
        if dutyCur > target {
          increase := false;
          assert distance == dutyCur - target;
          stepNum := StepsIn(dutyCur - target, scale);
        } else {
          increase := true;
          dir := true;
          assert distance == target - dutyCur;
          stepNum := StepsIn(target - dutyCur, scale);
        }
      }
      if scale > 0 {
        SegmentAndRest(distance, scale);
        assert trail[..0] == [];
        assert GlidesTo(trail, if stepNum > 0 then dutyCur else target);
      }
      if scale > 0 && stepNum > 0 {
        DutyConfig(dutyCur, dir, stepNum, cycleNum, scale);
      } else {
        DutyConfig(target, dir, 0, 1, 0);
      }
    }

    /** The hardware runs the configured segment and raises the interrupt at its end. */
    method RunSegment(ghost left: nat)
      requires Gliding() && Configured(left)
      modifies `duty, `trail, `elapsed
      ensures Gliding() && trail[0] == old(trail[0])
      ensures Left() == AfterSegment(left, scale)
      ensures elapsed == old(elapsed) + Times(steps, cycles)
    {
      var todo := steps;
      while todo > 0
        invariant Gliding() && trail[0] == old(trail[0])
        invariant Left() == Times(todo, stepScale) + AfterSegment(left, scale)
        invariant elapsed + Times(todo, cycles) == old(elapsed) + Times(steps, cycles)
      {
        var next := if up then duty + stepScale else duty - stepScale;
        GlideOn(trail, increase, target, scale, next);
        duty := next;
        trail := trail + [duty];
        elapsed := elapsed + cycles;
        todo := todo - 1;
      }
    }

    // ledc_fade_isr, for one channel
    method FadeIsr()
      requires !given && (scale > 0 ==> Gliding())
      modifies this
      ensures target == old(target) && scale == old(scale) && cycleNum == old(cycleNum) && increase == old(increase)
      ensures elapsed == old(elapsed)
      ensures given <==> scale == 0 || old(Left()) == 0
      ensures given ==> duty == old(duty) && trail == old(trail)
      ensures !given ==> Gliding() && trail[0] == old(trail[0]) && Configured(old(Left()))
      ensures !given ==> Times(steps, cycles) == if old(Left()) <= scale then 1 else Times(StepsIn(old(Left()), scale), cycleNum)
    {
      if duty == target {
        given := true;
        return;
      }
      if scale == 0 {
        given := true;
        return;
      }
      var delta := if !increase then duty - target else target - duty;
      SegmentAndRest(delta, scale);
      var step := StepsIn(delta, scale);
      if delta > scale {
        DutyConfig(duty, increase, step, cycleNum, scale);
      } else {
        DutyConfig(target, increase, 1, 1, 0);
      }
    }

    /** A fade from setting it to the last interrupt: it ends on the target, after that many interrupts, and on
        its way never turns back, passes the target or moves by more than the scale at once. */
    method FadeWithStep(target: nat, scale: nat, cycleNum: nat) returns (interrupts: nat)
      requires 0 < maxDuty && duty <= maxDuty && target <= maxDuty && scale > 0
      modifies this
      ensures duty == target && given
      ensures |trail| > 0 && trail[0] == old(Begin()) && trail[|trail| - 1] == target
      ensures Glides(trail, old(Begin()) <= target, target, scale)
      ensures interrupts == if old(Begin()) == target then 1 else Segments(Distance(old(Begin()), target), scale)
      ensures elapsed == FadeCycles(Distance(old(Begin()), target), scale, cycleNum)
    {
      SetFadeWithStep(target, scale, cycleNum);
      interrupts := FadeToEnd(Distance(old(Begin()), target));
    }

    // ledc_fade_start, then segments and interrupts in turn
    method FadeToEnd(ghost distance: nat) returns (interrupts: nat)
      requires Gliding() && Configured(distance) && elapsed == 0
      requires Times(steps, cycles) == if distance < scale then 0 else Times(StepsIn(distance, scale), cycleNum)
      modifies this
      ensures target == old(target) && scale == old(scale) && increase == old(increase) && cycleNum == old(cycleNum)
      ensures duty == target && given && Gliding() && trail[0] == old(trail[0])
      ensures interrupts == if distance == 0 then 1 else Segments(distance, scale)
      ensures elapsed == FadeCycles(distance, scale, cycleNum)
    {
      given := false;
      ghost var left: nat := distance;
      RunSegment(left);
      left := Left();
      interrupts := 1;
      FadeIsr();
      while !given
        invariant target == old(target) && scale == old(scale) && increase == old(increase) && cycleNum == old(cycleNum)
        invariant Gliding() && trail[0] == old(trail[0])
        invariant given <==> left == 0
        invariant given ==> duty == target
        invariant !given ==> Configured(left)
        invariant !given ==> Times(steps, cycles) == if left <= scale then 1 else Times(StepsIn(left, scale), cycleNum)
        invariant interrupts + Segments(left, scale) == if distance == 0 then 1 else Segments(distance, scale)
        invariant elapsed + LaterCycles(left, scale, cycleNum) == FadeCycles(distance, scale, cycleNum)
        decreases left
      {
        RunSegment(left);
        left := Left();
        interrupts := interrupts + 1;
        FadeIsr();
      }
    }

    // _ledc_set_fade_with_time; the product of the time and the frequency is kept in 32 bits.
    method SetFadeWithTime(target: nat, maxFadeTimeMs: nat, freq: nat)
      requires 0 < maxDuty && duty <= maxDuty && target <= maxDuty
      modifies this
      ensures given == old(given) && this.target == target && elapsed == 0
      ensures PlanFor(Distance(old(duty), target), Total(maxFadeTimeMs, freq)) == Plan(scale, cycleNum)
      ensures |trail| > 0 && trail[0] == old(Begin())
      ensures scale > 0 ==> Gliding() && Configured(Distance(old(Begin()), target)) && increase == (old(Begin()) <= target)
      ensures scale == 0 ==> duty == target && Times(steps, stepScale) == 0
      ensures Times(steps, cycles) == if scale == 0 || Distance(old(Begin()), target) < scale then 0
                                else Times(StepsIn(Distance(old(Begin()), target), scale), cycleNum)
    {
      var dutyDelta := if target > duty then target - duty else duty - target;
      if dutyDelta == 0 {
        SetFadeWithStep(target, 0, 0);
        return;
      }
      var totalCycles := maxFadeTimeMs * freq % WORD / 1000;
      if totalCycles == 0 {
        SetFadeWithStep(target, 0, 0);
        return;
      }
      var scale: nat, cycleNum: nat;
      if totalCycles > dutyDelta {
        scale := 1;
        cycleNum := totalCycles / dutyDelta;
        if cycleNum > CYCLE_NUM_MAX {
          cycleNum := CYCLE_NUM_MAX;
        }
      } else {
        cycleNum := 1;
        scale := dutyDelta / totalCycles;
        if scale > SCALE_MAX {
          scale := SCALE_MAX;
        }
      }
      SetFadeWithStep(target, scale, cycleNum);
    }

    /** A fade with a time reaches its target, in the cycles that its plan says. */
    method FadeWithTime(target: nat, maxFadeTimeMs: nat, freq: nat)
      requires 0 < maxDuty && duty <= maxDuty && target <= maxDuty
      modifies this
      ensures duty == target && given
      ensures elapsed == TimedCycles(Distance(old(Begin()), target), Distance(old(duty), target), Total(maxFadeTimeMs, freq))
      ensures var distance, total := Distance(old(duty), target), Total(maxFadeTimeMs, freq);
              0 < distance < total && old(duty) != maxDuty ==>
              (distance - 1) * Min(total / distance, 1023) < elapsed
      ensures maxDuty <= DUTIES ==>
              (WithinMs(elapsed, maxFadeTimeMs, freq) <==>
               KeepsTime(Distance(old(duty), target), old(duty) == maxDuty, maxFadeTimeMs, freq))
    {
      PlannedIsTimed(Distance(Begin(), target), Distance(duty, target), Total(maxFadeTimeMs, freq));
      if 0 < Distance(duty, target) < Total(maxFadeTimeMs, freq) && duty != maxDuty {
        ShortFadeLasts(Distance(duty, target), Distance(duty, target), Total(maxFadeTimeMs, freq));
      }
      if maxDuty <= DUTIES {
        WithinTimeIff(Distance(Begin(), target), Distance(duty, target), duty == maxDuty, maxFadeTimeMs, freq);
      }
      SetFadeWithTime(target, maxFadeTimeMs, freq);
      if scale > 0 {
        var _ := FadeToEnd(Distance(old(Begin()), target));
      } else {
        given := true;
      }
    }
  }
}
