/** The link quality index of src/lqi_engine.py, in exact arithmetic.  Scores are counted in
    hundredths of a percentage point, the two decimals to which the program rounds, so 100 % is
    10000.  `None` stands for a missing, non-numeric or non-finite reading. */
module LinkQuality {
  import opened Common

  const FULL := 10_000.0
  const MIN_SNR := -20.0
  const MAX_SNR := 10.0
  const MIN_RSSI := -125.0
  const MAX_RSSI := -40.0
  const WEIGHT_SNR := 0.65
  const WEIGHT_RSSI := 0.35
  const PENALTY_PER_HOP := 1_500.0
  const DEFAULT_ALPHA := 0.3
  const INACTIVITY_THRESHOLD := 180.0
  const DECAY_RATE_PER_MINUTE := 0.1

  function Clamp(low: real, high: real, x: real): real {
    if x < low then low else if x > high then high else x
  }

  // ---------------------------------------------------------------- rounding

  /** Nearest integer, ties to the even one. */
  function Rounded(x: real): int {
    var below := x.Floor;
    var part := x - below as real;
    if part < 0.5 || (part == 0.5 && below % 2 == 0) then below else below + 1
  }

  lemma RoundedKeepsOrder(x: real, y: real)
    requires x <= y
    ensures Rounded(x) <= Rounded(y)
  {
  }

  lemma RoundedKeepsIntegers(n: int)
    ensures Rounded(n as real) == n
  {
  }

  /** Rounding stays on the same side of every integer. */
  lemma RoundedStaysBetween(low: int, x: real, high: int)
    requires low as real <= x <= high as real
    ensures low <= Rounded(x) <= high
  {
  }

  /** No integer is nearer, and a half goes to the even one. */
  predicate Nearest(n: int, x: real) {
    && -0.5 <= n as real - x <= 0.5 && (n as real - x == 0.5 || n as real - x == -0.5 ==> n % 2 == 0)
  }

  lemma RoundedIsNearest(x: real)
    ensures Nearest(Rounded(x), x)
  {
  }

  // ---------------------------------------------------------------- the instant score

  function SnrScore(snr: real): real {
    (Clamp(MIN_SNR, MAX_SNR, snr) - MIN_SNR) / (MAX_SNR - MIN_SNR) * FULL
  }

  function RssiScore(rssi: real): real {
    (Clamp(MIN_RSSI, MAX_RSSI, rssi) - MIN_RSSI) / (MAX_RSSI - MIN_RSSI) * FULL
  }

  function Signal(snr: Option<real>, rssi: Option<real>): real
    requires snr.Some? || rssi.Some?
  {
    if rssi.None? then SnrScore(snr.value)
    else if snr.None? then RssiScore(rssi.value)
    else WEIGHT_SNR * SnrScore(snr.value) + WEIGHT_RSSI * RssiScore(rssi.value)
  }

  function AfterHops(signal: real, hops: int): real {
    Clamp(0.0, FULL, signal - (if hops > 0 then hops as real else 0.0) * PENALTY_PER_HOP)
  }

  function Instant(snr: Option<real>, rssi: Option<real>, hops: int): int {
    if snr.None? && rssi.None? then 0 else Rounded(AfterHops(Signal(snr, rssi), hops))
  }

  /** `b` is at least as good a reading as `a`, of the same kind. */
  predicate AtLeast(a: Option<real>, b: Option<real>) {
    a.Some? == b.Some? && (a.Some? ==> a.value <= b.value)
  }

  lemma ScoresKeepOrder(x: real, y: real)
    requires x <= y
    ensures 0.0 <= SnrScore(x) <= SnrScore(y) <= FULL
    ensures 0.0 <= RssiScore(x) <= RssiScore(y) <= FULL
  {
  }

  lemma AfterHopsKeepsOrder(signal: real, better: real, hops: int, fewer: int)
    requires signal <= better && fewer <= hops
    ensures AfterHops(signal, hops) <= AfterHops(better, fewer)
  {
  }

  /** The instant score is within 0..100 %, never falls when a reading improves and never rises
      with the number of hops. */
  lemma InstantKeepsOrder(
    snr: Option<real>, betterSnr: Option<real>, rssi: Option<real>, betterRssi: Option<real>, hops: int, fewer: int)
    requires AtLeast(snr, betterSnr) && AtLeast(rssi, betterRssi) && fewer <= hops
    ensures 0 <= Instant(snr, rssi, hops) <= Instant(betterSnr, betterRssi, fewer) <= 10_000
  {
    if snr.Some? || rssi.Some? {
      if snr.Some? {
        ScoresKeepOrder(snr.value, betterSnr.value);
      }
      if rssi.Some? {
        ScoresKeepOrder(rssi.value, betterRssi.value);
      }
      AfterHopsKeepsOrder(Signal(snr, rssi), Signal(betterSnr, betterRssi), hops, fewer);
      RoundedKeepsOrder(AfterHops(Signal(snr, rssi), hops), AfterHops(Signal(betterSnr, betterRssi), fewer));
      RoundedStaysBetween(0, AfterHops(Signal(snr, rssi), hops), 10_000);
      RoundedStaysBetween(0, AfterHops(Signal(betterSnr, betterRssi), fewer), 10_000);
    }
  }

  /** The score of readings within their ranges, to the nearest hundredth: 65 % for the place of the
      SNR in -20..10 dB, 35 % for that of the RSSI in -125..-40 dBm, less 15 points for each hop. */
  lemma InstantIs(snr: real, rssi: real, hops: nat)
    requires -20.0 <= snr <= 10.0 && -125.0 <= rssi <= -40.0
    ensures var exact := 6_500.0 * ((snr + 20.0) / 30.0) + 3_500.0 * ((rssi + 125.0) / 85.0) - 1_500.0 * (hops as real);
            if exact >= 0.0 then Nearest(Instant(Some(snr), Some(rssi), hops), exact)
            else Instant(Some(snr), Some(rssi), hops) == 0
  {
    var exact := 6_500.0 * ((snr + 20.0) / 30.0) + 3_500.0 * ((rssi + 125.0) / 85.0) - 1_500.0 * (hops as real);
    assert Signal(Some(snr), Some(rssi)) - hops as real * PENALTY_PER_HOP == exact;
    RoundedIsNearest(exact);
    RoundedKeepsIntegers(0);
  }

  /** With both readings the score lies between what each reading alone would give. */
  lemma InstantIsAMixture(snr: real, rssi: real, hops: int)
    ensures var both := Instant(Some(snr), Some(rssi), hops);
            var first, second := Instant(Some(snr), None, hops), Instant(None, Some(rssi), hops);
            first <= both <= second || second <= both <= first
  {
    var mixed := Signal(Some(snr), Some(rssi));
    var low, high := SnrScore(snr), RssiScore(rssi);
    if low > high {
      low, high := high, low;
    }
    assert low <= mixed <= high;
    AfterHopsKeepsOrder(low, mixed, hops, hops);
    AfterHopsKeepsOrder(mixed, high, hops, hops);
    RoundedKeepsOrder(AfterHops(low, hops), AfterHops(mixed, hops));
    RoundedKeepsOrder(AfterHops(mixed, hops), AfterHops(high, hops));
  }

  /** The best SNR alone is worth 65 %, the best RSSI alone 35 %. */
  lemma ReadingsWeigh(snr: real, rssi: real)
    ensures snr <= MIN_SNR && rssi >= MAX_RSSI ==> Instant(Some(snr), Some(rssi), 0) == 3_500
    ensures snr >= MAX_SNR && rssi <= MIN_RSSI ==> Instant(Some(snr), Some(rssi), 0) == 6_500
    ensures snr <= MIN_SNR && rssi <= MIN_RSSI ==> Instant(Some(snr), Some(rssi), 0) == 0
  {
    RoundedKeepsIntegers(3_500);
    RoundedKeepsIntegers(6_500);
    RoundedKeepsIntegers(0);
  }

  /** The best readings score 100 % and each hop costs 15 % of it, so seven hops cost everything
      whatever the readings. */
  lemma HopsCost(snr: Option<real>, rssi: Option<real>, hops: nat)
    ensures hops <= 6 ==> Instant(Some(MAX_SNR), Some(MAX_RSSI), hops) == 10_000 - 1_500 * hops
    ensures hops >= 7 ==> Instant(snr, rssi, hops) == 0
  {
  }

  // ---------------------------------------------------------------- smoothing

  function OrZero(x: Option<real>): real {
    if x.None? then 0.0 else x.value
  }

  function Mixed(from: real, target: real, w: real): real {
    w * target + (1.0 - w) * from
  }

  function Weight(alpha: real): real {
    Clamp(0.05, 0.95, alpha)
  }

  function Blended(from: real, target: real, w: real): real {
    Clamp(0.0, FULL, Mixed(from, target, w))
  }

  function Smoothed(prev: Option<real>, instant: Option<real>, alpha: real): int {
    var target := Clamp(0.0, FULL, OrZero(instant));
    if OrZero(prev) <= 0.0 then Rounded(target)
    else
      var from := Clamp(0.0, FULL, OrZero(prev));
      Rounded(Blended(from, target, Weight(alpha)))
  }

  /** Smoothing of scores that the program has itself produced. */
  function Next(score: int, instant: int, alpha: real): int {
    Smoothed(Some(score as real), Some(instant as real), alpha)
  }

  predicate IsScore(s: int) {
    0 <= s <= 10_000
  }

  function Error(score: int, instant: int): nat {
    if score <= instant then instant - score else score - instant
  }

  lemma PartOf(w: real, d: real)
    requires 0.0 < w < 1.0 && d >= 0.0
    ensures 0.0 <= w * d <= d
  {
  }

  lemma MixedMoves(from: real, target: real, w: real, d: real)
    requires 0.0 < w < 1.0 && d >= 0.0
    ensures target == from + d ==> Mixed(from, target, w) == from + w * d
    ensures target == from - d ==> Mixed(from, target, w) == from - w * d
  {
  }

  lemma BlendedMoves(from: real, target: real, w: real, d: real) returns (step: real)
    requires 0.0 <= from <= FULL && 0.0 <= target <= FULL && d >= 0.0 && 0.0 < w < 1.0
    ensures step == w * d && 0.0 <= step <= d
    ensures target == from + d ==> Blended(from, target, w) == from + step
    ensures target == from - d ==> Blended(from, target, w) == from - step
  {
    step := w * d;
    PartOf(w, d);
    MixedMoves(from, target, w, d);
  }

  /** What one update moves a score by, before rounding. */
  function Step(score: int, instant: int, w: real): real {
    w * Error(score, instant) as real
  }

  /** The new score is the old one moved towards the instant one by a rounded step. */
  lemma NextMoves(score: int, instant: int, alpha: real) returns (step: real)
    requires IsScore(score) && IsScore(instant) && score > 0
    ensures step == Step(score, instant, Weight(alpha)) && 0.0 <= step <= Error(score, instant) as real
    ensures Next(score, instant, alpha) == Rounded(if score <= instant then score as real + step else score as real - step)
  {
    step := BlendedMoves(score as real, instant as real, Weight(alpha), Error(score, instant) as real);
  }

  /** A step that is rounded: it does not pass the target, moves the score if it is over half a
      hundredth, and does not if it is under. */
  lemma RoundedStep(score: int, instant: int, step: real)
    requires 0.0 <= step <= Error(score, instant) as real
    ensures var next := Rounded(if score <= instant then score as real + step else score as real - step);
            && (score <= instant ==> score <= next <= instant)
            && (instant <= score ==> instant <= next <= score)
            && (step > 0.5 ==> Error(next, instant) < Error(score, instant))
            && (step < 0.5 ==> next == score)
  {
  }

  /** The weighted mean of two values, as a move from one towards the other. */
  lemma MeanMoves(from: real, target: real, w: real)
    ensures w * target + (1.0 - w) * from == from + w * (target - from)
    ensures w * target + (1.0 - w) * from == from - w * (from - target)
  {
  }

  lemma MeanIsStep(score: int, instant: int, w: real)
    ensures w * (instant as real) + (1.0 - w) * (score as real)
            == if score <= instant then score as real + Step(score, instant, w) else score as real - Step(score, instant, w)
  {
    MeanMoves(score as real, instant as real, w);
    if score <= instant {
      assert Error(score, instant) as real == instant as real - score as real;
    } else {
      assert Error(score, instant) as real == score as real - instant as real;
    }
  }

  /** An update is the weighted mean of the instant score and the old one, to the nearest hundredth. */
  lemma NextIsMean(score: int, instant: int, alpha: real)
    requires IsScore(score) && IsScore(instant) && score > 0 && 0.05 <= alpha <= 0.95
    ensures Nearest(Next(score, instant, alpha), alpha * (instant as real) + (1.0 - alpha) * (score as real))
  {
    var moved := if score <= instant then score as real + Step(score, instant, alpha) else score as real - Step(score, instant, alpha);
    assert Next(score, instant, alpha) == Rounded(moved) by {
      var _ := NextMoves(score, instant, alpha);
    }
    MeanIsStep(score, instant, alpha);
    RoundedIsNearest(moved);
  }

  /** For any smoothing factor the new score lies between the old one and the instant one. */
  lemma SmoothedIsBetween(score: int, instant: int, alpha: real)
    requires IsScore(score) && IsScore(instant)
    ensures score <= instant ==> score <= Next(score, instant, alpha) <= instant
    ensures instant <= score ==> instant <= Next(score, instant, alpha) <= score
  {
    if score > 0 {
      var step := NextMoves(score, instant, alpha);
      RoundedStep(score, instant, step);
    } else {
      RoundedKeepsIntegers(instant);
    }
  }

  /** Feeding one instant score shrinks the error while the step is over half a hundredth, and
      leaves the score where it is once the step is under half a hundredth. */
  lemma SmoothedApproaches(score: int, instant: int, alpha: real)
    requires IsScore(score) && IsScore(instant) && score > 0
    ensures Step(score, instant, Weight(alpha)) > 0.5 ==> Error(Next(score, instant, alpha), instant) < Error(score, instant)
    ensures Step(score, instant, Weight(alpha)) < 0.5 ==> Next(score, instant, alpha) == score
  {
    var step := NextMoves(score, instant, alpha);
    RoundedStep(score, instant, step);
  }

  /** With the default factor the error shrinks strictly until it is one hundredth, and then stays. */
  lemma DefaultApproaches(score: int, instant: int)
    requires IsScore(score) && IsScore(instant) && score > 0
    ensures var next := Next(score, instant, DEFAULT_ALPHA);
            && 7 * Error(score, instant) - 5 <= 10 * Error(next, instant) <= 7 * Error(score, instant) + 5
            && (Error(score, instant) > 1 ==> Error(next, instant) < Error(score, instant))
            && (Error(score, instant) <= 1 ==> next == score)
  {
  }

  /** A station that has no score yet takes the instant one as it is. */
  lemma FirstIsAdopted(instant: int, alpha: real)
    requires IsScore(instant)
    ensures Next(0, instant, alpha) == instant
  {
  }

  function Repeated(score: int, instant: int, times: nat): int
    decreases times
  {
    if times == 0 then score else Repeated(Next(score, instant, DEFAULT_ALPHA), instant, times - 1)
  }

  /** Each bound is at least what one update leaves of the one before. */
  predicate Shrinking(bounds: seq<nat>) {
    forall i | 0 < i < |bounds| :: 7 * bounds[i - 1] + 5 < 10 * (bounds[i] + 1)
  }

  lemma {:induction false} RepeatedIsWithin(score: int, instant: int, bounds: seq<nat>)
    requires IsScore(score) && IsScore(instant) && Shrinking(bounds)
    requires bounds != [] && Error(score, instant) <= bounds[0]
    ensures Error(Repeated(score, instant, |bounds| - 1), instant) <= bounds[|bounds| - 1]
    decreases |bounds|
  {
    if |bounds| > 1 {
      var next := Next(score, instant, DEFAULT_ALPHA);
      SmoothedIsBetween(score, instant, DEFAULT_ALPHA);
      if score == 0 {
        FirstIsAdopted(instant, DEFAULT_ALPHA);
      } else {
        DefaultApproaches(score, instant);
      }
      assert bounds[1..][0] == bounds[1];
      RepeatedIsWithin(next, instant, bounds[1..]);
    }
  }

  /** Bounds on the error, update by update. */
  const BOUNDS: seq<nat> :=
    [10_000, 7_000, 4_900, 3_430, 2_401, 1_681, 1_177, 824, 577, 404, 283, 198, 139,
     97, 68, 48, 34, 24, 17, 12, 8, 6, 4, 3, 2, 1]

  lemma WithinOneAfterTwentyFive(score: int, instant: int)
    requires IsScore(score) && IsScore(instant)
    ensures Error(Repeated(score, instant, 25), instant) <= 1
  {
    assert |BOUNDS| == 26 && Shrinking(BOUNDS);
    RepeatedIsWithin(score, instant, BOUNDS);
  }

  /** From any score, twenty-five updates with one instant score bring the smoothed score within
      one hundredth of it, and further ones keep it there. */
  lemma {:induction false} SettlesInTwentyFive(score: int, instant: int, times: nat)
    requires IsScore(score) && IsScore(instant) && times >= 25
    ensures Error(Repeated(score, instant, times), instant) <= 1
    decreases times
  {
    if times > 25 {
      SmoothedIsBetween(score, instant, DEFAULT_ALPHA);
      SettlesInTwentyFive(Next(score, instant, DEFAULT_ALPHA), instant, times - 1);
    } else {
      WithinOneAfterTwentyFive(score, instant);
    }
  }

  /** The scores after a list of instant ones. */
  function Fed(score: int, instants: seq<int>, alpha: real): int
    decreases |instants|
  {
    if instants == [] then score else Fed(Next(score, instants[0], alpha), instants[1..], alpha)
  }

  predicate AreScores(instants: seq<int>) {
    forall i | 0 <= i < |instants| :: IsScore(instants[i])
  }

  lemma LessThanHalf(w: real, whole: real, d: real)
    requires 0.0 < w < 0.5 && 0.0 <= d <= whole && whole > 0.0
    ensures 2.0 * (w * d) < whole
  {
    assert w * (whole - d) >= 0.0;
    assert w * whole == w * d + w * (whole - d);
    assert (0.5 - w) * whole > 0.0;
    assert (0.5 - w) * whole == 0.5 * whole - w * whole;
  }

  /** A step down by less than half of the score. */
  lemma SmallStepStaysPositive(score: int, step: real)
    requires score > 0 && 0.0 <= 2.0 * step < score as real
    ensures 0 < Rounded(score as real - step) <= score
  {
    if score == 1 {
      assert 0.5 < score as real - step <= 1.0;
    } else {
      RoundedStaysBetween(1, score as real - step, score);
    }
  }

  lemma StepIsUnderHalf(score: int, instant: int, w: real)
    requires 0 <= instant < score && 0.0 < w < 0.5
    ensures 2.0 * Step(score, instant, w) < score as real
  {
    LessThanHalf(w, score as real, Error(score, instant) as real);
  }

  lemma DownMoves(score: int, instant: int, alpha: real) returns (step: real)
    requires IsScore(score) && IsScore(instant) && instant < score && alpha < 0.5
    ensures 0.0 <= 2.0 * step < score as real && Next(score, instant, alpha) == Rounded(score as real - step)
  {
    step := NextMoves(score, instant, alpha);
    StepIsUnderHalf(score, instant, Weight(alpha));
  }

  lemma NextStaysPositive(score: int, instant: int, alpha: real)
    requires IsScore(score) && IsScore(instant) && score > 0 && alpha < 0.5
    ensures IsScore(Next(score, instant, alpha)) && Next(score, instant, alpha) > 0
  {
    if instant < score {
      var step := DownMoves(score, instant, alpha);
      SmallStepStaysPositive(score, step);
    } else {
      SmoothedIsBetween(score, instant, alpha);
    }
  }

  lemma {:induction false} FedStaysPositive(score: int, instants: seq<int>, alpha: real)
    requires IsScore(score) && AreScores(instants) && score > 0 && alpha < 0.5
    ensures Fed(score, instants, alpha) > 0
    decreases |instants|
  {
    if instants != [] {
      NextStaysPositive(score, instants[0], alpha);
      FedStaysPositive(Next(score, instants[0], alpha), instants[1..], alpha);
    }
  }

  /** With a factor of a half or more, one instant score of zero takes the last hundredth. */
  lemma LastHundredthGoes(alpha: real)
    requires alpha >= 0.5
    ensures Next(1, 0, alpha) == 0 && Fed(1, [0], alpha) == 0
  {
    var step := NextMoves(1, 0, alpha);
    assert Error(1, 0) == 1 && step == Weight(alpha);
    assert Next(1, 0, alpha) == Rounded(1.0 - step);
    assert [0][1..] == [];
  }

  /** Whether smoothing alone can make a station unreachable: positive scores stay positive, whatever
      instant scores they are fed, if and only if the smoothing factor is below a half. */
  lemma PositiveStaysPositive(alpha: real)
    ensures alpha < 0.5 <==>
              forall score: int, instants: seq<int> | IsScore(score) && score > 0 && AreScores(instants) ::
                Fed(score, instants, alpha) > 0
  {
    if alpha < 0.5 {
      forall score: int, instants: seq<int> | IsScore(score) && score > 0 && AreScores(instants)
        ensures Fed(score, instants, alpha) > 0
      {
        FedStaysPositive(score, instants, alpha);
      }
    } else {
      LastHundredthGoes(alpha);
      assert IsScore(1) && AreScores([0]);
    }
  }

  /** With the default factor, a station whose every instant score is zero keeps a hundredth for ever. */
  lemma {:induction false} DefaultStaysPositive(score: int, instant: int, times: nat)
    requires IsScore(score) && IsScore(instant) && score > 0
    ensures Repeated(score, instant, times) > 0
    decreases times
  {
    if times > 0 {
      NextStaysPositive(score, instant, DEFAULT_ALPHA);
      DefaultStaysPositive(Next(score, instant, DEFAULT_ALPHA), instant, times - 1);
    }
  }

  // ---------------------------------------------------------------- decay

  /** The share of a score that is left after `inactive` seconds. */
  function Share(inactive: real): real {
    if inactive <= INACTIVITY_THRESHOLD then 1.0
    else
      var left := 1.0 - (inactive - INACTIVITY_THRESHOLD) / 60.0 * DECAY_RATE_PER_MINUTE;
      if left < 0.0 then 0.0 else left
  }

  function Inactive(seen: real, now: real): real {
    if now - seen < 0.0 then 0.0 else now - seen
  }

  function Portion(score: real, share: real): real {
    Clamp(0.0, FULL, score * share)
  }

  function Decayed(score: Option<real>, seen: real, now: real): int {
    if score.None? || score.value <= 0.0 then 0
    else Rounded(Portion(score.value, Share(Inactive(seen, now))))
  }

  lemma ShareKeepsOrder(longer: real, shorter: real)
    requires shorter <= longer
    ensures 0.0 <= Share(longer) <= Share(shorter) <= 1.0
  {
  }

  lemma PortionKeepsOrder(x: real, y: real, f: real, g: real)
    requires 0.0 <= x <= y && 0.0 <= f <= g
    ensures 0.0 <= Portion(x, f) <= Portion(y, g) <= FULL
  {
    assert x * (g - f) >= 0.0;
    assert (y - x) * g >= 0.0;
  }

  /** A score that is lower, or seen earlier, or asked for later, decays to no more. */
  lemma DecayKeepsOrder(score: real, better: real, seen: real, seenLater: real, now: real, earlier: real)
    requires score <= better && seen <= seenLater && earlier <= now
    ensures 0 <= Decayed(Some(score), seen, now) <= Decayed(Some(better), seenLater, earlier) <= 10_000
  {
    var low, high := Share(Inactive(seen, now)), Share(Inactive(seenLater, earlier));
    ShareKeepsOrder(Inactive(seen, now), Inactive(seenLater, earlier));
    var worse := if score > 0.0 then score else 0.0;
    if better > 0.0 {
      PortionKeepsOrder(worse, better, low, high);
      RoundedKeepsOrder(Portion(worse, low), Portion(better, high));
      RoundedStaysBetween(0, Portion(worse, low), 10_000);
      RoundedStaysBetween(0, Portion(better, high), 10_000);
    }
  }

  /** Decay never raises a score, leaves it alone for three minutes, and has taken all of it after
      thirteen. */
  lemma DecayNeverRaises(score: int, seen: real, now: real)
    requires IsScore(score)
    ensures Decayed(Some(score as real), seen, now) <= score
    ensures now - seen <= 180.0 ==> Decayed(Some(score as real), seen, now) == score
    ensures now - seen >= 780.0 ==> Decayed(Some(score as real), seen, now) == 0
  {
    RoundedKeepsIntegers(score);
    RoundedKeepsIntegers(0);
    assert Decayed(Some(score as real), now, now) == score;
    if seen <= now {
      DecayKeepsOrder(score as real, score as real, seen, now, now, now);
    }
    if now - seen >= 780.0 {
      assert Share(now - seen) == 0.0;
    }
  }

  /** After the first three minutes a score loses a tenth of itself for each minute of silence. */
  lemma TenthPerMinute(score: int, seen: real, minutes: nat)
    requires IsScore(score) && minutes <= 10
    ensures var left := Decayed(Some(score as real), seen, seen + 180.0 + 60.0 * minutes as real);
            -5 <= 10 * left - score * (10 - minutes) <= 5
  {
    var share := Share(Inactive(seen, seen + 180.0 + 60.0 * minutes as real));
    assert 10.0 * share == (10 - minutes) as real;
    PortionOfTenths(score, 10 - minutes, share);
  }

  lemma PortionOfTenths(score: int, tenths: nat, share: real)
    requires IsScore(score) && tenths <= 10 && 10.0 * share == tenths as real
    ensures -5 <= 10 * Rounded(Portion(score as real, share)) - score * tenths <= 5
  {
    var x := score as real * share;
    assert 10.0 * x == score as real * tenths as real == (score * tenths) as real;
    PortionKeepsOrder(score as real, score as real, share, 1.0);
    assert Portion(score as real, share) == x;
  }
}
