/**
 * The review scheduler of the flashcard trainer: a simplified SM-2 rule
 * that maps a card's ease, its interval in days and a grade (1 Again,
 * 2 Hard, 3 Good, 4 Easy) to a new interval, a new ease and the instant the
 * card is due again.
 *
 * Ease is a decimal factor in the application (2.5, 1.3, 3.0, steps of 0.2
 * and 0.15); here it is an integer number of hundredths. `Math.round(x)` is
 * `floor(x + 1/2)`, written on integers by `RoundRatio`.
 */
module Scheduler {
  import opened Wrappers

  /** Milliseconds since the epoch. */
  type Time = nat

  const InitialEase := 250
  const MinEase := 130
  const MaxEase := 300
  const EasePenalty := 20
  const EaseBonus := 15
  /** The first interval of a new card, and the interval after a failed review. */
  const FirstInterval := 1
  /** One calendar day in milliseconds (local-time daylight saving is not modelled). */
  const DayMs := 86_400_000

  /** `Math.round(num / den)`: the integer nearest to `num / den`, halves rounded up. */
  function RoundRatio(num: int, den: int): (r: int)
    requires den > 0
    ensures (2 * r - 1) * den <= 2 * num < (2 * r + 1) * den
  {
    var q := (2 * num + den) / (2 * den);
    var m := (2 * num + den) % (2 * den);
    assert 2 * num + den == 2 * den * q + m && 0 <= m < 2 * den;
    assert (2 * q - 1) * den == 2 * den * q - den;
    assert (2 * q + 1) * den == 2 * den * q + den;
    q
  }

  /** Cancelling a positive factor from a strict inequality. */
  lemma {:induction false} CancelFactor(a: int, b: int, d: int)
    requires d > 0 && a * d < b * d
    ensures a < b
  {
  }

  /** No other integer is within one half of `num / den`. */
  lemma {:induction false} RoundRatioUnique(num: int, den: int, r: int)
    requires den > 0
    requires (2 * r - 1) * den <= 2 * num < (2 * r + 1) * den
    ensures r == RoundRatio(num, den)
  {
    var q := RoundRatio(num, den);
    CancelFactor(2 * r - 1, 2 * q + 1, den);
    CancelFactor(2 * q - 1, 2 * r + 1, den);
  }

  /** Rounding is monotone in the numerator. */
  lemma {:induction false} RoundRatioMonotone(a: int, b: int, den: int)
    requires den > 0 && a <= b
    ensures RoundRatio(a, den) <= RoundRatio(b, den)
  {
    var ra, rb := RoundRatio(a, den), RoundRatio(b, den);
    CancelFactor(2 * ra - 1, 2 * rb + 1, den);
  }

  /** A grade of Good or Easy counts as a correct answer. */
  predicate IsCorrect(grade: int) { grade >= 3 }

  /** `new Date(now)`, advanced by `days` calendar days, as a timestamp. */
  function AddDays(now: Time, days: nat): (t: Time)
    ensures days >= 1 ==> t > now
  {
    now + days * DayMs
  }

  datatype Schedule = Schedule(interval: int, ease: int, nextReview: Time)

  /** The interval after a Good answer: `max(1, round(interval * ease))`. */
  function GoodInterval(interval: int, ease: int): (r: int)
    ensures r >= 1
    ensures r > 1 ==> (2 * r - 1) * 100 <= 2 * interval * ease < (2 * r + 1) * 100
    ensures r == 1 ==> 2 * interval * ease < 300
  {
    Max(1, RoundRatio(interval * ease, 100))
  }

  /** The interval after an Easy answer: `max(1, round(interval * ease * 1.3))`. */
  function EasyInterval(interval: int, ease: int): (r: int)
    ensures r >= 1
    ensures r > 1 ==> (2 * r - 1) * 1000 <= 2 * interval * ease * 13 < (2 * r + 1) * 1000
    ensures r == 1 ==> 2 * interval * ease * 13 < 3000
  {
    Max(1, RoundRatio(interval * ease * 13, 1000))
  }

  /**
   * `calculateNextReview(ease, interval, grade)`, with the clock reading
   * `now` passed in. Any grade below 3 is treated as Again/Hard and any grade
   * above 3 as Easy, as in the application.
   */
  function CalculateNextReview(ease: int, interval: int, grade: int, now: Time): (s: Schedule)
    ensures s.interval >= 1
    ensures s.ease <= MaxEase
    ensures ease >= MinEase ==> s.ease >= MinEase
    ensures s.nextReview == AddDays(now, s.interval) && s.nextReview > now
  {
    var newInterval, newEase :=
      if grade < 3 then FirstInterval else if grade == 3 then GoodInterval(interval, ease) else EasyInterval(interval, ease),
      if grade < 3 then Max(MinEase, ease - EasePenalty) else if grade == 3 then ease else ease + EaseBonus;
    Schedule(newInterval, Min(MaxEase, newEase), AddDays(now, newInterval))
  }

  /** Again and Hard pin the card at one day and lower the ease by 0.2, never below 1.3. */
  lemma FailedReviewResets(ease: int, interval: int, grade: int, now: Time)
    requires grade < 3
    ensures var s := CalculateNextReview(ease, interval, grade, now);
      && s.interval == 1
      && s.nextReview == now + DayMs
      && s.ease == Min(MaxEase, Max(MinEase, ease - EasePenalty))
      && (ease <= MaxEase + EasePenalty ==> s.ease == Max(MinEase, ease - EasePenalty))
      && (ease > MinEase ==> s.ease < ease)
  {
  }

  /** After Again or Hard the prior interval has no influence at all. */
  lemma FailedReviewIgnoresInterval(ease: int, i1: int, i2: int, grade: int, now: Time)
    requires grade < 3
    ensures CalculateNextReview(ease, i1, grade, now) == CalculateNextReview(ease, i2, grade, now)
  {
  }

  /**
   * Good keeps the ease (capped at 3.0) and multiplies the interval by the
   * ease: the new interval is the integer nearest to `interval * ease`, or 1
   * when that product is below 1.5.
   */
  lemma GoodMultipliesByEase(ease: int, interval: int, now: Time)
    ensures var s := CalculateNextReview(ease, interval, 3, now);
      && s.ease == Min(MaxEase, ease)
      && s.interval >= 1
      && (s.interval > 1 ==> (2 * s.interval - 1) * 100 <= 2 * interval * ease < (2 * s.interval + 1) * 100)
      && (s.interval == 1 ==> 2 * interval * ease < 300)
  {
    var p := interval * ease;
    var r := RoundRatio(p, 100);
    assert (2 * r - 1) * 100 <= 2 * p < (2 * r + 1) * 100;
  }

  /**
   * Every grade above 3 is Easy: the interval is `max(1, round(interval * ease * 1.3))`
   * and the ease rises by 0.15, capped at 3.0.
   */
  lemma EasyMultipliesByEase(ease: int, interval: int, grade: int, now: Time)
    requires grade > 3
    ensures var s := CalculateNextReview(ease, interval, grade, now);
      && s.interval == EasyInterval(interval, ease)
      && s.ease == Min(MaxEase, ease + EaseBonus)
      && (s.interval > 1 ==> (2 * s.interval - 1) * 1000 <= 2 * interval * ease * 13 < (2 * s.interval + 1) * 1000)
      && (s.interval == 1 ==> 2 * interval * ease * 13 < 3000)
  {
  }

  /** Easy raises the ease by 0.15 up to 3.0 and never gives a shorter interval than Good. */
  lemma {:induction false} EasyAtLeastGood(ease: int, interval: int, now: Time)
    ensures var easy := CalculateNextReview(ease, interval, 4, now);
      var good := CalculateNextReview(ease, interval, 3, now);
      && easy.interval >= good.interval
      && easy.ease == Min(MaxEase, ease + EaseBonus)
      && (ease < MaxEase - EaseBonus ==> easy.ease > ease)
      && (ease <= MaxEase ==> easy.ease >= ease)
  {
    var p := interval * ease;
    assert interval * ease * 13 == 13 * p;
    var g := RoundRatio(p, 100);
    if p >= 0 {
      // round(p / 100) == round(10p / 1000) <= round(13p / 1000)
      assert (2 * g - 1) * 1000 <= 2 * (10 * p) < (2 * g + 1) * 1000;
      RoundRatioUnique(10 * p, 1000, g);
      RoundRatioMonotone(10 * p, 13 * p, 1000);
    } else {
      // both products are negative, so both rounded values are at most 0
      assert (2 * g - 1) * 100 <= 2 * p < 0;
    }
  }

  /** With an ease of at least 1.3 the Good interval is at least the old one, and longer from 2 days on. */
  lemma {:induction false} GoodIntervalGrows(ease: int, interval: int)
    requires ease >= MinEase && interval >= 1
    ensures GoodInterval(interval, ease) >= interval
    ensures interval >= 2 ==> GoodInterval(interval, ease) > interval
  {
    var p := interval * ease;
    assert p >= 130 * interval by {
      assert p - 130 * interval == (ease - 130) * interval;
    }
    var g := RoundRatio(p, 100);
    assert 200 * g + 100 > 260 * interval;
  }

  /**
   * With an ease of at least 1.3, a correct answer never shortens the
   * interval, and from two days on it strictly lengthens it.
   */
  lemma {:induction false} CorrectAnswerGrowsInterval(ease: int, interval: int, grade: int, now: Time)
    requires ease >= MinEase && interval >= 1 && grade >= 3
    ensures var s := CalculateNextReview(ease, interval, grade, now);
      && s.interval >= interval
      && (interval >= 2 ==> s.interval > interval)
  {
    GoodIntervalGrows(ease, interval);
    if grade > 3 {
      EasyAtLeastGood(ease, interval, now);
    }
  }

  /** Scenario: a new card (ease 2.5, interval 1) answered Good is due in 3 days. */
  lemma NewCardGood(now: Time)
    ensures CalculateNextReview(InitialEase, 1, 3, now) == Schedule(3, 250, now + 3 * DayMs)
  {
  }

  /** Scenario: ease 2.5, interval 3, answered Easy: interval round(9.75) = 10, ease 2.65. */
  lemma EasyAfterThreeDays(now: Time)
    ensures CalculateNextReview(250, 3, 4, now) == Schedule(10, 265, now + 10 * DayMs)
  {
  }

  /** Scenario: ease 1.4, interval 5, answered Again: interval 1, ease floored at 1.3. */
  lemma AgainAtLowEase(now: Time)
    ensures CalculateNextReview(140, 5, 1, now) == Schedule(1, 130, now + DayMs)
  {
  }
}
