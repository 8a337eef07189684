/**
 * The focus timer: a countdown of whole seconds from a configured number of
 * minutes, ticked once a second while it runs, shown as `mm:ss`.
 */
module Timer {

  /** What one tick looks at and changes. */
  datatype TimerState = TimerState(secondsLeft: nat, isRunning: bool)

  /**
   * One second passing: a running timer at one second or less stops at 0,
   * otherwise it counts down by one; a paused timer has no interval and
   * does not change.
   */
  function TickStep(t: TimerState): (r: TimerState)
    ensures !t.isRunning ==> r == t
    ensures t.isRunning && t.secondsLeft > 1 ==> r == TimerState(t.secondsLeft - 1, true)
    ensures t.isRunning && t.secondsLeft <= 1 ==> r == TimerState(0, false)
    ensures r.secondsLeft <= t.secondsLeft
  {
    if !t.isRunning then t
    else if t.secondsLeft <= 1 then TimerState(0, false)
    else TimerState(t.secondsLeft - 1, true)
  }

  /** `n` seconds passing. */
  function Ticks(t: TimerState, n: nat): TimerState
  {
    if n == 0 then t else TickStep(Ticks(t, n - 1))
  }

  /**
   * A timer started at `s` seconds is still running with `s - n` left after
   * `n < s` ticks, and has stopped at 0 after `max(s, 1)` or more ticks.
   */
  lemma {:induction false} CountdownFinishes(s: nat, n: nat)
    ensures n < s ==> Ticks(TimerState(s, true), n) == TimerState(s - n, true)
    ensures n >= s && n >= 1 ==> Ticks(TimerState(s, true), n) == TimerState(0, false)
  {
    if n > 0 {
      CountdownFinishes(s, n - 1);
    }
  }

  /** A paused timer stays as it is however long it waits. */
  lemma {:induction false} PausedStaysPut(s: nat, n: nat)
    ensures Ticks(TimerState(s, false), n) == TimerState(s, false)
  {
    if n > 0 {
      PausedStaysPut(s, n - 1);
    }
  }

  /** The decimal digits of `n`, as `String(n)` writes them. */
  function Decimal(n: nat): (d: string)
    ensures |d| >= 1 && forall i :: 0 <= i < |d| ==> '0' <= d[i] <= '9'
    ensures n < 10 <==> |d| == 1
    ensures n < 100 ==> |d| <= 2
    ensures n >= 10 ==> d[0] != '0'
  {
    if n < 10 then [('0' as int + n) as char] else Decimal(n / 10) + [('0' as int + n % 10) as char]
  }

  /** The number a string of decimal digits denotes. */
  function DigitsValue(d: string): int
  {
    if d == [] then 0 else 10 * DigitsValue(d[..|d| - 1]) + (d[|d| - 1] as int - '0' as int)
  }

  lemma {:induction false} DecimalValue(n: nat)
    ensures DigitsValue(Decimal(n)) == n
  {
    if n >= 10 {
      DecimalValue(n / 10);
      var d := Decimal(n);
      assert d[..|d| - 1] == Decimal(n / 10);
    }
  }

  /** `s.padStart(2, "0")`. */
  function PadStart2(s: string): (r: string)
    ensures |r| == if |s| < 2 then 2 else |s|
    ensures r[|r| - |s|..] == s
    ensures forall i :: 0 <= i < |r| - |s| ==> r[i] == '0'
  {
    if |s| == 0 then "00" else if |s| == 1 then "0" + s else s
  }

  lemma {:induction false} LeadingZero(s: string)
    requires s != []
    ensures DigitsValue("0" + s) == DigitsValue(s)
    decreases |s|
  {
    var t := "0" + s;
    assert t[..|t| - 1] == "0" + s[..|s| - 1];
    if |s| > 1 {
      LeadingZero(s[..|s| - 1]);
    } else {
      assert t[..|t| - 1] == "0";
    }
  }

  function MinutesText(secondsLeft: nat): string {
    PadStart2(Decimal(secondsLeft / 60))
  }

  function SecondsText(secondsLeft: nat): string {
    PadStart2(Decimal(secondsLeft % 60))
  }

  /** The timer face: `minutes:seconds`. */
  function Clock(secondsLeft: nat): (c: string)
    ensures var m := MinutesText(secondsLeft);
      |c| == |m| + 3 && c[..|m|] == m && c[|m|] == ':' && c[|m| + 1..] == SecondsText(secondsLeft)
    ensures |SecondsText(secondsLeft)| == 2 && |MinutesText(secondsLeft)| >= 2
    ensures ':' !in MinutesText(secondsLeft) && ':' !in SecondsText(secondsLeft)
  {
    MinutesText(secondsLeft) + ":" + SecondsText(secondsLeft)
  }

  /**
   * The face reads back as the time left: the minutes field times 60 plus
   * the seconds field is the number of seconds, the seconds field is below
   * 60, and under 100 minutes the face is five characters.
   */
  lemma ClockReadsBack(secondsLeft: nat)
    ensures var c := Clock(secondsLeft);
      && DigitsValue(MinutesText(secondsLeft)) * 60 + DigitsValue(SecondsText(secondsLeft)) == secondsLeft
      && DigitsValue(SecondsText(secondsLeft)) < 60
      && (secondsLeft < 6000 ==> |c| == 5)
  {
    var m, s := secondsLeft / 60, secondsLeft % 60;
    DecimalValue(m);
    DecimalValue(s);
    if |Decimal(m)| == 1 {
      LeadingZero(Decimal(m));
    }
    if |Decimal(s)| == 1 {
      LeadingZero(Decimal(s));
    }
  }

  /** The timer card: the configured minutes, the seconds left and whether it runs. */
  class FocusTimer {
    var minutes: nat
    var secondsLeft: nat
    var isRunning: bool

    /** Never more time left than the configured minutes hold; every operation keeps this. */
    ghost predicate Valid()
      reads this
    {
      secondsLeft <= minutes * 60
    }

    function State(): TimerState
      reads this
    {
      TimerState(secondsLeft, isRunning)
    }

    /** Mounting with the stored configuration: the full time, paused. */
    constructor (storedMinutes: nat)
      ensures minutes == storedMinutes && secondsLeft == storedMinutes * 60 && !isRunning
      ensures Valid()
    {
      minutes := storedMinutes;
      secondsLeft := storedMinutes * 60;
      isRunning := false;
    }

    /** The interval callback. */
    method Tick()
      modifies this
      ensures State() == TickStep(old(State())) && minutes == old(minutes)
      ensures old(Valid()) ==> Valid()
    {
      if isRunning {
        if secondsLeft <= 1 {
          isRunning := false;
          secondsLeft := 0;
        } else {
          secondsLeft := secondsLeft - 1;
        }
      }
    }

    /** The Start/Pause button. */
    method Toggle()
      modifies this
      ensures isRunning == !old(isRunning)
      ensures secondsLeft == old(secondsLeft) && minutes == old(minutes)
      ensures old(Valid()) ==> Valid()
    {
      isRunning := !isRunning;
    }

    /** `resetTimer`: paused, with the full configured time. */
    method Reset()
      modifies this
      ensures !isRunning && secondsLeft == minutes * 60 && minutes == old(minutes)
      ensures old(Valid()) ==> Valid()
    {
      isRunning := false;
      secondsLeft := minutes * 60;
    }

    /**
     * The minutes slider: a new value restarts the countdown from the full
     * time without pausing it; the same value changes nothing.
     */
    method SetMinutes(m: nat)
      modifies this
      ensures minutes == m && isRunning == old(isRunning)
      ensures m != old(minutes) ==> secondsLeft == m * 60
      ensures m == old(minutes) ==> secondsLeft == old(secondsLeft)
      ensures old(Valid()) ==> Valid()
    {
      if m != minutes {
        minutes := m;
        secondsLeft := m * 60;
      }
    }
  }
}
