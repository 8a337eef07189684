/**
 * The statistics the flashcard trainer keeps: the session statistics that
 * are reset whenever study mode is entered, the lifetime statistics that are
 * persisted across sessions, and the accuracy percentages shown for both.
 */
module Stats {
  import opened Scheduler

  datatype SessionStats = SessionStats(studied: nat, correct: nat, startTime: Time)

  datatype LifetimeStats = LifetimeStats(cardsStudied: nat, correctAnswers: nat, streak: nat, longestStreak: nat)

  /** The lifetime statistics before the first review ever. */
  const NoReviews := LifetimeStats(0, 0, 0, 0)

  /** Never more correct answers than answers in a session. */
  predicate SessionConsistent(s: SessionStats) {
    s.correct <= s.studied
  }

  /**
   * The current streak is one of the runs of correct answers, the longest
   * streak is made of correct answers, and they are among all answers.
   */
  predicate LifetimeConsistent(l: LifetimeStats) {
    l.streak <= l.longestStreak <= l.correctAnswers <= l.cardsStudied
  }

  /** The session statistics set when study mode is entered at `now`. */
  function FreshSession(now: Time): (s: SessionStats)
    ensures s.studied == 0 && s.correct == 0 && s.startTime == now
    ensures SessionConsistent(s)
  {
    SessionStats(0, 0, now)
  }

  /** One graded review as the session counts it. */
  function RecordSession(s: SessionStats, isCorrect: bool): (r: SessionStats)
    ensures r.studied == s.studied + 1 && r.startTime == s.startTime
    ensures r.correct == s.correct + 1 <==> isCorrect
    ensures !isCorrect ==> r.correct == s.correct
    ensures SessionConsistent(s) ==> SessionConsistent(r)
  {
    s.(studied := s.studied + 1, correct := s.correct + (if isCorrect then 1 else 0))
  }

  /** One graded review as the lifetime statistics count it. */
  function RecordLifetime(l: LifetimeStats, isCorrect: bool): (r: LifetimeStats)
    ensures r.cardsStudied == l.cardsStudied + 1
    ensures r.correctAnswers == l.correctAnswers + 1 <==> isCorrect
    ensures !isCorrect ==> r.correctAnswers == l.correctAnswers && r.streak == 0
    ensures isCorrect ==> r.streak == l.streak + 1
    ensures r.longestStreak >= l.longestStreak && r.longestStreak >= r.streak
    ensures r.longestStreak == l.longestStreak || r.longestStreak == r.streak
    ensures LifetimeConsistent(l) ==> LifetimeConsistent(r)
  {
    var newStreak := if isCorrect then l.streak + 1 else 0;
    LifetimeStats(
      l.cardsStudied + 1,
      l.correctAnswers + (if isCorrect then 1 else 0),
      newStreak,
      if l.longestStreak >= newStreak then l.longestStreak else newStreak)
  }

  /**
   * `correct / total`, as the rounded percentage shown to the learner, and 0
   * before any answer.
   */
  function Accuracy(correct: nat, total: nat): (r: nat)
    ensures total == 0 ==> r == 0
    ensures total > 0 ==> (2 * r - 1) * total <= 200 * correct < (2 * r + 1) * total
    ensures correct <= total ==> r <= 100
    ensures correct == total && total > 0 ==> r == 100
  {
    if total > 0 then
      var r := RoundRatio(100 * correct, total);
      assert r >= 0 by {
        CancelFactor(-1, 2 * r + 1, total);
      }
      assert correct <= total ==> r <= 100 by {
        if correct <= total {
          CancelFactor(2 * r - 1, 201, total);
        }
      }
      assert correct == total ==> r == 100 by {
        if correct == total {
          RoundRatioUnique(100 * correct, total, 100);
        }
      }
      r
    else 0
  }

  /** Replaying answers one by one from given statistics. */
  function Replay(l: LifetimeStats, answers: seq<bool>): LifetimeStats
  {
    if answers == [] then l
    else RecordLifetime(Replay(l, answers[..|answers| - 1]), answers[|answers| - 1])
  }

  function CountCorrect(answers: seq<bool>): nat
  {
    if answers == [] then 0
    else CountCorrect(answers[..|answers| - 1]) + (if answers[|answers| - 1] then 1 else 0)
  }

  /** All answers in positions `i` up to (not including) `j` are correct. */
  predicate AllCorrect(answers: seq<bool>, i: int, j: int)
    requires 0 <= i <= j <= |answers|
  {
    forall k :: i <= k < j ==> answers[k]
  }

  /** `n` is the length of the run of correct answers that ends the sequence. */
  predicate IsFinalRun(answers: seq<bool>, n: nat) {
    n <= |answers| && AllCorrect(answers, |answers| - n, |answers|)
    && (n < |answers| ==> !answers[|answers| - n - 1])
  }

  predicate RunOfLength(answers: seq<bool>, i: int, n: nat) {
    0 <= i && i + n <= |answers| && AllCorrect(answers, i, i + n)
  }

  /** `n` is the length of the longest run of correct answers. */
  ghost predicate IsLongestRun(answers: seq<bool>, n: nat) {
    (exists i :: RunOfLength(answers, i, n))
    && (forall i, m: nat :: RunOfLength(answers, i, m) ==> m <= n)
  }

  /**
   * From zero statistics, a sequence of answers gives: one studied card per
   * answer, one correct answer per correct answer, the length of the final
   * run of correct answers as the streak and the length of the longest such
   * run as the longest streak.
   */
  lemma {:induction false} ReplayCountsRuns(answers: seq<bool>)
    ensures var l := Replay(NoReviews, answers);
      && l.cardsStudied == |answers|
      && l.correctAnswers == CountCorrect(answers)
      && IsFinalRun(answers, l.streak)
      && IsLongestRun(answers, l.longestStreak)
  {
    if answers == [] {
      assert RunOfLength(answers, 0, 0);
    } else {
      var p, b := answers[..|answers| - 1], answers[|answers| - 1];
      ReplayCountsRuns(p);
      var lp := Replay(NoReviews, p);
      assert answers == p + [b];
      FinalRunStep(p, b, lp.streak);
      LongestRunStep(p, b, lp.streak, lp.longestStreak);
    }
  }

  /** One more answer either extends the final run by one or ends it. */
  lemma FinalRunStep(p: seq<bool>, b: bool, s: nat)
    requires IsFinalRun(p, s)
    ensures IsFinalRun(p + [b], if b then s + 1 else 0)
  {
    var a := p + [b];
    var n := |a|;
    assert forall k :: 0 <= k < n - 1 ==> a[k] == p[k];
    if b {
      assert AllCorrect(a, n - (s + 1), n);
      if s + 1 < n {
        assert !a[n - 1 - s - 1];
      }
    }
  }

  /** One more answer gives a new longest run exactly when it makes the final run longer than the old longest. */
  lemma LongestRunStep(p: seq<bool>, b: bool, s: nat, longest: nat)
    requires IsFinalRun(p, s) && IsLongestRun(p, longest)
    ensures var s' := if b then s + 1 else 0;
      IsLongestRun(p + [b], if longest >= s' then longest else s')
  {
    var a := p + [b];
    var n := |a|;
    var s' := if b then s + 1 else 0;
    var l := if longest >= s' then longest else s';
    assert forall k :: 0 <= k < n - 1 ==> a[k] == p[k];
    // a witness for the longest run
    if l == longest {
      var i :| RunOfLength(p, i, longest);
      assert RunOfLength(a, i, l);
    } else {
      assert AllCorrect(a, n - s', n);
      assert RunOfLength(a, n - s', l);
    }
    // no run is longer
    forall i, m: nat | RunOfLength(a, i, m) ensures m <= l {
      if i + m <= n - 1 {
        assert RunOfLength(p, i, m);
      } else if !b {
        assert !a[n - 1];
      } else {
        // the run ends the sequence, so within `p` it is part of the final run
        assert i >= n - 1 - s;
      }
    }
  }

  /** Replaying answers from consistent statistics keeps them consistent. */
  lemma {:induction false} ReplayConsistent(l: LifetimeStats, answers: seq<bool>)
    requires LifetimeConsistent(l)
    ensures LifetimeConsistent(Replay(l, answers))
    ensures Replay(l, answers).cardsStudied == l.cardsStudied + |answers|
  {
    if answers != [] {
      ReplayConsistent(l, answers[..|answers| - 1]);
    }
  }

  /** Scenario: a wrong answer ends a streak of 4, and the next right answer starts a new one. */
  lemma StreakBrokenThenRestarted(studied: nat, correct: nat)
    ensures var afterWrong := RecordLifetime(LifetimeStats(studied, correct, 4, 4), false);
      var afterRight := RecordLifetime(afterWrong, true);
      && afterWrong.streak == 0 && afterWrong.longestStreak == 4
      && afterRight.streak == 1 && afterRight.longestStreak == 4
  {
  }
}
