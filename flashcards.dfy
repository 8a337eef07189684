/**
 * The flashcard trainer: the card record, the due set and the cursor over
 * it, and the deck whose operations add, remove and grade cards while
 * keeping the session and lifetime statistics in step.
 */
module Flashcards {
  import opened Wrappers
  import opened Text
  import opened Seqs
  import opened Scheduler
  import opened Stats

  datatype Card = Card(
    id: string,
    front: string,
    back: string,
    ease: int,            // hundredths
    interval: int,        // days
    reviews: nat,
    created: Time,
    lastReviewed: Option<Time>,
    nextReview: Option<Time>,
    correctStreak: nat,
    totalCorrect: nat,
    totalReviews: nat)

  /** The data invariant of a card: ease within [1.3, 3.0], at least one day, counters ordered. */
  predicate WellFormed(c: Card) {
    MinEase <= c.ease <= MaxEase && c.interval >= 1
    && c.correctStreak <= c.totalCorrect <= c.totalReviews
  }

  /** A card is due when it has no review date or that date has come. */
  predicate IsDue(c: Card, now: Time) {
    c.nextReview.None? || c.nextReview.value <= now
  }

  /** A due card stays due as time passes, and a card not yet due has a review date after now. */
  lemma DueStaysDue(c: Card, now: Time, later: Time)
    requires now <= later
    ensures IsDue(c, now) ==> IsDue(c, later)
    ensures !IsDue(c, later) ==> !IsDue(c, now) && c.nextReview.Some? && c.nextReview.value > later
  {
  }

  /** The due set: the due cards, in deck order. */
  function Due(cards: seq<Card>, now: Time): (due: seq<Card>)
    ensures |due| <= |cards|
    ensures forall i :: 0 <= i < |due| ==> due[i] in cards && IsDue(due[i], now)
    ensures forall i :: 0 <= i < |cards| && IsDue(cards[i], now) ==> cards[i] in due
  {
    Filter(cards, c => IsDue(c, now))
  }

  /** The due set of two decks put together is the two due sets put together. */
  lemma DueConcat(a: seq<Card>, b: seq<Card>, now: Time)
    ensures Due(a + b, now) == Due(a, now) + Due(b, now)
  {
    FilterConcat(a, b, c => IsDue(c, now));
  }

  /** Recomputing the due set of the due set changes nothing. */
  lemma DueIdempotent(cards: seq<Card>, now: Time)
    ensures Due(Due(cards, now), now) == Due(cards, now)
  {
    FilterIdempotent(cards, c => IsDue(c, now));
  }

  /** The card shown: the due card at the cursor, else the deck's card at the cursor, else none. */
  function CurrentCard(cards: seq<Card>, now: Time, index: nat): (r: Option<Card>)
    ensures r.None? <==> index >= |cards|
    ensures r.Some? ==> r.value in cards
    ensures index < |Due(cards, now)| ==> r == Some(Due(cards, now)[index]) && IsDue(r.value, now)
    ensures |Due(cards, now)| <= index < |cards| ==> r == Some(cards[index])
  {
    var due := Due(cards, now);
    if index < |due| then Some(due[index])
    else if index < |cards| then Some(cards[index])
    else None
  }

  /** The card `addCard` creates: trimmed text, ease 2.5, one day, zero counters, due at once. */
  function NewCard(id: string, front: string, back: string, now: Time): (c: Card)
    ensures WellFormed(c) && IsDue(c, now)
    ensures c.id == id && c.front == Trim(front) && c.back == Trim(back)
    ensures c.ease == InitialEase && c.interval == 1
    ensures c.lastReviewed.None? && c.created == now
    ensures c.reviews == c.totalReviews == c.totalCorrect == c.correctStreak == 0
  {
    Card(id, Trim(front), Trim(back), InitialEase, FirstInterval, 0, now, None, Some(now), 0, 0, 0)
  }

  /**
   * A card carrying the id of the graded card `current`, after the review:
   * the schedule and the streak come from `current`, the counters from the
   * card itself.
   */
  function Graded(c: Card, current: Card, grade: int, now: Time): (g: Card)
    ensures g.id == c.id && g.front == c.front && g.back == c.back && g.created == c.created
    ensures g.reviews == c.reviews + 1 && g.totalReviews == c.totalReviews + 1
    ensures g.totalCorrect == c.totalCorrect + 1 <==> IsCorrect(grade)
    ensures !IsCorrect(grade) ==> g.totalCorrect == c.totalCorrect && g.correctStreak == 0
    ensures IsCorrect(grade) ==> g.correctStreak == current.correctStreak + 1
    ensures var s := CalculateNextReview(current.ease, current.interval, grade, now);
      g.ease == s.ease && g.interval == s.interval && g.nextReview == Some(s.nextReview)
    ensures g.lastReviewed == Some(now) && !IsDue(g, now)
    ensures c == current && WellFormed(c) ==> WellFormed(g)
  {
    var s := CalculateNextReview(current.ease, current.interval, grade, now);
    var correct := IsCorrect(grade);
    c.(ease := s.ease, interval := s.interval, nextReview := Some(s.nextReview),
       reviews := c.reviews + 1, lastReviewed := Some(now),
       correctStreak := if correct then current.correctStreak + 1 else 0,
       totalCorrect := c.totalCorrect + (if correct then 1 else 0),
       totalReviews := c.totalReviews + 1)
  }

  /** The deck after grading `current`: every card with its id is graded, the rest stay. */
  function ReviewDeck(cards: seq<Card>, current: Card, grade: int, now: Time): (r: seq<Card>)
    ensures |r| == |cards|
    ensures forall i :: 0 <= i < |cards| ==> r[i].id == cards[i].id
    ensures forall i :: 0 <= i < |cards| && cards[i].id != current.id ==> r[i] == cards[i]
    ensures forall i :: 0 <= i < |cards| && cards[i].id == current.id ==> r[i] == Graded(cards[i], current, grade, now)
  {
    seq(|cards|, i requires 0 <= i < |cards| =>
      if cards[i].id == current.id then Graded(cards[i], current, grade, now) else cards[i])
  }

  /** The deck after `removeCard(id)`. */
  function RemoveId(cards: seq<Card>, id: string): (r: seq<Card>)
    ensures |r| <= |cards|
    ensures forall i :: 0 <= i < |r| ==> r[i] in cards && r[i].id != id
    ensures forall i :: 0 <= i < |cards| && cards[i].id != id ==> cards[i] in r
  {
    Filter(cards, (c: Card) => c.id != id)
  }

  predicate UniqueIds(cards: seq<Card>) {
    forall i, j :: 0 <= i < j < |cards| ==> cards[i].id != cards[j].id
  }

  /** A card whose id is new can go in front without breaking uniqueness. */
  lemma ConsKeepsUnique(c: Card, cards: seq<Card>)
    requires UniqueIds(cards) && forall d :: d in cards ==> d.id != c.id
    ensures UniqueIds([c] + cards)
  {
    var r := [c] + cards;
    forall i, j | 0 <= i < j < |r| ensures r[i].id != r[j].id {
      assert r[j] == cards[j - 1];
      if i > 0 {
        assert r[i] == cards[i - 1];
      }
    }
  }

  /** A well-formed card in front of well-formed cards. */
  lemma ConsKeepsWellFormed(c: Card, cards: seq<Card>)
    requires WellFormed(c)
    ensures (forall d :: d in cards ==> WellFormed(d)) ==> forall d :: d in [c] + cards ==> WellFormed(d)
  {
  }

  /** Where ids are unique, a card is determined by its id. */
  lemma SameIdSameCard(cards: seq<Card>, c: Card, d: Card)
    requires UniqueIds(cards) && c in cards && d in cards && c.id == d.id
    ensures c == d
  {
  }

  lemma {:induction false} RemoveKeepsUnique(cards: seq<Card>, id: string)
    requires UniqueIds(cards)
    ensures UniqueIds(RemoveId(cards, id))
  {
    if cards != [] {
      var p := (c: Card) => c.id != id;
      RemoveKeepsUnique(cards[1..], id);
      var rest := RemoveId(cards[1..], id);
      assert forall j :: 0 <= j < |rest| ==> rest[j].id != cards[0].id;
      assert RemoveId(cards, id) == (if p(cards[0]) then [cards[0]] else []) + rest;
    }
  }

  /**
   * Removing a card, where ids are unique, shrinks the due set by one when
   * that card was due and leaves its length alone otherwise.
   */
  lemma {:induction false} RemoveShrinksDue(cards: seq<Card>, id: string, now: Time)
    requires UniqueIds(cards)
    ensures |Due(RemoveId(cards, id), now)| ==
      |Due(cards, now)| - (if exists k :: 0 <= k < |cards| && cards[k].id == id && IsDue(cards[k], now) then 1 else 0)
  {
    if cards != [] {
      var c, tail := cards[0], cards[1..];
      RemoveShrinksDue(tail, id, now);
      RemoveIdCons(cards, id);
      DueConcat(if c.id != id then [c] else [], RemoveId(tail, id), now);
      assert cards == [c] + tail;
      DueConcat([c], tail, now);
      DueIdCons(cards, id, now);
    }
  }

  lemma RemoveIdCons(cards: seq<Card>, id: string)
    requires cards != []
    ensures RemoveId(cards, id) == (if cards[0].id != id then [cards[0]] else []) + RemoveId(cards[1..], id)
  {
  }

  /** Where ids are unique, the due card with a given id is the first card or one of the rest. */
  lemma DueIdCons(cards: seq<Card>, id: string, now: Time)
    requires cards != [] && UniqueIds(cards)
    ensures var tail := cards[1..];
      var here := exists k :: 0 <= k < |cards| && cards[k].id == id && IsDue(cards[k], now);
      var there := exists k :: 0 <= k < |tail| && tail[k].id == id && IsDue(tail[k], now);
      && (cards[0].id == id ==> (here <==> IsDue(cards[0], now)) && !there)
      && (cards[0].id != id ==> (here <==> there))
  {
    var tail := cards[1..];
    assert forall k :: 0 <= k < |tail| ==> tail[k] == cards[k + 1];
    if exists k :: 0 <= k < |cards| && cards[k].id == id && IsDue(cards[k], now) {
      var k :| 0 <= k < |cards| && cards[k].id == id && IsDue(cards[k], now);
      if k > 0 {
        assert tail[k - 1].id == id && IsDue(tail[k - 1], now);
      }
    }
  }

  lemma ReviewDeckCons(cards: seq<Card>, current: Card, grade: int, now: Time)
    requires cards != []
    ensures ReviewDeck(cards, current, grade, now)
      == [ReviewDeck(cards, current, grade, now)[0]] + ReviewDeck(cards[1..], current, grade, now)
  {
    var r := ReviewDeck(cards, current, grade, now);
    var rt := ReviewDeck(cards[1..], current, grade, now);
    assert forall i :: 0 <= i < |rt| ==> rt[i] == r[i + 1];
  }

  /**
   * Up to the instant of the review, the due set after grading is the due
   * set without the graded card's id: the graded card is never due before
   * its new review date.
   */
  lemma {:induction false} ReviewedLeavesDue(cards: seq<Card>, current: Card, grade: int, now: Time, t: Time)
    requires t <= now
    ensures Due(ReviewDeck(cards, current, grade, now), t) == Due(RemoveId(cards, current.id), t)
    decreases |cards|
  {
    if cards != [] {
      var c := cards[0];
      var r := ReviewDeck(cards, current, grade, now);
      ReviewDeckCons(cards, current, grade, now);
      ReviewedLeavesDue(cards[1..], current, grade, now, t);
      assert cards == [c] + cards[1..];
      DueConcat([r[0]], ReviewDeck(cards[1..], current, grade, now), t);
      assert RemoveId(cards, current.id) == (if c.id != current.id then [c] else []) + RemoveId(cards[1..], current.id);
      DueConcat(if c.id != current.id then [c] else [], RemoveId(cards[1..], current.id), t);
    }
  }

  /**
   * Grading a due card at `now`, where ids are unique, takes that card, and
   * only that card, out of the due set at any instant up to `now`.
   */
  lemma ReviewShrinksDue(cards: seq<Card>, current: Card, grade: int, now: Time, t: Time)
    requires UniqueIds(cards) && current in cards && IsDue(current, t) && t <= now
    ensures |Due(ReviewDeck(cards, current, grade, now), t)| == |Due(cards, t)| - 1
  {
    ReviewedLeavesDue(cards, current, grade, now, t);
    RemoveShrinksDue(cards, current.id, t);
  }

  /** Where ids are unique, grading changes exactly the graded card and its counters rise by one. */
  lemma ReviewChangesOnlyCurrent(cards: seq<Card>, k: nat, grade: int, now: Time)
    requires UniqueIds(cards) && k < |cards|
    ensures var r := ReviewDeck(cards, cards[k], grade, now);
      && (forall i :: 0 <= i < |cards| && i != k ==> r[i] == cards[i])
      && r[k] == Graded(cards[k], cards[k], grade, now)
      && r[k].reviews == cards[k].reviews + 1 && r[k].totalReviews == cards[k].totalReviews + 1
      && r[k].lastReviewed == Some(now)
      && (r[k].totalCorrect == cards[k].totalCorrect + 1 <==> IsCorrect(grade))
      && r[k].correctStreak == (if IsCorrect(grade) then cards[k].correctStreak + 1 else 0)
      && (WellFormed(cards[k]) ==> WellFormed(r[k]))
      && UniqueIds(r)
  {
  }

  /**
   * Where the cursor goes after `removeCard`: it is moved back to the
   * second-to-last due position when it was at or past the last one.
   */
  function CursorAfterRemove(index: nat, dueLen: nat): (r: nat)
    ensures r <= index
    ensures index < dueLen - 1 ==> r == index
    ensures index >= dueLen - 1 && dueLen >= 2 ==> r == dueLen - 2
    ensures dueLen <= 1 ==> r == 0
  {
    if index >= dueLen - 1 then Max(0, dueLen - 2) else index
  }

  lemma MulBounds(n: int, d: int)
    requires n > 0
    ensures d >= 1 ==> n * d >= n
    ensures d <= -1 ==> n * d <= -n
  {
    if d >= 1 { assert n * d == n + n * (d - 1); }
    if d <= -1 { assert n * d == -n + n * (d + 1); }
  }

  /** A multiple of `n` leaves no remainder. */
  lemma {:induction false} MulMod(k: int, n: int)
    requires n > 0
    ensures (n * k) % n == 0
  {
    var m := n * k;
    var q, r := m / n, m % n;
    assert n * (k - q) == r by {
      assert m == n * q + r;
      assert n * k - n * q == n * (k - q);
    }
    MulBounds(n, k - q);
  }

  /** `(index + 1) % n`: one step forward through `n` positions. */
  function WrapNext(index: nat, n: nat): (r: nat)
    requires n > 0
    ensures r < n
    ensures (index + 1 - r) % n == 0
    ensures index < n ==> r == if index + 1 == n then 0 else index + 1
  {
    var r := (index + 1) % n;
    var q := (index + 1) / n;
    assert index + 1 - r == n * q;
    MulMod(q, n);
    r
  }

  /**
   * Where the cursor goes after a review, from the due-set length and deck
   * size taken before the review: one step forward with wrap-around through
   * the due set if more than one card was due, else through the deck if it
   * has more than one card, else it stays.
   */
  function CursorAfterReview(index: nat, dueLen: nat, deckLen: nat): (r: nat)
    ensures dueLen > 1 ==> r < dueLen && (index + 1 - r) % dueLen == 0
    ensures dueLen <= 1 && deckLen > 1 ==> r < deckLen && (index + 1 - r) % deckLen == 0
    ensures dueLen <= 1 && deckLen <= 1 ==> r == index
    ensures dueLen > 1 && index < dueLen ==> r == if index + 1 == dueLen then 0 else index + 1
    ensures dueLen <= 1 && index < deckLen ==> r == if index + 1 == deckLen then 0 else index + 1
  {
    if dueLen > 1 then WrapNext(index, dueLen)
    else if deckLen > 1 then WrapNext(index, deckLen)
    else index
  }

  /**
   * Removing the due card under a valid cursor leaves the cursor valid
   * within the smaller due set (or at 0 when that set is empty).
   */
  lemma RemoveKeepsCursorInDueSet(cards: seq<Card>, index: nat, now: Time)
    requires UniqueIds(cards) && index < |Due(cards, now)|
    ensures var id := Due(cards, now)[index].id;
      var after := Due(RemoveId(cards, id), now);
      var cursor := CursorAfterRemove(index, |Due(cards, now)|);
      cursor < |after| || (after == [] && cursor == 0)
  {
    var due := Due(cards, now);
    var c := due[index];
    assert c in cards;
    var k :| 0 <= k < |cards| && cards[k] == c;
    RemoveShrinksDue(cards, c.id, now);
  }

  /**
   * The cursor is advanced with the due-set length from before the review,
   * while the graded card has left the due set. So when the cursor was on
   * the second-to-last due card, it ends one past the new due set and the
   * card shown next is taken from the whole deck.
   */
  lemma ReviewCursorPassesDueSet(cards: seq<Card>, grade: int, now: Time)
    requires UniqueIds(cards) && |Due(cards, now)| >= 2
    ensures var n := |Due(cards, now)|;
      var current := Due(cards, now)[n - 2];
      CursorAfterReview(n - 2, n, |cards|) == |Due(ReviewDeck(cards, current, grade, now), now)|
  {
    var n := |Due(cards, now)|;
    var current := Due(cards, now)[n - 2];
    assert current in cards && IsDue(current, now);
    ReviewShrinksDue(cards, current, grade, now, now);
  }

  /** The accuracy shown beside a card in the deck list. */
  function CardAccuracy(c: Card): (r: nat)
    ensures c.totalReviews == 0 ==> r == 0
    ensures WellFormed(c) ==> r <= 100
  {
    Accuracy(c.totalCorrect, c.totalReviews)
  }

  datatype Mode = Edit | Study | StatsView

  /**
   * The trainer's state. `dueAt` is the clock reading the due set was last
   * computed at: the application recomputes it only when the cards change.
   */
  class Deck {
    var cards: seq<Card>
    var currentIndex: nat
    var session: SessionStats
    var lifetime: LifetimeStats
    var mode: Mode
    var dueAt: Time

    ghost predicate Valid()
      reads this
    {
      UniqueIds(cards)
    }

    /** The data invariants of cards and statistics, which every operation preserves. */
    ghost predicate Sound()
      reads this
    {
      (forall c :: c in cards ==> WellFormed(c))
      && SessionConsistent(session) && LifetimeConsistent(lifetime)
    }

    /** The memoised due set, as computed at `dueAt`. */
    function DueCards(): (due: seq<Card>)
      reads this
      ensures |due| <= |cards|
      ensures forall i :: 0 <= i < |due| ==> due[i] in cards && IsDue(due[i], dueAt)
      ensures forall i :: 0 <= i < |cards| && IsDue(cards[i], dueAt) ==> cards[i] in due
    {
      Due(cards, dueAt)
    }

    /** The card shown at the cursor. */
    function Current(): (r: Option<Card>)
      reads this
      ensures r.None? <==> currentIndex >= |cards|
      ensures r.Some? ==> r.value in cards
      ensures currentIndex < |DueCards()| ==> r == Some(DueCards()[currentIndex])
      ensures |DueCards()| <= currentIndex < |cards| ==> r == Some(cards[currentIndex])
    {
      CurrentCard(cards, dueAt, currentIndex)
    }

    function SessionAccuracy(): (r: nat)
      reads this
      ensures session.studied == 0 ==> r == 0
      ensures SessionConsistent(session) ==> r <= 100
    {
      Accuracy(session.correct, session.studied)
    }

    function OverallAccuracy(): (r: nat)
      reads this
      ensures lifetime.cardsStudied == 0 ==> r == 0
      ensures LifetimeConsistent(lifetime) ==> r <= 100
    {
      Accuracy(lifetime.correctAnswers, lifetime.cardsStudied)
    }

    /** The trainer as mounted at `now`, with the stored deck and lifetime statistics. */
    constructor (stored: seq<Card>, storedStats: LifetimeStats, now: Time)
      requires UniqueIds(stored)
      ensures Valid()
      ensures cards == stored && lifetime == storedStats
      ensures currentIndex == 0 && session == FreshSession(now) && mode == Edit && dueAt == now
      ensures Sound() <==> (forall c :: c in stored ==> WellFormed(c)) && LifetimeConsistent(storedStats)
    {
      cards := stored;
      lifetime := storedStats;
      currentIndex := 0;
      session := FreshSession(now);
      mode := Edit;
      dueAt := now;
    }

    /**
     * `addCard` with the text fields `front` and `back`, the generated `id`
     * and the clock reading `now`: blank text changes nothing; otherwise the
     * new card goes first.
     */
    method AddCard(front: string, back: string, id: string, now: Time)
      requires Valid()
      requires forall c :: c in cards ==> c.id != id
      modifies this
      ensures Valid()
      ensures Trim(front) == [] || Trim(back) == [] ==> unchanged(this)
      ensures Trim(front) != [] && Trim(back) != [] ==>
        && cards == [NewCard(id, front, back, now)] + old(cards)
        && dueAt == now
        && currentIndex == old(currentIndex) && session == old(session)
        && lifetime == old(lifetime) && mode == old(mode)
      ensures old(Sound()) ==> Sound()
    {
      if Trim(front) == [] || Trim(back) == [] {
        return;
      }
      var card := NewCard(id, front, back, now);
      ConsKeepsUnique(card, cards);
      ConsKeepsWellFormed(card, cards);
      cards := [card] + cards;
      dueAt := now;
    }

    /** `removeCard(id)`, with the due set recomputed at `now`. */
    method RemoveCard(id: string, now: Time)
      requires Valid()
      modifies this
      ensures Valid()
      ensures cards == RemoveId(old(cards), id) && dueAt == now
      ensures currentIndex == CursorAfterRemove(old(currentIndex), |old(DueCards())|)
      ensures session == old(session) && lifetime == old(lifetime) && mode == old(mode)
      ensures old(Sound()) ==> Sound()
    {
      var dueLen := |DueCards()|;
      RemoveKeepsUnique(cards, id);
      cards := RemoveId(cards, id);
      if currentIndex >= dueLen - 1 {
        currentIndex := Max(0, dueLen - 2);
      }
      dueAt := now;
    }

    /**
     * `reviewCard(grade)` at `now`: nothing without a current card;
     * otherwise the card, both statistics and the cursor change together.
     */
    method Review(grade: int, now: Time)
      requires Valid()
      modifies this
      ensures Valid()
      ensures old(Current()).None? ==> unchanged(this)
      ensures old(Current()).Some? ==>
        && cards == ReviewDeck(old(cards), old(Current()).value, grade, now)
        && session == RecordSession(old(session), IsCorrect(grade))
        && lifetime == RecordLifetime(old(lifetime), IsCorrect(grade))
        && currentIndex == CursorAfterReview(old(currentIndex), |old(DueCards())|, |old(cards)|)
        && dueAt == now && mode == old(mode)
      ensures old(Sound()) ==> Sound()
    {
      var current := Current();
      if current.None? {
        return;
      }
      var card := current.value;
      var dueLen := |DueCards()|;
      var deckLen := |cards|;
      var correct := IsCorrect(grade);
      ghost var before := cards;
      cards := ReviewDeck(cards, card, grade, now);
      forall c | c in cards && old(Sound()) ensures WellFormed(c) {
        var i :| 0 <= i < |cards| && cards[i] == c;
        if before[i].id == card.id {
          SameIdSameCard(before, before[i], card);
        }
      }
      session := RecordSession(session, correct);
      lifetime := RecordLifetime(lifetime, correct);
      if dueLen > 1 {
        currentIndex := WrapNext(currentIndex, dueLen);
      } else if deckLen > 1 {
        currentIndex := WrapNext(currentIndex, deckLen);
      }
      dueAt := now;
    }

    /** Switching the trainer's mode; entering study mode starts a fresh session at the first card. */
    method SetMode(m: Mode, now: Time)
      modifies this
      ensures mode == m && cards == old(cards) && lifetime == old(lifetime) && dueAt == old(dueAt)
      ensures m == Study && old(mode) != Study ==> session == FreshSession(now) && currentIndex == 0
      ensures !(m == Study && old(mode) != Study) ==> session == old(session) && currentIndex == old(currentIndex)
      ensures old(Valid()) ==> Valid()
      ensures old(Sound()) ==> Sound()
    {
      if m == Study && mode != Study {
        session := FreshSession(now);
        currentIndex := 0;
      }
      mode := m;
    }
  }
}
