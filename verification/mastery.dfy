/** The mastery rule and the review filter shared by the main menu, the deck
    page and the study session. */
module Mastery {
  import opened Cards

  /** Swift's `allSatisfy` with the mastery test, walked front to back; true on
      an empty sequence. */
  predicate AllSatisfyMastery(cards: seq<Card>) {
    |cards| == 0 || (CardMastered(cards[0]) && AllSatisfyMastery(cards[1..]))
  }

  /** `!cards.isEmpty && cards.allSatisfy { !needsReview && correctStreak >= 3 }`. */
  predicate DeckIsMastered(cards: seq<Card>) {
    |cards| > 0 && AllSatisfyMastery(cards)
  }

  lemma {:induction false} AllSatisfyMasteryIff(cards: seq<Card>)
    ensures AllSatisfyMastery(cards) <==> forall i :: 0 <= i < |cards| ==> CardMastered(cards[i])
    decreases |cards|
  {
    if |cards| > 0 {
      AllSatisfyMasteryIff(cards[1..]);
      assert forall i :: 0 < i < |cards| ==> cards[i] == cards[1..][i - 1];
    }
  }

  /** The mastery rule: a card list is mastered exactly when it is non-empty and
      every card is out of review with a streak of at least three. */
  lemma MasteryRule(cards: seq<Card>)
    ensures DeckIsMastered(cards) <==>
      |cards| > 0 && forall i :: 0 <= i < |cards| ==> !cards[i].needsReview && cards[i].correctStreak >= 3
  {
    AllSatisfyMasteryIff(cards);
  }

  /** An empty deck is never mastered, although `allSatisfy` holds of it. */
  lemma EmptyNeverMastered(cards: seq<Card>)
    requires |cards| == 0
    ensures AllSatisfyMastery(cards) && !DeckIsMastered(cards)
  {
  }

  /** Mastery depends only on which cards there are, not on their order. */
  lemma MasteryIgnoresOrder(a: seq<Card>, b: seq<Card>)
    requires multiset(a) == multiset(b)
    ensures DeckIsMastered(a) <==> DeckIsMastered(b)
  {
    AllSatisfyMasteryIff(a);
    AllSatisfyMasteryIff(b);
    assert |a| == |multiset(a)| == |multiset(b)| == |b|;
    if DeckIsMastered(a) {
      forall i | 0 <= i < |b| ensures CardMastered(b[i]) {
        assert b[i] in multiset(a);
      }
    }
    if DeckIsMastered(b) {
      forall i | 0 <= i < |a| ensures CardMastered(a[i]) {
        assert a[i] in multiset(b);
      }
    }
  }

  /** `filter { $0.needsReview }`: the flagged cards, in their original order. */
  function NeedingReview(cards: seq<Card>): (r: seq<Card>)
    ensures forall c :: multiset(r)[c] == if c.needsReview then multiset(cards)[c] else 0
    ensures |r| <= |cards|
  {
    if |cards| == 0 then []
    else
      assert cards == [cards[0]] + cards[1..];
      var rest := NeedingReview(cards[1..]);
      if cards[0].needsReview then [cards[0]] + rest else rest
  }

  lemma NeedingReviewMembers(cards: seq<Card>)
    ensures forall c :: c in NeedingReview(cards) <==> c in cards && c.needsReview
  {
    forall c ensures c in NeedingReview(cards) <==> c in cards && c.needsReview {
      assert c in NeedingReview(cards) <==> multiset(NeedingReview(cards))[c] > 0;
      assert c in cards <==> multiset(cards)[c] > 0;
    }
  }

  /** Reordering the cards reorders the flagged ones the same way. */
  lemma NeedingReviewRespectsPermutation(a: seq<Card>, b: seq<Card>)
    requires multiset(a) == multiset(b)
    ensures multiset(NeedingReview(a)) == multiset(NeedingReview(b))
  {
    forall c ensures multiset(NeedingReview(a))[c] == multiset(NeedingReview(b))[c] {
    }
  }

  /** Some card is flagged exactly when the filter returns something. */
  lemma NeedingReviewNonEmptyIff(cards: seq<Card>)
    ensures |NeedingReview(cards)| > 0 <==> exists i :: 0 <= i < |cards| && cards[i].needsReview
  {
    NeedingReviewMembers(cards);
    if |NeedingReview(cards)| > 0 {
      var c := NeedingReview(cards)[0];
      assert c in NeedingReview(cards);
      var i :| 0 <= i < |cards| && cards[i] == c;
    }
    if exists i :: 0 <= i < |cards| && cards[i].needsReview {
      var i :| 0 <= i < |cards| && cards[i].needsReview;
      assert cards[i] in NeedingReview(cards);
    }
  }

  /** A mastered card list has nothing left to review. */
  lemma MasteredHasNothingToReview(cards: seq<Card>)
    requires DeckIsMastered(cards)
    ensures NeedingReview(cards) == []
  {
    MasteryRule(cards);
    NeedingReviewNonEmptyIff(cards);
  }
}
