/** The deck page: its derived views of the deck (flagged cards, mastery), the
    choice of study buttons, and the refresh that keeps the stored mastery
    flag in line with the cards. */
module DeckPage {
  import opened Cards
  import opened Mastery

  /** `cardsNeedingReview`: the flagged cards in creation order. */
  function CardsNeedingReview(d: Deck): seq<Card> {
    NeedingReview(FlashcardsArray(d))
  }

  predicate HasCardsToReview(d: Deck) {
    |CardsNeedingReview(d)| > 0
  }

  /** `isDeckMastered`, evaluated over `flashcardsArray`. */
  predicate IsDeckMastered(d: Deck) {
    DeckIsMastered(FlashcardsArray(d))
  }

  /** The page's mastery test agrees with the mastery rule read directly off the
      unordered card store. */
  lemma IsDeckMasteredRule(d: Deck)
    ensures IsDeckMastered(d) <==>
      |d.stored| > 0 && forall i :: 0 <= i < |d.stored| ==> !d.stored[i].needsReview && d.stored[i].correctStreak >= MasteryStreak
  {
    FlashcardsArrayOrdered(d);
    MasteryIgnoresOrder(FlashcardsArray(d), d.stored);
    MasteryRule(d.stored);
  }

  /** The page reports cards to review exactly when some stored card is flagged. */
  lemma HasCardsToReviewRule(d: Deck)
    ensures HasCardsToReview(d) <==> exists i :: 0 <= i < |d.stored| && d.stored[i].needsReview
  {
    FlashcardsArrayOrdered(d);
    NeedingReviewRespectsPermutation(FlashcardsArray(d), d.stored);
    NeedingReviewNonEmptyIff(d.stored);
    assert |CardsNeedingReview(d)| == |multiset(CardsNeedingReview(d))|;
    assert |NeedingReview(d.stored)| == |multiset(NeedingReview(d.stored))|;
  }

  /** The controls at the foot of the deck page. Every study button opens a
      plain session; only the review button opens a review-mode session. */
  datatype Controls =
    | NoCards                         // "No Flashcards Yet", no buttons
    | MasteredStudyAgain              // "Deck Mastered!" banner and "Study Again"
    | StudyAllOrReview(reviewCount: nat)  // "Study All" and "Review (n)"
    | StudyNow                        // "Study Now"

  function PageControls(d: Deck): (r: Controls)
    ensures r == NoCards <==> |d.stored| == 0
    ensures r == MasteredStudyAgain <==> IsDeckMastered(d)
    ensures r.StudyAllOrReview? <==> HasCardsToReview(d)
    ensures r.StudyAllOrReview? ==> r.reviewCount == |CardsNeedingReview(d)| > 0
    ensures r == StudyNow <==> |d.stored| > 0 && !IsDeckMastered(d) && !HasCardsToReview(d)
  {
    var cards := FlashcardsArray(d);
    FlashcardsArrayOrdered(d);
    if |cards| == 0 then
      NoCards
    else if IsDeckMastered(d) then
      MasteredHasNothingToReview(cards);
      MasteredStudyAgain
    else if HasCardsToReview(d) then
      StudyAllOrReview(|CardsNeedingReview(d)|)
    else
      StudyNow
  }

  /** When the page offers only "Study Now", no card is flagged but some card
      has yet to reach the streak of three. */
  lemma StudyNowMeansStreaksToGo(d: Deck)
    requires PageControls(d) == StudyNow
    ensures forall i :: 0 <= i < |d.stored| ==> !d.stored[i].needsReview
    ensures exists i :: 0 <= i < |d.stored| && d.stored[i].correctStreak < MasteryStreak
  {
    HasCardsToReviewRule(d);
    IsDeckMasteredRule(d);
  }

  /** The stored flag disagrees with the deck's cards. */
  predicate FlagStale(d: Deck) {
    d.isMastered != IsDeckMastered(d)
  }

  /** Result of `refreshView`: the deck after the refresh, and whether a save
      was issued. */
  datatype Refresh = Refresh(deck: Deck, saved: bool)

  /** `refreshView`: bring the stored flag in line with the mastery test in
      either direction, saving only when the flag changes. The save's outcome
      is ignored; the in-memory flag stands either way. */
  function RefreshView(d: Deck): (r: Refresh)
    ensures r.deck.stored == d.stored
    ensures r.deck.isMastered == IsDeckMastered(d)
    ensures r.saved <==> FlagStale(d)
    ensures !r.saved ==> r.deck == d
  {
    if IsDeckMastered(d) && !d.isMastered then
      Refresh(d.(isMastered := true), true)
    else if !IsDeckMastered(d) && d.isMastered then
      Refresh(d.(isMastered := false), true)
    else
      Refresh(d, false)
  }

  /** A second refresh right after the first writes nothing and changes nothing. */
  lemma RefreshViewIdempotent(d: Deck)
    ensures RefreshView(RefreshView(d).deck) == Refresh(RefreshView(d).deck, false)
  {
  }
}
