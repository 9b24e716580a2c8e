/** The study session: a pass over a shuffled list of a deck's cards, answered
    one by one, followed by an optional review of the cards still flagged and a
    final mastery check. */
module StudyMode {
  import opened Cards
  import opened Mastery
  import opened Shuffle
  import DeckPage

  /** Where the session stands: on a card, asking whether to review the flagged
      cards, showing the "Deck Mastered!" alert, or closed. */
  datatype Phase = Studying | ReviewPrompt | MasteredAlert | Dismissed

  /** The view's session state. `reviewMode` is fixed when the view opens; the
      card lists hold references (ids) to cards owned by the deck. */
  datatype Session = Session(
    reviewMode: bool,
    cards: seq<CardId>,
    index: nat,
    showingBack: bool,
    studyingReviewCards: bool,
    reviewCards: seq<CardId>,
    phase: Phase)
  {
    /** Answers count as review answers (`reviewMode || studyingReviewCards`). */
    predicate Reviewing() {
      reviewMode || studyingReviewCards
    }
  }

  datatype StudyState = StudyState(deck: Deck, session: Session)

  /** The deck's flagged cards, by reference, in no particular order. */
  function FlaggedIds(d: Deck): multiset<CardId> {
    multiset(Ids(NeedingReview(d.stored)))
  }

  /** All of the deck's cards, by reference, in no particular order. */
  function AllIds(d: Deck): multiset<CardId> {
    multiset(Ids(d.stored))
  }

  /** The flagged cards' references in creation order, as collected when a
      plain session finishes. */
  function ReviewList(d: Deck): (r: seq<CardId>)
    ensures multiset(r) == FlaggedIds(d)
  {
    var flagged := NeedingReview(FlashcardsArray(d));
    FlashcardsArrayOrdered(d);
    NeedingReviewRespectsPermutation(FlashcardsArray(d), d.stored);
    IdsRespectPermutation(flagged, NeedingReview(d.stored));
    Ids(flagged)
  }

  /** `setupStudySession`: the deck's cards (or, in review mode, only its
      flagged cards) in the order given by `draws`, from the first card with
      its front showing. */
  function SetupStudySession(deck: Deck, reviewMode: bool, draws: seq<nat>): (s: Session)
    ensures s.index == 0 && !s.showingBack && s.phase == Studying
    ensures s.reviewMode == reviewMode && s.studyingReviewCards == reviewMode
    ensures reviewMode ==> multiset(s.cards) == FlaggedIds(deck)
    ensures !reviewMode ==> multiset(s.cards) == AllIds(deck)
  {
    if reviewMode then
      Session(reviewMode, Shuffled(ReviewList(deck), draws), 0, false, true, [], Studying)
    else
      FlashcardsArrayIds(deck);
      Session(reviewMode, Shuffled(Ids(FlashcardsArray(deck)), draws), 0, false, false, [], Studying)
  }

  /** Tapping the card turns it over. */
  function Flip(st: StudyState): (r: StudyState)
    ensures r.deck == st.deck
    ensures r.session.showingBack != st.session.showingBack
    ensures r.session.(showingBack := st.session.showingBack) == st.session
  {
    st.(session := st.session.(showingBack := !st.session.showingBack))
  }

  function AnsweredCorrectly(c: Card, reviewing: bool): Card {
    var streak := c.correctStreak + 1;
    c.(correctStreak := streak,
       needsReview := if reviewing && streak >= MasteryStreak then false else c.needsReview)
  }

  function AnsweredIncorrectly(c: Card): Card {
    c.(needsReview := true, correctStreak := 0)
  }

  /** Applies an answer to every stored card carrying the answered reference. */
  function ApplyAnswer(cards: seq<Card>, id: CardId, correct: bool, reviewing: bool): (r: seq<Card>)
    ensures |r| == |cards|
    ensures Ids(r) == Ids(cards)
  {
    seq(|cards|, i requires 0 <= i < |cards| =>
      if cards[i].id != id then cards[i]
      else if correct then AnsweredCorrectly(cards[i], reviewing)
      else AnsweredIncorrectly(cards[i]))
  }

  function CurrentCard(s: Session): CardId
    requires s.index < |s.cards|
  {
    s.cards[s.index]
  }

  /** The answer's effect on the current card, before moving on. */
  function RecordAnswer(st: StudyState, correct: bool): (r: StudyState)
    requires st.session.index < |st.session.cards|
    ensures r.session == st.session && r.deck.isMastered == st.deck.isMastered
  {
    var stored := ApplyAnswer(st.deck.stored, CurrentCard(st.session), correct, st.session.Reviewing());
    st.(deck := st.deck.(stored := stored))
  }

  /** `checkDeckMastery`: on a mastered deck, set the flag and, once the save
      succeeds, raise the alert (a failed save leaves the view where it is);
      otherwise close the view. The flag is never cleared here. */
  function CheckDeckMastery(st: StudyState, saveOk: bool): (r: StudyState)
    ensures r.deck.stored == st.deck.stored
    ensures r.deck.isMastered == (st.deck.isMastered || DeckPage.IsDeckMastered(st.deck))
    ensures DeckPage.IsDeckMastered(st.deck) && saveOk ==> r.session == st.session.(phase := MasteredAlert)
    ensures DeckPage.IsDeckMastered(st.deck) && !saveOk ==> r.session == st.session
    ensures !DeckPage.IsDeckMastered(st.deck) ==> r.session == st.session.(phase := Dismissed)
  {
    var cards := FlashcardsArray(st.deck);
    var allCardsMastered := AllSatisfyMastery(cards);
    if allCardsMastered && |cards| != 0 then
      var deck := st.deck.(isMastered := true);
      if saveOk then StudyState(deck, st.session.(phase := MasteredAlert))
      else StudyState(deck, st.session)
    else
      StudyState(st.deck, st.session.(phase := Dismissed))
  }

  /** `finishStudySession`: a review session goes to the mastery check; a plain
      session collects the still-flagged cards and offers to review them, or
      goes to the mastery check when there are none. */
  function FinishStudySession(st: StudyState, saveOk: bool): (r: StudyState)
    ensures r.deck.stored == st.deck.stored
    ensures r.session.cards == st.session.cards && r.session.index == st.session.index
    ensures r.session.reviewMode == st.session.reviewMode
    ensures r.session.studyingReviewCards == st.session.studyingReviewCards
    ensures st.session.Reviewing() ==> r.session.reviewCards == st.session.reviewCards
    ensures !st.session.Reviewing() ==> multiset(r.session.reviewCards) == FlaggedIds(st.deck)
    ensures !st.session.Reviewing() && FlaggedIds(st.deck) != multiset{} ==>
      r.deck == st.deck && r.session.phase == ReviewPrompt
    ensures st.session.Reviewing() || FlaggedIds(st.deck) == multiset{} ==>
      r.deck.isMastered == (st.deck.isMastered || DeckPage.IsDeckMastered(st.deck))
    ensures st.session.Reviewing() || FlaggedIds(st.deck) == multiset{} ==>
      r.session.phase ==
        if DeckPage.IsDeckMastered(st.deck) then (if saveOk then MasteredAlert else st.session.phase)
        else Dismissed
  {
    if st.session.reviewMode then
      CheckDeckMastery(st, saveOk)
    else if st.session.studyingReviewCards then
      CheckDeckMastery(st, saveOk)
    else
      var reviewCards := ReviewList(st.deck);
      var collected := st.(session := st.session.(reviewCards := reviewCards));
      if |reviewCards| != 0 then
        collected.(session := collected.session.(phase := ReviewPrompt))
      else
        CheckDeckMastery(collected, saveOk)
  }

  /** `nextCard`: step to the next card face down, or, on the last card, hand
      over to finish handling. The progress save's outcome does not matter;
      `masterySaveOk` is the outcome of the mastery check's save, should the
      finish step reach it. */
  function NextCard(st: StudyState, masterySaveOk: bool): (r: StudyState)
    ensures r.deck.stored == st.deck.stored
    ensures r.session.cards == st.session.cards
    ensures r.session.reviewMode == st.session.reviewMode
    ensures r.session.studyingReviewCards == st.session.studyingReviewCards
    ensures st.session.index < |st.session.cards| - 1 ==>
      r.deck == st.deck && r.session == st.session.(index := st.session.index + 1, showingBack := false)
    ensures st.session.index >= |st.session.cards| - 1 ==>
      r == FinishStudySession(st, masterySaveOk) && r.session.index == st.session.index
  {
    if st.session.index < |st.session.cards| - 1 then
      st.(session := st.session.(index := st.session.index + 1, showingBack := false))
    else
      FinishStudySession(st, masterySaveOk)
  }

  /** `markCorrect`: the current card's streak goes up by one, and its review
      flag is cleared only in a review session once the streak reaches three;
      no other card changes. */
  function MarkCorrect(st: StudyState, masterySaveOk: bool): (r: StudyState)
    requires st.session.index < |st.session.cards|
    ensures |r.deck.stored| == |st.deck.stored|
    ensures forall i :: 0 <= i < |st.deck.stored| ==>
      var before, after := st.deck.stored[i], r.deck.stored[i];
      after.id == before.id && after.created == before.created &&
      (before.id == CurrentCard(st.session) ==>
        after.correctStreak == before.correctStreak + 1 &&
        (after.needsReview <==>
          before.needsReview && !(st.session.Reviewing() && after.correctStreak >= MasteryStreak))) &&
      (before.id != CurrentCard(st.session) ==> after == before)
    ensures r.session.cards == st.session.cards
    ensures r.session.Reviewing() == st.session.Reviewing()
  {
    NextCard(RecordAnswer(st, true), masterySaveOk)
  }

  /** `markIncorrect`: the current card is flagged for review and its streak
      reset to zero; no other card changes. */
  function MarkIncorrect(st: StudyState, masterySaveOk: bool): (r: StudyState)
    requires st.session.index < |st.session.cards|
    ensures |r.deck.stored| == |st.deck.stored|
    ensures forall i :: 0 <= i < |st.deck.stored| ==>
      var before, after := st.deck.stored[i], r.deck.stored[i];
      after.id == before.id && after.created == before.created &&
      (before.id == CurrentCard(st.session) ==> after.needsReview && after.correctStreak == 0) &&
      (before.id != CurrentCard(st.session) ==> after == before)
    ensures r.session.cards == st.session.cards
    ensures r.session.Reviewing() == st.session.Reviewing()
  {
    NextCard(RecordAnswer(st, false), masterySaveOk)
  }

  /** `startReviewMode` ("Yes" on the prompt): study the collected flagged cards
      in the order given by `draws`, as review answers, from the first card. */
  function StartReviewMode(st: StudyState, draws: seq<nat>): (r: StudyState)
    ensures r.deck == st.deck
    ensures multiset(r.session.cards) == multiset(st.session.reviewCards)
    ensures r.session.studyingReviewCards && r.session.Reviewing()
    ensures r.session.index == 0 && !r.session.showingBack && r.session.phase == Studying
  {
    var cards := Shuffled(st.session.reviewCards, draws);
    st.(session := st.session.(cards := cards, studyingReviewCards := true, index := 0,
                               showingBack := false, phase := Studying))
  }

  /** "No" on the prompt, "Great!" on the alert, or "Done": the view closes. */
  function Dismiss(st: StudyState): (r: StudyState)
    ensures r.deck == st.deck && r.session.phase == Dismissed
  {
    st.(session := st.session.(phase := Dismissed))
  }

  // ---------------------------------------------------------------------------
  // Properties of the session

  /** The session's invariant: the index is on a card whenever there is one, and
      every reference points at a card of the deck. */
  predicate Valid(st: StudyState) {
    && (|st.session.cards| > 0 ==> st.session.index < |st.session.cards|)
    && (forall id :: id in st.session.cards ==> id in Ids(st.deck.stored))
    && (forall id :: id in st.session.reviewCards ==> id in Ids(st.deck.stored))
  }

  lemma FlaggedAreCards(d: Deck, id: CardId)
    requires id in FlaggedIds(d)
    ensures id in Ids(d.stored)
  {
    var flagged := NeedingReview(d.stored);
    var k :| 0 <= k < |flagged| && Ids(flagged)[k] == id;
    NeedingReviewMembers(d.stored);
    assert flagged[k] in d.stored;
    var j :| 0 <= j < |d.stored| && d.stored[j] == flagged[k];
    assert Ids(d.stored)[j] == id;
  }

  /** A freshly set-up session is valid. */
  lemma SetupIsValid(deck: Deck, reviewMode: bool, draws: seq<nat>)
    ensures Valid(StudyState(deck, SetupStudySession(deck, reviewMode, draws)))
  {
    var s := SetupStudySession(deck, reviewMode, draws);
    forall id | id in s.cards ensures id in Ids(deck.stored) {
      assert id in multiset(s.cards);
      if reviewMode {
        FlaggedAreCards(deck, id);
      } else {
        assert id in AllIds(deck);
      }
    }
  }

  lemma NextCardKeepsValid(st: StudyState, saveOk: bool)
    requires Valid(st) && st.session.index < |st.session.cards|
    ensures Valid(NextCard(st, saveOk))
  {
    var r := NextCard(st, saveOk);
    if st.session.index >= |st.session.cards| - 1 && !st.session.Reviewing() {
      forall id | id in r.session.reviewCards ensures id in Ids(r.deck.stored) {
        assert id in multiset(r.session.reviewCards);
        FlaggedAreCards(st.deck, id);
      }
    }
  }

  /** Answering keeps the session valid: from index 0 on a non-empty list the
      index never leaves `[0, count)`. */
  lemma AnswerKeepsValid(st: StudyState, correct: bool, saveOk: bool)
    requires Valid(st) && st.session.index < |st.session.cards|
    ensures correct ==> Valid(MarkCorrect(st, saveOk))
    ensures !correct ==> Valid(MarkIncorrect(st, saveOk))
  {
    var recorded := RecordAnswer(st, correct);
    assert Ids(recorded.deck.stored) == Ids(st.deck.stored);
    assert Valid(recorded);
    NextCardKeepsValid(recorded, saveOk);
  }

  /** Starting the follow-up review keeps the session valid. */
  lemma StartReviewKeepsValid(st: StudyState, draws: seq<nat>)
    requires Valid(st)
    ensures Valid(StartReviewMode(st, draws))
  {
    var r := StartReviewMode(st, draws);
    forall id | id in r.session.cards ensures id in Ids(st.deck.stored) {
      assert id in multiset(r.session.cards);
      assert id in multiset(st.session.reviewCards);
    }
  }

  /** In a plain session a correct answer never clears a review flag. */
  lemma PlainCorrectKeepsFlags(st: StudyState, saveOk: bool)
    requires st.session.index < |st.session.cards| && !st.session.Reviewing()
    ensures forall i :: 0 <= i < |st.deck.stored| ==>
      (MarkCorrect(st, saveOk).deck.stored[i].needsReview <==> st.deck.stored[i].needsReview)
  {
  }

  /** A review flag is cleared only in a review session, on a card whose streak
      had already reached two before the answer. */
  lemma FlagClearedOnlyAfterStreak(st: StudyState, saveOk: bool, i: nat)
    requires st.session.index < |st.session.cards| && i < |st.deck.stored|
    requires st.deck.stored[i].needsReview && !MarkCorrect(st, saveOk).deck.stored[i].needsReview
    ensures st.session.Reviewing()
    ensures st.deck.stored[i].correctStreak >= MasteryStreak - 1
    ensures MarkCorrect(st, saveOk).deck.stored[i].correctStreak >= MasteryStreak
  {
  }

  /** A wrong answer leaves the deck unmastered, so the next refresh clears the
      stored flag if it was set. */
  lemma IncorrectUnmastersDeck(st: StudyState, saveOk: bool)
    requires st.session.index < |st.session.cards|
    requires CurrentCard(st.session) in Ids(st.deck.stored)
    ensures !DeckPage.IsDeckMastered(MarkIncorrect(st, saveOk).deck)
    ensures !DeckPage.RefreshView(MarkIncorrect(st, saveOk).deck).deck.isMastered
  {
    var r := MarkIncorrect(st, saveOk);
    var k :| 0 <= k < |st.deck.stored| && Ids(st.deck.stored)[k] == CurrentCard(st.session);
    assert r.deck.stored[k].needsReview;
    DeckPage.IsDeckMasteredRule(r.deck);
  }

  /** When a plain session finishes, the follow-up review is offered exactly
      when some card of the deck is flagged. */
  lemma ReviewOfferedIffFlagged(st: StudyState, saveOk: bool)
    requires st.session.phase == Studying && !st.session.Reviewing()
    ensures FinishStudySession(st, saveOk).session.phase == ReviewPrompt <==>
      exists i :: 0 <= i < |st.deck.stored| && st.deck.stored[i].needsReview
  {
    NeedingReviewNonEmptyIff(st.deck.stored);
    assert |Ids(NeedingReview(st.deck.stored))| == |FlaggedIds(st.deck)|;
  }

  /** Accepting the offer studies exactly the deck's flagged cards, as review
      answers, from the first card. */
  lemma FollowUpReviewStudiesFlagged(st: StudyState, saveOk: bool, draws: seq<nat>)
    requires st.session.phase == Studying && !st.session.Reviewing()
    requires exists i :: 0 <= i < |st.deck.stored| && st.deck.stored[i].needsReview
    ensures FinishStudySession(st, saveOk).session.phase == ReviewPrompt
    ensures var r := StartReviewMode(FinishStudySession(st, saveOk), draws);
      && multiset(r.session.cards) == FlaggedIds(st.deck)
      && r.deck == st.deck
      && r.session.studyingReviewCards && r.session.index == 0 && r.session.phase == Studying
  {
    ReviewOfferedIffFlagged(st, saveOk);
  }

  /** The "Deck Mastered!" alert is raised exactly when the deck is non-empty,
      every card is mastered and the save succeeded; the flag is never cleared. */
  lemma MasteryAlertIff(st: StudyState, saveOk: bool)
    requires st.session.phase == Studying
    ensures CheckDeckMastery(st, saveOk).session.phase == MasteredAlert <==>
      saveOk && |st.deck.stored| > 0 &&
      forall i :: 0 <= i < |st.deck.stored| ==> !st.deck.stored[i].needsReview && st.deck.stored[i].correctStreak >= MasteryStreak
    ensures st.deck.isMastered ==> CheckDeckMastery(st, saveOk).deck.isMastered
  {
    DeckPage.IsDeckMasteredRule(st.deck);
  }

  /** Opening a review-mode session from the deck page's "Review (n)" button
      studies exactly n cards. */
  lemma ReviewButtonSessionSize(deck: Deck, draws: seq<nat>)
    requires DeckPage.PageControls(deck).StudyAllOrReview?
    ensures |SetupStudySession(deck, true, draws).cards| == DeckPage.PageControls(deck).reviewCount > 0
  {
    var s := SetupStudySession(deck, true, draws);
    FlashcardsArrayOrdered(deck);
    NeedingReviewRespectsPermutation(FlashcardsArray(deck), deck.stored);
    assert |s.cards| == |multiset(s.cards)| == |FlaggedIds(deck)|;
    assert |DeckPage.CardsNeedingReview(deck)| == |multiset(DeckPage.CardsNeedingReview(deck))|;
    assert |NeedingReview(deck.stored)| == |multiset(NeedingReview(deck.stored))|;
  }
}
