# StudyApp study-progress engine, in Dafny

This project models how the StudyApp flashcard app tracks progress. The app is written in SwiftUI with Core Data storage. The model covers:

- the per-card state: the consecutive-correct streak and the review flag;
- the deck-level mastery rule and the stored mastery flag;
- the creation-ordered card list (`flashcardsArray`) and the review filter;
- the deck page's choice of study buttons and its refresh;
- the main menu's periodic pass over all decks;
- the study session: set-up, shuffle, flip, correct/incorrect answers, moving to the next card, finishing, the follow-up review, and the final mastery check.

The model is functional. A Core Data card is a `Card` value that carries an `id`, which stands for its object reference. A deck holds its unordered card store as a sequence. A study session holds card references. An answer updates the stored card with that reference.

The modules follow the app's structure:

- `Cards`: the records and `flashcardsArray`.
- `Mastery`: the mastery test and the review filter.
- `Shuffle`: `shuffled()`.
- `DeckPage`: `DeckPageView`.
- `MainMenu`: `MainMenuView.updateDeckStatuses`.
- `StudyMode`: `StudyModeView`.

Each session phase is one value of `Phase`:

- `Studying`: a card is on screen.
- `ReviewPrompt`: the "Review More Cards?" alert.
- `MasteredAlert`: the "Deck Mastered!" alert.
- `Dismissed`: the view has closed.

Randomness and the outcome of the store's save are parameters:

- `Shuffled(s, draws)` takes a stream of random draws. Every stream gives a permutation of `s`, and every permutation comes from some stream.
- `checkDeckMastery` takes `saveOk`. The save's outcome decides whether the alert appears.
- The save in `nextCard` only logs a failure, so the model ignores its outcome.

Facts about the code that the model keeps:

- A review-mode session studies exactly the cards whose `needsReview` flag is set.
- `checkDeckMastery` sets the flag and raises the alert even when the flag was already set. It never clears the flag.
- "Study All" on the deck page opens a plain session on that one deck.
- An empty session only shows "Study Session Complete!". It has no transition of its own.

## Model

| member | source | states |
|---|---|---|
| Cards.InsertByCreatedOrdered | StudyApp/ContentView.swift:1665 | inserting one card into a creation-ordered list keeps it ordered and adds exactly that card |
| Cards.SortByCreatedOrdered | StudyApp/ContentView.swift:1663-1666 | the creation-date sort returns its input's cards, each as often, in ascending creation order |
| Cards.SortedStaysPut | StudyApp/ContentView.swift:1665 | a card list already in creation order comes out of the sort unchanged |
| Cards.FlashcardsArrayOrdered | StudyApp/ContentView.swift:1662-1667 | `flashcardsArray` holds exactly the deck's stored cards, as many as the store, in creation order |
| Cards.IdsRespectPermutation | StudyApp/ContentView.swift:1437 | reordering cards reorders their references the same way |
| Cards.FlashcardsArrayIds | StudyApp/ContentView.swift:1437 | the ordered list refers to the same cards as the deck's store |
| Mastery.AllSatisfyMasteryIff | StudyApp/ContentView.swift:1504-1506 | `allSatisfy` with the mastery test holds exactly when every card is out of review with a streak of at least three |
| Mastery.MasteryRule | StudyApp/ContentView.swift:524-528 | a card list is mastered iff it is non-empty and every card has `needsReview` false and `correctStreak >= 3` |
| Mastery.EmptyNeverMastered | StudyApp/ContentView.swift:1504-1508 | `allSatisfy` holds of an empty deck, but the emptiness guard keeps it from counting as mastered |
| Mastery.MasteryIgnoresOrder | StudyApp/ContentView.swift:284-286 | two orderings of the same cards are mastered alike |
| Mastery.NeedingReview | StudyApp/ContentView.swift:516-518 | the filter keeps every flagged card with its multiplicity and drops every unflagged one |
| Mastery.NeedingReviewMembers | StudyApp/ContentView.swift:517 | a card is in the filtered list iff it is in the input and flagged |
| Mastery.NeedingReviewRespectsPermutation | StudyApp/ContentView.swift:517 | filtering two orderings of the same cards gives the same flagged cards |
| Mastery.NeedingReviewNonEmptyIff | StudyApp/ContentView.swift:520-522 | the filtered list is non-empty iff some card is flagged |
| Mastery.MasteredHasNothingToReview | StudyApp/ContentView.swift:561-588 | a mastered card list has no flagged card, so the mastered branch never hides a review count |
| Shuffle.Shuffled | StudyApp/ContentView.swift:1433-1437 | every stream of random draws yields a permutation of the input |
| Shuffle.EveryOrderReachable | StudyApp/ContentView.swift:1437 | every permutation of the input is the outcome of some stream of draws |
| DeckPage.IsDeckMasteredRule | StudyApp/ContentView.swift:524-528 | the page's mastery test, over the sorted list, is the mastery rule over the unordered store |
| DeckPage.HasCardsToReviewRule | StudyApp/ContentView.swift:516-522 | the page has cards to review iff some stored card is flagged |
| DeckPage.PageControls | StudyApp/ContentView.swift:532-638 | "No Flashcards Yet" iff the deck is empty; "Study Again" iff mastered; "Study All"/"Review (n)" iff some card is flagged, with n the flagged count; "Study Now" otherwise |
| DeckPage.StudyNowMeansStreaksToGo | StudyApp/ContentView.swift:620-634 | when only "Study Now" is offered, no card is flagged and some card's streak is below three |
| DeckPage.RefreshView | StudyApp/ContentView.swift:685-693 | the refresh sets the stored flag to the mastery test in either direction, keeps the cards, and saves exactly when the flag was stale |
| DeckPage.RefreshViewIdempotent | StudyApp/ContentView.swift:685-693 | a second refresh saves nothing and changes nothing |
| MainMenu.RefreshAllPointwise | StudyApp/ContentView.swift:283-294 | the pass treats each deck on its own, as the deck page's refresh would |
| MainMenu.AnyStaleIff | StudyApp/ContentView.swift:281-296 | the change flag is raised iff some deck's stored flag was stale |
| MainMenu.NothingStaleNothingChanges | StudyApp/ContentView.swift:283-297 | with no stale deck the pass leaves every deck as it was |
| MainMenu.UpdateDeckStatuses | StudyApp/ContentView.swift:280-304 | each deck's flag ends equal to its mastery test, the single save is issued iff some flag changed, and without a save nothing changed |
| StudyMode.ReviewList | StudyApp/ContentView.swift:1486 | the collected review list refers to exactly the deck's flagged cards |
| StudyMode.SetupStudySession | StudyApp/ContentView.swift:1431-1444 | a new session starts on the first card, front up; review mode studies exactly the flagged cards, plain mode exactly all cards |
| StudyMode.Flip | StudyApp/ContentView.swift:1355-1358 | tapping the card turns it over and changes nothing else |
| StudyMode.ApplyAnswer | StudyApp/ContentView.swift:1446-1463 | recording an answer keeps every card's reference and the number of cards |
| StudyMode.RecordAnswer | StudyApp/ContentView.swift:1446-1463 | recording an answer touches neither the session nor the stored mastery flag |
| StudyMode.NextCard | StudyApp/ContentView.swift:1465-1478 | before the last card, step to the next card face down; on the last card, finish the session |
| StudyMode.MarkCorrect | StudyApp/ContentView.swift:1446-1455 | the answered card's streak rises by one, its flag clears only in a review session once the streak reaches three, and no other card changes |
| StudyMode.MarkIncorrect | StudyApp/ContentView.swift:1457-1463 | the answered card is flagged with streak zero and no other card changes |
| StudyMode.FinishStudySession | StudyApp/ContentView.swift:1480-1493 | a plain session with flagged cards collects exactly those cards and shows the review prompt; a review session, or a plain one with nothing flagged, goes to the mastery check: the alert on a mastered deck when the save succeeds, no move when it fails, and the view closes otherwise |
| StudyMode.StartReviewMode | StudyApp/ContentView.swift:1495-1501 | "Yes" studies the collected cards in some order, as review answers, from the first card |
| StudyMode.CheckDeckMastery | StudyApp/ContentView.swift:1503-1519 | on a mastered deck the flag is set and the alert shows when the save succeeds, and the view stays put when it fails; otherwise the view closes; the flag is never cleared |
| StudyMode.Dismiss | StudyApp/ContentView.swift:1403-1425 | "No", "Great!" and "Done" close the view and leave the deck alone |
| StudyMode.FlaggedAreCards | StudyApp/ContentView.swift:1486 | every flagged reference points at a card of the deck |
| StudyMode.SetupIsValid | StudyApp/ContentView.swift:1431-1444 | a new session refers only to the deck's cards |
| StudyMode.NextCardKeepsValid | StudyApp/ContentView.swift:1465-1478 | moving on keeps the index within the session's cards and every reference pointing at a card of the deck |
| StudyMode.AnswerKeepsValid | StudyApp/ContentView.swift:1446-1478 | answering, right or wrong, never moves the index past the last card |
| StudyMode.StartReviewKeepsValid | StudyApp/ContentView.swift:1495-1501 | the follow-up review refers only to the deck's cards |
| StudyMode.PlainCorrectKeepsFlags | StudyApp/ContentView.swift:1449-1451 | a correct answer in a plain session never clears a review flag |
| StudyMode.FlagClearedOnlyAfterStreak | StudyApp/ContentView.swift:1446-1452 | a flag is cleared only in a review session, and only on a card whose streak had reached two before the answer |
| StudyMode.IncorrectUnmastersDeck | StudyApp/ContentView.swift:1457-1463 | after a wrong answer the deck is not mastered, and the next refresh clears its stored flag |
| StudyMode.ReviewOfferedIffFlagged | StudyApp/ContentView.swift:1480-1493 | a plain session ends with the review prompt iff some card of the deck is flagged |
| StudyMode.FollowUpReviewStudiesFlagged | StudyApp/ContentView.swift:1486-1501 | when some card is flagged, a plain session ends with the prompt, and accepting it studies exactly the deck's flagged cards, as review answers, from the first card |
| StudyMode.MasteryAlertIff | StudyApp/ContentView.swift:1503-1519 | the "Deck Mastered!" alert shows iff the deck is non-empty, every card is mastered and the save succeeds |
| StudyMode.ReviewButtonSessionSize | StudyApp/ContentView.swift:1431-1437 | the session opened by "Review (n)" has exactly n cards |

## Left out

- Audio: the recorder, the players and the audio file manager are I/O. They do not touch study progress.
- Timers are not modelled. A tick of the main menu's timer (ContentView.swift:268-273, 263-265) is one call of `UpdateDeckStatuses`. A tick of the deck page's timer (ContentView.swift:672-678) is one call of `RefreshView`. The deck rows' and flashcard rows' timers (ContentView.swift:348-353, 768-773) only redraw.
- The persistence controller and every save. The mastery save's outcome is the `saveOk` parameter of `CheckDeckMastery`, passed down as `masterySaveOk` through `NextCard`, `MarkCorrect` and `MarkIncorrect`. `nextCard`'s progress save only logs a failure, so its outcome is ignored.
- Deck and flashcard creation (`CreateDeckView`, `CreateFlashcardView`) and flashcard text editing (`FlashcardDetailView`). They are outside the progress engine; the code deletes no decks or cards.
- The main menu's ordering of decks by name. It is presentation only.
- `StudyApp/StudyAppApp.swift`: app start-up only.
- The `createdDate ?? Date()` fallback reads the clock. A card's creation stamp is a plain `int`.
- The sort's tie order: for equal creation stamps, the model fixes one order. Swift's `sorted(by:)` with an unordered `Set` as input leaves it unspecified. Only `Cards.SortedStaysPut` depends on that choice, and it holds for any stable sort.
- `correctStreak` width: the Core Data attribute type is not visible in this code, so the streak is an unbounded `nat`. The streak's maximum depends on that type, so the trap that Swift's `+=` raises there (ContentView.swift:1448) is not modelled.
- The completion message text and the title strings are presentation only.
- Quiz and answer-timing code are not part of `ContentView.swift` and are not modelled.
- Answers on an empty session: the buttons are not shown when there are no cards, so `MarkCorrect` and `MarkIncorrect` require a current card. `markCorrect` and `markIncorrect` index `studyCards[currentCardIndex]` without a check (ContentView.swift:1447, 1458).
