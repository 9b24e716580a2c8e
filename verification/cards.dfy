/** Flashcard and deck records: the persisted study state that the progress
    engine reads and writes, and the creation-date ordering of a deck's cards. */
module Cards {

  /** Consecutive correct answers a card needs before it can count as mastered. */
  const MasteryStreak: nat := 3

  /** Identity of a persisted card object; a study session refers to cards by it. */
  type CardId = nat

  /** One flashcard's study state. `created` is the creation stamp and is used
      only to order a deck's cards; the card's texts and media are not modelled. */
  datatype Card = Card(id: CardId, created: int, correctStreak: nat, needsReview: bool)

  /** A deck: its unordered card store (the Core Data relationship) and the
      stored mastery flag. */
  datatype Deck = Deck(stored: seq<Card>, isMastered: bool)

  /** The per-card mastery test shared by every mastery check. */
  predicate CardMastered(c: Card) {
    !c.needsReview && c.correctStreak >= MasteryStreak
  }

  predicate SortedByCreated(cards: seq<Card>) {
    forall i, j :: 0 <= i < j < |cards| ==> cards[i].created <= cards[j].created
  }

  /** Inserts `c` in front of the first card of `sorted` created no earlier
      than it. */
  function InsertByCreated(c: Card, sorted: seq<Card>): seq<Card>
    decreases |sorted|
  {
    if |sorted| == 0 || c.created <= sorted[0].created then [c] + sorted
    else [sorted[0]] + InsertByCreated(c, sorted[1..])
  }

  /** Insertion adds exactly `c` to the cards. */
  lemma {:induction false} InsertByCreatedCards(c: Card, sorted: seq<Card>)
    ensures multiset(InsertByCreated(c, sorted)) == multiset(sorted) + multiset{c}
    decreases |sorted|
  {
    if |sorted| > 0 && c.created > sorted[0].created {
      assert sorted == [sorted[0]] + sorted[1..];
      InsertByCreatedCards(c, sorted[1..]);
    }
  }

  /** A creation stamp no later than `c` and every card of `s` is no later than
      any card after the insertion. */
  lemma {:induction false} InsertByCreatedBound(c: Card, s: seq<Card>, lo: int)
    requires lo <= c.created
    requires forall j :: 0 <= j < |s| ==> lo <= s[j].created
    ensures forall j :: 0 <= j < |InsertByCreated(c, s)| ==> lo <= InsertByCreated(c, s)[j].created
    decreases |s|
  {
    if |s| > 0 && c.created > s[0].created {
      InsertByCreatedBound(c, s[1..], lo);
      var rest := InsertByCreated(c, s[1..]);
      assert forall j :: 0 < j < |InsertByCreated(c, s)| ==> InsertByCreated(c, s)[j] == rest[j - 1];
    }
  }

  /** Insertion keeps a creation-ordered list ordered and adds exactly `c`. */
  lemma {:induction false} InsertByCreatedOrdered(c: Card, sorted: seq<Card>)
    requires SortedByCreated(sorted)
    ensures SortedByCreated(InsertByCreated(c, sorted))
    ensures multiset(InsertByCreated(c, sorted)) == multiset(sorted) + multiset{c}
    decreases |sorted|
  {
    InsertByCreatedCards(c, sorted);
    if |sorted| > 0 && c.created > sorted[0].created {
      var first, tail := sorted[0], sorted[1..];
      InsertByCreatedOrdered(c, tail);
      InsertByCreatedBound(c, tail, first.created);
      var rest := InsertByCreated(c, tail);
      var r := [first] + rest;
      assert forall j :: 0 < j < |r| ==> r[j] == rest[j - 1];
    }
  }

  /** The deck's cards in ascending creation order, built by insertion; of two
      cards created at the same moment the earlier-stored one comes first. */
  function SortByCreated(cards: seq<Card>): seq<Card>
    decreases |cards|
  {
    if |cards| == 0 then []
    else InsertByCreated(cards[0], SortByCreated(cards[1..]))
  }

  /** The sort yields an ordered permutation of its input. */
  lemma {:induction false} SortByCreatedOrdered(cards: seq<Card>)
    ensures SortedByCreated(SortByCreated(cards))
    ensures multiset(SortByCreated(cards)) == multiset(cards)
    decreases |cards|
  {
    if |cards| > 0 {
      assert cards == [cards[0]] + cards[1..];
      SortByCreatedOrdered(cards[1..]);
      InsertByCreatedOrdered(cards[0], SortByCreated(cards[1..]));
    }
  }

  /** A store already in creation order is returned as it is. */
  lemma {:induction false} SortedStaysPut(cards: seq<Card>)
    requires SortedByCreated(cards)
    ensures SortByCreated(cards) == cards
    decreases |cards|
  {
    if |cards| > 0 {
      assert SortedByCreated(cards[1..]);
      SortedStaysPut(cards[1..]);
      assert cards == [cards[0]] + cards[1..];
    }
  }

  /** `Deck.flashcardsArray`: the deck's cards in ascending creation order. */
  function FlashcardsArray(d: Deck): seq<Card> {
    SortByCreated(d.stored)
  }

  /** `flashcardsArray` holds exactly the deck's cards, in creation order. */
  lemma FlashcardsArrayOrdered(d: Deck)
    ensures SortedByCreated(FlashcardsArray(d))
    ensures multiset(FlashcardsArray(d)) == multiset(d.stored)
    ensures |FlashcardsArray(d)| == |d.stored|
  {
    SortByCreatedOrdered(d.stored);
    assert |FlashcardsArray(d)| == |multiset(FlashcardsArray(d))|;
  }

  /** The references (ids) of a sequence of cards, in the same order. */
  function Ids(cards: seq<Card>): seq<CardId> {
    seq(|cards|, i requires 0 <= i < |cards| => cards[i].id)
  }

  lemma IdsConcat(a: seq<Card>, b: seq<Card>)
    ensures Ids(a + b) == Ids(a) + Ids(b)
  {
  }

  /** Reordering cards reorders their ids the same way. */
  lemma {:induction false} IdsRespectPermutation(a: seq<Card>, b: seq<Card>)
    requires multiset(a) == multiset(b)
    ensures multiset(Ids(a)) == multiset(Ids(b))
    decreases |a|
  {
    if |a| == 0 {
      assert |b| == |multiset(b)| == 0;
    } else {
      var x := a[0];
      assert x in multiset(b);
      var k :| 0 <= k < |b| && b[k] == x;
      var b' := b[..k] + b[k+1..];
      assert b == b[..k] + [x] + b[k+1..];
      assert a == [x] + a[1..];
      calc {
        multiset(b);
        multiset(b[..k] + [x] + b[k+1..]);
        multiset(b[..k]) + multiset{x} + multiset(b[k+1..]);
        multiset(b') + multiset{x};
      }
      assert multiset(a) == multiset{x} + multiset(a[1..]);
      assert multiset(b') == multiset(b) - multiset{x};
      assert multiset(a[1..]) == multiset(a) - multiset{x};
      IdsRespectPermutation(a[1..], b');
      IdsConcat([x], a[1..]);
      IdsConcat(b[..k] + [x], b[k+1..]);
      IdsConcat(b[..k], [x]);
      IdsConcat(b[..k], b[k+1..]);
    }
  }

  /** Ordering a deck's cards does not change which cards (by reference) it holds. */
  lemma FlashcardsArrayIds(d: Deck)
    ensures multiset(Ids(FlashcardsArray(d))) == multiset(Ids(d.stored))
  {
    FlashcardsArrayOrdered(d);
    IdsRespectPermutation(FlashcardsArray(d), d.stored);
  }
}
