/** The main menu's periodic pass over every deck, bringing each stored mastery
    flag in line with the deck's cards and saving once if anything changed. */
module MainMenu {
  import opened Cards
  import DeckPage

  /** The decks after each one has been refreshed on its own, in order. */
  function RefreshAll(ds: seq<Deck>): seq<Deck>
    decreases |ds|
  {
    if |ds| == 0 then []
    else RefreshAll(ds[..|ds| - 1]) + [DeckPage.RefreshView(ds[|ds| - 1]).deck]
  }

  /** Some deck's stored flag disagrees with its cards. */
  predicate AnyStale(ds: seq<Deck>)
    decreases |ds|
  {
    |ds| > 0 && (AnyStale(ds[..|ds| - 1]) || DeckPage.RefreshView(ds[|ds| - 1]).saved)
  }

  /** Refreshing a list of decks refreshes each deck in place. */
  lemma {:induction false} RefreshAllPointwise(ds: seq<Deck>)
    ensures |RefreshAll(ds)| == |ds|
    ensures forall i :: 0 <= i < |ds| ==> RefreshAll(ds)[i] == DeckPage.RefreshView(ds[i]).deck
    decreases |ds|
  {
    if |ds| > 0 {
      var init := ds[..|ds| - 1];
      RefreshAllPointwise(init);
      forall i | 0 <= i < |ds| ensures RefreshAll(ds)[i] == DeckPage.RefreshView(ds[i]).deck {
        if i < |ds| - 1 {
          assert ds[i] == init[i];
        }
      }
    }
  }

  /** A list has a stale deck exactly when one of its decks does. */
  lemma {:induction false} AnyStaleIff(ds: seq<Deck>)
    ensures AnyStale(ds) <==> exists i :: 0 <= i < |ds| && DeckPage.RefreshView(ds[i]).saved
    decreases |ds|
  {
    if |ds| > 0 {
      var init := ds[..|ds| - 1];
      AnyStaleIff(init);
      if AnyStale(init) {
        var i :| 0 <= i < |init| && DeckPage.RefreshView(init[i]).saved;
        assert ds[i] == init[i];
      }
      if exists i :: 0 <= i < |ds| && DeckPage.RefreshView(ds[i]).saved {
        var i :| 0 <= i < |ds| && DeckPage.RefreshView(ds[i]).saved;
        if i < |ds| - 1 {
          assert ds[i] == init[i];
        }
      }
    }
  }

  /** With no stale deck the pass changes nothing. */
  lemma {:induction false} NothingStaleNothingChanges(ds: seq<Deck>)
    requires !AnyStale(ds)
    ensures RefreshAll(ds) == ds
    decreases |ds|
  {
    if |ds| > 0 {
      var init, last := ds[..|ds| - 1], ds[|ds| - 1];
      NothingStaleNothingChanges(init);
      assert DeckPage.RefreshView(last).deck == last;
      assert ds == init + [last];
    }
  }

  /** `updateDeckStatuses`: returns the decks after the pass and whether the
      single save at the end is issued. */
  method UpdateDeckStatuses(decks: seq<Deck>) returns (updated: seq<Deck>, hasChanges: bool)
    ensures |updated| == |decks|
    ensures forall i :: 0 <= i < |decks| ==> updated[i] == DeckPage.RefreshView(decks[i]).deck
    ensures hasChanges <==> exists i :: 0 <= i < |decks| && DeckPage.RefreshView(decks[i]).saved
    ensures !hasChanges ==> updated == decks
  {
    updated := [];
    hasChanges := false;
    var i := 0;
    while i < |decks|
      invariant 0 <= i <= |decks|
      invariant updated == RefreshAll(decks[..i])
      invariant hasChanges == AnyStale(decks[..i])
    {
      // The per-deck step is the deck page's refresh, inlined in `updateDeckStatuses`.
      var refreshed := DeckPage.RefreshView(decks[i]);
      if refreshed.saved {
        hasChanges := true;
      }
      assert decks[..i + 1][..i] == decks[..i];
      updated := updated + [refreshed.deck];
      i := i + 1;
    }
    assert decks[..i] == decks;
    RefreshAllPointwise(decks);
    AnyStaleIff(decks);
    if !hasChanges {
      NothingStaleNothingChanges(decks);
    }
  }
}
