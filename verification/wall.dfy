/**
 * `QuoteWallController`: the cards on the page and the store behind them.
 * A card is a `.fortune` element; its random background colour, the fade
 * animations and the loading overlay are not part of this model. New cards
 * go after the existing ones, before the button area.
 */
module QuoteWall {
  import opened Wrappers
  import opened Fortunes
  import opened FortuneStore

  /** One `.fortune` element: the fortune it shows, and whether it is still displayed. */
  datatype Card = Card(fortune: Fortune, shown: bool)

  /** The page shows exactly the stored list: one displayed card per fortune, in order. */
  ghost predicate InLockstep(cards: seq<Card>, stored: seq<Fortune>)
  {
    && |cards| == |stored|
    && forall i :: 0 <= i < |cards| ==> cards[i] == Card(stored[i], true)
  }

  /** `renderAllFortunes`: one displayed card per fortune, in list order. */
  function RenderAll(fortunes: seq<Fortune>): (cards: seq<Card>)
    ensures InLockstep(cards, fortunes)
  {
    seq(|fortunes|, i requires 0 <= i < |fortunes| => Card(fortunes[i], true))
  }

  /** The fortunes a visitor sees, top to bottom. */
  function ShownFortunes(cards: seq<Card>): seq<Fortune>
  {
    if |cards| == 0 then []
    else (if cards[0].shown then [cards[0].fortune] else []) + ShownFortunes(cards[1..])
  }

  /** When the page is in lockstep with the store, the visitor sees the stored list. */
  lemma {:induction false} LockstepShowsStore(cards: seq<Card>, stored: seq<Fortune>)
    requires InLockstep(cards, stored)
    ensures ShownFortunes(cards) == stored
  {
    if |cards| > 0 {
      assert InLockstep(cards[1..], stored[1..]);
      LockstepShowsStore(cards[1..], stored[1..]);
      assert stored == [stored[0]] + stored[1..];
    }
  }

  /**
   * What the delete handler does to the clicked card as written: the
   * fade-out callback is an arrow function, so `$(this)` wraps the
   * controller and `remove()` removes nothing; the card stays on the page,
   * hidden.
   */
  function HideCard(cards: seq<Card>, k: nat): (r: seq<Card>)
    requires k < |cards|
    ensures |r| == |cards| && !r[k].shown && r[k].fortune == cards[k].fortune
    ensures forall j :: 0 <= j < |r| && j != k ==> r[j] == cards[j]
  {
    cards[k := cards[k].(shown := false)]
  }

  /**
   * As written, after one card is deleted, deleting any later card leaves
   * that card's fortune in the store: the index handed to the store counts
   * the hidden card, so it is one past the fortune's position in the list.
   */
  lemma AsWrittenLaterDeleteMisses(cards: seq<Card>, stored: seq<Fortune>, k: nat, m: nat)
    requires InLockstep(cards, stored) && k < m < |cards|
    ensures var page := HideCard(cards, k);
      page[m].shown
      && var stored2 := RemoveAt(RemoveAt(stored, k), m);
      |stored2| >= m && stored2[m - 1] == cards[m].fortune
  {
    var stored1 := RemoveAt(stored, k);
    assert stored1[m - 1] == stored[m];
    var stored2 := RemoveAt(stored1, m);
    if m < |stored1| {
      assert stored2[m - 1] == stored1[m - 1];
    }
  }

  lemma ShownFortunesCons(card: Card, rest: seq<Card>)
    ensures ShownFortunes([card] + rest)
      == (if card.shown then [card.fortune] else []) + ShownFortunes(rest)
  {
    assert ([card] + rest)[1..] == rest;
  }

  /**
   * A concrete sequence of clicks, as written: three cards, delete the
   * middle one, then the last one. The visitor sees one fortune, the store
   * still holds two, and the next page load shows the deleted "c" again.
   */
  lemma AsWrittenDeleteScenario()
    ensures var a, b, c := Fortune("a"), Fortune("b"), Fortune("c");
      var page0 := RenderAll([a, b, c]);
      var page1, stored1 := HideCard(page0, 1), RemoveAt([a, b, c], 1);
      var page2, stored2 := HideCard(page1, 2), RemoveAt(stored1, 2);
      ShownFortunes(page1) == stored1
      && ShownFortunes(page2) == [a] && stored2 == [a, c]
  {
    var a, b, c := Fortune("a"), Fortune("b"), Fortune("c");
    var stored1 := RemoveAt([a, b, c], 1);
    assert stored1 == [a, c];
    assert RemoveAt(stored1, 2) == [a, c];
    var page0 := RenderAll([a, b, c]);
    var page1 := HideCard(page0, 1);
    var page2 := HideCard(page1, 2);
    var ca, cb, cc := Card(a, true), Card(b, false), Card(c, true);
    assert page1 == [ca] + ([cb] + [cc]);
    assert page2 == [ca] + ([cb] + [cc.(shown := false)]);
    ShownFortunesCons(cc, []);
    ShownFortunesCons(cb, [cc]);
    ShownFortunesCons(ca, [cb] + [cc]);
    ShownFortunesCons(cc.(shown := false), []);
    ShownFortunesCons(cb, [cc.(shown := false)]);
    ShownFortunesCons(ca, [cb] + [cc.(shown := false)]);
  }

  /** With the card really removed, a delete keeps the page and the store in lockstep. */
  lemma DeleteKeepsLockstep(cards: seq<Card>, stored: seq<Fortune>, k: nat)
    requires InLockstep(cards, stored) && k < |cards|
    ensures InLockstep(RemoveAt(cards, k), RemoveAt(stored, k))
  {
  }

  class QuoteWallController {
    const store: FortuneStorage
    var cards: seq<Card>

    ghost predicate Valid()
      reads this, store
    {
      InLockstep(cards, store.fortunes)
    }

    /** Loads the store from the storage entry and renders one card per fortune. */
    constructor (slot: PersistedSlot)
      ensures fresh(store) && store.slot == slot
      ensures store.fortunes == Loaded(slot.value) && cards == RenderAll(store.fortunes)
      ensures Valid()
    {
      store := new FortuneStorage(slot);
      new;
      cards := RenderAll(store.fortunes);
    }

    /**
     * The `then` and `fail` handlers of `fetchNewFortune`: either way one
     * fortune is built, one card is added and one fortune is stored.
     */
    method OnFetchSettled(outcome: FetchOutcome)
      requires Valid()
      modifies this`cards, store`fortunes, store.slot
      ensures store.fortunes == old(store.fortunes) + [FortuneFor(outcome)]
      ensures cards == old(cards) + [Card(FortuneFor(outcome), true)]
      ensures store.Synced() && Valid()
    {
      var fortune := FortuneFor(outcome);
      match outcome {
        case Success(_) =>
          store.Add(fortune);
          cards := cards + [Card(fortune, true)];
        case Failure =>
          cards := cards + [Card(fortune, true)];
          store.Add(fortune);
      }
    }

    /**
     * `onQuoteDeleteButtonClicked` for the card at position `k`, with the
     * card removed from the page as evidently intended.
     */
    method OnDeleteClicked(k: nat)
      requires Valid() && k < |cards|
      modifies this`cards, store`fortunes, store.slot
      ensures store.fortunes == RemoveAt(old(store.fortunes), k)
      ensures cards == RemoveAt(old(cards), k)
      ensures |store.fortunes| == |old(store.fortunes)| - 1
      ensures store.Synced() && Valid()
    {
      store.DeleteAtIndex(k);
      cards := RemoveAt(cards, k);
      DeleteKeepsLockstep(old(cards), old(store.fortunes), k);
    }
  }

  /** An empty store renders no card; one settled fetch then shows as exactly one card. */
  method FirstFetch(outcome: FetchOutcome) returns (initial: seq<Card>, after: seq<Card>)
    ensures initial == []
    ensures after == [Card(FortuneFor(outcome), true)]
  {
    var slot := new PersistedSlot(None);
    var wall := new QuoteWallController(slot);
    initial := wall.cards;
    wall.OnFetchSettled(outcome);
    after := wall.cards;
  }

  /**
   * Two fetches, stored in the order they settle: each settled fetch
   * appends its fortune, and reloading shows both.
   */
  method OverlappingFetches(settledFirst: FetchOutcome, settledSecond: FetchOutcome)
    returns (stored: seq<Fortune>, reloaded: seq<Fortune>)
    ensures stored == [FortuneFor(settledFirst), FortuneFor(settledSecond)]
    ensures reloaded == stored
  {
    var slot := new PersistedSlot(None);
    var wall := new QuoteWallController(slot);
    wall.OnFetchSettled(settledFirst);
    wall.OnFetchSettled(settledSecond);
    stored := wall.store.fortunes;
    var again := new FortuneStorage(slot);
    reloaded := again.fortunes;
  }
}
