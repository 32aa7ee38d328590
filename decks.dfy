/** Cards, decks and the pure queries over the deck store: the flattened card
    list, card removal, card lookup, status counts, the browser's deck and text
    filter, and the regrouping of a flat card list into decks. */
module Decks {
  import opened Text
  import opened Review

  datatype Option<T> = None | Some(value: T)

  /** Card ids are `Date.now() + Math.random()` in the source; here they are
      supplied by the caller. */
  type CardId = real

  /** `new Date()` values, passed in by the caller. */
  datatype Timestamp = Timestamp(millis: int)

  datatype Difficulty = Easy | Medium | Hard

  /** A card record. The source never rewrites `id`, `deck` or `created`. */
  class Card {
    const id: CardId
    var front: string
    var back: string
    const deck: string
    var difficulty: Difficulty
    var status: Status
    var confidence: int
    var nextReview: Timestamp
    const created: Timestamp
    var lastReviewed: Option<Timestamp>
    var reviewCount: nat
    var streakCount: int
    /** Written by the card browser's filter. */
    var deckId: Option<string>
    var deckName: Option<string>

    /** `createCard(front, back, difficulty, deck)`: a new, unreviewed card. */
    constructor (id: CardId, front: string, back: string, difficulty: Difficulty, deck: string, now: Timestamp)
      ensures this.id == id && this.front == front && this.back == back
      ensures this.difficulty == difficulty && this.deck == deck
      ensures status == New && confidence == 0 && reviewCount == 0 && streakCount == 0
      ensures nextReview == now && created == now && lastReviewed == None
      ensures deckId == None && deckName == None
    {
      this.id := id;
      this.front := front;
      this.back := back;
      this.deck := deck;
      this.difficulty := difficulty;
      status := New;
      confidence := 0;
      nextReview := now;
      created := now;
      lastReviewed := None;
      reviewCount := 0;
      streakCount := 0;
      deckId := None;
      deckName := None;
    }
  }

  datatype Deck = Deck(name: string, cards: seq<Card>)

  /** Everything of a card except the browser's tags `deckId` and `deckName`. */
  datatype CardContent = CardContent(front: string, back: string, difficulty: Difficulty, status: Status,
    confidence: int, nextReview: Timestamp, lastReviewed: Option<Timestamp>, reviewCount: nat, streakCount: int)

  function ContentOf(c: Card): CardContent
    reads c
  {
    CardContent(c.front, c.back, c.difficulty, c.status, c.confidence, c.nextReview, c.lastReviewed,
      c.reviewCount, c.streakCount)
  }

  /** `deckOrder` lists the keys of `decks`, each once, in the order in which
      a JavaScript object enumerates them. */
  predicate DeckOrderValid(order: seq<string>, decks: map<string, Deck>) {
    && (forall i, j :: 0 <= i < j < |order| ==> order[i] != order[j])
    && (forall k :: k in order ==> k in decks)
    && (forall k :: k in decks ==> k in order)
  }

  /** Opening a deck under a new id extends the key order by that id. */
  lemma OrderAddKey(order: seq<string>, decks: map<string, Deck>, key: string, deck: Deck)
    requires DeckOrderValid(order, decks) && key !in decks
    ensures DeckOrderValid(order + [key], decks[key := deck])
  {
  }

  /** Replacing the deck under an existing id keeps the key order. */
  lemma OrderSameKey(order: seq<string>, decks: map<string, Deck>, key: string, deck: Deck)
    requires DeckOrderValid(order, decks) && key in decks
    ensures DeckOrderValid(order, decks[key := deck])
  {
  }

  predicate Covers(order: seq<string>, decks: map<string, Deck>) {
    forall k :: k in order ==> k in decks
  }

  /** `getAllCards`: the cards of every deck, deck by deck in key order. */
  function CardsIn(order: seq<string>, decks: map<string, Deck>): seq<Card>
    requires Covers(order, decks)
    decreases |order|
  {
    if order == [] then []
    else CardsIn(order[..|order| - 1], decks) + decks[order[|order| - 1]].cards
  }

  lemma {:induction false} CardsInMembership(order: seq<string>, decks: map<string, Deck>, c: Card)
    requires Covers(order, decks)
    decreases |order|
    ensures c in CardsIn(order, decks) <==> exists k :: k in order && c in decks[k].cards
  {
    if order != [] {
      var init := order[..|order| - 1];
      CardsInMembership(init, decks, c);
      assert order == init + [order[|order| - 1]];
    }
  }

  lemma {:induction false} CardsInLength(order: seq<string>, decks: map<string, Deck>)
    requires Covers(order, decks)
    decreases |order|
    ensures |CardsIn(order, decks)| == 0 <==> forall k :: k in order ==> decks[k].cards == []
  {
    if order != [] {
      var init := order[..|order| - 1];
      CardsInLength(init, decks);
      assert order == init + [order[|order| - 1]];
    }
  }

  /** `cards.filter(card => card.id !== cardId)`. */
  function RemoveId(cards: seq<Card>, id: CardId): (r: seq<Card>)
    ensures |r| <= |cards|
  {
    if cards == [] then []
    else (if cards[0].id == id then [] else [cards[0]]) + RemoveId(cards[1..], id)
  }

  /** Exactly the cards with another id survive, and a list without the id is
      left as it is. */
  lemma {:induction false} RemoveIdMembers(cards: seq<Card>, id: CardId)
    ensures forall c :: c in RemoveId(cards, id) ==> c in cards && c.id != id
    ensures forall c :: c in cards && c.id != id ==> c in RemoveId(cards, id)
    ensures (forall c :: c in cards ==> c.id != id) ==> RemoveId(cards, id) == cards
  {
    if cards != [] {
      RemoveIdMembers(cards[1..], id);
      assert cards == [cards[0]] + cards[1..];
    }
  }

  /** Removal works piecewise, so the surviving cards keep their relative order. */
  lemma {:induction false} RemoveIdAppend(a: seq<Card>, b: seq<Card>, id: CardId)
    ensures RemoveId(a + b, id) == RemoveId(a, id) + RemoveId(b, id)
  {
    if a == [] {
      assert a + b == b;
    } else {
      var head := if a[0].id == id then [] else [a[0]];
      RemoveIdAppend(a[1..], b, id);
      assert (a + b)[1..] == a[1..] + b;
      calc {
        RemoveId(a + b, id);
        head + RemoveId(a[1..] + b, id);
        head + (RemoveId(a[1..], id) + RemoveId(b, id));
        (head + RemoveId(a[1..], id)) + RemoveId(b, id);
      }
    }
  }

  lemma RemoveIdIdempotent(cards: seq<Card>, id: CardId)
    ensures RemoveId(RemoveId(cards, id), id) == RemoveId(cards, id)
  {
    RemoveIdMembers(cards, id);
    RemoveIdMembers(RemoveId(cards, id), id);
  }

  /** The decks with every card carrying `id` removed, names kept. */
  function RemoveIdEverywhere(decks: map<string, Deck>, id: CardId): (r: map<string, Deck>)
    ensures r.Keys == decks.Keys
    ensures forall k :: k in r ==> r[k].name == decks[k].name && r[k].cards == RemoveId(decks[k].cards, id)
  {
    map k | k in decks :: decks[k].(cards := RemoveId(decks[k].cards, id))
  }

  /** Deleting from every deck is filtering the flattened card list. */
  lemma {:induction false} CardsInRemoveId(order: seq<string>, decks: map<string, Deck>, id: CardId)
    requires Covers(order, decks)
    decreases |order|
    ensures Covers(order, RemoveIdEverywhere(decks, id))
    ensures CardsIn(order, RemoveIdEverywhere(decks, id)) == RemoveId(CardsIn(order, decks), id)
  {
    if order != [] {
      var init := order[..|order| - 1];
      CardsInRemoveId(init, decks, id);
      RemoveIdAppend(CardsIn(init, decks), decks[order[|order| - 1]].cards, id);
    }
  }
  /** The loop of `deleteCard`: filters the cards of each deck in key order. */
  method RemoveFromDecks(order: seq<string>, decks: map<string, Deck>, id: CardId)
    returns (result: map<string, Deck>)
    requires DeckOrderValid(order, decks)
    ensures result == RemoveIdEverywhere(decks, id)
  {
    ghost var after := RemoveIdEverywhere(decks, id);
    result := decks;
    for i := 0 to |order|
      invariant result.Keys == decks.Keys
      invariant forall k :: k in result ==> result[k] == if k in order[..i] then after[k] else decks[k]
    {
      var deckId := order[i];
      assert order[..i + 1] == order[..i] + [deckId];
      assert deckId !in order[..i];
      result := result[deckId := result[deckId].(cards := RemoveId(result[deckId].cards, id))];
    }
    assert order[..|order|] == order;
  }


  /** `cards.find(c => c.id === cardId)`. */
  function FirstWithId(cards: seq<Card>, id: CardId): (r: Option<Card>)
    ensures r.Some? ==> r.value in cards && r.value.id == id
    ensures r.None? <==> forall c :: c in cards ==> c.id != id
    ensures r.Some? ==> exists i :: 0 <= i < |cards| && cards[i] == r.value
                                    && forall j :: 0 <= j < i ==> cards[j].id != id
  {
    if cards == [] then None
    else if cards[0].id == id then Some(cards[0])
    else FirstWithId(cards[1..], id)
  }

  /** The lookup of `editCard`: every deck is searched in key order and a later
      deck's match replaces an earlier one. */
  function LastMatch(order: seq<string>, decks: map<string, Deck>, id: CardId): Option<Card>
    requires Covers(order, decks)
    decreases |order|
  {
    if order == [] then None
    else
      match FirstWithId(decks[order[|order| - 1]].cards, id)
      case Some(c) => Some(c)
      case None => LastMatch(order[..|order| - 1], decks, id)
  }

  /** The lookup finds a card with the id in one of the decks, and finds none
      exactly when no deck holds such a card. */
  lemma {:induction false} LastMatchFacts(order: seq<string>, decks: map<string, Deck>, id: CardId)
    requires Covers(order, decks)
    decreases |order|
    ensures var r := LastMatch(order, decks, id);
      && (r.Some? ==> r.value.id == id && exists k :: k in order && r.value in decks[k].cards)
      && (r.None? <==> forall k, c :: k in order && c in decks[k].cards ==> c.id != id)
  {
    if order != [] {
      var init := order[..|order| - 1];
      LastMatchFacts(init, decks, id);
      assert order == init + [order[|order| - 1]];
    }
  }

  /** How many of the cards have the given status. */
  function CountStatus(cards: seq<Card>, st: Status): nat
    reads cards
    decreases |cards|
  {
    if cards == [] then 0
    else CountStatus(cards[..|cards| - 1], st) + (if cards[|cards| - 1].status == st then 1 else 0)
  }

  /** Every card has exactly one of the four statuses. */
  lemma {:induction false} StatusCountsSum(cards: seq<Card>)
    decreases |cards|
    ensures CountStatus(cards, New) + CountStatus(cards, Learning)
      + CountStatus(cards, Review) + CountStatus(cards, Mastered) == |cards|
  {
    if cards != [] {
      StatusCountsSum(cards[..|cards| - 1]);
    }
  }

  /** The cards the browser's deck selector picks: `"all"` means every deck. */
  function Selection(order: seq<string>, decks: map<string, Deck>, deckFilter: string): seq<Card>
    requires Covers(order, decks)
  {
    if deckFilter == "all" then CardsIn(order, decks)
    else if deckFilter in decks then decks[deckFilter].cards
    else []
  }

  /** The search test: the lower-cased term occurs in the lower-cased front or back. */
  predicate Matches(c: Card, term: string)
    reads c
  {
    Contains(ToLower(c.front), term) || Contains(ToLower(c.back), term)
  }

  /** `cards.filter(...)` with the search test. */
  function Matching(cards: seq<Card>, term: string): (r: seq<Card>)
    reads cards
    ensures |r| <= |cards|
    ensures forall c :: c in r ==> c in cards && Matches(c, term)
    ensures forall c :: c in cards && Matches(c, term) ==> c in r
  {
    if cards == [] then []
    else (if Matches(cards[0], term) then [cards[0]] else []) + Matching(cards[1..], term)
  }

  /** The filter works piecewise: together with the one-card cases this pins
      down that the matching cards keep their order and multiplicity. */
  lemma {:induction false} MatchingAppend(a: seq<Card>, b: seq<Card>, term: string)
    ensures Matching(a + b, term) == Matching(a, term) + Matching(b, term)
  {
    if a == [] {
      assert a + b == b;
    } else {
      assert (a + b)[0] == a[0];
      assert (a + b)[1..] == a[1..] + b;
      MatchingAppend(a[1..], b, term);
    }
  }

  /** One card: kept exactly when it matches the term. */
  lemma MatchingSingle(c: Card, term: string)
    ensures Matching([c], term) == if Matches(c, term) then [c] else []
  {
    assert [c][1..] == [];
  }

  /** An empty search term matches every card. */
  lemma {:induction false} MatchingEmptyTerm(cards: seq<Card>)
    ensures Matching(cards, []) == cards
  {
    if cards != [] {
      MatchingEmptyTerm(cards[1..]);
      assert Contains(ToLower(cards[0].front), []) by {
        assert [] <= ToLower(cards[0].front);
      }
    }
  }

  /** A card stamped by the browser's filter names a deck that holds it. */
  ghost predicate TaggedIn(c: Card, decks: map<string, Deck>)
    reads c
  {
    c.deckId.Some? && c.deckId.value in decks && c in decks[c.deckId.value].cards
    && c.deckName == Some(decks[c.deckId.value].name)
  }

  // ---- regrouping a flat card list (`convertCardsToDecks`) ----

  /** `card.deck || 'default'`; the empty string stands for a missing deck. */
  function KeyOf(c: Card): string {
    if c.deck == [] then "default" else c.deck
  }

  /** `card.deckName || (deckId === 'default' ? 'Default Deck' : deckId)`. */
  function NameOf(c: Card, key: string): string
    reads c
  {
    if c.deckName.Some? && c.deckName.value != [] then c.deckName.value
    else if key == "default" then "Default Deck"
    else key
  }

  /** The deck keys of the cards, each once, in order of first appearance. */
  function KeysInOrder(cards: seq<Card>): seq<string>
    decreases |cards|
  {
    if cards == [] then []
    else
      var ks := KeysInOrder(cards[..|cards| - 1]);
      var key := KeyOf(cards[|cards| - 1]);
      if key in ks then ks else ks + [key]
  }

  /** The cards with the given deck key, in their original order. */
  function WithKey(cards: seq<Card>, key: string): seq<Card>
    decreases |cards|
  {
    if cards == [] then []
    else
      var last := cards[|cards| - 1];
      WithKey(cards[..|cards| - 1], key) + (if KeyOf(last) == key then [last] else [])
  }

  /** The deck name taken from the first card with the given key, if any. */
  function NameFromCards(cards: seq<Card>, key: string): Option<string>
    reads cards
    decreases |cards|
  {
    if cards == [] then None
    else
      var n := NameFromCards(cards[..|cards| - 1], key);
      var last := cards[|cards| - 1];
      if n.Some? then n else if KeyOf(last) == key then Some(NameOf(last, key)) else None
  }

  /** The key list is duplicate-free and names exactly the keys of the cards. */
  lemma {:induction false} KeysInOrderListed(cards: seq<Card>)
    decreases |cards|
    ensures var ks := KeysInOrder(cards);
      && (forall i, j :: 0 <= i < j < |ks| ==> ks[i] != ks[j])
      && (forall c :: c in cards ==> KeyOf(c) in ks)
      && (forall k :: k in ks ==> exists c :: c in cards && KeyOf(c) == k)
  {
    if cards != [] {
      var init := cards[..|cards| - 1];
      KeysInOrderListed(init);
      assert cards == init + [cards[|cards| - 1]];
    }
  }

  /** A key has a deck name exactly when it is listed, and an unlisted key has
      no cards. */
  lemma {:induction false} KeysInOrderNamed(cards: seq<Card>)
    decreases |cards|
    ensures var ks := KeysInOrder(cards);
      && (forall k :: NameFromCards(cards, k).Some? <==> k in ks)
      && (forall k :: k !in ks ==> WithKey(cards, k) == [])
  {
    if cards != [] {
      var init := cards[..|cards| - 1];
      KeysInOrderNamed(init);
      assert cards == init + [cards[|cards| - 1]];
    }
  }

  /** Each group holds exactly the cards with its key. */
  lemma {:induction false} WithKeyMembers(cards: seq<Card>, key: string)
    decreases |cards|
    ensures forall c :: c in WithKey(cards, key) ==> c in cards && KeyOf(c) == key
    ensures forall c :: c in cards && KeyOf(c) == key ==> c in WithKey(cards, key)
  {
    if cards != [] {
      var init := cards[..|cards| - 1];
      WithKeyMembers(init, key);
      assert cards == init + [cards[|cards| - 1]];
    }
  }

  /** How one more card changes the grouping of a card list. */
  lemma GroupStep(s: seq<Card>, c: Card)
    ensures var t := s + [c];
      && KeysInOrder(t) == (if KeyOf(c) in KeysInOrder(s) then KeysInOrder(s) else KeysInOrder(s) + [KeyOf(c)])
      && (forall k :: WithKey(t, k) == WithKey(s, k) + (if KeyOf(c) == k then [c] else []))
      && (forall k :: NameFromCards(t, k) ==
            if NameFromCards(s, k).Some? then NameFromCards(s, k)
            else if KeyOf(c) == k then Some(NameOf(c, k)) else None)
  {
    var t := s + [c];
    assert t[..|t| - 1] == s;
  }

  /** The store built so far from the card list `s`: one deck per key of `s`,
      listed in order of first appearance, holding that key's cards and named
      after the first of them. */
  predicate GroupedAs(s: seq<Card>, decks: map<string, Deck>, order: seq<string>)
    reads s
  {
    && order == KeysInOrder(s)
    && DeckOrderValid(order, decks)
    && (forall k :: k in decks ==> decks[k].cards == WithKey(s, k))
    && (forall k :: k in decks ==> NameFromCards(s, k) == Some(decks[k].name))
  }

  /** Filing one more card keeps the store grouped: a new key opens a deck named
      after this card, and the card joins the end of its deck. */
  lemma GroupedStep(s: seq<Card>, c: Card, decks: map<string, Deck>, order: seq<string>)
    requires GroupedAs(s, decks, order)
    ensures var key := KeyOf(c);
      var withDeck := if key in decks then decks else decks[key := Deck(NameOf(c, key), [])];
      var order' := if key in decks then order else order + [key];
      GroupedAs(s + [c], withDeck[key := withDeck[key].(cards := withDeck[key].cards + [c])], order')
  {
    var key := KeyOf(c);
    if key in decks {
      GroupedStepKnown(s, c, decks, order);
    } else {
      GroupedStepNew(s, c, decks, order);
      assert decks[key := Deck(NameOf(c, key), [])][key := Deck(NameOf(c, key), [c])]
        == decks[key := Deck(NameOf(c, key), [c])];
    }
  }

  /** A card whose deck is already open joins the end of that deck. */
  lemma GroupedStepKnown(s: seq<Card>, c: Card, decks: map<string, Deck>, order: seq<string>)
    requires GroupedAs(s, decks, order) && KeyOf(c) in decks
    ensures var key := KeyOf(c);
      GroupedAs(s + [c], decks[key := decks[key].(cards := decks[key].cards + [c])], order)
  {
    var key := KeyOf(c);
    GroupStep(s, c);
    KeysInOrderNamed(s);
    OrderSameKey(order, decks, key, decks[key].(cards := decks[key].cards + [c]));
  }

  /** A card with a key not seen before opens a deck named after it. */
  lemma GroupedStepNew(s: seq<Card>, c: Card, decks: map<string, Deck>, order: seq<string>)
    requires GroupedAs(s, decks, order) && KeyOf(c) !in decks
    ensures var key := KeyOf(c);
      GroupedAs(s + [c], decks[key := Deck(NameOf(c, key), [c])], order + [key])
  {
    var key := KeyOf(c);
    GroupStep(s, c);
    KeysInOrderNamed(s);
    assert key !in order;
    OrderAddKey(order, decks, key, Deck(NameOf(c, key), [c]));
  }

  /** What `convertCardsToDecks` promises of its result, for the card list `cards`. */
  predicate ConvertedFrom(cards: seq<Card>, decks: map<string, Deck>, order: seq<string>)
    reads cards
  {
    && DeckOrderValid(order, decks)
    && "default" in decks
    && (forall c :: c in cards ==> KeyOf(c) in decks && c in decks[KeyOf(c)].cards)
    && (forall k :: k in decks && k != "default" ==> exists c :: c in cards && KeyOf(c) == k)
    && (forall k :: k in decks ==> decks[k].cards == WithKey(cards, k))
    && (forall k :: k in decks ==>
          decks[k].name == (if NameFromCards(cards, k).Some? then NameFromCards(cards, k).value else "Default Deck"))
    && order == KeysInOrder(cards) + (if "default" in KeysInOrder(cards) then [] else ["default"])
  }

  /** Adding the `default` deck when the cards opened none completes the conversion. */
  lemma GroupedFinish(cards: seq<Card>, decks: map<string, Deck>, order: seq<string>)
    requires GroupedAs(cards, decks, order)
    ensures var decks' := if "default" in decks then decks else decks["default" := Deck("Default Deck", [])];
      var order' := if "default" in decks then order else order + ["default"];
      ConvertedFrom(cards, decks', order')
  {
    KeysInOrderListed(cards);
    KeysInOrderNamed(cards);
    forall c | c in cards
      ensures c in WithKey(cards, KeyOf(c))
    {
      WithKeyMembers(cards, KeyOf(c));
    }
  }

  /** One pass of the loop of `convertCardsToDecks`: opens the card's deck if it
      is new and appends the card to it. */
  method FileCard(ghost s: seq<Card>, card: Card, decks: map<string, Deck>, order: seq<string>)
    returns (decks': map<string, Deck>, order': seq<string>)
    requires GroupedAs(s, decks, order)
    ensures GroupedAs(s + [card], decks', order')
  {
    var deckId := KeyOf(card);
    GroupedStep(s, card, decks, order);
    decks', order' := decks, order;
    if deckId !in decks' {
      decks' := decks'[deckId := Deck(NameOf(card, deckId), [])];
      order' := order' + [deckId];
    }
    decks' := decks'[deckId := decks'[deckId].(cards := decks'[deckId].cards + [card])];
  }

  /** `convertCardsToDecks(cards)`: one deck per deck key, holding that key's cards
      in order and named after the first of them, plus a `default` deck. */
  method ConvertCardsToDecks(cards: seq<Card>) returns (decks: map<string, Deck>, order: seq<string>)
    ensures ConvertedFrom(cards, decks, order)
  {
    decks, order := map[], [];
    for i := 0 to |cards|
      invariant GroupedAs(cards[..i], decks, order)
    {
      assert cards[..i + 1] == cards[..i] + [cards[i]];
      decks, order := FileCard(cards[..i], cards[i], decks, order);
    }
    assert cards[..|cards|] == cards;
    GroupedFinish(cards, decks, order);
    if "default" !in decks {
      decks := decks["default" := Deck("Default Deck", [])];
      order := order + ["default"];
    }
  }
}
