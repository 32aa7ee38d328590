/** The `Zerocard` application object: the deck store, the study session and the
    operations the buttons of the page trigger. Rendering, notifications and
    storage are not modelled; ids, timestamps and typed text are parameters. */
module App {
  import opened Text
  import opened Scoring
  import opened Review
  import opened Maths
  import opened Decks

  /** The deck id `createDeck` derives from a trimmed name: lower-cased, each
      run of white space replaced by one `-`. */
  function DeckIdOf(name: string): (id: string)
    ensures NoSpaces(id)
    ensures forall c :: c in id ==> !IsUpper(c)
    ensures id == [] <==> name == []
  {
    ReplaceSpaceRuns(ToLower(name), "-")
  }

  /** The id is the lower-cased name's words joined by `-`. */
  lemma DeckIdJoinsWords(name: string)
    ensures DeckIdOf(name) == Join(Split(ToLower(name)), "-")
  {
    ReplaceIsJoinOfSplit(ToLower(name), "-");
  }

  /** The lower-case names a plain JavaScript object inherits from
      `Object.prototype`; `decks[id]` yields a truthy value for them. */
  const InheritedNames: set<string> := {"constructor", "__proto__"}

  /** `if (this.decks[deckId])` as written: true for an own deck and also for
      an inherited member of the object. */
  predicate ExistsAsWritten(decks: map<string, Deck>, id: string) {
    id in decks || id in InheritedNames
  }

  /** A deck named after an inherited member ("constructor", "__proto__") is
      refused as already existing by a store that has no such deck, although the
      refusal is meant only for taken ids. */
  lemma InheritedNameRefused(decks: map<string, Deck>, name: string)
    requires name in InheritedNames && name !in decks
    ensures var id := DeckIdOf(Trim(name));
      id == name && ExistsAsWritten(decks, id) && id !in decks
  {
    assert NoSpaces(name) && !IsSpace(name[0]) && !IsSpace(name[|name| - 1]);
    assert forall k :: 0 <= k < |name| ==> !IsUpper(name[k]);
    TrimUntouched(name);
    ToLowerNoUpper(name);
    ReplaceNoSpaces(name, "-");
  }

  /** The corrected test looks only at the store's own decks. */
  predicate DeckExists(decks: map<string, Deck>, id: string) {
    id in decks
  }

  /** The outcomes of `createDeck`. */
  datatype CreateDeckOutcome = EmptyName | AlreadyExists | Created(id: string)

  /** The card updates of `handleFeedbackResponse`: the review is counted and
      stamped, the confidence is shifted and clamped, and the status is chosen
      from the response and the updated confidence. */
  method RateCard(card: Card, response: Response, now: Timestamp)
    modifies card
    ensures card.lastReviewed == Some(now) && card.reviewCount == old(card.reviewCount) + 1
    ensures card.confidence == ConfidenceAfter(old(card.confidence), response)
    ensures card.status == StatusAfter(response, card.confidence)
    ensures card.front == old(card.front) && card.back == old(card.back)
    ensures card.difficulty == old(card.difficulty) && card.deckId == old(card.deckId)
    ensures card.deckName == old(card.deckName) && card.nextReview == old(card.nextReview)
    ensures card.streakCount == old(card.streakCount)
  {
    card.lastReviewed := Some(now);
    card.reviewCount := card.reviewCount + 1;
    card.confidence := Max(0, Min(100, card.confidence + ConfidenceDelta(response)));
    if response == Instant && card.confidence > 80 {
      card.status := Mastered;
    } else if response == Struggle {
      card.status := Learning;
    } else {
      card.status := Review;
    }
  }

  /** `shuffleArray`: Fisher–Yates from the last index down; `j` is any index in
      [0, i], standing for `Math.floor(Math.random() * (i + 1))`. */
  method ShuffleArray<T>(a: array<T>)
    modifies a
    ensures multiset(a[..]) == multiset(old(a[..]))
  {
    var i := a.Length - 1;
    while i > 0
      invariant -1 <= i < a.Length
      invariant multiset(a[..]) == multiset(old(a[..]))
      decreases i
    {
      var j :| 0 <= j <= i;
      a[i], a[j] := a[j], a[i];
      i := i - 1;
    }
  }

  /** Tags every card of one deck with the deck's id and name. */
  method TagDeck(cards: seq<Card>, id: string, name: string)
    modifies cards
    ensures forall c :: c in cards ==> c.deckId == Some(id) && c.deckName == Some(name)
    ensures forall c :: c in cards ==> ContentOf(c) == old(ContentOf(c))
  {
    for i := 0 to |cards|
      invariant forall c :: c in cards[..i] ==> c.deckId == Some(id) && c.deckName == Some(name)
      invariant forall c :: c in cards ==> ContentOf(c) == old(ContentOf(c))
    {
      cards[i].deckId := Some(id);
      cards[i].deckName := Some(name);
      assert cards[..i + 1] == cards[..i] + [cards[i]];
    }
  }

  /** After one more deck is tagged, the cards collected so far and that deck's
      cards are all tagged with a deck that holds them. */
  lemma TaggedAppend(collected: seq<Card>, decks: map<string, Deck>, deckId: string)
    requires deckId in decks
    requires forall c :: c in collected && c !in decks[deckId].cards ==> TaggedIn(c, decks)
    requires forall c :: c in decks[deckId].cards ==>
      c.deckId == Some(deckId) && c.deckName == Some(decks[deckId].name)
    ensures forall c :: c in collected + decks[deckId].cards ==> TaggedIn(c, decks)
  {
  }

  class Zerocard {
    var decks: map<string, Deck>
    /** The keys of `decks` in enumeration order. */
    var deckOrder: seq<string>
    var currentDeck: string
    var currentCard: Card?
    var studyQueue: seq<Card>
    var currentIndex: nat
    var sessionStats: SessionStats
    var isAnswerShown: bool
    var userAnswerSubmitted: bool

    /** The key list matches the store and the session counters are consistent. */
    predicate Valid()
      reads this
    {
      DeckOrderValid(deckOrder, decks) && Consistent(sessionStats)
    }

    /** The study session's deck, card, position and answer flags are as they were. */
    twostate predicate SessionKept()
      reads this
    {
      && currentDeck == old(currentDeck) && currentCard == old(currentCard)
      && currentIndex == old(currentIndex)
      && isAnswerShown == old(isAnswerShown) && userAnswerSubmitted == old(userAnswerSubmitted)
    }

    /** What `getAllCards` returns. */
    function AllCards(): seq<Card>
      reads this
      requires Valid()
    {
      CardsIn(deckOrder, decks)
    }

    /** The constructor, given the store `loadLocalDecks` yields. */
    constructor (loaded: map<string, Deck>, loadedOrder: seq<string>)
      requires DeckOrderValid(loadedOrder, loaded)
      ensures Valid()
      ensures decks == loaded && deckOrder == loadedOrder
      ensures currentDeck == "default" && currentCard == null
      ensures studyQueue == [] && currentIndex == 0 && sessionStats == InitialStats
      ensures !isAnswerShown && !userAnswerSubmitted
    {
      decks := loaded;
      deckOrder := loadedOrder;
      currentDeck := "default";
      currentCard := null;
      studyQueue := [];
      currentIndex := 0;
      sessionStats := InitialStats;
      isAnswerShown := false;
      userAnswerSubmitted := false;
    }

    /** `getAllCards`: every deck's cards, deck after deck. */
    method GetAllCards() returns (allCards: seq<Card>)
      requires Valid()
      ensures allCards == AllCards()
      ensures forall c :: c in allCards <==> exists k :: k in deckOrder && c in decks[k].cards
    {
      allCards := [];
      for i := 0 to |deckOrder|
        invariant allCards == CardsIn(deckOrder[..i], decks)
      {
        assert deckOrder[..i + 1][..i] == deckOrder[..i];
        allCards := allCards + decks[deckOrder[i]].cards;
      }
      assert deckOrder[..|deckOrder|] == deckOrder;
      forall c {
        CardsInMembership(deckOrder, decks, c);
      }
    }

    /** `showCurrentCard`: presents the card at `currentIndex`; past the end of the
        queue the session is over and the last card stays current. */
    method ShowCurrentCard()
      modifies this
      ensures decks == old(decks) && deckOrder == old(deckOrder) && currentDeck == old(currentDeck)
      ensures studyQueue == old(studyQueue) && currentIndex == old(currentIndex)
      ensures sessionStats == old(sessionStats)
      ensures currentIndex < |studyQueue| ==>
        currentCard == studyQueue[currentIndex] && !isAnswerShown && !userAnswerSubmitted
      ensures currentIndex >= |studyQueue| ==>
        currentCard == old(currentCard) && isAnswerShown == old(isAnswerShown)
        && userAnswerSubmitted == old(userAnswerSubmitted)
    {
      if currentIndex >= |studyQueue| {
        return;
      }
      currentCard := studyQueue[currentIndex];
      isAnswerShown := false;
      userAnswerSubmitted := false;
    }

    /** `startStudying`: with no cards nothing changes; otherwise the queue is a
        shuffle of all cards, the session counters restart (XP and focus score
        carry over) and the first card is shown. */
    method StartStudying()
      requires Valid()
      modifies this
      ensures Valid()
      ensures old(AllCards()) == [] ==> unchanged(this)
      ensures decks == old(decks) && deckOrder == old(deckOrder) && currentDeck == old(currentDeck)
      ensures old(AllCards()) != [] ==>
        && multiset(studyQueue) == multiset(old(AllCards()))
        && currentIndex == 0
        && sessionStats == ResetForSession(old(sessionStats))
        && currentCard == studyQueue[0]
        && !isAnswerShown && !userAnswerSubmitted
    {
      var allCards := GetAllCards();
      if |allCards| == 0 {
        return;
      }
      var queue := new Card[|allCards|](k requires 0 <= k < |allCards| => allCards[k]);
      assert queue[..] == allCards;
      ShuffleArray(queue);
      studyQueue := queue[..];
      currentIndex := 0;
      sessionStats := SessionStats(0, 0, 0, 0, sessionStats.xp, sessionStats.focusScore);
      ResetIsConsistent(old(sessionStats));
      ShowCurrentCard();
    }

    /** `nextCard`: moves on one place and shows that card, if any. */
    method NextCard()
      requires Valid()
      modifies this
      ensures Valid()
      ensures currentIndex == old(currentIndex) + 1
      ensures decks == old(decks) && deckOrder == old(deckOrder) && currentDeck == old(currentDeck)
      ensures studyQueue == old(studyQueue) && sessionStats == old(sessionStats)
      ensures currentIndex < |studyQueue| ==>
        currentCard == studyQueue[currentIndex] && !isAnswerShown && !userAnswerSubmitted
      ensures currentIndex >= |studyQueue| ==>
        currentCard == old(currentCard) && !userAnswerSubmitted && isAnswerShown == old(isAnswerShown)
    {
      currentIndex := currentIndex + 1;
      userAnswerSubmitted := false;
      ShowCurrentCard();
    }

    /** `checkUserAnswer`, with the typed text as `input`: ignored without a
        current card or once an answer was submitted, refused when blank;
        otherwise scores the trimmed answer against the card's back and counts
        a review of the card. */
    method CheckUserAnswer(input: string, now: Timestamp) returns (similarity: Option<real>)
      requires Valid()
      modifies this, currentCard
      ensures Valid()
      ensures currentCard == old(currentCard)
      ensures old(currentCard) == null || old(userAnswerSubmitted) || Trim(input) == [] ==>
        similarity == None && unchanged(this) && (currentCard != null ==> unchanged(currentCard))
      ensures old(currentCard) != null && !old(userAnswerSubmitted) && Trim(input) != [] ==>
        && similarity == Some(Similarity(Trim(input), old(currentCard.back)))
        && Submitted(old(currentCard.reviewCount), now)
    {
      if currentCard == null || userAnswerSubmitted {
        return None;
      }
      var userAnswer := Trim(input);
      if userAnswer == [] {
        return None;
      }
      var score := SubmitAnswer(userAnswer, now);
      similarity := Some(score);
    }

    /** The state after an answer was submitted for the current card: the flags
        are set and the card counts one more review, stamped `now`. */
    twostate predicate Submitted(reviewsBefore: nat, now: Timestamp)
      reads this, currentCard
    {
      && currentCard != null
      && userAnswerSubmitted && isAnswerShown
      && decks == old(decks) && deckOrder == old(deckOrder) && sessionStats == old(sessionStats)
      && studyQueue == old(studyQueue) && currentIndex == old(currentIndex)
      && currentDeck == old(currentDeck) && currentCard == old(currentCard)
      && currentCard.lastReviewed == Some(now)
      && currentCard.reviewCount == reviewsBefore + 1
      && currentCard.front == old(currentCard.front) && currentCard.back == old(currentCard.back)
      && currentCard.confidence == old(currentCard.confidence) && currentCard.status == old(currentCard.status)
      && currentCard.difficulty == old(currentCard.difficulty) && currentCard.nextReview == old(currentCard.nextReview)
      && currentCard.streakCount == old(currentCard.streakCount)
      && currentCard.deckId == old(currentCard.deckId) && currentCard.deckName == old(currentCard.deckName)
    }

    /** The accepting branch of `checkUserAnswer`. */
    method SubmitAnswer(userAnswer: string, now: Timestamp) returns (score: real)
      requires Valid() && currentCard != null
      modifies this, currentCard
      ensures Valid()
      ensures currentCard == old(currentCard)
      ensures score == Similarity(userAnswer, old(currentCard.back))
      ensures Submitted(old(currentCard.reviewCount), now)
    {
      score := CalculateSimilarity(userAnswer, currentCard.back);
      RecordSubmission(now);
    }

    /** The state changes of the accepting branch: the answer is marked
        submitted and shown, and the card counts one more review. */
    method RecordSubmission(now: Timestamp)
      requires Valid() && currentCard != null
      modifies this, currentCard
      ensures Valid()
      ensures Submitted(old(currentCard.reviewCount), now)
    {
      userAnswerSubmitted := true;
      isAnswerShown := true;
      currentCard.lastReviewed := Some(now);
      currentCard.reviewCount := currentCard.reviewCount + 1;
    }

    /** `handleFeedbackResponse(response)`: counts a review of the current card,
        moves its confidence and status, and advances the session counters. */
    method HandleFeedbackResponse(response: Response, now: Timestamp)
      requires Valid()
      modifies this, currentCard
      ensures Valid()
      ensures currentCard == old(currentCard)
      ensures old(currentCard) == null ==> unchanged(this)
      ensures old(currentCard) != null ==>
        && currentCard.lastReviewed == Some(now)
        && currentCard.reviewCount == old(currentCard.reviewCount) + 1
        && currentCard.confidence == ConfidenceAfter(old(currentCard.confidence), response)
        && currentCard.status == StatusAfter(response, currentCard.confidence)
        && currentCard.front == old(currentCard.front) && currentCard.back == old(currentCard.back)
        && currentCard.difficulty == old(currentCard.difficulty) && currentCard.nextReview == old(currentCard.nextReview)
        && currentCard.streakCount == old(currentCard.streakCount)
        && currentCard.deckId == old(currentCard.deckId) && currentCard.deckName == old(currentCard.deckName)
        && sessionStats == StatsAfter(old(sessionStats), response)
        && decks == old(decks) && deckOrder == old(deckOrder) && studyQueue == old(studyQueue)
      ensures SessionKept()
    {
      if currentCard == null {
        return;
      }
      RateCard(currentCard, response, now);
      if response == Flow || response == Instant {
        sessionStats := sessionStats.(correct := sessionStats.correct + 1);
        sessionStats := sessionStats.(streak := sessionStats.streak + 1);
        sessionStats := sessionStats.(maxStreak := Max(sessionStats.maxStreak, sessionStats.streak));
        sessionStats := sessionStats.(xp := sessionStats.xp + if response == Instant then 15 else 10);
      } else {
        sessionStats := sessionStats.(streak := 0);
        sessionStats := sessionStats.(xp := sessionStats.xp + if response == Think then 5 else 2);
      }
      sessionStats := sessionStats.(total := sessionStats.total + 1);
      StatsAfterConsistent(old(sessionStats), response);
    }

    /** A typed answer followed by a self-assessment counts two reviews of the card. */
    method AnswerThenRate(input: string, response: Response, now: Timestamp) returns (similarity: Option<real>)
      requires Valid()
      requires currentCard != null && !userAnswerSubmitted && Trim(input) != []
      modifies this, currentCard
      ensures Valid()
      ensures similarity.Some?
      ensures currentCard == old(currentCard)
      ensures currentCard.reviewCount == old(currentCard.reviewCount) + 2
    {
      similarity := CheckUserAnswer(input, now);
      HandleFeedbackResponse(response, now);
    }

    /** Once an answer was submitted, checking again before the next card is
        ignored: the card counts the first review only. */
    method CheckTwice(first: string, second: string, now: Timestamp, later: Timestamp)
      returns (firstScore: Option<real>, secondScore: Option<real>)
      requires Valid()
      requires currentCard != null && !userAnswerSubmitted && Trim(first) != []
      modifies this, currentCard
      ensures Valid()
      ensures firstScore.Some? && secondScore.None?
      ensures currentCard == old(currentCard)
      ensures currentCard.reviewCount == old(currentCard.reviewCount) + 1
      ensures currentCard.lastReviewed == Some(now)
    {
      firstScore := CheckUserAnswer(first, now);
      secondScore := CheckUserAnswer(second, later);
    }

    /** `createDeck`, with the typed name as `input`: refuses a blank name and an
        id already in the store, otherwise adds an empty deck under the derived id. */
    method CreateDeck(input: string) returns (outcome: CreateDeckOutcome)
      requires Valid()
      modifies this
      ensures Valid()
      ensures Trim(input) == [] ==> outcome == EmptyName
      ensures Trim(input) != [] && DeckIdOf(Trim(input)) in old(decks) ==> outcome == AlreadyExists
      ensures Trim(input) != [] && DeckIdOf(Trim(input)) !in old(decks) ==>
        outcome == Created(DeckIdOf(Trim(input)))
      ensures outcome.Created? ==>
        && decks == old(decks)[outcome.id := Deck(Trim(input), [])]
        && deckOrder == old(deckOrder) + [outcome.id]
      ensures !outcome.Created? ==> unchanged(this)
      ensures studyQueue == old(studyQueue) && sessionStats == old(sessionStats) && SessionKept()
    {
      var deckName := Trim(input);
      if deckName == [] {
        return EmptyName;
      }
      var deckId := DeckIdOf(deckName);
      if DeckExists(decks, deckId) {
        return AlreadyExists;
      }
      OpenDeck(deckId, deckName);
      outcome := Created(deckId);
    }

    /** The store update of `createDeck`: an empty deck joins the store under a
        new id, at the end of the key order. */
    method OpenDeck(deckId: string, deckName: string)
      requires Valid() && deckId !in decks
      modifies this
      ensures Valid()
      ensures decks == old(decks)[deckId := Deck(deckName, [])] && deckOrder == old(deckOrder) + [deckId]
      ensures studyQueue == old(studyQueue) && sessionStats == old(sessionStats) && SessionKept()
    {
      OrderAddKey(deckOrder, decks, deckId, Deck(deckName, []));
      decks := decks[deckId := Deck(deckName, [])];
      deckOrder := deckOrder + [deckId];
    }

    /** `addCard`: refuses a blank front or back; otherwise creates a new card
        and appends it to the chosen deck, opening that deck (named after its
        id) when it does not exist yet. */
    method AddCard(frontInput: string, backInput: string, deck: string, difficulty: Difficulty,
                   id: CardId, now: Timestamp) returns (card: Card?)
      requires Valid()
      modifies this
      ensures Valid()
      ensures Trim(frontInput) == [] || Trim(backInput) == [] ==> card == null && unchanged(this)
      ensures Trim(frontInput) != [] && Trim(backInput) != [] ==>
        && card != null && fresh(card)
        && card.id == id && card.front == Trim(frontInput) && card.back == Trim(backInput)
        && card.deck == deck && card.difficulty == difficulty
        && card.status == New && card.confidence == 0 && card.reviewCount == 0
        && card.lastReviewed == None && card.created == now
        && card.nextReview == now && card.streakCount == 0
        && card.deckId == None && card.deckName == None
        && deck in decks
        && decks == old(decks)[deck := Deck(
             if deck in old(decks) then old(decks)[deck].name else deck,
             (if deck in old(decks) then old(decks)[deck].cards else []) + [card])]
        && deckOrder == old(deckOrder) + (if deck in old(decks) then [] else [deck])
      ensures studyQueue == old(studyQueue) && sessionStats == old(sessionStats) && SessionKept()
    {
      var front := Trim(frontInput);
      var back := Trim(backInput);
      if front == [] || back == [] {
        return null;
      }
      card := new Card(id, front, back, difficulty, deck, now);
      FileNewCard(card, deck);
    }

    /** The store update of `addCard`: the card joins the end of the deck, which
        is opened under its id as name when it does not exist yet. */
    method FileNewCard(card: Card, deck: string)
      requires Valid()
      modifies this
      ensures Valid()
      ensures deck in decks
      ensures decks == old(decks)[deck := Deck(
             if deck in old(decks) then old(decks)[deck].name else deck,
             (if deck in old(decks) then old(decks)[deck].cards else []) + [card])]
      ensures deckOrder == old(deckOrder) + (if deck in old(decks) then [] else [deck])
      ensures studyQueue == old(studyQueue) && sessionStats == old(sessionStats) && SessionKept()
    {
      if deck !in decks {
        OrderAddKey(deckOrder, decks, deck, Deck(deck, []));
        decks := decks[deck := Deck(deck, [])];
        deckOrder := deckOrder + [deck];
      }
      OrderSameKey(deckOrder, decks, deck, decks[deck].(cards := decks[deck].cards + [card]));
      decks := decks[deck := decks[deck].(cards := decks[deck].cards + [card])];
    }

    /** `deleteCard`: removes the cards with the id from every deck; the deck ids,
        the names and the order of the remaining cards stay as they were. */
    method DeleteCard(id: CardId)
      requires Valid()
      modifies this
      ensures Valid()
      ensures decks == RemoveIdEverywhere(old(decks), id)
      ensures deckOrder == old(deckOrder)
      ensures AllCards() == RemoveId(old(AllCards()), id)
      ensures studyQueue == old(studyQueue) && sessionStats == old(sessionStats) && SessionKept()
    {
      ghost var before := decks;
      decks := RemoveFromDecks(deckOrder, decks, id);
      CardsInRemoveId(deckOrder, before, id);
    }

    /** The card lookup of `editCard`: every deck is searched in key order and a
        match in a later deck replaces an earlier one. */
    method FindCard(id: CardId) returns (found: Card?)
      requires Valid()
      ensures found == (match LastMatch(deckOrder, decks, id) case Some(c) => c case None => null)
    {
      found := null;
      for i := 0 to |deckOrder|
        invariant Covers(deckOrder[..i], decks)
        invariant found == (match LastMatch(deckOrder[..i], decks, id) case Some(c) => c case None => null)
      {
        assert deckOrder[..i + 1][..i] == deckOrder[..i];
        var card := FirstWithId(decks[deckOrder[i]].cards, id);
        if card.Some? {
          found := card.value;
        }
      }
      assert deckOrder[..|deckOrder|] == deckOrder;
    }

    /** The save button of `editCard`, for the card the lookup found: with a
        non-blank front and back the card takes the trimmed texts and the chosen
        difficulty; otherwise nothing changes. */
    method SaveCardEdit(card: Card, frontInput: string, backInput: string, difficulty: Difficulty)
      returns (saved: bool)
      modifies card
      ensures saved <==> Trim(frontInput) != [] && Trim(backInput) != []
      ensures !saved ==> unchanged(card)
      ensures saved ==>
        && card.front == Trim(frontInput) && card.back == Trim(backInput) && card.difficulty == difficulty
        && card.status == old(card.status) && card.confidence == old(card.confidence)
        && card.reviewCount == old(card.reviewCount) && card.lastReviewed == old(card.lastReviewed)
        && card.nextReview == old(card.nextReview) && card.streakCount == old(card.streakCount)
        && card.deckId == old(card.deckId) && card.deckName == old(card.deckName)
    {
      var newFront := Trim(frontInput);
      var newBack := Trim(backInput);
      if newFront == [] || newBack == [] {
        return false;
      }
      StoreEdit(card, newFront, newBack, difficulty);
      saved := true;
    }

    /** The field writes of the save: the texts and the difficulty, nothing else. */
    method StoreEdit(card: Card, front: string, back: string, difficulty: Difficulty)
      modifies card
      ensures card.front == front && card.back == back && card.difficulty == difficulty
      ensures card.status == old(card.status) && card.confidence == old(card.confidence)
      ensures card.reviewCount == old(card.reviewCount) && card.lastReviewed == old(card.lastReviewed)
      ensures card.nextReview == old(card.nextReview) && card.streakCount == old(card.streakCount)
      ensures card.deckId == old(card.deckId) && card.deckName == old(card.deckName)
    {
      card.front := front;
      card.back := back;
      card.difficulty := difficulty;
    }

    /** The card counts of `updateStats`: all cards, new ones, learning ones, and
        review and mastered ones together. */
    method UpdateStats() returns (total: nat, newCards: nat, learningCards: nat, reviewCards: nat)
      requires Valid()
      ensures total == |AllCards()|
      ensures newCards == CountStatus(AllCards(), New)
      ensures learningCards == CountStatus(AllCards(), Learning)
      ensures reviewCards == CountStatus(AllCards(), Review) + CountStatus(AllCards(), Mastered)
      ensures newCards + learningCards + reviewCards == total
    {
      var allCards := GetAllCards();
      newCards, learningCards, reviewCards := 0, 0, 0;
      for i := 0 to |allCards|
        invariant newCards == CountStatus(allCards[..i], New)
        invariant learningCards == CountStatus(allCards[..i], Learning)
        invariant reviewCards == CountStatus(allCards[..i], Review) + CountStatus(allCards[..i], Mastered)
      {
        assert allCards[..i + 1][..i] == allCards[..i];
        var card := allCards[i];
        if card.status == New {
          newCards := newCards + 1;
        } else if card.status == Learning {
          learningCards := learningCards + 1;
        } else if card.status == Review || card.status == Mastered {
          reviewCards := reviewCards + 1;
        }
      }
      assert allCards[..|allCards|] == allCards;
      StatusCountsSum(allCards);
      total := |allCards|;
    }

    /** The "all" branch of `filterCards`: every deck's cards are tagged with
        that deck, in key order, and collected. */
    method TagEveryDeck() returns (allCards: seq<Card>)
      requires Valid()
      modifies AllCards()
      ensures allCards == AllCards()
      ensures forall k, c :: k in decks && c in decks[k].cards ==> ContentOf(c) == old(ContentOf(c))
      ensures forall c :: c in AllCards() ==> TaggedIn(c, decks)
    {
      allCards := [];
      for i := 0 to |deckOrder|
        invariant allCards == CardsIn(deckOrder[..i], decks)
        invariant forall k, c :: k in decks && c in decks[k].cards ==> ContentOf(c) == old(ContentOf(c))
        invariant forall c :: c in CardsIn(deckOrder[..i], decks) ==> TaggedIn(c, decks)
      {
        var cards := decks[deckOrder[i]].cards;
        forall j | 0 <= j < |cards|
          ensures cards[j] in AllCards()
        {
          assert deckOrder[i] in deckOrder;
          CardsInMembership(deckOrder, decks, cards[j]);
        }
        allCards := TagListedDeck(i, allCards);
      }
      assert deckOrder[..|deckOrder|] == deckOrder;
    }

    /** One pass of the "all" loop: the deck at key position `i` is tagged and
        its cards join those collected from the decks before it. */
    method TagListedDeck(i: nat, collected: seq<Card>) returns (next: seq<Card>)
      requires Valid() && i < |deckOrder|
      requires collected == CardsIn(deckOrder[..i], decks)
      requires forall c :: c in collected ==> TaggedIn(c, decks)
      modifies decks[deckOrder[i]].cards
      ensures next == CardsIn(deckOrder[..i + 1], decks)
      ensures forall c :: c in decks[deckOrder[i]].cards ==>
        c.deckId == Some(deckOrder[i]) && c.deckName == Some(decks[deckOrder[i]].name)
      ensures forall c :: c in next ==> TaggedIn(c, decks)
      ensures forall k, c :: k in decks && c in decks[k].cards ==> ContentOf(c) == old(ContentOf(c))
    {
      var deckId := deckOrder[i];
      var cards := decks[deckId].cards;
      assert deckOrder[..i + 1][..i] == deckOrder[..i];
      assert CardsIn(deckOrder[..i + 1], decks) == collected + cards;
      TagDeck(cards, deckId, decks[deckId].name);
      assert forall c :: c in collected && c !in cards ==> TaggedIn(c, decks);
      TaggedAppend(collected, decks, deckId);
      next := collected + cards;
    }

    /** `filterCards`: takes every deck's cards (`"all"`) or the chosen deck's,
        tags each with the deck it was listed under, and keeps those whose front
        or back contains the lower-cased search text. */
    method FilterCards(searchInput: string, deckFilter: string) returns (cardsToShow: seq<Card>)
      requires Valid()
      modifies Selection(deckOrder, decks, deckFilter)
      ensures cardsToShow == Matching(Selection(deckOrder, decks, deckFilter), ToLower(searchInput))
      ensures searchInput == [] ==> cardsToShow == Selection(deckOrder, decks, deckFilter)
      ensures forall k, c :: k in decks && c in decks[k].cards ==> ContentOf(c) == old(ContentOf(c))
      ensures deckFilter != "all" && deckFilter in decks ==>
        forall c :: c in decks[deckFilter].cards ==>
          c.deckId == Some(deckFilter) && c.deckName == Some(decks[deckFilter].name)
      ensures deckFilter == "all" ==> forall c :: c in AllCards() ==> TaggedIn(c, decks)
    {
      var searchTerm := ToLower(searchInput);
      cardsToShow := [];
      if deckFilter == "all" {
        cardsToShow := TagEveryDeck();
      } else if deckFilter in decks {
        TagDeck(decks[deckFilter].cards, deckFilter, decks[deckFilter].name);
        cardsToShow := decks[deckFilter].cards;
      }
      if searchTerm != [] {
        cardsToShow := Matching(cardsToShow, searchTerm);
      } else {
        MatchingEmptyTerm(cardsToShow);
      }
    }
  }
}
