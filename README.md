# Zerocard study core in Dafny

Zerocard is a browser flashcard application. Its `Zerocard` class (`script.js`) keeps a
store of decks. Each deck has a name and a list of cards. The class runs study sessions:
the deck cards are shuffled into a queue, the user types an answer, the application
scores it against the card's back with a word-overlap and edit-distance blend, and the
user rates their recall. That rating moves the card's confidence and status and the
session's counters.

This project models that core:

- `maths.dfy` (module `Maths`): `Math.min` and `Math.max` on two integers.
- `text.dfy` (module `Text`): the JavaScript string built-ins the core relies on.
  - `\s` and `\w`, ASCII `toLowerCase` and `trim`.
  - `split(/\s+/)`, `replace(/\s+/g, …)` and `includes`.
  - The scorer's normaliser and `truncateText`.
- `levenshtein.dfy` (module `Levenshtein`): the edit-distance recurrence and the
  table-filling `levenshteinDistance`, proved equal to it.
- `scoring.dfy` (module `Scoring`): `calculateSimilarity`.
  - The score is stated as an exact rational.
  - The common-word loop and the method that computes the score are proved to return it.
- `review.dfy` (module `Review`): the rules of `handleFeedbackResponse`.
  - The confidence clamp, the status choice and the session counters.
  - Facts over whole sequences of answers.
- `decks.dfy` (module `Decks`): cards and the store.
  - A card is a class, because one card object is shared by its deck and by the study
    queue, and rating it updates it in place.
  - A deck is a value (name and card sequence), kept in a `map` from deck id to deck.
  - A key sequence `deckOrder` records the order in which a JavaScript object
    enumerates those keys.
  - The pure queries: the flattened card list, removal by id, lookup, status counts and
    the browser's selection and search. Also `convertCardsToDecks`.
- `app.dfy` (module `App`): the `Zerocard` class with its fields and operations.
  - Session start, the shuffle, card progression, answer checking and feedback.
  - Deck creation, card creation, deletion, editing, statistics and filtering.
  - These are methods whose postconditions tie the new state to the functions above.

`Zerocard.Valid()` is the store and session invariant. It holds when `deckOrder` lists
every deck id exactly once and the session counters satisfy
`streak <= maxStreak <= correct <= total`. Every operation preserves it.

The deck filter value `"all"` always means every deck, so a deck whose id is `"all"`
cannot be shown on its own. The model keeps this behaviour.

Card ids (`Date.now() + Math.random()`), timestamps (`new Date()`), the shuffle's
random index and the text typed into the page are parameters: `shuffleArray`'s
`Math.floor(Math.random() * (i + 1))` (script.js:918) is any index in `[0, i]`.

## Model

| member | source | states |
|---|---|---|
| Text.ToLower | script.js:759 | lower-casing keeps the length and maps each character through the ASCII case map |
| Text.KeepWordAndSpace | script.js:759 | the result holds only word and white-space characters of the input, every such character of the input occurs in it, and it is the input itself when nothing is removed |
| Text.KeepWordAndSpaceAppend | script.js:759 | the filter works piecewise: filtering a concatenation concatenates the filtered parts, so the kept characters stay in order and keep their multiplicity |
| Text.KeepWordAndSpaceSingle | script.js:759 | a single character is kept exactly when it is a word or white-space character |
| Text.Trim | script.js:759 | the result is no longer than the input and neither starts nor ends with white space |
| Text.TrimIsInfix | script.js:759 | the trimmed text is the infix of the input left between a leading and a trailing run of white space, so it holds only characters of the input |
| Text.Normalize | script.js:759 | a normalised answer holds only lower-case word and space characters and has no white space at either end |
| Text.NormalizeIdempotent | script.js:759 | normalising twice is normalising once |
| Text.NormalizeFixed | script.js:759 | text made only of lower-case word and space characters, unspaced at both ends, is its own normal form |
| Text.Split | script.js:767-768 | splitting yields at least one token and no token holds white space |
| Text.ReplaceSpaceRuns | script.js:454 | with a separator without white space the result has none; with a non-empty separator the result is empty exactly when the input is |
| Text.ReplaceIsJoinOfSplit | script.js:454 | replacing each white-space run is the same as splitting on the runs and joining the tokens with the separator |
| Text.Contains | script.js:950-951 | `includes` holds exactly when the needle occurs at some offset |
| Text.Truncate | script.js:1054-1057 | a text that fits is returned unchanged; a longer one becomes its first `maxLength` characters followed by `...` |
| Levenshtein.LevenshteinDistance | script.js:791-816 | the table's bottom-right entry is the unit-cost edit distance between the two strings, whichever order they are given in |
| Levenshtein.FillRow | script.js:803-813 | one pass of the inner loop makes row `i` agree with the recurrence and leaves every other row alone |
| Levenshtein.EditDistanceSymmetric | script.js:791-816 | the edit distance does not depend on the argument order |
| Levenshtein.EditDistanceBounds | script.js:791-816 | the distance lies between the length difference and the longer length, and against the empty string it is the other length |
| Levenshtein.EditDistanceZeroIff | script.js:791-816 | the distance is zero exactly for equal strings |
| Scoring.CommonWordCount | script.js:770-777 | the number of distinct shared tokens is at most the length of either word list |
| Scoring.CountCommonWords | script.js:770-777 | visiting the union of the tokens in any order counts exactly the distinct tokens present in both lists |
| Scoring.CalculateSimilarity | script.js:757-789 | the computed score equals the blended similarity of the two normalised answers |
| Scoring.BlendNormalized | script.js:763-788 | from two normalised answers the steps compute exactly the blend: 1 for equal texts, otherwise 0.7 times the shared-word ratio plus 0.3 times one minus the relative edit distance |
| Scoring.SimilarityRange | script.js:757-789 | the score lies in [0, 1] and is exactly 1 if and only if the normalised answers are equal |
| Scoring.SimilaritySymmetric | script.js:757-789 | swapping the two answers leaves the score unchanged |
| Review.ConfidenceAfter | script.js:839-848 | the new confidence is old + delta when that lies in [0, 100], 0 below and 100 above, from any starting integer |
| Review.StatusAfter | script.js:862-868 | the status is never `new`; it is `mastered` exactly for an instant recall with updated confidence above 80 and `learning` exactly for a struggle |
| Review.InstantMasters | script.js:846-868 | an instant recall masters a card exactly when its confidence before the review exceeded 60 |
| Review.StatsAfter | script.js:850-860 | `total` rises by one; a correct answer raises `correct` and `streak` and keeps `maxStreak` as the larger of the old best and the new streak; a miss resets `streak`; XP grows by 15, 10, 5 or 2 |
| Review.ResetForSession | script.js:654-661 | a new session zeroes `correct`, `total`, `streak` and `maxStreak` and keeps XP and the focus score |
| Review.StatsAfterConsistent | script.js:850-860 | one answer keeps `streak <= maxStreak <= correct <= total` |
| Review.ResetIsConsistent | script.js:654-661 | freshly reset counters are consistent |
| Review.StatsAfterAllEffects | script.js:850-860 | over any answer sequence, `total` counts the answers, `correct` counts the flow and instant ones, XP grows by at least 2 each, the streak is the trailing run of correct answers and the counters stay consistent |
| Review.ConfidenceAfterAllInRange | script.js:846-848 | after at least one answer the confidence is in [0, 100] whatever it started at |
| Review.RepeatedInstant | script.js:839-848 | n instant recalls raise an in-range confidence by 20 each, capped at 100 |
| Decks.Card.constructor | script.js:419-434 | a created card holds the given texts, difficulty and deck, is `new` with confidence 0, has no reviews and is stamped with the creation time |
| Decks.CardsInMembership | script.js:908-914 | a card is in the flattened list exactly when some listed deck holds it |
| Decks.CardsInLength | script.js:645-649 | the flattened list is empty exactly when every deck is empty |
| Decks.RemoveIdMembers | script.js:563 | filtering keeps exactly the cards with another id and leaves a list without the id as it is |
| Decks.RemoveIdAppend | script.js:563 | filtering works piecewise, so the surviving cards keep their order |
| Decks.RemoveIdIdempotent | script.js:563 | filtering twice by one id is filtering once |
| Decks.RemoveIdEverywhere | script.js:561-564 | every deck keeps its id and name and loses exactly the cards with the id |
| Decks.CardsInRemoveId | script.js:561-564 | deleting in every deck is the same as filtering the flattened card list |
| Decks.RemoveFromDecks | script.js:561-564 | the loop over the key list leaves every deck with exactly the cards of another id |
| Decks.FirstWithId | script.js:575 | `find` returns the first card of the list with the id (every earlier card has another id), and nothing exactly when no card has it |
| Decks.LastMatchFacts | script.js:574-581 | the edit lookup returns a card with the id from some deck, and nothing exactly when no deck holds one |
| Decks.StatusCountsSum | script.js:1101-1105 | the four status counts add up to the number of cards |
| Decks.Matching | script.js:948-953 | the search keeps only cards of the list whose lower-cased front or back contains the term, and every such card |
| Decks.MatchingAppend | script.js:948-953 | the search works piecewise: searching a concatenation concatenates the searched parts, so the kept cards stay in order and keep their multiplicity |
| Decks.MatchingSingle | script.js:948-953 | a single card is kept exactly when its lower-cased front or back contains the term |
| Decks.MatchingEmptyTerm | script.js:948-953 | an empty search term keeps every card |
| Decks.KeysInOrderListed | script.js:136-150 | the deck keys of a card list are listed once each and are exactly the keys the cards carry |
| Decks.KeysInOrderNamed | script.js:139-142 | a key gets a deck name exactly when it is listed, and an unlisted key has no cards |
| Decks.WithKeyMembers | script.js:139-148 | each group holds exactly the cards with its deck key |
| Decks.GroupStep | script.js:139-148 | one more card extends the key list, its own group and, for a new key, the name table |
| Decks.GroupedStep | script.js:139-148 | filing one card keeps the store grouped as the prefix of cards filed so far dictates |
| Decks.GroupedStepKnown | script.js:147 | a card whose deck is open joins the end of it and the key order stays |
| Decks.GroupedStepNew | script.js:140-145 | a card with an unseen key opens a deck named after it, holding just that card, at the end of the key order |
| Decks.FileCard | script.js:139-148 | one pass of the loop opens the card's deck if needed and appends the card to it |
| Decks.GroupedFinish | script.js:151-156 | adding `default` when missing completes the conversion |
| Decks.ConvertCardsToDecks | script.js:136-159 | the result has one deck per key holding that key's cards in order, named after the first of them, plus a `default` deck, with keys in first-appearance order |
| App.DeckIdOf | script.js:454 | a deck id has no white space and no capitals, and is empty only for an empty name |
| App.DeckIdJoinsWords | script.js:454 | a deck id is the lower-cased name's words joined by `-` |
| App.InheritedNameRefused | script.js:455 | the written existence test refuses the names "constructor" and "__proto__" in a store without such a deck, since each is its own deck id |
| App.ShuffleArray | script.js:916-922 | the shuffle permutes the array in place |
| App.TagDeck | script.js:932-943 | tagging gives each card of a deck the deck's id and name and changes nothing else of it |
| App.RateCard | script.js:836-868 | the card counts a review stamped `now`, its confidence is the clamped shift and its status follows from the response and the updated confidence; its texts and tags are untouched |
| App.Zerocard.constructor | script.js:20-36 | a new application holds the loaded store, no current card, an empty queue and the initial counters with focus score 85 |
| App.Zerocard.GetAllCards | script.js:908-914 | the result concatenates the decks' cards in key order and holds exactly the cards of the listed decks |
| App.Zerocard.ShowCurrentCard | script.js:669-690 | inside the queue the card at the index becomes current with the answer hidden and unsubmitted; past the end nothing changes |
| App.Zerocard.StartStudying | script.js:645-667 | with no cards nothing changes; otherwise the queue is a permutation of all cards, the index is 0, the counters are reset keeping XP and focus, and the first card is shown |
| App.Zerocard.NextCard | script.js:877-883 | the index moves on by one and the card there, if any, becomes current; the store, queue, counters and current deck are untouched |
| App.Zerocard.CheckUserAnswer | script.js:692-718 | without a card, after a submission or for a blank answer nothing changes; otherwise the score of the trimmed answer against the card's back is returned, the answer is marked submitted and shown, and the card counts one more review stamped `now`; the store, queue, index, counters, current deck and every other field of the card are untouched |
| App.Zerocard.SubmitAnswer | script.js:703-717 | the accepting branch returns the similarity score and records the submission, touching nothing else of the session or the card |
| App.Zerocard.RecordSubmission | script.js:703-717 | the answer is marked submitted and shown, the card counts one more review stamped `now`; the store, queue, index, counters, current deck and the card's texts, confidence, status, difficulty, schedule, streak and tags are untouched |
| App.Zerocard.CheckTwice | script.js:693 | a second check before the next card is ignored and does not count another review |
| App.Zerocard.HandleFeedbackResponse | script.js:833-875 | without a card nothing changes; otherwise the card counts a review, its confidence is the clamped shift, its status follows from the updated confidence, and the counters advance by `StatsAfter`; the card's texts, difficulty, schedule, streak and tags, the store, the queue, the current deck, card and index and both answer flags are untouched |
| App.Zerocard.AnswerThenRate | script.js:837 | a typed answer followed by a rating counts two reviews of the card |
| App.Zerocard.CreateDeck | script.js:445-469 | a blank name is refused, an id already in the store is refused with nothing changed, otherwise exactly one empty deck named after the trimmed input is added under the derived id; the queue, counters, current deck, card, index and answer flags are untouched |
| App.Zerocard.OpenDeck | script.js:460-463 | an empty deck with the name joins the store under the new id and at the end of the key order; the queue, counters and session are untouched |
| App.Zerocard.AddCard | script.js:481-509 | a blank front or back is refused with nothing changed; otherwise a fresh card, `new` with confidence 0, no reviews, streak 0, stamped and scheduled `now` and without browser tags, joins the end of the chosen deck, which is opened under its id as name when missing; the queue, counters, current deck, card, index and answer flags are untouched |
| App.Zerocard.FileNewCard | script.js:496-500 | the card is appended to the deck, a missing deck is opened with its id as name and appended to the key order; the queue, counters, current deck, card, index and answer flags are untouched |
| App.Zerocard.DeleteCard | script.js:561-569 | the store becomes the one with the id removed from every deck: the same ids and names, the other cards in their order; the key order, queue, counters, current deck, card, index and answer flags are untouched |
| App.Zerocard.FindCard | script.js:571-581 | the lookup yields the match from the last deck in key order that holds the id, or null |
| App.Zerocard.SaveCardEdit | script.js:620-637 | with a non-blank front and back the card takes the trimmed texts and the new difficulty and keeps its status, confidence, review count and stamp, schedule, streak and tags; otherwise it is unchanged |
| App.Zerocard.StoreEdit | script.js:630-632 | the card takes the new texts and difficulty and every other field keeps its value |
| App.Zerocard.UpdateStats | script.js:1095-1105 | the counts are the total and the numbers of new, learning and review-or-mastered cards, which add up to the total |
| App.Zerocard.TagEveryDeck | script.js:930-937 | the "all" branch collects every card in key order and tags each with a deck that holds it, keeping their content |
| App.Zerocard.TagListedDeck | script.js:931-936 | one pass gives every card of the deck at the key position that deck's id and name and appends its cards to those of the earlier decks, all tagged with a deck that holds them, with their content kept |
| App.TaggedAppend | script.js:931-936 | after one more deck is tagged, the earlier cards and that deck's cards are all tagged with a deck that holds them |
| App.Zerocard.FilterCards | script.js:924-953 | the shown cards are the selected deck's or all decks' cards filtered by the lower-cased term; selected cards are tagged with a deck that holds them and keep their content |

## Left out

- The page itself is not modelled: the DOM, modals, notifications, `displayCards`, `showAnswerComparison`'s markup, `showAnswer`, `showSessionComplete`'s message and `updateDisplay`'s re-rendering.
- `updateDisplay` also calls `filterCards`. That re-tagging is modelled only as the separate `FilterCards` operation, not as part of each operation that redraws the page.
- Persistence is not modelled: `localStorage`, JSON, export and the sample deck of `loadLocalDecks`. The constructor takes the loaded store as a parameter.
- Firebase and the online and offline listeners are not modelled.
- Responses other than the four buttons are not modelled. An unknown response makes the JavaScript confidence `NaN`.
- The score is an exact rational, not an IEEE double. The rounding of the displayed percentage is not modelled.
- Lower-casing changes only ASCII letters. JavaScript's `toLowerCase` lower-cases every capital letter with a Unicode lower-case mapping (É, Σ, Д and so on), so for names and texts with non-ASCII capitals the model's `DeckIdOf` keeps those capitals in the deck id, and the search of `Matches`/`Matching` (and so `FilterCards`) is case-sensitive for them, where JavaScript is not. The scorer is affected too: JavaScript lower-cases U+212A (Kelvin sign) to `k` and U+0130 to `i` followed by U+0307, and the `\w` filter then keeps that `k` or `i`, while the model's `Normalize` drops the whole character. So `Normalize` and `Similarity` differ from `calculateSimilarity` for such answers; for example, the Kelvin sign against the answer `k` scores 1 in JavaScript and less than 1 in the model.
- Characters are taken as whole code points, not UTF-16 code units. This changes lengths only for text outside the Basic Multilingual Plane.
- JavaScript enumerates integer-like object keys (such as a deck named "42") before the others. The model enumerates keys in insertion order.
- Three other lookups are modelled with the corrected own-deck test. The Findings row covers `createDeck`. With the test as written, a prototype name such as "constructor" makes these lookups read the inherited member and fail with a TypeError:
  - the deck lookup of `addCard` (script.js:496)
  - the deck lookup of `filterCards` (script.js:939)
  - the grouping in `convertCardsToDecks` (script.js:141)
- App.Zerocard.FilterCards: a card object can sit in two decks. For that case the all-deck branch is stated only to tag the card with *a* deck that holds it, not with the last such deck in key order, which is what the source leaves.
- App.Zerocard.TagEveryDeck: for a card held by two decks, states only that its tag names a deck that holds it, not the last such deck in key order.
- `editCard` is modelled as its two steps, the lookup `FindCard` and the save `SaveCardEdit`. No store change between the dialog opening and the save is modelled.
- `switchDeck` and `updateDeckSelectors` only steer the page and are not modelled.

## Findings

| source | as written | input that shows it | evidently intended | confidence | as-written member | corrected member |
|---|---|---|---|---|---|---|
| script.js:455 | `if (this.decks[deckId])` also finds members that every object inherits from `Object.prototype` | creating the deck "constructor" (or "__proto__") in a store without it is refused with "Deck already exists" | only an id that is already one of the store's own decks is refused | not executed | App.InheritedNameRefused | App.Zerocard.CreateDeck |
