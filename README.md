# UNO engine model in Dafny

This project models the game engine of a browser UNO game written in TypeScript
(`src/model/deck.ts`, `src/model/round.ts`, `src/model/uno.ts`) and proves properties of
the model. It has six modules, one concern each:

- **`Common`** (common.dfy): `Option`, `Result` and `Outcome`. It also holds JavaScript's
  truncating `%` (`JsRem`) and a few arithmetic facts.
- **`Deck`** (deck.dfy): `deck.ts`. This covers the card datatype and the 108-card
  canonical deck that `createInitialDeck` builds. It also covers the card records of a
  memento with `fromMemento`'s checks, and the `ArrayDeck` class.
- **`Piles`** (piles.dfy): the helpers at the top of `round.ts`. These are
  `getCardScore` and `createCardFromMemento`, plus the two pile classes `DeckImpl` and
  `DiscardPileImpl`.
- **`RoundMemento`** (round_memento.dfy): a round as plain data. It holds the
  scoring (`calculateScore`, `getWinner`), the memento that `toMemento` writes, and what
  `createRoundFromMemento` checks and rebuilds. It also proves that the two round-trip.
- **`Round`** (round.dfy): `RoundImpl`. It covers dealing, the opening card with its
  wild-card redraws, and the playability rule. It also covers `play` with the effects of
  action cards, `draw` with the reshuffle of the discard pile, and the "UNO!" call and
  its challenge. Finally it covers `createRound` and `createRoundFromMemento`.
- **`Uno`** (uno.dfy): `uno.ts`. It covers the stand-alone `canPlay`, `PlayerHand`, the
  configuration checks, and `UnoGame`. `UnoGame` adds each round's score to the round's
  winner. It then either ends the match at the target score or deals the next round with
  that winner as dealer. The module also covers `createGame` and `createGameFromMemento`.

## How the model is built

Classes whose fields the source updates in place are Dafny classes: `ArrayDeck`,
`DeckImpl`, `DiscardPileImpl`, `RoundImpl`, `PlayerHand` and `UnoGame`. Their methods
state their new state through pure functions of the old state:

- `DrawOutcome`, `AfterPenalty`, `Played` and `AfterDraw` for the table of a round
- `Opening` and `InitialState` for a freshly dealt round
- `Restore` for a restored round
- `AfterRoundEnd` and `RestoreGame` for a game

The lemmas about those functions carry the rules of the game:

- card conservation
- turn order
- the UNO window
- the memento round trips
- scores and the match winner

### Injected collaborators

The injected shuffler mutates an array in place. It is modelled as a function
`seq<Card> -> seq<Card>` that gives the order it leaves behind. Its contract in the
source is to rearrange the cards, so the model's `Permutes(shuffler)` requires exactly
that. The randomizer is a parameter `nat -> int`.

### Where the source departs from the usual rules

- **Dealing order.** The source deals in blocks, not one card at a time round the
  table. Player 0 gets the first `cardsPerPlayer` cards of the shuffled deck, player 1
  the next block, and so on, whoever deals. The model deals the same way.
- **Illegal play.** `play` opens an action (`startAction`) before it checks legality. An
  illegal play therefore still advances the action counter and can still close an open
  UNO window. The model does the same.
- **Playing a wild card with no colour, or naming a colour for a coloured card.** The
  source takes the card out of the hand before it checks the colour, so a refused play
  loses the card. This is recorded under Findings, where `PlayAsWritten` models the code
  as written. `RoundImpl.Play` departs from the code here: it checks the colour first and
  changes nothing on an error.
- **The stand-alone `canPlay` of `uno.ts`.** Its same-type test admits every numbered card
  on every numbered top card, so its same-number test (uno.ts:54) can never decide
  anything. `Uno.CanPlay` models the test as written. The round's own rule is stricter, as
  `StandaloneLooserThanRound` shows.

### Settled rounds

A round is *settled* (`RoundMemento.SettledRound`, `RoundImpl.Settled`) when at most one
hand is empty, the round has ended exactly when one is, and the discard pile has a top
card. The settled rounds are the ones a memento carries faithfully, and both `toMemento`
round trips are promised for them. These rounds are settled:

- every round `createRound` deals with at least one card a seat and fewer than 108
  cards in all;
- every round `createRoundFromMemento` restores.

`play`, `draw`, `sayUno`, `catchUnoFailure` and the reshuffle keep a round settled.
A game is settled (`Uno.GameSettled`, `UnoGame.Settled`) when its round is settled and
that round's dealer, taken modulo the game's player count, is the game's dealer.
`createGame` gives a settled game for fewer than 108 cards in all, and so does
`handleRoundEnd` for a settled game. `createGameFromMemento` always does.

## Model

| member | source | states |
|---|---|---|
| Common.JsRem | src/model/uno.ts:313 | JavaScript's remainder: it equals the Euclidean one for a non-negative dividend, is the negated remainder of the magnitude for a negative one, and lies strictly between `-m` and `m` |
| Deck.HasColor | src/model/deck.ts:37-39 | a wild card has no colour; any other card has exactly its own colour |
| Deck.HasNumber | src/model/deck.ts:40-42 | only a numbered card has a number, and it has exactly its own |
| Deck.AddMultipleCards | src/model/deck.ts:45-49 | the list grows by exactly `count` copies of the card, appended at the end |
| Deck.CanonicalCard | src/model/deck.ts:55-72 | the first 100 positions of the deck hold coloured cards and the last 8 hold wild cards |
| Deck.CanonicalDeckLayout | src/model/deck.ts:52-75 | the canonical deck has 108 cards and position `i` holds `CanonicalCard(i)` |
| Deck.DeckPrefixCount | src/model/deck.ts:52-75 | the copies of any card among the first `k` cards equal the closed-form count for that prefix |
| Deck.CanonicalDeckCounts | src/model/deck.ts:52-75 | the deck holds one zero per colour, two of each other number, action card and colour, and four of each wild kind |
| Deck.AddColorBlock | src/model/deck.ts:55-68 | one colour's loop turns the deck built so far into the deck up to the end of that colour's 25-card block |
| Deck.AddNumberPairs | src/model/deck.ts:59-63 | the loop over 1..9 extends the deck by the 18 numbered cards of the colour, in order |
| Deck.NumberPairStep | src/model/deck.ts:61-62 | the two pushes of one number give the next two positions of the canonical deck |
| Deck.AddActionPair | src/model/deck.ts:65-67 | two copies of an action card extend the deck by its next two positions |
| Deck.DeckPrefixRun | src/model/deck.ts:71-72 | appending a run of copies that matches the canonical positions gives the longer prefix |
| Deck.CreateInitialDeck | src/model/deck.ts:52-75 | the deck built holds exactly the canonical 108-card sequence |
| Deck.Records | src/model/deck.ts:134 | one record per card, each the shallow copy of that card |
| Deck.ValidateColor | src/model/deck.ts:78-82 | the record's colour if it has one; otherwise the missing-colour error for that type and index |
| Deck.ParseCard | src/model/deck.ts:86-108 | a failure names the index of the record that failed |
| Deck.ParseCardSpec | src/model/deck.ts:86-108 | a record fails exactly when its type is absent or unknown, a coloured type lacks a colour, or a numbered card lacks a number in 0..9; a card parsed has the record's type, colour and number |
| Deck.ParseFrom | src/model/deck.ts:86-109 | from position `from` on: success exactly when every record parses, element by element; a failure is the first record that fails |
| Deck.ParseRecords | src/model/deck.ts:85-111 | success yields each record's card at the same index; failure reports the first failing record, and every record before it parses |
| Deck.ParseToRecord | src/model/deck.ts:86-108 | parsing the shallow copy of any card gives back that card |
| Deck.ParseRecordsRoundTrip | src/model/deck.ts:133-135 | the records of any card sequence parse back to exactly that sequence |
| Deck.FromMemento | src/model/deck.ts:85-111 | succeeds exactly when every record parses, with a fresh deck of the parsed cards; otherwise the first record's error |
| Deck.FilterCards | src/model/deck.ts:130 | the filtered sequence is no longer than the original |
| Deck.FilterCardsKeeps | src/model/deck.ts:130 | every card kept satisfies the predicate, and each card that does keeps all its copies |
| Deck.FilterCardsAppend | src/model/deck.ts:130 | filtering distributes over concatenation, so order is kept |
| Deck.FilterCardsCons | src/model/deck.ts:130 | filtering a sequence with a card in front keeps that card in front exactly when it satisfies the predicate |
| Deck.ArrayDeck.constructor | src/model/deck.ts:115 | the deck holds a copy of the given cards |
| Deck.ArrayDeck.Deal | src/model/deck.ts:119-121 | an empty deck yields nothing; otherwise its first card is removed and returned |
| Deck.ArrayDeck.Shuffle | src/model/deck.ts:124-127 | the new order is the shuffler's result, a rearrangement of the same cards |
| Deck.ArrayDeck.Filter | src/model/deck.ts:129-131 | a fresh deck of the cards satisfying the predicate, in order |
| Deck.ArrayDeck.ToMemento | src/model/deck.ts:133-135 | the memento parses back to exactly the deck's cards |
| Piles.CardScore | src/model/round.ts:23-37 | a numbered card is worth its number, an action card 20 and a wild card 50; no card is worth more than 50 |
| Piles.CreateCardFromMemento | src/model/round.ts:5-13 | the card rebuilt has the record's type and, where it has them, its colour and number |
| Piles.CreateCardRoundTrip | src/model/round.ts:5-13 | rebuilding the shallow copy of any card gives back that card |
| Piles.CreateCards | src/model/round.ts:617 | one rebuilt card per record, at the same index |
| Piles.CreateCardsRecords | src/model/round.ts:521 | copying a pile to records and rebuilding it gives back the same pile |
| Piles.DeckImpl.constructor | src/model/round.ts:87-89 | the pile holds a copy of the given cards |
| Piles.DeckImpl.Deal | src/model/round.ts:95-97 | an empty pile yields nothing; otherwise its first card is removed and returned |
| Piles.DeckImpl.Peek | src/model/round.ts:99-101 | the first card, present exactly when the pile is not empty |
| Piles.DeckImpl.Add | src/model/round.ts:103-105 | the card goes to the end of the pile |
| Piles.DeckImpl.Filter | src/model/round.ts:107-110 | a fresh pile of the cards that satisfy the predicate |
| Piles.DeckImpl.Shuffle | src/model/round.ts:112-114 | the new order is the shuffler's result, with the same cards |
| Piles.DeckImpl.ToMemento | src/model/round.ts:116-118 | one record per card, parsing back to the pile |
| Piles.DiscardPileImpl.constructor | src/model/round.ts:126-127 | an empty pile with no colour in force |
| Piles.DiscardPileImpl.Top | src/model/round.ts:133-135 | the last card added, present exactly when the pile is not empty |
| Piles.DiscardPileImpl.Add | src/model/round.ts:137-145 | the card goes on top; a named colour takes effect, otherwise the card's own colour does, and a wild card with no colour named keeps the old one; a consistent pile stays consistent |
| Piles.DiscardPileImpl.ToMemento | src/model/round.ts:151-153 | one record per card, bottom to top, parsing back to the pile |
| Piles.DiscardPileImpl.IsEmpty | src/model/round.ts:155-157 | true exactly when the pile holds no card |
| RoundMemento.HandScoreBounds | src/model/round.ts:503-513 | a hand is worth at most 50 per card, and nothing exactly when it holds only zeros |
| RoundMemento.TotalScoreBound | src/model/round.ts:503-513 | a round's score is at most 50 times the largest hand times the number of hands |
| RoundMemento.CountEmpty | src/model/round.ts:589 | the count of empty hands is at most the number of hands |
| RoundMemento.FirstEmpty | src/model/round.ts:494-501 | the first empty hand, if any: every hand before it holds cards; none exactly when no hand is empty |
| RoundMemento.CountEmptyZero | src/model/round.ts:589-597 | no empty hand is counted exactly when every hand holds cards |
| RoundMemento.CountEmptyOne | src/model/round.ts:589-594 | with exactly one empty hand, every other hand holds cards |
| RoundMemento.CountEmptyAllBut | src/model/round.ts:589-594 | when every hand but one holds cards, the count of empty hands is 1 exactly when that one is empty |
| RoundMemento.TotalScore | src/model/round.ts:503-513 | definition: the points of every non-empty hand, added up; `TotalScoreBound` bounds it, `RoundImpl.CalculateScore` computes it, and `RoundImpl.Score` reports it |
| RoundMemento.MementoOf | src/model/round.ts:515-528 | definition: the memento of a state, with the discard pile top first and no player in turn once finished; `MementoOfValidates` and `RestoreMementoOf` prove it restores |
| RoundMemento.ParseColor | src/model/round.ts:573-575 | a parsed colour is the one whose name was given |
| RoundMemento.ParseColorName | src/model/round.ts:573 | every colour's name parses back to that colour |
| RoundMemento.DirectionOf | src/model/round.ts:606 | a saved direction always reads back as 1 or -1 |
| RoundMemento.DirectionRoundTrip | src/model/round.ts:606 | the label written for either direction reads back as that direction |
| RoundMemento.Reversed | src/model/round.ts:517 | the same cards, in the opposite order |
| RoundMemento.ReversedTwice | src/model/round.ts:621-625 | reversing the top-first discard pile again gives the bottom-to-top order back |
| RoundMemento.PileColor | src/model/round.ts:620-625 | the colour a rebuilt pile ends with: none exactly when every card is wild, and the top card's colour when it is coloured |
| RoundMemento.ValidateMemento | src/model/round.ts:552-597 | a memento checked has 2..10 players and a hand for each, a discard pile, a dealer and a player in turn within range, and a known colour consistent with a coloured top card; a wild top card needs a colour; at most one hand is empty; an unfinished round names its player in turn; the first failure is too few players exactly when there are too few |
| RoundMemento.Restore | src/model/round.ts:548-637 | restoring succeeds exactly when the checks pass; the state is then restorable, with the saved players, dealer, hands and draw pile, the discard pile turned bottom to top, and the player in turn |
| RoundMemento.MementoOfValidates | src/model/round.ts:515-528 | the memento of any restorable round passes every check and names the colour in force |
| RoundMemento.RestoreMementoOf | src/model/round.ts:515-528 | restoring the memento of a restorable round gives back that round, with seat 0 in turn once finished |
| RoundMemento.RestoreMementoOfAny | src/model/round.ts:515-528 | the same round trip, stated for every state |
| Round.NextSeat | src/model/round.ts:377-379 | the next seat in the direction given, wrapping around at both ends |
| Round.NextSeatBack | src/model/round.ts:377-379 | a step back undoes a step forward |
| Round.Penalty | src/model/round.ts:366-373 | a penalty is due exactly for a draw-two or a wild draw four |
| Round.TurnAfter | src/model/round.ts:343-375 | the seat and direction after a play stay on the table |
| Round.TurnAfterDirection | src/model/round.ts:360-365 | only a reverse card turns the direction |
| Round.TwoPlayerActionsRepeat | src/model/round.ts:355-375 | with two players, an action card or a wild draw four gives the player who played it another turn |
| Round.TurnAfterSeats | src/model/round.ts:355-379 | with three or more players the turn passes on: skip and draw cards jump the next seat, a reverse goes back the other way, and any other card passes to the next seat |
| Round.EffectSeat | src/model/round.ts:355-375 | the seat reached after the card's own moves is on the table |
| Round.TurnAfterSteps | src/model/round.ts:343-375 | a play's turn is the card's effect moves followed by one step in the new direction; a penalty lands on the next seat |
| Round.UnoCalledBeforePlay | src/model/round.ts:334-340 | a player who calls UNO in turn and then plays down to one card uses up the call and opens no window |
| Round.UnoForgottenIsCaught | src/model/round.ts:334-340 | a player who plays down to one card without calling UNO first opens a window in which they can be caught |
| Round.UnoWindowCloses | src/model/round.ts:417-422 | any other player's action closes an open window; the accused's own call on that same action closes it too |
| Round.AfterStartAction | src/model/round.ts:417-422 | definition: an action by anyone but the accused closes the open window; `UnoWindowCloses` states it |
| Round.AfterSayUno | src/model/round.ts:465-478 | definition: a call in the caller's own window, opened at this action number, closes it; otherwise a call by the player in turn counts for their next action; `UnoCalledBeforePlay` and `UnoWindowCloses` use it |
| Round.AfterPlayWindows | src/model/round.ts:334-340 | definition: a play down to one card uses up a call made for it or opens a window on the player; `UnoCalledBeforePlay` and `UnoForgottenIsCaught` state both cases |
| Round.CanCatch | src/model/round.ts:456-459 | definition: the accused has the open window and one card left; `UnoForgottenIsCaught` and `RoundImpl.CatchUnoFailure` use it |
| Round.OpenFrom | src/model/round.ts:212-221 | an opening card is never wild; running out of redraws is the only failure |
| Round.RedrawStepCards | src/model/round.ts:214-219 | putting the wild card back and shuffling keeps the same cards |
| Round.OpenFromFacts | src/model/round.ts:212-224 | a successful opening leaves the same cards, with the opening card out of the pile; there is no opening card exactly when the pile was empty |
| Round.RedrawAllWild | src/model/round.ts:214-219 | redrawing a pile of only wild cards leaves a pile of only wild cards |
| Round.AllWildOpenFails | src/model/round.ts:212-221 | a pile of only wild cards never yields an opening card, whatever the redraw budget |
| Round.RedrawNeverStops | src/model/round.ts:212-221 | on a pile of only wild cards, every redraw leaves a wild card on top, so the source's loop never ends |
| Round.Redrawn | src/model/round.ts:212-221 | definition: the unbounded redraw loop after `k` passes; `RedrawNeverStops` shows it never reaches a card that is not wild on a pile of wild cards |
| Round.FiftyEachLeavesWilds | src/model/round.ts:203-209 | two players dealt fifty cards each from the unshuffled deck leave exactly the eight wild cards |
| Round.OpeningTurn | src/model/round.ts:223-236 | the seat and direction after the opening card stay on the table |
| Round.DealerLeft | src/model/round.ts:194 | the seat after the dealer is one step forward |
| Round.OpeningAsDealerPlay | src/model/round.ts:226-235 | the opening card moves the turn as if the dealer had played it, except that a reverse with two players goes back to the dealer's left |
| Round.DealerLeftTwice | src/model/round.ts:230 | two seats after the dealer is two steps forward |
| Round.DealerRight | src/model/round.ts:228 | the seat before the dealer is one step back |
| Round.LegalWilds | src/model/round.ts:264-280 | only a card in the hand can be legal, and only on a top card; a wild card always is; a wild draw four is legal exactly when no other card in the hand matches the colour in force |
| Round.LegalColored | src/model/round.ts:282-290 | a coloured card is legal exactly when it matches the colour in force, or the top card's number, or the top card's action |
| Round.MatchesColor | src/model/round.ts:295-299 | definition: a coloured card in the colour in force; a wild card never matches, and nothing matches when no colour is in force; `LegalWilds` states the wild-draw-four rule through it |
| Round.Legal | src/model/round.ts:264-293 | definition: the round's playability rule; `LegalWilds` and `LegalColored` state it case by case, and `RoundImpl.CanPlay` applies it |
| Round.RemoveAt | src/model/round.ts:319 | the hand without the card at `i`, the others in order; the card is the only one removed |
| Round.ReshuffledConserves | src/model/round.ts:424-441 | a reshuffle keeps every card and leaves the top card of the discard pile in place |
| Round.Reshuffled | src/model/round.ts:424-441 | definition: with more than one card on the discard pile, all but its top go under the draw pile in the shuffler's order; `ReshuffledConserves` keeps every card and the top |
| Round.DrawOutcome | src/model/round.ts:381-391 | drawing changes no one else's hand |
| Round.DrawOutcomeConserves | src/model/round.ts:381-391 | drawing keeps every card on the table and leaves the top card of the discard pile in place |
| Round.DealtFromSupply | src/model/round.ts:381-391 | the drawer's gain and the rest of the draw pile together are the supply the draws came from |
| Round.SupplyConserves | src/model/round.ts:383-385 | the supply and what stays on the discard pile hold exactly the two piles' cards, with the top card kept |
| Round.DrawOutcomeCount | src/model/round.ts:381-391 | the drawer gains `count` cards while the draw pile lasts; otherwise as many as the draw pile and the reshuffled discards hold |
| Round.DrawRepeatedOutcome | src/model/round.ts:381-391 | `count` single draws, one per pass of the loop, give the outcome of drawing `count` cards |
| Round.DrawOutcomeStep | src/model/round.ts:382-390 | one more pass of the loop draws one more card |
| Round.DrawStepFromPile | src/model/round.ts:386-389 | a pass while the draw pile lasts draws one more card |
| Round.DrawStepExhausted | src/model/round.ts:383-389 | a pass with nothing to draw or reshuffle draws one more card, which is no card at all |
| Round.DrawStepPending | src/model/round.ts:383-385 | once draws reach into the reshuffled discards, the table is the one that reshuffle gives |
| Round.DrawStepReshuffled | src/model/round.ts:383-389 | a pass that reshuffles first draws one more card |
| Round.AfterPenaltyConserves | src/model/round.ts:366-373 | a penalty keeps every card on the table |
| Round.PlayConserves | src/model/round.ts:318-343 | a legal play keeps every card on the table and puts the card played on top of the discard pile |
| Round.PlayedConserves | src/model/round.ts:318-330 | moving the card from the hand to the discard pile keeps every card on the table |
| Round.PlayAsWrittenLosesCard | src/model/round.ts:316-330 | as written, a play that fails its colour check leaves the table one card short |
| Round.PlayAsWritten | src/model/round.ts:316-330 | definition: `play` as written, where the card leaves the hand before the colour check; `PlayAsWrittenLosesCard` and `WildWithoutColorLost` show the card lost |
| Round.Played | src/model/round.ts:318-327 | definition: the card played leaves the hand for the top of the discard pile; `PlayedConserves`, `PlayConserves` and `PlaySettled` carry its properties |
| Round.AfterPenalty | src/model/round.ts:366-373 | definition: the penalty of a draw card drawn by the victim, or no change; `AfterPenaltyConserves` keeps every card |
| Round.WildWithoutColorLost | src/model/round.ts:319-323 | a concrete table on which a wild card played with no colour leaves the game |
| Round.AfterDrawConserves | src/model/round.ts:403-411 | a draw keeps every card on the table, adds the first card of the draw pile to the drawer's hand, and keeps the top card of the discard pile |
| Round.AfterDraw | src/model/round.ts:403-411 | definition: the front card goes to the drawer and an emptied draw pile is refilled from the discard pile; `AfterDrawConserves` and `AfterDrawSettled` carry its properties |
| Round.DrawOutcomeSettled | src/model/round.ts:381-391 | drawing from a settled table of a round in play leaves it settled |
| Round.AfterDrawSettled | src/model/round.ts:403-411 | `draw` on a settled table of a round in play leaves it settled |
| Round.PlaySettled | src/model/round.ts:318-350 | a play with its penalty drawn by another seat leaves a settled table settled, and the round has ended exactly when the player's hand is empty |
| Round.DealtAt | src/model/round.ts:204-209 | player `q`'s hand is the `q`-th block of the deck |
| Round.DealtBlocks | src/model/round.ts:204-209 | player `q` gets the cards from `q * cardsPerPlayer` on, as many as remain, and the draw pile keeps the rest |
| Round.DealtBlockAt | src/model/round.ts:204-209 | one player's block, at offset `q * cardsPerPlayer` |
| Round.DealtConserves | src/model/round.ts:203-209 | the hands and the draw pile together hold exactly the cards of the deck |
| Round.NormalizedDealer | src/model/round.ts:190 | the dealer brought onto the table is the Euclidean remainder, a valid seat |
| Round.NormalizedDealerMod | src/model/round.ts:190 | the double JavaScript remainder equals the Euclidean one for every dealer, negative ones included |
| Round.DealInitialHands | src/model/round.ts:197-209 | the hands are the blocks of the shuffled canonical deck, and the draw pile is the rest |
| Round.InitialDealConserves | src/model/round.ts:197-209 | after dealing, the hands and the draw pile hold exactly the canonical deck |
| Round.DealHands | src/model/round.ts:203-209 | the nested loop deals the blocks and leaves the rest on the pile |
| Round.DealCards | src/model/round.ts:205-208 | one player's inner loop takes the next `cardsPerPlayer` cards, or all that are left |
| Round.SplitPile | src/model/round.ts:425-428 | all cards but the top one move, rebuilt from their records, and the top card is kept |
| Round.AddAll | src/model/round.ts:430 | the moved cards go to the end of the draw pile in order |
| Round.RestartPile | src/model/round.ts:431-440 | a fresh discard pile holds only the old top card, with that card's colour or, for a wild card, the colour in force |
| Round.DrawOpeningCard | src/model/round.ts:212-221 | the loop succeeds exactly when `OpenFrom` does, with its pile and card |
| Round.Redraw | src/model/round.ts:215-219 | one pass puts the wild card under the pile, shuffles, and deals again, as `RedrawStep` describes |
| Round.RoundImpl.constructor | src/model/round.ts:178-211 | the players, the shuffler, the dealer brought onto the table, the turn after the dealer going clockwise, and the dealt state, with an empty discard pile |
| Round.RoundImpl.Restored | src/model/round.ts:610-634 | a round holding the restored hands, piles, turn and direction, finished with its score exactly when asked |
| Round.RoundImpl.NextPlayer | src/model/round.ts:377-379 | the turn moves one seat in the current direction |
| Round.RoundImpl.StartAction | src/model/round.ts:417-422 | any other player's action closes an open UNO window, and the action counter advances |
| Round.RoundImpl.ReshuffleDiscardPile | src/model/round.ts:424-441 | the piles become the `Reshuffled` ones; the colour in force is kept; a pile of at most one card is left alone; a settled round stays settled |
| Round.RoundImpl.DrawCardsForPlayer | src/model/round.ts:381-391 | the table becomes `DrawOutcome` of the old table; the colour in force is kept; a settled round stays settled |
| Round.RoundImpl.DrawOne | src/model/round.ts:383-389 | one pass of the draw loop, as `DrawStep` describes |
| Round.RoundImpl.PlayerCount | src/model/round.ts:239-241 | the number of players |
| Round.RoundImpl.Player | src/model/round.ts:243-246 | the player's name for a seat in range, the out-of-bounds error exactly otherwise |
| Round.RoundImpl.PlayerHand | src/model/round.ts:248-250 | the hand at a seat in range; nothing otherwise |
| Round.RoundImpl.PlayerInTurn | src/model/round.ts:252-254 | the player in turn, a valid seat, present exactly while the round is not finished |
| Round.RoundImpl.Score | src/model/round.ts:447-449 | the score, present exactly once the round is finished, and then the total of the hands |
| Round.RoundImpl.HasEnded | src/model/round.ts:530 | whether the round is finished, and then some hand is empty |
| Round.RoundImpl.CanPlay | src/model/round.ts:264-293 | a card is playable exactly when the round is not finished and the rule `Legal` allows it; a wild card in the hand always is |
| Round.RoundImpl.CanPlayAny | src/model/round.ts:301-306 | some card of the hand in turn is playable |
| Round.RoundImpl.CanDraw | src/model/round.ts:308-310 | exactly when the round is not finished and the draw pile is not empty |
| Round.RoundImpl.CalculateScore | src/model/round.ts:503-513 | the loop sums the points of every non-empty hand |
| Round.RoundImpl.GetWinner | src/model/round.ts:494-501 | the first seat with an empty hand, or -1 |
| Round.RoundImpl.Winner | src/model/round.ts:531 | the first seat with an empty hand, if any |
| Round.RoundImpl.ToMemento | src/model/round.ts:515-528 | the memento holds the players, hands and piles, with the discard pile top first and the player in turn exactly while unfinished; restoring the memento of a settled round gives back the round, with seat 0 in turn once finished |
| Round.RoundImpl.FinishRound | src/model/round.ts:484-492 | the round is finished with the total of the hands as its score |
| Round.RoundImpl.HandleSpecialCard | src/model/round.ts:355-375 | the card's moves of the turn and direction, and its penalty drawn by the next seat, as `AfterPenalty` describes |
| Round.RoundImpl.Penalise | src/model/round.ts:366-373 | the turn moves to the next seat, and that seat draws `count` cards |
| Round.RoundImpl.PutOnPile | src/model/round.ts:318-340 | the card leaves the hand for the top of the discard pile with its colour or the named one, and the UNO window follows `AfterPlayWindows` |
| Round.RoundImpl.Play | src/model/round.ts:312-353 | an action opens; the play succeeds exactly when it is legal and a colour is named exactly for a wild card, with the matching error otherwise and, after an error, the table unchanged; on success the card is placed, its effects apply, the turn moves as `TurnAfter` says, and the round ends exactly when the hand is empty; a settled round stays settled |
| Round.RoundImpl.PlayChecked | src/model/round.ts:318-353 | a legal play: the table after placing and penalty, the turn as `TurnAfter` says, the colour, the UNO window, and the end of the round exactly on an empty hand |
| Round.RoundImpl.PlaceAndApply | src/model/round.ts:318-343 | the card is placed and its effects applied; the player keeps the rest of the hand |
| Round.RoundImpl.EndTurn | src/model/round.ts:345-350 | the turn moves on one seat, and the round ends exactly when the player's hand is empty |
| Round.RoundImpl.Draw | src/model/round.ts:393-415 | an action opens; a draw succeeds exactly while the round runs and the draw pile holds cards; the first card goes to the drawer, who keeps the turn exactly when it can then be played; a settled round stays settled |
| Round.RoundImpl.DrawChecked | src/model/round.ts:403-412 | the table after the draw, and the turn kept exactly when the new card can be played |
| Round.RoundImpl.SayUno | src/model/round.ts:465-478 | fails once the round has ended or for a seat out of range; otherwise it closes the caller's own open window or records an early call by the player in turn; a settled round stays settled |
| Round.RoundImpl.CatchUnoFailure | src/model/round.ts:451-463 | false once the round has ended; the accused's and then the accuser's seat are checked; the catch succeeds exactly when the accused has an open window and one card, who then draws four; otherwise nothing changes; a settled round stays settled |
| Round.RoundImpl.OpenDiscard | src/model/round.ts:211-236 | the opening succeeds exactly when `Opening` does, and the round then has its state; running out of redraws is the only failure |
| Round.RoundImpl.OpenWith | src/model/round.ts:223-236 | laying a non-wild opening card gives the state `LayOpening` describes |
| Round.RoundImpl.OpeningDraw | src/model/round.ts:231-234 | the seat after the dealer draws two cards and the turn goes two seats on |
| Round.OpeningFacts | src/model/round.ts:211-236 | an opening keeps every card and the hands' number, puts a non-wild card on top with its colour in force, and leaves the pile empty exactly when the draw pile was empty |
| Round.LayOpeningFacts | src/model/round.ts:223-236 | laying the opening card keeps every card and puts that card on top with its colour in force |
| Round.InitialStateFacts | src/model/round.ts:178-236 | a dealt and opened round holds exactly the canonical deck, has a hand per player, is not finished, and has a non-wild top card with its colour in force |
| Round.Opening | src/model/round.ts:211-236 | definition: the first card that is not wild opens the discard pile, within `MaxRedraws` redraws; `OpeningFacts` and `OpeningHands` carry its properties |
| Round.InitialState | src/model/round.ts:178-236 | definition: the dealt state, then the opening; `InitialStateFacts`, `InitialStateSettled`, `OverdealtRound` and `EmptyDealRound` carry its properties |
| Round.DealtFull | src/model/round.ts:203-209 | when the deck covers the deal, every seat receives all its cards |
| Round.OpeningHands | src/model/round.ts:211-236 | the opening keeps the players and the dealer, and only adds cards, and only to the seat after the dealer |
| Round.InitialStateSettled | src/model/round.ts:178-236 | a deal of at least one card a seat with cards to spare opens a settled round, dealt by the dealer brought onto the table |
| Round.OverdealtRound | src/model/round.ts:203-224 | a deal of 108 cards or more is accepted with no draw pile and no discard pile, and once the first `n - 1` seats take the whole deck, the last seat holds no card although the round has not ended |
| Round.EmptyDealRound | src/model/round.ts:203-236 | a round dealt no cards opens with the dealer's hand empty although it has not ended |
| Round.NewRound | src/model/round.ts:178-236 | too few or too many players fail first; otherwise the round is dealt exactly when `InitialState` succeeds, and then it has that state; with at least one card a seat and fewer than 108 in all, the round is settled |
| Round.DealRound | src/model/round.ts:190-236 | for 2..10 players: the round is dealt exactly when `InitialState` succeeds, and then it has that state |
| Round.CreateRound | src/model/round.ts:534-546 | `createRound` with the default shuffler (keeps the order) and 7 cards each when not given; as `NewRound`; with at least one card a seat and fewer than 108 in all, the round is settled |
| Round.RebuildDiscard | src/model/round.ts:620-629 | the pile rebuilt from a top-first list is that list reversed, with the colour `PileColor` gives |
| Round.CreateRoundFromMemento | src/model/round.ts:548-637 | succeeds exactly when `Restore` does, with its error otherwise, and then the round has the restored state; a restored round is settled |
| Round.RestoredColorConsistent | src/model/round.ts:573-587 | a restored pile is not empty, has a colour in force, and a coloured top card agrees with it |
| Uno.CanPlay | src/model/uno.ts:48-57 | a wild card is always playable; an enforced colour must match; otherwise a card must match the top card's colour or type, so a numbered card on a numbered card always is |
| Uno.RoundRuleWithinStandalone | src/model/uno.ts:48-57 | every card the round's rule allows the stand-alone rule allows too |
| Uno.StandaloneLooserThanRound | src/model/uno.ts:52-53 | concrete cards the stand-alone rule allows and the round's rule refuses |
| Uno.PlayableAmong | src/model/uno.ts:40-45 | exactly the playable positions, ascending |
| Uno.PlayerHand.constructor | src/model/uno.ts:19 | an empty hand |
| Uno.PlayerHand.Add | src/model/uno.ts:29-31 | the card goes to the end of the hand |
| Uno.PlayerHand.RemoveAt | src/model/uno.ts:33-38 | for an index in range, the card there is removed and returned; otherwise the out-of-bounds error and the hand unchanged |
| Uno.PlayerHand.PlayableIndices | src/model/uno.ts:40-45 | exactly the positions of the hand's playable cards, ascending |
| Uno.Mod | src/model/uno.ts:312-315 | a non-negative remainder below the modulus, equal to the Euclidean one |
| Uno.ModOfJsRem | src/model/uno.ts:96 | bringing JavaScript's remainder of a random draw onto the table gives the Euclidean remainder |
| Uno.ModOfSeat | src/model/uno.ts:141 | a seat already on the table is left as it is |
| Uno.EnsureIndex | src/model/uno.ts:307-310 | passes exactly for an integer index in range; a fraction fails as not an integer, any other failure is out of bounds |
| Uno.NormalisePlayers | src/model/uno.ts:298-303 | no players or an empty list gives the default two; otherwise the list if it has 2..10 players, with the matching error if not |
| Uno.ValidateGameConfig | src/model/uno.ts:267-270 | passes exactly for a positive target and a positive hand size; the target is checked first |
| Uno.ValidateAndCopyScores | src/model/uno.ts:273-281 | the scores, exactly when there is one per player and none is negative; the count is checked first |
| Uno.Winners | src/model/uno.ts:118-121 | exactly the seats at or above the target, ascending |
| Uno.SoleWinner | src/model/uno.ts:118-126 | with at most one winner, a seat reaches the target exactly when it is that winner |
| Uno.WinnersOfDecided | src/model/uno.ts:118-126 | when exactly the winning seat or no seat reaches the target, the winners are that seat or none |
| Uno.Zeros | src/model/uno.ts:103 | one zero score per player |
| Uno.CheckedScores | src/model/uno.ts:113-116 | when the checks pass: 2..10 players, a positive target and hand size, and one non-negative score per player |
| Uno.RestoreGame | src/model/uno.ts:108-156 | a restored game is valid and has the saved settings and scores; it is won exactly when no round was saved, then dealt by the seat after the winner; a saved round is restored; several winners, a winner with a round, or no winner and no round all fail |
| Uno.RestoreDecided | src/model/uno.ts:118-156 | the same, once the players and scores have passed their checks |
| Uno.RestoreGameMementoOf | src/model/uno.ts:218-226 | any valid, settled game whose round is restorable comes back from its memento as it was, up to the dealer of a won match and the turn of a finished round |
| Uno.RestoreGameMementoOfAny | src/model/uno.ts:218-226 | the same round trip, stated for every game |
| Uno.RestoreGameSettled | src/model/uno.ts:118-156 | a restored game is settled |
| Uno.AfterRoundEnd | src/model/uno.ts:244-263 | definition: the game after a round end; `AfterRoundEndFacts` carries its properties and `UnoGame.HandleRoundEnd` follows it |
| Uno.AfterRoundEndFacts | src/model/uno.ts:244-263 | a round end keeps the game valid and changes only the winner's score, which grows by the round score; the match is won exactly at the target, and otherwise the winner deals the next round |
| Uno.UnoGame.constructor | src/model/uno.ts:182-192 | the settings and scores as given, the dealer brought onto the table, and the round or winner given |
| Uno.UnoGame.Player | src/model/uno.ts:200-203 | the name at an integer seat in range, and `ensureIndex`'s error otherwise |
| Uno.UnoGame.Score | src/model/uno.ts:205-208 | the score at an integer seat in range, and `ensureIndex`'s error otherwise |
| Uno.UnoGame.ToMemento | src/model/uno.ts:218-226 | the settings, scores and round memento; a valid, settled game comes back from it as `Reloaded` says |
| Uno.UnoGame.InitialiseNewRound | src/model/uno.ts:228-238 | a won match is left alone; otherwise a fresh round in the state `InitialState` gives, or the deal's failure with no round; with fewer than 108 cards dealt in all, the game is then settled |
| Uno.UnoGame.DealFirst | src/model/uno.ts:230-237 | a fresh round dealt by the game's dealer, in the state `InitialState` gives, or the deal's failure with no round; with fewer than 108 cards dealt in all, the game is then settled |
| Uno.UnoGame.Attach | src/model/uno.ts:236-237 | the round becomes the game's round in play |
| Uno.UnoGame.HandleRoundEnd | src/model/uno.ts:244-263 | the game's new state is `AfterRoundEnd` of the old one with the round's score (none counts as 0) and a round dealt by the winner; a deal that fails is reported; a settled game stays settled when fewer than 108 cards are dealt in all |
| Uno.UnoGame.EndMatch | src/model/uno.ts:249-251 | at the target: the new total, the match won by `w`, and no round |
| Uno.UnoGame.DealNext | src/model/uno.ts:252-262 | below the target: the new total and a fresh round dealt by `w`, or the game unchanged when no round can be dealt |
| Uno.UnoGame.Install | src/model/uno.ts:253-261 | the new total, `w` as dealer, and the given round in play |
| Uno.UnoGame.NextRound | src/model/uno.ts:247-260 | the winner's total, the winner as dealer, and the round |
| Uno.CreateGame | src/model/uno.ts:87-106 | player, target and hand-size errors in the source's order; otherwise a fresh valid game with zero scores, the dealer `randomizer(n) % n`, and the first round dealt by that dealer; with fewer than 108 cards dealt in all, the game is settled |
| Uno.CreateGameFromMemento | src/model/uno.ts:108-156 | succeeds exactly when `RestoreGame` does, with its error otherwise, and the game then has the restored state; a restored game is settled |
| Uno.ResumeGame | src/model/uno.ts:131-136 | a saved game with no winner: its round rebuilt, as `RestoreDecided` says |
| Uno.ResumedOutcome | src/model/uno.ts:118-136 | with no winner, every score is below the target, and the game is the restored round dealt by its own dealer, or that round's error |
| Uno.WonGame | src/model/uno.ts:137-142 | a saved game with a winner: no round, as `RestoreDecided` says |
| Uno.WonOutcome | src/model/uno.ts:126-142 | with one winner, exactly that seat reaches the target, and the game is won, with the seat after the winner as dealer |

## Left out

- `onEnd` and the end-of-round callbacks (round.ts:480-482, 491; uno.ts:240-242). The
  source calls back into the game when a round finishes. In the model, `HandleRoundEnd`
  is a method the caller invokes with the winner's seat. It requires that seat to be on
  the table.
- `lastActionTurn` and `unoDeclarations` (round.ts:168, 173, 341). They are written but
  never read.
- The reshuffle in `draw` before dealing (round.ts:399-401) and the "No cards available"
  throw (round.ts:414). Neither can happen: `canDraw` has just required a non-empty draw
  pile.
- The redraw loop for the opening card (round.ts:212-221) is bounded by the constant
  `MaxRedraws`. The source keeps redrawing until a card that is not wild comes up, and it
  loops forever only when the pile holds nothing but wild cards (see Findings). The model
  stops after `MaxRedraws` redraws and reports `RedrawLimitReached`, even when cards that
  are not wild remain in the pile.
- `RoundImpl.constructor`: the source's constructor deals and lays the opening card in
  one step. In the model the constructor deals. `RoundImpl.OpenDiscard`, called by
  `NewRound`/`DealRound`, lays the opening card.
- `createRoundFromMemento` first builds a throwaway round (round.ts:610), then overwrites
  its fields. The model builds the restored round directly with
  `RoundImpl.Restored`. It keeps the throwaway round's one observable effect: more than
  ten players fail.
- Mementos are typed data (`CardRecord`, `RoundMemento`, `GameMemento`). Arbitrary
  JavaScript values are not modelled:
  - fields of the wrong type
  - colours given as unchecked strings inside card records
  - the `playerHands` and `currentPlayer` aliases of round.ts:556 and 605
- A restored finished round has no player in turn in the source. The model sets
  `currentPlayer` to 0. Only `startAction` reads it in a finished round, and a restored
  round has no open UNO window, so the value has no effect.
- `RoundImpl.DrawCardsForPlayer` requires an unfinished round. Every caller in the source
  draws during a live round.
- `copyPlayerHands` (round.ts:40-42) and the other defensive copies are not modelled.
  Dafny sequences are values, so copies cannot alias.
- Shuffling: the shuffler and randomizer are parameters.
  - `standardShuffler` and `standardRandomizer` come from `src/utils/random_utils.ts`.
    That file is not part of this model.
  - The shuffler's in-place update of the array it is given is modelled as the sequence
    it returns.
- `Uno.UnoGame.HandleRoundEnd`: when the next round's opening runs out of its `MaxRedraws`
  redraws, the model reports `DealFailed` and leaves the game as it was. The source has no
  such failure. It keeps redrawing, forever only when nothing but wild cards are left.
- Numbers: JavaScript numbers are modelled as `int`. The one exception is the index given
  to `player`/`score`, which is a `real`, so that `Number.isInteger` can be stated. `NaN`,
  infinities and overflow are not modelled.
- `Uno.CreateGameFromMemento` does not check that the players of a saved round are the
  game's players. Neither does the source. A restored game's dealer is the saved round's
  dealer modulo the game's player count. This is why `GameSettled` compares the dealers
  modulo that count.
- `Round.RoundImpl.ToMemento` and `Uno.UnoGame.ToMemento` promise the round trip only for
  settled rounds and games. The source accepts deals that are not settled:
  - `createGame` checks only that `cardsPerPlayer` is positive, and `createRound` also
    accepts 0 or less. A deal of 108 cards or more leaves no draw pile and no discard
    pile. From `(n - 1) * cardsPerPlayer >= 108` on, the last seat also has no card in
    an unfinished round (`Round.OverdealtRound`).
  - A deal of no cards leaves the dealer's hand empty in an unfinished round
    (`Round.EmptyDealRound`).
  - For these rounds the creators promise no settledness, and no round trip is promised
    for them.
- The `_randomizer` parameter of `createGameFromMemento` is unused in the source and
  absent from the model.
- The plain field reads `size`, `getAllCards`, `getCurrentColor`, `playerCount`,
  `winner()` and `currentRound()` have no contract. They are the functions
  `DeckImpl.Size`, `DeckImpl.GetAllCards`, `DiscardPileImpl.Size`,
  `DiscardPileImpl.GetCurrentColor`, `ArrayDeck.Size`, `PlayerHand.Size`,
  `UnoGame.PlayerCount`, `UnoGame.Winner` and `UnoGame.CurrentRound`.
- `drawPile()` and `discardPile()` hand out the round's pile objects. The model reads the
  fields directly.
- `validatePlayerIndex` (round.ts:16-20) is folded into the operations that call it.
- The UI store, workers, router and the other files outside `src/model/` are not part of
  this model.

## Findings

| source | as written | input that shows it | evidently intended | confidence | as-written member | corrected member |
|---|---|---|---|---|---|---|
| src/model/round.ts:316-330 | `play` splices the card out of the hand before it checks the colour argument. When a wild card comes without a colour, or a coloured card comes with one, the throw leaves the card in neither the hand nor the pile. | Hands `[[WILD, RED 1], [BLUE 2]]`, discard pile `[RED 5]`; seat 0 plays index 0 with no colour. The call throws "Wild card requires color selection", and the WILD card has left the game. | The colour checks run before the card leaves the hand, so a rejected play changes nothing. | not executed; high | Round.PlayAsWrittenLosesCard, Round.WildWithoutColorLost | Round.RoundImpl.Play |
| src/model/round.ts:211-221 | The redraw loop for the opening card runs until a non-wild card comes up. When only wild cards remain in the draw pile, it never ends. | Two players with `cardsPerPlayer` 50 and a shuffler that keeps the order. After the deal, the eight wild cards are all that is left, so every redraw deals a wild card again. | An opening that cannot produce a card that is not wild ends with an error. The model gives up after `MaxRedraws` redraws, even when such cards remain. | not executed; medium | Round.RedrawNeverStops, Round.FiftyEachLeavesWilds | Round.OpenFrom, Round.AllWildOpenFails, Round.RoundImpl.OpenDiscard |
