# Console blackjack: the round engine in Dafny

This project models the round engine of a console blackjack game. The engine covers:

- the card shoe;
- hand scoring with soft and hard Aces;
- the deal, with a full redeal whenever the dealer opens with 21;
- the player's actions (hit, stay, double down, split);
- the dealer's draw-below-17 turn;
- settlement and payouts.

It proves that none of these steps creates or loses a card. It also proves that the player's money, counted as the bankroll plus the stakes on the table, changes only at settlement, and only by what settlement pays.

The source has three files:

- **blackjack.py** is the current engine.
- **Blackjack.py** is an older single-deck copy of it.
- **cards.py** is a refactored `Card` and `Deck`.

The modules follow the program's structure:

| module | file | models |
|---|---|---|
| `Cards` | cards.dfy | `Card` and `Card.__str__`; the `Deck` class with `shuffleDeck`, `draw` and `returnToDeck` (their text is identical in all three files); the suit-major deck of cards.py |
| `Scoring` | scoring.dfy | the score `updateScore` computes, as a function, and why it is the best Ace choice |
| `Hands` | hands.dfy | the `Hand` class of blackjack.py (`updateScore`, `addToHand`, `popFromHand`, `finishHand`) and the outcome rule |
| `Rules` | engine_rules.dfy | the rank-major shoe of blackjack.py, the action menu, reading an answer from the console lines, the payout |
| `Table` | table.dfy | a round as values (the shoe, the dealer's cards, the row of hands), each step as a function on it, and what each step keeps |
| `Turns` | turns.dfy | one player turn (`actionPrompt`) and the player loop (`play_players`) as functions on a round |
| `Engine` | engine.dfy | the `Game` class: its constructor, `hit`, `deal`, `resetDeck`, `actionPrompt`, `play_players`, `play_dealer` and `begin_game` as methods on the objects, each proved against the functions of `Table` and `Turns` |
| `Legacy` | legacy.dfy | where Blackjack.py differs: its Ace tally, its single-deck `Deck()` and `Game`, and its double down |

**How the source's state is represented:**

- `Game`, `Hand` and `Deck` are classes whose methods update their fields in place, as in the source.
- The hand list is a `seq<Hand>` field. A split reassigns it with the new hand inserted.
- Each method states its new state through the specification functions on values. For example, `Game.PlayPlayers` ends in the state `PlayersFrom(old(Now()), 0, input)` describes.
- Money is `real`, so 2.5 × bet is exact.

**How the engine's surroundings are represented:**

- The console is a sequence of input lines. Running out of lines is an `EOFError` outcome.
- A shuffle is any permutation of the shoe.
- Each Python exception the engine can raise is an outcome: `ValueError` from `Deck(n)` with `n < 1`, and `IndexError` from a draw on an empty shoe or from `suits[i]` outside -4..3.

**Two flags behave differently from ordinary blackjack:**

- **The blackjack flag.** In ordinary blackjack only an original two-card hand is a natural. This code raises the flag for any two-card 21, including a split Ace that draws a ten (`Turns.SplitAceBlackjack`). The flag is then paid at 3:2.
- **The bust flag.** A hand is normally bust exactly when its score exceeds 21. In this code, `bust` and `blackjack` are only ever raised. `resetDeck` empties the hands without clearing them, so a redealt hand can carry a flag from the aborted deal (`Table.RedealtHand`). A hand left with the blackjack flag skips its turn and, when it wins, is paid 3:2 without a natural; a hand left with the bust flag loses on a score of 21 or less. The model keeps this behaviour of the code on purpose and does not correct it: nothing in the source says which reset was meant.

## Model

| member | source | states |
|---|---|---|
| Cards.CardString | cards.py:27-42 | `str(card)` succeeds exactly for the suit indices -4..3 that Python's list indexing accepts, and otherwise fails with IndexError; it ends with the suit letter, and Aces and face cards show one rank letter |
| Cards.CardStringRoundTrip | blackjack.py:32-46 | every valid card is displayed, and reading the text back gives the same card |
| Cards.CardStringInjective | cards.py:27-42 | two different valid cards are never displayed alike |
| Cards.CardStringExamples | cards.py:27-42 | Ace of spades "AS", ten of hearts "10H", "JC", "QD", "KS"; suit 99 raises IndexError |
| Cards.Deck.ShuffleDeck | cards.py:74-76 | the shoe after a shuffle is a permutation of the shoe before it |
| Cards.Deck.Draw | cards.py:78-90 | `draw(k)` succeeds iff k does not exceed the cards left; it returns the last k cards top first and leaves the rest; k ≤ 0 returns nothing and changes nothing; overdrawing empties the shoe and raises IndexError |
| Cards.Deck.ReturnToDeck | cards.py:92-103 | the cards are appended in order and their number is returned |
| Cards.DrawReturnConserves | blackjack.py:141-150 | drawing k cards and returning them restores the shoe's size and its multiset of cards |
| Cards.NewDeck | cards.py:57-72 | `Deck(n)` raises ValueError iff n < 1; otherwise the shoe is n suit-major decks in a row |
| Cards.SuitMajorDeckOrder | cards.py:65-72 | a cards.py deck has 52 cards, card i being suit i / 13 and rank i % 13 + 1 |
| Cards.SuitMajorDeckCounts | cards.py:65-72 | a cards.py deck holds every valid card exactly once and nothing else |
| Cards.ShoeCounts | cards.py:68-72 | n cards.py decks hold 52·n cards, each valid card n times |
| Scoring.ScoreIsBestChoice | blackjack.py:81-97 | the score counts each Ace as 1 or 11; it is the largest such total not above 21, and the all-Aces-as-1 total when none is |
| Scoring.ScoreOfValidCards | blackjack.py:81-97 | for real cards: one Ace counts 11 exactly when the hard total is at most 11; the score is at least the number of cards |
| Scoring.ScoreEmpty | blackjack.py:61-70 | a new hand with no cards scores 0 |
| Scoring.AceNineExample | tests/test_blackjack.py:39-42 | Ace and nine score 20 |
| Scoring.AceKingExample | tests/test_blackjack.py:44-46 | Ace and King score 21 |
| Scoring.TwoAcesExample | tests/test_blackjack.py:48-51 | Ace, Ace and nine score 21 |
| Scoring.BustExample | tests/test_blackjack.py:53-56 | ten, nine and five score 24 |
| Hands.Outcome | blackjack.py:105-111 | a settled hand is never in play, and a bust hand always loses |
| Hands.OutcomeMatchesScores | blackjack.py:105-111 | with flags that match the scores: lose iff bust or the dealer stands on a higher score; push iff not bust and the scores tie; win iff not bust and the dealer busts or scores lower |
| Hands.BustHandLoses | blackjack.py:106-107 | a bust hand loses whatever the dealer holds, a bust dealer included |
| Hands.Hand.constructor | blackjack.py:61-70 | a new hand is in play and unsplit, and holds the given cards and bet, its score, and flags set exactly by that score |
| Hands.Hand.UpdateScore | blackjack.py:81-103 | the score becomes the score of the cards; bust is raised above 21 and blackjack on a two-card 21, and neither is cleared |
| Hands.Hand.AddToHand | blackjack.py:72-74 | the cards are appended and the hand is rescored |
| Hands.Hand.PopFromHand | blackjack.py:76-79 | the last card is removed and returned and the hand is rescored |
| Hands.Hand.FinishHand | blackjack.py:105-111 | the status is the outcome of the hand against the dealer |
| Rules.RankMajorDeckOrder | blackjack.py:134-136 | a blackjack.py deck has 52 cards, card i being suit i % 4 and rank i / 4 + 1 |
| Rules.RankMajorDeckCounts | blackjack.py:134-136 | a blackjack.py deck holds every valid card exactly once and nothing else |
| Rules.DeckLayoutsDiffer | cards.py:68-72 | the cards.py deck holds the same cards as the blackjack.py deck in another order: the second card is the two of spades in one and the Ace of hearts in the other |
| Rules.RankMajorShoeCounts | blackjack.py:131-136 | n blackjack.py decks hold 52·n cards, each valid card n times |
| Rules.DefaultShoeCounts | blackjack.py:167-184 | a `Game` made without `num_decks` plays from six decks: 312 cards, each valid card six times |
| Rules.NewShoe | blackjack.py:131-136 | `Deck(n)` raises ValueError iff n < 1; otherwise the shoe is n rank-major decks |
| Rules.OfferedActions | blackjack.py:267-275 | Hit and Stay are always offered first; Double iff the hand has two cards, is not split and the bankroll covers the bet; Split iff in addition both cards have the same number; Double before Split |
| Rules.OfferedActionsExamples | blackjack.py:270-275 | King and Queen cannot split, two eights can, and a one-card split hand is offered only Hit and Stay |
| Rules.ResponseTokens | blackjack.py:277-278 | the accepted answers are "1" to "n", one per action |
| Rules.WaitForInput | blackjack.py:389-395 | lines not among the accepted answers are skipped; the first accepted line is returned with the lines after it; no accepted line is EOFError |
| Rules.PayoutNet | blackjack.py:379-387 | net of the stake taken up front, a loss costs the bet, a push breaks even, a win earns the bet, a blackjack win one and a half bets |
| Rules.BlackjackRoundExample | blackjack.py:384-385 | 1000 with a 50 blackjack win ends at 1075 |
| Rules.InsertAfter | blackjack.py:314-319 | rebuilding the hand list puts the new hand right after hand i, keeping every other hand in order |
| Table.FreshRowStakes | blackjack.py:188-194 | each hand at the table takes its starting bet, or the minimum buy, from the bankroll |
| Table.FreshRowDefaultStakes | blackjack.py:192-194 | with no starting bets, n hands take n minimum buys |
| Table.HitConserves | blackjack.py:199-203 | a hit for the dealer or a player moves the top card of the shoe to that hand, and leaves the stakes alone |
| Table.DealtRowConserves | blackjack.py:209-212 | a dealing pass gives the first k hands the top k cards, one each, and keeps the cards and the stakes |
| Table.DealtTwiceConserves | blackjack.py:209-212 | two passes over m hands take the top 2·m cards and keep the cards and the stakes |
| Table.DealConserves | blackjack.py:205-215 | one attempt of `deal` (two passes, then two cards for the dealer) keeps every card and every stake |
| Table.ResetConserves | blackjack.py:222-228 | `resetDeck` puts every player and dealer card back in the shoe: no card is lost and the stakes stay |
| Table.ClearedStakes | blackjack.py:222-225 | emptying the hands keeps their stakes |
| Table.RedealtHand | blackjack.py:217-228 | after a reset and a new deal, hand j holds exactly its two new cards and its stake, and a bust or blackjack flag from the aborted deal is still raised |
| Table.RedealKeepsSeats | blackjack.py:208-228 | two dealing passes and then `resetDeck` leave every hand empty, with its stake, status and split mark |
| Table.SplitConserves | blackjack.py:307-319 | a split keeps every card and moves the second stake from the bankroll onto the table |
| Table.SplitMarks | blackjack.py:309-319 | after a split both hands are marked split, the new hand sits right after hand i and holds one card, hand i lost one card, and all other hands are unchanged and in order |
| Table.SplitRowAsInsert | blackjack.py:314-319 | the row after a split is the row with hand i shortened and the new hand inserted after it |
| Table.DealerTurnDraws | blackjack.py:369-373 | the dealer draws off the top of the shoe, top card first, and leaves the rest of the shoe in place |
| Table.DealerTurnStands | blackjack.py:369-373 | the dealer's turn ends on a score of at least 17, draws nothing from 17 up, and fails only on an empty shoe below 17 |
| Table.DealerTurnConserves | blackjack.py:369-373 | the dealer's turn keeps every card |
| Table.DealerTurnExample | tests/test_blackjack.py:82-98 | a dealer on 10 and 6 draws the 2 on top of a 3, stands on 18 and leaves the 3 |
| Table.SettledRowOutcomes | blackjack.py:379-380 | settlement gives every hand a final status, makes every bust hand lose and changes nothing else |
| Table.PayoutBounds | blackjack.py:381-387 | settlement pays back between nothing and 2.5 times the stakes |
| Table.SettleConserves | blackjack.py:379-380 | settling keeps every card and every stake |
| Turns.HitHandMoves | blackjack.py:199-203 | a hit fails with IndexError, changing nothing, exactly on an empty shoe; otherwise only hand i and the shoe change, by the top card |
| Turns.HitHandConserves | blackjack.py:199-203 | a hit keeps the round's cards and its money |
| Turns.DoubleDownMoves | blackjack.py:297-301 | doubling down pays the hand's stake out of the bankroll, doubles the stake and takes exactly one card; other hands are untouched |
| Turns.DoubleDownConserves | blackjack.py:297-301 | doubling down keeps the round's cards and its money |
| Turns.SplitHandConserves | blackjack.py:307-319 | a split keeps the round's cards and its money |
| Turns.SplitHandShape | blackjack.py:309-319 | a split inserts a split-marked hand right after hand i and leaves every other hand in place |
| Turns.ChosenAnswer | blackjack.py:277-281 | the answer read is one of the offered entry numbers, so "3" means Double and "4" Split only when they are offered |
| Turns.HitLoopFrame | blackjack.py:282-294 | the hit loop changes only hand i and the shoe, keeps the stake, and fails only with IndexError or EOFError |
| Turns.HitLoopDraws | blackjack.py:282-294 | the hit loop takes cards only off the top of the shoe, and at least one when the shoe has any |
| Turns.HitLoopConserves | blackjack.py:282-294 | the hit loop keeps the round's cards and its money |
| Turns.SplitAceBlackjack | blackjack.py:260-264 | a split Ace draws one card and its turn ends; with a ten-valued card the hand scores 21 and is flagged blackjack |
| Turns.PromptShape | blackjack.py:254-322 | one turn changes only hand i, or splits it and inserts the new hand right after it |
| Turns.PromptConserves | blackjack.py:254-322 | one turn, however the player answers, keeps the round's cards and its money |
| Turns.PromptKeepsEarlier | blackjack.py:315-322 | a turn never removes a hand or changes one before hand i |
| Turns.PlayersConserve | blackjack.py:352-360 | the players' turns keep the round's cards and its money |
| Turns.PlayersKeepEarlier | blackjack.py:352-360 | the player loop keeps the hands before where it starts |
| Engine.OpenHands | blackjack.py:187-194 | one fresh distinct hand per player, staked from the starting bets or the minimum buy, with every stake taken from the bankroll |
| Engine.NewGame | blackjack.py:167-196 | `Game(...)` raises ValueError iff fewer than one deck is asked for; otherwise it holds n rank-major decks, the fresh row, an empty hidden dealer hand, and the money brought, counting the stakes |
| Engine.SplitPair | blackjack.py:309-313 | the last card moves into a new hand with the same bet, and both hands are marked split |
| Engine.Game.constructor | blackjack.py:183-196 | the game's row is the fresh row, and the bankroll plus the stakes is the money brought |
| Engine.Game.DrawInto | blackjack.py:199-203 | the top card of the shoe joins the hand, which is rescored; an empty shoe raises IndexError and leaves the hand alone |
| Engine.Game.Hit | blackjack.py:199-203 | `hit(-1)` gives the dealer the top card and `hit(i)` gives it to hand i; only that hand and the shoe change |
| Engine.Game.DealTo | blackjack.py:210-212 | one hand of the deal takes the top card |
| Engine.Game.DealRound | blackjack.py:210-212 | one pass deals the top cards to the hands in row order, or raises IndexError when the shoe runs short |
| Engine.Game.DealPasses | blackjack.py:209-212 | the two passes deal 2·m cards, or raise IndexError |
| Engine.Game.DealerTakesTwo | blackjack.py:214-215 | the dealer takes the next two cards, top first |
| Engine.Game.DealOnce | blackjack.py:208-215 | one attempt raises IndexError exactly when the shoe holds fewer than 2·m+2 cards; otherwise each hand takes the top card in row order, twice over, the dealer takes the next two, top first, and is rescored |
| Engine.Game.DealAttempt | blackjack.py:208-215 | one attempt deals the table as `DealOnce` says, and keeps every card and every stake |
| Engine.DealtRoundConserves | blackjack.py:208-215 | the deal that stood keeps every card and every stake |
| Engine.DealtRoundEmptied | blackjack.py:217-228 | putting back every card of a deal empties every hand and keeps every seat |
| Engine.Game.Deal | blackjack.py:205-220 | `deal` deals until one deal stands or `attempts` run out, counting the tries: none stands only when every try was used, and a deal that stood took at least one; it stands exactly on a dealer not on 21, with the table dealt from the shoe, hands and dealer it last started from: the game's own on the first try, after a put-back round the whole shoe and empty hands in the same seats; while it has not stood, every card is back in the shoe and every hand is empty; every card and stake is kept; the dealer's bust flag is never lowered, and is raised only by a dealt score over 21; a shoe large enough for one deal never raises |
| Engine.Game.DealStep | blackjack.py:207-220 | one pass of the loop of `deal` deals from the shoe, hands and dealer it starts from, stands exactly on a dealer not on 21, and otherwise leaves every card back in the shoe, every hand empty in its seat and the dealer's bust flag as it was |
| Engine.Game.ResetOn21 | blackjack.py:217-220 | a dealer on 21 has the round put back; any other deal stands unchanged; the dealer's score and bust flag are never touched |
| Engine.Game.ShuffleAndDeal | blackjack.py:337-340 | the opening of `begin_game` deals as `Deal` says, from a permutation of the shoe it was given |
| Engine.Game.Redeal | blackjack.py:217-228 | after a deal, `resetDeck` leaves every hand empty in its seat, the dealer empty and every card in the shoe, keeping every stake |
| Engine.Game.ResetDeck | blackjack.py:222-228 | every player and dealer card goes back into the shoe, which is then shuffled, and the hands are emptied |
| Engine.Game.ResetAll | blackjack.py:222-228 | `resetDeck` puts every card of the round into the shoe, empties every hand and the dealer, and keeps every stake |
| Engine.Game.ReturnHands | blackjack.py:223-225 | the players' cards are appended to the shoe in row order, and the hands are emptied |
| Engine.Game.ReturnHand | blackjack.py:224-225 | one hand's cards are appended to the shoe and the hand is emptied |
| Engine.Game.PlayHits | blackjack.py:282-294 | the hit loop on the objects does what `HitLoop` says |
| Engine.Game.PlayDouble | blackjack.py:297-301 | option 3 on the objects does what `DoubleDown` says |
| Engine.Game.InsertHand | blackjack.py:314-319 | the new hand goes into the list right after hand i |
| Engine.Game.PlaySplit | blackjack.py:307-319 | option 4 on the objects does what `SplitHand` says, with one fresh hand inserted after hand i |
| Engine.Game.ActionPrompt | blackjack.py:254-322 | `actionPrompt(i)` on the objects does what `Prompt` says |
| Engine.Game.ActionMenu | blackjack.py:265-322 | the menu and the chosen action on the objects do what `Prompt` says |
| Engine.Game.SplitAndPrompt | blackjack.py:307-322 | a split followed by a new prompt for hand i does what `Prompt` says for the split round |
| Engine.Game.PlayPlayers | blackjack.py:352-360 | `play_players` on the objects does what `PlayersFrom` says, playing each inserted hand right after the one it split from |
| Engine.Game.PromptNext | blackjack.py:355-360 | one step of the player loop moves on to the next hand |
| Engine.Game.PlayersTurns | blackjack.py:352-360 | the players' turns end as `PlayersFrom` says, and keep every card and the bankroll plus the stakes |
| Engine.Game.DealerDraws | blackjack.py:365-373 | the dealer's cards are revealed and it draws as `DealerTurn` says: to at least 17, or IndexError |
| Engine.Game.Settle | blackjack.py:379-387 | every hand is settled against the dealer, and the bankroll gains what the hands are paid |
| Engine.Game.SettleNext | blackjack.py:379-387 | one more hand settled extends the settled prefix and its payouts |
| Engine.Game.SettleHand | blackjack.py:380-387 | one hand is settled and its payout added to the bankroll |
| Engine.Game.PlayDealer | blackjack.py:362-387 | `play_dealer` reveals and ends with the dealer and the shoe `DealerTurn` gives, completing exactly when that turn does; a completed turn settles every hand against the dealer, adds exactly the payouts to the bankroll and keeps every card |
| Engine.Game.PlayRound | blackjack.py:343-347 | the players play as `PlayersFrom` says and an exception there ends the round; otherwise the dealer plays `DealerTurn` from the shoe they left, and a completed turn leaves every hand of their row settled against the dealer and the bankroll grown by exactly the payouts |
| Engine.Game.BeginGame | blackjack.py:330-350 | the shuffled shoe is dealt as `Deal` says, with the same count of tries and the dealer's bust flag raised only by a score over 21; a deal that stood is played as `PlayersFrom` from the dealt round, then `DealerTurn` from the shoe the players left, and settled, with every card kept and the money changed only by the payouts; no deal standing leaves the input unread; with a shoe large enough for one deal, a failure only ever comes after the deal |
| Legacy.UpdateScoreTallied | Blackjack.py:64-86 | the Ace tally in units of 11 gives the same score and flags as blackjack.py's per-Ace count |
| Legacy.SingleDeck | Blackjack.py:114-116 | `Deck()` is one rank-major deck of 52 cards, each valid card once |
| Legacy.NewSingleDeckGame | Blackjack.py:147-161 | Blackjack.py's `Game(...)` always has one deck and never raises; its row and money are those of blackjack.py |
| Legacy.DoubleAsWrittenWealth | Blackjack.py:260-263 | the as-written double keeps every card, but changes the money by the last bet typed minus the hand's stake, so it keeps the money only when the two are equal |
| Legacy.DoubleAsWrittenIntended | Blackjack.py:260-263 | with the hand's own stake in place of the last bet typed, it is blackjack.py's double down |
| Legacy.DoubleAsWrittenCounterexample | Blackjack.py:262 | bets of 50 then 100 out of 1000, doubling the first hand: 50 leaves the bankroll but the stake becomes 150, and the money grows to 1050 |
| Legacy.PlayDoubleAsWritten | Blackjack.py:260-264 | option 3 of Blackjack.py on the objects does what `DoubleAsWritten` says |

## Left out

- The console is not modelled: prompts, `gameState`, `Hand.__str__` with its hidden dealer card, `_print`, `_sleep` and `TEST_MODE`. Answers are a sequence of lines. Running out of them is `EOFError`, as Python's `input()` raises at the end of its input.
- The session loops are not modelled: the `__main__` buy-in and replay loop of blackjack.py, the import-time script of Blackjack.py, and screen clearing. They only build a `Game` and call `begin_game`.
- `random.shuffle` is modelled as an arbitrary permutation of the shoe. Which permutation it picks is not modelled.
- Engine.Game.Deal: the source redeals for as long as the dealer opens with 21, which depends on the shuffle. The model deals until one deal stands or `attempts` run out. `dealt` says whether one stood, and `BeginGame` plays a round only when one did.
- Engine.Game.BeginGame: after a put-back round, the dealer's hand of the deal that stood is stated by its cards, its score and its bust flag. Its blackjack flag, which the put-back 21 can leave raised, is not stated; settlement does not read the dealer's blackjack flag.
- Engine.Game.DealOnce: after an IndexError part-way through a deal, only the error is stated. The cards already moved are not, since the exception ends the game.
- Money is `real`, not a float. Float rounding and the `$.2f` display are not modelled.
- config.py's constants appear only as `Rules.DealerStandThreshold` (17, hard-coded in `play_dealer`) and `Rules.DefaultNumDecks` (6, the shoe of `Rules.DefaultShoeCounts`). Its timings and increments only concern the console.
- Hands.Hand.PopFromHand requires a card in the hand. Its one caller, a split, only runs on a two-card hand. `pop` on an empty list would raise IndexError.
- Blackjack.py repeats most of blackjack.py's text: `Card.__str__`, `Hand` apart from `updateScore`, `Deck.draw`, `returnToDeck`, `shuffleDeck`, `hit`, `deal`, `resetDeck`, split, the player loop, the dealer's turn and settlement. These are modelled once, by `Cards`, `Hands` and `Engine`, and the rows above cite blackjack.py. The Blackjack.py counterparts are `finishHand` (88-94), `deal` (170-185), `resetDeck` (187-193), split (270-285), and the player loop (303-309), dealer's turn (311-323) and settlement (325-334) of `begin_game`.
- Blackjack.py's `actionPrompt` reads the bankroll through the module-level `game` rather than `self` (Blackjack.py:234). In its script the two are the same object. The model reads the game's own bankroll.
- Blackjack.py's `begin_game` shares `BeginGame`'s model except for the double down. `Legacy.PlayDoubleAsWritten` models that step, and the rest of its round is not modelled again.

## Findings

| source | as written | input that shows it | evidently intended | confidence | as-written member | corrected member |
|---|---|---|---|---|---|---|
| Blackjack.py:262 | double down raises the stake by the module-level `bet`, the last bet typed at the betting prompt (Blackjack.py:363), while the bankroll pays only the hand's own stake | two hands betting 50 then 100 out of 1000, and the first hand doubles: the bankroll pays 50 but the stake becomes 150, so the player's money grows from 1000 to 1050 | raise the stake by the hand's own stake, as blackjack.py:300 does | high; not executed | Legacy.DoubleAsWrittenCounterexample | Turns.DoubleDownConserves |
