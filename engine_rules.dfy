/** The rules of a round in blackjack.py that do not depend on the game
    object: how the shoe is laid out, which actions a hand is offered, how
    console answers are read and what settlement pays. */
module Rules {
  import opened Cards
  import opened Scoring
  import opened Hands

  /** The dealer draws while below this score (hard-coded at
      blackjack.py:369, `DEALER_STAND_THRESHOLD` in config.py). */
  const DealerStandThreshold: int := 17

  /** `DEFAULT_NUM_DECKS` of config.py, the shoe size a Game uses. */
  const DefaultNumDecks: int := 6

  // ---------------------------------------------------------------------
  // blackjack.py builds each deck rank by rank:
  // `for n in numbers for s in range(4)`

  /** `Card(suit=s, number=n) for s in suits`. */
  function SuitRun(n: int, suits: seq<int>): seq<Card>
    decreases |suits|
  {
    if suits == [] then [] else [Card(suits[0], n)] + SuitRun(n, suits[1..])
  }

  /** `Card(suit=s, number=n) for n in numbers for s in suits`: the number
      varies slowest. */
  function DeckOver(numbers: seq<int>, suits: seq<int>): seq<Card>
    decreases |numbers|
  {
    if numbers == [] then [] else SuitRun(numbers[0], suits) + DeckOver(numbers[1..], suits)
  }

  /** One deck in the order blackjack.py and Blackjack.py build it, with
      `numbers = [i + 1 for i in range(13)]` and the suits `range(4)`. */
  function RankMajorDeck(): seq<Card> {
    DeckOver(Range(1, 14), Range(0, 4))
  }

  lemma {:induction false} SuitRunCount(n: int, suits: seq<int>, c: Card)
    ensures multiset(SuitRun(n, suits))[c] == if c.number == n then multiset(suits)[c.suit] else 0
    decreases |suits|
  {
    if suits != [] {
      SuitRunCount(n, suits[1..], c);
      assert suits == [suits[0]] + suits[1..];
    }
  }

  /** A card whose number is not listed does not occur; one whose number is
      listed once occurs as often as its suit is listed. */
  lemma {:induction false} DeckOverCount(numbers: seq<int>, suits: seq<int>, c: Card)
    ensures c.number !in numbers ==> multiset(DeckOver(numbers, suits))[c] == 0
    ensures multiset(numbers)[c.number] == 1 ==> multiset(DeckOver(numbers, suits))[c] == multiset(suits)[c.suit]
    decreases |numbers|
  {
    if numbers != [] {
      SuitRunCount(numbers[0], suits, c);
      DeckOverCount(numbers[1..], suits, c);
      assert numbers == [numbers[0]] + numbers[1..];
    }
  }

  lemma {:induction false} SuitRunShape(n: int, suits: seq<int>)
    ensures |SuitRun(n, suits)| == |suits|
    ensures forall j :: 0 <= j < |suits| ==> SuitRun(n, suits)[j] == Card(suits[j], n)
    decreases |suits|
  {
    if suits != [] {
      SuitRunShape(n, suits[1..]);
    }
  }

  /** With four suits, card `j` has number `numbers[j / 4]` and the
      `j % 4`-th suit. */
  lemma {:induction false} DeckOverShape(numbers: seq<int>, suits: seq<int>)
    requires |suits| == 4
    ensures |DeckOver(numbers, suits)| == 4 * |numbers|
    ensures forall j :: 0 <= j < 4 * |numbers| ==> DeckOver(numbers, suits)[j] == Card(suits[j % 4], numbers[j / 4])
    decreases |numbers|
  {
    if numbers != [] {
      var d := DeckOver(numbers, suits);
      SuitRunShape(numbers[0], suits);
      DeckOverShape(numbers[1..], suits);
      forall j | 0 <= j < 4 * |numbers|
        ensures d[j] == Card(suits[j % 4], numbers[j / 4])
      {
        if j >= 4 {
          assert d[j] == DeckOver(numbers[1..], suits)[j - 4];
          assert (j - 4) / 4 == j / 4 - 1 && (j - 4) % 4 == j % 4;
        }
      }
    }
  }

  /** A blackjack.py deck holds every valid card exactly once. */
  lemma RankMajorDeckCounts(c: Card)
    ensures multiset(RankMajorDeck())[c] == if ValidCard(c) then 1 else 0
  {
    DeckOverCount(Range(1, 14), Range(0, 4), c);
    RangeCount(1, 14, c.number);
    RangeCount(0, 4, c.suit);
  }

  /** A blackjack.py deck has 52 cards laid out rank by rank, the four
      suits inside each rank. */
  lemma RankMajorDeckOrder()
    ensures |RankMajorDeck()| == 52
    ensures forall i :: 0 <= i < 52 ==> RankMajorDeck()[i] == Card(i % 4, i / 4 + 1)
  {
    DeckOverShape(Range(1, 14), Range(0, 4));
  }

  /** The two layouts hold the same cards in different orders: the second
      card is the Ace of hearts in one and the two of spades in the other. */
  lemma DeckLayoutsDiffer(c: Card)
    ensures multiset(RankMajorDeck())[c] == multiset(SuitMajorDeck())[c]
    ensures RankMajorDeck()[1] == Card(1, 1) && SuitMajorDeck()[1] == Card(0, 2)
  {
    RankMajorDeckCounts(c);
    SuitMajorDeckCounts(c);
    RankMajorDeckOrder();
    SuitMajorDeckOrder();
    assert RankMajorDeck()[1] == Card(1 % 4, 1 / 4 + 1);
    assert SuitMajorDeck()[1] == Card(1 / 13, 1 % 13 + 1);
  }

  /** A fresh blackjack.py shoe of `n` decks holds 52 * n cards and each
      valid card exactly `n` times. */
  lemma RankMajorShoeCounts(n: nat, c: Card)
    ensures |Repeat(RankMajorDeck(), n)| == 52 * n
    ensures multiset(Repeat(RankMajorDeck(), n))[c] == if ValidCard(c) then n else 0
  {
    RankMajorDeckCounts(c);
    RankMajorDeckOrder();
    RepeatCounts(RankMajorDeck(), n, c);
  }

  /** A `Game` made without `num_decks` plays from config's six decks:
      312 cards, each card six times. */
  lemma DefaultShoeCounts(c: Card)
    ensures |Repeat(RankMajorDeck(), DefaultNumDecks)| == 312
    ensures multiset(Repeat(RankMajorDeck(), DefaultNumDecks))[c] == if ValidCard(c) then 6 else 0
  {
    RankMajorShoeCounts(DefaultNumDecks, c);
  }

  /** `Deck(num_decks)` of blackjack.py: ValueError below one deck,
      otherwise `numDecks` rank-major decks one after another. */
  method NewShoe(numDecks: int) returns (r: Result<Deck>)
    ensures numDecks < 1 <==> r.Failure?
    ensures r.Failure? ==> r.error == ValueError
    ensures r.Success? ==> fresh(r.value) && r.value.deck == Repeat(RankMajorDeck(), numDecks)
  {
    if numDecks < 1 {
      return Failure(ValueError);
    }
    var d := new Deck.Of(Repeat(RankMajorDeck(), numDecks));
    r := Success(d);
  }

  // ---------------------------------------------------------------------
  // Player actions

  datatype Action = Hit | Stay | Double | Split

  /** The menu `actionPrompt` builds: Hit and Stay always; Double for an
      unsplit two-card hand whose stake the bankroll still covers; Split
      on top of that when the two cards have the same number. */
  function OfferedActions(cards: seq<Card>, split: bool, totalMoney: real, bet: real): (r: seq<Action>)
    ensures 2 <= |r| <= 4 && r[0] == Hit && r[1] == Stay
    ensures Double in r <==> |cards| == 2 && !split && totalMoney >= bet
    ensures Split in r <==> |cards| == 2 && !split && totalMoney >= bet && cards[0].number == cards[1].number
    ensures |r| >= 3 ==> r[2] == Double
    ensures |r| == 4 ==> r[3] == Split
  {
    [Hit, Stay] +
    if |cards| == 2 && !split && totalMoney >= bet then
      [Double] + (if cards[0].number == cards[1].number then [Split] else [])
    else []
  }

  /** A King and a Queen are both worth 10 but are not a pair, and a hand
      left with one card after a split is only offered Hit and Stay. */
  lemma OfferedActionsExamples(totalMoney: real, bet: real, c: Card)
    requires totalMoney >= bet
    ensures Split !in OfferedActions([Card(0, 13), Card(1, 12)], false, totalMoney, bet)
    ensures Split in OfferedActions([Card(0, 8), Card(1, 8)], false, totalMoney, bet)
    ensures OfferedActions([c], true, totalMoney, bet) == [Hit, Stay]
  {
  }

  /** The answers `waitForInput` accepts for a menu of `n` entries:
      "1" .. "n". */
  function ResponseTokens(n: nat): (r: seq<string>)
    requires n <= 9
    ensures |r| == n
    ensures forall k :: 0 <= k < n ==> r[k] == [DigitChar(k + 1)]
  {
    seq(n, k requires 0 <= k < n => [DigitChar(k + 1)])
  }

  /** `waitForInput`: reads console lines until one is among `valid`,
      returning it and the unread lines; `input()` past the last line
      raises EOFError. */
  function WaitForInput(input: seq<string>, valid: seq<string>): (r: Result<(string, seq<string>)>)
    ensures r.Failure? ==> r.error == EOFError && forall k :: 0 <= k < |input| ==> input[k] !in valid
    ensures r.Success? ==>
      var (answer, rest) := r.value;
      |rest| < |input| && rest == input[|input| - |rest|..] &&
      answer == input[|input| - |rest| - 1] && answer in valid &&
      forall k :: 0 <= k < |input| - |rest| - 1 ==> input[k] !in valid
    decreases |input|
  {
    if input == [] then Failure(EOFError)
    else if input[0] in valid then Success((input[0], input[1..]))
    else WaitForInput(input[1..], valid)
  }

  // ---------------------------------------------------------------------
  // Bets and settlement

  /** The stake of hand `i` at the start of a round: its entry in
      `starting_bets` when there is one, the minimum buy otherwise. */
  function StakeOf(i: int, startingBets: seq<real>, minimumBuy: real): real {
    if 0 <= i < |startingBets| then startingBets[i] else minimumBuy
  }

  /** What settlement adds to the bankroll for one hand: the stake back on
      a push, stake plus even money on a win, stake plus 3:2 on a blackjack
      win, nothing on a loss. */
  function Payout(status: Status, bet: real, blackjack: bool): real {
    match status
    case Push => bet
    case Win => if blackjack then bet * 2.5 else bet * 2.0
    case _ => 0.0
  }

  /** Net of the stake taken when the bet was placed, a hand loses its bet,
      breaks even, wins its bet, or wins one and a half bets. */
  lemma PayoutNet(status: Status, bet: real, blackjack: bool)
    requires status != InPlay
    ensures var net := Payout(status, bet, blackjack) - bet;
      bet != 0.0 ==> (status == Lose <==> net == -bet)
    ensures var net := Payout(status, bet, blackjack) - bet;
      (status == Lose ==> net == -bet) &&
      (status == Push ==> net == 0.0) &&
      (status == Win && !blackjack ==> net == bet) &&
      (status == Win && blackjack ==> net == bet * 1.5)
  {
  }

  /** A bankroll of 1000 with a 50 stake that wins with a blackjack ends
      at 1075: 1000 - 50 + 125. */
  lemma BlackjackRoundExample()
    ensures 1000.0 - StakeOf(0, [50.0], 50.0) + Payout(Win, 50.0, true) == 1075.0
  {
  }

  // ---------------------------------------------------------------------
  // Totals over a row of hands

  /** A quantity summed over a row of hands. */
  function SumOf(row: seq<HandState>, f: HandState -> real): real
    decreases |row|
  {
    if row == [] then 0.0 else SumOf(row[..|row| - 1], f) + f(row[|row| - 1])
  }

  function StakeIn(s: HandState): real {
    s.bet
  }

  /** What settlement pays a hand in state `s`. */
  function PayoutIn(s: HandState): real {
    Payout(s.status, s.bet, s.blackjack)
  }

  lemma {:induction false} SumOfAppend(a: seq<HandState>, b: seq<HandState>, f: HandState -> real)
    ensures SumOf(a + b, f) == SumOf(a, f) + SumOf(b, f)
    decreases |b|
  {
    if b == [] {
      assert a + b == a;
    } else {
      SumOfAppend(a, b[..|b| - 1], f);
      assert (a + b)[..|a + b| - 1] == a + b[..|b| - 1];
    }
  }

  /** Replacing one hand changes the sum by the difference. */
  lemma SumOfUpdate(row: seq<HandState>, i: int, s: HandState, f: HandState -> real)
    requires 0 <= i < |row|
    ensures SumOf(row[i := s], f) == SumOf(row, f) - f(row[i]) + f(s)
  {
    assert row == row[..i] + [row[i]] + row[i + 1..];
    assert row[i := s] == row[..i] + [s] + row[i + 1..];
    SumOfAppend(row[..i] + [row[i]], row[i + 1..], f);
    SumOfAppend(row[..i] + [s], row[i + 1..], f);
    SumOfAppend(row[..i], [row[i]], f);
    SumOfAppend(row[..i], [s], f);
    assert [row[i]][..0] == [] && [s][..0] == [];
  }

  /** Inserting a hand adds its share to the sum. */
  lemma SumOfInsert(row: seq<HandState>, i: int, s: HandState, f: HandState -> real)
    requires 0 <= i <= |row|
    ensures SumOf(row[..i] + [s] + row[i..], f) == SumOf(row, f) + f(s)
  {
    assert row == row[..i] + row[i..];
    SumOfAppend(row[..i] + [s], row[i..], f);
    SumOfAppend(row[..i], [s], f);
    SumOfAppend(row[..i], row[i..], f);
    assert [s][..0] == [];
  }

  /** All cards held by a row of hands, as one multiset. */
  function RowCards(row: seq<HandState>): multiset<Card>
    decreases |row|
  {
    if row == [] then multiset{} else RowCards(row[..|row| - 1]) + multiset(row[|row| - 1].cards)
  }

  /** A non-empty list is its front followed by its last element. */
  lemma AppendSnoc<T>(a: seq<T>, b: seq<T>)
    requires b != []
    ensures b == b[..|b| - 1] + [b[|b| - 1]]
    ensures a + b == (a + b[..|b| - 1]) + [b[|b| - 1]]
  {
  }

  /** A list seen around position `i`, before and after replacing it. */
  lemma AroundAt<T>(s: seq<T>, i: int, x: T)
    requires 0 <= i < |s|
    ensures s == s[..i] + [s[i]] + s[i + 1..]
    ensures s[i := x] == s[..i] + [x] + s[i + 1..]
  {
  }

  /** One more hand at the end adds its cards. */
  lemma RowCardsSnoc(row: seq<HandState>, h: HandState)
    ensures RowCards(row + [h]) == RowCards(row) + multiset(h.cards)
  {
    assert (row + [h])[..|row|] == row;
  }

  /** The cards of two rows laid end to end are the cards of both. */
  lemma {:induction false} RowCardsAppend(a: seq<HandState>, b: seq<HandState>)
    ensures RowCards(a + b) == RowCards(a) + RowCards(b)
    decreases |b|
  {
    if b == [] {
      assert a + b == a;
    } else {
      var init, last := b[..|b| - 1], b[|b| - 1];
      AppendSnoc(a, b);
      RowCardsAppend(a, init);
      RowCardsSnoc(a + init, last);
      RowCardsSnoc(init, last);
    }
  }

  /** The cards of a row split around one hand. */
  lemma RowCardsAround(pre: seq<HandState>, h: HandState, post: seq<HandState>)
    ensures RowCards(pre + [h] + post) == RowCards(pre) + multiset(h.cards) + RowCards(post)
  {
    RowCardsAppend(pre + [h], post);
    RowCardsSnoc(pre, h);
  }

  /** Giving hand `i` one more card adds that card to the row's cards. */
  lemma RowCardsGrow(row: seq<HandState>, i: int, s: HandState, c: Card)
    requires 0 <= i < |row| && s.cards == row[i].cards + [c]
    ensures RowCards(row[i := s]) == RowCards(row) + multiset{c}
  {
    AroundAt(row, i, s);
    RowCardsAround(row[..i], row[i], row[i + 1..]);
    RowCardsAround(row[..i], s, row[i + 1..]);
  }

  /** Changing hand `i` without touching its cards keeps the row's cards. */
  lemma RowCardsReplace(row: seq<HandState>, i: int, s: HandState)
    requires 0 <= i < |row| && s.cards == row[i].cards
    ensures RowCards(row[i := s]) == RowCards(row)
  {
    AroundAt(row, i, s);
    RowCardsAround(row[..i], row[i], row[i + 1..]);
    RowCardsAround(row[..i], s, row[i + 1..]);
  }

  /** Moving the last card of hand `i` into a new hand placed right after
      it keeps the row's cards. */
  lemma RowCardsSplit(row: seq<HandState>, i: int, s: HandState, t: HandState)
    requires 0 <= i < |row| && row[i].cards == s.cards + t.cards
    ensures RowCards(row[..i] + [s] + [t] + row[i + 1..]) == RowCards(row)
  {
    AroundAt(row, i, s);
    RowCardsAround(row[..i], row[i], row[i + 1..]);
    RowCardsAround(row[..i] + [s], t, row[i + 1..]);
    RowCardsSnoc(row[..i], s);
  }

  /** A row of empty hands holds no cards. */
  lemma {:induction false} RowCardsEmpty(row: seq<HandState>)
    requires forall j :: 0 <= j < |row| ==> row[j].cards == []
    ensures RowCards(row) == multiset{}
    decreases |row|
  {
    if row != [] {
      RowCardsEmpty(row[..|row| - 1]);
    }
  }

  /** The list rebuilt by the split branch of `actionPrompt`: every element
      copied in order, with `x` placed right after position `at` (nowhere
      when `at` is not a position of `s`). */
  method InsertAfter<T>(s: seq<T>, at: int, x: T) returns (r: seq<T>)
    ensures 0 <= at < |s| ==> r == s[..at + 1] + [x] + s[at + 1..]
    ensures !(0 <= at < |s|) ==> r == s
  {
    r := [];
    var k := 0;
    while k < |s|
      invariant 0 <= k <= |s|
      invariant r == if 0 <= at < k then s[..at + 1] + [x] + s[at + 1..k] else s[..k]
    {
      r := r + [s[k]];
      if k == at {
        r := r + [x];
      }
      k := k + 1;
    }
    assert s[..k] == s;
  }
}
