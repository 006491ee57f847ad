/** The state of a round of blackjack.py as plain values (the shoe, the
    dealer's cards and the row of player hands), the state change each step
    of `Game` makes, and what each change keeps: no card is created or
    lost, and the bankroll plus the stakes on the table stays put. */
module Table {
  import opened Cards
  import opened Scoring
  import opened Hands
  import opened Rules

  /** Every card of the round: the shoe, the dealer's and the players'. */
  function PoolOf(shoe: seq<Card>, dealerCards: seq<Card>, row: seq<HandState>): multiset<Card> {
    multiset(shoe) + multiset(dealerCards) + RowCards(row)
  }

  /** The bankroll together with the money staked on the table. */
  function StakedOf(money: real, row: seq<HandState>): real {
    money + SumOf(row, StakeIn)
  }

  // ---------------------------------------------------------------------
  // Starting a round

  /** The row `Game.__init__` builds: `n` empty hands in play, hand `j`
      staked with its starting bet or the minimum buy. */
  function FreshRow(n: int, startingBets: seq<real>, minimumBuy: real): (row: seq<HandState>)
    ensures |row| == if n < 0 then 0 else n
  {
    seq(if n < 0 then 0 else n, j requires 0 <= j =>
      HandState([], 0, false, false, StakeOf(j, startingBets, minimumBuy), InPlay, false))
  }

  /** One more hand at the table adds its stake to the total. */
  lemma FreshRowStakes(n: nat, startingBets: seq<real>, minimumBuy: real)
    ensures SumOf(FreshRow(n + 1, startingBets, minimumBuy), StakeIn) ==
      SumOf(FreshRow(n, startingBets, minimumBuy), StakeIn) + StakeOf(n, startingBets, minimumBuy)
  {
    assert FreshRow(n + 1, startingBets, minimumBuy)[..n] == FreshRow(n, startingBets, minimumBuy);
  }

  /** Without starting bets every hand stakes the minimum buy, so the new
      game's bankroll is `n` minimum buys short of the money brought. */
  lemma {:induction false} FreshRowDefaultStakes(n: nat, minimumBuy: real)
    ensures SumOf(FreshRow(n, [], minimumBuy), StakeIn) == n as real * minimumBuy
  {
    if n > 0 {
      FreshRowDefaultStakes(n - 1, minimumBuy);
      FreshRowStakes(n - 1, [], minimumBuy);
    }
  }

  // ---------------------------------------------------------------------
  // Drawing

  /** Hand `s` after taking card `c` and being rescored. */
  function Drawn(s: HandState, c: Card): HandState {
    Rescored(s, s.cards + [c])
  }

  /** Drawing adds the card to the hand and keeps its stake. */
  lemma DrawnTakes(s: HandState, c: Card)
    ensures Drawn(s, c).cards == s.cards + [c] && Drawn(s, c).bet == s.bet
  {
  }

  /** Hand `p` becoming `s`, which holds one more card, the top of the
      shoe, moves that card and changes the stakes by what `s` adds. */
  lemma GrowConserves(shoe: seq<Card>, dealerCards: seq<Card>, row: seq<HandState>, p: int, s: HandState, money: real)
    requires |shoe| > 0 && 0 <= p < |row|
    requires s.cards == row[p].cards + [shoe[|shoe| - 1]]
    ensures PoolOf(shoe[..|shoe| - 1], dealerCards, row[p := s]) == PoolOf(shoe, dealerCards, row)
    ensures StakedOf(money, row[p := s]) == StakedOf(money, row) - row[p].bet + s.bet
  {
    var n := |shoe|;
    assert shoe == shoe[..n - 1] + [shoe[n - 1]];
    RowCardsGrow(row, p, s, shoe[n - 1]);
    SumOfUpdate(row, p, s, StakeIn);
  }

  /** Taking the top card of the shoe, for the dealer or for hand `p`,
      moves one card and leaves every stake alone. */
  lemma HitConserves(shoe: seq<Card>, dealerCards: seq<Card>, row: seq<HandState>, p: int, money: real)
    requires |shoe| > 0 && 0 <= p < |row|
    ensures var n := |shoe|;
      PoolOf(shoe[..n - 1], dealerCards + [shoe[n - 1]], row) == PoolOf(shoe, dealerCards, row) &&
      PoolOf(shoe[..n - 1], dealerCards, row[p := Drawn(row[p], shoe[n - 1])]) == PoolOf(shoe, dealerCards, row) &&
      StakedOf(money, row[p := Drawn(row[p], shoe[n - 1])]) == StakedOf(money, row)
  {
    var n := |shoe|;
    assert shoe == shoe[..n - 1] + [shoe[n - 1]];
    var s := Drawn(row[p], shoe[n - 1]);
    assert s.cards == row[p].cards + [shoe[n - 1]] && s.bet == row[p].bet;
    GrowConserves(shoe, dealerCards, row, p, s, money);
  }

  /** `row` after the first `k` hands, in row order, each took the top
      card of what is left of `shoe`. */
  function DealtRow(row: seq<HandState>, shoe: seq<Card>, k: int): (r: seq<HandState>)
    requires 0 <= k <= |row| && k <= |shoe|
    ensures |r| == |row|
    decreases k
  {
    seq(|row|, j requires 0 <= j < |row| =>
      if j < k then Drawn(row[j], shoe[|shoe| - 1 - j]) else row[j])
  }

  /** Dealing to hand `k` rescores it with the next card added. */
  lemma DealtRowNext(row: seq<HandState>, shoe: seq<Card>, k: int)
    requires 0 <= k < |row| && k < |shoe|
    ensures var prev := DealtRow(row, shoe, k);
      DealtRow(row, shoe, k + 1) == prev[k := Rescored(prev[k], prev[k].cards + [shoe[|shoe| - 1 - k]])]
  {
    var prev := DealtRow(row, shoe, k);
    assert prev[k] == row[k];
  }

  /** A dealing pass moves the top `k` cards of the shoe onto the first `k`
      hands, one each, and leaves every stake alone. */
  lemma {:induction false} DealtRowConserves(row: seq<HandState>, shoe: seq<Card>, dealerCards: seq<Card>, k: int, money: real)
    requires 0 <= k <= |row| && k <= |shoe|
    ensures PoolOf(shoe[..|shoe| - k], dealerCards, DealtRow(row, shoe, k)) == PoolOf(shoe, dealerCards, row)
    ensures StakedOf(money, DealtRow(row, shoe, k)) == StakedOf(money, row)
    decreases k
  {
    var n := |shoe|;
    if k == 0 {
      assert shoe[..n] == shoe;
      assert DealtRow(row, shoe, 0) == row;
    } else {
      DealtRowConserves(row, shoe, dealerCards, k - 1, money);
      var prev, rest := DealtRow(row, shoe, k - 1), shoe[..n - k + 1];
      var s := Drawn(prev[k - 1], shoe[n - k]);
      TakeLast(shoe, n - k + 1);
      DrawnTakes(prev[k - 1], shoe[n - k]);
      GrowConserves(rest, dealerCards, prev, k - 1, s, money);
      DealtRowNext(row, shoe, k - 1);
      assert DealtRow(row, shoe, k) == prev[k - 1 := s];
      assert rest[..|rest| - 1] == shoe[..n - k];
    }
  }

  /** The dealer drawing the cards `top` off the top of the shoe at once:
      they come off one by one, so they join the hand in the reverse of
      their shoe order. */
  lemma DealerDrawConserves(shoe: seq<Card>, rest: seq<Card>, top: seq<Card>, dealerCards: seq<Card>, row: seq<HandState>)
    requires shoe == rest + top
    ensures PoolOf(rest, dealerCards + Reversed(top), row) == PoolOf(shoe, dealerCards, row)
  {
    ReversedMultiset(top);
  }

  /** One attempt of `deal` keeps every card and every stake: two passes
      over a row of `m` hands take the top `2 * m` cards of the shoe, and
      the dealer takes the next two, the top one first. */
  lemma DealConserves(shoe: seq<Card>, dealerCards: seq<Card>, row: seq<HandState>, money: real,
                      shoe': seq<Card>, dealerCards': seq<Card>, row': seq<HandState>)
    requires 2 * |row| + 2 <= |shoe|
    requires var n, m := |shoe|, |row|;
      shoe' == shoe[..n - 2 * m - 2] &&
      dealerCards' == dealerCards + [shoe[n - 2 * m - 1], shoe[n - 2 * m - 2]] &&
      row' == DealtRow(DealtRow(row, shoe, m), shoe[..n - m], m)
    ensures PoolOf(shoe', dealerCards', row') == PoolOf(shoe, dealerCards, row)
    ensures StakedOf(money, row') == StakedOf(money, row)
  {
    DealtTwiceConserves(shoe, dealerCards, row, money);
    DealKeepsCards(shoe, dealerCards, row, row');
  }

  /** The dealer's two cards of `deal` come off the shoe left by the two
      passes. */
  lemma DealKeepsCards(shoe: seq<Card>, dealerCards: seq<Card>, row: seq<HandState>, row': seq<HandState>)
    requires 2 * |row| + 2 <= |shoe|
    requires var n, m := |shoe|, |row|;
      PoolOf(shoe[..n - 2 * m], dealerCards, row') == PoolOf(shoe, dealerCards, row)
    ensures var n, m := |shoe|, |row|;
      PoolOf(shoe[..n - 2 * m - 2], dealerCards + [shoe[n - 2 * m - 1], shoe[n - 2 * m - 2]], row') ==
        PoolOf(shoe, dealerCards, row)
  {
    var n, m := |shoe|, |row|;
    var mid := shoe[..n - 2 * m];
    assert mid == shoe[..n - 2 * m - 2] + [shoe[n - 2 * m - 2], shoe[n - 2 * m - 1]];
    DealerTakesTwoConserves(mid, shoe[..n - 2 * m - 2], shoe[n - 2 * m - 1], shoe[n - 2 * m - 2], dealerCards, row');
  }

  /** The dealer's two cards of `deal` move from the top of the shoe to
      the dealer's hand. */
  lemma DealerTakesTwoConserves(shoe: seq<Card>, rest: seq<Card>, top: Card, next: Card,
                                dealerCards: seq<Card>, row: seq<HandState>)
    requires shoe == rest + [next, top]
    ensures PoolOf(rest, dealerCards + [top, next], row) == PoolOf(shoe, dealerCards, row)
  {
    assert multiset(dealerCards + [top, next]) == multiset(dealerCards) + multiset{top, next};
  }

  /** The two passes over the row of `deal` keep every card and every
      stake: a row of `m` hands takes the top `2 * m` cards of the shoe. */
  lemma DealtTwiceConserves(shoe: seq<Card>, dealerCards: seq<Card>, row: seq<HandState>, money: real)
    requires 2 * |row| <= |shoe|
    ensures var n, m := |shoe|, |row|;
      var twice := DealtRow(DealtRow(row, shoe, m), shoe[..n - m], m);
      PoolOf(shoe[..n - 2 * m], dealerCards, twice) == PoolOf(shoe, dealerCards, row) &&
      StakedOf(money, twice) == StakedOf(money, row)
  {
    var n, m := |shoe|, |row|;
    var once, shoe1, shoe2 := DealtRow(row, shoe, m), shoe[..n - m], shoe[..n - 2 * m];
    PrefixSlices(shoe, n - m, n - 2 * m, n - 2 * m);
    DealtPassConserves(row, shoe, shoe1, dealerCards, money);
    DealtPassConserves(once, shoe1, shoe2, dealerCards, money);
  }

  /** A whole dealing pass, with `rest` the shoe it leaves. */
  lemma DealtPassConserves(row: seq<HandState>, shoe: seq<Card>, rest: seq<Card>, dealerCards: seq<Card>, money: real)
    requires |row| <= |shoe| && rest == shoe[..|shoe| - |row|]
    ensures PoolOf(rest, dealerCards, DealtRow(row, shoe, |row|)) == PoolOf(shoe, dealerCards, row)
    ensures StakedOf(money, DealtRow(row, shoe, |row|)) == StakedOf(money, row)
  {
    DealtRowConserves(row, shoe, dealerCards, |row|, money);
  }

  // ---------------------------------------------------------------------
  // Returning the cards

  /** The cards of a row, hand after hand: the order `resetDeck` puts them
      back on the shoe. */
  function Gathered(row: seq<HandState>): seq<Card>
    decreases |row|
  {
    if row == [] then [] else Gathered(row[..|row| - 1]) + row[|row| - 1].cards
  }

  lemma {:induction false} GatheredCards(row: seq<HandState>)
    ensures multiset(Gathered(row)) == RowCards(row)
    decreases |row|
  {
    if row != [] {
      GatheredCards(row[..|row| - 1]);
    }
  }

  /** Every hand emptied; score, flags, stake and status stay as they were. */
  function ClearedRow(row: seq<HandState>): (r: seq<HandState>)
    ensures |r| == |row|
    ensures forall j :: 0 <= j < |r| ==> r[j].cards == []
  {
    seq(|row|, j requires 0 <= j < |row| => row[j].(cards := []))
  }

  /** `row` once its first `k` hands are emptied. */
  function ClearedFirst(row: seq<HandState>, k: int): (r: seq<HandState>)
    requires 0 <= k <= |row|
    ensures |r| == |row|
  {
    seq(|row|, j requires 0 <= j < |row| => if j < k then row[j].(cards := []) else row[j])
  }

  /** Emptying hand `k` next; with every hand emptied the row is cleared,
      and the cards gathered so far are those of the first `k` hands. */
  lemma ClearedFirstNext(row: seq<HandState>, k: int)
    requires 0 <= k < |row|
    ensures ClearedFirst(row, k + 1) == ClearedFirst(row, k)[k := row[k].(cards := [])]
    ensures Gathered(row[..k + 1]) == Gathered(row[..k]) + row[k].cards
  {
    assert row[..k + 1][..k] == row[..k];
  }

  lemma ClearedFirstAll(row: seq<HandState>)
    ensures ClearedFirst(row, |row|) == ClearedRow(row) && Gathered(row[..|row|]) == Gathered(row)
  {
    assert row[..|row|] == row;
  }

  /** `resetDeck` puts every card back: a shoe holding the old shoe, the
      gathered hands and the dealer's cards, in any order, leaves the round
      with the same cards and the same stakes. */
  lemma ResetConserves(shoe: seq<Card>, dealerCards: seq<Card>, row: seq<HandState>, money: real,
                       shoe': seq<Card>, dealerCards': seq<Card>, row': seq<HandState>)
    requires multiset(shoe') == multiset(shoe + Gathered(row) + dealerCards)
    requires dealerCards' == [] && row' == ClearedRow(row)
    ensures PoolOf(shoe', dealerCards', row') == PoolOf(shoe, dealerCards, row)
    ensures StakedOf(money, row') == StakedOf(money, row)
  {
    GatheredCards(row);
    RowCardsEmpty(ClearedRow(row));
    ClearedStakes(row);
  }

  /** After `resetDeck` the shoe holds every card of the round. */
  lemma ClearedPoolSize(shoe: seq<Card>, row: seq<HandState>)
    ensures |PoolOf(shoe, [], ClearedRow(row))| == |shoe|
  {
    RowCardsEmpty(ClearedRow(row));
  }

  /** The shoe is part of the round's cards. */
  lemma PoolCoversShoe(shoe: seq<Card>, dealerCards: seq<Card>, row: seq<HandState>)
    ensures |PoolOf(shoe, dealerCards, row)| >= |shoe|
  {
  }

  lemma {:induction false} ClearedStakes(row: seq<HandState>)
    ensures SumOf(ClearedRow(row), StakeIn) == SumOf(row, StakeIn)
    decreases |row|
  {
    if row != [] {
      ClearedStakes(row[..|row| - 1]);
      assert ClearedRow(row)[..|row| - 1] == ClearedRow(row[..|row| - 1]);
    }
  }

  /** A reset followed by the two passes of the next deal: hand `j`, which
      `resetDeck` emptied, holds the `j`-th card from the top of the shoe
      and the one `m` further down, keeps its stake, and keeps the bust and
      blackjack flags it had before the reset, whatever it is dealt. */
  lemma RedealtHand(row: seq<HandState>, shoe: seq<Card>, j: int)
    requires 2 * |row| <= |shoe| && 0 <= j < |row|
    ensures var n, m := |shoe|, |row|;
      var again := DealtRow(DealtRow(ClearedRow(row), shoe, m), shoe[..n - m], m);
      again[j].cards == [shoe[n - 1 - j], shoe[n - m - 1 - j]] && again[j].bet == row[j].bet &&
      (row[j].blackjack ==> again[j].blackjack) && (row[j].bust ==> again[j].bust)
  {
    var n, m := |shoe|, |row|;
    var once := DealtRow(ClearedRow(row), shoe, m);
    assert once[j] == Drawn(row[j].(cards := []), shoe[n - 1 - j]);
    assert shoe[..n - m][n - m - 1 - j] == shoe[n - m - 1 - j];
  }

  /** `row'` holds the same seats as `row`: each hand keeps its stake, its
      status and its split mark, whatever its cards, score and flags. */
  predicate SameSeats(row': seq<HandState>, row: seq<HandState>) {
    |row'| == |row| &&
    forall j :: 0 <= j < |row| ==>
      row'[j].bet == row[j].bet && row'[j].status == row[j].status && row'[j].split == row[j].split
  }

  /** What `deal` leaves when it gives up on a dealt round: the seats of
      `row`, every hand empty. */
  predicate Emptied(row': seq<HandState>, row: seq<HandState>) {
    SameSeats(row', row) && forall j :: 0 <= j < |row'| ==> row'[j].cards == []
  }

  /** Two dealing passes and then `resetDeck` empty every hand and keep
      every seat. */
  lemma RedealKeepsSeats(row: seq<HandState>, shoe: seq<Card>)
    requires 2 * |row| <= |shoe|
    ensures var n, m := |shoe|, |row|;
      Emptied(ClearedRow(DealtRow(DealtRow(row, shoe, m), shoe[..n - m], m)), row)
  {
  }

  /** Emptying again keeps the seats of the first row. */
  lemma EmptiedAgain(row'': seq<HandState>, row': seq<HandState>, row: seq<HandState>)
    requires Emptied(row'', row') && (row' == row || Emptied(row', row))
    ensures Emptied(row'', row)
  {
  }

  // ---------------------------------------------------------------------
  // Splitting

  /** The hand `Hand([card], bet)` creates for the split-off card, marked
      as split. */
  function SplitOff(c: Card, bet: real): HandState {
    HandState([c], Score([c]), Score([c]) > 21, false, bet, InPlay, true)
  }

  /** The hand that split, after `popFromHand` took its last card and it
      was marked split. */
  function SplitKept(s: HandState): HandState
    requires |s.cards| > 0
  {
    Rescored(s, s.cards[..|s.cards| - 1]).(split := true)
  }

  /** The split branch of `actionPrompt`: hand `i` gives up its last card
      (and is rescored) and a new hand holding that card, with the same
      stake, is placed right after it; both are marked split. */
  function SplitRow(row: seq<HandState>, i: int): (r: seq<HandState>)
    requires 0 <= i < |row| && |row[i].cards| > 0
    ensures |r| == |row| + 1
  {
    var cs := row[i].cards;
    row[..i] + [SplitKept(row[i])] + [SplitOff(cs[|cs| - 1], row[i].bet)] + row[i + 1..]
  }

  /** The split row is the row with hand `i` replaced by what it keeps and
      the new hand inserted right after it. */
  lemma SplitRowAsInsert(row: seq<HandState>, i: int)
    requires 0 <= i < |row| && |row[i].cards| > 0
    ensures var kept := row[i := SplitKept(row[i])];
      var cs := row[i].cards;
      SplitRow(row, i) == kept[..i + 1] + [SplitOff(cs[|cs| - 1], row[i].bet)] + kept[i + 1..]
  {
    var kept := row[i := SplitKept(row[i])];
    assert kept[..i + 1] == row[..i] + [SplitKept(row[i])];
    assert kept[i + 1..] == row[i + 1..];
  }

  /** Splitting keeps every card and takes the new hand's stake out of the
      bankroll. */
  lemma SplitConserves(shoe: seq<Card>, dealerCards: seq<Card>, row: seq<HandState>, i: int, money: real)
    requires 0 <= i < |row| && |row[i].cards| > 0
    ensures PoolOf(shoe, dealerCards, SplitRow(row, i)) == PoolOf(shoe, dealerCards, row)
    ensures StakedOf(money - row[i].bet, SplitRow(row, i)) == StakedOf(money, row)
  {
    var cs := row[i].cards;
    var first := SplitKept(row[i]);
    var second := SplitOff(cs[|cs| - 1], row[i].bet);
    assert cs == first.cards + second.cards;
    RowCardsSplit(row, i, first, second);
    SumOfUpdate(row, i, first, StakeIn);
    var row1 := row[i := first];
    SumOfInsert(row1, i + 1, second, StakeIn);
    SplitRowAsInsert(row, i);
  }

  /** A split never happens twice to the same hand: both halves come out
      marked, and no other hand changes. */
  lemma SplitMarks(row: seq<HandState>, i: int)
    requires 0 <= i < |row| && |row[i].cards| > 0
    ensures SplitRow(row, i)[i].split && SplitRow(row, i)[i + 1].split
    ensures SplitRow(row, i)[..i] == row[..i] && SplitRow(row, i)[i + 2..] == row[i + 1..]
    ensures |SplitRow(row, i)[i].cards| + 1 == |row[i].cards| && |SplitRow(row, i)[i + 1].cards| == 1
  {
    var r := SplitRow(row, i);
    assert r[i + 2..] == row[i + 1..];
  }

  // ---------------------------------------------------------------------
  // The dealer's turn and settlement

  /** The dealer's turn from hand `d` and shoe `shoe`: draw from the top
      while the score is below the stand threshold; an empty shoe raises
      IndexError. Returns the final hand, the rest of the shoe and whether
      the turn completed. */
  function DealerTurn(d: HandState, shoe: seq<Card>): (r: (HandState, seq<Card>, bool))
    decreases |shoe|
  {
    if d.score >= DealerStandThreshold then (d, shoe, true)
    else if shoe == [] then (d, shoe, false)
    else DealerTurn(Drawn(d, shoe[|shoe| - 1]), shoe[..|shoe| - 1])
  }

  /** What the dealer's turn leaves in the shoe is the part below the
      cards it drew. */
  lemma {:induction false} DealerTurnRest(d: HandState, shoe: seq<Card>)
    ensures var r := DealerTurn(d, shoe);
      |r.1| <= |shoe| && r.1 == shoe[..|r.1|]
    decreases |shoe|
  {
    if d.score < DealerStandThreshold && shoe != [] {
      var below := shoe[..|shoe| - 1];
      DealerTurnRest(Drawn(d, shoe[|shoe| - 1]), below);
      var k := |DealerTurn(d, shoe).1|;
      assert below[..k] == shoe[..k];
    } else {
      assert shoe[..|shoe|] == shoe;
    }
  }

  /** The dealer's turn takes its cards from the top of the shoe, one by
      one, and adds them to the hand in the order drawn. */
  lemma {:induction false} DealerTurnDraws(d: HandState, shoe: seq<Card>)
    ensures var r := DealerTurn(d, shoe);
      |r.1| <= |shoe| && r.1 == shoe[..|r.1|] && r.0.cards == d.cards + Reversed(shoe[|r.1|..])
    decreases |shoe|
  {
    DealerTurnRest(d, shoe);
    var r := DealerTurn(d, shoe);
    if d.score < DealerStandThreshold && shoe != [] {
      var n := |shoe|;
      var top, below := shoe[n - 1], shoe[..n - 1];
      var d1 := Drawn(d, top);
      DealerTurnDraws(d1, below);
      assert r == DealerTurn(d1, below);
      DrawnTopStep(d.cards, shoe, |r.1|, r.0.cards);
    } else {
      assert shoe[|shoe|..] == [];
    }
  }

  /** One more card off the top, added after the cards already drawn. */
  lemma DrawnTopStep(cards: seq<Card>, shoe: seq<Card>, k: nat, drawn: seq<Card>)
    requires k < |shoe|
    requires drawn == cards + [shoe[|shoe| - 1]] + Reversed(shoe[..|shoe| - 1][k..])
    ensures drawn == cards + Reversed(shoe[k..])
  {
    var n := |shoe|;
    assert shoe[..n - 1][k..] == shoe[k..n - 1];
    assert shoe[k..] == shoe[k..n - 1] + [shoe[n - 1]];
    ReversedSnoc(shoe[k..n - 1], shoe[n - 1]);
  }

  /** A completed dealer turn ends at 17 or more; one cut short by an empty
      shoe ends below 17; a hand that already had 17 takes no card. */
  lemma {:induction false} DealerTurnStands(d: HandState, shoe: seq<Card>)
    requires d.score == Score(d.cards)
    ensures var r := DealerTurn(d, shoe);
      r.0.score == Score(r.0.cards) &&
      (r.2 ==> r.0.score >= DealerStandThreshold) &&
      (!r.2 ==> r.1 == [] && r.0.score < DealerStandThreshold) &&
      (d.score >= DealerStandThreshold ==> r == (d, shoe, true))
    decreases |shoe|
  {
    if d.score < DealerStandThreshold && shoe != [] {
      DealerTurnStands(Drawn(d, shoe[|shoe| - 1]), shoe[..|shoe| - 1]);
    }
  }

  /** The dealer's turn keeps every card of the round. */
  lemma DealerTurnConserves(d: HandState, shoe: seq<Card>, row: seq<HandState>)
    ensures var r := DealerTurn(d, shoe);
      PoolOf(r.1, r.0.cards, row) == PoolOf(shoe, d.cards, row)
  {
    DealerTurnDraws(d, shoe);
    var r := DealerTurn(d, shoe);
    assert shoe == r.1 + shoe[|r.1|..];
    DealerDrawConserves(shoe, r.1, shoe[|r.1|..], d.cards, row);
  }

  /** A dealer on 10 and 6 with a 3 under a 2 in the shoe draws the 2,
      stands on 18 and leaves the 3. */
  lemma DealerTurnExample()
    ensures var d := HandState([Card(0, 10), Card(0, 6)], 16, false, false, 0.0, InPlay, false);
      var r := DealerTurn(d, [Card(0, 3), Card(0, 2)]);
      r.0.cards == [Card(0, 10), Card(0, 6), Card(0, 2)] && r.0.score == 18 && !r.0.bust &&
      r.1 == [Card(0, 3)] && r.2
  {
    var d := HandState([Card(0, 10), Card(0, 6)], 16, false, false, 0.0, InPlay, false);
    var ten, tenSix, cards := [Card(0, 10)], [Card(0, 10), Card(0, 6)], [Card(0, 10), Card(0, 6), Card(0, 2)];
    HardTotalSnoc([], Card(0, 10));
    assert [] + [Card(0, 10)] == ten;
    HardTotalSnoc(ten, Card(0, 6));
    assert ten + [Card(0, 6)] == tenSix;
    HardTotalSnoc(tenSix, Card(0, 2));
    assert tenSix + [Card(0, 2)] == cards;
    assert Score(cards) == 18;
    var shoe := [Card(0, 3), Card(0, 2)];
    assert shoe[..1] == [Card(0, 3)];
    assert DealerTurn(d, shoe) == DealerTurn(Drawn(d, Card(0, 2)), [Card(0, 3)]);
  }

  /** Every hand settled against the dealer's bust flag and score. */
  function SettledRow(row: seq<HandState>, dealerBust: bool, dealerScore: int): (r: seq<HandState>)
    ensures |r| == |row|
  {
    seq(|row|, j requires 0 <= j < |row| =>
      row[j].(status := Outcome(row[j].bust, row[j].score, dealerBust, dealerScore)))
  }

  /** `row` once its first `k` hands are settled. */
  function SettledFirst(row: seq<HandState>, dealerBust: bool, dealerScore: int, k: int): (r: seq<HandState>)
    requires 0 <= k <= |row|
    ensures |r| == |row|
  {
    seq(|row|, j requires 0 <= j < |row| =>
      if j < k then row[j].(status := Outcome(row[j].bust, row[j].score, dealerBust, dealerScore)) else row[j])
  }

  /** Settling hand `k` next writes its status and nothing else; with every
      hand settled the row is the settled row. */
  lemma SettledFirstNext(row: seq<HandState>, dealerBust: bool, dealerScore: int, k: int)
    requires 0 <= k < |row|
    ensures var prev := SettledFirst(row, dealerBust, dealerScore, k);
      SettledFirst(row, dealerBust, dealerScore, k + 1) ==
        prev[k := prev[k].(status := Outcome(prev[k].bust, prev[k].score, dealerBust, dealerScore))]
  {
    var prev := SettledFirst(row, dealerBust, dealerScore, k);
    assert prev[k] == row[k];
  }

  lemma SettledFirstAll(row: seq<HandState>, dealerBust: bool, dealerScore: int)
    ensures SettledFirst(row, dealerBust, dealerScore, |row|) == SettledRow(row, dealerBust, dealerScore)
  {
  }

  /** After settlement no hand is still in play, a busted hand has lost
      whatever the dealer holds, and nothing but the status has changed. */
  lemma SettledRowOutcomes(row: seq<HandState>, dealerBust: bool, dealerScore: int, j: int)
    requires 0 <= j < |row|
    ensures var s := SettledRow(row, dealerBust, dealerScore)[j];
      s.status != InPlay && (row[j].bust ==> s.status == Lose) && s.(status := row[j].status) == row[j]
  {
  }

  /** Settlement never takes money and never pays more than two and a half
      times the stakes: a blackjack win is the most a hand can collect. */
  lemma {:induction false} PayoutBounds(row: seq<HandState>)
    requires forall j :: 0 <= j < |row| ==> row[j].bet >= 0.0
    ensures 0.0 <= SumOf(row, PayoutIn) <= 2.5 * SumOf(row, StakeIn)
    decreases |row|
  {
    if row != [] {
      PayoutBounds(row[..|row| - 1]);
    }
  }

  /** Two rows whose hands hold the same cards, one for one, hold the same
      cards. */
  lemma {:induction false} RowCardsPointwise(a: seq<HandState>, b: seq<HandState>)
    requires |a| == |b| && forall j :: 0 <= j < |a| ==> a[j].cards == b[j].cards
    ensures RowCards(a) == RowCards(b)
    decreases |a|
  {
    if a != [] {
      RowCardsPointwise(a[..|a| - 1], b[..|b| - 1]);
    }
  }

  /** Two rows whose hands carry the same stakes, one for one, stake the
      same. */
  lemma {:induction false} StakesPointwise(a: seq<HandState>, b: seq<HandState>)
    requires |a| == |b| && forall j :: 0 <= j < |a| ==> a[j].bet == b[j].bet
    ensures SumOf(a, StakeIn) == SumOf(b, StakeIn)
    decreases |a|
  {
    if a != [] {
      StakesPointwise(a[..|a| - 1], b[..|b| - 1]);
    }
  }

  /** Settling only writes the statuses: the cards and the stakes on the
      table are those of the row before. */
  lemma SettleConserves(shoe: seq<Card>, dealerCards: seq<Card>, row: seq<HandState>, dealerBust: bool, dealerScore: int)
    ensures PoolOf(shoe, dealerCards, SettledRow(row, dealerBust, dealerScore)) == PoolOf(shoe, dealerCards, row)
    ensures SumOf(SettledRow(row, dealerBust, dealerScore), StakeIn) == SumOf(row, StakeIn)
  {
    RowCardsPointwise(SettledRow(row, dealerBust, dealerScore), row);
    StakesPointwise(SettledRow(row, dealerBust, dealerScore), row);
  }
}
