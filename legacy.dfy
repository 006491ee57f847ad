/** Blackjack.py, the older copy of the engine. Its `Hand`, `Deck` and
    `Game` read like blackjack.py's except in three places, modelled here:
    `updateScore` tallies the Aces in units of 11, `Deck()` always builds
    one rank-major deck, and option 3 of `actionPrompt` raises the stake by
    the module-level `bet` instead of by the hand's own stake. Everything
    else it shares with blackjack.py is modelled once, by Hands and Engine. */
module Legacy {
  import opened Cards
  import opened Scoring
  import opened Hands
  import opened Rules
  import opened Table
  import opened Turns
  import opened Engine

  /** `updateScore` of Blackjack.py: every Ace adds 11 to an Ace tally, and
      each reduction takes 10 off the total and 11 off the tally. It
      leaves a hand exactly as the per-Ace count of blackjack.py does
      (Hands.Hand.UpdateScore): the score is Score(cards), and the bust and
      blackjack flags are only ever raised. */
  method UpdateScoreTallied(h: Hand)
    modifies h`score, h`bust, h`blackjack
    ensures h.score == Score(h.cards)
    ensures h.bust == (old(h.bust) || h.score > 21)
    ensures h.blackjack == (old(h.blackjack) || (h.score == 21 && |h.cards| == 2))
  {
    var cards := h.cards;
    var nonAces: seq<int> := [];
    var aces := 0;
    var i := 0;
    while i < |cards|
      invariant 0 <= i <= |cards|
      invariant nonAces == NonAceValues(cards[..i])
      invariant aces == 11 * AceCount(cards[..i])
      invariant unchanged(h)
    {
      var c := cards[i];
      TallyStep(cards, i);
      if c.number == 1 {
        aces := aces + 11;
      } else if c.number > 9 {
        nonAces := nonAces + [10];
      } else {
        nonAces := nonAces + [c.number];
      }
      i := i + 1;
    }
    assert cards[..i] == cards;
    ghost var hard, allAces := HardTotal(cards), AceCount(cards);
    ghost var soft := allAces;
    var score := Sum(nonAces) + aces;
    while score > 21 && aces > 0
      invariant 0 <= soft <= allAces && aces == 11 * soft
      invariant score == hard + 10 * soft
      invariant SoftAces(hard, soft) == SoftAces(hard, allAces)
      invariant unchanged(h)
    {
      score := score - 10;
      aces := aces - 11;
      soft := soft - 1;
    }
    SoftAcesSettled(hard, soft, allAces);
    h.score := score;
    if h.score > 21 {
      h.bust := true;
    }
    if h.score == 21 && |h.cards| == 2 {
      h.blackjack := true;
    }
  }

  /** `Deck()` of Blackjack.py: no size argument, always one deck built
      rank by rank, so it holds 52 cards and every valid card once. */
  method SingleDeck() returns (d: Deck)
    ensures fresh(d) && d.deck == RankMajorDeck()
    ensures |d.deck| == 52 && forall c :: multiset(d.deck)[c] == if ValidCard(c) then 1 else 0
  {
    d := new Deck.Of(RankMajorDeck());
    RankMajorDeckOrder();
    forall c: Card
      ensures multiset(d.deck)[c] == if ValidCard(c) then 1 else 0
    {
      RankMajorDeckCounts(c);
    }
  }

  /** `Game(hands_to_play, total_money, minimum_buy, starting_bets)` of
      Blackjack.py: the blackjack.py game over a single deck, which can
      not raise. */
  method NewSingleDeckGame(handsToPlay: int, totalMoney: real, minimumBuy: real, startingBets: seq<real>)
    returns (g: Game)
    ensures fresh(g) && g.Valid() && g.deck.deck == RankMajorDeck()
    ensures g.Row() == FreshRow(handsToPlay, startingBets, minimumBuy) && g.Staked() == totalMoney
  {
    var d := SingleDeck();
    g := new Game(handsToPlay, totalMoney, minimumBuy, startingBets, d);
  }

  // ---------------------------------------------------------------------
  // Option 3 of `actionPrompt`, as Blackjack.py writes it

  /** Blackjack.py's double down: the bankroll pays the hand's stake, but
      the stake grows by `lastBet`, the module-level `bet` holding the last
      bet typed at the betting prompt; then the hand hits once. */
  function DoubleAsWritten(r: Round, i: int, lastBet: real): (res: (Round, Outcome))
    requires 0 <= i < |r.row|
    ensures |res.0.row| == |r.row|
  {
    var s := r.row[i];
    HitHand(r.(money := r.money - s.bet, row := r.row[i := s.(bet := s.bet + lastBet)]), i)
  }

  /** The as-written double keeps the cards but moves `lastBet` onto the
      table against the hand's stake off the bankroll: the bankroll and
      the stakes together change by the difference, and stay the same
      exactly when the last bet typed equals the hand's stake. */
  lemma DoubleAsWrittenWealth(r: Round, i: int, lastBet: real, dealerCards: seq<Card>)
    requires 0 <= i < |r.row|
    ensures var r' := DoubleAsWritten(r, i, lastBet).0;
      RoundCards(r', dealerCards) == RoundCards(r, dealerCards) &&
      RoundWealth(r') == RoundWealth(r) + lastBet - r.row[i].bet &&
      (RoundWealth(r') == RoundWealth(r) <==> lastBet == r.row[i].bet)
  {
    var s := r.row[i];
    var raised := RaiseStake(r, i, lastBet);
    var r1 := r.(money := r.money - s.bet, row := r.row[i := s.(bet := s.bet + lastBet)]);
    StakeMoves(r, i, lastBet, dealerCards);
    assert r1 == raised.(money := r.money - s.bet);
    HitHandConserves(r1, i, dealerCards);
  }

  /** With the hand's own stake in place of the last bet typed, the
      as-written double is the double of blackjack.py (Turns.DoubleDown),
      which keeps the round's wealth (Turns.DoubleDownConserves). */
  lemma DoubleAsWrittenIntended(r: Round, i: int)
    requires 0 <= i < |r.row|
    ensures DoubleAsWritten(r, i, r.row[i].bet) == DoubleDown(r, i)
  {
    var s := r.row[i];
    assert r.(money := r.money - s.bet, row := r.row[i := s.(bet := s.bet + s.bet)]) == RaiseStake(r, i, s.bet);
  }

  /** Two hands bet 50 and then 100 out of 1000, so `bet` is left at 100.
      Doubling the first hand takes 50 off the bankroll but puts its stake
      at 150: 50 appears from nowhere. */
  lemma DoubleAsWrittenCounterexample()
    ensures var row := [HandState([Card(0, 9), Card(1, 2)], 11, false, false, 50.0, InPlay, false),
                        HandState([Card(2, 10), Card(3, 7)], 17, false, false, 100.0, InPlay, false)];
      var r := Round([Card(0, 5)], row, 850.0);
      var r' := DoubleAsWritten(r, 0, 100.0).0;
      RoundWealth(r) == 1000.0 && r'.money == 800.0 && r'.row[0].bet == 150.0 && RoundWealth(r') == 1050.0
  {
    var row := [HandState([Card(0, 9), Card(1, 2)], 11, false, false, 50.0, InPlay, false),
                HandState([Card(2, 10), Card(3, 7)], 17, false, false, 100.0, InPlay, false)];
    var r := Round([Card(0, 5)], row, 850.0);
    assert SumOf(row, StakeIn) == 150.0 by {
      assert row[..1] == [row[0]] && [row[0]][..0] == [];
    }
    DoubleAsWrittenWealth(r, 0, 100.0, []);
  }

  /** Option 3 of Blackjack.py's `actionPrompt` on a game: the round moves
      as DoubleAsWritten says. */
  method PlayDoubleAsWritten(g: Game, i: int, lastBet: real) returns (o: Outcome)
    requires g.Valid() && 0 <= i < |g.hands|
    modifies g`totalMoney, g.deck, g.HandAt(i)`bet, g.HandAt(i)`cards, g.HandAt(i)`score, g.HandAt(i)`bust,
      g.HandAt(i)`blackjack
    ensures (g.Now(), o) == DoubleAsWritten(old(g.Now()), i, lastBet)
  {
    ghost var r0 := g.Now();
    var hand := g.hands[i];
    g.totalMoney := g.totalMoney - hand.bet;
    hand.bet := hand.bet + lastBet;
    assert g.Row() == r0.row[i := hand.State()];
    o := g.Hit(i);
  }
}
