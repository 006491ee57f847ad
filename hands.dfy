/** `Hand` of blackjack.py: the cards of one player hand (or the dealer's),
    its stake and the flags the round engine reads. */
module Hands {
  import opened Cards
  import opened Scoring

  /** `Hand.status`: the source's codes 10 (in play), -1 (lost), 0 (tie)
      and 1 (win). */
  datatype Status = InPlay | Lose | Push | Win

  /** The decision of `finishHand`, tested in the source's order: an own
      bust, then a dealer who did not bust and scored higher, then a tie. */
  function Outcome(bust: bool, score: int, dealerBust: bool, dealerScore: int): (r: Status)
    ensures r != InPlay
    ensures bust ==> r == Lose
  {
    if bust || (!dealerBust && dealerScore > score) then Lose
    else if dealerScore == score then Push
    else Win
  }

  /** When both bust flags agree with the scores, the decision is the usual
      comparison of two blackjack hands: a player over 21 loses whatever the
      dealer holds, a dealer over 21 loses to any standing player, and
      otherwise the higher score wins and equal scores push. */
  lemma OutcomeMatchesScores(score: int, dealerScore: int)
    ensures var r := Outcome(score > 21, score, dealerScore > 21, dealerScore);
      (r == Lose <==> score > 21 || (dealerScore <= 21 && dealerScore > score)) &&
      (r == Push <==> score <= 21 && dealerScore == score) &&
      (r == Win <==> score <= 21 && (dealerScore > 21 || dealerScore < score))
  {
  }

  /** A hand whose bust flag is set loses, whatever the dealer's flags and
      score say: it is never a push or a win. */
  lemma BustHandLoses(score: int, dealerBust: bool, dealerScore: int)
    ensures Outcome(true, score, dealerBust, dealerScore) == Lose
  {
  }

  /** The fields of a hand as one value. */
  datatype HandState = HandState(
    cards: seq<Card>, score: int, bust: bool, blackjack: bool,
    bet: real, status: Status, split: bool)

  /** A hand after its cards become `cards` and it is rescored: the score
      is recomputed, while the bust and blackjack flags can only be raised. */
  function Rescored(s: HandState, cards: seq<Card>): HandState {
    var sc := Score(cards);
    s.(cards := cards, score := sc, bust := s.bust || sc > 21, blackjack := s.blackjack || (sc == 21 && |cards| == 2))
  }

  class Hand {
    var cards: seq<Card>
    var score: int
    var hideDealerCards: bool
    var bust: bool
    var bet: real
    var status: Status
    var blackjack: bool
    var split: bool

    ghost function State(): HandState
      reads this
    {
      HandState(cards, score, bust, blackjack, bet, status, split)
    }

    /** `Hand(cards, bet, isDealer)`: flags cleared, in play, then scored. */
    constructor (cards0: seq<Card>, bet0: real, isDealer: bool)
      ensures cards == cards0 && bet == bet0 && hideDealerCards == isDealer
      ensures status == InPlay && !split
      ensures score == Score(cards0)
      ensures bust == (score > 21)
      ensures blackjack == (score == 21 && |cards0| == 2)
    {
      hideDealerCards := isDealer;
      cards := cards0;
      bust := false;
      bet := bet0;
      status := InPlay;
      blackjack := false;
      split := false;
      new;
      UpdateScore();
    }

    /** `updateScore`: tallies the non-Ace points and the Aces, counts each
        Ace 11, then takes 10 off per Ace while the total is over 21. The
        bust and blackjack flags are only ever raised here, never cleared. */
    method UpdateScore()
      modifies this`score, this`bust, this`blackjack
      ensures score == Score(cards)
      ensures bust == (old(bust) || score > 21)
      ensures blackjack == (old(blackjack) || (score == 21 && |cards| == 2))
    {
      var nonAces: seq<int> := [];
      var aces := 0;
      var i := 0;
      while i < |cards|
        invariant 0 <= i <= |cards|
        invariant nonAces == NonAceValues(cards[..i])
        invariant aces == AceCount(cards[..i])
        invariant bust == old(bust) && blackjack == old(blackjack)
      {
        var c := cards[i];
        TallyStep(cards, i);
        if c.number == 1 {
          aces := aces + 1;
        } else if c.number > 9 {
          nonAces := nonAces + [10];
        } else {
          nonAces := nonAces + [c.number];
        }
        i := i + 1;
      }
      assert cards[..i] == cards;
      ghost var hard, allAces := HardTotal(cards), aces;
      var total := Sum(nonAces) + aces * 11;
      while total > 21 && aces > 0
        invariant 0 <= aces <= allAces
        invariant total == hard + 10 * aces
        invariant SoftAces(hard, aces) == SoftAces(hard, allAces)
      {
        total := total - 10;
        aces := aces - 1;
      }
      SoftAcesSettled(hard, aces, allAces);
      score := total;
      if score > 21 {
        bust := true;
      }
      if score == 21 && |cards| == 2 {
        blackjack := true;
      }
    }

    /** `addToHand`: extends the hand and rescores it. */
    method AddToHand(more: seq<Card>)
      modifies this`cards, this`score, this`bust, this`blackjack
      ensures cards == old(cards) + more
      ensures score == Score(cards)
      ensures bust == (old(bust) || score > 21)
      ensures blackjack == (old(blackjack) || (score == 21 && |cards| == 2))
      ensures State() == Rescored(old(State()), old(cards) + more)
    {
      cards := cards + more;
      UpdateScore();
    }

    /** `popFromHand`: removes and returns the last card, then rescores. */
    method PopFromHand() returns (card: Card)
      requires |cards| > 0
      modifies this`cards, this`score, this`bust, this`blackjack
      ensures card == old(cards[|cards| - 1])
      ensures cards == old(cards[..|cards| - 1])
      ensures score == Score(cards)
      ensures bust == (old(bust) || score > 21)
      ensures blackjack == (old(blackjack) || (score == 21 && |cards| == 2))
    {
      card := cards[|cards| - 1];
      cards := cards[..|cards| - 1];
      UpdateScore();
    }

    /** `finishHand`: settles this hand against the dealer's. */
    method FinishHand(dealer: Hand)
      modifies this`status
      ensures status == Outcome(bust, score, dealer.bust, dealer.score)
    {
      if bust || (!dealer.bust && dealer.score > score) {
        status := Lose;
      } else if dealer.score == score {
        status := Push;
      } else {
        status := Win;
      }
    }
  }
}
