/** The value of a blackjack hand (`Hand.updateScore` in blackjack.py and
    Blackjack.py), stated as functions of the cards. Both loops that
    compute it are proved against Score (Hands.Hand.UpdateScore and
    Legacy.UpdateScoreTallied). */
module Scoring {
  import opened Cards

  /** Points a non-Ace card adds: ranks above 9 count 10. */
  function PipValue(number: int): int {
    if number > 9 then 10 else number
  }

  /** The `nonAces` list: the points of every non-Ace card, in hand order. */
  function NonAceValues(cards: seq<Card>): seq<int>
    decreases |cards|
  {
    if cards == [] then []
    else
      var last := cards[|cards| - 1];
      NonAceValues(cards[..|cards| - 1]) + (if last.number == 1 then [] else [PipValue(last.number)])
  }

  function Sum(xs: seq<int>): int
    decreases |xs|
  {
    if xs == [] then 0 else Sum(xs[..|xs| - 1]) + xs[|xs| - 1]
  }

  function AceCount(cards: seq<Card>): nat
    decreases |cards|
  {
    if cards == [] then 0
    else AceCount(cards[..|cards| - 1]) + (if cards[|cards| - 1].number == 1 then 1 else 0)
  }

  /** One more card of the hand tallied: its points join the non-Ace
      list, or it adds one to the Ace count. */
  lemma TallyStep(cards: seq<Card>, i: int)
    requires 0 <= i < |cards|
    ensures NonAceValues(cards[..i + 1]) == NonAceValues(cards[..i]) + (if cards[i].number == 1 then [] else [PipValue(cards[i].number)])
    ensures AceCount(cards[..i + 1]) == AceCount(cards[..i]) + (if cards[i].number == 1 then 1 else 0)
  {
    TakeLast(cards, i + 1);
  }

  /** The total with every Ace counted as 1. */
  function HardTotal(cards: seq<Card>): int {
    Sum(NonAceValues(cards)) + AceCount(cards)
  }

  /** How many of `aces` Aces may count 11 instead of 1: the largest
      `k <= aces` with `hard + 10 * k <= 21`, and 0 when there is none. */
  function SoftAces(hard: int, aces: nat): (k: nat)
    ensures k <= aces
    decreases aces
  {
    if aces == 0 then 0
    else if hard + 10 * aces <= 21 then aces
    else SoftAces(hard, aces - 1)
  }

  /** Where `updateScore` stops taking 10 off: once the total is at most
      21, or no Ace is left to count 1, the Aces still counting 11 are
      exactly SoftAces. */
  lemma SoftAcesSettled(hard: int, aces: nat, allAces: nat)
    requires aces <= allAces && SoftAces(hard, aces) == SoftAces(hard, allAces)
    requires hard + 10 * aces <= 21 || aces == 0
    ensures aces == SoftAces(hard, allAces)
  {
  }

  /** The score of a hand: the hard total raised by 10 for each Ace that
      can count 11 without passing 21. */
  function Score(cards: seq<Card>): int {
    HardTotal(cards) + 10 * SoftAces(HardTotal(cards), AceCount(cards))
  }

  /** An empty hand scores 0. */
  lemma ScoreEmpty()
    ensures Score([]) == 0
  {
    assert HardTotal([]) == 0;
  }

  predicate AllValid(cards: seq<Card>) {
    forall i :: 0 <= i < |cards| ==> ValidCard(cards[i])
  }

  lemma {:induction false} SoftAcesIsLargest(hard: int, aces: nat, k: nat)
    requires k <= aces && hard + 10 * k <= 21
    ensures k <= SoftAces(hard, aces)
    ensures hard + 10 * SoftAces(hard, aces) <= 21
    decreases aces
  {
    if aces > 0 && hard + 10 * aces > 21 {
      SoftAcesIsLargest(hard, aces - 1, k);
    }
  }

  lemma {:induction false} SoftAcesNoneFits(hard: int, aces: nat)
    requires hard > 21
    ensures SoftAces(hard, aces) == 0
    decreases aces
  {
    if aces > 0 {
      SoftAcesNoneFits(hard, aces - 1);
    }
  }

  lemma {:induction false} SoftAcesFits(hard: int, aces: nat)
    requires SoftAces(hard, aces) > 0
    ensures hard + 10 * SoftAces(hard, aces) <= 21
    decreases aces
  {
    if aces > 0 && hard + 10 * aces > 21 {
      SoftAcesFits(hard, aces - 1);
    }
  }

  /** The score is the best total over the choices "1 or 11" for each Ace:
      it is one of those totals, no total that stays at or below 21 beats
      it, and it only passes 21 when every Ace already counts 1. */
  lemma ScoreIsBestChoice(cards: seq<Card>)
    ensures var h, a := HardTotal(cards), AceCount(cards);
      (exists k :: 0 <= k <= a && Score(cards) == h + 10 * k) &&
      (forall k :: 0 <= k <= a && h + 10 * k <= 21 ==> h + 10 * k <= Score(cards)) &&
      (Score(cards) <= 21 || Score(cards) == h)
  {
    var h, a := HardTotal(cards), AceCount(cards);
    var s := SoftAces(h, a);
    assert Score(cards) == h + 10 * s;
    forall k | 0 <= k <= a && h + 10 * k <= 21
      ensures h + 10 * k <= Score(cards)
    {
      SoftAcesIsLargest(h, a, k);
    }
    if s > 0 {
      SoftAcesFits(h, a);
    }
  }

  lemma {:induction false} SumAppend(xs: seq<int>, ys: seq<int>)
    ensures Sum(xs + ys) == Sum(xs) + Sum(ys)
    decreases |ys|
  {
    if ys == [] {
      assert xs + ys == xs;
    } else {
      SumAppend(xs, ys[..|ys| - 1]);
      assert (xs + ys)[..|xs + ys| - 1] == xs + ys[..|ys| - 1];
      assert (xs + ys)[|xs + ys| - 1] == ys[|ys| - 1];
    }
  }

  /** What one more card adds: 1 for an Ace, its points otherwise. */
  function CardPoints(c: Card): int {
    if c.number == 1 then 1 else PipValue(c.number)
  }

  lemma HardTotalSnoc(cards: seq<Card>, c: Card)
    ensures HardTotal(cards + [c]) == HardTotal(cards) + CardPoints(c)
    ensures AceCount(cards + [c]) == AceCount(cards) + (if c.number == 1 then 1 else 0)
  {
    assert (cards + [c])[..|cards|] == cards;
    SumAppend(NonAceValues(cards), if c.number == 1 then [] else [PipValue(c.number)]);
  }

  /** Every valid card adds at least 1 to the hard total, an Ace exactly 1
      and any other card at least 2. */
  lemma {:induction false} HardTotalBounds(cards: seq<Card>)
    requires AllValid(cards)
    ensures HardTotal(cards) >= |cards|
    ensures HardTotal(cards) >= AceCount(cards) + 2 * (|cards| - AceCount(cards))
    ensures AceCount(cards) <= |cards|
    decreases |cards|
  {
    if cards != [] {
      var init, last := cards[..|cards| - 1], cards[|cards| - 1];
      assert AllValid(init) by {
        forall i | 0 <= i < |init| ensures ValidCard(init[i]) {
          assert init[i] == cards[i];
        }
      }
      HardTotalBounds(init);
      assert ValidCard(last);
      SumAppend(NonAceValues(init), if last.number == 1 then [] else [PipValue(last.number)]);
    }
  }

  /** With real cards at most one Ace can ever count 11, so the score is
      the hard total plus 10 exactly when the hand holds an Ace and the
      hard total is at most 11. */
  lemma ScoreOfValidCards(cards: seq<Card>)
    requires AllValid(cards)
    ensures Score(cards) == if AceCount(cards) > 0 && HardTotal(cards) <= 11 then HardTotal(cards) + 10 else HardTotal(cards)
    ensures Score(cards) >= |cards|
  {
    var h, a := HardTotal(cards), AceCount(cards);
    HardTotalBounds(cards);
    if a > 1 {
      assert h >= 2;
      assert SoftAces(h, a) <= 1 by {
        if SoftAces(h, a) > 1 {
          SoftAcesFits(h, a);
        }
      }
      if SoftAces(h, a) == 1 {
        SoftAcesFits(h, a);
      } else if h <= 11 {
        SoftAcesIsLargest(h, a, 1);
      }
    } else if a == 1 && h <= 11 {
      SoftAcesIsLargest(h, a, 1);
    }
  }

  /** The scores quoted in tests/test_blackjack.py. An Ace and a nine
      make a soft 20. */
  lemma AceNineExample()
    ensures Score([Card(0, 1), Card(0, 9)]) == 20
  {
    var ace := [Card(0, 1)];
    HardTotalSnoc([], Card(0, 1));
    assert [] + [Card(0, 1)] == ace;
    HardTotalSnoc(ace, Card(0, 9));
    assert ace + [Card(0, 9)] == [Card(0, 1), Card(0, 9)];
  }

  /** An Ace and a King make 21. */
  lemma AceKingExample()
    ensures Score([Card(0, 1), Card(1, 13)]) == 21
  {
    var ace := [Card(0, 1)];
    HardTotalSnoc([], Card(0, 1));
    assert [] + [Card(0, 1)] == ace;
    HardTotalSnoc(ace, Card(1, 13));
    assert ace + [Card(1, 13)] == [Card(0, 1), Card(1, 13)];
  }

  /** Two Aces and a nine make 21 with one Ace counting 11. */
  lemma TwoAcesExample()
    ensures Score([Card(0, 1), Card(1, 1), Card(2, 9)]) == 21
  {
    var ace, aces := [Card(0, 1)], [Card(0, 1), Card(1, 1)];
    HardTotalSnoc([], Card(0, 1));
    assert [] + [Card(0, 1)] == ace;
    HardTotalSnoc(ace, Card(1, 1));
    assert ace + [Card(1, 1)] == aces;
    HardTotalSnoc(aces, Card(2, 9));
    assert aces + [Card(2, 9)] == [Card(0, 1), Card(1, 1), Card(2, 9)];
  }

  /** A ten, a nine and a five bust at 24. */
  lemma BustExample()
    ensures Score([Card(0, 10), Card(0, 9), Card(0, 5)]) == 24
  {
    var ten, tenNine := [Card(0, 10)], [Card(0, 10), Card(0, 9)];
    HardTotalSnoc([], Card(0, 10));
    assert [] + [Card(0, 10)] == ten;
    HardTotalSnoc(ten, Card(0, 9));
    assert ten + [Card(0, 9)] == tenNine;
    HardTotalSnoc(tenNine, Card(0, 5));
    assert tenNine + [Card(0, 5)] == [Card(0, 10), Card(0, 9), Card(0, 5)];
  }
}
