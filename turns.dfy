/** The players' turns of blackjack.py (`actionPrompt` and `play_players`)
    as functions of the round's values and of the console lines still to
    be read, with what every turn keeps: the cards of the round, the
    bankroll plus the stakes, and every hand but the one being played. */
module Turns {
  import opened Cards
  import opened Scoring
  import opened Hands
  import opened Rules
  import opened Table

  /** Whether a step ran to completion or stopped on a Python exception. */
  datatype Outcome = Pass | Fail(error: Error)

  /** What a player's turn can change: the shoe, the row of hands and the
      bankroll. */
  datatype Round = Round(shoe: seq<Card>, row: seq<HandState>, money: real)

  /** The round after a step, the console lines left unread, and how the
      step ended. */
  datatype Step = Step(round: Round, input: seq<string>, outcome: Outcome)

  /** Every card of the round, with the dealer holding `dealerCards`. */
  function RoundCards(r: Round, dealerCards: seq<Card>): multiset<Card> {
    PoolOf(r.shoe, dealerCards, r.row)
  }

  /** The bankroll together with the stakes on the table. */
  function RoundWealth(r: Round): real {
    StakedOf(r.money, r.row)
  }

  /** `r'` differs from `r` at most in hand `i`, the shoe and the bankroll,
      and hand `i` kept its split mark. */
  ghost predicate SameOutside(r: Round, r': Round, i: int)
    requires 0 <= i < |r.row|
  {
    |r'.row| == |r.row| && r'.row[..i] == r.row[..i] && r'.row[i + 1..] == r.row[i + 1..] &&
    r'.row[i].split == r.row[i].split
  }

  /** `r'` is `r` with unsplit hand `i` split: a hand marked split sits
      right after it, and the hands before and after are unchanged. */
  ghost predicate SplitOutside(r: Round, r': Round, i: int)
    requires 0 <= i < |r.row|
  {
    |r'.row| == |r.row| + 1 && !r.row[i].split && r'.row[..i] == r.row[..i] &&
    r'.row[i + 1].split && r'.row[i + 2..] == r.row[i + 1..]
  }

  // ---------------------------------------------------------------------
  // Hit, double down, split

  /** `hit(i)`: hand `i` takes the top card of the shoe and is rescored;
      an empty shoe raises IndexError and changes nothing. */
  function HitHand(r: Round, i: int): (res: (Round, Outcome))
    requires 0 <= i < |r.row|
    ensures |res.0.row| == |r.row|
  {
    if r.shoe == [] then (r, Fail(IndexError))
    else
      var n := |r.shoe|;
      (r.(shoe := r.shoe[..n - 1], row := r.row[i := Drawn(r.row[i], r.shoe[n - 1])]), Pass)
  }

  /** A hit only fails on an empty shoe; otherwise the top card comes off
      the shoe onto hand `i` and nothing else changes. */
  lemma HitHandMoves(r: Round, i: int)
    requires 0 <= i < |r.row|
    ensures var (r', o) := HitHand(r, i);
      (o == Pass <==> r.shoe != []) && (o.Fail? ==> o.error == IndexError && r' == r) &&
      (o == Pass ==> r'.shoe == r.shoe[..|r.shoe| - 1] && r'.row[i] == Drawn(r.row[i], r.shoe[|r.shoe| - 1])) &&
      SameOutside(r, r', i) && r'.money == r.money && r'.row[i].bet == r.row[i].bet
  {
    if r.shoe != [] {
      var r' := HitHand(r, i).0;
      assert r'.row[i + 1..] == r.row[i + 1..];
    }
  }

  /** A hit keeps the round's cards and its wealth. */
  lemma HitHandConserves(r: Round, i: int, dealerCards: seq<Card>)
    requires 0 <= i < |r.row|
    ensures var r' := HitHand(r, i).0;
      RoundCards(r', dealerCards) == RoundCards(r, dealerCards) && RoundWealth(r') == RoundWealth(r)
  {
    if r.shoe != [] {
      HitConserves(r.shoe, dealerCards, r.row, i, r.money);
    }
  }

  /** Option 3 of `actionPrompt`: the bankroll pays a second stake, the
      stake doubles, then the hand hits once. */
  function DoubleDown(r: Round, i: int): (res: (Round, Outcome))
    requires 0 <= i < |r.row|
    ensures |res.0.row| == |r.row|
  {
    HitHand(RaiseStake(r, i, r.row[i].bet), i)
  }

  /** `extra` moves from the bankroll onto the stake of hand `i`. */
  function RaiseStake(r: Round, i: int, extra: real): (r': Round)
    requires 0 <= i < |r.row|
    ensures |r'.row| == |r.row|
  {
    r.(money := r.money - extra, row := r.row[i := r.row[i].(bet := r.row[i].bet + extra)])
  }

  /** Doubling down takes exactly one card when the shoe has one and
      doubles the stake, which comes out of the bankroll. */
  lemma DoubleDownMoves(r: Round, i: int)
    requires 0 <= i < |r.row|
    ensures var (r', o) := DoubleDown(r, i);
      (o == Pass <==> r.shoe != []) && (o.Fail? ==> o.error == IndexError) &&
      SameOutside(r, r', i) && r'.money == r.money - r.row[i].bet &&
      r'.row[i].bet == 2.0 * r.row[i].bet &&
      (o == Pass ==> r'.row[i].cards == r.row[i].cards + [r.shoe[|r.shoe| - 1]] && r'.shoe == r.shoe[..|r.shoe| - 1]) &&
      (o.Fail? ==> r'.row[i].cards == r.row[i].cards && r'.shoe == r.shoe)
  {
    var r1 := RaiseStake(r, i, r.row[i].bet);
    HitHandMoves(r1, i);
    if r.shoe != [] {
      DrawnTakes(r1.row[i], r.shoe[|r.shoe| - 1]);
    }
    assert r1.row[..i] == r.row[..i] && r1.row[i + 1..] == r.row[i + 1..];
  }

  /** Doubling down keeps the round's cards, and the second stake only
      moves money from the bankroll to the table. */
  lemma DoubleDownConserves(r: Round, i: int, dealerCards: seq<Card>)
    requires 0 <= i < |r.row|
    ensures var r' := DoubleDown(r, i).0;
      RoundCards(r', dealerCards) == RoundCards(r, dealerCards) && RoundWealth(r') == RoundWealth(r)
  {
    StakeMoves(r, i, r.row[i].bet, dealerCards);
    HitHandConserves(RaiseStake(r, i, r.row[i].bet), i, dealerCards);
  }

  /** Moving `extra` from the bankroll onto the stake of hand `i` keeps
      the round's cards and its wealth. */
  lemma StakeMoves(r: Round, i: int, extra: real, dealerCards: seq<Card>)
    requires 0 <= i < |r.row|
    ensures var r1 := RaiseStake(r, i, extra);
      RoundCards(r1, dealerCards) == RoundCards(r, dealerCards) && RoundWealth(r1) == RoundWealth(r)
  {
    var h2 := r.row[i].(bet := r.row[i].bet + extra);
    assert RaiseStake(r, i, extra) == r.(money := r.money - extra, row := r.row[i := h2]);
    RowCardsReplace(r.row, i, h2);
    SumOfUpdate(r.row, i, h2, StakeIn);
  }

  /** Option 4 of `actionPrompt`: the bankroll pays the new hand's stake,
      and the last card of hand `i` moves into a new hand right after it. */
  function SplitHand(r: Round, i: int): (r': Round)
    requires 0 <= i < |r.row| && |r.row[i].cards| > 0
    ensures |r'.row| == |r.row| + 1 && r'.row[i].split
  {
    SplitMarks(r.row, i);
    r.(money := r.money - r.row[i].bet, row := SplitRow(r.row, i))
  }

  /** Splitting keeps the round's cards, and the new hand's stake only
      moves money from the bankroll to the table. */
  lemma SplitHandConserves(r: Round, i: int, dealerCards: seq<Card>)
    requires 0 <= i < |r.row| && |r.row[i].cards| > 0
    ensures RoundCards(SplitHand(r, i), dealerCards) == RoundCards(r, dealerCards)
    ensures RoundWealth(SplitHand(r, i)) == RoundWealth(r)
  {
    SplitConserves(r.shoe, dealerCards, r.row, i, r.money);
  }

  /** Splitting an unsplit hand leaves it in place, puts a hand marked
      split right after it, and moves every later hand one place on. */
  lemma SplitHandShape(r: Round, i: int)
    requires 0 <= i < |r.row| && |r.row[i].cards| > 0 && !r.row[i].split
    ensures SplitOutside(r, SplitHand(r, i), i)
  {
    SplitMarks(r.row, i);
  }

  // ---------------------------------------------------------------------
  // The menu

  /** The answers the menu accepts are its own entry numbers, so "3" is
      only read when Double is on the menu and "4" only when Split is. */
  lemma ChosenAnswer(actions: seq<Action>, answer: string)
    requires 2 <= |actions| <= 4 && answer in ResponseTokens(|actions|)
    ensures answer == "1" || answer == "2" || (answer == "3" && |actions| >= 3) || (answer == "4" && |actions| == 4)
  {
    var k :| 0 <= k < |actions| && ResponseTokens(|actions|)[k] == answer;
    assert answer == [DigitChar(k + 1)];
  }

  /** Option 1 of `actionPrompt`: hit, stop on a bust, otherwise ask
      "1. Hit | 2. Stay" and hit again on "1". */
  function HitLoop(r: Round, i: int, input: seq<string>): (s: Step)
    requires 0 <= i < |r.row|
    decreases |input|
  {
    var (r1, o) := HitHand(r, i);
    if o.Fail? || r1.row[i].bust then Step(r1, input, o)
    else
      match WaitForInput(input, ["1", "2"])
      case Failure(e) => Step(r1, [], Fail(e))
      case Success((answer, rest)) =>
        if answer == "1" then HitLoop(r1, i, rest) else Step(r1, rest, Pass)
  }

  /** `actionPrompt(i)`: a blackjack is left alone; a split hand holding
      an Ace draws one card and stops (a split hand with no card raises
      IndexError at `cards[0]`); otherwise the menu is offered and the
      answer played. After a split the prompt starts again on hand `i`,
      which is now marked split, so it cannot split again. */
  function Prompt(r: Round, i: int, input: seq<string>): (s: Step)
    requires 0 <= i < |r.row|
    decreases if r.row[i].split then 0 else 1
  {
    var h := r.row[i];
    if h.blackjack then Step(r, input, Pass)
    else if h.split && h.cards == [] then Step(r, input, Fail(IndexError))
    else if h.split && h.cards[0].number == 1 then
      var (r1, o) := HitHand(r, i);
      Step(r1, input, o)
    else
      var actions := OfferedActions(h.cards, h.split, r.money, h.bet);
      match WaitForInput(input, ResponseTokens(|actions|))
      case Failure(e) => Step(r, [], Fail(e))
      case Success((answer, rest)) =>
        ChosenAnswer(actions, answer);
        if answer == "1" then HitLoop(r, i, rest)
        else if answer == "2" then Step(r, rest, Pass)
        else if answer == "3" then
          var (r1, o) := DoubleDown(r, i);
          Step(r1, rest, o)
        else
          Prompt(SplitHand(r, i), i, rest)
  }

  /** A split Ace is dealt one card and its turn ends; a ten-valued card
      makes a two-card 21, which raises the blackjack flag even though the
      hand came from a split. */
  lemma SplitAceBlackjack(r: Round, i: int, input: seq<string>)
    requires 0 <= i < |r.row| && r.row[i].split && !r.row[i].blackjack
    requires |r.row[i].cards| == 1 && r.row[i].cards[0].number == 1
    requires r.shoe != [] && r.shoe[|r.shoe| - 1].number >= 10
    ensures var s := Prompt(r, i, input);
      s.outcome == Pass && s.input == input && s.round.row[i].blackjack && s.round.row[i].score == 21
  {
    var ace, top := r.row[i].cards[0], r.shoe[|r.shoe| - 1];
    HardTotalSnoc([], ace);
    assert [] + [ace] == r.row[i].cards;
    HardTotalSnoc(r.row[i].cards, top);
  }

  /** The hit loop changes only hand `i` and the shoe, keeps the stake,
      and stops on IndexError or EOFError when it fails. */
  lemma {:induction false} HitLoopFrame(r: Round, i: int, input: seq<string>)
    requires 0 <= i < |r.row|
    ensures var s := HitLoop(r, i, input);
      SameOutside(r, s.round, i) && s.round.money == r.money && s.round.row[i].bet == r.row[i].bet &&
      (s.outcome.Fail? ==> s.outcome.error == IndexError || s.outcome.error == EOFError)
    decreases |input|
  {
    var (r1, o) := HitHand(r, i);
    HitHandMoves(r, i);
    if o.Pass? && !r1.row[i].bust {
      match WaitForInput(input, ["1", "2"])
      case Failure(e) =>
      case Success((answer, rest)) =>
        if answer == "1" {
          HitLoopFrame(r1, i, rest);
          assert HitLoop(r, i, input) == HitLoop(r1, i, rest);
        }
    }
  }

  /** From `r` to `r'` hand `i` took the top cards of the shoe, one by
      one, in the order drawn. */
  ghost predicate DrewFromTop(r: Round, r': Round, i: int)
    requires 0 <= i < |r.row|
  {
    var k := |r'.shoe|;
    k <= |r.shoe| && r'.shoe == r.shoe[..k] &&
    |r'.row| == |r.row| && r'.row[i].cards == r.row[i].cards + Reversed(r.shoe[k..])
  }

  lemma HitHandDraws(r: Round, i: int)
    requires 0 <= i < |r.row|
    ensures DrewFromTop(r, HitHand(r, i).0, i)
    ensures r.shoe != [] ==> |HitHand(r, i).0.shoe| < |r.shoe|
  {
    var n := |r.shoe|;
    if n == 0 {
      assert r.shoe[0..] == [];
    } else {
      DrawnTakes(r.row[i], r.shoe[n - 1]);
      ReversedTop(r.shoe);
    }
  }

  /** Two stretches of drawing from the top make one. */
  lemma DrewFromTopTrans(r: Round, r1: Round, r2: Round, i: int)
    requires 0 <= i < |r.row|
    requires DrewFromTop(r, r1, i) && DrewFromTop(r1, r2, i)
    ensures DrewFromTop(r, r2, i)
  {
    var k1, k2 := |r1.shoe|, |r2.shoe|;
    assert r.shoe[..k1][..k2] == r.shoe[..k2];
    assert r.shoe[k2..] == r.shoe[k2..k1] + r.shoe[k1..];
    assert r1.shoe[k2..] == r.shoe[k2..k1];
    ReversedConcat(r.shoe[k2..k1], r.shoe[k1..]);
  }

  /** The hit loop takes its cards from the top of the shoe, one by one,
      onto hand `i` in the order drawn, and takes at least one when the
      shoe has any. */
  lemma {:induction false} HitLoopDraws(r: Round, i: int, input: seq<string>)
    requires 0 <= i < |r.row|
    ensures DrewFromTop(r, HitLoop(r, i, input).round, i)
    ensures r.shoe != [] ==> |HitLoop(r, i, input).round.shoe| < |r.shoe|
    decreases |input|
  {
    var n := |r.shoe|;
    var (r1, o) := HitHand(r, i);
    HitHandDraws(r, i);
    var w := WaitForInput(input, ["1", "2"]);
    if o.Pass? && !r1.row[i].bust && w.Success? && w.value.0 == "1" {
      var rest := w.value.1;
      HitLoopDraws(r1, i, rest);
      var s := HitLoop(r1, i, rest);
      assert HitLoop(r, i, input) == s;
      DrewFromTopTrans(r, r1, s.round, i);
    } else {
      assert HitLoop(r, i, input).round == r1;
    }
  }

  /** The hit loop keeps the round's cards and its wealth. */
  lemma {:induction false} HitLoopConserves(r: Round, i: int, input: seq<string>, dealerCards: seq<Card>)
    requires 0 <= i < |r.row|
    ensures var r' := HitLoop(r, i, input).round;
      RoundCards(r', dealerCards) == RoundCards(r, dealerCards) && RoundWealth(r') == RoundWealth(r)
    decreases |input|
  {
    var (r1, o) := HitHand(r, i);
    HitHandConserves(r, i, dealerCards);
    if o.Pass? && !r1.row[i].bust {
      match WaitForInput(input, ["1", "2"])
      case Failure(e) =>
      case Success((answer, rest)) =>
        if answer == "1" {
          HitLoopConserves(r1, i, rest, dealerCards);
          assert HitLoop(r, i, input) == HitLoop(r1, i, rest);
        }
    }
  }

  /** A prompt changes hand `i` and nothing before or after it, except
      that splitting an unsplit hand puts a new hand marked split right
      after it. */
  lemma {:induction false} PromptShape(r: Round, i: int, input: seq<string>)
    requires 0 <= i < |r.row|
    ensures var r' := Prompt(r, i, input).round;
      SameOutside(r, r', i) || SplitOutside(r, r', i)
    decreases if r.row[i].split then 0 else 1
  {
    var h := r.row[i];
    if h.blackjack || (h.split && h.cards == []) {
    } else if h.split && h.cards[0].number == 1 {
      HitHandMoves(r, i);
    } else {
      var actions := OfferedActions(h.cards, h.split, r.money, h.bet);
      match WaitForInput(input, ResponseTokens(|actions|))
      case Failure(e) =>
      case Success((answer, rest)) =>
        ChosenAnswer(actions, answer);
        if answer == "1" {
          HitLoopFrame(r, i, rest);
          assert Prompt(r, i, input) == HitLoop(r, i, rest);
        } else if answer == "3" {
          DoubleDownMoves(r, i);
        } else if answer != "2" {
          var r1 := SplitHand(r, i);
          SplitHandShape(r, i);
          PromptShape(r1, i, rest);
          var r2 := Prompt(r1, i, rest).round;
          assert Prompt(r, i, input).round == r2;
          assert r2.row[i + 1..][1..] == r2.row[i + 2..];
          assert r1.row[i + 1..][1..] == r1.row[i + 2..];
        }
    }
  }

  /** A prompt keeps the round's cards and its wealth: a double or a
      split only moves money from the bankroll to the table. */
  lemma {:induction false} PromptConserves(r: Round, i: int, input: seq<string>, dealerCards: seq<Card>)
    requires 0 <= i < |r.row|
    ensures var r' := Prompt(r, i, input).round;
      RoundCards(r', dealerCards) == RoundCards(r, dealerCards) && RoundWealth(r') == RoundWealth(r)
    decreases if r.row[i].split then 0 else 1
  {
    var h := r.row[i];
    if h.blackjack || (h.split && h.cards == []) {
    } else if h.split && h.cards[0].number == 1 {
      HitHandConserves(r, i, dealerCards);
    } else {
      var actions := OfferedActions(h.cards, h.split, r.money, h.bet);
      match WaitForInput(input, ResponseTokens(|actions|))
      case Failure(e) =>
      case Success((answer, rest)) =>
        ChosenAnswer(actions, answer);
        if answer == "1" {
          HitLoopConserves(r, i, rest, dealerCards);
          assert Prompt(r, i, input) == HitLoop(r, i, rest);
        } else if answer == "3" {
          DoubleDownConserves(r, i, dealerCards);
        } else if answer != "2" {
          var r1 := SplitHand(r, i);
          SplitHandConserves(r, i, dealerCards);
          PromptConserves(r1, i, rest, dealerCards);
          assert Prompt(r, i, input) == Prompt(r1, i, rest);
        }
    }
  }

  // ---------------------------------------------------------------------
  // The player loop

  /** How many hands of `row` are not marked split: the ones that may
      still add a hand to the row. */
  function Unsplit(row: seq<HandState>): nat
    decreases |row|
  {
    if row == [] then 0 else (if row[0].split then 0 else 1) + Unsplit(row[1..])
  }

  /** What is left of `play_players` at hand `i`: the hands still to play
      and, twice over, the splits they may still make. */
  function Remaining(row: seq<HandState>, i: int): nat
    requires 0 <= i <= |row|
  {
    |row| - i + 2 * Unsplit(row[i..])
  }

  /** Playing hand `i` keeps the hands before it and never shortens the
      row, and what is left to play shrinks. */
  lemma PromptKeepsEarlier(r: Round, i: int, input: seq<string>)
    requires 0 <= i < |r.row|
    ensures var r' := Prompt(r, i, input).round;
      i < |r'.row| && Remaining(r'.row, i + 1) < Remaining(r.row, i)
    ensures var r' := Prompt(r, i, input).round;
      |r'.row| >= |r.row| && r'.row[..i] == r.row[..i]
  {
    PromptShape(r, i, input);
    var row, row' := r.row, Prompt(r, i, input).round.row;
    assert row[i..][1..] == row[i + 1..];
    if |row'| == |row| {
      assert row'[i + 1..] == row[i + 1..];
    } else {
      assert row'[i + 1..][1..] == row'[i + 2..];
    }
  }

  /** `play_players` from hand `i`: prompt each hand in turn, re-reading
      the length of the row each time, so a hand inserted by a split is
      played right after the hand it came from. */
  function PlayersFrom(r: Round, i: int, input: seq<string>): Step
    requires 0 <= i <= |r.row|
    decreases Remaining(r.row, i)
  {
    if i == |r.row| then Step(r, input, Pass)
    else
      var s := Prompt(r, i, input);
      if s.outcome.Fail? then s
      else
        PromptKeepsEarlier(r, i, input);
        PlayersFrom(s.round, i + 1, s.input)
  }

  /** The players' turns keep the round's cards and its wealth. */
  lemma {:induction false} PlayersConserve(r: Round, i: int, input: seq<string>, dealerCards: seq<Card>)
    requires 0 <= i <= |r.row|
    ensures var r' := PlayersFrom(r, i, input).round;
      RoundCards(r', dealerCards) == RoundCards(r, dealerCards) && RoundWealth(r') == RoundWealth(r)
    decreases Remaining(r.row, i)
  {
    if i < |r.row| {
      var s := Prompt(r, i, input);
      PromptConserves(r, i, input, dealerCards);
      if s.outcome.Pass? {
        PromptKeepsEarlier(r, i, input);
        PlayersConserve(s.round, i + 1, s.input, dealerCards);
        assert PlayersFrom(r, i, input) == PlayersFrom(s.round, i + 1, s.input);
      }
    }
  }

  /** The players' turns from hand `i` on never touch the hands before
      it, and never shorten the row. */
  lemma {:induction false} PlayersKeepEarlier(r: Round, i: int, input: seq<string>)
    requires 0 <= i <= |r.row|
    ensures var r' := PlayersFrom(r, i, input).round;
      |r'.row| >= |r.row| && r'.row[..i] == r.row[..i]
    decreases Remaining(r.row, i)
  {
    if i < |r.row| {
      var s := Prompt(r, i, input);
      PromptKeepsEarlier(r, i, input);
      if s.outcome.Pass? {
        PlayersKeepEarlier(s.round, i + 1, s.input);
        var r2 := PlayersFrom(s.round, i + 1, s.input).round;
        assert PlayersFrom(r, i, input).round == r2;
        assert r2.row[..i] == r2.row[..i + 1][..i];
        assert s.round.row[..i] == s.round.row[..i + 1][..i];
      }
    }
  }
}
