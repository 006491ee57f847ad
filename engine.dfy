/** `Game` of blackjack.py: one round of blackjack between the dealer and
    a row of player hands, played from a shared shoe and settled against
    one bankroll. */
module Engine {
  import opened Cards
  import opened Scoring
  import opened Hands
  import opened Rules
  import opened Table
  import opened Turns

  /** The loop of `Game.__init__` that seats the players: hand `j` stakes
      `startingBets[j]` when there is one and the minimum buy otherwise, and
      each stake leaves the bankroll as the hand is made. */
  method OpenHands(handsToPlay: int, money0: real, startingBets: seq<real>, minimumBuy: real)
    returns (hs: seq<Hand>, money: real)
    ensures forall j :: 0 <= j < |hs| ==> fresh(hs[j])
    ensures forall j, k :: 0 <= j < k < |hs| ==> hs[j] != hs[k]
    ensures |hs| == |FreshRow(handsToPlay, startingBets, minimumBuy)|
    ensures forall j :: 0 <= j < |hs| ==> hs[j].State() == FreshRow(handsToPlay, startingBets, minimumBuy)[j]
    ensures money == money0 - SumOf(FreshRow(handsToPlay, startingBets, minimumBuy), StakeIn)
  {
    hs, money := [], money0;
    ScoreEmpty();
    var i := 0;
    while i < handsToPlay
      invariant 0 <= i == |hs| && (i <= handsToPlay || i == 0)
      invariant forall j :: 0 <= j < i ==> fresh(hs[j])
      invariant forall j, k :: 0 <= j < k < i ==> hs[j] != hs[k]
      invariant forall j :: 0 <= j < i ==>
        hs[j].State() == HandState([], 0, false, false, StakeOf(j, startingBets, minimumBuy), InPlay, false)
      invariant money == money0 - SumOf(FreshRow(i, startingBets, minimumBuy), StakeIn)
    {
      var h: Hand;
      if i < |startingBets| {
        h := new Hand([], startingBets[i], false);
        money := money - startingBets[i];
      } else {
        h := new Hand([], minimumBuy, false);
        money := money - minimumBuy;
      }
      FreshRowStakes(i, startingBets, minimumBuy);
      hs := hs + [h];
      i := i + 1;
    }
  }

  /** `Game(hands_to_play, total_money, minimum_buy, starting_bets,
      num_decks)`: the shoe is built first, so fewer than one deck raises
      ValueError before anything else; otherwise the players are seated,
      each stake leaving the bankroll, and the dealer's hand is empty. */
  method NewGame(handsToPlay: int, totalMoney: real, minimumBuy: real, startingBets: seq<real>, numDecks: int)
    returns (r: Result<Game>)
    ensures numDecks < 1 <==> r.Failure?
    ensures r.Failure? ==> r.error == ValueError
    ensures r.Success? ==> var g := r.value;
      fresh(g) && g.Valid() &&
      g.deck.deck == Repeat(RankMajorDeck(), numDecks) &&
      g.Row() == FreshRow(handsToPlay, startingBets, minimumBuy) &&
      g.Staked() == totalMoney && g.dealer.cards == [] && g.dealer.hideDealerCards
  {
    var shoe := NewShoe(numDecks);
    if shoe.Failure? {
      return Failure(shoe.error);
    }
    var g := new Game(handsToPlay, totalMoney, minimumBuy, startingBets, shoe.value);
    r := Success(g);
  }

  /** The hands of `hs` as values, in order. */
  ghost function StatesOf(hs: seq<Hand>): (r: seq<HandState>)
    reads set h | h in hs
    ensures |r| == |hs|
  {
    seq(|hs|, j reads set h | h in hs requires 0 <= j < |hs| => hs[j].State())
  }

  /** Inserting a hand into a list inserts its value at the same place. */
  lemma StatesOfInsert(hs: seq<Hand>, i: int, nh: Hand)
    requires 0 <= i < |hs|
    ensures StatesOf(hs[..i + 1] + [nh] + hs[i + 1..]) == StatesOf(hs)[..i + 1] + [nh.State()] + StatesOf(hs)[i + 1..]
  {
    var ins := hs[..i + 1] + [nh] + hs[i + 1..];
    assert forall j :: i + 1 < j < |ins| ==> ins[j] == hs[j - 1];
  }

  /** Inserting a new element into a list without repeats keeps it
      without repeats, and adds exactly that element. */
  lemma DistinctInsert<T>(s: seq<T>, at: int, x: T)
    requires 0 <= at < |s| && x !in s
    requires forall i, j :: 0 <= i < j < |s| ==> s[i] != s[j]
    ensures forall y :: y in s[..at + 1] + [x] + s[at + 1..] <==> y in s || y == x
    ensures var r := s[..at + 1] + [x] + s[at + 1..];
      forall i, j :: 0 <= i < j < |r| ==> r[i] != r[j]
  {
    var r := s[..at + 1] + [x] + s[at + 1..];
    assert forall k :: 0 <= k < |r| ==> r[k] == if k <= at then s[k] else if k == at + 1 then x else s[k - 1];
    assert s == s[..at + 1] + s[at + 1..];
  }

  /** `Hand([hand.popFromHand()], hand.bet)` with both hands then marked
      split: the last card of `hand` leaves it for a new hand with the same
      bet. */
  method SplitPair(hand: Hand) returns (newHand: Hand)
    requires |hand.cards| > 0
    modifies hand`cards, hand`score, hand`bust, hand`blackjack, hand`split
    ensures fresh(newHand)
    ensures var cs := old(hand.cards);
      hand.State() == SplitKept(old(hand.State())) &&
      newHand.State() == SplitOff(cs[|cs| - 1], old(hand.bet))
  {
    var card := hand.PopFromHand();
    newHand := new Hand([card], hand.bet, false);
    hand.split := true;
    newHand.split := true;
  }

  /** The round a deal that stood leaves from shoe `s` and row `row`: two
      passes over the row, each hand taking one card per pass from the top,
      then the two cards below them gone to the dealer. */
  function DealtRound(s: seq<Card>, row: seq<HandState>, money: real): Round
    requires 2 * |row| + 2 <= |s|
  {
    var n, m := |s|, |row|;
    Round(s[..n - 2 * m - 2], DealtRow(DealtRow(row, s, m), s[..n - m], m), money)
  }

  /** The dealer's two cards of that deal, the upper one first. */
  function DealerPair(s: seq<Card>, m: nat): seq<Card>
    requires 2 * m + 2 <= |s|
  {
    [s[|s| - 2 * m - 1], s[|s| - 2 * m - 2]]
  }

  /** The deal that stood keeps every card and every stake. */
  lemma DealtRoundConserves(s: seq<Card>, row: seq<HandState>, money: real, dealerCards: seq<Card>)
    requires 2 * |row| + 2 <= |s|
    ensures var r := DealtRound(s, row, money);
      PoolOf(r.shoe, dealerCards + DealerPair(s, |row|), r.row) == PoolOf(s, dealerCards, row) &&
      StakedOf(money, r.row) == StakedOf(money, row)
  {
    var r := DealtRound(s, row, money);
    DealConserves(s, dealerCards, row, money, r.shoe, dealerCards + DealerPair(s, |row|), r.row);
  }

  /** Putting back every card of a deal empties every hand and keeps
      every seat. */
  lemma DealtRoundEmptied(s: seq<Card>, row: seq<HandState>, money: real, dealtRow: seq<HandState>,
                          row': seq<HandState>)
    requires 2 * |row| + 2 <= |s| && dealtRow == DealtRound(s, row, money).row && row' == ClearedRow(dealtRow)
    ensures Emptied(row', row)
  {
    RedealKeepsSeats(row, s);
  }

  class Game {
    var dealer: Hand
    var hands: seq<Hand>
    var deck: Deck
    var totalMoney: real
    var minimumBuy: real
    var numHands: int

    /** The dealer is not one of the player hands, and no hand appears twice
        in the row. */
    ghost predicate Valid()
      reads this`dealer, this`hands
    {
      dealer !in hands &&
      forall i, j :: 0 <= i < j < |hands| ==> hands[i] != hands[j]
    }

    /** The player hands, as a set of objects. */
    ghost function Seats(): set<Hand>
      reads this`hands
    {
      set h | h in hands
    }

    /** Every player hand as a value, in row order. */
    ghost function Row(): seq<HandState>
      reads this, set h | h in hands
    {
      StatesOf(hands)
    }

    /** Every card of the round: the shoe, the dealer's and the players'. */
    ghost function Pool(): multiset<Card>
      reads this, deck, dealer, set h | h in hands
    {
      PoolOf(deck.deck, dealer.cards, Row())
    }

    /** The bankroll together with the money staked on the table. */
    ghost function Staked(): real
      reads this, set h | h in hands
    {
      StakedOf(totalMoney, Row())
    }

    /** What a player's turn can change, as one value. */
    ghost function Now(): Round
      reads this, deck, set h | h in hands
    {
      Round(deck.deck, Row(), totalMoney)
    }

    /** The table holds the deal that stood from shoe `s`, row `R` and
        dealer cards `D`, the dealer's hand scored. */
    ghost predicate DealtFrom(s: seq<Card>, R: seq<HandState>, D: seq<Card>)
      reads this, deck, dealer, set h | h in hands
    {
      2 * |R| + 2 <= |s| && Now() == DealtRound(s, R, totalMoney) &&
      dealer.cards == D + DealerPair(s, |R|) && dealer.score == Score(dealer.cards)
    }

    /** The table as `deal` leaves it once it has put a round back: every
        card of `pool` in the shoe, the dealer's hand empty on its stale 21,
        and every hand of `row` empty in its seat. */
    ghost predicate PutBack(row: seq<HandState>, pool: multiset<Card>)
      reads this, deck, dealer, set h | h in hands
    {
      dealer.score == 21 && dealer.cards == [] && Emptied(Row(), row) && multiset(deck.deck) == pool
    }

    /** `Game.__init__` once the shoe exists: one empty hand per player,
        staked from `startingBets` or the minimum buy, every stake taken out
        of the bankroll, and an empty dealer hand that hides its cards. */
    constructor (handsToPlay: int, totalMoney0: real, minimumBuy0: real, startingBets: seq<real>, shoe: Deck)
      ensures Valid() && forall j :: 0 <= j < |hands| ==> fresh(hands[j])
      ensures deck == shoe && numHands == handsToPlay && minimumBuy == minimumBuy0
      ensures Row() == FreshRow(handsToPlay, startingBets, minimumBuy0)
      ensures totalMoney == totalMoney0 - SumOf(FreshRow(handsToPlay, startingBets, minimumBuy0), StakeIn)
      ensures Staked() == totalMoney0
      ensures fresh(dealer) && dealer.State() == HandState([], 0, false, false, 0.0, InPlay, false)
      ensures dealer.hideDealerCards
    {
      var hs, money := OpenHands(handsToPlay, totalMoney0, startingBets, minimumBuy0);
      var d := new Hand([], 0.0, true);
      numHands := handsToPlay;
      deck := shoe;
      totalMoney := money;
      minimumBuy := minimumBuy0;
      hands := hs;
      dealer := d;
      new;
      assert forall j :: 0 <= j < |hands| ==> Row()[j] == hs[j].State();
    }

    /** The hand `hit` draws for: -1 is the dealer, any other number a
        position in the row. */
    function HandAt(p: int): Hand
      reads this
      requires p == -1 || 0 <= p < |hands|
    {
      if p == -1 then dealer else hands[p]
    }

    /** `h.addToHand(self.deck.draw(1))`: the top card of the shoe joins
        hand `h`, which is rescored. An empty shoe raises IndexError before
        the hand is touched. */
    method DrawInto(h: Hand) returns (o: Outcome)
      modifies deck, h`cards, h`score, h`bust, h`blackjack
      ensures o == Pass <==> |old(deck.deck)| > 0
      ensures o.Fail? ==> o.error == IndexError && deck.deck == [] && unchanged(h)
      ensures o == Pass ==>
        var n := |old(deck.deck)|;
        deck.deck == old(deck.deck)[..n - 1] &&
        h.State() == Rescored(old(h.State()), old(h.cards) + [old(deck.deck)[n - 1]])
    {
      ghost var shoe := deck.deck;
      var drawn := deck.Draw(1);
      if drawn.Failure? {
        return Fail(drawn.error);
      }
      ReversedTop(shoe);
      h.AddToHand(drawn.value);
      o := Pass;
    }

    /** `hit`: the top card of the shoe goes to the dealer (`p == -1`) or
        to hand `p`, which is rescored. An empty shoe raises IndexError and
        changes nothing. */
    method Hit(p: int) returns (o: Outcome)
      requires Valid() && (p == -1 || 0 <= p < |hands|)
      modifies deck, HandAt(p)`cards, HandAt(p)`score, HandAt(p)`bust, HandAt(p)`blackjack
      ensures o == Pass <==> |old(deck.deck)| > 0
      ensures o.Fail? ==> o.error == IndexError && deck.deck == [] && unchanged(HandAt(p)) && Row() == old(Row())
      ensures o == Pass ==> deck.deck == old(deck.deck)[..|old(deck.deck)| - 1]
      ensures o == Pass && p == -1 ==>
        dealer.State() == Rescored(old(dealer.State()), old(dealer.cards) + [old(deck.deck)[|old(deck.deck)| - 1]]) &&
        Row() == old(Row())
      ensures o == Pass && p != -1 ==>
        var s := old(Row()[p]);
        Row() == old(Row())[p := Rescored(s, s.cards + [old(deck.deck)[|old(deck.deck)| - 1]])]
    {
      ghost var row := Row();
      o := DrawInto(HandAt(p));
      if p != -1 && o == Pass {
        assert Row() == row[p := hands[p].State()];
      } else {
        assert Row() == row;
      }
    }

    /** The body of `deal`'s inner loop: hand `k` takes the top card. */
    method DealTo(k: int) returns (o: Outcome)
      requires Valid() && 0 <= k < |hands|
      modifies deck, HandAt(k)`cards, HandAt(k)`score, HandAt(k)`bust, HandAt(k)`blackjack
      ensures o == Pass <==> |old(deck.deck)| > 0
      ensures o.Fail? ==> o.error == IndexError && deck.deck == []
      ensures o == Pass ==>
        var s := old(Row()[k]);
        deck.deck == old(deck.deck)[..|old(deck.deck)| - 1] &&
        Row() == old(Row())[k := Rescored(s, s.cards + [old(deck.deck)[|old(deck.deck)| - 1]])]
    {
      ghost var row := Row();
      o := DrawInto(HandAt(k));
      if o == Pass {
        assert Row() == row[k := hands[k].State()];
      }
    }

    /** One `for h in self.hands` pass of `deal`: each hand in row order
        takes the next card off the top of the shoe. */
    method DealRound() returns (o: Outcome)
      requires Valid()
      modifies deck, hands
      ensures o == Pass <==> |hands| <= |old(deck.deck)|
      ensures o.Fail? ==> o.error == IndexError
      ensures o == Pass ==>
        var n := |old(deck.deck)|;
        deck.deck == old(deck.deck)[..n - |hands|] &&
        Row() == DealtRow(old(Row()), old(deck.deck), |hands|)
    {
      ghost var n, row, shoe := |deck.deck|, Row(), deck.deck;
      var k := 0;
      while k < |hands|
        invariant 0 <= k <= |hands| && k <= n
        invariant deck.deck == shoe[..n - k]
        invariant Row() == DealtRow(row, shoe, k)
      {
        o := DealTo(k);
        if o.Fail? {
          return;
        }
        TakeLast(shoe, n - k);
        DealtRowNext(row, shoe, k);
        k := k + 1;
      }
      o := Pass;
    }
 
    /** Option 1 of `actionPrompt`: hit hand `i` until it busts or the
        player answers "2" to "1. Hit | 2. Stay". */
    method PlayHits(i: int, input: seq<string>) returns (o: Outcome, rest: seq<string>)
      requires Valid() && 0 <= i < |hands|
      modifies deck, HandAt(i)`cards, HandAt(i)`score, HandAt(i)`bust, HandAt(i)`blackjack
      ensures Step(Now(), rest, o) == HitLoop(old(Now()), i, input)
    {
      ghost var goal := HitLoop(Now(), i, input);
      rest := input;
      var answer := "1";
      o := Pass;
      while answer == "1"
        invariant answer == "1" ==> HitLoop(Now(), i, rest) == goal
        invariant answer != "1" ==> Step(Now(), rest, Pass) == goal && o == Pass
        decreases |rest| + if answer == "1" then 1 else 0
      {
        ghost var r0 := Now();
        o := Hit(i);
        assert (Now(), o) == HitHand(r0, i);
        if o.Fail? {
          return;
        }
        assert Now().row[i] == hands[i].State();
        if hands[i].bust {
          return;
        }
        var w := WaitForInput(rest, ["1", "2"]);
        if w.Failure? {
          return Fail(w.error), [];
        }
        answer, rest := w.value.0, w.value.1;
      }
    }

    /** Option 3 of `actionPrompt`: pay a second stake, double the bet,
        hit once. */
    method PlayDouble(i: int) returns (o: Outcome)
      requires Valid() && 0 <= i < |hands|
      modifies this`totalMoney, deck, HandAt(i)`bet, HandAt(i)`cards, HandAt(i)`score, HandAt(i)`bust, HandAt(i)`blackjack
      ensures (Now(), o) == Turns.DoubleDown(old(Now()), i)
    {
      ghost var r0 := Now();
      var hand := hands[i];
      totalMoney := totalMoney - hand.bet;
      hand.bet := hand.bet + hand.bet;
      assert Row() == r0.row[i := hand.State()];
      assert Now() == RaiseStake(r0, i, r0.row[i].bet);
      o := Hit(i);
    }

    /** Places `newHand`, a hand not yet on the table, right after hand `i`. */
    method InsertHand(i: int, newHand: Hand)
      requires Valid() && 0 <= i < |hands| && newHand !in hands && newHand != dealer
      modifies this`hands
      ensures Valid() && hands == old(hands)[..i + 1] + [newHand] + old(hands)[i + 1..]
      ensures forall h :: h in hands <==> h in old(hands) || h == newHand
      ensures Row() == old(Row())[..i + 1] + [newHand.State()] + old(Row())[i + 1..]
    {
      StatesOfInsert(hands, i, newHand);
      DistinctInsert(hands, i, newHand);
      hands := InsertAfter(hands, i, newHand);
    }

    /** Option 4 of `actionPrompt`: pay a second stake and move the last
        card of hand `i` into a new hand with the same bet, inserted right
        after it; both hands are marked split. */
    method PlaySplit(i: int)
      requires Valid() && 0 <= i < |hands| && |hands[i].cards| > 0
      modifies this`totalMoney, this`hands, HandAt(i)`cards, HandAt(i)`score, HandAt(i)`bust, HandAt(i)`blackjack, HandAt(i)`split
      ensures Valid() && Now() == SplitHand(old(Now()), i)
      ensures hands == old(hands)[..i + 1] + [hands[i + 1]] + old(hands)[i + 1..] && fresh(hands[i + 1])
      ensures forall h :: h in hands ==> h in old(hands) || fresh(h)
    {
      ghost var r0 := Now();
      var hand := hands[i];
      ghost var s0 := hand.State();
      assert s0 == r0.row[i];
      totalMoney := totalMoney - hand.bet;
      var newHand := SplitPair(hand);
      assert Row() == r0.row[i := hand.State()];
      InsertHand(i, newHand);
      SplitRowAsInsert(r0.row, i);
      assert Row() == SplitRow(r0.row, i);
    }

    /** `actionPrompt(hand_i)`: a blackjack is left alone; a split ace
        takes exactly one card; any other hand goes to the menu. */
    method ActionPrompt(i: int, input: seq<string>) returns (o: Outcome, rest: seq<string>)
      requires Valid() && 0 <= i < |hands|
      modifies this`totalMoney, this`hands, deck, set h | h in hands
      ensures Valid() && Step(Now(), rest, o) == Prompt(old(Now()), i, input)
      ensures forall h :: h in hands ==> h in old(hands) || fresh(h)
      decreases if hands[i].split then 0 else 1, 2
    {
      ghost var r0 := Now();
      var hand := hands[i];
      assert hand.State() == r0.row[i];
      if hand.blackjack {
        return Pass, input;
      }
      if hand.split && |hand.cards| == 0 {
        return Fail(IndexError), input;
      }
      if hand.split && hand.cards[0].number == 1 {
        o := Hit(i);
        rest := input;
        assert (Now(), o) == HitHand(r0, i);
        return;
      }
      o, rest := ActionMenu(i, input);
    }

    /** The menu of `actionPrompt`: the actions `Hit`, `Stay` and, on an
        unsplit pair the bankroll can cover, `Double` and `Split` are
        offered, and the answer read decides the play. After a split the
        same hand is prompted again. */
    method ActionMenu(i: int, input: seq<string>) returns (o: Outcome, rest: seq<string>)
      requires Valid() && 0 <= i < |hands|
      requires var h := hands[i]; !h.blackjack && !(h.split && (h.cards == [] || h.cards[0].number == 1))
      modifies this`totalMoney, this`hands, deck, set h | h in hands
      ensures Valid() && Step(Now(), rest, o) == Prompt(old(Now()), i, input)
      ensures forall h :: h in hands ==> h in old(hands) || fresh(h)
      decreases if hands[i].split then 0 else 1, 1
    {
      ghost var r0 := Now();
      var hand := hands[i];
      assert hand.State() == r0.row[i];
      var actions := OfferedActions(hand.cards, hand.split, totalMoney, hand.bet);
      var w := WaitForInput(input, ResponseTokens(|actions|));
      if w.Failure? {
        return Fail(w.error), [];
      }
      var answer := w.value.0;
      rest := w.value.1;
      ChosenAnswer(actions, answer);
      if answer == "1" {
        assert Prompt(r0, i, input) == HitLoop(r0, i, rest);
        o, rest := PlayHits(i, rest);
      } else if answer == "2" {
        o := Pass;
      } else if answer == "3" {
        assert Prompt(r0, i, input) == var (r1, o1) := DoubleDown(r0, i); Step(r1, rest, o1);
        o := PlayDouble(i);
      } else {
        assert Prompt(r0, i, input) == Prompt(SplitHand(r0, i), i, rest);
        o, rest := SplitAndPrompt(i, rest);
      }
    }

    /** Option 4 of `actionPrompt` followed by the prompt for the same
        hand, now split. */
    method SplitAndPrompt(i: int, input: seq<string>) returns (o: Outcome, rest: seq<string>)
      requires Valid() && 0 <= i < |hands| && |hands[i].cards| > 0 && !hands[i].split
      modifies this`totalMoney, this`hands, deck, set h | h in hands
      ensures Valid() && Step(Now(), rest, o) == Prompt(SplitHand(old(Now()), i), i, input)
      ensures forall h :: h in hands ==> h in old(hands) || fresh(h)
      decreases 1, 0
    {
      PlaySplit(i);
      o, rest := ActionPrompt(i, input);
    }

    /** `play_players`: prompt hand 0, 1, ... in turn, re-reading the
        length of the row each time so that hands added by a split are
        played too. An exception stops the round. */
    method PlayPlayers(input: seq<string>) returns (o: Outcome, rest: seq<string>)
      requires Valid()
      modifies this`totalMoney, this`hands, deck, set h | h in hands
      ensures Valid() && Step(Now(), rest, o) == PlayersFrom(old(Now()), 0, input)
      ensures fresh(Seats() - old(Seats()))
    {
      ghost var goal := PlayersFrom(Now(), 0, input);
      var i := 0;
      rest := input;
      while i < |hands|
        invariant Valid() && 0 <= i <= |hands|
        invariant PlayersFrom(Now(), i, rest) == goal
        invariant fresh(Seats() - old(Seats()))
        decreases Remaining(Row(), i)
      {
        o, rest := PromptNext(i, rest, goal);
        if o.Fail? {
          return;
        }
        i := i + 1;
      }
      o := Pass;
    }

    /** One pass of the loop of `play_players`: hand `i` is prompted, and
        the rest of the players' turns go on from the next hand. */
    method PromptNext(i: int, input: seq<string>, ghost goal: Step) returns (o: Outcome, rest: seq<string>)
      requires Valid() && 0 <= i < |hands|
      requires PlayersFrom(Now(), i, input) == goal
      modifies this`totalMoney, this`hands, deck, set h | h in hands
      ensures Valid() && fresh(Seats() - old(Seats()))
      ensures i < |hands| && Remaining(Row(), i + 1) < old(Remaining(Row(), i))
      ensures o.Fail? ==> Step(Now(), rest, o) == goal
      ensures o.Pass? ==> PlayersFrom(Now(), i + 1, rest) == goal
    {
      ghost var r0 := Now();
      o, rest := ActionPrompt(i, input);
      PromptKeepsEarlier(r0, i, input);
    }

    /** `begin_game`: shuffle the shoe, deal, play the players' hands, then
        the dealer's, and settle. The source deals until the dealer's first
        two cards are not 21; here deals are made until one stands or
        `attempts` run out, `tries` counts them and `dealt` says whether
        one stood. The deal that stood started from
        shoe `s`, row `R` and dealer cards `D` (the shuffled shoe and the
        game's own hands on the first try) and left the dealer's hand as
        `dealtDealer`; the players' turns are then played from the round it
        dealt, the dealer's turn from what they left in the shoe, and every
        hand is settled against the dealer. An exception ends the round
        where it is raised. */
    method BeginGame(input: seq<string>, attempts: nat)
      returns (o: Outcome, dealt: bool, rest: seq<string>, ghost s: seq<Card>, ghost R: seq<HandState>,
               ghost D: seq<Card>, ghost tries: nat, ghost dealtDealer: HandState)
      requires Valid()
      modifies this`totalMoney, this`hands, deck, dealer`hideDealerCards, dealer`cards, dealer`score,
        dealer`bust, dealer`blackjack, set h | h in hands
      ensures Valid()
      ensures !dealt ==> rest == input && (o.Fail? ==> o.error == IndexError)
      ensures 2 * |old(hands)| + 2 <= |old(deck.deck)| ==> (o.Fail? ==> dealt)
      ensures attempts == 0 ==>
        o == Pass && !dealt && Row() == old(Row()) && dealer.cards == old(dealer.cards) &&
        multiset(deck.deck) == multiset(old(deck.deck))
      ensures tries <= attempts && (dealt ==> 1 <= tries)
      ensures o == Pass && !dealt ==> tries == attempts
      ensures o == Pass && !dealt && attempts > 0 ==> PutBack(old(Row()), old(Pool()))
      ensures dealt ==>
        2 * |R| + 2 <= |s| && |R| == |old(Row())| &&
        dealtDealer.cards == D + DealerPair(s, |R|) && dealtDealer.score == Score(dealtDealer.cards) &&
        dealtDealer.score != 21 && (dealtDealer.bust <==> old(dealer.bust) || dealtDealer.score > 21)
      ensures dealt && tries == 1 ==>
        multiset(s) == multiset(old(deck.deck)) && R == old(Row()) && D == old(dealer.cards) &&
        dealtDealer == Rescored(old(dealer.State()), dealtDealer.cards)
      ensures dealt && tries > 1 ==> D == [] && Emptied(R, old(Row())) && multiset(s) == old(Pool())
      ensures dealt ==>
        var p := PlayersFrom(DealtRound(s, R, old(totalMoney)), 0, input);
        p.outcome.Fail? ==> o == p.outcome && rest == p.input && Now() == p.round
      ensures dealt ==>
        var p := PlayersFrom(DealtRound(s, R, old(totalMoney)), 0, input);
        var d := DealerTurn(dealtDealer, p.round.shoe);
        p.outcome == Pass ==> (o == Pass <==> d.2) && rest == p.input && dealer.State() == d.0 && deck.deck == d.1
      ensures dealt && o == Pass ==>
        var p := PlayersFrom(DealtRound(s, R, old(totalMoney)), 0, input);
        Row() == SettledRow(p.round.row, dealer.bust, dealer.score) &&
        totalMoney == p.round.money + SumOf(Row(), PayoutIn)
      ensures o == Pass && dealt ==> Pool() == old(Pool()) && Staked() == old(Staked()) + SumOf(Row(), PayoutIn)
      ensures o == Pass && dealt ==> !dealer.hideDealerCards && dealer.score >= DealerStandThreshold
    {
      rest := input;
      o, dealt, s, R, D, tries := ShuffleAndDeal(attempts);
      dealtDealer := dealer.State();
      if o.Fail? || !dealt {
        return;
      }
      o, rest := PlayRound(input);
    }

    /** The opening of `begin_game`: shuffle the shoe, then `deal`. The
        facts of `Deal`, stated against the table before the shuffle. */
    method ShuffleAndDeal(attempts: nat)
      returns (o: Outcome, dealt: bool, ghost s: seq<Card>, ghost R: seq<HandState>, ghost D: seq<Card>,
               ghost tries: nat)
      requires Valid()
      modifies deck, dealer`cards, dealer`score, dealer`bust, dealer`blackjack, set h | h in hands
      ensures o.Fail? ==> o.error == IndexError && !dealt
      ensures 2 * |hands| + 2 <= |old(deck.deck)| ==> o == Pass
      ensures tries <= attempts && (dealt ==> 1 <= tries)
      ensures o == Pass && !dealt ==> tries == attempts
      ensures o == Pass ==> Pool() == old(Pool()) && Staked() == old(Staked())
      ensures attempts == 0 ==>
        o == Pass && !dealt && Row() == old(Row()) && dealer.cards == old(dealer.cards) &&
        multiset(deck.deck) == multiset(old(deck.deck))
      ensures o == Pass && !dealt && attempts > 0 ==> PutBack(old(Row()), old(Pool()))
      ensures dealt ==>
        DealtFrom(s, R, D) && |R| == |old(Row())| && dealer.score != 21 &&
        (dealer.bust <==> old(dealer.bust) || dealer.score > 21)
      ensures dealt && tries == 1 ==>
        multiset(s) == multiset(old(deck.deck)) && R == old(Row()) && D == old(dealer.cards) &&
        dealer.State() == Rescored(old(dealer.State()), dealer.cards)
      ensures dealt && tries > 1 ==> D == [] && Emptied(R, old(Row())) && multiset(s) == old(Pool())
    {
      deck.ShuffleDeck();
      assert Row() == old(Row()) && dealer.State() == old(dealer.State());
      assert Pool() == old(Pool()) && Staked() == old(Staked());
      o, dealt, s, R, D, tries := Deal(attempts);
    }

    /** The round once dealt: the players' turns, then `play_dealer`. The
        players play from the dealt round; when none of them raised, the
        dealer plays from the shoe they left, and when the dealer's turn
        completed too every hand is settled against the dealer. */
    method PlayRound(input: seq<string>) returns (o: Outcome, rest: seq<string>)
      requires Valid()
      modifies this`totalMoney, this`hands, deck, dealer`hideDealerCards, dealer`cards, dealer`score,
        dealer`bust, dealer`blackjack, set h | h in hands
      ensures Valid()
      ensures var p := PlayersFrom(old(Now()), 0, input);
        p.outcome.Fail? ==> o == p.outcome && rest == p.input && Now() == p.round
      ensures var p := PlayersFrom(old(Now()), 0, input);
        var d := DealerTurn(old(dealer.State()), p.round.shoe);
        p.outcome == Pass ==> (o == Pass <==> d.2) && rest == p.input && dealer.State() == d.0 && deck.deck == d.1
      ensures var p := PlayersFrom(old(Now()), 0, input);
        o == Pass ==>
          Row() == SettledRow(p.round.row, dealer.bust, dealer.score) &&
          totalMoney == p.round.money + SumOf(Row(), PayoutIn)
      ensures o == Pass ==> Pool() == old(Pool()) && Staked() == old(Staked()) + SumOf(Row(), PayoutIn)
      ensures o == Pass ==> !dealer.hideDealerCards && dealer.score >= DealerStandThreshold
      ensures o == Pass ==> forall j :: 0 <= j < |Row()| ==> Row()[j].status != InPlay
    {
      o, rest := PlayersTurns(input);
      if o.Fail? {
        return;
      }
      ghost var money1 := totalMoney;
      o := PlayDealer();
    }

    /** `play_players` seen from the whole table: the players' turns as
        `PlayersFrom` plays them and, whatever the players choose and even
        when a turn is cut short, no card leaves the table and the bankroll
        together with the stakes stays the same. */
    method PlayersTurns(input: seq<string>) returns (o: Outcome, rest: seq<string>)
      requires Valid()
      modifies this`totalMoney, this`hands, deck, set h | h in hands
      ensures Valid() && fresh(Seats() - old(Seats()))
      ensures Step(Now(), rest, o) == PlayersFrom(old(Now()), 0, input)
      ensures Pool() == old(Pool()) && Staked() == old(Staked())
    {
      ghost var r0, dc := Now(), dealer.cards;
      o, rest := PlayPlayers(input);
      PlayersConserve(r0, 0, input, dc);
    }

    /** The drawing half of `play_dealer`: the hidden card is shown, then
        the dealer hits from the top of the shoe while below 17. An empty
        shoe raises IndexError and ends the turn. */
    method DealerDraws() returns (o: Outcome)
      requires Valid()
      modifies dealer`hideDealerCards, deck, dealer`cards, dealer`score, dealer`bust, dealer`blackjack
      ensures !dealer.hideDealerCards && Row() == old(Row())
      ensures var r := DealerTurn(old(dealer.State()), old(deck.deck));
        dealer.State() == r.0 && deck.deck == r.1 && (o == Pass <==> r.2)
      ensures o.Fail? ==> o.error == IndexError
      ensures o == Pass ==> dealer.score >= DealerStandThreshold
    {
      dealer.hideDealerCards := false;
      ghost var goal := DealerTurn(dealer.State(), deck.deck);
      o := Pass;
      while dealer.score < DealerStandThreshold
        invariant Valid() && Row() == old(Row()) && !dealer.hideDealerCards
        invariant DealerTurn(dealer.State(), deck.deck) == goal
        invariant o == Pass
        decreases |deck.deck|
      {
        o := Hit(-1);
        if o.Fail? {
          return;
        }
      }
    }

    /** `play_dealer`: the dealer's turn, then, when it was not cut short,
        every hand settled against the dealer. No card leaves the table,
        and the bankroll and the stakes grow by exactly what the hands are
        paid. */
    method PlayDealer() returns (o: Outcome)
      requires Valid()
      modifies this`totalMoney, dealer`hideDealerCards, deck, dealer`cards, dealer`score, dealer`bust,
        dealer`blackjack, set h | h in hands
      ensures o.Fail? ==> o.error == IndexError
      ensures o == Pass ==> !dealer.hideDealerCards && dealer.score >= DealerStandThreshold
      ensures var r := DealerTurn(old(dealer.State()), old(deck.deck));
        dealer.State() == r.0 && deck.deck == r.1 && (o == Pass <==> r.2)
      ensures o == Pass ==>
        Row() == SettledRow(old(Row()), dealer.bust, dealer.score) &&
        totalMoney == old(totalMoney) + SumOf(Row(), PayoutIn)
      ensures o == Pass ==> Pool() == old(Pool()) && Staked() == old(Staked()) + SumOf(Row(), PayoutIn)
      ensures o == Pass ==> forall j :: 0 <= j < |Row()| ==> Row()[j].status != InPlay
    {
      ghost var d0, shoe0, row0, money0 := dealer.State(), deck.deck, Row(), totalMoney;
      o := DealerDraws();
      if o.Fail? {
        return;
      }
      DealerTurnConserves(d0, shoe0, row0);
      ghost var shoe1, d1 := deck.deck, dealer.cards;
      Settle();
      SettleConserves(shoe1, d1, row0, dealer.bust, dealer.score);
    }

    /** The settling half of `play_dealer`: every hand in row order is
        finished against the dealer, and the bankroll collects the stake
        back on a push, twice it on a win and two and a half times it on a
        blackjack win. */
    method Settle()
      requires Valid()
      modifies this`totalMoney, set h | h in hands
      ensures Row() == SettledRow(old(Row()), dealer.bust, dealer.score)
      ensures totalMoney == old(totalMoney) + SumOf(Row(), PayoutIn)
    {
      ghost var row0, money0 := Row(), totalMoney;
      var k := 0;
      while k < |hands|
        invariant 0 <= k <= |hands| == |row0|
        invariant Row() == SettledFirst(row0, dealer.bust, dealer.score, k)
        invariant totalMoney == money0 + SumOf(Row()[..k], PayoutIn)
      {
        SettleNext(k, row0, money0);
        k := k + 1;
      }
      SettledFirstAll(row0, dealer.bust, dealer.score);
      assert Row()[..k] == Row();
    }

    /** One pass of the settling loop, stated over the hands settled so
        far. */
    method SettleNext(k: int, ghost row0: seq<HandState>, ghost money0: real)
      requires Valid() && 0 <= k < |hands| == |row0|
      requires Row() == SettledFirst(row0, dealer.bust, dealer.score, k)
      requires totalMoney == money0 + SumOf(Row()[..k], PayoutIn)
      modifies this`totalMoney, HandAt(k)`status
      ensures Row() == SettledFirst(row0, dealer.bust, dealer.score, k + 1)
      ensures totalMoney == money0 + SumOf(Row()[..k + 1], PayoutIn)
    {
      ghost var prev := Row();
      SettleHand(k);
      SettledFirstNext(row0, dealer.bust, dealer.score, k);
      assert Row()[..k + 1][..k] == prev[..k];
    }

    /** One pass of the settling loop: hand `k` is finished against the
        dealer and the bankroll collects what it pays. */
    method SettleHand(k: int)
      requires Valid() && 0 <= k < |hands|
      modifies this`totalMoney, HandAt(k)`status
      ensures var s := old(Row()[k]);
        Row() == old(Row())[k := s.(status := Hands.Outcome(s.bust, s.score, dealer.bust, dealer.score))]
      ensures totalMoney == old(totalMoney) + PayoutIn(Row()[k])
    {
      ghost var row := Row();
      var h := hands[k];
      h.FinishHand(dealer);
      if h.status == Push {
        totalMoney := totalMoney + h.bet;
      } else if h.status == Win {
        if h.blackjack {
          totalMoney := totalMoney + h.bet * 2.5;
        } else {
          totalMoney := totalMoney + h.bet * 2.0;
        }
      }
      assert Row() == row[k := h.State()];
    }

    /** `resetDeck`: the cards of every hand in row order, then the
        dealer's, go back under the shoe and leave their hands, and the
        shoe is shuffled. Scores and flags are not recomputed. */
    method ResetDeck()
      requires Valid()
      modifies deck, dealer`cards, set h | h in hands
      ensures multiset(deck.deck) == multiset(old(deck.deck) + Gathered(old(Row())) + old(dealer.cards))
      ensures Row() == ClearedRow(old(Row())) && dealer.cards == []
    {
      ReturnHands();
      var returned := deck.ReturnToDeck(dealer.cards);
      dealer.cards := [];
      deck.ShuffleDeck();
    }

    /** The loop of `resetDeck` over the hands. */
    method ReturnHands()
      requires Valid()
      modifies deck, set h | h in hands
      ensures deck.deck == old(deck.deck) + Gathered(old(Row()))
      ensures Row() == ClearedRow(old(Row()))
    {
      ghost var row0, shoe0 := Row(), deck.deck;
      var k := 0;
      while k < |hands|
        invariant 0 <= k <= |hands| == |row0|
        invariant deck.deck == shoe0 + Gathered(row0[..k])
        invariant Row() == ClearedFirst(row0, k)
      {
        ReturnHand(k);
        ClearedFirstNext(row0, k);
        k := k + 1;
      }
      ClearedFirstAll(row0);
    }

    /** One pass of `resetDeck`'s loop: hand `k`'s cards go back under the
        shoe and the hand is emptied. */
    method ReturnHand(k: int)
      requires Valid() && 0 <= k < |hands|
      modifies deck, HandAt(k)`cards
      ensures deck.deck == old(deck.deck) + old(Row()[k].cards)
      ensures Row() == old(Row())[k := old(Row()[k]).(cards := [])]
    {
      ghost var row := Row();
      var h := hands[k];
      var returned := deck.ReturnToDeck(h.cards);
      h.cards := [];
      assert Row() == row[k := h.State()];
    }

    /** One attempt of `deal`: two passes over the row, each hand taking
        one card per pass, then two cards at once for the dealer. An empty
        shoe raises IndexError part way. */
    method DealOnce() returns (o: Outcome)
      requires Valid()
      modifies deck, dealer`cards, dealer`score, dealer`bust, dealer`blackjack, hands
      ensures o == Pass <==> 2 * |hands| + 2 <= |old(deck.deck)|
      ensures o.Fail? ==> o.error == IndexError
      ensures o == Pass ==>
        Now() == DealtRound(old(deck.deck), old(Row()), totalMoney) &&
        dealer.cards == old(dealer.cards) + DealerPair(old(deck.deck), |hands|) &&
        dealer.State() == Rescored(old(dealer.State()), dealer.cards)
    {
      ghost var shoe0, n, m := deck.deck, |deck.deck|, |hands|;
      o := DealPasses();
      if o.Fail? {
        return;
      }
      o := DealerTakesTwo();
      if o == Pass {
        PrefixSlices(shoe0, n - m, n - 2 * m, n - 2 * m - 2);
      }
    }

    /** One attempt of `deal` seen from the whole table: the round
        `DealOnce` deals, and, when every card could be drawn, no card and
        no money left or joined the table. */
    method DealAttempt() returns (o: Outcome)
      requires Valid()
      modifies deck, dealer`cards, dealer`score, dealer`bust, dealer`blackjack, hands
      ensures o == Pass <==> 2 * |hands| + 2 <= |old(deck.deck)|
      ensures o.Fail? ==> o.error == IndexError
      ensures o == Pass ==>
        DealtFrom(old(deck.deck), old(Row()), old(dealer.cards)) &&
        dealer.State() == Rescored(old(dealer.State()), dealer.cards)
      ensures o == Pass ==> Pool() == old(Pool()) && Staked() == old(Staked())
    {
      ghost var shoe0, d0, row0 := deck.deck, dealer.cards, Row();
      o := DealOnce();
      if o == Pass {
        DealtRoundConserves(shoe0, row0, totalMoney, d0);
      }
    }

    /** The two passes over the row of `deal`. */
    method DealPasses() returns (o: Outcome)
      requires Valid()
      modifies deck, hands
      ensures o == Pass <==> 2 * |hands| <= |old(deck.deck)|
      ensures o.Fail? ==> o.error == IndexError
      ensures o == Pass ==>
        var n, m := |old(deck.deck)|, |hands|;
        deck.deck == old(deck.deck)[..n - 2 * m] &&
        Row() == DealtRow(DealtRow(old(Row()), old(deck.deck), m), old(deck.deck)[..n - m], m)
    {
      ghost var shoe0, row0, n, m := deck.deck, Row(), |deck.deck|, |hands|;
      o := DealRound();
      if o.Fail? {
        return;
      }
      o := DealRound();
      if o == Pass {
        PrefixSlices(shoe0, n - m, n - 2 * m, n - 2 * m);
      }
    }

    /** `self.dealer.addToHand(self.deck.draw(2))`: the top card, then the
        one below it, join the dealer's hand. */
    method DealerTakesTwo() returns (o: Outcome)
      requires Valid()
      modifies deck, dealer`cards, dealer`score, dealer`bust, dealer`blackjack
      ensures Row() == old(Row())
      ensures o == Pass <==> 2 <= |old(deck.deck)|
      ensures o.Fail? ==> o.error == IndexError
      ensures o == Pass ==>
        var s, n := old(deck.deck), |old(deck.deck)|;
        deck.deck == s[..n - 2] &&
        dealer.State() == Rescored(old(dealer.State()), old(dealer.cards) + [s[n - 1], s[n - 2]])
    {
      ghost var shoe := deck.deck;
      var drawn := deck.Draw(2);
      if drawn.Failure? {
        return Fail(drawn.error);
      }
      ReversedTopTwo(shoe);
      dealer.AddToHand(drawn.value);
      o := Pass;
    }

    /** `deal`: deal a round and, while the dealer's first two cards make
        21, return every card to the shoe, shuffle and deal again. The
        source retries without bound; here deals are made until one stands
        or `attempts` run out, `tries` counts them, and `dealt` says
        whether one stood. The deal that stood started from shoe `s`, row
        `R` and dealer cards `D`: the game's own on the first try, and
        after a redeal the whole shoe, empty hands in the same seats and an
        empty dealer. The dealer's bust flag is never lowered, and a deal
        raises it only on a score over 21. */
    method Deal(attempts: nat) returns (o: Outcome, dealt: bool, ghost s: seq<Card>, ghost R: seq<HandState>,
                                        ghost D: seq<Card>, ghost tries: nat)
      requires Valid()
      modifies deck, dealer`cards, dealer`score, dealer`bust, dealer`blackjack, set h | h in hands
      ensures o.Fail? ==> o.error == IndexError && !dealt
      ensures 2 * |hands| + 2 <= |old(deck.deck)| ==> o == Pass
      ensures tries <= attempts
      ensures o == Pass && !dealt ==> tries == attempts
      ensures dealt || o.Fail? ==> 1 <= tries
      ensures o == Pass ==> Pool() == old(Pool()) && Staked() == old(Staked())
      ensures attempts == 0 ==>
        o == Pass && !dealt && deck.deck == old(deck.deck) && Row() == old(Row()) && dealer.cards == old(dealer.cards)
      ensures o == Pass && attempts > 0 ==> (dealt <==> dealer.score != 21)
      ensures o == Pass && attempts > 0 && !dealt ==> PutBack(old(Row()), old(Pool()))
      ensures o == Pass && !dealt ==> dealer.bust == old(dealer.bust)
      ensures dealt ==> DealtFrom(s, R, D) && (dealer.bust <==> old(dealer.bust) || dealer.score > 21)
      ensures dealt && tries == 1 ==>
        s == old(deck.deck) && R == old(Row()) && D == old(dealer.cards) &&
        dealer.State() == Rescored(old(dealer.State()), dealer.cards)
      ensures dealt && tries > 1 ==> D == [] && Emptied(R, old(Row())) && multiset(s) == old(Pool())
    {
      ghost var pool0, staked0, n0, row0 := Pool(), Staked(), |deck.deck|, Row();
      PoolCoversShoe(deck.deck, dealer.cards, Row());
      dealt, o := false, Pass;
      s, R, D, tries := deck.deck, Row(), dealer.cards, 0;
      var k := 0;
      while !dealt && k < attempts
        invariant o == Pass && 0 <= k <= attempts && tries == k
        invariant Pool() == pool0 && Staked() == staked0
        invariant k == 0 ==> !dealt && deck.deck == old(deck.deck) && Row() == row0 && dealer.State() == old(dealer.State())
        invariant k > 0 && !dealt ==> PutBack(row0, pool0)
        invariant !dealt ==> dealer.bust == old(dealer.bust)
        invariant dealt ==> DealtFrom(s, R, D) && dealer.score != 21
        invariant dealt ==> (dealer.bust <==> old(dealer.bust) || dealer.score > 21)
        invariant dealt && k == 1 ==>
          s == old(deck.deck) && R == row0 && D == old(dealer.cards) &&
          dealer.State() == Rescored(old(dealer.State()), dealer.cards)
        invariant dealt && k > 1 ==> D == [] && Emptied(R, row0) && multiset(s) == pool0
      {
        tries := k + 1;
        o, dealt, s, R, D := DealStep(k == 0, row0, pool0);
        if o.Fail? {
          return;
        }
        k := k + 1;
      }
    }

    /** One pass of the loop of `deal`, from the table `deal` was called on
        (`first`) or from one where a round was put back: deal from shoe
        `s`, row `R` and dealer cards `D`, and put the round back when the
        dealer's first two cards make 21. */
    method DealStep(ghost first: bool, ghost row0: seq<HandState>, ghost pool0: multiset<Card>)
      returns (o: Outcome, dealt: bool, ghost s: seq<Card>, ghost R: seq<HandState>, ghost D: seq<Card>)
      requires Valid() && Pool() == pool0
      requires first ==> Row() == row0
      requires !first ==> PutBack(row0, pool0)
      modifies deck, dealer`cards, dealer`score, dealer`bust, dealer`blackjack, set h | h in hands
      ensures s == old(deck.deck) && R == old(Row()) && D == old(dealer.cards)
      ensures !first ==> D == [] && Emptied(R, row0) && multiset(s) == pool0
      ensures o == Pass <==> 2 * |R| + 2 <= |s|
      ensures o.Fail? ==> o.error == IndexError && !dealt
      ensures o == Pass ==> Pool() == pool0 && Staked() == old(Staked()) && (dealt <==> dealer.score != 21)
      ensures o == Pass && !dealt ==> PutBack(row0, pool0) && dealer.bust == old(dealer.bust)
      ensures dealt ==> DealtFrom(s, R, D) && dealer.State() == Rescored(old(dealer.State()), dealer.cards)
    {
      s, R, D := deck.deck, Row(), dealer.cards;
      o := DealAttempt();
      if o.Fail? {
        return o, false, s, R, D;
      }
      dealt := ResetOn21(s, R, D, row0);
    }

    /** The test closing each pass of the loop of `deal`, after a deal
        from `shoe0`, `row` and `dealerCards`: a deal that gave the dealer
        21 is put back with `resetDeck`, any other stands untouched. The
        seats are those of `row0`, the row the first deal started from. */
    method ResetOn21(ghost shoe0: seq<Card>, ghost row: seq<HandState>, ghost dealerCards: seq<Card>,
                     ghost row0: seq<HandState>) returns (stood: bool)
      requires Valid() && DealtFrom(shoe0, row, dealerCards) && (row == row0 || Emptied(row, row0))
      modifies deck, dealer`cards, set h | h in hands
      ensures stood <==> dealer.score != 21
      ensures dealer.score == old(dealer.score) && dealer.bust == old(dealer.bust)
      ensures stood ==> DealtFrom(shoe0, row, dealerCards) && dealer.State() == old(dealer.State())
      ensures !stood ==> PutBack(row0, old(Pool())) && Pool() == old(Pool()) && Staked() == old(Staked())
    {
      stood := dealer.score != 21;
      if !stood {
        Redeal(shoe0, row);
        EmptiedAgain(Row(), row, row0);
      }
    }

    /** The reset after a deal from `shoe0` and `row0` that gave the
        dealer 21: every hand emptied in its seat, and every card back in
        the shoe. */
    method Redeal(ghost shoe0: seq<Card>, ghost row0: seq<HandState>)
      requires Valid() && 2 * |row0| + 2 <= |shoe0| && Row() == DealtRound(shoe0, row0, totalMoney).row
      modifies deck, dealer`cards, set h | h in hands
      ensures dealer.cards == [] && Emptied(Row(), row0)
      ensures multiset(deck.deck) == old(Pool()) && Pool() == old(Pool()) && Staked() == old(Staked())
    {
      ghost var dealtRow := Row();
      ResetAll();
      DealtRoundEmptied(shoe0, row0, totalMoney, dealtRow, Row());
    }

    /** `resetDeck` seen from the whole table: every card goes back into
        the shoe, and the stakes stay where they were. */
    method ResetAll()
      requires Valid()
      modifies deck, dealer`cards, set h | h in hands
      ensures dealer.cards == [] && Row() == ClearedRow(old(Row()))
      ensures multiset(deck.deck) == old(Pool()) && Pool() == old(Pool()) && Staked() == old(Staked())
    {
      ghost var shoe1, d1, row1 := deck.deck, dealer.cards, Row();
      ResetDeck();
      ResetConserves(shoe1, d1, row1, totalMoney, deck.deck, dealer.cards, Row());
      RowCardsEmpty(Row());
    }
  }
}
