/** Playing cards and the shoe they are drawn from (cards.py).

    The console game keeps two older copies of the same `Card` and `Deck`
    code (blackjack.py and Blackjack.py); their `__str__`, `shuffleDeck`,
    `draw` and `returnToDeck` are line for line the ones modelled here, and
    only the order in which `Deck.__init__` lays the cards out differs
    (see Rules.RankMajorDeck). */
module Cards {

  /** The Python exceptions the core raises. */
  datatype Error =
    | ValueError   // Deck(n) with n < 1
    | IndexError   // list.pop() on an empty shoe, suits[i] out of range
    | EOFError     // input() after the decision source has run dry

  datatype Result<T> = Success(value: T) | Failure(error: Error)

  datatype Option<T> = None | Some(value: T)

  /** A card: `suit` indexes "SHCD" and `number` is the rank, 1 = Ace and
      11, 12, 13 = Jack, Queen, King. As in the source nothing checks either
      range when a card is built. */
  datatype Card = Card(suit: int, number: int)

  predicate ValidCard(c: Card) {
    0 <= c.suit < 4 && 1 <= c.number <= 13
  }

  /** `Card.suits`. */
  const Suits: string := "SHCD"

  function DigitChar(d: int): char
    requires 0 <= d < 10
  {
    (48 + d) as char
  }

  /** Decimal digits of a natural number, most significant first. */
  function Digits(n: nat): (s: string)
    ensures |s| >= 1
    decreases n
  {
    if n < 10 then [DigitChar(n)] else Digits(n / 10) + [DigitChar(n % 10)]
  }

  /** Python's `str` on an int. */
  function IntToString(n: int): string {
    if n < 0 then "-" + Digits(-n) else Digits(n)
  }

  /** The rank part of `Card.__str__`: the `match` on the number. */
  function RankLabel(number: int): string {
    if number == 1 then "A"
    else if number == 11 then "J"
    else if number == 12 then "Q"
    else if number == 13 then "K"
    else IntToString(number)
  }

  /** `Card.__str__`: rank label followed by the suit letter. `suits[i]`
      accepts the Python indices -4..3 (a negative index counts from the
      end) and raises IndexError for any other suit. */
  function CardString(c: Card): (r: Result<string>)
    ensures r.Success? <==> -4 <= c.suit < 4
    ensures r.Failure? ==> r.error == IndexError
    ensures r.Success? ==> |r.value| >= 2 && r.value[|r.value| - 1] == Suits[c.suit % 4]
    ensures r.Success? && c.number in {1, 11, 12, 13} ==> |r.value| == 2
  {
    if -4 <= c.suit < 4 then
      Success(RankLabel(c.number) + [Suits[if c.suit < 0 then c.suit + 4 else c.suit]])
    else
      Failure(IndexError)
  }

  /** Reads a rank label back; the partner of RankLabel on ranks 1..13. */
  function ParseRank(p: string): Option<int> {
    if p == "A" then Some(1)
    else if p == "J" then Some(11)
    else if p == "Q" then Some(12)
    else if p == "K" then Some(13)
    else if p == "10" then Some(10)
    else if |p| == 1 && '2' <= p[0] <= '9' then Some(p[0] as int - 48)
    else None
  }

  function SuitIndex(ch: char): Option<int> {
    if ch == 'S' then Some(0)
    else if ch == 'H' then Some(1)
    else if ch == 'C' then Some(2)
    else if ch == 'D' then Some(3)
    else None
  }

  /** Reads a displayed card back: the inverse of CardString on valid cards. */
  function ParseCard(s: string): Option<Card> {
    if |s| < 2 then None
    else
      match (ParseRank(s[..|s| - 1]), SuitIndex(s[|s| - 1]))
      case (Some(n), Some(su)) => Some(Card(su, n))
      case _ => None
  }

  /** Every valid card is displayed in a form that names it uniquely. */
  lemma {:induction false} CardStringRoundTrip(c: Card)
    requires ValidCard(c)
    ensures CardString(c).Success? && ParseCard(CardString(c).value) == Some(c)
  {
    var shown := RankLabel(c.number);
    var s := CardString(c).value;
    assert s == shown + [Suits[c.suit]];
    assert s[..|s| - 1] == shown;
    if 2 <= c.number <= 9 {
      assert shown == [DigitChar(c.number)];
    } else if c.number == 10 {
      assert shown == Digits(1) + [DigitChar(0)];
    }
  }

  /** Two different valid cards never print the same. */
  lemma CardStringInjective(c: Card, d: Card)
    requires ValidCard(c) && ValidCard(d) && c != d
    ensures CardString(c).value != CardString(d).value
  {
    CardStringRoundTrip(c);
    CardStringRoundTrip(d);
  }

  /** The cases of tests/test_cards.py. */
  lemma CardStringExamples()
    ensures CardString(Card(0, 1)) == Success("AS")
    ensures CardString(Card(1, 10)) == Success("10H")
    ensures CardString(Card(2, 11)) == Success("JC")
    ensures CardString(Card(3, 12)) == Success("QD")
    ensures CardString(Card(0, 13)) == Success("KS")
    ensures CardString(Card(99, 5)) == Failure(IndexError)
  {
    assert CardString(Card(0, 1)).value == "A" + "S" == "AS";
    assert IntToString(10) == "10" by {
      assert Digits(10) == Digits(1) + [DigitChar(0)];
    }
    assert CardString(Card(1, 10)).value == "10" + "H" == "10H";
    assert CardString(Card(2, 11)).value == "J" + "C" == "JC";
    assert CardString(Card(3, 12)).value == "Q" + "D" == "QD";
    assert CardString(Card(0, 13)).value == "K" + "S" == "KS";
  }

  // ---------------------------------------------------------------------
  // Sequences of cards

  /** `s` read from its end back to its start. */
  function Reversed<T>(s: seq<T>): (r: seq<T>)
    ensures |r| == |s|
  {
    if s == [] then [] else Reversed(s[1..]) + [s[0]]
  }

  lemma {:induction false} ReversedAt<T>(s: seq<T>, k: int)
    requires 0 <= k < |s|
    ensures Reversed(s)[k] == s[|s| - 1 - k]
  {
    if k < |s| - 1 {
      ReversedAt(s[1..], k);
    }
  }

  /** The top card alone, read from the top. */
  lemma ReversedTop<T>(s: seq<T>)
    requires s != []
    ensures Reversed(s[|s| - 1..]) == [s[|s| - 1]]
  {
    assert s[|s| - 1..][1..] == [];
  }

  /** The top two cards, read from the top. */
  lemma ReversedTopTwo<T>(s: seq<T>)
    requires |s| >= 2
    ensures Reversed(s[|s| - 2..]) == [s[|s| - 1], s[|s| - 2]]
  {
    var t := s[|s| - 2..];
    assert t[1..][1..] == [];
    assert Reversed(t[1..]) == [s[|s| - 1]];
  }

  /** Dropping the last of the first `m` elements leaves the first
      `m - 1`. */
  lemma TakeLast<T>(s: seq<T>, m: int)
    requires 0 < m <= |s|
    ensures s[..m][..m - 1] == s[..m - 1] && s[..m][m - 1] == s[m - 1]
  {
  }

  /** Slices of a prefix are slices of the whole. */
  lemma PrefixSlices<T>(s: seq<T>, a: int, b: int, c: int)
    requires 0 <= c <= b <= a <= |s|
    ensures s[..a][..b] == s[..b] && s[..b][..c] == s[..c] && s[..b][c..] == s[c..b]
  {
  }

  /** Reversing a concatenation reverses the order of the parts. */
  lemma {:induction false} ReversedConcat<T>(a: seq<T>, b: seq<T>)
    ensures Reversed(a + b) == Reversed(b) + Reversed(a)
    decreases |a|
  {
    if a == [] {
      assert a + b == b;
    } else {
      ReversedConcat(a[1..], b);
      assert (a + b)[1..] == a[1..] + b;
    }
  }

  lemma {:induction false} ReversedSnoc<T>(s: seq<T>, x: T)
    ensures Reversed(s + [x]) == [x] + Reversed(s)
    decreases |s|
  {
    if s != [] {
      assert (s + [x])[1..] == s[1..] + [x];
      ReversedSnoc(s[1..], x);
    } else {
      assert (s + [x])[1..] == [];
    }
  }

  lemma {:induction false} ReversedMultiset<T>(s: seq<T>)
    ensures multiset(Reversed(s)) == multiset(s)
  {
    if s != [] {
      ReversedMultiset(s[1..]);
      assert s == [s[0]] + s[1..];
    }
  }

  /** `n` copies of `s` laid end to end (`for _ in range(n)` outermost). */
  function Repeat<T>(s: seq<T>, n: int): seq<T>
    decreases n
  {
    if n <= 0 then [] else s + Repeat(s, n - 1)
  }

  lemma {:induction false} RepeatCounts<T>(s: seq<T>, n: nat, x: T)
    ensures |Repeat(s, n)| == n * |s|
    ensures multiset(Repeat(s, n))[x] == n * multiset(s)[x]
  {
    if n > 0 {
      RepeatCounts(s, n - 1, x);
      assert Repeat(s, n) == s + Repeat(s, n - 1);
      assert (n - 1) * |s| + |s| == n * |s|;
      assert (n - 1) * multiset(s)[x] + multiset(s)[x] == n * multiset(s)[x];
    }
  }

  // ---------------------------------------------------------------------
  // cards.py builds each deck suit by suit: `product(suits, numbers)`

  /** Python's `range(lo, hi)`. */
  function Range(lo: int, hi: int): (r: seq<int>)
    ensures |r| == if lo < hi then hi - lo else 0
    ensures forall i :: 0 <= i < |r| ==> r[i] == lo + i
  {
    seq(if lo < hi then hi - lo else 0, i => lo + i)
  }

  /** `Card(suit=s, number=n) for n in numbers`. */
  function RankRun(s: int, numbers: seq<int>): seq<Card>
    decreases |numbers|
  {
    if numbers == [] then [] else [Card(s, numbers[0])] + RankRun(s, numbers[1..])
  }

  /** `Card(suit=s, number=n) for s, n in product(suits, numbers)`: the
      suit varies slowest. */
  function Product(suits: seq<int>, numbers: seq<int>): seq<Card>
    decreases |suits|
  {
    if suits == [] then [] else RankRun(suits[0], numbers) + Product(suits[1..], numbers)
  }

  /** One deck in the order cards.py builds it, with
      `suits = range(len(Card.suits))` and `numbers = range(1, 14)`. */
  function SuitMajorDeck(): seq<Card> {
    Product(Range(0, |Suits|), Range(1, 14))
  }

  lemma {:induction false} RangeCount(lo: int, hi: int, x: int)
    ensures multiset(Range(lo, hi))[x] == if lo <= x < hi then 1 else 0
    decreases hi - lo
  {
    if lo < hi {
      RangeCount(lo + 1, hi, x);
      assert Range(lo, hi) == [lo] + Range(lo + 1, hi);
    }
  }

  lemma {:induction false} RankRunCount(s: int, numbers: seq<int>, c: Card)
    ensures multiset(RankRun(s, numbers))[c] == if c.suit == s then multiset(numbers)[c.number] else 0
    decreases |numbers|
  {
    if numbers != [] {
      RankRunCount(s, numbers[1..], c);
      assert numbers == [numbers[0]] + numbers[1..];
    }
  }

  /** A card whose suit is not listed does not occur; one whose suit is
      listed once occurs as often as its number is listed. */
  lemma {:induction false} ProductCount(suits: seq<int>, numbers: seq<int>, c: Card)
    ensures c.suit !in suits ==> multiset(Product(suits, numbers))[c] == 0
    ensures multiset(suits)[c.suit] == 1 ==> multiset(Product(suits, numbers))[c] == multiset(numbers)[c.number]
    decreases |suits|
  {
    if suits != [] {
      RankRunCount(suits[0], numbers, c);
      ProductCount(suits[1..], numbers, c);
      assert suits == [suits[0]] + suits[1..];
    }
  }

  lemma {:induction false} RankRunShape(s: int, numbers: seq<int>)
    ensures |RankRun(s, numbers)| == |numbers|
    ensures forall j :: 0 <= j < |numbers| ==> RankRun(s, numbers)[j] == Card(s, numbers[j])
    decreases |numbers|
  {
    if numbers != [] {
      RankRunShape(s, numbers[1..]);
    }
  }

  /** With thirteen numbers, card `j` has suit `suits[j / 13]` and the
      `j % 13`-th number. */
  lemma {:induction false} ProductShape(suits: seq<int>, numbers: seq<int>)
    requires |numbers| == 13
    ensures |Product(suits, numbers)| == 13 * |suits|
    ensures forall j :: 0 <= j < 13 * |suits| ==> Product(suits, numbers)[j] == Card(suits[j / 13], numbers[j % 13])
    decreases |suits|
  {
    if suits != [] {
      var p := Product(suits, numbers);
      RankRunShape(suits[0], numbers);
      ProductShape(suits[1..], numbers);
      forall j | 0 <= j < 13 * |suits|
        ensures p[j] == Card(suits[j / 13], numbers[j % 13])
      {
        if j >= 13 {
          assert p[j] == Product(suits[1..], numbers)[j - 13];
          assert (j - 13) / 13 == j / 13 - 1 && (j - 13) % 13 == j % 13;
        }
      }
    }
  }

  /** A cards.py deck holds every valid card exactly once and nothing else. */
  lemma SuitMajorDeckCounts(c: Card)
    ensures multiset(SuitMajorDeck())[c] == if ValidCard(c) then 1 else 0
  {
    ProductCount(Range(0, |Suits|), Range(1, 14), c);
    RangeCount(0, |Suits|, c.suit);
    RangeCount(1, 14, c.number);
  }

  /** A cards.py deck is laid out suit by suit, ranks 1..13 inside each. */
  lemma SuitMajorDeckOrder()
    ensures |SuitMajorDeck()| == 52
    ensures forall i :: 0 <= i < 52 ==> SuitMajorDeck()[i] == Card(i / 13, i % 13 + 1)
  {
    ProductShape(Range(0, |Suits|), Range(1, 14));
  }

  /** `Deck(n)` of cards.py, and the contents of every shoe: an ordered
      stack whose last element is the top card. */
  class Deck {
    var deck: seq<Card>

    /** A shoe holding exactly `cards` (the tests assign `deck.deck` directly). */
    constructor Of(cards: seq<Card>)
      ensures deck == cards
    {
      deck := cards;
    }

    /** `random.shuffle`: some permutation of the cards, chosen freely. */
    method ShuffleDeck()
      modifies this
      ensures multiset(deck) == old(multiset(deck)) && |deck| == old(|deck|)
    {
      var shuffled :| multiset(shuffled) == multiset(deck);
      deck := shuffled;
    }

    /** Pops `num` cards off the top one by one, returning them top first.
        A negative `num` draws nothing (`range` is empty). Asking for more
        cards than remain empties the shoe and then raises IndexError; the
        cards popped so far are lost with the local list. */
    method Draw(num: int) returns (r: Result<seq<Card>>)
      modifies this
      ensures r.Success? <==> num <= |old(deck)|
      ensures num <= |old(deck)| ==>
        var k := if num < 0 then 0 else num;
        r == Success(Reversed(old(deck)[|old(deck)| - k..])) && deck == old(deck)[..|old(deck)| - k]
      ensures num > |old(deck)| ==> r == Failure(IndexError) && deck == []
    {
      ghost var start := deck;
      ghost var n := |deck|;
      var ret: seq<Card> := [];
      var k := 0;
      while k < num
        invariant 0 <= k <= n
        invariant k <= num || k == 0
        invariant deck == start[..n - k]
        invariant ret == Reversed(start[n - k..])
      {
        if deck == [] {
          return Failure(IndexError);
        }
        assert start[n - k - 1..][1..] == start[n - k..];
        ret := ret + [deck[|deck| - 1]];
        deck := deck[..|deck| - 1];
        k := k + 1;
      }
      r := Success(ret);
    }

    /** Appends `cards` in order and reports how many were appended. */
    method ReturnToDeck(cards: seq<Card>) returns (count: int)
      modifies this
      ensures deck == old(deck) + cards
      ensures count == |cards|
    {
      var k := 0;
      while k < |cards|
        invariant 0 <= k <= |cards|
        invariant deck == old(deck) + cards[..k]
      {
        deck := deck + [cards[k]];
        k := k + 1;
      }
      assert cards[..k] == cards;
      count := |cards|;
    }
  }

  /** Drawing `k` cards and returning them leaves a shoe of the same size
      holding the same cards, the drawn ones now in reverse order on top. */
  lemma DrawReturnConserves(s: seq<Card>, k: nat)
    requires k <= |s|
    ensures |s[..|s| - k] + Reversed(s[|s| - k..])| == |s|
    ensures multiset(s[..|s| - k] + Reversed(s[|s| - k..])) == multiset(s)
  {
    ReversedMultiset(s[|s| - k..]);
    assert s == s[..|s| - k] + s[|s| - k..];
  }

  /** cards.py `Deck.__init__`: ValueError for fewer than one deck,
      otherwise `numDecks` suit-major decks one after another. */
  method NewDeck(numDecks: int) returns (r: Result<Deck>)
    ensures numDecks < 1 <==> r.Failure?
    ensures r.Failure? ==> r.error == ValueError
    ensures r.Success? ==> fresh(r.value) && r.value.deck == Repeat(SuitMajorDeck(), numDecks)
  {
    if numDecks < 1 {
      return Failure(ValueError);
    }
    var d := new Deck.Of(Repeat(SuitMajorDeck(), numDecks));
    r := Success(d);
  }

  /** A fresh cards.py shoe of `n` decks holds 52 * n cards and each valid
      card exactly `n` times. */
  lemma ShoeCounts(n: nat, c: Card)
    ensures |Repeat(SuitMajorDeck(), n)| == 52 * n
    ensures multiset(Repeat(SuitMajorDeck(), n))[c] == if ValidCard(c) then n else 0
  {
    SuitMajorDeckCounts(c);
    SuitMajorDeckOrder();
    RepeatCounts(SuitMajorDeck(), n, c);
  }
}
