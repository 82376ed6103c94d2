/**
 The 52-card deck of `server/deck.py`: every (value, suit) pair is built
 once, the list is shuffled, and `draw_card` pops the last card.
 */
module Decks {
  import opened Frontend

  /** The four suit constants. */
  datatype Suit = Hearts | Diamonds | Clubs | Spades

  function SuitName(s: Suit): string
  {
    match s
    case Hearts => "hearts"
    case Diamonds => "diamonds"
    case Clubs => "clubs"
    case Spades => "spades"
  }

  /** The four suit constants are four different strings. */
  lemma SuitNamesDistinct(s: Suit, t: Suit)
    ensures SuitName(s) == SuitName(t) <==> s == t
  {
  }

  /** The order in which the comprehension's inner loop visits the suits. */
  const SUIT_ORDER: seq<Suit> := [Hearts, Diamonds, Clubs, Spades]

  datatype Card = Card(value: int, suit: Suit)

  /** A card of the game: value 1 to 13 (the suit is one of the four by its type). */
  predicate IsCard(c: Card)
  {
    1 <= c.value <= 13
  }

  predicate Distinct(cards: seq<Card>)
  {
    forall i, j :: 0 <= i < j < |cards| ==> cards[i] != cards[j]
  }

  /** `list.pop()` on an empty list. */
  datatype DeckError = IndexError

  function SuitIndex(s: Suit): (k: nat)
    ensures k < 4 && SUIT_ORDER[k] == s
  {
    match s
    case Hearts => 0
    case Diamonds => 1
    case Clubs => 2
    case Spades => 3
  }

  /**
   The comprehension `[Card(i + 1, suit) for i in range(13) for suit in ...]`:
   52 cards, each a card of the game, no two alike, and every card of the
   game among them.
   */
  function Unshuffled(): (r: seq<Card>)
    ensures |r| == 52
    ensures forall i :: 0 <= i < |r| ==> IsCard(r[i])
    ensures Distinct(r)
    ensures forall c :: IsCard(c) ==> c in r
  {
    var r := seq(52, k requires 0 <= k < 52 => Card(k / 4 + 1, SUIT_ORDER[k % 4]));
    UnshuffledDistinct(r);
    UnshuffledComplete(r);
    r
  }

  lemma UnshuffledDistinct(r: seq<Card>)
    requires |r| == 52 && forall k :: 0 <= k < 52 ==> r[k] == Card(k / 4 + 1, SUIT_ORDER[k % 4])
    ensures Distinct(r)
  {
  }

  lemma UnshuffledComplete(r: seq<Card>)
    requires |r| == 52 && forall k :: 0 <= k < 52 ==> r[k] == Card(k / 4 + 1, SUIT_ORDER[k % 4])
    ensures forall c :: IsCard(c) ==> c in r
  {
    forall c | IsCard(c) ensures c in r {
      var k := (c.value - 1) * 4 + SuitIndex(c.suit);
      assert k / 4 == c.value - 1 && k % 4 == SuitIndex(c.suit);
      assert r[k] == c;
    }
  }

  /**
   `random.shuffle`: for i from the last index down to 1, swap position i
   with a position j chosen by the generator among 0..i. The generator is a
   parameter (`randbelow(n)` stands for its draw below n); whatever it
   returns, the result is a rearrangement of the input.
   */
  method Shuffle(cards: seq<Card>, randbelow: nat -> nat) returns (r: seq<Card>)
    ensures |r| == |cards|
    ensures multiset(r) == multiset(cards)
  {
    r := cards;
    var i := |r|;
    while i > 1
      invariant 0 <= i <= |r| == |cards|
      invariant multiset(r) == multiset(cards)
    {
      i := i - 1;
      var j := randbelow(i + 1) % (i + 1);
      r := r[i := r[j]][j := r[i]];
    }
  }

  /** In a sequence without repeats every card occurs at most once. */
  lemma {:induction false} DistinctCountsAtMostOne(s: seq<Card>)
    requires Distinct(s)
    ensures forall c :: multiset(s)[c] <= 1
  {
    if s != [] {
      var t := s[1..];
      assert s == [s[0]] + t;
      assert Distinct(t) by {
        forall i, j | 0 <= i < j < |t| ensures t[i] != t[j] {
          assert t[i] == s[i + 1] && t[j] == s[j + 1];
        }
      }
      DistinctCountsAtMostOne(t);
      assert s[0] !in t by {
        forall i | 0 <= i < |t| ensures t[i] != s[0] {
          assert t[i] == s[i + 1];
        }
      }
    }
  }

  /** Two positions holding the same card make it occur at least twice. */
  lemma RepeatCountsTwice(s: seq<Card>, i: nat, j: nat)
    requires i < j < |s| && s[i] == s[j]
    ensures multiset(s)[s[i]] >= 2
  {
    assert s == s[..j] + s[j..];
    assert s[i] in s[..j];
    assert s[j] in s[j..];
  }

  /** A sequence in which every card occurs at most once has no repeats. */
  lemma CountsAtMostOneDistinct(s: seq<Card>)
    requires forall c :: multiset(s)[c] <= 1
    ensures Distinct(s)
  {
    forall i, j | 0 <= i < j < |s| ensures s[i] != s[j] {
      if s[i] == s[j] {
        RepeatCountsTwice(s, i, j);
      }
    }
  }

  /** Rearranging a sequence without repeats gives a sequence without repeats. */
  lemma PermutationKeepsDistinct(a: seq<Card>, b: seq<Card>)
    requires multiset(a) == multiset(b) && Distinct(b)
    ensures Distinct(a)
  {
    DistinctCountsAtMostOne(b);
    CountsAtMostOneDistinct(a);
  }

  class Deck {
    var cards: seq<Card>

    /** The remaining cards are distinct cards of the full deck. */
    ghost predicate Valid()
      reads this
    {
      Distinct(cards) && multiset(cards) <= multiset(Unshuffled())
    }

    /** `Deck.__init__`: all 52 cards, in the order the shuffle leaves them. */
    constructor (randbelow: nat -> nat)
      ensures Valid() && |cards| == 52
      ensures multiset(cards) == multiset(Unshuffled())
    {
      var shuffled := Shuffle(Unshuffled(), randbelow);
      PermutationKeepsDistinct(shuffled, Unshuffled());
      cards := shuffled;
    }

    /** `draw_card`: remove and return the last card; an empty deck fails as `pop` does. */
    method DrawCard() returns (r: Result<Card, DeckError>)
      requires Valid()
      modifies this
      ensures Valid()
      ensures old(cards) == [] ==> r == Err(IndexError) && cards == []
      ensures old(cards) != [] ==> r == Ok(old(cards)[|old(cards)| - 1]) && cards == old(cards)[..|old(cards)| - 1]
      ensures r.Ok? ==> IsCard(r.value) && r.value !in cards
    {
      if cards == [] {
        return Err(IndexError);
      }
      var n := |cards|;
      var last := cards[n - 1];
      assert cards == cards[..n - 1] + [last];
      assert last in multiset(Unshuffled());
      cards := cards[..n - 1];
      r := Ok(last);
    }
  }

  /** A rearrangement of the full deck has 52 cards. */
  lemma CardCount(cards: seq<Card>)
    requires multiset(cards) == multiset(Unshuffled())
    ensures |cards| == 52
  {
    assert |cards| == |multiset(cards)|;
  }

  /** Drawing until the deck is empty returns exactly the cards it held. */
  method DrawUntilEmpty(deck: Deck) returns (hand: seq<Card>)
    requires deck.Valid()
    modifies deck
    ensures deck.Valid() && deck.cards == []
    ensures multiset(hand) == multiset(old(deck.cards))
  {
    hand := [];
    while deck.cards != []
      invariant deck.Valid()
      invariant multiset(hand) + multiset(deck.cards) == multiset(old(deck.cards))
      decreases |deck.cards|
    {
      ghost var before := deck.cards;
      var drawn := deck.DrawCard();
      assert before == deck.cards + [drawn.value];
      hand := hand + [drawn.value];
    }
  }

  /**
   Drawing from a new deck: the first 52 draws return 52 different cards,
   every card of the game among them, and the 53rd draw fails.
   */
  method DrawAll(deck: Deck) returns (hand: seq<Card>, extra: Result<Card, DeckError>)
    requires deck.Valid() && multiset(deck.cards) == multiset(Unshuffled())
    modifies deck
    ensures |hand| == 52 && Distinct(hand)
    ensures forall c :: IsCard(c) ==> c in hand
    ensures extra == Err(IndexError) && deck.cards == []
  {
    hand := DrawUntilEmpty(deck);
    CardCount(hand);
    PermutationKeepsDistinct(hand, Unshuffled());
    extra := deck.DrawCard();
    forall c | IsCard(c) ensures c in hand {
      assert c in multiset(Unshuffled());
    }
  }
}
