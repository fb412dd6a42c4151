/** Decks of playing cards: an ordered sequence of cards that can be shuffled,
    dealt from the front and searched by card equality, and the factory that
    fills a deck with the standard 52 cards (plus optional jokers). */
module Decks {
  import opened Wrappers
  import opened Cards
  import opened Shuffling

  /** The exceptions the deck operations raise: `remove` of an absent card
      (a `ValueError`) and `deal` past the last card (an `IndexError`). */
  datatype DeckError = CardNotFound | DeckUnderflow

  /** The comparable part of every card of a sequence. */
  function Datas(cards: seq<PlayingCard>): (ds: seq<CardData>)
    ensures |ds| == |cards|
    ensures forall i :: 0 <= i < |cards| ==> ds[i] == cards[i].Data()
  {
    seq(|cards|, i requires 0 <= i < |cards| => cards[i].Data())
  }

  /** The position of the first element equal to `c`, as `deque.index` finds it. */
  function IndexOf(ds: seq<CardData>, c: CardData): (r: Option<nat>)
    ensures r.Some? ==> r.value < |ds| && ds[r.value].Eq(c)
    ensures r.Some? ==> forall k :: 0 <= k < r.value ==> !ds[k].Eq(c)
    ensures r.None? <==> forall k :: 0 <= k < |ds| ==> !ds[k].Eq(c)
  {
    if ds == [] then None
    else if ds[0].Eq(c) then Some(0)
    else match IndexOf(ds[1..], c)
      case None => None
      case Some(i) => Some(i + 1)
  }

  /** `s` with the element at position `i` deleted. */
  function Without<T>(s: seq<T>, i: nat): seq<T>
    requires i < |s|
  {
    s[..i] + s[i + 1..]
  }

  /** Deleting one element keeps the others, in order, and removes exactly
      one copy of that element from the multiset. */
  lemma WithoutKeepsTheRest<T>(s: seq<T>, i: nat)
    requires i < |s|
    ensures |Without(s, i)| == |s| - 1
    ensures forall k :: 0 <= k < i ==> Without(s, i)[k] == s[k]
    ensures forall k :: i <= k < |s| - 1 ==> Without(s, i)[k] == s[k + 1]
    ensures multiset(Without(s, i)) + multiset{s[i]} == multiset(s)
  {
    assert s == s[..i] + [s[i]] + s[i + 1..];
  }

  class Deck {
    var cards: seq<PlayingCard>

    constructor ()
      ensures cards == []
    {
      cards := [];
    }

    /** `len(deck)`. */
    function Length(): nat
      reads this
    {
      |cards|
    }

    /** Shuffles the cards in place with the given draws. */
    method Shuffle(choices: seq<int>)
      requires ValidChoices(choices, |cards|)
      modifies this
      ensures cards == Shuffled(old(cards), choices)
      ensures multiset(cards) == multiset(old(cards))
    {
      var s := cards;
      var a := new PlayingCard[|s|](i requires 0 <= i < |s| => s[i]);
      assert a[..] == s;
      Shuffling.Shuffle(a, choices);
      cards := a[..];
    }

    /** Pops `n` cards off the front, one at a time. Popping from an empty
        deck raises, after every card has been popped. */
    method Deal(n: int) returns (r: Result<seq<PlayingCard>, DeckError>)
      modifies this
      ensures n <= 0 ==> r == Success([]) && cards == old(cards)
      ensures 0 <= n <= old(Length()) ==> r == Success(old(cards)[..n]) && cards == old(cards)[n..]
      ensures 0 <= n <= old(Length()) ==> Length() == old(Length()) - n
      ensures n > old(Length()) ==> r == Failure(DeckUnderflow) && cards == []
    {
      var dealt: seq<PlayingCard> := [];
      var k := n;
      while k > 0
        invariant n <= 0 ==> k == n && dealt == [] && cards == old(cards)
        invariant n > 0 ==> 0 <= k <= n && n - k <= |old(cards)|
        invariant n > 0 ==> dealt == old(cards)[..n - k] && cards == old(cards)[n - k..]
        decreases k
      {
        if cards == [] {
          return Failure(DeckUnderflow);
        }
        dealt := dealt + [cards[0]];
        cards := cards[1..];
        k := k - 1;
      }
      return Success(dealt);
    }

    /** Removes the first card equal to `card` and returns it (the deck's own
        card, not the argument); returns nothing and leaves the deck as it
        was when no card is equal. */
    method Take(card: PlayingCard) returns (r: Option<PlayingCard>)
      modifies this
      ensures IndexOf(Datas(old(cards)), card.Data()).None? ==> r == None && cards == old(cards)
      ensures IndexOf(Datas(old(cards)), card.Data()).Some? ==>
                var i := IndexOf(Datas(old(cards)), card.Data()).value;
                r == Some(old(cards)[i]) && cards == Without(old(cards), i)
    {
      var found := IndexOf(Datas(cards), card.Data());
      if found.None? {
        return None;
      }
      var foundCard := cards[found.value];
      var removed := Remove(card);
      return Some(foundCard);
    }

    /** Removes the first card equal to `card`; raises when there is none. */
    method Remove(card: PlayingCard) returns (r: Outcome<DeckError>)
      modifies this
      ensures IndexOf(Datas(old(cards)), card.Data()).None? ==>
                r == Fail(CardNotFound) && cards == old(cards)
      ensures IndexOf(Datas(old(cards)), card.Data()).Some? ==>
                r == Pass && cards == Without(old(cards), IndexOf(Datas(old(cards)), card.Data()).value)
    {
      var found := IndexOf(Datas(cards), card.Data());
      if found.None? {
        return Fail(CardNotFound);
      }
      cards := Without(cards, found.value);
      return Pass;
    }
  }

  // ---------------------------------------------------------------------------
  // The standard deck
  // ---------------------------------------------------------------------------

  /** The court mapping used when none is given: J, Q, K and an ace that is
      14 when aces are high and 1 otherwise. */
  function DefaultCourtMapping(acesHigh: bool): (m: map<int, string>)
    ensures m.Keys == {11, 12, 13, if acesHigh then 14 else 1}
    ensures m[11] == "J" && m[12] == "Q" && m[13] == "K"
    ensures m[if acesHigh then 14 else 1] == "A"
  {
    var courts := map[11 := "J", 12 := "Q", 13 := "K"];
    if acesHigh then courts[14 := "A"] else courts[1 := "A"]
  }

  /** The suits used when none are given, each built from its name alone. */
  function DefaultSuits(): seq<Suit>
  {
    [Suit(Some("Clubs"), 0, Some(Black)), Suit(Some("Diamonds"), 0, Some(Red)),
     Suit(Some("Hearts"), 0, Some(Red)), Suit(Some("Spades"), 0, Some(Black))]
  }

  /** The red suits' names are already in capitalised form. */
  lemma RedNamesKept()
    ensures Capitalize("Diamonds") == "Diamonds" && Capitalize("Hearts") == "Hearts"
  {
  }

  /** The black suits' names are already in capitalised form. */
  lemma BlackNamesKept()
    ensures Capitalize("Clubs") == "Clubs" && Capitalize("Spades") == "Spades"
  {
  }

  /** The default suits are the suits `Suit("Clubs")`, `Suit("Diamonds")`,
      `Suit("Hearts")` and `Suit("Spades")` construct: unranked, coloured by
      name. */
  lemma DefaultSuitsAre()
    ensures DefaultSuits() == [MakeSuit(Some("Clubs"), None, None), MakeSuit(Some("Diamonds"), None, None),
                               MakeSuit(Some("Hearts"), None, None), MakeSuit(Some("Spades"), None, None)]
  {
    RedNamesKept();
    BlackNamesKept();
  }

  /** The suits a deck is built from: the given ones, or the defaults when
      none (or an empty list) is given. */
  function EffectiveSuits(suits: seq<Suit>): seq<Suit>
  {
    if suits == [] then DefaultSuits() else suits
  }

  /** The court mapping a deck is built with. */
  function EffectiveMapping(courtMapping: map<int, string>, acesHigh: bool): map<int, string>
  {
    if courtMapping == map[] then DefaultCourtMapping(acesHigh) else courtMapping
  }

  /** The lowest card value of each suit. */
  function LowestValue(acesHigh: bool): int
  {
    if acesHigh then 2 else 1
  }

  /** The thirteen cards of one suit, values lo .. lo + 12 in order. */
  function SuitRun(suit: Suit, mapping: map<int, string>, lo: int): (run: seq<CardData>)
  {
    seq(13, k requires 0 <= k < 13 => CardData(suit, lo + k, ValueToChar(lo + k, mapping)))
  }

  /** The runs of all suits, in suit order. */
  function SuitRuns(suits: seq<Suit>, mapping: map<int, string>, lo: int): (runs: seq<CardData>)
    ensures |runs| == 13 * |suits|
  {
    if suits == [] then []
    else SuitRuns(suits[..|suits| - 1], mapping, lo) + SuitRun(suits[|suits| - 1], mapping, lo)
  }

  /** The red and the black joker: anonymous suits of rank 100, value 100,
      shown as "Jkr". */
  function Jokers(): (jokers: seq<CardData>)
  {
    [CardData(MakeSuit(None, Some(100), Some(Red)), 100, ValueToChar(100, map[100 := "Jkr"])),
     CardData(MakeSuit(None, Some(100), Some(Black)), 100, ValueToChar(100, map[100 := "Jkr"]))]
  }

  /** The cards of a freshly built playing-card deck, in order. */
  function Layout(suits: seq<Suit>, mapping: map<int, string>, acesHigh: bool, includeJokers: bool): (cards: seq<CardData>)
    ensures |cards| == 13 * |suits| + (if includeJokers then 2 else 0)
  {
    SuitRuns(suits, mapping, LowestValue(acesHigh)) + (if includeJokers then Jokers() else [])
  }

  lemma {:induction false} SuitRunsAt(suits: seq<Suit>, mapping: map<int, string>, lo: int, s: nat, k: nat)
    requires s < |suits| && k < 13
    ensures SuitRuns(suits, mapping, lo)[13 * s + k] == CardData(suits[s], lo + k, ValueToChar(lo + k, mapping))
  {
    var init := suits[..|suits| - 1];
    var runs := SuitRuns(suits, mapping, lo);
    assert runs == SuitRuns(init, mapping, lo) + SuitRun(suits[|suits| - 1], mapping, lo);
    if s < |suits| - 1 {
      SuitRunsAt(init, mapping, lo, s, k);
      assert init[s] == suits[s];
      assert runs[13 * s + k] == SuitRuns(init, mapping, lo)[13 * s + k];
    } else {
      assert runs[13 * s + k] == SuitRun(suits[|suits| - 1], mapping, lo)[k];
    }
  }

  /** Card `k` of suit `s` of a built deck sits at position 13 * s + k and
      has value `k` above the lowest value: 13 cards per suit, suit after suit. */
  lemma LayoutAt(suits: seq<Suit>, mapping: map<int, string>, acesHigh: bool, includeJokers: bool, s: nat, k: nat)
    requires s < |suits| && k < 13
    ensures Layout(suits, mapping, acesHigh, includeJokers)[13 * s + k]
            == CardData(suits[s], LowestValue(acesHigh) + k, ValueToChar(LowestValue(acesHigh) + k, mapping))
  {
    SuitRunsAt(suits, mapping, LowestValue(acesHigh), s, k);
  }

  /** The same, by position: card i belongs to suit i / 13. Values therefore
      run 2..14 with aces high and 1..13 otherwise. */
  lemma LayoutValueRange(suits: seq<Suit>, mapping: map<int, string>, acesHigh: bool, includeJokers: bool, i: nat)
    requires i < 13 * |suits|
    ensures Layout(suits, mapping, acesHigh, includeJokers)[i].suit == suits[i / 13]
    ensures Layout(suits, mapping, acesHigh, includeJokers)[i].value == LowestValue(acesHigh) + i % 13
    ensures acesHigh ==> 2 <= Layout(suits, mapping, acesHigh, includeJokers)[i].value <= 14
    ensures !acesHigh ==> 1 <= Layout(suits, mapping, acesHigh, includeJokers)[i].value <= 13
  {
    var s, k := i / 13, i % 13;
    assert i == 13 * s + k;
    LayoutAt(suits, mapping, acesHigh, includeJokers, s, k);
  }

  /** With jokers, the deck ends with the red and then the black joker, both
      of value 100 in a suit of rank 100. */
  lemma LayoutJokers(suits: seq<Suit>, mapping: map<int, string>, acesHigh: bool)
    ensures Layout(suits, mapping, acesHigh, true)[13 * |suits|] == CardData(Suit(None, 100, Some(Red)), 100, Some("Jkr"))
    ensures Layout(suits, mapping, acesHigh, true)[13 * |suits| + 1] == CardData(Suit(None, 100, Some(Black)), 100, Some("Jkr"))
  {
    var runs := SuitRuns(suits, mapping, LowestValue(acesHigh));
    assert Layout(suits, mapping, acesHigh, true) == runs + Jokers();
  }

  /** Each joker compares above every other card of the deck. */
  lemma JokersSortHighest(suits: seq<Suit>, mapping: map<int, string>, acesHigh: bool, i: nat)
    requires i < 13 * |suits|
    ensures Layout(suits, mapping, acesHigh, true)[i].Lt(Layout(suits, mapping, acesHigh, true)[13 * |suits|])
    ensures Layout(suits, mapping, acesHigh, true)[i].Lt(Layout(suits, mapping, acesHigh, true)[13 * |suits| + 1])
  {
    LayoutJokers(suits, mapping, acesHigh);
    LayoutValueRange(suits, mapping, acesHigh, true, i);
  }

  /** The deck `PlayingCardDeck(aces_high=False)` builds. */
  function AceLowDefaultDeck(): (deck: seq<CardData>)
    ensures |deck| == 52
  {
    Layout(DefaultSuits(), DefaultCourtMapping(false), false, false)
  }

  /** Because default suits are unranked, `remove` matches on value alone:
      in the ace-low default deck, removing the two of clubs deletes the two
      of clubs, but removing the two of hearts afterwards deletes the two of
      diamonds, the first remaining two. */
  lemma RemoveMatchesValueNotSuit()
    ensures var clubs2 := CardData(MakeSuit(Some("Clubs"), None, None), 2, None);
            var hearts2 := CardData(MakeSuit(Some("Hearts"), None, None), 2, None);
            && IndexOf(AceLowDefaultDeck(), clubs2) == Some(1)
            && IndexOf(Without(AceLowDefaultDeck(), 1), hearts2) == Some(13)
            && Without(AceLowDefaultDeck(), 1)[13].suit.name == Some("Diamonds")
            && Without(AceLowDefaultDeck(), 1)[13].value == 2
  {
    DefaultSuitsAre();
    UnrankedRemovalsByValue(DefaultSuits(), DefaultCourtMapping(false),
                            CardData(MakeSuit(Some("Clubs"), None, None), 2, None),
                            CardData(MakeSuit(Some("Hearts"), None, None), 2, None));
  }

  /** In an ace-low deck whose first two suits are unranked, any unranked two
      matches the second card (the first suit's two); once that is removed,
      any unranked two matches the second suit's two, at position 13. */
  lemma UnrankedRemovalsByValue(suits: seq<Suit>, mapping: map<int, string>, c: CardData, d: CardData)
    requires |suits| >= 2 && suits[0].value == 0 && suits[1].value == 0
    requires c.value == 2 && c.suit.value == 0 && d.value == 2 && d.suit.value == 0
    ensures var deck := Layout(suits, mapping, false, false);
            && IndexOf(deck, c) == Some(1)
            && IndexOf(Without(deck, 1), d) == Some(13)
            && Without(deck, 1)[13].suit == suits[1]
            && Without(deck, 1)[13].value == 2
  {
    var deck := Layout(suits, mapping, false, false);
    forall k | 0 <= k < 13
      ensures deck[k].suit == suits[0] && deck[k].value == k + 1
    {
      LayoutAt(suits, mapping, false, false, 0, k);
    }
    LayoutAt(suits, mapping, false, false, 1, 0);
    LayoutAt(suits, mapping, false, false, 1, 1);
    assert !deck[0].Eq(c);
    FirstMatch(deck, c, 1);
    var rest := Without(deck, 1);
    WithoutKeepsTheRest(deck, 1);
    forall k | 0 <= k < 13
      ensures !rest[k].Eq(d)
    {
      if k > 0 {
        assert rest[k] == deck[k + 1];
      }
    }
    assert rest[13] == deck[14];
    FirstMatch(rest, d, 13);
  }

  /** `IndexOf` finds exactly the first match. */
  lemma FirstMatch(ds: seq<CardData>, c: CardData, i: nat)
    requires i < |ds| && ds[i].Eq(c)
    requires forall k :: 0 <= k < i ==> !ds[k].Eq(c)
    ensures IndexOf(ds, c) == Some(i)
  {
  }

  /** `PlayingCardDeck(...)`: a new deck filled suit by suit, thirteen values
      per suit, then the two jokers when asked for; every card starts face
      down. An empty `suits` or `courtMapping` stands for the argument being
      left out. */
  method NewPlayingCardDeck(suits: seq<Suit>, courtMapping: map<int, string>, acesHigh: bool, includeJokers: bool)
    returns (d: Deck)
    ensures fresh(d)
    ensures Datas(d.cards) == Layout(EffectiveSuits(suits), EffectiveMapping(courtMapping, acesHigh), acesHigh, includeJokers)
    ensures forall c | c in d.cards :: fresh(c) && !c.isFaceup
  {
    d := new Deck();
    AddSuitRuns(d, EffectiveSuits(suits), EffectiveMapping(courtMapping, acesHigh), LowestValue(acesHigh));
    if includeJokers {
      AddJokers(d);
    } else {
      assert Datas(d.cards) + [] == Datas(d.cards);
    }
  }

  /** Appends the two new jokers to the deck. */
  method AddJokers(d: Deck)
    modifies d
    ensures Datas(d.cards) == Datas(old(d.cards)) + Jokers()
    ensures forall c | c in d.cards :: c in old(d.cards) || (fresh(c) && !c.isFaceup)
  {
    var jokers := NewJokers();
    d.cards := d.cards + jokers;
    assert Datas(d.cards) == Datas(old(d.cards)) + Datas(jokers);
  }

  /** The outer loop of `_build`: the run of each suit, suit after suit. */
  method AddSuitRuns(d: Deck, suits: seq<Suit>, mapping: map<int, string>, lo: int)
    modifies d
    ensures Datas(d.cards) == Datas(old(d.cards)) + SuitRuns(suits, mapping, lo)
    ensures forall c | c in d.cards :: c in old(d.cards) || (fresh(c) && !c.isFaceup)
  {
    ghost var start := d.cards;
    var s := 0;
    while s < |suits|
      invariant 0 <= s <= |suits|
      invariant Datas(d.cards) == Datas(start) + SuitRuns(suits[..s], mapping, lo)
      invariant forall c | c in d.cards :: c in start || (fresh(c) && !c.isFaceup)
    {
      ghost var before := Datas(d.cards);
      AddSuitRun(d, suits[s], mapping, lo);
      assert suits[..s + 1][..s] == suits[..s];
      assert SuitRuns(suits[..s + 1], mapping, lo) == SuitRuns(suits[..s], mapping, lo) + SuitRun(suits[s], mapping, lo);
      s := s + 1;
    }
    assert suits[..s] == suits;
  }

  /** The inner loop of `_build`: one new face-down card per value from
      `lo` up to and excluding `lo + 13`, appended in order. */
  method AddSuitRun(d: Deck, suit: Suit, mapping: map<int, string>, lo: int)
    modifies d
    ensures Datas(d.cards) == Datas(old(d.cards)) + SuitRun(suit, mapping, lo)
    ensures forall c | c in d.cards :: c in old(d.cards) || (fresh(c) && !c.isFaceup)
  {
    ghost var start := d.cards;
    var value := lo;
    while value < lo + 13
      invariant lo <= value <= lo + 13
      invariant Datas(d.cards) == Datas(start) + SuitRun(suit, mapping, lo)[..value - lo]
      invariant forall c | c in d.cards :: c in start || (fresh(c) && !c.isFaceup)
    {
      var card := new PlayingCard(suit, value, mapping);
      ghost var before := Datas(d.cards);
      d.cards := d.cards + [card];
      assert Datas(d.cards) == before + [card.Data()];
      value := value + 1;
    }
    assert SuitRun(suit, mapping, lo)[..13] == SuitRun(suit, mapping, lo);
  }

  /** The joker loop of `_build`: a new face-down joker per colour, red
      first, of value 100 in an anonymous suit of rank 100. */
  method NewJokers() returns (jokers: seq<PlayingCard>)
    ensures Datas(jokers) == Jokers()
    ensures forall c | c in jokers :: fresh(c) && !c.isFaceup
  {
    jokers := [];
    var colors := [Red, Black];
    var ci := 0;
    while ci < |colors|
      invariant 0 <= ci <= |colors|
      invariant Datas(jokers) == Jokers()[..ci]
      invariant forall c | c in jokers :: fresh(c) && !c.isFaceup
    {
      var joker := new PlayingCard(MakeSuit(None, Some(100), Some(colors[ci])), 100, map[100 := "Jkr"]);
      ghost var before := Datas(jokers);
      jokers := jokers + [joker];
      assert Datas(jokers) == before + [joker.Data()];
      ci := ci + 1;
    }
    assert Jokers()[..2] == Jokers();
  }
}
