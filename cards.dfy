/** Suits and playing cards: how a suit is named, coloured and ranked, how a
    card is turned over and rendered, and how two cards compare. */
module Cards {
  import opened Wrappers

  datatype Color = Red | Black

  /** A colour as text: the enum member's name, capitalised. */
  function ColorText(c: Color): string
  {
    match c
    case Red => "Red"
    case Black => "Black"
  }

  // ---------------------------------------------------------------------------
  // Capitalisation (ASCII letters only)
  // ---------------------------------------------------------------------------

  function Upper(ch: char): char
  {
    if 'a' <= ch <= 'z' then (ch as int - 32) as char else ch
  }

  function Lower(ch: char): char
  {
    if 'A' <= ch <= 'Z' then (ch as int + 32) as char else ch
  }

  function LowerAll(s: string): (r: string)
    ensures |r| == |s|
    ensures forall i :: 0 <= i < |s| ==> r[i] == Lower(s[i])
  {
    if s == [] then [] else [Lower(s[0])] + LowerAll(s[1..])
  }

  /** The first character upper-cased, every other character lower-cased. */
  function Capitalize(s: string): (r: string)
  {
    if s == [] then [] else [Upper(s[0])] + LowerAll(s[1..])
  }

  /** Capitalising twice is capitalising once: a name stored in a suit is
      already in the form that the colour inference and glyph table match. */
  lemma CapitalizeIdempotent(s: string)
    ensures Capitalize(Capitalize(s)) == Capitalize(s)
  {
    if s != [] {
      var r := Capitalize(s);
      assert r[0] == Upper(s[0]);
      assert Upper(Upper(s[0])) == Upper(s[0]);
      assert r[1..] == LowerAll(s[1..]);
      var rr := LowerAll(r[1..]);
      assert |rr| == |r[1..]|;
      forall i | 0 <= i < |rr| ensures rr[i] == r[1..][i] {
        assert Lower(Lower(s[1..][i])) == Lower(s[1..][i]);
      }
      assert rr == r[1..];
    }
  }

  // ---------------------------------------------------------------------------
  // Suits
  // ---------------------------------------------------------------------------

  /** The eight suit names that have a display glyph. */
  const Glyphs: map<string, string> := map[
    "Clubs" := "\U{2663}",
    "Diamonds" := "\U{2666}",
    "Hearts" := "\U{2665}",
    "Spades" := "\U{2660}",
    "Wands" := "\U{269A}",
    "Coins" := "\U{235F}",
    "Cups" := "\U{222A}",
    "Swords" := "\U{2694}"
  ]

  /** A suit: an optional name, a rank (`value`) and an optional colour. */
  datatype Suit = Suit(name: Option<string>, value: int, color: Option<Color>)
  {
    /** The display glyph: looked up by name, absent for an empty, unknown or
        missing name. */
    function ShortName(): (g: Option<string>)
      ensures g.Some? <==> name.Some? && name.value in Glyphs
      ensures g.Some? ==> g.value == Glyphs[name.value]
    {
      match name
      case None => None
      case Some(n) => if n != "" && n in Glyphs then Some(Glyphs[n]) else None
    }

    /** Suits are equal when their ranks are; name and colour play no part. */
    predicate Eq(other: Suit)
    {
      value == other.value
    }

    predicate Lt(other: Suit)
    {
      value < other.value
    }
  }

  /** The four names for which a suit's colour is inferred. */
  const StandardSuitNames: set<Option<string>> :=
    {Some("Diamonds"), Some("Hearts"), Some("Clubs"), Some("Spades")}

  /** What `Suit(name, value, color)` stores: the name capitalised, the rank 0
      when none is given, and for the four standard names a colour inferred
      when none is given. */
  function MakeSuit(name: Option<string>, value: Option<int>, color: Option<Color>): (s: Suit)
    ensures s.name.Some? <==> name.Some?
    ensures name.Some? ==> s.name.value == Capitalize(name.value)
    ensures value.Some? ==> s.value == value.value
    ensures value.None? ==> s.value == 0
    ensures color.Some? ==> s.color == color
    ensures color.None? && (s.name == Some("Diamonds") || s.name == Some("Hearts")) ==> s.color == Some(Red)
    ensures color.None? && (s.name == Some("Clubs") || s.name == Some("Spades")) ==> s.color == Some(Black)
    ensures color.None? && s.name !in StandardSuitNames ==> s.color == None
  {
    var n := match name case None => None case Some(t) => Some(Capitalize(t));
    var c :=
      if color.Some? then color
      else if n == Some("Diamonds") || n == Some("Hearts") then Some(Red)
      else if n == Some("Clubs") || n == Some("Spades") then Some(Black)
      else None;
    var v := match value case None => 0 case Some(k) => k;
    Suit(n, v, c)
  }

  /** Suit order is a total preorder on ranks, blind to names and colours. */
  lemma SuitOrderByValueOnly(a: Suit, b: Suit)
    ensures a.Eq(b) <==> a.value == b.value
    ensures a.Lt(b) <==> a.value < b.value
    ensures a.Eq(a.(name := b.name, color := b.color))
    ensures a.Lt(b) ==> !b.Lt(a) && !a.Eq(b)
  {
  }

  // ---------------------------------------------------------------------------
  // Playing cards
  // ---------------------------------------------------------------------------

  /** The immutable part of a playing card: suit, rank and display override. */
  datatype CardData = CardData(suit: Suit, value: int, charValue: Option<string>)
  {
    /** Card equality: the pairs (value, suit.value) agree. */
    predicate Eq(other: CardData)
    {
      value == other.value && suit.value == other.suit.value
    }

    /** Card order: (value, suit.value) compared lexicographically. */
    predicate Lt(other: CardData)
    {
      value < other.value || (value == other.value && suit.value < other.suit.value)
    }

    /** The `<=` that `total_ordering` derives from `<` and `==`. */
    predicate Le(other: CardData)
    {
      Lt(other) || Eq(other)
    }
  }

  /** `<=` on cards is a total preorder, `<` its strict part and `==` its
      equivalence; none of them looks at suit names or display text. */
  lemma CardOrderIsTotalPreorder(a: CardData, b: CardData, c: CardData)
    ensures a.Le(a)
    ensures a.Le(b) && b.Le(c) ==> a.Le(c)
    ensures a.Le(b) || b.Le(a)
    ensures a.Lt(b) <==> a.Le(b) && !b.Le(a)
    ensures a.Eq(b) <==> a.Le(b) && b.Le(a)
    ensures a.Eq(b) <==> a.value == b.value && a.suit.value == b.suit.value
  {
  }

  /** Suits built without a rank all have rank 0, so two cards of such suits
      are equal exactly when their values are, whatever the suit names. */
  lemma UnrankedSuitsCompareByValue(a: CardData, b: CardData, n1: string, n2: string)
    requires a.suit == MakeSuit(Some(n1), None, None)
    requires b.suit == MakeSuit(Some(n2), None, None)
    ensures a.Eq(b) <==> a.value == b.value
    ensures a.Lt(b) <==> a.value < b.value
  {
  }

  /** `_value_to_char`: the court mapping's text for a value, if any. */
  function ValueToChar(value: int, courtMapping: map<int, string>): (c: Option<string>)
    ensures c.Some? <==> value in courtMapping
    ensures c.Some? ==> c.value == courtMapping[value]
  {
    if value in courtMapping then Some(courtMapping[value]) else None
  }

  // ---------------------------------------------------------------------------
  // Rendering
  // ---------------------------------------------------------------------------

  function DigitChar(d: nat): char
    requires d < 10
  {
    "0123456789"[d]
  }

  /** Decimal text of a natural number. */
  function NatToString(n: nat): string
    decreases n
  {
    if n < 10 then [DigitChar(n)] else NatToString(n / 10) + [DigitChar(n % 10)]
  }

  /** Decimal text of an integer, as `str` gives it. */
  function IntToString(i: int): string
  {
    if i < 0 then "-" + NatToString(-i) else NatToString(i)
  }

  /** The rank part of a card's text: its court character when it has a
      non-empty one, otherwise its value in decimal. */
  function RankText(d: CardData): (t: string)
  {
    match d.charValue
    case Some(c) => if c != "" then c else IntToString(d.value)
    case None => IntToString(d.value)
  }

  /** `_get_str`: the text of a face-up card. */
  function FaceText(d: CardData): (t: string)
  {
    var v := RankText(d);
    var named := d.suit.name.Some? && d.suit.name.value != "";
    if !named && d.suit.color.Some? then ColorText(d.suit.color.value) + " " + v
    else if d.suit.ShortName().Some? then v + d.suit.ShortName().value
    else if named then v + " of " + d.suit.name.value
    else v
  }

  /** The four cases of a face-up card's text. */
  lemma FaceTextCases(d: CardData)
    ensures (d.suit.name.None? || d.suit.name == Some("")) && d.suit.color.Some? ==>
              FaceText(d) == ColorText(d.suit.color.value) + " " + RankText(d)
    ensures d.suit.name.Some? && d.suit.name.value in Glyphs ==>
              FaceText(d) == RankText(d) + Glyphs[d.suit.name.value]
    ensures d.suit.name.Some? && d.suit.name.value != "" && d.suit.name.value !in Glyphs ==>
              FaceText(d) == RankText(d) + " of " + d.suit.name.value
    ensures (d.suit.name.None? || d.suit.name == Some("")) && d.suit.color.None? ==>
              FaceText(d) == RankText(d)
  {
    assert "" !in Glyphs;
  }

  /** A court card of a standard suit shows its court character, then the
      glyph; the suit name is capitalised first. */
  lemma FaceTextAceOfSpades()
    ensures FaceText(CardData(MakeSuit(Some("spades"), None, None), 14, Some("A"))) == "A\U{2660}"
  {
    assert Capitalize("spades") == "Spades" by {
      assert LowerAll("pades") == "pades";
    }
  }

  /** A pip card of a standard suit shows its decimal value, then the glyph. */
  lemma FaceTextTenOfHearts()
    ensures FaceText(CardData(MakeSuit(Some("Hearts"), None, None), 10, None)) == "10\U{2665}"
  {
    assert Capitalize("Hearts") == "Hearts" by {
      assert LowerAll("earts") == "earts";
    }
    assert NatToString(10) == "10" by {
      assert NatToString(1) == "1";
    }
  }

  /** A joker, of an anonymous coloured suit, shows the colour and its text. */
  lemma FaceTextJoker()
    ensures FaceText(CardData(MakeSuit(None, Some(100), Some(Red)), 100, Some("Jkr"))) == "Red Jkr"
  {
  }

  /** A suit without a glyph is written out after "of"; an empty display
      override falls back to the value; an anonymous colourless suit shows
      the value alone. */
  lemma FaceTextOtherExamples()
    ensures FaceText(CardData(MakeSuit(Some("Stars"), None, None), 7, Some(""))) == "7 of Stars"
    ensures FaceText(CardData(MakeSuit(None, None, None), 5, None)) == "5"
  {
    assert Capitalize("Stars") == "Stars" by {
      assert LowerAll("tars") == "tars";
    }
    assert "Stars" !in Glyphs;
  }

  /** A playing card. Suit, value and display override never change after
      construction; whether it lies face up does. */
  class PlayingCard {
    const suit: Suit
    const value: int
    const charValue: Option<string>
    var isFaceup: bool

    /** A new card lies face down; its display override comes from the court
        mapping (an absent mapping is passed as the empty map). */
    constructor (suit: Suit, value: int, courtMapping: map<int, string>)
      ensures this.suit == suit && this.value == value
      ensures charValue == ValueToChar(value, courtMapping)
      ensures !isFaceup
    {
      this.suit := suit;
      this.value := value;
      this.charValue := ValueToChar(value, courtMapping);
      isFaceup := false;
    }

    /** The immutable part of the card, on which comparisons work. */
    function Data(): CardData
    {
      CardData(suit, value, charValue)
    }

    method Flip()
      modifies this
      ensures isFaceup == !old(isFaceup)
    {
      isFaceup := !isFaceup;
    }

    /** `__repr__`: a face-down card shows only its back. */
    function ToString(): (s: string)
      reads this
      ensures !isFaceup ==> s == "XX"
      ensures isFaceup ==> s == FaceText(Data())
    {
      if isFaceup then FaceText(Data()) else "XX"
    }
  }

  /** Turning a card over twice leaves it as it was. */
  method FlipTwice(card: PlayingCard)
    modifies card
    ensures card.isFaceup == old(card.isFaceup)
    ensures card.ToString() == old(card.ToString())
  {
    card.Flip();
    card.Flip();
  }
}
