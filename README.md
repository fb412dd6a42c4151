# decker in Dafny

A model of the card library `decker` and of its Carta board.

- `decker/deck.py` supplies the cards:
  - suits, with an optional name, a rank and an optional colour;
  - playing cards that can be turned face up or face down, and that compare by (value, suit rank);
  - an in-place Fisher–Yates shuffle;
  - a deck: cards dealt from the front and removed by equality;
  - the factory for a 52-card deck, with two optional jokers.
- `decker/carta.py` builds a board:
  - a rectangular grid of `True` placeholders is checked;
  - the starting card is turned face up;
  - the starting and goal cards are removed from a deck and the deck is shuffled;
  - the board deals two cards fewer than there are placeholders, adds the goal card and shuffles those;
  - it then fills the placeholders in row-major order. Each fill pops a card off the end of that stack. Once the stack is empty it places the starting card and records that cell as the player's location.

Modules:

- `Wrappers` (`wrappers.dfy`): the `Option`, `Result` and `Outcome` types that stand for Python's `None` results and raised exceptions.
- `Cards` (`cards.dfy`): colours, suits, card values, card text and the `PlayingCard` class (its face is a mutable field).
- `Shuffling` (`shuffling.dfy`): the shuffle. It is an array method proved against the function `Shuffled`.
- `Decks` (`decks.dfy`):
  - the `Deck` class, whose card sequence its methods update;
  - the deck factory `NewPlayingCardDeck`, proved against the function `Layout`.
- `CartaGrid` (`grid.dfy`): the grid as a value:
  - cells are `Flag(b)` for a boolean placeholder, `Occupied(card)` and `Other`;
  - slot counting and row-major ranks;
  - `FillGrid`, the function that specifies the fill loop;
  - the lemmas about it.
- `Carta` (`carta.dfy`):
  - the `CartaBoard` class;
  - the deck phase of `_build` as a function, `DeckPhase`;
  - the conservation of cards between deck and board.

Randomness is injected. A shuffle of `n` elements takes a sequence `choices`, where `choices[i]` is the number `random.randint(0, i)` would have returned at position `i`. `ValidChoices` states which draws are legal.

## Model

| member | source | states |
|---|---|---|
| Shuffling.Shuffle | decker/deck.py:13-20 | the array ends as `Shuffled(old, choices)`: swaps of i with choices[i] for i from the last position down to 1; it is a permutation, and arrays of length ≤ 1 are unchanged |
| Shuffling.ShuffledIsPermutation | decker/deck.py:13-20 | for every legal draw sequence the shuffled sequence has the same multiset as the input |
| Shuffling.ShortUnshuffled | decker/deck.py:16 | the loop range is empty for length 0 or 1, so such a sequence is returned unchanged |
| Shuffling.SwapPermutes | decker/deck.py:20 | the tuple swap of two positions keeps length and multiset |
| Cards.LowerAll | decker/deck.py:42 | lower-cases every character and keeps the length |
| Cards.CapitalizeIdempotent | decker/deck.py:42 | `capitalize` applied to an already-capitalised name leaves it unchanged |
| Cards.MakeSuit | decker/deck.py:36-53 | name capitalised or absent; rank = given int else 0; colour = given, else red for Diamonds/Hearts, black for Clubs/Spades, none otherwise |
| Cards.Suit.ShortName | decker/deck.py:58-70 | a glyph exactly when the name is one of the eight keys, and it is that key's glyph |
| Cards.SuitOrderByValueOnly | decker/deck.py:75-83 | suits are equal iff their ranks are equal, less iff their rank is less; name and colour never matter; `<` is strict |
| Cards.CardOrderIsTotalPreorder | decker/deck.py:144-154 | card `==`/`<` on (value, suit rank) is reflexive, transitive, total, and `<` excludes `==` |
| Cards.UnrankedSuitsCompareByValue | decker/deck.py:147-148 | two cards of suits built from a name alone compare by value alone, whatever the suit names |
| Cards.ValueToChar | decker/deck.py:135-138 | the court text exists iff the value is a key of the mapping, and is that entry |
| Cards.FaceTextCases | decker/deck.py:120-130 | nameless coloured suit gives "Colour value"; glyph suit gives value+glyph; other named suit gives "value of Name"; otherwise the value alone |
| Cards.FaceTextAceOfSpades | decker/deck.py:120-130 | an ace of a lower-case "spades" suit shows "A♠" |
| Cards.FaceTextTenOfHearts | decker/deck.py:121 | a card without court text shows its decimal value: "10♥" |
| Cards.FaceTextJoker | decker/deck.py:123-124 | the red joker shows "Red Jkr" |
| Cards.FaceTextOtherExamples | decker/deck.py:121-130 | an empty court text falls back to the number ("7 of Stars"); an anonymous colourless suit shows the value alone |
| Cards.PlayingCard.constructor | decker/deck.py:102-111 | stores suit and value, takes its court text from the mapping, lies face down |
| Cards.PlayingCard.Flip | decker/deck.py:93-94 | the face flag is negated |
| Cards.PlayingCard.ToString | decker/deck.py:113-118 | "XX" when face down, the face text when face up |
| Cards.FlipTwice | decker/deck.py:93-94 | two flips restore the face flag and the card's text |
| Decks.IndexOf | decker/deck.py:191 | `index`: the first position holding an equal card, or none exactly when no card is equal |
| Decks.WithoutKeepsTheRest | decker/deck.py:198-199 | deleting one position keeps the others in order and removes one copy from the multiset |
| Decks.Deck.constructor | decker/deck.py:161-165 | a new deck is empty |
| Decks.Deck.Shuffle | decker/deck.py:173-174 | the cards end as `Shuffled(old cards, choices)`, a permutation |
| Decks.Deck.Deal | decker/deck.py:182-187 | n ≤ 0 deals nothing; n ≤ len deals the first n and leaves the rest; n > len raises with the deck emptied |
| Decks.Deck.Take | decker/deck.py:189-196 | returns the deck's first equal card and deletes it, or none with the deck unchanged |
| Decks.Deck.Remove | decker/deck.py:198-199 | deletes the first equal card, or raises `CardNotFound` with the deck unchanged |
| Decks.DefaultCourtMapping | decker/deck.py:257-264 | keys 11, 12, 13 map to J, Q, K and the ace key (14 high, 1 low) maps to A; nothing else |
| Decks.DefaultSuitsAre | decker/deck.py:212-213 | the default suits are `Suit("Clubs")`, `Suit("Diamonds")`, `Suit("Hearts")`, `Suit("Spades")`, in that order |
| Decks.SuitRuns | decker/deck.py:237-239 | thirteen cards per suit |
| Decks.Layout | decker/deck.py:234-255 | 13 cards per suit plus two when jokers are included |
| Decks.LayoutAt | decker/deck.py:235-239 | card k of suit s sits at 13·s + k with value lowest + k and the mapping's court text |
| Decks.LayoutValueRange | decker/deck.py:235-239 | card i belongs to suit i / 13; values run 2..14 aces high and 1..13 aces low |
| Decks.LayoutJokers | decker/deck.py:240-255 | with jokers the deck ends with the red, then the black joker, value 100 in a nameless suit of rank 100, text "Jkr" |
| Decks.JokersSortHighest | decker/deck.py:244 | each joker compares above every suit card of the deck |
| Decks.AceLowDefaultDeck | decker/deck.py:202-223 | the ace-low default deck holds 52 cards |
| Decks.UnrankedRemovalsByValue | decker/deck.py:147-148 | in an ace-low deck whose first two suits are unranked, an unranked two matches position 1; after that removal an unranked two matches the second suit's two at position 13 |
| Decks.RemoveMatchesValueNotSuit | decker/deck.py:198-199 | in `PlayingCardDeck(aces_high=False)` removing the two of clubs takes the two of clubs; removing the two of hearts next takes the two of diamonds |
| Decks.FirstMatch | decker/deck.py:191 | a match with no earlier match is the position `index` finds |
| Decks.NewPlayingCardDeck | decker/deck.py:202-223 | a fresh deck whose cards are `Layout` of the effective suits, mapping, aces flag and jokers flag; every card new and face down |
| Decks.AddSuitRuns | decker/deck.py:237-239 | appends the run of every suit, in suit order, with new face-down cards |
| Decks.AddSuitRun | decker/deck.py:238-239 | appends one new face-down card per value lo .. lo+12 |
| Decks.AddJokers | decker/deck.py:240-255 | appends the two jokers |
| Decks.NewJokers | decker/deck.py:241-254 | the red and the black joker, new and face down |
| CartaGrid.RowSlots | decker/carta.py:77-83 | a row has at most as many slots as cells |
| CartaGrid.RankOrder | decker/carta.py:67-69 | a slot's rank is below the slot count, and later cells in row-major order have larger ranks |
| CartaGrid.LastSlotIsLast | decker/carta.py:67-75 | no slot follows the last slot |
| CartaGrid.LastSlotUnique | decker/carta.py:67-75 | there is at most one last slot |
| CartaGrid.TrueGridSlots | decker/carta.py:21-29 | a fresh grid has rows × columns slots |
| CartaGrid.FillGridAt | decker/carta.py:67-74 | a slot of the filled grid holds the card for its rank |
| CartaGrid.FillGridCells | decker/carta.py:67-74 | filling puts the card for its rank in each slot and leaves every other cell as it was |
| CartaGrid.FillStateStep | decker/carta.py:69-75 | one visit keeps a non-slot, pops the last card into a slot, or places the starting card and moves the player there |
| CartaGrid.FillGridByRows | decker/carta.py:67-68 | a grid whose rows are the filled rows is the filled grid |
| CartaGrid.FilledGridHasNoSlots | decker/carta.py:67-75 | no `True` placeholder survives the fill |
| CartaGrid.StartAtLastSlot | decker/carta.py:72-75 | when the slots outnumber the stack, the last slot holds the starting card |
| CartaGrid.SingleSlotGetsOnlyCard | decker/carta.py:69-71 | one slot and one card: the slot takes that card and nothing else changes |
| CartaGrid.FilledGridCards | decker/carta.py:67-75 | on a placeholder grid, the board read in row-major order lists the placed cards in rank order |
| CartaGrid.PlacementsOfFullStack | decker/carta.py:70-74 | with one slot more than cards, the board receives the stack last card first, then the starting card |
| CartaGrid.FilledCardsMultiset | decker/carta.py:63-75 | with one slot more than cards, the board holds exactly the stack's cards and the starting card |
| CartaGrid.ReversedSameMultiset | decker/carta.py:71 | popping from the end visits the same cards |
| Carta.RowsValid | decker/carta.py:34-39 | every row has the given width and holds only booleans |
| Carta.Removals | decker/carta.py:59-60 | two removals take two cards, or the first one that finds no equal card raises |
| Carta.DeckPhaseAccounting | decker/carta.py:58-65 | the deck phase fails exactly on a missing card or a deal past the end; on success it has slots−2 dealt cards (at least 0) plus the goal; no card is lost or gained |
| Carta.RemovalsTakeEqualCards | decker/carta.py:59-60 | the removals take a card equal to the starting card and then a card equal to the goal card |
| Carta.FewSlotsStackIsGoal | decker/carta.py:63-65 | with fewer than two slots the stack is the goal card alone |
| Carta.CardsConserved | decker/carta.py:58-75 | the board's cards plus the deck's are the deck after removals plus the goal and the starting card |
| Carta.GoalAndStartOnBoard | decker/carta.py:59-75 | the goal card object itself, appended to the stack, and the starting card are both on the filled board |
| Carta.CartaBoard.constructor | decker/carta.py:52-54 | stores grid, goal card and starting card; no player location yet |
| Carta.CartaBoard.CreateGrid | decker/carta.py:21-29 | rows × columns `True` placeholders, none for negative counts |
| Carta.CartaBoard.IsValidGrid | decker/carta.py:31-40 | raises on an empty grid; otherwise true iff every row has the first row's length and only booleans |
| Carta.CartaBoard.AvailableSlots | decker/carta.py:77-83 | the number of `True` cells |
| Carta.CartaBoard.FillSlots | decker/carta.py:67-75 | the grid becomes `FillGrid`; the player ends on the last slot when the stack runs out, otherwise keeps its location |
| Carta.CartaBoard.FillRowSlots | decker/carta.py:68-75 | the inner loop fills one row as `FillRow` and keeps the fill state |
| Carta.CartaBoard.FillCell | decker/carta.py:69-75 | one cell, as `FillStateStep` describes |
| Carta.CartaBoard.Build | decker/carta.py:58-75 | the deck ends as `DeckPhase` says; a failure leaves the grid and the location untouched; success fills the grid from the stack |
| Carta.CartaBoard.DealAndFill | decker/carta.py:61-75 | shuffle, deal slots−2, add goal, shuffle, fill: agrees with `DealPhase` and `FillGrid` |
| Carta.CartaBoard.Create | decker/carta.py:42-56 | an empty grid or an invalid grid fails with the deck and card untouched; otherwise the starting card is face up and the board is built as `Build` says |
| Carta.TrueGridValidity | decker/carta.py:21-40 | a created grid with at least one row is valid; one with no rows has no first row |

## Left out

- Output is not modelled: `show`, `peek`, `peek_bottom`, `show_reverse`, `player_card`, `__repr__` of `Suit` and `PlayingCardDeck`, and `str.center`.
- Card and Suit identity:
  - `__eq__`/`__lt__` returning `NotImplemented` for an operand without `value`/`suit` is not modelled; the model only compares cards with cards.
  - `total_ordering`'s derived operators appear only as `Le`.
- The `Card` base class is merged into `PlayingCard`, which is the only kind of card the core creates.
- `Color.__str__` and `capitalize` are modelled for ASCII letters only. Other characters are left as they are.
- `int(value)` in `PlayingCard` and `Suit` is the identity. Only integers are passed.
- Randomness: `random.randint` is replaced by the injected `choices` sequences.
- `Carta.CartaBoard.Create` models `__init__` as a static method that returns the board or an error instead of raising. `allowed_directions`, an unused argument, is dropped.
- The `Direction` enum and any movement of the player: the source declares `Direction` and never uses it.
- Aliasing of the grid:
  - The caller's grid list and its row lists are not shared with the board. The board's grid is a value that the fill rebuilds row by row.
  - The player location is written once, after the fill, rather than at each placement. Nothing reads it in between, and the final value is the last slot, as in the source.
- `Deck.cards` is a deque in the source and a sequence here; its performance is not modelled.
- `PlayingCardDeck` does not keep `suits`, `court_mapping`, `aces_high` and `include_jokers` as attributes. `NewPlayingCardDeck` returns a plain `Deck` built from them.
- An empty suit list or court mapping stands for the argument being left out. In Python both are falsy and select the defaults too.
- `decker/board.py` is not part of this model.
- Card equality follows the code, which compares (value, suit rank). It does not identify one particular card.
  - With the unranked default suits, `remove(goal_card)` takes the first card of the deck *equal to* the goal card. That card need not be the goal card object, as `Decks.RemoveMatchesValueNotSuit` shows.
  - The board still receives the goal card object itself, which `_build` appends to the dealt cards (`Carta.GoalAndStartOnBoard`).
  - Other cards equal to the goal card can stay in the deck and be dealt onto the board as well.
- `Decks.Deck.Deal` takes the number of cards explicitly. The default `n = 1` of `deal` is not modelled.
