/** The Carta board: a grid template whose `True` placeholders are filled with
    cards dealt from a deck, the goal card hidden among them and the starting
    card, face up, in the last slot, where the player begins. */
module Carta {
  import opened Wrappers
  import opened Cards
  import opened Shuffling
  import opened Decks
  import opened CartaGrid

  /** Why a board could not be built: `grid[0]` of an empty grid (an
      `IndexError`), a grid that is not a rectangle of placeholders (a
      `ValueError`), or an exception raised by the deck. */
  datatype BoardError = EmptyGrid | InvalidGrid | DeckFailure(cause: DeckError)

  /** Every row is `width` cells long and holds placeholders only. */
  function RowsValid(g: Grid, width: nat): (b: bool)
    ensures b <==> forall i :: 0 <= i < |g| ==> |g[i]| == width && RowFlags(g[i])
  {
    if g == [] then true
    else |g[0]| == width && RowFlags(g[0]) && RowsValid(g[1..], width)
  }

  // ---------------------------------------------------------------------------
  // The deck side of `_build`
  // ---------------------------------------------------------------------------

  /** `remove(starting_card)` and then `remove(goal_card)`: the exception
      raised by the first removal that finds no equal card, if any, and the
      deck as the removals leave it. */
  function Removals(cards: seq<PlayingCard>, start: CardData, goal: CardData): (r: (Outcome<DeckError>, seq<PlayingCard>))
    ensures r.0.Pass? ==> |r.1| + 2 == |cards|
    ensures r.0.Fail? ==> r.0.error == CardNotFound && |cards| <= |r.1| + 1
  {
    match IndexOf(Datas(cards), start)
    case None => (Fail(CardNotFound), cards)
    case Some(i) =>
      var rest := Without(cards, i);
      match IndexOf(Datas(rest), goal)
      case None => (Fail(CardNotFound), rest)
      case Some(j) => (Pass, Without(rest, j))
  }

  /** The rest of the deck phase, on the deck the removals left: shuffle it,
      deal `slots - 2` cards off the front (nothing when that is negative),
      append the goal card to them and shuffle the result. Returns that stack
      (or the exception of a deal past the end) and the deck left. */
  function DealPhase(rest: seq<PlayingCard>, goal: PlayingCard, slots: nat,
                     deckChoices: seq<int>, gridChoices: seq<int>): (phase: (Result<seq<PlayingCard>, DeckError>, seq<PlayingCard>))
    requires ValidChoices(deckChoices, |rest|) && ValidChoices(gridChoices, |rest| + 1)
  {
    var mixed := Shuffled(rest, deckChoices);
    var n := slots - 2;
    if n > |mixed| then (Failure(DeckUnderflow), [])
    else
      var m := if n < 0 then 0 else n;
      (Success(Shuffled(mixed[..m] + [goal], gridChoices)), mixed[m..])
  }

  /** What `_build` does to the deck, given the number of slots: the two
      removals, then the deal phase. */
  function DeckPhase(cards: seq<PlayingCard>, start: CardData, goal: PlayingCard, slots: nat,
                     deckChoices: seq<int>, gridChoices: seq<int>): (phase: (Result<seq<PlayingCard>, DeckError>, seq<PlayingCard>))
    requires ValidChoices(deckChoices, |cards|) && ValidChoices(gridChoices, |cards|)
  {
    var removals := Removals(cards, start, goal.Data());
    if removals.0.Fail? then (Failure(removals.0.error), removals.1)
    else DealPhase(removals.1, goal, slots, deckChoices, gridChoices)
  }

  /** The deck phase fails exactly when a removal finds no equal card or the
      deck is too short to deal from; otherwise the stack holds the goal card
      and `max(slots - 2, 0)` dealt cards, the deck loses exactly those and
      the two removed cards, and no card is lost or gained. */
  lemma DeckPhaseAccounting(cards: seq<PlayingCard>, start: CardData, goal: PlayingCard, slots: nat,
                            deckChoices: seq<int>, gridChoices: seq<int>)
    requires ValidChoices(deckChoices, |cards|) && ValidChoices(gridChoices, |cards|)
    ensures var (stack, left) := DeckPhase(cards, start, goal, slots, deckChoices, gridChoices);
            var removals := Removals(cards, start, goal.Data());
            && (stack == Failure(CardNotFound) <==> removals.0.Fail?)
            && (stack == Failure(DeckUnderflow) <==> removals.0.Pass? && slots > |cards|)
            && (stack == Failure(DeckUnderflow) ==> left == [])
            && (stack.Success? ==>
                  var dealt := if slots < 2 then 0 else slots - 2;
                  && |stack.value| == dealt + 1
                  && |left| + dealt + 2 == |cards|
                  && multiset(stack.value) + multiset(left) == multiset(removals.1) + multiset{goal})
  {
    var removals := Removals(cards, start, goal.Data());
    if removals.0.Pass? {
      var rest := removals.1;
      var mixed := Shuffled(rest, deckChoices);
      ShuffledIsPermutation(rest, deckChoices);
      var n := slots - 2;
      if n <= |mixed| {
        var m := if n < 0 then 0 else n;
        ShuffledIsPermutation(mixed[..m] + [goal], gridChoices);
        assert mixed == mixed[..m] + mixed[m..];
      }
    }
  }

  /** The removals take out, first, the first card equal to the starting card
      and then the first remaining card equal to the goal card. */
  lemma RemovalsTakeEqualCards(cards: seq<PlayingCard>, start: CardData, goal: CardData)
    requires Removals(cards, start, goal).0.Pass?
    ensures exists i, j :: 0 <= i < |cards| && 0 <= j < |cards| - 1
              && cards[i].Data().Eq(start) && Without(cards, i)[j].Data().Eq(goal)
              && multiset(Removals(cards, start, goal).1) + multiset{cards[i], Without(cards, i)[j]}
                 == multiset(cards)
  {
    var i := IndexOf(Datas(cards), start).value;
    var rest := Without(cards, i);
    var j := IndexOf(Datas(rest), goal).value;
    WithoutKeepsTheRest(cards, i);
    WithoutKeepsTheRest(rest, j);
    assert cards[i].Data().Eq(start) && rest[j].Data().Eq(goal);
  }

  /** With fewer than two slots nothing is dealt: the stack is the goal card
      alone. */
  lemma FewSlotsStackIsGoal(cards: seq<PlayingCard>, start: CardData, goal: PlayingCard, slots: nat,
                            deckChoices: seq<int>, gridChoices: seq<int>)
    requires ValidChoices(deckChoices, |cards|) && ValidChoices(gridChoices, |cards|)
    requires slots < 2 && DeckPhase(cards, start, goal, slots, deckChoices, gridChoices).0.Success?
    ensures DeckPhase(cards, start, goal, slots, deckChoices, gridChoices).0.value == [goal]
  {
    var mixed := Shuffled(Removals(cards, start, goal.Data()).1, deckChoices);
    assert mixed[..0] + [goal] == [goal];
    ShortUnshuffled([goal], gridChoices);
  }

  lemma Rebalance<T>(board: multiset<T>, stack: multiset<T>, left: multiset<T>, kept: multiset<T>, x: T, y: T)
    requires board == stack + multiset{y} && stack + left == kept + multiset{x}
    ensures board + left == kept + multiset{x, y}
  {
    calc {
      board + left;
      stack + multiset{y} + left;
      (stack + left) + multiset{y};
      kept + multiset{x} + multiset{y};
      { assert multiset{x, y} == multiset{x} + multiset{y}; }
      kept + multiset{x, y};
    }
  }

  /** On a grid of placeholders with at least two slots, the cards on the
      filled board plus the cards left in the deck are exactly the deck after
      the two removals, plus the goal card and the starting card. */
  lemma CardsConserved(cards: seq<PlayingCard>, start: PlayingCard, goal: PlayingCard, g: Grid,
                       deckChoices: seq<int>, gridChoices: seq<int>)
    requires ValidChoices(deckChoices, |cards|) && ValidChoices(gridChoices, |cards|)
    requires AllFlags(g) && Slots(g) >= 2
    requires DeckPhase(cards, start.Data(), goal, Slots(g), deckChoices, gridChoices).0.Success?
    ensures var phase := DeckPhase(cards, start.Data(), goal, Slots(g), deckChoices, gridChoices);
            multiset(GridCards(FillGrid(g, phase.0.value, start))) + multiset(phase.1)
            == multiset(Removals(cards, start.Data(), goal.Data()).1) + multiset{goal, start}
  {
    var phase := DeckPhase(cards, start.Data(), goal, Slots(g), deckChoices, gridChoices);
    var stack, left := phase.0.value, phase.1;
    DeckPhaseAccounting(cards, start.Data(), goal, Slots(g), deckChoices, gridChoices);
    FilledCardsMultiset(g, stack, start);
    Rebalance(multiset(GridCards(FillGrid(g, stack, start))), multiset(stack), multiset(left),
              multiset(Removals(cards, start.Data(), goal.Data()).1), goal, start);
  }

  /** The goal card object itself, not merely a card equal to it, ends up on
      the board, and so does the starting card: the removals only take cards
      out of the deck, and the stack is built from the goal card itself. */
  lemma GoalAndStartOnBoard(cards: seq<PlayingCard>, start: PlayingCard, goal: PlayingCard, g: Grid,
                            deckChoices: seq<int>, gridChoices: seq<int>)
    requires ValidChoices(deckChoices, |cards|) && ValidChoices(gridChoices, |cards|)
    requires AllFlags(g) && Slots(g) >= 2
    requires DeckPhase(cards, start.Data(), goal, Slots(g), deckChoices, gridChoices).0.Success?
    ensures var stack := DeckPhase(cards, start.Data(), goal, Slots(g), deckChoices, gridChoices).0.value;
            goal in multiset(GridCards(FillGrid(g, stack, start)))
            && start in multiset(GridCards(FillGrid(g, stack, start)))
  {
    var rest := Removals(cards, start.Data(), goal.Data()).1;
    var mixed := Shuffled(rest, deckChoices);
    var m := Slots(g) - 2;
    var dealt := mixed[..m] + [goal];
    var stack := DeckPhase(cards, start.Data(), goal, Slots(g), deckChoices, gridChoices).0.value;
    assert stack == Shuffled(dealt, gridChoices);
    ShuffledIsPermutation(dealt, gridChoices);
    assert dealt[m] == goal;
    FilledCardsMultiset(g, stack, start);
  }

  // ---------------------------------------------------------------------------
  // The board
  // ---------------------------------------------------------------------------

  class CartaBoard {
    var grid: Grid
    const goalCard: PlayingCard
    const startingCard: PlayingCard
    /** Where the player stands; unset until the fill places the starting card. */
    var playerLocation: Option<(nat, nat)>

    constructor (grid: Grid, goalCard: PlayingCard, startingCard: PlayingCard)
      ensures this.grid == grid && this.goalCard == goalCard && this.startingCard == startingCard
      ensures playerLocation == None
    {
      this.grid := grid;
      this.goalCard := goalCard;
      this.startingCard := startingCard;
      playerLocation := None;
    }

    /** `create_grid`: `rows` rows of `columns` `True` placeholders each. */
    static method CreateGrid(rows: int, columns: int) returns (g: Grid)
      ensures g == TrueGrid(rows, columns)
      ensures |g| == if rows < 0 then 0 else rows
      ensures forall i :: 0 <= i < |g| ==> |g[i]| == if columns < 0 then 0 else columns
      ensures forall i, j :: 0 <= i < |g| && 0 <= j < |g[i]| ==> IsSlot(g[i][j])
    {
      g := [];
      var i := 0;
      while i < rows
        invariant rows >= 0 ==> 0 <= i <= rows
        invariant rows < 0 ==> i == 0
        invariant g == TrueGrid(i, columns)
      {
        var row: seq<Cell> := [];
        var j := 0;
        while j < columns
          invariant columns >= 0 ==> 0 <= j <= columns
          invariant columns < 0 ==> j == 0
          invariant row == seq(j, _ => Flag(true))
        {
          row := row + [Flag(true)];
          j := j + 1;
        }
        assert row == TrueGrid(i + 1, columns)[i];
        g := g + [row];
        i := i + 1;
      }
    }

    /** `is_valid_grid`: an empty grid has no first row and raises; otherwise
        the grid is valid when every row is as long as the first and every
        cell is a boolean. */
    static function IsValidGrid(g: Grid): (r: Result<bool, BoardError>)
      ensures r.Failure? <==> g == []
      ensures r.Failure? ==> r.error == EmptyGrid
      ensures r == Success(true) <==>
                g != [] && forall i :: 0 <= i < |g| ==> |g[i]| == |g[0]| && RowFlags(g[i])
    {
      if g == [] then Failure(EmptyGrid) else Success(RowsValid(g, |g[0]|))
    }

    /** `_available_slots_in_grid`: counts the `True` cells. */
    method AvailableSlots() returns (n: nat)
      ensures n == Slots(grid)
    {
      n := 0;
      var i := 0;
      while i < |grid|
        invariant 0 <= i <= |grid|
        invariant n == Slots(grid[..i])
      {
        var j := 0;
        var row := grid[i];
        while j < |row|
          invariant 0 <= j <= |row|
          invariant n == Slots(grid[..i]) + RowSlots(row[..j])
        {
          RowSlotsStep(row, j);
          if row[j] == Flag(true) {
            n := n + 1;
          }
          j := j + 1;
        }
        assert row[..|row|] == row;
        SlotsStep(grid, i);
        i := i + 1;
      }
      assert grid[..|grid|] == grid;
    }

    /** The fill loop of `_build`: visits the cells in row-major order and
        puts a card in every `True` cell, popped from the end of `stack` while
        it lasts and the starting card afterwards, each time the starting card
        is placed recording that cell as the player's location. */
    method FillSlots(stack: seq<PlayingCard>)
      modifies this
      ensures grid == FillGrid(old(grid), stack, startingCard)
      ensures Slots(old(grid)) > |stack| ==>
                playerLocation.Some? && IsLastSlot(old(grid), playerLocation.value)
      ensures Slots(old(grid)) <= |stack| ==> playerLocation == old(playerLocation)
    {
      ghost var g0 := grid;
      ghost var k: nat := 0;
      var g := grid;
      var location := playerLocation;
      var gridCards := stack;
      var i := 0;
      while i < |g|
        invariant 0 <= i <= |g| == |g0|
        invariant forall r :: 0 <= r < i ==> g[r] == FillRow(g0[r], stack, startingCard, Slots(g0[..r]))
        invariant forall r :: i <= r < |g0| ==> g[r] == g0[r]
        invariant k == Slots(g0[..i])
        invariant FillState(g0, stack, k, gridCards, location, old(playerLocation))
      {
        var row;
        SlotsStep(g0, i);
        row, gridCards, location, k := FillRowSlots(i, g[i], stack, gridCards, location, g0, k, old(playerLocation));
        g := g[i := row];
        i := i + 1;
      }
      FullPrefix(g0);
      assert k == Slots(g0);
      FillGridByRows(g0, stack, startingCard, g);
      grid := g;
      playerLocation := location;
    }

    /** The inner loop of the fill, over row `i` of the original grid `g0`,
        entered with `base` slots already visited, `gridCards` left and the
        player at `location0`. */
    method FillRowSlots(i: nat, row: seq<Cell>, stack: seq<PlayingCard>, gridCards: seq<PlayingCard>,
                        location0: Option<(nat, nat)>, ghost g0: Grid, ghost base: nat, ghost origin: Option<(nat, nat)>)
      returns (newRow: seq<Cell>, left: seq<PlayingCard>, location: Option<(nat, nat)>, ghost nextK: nat)
      requires i < |g0| && row == g0[i] && base == Slots(g0[..i])
      requires FillState(g0, stack, base, gridCards, location0, origin)
      ensures newRow == FillRow(row, stack, startingCard, base)
      ensures nextK == base + RowSlots(row)
      ensures FillState(g0, stack, nextK, left, location, origin)
    {
      ghost var want := FillRow(row, stack, startingCard, base);
      ghost var k := base;
      location := location0;
      newRow := row;
      left := gridCards;
      var j: nat := 0;
      while j < |newRow|
        invariant |newRow| == |row| == |want| && 0 <= j <= |newRow|
        invariant newRow == want[..j] + row[j..]
        invariant k == base + RowSlots(row[..j])
        invariant FillState(g0, stack, k, left, location, origin)
      {
        RowSlotsStep(row, j);
        WriteNext(newRow, want, row, j);
        var cell;
        cell, left, location, k := FillCell(i, j, newRow[j], stack, left, location, g0, k, origin);
        newRow := newRow[j := cell];
        j := j + 1;
      }
      FullPrefix(want);
      FullPrefix(row);
      nextK := k;
    }

    /** The body of the fill loop at cell (i, j) of the original grid `g0`,
        reached after `k` slots: a placeholder `True` takes the card popped
        off the remaining cards, or the starting card once none is left,
        which also records (i, j) as the player's location. */
    method FillCell(i: nat, j: nat, cell: Cell, stack: seq<PlayingCard>, left: seq<PlayingCard>,
                    location: Option<(nat, nat)>, ghost g0: Grid, ghost k: nat, ghost origin: Option<(nat, nat)>)
      returns (newCell: Cell, newLeft: seq<PlayingCard>, newLocation: Option<(nat, nat)>, ghost nextK: nat)
      requires i < |g0| && j < |g0[i]| && cell == g0[i][j] && k == Slots(g0[..i]) + RowSlots(g0[i][..j])
      requires FillState(g0, stack, k, left, location, origin)
      ensures newCell == FillRow(g0[i], stack, startingCard, Slots(g0[..i]))[j]
      ensures nextK == k + (if IsSlot(cell) then 1 else 0)
      ensures FillState(g0, stack, nextK, newLeft, newLocation, origin)
    {
      FillStateStep(g0, stack, startingCard, i, j, k, left, location, origin);
      newCell, newLeft, newLocation, nextK := cell, left, location, k;
      if cell == Flag(true) {
        if left != [] {
          newCell := Occupied(left[|left| - 1]);
          newLeft := left[..|left| - 1];
        } else {
          newCell := Occupied(startingCard);
          newLocation := Some((i, j));
        }
        nextK := k + 1;
      }
    }

    /** `_build`: the deck phase, then the fill. A removal that finds no equal
        card, or a deal past the end of the deck, stops the build with the
        grid untouched and the deck as the failing step left it. No card is
        turned over. */
    method Build(deck: Deck, deckChoices: seq<int>, gridChoices: seq<int>) returns (r: Outcome<DeckError>)
      requires ValidChoices(deckChoices, |deck.cards|) && ValidChoices(gridChoices, |deck.cards|)
      modifies this, deck
      ensures var (stack, left) := DeckPhase(old(deck.cards), startingCard.Data(), goalCard, Slots(old(grid)),
                                             deckChoices, gridChoices);
              && deck.cards == left
              && (stack.Failure? ==> r == Fail(stack.error) && grid == old(grid)
                                     && playerLocation == old(playerLocation))
              && (stack.Success? ==> r == Pass && grid == FillGrid(old(grid), stack.value, startingCard))
              && (stack.Success? && Slots(old(grid)) > |stack.value| ==>
                    playerLocation.Some? && IsLastSlot(old(grid), playerLocation.value))
              && (stack.Success? && Slots(old(grid)) <= |stack.value| ==>
                    playerLocation == old(playerLocation))
    {
      ghost var removals := Removals(deck.cards, startingCard.Data(), goalCard.Data());
      var removedStart := deck.Remove(startingCard);
      if removedStart.Fail? {
        return removedStart;
      }
      var removedGoal := deck.Remove(goalCard);
      if removedGoal.Fail? {
        return removedGoal;
      }
      assert removals.0.Pass? && deck.cards == removals.1;
      r := DealAndFill(deck, deckChoices, gridChoices);
    }

    /** The part of `_build` after the two removals: shuffle the deck, deal
        two cards fewer than there are slots, add the goal card, shuffle
        those and fill the slots with them. */
    method DealAndFill(deck: Deck, deckChoices: seq<int>, gridChoices: seq<int>) returns (r: Outcome<DeckError>)
      requires ValidChoices(deckChoices, |deck.cards|) && ValidChoices(gridChoices, |deck.cards| + 1)
      modifies this, deck
      ensures deck.cards == DealPhase(old(deck.cards), goalCard, Slots(old(grid)), deckChoices, gridChoices).1
      ensures var stack := DealPhase(old(deck.cards), goalCard, Slots(old(grid)), deckChoices, gridChoices).0;
              stack.Failure? ==> r == Fail(stack.error) && grid == old(grid) && playerLocation == old(playerLocation)
      ensures var stack := DealPhase(old(deck.cards), goalCard, Slots(old(grid)), deckChoices, gridChoices).0;
              stack.Success? ==> r == Pass && grid == FillGrid(old(grid), stack.value, startingCard)
      ensures var stack := DealPhase(old(deck.cards), goalCard, Slots(old(grid)), deckChoices, gridChoices).0;
              stack.Success? && Slots(old(grid)) > |stack.value| ==>
                playerLocation.Some? && IsLastSlot(old(grid), playerLocation.value)
      ensures var stack := DealPhase(old(deck.cards), goalCard, Slots(old(grid)), deckChoices, gridChoices).0;
              stack.Success? && Slots(old(grid)) <= |stack.value| ==> playerLocation == old(playerLocation)
    {
      ghost var phase := DealPhase(deck.cards, goalCard, Slots(grid), deckChoices, gridChoices);
      deck.Shuffle(deckChoices);
      ghost var mixed := deck.cards;
      var slots := AvailableSlots();
      var dealt := deck.Deal(slots as int - 2);
      if dealt.Failure? {
        assert phase == (Failure(DeckUnderflow), []);
        return Fail(dealt.error);
      }
      var gridCards := dealt.value + [goalCard];
      ghost var m := if slots < 2 then 0 else slots - 2;
      assert gridCards == mixed[..m] + [goalCard] && deck.cards == mixed[m..];
      var a := new PlayingCard[|gridCards|](t requires 0 <= t < |gridCards| => gridCards[t]);
      assert a[..] == gridCards;
      Shuffling.Shuffle(a, gridChoices);
      assert phase == (Success(a[..]), deck.cards);
      FillSlots(a[..]);
      return Pass;
    }

    /** `CartaBoard(deck, grid, goal_card, starting_card)`: checks the grid,
        turns the starting card face up and builds the board. A failure
        raised by the build leaves its effects on the deck and on the
        starting card. */
    static method Create(deck: Deck, grid: Grid, goalCard: PlayingCard, startingCard: PlayingCard,
                         deckChoices: seq<int>, gridChoices: seq<int>) returns (r: Result<CartaBoard, BoardError>)
      requires ValidChoices(deckChoices, |deck.cards|) && ValidChoices(gridChoices, |deck.cards|)
      modifies deck, startingCard
      ensures IsValidGrid(grid).Failure? ==> r == Failure(EmptyGrid)
      ensures IsValidGrid(grid) == Success(false) ==> r == Failure(InvalidGrid)
      ensures IsValidGrid(grid) != Success(true) ==>
                deck.cards == old(deck.cards) && startingCard.isFaceup == old(startingCard.isFaceup)
      ensures IsValidGrid(grid) == Success(true) ==>
                var (stack, left) := DeckPhase(old(deck.cards), startingCard.Data(), goalCard, Slots(grid),
                                               deckChoices, gridChoices);
                && startingCard.isFaceup
                && deck.cards == left
                && (stack.Failure? ==> r == Failure(DeckFailure(stack.error)))
                && (stack.Success? ==>
                      && r.Success? && fresh(r.value)
                      && r.value.goalCard == goalCard && r.value.startingCard == startingCard
                      && r.value.grid == FillGrid(grid, stack.value, startingCard)
                      && (Slots(grid) > |stack.value| ==>
                            r.value.playerLocation.Some? && IsLastSlot(grid, r.value.playerLocation.value))
                      && (Slots(grid) <= |stack.value| ==> r.value.playerLocation == None))
    {
      var valid := IsValidGrid(grid);
      if valid.Failure? {
        return Failure(valid.error);
      }
      if !valid.value {
        return Failure(InvalidGrid);
      }
      var board := new CartaBoard(grid, goalCard, startingCard);
      startingCard.isFaceup := true;
      var built := board.Build(deck, deckChoices, gridChoices);
      if built.Fail? {
        return Failure(DeckFailure(built.error));
      }
      return Success(board);
    }
  }

  /** A fresh grid with at least one row is valid, whatever the number of
      columns; one with no rows has no first row. */
  lemma TrueGridValidity(rows: int, columns: int)
    ensures rows >= 1 ==> CartaBoard.IsValidGrid(TrueGrid(rows, columns)) == Success(true)
    ensures rows < 1 ==> CartaBoard.IsValidGrid(TrueGrid(rows, columns)) == Failure(EmptyGrid)
  {
  }
}
