/** The Carta grid as a value: a list of rows whose cells are boolean
    placeholders (`True` marks a slot waiting for a card), cards, or anything
    else a caller put there. This module defines what the board code computes
    over such a grid: how many slots it has, the row-major rank of a slot, and
    the grid that filling the slots from a stack of cards produces. */
module CartaGrid {
  import opened Wrappers
  import opened Cards

  /** A grid cell: a boolean placeholder, a card placed on the board, or any
      other value (which makes the grid invalid). */
  datatype Cell = Flag(b: bool) | Occupied(card: PlayingCard) | Other

  type Grid = seq<seq<Cell>>

  /** `elem is True`: only the placeholder `True` is a slot. */
  predicate IsSlot(c: Cell)
  {
    c.Flag? && c.b
  }

  /** Every cell of the row is a boolean placeholder. */
  predicate RowFlags(row: seq<Cell>)
  {
    forall j :: 0 <= j < |row| ==> row[j].Flag?
  }

  predicate AllFlags(g: Grid)
  {
    forall i :: 0 <= i < |g| ==> RowFlags(g[i])
  }

  // ---------------------------------------------------------------------------
  // Counting slots and ranking them in row-major order
  // ---------------------------------------------------------------------------

  /** The number of slots in a row. */
  function RowSlots(row: seq<Cell>): (n: nat)
    ensures n <= |row|
  {
    if row == [] then 0
    else RowSlots(row[..|row| - 1]) + (if IsSlot(row[|row| - 1]) then 1 else 0)
  }

  /** The number of slots in a grid. */
  function Slots(g: Grid): (n: nat)
  {
    if g == [] then 0 else Slots(g[..|g| - 1]) + RowSlots(g[|g| - 1])
  }

  /** The number of slots that come before cell (i, j) in row-major order. */
  function Rank(g: Grid, i: nat, j: nat): (n: nat)
    requires i < |g| && j <= |g[i]|
  {
    Slots(g[..i]) + RowSlots(g[i][..j])
  }

  /** Cell `loc` is the last slot of the grid in row-major order. */
  predicate IsLastSlot(g: Grid, loc: (nat, nat))
  {
    IsLastSlotSoFar(g, loc, Slots(g))
  }

  /** `loc` is a slot of rank `k - 1`: the last slot among the first `k`. */
  predicate IsLastSlotSoFar(g: Grid, loc: (nat, nat), k: nat)
  {
    loc.0 < |g| && loc.1 < |g[loc.0]| && IsSlot(g[loc.0][loc.1]) && Rank(g, loc.0, loc.1) + 1 == k
  }

  /** (i, j) comes strictly before (k, l) in row-major order. */
  predicate Before(i: nat, j: nat, k: nat, l: nat)
  {
    i < k || (i == k && j < l)
  }

  lemma RowSlotsStep(row: seq<Cell>, j: nat)
    requires j < |row|
    ensures RowSlots(row[..j + 1]) == RowSlots(row[..j]) + (if IsSlot(row[j]) then 1 else 0)
  {
    assert row[..j + 1][..j] == row[..j];
  }

  lemma SlotsStep(g: Grid, i: nat)
    requires i < |g|
    ensures Slots(g[..i + 1]) == Slots(g[..i]) + RowSlots(g[i])
  {
    assert g[..i + 1][..i] == g[..i];
  }

  /** Slots counted in a row prefix grow with the prefix, strictly across a slot. */
  lemma {:induction false} RowSlotsMonotone(row: seq<Cell>, m: nat, n: nat)
    requires m <= n <= |row|
    ensures RowSlots(row[..m]) <= RowSlots(row[..n])
    ensures m < n && IsSlot(row[m]) ==> RowSlots(row[..m]) < RowSlots(row[..n])
    decreases n - m
  {
    if m < n {
      RowSlotsStep(row, m);
      RowSlotsMonotone(row, m + 1, n);
    }
  }

  lemma {:induction false} SlotsMonotone(g: Grid, m: nat, n: nat)
    requires m <= n <= |g|
    ensures Slots(g[..m]) <= Slots(g[..n])
    decreases n - m
  {
    if m < n {
      SlotsStep(g, m);
      SlotsMonotone(g, m + 1, n);
    }
  }

  /** A slot's rank is below the number of slots, and slots later in
      row-major order have larger ranks. */
  lemma RankOrder(g: Grid, i: nat, j: nat, k: nat, l: nat)
    requires i < |g| && j < |g[i]| && IsSlot(g[i][j])
    requires k < |g| && l <= |g[k]| && Before(i, j, k, l)
    ensures Rank(g, i, j) < Slots(g)
    ensures Rank(g, i, j) < Rank(g, k, l)
  {
    RowSlotsMonotone(g[i], j, |g[i]|);
    assert g[i][..|g[i]|] == g[i];
    SlotsStep(g, i);
    SlotsMonotone(g, i + 1, |g|);
    assert g[..|g|] == g;
    if i < k {
      SlotsMonotone(g, i + 1, k);
    } else {
      RowSlotsMonotone(g[i], j, l);
    }
  }

  /** No slot follows the last slot in row-major order. */
  lemma LastSlotIsLast(g: Grid, i: nat, j: nat, k: nat, l: nat)
    requires IsLastSlot(g, (i, j))
    requires k < |g| && l < |g[k]| && Before(i, j, k, l)
    ensures !IsSlot(g[k][l])
  {
    RankOrder(g, i, j, k, l);
    if IsSlot(g[k][l]) {
      RankOrder(g, k, l, k, l + 1);
    }
  }

  /** The last slot, when there is one, is a single cell. */
  lemma LastSlotUnique(g: Grid, a: (nat, nat), b: (nat, nat))
    requires IsLastSlot(g, a) && IsLastSlot(g, b)
    ensures a == b
  {
    if Before(a.0, a.1, b.0, b.1) {
      RankOrder(g, a.0, a.1, b.0, b.1);
    } else if Before(b.0, b.1, a.0, a.1) {
      RankOrder(g, b.0, b.1, a.0, a.1);
    }
  }

  // ---------------------------------------------------------------------------
  // The grid `create_grid` builds
  // ---------------------------------------------------------------------------

  /** `rows` rows of `columns` `True` placeholders (none for a negative count). */
  function TrueGrid(rows: int, columns: int): (g: Grid)
    ensures |g| == if rows < 0 then 0 else rows
  {
    var r := if rows < 0 then 0 else rows;
    var c := if columns < 0 then 0 else columns;
    seq(r, _ => seq(c, _ => Flag(true)))
  }

  lemma {:induction false} AllTrueRowSlots(row: seq<Cell>)
    requires forall j :: 0 <= j < |row| ==> row[j] == Flag(true)
    ensures RowSlots(row) == |row|
    decreases |row|
  {
    if row != [] {
      AllTrueRowSlots(row[..|row| - 1]);
    }
  }

  /** Every cell of a fresh grid is a slot. */
  lemma {:induction false} TrueGridSlots(rows: nat, columns: nat)
    ensures Slots(TrueGrid(rows, columns)) == rows * columns
  {
    var g := TrueGrid(rows, columns);
    if rows > 0 {
      assert g[..rows - 1] == TrueGrid(rows - 1, columns);
      TrueGridSlots(rows - 1, columns);
      AllTrueRowSlots(g[rows - 1]);
    }
  }

  // ---------------------------------------------------------------------------
  // Filling the slots
  // ---------------------------------------------------------------------------

  /** The card the slot of rank `k` receives: cards are popped from the end of
      `stack`, and once it is empty every further slot gets `start`. */
  function CardForRank(stack: seq<PlayingCard>, start: PlayingCard, k: nat): (c: PlayingCard)
    ensures k < |stack| ==> c == stack[|stack| - 1 - k]
    ensures k >= |stack| ==> c == start
  {
    if k < |stack| then stack[|stack| - 1 - k] else start
  }

  /** Row `row` filled, when `base` slots precede it. */
  function FillRow(row: seq<Cell>, stack: seq<PlayingCard>, start: PlayingCard, base: nat): (r: seq<Cell>)
    ensures |r| == |row|
  {
    seq(|row|, j requires 0 <= j < |row| =>
      if IsSlot(row[j]) then Occupied(CardForRank(stack, start, base + RowSlots(row[..j]))) else row[j])
  }

  /** The grid after the fill loop: each slot holds the card for its rank, and
      every other cell is as it was. */
  function FillGrid(g: Grid, stack: seq<PlayingCard>, start: PlayingCard): (f: Grid)
    ensures |f| == |g|
    ensures forall i :: 0 <= i < |g| ==> |f[i]| == |g[i]|
  {
    seq(|g|, i requires 0 <= i < |g| => FillRow(g[i], stack, start, Slots(g[..i])))
  }

  /** A slot of the filled grid holds the card for its rank. */
  lemma FillGridAt(g: Grid, stack: seq<PlayingCard>, start: PlayingCard, i: nat, j: nat)
    requires i < |g| && j < |g[i]| && IsSlot(g[i][j])
    ensures FillGrid(g, stack, start)[i][j] == Occupied(CardForRank(stack, start, Rank(g, i, j)))
  {
    assert FillGrid(g, stack, start)[i] == FillRow(g[i], stack, start, Slots(g[..i]));
    FillRowAt(g[i], stack, start, Slots(g[..i]), j);
  }

  /** Filling puts in each slot the card for its rank and leaves every other
      cell as it was. */
  lemma FillGridCells(g: Grid, stack: seq<PlayingCard>, start: PlayingCard)
    ensures forall i, j :: 0 <= i < |g| && 0 <= j < |g[i]| && IsSlot(g[i][j]) ==>
              FillGrid(g, stack, start)[i][j] == Occupied(CardForRank(stack, start, Rank(g, i, j)))
    ensures forall i, j :: 0 <= i < |g| && 0 <= j < |g[i]| && !IsSlot(g[i][j]) ==>
              FillGrid(g, stack, start)[i][j] == g[i][j]
  {
  }

  /** Writing the next target element into a sequence whose prefix already
      holds the target and whose rest still holds the original. */
  lemma WriteNext<T>(s: seq<T>, target: seq<T>, original: seq<T>, j: nat)
    requires |target| == |original| && j < |original|
    requires s == target[..j] + original[j..]
    ensures s[j := target[j]] == target[..j + 1] + original[j + 1..]
  {
  }

  lemma FullPrefix<T>(s: seq<T>)
    ensures s[..|s|] == s
  {
  }

  /** The cell a filled row holds at position `j`. */
  lemma FillRowAt(row: seq<Cell>, stack: seq<PlayingCard>, start: PlayingCard, base: nat, j: nat)
    requires j < |row|
    ensures FillRow(row, stack, start, base)[j]
            == if IsSlot(row[j]) then Occupied(CardForRank(stack, start, base + RowSlots(row[..j]))) else row[j]
  {
  }

  /** Popping the last of the cards still on the stack gives the card for
      rank `k`. */
  lemma PopGivesCardForRank(stack: seq<PlayingCard>, start: PlayingCard, left: seq<PlayingCard>, k: nat)
    requires k < |stack| && left == stack[..|stack| - k]
    ensures left != [] && left[|left| - 1] == CardForRank(stack, start, k)
    ensures left[..|left| - 1] == stack[..|stack| - (k + 1)]
  {
  }

  /** The state of the fill after `k` slots, starting from player location
      `origin`: the cards not yet placed are the bottom `|stack| - k` of the
      stack; once the stack has run out, none are left and the player stands
      on the last slot so far. */
  predicate FillState(g: Grid, stack: seq<PlayingCard>, k: nat, left: seq<PlayingCard>,
                      location: Option<(nat, nat)>, origin: Option<(nat, nat)>)
  {
    && (k <= |stack| ==> left == stack[..|stack| - k] && location == origin)
    && (k > |stack| ==> left == [] && location.Some? && IsLastSlotSoFar(g, location.value, k))
  }

  /** One step of the fill at cell (i, j), reached after `k` slots: a cell
      that is not a slot is kept; a slot takes the last card left, or the
      starting card once none is left, which moves the player there. */
  lemma FillStateStep(g: Grid, stack: seq<PlayingCard>, start: PlayingCard, i: nat, j: nat, k: nat,
                      left: seq<PlayingCard>, location: Option<(nat, nat)>, origin: Option<(nat, nat)>)
    requires i < |g| && j < |g[i]| && k == Slots(g[..i]) + RowSlots(g[i][..j])
    requires FillState(g, stack, k, left, location, origin)
    ensures !IsSlot(g[i][j]) ==> FillRow(g[i], stack, start, Slots(g[..i]))[j] == g[i][j]
    ensures IsSlot(g[i][j]) && left != [] ==>
              && FillRow(g[i], stack, start, Slots(g[..i]))[j] == Occupied(left[|left| - 1])
              && FillState(g, stack, k + 1, left[..|left| - 1], location, origin)
    ensures IsSlot(g[i][j]) && left == [] ==>
              && FillRow(g[i], stack, start, Slots(g[..i]))[j] == Occupied(start)
              && FillState(g, stack, k + 1, [], Some((i, j)), origin)
  {
    FillRowAt(g[i], stack, start, Slots(g[..i]), j);
    if k < |stack| {
      PopGivesCardForRank(stack, start, left, k);
    }
  }

  /** A grid whose every row is the filled version of the original row is
      the filled grid. */
  lemma FillGridByRows(g: Grid, stack: seq<PlayingCard>, start: PlayingCard, f: Grid)
    requires |f| == |g|
    requires forall r :: 0 <= r < |g| ==> f[r] == FillRow(g[r], stack, start, Slots(g[..r]))
    ensures f == FillGrid(g, stack, start)
  {
  }

  /** Filling leaves no slot behind. */
  lemma FilledGridHasNoSlots(g: Grid, stack: seq<PlayingCard>, start: PlayingCard)
    ensures Slots(FillGrid(g, stack, start)) == 0
  {
    var f := FillGrid(g, stack, start);
    forall n | 0 <= n <= |f| ensures Slots(f[..n]) == 0 {
      NoSlotsPrefix(g, stack, start, n);
    }
    assert f[..|f|] == f;
  }

  lemma {:induction false} NoSlotsPrefix(g: Grid, stack: seq<PlayingCard>, start: PlayingCard, n: nat)
    requires n <= |g|
    ensures Slots(FillGrid(g, stack, start)[..n]) == 0
  {
    var f := FillGrid(g, stack, start);
    if n > 0 {
      NoSlotsPrefix(g, stack, start, n - 1);
      SlotsStep(f, n - 1);
      NoSlotsRow(f[n - 1], |f[n - 1]|);
      assert f[n - 1][..|f[n - 1]|] == f[n - 1];
      PlacementsAppend(stack, start, 0, Slots(g[..n - 1]), RowSlots(g[n - 1]));
    }
  }

  lemma {:induction false} NoSlotsRow(row: seq<Cell>, m: nat)
    requires m <= |row| && forall j :: 0 <= j < |row| ==> !IsSlot(row[j])
    ensures RowSlots(row[..m]) == 0
  {
    if m > 0 {
      RowSlotsStep(row, m - 1);
      NoSlotsRow(row, m - 1);
    }
  }

  /** When the stack runs out before the slots do, the last slot holds the
      starting card. */
  lemma StartAtLastSlot(g: Grid, stack: seq<PlayingCard>, start: PlayingCard, i: nat, j: nat)
    requires IsLastSlot(g, (i, j)) && |stack| < Slots(g)
    ensures FillGrid(g, stack, start)[i][j] == Occupied(start)
  {
    FillGridAt(g, stack, start, i, j);
  }

  /** With one slot and a one-card stack, that slot receives the stack's card
      and no slot is left over for the starting card. */
  lemma SingleSlotGetsOnlyCard(g: Grid, card: PlayingCard, start: PlayingCard, i: nat, j: nat)
    requires Slots(g) == 1 && IsLastSlot(g, (i, j))
    ensures FillGrid(g, [card], start)[i][j] == Occupied(card)
    ensures forall k, l :: 0 <= k < |g| && 0 <= l < |g[k]| && (k, l) != (i, j) ==>
              FillGrid(g, [card], start)[k][l] == g[k][l]
  {
    FillGridCells(g, [card], start);
    forall k, l | 0 <= k < |g| && 0 <= l < |g[k]| && (k, l) != (i, j)
      ensures FillGrid(g, [card], start)[k][l] == g[k][l]
    {
      if IsSlot(g[k][l]) {
        if Before(k, l, i, j) {
          RankOrder(g, k, l, i, j);
        } else {
          LastSlotIsLast(g, i, j, k, l);
        }
      }
    }
  }

  // ---------------------------------------------------------------------------
  // The cards on a board, in row-major order
  // ---------------------------------------------------------------------------

  function RowCards(row: seq<Cell>): seq<PlayingCard>
  {
    if row == [] then []
    else RowCards(row[..|row| - 1]) + (if row[|row| - 1].Occupied? then [row[|row| - 1].card] else [])
  }

  function GridCards(g: Grid): seq<PlayingCard>
  {
    if g == [] then [] else GridCards(g[..|g| - 1]) + RowCards(g[|g| - 1])
  }

  /** The cards slots of ranks base, base + 1, ..., base + n - 1 receive. */
  function Placements(stack: seq<PlayingCard>, start: PlayingCard, base: nat, n: nat): (p: seq<PlayingCard>)
    ensures |p| == n
  {
    seq<PlayingCard>(n, t requires 0 <= t < n => CardForRank(stack, start, base + t))
  }

  /** Consecutive runs of placements join up. */
  lemma PlacementsAppend(stack: seq<PlayingCard>, start: PlayingCard, base: nat, a: nat, b: nat)
    ensures Placements(stack, start, base, a) + Placements(stack, start, base + a, b)
            == Placements(stack, start, base, a + b)
  {
    var p := Placements(stack, start, base, a) + Placements(stack, start, base + a, b);
    var q := Placements(stack, start, base, a + b);
    forall k | 0 <= k < a + b
      ensures p[k] == q[k]
    {
      if k >= a {
        assert p[k] == Placements(stack, start, base + a, b)[k - a];
      }
    }
  }

  lemma {:induction false} FilledRowCards(row: seq<Cell>, stack: seq<PlayingCard>, start: PlayingCard, base: nat, m: nat)
    requires RowFlags(row) && m <= |row|
    ensures RowCards(FillRow(row, stack, start, base)[..m]) == Placements(stack, start, base, RowSlots(row[..m]))
  {
    var f := FillRow(row, stack, start, base);
    if m > 0 {
      FilledRowCards(row, stack, start, base, m - 1);
      RowSlotsStep(row, m - 1);
      assert f[..m][..m - 1] == f[..m - 1];
      PlacementsAppend(stack, start, base, RowSlots(row[..m - 1]), 1);
    }
  }

  lemma GridCardsStep(f: Grid, n: nat)
    requires 0 < n <= |f|
    ensures GridCards(f[..n]) == GridCards(f[..n - 1]) + RowCards(f[n - 1])
  {
    assert f[..n][..n - 1] == f[..n - 1];
  }

  lemma FilledRowPlacements(row: seq<Cell>, stack: seq<PlayingCard>, start: PlayingCard, base: nat)
    requires RowFlags(row)
    ensures RowCards(FillRow(row, stack, start, base)) == Placements(stack, start, base, RowSlots(row))
  {
    FilledRowCards(row, stack, start, base, |row|);
    assert row[..|row|] == row;
    assert FillRow(row, stack, start, base)[..|row|] == FillRow(row, stack, start, base);
  }

  /** One more filled row extends the placements read so far. */
  lemma FilledGridCardsStep(g: Grid, stack: seq<PlayingCard>, start: PlayingCard, f: Grid, n: nat)
    requires 0 < n <= |g| && n <= |f| && RowFlags(g[n - 1])
    requires f[n - 1] == FillRow(g[n - 1], stack, start, Slots(g[..n - 1]))
    requires GridCards(f[..n - 1]) == Placements(stack, start, 0, Slots(g[..n - 1]))
    ensures GridCards(f[..n]) == Placements(stack, start, 0, Slots(g[..n]))
  {
    var base := Slots(g[..n - 1]);
    GridCardsStep(f, n);
    FilledRowPlacements(g[n - 1], stack, start, base);
    PlacementsAppend(stack, start, 0, base, RowSlots(g[n - 1]));
    SlotsStep(g, n - 1);
  }

  /** Filled rows hold their placements in order, row after row; `f` is any
      grid whose rows are those of the filled grid. */
  lemma {:induction false} FilledGridCardsPrefix(g: Grid, stack: seq<PlayingCard>, start: PlayingCard, f: Grid, n: nat)
    requires AllFlags(g) && n <= |g| && |f| == |g|
    requires forall r :: 0 <= r < |g| ==> f[r] == FillRow(g[r], stack, start, Slots(g[..r]))
    ensures GridCards(f[..n]) == Placements(stack, start, 0, Slots(g[..n]))
  {
    if n > 0 {
      FilledGridCardsPrefix(g, stack, start, f, n - 1);
      FilledGridCardsStep(g, stack, start, f, n);
    } else {
      assert f[..0] == [] && g[..0] == [];
      assert Placements(stack, start, 0, 0) == [];
    }
  }

  /** Reading a filled all-placeholder grid in row-major order yields the
      cards in the order they were placed. */
  lemma FilledGridCards(g: Grid, stack: seq<PlayingCard>, start: PlayingCard)
    requires AllFlags(g)
    ensures GridCards(FillGrid(g, stack, start)) == Placements(stack, start, 0, Slots(g))
  {
    FilledGridCardsPrefix(g, stack, start, FillGrid(g, stack, start), |g|);
    assert g[..|g|] == g;
    assert FillGrid(g, stack, start)[..|g|] == FillGrid(g, stack, start);
  }

  function Reversed<T>(s: seq<T>): (r: seq<T>)
    ensures |r| == |s|
    ensures forall k :: 0 <= k < |s| ==> r[k] == s[|s| - 1 - k]
  {
    if s == [] then [] else Reversed(s[1..]) + [s[0]]
  }

  lemma {:induction false} ReversedSameMultiset<T>(s: seq<T>)
    ensures multiset(Reversed(s)) == multiset(s)
  {
    if s != [] {
      ReversedSameMultiset(s[1..]);
      assert s == [s[0]] + s[1..];
    }
  }

  /** When there is exactly one slot more than cards on the stack, the board
      receives the whole stack, last card first, and the starting card once. */
  lemma PlacementsOfFullStack(stack: seq<PlayingCard>, start: PlayingCard)
    ensures Placements(stack, start, 0, |stack| + 1) == Reversed(stack) + [start]
    ensures multiset(Placements(stack, start, 0, |stack| + 1)) == multiset(stack) + multiset{start}
  {
    var p := Placements(stack, start, 0, |stack| + 1);
    var q := Reversed(stack) + [start];
    forall k | 0 <= k < |stack| + 1
      ensures p[k] == q[k]
    {
      assert p[k] == CardForRank(stack, start, k);
      if k < |stack| {
        assert q[k] == Reversed(stack)[k];
        assert Reversed(stack)[k] == stack[|stack| - 1 - k];
      } else {
        assert q[k] == start;
      }
    }
    assert p == q;
    ReversedSameMultiset(stack);
    assert multiset(q) == multiset(Reversed(stack)) + multiset{start};
  }

  /** On a grid of placeholders with one slot more than cards on the stack,
      the filled board holds exactly the stack's cards and the starting card. */
  lemma FilledCardsMultiset(g: Grid, stack: seq<PlayingCard>, start: PlayingCard)
    requires AllFlags(g) && |stack| + 1 == Slots(g)
    ensures multiset(GridCards(FillGrid(g, stack, start))) == multiset(stack) + multiset{start}
  {
    FilledGridCards(g, stack, start);
    PlacementsOfFullStack(stack, start);
  }
}
