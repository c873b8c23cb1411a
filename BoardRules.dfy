/** The read-only rules of the board: the 5×5 grid, move legality, the push
    chain probe, what a move does to the grid (as a function), gem scores and
    the end of the game.

    The grid is stored row-major: cell (row, col) is element 5*row+col of a
    sequence of 25 optional cards. Rows and columns 0 and 4 form the outer
    ring ("graveyard"); only rows and columns 1..3 may be targeted. */
module BoardRules {
  import opened Optional
  import opened Directions
  import opened CardScript

  type Grid = seq<Option<Card>>

  /** A gem position as the game stores it: x is the column, y the row. */
  datatype Pos = Pos(x: int, y: int)

  /** A cell given by its row and column. */
  datatype Cell = Cell(row: int, col: int)

  /** Gem counts: x for player 1 (cards with isPlayerCard), y for player 2. */
  datatype Scores = Scores(x: int, y: int)

  predicate WellFormed(g: Grid)
  {
    |g| == 25
  }

  predicate InGrid(c: Cell)
  {
    0 <= c.row < 5 && 0 <= c.col < 5
  }

  /** The playable 3×3 centre. */
  predicate Inner(row: int, col: int)
  {
    1 <= row <= 3 && 1 <= col <= 3
  }

  function Idx(c: Cell): (i: nat)
    requires InGrid(c)
    ensures i < 25
  {
    5 * c.row + c.col
  }

  function At(g: Grid, c: Cell): Option<Card>
    requires WellFormed(g) && InGrid(c)
  {
    g[Idx(c)]
  }

  /** The content of the corner cell (0, 0). */
  function Corner(g: Grid): Option<Card>
    requires WellFormed(g)
  {
    g[0]
  }

  /** The cell of a gem position (x is the column, y the row). */
  function GemCell(p: Pos): Cell
  {
    Cell(p.y, p.x)
  }

  predicate GemsInGrid(gems: seq<Pos>)
  {
    forall i :: 0 <= i < |gems| ==> InGrid(GemCell(gems[i]))
  }

  /** What the board's initialisation produces: three distinct positions in the centre. */
  predicate ValidGems(gems: seq<Pos>)
  {
    && |gems| == 3
    && (forall i :: 0 <= i < |gems| ==> Inner(gems[i].y, gems[i].x))
    && (forall i, j :: 0 <= i < j < |gems| ==> gems[i] != gems[j])
  }

  /** A gem lies on (row, column). */
  predicate GemHere(gems: seq<Pos>, row: int, column: int)
  {
    Pos(column, row) in gems
  }

  // ---------------------------------------------------------------------------
  // Walking along a push direction

  /** The cell k steps from `start` in direction `dir`. */
  function Walk(start: Cell, dir: Direction, k: int): Cell
  {
    match dir
    case Up => Cell(start.row - k, start.col)
    case Down => Cell(start.row + k, start.col)
    case Left => Cell(start.row, start.col - k)
    case Right => Cell(start.row, start.col + k)
    case NoPush => start
  }

  /** How many steps from `c` in direction `dir` stay inside the 5×5 array. */
  function Reach(c: Cell, dir: Direction): int
  {
    match dir
    case Up => c.row
    case Down => 4 - c.row
    case Left => c.col
    case Right => 4 - c.col
    case NoPush => 0
  }

  /** The cells 0..j steps from `start` in direction `dir`, as a region. */
  predicate OnWalk(start: Cell, dir: Direction, j: int, c: Cell)
  {
    match dir
    case Up => c.col == start.col && start.row - j <= c.row <= start.row
    case Down => c.col == start.col && start.row <= c.row <= start.row + j
    case Left => c.row == start.row && start.col - j <= c.col <= start.col
    case Right => c.row == start.row && start.col <= c.col <= start.col + j
    case NoPush => c == start
  }

  lemma WalkShift(start: Cell, dir: Direction, k: int)
    ensures Walk(Walk(start, dir, 1), dir, k) == Walk(start, dir, k + 1)
  {
  }

  // ---------------------------------------------------------------------------
  // The chain probe

  /** The probe of a push: walk from `start` along `dir` while the cells hold
      cards. It fails (None) when a resident card does not give way or when the
      walk leaves the 5×5 array (the game's code detects this by catching an index
      exception); otherwise it gives the number of cards in the chain, the walk
      stopping at the first empty cell, which may lie in the outer ring. */
  function ChainLength(g: Grid, start: Cell, dir: Direction): Option<nat>
    requires WellFormed(g)
    decreases if InGrid(start) then Reach(start, dir) + 1 else 0
  {
    if !InGrid(start) then None
    else if At(g, start).None? then Some(0)
    else if !CanPushThisWay(At(g, start).value, dir) then None
    else
      match ChainLength(g, Walk(start, dir, 1), dir)
      case None => None
      case Some(n) => Some(n + 1)
  }

  /** `n` cards stand in a row from `start` along `dir`, each giving way to the
      push, and the cell after them is an empty cell of the 5×5 array. */
  predicate IsChain(g: Grid, start: Cell, dir: Direction, n: nat)
    requires WellFormed(g)
  {
    && (forall k :: 0 <= k < n ==>
          InGrid(Walk(start, dir, k)) && At(g, Walk(start, dir, k)).Some? &&
          CanPushThisWay(At(g, Walk(start, dir, k)).value, dir))
    && InGrid(Walk(start, dir, n))
    && At(g, Walk(start, dir, n)).None?
  }

  /** The probe finds exactly the chain: it returns n iff `n` cards give way
      and are followed by an empty cell (so it fails iff there is no such n). */
  lemma {:induction false} ChainLengthIsChain(g: Grid, start: Cell, dir: Direction, n: nat)
    requires WellFormed(g)
    ensures ChainLength(g, start, dir) == Some(n) <==> IsChain(g, start, dir, n)
    decreases if InGrid(start) then Reach(start, dir) + 1 else 0
  {
    assert Walk(start, dir, 0) == start;
    if InGrid(start) && At(g, start).Some? && CanPushThisWay(At(g, start).value, dir) && n > 0 {
      ChainLengthIsChain(g, Walk(start, dir, 1), dir, n - 1);
      IsChainStep(g, start, dir, n);
    }
  }

  /** A chain of n > 0 cards from a card that gives way is that card followed
      by a chain of n - 1 cards from the next cell. */
  lemma IsChainStep(g: Grid, start: Cell, dir: Direction, n: nat)
    requires WellFormed(g) && InGrid(start) && At(g, start).Some? && CanPushThisWay(At(g, start).value, dir) && n > 0
    ensures IsChain(g, start, dir, n) <==> IsChain(g, Walk(start, dir, 1), dir, n - 1)
  {
    var next := Walk(start, dir, 1);
    assert Walk(start, dir, 0) == start;
    forall k | 0 <= k <= n - 1
      ensures Walk(next, dir, k) == Walk(start, dir, k + 1)
    {
      WalkShift(start, dir, k);
    }
    if IsChain(g, next, dir, n - 1) {
      forall k | 0 <= k < n
        ensures InGrid(Walk(start, dir, k)) && At(g, Walk(start, dir, k)).Some? &&
                CanPushThisWay(At(g, Walk(start, dir, k)).value, dir)
      {
        if k > 0 {
          assert Walk(start, dir, k) == Walk(next, dir, k - 1);
        }
      }
    }
    if IsChain(g, start, dir, n) {
      forall k | 0 <= k < n - 1
        ensures InGrid(Walk(next, dir, k)) && At(g, Walk(next, dir, k)).Some? &&
                CanPushThisWay(At(g, Walk(next, dir, k)).value, dir)
      {
        assert Walk(next, dir, k) == Walk(start, dir, k + 1);
      }
    }
  }

  // ---------------------------------------------------------------------------
  // Shifting the chain

  /** The apply mode of the probe: for j, j-1, ..., 1 the card j-1 steps from
      `start` moves into the cell j steps from `start` and its old cell is
      cleared, so the far end of the chain moves first. */
  function Shift(g: Grid, start: Cell, dir: Direction, j: nat): (r: Grid)
    requires WellFormed(g)
    requires forall k :: 0 <= k <= j ==> InGrid(Walk(start, dir, k))
    ensures |r| == |g|
    decreases j
  {
    if j == 0 then g
    else
      var to := Idx(Walk(start, dir, j));
      var from := Idx(Walk(start, dir, j - 1));
      Shift(g[from := None][to := g[from]], start, dir, j - 1)
  }

  /** Distinct step counts give distinct cells, and the region OnWalk(j) is
      exactly the cells 0..j steps out. */
  lemma WalkFacts(start: Cell, dir: Direction, j: int, a: int, b: int)
    requires dir != NoPush
    ensures Walk(start, dir, a) == Walk(start, dir, b) ==> a == b
    ensures OnWalk(start, dir, j, Walk(start, dir, a)) <==> 0 <= a <= j
  {
  }

  /** One step of the shift: the card at `from` moves into the empty cell `to`. */
  lemma ShiftStep(g: Grid, fromC: Cell, toC: Cell)
    requires WellFormed(g) && InGrid(fromC) && InGrid(toC) && fromC != toC
    requires At(g, toC).None?
    ensures var g1 := g[Idx(fromC) := None][Idx(toC) := g[Idx(fromC)]];
            && WellFormed(g1)
            && At(g1, fromC).None?
            && At(g1, toC) == At(g, fromC)
            && (forall c :: InGrid(c) && c != fromC && c != toC ==> At(g1, c) == At(g, c))
            && multiset(g1) == multiset(g)
  {
    var from, to := Idx(fromC), Idx(toC);
    var g1 := g[from := None][to := g[from]];
    forall c | InGrid(c) && c != fromC && c != toC
      ensures At(g1, c) == At(g, c)
    {
      assert Idx(c) != from && Idx(c) != to;
    }
  }

  /** A shift keeps the grid's multiset of cells and clears `start`. */
  lemma {:induction false} ShiftKeepsCards(g: Grid, start: Cell, dir: Direction, j: nat)
    requires WellFormed(g)
    requires j > 0 ==> dir != NoPush
    requires forall k :: 0 <= k <= j ==> InGrid(Walk(start, dir, k))
    requires At(g, Walk(start, dir, j)).None?
    ensures InGrid(start) && At(Shift(g, start, dir, j), start).None?
    ensures multiset(Shift(g, start, dir, j)) == multiset(g)
    decreases j
  {
    assert Walk(start, dir, 0) == start;
    if j > 0 {
      var toC, fromC := Walk(start, dir, j), Walk(start, dir, j - 1);
      WalkFacts(start, dir, 0, j, j - 1);
      ShiftStep(g, fromC, toC);
      ShiftKeepsCards(g[Idx(fromC) := None][Idx(toC) := g[Idx(fromC)]], start, dir, j - 1);
    }
  }

  /** What a shift does cell by cell: the card k-1 steps out moves k steps out
      (1 <= k <= j) and every cell off the walk keeps its card. */
  lemma ShiftMovesChain(g: Grid, start: Cell, dir: Direction, j: nat)
    requires WellFormed(g)
    requires j > 0 ==> dir != NoPush
    requires forall k :: 0 <= k <= j ==> InGrid(Walk(start, dir, k))
    requires At(g, Walk(start, dir, j)).None?
    ensures forall k :: 1 <= k <= j ==>
              At(Shift(g, start, dir, j), Walk(start, dir, k)) == At(g, Walk(start, dir, k - 1))
    ensures forall c :: InGrid(c) && !OnWalk(start, dir, j, c) ==>
              At(Shift(g, start, dir, j), c) == At(g, c)
  {
    ShiftMovesWalk(g, start, dir, j);
    ShiftKeepsOffWalk(g, start, dir, j);
  }

  /** The cards of the walk each move one step out. */
  lemma {:induction false} ShiftMovesWalk(g: Grid, start: Cell, dir: Direction, j: nat)
    requires WellFormed(g)
    requires j > 0 ==> dir != NoPush
    requires forall k :: 0 <= k <= j ==> InGrid(Walk(start, dir, k))
    requires At(g, Walk(start, dir, j)).None?
    ensures forall k :: 1 <= k <= j ==>
              At(Shift(g, start, dir, j), Walk(start, dir, k)) == At(g, Walk(start, dir, k - 1))
    decreases j
  {
    if j > 0 {
      var toC, fromC := Walk(start, dir, j), Walk(start, dir, j - 1);
      WalkFacts(start, dir, 0, j, j - 1);
      ShiftStep(g, fromC, toC);
      var g1 := g[Idx(fromC) := None][Idx(toC) := g[Idx(fromC)]];
      ShiftMovesWalk(g1, start, dir, j - 1);
      ShiftKeepsOffWalk(g1, start, dir, j - 1);
      var r := Shift(g, start, dir, j);
      assert r == Shift(g1, start, dir, j - 1);
      forall k | 1 <= k <= j
        ensures At(r, Walk(start, dir, k)) == At(g, Walk(start, dir, k - 1))
      {
        if k == j {
          WalkFacts(start, dir, j - 1, j, j);
        } else {
          WalkFacts(start, dir, j - 1, k - 1, j);
          WalkFacts(start, dir, j - 1, k - 1, j - 1);
        }
      }
    }
  }

  /** Every cell off the walk keeps its card. */
  lemma {:induction false} ShiftKeepsOffWalk(g: Grid, start: Cell, dir: Direction, j: nat)
    requires WellFormed(g)
    requires j > 0 ==> dir != NoPush
    requires forall k :: 0 <= k <= j ==> InGrid(Walk(start, dir, k))
    ensures forall c :: InGrid(c) && !OnWalk(start, dir, j, c) ==>
              At(Shift(g, start, dir, j), c) == At(g, c)
    decreases j
  {
    if j > 0 {
      var toC, fromC := Walk(start, dir, j), Walk(start, dir, j - 1);
      var g1 := g[Idx(fromC) := None][Idx(toC) := g[Idx(fromC)]];
      ShiftKeepsOffWalk(g1, start, dir, j - 1);
      var r := Shift(g, start, dir, j);
      assert r == Shift(g1, start, dir, j - 1);
      forall c | InGrid(c) && !OnWalk(start, dir, j, c)
        ensures At(r, c) == At(g, c)
      {
        OffWalkStep(start, dir, j, c);
        IdxInjective(c, fromC);
        IdxInjective(c, toC);
      }
    }
  }

  /** A cell off the walk of j > 0 steps is neither of its last two cells and
      is off the walk of j - 1 steps. */
  lemma OffWalkStep(start: Cell, dir: Direction, j: int, c: Cell)
    requires dir != NoPush && j > 0 && !OnWalk(start, dir, j, c)
    ensures c != Walk(start, dir, j) && c != Walk(start, dir, j - 1) && !OnWalk(start, dir, j - 1, c)
  {
  }

  lemma StartOnWalk(start: Cell, dir: Direction, n: int)
    requires n >= 0
    ensures OnWalk(start, dir, n, start)
  {
  }

  /** No walk from a central cell passes the corner (0, 0). */
  lemma CornerOffWalk(start: Cell, dir: Direction, n: int)
    requires Inner(start.row, start.col)
    ensures !OnWalk(start, dir, n, Cell(0, 0))
  {
  }

  lemma IdxInjective(c: Cell, d: Cell)
    requires InGrid(c) && InGrid(d) && c != d
    ensures Idx(c) != Idx(d)
  {
  }

  // ---------------------------------------------------------------------------
  // Legality and effect of a move

  /** Whether `card` may be played at (row, column) pushing `dir`; the checks
      run in the game's order. */
  predicate IsValidMove(g: Grid, gems: seq<Pos>, card: Card, row: int, column: int, dir: Direction)
    requires WellFormed(g)
  {
    var gemHere := GemHere(gems, row, column);
    if dir != NoPush && !HasPush(card, dir) then false
    else if row <= 0 || column <= 0 || row >= 4 || column >= 4 then false
    else if (At(g, Cell(row, column)).Some? || gemHere) && dir == NoPush then false
    else if At(g, Cell(row, column)).None? && !gemHere && dir == NoPush then true
    else if At(g, Cell(row, column)).None? && gemHere then false
    else ChainLength(g, Cell(row, column), dir).Some?
  }

  /** The grid after `TakeMove`: unchanged when the move is not valid;
      otherwise the chain is shifted one cell along `dir` and the played card
      is written at the target. */
  function AfterMove(g: Grid, gems: seq<Pos>, card: Card, row: int, column: int, dir: Direction): (r: Grid)
    requires WellFormed(g)
    ensures WellFormed(r)
  {
    if IsValidMove(g, gems, card, row, column, dir) then
      var start := Cell(row, column);
      var n := ChainLength(g, start, dir).value;
      ChainLengthIsChain(g, start, dir, n);
      Shift(g, start, dir, n)[Idx(start) := Some(card)]
    else g
  }

  /** A valid move targets the centre and, when it pushes, uses a capability
      the played card has. */
  lemma ValidMoveBounds(g: Grid, gems: seq<Pos>, card: Card, row: int, column: int, dir: Direction)
    requires WellFormed(g)
    ensures IsValidMove(g, gems, card, row, column, dir) ==>
              Inner(row, column) && HasPush(card, dir)
  {
  }

  /** Placing without a push is valid iff the target is a central cell that is
      empty and carries no gem. */
  lemma NoPushValidIff(g: Grid, gems: seq<Pos>, card: Card, row: int, column: int)
    requires WellFormed(g)
    ensures IsValidMove(g, gems, card, row, column, NoPush) <==>
              Inner(row, column) && At(g, Cell(row, column)).None? && !GemHere(gems, row, column)
  {
  }

  /** A push at an empty cell: invalid on a gem; otherwise valid iff the card
      has that capability (the probe finds the start cell empty at once). */
  lemma PushAtEmptyCell(g: Grid, gems: seq<Pos>, card: Card, row: int, column: int, dir: Direction)
    requires WellFormed(g) && dir != NoPush && Inner(row, column)
    requires At(g, Cell(row, column)).None?
    ensures GemHere(gems, row, column) ==> !IsValidMove(g, gems, card, row, column, dir)
    ensures !GemHere(gems, row, column) ==>
              (IsValidMove(g, gems, card, row, column, dir) <==> HasPush(card, dir))
  {
  }

  /** A push at an occupied central cell is valid iff the card has the
      capability and some chain of n cards giving way ends in an empty cell. */
  lemma PushAtOccupiedCell(g: Grid, gems: seq<Pos>, card: Card, row: int, column: int, dir: Direction, n: nat)
    requires WellFormed(g) && dir != NoPush && Inner(row, column)
    requires At(g, Cell(row, column)).Some?
    requires IsChain(g, Cell(row, column), dir, n)
    ensures IsValidMove(g, gems, card, row, column, dir) <==> HasPush(card, dir)
  {
    ChainLengthIsChain(g, Cell(row, column), dir, n);
  }

  /** The effect of a valid move (`TakeMove`) on the cells: with n the chain
      length, the played card lands on the target, each card of the chain
      moves one cell along `dir`, and all other cells (in particular the
      corner (0,0)) keep their card. */
  lemma TakeMoveEffect(g: Grid, gems: seq<Pos>, card: Card, row: int, column: int, dir: Direction)
    requires WellFormed(g)
    requires IsValidMove(g, gems, card, row, column, dir)
    ensures ChainLength(g, Cell(row, column), dir).Some?
    ensures var start, n, r := Cell(row, column), ChainLength(g, Cell(row, column), dir).value,
                               AfterMove(g, gems, card, row, column, dir);
            && IsChain(g, start, dir, n)
            && At(r, start) == Some(card)
            && (forall k :: 1 <= k <= n ==> At(r, Walk(start, dir, k)) == At(g, Walk(start, dir, k - 1)))
            && (forall c :: InGrid(c) && !OnWalk(start, dir, n, c) ==> At(r, c) == At(g, c))
            && Corner(r) == Corner(g)
  {
    var start := Cell(row, column);
    var n := ChainLength(g, start, dir).value;
    ChainLengthIsChain(g, start, dir, n);
    var s := Shift(g, start, dir, n);
    var r := AfterMove(g, gems, card, row, column, dir);
    assert r == s[Idx(start) := Some(card)];
    ValidMoveBounds(g, gems, card, row, column, dir);
    ShiftMovesChain(g, start, dir, n);
    PlaceAfterShift(g, s, r, start, dir, n, card);
  }

  /** Writing the played card at the start of the shifted walk touches no
      other cell of the walk and no cell off it. */
  lemma PlaceAfterShift(g: Grid, s: Grid, r: Grid, start: Cell, dir: Direction, n: nat, card: Card)
    requires WellFormed(g) && WellFormed(s) && Inner(start.row, start.col) && r == s[Idx(start) := Some(card)]
    requires n > 0 ==> dir != NoPush
    requires forall k :: 0 <= k <= n ==> InGrid(Walk(start, dir, k))
    requires forall k :: 1 <= k <= n ==> At(s, Walk(start, dir, k)) == At(g, Walk(start, dir, k - 1))
    requires forall c :: InGrid(c) && !OnWalk(start, dir, n, c) ==> At(s, c) == At(g, c)
    ensures At(r, start) == Some(card)
    ensures forall k :: 1 <= k <= n ==> At(r, Walk(start, dir, k)) == At(g, Walk(start, dir, k - 1))
    ensures forall c :: InGrid(c) && !OnWalk(start, dir, n, c) ==> At(r, c) == At(g, c)
    ensures !OnWalk(start, dir, n, Cell(0, 0)) && Corner(r) == Corner(g)
  {
    assert Walk(start, dir, 0) == start;
    forall k | 1 <= k <= n
      ensures At(r, Walk(start, dir, k)) == At(g, Walk(start, dir, k - 1))
    {
      WalkFacts(start, dir, n, k, 0);
      IdxInjective(Walk(start, dir, k), start);
    }
    StartOnWalk(start, dir, n);
    forall c | InGrid(c) && !OnWalk(start, dir, n, c)
      ensures At(r, c) == At(g, c)
    {
      IdxInjective(c, start);
    }
    CornerOffWalk(start, dir, n);
  }

  /** A valid move needs an empty cell, and the grid then gains exactly the
      played card in place of one empty cell. */
  lemma TakeMoveKeepsCards(g: Grid, gems: seq<Pos>, card: Card, row: int, column: int, dir: Direction)
    requires WellFormed(g)
    requires IsValidMove(g, gems, card, row, column, dir)
    ensures None in multiset(g)
    ensures multiset(AfterMove(g, gems, card, row, column, dir)) == multiset(g) - multiset{None} + multiset{Some(card)}
  {
    var start := Cell(row, column);
    var n := ChainLength(g, start, dir).value;
    ChainLengthIsChain(g, start, dir, n);
    ShiftKeepsCards(g, start, dir, n);
    var s := Shift(g, start, dir, n);
    assert g[Idx(Walk(start, dir, n))] == None;
    assert s[Idx(start)] == None;
    assert AfterMove(g, gems, card, row, column, dir) == s[Idx(start) := Some(card)];
  }

  /** A single card that gives way, followed by an empty cell, is a chain of one. */
  lemma ChainOfOne(g: Grid, c: Cell, dir: Direction)
    requires WellFormed(g) && InGrid(c) && At(g, c).Some? && CanPushThisWay(At(g, c).value, dir)
    requires InGrid(Walk(c, dir, 1)) && At(g, Walk(c, dir, 1)).None?
    ensures ChainLength(g, c, dir) == Some(1)
  {
  }

  /** Shifting a chain of one moves its card one step along the walk. */
  lemma ShiftOne(g: Grid, c: Cell, dir: Direction)
    requires WellFormed(g) && InGrid(c) && InGrid(Walk(c, dir, 1))
    ensures Walk(c, dir, 0) == c
    ensures Shift(g, c, dir, 1) == g[Idx(c) := None][Idx(Walk(c, dir, 1)) := g[Idx(c)]]
  {
  }

  /** A push whose chain ends in the ring is valid: the last card comes to rest
      in the ring (here a card at (1,1) pushed UP ends at (0,1)). */
  lemma PushIntoRingExample(g: Grid, gems: seq<Pos>, resident: Card, played: Card)
    requires WellFormed(g) && played.canPushUp && !resident.canPushDown
    requires At(g, Cell(1, 1)) == Some(resident) && At(g, Cell(0, 1)).None? && !GemHere(gems, 1, 1)
    ensures IsValidMove(g, gems, played, 1, 1, Up)
    ensures At(AfterMove(g, gems, played, 1, 1, Up), Cell(0, 1)) == Some(resident)
    ensures At(AfterMove(g, gems, played, 1, 1, Up), Cell(1, 1)) == Some(played)
  {
    var c := Cell(1, 1);
    assert Walk(c, Up, 1) == Cell(0, 1);
    ChainOfOne(g, c, Up);
    ShiftOne(g, c, Up);
    assert AfterMove(g, gems, played, 1, 1, Up) == g[6 := None][1 := g[6]][6 := Some(played)];
  }

  /** Pushing a chain that would have to leave the 5×5 array fails: a card at
      (1,1) and one at (0,1) cannot be pushed UP. */
  lemma PushOffTheArrayExample(a: Card, b: Card, played: Card)
    requires !a.canPushDown && !b.canPushDown
    ensures var g := seq(25, i => None)[Idx(Cell(1, 1)) := Some(a)][Idx(Cell(0, 1)) := Some(b)];
            !IsValidMove(g, [Pos(3, 3), Pos(2, 2), Pos(3, 1)], played, 1, 1, Up)
  {
    var g: Grid := seq(25, i => None)[Idx(Cell(1, 1)) := Some(a)][Idx(Cell(0, 1)) := Some(b)];
    assert ChainLength(g, Cell(-1, 1), Up) == None;
    assert ChainLength(g, Cell(0, 1), Up) == None;
  }

  // ---------------------------------------------------------------------------
  // Scores, the end of the game and the gem lookup

  function AddScores(a: Scores, b: Scores): Scores
  {
    Scores(a.x + b.x, a.y + b.y)
  }

  lemma AddScoresLaws(a: Scores, b: Scores, c: Scores)
    ensures AddScores(a, AddScores(b, c)) == AddScores(AddScores(a, b), c)
    ensures AddScores(a, Scores(0, 0)) == a == AddScores(Scores(0, 0), a)
    ensures AddScores(a, AddScores(b, c)) == AddScores(AddScores(c, b), a)
  {
  }

  lemma AddScoresSwap(a: Scores, b: Scores, c: Scores, d: Scores)
    ensures AddScores(AddScores(a, b), AddScores(c, d)) == AddScores(AddScores(a, c), AddScores(b, d))
    ensures b == Scores(0, 0) ==> AddScores(AddScores(a, b), AddScores(c, d)) == AddScores(AddScores(a, c), d)
    ensures d == Scores(0, 0) ==> AddScores(AddScores(a, b), AddScores(c, d)) == AddScores(AddScores(a, c), b)
  {
  }

  /** What one occupied gem cell adds: a point for player 1 when the card is
      a player card, a point for player 2 when it is another card. */
  function Weight(place: Option<Card>): Scores
  {
    match place
    case None => Scores(0, 0)
    case Some(card) => if card.isPlayerCard then Scores(1, 0) else Scores(0, 1)
  }

  /** `GetPlayerScores`: over the gem positions in order, x counts cells
      holding a player card and y cells holding any other card. */
  function GetPlayerScores(g: Grid, gems: seq<Pos>): (s: Scores)
    requires WellFormed(g) && GemsInGrid(gems)
    ensures 0 <= s.x && 0 <= s.y && s.x + s.y <= |gems|
    decreases |gems|
  {
    if gems == [] then Scores(0, 0)
    else
      var before := GetPlayerScores(g, gems[..|gems| - 1]);
      AddScores(before, Weight(At(g, GemCell(gems[|gems| - 1]))))
  }

  /** Scoring one more gem position adds that position's weight. */
  lemma ScoresAppend(g: Grid, init: seq<Pos>, p: Pos)
    requires WellFormed(g) && GemsInGrid(init + [p])
    ensures GemsInGrid(init) && InGrid(GemCell(p))
    ensures GetPlayerScores(g, init + [p]) == AddScores(GetPlayerScores(g, init), Weight(At(g, GemCell(p))))
  {
    assert (init + [p])[..|init|] == init;
    assert (init + [p])[|init|] == p;
    forall k | 0 <= k < |init| ensures InGrid(GemCell(init[k])) {
      assert init[k] == (init + [p])[k];
    }
  }

  /** When every gem cell holds a player card, player 1 has every gem; when
      every gem cell holds an opponent card, player 2 has; when no gem cell
      holds a card, nobody scores. */
  lemma {:induction false} ScoresExtremes(g: Grid, gems: seq<Pos>)
    requires WellFormed(g) && GemsInGrid(gems)
    ensures (forall i :: 0 <= i < |gems| ==> At(g, GemCell(gems[i])).Some? && At(g, GemCell(gems[i])).value.isPlayerCard)
            ==> GetPlayerScores(g, gems) == Scores(|gems|, 0)
    ensures (forall i :: 0 <= i < |gems| ==> At(g, GemCell(gems[i])).Some? && !At(g, GemCell(gems[i])).value.isPlayerCard)
            ==> GetPlayerScores(g, gems) == Scores(0, |gems|)
    ensures (forall i :: 0 <= i < |gems| ==> At(g, GemCell(gems[i])).None?)
            ==> GetPlayerScores(g, gems) == Scores(0, 0)
    decreases |gems|
  {
    if gems != [] {
      ScoresExtremes(g, gems[..|gems| - 1]);
    }
  }

  /** The number of gem positions whose cell holds a card. */
  function Occupied(g: Grid, gems: seq<Pos>): nat
    requires WellFormed(g) && GemsInGrid(gems)
    decreases |gems|
  {
    if gems == [] then 0
    else Occupied(g, gems[..|gems| - 1]) + (if At(g, GemCell(gems[|gems| - 1])).Some? then 1 else 0)
  }

  /** The two scores together count exactly the occupied gem cells, so they
      never exceed the number of gems. */
  lemma {:induction false} ScoresCountOccupied(g: Grid, gems: seq<Pos>)
    requires WellFormed(g) && GemsInGrid(gems)
    ensures GetPlayerScores(g, gems).x + GetPlayerScores(g, gems).y == Occupied(g, gems) <= |gems|
    decreases |gems|
  {
    if gems != [] {
      ScoresCountOccupied(g, gems[..|gems| - 1]);
    }
  }

  /** A central cell that does not keep the game going: it holds a card or a gem. */
  predicate Settled(g: Grid, gems: seq<Pos>, row: int, col: int)
    requires WellFormed(g) && Inner(row, col)
  {
    At(g, Cell(row, col)).Some? || GemHere(gems, row, col)
  }

  /** The inner loop of `IsGameOver` over the columns j..3 of row i. */
  function ColsOver(g: Grid, gems: seq<Pos>, i: int, j: int): (r: bool)
    requires WellFormed(g) && 1 <= i <= 3 && 1 <= j
    ensures r <==> forall col :: j <= col <= 3 ==> Settled(g, gems, i, col)
    decreases 4 - j
  {
    if j > 3 then true
    else if At(g, Cell(i, j)).None? && !GemHere(gems, i, j) then assert !Settled(g, gems, i, j); false
    else ColsOver(g, gems, i, j + 1)
  }

  /** The outer loop of `IsGameOver` over the rows i..3. */
  function RowsOver(g: Grid, gems: seq<Pos>, i: int): (r: bool)
    requires WellFormed(g) && 1 <= i
    ensures r <==> forall row, col :: i <= row <= 3 && 1 <= col <= 3 ==> Settled(g, gems, row, col)
    decreases 4 - i
  {
    if i > 3 then true
    else ColsOver(g, gems, i, 1) && RowsOver(g, gems, i + 1)
  }

  /** The game ends when the board is full: it is over iff every central cell
      holds a card or is a gem position. */
  function IsGameOver(g: Grid, gems: seq<Pos>): (r: bool)
    requires WellFormed(g)
    ensures r <==> forall row, col :: Inner(row, col) ==> Settled(g, gems, row, col)
  {
    RowsOver(g, gems, 1)
  }

  /** The gem lookup of `CardOnGem`: the first gem on (row, column), or the
      default position (0, 0) when there is none. */
  function FindGem(gems: seq<Pos>, row: int, column: int): (p: Pos)
    ensures GemHere(gems, row, column) ==> p == Pos(column, row)
    ensures !GemHere(gems, row, column) ==> p == Pos(0, 0)
    ensures GemsInGrid(gems) ==> InGrid(GemCell(p))
  {
    if gems == [] then Pos(0, 0)
    else if gems[0].x == column && gems[0].y == row then gems[0]
    else FindGem(gems[1..], row, column)
  }

  /** `CardOnGem`: the game's code compares the found position (a value type)
      with null, which never holds, so for a cell without a gem it reads the
      corner (0, 0) instead of answering "no card". */
  function CardOnGem(g: Grid, gems: seq<Pos>, row: int, column: int): (r: Option<Card>)
    requires WellFormed(g) && GemsInGrid(gems)
    ensures GemHere(gems, row, column) ==> InGrid(Cell(row, column)) && r == At(g, Cell(row, column))
    ensures !GemHere(gems, row, column) ==> r == Corner(g)
  {
    var found := FindGem(gems, row, column);
    // the cell read is that of `found`, which is (column, row) itself or (0, 0)
    if found == Pos(column, row) then At(g, Cell(row, column)) else Corner(g)
  }

  /** The inner loop of `UpdateGems` over columns j..3 of row i. */
  function TallyCols(g: Grid, gems: seq<Pos>, i: int, j: int): Scores
    requires WellFormed(g) && GemsInGrid(gems) && 1 <= j
    decreases 4 - j
  {
    if j > 3 then Scores(0, 0)
    else AddScores(Weight(CardOnGem(g, gems, i, j)), TallyCols(g, gems, i, j + 1))
  }

  /** The outer loop of `UpdateGems` over rows i..3. */
  function TallyRows(g: Grid, gems: seq<Pos>, i: int): Scores
    requires WellFormed(g) && GemsInGrid(gems) && 1 <= i
    decreases 4 - i
  {
    if i > 3 then Scores(0, 0)
    else AddScores(TallyCols(g, gems, i, 1), TallyRows(g, gems, i + 1))
  }

  predicate Distinct(hs: seq<Pos>)
  {
    forall i, j :: 0 <= i < j < |hs| ==> hs[i] != hs[j]
  }

  predicate CentralGems(hs: seq<Pos>)
  {
    forall i :: 0 <= i < |hs| ==> Inner(hs[i].y, hs[i].x)
  }

  lemma CentralGemsInGrid(hs: seq<Pos>)
    requires CentralGems(hs)
    ensures GemsInGrid(hs)
  {
    forall k | 0 <= k < |hs| ensures InGrid(GemCell(hs[k])) {
      assert Inner(hs[k].y, hs[k].x);
    }
  }

  lemma CentralGemsAppend(hs: seq<Pos>, p: Pos)
    requires CentralGems(hs) && Inner(p.y, p.x)
    ensures CentralGems(hs + [p]) && GemsInGrid(hs) && GemsInGrid(hs + [p])
  {
    forall k | 0 <= k < |hs + [p]| ensures Inner((hs + [p])[k].y, (hs + [p])[k].x) {
      if k < |hs| { assert (hs + [p])[k] == hs[k]; }
    }
    CentralGemsInGrid(hs);
    CentralGemsInGrid(hs + [p]);
  }

  /** One more gem position p changes only the lookup of p's own cell, which
      read the empty corner before and reads the cell itself after. */
  lemma CardOnGemAdd(g: Grid, hs: seq<Pos>, p: Pos, i: int, j: int)
    requires WellFormed(g) && CentralGems(hs) && Inner(p.y, p.x) && p !in hs
    requires Corner(g).None?
    ensures GemsInGrid(hs) && GemsInGrid(hs + [p])
    ensures p == Pos(j, i) ==> CardOnGem(g, hs, i, j) == None && CardOnGem(g, hs + [p], i, j) == At(g, GemCell(p))
    ensures p != Pos(j, i) ==> CardOnGem(g, hs + [p], i, j) == CardOnGem(g, hs, i, j)
  {
    CentralGemsAppend(hs, p);
    assert GemHere(hs + [p], i, j) <==> GemHere(hs, i, j) || p == Pos(j, i);
  }

  /** What the gem position p adds to a tally of the cells (i, j), (i, j+1), ..., (i, 3). */
  function Share(g: Grid, p: Pos, i: int, j: int): Scores
    requires WellFormed(g) && Inner(p.y, p.x)
  {
    if p.y == i && p.x >= j then Weight(At(g, GemCell(p))) else Scores(0, 0)
  }

  /** Adding one more gem position p to the list changes a row tally by p's weight when p lies in it. */
  lemma {:induction false} TallyColsAdd(g: Grid, hs: seq<Pos>, p: Pos, i: int, j: int)
    requires WellFormed(g) && CentralGems(hs) && Inner(p.y, p.x) && p !in hs && 1 <= j
    requires Corner(g).None?
    ensures GemsInGrid(hs) && GemsInGrid(hs + [p])
    ensures TallyCols(g, hs + [p], i, j) == AddScores(TallyCols(g, hs, i, j), Share(g, p, i, j))
    decreases 4 - j
  {
    CentralGemsAppend(hs, p);
    if j <= 3 {
      TallyColsAdd(g, hs, p, i, j + 1);
      CardOnGemAdd(g, hs, p, i, j);
      var a, b := CardOnGem(g, hs + [p], i, j), CardOnGem(g, hs, i, j);
      assert TallyCols(g, hs + [p], i, j) == AddScores(Weight(a), TallyCols(g, hs + [p], i, j + 1));
      assert TallyCols(g, hs, i, j) == AddScores(Weight(b), TallyCols(g, hs, i, j + 1));
      var rest := TallyCols(g, hs, i, j + 1);
      if p == Pos(j, i) {
        assert Weight(b) == Scores(0, 0) == Share(g, p, i, j + 1);
        assert Weight(a) == Share(g, p, i, j);
        AddScoresLaws(Weight(a), rest, Scores(0, 0));
      } else {
        assert a == b;
        assert Share(g, p, i, j) == Share(g, p, i, j + 1);
        AddScoresLaws(Weight(a), rest, Share(g, p, i, j));
      }
    } else {
      assert Share(g, p, i, j) == Scores(0, 0);
    }
  }

  /** What the gem position p adds to a tally of the rows i..3. */
  function RowShare(g: Grid, p: Pos, i: int): Scores
    requires WellFormed(g) && Inner(p.y, p.x)
  {
    if p.y >= i then Weight(At(g, GemCell(p))) else Scores(0, 0)
  }

  lemma {:induction false} TallyRowsAdd(g: Grid, hs: seq<Pos>, p: Pos, i: int)
    requires WellFormed(g) && CentralGems(hs) && Inner(p.y, p.x) && p !in hs && 1 <= i
    requires Corner(g).None?
    ensures GemsInGrid(hs) && GemsInGrid(hs + [p])
    ensures TallyRows(g, hs + [p], i) == AddScores(TallyRows(g, hs, i), RowShare(g, p, i))
    decreases 4 - i
  {
    CentralGemsAppend(hs, p);
    if i <= 3 {
      TallyColsAdd(g, hs, p, i, 1);
      TallyRowsAdd(g, hs, p, i + 1);
      TallyRowsAddStep(g, hs, p, i);
    } else {
      assert RowShare(g, p, i) == Scores(0, 0);
    }
  }

  /** The step of `TallyRowsAdd` for a row i of the centre, given the facts for
      row i alone and for the rows below it. */
  lemma TallyRowsAddStep(g: Grid, hs: seq<Pos>, p: Pos, i: int)
    requires WellFormed(g) && GemsInGrid(hs) && GemsInGrid(hs + [p]) && Inner(p.y, p.x) && 1 <= i <= 3
    requires TallyCols(g, hs + [p], i, 1) == AddScores(TallyCols(g, hs, i, 1), Share(g, p, i, 1))
    requires TallyRows(g, hs + [p], i + 1) == AddScores(TallyRows(g, hs, i + 1), RowShare(g, p, i + 1))
    ensures TallyRows(g, hs + [p], i) == AddScores(TallyRows(g, hs, i), RowShare(g, p, i))
  {
    var row, rest := TallyCols(g, hs, i, 1), TallyRows(g, hs, i + 1);
    assert TallyRows(g, hs + [p], i) ==
           AddScores(AddScores(row, Share(g, p, i, 1)), AddScores(rest, RowShare(g, p, i + 1)));
    assert TallyRows(g, hs, i) == AddScores(row, rest);
    if p.y == i {
      assert Share(g, p, i, 1) == RowShare(g, p, i) && RowShare(g, p, i + 1) == Scores(0, 0);
    } else {
      assert Share(g, p, i, 1) == Scores(0, 0) && RowShare(g, p, i + 1) == RowShare(g, p, i);
    }
    AddScoresSwap(row, Share(g, p, i, 1), rest, RowShare(g, p, i + 1));
  }

  /** With no gem positions every lookup reads the empty corner, so nothing is tallied. */
  lemma {:induction false} TallyNoGems(g: Grid, i: int)
    requires WellFormed(g) && 1 <= i && Corner(g).None?
    ensures TallyRows(g, [], i) == Scores(0, 0)
    decreases 4 - i
  {
    if i <= 3 {
      TallyNoGemsRow(g, i, 1);
      TallyNoGems(g, i + 1);
    }
  }

  lemma {:induction false} TallyNoGemsRow(g: Grid, i: int, j: int)
    requires WellFormed(g) && 1 <= j && Corner(g).None?
    ensures TallyCols(g, [], i, j) == Scores(0, 0)
    decreases 4 - j
  {
    if j <= 3 {
      TallyNoGemsRow(g, i, j + 1);
    }
  }

  /** Splitting off the last of distinct central gem positions. */
  lemma SplitLastGem(hs: seq<Pos>)
    requires CentralGems(hs) && Distinct(hs) && hs != []
    ensures hs == hs[..|hs| - 1] + [hs[|hs| - 1]]
    ensures CentralGems(hs[..|hs| - 1]) && Distinct(hs[..|hs| - 1])
    ensures Inner(hs[|hs| - 1].y, hs[|hs| - 1].x) && hs[|hs| - 1] !in hs[..|hs| - 1]
  {
    var init, p := hs[..|hs| - 1], hs[|hs| - 1];
    assert hs == init + [p];
    forall k | 0 <= k < |init| ensures init[k] != p && Inner(init[k].y, init[k].x) {
      assert init[k] == hs[k];
    }
  }

  /** The cell-by-cell tally of `UpdateGems` equals `GetPlayerScores` for
      distinct central gem positions, provided the corner (0, 0), which the
      lookup reads for cells without a gem, is empty. */
  lemma {:induction false} TallyMatchesScores(g: Grid, hs: seq<Pos>)
    requires WellFormed(g) && CentralGems(hs) && Distinct(hs)
    requires Corner(g).None?
    ensures GemsInGrid(hs)
    ensures TallyRows(g, hs, 1) == GetPlayerScores(g, hs)
    decreases |hs|
  {
    CentralGemsInGrid(hs);
    if hs == [] {
      TallyNoGems(g, 1);
    } else {
      SplitLastGem(hs);
      var init, p := hs[..|hs| - 1], hs[|hs| - 1];
      TallyMatchesScores(g, init);
      TallyRowsAdd(g, init, p, 1);
      ScoresAppend(g, init, p);
      assert RowShare(g, p, 1) == Weight(At(g, GemCell(p)));
    }
  }
}
