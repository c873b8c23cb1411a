/** The board object: the 5×5 grid kept in a mutable array of 25 cells
    (row-major, cell (row, col) at index 5*row+col), and the operations that
    rewrite it in place. Each is proved against the functions of BoardRules. */
module Board {
  import opened Optional
  import opened Directions
  import opened CardScript
  import opened BoardRules

  /** A probe result moved k cells further along the walk. */
  function Extend(r: Option<nat>, k: nat): Option<nat>
  {
    match r
    case None => None
    case Some(n) => Some(n + k)
  }

  /** One step of the probe over a card that gives way. */
  lemma ChainLengthStep(g: Grid, c: Cell, dir: Direction)
    requires WellFormed(g) && InGrid(c) && At(g, c).Some? && CanPushThisWay(At(g, c).value, dir)
    ensures ChainLength(g, c, dir) == Extend(ChainLength(g, Walk(c, dir, 1), dir), 1)
  {
  }

  lemma ExtendTwice(r: Option<nat>, a: nat, b: nat)
    ensures Extend(Extend(r, a), b) == Extend(r, a + b)
  {
  }

  /** The probe's invariant survives a step over a card that gives way. */
  lemma ProbeStep(g: Grid, start: Cell, cur: Cell, dir: Direction, k: nat)
    requires WellFormed(g) && InGrid(cur) && At(g, cur).Some? && CanPushThisWay(At(g, cur).value, dir)
    requires ChainLength(g, start, dir) == Extend(ChainLength(g, cur, dir), k)
    ensures ChainLength(g, start, dir) == Extend(ChainLength(g, Walk(cur, dir, 1), dir), k + 1)
  {
    var next := ChainLength(g, Walk(cur, dir, 1), dir);
    ChainLengthStep(g, cur, dir);
    assert ChainLength(g, cur, dir) == Extend(next, 1);
    ExtendTwice(next, 1, k);
  }

  /** Where the probe stops: off the array or at a card that does not give
      way it fails, at an empty cell it finds a chain of no cards. */
  lemma ChainLengthStop(g: Grid, c: Cell, dir: Direction)
    requires WellFormed(g)
    ensures !InGrid(c) ==> ChainLength(g, c, dir) == None
    ensures InGrid(c) && At(g, c).None? ==> ChainLength(g, c, dir) == Some(0)
    ensures InGrid(c) && At(g, c).Some? && !CanPushThisWay(At(g, c).value, dir) ==> ChainLength(g, c, dir) == None
  {
  }

  /** The probe of `CardCast`: walks from `start` along `dir` while the cells
      hold cards, failing at a card that does not give way or when the walk
      leaves the 5×5 array (where the game's code catches an index exception). On success `k`
      is the number of cards in the chain. */
  method Probe(b: array<Option<Card>>, start: Cell, dir: Direction) returns (found: bool, k: nat)
    requires b.Length == 25
    ensures found <==> ChainLength(b[..], start, dir).Some?
    ensures found ==> ChainLength(b[..], start, dir) == Some(k)
  {
    ghost var g := b[..];
    var cur := start;
    k := 0;
    while InGrid(cur) && b[Idx(cur)].Some?
      invariant ChainLength(g, start, dir) == Extend(ChainLength(g, cur, dir), k)
      decreases Reach(cur, dir)
    {
      assert b[Idx(cur)] == At(g, cur);
      if !CanPushThisWay(b[Idx(cur)].value, dir) {
        ChainLengthStop(g, cur, dir);
        return false, k;
      }
      ProbeStep(g, start, cur, dir, k);
      cur := Walk(cur, dir, 1);
      k := k + 1;
    }
    ChainLengthStop(g, cur, dir);
    found := InGrid(cur);
  }

  /** `CardCast`: the probe, then in apply mode the shift of the chain one
      cell along `dir`, far end first. It succeeds exactly when the probe
      does, changes nothing unless it succeeds in apply mode, and then leaves
      the shifted grid. */
  method CardCast(b: array<Option<Card>>, row: int, column: int, dir: Direction, takeAction: bool)
    returns (ok: bool)
    requires b.Length == 25
    modifies b
    ensures ok <==> ChainLength(old(b[..]), Cell(row, column), dir).Some?
    ensures !(ok && takeAction) ==> b[..] == old(b[..])
    ensures ok && takeAction ==>
              var n := ChainLength(old(b[..]), Cell(row, column), dir).value;
              IsChain(old(b[..]), Cell(row, column), dir, n) &&
              b[..] == Shift(old(b[..]), Cell(row, column), dir, n)
  {
    var start := Cell(row, column);
    var k;
    ok, k := Probe(b, start, dir);
    if ok && takeAction {
      ChainLengthIsChain(b[..], start, dir, k);
      ShiftChain(b, start, dir, k);
    }
  }

  /** The apply mode of `CardCast`: from the empty cell k steps along the walk
      back to the target, each card moves one cell forward and its old cell
      is cleared. */
  method ShiftChain(b: array<Option<Card>>, start: Cell, dir: Direction, k: nat)
    requires b.Length == 25
    requires forall m :: 0 <= m <= k ==> InGrid(Walk(start, dir, m))
    requires dir == NoPush ==> k == 0
    modifies b
    ensures b[..] == Shift(old(b[..]), start, dir, k)
  {
    ghost var g := b[..];
    var cur := Walk(start, dir, k);
    var j: nat := k;
    while cur != start
      invariant 0 <= j <= k
      invariant cur == Walk(start, dir, j)
      invariant Shift(g, start, dir, k) == Shift(b[..], start, dir, j)
      decreases j
    {
      if dir == NoPush || j == 0 {
        // the walk does not move for NoPush, and it is back at the start for j == 0
        assert false;
      }
      WalkFacts(start, dir, j - 1, j, j - 1);
      var pre := cur;
      cur := Walk(start, dir, j - 1);
      var moved := b[Idx(cur)];
      b[Idx(cur)] := None;
      b[Idx(pre)] := moved;
      j := j - 1;
    }
    if j != 0 {
      WalkFacts(start, dir, j, j, 0);
    }
  }

  /** `TakeMove`: when the move is legal the chain is shifted and the played
      card is placed on the target; an illegal move changes nothing. */
  method TakeMove(b: array<Option<Card>>, gems: seq<Pos>, toPlay: Card, row: int, column: int, dir: Direction)
    requires b.Length == 25
    modifies b
    ensures b[..] == AfterMove(old(b[..]), gems, toPlay, row, column, dir)
  {
    if IsValidMove(b[..], gems, toPlay, row, column, dir) {
      var _ := CardCast(b, row, column, dir, true);
      b[Idx(Cell(row, column))] := Some(toPlay);
    }
  }

  /** `CopyState`: a freshly allocated board equal to `b` cell for cell, so
      writes to either leave the other unchanged. */
  method CopyState(b: array<Option<Card>>) returns (bc: array<Option<Card>>)
    requires b.Length == 25
    ensures fresh(bc) && bc.Length == 25
    ensures bc[..] == b[..]
  {
    bc := new Option<Card>[25];
    for i := 0 to 5
      invariant forall k :: 0 <= k < 5 * i ==> bc[k] == b[k]
    {
      for j := 0 to 5
        invariant forall k :: 0 <= k < 5 * i + j ==> bc[k] == b[k]
      {
        bc[5 * i + j] := b[5 * i + j];
      }
    }
  }

  /** Every cell of a new board is empty. */
  predicate Empty(g: Grid)
  {
    forall k :: 0 <= k < |g| ==> g[k].None?
  }

  /** The gems the first n draws give: each draw that does not repeat an
      earlier gem is kept, until three are kept. */
  function FirstDistinct(draws: seq<Pos>, n: nat): seq<Pos>
    requires n <= |draws|
  {
    if n == 0 then []
    else
      var prev := FirstDistinct(draws, n - 1);
      if |prev| < 3 && draws[n - 1] !in prev then prev + [draws[n - 1]] else prev
  }

  /** Once three gems are kept, later draws change nothing. */
  lemma {:induction false} FirstDistinctSettles(draws: seq<Pos>, n: nat, m: nat)
    requires n <= m <= |draws| && |FirstDistinct(draws, n)| >= 3
    ensures FirstDistinct(draws, m) == FirstDistinct(draws, n)
    decreases m - n
  {
    if n < m {
      FirstDistinctSettles(draws, n, m - 1);
    }
  }

  /** `Init`: an empty board and three gem positions chosen by rejection:
      each draw (of a column and a row in 1..3) that repeats an earlier gem is
      discarded. The random draws are given as `draws`; should they run out,
      fewer than three gems are placed. */
  method Init(draws: seq<Pos>) returns (b: array<Option<Card>>, gems: seq<Pos>)
    requires forall i :: 0 <= i < |draws| ==> Inner(draws[i].y, draws[i].x)
    ensures fresh(b) && b.Length == 25 && Empty(b[..])
    ensures |gems| <= 3 && CentralGems(gems) && Distinct(gems)
    ensures forall p :: p in gems ==> p in draws
    ensures |gems| < 3 ==> forall i :: 0 <= i < |draws| ==> draws[i] in gems
    ensures gems == FirstDistinct(draws, |draws|)
  {
    b := new Option<Card>[25];
    for i := 0 to 5
      invariant forall k :: 0 <= k < 5 * i ==> b[k].None?
    {
      for j := 0 to 5
        invariant forall k :: 0 <= k < 5 * i + j ==> b[k].None?
      {
        b[5 * i + j] := None;
      }
    }
    gems := [];
    var next := 0;
    while |gems| < 3 && next < |draws|
      invariant 0 <= next <= |draws|
      invariant |gems| <= 3 && CentralGems(gems) && Distinct(gems)
      invariant forall p :: p in gems ==> p in draws
      invariant forall i :: 0 <= i < next ==> draws[i] in gems
      invariant gems == FirstDistinct(draws, next)
      decreases |draws| - next
    {
      var spot := draws[next];
      next := next + 1;
      if spot !in gems {
        gems := gems + [spot];
      }
    }
    if next < |draws| {
      FirstDistinctSettles(draws, next, |draws|);
    }
  }

  /** The neighbourhood test of `IsNextToGem`: the row is compared with the
      gem's x and the column with its y, the reverse of the board's own
      convention (x is the column). */
  predicate NextTo(p: Pos, rowNum: int, colNum: int)
  {
    || (rowNum == p.x - 1 && colNum == p.y)
    || (rowNum == p.x + 1 && colNum == p.y)
    || (rowNum == p.x && colNum == p.y + 1)
    || (rowNum == p.x && colNum == p.y - 1)
  }

  /** Orthogonal neighbours on the board itself. */
  predicate Neighbours(a: Cell, c: Cell)
  {
    (a.row == c.row && (a.col == c.col - 1 || a.col == c.col + 1)) ||
    (a.col == c.col && (a.row == c.row - 1 || a.row == c.row + 1))
  }

  /** The test looks at the neighbours of the mirrored cell (row x, column y),
      not of the gem's own cell (row y, column x). */
  lemma NextToIsMirrored(p: Pos, rowNum: int, colNum: int)
    ensures NextTo(p, rowNum, colNum) <==> Neighbours(Cell(rowNum, colNum), Cell(p.x, p.y))
  {
  }

  /** `IsNextToGem`: the index of the last gem passing the test, or 0 when
      none does (so 0 also stands for "the first gem" and for "no gem"). */
  method IsNextToGem(gems: seq<Pos>, rowNum: int, colNum: int) returns (nextTo: int)
    ensures 0 <= nextTo && (nextTo == 0 || nextTo < |gems|)
    ensures forall i :: nextTo < i < |gems| ==> !NextTo(gems[i], rowNum, colNum)
    ensures nextTo > 0 ==> NextTo(gems[nextTo], rowNum, colNum)
    ensures nextTo == 0 && |gems| > 0 && !NextTo(gems[0], rowNum, colNum) ==>
              forall i :: 0 <= i < |gems| ==> !NextTo(gems[i], rowNum, colNum)
  {
    nextTo := 0;
    for i := 0 to |gems|
      invariant 0 <= nextTo && (nextTo == 0 || nextTo < i)
      invariant forall m :: nextTo < m < i ==> !NextTo(gems[m], rowNum, colNum)
      invariant nextTo > 0 ==> NextTo(gems[nextTo], rowNum, colNum)
      invariant nextTo == 0 && i > 0 && !NextTo(gems[0], rowNum, colNum) ==>
                  forall m :: 0 <= m < i ==> !NextTo(gems[m], rowNum, colNum)
    {
      if NextTo(gems[i], rowNum, colNum) {
        nextTo := i;
      }
    }
  }
}
