/** The moves the search considers, and the `Response` record that carries a
    move (and later its utility) between search nodes. */
module MoveGeneration {
  import opened Optional
  import opened Directions
  import opened CardScript
  import opened BoardRules

  /** A hand: three slots, a slot being empty once its card is played. */
  type Hand = seq<Option<Card>>

  /** A move (slot, row, column, push) with a utility. */
  datatype Response = Response(cardIndex: int, rowNum: int, colNum: int, dir: Direction, utility: real)

  /** A fresh `Response` object: no card, cell (0, 0), no push, utility 0. */
  const DefaultResponse := Response(-1, 0, 0, NoPush, 0.0)

  predicate Full(h: Hand)
  {
    forall k :: 0 <= k < |h| ==> h[k].Some?
  }

  /** A generated move keeps the default utility 0. */
  function Candidate(c: int, i: int, j: int, d: Direction): Response
  {
    Response(c, i, j, d, 0.0)
  }

  /** The moves the generator is meant to produce: a card of the hand on a
      central cell with a legal direction, where a push is only offered on a
      cell on which placing without a push is illegal. */
  predicate Admitted(hand: Hand, g: Grid, gems: seq<Pos>, m: Response)
    requires WellFormed(g) && Full(hand)
  {
    && 0 <= m.cardIndex < |hand|
    && Inner(m.rowNum, m.colNum)
    && m.utility == 0.0
    && IsValidMove(g, gems, hand[m.cardIndex].value, m.rowNum, m.colNum, m.dir)
    && (m.dir != NoPush ==> !IsValidMove(g, gems, hand[m.cardIndex].value, m.rowNum, m.colNum, NoPush))
  }

  /** The generation order: NOPUSH first, then DOWN, LEFT, RIGHT, UP. */
  function Rank(d: Direction): nat
  {
    match d
    case NoPush => 0
    case Down => 1
    case Left => 2
    case Right => 3
    case Up => 4
  }

  /** Position of a move in the order slot, row, column, direction. */
  function Key(m: Response): int
  {
    45 * m.cardIndex + 15 * (m.rowNum - 1) + 5 * (m.colNum - 1) + Rank(m.dir)
  }

  lemma KeyRange(m: Response)
    requires Inner(m.rowNum, m.colNum)
    ensures 45 * m.cardIndex <= Key(m) < 45 * m.cardIndex + 45
    ensures 15 * (m.rowNum - 1) <= Key(m) - 45 * m.cardIndex < 15 * m.rowNum
  {
  }

  /** Strictly increasing keys: the moves appear in generation order, each once. */
  predicate Sorted(s: seq<Response>)
  {
    forall p, q :: 0 <= p < q < |s| ==> Key(s[p]) < Key(s[q])
  }

  lemma SortedAppend(a: seq<Response>, b: seq<Response>)
    requires Sorted(a) && Sorted(b)
    requires forall x, y :: x in a && y in b ==> Key(x) < Key(y)
    ensures Sorted(a + b)
  {
    forall p, q | 0 <= p < q < |a + b| ensures Key((a + b)[p]) < Key((a + b)[q]) {
      if q < |a| {
      } else if p >= |a| {
        assert (a + b)[p] == b[p - |a|] && (a + b)[q] == b[q - |a|];
      } else {
        assert (a + b)[p] == a[p] && (a + b)[q] == b[q - |a|];
        assert a[p] in a && b[q - |a|] in b;
      }
    }
  }

  /** The push in direction d, offered when the card has that push and the move is legal. */
  function PushMove(hand: Hand, g: Grid, gems: seq<Pos>, c: nat, i: int, j: int, d: Direction): seq<Response>
    requires WellFormed(g) && c < |hand| && hand[c].Some?
  {
    if HasPush(hand[c].value, d) && IsValidMove(g, gems, hand[c].value, i, j, d) then [Candidate(c, i, j, d)] else []
  }

  /** The legal pushes of slot c on cell (i, j), in the order DOWN, LEFT, RIGHT, UP. */
  function PushMoves(hand: Hand, g: Grid, gems: seq<Pos>, c: nat, i: int, j: int): seq<Response>
    requires WellFormed(g) && c < |hand| && hand[c].Some?
  {
    PushMove(hand, g, gems, c, i, j, Down) + PushMove(hand, g, gems, c, i, j, Left)
    + PushMove(hand, g, gems, c, i, j, Right) + PushMove(hand, g, gems, c, i, j, Up)
  }

  /** Where placing without a push is illegal, the push in direction d is
      offered exactly when it is an admitted move of the cell. */
  lemma InPushMove(hand: Hand, g: Grid, gems: seq<Pos>, c: nat, i: int, j: int, d: Direction, m: Response)
    requires WellFormed(g) && Full(hand) && c < |hand| && d != NoPush
    requires !IsValidMove(g, gems, hand[c].value, i, j, NoPush)
    ensures m in PushMove(hand, g, gems, c, i, j, d) <==>
              Admitted(hand, g, gems, m) && m.cardIndex == c && m.rowNum == i && m.colNum == j && m.dir == d
  {
    ValidMoveBounds(g, gems, hand[c].value, i, j, d);
  }

  /** Where placing without a push is illegal, the pushes offered are exactly
      the admitted moves of the cell, in generation order. */
  lemma PushMovesAdmitted(hand: Hand, g: Grid, gems: seq<Pos>, c: nat, i: int, j: int)
    requires WellFormed(g) && Full(hand) && c < |hand|
    requires !IsValidMove(g, gems, hand[c].value, i, j, NoPush)
    ensures forall m :: m in PushMoves(hand, g, gems, c, i, j) <==>
              Admitted(hand, g, gems, m) && m.cardIndex == c && m.rowNum == i && m.colNum == j
  {
    var d, l, rt, u := PushMove(hand, g, gems, c, i, j, Down), PushMove(hand, g, gems, c, i, j, Left),
                       PushMove(hand, g, gems, c, i, j, Right), PushMove(hand, g, gems, c, i, j, Up);
    forall m
      ensures m in PushMoves(hand, g, gems, c, i, j) <==>
              Admitted(hand, g, gems, m) && m.cardIndex == c && m.rowNum == i && m.colNum == j
    {
      assert m in PushMoves(hand, g, gems, c, i, j) <==> m in d || m in l || m in rt || m in u;
      InPushMove(hand, g, gems, c, i, j, Down, m);
      InPushMove(hand, g, gems, c, i, j, Left, m);
      InPushMove(hand, g, gems, c, i, j, Right, m);
      InPushMove(hand, g, gems, c, i, j, Up, m);
    }
  }

  /** The pushes of a cell come in the order DOWN, LEFT, RIGHT, UP. */
  lemma PushMovesSorted(hand: Hand, g: Grid, gems: seq<Pos>, c: nat, i: int, j: int)
    requires WellFormed(g) && Full(hand) && c < |hand|
    ensures Sorted(PushMoves(hand, g, gems, c, i, j))
  {
    var d, l, rt, u := PushMove(hand, g, gems, c, i, j, Down), PushMove(hand, g, gems, c, i, j, Left),
                       PushMove(hand, g, gems, c, i, j, Right), PushMove(hand, g, gems, c, i, j, Up);
    assert d == [] || d == [Candidate(c, i, j, Down)];
    assert l == [] || l == [Candidate(c, i, j, Left)];
    assert rt == [] || rt == [Candidate(c, i, j, Right)];
    assert u == [] || u == [Candidate(c, i, j, Up)];
    FourInOrder(d, l, rt, u, c, i, j);
  }

  /** At most one candidate per push direction, appended DOWN, LEFT, RIGHT,
      UP, gives strictly increasing keys. */
  lemma FourInOrder(d: seq<Response>, l: seq<Response>, rt: seq<Response>, u: seq<Response>, c: nat, i: int, j: int)
    requires d == [] || d == [Candidate(c, i, j, Down)]
    requires l == [] || l == [Candidate(c, i, j, Left)]
    requires rt == [] || rt == [Candidate(c, i, j, Right)]
    requires u == [] || u == [Candidate(c, i, j, Up)]
    ensures Sorted(d + l + rt + u)
  {
    SortedAppend(d, l);
    SortedAppend(d + l, rt);
    SortedAppend(d + l + rt, u);
  }

  /** The moves of slot c on cell (i, j): NOPUSH alone when it is legal, else
      the legal pushes in the order DOWN, LEFT, RIGHT, UP. */
  function CellMoves(hand: Hand, g: Grid, gems: seq<Pos>, c: nat, i: int, j: int): seq<Response>
    requires WellFormed(g) && Full(hand) && c < |hand|
  {
    if IsValidMove(g, gems, hand[c].value, i, j, NoPush) then [Candidate(c, i, j, NoPush)]
    else PushMoves(hand, g, gems, c, i, j)
  }

  /** The columns j..3 of row i for slot c. */
  function ColMoves(hand: Hand, g: Grid, gems: seq<Pos>, c: nat, i: int, j: int): seq<Response>
    requires WellFormed(g) && Full(hand) && c < |hand| && 1 <= j
    decreases 4 - j
  {
    if j > 3 then [] else CellMoves(hand, g, gems, c, i, j) + ColMoves(hand, g, gems, c, i, j + 1)
  }

  /** The rows i..3 for slot c. */
  function RowMoves(hand: Hand, g: Grid, gems: seq<Pos>, c: nat, i: int): seq<Response>
    requires WellFormed(g) && Full(hand) && c < |hand| && 1 <= i
    decreases 4 - i
  {
    if i > 3 then [] else ColMoves(hand, g, gems, c, i, 1) + RowMoves(hand, g, gems, c, i + 1)
  }

  /** The slots c.. of the hand. */
  function SlotMoves(hand: Hand, g: Grid, gems: seq<Pos>, c: nat): seq<Response>
    requires WellFormed(g) && Full(hand)
    decreases |hand| - c
  {
    if c >= |hand| then [] else RowMoves(hand, g, gems, c, 1) + SlotMoves(hand, g, gems, c + 1)
  }

  /** The moves of a cell are its admitted moves, in generation order. */
  lemma CellMovesAdmitted(hand: Hand, g: Grid, gems: seq<Pos>, c: nat, i: int, j: int)
    requires WellFormed(g) && Full(hand) && c < |hand|
    ensures forall m :: m in CellMoves(hand, g, gems, c, i, j) <==>
              Admitted(hand, g, gems, m) && m.cardIndex == c && m.rowNum == i && m.colNum == j
    ensures Sorted(CellMoves(hand, g, gems, c, i, j))
  {
    if IsValidMove(g, gems, hand[c].value, i, j, NoPush) {
      ValidMoveBounds(g, gems, hand[c].value, i, j, NoPush);
    } else {
      PushMovesAdmitted(hand, g, gems, c, i, j);
      PushMovesSorted(hand, g, gems, c, i, j);
    }
  }

  /** Columns j..3 of a row: its admitted moves from column j on, in order. */
  lemma {:induction false} ColMovesAdmitted(hand: Hand, g: Grid, gems: seq<Pos>, c: nat, i: int, j: int)
    requires WellFormed(g) && Full(hand) && c < |hand| && 1 <= j
    ensures forall m :: m in ColMoves(hand, g, gems, c, i, j) <==>
              Admitted(hand, g, gems, m) && m.cardIndex == c && m.rowNum == i && j <= m.colNum
    ensures Sorted(ColMoves(hand, g, gems, c, i, j))
    decreases 4 - j
  {
    if j <= 3 {
      var here, rest := CellMoves(hand, g, gems, c, i, j), ColMoves(hand, g, gems, c, i, j + 1);
      CellMovesAdmitted(hand, g, gems, c, i, j);
      ColMovesAdmitted(hand, g, gems, c, i, j + 1);
      SortedAppend(here, rest);
      assert forall m :: m in here + rest <==> m in here || m in rest;
    }
  }

  /** Rows i..3 of a slot: its admitted moves from row i on, in order. */
  lemma {:induction false} RowMovesAdmitted(hand: Hand, g: Grid, gems: seq<Pos>, c: nat, i: int)
    requires WellFormed(g) && Full(hand) && c < |hand| && 1 <= i
    ensures forall m :: m in RowMoves(hand, g, gems, c, i) <==> Admitted(hand, g, gems, m) && m.cardIndex == c && i <= m.rowNum
    ensures Sorted(RowMoves(hand, g, gems, c, i))
    decreases 4 - i
  {
    if i <= 3 {
      var here, rest := ColMoves(hand, g, gems, c, i, 1), RowMoves(hand, g, gems, c, i + 1);
      ColMovesAdmitted(hand, g, gems, c, i, 1);
      RowMovesAdmitted(hand, g, gems, c, i + 1);
      forall x, y | x in here && y in rest ensures Key(x) < Key(y) {
        RowKeys(x, y);
      }
      SortedAppend(here, rest);
      assert forall m :: m in here + rest <==> m in here || m in rest;
    }
  }

  /** Moves of one slot on an earlier row come first. */
  lemma RowKeys(x: Response, y: Response)
    requires Inner(x.rowNum, x.colNum) && Inner(y.rowNum, y.colNum)
    requires x.cardIndex == y.cardIndex && x.rowNum < y.rowNum
    ensures Key(x) < Key(y)
  {
  }

  /** Slots c.. of the hand: the admitted moves of those slots, in order. */
  lemma {:induction false} SlotMovesAdmitted(hand: Hand, g: Grid, gems: seq<Pos>, c: nat)
    requires WellFormed(g) && Full(hand)
    ensures forall m :: m in SlotMoves(hand, g, gems, c) <==> Admitted(hand, g, gems, m) && c <= m.cardIndex
    ensures Sorted(SlotMoves(hand, g, gems, c))
    decreases |hand| - c
  {
    if c < |hand| {
      var here, rest := RowMoves(hand, g, gems, c, 1), SlotMoves(hand, g, gems, c + 1);
      RowMovesAdmitted(hand, g, gems, c, 1);
      SlotMovesAdmitted(hand, g, gems, c + 1);
      forall x, y | x in here && y in rest ensures Key(x) < Key(y) {
        KeyRange(x);
        KeyRange(y);
      }
      SortedAppend(here, rest);
      assert forall m :: m in here + rest <==> m in here || m in rest;
    }
  }

  /** `FindAllPossibleMove`: exactly the admitted moves, in the order slot,
      row, column, then NOPUSH, DOWN, LEFT, RIGHT, UP, without repetition. */
  function FindAllMoves(hand: Hand, g: Grid, gems: seq<Pos>): (r: seq<Response>)
    requires WellFormed(g) && Full(hand)
    ensures forall k :: 0 <= k < |r| ==> 0 <= r[k].cardIndex < |hand|
  {
    var r := SlotMoves(hand, g, gems, 0);
    SlotMovesAdmitted(hand, g, gems, 0);
    forall k | 0 <= k < |r| ensures 0 <= r[k].cardIndex < |hand| {
      assert r[k] in r;
    }
    r
  }

  /** The generated moves are exactly the admitted ones, each once, in
      generation order. */
  lemma FindAllMovesAdmitted(hand: Hand, g: Grid, gems: seq<Pos>)
    requires WellFormed(g) && Full(hand)
    ensures forall m :: m in FindAllMoves(hand, g, gems) <==> Admitted(hand, g, gems, m)
    ensures Sorted(FindAllMoves(hand, g, gems))
  {
    SlotMovesAdmitted(hand, g, gems, 0);
  }

  /** Every generated move names a card of the hand, a central cell and a
      legal direction, and a push is never offered where NOPUSH is legal. */
  lemma GeneratedMovesAreLegal(hand: Hand, g: Grid, gems: seq<Pos>, k: int)
    requires WellFormed(g) && Full(hand) && 0 <= k < |FindAllMoves(hand, g, gems)|
    ensures var m := FindAllMoves(hand, g, gems)[k];
            && 0 <= m.cardIndex < |hand| && 1 <= m.rowNum <= 3 && 1 <= m.colNum <= 3
            && IsValidMove(g, gems, hand[m.cardIndex].value, m.rowNum, m.colNum, m.dir)
            && (m.dir != NoPush ==> !IsValidMove(g, gems, hand[m.cardIndex].value, m.rowNum, m.colNum, NoPush))
  {
    var m := FindAllMoves(hand, g, gems)[k];
    FindAllMovesAdmitted(hand, g, gems);
    assert m in FindAllMoves(hand, g, gems);
  }
}
