/** The computer player: the `Minimaxer` object, whose methods walk the game
    tree on copies of the board array and are proved to compute exactly the
    search functions of module Search. */
module Minimax {
  import opened Optional
  import opened Directions
  import opened CardScript
  import opened BoardRules
  import opened Board
  import opened MoveGeneration
  import opened Search

  /** The scan of `ConsiderTurn` has met cell c before reaching (i, j):
      rows 1..i - 1, then columns 1..j - 1 of row i. */
  predicate Before(c: Cell, i: int, j: int)
  {
    c.row < i || (c.row == i && c.col < j)
  }

  /** The number of empty central cells the scan counts before (i, j); the
      whole scan is `EmptyCount(g, 3, 4)`. */
  function EmptyCount(g: Grid, i: int, j: int): nat
    requires WellFormed(g) && 0 <= i <= 3 && 1 <= j <= 4
    decreases i, j
  {
    if i == 0 then 0
    else if j == 1 then EmptyCount(g, i - 1, 4)
    else EmptyCount(g, i, j - 1) + (if At(g, Cell(i, j - 1)).None? then 1 else 0)
  }

  /** The last empty central cell the scan meets before (i, j), or (0, 0)
      when there is none. */
  function LastEmpty(g: Grid, i: int, j: int): Cell
    requires WellFormed(g) && 0 <= i <= 3 && 1 <= j <= 4
    decreases i, j
  {
    if i == 0 then Cell(0, 0)
    else if j == 1 then LastEmpty(g, i - 1, 4)
    else if At(g, Cell(i, j - 1)).None? then Cell(i, j - 1)
    else LastEmpty(g, i, j - 1)
  }

  class Minimaxer {
    /** Gem counts the object is created with; nothing updates them. */
    const numGemsOwned: int
    const numGemsOppOwns: int
    /** Which player the search plays for. */
    const isPlayer1: bool

    constructor ()
      ensures numGemsOwned == 0 && numGemsOppOwns == 0 && !isPlayer1
    {
      numGemsOwned := 0;
      numGemsOppOwns := 0;
      isPlayer1 := false;
    }

    constructor WithCounts(val1: int, val2: int)
      ensures numGemsOwned == val1 && numGemsOppOwns == val2 && !isPlayer1
    {
      numGemsOwned := val1;
      numGemsOppOwns := val2;
      isPlayer1 := false;
    }

    /** The constructor the players use: both counts start (and stay) at 0. */
    constructor ForPlayer(isPlayer1: bool)
      ensures numGemsOwned == 0 && numGemsOppOwns == 0 && this.isPlayer1 == isPlayer1
    {
      numGemsOwned := 0;
      numGemsOppOwns := 0;
      this.isPlayer1 := isPlayer1;
    }

    /** What the search reads: the gem positions, the own deck
        (`GetOtherPlayerDeck(!isPlayer1)`) and the opponent's deck
        (`GetOtherPlayerDeck(isPlayer1)`). */
    function EnvFor(gems: seq<Pos>, ownDeck: seq<Card>, oppDeck: seq<Card>): Env
    {
      Env(isPlayer1, gems, ownDeck, oppDeck)
    }

    /** `UpdateGems`: over the central cells row by row, one point for the
        card `CardOnGem` reports, to x for a player card and to y otherwise.
        For distinct central gems and an empty corner (0, 0) this is the
        board's own score. */
    method UpdateGems(b: array<Option<Card>>, gems: seq<Pos>) returns (score: Scores)
      requires b.Length == 25 && GemsInGrid(gems)
      ensures score == TallyRows(b[..], gems, 1)
      ensures CentralGems(gems) && Distinct(gems) && Corner(b[..]).None? ==> score == GetPlayerScores(b[..], gems)
    {
      ghost var g := b[..];
      ghost var total := TallyRows(g, gems, 1);
      score := Scores(0, 0);
      for i := 1 to 4
        invariant score.x + TallyRows(g, gems, i).x == total.x
        invariant score.y + TallyRows(g, gems, i).y == total.y
      {
        for j := 1 to 4
          invariant score.x + TallyCols(g, gems, i, j).x + TallyRows(g, gems, i + 1).x == total.x
          invariant score.y + TallyCols(g, gems, i, j).y + TallyRows(g, gems, i + 1).y == total.y
        {
          var gemCard := CardOnGem(b[..], gems, i, j);
          if gemCard.Some? {
            if gemCard.value.isPlayerCard {
              score := Scores(score.x + 1, score.y);
            } else {
              score := Scores(score.x, score.y + 1);
            }
          }
        }
        assert TallyCols(g, gems, i, 4) == Scores(0, 0);
      }
      assert TallyRows(g, gems, 4) == Scores(0, 0);
      assert score == Scores(total.x, total.y) == total;
      assert CentralGems(gems) && Distinct(gems) && Corner(g).None? ==> total == GetPlayerScores(g, gems) by {
        if CentralGems(gems) && Distinct(gems) && Corner(g).None? {
          TallyMatchesScores(g, gems);
        }
      }
    }

    /** The move `ConsiderTurn` answers on grid g: with exactly one empty
        central cell and more gems owned than the opponent, card 0 placed
        there without a push; otherwise the MAX search at the start depth
        with the widest window. */
    function Decision(myHand: Hand, theirHand: Hand, g: Grid, gems: seq<Pos>, ownDeck: seq<Card>, oppDeck: seq<Card>): Response
      requires WellFormed(g) && GemsInGrid(gems) && Full(myHand) && Full(theirHand)
    {
      var last := LastEmpty(g, 3, 4);
      if EmptyCount(g, 3, 4) == 1 && numGemsOwned > numGemsOppOwns
      then Response(0, last.row, last.col, NoPush, 0.0)
      else Search.Search(EnvFor(gems, ownDeck, oppDeck), MaxNode, myHand, theirHand, StartDepth, MinValue, MaxValue, g)
    }

    /** `ConsiderTurn`: scan the central cells row by row, counting the
        empty ones and keeping the last; with exactly one empty cell and more
        gems owned than the opponent, play card 0 there without a push (the
        move that fills the board); otherwise search from a MAX node at the
        start depth with the widest window, on a copy of the board. */
    method ConsiderTurn(myHand: Hand, theirHand: Hand, board: array<Option<Card>>,
                        gems: seq<Pos>, ownDeck: seq<Card>, oppDeck: seq<Card>)
      returns (turn: Response)
      requires board.Length == 25 && GemsInGrid(gems) && Full(myHand) && Full(theirHand)
      ensures turn == Decision(myHand, theirHand, board[..], gems, ownDeck, oppDeck)
    {
      ghost var g := board[..];
      var emptySpaces, emptyRow, emptyCol := ScanCentre(board);
      if emptySpaces == 1 && numGemsOwned > numGemsOppOwns {
        turn := Response(0, emptyRow, emptyCol, NoPush, 0.0);
      } else {
        var boardLocal := CopyState(board);
        var depth := StartDepth;
        turn := TryMinimax(myHand, theirHand, MaxNode, depth, MinValue, MaxValue, boardLocal, g, gems, ownDeck, oppDeck);
      }
    }

    /** The scan of `ConsiderTurn`: the number of empty central cells and
        the last of them in row-by-row order. */
    static method ScanCentre(board: array<Option<Card>>) returns (emptySpaces: nat, emptyRow: int, emptyCol: int)
      requires board.Length == 25
      ensures emptySpaces == EmptyCount(board[..], 3, 4)
      ensures Cell(emptyRow, emptyCol) == LastEmpty(board[..], 3, 4)
    {
      ghost var g := board[..];
      emptySpaces := 0;
      emptyRow := 0;
      emptyCol := 0;
      for i := 1 to 4
        invariant emptySpaces == EmptyCount(g, i - 1, 4)
        invariant Cell(emptyRow, emptyCol) == LastEmpty(g, i - 1, 4)
      {
        for j := 1 to 4
          invariant emptySpaces == EmptyCount(g, i, j)
          invariant Cell(emptyRow, emptyCol) == LastEmpty(g, i, j)
        {
          ScanStep(g, i, j);
          if board[5 * i + j].None? {
            emptySpaces := emptySpaces + 1;
            emptyRow := i;
            emptyCol := j;
          }
        }
      }
    }

    /** `TryMinimax` on its own copy of the board: a full board or depth 0
        answers with the board's utility; otherwise the node of the given
        kind is expanded. Its result is exactly the search function's. The
        board it is given is left as it is. */
    method TryMinimax(hand: Hand, theirHand: Hand, nodetype: NodeType, depth: nat, alpha: real, beta: real,
                      board: array<Option<Card>>, ghost g: Grid, gems: seq<Pos>, ownDeck: seq<Card>, oppDeck: seq<Card>)
      returns (bestMove: Response)
      requires board.Length == 25 && board[..] == g && Ready(EnvFor(gems, ownDeck, oppDeck), g, depth)
      requires Shape(nodetype, hand, theirHand, depth)
      ensures bestMove == Search.Search(EnvFor(gems, ownDeck, oppDeck), nodetype, hand, theirHand, depth, alpha, beta, g)
      decreases depth, 1
    {
      if IsTerminal(board[..], gems) || depth == 0 {
        return Response(-1, -1, -1, NoPush, Utility(isPlayer1, board[..], gems) as real);
      }
      match nodetype
      case MaxNode =>
        var possibleMoves := FindAllPossibleMove(hand, board, gems);
        bestMove := ExpandMax(hand, theirHand, depth, alpha, beta, board, g, gems, ownDeck, oppDeck, possibleMoves);
      case MinNode =>
        var possibleMoves := FindAllPossibleMove(theirHand, board, gems);
        bestMove := ExpandMin(hand, theirHand, depth, alpha, beta, board, g, gems, ownDeck, oppDeck, possibleMoves);
      case ChanceMax =>
        var utility := ExpandChanceMax(hand, theirHand, depth, alpha, beta, board, g, gems, ownDeck, oppDeck);
        bestMove := Response(-1, 0, 0, NoPush, utility);
      case ChanceMin =>
        var utility := ExpandChanceMin(hand, theirHand, depth, alpha, beta, board, g, gems, ownDeck, oppDeck);
        bestMove := Response(-1, 0, 0, NoPush, utility);
    }

    /** The MAX branch of `TryMinimax`: each move is played on a fresh copy
        of the board with its slot emptied and searched one level down; a
        strictly better utility takes over the best move, α rises to the
        child's utility, and the loop stops once α reaches β. */
    method ExpandMax(hand: Hand, theirHand: Hand, depth: nat, alpha: real, beta: real, board: array<Option<Card>>,
                     ghost g: Grid, gems: seq<Pos>, ownDeck: seq<Card>, oppDeck: seq<Card>, possibleMoves: seq<Response>)
      returns (bestMove: Response)
      requires board.Length == 25 && board[..] == g && Ready(EnvFor(gems, ownDeck, oppDeck), g, depth) && 1 <= depth
      requires Shape(MaxNode, hand, theirHand, depth) && MovesOf(hand, possibleMoves)
      ensures bestMove == MaxLoop(EnvFor(gems, ownDeck, oppDeck), hand, theirHand, depth, g, possibleMoves, 0,
                                  alpha, beta, MaxStart)
      decreases depth, 0, 1
    {
      ghost var env := EnvFor(gems, ownDeck, oppDeck);
      ghost var total := MaxLoop(env, hand, theirHand, depth, g, possibleMoves, 0, alpha, beta, MaxStart);
      bestMove := MaxStart;
      var a := alpha;
      for i := 0 to |possibleMoves|
        invariant board[..] == g
        invariant MaxLoop(env, hand, theirHand, depth, g, possibleMoves, i, a, beta, bestMove) == total
      {
        var move := possibleMoves[i];
        var nextBestNode := SearchMoveMax(hand, theirHand, depth, a, beta, board, g, gems, ownDeck, oppDeck, move);
        if nextBestNode.utility > bestMove.utility {
          bestMove := Respond(move, nextBestNode.utility);
        }
        a := Max(nextBestNode.utility, a);
        if a >= beta {
          return;
        }
      }
    }

    /** The MIN branch of `TryMinimax`: the opponent's moves, a strictly
        lower utility takes over, β falls to the child's utility, and the
        loop stops once α reaches β. */
    method ExpandMin(hand: Hand, theirHand: Hand, depth: nat, alpha: real, beta: real, board: array<Option<Card>>,
                     ghost g: Grid, gems: seq<Pos>, ownDeck: seq<Card>, oppDeck: seq<Card>, possibleMoves: seq<Response>)
      returns (bestMove: Response)
      requires board.Length == 25 && board[..] == g && Ready(EnvFor(gems, ownDeck, oppDeck), g, depth) && 1 <= depth
      requires Shape(MinNode, hand, theirHand, depth) && MovesOf(theirHand, possibleMoves)
      ensures bestMove == MinLoop(EnvFor(gems, ownDeck, oppDeck), hand, theirHand, depth, g, possibleMoves, 0,
                                  alpha, beta, MinStart)
      decreases depth, 0, 1
    {
      ghost var env := EnvFor(gems, ownDeck, oppDeck);
      ghost var total := MinLoop(env, hand, theirHand, depth, g, possibleMoves, 0, alpha, beta, MinStart);
      bestMove := MinStart;
      var b := beta;
      for i := 0 to |possibleMoves|
        invariant board[..] == g
        invariant MinLoop(env, hand, theirHand, depth, g, possibleMoves, i, alpha, b, bestMove) == total
      {
        var move := possibleMoves[i];
        var nextBestNode := SearchMoveMin(hand, theirHand, depth, alpha, b, board, g, gems, ownDeck, oppDeck, move);
        if nextBestNode.utility < bestMove.utility {
          bestMove := Respond(move, nextBestNode.utility);
        }
        b := Min(nextBestNode.utility, b);
        if alpha >= b {
          return;
        }
      }
    }

    /** One move of the MAX loop: the move played on a copy of the board,
        the played slot emptied, and the search one level down. */
    method SearchMoveMax(hand: Hand, theirHand: Hand, depth: nat, alpha: real, beta: real, board: array<Option<Card>>,
                         ghost g: Grid, gems: seq<Pos>, ownDeck: seq<Card>, oppDeck: seq<Card>, move: Response)
      returns (nextBestNode: Response)
      requires board.Length == 25 && board[..] == g && Ready(EnvFor(gems, ownDeck, oppDeck), g, depth) && 1 <= depth
      requires Shape(MaxNode, hand, theirHand, depth) && 0 <= move.cardIndex < |hand|
      ensures board[..] == g
      ensures nextBestNode == MaxChild(EnvFor(gems, ownDeck, oppDeck), hand, theirHand, depth, g, move, alpha, beta)
      decreases depth, 0, 0
    {
      var boardLocal := CopyState(board);
      TakeMove(boardLocal, gems, hand[move.cardIndex].value, move.rowNum, move.colNum, move.dir);
      ghost var child := AfterMove(g, gems, hand[move.cardIndex].value, move.rowNum, move.colNum, move.dir);
      var handLocal := hand[move.cardIndex := None];
      PlayedSlot(hand, move.cardIndex);
      var childDepth := depth - 1;
      if depth == StartDepth {
        nextBestNode := TryMinimax(handLocal, theirHand, MinNode, childDepth, alpha, beta, boardLocal, child, gems, ownDeck, oppDeck);
      } else {
        nextBestNode := TryMinimax(handLocal, theirHand, ChanceMin, childDepth, alpha, beta, boardLocal, child, gems, ownDeck, oppDeck);
      }
    }

    /** One move of the MIN loop: the opponent's move played on a copy of
        the board, the played slot emptied, and the search one level down. */
    method SearchMoveMin(hand: Hand, theirHand: Hand, depth: nat, alpha: real, beta: real, board: array<Option<Card>>,
                         ghost g: Grid, gems: seq<Pos>, ownDeck: seq<Card>, oppDeck: seq<Card>, move: Response)
      returns (nextBestNode: Response)
      requires board.Length == 25 && board[..] == g && Ready(EnvFor(gems, ownDeck, oppDeck), g, depth) && 1 <= depth
      requires Shape(MinNode, hand, theirHand, depth) && 0 <= move.cardIndex < |theirHand|
      ensures board[..] == g
      ensures nextBestNode == MinChild(EnvFor(gems, ownDeck, oppDeck), hand, theirHand, depth, g, move, alpha, beta)
      decreases depth, 0, 0
    {
      var boardLocal := CopyState(board);
      TakeMove(boardLocal, gems, theirHand[move.cardIndex].value, move.rowNum, move.colNum, move.dir);
      ghost var child := AfterMove(g, gems, theirHand[move.cardIndex].value, move.rowNum, move.colNum, move.dir);
      var handLocal := theirHand[move.cardIndex := None];
      PlayedSlot(theirHand, move.cardIndex);
      var childDepth := depth - 1;
      nextBestNode := TryMinimax(hand, handLocal, ChanceMax, childDepth, alpha, beta, boardLocal, child, gems, ownDeck, oppDeck);
    }

    /** The CHANCEMAX branch of `TryMinimax`: the hole of the own hand is
        filled with each card of the own deck in turn, the same board is
        searched one level down by a MAX node, and the child's utility
        weighted by the card's probability is added up; α rises to the
        partial sum and the loop stops once α reaches β. */
    method ExpandChanceMax(hand: Hand, theirHand: Hand, depth: nat, alpha: real, beta: real,
                           board: array<Option<Card>>, ghost g: Grid, gems: seq<Pos>, ownDeck: seq<Card>, oppDeck: seq<Card>)
      returns (utility: real)
      requires board.Length == 25 && board[..] == g && Ready(EnvFor(gems, ownDeck, oppDeck), g, depth) && 1 <= depth
      requires Shape(ChanceMax, hand, theirHand, depth)
      ensures utility == ChanceLoop(EnvFor(gems, ownDeck, oppDeck), true, hand, theirHand, depth, g, 0,
                                    alpha, beta, 0.0)
      decreases depth, 0, 1
    {
      ghost var env := EnvFor(gems, ownDeck, oppDeck);
      ghost var total := ChanceLoop(env, true, hand, theirHand, depth, g, 0, alpha, beta, 0.0);
      var handLocal := hand;
      var replaceIndex := FirstHole(handLocal, 0);
      var deck := ownDeck;
      utility := 0.0;
      var a := alpha;
      for i := 0 to |deck|
        invariant board[..] == g
        invariant handLocal == hand || (i > 0 && handLocal == hand[replaceIndex := Some(deck[i - 1])])
        invariant ChanceLoop(env, true, hand, theirHand, depth, g, i, a, beta, utility) == total
      {
        if i > 0 {
          UpdateTwice(hand, replaceIndex, Some(deck[i - 1]), Some(deck[i]));
        }
        handLocal := handLocal[replaceIndex := Some(deck[i])];
        DrawnShapeMax(hand, theirHand, depth, deck[i]);
        var nextBestNode := SearchDrawnMax(handLocal, theirHand, depth, a, beta, board, g, gems, ownDeck, oppDeck);
        ghost var before := utility;
        utility := AddWeighted(utility, nextBestNode.utility, deck, i, handLocal[replaceIndex].value);
        ChanceMaxAdvance(env, hand, theirHand, depth, g, deck, i, a, beta, handLocal, nextBestNode, before, utility, total);
        a := Max(utility, a);
        if a >= beta {
          return;
        }
      }
      ChanceLoopDone(env, true, hand, theirHand, depth, g, |deck|, a, beta, utility);
    }



    /** One draw of the CHANCEMAX loop: the MAX search one level down, from
        the drawing hand with its hole filled. */
    method SearchDrawnMax(handLocal: Hand, theirHand: Hand, depth: nat, alpha: real, beta: real,
                          board: array<Option<Card>>, ghost g: Grid, gems: seq<Pos>, ownDeck: seq<Card>, oppDeck: seq<Card>)
      returns (nextBestNode: Response)
      requires board.Length == 25 && board[..] == g && Ready(EnvFor(gems, ownDeck, oppDeck), g, depth) && 1 <= depth
      requires Shape(MaxNode, handLocal, theirHand, depth - 1)
      ensures nextBestNode == Search.Search(EnvFor(gems, ownDeck, oppDeck), MaxNode, handLocal, theirHand, depth - 1, alpha, beta, g)
      decreases depth, 0, 0
    {
      var childDepth := depth - 1;
      nextBestNode := TryMinimax(handLocal, theirHand, MaxNode, childDepth, alpha, beta, board, g, gems, ownDeck, oppDeck);
    }

    /** The CHANCEMIN branch of `TryMinimax`: the hole of the opponent's hand
        is filled with each card of the opponent's deck in turn, the same
        board is searched one level down by a MIN node, and the weighted
        utilities are added up; β falls to the partial sum and the loop stops
        once α reaches β. */
    method ExpandChanceMin(hand: Hand, theirHand: Hand, depth: nat, alpha: real, beta: real,
                           board: array<Option<Card>>, ghost g: Grid, gems: seq<Pos>, ownDeck: seq<Card>, oppDeck: seq<Card>)
      returns (utility: real)
      requires board.Length == 25 && board[..] == g && Ready(EnvFor(gems, ownDeck, oppDeck), g, depth) && 1 <= depth
      requires Shape(ChanceMin, hand, theirHand, depth)
      ensures utility == ChanceLoop(EnvFor(gems, ownDeck, oppDeck), false, hand, theirHand, depth, g, 0,
                                    alpha, beta, 0.0)
      decreases depth, 0, 1
    {
      ghost var env := EnvFor(gems, ownDeck, oppDeck);
      ghost var total := ChanceLoop(env, false, hand, theirHand, depth, g, 0, alpha, beta, 0.0);
      var handLocal := theirHand;
      var replaceIndex := FirstHole(handLocal, 0);
      var deck := oppDeck;
      utility := 0.0;
      var b := beta;
      for i := 0 to |deck|
        invariant board[..] == g
        invariant handLocal == theirHand || (i > 0 && handLocal == theirHand[replaceIndex := Some(deck[i - 1])])
        invariant ChanceLoop(env, false, hand, theirHand, depth, g, i, alpha, b, utility) == total
      {
        if i > 0 {
          UpdateTwice(theirHand, replaceIndex, Some(deck[i - 1]), Some(deck[i]));
        }
        handLocal := handLocal[replaceIndex := Some(deck[i])];
        DrawnShapeMin(hand, theirHand, depth, deck[i]);
        var nextBestNode := SearchDrawnMin(hand, handLocal, depth, alpha, b, board, g, gems, ownDeck, oppDeck);
        ghost var before := utility;
        utility := AddWeighted(utility, nextBestNode.utility, deck, i, handLocal[replaceIndex].value);
        ChanceMinAdvance(env, hand, theirHand, depth, g, deck, i, alpha, b, handLocal, nextBestNode, before, utility, total);
        b := Min(utility, b);
        if alpha >= b {
          return;
        }
      }
      ChanceLoopDone(env, false, hand, theirHand, depth, g, |deck|, alpha, b, utility);
    }



    /** One draw of the CHANCEMIN loop: the MIN search one level down, with
        the opponent's hole filled. */
    method SearchDrawnMin(hand: Hand, handLocal: Hand, depth: nat, alpha: real, beta: real,
                          board: array<Option<Card>>, ghost g: Grid, gems: seq<Pos>, ownDeck: seq<Card>, oppDeck: seq<Card>)
      returns (nextBestNode: Response)
      requires board.Length == 25 && board[..] == g && Ready(EnvFor(gems, ownDeck, oppDeck), g, depth) && 1 <= depth
      requires Shape(MinNode, hand, handLocal, depth - 1)
      ensures nextBestNode == Search.Search(EnvFor(gems, ownDeck, oppDeck), MinNode, hand, handLocal, depth - 1, alpha, beta, g)
      decreases depth, 0, 0
    {
      var childDepth := depth - 1;
      nextBestNode := TryMinimax(hand, handLocal, MinNode, childDepth, alpha, beta, board, g, gems, ownDeck, oppDeck);
    }

    /** `FindAllPossibleMove`: slot by slot, row by row, column by column,
        NOPUSH when it is legal, else each push the card has and the board
        allows, in the order DOWN, LEFT, RIGHT, UP. */
    method FindAllPossibleMove(hand: Hand, board: array<Option<Card>>, gems: seq<Pos>) returns (reses: seq<Response>)
      requires board.Length == 25 && Full(hand)
      ensures reses == FindAllMoves(hand, board[..], gems)
    {
      ghost var g := board[..];
      ghost var total := SlotMoves(hand, g, gems, 0);
      reses := [];
      for c := 0 to |hand|
        invariant reses + SlotMoves(hand, g, gems, c) == total
      {
        assert SlotMoves(hand, g, gems, c) == RowMoves(hand, g, gems, c, 1) + SlotMoves(hand, g, gems, c + 1);
        for i := 1 to 4
          invariant reses + (RowMoves(hand, g, gems, c, i) + SlotMoves(hand, g, gems, c + 1)) == total
        {
          assert RowMoves(hand, g, gems, c, i) == ColMoves(hand, g, gems, c, i, 1) + RowMoves(hand, g, gems, c, i + 1);
          Assoc(ColMoves(hand, g, gems, c, i, 1), RowMoves(hand, g, gems, c, i + 1), SlotMoves(hand, g, gems, c + 1));
          for j := 1 to 4
            invariant reses + (ColMoves(hand, g, gems, c, i, j) + (RowMoves(hand, g, gems, c, i + 1)
                               + SlotMoves(hand, g, gems, c + 1))) == total
          {
            ghost var before := reses;
            reses := AddCellMoves(hand, board, gems, c, i, j, reses);
            CellStep(hand, g, gems, c, i, j, before, RowMoves(hand, g, gems, c, i + 1) + SlotMoves(hand, g, gems, c + 1));
          }
          assert ColMoves(hand, g, gems, c, i, 4) == [];
          EmptyPrefix(RowMoves(hand, g, gems, c, i + 1) + SlotMoves(hand, g, gems, c + 1));
        }
        assert RowMoves(hand, g, gems, c, 4) == [];
        EmptyPrefix(SlotMoves(hand, g, gems, c + 1));
      }
      assert SlotMoves(hand, g, gems, |hand|) == [];
      EmptyPrefix(reses);
    }
    /** The body of `FindAllPossibleMove`'s innermost loop: NOPUSH when it is
        legal, else each push the card has and the board allows, in the order
        DOWN, LEFT, RIGHT, UP. */
    method AddCellMoves(hand: Hand, board: array<Option<Card>>, gems: seq<Pos>, c: nat, i: int, j: int,
                        reses: seq<Response>) returns (out: seq<Response>)
      requires board.Length == 25 && Full(hand) && c < |hand|
      ensures out == reses + CellMoves(hand, board[..], gems, c, i, j)
    {
      ghost var g := board[..];
      out := reses;
      var card := hand[c].value;
      if IsValidMove(board[..], gems, card, i, j, NoPush) {
        out := out + [Candidate(c, i, j, NoPush)];
      } else {
        if card.canPushDown && IsValidMove(board[..], gems, card, i, j, Down) {
          out := out + [Candidate(c, i, j, Down)];
        }
        assert out == reses + PushMove(hand, g, gems, c, i, j, Down);
        if card.canPushLeft && IsValidMove(board[..], gems, card, i, j, Left) {
          out := out + [Candidate(c, i, j, Left)];
        }
        assert out == reses + PushMove(hand, g, gems, c, i, j, Down) + PushMove(hand, g, gems, c, i, j, Left);
        if card.canPushRight && IsValidMove(board[..], gems, card, i, j, Right) {
          out := out + [Candidate(c, i, j, Right)];
        }
        assert out == reses + PushMove(hand, g, gems, c, i, j, Down) + PushMove(hand, g, gems, c, i, j, Left)
                      + PushMove(hand, g, gems, c, i, j, Right);
        if card.canPushUp && IsValidMove(board[..], gems, card, i, j, Up) {
          out := out + [Candidate(c, i, j, Up)];
        }
        PushesAppended(hand, g, gems, c, i, j, reses, out);
      }
    }
  }

  /** One cell of the scan: (i, j) is counted, and becomes the last empty
      cell, iff it is empty. */
  lemma ScanStep(g: Grid, i: int, j: int)
    requires WellFormed(g) && Inner(i, j)
    ensures EmptyCount(g, i, j + 1) == EmptyCount(g, i, j) + (if g[5 * i + j].None? then 1 else 0)
    ensures LastEmpty(g, i, j + 1) == if g[5 * i + j].None? then Cell(i, j) else LastEmpty(g, i, j)
  {
  }

  /** What the scan counts: the last empty cell it met is an empty central
      cell met before (i, j), and any empty central cell met before (i, j)
      is counted, as the only one just when it is that last cell. */
  lemma {:induction false} EmptyScan(g: Grid, i: int, j: int, c: Cell)
    requires WellFormed(g) && 0 <= i <= 3 && 1 <= j <= 4
    ensures var last := LastEmpty(g, i, j);
            EmptyCount(g, i, j) > 0 ==> Inner(last.row, last.col) && Before(last, i, j) && At(g, last).None?
    ensures Inner(c.row, c.col) && Before(c, i, j) && At(g, c).None? ==>
              EmptyCount(g, i, j) > 0 && (c == LastEmpty(g, i, j) || EmptyCount(g, i, j) >= 2)
    decreases i, j
  {
    if i == 0 {
    } else if j == 1 {
      EmptyScan(g, i - 1, 4, c);
    } else {
      EmptyScan(g, i, j - 1, c);
    }
  }

  /** The shortcut of `ConsiderTurn`: when the scan counts exactly one
      empty central cell, placing a card there without a push is legal iff
      no gem lies on it, and the legal placement leaves no central cell open,
      so the game is over (the search is skipped because that end is already
      a win for the side with more gems). */
  lemma ShortcutEndsGame(g: Grid, gems: seq<Pos>, card: Card)
    requires WellFormed(g) && EmptyCount(g, 3, 4) == 1
    ensures var c := LastEmpty(g, 3, 4);
            IsValidMove(g, gems, card, c.row, c.col, NoPush) <==> !GemHere(gems, c.row, c.col)
    ensures var c := LastEmpty(g, 3, 4);
            !GemHere(gems, c.row, c.col) ==> IsGameOver(AfterMove(g, gems, card, c.row, c.col, NoPush), gems)
  {
    var c := LastEmpty(g, 3, 4);
    EmptyScan(g, 3, 4, c);
    NoPushValidIff(g, gems, card, c.row, c.col);
    if !GemHere(gems, c.row, c.col) {
      var r := AfterMove(g, gems, card, c.row, c.col, NoPush);
      TakeMoveEffect(g, gems, card, c.row, c.col, NoPush);
      forall row, col | Inner(row, col)
        ensures Settled(r, gems, row, col)
      {
        if Cell(row, col) != c {
          assert !OnWalk(c, NoPush, 0, Cell(row, col));
          EmptyScan(g, 3, 4, Cell(row, col));
        }
      }
    }
  }

  /** The players build their `Minimaxer` with both gem counts 0, so in the
      game `ConsiderTurn` always answers with the search. */
  lemma ShortcutNeverInPlay(m: Minimaxer, myHand: Hand, theirHand: Hand, g: Grid, gems: seq<Pos>,
                            ownDeck: seq<Card>, oppDeck: seq<Card>)
    requires WellFormed(g) && GemsInGrid(gems) && Full(myHand) && Full(theirHand)
    requires m.numGemsOwned == 0 && m.numGemsOppOwns == 0
    ensures m.Decision(myHand, theirHand, g, gems, ownDeck, oppDeck)
            == Search.Search(m.EnvFor(gems, ownDeck, oppDeck), MaxNode, myHand, theirHand, StartDepth, MinValue, MaxValue, g)
  {
  }

  /** The child of a CHANCEMAX node for the drawn card c is the MAX search
      on the own hand with its hole filled with c. */
  lemma ChanceMaxChild(env: Env, hand: Hand, their: Hand, depth: nat, g: Grid, c: Card, alpha: real, beta: real,
                       filled: Hand, r: Response)
    requires Ready(env, g, depth) && 1 <= depth && Shape(ChanceMax, hand, their, depth)
    requires filled == hand[FirstHole(hand, 0) := Some(c)] && Full(filled)
    requires r == Search.Search(env, MaxNode, filled, their, depth - 1, alpha, beta, g)
    ensures r == ChanceChild(env, true, hand, their, depth, g, c, alpha, beta)
  {
  }

  /** The child of a CHANCEMIN node for the drawn card c is the MIN search
      on the opponent's hand with its hole filled with c. */
  lemma ChanceMinChild(env: Env, hand: Hand, their: Hand, depth: nat, g: Grid, c: Card, alpha: real, beta: real,
                       filled: Hand, r: Response)
    requires Ready(env, g, depth) && 1 <= depth && Shape(ChanceMin, hand, their, depth)
    requires filled == their[FirstHole(their, 0) := Some(c)] && Full(filled)
    requires r == Search.Search(env, MinNode, hand, filled, depth - 1, alpha, beta, g)
    ensures r == ChanceChild(env, false, hand, their, depth, g, c, alpha, beta)
  {
  }

  /** One draw of a chance node's loop. */
  lemma ChanceLoopStep(env: Env, isMax: bool, hand: Hand, their: Hand, depth: nat, g: Grid, deck: seq<Card>, i: nat,
                       alpha: real, beta: real, acc: real, u: real, acc': real)
    requires Ready(env, g, depth) && 1 <= depth && Shape(if isMax then ChanceMax else ChanceMin, hand, their, depth)
    requires deck == DeckOf(env, isMax) && i < |deck|
    requires u == ChanceChild(env, isMax, hand, their, depth, g, deck[i], alpha, beta).utility
    requires acc' == acc + Weigh(u, deck, i)
    ensures NextAlpha(isMax, acc', alpha) >= NextBeta(isMax, acc', beta) ==>
              ChanceLoop(env, isMax, hand, their, depth, g, i, alpha, beta, acc) == acc'
    ensures NextAlpha(isMax, acc', alpha) < NextBeta(isMax, acc', beta) ==>
              ChanceLoop(env, isMax, hand, their, depth, g, i, alpha, beta, acc)
              == ChanceLoop(env, isMax, hand, their, depth, g, i + 1, NextAlpha(isMax, acc', alpha), NextBeta(isMax, acc', beta), acc')
  {
  }

  /** One draw of a CHANCEMAX node's loop: with the child's utility u
      weighted and added to give acc', either α raised to acc' reaches β and
      the loop's value is acc', or the loop goes on from the next card. */
  lemma ChanceMaxAdvance(env: Env, hand: Hand, their: Hand, depth: nat, g: Grid, deck: seq<Card>, i: nat,
                         alpha: real, beta: real, filled: Hand, r: Response, acc: real, acc': real, total: real)
    requires Ready(env, g, depth) && 1 <= depth && Shape(ChanceMax, hand, their, depth)
    requires deck == env.ownDeck && i < |deck|
    requires filled == hand[FirstHole(hand, 0) := Some(deck[i])] && Full(filled)
    requires r == Search.Search(env, MaxNode, filled, their, depth - 1, alpha, beta, g)
    requires ChanceLoop(env, true, hand, their, depth, g, i, alpha, beta, acc) == total
    requires acc' == acc + Weigh(r.utility, deck, i)
    ensures Max(acc', alpha) >= beta ==> acc' == total
    ensures Max(acc', alpha) < beta ==> ChanceLoop(env, true, hand, their, depth, g, i + 1, Max(acc', alpha), beta, acc') == total
  {
    ChanceMaxChild(env, hand, their, depth, g, deck[i], alpha, beta, filled, r);
    ChanceLoopStep(env, true, hand, their, depth, g, deck, i, alpha, beta, acc, r.utility, acc');
  }

  /** One draw of a CHANCEMIN node's loop: with the child's utility u
      weighted and added to give acc', either β lowered to acc' meets α and
      the loop's value is acc', or the loop goes on from the next card. */
  lemma ChanceMinAdvance(env: Env, hand: Hand, their: Hand, depth: nat, g: Grid, deck: seq<Card>, i: nat,
                         alpha: real, beta: real, filled: Hand, r: Response, acc: real, acc': real, total: real)
    requires Ready(env, g, depth) && 1 <= depth && Shape(ChanceMin, hand, their, depth)
    requires deck == env.oppDeck && i < |deck|
    requires filled == their[FirstHole(their, 0) := Some(deck[i])] && Full(filled)
    requires r == Search.Search(env, MinNode, hand, filled, depth - 1, alpha, beta, g)
    requires ChanceLoop(env, false, hand, their, depth, g, i, alpha, beta, acc) == total
    requires acc' == acc + Weigh(r.utility, deck, i)
    ensures alpha >= Min(acc', beta) ==> acc' == total
    ensures alpha < Min(acc', beta) ==> ChanceLoop(env, false, hand, their, depth, g, i + 1, alpha, Min(acc', beta), acc') == total
  {
    ChanceMinChild(env, hand, their, depth, g, deck[i], alpha, beta, filled, r);
    ChanceLoopStep(env, false, hand, their, depth, g, deck, i, alpha, beta, acc, r.utility, acc');
  }

  /** A chance node's loop past the last card answers its running sum. */
  lemma ChanceLoopDone(env: Env, isMax: bool, hand: Hand, their: Hand, depth: nat, g: Grid, i: nat,
                       alpha: real, beta: real, acc: real)
    requires Ready(env, g, depth) && 1 <= depth && Shape(if isMax then ChanceMax else ChanceMin, hand, their, depth)
    requires i >= |DeckOf(env, isMax)|
    ensures ChanceLoop(env, isMax, hand, their, depth, g, i, alpha, beta, acc) == acc
  {
  }

  /** The running sum of a chance node after drawing c = deck[i]: the
      child's utility u weighted by the probability of c. */
  method AddWeighted(utility: real, u: real, deck: seq<Card>, i: nat, c: Card) returns (sum: real)
    requires i < |deck| && c == deck[i]
    ensures sum == utility + Weigh(u, deck, i)
  {
    sum := utility + u * Probability(deck, c);
  }

  /** Writing slot k again overwrites the first write. */
  lemma UpdateTwice<T>(s: seq<T>, k: int, y: T, x: T)
    requires 0 <= k < |s|
    ensures s[k := y][k := x] == s[k := x]
  {
  }

  lemma EmptyPrefix<T>(a: seq<T>)
    ensures [] + a == a && a + [] == a
  {
  }

  lemma Assoc<T>(a: seq<T>, b: seq<T>, c: seq<T>)
    ensures a + (b + c) == (a + b) + c
  {
  }

  /** The four pushes appended one after the other are `PushMoves`. */
  lemma PushesAppended(hand: Hand, g: Grid, gems: seq<Pos>, c: nat, i: int, j: int, before: seq<Response>, after: seq<Response>)
    requires WellFormed(g) && c < |hand| && hand[c].Some?
    requires after == before + PushMove(hand, g, gems, c, i, j, Down) + PushMove(hand, g, gems, c, i, j, Left)
                      + PushMove(hand, g, gems, c, i, j, Right) + PushMove(hand, g, gems, c, i, j, Up)
    ensures after == before + PushMoves(hand, g, gems, c, i, j)
  {
  }

  /** One cell of `FindAllPossibleMove`: what the cell adds is `CellMoves`. */
  lemma CellStep(hand: Hand, g: Grid, gems: seq<Pos>, c: nat, i: int, j: int, before: seq<Response>, rest: seq<Response>)
    requires WellFormed(g) && Full(hand) && c < |hand| && 1 <= j <= 3
    ensures before + (ColMoves(hand, g, gems, c, i, j) + rest)
            == (before + CellMoves(hand, g, gems, c, i, j)) + (ColMoves(hand, g, gems, c, i, j + 1) + rest)
  {
    var here, more := CellMoves(hand, g, gems, c, i, j), ColMoves(hand, g, gems, c, i, j + 1);
    assert ColMoves(hand, g, gems, c, i, j) == here + more;
    Assoc(here, more, rest);
    Assoc(before, here, more + rest);
  }
}
