/** A player of the game: the three-slot hand and the deck it draws from,
    the gem counter the referee keeps in step with the board, the placement
    cursor a human moves over the board, and, for a computer player, the
    `Minimaxer` that chooses its move. */
module Players {
  import opened Optional
  import opened Directions
  import opened CardScript
  import opened BoardRules
  import opened MoveGeneration
  import opened Minimax

  /** What a player hands to the referee at the end of its turn: the card
      played, the target cell and the push. */
  datatype Submission = Submission(card: Card, row: int, column: int, push: Direction)

  // ---------------------------------------------------------------------------
  // The cards a player holds
  // ---------------------------------------------------------------------------

  function SlotCards(slot: Option<Card>): multiset<Card>
  {
    if slot.Some? then multiset{slot.value} else multiset{}
  }

  /** The cards in the occupied slots of a hand. */
  function HandCards(h: Hand): multiset<Card>
  {
    if h == [] then multiset{} else SlotCards(h[0]) + HandCards(h[1..])
  }

  /** Overwriting one slot trades the card that was there for the new one:
      counted card by card. */
  lemma {:induction false} HandCardsUpdate(h: Hand, i: int, x: Option<Card>, c: Card)
    requires 0 <= i < |h|
    ensures HandCards(h[i := x])[c] + SlotCards(h[i])[c] == HandCards(h)[c] + SlotCards(x)[c]
  {
    var h' := h[i := x];
    if i == 0 {
      assert h'[1..] == h[1..];
    } else {
      assert h'[1..] == h[1..][i - 1 := x];
      HandCardsUpdate(h[1..], i - 1, x, c);
    }
  }

  /** Refilling slot i from the top of the deck keeps every card: what is
      held afterwards, plus the card that left slot i, is what was held
      before. */
  lemma RefillConserves(h: Hand, deck: seq<Card>, i: int)
    requires 0 <= i < |h| && |deck| > 0
    ensures HandCards(h[i := Some(deck[0])]) + multiset(deck[1..]) + SlotCards(h[i])
            == HandCards(h) + multiset(deck)
  {
    assert deck == [deck[0]] + deck[1..];
    forall c: Card
      ensures (HandCards(h[i := Some(deck[0])]) + multiset(deck[1..]) + SlotCards(h[i]))[c]
              == (HandCards(h) + multiset(deck))[c]
    {
      HandCardsUpdate(h, i, Some(deck[0]), c);
    }
  }

  // ---------------------------------------------------------------------------
  // The human placement cursor
  // ---------------------------------------------------------------------------

  /** The placement cursor: target cell, push and whether that move is legal. */
  datatype Cursor = Cursor(row: int, col: int, pushDir: Direction, isValid: bool)

  /** The cell one step from (row, col) in `move`; NoPush stays put. */
  function Step(row: int, col: int, move: Direction): Cell
  {
    match move
    case Up => Cell(row - 1, col)
    case Down => Cell(row + 1, col)
    case Left => Cell(row, col - 1)
    case Right => Cell(row, col + 1)
    case NoPush => Cell(row, col)
  }

  /** `MoveCard` on the cursor: on an occupied cell, a move that does not
      oppose the current push turns the push round the card (the push comes
      from the side the move points at); otherwise the cursor steps, unless
      the step leaves rows and columns 1..3, and takes the move as its push
      when it lands on a card and no push on an empty cell. Whenever it
      changes, the validity is recomputed for the new target and push. */
  function MoveCursor(g: Grid, gems: seq<Pos>, card: Card, cur: Cursor, currentPush: Direction, move: Direction): (r: Cursor)
    requires WellFormed(g) && InGrid(Cell(cur.row, cur.col))
    ensures Inner(cur.row, cur.col) ==> Inner(r.row, r.col)
  {
    if At(g, Cell(cur.row, cur.col)).Some? && !AreOpposingDirections(currentPush, move) then
      var d := GetOpposingDirections(move);
      Cursor(cur.row, cur.col, d, IsValidMove(g, gems, card, cur.row, cur.col, d))
    else
      var next := Step(cur.row, cur.col, move);
      if !Inner(next.row, next.col) then cur
      else
        var d := if At(g, next).Some? then move else NoPush;
        Cursor(next.row, next.col, d, IsValidMove(g, gems, card, next.row, next.col, d))
  }

  /** The cursor's validity flag agrees with the rules. */
  predicate Consistent(g: Grid, gems: seq<Pos>, card: Card, cur: Cursor)
    requires WellFormed(g)
  {
    cur.isValid == IsValidMove(g, gems, card, cur.row, cur.col, cur.pushDir)
  }

  /** On an occupied cell, a move that does not oppose the current push keeps
      the target and turns the push to the opposite of the move. */
  lemma CursorTurnsRound(g: Grid, gems: seq<Pos>, card: Card, cur: Cursor, currentPush: Direction, move: Direction)
    requires WellFormed(g) && InGrid(Cell(cur.row, cur.col))
    requires At(g, Cell(cur.row, cur.col)).Some? && !AreOpposingDirections(currentPush, move)
    ensures var r := MoveCursor(g, gems, card, cur, currentPush, move);
            r.row == cur.row && r.col == cur.col && r.pushDir == GetOpposingDirections(move)
  {
  }

  /** Otherwise, a step that would leave rows and columns 1..3 changes
      nothing; a step inside them moves the target one cell, with no push on
      an empty cell and the move itself as push on an occupied one. */
  lemma CursorSteps(g: Grid, gems: seq<Pos>, card: Card, cur: Cursor, currentPush: Direction, move: Direction)
    requires WellFormed(g) && InGrid(Cell(cur.row, cur.col))
    requires At(g, Cell(cur.row, cur.col)).None? || AreOpposingDirections(currentPush, move)
    ensures var r := MoveCursor(g, gems, card, cur, currentPush, move);
            var next := Step(cur.row, cur.col, move);
            && (!Inner(next.row, next.col) ==> r == cur)
            && (Inner(next.row, next.col) ==>
                  r.row == next.row && r.col == next.col &&
                  r.pushDir == (if At(g, next).Some? then move else NoPush))
  {
  }

  /** Whenever the target or the push changes, the flag is recomputed, so a
      consistent cursor stays consistent. */
  lemma CursorKeepsConsistent(g: Grid, gems: seq<Pos>, card: Card, cur: Cursor, currentPush: Direction, move: Direction)
    requires WellFormed(g) && InGrid(Cell(cur.row, cur.col))
    ensures var r := MoveCursor(g, gems, card, cur, currentPush, move);
            && ((r.row, r.col, r.pushDir) != (cur.row, cur.col, cur.pushDir) ==> Consistent(g, gems, card, r))
            && (Consistent(g, gems, card, cur) ==> Consistent(g, gems, card, r))
  {
  }

  /** The cursor after a run of key presses, each `MoveCard` being given the
      cursor's own push as the current push. */
  function CursorAfter(g: Grid, gems: seq<Pos>, card: Card, cur: Cursor, moves: seq<Direction>): Cursor
    requires WellFormed(g) && Inner(cur.row, cur.col)
    decreases |moves|
  {
    if moves == [] then cur
    else CursorAfter(g, gems, card, MoveCursor(g, gems, card, cur, cur.pushDir, moves[0]), moves[1..])
  }

  /** Choosing a card puts the cursor at (1, 2) and moves it DOWN with no
      current push: whatever the board, the cursor then agrees with the rules. */
  lemma SelectMakesConsistent(g: Grid, gems: seq<Pos>, card: Card, cur: Cursor)
    requires WellFormed(g) && cur.row == 1 && cur.col == 2
    ensures Consistent(g, gems, card, MoveCursor(g, gems, card, cur, NoPush, Down))
  {
  }

  /** Any run of key presses from a consistent cursor on a central cell
      leaves it on a central cell and consistent. */
  lemma {:induction false} CursorRunInvariant(g: Grid, gems: seq<Pos>, card: Card, cur: Cursor, moves: seq<Direction>)
    requires WellFormed(g) && Inner(cur.row, cur.col) && Consistent(g, gems, card, cur)
    ensures Inner(CursorAfter(g, gems, card, cur, moves).row, CursorAfter(g, gems, card, cur, moves).col)
    ensures Consistent(g, gems, card, CursorAfter(g, gems, card, cur, moves))
    decreases |moves|
  {
    if moves != [] {
      var next := MoveCursor(g, gems, card, cur, cur.pushDir, moves[0]);
      CursorKeepsConsistent(g, gems, card, cur, cur.pushDir, moves[0]);
      CursorRunInvariant(g, gems, card, next, moves[1..]);
    }
  }

  /** The body of `MoveCard` on the cursor: turn round an occupied cell
      when the move does not oppose the current push, otherwise step. */
  method CursorMove(g: Grid, gems: seq<Pos>, card: Card, cur: Cursor, currentPush: Direction, move: Direction)
    returns (r: Cursor)
    requires WellFormed(g) && InGrid(Cell(cur.row, cur.col))
    ensures r == MoveCursor(g, gems, card, cur, currentPush, move)
  {
    if g[5 * cur.row + cur.col].Some? {
      if !AreOpposingDirections(currentPush, move) {
        var pushDir := GetOpposingDirections(move);
        var isValid := IsValidMove(g, gems, card, cur.row, cur.col, pushDir);
        return Cursor(cur.row, cur.col, pushDir, isValid);
      }
    }
    r := CursorStep(g, gems, card, cur, currentPush, move);
  }

  /** The stepping part of `MoveCard`: the cell one step along the move. */
  method CursorStep(g: Grid, gems: seq<Pos>, card: Card, cur: Cursor, currentPush: Direction, move: Direction)
    returns (r: Cursor)
    requires WellFormed(g) && InGrid(Cell(cur.row, cur.col))
    requires g[5 * cur.row + cur.col].None? || AreOpposingDirections(currentPush, move)
    ensures r == MoveCursor(g, gems, card, cur, currentPush, move)
  {
    var newRow, newCol := cur.row, cur.col;
    match move {
      case Up => newRow := newRow - 1;
      case Down => newRow := newRow + 1;
      case Left => newCol := newCol - 1;
      case Right => newCol := newCol + 1;
      case NoPush =>
    }
    r := CursorLand(g, gems, card, cur, currentPush, move, Cell(newRow, newCol));
  }

  /** The rest of the step: stay put when that cell leaves rows and columns
      1..3, otherwise move there and choose the push by what is there. */
  method CursorLand(g: Grid, gems: seq<Pos>, card: Card, cur: Cursor, currentPush: Direction, move: Direction, next: Cell)
    returns (r: Cursor)
    requires WellFormed(g) && InGrid(Cell(cur.row, cur.col))
    requires g[5 * cur.row + cur.col].None? || AreOpposingDirections(currentPush, move)
    requires next == Step(cur.row, cur.col, move)
    ensures r == MoveCursor(g, gems, card, cur, currentPush, move)
  {
    if next.col > 3 || next.col < 1 || next.row > 3 || next.row < 1 {
      return cur;
    }
    var pushDir := if g[5 * next.row + next.col].Some? then move else NoPush;
    var isValid := IsValidMove(g, gems, card, next.row, next.col, pushDir);
    r := Cursor(next.row, next.col, pushDir, isValid);
  }

  // ---------------------------------------------------------------------------
  // The player object
  // ---------------------------------------------------------------------------

  /** The human-control fields, kept as one record: whether it is this
      player's turn, which of the two input phases it is in (choosing a card
      from the hand, placing it on the board), the chosen slot, and the
      placement cursor (`placedRow`, `placedColumn`, `pushDir`, `isValid`). */
  datatype Control = Control(
    isTurn: bool,
    isChoosingFromHand: bool,
    isPlacingCard: bool,
    chosenIndex: int,
    cursor: Cursor)

  /** The control fields' initial values: not this player's turn, choosing
      from the hand, nothing chosen, the cursor unset. */
  const InitialControl := Control(false, true, false, -1, Cursor(-1, -1, NoPush, false))

  /** The player's fields other than the hand array, as one value, so that a
      method can say which of them it changes. */
  datatype Fields = Fields(
    isAI: bool,
    isPlayer: bool,
    aiComponent: Minimaxer?,
    deck: seq<Card>,
    gemCounter: int,
    control: Control)

  class Player {
    var isAI: bool
    /** Whether this is player 1. */
    var isPlayer: bool
    var deck: seq<Card>
    /** The visible hand: three slots. */
    const hand: array<Option<Card>>
    var aiComponent: Minimaxer?
    var gemCounter: int
    var control: Control

    function State(): Fields
      reads this
    {
      Fields(isAI, isPlayer, aiComponent, deck, gemCounter, control)
    }

    /** Three hand slots, a gem counter within the three gem sprites, and a
        search object whenever the player is a computer. */
    predicate Valid()
      reads this
    {
      hand.Length == 3 && 0 <= gemCounter <= 3 && (isAI ==> aiComponent != null)
    }

    /** A player with the fields' initial values: an empty hand and deck, no
        gems, not a computer player. */
    constructor ()
      ensures Valid() && fresh(hand) && hand[..] == [None, None, None]
      ensures State() == Fields(false, false, null, [], 0, InitialControl)
    {
      isAI := false;
      isPlayer := false;
      deck := [];
      hand := new Option<Card>[3](_ => None);
      aiComponent := null;
      gemCounter := 0;
      control := InitialControl;
      new;
      assert hand[..] == [None, None, None];
    }

    /** `SetAI`: the player becomes a computer player with a fresh search
        object for its side, whose gem counts are 0. */
    method SetAI()
      requires Valid()
      modifies this
      ensures Valid()
      ensures State() == old(State()).(isAI := true, aiComponent := aiComponent)
      ensures aiComponent != null && fresh(aiComponent)
      ensures aiComponent.isPlayer1 == isPlayer && aiComponent.numGemsOwned == 0 && aiComponent.numGemsOppOwns == 0
    {
      isAI := true;
      aiComponent := new Minimaxer.ForPlayer(isPlayer);
    }

    /** `DrawCard`: for a slot below 3, the top card of the deck moves into
        that slot; for any other index nothing happens. */
    method DrawCard(indx: int)
      requires Valid() && 0 <= indx && (indx < 3 ==> |deck| > 0)
      modifies this, hand
      ensures Valid()
      ensures indx < 3 ==> hand[..] == old(hand[..])[indx := Some(old(deck)[0])]
      ensures indx < 3 ==> State() == old(State()).(deck := old(deck)[1..])
      ensures indx >= 3 ==> hand[..] == old(hand[..]) && State() == old(State())
    {
      if indx < 3 {
        hand[indx] := Some(deck[0]);
        deck := deck[1..];
      }
    }

    /** `GiveDeck`: the deck becomes d and its first three cards are drawn
        into slots 0, 1 and 2 in order. */
    method GiveDeck(d: seq<Card>)
      requires Valid() && |d| >= 3
      modifies this, hand
      ensures Valid()
      ensures hand[..] == [Some(d[0]), Some(d[1]), Some(d[2])]
      ensures State() == old(State()).(deck := d[3..])
    {
      deck := d;
      for i := 0 to 3
        invariant Valid()
        invariant forall k :: 0 <= k < i ==> hand[k] == Some(d[k])
        invariant State() == old(State()).(deck := d[i..])
      {
        DrawCard(i);
      }
      assert hand[..] == [hand[0], hand[1], hand[2]];
    }

    /** `SubmitTurn`: the turn ends, the played slot is refilled from the
        deck, and the card that was in it goes to the referee with the
        chosen cell and push. No card is lost or made up on the way. */
    method SubmitTurn(indx: int, row: int, col: int, push: Direction) returns (s: Submission)
      requires Valid() && 0 <= indx < 3 && hand[indx].Some? && |deck| > 0
      modifies this, hand
      ensures Valid()
      ensures s == Submission(old(hand[indx]).value, row, col, push)
      ensures hand[..] == old(hand[..])[indx := Some(old(deck)[0])]
      ensures State() == old(State()).(deck := old(deck)[1..], control := old(control).(isTurn := false))
      ensures HandCards(hand[..]) + multiset(deck) + multiset{s.card} == HandCards(old(hand[..])) + multiset(old(deck))
    {
      control := control.(isTurn := false);
      var card := hand[indx].value;
      RefillConserves(hand[..], deck, indx);
      DrawCard(indx);
      s := Submission(card, row, col, push);
    }

    /** `MoveCard` (without the rendering): the cursor moves as `MoveCursor`
        says, for the card in the chosen slot; nothing else changes. */
    method MoveCard(currentPush: Direction, move: Direction, board: array<Option<Card>>, gems: seq<Pos>)
      requires Valid() && board.Length == 25
      requires InGrid(Cell(control.cursor.row, control.cursor.col))
      requires 0 <= control.chosenIndex < 3 && hand[control.chosenIndex].Some?
      modifies this
      ensures Valid()
      ensures State() == old(State()).(control := old(control).(cursor := control.cursor))
      ensures control.cursor == MoveCursor(board[..], gems, hand[control.chosenIndex].value, old(control.cursor), currentPush, move)
    {
      var cursor := CursorMove(board[..], gems, hand[control.chosenIndex].value, control.cursor, currentPush, move);
      control := control.(cursor := cursor);
    }

    /** `TakeHumanTurn`: it is now this player's turn, choosing from the hand
        with slot 0 highlighted, no valid placement yet and the cursor at the
        centre; the push is left as it was. */
    method TakeHumanTurn()
      modifies this
      ensures State() == old(State()).(control := Control(true, true, false, 0, Cursor(2, 2, old(control.cursor.pushDir), false)))
    {
      control := Control(true, true, false, 0, Cursor(2, 2, control.cursor.pushDir, false));
    }

    /** `TakeAITurn`: the search object chooses a move for this hand against
        the opponent's, with this player's deck as its own; a move naming a
        slot is submitted. The answer of a search that found no move names
        slot -1: then nothing is submitted and nothing changes. */
    method TakeAITurn(board: array<Option<Card>>, gems: seq<Pos>, theirHand: Hand, oppDeck: seq<Card>)
      returns (local: Response, s: Option<Submission>)
      requires Valid() && isAI && board.Length == 25 && GemsInGrid(gems)
      requires Full(hand[..]) && Full(theirHand) && |deck| > 0
      modifies this, hand
      ensures Valid()
      ensures local == old(aiComponent).Decision(old(hand[..]), theirHand, board[..], gems, old(deck), oppDeck)
      ensures 0 <= local.cardIndex < 3 ==>
                && s == Some(Submission(old(hand[..])[local.cardIndex].value, local.rowNum, local.colNum, local.dir))
                && hand[..] == old(hand[..])[local.cardIndex := Some(old(deck)[0])]
                && State() == old(State()).(deck := old(deck)[1..], control := old(control).(isTurn := false))
      ensures !(0 <= local.cardIndex < 3) ==> s == None && hand[..] == old(hand[..]) && State() == old(State())
    {
      local := aiComponent.ConsiderTurn(hand[..], theirHand, board, gems, deck, oppDeck);
      if 0 <= local.cardIndex < 3 {
        var sub := SubmitTurn(local.cardIndex, local.rowNum, local.colNum, local.dir);
        s := Some(sub);
      } else {
        s := None;
      }
    }

    /** `NotifyIsTurn`: a computer player takes its turn at once and hands
        over its move; a human player is set up to choose one. */
    method NotifyIsTurn(board: array<Option<Card>>, gems: seq<Pos>, theirHand: Hand, oppDeck: seq<Card>)
      returns (s: Option<Submission>)
      requires Valid() && board.Length == 25 && GemsInGrid(gems)
      requires isAI ==> Full(hand[..]) && Full(theirHand) && |deck| > 0
      modifies this, hand
      ensures Valid()
      ensures !old(isAI) ==> s == None && hand[..] == old(hand[..])
      ensures !old(isAI) ==>
                State() == old(State()).(control := Control(true, true, false, 0, Cursor(2, 2, old(control.cursor.pushDir), false)))
      ensures old(isAI) ==>
                var local := old(aiComponent).Decision(old(hand[..]), theirHand, board[..], gems, old(deck), oppDeck);
                if 0 <= local.cardIndex < 3 then
                  && s == Some(Submission(old(hand[..])[local.cardIndex].value, local.rowNum, local.colNum, local.dir))
                  && hand[..] == old(hand[..])[local.cardIndex := Some(old(deck)[0])]
                  && State() == old(State()).(deck := old(deck)[1..], control := old(control).(isTurn := false))
                else s == None && hand[..] == old(hand[..]) && State() == old(State())
    {
      if isAI {
        var local;
        local, s := TakeAITurn(board, gems, theirHand, oppDeck);
      } else {
        TakeHumanTurn();
        s := None;
      }
    }

    /** `GiveGem`: one more gem. */
    method GiveGem()
      requires Valid() && gemCounter < 3
      modifies this
      ensures Valid()
      ensures State() == old(State()).(gemCounter := old(gemCounter) + 1)
    {
      gemCounter := gemCounter + 1;
    }

    /** `TakeGem`: one gem fewer. */
    method TakeGem()
      requires Valid() && gemCounter >= 1
      modifies this
      ensures Valid()
      ensures State() == old(State()).(gemCounter := old(gemCounter) - 1)
    {
      gemCounter := gemCounter - 1;
    }
  }
}
