/** The referee of a game: it deals the two decks, tells the players in turn
    that it is their move, checks and carries out each submitted move,
    keeps the players' gem counters in step with the board and declares the
    winner once the board is settled. */
module Manager {
  import opened Optional
  import opened Directions
  import opened CardScript
  import opened BoardRules
  import opened Board
  import opened MoveGeneration
  import opened Minimax
  import opened Players
  import opened Settings

  /** The number of cards in each player's deck. */
  const DeckSize := 16

  // ---------------------------------------------------------------------------
  // The winner
  // ---------------------------------------------------------------------------

  /** The winner announced at the end of a game from the two gem counts:
      2 when player 2 holds more gems, 1 when player 1 does, 0 for a draw. */
  function Winner(p1: int, p2: int): (w: int)
    ensures w == 2 <==> p1 < p2
    ensures w == 1 <==> p2 < p1
    ensures w == 0 <==> p1 == p2
  {
    if p1 < p2 then 2 else if p2 < p1 then 1 else 0
  }

  /** Swapping the two counts swaps the winner and keeps a draw a draw: the
      rule favours neither seat. */
  lemma WinnerSymmetric(p1: int, p2: int)
    ensures Winner(p2, p1) == (if Winner(p1, p2) == 0 then 0 else 3 - Winner(p1, p2))
  {
  }

  /** With all three gems shared out, there is never a draw. */
  lemma NoDrawWithThreeGems(p1: int, p2: int)
    requires 0 <= p1 && 0 <= p2 && p1 + p2 == 3
    ensures Winner(p1, p2) != 0
  {
  }

  // ---------------------------------------------------------------------------
  // Dealing
  // ---------------------------------------------------------------------------

  /** The random draws of one shuffle: one index into the list per position. */
  predicate SwapIndices(r: seq<int>, n: int)
  {
    |r| == n && forall k :: 0 <= k < |r| ==> 0 <= r[k] < n
  }

  /** Exchanging the cards at positions i and j. */
  function Swap(s: seq<Card>, i: int, j: int): (t: seq<Card>)
    requires 0 <= i < |s| && 0 <= j < |s|
    ensures |t| == |s|
  {
    s[i := s[j]][j := s[i]]
  }

  /** An exchange only rearranges the cards. */
  lemma SwapPermutes(s: seq<Card>, i: int, j: int)
    requires 0 <= i < |s| && 0 <= j < |s|
    ensures multiset(Swap(s, i, j)) == multiset(s)
  {
  }

  /** The shuffle from position i on: position i is exchanged with the
      position drawn for it, then the rest of the list is shuffled. */
  function ShuffleFrom(s: seq<Card>, r: seq<int>, i: nat): (t: seq<Card>)
    requires SwapIndices(r, |s|) && i <= |s|
    ensures |t| == |s|
    decreases |s| - i
  {
    if i == |s| then s else ShuffleFrom(Swap(s, i, r[i]), r, i + 1)
  }

  /** A shuffle rearranges the cards: none is lost or duplicated, whatever
      indices are drawn. */
  lemma {:induction false} ShufflePermutes(s: seq<Card>, r: seq<int>, i: nat)
    requires SwapIndices(r, |s|) && i <= |s|
    ensures multiset(ShuffleFrom(s, r, i)) == multiset(s)
    decreases |s| - i
  {
    if i < |s| {
      var t := Swap(s, i, r[i]);
      SwapPermutes(s, i, r[i]);
      ShufflePermutes(t, r, i + 1);
      assert ShuffleFrom(s, r, i) == ShuffleFrom(t, r, i + 1);
    }
  }

  /** Drawing every index as the position itself leaves the list as it is. */
  lemma {:induction false} ShuffleIdentity(s: seq<Card>, r: seq<int>, i: nat)
    requires SwapIndices(r, |s|) && i <= |s|
    requires forall k :: i <= k < |s| ==> r[k] == k
    ensures ShuffleFrom(s, r, i) == s
    decreases |s| - i
  {
    if i < |s| {
      assert Swap(s, i, r[i]) == s;
      ShuffleIdentity(s, r, i + 1);
    }
  }

  /** `Shuffle`: for each position in turn, exchange it with a position
      drawn at random from the whole list; the draws are the parameter
      `randomIndices`. */
  method Shuffle(cards: array<Card>, randomIndices: seq<int>)
    requires SwapIndices(randomIndices, cards.Length)
    modifies cards
    ensures cards[..] == ShuffleFrom(old(cards[..]), randomIndices, 0)
    ensures multiset(cards[..]) == multiset(old(cards[..]))
  {
    for i := 0 to cards.Length
      invariant ShuffleFrom(cards[..], randomIndices, i) == ShuffleFrom(old(cards[..]), randomIndices, 0)
    {
      ghost var before := cards[..];
      var temp := cards[i];
      var randomIndex := randomIndices[i];
      cards[i] := cards[randomIndex];
      cards[randomIndex] := temp;
      assert cards[..] == Swap(before, i, randomIndex);
    }
    ShufflePermutes(old(cards[..]), randomIndices, 0);
  }

  /** The cards of a fresh deck: the first sixteen of the catalogue, each
      marked as belonging to player 1 or to player 2. */
  function Copies(allCards: seq<Card>, owner: bool): (d: seq<Card>)
    requires |allCards| >= DeckSize
    ensures |d| == DeckSize
    ensures forall k :: 0 <= k < DeckSize ==> d[k] == allCards[k].(isPlayerCard := owner)
  {
    seq(DeckSize, k requires 0 <= k < DeckSize => allCards[k].(isPlayerCard := owner))
  }

  /** The deck a player is dealt: a shuffled copy of the catalogue. */
  function Dealt(allCards: seq<Card>, owner: bool, r: seq<int>): seq<Card>
    requires |allCards| >= DeckSize && SwapIndices(r, DeckSize)
  {
    ShuffleFrom(Copies(allCards, owner), r, 0)
  }

  /** A dealt deck holds exactly the catalogue's sixteen cards, every one
      marked for its owner. */
  lemma DealtCards(allCards: seq<Card>, owner: bool, r: seq<int>)
    requires |allCards| >= DeckSize && SwapIndices(r, DeckSize)
    ensures |Dealt(allCards, owner, r)| == DeckSize
    ensures multiset(Dealt(allCards, owner, r)) == multiset(Copies(allCards, owner))
    ensures forall c :: c in Dealt(allCards, owner, r) ==> c.isPlayerCard == owner
  {
    ShufflePermutes(Copies(allCards, owner), r, 0);
    forall c | c in Dealt(allCards, owner, r)
      ensures c.isPlayerCard == owner
    {
      assert c in multiset(Copies(allCards, owner));
    }
  }

  /** The two decks are dealt from the same catalogue: apart from the owner
      mark they hold the same cards. */
  lemma DecksMirror(allCards: seq<Card>, k: int)
    requires |allCards| >= DeckSize && 0 <= k < DeckSize
    ensures Copies(allCards, true)[k].(isPlayerCard := false) == Copies(allCards, false)[k]
  {
  }

  /** What the game records besides the board and the players: whose turn
      comes next, the number of computer players, whether the end-of-game
      screen is up and whom it names, and whether a call of
      `EnableNextPlayer` is scheduled. */
  datatype Round = Round(isLeftPlayerTurn: bool, numAIs: int, ended: bool, winNum: int, pending: bool)

  class GameManager {
    var isLeftPlayerTurn: bool
    var numAIs: int
    /** The board (`Board.Instance`): 25 cells in row-major order. */
    const board: array<Option<Card>>
    /** The gem positions of the board. */
    const gems: seq<Pos>
    const player1: Player
    const player2: Player
    /** The end-of-game screen is shown. */
    var ended: bool
    /** The winner the end-of-game screen names. */
    var winNum: int
    /** `EnableNextPlayer` has been scheduled and has not run yet. */
    var pending: bool
    /** The players notified so far, true for player 1. */
    ghost var turns: seq<bool>

    function Status(): Round
      reads this
    {
      Round(isLeftPlayerTurn, numAIs, ended, winNum, pending)
    }

    /** Two distinct valid players with hands of their own, a board of 25
        cells with its three gems, and turns that have alternated from
        player 1 on, the flag saying whose turn comes next. */
    ghost predicate Valid()
      reads this, player1, player2
    {
      && board.Length == 25 && ValidGems(gems)
      && player1 != player2 && player1.hand != player2.hand
      && player1.Valid() && player2.Valid()
      && (isLeftPlayerTurn <==> |turns| % 2 == 0)
      && (forall k :: 0 <= k < |turns| ==> turns[k] == (k % 2 == 0))
    }

    /** The seats as `Start` assigns them: player 1 on the left, and each
        computer player's search object on its own player's side. */
    predicate Seated()
      reads this, player1, player2
    {
      && player1.isPlayer && !player2.isPlayer
      && (player1.isAI && player1.aiComponent != null ==> player1.aiComponent.isPlayer1)
      && (player2.isAI && player2.aiComponent != null ==> !player2.aiComponent.isPlayer1)
    }

    /** A referee over the given board, gems and players, with the fields'
        initial values: player 1 to move first, no game over, nothing
        scheduled. */
    constructor (b: array<Option<Card>>, gs: seq<Pos>, p1: Player, p2: Player)
      requires b.Length == 25 && ValidGems(gs)
      requires p1 != p2 && p1.hand != p2.hand && p1.Valid() && p2.Valid()
      ensures Valid() && turns == []
      ensures board == b && gems == gs && player1 == p1 && player2 == p2
      ensures Status() == Round(true, 0, false, 0, false)
    {
      board := b;
      gems := gs;
      player1 := p1;
      player2 := p2;
      isLeftPlayerTurn := true;
      numAIs := 0;
      ended := false;
      winNum := 0;
      pending := false;
      turns := [];
    }

    /** The player `EnableNextPlayer` notifies next. */
    function CurrentPlayer(): Player
      reads this
    {
      if isLeftPlayerTurn then player1 else player2
    }

    /** `GetOtherPlayerHand`: player 2's hand when asked by player 1,
        otherwise player 1's. */
    function GetOtherPlayerHand(isPlayer1: bool): array<Option<Card>>
      reads this
    {
      if isPlayer1 then player2.hand else player1.hand
    }

    /** `GetOtherPlayerDeck`: player 2's deck when asked by player 1,
        otherwise player 1's. */
    function GetOtherPlayerDeck(isPlayer1: bool): seq<Card>
      reads this, player1, player2
    {
      if isPlayer1 then player2.deck else player1.deck
    }

    /** Once seated, a player asking for the other hand and deck gets its
        opponent's, never its own, and asking with the flag negated gets
        its own deck, which is how the search reads its own deck. */
    lemma OtherIsOpponent(p: Player)
      requires Valid() && Seated() && (p == player1 || p == player2)
      ensures GetOtherPlayerHand(p.isPlayer) != p.hand
      ensures p == player1 ==> GetOtherPlayerHand(p.isPlayer) == player2.hand && GetOtherPlayerDeck(p.isPlayer) == player2.deck
      ensures p == player2 ==> GetOtherPlayerHand(p.isPlayer) == player1.hand && GetOtherPlayerDeck(p.isPlayer) == player1.deck
      ensures GetOtherPlayerDeck(!p.isPlayer) == p.deck
    {
    }

    /** `Start`: read the number of computer players from the settings (0
        when there are none), seat player 1 on the left, make player 2 a
        computer player for one computer player and both for two, deal the
        decks, and schedule the first turn. */
    method Start(settings: GameSettings?, allCards: seq<Card>, swaps1: seq<int>, swaps2: seq<int>)
      requires Valid() && !player1.isAI && !player2.isAI
      requires |allCards| >= DeckSize && SwapIndices(swaps1, DeckSize) && SwapIndices(swaps2, DeckSize)
      modifies this, player1, player2, player1.hand, player2.hand
      ensures Valid() && Seated() && turns == old(turns)
      ensures Status() == old(Status()).(numAIs := if settings != null then settings.aiCount else 0, pending := true)
      ensures player1.isAI <==> numAIs == 2
      ensures player2.isAI <==> numAIs == 1 || numAIs == 2
      ensures HoldsDeal(player1, Dealt(allCards, true, swaps1))
      ensures HoldsDeal(player2, Dealt(allCards, false, swaps2))
      ensures player1.State() == old(player1.State()).(isPlayer := true, isAI := numAIs == 2,
                                                         aiComponent := player1.aiComponent,
                                                         deck := Dealt(allCards, true, swaps1)[3..])
      ensures player2.State() == old(player2.State()).(isPlayer := false, isAI := numAIs == 1 || numAIs == 2,
                                                         aiComponent := player2.aiComponent,
                                                         deck := Dealt(allCards, false, swaps2)[3..])
      ensures numAIs == 2 ==>
                && player1.aiComponent != null && fresh(player1.aiComponent)
                && player1.aiComponent.numGemsOwned == 0 && player1.aiComponent.numGemsOppOwns == 0
      ensures numAIs != 2 ==> player1.aiComponent == old(player1.aiComponent)
      ensures numAIs == 1 || numAIs == 2 ==>
                && player2.aiComponent != null && fresh(player2.aiComponent)
                && player2.aiComponent.numGemsOwned == 0 && player2.aiComponent.numGemsOppOwns == 0
      ensures numAIs != 1 && numAIs != 2 ==> player2.aiComponent == old(player2.aiComponent)
    {
      numAIs := if settings != null then settings.AICount() else 0;
      Seat();
      DistributeDecks(allCards, swaps1, swaps2);
      pending := true;
    }

    /** The seating part of `Start`. */
    method Seat()
      requires Valid() && !player1.isAI && !player2.isAI
      modifies player1, player2
      ensures Valid() && Seated()
      ensures player1.isAI <==> numAIs == 2
      ensures player2.isAI <==> numAIs == 1 || numAIs == 2
      ensures player1.State() == old(player1.State()).(isPlayer := true, isAI := numAIs == 2,
                                                         aiComponent := player1.aiComponent)
      ensures player2.State() == old(player2.State()).(isPlayer := false, isAI := numAIs == 1 || numAIs == 2,
                                                         aiComponent := player2.aiComponent)
      ensures numAIs == 2 ==>
                && player1.aiComponent != null && fresh(player1.aiComponent)
                && player1.aiComponent.numGemsOwned == 0 && player1.aiComponent.numGemsOppOwns == 0
      ensures numAIs != 2 ==> player1.aiComponent == old(player1.aiComponent)
      ensures numAIs == 1 || numAIs == 2 ==>
                && player2.aiComponent != null && fresh(player2.aiComponent)
                && player2.aiComponent.numGemsOwned == 0 && player2.aiComponent.numGemsOppOwns == 0
      ensures numAIs != 1 && numAIs != 2 ==> player2.aiComponent == old(player2.aiComponent)
    {
      player1.isPlayer := true;
      player2.isPlayer := false;
      if numAIs == 1 {
        player2.SetAI();
      } else if numAIs == 2 {
        player2.SetAI();
        player1.SetAI();
      }
    }

    /** Player p holds the dealt deck d: its first three cards in the hand,
        the rest as the deck. */
    ghost predicate HoldsDeal(p: Player, d: seq<Card>)
      reads p, p.hand
      requires |d| >= 3
    {
      p.hand[..] == [Some(d[0]), Some(d[1]), Some(d[2])] && p.deck == d[3..]
    }

    /** The copying loop of `DistributeDecks`: two new lists holding the
        first sixteen cards of the catalogue, marked for player 1 and for
        player 2. */
    static method CopyDecks(allCards: seq<Card>) returns (deck1: array<Card>, deck2: array<Card>)
      requires |allCards| >= DeckSize
      ensures fresh(deck1) && fresh(deck2) && deck1 != deck2
      ensures deck1[..] == Copies(allCards, true) && deck2[..] == Copies(allCards, false)
    {
      deck1 := new Card[DeckSize];
      deck2 := new Card[DeckSize];
      for index := 0 to DeckSize
        invariant forall k :: 0 <= k < index ==> deck1[k] == allCards[k].(isPlayerCard := true)
        invariant forall k :: 0 <= k < index ==> deck2[k] == allCards[k].(isPlayerCard := false)
      {
        deck1[index] := allCards[index].(isPlayerCard := true);
        deck2[index] := allCards[index].(isPlayerCard := false);
      }
    }

    /** `DistributeDecks`: each player gets a shuffled copy of the first
        sixteen cards of the catalogue, marked as theirs. */
    method DistributeDecks(allCards: seq<Card>, swaps1: seq<int>, swaps2: seq<int>)
      requires Valid()
      requires |allCards| >= DeckSize && SwapIndices(swaps1, DeckSize) && SwapIndices(swaps2, DeckSize)
      modifies player1, player2, player1.hand, player2.hand
      ensures Valid()
      ensures player1.State() == old(player1.State()).(deck := Dealt(allCards, true, swaps1)[3..])
      ensures player2.State() == old(player2.State()).(deck := Dealt(allCards, false, swaps2)[3..])
      ensures HoldsDeal(player1, Dealt(allCards, true, swaps1))
      ensures HoldsDeal(player2, Dealt(allCards, false, swaps2))
    {
      var deck1, deck2 := CopyDecks(allCards);
      Shuffle(deck1, swaps1);
      Shuffle(deck2, swaps2);
      ShufflePermutes(Copies(allCards, true), swaps1, 0);
      ShufflePermutes(Copies(allCards, false), swaps2, 0);
      player1.GiveDeck(deck1[..]);
      player2.GiveDeck(deck2[..]);
    }

    /** A computer player about to move has a full hand, a deck to refill
        it from, and an opponent with a full hand. */
    ghost predicate Ready()
      reads this, player1, player2, player1.hand, player2.hand
    {
      var p := CurrentPlayer();
      p.isAI ==> Full(p.hand[..]) && |p.deck| > 0 && Full(GetOtherPlayerHand(p.isPlayer)[..])
    }

    /** The move the player whose turn it is hands over when notified: none
        for a human player (its move comes later, from the controls); for a
        computer player the slot, cell and push its search object decides
        on, given the opponent's hand and deck for its side, and none when
        that answer names no slot. */
    ghost function NextSubmission(): Option<Submission>
      requires Valid() && Seated() && Ready()
      reads this, player1, player2, player1.hand, player2.hand, board
    {
      var p := CurrentPlayer();
      if !p.isAI then None
      else
        var local := p.aiComponent.Decision(p.hand[..], GetOtherPlayerHand(p.isPlayer)[..], board[..], gems,
                                            p.deck, GetOtherPlayerDeck(p.isPlayer));
        if 0 <= local.cardIndex < 3
        then Some(Submission(p.hand[local.cardIndex].value, local.rowNum, local.colNum, local.dir))
        else None
    }

    /** The fields and hand the player whose turn it is has once notified:
        a human player gets the controls back, choosing from the hand with
        the cursor at the centre cell; a computer player that answers with
        a slot refills it with the top card of its deck, which loses that
        card, and leaves its turn; one that names no slot keeps everything. */
    ghost function NotifiedCurrent(): (Fields, Hand)
      requires Valid() && Seated() && Ready()
      reads this, player1, player2, player1.hand, player2.hand, board
    {
      var p := CurrentPlayer();
      if !p.isAI then
        (p.State().(control := Control(true, true, false, 0, Cursor(2, 2, p.control.cursor.pushDir, false))), p.hand[..])
      else
        var local := p.aiComponent.Decision(p.hand[..], GetOtherPlayerHand(p.isPlayer)[..], board[..], gems,
                                            p.deck, GetOtherPlayerDeck(p.isPlayer));
        if 0 <= local.cardIndex < 3
        then (p.State().(deck := p.deck[1..], control := p.control.(isTurn := false)),
              p.hand[..][local.cardIndex := Some(p.deck[0])])
        else (p.State(), p.hand[..])
    }

    /** `EnableNextPlayer`: notify the player whose turn it is, giving it the
        opponent's hand and deck as `GetOtherPlayerHand` and
        `GetOtherPlayerDeck` answer for its side; a computer player's move
        is passed on to `NotifyOfTurn` at once. Then the turn passes to the
        other player. */
    method EnableNextPlayer() returns (s: Option<Submission>)
      requires Valid() && Seated() && Ready()
      modifies this, board, player1, player2, player1.hand, player2.hand
      ensures Valid() && Seated()
      ensures turns == old(turns) + [old(isLeftPlayerTurn)]
      ensures isLeftPlayerTurn == !old(isLeftPlayerTurn)
      ensures s.None? ==> board[..] == old(board[..])
      ensures s.Some? ==> board[..] == AfterMove(old(board[..]), gems, s.value.card, s.value.row, s.value.column, s.value.push)
      ensures s == old(NextSubmission())
      ensures var n := old(NotifiedCurrent());
              && player1.hand[..] == (if old(isLeftPlayerTurn) then n.1 else old(player1.hand[..]))
              && player2.hand[..] == (if old(isLeftPlayerTurn) then old(player2.hand[..]) else n.1)
      ensures var n := old(NotifiedCurrent());
              var q1 := if old(isLeftPlayerTurn) then n.0 else old(player1.State());
              var q2 := if old(isLeftPlayerTurn) then old(player2.State()) else n.0;
              if s.Some? && IsValidMove(old(board[..]), gems, s.value.card, s.value.row, s.value.column, s.value.push)
              then
                var scores := GetPlayerScores(board[..], gems);
                && player1.State() == q1.(gemCounter := scores.x)
                && player2.State() == q2.(gemCounter := scores.y)
                && Status() == if IsGameOver(board[..], gems)
                               then old(Status()).(isLeftPlayerTurn := !old(isLeftPlayerTurn), pending := false,
                                                   ended := true, winNum := Winner(scores.x, scores.y))
                               else old(Status()).(isLeftPlayerTurn := !old(isLeftPlayerTurn), pending := true)
              else
                && player1.State() == q1 && player2.State() == q2
                && Status() == old(Status()).(isLeftPlayerTurn := !old(isLeftPlayerTurn), pending := false)
    {
      s := NotifyCurrent();
      PlayAndPass(s);
    }

    /** The rest of `EnableNextPlayer`: the scheduled call is used up, a move
        handed over is passed on to `NotifyOfTurn`, then the turn passes to
        the other player. */
    method PlayAndPass(s: Option<Submission>)
      requires Valid()
      modifies this, board, player1, player2
      ensures Valid() && turns == old(turns) + [old(isLeftPlayerTurn)]
      ensures s.None? ==> board[..] == old(board[..])
      ensures s.Some? ==> board[..] == AfterMove(old(board[..]), gems, s.value.card, s.value.row, s.value.column, s.value.push)
      ensures if s.Some? && IsValidMove(old(board[..]), gems, s.value.card, s.value.row, s.value.column, s.value.push)
              then
                var scores := GetPlayerScores(board[..], gems);
                && player1.State() == old(player1.State()).(gemCounter := scores.x)
                && player2.State() == old(player2.State()).(gemCounter := scores.y)
                && Status() == if IsGameOver(board[..], gems)
                               then old(Status()).(isLeftPlayerTurn := !old(isLeftPlayerTurn), pending := false,
                                                   ended := true, winNum := Winner(scores.x, scores.y))
                               else old(Status()).(isLeftPlayerTurn := !old(isLeftPlayerTurn), pending := true)
              else
                && player1.State() == old(player1.State()) && player2.State() == old(player2.State())
                && Status() == old(Status()).(isLeftPlayerTurn := !old(isLeftPlayerTurn), pending := false)
    {
      pending := false;
      if s.Some? {
        NotifyOfTurn(s.value.card, s.value.row, s.value.column, s.value.push);
      }
      PassTurn();
    }

    /** The last step of `EnableNextPlayer`: the turn passes to the other
        player. */
    method PassTurn()
      requires Valid()
      modifies this
      ensures Valid() && turns == old(turns) + [old(isLeftPlayerTurn)]
      ensures Status() == old(Status()).(isLeftPlayerTurn := !old(isLeftPlayerTurn))
    {
      turns := turns + [isLeftPlayerTurn];
      isLeftPlayerTurn := !isLeftPlayerTurn;
    }

    /** The notification part of `EnableNextPlayer`. */
    method NotifyCurrent() returns (s: Option<Submission>)
      requires Valid() && Seated() && Ready()
      modifies player1, player2, player1.hand, player2.hand
      ensures Valid() && Seated()
      ensures s == old(NextSubmission())
      ensures var p := CurrentPlayer();
              p == old(CurrentPlayer()) && (p.State(), p.hand[..]) == old(NotifiedCurrent())
      ensures var other := if isLeftPlayerTurn then player2 else player1;
              other.State() == old(other.State()) && other.hand[..] == old(other.hand[..])
    {
      var current := CurrentPlayer();
      var side := current.isPlayer;
      var theirHand := GetOtherPlayerHand(side);
      var oppDeck := GetOtherPlayerDeck(side);
      OtherIsOpponent(current);
      s := current.NotifyIsTurn(board, gems, theirHand[..], oppDeck);
    }

    /** `UpdatePlayerScore`: give or take gems one at a time until the
        player's counter shows `score`; nothing else about the player
        changes. */
    method UpdatePlayerScore(p: Player, score: int)
      requires p.Valid() && 0 <= score <= 3
      modifies p
      ensures p.Valid()
      ensures p.State() == old(p.State()).(gemCounter := score)
    {
      if score > p.gemCounter {
        var times := score - p.gemCounter;
        for i := 0 to times
          invariant p.Valid()
          invariant p.State() == old(p.State()).(gemCounter := old(p.gemCounter) + i)
        {
          p.GiveGem();
        }
      } else {
        var times := p.gemCounter - score;
        for i := 0 to times
          invariant p.Valid()
          invariant p.State() == old(p.State()).(gemCounter := old(p.gemCounter) - i)
        {
          p.TakeGem();
        }
      }
    }

    /** The scores after a move: what the counters are set to. */
    method SyncScores()
      requires Valid()
      modifies player1, player2
      ensures Valid()
      ensures player1.State() == old(player1.State()).(gemCounter := GetPlayerScores(board[..], gems).x)
      ensures player2.State() == old(player2.State()).(gemCounter := GetPlayerScores(board[..], gems).y)
    {
      var scores := GetPlayerScores(board[..], gems);
      UpdatePlayerScore(player1, scores.x);
      UpdatePlayerScore(player2, scores.y);
    }

    /** `NotifyOfTurn`: a move that breaks the rules is ignored. A legal one
        is carried out, both gem counters are set to the new scores, and
        then either the game ends, naming the player with more gems (or a
        draw), or the next player's turn is scheduled. */
    method NotifyOfTurn(played: Card, row: int, column: int, pushDir: Direction)
      requires Valid()
      modifies this, board, player1, player2
      ensures Valid() && turns == old(turns)
      ensures board[..] == AfterMove(old(board[..]), gems, played, row, column, pushDir)
      ensures !IsValidMove(old(board[..]), gems, played, row, column, pushDir) ==>
                && player1.State() == old(player1.State()) && player2.State() == old(player2.State())
                && Status() == old(Status())
      ensures IsValidMove(old(board[..]), gems, played, row, column, pushDir) ==>
                var scores := GetPlayerScores(board[..], gems);
                && player1.State() == old(player1.State()).(gemCounter := scores.x)
                && player2.State() == old(player2.State()).(gemCounter := scores.y)
                && Status() == if IsGameOver(board[..], gems)
                               then old(Status()).(ended := true, winNum := Winner(scores.x, scores.y))
                               else old(Status()).(pending := true)
    {
      if IsValidMove(board[..], gems, played, row, column, pushDir) {
        TakeMove(board, gems, played, row, column, pushDir);
        SyncScores();
        Conclude();
      }
    }

    /** The end of `NotifyOfTurn`: on a settled board the end-of-game screen
        names the player with more gems, otherwise the next turn is
        scheduled. */
    method Conclude()
      requires board.Length == 25
      modifies this
      ensures turns == old(turns)
      ensures Status() == if IsGameOver(board[..], gems)
                          then old(Status()).(ended := true, winNum := Winner(player1.gemCounter, player2.gemCounter))
                          else old(Status()).(pending := true)
    {
      if IsGameOver(board[..], gems) {
        ended := true;
        winNum := Winner(player1.gemCounter, player2.gemCounter);
      } else {
        pending := true;
      }
    }
  }
}
