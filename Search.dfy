/** The expectiminimax search of the computer player, as functions: what
    `TryMinimax` computes for each of its four node kinds, with the α-β
    cutoffs exactly as the game's search applies them (including the cutoff of a
    chance node on its running partial sum). */
module Search {
  import opened Optional
  import opened Directions
  import opened CardScript
  import opened BoardRules
  import opened MoveGeneration

  datatype NodeType = MaxNode | MinNode | ChanceMax | ChanceMin

  /** `float.MinValue` and `float.MaxValue`, the initial α, β and best utilities. */
  const MinValue: real := -340282346638528859811704183484516925440.0
  const MaxValue: real := 340282346638528859811704183484516925440.0

  /** The search depth `ConsiderTurn` starts from; a MAX node at this depth
      answers the opponent's current full hand directly with a MIN node. */
  const StartDepth: nat := 5

  /** What a search reads besides its arguments: which player it plays for,
      the gem positions, its own deck and the opponent's deck. */
  datatype Env = Env(isPlayer1: bool, gems: seq<Pos>, ownDeck: seq<Card>, oppDeck: seq<Card>)

  function Max(a: real, b: real): real
  {
    if a > b then a else b
  }

  function Min(a: real, b: real): real
  {
    if a < b then a else b
  }

  /** `Utility`: own gems minus the opponent's (x - y for player 1, y - x
      for player 2). */
  function Utility(isPlayer1: bool, g: Grid, gems: seq<Pos>): (u: int)
    requires WellFormed(g) && GemsInGrid(gems)
    ensures -|gems| <= u <= |gems|
    ensures u == (if isPlayer1 then GetPlayerScores(g, gems).x - GetPlayerScores(g, gems).y
                  else GetPlayerScores(g, gems).y - GetPlayerScores(g, gems).x)
  {
    var scores := GetPlayerScores(g, gems);
    if isPlayer1 then scores.x - scores.y else scores.y - scores.x
  }

  /** The two players' utilities of a board are opposite. */
  lemma UtilityZeroSum(g: Grid, gems: seq<Pos>)
    requires WellFormed(g) && GemsInGrid(gems)
    ensures Utility(true, g, gems) == -Utility(false, g, gems)
  {
  }

  /** `IsTerminal`: the board is full. */
  function IsTerminal(g: Grid, gems: seq<Pos>): bool
    requires WellFormed(g)
  {
    IsGameOver(g, gems)
  }

  /** How often card c occurs in the deck. */
  function Count(deck: seq<Card>, c: Card): (n: nat)
    ensures n <= |deck|
    ensures c !in deck ==> n == 0
  {
    if deck == [] then 0 else (if deck[0] == c then 1 else 0) + Count(deck[1..], c)
  }

  /** `Probability`: the share of the deck that is card c. */
  function Probability(deck: seq<Card>, c: Card): (p: real)
    requires |deck| > 0
    ensures 0.0 <= p <= 1.0
  {
    var n, d := Count(deck, c) as real, |deck| as real;
    FractionAtMostOne(n, d);
    n / d
  }

  lemma FractionAtMostOne(n: real, d: real)
    requires 0.0 <= n <= d && 0.0 < d
    ensures 0.0 <= n / d <= 1.0
  {
    var q := n / d;
    assert q * d == n;
  }

  predicate DistinctCards(deck: seq<Card>)
  {
    forall p, q :: 0 <= p < q < |deck| ==> deck[p] != deck[q]
  }

  lemma {:induction false} CountOfDistinct(deck: seq<Card>, k: nat)
    requires DistinctCards(deck) && k < |deck|
    ensures Count(deck, deck[k]) == 1
    decreases |deck|
  {
    if k == 0 {
      assert deck[0] !in deck[1..] by {
        forall q | 0 <= q < |deck[1..]| ensures deck[1..][q] != deck[0] {
          assert deck[1..][q] == deck[q + 1];
        }
      }
    } else {
      assert deck[1..][k - 1] == deck[k];
      assert DistinctCards(deck[1..]) by {
        forall p, q | 0 <= p < q < |deck[1..]| ensures deck[1..][p] != deck[1..][q] {
          assert deck[1..][p] == deck[p + 1] && deck[1..][q] == deck[q + 1];
        }
      }
      CountOfDistinct(deck[1..], k - 1);
    }
  }

  /** In a deck of distinct cards every card is drawn with probability 1/|deck|. */
  lemma DistinctDeckWeights(deck: seq<Card>, k: nat)
    requires DistinctCards(deck) && k < |deck|
    ensures Probability(deck, deck[k]) == 1.0 / |deck| as real
  {
    CountOfDistinct(deck, k);
  }

  // ---------------------------------------------------------------------------
  // Hands during the search

  /** `Array.FindIndex(hand, elem => elem == null)` from slot i on: the first
      empty slot, or -1. */
  function FirstHole(h: Hand, i: nat): (r: int)
    ensures r == -1 || (i <= r < |h| && h[r].None?)
    ensures forall k :: i <= k < |h| && (r == -1 || k < r) ==> h[k].Some?
    decreases |h| - i
  {
    if i >= |h| then -1
    else if h[i].None? then i
    else FirstHole(h, i + 1)
  }

  /** Exactly one empty slot: a hand after its card was played. */
  predicate OneHole(h: Hand)
  {
    var k := FirstHole(h, 0);
    k >= 0 && forall m :: 0 <= m < |h| && m != k ==> h[m].Some?
  }

  /** Playing a card from a full hand leaves a hand with one hole, at the played slot. */
  lemma PlayedSlot(h: Hand, c: int)
    requires Full(h) && 0 <= c < |h|
    ensures OneHole(h[c := None]) && FirstHole(h[c := None], 0) == c
  {
    var h' := h[c := None];
    var r := FirstHole(h', 0);
    assert h'[c].None?;
    assert r != -1;
    assert h'[r].None?;
  }

  /** Filling the hole of a hand makes it full again. */
  lemma FilledHole(h: Hand, card: Card)
    requires OneHole(h)
    ensures Full(h[FirstHole(h, 0) := Some(card)])
  {
  }

  /** The hands that each node kind receives in the game (the player's hands
      are full when `ConsiderTurn` is called): a MAX node moves from a full
      hand; a MIN node moves from the opponent's full hand; a chance node
      refills the one hole of the hand it draws for. */
  predicate Shape(nt: NodeType, hand: Hand, their: Hand, depth: nat)
  {
    match nt
    case MaxNode => Full(hand) && (if depth == StartDepth then Full(their) else OneHole(their))
    case MinNode => Full(their) && OneHole(hand)
    case ChanceMax => OneHole(hand) && OneHole(their)
    case ChanceMin => OneHole(hand) && OneHole(their)
  }

  /** A draw at a CHANCEMAX node fills the player's hole and hands the
      search to a MAX node one level down. */
  lemma DrawnShapeMax(hand: Hand, their: Hand, depth: nat, card: Card)
    requires Shape(ChanceMax, hand, their, depth) && 1 <= depth <= StartDepth
    ensures Full(hand[FirstHole(hand, 0) := Some(card)])
    ensures Shape(MaxNode, hand[FirstHole(hand, 0) := Some(card)], their, depth - 1)
  {
    FilledHole(hand, card);
  }

  /** A draw at a CHANCEMIN node fills the opponent's hole and hands the
      search to a MIN node one level down. */
  lemma DrawnShapeMin(hand: Hand, their: Hand, depth: nat, card: Card)
    requires Shape(ChanceMin, hand, their, depth) && 1 <= depth
    ensures Full(their[FirstHole(their, 0) := Some(card)])
    ensures Shape(MinNode, hand, their[FirstHole(their, 0) := Some(card)], depth - 1)
  {
    FilledHole(their, card);
  }

  predicate Ready(env: Env, g: Grid, depth: nat)
  {
    WellFormed(g) && GemsInGrid(env.gems) && depth <= StartDepth
  }

  /** The result of a terminal node (full board or depth 0). */
  function Leaf(env: Env, g: Grid): Response
    requires WellFormed(g) && GemsInGrid(env.gems)
  {
    Response(-1, -1, -1, NoPush, Utility(env.isPlayer1, g, env.gems) as real)
  }

  /** The move m recorded with the utility u. */
  function Respond(m: Response, u: real): Response
  {
    Response(m.cardIndex, m.rowNum, m.colNum, m.dir, u)
  }

  /** The initial best move of a MAX (MIN) node: no card and the lowest (highest) utility. */
  const MaxStart := Response(-1, 0, 0, NoPush, MinValue)
  const MinStart := Response(-1, 0, 0, NoPush, MaxValue)

  // ---------------------------------------------------------------------------
  // The search

  /** `TryMinimax`. */
  function Search(env: Env, nt: NodeType, hand: Hand, their: Hand, depth: nat, alpha: real, beta: real, g: Grid): Response
    requires Ready(env, g, depth) && Shape(nt, hand, their, depth)
    decreases depth, 1, 0
  {
    if IsTerminal(g, env.gems) || depth == 0 then Leaf(env, g)
    else
      match nt
      case MaxNode => MaxLoop(env, hand, their, depth, g, FindAllMoves(hand, g, env.gems), 0, alpha, beta, MaxStart)
      case MinNode => MinLoop(env, hand, their, depth, g, FindAllMoves(their, g, env.gems), 0, alpha, beta, MinStart)
      case ChanceMax => Response(-1, 0, 0, NoPush, ChanceLoop(env, true, hand, their, depth, g, 0, alpha, beta, 0.0))
      case ChanceMin => Response(-1, 0, 0, NoPush, ChanceLoop(env, false, hand, their, depth, g, 0, alpha, beta, 0.0))
  }

  predicate MovesOf(hand: Hand, moves: seq<Response>)
  {
    forall k :: 0 <= k < |moves| ==> 0 <= moves[k].cardIndex < |hand|
  }

  /** The child of a MAX node for move m: the move applied to the board, the
      played slot emptied, a MIN node below the start depth, a CHANCEMIN node
      further down. */
  function MaxChild(env: Env, hand: Hand, their: Hand, depth: nat, g: Grid, m: Response, alpha: real, beta: real): Response
    requires Ready(env, g, depth) && 1 <= depth && Shape(MaxNode, hand, their, depth)
    requires 0 <= m.cardIndex < |hand|
    decreases depth, 0, 0
  {
    var child := AfterMove(g, env.gems, hand[m.cardIndex].value, m.rowNum, m.colNum, m.dir);
    PlayedSlot(hand, m.cardIndex);
    Search(env, if depth == StartDepth then MinNode else ChanceMin, hand[m.cardIndex := None], their, depth - 1, alpha, beta, child)
  }

  /** The loop of a MAX node from move i on, with the current α and best move. */
  function MaxLoop(env: Env, hand: Hand, their: Hand, depth: nat, g: Grid, moves: seq<Response>, i: nat,
                   alpha: real, beta: real, best: Response): Response
    requires Ready(env, g, depth) && 1 <= depth && Shape(MaxNode, hand, their, depth) && MovesOf(hand, moves)
    decreases depth, 0, |moves| - i
  {
    if i >= |moves| then best
    else
      var u := MaxChild(env, hand, their, depth, g, moves[i], alpha, beta).utility;
      var best' := if u > best.utility then Respond(moves[i], u) else best;
      var alpha' := Max(u, alpha);
      if alpha' >= beta then best' else MaxLoop(env, hand, their, depth, g, moves, i + 1, alpha', beta, best')
  }

  /** The child of a MIN node for the opponent's move m: a CHANCEMAX node. */
  function MinChild(env: Env, hand: Hand, their: Hand, depth: nat, g: Grid, m: Response, alpha: real, beta: real): Response
    requires Ready(env, g, depth) && 1 <= depth && Shape(MinNode, hand, their, depth)
    requires 0 <= m.cardIndex < |their|
    decreases depth, 0, 0
  {
    var child := AfterMove(g, env.gems, their[m.cardIndex].value, m.rowNum, m.colNum, m.dir);
    PlayedSlot(their, m.cardIndex);
    Search(env, ChanceMax, hand, their[m.cardIndex := None], depth - 1, alpha, beta, child)
  }

  /** The loop of a MIN node from move i on, with the current β and best move. */
  function MinLoop(env: Env, hand: Hand, their: Hand, depth: nat, g: Grid, moves: seq<Response>, i: nat,
                   alpha: real, beta: real, best: Response): Response
    requires Ready(env, g, depth) && 1 <= depth && Shape(MinNode, hand, their, depth) && MovesOf(their, moves)
    decreases depth, 0, |moves| - i
  {
    if i >= |moves| then best
    else
      var u := MinChild(env, hand, their, depth, g, moves[i], alpha, beta).utility;
      var best' := if u < best.utility then Respond(moves[i], u) else best;
      var beta' := Min(u, beta);
      if alpha >= beta' then best' else MinLoop(env, hand, their, depth, g, moves, i + 1, alpha, beta', best')
  }

  /** The deck a chance node draws from: the searching player's own deck for
      CHANCEMAX, the opponent's for CHANCEMIN. */
  function DeckOf(env: Env, isMax: bool): seq<Card>
  {
    if isMax then env.ownDeck else env.oppDeck
  }

  /** The child of a chance node for the drawn card c: the hole of the
      drawing hand filled with c, then a MAX (MIN) node on the same board. */
  function ChanceChild(env: Env, isMax: bool, hand: Hand, their: Hand, depth: nat, g: Grid, c: Card,
                       alpha: real, beta: real): Response
    requires Ready(env, g, depth) && 1 <= depth && Shape(if isMax then ChanceMax else ChanceMin, hand, their, depth)
    decreases depth, 0, 0
  {
    if isMax then
      FilledHole(hand, c);
      Search(env, MaxNode, hand[FirstHole(hand, 0) := Some(c)], their, depth - 1, alpha, beta, g)
    else
      FilledHole(their, c);
      Search(env, MinNode, hand, their[FirstHole(their, 0) := Some(c)], depth - 1, alpha, beta, g)
  }

  /** The loop of a chance node from deck card i on, with the current α, β
      and running expectation. */
  function ChanceLoop(env: Env, isMax: bool, hand: Hand, their: Hand, depth: nat, g: Grid, i: nat,
                      alpha: real, beta: real, acc: real): real
    requires Ready(env, g, depth) && 1 <= depth && Shape(if isMax then ChanceMax else ChanceMin, hand, their, depth)
    decreases depth, 0, |DeckOf(env, isMax)| - i
  {
    var deck := DeckOf(env, isMax);
    if i >= |deck| then acc
    else
      var u := ChanceChild(env, isMax, hand, their, depth, g, deck[i], alpha, beta).utility;
      var acc' := acc + Weigh(u, deck, i);
      var alpha', beta' := NextAlpha(isMax, acc', alpha), NextBeta(isMax, acc', beta);
      if alpha' >= beta' then acc' else ChanceLoop(env, isMax, hand, their, depth, g, i + 1, alpha', beta', acc')
  }

  /** The utility u of drawing deck[i], weighted by the probability of that card. */
  function Weigh(u: real, deck: seq<Card>, i: nat): real
    requires i < |deck|
  {
    u * Probability(deck, deck[i])
  }

  /** The window update after a draw: a CHANCEMAX node raises α to its
      partial expectation, a CHANCEMIN node lowers β to it. */
  function NextAlpha(isMax: bool, acc: real, alpha: real): real
  {
    if isMax then Max(acc, alpha) else alpha
  }

  function NextBeta(isMax: bool, acc: real, beta: real): real
  {
    if isMax then beta else Min(acc, beta)
  }

  // ---------------------------------------------------------------------------
  // What a node computes

  /** A terminal node (full board) or a node at depth 0 answers with no move
      and the utility of its board, which lies within ±(number of gems). */
  lemma LeafResult(env: Env, nt: NodeType, hand: Hand, their: Hand, depth: nat, alpha: real, beta: real, g: Grid)
    requires Ready(env, g, depth) && Shape(nt, hand, their, depth)
    requires IsTerminal(g, env.gems) || depth == 0
    ensures var r := Search(env, nt, hand, their, depth, alpha, beta, g);
            && r.cardIndex == -1 && r.rowNum == -1 && r.colNum == -1 && r.dir == NoPush
            && -(|env.gems| as real) <= r.utility <= |env.gems| as real
  {
    var u := Utility(env.isPlayer1, g, env.gems);
    assert -|env.gems| <= u <= |env.gems|;
  }

  /** The utilities of the children a MAX node's loop evaluates from move i
      on, up to and including the one that triggers the cutoff. */
  function MaxTrace(env: Env, hand: Hand, their: Hand, depth: nat, g: Grid, moves: seq<Response>, i: nat,
                    alpha: real, beta: real): (t: seq<real>)
    requires Ready(env, g, depth) && 1 <= depth && Shape(MaxNode, hand, their, depth) && MovesOf(hand, moves)
    ensures i <= |moves| ==> |t| <= |moves| - i
    ensures i < |moves| ==> 1 <= |t|
    decreases |moves| - i
  {
    if i >= |moves| then []
    else
      var u := MaxChild(env, hand, their, depth, g, moves[i], alpha, beta).utility;
      if Max(u, alpha) >= beta then [u]
      else [u] + MaxTrace(env, hand, their, depth, g, moves, i + 1, Max(u, alpha), beta)
  }

  /** The largest of a and the entries of t. */
  function Top(t: seq<real>, a: real): (m: real)
    ensures a <= m && forall k :: 0 <= k < |t| ==> t[k] <= m
    ensures m == a || exists k :: 0 <= k < |t| && m == t[k]
  {
    if t == [] then a else Top(t[1..], Max(t[0], a))
  }

  /** The smallest of b and the entries of t. */
  function Bottom(t: seq<real>, b: real): (m: real)
    ensures m <= b && forall k :: 0 <= k < |t| ==> m <= t[k]
    ensures m == b || exists k :: 0 <= k < |t| && m == t[k]
  {
    if t == [] then b else Bottom(t[1..], Min(t[0], b))
  }

  /** Entry k of t is the first one of greatest value, and it beats floor. */
  predicate FirstBest(t: seq<real>, k: int, floor: real)
  {
    && 0 <= k < |t| && floor < t[k]
    && (forall m :: 0 <= m < k ==> t[m] < t[k])
    && (forall m :: 0 <= m < |t| ==> t[m] <= t[k])
  }

  /** No entry of t beats floor. */
  predicate NoneAbove(t: seq<real>, floor: real)
  {
    forall m :: 0 <= m < |t| ==> t[m] <= floor
  }

  /** Putting u in front of t when u beats floor and everything in t. */
  lemma FirstBestHead(u: real, t: seq<real>, floor: real)
    requires u > floor && NoneAbove(t, u)
    ensures FirstBest([u] + t, 0, floor)
  {
    forall m | 1 <= m < |[u] + t| ensures ([u] + t)[m] == t[m - 1] { }
  }

  /** Putting u in front of t when neither beats floor. */
  lemma NoneAboveCons(u: real, t: seq<real>, floor: real)
    requires u <= floor && NoneAbove(t, floor)
    ensures NoneAbove([u] + t, floor)
  {
    forall m | 1 <= m < |[u] + t| ensures ([u] + t)[m] == t[m - 1] { }
  }

  /** Putting u in front of t moves the first best one place back. */
  lemma FirstBestShift(u: real, t: seq<real>, floor: real, k: int)
    requires FirstBest(t, k, Max(u, floor))
    ensures FirstBest([u] + t, k + 1, floor)
  {
    forall m | 1 <= m < |[u] + t| ensures ([u] + t)[m] == t[m - 1] { }
  }

  /** The best-move update of a MAX node applied to the utilities t of the
      moves from i on, in order: a strictly greater utility takes over. */
  function PickMax(moves: seq<Response>, i: nat, t: seq<real>, best: Response): Response
    requires i + |t| <= |moves|
    decreases |t|
  {
    if t == [] then best
    else PickMax(moves, i + 1, t[1..], if t[0] > best.utility then Respond(moves[i], t[0]) else best)
  }

  /** `PickMax` keeps the best so far unless some utility beats it, and then
      answers the first move of greatest utility. */
  lemma PickMaxFirstBest(moves: seq<Response>, i: nat, t: seq<real>, best: Response)
    requires i + |t| <= |moves|
    ensures var r := PickMax(moves, i, t, best);
            || (r == best && NoneAbove(t, best.utility))
            || (exists k :: FirstBest(t, k, best.utility) && r == Respond(moves[i + k], t[k]))
  {
    var k := PickMaxIndex(moves, i, t, best);
  }

  /** The index the update settles on, or -1 when it keeps `best`. */
  lemma {:induction false} PickMaxIndex(moves: seq<Response>, i: nat, t: seq<real>, best: Response) returns (k: int)
    requires i + |t| <= |moves|
    ensures var r := PickMax(moves, i, t, best);
            if k < 0 then r == best && NoneAbove(t, best.utility)
            else FirstBest(t, k, best.utility) && r == Respond(moves[i + k], t[k])
    decreases |t|
  {
    k := -1;
    if t != [] {
      var u, t' := t[0], t[1..];
      assert t == [u] + t';
      var best' := if u > best.utility then Respond(moves[i], u) else best;
      assert best'.utility == Max(u, best.utility);
      assert PickMax(moves, i, t, best) == PickMax(moves, i + 1, t', best');
      var r := PickMax(moves, i + 1, t', best');
      var k' := PickMaxIndex(moves, i + 1, t', best');
      if k' >= 0 {
        PickMaxLater(moves, i, u, t', best.utility, k', r);
        k := k' + 1;
      } else if u > best.utility {
        FirstBestHead(u, t', best.utility);
        k := 0;
      } else {
        NoneAboveCons(u, t', best.utility);
      }
    }
  }

  /** The first best of the tail, beating the head, is the first best of the whole. */
  lemma PickMaxLater(moves: seq<Response>, i: nat, u: real, t: seq<real>, floor: real, k: int, r: Response)
    requires i + 1 + |t| <= |moves|
    requires FirstBest(t, k, Max(u, floor)) && r == Respond(moves[i + 1 + k], t[k])
    ensures FirstBest([u] + t, k + 1, floor) && r == Respond(moves[i + k + 1], ([u] + t)[k + 1])
  {
    FirstBestShift(u, t, floor, k);
    assert ([u] + t)[k + 1] == t[k];
  }

  /** The MAX loop is `PickMax` over the utilities it evaluates. */
  lemma {:induction false} MaxLoopIsPickMax(env: Env, hand: Hand, their: Hand, depth: nat, g: Grid, moves: seq<Response>,
                                            i: nat, alpha: real, beta: real, best: Response)
    requires Ready(env, g, depth) && 1 <= depth && Shape(MaxNode, hand, their, depth) && MovesOf(hand, moves)
    requires i <= |moves|
    ensures MaxLoop(env, hand, their, depth, g, moves, i, alpha, beta, best)
            == PickMax(moves, i, MaxTrace(env, hand, their, depth, g, moves, i, alpha, beta), best)
    decreases |moves| - i
  {
    if i < |moves| {
      var t := MaxTrace(env, hand, their, depth, g, moves, i, alpha, beta);
      var u := MaxChild(env, hand, their, depth, g, moves[i], alpha, beta).utility;
      var best' := if u > best.utility then Respond(moves[i], u) else best;
      if Max(u, alpha) < beta {
        MaxLoopIsPickMax(env, hand, their, depth, g, moves, i + 1, Max(u, alpha), beta, best');
        assert t[1..] == MaxTrace(env, hand, their, depth, g, moves, i + 1, Max(u, alpha), beta);
      } else {
        assert t[1..] == [];
      }
    }
  }

  /** The MAX loop returns the first child of greatest utility, provided that
      utility beats the best so far (initially `float.MinValue`, strict
      comparison); otherwise the best so far. */
  lemma MaxLoopPicksFirstBest(env: Env, hand: Hand, their: Hand, depth: nat, g: Grid, moves: seq<Response>,
                              i: nat, alpha: real, beta: real, best: Response)
    requires Ready(env, g, depth) && 1 <= depth && Shape(MaxNode, hand, their, depth) && MovesOf(hand, moves)
    requires i <= |moves|
    ensures var t := MaxTrace(env, hand, their, depth, g, moves, i, alpha, beta);
            var r := MaxLoop(env, hand, their, depth, g, moves, i, alpha, beta, best);
            || (r == best && NoneAbove(t, best.utility))
            || (exists k :: FirstBest(t, k, best.utility) && r == Respond(moves[i + k], t[k]))
  {
    MaxLoopIsPickMax(env, hand, their, depth, g, moves, i, alpha, beta, best);
    PickMaxFirstBest(moves, i, MaxTrace(env, hand, their, depth, g, moves, i, alpha, beta), best);
  }

  /** The MAX loop stops before the last move exactly when the running α
      (the largest of α and the utilities seen) reaches β; it never stops
      earlier than that. */
  lemma {:induction false} MaxTraceCutoff(env: Env, hand: Hand, their: Hand, depth: nat, g: Grid, moves: seq<Response>,
                                          i: nat, alpha: real, beta: real)
    requires Ready(env, g, depth) && 1 <= depth && Shape(MaxNode, hand, their, depth) && MovesOf(hand, moves)
    requires i <= |moves|
    ensures var t := MaxTrace(env, hand, their, depth, g, moves, i, alpha, beta);
            && (|t| < |moves| - i ==> Top(t, alpha) >= beta)
            && (forall k :: 0 < k < |t| ==> Top(t[..k], alpha) < beta)
    decreases |moves| - i
  {
    if i < |moves| {
      var t := MaxTrace(env, hand, their, depth, g, moves, i, alpha, beta);
      var u := t[0];
      if Max(u, alpha) >= beta {
        assert t == [u];
        assert t[1..] == [];
      } else {
        var t' := MaxTrace(env, hand, their, depth, g, moves, i + 1, Max(u, alpha), beta);
        assert t == [u] + t' && t[1..] == t';
        MaxTraceCutoff(env, hand, their, depth, g, moves, i + 1, Max(u, alpha), beta);
        TopCons(u, t', alpha, beta);
      }
    }
  }

  /** Running maxima below β stay below β with one more entry in front that
      keeps the running α below β. */
  lemma TopCons(u: real, t: seq<real>, a: real, beta: real)
    requires Max(u, a) < beta
    requires forall k :: 0 < k < |t| ==> Top(t[..k], Max(u, a)) < beta
    ensures Top([u] + t, a) == Top(t, Max(u, a))
    ensures forall k :: 0 < k < |[u] + t| ==> Top(([u] + t)[..k], a) < beta
  {
    assert ([u] + t)[1..] == t;
    forall k | 0 < k < |[u] + t| ensures Top(([u] + t)[..k], a) < beta {
      assert ([u] + t)[..k][1..] == t[..k - 1];
      assert t[..k - 1] == [] ==> Top(t[..k - 1], Max(u, a)) == Max(u, a);
    }
  }

  // ---------------------------------------------------------------------------
  // MIN nodes

  /** The utilities of the children a MIN node's loop evaluates from move i
      on, up to and including the one that triggers the cutoff. */
  function MinTrace(env: Env, hand: Hand, their: Hand, depth: nat, g: Grid, moves: seq<Response>, i: nat,
                    alpha: real, beta: real): (t: seq<real>)
    requires Ready(env, g, depth) && 1 <= depth && Shape(MinNode, hand, their, depth) && MovesOf(their, moves)
    ensures i <= |moves| ==> |t| <= |moves| - i
    ensures i < |moves| ==> 1 <= |t|
    decreases |moves| - i
  {
    if i >= |moves| then []
    else
      var u := MinChild(env, hand, their, depth, g, moves[i], alpha, beta).utility;
      if alpha >= Min(u, beta) then [u]
      else [u] + MinTrace(env, hand, their, depth, g, moves, i + 1, alpha, Min(u, beta))
  }

  /** Entry k of t is the first one of least value, and it is below ceiling. */
  predicate FirstLeast(t: seq<real>, k: int, ceiling: real)
  {
    && 0 <= k < |t| && t[k] < ceiling
    && (forall m :: 0 <= m < k ==> t[k] < t[m])
    && (forall m :: 0 <= m < |t| ==> t[k] <= t[m])
  }

  /** No entry of t is below ceiling. */
  predicate NoneBelow(t: seq<real>, ceiling: real)
  {
    forall m :: 0 <= m < |t| ==> ceiling <= t[m]
  }

  lemma FirstLeastHead(u: real, t: seq<real>, ceiling: real)
    requires u < ceiling && NoneBelow(t, u)
    ensures FirstLeast([u] + t, 0, ceiling)
  {
    forall m | 1 <= m < |[u] + t| ensures ([u] + t)[m] == t[m - 1] { }
  }

  lemma NoneBelowCons(u: real, t: seq<real>, ceiling: real)
    requires ceiling <= u && NoneBelow(t, ceiling)
    ensures NoneBelow([u] + t, ceiling)
  {
    forall m | 1 <= m < |[u] + t| ensures ([u] + t)[m] == t[m - 1] { }
  }

  lemma FirstLeastShift(u: real, t: seq<real>, ceiling: real, k: int)
    requires FirstLeast(t, k, Min(u, ceiling))
    ensures FirstLeast([u] + t, k + 1, ceiling)
  {
    forall m | 1 <= m < |[u] + t| ensures ([u] + t)[m] == t[m - 1] { }
  }

  /** The best-move update of a MIN node applied to the utilities t of the
      moves from i on, in order: a strictly smaller utility takes over. */
  function PickMin(moves: seq<Response>, i: nat, t: seq<real>, best: Response): Response
    requires i + |t| <= |moves|
    decreases |t|
  {
    if t == [] then best
    else PickMin(moves, i + 1, t[1..], if t[0] < best.utility then Respond(moves[i], t[0]) else best)
  }

  /** `PickMin` keeps the best so far unless some utility is below it, and
      then answers the first move of least utility. */
  lemma PickMinFirstLeast(moves: seq<Response>, i: nat, t: seq<real>, best: Response)
    requires i + |t| <= |moves|
    ensures var r := PickMin(moves, i, t, best);
            || (r == best && NoneBelow(t, best.utility))
            || (exists k :: FirstLeast(t, k, best.utility) && r == Respond(moves[i + k], t[k]))
  {
    var k := PickMinIndex(moves, i, t, best);
  }

  /** The index the update settles on, or -1 when it keeps `best`. */
  lemma {:induction false} PickMinIndex(moves: seq<Response>, i: nat, t: seq<real>, best: Response) returns (k: int)
    requires i + |t| <= |moves|
    ensures var r := PickMin(moves, i, t, best);
            if k < 0 then r == best && NoneBelow(t, best.utility)
            else FirstLeast(t, k, best.utility) && r == Respond(moves[i + k], t[k])
    decreases |t|
  {
    k := -1;
    if t != [] {
      var u, t' := t[0], t[1..];
      assert t == [u] + t';
      var best' := if u < best.utility then Respond(moves[i], u) else best;
      assert best'.utility == Min(u, best.utility);
      assert PickMin(moves, i, t, best) == PickMin(moves, i + 1, t', best');
      var r := PickMin(moves, i + 1, t', best');
      var k' := PickMinIndex(moves, i + 1, t', best');
      if k' >= 0 {
        PickMinLater(moves, i, u, t', best.utility, k', r);
        k := k' + 1;
      } else if u < best.utility {
        FirstLeastHead(u, t', best.utility);
        k := 0;
      } else {
        NoneBelowCons(u, t', best.utility);
      }
    }
  }

  /** The first least of the tail, below the head, is the first least of the whole. */
  lemma PickMinLater(moves: seq<Response>, i: nat, u: real, t: seq<real>, ceiling: real, k: int, r: Response)
    requires i + 1 + |t| <= |moves|
    requires FirstLeast(t, k, Min(u, ceiling)) && r == Respond(moves[i + 1 + k], t[k])
    ensures FirstLeast([u] + t, k + 1, ceiling) && r == Respond(moves[i + k + 1], ([u] + t)[k + 1])
  {
    FirstLeastShift(u, t, ceiling, k);
    assert ([u] + t)[k + 1] == t[k];
  }

  /** The MIN loop is `PickMin` over the utilities it evaluates. */
  lemma {:induction false} MinLoopIsPickMin(env: Env, hand: Hand, their: Hand, depth: nat, g: Grid, moves: seq<Response>,
                                            i: nat, alpha: real, beta: real, best: Response)
    requires Ready(env, g, depth) && 1 <= depth && Shape(MinNode, hand, their, depth) && MovesOf(their, moves)
    requires i <= |moves|
    ensures MinLoop(env, hand, their, depth, g, moves, i, alpha, beta, best)
            == PickMin(moves, i, MinTrace(env, hand, their, depth, g, moves, i, alpha, beta), best)
    decreases |moves| - i
  {
    if i < |moves| {
      var t := MinTrace(env, hand, their, depth, g, moves, i, alpha, beta);
      var u := MinChild(env, hand, their, depth, g, moves[i], alpha, beta).utility;
      var best' := if u < best.utility then Respond(moves[i], u) else best;
      if alpha < Min(u, beta) {
        MinLoopIsPickMin(env, hand, their, depth, g, moves, i + 1, alpha, Min(u, beta), best');
        assert t[1..] == MinTrace(env, hand, their, depth, g, moves, i + 1, alpha, Min(u, beta));
      } else {
        assert t[1..] == [];
      }
    }
  }

  /** The MIN loop returns the first of the opponent's moves of least
      utility, provided it is below the best so far (initially
      `float.MaxValue`, strict comparison); otherwise the best so far. */
  lemma MinLoopPicksFirstLeast(env: Env, hand: Hand, their: Hand, depth: nat, g: Grid, moves: seq<Response>,
                               i: nat, alpha: real, beta: real, best: Response)
    requires Ready(env, g, depth) && 1 <= depth && Shape(MinNode, hand, their, depth) && MovesOf(their, moves)
    requires i <= |moves|
    ensures var t := MinTrace(env, hand, their, depth, g, moves, i, alpha, beta);
            var r := MinLoop(env, hand, their, depth, g, moves, i, alpha, beta, best);
            || (r == best && NoneBelow(t, best.utility))
            || (exists k :: FirstLeast(t, k, best.utility) && r == Respond(moves[i + k], t[k]))
  {
    MinLoopIsPickMin(env, hand, their, depth, g, moves, i, alpha, beta, best);
    PickMinFirstLeast(moves, i, MinTrace(env, hand, their, depth, g, moves, i, alpha, beta), best);
  }

  /** The MIN loop stops before the last move exactly when the running β
      (the smallest of β and the utilities seen) falls to α; it never stops
      earlier than that. */
  lemma {:induction false} MinTraceCutoff(env: Env, hand: Hand, their: Hand, depth: nat, g: Grid, moves: seq<Response>,
                                          i: nat, alpha: real, beta: real)
    requires Ready(env, g, depth) && 1 <= depth && Shape(MinNode, hand, their, depth) && MovesOf(their, moves)
    requires i <= |moves|
    ensures var t := MinTrace(env, hand, their, depth, g, moves, i, alpha, beta);
            && (|t| < |moves| - i ==> alpha >= Bottom(t, beta))
            && (forall k :: 0 < k < |t| ==> alpha < Bottom(t[..k], beta))
    decreases |moves| - i
  {
    if i < |moves| {
      var t := MinTrace(env, hand, their, depth, g, moves, i, alpha, beta);
      var u := t[0];
      if alpha >= Min(u, beta) {
        assert t == [u];
        assert t[1..] == [];
      } else {
        var t' := MinTrace(env, hand, their, depth, g, moves, i + 1, alpha, Min(u, beta));
        assert t == [u] + t' && t[1..] == t';
        MinTraceCutoff(env, hand, their, depth, g, moves, i + 1, alpha, Min(u, beta));
        BottomCons(u, t', alpha, beta);
      }
    }
  }

  /** Running minima above α stay above α with one more entry in front that
      keeps the running β above α. */
  lemma BottomCons(u: real, t: seq<real>, alpha: real, b: real)
    requires alpha < Min(u, b)
    requires forall k :: 0 < k < |t| ==> alpha < Bottom(t[..k], Min(u, b))
    ensures Bottom([u] + t, b) == Bottom(t, Min(u, b))
    ensures forall k :: 0 < k < |[u] + t| ==> alpha < Bottom(([u] + t)[..k], b)
  {
    assert ([u] + t)[1..] == t;
    forall k | 0 < k < |[u] + t| ensures alpha < Bottom(([u] + t)[..k], b) {
      assert ([u] + t)[..k][1..] == t[..k - 1];
      assert t[..k - 1] == [] ==> Bottom(t[..k - 1], Min(u, b)) == Min(u, b);
    }
  }

  // ---------------------------------------------------------------------------
  // Chance nodes

  /** The utilities of the children a chance node's loop evaluates from deck
      card i on, up to and including the one that triggers the cutoff. */
  function ChanceTrace(env: Env, isMax: bool, hand: Hand, their: Hand, depth: nat, g: Grid, i: nat,
                       alpha: real, beta: real, acc: real): (t: seq<real>)
    requires Ready(env, g, depth) && 1 <= depth && Shape(if isMax then ChanceMax else ChanceMin, hand, their, depth)
    ensures i <= |DeckOf(env, isMax)| ==> |t| <= |DeckOf(env, isMax)| - i
    decreases |DeckOf(env, isMax)| - i
  {
    var deck := DeckOf(env, isMax);
    if i >= |deck| then []
    else
      var u := ChanceChild(env, isMax, hand, their, depth, g, deck[i], alpha, beta).utility;
      var acc' := acc + Weigh(u, deck, i);
      var alpha', beta' := NextAlpha(isMax, acc', alpha), NextBeta(isMax, acc', beta);
      if alpha' >= beta' then [u] else [u] + ChanceTrace(env, isMax, hand, their, depth, g, i + 1, alpha', beta', acc')
  }

  /** The utilities t of the draws deck[i], deck[i+1], ..., each weighted by
      the probability of its card. */
  function WeightedSum(deck: seq<Card>, i: nat, t: seq<real>): real
    requires i + |t| <= |deck|
    decreases |t|
  {
    if t == [] then 0.0 else Weigh(t[0], deck, i) + WeightedSum(deck, i + 1, t[1..])
  }

  function Sum(t: seq<real>): real
  {
    if t == [] then 0.0 else t[0] + Sum(t[1..])
  }

  /** A chance node's value is its running sum plus the probability-weighted
      utilities of the draws it evaluates. */
  lemma {:induction false} ChanceLoopIsWeightedSum(env: Env, isMax: bool, hand: Hand, their: Hand, depth: nat, g: Grid,
                                                   i: nat, alpha: real, beta: real, acc: real)
    requires Ready(env, g, depth) && 1 <= depth && Shape(if isMax then ChanceMax else ChanceMin, hand, their, depth)
    requires i <= |DeckOf(env, isMax)|
    ensures ChanceLoop(env, isMax, hand, their, depth, g, i, alpha, beta, acc)
            == acc + WeightedSum(DeckOf(env, isMax), i, ChanceTrace(env, isMax, hand, their, depth, g, i, alpha, beta, acc))
    decreases |DeckOf(env, isMax)| - i
  {
    var deck := DeckOf(env, isMax);
    if i < |deck| {
      var t := ChanceTrace(env, isMax, hand, their, depth, g, i, alpha, beta, acc);
      var u := ChanceChild(env, isMax, hand, their, depth, g, deck[i], alpha, beta).utility;
      var acc' := acc + Weigh(u, deck, i);
      var alpha', beta' := NextAlpha(isMax, acc', alpha), NextBeta(isMax, acc', beta);
      var v := ChanceLoop(env, isMax, hand, their, depth, g, i, alpha, beta, acc);
      WeightedSumCons(deck, i, t, u, acc);
      if alpha' < beta' {
        var t' := ChanceTrace(env, isMax, hand, their, depth, g, i + 1, alpha', beta', acc');
        assert t[1..] == t';
        assert v == ChanceLoop(env, isMax, hand, their, depth, g, i + 1, alpha', beta', acc');
        ChanceLoopIsWeightedSum(env, isMax, hand, their, depth, g, i + 1, alpha', beta', acc');
        assert v == acc' + WeightedSum(deck, i + 1, t');
      } else {
        assert t[1..] == [];
        assert v == acc';
        assert WeightedSum(deck, i + 1, []) == 0.0;
      }
    }
  }

  /** One draw of the weighted sum, with the running sum moved across. */
  lemma WeightedSumCons(deck: seq<Card>, i: nat, t: seq<real>, u: real, acc: real)
    requires i + |t| <= |deck| && t != [] && t[0] == u
    ensures acc + WeightedSum(deck, i, t) == (acc + Weigh(u, deck, i)) + WeightedSum(deck, i + 1, t[1..])
  {
  }

  /** A chance node stops before the last card only when its partial
      expectation reaches β (CHANCEMAX) or falls to α (CHANCEMIN), the
      window being open when the node starts. */
  lemma {:induction false} ChanceTraceCutoff(env: Env, isMax: bool, hand: Hand, their: Hand, depth: nat, g: Grid,
                                             i: nat, alpha: real, beta: real, acc: real)
    requires Ready(env, g, depth) && 1 <= depth && Shape(if isMax then ChanceMax else ChanceMin, hand, their, depth)
    requires i <= |DeckOf(env, isMax)| && alpha < beta
    ensures var v := ChanceLoop(env, isMax, hand, their, depth, g, i, alpha, beta, acc);
            |ChanceTrace(env, isMax, hand, their, depth, g, i, alpha, beta, acc)| < |DeckOf(env, isMax)| - i ==>
              if isMax then v >= beta else v <= alpha
    decreases |DeckOf(env, isMax)| - i
  {
    var deck := DeckOf(env, isMax);
    if i < |deck| {
      var u := ChanceChild(env, isMax, hand, their, depth, g, deck[i], alpha, beta).utility;
      var acc' := acc + Weigh(u, deck, i);
      var alpha', beta' := NextAlpha(isMax, acc', alpha), NextBeta(isMax, acc', beta);
      if alpha' < beta' {
        ChanceTraceCutoff(env, isMax, hand, their, depth, g, i + 1, alpha', beta', acc');
      }
    }
  }

  /** A chance node never stops earlier than that: after each draw but the
      last it evaluates, the partial expectation is still below β
      (CHANCEMAX) or above α (CHANCEMIN). */
  lemma {:induction false} ChanceTraceRunsOn(env: Env, isMax: bool, hand: Hand, their: Hand, depth: nat, g: Grid,
                                             i: nat, alpha: real, beta: real, acc: real)
    requires Ready(env, g, depth) && 1 <= depth && Shape(if isMax then ChanceMax else ChanceMin, hand, their, depth)
    requires i <= |DeckOf(env, isMax)|
    ensures RunsOn(isMax, DeckOf(env, isMax), i, ChanceTrace(env, isMax, hand, their, depth, g, i, alpha, beta, acc),
                   acc, alpha, beta)
    decreases |DeckOf(env, isMax)| - i
  {
    var deck := DeckOf(env, isMax);
    if i < |deck| {
      var u := ChanceChild(env, isMax, hand, their, depth, g, deck[i], alpha, beta).utility;
      var acc' := acc + Weigh(u, deck, i);
      var alpha', beta' := NextAlpha(isMax, acc', alpha), NextBeta(isMax, acc', beta);
      if alpha' < beta' {
        var t := ChanceTrace(env, isMax, hand, their, depth, g, i, alpha, beta, acc);
        var t' := ChanceTrace(env, isMax, hand, their, depth, g, i + 1, alpha', beta', acc');
        assert t == [u] + t';
        ChanceTraceRunsOn(env, isMax, hand, their, depth, g, i + 1, alpha', beta', acc');
        WithinCons(isMax, deck, i, u, t', t, acc, alpha, beta, alpha', beta');
      }
    }
  }

  /** A partial expectation that lets a chance node go on: below β for
      CHANCEMAX, above α for CHANCEMIN. */
  predicate Within(isMax: bool, partial: real, alpha: real, beta: real)
  {
    if isMax then partial < beta else alpha < partial
  }

  /** Every partial expectation of the trace t of draws deck[i..], save the
      one after its last draw, lets the node go on. */
  predicate RunsOn(isMax: bool, deck: seq<Card>, i: nat, t: seq<real>, acc: real, alpha: real, beta: real)
    requires i + |t| <= |deck|
  {
    forall k :: 0 < k < |t| ==> Within(isMax, acc + WeightedSum(deck, i, t[..k]), alpha, beta)
  }

  /** The partial expectations of a longer trace stay in the window when the
      first one does and those of the rest do, in the window the first draw
      leaves (whose bound that matters is unchanged). */
  lemma WithinCons(isMax: bool, deck: seq<Card>, i: nat, u: real, t': seq<real>, t: seq<real>, acc: real,
                   alpha: real, beta: real, alpha': real, beta': real)
    requires t == [u] + t' && i + 1 + |t'| <= |deck|
    requires Within(isMax, acc + Weigh(u, deck, i), alpha, beta)
    requires if isMax then beta' == beta else alpha' == alpha
    requires RunsOn(isMax, deck, i + 1, t', acc + Weigh(u, deck, i), alpha', beta')
    ensures RunsOn(isMax, deck, i, t, acc, alpha, beta)
  {
    forall k | 0 < k < |t|
      ensures Within(isMax, acc + WeightedSum(deck, i, t[..k]), alpha, beta)
    {
      PartialStep(deck, i, u, t', k, acc);
    }
  }

  /** The partial expectation after k draws, with the first draw moved into
      the running sum. */
  lemma PartialStep(deck: seq<Card>, i: nat, u: real, t': seq<real>, k: nat, acc: real)
    requires i + 1 + |t'| <= |deck| && 0 < k <= 1 + |t'|
    ensures ([u] + t')[..k] == [u] + t'[..k - 1]
    ensures acc + WeightedSum(deck, i, ([u] + t')[..k]) == (acc + Weigh(u, deck, i)) + WeightedSum(deck, i + 1, t'[..k - 1])
    ensures k == 1 ==> WeightedSum(deck, i + 1, t'[..k - 1]) == 0.0
  {
    var p := ([u] + t')[..k];
    assert p == [u] + t'[..k - 1];
    assert p[1..] == t'[..k - 1];
  }

  lemma SplitFraction(a: real, b: real, n: real)
    requires n > 0.0
    ensures a * (1.0 / n) + b / n == (a + b) / n
  {
  }

  lemma WeightedSumStep(deck: seq<Card>, i: nat, t: seq<real>, n: real, p: real)
    requires i + |t| <= |deck| && t != [] && n > 0.0
    requires p == Probability(deck, deck[i]) && p == 1.0 / n
    requires WeightedSum(deck, i + 1, t[1..]) == Sum(t[1..]) / n
    ensures WeightedSum(deck, i, t) == Sum(t) / n
  {
    SplitFraction(t[0], Sum(t[1..]), n);
  }

  /** Over a deck of distinct cards the weighted sum is the plain sum
      divided by the deck size. */
  lemma {:induction false} WeightedSumOfDistinct(deck: seq<Card>, i: nat, t: seq<real>)
    requires DistinctCards(deck) && 0 < |deck| && i + |t| <= |deck|
    ensures WeightedSum(deck, i, t) == Sum(t) / |deck| as real
    decreases |t|
  {
    if t != [] {
      DistinctDeckWeights(deck, i);
      WeightedSumOfDistinct(deck, i + 1, t[1..]);
      WeightedSumStep(deck, i, t, |deck| as real, Probability(deck, deck[i]));
    }
  }

  /** A chance node that draws every card of a deck of distinct cards
      without a cutoff is worth the mean utility of its children. */
  lemma ChanceNodeMean(env: Env, isMax: bool, hand: Hand, their: Hand, depth: nat, g: Grid, alpha: real, beta: real)
    requires Ready(env, g, depth) && 1 <= depth && Shape(if isMax then ChanceMax else ChanceMin, hand, their, depth)
    requires !IsTerminal(g, env.gems) && DistinctCards(DeckOf(env, isMax)) && 0 < |DeckOf(env, isMax)|
    requires |ChanceTrace(env, isMax, hand, their, depth, g, 0, alpha, beta, 0.0)| == |DeckOf(env, isMax)|
    ensures Search(env, if isMax then ChanceMax else ChanceMin, hand, their, depth, alpha, beta, g).utility
            == Sum(ChanceTrace(env, isMax, hand, their, depth, g, 0, alpha, beta, 0.0)) / |DeckOf(env, isMax)| as real
  {
    ChanceLoopIsWeightedSum(env, isMax, hand, their, depth, g, 0, alpha, beta, 0.0);
    WeightedSumOfDistinct(DeckOf(env, isMax), 0, ChanceTrace(env, isMax, hand, their, depth, g, 0, alpha, beta, 0.0));
  }

  // ---------------------------------------------------------------------------
  // The move a MAX node answers

  /** The move a non-terminal MAX node answers is either no move at all
      (card index -1, when no child beats `float.MinValue`) or one of the
      generated moves, hence legal; its utility is then that of the first
      best child evaluated. */
  lemma MaxNodeMoveIsLegal(env: Env, hand: Hand, their: Hand, depth: nat, alpha: real, beta: real, g: Grid)
    requires Ready(env, g, depth) && Shape(MaxNode, hand, their, depth)
    requires !IsTerminal(g, env.gems) && 1 <= depth
    ensures var r := Search(env, MaxNode, hand, their, depth, alpha, beta, g);
            var moves := FindAllMoves(hand, g, env.gems);
            || r == MaxStart
            || (exists k :: FirstBest(MaxTrace(env, hand, their, depth, g, moves, 0, alpha, beta), k, MinValue)
                            && r == Respond(moves[k], MaxTrace(env, hand, their, depth, g, moves, 0, alpha, beta)[k]))
    ensures var r := Search(env, MaxNode, hand, their, depth, alpha, beta, g);
            r.cardIndex != -1 ==> Admitted(hand, g, env.gems, Respond(r, 0.0))
  {
    var moves := FindAllMoves(hand, g, env.gems);
    var r := Search(env, MaxNode, hand, their, depth, alpha, beta, g);
    assert r == MaxLoop(env, hand, their, depth, g, moves, 0, alpha, beta, MaxStart);
    var t := MaxTrace(env, hand, their, depth, g, moves, 0, alpha, beta);
    MaxLoopIsPickMax(env, hand, their, depth, g, moves, 0, alpha, beta, MaxStart);
    var k := PickMaxIndex(moves, 0, t, MaxStart);
    if k >= 0 {
      FindAllMovesAdmitted(hand, g, env.gems);
      assert moves[k] in moves;
      assert Respond(r, 0.0) == moves[k];
    }
  }
}
