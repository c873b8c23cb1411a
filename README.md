# Expectus rule engine and search AI in Dafny

Expectus is a two-player card-pushing game in the style of Joustus. Two
players take turns placing cards from a hand of three onto a 5×5 board, on
which only the 3×3 centre can be targeted. A card played onto an occupied cell
pushes the resident cards along one direction. This works only if the played
card has that push capability and every pushed card lacks the capability
pointing back at its pusher. Three gems lie on central cells. At the end, a
player owns every gem that lies under one of their cards. The computer player
is a depth-5 expectiminimax search with α-β cutoffs.

The model follows the program's own structure, one Dafny module per concern:

- `Directions`: the push directions and the two direction helpers of the game
  manager.
- `CardScript`: the card record and the rule for who may be pushed which way.
- `BoardRules`: the board as values. This covers the chain a push moves
  (`ChainLength`, `Shift`), move legality (`IsValidMove`) and its effect
  (`AfterMove`). It also covers the scores (`GetPlayerScores`, `CardOnGem`,
  the centre tally behind `UpdateGems`) and the end of the game
  (`IsGameOver`).
- `Board`: the in-place board operations on an `array` of 25 cells: the chain
  probe, the shift, `CardCast`, `TakeMove`, `CopyState`, the gem draw of
  `Init`, and the unused `IsNextToGem`. Each is proved equal to its value-level
  counterpart.
- `MoveGeneration`: the move list of `FindAllPossibleMove` as a function. It
  is proved to hold exactly the admitted moves: every legal placement without
  a push, and every legal push at a cell where placing without a push is
  illegal. It lists them ordered by slot, row, column and then push.
- `Search`: `TryMinimax` as a specification function over the four node kinds.
  It comes with the lemmas that say what each kind answers: the first strictly
  best move among the children visited before the cutoff, and, for chance
  nodes, the probability-weighted sum and the plain mean over a deck of
  distinct cards. `Utility` and `Probability` are here too.
- `Minimax`: the `Minimaxer` object. Its loops (`ConsiderTurn`, `TryMinimax`
  and its four expansions, `FindAllPossibleMove`, `UpdateGems`) work on copies
  of the board array, and each is proved equal to the specification function.
- `Players`: the `Player` object, covering its hand array, deck, gem counter
  and placement cursor, and the turn it takes (human or AI).
- `Settings`: the AI-count setting.
- `Manager`: the `GameManager`. It seats the AIs, deals and shuffles the
  decks, alternates turns, referees each submitted move, keeps the scores in
  step and names the winner.

The board is a row-major flat grid: cell (row, col) is index `5*row + col`.
Gem positions are `Pos(x, y)`, with x the column and y the row, as in the game.
Utilities are exact reals. `float.MinValue` and `float.MaxValue` appear as the
constants `MinValue` and `MaxValue`.

Where the code and a reader's expectation part, the model follows the code:

- The chain probe walks the whole 5×5 array. A pushed card can therefore come
  to rest in an empty outer-ring cell (`PushIntoRingExample`). A push fails
  only when the chain would leave the array (`PushOffTheArrayExample`). The
  source detects this with a caught index exception; here it is a bounds
  check.
- `CardOnGem` reads the corner cell (0, 0) for a cell without a gem.
- `IsNextToGem` compares the row with a gem's x coordinate.
- Chance nodes prune on the running partial sum, as written.

## Model

| member | source | states |
|---|---|---|
| Directions.GetOpposingDirections | Assets/Scripts/GameManager.cs:254-264 | only NoPush maps to NoPush; every push direction maps to a different direction |
| Directions.OpposingIsInvolution | Assets/Scripts/GameManager.cs:254-264 | taking the opposite twice gives back the direction |
| Directions.AreOpposingMatchesGetOpposing | Assets/Scripts/GameManager.cs:246-264 | two directions oppose iff the first is a push and the second is its opposite |
| Directions.AreOpposingSymmetricIrreflexive | Assets/Scripts/GameManager.cs:246-252 | opposition is symmetric, and no direction opposes itself |
| CardScript.CanPushThisWayIffLacksOpposite | Assets/Scripts/CardScript.cs:31-38 | a resident can be pushed in a direction iff it lacks the capability pointing back; it can never be pushed with NoPush |
| CardScript.CapabilityExtremes | Assets/Scripts/CardScript.cs:31-38 | a card with all four capabilities can never be pushed; a card with none can be pushed in every push direction |
| BoardRules.ChainLengthIsChain | Assets/Scripts/Board.cs:242-260 | the probe's result is n iff the first n cells along the direction are pushable residents inside the array and the next cell is empty |
| BoardRules.ShiftKeepsCards | Assets/Scripts/Board.cs:264-286 | shifting a chain into an empty cell empties the start cell and keeps the multiset of cells |
| BoardRules.ShiftMovesChain | Assets/Scripts/Board.cs:264-286 | after the shift, every chain card sits one cell further along, and every cell off the chain is unchanged |
| BoardRules.ValidMoveBounds | Assets/Scripts/Board.cs:95-107 | a legal move targets a central cell with a push the card has |
| BoardRules.NoPushValidIff | Assets/Scripts/Board.cs:110-115 | placing without a push is legal iff the target is central, empty and not a gem cell |
| BoardRules.PushAtEmptyCell | Assets/Scripts/Board.cs:118-122 | a push at an empty gem cell is illegal; at an empty non-gem central cell it is legal iff the card has that push |
| BoardRules.PushAtOccupiedCell | Assets/Scripts/Board.cs:89-126 | a push at an occupied central cell with a chain that fits is legal iff the card has that push |
| BoardRules.TakeMoveEffect | Assets/Scripts/Board.cs:135-156 | a legal move puts the card on the target, moves each chain card one step, leaves every other cell and the corner unchanged |
| BoardRules.TakeMoveKeepsCards | Assets/Scripts/Board.cs:135-156 | a legal move fills exactly one empty cell with the played card: the board's multiset loses one empty cell and gains the card |
| BoardRules.PushIntoRingExample | Assets/Scripts/Board.cs:242-260 | a resident pushed up from row 1 into an empty ring cell rests in row 0 and the move is legal |
| BoardRules.PushOffTheArrayExample | Assets/Scripts/Board.cs:242-291 | a chain that would be pushed past row 0 makes the move illegal |
| BoardRules.GetPlayerScores | Assets/Scripts/Board.cs:301-315 | both counts are non-negative and together at most the number of gems |
| BoardRules.ScoresExtremes | Assets/Scripts/Board.cs:301-315 | all gems under player-1 cards give (n, 0); all under other cards give (0, n); none covered gives (0, 0) |
| BoardRules.ScoresCountOccupied | Assets/Scripts/Board.cs:301-315 | the two scores together equal the number of gem cells holding a card, so they never exceed the number of gems |
| BoardRules.IsGameOver | Assets/Scripts/Board.cs:321-338 | the game is over iff every central cell holds a card or is a gem cell |
| BoardRules.RowsOver | Assets/Scripts/Board.cs:321-338 | the row scan from row i is true iff every central cell of rows i..3 is settled |
| BoardRules.ColsOver | Assets/Scripts/Board.cs:321-338 | the column scan of one row from column j is true iff every cell j..3 of the row is settled |
| BoardRules.FindGem | Assets/Scripts/Board.cs:202-218 | the gem lookup yields the cell's own position when a gem lies there, and the default position (0, 0) otherwise |
| BoardRules.CardOnGem | Assets/Scripts/Board.cs:202-218 | on a gem cell the answer is that cell's content; on any other cell it is the corner cell (0, 0) |
| BoardRules.TallyMatchesScores | Assets/Scripts/AI/Minimaxer.cs:62-80 | for distinct central gems and an empty corner, the row-by-row tally equals the board's scores |
| BoardRules.TallyRowsAdd | Assets/Scripts/AI/Minimaxer.cs:62-80 | adding one new central gem adds exactly its share to the tally |
| BoardRules.TallyNoGems | Assets/Scripts/AI/Minimaxer.cs:62-80 | with no gems and an empty corner the tally is (0, 0) |
| Board.Probe | Assets/Scripts/Board.cs:242-260 | the probe loop succeeds iff a chain exists, and then returns its length |
| Board.ShiftChain | Assets/Scripts/Board.cs:264-286 | the far-end-first shifting loop leaves the array equal to the chain shift |
| Board.CardCast | Assets/Scripts/Board.cs:229-295 | succeeds iff the chain exists; the array is changed only in apply mode on success, and then it is the chain shifted one step |
| Board.TakeMove | Assets/Scripts/Board.cs:135-156 | the array afterwards is the value-level effect of the move: unchanged for an illegal move |
| Board.CopyState | Assets/Scripts/Board.cs:162-179 | returns a freshly allocated array equal cell for cell to the input |
| Board.Init | Assets/Scripts/Board.cs:48-80 | the new board is empty; the gems are `FirstDistinct` of the draws: the first three distinct draws, in the order drawn, each a central position |
| Board.FirstDistinctSettles | Assets/Scripts/Board.cs:63-72 | once three gems are chosen, later draws change nothing |
| Board.NextToIsMirrored | Assets/Scripts/Board.cs:181-193 | the adjacency test holds iff the cell is a neighbour of the gem with its row and column swapped |
| Board.IsNextToGem | Assets/Scripts/Board.cs:181-193 | answers the last gem index whose mirrored cell is adjacent, or 0 when none is |
| MoveGeneration.InPushMove | Assets/Scripts/AI/Minimaxer.cs:333-378 | one push direction emits exactly the legal push of that card at that cell, when placing without a push is illegal |
| MoveGeneration.PushMovesAdmitted | Assets/Scripts/AI/Minimaxer.cs:333-378 | the pushes emitted at a cell are exactly its legal pushes, when placing without a push is illegal there |
| MoveGeneration.PushMovesSorted | Assets/Scripts/AI/Minimaxer.cs:333-378 | the pushes come in the order DOWN, LEFT, RIGHT, UP |
| MoveGeneration.CellMovesAdmitted | Assets/Scripts/AI/Minimaxer.cs:323-378 | a cell emits NoPush iff it is legal, and otherwise exactly its legal pushes, in order |
| MoveGeneration.ColMovesAdmitted | Assets/Scripts/AI/Minimaxer.cs:321-380 | from column j on, the moves emitted are exactly the admitted moves of that slot and row in columns ≥ j, sorted |
| MoveGeneration.RowMovesAdmitted | Assets/Scripts/AI/Minimaxer.cs:319-381 | from row i on, the moves emitted are exactly the admitted moves of that slot in rows ≥ i, sorted |
| MoveGeneration.SlotMovesAdmitted | Assets/Scripts/AI/Minimaxer.cs:316-383 | from slot c on, the moves emitted are exactly the admitted moves of slots ≥ c, sorted |
| MoveGeneration.FindAllMoves | Assets/Scripts/AI/Minimaxer.cs:313-386 | every move names a slot of the hand |
| MoveGeneration.FindAllMovesAdmitted | Assets/Scripts/AI/Minimaxer.cs:313-386 | the move list holds exactly the admitted moves, ordered by slot, row, column, push |
| MoveGeneration.GeneratedMovesAreLegal | Assets/Scripts/AI/Minimaxer.cs:313-386 | every listed move targets a central cell, names a slot of the hand and passes IsValidMove; a push is listed only where NoPush is illegal |
| Search.Utility | Assets/Scripts/AI/Minimaxer.cs:397-405 | own minus opponent gems (x − y for player 1, y − x otherwise), within ±the number of gems |
| Search.UtilityZeroSum | Assets/Scripts/AI/Minimaxer.cs:397-405 | the two players' utilities of a board are opposite |
| Search.Count | Assets/Scripts/AI/Minimaxer.cs:415-418 | the occurrence count is at most the deck's length and 0 for a card not in the deck |
| Search.Probability | Assets/Scripts/AI/Minimaxer.cs:415-418 | a draw probability lies in [0, 1] |
| Search.CountOfDistinct | Assets/Scripts/AI/Minimaxer.cs:415-418 | in a deck of distinct cards each card occurs once |
| Search.DistinctDeckWeights | Assets/Scripts/AI/Minimaxer.cs:415-418 | in a deck of distinct cards every card has probability 1/\|deck\| |
| Search.FirstHole | Assets/Scripts/AI/Minimaxer.cs:249 | the answer is the first empty slot from i on, or −1 when every later slot holds a card |
| Search.PlayedSlot | Assets/Scripts/AI/Minimaxer.cs:179-180 | emptying the played slot of a full hand leaves exactly one hole, at that slot |
| Search.FilledHole | Assets/Scripts/AI/Minimaxer.cs:248-254 | filling the only hole gives a full hand |
| Search.DrawnShapeMax | Assets/Scripts/AI/Minimaxer.cs:248-257 | the CHANCEMAX child's hand, hole filled with the drawn card, has the shape a MAX node one level down expects |
| Search.DrawnShapeMin | Assets/Scripts/AI/Minimaxer.cs:276-287 | the CHANCEMIN child's opponent hand, hole filled, has the shape a MIN node one level down expects |
| Search.LeafResult | Assets/Scripts/AI/Minimaxer.cs:145-153 | a game-over board or depth 0 answers card, row and column −1 with a utility within ±the number of gems |
| Search.MaxTrace | Assets/Scripts/AI/Minimaxer.cs:167-206 | a MAX node visits at most the remaining moves and at least one when any remain |
| Search.PickMaxFirstBest | Assets/Scripts/AI/Minimaxer.cs:190-197 | the strict-improvement rule keeps the start move if no child beats it, else answers the first child with the greatest utility |
| Search.MaxLoopIsPickMax | Assets/Scripts/AI/Minimaxer.cs:167-206 | the MAX loop's answer is the strict-improvement pick over the children it visits |
| Search.MaxLoopPicksFirstBest | Assets/Scripts/AI/Minimaxer.cs:167-206 | a MAX node answers the first visited move with the strictly greatest child utility, or its start value when none beats it |
| Search.MaxTraceCutoff | Assets/Scripts/AI/Minimaxer.cs:199-205 | a MAX node stops early only once α raised by the visited utilities reaches β, and not before |
| Search.MinTrace | Assets/Scripts/AI/Minimaxer.cs:209-242 | a MIN node visits at most the remaining moves and at least one when any remain |
| Search.PickMinFirstLeast | Assets/Scripts/AI/Minimaxer.cs:226-233 | the strict-improvement rule keeps the start move if no child is below it, else answers the first child with the least utility |
| Search.MinLoopIsPickMin | Assets/Scripts/AI/Minimaxer.cs:209-242 | the MIN loop's answer is the strict-improvement pick over the children it visits |
| Search.MinLoopPicksFirstLeast | Assets/Scripts/AI/Minimaxer.cs:209-242 | a MIN node answers the first visited move with the strictly least child utility, or its start value |
| Search.MinTraceCutoff | Assets/Scripts/AI/Minimaxer.cs:235-241 | a MIN node stops early only once β lowered by the visited utilities meets α, and not before |
| Search.ChanceTrace | Assets/Scripts/AI/Minimaxer.cs:245-301 | a chance node visits at most the remaining deck cards |
| Search.ChanceLoopIsWeightedSum | Assets/Scripts/AI/Minimaxer.cs:245-301 | a chance node's value is the sum of the visited children's utilities, each times its card's probability |
| Search.ChanceTraceCutoff | Assets/Scripts/AI/Minimaxer.cs:262-267 | a chance node that stops early has a partial sum at least β (CHANCEMAX) or at most α (CHANCEMIN) |
| Search.ChanceTraceRunsOn | Assets/Scripts/AI/Minimaxer.cs:252-297 | not before: every partial sum before the last draw taken stays below β (CHANCEMAX) or above α (CHANCEMIN), so the node only stops at the first draw that crosses the window |
| Search.WeightedSumOfDistinct | Assets/Scripts/AI/Minimaxer.cs:415-418 | over a deck of distinct cards the weighted sum is the plain sum divided by the deck's size |
| Search.ChanceNodeMean | Assets/Scripts/AI/Minimaxer.cs:245-301 | a chance node that visits every card of a deck of distinct cards answers the mean of its children's utilities |
| Search.MaxNodeMoveIsLegal | Assets/Scripts/AI/Minimaxer.cs:167-206 | a MAX node answers its start value or the first best generated move, and any move it answers is legal |
| Minimax.Minimaxer.constructor | Assets/Scripts/AI/Minimaxer.cs:33-39 | both gem counts 0, not player 1 |
| Minimax.Minimaxer.WithCounts | Assets/Scripts/AI/Minimaxer.cs:40-46 | the gem counts are the given values, not player 1 |
| Minimax.Minimaxer.ForPlayer | Assets/Scripts/AI/Minimaxer.cs:47-53 | both gem counts 0, for the given player |
| Minimax.Minimaxer.UpdateGems | Assets/Scripts/AI/Minimaxer.cs:62-80 | the central scan's tally; for distinct central gems and an empty corner it equals the board's scores |
| Minimax.Minimaxer.ScanCentre | Assets/Scripts/AI/Minimaxer.cs:95-102 | the number of empty central cells and the last of them in row-by-row order |
| Minimax.EmptyScan | Assets/Scripts/AI/Minimaxer.cs:95-102 | the last empty cell found is an empty central cell; any empty central cell is counted, and is the only one only if it is that last cell |
| Minimax.Minimaxer.ConsiderTurn | Assets/Scripts/AI/Minimaxer.cs:89-116 | with exactly one empty central cell and more gems owned, card 0 there without a push; otherwise the MAX search at depth 5 with the widest window |
| Minimax.ShortcutEndsGame | Assets/Scripts/AI/Minimaxer.cs:103-109 | with one empty central cell, placing there is legal iff it is no gem cell, and the legal placement ends the game |
| Minimax.ShortcutNeverInPlay | Assets/Scripts/Player.cs:164-168 | an object built with both gem counts 0, as the players build theirs, always answers with the search |
| Minimax.Minimaxer.TryMinimax | Assets/Scripts/AI/Minimaxer.cs:129-305 | the method's answer is exactly the expectiminimax search function's for the node kind, depth, window and board |
| Minimax.Minimaxer.ExpandMax | Assets/Scripts/AI/Minimaxer.cs:167-206 | the MAX loop over the generated moves answers the MAX loop function from the start value |
| Minimax.Minimaxer.SearchMoveMax | Assets/Scripts/AI/Minimaxer.cs:175-187 | the child search on a copy with the move applied and the slot emptied; the given board is unchanged |
| Minimax.Minimaxer.ExpandMin | Assets/Scripts/AI/Minimaxer.cs:209-242 | the MIN loop over the opponent's moves answers the MIN loop function from the start value |
| Minimax.Minimaxer.SearchMoveMin | Assets/Scripts/AI/Minimaxer.cs:217-224 | the child search on a copy with the opponent's move applied and their slot emptied; the given board is unchanged |
| Minimax.Minimaxer.ExpandChanceMax | Assets/Scripts/AI/Minimaxer.cs:245-270 | the CHANCEMAX loop over the own deck answers the chance loop function from sum 0 |
| Minimax.Minimaxer.SearchDrawnMax | Assets/Scripts/AI/Minimaxer.cs:254-257 | the MAX search one level down from the hand with its hole filled |
| Minimax.Minimaxer.ExpandChanceMin | Assets/Scripts/AI/Minimaxer.cs:273-300 | the CHANCEMIN loop over the opponent's deck answers the chance loop function from sum 0 |
| Minimax.Minimaxer.SearchDrawnMin | Assets/Scripts/AI/Minimaxer.cs:284-287 | the MIN search one level down from the opponent's hand with its hole filled |
| Minimax.Minimaxer.FindAllPossibleMove | Assets/Scripts/AI/Minimaxer.cs:313-386 | the method's list is exactly the move-generation function's list |
| Minimax.Minimaxer.AddCellMoves | Assets/Scripts/AI/Minimaxer.cs:323-378 | one cell appends exactly its cell moves to the list |
| Players.HandCardsUpdate | Assets/Scripts/Player.cs:201-218 | overwriting one slot changes the hand's cards by exactly the old and new slot contents |
| Players.RefillConserves | Assets/Scripts/Player.cs:317-330 | refilling a slot from the deck's front keeps hand plus deck plus the removed card unchanged |
| Players.MoveCursor | Assets/Scripts/Player.cs:226-281 | a cursor on a central cell stays on a central cell |
| Players.CursorTurnsRound | Assets/Scripts/Player.cs:232-247 | on an occupied cell, a move not opposing the current push keeps the position and sets the push to the move's opposite |
| Players.CursorSteps | Assets/Scripts/Player.cs:253-274 | otherwise the cursor steps; a step out of 1..3 changes nothing, a step onto an empty cell sets NoPush, onto an occupied cell the move |
| Players.CursorKeepsConsistent | Assets/Scripts/Player.cs:241-277 | whenever position or push changes, the validity flag equals IsValidMove for the chosen card |
| Players.SelectMakesConsistent | Assets/Scripts/Player.cs:93-107 | selecting a card and moving down from (1, 2) leaves a consistent cursor |
| Players.CursorRunInvariant | Assets/Scripts/Player.cs:226-281 | any run of moves from a consistent central cursor keeps it central and consistent |
| Players.CursorMove | Assets/Scripts/Player.cs:226-281 | the method's cursor is the cursor function's |
| Players.Player.constructor | Assets/Scripts/Player.cs:12-50 | not an AI, empty hand and deck, no gems, the control fields at their initial values |
| Players.Player.SetAI | Assets/Scripts/Player.cs:164-168 | becomes an AI with a fresh search object for its own seat with both gem counts 0; nothing else changes |
| Players.Player.DrawCard | Assets/Scripts/Player.cs:201-218 | for a slot below 3, the slot gets the old deck front and the deck loses it, other slots unchanged; otherwise nothing changes |
| Players.Player.GiveDeck | Assets/Scripts/Player.cs:184-194 | the hand is the deck's first three cards in order and the deck keeps the rest |
| Players.Player.SubmitTurn | Assets/Scripts/Player.cs:317-330 | hands over the played card, refills its slot from the deck, ends the turn; hand, deck and played card together are conserved |
| Players.Player.MoveCard | Assets/Scripts/Player.cs:226-281 | only the cursor changes, and it becomes the cursor function's result |
| Players.Player.TakeHumanTurn | Assets/Scripts/Player.cs:335-356 | the turn starts choosing from the hand with slot 0 and the cursor at (2, 2) |
| Players.Player.TakeAITurn | Assets/Scripts/Player.cs:361-384 | the AI's answer is the search decision on the current hands and decks; a real move is submitted as by SubmitTurn, otherwise nothing changes |
| Players.Player.NotifyIsTurn | Assets/Scripts/Player.cs:174-178 | an AI takes its AI turn and a human its human turn, with the effects of each |
| Players.Player.GiveGem | Assets/Scripts/Player.cs:389-393 | the gem counter rises by one and nothing else changes |
| Players.Player.TakeGem | Assets/Scripts/Player.cs:398-402 | the gem counter falls by one and nothing else changes |
| Settings.AfterSetsInRange | Assets/Scripts/GameSettings.cs:26-32 | from 0, any sequence of sets leaves the count in [0, 2] |
| Settings.AfterSetsIsLastAccepted | Assets/Scripts/GameSettings.cs:29-32 | the getter returns the last value in 0..2 that was set, or 0 if none was |
| Settings.SetIdempotent | Assets/Scripts/GameSettings.cs:31 | setting the same value twice is the same as once |
| Settings.GameSettings.constructor | Assets/Scripts/GameSettings.cs:26 | the count starts at 0 |
| Settings.GameSettings.SetAICount | Assets/Scripts/GameSettings.cs:31 | a value in 0..2 is stored, any other leaves the count unchanged, and the range invariant is kept |
| Manager.Winner | Assets/Scripts/GameManager.cs:128 | 2 iff player 2 holds more gems, 1 iff player 1 does, 0 iff equal |
| Manager.WinnerSymmetric | Assets/Scripts/GameManager.cs:128 | swapping the counts swaps winners 1 and 2 and keeps a draw |
| Manager.NoDrawWithThreeGems | Assets/Scripts/GameManager.cs:128 | when all three gems are owned the game has a winner |
| Manager.SwapPermutes | Assets/Scripts/GameManager.cs:217-220 | one swap keeps the multiset of cards |
| Manager.ShufflePermutes | Assets/Scripts/GameManager.cs:213-222 | for any swap indices the shuffle keeps the multiset of cards (and the length) |
| Manager.ShuffleIdentity | Assets/Scripts/GameManager.cs:213-222 | swap indices that name each position itself leave the list unchanged |
| Manager.Shuffle | Assets/Scripts/GameManager.cs:213-222 | the list is shuffled in place by the swaps, and is a permutation of its old contents |
| Manager.Copies | Assets/Scripts/GameManager.cs:184-198 | a deck is the first sixteen catalogue cards, each marked with its owner |
| Manager.DealtCards | Assets/Scripts/GameManager.cs:179-207 | a dealt deck has sixteen cards, the owner's copies in some order, all marked with the owner |
| Manager.DecksMirror | Assets/Scripts/GameManager.cs:184-198 | the two players' decks hold the same cards apart from the owner mark |
| Manager.GameManager.constructor | Assets/Scripts/GameManager.cs:27-37 | player 1 moves first; no AIs, nothing pending, the game not ended |
| Manager.GameManager.OtherIsOpponent | Assets/Scripts/GameManager.cs:229-244 | the other hand and deck a player asks for are its opponent's, and the own deck is its own |
| Manager.GameManager.Start | Assets/Scripts/GameManager.cs:50-80 | the AI count comes from the settings (0 without them); player 2 is an AI for 1 or 2, player 1 for 2, each new search object fresh with both gem counts 0, a human's search object kept; both decks dealt; each player's whole new state given, so counters and controls stay as they were; the first turn scheduled |
| Manager.GameManager.Seat | Assets/Scripts/GameManager.cs:59-73 | player 1 is player 1 and player 2 is not; the AIs are seated by count, each with a fresh search object whose gem counts are 0, and a human keeps its search object; every other field of both players is untouched |
| Manager.GameManager.CopyDecks | Assets/Scripts/GameManager.cs:184-198 | two fresh, distinct lists of the owners' copies |
| Manager.GameManager.DistributeDecks | Assets/Scripts/GameManager.cs:179-207 | each player holds the first three cards of its shuffled deck and keeps the rest as its deck |
| Manager.GameManager.EnableNextPlayer | Assets/Scripts/GameManager.cs:85-91 | the current player is notified and the turn flag flips; that player's fields and hand become `NotifiedCurrent` (a human gets the controls back; the computer refills the slot it plays from its deck and leaves its turn), the other's hand is untouched; a computer's legal move is played on the board, both counters take the new scores and the game ends naming the winner or schedules the next turn; a human's turn, an empty answer or an illegal move leaves board, counters and round as they were, with nothing pending |
| Manager.GameManager.PlayAndPass | Assets/Scripts/GameManager.cs:85-91 | a handed-over move is refereed as by `NotifyOfTurn`, nothing else changes, and the turn flag flips |
| Manager.GameManager.PassTurn | Assets/Scripts/GameManager.cs:88-90 | the turn flag flips and nothing else changes |
| Manager.GameManager.NotifyCurrent | Assets/Scripts/GameManager.cs:87-88 | the submitted move is the current player's decision; that player's fields and hand become `NotifiedCurrent`, as `NotifyIsTurn` promises; the other player is untouched |
| Manager.GameManager.UpdatePlayerScore | Assets/Scripts/GameManager.cs:154-174 | afterwards the gem counter equals the score and nothing else of the player changes |
| Manager.GameManager.SyncScores | Assets/Scripts/GameManager.cs:113-120 | the gem counters become the board's two scores |
| Manager.GameManager.NotifyOfTurn | Assets/Scripts/GameManager.cs:100-147 | an illegal move changes nothing; a legal move is applied, the scores synced, and either the game ends naming the winner or the next turn is scheduled |
| Manager.GameManager.Conclude | Assets/Scripts/GameManager.cs:123-144 | on a finished board the game ends with the winner of the gem counters; otherwise the next turn is scheduled |

## Left out

- Unity presentation is not modelled. This covers transforms, sprites, render positions, `RenderCard`, `IndexToRenderPoint`, the deck text, the gem sprites, the end-game HUD text and the card-hiding flag `mustBeHidden`.
- Input handling in `Player.Update` is left out (key and mouse reads, hand selection, the back key). Only its selection step is stated, by `Players.SelectMakesConsistent`.
- The singleton `Awake` code, `MainMenuActions.cs` (scene loading) and `Wheel.cs` (a spinner) are engine plumbing and are not part of this model.
- `Invoke("EnableNextPlayer", …)` is timing. The model records it as the `pending` flag, and a caller runs `EnableNextPlayer`.
- The commented-out background thread of the AI turn is not modelled; the AI runs synchronously.
- Randomness is given as parameters. The gem draws of `Board.Init` are a sequence of candidate positions, and the `Random.Range` results of `Shuffle` are a sequence of swap indices.
- Manager.Shuffle: only the permutation property is proved, not the distribution. The source draws each swap partner from the whole list, so it is not a uniform Fisher-Yates shuffle.
- Float arithmetic is modelled with exact reals. Rounding of utilities and probabilities is not modelled.
- `Instantiate` in `DistributeDecks` is not modelled. Cards are values, and a deck copy is the catalogue card with its owner mark set.
- Object identity of cards is an `id` field. `Probability` compares cards by value, which coincides with reference equality when ids are unique.
- Utility: the guard for a missing board instance (returns 0) is left out. In the model a board always exists.
- Crashing paths become preconditions:
  - drawing from an empty deck (`DrawCard`, `SubmitTurn`, the AI turn);
  - `GiveGem` beyond three gems and `TakeGem` below zero (indexes into the three gem sprites);
  - a search node whose hands do not have the expected shape (a null card or `FindIndex` returning −1).
- Minimax.Minimaxer.TryMinimax: the search requires the expected hand shapes and depth at most 5, as reached from `ConsiderTurn`.
- The unused parameter `h`, and the lazy board copy at the top of `TryMinimax`, are left out: the model always passes a board.
- Players.Player.TakeAITurn: an answer whose `cardIndex` is −1 submits nothing and changes nothing. The source would index the hand with −1 and crash.
- Calls back into `GameManager` are parameters:
  - `GetOtherPlayerHand` and `GetOtherPlayerDeck` as read from the search and from the player;
  - `SubmitTurn` returns the played move instead of calling `NotifyOfTurn`, and the manager passes it on.
  - A human's later `SubmitTurn`, triggered by input, is outside `EnableNextPlayer`.
- The `deck` parameter of `ConsiderTurn` is never read by the source and is not modelled. The search reads the decks as given by the manager.
- Manager.GameManager.Start requires both players to be non-AI on entry, as in a freshly loaded scene.
- Board.Init: the draws are a finite sequence. When it runs out before three distinct positions appear, fewer than three gems are placed. The game's loop keeps drawing until it has three, which an unbounded random source reaches with probability 1.
- A move rejected by `NotifyOfTurn` during `EnableNextPlayer` leaves nothing pending, so the game waits, as in the source.
- The human control fields of `Player` are grouped in one `Control` record. The cursor logic of `MoveCard` is in value-level methods proved against `MoveCursor`.
- `_AICount` is the field `aiCount`.
