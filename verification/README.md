# Checkers: rules engine and alpha-beta search

A Dafny model of the core of a two-player checkers program. A human plays
against an AI on an 8x8 board. Every piece carries an id. Human ids are
positive (1 .. 12) and AI ids are negative (-1 .. -12). The board holds the
ids, 0 marks an empty cell, and a map gives each id's (row, col). Human
pieces move toward row 0 and AI pieces toward row 7. A capture jumps two
rows over an opposing piece, and when a side has a capture it must take one.
There are no kings. When one side cannot move, the other side moves again.
The game ends when a side has no pieces or neither side can move.

Modules, one per file:

- `Board` (board.dfy): the state. It holds the grid, the two sets of live
  ids and the position map. `Consistent` states that board, map and sets
  agree.
- `Rules` (rules.dfy): the search state `AIGameState` of Submit.py. It covers
  isValidMove, getActions with mandatory capture, the two "can continue"
  tests, terminalTest, and applyAction/resetAction. That file's
  `CheckerGame` uses the same code, so these definitions serve both.
- `Evaluation` (evaluation.dfy): computeUtilityValue, computeHeuristic and
  countSafeAICheckers. Submit.py's safety rule is `RowRule`; AIPlayer.py's
  is `ChebyshevRule`.
- `Search` (search.dfy): Submit.py's AIPlayer. maxValue and minValue search
  with the turn-skip rule, alphaBetaSearch records the best move at the root,
  and the depth limit is 26 minus the pieces on the board. `Minimax` is an
  independent reference definition. `SearchMatchesMinimax` proves the
  standard alpha-beta window theorem against it.
- `PairSearch` (pairsearch.dfy): AIPlayer.py's variant. Its alphaBetaSearch
  returns a (score, move) pair, evaluateState scores the leaves, the sides
  alternate strictly, and successors come from `result` (apply on a copy).
  It also holds getNextMoveEasy/Medium/Hard and getNextMove.
- `CheckerGame` (game.dfy): the authoritative game of CheckerGame.py. It
  covers initBoard (a method whose outer loop is a `while` over the rows and
  whose inner loop is the recursive method `PlaceCells`, proved to build the
  starting state), getPossiblePlayerActions, move, makeMove, changePlayerTurn and
  isGameOver. `Reachable` is an invariant that both move and
  changePlayerTurn keep.

The search is the code's "apply, recurse, reset" on one mutable state. The
model recurses on the value `Apply(s, a).state` and leaves `s` unchanged.
`Rules.ApplyThenReset` proves that resetAction undoes applyAction exactly,
so the two readings agree.

## Model

| member | source | states |
|---|---|---|
| Board.CellSide | Submit.py:292-297 | In a consistent state, a cell's id is in the human set iff it is positive and in the AI set iff it is negative. That is the sign test applyAction uses to pick the set to remove from. |
| Rules.IsValidMove | Submit.py:176-207 | The predicate has no contract of its own; Rules.ValidMoveRule states what it accepts and refuses. |
| Rules.ValidMoveRule | Submit.py:176-207 | A move with an end off the board is invalid, and so is one from an empty cell or to an occupied cell. Otherwise it is valid iff it is a one-row diagonal step in the side's direction, or a two-row diagonal jump over a piece of the other side. |
| Rules.MovesFromMembers | Submit.py:262-267 | The moves listed for one cell and one kind are exactly the valid moves from that cell of that kind. |
| Rules.ScanMembers | Submit.py:259-267 | The scan lists exactly the valid moves of that kind whose source holds a piece of the side. |
| Rules.Actions | Submit.py:247-273 | Every action is a valid move of one of the side's own pieces. When some capture exists, every action is a capture. |
| Rules.ActionsSound | Submit.py:257-267 | The capture list holds only valid jumps of the side. The regular list holds only valid simple moves of the side. |
| Rules.ActionsExactly | Submit.py:247-273 | A move is an action iff it is a valid move of a piece of the side, and it is a jump exactly when the side has a capture (mandatory capture, both directions). |
| Rules.ValidIsStep | Submit.py:147-166 | Every valid move is one of the four direction steps the mobility tests try from its source. |
| Rules.CanContinueIffActions | Submit.py:147-166 | humanCanContinue / AICanContinue hold iff getActions for that side is non-empty. |
| Rules.CanContinueWitness | Submit.py:147-166 | A side that can continue has at least one action. |
| Rules.TerminalIffNoActions | Submit.py:169-173 | terminalTest holds iff a side has no pieces or neither side has an action. |
| Rules.ValidIsApplicable | Submit.py:176-207 | A valid move is on the board, starts on a piece, ends on an empty cell and, if it is a jump, has a piece on its midpoint. |
| Rules.ShiftConsistent | Submit.py:285-289 | Moving the piece and its map entry to an empty destination keeps board, map and sets in agreement. |
| Rules.RemoveConsistent | Submit.py:292-299 | Taking a piece off the board, out of the map and out of its side's set keeps them in agreement. |
| Rules.Apply | Submit.py:278-301 | applyAction reports the id on the jumped cell for a jump, and 0 for a simple move. |
| Rules.ApplyConsistent | Submit.py:278-301 | Applying an applicable move to a consistent state gives a consistent state. |
| Rules.ApplyMovesPiece | Submit.py:285-289 | The moving id lands on the destination, the origin empties, the id's map entry follows it, and no cell other than the midpoint changes. |
| Rules.ApplyRemovesCaptured | Submit.py:291-299 | Each set loses the captured id and nothing else. On a jump that id is non-zero and leaves both sets, the map and the board. On a simple move the reported id is 0, so both sets are unchanged. |
| Rules.UnshiftUndoesShift | Submit.py:312-316 | Moving the piece back undoes moving it. |
| Rules.RestoreUndoesRemove | Submit.py:319-325 | Putting the captured id back on the midpoint, in its set and in the map undoes its removal. |
| Rules.Reset | Submit.py:306-325 | The function has no contract of its own; Rules.ApplyThenReset states that it undoes Rules.Apply exactly. |
| Rules.ApplyThenReset | Submit.py:306-325 | resetAction with the id applyAction returned gives back exactly the state before the move: board, map and both sets. |
| Evaluation.Utility | Submit.py:212-217 | The utility is positive iff 11 x AI pieces > 10 x human pieces. It is positive when only the AI has pieces and never positive when the AI has none. |
| Evaluation.SafeCount | Submit.py:230-244 | The number of safe AI pieces never exceeds the AI's piece count. |
| Evaluation.CountSafeAICheckers | Submit.py:230-244 | The one-pass loop over the AI set counts exactly the AI ids that the rule calls safe, and no more than the AI has. |
| Evaluation.Heuristic | Submit.py:221-226 | The heuristic lies between (ai - human) x 50 + ai and (ai - human) x 50 + 11 x ai. |
| Evaluation.DominanceFails | Submit.py:210-217 | As written, a won game with one AI piece against none is worth 550, while a cutoff position with twelve AI pieces against one human piece is worth at least 562, so a heuristic value outranks a utility. |
| Evaluation.HeuristicRange | Submit.py:221-226 | With at most twelve pieces a side, the heuristic lies in [-600, 732]. |
| Evaluation.DominantUtility | Submit.py:210-217 | With the piece difference weighed at 1000, a won game is worth at least 1050 and a lost one at most -1000; the sign is positive iff 21 x AI pieces > 20 x human pieces. |
| Evaluation.UtilityDominates | Submit.py:210-217 | With the corrected weights, every won game is worth more, and every lost game less, than every cutoff position with at most twelve pieces a side. |
| Evaluation.EvaluationsBounded | Submit.py:212-226 | On a consistent state, both evaluations stay within +-40000, far inside the sentinels that stand for the infinities. |
| Search.MaxValue | Submit.py:66-102 | The function has no contract of its own; Search.MaxValueWindow relates it to minimax and Search.MaxValueBounded bounds it. |
| Search.MinValue | Submit.py:105-135 | The function has no contract of its own; Search.MinValueWindow relates it to minimax and Search.MinValueBounded bounds it. |
| Search.DepthLimit | Submit.py:36-38 | The function has no contract of its own; Search.DepthLimitAfterMove and CheckerGame.ReachableDepthLimit state how it moves and how low it can go. |
| Search.RootLoop | Submit.py:77-97 | The root's value never drops below the running value. The recorded move changes only when the value rises, and then to one of the actions searched. |
| Search.AlphaBetaSearch | Submit.py:40-63 | A move alphaBetaSearch hands back is one of the AI's actions. |
| Search.RootLoopValue | Submit.py:86-90 | Recording bestMove at the root does not change the value maxValue's loop computes. |
| Search.SearchIsMaxValue | Submit.py:40-63 | alphaBetaSearch's value is maxValue at the root window (-1000, 1000). |
| Search.DepthLimitAfterMove | Submit.py:36-38 | After a capture the next search goes one ply deeper; after a simple move the depth limit is unchanged. |
| Search.NextMove | Submit.py:15-32 | Whatever the difficulty, a move getNextMove returns is one of the AI's actions. |
| Search.MaxValueBounded | Submit.py:66-102 | When the game is over or the AI can move, maxValue lies within +-40000. It never returns -infinity. |
| Search.MaxLoopBounded | Submit.py:77-102 | maxValue's loop over a non-empty list of applicable moves returns a value within +-40000. |
| Search.MinValueBounded | Submit.py:105-135 | When the game is over or the human can move, minValue lies within +-40000. |
| Search.MinLoopBounded | Submit.py:116-135 | minValue's loop over a non-empty list of applicable moves returns a value within +-40000. |
| Search.ReplyBounded | Submit.py:82-85 | After any move in a consistent state, the value of the reply (opponent, or the same side when the opponent is stuck) lies within +-40000. The proof uses that when one side cannot move, the game is over or the other side can move, so the turn-skip never hands the move to a side without one. |
| Search.SearchFindsMove | Submit.py:86-90 | In a consistent, unfinished state where the AI can move, alphaBetaSearch with a positive depth records a move. |
| Search.RootLoopFinds | Submit.py:86-90 | The root loop over a non-empty action list, starting from -infinity, always records a move. |
| Search.MaxValueWindow | Submit.py:66-102 | maxValue with window (alpha, beta) meets the window theorem against the minimax value. Inside the window the two are equal; at or below alpha both are at most alpha; at or above beta both are at least beta. |
| Search.MaxLoopWindow | Submit.py:77-98 | maxValue's loop with beta cut-off and alpha raising meets the window theorem against the best minimax value of its actions. |
| Search.MinValueWindow | Submit.py:105-135 | minValue meets the window theorem against the minimax value. |
| Search.MinLoopWindow | Submit.py:116-132 | minValue's loop with alpha cut-off and beta lowering meets the window theorem against the least minimax value of its actions. |
| Search.ReplyWindow | Submit.py:82-85 | The turn-skip choice meets the window theorem against the minimax value of the same choice. |
| Search.SearchMatchesMinimax | Submit.py:40-63 | alphaBetaSearch's value meets the window theorem at (-1000, 1000) against plain minimax at the same depth. Pruning never changes a value that lies inside the root window. |
| Search.RootLoopBest | Submit.py:77-97 | When the root loop's value rises above its start and lies strictly inside the window, the move it records is on the board and the reply after that move has exactly that value. When the loop fails high (Submit.py:94-97), the recorded move is the one that stopped it, and its reply value reaches beta too. |
| Search.SearchMoveAchievesValue | Submit.py:40-63 | When the minimax value lies strictly inside (-1000, 1000), the move alphaBetaSearch returns achieves it: the value of the reply after that move is the root's minimax value. |
| Search.SearchMoveFailsHigh | Submit.py:40-63 | When the minimax value reaches 1000, the move alphaBetaSearch returns is on the board and the minimax value of the reply after it is at least 1000: the move secures the value the root fails high on. |
| PairSearch.Evaluate | AIPlayer.py:194-199 | evaluateState is positive exactly when the AI has more pieces, and never positive when the AI has none. |
| PairSearch.EvaluateBounded | AIPlayer.py:194-199 | On a consistent state, evaluateState lies within +-64, strictly between the sentinels. |
| PairSearch.ResultAsWritten | AIPlayer.py:291-321 | The function has no contract of its own; PairSearch.ResultFailsOnAiCapture and PairSearch.ResultAsWrittenAgrees state when it raises and where it agrees with the corrected result. |
| PairSearch.ResultFailsOnAiCapture | AIPlayer.py:309-319 | As written, result raises on every valid human capture of an AI piece in a consistent state. |
| PairSearch.ResultAsWrittenAgrees | AIPlayer.py:291-321 | As written, result agrees with the corrected result on every applicable move that does not capture an AI piece. |
| PairSearch.ResultRemovesAiCapture | AIPlayer.py:291-297 | The corrected result of a valid human capture removes the jumped id, an AI id, from the AI set and the map, leaves the human set alone, and keeps the state consistent. |
| PairSearch.SearchAsWritten | AIPlayer.py:91-120 | The function has no contract of its own; PairSearch.AsWrittenMoveIsAction, PairSearch.AsWrittenPicksHumanMove and PairSearch.AsWrittenRaises state which moves it returns and when it raises. |
| PairSearch.AsWrittenMoveIsAction | AIPlayer.py:98-120 | A move the search as written returns is one of getActions(maximizingPlayer), the actions of the side named by the flag as written. |
| PairSearch.AsWrittenRaises | AIPlayer.py:98-102 | Opened for the maximising player at a positive depth on an unfinished consistent state where the human has a capture, the search as written raises: its first action is a human capture of an AI piece, and result raises on it (line 319). |
| PairSearch.LoopAsWritten | AIPlayer.py:98-120 | A move the as-written loop reports other than the incoming one is one of the moves it was given. |
| PairSearch.AsWrittenPicksHumanMove | AIPlayer.py:98-108 | As written, a move the maximising search returns is one of the human's actions; it starts on a human piece, never an AI piece. |
| PairSearch.PairMaxLoopMove | AIPlayer.py:99-108 | A move the maximising loop returns is the incoming best move or one of the actions it tried. |
| PairSearch.PairMinLoopMove | AIPlayer.py:111-120 | The same for the minimising loop. |
| PairSearch.PairSearchMoveIsAction | AIPlayer.py:91-120 | A move the search returns is one of the actions of the side it searched for. |
| PairSearch.SearchPicksAiMove | AIPlayer.py:91-108 | With the side fixed, the move handed back for the maximising AI is one of the AI's actions and starts on an AI piece. |
| PairSearch.PairSearch | AIPlayer.py:91-120 | The function has no contract of its own; PairSearch.PairSearchWindow, PairSearch.PairSearchExact and PairSearch.PairSearchMoveAchievesValue state its score and move. |
| PairSearch.PairSearchWindow | AIPlayer.py:91-120 | The pair search's score meets the window theorem against the minimax value of the same strictly alternating game. |
| PairSearch.PairMaxLoopWindow | AIPlayer.py:99-108 | The maximising loop with alpha update and break on alpha >= beta meets the window theorem against the best child minimax value. |
| PairSearch.PairMinLoopWindow | AIPlayer.py:111-120 | The minimising loop with beta update and break meets the window theorem against the least child minimax value. |
| PairSearch.PairSearchRange | AIPlayer.py:91-120 | On a consistent state, the search's score lies within the sentinels for every window. |
| PairSearch.PairMaxLoopRange | AIPlayer.py:99-108 | The maximising loop, started within the sentinels over applicable moves, ends within them. |
| PairSearch.PairMinLoopRange | AIPlayer.py:111-120 | The minimising loop, started within the sentinels over applicable moves, ends within them. |
| PairSearch.PairMinimaxRange | AIPlayer.py:91-120 | On a consistent state, the minimax value of the strictly alternating game lies within the sentinels. |
| PairSearch.PairBestRange | AIPlayer.py:99-120 | Folding child minimax values into an accumulator within the sentinels stays within them. |
| PairSearch.ChildScoreRange | AIPlayer.py:101-102 | The search score of the successor of an applicable move of a consistent state lies within the sentinels, whatever the window. |
| PairSearch.ChildMinimaxRange | AIPlayer.py:101-102 | The minimax value of the successor of an applicable move of a consistent state lies within the sentinels. |
| PairSearch.PairSearchExact | AIPlayer.py:50-56 | On every consistent state, the search opened with the infinite window, as getNextMoveHard does, scores exactly the minimax value, including the sentinel values a side without moves produces. |
| PairSearch.PairMaxLoopBest | AIPlayer.py:99-108 | When the maximising loop's score rises above its start, the move it reports is on the board, and that move's successor has exactly that minimax value below beta and at least beta otherwise; when the score stays, the move is the incoming one. |
| PairSearch.PairRootScores | AIPlayer.py:50-58 | A move the full-window search returns is applicable, and its successor's minimax value is the score below the upper sentinel and at least that sentinel otherwise. |
| PairSearch.PairSearchMoveAchievesValue | AIPlayer.py:50-58 | On a consistent state, the move the full-window search returns achieves the root's minimax value: its successor, with the human to move, has exactly that value. |
| PairSearch.Pick | AIPlayer.py:23-24 | randrange followed by indexing yields an element of the list, and fails iff the list is empty. |
| PairSearch.PickCovers | AIPlayer.py:23-24 | Every element of a non-empty list is the pick for some draw. |
| PairSearch.EasyMove | AIPlayer.py:20-25 | The easy AI plays one of its own actions, and fails exactly when it has none. |
| PairSearch.EasyMoveCovers | AIPlayer.py:20-25 | Every action of the AI is the easy move for some draw. |
| PairSearch.MediumMoveAsWritten | AIPlayer.py:34-41 | As written, the medium AI either raises (None) or returns the fallback; it never returns anything else. |
| PairSearch.MediumNeverMoves | AIPlayer.py:34-41 | As written, the medium AI never plays a move of its own: when the search raises there is no move, and otherwise the move is the fallback, which is off the board and invalid for the AI. The search always raises on an unfinished consistent state where the human has a capture. |
| PairSearch.MediumMove | AIPlayer.py:34-41 | With the search result kept, the medium move is the fallback or one of the AI's actions, and any non-fallback move is valid for the AI. |
| PairSearch.HardMove | AIPlayer.py:50-62 | With the search corrected, a move the hard AI returns is one of the AI's actions and a valid AI move. |
| PairSearch.HardMoveAsWritten | AIPlayer.py:50-62 | As written, a move the hard AI returns is one of the human's actions. |
| PairSearch.HardAsWrittenNeverMoves | AIPlayer.py:50-62 | As written, the hard AI never plays an AI move: a returned move is valid for the human and invalid for the AI, and whenever the human has a capture on an unfinished consistent state the search raises. |
| PairSearch.PlayerMove | AIPlayer.py:11-17 | Difficulty 1 plays the easy move for the draw. Any returned move is the fallback or an AI action, and a non-fallback move is valid for the AI. |
| CheckerGame.IdCellHolds | CheckerGame.py:44-55 | Every starting id is on the board, on the cell initBoard writes it to. |
| CheckerGame.InitCellPlaced | CheckerGame.py:44-55 | Every occupied starting cell holds an id between 1 and 12 in absolute value, and that id's cell is this one. |
| CheckerGame.InitialIds | CheckerGame.py:48-54 | The starting human ids are positive, the AI ids negative, and each side has 12. |
| CheckerGame.InitialPlaces | CheckerGame.py:47-55 | In the starting state, every id sits where the map says, and every occupied cell's id maps back to that cell. |
| CheckerGame.InitialSigns | CheckerGame.py:44-55 | AI pieces start exactly on the dark cells ((row + col) odd) of rows 0-2, and human pieces exactly on those of rows 5-7. |
| CheckerGame.InitialLayout | CheckerGame.py:38-57 | The starting state is consistent: ids -12 .. -1 for the AI and 1 .. 12 for the human, twelve each, placed on the dark cells of their three rows. |
| CheckerGame.PlaceCell | CheckerGame.py:47-55 | One cell of the inner loop: the next id of the side whose rows these are goes on a dark cell, numbered by the set's size plus one. Board, sets and map stay those of the cells already visited. |
| CheckerGame.PlaceCells | CheckerGame.py:46-55 | The inner loop from column j on: given the state initBoard has built before cell (i, j), it ends with the state built through the end of row i. |
| CheckerGame.PlaceRow | CheckerGame.py:45-55 | One pass of the outer loop: rows 0-2 and 5-7 are filled, and rows 3 and 4 stay empty. |
| CheckerGame.InitBoard | CheckerGame.py:38-57 | The two nested loops build exactly the starting state (board, both sets and the map) that InitialLayout describes. |
| CheckerGame.PlayerActions | CheckerGame.py:149-170 | Every move offered to the human is valid for the human and starts on a human piece. |
| CheckerGame.PlayerActionsExactly | CheckerGame.py:149-170 | A move is offered to the human iff it is a valid move of a human piece and is a capture exactly when one exists. |
| CheckerGame.ChangePlayerTurn | CheckerGame.py:91-95 | The board is untouched. The turn passes to the other side iff that side can continue. |
| CheckerGame.TurnGoesToMobileSide | CheckerGame.py:91-95 | While the game is not over, the side whose turn it becomes can move. |
| CheckerGame.IsGameOver | CheckerGame.py:231-235 | The predicate has no contract of its own; CheckerGame.GameOverIffNoActions states when it holds. |
| CheckerGame.GameOverIffNoActions | CheckerGame.py:231-235 | isGameOver holds iff a side has no pieces or neither side has an action. |
| CheckerGame.MakeMove | CheckerGame.py:128-146 | The function has no contract of its own; CheckerGame.MakeMoveEffect states what it does to a consistent state. |
| CheckerGame.MakeMoveEffect | CheckerGame.py:128-146 | For a valid move in a consistent state, the piece lands on the destination, its map entry follows it, and the origin empties. On a jump, the jumped piece belongs to the other side and leaves its set, the board and the map, and the mover's set is unchanged. Otherwise both sets are unchanged. The result is consistent. |
| CheckerGame.MoveRequest | CheckerGame.py:98-106 | move never changes whose turn it is. It ignores a move invalid for the side to play, and a human move not among the offered actions. Otherwise it applies makeMove. |
| CheckerGame.HumanMustCapture | CheckerGame.py:102-104 | When the human has a capture, any human move that changes the game is a valid capture. |
| CheckerGame.InitialReachable | CheckerGame.py:38-57 | The starting game is reachable: consistent, with at most 12 pieces a side. |
| CheckerGame.MoveRequestReachable | CheckerGame.py:98-106 | move keeps the game reachable; no piece is ever added. |
| CheckerGame.ChangePlayerTurnReachable | CheckerGame.py:91-95 | changePlayerTurn keeps the game reachable. |
| CheckerGame.ReachableDepthLimit | AIPlayer.py:66-68 | In every reachable game the dynamic depth limit is at least 2, so the searches' depth is a natural number. |
| CheckerGame.MediumAsWrittenStalls | CheckerGame.py:121-124 | With getNextMoveMedium as written, the AI never changes the game on its turn: either the search raises before a move is requested (always so when the human has a capture and the game is not over), or move ignores the fallback and leaves the game unchanged. |

## Left out

- The GUI (BoardGUI), the threads and lock, the boardUpdated flags, console
  input (whoGoFirst, getDifficulty), printing, the search statistics and
  timing, getGameSummary and shutdown. These are I/O and concurrency.
- CheckerGame.next and AIMakeMove are not modelled as procedures. They only
  sequence the modelled pieces (IsGameOver, ChangePlayerTurn, PlayerMove,
  MoveRequest) across threads.
- convert_to_king (Submit.py:694-697) and its call in makeMove only print a
  message. No piece ever changes, so the model has no kings.
- random.randrange is the parameter `index` of EasyMove and PlayerMove.
- Python iterates the id sets in an unspecified order. The model lists moves
  by board cell in row-major order. On a consistent state (every state the
  search reaches from one) the set of actions is the same. The
  search keeps the first strictly better move, so among equal-valued moves
  the one chosen may differ. At the root, a move whose value reaches beta
  (1000 in Submit.py) stops the loop at once, so both the move returned and
  the value reported can depend on the iteration order, not only on ties.
- The infinities (math.inf, float('inf')) are the sentinels -1_000_000 and
  1_000_000. EvaluationsBounded and EvaluateBounded show that no evaluation
  comes near them.
- AIPlayer.py's resetAction (lines 323-341) is never called by the pair
  search, since result works on a copy. Its `add(-captured)` is not
  modelled. Submit.py's resetAction is `Rules.Reset`.
- AIPlayer.py's maxValue and minValue (lines 123-192) are not modelled.
  Nothing calls them (its search is alphaBetaSearch), and they read
  attributes (depthLimit, the statistics counters) that this class never
  sets. Their shape matches Submit.py's, but they would evaluate with
  AIPlayer.py's computeHeuristic (line 257, the Chebyshev safety rule) and
  move with its applyAction/resetAction, which negate AI ids.
- Rules.Apply: requires only a move on the board. On a jump over an empty
  midpoint, or over an id missing from its side's set, the code raises
  KeyError at Submit.py:295/297; the model's Remove subtracts the id from
  that set, which leaves the set unchanged, and drops the id from the
  position map. MakeMoveEffect shows that a valid move in a consistent
  state never reaches those paths.
- Search.NextMove: requires a depth limit >= 0 when the dynamic depth is
  used. With more than 26 pieces the code would search with a negative
  depth that never reaches 0. ReachableDepthLimit shows that every
  reachable game has a limit of at least 2.
- PairSearch.MediumMove: requires a depth limit >= 0, for the same reason.
  It models getNextMoveMedium with the search result kept and the search
  corrected; MediumMoveAsWritten is the code as written.
- PairSearch.MediumMoveAsWritten: requires a depth limit >= 0, for the same
  reason.
- PairSearch.HardMove: models getNextMoveHard on top of the corrected search
  (the AI's own moves, the corrected result), not the search as written;
  HardMoveAsWritten is the code as written. It requires a depth limit >= 0,
  for the same reason. The exception raised when no move is found is `None`.
- PairSearch.HardMoveAsWritten: requires a depth limit >= 0, for the same
  reason.
- PairSearch.PlayerMove: models getNextMove on top of the corrected medium
  and hard moves, not the code as written; MediumMoveAsWritten and
  HardMoveAsWritten give those branches as written. It requires a depth
  limit >= 0 unless difficulty is 1, for the same reason.
- CheckerGame.py's getDifficulty accepts only 1 or 2, so AIPlayer.py's hard
  branch is reachable only by other callers. PlayerMove models all three
  branches.
- The `Search` model keeps Submit.py's utility weights as written
  (`Evaluation.Utility`), since it models what the search computes;
  `Evaluation.DominantUtility` is the corrected weighting and
  `Evaluation.UtilityDominates` proves the dominance the comment intends.
- Submit.py's safety rule compares the column with `len(board[0])`, which is
  8, a column no cell has. It is modelled as written (`RowRule`).

## Findings

| source | as written | input that shows it | evidently intended | confidence | as-written member | corrected member |
|---|---|---|---|---|---|---|
| AIPlayer.py:319 | On a capture of an AI piece, applyAction removes `-captured`, a positive id, from the AI set, so set.remove raises KeyError | any consistent state where a human piece can jump an AI piece, e.g. a human piece on (5, 2), an AI piece on (4, 3), (3, 4) empty | remove `captured` itself, as Submit.py:297 does | not executed | PairSearch.ResultFailsOnAiCapture | PairSearch.ResultRemovesAiCapture |
| AIPlayer.py:100 | The maximising branch enumerates `getActions(maximizingPlayer)`, i.e. getActions(True), the human's moves; the minimising branch enumerates the AI's | the starting layout at any depth >= 1: every move the root can return starts on a human piece in row 5 | the maximising AI searches its own moves, getActions(False), and the minimiser the human's | not executed | PairSearch.AsWrittenPicksHumanMove | PairSearch.SearchPicksAiMove |
| AIPlayer.py:34-41 | getNextMoveMedium discards the search's result and returns self.bestMove, which the pair search never assigns. The search raises whenever the human has a capture (see the row for line 319); otherwise the method returns the fallback (-1, -1, -1, -1), which move rejects. Either way the AI never moves | any unfinished state with difficulty 2 | return the move the search found | not executed | PairSearch.MediumNeverMoves | PairSearch.MediumMove |
| Submit.py:210-217 | The comment says the utility weights make a utility preferred over heuristic values, but the difference is weighed at 500 against the heuristic's 50 plus up to 11 per AI piece, so a cutoff position can outrank a won game | a won game with one AI piece and no human piece (utility 550) against a cutoff position with twelve AI pieces and one human piece (heuristic at least 562) | weigh the difference so that every win outranks, and every loss ranks below, every heuristic value, e.g. 1000 per piece | not executed | Evaluation.DominanceFails | Evaluation.UtilityDominates |
