/**
 * The authoritative game of CheckerGame.py: the initial layout, the move
 * request that filters the human's moves, makeMove, turn switching and the
 * game-over test. The rules themselves (isValidMove, the move list, the
 * mobility tests) are the ones the search state uses: the code of both is
 * the same.
 */
module CheckerGame {
  import opened Board
  import opened Rules
  import opened Search
  import opened PairSearch

  /** The game fields the rules read: the board state and whether it is the human player's turn. */
  datatype GameState = GameState(st: State, playerTurn: bool)

  // ---------------------------------------------------------------------------
  // initBoard
  // ---------------------------------------------------------------------------

  /** The cells initBoard fills: (i + j) odd. */
  predicate Dark(i: int, j: int) {
    (i + j) % 2 == 1
  }

  /** The pieces each side starts with. */
  const PiecesPerSide: int := 12

  /**
   * The id initBoard writes into cell (i, j): the AI's ids -1, -2, ... on the
   * dark cells of rows 0-2 and the human's ids 1, 2, ... on those of rows 5-7,
   * both counted in row-major order, four per row.
   */
  function InitCell(i: int, j: int): int {
    if !Dark(i, j) then 0
    else if i < 3 then -(4 * i + j / 2 + 1)
    else if i > 4 then 4 * (i - 5) + j / 2 + 1
    else 0
  }

  /** The cell of a starting id: row and rank within the row from its number, column from the row's parity. */
  function IdCell(id: int): Pos {
    var k := Abs(id) - 1;
    var row := if id < 0 then k / 4 else 5 + k / 4;
    Pos(row, 2 * (k % 4) + (if row % 2 == 0 then 1 else 0))
  }

  predicate Between(lo: int, x: int, hi: int) {
    lo <= x < hi
  }

  /** The integers lo .. hi - 1. */
  function Interval(lo: int, hi: int): set<int> {
    set x | lo <= x < hi && Between(lo, x, hi)
  }

  lemma IntervalUp(lo: int, hi: int)
    requires lo <= hi
    ensures Interval(lo, hi + 1) == Interval(lo, hi) + {hi}
  {
    forall x ensures x in Interval(lo, hi + 1) <==> x in Interval(lo, hi) + {hi} {
      assert x in Interval(lo, hi + 1) <==> Between(lo, x, hi + 1);
      assert x in Interval(lo, hi) <==> Between(lo, x, hi);
    }
  }

  lemma IntervalDown(lo: int, lo': int, hi: int)
    requires lo < hi && lo' == lo + 1
    ensures Interval(lo, hi) == Interval(lo', hi) + {lo}
  {
    forall x ensures x in Interval(lo, hi) <==> x in Interval(lo', hi) + {lo} {
      assert x in Interval(lo, hi) <==> Between(lo, x, hi);
      assert x in Interval(lo', hi) <==> Between(lo', x, hi);
    }
  }

  lemma {:induction false} IntervalCard(lo: int, hi: int)
    requires lo <= hi
    ensures |Interval(lo, hi)| == hi - lo
    decreases hi - lo
  {
    if lo < hi {
      IntervalCard(lo, hi - 1);
      IntervalUp(lo, hi - 1);
      assert hi - 1 !in Interval(lo, hi - 1);
    }
  }

  function InitialBoard(): Grid {
    seq(Size, i => seq(Size, j => InitCell(i, j)))
  }

  function InitialState(): State {
    var human := Interval(1, PiecesPerSide + 1);
    var ai := Interval(-PiecesPerSide, 0);
    State(InitialBoard(), human, ai, map id | id in human + ai :: IdCell(id))
  }

  /** Every starting id sits on the cell IdCell gives it. */
  lemma IdCellHolds(id: int)
    requires 1 <= Abs(id) <= PiecesPerSide
    ensures OnBoard(IdCell(id)) && InitCell(IdCell(id).row, IdCell(id).col) == id
  {
  }

  /** Every occupied starting cell holds the id whose cell it is. */
  lemma InitCellPlaced(i: int, j: int)
    requires InRange(i) && InRange(j) && InitCell(i, j) != 0
    ensures 1 <= Abs(InitCell(i, j)) <= PiecesPerSide && IdCell(InitCell(i, j)) == Pos(i, j)
  {
  }

  /** The starting sets: ids -12 .. -1 for the AI and 1 .. 12 for the human. */
  lemma InitialIds()
    ensures var s := InitialState();
      && (forall id :: id in s.human ==> id > 0)
      && (forall id :: id in s.ai ==> id < 0)
      && |s.ai| == PiecesPerSide && |s.human| == PiecesPerSide
  {
    IntervalCard(-PiecesPerSide, 0);
    IntervalCard(1, PiecesPerSide + 1);
  }

  /** Every starting id sits on its cell, and every occupied starting cell holds its id. */
  lemma InitialPlaces()
    ensures var s := InitialState();
      && (forall id :: id in s.pos ==> OnBoard(s.pos[id]) && At(s.board, s.pos[id]) == id)
      && (forall p :: OnBoard(p) && At(s.board, p) != 0 ==> At(s.board, p) in s.pos && s.pos[At(s.board, p)] == p)
  {
    var s := InitialState();
    forall id | id in s.pos
      ensures OnBoard(s.pos[id]) && At(s.board, s.pos[id]) == id
    {
      IdCellHolds(id);
    }
    forall p | OnBoard(p) && At(s.board, p) != 0
      ensures At(s.board, p) in s.pos && s.pos[At(s.board, p)] == p
    {
      InitCellPlaced(p.row, p.col);
    }
  }

  /**
   * initBoard: twelve AI pieces -1 .. -12 on the dark cells of rows 0-2,
   * twelve human pieces 1 .. 12 on those of rows 5-7, and board, map and sets
   * in agreement.
   */
  lemma InitialLayout()
    ensures var s := InitialState();
      && Consistent(s)
      && s.ai == Interval(-PiecesPerSide, 0) && |s.ai| == PiecesPerSide
      && s.human == Interval(1, PiecesPerSide + 1) && |s.human| == PiecesPerSide
      && (forall p :: OnBoard(p) ==>
            (At(s.board, p) < 0 <==> Dark(p.row, p.col) && p.row < 3)
            && (At(s.board, p) > 0 <==> Dark(p.row, p.col) && p.row > 4))
  {
    InitialIds();
    InitialPlaces();
    InitialKeys();
    InitialSigns();
  }

  lemma InitialKeys()
    ensures InitialState().pos.Keys == InitialState().human + InitialState().ai
  {
  }

  /** AI pieces start on the dark cells of rows 0-2, human pieces on those of rows 5-7. */
  lemma InitialSigns()
    ensures forall p :: OnBoard(p) ==>
      (At(InitialBoard(), p) < 0 <==> Dark(p.row, p.col) && p.row < 3)
      && (At(InitialBoard(), p) > 0 <==> Dark(p.row, p.col) && p.row > 4)
  {
  }

  /** The dark cells of row i left of column j. */
  function DarkBefore(i: int, j: int): int {
    (j + i % 2) / 2
  }

  /** The AI pieces initBoard has placed before it reaches cell (i, j). */
  function AiBefore(i: int, j: int): int {
    if i >= 3 then PiecesPerSide else 4 * i + DarkBefore(i, j)
  }

  /** The human pieces initBoard has placed before it reaches cell (i, j). */
  function HumanBefore(i: int, j: int): int {
    if i < 5 then 0 else 4 * (i - 5) + DarkBefore(i, j)
  }

  /** Cell (r, c) comes before cell (i, j) in row-major order. */
  predicate Before(r: int, c: int, i: int, j: int) {
    r < i || (r == i && c < j)
  }

  /** The cells initBoard has written when it reaches cell (i, j); the rest are still 0. */
  ghost predicate BoardUpTo(board: Grid, i: int, j: int) {
    forall r, c :: 0 <= r < Size && 0 <= c < Size ==> board[r][c] == if Before(r, c, i, j) then InitCell(r, c) else 0
  }

  /** The sets and the map initBoard has built holding `na` AI and `nh` human pieces. */
  ghost predicate PiecesUpTo(human: set<int>, ai: set<int>, pos: map<int, Pos>, nh: int, na: int) {
    IdsUpTo(human, ai, nh, na) && PosFollows(human, ai, pos)
  }

  /** The AI ids -1 .. -na and the human ids 1 .. nh. */
  ghost predicate IdsUpTo(human: set<int>, ai: set<int>, nh: int, na: int) {
    && ai == Interval(-na, 0) && |ai| == na
    && human == Interval(1, nh + 1) && |human| == nh
  }

  /** The map has exactly the placed ids as keys, each on its starting cell. */
  ghost predicate PosFollows(human: set<int>, ai: set<int>, pos: map<int, Pos>) {
    && pos.Keys == human + ai
    && (forall id :: id in pos ==> pos[id] == IdCell(id))
  }

  ghost predicate BuiltUpTo(board: Grid, human: set<int>, ai: set<int>, pos: map<int, Pos>, i: int, j: int) {
    BoardUpTo(board, i, j) && PiecesUpTo(human, ai, pos, HumanBefore(i, j), AiBefore(i, j))
  }

  /** Writing cell (i, j) moves the board one cell on. */
  lemma BoardStep(board: Grid, i: int, j: int, v: int)
    requires InRange(i) && InRange(j) && BoardUpTo(board, i, j) && v == InitCell(i, j)
    ensures BoardUpTo(Put(board, Pos(i, j), v), i, j + 1)
  {
  }

  /** A cell initBoard leaves empty moves the board one cell on unchanged. */
  lemma BoardSkip(board: Grid, i: int, j: int)
    requires InRange(i) && InRange(j) && BoardUpTo(board, i, j) && InitCell(i, j) == 0
    ensures BoardUpTo(board, i, j + 1)
  {
  }

  /** Counting: cell (i, j) holds the next AI id exactly when it is dark and in rows 0-2. */
  lemma CountStepAi(i: int, j: int)
    requires InRange(i) && InRange(j)
    ensures AiBefore(i, j + 1) == AiBefore(i, j) + if Dark(i, j) && i < 3 then 1 else 0
    ensures Dark(i, j) && i < 3 ==> InitCell(i, j) == -(AiBefore(i, j) + 1)
  {
  }

  /** Counting: cell (i, j) holds the next human id exactly when it is dark and in rows 5-7. */
  lemma CountStepHuman(i: int, j: int)
    requires InRange(i) && InRange(j)
    ensures HumanBefore(i, j + 1) == HumanBefore(i, j) + if Dark(i, j) && i > 4 then 1 else 0
    ensures Dark(i, j) && i > 4 ==> InitCell(i, j) == HumanBefore(i, j) + 1
    ensures !Dark(i, j) ==> InitCell(i, j) == 0
  {
  }


  /** Adding the id `id` on its starting cell keeps the map in step with the sets. */
  lemma PosStep(human: set<int>, ai: set<int>, pos: map<int, Pos>, human': set<int>, ai': set<int>, id: int, p: Pos)
    requires PosFollows(human, ai, pos) && IdCell(id) == p
    requires human' + ai' == human + ai + {id}
    ensures PosFollows(human', ai', pos[id := p])
  {
    var pos' := pos[id := p];
    forall k | k in pos' ensures pos'[k] == IdCell(k) {
      if k != id {
        assert k in pos;
      }
    }
  }

  /** Adding the next AI id `id` = -(na + 1). */
  lemma AiIdsStep(human: set<int>, ai: set<int>, nh: int, na: int, nh': int, na': int, id: int)
    requires 0 <= na && IdsUpTo(human, ai, nh, na)
    requires id == -(na + 1) && nh' == nh && na' == na + 1
    ensures IdsUpTo(human, ai + {id}, nh', na')
  {
    IntervalDown(-na', -na, 0);
    IntervalCard(-na', 0);
  }

  /** Adding the next human id `id` = nh + 1. */
  lemma HumanIdsStep(human: set<int>, ai: set<int>, nh: int, na: int, nh': int, na': int, id: int)
    requires 0 <= nh && IdsUpTo(human, ai, nh, na)
    requires id == nh + 1 && nh' == nh + 1 && na' == na
    ensures IdsUpTo(human + {id}, ai, nh', na')
  {
    IntervalUp(1, id);
    IntervalCard(1, nh' + 1);
  }

  /** Adding the next AI id `id` = -(na + 1) on its cell. */
  lemma AiStep(human: set<int>, ai: set<int>, pos: map<int, Pos>, nh: int, na: int, nh': int, na': int, id: int, p: Pos)
    requires 0 <= na && PiecesUpTo(human, ai, pos, nh, na)
    requires id == -(na + 1) && nh' == nh && na' == na + 1 && IdCell(id) == p
    ensures PiecesUpTo(human, ai + {id}, pos[id := p], nh', na')
  {
    AiIdsStep(human, ai, nh, na, nh', na', id);
    PosStep(human, ai, pos, human, ai + {id}, id, p);
  }

  /** Adding the next human id `id` = nh + 1 on its cell. */
  lemma HumanStep(human: set<int>, ai: set<int>, pos: map<int, Pos>, nh: int, na: int, nh': int, na': int, id: int, p: Pos)
    requires 0 <= nh && PiecesUpTo(human, ai, pos, nh, na)
    requires id == nh + 1 && nh' == nh + 1 && na' == na && IdCell(id) == p
    ensures PiecesUpTo(human + {id}, ai, pos[id := p], nh', na')
  {
    HumanIdsStep(human, ai, nh, na, nh', na', id);
    PosStep(human, ai, pos, human + {id}, ai, id, p);
  }

  lemma PiecesSkip(human: set<int>, ai: set<int>, pos: map<int, Pos>, nh: int, na: int, nh': int, na': int)
    requires PiecesUpTo(human, ai, pos, nh, na) && nh' == nh && na' == na
    ensures PiecesUpTo(human, ai, pos, nh', na')
  {
  }

  /** A finished row, or an untouched middle row, leaves the board at the start of the next row. */
  lemma BoardNextRow(board: Grid, i: int, j: int)
    requires InRange(i) && BoardUpTo(board, i, j)
    requires j == if i < 3 || i > 4 then Size else 0
    ensures BoardUpTo(board, i + 1, 0)
  {
  }

  /** The counts at the end of a row are those at the start of the next. */
  lemma CountNextRow(i: int, j: int)
    requires InRange(i) && j == if i < 3 || i > 4 then Size else 0
    ensures HumanBefore(i + 1, 0) == HumanBefore(i, j) && AiBefore(i + 1, 0) == AiBefore(i, j)
  {
  }

  /** The end of a row is the start of the next; rows 3 and 4 stay empty. */
  lemma InitNextRow(board: Grid, human: set<int>, ai: set<int>, pos: map<int, Pos>, i: int, j: int)
    requires InRange(i) && j == if i < 3 || i > 4 then Size else 0
    requires BuiltUpTo(board, human, ai, pos, i, j)
    ensures BuiltUpTo(board, human, ai, pos, i + 1, 0)
  {
    BoardNextRow(board, i, j);
    CountNextRow(i, j);
    PiecesSkip(human, ai, pos, HumanBefore(i, j), AiBefore(i, j), HumanBefore(i + 1, 0), AiBefore(i + 1, 0));
  }

  /** Before the first cell nothing is placed. */
  lemma InitStart()
    ensures BuiltUpTo(EmptyGrid(), {}, {}, map[], 0, 0)
  {
    IntervalCard(0, 0);
    IntervalCard(1, 1);
  }

  /** One cell of initBoard's inner loop: a dark cell of a side's rows gets that side's next id. */
  method PlaceCell(board: Grid, human: set<int>, ai: set<int>, pos: map<int, Pos>, i: int, j: int)
    returns (board': Grid, human': set<int>, ai': set<int>, pos': map<int, Pos>)
    requires InRange(i) && InRange(j)
    requires BuiltUpTo(board, human, ai, pos, i, j)
    ensures BuiltUpTo(board', human', ai', pos', i, j + 1)
  {
    CountStepAi(i, j);
    CountStepHuman(i, j);
    ghost var nh, na := HumanBefore(i, j), AiBefore(i, j);
    board', human', ai', pos' := board, human, ai, pos;
    if Dark(i, j) && i < 3 {
      InitCellPlaced(i, j);
      var id := -(|ai| + 1);
      BoardStep(board, i, j, id);
      AiStep(human, ai, pos, nh, na, HumanBefore(i, j + 1), AiBefore(i, j + 1), id, Pos(i, j));
      board' := Put(board, Pos(i, j), id);
      ai' := ai + {id};
      pos' := pos[id := Pos(i, j)];
    } else if Dark(i, j) && i > 4 {
      InitCellPlaced(i, j);
      var id := |human| + 1;
      BoardStep(board, i, j, id);
      HumanStep(human, ai, pos, nh, na, HumanBefore(i, j + 1), AiBefore(i, j + 1), id, Pos(i, j));
      board' := Put(board, Pos(i, j), id);
      human' := human + {id};
      pos' := pos[id := Pos(i, j)];
    } else {
      BoardSkip(board, i, j);
      PiecesSkip(human, ai, pos, nh, na, HumanBefore(i, j + 1), AiBefore(i, j + 1));
    }
  }

  /** Once every row is done, the state built is the starting state. */
  lemma InitDone(board: Grid, human: set<int>, ai: set<int>, pos: map<int, Pos>)
    requires BuiltUpTo(board, human, ai, pos, Size, 0)
    ensures State(board, human, ai, pos) == InitialState()
  {
    InitBoardDone(board);
    InitIdsDone(human, ai, HumanBefore(Size, 0), AiBefore(Size, 0));
    InitPosDone(human, ai, pos);
  }

  lemma InitBoardDone(board: Grid)
    requires BoardUpTo(board, Size, 0)
    ensures board == InitialBoard()
  {
    GridExt(board, InitialBoard());
  }

  lemma InitIdsDone(human: set<int>, ai: set<int>, nh: int, na: int)
    requires IdsUpTo(human, ai, nh, na) && nh == HumanBefore(Size, 0) && na == AiBefore(Size, 0)
    ensures human == InitialState().human && ai == InitialState().ai
  {
  }

  lemma InitPosDone(human: set<int>, ai: set<int>, pos: map<int, Pos>)
    requires PosFollows(human, ai, pos)
    requires human == InitialState().human && ai == InitialState().ai
    ensures pos == InitialState().pos
  {
  }

  /** The rest of a row of initBoard, from column j on. */
  method PlaceCells(board: Grid, human: set<int>, ai: set<int>, pos: map<int, Pos>, i: int, j: int)
    returns (board': Grid, human': set<int>, ai': set<int>, pos': map<int, Pos>)
    requires InRange(i) && 0 <= j <= Size
    requires BuiltUpTo(board, human, ai, pos, i, j)
    ensures BuiltUpTo(board', human', ai', pos', i, Size)
    decreases Size - j
  {
    if j == Size {
      board', human', ai', pos' := board, human, ai, pos;
    } else {
      var b, h, a, p := PlaceCell(board, human, ai, pos, i, j);
      board', human', ai', pos' := PlaceCells(b, h, a, p, i, j + 1);
    }
  }

  /** One row of initBoard: the columns of a row that starts pieces, none of rows 3 and 4. */
  method PlaceRow(board: Grid, human: set<int>, ai: set<int>, pos: map<int, Pos>, i: int)
    returns (board': Grid, human': set<int>, ai': set<int>, pos': map<int, Pos>)
    requires InRange(i)
    requires BuiltUpTo(board, human, ai, pos, i, 0)
    ensures BuiltUpTo(board', human', ai', pos', i + 1, 0)
  {
    if i < 3 || i > 4 {
      board', human', ai', pos' := PlaceCells(board, human, ai, pos, i, 0);
      InitNextRow(board', human', ai', pos', i, Size);
    } else {
      board', human', ai', pos' := board, human, ai, pos;
      InitNextRow(board', human', ai', pos', i, 0);
    }
  }

  /** initBoard: the two nested loops over the rows and columns, numbering each side's pieces by its set's size. */
  method InitBoard() returns (s: State)
    ensures s == InitialState()
  {
    var board: Grid := EmptyGrid();
    var human: set<int> := {};
    var ai: set<int> := {};
    var pos: map<int, Pos> := map[];
    InitStart();
    var i := 0;
    while i < Size
      invariant 0 <= i <= Size
      invariant BuiltUpTo(board, human, ai, pos, i, 0)
    {
      board, human, ai, pos := PlaceRow(board, human, ai, pos, i);
      i := i + 1;
    }
    InitDone(board, human, ai, pos);
    s := State(board, human, ai, pos);
  }

  // ---------------------------------------------------------------------------
  // Turns, moves and the end of the game
  // ---------------------------------------------------------------------------

  /** getPossiblePlayerActions: the human's actions, with captures mandatory. */
  function PlayerActions(g: GameState): (r: seq<Move>)
    ensures forall m :: m in r ==> IsValidMove(g.st, m, true) && At(g.st.board, m.From()) in g.st.human
  {
    Actions(g.st, true)
  }

  /** A move is offered to the human iff it is a valid move of a human piece and a capture exactly when one exists. */
  lemma PlayerActionsExactly(g: GameState, m: Move)
    ensures m in PlayerActions(g) <==> Candidate(g.st, true, m) && (m.IsJump() <==> CaptureAvailable(g.st, true))
  {
    ActionsExactly(g.st, true, m);
  }

  /**
   * changePlayerTurn: the turn passes to the other side only when that side
   * can continue; otherwise the same side moves again.
   */
  function ChangePlayerTurn(g: GameState): (r: GameState)
    ensures r.st == g.st
    ensures r.playerTurn != g.playerTurn <==> CanContinue(g.st, !g.playerTurn)
  {
    if g.playerTurn && CanContinue(g.st, false) then g.(playerTurn := false)
    else if !g.playerTurn && CanContinue(g.st, true) then g.(playerTurn := true)
    else g
  }

  /** While the game is not over, the side whose turn it becomes can move. */
  lemma TurnGoesToMobileSide(g: GameState)
    requires !IsGameOver(g)
    ensures CanContinue(g.st, ChangePlayerTurn(g).playerTurn)
  {
  }

  /** isGameOver: a side has no pieces, or neither side can continue. */
  predicate IsGameOver(g: GameState) {
    Terminal(g.st)
  }

  /** The game is over iff a side has no pieces or neither side has an action. */
  lemma GameOverIffNoActions(g: GameState)
    requires Consistent(g.st)
    ensures IsGameOver(g) <==> g.st.human == {} || g.st.ai == {} || (PlayerActions(g) == [] && Actions(g.st, false) == [])
  {
    TerminalIffNoActions(g.st);
  }

  /** makeMove: the piece moves and, on a jump, the jumped piece leaves its side's set, the board and the map. */
  function MakeMove(s: State, m: Move): State
    requires m.InBounds()
  {
    Apply(s, m).state
  }

  /**
   * A valid move of either side: the piece lands on the destination and its
   * map entry follows it, the origin empties, a jumped piece belongs to the
   * other side and is gone, and board, map and sets still agree.
   */
  lemma MakeMoveEffect(s: State, m: Move, human: bool)
    requires Consistent(s) && IsValidMove(s, m, human)
    ensures m.InBounds()
    ensures var r := MakeMove(s, m);
      && Consistent(r)
      && At(r.board, m.To()) == At(s.board, m.From()) && At(r.board, m.From()) == 0
      && r.pos[At(s.board, m.From())] == m.To()
      && (m.IsJump() ==>
            && At(s.board, m.Mid()) in Side(s, !human)
            && Side(r, !human) == Side(s, !human) - {At(s.board, m.Mid())}
            && Side(r, human) == Side(s, human)
            && At(r.board, m.Mid()) == 0 && At(s.board, m.Mid()) !in r.pos)
      && (!m.IsJump() ==> r.human == s.human && r.ai == s.ai)
  {
    ValidMoveRule(s, m, human);
    ValidIsApplicable(s, m, human);
    ApplyConsistent(s, m);
    ApplyMovesPiece(s, m);
    ApplyRemovesCaptured(s, m);
    if m.IsJump() {
      CellSide(s, m.Mid());
    }
  }

  /**
   * move: a move invalid for the side to play is ignored, and so is a human
   * move that is not among the offered actions (so captures are mandatory for
   * the human); otherwise the move is made. Only the mover's validity is
   * checked for the AI. The turn changes later, in next.
   */
  function MoveRequest(g: GameState, m: Move): (r: GameState)
    ensures r.playerTurn == g.playerTurn
    ensures !IsValidMove(g.st, m, g.playerTurn) ==> r == g
    ensures g.playerTurn && m !in PlayerActions(g) ==> r == g
    ensures IsValidMove(g.st, m, g.playerTurn) && (g.playerTurn ==> m in PlayerActions(g)) ==>
      m.InBounds() && r.st == MakeMove(g.st, m)
  {
    if !IsValidMove(g.st, m, g.playerTurn) then g
    else if g.playerTurn && m !in PlayerActions(g) then g
    else
      ValidMoveRule(g.st, m, g.playerTurn);
      GameState(MakeMove(g.st, m), g.playerTurn)
  }

  /** A human move that changes the game is a capture whenever a capture was available. */
  lemma HumanMustCapture(g: GameState, m: Move)
    requires g.playerTurn && CaptureAvailable(g.st, true)
    requires MoveRequest(g, m) != g
    ensures m.IsJump() && IsValidMove(g.st, m, true)
  {
    PlayerActionsExactly(g, m);
  }

  /**
   * The states the game reaches: board, map and sets agree and neither side
   * has more than its starting pieces.
   */
  ghost predicate Reachable(g: GameState) {
    Consistent(g.st) && |g.st.human| <= PiecesPerSide && |g.st.ai| <= PiecesPerSide
  }

  lemma InitialReachable(playerTurn: bool)
    ensures Reachable(GameState(InitialState(), playerTurn))
  {
    InitialLayout();
  }

  /** move keeps the game reachable: no piece is ever added. */
  lemma MoveRequestReachable(g: GameState, m: Move)
    requires Reachable(g)
    ensures Reachable(MoveRequest(g, m))
  {
    if IsValidMove(g.st, m, g.playerTurn) && (g.playerTurn ==> m in PlayerActions(g)) {
      MakeMoveEffect(g.st, m, g.playerTurn);
      var r := MakeMove(g.st, m);
      SubsetCard(r.human, g.st.human);
      SubsetCard(r.ai, g.st.ai);
    }
  }

  lemma ChangePlayerTurnReachable(g: GameState)
    requires Reachable(g)
    ensures Reachable(ChangePlayerTurn(g))
  {
  }

  /** On a reachable state the dynamic depth limit is at least 2, so the searches' depth is a natural number. */
  lemma ReachableDepthLimit(g: GameState)
    requires Reachable(g)
    ensures DepthLimit(g.st) >= 2
  {
  }

  /**
   * With getNextMoveMedium as written, the AI never moves on its turn:
   * either the search raises before a move is requested (always so when the
   * human has a capture), or move ignores the fallback it returns and the
   * game does not change.
   */
  lemma MediumAsWrittenStalls(g: GameState)
    requires !g.playerTurn && Reachable(g)
    ensures MediumMoveAsWritten(g.st).Some? ==> MoveRequest(g, MediumMoveAsWritten(g.st).value) == g
    ensures !IsGameOver(g) && CaptureAvailable(g.st, true) ==> MediumMoveAsWritten(g.st).None?
  {
    MediumNeverMoves(g.st);
  }
}
