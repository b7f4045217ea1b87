/**
 * The rules engine of the search state (AIGameState): move validity, move
 * enumeration with mandatory capture, mobility and terminal tests, and the
 * reversible apply/undo of one move.
 *
 * Direction as the code has it: human pieces move toward row 0 (row delta -1,
 * or -2 when jumping), AI pieces toward row 7 (+1 / +2). Kings do not exist.
 */
module Rules {
  import opened Board

  function Abs(x: int): nat {
    if x < 0 then -x else x
  }

  /** The row step of a side's simple move. */
  function Forward(human: bool): int {
    if human then -1 else 1
  }

  /** A one-row diagonal step in the side's direction. */
  predicate SimpleShape(m: Move, human: bool) {
    m.toRow - m.fromRow == Forward(human) && Abs(m.toCol - m.fromCol) == 1
  }

  /** A two-row diagonal jump in the side's direction. */
  predicate JumpShape(m: Move, human: bool) {
    m.toRow - m.fromRow == 2 * Forward(human) && Abs(m.toCol - m.fromCol) == 2
  }

  /**
   * The legality rule in one statement: the move stays on the board, leaves an
   * occupied cell for an empty one, and is either a forward diagonal step or a
   * forward diagonal jump over an opposing piece on the midpoint cell.
   */
  predicate Legal(s: State, m: Move, human: bool) {
    && m.InBounds()
    && At(s.board, m.From()) != 0
    && At(s.board, m.To()) == 0
    && (SimpleShape(m, human) || (JumpShape(m, human) && Owns(!human, At(s.board, m.Mid()))))
  }

  /**
   * isValidMove: the bounds check, the occupancy checks, then one branch per
   * side, with the jumped cell written as the per-direction offset from the
   * destination; every other row delta is refused.
   */
  predicate IsValidMove(s: State, m: Move, human: bool) {
    var (oldrow, oldcol, row, col) := (m.fromRow, m.fromCol, m.toRow, m.toCol);
    if !(InRange(oldrow) && InRange(oldcol) && InRange(row) && InRange(col)) then false
    else if s.board[oldrow][oldcol] == 0 then false
    else if s.board[row][col] != 0 then false
    else if human then
      if row - oldrow == -1 then Abs(col - oldcol) == 1
      else if row - oldrow == -2 then
        (col - oldcol == -2 && s.board[row + 1][col + 1] < 0) || (col - oldcol == 2 && s.board[row + 1][col - 1] < 0)
      else false
    else
      if row - oldrow == 1 then Abs(col - oldcol) == 1
      else if row - oldrow == 2 then
        (col - oldcol == -2 && s.board[row - 1][col + 1] > 0) || (col - oldcol == 2 && s.board[row - 1][col - 1] > 0)
      else false
  }

  /**
   * isValidMove refuses a move with a coordinate off the board, from an empty
   * cell or onto an occupied one, and accepts exactly the legal moves: the
   * offsets it reads for the jumped cell are the midpoint of the move.
   */
  lemma ValidMoveRule(s: State, m: Move, human: bool)
    ensures !m.InBounds() ==> !IsValidMove(s, m, human)
    ensures m.InBounds() && (At(s.board, m.From()) == 0 || At(s.board, m.To()) != 0) ==> !IsValidMove(s, m, human)
    ensures IsValidMove(s, m, human) <==> Legal(s, m, human)
  {
  }

  // ---------------------------------------------------------------------------
  // Move enumeration
  // ---------------------------------------------------------------------------

  /** The two direction vectors a side tries, for simple moves or for jumps. */
  function Dirs(human: bool, jump: bool): seq<(int, int)> {
    var dr := if jump then 2 * Forward(human) else Forward(human);
    var dc := if jump then 2 else 1;
    [(dr, -dc), (dr, dc)]
  }

  /** The four directions the mobility tests try: simple ones first. */
  function AllDirs(human: bool): seq<(int, int)> {
    Dirs(human, false) + Dirs(human, true)
  }

  function Step(p: Pos, d: (int, int)): Move {
    Move(p.row, p.col, p.row + d.0, p.col + d.1)
  }

  /** A valid move of a piece that belongs to the given side. */
  predicate Candidate(s: State, human: bool, m: Move) {
    m.InBounds() && At(s.board, m.From()) in Side(s, human) && IsValidMove(s, m, human)
  }

  /** The valid moves from cell `p` in the two directions of one kind. */
  function MovesFrom(s: State, human: bool, p: Pos, jump: bool): seq<Move> {
    var ds := Dirs(human, jump);
    (if IsValidMove(s, Step(p, ds[0]), human) then [Step(p, ds[0])] else [])
    + (if IsValidMove(s, Step(p, ds[1]), human) then [Step(p, ds[1])] else [])
  }

  lemma MovesFromMembers(s: State, human: bool, p: Pos, jump: bool, m: Move)
    ensures m in MovesFrom(s, human, p, jump) <==> m.From() == p && IsValidMove(s, m, human) && m.IsJump() == jump
  {
    var ds := Dirs(human, jump);
    ValidMoveRule(s, m, human);
    if m in MovesFrom(s, human, p, jump) {
      assert m == Step(p, ds[0]) || m == Step(p, ds[1]);
    }
    if m.From() == p && IsValidMove(s, m, human) && m.IsJump() == jump {
      assert m == Step(p, ds[0]) || m == Step(p, ds[1]);
    }
  }

  function CellOf(k: int): (p: Pos)
    requires 0 <= k < Size * Size
    ensures OnBoard(p) && Size * p.row + p.col == k
  {
    Pos(k / Size, k % Size)
  }

  /** The moves of one kind of the side's pieces on cells k .. 63, in row-major order. */
  function Scan(s: State, human: bool, jump: bool, k: nat): seq<Move>
    decreases Size * Size - k
  {
    if k >= Size * Size then []
    else
      var here := if At(s.board, CellOf(k)) in Side(s, human) then MovesFrom(s, human, CellOf(k), jump) else [];
      here + Scan(s, human, jump, k + 1)
  }

  lemma {:induction false} ScanMembers(s: State, human: bool, jump: bool, k: nat, m: Move)
    ensures m in Scan(s, human, jump, k)
        <==> Candidate(s, human, m) && m.IsJump() == jump && Size * m.fromRow + m.fromCol >= k
    decreases Size * Size - k
  {
    if k < Size * Size {
      ScanMembers(s, human, jump, k + 1, m);
      MovesFromMembers(s, human, CellOf(k), jump, m);
      if m.InBounds() && Size * m.fromRow + m.fromCol == k {
        assert m.From() == CellOf(k);
      }
    }
  }

  function Captures(s: State, human: bool): seq<Move> {
    Scan(s, human, true, 0)
  }

  function Regulars(s: State, human: bool): seq<Move> {
    Scan(s, human, false, 0)
  }

  /** Some piece of the side has a capture available. */
  ghost predicate CaptureAvailable(s: State, human: bool) {
    exists m :: Candidate(s, human, m) && m.IsJump()
  }

  /**
   * getActions: the capture moves of the side if there is at least one,
   * otherwise its simple moves.
   */
  function Actions(s: State, human: bool): (r: seq<Move>)
    ensures forall m :: m in r ==> Candidate(s, human, m)
    ensures Captures(s, human) != [] ==> forall m :: m in r ==> m.IsJump()
  {
    ActionsSound(s, human);
    if Captures(s, human) != [] then Captures(s, human) else Regulars(s, human)
  }

  lemma ActionsSound(s: State, human: bool)
    ensures forall m :: m in Captures(s, human) ==> Candidate(s, human, m) && m.IsJump()
    ensures forall m :: m in Regulars(s, human) ==> Candidate(s, human, m) && !m.IsJump()
  {
    forall m | m in Captures(s, human) ensures Candidate(s, human, m) && m.IsJump() {
      ScanMembers(s, human, true, 0, m);
    }
    forall m | m in Regulars(s, human) ensures Candidate(s, human, m) && !m.IsJump() {
      ScanMembers(s, human, false, 0, m);
    }
  }

  /**
   * Mandatory capture, exactly: a move is listed iff it is a valid move of
   * one of the side's pieces and it is a capture precisely when some capture
   * is available to the side.
   */
  lemma ActionsExactly(s: State, human: bool, m: Move)
    ensures m in Actions(s, human) <==> Candidate(s, human, m) && (m.IsJump() <==> CaptureAvailable(s, human))
  {
    ScanMembers(s, human, true, 0, m);
    ScanMembers(s, human, false, 0, m);
    if CaptureAvailable(s, human) {
      var c :| Candidate(s, human, c) && c.IsJump();
      ScanMembers(s, human, true, 0, c);
    } else if Captures(s, human) != [] {
      var c := Captures(s, human)[0];
      ScanMembers(s, human, true, 0, c);
    }
  }

  // ---------------------------------------------------------------------------
  // Mobility and the terminal test
  // ---------------------------------------------------------------------------

  /** humanCanContinue / AICanContinue: some piece of the side has a valid move in one of the four directions. */
  predicate CanContinue(s: State, human: bool) {
    exists id :: id in Side(s, human) && id in s.pos && HasMoveAt(s, human, s.pos[id])
  }

  predicate HasMoveAt(s: State, human: bool, p: Pos) {
    exists d :: d in AllDirs(human) && IsValidMove(s, Step(p, d), human)
  }

  /** A valid move of the side is one of the four steps from its source cell. */
  lemma ValidIsStep(s: State, m: Move, human: bool)
    requires IsValidMove(s, m, human)
    ensures (m.toRow - m.fromRow, m.toCol - m.fromCol) in AllDirs(human)
    ensures m == Step(m.From(), (m.toRow - m.fromRow, m.toCol - m.fromCol))
  {
    ValidMoveRule(s, m, human);
  }

  /** The mobility tests agree with the move list: a side can continue iff it has an action. */
  lemma CanContinueIffActions(s: State, human: bool)
    requires Consistent(s)
    ensures CanContinue(s, human) <==> Actions(s, human) != []
  {
    if CanContinue(s, human) {
      CanContinueWitness(s, human);
    }
    if Actions(s, human) != [] {
      var m := Actions(s, human)[0];
      assert m in Actions(s, human);
      assert Candidate(s, human, m);
      var id := At(s.board, m.From());
      ValidIsStep(s, m, human);
      assert s.pos[id] == m.From();
      assert HasMoveAt(s, human, s.pos[id]);
    }
  }

  lemma CanContinueWitness(s: State, human: bool)
    requires Consistent(s) && CanContinue(s, human)
    ensures Actions(s, human) != []
  {
    {
      var id :| id in Side(s, human) && id in s.pos && HasMoveAt(s, human, s.pos[id]);
      var d :| d in AllDirs(human) && IsValidMove(s, Step(s.pos[id], d), human);
      var m := Step(s.pos[id], d);
      assert Candidate(s, human, m);
      ActionsExactly(s, human, m);
      if CaptureAvailable(s, human) {
        var c :| Candidate(s, human, c) && c.IsJump();
        ActionsExactly(s, human, c);
      }
    }
  }

  /** terminalTest: a side has no pieces left, or neither side can move. */
  predicate Terminal(s: State) {
    |s.human| == 0 || |s.ai| == 0 || (!CanContinue(s, false) && !CanContinue(s, true))
  }

  lemma TerminalIffNoActions(s: State)
    requires Consistent(s)
    ensures Terminal(s) <==> s.human == {} || s.ai == {} || (Actions(s, true) == [] && Actions(s, false) == [])
  {
    CanContinueIffActions(s, true);
    CanContinueIffActions(s, false);
  }

  // ---------------------------------------------------------------------------
  // Apply and undo
  // ---------------------------------------------------------------------------

  /**
   * The moves applyAction can carry out without raising and without breaking
   * the agreement of board, map and sets: on the board, from an occupied cell
   * to an empty one, and with a piece on the midpoint when it is a jump.
   */
  predicate Applicable(s: State, m: Move) {
    && m.InBounds()
    && At(s.board, m.From()) != 0
    && At(s.board, m.To()) == 0
    && (m.IsJump() ==> At(s.board, m.Mid()) != 0)
  }

  lemma ValidIsApplicable(s: State, m: Move, human: bool)
    requires IsValidMove(s, m, human)
    ensures Applicable(s, m)
  {
    ValidMoveRule(s, m, human);
  }

  /** The moved piece and its position entry go to the destination. */
  function Shift(s: State, m: Move): State
    requires m.InBounds()
  {
    var piece := At(s.board, m.From());
    State(Put(Put(s.board, m.To(), piece), m.From(), 0), s.human, s.ai, s.pos[piece := m.To()])
  }

  /** The piece on `p` leaves its side's set, the position map and the board. */
  function Remove(s: State, p: Pos): State
    requires OnBoard(p)
  {
    var id := At(s.board, p);
    if id > 0 then State(Put(s.board, p, 0), s.human - {id}, s.ai, s.pos - {id})
    else State(Put(s.board, p, 0), s.human, s.ai - {id}, s.pos - {id})
  }

  lemma ShiftConsistent(s: State, m: Move)
    requires Consistent(s) && Applicable(s, m)
    ensures Consistent(Shift(s, m))
  {
    var t := Shift(s, m);
    var piece := At(s.board, m.From());
    assert piece in s.pos;
    forall id | id in t.pos
      ensures OnBoard(t.pos[id]) && At(t.board, t.pos[id]) == id
    {
      if id != piece {
        assert id != 0;
      }
    }
    forall p | OnBoard(p) && At(t.board, p) != 0
      ensures At(t.board, p) in t.pos && t.pos[At(t.board, p)] == p
    {
      if p != m.To() {
        assert At(s.board, p) != piece;
      }
    }
  }

  lemma RemoveConsistent(s: State, p: Pos)
    requires Consistent(s) && OnBoard(p) && At(s.board, p) != 0
    ensures Consistent(Remove(s, p))
  {
  }

  datatype Applied = Applied(state: State, captured: int)

  /**
   * applyAction: move the piece; on a jump also remove the midpoint piece.
   * Returns the new state and the captured id: 0 for a simple move, the id
   * that stood on the midpoint for a jump. Like the code it checks nothing;
   * ApplyConsistent and ApplyRemovesCaptured say what it does to a
   * consistent state and an applicable move.
   */
  function Apply(s: State, m: Move): (r: Applied)
    requires m.InBounds()
    ensures r.captured == if m.IsJump() then At(s.board, m.Mid()) else 0
  {
    var t := Shift(s, m);
    if m.IsJump() then Applied(Remove(t, m.Mid()), At(t.board, m.Mid()))
    else Applied(t, 0)
  }

  /** Applying an applicable move keeps board, map and sets in agreement. */
  lemma ApplyConsistent(s: State, m: Move)
    requires Consistent(s) && Applicable(s, m)
    ensures Consistent(Apply(s, m).state)
  {
    ShiftConsistent(s, m);
    if m.IsJump() {
      var t := Shift(s, m);
      assert At(t.board, m.Mid()) == At(s.board, m.Mid());
      RemoveConsistent(t, m.Mid());
    }
  }

  /** The moved piece lands on the destination, its origin empties, and no other cell but the midpoint changes. */
  lemma ApplyMovesPiece(s: State, m: Move)
    requires Consistent(s) && Applicable(s, m)
    ensures var r := Apply(s, m).state;
      && At(r.board, m.To()) == At(s.board, m.From())
      && At(r.board, m.From()) == 0
      && At(s.board, m.From()) in r.pos && r.pos[At(s.board, m.From())] == m.To()
      && forall q :: OnBoard(q) && q != m.From() && q != m.To() && (m.IsJump() ==> q != m.Mid())
                   ==> At(r.board, q) == At(s.board, q)
  {
  }

  /**
   * A jump removes the midpoint piece from its side's set, from the position
   * map and from the board; a simple move leaves both sets as they were.
   */
  lemma ApplyRemovesCaptured(s: State, m: Move)
    requires Consistent(s) && Applicable(s, m)
    ensures var a := Apply(s, m);
      && a.state.human == s.human - {a.captured}
      && a.state.ai == s.ai - {a.captured}
      && (m.IsJump() ==>
            && a.captured != 0
            && a.captured !in a.state.human && a.captured !in a.state.ai && a.captured !in a.state.pos
            && At(a.state.board, m.Mid()) == 0)
  {
    if m.IsJump() {
      var t := Shift(s, m);
      var cap := At(s.board, m.Mid());
      assert At(t.board, m.Mid()) == cap;
      assert Apply(s, m).state == Remove(t, m.Mid());
      if cap > 0 {
        assert cap !in s.ai;
      } else {
        assert cap !in s.human;
      }
    } else {
      assert 0 !in s.human && 0 !in s.ai;
    }
  }

  /** The piece on the destination and its position entry go back to the origin. */
  function Unshift(s: State, m: Move): State
    requires m.InBounds()
  {
    var piece := At(s.board, m.To());
    State(Put(Put(s.board, m.From(), piece), m.To(), 0), s.human, s.ai, s.pos[piece := m.From()])
  }

  /** Puts `id` back on `p`, into its side's set (by sign) and the position map. */
  function Restore(s: State, p: Pos, id: int): State
    requires OnBoard(p)
  {
    if id > 0 then State(Put(s.board, p, id), s.human + {id}, s.ai, s.pos[id := p])
    else State(Put(s.board, p, id), s.human, s.ai + {id}, s.pos[id := p])
  }

  /** resetAction: undo a move, restoring the captured piece when it was a jump. */
  function Reset(s: State, m: Move, captured: int): State
    requires m.InBounds()
  {
    var t := Unshift(s, m);
    if m.IsJump() then Restore(t, m.Mid(), captured) else t
  }

  lemma UnshiftUndoesShift(s: State, m: Move)
    requires Consistent(s) && Applicable(s, m)
    ensures Unshift(Shift(s, m), m) == s
  {
    var u := Unshift(Shift(s, m), m);
    GridExt(u.board, s.board);
  }

  lemma RestoreUndoesRemove(s: State, p: Pos)
    requires Consistent(s) && OnBoard(p) && At(s.board, p) != 0
    ensures Restore(Remove(s, p), p, At(s.board, p)) == s
  {
    var u := Restore(Remove(s, p), p, At(s.board, p));
    GridExt(u.board, s.board);
  }

  /** Taking the piece off the midpoint and moving the jumper back touch different cells and keys. */
  lemma UnshiftRemoveCommute(t: State, m: Move)
    requires m.InBounds() && m.IsJump()
    requires At(t.board, m.To()) != At(t.board, m.Mid())
    ensures Unshift(Remove(t, m.Mid()), m) == Remove(Unshift(t, m), m.Mid())
  {
    var a := Unshift(Remove(t, m.Mid()), m);
    var b := Remove(Unshift(t, m), m.Mid());
    GridExt(a.board, b.board);
  }

  /** Undo after apply restores the board, the position map and both side sets exactly. */
  lemma ApplyThenReset(s: State, m: Move)
    requires Consistent(s) && Applicable(s, m)
    ensures Reset(Apply(s, m).state, m, Apply(s, m).captured) == s
  {
    UnshiftUndoesShift(s, m);
    if m.IsJump() {
      var t := Shift(s, m);
      assert At(t.board, m.To()) == At(s.board, m.From());
      assert At(t.board, m.Mid()) == At(s.board, m.Mid());
      UnshiftRemoveCommute(t, m);
      RestoreUndoesRemove(s, m.Mid());
    }
  }
}
