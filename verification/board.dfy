/**
 * The board state shared by the search and the game: an 8x8 grid of signed
 * piece ids (0 = empty, human ids positive, AI ids negative), the two sets of
 * live ids and the id -> (row, col) position map.
 */
module Board {

  /** Number of rows and columns of the board. */
  const Size: int := 8

  predicate InRange(i: int) {
    0 <= i < Size
  }

  predicate IsGrid(b: seq<seq<int>>) {
    |b| == Size && forall i :: 0 <= i < |b| ==> |b[i]| == Size
  }

  function EmptyGrid(): (b: seq<seq<int>>)
    ensures IsGrid(b)
  {
    seq(Size, _ => seq(Size, _ => 0))
  }

  /** An 8x8 board; each cell holds 0 or a piece id. */
  type Grid = b: seq<seq<int>> | IsGrid(b) witness EmptyGrid()

  datatype Pos = Pos(row: int, col: int)

  predicate OnBoard(p: Pos) {
    InRange(p.row) && InRange(p.col)
  }

  /** A move [oldrow, oldcol, row, col]. */
  datatype Move = Move(fromRow: int, fromCol: int, toRow: int, toCol: int) {
    function From(): Pos { Pos(fromRow, fromCol) }
    function To(): Pos { Pos(toRow, toCol) }
    /** The jumped cell ((oldrow + row) // 2, (oldcol + col) // 2). */
    function Mid(): Pos { Pos((fromRow + toRow) / 2, (fromCol + toCol) / 2) }
    predicate InBounds() { OnBoard(From()) && OnBoard(To()) }
    /** A move the apply/undo code treats as a capture: abs(oldrow - row) == 2. */
    predicate IsJump() { fromRow - toRow == 2 || toRow - fromRow == 2 }
  }

  datatype State = State(board: Grid, human: set<int>, ai: set<int>, pos: map<int, Pos>)

  function At(b: Grid, p: Pos): int
    requires OnBoard(p)
  {
    b[p.row][p.col]
  }

  /** The board with cell `p` overwritten by `v`. */
  function Put(b: Grid, p: Pos, v: int): (r: Grid)
    requires OnBoard(p)
    ensures forall q :: OnBoard(q) ==> At(r, q) == if q == p then v else At(b, q)
  {
    b[p.row := b[p.row][p.col := v]]
  }

  /** Two boards that agree on every cell are equal. */
  lemma GridExt(a: Grid, b: Grid)
    requires forall q :: OnBoard(q) ==> At(a, q) == At(b, q)
    ensures a == b
  {
    forall i | 0 <= i < Size
      ensures a[i] == b[i]
    {
      forall j | 0 <= j < Size
        ensures a[i][j] == b[i][j]
      {
        assert At(a, Pos(i, j)) == At(b, Pos(i, j));
      }
    }
  }

  /** Which side an id belongs to: human ids are positive, AI ids negative. */
  predicate Owns(human: bool, v: int) {
    if human then v > 0 else v < 0
  }

  function Side(s: State, human: bool): set<int> {
    if human then s.human else s.ai
  }

  /**
   * Board, position map and side sets agree: every id of a side has its sign,
   * the map's keys are exactly the live ids, every live id sits on its mapped
   * cell, and every occupied cell holds a live id mapped back to that cell.
   */
  ghost predicate Consistent(s: State) {
    && (forall id :: id in s.human ==> id > 0)
    && (forall id :: id in s.ai ==> id < 0)
    && s.pos.Keys == s.human + s.ai
    && (forall id :: id in s.pos ==> OnBoard(s.pos[id]) && At(s.board, s.pos[id]) == id)
    && (forall p :: OnBoard(p) && At(s.board, p) != 0 ==> At(s.board, p) in s.pos && s.pos[At(s.board, p)] == p)
  }

  /** In a consistent state an occupied cell belongs to the side its sign names. */
  lemma CellSide(s: State, p: Pos)
    requires Consistent(s) && OnBoard(p)
    ensures At(s.board, p) in s.human <==> At(s.board, p) > 0
    ensures At(s.board, p) in s.ai <==> At(s.board, p) < 0
  {
  }

  /** The cells of the board in row-major order. */
  function Cells(b: Grid): (r: seq<int>)
    ensures |r| == Size * Size
    ensures forall p :: OnBoard(p) ==> r[Size * p.row + p.col] == At(b, p)
  {
    seq(Size * Size, k requires 0 <= k < Size * Size => b[k / Size][k % Size])
  }

  /** Some element of a non-empty set. */
  lemma Element<T>(a: set<T>) returns (x: T)
    requires a != {}
    ensures x in a
  {
    x :| x in a;
  }

  /** A subset is no larger than its superset. */
  lemma {:induction false} SubsetCard<T>(a: set<T>, b: set<T>)
    requires a <= b
    ensures |a| <= |b|
    decreases a
  {
    if a != {} {
      var x :| x in a;
      SubsetCard(a - {x}, b - {x});
    }
  }

  lemma {:induction false} DistinctValuesBound(q: seq<int>)
    ensures |set x | x in q| <= |q|
  {
    if q != [] {
      DistinctValuesBound(q[1..]);
      var all := set x | x in q;
      var rest := set x | x in q[1..];
      assert all <= rest + {q[0]};
      SubsetCard(all, rest + {q[0]});
    }
  }

  /** A consistent state holds at most one piece per cell. */
  lemma PieceCountBound(s: State)
    requires Consistent(s)
    ensures |s.human| + |s.ai| <= Size * Size
  {
    var cells := Cells(s.board);
    assert s.human !! s.ai by {
      forall id | id in s.human ensures id !in s.ai { }
    }
    assert s.pos.Keys <= set x | x in cells by {
      forall id | id in s.pos ensures id in cells {
        var p := s.pos[id];
        assert cells[Size * p.row + p.col] == id;
      }
    }
    DistinctValuesBound(cells);
    var values := set x | x in cells;
    SubsetCard(s.pos.Keys, values);
  }
}
