/**
 * The AIPlayer.py variant of the search: alphaBetaSearch returning a
 * (score, move) pair, scoring leaves with evaluateState, alternating sides
 * with no turn skip, and exploring successors through result (apply on a copy).
 *
 * Two slips of that file are modelled as written and next to their
 * corrections: applyAction drops a captured AI piece under its negated id,
 * which is never in the AI set, and the search enumerates the moves of the
 * human when it maximises for the AI. getNextMoveMedium, which discards the
 * search result, and getNextMoveHard are modelled the same way, on top of
 * the search as written. Everything else uses the corrected forms.
 */
module PairSearch {
  import opened Wrappers
  import opened Board
  import opened Rules
  import opened Search

  /** evaluateState: AI pieces minus human pieces; positive exactly when the AI has more pieces. */
  function Evaluate(s: State): (r: int)
    ensures r > 0 <==> |s.ai| > |s.human|
    ensures s.ai == {} ==> r <= 0
  {
    |s.ai| - |s.human|
  }

  lemma EvaluateBounded(s: State)
    requires Consistent(s)
    ensures NegInf < -Size * Size <= Evaluate(s) <= Size * Size < PosInf
  {
    PieceCountBound(s);
  }

  datatype Scored = Scored(score: int, move: Option<Move>)

  // ---------------------------------------------------------------------------
  // result / applyAction
  // ---------------------------------------------------------------------------

  /**
   * result with the applyAction of AIPlayer.py as written: the piece moves;
   * on a jump the midpoint empties and leaves the position map, then a human
   * id leaves the human set while an AI id is removed from the AI set under
   * its negation. set.remove raises on an absent id: None.
   */
  function ResultAsWritten(s: State, m: Move): Option<State>
    requires m.InBounds()
  {
    var t := Shift(s, m);
    if !m.IsJump() then Some(t)
    else
      var mid := m.Mid();
      var captured := At(t.board, mid);
      var u := State(Put(t.board, mid, 0), t.human, t.ai, t.pos - {captured});
      if captured > 0 then
        if captured in u.human then Some(u.(human := u.human - {captured})) else None
      else
        if -captured in u.ai then Some(u.(ai := u.ai - {-captured})) else None
  }

  /** Every capture of an AI piece by the human raises: the negated id is never an AI id. */
  lemma ResultFailsOnAiCapture(s: State, m: Move)
    requires Consistent(s) && IsValidMove(s, m, true) && m.IsJump()
    ensures ResultAsWritten(s, m).None?
  {
    ValidMoveRule(s, m, true);
    var t := Shift(s, m);
    assert At(t.board, m.Mid()) == At(s.board, m.Mid());
    assert At(s.board, m.Mid()) < 0;
  }

  /** Away from that case the code as written agrees with the corrected result. */
  lemma ResultAsWrittenAgrees(s: State, m: Move)
    requires Consistent(s) && Applicable(s, m)
    requires m.IsJump() ==> At(s.board, m.Mid()) > 0
    ensures ResultAsWritten(s, m) == Some(Result(s, m))
  {
    if m.IsJump() {
      var t := Shift(s, m);
      assert At(t.board, m.Mid()) == At(s.board, m.Mid());
    }
  }

  /** result with applyAction as in Submit.py: the successor on a copy, the receiver untouched. */
  function Result(s: State, m: Move): State
    requires m.InBounds()
  {
    Apply(s, m).state
  }

  /** The corrected result removes a captured AI piece from the AI set and keeps the state consistent. */
  lemma ResultRemovesAiCapture(s: State, m: Move)
    requires Consistent(s) && IsValidMove(s, m, true) && m.IsJump()
    ensures var r := Result(s, m);
      && Consistent(r)
      && r.ai == s.ai - {At(s.board, m.Mid())}
      && r.human == s.human
      && At(s.board, m.Mid()) in s.ai && At(s.board, m.Mid()) !in r.pos
  {
    ValidMoveRule(s, m, true);
    ValidIsApplicable(s, m, true);
    ApplyConsistent(s, m);
    ApplyRemovesCaptured(s, m);
    CellSide(s, m.Mid());
  }

  // ---------------------------------------------------------------------------
  // alphaBetaSearch as written
  // ---------------------------------------------------------------------------

  /**
   * alphaBetaSearch as written: the moves searched at a node are
   * getActions(maximizingPlayer), so the maximising AI enumerates human moves
   * and vice versa; successors come from ResultAsWritten. None: an exception.
   */
  function SearchAsWritten(s: State, depth: nat, alpha: int, beta: int, maximizing: bool): Option<Scored>
    decreases depth, 1, 0
  {
    if depth == 0 || Terminal(s) then Some(Scored(Evaluate(s), None))
    else
      LoopAsWritten(s, Actions(s, maximizing), depth, alpha, beta, maximizing,
                    if maximizing then NegInf else PosInf, None)
  }

  function LoopAsWritten(s: State, acts: seq<Move>, depth: nat, alpha: int, beta: int, maximizing: bool,
                         value: int, best: Option<Move>): (r: Option<Scored>)
    requires depth > 0 && AllInBounds(acts)
    ensures r.Some? && r.value.move != best ==> r.value.move.Some? && r.value.move.value in acts
    decreases depth, 0, |acts|
  {
    if acts == [] then Some(Scored(value, best))
    else
      match ResultAsWritten(s, acts[0])
      case None => None
      case Some(t) =>
        match SearchAsWritten(t, depth - 1, alpha, beta, !maximizing)
        case None => None
        case Some(child) =>
          if maximizing then
            var (value', best') := if child.score > value then (child.score, Some(acts[0])) else (value, best);
            var alpha' := Max(alpha, value');
            if alpha' >= beta then Some(Scored(value', best'))
            else LoopAsWritten(s, acts[1..], depth, alpha', beta, maximizing, value', best')
          else
            var (value', best') := if child.score < value then (child.score, Some(acts[0])) else (value, best);
            var beta' := Min(beta, value');
            if alpha >= beta' then Some(Scored(value', best'))
            else LoopAsWritten(s, acts[1..], depth, alpha, beta', maximizing, value', best')
  }

  /**
   * The move the code as written hands back for the maximising AI always
   * starts on a human piece: it is one of the human's actions.
   */
  lemma AsWrittenPicksHumanMove(s: State, depth: nat, alpha: int, beta: int)
    requires Consistent(s)
    requires SearchAsWritten(s, depth, alpha, beta, true).Some?
    requires SearchAsWritten(s, depth, alpha, beta, true).value.move.Some?
    ensures var m := SearchAsWritten(s, depth, alpha, beta, true).value.move.value;
      m in Actions(s, true) && At(s.board, m.From()) in s.human && At(s.board, m.From()) !in s.ai
  {
    var m := SearchAsWritten(s, depth, alpha, beta, true).value.move.value;
    assert Candidate(s, true, m);
  }

  /** A move the search as written returns is one of getActions(maximizingPlayer). */
  lemma AsWrittenMoveIsAction(s: State, depth: nat, alpha: int, beta: int, maximizing: bool)
    ensures var r := SearchAsWritten(s, depth, alpha, beta, maximizing);
      r.Some? && r.value.move.Some? ==> r.value.move.value in Actions(s, maximizing)
  {
  }

  /**
   * Whenever the human has a capture, the search as written raises: the
   * maximising node's first move is a human capture of an AI piece, and
   * result drops that piece under its negated id.
   */
  lemma AsWrittenRaises(s: State, depth: nat, alpha: int, beta: int)
    requires Consistent(s) && !Terminal(s) && depth > 0 && CaptureAvailable(s, true)
    ensures SearchAsWritten(s, depth, alpha, beta, true).None?
  {
    var c :| Candidate(s, true, c) && c.IsJump();
    ActionsExactly(s, true, c);
    var m := Actions(s, true)[0];
    ActionsExactly(s, true, m);
    ResultFailsOnAiCapture(s, m);
  }

  // ---------------------------------------------------------------------------
  // alphaBetaSearch corrected
  // ---------------------------------------------------------------------------

  /**
   * alphaBetaSearch with the side fixed: the maximising player is the AI and
   * searches getActions(False); successors come from Result.
   */
  function PairSearch(s: State, depth: nat, alpha: int, beta: int, maximizing: bool): (r: Scored)
    decreases depth, 1, 0
  {
    if depth == 0 || Terminal(s) then Scored(Evaluate(s), None)
    else if maximizing then PairMaxLoop(s, Actions(s, false), depth, alpha, beta, NegInf, None)
    else PairMinLoop(s, Actions(s, true), depth, alpha, beta, PosInf, None)
  }

  /**
   * The maximising loop: the best move changes only on a strictly greater
   * score, alpha follows the running value, and the loop stops as soon as
   * alpha >= beta.
   */
  function PairMaxLoop(s: State, acts: seq<Move>, depth: nat, alpha: int, beta: int,
                       value: int, best: Option<Move>): (r: Scored)
    requires depth > 0 && AllInBounds(acts)
    decreases depth, 0, |acts|
  {
    if acts == [] then Scored(value, best)
    else
      var score := ChildScore(s, acts[0], depth - 1, alpha, beta, false);
      var value' := if score > value then score else value;
      var best' := if score > value then Some(acts[0]) else best;
      var alpha' := Max(alpha, value');
      if alpha' >= beta then Scored(value', best')
      else PairMaxLoop(s, acts[1..], depth, alpha', beta, value', best')
  }

  /** The minimising loop, the mirror image: beta follows the running value. */
  function PairMinLoop(s: State, acts: seq<Move>, depth: nat, alpha: int, beta: int,
                       value: int, best: Option<Move>): (r: Scored)
    requires depth > 0 && AllInBounds(acts)
    decreases depth, 0, |acts|
  {
    if acts == [] then Scored(value, best)
    else
      var score := ChildScore(s, acts[0], depth - 1, alpha, beta, true);
      var value' := if score < value then score else value;
      var best' := if score < value then Some(acts[0]) else best;
      var beta' := Min(beta, value');
      if alpha >= beta' then Scored(value', best')
      else PairMinLoop(s, acts[1..], depth, alpha, beta', value', best')
  }

  /** The score of the state `result(m)` leads to, searched one ply shallower for the other player. */
  function ChildScore(s: State, m: Move, depth: nat, alpha: int, beta: int, maximizing: bool): int
    requires m.InBounds()
    decreases depth, 2, 0
  {
    PairSearch(Result(s, m), depth, alpha, beta, maximizing).score
  }

  /** A move the maximising loop returns is its incoming best move or one of the actions it tried. */
  lemma {:induction false} PairMaxLoopMove(s: State, acts: seq<Move>, depth: nat, alpha: int, beta: int,
                                           value: int, best: Option<Move>)
    requires depth > 0 && AllInBounds(acts)
    ensures var r := PairMaxLoop(s, acts, depth, alpha, beta, value, best);
      r.move != best ==> r.move.Some? && r.move.value in acts
    decreases |acts|
  {
    if acts != [] {
      InBoundsSplit(acts);
      var score := ChildScore(s, acts[0], depth - 1, alpha, beta, false);
      var value' := if score > value then score else value;
      var best' := if score > value then Some(acts[0]) else best;
      PairMaxLoopMove(s, acts[1..], depth, Max(alpha, value'), beta, value', best');
    }
  }

  lemma {:induction false} PairMinLoopMove(s: State, acts: seq<Move>, depth: nat, alpha: int, beta: int,
                                           value: int, best: Option<Move>)
    requires depth > 0 && AllInBounds(acts)
    ensures var r := PairMinLoop(s, acts, depth, alpha, beta, value, best);
      r.move != best ==> r.move.Some? && r.move.value in acts
    decreases |acts|
  {
    if acts != [] {
      InBoundsSplit(acts);
      var score := ChildScore(s, acts[0], depth - 1, alpha, beta, true);
      var value' := if score < value then score else value;
      var best' := if score < value then Some(acts[0]) else best;
      PairMinLoopMove(s, acts[1..], depth, alpha, Min(beta, value'), value', best');
    }
  }

  /** A move the search returns is one of the actions of the side it searched. */
  lemma PairSearchMoveIsAction(s: State, depth: nat, alpha: int, beta: int, maximizing: bool)
    ensures var r := PairSearch(s, depth, alpha, beta, maximizing);
      r.move.Some? ==> r.move.value in Actions(s, !maximizing)
  {
    if depth > 0 && !Terminal(s) {
      if maximizing {
        PairMaxLoopMove(s, Actions(s, false), depth, alpha, beta, NegInf, None);
      } else {
        PairMinLoopMove(s, Actions(s, true), depth, alpha, beta, PosInf, None);
      }
    }
  }

  /** With the side fixed, the move handed to the AI is one of the AI's own actions. */
  lemma SearchPicksAiMove(s: State, depth: nat, alpha: int, beta: int)
    requires Consistent(s)
    requires PairSearch(s, depth, alpha, beta, true).move.Some?
    ensures var m := PairSearch(s, depth, alpha, beta, true).move.value;
      m in Actions(s, false) && At(s.board, m.From()) in s.ai && IsValidMove(s, m, false)
  {
    PairSearchMoveIsAction(s, depth, alpha, beta, true);
    var m := PairSearch(s, depth, alpha, beta, true).move.value;
    assert Candidate(s, false, m);
  }

  // ---------------------------------------------------------------------------
  // Reference: plain minimax without turn skip
  // ---------------------------------------------------------------------------

  function PairMinimax(s: State, depth: nat, maximizing: bool): int
    decreases depth, 1, 0
  {
    if depth == 0 || Terminal(s) then Evaluate(s)
    else PairBest(s, Actions(s, !maximizing), depth, maximizing, if maximizing then NegInf else PosInf)
  }

  function PairBest(s: State, acts: seq<Move>, depth: nat, maximizing: bool, acc: int): int
    requires depth > 0 && AllInBounds(acts)
    decreases depth, 0, |acts|
  {
    if acts == [] then acc
    else
      var c := ChildMinimax(s, acts[0], depth - 1, !maximizing);
      PairBest(s, acts[1..], depth, maximizing, if maximizing then Max(c, acc) else Min(c, acc))
  }

  function ChildMinimax(s: State, m: Move, depth: nat, maximizing: bool): int
    requires m.InBounds()
    decreases depth, 2, 0
  {
    PairMinimax(Result(s, m), depth, maximizing)
  }

  lemma {:induction false} PairBestMaxShift(s: State, acts: seq<Move>, depth: nat, x: int, y: int)
    requires depth > 0 && AllInBounds(acts)
    ensures PairBest(s, acts, depth, true, Max(x, y)) == Max(x, PairBest(s, acts, depth, true, y))
    decreases |acts|
  {
    if acts != [] {
      var c := ChildMinimax(s, acts[0], depth - 1, false);
      PairBestMaxShift(s, acts[1..], depth, x, Max(c, y));
      assert Max(c, Max(x, y)) == Max(x, Max(c, y));
    }
  }

  lemma {:induction false} PairBestMinShift(s: State, acts: seq<Move>, depth: nat, x: int, y: int)
    requires depth > 0 && AllInBounds(acts)
    ensures PairBest(s, acts, depth, false, Min(x, y)) == Min(x, PairBest(s, acts, depth, false, y))
    decreases |acts|
  {
    if acts != [] {
      var c := ChildMinimax(s, acts[0], depth - 1, true);
      PairBestMinShift(s, acts[1..], depth, x, Min(c, y));
      assert Min(c, Min(x, y)) == Min(x, Min(c, y));
    }
  }

  lemma {:induction false} PairSearchWindow(s: State, alpha: int, beta: int, depth: nat, maximizing: bool)
    requires InWindow(alpha, beta)
    ensures Window(PairSearch(s, depth, alpha, beta, maximizing).score, PairMinimax(s, depth, maximizing), alpha, beta)
    decreases depth, 1, 0
  {
    if depth > 0 && !Terminal(s) {
      if maximizing {
        PairMaxLoopWindow(s, Actions(s, false), depth, alpha, beta, NegInf, None);
      } else {
        PairMinLoopWindow(s, Actions(s, true), depth, alpha, beta, PosInf, None);
      }
    }
  }

  lemma ChildWindow(s: State, m: Move, alpha: int, beta: int, depth: nat, maximizing: bool)
    requires m.InBounds() && InWindow(alpha, beta)
    ensures Window(ChildScore(s, m, depth, alpha, beta, maximizing), ChildMinimax(s, m, depth, maximizing), alpha, beta)
    decreases depth, 2, 0
  {
    PairSearchWindow(Result(s, m), alpha, beta, depth, maximizing);
  }

  lemma {:induction false} PairMaxLoopWindow(s: State, acts: seq<Move>, depth: nat, alpha: int, beta: int, value: int, best: Option<Move>)
    requires depth > 0 && AllInBounds(acts)
    requires InWindow(alpha, beta) && value <= alpha
    ensures PairMaxLoop(s, acts, depth, alpha, beta, value, best).score >= value
    ensures Window(PairMaxLoop(s, acts, depth, alpha, beta, value, best).score,
                   PairBest(s, acts, depth, true, value), alpha, beta)
    decreases depth, 0, |acts|
  {
    if acts != [] {
      var rest := acts[1..];
      InBoundsSplit(acts);
      ChildWindow(s, acts[0], alpha, beta, depth - 1, false);
      var rc := ChildScore(s, acts[0], depth - 1, alpha, beta, false);
      var mc := ChildMinimax(s, acts[0], depth - 1, false);
      var v' := if rc > value then rc else value;
      var best' := if rc > value then Some(acts[0]) else best;
      var g := PairBest(s, rest, depth, true, value);
      PairBestMaxShift(s, rest, depth, mc, value);
      PairBestMaxShift(s, rest, depth, value, value);
      PairBestMaxShift(s, rest, depth, rc, value);
      assert Max(rc, value) == v';
      if v' < beta {
        PairMaxLoopWindow(s, rest, depth, Max(alpha, v'), beta, v', best');
        MaxStep(alpha, beta, value, rc, mc, g, PairMaxLoop(s, rest, depth, Max(alpha, v'), beta, v', best').score);
      } else {
        MaxStep(alpha, beta, value, rc, mc, g, v');
      }
    }
  }

  lemma {:induction false} PairMinLoopWindow(s: State, acts: seq<Move>, depth: nat, alpha: int, beta: int, value: int, best: Option<Move>)
    requires depth > 0 && AllInBounds(acts)
    requires InWindow(alpha, beta) && beta <= value
    ensures PairMinLoop(s, acts, depth, alpha, beta, value, best).score <= value
    ensures Window(PairMinLoop(s, acts, depth, alpha, beta, value, best).score,
                   PairBest(s, acts, depth, false, value), alpha, beta)
    decreases depth, 0, |acts|
  {
    if acts != [] {
      var rest := acts[1..];
      InBoundsSplit(acts);
      ChildWindow(s, acts[0], alpha, beta, depth - 1, true);
      var rc := ChildScore(s, acts[0], depth - 1, alpha, beta, true);
      var mc := ChildMinimax(s, acts[0], depth - 1, true);
      var v' := if rc < value then rc else value;
      var best' := if rc < value then Some(acts[0]) else best;
      var g := PairBest(s, rest, depth, false, value);
      PairBestMinShift(s, rest, depth, mc, value);
      PairBestMinShift(s, rest, depth, value, value);
      PairBestMinShift(s, rest, depth, rc, value);
      assert Min(rc, value) == v';
      if v' > alpha {
        PairMinLoopWindow(s, rest, depth, alpha, Min(beta, v'), v', best');
        MinStep(alpha, beta, value, rc, mc, g, PairMinLoop(s, rest, depth, alpha, Min(beta, v'), v', best').score);
      } else {
        MinStep(alpha, beta, value, rc, mc, g, v');
      }
    }
  }

  // ---------------------------------------------------------------------------
  // The full window: exact values and the move that achieves them
  // ---------------------------------------------------------------------------

  /** Between the two sentinels, both included: the range of every score and minimax value. */
  predicate WithinSentinels(x: int) {
    NegInf <= x <= PosInf
  }

  /** On a consistent state every score of the search lies between the sentinels. */
  lemma PairSearchRange(s: State, depth: nat, alpha: int, beta: int, maximizing: bool)
    requires Consistent(s)
    ensures WithinSentinels(PairSearch(s, depth, alpha, beta, maximizing).score)
    decreases depth, 1, 0
  {
    if depth == 0 || Terminal(s) {
      EvaluateBounded(s);
    } else if maximizing {
      ActionsApplicable(s, false);
      PairMaxLoopRange(s, Actions(s, false), depth, alpha, beta, NegInf, None);
    } else {
      ActionsApplicable(s, true);
      PairMinLoopRange(s, Actions(s, true), depth, alpha, beta, PosInf, None);
    }
  }

  lemma {:induction false} PairMaxLoopRange(s: State, acts: seq<Move>, depth: nat, alpha: int, beta: int,
                                            value: int, best: Option<Move>)
    requires Consistent(s) && depth > 0 && AllApplicable(s, acts) && AllInBounds(acts) && WithinSentinels(value)
    ensures WithinSentinels(PairMaxLoop(s, acts, depth, alpha, beta, value, best).score)
    decreases depth, 0, |acts|
  {
    if acts != [] {
      ApplicableSplit(s, acts);
      InBoundsSplit(acts);
      ChildScoreRange(s, acts[0], depth - 1, alpha, beta, false);
      var score := ChildScore(s, acts[0], depth - 1, alpha, beta, false);
      var value' := if score > value then score else value;
      var best' := if score > value then Some(acts[0]) else best;
      PairMaxLoopRange(s, acts[1..], depth, Max(alpha, value'), beta, value', best');
    }
  }

  lemma {:induction false} PairMinLoopRange(s: State, acts: seq<Move>, depth: nat, alpha: int, beta: int,
                                            value: int, best: Option<Move>)
    requires Consistent(s) && depth > 0 && AllApplicable(s, acts) && AllInBounds(acts) && WithinSentinels(value)
    ensures WithinSentinels(PairMinLoop(s, acts, depth, alpha, beta, value, best).score)
    decreases depth, 0, |acts|
  {
    if acts != [] {
      ApplicableSplit(s, acts);
      InBoundsSplit(acts);
      ChildScoreRange(s, acts[0], depth - 1, alpha, beta, true);
      var score := ChildScore(s, acts[0], depth - 1, alpha, beta, true);
      var value' := if score < value then score else value;
      var best' := if score < value then Some(acts[0]) else best;
      PairMinLoopRange(s, acts[1..], depth, alpha, Min(beta, value'), value', best');
    }
  }

  /** On a consistent state the minimax value lies between the sentinels. */
  lemma PairMinimaxRange(s: State, depth: nat, maximizing: bool)
    requires Consistent(s)
    ensures WithinSentinels(PairMinimax(s, depth, maximizing))
    decreases depth, 1, 0
  {
    if depth == 0 || Terminal(s) {
      EvaluateBounded(s);
    } else {
      ActionsApplicable(s, !maximizing);
      PairBestRange(s, Actions(s, !maximizing), depth, maximizing, if maximizing then NegInf else PosInf);
    }
  }

  lemma {:induction false} PairBestRange(s: State, acts: seq<Move>, depth: nat, maximizing: bool, acc: int)
    requires Consistent(s) && depth > 0 && AllApplicable(s, acts) && AllInBounds(acts) && WithinSentinels(acc)
    ensures WithinSentinels(PairBest(s, acts, depth, maximizing, acc))
    decreases depth, 0, |acts|
  {
    if acts != [] {
      ApplicableSplit(s, acts);
      InBoundsSplit(acts);
      ChildMinimaxRange(s, acts[0], depth - 1, !maximizing);
      var c := ChildMinimax(s, acts[0], depth - 1, !maximizing);
      var acc' := if maximizing then Max(c, acc) else Min(c, acc);
      assert WithinSentinels(acc');
      PairBestRange(s, acts[1..], depth, maximizing, acc');
    }
  }

  /** The score of the successor of an applicable move lies within the sentinels. */
  lemma ChildScoreRange(s: State, m: Move, depth: nat, alpha: int, beta: int, maximizing: bool)
    requires Consistent(s) && Applicable(s, m)
    ensures WithinSentinels(ChildScore(s, m, depth, alpha, beta, maximizing))
    decreases depth, 2, 1
  {
    ApplyConsistent(s, m);
    PairSearchRange(Result(s, m), depth, alpha, beta, maximizing);
  }

  /** The minimax value of the successor of an applicable move lies within the sentinels. */
  lemma ChildMinimaxRange(s: State, m: Move, depth: nat, maximizing: bool)
    requires Consistent(s) && Applicable(s, m)
    ensures WithinSentinels(ChildMinimax(s, m, depth, maximizing))
    decreases depth, 2, 1
  {
    ApplyConsistent(s, m);
    PairMinimaxRange(Result(s, m), depth, maximizing);
  }

  /**
   * Opened with the full window, as getNextMoveMedium and getNextMoveHard do,
   * the search returns exactly the minimax value, including the sentinel a
   * side without moves scores.
   */
  lemma PairSearchExact(s: State, depth: nat, maximizing: bool)
    requires Consistent(s)
    ensures PairSearch(s, depth, NegInf, PosInf, maximizing).score == PairMinimax(s, depth, maximizing)
  {
    PairSearchWindow(s, NegInf, PosInf, depth, maximizing);
    PairSearchRange(s, depth, NegInf, PosInf, maximizing);
    PairMinimaxRange(s, depth, maximizing);
  }

  /**
   * The maximising loop started with alpha equal to the running value (as at
   * the root with the full window): the move it returns changes only when
   * the score rises, and the move it returns scores what the loop reports,
   * exactly below beta and at least beta otherwise.
   */
  lemma {:induction false} PairMaxLoopBest(s: State, acts: seq<Move>, depth: nat, alpha: int, beta: int,
                                           value: int, best: Option<Move>)
    requires depth > 0 && AllInBounds(acts)
    requires InWindow(alpha, beta) && value == alpha
    ensures var r := PairMaxLoop(s, acts, depth, alpha, beta, value, best);
      && (r.score == value ==> r.move == best)
      && (r.score > value ==>
            && r.move.Some? && r.move.value.InBounds()
            && (r.score < beta ==> ChildMinimax(s, r.move.value, depth - 1, false) == r.score)
            && (r.score >= beta ==> ChildMinimax(s, r.move.value, depth - 1, false) >= beta))
    decreases |acts|
  {
    if acts != [] {
      InBoundsSplit(acts);
      ChildWindow(s, acts[0], alpha, beta, depth - 1, false);
      var score := ChildScore(s, acts[0], depth - 1, alpha, beta, false);
      var value' := if score > value then score else value;
      var best' := if score > value then Some(acts[0]) else best;
      if value' < beta {
        PairMaxLoopBest(s, acts[1..], depth, value', beta, value', best');
        PairMaxLoopWindow(s, acts[1..], depth, value', beta, value', best');
      }
    }
  }

  /**
   * The move the full-window search hands the AI can be applied, and its
   * successor's minimax value is the score the search reports: exactly below
   * the upper sentinel, and at least that sentinel otherwise.
   */
  lemma PairRootScores(s: State, depth: nat, m: Move)
    requires PairSearch(s, depth, NegInf, PosInf, true).move == Some(m)
    ensures depth > 0 && Applicable(s, m) && m.InBounds()
    ensures var score := PairSearch(s, depth, NegInf, PosInf, true).score;
      && (score < PosInf ==> ChildMinimax(s, m, depth - 1, false) == score)
      && (score >= PosInf ==> ChildMinimax(s, m, depth - 1, false) >= PosInf)
  {
    PairSearchMoveIsAction(s, depth, NegInf, PosInf, true);
    var acts := Actions(s, false);
    ActionsApplicable(s, false);
    PairMaxLoopBest(s, acts, depth, NegInf, PosInf, NegInf, None);
    PairMaxLoopWindow(s, acts, depth, NegInf, PosInf, NegInf, None);
  }

  /**
   * The move the search hands the AI at the full window achieves the value
   * the search reports: the minimax value of its successor, with the human
   * to move, is the minimax value of the root.
   */
  lemma {:induction false} PairSearchMoveAchievesValue(s: State, depth: nat, m: Move)
    requires Consistent(s) && PairSearch(s, depth, NegInf, PosInf, true).move == Some(m)
    ensures depth > 0 && m.InBounds() && ChildMinimax(s, m, depth - 1, false) == PairMinimax(s, depth, true)
  {
    PairRootScores(s, depth, m);
    ReplyRange(s, m, depth);
    PairSearchRange(s, depth, NegInf, PosInf, true);
    PairSearchExact(s, depth, true);
  }

  /** The successor of an applicable AI move, valued one ply shallower with the human to move, lies within the sentinels. */
  lemma ReplyRange(s: State, m: Move, depth: nat)
    requires Consistent(s) && Applicable(s, m) && depth > 0
    ensures WithinSentinels(ChildMinimax(s, m, depth - 1, false))
  {
    ChildMinimaxRange(s, m, depth - 1, false);
  }

  // ---------------------------------------------------------------------------
  // Move requests
  // ---------------------------------------------------------------------------

  /**
   * randrange(len(q)) followed by q[index]: the draw is the parameter
   * `index`, reduced into range; None stands for the error randrange raises
   * on an empty range.
   */
  function Pick<T>(q: seq<T>, index: nat): (r: Option<T>)
    ensures r.Some? ==> r.value in q
    ensures r.None? <==> q == []
  {
    if q == [] then None else Some(q[index % |q|])
  }

  /** Every element of a non-empty sequence is picked by some draw. */
  lemma PickCovers<T>(q: seq<T>, x: T) returns (index: nat)
    requires x in q
    ensures Pick(q, index) == Some(x)
  {
    index :| index < |q| && q[index] == x;
    assert index % |q| == index;
  }

  /** getNextMoveEasy: a random one of the AI's actions. */
  function EasyMove(s: State, index: nat): (r: Option<Move>)
    ensures r.Some? ==> r.value in Actions(s, false)
    ensures r.None? <==> Actions(s, false) == []
  {
    Pick(Actions(s, false), index)
  }

  /** Every action of the AI is the easy move for some draw. */
  lemma EasyMoveCovers(s: State, m: Move)
    requires m in Actions(s, false)
    ensures exists index: nat :: EasyMove(s, index) == Some(m)
  {
    var i := PickCovers(Actions(s, false), m);
    assert EasyMove(s, i) == Some(m);
  }

  /** The move getNextMoveMedium falls back to. */
  const Fallback: Move := Move(-1, -1, -1, -1)

  /**
   * getNextMoveMedium as written: it clears bestMove and runs the search as
   * written without keeping its result; the search never assigns bestMove,
   * so what is left is the fallback. None stands for the exception the
   * search raises.
   */
  function MediumMoveAsWritten(s: State): (r: Option<Move>)
    requires DepthLimit(s) >= 0
    ensures r.Some? ==> r.value == Fallback
  {
    if SearchAsWritten(s, DepthLimit(s), NegInf, PosInf, true).None? then None else Some(Fallback)
  }

  /**
   * The medium AI never produces a move of its own: either the search raises
   * (always so when the human has a capture), or the move is the fallback,
   * which is off the board, so CheckerGame.move rejects it.
   */
  lemma MediumNeverMoves(s: State)
    requires DepthLimit(s) >= 0
    ensures MediumMoveAsWritten(s).Some? ==>
      !MediumMoveAsWritten(s).value.InBounds() && !IsValidMove(s, MediumMoveAsWritten(s).value, false)
    ensures Consistent(s) && !Terminal(s) && DepthLimit(s) > 0 && CaptureAvailable(s, true) ==>
      MediumMoveAsWritten(s).None?
  {
    if Consistent(s) && !Terminal(s) && DepthLimit(s) > 0 && CaptureAvailable(s, true) {
      AsWrittenRaises(s, DepthLimit(s), NegInf, PosInf);
    }
  }

  /**
   * getNextMoveMedium with the search result kept: the move the corrected
   * search finds at the dynamic depth, or the fallback when it finds none.
   */
  function MediumMove(s: State): (r: Move)
    requires DepthLimit(s) >= 0
    ensures r == Fallback || r in Actions(s, false)
    ensures r != Fallback ==> IsValidMove(s, r, false)
  {
    var found := PairSearch(s, DepthLimit(s), NegInf, PosInf, true).move;
    PairSearchMoveIsAction(s, DepthLimit(s), NegInf, PosInf, true);
    if found.Some? then found.value else Fallback
  }

  /**
   * getNextMoveHard: the move of the search opened with the full window at
   * the dynamic depth. None stands for the exception raised when the search
   * reports no move.
   */
  function HardMove(s: State): (r: Option<Move>)
    requires DepthLimit(s) >= 0
    ensures r.Some? ==> r.value in Actions(s, false) && IsValidMove(s, r.value, false)
  {
    PairSearchMoveIsAction(s, DepthLimit(s), NegInf, PosInf, true);
    PairSearch(s, DepthLimit(s), NegInf, PosInf, true).move
  }

  /**
   * getNextMoveHard as written: the move of the search as written at the
   * dynamic depth; None stands for an exception (the search's, or the one
   * raised when it reports no move). Any move is one of the human's.
   */
  function HardMoveAsWritten(s: State): (r: Option<Move>)
    requires DepthLimit(s) >= 0
    ensures r.Some? ==> r.value in Actions(s, true)
  {
    AsWrittenMoveIsAction(s, DepthLimit(s), NegInf, PosInf, true);
    match SearchAsWritten(s, DepthLimit(s), NegInf, PosInf, true)
    case None => None
    case Some(x) => x.move
  }

  /**
   * As written, the hard AI never produces an AI move: a returned move is a
   * valid human move and so never a valid AI move, and the search raises
   * whenever the human has a capture.
   */
  lemma HardAsWrittenNeverMoves(s: State)
    requires DepthLimit(s) >= 0
    ensures HardMoveAsWritten(s).Some? ==>
      IsValidMove(s, HardMoveAsWritten(s).value, true) && !IsValidMove(s, HardMoveAsWritten(s).value, false)
    ensures Consistent(s) && !Terminal(s) && DepthLimit(s) > 0 && CaptureAvailable(s, true) ==>
      HardMoveAsWritten(s).None?
  {
    if Consistent(s) && !Terminal(s) && DepthLimit(s) > 0 && CaptureAvailable(s, true) {
      AsWrittenRaises(s, DepthLimit(s), NegInf, PosInf);
    }
  }

  /**
   * getNextMove of AIPlayer.py: difficulty 1 plays the easy move for the
   * draw `index`, 2 the medium move (with the search result kept), anything
   * else the hard move. None stands for an exception.
   */
  function PlayerMove(s: State, difficulty: int, index: nat): (r: Option<Move>)
    requires difficulty != 1 ==> DepthLimit(s) >= 0
    ensures difficulty == 1 ==> r == EasyMove(s, index)
    ensures r.Some? ==> r.value == Fallback || r.value in Actions(s, false)
    ensures r.Some? && r.value != Fallback ==> IsValidMove(s, r.value, false)
  {
    if difficulty == 1 then EasyMove(s, index)
    else if difficulty == 2 then Some(MediumMove(s))
    else HardMove(s)
  }
}
