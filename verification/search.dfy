/**
 * The depth-limited alpha-beta search of Submit.py's AIPlayer: maxValue for
 * the AI (MAX), minValue for the human (MIN), the turn-skip rule, best-move
 * tracking at the root, the dynamic depth limit, and the move request.
 *
 * The search state is a value, so "apply, recurse, reset" becomes "recurse on
 * Apply(s, a).state while s stays as it was"; ApplyThenReset is the fact that
 * makes the two readings agree. The infinities of the code become the
 * sentinels NegInf and PosInf; MaxValueBounded and MinValueBounded show no
 * evaluation reaches them.
 */
module Search {
  import opened Wrappers
  import opened Board
  import opened Rules
  import opened Evaluation

  const NegInf: int := -1_000_000
  const PosInf: int := 1_000_000

  /** The window alphaBetaSearch opens at the root. */
  const RootAlpha: int := -1000
  const RootBeta: int := 1000

  function Max(a: int, b: int): int {
    if a < b then b else a
  }

  function Min(a: int, b: int): int {
    if a < b then a else b
  }

  predicate AllApplicable(s: State, acts: seq<Move>) {
    forall m :: m in acts ==> Applicable(s, m)
  }

  lemma ApplicableSplit(s: State, acts: seq<Move>)
    requires AllApplicable(s, acts) && acts != []
    ensures Applicable(s, acts[0]) && AllApplicable(s, acts[1..])
  {
    assert acts[0] in acts;
    forall m | m in acts[1..] ensures Applicable(s, m) {
      assert m in acts;
    }
  }

  predicate AllInBounds(acts: seq<Move>) {
    forall m :: m in acts ==> m.InBounds()
  }

  lemma InBoundsSplit(acts: seq<Move>)
    requires AllInBounds(acts) && acts != []
    ensures acts[0].InBounds() && AllInBounds(acts[1..])
  {
    assert acts[0] in acts;
    forall m | m in acts[1..] ensures m.InBounds() {
      assert m in acts;
    }
  }

  lemma ActionsApplicable(s: State, human: bool)
    ensures AllApplicable(s, Actions(s, human))
  {
    forall m | m in Actions(s, human) ensures Applicable(s, m) {
      ValidIsApplicable(s, m, human);
    }
  }

  // ---------------------------------------------------------------------------
  // maxValue / minValue
  // ---------------------------------------------------------------------------

  /** maxValue: the AI's value of `s` with `depth` plies left. */
  function MaxValue(s: State, alpha: int, beta: int, depth: nat): int
    decreases depth, 2, 0
  {
    if Terminal(s) then Utility(s)
    else if depth == 0 then Heuristic(s, RowRule)
    else
      MaxLoop(s, Actions(s, false), alpha, beta, depth, NegInf)
  }

  /**
   * The loop of maxValue over the remaining actions, with running value `v`:
   * keep the larger value, stop once it reaches beta, otherwise raise alpha.
   */
  function MaxLoop(s: State, acts: seq<Move>, alpha: int, beta: int, depth: nat, v: int): int
    requires depth > 0 && AllInBounds(acts)
    decreases depth, 1, |acts|
  {
    if acts == [] then v
    else
      var next := Reply(Apply(s, acts[0]).state, alpha, beta, depth - 1, true);
      var v' := if next > v then next else v;
      if v' >= beta then v'
      else MaxLoop(s, acts[1..], Max(alpha, v'), beta, depth, v')
  }

  /** minValue: the human's value of `s` with `depth` plies left. */
  function MinValue(s: State, alpha: int, beta: int, depth: nat): int
    decreases depth, 2, 0
  {
    if Terminal(s) then Utility(s)
    else if depth == 0 then Heuristic(s, RowRule)
    else
      MinLoop(s, Actions(s, true), alpha, beta, depth, PosInf)
  }

  /** The loop of minValue: keep the smaller value, stop once it reaches alpha, otherwise lower beta. */
  function MinLoop(s: State, acts: seq<Move>, alpha: int, beta: int, depth: nat, v: int): int
    requires depth > 0 && AllInBounds(acts)
    decreases depth, 1, |acts|
  {
    if acts == [] then v
    else
      var next := Reply(Apply(s, acts[0]).state, alpha, beta, depth - 1, false);
      var v' := if next < v then next else v;
      if v' <= alpha then v'
      else MinLoop(s, acts[1..], alpha, Min(beta, v'), depth, v')
  }

  /**
   * The value of `t` right after a move by the AI (`aiMoved`) or the human:
   * the opponent replies if it can move, otherwise the same side moves again.
   */
  function Reply(t: State, alpha: int, beta: int, depth: nat, aiMoved: bool): int
    decreases depth, 3, 0
  {
    if aiMoved then
      if CanContinue(t, true) then MinValue(t, alpha, beta, depth) else MaxValue(t, alpha, beta, depth)
    else
      if CanContinue(t, false) then MaxValue(t, alpha, beta, depth) else MinValue(t, alpha, beta, depth)
  }

  // ---------------------------------------------------------------------------
  // The root: alphaBetaSearch with best-move tracking
  // ---------------------------------------------------------------------------

  datatype SearchResult = SearchResult(value: int, best: Option<Move>)

  /**
   * maxValue's loop at the root, which also records the action whose value
   * was strictly greater than every earlier one.
   */
  function RootLoop(s: State, acts: seq<Move>, alpha: int, beta: int, depth: nat, v: int, best: Option<Move>): (r: SearchResult)
    requires depth > 0 && AllInBounds(acts)
    ensures r.value >= v
    ensures r.value == v ==> r.best == best
    ensures r.best != best ==> r.best.Some? && r.best.value in acts
    decreases |acts|
  {
    if acts == [] then SearchResult(v, best)
    else
      var next := Reply(Apply(s, acts[0]).state, alpha, beta, depth - 1, true);
      var (v', best') := if next > v then (next, Some(acts[0])) else (v, best);
      if v' >= beta then SearchResult(v', best')
      else RootLoop(s, acts[1..], Max(alpha, v'), beta, depth, v', best')
  }

  /** alphaBetaSearch: the AI's value of `s` and the move that achieves it (None for "no move recorded"). */
  function AlphaBetaSearch(s: State, depthLimit: nat): (r: SearchResult)
    ensures r.best.Some? ==> r.best.value in Actions(s, false)
  {
    if Terminal(s) then SearchResult(Utility(s), None)
    else if depthLimit == 0 then SearchResult(Heuristic(s, RowRule), None)
    else
      RootLoop(s, Actions(s, false), RootAlpha, RootBeta, depthLimit, NegInf, None)
  }

  /** The bookkeeping of the root does not change the value maxValue computes. */
  lemma {:induction false} RootLoopValue(s: State, acts: seq<Move>, alpha: int, beta: int, depth: nat, v: int, best: Option<Move>)
    requires depth > 0 && AllInBounds(acts)
    ensures RootLoop(s, acts, alpha, beta, depth, v, best).value == MaxLoop(s, acts, alpha, beta, depth, v)
    decreases |acts|
  {
    if acts != [] {
      var next := Reply(Apply(s, acts[0]).state, alpha, beta, depth - 1, true);
      var v' := if next > v then next else v;
      var best' := if next > v then Some(acts[0]) else best;
      if v' < beta {
        RootLoopValue(s, acts[1..], Max(alpha, v'), beta, depth, v', best');
      }
    }
  }

  lemma SearchIsMaxValue(s: State, depthLimit: nat)
    ensures AlphaBetaSearch(s, depthLimit).value == MaxValue(s, RootAlpha, RootBeta, depthLimit)
  {
    if !Terminal(s) && depthLimit > 0 {
      RootLoopValue(s, Actions(s, false), RootAlpha, RootBeta, depthLimit, NegInf, None);
    }
  }

  /** computeDepthLimit: 26 minus the number of pieces on the board. */
  function DepthLimit(s: State): int {
    26 - (|s.ai| + |s.human|)
  }

  /** A capture deepens the next search by one ply; a simple move keeps the limit. */
  lemma DepthLimitAfterMove(s: State, m: Move)
    requires Consistent(s) && Applicable(s, m)
    ensures DepthLimit(Apply(s, m).state) == DepthLimit(s) + if m.IsJump() then 1 else 0
  {
    ApplyRemovesCaptured(s, m);
    var a := Apply(s, m);
    if m.IsJump() {
      var cap := a.captured;
      assert cap in s.human + s.ai by {
        assert At(s.board, m.Mid()) == cap;
      }
      if cap > 0 {
        assert cap in s.human && cap !in s.ai;
      } else {
        assert cap in s.ai && cap !in s.human;
      }
    } else {
      assert 0 !in s.human && 0 !in s.ai;
    }
  }

  /**
   * getNextMove: difficulty 2 runs the search with the fixed depth 3, any
   * other difficulty with the dynamic depth limit. None stands for the empty
   * bestMove list, which the caller cannot unpack.
   */
  function NextMove(s: State, difficulty: int): (r: Option<Move>)
    requires difficulty != 2 ==> DepthLimit(s) >= 0
    ensures r.Some? ==> r.value in Actions(s, false)
  {
    var depth: nat := if difficulty == 2 then 3 else DepthLimit(s);
    AlphaBetaSearch(s, depth).best
  }

  // ---------------------------------------------------------------------------
  // Evaluations never reach the sentinels
  // ---------------------------------------------------------------------------

  predicate Bounded(x: int) {
    -EvalBound <= x <= EvalBound
  }

  /** When one side cannot move, either the game is over or the other side can move. */
  lemma OtherSideMoves(t: State, human: bool)
    requires !CanContinue(t, human)
    ensures Terminal(t) || CanContinue(t, !human)
  {
  }

  lemma MaxValueBounded(s: State, alpha: int, beta: int, depth: nat)
    requires Consistent(s) && (Terminal(s) || CanContinue(s, false))
    ensures Bounded(MaxValue(s, alpha, beta, depth))
    decreases depth, 2, 0
  {
    EvaluationsBounded(s, RowRule);
    if !Terminal(s) && depth > 0 {
      CanContinueIffActions(s, false);
      ActionsApplicable(s, false);
      MaxLoopBounded(s, Actions(s, false), alpha, beta, depth, NegInf);
    }
  }

  lemma MaxLoopBounded(s: State, acts: seq<Move>, alpha: int, beta: int, depth: nat, v: int)
    requires Consistent(s) && depth > 0 && AllApplicable(s, acts)
    requires Bounded(v) || (v == NegInf && acts != [])
    ensures Bounded(MaxLoop(s, acts, alpha, beta, depth, v))
    decreases depth, 1, |acts|
  {
    if acts != [] {
      ApplicableSplit(s, acts);
      ApplyConsistent(s, acts[0]);
      var t := Apply(s, acts[0]).state;
      ReplyBounded(t, alpha, beta, depth - 1, true);
      var next := Reply(t, alpha, beta, depth - 1, true);
      var v' := if next > v then next else v;
      if v' < beta {
        MaxLoopBounded(s, acts[1..], Max(alpha, v'), beta, depth, v');
      }
    }
  }

  lemma MinValueBounded(s: State, alpha: int, beta: int, depth: nat)
    requires Consistent(s) && (Terminal(s) || CanContinue(s, true))
    ensures Bounded(MinValue(s, alpha, beta, depth))
    decreases depth, 2, 0
  {
    EvaluationsBounded(s, RowRule);
    if !Terminal(s) && depth > 0 {
      CanContinueIffActions(s, true);
      ActionsApplicable(s, true);
      MinLoopBounded(s, Actions(s, true), alpha, beta, depth, PosInf);
    }
  }

  lemma MinLoopBounded(s: State, acts: seq<Move>, alpha: int, beta: int, depth: nat, v: int)
    requires Consistent(s) && depth > 0 && AllApplicable(s, acts)
    requires Bounded(v) || (v == PosInf && acts != [])
    ensures Bounded(MinLoop(s, acts, alpha, beta, depth, v))
    decreases depth, 1, |acts|
  {
    if acts != [] {
      ApplicableSplit(s, acts);
      ApplyConsistent(s, acts[0]);
      var t := Apply(s, acts[0]).state;
      ReplyBounded(t, alpha, beta, depth - 1, false);
      var next := Reply(t, alpha, beta, depth - 1, false);
      var v' := if next < v then next else v;
      if v' > alpha {
        MinLoopBounded(s, acts[1..], alpha, Min(beta, v'), depth, v');
      }
    }
  }

  /** Whoever moves next in `t`, the side to move can move or the game is over, so the value is finite. */
  lemma ReplyBounded(t: State, alpha: int, beta: int, depth: nat, aiMoved: bool)
    requires Consistent(t)
    ensures Bounded(Reply(t, alpha, beta, depth, aiMoved))
    decreases depth, 3, 0
  {
    if CanContinue(t, aiMoved) {
      if aiMoved {
        MinValueBounded(t, alpha, beta, depth);
      } else {
        MaxValueBounded(t, alpha, beta, depth);
      }
    } else {
      OtherSideMoves(t, aiMoved);
      if aiMoved {
        MaxValueBounded(t, alpha, beta, depth);
      } else {
        MinValueBounded(t, alpha, beta, depth);
      }
    }
  }

  /**
   * When the AI can move and the game is not over, the root records a move:
   * the first action's value is finite, so it beats the initial -infinity.
   */
  lemma SearchFindsMove(s: State, depthLimit: nat)
    requires Consistent(s) && !Terminal(s) && depthLimit > 0 && CanContinue(s, false)
    ensures AlphaBetaSearch(s, depthLimit).best.Some?
  {
    CanContinueIffActions(s, false);
    ActionsApplicable(s, false);
    var acts := Actions(s, false);
    RootLoopFinds(s, acts, RootAlpha, RootBeta, depthLimit);
  }

  lemma RootLoopFinds(s: State, acts: seq<Move>, alpha: int, beta: int, depth: nat)
    requires Consistent(s) && depth > 0 && AllApplicable(s, acts) && acts != []
    ensures RootLoop(s, acts, alpha, beta, depth, NegInf, None).best.Some?
  {
    ApplicableSplit(s, acts);
    ApplyConsistent(s, acts[0]);
    var t := Apply(s, acts[0]).state;
    ReplyBounded(t, alpha, beta, depth - 1, true);
    var next := Reply(t, alpha, beta, depth - 1, true);
    assert next > NegInf;
    if next < beta {
      var r := RootLoop(s, acts[1..], Max(alpha, next), beta, depth, next, Some(acts[0]));
      assert r.best != Some(acts[0]) ==> r.best.Some?;
    }
  }

  // ---------------------------------------------------------------------------
  // Reference: plain minimax with the same turn-skip rule
  // ---------------------------------------------------------------------------

  /** The minimax value of `s` with `depth` plies left; `maxNode` says the AI is to move. */
  function Minimax(s: State, depth: nat, maxNode: bool): int
    decreases depth, 2, 0
  {
    if Terminal(s) then Utility(s)
    else if depth == 0 then Heuristic(s, RowRule)
    else
      Best(s, Actions(s, !maxNode), depth, maxNode, if maxNode then NegInf else PosInf)
  }

  /** The best of `acc` and the values of `acts` for the side named by `maxNode`. */
  function Best(s: State, acts: seq<Move>, depth: nat, maxNode: bool, acc: int): int
    requires depth > 0 && AllInBounds(acts)
    decreases depth, 1, |acts|
  {
    if acts == [] then acc
    else
      var c := MinimaxReply(Apply(s, acts[0]).state, depth - 1, maxNode);
      Best(s, acts[1..], depth, maxNode, if maxNode then Max(c, acc) else Min(c, acc))
  }

  /** The minimax value of `t` after a move of the side named by `aiMoved`. */
  function MinimaxReply(t: State, depth: nat, aiMoved: bool): int
    decreases depth, 3, 0
  {
    if CanContinue(t, aiMoved) then Minimax(t, depth, !aiMoved) else Minimax(t, depth, aiMoved)
  }

  lemma {:induction false} BestMaxShift(s: State, acts: seq<Move>, depth: nat, x: int, y: int)
    requires depth > 0 && AllInBounds(acts)
    ensures Best(s, acts, depth, true, Max(x, y)) == Max(x, Best(s, acts, depth, true, y))
    decreases |acts|
  {
    if acts != [] {
      var c := MinimaxReply(Apply(s, acts[0]).state, depth - 1, true);
      BestMaxShift(s, acts[1..], depth, x, Max(c, y));
      assert Max(c, Max(x, y)) == Max(x, Max(c, y));
    }
  }

  lemma {:induction false} BestMinShift(s: State, acts: seq<Move>, depth: nat, x: int, y: int)
    requires depth > 0 && AllInBounds(acts)
    ensures Best(s, acts, depth, false, Min(x, y)) == Min(x, Best(s, acts, depth, false, y))
    decreases |acts|
  {
    if acts != [] {
      var c := MinimaxReply(Apply(s, acts[0]).state, depth - 1, false);
      BestMinShift(s, acts[1..], depth, x, Min(c, y));
      assert Min(c, Min(x, y)) == Min(x, Min(c, y));
    }
  }

  /**
   * The alpha-beta guarantee for a window (alpha, beta): a true value at or
   * below alpha is reported at or below alpha, one at or above beta at or
   * above beta, and one strictly inside the window exactly.
   */
  predicate Window(r: int, m: int, alpha: int, beta: int) {
    && (m <= alpha ==> r <= alpha)
    && (m >= beta ==> r >= beta)
    && (alpha < m < beta ==> r == m)
  }

  predicate InWindow(alpha: int, beta: int) {
    NegInf <= alpha < beta <= PosInf
  }

  lemma MaxValueWindow(s: State, alpha: int, beta: int, depth: nat)
    requires InWindow(alpha, beta)
    ensures Window(MaxValue(s, alpha, beta, depth), Minimax(s, depth, true), alpha, beta)
    decreases depth, 2, 0
  {
    if !Terminal(s) && depth > 0 {
      MaxLoopWindow(s, Actions(s, false), alpha, beta, depth, NegInf);
    }
  }

  lemma MaxLoopWindow(s: State, acts: seq<Move>, alpha: int, beta: int, depth: nat, v: int)
    requires depth > 0 && AllInBounds(acts)
    requires InWindow(alpha, beta) && v <= alpha
    ensures MaxLoop(s, acts, alpha, beta, depth, v) >= v
    ensures Window(MaxLoop(s, acts, alpha, beta, depth, v), Best(s, acts, depth, true, v), alpha, beta)
    decreases depth, 1, |acts|
  {
    if acts != [] {
      var rest := acts[1..];
      InBoundsSplit(acts);
      var t := Apply(s, acts[0]).state;
      ReplyWindow(t, alpha, beta, depth - 1, true);
      var rc := Reply(t, alpha, beta, depth - 1, true);
      var mc := MinimaxReply(t, depth - 1, true);
      var v' := if rc > v then rc else v;
      var g := Best(s, rest, depth, true, v);
      BestMaxShift(s, rest, depth, mc, v);
      BestMaxShift(s, rest, depth, v, v);
      BestMaxShift(s, rest, depth, rc, v);
      assert Max(rc, v) == v';
      if v' < beta {
        MaxLoopWindow(s, rest, Max(alpha, v'), beta, depth, v');
        MaxStep(alpha, beta, v, rc, mc, g, MaxLoop(s, rest, Max(alpha, v'), beta, depth, v'));
      } else {
        MaxStep(alpha, beta, v, rc, mc, g, v');
      }
    }
  }

  /**
   * One step of maxValue's loop in integers: `rc` is the child's reported
   * value and `mc` its true value, `g` the true value of the remaining
   * actions, and `r` what the rest of the loop reports (the child's value
   * itself when it caused a cutoff).
   */
  lemma MaxStep(alpha: int, beta: int, v: int, rc: int, mc: int, g: int, r: int)
    requires alpha < beta && v <= alpha && g >= v && Window(rc, mc, alpha, beta)
    requires var v' := if rc > v then rc else v;
      if v' >= beta then r == v'
      else r >= v' && Window(r, Max(rc, g), Max(alpha, v'), beta)
    ensures r >= v && Window(r, Max(mc, g), alpha, beta)
  {
  }

  lemma MinValueWindow(s: State, alpha: int, beta: int, depth: nat)
    requires InWindow(alpha, beta)
    ensures Window(MinValue(s, alpha, beta, depth), Minimax(s, depth, false), alpha, beta)
    decreases depth, 2, 0
  {
    if !Terminal(s) && depth > 0 {
      MinLoopWindow(s, Actions(s, true), alpha, beta, depth, PosInf);
    }
  }

  lemma MinLoopWindow(s: State, acts: seq<Move>, alpha: int, beta: int, depth: nat, v: int)
    requires depth > 0 && AllInBounds(acts)
    requires InWindow(alpha, beta) && beta <= v
    ensures MinLoop(s, acts, alpha, beta, depth, v) <= v
    ensures Window(MinLoop(s, acts, alpha, beta, depth, v), Best(s, acts, depth, false, v), alpha, beta)
    decreases depth, 1, |acts|
  {
    if acts != [] {
      var rest := acts[1..];
      InBoundsSplit(acts);
      var t := Apply(s, acts[0]).state;
      ReplyWindow(t, alpha, beta, depth - 1, false);
      var rc := Reply(t, alpha, beta, depth - 1, false);
      var mc := MinimaxReply(t, depth - 1, false);
      var v' := if rc < v then rc else v;
      var g := Best(s, rest, depth, false, v);
      BestMinShift(s, rest, depth, mc, v);
      BestMinShift(s, rest, depth, v, v);
      BestMinShift(s, rest, depth, rc, v);
      assert Min(rc, v) == v';
      if v' > alpha {
        MinLoopWindow(s, rest, alpha, Min(beta, v'), depth, v');
        MinStep(alpha, beta, v, rc, mc, g, MinLoop(s, rest, alpha, Min(beta, v'), depth, v'));
      } else {
        MinStep(alpha, beta, v, rc, mc, g, v');
      }
    }
  }

  /** One step of minValue's loop in integers, the mirror image of MaxStep. */
  lemma MinStep(alpha: int, beta: int, v: int, rc: int, mc: int, g: int, r: int)
    requires alpha < beta && beta <= v && g <= v && Window(rc, mc, alpha, beta)
    requires var v' := if rc < v then rc else v;
      if v' <= alpha then r == v'
      else r <= v' && Window(r, Min(rc, g), alpha, Min(beta, v'))
    ensures r <= v && Window(r, Min(mc, g), alpha, beta)
  {
  }

  lemma ReplyWindow(t: State, alpha: int, beta: int, depth: nat, aiMoved: bool)
    requires InWindow(alpha, beta)
    ensures Window(Reply(t, alpha, beta, depth, aiMoved), MinimaxReply(t, depth, aiMoved), alpha, beta)
    decreases depth, 3, 0
  {
    if CanContinue(t, aiMoved) == aiMoved {
      MinValueWindow(t, alpha, beta, depth);
    } else {
      MaxValueWindow(t, alpha, beta, depth);
    }
  }

  /**
   * What alphaBetaSearch reports at the root: the minimax value itself when
   * that lies strictly between -1000 and 1000, and otherwise a value on the
   * same side of the window.
   */
  lemma SearchMatchesMinimax(s: State, depthLimit: nat)
    ensures Window(AlphaBetaSearch(s, depthLimit).value, Minimax(s, depthLimit, true), RootAlpha, RootBeta)
  {
    SearchIsMaxValue(s, depthLimit);
    MaxValueWindow(s, RootAlpha, RootBeta, depthLimit);
  }

  /**
   * The root loop's recorded move achieves the value the loop reports
   * whenever that value rose above the starting one and lies strictly inside
   * the window: the move's minimax value (the reply to it) is that value.
   * When the loop fails high, the recorded move is the one that stopped it,
   * and its minimax value reaches beta as well.
   */
  lemma {:induction false} RootLoopBest(s: State, acts: seq<Move>, alpha: int, beta: int, depth: nat, v: int, best: Option<Move>)
    requires depth > 0 && AllInBounds(acts)
    requires InWindow(alpha, beta) && v <= alpha
    ensures var r := RootLoop(s, acts, alpha, beta, depth, v, best);
      r.value > v && alpha < r.value < beta ==>
        && r.best.Some? && r.best.value.InBounds()
        && MinimaxReply(Apply(s, r.best.value).state, depth - 1, true) == r.value
    ensures var r := RootLoop(s, acts, alpha, beta, depth, v, best);
      r.value > v && r.value >= beta ==>
        && r.best.Some? && r.best.value.InBounds()
        && MinimaxReply(Apply(s, r.best.value).state, depth - 1, true) >= beta
    decreases |acts|
  {
    if acts != [] {
      InBoundsSplit(acts);
      var next := Reply(Apply(s, acts[0]).state, alpha, beta, depth - 1, true);
      RootStepWindow(s, acts[0], alpha, beta, depth);
      if next > v {
        if next < beta {
          RootLoopBest(s, acts[1..], Max(alpha, next), beta, depth, next, Some(acts[0]));
        }
      } else {
        RootLoopBest(s, acts[1..], alpha, beta, depth, v, best);
      }
    }
  }

  /** The reply to one root move meets the window theorem against its minimax value. */
  lemma RootStepWindow(s: State, a: Move, alpha: int, beta: int, depth: nat)
    requires depth > 0 && a.InBounds() && InWindow(alpha, beta)
    ensures Window(Reply(Apply(s, a).state, alpha, beta, depth - 1, true),
                   MinimaxReply(Apply(s, a).state, depth - 1, true), alpha, beta)
  {
    ReplyWindow(Apply(s, a).state, alpha, beta, depth - 1, true);
  }

  /**
   * When the minimax value of the root lies strictly between -1000 and 1000,
   * the move alphaBetaSearch hands back achieves it: the minimax value after
   * that move is the root's.
   */
  lemma SearchMoveAchievesValue(s: State, depthLimit: nat, m: Move)
    requires RootAlpha < Minimax(s, depthLimit, true) < RootBeta
    requires AlphaBetaSearch(s, depthLimit).best == Some(m)
    ensures depthLimit > 0 && m.InBounds()
      && MinimaxReply(Apply(s, m).state, depthLimit - 1, true) == Minimax(s, depthLimit, true)
  {
    SearchMatchesMinimax(s, depthLimit);
    RootLoopBest(s, Actions(s, false), RootAlpha, RootBeta, depthLimit, NegInf, None);
  }

  /**
   * When the minimax value of the root reaches 1000, the search stops at the
   * first move whose reply reaches 1000 and hands that move back: its
   * minimax value reaches 1000 too.
   */
  lemma SearchMoveFailsHigh(s: State, depthLimit: nat, m: Move)
    requires Minimax(s, depthLimit, true) >= RootBeta
    requires AlphaBetaSearch(s, depthLimit).best == Some(m)
    ensures depthLimit > 0 && m.InBounds()
      && MinimaxReply(Apply(s, m).state, depthLimit - 1, true) >= RootBeta
  {
    SearchMatchesMinimax(s, depthLimit);
    RootLoopBest(s, Actions(s, false), RootAlpha, RootBeta, depthLimit, NegInf, None);
  }
}
