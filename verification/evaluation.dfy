/**
 * State evaluations of the search: the exact utility of a finished game and
 * the heuristic used at the depth cutoff, with the "safe AI piece" count in
 * the two forms the code has.
 */
module Evaluation {
  import opened Board
  import opened Rules

  /**
   * computeUtilityValue: (ai - human) * 500 + ai * 50. Positive exactly when
   * the AI keeps more than ten elevenths of the human's piece count, so a game
   * the AI wins outright (no human pieces, some AI pieces) is positive.
   */
  function Utility(s: State): (r: int)
    ensures r > 0 <==> 11 * |s.ai| > 10 * |s.human|
    ensures s.human == {} && s.ai != {} ==> r > 0
    ensures s.ai == {} ==> r <= 0
  {
    (|s.ai| - |s.human|) * 500 + |s.ai| * 50
  }

  /**
   * The two definitions of a safe AI piece at position `p`.
   * RowRule (Submit.py): the piece stands in column 0 or column 8 (the board
   * width, which no cell has), or no human piece stands on a higher row.
   * ChebyshevRule (AIPlayer.py): no human piece is within two rows and two
   * columns of it.
   */
  datatype SafetyRule = RowRule | ChebyshevRule

  predicate IsSafe(s: State, p: Pos, rule: SafetyRule) {
    match rule
    case RowRule =>
      p.col == 0 || p.col == Size
      || forall h :: h in s.human && h in s.pos ==> p.row >= s.pos[h].row
    case ChebyshevRule =>
      forall h :: h in s.human && h in s.pos ==> !(Abs(p.row - s.pos[h].row) <= 2 && Abs(p.col - s.pos[h].col) <= 2)
  }

  /** The AI ids counted as safe. */
  function SafeSet(s: State, rule: SafetyRule): set<int> {
    SafeAmong(s, rule, s.ai)
  }

  /** The number of safe AI pieces; never more than the AI has. */
  function SafeCount(s: State, rule: SafetyRule): (r: nat)
    ensures r <= |s.ai|
  {
    SubsetCard(SafeSet(s, rule), s.ai);
    |SafeSet(s, rule)|
  }

  /** The ids of `among` that are AI pieces the rule calls safe. */
  function SafeAmong(s: State, rule: SafetyRule, among: set<int>): set<int> {
    set id | id in among && id in s.pos && IsSafe(s, s.pos[id], rule)
  }

  lemma SafeAmongGrows(s: State, rule: SafetyRule, seen: set<int>, id: int)
    requires id !in seen
    ensures |SafeAmong(s, rule, seen + {id})|
         == |SafeAmong(s, rule, seen)| + if id in s.pos && IsSafe(s, s.pos[id], rule) then 1 else 0
  {
    if id in s.pos && IsSafe(s, s.pos[id], rule) {
      assert SafeAmong(s, rule, seen + {id}) == SafeAmong(s, rule, seen) + {id};
    } else {
      assert SafeAmong(s, rule, seen + {id}) == SafeAmong(s, rule, seen);
    }
  }

  /**
   * countSafeAICheckers: one pass over the AI's set, counting the pieces the
   * rule calls safe.
   */
  method CountSafeAICheckers(s: State, rule: SafetyRule) returns (count: nat)
    ensures count == |SafeSet(s, rule)|
    ensures count <= |s.ai|
  {
    count := 0;
    var rest := s.ai;
    ghost var seen: set<int> := {};
    while rest != {}
      invariant rest + seen == s.ai && rest !! seen
      invariant count == |SafeAmong(s, rule, seen)|
      decreases rest
    {
      // An element of the non-empty set, so that Dafny knows the choice below can be made.
      ghost var member := Element(rest);
      var id :| id in rest;
      SafeAmongGrows(s, rule, seen, id);
      if id in s.pos && IsSafe(s, s.pos[id], rule) {
        count := count + 1;
      }
      rest := rest - {id};
      seen := seen + {id};
    }
    assert seen == s.ai;
    SubsetCard(SafeSet(s, rule), s.ai);
  }

  /**
   * computeHeuristic: (ai - human) * 50 + safe * 10 + ai. Since 0 <= safe <= ai,
   * it lies between (ai - human) * 50 + ai and (ai - human) * 50 + 11 * ai.
   */
  function Heuristic(s: State, rule: SafetyRule): (r: int)
    ensures (|s.ai| - |s.human|) * 50 + |s.ai| <= r <= (|s.ai| - |s.human|) * 50 + 11 * |s.ai|
  {
    (|s.ai| - |s.human|) * 50 + SafeCount(s, rule) * 10 + |s.ai|
  }

  /**
   * The comment on computeUtilityValue says its weights make a utility
   * preferred over heuristic values. As written they do not: a game the AI
   * has won with one piece left against none is worth 550, while a cutoff
   * position with twelve AI pieces against one human piece is worth at least
   * 562 whatever the safety rule, so the search ranks the unfinished position
   * above the win.
   */
  lemma DominanceFails(win: State, cut: State, rule: SafetyRule)
    requires |win.ai| == 1 && |win.human| == 0 && |cut.ai| == 12 && |cut.human| == 1
    ensures win.human == {} && win.ai != {}
    ensures Utility(win) == 550 && Heuristic(cut, rule) >= 562
    ensures Heuristic(cut, rule) > Utility(win)
  {
  }

  /** No side ever holds more pieces than it starts with. */
  const MaxPiecesPerSide: int := 12

  /** Heuristic values of positions with at most twelve pieces a side lie in [-600, 732]. */
  lemma HeuristicRange(s: State, rule: SafetyRule)
    requires |s.ai| <= MaxPiecesPerSide && |s.human| <= MaxPiecesPerSide
    ensures -600 <= Heuristic(s, rule) <= 732
  {
  }

  /**
   * The utility with the intended dominance: the piece difference weighed at
   * 1000 instead of 500. A won game is worth at least 1050 and a lost one at
   * most -1000, outside the heuristic's range.
   */
  function DominantUtility(s: State): (r: int)
    ensures s.human == {} && s.ai != {} ==> r >= 1050
    ensures s.ai == {} && s.human != {} ==> r <= -1000
    ensures r > 0 <==> 21 * |s.ai| > 20 * |s.human|
  {
    (|s.ai| - |s.human|) * 1000 + |s.ai| * 50
  }

  /**
   * With the corrected weights every won game outranks, and every lost game
   * ranks below, every cutoff position a game can reach.
   */
  lemma UtilityDominates(end: State, cut: State, rule: SafetyRule)
    requires |cut.ai| <= MaxPiecesPerSide && |cut.human| <= MaxPiecesPerSide
    ensures end.human == {} && end.ai != {} ==> DominantUtility(end) > Heuristic(cut, rule)
    ensures end.ai == {} && end.human != {} ==> DominantUtility(end) < Heuristic(cut, rule)
  {
    HeuristicRange(cut, rule);
  }

  /** Every evaluation of a consistent state stays within +-EvalBound. */
  const EvalBound: int := 40000

  lemma EvaluationsBounded(s: State, rule: SafetyRule)
    requires Consistent(s)
    ensures -EvalBound <= Utility(s) <= EvalBound
    ensures -EvalBound <= Heuristic(s, rule) <= EvalBound
  {
    PieceCountBound(s);
  }
}
