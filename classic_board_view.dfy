/**
 * The cell-click handler of the first version's board component.  A failed swap keeps
 * the move it counted and is undone on the board only; a matching swap may add a colour
 * before the cascade runs.
 */
module ClassicBoardView {
  import opened Wrappers
  import opened Board
  import opened GameLogic
  import opened Scoring
  import opened ClassicGame

  /** The inputs the cascade of a matching swap draws on besides the state. */
  datatype CascadeEnv = CascadeEnv(
    pow15: nat -> NonNegReal,    // n ** 1.5
    rounds: seq<Draws>)          // the refill draws, one per cascade round

  /** The state an adjacent swap of sel and p leaves before the match test: swapped, unselected, one more move. */
  function SwapShown(v: ClassicState, sel: Pos, p: Pos): ClassicState
    requires InBounds(sel) && InBounds(p)
  {
    v.(board := Swapped(v.board, sel, p), selected := None, moves := v.moves + 1)
  }

  /** The number of block types after a click with n types: one more colour only on a matching swap. */
  function ClickedTypes(v: ClassicState, n: int, p: Pos): int
    requires InBounds(p) && Consistent(v)
  {
    if v.isProcessing || v.isGameOver then n
    else match v.selected
      case Some(sel) =>
        if Adjacent(sel, p) && |MatchSet(Swapped(v.board, sel, p))| > 0 then Increased(n, v.moves + 1)
        else n
      case None => n
  }

  /** The outcome of a swap for the swapped board nb, the shown state mid and the types n after the swap. */
  function SwapResult(v: ClassicState, mid: ClassicState, nb: Board, n: int, env: CascadeEnv): ClassicState
    requires n > 0
  {
    if |MatchSet(nb)| > 0 then Cascaded(mid, nb, n, env.pow15, env.rounds)
    else mid.(board := v.board)
  }

  /**
   * handleClick(row, col) on the state v with n block types: ignored while processing or after
   * game over; else the first click selects, a click next to the selection swaps (the cascade runs
   * when the swap matches, the board is put back when it does not; the move counts either way),
   * a click on the selection clears it and any other click selects anew.
   */
  function Clicked(v: ClassicState, n: int, p: Pos, env: CascadeEnv): ClassicState
    requires InBounds(p) && InitialBlockTypes <= n <= MaxBlockTypes && Consistent(v)
  {
    if v.isProcessing || v.isGameOver then v
    else match v.selected
      case None => v.(selected := Some(p))
      case Some(sel) =>
        if Adjacent(sel, p) then SwapResult(v, SwapShown(v, sel, p), Swapped(v.board, sel, p), ClickedTypes(v, n, p), env)
        else if sel == p then v.(selected := None)
        else v.(selected := Some(p))
  }

  /** Clicks do nothing while a cascade runs or once the game is over. */
  lemma ClickIgnored(v: ClassicState, n: int, p: Pos, env: CascadeEnv)
    requires InBounds(p) && InitialBlockTypes <= n <= MaxBlockTypes && Consistent(v)
    requires v.isProcessing || v.isGameOver
    ensures Clicked(v, n, p, env) == v && ClickedTypes(v, n, p) == n
  {
  }

  /** Without a swap a click only changes the selection: it selects p, or clears a selection of p itself. */
  lemma ClickSelects(v: ClassicState, n: int, p: Pos, env: CascadeEnv)
    requires InBounds(p) && InitialBlockTypes <= n <= MaxBlockTypes && Consistent(v)
    requires !v.isProcessing && !v.isGameOver
    requires v.selected.None? || !Adjacent(v.selected.value, p)
    ensures Clicked(v, n, p, env) == v.(selected := if v.selected == Some(p) then None else Some(p))
    ensures ClickedTypes(v, n, p) == n
  {
  }

  /**
   * A swap that makes no match keeps the move it counted: the board is the one of before the
   * click, the selection is cleared and the number of colours stays.
   */
  lemma FailedSwapKeepsMove(v: ClassicState, n: int, p: Pos, env: CascadeEnv)
    requires InBounds(p) && InitialBlockTypes <= n <= MaxBlockTypes && Consistent(v)
    requires !v.isProcessing && !v.isGameOver
    requires v.selected.Some? && Adjacent(v.selected.value, p)
    requires |MatchSet(Swapped(v.board, v.selected.value, p))| == 0
    ensures Clicked(v, n, p, env) == v.(selected := None, moves := v.moves + 1)
    ensures ClickedTypes(v, n, p) == n
  {
  }

  /**
   * A matching swap counts its move, may add one colour for the new move count, and runs the
   * cascade on the swapped board with the colours after that increase.
   */
  lemma MatchingSwapCascades(v: ClassicState, n: int, p: Pos, env: CascadeEnv)
    requires InBounds(p) && InitialBlockTypes <= n <= MaxBlockTypes && Consistent(v)
    requires !v.isProcessing && !v.isGameOver
    requires v.selected.Some? && Adjacent(v.selected.value, p)
    requires |MatchSet(Swapped(v.board, v.selected.value, p))| > 0
    ensures var n' := ClickedTypes(v, n, p);
            var t := Clicked(v, n, p, env);
            var nb := Swapped(v.board, v.selected.value, p);
            var r := RunCascade(n', env.pow15, Cascade(nb, v.score, 0), env.rounds);
            n <= n' <= n + 1 && n' <= MaxBlockTypes &&
            t.moves == v.moves + 1 && t.selected == None && t.score == r.score >= v.score &&
            (t.isGameOver <==> !HasPossibleMove(r.board)) &&
            (r.chainCount > 0 ==> t.board == r.board)
  {
    var sel := v.selected.value;
    CascadedOutcome(SwapShown(v, sel, p), Swapped(v.board, sel, p), ClickedTypes(v, n, p), env.pow15, env.rounds);
  }

  /** Clicking keeps a consistent state consistent and the number of colours in range. */
  lemma ClickedConsistent(v: ClassicState, n: int, p: Pos, env: CascadeEnv)
    requires InBounds(p) && InitialBlockTypes <= n <= MaxBlockTypes && Consistent(v)
    ensures Consistent(Clicked(v, n, p, env))
    ensures InitialBlockTypes <= ClickedTypes(v, n, p) <= MaxBlockTypes
  {
    if !v.isProcessing && !v.isGameOver && v.selected.Some? && Adjacent(v.selected.value, p) {
      var sel := v.selected.value;
      var nb := Swapped(v.board, sel, p);
      if |MatchSet(nb)| > 0 {
        CascadedConsistent(SwapShown(v, sel, p), nb, ClickedTypes(v, n, p), env.pow15, env.rounds);
      }
    }
  }

  /** The adjacent-swap branch of handleClick on the game g, on the state v that g holds. */
  method SwapClick(g: ClassicGame, v: ClassicState, sel: Pos, p: Pos, env: CascadeEnv)
    requires g.Valid() && g.state == v && InBounds(sel) && InBounds(p)
    modifies g, g.types
    ensures g.types.Valid()
    ensures g.types.max == (if |MatchSet(Swapped(v.board, sel, p))| > 0 then Increased(old(g.types.max), v.moves + 1)
                            else old(g.types.max))
    ensures g.state == SwapResult(v, SwapShown(v, sel, p), Swapped(v.board, sel, p), g.types.max, env)
  {
    var newBoard := SwapCells(v.board, sel, p);
    g.state := g.state.(board := newBoard);
    g.state := g.state.(selected := None);
    g.state := g.state.(moves := g.state.moves + 1);
    var initialMatches := FindMatches(newBoard);
    if |initialMatches| > 0 {
      g.types.Increase(v.moves + 1);
      g.ProcessMatchesAndGravity(newBoard, env.pow15, env.rounds);
    } else {
      g.state := g.state.(board := v.board);
    }
  }

  /** handleClick(p.row, p.col) on the game g. */
  method HandleClick(g: ClassicGame, p: Pos, env: CascadeEnv)
    requires g.Valid() && InBounds(p)
    modifies g, g.types
    ensures g.types.max == ClickedTypes(old(g.state), old(g.types.max), p)
    ensures g.state == Clicked(old(g.state), old(g.types.max), p, env)
    ensures g.Valid()
  {
    var v := g.state;
    ClickedConsistent(v, g.types.max, p, env);
    if v.isProcessing || v.isGameOver {
      return;
    }
    if v.selected.Some? {
      var sel := v.selected.value;
      var isAdjacent := Abs(sel.row - p.row) + Abs(sel.col - p.col) == 1;
      if isAdjacent {
        SwapClick(g, v, sel, p, env);
      } else if sel.row == p.row && sel.col == p.col {
        g.state := g.state.(selected := None);
      } else {
        g.state := g.state.(selected := Some(p));
      }
    } else {
      g.state := g.state.(selected := Some(p));
    }
  }
}
