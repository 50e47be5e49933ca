/**
 * The cell-click handler of the stage game's board component.  It belongs to the same
 * render as the hook's state it reads, so it reads a snapshot and writes the hook's
 * state in program order, as the hook's own handlers do.
 */
module StageBoardView {
  import opened Wrappers
  import opened Board
  import opened GameLogic
  import opened StageGame

  /**
   * The card's turn counter after one swap: a running card loses a turn, and with its
   * last turn both multipliers drop back to 1.
   */
  function CountedDown(s: Snapshot): Snapshot {
    if s.cardTurnsLeft <= 0 then s
    else if s.cardTurnsLeft - 1 == 0 then s.(cardMultiplier := 1.0, scoreMultiplier := 1.0, cardTurnsLeft := 0)
    else s.(cardTurnsLeft := s.cardTurnsLeft - 1)
  }

  /**
   * The countdown as the component writes it: the two multiplier setters it calls are not
   * among the values the hook returns, so they are undefined there, and the updater fails
   * exactly when it would call them.
   */
  function CountedDownAsWritten(s: Snapshot): Option<Snapshot> {
    if s.cardTurnsLeft <= 0 then Some(s)
    else if s.cardTurnsLeft - 1 == 0 then None
    else Some(s.(cardTurnsLeft := s.cardTurnsLeft - 1))
  }

  /** The swap that uses up a card's last turn is the one input on which the countdown as written fails. */
  lemma CountdownAsWrittenFails(s: Snapshot)
    ensures CountedDownAsWritten(s) == None <==> s.cardTurnsLeft == 1
    ensures CountedDownAsWritten(s) != None ==> CountedDownAsWritten(s) == Some(CountedDown(s))
  {
  }

  /** A card drawn for three turns lasts exactly three swaps: its multiplier holds for two and ends with the third. */
  lemma CardLastsThreeSwaps(s: Snapshot)
    requires s.cardTurnsLeft == 3
    ensures var s1 := CountedDown(s);
            var s2 := CountedDown(s1);
            var s3 := CountedDown(s2);
            s1.cardMultiplier == s.cardMultiplier && s1.cardTurnsLeft == 2 &&
            s2.cardMultiplier == s.cardMultiplier && s2.cardTurnsLeft == 1 &&
            s3.cardMultiplier == 1.0 && s3.scoreMultiplier == 1.0 && s3.cardTurnsLeft == 0 &&
            CountedDown(s3) == s3
  {
  }

  /** The countdown touches only the card's fields and keeps a consistent state consistent. */
  lemma CountedDownConsistent(s: Snapshot)
    requires Consistent(s)
    ensures var t := CountedDown(s);
            Consistent(t) && t == s.(cardMultiplier := t.cardMultiplier, scoreMultiplier := t.scoreMultiplier,
                                     cardTurnsLeft := t.cardTurnsLeft)
  {
  }

  /** The state an adjacent swap of sel and p leaves before the chain: swapped, unselected, one more move, counted down. */
  function Swapping(v: Snapshot, sel: Pos, p: Pos): Snapshot
    requires InBounds(sel) && InBounds(p)
  {
    CountedDown(v.(board := Swapped(v.board, sel, p), selected := None, moves := v.moves + 1))
  }

  /**
   * The adjacent-swap branch of handleClick in render v: the chain runs when the swapped
   * board matches; otherwise board and move count are restored.
   */
  function SwapOutcome(v: Snapshot, d0: Difficulty, sel: Pos, p: Pos, env: ChainEnv): Snapshot
    requires Consistent(v) && InBounds(sel) && InBounds(p)
  {
    Outcome(v, Swapping(v, sel, p), d0, Swapped(v.board, sel, p), env)
  }

  /** The swap's outcome for the swapped board nb and the state mid the swap left. */
  function Outcome(v: Snapshot, mid: Snapshot, d0: Difficulty, nb: Board, env: ChainEnv): Snapshot
    requires Consistent(v)
  {
    if |MatchSet(nb)| > 0 then Processed(v, mid, d0, nb, v.moves + 1, env)
    else mid.(moves := v.moves, board := v.board)
  }

  /** Either outcome of a swap keeps consistency. */
  lemma OutcomeConsistent(v: Snapshot, mid: Snapshot, d0: Difficulty, nb: Board, env: ChainEnv)
    requires Consistent(v) && Consistent(mid)
    ensures Consistent(Outcome(v, mid, d0, nb, env))
  {
    if |MatchSet(nb)| > 0 {
      ProcessedConsistent(v, mid, d0, nb, v.moves + 1, env);
    }
  }

  /** The swap itself keeps consistency. */
  lemma SwappingConsistent(v: Snapshot, sel: Pos, p: Pos)
    requires Consistent(v) && InBounds(sel) && InBounds(p)
    ensures Consistent(Swapping(v, sel, p))
  {
    var pre := v.(board := Swapped(v.board, sel, p), selected := None, moves := v.moves + 1);
    assert Consistent(pre);
    CountedDownConsistent(pre);
  }

  /**
   * handleClick(row, col) in render v: ignored while processing or after game over; else
   * the first click selects, a click next to the selection swaps (and runs the chain when
   * the swap matches, restoring the board and the move count when it does not), a click
   * on the selection clears it and any other click selects anew.
   */
  function Clicked(v: Snapshot, d0: Difficulty, p: Pos, env: ChainEnv): Snapshot
    requires Consistent(v) && InBounds(p)
  {
    if v.isProcessing || v.gameState == GameOver then v
    else match v.selected
      case None => v.(selected := Some(p))
      case Some(sel) =>
        if Adjacent(sel, p) then SwapOutcome(v, d0, sel, p, env)
        else if sel == p then v.(selected := None)
        else v.(selected := Some(p))
  }

  /** Clicks do nothing while a chain runs or once the game is over. */
  lemma ClickIgnored(v: Snapshot, d0: Difficulty, p: Pos, env: ChainEnv)
    requires Consistent(v) && InBounds(p) && (v.isProcessing || v.gameState == GameOver)
    ensures Clicked(v, d0, p, env) == v
  {
  }

  /** Without a swap a click only changes the selection: it selects p, or clears a selection of p itself. */
  lemma ClickSelects(v: Snapshot, d0: Difficulty, p: Pos, env: ChainEnv)
    requires Consistent(v) && InBounds(p) && !v.isProcessing && v.gameState != GameOver
    requires v.selected.None? || !Adjacent(v.selected.value, p)
    ensures Clicked(v, d0, p, env) == v.(selected := if v.selected == Some(p) then None else Some(p))
  {
  }

  /**
   * A swap that makes no match is undone: board and move count are those of before the
   * click, the selection is cleared, and a running card still loses a turn.
   */
  lemma FailedSwapReverts(v: Snapshot, d0: Difficulty, p: Pos, env: ChainEnv)
    requires Consistent(v) && InBounds(p) && !v.isProcessing && v.gameState != GameOver
    requires v.selected.Some? && Adjacent(v.selected.value, p)
    requires |MatchSet(Swapped(v.board, v.selected.value, p))| == 0
    ensures Clicked(v, d0, p, env) == CountedDown(v.(selected := None))
  {
  }

  /**
   * A matching swap while playing spends one move: when its chain leaves a move on the
   * board, the game is over exactly when that move was the budget's last, the stage is
   * cleared exactly when it was not and the chain reached the target.
   */
  lemma MatchingSwapSpendsMove(v: Snapshot, d0: Difficulty, p: Pos, env: ChainEnv)
    requires Consistent(v) && InBounds(p) && !v.isProcessing && v.gameState == Playing
    requires v.selected.Some? && Adjacent(v.selected.value, p)
    requires var nb := Swapped(v.board, v.selected.value, p);
             |MatchSet(nb)| > 0 && HasPossibleMove(Chain(v, nb, env).board)
    ensures var t := Clicked(v, d0, p, env);
            var r := Chain(v, Swapped(v.board, v.selected.value, p), env);
            t.moves == v.moves + 1 && t.selected == None && !t.isProcessing &&
            (t.gameState == GameOver <==> v.moves + 1 >= v.maxMoves) &&
            (t.gameState == StageClear <==> v.moves + 1 < v.maxMoves && r.score >= v.targetScore) &&
            t.score == r.score
  {
    var sel := v.selected.value;
    CountedDownConsistent(v.(board := Swapped(v.board, sel, p), selected := None, moves := v.moves + 1));
    MatchedOutcome(v, Swapping(v, sel, p), d0, Swapped(v.board, sel, p), env);
  }

  /** The outcome of a matching swap, for any swapped board nb and any state mid the swap left. */
  lemma MatchedOutcome(v: Snapshot, mid: Snapshot, d0: Difficulty, nb: Board, env: ChainEnv)
    requires Consistent(v) && !v.isProcessing && v.gameState == Playing
    requires mid.gameState == Playing && mid.selected == None && mid.moves == v.moves + 1 && mid.score == v.score
    requires |MatchSet(nb)| > 0 && HasPossibleMove(Chain(v, nb, env).board)
    ensures var t := Outcome(v, mid, d0, nb, env);
            var r := Chain(v, nb, env);
            t.moves == v.moves + 1 && t.selected == None && !t.isProcessing &&
            (t.gameState == GameOver <==> v.moves + 1 >= v.maxMoves) &&
            (t.gameState == StageClear <==> v.moves + 1 < v.maxMoves && r.score >= v.targetScore) &&
            t.score == r.score
  {
    ProcessedOutcome(v, mid, d0, nb, v.moves + 1, env);
    if Chain(v, nb, env).chainCount == 0 {
      assert env.fills == [];
    }
  }

  /** A swap keeps a consistent state consistent. */
  lemma SwapOutcomeConsistent(v: Snapshot, d0: Difficulty, sel: Pos, p: Pos, env: ChainEnv)
    requires Consistent(v) && InBounds(sel) && InBounds(p)
    ensures Consistent(SwapOutcome(v, d0, sel, p, env))
  {
    SwappingConsistent(v, sel, p);
    OutcomeConsistent(v, Swapping(v, sel, p), d0, Swapped(v.board, sel, p), env);
  }

  /** Clicking keeps a consistent state consistent. */
  lemma ClickedConsistent(v: Snapshot, d0: Difficulty, p: Pos, env: ChainEnv)
    requires Consistent(v) && InBounds(p)
    ensures Consistent(Clicked(v, d0, p, env))
  {
    if !v.isProcessing && v.gameState != GameOver && v.selected.Some? && Adjacent(v.selected.value, p) {
      SwapOutcomeConsistent(v, d0, v.selected.value, p, env);
    }
  }

  /** The swap branch of handleClick up to the match test: shows the swap, clears the selection, counts the move and the card's turn. */
  method Swap(g: StageGame, v: Snapshot, sel: Pos, p: Pos) returns (newBoard: Board)
    requires InBounds(sel) && InBounds(p) && g.state == v
    modifies g
    ensures newBoard == Swapped(v.board, sel, p)
    ensures g.state == Swapping(v, sel, p)
  {
    newBoard := SwapCells(v.board, sel, p);
    g.state := g.state.(board := newBoard);
    g.state := g.state.(selected := None);
    var nextMoves := v.moves + 1;
    g.state := g.state.(moves := nextMoves);
    var prev := g.state.cardTurnsLeft;
    if prev > 0 {
      var next := prev - 1;
      if next == 0 {
        g.state := g.state.(cardMultiplier := 1.0);
        g.state := g.state.(scoreMultiplier := 1.0);
      }
      g.state := g.state.(cardTurnsLeft := next);
    }
  }

  /** The adjacent-swap branch of handleClick on the game g, in the render v whose state g holds. */
  method SwapClick(g: StageGame, v: Snapshot, sel: Pos, p: Pos, env: ChainEnv)
    requires Consistent(v) && InBounds(sel) && InBounds(p) && g.state == v
    modifies g
    ensures g.state == SwapOutcome(v, g.initialDifficulty, sel, p, env)
  {
    var newBoard := Swap(g, v, sel, p);
    MatchOrRevert(g, v, newBoard, env);
  }

  /**
   * The rest of the swap branch, on the swapped board nb with g holding the state the swap
   * showed: the chain runs when nb matches; otherwise moves and board are put back.
   */
  method MatchOrRevert(g: StageGame, v: Snapshot, nb: Board, env: ChainEnv)
    requires Consistent(v)
    modifies g
    ensures g.state == Outcome(v, old(g.state), g.initialDifficulty, nb, env)
  {
    var nextMoves := v.moves + 1;
    var initialMatches := FindMatches(nb);
    if |initialMatches| > 0 {
      g.ProcessMatchesAndGravity(v, nb, nextMoves, env);
    } else {
      g.state := g.state.(moves := v.moves);
      g.state := g.state.(board := v.board);
    }
  }

  /** handleClick(p.row, p.col) on the game g, in the render whose state g holds. */
  method HandleClick(g: StageGame, p: Pos, env: ChainEnv)
    requires g.Valid() && InBounds(p)
    modifies g
    ensures g.state == Clicked(old(g.state), g.initialDifficulty, p, env)
    ensures g.Valid()
  {
    var v := g.state;
    ClickedConsistent(v, g.initialDifficulty, p, env);
    if v.isProcessing || v.gameState == GameOver {
      return;
    }
    if v.selected.Some? {
      var sel := v.selected.value;
      var isAdjacent := Abs(sel.row - p.row) + Abs(sel.col - p.col) == 1;
      if isAdjacent {
        SwapClick(g, v, sel, p, env);
      } else if sel.row == p.row && sel.col == p.col {
        g.state := g.state.(selected := None);
      } else {
        g.state := g.state.(selected := Some(p));
      }
    } else {
      g.state := g.state.(selected := Some(p));
    }
  }
}
