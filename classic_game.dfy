/**
 * The hook of the first version of the game: a board that is re-rolled until it has
 * no match, the cascade that clears matches with growing bonuses until none is left,
 * and the high-score rule.  Its state cells are the fields of the record `state`; the
 * module-level block-type counter it reads through getNumBlockTypes is `types`.
 */
module ClassicGame {
  import opened Wrappers
  import opened Board
  import opened GameLogic
  import opened Scoring

  /** Every cell holds one of the first n colours. */
  predicate Coloured(b: Board, n: int) {
    forall r, c :: 0 <= r < Size && 0 <= c < Size ==> b[r][c].Some? && 0 <= b[r][c].value < n
  }

  /** A board of random colours, one Math.floor(Math.random() * n) per cell. */
  function RandomBoard(draws: Draws, n: int): (b: Board)
    requires n > 0
    ensures Coloured(b, n)
  {
    seq(Size, r requires 0 <= r < Size =>
      seq(Size, c requires 0 <= c < Size => Some(RandomBlock(draws[r][c], n))))
  }

  // ---------------------------------------------------------------------
  // re-rolling matched cells

  /** One re-roll: every matched cell takes a new random colour, every other cell keeps its own. */
  function Rerolled(b: Board, draws: Draws, n: int): (t: Board)
    requires n > 0
    ensures forall r, c :: 0 <= r < Size && 0 <= c < Size && Pos(r, c) !in MatchSet(b) ==> t[r][c] == b[r][c]
    ensures forall r, c :: 0 <= r < Size && 0 <= c < Size && Pos(r, c) in MatchSet(b) ==>
              t[r][c].Some? && 0 <= t[r][c].value < n
  {
    seq(Size, r requires 0 <= r < Size =>
      seq(Size, c requires 0 <= c < Size =>
        if Pos(r, c) in MatchSet(b) then Some(RandomBlock(draws[r][c], n)) else b[r][c]))
  }

  /** A re-roll keeps a board in the first n colours. */
  lemma RerolledColoured(b: Board, draws: Draws, n: int)
    requires n > 0 && Coloured(b, n)
    ensures Coloured(Rerolled(b, draws, n), n)
  {
    var t := Rerolled(b, draws, n);
    forall r, c | 0 <= r < Size && 0 <= c < Size ensures t[r][c].Some? && 0 <= t[r][c].value < n {
      if Pos(r, c) in MatchSet(b) {
      } else {
        assert t[r][c] == b[r][c];
      }
    }
  }

  /** The re-roll loop so far: the board and the number of re-rolls taken. */
  datatype Rolled = Rolled(board: Board, rounds: nat)

  /**
   * `while (matches.length > 0)` re-rolling the matched cells: each round uses the next
   * draws of rolls; the loop ends with a board without matches or when rolls run out.
   */
  function RerollUntilClear(n: int, c: Rolled, rolls: seq<Draws>): (r: Rolled)
    requires n > 0
    ensures c.rounds <= r.rounds <= c.rounds + |rolls|
    ensures |MatchSet(r.board)| == 0 || r.rounds == c.rounds + |rolls|
    ensures r.rounds == c.rounds ==> r == c
    decreases |rolls|
  {
    if |MatchSet(c.board)| == 0 || rolls == [] then c
    else RerollUntilClear(n, Rolled(Rerolled(c.board, rolls[0], n), c.rounds + 1), rolls[1..])
  }

  /** The re-roll loop keeps a board in the first n colours, so it never brings back a null. */
  lemma {:induction false} RerollUntilClearColoured(n: int, c: Rolled, rolls: seq<Draws>)
    requires n > 0 && Coloured(c.board, n)
    ensures Coloured(RerollUntilClear(n, c, rolls).board, n)
    decreases |rolls|
  {
    if |MatchSet(c.board)| > 0 && rolls != [] {
      var d := Rolled(Rerolled(c.board, rolls[0], n), c.rounds + 1);
      RerolledColoured(c.board, rolls[0], n);
      RerollUntilClearColoured(n, d, rolls[1..]);
      assert RerollUntilClear(n, c, rolls) == RerollUntilClear(n, d, rolls[1..]);
    }
  }

  /** A loop that has used c.rounds draws of rolls and still matches goes on from its next round d. */
  lemma RerollUntilClearAt(n: int, c: Rolled, d: Rolled, rolls: seq<Draws>)
    requires n > 0 && |MatchSet(c.board)| > 0 && c.rounds < |rolls|
    requires d == Rolled(Rerolled(c.board, rolls[c.rounds], n), c.rounds + 1)
    ensures RerollUntilClear(n, d, rolls[d.rounds..]) == RerollUntilClear(n, c, rolls[c.rounds..])
  {
    var rest := rolls[c.rounds..];
    assert rest[0] == rolls[c.rounds];
    assert rest[1..] == rolls[d.rounds..];
  }

  /** The board resetBoard builds: random colours of the three starting types, re-rolled until no match. */
  function ResetRolled(init: Draws, rolls: seq<Draws>): Rolled {
    RerollUntilClear(InitialBlockTypes, Rolled(RandomBoard(init, InitialBlockTypes), 0), rolls)
  }

  /** resetBoard's board has only the three starting colours and, unless the re-rolls run out, no match. */
  lemma ResetBoardNoMatch(init: Draws, rolls: seq<Draws>)
    ensures var r := ResetRolled(init, rolls);
            Coloured(r.board, InitialBlockTypes) && Full(r.board) &&
            (|MatchSet(r.board)| == 0 || r.rounds == |rolls|)
  {
    RerollUntilClearColoured(InitialBlockTypes, Rolled(RandomBoard(init, InitialBlockTypes), 0), rolls);
  }

  /** What the effect on the first render does to the board b with n block types. */
  function InitialSettled(b: Board, n: int, rolls1: seq<Draws>, refill: Draws, rolls2: seq<Draws>): Board
    requires n > 0
  {
    var b1 := RerollUntilClear(n, Rolled(b, 0), rolls1).board;
    var b2 := Refilled(Gravity(b1), refill, n);
    RerollUntilClear(n, Rolled(b2, 0), rolls2).board
  }

  /**
   * On a board of random colours, as the first render has, gravity and refill between the
   * two re-roll loops change nothing: the board is only re-rolled until it has no match.
   */
  lemma InitialSettledOfColoured(b: Board, n: int, rolls1: seq<Draws>, refill: Draws, rolls2: seq<Draws>)
    requires n > 0 && Coloured(b, n)
    ensures var b1 := RerollUntilClear(n, Rolled(b, 0), rolls1).board;
            InitialSettled(b, n, rolls1, refill, rolls2) == RerollUntilClear(n, Rolled(b1, 0), rolls2).board
    ensures Coloured(InitialSettled(b, n, rolls1, refill, rolls2), n)
  {
    var b1 := RerollUntilClear(n, Rolled(b, 0), rolls1).board;
    RerollUntilClearColoured(n, Rolled(b, 0), rolls1);
    assert Full(b1);
    GravityOfFull(b1);
    RefilledFull(b1, refill, n);
    RerollUntilClearColoured(n, Rolled(b1, 0), rolls2);
  }

  // ---------------------------------------------------------------------
  // the cascade

  /** The block-type bonus: `Math.max(1, Math.floor(n ** 2 / 9))`. */
  function BlockTypeBonus(n: int): (m: int)
    ensures m >= 1 && m >= n * n / 9
  {
    Max(1, n * n / 9)
  }

  /** The round's multiplier: the chain bonus `3 ** (chainCount - 1)` times the block-type bonus. */
  function CascadeMultiplier(chainCount: int, n: int): (m: int)
    requires chainCount >= 1
    ensures m >= 1
  {
    Pow(3, chainCount - 1) * BlockTypeBonus(n)
  }

  /** The points of a round that clears `matched` cells: `Math.floor(10 * matched ** 1.5 * multiplier)`. */
  function CascadePoints(matched: nat, chainCount: int, n: int, pow15: nat -> NonNegReal): (p: int)
    requires chainCount >= 1
    ensures p >= 0
  {
    var m := CascadeMultiplier(chainCount, n) as real;
    assert 0.0 <= 10.0 * pow15(matched) * m by {
      assert 0.0 <= 10.0 * pow15(matched);
    }
    Floor(10.0 * pow15(matched) * m)
  }

  /** A later round of a cascade earns at least three times what the same clear earned one round earlier. */
  lemma CascadePointsTripleWithChain(matched: nat, chainCount: int, n: int, pow15: nat -> NonNegReal)
    requires chainCount >= 1
    ensures CascadePoints(matched, chainCount + 1, n, pow15) >= 3 * CascadePoints(matched, chainCount, n, pow15)
  {
    var a, m := 10.0 * pow15(matched), CascadeMultiplier(chainCount, n) as real;
    assert CascadeMultiplier(chainCount + 1, n) as real == 3.0 * m;
    assert 0.0 <= a;
    var x := a * m;
    assert a * (3.0 * m) == 3.0 * x;
    FloorOfMultiple(x, 3);
  }

  /** One round of the cascade: matched cells become null, then gravity, then refill. */
  function CascadeStep(b: Board, draws: Draws, n: int): Board
    requires n > 0
  {
    Refilled(Gravity(Cleared(b, MatchSet(b))), draws, n)
  }

  /** The cascade so far: the board, the running score and the number of rounds taken. */
  datatype Cascade = Cascade(board: Board, score: int, chainCount: nat)

  /** One pass of the cascade's while loop, refilling with draws. */
  function CascadeRound(n: int, pow15: nat -> NonNegReal, c: Cascade, draws: Draws): (d: Cascade)
    requires n > 0
    ensures d.score >= c.score && d.chainCount == c.chainCount + 1 && Full(d.board)
  {
    var k := c.chainCount + 1;
    Cascade(CascadeStep(c.board, draws, n), c.score + CascadePoints(|MatchSet(c.board)|, k, n, pow15), k)
  }

  /**
   * The cascade: while the board has a match, take one more round.  Each round uses the
   * next draws of rounds; the cascade ends with a board without matches or when those run out.
   */
  function RunCascade(n: int, pow15: nat -> NonNegReal, c: Cascade, rounds: seq<Draws>): (r: Cascade)
    requires n > 0
    ensures r.score >= c.score
    ensures c.chainCount <= r.chainCount <= c.chainCount + |rounds|
    ensures |MatchSet(r.board)| == 0 || r.chainCount == c.chainCount + |rounds|
    ensures |MatchSet(c.board)| > 0 && rounds != [] ==> r.chainCount > c.chainCount
    ensures r.chainCount == c.chainCount ==> r == c
    decreases |rounds|
  {
    if |MatchSet(c.board)| == 0 || rounds == [] then c
    else RunCascade(n, pow15, CascadeRound(n, pow15, c, rounds[0]), rounds[1..])
  }

  /** A cascade that has used c.chainCount draws of rounds and still matches goes on from its next round d. */
  lemma RunCascadeAt(n: int, pow15: nat -> NonNegReal, c: Cascade, d: Cascade, rounds: seq<Draws>)
    requires n > 0 && |MatchSet(c.board)| > 0 && c.chainCount < |rounds|
    requires d == CascadeRound(n, pow15, c, rounds[c.chainCount])
    ensures RunCascade(n, pow15, d, rounds[d.chainCount..]) == RunCascade(n, pow15, c, rounds[c.chainCount..])
  {
    var rest := rounds[c.chainCount..];
    assert rest[0] == rounds[c.chainCount];
    assert rest[1..] == rounds[d.chainCount..];
  }

  // ---------------------------------------------------------------------
  // the hook's state

  /** The state of the hook (the floating-score list is left out). */
  datatype ClassicState = ClassicState(
    board: Board,
    moves: int,
    selected: Option<Pos>,
    isProcessing: bool,
    isGameOver: bool,
    score: int,
    highScore: int,
    scoreMultiplier: int)

  /** What every reachable state satisfies. */
  predicate Consistent(s: ClassicState) {
    s.score >= 0 && s.highScore >= 0 && s.scoreMultiplier >= 1 &&
    (s.selected.Some? ==> InBounds(s.selected.value))
  }

  /** The fields the cascade loop writes, after the rounds r: score, multiplier and board. */
  function AfterCascadeRounds(s: ClassicState, r: Cascade, n: int): ClassicState {
    if r.chainCount == 0 then s
    else s.(score := r.score, scoreMultiplier := CascadeMultiplier(r.chainCount, n), board := r.board)
  }

  /**
   * processMatchesAndGravity(b0) on the state s with n block types: the cascade, then game
   * over when no move is left, otherwise the multiplier back to 1.
   */
  function Cascaded(s: ClassicState, b0: Board, n: int, pow15: nat -> NonNegReal, rounds: seq<Draws>): ClassicState
    requires n > 0
  {
    var r := RunCascade(n, pow15, Cascade(b0, s.score, 0), rounds);
    var s1 := AfterCascadeRounds(s.(isProcessing := true), r, n);
    var s2 := if HasPossibleMove(r.board) then s1.(scoreMultiplier := 1) else s1.(isGameOver := true);
    s2.(isProcessing := false)
  }

  /**
   * The outcome of a cascade: the score never falls; the cascade stops only on a board without
   * matches (unless the draws run out); then the game is over exactly when no move is left,
   * and otherwise the multiplier is 1 again.
   */
  lemma CascadedOutcome(s: ClassicState, b0: Board, n: int, pow15: nat -> NonNegReal, rounds: seq<Draws>)
    requires n > 0
    ensures var t := Cascaded(s, b0, n, pow15, rounds);
            var r := RunCascade(n, pow15, Cascade(b0, s.score, 0), rounds);
            t.score == r.score >= s.score && !t.isProcessing &&
            (|MatchSet(r.board)| == 0 || r.chainCount == |rounds|) &&
            (r.chainCount > 0 ==> t.board == r.board) &&
            (HasPossibleMove(r.board) ==> t.scoreMultiplier == 1) &&
            (t.isGameOver <==> s.isGameOver || !HasPossibleMove(r.board)) &&
            t.moves == s.moves && t.selected == s.selected && t.highScore == s.highScore
  {
  }

  /** The cascade keeps a consistent state consistent. */
  lemma CascadedConsistent(s: ClassicState, b0: Board, n: int, pow15: nat -> NonNegReal, rounds: seq<Draws>)
    requires n > 0 && Consistent(s)
    ensures Consistent(Cascaded(s, b0, n, pow15, rounds))
  {
  }

  /** The high-score effect: a finished game with a better score sets the high score. */
  function HighScored(s: ClassicState): ClassicState {
    if s.isGameOver && s.score > s.highScore then s.(highScore := s.score) else s
  }

  /**
   * The high score never decreases; after the effect of a finished game it is the better of
   * the score and the old high score, and during a game it is unchanged.  Running the effect
   * again changes nothing.
   */
  lemma HighScoreNeverDecreases(s: ClassicState)
    ensures var t := HighScored(s);
            t.highScore >= s.highScore &&
            (s.isGameOver ==> t.highScore == Max(s.score, s.highScore)) &&
            (!s.isGameOver ==> t == s) &&
            t == s.(highScore := t.highScore) &&
            HighScored(t) == t
  {
  }

  /** The first version's hook. */
  class ClassicGame {
    var state: ClassicState
    const types: BlockTypes

    ghost predicate Valid()
      reads this, types
    {
      types.Valid() && Consistent(state)
    }

    /** The hook's initial state: a board of random colours of the current number of types. */
    constructor (types: BlockTypes, draws: Draws)
      requires types.Valid()
      ensures this.types == types
      ensures state == ClassicState(RandomBoard(draws, types.max), 0, None, false, false, 0, 0, 1)
      ensures Valid()
    {
      this.types := types;
      state := ClassicState(RandomBoard(draws, types.Get()), 0, None, false, false, 0, 0, 1);
    }

    /** `matches.forEach(... initialBoard[row][col] = getRandomBlock())`: the matches of b re-rolled. */
    method RerollCells(b: Board, matches: seq<Pos>, draws: Draws) returns (t: Board)
      requires types.Valid() && Elems(matches) == MatchSet(b)
      ensures t == Rerolled(b, draws, types.max)
    {
      t := b;
      for k := 0 to |matches|
        invariant forall i, j :: 0 <= i < Size && 0 <= j < Size ==>
          t[i][j] == if Pos(i, j) in matches[..k] then Some(RandomBlock(draws[i][j], types.max)) else b[i][j]
      {
        var p := matches[k];
        assert p in MatchSet(b);
        t := t[p.row := t[p.row][p.col := Some(RandomBlock(draws[p.row][p.col], types.Get()))]];
        assert matches[..k + 1] == matches[..k] + [p];
      }
      assert matches[..|matches|] == matches;
      var want := Rerolled(b, draws, types.max);
      assert forall i | 0 <= i < Size :: t[i] == want[i];
    }

    /** The re-roll while loop on the board b, with the draws of rolls, one per round. */
    method RerollLoop(b: Board, rolls: seq<Draws>) returns (r: Rolled)
      requires types.Valid()
      ensures r == RerollUntilClear(types.max, Rolled(b, 0), rolls)
    {
      r := Rolled(b, 0);
      var matches := FindMatches(b);
      while |matches| > 0 && r.rounds < |rolls|
        invariant r.rounds <= |rolls|
        invariant Elems(matches) == MatchSet(r.board) && |matches| == |MatchSet(r.board)|
        invariant RerollUntilClear(types.max, r, rolls[r.rounds..]) == RerollUntilClear(types.max, Rolled(b, 0), rolls)
        decreases |rolls| - r.rounds
      {
        ghost var before := r;
        var t := RerollCells(r.board, matches, rolls[r.rounds]);
        r := Rolled(t, r.rounds + 1);
        RerollUntilClearAt(types.max, before, r, rolls);
        matches := FindMatches(t);
      }
      assert rolls[r.rounds..] == [] || |MatchSet(r.board)| == 0;
    }

    /**
     * resetBoard: the block types back to three, a board of random colours re-rolled until no
     * match (gravity and refill leave it as it is), and moves, score, game over and
     * multiplier back to their start.
     */
    method ResetBoard(init: Draws, rolls: seq<Draws>, refill: Draws)
      requires Valid()
      modifies this, types
      ensures types.max == InitialBlockTypes
      ensures state == old(state).(moves := 0, board := ResetRolled(init, rolls).board, score := 0,
                                   isGameOver := false, scoreMultiplier := 1)
      ensures Valid()
    {
      types.Reset();
      var initialBoard := RandomBoard(init, types.Get());
      var r := RerollLoop(initialBoard, rolls);
      initialBoard := r.board;
      ResetBoardNoMatch(init, rolls);
      GravityOfFull(initialBoard);
      initialBoard := ApplyGravity(initialBoard);
      RefilledFull(initialBoard, refill, types.max);
      initialBoard := RefillBoard(initialBoard, refill, types);
      state := state.(moves := 0);
      state := state.(board := initialBoard);
      state := state.(score := 0);
      state := state.(isGameOver := false);
      state := state.(scoreMultiplier := 1);
    }

    /**
     * The effect on the first render: the board is re-rolled until no match, given gravity and
     * refill, and re-rolled again; the check for a possible move only logs.
     */
    method SettleInitialBoard(rolls1: seq<Draws>, refill: Draws, rolls2: seq<Draws>)
      requires Valid()
      modifies this
      ensures state == old(state).(board := InitialSettled(old(state).board, types.max, rolls1, refill, rolls2))
      ensures Valid()
    {
      var initialBoard := state.board;
      var r := RerollLoop(initialBoard, rolls1);
      initialBoard := ApplyGravity(r.board);
      initialBoard := RefillBoard(initialBoard, refill, types);
      r := RerollLoop(initialBoard, rolls2);
      initialBoard := r.board;
      state := state.(board := initialBoard);
      var hasMoves := CheckForPossibleMoves(initialBoard);
    }

    /** The high-score effect. */
    method UpdateHighScore()
      modifies this
      ensures state == HighScored(old(state))
    {
      if state.isGameOver && state.score > state.highScore {
        state := state.(highScore := state.score);
      }
    }

    /**
     * One pass of the cascade's while loop: count the round, show its multiplier, add its
     * points, then clear, let fall and refill, showing each board.
     */
    method CascadeRoundStep(c: Cascade, matches: seq<Pos>, pow15: nat -> NonNegReal, draws: Draws)
      returns (d: Cascade)
      requires types.Valid() && Elems(matches) == MatchSet(c.board) && |matches| == |MatchSet(c.board)|
      requires forall p :: p in matches ==> InBounds(p)
      requires state.score == c.score
      modifies this
      ensures d == CascadeRound(types.max, pow15, c, draws)
      ensures state == old(state).(scoreMultiplier := CascadeMultiplier(d.chainCount, types.max), score := d.score,
                                   board := d.board)
    {
      var chainCount := c.chainCount + 1;
      var currentMultiplier := CascadeMultiplier(chainCount, types.Get());
      state := state.(scoreMultiplier := currentMultiplier);
      var pointsEarned := CascadePoints(|matches|, chainCount, types.Get(), pow15);
      state := state.(score := state.score + pointsEarned);
      var boardAfterProcessing := ClearCells(c.board, matches);
      state := state.(board := boardAfterProcessing);
      boardAfterProcessing := ApplyGravity(boardAfterProcessing);
      state := state.(board := boardAfterProcessing);
      boardAfterProcessing := RefillBoard(boardAfterProcessing, draws, types);
      state := state.(board := boardAfterProcessing);
      d := Cascade(boardAfterProcessing, state.score, chainCount);
    }

    /** The cascade's while loop from the board currentBoard, with the draws of rounds, one per round. */
    method CascadeRounds(currentBoard: Board, pow15: nat -> NonNegReal, rounds: seq<Draws>) returns (r: Cascade)
      requires types.Valid()
      modifies this
      ensures r == RunCascade(types.max, pow15, Cascade(currentBoard, old(state).score, 0), rounds)
      ensures state == AfterCascadeRounds(old(state), r, types.max)
    {
      ghost var s0 := state;
      r := Cascade(currentBoard, state.score, 0);
      var matches := FindMatches(currentBoard);
      while |matches| > 0 && r.chainCount < |rounds|
        invariant r.chainCount <= |rounds|
        invariant Elems(matches) == MatchSet(r.board) && |matches| == |MatchSet(r.board)|
        invariant forall p :: p in matches ==> InBounds(p)
        invariant state.score == r.score
        invariant RunCascade(types.max, pow15, r, rounds[r.chainCount..]) ==
                  RunCascade(types.max, pow15, Cascade(currentBoard, s0.score, 0), rounds)
        invariant state == AfterCascadeRounds(s0, r, types.max)
        decreases |rounds| - r.chainCount
      {
        ghost var before := r;
        r := CascadeRoundStep(r, matches, pow15, rounds[r.chainCount]);
        RunCascadeAt(types.max, pow15, before, r, rounds);
        matches := FindMatches(r.board);
      }
      assert rounds[r.chainCount..] == [] || |MatchSet(r.board)| == 0;
    }

    /** processMatchesAndGravity(currentBoard). */
    method ProcessMatchesAndGravity(currentBoard: Board, pow15: nat -> NonNegReal, rounds: seq<Draws>)
      requires types.Valid()
      modifies this
      ensures state == Cascaded(old(state), currentBoard, types.max, pow15, rounds)
    {
      state := state.(isProcessing := true);
      var r := CascadeRounds(currentBoard, pow15, rounds);
      var hasMoves := CheckForPossibleMoves(r.board);
      if !hasMoves {
        state := state.(isGameOver := true);
      } else {
        state := state.(scoreMultiplier := 1);
      }
      state := state.(isProcessing := false);
    }
  }
}
