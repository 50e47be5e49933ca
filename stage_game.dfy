/**
 * The stage-based game of the current frontend: the React state of its game hook as
 * the fields of a class, and its handlers as methods.
 *
 * A handler is a closure created during one render, so every state value it reads is the
 * value of that render; its setters take effect afterwards, the last one per field
 * winning.  The model makes this explicit: a handler reads a `Snapshot` v of the render
 * it belongs to and assigns the fields in program order.  Each method is proved against
 * a pure transition on snapshots, and the game's rules are lemmas about those.
 */
module StageGame {
  import opened Wrappers
  import opened Board
  import opened GameLogic
  import opened Scoring

  datatype Difficulty = Easy | Medium | Hard

  datatype GameState = Playing | StageClear | DifficultySelect | GameOver

  /** The move budget of stage 1 for each starting difficulty. */
  function InitialMoves(d: Difficulty): int {
    match d
    case Easy => 5
    case Medium => 30
    case Hard => 20
  }

  /** Moves a cleared stage adds, before the random variation. */
  function AddedMovesBase(d: Difficulty): int {
    match d
    case Easy => 1
    case Medium => 3
    case Hard => 5
  }

  /** The inclusive range of the random variation of the added moves. */
  function AddedMovesLow(d: Difficulty): int {
    match d
    case Easy => 0
    case Medium => -1
    case Hard => -1
  }

  function AddedMovesHigh(d: Difficulty): int {
    match d
    case Easy => 0
    case Medium => 1
    case Hard => 2
  }

  /** The inclusive range of the random variation of the target score. */
  function TargetLow(d: Difficulty): int {
    match d
    case Easy => -1000
    case Medium => -5000
    case Hard => -20000
  }

  function TargetHigh(d: Difficulty): int {
    match d
    case Easy => 5000
    case Medium => 20000
    case Hard => 40000
  }

  const BaseTargetScore: int := 100000
  const FirstStageTarget: int := 150000

  /** `Math.floor(x * (hi - lo + 1) + lo)` for a draw x of `Math.random()`. */
  function RandomIn(x: Random, lo: int, hi: int): (v: int)
    requires lo <= hi
    ensures lo <= v <= hi
  {
    var n := hi - lo + 1;
    assert x * n as real < n as real by {
      assert (1.0 - x) * n as real > 0.0;
    }
    (x * n as real + lo as real).Floor
  }

  /**
   * What one evaluation of calculateStageGoals consumes: two draws of `Math.random()` and
   * `Math.floor(100000 * multiplier * 1.5 ** (stage - 1))`, the floating-point part of the target.
   */
  datatype Roll = Roll(movesDraw: Random, scoreDraw: Random, scaledTarget: int)

  datatype StageGoal = StageGoal(addedMoves: int, targetScore: int)

  /** calculateStageGoals: the moves a stage adds and the score it asks for. */
  function StageGoals(stage: int, d: Difficulty, roll: Roll): (g: StageGoal)
    ensures AddedMovesBase(d) + AddedMovesLow(d) <= g.addedMoves <= AddedMovesBase(d) + AddedMovesHigh(d)
    ensures g.addedMoves >= 0
    ensures stage == 1 ==> g.targetScore == FirstStageTarget
    ensures stage > 1 ==> g.targetScore >= BaseTargetScore
    ensures stage > 1 && g.targetScore != BaseTargetScore ==>
              roll.scaledTarget + TargetLow(d) <= g.targetScore <= roll.scaledTarget + TargetHigh(d)
    ensures stage < 1 ==> g.targetScore == roll.scaledTarget
  {
    var added := Max(0, AddedMovesBase(d) + RandomIn(roll.movesDraw, AddedMovesLow(d), AddedMovesHigh(d)));
    var target := if stage == 1 then FirstStageTarget else roll.scaledTarget;
    var target' :=
      if stage > 1 then Max(BaseTargetScore, target + RandomIn(roll.scoreDraw, TargetLow(d), TargetHigh(d)))
      else target;
    StageGoal(added, target')
  }

  /** The goals offered for the next stage, one per difficulty. */
  datatype Goals = Goals(easy: StageGoal, medium: StageGoal, hard: StageGoal)

  datatype Rolls = Rolls(easy: Roll, medium: Roll, hard: Roll)

  function GoalFor(g: Goals, d: Difficulty): StageGoal {
    match d
    case Easy => g.easy
    case Medium => g.medium
    case Hard => g.hard
  }

  function RollFor(r: Rolls, d: Difficulty): Roll {
    match d
    case Easy => r.easy
    case Medium => r.medium
    case Hard => r.hard
  }

  /** The record checkStageClear stores: calculateStageGoals of the next stage for every difficulty. */
  function NextGoals(stage: int, rolls: Rolls): (g: Goals)
    ensures forall d :: GoalFor(g, d) == StageGoals(stage, d, RollFor(rolls, d))
  {
    Goals(StageGoals(stage, Easy, rolls.easy), StageGoals(stage, Medium, rolls.medium),
          StageGoals(stage, Hard, rolls.hard))
  }

  /** Points per cleared block at a stage: 10 at stage 1, 5 more per stage. */
  function BasePoints(stage: int): int {
    10 + (stage - 1) * 5
  }

  /**
   * The points of one chain round: `floor(base * n ** 1.5 * 2 ** (chain - 1) * card)`,
   * with `n ** 1.5` given by pow15.
   */
  function RoundPoints(stage: int, n: nat, chainCount: int, card: real, pow15: nat -> NonNegReal): (p: int)
    requires stage >= 1 && chainCount >= 1 && card >= 0.0
    ensures p >= 0
  {
    FloorOfProduct(BasePoints(stage) as real, pow15(n), Pow(2, chainCount - 1) as real, card);
    Floor(BasePoints(stage) as real * pow15(n) * Pow(2, chainCount - 1) as real * card)
  }

  /** A later round of a chain earns at least twice what the same clear earned one round earlier. */
  lemma RoundPointsDoubleWithChain(stage: int, n: nat, chainCount: int, card: real, pow15: nat -> NonNegReal)
    requires stage >= 1 && chainCount >= 1 && card >= 0.0
    ensures RoundPoints(stage, n, chainCount + 1, card, pow15) >= 2 * RoundPoints(stage, n, chainCount, card, pow15)
  {
    var a, b, c := BasePoints(stage) as real, pow15(n), Pow(2, chainCount - 1) as real;
    assert Pow(2, chainCount) as real == 2.0 * c;
    var x := a * b * c * card;
    assert 0.0 <= a * b * c by {
      assert 0.0 <= a * b;
    }
    assert a * b * (2.0 * c) * card == 2.0 * x;
    FloorOfMultiple(x, 2);
  }

  // ---------------------------------------------------------------------
  // the opaque refill of the frontend

  /** The colours the frontend's palette refill picks, one per cell; only those of null cells are used. */
  type Fill = f: seq<seq<int>> | |f| == Size && forall r :: 0 <= r < Size ==> |f[r]| == Size
    witness seq(6, _ => seq(6, _ => 0))

  /** refillBoard with a palette: every null cell takes the colour picked for it. */
  function FillNulls(b: Board, fill: Fill): (f: Board)
    ensures Full(f)
    ensures forall r, c :: 0 <= r < Size && 0 <= c < Size && b[r][c] != None ==> f[r][c] == b[r][c]
  {
    seq(Size, r requires 0 <= r < Size =>
      seq(Size, c requires 0 <= c < Size =>
        if b[r][c] == None then Some(fill[r][c]) else b[r][c]))
  }

  // ---------------------------------------------------------------------
  // processChainStep and the chain

  /** One chain step: matched cells become null, then gravity, then refill. */
  function ChainStep(b: Board, fill: Fill): Board {
    FillNulls(Gravity(Cleared(b, MatchSet(b))), fill)
  }

  /**
   * After a chain step every column holds, at its bottom, the cells of that column that were
   * not matched, in their old order; only the rows above them are new.
   */
  lemma ChainStepKeepsSurvivors(b: Board, fill: Fill, c: int)
    requires 0 <= c < Size
    ensures var survivors := NonNull(Column(Cleared(b, MatchSet(b)), c));
            Column(ChainStep(b, fill), c)[Size - |survivors|..] == survivors
  {
    var cl := Cleared(b, MatchSet(b));
    var survivors := NonNull(Column(cl, c));
    var g := Gravity(cl);
    GravityColumn(cl, c);
    CompactedShape(Column(cl, c));
    var k := Size - |survivors|;
    var col := Column(ChainStep(b, fill), c);
    forall i | k <= i < Size ensures col[i] == survivors[i - k] {
      assert Column(g, c)[i] == Compacted(Column(cl, c))[i];
      assert Compacted(Column(cl, c))[i] != None;
    }
  }

  /** The chain so far: the board, the running score and the number of rounds taken. */
  datatype ChainResult = ChainResult(board: Board, score: int, chainCount: nat)

  /** One round of the chain: count it, add its points, take the chain step with the refill fill. */
  function Advance(stage: int, card: real, pow15: nat -> NonNegReal, c: ChainResult, fill: Fill): (d: ChainResult)
    requires stage >= 1 && card >= 0.0
    ensures d.score >= c.score && d.chainCount == c.chainCount + 1
  {
    var k := c.chainCount + 1;
    ChainResult(ChainStep(c.board, fill), c.score + RoundPoints(stage, |MatchSet(c.board)|, k, card, pow15), k)
  }

  /**
   * The while loop of processMatchesAndGravity: while the board has a match, take one more
   * round.  Each round uses one refill of fills; the chain ends when those run out.
   */
  function RunChain(stage: int, card: real, pow15: nat -> NonNegReal, c: ChainResult, fills: seq<Fill>)
    : (r: ChainResult)
    requires stage >= 1 && card >= 0.0
    ensures r.score >= c.score
    ensures c.chainCount <= r.chainCount <= c.chainCount + |fills|
    ensures |MatchSet(r.board)| == 0 || r.chainCount == c.chainCount + |fills|
    ensures |MatchSet(c.board)| > 0 && fills != [] ==> r.chainCount > c.chainCount
    ensures r.chainCount == c.chainCount ==> r == c
    decreases |fills|
  {
    if |MatchSet(c.board)| == 0 || fills == [] then c
    else RunChain(stage, card, pow15, Advance(stage, card, pow15, c, fills[0]), fills[1..])
  }

  /** A chain that has used c.chainCount refills of fills and still matches goes on from its next round d. */
  lemma RunChainAt(stage: int, card: real, pow15: nat -> NonNegReal, c: ChainResult, d: ChainResult, fills: seq<Fill>)
    requires stage >= 1 && card >= 0.0 && |MatchSet(c.board)| > 0 && c.chainCount < |fills|
    requires d == Advance(stage, card, pow15, c, fills[c.chainCount])
    ensures RunChain(stage, card, pow15, d, fills[d.chainCount..]) == RunChain(stage, card, pow15, c, fills[c.chainCount..])
  {
    var rest := fills[c.chainCount..];
    assert rest[0] == fills[c.chainCount];
    assert rest[1..] == fills[d.chainCount..];
  }

  /** The chain processMatchesAndGravity runs from the board b0 in render v. */
  function Chain(v: Snapshot, b0: Board, env: ChainEnv): ChainResult
    requires v.stage >= 1 && v.cardMultiplier >= 0.0
  {
    RunChain(v.stage, v.cardMultiplier, env.pow15, ChainResult(b0, v.score, 0), env.fills)
  }

  // ---------------------------------------------------------------------
  // the hook's state

  /** The state of the hook in one render (the floating-score list is left out). */
  datatype Snapshot = Snapshot(
    difficulty: Difficulty,
    palette: seq<int>,
    board: Board,
    moves: int,
    selected: Option<Pos>,
    isProcessing: bool,
    score: int,
    stage: int,
    maxMoves: int,
    targetScore: int,
    gameState: GameState,
    nextGoals: Option<Goals>,
    bonusMoves: int,
    scoreMultiplier: real,
    cardMultiplier: real,
    cardTurnsLeft: int)

  /** What every reachable state satisfies. */
  predicate Consistent(s: Snapshot) {
    s.stage >= 1 && s.score >= 0 &&
    1.0 <= s.cardMultiplier <= 1000.0 && 0 <= s.cardTurnsLeft <= 3 &&
    (s.selected.Some? ==> InBounds(s.selected.value)) &&
    (s.gameState == Playing ==> s.nextGoals == None)
  }

  /** resetBoard: a new stage-1 game at the starting difficulty's budget, on a new board. */
  function AfterReset(s: Snapshot, d0: Difficulty, palette: seq<int>, board: Board, roll: Roll): (t: Snapshot)
    ensures t.targetScore == FirstStageTarget
    ensures t.stage == 1 && t.maxMoves == InitialMoves(d0) && t.moves == 0 && t.score == 0 &&
            t.gameState == Playing && t.bonusMoves == 0 && t.nextGoals == None
    ensures t.scoreMultiplier == 1.0 && t.cardMultiplier == 1.0 && t.cardTurnsLeft == 0
    ensures t.board == board && t.selected == s.selected && t.difficulty == s.difficulty
  {
    s.(palette := palette, board := board, stage := 1, maxMoves := InitialMoves(d0),
       targetScore := StageGoals(1, d0, roll).targetScore, moves := 0, score := 0,
       gameState := Playing, nextGoals := None, bonusMoves := 0, scoreMultiplier := 1.0,
       cardMultiplier := 1.0, cardTurnsLeft := 0)
  }

  /** A reset state is consistent whenever its selection is. */
  lemma ResetConsistent(s: Snapshot, d0: Difficulty, palette: seq<int>, board: Board, roll: Roll)
    requires s.selected.Some? ==> InBounds(s.selected.value)
    ensures Consistent(AfterReset(s, d0, palette, board, roll))
  {
  }

  /**
   * checkStageClear, in the closure of render v: while playing, a score that reaches the
   * target clears the stage, records the bonus moves and the next stage's goals.
   * excessBonus is `Math.floor((score / target - 1) ** 0.1 * 3)`.
   */
  function AfterStageClearCheck(v: Snapshot, s: Snapshot, score: int, rolls: Rolls, excessBonus: nat): (t: Snapshot)
    ensures v.gameState != Playing || score < v.targetScore ==> t == s
    ensures v.gameState == Playing && score >= v.targetScore ==>
              t.gameState == StageClear && t.nextGoals == Some(NextGoals(v.stage + 1, rolls)) &&
              (t.bonusMoves != 0 ==> score > v.targetScore > 0 && t.bonusMoves == excessBonus)
    ensures t == s.(bonusMoves := t.bonusMoves, gameState := t.gameState, nextGoals := t.nextGoals)
  {
    if v.gameState != Playing then s
    else if score >= v.targetScore then
      var bonus := if v.targetScore > 0 && score > v.targetScore then excessBonus else 0;
      s.(bonusMoves := bonus, gameState := StageClear, nextGoals := Some(NextGoals(v.stage + 1, rolls)))
    else s
  }

  /** checkGameOver, in the closure of render v: while playing, using up the budget ends the game. */
  function AfterGameOverCheck(v: Snapshot, s: Snapshot, moves: int): (t: Snapshot)
    ensures v.gameState == Playing && moves >= v.maxMoves ==> t == s.(gameState := GameOver)
    ensures !(v.gameState == Playing && moves >= v.maxMoves) ==> t == s
  {
    if v.gameState != Playing then s
    else if moves >= v.maxMoves then s.(gameState := GameOver)
    else s
  }

  /** The multiplier the chain shows after its k-th round: `2 ** (k - 1)` times the card's. */
  function ChainMultiplier(k: nat, card: real): real
    requires k >= 1
  {
    Pow(2, k - 1) as real * card
  }

  /** The fields the chain loop writes, after the rounds r: score, the shown multiplier and the board. */
  function AfterRounds(s: Snapshot, r: ChainResult, card: real): Snapshot {
    if r.chainCount == 0 then s
    else s.(score := r.score, scoreMultiplier := ChainMultiplier(r.chainCount, card), board := r.board)
  }

  /** The inputs processMatchesAndGravity draws on besides the state. */
  datatype ChainEnv = ChainEnv(
    fills: seq<Fill>,            // one refill per chain round
    pow15: nat -> NonNegReal,    // n ** 1.5
    rolls: Rolls,                // calculateStageGoals of the next stage, per difficulty
    excessBonus: nat,            // the bonus moves for the final score
    palette: seq<int>,           // selectStageColors, should the board be reset
    board: Board,                // createAndInitializeBoard, should the board be reset
    roll: Roll)                  // calculateStageGoals(1, ...) in that reset

  /**
   * The end of a card's effect and the two checks after the loop of processMatchesAndGravity,
   * in the closure of render v, on the state s the loop left, for the chain's final score.
   */
  function Checked(v: Snapshot, s: Snapshot, score: int, moves: int, env: ChainEnv): Snapshot {
    var s2 := if v.cardTurnsLeft - 1 == 0 then s.(cardMultiplier := 1.0, scoreMultiplier := 1.0)
              else s.(scoreMultiplier := v.cardMultiplier);
    var s3 := if v.gameState == Playing then AfterStageClearCheck(v, s2, score, env.rolls, env.excessBonus) else s2;
    AfterGameOverCheck(v, s3, moves)
  }

  /** What processMatchesAndGravity does after its loop, when the chain ended on board b with the score score. */
  function Settle(v: Snapshot, s: Snapshot, d0: Difficulty, b: Board, score: int, moves: int, env: ChainEnv): Snapshot {
    var s4 := Checked(v, s, score, moves, env);
    var s5 := if HasPossibleMove(b) then s4 else AfterReset(s4, d0, env.palette, env.board, env.roll);
    s5.(isProcessing := false)
  }

  /**
   * processMatchesAndGravity(b0, moves) run in the closure of render v on the state s:
   * the chain, the end of a card's effect, the stage-clear and game-over checks and
   * the reset of a board without moves.
   */
  function Processed(v: Snapshot, s: Snapshot, d0: Difficulty, b0: Board, moves: int, env: ChainEnv): Snapshot
    requires Consistent(v)
  {
    if v.isProcessing then s
    else if v.gameState != Playing then s.(isProcessing := false)
    else
      var r := Chain(v, b0, env);
      Settle(v, AfterRounds(s.(isProcessing := true), r, v.cardMultiplier), d0, r.board, r.score, moves, env)
  }

  /**
   * The outcome of a chain that leaves a move on the board: game over exactly when the
   * budget is used up, else stage clear exactly when the final score reaches the target;
   * the score is the chain's, never below the starting one.
   */
  lemma ProcessedOutcome(v: Snapshot, s: Snapshot, d0: Difficulty, b0: Board, moves: int, env: ChainEnv)
    requires Consistent(v) && !v.isProcessing && v.gameState == Playing && s.gameState == Playing
    requires HasPossibleMove(Chain(v, b0, env).board)
    ensures var t := Processed(v, s, d0, b0, moves, env);
            var r := Chain(v, b0, env);
            (t.gameState == GameOver <==> moves >= v.maxMoves) &&
            (t.gameState == StageClear <==> moves < v.maxMoves && r.score >= v.targetScore) &&
            (t.gameState == Playing <==> moves < v.maxMoves && r.score < v.targetScore) &&
            (r.chainCount > 0 ==> t.score == r.score >= v.score && t.board == r.board) &&
            !t.isProcessing && t.stage == s.stage && t.moves == s.moves
  {
  }

  /** A chain that leaves no move on the board starts a new stage-1 game, whatever the checks decided. */
  lemma ProcessedStuckResets(v: Snapshot, s: Snapshot, d0: Difficulty, b0: Board, moves: int, env: ChainEnv)
    requires Consistent(v) && !v.isProcessing && v.gameState == Playing
    requires !HasPossibleMove(Chain(v, b0, env).board)
    ensures var t := Processed(v, s, d0, b0, moves, env);
            t.stage == 1 && t.gameState == Playing && t.moves == 0 && t.score == 0 &&
            t.board == env.board && t.maxMoves == InitialMoves(d0) && t.targetScore == FirstStageTarget
  {
  }

  /**
   * A card in its last turn ends with this chain: both multipliers drop back to 1.
   * Otherwise the card stays and the shown multiplier is the card's again.
   */
  lemma ProcessedEndsCard(v: Snapshot, s: Snapshot, d0: Difficulty, b0: Board, moves: int, env: ChainEnv)
    requires Consistent(v) && !v.isProcessing && v.gameState == Playing
    ensures var t := Processed(v, s, d0, b0, moves, env);
            (v.cardTurnsLeft == 1 ==> t.cardMultiplier == 1.0 && t.scoreMultiplier == 1.0) &&
            (v.cardTurnsLeft != 1 && HasPossibleMove(Chain(v, b0, env).board) ==>
               t.cardMultiplier == s.cardMultiplier && t.scoreMultiplier == v.cardMultiplier)
  {
  }

  /** A chain that reaches the target with the last move of the budget ends as game over, not stage clear. */
  lemma GameOverOverridesStageClear(v: Snapshot, s: Snapshot, d0: Difficulty, b0: Board, moves: int, env: ChainEnv)
    requires Consistent(v) && !v.isProcessing && v.gameState == Playing && s.gameState == Playing
    requires var r := Chain(v, b0, env);
             HasPossibleMove(r.board) && r.score >= v.targetScore && moves >= v.maxMoves
    ensures var t := Processed(v, s, d0, b0, moves, env);
            t.gameState == GameOver && t.nextGoals.Some?
  {
  }

  /** The card's end and the checks keep a consistent state consistent. */
  lemma CheckedConsistent(v: Snapshot, s: Snapshot, score: int, moves: int, env: ChainEnv)
    requires Consistent(v) && Consistent(s)
    ensures Consistent(Checked(v, s, score, moves, env))
  {
    var s2 := if v.cardTurnsLeft - 1 == 0 then s.(cardMultiplier := 1.0, scoreMultiplier := 1.0)
              else s.(scoreMultiplier := v.cardMultiplier);
    assert Consistent(s2);
    var s3 := if v.gameState == Playing then AfterStageClearCheck(v, s2, score, env.rolls, env.excessBonus) else s2;
    assert Consistent(s3);
  }

  /** The steps after the loop keep a consistent state consistent. */
  lemma SettleConsistent(v: Snapshot, s: Snapshot, d0: Difficulty, b: Board, score: int, moves: int, env: ChainEnv)
    requires Consistent(v) && Consistent(s)
    ensures Consistent(Settle(v, s, d0, b, score, moves, env))
  {
    var s4 := Checked(v, s, score, moves, env);
    CheckedConsistent(v, s, score, moves, env);
    ResetConsistent(s4, d0, env.palette, env.board, env.roll);
  }

  /** Processing keeps a consistent state consistent. */
  lemma ProcessedConsistent(v: Snapshot, s: Snapshot, d0: Difficulty, b0: Board, moves: int, env: ChainEnv)
    requires Consistent(v) && Consistent(s)
    ensures Consistent(Processed(v, s, d0, b0, moves, env))
  {
    if !v.isProcessing && v.gameState == Playing {
      var r := Chain(v, b0, env);
      var s1 := AfterRounds(s.(isProcessing := true), r, v.cardMultiplier);
      assert Consistent(s1);
      SettleConsistent(v, s1, d0, r.board, r.score, moves, env);
    }
  }

  /**
   * The hook.  Its state cells are the fields of the record `state`; calling a setter such
   * as `setScore(x)` is the update `state := state.(score := x)`.
   */
  class StageGame {
    const initialDifficulty: Difficulty
    var state: Snapshot

    ghost predicate Valid()
      reads this
    {
      Consistent(state)
    }

    /** The hook's initial state: stage 1 at the starting difficulty, on the board it generated. */
    constructor (d: Difficulty, colours: seq<int>, initialBoard: Board, roll: Roll)
      ensures initialDifficulty == d
      ensures state == Snapshot(d, colours, initialBoard, 0, None, false, 0, 1, InitialMoves(d),
                                FirstStageTarget, Playing, None, 0, 1.0, 1.0, 0)
      ensures Valid()
    {
      initialDifficulty := d;
      var initialTargetScore := StageGoals(1, d, roll).targetScore;
      state := Snapshot(d, colours, initialBoard, 0, None, false, 0, 1, InitialMoves(d),
                        initialTargetScore, Playing, None, 0, 1.0, 1.0, 0);
    }

    /** resetBoard: new colours and board, everything else back to the start of stage 1. */
    method ResetBoard(colours: seq<int>, newBoard: Board, roll: Roll)
      modifies this
      ensures state == AfterReset(old(state), initialDifficulty, colours, newBoard, roll)
    {
      state := state.(palette := colours);
      state := state.(board := newBoard);
      state := state.(stage := 1);
      var initialResetTargetScore := StageGoals(1, initialDifficulty, roll).targetScore;
      state := state.(maxMoves := InitialMoves(initialDifficulty));
      state := state.(targetScore := initialResetTargetScore);
      state := state.(moves := 0);
      state := state.(score := 0);
      state := state.(gameState := Playing);
      state := state.(nextGoals := None);
      state := state.(bonusMoves := 0);
      state := state.(scoreMultiplier := 1.0);
      state := state.(cardMultiplier := 1.0);
      state := state.(cardTurnsLeft := 0);
    }

    /** checkStageClear(currentScore) in the closure of render v. */
    method CheckStageClear(v: Snapshot, currentScore: int, rolls: Rolls, excessBonus: nat)
      modifies this
      ensures state == AfterStageClearCheck(v, old(state), currentScore, rolls, excessBonus)
    {
      if v.gameState != Playing {
        return;
      }
      if currentScore >= v.targetScore {
        var calculatedBonusMoves := 0;
        if v.targetScore > 0 && currentScore > v.targetScore {
          calculatedBonusMoves := excessBonus;
        }
        state := state.(bonusMoves := calculatedBonusMoves);
        state := state.(gameState := StageClear);
        var nextStage := v.stage + 1;
        state := state.(nextGoals := Some(NextGoals(nextStage, rolls)));
      }
    }

    /** checkGameOver(currentMoves) in the closure of render v. */
    method CheckGameOver(v: Snapshot, currentMoves: int)
      modifies this
      ensures state == AfterGameOverCheck(v, old(state), currentMoves)
    {
      if v.gameState != Playing {
        return;
      }
      if currentMoves >= v.maxMoves {
        state := state.(gameState := GameOver);
      }
    }

    /** handleProceedToNextStage: from the stage-clear screen to the choice of difficulty. */
    method HandleProceedToNextStage()
      requires Valid()
      modifies this
      ensures state == old(state).(gameState := DifficultySelect)
      ensures Valid()
    {
      state := state.(gameState := DifficultySelect);
    }

    /**
     * handleDifficultySelected: the next stage at the chosen difficulty, its budget the
     * moves left plus the goal's added moves plus the bonus; without recorded goals the
     * whole game is reset instead.
     */
    method HandleDifficultySelected(d: Difficulty, colours: seq<int>, newBoard: Board, roll: Roll)
      requires Valid()
      modifies this
      ensures old(state).nextGoals == None ==>
                state == AfterReset(old(state).(difficulty := d), initialDifficulty, colours, newBoard, roll)
      ensures old(state).nextGoals.Some? ==>
                var v := old(state);
                var goal := GoalFor(v.nextGoals.value, d);
                state == v.(gameState := Playing, nextGoals := None, difficulty := d, stage := v.stage + 1,
                            maxMoves := v.maxMoves - v.moves + goal.addedMoves + v.bonusMoves,
                            targetScore := goal.targetScore, moves := 0, score := 0,
                            bonusMoves := 0, palette := colours, board := newBoard)
      ensures Valid()
    {
      var v := state;
      state := state.(gameState := Playing);
      state := state.(nextGoals := None);
      state := state.(difficulty := d);
      var nextStage := v.stage + 1;
      state := state.(stage := nextStage);
      if v.nextGoals == None {
        ResetBoard(colours, newBoard, roll);
        ResetConsistent(v.(difficulty := d), initialDifficulty, colours, newBoard, roll);
        return;
      }
      var nextGoal := GoalFor(v.nextGoals.value, d);
      var remainingMoves := v.maxMoves - v.moves;
      var newMaxMoves := remainingMoves + nextGoal.addedMoves + v.bonusMoves;
      state := state.(maxMoves := newMaxMoves);
      state := state.(targetScore := nextGoal.targetScore);
      state := state.(moves := 0);
      state := state.(score := 0);
      state := state.(bonusMoves := 0);
      state := state.(nextGoals := None);
      state := state.(palette := colours);
      state := state.(board := newBoard);
    }

    /**
     * drawCard: refused with fewer than 3 moves left, while processing or when not playing;
     * otherwise spends 3 moves on a multiplier (drawn) for 3 turns, which ends the game
     * when exactly 3 moves were left.
     */
    method DrawCard(drawn: real)
      requires Valid() && 1.0 <= drawn <= 1000.0
      modifies this
      ensures var v := old(state);
              v.maxMoves - v.moves < 3 || v.isProcessing || v.gameState != Playing ==> state == v
      ensures var v := old(state);
              !(v.maxMoves - v.moves < 3 || v.isProcessing || v.gameState != Playing) ==>
                state == v.(moves := v.moves + 3, cardMultiplier := drawn, cardTurnsLeft := 3,
                            scoreMultiplier := drawn,
                            gameState := if v.maxMoves - v.moves == 3 then GameOver else Playing)
      ensures Valid()
    {
      var v := state;
      var remainingMoves := v.maxMoves - v.moves;
      if remainingMoves < 3 || v.isProcessing || v.gameState != Playing {
        return;
      }
      var newMoves := v.moves + 3;
      state := state.(moves := newMoves);
      state := state.(cardMultiplier := drawn);
      state := state.(cardTurnsLeft := 3);
      state := state.(scoreMultiplier := drawn);
      CheckGameOver(v, newMoves);
    }

    /** processChainStep: clears the matched cells, lets them fall and refills, showing each stage. */
    method ProcessChainStep(b: Board, fill: Fill) returns (boardAfterStep: Board)
      modifies this
      ensures boardAfterStep == ChainStep(b, fill)
      ensures state == old(state).(board := boardAfterStep)
    {
      var matches := FindMatches(b);
      assert Elems(matches) == MatchSet(b);
      boardAfterStep := ClearCells(b, matches);
      state := state.(board := boardAfterStep);
      boardAfterStep := ApplyGravity(boardAfterStep);
      state := state.(board := boardAfterStep);
      boardAfterStep := FillNulls(boardAfterStep, fill);
      state := state.(board := boardAfterStep);
    }

    /** updateScoreAndFloatingScores, integer part: adds the round's points and shows the multiplier. */
    method UpdateScore(v: Snapshot, matches: seq<Pos>, chainCount: int, currentChainScore: int,
                       pow15: nat -> NonNegReal) returns (newChainScore: int)
      requires v.stage >= 1 && chainCount >= 1 && v.cardMultiplier >= 0.0
      modifies this
      ensures newChainScore == currentChainScore + RoundPoints(v.stage, |matches|, chainCount, v.cardMultiplier, pow15)
      ensures state == old(state).(score := newChainScore,
                                   scoreMultiplier := ChainMultiplier(chainCount, v.cardMultiplier))
    {
      var pointsEarned := RoundPoints(v.stage, |matches|, chainCount, v.cardMultiplier, pow15);
      newChainScore := currentChainScore + pointsEarned;
      state := state.(score := newChainScore);
      state := state.(scoreMultiplier := ChainMultiplier(chainCount, v.cardMultiplier));
    }

    /**
     * One pass of the while loop: count the round, add its points, take the chain step and
     * look for the matches of the new board.
     */
    method ChainRound(v: Snapshot, c: ChainResult, matches: seq<Pos>, env: ChainEnv)
      returns (d: ChainResult)
      requires Consistent(v) && |matches| == |MatchSet(c.board)| && c.chainCount < |env.fills|
      modifies this
      ensures d == Advance(v.stage, v.cardMultiplier, env.pow15, c, env.fills[c.chainCount])
      ensures state == old(state).(score := d.score, scoreMultiplier := ChainMultiplier(d.chainCount, v.cardMultiplier),
                                   board := d.board)
    {
      var chainCount := c.chainCount + 1;
      var currentChainScore := UpdateScore(v, matches, chainCount, c.score, env.pow15);
      var boardAfterProcessing := ProcessChainStep(c.board, env.fills[c.chainCount]);
      d := ChainResult(boardAfterProcessing, currentChainScore, chainCount);
    }

    /** The while loop of processMatchesAndGravity, from the board currentBoard and the score of render v. */
    method ChainRounds(v: Snapshot, currentBoard: Board, env: ChainEnv) returns (r: ChainResult)
      requires Consistent(v) && v.gameState == Playing
      modifies this
      ensures r == Chain(v, currentBoard, env)
      ensures state == AfterRounds(old(state), r, v.cardMultiplier)
    {
      ghost var s0 := state;
      r := ChainResult(currentBoard, v.score, 0);
      var matches := FindMatches(currentBoard);
      while |matches| > 0 && r.chainCount < |env.fills|
        invariant r.chainCount <= |env.fills|
        invariant |matches| == |MatchSet(r.board)|
        invariant RunChain(v.stage, v.cardMultiplier, env.pow15, r, env.fills[r.chainCount..]) == Chain(v, currentBoard, env)
        invariant state == AfterRounds(s0, r, v.cardMultiplier)
        decreases |env.fills| - r.chainCount
      {
        ghost var before := r;
        r := ChainRound(v, r, matches, env);
        RunChainAt(v.stage, v.cardMultiplier, env.pow15, before, r, env.fills);
        matches := FindMatches(r.board);
        if v.gameState != Playing {
          break;
        }
      }
      assert env.fills[r.chainCount..] == [] || |MatchSet(r.board)| == 0;
    }

    /** processMatchesAndGravity(currentBoard, currentMoves) in the closure of render v. */
    method ProcessMatchesAndGravity(v: Snapshot, currentBoard: Board, currentMoves: int, env: ChainEnv)
      requires Consistent(v)
      modifies this
      ensures state == Processed(v, old(state), initialDifficulty, currentBoard, currentMoves, env)
    {
      if v.isProcessing {
        return;
      }
      if v.gameState != Playing {
        state := state.(isProcessing := false);
        return;
      }
      state := state.(isProcessing := true);
      var r := ChainRounds(v, currentBoard, env);
      var boardAfterProcessing, currentChainScore := r.board, r.score;
      ghost var s1 := state;
      if v.cardTurnsLeft - 1 == 0 {
        state := state.(cardMultiplier := 1.0);
        state := state.(scoreMultiplier := 1.0);
      } else {
        state := state.(scoreMultiplier := v.cardMultiplier);
      }
      if v.gameState == Playing {
        CheckStageClear(v, currentChainScore, env.rolls, env.excessBonus);
      }
      CheckGameOver(v, currentMoves);
      var hasPossibleMoves := CheckForPossibleMoves(boardAfterProcessing);
      if !hasPossibleMoves {
        ResetBoard(env.palette, env.board, env.roll);
      }
      state := state.(isProcessing := false);
      assert state == Settle(v, s1, initialDifficulty, boardAfterProcessing, currentChainScore, currentMoves, env);
    }
  }
}
