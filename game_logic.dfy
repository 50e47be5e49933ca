/**
 * The board operations of the first version of the game: match detection,
 * gravity, refilling, the deadlock check and the block-type counter.
 */
module GameLogic {
  import opened Wrappers
  import opened Board

  /** A value of Math.random(): a number in [0, 1). */
  type Random = x: real | 0.0 <= x < 1.0

  /** One random value per cell: the value the refill draws if that cell needs a block. */
  type Draws = d: seq<seq<Random>> | |d| == Size && forall r :: 0 <= r < Size ==> |d[r]| == Size
    witness seq(6, _ => seq<Random>(6, _ => 0.0))

  /** maxBlockTypes starts at 3 and is capped at 8 (there are eight colours). */
  const InitialBlockTypes: int := 3
  const MaxBlockTypes: int := 8

  /**
   * The rule of increaseBlockTypes: one more colour once the move count passes the next
   * threshold (5, 10, 15, 20, 25 for the fourth to the eighth colour), never more than
   * one step per call and never beyond eight.
   */
  function Increased(n: int, moves: int): (m: int)
    ensures InitialBlockTypes <= n <= MaxBlockTypes ==>
              m == if n < MaxBlockTypes && moves > 5 * (n - 2) then n + 1 else n
  {
    if moves > 5 && n < 4 then 4
    else if moves > 10 && n < 5 then 5
    else if moves > 15 && n < 6 then 6
    else if moves > 20 && n < 7 then 7
    else if moves > 25 && n < 8 then 8
    else n
  }

  /** The module-level counter of block types (colours) in play. */
  class BlockTypes {
    var max: int

    ghost predicate Valid()
      reads this
    {
      InitialBlockTypes <= max <= MaxBlockTypes
    }

    constructor ()
      ensures Valid() && max == InitialBlockTypes
    {
      max := InitialBlockTypes;
    }

    /** getNumBlockTypes */
    function Get(): (n: int)
      reads this
      requires Valid()
      ensures InitialBlockTypes <= n <= MaxBlockTypes
    {
      max
    }

    /** increaseBlockTypes(moves) */
    method Increase(moves: int)
      requires Valid()
      modifies this
      ensures Valid()
      ensures max == Increased(old(max), moves)
    {
      if moves > 5 && max < 4 {
        max := 4;
      } else if moves > 10 && max < 5 {
        max := 5;
      } else if moves > 15 && max < 6 {
        max := 6;
      } else if moves > 20 && max < 7 {
        max := 7;
      } else if moves > 25 && max < 8 {
        max := 8;
      }
    }

    /** resetBlockTypes */
    method Reset()
      modifies this
      ensures Valid() && max == InitialBlockTypes
    {
      max := InitialBlockTypes;
    }
  }

  /** getRandomBlock: Math.floor(Math.random() * n), a colour in [0, n). */
  function RandomBlock(x: Random, n: int): (v: int)
    requires n > 0
    ensures 0 <= v < n
  {
    assert x * n as real < n as real by {
      assert (1.0 - x) * n as real > 0.0;
    }
    (x * n as real).Floor
  }

  /** The colour class names, one per block type. */
  const ColorNames: seq<string> := ["bg-blue-300", "bg-green-300", "bg-yellow-300", "bg-red-300",
                                    "bg-purple-300", "bg-pink-300", "bg-orange-300", "bg-cyan-300"]

  /** generateColorClasses: colour index i gets the i-th class name, cycling through the list. */
  method GenerateColorClasses(n: int) returns (classes: map<int, string>)
    ensures forall i :: i in classes <==> 0 <= i < n
    ensures forall i :: 0 <= i < n ==> classes[i] == ColorNames[i % |ColorNames|]
  {
    classes := map[];
    var i := 0;
    while i < n
      invariant 0 <= i && (i <= n || i == 0)
      invariant forall k :: k in classes <==> 0 <= k < i
      invariant forall k :: 0 <= k < i ==> classes[k] == ColorNames[k % |ColorNames|]
    {
      classes := classes[i := ColorNames[i % |ColorNames|]];
      i := i + 1;
    }
  }

  // ---------------------------------------------------------------------
  // findMatches

  /** The three cells of the row triple starting at (r, c) are recorded. */
  predicate RowTripleIn(m: seq<Pos>, r: int, c: int) {
    Pos(r, c) in m && Pos(r, c + 1) in m && Pos(r, c + 2) in m
  }

  /** The three cells of the column triple starting at (r, c) are recorded. */
  predicate ColTripleIn(m: seq<Pos>, r: int, c: int) {
    Pos(r, c) in m && Pos(r + 1, c) in m && Pos(r + 2, c) in m
  }

  /** Every recorded cell lies in a triple. */
  predicate Sound(b: Board, m: seq<Pos>) {
    forall p :: p in m ==> InBounds(p) && InTriple(b, p.row, p.col)
  }

  /** m only grows from m0 and stays a duplicate-free set of matched cells. */
  predicate Grows(b: Board, m0: seq<Pos>, m: seq<Pos>) {
    Distinct(m) && Sound(b, m) && forall x :: x in m0 ==> x in m
  }

  /** Adding a matched cell keeps the growth invariant and every triple already recorded. */
  lemma InsertGrows(b: Board, m0: seq<Pos>, m: seq<Pos>, p: Pos)
    requires Grows(b, m0, m) && InBounds(p) && InTriple(b, p.row, p.col)
    ensures Grows(b, m0, Insert(m, p))
    ensures forall x :: x in m ==> x in Insert(m, p)
  {
  }

  /**
   * One run of row r found at start column c: adds the three cells of the triple and the
   * equal cells after them.
   */
  method RunRow(b: Board, r: int, c: int, m0: seq<Pos>, m: seq<Pos>) returns (m': seq<Pos>)
    requires 0 <= r < Size && RowTriple(b, r, c) && Grows(b, m0, m)
    ensures Grows(b, m0, m') && RowTripleIn(m', r, c)
    ensures forall x :: x in m ==> x in m'
  {
    var cell1 := b[r][c];
    InsertGrows(b, m0, m, Pos(r, c));
    m' := Insert(m, Pos(r, c));
    InsertGrows(b, m0, m', Pos(r, c + 1));
    m' := Insert(m', Pos(r, c + 1));
    InsertGrows(b, m0, m', Pos(r, c + 2));
    m' := Insert(m', Pos(r, c + 2));
    var k := c + 3;
    while k < Size
      invariant c + 3 <= k <= Size
      invariant forall j :: c <= j < k ==> b[r][j] == cell1
      invariant Grows(b, m0, m') && RowTripleIn(m', r, c)
      invariant forall x :: x in m ==> x in m'
    {
      if cell1 == b[r][k] {
        assert RowTriple(b, r, k - 2);
        InsertGrows(b, m0, m', Pos(r, k));
        m' := Insert(m', Pos(r, k));
      } else {
        break;
      }
      k := k + 1;
    }
  }

  /** The row half of findMatches for row r: every start column with three equal non-null cells adds its run. */
  method ScanRow(b: Board, r: int, m0: seq<Pos>) returns (m: seq<Pos>)
    requires 0 <= r < Size && Distinct(m0) && Sound(b, m0)
    ensures Grows(b, m0, m)
    ensures forall c :: RowTriple(b, r, c) ==> RowTripleIn(m, r, c)
  {
    m := m0;
    for c := 0 to Size - 2
      invariant Grows(b, m0, m)
      invariant forall c' :: c' < c && RowTriple(b, r, c') ==> RowTripleIn(m, r, c')
    {
      var cell1 := b[r][c];
      if cell1 != None {
        if cell1 == b[r][c + 1] && cell1 == b[r][c + 2] {
          m := RunRow(b, r, c, m0, m);
        }
      }
    }
  }

  /** One run of column c found at start row r, as RunRow with rows and columns exchanged. */
  method RunColumn(b: Board, r: int, c: int, m0: seq<Pos>, m: seq<Pos>) returns (m': seq<Pos>)
    requires 0 <= c < Size && ColTriple(b, r, c) && Grows(b, m0, m)
    ensures Grows(b, m0, m') && ColTripleIn(m', r, c)
    ensures forall x :: x in m ==> x in m'
  {
    var cell1 := b[r][c];
    InsertGrows(b, m0, m, Pos(r, c));
    m' := Insert(m, Pos(r, c));
    InsertGrows(b, m0, m', Pos(r + 1, c));
    m' := Insert(m', Pos(r + 1, c));
    InsertGrows(b, m0, m', Pos(r + 2, c));
    m' := Insert(m', Pos(r + 2, c));
    var k := r + 3;
    while k < Size
      invariant r + 3 <= k <= Size
      invariant forall j :: r <= j < k ==> b[j][c] == cell1
      invariant Grows(b, m0, m') && ColTripleIn(m', r, c)
      invariant forall x :: x in m ==> x in m'
    {
      if cell1 == b[k][c] {
        assert ColTriple(b, k - 2, c);
        InsertGrows(b, m0, m', Pos(k, c));
        m' := Insert(m', Pos(k, c));
      } else {
        break;
      }
      k := k + 1;
    }
  }

  /** The column half of findMatches for column c, as ScanRow with rows and columns exchanged. */
  method ScanColumn(b: Board, c: int, m0: seq<Pos>) returns (m: seq<Pos>)
    requires 0 <= c < Size && Distinct(m0) && Sound(b, m0)
    ensures Grows(b, m0, m)
    ensures forall r :: ColTriple(b, r, c) ==> ColTripleIn(m, r, c)
  {
    m := m0;
    for r := 0 to Size - 2
      invariant Grows(b, m0, m)
      invariant forall r' :: r' < r && ColTriple(b, r', c) ==> ColTripleIn(m, r', c)
    {
      var cell1 := b[r][c];
      if cell1 != None {
        if cell1 == b[r + 1][c] && cell1 == b[r + 2][c] {
          m := RunColumn(b, r, c, m0, m);
        }
      }
    }
  }

  /** A list that covers every triple holds each cell of a triple. */
  lemma TripleCovered(b: Board, m: seq<Pos>, p: Pos)
    requires forall r, c :: RowTriple(b, r, c) ==> RowTripleIn(m, r, c)
    requires forall r, c :: ColTriple(b, r, c) ==> ColTripleIn(m, r, c)
    requires InBounds(p) && InTriple(b, p.row, p.col)
    ensures p in m
  {
    var r, c := p.row, p.col;
    if RowTriple(b, r, c - 2) {
      assert RowTripleIn(m, r, c - 2);
    } else if RowTriple(b, r, c - 1) {
      assert RowTripleIn(m, r, c - 1);
    } else if RowTriple(b, r, c) {
      assert RowTripleIn(m, r, c);
    } else if ColTriple(b, r - 2, c) {
      assert ColTripleIn(m, r - 2, c);
    } else if ColTriple(b, r - 1, c) {
      assert ColTripleIn(m, r - 1, c);
    } else {
      assert ColTripleIn(m, r, c);
    }
  }

  /** A duplicate-free sequence of matched cells that covers every triple holds exactly the match set. */
  lemma CoveredIsMatchSet(b: Board, m: seq<Pos>)
    requires Distinct(m) && Sound(b, m)
    requires forall r, c :: RowTriple(b, r, c) ==> RowTripleIn(m, r, c)
    requires forall r, c :: ColTriple(b, r, c) ==> ColTripleIn(m, r, c)
    ensures forall p :: p in m <==> p in MatchSet(b)
    ensures |m| == |MatchSet(b)|
  {
    forall p ensures p in m <==> p in MatchSet(b) {
      MatchSetMember(b, p);
      if InBounds(p) && InTriple(b, p.row, p.col) {
        TripleCovered(b, m, p);
      }
    }
    DistinctCard(m);
    assert Elems(m) == MatchSet(b);
  }

  /**
   * findMatches: scans every row and then every column for three equal non-null
   * cells, recording them and the equal cells that follow, each cell once.
   */
  method FindMatches(b: Board) returns (matches: seq<Pos>)
    ensures Distinct(matches)
    ensures forall p :: p in matches ==> InBounds(p) && b[p.row][p.col] != None
    ensures forall p :: p in matches <==> p in MatchSet(b)
    ensures |matches| == |MatchSet(b)|
  {
    matches := [];
    for r := 0 to Size
      invariant Distinct(matches) && Sound(b, matches)
      invariant forall r', c' :: r' < r && RowTriple(b, r', c') ==> RowTripleIn(matches, r', c')
    {
      matches := ScanRow(b, r, matches);
    }
    for c := 0 to Size
      invariant Distinct(matches) && Sound(b, matches)
      invariant forall r', c' :: RowTriple(b, r', c') ==> RowTripleIn(matches, r', c')
      invariant forall r', c' :: c' < c && ColTriple(b, r', c') ==> ColTripleIn(matches, r', c')
    {
      matches := ScanColumn(b, c, matches);
    }
    CoveredIsMatchSet(b, matches);
  }

  // ---------------------------------------------------------------------
  // applyGravity

  /**
   * A column part-way through the upward scan at row r with the landing cursor at e:
   * rows above and at r untouched, then nulls down to e, then the non-null cells
   * already scanned, in order.
   */
  function Falling(col: seq<Cell>, r: int, e: int): seq<Cell>
    requires -1 <= r <= e < |col|
  {
    col[..r + 1] + Nulls(e - r) + NonNull(col[r + 1..])
  }

  lemma FallingSkipNull(col: seq<Cell>, r: int, e: int)
    requires 0 <= r <= e < |col| && col[r] == None
    ensures Falling(col, r, e) == Falling(col, r - 1, e)
    ensures NonNull(col[r..]) == NonNull(col[r + 1..])
  {
    assert col[r..][1..] == col[r + 1..];
    assert col[..r + 1] == col[..r] + [None];
    assert [None] + Nulls(e - r) == Nulls(e - r + 1);
  }

  lemma FallingKeep(col: seq<Cell>, r: int)
    requires 0 <= r < |col| && col[r] != None
    ensures Falling(col, r, r) == Falling(col, r - 1, r - 1)
    ensures NonNull(col[r..]) == [col[r]] + NonNull(col[r + 1..])
  {
    assert col[r..][1..] == col[r + 1..];
    assert col[..r + 1] == col[..r] + [col[r]];
  }

  lemma FallingMove(col: seq<Cell>, r: int, e: int)
    requires 0 <= r < e < |col| && col[r] != None
    ensures Falling(col, r, e)[e := col[r]][r := None] == Falling(col, r - 1, e - 1)
    ensures NonNull(col[r..]) == [col[r]] + NonNull(col[r + 1..])
  {
    assert col[r..][1..] == col[r + 1..];
    var lhs := Falling(col, r, e)[e := col[r]][r := None];
    var rhs := Falling(col, r - 1, e - 1);
    assert |lhs| == |rhs|;
    forall i | 0 <= i < |lhs| ensures lhs[i] == rhs[i] {
      if i < r {
      } else if i <= e - 1 {
      } else if i == e {
      } else {
      }
    }
  }

  /** Before the scan nothing has moved; after it the column has fallen. */
  lemma FallingEnds(col: seq<Cell>, e: int)
    requires |col| == Size && -1 <= e < Size
    ensures Falling(col, Size - 1, Size - 1) == col
    ensures e + 1 + |NonNull(col)| == Size ==> Falling(col, -1, e) == Compacted(col)
  {
    assert col[Size..] == [];
    assert col[..Size] == col;
    assert col[0..] == col;
  }

  /** `newBoard[e][c] = newBoard[r][c]; newBoard[r][c] = null`: the block at row r of column c moves down to row e. */
  method MoveCell(g: Board, c: int, r: int, e: int) returns (h: Board)
    requires 0 <= c < Size && 0 <= r < e < Size
    ensures forall i :: 0 <= i < Size ==> h[i][c] == if i == e then g[r][c] else if i == r then None else g[i][c]
    ensures forall i, j :: 0 <= i < Size && 0 <= j < Size && j != c ==> h[i][j] == g[i][j]
  {
    h := g[e := g[e][c := g[r][c]]];
    h := h[r := h[r][c := None]];
  }

  /**
   * One iteration of applyGravity's upward scan of column c at row r: a non-null
   * cell moves down to the emptyRow cursor e (or stays, when it is already there)
   * and the cursor rises; a null cell is skipped.
   */
  method FallStep(g: Board, ghost col: seq<Cell>, c: int, r: int, e: int) returns (h: Board, e': int)
    requires 0 <= c < Size && 0 <= r <= e < Size && |col| == Size
    requires e + 1 + |NonNull(col[r + 1..])| == Size
    requires forall i :: 0 <= i < Size ==> g[i][c] == Falling(col, r, e)[i]
    ensures -1 <= r - 1 <= e' < Size
    ensures e' + 1 + |NonNull(col[r..])| == Size
    ensures forall i :: 0 <= i < Size ==> h[i][c] == Falling(col, r - 1, e')[i]
    ensures forall i, j :: 0 <= i < Size && 0 <= j < Size && j != c ==> h[i][j] == g[i][j]
  {
    assert g[r][c] == col[r];
    h, e' := g, e;
    if g[r][c] != None {
      if r != e {
        FallingMove(col, r, e);
        h := MoveCell(g, c, r, e);
      } else {
        FallingKeep(col, r);
      }
      e' := e - 1;
    } else {
      FallingSkipNull(col, r, e);
    }
  }

  /**
   * The body of applyGravity for column c: scans upward from the bottom row and
   * moves each non-null cell down to the lowest free row, the emptyRow cursor.
   */
  method FallColumn(g0: Board, c: int) returns (g: Board)
    requires 0 <= c < Size
    ensures forall i :: 0 <= i < Size ==> g[i][c] == Compacted(Column(g0, c))[i]
    ensures forall i, j :: 0 <= i < Size && 0 <= j < Size && j != c ==> g[i][j] == g0[i][j]
  {
    g := g0;
    ghost var col := Column(g0, c);
    var emptyRow := Size - 1;
    var r := Size - 1;
    FallingEnds(col, -1);
    while r >= 0
      invariant -1 <= r <= emptyRow < Size
      invariant emptyRow + 1 + |NonNull(col[r + 1..])| == Size
      invariant forall i :: 0 <= i < Size ==> g[i][c] == Falling(col, r, emptyRow)[i]
      invariant forall i, j :: 0 <= i < Size && 0 <= j < Size && j != c ==> g[i][j] == g0[i][j]
    {
      g, emptyRow := FallStep(g, col, c, r, emptyRow);
      r := r - 1;
    }
    assert col[0..] == col;
    FallingEnds(col, emptyRow);
  }

  /** applyGravity: on a copy of the board, lets every column fall. */
  method ApplyGravity(b: Board) returns (g: Board)
    ensures g == Gravity(b)
  {
    g := b;
    for c := 0 to Size
      invariant forall i, j :: 0 <= i < Size && 0 <= j < c ==> g[i][j] == Compacted(Column(b, j))[i]
      invariant forall i, j :: 0 <= i < Size && c <= j < Size ==> g[i][j] == b[i][j]
    {
      assert Column(g, c) == Column(b, c);
      g := FallColumn(g, c);
    }
    var want := Gravity(b);
    assert forall i | 0 <= i < Size :: g[i] == want[i];
  }

  // ---------------------------------------------------------------------
  // refillBoard

  /** The board with every null cell given the colour drawn for it. */
  function Refilled(b: Board, draws: Draws, n: int): (f: Board)
    requires n > 0
    ensures Full(f)
    ensures forall r, c :: 0 <= r < Size && 0 <= c < Size && b[r][c] != None ==> f[r][c] == b[r][c]
    ensures forall r, c :: 0 <= r < Size && 0 <= c < Size && b[r][c] == None ==> 0 <= f[r][c].value < n
  {
    seq(Size, r requires 0 <= r < Size =>
      seq(Size, c requires 0 <= c < Size =>
        if b[r][c] == None then Some(RandomBlock(draws[r][c], n)) else b[r][c]))
  }

  /** A board with no null cell is left as it is by a refill. */
  lemma RefilledFull(b: Board, draws: Draws, n: int)
    requires n > 0 && Full(b)
    ensures Refilled(b, draws, n) == b
  {
    var f := Refilled(b, draws, n);
    assert forall r | 0 <= r < Size :: f[r] == b[r];
  }

  /**
   * refillBoard: on a copy of the board, every null cell receives a random block of
   * one of the current number of types; all other cells are kept.
   */
  method RefillBoard(b: Board, draws: Draws, types: BlockTypes) returns (f: Board)
    requires types.Valid()
    ensures f == Refilled(b, draws, types.max)
    ensures Full(f)
    ensures forall r, c :: 0 <= r < Size && 0 <= c < Size && b[r][c] != None ==> f[r][c] == b[r][c]
    ensures forall r, c :: 0 <= r < Size && 0 <= c < Size && b[r][c] == None ==> 0 <= f[r][c].value < types.max
  {
    f := b;
    for r := 0 to Size
      invariant forall i, j :: 0 <= i < r && 0 <= j < Size ==> f[i][j] == Refilled(b, draws, types.max)[i][j]
      invariant forall i, j :: r <= i < Size && 0 <= j < Size ==> f[i][j] == b[i][j]
    {
      for c := 0 to Size
        invariant forall i, j :: 0 <= i < r && 0 <= j < Size ==> f[i][j] == Refilled(b, draws, types.max)[i][j]
        invariant forall j :: 0 <= j < c ==> f[r][j] == Refilled(b, draws, types.max)[r][j]
        invariant forall i, j :: (r < i < Size && 0 <= j < Size) || (i == r && c <= j < Size) ==> f[i][j] == b[i][j]
      {
        if f[r][c] == None {
          f := f[r := f[r][c := Some(RandomBlock(draws[r][c], types.Get()))]];
        }
      }
    }
    var want := Refilled(b, draws, types.max);
    assert forall i | 0 <= i < Size :: f[i] == want[i];
  }

  // ---------------------------------------------------------------------
  // checkForPossibleMoves

  /** One trial of checkForPossibleMoves: swap p and q on a scratch copy and look for a match. */
  method TrySwap(b: Board, p: Pos, q: Pos) returns (ok: bool)
    requires InBounds(p) && InBounds(q)
    ensures ok <==> SwapMakesMatch(b, p, q)
  {
    var swapped := SwapCells(b, p, q);
    var m := FindMatches(swapped);
    ok := |m| > 0;
  }

  /** The two trials at cell (r, c): the swap with the right neighbour, then the one with the lower neighbour. */
  method TryCell(b: Board, r: int, c: int) returns (ok: bool)
    requires 0 <= r < Size && 0 <= c < Size
    ensures ok <==> MoveAt(b, r, c)
  {
    ok := false;
    if c < Size - 1 {
      ok := TrySwap(b, Pos(r, c), Pos(r, c + 1));
    }
    if !ok && r < Size - 1 {
      ok := TrySwap(b, Pos(r, c), Pos(r + 1, c));
    }
  }

  /** The trials of row r, cell by cell from the left. */
  method TryRow(b: Board, r: int) returns (found: bool)
    requires 0 <= r < Size
    ensures found <==> exists c :: 0 <= c < Size && MoveAt(b, r, c)
  {
    for c := 0 to Size
      invariant forall c' :: 0 <= c' < c ==> !MoveAt(b, r, c')
    {
      var ok := TryCell(b, r, c);
      if ok {
        return true;
      }
    }
    return false;
  }

  /**
   * checkForPossibleMoves: tries, cell by cell, the swap with the right neighbour and
   * the swap with the lower neighbour, and reports whether any of them makes a match.
   * The board itself is a value and is not changed.
   */
  method CheckForPossibleMoves(b: Board) returns (found: bool)
    ensures found <==> HasPossibleMove(b)
  {
    for r := 0 to Size
      invariant forall r', c' :: 0 <= r' < r && 0 <= c' < Size ==> !MoveAt(b, r', c')
    {
      var ok := TryRow(b, r);
      if ok {
        return true;
      }
    }
    return false;
  }
}
