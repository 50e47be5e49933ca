/**
 * The match-3 board: a fixed square grid of nullable colour indices, and the
 * specification of what a match, a swap and falling blocks are.
 */
module Board {
  import opened Wrappers

  /** BOARD_SIZE: the board has Size rows of Size cells. */
  const Size: int := 6

  /** A cell holds a colour index, or nothing once it has been cleared. */
  type Cell = Option<int>

  /** A board, indexed board[row][col]; row 0 is the top row. */
  type Board = b: seq<seq<Cell>> | |b| == Size && forall r :: 0 <= r < Size ==> |b[r]| == Size
    witness seq(6, _ => seq<Cell>(6, _ => None))

  /** A coordinate, the { row, col } records the game passes around. */
  datatype Pos = Pos(row: int, col: int)

  predicate InBounds(p: Pos) {
    0 <= p.row < Size && 0 <= p.col < Size
  }

  function Abs(x: int): int {
    if x < 0 then -x else x
  }

  /** Two cells are adjacent when their Manhattan distance is exactly one. */
  predicate Adjacent(p: Pos, q: Pos) {
    Abs(p.row - q.row) + Abs(p.col - q.col) == 1
  }

  lemma AdjacentNeighbours(p: Pos, q: Pos)
    ensures Adjacent(p, q) <==>
      q in {Pos(p.row, p.col + 1), Pos(p.row, p.col - 1), Pos(p.row + 1, p.col), Pos(p.row - 1, p.col)}
  {
  }

  /** The board with the cells at p and q exchanged and every other cell kept. */
  function Swapped(b: Board, p: Pos, q: Pos): Board
    requires InBounds(p) && InBounds(q)
  {
    seq(Size, i requires 0 <= i < Size =>
      seq(Size, j requires 0 <= j < Size =>
        if Pos(i, j) == p then b[q.row][q.col]
        else if Pos(i, j) == q then b[p.row][p.col]
        else b[i][j]))
  }

  lemma SwappedSymmetric(b: Board, p: Pos, q: Pos)
    requires InBounds(p) && InBounds(q)
    ensures Swapped(b, p, q) == Swapped(b, q, p)
  {
    var s, t := Swapped(b, p, q), Swapped(b, q, p);
    assert forall i | 0 <= i < Size :: s[i] == t[i];
  }

  /** Swapping the same two cells again restores the board. */
  lemma SwappedTwice(b: Board, p: Pos, q: Pos)
    requires InBounds(p) && InBounds(q)
    ensures Swapped(Swapped(b, p, q), p, q) == b
  {
    var s := Swapped(Swapped(b, p, q), p, q);
    assert forall i | 0 <= i < Size :: s[i] == b[i];
  }

  // ---------------------------------------------------------------------
  // Matches

  /** Three equal non-null cells in row r, starting at column c. */
  predicate RowTriple(b: Board, r: int, c: int) {
    0 <= r < Size && 0 <= c <= Size - 3 &&
    b[r][c] != None && b[r][c] == b[r][c + 1] && b[r][c] == b[r][c + 2]
  }

  /** Three equal non-null cells in column c, starting at row r. */
  predicate ColTriple(b: Board, r: int, c: int) {
    0 <= r <= Size - 3 && 0 <= c < Size &&
    b[r][c] != None && b[r][c] == b[r + 1][c] && b[r][c] == b[r + 2][c]
  }

  /** Cell (r, c) is one of three equal non-null cells in a line. */
  predicate InTriple(b: Board, r: int, c: int) {
    0 <= r < Size && 0 <= c < Size &&
    (RowTriple(b, r, c - 2) || RowTriple(b, r, c - 1) || RowTriple(b, r, c) ||
     ColTriple(b, r - 2, c) || ColTriple(b, r - 1, c) || ColTriple(b, r, c))
  }

  /** The cells a match clears: every cell that lies in some triple. */
  function MatchSet(b: Board): set<Pos> {
    set r, c | 0 <= r < Size && 0 <= c < Size && InTriple(b, r, c) :: Pos(r, c)
  }

  lemma MatchSetMember(b: Board, p: Pos)
    ensures p in MatchSet(b) <==> InBounds(p) && InTriple(b, p.row, p.col)
  {
  }

  /** Cells lo..hi (inclusive) of row r hold one non-null colour, and there are at least three. */
  ghost predicate RowRun(b: Board, r: int, lo: int, hi: int) {
    0 <= r < Size && 0 <= lo && hi < Size && hi - lo >= 2 && b[r][lo] != None &&
    forall k :: lo <= k <= hi ==> b[r][k] == b[r][lo]
  }

  /** Cells lo..hi (inclusive) of column c hold one non-null colour, and there are at least three. */
  ghost predicate ColRun(b: Board, lo: int, hi: int, c: int) {
    0 <= c < Size && 0 <= lo && hi < Size && hi - lo >= 2 && b[lo][c] != None &&
    forall k :: lo <= k <= hi ==> b[k][c] == b[lo][c]
  }

  /** The glossary's notion: a cell is matched when it lies in a horizontal or vertical run of three or more. */
  ghost predicate InRun(b: Board, r: int, c: int) {
    (exists lo, hi :: lo <= c <= hi && RowRun(b, r, lo, hi)) ||
    (exists lo, hi :: lo <= r <= hi && ColRun(b, lo, hi, c))
  }

  /** A matched cell lies in a run: the triple that matched it is one. */
  lemma MatchedInRun(b: Board, r: int, c: int)
    requires Pos(r, c) in MatchSet(b)
    ensures InRun(b, r, c)
  {
    if RowTriple(b, r, c - 2) {
      assert RowRun(b, r, c - 2, c);
    } else if RowTriple(b, r, c - 1) {
      assert RowRun(b, r, c - 1, c + 1);
    } else if RowTriple(b, r, c) {
      assert RowRun(b, r, c, c + 2);
    } else if ColTriple(b, r - 2, c) {
      assert ColRun(b, r - 2, r, c);
    } else if ColTriple(b, r - 1, c) {
      assert ColRun(b, r - 1, r + 1, c);
    } else {
      assert ColRun(b, r, r + 2, c);
    }
  }

  /** A cell in a run is matched: some three consecutive cells of the run contain it. */
  lemma InRunMatched(b: Board, r: int, c: int)
    requires InRun(b, r, c)
    ensures Pos(r, c) in MatchSet(b)
  {
    if exists lo, hi :: lo <= c <= hi && RowRun(b, r, lo, hi) {
      var lo, hi :| lo <= c <= hi && RowRun(b, r, lo, hi);
      var s := if c + 2 <= hi then c else hi - 2;
      assert b[r][s] == b[r][lo] && b[r][s + 1] == b[r][lo] && b[r][s + 2] == b[r][lo];
      assert RowTriple(b, r, s);
    } else {
      var lo, hi :| lo <= r <= hi && ColRun(b, lo, hi, c);
      var s := if r + 2 <= hi then r else hi - 2;
      assert b[s][c] == b[lo][c] && b[s + 1][c] == b[lo][c] && b[s + 2][c] == b[lo][c];
      assert ColTriple(b, s, c);
    }
    assert InTriple(b, r, c);
  }

  /** The match set is exactly the set of cells lying in a run of at least three. */
  lemma MatchSetIsRuns(b: Board, r: int, c: int)
    ensures Pos(r, c) in MatchSet(b) <==> InRun(b, r, c)
  {
    if Pos(r, c) in MatchSet(b) {
      MatchedInRun(b, r, c);
    }
    if InRun(b, r, c) {
      InRunMatched(b, r, c);
    }
  }

  /** Exchanging the cells at p and q leaves at least one match on the board. */
  predicate SwapMakesMatch(b: Board, p: Pos, q: Pos)
    requires InBounds(p) && InBounds(q)
  {
    MatchSet(Swapped(b, p, q)) != {}
  }

  /** Swapping cell (r, c) with its right or its lower neighbour makes a match. */
  predicate MoveAt(b: Board, r: int, c: int)
    requires 0 <= r < Size && 0 <= c < Size
  {
    (c < Size - 1 && SwapMakesMatch(b, Pos(r, c), Pos(r, c + 1))) ||
    (r < Size - 1 && SwapMakesMatch(b, Pos(r, c), Pos(r + 1, c)))
  }

  /** What checkForPossibleMoves decides: a right or down swap somewhere makes a match. */
  predicate HasPossibleMove(b: Board) {
    exists r, c :: 0 <= r < Size && 0 <= c < Size && MoveAt(b, r, c)
  }

  /** A right or down swap that makes a match is an adjacent swap that makes a match. */
  lemma MoveAtIsAdjacentSwap(b: Board, r: int, c: int) returns (p: Pos, q: Pos)
    requires 0 <= r < Size && 0 <= c < Size && MoveAt(b, r, c)
    ensures InBounds(p) && InBounds(q) && Adjacent(p, q) && SwapMakesMatch(b, p, q)
  {
    if c < Size - 1 && SwapMakesMatch(b, Pos(r, c), Pos(r, c + 1)) {
      p, q := Pos(r, c), Pos(r, c + 1);
    } else {
      p, q := Pos(r, c), Pos(r + 1, c);
    }
  }

  /** An adjacent swap in any direction that makes a match is found as a right or down swap. */
  lemma AdjacentSwapIsMove(b: Board, p: Pos, q: Pos)
    requires InBounds(p) && InBounds(q) && Adjacent(p, q) && SwapMakesMatch(b, p, q)
    ensures HasPossibleMove(b)
  {
    AdjacentNeighbours(p, q);
    if q == Pos(p.row, p.col + 1) || q == Pos(p.row + 1, p.col) {
      assert MoveAt(b, p.row, p.col);
    } else if q == Pos(p.row, p.col - 1) {
      SwappedSymmetric(b, p, q);
      assert SwapMakesMatch(b, q, Pos(q.row, q.col + 1));
      assert MoveAt(b, q.row, q.col);
    } else {
      SwappedSymmetric(b, p, q);
      assert SwapMakesMatch(b, q, Pos(q.row + 1, q.col));
      assert MoveAt(b, q.row, q.col);
    }
  }

  /**
   * Trying only right and down swaps loses nothing: a possible move exists exactly
   * when some swap of two adjacent cells, in any direction, makes a match.
   */
  lemma PossibleMoveAnyDirection(b: Board)
    ensures HasPossibleMove(b) <==>
      exists p, q :: InBounds(p) && InBounds(q) && Adjacent(p, q) && SwapMakesMatch(b, p, q)
  {
    if HasPossibleMove(b) {
      var r, c :| 0 <= r < Size && 0 <= c < Size && MoveAt(b, r, c);
      var p, q := MoveAtIsAdjacentSwap(b, r, c);
    }
    if exists p, q :: InBounds(p) && InBounds(q) && Adjacent(p, q) && SwapMakesMatch(b, p, q) {
      var p, q :| InBounds(p) && InBounds(q) && Adjacent(p, q) && SwapMakesMatch(b, p, q);
      AdjacentSwapIsMove(b, p, q);
    }
  }

  // ---------------------------------------------------------------------
  // Sets of coordinates kept as insertion-ordered sequences

  /** No coordinate occurs twice. */
  predicate Distinct(s: seq<Pos>) {
    forall i, j :: 0 <= i < j < |s| ==> s[i] != s[j]
  }

  function Elems(s: seq<Pos>): set<Pos> {
    set x | x in s
  }

  /** Set.prototype.add on an insertion-ordered set: append unless already present. */
  function Insert(s: seq<Pos>, p: Pos): (t: seq<Pos>)
    ensures Distinct(s) ==> Distinct(t)
    ensures forall x :: x in t <==> x in s || x == p
  {
    if p in s then s else s + [p]
  }

  /** A duplicate-free sequence has as many elements as its set. */
  lemma {:induction false} DistinctCard(s: seq<Pos>)
    requires Distinct(s)
    ensures |Elems(s)| == |s|
  {
    if s != [] {
      var t := s[..|s| - 1];
      var x := s[|s| - 1];
      assert Distinct(t);
      DistinctCard(t);
      assert s == t + [x];
      assert x !in Elems(t);
      assert Elems(s) == Elems(t) + {x};
    }
  }

  // ---------------------------------------------------------------------
  // Clearing

  /** The board with exactly the cells of m set to null. */
  function Cleared(b: Board, m: set<Pos>): Board {
    seq(Size, i requires 0 <= i < Size =>
      seq(Size, j requires 0 <= j < Size => if Pos(i, j) in m then None else b[i][j]))
  }

  /** The cells of m, all on the board, set to null one after the other. */
  method ClearCells(b: Board, m: seq<Pos>) returns (r: Board)
    requires forall p :: p in m ==> InBounds(p)
    ensures r == Cleared(b, Elems(m))
  {
    r := b;
    for k := 0 to |m|
      invariant forall i, j :: 0 <= i < Size && 0 <= j < Size ==>
        r[i][j] == if Pos(i, j) in m[..k] then None else b[i][j]
    {
      var p := m[k];
      assert p in m && InBounds(p);
      r := r[p.row := r[p.row][p.col := None]];
      assert m[..k + 1] == m[..k] + [p];
    }
    assert m[..|m|] == m;
    var want := Cleared(b, Elems(m));
    assert forall i | 0 <= i < Size :: r[i] == want[i];
  }

  /** The copy-and-exchange through a temporary that every swap in the game performs. */
  method SwapCells(b: Board, p: Pos, q: Pos) returns (s: Board)
    requires InBounds(p) && InBounds(q)
    ensures s == Swapped(b, p, q)
  {
    s := b;
    var temp := s[p.row][p.col];
    s := s[p.row := s[p.row][p.col := s[q.row][q.col]]];
    s := s[q.row := s[q.row][q.col := temp]];
    var want := Swapped(b, p, q);
    assert forall i | 0 <= i < Size :: s[i] == want[i];
  }

  // ---------------------------------------------------------------------
  // Gravity

  /** Column c read from top to bottom. */
  function Column(b: Board, c: int): (s: seq<Cell>)
    requires 0 <= c < Size
    ensures |s| == Size && forall r :: 0 <= r < Size ==> s[r] == b[r][c]
  {
    seq(Size, r requires 0 <= r < Size => b[r][c])
  }

  /** The non-null cells of s, in their order. */
  function NonNull(s: seq<Cell>): (t: seq<Cell>)
    ensures |t| <= |s|
    ensures forall i :: 0 <= i < |t| ==> t[i] != None
  {
    if s == [] then []
    else (if s[0] == None then [] else [s[0]]) + NonNull(s[1..])
  }

  function Nulls(n: nat): (s: seq<Cell>)
    ensures |s| == n && forall i :: 0 <= i < n ==> s[i] == None
  {
    seq(n, _ => None)
  }

  /** A column after falling: the non-null cells, in order, at the bottom, and only nulls above them. */
  function Compacted(s: seq<Cell>): (t: seq<Cell>)
    ensures |t| == |s|
  {
    Nulls(|s| - |NonNull(s)|) + NonNull(s)
  }

  /** The board after every column has fallen. */
  function Gravity(b: Board): Board {
    seq(Size, r requires 0 <= r < Size =>
      seq(Size, c requires 0 <= c < Size => Compacted(Column(b, c))[r]))
  }

  /** No non-null cell sits directly above a null one. */
  predicate Settled(b: Board) {
    forall r, c :: 0 <= r < Size - 1 && 0 <= c < Size ==> RestsOnBlock(b, r, c)
  }

  /** A non-null cell at (r, c) has a non-null cell below it. */
  predicate RestsOnBlock(b: Board, r: int, c: int)
    requires 0 <= r < Size - 1 && 0 <= c < Size
  {
    b[r][c] != None ==> b[r + 1][c] != None
  }

  /** No empty cell anywhere. */
  predicate Full(b: Board) {
    forall r, c :: 0 <= r < Size && 0 <= c < Size ==> b[r][c] != None
  }

  lemma {:induction false} NonNullAppend(a: seq<Cell>, b: seq<Cell>)
    ensures NonNull(a + b) == NonNull(a) + NonNull(b)
  {
    if a != [] {
      assert (a + b)[1..] == a[1..] + b;
      NonNullAppend(a[1..], b);
    } else {
      assert a + b == b;
    }
  }

  lemma {:induction false} NonNullOfNulls(n: nat)
    ensures NonNull(Nulls(n)) == []
  {
    if n > 0 {
      assert Nulls(n)[1..] == Nulls(n - 1);
      NonNullOfNulls(n - 1);
    }
  }

  lemma {:induction false} NonNullOfFull(s: seq<Cell>)
    requires forall i :: 0 <= i < |s| ==> s[i] != None
    ensures NonNull(s) == s
  {
    if s != [] {
      NonNullOfFull(s[1..]);
    }
  }

  /** Falling keeps a column's non-null cells, in the same order. */
  lemma CompactedKeepsCells(s: seq<Cell>)
    ensures NonNull(Compacted(s)) == NonNull(s)
  {
    var t := NonNull(s);
    NonNullAppend(Nulls(|s| - |t|), t);
    NonNullOfNulls(|s| - |t|);
    NonNullOfFull(t);
  }

  /** After falling, the top cells of a column are null and the bottom ones are not. */
  lemma CompactedShape(s: seq<Cell>)
    ensures forall i :: 0 <= i < |s| ==>
      (Compacted(s)[i] == None <==> i < |s| - |NonNull(s)|)
  {
  }

  /** Letting a fallen column fall again changes nothing. */
  lemma CompactedIdempotent(s: seq<Cell>)
    ensures Compacted(Compacted(s)) == Compacted(s)
  {
    CompactedKeepsCells(s);
  }

  /** A column in which no non-null cell is above a null one does not move. */
  lemma {:induction false} CompactedOfSettled(s: seq<Cell>)
    requires forall i :: 0 <= i < |s| - 1 && s[i] != None ==> s[i + 1] != None
    ensures Compacted(s) == s
  {
    if s != [] {
      if s[0] == None {
        CompactedOfSettled(s[1..]);
        assert Compacted(s) == [None] + Compacted(s[1..]);
      } else {
        assert forall i :: 0 <= i < |s| ==> s[i] != None by {
          forall i | 0 <= i < |s| ensures s[i] != None {
            var k := 0;
            while k < i
              invariant 0 <= k <= i && s[k] != None
            {
              k := k + 1;
            }
          }
        }
        NonNullOfFull(s);
      }
    }
  }

  lemma GravityColumn(b: Board, c: int)
    requires 0 <= c < Size
    ensures Column(Gravity(b), c) == Compacted(Column(b, c))
  {
  }

  /** Gravity keeps each column's non-null cells in order, at the bottom, with only nulls above. */
  lemma GravityKeepsColumns(b: Board, c: int)
    requires 0 <= c < Size
    ensures NonNull(Column(Gravity(b), c)) == NonNull(Column(b, c))
    ensures forall r :: 0 <= r < Size ==>
      (Gravity(b)[r][c] == None <==> r < Size - |NonNull(Column(b, c))|)
  {
    GravityColumn(b, c);
    CompactedKeepsCells(Column(b, c));
    CompactedShape(Column(b, c));
  }

  /** A settled board does not move under gravity. */
  lemma GravityOfSettled(b: Board)
    requires Settled(b)
    ensures Gravity(b) == b
  {
    forall c | 0 <= c < Size ensures Compacted(Column(b, c)) == Column(b, c) {
      var col := Column(b, c);
      assert forall i :: 0 <= i < Size - 1 && col[i] != None ==> col[i + 1] != None by {
        forall i | 0 <= i < Size - 1 && col[i] != None ensures col[i + 1] != None {
          assert RestsOnBlock(b, i, c);
        }
      }
      CompactedOfSettled(col);
    }
    var g := Gravity(b);
    assert forall r | 0 <= r < Size :: g[r] == b[r];
  }

  /** Gravity leaves a settled board, so that applying it twice is applying it once. */
  lemma GravityIdempotent(b: Board)
    ensures Settled(Gravity(b))
    ensures Gravity(Gravity(b)) == Gravity(b)
  {
    forall c | 0 <= c < Size {
      CompactedShape(Column(b, c));
    }
    GravityOfSettled(Gravity(b));
  }

  /** A full board is settled, so gravity leaves it unchanged. */
  lemma GravityOfFull(b: Board)
    requires Full(b)
    ensures Gravity(b) == b
  {
    GravityOfSettled(b);
  }
}
