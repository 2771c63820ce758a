/**
 The dense Game of Life engine: a square board of side n stored row-major as a
 flat sequence of n*n cells (index = row * n + col). Neighbours that fall off
 the board are skipped; nothing wraps around an edge.
 */
module Life {

  /** A board of side `n` holds exactly n*n cells (the empty board has side 0). */
  predicate ValidBoard(board: seq<bool>, n: int)
  {
    n >= 0 && |board| == n * n
  }

  /* ----------------------------------------------------------------------
     Row-major index arithmetic
     ---------------------------------------------------------------------- */

  /** True exactly when (row, col) names a cell of a board of side `size`. */
  function IsWithinBounds(row: int, col: int, size: int): (b: bool)
    ensures b <==> (0 <= row < size && 0 <= col < size)
  {
    row >= 0 && row < size && col >= 0 && col < size
  }

  lemma MulStrictBound(a: int, b: int, n: int)
    requires a < b && n > 0
    ensures a * n + n <= b * n
  {
    var c := b - a - 1;
    assert c * n >= 0;
    assert b * n == (a + 1 + c) * n == a * n + n + c * n;
  }

  /** Quotient and remainder by a positive `n` are unique. */
  lemma DivModUnique(k: int, n: int, q: int, r: int)
    requires n > 0 && 0 <= r < n && k == q * n + r
    ensures k / n == q && k % n == r
  {
    var q', r' := k / n, k % n;
    assert k == q' * n + r' && 0 <= r' < n;
    if q' < q {
      MulStrictBound(q', q, n);
    } else if q < q' {
      MulStrictBound(q, q', n);
    }
  }

  /** Encoding an on-board (row, col) pair as a row-major index lands on the
      board and decodes back to the same pair. */
  lemma IndexRoundTrip(row: int, col: int, n: int)
    requires IsWithinBounds(row, col, n)
    ensures 0 <= row * n + col < n * n
    ensures (row * n + col) / n == row && (row * n + col) % n == col
  {
    MulStrictBound(row, n, n);
    DivModUnique(row * n + col, n, row, col);
  }

  /** An on-board pair encodes to an index of the board. */
  lemma IndexInBoard(row: int, col: int, n: int)
    requires IsWithinBounds(row, col, n)
    ensures 0 <= row * n + col < n * n
  {
    IndexRoundTrip(row, col, n);
  }

  /** Every index of the board decodes to an on-board pair that encodes back to it. */
  lemma IndexDecode(k: int, n: int)
    requires n >= 1 && 0 <= k < n * n
    ensures IsWithinBounds(k / n, k % n, n)
    ensures (k / n) * n + k % n == k
  {
    if k / n >= n {
      MulStrictBound(n - 1, k / n, n);
    }
  }

  /* ----------------------------------------------------------------------
     The neighbour count, as the nested scan computes it
     ---------------------------------------------------------------------- */

  /** The cell at (row, col) is on the board and alive. (The index guard always
      holds for an on-board pair, by IndexInBoard; it keeps the predicate total.) */
  predicate LiveAt(board: seq<bool>, n: int, row: int, col: int)
  {
    IsWithinBounds(row, col, n) && 0 <= row * n + col < |board| && board[row * n + col]
  }

  /** A (row, col) displacement from a cell. */
  type Offset = (int, int)

  /** Whether the cell at a given offset from (row, col) is on the board and alive. */
  function LiveOffset(board: seq<bool>, n: int, row: int, col: int): Offset -> bool
  {
    (d: Offset) => LiveAt(board, n, row + d.0, col + d.1)
  }

  /** 1 when offset (i, j) is not the centre and `live` holds there, else 0. */
  function WindowCell(live: Offset -> bool, i: int, j: int): nat
  {
    if (i, j) != (0, 0) && live((i, j)) then 1 else 0
  }

  /** Live offsets (i, j), (i, j + 1), ..., (i, 1): what the inner loop still
      has to count in row offset `i`, the centre excluded. */
  function RowAhead(live: Offset -> bool, i: int, j: int): nat
    decreases 2 - j
  {
    if j > 1 then 0 else WindowCell(live, i, j) + RowAhead(live, i, j + 1)
  }

  /** Live offsets in row offsets i, i + 1, ..., 1: what the outer loop still
      has to count. */
  function WindowAhead(live: Offset -> bool, i: int): nat
    decreases 2 - i
  {
    if i > 1 then 0 else RowAhead(live, i, -1) + WindowAhead(live, i + 1)
  }

  lemma RowAheadUnfold(live: Offset -> bool, i: int)
    ensures RowAhead(live, i, -1) == WindowCell(live, i, -1) + WindowCell(live, i, 0) + WindowCell(live, i, 1)
  {
    assert RowAhead(live, i, 1) == WindowCell(live, i, 1);
  }

  /** The window count written out over the eight neighbour offsets. */
  lemma WindowUnfold(live: Offset -> bool)
    ensures WindowAhead(live, -1) ==
      WindowCell(live, -1, -1) + WindowCell(live, -1, 0) + WindowCell(live, -1, 1) +
      WindowCell(live, 0, -1) + WindowCell(live, 0, 1) +
      WindowCell(live, 1, -1) + WindowCell(live, 1, 0) + WindowCell(live, 1, 1)
  {
    RowAheadUnfold(live, -1);
    RowAheadUnfold(live, 0);
    RowAheadUnfold(live, 1);
    assert WindowAhead(live, 1) == RowAhead(live, 1, -1);
  }

  /** The centre is never counted, so the window holds at most 8 live neighbours. */
  lemma WindowBound(live: Offset -> bool)
    ensures WindowAhead(live, -1) <= 8
  {
    WindowUnfold(live);
  }

  /** The live-neighbour count of cell `ix`: the whole 3×3 window around it,
      scanned row by row, centre and off-board positions skipped. */
  function NeighborCount(board: seq<bool>, n: int, ix: int): (c: nat)
    requires ValidBoard(board, n) && 0 <= ix < |board|
    ensures c <= 8
  {
    WindowBound(LiveOffset(board, n, ix / n, ix % n));
    WindowAhead(LiveOffset(board, n, ix / n, ix % n), -1)
  }

  /* ----------------------------------------------------------------------
     What the count means: the live cells adjacent to the cell
     ---------------------------------------------------------------------- */

  /** Cells `a` and `b` are distinct and at most one row and one column apart
      (row and column taken separately, so column 0 is never next to column n-1). */
  predicate Adjacent(n: int, a: int, b: int)
    requires n >= 1
  {
    a != b && -1 <= b / n - a / n <= 1 && -1 <= b % n - a % n <= 1
  }

  /** The indices of the live cells adjacent to cell `ix`: the reference
      definition of what the neighbour count counts. */
  function LiveNeighbors(board: seq<bool>, n: int, ix: int): set<int>
    requires ValidBoard(board, n)
  {
    set k | 0 <= k < |board| && board[k] && Adjacent(n, ix, k)
  }

  /* Counting over a list of candidates. */

  /** No element occurs twice in `ds`. */
  predicate Distinct<T(==)>(ds: seq<T>)
  {
    forall p, q :: 0 <= p < q < |ds| ==> ds[p] != ds[q]
  }

  /** How many elements of `ds` satisfy `live`. */
  function CountWhere<T>(ds: seq<T>, live: T -> bool): (c: nat)
    ensures c <= |ds|
  {
    if |ds| == 0 then 0 else (if live(ds[0]) then 1 else 0) + CountWhere(ds[1..], live)
  }

  /** The values `f` takes on the elements of `ds` that satisfy `live`. */
  ghost function Image<T>(ds: seq<T>, live: T -> bool, f: T -> int): set<int>
  {
    set d | d in ds && live(d) :: f(d)
  }

  /** Counting distinct candidates through a map that is injective on the live
      ones gives the size of the image. */
  lemma {:induction false} CountIsImageSize<T>(ds: seq<T>, live: T -> bool, f: T -> int)
    requires Distinct(ds)
    requires forall a, b :: a in ds && b in ds && live(a) && live(b) && f(a) == f(b) ==> a == b
    ensures CountWhere(ds, live) == |Image(ds, live, f)|
  {
    if |ds| > 0 {
      var d, rest := ds[0], ds[1..];
      assert Distinct(rest) by {
        forall p, q | 0 <= p < q < |rest| ensures rest[p] != rest[q] {
          assert rest[p] == ds[p + 1] && rest[q] == ds[q + 1];
        }
      }
      CountIsImageSize(rest, live, f);
      var h := Image(rest, live, f);
      if live(d) {
        assert d !in rest;
        assert f(d) !in h;
        assert Image(ds, live, f) == h + {f(d)};
      } else {
        assert Image(ds, live, f) == h;
      }
    } else {
      assert Image(ds, live, f) == {};
    }
  }

  lemma {:induction false} CountWhereAppend<T>(a: seq<T>, b: seq<T>, live: T -> bool)
    ensures CountWhere(a + b, live) == CountWhere(a, live) + CountWhere(b, live)
  {
    if |a| > 0 {
      assert (a + b)[1..] == a[1..] + b;
      CountWhereAppend(a[1..], b, live);
    } else {
      assert a + b == b;
    }
  }

  lemma CountWhere2<T>(a: T, b: T, live: T -> bool)
    ensures CountWhere([a, b], live) == (if live(a) then 1 else 0) + (if live(b) then 1 else 0)
  {
    assert [a, b][1..] == [b];
    assert [b][1..] == [];
  }

  lemma CountWhere3<T>(a: T, b: T, c: T, live: T -> bool)
    ensures CountWhere([a, b, c], live) ==
      (if live(a) then 1 else 0) + (if live(b) then 1 else 0) + (if live(c) then 1 else 0)
  {
    assert [a, b, c][1..] == [b, c];
    CountWhere2(b, c, live);
  }

  /* The window as a list of offsets. */

  /** The 8 (row, col) offsets around a cell in the order the scan visits them:
      row offset outer, column offset inner, centre skipped. */
  const Offsets: seq<Offset> :=
    [(-1, -1), (-1, 0), (-1, 1), (0, -1), (0, 1), (1, -1), (1, 0), (1, 1)]

  /** Index of the cell at a given offset from (row, col) (meaningful when on the board). */
  function TargetOf(n: int, row: int, col: int): Offset -> int
  {
    (d: Offset) => (row + d.0) * n + (col + d.1)
  }

  /** An outer row of the window, scanned left to right, counts its three offsets. */
  lemma RowIsOffsetCount(live: Offset -> bool, i: int)
    requires i != 0
    ensures RowAhead(live, i, -1) == CountWhere([(i, -1), (i, 0), (i, 1)], live)
  {
    RowAheadUnfold(live, i);
    CountWhere3((i, -1), (i, 0), (i, 1), live);
  }

  /** The middle row of the window skips the centre. */
  lemma MiddleRowIsOffsetCount(live: Offset -> bool)
    ensures RowAhead(live, 0, -1) == CountWhere([(0, -1), (0, 1)], live)
  {
    RowAheadUnfold(live, 0);
    CountWhere2((0, -1), (0, 1), live);
  }

  /** Scanning the 3×3 window row by row counts the same offsets as the list of 8. */
  lemma WindowIsOffsetCount(live: Offset -> bool)
    ensures WindowAhead(live, -1) == CountWhere(Offsets, live)
  {
    var top, middle, bottom := [(-1, -1), (-1, 0), (-1, 1)], [(0, -1), (0, 1)], [(1, -1), (1, 0), (1, 1)];
    assert Offsets == top + (middle + bottom);
    CountWhereAppend(top, middle + bottom, live);
    CountWhereAppend(middle, bottom, live);
    RowIsOffsetCount(live, -1);
    MiddleRowIsOffsetCount(live);
    RowIsOffsetCount(live, 1);
    assert WindowAhead(live, 1) == RowAhead(live, 1, -1);
  }

  /** The scan never visits the same offset twice. */
  lemma OffsetsDistinct()
    ensures Distinct(Offsets)
  {
  }

  /** Two on-board offsets from the same cell reach the same index only if equal. */
  lemma TargetInjective(board: seq<bool>, n: int, row: int, col: int)
    ensures forall d, e ::
      (d in Offsets && e in Offsets &&
       LiveOffset(board, n, row, col)(d) && LiveOffset(board, n, row, col)(e) &&
       TargetOf(n, row, col)(d) == TargetOf(n, row, col)(e)) ==> d == e
  {
    forall d, e | LiveOffset(board, n, row, col)(d) && LiveOffset(board, n, row, col)(e) &&
      TargetOf(n, row, col)(d) == TargetOf(n, row, col)(e)
      ensures d == e
    {
      IndexRoundTrip(row + d.0, col + d.1, n);
      IndexRoundTrip(row + e.0, col + e.1, n);
    }
  }

  /** A live offset from cell `ix` reaches a live neighbour of it. */
  lemma ReachedIsNeighbor(board: seq<bool>, n: int, ix: int, row: int, col: int, d: Offset)
    requires ValidBoard(board, n) && 0 <= ix < |board| && row == ix / n && col == ix % n
    requires d in Offsets && LiveOffset(board, n, row, col)(d)
    ensures TargetOf(n, row, col)(d) in LiveNeighbors(board, n, ix)
  {
    var k := (row + d.0) * n + (col + d.1);
    assert TargetOf(n, row, col)(d) == k;
    IndexRoundTrip(row + d.0, col + d.1, n);
    assert d != (0, 0);
  }

  /** A live neighbour is reached through the offset of its row and column differences. */
  lemma NeighborIsReached(board: seq<bool>, n: int, ix: int, row: int, col: int, k: int)
    requires ValidBoard(board, n) && 0 <= ix < |board| && row == ix / n && col == ix % n
    requires k in LiveNeighbors(board, n, ix)
    ensures k in Image(Offsets, LiveOffset(board, n, row, col), TargetOf(n, row, col))
  {
    IndexDecode(ix, n);
    IndexDecode(k, n);
    var d := (k / n - row, k % n - col);
    assert d != (0, 0);
    assert d in Offsets;
    assert row + d.0 == k / n && col + d.1 == k % n;
    assert TargetOf(n, row, col)(d) == k;
    assert LiveOffset(board, n, row, col)(d);
  }

  /** Every cell reached through a live offset is a live neighbour, and every
      live neighbour is reached through one of the 8 offsets. */
  lemma OffsetsReachLiveNeighbors(board: seq<bool>, n: int, ix: int, row: int, col: int)
    requires ValidBoard(board, n) && 0 <= ix < |board| && row == ix / n && col == ix % n
    ensures Image(Offsets, LiveOffset(board, n, row, col), TargetOf(n, row, col)) == LiveNeighbors(board, n, ix)
  {
    forall d | d in Offsets && LiveOffset(board, n, row, col)(d)
      ensures TargetOf(n, row, col)(d) in LiveNeighbors(board, n, ix)
    {
      ReachedIsNeighbor(board, n, ix, row, col, d);
    }
    forall k | k in LiveNeighbors(board, n, ix)
      ensures k in Image(Offsets, LiveOffset(board, n, row, col), TargetOf(n, row, col))
    {
      NeighborIsReached(board, n, ix, row, col, k);
    }
  }

  /** The scan counts exactly the live neighbours: each adjacent live cell once,
      the cell itself never, off-board positions never. */
  lemma NeighborCountIsLiveNeighbors(board: seq<bool>, n: int, ix: int)
    requires ValidBoard(board, n) && 0 <= ix < |board|
    ensures NeighborCount(board, n, ix) == |LiveNeighbors(board, n, ix)|
  {
    var row, col := ix / n, ix % n;
    WindowIsOffsetCount(LiveOffset(board, n, row, col));
    OffsetsDistinct();
    TargetInjective(board, n, row, col);
    CountIsImageSize(Offsets, LiveOffset(board, n, row, col), TargetOf(n, row, col));
    OffsetsReachLiveNeighbors(board, n, ix, row, col);
  }

  /* ----------------------------------------------------------------------
     The counting loops
     ---------------------------------------------------------------------- */

  /** One step of the inner loop, stated on the neighbour's row and column as
      the loop computes them. */
  lemma RowStep(board: seq<bool>, n: int, row: int, col: int, i: int, j: int, nr: int, nc: int)
    requires -1 <= j <= 1 && (i, j) != (0, 0) && nr == row + i && nc == col + j
    ensures RowAhead(LiveOffset(board, n, row, col), i, j) ==
      (if IsWithinBounds(nr, nc, n) && 0 <= nr * n + nc < |board| && board[nr * n + nc] then 1 else 0) +
      RowAhead(LiveOffset(board, n, row, col), i, j + 1)
  {
  }

  /** The inner loop of the scan: counts the live cells in row offset `i` of
      the window around (row, col), skipping the centre and every position
      off the board. */
  method CountWindowRow(board: seq<bool>, n: int, row: int, col: int, i: int) returns (rowCount: int)
    requires ValidBoard(board, n) && 0 <= row < n && 0 <= col < n
    ensures rowCount == RowAhead(LiveOffset(board, n, row, col), i, -1)
  {
    rowCount := 0;
    ghost var live := LiveOffset(board, n, row, col);
    var j := -1;
    while j <= 1
      invariant -1 <= j <= 2
      invariant rowCount + RowAhead(live, i, j) == RowAhead(live, i, -1)
    {
      if i == 0 && j == 0 {
        j := j + 1;
        continue;
      }
      var neighborRow := row + i;
      var neighborCol := col + j;
      RowStep(board, n, row, col, i, j, neighborRow, neighborCol);
      if IsWithinBounds(neighborRow, neighborCol, n) {
        IndexInBoard(neighborRow, neighborCol, n);
        var neighborIx := neighborRow * n + neighborCol;
        if board[neighborIx] {
          rowCount := rowCount + 1;
        }
      }
      j := j + 1;
    }
  }

  /** Counts the live neighbours of cell `ix` by scanning the 3×3 window around
      it, row offset by row offset. */
  method LivingNeighborsCount(ix: int, board: seq<bool>, n: int) returns (count: int)
    requires ValidBoard(board, n) && 0 <= ix < |board|
    ensures count == NeighborCount(board, n, ix)
    ensures count == |LiveNeighbors(board, n, ix)|
    ensures 0 <= count <= 8
  {
    IndexDecode(ix, n);
    count := 0;
    var currentRow := ix / n;
    ghost var live := LiveOffset(board, n, currentRow, ix % n);
    var i := -1;
    while i <= 1
      invariant -1 <= i <= 2
      invariant count + WindowAhead(live, i) == WindowAhead(live, -1)
    {
      var rowCount := CountWindowRow(board, n, currentRow, ix % n, i);
      count := count + rowCount;
      i := i + 1;
    }
    NeighborCountIsLiveNeighbors(board, n, ix);
  }

  /* ----------------------------------------------------------------------
     The rule and the generation step
     ---------------------------------------------------------------------- */

  /** Conway's rule: a dead cell is born with exactly 3 live neighbours; a live
      cell survives with 2 or 3 and dies with 0, 1 or 4 and more. */
  function WillSurvive(isLiving: bool, neighbors: nat): (alive: bool)
    ensures alive <==> (neighbors == 3 || (isLiving && neighbors == 2))
  {
    if !isLiving then
      neighbors == 3
    else if neighbors <= 1 then
      false
    else if neighbors <= 3 then
      true
    else
      false
  }

  /** The next generation, declaratively: every cell judged by the rule against
      its live neighbours on the same input board. */
  function NextGeneration(board: seq<bool>, n: int): (next: seq<bool>)
    requires ValidBoard(board, n)
    ensures |next| == |board|
  {
    seq(|board|, i requires 0 <= i < |board| => WillSurvive(board[i], |LiveNeighbors(board, n, i)|))
  }

  /** Each cell of the declarative next generation is the rule applied to the
      cell and its scanned neighbour count on the input board. */
  lemma NextGenerationCell(board: seq<bool>, n: int, i: int)
    requires ValidBoard(board, n) && 0 <= i < |board|
    ensures NextGeneration(board, n)[i] == WillSurvive(board[i], NeighborCount(board, n, i))
  {
    NeighborCountIsLiveNeighbors(board, n, i);
  }

  /** Builds the next generation cell by cell; each count reads the input board,
      never the partially built result. */
  method AdvanceBoard(board: seq<bool>, n: int) returns (next: seq<bool>)
    requires ValidBoard(board, n)
    ensures |next| == |board|
    ensures next == NextGeneration(board, n)
  {
    ghost var spec := NextGeneration(board, n);
    next := [];
    var i := 0;
    while i < |board|
      invariant 0 <= i <= |board|
      invariant next == spec[..i]
    {
      var count := LivingNeighborsCount(i, board, n);
      NextGenerationCell(board, n, i);
      assert spec[..i + 1] == spec[..i] + [spec[i]];
      next := next + [WillSurvive(board[i], count)];
      i := i + 1;
    }
  }
}
