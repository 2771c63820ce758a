/**
 The sparse draft's own test cases, stated on the model.
 */
module SparseExamples {
  import opened SparseDraft

  lemma NewCoordinatesExample()
    ensures NewCoordinates(1, 2).x == 1 && NewCoordinates(1, 2).y == 2
  {
  }

  /** The block around (3, 4), row offset by row offset. */
  lemma NeighborListExample()
    ensures NeighborList(Coordinates(3, 4)) == [
      Coordinates(2, 3), Coordinates(3, 3), Coordinates(4, 3),
      Coordinates(2, 4), Coordinates(3, 4), Coordinates(4, 4),
      Coordinates(2, 5), Coordinates(3, 5), Coordinates(4, 5)]
  {
  }

  /** The corner cell's block wraps to the far side of the 10×10 torus, even on
      a board of side 6. */
  lemma NeighborListWrapsAtTen()
    ensures NeighborList(Coordinates(0, 0))[0] == Coordinates(9, 9)
    ensures Coordinates(5, 0) !in NeighborList(Coordinates(0, 0))
  {
    NeighborListMembership(Coordinates(0, 0), Coordinates(5, 0));
  }

  lemma NewBoardExample()
    ensures |NewBoard(10).alive| == 0 && NewBoard(10).clock == 0
  {
  }

  lemma SetLivingCellsExample()
    ensures SetLivingCells(NewBoard(10), [Coordinates(1, 2), Coordinates(3, 4)]).alive
      == [Coordinates(1, 2), Coordinates(3, 4)]
  {
  }

  /** Three entries along one row, at columns a, a + 1 and a + 2. */
  function Row(a: int, y: int): seq<Coordinates>
  {
    [Coordinates(a, y), Coordinates(a + 1, y), Coordinates(a + 2, y)]
  }

  /** A row holds one entry for each of its columns, so any of them collects
      the row's y once. */
  lemma RowYs(a: int, y: int, x: int)
    requires a <= x <= a + 2
    ensures YsAt(Row(a, y), x) == [y]
  {
    var r := Row(a, y);
    var p1, p2 := [Coordinates(a, y)], [Coordinates(a, y), Coordinates(a + 1, y)];
    assert p1[..0] == [];
    assert YsAt(p1, x) == (if a == x then [y] else []);
    assert p2[..1] == p1;
    assert YsAt(p2, x) == YsAt(p1, x) + (if a + 1 == x then [y] else []);
    assert r[..2] == p2;
    assert YsAt(r, x) == YsAt(p2, x) + (if a + 2 == x then [y] else []);
  }

  /** The blocks of the two cells the tests use, as three rows each. */
  lemma BlockRows()
    ensures NeighborList(Coordinates(2, 2)) == Row(1, 1) + Row(1, 2) + Row(1, 3)
    ensures NeighborList(Coordinates(3, 3)) == Row(2, 2) + Row(2, 3) + Row(2, 4)
  {
  }

  /** Any column of three stacked rows collects the rows' y's, in order. */
  lemma StackYs(a: int, b: int, x: int)
    requires a <= x <= a + 2
    ensures YsAt(Row(a, b) + Row(a, b + 1) + Row(a, b + 2), x) == [b, b + 1, b + 2]
  {
    RowYs(a, b, x);
    RowYs(a, b + 1, x);
    RowYs(a, b + 2, x);
    YsAtAppend(Row(a, b), Row(a, b + 1), x);
    YsAtAppend(Row(a, b) + Row(a, b + 1), Row(a, b + 2), x);
  }

  lemma FlatSingle(c: Coordinates)
    ensures Flat([c]) == NeighborList(c)
  {
    assert [c][..0] == [];
  }

  /** A single live cell at (2, 2) reaches the columns 1, 2 and 3. */
  lemma SingleCellKeys()
    ensures XKeys(Flat([Coordinates(2, 2)])) == {1, 2, 3}
  {
    FlatSingle(Coordinates(2, 2));
    BlockRows();
    var ds := Flat([Coordinates(2, 2)]);
    assert ds[0].x == 1 && ds[1].x == 2 && ds[2].x == 3;
    forall d | d in ds
      ensures 1 <= d.x <= 3
    {
    }
  }

  /** Each of those columns collects the y's 1, 2 and 3. */
  lemma SingleCellYs(x: int)
    requires 1 <= x <= 3
    ensures YsAt(Flat([Coordinates(2, 2)]), x) == [1, 2, 3]
  {
    FlatSingle(Coordinates(2, 2));
    BlockRows();
    StackYs(1, 1, x);
  }

  /** A single live cell at (2, 2): keys 1, 2 and 3, each with the y's 1, 2, 3. */
  lemma SingleCellIndex()
    ensures NeighborIndex(Flat([Coordinates(2, 2)])) ==
      map[1 := [1, 2, 3], 2 := [1, 2, 3], 3 := [1, 2, 3]]
  {
    SingleCellKeys();
    SingleCellYs(1);
    SingleCellYs(2);
    SingleCellYs(3);
  }

  /** The entries of two live cells are the first cell's block, then the second's. */
  lemma FlatPair(c: Coordinates, d: Coordinates)
    ensures Flat([c, d]) == NeighborList(c) + NeighborList(d)
  {
    FlatSnoc([c, d], 1);
    assert [c, d][..1] == [c] && [c, d][..2] == [c, d];
    FlatSingle(c);
  }

  /** Key 2 of the board with live cells (2, 2) and (3, 3) gathers 1, 2, 3 from
      the first cell's block and 2, 3, 4 from the second's. */
  lemma PairColumnTwo()
    ensures YsAt(Flat([Coordinates(2, 2), Coordinates(3, 3)]), 2) == [1, 2, 3, 2, 3, 4]
  {
    FlatPair(Coordinates(2, 2), Coordinates(3, 3));
    BlockRows();
    StackYs(1, 1, 2);
    StackYs(2, 2, 2);
    YsAtAppend(NeighborList(Coordinates(2, 2)), NeighborList(Coordinates(3, 3)), 2);
  }

  /** Live cells at (2, 2) and (3, 3): the shared neighbour (2, 3) puts y = 3
      under key 2 twice. */
  lemma SharedNeighborCountedTwice()
    ensures Lookup(NeighborIndex(Flat([Coordinates(2, 2), Coordinates(3, 3)])), 2) == [1, 2, 3, 2, 3, 4]
  {
    PairColumnTwo();
    YsAtPresent(Flat([Coordinates(2, 2), Coordinates(3, 3)]), 2);
  }

  /** Ticking the two-cell board sets the clock to 1 and leaves the live cells
      where they were. */
  lemma TickExample()
    ensures Tick(SetLivingCells(NewBoard(10), [Coordinates(2, 2), Coordinates(3, 3)])).clock == 1
    ensures Tick(SetLivingCells(NewBoard(10), [Coordinates(2, 2), Coordinates(3, 3)])).alive
      == [Coordinates(2, 2), Coordinates(3, 3)]
  {
  }
}
