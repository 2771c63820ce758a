/**
 Properties of the dense engine that relate several calls, and the fixed
 3×3 board the engine's own tests share.
 */
module LifeExamples {
  import opened Life

  /** The 3×3 test board:  . # #  /  . # .  /  . . .  */
  const TestBoard: seq<bool> := [false, true, true, false, true, false, false, false, false]

  lemma IsWithinBoundsExamples()
    ensures IsWithinBounds(1, 2, 3)
    ensures !IsWithinBounds(-1, 2, 3)
    ensures !IsWithinBounds(0, 4, 3)
  {
  }

  /** The neighbour count depends only on the cells adjacent to the cell:
      two boards that agree there give the same count. */
  lemma CountIsLocal(b1: seq<bool>, b2: seq<bool>, n: int, ix: int)
    requires ValidBoard(b1, n) && ValidBoard(b2, n) && 0 <= ix < |b1|
    requires forall k :: 0 <= k < |b1| && Adjacent(n, ix, k) ==> b1[k] == b2[k]
    ensures NeighborCount(b1, n, ix) == NeighborCount(b2, n, ix)
  {
    assert LiveNeighbors(b1, n, ix) == LiveNeighbors(b2, n, ix);
    NeighborCountIsLiveNeighbors(b1, n, ix);
    NeighborCountIsLiveNeighbors(b2, n, ix);
  }

  /** The cell itself is never counted: changing it leaves its count unchanged. */
  lemma CountIgnoresSelf(board: seq<bool>, n: int, ix: int, v: bool)
    requires ValidBoard(board, n) && 0 <= ix < |board|
    ensures NeighborCount(board[ix := v], n, ix) == NeighborCount(board, n, ix)
  {
    CountIsLocal(board[ix := v], board, n, ix);
  }

  /** Edges are clipped, not wrapped: a cell in the first column only sees
      columns 0 and 1, and a cell in the last column only sees the last two. */
  lemma EdgesAreClipped(board: seq<bool>, n: int, ix: int)
    requires ValidBoard(board, n) && 0 <= ix < |board|
    ensures ix % n == 0 ==> forall k :: k in LiveNeighbors(board, n, ix) ==> k % n <= 1
    ensures ix % n == n - 1 ==> forall k :: k in LiveNeighbors(board, n, ix) ==> k % n >= n - 2
    ensures ix / n == 0 ==> forall k :: k in LiveNeighbors(board, n, ix) ==> k / n <= 1
  {
  }

  /** The cell just before a first-column cell in memory is the last cell of
      the row above; it is not a neighbour, so it is not counted. */
  lemma NoColumnWrapExample()
    ensures NeighborCount([false, false, true, false, false, false, false, false, false], 3, 3) == 0
  {
    WindowUnfold(LiveOffset([false, false, true, false, false, false, false, false, false], 3, 1, 0));
  }

  lemma WillSurviveExamples()
    ensures !WillSurvive(true, 0) && !WillSurvive(true, 1)
    ensures WillSurvive(true, 2) && WillSurvive(true, 3)
    ensures !WillSurvive(true, 4) && !WillSurvive(true, 999)
    ensures WillSurvive(false, 3)
  {
  }

  /** The expected live-neighbour counts of the test board's nine cells. */
  const TestCounts: seq<int> := [2, 2, 2, 2, 2, 3, 1, 1, 1]

  /** The state the test board reaches after one generation. */
  const TestNext: seq<bool> := [false, true, true, false, true, true, false, false, false]

  lemma TestBoardCount0() ensures NeighborCount(TestBoard, 3, 0) == TestCounts[0]
  {
    WindowUnfold(LiveOffset(TestBoard, 3, 0, 0));
  }

  lemma TestBoardCount1() ensures NeighborCount(TestBoard, 3, 1) == TestCounts[1]
  {
    WindowUnfold(LiveOffset(TestBoard, 3, 0, 1));
  }

  lemma TestBoardCount2() ensures NeighborCount(TestBoard, 3, 2) == TestCounts[2]
  {
    WindowUnfold(LiveOffset(TestBoard, 3, 0, 2));
  }

  lemma TestBoardCount3() ensures NeighborCount(TestBoard, 3, 3) == TestCounts[3]
  {
    WindowUnfold(LiveOffset(TestBoard, 3, 1, 0));
  }

  lemma TestBoardCount4() ensures NeighborCount(TestBoard, 3, 4) == TestCounts[4]
  {
    WindowUnfold(LiveOffset(TestBoard, 3, 1, 1));
  }

  lemma TestBoardCount5() ensures NeighborCount(TestBoard, 3, 5) == TestCounts[5]
  {
    WindowUnfold(LiveOffset(TestBoard, 3, 1, 2));
  }

  lemma TestBoardCount6() ensures NeighborCount(TestBoard, 3, 6) == TestCounts[6]
  {
    WindowUnfold(LiveOffset(TestBoard, 3, 2, 0));
  }

  lemma TestBoardCount7() ensures NeighborCount(TestBoard, 3, 7) == TestCounts[7]
  {
    WindowUnfold(LiveOffset(TestBoard, 3, 2, 1));
  }

  lemma TestBoardCount8() ensures NeighborCount(TestBoard, 3, 8) == TestCounts[8]
  {
    WindowUnfold(LiveOffset(TestBoard, 3, 2, 2));
  }

  lemma TestBoardNext0() ensures NextGeneration(TestBoard, 3)[0] == TestNext[0]
  {
    TestBoardCount0();
    NextGenerationCell(TestBoard, 3, 0);
  }

  lemma TestBoardNext1() ensures NextGeneration(TestBoard, 3)[1] == TestNext[1]
  {
    TestBoardCount1();
    NextGenerationCell(TestBoard, 3, 1);
  }

  lemma TestBoardNext2() ensures NextGeneration(TestBoard, 3)[2] == TestNext[2]
  {
    TestBoardCount2();
    NextGenerationCell(TestBoard, 3, 2);
  }

  lemma TestBoardNext3() ensures NextGeneration(TestBoard, 3)[3] == TestNext[3]
  {
    TestBoardCount3();
    NextGenerationCell(TestBoard, 3, 3);
  }

  lemma TestBoardNext4() ensures NextGeneration(TestBoard, 3)[4] == TestNext[4]
  {
    TestBoardCount4();
    NextGenerationCell(TestBoard, 3, 4);
  }

  lemma TestBoardNext5() ensures NextGeneration(TestBoard, 3)[5] == TestNext[5]
  {
    TestBoardCount5();
    NextGenerationCell(TestBoard, 3, 5);
  }

  lemma TestBoardNext6() ensures NextGeneration(TestBoard, 3)[6] == TestNext[6]
  {
    TestBoardCount6();
    NextGenerationCell(TestBoard, 3, 6);
  }

  lemma TestBoardNext7() ensures NextGeneration(TestBoard, 3)[7] == TestNext[7]
  {
    TestBoardCount7();
    NextGenerationCell(TestBoard, 3, 7);
  }

  lemma TestBoardNext8() ensures NextGeneration(TestBoard, 3)[8] == TestNext[8]
  {
    TestBoardCount8();
    NextGenerationCell(TestBoard, 3, 8);
  }

  /** One generation of the test board: the dead cell at row 1, column 2, with
      three live neighbours, is born; every other cell keeps its state. */
  lemma TestBoardAdvances()
    ensures NextGeneration(TestBoard, 3) == TestNext
  {
    TestBoardNext0(); TestBoardNext1(); TestBoardNext2();
    TestBoardNext3(); TestBoardNext4(); TestBoardNext5();
    TestBoardNext6(); TestBoardNext7(); TestBoardNext8();
  }
}
