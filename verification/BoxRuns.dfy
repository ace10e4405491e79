/** Two small grids in which a shared cell has no ghost. */
module BoxRuns {
  import opened Boxes
  import opened BoxZones
  import opened BoxDuality
  import opened BoxColorer

  /** A grid of two directions that is cut in the first one, and too narrow in the second. */
  ghost predicate Narrow(g: Grid) {
    Ok(g) && g.halo > 0 && |g.size| == 2 && g.blocks[0] >= 2 && !WideIn(g, 1)
  }

  lemma FirstBlocks(g: Grid)
    requires Narrow(g)
    ensures FirstBlock(g) == [0, 0] && FirstBlock(g)[0 := 1] == [1, 0]
    ensures RankOf(g, [0, 0]) == 0 && RankOf(g, [1, 0]) == 1
  {
    var n, a, b: seq<nat> := g.blocks, [0, 0], [1, 0];
    assert Prod(n, 0) == 1;
    assert Rank(n, a, 0) == 0 && Rank(n, a, 1) == 0;
    assert Rank(n, b, 0) == 0 && Rank(n, b, 1) == 1;
  }

  /** The second rank shares a cell with the first, which has no ghost box for it. */
  lemma SecondLosesGhost(g: Grid, ks: seq<Coloring>, at: seq<seq<nat>>)
    requires Narrow(g) && ColorsRanks(g, ks, at) && |ks| == Prod(g.blocks, |g.blocks|)
    ensures |ks| >= 2 && IsShared(ks, 1, 0, LostCell(g, 1, 0)) && !IsGhost(ks, 0, 1, LostCell(g, 1, 0))
  {
    FirstBlocks(g);
    NarrowIsLost(g, ks, at, 1, 0);
  }

  lemma LostCellIs(g: Grid, x: int, y: int)
    requires Narrow(g) && BlockLo(g, 0, 1) == x && LostAt(g, 1) == y
    ensures LostCell(g, 1, 0) == [x, y]
  {
    var c := LostCell(g, 1, 0);
    assert c[0] == x && c[1] == y;
  }

  /** The first blocks are a row, one cell wide across, that starts at the origin; the second
      one starts at cell 1. */
  ghost predicate OneWide(g: Grid) {
    |g.size| == |g.blocks| == 2 && g.halo > 0 && g.thruDim < 2 && OneWideBlocks(g) && BoundsFit(g, g.size[0]) &&
    BoundsFit(g, g.size[1])
  }

  ghost predicate OneWideBlocks(g: Grid)
    requires |g.size| == |g.blocks| == 2
  {
    g.blocks[0] >= 2 && EachHasCells(g.size[0], g.blocks[0]) && EachHasCells(g.size[1], g.blocks[1]) &&
    g.size[1] / g.blocks[1] == 1 &&
    Lo(g.size[0], g.blocks[0], g.domainHalo, 1) == 1 && Lo(g.size[1], g.blocks[1], g.domainHalo, 0) == 0
  }

  lemma TwoCellBlocks(g: Grid)
    requires g.size == [2, 1] && g.blocks == [2, 1] && g.domainHalo == 0
    ensures OneWideBlocks(g)
  {}

  lemma TwoCellBounds(g: Grid)
    requires g.halo == 1 && g.domainHalo == 0 && g.word > 4
    ensures BoundsFit(g, 2) && BoundsFit(g, 1)
  {}

  lemma TwoCellsOneWide(g: Grid)
    requires g.size == [2, 1] && g.blocks == [2, 1] && g.halo > 0 && g.thruDim < 2
    requires OneWideBlocks(g) && BoundsFit(g, 2) && BoundsFit(g, 1)
    ensures OneWide(g)
  {}

  method ColorOneWide(g: Grid) returns (ks: seq<Coloring>)
    requires OneWide(g)
    ensures |ks| >= 2 && IsShared(ks, 1, 0, [1, 0]) && !IsGhost(ks, 0, 1, [1, 0])
  {
    LostCellIs(g, 1, 0);
    ghost var at;
    ks, at := ColorAll(g);
    SecondLosesGhost(g, ks, at);
  }

  /** Two cells side by side, a block each. */
  method ColorTwoCells(word: nat) returns (ks: seq<Coloring>)
    requires word > 4
    ensures |ks| >= 2 && IsShared(ks, 1, 0, [1, 0]) && !IsGhost(ks, 0, 1, [1, 0])
  {
    var g := Grid([2, 1], 1, 0, 0, [2, 1], word);
    TwoCellBlocks(g);
    TwoCellBounds(g);
    TwoCellsOneWide(g);
    ks := ColorOneWide(g);
  }

  lemma HalfMarks(size: nat, n: nat)
    requires size == 4 && n == 2
    ensures EachHasCells(size, n) && size / n == 2 && Lo(size, n, 0, 1) == 2 && Hi(size, n, 0, 0) == 1
  {}

  lemma SixteenCellsNarrow(g: Grid)
    requires |g.size| == |g.blocks| == 2 && g.halo == 2 && g.domainHalo == g.thruDim == 0 && g.word > 8
    requires g.size[0] == g.size[1] == 4 && g.blocks[0] == g.blocks[1] == 2
    ensures Narrow(g) && LostCell(g, 1, 0) == [2, 2]
  {
    HalfMarks(g.size[0], g.blocks[0]);
    HalfMarks(g.size[1], g.blocks[1]);
    assert BoundsFit(g, g.size[0]) && BoundsFit(g, g.size[1]);
    LostCellIs(g, 2, 2);
  }

  /** Four by four cells in four blocks, and a halo as deep as a block is wide: the mark before
      the last zone of the first block is below zero. */
  method ColorSixteenCells(word: nat) returns (ks: seq<Coloring>)
    requires word > 8
    ensures |ks| >= 2 && IsShared(ks, 1, 0, [2, 2]) && !IsGhost(ks, 0, 1, [2, 2])
  {
    var g := Grid([4, 4], 2, 0, 0, [2, 2], word);
    SixteenCellsNarrow(g);
    ghost var at;
    ks, at := ColorAll(g);
    SecondLosesGhost(g, ks, at);
  }

  /** One-cell blocks in the only cut direction lose nothing. */
  lemma OneCellBlocksMayBeDual(word: nat)
    requires word > 4
    ensures
      var g := Grid([2, 2], 1, 0, 0, [2, 1], word);
      Ok(g) && WideEnough(g)
  {
    var g := Grid([2, 2], 1, 0, 0, [2, 1], word);
    assert forall d :: 0 <= d < 2 ==> EachHasCells(g.size[d], g.blocks[d]) && BoundsFit(g, g.size[d]);
    assert WideIn(g, 1);
  }
}
