/** Worked cases: a one-cell target, where no piece fits anywhere, and a
    filled 2-by-2 target, which the first search covers with the square for
    a perfect score that Tetris returns. */
module Scenarios {
  import opened Catalog
  import opened Board
  import opened Selector
  import opened Placement
  import opened Driver

  /** The second offset of every root-to-leaf path is (1,0) or (0,1). */
  lemma SecondOffset(i: int)
    requires 0 <= i < |TreeLeaves|
    ensures |TreeLeaves[i].tiles| == 4
    ensures TreeLeaves[i].tiles[1] == (if i < 15 then Offset(1, 0) else Offset(0, 1))
  {
  }

  /** Without room at (1,0) and (0,1), no root-to-leaf path is admitted. */
  lemma NoPathAdmitted(q: Query)
    requires !Admits(q, Offset(1, 0)) && !Admits(q, Offset(0, 1))
    ensures forall p :: p in TreeLeaves ==> !PathAdmitted(q, p.tiles)
  {
    forall p | p in TreeLeaves
      ensures !PathAdmitted(q, p.tiles)
    {
      var i :| 0 <= i < |TreeLeaves| && TreeLeaves[i] == p;
      SecondOffset(i);
      assert !Admits(q, p.tiles[1]);
    }
  }

  /** Every path of the trie runs through (1,0) or (0,1) as its second
      offset, so when neither cell passes the pruning test no piece is
      chosen. */
  lemma NoRoomNoPiece(q: Query)
    requires ValidQuery(q) && IsPass(q.pass)
    requires !Admits(q, Offset(1, 0)) && !Admits(q, Offset(0, 1))
    ensures SelectPiece(q) == NoPiece
  {
    NoPathAdmitted(q);
    TreeLeavesExact();
    SelectNone(q, TreeLeaves);
    TreeSearchIsPick(q);
  }

  const SingleCell: Grid := [[1]]

  /** On a one-cell target, a visit places nothing, whatever the stock. */
  lemma SingleCellVisit(s: State, pass: int)
    requires IsPass(pass) && WellShaped(s)
    requires SameDims(s.board, SingleCell)
    ensures Visit(s, 0, 1, 1, pass, 0) == s
  {
    assert Tiles(1, 1) == 1;
    var q := Query(s.board, s.inv, 0, 0, pass, 1, 1);
    NoRoomNoPiece(q);
  }

  /** A trial on a one-cell target leaves its solution blank. */
  lemma SingleCellTrial(pieces: seq<int>)
    requires |pieces| == NumPieces
    ensures Trial(SingleCell, pieces, 0).sol == Blank(1, 1)
  {
    var s0 := Fresh(SingleCell, pieces);
    assert Tiles(1, 1) == 1;
    SingleCellVisit(s0, 1);
    assert Scan(s0, 0, 1, 1, 1, 0) == Scan(s0, 0, 1, 1, 1, 1) == s0;
    SingleCellVisit(s0, 2);
    assert Scan(s0, 0, 1, 1, 2, 0) == Scan(s0, 0, 1, 1, 2, 1) == s0;
  }

  /** The blank solution misses the one target cell. */
  lemma SingleCellMistakes(sol: Solution)
    requires sol == Blank(1, 1)
    ensures Spans(SingleCell, sol, 1, 1)
    ensures Mistakes(SingleCell, sol, 1, 1) == 1
  {
    assert sol[0][0] == Uncovered;
    assert RowMistakes(SingleCell, sol, 0, 1) == 1;
  }

  /** With a stock of one piece, the one uncovered target cell is the only
      mistake out of four, so the trial scores 75. */
  lemma SingleCellScore(pieces: seq<int>)
    requires |pieces| == NumPieces && Total(pieces) == 1
    ensures TrialAccuracy(SingleCell, pieces, 0) == 75.0
  {
    var s := Trial(SingleCell, pieces, 0);
    SingleCellTrial(pieces);
    SingleCellMistakes(s.sol);
    OneOfFour();
  }

  /** One mistake against a stock of one piece scores 75. */
  lemma OneOfFour()
    ensures Accuracy(1, 1) == 75.0
  {
    assert (1 as real) / ((1 * 4) as real) == 0.25;
  }

  // ---------------------------------------------------------------------
  // A filled 2-by-2 target with one square piece in stock
  // ---------------------------------------------------------------------

  const Square: Grid := [[1, 1], [1, 1]]

  /** A stock of one square (piece 1) and nothing else. */
  predicate OnlySquare(inv: seq<int>) {
    |inv| == NumPieces && inv[0] == 1 && forall j :: 1 <= j < |inv| ==> inv[j] == 0
  }

  /** The filled square is a target mask. */
  lemma SquareMask(t: Grid)
    requires t == Square
    ensures IsMask(t) && Width(t) == 2 && |t| == 2
  {
    assert t[0] == [1, 1] && t[1] == [1, 1];
    assert Rectangular(t);
  }

  /** Each cell of the filled square has two open sides, so weighs 3. */
  lemma SquareWeights()
    ensures WeightBoard(Square) == [[3, 3], [3, 3]]
  {
    var w := WeightBoard(Square);
    assert w[0][0] == CellWeight(Square, 0, 0) == 3;
    assert w[0][1] == CellWeight(Square, 0, 1) == 3;
    assert w[1][0] == CellWeight(Square, 1, 0) == 3;
    assert w[1][1] == CellWeight(Square, 1, 1) == 3;
    assert |w| == 2 && |w[0]| == 2 && |w[1]| == 2;
    assert w[0] == [3, 3] && w[1] == [3, 3];
  }

  /** A leaf whose piece is out of stock yields no candidate. */
  lemma {:induction false} SelectOutOfStock(q: Query, ps: seq<LeafPath>)
    requires ValidQuery(q)
    requires forall k :: 0 <= k < |ps| ==> Remaining(q.inv, ps[k].id) == 0
    ensures Select(q, ps) == []
    decreases |ps|
  {
    if |ps| > 0 {
      SelectOutOfStock(q, ps[1..]);
    }
  }

  /** The weighted square as the first search of pass 1 sees it. */
  predicate SquareStart(q: Query) {
    q.board == [[3, 3], [3, 3]] && OnlySquare(q.inv) && q.pass == 1 && q.width == 2 && q.height == 2
  }

  const SquareTiles: seq<Offset> := [Offset(0, 0), Offset(1, 0), Offset(0, 1), Offset(1, 1)]

  /** The square is the first leaf of the search tree, and no other leaf
      leads to piece 1. */
  lemma SquareLeaf()
    ensures TreeLeaves[0] == LeafPath(SquareTiles, 1)
    ensures forall k :: 1 <= k < |TreeLeaves| ==> TreeLeaves[k].id != 1
  {
    TreeLeafIdsExact();
    forall k | 1 <= k < |TreeLeaves|
      ensures TreeLeaves[k].id != 1
    {
      assert TreeLeaves[k].id == LeafIds(TreeLeaves)[k] == TreeLeafIds[k];
    }
  }

  /** All four tiles of the square fit the weighted square, weighing 3 each. */
  lemma SquarePath(q: Query, tiles: seq<Offset>)
    requires SquareStart(q) && q.x == 0 && q.y == 0 && tiles == SquareTiles
    ensures PathAdmitted(q, tiles) && PathWeight(q, tiles) == 12
  {
    forall k | 0 <= k < 4
      ensures TileValue(q, tiles[k]) == 3
    {
      assert 0 <= tiles[k].dr < 2 && 0 <= tiles[k].dc < 2;
    }
    assert PathWeight(q, tiles[..1]) == 3 by {
      assert tiles[..1][..0] == [];
    }
    assert tiles[..2][..1] == tiles[..1];
    assert tiles[..3][..2] == tiles[..2];
    assert tiles[..4] == tiles;
  }

  /** A leaf list led by the square and holding no other square selects the
      square alone. */
  lemma SquareSelect(q: Query, ps: seq<LeafPath>)
    requires SquareStart(q) && q.x == 0 && q.y == 0
    requires |ps| >= 1 && ps[0] == LeafPath(SquareTiles, 1)
    requires forall k :: 1 <= k < |ps| ==> ps[k].id != 1
    ensures Select(q, ps) == [Candidate(1, 12)]
  {
    var rest := ps[1..];
    assert ps == [ps[0]] + rest;
    SelectAppend(q, [ps[0]], rest);
    forall k | 0 <= k < |rest|
      ensures Remaining(q.inv, rest[k].id) == 0
    {
      assert rest[k].id == ps[k + 1].id != 1;
    }
    SelectOutOfStock(q, rest);
    SquarePath(q, ps[0].tiles);
  }

  /** Anchored at the top-left cell only the first leaf, the square, is
      admissible and in stock, with all four tiles weighing 3. */
  lemma SquareCandidates(q: Query)
    requires SquareStart(q) && q.x == 0 && q.y == 0
    ensures Candidates(q) == [Candidate(1, 12)]
  {
    TreeLeavesExact();
    SquareLeaf();
    SquareSelect(q, TreeLeaves);
  }

  /** So the tree search picks the square, weight 12. */
  lemma SquareChoice(q: Query)
    requires SquareStart(q) && q.x == 0 && q.y == 0
    ensures SelectPiece(q) == Candidate(1, 12)
  {
    TreeSearchIsPick(q);
    SquareCandidates(q);
  }

  /** Weighting the filled square and searching the tree at its top-left
      cell in pass 1, with one square in stock, chooses the square with
      weight 12. */
  lemma SquareFirstChoice(target: Grid, pieces: seq<int>, x: int, y: int, width: int, height: int, pass: int)
    requires target == Square && OnlySquare(pieces)
    requires x == 0 && y == 0 && width == 2 && height == 2 && pass == 1
    ensures Chosen(Fresh(target, pieces), x, y, width, height, pass) == Candidate(1, 12)
  {
    SquareWeights();
    var s := Fresh(target, pieces);
    SquareChoice(Query(s.board, s.inv, x, y, pass, width, height));
  }

  /** Every cell covered by the first placement, a square. */
  const Covered: Solution := [[Cell(1, 1), Cell(1, 1)], [Cell(1, 1), Cell(1, 1)]]

  /** Every cell consumed. */
  const Consumed: Grid := [[-1, -1], [-1, -1]]

  /** The square anchored at `(x, y)` covers the 2-by-2 block below and
      right of it. */
  lemma SquareFootprint(x: int, y: int)
    ensures Pos(y, x) in Footprint(1, x, y) && Pos(y, x + 1) in Footprint(1, x, y)
    ensures Pos(y + 1, x) in Footprint(1, x, y) && Pos(y + 1, x + 1) in Footprint(1, x, y)
  {
    var f := Footprint(1, x, y);
    assert f[0] == Pos(y, x) && f[1] == Pos(y, x + 1);
    assert f[2] == Pos(y + 1, x) && f[3] == Pos(y + 1, x + 1);
  }

  /** Laying a piece as the first placement over all four cells of a 2-by-2
      board consumes every cell and marks each one as placement 1. */
  lemma FillsBoard(s: State, s': State, id: PieceId, x: int, y: int, pass: int)
    requires WellShaped(s) && WellShaped(s') && SameDims(s'.board, s.board)
    requires |s.board| == 2 && |s.board[0]| == 2 && |s.board[1]| == 2
    requires s.placed == 0
    requires Pos(0, 0) in Footprint(id, x, y) && Pos(0, 1) in Footprint(id, x, y)
    requires Pos(1, 0) in Footprint(id, x, y) && Pos(1, 1) in Footprint(id, x, y)
    requires PlacedAt(s, s', id, x, y, pass)
    ensures s'.board == Consumed
    ensures s'.sol == [[Cell(id, 1), Cell(id, 1)], [Cell(id, 1), Cell(id, 1)]]
  {
    assert InGrid(s.board, 0, 0) && InGrid(s.board, 0, 1) && InGrid(s.board, 1, 0) && InGrid(s.board, 1, 1);
    assert InGrid(s.sol, 0, 0) && InGrid(s.sol, 0, 1) && InGrid(s.sol, 1, 0) && InGrid(s.sol, 1, 1);
    assert s'.board[0] == [-1, -1] && s'.board[1] == [-1, -1];
    assert s'.sol[0] == [Cell(id, 1), Cell(id, 1)] && s'.sol[1] == [Cell(id, 1), Cell(id, 1)];
  }

  /** The first placement of the trial lays the square over the whole
      target, consuming every cell. */
  lemma SquareLaid(target: Grid, pieces: seq<int>, x: int, y: int, width: int, height: int, pass: int)
    requires target == Square && OnlySquare(pieces)
    requires x == 0 && y == 0 && width == 2 && height == 2 && pass == 1
    ensures PlacePiece(Fresh(target, pieces), x, y, width, height, pass).board == Consumed
    ensures PlacePiece(Fresh(target, pieces), x, y, width, height, pass).sol == Covered
  {
    SquareWeights();
    var s := Fresh(target, pieces);
    assert |s.board| == 2 && |s.board[0]| == 2 && |s.board[1]| == 2 && s.placed == 0;
    SquareFirstChoice(target, pieces, x, y, width, height, pass);
    SquareFootprint(x, y);
    SquareOverBoard(s, x, y, width, height, pass);
  }

  /** When the first choice on an untouched 2-by-2 board is the square and
      its footprint is the whole board, placing it covers every cell. */
  lemma SquareOverBoard(s: State, x: int, y: int, width: int, height: int, pass: int)
    requires WellShaped(s) && IsPass(pass)
    requires |s.board| == 2 && |s.board[0]| == 2 && |s.board[1]| == 2 && s.placed == 0
    requires Chosen(s, x, y, width, height, pass).id == 1
    requires Pos(0, 0) in Footprint(1, x, y) && Pos(0, 1) in Footprint(1, x, y)
    requires Pos(1, 0) in Footprint(1, x, y) && Pos(1, 1) in Footprint(1, x, y)
    ensures PlacePiece(s, x, y, width, height, pass).board == Consumed
    ensures PlacePiece(s, x, y, width, height, pass).sol == Covered
  {
    FillsBoard(s, PlacePiece(s, x, y, width, height, pass), 1, x, y, pass);
  }

  /** The first step of a scan from offset 0 visits the top-left cell, and
      places a piece there when that cell is live. */
  lemma FirstVisit(s: State, offset: nat, width: nat, height: nat, pass: int)
    requires WellShaped(s) && IsPass(pass)
    requires offset == 0 && width > 0 && height > 0
    requires |s.board| > 0 && |s.board[0]| > 0 && s.board[0][0] > 0
    ensures Visit(s, offset, width, height, pass, 0) == PlacePiece(s, 0, 0, width, height, pass)
  {
    FirstTile(offset, width, height);
    assert At(s.board, 0, 0) == s.board[0][0];
  }

  /** Step 0 from offset 0 is the tile in row 0, column 0. */
  lemma FirstTile(offset: nat, width: nat, height: nat)
    requires offset == 0 && width > 0 && height > 0
    ensures 0 < Tiles(width, height)
    ensures (0 + offset) % Tiles(width, height) / width == 0
    ensures (0 + offset) % Tiles(width, height) % width == 0
  {
    assert Tiles(width, height) > 0;
    assert (0 + offset) % Tiles(width, height) == 0;
    assert 0 / width == 0 && 0 % width == 0;
  }

  /** On a consumed 2-by-2 board a scan places nothing. */
  lemma {:induction false} ConsumedScan(s: State, offset: nat, pass: int, i: nat)
    requires WellShaped(s) && IsPass(pass) && s.board == Consumed
    requires i <= Tiles(2, 2)
    ensures Scan(s, offset, 2, 2, pass, i) == s
    decreases Tiles(2, 2) - i
  {
    if i < Tiles(2, 2) {
      var tile := (i + offset) % Tiles(2, 2);
      assert At(s.board, tile / 2, tile % 2) == -1;
      assert Visit(s, offset, 2, 2, pass, i) == s;
      ConsumedScan(s, offset, pass, i + 1);
    }
  }

  /** The trial from offset 0 covers the whole square with the one square,
      as placement 1, in the first step of pass 1; nothing else is placed. */
  lemma SquareTrial(target: Grid, pieces: seq<int>)
    requires target == Square && OnlySquare(pieces)
    ensures Trial(target, pieces, 0).sol == Covered
  {
    SquareWeights();
    var width, height := Width(target), |target|;
    assert width == 2 && height == 2 && Tiles(width, height) == 4;
    var s0 := Fresh(target, pieces);
    SquareLaid(target, pieces, 0, 0, width, height, 1);
    var s1 := PlacePiece(s0, 0, 0, width, height, 1);
    FirstVisit(s0, 0, width, height, 1);
    ConsumedScan(s1, 0, 1, 1);
    assert Scan(s0, 0, width, height, 1, 0) == s1;
    ConsumedScan(s1, 0, 2, 0);
  }

  lemma {:induction false} TotalOfOne(inv: seq<int>)
    requires |inv| >= 1 && inv[0] == 1
    requires forall j :: 1 <= j < |inv| ==> inv[j] == 0
    ensures Total(inv) == 1
    decreases |inv|
  {
    if |inv| > 1 {
      TotalOfOne(inv[..|inv| - 1]);
    }
  }

  /** A fully covered square agrees with the target in every cell. */
  lemma CoveredAgrees(target: Grid, sol: Solution)
    requires target == Square && sol == Covered
    ensures Spans(target, sol, 2, 2) && Mistakes(target, sol, 2, 2) == 0
  {
    assert forall j, i :: 0 <= j < 2 && 0 <= i < 2 ==> target[j][i] == 1 && sol[j][i] == Cell(1, 1);
    MistakesZero(target, sol, 2, 2);
  }

  /** A trial whose solution makes no mistake scores 100. */
  lemma FlawlessTrial(target: Grid, pieces: seq<int>, offset: nat, sol: Solution, width: nat, height: nat)
    requires IsMask(target) && |pieces| == NumPieces && Total(pieces) != 0
    requires Trial(target, pieces, offset).sol == sol && Width(target) == width && |target| == height
    requires Spans(target, sol, width, height) && Mistakes(target, sol, width, height) == 0
    ensures TrialAccuracy(target, pieces, offset) == 100.0
  {
    AccuracyPerfect(0, Total(pieces));
  }

  /** That trial makes no mistake, so it scores 100. */
  lemma SquareScore(target: Grid, pieces: seq<int>)
    requires target == Square && OnlySquare(pieces)
    ensures IsMask(target) && Total(pieces) == 1
    ensures TrialAccuracy(target, pieces, 0) == 100.0
  {
    TotalOfOne(pieces);
    SquareTrial(target, pieces);
    SquareMask(target);
    CoveredAgrees(target, Covered);
    FlawlessTrial(target, pieces, 0, Covered, 2, 2);
  }

  /** 100 is the most any trial can score, so the trial from offset 0 is the
      first best, the one Tetris keeps. */
  lemma SquareKept(target: Grid, pieces: seq<int>)
    requires target == Square && OnlySquare(pieces)
    ensures IsMask(target) && Total(pieces) == 1
    ensures FirstBest(Scores(target, pieces), 0)
  {
    SquareScore(target, pieces);
    SquareMask(target);
    PerfectFirstKept(target, pieces);
  }

  /** Tetris on the filled square with one square in stock returns the
      square covering all four cells as placement 1. */
  method SquareRun(target: Grid, pieces: seq<int>) returns (sol: Solution)
    requires target == Square && OnlySquare(pieces)
    ensures sol == Covered
  {
    SquareKept(target, pieces);
    SquareTrial(target, pieces);
    sol := Tetris(target, pieces);
    ghost var o: nat :| FirstBest(Scores(target, pieces), o) && sol == Trial(target, pieces, o).sol;
    FirstBestUnique(Scores(target, pieces), o, 0);
  }
}
