/** The optimiser's driver (`Tetris`): for each start offset, two
    row-major passes of place_piece over a fresh copy of the weighted board,
    scored by `calculateAccuracy`, keeping the first best solution. */
module Driver {
  import opened Catalog
  import opened Board
  import opened Selector
  import opened Placement

  /** The number of pieces in stock, summed over the catalog. */
  function Total(inv: seq<int>): int
    decreases |inv|
  {
    if |inv| == 0 then 0 else Total(inv[..|inv| - 1]) + inv[|inv| - 1]
  }

  lemma {:induction false} TotalDecrement(inv: seq<int>, j: int)
    requires 0 <= j < |inv|
    ensures Total(inv[j := inv[j] - 1]) == Total(inv) - 1
    decreases |inv|
  {
    var inv' := inv[j := inv[j] - 1];
    var n := |inv|;
    if j < n - 1 {
      assert inv'[..n - 1] == inv[..n - 1][j := inv[j] - 1];
      TotalDecrement(inv[..n - 1], j);
    } else {
      assert inv'[..n - 1] == inv[..n - 1];
    }
  }

  /** The solution grid a trial starts from: every cell `(0, 0)`. */
  function Blank(height: nat, width: nat): (sol: Solution)
    ensures |sol| == height
    ensures forall j :: 0 <= j < height ==> |sol[j]| == width
  {
    seq(height, _ => seq(width, _ => Uncovered))
  }

  // ---------------------------------------------------------------------
  // One pass and one trial
  // ---------------------------------------------------------------------

  /** The number of tiles of a `width` by `height` board. */
  function Tiles(width: nat, height: nat): nat {
    width * height
  }

  /** Step `i` of a pass: it visits the flattened index
      `(i + offset) mod (width * height)`, row-major, and calls place_piece
      there when the tile reads neither -1 nor 0. */
  function Visit(s: State, offset: nat, width: nat, height: nat, pass: int, i: nat): (s': State)
    requires WellShaped(s) && IsPass(pass)
    requires i < Tiles(width, height)
    ensures WellShaped(s') && SameDims(s'.board, s.board)
  {
    assert width != 0;
    var tile := (i + offset) % Tiles(width, height);
    var y, x := tile / width, tile % width;
    var v := At(s.board, y, x);
    if v != -1 && v != 0 then PlacePiece(s, x, y, width, height, pass) else s
  }

  /** One pass of the scan, from step `i` on. */
  function Scan(s: State, offset: nat, width: nat, height: nat, pass: int, i: nat): (s': State)
    requires WellShaped(s) && IsPass(pass)
    requires i <= Tiles(width, height)
    ensures WellShaped(s') && SameDims(s'.board, s.board)
    decreases Tiles(width, height) - i
  {
    if i == Tiles(width, height) then s
    else Scan(Visit(s, offset, width, height, pass, i), offset, width, height, pass, i + 1)
  }

  /** The state a trial starts from: the weighted target, the full stock, no
      placement and a blank solution. */
  function Fresh(target: Grid, pieces: seq<int>): (s: State)
    requires Rectangular(target) && |pieces| == NumPieces
    ensures WellShaped(s)
  {
    State(WeightBoard(target), pieces, 0, Blank(|target|, Width(target)))
  }

  /** One iteration of Tetris's offset loop, before scoring: the first pass,
      then the second pass on what the first left. */
  function Trial(target: Grid, pieces: seq<int>, offset: nat): (s: State)
    requires Rectangular(target) && |pieces| == NumPieces
    ensures WellShaped(s) && SameDims(s.board, target)
  {
    var width, height := Width(target), |target|;
    var s1 := Scan(Fresh(target, pieces), offset, width, height, 1, 0);
    Scan(s1, offset, width, height, 2, 0)
  }

  // ---------------------------------------------------------------------
  // What every placement keeps
  // ---------------------------------------------------------------------

  /** The bookkeeping a trial keeps against its starting stock: the board
      never drops below -1; a solution cell is covered exactly when its
      board cell is consumed (-1); a covered cell holds a catalog id and an
      order between 1 and the counter, and at least one piece of that id
      has been taken from stock; no stock is negative or above its start;
      and the counter equals the number of pieces taken from stock. */
  ghost predicate Consistent(s: State, stock: seq<int>) {
    && WellShaped(s)
    && |stock| == NumPieces
    && (forall r, c :: InGrid(s.board, r, c) ==> s.board[r][c] >= -1)
    && (forall r, c :: InGrid(s.board, r, c) ==> (s.sol[r][c].piece != 0 <==> s.board[r][c] == -1))
    && (forall r, c :: InGrid(s.board, r, c) ==>
          s.sol[r][c] == Uncovered || (IsPieceId(s.sol[r][c].piece) && 1 <= s.sol[r][c].order <= s.placed))
    && (forall r, c :: InGrid(s.board, r, c) && s.sol[r][c] != Uncovered ==> Drawn(s.inv, stock, s.sol[r][c].piece))
    && (forall j :: 0 <= j < NumPieces ==> 0 <= s.inv[j] <= stock[j])
    && 0 <= s.placed == Total(stock) - Total(s.inv)
  }

  /** Fewer pieces `id` are left in `inv` than `stock` started with. */
  predicate Drawn(inv: seq<int>, stock: seq<int>, id: int) {
    IsPieceId(id) && |inv| == NumPieces && |stock| == NumPieces && inv[id - 1] < stock[id - 1]
  }

  /** `s'` grows out of `s`: same dimensions, the counter never falls, no
      stock rises, and every covered solution cell and every consumed board
      cell stays as it was. */
  ghost predicate Extends(s: State, s': State) {
    && WellShaped(s) && WellShaped(s')
    && SameDims(s'.board, s.board)
    && s.placed <= s'.placed
    && (forall j :: 0 <= j < NumPieces ==> s'.inv[j] <= s.inv[j])
    && (forall r, c :: InGrid(s.board, r, c) && s.sol[r][c].piece != 0 ==> s'.sol[r][c] == s.sol[r][c])
    && (forall r, c :: InGrid(s.board, r, c) && s.board[r][c] == -1 ==> s'.board[r][c] == -1)
  }

  lemma ExtendsTransitive(s: State, s': State, s'': State)
    requires Extends(s, s') && Extends(s', s'')
    ensures Extends(s, s'')
  {
  }

  lemma ExtendsReflexive(s: State)
    requires WellShaped(s)
    ensures Extends(s, s)
  {
  }

  /** The stock a fitting piece is taken from is positive, so it stays non-negative. */
  lemma StockAfterLay(s: State, s': State, stock: seq<int>, id: PieceId, x: int, y: int, pass: int)
    requires Consistent(s, stock) && WellShaped(s') && SameDims(s'.board, s.board)
    requires Remaining(s.inv, id) != 0
    requires PlacedAt(s, s', id, x, y, pass)
    ensures forall j :: 0 <= j < NumPieces ==> 0 <= s'.inv[j] <= s.inv[j] <= stock[j]
    ensures 0 <= s'.placed == Total(stock) - Total(s'.inv)
    ensures s.placed <= s'.placed
  {
    assert s'.inv == s.inv[id - 1 := s.inv[id - 1] - 1];
    TotalDecrement(s.inv, id - 1);
  }

  /** Cell by cell, a placement keeps the board at -1 or above and keeps
      "covered" and "consumed" in step: the four covered cells were free
      (they read at least `2 - pass >= 0`) and become covered and consumed
      together, and no other cell changes either way. */
  lemma CellsAfterLay(s: State, s': State, stock: seq<int>, id: PieceId, x: int, y: int, pass: int)
    requires Consistent(s, stock) && IsPass(pass) && WellShaped(s') && SameDims(s'.board, s.board)
    requires PlacedAt(s, s', id, x, y, pass)
    ensures forall r, c :: InGrid(s'.board, r, c) ==> s'.board[r][c] >= -1
    ensures forall r, c :: InGrid(s'.board, r, c) ==> (s'.sol[r][c].piece != 0 <==> s'.board[r][c] == -1)
    ensures forall r, c :: InGrid(s'.board, r, c) ==>
      s'.sol[r][c] == Uncovered || (IsPieceId(s'.sol[r][c].piece) && 1 <= s'.sol[r][c].order <= s'.placed)
    ensures forall r, c :: InGrid(s.board, r, c) && s.sol[r][c].piece != 0 ==> s'.sol[r][c] == s.sol[r][c]
    ensures forall r, c :: InGrid(s.board, r, c) && s.board[r][c] == -1 ==> s'.board[r][c] == -1
  {
    var cells := Footprint(id, x, y);
    assert s'.placed == s.placed + 1;
    forall r, c | InGrid(s'.board, r, c)
      ensures s'.board[r][c] >= -1
      ensures s'.sol[r][c].piece != 0 <==> s'.board[r][c] == -1
      ensures s'.sol[r][c] == Uncovered || (IsPieceId(s'.sol[r][c].piece) && 1 <= s'.sol[r][c].order <= s'.placed)
      ensures s.sol[r][c].piece != 0 ==> s'.sol[r][c] == s.sol[r][c]
      ensures s.board[r][c] == -1 ==> s'.board[r][c] == -1
    {
      assert InGrid(s.board, r, c) && InGrid(s.sol, r, c);
      if Pos(r, c) in cells {
        assert s'.sol[r][c] == Cell(id, s.placed + 1);
      }
    }
  }

  /** After a placement every covered cell's piece has been drawn from
      stock: the new cells' piece has just lost one, and the older cells'
      pieces can only have lost more. */
  lemma DrawnAfterLay(s: State, s': State, stock: seq<int>, id: PieceId, x: int, y: int, pass: int)
    requires Consistent(s, stock) && WellShaped(s') && SameDims(s'.board, s.board)
    requires PlacedAt(s, s', id, x, y, pass)
    ensures forall r, c :: InGrid(s'.board, r, c) && s'.sol[r][c] != Uncovered ==> Drawn(s'.inv, stock, s'.sol[r][c].piece)
  {
    var cells := Footprint(id, x, y);
    assert Drawn(s'.inv, stock, id);
    assert forall j :: 0 <= j < NumPieces ==> s'.inv[j] <= s.inv[j];
    forall r, c | InGrid(s'.board, r, c) && s'.sol[r][c] != Uncovered
      ensures Drawn(s'.inv, stock, s'.sol[r][c].piece)
    {
      assert InGrid(s.board, r, c) && InGrid(s.sol, r, c);
      if Pos(r, c) !in cells {
        assert s'.sol[r][c] == s.sol[r][c] && Drawn(s.inv, stock, s.sol[r][c].piece);
      }
    }
  }

  /** place_piece keeps the bookkeeping and only grows the state. */
  lemma PlaceKeeps(s: State, stock: seq<int>, x: int, y: int, width: int, height: int, pass: int)
    requires Consistent(s, stock) && IsPass(pass)
    ensures Consistent(PlacePiece(s, x, y, width, height, pass), stock)
    ensures Extends(s, PlacePiece(s, x, y, width, height, pass))
  {
    var s' := PlacePiece(s, x, y, width, height, pass);
    var c := Chosen(s, x, y, width, height, pass);
    if c.id != 0 {
      StockAfterLay(s, s', stock, c.id, x, y, pass);
      CellsAfterLay(s, s', stock, c.id, x, y, pass);
      DrawnAfterLay(s, s', stock, c.id, x, y, pass);
    }
  }

  lemma VisitKeeps(s: State, stock: seq<int>, offset: nat, width: nat, height: nat, pass: int, i: nat)
    requires Consistent(s, stock) && IsPass(pass)
    requires i < Tiles(width, height)
    ensures Consistent(Visit(s, offset, width, height, pass, i), stock)
    ensures Extends(s, Visit(s, offset, width, height, pass, i))
  {
    assert width != 0;
    var tile := (i + offset) % Tiles(width, height);
    var y, x := tile / width, tile % width;
    var v := At(s.board, y, x);
    if v != -1 && v != 0 {
      PlaceKeeps(s, stock, x, y, width, height, pass);
    } else {
      ExtendsReflexive(s);
    }
  }

  /** A pass keeps the bookkeeping and only grows the state. */
  lemma {:induction false} ScanKeeps(s: State, stock: seq<int>, offset: nat, width: nat, height: nat, pass: int, i: nat)
    requires Consistent(s, stock) && IsPass(pass)
    requires i <= Tiles(width, height)
    ensures Consistent(Scan(s, offset, width, height, pass, i), stock)
    ensures Extends(s, Scan(s, offset, width, height, pass, i))
    decreases Tiles(width, height) - i
  {
    if i == Tiles(width, height) {
      ExtendsReflexive(s);
    } else {
      var s1 := Visit(s, offset, width, height, pass, i);
      var s2 := Scan(s1, offset, width, height, pass, i + 1);
      assert Scan(s, offset, width, height, pass, i) == s2;
      VisitKeeps(s, stock, offset, width, height, pass, i);
      ScanKeeps(s1, stock, offset, width, height, pass, i + 1);
      ExtendsTransitive(s, s1, s2);
    }
  }

  lemma FreshConsistent(target: Grid, pieces: seq<int>)
    requires IsMask(target) && |pieces| == NumPieces
    requires forall j :: 0 <= j < NumPieces ==> pieces[j] >= 0
    ensures Consistent(Fresh(target, pieces), pieces)
  {
    WeightBoardNonNegative(target);
  }

  /** A whole trial, from a non-negative stock: no stock goes negative, the
      counter equals the pieces used (so at most the stock's total), every
      covered cell is consumed and vice versa, and what the first pass
      covered the second pass leaves as it is. */
  lemma TrialKeeps(target: Grid, pieces: seq<int>, offset: nat)
    requires IsMask(target) && |pieces| == NumPieces
    requires forall j :: 0 <= j < NumPieces ==> pieces[j] >= 0
    ensures Consistent(Trial(target, pieces, offset), pieces)
    ensures 0 <= Trial(target, pieces, offset).placed <= Total(pieces)
    ensures Extends(Scan(Fresh(target, pieces), offset, Width(target), |target|, 1, 0), Trial(target, pieces, offset))
  {
    var width, height := Width(target), |target|;
    FreshConsistent(target, pieces);
    var s1 := Scan(Fresh(target, pieces), offset, width, height, 1, 0);
    ScanKeeps(Fresh(target, pieces), pieces, offset, width, height, 1, 0);
    ScanKeeps(s1, pieces, offset, width, height, 2, 0);
    var s := Trial(target, pieces, offset);
    TotalNonNegative(s.inv);
  }

  lemma {:induction false} TotalNonNegative(inv: seq<int>)
    requires forall j :: 0 <= j < |inv| ==> inv[j] >= 0
    ensures Total(inv) >= 0
    decreases |inv|
  {
    if |inv| > 0 {
      TotalNonNegative(inv[..|inv| - 1]);
    }
  }

  // ---------------------------------------------------------------------
  // calculateAccuracy
  // ---------------------------------------------------------------------

  /** Both grids have at least `height` rows of at least `width` cells. */
  predicate Spans(t: Grid, sol: Solution, width: nat, height: nat) {
    && height <= |t| && height <= |sol|
    && forall j :: 0 <= j < height ==> width <= |t[j]| && width <= |sol[j]|
  }

  /** A cell is a mistake when the target differs from `min(1, piece id)`. */
  predicate Mistaken(t: Grid, sol: Solution, j: int, i: int)
    requires 0 <= j < |t| && 0 <= j < |sol| && 0 <= i < |t[j]| && 0 <= i < |sol[j]|
  {
    t[j][i] != Min(1, sol[j][i].piece)
  }

  /** The mistakes among the first `n` cells of row `j`. */
  function RowMistakes(t: Grid, sol: Solution, j: nat, n: nat): (m: nat)
    requires j < |t| && j < |sol| && n <= |t[j]| && n <= |sol[j]|
    ensures m <= n
  {
    if n == 0 then 0 else RowMistakes(t, sol, j, n - 1) + (if Mistaken(t, sol, j, n - 1) then 1 else 0)
  }

  /** The mistakes in the first `height` rows, `width` cells each. */
  function Mistakes(t: Grid, sol: Solution, width: nat, height: nat): (m: nat)
    requires Spans(t, sol, width, height)
    ensures m <= width * height
  {
    if height == 0 then 0 else Mistakes(t, sol, width, height - 1) + RowMistakes(t, sol, height - 1, width)
  }

  lemma {:induction false} RowMistakesZero(t: Grid, sol: Solution, j: nat, n: nat)
    requires j < |t| && j < |sol| && n <= |t[j]| && n <= |sol[j]|
    ensures RowMistakes(t, sol, j, n) == 0 <==> forall i :: 0 <= i < n ==> !Mistaken(t, sol, j, i)
    decreases n
  {
    if n > 0 {
      RowMistakesZero(t, sol, j, n - 1);
    }
  }

  /** No mistakes exactly when every cell of the area agrees with the target. */
  lemma {:induction false} MistakesZero(t: Grid, sol: Solution, width: nat, height: nat)
    requires Spans(t, sol, width, height)
    ensures Mistakes(t, sol, width, height) == 0 <==>
      forall j, i :: 0 <= j < height && 0 <= i < width ==> !Mistaken(t, sol, j, i)
    decreases height
  {
    if height > 0 {
      MistakesZero(t, sol, width, height - 1);
      RowMistakesZero(t, sol, height - 1, width);
    }
  }

  /** The score of a solution with `mistakes` mistakes out of the
      `4 * totalPieces` cells the stock could cover. */
  function Accuracy(mistakes: int, totalPieces: int): real
    requires totalPieces != 0
  {
    100.0 * (1.0 - (mistakes as real) / ((totalPieces * 4) as real))
  }

  /** A score is 100 exactly when there are no mistakes. */
  lemma AccuracyPerfect(mistakes: int, totalPieces: int)
    requires totalPieces != 0
    ensures Accuracy(mistakes, totalPieces) == 100.0 <==> mistakes == 0
  {
    var d := (totalPieces * 4) as real;
    assert d != 0.0;
    if Accuracy(mistakes, totalPieces) == 100.0 {
      assert (mistakes as real) / d == 0.0;
      assert (mistakes as real) == ((mistakes as real) / d) * d;
    }
  }

  /** With a positive stock, fewer mistakes score strictly higher, so
      comparing scores within one run compares mistake counts. */
  lemma AccuracyOrder(m1: int, m2: int, totalPieces: int)
    requires totalPieces > 0
    ensures Accuracy(m1, totalPieces) < Accuracy(m2, totalPieces) <==> m2 < m1
  {
    var d := (totalPieces * 4) as real;
    assert d > 0.0;
    if m2 < m1 {
      assert (m2 as real) / d < (m1 as real) / d;
    } else {
      assert (m1 as real) / d <= (m2 as real) / d;
    }
  }

  /** With a positive stock no score exceeds 100. */
  lemma AccuracyAtMost(mistakes: int, totalPieces: int)
    requires mistakes >= 0 && totalPieces > 0
    ensures Accuracy(mistakes, totalPieces) <= 100.0
  {
    var d := (totalPieces * 4) as real;
    assert d > 0.0;
    assert (mistakes as real) / d >= 0.0;
  }

  /** calculateAccuracy: counts the mistakes row by row and scores them. */
  method CalculateAccuracy(originalArray: Grid, solutionArray: Solution, width: nat, height: nat, totalPieces: int)
    returns (accuracy: real, solution: Solution)
    requires Spans(originalArray, solutionArray, width, height)
    requires totalPieces != 0
    ensures accuracy == Accuracy(Mistakes(originalArray, solutionArray, width, height), totalPieces)
    ensures solution == solutionArray
  {
    var mistakes := 0;
    var j := 0;
    while j < height
      invariant 0 <= j <= height
      invariant mistakes == Mistakes(originalArray, solutionArray, width, j)
    {
      var i := 0;
      while i < width
        invariant 0 <= i <= width
        invariant mistakes == Mistakes(originalArray, solutionArray, width, j) + RowMistakes(originalArray, solutionArray, j, i)
      {
        if originalArray[j][i] != Min(1, solutionArray[j][i].piece) {
          mistakes := mistakes + 1;
        }
        i := i + 1;
      }
      j := j + 1;
    }
    accuracy := Accuracy(mistakes, totalPieces);
    solution := solutionArray;
  }

  // ---------------------------------------------------------------------
  // Tetris
  // ---------------------------------------------------------------------

  /** Every start offset on boards of fewer than 800 tiles, offset 0 alone otherwise. */
  function TrialCount(width: nat, height: nat): nat {
    if width * height < 800 then width * height else 1
  }

  /** The score of the trial started at `offset`. */
  function TrialAccuracy(target: Grid, pieces: seq<int>, offset: nat): real
    requires IsMask(target) && |pieces| == NumPieces && Total(pieces) != 0
  {
    var s := Trial(target, pieces, offset);
    Accuracy(Mistakes(target, s.sol, Width(target), |target|), Total(pieces))
  }

  /** A trial's solution spans the whole target. */
  lemma TrialSpans(target: Grid, pieces: seq<int>, offset: nat)
    requires IsMask(target) && |pieces| == NumPieces
    ensures Spans(target, Trial(target, pieces, offset).sol, Width(target), |target|)
  {
    var s := Trial(target, pieces, offset);
    assert SameDims(s.board, target) && SameDims(s.board, s.sol);
  }

  /** The body of Tetris's offset loop: a trial, scored. */
  method RunTrial(target: Grid, pieces: seq<int>, offset: nat) returns (accuracy: real, solution: Solution)
    requires IsMask(target) && |pieces| == NumPieces && Total(pieces) != 0
    ensures accuracy == TrialAccuracy(target, pieces, offset)
    ensures solution == Trial(target, pieces, offset).sol
  {
    var s := Trial(target, pieces, offset);
    TrialSpans(target, pieces, offset);
    accuracy, solution := CalculateAccuracy(target, s.sol, |target[0]|, |target|, Total(pieces));
  }

  /** The scores of all the trials Tetris runs, by start offset. */
  ghost function Scores(target: Grid, pieces: seq<int>): (scores: seq<real>)
    requires IsMask(target) && |pieces| == NumPieces && Total(pieces) != 0
    ensures |scores| == TrialCount(Width(target), |target|)
    ensures forall o :: 0 <= o < |scores| ==> scores[o] == TrialAccuracy(target, pieces, o)
  {
    seq(TrialCount(Width(target), |target|), o requires 0 <= o => TrialAccuracy(target, pieces, o))
  }

  /** `scores[k]` is the score Tetris keeps: above 0, no score is higher,
      and every earlier score is strictly lower. */
  ghost predicate FirstBest(scores: seq<real>, k: nat) {
    && k < |scores|
    && scores[k] > 0.0
    && (forall o :: 0 <= o < |scores| ==> scores[o] <= scores[k])
    && (forall o :: 0 <= o < k ==> scores[o] < scores[k])
  }

  /** The score Tetris keeps is determined by the scores alone. */
  lemma FirstBestUnique(scores: seq<real>, a: nat, b: nat)
    requires FirstBest(scores, a) && FirstBest(scores, b)
    ensures a == b
  {
  }

  /** With a positive stock, a trial from offset 0 that scores 100 is the
      one Tetris keeps. */
  lemma PerfectFirstKept(target: Grid, pieces: seq<int>)
    requires IsMask(target) && Width(target) > 0 && |pieces| == NumPieces && Total(pieces) > 0
    requires TrialAccuracy(target, pieces, 0) == 100.0
    ensures FirstBest(Scores(target, pieces), 0)
  {
    var scores := Scores(target, pieces);
    assert 0 < Width(target) * |target|;
    forall o | 0 <= o < |scores|
      ensures scores[o] <= 100.0
    {
      TrialAtMost(target, pieces, o);
    }
  }

  /** With a positive stock no trial scores above 100. */
  lemma TrialAtMost(target: Grid, pieces: seq<int>, offset: nat)
    requires IsMask(target) && |pieces| == NumPieces && Total(pieces) > 0
    ensures TrialAccuracy(target, pieces, offset) <= 100.0
  {
    TrialSpans(target, pieces, offset);
    AccuracyAtMost(Mistakes(target, Trial(target, pieces, offset).sol, Width(target), |target|), Total(pieces));
  }

  /** After the first `k` scores: `found` says whether one was above 0; if
      none was the best score is still 0, and otherwise `bestOffset` is the
      first of the highest, scoring `best`. */
  ghost predicate BestSoFar(scores: seq<real>, k: nat, found: bool, best: real, bestOffset: nat)
    requires k <= |scores|
  {
    && (found <==> best > 0.0)
    && (!found ==> best == 0.0 && forall o :: 0 <= o < k ==> scores[o] <= 0.0)
    && (found ==> bestOffset < k && scores[bestOffset] == best)
    && (forall o :: 0 <= o < k ==> scores[o] <= best)
    && (found ==> forall o :: 0 <= o < bestOffset ==> scores[o] < best)
  }

  /** One more score: it takes over exactly when it is strictly higher. */
  lemma BestSoFarStep(scores: seq<real>, k: nat, found: bool, best: real, bestOffset: nat)
    requires k < |scores|
    requires BestSoFar(scores, k, found, best, bestOffset)
    ensures scores[k] > best ==> BestSoFar(scores, k + 1, true, scores[k], k)
    ensures scores[k] <= best ==> BestSoFar(scores, k + 1, found, best, bestOffset)
  {
    if scores[k] > best {
      forall o | 0 <= o < k + 1 ensures scores[o] <= scores[k] {
        if o < k { assert scores[o] <= best; }
      }
    }
  }

  /** Once every score is in, the kept state is what Tetris promises. */
  lemma BestSoFarConclude(scores: seq<real>, found: bool, best: real, bestOffset: nat)
    requires BestSoFar(scores, |scores|, found, best, bestOffset)
    ensures !found ==> forall o :: 0 <= o < |scores| ==> scores[o] <= 0.0
    ensures found ==> FirstBest(scores, bestOffset)
  {
  }

  /** Tetris: runs one trial per start offset and returns the solution of
      the first trial with the strictly highest score above 0, or the blank
      board when no trial scores above 0. */
  method Tetris(target: Grid, pieces: seq<int>) returns (bestSolution: Solution)
    requires IsMask(target) && |pieces| == NumPieces && Total(pieces) != 0
    ensures (forall o :: 0 <= o < TrialCount(Width(target), |target|) ==> TrialAccuracy(target, pieces, o) <= 0.0)
      ==> bestSolution == Blank(|target|, Width(target))
    ensures (exists o :: 0 <= o < TrialCount(Width(target), |target|) && TrialAccuracy(target, pieces, o) > 0.0)
      ==> exists o: nat :: FirstBest(Scores(target, pieces), o) && bestSolution == Trial(target, pieces, o).sol
  {
    var height, width := |target|, |target[0]|;
    var bestAccuracy: real := 0.0;
    var blank := Blank(height, width);
    bestSolution := blank;
    ghost var found := false;
    ghost var bestOffset: nat := 0;
    ghost var scores := Scores(target, pieces);
    var trials := if width * height < 800 then width * height else 1;
    assert trials == |scores|;
    var offset := 0;
    while offset < trials
      invariant 0 <= offset <= trials
      invariant BestSoFar(scores, offset, found, bestAccuracy, bestOffset)
      invariant !found ==> bestSolution == blank
      invariant found ==> bestSolution == Trial(target, pieces, bestOffset).sol
    {
      var accuracy, solution := RunTrial(target, pieces, offset);
      assert accuracy == scores[offset];
      BestSoFarStep(scores, offset, found, bestAccuracy, bestOffset);
      if accuracy > bestAccuracy {
        bestAccuracy, bestSolution := accuracy, solution;
        bestOffset, found := offset, true;
      }
      offset := offset + 1;
    }
    BestSoFarConclude(scores, found, bestAccuracy, bestOffset);
    if !found {
      forall o | 0 <= o < |scores| ensures TrialAccuracy(target, pieces, o) <= 0.0 {
        assert scores[o] <= 0.0;
      }
    } else {
      assert scores[bestOffset] > 0.0;
    }
  }
}
