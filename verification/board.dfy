/** The target mask, the weighted board derived from it (`weightBoard`) and
    the sentinel-reading view of that board (`dictBoard`). */
module Board {
  import opened Catalog

  /** A grid of integers, row by row. */
  type Grid = seq<seq<int>>

  /** The number of columns, read from the first row as `Tetris` does with `len(target[0])`. */
  function Width<T>(g: seq<seq<T>>): nat {
    if |g| == 0 then 0 else |g[0]|
  }

  /** Every row has the same length. */
  predicate Rectangular<T>(g: seq<seq<T>>) {
    forall r :: 0 <= r < |g| ==> |g[r]| == Width(g)
  }

  /** `a` and `b` are rectangular grids of the same dimensions. */
  predicate SameShape<S, T>(a: seq<seq<S>>, b: seq<seq<T>>) {
    Rectangular(a) && Rectangular(b) && |a| == |b| && Width(a) == Width(b)
  }

  predicate InGrid<T>(g: seq<seq<T>>, r: int, c: int) {
    0 <= r < |g| && 0 <= c < |g[r]|
  }

  /** A target mask: at least one row, rectangular, every value 0 or 1. */
  predicate IsMask(t: Grid) {
    && |t| >= 1
    && Rectangular(t)
    && forall r, c :: 0 <= r < |t| && 0 <= c < |t[r]| ==> t[r][c] == 0 || t[r][c] == 1
  }

  /** The sentinel-reading view of a weighted board (`dictBoard`): every
      coordinate the dictionary never stored reads -1. */
  function At(g: Grid, r: int, c: int): int {
    if InGrid(g, r, c) then g[r][c] else -1
  }

  /** The grid with the one in-grid cell `(r, c)` replaced by `v`. */
  function Put<T>(g: seq<seq<T>>, r: int, c: int, v: T): (g': seq<seq<T>>)
    requires InGrid(g, r, c)
    ensures |g'| == |g| && Width(g') == Width(g)
    ensures forall i :: 0 <= i < |g| ==> |g'[i]| == |g[i]|
    ensures forall i, j :: InGrid(g, i, j) ==> g'[i][j] == (if i == r && j == c then v else g[i][j])
  {
    g[r := g[r][c := v]]
  }

  /** The mask padded with a border of background (`np.pad` with 0). */
  function Padded(t: Grid, r: int, c: int): int {
    if InGrid(t, r, c) then t[r][c] else 0
  }

  /** The weight of one cell as the numpy expression of weightBoard computes
      it: the cell's own value plus `1 - neighbour` for the four padded
      neighbours, then forced to 0 where the mask is 0. */
  function CellWeight(t: Grid, r: int, c: int): int
    requires InGrid(t, r, c)
  {
    if t[r][c] == 0 then 0
    else t[r][c] + (1 - Padded(t, r, c - 1)) + (1 - Padded(t, r - 1, c))
         + (1 - Padded(t, r, c + 1)) + (1 - Padded(t, r + 1, c))
  }

  function WeightBoard(t: Grid): (w: Grid)
    requires Rectangular(t)
    ensures SameShape(w, t)
  {
    seq(|t|, r requires 0 <= r < |t| =>
      seq(Width(t), c requires 0 <= c < Width(t) => CellWeight(t, r, c)))
  }

  /** The four axis neighbours: up, down, left, right. */
  const Sides: seq<Offset> := [Offset(-1, 0), Offset(1, 0), Offset(0, -1), Offset(0, 1)]

  /** A cell counts as open when it is background or lies off the grid. */
  predicate IsOpen(t: Grid, r: int, c: int) {
    !InGrid(t, r, c) || t[r][c] == 0
  }

  /** 1 for an open cell, 0 otherwise. */
  function OpenBit(t: Grid, r: int, c: int): int {
    if IsOpen(t, r, c) then 1 else 0
  }

  /** How many of the sides `Sides[k..]`, taken from `(r, c)`, lead to an open cell. */
  function OpenSides(t: Grid, r: int, c: int, k: nat): (n: nat)
    requires k <= |Sides|
    ensures n <= |Sides| - k
    decreases |Sides| - k
  {
    if k == |Sides| then 0
    else OpenBit(t, r + Sides[k].dr, c + Sides[k].dc) + OpenSides(t, r, c, k + 1)
  }

  lemma OpenSidesUnfold(t: Grid, r: int, c: int)
    ensures OpenSides(t, r, c, 0) == OpenBit(t, r - 1, c) + OpenBit(t, r + 1, c) + OpenBit(t, r, c - 1) + OpenBit(t, r, c + 1)
  {
    assert Sides[3] == Offset(0, 1);
    assert Sides[2] == Offset(0, -1);
    assert Sides[1] == Offset(1, 0);
    assert Sides[0] == Offset(-1, 0);
    assert OpenSides(t, r, c, 3) == OpenBit(t, r, c + 1);
    assert OpenSides(t, r, c, 2) == OpenBit(t, r, c - 1) + OpenBit(t, r, c + 1);
    assert OpenSides(t, r, c, 1) == OpenBit(t, r + 1, c) + OpenBit(t, r, c - 1) + OpenBit(t, r, c + 1);
  }

  /** On a mask, `1 - padded value` is exactly the open-cell indicator. */
  lemma OpenBitOfMask(t: Grid, r: int, c: int)
    requires IsMask(t)
    ensures OpenBit(t, r, c) == 1 - Padded(t, r, c)
  {
  }

  /** Reading the weighted board through the sentinel view: a target cell
      weighs 1 plus the number of its four neighbours that are background or
      off the grid, so between 1 and 5; a background cell weighs 0; every
      coordinate off the grid reads -1. */
  lemma WeightedReading(t: Grid, r: int, c: int)
    requires IsMask(t)
    ensures !InGrid(t, r, c) ==> At(WeightBoard(t), r, c) == -1
    ensures InGrid(t, r, c) && t[r][c] == 0 ==> At(WeightBoard(t), r, c) == 0
    ensures InGrid(t, r, c) && t[r][c] == 1 ==> At(WeightBoard(t), r, c) == 1 + OpenSides(t, r, c, 0)
    ensures InGrid(t, r, c) && t[r][c] == 1 ==> 1 <= At(WeightBoard(t), r, c) <= 5
  {
    if InGrid(t, r, c) && t[r][c] == 1 {
      assert At(WeightBoard(t), r, c) == CellWeight(t, r, c);
      OpenSidesUnfold(t, r, c);
      OpenBitOfMask(t, r - 1, c);
      OpenBitOfMask(t, r + 1, c);
      OpenBitOfMask(t, r, c - 1);
      OpenBitOfMask(t, r, c + 1);
    }
  }

  /** The weighted board of a mask holds no sentinel and no negative value. */
  lemma WeightBoardNonNegative(t: Grid)
    requires IsMask(t)
    ensures forall r, c :: InGrid(WeightBoard(t), r, c) ==> WeightBoard(t)[r][c] >= 0
  {
    forall r, c | InGrid(WeightBoard(t), r, c)
      ensures WeightBoard(t)[r][c] >= 0
    {
      WeightedReading(t, r, c);
    }
  }
}
