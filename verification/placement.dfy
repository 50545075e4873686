/** Laying one piece (`place_piece`) and the pass-1 adjacency bonus it
    applies after every stamped tile (`updateWeights`). */
module Placement {
  import opened Catalog
  import opened Board
  import opened Selector

  /** An absolute board coordinate. */
  datatype Pos = Pos(row: int, col: int)

  /** A solution cell `(piece, order)`: the id of the covering piece and the
      placement counter at the time it was laid; `(0, 0)` when uncovered. */
  datatype Cell = Cell(piece: int, order: int)

  const Uncovered: Cell := Cell(0, 0)

  type Solution = seq<seq<Cell>>

  /** Everything place_piece mutates: the weighted board, the inventory,
      the placement counter and the solution grid. */
  datatype State = State(board: Grid, inv: seq<int>, placed: int, sol: Solution)

  /** Two grids with the same number of rows and the same row lengths. */
  predicate SameDims<S, T>(a: seq<seq<S>>, b: seq<seq<T>>) {
    |a| == |b| && forall i :: 0 <= i < |a| ==> |a[i]| == |b[i]|
  }

  predicate WellShaped(s: State) {
    |s.inv| == NumPieces && SameDims(s.board, s.sol)
  }

  function Shift(p: Pos, o: Offset): Pos {
    Pos(p.row + o.dr, p.col + o.dc)
  }

  /** The absolute cells of `tiles` anchored at column `x`, row `y`. */
  function Anchored(tiles: seq<Offset>, x: int, y: int): (cells: seq<Pos>)
    ensures |cells| == |tiles|
    ensures forall i :: 0 <= i < |tiles| ==> cells[i] == Shift(Pos(y, x), tiles[i])
  {
    seq(|tiles|, i requires 0 <= i < |tiles| => Shift(Pos(y, x), tiles[i]))
  }

  /** The cells piece `id` covers when anchored at column `x`, row `y`. The
      catalog entry is read directly rather than through `Shape`, whose
      quantified postconditions make footprints at known anchors costly to
      evaluate; the two are equal by `Shape`'s definition. */
  function Footprint(id: PieceId, x: int, y: int): seq<Pos> {
    Anchored(Pieces[id - 1], x, y)
  }

  // ---------------------------------------------------------------------
  // updateWeights
  // ---------------------------------------------------------------------

  /** One increment of updateWeights: the cell gains 1 unless it reads -1 or
      0 (a cell off the grid reads -1). */
  function Bump(g: Grid, p: Pos): (g': Grid)
    ensures SameDims(g', g)
  {
    var v := At(g, p.row, p.col);
    if v == -1 || v == 0 then g else Put(g, p.row, p.col, v + 1)
  }

  /** Bump applied to each of `ps`, in order. */
  function BumpAll(g: Grid, ps: seq<Pos>): (g': Grid)
    ensures SameDims(g', g)
    decreases |ps|
  {
    if |ps| == 0 then g else BumpAll(Bump(g, ps[0]), ps[1..])
  }

  /** The four `lrud` neighbours of one tile, in table order. */
  function SidesOf(p: Pos): seq<Pos> {
    [Shift(p, Lrud[0]), Shift(p, Lrud[1]), Shift(p, Lrud[2]), Shift(p, Lrud[3])]
  }

  /** The cells updateWeights visits, in its loop order: for each tile, its
      four `lrud` neighbours. */
  function Neighbours(cells: seq<Pos>): (ns: seq<Pos>)
    ensures |ns| == 4 * |cells|
    decreases |cells|
  {
    if |cells| == 0 then [] else SidesOf(cells[0]) + Neighbours(cells[1..])
  }

  /** How many of `cells` sit immediately left or right of `p`. */
  function Contacts(cells: seq<Pos>, p: Pos): (n: nat)
    ensures n <= |cells|
    decreases |cells|
  {
    if |cells| == 0 then 0
    else
      var here := if cells[0] == Pos(p.row, p.col - 1) || cells[0] == Pos(p.row, p.col + 1) then 1 else 0;
      here + Contacts(cells[1..], p)
  }

  /** How many times `p` occurs in `ps`. */
  function Count(ps: seq<Pos>, p: Pos): (n: nat)
    ensures n <= |ps|
    decreases |ps|
  {
    if |ps| == 0 then 0 else (if ps[0] == p then 1 else 0) + Count(ps[1..], p)
  }

  lemma {:induction false} CountAppend(a: seq<Pos>, b: seq<Pos>, p: Pos)
    ensures Count(a + b, p) == Count(a, p) + Count(b, p)
    decreases |a|
  {
    if |a| == 0 {
      assert a + b == b;
    } else {
      assert (a + b)[1..] == a[1..] + b;
      CountAppend(a[1..], b, p);
    }
  }

  /** Each bump lands on a live cell and leaves -1 and 0 alone, so a cell
      ends up raised by the number of times it is visited exactly when it
      started live. */
  lemma {:induction false} BumpAllEffect(g: Grid, ps: seq<Pos>)
    ensures forall r, c :: InGrid(g, r, c) && (g[r][c] == -1 || g[r][c] == 0) ==> BumpAll(g, ps)[r][c] == g[r][c]
    ensures forall r, c :: InGrid(g, r, c) && g[r][c] >= 1 ==> BumpAll(g, ps)[r][c] == g[r][c] + Count(ps, Pos(r, c))
    decreases |ps|
  {
    if |ps| > 0 {
      var g1 := Bump(g, ps[0]);
      BumpAllEffect(g1, ps[1..]);
      forall r, c | InGrid(g, r, c)
        ensures InGrid(g1, r, c)
        ensures g[r][c] == -1 || g[r][c] == 0 ==> g1[r][c] == g[r][c]
        ensures g[r][c] >= 1 ==> g1[r][c] == g[r][c] + (if ps[0] == Pos(r, c) then 1 else 0) && g1[r][c] >= 1
      {
      }
    }
  }

  /** One tile visits `p` twice when it sits immediately left or right of `p`, and never otherwise. */
  lemma SidesCount(t: Pos, p: Pos)
    ensures Count(SidesOf(t), p) == if t == Pos(p.row, p.col - 1) || t == Pos(p.row, p.col + 1) then 2 else 0
  {
    var left, right := Pos(t.row, t.col - 1), Pos(t.row, t.col + 1);
    assert Lrud[0] == Offset(0, -1) && Lrud[1] == Offset(0, 1) && Lrud[2] == Offset(0, -1) && Lrud[3] == Offset(0, 1);
    var sides := SidesOf(t);
    assert sides == [left, right, left, right];
    var l, r := if left == p then 1 else 0, if right == p then 1 else 0;
    assert Count(sides[3..], p) == r by {
      assert sides[3..] == [right];
    }
    assert Count(sides[2..], p) == l + r by {
      assert sides[2..][1..] == sides[3..];
    }
    assert Count(sides[1..], p) == l + 2 * r by {
      assert sides[1..][1..] == sides[2..];
    }
    assert Count(sides, p) == 2 * l + 2 * r;
    assert left == p <==> t == Pos(p.row, p.col + 1);
    assert right == p <==> t == Pos(p.row, p.col - 1);
  }

  /** The two duplicated horizontal vectors of `lrud` make every tile visit
      its left and its right neighbour twice and nothing else. */
  lemma {:induction false} NeighbourCount(cells: seq<Pos>, p: Pos)
    ensures Count(Neighbours(cells), p) == 2 * Contacts(cells, p)
    decreases |cells|
  {
    if |cells| > 0 {
      NeighbourCount(cells[1..], p);
      CountAppend(SidesOf(cells[0]), Neighbours(cells[1..]), p);
      SidesCount(cells[0], p);
    }
  }

  /** updateWeights(dict, piece, x, y): every live cell (value other than -1
      and 0) gains 2 for each tile of the piece that sits immediately left
      or right of it; all other cells keep their value. */
  function UpdateWeights(g: Grid, tiles: seq<Offset>, x: int, y: int): (g': Grid)
    ensures SameDims(g', g)
    ensures forall r, c :: InGrid(g, r, c) && (g[r][c] == -1 || g[r][c] == 0) ==> g'[r][c] == g[r][c]
    ensures forall r, c :: InGrid(g, r, c) && g[r][c] >= 1 ==> g'[r][c] == g[r][c] + Bonus(tiles, x, y, Pos(r, c))
  {
    var ns := Neighbours(Anchored(tiles, x, y));
    BumpAllEffect(g, ns);
    forall p {
      NeighbourCount(Anchored(tiles, x, y), p);
    }
    BumpAll(g, ns)
  }

  /** What one run of updateWeights adds to a live cell next to the piece. */
  function Bonus(tiles: seq<Offset>, x: int, y: int, p: Pos): nat {
    2 * Contacts(Anchored(tiles, x, y), p)
  }

  // ---------------------------------------------------------------------
  // place_piece
  // ---------------------------------------------------------------------

  /** Every cell of `cells` lies on the board. */
  predicate OnBoard(g: Grid, cells: seq<Pos>) {
    forall i :: 0 <= i < |cells| ==> InGrid(g, cells[i].row, cells[i].col)
  }

  /** One iteration of the stamping loop on the board: the block's cell
      becomes -1 and, in pass 1, updateWeights runs for the whole piece. */
  function StampOne(g: Grid, p: Pos, tiles: seq<Offset>, x: int, y: int, pass: int): (g': Grid)
    requires InGrid(g, p.row, p.col)
    ensures SameDims(g', g)
  {
    var g1 := Put(g, p.row, p.col, -1);
    if pass == 1 then UpdateWeights(g1, tiles, x, y) else g1
  }

  /** One iteration, cell by cell: the block's cell ends at -1, -1 and 0
      stay, and a live cell gains one bonus in pass 1 and stays live. */
  lemma StampOneEffect(g: Grid, p: Pos, tiles: seq<Offset>, x: int, y: int, pass: int)
    requires InGrid(g, p.row, p.col)
    ensures StampOne(g, p, tiles, x, y, pass)[p.row][p.col] == -1
    ensures forall r, c :: InGrid(g, r, c) && Pos(r, c) != p && (g[r][c] == -1 || g[r][c] == 0) ==>
      StampOne(g, p, tiles, x, y, pass)[r][c] == g[r][c]
    ensures forall r, c :: InGrid(g, r, c) && Pos(r, c) != p && g[r][c] >= 1 ==>
      StampOne(g, p, tiles, x, y, pass)[r][c] == g[r][c] + (if pass == 1 then Bonus(tiles, x, y, Pos(r, c)) else 0)
  {
  }

  /** The stamping loop of place_piece from block `k` on: each block's cell
      receives `mark` in the solution and -1 on the board, and in pass 1 the
      whole piece's neighbourhood is then re-weighted. */
  function Stamp(s: State, cells: seq<Pos>, mark: Cell, tiles: seq<Offset>, x: int, y: int, pass: int, k: nat): (s': State)
    requires k <= |cells|
    requires SameDims(s.board, s.sol) && OnBoard(s.board, cells)
    ensures SameDims(s'.board, s.board) && SameDims(s'.sol, s.sol)
    ensures s'.inv == s.inv && s'.placed == s.placed
    decreases |cells| - k
  {
    if k == |cells| then s
    else
      var p := cells[k];
      Stamp(s.(board := StampOne(s.board, p, tiles, x, y, pass), sol := Put(s.sol, p.row, p.col, mark)),
            cells, mark, tiles, x, y, pass, k + 1)
  }

  /** The stamping loop from block `k` on marks exactly the cells of blocks
      `k..` in the solution. */
  lemma {:induction false} StampSolution(s: State, cells: seq<Pos>, mark: Cell, tiles: seq<Offset>, x: int, y: int, pass: int, k: nat)
    requires k <= |cells|
    requires SameDims(s.board, s.sol) && OnBoard(s.board, cells)
    ensures forall r, c :: InGrid(s.sol, r, c) ==>
      Stamp(s, cells, mark, tiles, x, y, pass, k).sol[r][c] == if Pos(r, c) in cells[k..] then mark else s.sol[r][c]
    decreases |cells| - k
  {
    if k < |cells| {
      var p := cells[k];
      var s1 := s.(board := StampOne(s.board, p, tiles, x, y, pass), sol := Put(s.sol, p.row, p.col, mark));
      StampSolution(s1, cells, mark, tiles, x, y, pass, k + 1);
      assert cells[k..] == [p] + cells[k + 1..];
    }
  }

  /** Away from the blocks `k..`, the stamping loop keeps every -1 and 0,
      and a live cell gains the adjacency bonus once per remaining block in
      pass 1. */
  lemma {:induction false} StampElsewhere(s: State, cells: seq<Pos>, mark: Cell, tiles: seq<Offset>, x: int, y: int, pass: int, k: nat)
    requires k <= |cells|
    requires SameDims(s.board, s.sol) && OnBoard(s.board, cells)
    ensures forall r, c :: InGrid(s.board, r, c) && Pos(r, c) !in cells[k..] && (s.board[r][c] == -1 || s.board[r][c] == 0) ==>
      Stamp(s, cells, mark, tiles, x, y, pass, k).board[r][c] == s.board[r][c]
    ensures forall r, c :: InGrid(s.board, r, c) && Pos(r, c) !in cells[k..] && s.board[r][c] >= 1 ==>
      Stamp(s, cells, mark, tiles, x, y, pass, k).board[r][c]
        == s.board[r][c] + (if pass == 1 then (|cells| - k) * Bonus(tiles, x, y, Pos(r, c)) else 0)
    decreases |cells| - k
  {
    if k < |cells| {
      var p := cells[k];
      var s1 := s.(board := StampOne(s.board, p, tiles, x, y, pass), sol := Put(s.sol, p.row, p.col, mark));
      StampOneEffect(s.board, p, tiles, x, y, pass);
      StampElsewhere(s1, cells, mark, tiles, x, y, pass, k + 1);
      var final := Stamp(s1, cells, mark, tiles, x, y, pass, k + 1).board;
      assert Stamp(s, cells, mark, tiles, x, y, pass, k).board == final;
      assert cells[k..] == [p] + cells[k + 1..];
      forall r, c | InGrid(s.board, r, c) && Pos(r, c) !in cells[k..] && s.board[r][c] >= 1
        ensures final[r][c] == s.board[r][c] + (if pass == 1 then (|cells| - k) * Bonus(tiles, x, y, Pos(r, c)) else 0)
      {
        var b := Bonus(tiles, x, y, Pos(r, c));
        assert Pos(r, c) != p && Pos(r, c) !in cells[k + 1..];
        assert s1.board[r][c] == s.board[r][c] + (if pass == 1 then b else 0);
        MulStep(|cells| - k, b);
      }
    }
  }

  lemma MulStep(n: int, b: int)
    ensures n * b == b + (n - 1) * b
  {
  }

  /** The cells of blocks `k..` end at -1. */
  lemma {:induction false} StampCovered(s: State, cells: seq<Pos>, mark: Cell, tiles: seq<Offset>, x: int, y: int, pass: int, k: nat)
    requires k <= |cells|
    requires SameDims(s.board, s.sol) && OnBoard(s.board, cells)
    ensures forall r, c :: InGrid(s.board, r, c) && Pos(r, c) in cells[k..] ==>
      Stamp(s, cells, mark, tiles, x, y, pass, k).board[r][c] == -1
    decreases |cells| - k
  {
    if k < |cells| {
      var p := cells[k];
      var s1 := s.(board := StampOne(s.board, p, tiles, x, y, pass), sol := Put(s.sol, p.row, p.col, mark));
      StampOneEffect(s.board, p, tiles, x, y, pass);
      StampCovered(s1, cells, mark, tiles, x, y, pass, k + 1);
      StampElsewhere(s1, cells, mark, tiles, x, y, pass, k + 1);
      assert cells[k..] == [p] + cells[k + 1..];
    }
  }

  /** The piece best_piece picks for the anchor `(x, y)` in the given state. */
  function Chosen(s: State, x: int, y: int, width: int, height: int, pass: int): Candidate
    requires |s.inv| == NumPieces && IsPass(pass)
  {
    SelectPiece(Query(s.board, s.inv, x, y, pass, width, height))
  }

  /** `s'` is `s` after laying piece `id` at `(x, y)` as the next placement:
      the counter rises by one, that piece's stock falls by one and no other
      stock changes, exactly the four covered cells receive
      `(id, counter)` in the solution and -1 on the board (each of them
      having read at least `2 - pass`), every other cell keeps its solution
      entry and its -1 or 0, and in pass 1 a live cell gains the bonus of
      one updateWeights run once per block, 8 for each covered cell
      immediately left or right of it. */
  ghost predicate PlacedAt(s: State, s': State, id: PieceId, x: int, y: int, pass: int)
    requires WellShaped(s) && WellShaped(s') && SameDims(s'.board, s.board)
  {
    var cells := Footprint(id, x, y);
    && s'.placed == s.placed + 1
    && s'.inv[id - 1] == s.inv[id - 1] - 1
    && (forall j :: 0 <= j < NumPieces && j != id - 1 ==> s'.inv[j] == s.inv[j])
    && (forall r, c :: InGrid(s.sol, r, c) ==>
          s'.sol[r][c] == if Pos(r, c) in cells then Cell(id, s.placed + 1) else s.sol[r][c])
    && (forall r, c :: InGrid(s.board, r, c) && Pos(r, c) in cells ==>
          s.board[r][c] >= 2 - pass && s'.board[r][c] == -1)
    && (forall r, c :: InGrid(s.board, r, c) && Pos(r, c) !in cells && (s.board[r][c] == -1 || s.board[r][c] == 0) ==>
          s'.board[r][c] == s.board[r][c])
    && (forall r, c :: InGrid(s.board, r, c) && Pos(r, c) !in cells && s.board[r][c] >= 1 ==>
          s'.board[r][c] == s.board[r][c] + (if pass == 1 then 4 * Bonus(Shape(id), x, y, Pos(r, c)) else 0))
  }

  /** Every cell of `cells` reads at least `2 - pass`. */
  predicate Admissible(g: Grid, cells: seq<Pos>, pass: int) {
    forall i :: 0 <= i < |cells| ==> At(g, cells[i].row, cells[i].col) >= 2 - pass
  }

  /** The tiles of a fitting piece read at least `2 - pass`. */
  lemma FitsAdmissible(s: State, c: Candidate, x: int, y: int, width: int, height: int, pass: int)
    requires |s.inv| == NumPieces && IsPass(pass)
    requires Fits(Query(s.board, s.inv, x, y, pass, width, height), c)
    ensures Admissible(s.board, Footprint(c.id, x, y), pass)
  {
    var q := Query(s.board, s.inv, x, y, pass, width, height);
    AnchoredAdmissible(q, Shape(c.id));
  }

  /** Anchoring tiles that all pass the pruning test gives admissible cells. */
  lemma AnchoredAdmissible(q: Query, tiles: seq<Offset>)
    requires forall k :: 0 <= k < |tiles| ==> Admits(q, tiles[k])
    ensures Admissible(q.board, Anchored(tiles, q.x, q.y), q.pass)
  {
    var cells := Anchored(tiles, q.x, q.y);
    forall i | 0 <= i < |cells|
      ensures At(q.board, cells[i].row, cells[i].col) >= 2 - q.pass
    {
      assert Admits(q, tiles[i]);
    }
  }

  /** The body of `if piece:` in place_piece: count the placement, take one
      piece `id` from stock and stamp its four blocks. */
  function Lay(s: State, id: PieceId, x: int, y: int, pass: int): (s': State)
    requires WellShaped(s) && IsPass(pass)
    requires Admissible(s.board, Footprint(id, x, y), pass)
    ensures WellShaped(s') && SameDims(s'.board, s.board)
  {
    var placed := s.placed + 1;
    var start := State(s.board, s.inv[id - 1 := s.inv[id - 1] - 1], placed, s.sol);
    Stamp(start, Footprint(id, x, y), Cell(id, placed), Shape(id), x, y, pass, 0)
  }

  lemma LayEffect(s: State, id: PieceId, x: int, y: int, pass: int)
    requires WellShaped(s) && IsPass(pass)
    requires Admissible(s.board, Footprint(id, x, y), pass)
    ensures PlacedAt(s, Lay(s, id, x, y, pass), id, x, y, pass)
  {
    var cells := Footprint(id, x, y);
    var placed := s.placed + 1;
    var start := State(s.board, s.inv[id - 1 := s.inv[id - 1] - 1], placed, s.sol);
    StampSolution(start, cells, Cell(id, placed), Shape(id), x, y, pass, 0);
    StampCovered(start, cells, Cell(id, placed), Shape(id), x, y, pass, 0);
    StampElsewhere(start, cells, Cell(id, placed), Shape(id), x, y, pass, 0);
    assert cells[0..] == cells;
    forall r, c | InGrid(s.board, r, c) && Pos(r, c) in cells
      ensures s.board[r][c] >= 2 - pass
    {
      var i :| 0 <= i < |cells| && cells[i] == Pos(r, c);
    }
  }

  /** place_piece: asks best_piece for the anchor; when it names no piece
      nothing changes, otherwise the piece is laid as PlacedAt describes. */
  function PlacePiece(s: State, x: int, y: int, width: int, height: int, pass: int): (s': State)
    requires WellShaped(s) && IsPass(pass)
    ensures WellShaped(s') && SameDims(s'.board, s.board)
    ensures Chosen(s, x, y, width, height, pass).id == 0 ==> s' == s
    ensures Chosen(s, x, y, width, height, pass).id != 0 ==> PlacedAt(s, s', Chosen(s, x, y, width, height, pass).id, x, y, pass)
  {
    var c := Chosen(s, x, y, width, height, pass);
    if c.id == 0 then s
    else
      FitsAdmissible(s, c, x, y, width, height, pass);
      LayEffect(s, c.id, x, y, pass);
      Lay(s, c.id, x, y, pass)
  }
}
