# Tetromino-Assembly, modelled in Dafny

Tetromino-Assembly covers a 0/1 target mask with pieces from a fixed catalog of
19 four-tile tetromino orientations, respecting a per-piece stock. It is a greedy
heuristic:

1. Each target tile gets a weight: 1, plus 1 for every up/down/left/right
   neighbour that is background or off the board.
2. A pruned depth-first search over a hand-built trie of piece offsets
   (`best_piece`) picks, at each scanned tile, the admissible piece of highest
   accumulated weight.
3. `place_piece` stamps that piece into the solution grid. It marks its cells
   consumed (-1) on the weighted board and takes one piece from stock. In pass 1
   it also adds an adjacency bonus to the live tiles next to the piece
   (`updateWeights`).
4. `Tetris` runs two row-major passes for each start offset. Pass 1 is strict;
   pass 2 lets a piece spill onto background.
5. `calculateAccuracy` scores each trial, and `Tetris` keeps the first trial
   with the strictly highest score.

The project has five modules, one per part of the program, and a sixth of worked cases:

- `Catalog` (`catalog.dfy`) holds the constant data of `resources.py`:
  - the 19 piece shapes (`ids`);
  - the trie (`tree`, a `Trie` datatype with `Branch` and `Leaf` nodes);
  - the neighbour table `lrud`.

  Because these are finite constants, the agreement between the trie and the
  catalog is proved by computation.
- `Board` (`board.dfy`) holds the weighted board (`weightBoard`) and its
  sentinel-reading view (`dictBoard`, modelled as the accessor `At`, which reads
  -1 off the grid).
- `Selector` (`selector.dfy`) models `best_piece` twice:
  - `BestPiece`/`FoldChildren` follow the recursion as written, threading the
    running candidate through the children.
  - `Pick` over `Candidates` is an independent reference. It filters the trie's
    root-to-leaf paths in depth-first order, then left-folds them with the
    board-size tie rule.

  Lemmas prove the two equal and derive what the chosen piece satisfies.
- `Placement` (`placement.dfy`) holds `place_piece` and `updateWeights`.
  `PlacedAt` states their combined effect exactly: which cells change, how, and
  what stays the same.
- `Driver` (`driver.dfy`) holds the passes, a trial, `calculateAccuracy` and
  `Tetris`. It also has the bookkeeping invariant that every placement keeps
  (`Consistent`) and the "only grows" relation between states (`Extends`).
- `Scenarios` (`scenarios.dfy`) works two small targets through the model:
  - a one-cell target, where no piece fits, the solution stays blank and a
    stock of one piece scores 75;
  - a filled 2-by-2 target with one square in stock, where every cell weighs
    3, the first search picks the square with weight 12, the trial from offset
    0 covers all four cells with it, scores 100, and is the solution Tetris
    returns.

The program's quirks are modelled as written:

- The trie's root offset (0,0) is evaluated like any other node. So the anchor
  tile must pass the pruning test and its weight counts (main.py:33, 70-72).
- `updateWeights` is called inside the four-block stamping loop. So it runs four
  times per pass-1 placement, each time after one more block has become -1
  (main.py:37-41).
- `lrud` lists (0,-1) and (0,1) twice each and no vertical vector
  (resources.py:80). So the bonus reaches only horizontal neighbours, each twice
  per run. `NeighbourCount` and `UpdateWeights` state this as a closed form: a
  live cell gains 2 for every piece block directly left or right of it, so 8 per
  such block per pass-1 placement.
- Piece 16 sits at the end of two different trie paths (resources.py:45, 61),
  so the trie has 20 leaves.

## Model

| member | source | states |
|---|---|---|
| Catalog.Shape | resources.py:6-26 | every piece id 1..19 has exactly four distinct offsets; the first is (0,0), and every other offset comes after the anchor in row-major order (row > 0, or row 0 and column > 0) |
| Catalog.Ids | resources.py:28-30 | the lookup returns the whole table exactly for 0 and one shape exactly for a catalog id 1..19 |
| Catalog.IdsAgree | resources.py:28-30 | `ids(0)` returns the whole table, keyed by exactly 1..19; `ids(k)` returns piece k's offsets for a key in the table, and fails with a key error otherwise |
| Catalog.TreeAgreesWithCatalog | resources.py:40-77 | the trie has 20 root-to-leaf paths; each one is (0,0) followed by three offsets, and its four offsets are exactly the catalog offsets of its leaf's id |
| Catalog.TreeCoversCatalog | resources.py:43-74 | the leaf ids in depth-first order are 1,10,16,7,12,13,17,11,14,4,8,2,16,19,5,6,18,15,9,3; every id 1..19 appears, and the two paths ending in 16 are different paths |
| Board.WeightBoard | main.py:97-100 | the weighted board has the same dimensions as the mask (its values are stated by WeightedReading) |
| Board.WeightedReading | main.py:97-100 | through the -1-defaulting view, a target cell weighs 1 plus the number of its four neighbours that are background or off the grid (so 1..5), a background cell weighs 0, and any off-grid coordinate reads -1 |
| Board.WeightBoardNonNegative | main.py:97-100 | a freshly weighted board holds no sentinel and no negative value |
| Selector.BestPiece | main.py:46-81 | the search returns `[0, 0]`, the incoming candidate, or a piece in stock whose weight is at least 3 in pass 2 |
| Selector.FoldChildren | main.py:74-81 | the loop over children returns `[0, 0]`, the incoming candidate, or a piece in stock whose weight is at least 3 in pass 2 |
| Selector.PickMonotone | main.py:76-79 | the running best never loses weight; on boards of 2000 tiles or more an equal-weight result is the earlier candidate itself |
| Selector.PickChoice | main.py:76-79 | over positive-weight candidates the fold yields none exactly when there are no candidates; otherwise it yields a heaviest one, the last of the heaviest below 2000 tiles and the first of them from 2000 tiles on |
| Selector.PathWeightPermutation | main.py:70-72 | the accumulated weight does not depend on the order in which a piece's distinct tiles are visited |
| Selector.SelectMembers | main.py:65-72 | a candidate is produced exactly for a path whose tiles all pass the `2 - pass` test and whose leaf is in stock and, in pass 2, weighs at least 3; its weight is the path's weight |
| Selector.BestPieceIsPick | main.py:65-81 | the recursive search below an admitted prefix equals the reference fold over the admissible leaves below it, seeded with the incoming candidate |
| Selector.FoldIsPick | main.py:74-81 | the loop over children from index i equals the reference fold over the admissible leaves below those children |
| Selector.TreeSearchIsPick | main.py:33 | the top-level call from the root equals the reference fold over the admissible leaves of the whole trie, starting from `[0, 0]` |
| Selector.TreeSearchFits | main.py:65-72 | a non-zero result is a piece in stock whose four tiles (anchor included) each read at least `2 - pass`, whose weight is the sum of its tiles' contributions, and which weighs at least 3 in pass 2 |
| Selector.SelectPiece | main.py:33 | the piece place_piece is given is `[0, 0]` or fits in the sense of TreeSearchFits |
| Selector.SelectPieceChoice | main.py:74-81 | the search finds nothing exactly when no leaf is admissible; otherwise it returns a heaviest admissible leaf under the board-size tie rule |
| Placement.BumpAllEffect | main.py:121-122 | a run of increments leaves -1 and 0 cells alone and adds to any live cell the number of times it is named |
| Placement.NeighbourCount | resources.py:80 | through `lrud`, a cell is named as a neighbour exactly twice for each block directly left or right of it and never for a block above or below |
| Placement.UpdateWeights | main.py:105-122 | keeps the dimensions; -1 and 0 cells are unchanged; a live cell gains twice the number of piece blocks horizontally adjacent to it |
| Placement.StampOneEffect | main.py:38-41 | stamping one block sets it to -1; in pass 1 every other live cell gains the update bonus, and nothing else changes |
| Placement.StampSolution | main.py:37-39 | after stamping, the solution cells of the remaining blocks hold the mark and every other solution cell is unchanged |
| Placement.StampElsewhere | main.py:37-41 | off the stamped blocks, -1 and 0 cells are unchanged and a live cell gains the bonus once per block stamped in pass 1 and nothing in pass 2 |
| Placement.StampCovered | main.py:37-40 | every stamped block ends at -1 on the board |
| Placement.FitsAdmissible | main.py:70-71 | each of a chosen piece's four anchored cells read at least `2 - pass` before placement |
| Placement.LayEffect | main.py:34-41 | laying a piece adds 1 to the counter, takes exactly one of that piece from stock, writes `(id, counter)` on exactly its four cells, consumes them, and adds four times the bonus to the other live cells in pass 1 |
| Placement.PlacePiece | main.py:14-43 | with no piece chosen the state is unchanged; otherwise the state changes exactly as LayEffect states, for the piece the search chose |
| Driver.TotalDecrement | main.py:36 | taking one piece from stock lowers the stock total by exactly 1 |
| Driver.Visit | main.py:201-203 | one scan step keeps the board and solution dimensions |
| Driver.Scan | main.py:200-208 | a pass keeps the board and solution dimensions |
| Driver.Trial | main.py:192-208 | a trial's board and solution have the target's dimensions |
| Driver.PlaceKeeps | main.py:33-43 | place_piece keeps the bookkeeping invariant: board values at least -1, a cell covered exactly when consumed, covered cells holding a catalog id and an order up to the counter, every covered cell's piece id having stock left below its start, stock between 0 and its start, counter equal to the pieces taken; and it never uncovers or revives a cell |
| Driver.VisitKeeps | main.py:201-203 | one scan step keeps the bookkeeping invariant and only grows the state |
| Driver.ScanKeeps | main.py:200-208 | a whole pass keeps the bookkeeping invariant and only grows the state |
| Driver.DrawnAfterLay | main.py:33-39 | after a placement every covered cell names a piece id of which fewer remain in stock than at the start: the new cells name the piece just taken, and the old cells' ids lose no stock back |
| Driver.TrialKeeps | main.py:192-208 | from a non-negative stock a trial keeps the invariant (so every covered cell's piece was drawn from stock), places at most the stock's total, and the second pass never changes what the first covered or consumed |
| Driver.RowMistakesZero | main.py:162-164 | a row has no mistakes exactly when every cell in it agrees with `min(1, id)` |
| Driver.MistakesZero | main.py:159-164 | there are no mistakes exactly when every cell of the board agrees with `min(1, id)` |
| Driver.AccuracyPerfect | main.py:166 | the score is 100 exactly when there are no mistakes |
| Driver.AccuracyOrder | main.py:166 | with a positive stock, one score is below another exactly when it has more mistakes |
| Driver.AccuracyAtMost | main.py:166 | with a positive stock no score exceeds 100 |
| Driver.TrialAtMost | main.py:159-166 | with a positive stock no trial scores above 100 |
| Driver.CalculateAccuracy | main.py:144-168 | the nested loops count the cell-by-cell mistakes, score them as `100 * (1 - mistakes / (4 * totalPieces))`, and return the solution unchanged |
| Driver.RunTrial | main.py:192-210 | one iteration of the offset loop yields the trial's solution and its score |
| Driver.BestSoFarStep | main.py:211 | a new score replaces the kept one exactly when it is strictly higher, and the kept offset stays the first highest above 0 |
| Driver.BestSoFarConclude | main.py:186-213 | after the loop, either no score was above 0 or the kept offset is the first with the strictly highest score |
| Driver.Tetris | main.py:171-213 | when no trial scores above 0 the result is the all-(0,0) board; otherwise it is the solution of the first start offset whose score is the highest and above 0; every offset is tried below 800 tiles, and only offset 0 from 800 on |
| Driver.PerfectFirstKept | main.py:186-213 | with a positive stock, a trial from offset 0 scoring 100 is the first best score, so it is the one Tetris keeps |
| Scenarios.NoRoomNoPiece | main.py:70-71 | when neither the tile below the anchor nor the tile to its right passes the pruning test, no piece is chosen, since every trie path goes through one of them second |
| Scenarios.SingleCellTrial | main.py:200-208 | on a one-cell target neither pass places a piece, so the trial's solution stays blank |
| Scenarios.SingleCellScore | main.py:159-166 | on a one-cell target with a stock of one piece, the one uncovered cell is the only mistake, so the trial scores 75 |
| Scenarios.SquareFirstChoice | main.py:46-81 | on the weighted filled 2-by-2 target with one square in stock, the pass-1 search at the top-left cell returns the square with weight 12 |
| Scenarios.SquareLaid | main.py:33-39 | placing that square at the top-left cell consumes all four cells and marks each as covered by piece 1 in placement 1 |
| Scenarios.SquareTrial | main.py:192-208 | the trial from offset 0 on the filled square covers every cell with the square as placement 1; the rest of both passes finds nothing live and changes nothing |
| Scenarios.SquareScore | main.py:159-166 | that trial has no mistakes against the target, so with a stock of one piece it scores 100 |
| Scenarios.SquareKept | main.py:186-213 | the trial from offset 0 is the first best score |
| Scenarios.SquareRun | main.py:171-213 | Tetris on the filled square with one square in stock returns the square covering all four cells as placement 1 |

## Left out

- numpy (`np.array`, `np.pad`, `np.place`) and `deepcopy` are replaced by pure functions on `seq<seq<int>>`. Each trial starts from a fresh value, which is what the copies achieve.
- The `defaultdict` of `dictBoard` stores a -1 entry on every read of a missing key. The accessor `At` returns -1 without storing anything. The stored entries are never iterated, so this changes no result.
- Accuracy is a floating-point number in the program and an exact `real` here. Rounding is not modelled.
- The inventory is a dictionary in the program. Here it is a sequence of 19 counts indexed by id - 1. A dictionary missing some id raises a key error when that leaf is reached; the model requires all 19 counts. Extra keys are not modelled.
- Driver.Tetris: requires the stock total to be non-zero. The program divides by zero in `calculateAccuracy` otherwise (main.py:166).
- Driver.Tetris: requires a non-empty rectangular 0/1 mask. The program does not check this and behaves arbitrarily on other input.
- Driver.TrialKeeps: assumes no stock count is negative. The program does not check this; a negative count behaves like a positive one in the search and keeps falling.
- A trie node with an empty child list is not modelled. In the program it would be taken for a leaf; the constant trie has none.
- The complexity claim in the `Tetris` docstring is not modelled.
- The mutable default `candidate=[0,0]` of `best_piece` is only ever rebound, never mutated, so the model passes the candidate as an ordinary argument.
- Board.WeightBoard: its own contract states only the dimensions. Its values are stated by Board.WeightedReading.
- Driver.Visit: its own contract states only the dimensions. What a step does is stated by Driver.VisitKeeps and Placement.PlacePiece.
- Driver.Scan: its own contract states only the dimensions. What a pass does is stated by Driver.ScanKeeps.
- Driver.Trial: its own contract states only the dimensions. What a trial does is stated by Driver.TrialKeeps.
- Driver.TrialKeeps: ties each covered cell's piece id only to that id having been drawn from stock. It does not state that the cells of an id number exactly four times the pieces of that id taken, nor that they group into whole footprints.
