/** The piece selector (`best_piece`): a pruned depth-first fold over the
    trie that picks the heaviest admissible piece anchored at one tile. */
module Selector {
  import opened Catalog
  import opened Board

  /** best_piece's `[piece_id, weight]` pair; id 0 means "no piece". */
  datatype Candidate = Candidate(id: int, weight: int)

  const NoPiece: Candidate := Candidate(0, 0)

  /** What best_piece reads besides the node and its two running values: the
      weighted board, the inventory, the anchor `(x, y)`, the pass number and
      the board's dimensions. */
  datatype Query = Query(board: Grid, inv: seq<int>, x: int, y: int, pass: int, width: int, height: int)

  /** The inventory holds one count per catalog id (piece `id` at index `id - 1`). */
  predicate ValidQuery(q: Query) {
    |q.inv| == NumPieces
  }

  predicate IsPass(pass: int) {
    pass == 1 || pass == 2
  }

  function Remaining(inv: seq<int>, id: PieceId): int
    requires |inv| == NumPieces
  {
    inv[id - 1]
  }

  function Min(a: int, b: int): int {
    if a <= b then a else b
  }

  /** The board value under tile `o` of the piece anchored at `(x, y)`. */
  function TileValue(q: Query, o: Offset): int {
    At(q.board, q.y + o.dr, q.x + o.dc)
  }

  /** A tile survives the pruning test when its value is at least `2 - pass`:
      a live target tile in pass 1, any unconsumed in-grid tile in pass 2. */
  predicate Admits(q: Query, o: Offset) {
    TileValue(q, o) >= 2 - q.pass
  }

  /** What a tile adds to the running weight: its value in pass 1, the value
      capped at 1 otherwise. */
  function Contribution(q: Query, o: Offset): int {
    if q.pass == 1 then TileValue(q, o) else Min(1, TileValue(q, o))
  }

  /** The leaf test: the piece must still be in stock and, in pass 2, weigh at least 3. */
  function LeafResult(q: Query, id: PieceId, weight: int): Candidate
    requires ValidQuery(q)
  {
    if Remaining(q.inv, id) == 0 then NoPiece
    else if q.pass == 2 && weight < 3 then NoPiece
    else Candidate(id, weight)
  }

  /** Whether `next` displaces the current `best`: on boards of fewer than
      2000 tiles a tie displaces, on larger boards only a strict gain does. */
  predicate Replaces(best: Candidate, next: Candidate, width: int, height: int) {
    if width * height < 2000 then best.weight <= next.weight else best.weight < next.weight
  }

  /** A value the fold may carry: no piece at all, or a real piece of positive weight. */
  predicate Contender(c: Candidate) {
    c == NoPiece || (IsPieceId(c.id) && c.weight > 0)
  }

  /** best_piece as written: the running weight and the current best
      candidate are passed down, and each child's answer is compared with
      the current best after it returns. */
  function BestPiece(q: Query, node: Trie, weightCount: int, candidate: Candidate): (r: Candidate)
    requires ValidQuery(q)
    ensures r == NoPiece || r == candidate || (IsPieceId(r.id) && Remaining(q.inv, r.id) != 0 && (q.pass == 2 ==> r.weight >= 3))
    decreases node, 0
  {
    match node
    case Leaf(id) => LeafResult(q, id, weightCount)
    case Branch(o, children) =>
      if !Admits(q, o) then NoPiece
      else FoldChildren(q, children, 0, weightCount + Contribution(q, o), candidate)
  }

  /** The loop over `children[i..]` in best_piece. */
  function FoldChildren(q: Query, children: seq<Trie>, i: nat, weightCount: int, candidate: Candidate): (r: Candidate)
    requires ValidQuery(q)
    requires i <= |children|
    ensures r == NoPiece || r == candidate || (IsPieceId(r.id) && Remaining(q.inv, r.id) != 0 && (q.pass == 2 ==> r.weight >= 3))
    decreases children, |children| - i
  {
    if i == |children| then candidate
    else
      var next := BestPiece(q, children[i], weightCount, candidate);
      FoldChildren(q, children, i + 1, weightCount, if Replaces(candidate, next, q.width, q.height) then next else candidate)
  }

  // ---------------------------------------------------------------------
  // The reference: a left fold with the same replacement rule over the
  // admissible leaves, listed in depth-first order.
  // ---------------------------------------------------------------------

  /** Folds `cs` into `best`, left to right, with the replacement rule. */
  function Pick(cs: seq<Candidate>, best: Candidate, width: int, height: int): Candidate
    decreases |cs|
  {
    if |cs| == 0 then best
    else Pick(cs[1..], if Replaces(best, cs[0], width, height) then cs[0] else best, width, height)
  }

  predicate PathAdmitted(q: Query, tiles: seq<Offset>) {
    forall k :: 0 <= k < |tiles| ==> Admits(q, tiles[k])
  }

  /** The running weight after the tiles of `tiles`, in order. */
  function PathWeight(q: Query, tiles: seq<Offset>): int
    decreases |tiles|
  {
    if |tiles| == 0 then 0
    else PathWeight(q, tiles[..|tiles| - 1]) + Contribution(q, tiles[|tiles| - 1])
  }

  predicate LeafAdmits(q: Query, id: PieceId, weight: int)
    requires ValidQuery(q)
  {
    Remaining(q.inv, id) != 0 && !(q.pass == 2 && weight < 3)
  }

  /** The candidates of the leaves of `ps` whose every tile passes the
      pruning test and whose leaf test passes, in the order of `ps`. */
  function Select(q: Query, ps: seq<LeafPath>): (cs: seq<Candidate>)
    requires ValidQuery(q)
    ensures |cs| <= |ps|
    decreases |ps|
  {
    if |ps| == 0 then []
    else
      var w := PathWeight(q, ps[0].tiles);
      (if PathAdmitted(q, ps[0].tiles) && LeafAdmits(q, ps[0].id, w) then [Candidate(ps[0].id, w)] else [])
      + Select(q, ps[1..])
  }

  /** The admissible leaves of the whole trie for one anchor, in the order
      best_piece visits them. */
  function Candidates(q: Query): seq<Candidate>
    requires ValidQuery(q)
  {
    Select(q, LeafPathsBelow(Tree, []))
  }

  // ---- facts about Pick ----

  lemma {:induction false} PickAppend(a: seq<Candidate>, b: seq<Candidate>, best: Candidate, width: int, height: int)
    ensures Pick(a + b, best, width, height) == Pick(b, Pick(a, best, width, height), width, height)
    decreases |a|
  {
    if |a| == 0 {
      assert a + b == b;
    } else {
      assert (a + b)[1..] == a[1..] + b;
      PickAppend(a[1..], b, if Replaces(best, a[0], width, height) then a[0] else best, width, height);
    }
  }

  /** The fold never loses weight, and on large boards it keeps its start
      value unless it gains strictly. */
  lemma {:induction false} PickMonotone(cs: seq<Candidate>, best: Candidate, width: int, height: int)
    ensures Pick(cs, best, width, height).weight >= best.weight
    ensures width * height >= 2000 && Pick(cs, best, width, height).weight == best.weight ==> Pick(cs, best, width, height) == best
    decreases |cs|
  {
    if |cs| > 0 {
      PickMonotone(cs[1..], if Replaces(best, cs[0], width, height) then cs[0] else best, width, height);
    }
  }

  lemma {:induction false} PickFrom(cs: seq<Candidate>, best: Candidate, width: int, height: int)
    ensures Pick(cs, best, width, height) == best || Pick(cs, best, width, height) in cs
    decreases |cs|
  {
    if |cs| > 0 {
      PickFrom(cs[1..], if Replaces(best, cs[0], width, height) then cs[0] else best, width, height);
    }
  }

  predicate AllContenders(cs: seq<Candidate>) {
    forall k :: 0 <= k < |cs| ==> Contender(cs[k])
  }

  /** `cs[k]` is a heaviest candidate of `cs`: the last of the heaviest on
      boards under 2000 tiles, the first of them on larger boards. */
  predicate Heaviest(cs: seq<Candidate>, k: int, width: int, height: int) {
    && 0 <= k < |cs|
    && (forall j :: 0 <= j < |cs| ==> cs[j].weight <= cs[k].weight)
    && (width * height < 2000 ==> forall j :: k < j < |cs| ==> cs[j].weight < cs[k].weight)
    && (width * height >= 2000 ==> forall j :: 0 <= j < k ==> cs[j].weight < cs[k].weight)
  }

  lemma HeaviestExtend(init: seq<Candidate>, last: Candidate, k: int, width: int, height: int)
    requires Heaviest(init, k, width, height)
    ensures Replaces(init[k], last, width, height) ==> Heaviest(init + [last], |init|, width, height)
    ensures !Replaces(init[k], last, width, height) ==> Heaviest(init + [last], k, width, height)
  {
  }

  /** The fold's answer over candidates of positive weight: nothing when
      there are none; otherwise the heaviest one the tie rule prefers. */
  lemma {:induction false} PickChoice(cs: seq<Candidate>, width: int, height: int)
    requires forall k :: 0 <= k < |cs| ==> cs[k].weight > 0
    ensures |cs| == 0 <==> Pick(cs, NoPiece, width, height) == NoPiece
    ensures |cs| > 0 ==> exists k :: Heaviest(cs, k, width, height) && Pick(cs, NoPiece, width, height) == cs[k]
    decreases |cs|
  {
    if |cs| > 0 {
      var init, last := cs[..|cs| - 1], cs[|cs| - 1];
      assert cs == init + [last];
      PickAppend(init, [last], NoPiece, width, height);
      var before := Pick(init, NoPiece, width, height);
      assert Pick(cs, NoPiece, width, height) == if Replaces(before, last, width, height) then last else before;
      PickChoice(init, width, height);
      if |init| == 0 {
        assert Heaviest(cs, 0, width, height);
      } else {
        var k :| Heaviest(init, k, width, height) && before == init[k];
        HeaviestExtend(init, last, k, width, height);
      }
    }
  }

  // ---- facts about PathWeight, Select and the leaf paths ----

  lemma {:induction false} PathWeightAppend(q: Query, a: seq<Offset>, b: seq<Offset>)
    ensures PathWeight(q, a + b) == PathWeight(q, a) + PathWeight(q, b)
    decreases |b|
  {
    if |b| == 0 {
      assert a + b == a;
    } else {
      assert (a + b)[..|a + b| - 1] == a + b[..|b| - 1];
      PathWeightAppend(q, a, b[..|b| - 1]);
    }
  }

  /** The running weight does not depend on the order of the tiles: two
      tile lists with the same distinct members weigh the same. */
  lemma {:induction false} PathWeightPermutation(q: Query, a: seq<Offset>, b: seq<Offset>)
    requires Distinct(a)
    requires |a| == |b|
    requires forall k :: 0 <= k < |a| ==> a[k] in b
    ensures PathWeight(q, a) == PathWeight(q, b)
    decreases |a|
  {
    if |a| > 0 {
      var x := a[|a| - 1];
      var j :| 0 <= j < |b| && b[j] == x;
      var a', b' := a[..|a| - 1], b[..j] + b[j + 1..];
      forall k | 0 <= k < |a'|
        ensures a'[k] in b'
      {
        var i :| 0 <= i < |b| && b[i] == a'[k];
        assert a'[k] != x;
        if i < j {
          assert b'[i] == b[i];
        } else {
          assert b'[i - 1] == b[i];
        }
      }
      PathWeightPermutation(q, a', b');
      assert b == b[..j] + [x] + b[j + 1..];
      PathWeightAppend(q, b[..j] + [x], b[j + 1..]);
      PathWeightAppend(q, b[..j], [x]);
      PathWeightAppend(q, b[..j], b[j + 1..]);
      assert [x][..0] == [];
    }
  }

  lemma {:induction false} SelectAppend(q: Query, a: seq<LeafPath>, b: seq<LeafPath>)
    requires ValidQuery(q)
    ensures Select(q, a + b) == Select(q, a) + Select(q, b)
    decreases |a|
  {
    if |a| == 0 {
      assert a + b == b;
    } else {
      assert (a + b)[1..] == a[1..] + b;
      SelectAppend(q, a[1..], b);
    }
  }

  /** `c` is the candidate of leaf path `p`, and `p` passes every test. */
  predicate AdmissibleLeaf(q: Query, p: LeafPath, c: Candidate)
    requires ValidQuery(q)
  {
    PathAdmitted(q, p.tiles) && LeafAdmits(q, p.id, PathWeight(q, p.tiles)) && c == Candidate(p.id, PathWeight(q, p.tiles))
  }

  /** The candidates Select keeps are exactly the admissible leaves of `ps`. */
  lemma {:induction false} SelectMembers(q: Query, ps: seq<LeafPath>, c: Candidate)
    requires ValidQuery(q)
    ensures c in Select(q, ps) <==> exists p :: p in ps && AdmissibleLeaf(q, p, c)
    decreases |ps|
  {
    if |ps| > 0 {
      SelectMembers(q, ps[1..], c);
      var w := PathWeight(q, ps[0].tiles);
      var head := if PathAdmitted(q, ps[0].tiles) && LeafAdmits(q, ps[0].id, w) then [Candidate(ps[0].id, w)] else [];
      assert Select(q, ps) == head + Select(q, ps[1..]);
      assert c in head <==> AdmissibleLeaf(q, ps[0], c);
      assert ps == [ps[0]] + ps[1..];
      assert forall p :: p in ps <==> p == ps[0] || p in ps[1..];
    }
  }

  /** Every leaf path below a node reached through `prefix` starts with `prefix`. */
  lemma {:induction false} PathsExtendPrefix(t: Trie, prefix: seq<Offset>)
    ensures forall p :: p in LeafPathsBelow(t, prefix) ==> |p.tiles| >= |prefix| && p.tiles[..|prefix|] == prefix
    ensures t.Branch? ==> forall p :: p in LeafPathsBelow(t, prefix) ==> |p.tiles| > |prefix| && p.tiles[|prefix|] == t.offset
    decreases t, 1
  {
    match t
    case Leaf(id) =>
    case Branch(o, children) =>
      PathsFromExtendPrefix(children, 0, prefix + [o]);
      forall p | p in LeafPathsBelow(t, prefix)
        ensures |p.tiles| > |prefix| && p.tiles[..|prefix|] == prefix && p.tiles[|prefix|] == o
      {
        assert p.tiles[..|prefix| + 1] == prefix + [o];
        assert p.tiles[..|prefix|] == (prefix + [o])[..|prefix|];
      }
  }

  lemma {:induction false} PathsFromExtendPrefix(children: seq<Trie>, i: nat, prefix: seq<Offset>)
    requires i <= |children|
    ensures forall p :: p in LeafPathsFrom(children, i, prefix) ==> |p.tiles| >= |prefix| && p.tiles[..|prefix|] == prefix
    decreases children, |children| - i
  {
    if i < |children| {
      PathsExtendPrefix(children[i], prefix);
      PathsFromExtendPrefix(children, i + 1, prefix);
    }
  }

  lemma {:induction false} SelectNone(q: Query, ps: seq<LeafPath>)
    requires ValidQuery(q)
    requires forall p :: p in ps ==> !PathAdmitted(q, p.tiles)
    ensures Select(q, ps) == []
    decreases |ps|
  {
    if |ps| > 0 {
      assert ps[0] in ps;
      SelectNone(q, ps[1..]);
    }
  }

  /** Every candidate Select keeps from paths of at least one tile has
      positive weight and a catalog id. */
  lemma {:induction false} SelectContenders(q: Query, ps: seq<LeafPath>)
    requires ValidQuery(q) && IsPass(q.pass)
    requires forall p :: p in ps ==> |p.tiles| >= 1
    ensures AllContenders(Select(q, ps))
    ensures forall k :: 0 <= k < |Select(q, ps)| ==> Select(q, ps)[k].weight > 0
    decreases |ps|
  {
    if |ps| > 0 {
      assert ps[0] in ps;
      var w := PathWeight(q, ps[0].tiles);
      if PathAdmitted(q, ps[0].tiles) && LeafAdmits(q, ps[0].id, w) {
        AdmittedWeight(q, ps[0].tiles);
      }
      SelectContenders(q, ps[1..]);
    }
  }

  /** In pass 1 every admitted tile adds at least 1, in pass 2 at least 0. */
  lemma {:induction false} AdmittedWeight(q: Query, tiles: seq<Offset>)
    requires IsPass(q.pass)
    requires PathAdmitted(q, tiles)
    ensures q.pass == 1 ==> PathWeight(q, tiles) >= |tiles|
    ensures q.pass == 2 ==> PathWeight(q, tiles) >= 0
    decreases |tiles|
  {
    if |tiles| > 0 {
      AdmittedWeight(q, tiles[..|tiles| - 1]);
    }
  }

  lemma {:induction false} PickContender(cs: seq<Candidate>, best: Candidate, width: int, height: int)
    requires AllContenders(cs) && Contender(best)
    ensures Contender(Pick(cs, best, width, height))
    decreases |cs|
  {
    if |cs| > 0 {
      PickContender(cs[1..], if Replaces(best, cs[0], width, height) then cs[0] else best, width, height);
    }
  }

  // ---- best_piece as written equals the reference fold ----

  /** A displaced-by-nothing step: comparing a contender with "no piece"
      leaves it unchanged. */
  lemma KeepAgainstNoPiece(best: Candidate, width: int, height: int)
    requires Contender(best)
    ensures (if Replaces(best, NoPiece, width, height) then NoPiece else best) == best
  {
  }

  /** best_piece on an internal node reached through the admitted tiles
      `prefix`: a pruned node answers "no piece"; otherwise the answer is
      the reference fold, started from the incoming candidate, over the
      admissible leaves below the node. */
  lemma {:induction false} BestPieceIsPick(q: Query, node: Trie, prefix: seq<Offset>, candidate: Candidate)
    requires ValidQuery(q) && IsPass(q.pass)
    requires node.Branch?
    requires PathAdmitted(q, prefix)
    requires Contender(candidate)
    ensures BestPiece(q, node, PathWeight(q, prefix), candidate)
      == if !Admits(q, node.offset) then NoPiece
         else Pick(Select(q, LeafPathsBelow(node, prefix)), candidate, q.width, q.height)
    decreases node, 1
  {
    if Admits(q, node.offset) {
      var prefix' := prefix + [node.offset];
      assert prefix'[..|prefix'| - 1] == prefix;
      assert PathAdmitted(q, prefix');
      FoldIsPick(q, node.children, 0, prefix', candidate);
    }
  }

  lemma {:induction false} FoldIsPick(q: Query, children: seq<Trie>, i: nat, prefix: seq<Offset>, candidate: Candidate)
    requires ValidQuery(q) && IsPass(q.pass)
    requires i <= |children|
    requires |prefix| >= 1 && PathAdmitted(q, prefix)
    requires Contender(candidate)
    ensures FoldChildren(q, children, i, PathWeight(q, prefix), candidate)
      == Pick(Select(q, LeafPathsFrom(children, i, prefix)), candidate, q.width, q.height)
    decreases children, |children| - i
  {
    if i < |children| {
      var w := PathWeight(q, prefix);
      var child := children[i];
      var mine, rest := LeafPathsBelow(child, prefix), LeafPathsFrom(children, i + 1, prefix);
      SelectAppend(q, mine, rest);
      PickAppend(Select(q, mine), Select(q, rest), candidate, q.width, q.height);
      var next := BestPiece(q, child, w, candidate);
      var after := Pick(Select(q, mine), candidate, q.width, q.height);
      // the comparison after the child returns lands on the reference fold's value
      if child.Leaf? {
        if !LeafAdmits(q, child.id, w) {
          KeepAgainstNoPiece(candidate, q.width, q.height);
        }
      } else {
        BestPieceIsPick(q, child, prefix, candidate);
        if !Admits(q, child.offset) {
          PathsExtendPrefix(child, prefix);
          SelectNone(q, mine);
          KeepAgainstNoPiece(candidate, q.width, q.height);
        } else {
          PickMonotone(Select(q, mine), candidate, q.width, q.height);
        }
      }
      assert (if Replaces(candidate, next, q.width, q.height) then next else candidate) == after;
      PathsExtendPrefix(child, prefix);
      SelectContenders(q, mine);
      PickContender(Select(q, mine), candidate, q.width, q.height);
      FoldIsPick(q, children, i + 1, prefix, after);
    }
  }

  // ---- the call place_piece makes: the whole trie, weight 0, no candidate ----

  /** A candidate that can be laid at the query's anchor: a catalog piece
      still in stock whose every tile passes the pruning test, weighing the
      contributions of its own four tiles, and at least 3 in pass 2. */
  predicate Fits(q: Query, c: Candidate)
    requires ValidQuery(q)
  {
    && IsPieceId(c.id)
    && Remaining(q.inv, c.id) != 0
    && (forall k :: 0 <= k < 4 ==> Admits(q, Shape(c.id)[k]))
    && c.weight == PathWeight(q, Shape(c.id))
    && (q.pass == 2 ==> c.weight >= 3)
  }

  /** The reference fold over the trie's admissible leaves equals best_piece
      on the whole trie. */
  lemma TreeSearchIsPick(q: Query)
    requires ValidQuery(q) && IsPass(q.pass)
    ensures BestPiece(q, Tree, 0, NoPiece) == Pick(Candidates(q), NoPiece, q.width, q.height)
  {
    BestPieceIsPick(q, Tree, [], NoPiece);
    if !Admits(q, Tree.offset) {
      PathsExtendPrefix(Tree, []);
      SelectNone(q, LeafPathsBelow(Tree, []));
    }
  }

  /** Whatever best_piece returns for the whole trie fits at the anchor. */
  lemma TreeSearchFits(q: Query)
    requires ValidQuery(q) && IsPass(q.pass)
    ensures BestPiece(q, Tree, 0, NoPiece) == NoPiece || Fits(q, BestPiece(q, Tree, 0, NoPiece))
  {
    var r := BestPiece(q, Tree, 0, NoPiece);
    TreeSearchIsPick(q);
    PickFrom(Candidates(q), NoPiece, q.width, q.height);
    if r != NoPiece {
      SelectMembers(q, LeafPathsBelow(Tree, []), r);
      var p :| p in LeafPathsBelow(Tree, []) && AdmissibleLeaf(q, p, r);
      TreeAgreesWithCatalog();
      AdmissibleLeafFits(q, p, r);
    }
  }

  /** An admissible leaf whose path holds its catalog shape yields a fitting candidate. */
  lemma AdmissibleLeafFits(q: Query, p: LeafPath, c: Candidate)
    requires ValidQuery(q) && IsPass(q.pass)
    requires AgreesWithCatalog(p)
    requires AdmissibleLeaf(q, p, c)
    ensures Fits(q, c)
  {
    forall k | 0 <= k < 4
      ensures Admits(q, Shape(p.id)[k])
    {
      var i :| 0 <= i < |p.tiles| && p.tiles[i] == Shape(p.id)[k];
    }
    PathWeightPermutation(q, Shape(p.id), p.tiles);
  }

  /** best_piece as place_piece calls it. */
  function SelectPiece(q: Query): (r: Candidate)
    requires ValidQuery(q) && IsPass(q.pass)
    ensures r == NoPiece || Fits(q, r)
  {
    TreeSearchFits(q);
    BestPiece(q, Tree, 0, NoPiece)
  }

  /** The piece chosen at an anchor: "no piece" exactly when no leaf of the
      trie is admissible there; otherwise a heaviest admissible leaf, the
      last of the heaviest in depth-first order on boards under 2000 tiles
      and the first of them on larger boards. */
  lemma SelectPieceChoice(q: Query)
    requires ValidQuery(q) && IsPass(q.pass)
    ensures SelectPiece(q) == NoPiece <==> |Candidates(q)| == 0
    ensures |Candidates(q)| > 0 ==> exists k :: Heaviest(Candidates(q), k, q.width, q.height) && SelectPiece(q) == Candidates(q)[k]
  {
    TreeSearchIsPick(q);
    PathsExtendPrefix(Tree, []);
    SelectContenders(q, LeafPathsBelow(Tree, []));
    PickChoice(Candidates(q), q.width, q.height);
  }
}
