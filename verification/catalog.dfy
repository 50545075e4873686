/** The constant data of the placement engine: the 19 pieces, the hand-built
    trie over their tile offsets, and the neighbour-vector table. */
module Catalog {

  /** A tile position relative to a piece's anchor tile: `dr` rows down, `dc` columns right. */
  datatype Offset = Offset(dr: int, dc: int)

  const NumPieces: int := 19

  /** `id` names a piece of the catalog. */
  predicate IsPieceId(id: int) {
    1 <= id <= NumPieces
  }

  /** A piece id of the catalog. */
  type PieceId = id: int | 1 <= id <= NumPieces witness 1

  /** The piece catalog; piece `id` is at index `id - 1`. */
  const Pieces: seq<seq<Offset>> := [
    [Offset(0, 0), Offset(0, 1), Offset(1, 0), Offset(1, 1)],     // 1
    [Offset(0, 0), Offset(1, 0), Offset(2, 0), Offset(3, 0)],     // 2
    [Offset(0, 0), Offset(0, 1), Offset(0, 2), Offset(0, 3)],     // 3
    [Offset(0, 0), Offset(1, 0), Offset(2, 0), Offset(2, 1)],     // 4
    [Offset(0, 0), Offset(1, -2), Offset(1, -1), Offset(1, 0)],   // 5
    [Offset(0, 0), Offset(0, 1), Offset(1, 1), Offset(2, 1)],     // 6
    [Offset(0, 0), Offset(0, 1), Offset(0, 2), Offset(1, 0)],     // 7
    [Offset(0, 0), Offset(1, 0), Offset(2, -1), Offset(2, 0)],    // 8
    [Offset(0, 0), Offset(0, 1), Offset(0, 2), Offset(1, 2)],     // 9
    [Offset(0, 0), Offset(0, 1), Offset(1, 0), Offset(2, 0)],     // 10
    [Offset(0, 0), Offset(1, 0), Offset(1, 1), Offset(1, 2)],     // 11
    [Offset(0, 0), Offset(1, 0), Offset(1, 1), Offset(2, 0)],     // 12
    [Offset(0, 0), Offset(1, -1), Offset(1, 0), Offset(1, 1)],    // 13
    [Offset(0, 0), Offset(1, -1), Offset(1, 0), Offset(2, 0)],    // 14
    [Offset(0, 0), Offset(0, 1), Offset(0, 2), Offset(1, 1)],     // 15
    [Offset(0, 0), Offset(0, 1), Offset(1, -1), Offset(1, 0)],    // 16
    [Offset(0, 0), Offset(1, 0), Offset(1, 1), Offset(2, 1)],     // 17
    [Offset(0, 0), Offset(0, 1), Offset(1, 1), Offset(1, 2)],     // 18
    [Offset(0, 0), Offset(1, -1), Offset(1, 0), Offset(2, -1)]    // 19
  ]

  /** `o` comes strictly after the anchor in row-major scan order. */
  predicate AfterAnchor(o: Offset) {
    o.dr > 0 || (o.dr == 0 && o.dc > 0)
  }

  predicate Distinct<T(==)>(s: seq<T>) {
    forall i, j :: 0 <= i < j < |s| ==> s[i] != s[j]
  }

  /** A well-formed shape: four pairwise distinct tiles, the anchor first,
      and the three others after the anchor in row-major scan order. */
  predicate WellFormedShape(t: seq<Offset>) {
    && |t| == 4
    && t[0] == Offset(0, 0)
    && t[0] != t[1] && t[0] != t[2] && t[0] != t[3]
    && t[1] != t[2] && t[1] != t[3] && t[2] != t[3]
    && AfterAnchor(t[1]) && AfterAnchor(t[2]) && AfterAnchor(t[3])
  }

  /** The tile offsets of piece `id`, as place_piece reads them. */
  function Shape(id: PieceId): (tiles: seq<Offset>)
    ensures |tiles| == 4 && tiles[0] == Offset(0, 0)
    ensures Distinct(tiles)
    ensures forall i :: 1 <= i < |tiles| ==> AfterAnchor(tiles[i])
  {
    CatalogWellFormed(id);
    Pieces[id - 1]
  }

  lemma CatalogWellFormed(id: PieceId)
    ensures WellFormedShape(Pieces[id - 1])
  {
  }

  /** What `ids(pieceId)` returns: the whole table for 0, one shape for a
      catalog id, and a missing-key failure for anything else. */
  datatype Lookup = WholeCatalog(table: map<int, seq<Offset>>) | OneShape(tiles: seq<Offset>) | KeyError

  function Ids(pieceId: int): (r: Lookup)
    ensures pieceId == 0 <==> r.WholeCatalog?
    ensures IsPieceId(pieceId) <==> r.OneShape?
  {
    if pieceId == 0 then WholeCatalog(map id | 1 <= id <= NumPieces && IsPieceId(id) :: Pieces[id - 1])
    else if IsPieceId(pieceId) then OneShape(Pieces[pieceId - 1])
    else KeyError
  }

  /** `ids(k)` is entry `k` of `ids(0)`, whose keys are exactly the catalog ids,
      and that entry is the shape place_piece stamps. */
  lemma IdsAgree(k: int)
    requires k != 0
    ensures Ids(0).table.Keys == set id | 1 <= id <= NumPieces && IsPieceId(id)
    ensures k in Ids(0).table ==> Ids(k) == OneShape(Ids(0).table[k]) && Ids(k).tiles == Shape(k)
    ensures k !in Ids(0).table ==> Ids(k) == KeyError
  {
  }

  /** A node of the hand-built trie: an internal node holds an offset relative
      to the anchor (not to its parent); a leaf holds a piece id. */
  datatype Trie = Branch(offset: Offset, children: seq<Trie>) | Leaf(id: PieceId)

  /** The trie of resources.py; its root holds the anchor (0,0). */
  const Tree: Trie :=
    Branch(Offset(0, 0), [
      Branch(Offset(1, 0), [
        Branch(Offset(0, 1), [
          Branch(Offset(1, 1), [Leaf(1)]),
          Branch(Offset(2, 0), [Leaf(10)]),
          Branch(Offset(1, -1), [Leaf(16)]),
          Branch(Offset(0, 2), [Leaf(7)])
        ]),
        Branch(Offset(1, 1), [
          Branch(Offset(2, 0), [Leaf(12)]),
          Branch(Offset(1, -1), [Leaf(13)]),
          Branch(Offset(2, 1), [Leaf(17)]),
          Branch(Offset(1, 2), [Leaf(11)])
        ]),
        Branch(Offset(2, 0), [
          Branch(Offset(1, -1), [Leaf(14)]),
          Branch(Offset(2, 1), [Leaf(4)]),
          Branch(Offset(2, -1), [Leaf(8)]),
          Branch(Offset(3, 0), [Leaf(2)])
        ]),
        Branch(Offset(1, -1), [
          Branch(Offset(0, 1), [Leaf(16)]),
          Branch(Offset(2, -1), [Leaf(19)]),
          Branch(Offset(1, -2), [Leaf(5)])
        ])
      ]),
      Branch(Offset(0, 1), [
        Branch(Offset(1, 1), [
          Branch(Offset(2, 1), [Leaf(6)]),
          Branch(Offset(1, 2), [Leaf(18)])
        ]),
        Branch(Offset(0, 2), [
          Branch(Offset(1, 1), [Leaf(15)]),
          Branch(Offset(1, 2), [Leaf(9)]),
          Branch(Offset(0, 3), [Leaf(3)])
        ])
      ])
    ])

  /** One root-to-leaf path: the offsets of the internal nodes passed, in
      order from the root, and the id held by the leaf. */
  datatype LeafPath = LeafPath(tiles: seq<Offset>, id: PieceId)

  /** The leaves below `t`, reached through the internal offsets `prefix`,
      in the depth-first order in which best_piece visits them. */
  function LeafPathsBelow(t: Trie, prefix: seq<Offset>): seq<LeafPath>
    decreases t
  {
    match t
    case Leaf(id) => [LeafPath(prefix, id)]
    case Branch(o, children) => LeafPathsFrom(children, 0, prefix + [o])
  }

  /** The leaves below `children[i..]`, in order. */
  function LeafPathsFrom(children: seq<Trie>, i: nat, prefix: seq<Offset>): seq<LeafPath>
    requires i <= |children|
    decreases children, |children| - i
  {
    if i == |children| then [] else LeafPathsBelow(children[i], prefix) + LeafPathsFrom(children, i + 1, prefix)
  }

  /** The twenty root-to-leaf paths of `Tree`, in depth-first order. */
  const TreeLeaves: seq<LeafPath> := [
      LeafPath([Offset(0, 0), Offset(1, 0), Offset(0, 1), Offset(1, 1)], 1),
      LeafPath([Offset(0, 0), Offset(1, 0), Offset(0, 1), Offset(2, 0)], 10),
      LeafPath([Offset(0, 0), Offset(1, 0), Offset(0, 1), Offset(1, -1)], 16),
      LeafPath([Offset(0, 0), Offset(1, 0), Offset(0, 1), Offset(0, 2)], 7),
      LeafPath([Offset(0, 0), Offset(1, 0), Offset(1, 1), Offset(2, 0)], 12),
      LeafPath([Offset(0, 0), Offset(1, 0), Offset(1, 1), Offset(1, -1)], 13),
      LeafPath([Offset(0, 0), Offset(1, 0), Offset(1, 1), Offset(2, 1)], 17),
      LeafPath([Offset(0, 0), Offset(1, 0), Offset(1, 1), Offset(1, 2)], 11),
      LeafPath([Offset(0, 0), Offset(1, 0), Offset(2, 0), Offset(1, -1)], 14),
      LeafPath([Offset(0, 0), Offset(1, 0), Offset(2, 0), Offset(2, 1)], 4),
      LeafPath([Offset(0, 0), Offset(1, 0), Offset(2, 0), Offset(2, -1)], 8),
      LeafPath([Offset(0, 0), Offset(1, 0), Offset(2, 0), Offset(3, 0)], 2),
      LeafPath([Offset(0, 0), Offset(1, 0), Offset(1, -1), Offset(0, 1)], 16),
      LeafPath([Offset(0, 0), Offset(1, 0), Offset(1, -1), Offset(2, -1)], 19),
      LeafPath([Offset(0, 0), Offset(1, 0), Offset(1, -1), Offset(1, -2)], 5),
      LeafPath([Offset(0, 0), Offset(0, 1), Offset(1, 1), Offset(2, 1)], 6),
      LeafPath([Offset(0, 0), Offset(0, 1), Offset(1, 1), Offset(1, 2)], 18),
      LeafPath([Offset(0, 0), Offset(0, 1), Offset(0, 2), Offset(1, 1)], 15),
      LeafPath([Offset(0, 0), Offset(0, 1), Offset(0, 2), Offset(1, 2)], 9),
      LeafPath([Offset(0, 0), Offset(0, 1), Offset(0, 2), Offset(0, 3)], 3)
  ]

  // Evaluation of the leaf paths of `Tree`, one internal node at a time.

  lemma LeavesUnder00()
    ensures LeafPathsBelow(Tree.children[0].children[0], [Offset(0, 0), Offset(1, 0)]) == TreeLeaves[0..4]
  {
    var node := Tree.children[0].children[0];
    var prefix := [Offset(0, 0), Offset(1, 0), Offset(0, 1)];
    assert [Offset(0, 0), Offset(1, 0)] + [Offset(0, 1)] == prefix;
    assert prefix + [Offset(1, 1)] == TreeLeaves[0].tiles;
    assert prefix + [Offset(2, 0)] == TreeLeaves[1].tiles;
    assert prefix + [Offset(1, -1)] == TreeLeaves[2].tiles;
    assert prefix + [Offset(0, 2)] == TreeLeaves[3].tiles;
    assert LeafPathsFrom(node.children, 4, prefix) == TreeLeaves[4..4];
    assert LeafPathsFrom(node.children, 3, prefix) == TreeLeaves[3..4];
    assert LeafPathsFrom(node.children, 2, prefix) == TreeLeaves[2..4];
    assert LeafPathsFrom(node.children, 1, prefix) == TreeLeaves[1..4];
    assert LeafPathsFrom(node.children, 0, prefix) == TreeLeaves[0..4];
  }

  lemma LeavesUnder01()
    ensures LeafPathsBelow(Tree.children[0].children[1], [Offset(0, 0), Offset(1, 0)]) == TreeLeaves[4..8]
  {
    var node := Tree.children[0].children[1];
    var prefix := [Offset(0, 0), Offset(1, 0), Offset(1, 1)];
    assert [Offset(0, 0), Offset(1, 0)] + [Offset(1, 1)] == prefix;
    assert prefix + [Offset(2, 0)] == TreeLeaves[4].tiles;
    assert prefix + [Offset(1, -1)] == TreeLeaves[5].tiles;
    assert prefix + [Offset(2, 1)] == TreeLeaves[6].tiles;
    assert prefix + [Offset(1, 2)] == TreeLeaves[7].tiles;
    assert LeafPathsFrom(node.children, 4, prefix) == TreeLeaves[8..8];
    assert LeafPathsFrom(node.children, 3, prefix) == TreeLeaves[7..8];
    assert LeafPathsFrom(node.children, 2, prefix) == TreeLeaves[6..8];
    assert LeafPathsFrom(node.children, 1, prefix) == TreeLeaves[5..8];
    assert LeafPathsFrom(node.children, 0, prefix) == TreeLeaves[4..8];
  }

  lemma LeavesUnder02()
    ensures LeafPathsBelow(Tree.children[0].children[2], [Offset(0, 0), Offset(1, 0)]) == TreeLeaves[8..12]
  {
    var node := Tree.children[0].children[2];
    var prefix := [Offset(0, 0), Offset(1, 0), Offset(2, 0)];
    assert [Offset(0, 0), Offset(1, 0)] + [Offset(2, 0)] == prefix;
    assert prefix + [Offset(1, -1)] == TreeLeaves[8].tiles;
    assert prefix + [Offset(2, 1)] == TreeLeaves[9].tiles;
    assert prefix + [Offset(2, -1)] == TreeLeaves[10].tiles;
    assert prefix + [Offset(3, 0)] == TreeLeaves[11].tiles;
    assert LeafPathsFrom(node.children, 4, prefix) == TreeLeaves[12..12];
    assert LeafPathsFrom(node.children, 3, prefix) == TreeLeaves[11..12];
    assert LeafPathsFrom(node.children, 2, prefix) == TreeLeaves[10..12];
    assert LeafPathsFrom(node.children, 1, prefix) == TreeLeaves[9..12];
    assert LeafPathsFrom(node.children, 0, prefix) == TreeLeaves[8..12];
  }

  lemma LeavesUnder03()
    ensures LeafPathsBelow(Tree.children[0].children[3], [Offset(0, 0), Offset(1, 0)]) == TreeLeaves[12..15]
  {
    var node := Tree.children[0].children[3];
    var prefix := [Offset(0, 0), Offset(1, 0), Offset(1, -1)];
    assert [Offset(0, 0), Offset(1, 0)] + [Offset(1, -1)] == prefix;
    assert prefix + [Offset(0, 1)] == TreeLeaves[12].tiles;
    assert prefix + [Offset(2, -1)] == TreeLeaves[13].tiles;
    assert prefix + [Offset(1, -2)] == TreeLeaves[14].tiles;
    assert LeafPathsFrom(node.children, 3, prefix) == TreeLeaves[15..15];
    assert LeafPathsFrom(node.children, 2, prefix) == TreeLeaves[14..15];
    assert LeafPathsFrom(node.children, 1, prefix) == TreeLeaves[13..15];
    assert LeafPathsFrom(node.children, 0, prefix) == TreeLeaves[12..15];
  }

  lemma LeavesUnder10()
    ensures LeafPathsBelow(Tree.children[1].children[0], [Offset(0, 0), Offset(0, 1)]) == TreeLeaves[15..17]
  {
    var node := Tree.children[1].children[0];
    var prefix := [Offset(0, 0), Offset(0, 1), Offset(1, 1)];
    assert [Offset(0, 0), Offset(0, 1)] + [Offset(1, 1)] == prefix;
    assert prefix + [Offset(2, 1)] == TreeLeaves[15].tiles;
    assert prefix + [Offset(1, 2)] == TreeLeaves[16].tiles;
    assert LeafPathsFrom(node.children, 2, prefix) == TreeLeaves[17..17];
    assert LeafPathsFrom(node.children, 1, prefix) == TreeLeaves[16..17];
    assert LeafPathsFrom(node.children, 0, prefix) == TreeLeaves[15..17];
  }

  lemma LeavesUnder11()
    ensures LeafPathsBelow(Tree.children[1].children[1], [Offset(0, 0), Offset(0, 1)]) == TreeLeaves[17..20]
  {
    var node := Tree.children[1].children[1];
    var prefix := [Offset(0, 0), Offset(0, 1), Offset(0, 2)];
    assert [Offset(0, 0), Offset(0, 1)] + [Offset(0, 2)] == prefix;
    assert prefix + [Offset(1, 1)] == TreeLeaves[17].tiles;
    assert prefix + [Offset(1, 2)] == TreeLeaves[18].tiles;
    assert prefix + [Offset(0, 3)] == TreeLeaves[19].tiles;
    assert LeafPathsFrom(node.children, 3, prefix) == TreeLeaves[20..20];
    assert LeafPathsFrom(node.children, 2, prefix) == TreeLeaves[19..20];
    assert LeafPathsFrom(node.children, 1, prefix) == TreeLeaves[18..20];
    assert LeafPathsFrom(node.children, 0, prefix) == TreeLeaves[17..20];
  }

  lemma LeavesUnder0()
    ensures LeafPathsBelow(Tree.children[0], [Offset(0, 0)]) == TreeLeaves[0..15]
  {
    var node := Tree.children[0];
    var prefix := [Offset(0, 0), Offset(1, 0)];
    assert [Offset(0, 0)] + [Offset(1, 0)] == prefix;
    LeavesUnder00(); LeavesUnder01(); LeavesUnder02(); LeavesUnder03();
    assert LeafPathsFrom(node.children, 4, prefix) == TreeLeaves[15..15];
    assert LeafPathsFrom(node.children, 3, prefix) == TreeLeaves[12..15];
    assert LeafPathsFrom(node.children, 2, prefix) == TreeLeaves[8..15];
    assert LeafPathsFrom(node.children, 1, prefix) == TreeLeaves[4..15];
    assert LeafPathsFrom(node.children, 0, prefix) == TreeLeaves[0..15];
  }

  lemma LeavesUnder1()
    ensures LeafPathsBelow(Tree.children[1], [Offset(0, 0)]) == TreeLeaves[15..20]
  {
    var node := Tree.children[1];
    var prefix := [Offset(0, 0), Offset(0, 1)];
    assert [Offset(0, 0)] + [Offset(0, 1)] == prefix;
    LeavesUnder10(); LeavesUnder11();
    assert LeafPathsFrom(node.children, 2, prefix) == TreeLeaves[20..20];
    assert LeafPathsFrom(node.children, 1, prefix) == TreeLeaves[17..20];
    assert LeafPathsFrom(node.children, 0, prefix) == TreeLeaves[15..20];
  }

  /** The depth-first leaf order of `Tree` is `TreeLeaves`. */
  lemma TreeLeavesExact()
    ensures LeafPathsBelow(Tree, []) == TreeLeaves
  {
    assert [] + [Offset(0, 0)] == [Offset(0, 0)];
    LeavesUnder0();
    LeavesUnder1();
    assert LeafPathsFrom(Tree.children, 2, [Offset(0, 0)]) == TreeLeaves[20..20];
    assert LeafPathsFrom(Tree.children, 1, [Offset(0, 0)]) == TreeLeaves[15..20];
    assert LeafPathsFrom(Tree.children, 0, [Offset(0, 0)]) == TreeLeaves[0..20];
  }

  /** A root-to-leaf path agrees with the catalog: it passes four tiles, the
      anchor first, and every tile of the leaf's shape is among them. */
  predicate AgreesWithCatalog(p: LeafPath) {
    && |p.tiles| == 4
    && p.tiles[0] == Offset(0, 0)
    && forall k :: 0 <= k < 4 ==> Shape(p.id)[k] in p.tiles
  }

  // The leaves are checked five at a time, each group in its own lemma, so
  // that no single proof has to unfold all nineteen paths at once.

  lemma TreeLeavesAgree0(i: int)
    requires 0 <= i < 5
    ensures AgreesWithCatalog(TreeLeaves[i])
  {
    if i == 0 {} else if i == 1 {} else if i == 2 {} else if i == 3 {} else {}
  }

  lemma TreeLeavesAgree5(i: int)
    requires 5 <= i < 10
    ensures AgreesWithCatalog(TreeLeaves[i])
  {
    if i == 5 {} else if i == 6 {} else if i == 7 {} else if i == 8 {} else {}
  }

  lemma TreeLeavesAgree10(i: int)
    requires 10 <= i < 15
    ensures AgreesWithCatalog(TreeLeaves[i])
  {
    if i == 10 {} else if i == 11 {} else if i == 12 {} else if i == 13 {} else {}
  }

  lemma TreeLeavesAgree15(i: int)
    requires 15 <= i < 20
    ensures AgreesWithCatalog(TreeLeaves[i])
  {
    if i == 15 {} else if i == 16 {} else if i == 17 {} else if i == 18 {} else {}
  }

  lemma TreeLeavesAgree()
    ensures forall i :: 0 <= i < |TreeLeaves| ==> AgreesWithCatalog(TreeLeaves[i])
  {
    forall i | 0 <= i < |TreeLeaves|
      ensures AgreesWithCatalog(TreeLeaves[i])
    {
      if i < 5 {
        TreeLeavesAgree0(i);
      } else if i < 10 {
        TreeLeavesAgree5(i);
      } else if i < 15 {
        TreeLeavesAgree10(i);
      } else {
        TreeLeavesAgree15(i);
      }
    }
  }

  /** Every root-to-leaf path of the trie visits the anchor and the three other
      tiles of the leaf's catalog shape, and nothing else. */
  lemma TreeAgreesWithCatalog()
    ensures |LeafPathsBelow(Tree, [])| == 20
    ensures forall p :: p in LeafPathsBelow(Tree, []) ==> AgreesWithCatalog(p)
  {
    TreeLeavesExact();
    TreeLeavesAgree();
  }

  /** The ids of a sequence of leaves, in order. */
  function LeafIds(ps: seq<LeafPath>): (ids: seq<int>)
    ensures |ids| == |ps|
    ensures forall i :: 0 <= i < |ps| ==> ids[i] == ps[i].id
  {
    seq(|ps|, i requires 0 <= i < |ps| => ps[i].id)
  }

  /** The ids at the leaves of `Tree`, in depth-first order. */
  const TreeLeafIds: seq<int> := [1, 10, 16, 7, 12, 13, 17, 11, 14, 4, 8, 2, 16, 19, 5, 6, 18, 15, 9, 3]

  lemma TreeLeafIdsExact()
    ensures LeafIds(TreeLeaves) == TreeLeafIds
  {
    assert |LeafIds(TreeLeaves)| == |TreeLeafIds|;
    forall i | 0 <= i < 20
      ensures LeafIds(TreeLeaves)[i] == TreeLeafIds[i]
    {
    }
  }

  /** Every catalog id is a leaf of the trie; id 16 is a leaf twice, on two
      different paths, and every other id once. */
  lemma TreeCoversCatalog()
    ensures LeafIds(LeafPathsBelow(Tree, [])) == TreeLeafIds
    ensures forall id: PieceId :: id in LeafIds(LeafPathsBelow(Tree, []))
    ensures LeafPathsBelow(Tree, [])[2].tiles != LeafPathsBelow(Tree, [])[12].tiles
  {
    TreeLeavesExact();
    TreeLeafIdsExact();
    forall id: PieceId
      ensures id in TreeLeafIds
    {
      TreeLeafIdListed(id);
    }
    TwoPathsToSixteen();
  }

  lemma TwoPathsToSixteen()
    ensures TreeLeaves[2].tiles != TreeLeaves[12].tiles
  {
    assert TreeLeaves[2].tiles[2] != TreeLeaves[12].tiles[2];
  }

  lemma TreeLeafIdListed(id: PieceId)
    ensures id in TreeLeafIds
  {
  }

  /** The neighbour vectors of the pass-1 bonus (`lrud`): left, right, left, right. */
  const Lrud: seq<Offset> := [Offset(0, -1), Offset(0, 1), Offset(0, -1), Offset(0, 1)]
}
