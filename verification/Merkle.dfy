/** Merkle trees over an arbitrary pair hash: construction, proofs, and what a root commits to. */
module Merkle {
  import opened Base

  type PairHash = (Hash, Hash) -> Hash

  datatype ProofNode = ProofNode(hash: Hash, isLeftSibling: bool)

  datatype MerkleProof = MerkleProof(leafIndex: nat, leafHash: Hash, nodes: seq<ProofNode>, root: Hash)

  datatype MerkleTree = MerkleTree(levels: seq<seq<Hash>>, leafCount: nat, root: Hash)

  // ----- the tree of a leaf list

  /** The right child of node i: its neighbour, or itself at the end of an odd level. */
  function Right(level: seq<Hash>, i: nat): Hash
    requires 2 * i < |level|
  {
    if 2 * i + 1 < |level| then level[2 * i + 1] else level[2 * i]
  }

  function Parent(h: PairHash, level: seq<Hash>, i: nat): Hash
    requires 2 * i < |level|
  {
    h(level[2 * i], Right(level, i))
  }

  function Up(h: PairHash, level: seq<Hash>): seq<Hash> {
    seq((|level| + 1) / 2, i requires 0 <= i < (|level| + 1) / 2 => Parent(h, level, i))
  }

  function Root(h: PairHash, level: seq<Hash>): Hash
    decreases |level|
  {
    if |level| == 0 then ZERO_HASH
    else if |level| == 1 then level[0]
    else Root(h, Up(h, level))
  }

  function Levels(h: PairHash, level: seq<Hash>): (levels: seq<seq<Hash>>)
    ensures |levels| >= 1 && levels[0] == level
    decreases |level|
  {
    if |level| <= 1 then [level] else [level] + Levels(h, Up(h, level))
  }

  function TreeOf(h: PairHash, leaves: seq<Hash>): MerkleTree {
    MerkleTree(Levels(h, leaves), |leaves|, Root(h, leaves))
  }

  /** The sibling of node i; the last node of an odd level is its own right sibling. */
  function Sibling(level: seq<Hash>, i: nat): ProofNode
    requires i < |level|
  {
    if i % 2 == 1 then ProofNode(level[i - 1], true)
    else if i + 1 < |level| then ProofNode(level[i + 1], false)
    else ProofNode(level[i], false)
  }

  function Path(h: PairHash, level: seq<Hash>, i: nat): seq<ProofNode>
    requires i < |level|
    decreases |level|
  {
    if |level| == 1 then [] else [Sibling(level, i)] + Path(h, Up(h, level), i / 2)
  }

  function Combine(h: PairHash, current: Hash, node: ProofNode): Hash {
    if node.isLeftSibling then h(node.hash, current) else h(current, node.hash)
  }

  function Climb(h: PairHash, current: Hash, nodes: seq<ProofNode>): Hash
    decreases |nodes|
  {
    if nodes == [] then current else Climb(h, Combine(h, current, nodes[0]), nodes[1..])
  }

  lemma PairRoot(h: PairHash, x: Hash, y: Hash)
    ensures Root(h, [x, y]) == h(x, y)
  {
    assert Up(h, [x, y]) == [h(x, y)];
  }

  /** Small trees spelled out: nothing, a leaf, a pair, and a last leaf paired with itself. */
  lemma SmallRoots(h: PairHash, x: Hash, y: Hash, z: Hash)
    ensures Root(h, []) == 0 && Root(h, [x]) == x && Root(h, [x, y]) == h(x, y)
    ensures Root(h, [x, y, z]) == h(h(x, y), h(z, z))
  {
    PairRoot(h, x, y);
    assert Up(h, [x, y, z]) == [h(x, y), h(z, z)];
    PairRoot(h, h(x, y), h(z, z));
  }

  // ----- completeness

  /** The path of a leaf leads from it to the root. */
  lemma {:induction false} PathReachesRoot(h: PairHash, leaves: seq<Hash>, i: nat)
    requires i < |leaves|
    ensures Climb(h, leaves[i], Path(h, leaves, i)) == Root(h, leaves)
    decreases |leaves|
  {
    if |leaves| > 1 {
      assert Up(h, leaves)[i / 2] == Parent(h, leaves, i / 2) == Combine(h, leaves[i], Sibling(leaves, i));
      PathReachesRoot(h, Up(h, leaves), i / 2);
    }
  }

  /** The proof nodes have the shape the position dictates: one per level, on the side its bit says. */
  predicate OnPath(n: nat, i: nat, nodes: seq<ProofNode>)
    decreases n
  {
    if n <= 1 then nodes == []
    else nodes != [] && nodes[0].isLeftSibling == (i % 2 == 1) && OnPath((n + 1) / 2, i / 2, nodes[1..])
  }

  lemma {:induction false} PathIsOnPath(h: PairHash, leaves: seq<Hash>, i: nat)
    requires i < |leaves|
    ensures OnPath(|leaves|, i, Path(h, leaves, i))
    decreases |leaves|
  {
    if |leaves| > 1 {
      PathIsOnPath(h, Up(h, leaves), i / 2);
    }
  }

  // ----- binding

  /** Two different pairs with one hash. */
  datatype Collision = Collision(a: Hash, b: Hash, c: Hash, d: Hash)

  predicate IsCollision(h: PairHash, x: Collision) {
    (x.a, x.b) != (x.c, x.d) && h(x.a, x.b) == h(x.c, x.d)
  }

  function FirstDifference(xs: seq<Hash>, ys: seq<Hash>): (k: nat)
    requires |xs| == |ys| && xs != ys
    ensures k < |xs| && xs[k] != ys[k]
  {
    if xs[0] != ys[0] then 0 else 1 + FirstDifference(xs[1..], ys[1..])
  }

  /** Two different leaf lists of one length with one root give away a collision of the pair hash. */
  function CollisionFromRoots(h: PairHash, xs: seq<Hash>, ys: seq<Hash>): (x: Collision)
    requires |xs| == |ys| && xs != ys && Root(h, xs) == Root(h, ys)
    ensures IsCollision(h, x)
    decreases |xs|
  {
    var ux, uy := Up(h, xs), Up(h, ys);
    if ux != uy then CollisionFromRoots(h, ux, uy)
    else
      var i := FirstDifference(xs, ys) / 2;
      assert ux[i] == uy[i];
      Collision(xs[2 * i], Right(xs, i), ys[2 * i], Right(ys, i))
  }

  /** A proof of the right shape that verifies but is not the generated one gives away a collision. */
  function CollisionFromProof(h: PairHash, leaves: seq<Hash>, i: nat, leaf: Hash, nodes: seq<ProofNode>): (x: Collision)
    requires i < |leaves| && OnPath(|leaves|, i, nodes)
    requires Climb(h, leaf, nodes) == Root(h, leaves)
    requires leaf != leaves[i] || nodes != Path(h, leaves, i)
    ensures IsCollision(h, x)
    decreases |leaves|
  {
    var up := Up(h, leaves);
    var parent := Combine(h, leaf, nodes[0]);
    if parent != up[i / 2] || nodes[1..] != Path(h, up, i / 2) then
      CollisionFromProof(h, up, i / 2, parent, nodes[1..])
    else
      var genuine := Sibling(leaves, i);
      assert up[i / 2] == Parent(h, leaves, i / 2) == Combine(h, leaves[i], genuine);
      assert leaf != leaves[i] || nodes[0] != genuine by {
        assert nodes == [nodes[0]] + nodes[1..];
      }
      if i % 2 == 1 then Collision(nodes[0].hash, leaf, genuine.hash, leaves[i])
      else Collision(leaf, nodes[0].hash, leaves[i], genuine.hash)
  }

  /** Roots commit to lists of one length, and a verified proof to its leaf and siblings, unless a collision is
      known. */
  lemma RootsBind(h: PairHash, xs: seq<Hash>, ys: seq<Hash>)
    requires |xs| == |ys| && Root(h, xs) == Root(h, ys)
    ensures xs == ys || exists x :: IsCollision(h, x)
  {
    if xs != ys {
      assert IsCollision(h, CollisionFromRoots(h, xs, ys));
    }
  }

  lemma ProofsBind(h: PairHash, leaves: seq<Hash>, i: nat, leaf: Hash, nodes: seq<ProofNode>)
    requires i < |leaves| && OnPath(|leaves|, i, nodes)
    ensures leaf == leaves[i] && nodes == Path(h, leaves, i) ==> Climb(h, leaf, nodes) == Root(h, leaves)
    ensures Climb(h, leaf, nodes) == Root(h, leaves) ==>
              (leaf == leaves[i] && nodes == Path(h, leaves, i)) || exists x :: IsCollision(h, x)
  {
    PathReachesRoot(h, leaves, i);
    if Climb(h, leaf, nodes) == Root(h, leaves) && (leaf != leaves[i] || nodes != Path(h, leaves, i)) {
      assert IsCollision(h, CollisionFromProof(h, leaves, i, leaf, nodes));
    }
  }

  // ----- proofs of any shape

  /** How many levels lie above a level of n nodes. */
  function Depth(n: nat): nat {
    if n <= 1 then 0 else 1 + Depth((n + 1) / 2)
  }

  /** The child a proof node points at: the right one after a left sibling, if there is one. */
  function Down(n: nat, i: nat, node: ProofNode): nat {
    if node.isLeftSibling && 2 * i + 1 < n then 2 * i + 1 else 2 * i
  }

  /** Where the topmost nodes of a proof lead, from the root down to a level of n nodes. */
  function Spot(n: nat, nodes: seq<ProofNode>): (i: nat)
    requires n > 0 && Depth(n) <= |nodes|
    ensures i < n
    decreases n
  {
    if n == 1 then 0 else Down(n, Spot((n + 1) / 2, nodes), nodes[|nodes| - Depth(n)])
  }

  lemma {:induction false} ClimbLast(h: PairHash, leaf: Hash, nodes: seq<ProofNode>)
    requires nodes != []
    ensures var n := |nodes| - 1; Climb(h, leaf, nodes) == Combine(h, Climb(h, leaf, nodes[..n]), nodes[n])
    decreases |nodes|
  {
    var n := |nodes| - 1;
    if n > 0 {
      ClimbLast(h, Combine(h, leaf, nodes[0]), nodes[1..]);
      assert nodes[1..][..n - 1] == nodes[..n][1..];
    }
  }

  /** A pair that hashes to a parent is the parent's children, or a collision. */
  lemma ParentBinds(h: PairHash, level: seq<Hash>, i: nat, current: Hash, node: ProofNode) returns (x: Collision)
    requires 2 * i < |level| && Combine(h, current, node) == Parent(h, level, i)
    ensures IsCollision(h, x) || current == level[Down(|level|, i, node)]
  {
    var left, right := level[2 * i], Right(level, i);
    x := if node.isLeftSibling then Collision(node.hash, current, left, right)
         else Collision(current, node.hash, left, right);
  }

  /** A proof with more nodes than the tree has levels climbs through a leaf, where its topmost nodes say. */
  lemma {:induction false} LongProof(h: PairHash, leaves: seq<Hash>, leaf: Hash, nodes: seq<ProofNode>)
    returns (x: Collision)
    requires leaves != [] && Depth(|leaves|) <= |nodes| && Climb(h, leaf, nodes) == Root(h, leaves)
    ensures IsCollision(h, x) ||
            Climb(h, leaf, nodes[..|nodes| - Depth(|leaves|)]) == leaves[Spot(|leaves|, nodes)]
    decreases |leaves|
  {
    x := Collision(0, 0, 0, 0);
    if |leaves| == 1 {
      assert nodes[..|nodes|] == nodes;
    } else {
      var up := Up(h, leaves);
      x := LongProof(h, up, leaf, nodes);
      if !IsCollision(h, x) {
        var n := |nodes| - Depth(|leaves|);
        var prefix, i := nodes[..n + 1], Spot(|up|, nodes);
        ClimbLast(h, leaf, prefix);
        assert prefix[..n] == nodes[..n];
        assert up[i] == Parent(h, leaves, i);
        x := ParentBinds(h, leaves, i, Climb(h, leaf, nodes[..n]), nodes[n]);
      }
    }
  }

  lemma {:induction false} LevelFacts(h: PairHash, leaves: seq<Hash>, k: nat)
    requires leaves != [] && k <= Depth(|leaves|)
    ensures |Levels(h, leaves)| == Depth(|leaves|) + 1
    ensures var level := Levels(h, leaves)[k];
            level != [] && Depth(|level|) == Depth(|leaves|) - k && Root(h, level) == Root(h, leaves)
    decreases |leaves|
  {
    if |leaves| > 1 {
      LevelFacts(h, Up(h, leaves), if k == 0 then 0 else k - 1);
    }
  }

  /** With at most one node per level, the leaf is the tree's node that many levels below the root, where the directions
      lead; with more nodes than levels, the leaf hashes into one of the tree's leaves. */
  ghost predicate Shows(h: PairHash, leaves: seq<Hash>, leaf: Hash, nodes: seq<ProofNode>)
    requires leaves != []
  {
    var d := Depth(|leaves|);
    if |nodes| > d then Climb(h, leaf, nodes[..|nodes| - d]) == leaves[Spot(|leaves|, nodes)]
    else
      d - |nodes| < |Levels(h, leaves)| &&
      var level := Levels(h, leaves)[d - |nodes|];
      level != [] && Depth(|level|) == |nodes| && leaf == level[Spot(|level|, nodes)]
  }

  /** What an accepted proof of any shape shows, unless it gives away a collision. */
  lemma AnyProofBinds(h: PairHash, leaves: seq<Hash>, leaf: Hash, nodes: seq<ProofNode>) returns (x: Collision)
    requires leaves != [] && Climb(h, leaf, nodes) == Root(h, leaves)
    ensures IsCollision(h, x) || Shows(h, leaves, leaf, nodes)
  {
    var d := Depth(|leaves|);
    if |nodes| <= d {
      LevelFacts(h, leaves, d - |nodes|);
      x := LongProof(h, Levels(h, leaves)[d - |nodes|], leaf, nodes);
      assert nodes[..0] == [];
    } else {
      x := LongProof(h, leaves, leaf, nodes);
    }
  }

  /** So the check does not tell a leaf from an inner node: every node of every level has an accepted proof. */
  lemma InnerNodesAccepted(h: PairHash, leaves: seq<Hash>, k: nat, i: nat)
    requires leaves != [] && k <= Depth(|leaves|) && k < |Levels(h, leaves)| && i < |Levels(h, leaves)[k]|
    ensures var level := Levels(h, leaves)[k]; Climb(h, level[i], Path(h, level, i)) == Root(h, leaves)
  {
    LevelFacts(h, leaves, k);
    PathReachesRoot(h, Levels(h, leaves)[k], i);
  }

  /** Lists of different lengths are not told apart: repeating the last leaf of an odd list keeps the root. */
  lemma RepeatedLastLeaf(h: PairHash, leaves: seq<Hash>)
    requires |leaves| % 2 == 1 && |leaves| >= 3
    ensures Root(h, leaves + [leaves[|leaves| - 1]]) == Root(h, leaves)
  {
    var longer := leaves + [leaves[|leaves| - 1]];
    SameUp(h, leaves, longer);
    RootOfUp(h, leaves);
    RootOfUp(h, longer);
  }

  lemma RootOfUp(h: PairHash, level: seq<Hash>)
    requires |level| > 1
    ensures Root(h, level) == Root(h, Up(h, level))
  {}

  lemma SameUp(h: PairHash, leaves: seq<Hash>, longer: seq<Hash>)
    requires |leaves| % 2 == 1 && longer == leaves + [leaves[|leaves| - 1]]
    ensures Up(h, longer) == Up(h, leaves)
  {
    var n := (|leaves| + 1) / 2;
    assert |longer| == |leaves| + 1 && (|longer| + 1) / 2 == n;
    forall i | 0 <= i < n ensures Up(h, longer)[i] == Up(h, leaves)[i] {
      SameParent(h, leaves, longer, i);
    }
  }

  lemma SameParent(h: PairHash, leaves: seq<Hash>, longer: seq<Hash>, i: nat)
    requires |leaves| % 2 == 1 && longer == leaves + [leaves[|leaves| - 1]] && 2 * i < |leaves|
    ensures Parent(h, longer, i) == Parent(h, leaves, i)
  {}

  // ----- the loops

  method NextLevel(h: PairHash, level: seq<Hash>) returns (up: seq<Hash>)
    ensures up == Up(h, level)
  {
    up := [];
    var i := 0;
    while i < |level|
      invariant i == 2 * |up| && |up| <= (|level| + 1) / 2
      invariant forall k :: 0 <= k < |up| ==> up[k] == Parent(h, level, k)
    {
      if i + 1 < |level| {
        up := up + [h(level[i], level[i + 1])];
      } else {
        up := up + [h(level[i], level[i])];
      }
      i := i + 2;
    }
  }

  method Build(h: PairHash, leaves: seq<Hash>) returns (tree: MerkleTree)
    ensures tree == TreeOf(h, leaves)
  {
    if leaves == [] {
      return MerkleTree([[]], 0, ZERO_HASH);
    }
    var level := leaves;
    var levels := [level];
    while |level| > 1
      invariant |level| >= 1
      invariant |levels| >= 1 && levels[|levels| - 1] == level
      invariant levels[..|levels| - 1] + Levels(h, level) == Levels(h, leaves)
      invariant Root(h, level) == Root(h, leaves)
      decreases |level|
    {
      var up := NextLevel(h, level);
      levels := levels + [up];
      level := up;
    }
    tree := MerkleTree(levels, |leaves|, level[0]);
  }

  /** The block body's own computation of the root. */
  method TransactionsRoot(h: PairHash, transactionHashes: seq<Hash>) returns (root: Hash)
    ensures root == Root(h, transactionHashes)
  {
    if transactionHashes == [] {
      return ZERO_HASH;
    }
    var hashes := transactionHashes;
    while |hashes| > 1
      invariant |hashes| >= 1 && Root(h, hashes) == Root(h, transactionHashes)
      decreases |hashes|
    {
      hashes := NextLevel(h, hashes);
    }
    root := hashes[0];
  }

  lemma {:induction false} LevelsStep(h: PairHash, leaves: seq<Hash>, k: nat)
    requires k < |Levels(h, leaves)|
    ensures k + 1 < |Levels(h, leaves)| ==>
              |Levels(h, leaves)[k]| > 1 && Levels(h, leaves)[k + 1] == Up(h, Levels(h, leaves)[k])
    ensures k + 1 == |Levels(h, leaves)| ==> |Levels(h, leaves)[k]| <= 1
    decreases |leaves|
  {
    if |leaves| > 1 && k > 0 {
      LevelsStep(h, Up(h, leaves), k - 1);
    }
  }

  method SiblingNode(level: seq<Hash>, index: nat) returns (node: ProofNode)
    requires index < |level|
    ensures node == Sibling(level, index)
  {
    var isLeft := index % 2 == 0;
    var sibling := if isLeft then index + 1 else index - 1;
    if sibling < |level| {
      node := ProofNode(level[sibling], !isLeft);
    } else {
      node := ProofNode(level[index], false);
    }
  }

  lemma PathStep(h: PairHash, level: seq<Hash>, i: nat, nodes: seq<ProofNode>)
    requires |level| > 1 && i < |level|
    ensures nodes + Path(h, level, i) == nodes + [Sibling(level, i)] + Path(h, Up(h, level), i / 2)
  {
    var sibling, rest := [Sibling(level, i)], Path(h, Up(h, level), i / 2);
    assert nodes + (sibling + rest) == nodes + sibling + rest;
  }

  /** A proof exists exactly for the indexes of the tree, and it is the leaf's path. */
  method GenerateProof(ghost h: PairHash, ghost leaves: seq<Hash>, tree: MerkleTree, leafIndex: nat)
    returns (proof: Option<MerkleProof>)
    requires tree == TreeOf(h, leaves)
    ensures leafIndex >= |leaves| ==> proof == None
    ensures leafIndex < |leaves| ==>
              proof == Some(MerkleProof(leafIndex, leaves[leafIndex], Path(h, leaves, leafIndex), Root(h, leaves)))
  {
    if leafIndex >= tree.leafCount {
      return None;
    }
    var nodes := [];
    var index := leafIndex;
    for k := 0 to |tree.levels| - 1
      invariant 0 <= index < |tree.levels[k]|
      invariant nodes + Path(h, tree.levels[k], index) == Path(h, leaves, leafIndex)
    {
      LevelsStep(h, leaves, k);
      var node := SiblingNode(tree.levels[k], index);
      PathStep(h, tree.levels[k], index, nodes);
      nodes := nodes + [node];
      index := index / 2;
    }
    LevelsStep(h, leaves, |tree.levels| - 1);
    assert Path(h, tree.levels[|tree.levels| - 1], index) == [];
    assert nodes == Path(h, leaves, leafIndex);
    return Some(MerkleProof(leafIndex, tree.levels[0][leafIndex], nodes, tree.root));
  }

  method VerifyProof(h: PairHash, proof: MerkleProof) returns (ok: bool)
    ensures ok == (Climb(h, proof.leafHash, proof.nodes) == proof.root)
  {
    var current := proof.leafHash;
    for k := 0 to |proof.nodes|
      invariant Climb(h, current, proof.nodes[k..]) == Climb(h, proof.leafHash, proof.nodes)
    {
      var node := proof.nodes[k];
      if node.isLeftSibling {
        current := h(node.hash, current);
      } else {
        current := h(current, node.hash);
      }
    }
    ok := current == proof.root;
  }

  /** Any transaction's proof from the tree verifies against the root the block body computes. */
  method ProveInclusion(h: PairHash, transactionHashes: seq<Hash>, i: nat)
    returns (bodyRoot: Hash, proof: MerkleProof, ok: bool)
    requires i < |transactionHashes|
    ensures ok && proof.root == bodyRoot && proof.leafHash == transactionHashes[i] && proof.leafIndex == i
    ensures OnPath(|transactionHashes|, i, proof.nodes)
  {
    bodyRoot := TransactionsRoot(h, transactionHashes);
    var tree := Build(h, transactionHashes);
    var generated := GenerateProof(h, transactionHashes, tree, i);
    proof := generated.value;
    ok := VerifyProof(h, proof);
    PathReachesRoot(h, transactionHashes, i);
    PathIsOnPath(h, transactionHashes, i);
  }
}
