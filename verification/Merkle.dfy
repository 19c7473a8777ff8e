/**
 Binary Merkle trees as in BEP 52: roots with implicit zero padding, the full flat tree,
 inclusion proofs, and piece layers. The pair hash is any function of two hashes.
 */
module Merkle {
  import opened Wrappers

  datatype Hasher<!H> = Hasher(pair: (H, H) -> H, zero: H)

  // ---------------------------------------------------------- powers of two

  function Pow2(d: nat): (r: nat)
    ensures r >= 1
  {
    if d == 0 then 1 else 2 * Pow2(d - 1)
  }

  lemma {:induction false} Pow2Add(a: nat, b: nat)
    ensures Pow2(a + b) == Pow2(a) * Pow2(b)
  {
    if a > 0 {
      Pow2Add(a - 1, b);
      assert Pow2(a + b) == 2 * Pow2(a - 1 + b);
      assert 2 * (Pow2(a - 1) * Pow2(b)) == (2 * Pow2(a - 1)) * Pow2(b);
    }
  }

  lemma {:induction false} Pow2Monotone(a: nat, b: nat)
    requires a <= b
    ensures Pow2(a) <= Pow2(b)
    decreases b
  {
    if a < b {
      Pow2Monotone(a, b - 1);
    }
  }

  /** The depth of the smallest balanced tree with room for `blocks` leaves. */
  function Depth(blocks: nat, d: nat := 0): (r: nat)
    requires d > 0 ==> Pow2(d - 1) < blocks
    ensures blocks <= Pow2(r) && r >= d && (r > 0 ==> Pow2(r - 1) < blocks || r == 0)
    decreases if Pow2(d) < blocks then blocks - Pow2(d) else 0
  {
    if Pow2(d) < blocks then Depth(blocks, d + 1) else d
  }

  /** Left shift by one of a signed 32-bit integer. */
  function ShiftLeft32(n: int): int {
    (n * 2 + 0x8000_0000) % 0x1_0000_0000 - 0x8000_0000
  }

  lemma ShiftInRange(n: int)
    requires 0 <= n < 0x4000_0000
    ensures ShiftLeft32(n) == 2 * n
  {
  }

  lemma ShiftOutOfRange()
    ensures ShiftLeft32(0x4000_0000) == -0x8000_0000 && ShiftLeft32(-0x8000_0000) == 0 && ShiftLeft32(0) == 0
  {
  }

  /** The number of leaves of the balanced tree, by doubling. */
  method NumLeafs(blocks: nat) returns (n: nat)
    requires blocks <= 0x4000_0000
    ensures n == if blocks == 0 then 0 else Pow2(Depth(blocks))
    ensures blocks > 0 ==> blocks <= n && (n > 1 ==> n < 2 * blocks)
  {
    if blocks == 0 {
      return 0;
    }
    var m: int := 1;
    ghost var d := 0;
    while m < blocks
      invariant m == Pow2(d) && 1 <= m <= 0x4000_0000
      invariant d > 0 ==> Pow2(d - 1) < blocks
      invariant Depth(blocks) == Depth(blocks, d)
      decreases blocks - m
    {
      DoublingBound(d);
      ShiftInRange(m);
      m := ShiftLeft32(m);
      d := d + 1;
    }
    n := m;
  }

  lemma {:induction false} DoublingBound(d: nat)
    requires Pow2(d) < 0x4000_0000
    ensures Pow2(d + 1) <= 0x4000_0000
  {
    if d >= 30 {
      Pow2Monotone(30, d);
      Pow2Of30();
    } else {
      Pow2Monotone(d + 1, 30);
      Pow2Of30();
    }
  }

  lemma Pow2Of30()
    ensures Pow2(30) == 0x4000_0000
  {
    assert Pow2(10) == 1024;
    Pow2Add(10, 10);
    Pow2Add(20, 10);
  }

  /** The value of the loop variable after `k` shifts. */
  function Shifted(k: nat): int {
    if k == 0 then 1 else ShiftLeft32(Shifted(k - 1))
  }

  lemma {:induction false} ShiftedValues(k: nat)
    ensures Shifted(k) == if k <= 30 then Pow2(k) else if k == 31 then -0x8000_0000 else 0
  {
    Pow2Of30();
    ShiftOutOfRange();
    if k > 0 {
      ShiftedValues(k - 1);
      if k <= 30 {
        Pow2Monotone(k, 30);
        ShiftInRange(Pow2(k - 1));
      }
    }
  }

  /** Doubling in 32 bits reaches the block count if and only if there are at most 2^30
      blocks; beyond that the loop goes negative, then to zero, and never ends. */
  lemma NumLeafsEndsExactly(blocks: nat)
    ensures (exists k: nat :: Shifted(k) >= blocks) <==> blocks <= 0x4000_0000
  {
    Pow2Of30();
    if blocks <= 0x4000_0000 {
      ShiftedValues(30);
      assert Shifted(30) >= blocks;
    } else {
      forall k: nat ensures Shifted(k) < blocks {
        ShiftedValues(k);
        if k <= 30 { Pow2Monotone(k, 30); }
      }
    }
  }

  // ---------------------------------------------------------- specification

  /** Node `i` at height `k` of the tree whose leaves are `leaves` followed by `pad`
      without end; the root of a balanced tree of depth d is node 0 at height d. */
  function NodeAt<H>(hs: Hasher<H>, leaves: seq<H>, pad: H, k: nat, i: nat): H {
    if k == 0 then if i < |leaves| then leaves[i] else pad
    else hs.pair(NodeAt(hs, leaves, pad, k - 1, 2 * i), NodeAt(hs, leaves, pad, k - 1, 2 * i + 1))
  }

  function Root<H>(hs: Hasher<H>, leaves: seq<H>, d: nat): H {
    NodeAt(hs, leaves, hs.zero, d, 0)
  }

  function Pad<H>(hs: Hasher<H>, depth: nat): H {
    if depth == 0 then hs.zero else hs.pair(Pad(hs, depth - 1), Pad(hs, depth - 1))
  }

  /** A node over padding only is the pad hash of its height. */
  lemma {:induction false} NodeOfPads<H>(hs: Hasher<H>, leaves: seq<H>, k: nat, i: nat)
    requires |leaves| <= i * Pow2(k)
    ensures NodeAt(hs, leaves, hs.zero, k, i) == Pad(hs, k)
  {
    if k > 0 {
      assert (2 * i) * Pow2(k - 1) == i * Pow2(k);
      assert (2 * i + 1) * Pow2(k - 1) == i * Pow2(k) + Pow2(k - 1);
      NodeOfPads(hs, leaves, k - 1, 2 * i);
      NodeOfPads(hs, leaves, k - 1, 2 * i + 1);
    }
  }

  // ------------------------------------------------------------------ roots

  method MerklePadHash<H>(hs: Hasher<H>, depth: nat) returns (pad: H)
    ensures pad == Pad(hs, depth)
  {
    pad := hs.zero;
    for i := 0 to depth
      invariant pad == Pad(hs, i)
    {
      pad := hs.pair(pad, pad);
    }
  }

  /** `current` holds the first nodes of height `k`, and all later ones are the pad. */
  ghost predicate IsLevel<H>(hs: Hasher<H>, leaves: seq<H>, k: nat, current: seq<H>, padHash: H) {
    && (forall j: nat :: j < |current| ==> current[j] == NodeAt(hs, leaves, hs.zero, k, j))
    && (forall j: nat :: |current| <= j ==> NodeAt(hs, leaves, hs.zero, k, j) == padHash)
  }

  /** The next level of a partly filled one: an odd last node is paired with the pad. */
  method NextLevel<H>(hs: Hasher<H>, current: seq<H>, padHash: H, ghost leaves: seq<H>, ghost k: nat) returns (next: seq<H>)
    requires IsLevel(hs, leaves, k, current, padHash)
    ensures |next| == (|current| + 1) / 2
    ensures IsLevel(hs, leaves, k + 1, next, hs.pair(padHash, padHash))
  {
    next := [];
    var i := 0;
    while i < |current|
      invariant 0 <= i <= |current| + 1 && i == 2 * |next|
      invariant forall j: nat :: j < |next| ==> next[j] == NodeAt(hs, leaves, hs.zero, k + 1, j)
    {
      assert NodeAt(hs, leaves, hs.zero, k, 2 * |next| + 1) == if i + 1 < |current| then current[i + 1] else padHash;
      if i + 1 < |current| {
        next := next + [hs.pair(current[i], current[i + 1])];
      } else {
        next := next + [hs.pair(current[i], padHash)];
      }
      i := i + 2;
    }
    ghost var up := k + 1;
    forall j: nat | |next| <= j ensures NodeAt(hs, leaves, hs.zero, up, j) == hs.pair(padHash, padHash) {
      assert NodeAt(hs, leaves, hs.zero, k, 2 * j) == padHash && NodeAt(hs, leaves, hs.zero, k, 2 * j + 1) == padHash;
    }
  }

  /** The root over zero-padded leaves, keeping only real hashes and one pad per level. */
  method MerkleRoot<H>(hs: Hasher<H>, leaves: seq<H>, numLeafs: Option<nat>, ghost d: nat) returns (root: H)
    requires leaves != [] && numLeafs.Some? ==> numLeafs.value == Pow2(d)
    requires numLeafs.None? ==> d == Depth(|leaves|) && |leaves| <= 0x4000_0000
    ensures root == if leaves == [] then hs.zero else Root(hs, leaves, d)
  {
    if |leaves| == 0 {
      return hs.zero;
    }
    if |leaves| == 1 && (numLeafs.None? || numLeafs.value == 1) {
      OneLeaf(d);
      return leaves[0];
    }
    var targetLeafs: nat;
    if numLeafs.Some? {
      targetLeafs := numLeafs.value;
    } else {
      targetLeafs := NumLeafs(|leaves|);
    }
    root := Reduce(hs, leaves, targetLeafs, d);
  }

  /** The loop of the root computation. */
  method Reduce<H>(hs: Hasher<H>, leaves: seq<H>, targetLeafs: nat, ghost d: nat) returns (root: H)
    requires |leaves| > 0 && targetLeafs == Pow2(d)
    ensures root == Root(hs, leaves, d)
  {
    var current := leaves;
    var padHash := hs.zero;
    var levelSize := targetLeafs;
    ghost var left: nat := d;
    LeavesAreLevel(hs, leaves);
    while levelSize > 1
      invariant 0 <= left <= d && levelSize == Pow2(left) && |current| >= 1
      invariant IsLevel(hs, leaves, d - left, current, padHash)
      decreases levelSize
    {
      current := NextLevel(hs, current, padHash, leaves, d - left);
      padHash := hs.pair(padHash, padHash);
      levelSize := levelSize / 2;
      left := left - 1;
    }
    FirstOfLevel(hs, leaves, d - left, current, padHash);
    OneLeaf(left);
    root := current[0];
  }

  lemma LeavesAreLevel<H>(hs: Hasher<H>, leaves: seq<H>)
    ensures IsLevel(hs, leaves, 0, leaves, hs.zero)
  {
  }

  lemma FirstOfLevel<H>(hs: Hasher<H>, leaves: seq<H>, k: nat, current: seq<H>, padHash: H)
    requires IsLevel(hs, leaves, k, current, padHash) && |current| >= 1
    ensures current[0] == NodeAt(hs, leaves, hs.zero, k, 0)
  {
  }

  lemma OneLeaf(d: nat)
    ensures Pow2(d) == 1 <==> d == 0
    ensures Depth(1) == 0
  {
  }

  // ------------------------------------------------------------ the flat tree

  function Parent(idx: int): int {
    (idx - 1) / 2
  }

  /** Odd indices are left children, with the sibling to the right. */
  function Sibling(idx: int): int {
    idx + if idx % 2 == 1 then 1 else -1
  }

  /** Entry `i` is the pair hash of its children. */
  ghost predicate Hashed<H>(hs: Hasher<H>, tree: seq<H>, i: nat)
    requires 2 * i + 2 < |tree|
  {
    tree[i] == hs.pair(tree[2 * i + 1], tree[2 * i + 2])
  }

  /** The flat tree of depth d: node `i` at height k sits at 2^(d-k) - 1 + i. */
  ghost predicate IsFlatTree<H>(hs: Hasher<H>, leaves: seq<H>, tree: seq<H>, d: nat) {
    && |tree| == 2 * Pow2(d) - 1
    && (forall i :: 0 <= i < Pow2(d) ==> tree[Pow2(d) - 1 + i] == NodeAt(hs, leaves, hs.zero, 0, i))
    && (forall i :: 0 <= i < Pow2(d) - 1 ==> Hashed(hs, tree, i))
  }

  /** Every node of the flat tree is the node of the padded tree at its place. */
  lemma {:induction false} FlatTreeNodes<H>(hs: Hasher<H>, leaves: seq<H>, tree: seq<H>, d: nat, k: nat, i: nat)
    requires IsFlatTree(hs, leaves, tree, d) && k <= d && i < Pow2(d - k)
    ensures Pow2(d - k) - 1 + i < |tree| && tree[Pow2(d - k) - 1 + i] == NodeAt(hs, leaves, hs.zero, k, i)
  {
    Pow2Monotone(d - k, d);
    if k > 0 {
      assert Pow2(d - k + 1) == 2 * Pow2(d - k);
      FlatTreeNodes(hs, leaves, tree, d, k - 1, 2 * i);
      FlatTreeNodes(hs, leaves, tree, d, k - 1, 2 * i + 1);
      var idx := Pow2(d - k) - 1 + i;
      Pow2Monotone(d - k + 1, d);
      assert 2 * idx + 1 == Pow2(d - k + 1) - 1 + 2 * i;
      assert Hashed(hs, tree, idx);
    }
  }

  /** The implicit root and the stored one agree, for every list of leaves. */
  lemma FlatRoot<H>(hs: Hasher<H>, leaves: seq<H>, tree: seq<H>, d: nat)
    requires IsFlatTree(hs, leaves, tree, d)
    ensures tree[0] == Root(hs, leaves, d)
  {
    FlatTreeNodes(hs, leaves, tree, d, d, 0);
  }

  /** Build the whole tree, zero padding included, bottom up in one array. */
  method MerkleBuildTree<H>(hs: Hasher<H>, leaves: seq<H>) returns (tree: array<H>)
    requires |leaves| <= 0x4000_0000
    ensures leaves == [] ==> tree[..] == [hs.zero]
    ensures leaves != [] ==> IsFlatTree(hs, leaves, tree[..], Depth(|leaves|))
    ensures leaves != [] ==> tree[0] == Root(hs, leaves, Depth(|leaves|))
  {
    if |leaves| == 0 {
      tree := new H[1](_ => hs.zero);
      return;
    }
    var numLeafs := NumLeafs(|leaves|);
    ghost var d := Depth(|leaves|);
    tree := new H[2 * numLeafs - 1](_ => hs.zero);
    var firstLeaf := numLeafs - 1;
    for i := 0 to numLeafs
      invariant forall j :: 0 <= j < i ==> tree[firstLeaf + j] == NodeAt(hs, leaves, hs.zero, 0, j)
    {
      tree[firstLeaf + i] := if i < |leaves| then leaves[i] else hs.zero;
    }
    ghost var first := tree[..];
    BuildParents(hs, tree, numLeafs, d);
    TreeFilled(hs, leaves, first, tree[..], d);
    FlatRoot(hs, leaves, tree[..], d);
  }

  ghost predicate SameFrom<H>(before: seq<H>, after: seq<H>, from: int) {
    0 <= from && |before| == |after| && forall j :: from <= j < |after| ==> after[j] == before[j]
  }

  ghost predicate ParentsFrom<H>(hs: Hasher<H>, tree: seq<H>, from: int, to: int) {
    0 <= from && 2 * to < |tree| && forall i :: from <= i < to ==> Hashed(hs, tree, i)
  }

  /** Fill in the parents of one level. */
  method BuildLevel<H>(hs: Hasher<H>, tree: array<H>, levelStart: nat, levelSize: nat)
    requires levelSize % 2 == 0 && levelStart == levelSize - 1 && levelStart + levelSize <= tree.Length
    modifies tree
    ensures SameFrom(old(tree[..]), tree[..], levelStart)
    ensures ParentsFrom(hs, tree[..], Parent(levelStart), levelStart)
  {
    var parent := Parent(levelStart);
    var i := levelStart;
    ghost var before := tree[..];
    while i < levelStart + levelSize
      invariant levelStart <= i <= levelStart + levelSize && i == 2 * parent + 1
      invariant SameFrom(before, tree[..], levelStart)
      invariant ParentsFrom(hs, tree[..], Parent(levelStart), parent)
    {
      ghost var now := tree[..];
      tree[parent] := hs.pair(tree[i], tree[i + 1]);
      ParentAdded(hs, before, now, tree[..], levelStart, parent);
      parent := parent + 1;
      i := i + 2;
    }
  }

  lemma ParentAdded<H>(hs: Hasher<H>, before: seq<H>, now: seq<H>, next: seq<H>, start: nat, parent: nat)
    requires SameFrom(before, now, start) && ParentsFrom(hs, now, Parent(start), parent)
    requires start % 2 == 1 && Parent(start) <= parent < start && 2 * parent + 2 < |now|
    requires next == now[parent := hs.pair(now[2 * parent + 1], now[2 * parent + 2])]
    ensures SameFrom(before, next, start) && ParentsFrom(hs, next, Parent(start), parent + 1)
  {
    forall i | Parent(start) <= i < parent ensures Hashed(hs, next, i) {
      assert Hashed(hs, now, i);
    }
    assert Hashed(hs, next, parent);
  }

  lemma LevelAdded<H>(hs: Hasher<H>, before: seq<H>, after: seq<H>, start: nat, to: nat)
    requires start % 2 == 1 && start <= to && ParentsFrom(hs, before, start, to)
    requires SameFrom(before, after, start) && ParentsFrom(hs, after, Parent(start), start)
    ensures ParentsFrom(hs, after, Parent(start), to)
  {
    forall i | Parent(start) <= i < to ensures Hashed(hs, after, i) {
      if start <= i {
        assert Hashed(hs, before, i);
      }
    }
  }

  lemma SameTransitive<H>(a: seq<H>, b: seq<H>, c: seq<H>, from: nat, lower: nat)
    requires SameFrom(a, b, from) && SameFrom(b, c, lower) && lower <= from
    ensures SameFrom(a, c, from)
  {
  }

  /** Fill in the parents level by level, from the leaves to the root. */
  method BuildParents<H>(hs: Hasher<H>, tree: array<H>, numLeafs: nat, ghost d: nat)
    requires numLeafs == Pow2(d) && tree.Length == 2 * numLeafs - 1
    modifies tree
    ensures SameFrom(old(tree[..]), tree[..], numLeafs - 1)
    ensures ParentsFrom(hs, tree[..], 0, numLeafs - 1)
  {
    var levelStart := numLeafs - 1;
    var levelSize := numLeafs;
    ghost var k: nat := d;
    ghost var first := tree[..];
    while levelSize > 1
      invariant 0 <= k <= d && levelSize == Pow2(k) && levelStart == levelSize - 1 && levelSize <= numLeafs
      invariant SameFrom(first, tree[..], numLeafs - 1)
      invariant ParentsFrom(hs, tree[..], levelStart, numLeafs - 1)
      decreases levelSize
    {
      ghost var before := tree[..];
      EvenLevel(k);
      BuildLevel(hs, tree, levelStart, levelSize);
      LevelAdded(hs, before, tree[..], levelStart, numLeafs - 1);
      SameTransitive(first, before, tree[..], numLeafs - 1, levelStart);
      levelStart := Parent(levelStart);
      levelSize := levelSize / 2;
      k := k - 1;
    }
    OneLeaf(k);
  }

  lemma EvenLevel(k: nat)
    requires Pow2(k) > 1
    ensures k > 0 && Pow2(k) == 2 * Pow2(k - 1) && Parent(Pow2(k) - 1) == Pow2(k - 1) - 1
  {
  }

  /** Leaves in place and every inner node the hash of its children: the whole tree. */
  lemma TreeFilled<H>(hs: Hasher<H>, leaves: seq<H>, first: seq<H>, tree: seq<H>, d: nat)
    requires |first| == 2 * Pow2(d) - 1 && SameFrom(first, tree, Pow2(d) - 1)
    requires ParentsFrom(hs, tree, 0, Pow2(d) - 1)
    requires forall j :: 0 <= j < Pow2(d) ==> first[Pow2(d) - 1 + j] == NodeAt(hs, leaves, hs.zero, 0, j)
    ensures IsFlatTree(hs, leaves, tree, d)
  {
    forall i | 0 <= i < Pow2(d) ensures tree[Pow2(d) - 1 + i] == NodeAt(hs, leaves, hs.zero, 0, i) {
      assert tree[Pow2(d) - 1 + i] == first[Pow2(d) - 1 + i];
    }
  }

  // ------------------------------------------------------------------ proofs

  /** The siblings on the way from `idx` up to the root. */
  function ProofFrom<H>(tree: seq<H>, idx: nat): seq<H>
    requires idx < |tree| && |tree| % 2 == 1
  {
    if idx == 0 then [] else [tree[Sibling(idx)]] + ProofFrom(tree, Parent(idx))
  }

  method MerkleGetProof<H>(tree: seq<H>, leafIndex: nat, numLeafs: nat) returns (proofs: seq<H>)
    requires |tree| == 2 * numLeafs - 1 && leafIndex < numLeafs
    ensures proofs == ProofFrom(tree, numLeafs - 1 + leafIndex)
  {
    proofs := [];
    var idx: nat := numLeafs - 1 + leafIndex;
    while idx > 0
      invariant idx < |tree|
      invariant proofs + ProofFrom(tree, idx) == ProofFrom(tree, numLeafs - 1 + leafIndex)
    {
      proofs := proofs + [tree[Sibling(idx)]];
      idx := Parent(idx);
    }
  }

  /** The hash that a proof leads to from `hash` at `idx`. */
  function Climb<H>(hs: Hasher<H>, hash: H, idx: int, proof: seq<H>): H
    decreases |proof|
  {
    if proof == [] then hash
    else
      var up := if idx % 2 == 1 then hs.pair(hash, proof[0]) else hs.pair(proof[0], hash);
      Climb(hs, up, Parent(idx), proof[1..])
  }

  method MerkleVerifyProof<H(==)>(hs: Hasher<H>, leaf: H, leafIndex: nat, proof: seq<H>, root: H, numLeafs: nat)
    returns (ok: bool)
    ensures ok <==> Climb(hs, leaf, numLeafs - 1 + leafIndex, proof) == root
  {
    var hash := leaf;
    var idx: int := numLeafs - 1 + leafIndex;
    for i := 0 to |proof|
      invariant Climb(hs, hash, idx, proof[i..]) == Climb(hs, leaf, numLeafs - 1 + leafIndex, proof)
    {
      var uncle := proof[i];
      assert proof[i..][0] == uncle && proof[i..][1..] == proof[i + 1..];
      hash := if idx % 2 == 1 then hs.pair(hash, uncle) else hs.pair(uncle, hash);
      idx := Parent(idx);
    }
    ok := hash == root;
  }

  /** The proof of any node leads to the root. */
  lemma {:induction false} ProofAccepted<H>(hs: Hasher<H>, leaves: seq<H>, tree: seq<H>, d: nat, idx: nat)
    requires IsFlatTree(hs, leaves, tree, d) && idx < |tree|
    ensures Climb(hs, tree[idx], idx, ProofFrom(tree, idx)) == tree[0]
  {
    if idx > 0 {
      var p := Parent(idx);
      ProofAccepted(hs, leaves, tree, d, p);
      ParentHash(hs, leaves, tree, d, idx);
      ClimbStep(hs, tree[idx], idx, tree[Sibling(idx)], ProofFrom(tree, p));
    }
  }

  lemma ClimbStep<H>(hs: Hasher<H>, hash: H, idx: int, first: H, rest: seq<H>)
    ensures Climb(hs, hash, idx, [first] + rest)
         == Climb(hs, if idx % 2 == 1 then hs.pair(hash, first) else hs.pair(first, hash), Parent(idx), rest)
  {
    assert ([first] + rest)[1..] == rest;
  }

  lemma ParentHash<H>(hs: Hasher<H>, leaves: seq<H>, tree: seq<H>, d: nat, idx: nat)
    requires IsFlatTree(hs, leaves, tree, d) && 0 < idx < |tree|
    ensures 0 <= Parent(idx) < Pow2(d) - 1 && 0 <= Sibling(idx) < |tree|
    ensures tree[Parent(idx)]
         == if idx % 2 == 1 then hs.pair(tree[idx], tree[Sibling(idx)]) else hs.pair(tree[Sibling(idx)], tree[idx])
  {
    var p := Parent(idx);
    assert Hashed(hs, tree, p);
  }

  function Level(idx: nat): nat {
    if idx == 0 then 0 else 1 + Level(Parent(idx))
  }

  lemma {:induction false} LevelOfLeaf(d: nat, i: nat)
    requires i < Pow2(d)
    ensures Level(Pow2(d) - 1 + i) == d
  {
    if d > 0 {
      LevelOfLeaf(d - 1, i / 2);
      assert Parent(Pow2(d) - 1 + i) == Pow2(d - 1) - 1 + i / 2;
    }
  }

  datatype Collision<H> = Collision(a: H, b: H, c: H, d: H)

  /** Two different pairs with the same pair hash. */
  ghost predicate Collides<H>(hs: Hasher<H>, x: Collision<H>) {
    (x.a, x.b) != (x.c, x.d) && hs.pair(x.a, x.b) == hs.pair(x.c, x.d)
  }

  /** Follow an accepted proof beside the tree; the first place where the two meet again
      after differing is a collision. */
  function FindCollision<H(==)>(hs: Hasher<H>, tree: seq<H>, x: H, idx: nat, proof: seq<H>): Option<Collision<H>>
    requires idx < |tree| && |tree| % 2 == 1
    decreases |proof|
  {
    if proof == [] || idx == 0 then None
    else
      var p := Parent(idx);
      var (l, r) := if idx % 2 == 1 then (x, proof[0]) else (proof[0], x);
      if hs.pair(l, r) == tree[p]
      then if (l, r) == (tree[2 * p + 1], tree[2 * p + 2]) then None
           else Some(Collision(l, r, tree[2 * p + 1], tree[2 * p + 2]))
      else FindCollision(hs, tree, hs.pair(l, r), p, proof[1..])
  }

  /** A full-length proof that is accepted for `x` at a node shows that `x` is that node,
      or yields an explicit collision of the pair hash. */
  lemma {:induction false} ProofSound<H>(hs: Hasher<H>, leaves: seq<H>, tree: seq<H>, d: nat, x: H, idx: nat, proof: seq<H>)
    requires IsFlatTree(hs, leaves, tree, d) && idx < |tree| && |proof| == Level(idx)
    requires Climb(hs, x, idx, proof) == tree[0]
    ensures x == tree[idx] ||
            (var c := FindCollision(hs, tree, x, idx, proof); c.Some? && Collides(hs, c.value))
    decreases |proof|
  {
    if idx > 0 {
      var p := Parent(idx);
      var up := if idx % 2 == 1 then hs.pair(x, proof[0]) else hs.pair(proof[0], x);
      assert Hashed(hs, tree, p);
      ProofSound(hs, leaves, tree, d, up, p, proof[1..]);
    }
  }

  /** The proof of leaf `i` of a built tree has one hash a level and is accepted. */
  lemma LeafProofAccepted<H>(hs: Hasher<H>, leaves: seq<H>, tree: seq<H>, d: nat, i: nat)
    requires IsFlatTree(hs, leaves, tree, d) && i < Pow2(d)
    ensures |ProofFrom(tree, Pow2(d) - 1 + i)| == d
    ensures Climb(hs, NodeAt(hs, leaves, hs.zero, 0, i), Pow2(d) - 1 + i, ProofFrom(tree, Pow2(d) - 1 + i)) == Root(hs, leaves, d)
  {
    var idx := Pow2(d) - 1 + i;
    ProofAccepted(hs, leaves, tree, d, idx);
    LevelOfLeaf(d, i);
    ProofLength(tree, idx);
    FlatRoot(hs, leaves, tree, d);
  }

  // Verification never looks at the length of a proof.

  /** The place, `k` levels below the root, from which a climb takes the same sides as `k`
      steps from `idx`. */
  function Place(idx: int, k: nat): (r: nat)
    ensures r < Pow2(k)
    decreases k
  {
    if k == 0 then 0 else 2 * Place(Parent(idx), k - 1) + if idx % 2 == 1 then 0 else 1
  }

  /** The index at that place is on the same side as `idx`, and so are their parents. */
  lemma SameSide(idx: int, k: nat)
    requires k > 0
    ensures var m := Pow2(k) - 1 + Place(idx, k);
      m % 2 == idx % 2 && Parent(m) == Pow2(k - 1) - 1 + Place(Parent(idx), k - 1)
  {
    var p := Place(Parent(idx), k - 1);
    assert Place(idx, k) == 2 * p + if idx % 2 == 1 then 0 else 1;
  }

  lemma ClimbOne<H>(hs: Hasher<H>, x: H, idx: int, proof: seq<H>)
    requires proof != []
    ensures Climb(hs, x, idx, proof)
         == Climb(hs, if idx % 2 == 1 then hs.pair(x, proof[0]) else hs.pair(proof[0], x), Parent(idx), proof[1..])
  {
  }

  /** Only the sides count: a proof leads from any index where it leads from that place. */
  lemma {:induction false} SameSides<H>(hs: Hasher<H>, x: H, idx: int, proof: seq<H>)
    ensures Climb(hs, x, idx, proof) == Climb(hs, x, Pow2(|proof|) - 1 + Place(idx, |proof|), proof)
    decreases |proof|
  {
    var k := |proof|;
    if k > 0 {
      SameSide(idx, k);
      ClimbOne(hs, x, idx, proof);
      ClimbOne(hs, x, Pow2(k) - 1 + Place(idx, k), proof);
      SameSides(hs, if idx % 2 == 1 then hs.pair(x, proof[0]) else hs.pair(proof[0], x), Parent(idx), proof[1..]);
    }
  }

  /** The number that the `k` low binary digits of `i` make. */
  function LowDigits(i: nat, k: nat): (r: nat)
    ensures r < Pow2(k)
    decreases k
  {
    if k == 0 then 0 else 2 * LowDigits(i / 2, k - 1) + i % 2
  }

  lemma {:induction false} AllDigits(i: nat, d: nat)
    requires i < Pow2(d)
    ensures LowDigits(i, d) == i
  {
    if d > 0 {
      AllDigits(i / 2, d - 1);
    }
  }

  /** From leaf `i` the sides of k steps are the low digits of `i`. */
  lemma {:induction false} PlaceOfLeaf(d: nat, i: nat, k: nat)
    requires k <= d && i < Pow2(d)
    ensures Place(Pow2(d) - 1 + i, k) == LowDigits(i, k)
    decreases k
  {
    if k > 0 {
      LeafParent(d, i);
      PlaceOfLeaf(d - 1, i / 2, k - 1);
    }
  }

  lemma LeafParent(d: nat, i: nat)
    requires d > 0 && i < Pow2(d)
    ensures i / 2 < Pow2(d - 1) && Parent(Pow2(d) - 1 + i) == Pow2(d - 1) - 1 + i / 2
    ensures (Pow2(d) - 1 + i) % 2 == 1 <==> i % 2 == 0
  {
  }

  lemma {:induction false} ClimbSplits<H>(hs: Hasher<H>, x: H, idx: int, p: seq<H>, q: seq<H>) returns (at: int)
    ensures Climb(hs, x, idx, p + q) == Climb(hs, Climb(hs, x, idx, p), at, q)
    decreases |p|
  {
    if p == [] {
      assert p + q == q;
      at := idx;
    } else {
      assert (p + q)[0] == p[0] && (p + q)[1..] == p[1..] + q;
      var up := if idx % 2 == 1 then hs.pair(x, p[0]) else hs.pair(p[0], x);
      at := ClimbSplits(hs, up, Parent(idx), p[1..], q);
    }
  }

  /** The proof and the tree show a collision of the pair hash. */
  ghost predicate ShowsCollision<H>(hs: Hasher<H>, tree: seq<H>, x: H, idx: nat, proof: seq<H>)
    requires idx < |tree| && |tree| % 2 == 1
  {
    var c := FindCollision(hs, tree, x, idx, proof);
    c.Some? && Collides(hs, c.value)
  }

  /** The node `k` levels below the root at place `j`. */
  lemma NodeBelowRoot<H>(hs: Hasher<H>, leaves: seq<H>, tree: seq<H>, d: nat, k: nat, j: nat)
    requires IsFlatTree(hs, leaves, tree, d) && k <= d && j < Pow2(k)
    ensures Pow2(k) - 1 + j < |tree| && |tree| % 2 == 1
    ensures tree[Pow2(k) - 1 + j] == NodeAt(hs, leaves, hs.zero, d - k, j)
    ensures Level(Pow2(k) - 1 + j) == k
  {
    LevelOfLeaf(k, j);
    FlatTreeNodes(hs, leaves, tree, d, d - k, j);
  }

  /** A proof of at most d hashes that is accepted for `x` anywhere shows that `x` is the node
      that lies as many levels below the root as it has hashes, or yields a collision. */
  lemma NodeProofSound<H>(hs: Hasher<H>, leaves: seq<H>, tree: seq<H>, d: nat, x: H, idx: int, proof: seq<H>, j: nat)
    requires IsFlatTree(hs, leaves, tree, d) && |proof| <= d && j == Place(idx, |proof|)
    requires Climb(hs, x, idx, proof) == Root(hs, leaves, d)
    ensures Pow2(|proof|) - 1 + j < |tree| && |tree| % 2 == 1
    ensures x == NodeAt(hs, leaves, hs.zero, d - |proof|, j) || ShowsCollision(hs, tree, x, Pow2(|proof|) - 1 + j, proof)
  {
    SameSides(hs, x, idx, proof);
    FlatRoot(hs, leaves, tree, d);
    NodeBelowRoot(hs, leaves, tree, d, |proof|, j);
    ProofSound(hs, leaves, tree, d, x, Pow2(|proof|) - 1 + j, proof);
  }

  /** What an accepted proof of at most d hashes for `x` as leaf `i` shows, unless it yields a
      collision: with d hashes that `x` is that leaf, with fewer that it is the inner node or
      the root whose place is given by the low digits of `i`. */
  lemma LeafProofSound<H>(hs: Hasher<H>, leaves: seq<H>, tree: seq<H>, d: nat, x: H, i: nat, proof: seq<H>)
    requires IsFlatTree(hs, leaves, tree, d) && i < Pow2(d) && |proof| <= d
    requires Climb(hs, x, Pow2(d) - 1 + i, proof) == Root(hs, leaves, d)
    ensures var k := |proof|; var j := LowDigits(i, k);
      && Pow2(k) - 1 + j < |tree| && |tree| % 2 == 1
      && (x == NodeAt(hs, leaves, hs.zero, d - k, j) || ShowsCollision(hs, tree, x, Pow2(k) - 1 + j, proof))
    ensures |proof| == d ==> LowDigits(i, |proof|) == i
  {
    PlaceOfLeaf(d, i, |proof|);
    AllDigits(i, d);
    NodeProofSound(hs, leaves, tree, d, x, Pow2(d) - 1 + i, proof, LowDigits(i, |proof|));
  }

  /** What a longer one shows: the first hashes lead from `x` to a leaf of the tree, so that
      `x` lies below it, unless the others yield a collision. */
  lemma LongProofSound<H>(hs: Hasher<H>, leaves: seq<H>, tree: seq<H>, d: nat, x: H, i: nat, proof: seq<H>) returns (j: nat)
    requires IsFlatTree(hs, leaves, tree, d) && i < Pow2(d) && |proof| > d
    requires Climb(hs, x, Pow2(d) - 1 + i, proof) == Root(hs, leaves, d)
    ensures j < Pow2(d) && Pow2(d) - 1 + j < |tree| && |tree| % 2 == 1
    ensures var below := |proof| - d; var y := Climb(hs, x, Pow2(d) - 1 + i, proof[..below]);
      y == NodeAt(hs, leaves, hs.zero, 0, j) || ShowsCollision(hs, tree, y, Pow2(d) - 1 + j, proof[below..])
  {
    var below := |proof| - d;
    assert proof == proof[..below] + proof[below..];
    var at := ClimbSplits(hs, x, Pow2(d) - 1 + i, proof[..below], proof[below..]);
    j := Place(at, d);
    NodeProofSound(hs, leaves, tree, d, Climb(hs, x, Pow2(d) - 1 + i, proof[..below]), at, proof[below..], j);
  }

  /** Every node is accepted as a leaf: the one `k` levels below the root at place `j` is, with
      its own proof, for each `i` whose low digits are `j`. */
  lemma InnerNodeAccepted<H>(hs: Hasher<H>, leaves: seq<H>, tree: seq<H>, d: nat, k: nat, i: nat, j: nat)
    requires IsFlatTree(hs, leaves, tree, d) && k <= d && i < Pow2(d) && j == LowDigits(i, k)
    ensures Pow2(k) - 1 + j < |tree| && |tree| % 2 == 1
    ensures var proof := ProofFrom(tree, Pow2(k) - 1 + j);
      |proof| == k && Climb(hs, NodeAt(hs, leaves, hs.zero, d - k, j), Pow2(d) - 1 + i, proof) == Root(hs, leaves, d)
  {
    FlatRoot(hs, leaves, tree, d);
    NodeBelowRoot(hs, leaves, tree, d, k, j);
    var idx := Pow2(k) - 1 + j;
    ProofLength(tree, idx);
    ProofAccepted(hs, leaves, tree, d, idx);
    PlaceOfLeaf(d, i, k);
    SameSides(hs, tree[idx], Pow2(d) - 1 + i, ProofFrom(tree, idx));
  }

  lemma {:induction false} ProofLength<H>(tree: seq<H>, idx: nat)
    requires idx < |tree| && |tree| % 2 == 1
    ensures |ProofFrom(tree, idx)| == Level(idx)
  {
    if idx > 0 {
      ProofLength(tree, Parent(idx));
    }
  }

  // ------------------------------------------------------------ piece layers

  lemma SliceIndex(q: nat, p: nat, k: nat, i: nat)
    requires 0 < k <= p && i < Pow2(p - k)
    ensures q * Pow2(p - (k - 1)) + 2 * i == 2 * (q * Pow2(p - k) + i)
    ensures 2 * i + 1 < Pow2(p - (k - 1))
  {
    var b := Pow2(p - k);
    assert Pow2(p - (k - 1)) == 2 * b;
    assert q * (2 * b) == 2 * (q * b);
  }

  /** The root of piece `q`: the node of the whole tree that covers its blocks. */
  lemma {:induction false} SliceNode<H>(hs: Hasher<H>, leaves: seq<H>, start: nat, end: nat, p: nat, q: nat, k: nat, i: nat)
    requires k <= p && start == q * Pow2(p) && i < Pow2(p - k) && start <= end <= |leaves|
    requires end == |leaves| || end == start + Pow2(p)
    ensures NodeAt(hs, leaves[start..end], hs.zero, k, i) == NodeAt(hs, leaves, hs.zero, k, q * Pow2(p - k) + i)
  {
    if k > 0 {
      SliceIndex(q, p, k, i);
      SliceNode(hs, leaves, start, end, p, q, k - 1, 2 * i);
      SliceNode(hs, leaves, start, end, p, q, k - 1, 2 * i + 1);
    }
  }

  /** The hash of every piece, from the leaf hashes. */
  method ComputePieceLayers<H>(hs: Hasher<H>, leafHashes: seq<H>, blocksPerPiece: nat, ghost p: nat) returns (layers: seq<H>)
    requires blocksPerPiece == Pow2(p)
    ensures |layers| == (|leafHashes| + blocksPerPiece - 1) / blocksPerPiece
    ensures forall i: nat :: i < |layers| ==> layers[i] == NodeAt(hs, leafHashes, hs.zero, p, i)
  {
    var pieceCount := (|leafHashes| + blocksPerPiece - 1) / blocksPerPiece;
    layers := [];
    for i := 0 to pieceCount
      invariant |layers| == i
      invariant forall j: nat :: j < i ==> layers[j] == NodeAt(hs, leafHashes, hs.zero, p, j)
    {
      var start := i * blocksPerPiece;
      PieceStart(i, blocksPerPiece, |leafHashes|);
      var end := if start + blocksPerPiece < |leafHashes| then start + blocksPerPiece else |leafHashes|;
      var pieceRoot := MerkleRoot(hs, leafHashes[start..end], Some(blocksPerPiece), p);
      SliceNode(hs, leafHashes, start, end, p, i, p, 0);
      layers := layers + [pieceRoot];
    }
  }

  lemma PieceStart(i: nat, b: nat, n: nat)
    requires b > 0 && i < (n + b - 1) / b
    ensures i * b < n
  {
    var q := (n + b - 1) / b;
    RoundedDown(n + b - 1, b);
    ProductGrows(i + 1, q, b);
    assert (i + 1) * b == i * b + b;
  }

  lemma RoundedDown(n: nat, b: nat)
    requires b > 0
    ensures (n / b) * b <= n
  {
  }

  lemma ProductGrows(i: nat, q: nat, b: nat)
    requires i <= q
    ensures i * b <= q * b
  {
  }

  /** Reducing the piece layer, padded with the pad hash of a piece, gives every node
      above the pieces. */
  lemma {:induction false} LayerNodes<H>(hs: Hasher<H>, leaves: seq<H>, layers: seq<H>, p: nat, k: nat, i: nat)
    requires |leaves| <= |layers| * Pow2(p)
    requires forall j: nat :: j < |layers| ==> layers[j] == NodeAt(hs, leaves, hs.zero, p, j)
    ensures NodeAt(hs, layers, Pad(hs, p), k, i) == NodeAt(hs, leaves, hs.zero, p + k, i)
  {
    if k == 0 {
      if i >= |layers| {
        assert |layers| * Pow2(p) <= i * Pow2(p);
        NodeOfPads(hs, leaves, p, i);
      }
    } else {
      LayerNodes(hs, leaves, layers, p, k - 1, 2 * i);
      LayerNodes(hs, leaves, layers, p, k - 1, 2 * i + 1);
    }
  }

  /** The piece layers of any file at least a piece deep reduce to the file's root. */
  lemma PieceLayersRoot<H>(hs: Hasher<H>, leaves: seq<H>, layers: seq<H>, p: nat, d: nat)
    requires |layers| == (|leaves| + Pow2(p) - 1) / Pow2(p) && p <= d
    requires forall j: nat :: j < |layers| ==> layers[j] == NodeAt(hs, leaves, hs.zero, p, j)
    ensures NodeAt(hs, layers, Pad(hs, p), d - p, 0) == Root(hs, leaves, d)
  {
    var b := Pow2(p);
    assert (|leaves| + b - 1) % b < b;
    assert |leaves| <= |layers| * b;
    LayerNodes(hs, leaves, layers, p, d - p, 0);
  }

  /** A file with more blocks than one piece holds is at least a piece deep. */
  lemma ManyBlocksDeep(blocks: nat, p: nat)
    requires blocks > Pow2(p)
    ensures Depth(blocks) > p
  {
    if Depth(blocks) <= p {
      Pow2Monotone(Depth(blocks), p);
    }
  }
}
