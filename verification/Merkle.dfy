/**
 The bridge Merkle tree (bridge/merkle.go): layers with the last node of an odd layer paired with
 itself, proof generation and proof checking.

 SHA3-256 is a parameter. Where a result needs it not to collide, the hypothesis is about the finitely
 many byte strings hashed while building the trees and checking the proof at hand (NoCollision), so it
 is one a real hash function meets unless a collision has actually been found.
 */
module Merkle {
  import opened ByteStrings
  import opened Sequences

  type Hash = h: seq<byte> | |h| == 32 witness seq(32, _ => 0)

  const LEAF_PREFIX: byte := 0x00
  const NODE_PREFIX: byte := 0x01
  const MAX_LEAVES: nat := 0x10_0000
  const MAX_LEAF_SIZE: nat := 64
  const MAX_NEIGHBORS: nat := 20

  /** "QAU-BRIDGE-MERKLE-V1" */
  const DOMAIN: seq<byte> := [81, 65, 85, 45, 66, 82, 73, 68, 71, 69, 45, 77, 69, 82, 75, 76, 69, 45, 86, 49]

  ghost predicate NoCollision(sha3: seq<byte> -> Hash, inputs: set<seq<byte>>) {
    forall x, y | x in inputs && y in inputs && sha3(x) == sha3(y) :: x == y
  }

  // ---------------------------------------------------------------- hashing

  /** The bytes hashed for a leaf; the length field is 32 bits wide. */
  function LeafInput(data: seq<byte>): seq<byte> {
    [LEAF_PREFIX] + DOMAIN + BigEndian(|data| % Pow256(4), 4) + data
  }

  function NodeInput(left: Hash, right: Hash): seq<byte> {
    [NODE_PREFIX] + DOMAIN + left + right
  }

  function HashLeaf(sha3: seq<byte> -> Hash, data: seq<byte>): Hash {
    sha3(LeafInput(data))
  }

  function HashNode(sha3: seq<byte> -> Hash, left: Hash, right: Hash): Hash {
    sha3(NodeInput(left, right))
  }

  lemma NodeInputInjective(l: Hash, r: Hash, l': Hash, r': Hash)
    requires NodeInput(l, r) == NodeInput(l', r')
    ensures l == l' && r == r'
  {
    var x, y := NodeInput(l, r), NodeInput(l', r');
    assert l == x[21..53] && l' == y[21..53];
    assert r == x[53..] && r' == y[53..];
  }

  lemma LeafIsNotNode(data: seq<byte>, l: Hash, r: Hash)
    ensures LeafInput(data) != NodeInput(l, r)
  {
    assert LeafInput(data)[0] == 0 && NodeInput(l, r)[0] == 1;
  }

  lemma LeafInputInjective(a: seq<byte>, b: seq<byte>)
    requires LeafInput(a) == LeafInput(b)
    ensures a == b
  {
    assert a == LeafInput(a)[25..] && b == LeafInput(b)[25..];
  }

  // ---------------------------------------------------------------- layers

  /** The right-hand partner of node i of a layer. */
  function Partner(layer: seq<Hash>, i: nat): Hash
    requires 2 * i < |layer|
  {
    if 2 * i + 1 < |layer| then layer[2 * i + 1] else layer[2 * i]
  }

  function Next(sha3: seq<byte> -> Hash, layer: seq<Hash>): (r: seq<Hash>)
    ensures |r| == (|layer| + 1) / 2
  {
    seq((|layer| + 1) / 2, i requires 0 <= i < (|layer| + 1) / 2 => HashNode(sha3, layer[2 * i], Partner(layer, i)))
  }

  function Root(sha3: seq<byte> -> Hash, layer: seq<Hash>): Hash
    requires layer != []
    decreases |layer|
  {
    if |layer| == 1 then layer[0] else Root(sha3, Next(sha3, layer))
  }

  /** Number of layers above one of n nodes. */
  function Height(n: nat): nat {
    if n <= 1 then 0 else 1 + Height((n + 1) / 2)
  }

  function Level(sha3: seq<byte> -> Hash, leaves: seq<Hash>, k: nat): seq<Hash> {
    if k == 0 then leaves else Next(sha3, Level(sha3, leaves, k - 1))
  }

  /** Everything hashed to build the layers above `layer`. */
  ghost function NodeInputs(sha3: seq<byte> -> Hash, layer: seq<Hash>): set<seq<byte>>
    decreases |layer|
  {
    if |layer| <= 1 then {}
    else (set i | 0 <= i < (|layer| + 1) / 2 :: NodeInput(layer[2 * i], Partner(layer, i)))
         + NodeInputs(sha3, Next(sha3, layer))
  }

  lemma SameNode(sha3: seq<byte> -> Hash, inputs: set<seq<byte>>, l: Hash, r: Hash, l': Hash, r': Hash)
    requires NoCollision(sha3, inputs) && NodeInput(l, r) in inputs && NodeInput(l', r') in inputs
    requires HashNode(sha3, l, r) == HashNode(sha3, l', r')
    ensures l == l' && r == r'
  {
    NodeInputInjective(l, r, l', r');
  }

  lemma NextAt(sha3: seq<byte> -> Hash, layer: seq<Hash>, i: nat)
    requires i < (|layer| + 1) / 2
    ensures Next(sha3, layer)[i] == HashNode(sha3, layer[2 * i], Partner(layer, i))
  {
  }

  lemma NextInput(sha3: seq<byte> -> Hash, layer: seq<Hash>, i: nat)
    requires |layer| > 1 && i < (|layer| + 1) / 2
    ensures NodeInput(layer[2 * i], Partner(layer, i)) in NodeInputs(sha3, layer)
  {
  }

  /** Distinct nodes have distinct parents. */
  lemma NextDistinct(sha3: seq<byte> -> Hash, layer: seq<Hash>, inputs: set<seq<byte>>)
    requires |layer| > 1 && Distinct(layer)
    requires NoCollision(sha3, inputs) && NodeInputs(sha3, layer) <= inputs
    ensures Distinct(Next(sha3, layer))
  {
    hide Next, NodeInput, NodeInputs, HashNode, NoCollision;
    var next := Next(sha3, layer);
    forall i, j | 0 <= i < j < |next|
      ensures next[i] != next[j]
    {
      if next[i] == next[j] {
        NextAt(sha3, layer, i);
        NextAt(sha3, layer, j);
        NextInput(sha3, layer, i);
        NextInput(sha3, layer, j);
        SameNode(sha3, inputs, layer[2 * i], Partner(layer, i), layer[2 * j], Partner(layer, j));
        assert false;
      }
    }
  }

  /** Equal parents come from equal layers, unless an odd layer met its duplicate-padded twin. */
  lemma NextInjective(sha3: seq<byte> -> Hash, a: seq<Hash>, b: seq<Hash>, inputs: set<seq<byte>>)
    requires |a| > 1 && |b| > 1 && Distinct(a) && Distinct(b)
    requires NoCollision(sha3, inputs) && NodeInputs(sha3, a) <= inputs && NodeInputs(sha3, b) <= inputs
    requires Next(sha3, a) == Next(sha3, b)
    ensures a == b
  {
    hide Next, NodeInput, NodeInputs, HashNode, NoCollision;
    var m := (|a| + 1) / 2;
    assert |Next(sha3, a)| == m == |Next(sha3, b)| == (|b| + 1) / 2;
    forall i | 0 <= i < m
      ensures a[2 * i] == b[2 * i] && Partner(a, i) == Partner(b, i)
    {
      NextAt(sha3, a, i);
      NextAt(sha3, b, i);
      NextInput(sha3, a, i);
      NextInput(sha3, b, i);
      SameNode(sha3, inputs, a[2 * i], Partner(a, i), b[2 * i], Partner(b, i));
    }
    PairsDetermineLayer(a, b, m);
  }

  lemma PairsDetermineLayer(a: seq<Hash>, b: seq<Hash>, m: nat)
    requires m >= 1 && m == (|a| + 1) / 2 == (|b| + 1) / 2 && Distinct(a) && Distinct(b)
    requires forall i | 0 <= i < m :: a[2 * i] == b[2 * i] && Partner(a, i) == Partner(b, i)
    ensures a == b
  {
    assert a[2 * (m - 1)] == b[2 * (m - 1)] && Partner(a, m - 1) == Partner(b, m - 1);
    if |a| != |b| {
      assert false;
    }
    forall k | 0 <= k < |a|
      ensures a[k] == b[k]
    {
      assert a[2 * (k / 2)] == b[2 * (k / 2)] && Partner(a, k / 2) == Partner(b, k / 2);
    }
  }

  /** Trees of equal height over distinct leaves with equal roots have equal leaves. */
  lemma {:induction false} SameHeightBinding(sha3: seq<byte> -> Hash, a: seq<Hash>, b: seq<Hash>,
      inputs: set<seq<byte>>)
    requires a != [] && b != [] && Height(|a|) == Height(|b|) && Distinct(a) && Distinct(b)
    requires NoCollision(sha3, inputs) && NodeInputs(sha3, a) <= inputs && NodeInputs(sha3, b) <= inputs
    requires Root(sha3, a) == Root(sha3, b)
    ensures a == b
    decreases |a|
  {
    hide Next, NodeInput, HashNode, NoCollision;
    if |a| > 1 && |b| > 1 {
      NextDistinct(sha3, a, inputs);
      NextDistinct(sha3, b, inputs);
      SameHeightBinding(sha3, Next(sha3, a), Next(sha3, b), inputs);
      NextInjective(sha3, a, b, inputs);
    }
  }

  lemma NextFacts(sha3: seq<byte> -> Hash, layer: seq<Hash>)
    requires |layer| > 1
    ensures Height(|Next(sha3, layer)|) == Height(|layer|) - 1
    ensures Root(sha3, Next(sha3, layer)) == Root(sha3, layer)
    ensures NodeInputs(sha3, Next(sha3, layer)) <= NodeInputs(sha3, layer)
  {
    hide NodeInput, HashNode;
  }

  lemma {:induction false} HeightOfLevel(sha3: seq<byte> -> Hash, leaves: seq<Hash>, k: nat)
    requires leaves != [] && k <= Height(|leaves|)
    ensures Level(sha3, leaves, k) != [] && Height(|Level(sha3, leaves, k)|) == Height(|leaves|) - k
    ensures k < Height(|leaves|) ==> |Level(sha3, leaves, k)| > 1
    ensures Root(sha3, Level(sha3, leaves, k)) == Root(sha3, leaves)
    ensures NodeInputs(sha3, Level(sha3, leaves, k)) <= NodeInputs(sha3, leaves)
  {
    hide NodeInputs, Next, Root;
    if k > 0 {
      HeightOfLevel(sha3, leaves, k - 1);
      NextFacts(sha3, Level(sha3, leaves, k - 1));
    }
  }

  /** Every node above the leaf layer is the hash of two nodes one level down. */
  lemma LevelNode(sha3: seq<byte> -> Hash, leaves: seq<Hash>, k: nat, h: Hash) returns (i: nat)
    requires leaves != [] && 0 < k <= Height(|leaves|) && h in Level(sha3, leaves, k)
    ensures var below := Level(sha3, leaves, k - 1);
            && 2 * i < |below| && h == HashNode(sha3, below[2 * i], Partner(below, i))
            && NodeInput(below[2 * i], Partner(below, i)) in NodeInputs(sha3, leaves)
  {
    hide NodeInput, HashNode, Root, NodeInputs, Height, Next;
    var below := Level(sha3, leaves, k - 1);
    HeightOfLevel(sha3, leaves, k - 1);
    i :| 0 <= i < |Level(sha3, leaves, k)| && Level(sha3, leaves, k)[i] == h;
    NextAt(sha3, below, i);
    NextInput(sha3, below, i);
  }

  // ---------------------------------------------------------------- proofs

  datatype Proof = Proof(leafHash: Hash, neighbors: seq<Hash>, leafIndex: int, root: Hash)

  function Step(sha3: seq<byte> -> Hash, current: Hash, idx: nat, sibling: Hash): Hash {
    if idx % 2 == 0 then HashNode(sha3, current, sibling) else HashNode(sha3, sibling, current)
  }

  function Fold(sha3: seq<byte> -> Hash, current: Hash, idx: nat, neighbors: seq<Hash>): Hash
    decreases |neighbors|
  {
    if neighbors == [] then current
    else Fold(sha3, Step(sha3, current, idx, neighbors[0]), idx / 2, neighbors[1..])
  }

  predicate Verifies(sha3: seq<byte> -> Hash, p: Proof) {
    && |p.neighbors| <= MAX_NEIGHBORS
    && 0 <= p.leafIndex < Pow2(|p.neighbors|)
    && Fold(sha3, p.leafHash, p.leafIndex, p.neighbors) == p.root
  }

  /** Everything hashed while checking a proof. */
  ghost function ProofInputs(sha3: seq<byte> -> Hash, current: Hash, idx: nat, neighbors: seq<Hash>): set<seq<byte>>
    decreases |neighbors|
  {
    if neighbors == [] then {}
    else {if idx % 2 == 0 then NodeInput(current, neighbors[0]) else NodeInput(neighbors[0], current)}
         + ProofInputs(sha3, Step(sha3, current, idx, neighbors[0]), idx / 2, neighbors[1..])
  }

  /** The leaf hashes of a batch of payloads, and what is hashed for them. */
  function Leaves(sha3: seq<byte> -> Hash, payloads: seq<seq<byte>>): (r: seq<Hash>)
    ensures |r| == |payloads|
  {
    seq(|payloads|, i requires 0 <= i < |payloads| => HashLeaf(sha3, payloads[i]))
  }

  ghost function TreeInputs(sha3: seq<byte> -> Hash, payloads: seq<seq<byte>>): set<seq<byte>> {
    (set p | p in payloads :: LeafInput(p)) + NodeInputs(sha3, Leaves(sha3, payloads))
  }

  /** No leaf hash of a batch is also a node hash. */
  lemma LeafHashIsNoNode(sha3: seq<byte> -> Hash, inputs: set<seq<byte>>, payload: seq<byte>, l: Hash, r: Hash)
    requires NoCollision(sha3, inputs) && LeafInput(payload) in inputs && NodeInput(l, r) in inputs
    ensures HashLeaf(sha3, payload) != HashNode(sha3, l, r)
  {
    LeafIsNotNode(payload, l, r);
  }

  lemma {:induction false} LeftmostDescent(sha3: seq<byte> -> Hash, a: seq<Hash>, i: nat, b: seq<Hash>, j: nat,
      inputs: set<seq<byte>>)
    requires a != [] && b != [] && i <= Height(|a|) && j <= Height(|b|) && i <= j
    requires NoCollision(sha3, inputs) && NodeInputs(sha3, a) <= inputs && NodeInputs(sha3, b) <= inputs
    requires Level(sha3, a, i) != [] && Level(sha3, b, j) != [] && Level(sha3, a, i)[0] == Level(sha3, b, j)[0]
    ensures Level(sha3, b, j - i) != [] && a[0] == Level(sha3, b, j - i)[0]
  {
    hide NodeInput, HashNode, Root, NodeInputs, Height, Next, NoCollision;
    if i > 0 {
      var la, lb := Level(sha3, a, i - 1), Level(sha3, b, j - 1);
      HeightOfLevel(sha3, a, i - 1);
      HeightOfLevel(sha3, b, j - 1);
      NextAt(sha3, la, 0);
      NextAt(sha3, lb, 0);
      NextInput(sha3, la, 0);
      NextInput(sha3, lb, 0);
      SameNode(sha3, inputs, la[0], Partner(la, 0), lb[0], Partner(lb, 0));
      LeftmostDescent(sha3, a, i - 1, b, j - 1, inputs);
    }
  }

  lemma TopLevel(sha3: seq<byte> -> Hash, leaves: seq<Hash>)
    requires leaves != []
    ensures Level(sha3, leaves, Height(|leaves|)) == [Root(sha3, leaves)]
  {
    hide NodeInput, HashNode, NodeInputs, Next, Level;
    HeightOfLevel(sha3, leaves, Height(|leaves|));
    assert |Level(sha3, leaves, Height(|leaves|))| == 1;
  }

  /** The shorter of two trees with one root would have a leaf that is also a node. */
  lemma NotShorter(sha3: seq<byte> -> Hash, a: seq<seq<byte>>, b: seq<seq<byte>>, inputs: set<seq<byte>>)
    requires a != [] && b != [] && NoCollision(sha3, inputs)
    requires TreeInputs(sha3, a) <= inputs && TreeInputs(sha3, b) <= inputs
    requires Root(sha3, Leaves(sha3, a)) == Root(sha3, Leaves(sha3, b))
    ensures Height(|a|) >= Height(|b|)
  {
    hide NodeInput, LeafInput, HashNode, HashLeaf, Root, NodeInputs, Height, Next, NoCollision, Level;
    var la, lb := Leaves(sha3, a), Leaves(sha3, b);
    var i, j := Height(|a|), Height(|b|);
    if i < j {
      TopLevel(sha3, la);
      TopLevel(sha3, lb);
      LeftmostDescent(sha3, la, i, lb, j, inputs);
      var k := LevelNode(sha3, lb, j - i, la[0]);
      var below := Level(sha3, lb, j - i - 1);
      assert a[0] in a;
      LeafHashIsNoNode(sha3, inputs, a[0], below[2 * k], Partner(below, k));
      assert false;
    }
  }

  /** Trees with one root have one height. */
  lemma HeightsAgree(sha3: seq<byte> -> Hash, a: seq<seq<byte>>, b: seq<seq<byte>>, inputs: set<seq<byte>>)
    requires a != [] && b != [] && NoCollision(sha3, inputs)
    requires TreeInputs(sha3, a) <= inputs && TreeInputs(sha3, b) <= inputs
    requires Root(sha3, Leaves(sha3, a)) == Root(sha3, Leaves(sha3, b))
    ensures Height(|a|) == Height(|b|)
  {
    hide *;
    NotShorter(sha3, a, b, inputs);
    NotShorter(sha3, b, a, inputs);
  }

  /** Two non-empty batches of distinct leaves with the same root are the same batch. */
  lemma RootBindsBatch(sha3: seq<byte> -> Hash, a: seq<seq<byte>>, b: seq<seq<byte>>)
    requires a != [] && b != [] && Distinct(Leaves(sha3, a)) && Distinct(Leaves(sha3, b))
    requires NoCollision(sha3, TreeInputs(sha3, a) + TreeInputs(sha3, b))
    requires Root(sha3, Leaves(sha3, a)) == Root(sha3, Leaves(sha3, b))
    ensures a == b
  {
    hide NodeInput, LeafInput, HashNode, NodeInputs, Height, Next, Root;
    var inputs := TreeInputs(sha3, a) + TreeInputs(sha3, b);
    var la, lb := Leaves(sha3, a), Leaves(sha3, b);
    HeightsAgree(sha3, a, b, inputs);
    SameHeightBinding(sha3, la, lb, inputs);
    assert |a| == |la| == |lb| == |b|;
    forall i | 0 <= i < |a|
      ensures a[i] == b[i]
    {
      assert la[i] == lb[i];
      assert a[i] in a && b[i] in b;
      assert LeafInput(a[i]) in inputs && LeafInput(b[i]) in inputs;
      LeafInputInjective(a[i], b[i]);
    }
  }

  /** A fold that reaches level k of a tree starts |neighbors| levels below it, never below the leaves. */
  lemma {:induction false} FoldStartsInTree(sha3: seq<byte> -> Hash, payloads: seq<seq<byte>>, k: nat,
                                            current: Hash, idx: nat, neighbors: seq<Hash>, inputs: set<seq<byte>>)
    requires payloads != [] && k <= Height(|payloads|) && NoCollision(sha3, inputs)
    requires TreeInputs(sha3, payloads) <= inputs && ProofInputs(sha3, current, idx, neighbors) <= inputs
    requires Fold(sha3, current, idx, neighbors) in Level(sha3, Leaves(sha3, payloads), k)
    ensures |neighbors| <= k && current in Level(sha3, Leaves(sha3, payloads), k - |neighbors|)
    decreases |neighbors|
  {
    hide NodeInput, LeafInput, HashNode, Root, NodeInputs, Height, Next, NoCollision;
    if neighbors != [] {
      var leaves := Leaves(sha3, payloads);
      var parent := Step(sha3, current, idx, neighbors[0]);
      FoldStartsInTree(sha3, payloads, k, parent, idx / 2, neighbors[1..], inputs);
      var l, r := if idx % 2 == 0 then current else neighbors[0], if idx % 2 == 0 then neighbors[0] else current;
      assert NodeInput(l, r) in inputs && parent == HashNode(sha3, l, r);
      var level := k - |neighbors| + 1;
      if level == 0 {
        var i :| 0 <= i < |leaves| && leaves[i] == parent;
        assert payloads[i] in payloads;
        LeafHashIsNoNode(sha3, inputs, payloads[i], l, r);
        assert false;
      } else {
        var i := LevelNode(sha3, leaves, level, parent);
        var below := Level(sha3, leaves, level - 1);
        SameNode(sha3, inputs, l, r, below[2 * i], Partner(below, i));
      }
    }
  }

  /** A payload's leaf hash sits in a tree only as one of its leaves. */
  lemma LeafHashOnlyAtBottom(sha3: seq<byte> -> Hash, payloads: seq<seq<byte>>, payload: seq<byte>, level: nat,
      inputs: set<seq<byte>>)
    requires payloads != [] && level <= Height(|payloads|) && NoCollision(sha3, inputs)
    requires TreeInputs(sha3, payloads) <= inputs && LeafInput(payload) in inputs
    requires HashLeaf(sha3, payload) in Level(sha3, Leaves(sha3, payloads), level)
    ensures level == 0 && payload in payloads
  {
    hide NodeInput, LeafInput, HashNode, NodeInputs, Height, Next, Root;
    var leaves := Leaves(sha3, payloads);
    var leaf := HashLeaf(sha3, payload);
    if level > 0 {
      var i := LevelNode(sha3, leaves, level, leaf);
      var below := Level(sha3, leaves, level - 1);
      LeafHashIsNoNode(sha3, inputs, payload, below[2 * i], Partner(below, i));
      assert false;
    } else {
      var i :| 0 <= i < |leaves| && leaves[i] == leaf;
      assert payloads[i] in payloads;
      assert LeafInput(payloads[i]) in inputs;
      LeafInputInjective(payloads[i], payload);
    }
  }

  lemma RootInTop(sha3: seq<byte> -> Hash, leaves: seq<Hash>)
    requires leaves != []
    ensures Root(sha3, leaves) in Level(sha3, leaves, Height(|leaves|))
  {
    hide Root, Level, Height;
    TopLevel(sha3, leaves);
  }

  lemma FoldedLeafIsMember(sha3: seq<byte> -> Hash, payloads: seq<seq<byte>>, h: nat, payload: seq<byte>,
                           leaf: Hash, idx: nat, neighbors: seq<Hash>, inputs: set<seq<byte>>)
    requires payloads != [] && h == Height(|payloads|) && leaf == HashLeaf(sha3, payload)
    requires NoCollision(sha3, inputs) && TreeInputs(sha3, payloads) <= inputs && LeafInput(payload) in inputs
    requires ProofInputs(sha3, leaf, idx, neighbors) <= inputs
    requires Fold(sha3, leaf, idx, neighbors) in Level(sha3, Leaves(sha3, payloads), h)
    ensures payload in payloads && |neighbors| == h
  {
    hide *;
    FoldStartsInTree(sha3, payloads, h, leaf, idx, neighbors, inputs);
    LeafHashOnlyAtBottom(sha3, payloads, payload, h - |neighbors|, inputs);
  }

  /**
   Membership soundness. Depth and index are the prover's choice; the accepted leaf hash, if it is the
   leaf hash of some payload at all, is one of the tree's leaves.
   */
  lemma AcceptedLeafIsMember(sha3: seq<byte> -> Hash, payloads: seq<seq<byte>>, p: Proof, payload: seq<byte>)
    requires payloads != [] && Verifies(sha3, p)
    requires p.root == Root(sha3, Leaves(sha3, payloads)) && p.leafHash == HashLeaf(sha3, payload)
    requires NoCollision(sha3,
             TreeInputs(sha3, payloads) + ProofInputs(sha3, p.leafHash, p.leafIndex, p.neighbors)
             + {LeafInput(payload)})
    ensures payload in payloads && |p.neighbors| == Height(|payloads|)
  {
    RootInTop(sha3, Leaves(sha3, payloads));
    FoldedLeafIsMember(sha3, payloads, Height(|payloads|), payload, p.leafHash, p.leafIndex, p.neighbors,
      TreeInputs(sha3, payloads) + ProofInputs(sha3, p.leafHash, p.leafIndex, p.neighbors) + {LeafInput(payload)});
  }

  // ---------------------------------------------------------------- the index of a proof

  /** idx without its last n bits */
  function Halved(idx: nat, n: nat): nat {
    if n == 0 then idx else Halved(idx / 2, n - 1)
  }

  lemma {:induction false} HalvedToZero(idx: nat, n: nat)
    requires idx < Pow2(n)
    ensures Halved(idx, n) == 0
  {
    if n > 0 {
      HalvedToZero(idx / 2, n - 1);
    }
  }

  /** A fold into the place its index names, started within the level, started at its index. */
  lemma {:induction false} FoldKeepsPlace(sha3: seq<byte> -> Hash, leaves: seq<Hash>, k: nat, current: Hash, idx: nat,
      neighbors: seq<Hash>, inputs: set<seq<byte>>)
    requires leaves != [] && |neighbors| <= k <= Height(|leaves|) && NoCollision(sha3, inputs)
    requires NodeInputs(sha3, leaves) <= inputs && ProofInputs(sha3, current, idx, neighbors) <= inputs
    requires idx < |Level(sha3, leaves, k - |neighbors|)|
    requires Halved(idx, |neighbors|) < |Level(sha3, leaves, k)|
    requires Fold(sha3, current, idx, neighbors) == Level(sha3, leaves, k)[Halved(idx, |neighbors|)]
    ensures current == Level(sha3, leaves, k - |neighbors|)[idx]
    decreases |neighbors|
  {
    hide NodeInput, HashNode, Root, NodeInputs, Height, Next, NoCollision;
    if neighbors != [] {
      var level := k - |neighbors|;
      var below := Level(sha3, leaves, level);
      var parent := Step(sha3, current, idx, neighbors[0]);
      assert Level(sha3, leaves, level + 1) == Next(sha3, below);
      FoldKeepsPlace(sha3, leaves, k, parent, idx / 2, neighbors[1..], inputs);
      var l, r := if idx % 2 == 0 then current else neighbors[0], if idx % 2 == 0 then neighbors[0] else current;
      assert NodeInput(l, r) in inputs && parent == HashNode(sha3, l, r);
      HeightOfLevel(sha3, leaves, level);
      NextAt(sha3, below, idx / 2);
      NextInput(sha3, below, idx / 2);
      SameNode(sha3, inputs, l, r, below[2 * (idx / 2)], Partner(below, idx / 2));
    }
  }

  /** An accepted index within the batch names the accepted leaf. */
  lemma AcceptedIndexNamesLeaf(sha3: seq<byte> -> Hash, payloads: seq<seq<byte>>, p: Proof, payload: seq<byte>)
    requires payloads != [] && Verifies(sha3, p) && p.leafIndex < |payloads|
    requires p.root == Root(sha3, Leaves(sha3, payloads)) && p.leafHash == HashLeaf(sha3, payload)
    requires NoCollision(sha3,
             TreeInputs(sha3, payloads) + ProofInputs(sha3, p.leafHash, p.leafIndex, p.neighbors)
             + {LeafInput(payload)})
    ensures payloads[p.leafIndex] == payload
  {
    hide NodeInput, LeafInput, HashNode, Root, NodeInputs, Height, Next, NoCollision, Level, ProofInputs, Fold;
    var leaves := Leaves(sha3, payloads);
    var inputs := TreeInputs(sha3, payloads) + ProofInputs(sha3, p.leafHash, p.leafIndex, p.neighbors)
      + {LeafInput(payload)};
    var h := Height(|payloads|);
    AcceptedLeafIsMember(sha3, payloads, p, payload);
    TopLevel(sha3, leaves);
    HalvedToZero(p.leafIndex, h);
    BottomLevel(sha3, leaves);
    FoldKeepsPlace(sha3, leaves, h, p.leafHash, p.leafIndex, p.neighbors, inputs);
    assert payloads[p.leafIndex] in payloads;
    SameLeaf(sha3, inputs, payloads[p.leafIndex], payload);
  }

  lemma BottomLevel(sha3: seq<byte> -> Hash, leaves: seq<Hash>)
    ensures Level(sha3, leaves, 0) == leaves
  {
  }

  lemma SameLeaf(sha3: seq<byte> -> Hash, inputs: set<seq<byte>>, a: seq<byte>, b: seq<byte>)
    requires NoCollision(sha3, inputs) && LeafInput(a) in inputs && LeafInput(b) in inputs
    requires HashLeaf(sha3, a) == HashLeaf(sha3, b)
    ensures a == b
  {
    LeafInputInjective(a, b);
  }

  /** The fold looks at the low bits only, so the range check is what makes an accepted index the only one. */
  lemma {:induction false} FoldIgnoresHighBits(sha3: seq<byte> -> Hash, current: Hash, idx: nat, neighbors: seq<Hash>)
    ensures Fold(sha3, current, idx + Pow2(|neighbors|), neighbors) == Fold(sha3, current, idx, neighbors)
    decreases |neighbors|
  {
    hide HashNode;
    if neighbors != [] {
      var half := Pow2(|neighbors| - 1);
      assert Pow2(|neighbors|) == 2 * half;
      assert (idx + 2 * half) / 2 == idx / 2 + half && (idx + 2 * half) % 2 == idx % 2;
      FoldIgnoresHighBits(sha3, Step(sha3, current, idx, neighbors[0]), idx / 2, neighbors[1..]);
    }
  }

  /** Exactly the indexes below 2^depth are accepted, so no second index differs from one by high bits. */
  lemma IndexIsInRange(sha3: seq<byte> -> Hash, p: Proof, higher: nat)
    requires Verifies(sha3, p) && higher >= Pow2(|p.neighbors|)
    ensures 0 <= p.leafIndex < Pow2(|p.neighbors|) && |p.neighbors| <= 20
    ensures !Verifies(sha3, p.(leafIndex := higher)) && !Verifies(sha3, p.(leafIndex := -1))
  {
  }

  // ---------------------------------------------------------------- completeness

  /** idx ^ 1 */
  function SiblingIndex(idx: nat): nat {
    if idx % 2 == 0 then idx + 1 else idx - 1
  }

  function Sibling(layer: seq<Hash>, idx: nat): Hash
    requires idx < |layer|
  {
    if SiblingIndex(idx) < |layer| then layer[SiblingIndex(idx)] else layer[idx]
  }

  function Neighbors(sha3: seq<byte> -> Hash, layer: seq<Hash>, idx: nat): seq<Hash>
    requires idx < |layer|
    decreases |layer|
  {
    if |layer| == 1 then [] else [Sibling(layer, idx)] + Neighbors(sha3, Next(sha3, layer), idx / 2)
  }

  lemma {:induction false} NeighborsFoldToRoot(sha3: seq<byte> -> Hash, layer: seq<Hash>, idx: nat)
    requires idx < |layer|
    ensures |Neighbors(sha3, layer, idx)| == Height(|layer|)
    ensures Fold(sha3, layer[idx], idx, Neighbors(sha3, layer, idx)) == Root(sha3, layer)
    decreases |layer|
  {
    hide Next, Step, Sibling, HashNode;
    if |layer| > 1 {
      var next := Next(sha3, layer);
      ParentFolds(sha3, layer, idx);
      NeighborsFoldToRoot(sha3, next, idx / 2);
      var rest := Neighbors(sha3, next, idx / 2);
      assert ([Sibling(layer, idx)] + rest)[1..] == rest;
    }
  }

  /** One step with the sibling gives the parent. */
  lemma ParentFolds(sha3: seq<byte> -> Hash, layer: seq<Hash>, idx: nat)
    requires idx < |layer|
    ensures Next(sha3, layer)[idx / 2] == Step(sha3, layer[idx], idx, Sibling(layer, idx))
  {
    hide HashNode;
    NextAt(sha3, layer, idx / 2);
  }

  lemma {:induction false} HeightBounds(n: nat, k: nat)
    ensures n <= Pow2(Height(n))
    ensures n <= Pow2(k) ==> Height(n) <= k
  {
    if n > 1 {
      HeightBounds((n + 1) / 2, if k == 0 then 0 else k - 1);
    }
  }

  /** Every leaf of a tree of at most 2^20 leaves has an accepted proof of at most 20 neighbours. */
  lemma ProofCompleteness(sha3: seq<byte> -> Hash, leaves: seq<Hash>, idx: nat)
    requires idx < |leaves| <= MAX_LEAVES
    ensures var p := Proof(leaves[idx], Neighbors(sha3, leaves, idx), idx, Root(sha3, leaves));
            Verifies(sha3, p) && |p.neighbors| == Height(|leaves|) <= MAX_NEIGHBORS
  {
    NeighborsFoldToRoot(sha3, leaves, idx);
    assert Pow2(20) == 0x10_0000 by {
      assert Pow2(5) == 32;
      assert Pow2(10) == 32 * Pow2(5);
      assert Pow2(15) == 32 * Pow2(10);
      assert Pow2(20) == 32 * Pow2(15);
    }
    HeightBounds(|leaves|, 20);
  }
}
