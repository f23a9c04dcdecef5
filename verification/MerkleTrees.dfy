/**
 The loops of bridge/merkle.go (tree building, proof generation, proof checking, batch constructors),
 each proved against the layers of module Merkle, and what the trees say about whole message batches.
 */
module MerkleTrees {
  import opened ByteStrings
  import opened Results
  import opened Sequences
  import opened Merkle
  import opened Preimage

  /** layers[0] is the leaf layer; an empty tree has no layers and the zero root. */
  datatype Tree = Tree(leaves: seq<Hash>, root: Hash, layers: seq<seq<Hash>>)

  const ZERO: Hash := Fill(0, 32)

  function Layers(sha3: seq<byte> -> Hash, layer: seq<Hash>): seq<seq<Hash>>
    decreases |layer|
  {
    if |layer| <= 1 then [layer] else [layer] + Layers(sha3, Next(sha3, layer))
  }

  ghost predicate TreeOf(sha3: seq<byte> -> Hash, t: Tree, leaves: seq<Hash>) {
    && t.leaves == leaves
    && (leaves == [] ==> t.root == ZERO && t.layers == [])
    && (leaves != [] ==> t.root == Root(sha3, leaves) && t.layers == Layers(sha3, leaves))
  }

  // ---------------------------------------------------------------- building

  method NextLayer(sha3: seq<byte> -> Hash, current: seq<Hash>) returns (next: seq<Hash>)
    ensures next == Next(sha3, current)
  {
    hide HashNode;
    next := [];
    var i := 0;
    while i < |current|
      invariant 0 <= i <= |current| + 1 && i == 2 * |next|
      invariant |next| <= |Next(sha3, current)| && next == Next(sha3, current)[..|next|]
    {
      if i + 1 < |current| {
        next := next + [HashNode(sha3, current[i], current[i + 1])];
      } else {
        next := next + [HashNode(sha3, current[i], current[i])];
      }
      i := i + 2;
    }
  }

  method BuildTree(sha3: seq<byte> -> Hash, leaves: seq<Hash>) returns (root: Hash, layers: seq<seq<Hash>>)
    ensures TreeOf(sha3, Tree(leaves, root, layers), leaves)
  {
    hide Next;
    if |leaves| == 0 {
      return ZERO, [];
    }
    if |leaves| == 1 {
      return leaves[0], [leaves];
    }
    layers := [leaves];
    var current := leaves;
    ghost var below: seq<seq<Hash>> := [];
    while |current| > 1
      invariant current != [] && layers == below + [current]
      invariant Root(sha3, leaves) == Root(sha3, current)
      invariant Layers(sha3, leaves) == below + Layers(sha3, current)
      decreases |current|
    {
      var next := NextLayer(sha3, current);
      assert below + ([current] + Layers(sha3, next)) == (below + [current]) + Layers(sha3, next);
      below := layers;
      layers := layers + [next];
      current := next;
    }
    root := current[0];
  }

  datatype BatchError = TooMany | NilMessage(at: nat) | LongId(at: nat) | Duplicate(at: nat)

  /** The legacy constructor: leaves commit to message ids only. */
  method NewMerkleTree(sha3: seq<byte> -> Hash, ids: seq<seq<byte>>) returns (r: Result<Tree, BatchError>)
    ensures r.Ok? <==> |ids| <= MAX_LEAVES && (forall i | 0 <= i < |ids| :: |ids[i]| <= MAX_LEAF_SIZE)
                       && (forall i, j | 0 <= i < j < |ids| :: ids[i] != ids[j])
    ensures r.Ok? ==> TreeOf(sha3, r.value, Leaves(sha3, ids))
  {
    hide Root, Layers, HashLeaf;
    if |ids| == 0 {
      return Ok(Tree([], ZERO, []));
    }
    if |ids| > MAX_LEAVES {
      return Err(TooMany);
    }
    var leaves: seq<Hash> := [];
    var seen: set<seq<byte>> := {};
    for i := 0 to |ids|
      invariant seen == set k | 0 <= k < i :: ids[k]
      invariant leaves == Leaves(sha3, ids)[..i]
      invariant forall k | 0 <= k < i :: |ids[k]| <= MAX_LEAF_SIZE
      invariant forall k, j | 0 <= k < j < i :: ids[k] != ids[j]
    {
      if |ids[i]| > MAX_LEAF_SIZE {
        return Err(LongId(i));
      }
      if ids[i] in seen {
        return Err(Duplicate(i));
      }
      seen := seen + {ids[i]};
      leaves := leaves + [HashLeaf(sha3, ids[i])];
    }
    assert leaves == Leaves(sha3, ids);
    var root, layers := BuildTree(sha3, leaves);
    return Ok(Tree(leaves, root, layers));
  }

  // ---------------------------------------------------------------- proofs

  lemma {:induction false} LayerAt(sha3: seq<byte> -> Hash, layer: seq<Hash>, k: nat)
    requires layer != [] && k < |Layers(sha3, layer)| - 1
    ensures |Layers(sha3, layer)[k]| > 1
    ensures Layers(sha3, layer)[k + 1] == Next(sha3, Layers(sha3, layer)[k])
    decreases |layer|
  {
    hide Next;
    if |layer| > 1 && k > 0 {
      LayerAt(sha3, Next(sha3, layer), k - 1);
    }
  }

  lemma {:induction false} LastLayer(sha3: seq<byte> -> Hash, layer: seq<Hash>)
    requires layer != []
    ensures var ls := Layers(sha3, layer); |ls| >= 1 && |ls[|ls| - 1]| == 1
    decreases |layer|
  {
    hide Next;
    if |layer| > 1 {
      LastLayer(sha3, Next(sha3, layer));
    }
  }

  datatype ProofError = EmptyTree | LeafNotFound

  method FindLeaf(leaves: seq<Hash>, leaf: Hash) returns (index: int)
    ensures index == -1 <==> leaf !in leaves
    ensures index != -1 ==> 0 <= index < |leaves| && leaves[index] == leaf && leaf !in leaves[..index]
  {
    for i := 0 to |leaves|
      invariant leaf !in leaves[..i]
    {
      if leaves[i] == leaf {
        return i;
      }
      assert leaves[..i + 1] == leaves[..i] + [leaves[i]];
    }
    assert leaves[..|leaves|] == leaves;
    return -1;
  }

  /** Proofs exist exactly for the leaves of the tree, name the first occurrence, and are accepted. */
  method GenerateProof(sha3: seq<byte> -> Hash, t: Tree, leaf: Hash) returns (r: Result<Proof, ProofError>)
    requires TreeOf(sha3, t, t.leaves)
    ensures r.Ok? <==> leaf in t.leaves
    ensures r == Err(EmptyTree) <==> t.leaves == []
    ensures r.Ok? ==> r.value.leafHash == leaf && r.value.root == t.root
                      && 0 <= r.value.leafIndex < |t.leaves| && t.leaves[r.value.leafIndex] == leaf
                      && leaf !in t.leaves[..r.value.leafIndex]
                      && r.value.neighbors == Neighbors(sha3, t.leaves, r.value.leafIndex)
    ensures r.Ok? && |t.leaves| <= MAX_LEAVES ==> Verifies(sha3, r.value)
  {
    hide Root, Next, Verifies, Height;
    if t.leaves != [] {
      LastLayer(sha3, t.leaves);
    }
    if |t.layers| == 0 {
      return Err(EmptyTree);
    }
    var leafIndex := FindLeaf(t.leaves, leaf);
    if leafIndex == -1 {
      return Err(LeafNotFound);
    }
    var neighbors: seq<Hash> := [];
    var idx := leafIndex;
    for layerIdx := 0 to |t.layers| - 1
      invariant 0 <= idx < |t.layers[layerIdx]|
      invariant Neighbors(sha3, t.leaves, leafIndex) == neighbors + Neighbors(sha3, t.layers[layerIdx], idx)
    {
      var layer := t.layers[layerIdx];
      LayerAt(sha3, t.leaves, layerIdx);
      NextLayerNeighbors(sha3, layer, idx, neighbors);
      var sibling := SiblingIndex(idx);
      if sibling < |layer| {
        neighbors := neighbors + [layer[sibling]];
      } else {
        neighbors := neighbors + [layer[idx]];
      }
      idx := idx / 2;
    }
    assert neighbors + Neighbors(sha3, t.layers[|t.layers| - 1], idx) == neighbors;
    if |t.leaves| <= MAX_LEAVES {
      ProofCompleteness(sha3, t.leaves, leafIndex);
    }
    return Ok(Proof(leaf, neighbors, leafIndex, t.root));
  }

  lemma NextLayerNeighbors(sha3: seq<byte> -> Hash, layer: seq<Hash>, idx: nat, done: seq<Hash>)
    requires idx < |layer| && |layer| > 1
    ensures done + Neighbors(sha3, layer, idx)
         == (done + [Sibling(layer, idx)]) + Neighbors(sha3, Next(sha3, layer), idx / 2)
  {
    hide Next;
  }

  method VerifyMerkleProof(sha3: seq<byte> -> Hash, proof: Option<Proof>) returns (ok: bool)
    ensures ok <==> proof.Some? && Verifies(sha3, proof.value)
  {
    hide Step;
    if proof.None? {
      return false;
    }
    var p := proof.value;
    if |p.neighbors| > MAX_NEIGHBORS {
      return false;
    }
    var bound := Pow2(|p.neighbors|);
    if p.leafIndex < 0 || p.leafIndex >= bound {
      return false;
    }
    var current, idx := p.leafHash, p.leafIndex;
    for i := 0 to |p.neighbors|
      invariant idx >= 0
      invariant Fold(sha3, p.leafHash, p.leafIndex, p.neighbors) == Fold(sha3, current, idx, p.neighbors[i..])
    {
      var sibling := p.neighbors[i];
      assert p.neighbors[i..][1..] == p.neighbors[i + 1..] && p.neighbors[i..][0] == sibling;
      FoldStep(sha3, current, idx, sibling);
      if idx % 2 == 0 {
        current := HashNode(sha3, current, sibling);
      } else {
        current := HashNode(sha3, sibling, current);
      }
      idx := idx / 2;
    }
    return current == p.root;
  }

  lemma FoldStep(sha3: seq<byte> -> Hash, current: Hash, idx: nat, sibling: Hash)
    ensures Step(sha3, current, idx, sibling)
         == if idx % 2 == 0 then HashNode(sha3, current, sibling) else HashNode(sha3, sibling, current)
  {
  }

  // ---------------------------------------------------------------- message batches

  /** hashLeaf(computeMessageHash(msg)): the leaf commits to the digest of the whole payload. */
  function MessageDigest(sha3: seq<byte> -> Hash, m: BridgeMessage): seq<byte> {
    sha3(MessagePreimage(m))
  }

  function Digests(sha3: seq<byte> -> Hash, msgs: seq<BridgeMessage>): (r: seq<seq<byte>>)
    ensures |r| == |msgs|
  {
    seq(|msgs|, i requires 0 <= i < |msgs| => MessageDigest(sha3, msgs[i]))
  }

  function MessageLeaves(sha3: seq<byte> -> Hash, msgs: seq<BridgeMessage>): (r: seq<Hash>)
    ensures |r| == |msgs|
  {
    Leaves(sha3, Digests(sha3, msgs))
  }

  /** What the constructor accepts; a nil message pointer is None. */
  ghost predicate Acceptable(sha3: seq<byte> -> Hash, msgs: seq<Option<BridgeMessage>>) {
    && |msgs| <= MAX_LEAVES
    && (forall i | 0 <= i < |msgs| :: msgs[i].Some? && |msgs[i].value.id| <= MAX_LEAF_SIZE)
    && Distinct(MessageLeaves(sha3, Values(msgs)))
  }

  function Values(msgs: seq<Option<BridgeMessage>>): (r: seq<BridgeMessage>)
    requires forall i | 0 <= i < |msgs| :: msgs[i].Some?
    ensures |r| == |msgs|
  {
    seq(|msgs|, i requires 0 <= i < |msgs| => msgs[i].value)
  }

  method NewMerkleTreeFromMessages(sha3: seq<byte> -> Hash, msgs: seq<Option<BridgeMessage>>)
    returns (r: Result<Tree, BatchError>)
    ensures r.Ok? <==> Acceptable(sha3, msgs)
    ensures r.Ok? ==> TreeOf(sha3, r.value, MessageLeaves(sha3, Values(msgs)))
  {
    hide Root, Layers, HashLeaf, MessageDigest;
    if |msgs| == 0 {
      return Ok(Tree([], ZERO, []));
    }
    if |msgs| > MAX_LEAVES {
      return Err(TooMany);
    }
    var leaves: seq<Hash> := [];
    for i := 0 to |msgs|
      invariant |leaves| == i
      invariant forall k | 0 <= k < i :: msgs[k].Some? && |msgs[k].value.id| <= MAX_LEAF_SIZE
      invariant forall k | 0 <= k < i :: leaves[k] == HashLeaf(sha3, MessageDigest(sha3, msgs[k].value))
      invariant Distinct(leaves)
    {
      if msgs[i].None? {
        return Err(NilMessage(i));
      }
      if |msgs[i].value.id| > MAX_LEAF_SIZE {
        return Err(LongId(i));
      }
      var leaf := HashLeaf(sha3, MessageDigest(sha3, msgs[i].value));
      if leaf in leaves {
        DuplicateLeaf(sha3, msgs, leaves, i);
        return Err(Duplicate(i));
      }
      leaves := leaves + [leaf];
    }
    assert leaves == MessageLeaves(sha3, Values(msgs));
    var root, layers := BuildTree(sha3, leaves);
    return Ok(Tree(leaves, root, layers));
  }

  lemma DuplicateLeaf(sha3: seq<byte> -> Hash, msgs: seq<Option<BridgeMessage>>, leaves: seq<Hash>, i: nat)
    requires i < |msgs| && |leaves| == i && msgs[i].Some?
    requires forall k | 0 <= k < i :: msgs[k].Some? && leaves[k] == HashLeaf(sha3, MessageDigest(sha3, msgs[k].value))
    requires HashLeaf(sha3, MessageDigest(sha3, msgs[i].value)) in leaves
    ensures !Acceptable(sha3, msgs)
  {
    hide HashLeaf, MessageDigest;
    if forall j | 0 <= j < |msgs| :: msgs[j].Some? {
      var all := MessageLeaves(sha3, Values(msgs));
      var k :| 0 <= k < i && leaves[k] == HashLeaf(sha3, MessageDigest(sha3, msgs[i].value));
      assert all[k] == all[i];
    }
  }

  ghost function Preimages(msgs: seq<BridgeMessage>): set<seq<byte>> {
    set m | m in msgs :: MessagePreimage(m)
  }

  /** Everything hashed to commit to a batch. */
  ghost function BatchInputs(sha3: seq<byte> -> Hash, msgs: seq<BridgeMessage>): set<seq<byte>> {
    Preimages(msgs) + TreeInputs(sha3, Digests(sha3, msgs))
  }

  lemma SameDigestSameMessage(sha3: seq<byte> -> Hash, m: BridgeMessage, n: BridgeMessage, inputs: set<seq<byte>>)
    requires NoCollision(sha3, inputs) && MessagePreimage(m) in inputs && MessagePreimage(n) in inputs
    requires ShortFields(m) && ShortFields(n) && MessageDigest(sha3, m) == MessageDigest(sha3, n)
    ensures m == n
  {
    hide MessagePreimage, ShortFields;
    MessagePreimageIsInjective(m, n);
  }

  lemma Subset(sha3: seq<byte> -> Hash, smaller: set<seq<byte>>, inputs: set<seq<byte>>)
    requires NoCollision(sha3, inputs) && smaller <= inputs
    ensures NoCollision(sha3, smaller)
  {
  }

  /** Two accepted message batches with one root agree message for message, field for field. */
  lemma RootBindsMessages(sha3: seq<byte> -> Hash, a: seq<BridgeMessage>, b: seq<BridgeMessage>)
    requires a != [] && b != []
    requires Distinct(MessageLeaves(sha3, a)) && Distinct(MessageLeaves(sha3, b))
    requires (forall m | m in a :: ShortFields(m)) && (forall m | m in b :: ShortFields(m))
    requires NoCollision(sha3, BatchInputs(sha3, a) + BatchInputs(sha3, b))
    requires Root(sha3, MessageLeaves(sha3, a)) == Root(sha3, MessageLeaves(sha3, b))
    ensures a == b
  {
    hide NoCollision, TreeInputs, Root, ShortFields, MessagePreimage, Distinct, MessageDigest, Leaves;
    var inputs := BatchInputs(sha3, a) + BatchInputs(sha3, b);
    var da, db := Digests(sha3, a), Digests(sha3, b);
    Subset(sha3, TreeInputs(sha3, da) + TreeInputs(sha3, db), inputs);
    RootBindsBatch(sha3, da, db);
    assert |a| == |da| == |db| == |b|;
    forall i | 0 <= i < |a|
      ensures a[i] == b[i]
    {
      assert da[i] == db[i] && a[i] in a && b[i] in b;
      SameDigestSameMessage(sha3, a[i], b[i], inputs);
    }
  }

  /** An accepted proof for a message's leaf against a batch's root means the message is in the batch. */
  lemma AcceptedMessageIsInBatch(sha3: seq<byte> -> Hash, batch: seq<BridgeMessage>, m: BridgeMessage, p: Proof)
    requires batch != [] && Verifies(sha3, p)
    requires p.root == Root(sha3, MessageLeaves(sha3, batch)) && p.leafHash == HashLeaf(sha3, MessageDigest(sha3, m))
    requires ShortFields(m) && forall n | n in batch :: ShortFields(n)
    requires NoCollision(sha3, BatchInputs(sha3, batch) + ProofInputs(sha3, p.leafHash, p.leafIndex, p.neighbors)
                               + {LeafInput(MessageDigest(sha3, m)), MessagePreimage(m)})
    ensures m in batch
  {
    hide NoCollision, TreeInputs, Root, ShortFields, MessagePreimage, MessageDigest, Leaves, ProofInputs, Verifies,
      HashLeaf, LeafInput;
    var digest := MessageDigest(sha3, m);
    IndexIsNat(sha3, p);
    var inputs := BatchInputs(sha3, batch) + ProofInputs(sha3, p.leafHash, p.leafIndex, p.neighbors)
      + {LeafInput(digest), MessagePreimage(m)};
    Subset(sha3, TreeInputs(sha3, Digests(sha3, batch)) + ProofInputs(sha3, p.leafHash, p.leafIndex, p.neighbors)
      + {LeafInput(digest)}, inputs);
    AcceptedLeafIsMember(sha3, Digests(sha3, batch), p, digest);
    var i :| 0 <= i < |batch| && Digests(sha3, batch)[i] == digest;
    assert batch[i] in batch;
    SameDigestSameMessage(sha3, batch[i], m, inputs);
  }

  lemma IndexIsNat(sha3: seq<byte> -> Hash, p: Proof)
    requires Verifies(sha3, p)
    ensures p.leafIndex >= 0
  {
  }
}
