/** The builder's proofs pass the verifier, and nothing else does. */
module MerkleProofs {
  import opened Bits
  import opened Numerals
  import opened Merkle

  // ----- Completeness -----

  /** Builder and verifier order a pair in the same way, whichever side is which. */
  lemma StepBytesAreNodeBytes(a: Bytes32, b: Bytes32)
    ensures StepBytes(a, b) == NodeBytes(a, b) == NodeBytes(b, a)
  {
    LexTotal(a, b);
  }

  lemma StepReachesParent(h: Hasher, data: seq<Bytes32>, node: nat)
    requires node < |data| && |data| > 1
    ensures h(StepBytes(Sibling(data, node), data[node])) == Level(h, data)[node / 2]
  {
    StepBytesAreNodeBytes(Sibling(data, node), data[node]);
    assert Level(h, data)[node / 2] == h(ParentBytes(data, node / 2));
    if node % 2 == 1 {
      assert 2 * (node / 2) == node - 1;
    } else {
      assert 2 * (node / 2) == node;
    }
  }

  /** For every shape of tree and every position, the prover's path folds to the root. */
  lemma {:induction false} Completeness(h: Hasher, data: seq<Bytes32>, node: nat)
    requires node < |data|
    ensures Fold(h, data[node], Proof(h, data, node)) == Root(h, data)
    decreases |data|
  {
    if |data| > 1 {
      StepReachesParent(h, data, node);
      Completeness(h, Level(h, data), node / 2);
      var path := Proof(h, data, node);
      assert path[0] == Sibling(data, node) && path[1..] == Proof(h, Level(h, data), node / 2);
    }
  }

  function HashLeaves(h: Hasher, leaves: seq<Leaf>): (d: seq<Bytes32>)
    ensures |d| == |leaves|
  {
    seq(|leaves|, i requires 0 <= i < |leaves| => HashLeaf(h, leaves[i]))
  }

  /** Every committed leaf has a proof that an order with this commitment accepts. */
  lemma HonestProofVerifies(h: Hasher, leaves: seq<Leaf>, i: nat, parts: u64)
    requires i < |leaves|
    ensures var data := HashLeaves(h, leaves);
            Verifies(h, PrepareHashlock(Root(h, data), parts),
                     MerkleProof(Proof(h, data, i), leaves[i].index, leaves[i].hashedSecret))
  {
    var data := HashLeaves(h, leaves);
    Completeness(h, data, i);
    PreparedHashlock(Root(h, data), parts);
  }

  /** Binary digits of `x`: the 128-bit width less the leading zeros. */
  function BitLength(x: nat): nat {
    if x == 0 then 0 else 1 + BitLength(x / 2)
  }

  /** The capacity the prover reserves: the base-two logarithm rounded up. */
  function Log2Ceil(x: nat): (r: nat) {
    if x <= 1 then 0
    else if Pow2(BitLength(x) - 1) == x then BitLength(x) - 1
    else BitLength(x)
  }

  lemma {:induction false} BitLengthBounds(x: nat)
    requires x > 0
    ensures Pow2(BitLength(x) - 1) <= x < Pow2(BitLength(x))
  {
    if x > 1 {
      BitLengthBounds(x / 2);
      assert BitLength(x) - 1 == BitLength(x / 2);
      assert Pow2(BitLength(x / 2)) == 2 * Pow2(BitLength(x / 2) - 1);
    }
  }

  /** The rounded-up logarithm is the one exponent whose power just covers `x`. */
  lemma Log2CeilUnique(x: nat, r: nat)
    requires x > 1
    ensures r == Log2Ceil(x) <==> x <= Pow2(r) && (r == 0 || Pow2(r - 1) < x)
  {
    BitLengthBounds(x);
    var c := Log2Ceil(x);
    assert c > 0 && Pow2(c - 1) < x <= Pow2(c);
    if r < c {
      Pow2Monotone(r, c - 1);
    } else if r > c {
      Pow2Monotone(c, r - 1);
    }
  }

  /** One level up takes one off the logarithm. */
  lemma Log2CeilHalves(x: nat)
    requires x > 1
    ensures Log2Ceil(x) == 1 + Log2Ceil((x + 1) / 2)
  {
    var half := (x + 1) / 2;
    if half == 1 {
      Log2CeilUnique(x, 1);
    } else {
      var r := Log2Ceil(half);
      Log2CeilUnique(half, r);
      Log2CeilUnique(x, r + 1);
    }
  }

  /** A proof has exactly as many elements as the prover reserved room for. */
  lemma {:induction false} ProofLength(h: Hasher, data: seq<Bytes32>, node: nat)
    requires node < |data|
    ensures |Proof(h, data, node)| == Log2Ceil(|data|)
    decreases |data|
  {
    if |data| > 1 {
      Log2CeilHalves(|data|);
      ProofLength(h, Level(h, data), node / 2);
    }
  }

  // ----- Soundness -----

  /** Everything hashed into the level above. */
  ghost function LevelInputs(data: seq<Bytes32>): set<seq<byte>> {
    set i | 0 <= i < (|data| + 1) / 2 :: ParentBytes(data, i)
  }

  /** Everything hashed while building the tree above a level. */
  ghost function TreeInputs(h: Hasher, data: seq<Bytes32>): set<seq<byte>>
    decreases |data|
  {
    if |data| <= 1 then {}
    else LevelInputs(data) + TreeInputs(h, Level(h, data))
  }

  ghost function LeafInputs(leaves: seq<Leaf>): set<seq<byte>> {
    set i | 0 <= i < |leaves| :: LeafBytes(leaves[i])
  }

  /** Everything hashed while folding a proof. */
  ghost function FoldInputs(h: Hasher, node: Bytes32, proof: seq<Bytes32>): set<seq<byte>>
    decreases |proof|
  {
    if proof == [] then {}
    else {StepBytes(proof[0], node)} + FoldInputs(h, h(StepBytes(proof[0], node)), proof[1..])
  }

  ghost function CommitmentInputs(h: Hasher, leaves: seq<Leaf>): set<seq<byte>> {
    LeafInputs(leaves) + TreeInputs(h, HashLeaves(h, leaves))
  }

  ghost function ClaimInputs(h: Hasher, p: MerkleProof): set<seq<byte>> {
    {LeafBytes(p.Claim())} + FoldInputs(h, HashLeaf(h, p.Claim()), p.proof)
  }

  /** No two of the given inputs collide, not even on the last 30 bytes of their hashes,
      and none hashes to the zero padding. */
  ghost predicate CollisionFree(h: Hasher, inputs: set<seq<byte>>) {
    && (forall x, y :: x in inputs && y in inputs && h(x)[2..] == h(y)[2..] ==> x == y)
    && (forall x :: x in inputs ==> h(x) != ZERO32)
  }

  lemma LeafBytesInjective(a: Leaf, b: Leaf)
    requires LeafBytes(a) == LeafBytes(b)
    ensures a == b
  {
    var x, y := LeafBytes(a), LeafBytes(b);
    assert x[..8] == BigEndian(a.index, 8) && y[..8] == BigEndian(b.index, 8);
    assert x[8..] == a.hashedSecret && y[8..] == b.hashedSecret;
    PowerOfPow2(8, 8);
    Pow2Values();
    BigEndianRoundTrip(a.index, 8);
    BigEndianRoundTrip(b.index, 8);
  }

  lemma {:induction false} FoldLast(h: Hasher, node: Bytes32, proof: seq<Bytes32>)
    requires proof != []
    decreases |proof|
    ensures var n := |proof| - 1; var below := Fold(h, node, proof[..n]);
            && Fold(h, node, proof) == h(StepBytes(proof[n], below))
            && FoldInputs(h, node, proof) == FoldInputs(h, node, proof[..n]) + {StepBytes(proof[n], below)}
  {
    if |proof| > 1 {
      var next := h(StepBytes(proof[0], node));
      FoldLast(h, next, proof[1..]);
      assert proof[1..][..|proof| - 2] == proof[..|proof| - 1][1..];
    }
  }

  /** The inputs of a fold include the one its result is the hash of. */
  lemma ClaimHash(h: Hasher, p: MerkleProof) returns (x: seq<byte>)
    ensures x in ClaimInputs(h, p) && h(x) == Fold(h, HashLeaf(h, p.Claim()), p.proof)
    ensures p.proof == [] ==> x == LeafBytes(p.Claim())
    ensures p.proof != [] ==> |x| == 64
  {
    if p.proof == [] {
      x := LeafBytes(p.Claim());
    } else {
      var n := |p.proof| - 1;
      var leaf := HashLeaf(h, p.Claim());
      FoldLast(h, leaf, p.proof);
      x := StepBytes(p.proof[n], Fold(h, leaf, p.proof[..n]));
    }
  }

  /** The root of more than one leaf is itself the hash of one of the tree's inputs. */
  lemma {:induction false} RootIsHashed(h: Hasher, data: seq<Bytes32>) returns (y: seq<byte>)
    requires |data| > 1
    ensures y in TreeInputs(h, data) && Root(h, data) == h(y)
    decreases |data|
  {
    if |data| == 2 {
      y := ParentBytes(data, 0);
      assert Level(h, data)[0] == HashParent(h, data, 0);
    } else {
      y := RootIsHashed(h, Level(h, data));
    }
  }

  lemma SameBytesSameChild(element: Bytes32, node: Bytes32, left: Bytes32, right: Bytes32)
    requires StepBytes(element, node) == NodeBytes(left, right)
    ensures node == left || node == right
  {
    var s, t := StepBytes(element, node), NodeBytes(left, right);
    assert s[..32] == Min(element, node) && s[32..] == Max(element, node);
    assert t[..32] == (if LexLess(left, right) then left else right);
    assert t[32..] == (if LexLess(left, right) then right else left);
  }

  /** A proof whose fold is a node above the leaves has a last step, and what it folded
      up to there is one of that node's children. */
  lemma FoldMeetsParent(
    h: Hasher, p: MerkleProof, below: seq<Bytes32>, i: nat, inputs: set<seq<byte>>) returns (q: MerkleProof, j: nat)
    requires 2 * i < |below| && CollisionFree(h, inputs)
    requires ParentBytes(below, i) in inputs
    requires ClaimInputs(h, p) <= inputs
    requires Fold(h, HashLeaf(h, p.Claim()), p.proof) == h(ParentBytes(below, i))
    ensures q.Claim() == p.Claim()
    ensures ClaimInputs(h, q) <= inputs
    ensures j < |below| && Fold(h, HashLeaf(h, q.Claim()), q.proof) == below[j]
  {
    var x := ClaimHash(h, p);
    assert x == ParentBytes(below, i);
    var n := |p.proof| - 1;
    q := p.(proof := p.proof[..n]);
    var leaf := HashLeaf(h, p.Claim());
    FoldLast(h, leaf, p.proof);
    var node := Fold(h, leaf, q.proof);
    SameBytesSameChild(p.proof[n], node, below[2 * i], RightOf(below, 2 * i));
    var z := ClaimHash(h, q);
    assert node != ZERO32;
    j := if node == below[2 * i] then 2 * i else 2 * i + 1;
  }

  /** A fold that meets a leaf's hash claims that leaf. */
  lemma FoldMeetsLeaf(h: Hasher, leaves: seq<Leaf>, p: MerkleProof, i: nat, inputs: set<seq<byte>>)
    requires i < |leaves| && CollisionFree(h, inputs)
    requires Fold(h, HashLeaf(h, p.Claim()), p.proof) == HashLeaf(h, leaves[i])
    requires LeafInputs(leaves) <= inputs
    requires ClaimInputs(h, p) <= inputs
    ensures p.Claim() in leaves
  {
    var x := ClaimHash(h, p);
    assert LeafBytes(leaves[i]) in LeafInputs(leaves);
    assert x == LeafBytes(leaves[i]);
    LeafBytesInjective(p.Claim(), leaves[i]);
  }

  /** A fold that reaches the root passes through a node of every level on its way. */
  lemma {:induction false} FoldDescends(
    h: Hasher, data: seq<Bytes32>, p: MerkleProof, inputs: set<seq<byte>>) returns (q: MerkleProof, j: nat)
    requires |data| > 0 && Fold(h, HashLeaf(h, p.Claim()), p.proof) == Root(h, data)
    requires CollisionFree(h, inputs)
    requires TreeInputs(h, data) <= inputs && ClaimInputs(h, p) <= inputs
    ensures q.Claim() == p.Claim() && ClaimInputs(h, q) <= inputs
    ensures j < |data| && Fold(h, HashLeaf(h, q.Claim()), q.proof) == data[j]
    decreases |data|
  {
    if |data| == 1 {
      q, j := p, 0;
    } else {
      var up, i := FoldDescends(h, Level(h, data), p, inputs);
      assert Level(h, data)[i] == HashParent(h, data, i);
      assert ParentBytes(data, i) in LevelInputs(data);
      q, j := FoldMeetsParent(h, up, data, i, inputs);
    }
  }

  /** Soundness: whatever its length, a proof that an order accepts claims a committed
      pair, provided the hash shows no collision among the inputs the two sides hashed. */
  lemma Soundness(h: Hasher, leaves: seq<Leaf>, parts: u64, p: MerkleProof)
    requires |leaves| > 1
    requires Verifies(h, PrepareHashlock(Root(h, HashLeaves(h, leaves)), parts), p)
    requires CollisionFree(h, CommitmentInputs(h, leaves) + ClaimInputs(h, p))
    ensures p.Claim() in leaves
  {
    var data := HashLeaves(h, leaves);
    var inputs := CommitmentInputs(h, leaves) + ClaimInputs(h, p);
    PreparedHashlock(Root(h, data), parts);
    var y := RootIsHashed(h, data);
    var x := ClaimHash(h, p);
    assert x == y;
    var q, j := FoldDescends(h, data, p, inputs);
    FoldMeetsLeaf(h, leaves, q, j, inputs);
  }
}
