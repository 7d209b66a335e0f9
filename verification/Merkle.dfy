/** The Merkle tree of an order's secrets: the verifier run by the program, the builder
    and prover run by its clients, and the function each of their loops computes. */
module Merkle {
  import opened Bits
  import opened Numerals

  /** The hash function, Keccak-256 in the program, applied to concatenated bytes. */
  type Hasher = seq<byte> -> Bytes32

  /** A committed leaf: the position of a secret and the hash of that secret. */
  datatype Leaf = Leaf(index: u64, hashedSecret: Bytes32)

  datatype MerkleProof = MerkleProof(proof: seq<Bytes32>, index: u64, hashedSecret: Bytes32) {
    function Claim(): Leaf {
      Leaf(index, hashedSecret)
    }
  }

  // ----- Byte order -----

  predicate LexLess(a: seq<byte>, b: seq<byte>) {
    b != [] && (a == [] || a[0] < b[0] || (a[0] == b[0] && LexLess(a[1..], b[1..])))
  }

  lemma {:induction false} LexTotal(a: seq<byte>, b: seq<byte>)
    ensures LexLess(a, b) || LexLess(b, a) || a == b
    ensures !(LexLess(a, b) && LexLess(b, a))
  {
    if a != [] && b != [] {
      LexTotal(a[1..], b[1..]);
      assert a == [a[0]] + a[1..] && b == [b[0]] + b[1..];
    }
  }

  /** It is the order of the first bytes that differ. */
  lemma {:induction false} FirstDifferenceDecides(a: seq<byte>, b: seq<byte>, i: nat)
    requires i < |a| && i < |b| && a[..i] == b[..i] && a[i] < b[i]
    ensures LexLess(a, b) && !LexLess(b, a)
    decreases i
  {
    if i > 0 {
      assert a[0] == a[..i][0] == b[..i][0] == b[0];
      assert a[1..][..i - 1] == a[..i][1..] == b[..i][1..] == b[1..][..i - 1];
      FirstDifferenceDecides(a[1..], b[1..], i - 1);
    }
  }

  /** `std::cmp::min` and `max`, which keep their argument order on equal values. */
  function Min(a: Bytes32, b: Bytes32): Bytes32 {
    if LexLess(b, a) then b else a
  }

  function Max(a: Bytes32, b: Bytes32): Bytes32 {
    if LexLess(b, a) then a else b
  }

  // ----- The on-chain verifier -----

  function LeafBytes(leaf: Leaf): (b: seq<byte>)
    ensures |b| == 40
  {
    BigEndian(leaf.index, 8) + leaf.hashedSecret
  }

  function HashLeaf(h: Hasher, leaf: Leaf): Bytes32 {
    h(LeafBytes(leaf))
  }

  /** The bytes hashed to step from a node to its parent. */
  function StepBytes(element: Bytes32, node: Bytes32): (b: seq<byte>)
    ensures |b| == 64
  {
    Min(element, node) + Max(element, node)
  }

  function Fold(h: Hasher, node: Bytes32, proof: seq<Bytes32>): Bytes32
    decreases |proof|
  {
    if proof == [] then node else Fold(h, h(StepBytes(proof[0], node)), proof[1..])
  }

  method ProcessProof(h: Hasher, p: MerkleProof) returns (computedHash: Bytes32)
    ensures computedHash == Fold(h, HashLeaf(h, p.Claim()), p.proof)
  {
    computedHash := HashLeaf(h, p.Claim());
    for i := 0 to |p.proof|
      invariant Fold(h, HashLeaf(h, p.Claim()), p.proof) == Fold(h, computedHash, p.proof[i..])
    {
      assert p.proof[i..][0] == p.proof[i] && p.proof[i..][1..] == p.proof[i + 1..];
      computedHash := h(StepBytes(p.proof[i], computedHash));
    }
  }

  // ----- The off-chain builder and prover -----

  function NodeBytes(left: Bytes32, right: Bytes32): (b: seq<byte>)
    ensures |b| == 64
  {
    if LexLess(left, right) then left + right else right + left
  }

  function HashNodes(h: Hasher, left: Bytes32, right: Bytes32): Bytes32 {
    h(NodeBytes(left, right))
  }

  /** The second child of the pair at `i`, which is zero past an odd end. */
  function RightOf(data: seq<Bytes32>, i: nat): Bytes32 {
    if i + 1 < |data| then data[i + 1] else ZERO32
  }

  /** The bytes hashed into the `i`-th node of the level above. */
  function ParentBytes(data: seq<Bytes32>, i: nat): (b: seq<byte>)
    requires 2 * i < |data|
    ensures |b| == 64
  {
    NodeBytes(data[2 * i], RightOf(data, 2 * i))
  }

  function HashParent(h: Hasher, data: seq<Bytes32>, i: nat): Bytes32
    requires 2 * i < |data|
  {
    h(ParentBytes(data, i))
  }

  function Level(h: Hasher, data: seq<Bytes32>): (r: seq<Bytes32>)
    ensures |r| == (|data| + 1) / 2
  {
    seq((|data| + 1) / 2, i requires 0 <= i < (|data| + 1) / 2 => HashParent(h, data, i))
  }

  method HashLevel(h: Hasher, data: seq<Bytes32>) returns (result: seq<Bytes32>)
    ensures result == Level(h, data)
  {
    result := [];
    var i := 0;
    while i + 1 < |data|
      invariant i % 2 == 0 && i <= |data|
      invariant |result| == i / 2
      invariant result == Level(h, data)[..i / 2]
    {
      assert HashParent(h, data, i / 2) == HashNodes(h, data[i], data[i + 1]);
      result := result + [HashNodes(h, data[i], data[i + 1])];
      i := i + 2;
    }
    if |data| % 2 == 1 {
      assert HashParent(h, data, i / 2) == HashNodes(h, data[|data| - 1], ZERO32);
      result := result + [HashNodes(h, data[|data| - 1], ZERO32)];
    }
  }

  /** Verifier and builder hash two nodes in the same order, the smaller one first. */
  lemma SmallerNodeFirst(a: Bytes32, b: Bytes32, i: nat)
    requires i < 32 && a[..i] == b[..i] && a[i] < b[i]
    ensures StepBytes(a, b) == StepBytes(b, a) == NodeBytes(a, b) == NodeBytes(b, a) == a + b
  {
    FirstDifferenceDecides(a, b, i);
  }

  /** Where two different nodes differ first. */
  lemma {:induction false} FirstDifference(a: seq<byte>, b: seq<byte>) returns (i: nat)
    requires |a| == |b| && a != b
    ensures i < |a| && a[..i] == b[..i] && a[i] != b[i]
  {
    i := 0;
    if a[0] == b[0] {
      assert a == [a[0]] + a[1..] && b == [b[0]] + b[1..];
      var j := FirstDifference(a[1..], b[1..]);
      i := j + 1;
      assert a[..i] == [a[0]] + a[1..][..j] && b[..i] == [b[0]] + b[1..][..j];
    }
  }

  /** The bytes hashed for a leaf: eight for its index, most significant first, and the
      hashed secret. */
  lemma LeafLayout(leaf: Leaf)
    ensures FromBigEndian(LeafBytes(leaf)[..8]) == leaf.index && LeafBytes(leaf)[8..] == leaf.hashedSecret
  {
    Pow2Values();
    PowerOfPow2(8, 8);
    BigEndianRoundTrip(leaf.index, 8);
  }

  /** A node left alone at an odd end is hashed after 32 zero bytes. */
  lemma OddEndIsPadded(h: Hasher, data: seq<Bytes32>)
    requires |data| % 2 == 1
    ensures Level(h, data)[|data| / 2] == h(seq(32, _ => 0) + data[|data| - 1])
  {
    var last := data[|data| - 1];
    assert ZERO32 == seq(32, _ => 0);
    assert Level(h, data)[|data| / 2] == h(NodeBytes(last, ZERO32));
    if last != ZERO32 {
      var i := FirstDifference(ZERO32, last);
      SmallerNodeFirst(ZERO32, last, i);
    }
  }

  /** Every other node of a level is the hash of the two nodes below it, of which the one
      that is smaller where they first differ comes first. */
  lemma PairIsHashed(h: Hasher, data: seq<Bytes32>, i: nat, j: nat)
    requires 2 * i + 1 < |data| && j < 32
    requires data[2 * i][..j] == data[2 * i + 1][..j]
    ensures var left: seq<byte>, right: seq<byte> := data[2 * i], data[2 * i + 1];
      && (left[j] < right[j] ==> Level(h, data)[i] == h(left + right))
      && (right[j] < left[j] ==> Level(h, data)[i] == h(right + left))
  {
    var left, right := data[2 * i], data[2 * i + 1];
    assert Level(h, data)[i] == h(NodeBytes(left, right));
    if left[j] < right[j] {
      SmallerNodeFirst(left, right, j);
    } else if right[j] < left[j] {
      SmallerNodeFirst(right, left, j);
    }
  }

  /** The fold runs through the proof from its front: the last element is hashed last. */
  lemma {:induction false} FoldEndsWithLast(h: Hasher, node: Bytes32, proof: seq<Bytes32>, element: Bytes32)
    ensures Fold(h, node, []) == node
    ensures Fold(h, node, proof + [element]) == h(StepBytes(element, Fold(h, node, proof)))
    decreases |proof|
  {
    if proof == [] {
      assert proof + [element] == [element];
    } else {
      assert (proof + [element])[1..] == proof[1..] + [element];
      FoldEndsWithLast(h, h(StepBytes(proof[0], node)), proof[1..], element);
    }
  }

  function Root(h: Hasher, data: seq<Bytes32>): Bytes32
    requires |data| > 0
    decreases |data|
  {
    if |data| == 1 then data[0] else Root(h, Level(h, data))
  }

  method GetRoot(h: Hasher, leaves: seq<Bytes32>) returns (root: Bytes32)
    requires |leaves| > 1
    ensures root == Root(h, leaves)
  {
    var data := leaves;
    while |data| > 1
      invariant |data| > 0
      invariant Root(h, data) == Root(h, leaves)
      decreases |data|
    {
      data := HashLevel(h, data);
    }
    root := data[0];
  }

  function Sibling(data: seq<Bytes32>, node: nat): Bytes32
    requires node < |data|
  {
    if node % 2 == 1 then data[node - 1] else RightOf(data, node)
  }

  function Proof(h: Hasher, data: seq<Bytes32>, node: nat): seq<Bytes32>
    requires node < |data|
    decreases |data|
  {
    if |data| == 1 then [] else [Sibling(data, node)] + Proof(h, Level(h, data), node / 2)
  }

  /** Taking the sibling off the front of the path. */
  lemma ProofStep(h: Hasher, data: seq<Bytes32>, node: nat, sibling: Bytes32, before: seq<Bytes32>)
    requires node < |data| && |data| > 1 && sibling == Sibling(data, node)
    ensures before + Proof(h, data, node) == (before + [sibling]) + Proof(h, Level(h, data), node / 2)
  {
    var path, rest := Proof(h, data, node), Proof(h, Level(h, data), node / 2);
    assert path == [sibling] + rest;
    assert before + ([sibling] + rest) == (before + [sibling]) + rest;
  }

  method GetProof(h: Hasher, leaves: seq<Bytes32>, leaf: nat) returns (result: seq<Bytes32>)
    requires leaf < |leaves|
    ensures result == Proof(h, leaves, leaf)
  {
    var data, node: nat := leaves, leaf;
    result := [];
    while |data| > 1
      invariant node < |data|
      invariant result + Proof(h, data, node) == Proof(h, leaves, leaf)
      decreases |data|
    {
      var sibling;
      if node % 2 == 1 {
        sibling := data[node - 1];
      } else if node + 1 == |data| {
        sibling := ZERO32;
      } else {
        sibling := data[node + 1];
      }
      ProofStep(h, data, node, sibling, result);
      result := result + [sibling];
      node := node / 2;
      data := HashLevel(h, data);
    }
  }

  // ----- The commitment stored in an order -----

  /** The root with its first two bytes overwritten by the number of parts. */
  function PrepareHashlock(root: Bytes32, parts: u64): Bytes32 {
    BigEndian(parts % 0x1_0000, 2) + root[2..]
  }

  function PartsAmount(hashlock: Bytes32): u16 {
    var high: nat := hashlock[0];
    0x100 * high + hashlock[1]
  }

  lemma PreparedHashlock(root: Bytes32, parts: u64)
    ensures PrepareHashlock(root, parts)[2..] == root[2..]
    ensures parts < 0x1_0000 ==> PartsAmount(PrepareHashlock(root, parts)) == parts
  {
    var hashlock := PrepareHashlock(root, parts);
    var digits := LittleEndian(parts % 0x1_0000, 2);
    assert hashlock[0] == digits[1] && hashlock[1] == digits[0];
    assert Power(0x100, 1) == 0x100 && Power(0x100, 2) == 0x1_0000;
    LittleEndianRoundTrip(parts % 0x1_0000, 2);
    assert FromDigits(digits[1..], 0x100) == digits[1];
  }

  lemma LowTwoBytes(n: nat)
    ensures n % 0x1_0000 % 0x100 == n % 0x100 && n % 0x1_0000 / 0x100 == n / 0x100 % 0x100
  {
  }

  /** The two bytes are the lowest of the number of parts, the higher one first. */
  lemma PreparedBytes(root: Bytes32, parts: u64)
    ensures PrepareHashlock(root, parts)[0] == parts / 0x100 % 0x100
    ensures PrepareHashlock(root, parts)[1] == parts % 0x100
  {
    var n := parts % 0x1_0000;
    LowTwoBytes(parts);
    var digits := LittleEndian(n, 2);
    DigitAt(n, 0x100, 2, 0);
    DigitAt(n, 0x100, 2, 1);
    assert Power(0x100, 1) == 0x100 && Power(0x100, 0) == 1;
    assert PrepareHashlock(root, parts)[0] == digits[1] && PrepareHashlock(root, parts)[1] == digits[0];
  }

  /** The root check of a partial fill: all but the first two bytes must agree. */
  predicate Verifies(h: Hasher, hashlock: Bytes32, p: MerkleProof) {
    Fold(h, HashLeaf(h, p.Claim()), p.proof)[2..] == hashlock[2..]
  }
}
