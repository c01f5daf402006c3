/** The income Merkle tree: heap layout, sibling proofs, and what an accepted proof proves. */
module Merkle {
  import opened Options
  import opened Sorting

  /** A 32-byte digest as the number it spells, so byte order is numeric order. */
  type Digest = int

  datatype Leaf = Leaf(account: nat, amount: int)

  const MAX_AMOUNT: int := 0x1_0000000000000000_0000000000000000_0000000000000000_0000000000000000

  /** What the hash function is applied to: one digest, or two 32-byte words. */
  datatype Preimage = One(d: Digest) | Two(a: int, b: int)

  type HashFunction = Preimage -> Digest

  function Magnitude(amount: int): nat {
    if amount < 0 then -amount else amount
  }

  /** The doubly hashed leaf; the amount is serialized without its sign. */
  function LeafHash(K: HashFunction, account: nat, amount: int): Digest {
    K(One(K(Two(account, Magnitude(amount)))))
  }

  function Ordered(a: Digest, b: Digest): Preimage {
    if a > b then Two(b, a) else Two(a, b)
  }

  function HashPair(K: HashFunction, a: Digest, b: Digest): Digest {
    K(Ordered(a, b))
  }

  lemma HashPairCommutes(K: HashFunction, a: Digest, b: Digest)
    ensures HashPair(K, a, b) == HashPair(K, b, a)
  {
  }

  /** A built tree: nodes in heap order and each leaf hash's position. */
  datatype Tree = Tree(nodes: seq<Digest>, byHash: map<Digest, nat>)

  datatype BuildResult = Built(tree: Tree) | NoLeaves | BadAmount(index: nat) | Duplicate

  predicate AmountInRange(l: Leaf) {
    0 <= l.amount < MAX_AMOUNT
  }

  function LeafHashes(K: HashFunction, leaves: seq<Leaf>): (r: seq<Digest>)
    ensures |r| == |leaves|
    ensures forall i :: 0 <= i < |leaves| ==> r[i] == LeafHash(K, leaves[i].account, leaves[i].amount)
  {
    seq(|leaves|, i requires 0 <= i < |leaves| => LeafHash(K, leaves[i].account, leaves[i].amount))
  }

  predicate AtMost(a: Digest, b: Digest) {
    a <= b
  }

  ghost predicate Distinct(s: seq<Digest>) {
    forall i, j :: 0 <= i < j < |s| ==> s[i] != s[j]
  }

  /** The heap invariant: `n` leaves at the end, every earlier node hashing its two children. */
  ghost predicate Heap(K: HashFunction, nodes: seq<Digest>, n: nat) {
    && n >= 1 && |nodes| == 2 * n - 1
    && forall i :: 0 <= i < n - 1 ==> nodes[i] == HashPair(K, nodes[2 * i + 1], nodes[2 * i + 2])
  }

  /** The leaf positions hold the sorted hashes, largest first. */
  ghost predicate LeavesStored(nodes: seq<Digest>, sorted: seq<Digest>) {
    |nodes| == 2 * |sorted| - 1 && forall i :: 0 <= i < |sorted| ==> nodes[|nodes| - 1 - i] == sorted[i]
  }

  ghost predicate Indexed(byHash: map<Digest, nat>, sorted: seq<Digest>, size: nat) {
    && (forall h :: h in byHash <==> h in sorted)
    && (forall i :: 0 <= i < |sorted| ==> byHash[sorted[i]] == size - 1 - i)
  }

  /** Everything BuildTree promises about its result. */
  ghost predicate TreeOf(K: HashFunction, t: Tree, leaves: seq<Leaf>) {
    var sorted := Sort(LeafHashes(K, leaves), AtMost);
    && leaves != [] && (forall i :: 0 <= i < |leaves| ==> AmountInRange(leaves[i]))
    && Heap(K, t.nodes, |leaves|)
    && LeavesStored(t.nodes, sorted)
    && Indexed(t.byHash, sorted, |t.nodes|)
    && Distinct(sorted)
  }

  lemma AtMostPreorder()
    ensures Preorder(AtMost)
  {
  }

  /** In a sorted sequence any repetition shows up between neighbours. */
  lemma NeighboursSuffice(s: seq<Digest>)
    requires Sorted(s, AtMost) && forall i :: 1 <= i < |s| ==> s[i] != s[i - 1]
    ensures Distinct(s)
  {
    forall i, j | 0 <= i < j < |s| ensures s[i] != s[j] {
      assert AtMost(s[i], s[j - 1]) || i == j - 1;
      assert AtMost(s[j - 1], s[j]);
    }
  }

  method BuildTree(K: HashFunction, leaves: seq<Leaf>) returns (r: BuildResult)
    ensures r.NoLeaves? <==> leaves == []
    ensures r.BadAmount? <==> leaves != [] && exists i :: 0 <= i < |leaves| && !AmountInRange(leaves[i])
    ensures r.BadAmount? ==> r.index < |leaves| && !AmountInRange(leaves[r.index]) && forall i :: 0 <= i < r.index ==> AmountInRange(leaves[i])
    ensures r.Duplicate? ==> !Distinct(Sort(LeafHashes(K, leaves), AtMost))
    ensures r.Built? ==> TreeOf(K, r.tree, leaves)
  {
    if leaves == [] {
      return NoLeaves;
    }
    for i := 0 to |leaves|
      invariant forall j :: 0 <= j < i ==> AmountInRange(leaves[j])
    {
      if !AmountInRange(leaves[i]) {
        return BadAmount(i);
      }
    }
    var hashes := Sort(LeafHashes(K, leaves), AtMost);
    AtMostPreorder();
    SortSorted(LeafHashes(K, leaves), AtMost);
    for i := 1 to |hashes|
      invariant forall j :: 1 <= j < i ==> hashes[j] != hashes[j - 1]
    {
      if hashes[i] == hashes[i - 1] {
        return Duplicate;
      }
    }
    NeighboursSuffice(hashes);
    var tree := Assemble(K, hashes);
    return Built(tree);
  }

  method Assemble(K: HashFunction, hashes: seq<Digest>) returns (t: Tree)
    requires hashes != [] && Distinct(hashes)
    ensures Heap(K, t.nodes, |hashes|) && LeavesStored(t.nodes, hashes) && Indexed(t.byHash, hashes, |t.nodes|)
  {
    var nodes := new Digest[2 * |hashes| - 1];
    var byHash := StoreLeaves(nodes, hashes);
    HashInnerNodes(K, nodes, hashes);
    t := Tree(nodes[..], byHash);
  }

  /** Writes the sorted hashes from the end of the array backwards and indexes them. */
  method StoreLeaves(nodes: array<Digest>, hashes: seq<Digest>) returns (byHash: map<Digest, nat>)
    requires hashes != [] && Distinct(hashes) && nodes.Length == 2 * |hashes| - 1
    modifies nodes
    ensures LeavesStored(nodes[..], hashes) && Indexed(byHash, hashes, nodes.Length)
  {
    byHash := map[];
    for i := 0 to |hashes|
      invariant forall k :: 0 <= k < i ==> nodes[nodes.Length - 1 - k] == hashes[k]
      invariant forall h :: h in byHash <==> h in hashes[..i]
      invariant forall k :: 0 <= k < i ==> hashes[k] in byHash && byHash[hashes[k]] == nodes.Length - 1 - k
    {
      nodes[nodes.Length - 1 - i] := hashes[i];
      byHash := byHash[hashes[i] := nodes.Length - 1 - i];
      assert hashes[..i + 1] == hashes[..i] + [hashes[i]];
    }
    assert hashes[..|hashes|] == hashes;
  }

  /** Fills the inner nodes from the last one up to the root. */
  method HashInnerNodes(K: HashFunction, nodes: array<Digest>, hashes: seq<Digest>)
    requires hashes != [] && LeavesStored(nodes[..], hashes)
    modifies nodes
    ensures LeavesStored(nodes[..], hashes) && Heap(K, nodes[..], |hashes|)
  {
    var n := |hashes|;
    ghost var leaves := nodes[n - 1..];
    var i := n - 2;
    while i >= 0
      invariant -1 <= i <= n - 2
      invariant nodes[n - 1..] == leaves
      invariant forall k :: i < k < n - 1 ==> nodes[k] == HashPair(K, nodes[2 * k + 1], nodes[2 * k + 2])
    {
      nodes[i] := HashPair(K, nodes[2 * i + 1], nodes[2 * i + 2]);
      i := i - 1;
    }
    forall k | 0 <= k < n ensures nodes[..][nodes.Length - 1 - k] == hashes[k] {
      assert nodes[nodes.Length - 1 - k] == leaves[n - 1 - k];
    }
  }

  function Root(t: Tree): Digest
    requires t.nodes != []
  {
    t.nodes[0]
  }

  function Sibling(idx: nat): nat
    requires idx > 0
  {
    if idx % 2 == 0 then idx - 1 else idx + 1
  }

  function Parent(idx: nat): nat
    requires idx > 0
  {
    (idx - 1) / 2
  }

  /** The sibling path from a node to the root. */
  function Path(nodes: seq<Digest>, idx: nat): seq<Digest>
    requires idx < |nodes| && |nodes| % 2 == 1
    decreases idx
  {
    if idx == 0 then [] else [nodes[Sibling(idx)]] + Path(nodes, Parent(idx))
  }

  lemma PathNext(nodes: seq<Digest>, idx: nat, proof: seq<Digest>)
    requires 0 < idx < |nodes| && |nodes| % 2 == 1
    ensures proof + Path(nodes, idx) == proof + [nodes[Sibling(idx)]] + Path(nodes, Parent(idx))
  {
  }

  method Proof(K: HashFunction, t: Tree, account: nat, amount: int) returns (r: Option<seq<Digest>>)
    requires |t.nodes| % 2 == 1 && forall h :: h in t.byHash ==> t.byHash[h] < |t.nodes|
    ensures r.Some? <==> LeafHash(K, account, amount) in t.byHash
    ensures r.Some? ==> r.value == Path(t.nodes, t.byHash[LeafHash(K, account, amount)])
  {
    var h := LeafHash(K, account, amount);
    if h !in t.byHash {
      return None;
    }
    var idx := t.byHash[h];
    ghost var full := Path(t.nodes, idx);
    var proof := [];
    while idx > 0
      invariant 0 <= idx < |t.nodes|
      invariant proof + Path(t.nodes, idx) == full
    {
      var sibling := idx + 1;
      if idx % 2 == 0 {
        sibling := idx - 1;
      }
      PathNext(t.nodes, idx, proof);
      proof := proof + [t.nodes[sibling]];
      idx := (idx - 1) / 2;
    }
    return Some(proof);
  }

  /** Hashing a digest up along sibling digests. */
  function Climb(K: HashFunction, h: Digest, proof: seq<Digest>): Digest
    decreases |proof|
  {
    if proof == [] then h else Climb(K, HashPair(K, h, proof[0]), proof[1..])
  }

  method VerifyProof(K: HashFunction, root: Digest, leaf: Digest, proof: seq<Digest>) returns (ok: bool)
    ensures ok <==> Climb(K, leaf, proof) == root
  {
    var h := leaf;
    for i := 0 to |proof|
      invariant Climb(K, h, proof[i..]) == Climb(K, leaf, proof)
    {
      h := HashPair(K, h, proof[i]);
    }
    ok := h == root;
  }

  // Completeness

  /** The path of any node climbs back to the root, for every hash function. */
  lemma {:induction false} PathClimbs(K: HashFunction, nodes: seq<Digest>, n: nat, idx: nat)
    requires Heap(K, nodes, n) && idx < |nodes|
    ensures Climb(K, nodes[idx], Path(nodes, idx)) == nodes[0]
    decreases idx
  {
    if idx > 0 {
      var p := Parent(idx);
      assert p < n - 1;
      assert nodes[p] == HashPair(K, nodes[2 * p + 1], nodes[2 * p + 2]);
      HashPairCommutes(K, nodes[2 * p + 1], nodes[2 * p + 2]);
      assert HashPair(K, nodes[idx], nodes[Sibling(idx)]) == nodes[p];
      PathClimbs(K, nodes, n, p);
      assert Path(nodes, idx)[1..] == Path(nodes, p);
    }
  }

  /** A leaf's hash is mapped to a leaf position that holds it. */
  lemma LeafIsMapped(K: HashFunction, t: Tree, leaves: seq<Leaf>, k: nat)
    requires TreeOf(K, t, leaves) && k < |leaves|
    ensures var h := LeafHash(K, leaves[k].account, leaves[k].amount);
      h in t.byHash && |leaves| - 1 <= t.byHash[h] < |t.nodes| && t.nodes[t.byHash[h]] == h
  {
    var sorted := Sort(LeafHashes(K, leaves), AtMost);
    var i := SortedPosition(LeafHashes(K, leaves), k);
    PositionIsMapped(t.nodes, t.byHash, sorted, i);
  }

  lemma PositionIsMapped(nodes: seq<Digest>, byHash: map<Digest, nat>, sorted: seq<Digest>, i: nat)
    requires LeavesStored(nodes, sorted) && Indexed(byHash, sorted, |nodes|) && i < |sorted|
    ensures sorted[i] in byHash && |sorted| - 1 <= byHash[sorted[i]] < |nodes| && nodes[byHash[sorted[i]]] == sorted[i]
  {
  }

  lemma SortedPosition(hashes: seq<Digest>, k: nat) returns (i: nat)
    requires k < |hashes|
    ensures i < |Sort(hashes, AtMost)| && Sort(hashes, AtMost)[i] == hashes[k]
  {
    SortKeeps(hashes, AtMost);
    assert hashes[k] in Sort(hashes, AtMost);
    i :| 0 <= i < |Sort(hashes, AtMost)| && Sort(hashes, AtMost)[i] == hashes[k];
  }

  /** Every leaf of a built tree has a proof, and that proof verifies. */
  lemma ProofsVerify(K: HashFunction, t: Tree, leaves: seq<Leaf>, k: nat)
    requires TreeOf(K, t, leaves) && k < |leaves|
    ensures var h := LeafHash(K, leaves[k].account, leaves[k].amount);
      h in t.byHash && |leaves| - 1 <= t.byHash[h] < |t.nodes| && Climb(K, h, Path(t.nodes, t.byHash[h])) == Root(t)
  {
    LeafIsMapped(K, t, leaves, k);
    PathClimbs(K, t.nodes, |leaves|, t.byHash[LeafHash(K, leaves[k].account, leaves[k].amount)]);
  }

  // Soundness

  /** The inputs that building a tree hashes. */
  ghost predicate HashedByTree(t: Tree, leaves: seq<Leaf>, K: HashFunction, p: Preimage) {
    || (exists i :: 0 <= i < |leaves| && (p == Two(leaves[i].account, Magnitude(leaves[i].amount))
          || p == One(K(Two(leaves[i].account, Magnitude(leaves[i].amount))))))
    || (exists i :: 0 <= i < |leaves| - 1 && 2 * i + 2 < |t.nodes| && p == Ordered(t.nodes[2 * i + 1], t.nodes[2 * i + 2]))
  }

  /** The inputs that verifying a proof hashes, above its leaf. */
  ghost predicate HashedByClimb(K: HashFunction, h: Digest, proof: seq<Digest>, p: Preimage)
    decreases |proof|
  {
    proof != [] && (p == Ordered(h, proof[0]) || HashedByClimb(K, HashPair(K, h, proof[0]), proof[1..], p))
  }

  ghost predicate HashedByClaim(K: HashFunction, account: nat, amount: int, p: Preimage) {
    p == Two(account, Magnitude(amount)) || p == One(K(Two(account, Magnitude(amount))))
  }

  /** No input hashed by the tree collides with a different one hashed while climbing. */
  ghost predicate NoClimbCollision(K: HashFunction, t: Tree, leaves: seq<Leaf>, h: Digest, proof: seq<Digest>) {
    forall p, q :: HashedByTree(t, leaves, K, p) && HashedByClimb(K, h, proof, q) ==> K(p) == K(q) ==> p == q
  }

  /** No input hashed by the tree collides with a different one hashed for the claimed leaf. */
  ghost predicate NoClaimCollision(K: HashFunction, t: Tree, leaves: seq<Leaf>, account: nat, amount: int) {
    forall p, q :: HashedByTree(t, leaves, K, p) && HashedByClaim(K, account, amount, q) ==> K(p) == K(q) ==> p == q
  }

  lemma ClimbTailCollision(K: HashFunction, t: Tree, leaves: seq<Leaf>, h: Digest, proof: seq<Digest>)
    requires proof != [] && NoClimbCollision(K, t, leaves, h, proof)
    ensures NoClimbCollision(K, t, leaves, HashPair(K, h, proof[0]), proof[1..])
  {
    var up := HashPair(K, h, proof[0]);
    forall p, q | HashedByTree(t, leaves, K, p) && HashedByClimb(K, up, proof[1..], q) ensures K(p) == K(q) ==> p == q {
      assert HashedByClimb(K, h, proof, q);
    }
  }

  /** When a node's digest is a pair's hash, the pair's first digest is one of its children. */
  lemma ClimbedFromAChild(K: HashFunction, t: Tree, leaves: seq<Leaf>, h: Digest, proof: seq<Digest>, parent: nat) returns (idx: nat)
    requires TreeOf(K, t, leaves) && proof != [] && NoClimbCollision(K, t, leaves, h, proof)
    requires parent < |t.nodes| && t.nodes[parent] == HashPair(K, h, proof[0])
    ensures idx < |t.nodes| && t.nodes[idx] == h
  {
    idx := 0;
    assert HashedByClimb(K, h, proof, Ordered(h, proof[0]));
    if parent < |leaves| - 1 {
      assert HashedByTree(t, leaves, K, Ordered(t.nodes[2 * parent + 1], t.nodes[2 * parent + 2]));
      idx := if h == t.nodes[2 * parent + 1] then 2 * parent + 1 else 2 * parent + 2;
    } else {
      var k := LeafAt(K, t, leaves, parent);
      assert HashedByTree(t, leaves, K, One(K(Two(leaves[k].account, Magnitude(leaves[k].amount)))));
    }
  }

  /** A node of the tree that an accepted climb passes through was reached from a node of the tree. */
  lemma {:induction false} ClimbStaysInTree(K: HashFunction, t: Tree, leaves: seq<Leaf>, h: Digest, proof: seq<Digest>) returns (idx: nat)
    requires TreeOf(K, t, leaves) && Climb(K, h, proof) == Root(t)
    requires NoClimbCollision(K, t, leaves, h, proof)
    ensures idx < |t.nodes| && t.nodes[idx] == h
    decreases |proof|
  {
    idx := 0;
    if proof != [] {
      ClimbTailCollision(K, t, leaves, h, proof);
      var parent := ClimbStaysInTree(K, t, leaves, HashPair(K, h, proof[0]), proof[1..]);
      idx := ClimbedFromAChild(K, t, leaves, h, proof, parent);
    }
  }

  /** A leaf position holds the hash of one of the leaves. */
  lemma LeafAt(K: HashFunction, t: Tree, leaves: seq<Leaf>, idx: nat) returns (k: nat)
    requires TreeOf(K, t, leaves) && |leaves| - 1 <= idx < |t.nodes|
    ensures k < |leaves| && t.nodes[idx] == LeafHash(K, leaves[k].account, leaves[k].amount)
  {
    var hashes := LeafHashes(K, leaves);
    var sorted := Sort(hashes, AtMost);
    var i := |t.nodes| - 1 - idx;
    assert t.nodes[|t.nodes| - 1 - i] == sorted[i];
    SortKeeps(hashes, AtMost);
    assert sorted[i] in hashes;
    k :| 0 <= k < |hashes| && hashes[k] == sorted[i];
  }

  lemma InnerNodeIsNoLeaf(K: HashFunction, t: Tree, leaves: seq<Leaf>, account: nat, amount: int, idx: nat)
    requires TreeOf(K, t, leaves) && NoClaimCollision(K, t, leaves, account, amount) && idx < |leaves| - 1
    ensures t.nodes[idx] != LeafHash(K, account, amount)
  {
    assert HashedByClaim(K, account, amount, One(K(Two(account, Magnitude(amount)))));
    assert HashedByTree(t, leaves, K, Ordered(t.nodes[2 * idx + 1], t.nodes[2 * idx + 2]));
  }

  /** A claimed leaf hash found among the nodes is the hash of one of the leaves. */
  lemma ClaimedNodeIsALeaf(K: HashFunction, t: Tree, leaves: seq<Leaf>, account: nat, amount: int, idx: nat)
    requires TreeOf(K, t, leaves) && NoClaimCollision(K, t, leaves, account, amount)
    requires idx < |t.nodes| && t.nodes[idx] == LeafHash(K, account, amount)
    ensures Leaf(account, Magnitude(amount)) in leaves
  {
    var word := Two(account, Magnitude(amount));
    assert HashedByClaim(K, account, amount, word) && HashedByClaim(K, account, amount, One(K(word)));
    if idx < |leaves| - 1 {
      InnerNodeIsNoLeaf(K, t, leaves, account, amount, idx);
    }
    var k := LeafAt(K, t, leaves, idx);
    var stored := Two(leaves[k].account, Magnitude(leaves[k].amount));
    assert HashedByTree(t, leaves, K, stored) && HashedByTree(t, leaves, K, One(K(stored)));
    assert AmountInRange(leaves[k]) && leaves[k] == Leaf(account, Magnitude(amount));
  }

  /** Unless hashing collides on inputs actually hashed, an accepted proof is for a pair of the tree.
      The leaf hash drops a sign, so a negative claim stands for its magnitude. */
  lemma AcceptedProofIsForALeaf(K: HashFunction, t: Tree, leaves: seq<Leaf>, account: nat, amount: int, proof: seq<Digest>)
    requires TreeOf(K, t, leaves)
    requires Climb(K, LeafHash(K, account, amount), proof) == Root(t)
    requires NoClimbCollision(K, t, leaves, LeafHash(K, account, amount), proof)
    requires NoClaimCollision(K, t, leaves, account, amount)
    ensures Leaf(account, Magnitude(amount)) in leaves
    ensures amount >= 0 ==> Leaf(account, amount) in leaves
  {
    var idx := ClimbStaysInTree(K, t, leaves, LeafHash(K, account, amount), proof);
    ClaimedNodeIsALeaf(K, t, leaves, account, amount, idx);
  }

  /** With distinct accounts, each account can prove only its own amount. */
  lemma OnlyOwnAmount(K: HashFunction, t: Tree, leaves: seq<Leaf>, k: nat, amount: nat, proof: seq<Digest>)
    requires TreeOf(K, t, leaves) && k < |leaves|
    requires forall i, j :: 0 <= i < j < |leaves| ==> leaves[i].account != leaves[j].account
    requires Climb(K, LeafHash(K, leaves[k].account, amount), proof) == Root(t)
    requires NoClimbCollision(K, t, leaves, LeafHash(K, leaves[k].account, amount), proof)
    requires NoClaimCollision(K, t, leaves, leaves[k].account, amount)
    ensures amount == leaves[k].amount
  {
    AcceptedProofIsForALeaf(K, t, leaves, leaves[k].account, amount, proof);
    var i :| 0 <= i < |leaves| && leaves[i] == Leaf(leaves[k].account, amount);
  }

  ghost predicate Provable(K: HashFunction, t: Tree, account: nat, amount: nat)
    requires t.nodes != []
  {
    exists proof :: Climb(K, LeafHash(K, account, amount), proof) == Root(t)
  }

  /** With a hash that does not collide, a pair has an accepted proof if and only if the tree was built from it. */
  lemma ProvableExactly(K: HashFunction, t: Tree, leaves: seq<Leaf>, account: nat, amount: nat)
    requires TreeOf(K, t, leaves)
    requires forall p, q :: K(p) == K(q) ==> p == q
    ensures Provable(K, t, account, amount) <==> Leaf(account, amount) in leaves
  {
    if Provable(K, t, account, amount) {
      var proof :| Climb(K, LeafHash(K, account, amount), proof) == Root(t);
      AcceptedProofIsForALeaf(K, t, leaves, account, amount, proof);
    }
    if Leaf(account, amount) in leaves {
      var k :| 0 <= k < |leaves| && leaves[k] == Leaf(account, amount);
      ProofsVerify(K, t, leaves, k);
    }
  }

  // Canonicity and size

  lemma {:induction false} HeapDetermined(K: HashFunction, a: seq<Digest>, b: seq<Digest>, n: nat, idx: nat)
    requires Heap(K, a, n) && Heap(K, b, n) && idx < |a|
    requires forall i :: n - 1 <= i < |a| ==> a[i] == b[i]
    ensures a[idx] == b[idx]
    decreases |a| - idx
  {
    if idx < n - 1 {
      HeapDetermined(K, a, b, n, 2 * idx + 1);
      HeapDetermined(K, a, b, n, 2 * idx + 2);
    }
  }

  lemma {:induction false} DistinctCounts(s: seq<Digest>, x: Digest)
    requires Distinct(s)
    ensures multiset(s)[x] == if x in s then 1 else 0
  {
    if s != [] {
      assert s == [s[0]] + s[1..];
      assert x in s <==> x == s[0] || x in s[1..];
      DistinctCounts(s[1..], x);
    }
  }

  lemma SortedHashesDetermined(a: seq<Digest>, b: seq<Digest>)
    requires Distinct(Sort(a, AtMost)) && Distinct(Sort(b, AtMost))
    requires forall x :: x in a <==> x in b
    ensures Sort(a, AtMost) == Sort(b, AtMost)
  {
    var sa, sb := Sort(a, AtMost), Sort(b, AtMost);
    AtMostPreorder();
    SortSorted(a, AtMost);
    SortSorted(b, AtMost);
    SortKeeps(a, AtMost);
    SortKeeps(b, AtMost);
    forall x: Digest ensures multiset(sa)[x] == multiset(sb)[x] {
      DistinctCounts(sa, x);
      DistinctCounts(sb, x);
    }
    SortedUnique(sa, sb, AtMost);
  }

  lemma SameLeavesSameHashes(K: HashFunction, xs: seq<Leaf>, ys: seq<Leaf>)
    requires forall l :: l in xs ==> l in ys
    ensures forall h :: h in LeafHashes(K, xs) ==> h in LeafHashes(K, ys)
  {
    forall h | h in LeafHashes(K, xs) ensures h in LeafHashes(K, ys) {
      var i :| 0 <= i < |xs| && LeafHashes(K, xs)[i] == h;
      assert xs[i] in ys;
      var j :| 0 <= j < |ys| && ys[j] == xs[i];
      assert LeafHashes(K, ys)[j] == h;
    }
  }

  /** Two trees over the same set of leaves are the same tree, however the leaves were listed. */
  lemma TreeIsCanonical(K: HashFunction, s: Tree, t: Tree, xs: seq<Leaf>, ys: seq<Leaf>)
    requires TreeOf(K, s, xs) && TreeOf(K, t, ys)
    requires forall l :: l in xs <==> l in ys
    ensures s.nodes == t.nodes && Root(s) == Root(t)
  {
    SameLeavesSameHashes(K, xs, ys);
    SameLeavesSameHashes(K, ys, xs);
    SortedHashesDetermined(LeafHashes(K, xs), LeafHashes(K, ys));
    StoredLeavesDetermine(K, s.nodes, t.nodes, Sort(LeafHashes(K, xs), AtMost));
  }

  lemma StoredLeavesDetermine(K: HashFunction, a: seq<Digest>, b: seq<Digest>, sorted: seq<Digest>)
    requires Heap(K, a, |sorted|) && Heap(K, b, |sorted|) && LeavesStored(a, sorted) && LeavesStored(b, sorted)
    ensures a == b
  {
    forall i | |sorted| - 1 <= i < |a| ensures a[i] == b[i] {
      var k := |a| - 1 - i;
      assert a[|a| - 1 - k] == sorted[k] && b[|b| - 1 - k] == sorted[k];
    }
    forall idx | 0 <= idx < |a| ensures a[idx] == b[idx] {
      HeapDetermined(K, a, b, |sorted|, idx);
    }
  }

  function Pow2(k: nat): nat {
    if k == 0 then 1 else 2 * Pow2(k - 1)
  }

  /** A node's depth is the binary logarithm of its one-based position. */
  lemma {:induction false} PathLength(nodes: seq<Digest>, idx: nat)
    requires idx < |nodes| && |nodes| % 2 == 1
    ensures var d := |Path(nodes, idx)|; Pow2(d) <= idx + 1 < Pow2(d + 1)
    decreases idx
  {
    if idx > 0 {
      PathLength(nodes, Parent(idx));
    }
  }

  lemma {:induction false} Pow2Monotone(a: nat, b: nat)
    requires a <= b
    ensures Pow2(a) <= Pow2(b)
    decreases b - a
  {
    if a < b {
      Pow2Monotone(a, b - 1);
    }
  }

  /** Every leaf's proof is floor(log2 n) or ceil(log2 n) long. */
  lemma ProofLength(nodes: seq<Digest>, n: nat, idx: nat, floor: nat, ceil: nat)
    requires n >= 1 && |nodes| == 2 * n - 1 && n - 1 <= idx < |nodes|
    requires Pow2(floor) <= n < Pow2(floor + 1)
    requires n <= Pow2(ceil) && (ceil > 0 ==> Pow2(ceil - 1) < n)
    ensures |Path(nodes, idx)| == floor || |Path(nodes, idx)| == ceil
  {
    var d := |Path(nodes, idx)|;
    PathLength(nodes, idx);
    if d < floor {
      Pow2Monotone(d + 1, floor);
    }
    if d > ceil {
      Pow2Monotone(ceil + 1, d);
    }
    if ceil > floor + 1 {
      Pow2Monotone(floor + 1, ceil - 1);
    }
  }

  // What a built tree hashes, spelled out

  /** `node` hashes two digests, the smaller first. */
  predicate HashesInOrder(K: HashFunction, node: Digest, a: Digest, b: Digest) {
    (a <= b && node == K(Two(a, b))) || (b <= a && node == K(Two(b, a)))
  }

  /** A leaf hashes, twice, its account and amount in that order. */
  predicate HashesLeaf(K: HashFunction, node: Digest, l: Leaf) {
    node == K(One(K(Two(l.account, l.amount))))
  }

  /** Every inner node of a built tree hashes its two children in ascending order. */
  lemma InnerNodesSpelled(K: HashFunction, t: Tree, leaves: seq<Leaf>)
    requires TreeOf(K, t, leaves)
    ensures leaves != [] && |t.nodes| == 2 * |leaves| - 1
    ensures forall i :: 0 <= i < |leaves| - 1 ==> HashesInOrder(K, t.nodes[i], t.nodes[2 * i + 1], t.nodes[2 * i + 2])
  {
  }

  lemma LeafSpelled(K: HashFunction, l: Leaf)
    requires AmountInRange(l)
    ensures HashesLeaf(K, LeafHash(K, l.account, l.amount), l)
  {
  }

  /** Its leaf positions hold the hashes of the given leaves, all of them and no others, and descend from left to right. */
  lemma LeavesSpelled(K: HashFunction, t: Tree, leaves: seq<Leaf>)
    requires TreeOf(K, t, leaves)
    ensures forall i, j :: |leaves| - 1 <= i < j < |t.nodes| ==> t.nodes[i] > t.nodes[j]
    ensures forall i :: |leaves| - 1 <= i < |t.nodes| ==> exists k :: 0 <= k < |leaves| && HashesLeaf(K, t.nodes[i], leaves[k])
    ensures forall k :: 0 <= k < |leaves| ==> exists i :: |leaves| - 1 <= i < |t.nodes| && HashesLeaf(K, t.nodes[i], leaves[k])
  {
    LeavesDescend(K, t, leaves);
    forall i | |leaves| - 1 <= i < |t.nodes| ensures exists k :: 0 <= k < |leaves| && HashesLeaf(K, t.nodes[i], leaves[k]) {
      var k := LeafAt(K, t, leaves, i);
      LeafSpelled(K, leaves[k]);
    }
    forall k | 0 <= k < |leaves| ensures exists i :: |leaves| - 1 <= i < |t.nodes| && HashesLeaf(K, t.nodes[i], leaves[k]) {
      LeafIsMapped(K, t, leaves, k);
      LeafSpelled(K, leaves[k]);
      assert HashesLeaf(K, t.nodes[t.byHash[LeafHash(K, leaves[k].account, leaves[k].amount)]], leaves[k]);
    }
  }

  lemma LeavesDescend(K: HashFunction, t: Tree, leaves: seq<Leaf>)
    requires TreeOf(K, t, leaves)
    ensures forall i, j :: |leaves| - 1 <= i < j < |t.nodes| ==> t.nodes[i] > t.nodes[j]
  {
    var sorted := Sort(LeafHashes(K, leaves), AtMost);
    AtMostPreorder();
    SortSorted(LeafHashes(K, leaves), AtMost);
    forall i, j | |leaves| - 1 <= i < j < |t.nodes| ensures t.nodes[i] > t.nodes[j] {
      var a, b := |t.nodes| - 1 - i, |t.nodes| - 1 - j;
      assert t.nodes[|t.nodes| - 1 - a] == sorted[a] && t.nodes[|t.nodes| - 1 - b] == sorted[b];
      assert AtMost(sorted[b], sorted[a]) && sorted[b] != sorted[a];
    }
  }

  /** A one-element proof is accepted exactly when the root hashes the leaf and the element in ascending order. */
  lemma OneStepExactly(K: HashFunction, root: Digest, leaf: Digest, sibling: Digest)
    ensures Climb(K, leaf, [sibling]) == root <==> HashesInOrder(K, root, leaf, sibling)
  {
    assert [sibling][1..] == [];
    assert Climb(K, leaf, [sibling]) == Climb(K, HashPair(K, leaf, sibling), []);
  }

  /** The amounts of a tree are those of four 64-bit words. */
  lemma AmountsAreUint256(l: Leaf)
    ensures var word := 0x1_0000_0000_0000_0000;
      AmountInRange(l) <==> 0 <= l.amount < word * word * word * word
  {
  }
}
