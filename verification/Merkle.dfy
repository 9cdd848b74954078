/** Electrum merkle branches over Bitcoin's merkle tree. `h` is the hash of two nodes. */
module Merkle {

  import opened ScriptTypes

  type Node = Hash32
  type PairHash = (Node, Node) -> Node

  // ---- The tree, level by level --------------------------------------------------------

  /** A level with its last node doubled when their number is odd. */
  function Pad(level: seq<Node>): (r: seq<Node>)
    requires level != []
    ensures |r| % 2 == 0 && level <= r
  {
    if |level| % 2 == 1 then level + [Last(level)] else level
  }

  function Parents(h: PairHash, level: seq<Node>): (r: seq<Node>)
    requires level != []
    ensures |r| == (|level| + 1) / 2
  {
    var p := Pad(level);
    seq(|p| / 2, i requires 0 <= i < |p| / 2 => h(p[2 * i], p[2 * i + 1]))
  }

  function Root(h: PairHash, level: seq<Node>): Node
    requires level != []
    decreases |level|
  {
    if |level| == 1 then level[0] else Root(h, Parents(h, level))
  }

  function Sibling(pos: nat): nat { if pos % 2 == 0 then pos + 1 else pos - 1 }

  function Branch(h: PairHash, level: seq<Node>, pos: nat): seq<Node>
    requires pos < |level|
    decreases |level|
  {
    if |level| == 1 then []
    else [Pad(level)[Sibling(pos)]] + Branch(h, Parents(h, level), pos / 2)
  }

  function Join(h: PairHash, acc: Node, sibling: Node, pos: nat): Node {
    if pos % 2 == 0 then h(acc, sibling) else h(sibling, acc)
  }

  function Rebuild(h: PairHash, leaf: Node, branch: seq<Node>, pos: nat): Node
    decreases |branch|
  {
    if branch == [] then leaf else Rebuild(h, Join(h, leaf, branch[0], pos), branch[1..], pos / 2)
  }

  // ---- The tree by position: an independent definition ---------------------------------

  function Width(n: nat, k: nat): nat {
    if k == 0 then n else (Width(n, k - 1) + 1) / 2
  }

  /** Node `i` of height `k`; at the right edge a node with no right child repeats the left. */
  function NodeAt(h: PairHash, leaves: seq<Node>, k: nat, i: nat): Node
    requires i < Width(|leaves|, k)
    decreases k
  {
    if k == 0 then leaves[i]
    else
      var right := if 2 * i + 1 < Width(|leaves|, k - 1) then 2 * i + 1 else 2 * i;
      h(NodeAt(h, leaves, k - 1, 2 * i), NodeAt(h, leaves, k - 1, right))
  }

  /** The least height at which one node spans all leaves. */
  function Height(n: nat): nat
    requires n > 0
    decreases n
  {
    if n == 1 then 0 else 1 + Height((n + 1) / 2)
  }

  function Pow2(k: nat): nat { if k == 0 then 1 else 2 * Pow2(k - 1) }

  /** The height is the logarithm of the number of leaves, rounded up. */
  lemma {:induction false} HeightIsLog(n: nat)
    requires n > 0
    ensures n <= Pow2(Height(n)) && (n > 1 ==> Pow2(Height(n) - 1) < n)
    decreases n
  {
    if n > 1 {
      HeightIsLog((n + 1) / 2);
      if (n + 1) / 2 == 1 { assert Pow2(Height(n) - 1) == 1; }
    }
  }

  lemma {:induction false} WidthStep(n: nat, k: nat)
    ensures Width((n + 1) / 2, k) == Width(n, k + 1)
  {
    if k > 0 { WidthStep(n, k - 1); }
  }

  lemma BottomStep(h: PairHash, leaves: seq<Node>, i: nat)
    requires leaves != [] && i < Width(|leaves|, 1)
    ensures NodeAt(h, leaves, 1, i) == NodeAt(h, Parents(h, leaves), 0, i)
  {
    var p := Pad(leaves);
    assert Parents(h, leaves)[i] == h(p[2 * i], p[2 * i + 1]);
  }

  lemma {:induction false} NodeAtStep(h: PairHash, leaves: seq<Node>, k: nat, i: nat)
    requires leaves != [] && i < Width(|leaves|, k + 1)
    ensures Width((|leaves| + 1) / 2, k) == Width(|leaves|, k + 1)
    ensures NodeAt(h, leaves, k + 1, i) == NodeAt(h, Parents(h, leaves), k, i)
    decreases k
  {
    hide Parents, Pad, NodeAt, Width;
    WidthStep(|leaves|, k);
    if k == 0 {
      BottomStep(h, leaves, i);
    } else {
      WidthStep(|leaves|, k - 1);
      NodeIs(h, leaves, k, i);
      NodeIs(h, Parents(h, leaves), k - 1, i);
      NodeAtStep(h, leaves, k - 1, 2 * i);
      NodeAtStep(h, leaves, k - 1, Right(|leaves|, k, i));
    }
  }

  function Right(n: nat, k: nat, i: nat): nat { if 2 * i + 1 < Width(n, k) then 2 * i + 1 else 2 * i }

  lemma NodeIs(h: PairHash, leaves: seq<Node>, k: nat, i: nat)
    requires i < Width(|leaves|, k + 1)
    ensures 2 * i < Width(|leaves|, k) && Right(|leaves|, k, i) < Width(|leaves|, k)
    ensures NodeAt(h, leaves, k + 1, i)
            == h(NodeAt(h, leaves, k, 2 * i), NodeAt(h, leaves, k, Right(|leaves|, k, i)))
  {
  }

  /** A node paired with itself n times over, as happens at the right edge. */
  function Lifted(h: PairHash, x: Node, n: nat): Node
    decreases n
  {
    if n == 0 then x else Lifted(h, h(x, x), n - 1)
  }

  lemma ParentsSplit(h: PairHash, a: seq<Node>, b: seq<Node>)
    requires a != [] && b != [] && |a| % 2 == 0
    ensures Parents(h, a + b) == Parents(h, a) + Parents(h, b)
  {
    var p, q, r := Pad(a + b), Pad(a), Pad(b);
    assert q == a && p == a + r;
    var x, y := Parents(h, a + b), Parents(h, a) + Parents(h, b);
    forall i | 0 <= i < |x| ensures x[i] == y[i] {
      if i < |a| / 2 {
        assert p[2 * i] == a[2 * i] && p[2 * i + 1] == a[2 * i + 1];
      } else {
        assert p[2 * i] == r[2 * i - |a|] && p[2 * i + 1] == r[2 * i + 1 - |a|];
      }
    }
  }

  /** The root as Bitcoin defines it: the left subtree has 2^k leaves and its root comes
      first; the right one has the rest, lifted to the same height by pairing with itself. */
  lemma {:induction false} RootOfHalves(h: PairHash, a: seq<Node>, b: seq<Node>, k: nat)
    requires |a| == Pow2(k) && 0 < |b| <= Pow2(k)
    ensures Height(|b|) <= k && Root(h, a + b) == h(Root(h, a), Lifted(h, Root(h, b), k - Height(|b|)))
    ensures forall x :: Root(h, [x]) == x
    decreases k
  {
    hide Parents, Pad;
    if k == 0 {
      PairRoot(h, a[0], b[0]);
      assert a == [a[0]] && b == [b[0]] && a + b == [a[0], b[0]];
    } else {
      var up, down := Parents(h, a), Parents(h, b);
      ParentsSplit(h, a, b);
      RootOfHalves(h, up, down, k - 1);
      if |b| == 1 {
        LoneParent(h, b[0]);
        assert b == [b[0]];
      }
    }
  }

  lemma PairRoot(h: PairHash, x: Node, y: Node)
    ensures Root(h, [x, y]) == h(x, y)
  {
    assert Parents(h, [x, y]) == [h(x, y)];
  }

  lemma LoneParent(h: PairHash, x: Node)
    ensures Parents(h, [x]) == [h(x, x)]
  {
  }

  /** Folding levels gives the node at the top of the tree by position. */
  lemma {:induction false} RootIsTop(h: PairHash, leaves: seq<Node>)
    requires leaves != []
    ensures Width(|leaves|, Height(|leaves|)) == 1
    ensures Root(h, leaves) == NodeAt(h, leaves, Height(|leaves|), 0)
    decreases |leaves|
  {
    hide NodeAt, Parents, Pad, Width;
    if |leaves| > 1 {
      var up := Parents(h, leaves);
      var k := Height(|up|);
      assert Height(|leaves|) == k + 1;
      RootIsTop(h, up);
      WidthStep(|leaves|, k);
      NodeAtStep(h, leaves, k, 0);
    } else {
      SingleLeaf(h, leaves);
    }
  }

  lemma SingleLeaf(h: PairHash, leaves: seq<Node>)
    requires |leaves| == 1
    ensures Width(1, 0) == 1 && NodeAt(h, leaves, 0, 0) == leaves[0]
  {
  }

  // ---- Completeness --------------------------------------------------------------------

  lemma ParentOf(h: PairHash, level: seq<Node>, pos: nat)
    requires pos < |level| && |level| > 1
    ensures pos / 2 < |Parents(h, level)| && Sibling(pos) < |Pad(level)|
    ensures Parents(h, level)[pos / 2] == Join(h, level[pos], Pad(level)[Sibling(pos)], pos)
  {
    var p := Pad(level);
    assert p[pos] == level[pos];
    assert Parents(h, level)[pos / 2] == h(p[2 * (pos / 2)], p[2 * (pos / 2) + 1]);
  }

  /** The branch of every leaf rebuilds the root, and is as long as the tree is high. */
  lemma {:induction false} BranchRebuilds(h: PairHash, level: seq<Node>, pos: nat)
    requires pos < |level|
    ensures Rebuild(h, level[pos], Branch(h, level, pos), pos) == Root(h, level)
    ensures |Branch(h, level, pos)| == Height(|level|)
    decreases |level|
  {
    if |level| > 1 {
      ParentOf(h, level, pos);
      var up := Parents(h, level);
      BranchRebuilds(h, up, pos / 2);
      assert Branch(h, level, pos)[1..] == Branch(h, up, pos / 2);
    }
  }

  // ---- Soundness -----------------------------------------------------------------------

  /** The pair hash collides where a claimed path meets the real one: somewhere the two hash
      different pairs to the same node. */
  predicate PathsCollide(h: PairHash, level: seq<Node>, pos: nat, leaf: Node, branch: seq<Node>)
    requires pos < |level| && |branch| == Height(|level|)
    decreases |level|
  {
    |level| > 1 &&
    (ParentOf(h, level, pos);
     var node, sibling := level[pos], Pad(level)[Sibling(pos)];
     || ((leaf, branch[0]) != (node, sibling) && Join(h, leaf, branch[0], pos) == Join(h, node, sibling, pos))
     || PathsCollide(h, Parents(h, level), pos / 2, Join(h, leaf, branch[0], pos), branch[1..]))
  }

  /** A leaf and a branch of the right length that rebuild the root at a position are the leaf
      and the branch of that position, exactly when no such collision was found on the way. */
  lemma {:induction false} BranchIsSound(h: PairHash, level: seq<Node>, pos: nat, leaf: Node, branch: seq<Node>)
    requires pos < |level| && |branch| == Height(|level|)
    requires Rebuild(h, leaf, branch, pos) == Root(h, level)
    ensures leaf == level[pos] && branch == Branch(h, level, pos) <==> !PathsCollide(h, level, pos, leaf, branch)
    decreases |level|
  {
    hide Pad, Parents, Join;
    if |level| > 1 {
      ParentOf(h, level, pos);
      var up, sibling := Parents(h, level), Pad(level)[Sibling(pos)];
      BranchIsSound(h, up, pos / 2, Join(h, leaf, branch[0], pos), branch[1..]);
      assert branch == [branch[0]] + branch[1..];
      assert Branch(h, level, pos)[1..] == Branch(h, up, pos / 2);
    }
  }

  // ---- The loops -----------------------------------------------------------------------

  /** One level up: pairs of a padded level, hashed. */
  method HashPairs(h: PairHash, level: seq<Node>) returns (next: seq<Node>)
    requires level != [] && |level| % 2 == 0
    ensures next == Parents(h, level)
  {
    next := [];
    var i := 0;
    while i < |level|
      invariant 0 <= i <= |level| && i % 2 == 0 && |next| == i / 2
      invariant forall k :: 0 <= k < |next| ==> next[k] == h(level[2 * k], level[2 * k + 1])
    {
      next := next + [h(level[i], level[i + 1])];
      i := i + 2;
    }
  }

  lemma PadFirst(h: PairHash, level: seq<Node>)
    requires level != []
    ensures Parents(h, Pad(level)) == Parents(h, level)
  {
  }

  method MerkleRoot(h: PairHash, txids: seq<Node>) returns (r: Option<Node>)
    ensures txids == [] ==> r == None
    ensures txids != [] ==> r == Some(Root(h, txids))
  {
    if txids == [] { return None; }
    var current := txids;
    while |current| > 1
      invariant current != [] && Root(h, current) == Root(h, txids)
    {
      ghost var level := current;
      if |current| % 2 != 0 {
        current := current + [Last(current)];
      }
      PadFirst(h, level);
      current := HashPairs(h, current);
    }
    return Some(current[0]);
  }

  method CreateProof(h: PairHash, txids: seq<Node>, position: nat) returns (proof: seq<Node>)
    requires position < |txids|
    ensures proof == Branch(h, txids, position)
  {
    hide Pad, Parents, Branch;
    var offset: nat := position;
    var hashes := txids;
    proof := [];
    while |hashes| > 1
      invariant offset < |hashes|
      invariant proof + Branch(h, hashes, offset) == Branch(h, txids, position)
    {
      BranchStep(h, hashes, offset);
      ghost var level := hashes;
      if |hashes| % 2 != 0 {
        hashes := hashes + [Last(hashes)];
      }
      assert hashes == Pad(level) by { PadIs(level); }
      PadFirst(h, level);
      Assoc(proof, [Pad(level)[Sibling(offset)]], Branch(h, Parents(h, level), offset / 2));
      offset := if offset % 2 == 0 then offset + 1 else offset - 1;
      proof := proof + [hashes[offset]];
      offset := offset / 2;
      hashes := HashPairs(h, hashes);
    }
    assert Branch(h, hashes, offset) == [] by { BranchEnd(h, hashes, offset); }
  }

  lemma PadIs(level: seq<Node>)
    requires level != []
    ensures Pad(level) == if |level| % 2 != 0 then level + [Last(level)] else level
  {
  }

  lemma BranchStep(h: PairHash, level: seq<Node>, pos: nat)
    requires pos < |level| && |level| > 1
    ensures Sibling(pos) < |Pad(level)| && pos / 2 < |Parents(h, level)| && Sibling(pos) / 2 == pos / 2
    ensures Branch(h, level, pos) == [Pad(level)[Sibling(pos)]] + Branch(h, Parents(h, level), pos / 2)
  {
  }

  lemma BranchEnd(h: PairHash, level: seq<Node>, pos: nat)
    requires pos < |level| == 1
    ensures Branch(h, level, pos) == []
  {
  }

  /** The wrapper: no branch for a position outside the list. */
  method ComputeMerkleBranch(h: PairHash, txids: seq<Node>, pos: nat) returns (proof: seq<Node>)
    ensures pos >= |txids| ==> proof == []
    ensures pos < |txids| ==> proof == Branch(h, txids, pos)
  {
    if txids == [] || pos >= |txids| { return []; }
    proof := CreateProof(h, txids, pos);
  }

  method RootFromBranch(h: PairHash, txHash: Node, branch: seq<Node>, start: nat) returns (acc: Node)
    ensures acc == Rebuild(h, txHash, branch, start)
  {
    acc := txHash;
    var pos := start;
    var i := 0;
    while i < |branch|
      invariant 0 <= i <= |branch|
      invariant Rebuild(h, acc, branch[i..], pos) == Rebuild(h, txHash, branch, start)
    {
      var sibling := branch[i];
      assert branch[i..][1..] == branch[i + 1..];
      if pos % 2 == 0 {
        acc := h(acc, sibling);
      } else {
        acc := h(sibling, acc);
      }
      pos := pos / 2;
      i := i + 1;
    }
    assert branch[|branch|..] == [];
  }
}
