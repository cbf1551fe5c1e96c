/**
 The recursive Merkle tree of sections 2.1.1 and 2.1.3.1 of RFC 9162, and how it looks one level up.
 The tree is generic in the hash values T and in the function that joins two of them.
 */
module MerkleTree {
  import opened Prelude

  predicate IsPowerOfTwo(k: nat) {
    k == 1 || (k > 1 && k % 2 == 0 && IsPowerOfTwo(k / 2))
  }

  /** The largest power of two smaller than n, where RFC 9162 splits a list of n leaves. */
  function SplitPoint(n: nat): (k: nat)
    requires n > 1
    ensures IsPowerOfTwo(k) && k < n <= 2 * k
  {
    if n == 2 then 1 else 2 * SplitPoint((n + 1) / 2)
  }

  /** MTH of section 2.1.1, over leaf hashes. */
  function TreeHash<T>(node: (T, T) -> T, leaves: seq<T>): T
    requires |leaves| > 0
  {
    if |leaves| == 1 then leaves[0]
    else
      var k := SplitPoint(|leaves|);
      node(TreeHash(node, leaves[..k]), TreeHash(node, leaves[k..]))
  }

  /** PATH of section 2.1.3.1: the sibling hashes from the leaf up, outermost last. */
  function AuditPath<T>(node: (T, T) -> T, m: nat, leaves: seq<T>): seq<T>
    requires m < |leaves|
    decreases |leaves|
  {
    if |leaves| == 1 then []
    else
      var k := SplitPoint(|leaves|);
      if m < k then AuditPath(node, m, leaves[..k]) + [TreeHash(node, leaves[k..])]
      else AuditPath(node, m - k, leaves[k..]) + [TreeHash(node, leaves[..k])]
  }

  /** One level up: adjacent nodes are joined, an unpaired last node is carried. */
  function LevelUp<T>(node: (T, T) -> T, nodes: seq<T>): (up: seq<T>)
    ensures |up| == (|nodes| + 1) / 2
  {
    seq((|nodes| + 1) / 2, i requires 0 <= i < (|nodes| + 1) / 2 =>
      if 2 * i + 1 < |nodes| then node(nodes[2 * i], nodes[2 * i + 1]) else nodes[2 * i])
  }

  /** The sibling of node m on its own level, absent for an unpaired last node. */
  function Sibling<T>(m: nat, nodes: seq<T>): Option<T>
    requires m < |nodes|
  {
    if m % 2 == 1 then Some(nodes[m - 1])
    else if m + 1 < |nodes| then Some(nodes[m + 1])
    else None
  }

  /** The path with the sibling, if there is one, in front. */
  function Below<T>(sibling: Option<T>, path: seq<T>): seq<T> {
    if sibling.Some? then [sibling.value] + path else path
  }

  lemma UnrollTree<T>(node: (T, T) -> T, left: seq<T>, right: seq<T>)
    requires |left + right| > 1 && |left| == SplitPoint(|left + right|)
    ensures TreeHash(node, left + right) == node(TreeHash(node, left), TreeHash(node, right))
  {
    assert (left + right)[..|left|] == left && (left + right)[|left|..] == right;
  }

  lemma UnrollPath<T>(node: (T, T) -> T, m: nat, left: seq<T>, right: seq<T>)
    requires |left + right| > 1 && |left| == SplitPoint(|left + right|)
    requires m < |left + right|
    ensures AuditPath(node, m, left + right)
         == (if m < |left| then AuditPath(node, m, left) + [TreeHash(node, right)]
             else AuditPath(node, m - |left|, right) + [TreeHash(node, left)])
  {
    assert (left + right)[..|left|] == left && (left + right)[|left|..] == right;
  }

  /** A list of more than two nodes is cut at an even index, and its upper level at half of that. */
  lemma Halves<T>(nodes: seq<T>) returns (left: seq<T>, right: seq<T>)
    requires |nodes| > 2
    ensures nodes == left + right && 0 < |right| < |nodes|
    ensures |left| == SplitPoint(|nodes|) == 2 * SplitPoint((|nodes| + 1) / 2)
  {
    var k := SplitPoint(|nodes|);
    left, right := nodes[..k], nodes[k..];
  }

  lemma LevelUpSplits<T>(node: (T, T) -> T, left: seq<T>, right: seq<T>)
    requires |left| % 2 == 0
    ensures LevelUp(node, left + right) == LevelUp(node, left) + LevelUp(node, right)
  {
  }

  lemma LevelUpShort<T>(node: (T, T) -> T, nodes: seq<T>)
    ensures |nodes| == 1 ==> LevelUp(node, nodes) == nodes
    ensures |nodes| == 2 ==> LevelUp(node, nodes) == [node(nodes[0], nodes[1])]
  {
  }

  /** Joining pairs first does not change the root: the tree splits at an even index. */
  lemma {:induction false} TreeHashLevelUp<T>(node: (T, T) -> T, nodes: seq<T>)
    requires |nodes| > 0
    ensures TreeHash(node, LevelUp(node, nodes)) == TreeHash(node, nodes)
    decreases |nodes|
  {
    LevelUpShort(node, nodes);
    if |nodes| > 2 {
      var left, right := Halves(nodes);
      LevelUpSplits(node, left, right);
      UnrollTree(node, left, right);
      UnrollTree(node, LevelUp(node, left), LevelUp(node, right));
      TreeHashLevelUp(node, left);
      TreeHashLevelUp(node, right);
    }
  }

  /** An even split separates no pair of siblings. */
  lemma SiblingSplits<T>(m: nat, left: seq<T>, right: seq<T>)
    requires |left| % 2 == 0 && m < |left + right|
    ensures Sibling(m, left + right) == if m < |left| then Sibling(m, left) else Sibling(m - |left|, right)
  {
  }

  lemma BelowThenAbove<T>(sibling: Option<T>, path: seq<T>, top: T)
    ensures Below(sibling, path) + [top] == Below(sibling, path + [top])
  {
  }

  /** The audit path of node m, as seen from one level up. */
  ghost predicate PathSplits<T>(node: (T, T) -> T, m: nat, nodes: seq<T>)
    requires m < |nodes|
  {
    AuditPath(node, m, nodes) == Below(Sibling(m, nodes), AuditPath(node, m / 2, LevelUp(node, nodes)))
  }

  lemma LeftHalfExtends<T>(node: (T, T) -> T, m: nat, left: seq<T>, right: seq<T>)
    requires |left + right| > 2 && |left| == SplitPoint(|left + right|) == 2 * SplitPoint((|left + right| + 1) / 2)
    requires m < |left| && PathSplits(node, m, left)
    ensures PathSplits(node, m, left + right)
  {
    var upLeft, upRight := LevelUp(node, left), LevelUp(node, right);
    LevelUpSplits(node, left, right);
    SiblingSplits(m, left, right);
    UnrollPath(node, m, left, right);
    UnrollPath(node, m / 2, upLeft, upRight);
    TreeHashLevelUp(node, right);
    BelowThenAbove(Sibling(m, left), AuditPath(node, m / 2, upLeft), TreeHash(node, right));
  }

  lemma UpperRightPath<T>(node: (T, T) -> T, m: nat, left: seq<T>, right: seq<T>)
    requires |left + right| > 2 && |left| == SplitPoint(|left + right|) == 2 * SplitPoint((|left + right| + 1) / 2)
    requires |left| <= m < |left + right|
    ensures AuditPath(node, m / 2, LevelUp(node, left + right))
         == AuditPath(node, (m - |left|) / 2, LevelUp(node, right)) + [TreeHash(node, left)]
  {
    var upLeft, upRight := LevelUp(node, left), LevelUp(node, right);
    var q, h := m / 2, |upLeft|;
    assert q - h == (m - |left|) / 2;
    LevelUpSplits(node, left, right);
    TreeHashLevelUp(node, left);
    UnrollPath(node, q, upLeft, upRight);
  }

  lemma RightHalfExtends<T>(node: (T, T) -> T, m: nat, left: seq<T>, right: seq<T>)
    requires |left + right| > 2 && |left| == SplitPoint(|left + right|) == 2 * SplitPoint((|left + right| + 1) / 2)
    requires |left| <= m < |left + right| && PathSplits(node, m - |left|, right)
    ensures PathSplits(node, m, left + right)
  {
    var j := m - |left|;
    UpperRightPath(node, m, left, right);
    UnrollPath(node, m, left, right);
    SiblingSplits(m, left, right);
    BelowThenAbove(Sibling(j, right), AuditPath(node, j / 2, LevelUp(node, right)), TreeHash(node, left));
  }

  /** The audit path is the sibling on this level followed by the audit path one level up. */
  lemma {:induction false} AuditPathLevelUp<T>(node: (T, T) -> T, m: nat, nodes: seq<T>)
    requires m < |nodes|
    ensures PathSplits(node, m, nodes)
    decreases |nodes|
  {
    LevelUpShort(node, nodes);
    if |nodes| > 2 {
      var left, right := Halves(nodes);
      if m < |left| {
        AuditPathLevelUp(node, m, left);
        LeftHalfExtends(node, m, left, right);
      } else {
        AuditPathLevelUp(node, m - |left|, right);
        RightHalfExtends(node, m, left, right);
      }
    }
  }
}
