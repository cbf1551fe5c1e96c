/**
 The bottom-up walk of an inclusion proof (section 2.1.3.2 of RFC 9162): a level-by-level form,
 the length of the one path that fits, completeness against the recursive tree, and binding.
 */
module InclusionWalk {
  import opened Prelude
  import opened MerkleTree

  /**
   The walk seen one level at a time: leaf position fn, last position sn on the same level, hash r so far.
   An unpaired last node moves up without consuming a path element.
   */
  function Walk<T>(node: (T, T) -> T, fn: nat, sn: nat, r: T, path: seq<T>): Option<T>
    decreases sn
  {
    if sn == 0 then
      if |path| == 0 then Some(r) else None
    else if fn % 2 == 0 && fn == sn then
      Walk(node, fn / 2, sn / 2, r, path)
    else if |path| == 0 then
      None
    else
      Walk(node, fn / 2, sn / 2, if fn % 2 == 1 then node(path[0], r) else node(r, path[0]), path[1..])
  }

  /** The number of path elements (fn, sn) calls for. */
  function PathLength(fn: nat, sn: nat): nat
    decreases sn
  {
    if sn == 0 then 0
    else (if fn % 2 == 0 && fn == sn then 0 else 1) + PathLength(fn / 2, sn / 2)
  }

  lemma {:induction false} PathLengthPositive(fn: nat, sn: nat)
    requires fn <= sn && sn != 0
    ensures PathLength(fn, sn) > 0
    decreases sn
  {
    if fn % 2 == 0 && fn == sn {
      PathLengthPositive(fn / 2, sn / 2);
    }
  }

  /** A walk under way: from here it ends like the whole walk, and the elements used and called for add up. */
  ghost predicate OnTheWay<T>(node: (T, T) -> T, fn: nat, sn: nat, r: T, rest: seq<T>, used: nat, whole: Option<T>, total: nat) {
    fn <= sn && Walk(node, fn, sn, r, rest) == whole && used + PathLength(fn, sn) == total
  }

  lemma LoneNodeMovesUp<T>(node: (T, T) -> T, fn: nat, sn: nat, r: T, rest: seq<T>, used: nat, whole: Option<T>, total: nat)
    requires OnTheWay(node, fn, sn, r, rest, used, whole, total)
    requires fn % 2 == 0 && fn == sn != 0
    ensures OnTheWay(node, fn / 2, sn / 2, r, rest, used, whole, total)
  {
  }

  lemma PairTakesElement<T>(node: (T, T) -> T, fn: nat, sn: nat, r: T, rest: seq<T>, used: nat, whole: Option<T>, total: nat)
    requires OnTheWay(node, fn, sn, r, rest, used, whole, total)
    requires sn != 0 && (fn % 2 == 1 || fn != sn) && |rest| > 0
    ensures OnTheWay(node, fn / 2, sn / 2, if fn % 2 == 1 then node(rest[0], r) else node(r, rest[0]), rest[1..], used + 1,
                     whole, total)
  {
  }

  function Pow2(k: nat): (p: nat)
    ensures p > 0
  {
    if k == 0 then 1 else 2 * Pow2(k - 1)
  }

  /** A tree of height k needs at most k path elements. */
  lemma {:induction false} PathLengthAtMostHeight(fn: nat, sn: nat, k: nat)
    requires sn < Pow2(k)
    ensures PathLength(fn, sn) <= k
    decreases k
  {
    if sn != 0 {
      PathLengthAtMostHeight(fn / 2, sn / 2, k - 1);
    }
  }

  /** A leaf of the left half of a tree of more than 2^k leaves needs exactly k + 1 path elements. */
  lemma {:induction false} PathLengthInLeftHalf(fn: nat, sn: nat, k: nat)
    requires fn < Pow2(k) <= sn < 2 * Pow2(k)
    ensures PathLength(fn, sn) == k + 1
    decreases k
  {
    if k != 0 {
      PathLengthInLeftHalf(fn / 2, sn / 2, k - 1);
    } else {
      assert sn / 2 == 0;
    }
  }

  /** Somewhere on the way up the node is the last of its level and has no partner. */
  predicate EverAlone(fn: nat, sn: nat)
    decreases sn
  {
    sn != 0 && ((fn % 2 == 0 && fn == sn) || EverAlone(fn / 2, sn / 2))
  }

  /** Below twice a power of two, the path stays within the power's height exactly when the tree does or a level is skipped. */
  lemma {:induction false} PathLengthAtMostIff(fn: nat, sn: nat, k: nat)
    requires sn < 2 * Pow2(k)
    ensures PathLength(fn, sn) <= k <==> sn < Pow2(k) || EverAlone(fn, sn)
    decreases k
  {
    if sn < Pow2(k) {
      PathLengthAtMostHeight(fn, sn, k);
    } else if k == 0 {
      assert sn == 1 && sn / 2 == 0;
    } else {
      PathLengthAtMostIff(fn / 2, sn / 2, k - 1);
      PathLengthAtMostHeight(fn / 2, sn / 2, k);
    }
  }

  /** The walk ends exactly when the path has the length that position and size determine. */
  lemma {:induction false} WalkSucceedsByLength<T>(node: (T, T) -> T, fn: nat, sn: nat, r: T, path: seq<T>)
    ensures Walk(node, fn, sn, r, path).Some? <==> |path| == PathLength(fn, sn)
    decreases sn
  {
    if sn == 0 {
    } else if fn % 2 == 0 && fn == sn {
      WalkSucceedsByLength(node, fn / 2, sn / 2, r, path);
    } else if |path| != 0 {
      var r' := if fn % 2 == 1 then node(path[0], r) else node(r, path[0]);
      WalkSucceedsByLength(node, fn / 2, sn / 2, r', path[1..]);
    }
  }

  /** Completeness: the walk over the generated audit path ends in the recursive root. */
  lemma {:induction false} WalkOfAuditPath<T>(node: (T, T) -> T, m: nat, nodes: seq<T>)
    requires m < |nodes|
    ensures Walk(node, m, |nodes| - 1, nodes[m], AuditPath(node, m, nodes)) == Some(TreeHash(node, nodes))
    decreases |nodes|
  {
    if |nodes| > 1 {
      var up := LevelUp(node, nodes);
      AuditPathLevelUp(node, m, nodes);
      TreeHashLevelUp(node, nodes);
      WalkOfAuditPath(node, m / 2, up);
      WalkOneLevel(node, m, nodes, AuditPath(node, m / 2, up));
    }
  }

  lemma WalkOneLevel<T>(node: (T, T) -> T, m: nat, nodes: seq<T>, above: seq<T>)
    requires m < |nodes| && |nodes| > 1
    ensures Walk(node, m, |nodes| - 1, nodes[m], Below(Sibling(m, nodes), above))
         == Walk(node, m / 2, |LevelUp(node, nodes)| - 1, LevelUp(node, nodes)[m / 2], above)
  {
    var sibling := Sibling(m, nodes);
    if sibling.Some? {
      assert Below(sibling, above)[1..] == above;
    }
  }

  /** The ordered pair that one walk feeds to the node hash on the level of fn. */
  function Joined<T>(fn: nat, r: T, p: T): (T, T) {
    if fn % 2 == 1 then (p, r) else (r, p)
  }

  /** The lowest level on which two walks from the same position join different pairs to the same hash. */
  function Divergence<T(==)>(node: (T, T) -> T, fn: nat, sn: nat, r1: T, path1: seq<T>, r2: T, path2: seq<T>)
    : Option<((T, T), (T, T))>
    decreases sn
  {
    if sn == 0 then None
    else if fn % 2 == 0 && fn == sn then Divergence(node, fn / 2, sn / 2, r1, path1, r2, path2)
    else if |path1| == 0 || |path2| == 0 then None
    else
      var a, b := Joined(fn, r1, path1[0]), Joined(fn, r2, path2[0]);
      var up1, up2 := node(a.0, a.1), node(b.0, b.1);
      if a != b && up1 == up2 then Some((a, b))
      else Divergence(node, fn / 2, sn / 2, up1, path1[1..], up2, path2[1..])
  }

  ghost predicate IsClash<T>(node: (T, T) -> T, clash: Option<((T, T), (T, T))>) {
    && clash.Some?
    && clash.value.0 != clash.value.1
    && node(clash.value.0.0, clash.value.0.1) == node(clash.value.1.0, clash.value.1.1)
  }

  /** Binding: two walks from one position to one root agree on leaf and path, or diverge. */
  lemma {:induction false} WalkBinds<T>(node: (T, T) -> T, fn: nat, sn: nat, r1: T, path1: seq<T>, r2: T, path2: seq<T>)
    requires Walk(node, fn, sn, r1, path1).Some?
    requires Walk(node, fn, sn, r1, path1) == Walk(node, fn, sn, r2, path2)
    ensures (r1 == r2 && path1 == path2) || Divergence(node, fn, sn, r1, path1, r2, path2).Some?
    decreases sn
  {
    if sn == 0 {
    } else if fn % 2 == 0 && fn == sn {
      WalkBinds(node, fn / 2, sn / 2, r1, path1, r2, path2);
    } else {
      var a, b := Joined(fn, r1, path1[0]), Joined(fn, r2, path2[0]);
      WalkBinds(node, fn / 2, sn / 2, node(a.0, a.1), path1[1..], node(b.0, b.1), path2[1..]);
      assert path1 == [path1[0]] + path1[1..] && path2 == [path2[0]] + path2[1..];
    }
  }

  /** A divergence that is found is a clash: distinct pairs with one node hash. */
  lemma {:induction false} DivergenceIsClash<T>(node: (T, T) -> T, fn: nat, sn: nat, r1: T, path1: seq<T>, r2: T, path2: seq<T>)
    requires Divergence(node, fn, sn, r1, path1, r2, path2).Some?
    ensures IsClash(node, Divergence(node, fn, sn, r1, path1, r2, path2))
    decreases sn
  {
    if fn % 2 == 0 && fn == sn {
      DivergenceIsClash(node, fn / 2, sn / 2, r1, path1, r2, path2);
    } else {
      var a, b := Joined(fn, r1, path1[0]), Joined(fn, r2, path2[0]);
      if a == b || node(a.0, a.1) != node(b.0, b.1) {
        DivergenceIsClash(node, fn / 2, sn / 2, node(a.0, a.1), path1[1..], node(b.0, b.1), path2[1..]);
      }
    }
  }
}
