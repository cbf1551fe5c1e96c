/** verify/scitt/merkle.go: inclusion proofs over SHA-256 with the 0x00/0x01 prefixes. */
module Merkle {
  import opened Prelude
  import opened MerkleTree
  import opened InclusionWalk

  const MAX_HASH_PATH_LEN := 63

  datatype MerkleError =
    | TreeSizeZero
    | IndexOutOfRange
    | PathTooLong
    | ExcessElements
    | InsufficientElements
    | RootMismatch

  function ComputeLeafHash(sha: HashFn, data: Bytes): Digest {
    sha([0] + data)
  }

  function ComputeNodeHash(sha: HashFn, left: Digest, right: Digest): Digest {
    sha([1] + left + right)
  }

  function Node(sha: HashFn): (Digest, Digest) -> Digest {
    (left, right) => ComputeNodeHash(sha, left, right)
  }

  /** The leaf hashes of a list of log entries. */
  function Leaves(sha: HashFn, entries: seq<Bytes>): (hs: seq<Digest>)
    ensures |hs| == |entries|
    ensures forall i | 0 <= i < |hs| :: hs[i] == ComputeLeafHash(sha, entries[i])
  {
    seq(|entries|, i requires 0 <= i < |entries| => ComputeLeafHash(sha, entries[i]))
  }

  /** The Merkle tree hash of a non-empty list of entries. */
  function TreeHead(sha: HashFn, entries: seq<Bytes>): Digest
    requires |entries| > 0
  {
    TreeHash(Node(sha), Leaves(sha, entries))
  }

  /** The audit path RFC 9162 generates for entry m. */
  function EntryPath(sha: HashFn, m: nat, entries: seq<Bytes>): seq<Digest>
    requires m < |entries|
  {
    AuditPath(Node(sha), m, Leaves(sha, entries))
  }

  /**
   What the walk over a proof answers, by the first rule that applies: the three guards, then the length
   the position calls for, then the root of the level-by-level walk.
   */
  function InclusionRoot(sha: HashFn, event: Bytes, m: uint64, n: uint64, path: seq<Digest>): Result<Digest, MerkleError> {
    if n == 0 then Err(TreeSizeZero)
    else if m >= n then Err(IndexOutOfRange)
    else if |path| > MAX_HASH_PATH_LEN then Err(PathTooLong)
    else if |path| > PathLength(m, n - 1) then Err(ExcessElements)
    else if |path| < PathLength(m, n - 1) then Err(InsufficientElements)
    else
      WalkSucceedsByLength(Node(sha), m, n - 1, ComputeLeafHash(sha, event), path);
      Ok(Walk(Node(sha), m, n - 1, ComputeLeafHash(sha, event), path).value)
  }

  /** The shift loop of the source refines the level-by-level walk. */
  method WalkInclusionPath(sha: HashFn, eventBytes: Bytes, leafIndex: uint64, treeSize: uint64, hashPath: seq<Digest>)
    returns (res: Result<Digest, MerkleError>)
    ensures res == InclusionRoot(sha, eventBytes, leafIndex, treeSize, hashPath)
  {
    if treeSize == 0 {
      return Err(TreeSizeZero);
    }
    if leafIndex >= treeSize {
      return Err(IndexOutOfRange);
    }
    if |hashPath| > MAX_HASH_PATH_LEN {
      return Err(PathTooLong);
    }
    var fn: nat, sn: nat := leafIndex, treeSize - 1;
    var r := ComputeLeafHash(sha, eventBytes);
    ghost var node := Node(sha);
    ghost var whole, total := Walk(node, fn, sn, r, hashPath), PathLength(fn, sn);
    WalkSucceedsByLength(node, fn, sn, r, hashPath);
    assert hashPath[0..] == hashPath;
    for i := 0 to |hashPath|
      invariant OnTheWay(node, fn, sn, r, hashPath[i..], i, whole, total)
    {
      if sn == 0 {
        return Err(ExcessElements);
      }
      var p := hashPath[i];
      ghost var r0 := r;
      assert hashPath[i..][0] == p && hashPath[i..][1..] == hashPath[i + 1..];
      if fn % 2 == 1 || fn == sn {
        r := ComputeNodeHash(sha, p, r);
        while fn % 2 == 0 && fn != 0
          invariant 0 < fn <= sn && (fn % 2 == 1 || fn == sn)
          invariant OnTheWay(node, fn, sn, r0, hashPath[i..], i, whole, total)
        {
          LoneNodeMovesUp(node, fn, sn, r0, hashPath[i..], i, whole, total);
          fn, sn := fn / 2, sn / 2;
        }
      } else {
        r := ComputeNodeHash(sha, r, p);
      }
      PairTakesElement(node, fn, sn, r0, hashPath[i..], i, whole, total);
      fn, sn := fn / 2, sn / 2;
    }
    assert hashPath[|hashPath|..] == [];
    if sn != 0 {
      PathLengthPositive(fn, sn);
      return Err(InsufficientElements);
    }
    return Ok(r);
  }

  /** The counter that mirrors the walk's state machine gives the one length that fits. */
  method InclusionPathLen(leafIndex: uint64, treeSize: uint64) returns (n: nat)
    requires leafIndex < treeSize
    ensures n == PathLength(leafIndex, treeSize - 1)
  {
    var fn: nat, sn: nat := leafIndex, treeSize - 1;
    n := 0;
    while sn != 0
      decreases sn
      invariant fn <= sn
      invariant n + PathLength(fn, sn) == PathLength(leafIndex, treeSize - 1)
    {
      ghost var was := sn;
      if fn % 2 == 1 || fn == sn {
        while fn % 2 == 0 && fn != 0
          invariant 0 < fn <= sn <= was && (fn % 2 == 1 || fn == sn)
          invariant n + PathLength(fn, sn) == PathLength(leafIndex, treeSize - 1)
        {
          fn, sn := fn / 2, sn / 2;
        }
      }
      fn, sn, n := fn / 2, sn / 2, n + 1;
    }
  }

  /** The walked root is compared with the expected one. */
  function VerifyMerkleInclusion(sha: HashFn, event: Bytes, m: uint64, n: uint64, path: seq<Digest>, root: Digest)
    : Result<(), MerkleError>
  {
    var walked := InclusionRoot(sha, event, m, n, path);
    if walked.Err? then Err(walked.error)
    else if walked.value != root then Err(RootMismatch)
    else Ok(())
  }

  /**
   Exact path length: within the cap, the walk of a well-placed leaf succeeds if and only if the path has
   the length that (m, n) alone determines.
   */
  lemma WalkSucceedsIffExactLength(sha: HashFn, event: Bytes, m: uint64, n: uint64, path: seq<Digest>)
    ensures InclusionRoot(sha, event, m, n, path).Ok?
       <==> m < n && |path| == PathLength(m, n - 1) && |path| <= MAX_HASH_PATH_LEN
  {
  }

  /** Acceptance: the leaf is in the tree, the path has the length of its position, within the cap, and walks to the root. */
  lemma AcceptedIff(sha: HashFn, event: Bytes, m: uint64, n: uint64, path: seq<Digest>, root: Digest)
    ensures VerifyMerkleInclusion(sha, event, m, n, path, root) == Ok(()) <==>
      m < n && |path| <= 63 && Walk(Node(sha), m, n - 1, ComputeLeafHash(sha, event), path) == Some(root)
    ensures VerifyMerkleInclusion(sha, event, m, n, path, root) == Err(RootMismatch) <==>
      (&& m < n && |path| <= 63 && Walk(Node(sha), m, n - 1, ComputeLeafHash(sha, event), path).Some?
       && Walk(Node(sha), m, n - 1, ComputeLeafHash(sha, event), path) != Some(root))
  {
    if m < n {
      WalkSucceedsByLength(Node(sha), m, n - 1, ComputeLeafHash(sha, event), path);
    }
  }

  /** Some walk goes on from this path, or some walk ends before it does. */
  ghost predicate WalksOn(sha: HashFn, event: Bytes, m: uint64, n: uint64, path: seq<Digest>, more: seq<Digest>)
    requires m < n
  {
    more != [] && Walk(Node(sha), m, n - 1, ComputeLeafHash(sha, event), path + more).Some?
  }

  ghost predicate WalksBefore(sha: HashFn, event: Bytes, m: uint64, n: uint64, path: seq<Digest>, k: nat)
    requires m < n
  {
    k < |path| && Walk(Node(sha), m, n - 1, ComputeLeafHash(sha, event), path[..k]).Some?
  }

  /** Which rule a path breaks: the guards first, then elements left over once the root is reached, or missing before it is. */
  lemma RejectedIff(sha: HashFn, event: Bytes, m: uint64, n: uint64, path: seq<Digest>)
    ensures InclusionRoot(sha, event, m, n, path) == Err(TreeSizeZero) <==> n == 0
    ensures InclusionRoot(sha, event, m, n, path) == Err(IndexOutOfRange) <==> 0 < n <= m
    ensures InclusionRoot(sha, event, m, n, path) == Err(PathTooLong) <==> m < n && |path| > 63
    ensures m < n && |path| <= 63 ==>
      (&& (InclusionRoot(sha, event, m, n, path) == Err(ExcessElements) <==> exists k: nat :: WalksBefore(sha, event, m, n, path, k))
       && (InclusionRoot(sha, event, m, n, path) == Err(InsufficientElements) <==> exists more :: WalksOn(sha, event, m, n, path, more)))
  {
    if m < n && |path| <= 63 {
      var length, leaf := PathLength(m, n - 1), ComputeLeafHash(sha, event);
      forall k: nat | k < |path| ensures WalksBefore(sha, event, m, n, path, k) <==> k == length {
        WalkSucceedsByLength(Node(sha), m, n - 1, leaf, path[..k]);
      }
      forall more ensures WalksOn(sha, event, m, n, path, more) <==> more != [] && |path| + |more| == length {
        WalkSucceedsByLength(Node(sha), m, n - 1, leaf, path + more);
      }
      if |path| > length {
        assert WalksBefore(sha, event, m, n, path, length);
      }
      if |path| < length {
        assert WalksOn(sha, event, m, n, path, seq(length - |path|, _ => leaf));
      }
    }
  }

  lemma Pow2Of63()
    ensures Pow2(63) == TWO_TO_THE_63
  {
    assert Pow2(8) == 0x100;
    assert Pow2(16) == 0x1_0000;
    assert Pow2(24) == 0x100_0000;
    assert Pow2(32) == TWO_TO_THE_32;
    assert Pow2(40) == 0x100_0000_0000;
    assert Pow2(48) == 0x1_0000_0000_0000;
    assert Pow2(56) == 0x100_0000_0000_0000;
  }

  lemma PathLengthAgainstHeight(m: nat, n: nat, h: nat)
    requires m < n
    ensures n <= Pow2(h) ==> PathLength(m, n - 1) <= h
    ensures 2 * Pow2(h) >= n > Pow2(h) > m ==> PathLength(m, n - 1) == h + 1
  {
    if n <= Pow2(h) {
      PathLengthAtMostHeight(m, n - 1, h);
    } else if m < Pow2(h) && n <= 2 * Pow2(h) {
      PathLengthInLeftHalf(m, n - 1, h);
    }
  }

  /**
   The cap rejects no well-formed proof of a tree of at most 2^63 leaves. Beyond that size it rejects
   every well-formed proof of a leaf in the left half, the first 2^63 leaves.
   */
  lemma CapAgainstTreeSize(m: uint64, n: uint64)
    requires m < n
    ensures n <= TWO_TO_THE_63 ==> PathLength(m, n - 1) <= MAX_HASH_PATH_LEN
    ensures n > TWO_TO_THE_63 > m ==> PathLength(m, n - 1) == MAX_HASH_PATH_LEN + 1
  {
    Pow2Of63();
    PathLengthAgainstHeight(m, n, 63);
  }

  /** The tree has at most 2^63 leaves, or some ancestor of the leaf is the last of its level without a partner. */
  predicate Spared(m: uint64, n: uint64)
    requires m < n
  {
    n <= TWO_TO_THE_63 || EverAlone(m, n - 1)
  }

  /** The exact condition under which the cap spares the well-formed proofs of a leaf. */
  lemma CapSparesIff(m: uint64, n: uint64)
    requires m < n
    ensures PathLength(m, n - 1) <= MAX_HASH_PATH_LEN <==> Spared(m, n)
  {
    Pow2Of63();
    LengthWithinIff(m, n, 63);
  }

  lemma LengthWithinIff(m: nat, n: nat, h: nat)
    requires m < n <= 2 * Pow2(h)
    ensures PathLength(m, n - 1) <= h <==> n <= Pow2(h) || EverAlone(m, n - 1)
  {
    PathLengthAtMostIff(m, n - 1, h);
  }

  lemma EntryPathWalks(sha: HashFn, entries: seq<Bytes>, m: nat)
    requires m < |entries|
    ensures Walk(Node(sha), m, |entries| - 1, ComputeLeafHash(sha, entries[m]), EntryPath(sha, m, entries))
         == Some(TreeHead(sha, entries))
  {
    var hs := Leaves(sha, entries);
    assert hs[m] == ComputeLeafHash(sha, entries[m]);
    WalkOfAuditPath(Node(sha), m, hs);
  }

  /** A path that walks to a root gives that root, unless it is too long. */
  lemma WalkedUnlessTooLong(sha: HashFn, event: Bytes, m: uint64, n: uint64, path: seq<Digest>, root: Digest)
    requires m < n && Walk(Node(sha), m, n - 1, ComputeLeafHash(sha, event), path) == Some(root)
    ensures InclusionRoot(sha, event, m, n, path)
         == if PathLength(m, n - 1) <= MAX_HASH_PATH_LEN then Ok(root) else Err(PathTooLong)
  {
    WalkSucceedsByLength(Node(sha), m, n - 1, ComputeLeafHash(sha, event), path);
  }

  /**
   Completeness, and how far the cap lets it go: every entry's own audit path walks to the recursive tree head,
   except where the cap does not spare it.
   */
  lemma InclusionComplete(sha: HashFn, entries: seq<Bytes>, m: uint64)
    requires m < |entries| < TWO_TO_THE_64
    ensures InclusionRoot(sha, entries[m], m, |entries|, EntryPath(sha, m, entries))
         == if Spared(m, |entries|) then Ok(TreeHead(sha, entries)) else Err(PathTooLong)
  {
    EntryPathWalks(sha, entries, m);
    WalkedUnlessTooLong(sha, entries[m], m, |entries|, EntryPath(sha, m, entries), TreeHead(sha, entries));
    CapSparesIff(m, |entries|);
  }

  predicate Collides(sha: HashFn, x: Bytes, y: Bytes) {
    x != y && sha(x) == sha(y)
  }

  /** The hash inputs on which two accepted proofs of one position first part ways. */
  function DivergingInputs(sha: HashFn, m: uint64, n: uint64,
                           event1: Bytes, path1: seq<Digest>, event2: Bytes, path2: seq<Digest>): (Bytes, Bytes)
    requires n > 0
  {
    var r1, r2 := ComputeLeafHash(sha, event1), ComputeLeafHash(sha, event2);
    var clash := Divergence(Node(sha), m, n - 1, r1, path1, r2, path2);
    if clash.Some? then
      var ((l1, r1), (l2, r2)) := clash.value;
      ([1] + l1 + r1, [1] + l2 + r2)
    else
      ([0] + event1, [0] + event2)
  }

  lemma PrefixedPairsDiffer(l1: Digest, r1: Digest, l2: Digest, r2: Digest)
    requires (l1, r1) != (l2, r2)
    ensures [1] + l1 + r1 != [1] + l2 + r2
  {
    var x, y := [1] + l1 + r1, [1] + l2 + r2;
    assert x[1..33] == l1 && x[33..] == r1;
    assert y[1..33] == l2 && y[33..] == r2;
  }

  /** The event and path of one proof against those of another, judged by DivergingInputs. */
  ghost predicate SameOrCollision(sha: HashFn, m: uint64, n: uint64,
                                  event1: Bytes, path1: seq<Digest>, event2: Bytes, path2: seq<Digest>)
    requires n > 0
  {
    || (event1 == event2 && path1 == path2)
    || Collides(sha, DivergingInputs(sha, m, n, event1, path1, event2, path2).0,
                     DivergingInputs(sha, m, n, event1, path1, event2, path2).1)
  }

  lemma EventWalksBind(sha: HashFn, m: uint64, n: uint64,
                       event1: Bytes, path1: seq<Digest>, event2: Bytes, path2: seq<Digest>)
    requires m < n
    requires Walk(Node(sha), m, n - 1, ComputeLeafHash(sha, event1), path1).Some?
    requires Walk(Node(sha), m, n - 1, ComputeLeafHash(sha, event1), path1)
          == Walk(Node(sha), m, n - 1, ComputeLeafHash(sha, event2), path2)
    ensures SameOrCollision(sha, m, n, event1, path1, event2, path2)
  {
    var node := Node(sha);
    var r1, r2 := ComputeLeafHash(sha, event1), ComputeLeafHash(sha, event2);
    WalkBinds(node, m, n - 1, r1, path1, r2, path2);
    var clash := Divergence(node, m, n - 1, r1, path1, r2, path2);
    if clash.Some? {
      DivergenceIsClash(node, m, n - 1, r1, path1, r2, path2);
      var ((a, b), (c, d)) := clash.value;
      PrefixedPairsDiffer(a, b, c, d);
    } else if event1 != event2 {
      assert ([0] + event1)[1..] == event1 && ([0] + event2)[1..] == event2;
    }
  }

  lemma RootIsWalked(sha: HashFn, event: Bytes, m: uint64, n: uint64, path: seq<Digest>)
    requires InclusionRoot(sha, event, m, n, path).Ok?
    ensures m < n && Walk(Node(sha), m, n - 1, ComputeLeafHash(sha, event), path) == Some(InclusionRoot(sha, event, m, n, path).value)
  {
    WalkSucceedsByLength(Node(sha), m, n - 1, ComputeLeafHash(sha, event), path);
  }

  /**
   Binding: two proofs of one position that reach one root are the same event and the same path, or the
   two inputs named by DivergingInputs collide. Nothing is assumed of the tree behind the root.
   */
  lemma InclusionBinds(sha: HashFn, m: uint64, n: uint64,
                       event1: Bytes, path1: seq<Digest>, event2: Bytes, path2: seq<Digest>)
    requires InclusionRoot(sha, event1, m, n, path1).Ok?
    requires InclusionRoot(sha, event1, m, n, path1) == InclusionRoot(sha, event2, m, n, path2)
    ensures SameOrCollision(sha, m, n, event1, path1, event2, path2)
  {
    RootIsWalked(sha, event1, m, n, path1);
    RootIsWalked(sha, event2, m, n, path2);
    EventWalksBind(sha, m, n, event1, path1, event2, path2);
  }

  /**
   Soundness: a proof accepted against the tree head of a list of n entries proves entry m by its audit
   path, or DivergingInputs names two colliding byte strings.
   */
  lemma InclusionSound(sha: HashFn, entries: seq<Bytes>, m: uint64, event: Bytes, path: seq<Digest>)
    requires 0 < |entries| < TWO_TO_THE_64
    requires VerifyMerkleInclusion(sha, event, m, |entries|, path, TreeHead(sha, entries)).Ok?
    ensures m < |entries|
    ensures SameOrCollision(sha, m, |entries|, event, path, entries[m], EntryPath(sha, m, entries))
  {
    WalkSucceedsByLength(Node(sha), m, |entries| - 1, ComputeLeafHash(sha, event), path);
    EntryPathWalks(sha, entries, m);
    EventWalksBind(sha, m, |entries|, event, path, entries[m], EntryPath(sha, m, entries));
  }
}
