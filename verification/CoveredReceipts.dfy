/** What receipts and a checkpoint establish together: entries of one published tree. */
module CoveredReceipts {
  import opened Prelude
  import opened RootKeys
  import opened Merkle
  import Receipt
  import Checkpoint

  /**
   Two verified receipts that one checkpoint covers at one leaf index carry the same event by the same path,
   or DivergingInputs names two byte strings that collide.
   */
  lemma CoveredReceiptsAgree(lib: Receipt.Lib, cp: Checkpoint.Checkpoint, keys1: KeyMap, receipt1: Bytes, keys2: KeyMap, receipt2: Bytes)
    requires Receipt.VerifyReceipt(lib, receipt1, keys1).Ok? && Receipt.VerifyReceipt(lib, receipt2, keys2).Ok?
    requires Checkpoint.Covers(cp, Receipt.VerifyReceipt(lib, receipt1, keys1).value).None?
    requires Checkpoint.Covers(cp, Receipt.VerifyReceipt(lib, receipt2, keys2).value).None?
    requires Receipt.VerifyReceipt(lib, receipt1, keys1).value.leafIndex == Receipt.VerifyReceipt(lib, receipt2, keys2).value.leafIndex
    ensures var r1, r2 := Receipt.VerifyReceipt(lib, receipt1, keys1).value, Receipt.VerifyReceipt(lib, receipt2, keys2).value;
      && r1.leafIndex < r1.treeSize == cp.head.size
      && SameOrCollision(lib.sha, r1.leafIndex, r1.treeSize, r1.eventBytes, Receipt.PathOf(lib, receipt1, keys1),
                         r2.eventBytes, Receipt.PathOf(lib, receipt2, keys2))
  {
    var r1, r2 := Receipt.VerifyReceipt(lib, receipt1, keys1).value, Receipt.VerifyReceipt(lib, receipt2, keys2).value;
    Receipt.VerifiedMeansWalked(lib, receipt1, keys1);
    Receipt.VerifiedMeansWalked(lib, receipt2, keys2);
    InclusionBinds(lib.sha, r1.leafIndex, r1.treeSize, r1.eventBytes, Receipt.PathOf(lib, receipt1, keys1),
                   r2.eventBytes, Receipt.PathOf(lib, receipt2, keys2));
  }

  /** When the checkpoint heads a list of entries, a covered receipt proves the entry at its index, or names a collision. */
  lemma CoveredReceiptIsAnEntry(lib: Receipt.Lib, cp: Checkpoint.Checkpoint, keys: KeyMap, receipt: Bytes, entries: seq<Bytes>)
    requires Receipt.VerifyReceipt(lib, receipt, keys).Ok?
    requires Checkpoint.Covers(cp, Receipt.VerifyReceipt(lib, receipt, keys).value).None?
    requires cp.head.size == |entries| && |entries| > 0 && cp.head.rootHash == TreeHead(lib.sha, entries)
    ensures var r := Receipt.VerifyReceipt(lib, receipt, keys).value;
      && r.leafIndex < |entries|
      && SameOrCollision(lib.sha, r.leafIndex, |entries|, r.eventBytes, Receipt.PathOf(lib, receipt, keys),
                         entries[r.leafIndex], EntryPath(lib.sha, r.leafIndex, entries))
  {
    var r := Receipt.VerifyReceipt(lib, receipt, keys).value;
    Receipt.VerifiedMeansWalked(lib, receipt, keys);
    InclusionSound(lib.sha, entries, r.leafIndex, r.eventBytes, Receipt.PathOf(lib, receipt, keys));
  }

  /**
   An honest receipt, signed over entry m of a list and carrying the audit path RFC 9162 generates for it, verifies;
   and it is covered by the checkpoint that heads the list, and by no other.
   */
  lemma HonestReceiptIsCovered(lib: Receipt.Lib, cp: Checkpoint.Checkpoint, keys: KeyMap, receipt: Bytes, entries: seq<Bytes>, m: uint64)
    requires m < |entries| < TWO_TO_THE_64 && Spared(m, |entries|)
    requires lib.parse(receipt).Some? && Receipt.Signed(lib, lib.parse(receipt).value, keys)
    requires lib.parse(receipt).value.payload == entries[m]
    requires Receipt.Holds(lib.parse(receipt).value.vdp,
                           Receipt.InclusionProof(|entries|, m, EntryPath(lib.sha, m, entries)))
    ensures var p := lib.parse(receipt).value;
      var v := Receipt.VerifiedReceipt(|entries|, m, TreeHead(lib.sha, entries), entries[m], p.kid, p.iss);
      && Receipt.VerifyReceipt(lib, receipt, keys) == Ok(v)
      && (Checkpoint.Covers(cp, v).None? <==> cp.head.size == |entries| && cp.head.rootHash == TreeHead(lib.sha, entries))
      && (cp.head.size != |entries| ==> Checkpoint.Covers(cp, v) == Some(Checkpoint.SizeMismatch))
      && (cp.head.size == |entries| && cp.head.rootHash != TreeHead(lib.sha, entries) ==>
            Checkpoint.Covers(cp, v) == Some(Checkpoint.RootMismatch))
  {
    var p := lib.parse(receipt).value;
    var v := Receipt.VerifiedReceipt(|entries|, m, TreeHead(lib.sha, entries), entries[m], p.kid, p.iss);
    InclusionComplete(lib.sha, entries, m);
    assert Receipt.Proves(lib, p, v, EntryPath(lib.sha, m, entries));
    Receipt.VerifiedIff(lib, receipt, keys, v);
  }
}
