/** verify/scitt/receipt.go: a signed event with an unsigned inclusion proof. */
module Receipt {
  import opened Prelude
  import opened Merkle
  import opened RootKeys

  /** A field of a CBOR map: missing, present with the wrong type, or decoded. */
  datatype Field<+T> = Absent | Undecodable | Present(value: T)

  /** The proof map of the unprotected header; an element of the path is None when it is no byte string. */
  datatype Vdp = Vdp(treeSize: Field<uint64>, leafIndex: Field<uint64>, path: Field<seq<Option<Bytes>>>)

  datatype Parsed = Parsed(
    protectedBytes: Bytes, kid: Kid, vds: Option<int>, iss: Option<string>,
    vdp: Field<Vdp>, payload: Bytes, signature: Bytes)

  datatype ReceiptError =
    | NotCose | WrongVds | UnknownKeyId | SignatureInvalid | IssuerMismatch | InvalidUnprotectedHeader
    | Inclusion(cause: MerkleError)

  /** The CBOR and ECDSA libraries, and the hash. */
  datatype Lib = Lib(
    parse: Bytes -> Option<Parsed>,
    verifies: (PublicKey, Bytes, Bytes, Bytes) -> bool,
    sha: HashFn)

  datatype InclusionProof = InclusionProof(treeSize: uint64, leafIndex: uint64, path: seq<Digest>)

  datatype VerifiedReceipt = VerifiedReceipt(
    treeSize: uint64, leafIndex: uint64, rootHash: Digest, eventBytes: Bytes, keyId: Kid, iss: Option<string>)

  const VDS_RFC9162 := 1

  predicate IsHash(raw: Option<Bytes>) {
    raw.Some? && |raw.value| == 32
  }

  /** The proof a well-formed map holds; a missing path is an empty one. */
  function Extracted(vdp: Field<Vdp>): Result<InclusionProof, ReceiptError> {
    if !vdp.Present? || !vdp.value.treeSize.Present? || !vdp.value.leafIndex.Present? then Err(InvalidUnprotectedHeader)
    else
      var n, m := vdp.value.treeSize.value, vdp.value.leafIndex.value;
      match vdp.value.path
      case Absent => Ok(InclusionProof(n, m, []))
      case Undecodable => Err(InvalidUnprotectedHeader)
      case Present(raw) =>
        if forall i | 0 <= i < |raw| :: IsHash(raw[i])
        then Ok(InclusionProof(n, m, seq(|raw|, i requires 0 <= i < |raw| => raw[i].value)))
        else Err(InvalidUnprotectedHeader)
  }

  method ExtractVdp(vdp: Field<Vdp>) returns (res: Result<InclusionProof, ReceiptError>)
    ensures res == Extracted(vdp)
  {
    if !vdp.Present? || !vdp.value.treeSize.Present? || !vdp.value.leafIndex.Present? {
      return Err(InvalidUnprotectedHeader);
    }
    var n, m := vdp.value.treeSize.value, vdp.value.leafIndex.value;
    if vdp.value.path.Absent? {
      return Ok(InclusionProof(n, m, []));
    }
    if vdp.value.path.Undecodable? {
      return Err(InvalidUnprotectedHeader);
    }
    var raw := vdp.value.path.value;
    var path: seq<Digest> := [];
    for i := 0 to |raw|
      invariant |path| == i
      invariant forall j | 0 <= j < i :: IsHash(raw[j]) && path[j] == raw[j].value
    {
      if !IsHash(raw[i]) {
        return Err(InvalidUnprotectedHeader);
      }
      path := path + [raw[i].value];
    }
    assert path == seq(|raw|, i requires 0 <= i < |raw| => raw[i].value);
    return Ok(InclusionProof(n, m, path));
  }

  /** The checks in the source's order; the issuer is looked at only under a verified signature. */
  function VerifyReceipt(lib: Lib, receipt: Bytes, keys: KeyMap): Result<VerifiedReceipt, ReceiptError> {
    var p := lib.parse(receipt);
    if p.None? then Err(NotCose)
    else if p.value.vds != Some(VDS_RFC9162) then Err(WrongVds)
    else if p.value.kid !in keys then Err(UnknownKeyId)
    else if !lib.verifies(keys[p.value.kid].key, p.value.protectedBytes, p.value.payload, p.value.signature) then
      Err(SignatureInvalid)
    else if p.value.iss.Some? && p.value.iss.value != keys[p.value.kid].name then Err(IssuerMismatch)
    else VerifyInclusionProof(lib, p.value)
  }

  function VerifyInclusionProof(lib: Lib, p: Parsed): Result<VerifiedReceipt, ReceiptError> {
    var proof := Extracted(p.vdp);
    if proof.Err? then Err(proof.error)
    else
      var root := InclusionRoot(lib.sha, p.payload, proof.value.leafIndex, proof.value.treeSize, proof.value.path);
      if root.Err? then Err(Inclusion(root.error))
      else Ok(VerifiedReceipt(proof.value.treeSize, proof.value.leafIndex, root.value, p.payload, p.kid, p.iss))
  }

  /** What a proof map holds: the two numbers and the 32-byte elements in order; without a path it holds an empty one. */
  ghost predicate Holds(vdp: Field<Vdp>, proof: InclusionProof) {
    && vdp.Present?
    && vdp.value.treeSize == Present(proof.treeSize) && vdp.value.leafIndex == Present(proof.leafIndex)
    && match vdp.value.path
       case Absent => proof.path == []
       case Undecodable => false
       case Present(raw) => |raw| == |proof.path| && forall i | 0 <= i < |raw| :: raw[i] == Some(proof.path[i])
  }

  /** Extraction returns exactly what the map holds, and fails in one way. */
  lemma ExtractedIff(vdp: Field<Vdp>, proof: InclusionProof)
    ensures Extracted(vdp) == Ok(proof) <==> Holds(vdp, proof)
    ensures Extracted(vdp).Ok? || Extracted(vdp) == Err(InvalidUnprotectedHeader)
  {
    if Holds(vdp, proof) && vdp.value.path.Present? {
      var raw := vdp.value.path.value;
      assert forall i | 0 <= i < |raw| :: IsHash(raw[i]);
      assert Extracted(vdp).value.path == proof.path;
    }
  }

  /** A trusted key signed these fields, under an issuer that is absent or the key's own. */
  predicate Signed(lib: Lib, p: Parsed, keys: KeyMap) {
    && p.vds == Some(1) && p.kid in keys
    && lib.verifies(keys[p.kid].key, p.protectedBytes, p.payload, p.signature)
    && (p.iss.Some? ==> p.iss.value == keys[p.kid].name)
  }

  /** The result repeats the signed fields and the proof map, and its root is the walk of the map's path. */
  ghost predicate Proves(lib: Lib, p: Parsed, v: VerifiedReceipt, path: seq<Digest>) {
    && Holds(p.vdp, InclusionProof(v.treeSize, v.leafIndex, path))
    && InclusionRoot(lib.sha, p.payload, v.leafIndex, v.treeSize, path) == Ok(v.rootHash)
    && v.eventBytes == p.payload && v.keyId == p.kid && v.iss == p.iss
  }

  lemma ProvedIff(lib: Lib, p: Parsed, v: VerifiedReceipt)
    ensures VerifyInclusionProof(lib, p) == Ok(v) <==> exists path :: Proves(lib, p, v, path)
  {
    if VerifyInclusionProof(lib, p) == Ok(v) {
      var proof := Extracted(p.vdp).value;
      ExtractedIff(p.vdp, proof);
      assert Proves(lib, p, v, proof.path);
    }
    if path :| Proves(lib, p, v, path) {
      ExtractedIff(p.vdp, InclusionProof(v.treeSize, v.leafIndex, path));
    }
  }

  /** Acceptance, judged on the parsed fields alone: a trusted signature, and a path in the map that walks to the root. */
  lemma VerifiedIff(lib: Lib, receipt: Bytes, keys: KeyMap, v: VerifiedReceipt)
    ensures VerifyReceipt(lib, receipt, keys) == Ok(v) <==>
      var p := lib.parse(receipt);
      p.Some? && Signed(lib, p.value, keys) && exists path :: Proves(lib, p.value, v, path)
  {
    if lib.parse(receipt).Some? {
      ProvedIff(lib, lib.parse(receipt).value, v);
    }
  }

  /**
   Which rule a rejected receipt breaks, in the order the rules are documented in: the signature before the issuer,
   and both before the unsigned proof map.
   */
  lemma RejectedIff(lib: Lib, receipt: Bytes, keys: KeyMap)
    ensures VerifyReceipt(lib, receipt, keys) == Err(NotCose) <==> lib.parse(receipt).None?
    ensures lib.parse(receipt).Some? ==>
      var p, r := lib.parse(receipt).value, VerifyReceipt(lib, receipt, keys);
      var structured := p.vds == Some(1);
      var known := structured && p.kid in keys;
      var authentic := known && lib.verifies(keys[p.kid].key, p.protectedBytes, p.payload, p.signature);
      && (r == Err(WrongVds) <==> !structured)
      && (r == Err(UnknownKeyId) <==> structured && !known)
      && (r == Err(SignatureInvalid) <==> known && !authentic)
      && (r == Err(IssuerMismatch) <==> authentic && !Signed(lib, p, keys))
      && (r == Err(InvalidUnprotectedHeader) <==> Signed(lib, p, keys) && forall proof :: !Holds(p.vdp, proof))
  {
    if lib.parse(receipt).Some? {
      var vdp := lib.parse(receipt).value.vdp;
      if Extracted(vdp).Ok? {
        ExtractedIff(vdp, Extracted(vdp).value);
      } else {
        forall proof ensures !Holds(vdp, proof) {
          ExtractedIff(vdp, proof);
        }
      }
    }
  }

  /** A well-formed proof that does not walk reports what was wrong with it. */
  lemma NotIncludedIff(lib: Lib, receipt: Bytes, keys: KeyMap, cause: MerkleError)
    ensures VerifyReceipt(lib, receipt, keys) == Err(Inclusion(cause)) <==>
      (&& lib.parse(receipt).Some? && Signed(lib, lib.parse(receipt).value, keys)
       && exists proof ::
            (&& Holds(lib.parse(receipt).value.vdp, proof)
             && InclusionRoot(lib.sha, lib.parse(receipt).value.payload, proof.leafIndex, proof.treeSize, proof.path) == Err(cause)))
  {
    if lib.parse(receipt).Some? {
      var vdp := lib.parse(receipt).value.vdp;
      forall proof ensures Holds(vdp, proof) <==> Extracted(vdp) == Ok(proof) {
        ExtractedIff(vdp, proof);
      }
      if Extracted(vdp).Ok? {
        assert Holds(vdp, Extracted(vdp).value);
      }
    }
  }

  /** The inclusion path of a receipt that verifies. */
  function PathOf(lib: Lib, receipt: Bytes, keys: KeyMap): seq<Digest>
    requires VerifyReceipt(lib, receipt, keys).Ok?
  {
    Extracted(lib.parse(receipt).value.vdp).value.path
  }

  /** What verification says of the walk: its root, from the event that the receipt's own signature covers. */
  lemma VerifiedMeansWalked(lib: Lib, receipt: Bytes, keys: KeyMap)
    requires VerifyReceipt(lib, receipt, keys).Ok?
    ensures lib.parse(receipt).Some?
    ensures var v, p := VerifyReceipt(lib, receipt, keys).value, lib.parse(receipt).value;
      && v.leafIndex < v.treeSize && Signed(lib, p, keys) && Proves(lib, p, v, PathOf(lib, receipt, keys))
  {
    var v, p := VerifyReceipt(lib, receipt, keys).value, lib.parse(receipt).value;
    VerifiedIff(lib, receipt, keys, v);
    ExtractedIff(p.vdp, Extracted(p.vdp).value);
  }
}
