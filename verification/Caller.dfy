/** pop/caller.go: possession proof, status token and receipt bound to one agent, and the replay commit last. */
module Caller {
  import opened Prelude
  import opened Names
  import opened Proof
  import opened ReplayCache
  import opened RootKeys
  import Receipt

  datatype StatusPayload = StatusPayload(ansName: string, agentId: string, validIdentityCerts: seq<Digest>)

  /** The leaf event of a receipt; ansId and agentId are the two spellings its schemas use. */
  datatype LeafEvent = LeafEvent(ansId: string, agentId: string, ansName: string) {
    function AgentId(): string {
      if ansId != "" then ansId else agentId
    }
  }

  datatype CallerLib = CallerLib(
    proof: Proof.Lib,
    receipt: Receipt.Lib,
    status: (Bytes, KeyMap, int) -> Option<StatusPayload>,
    leaf: Bytes -> Option<LeafEvent>,
    fold: Folding)

  /** allowed holds canonical names, empty accepting any; pinErr marks pins that can never be satisfied. */
  datatype Config = Config(requireReceipt: bool, allowed: set<string>, pinErr: bool, popSkew: Time)

  datatype Headers = Headers(statusToken: Bytes, receipt: Bytes)

  datatype Call = Call(req: Request, headers: Option<Headers>)

  datatype Identity = Identity(ansName: string, agentId: string, fingerprint: Digest, jkt: string)

  // ----- Pins -----

  function AddAllowed(fold: Folding, c: Config, ansName: string): Config {
    var ans := ParseAnsName(fold, ansName);
    if ans.None? then c.(pinErr := true) else c.(allowed := c.allowed + {CanonicalAnsName(ans.value)})
  }

  /** The agents a list of names pins. */
  function Pins(fold: Folding, names: seq<string>): set<AnsName> {
    set n | n in names && ParseAnsName(fold, n).Some? :: ParseAnsName(fold, n).value
  }

  function Canonicals(pins: set<AnsName>): set<string> {
    set a | a in pins :: CanonicalAnsName(a)
  }

  lemma PinsOfMore(fold: Folding, names: seq<string>, n: string)
    ensures Pins(fold, names + [n]) == if ParseAnsName(fold, n).Some? then Pins(fold, names) + {ParseAnsName(fold, n).value} else Pins(fold, names)
  {
    assert forall x :: x in names + [n] <==> x in names || x == n;
  }

  lemma CanonicalsOfMore(pins: set<AnsName>, a: AnsName)
    ensures Canonicals(pins + {a}) == Canonicals(pins) + {CanonicalAnsName(a)}
  {
  }

  /** A configuration with a list of names added. */
  ghost predicate Added(fold: Folding, c: Config, names: seq<string>, c': Config) {
    && c'.allowed == c.allowed + Canonicals(Pins(fold, names))
    && (c'.pinErr <==> c.pinErr || exists n | n in names :: ParseAnsName(fold, n).None?)
    && c'.requireReceipt == c.requireReceipt && c'.popSkew == c.popSkew
  }

  lemma AddedNone(fold: Folding, c: Config)
    ensures Added(fold, c, [], c)
  {
  }

  lemma TakeOneMore(names: seq<string>, i: nat)
    requires i < |names|
    ensures names[..i + 1] == names[..i] + [names[i]]
  {
  }

  lemma InMore(names: seq<string>, n: string, x: string)
    ensures x in names + [n] <==> x in names || x == n
  {
    if x == n {
      assert (names + [n])[|names|] == n;
    }
  }

  lemma AddedMore(fold: Folding, c: Config, names: seq<string>, c': Config, n: string)
    requires Added(fold, c, names, c')
    ensures Added(fold, c, names + [n], AddAllowed(fold, c', n))
  {
    PinsOfMore(fold, names, n);
    if ParseAnsName(fold, n).Some? {
      CanonicalsOfMore(Pins(fold, names), ParseAnsName(fold, n).value);
    }
    forall x ensures x in names + [n] <==> x in names || x == n {
      InMore(names, n, x);
    }
  }

  /** No names at all, or one that does not parse, is an error and never "anyone". */
  method WithAllowedAnsNames(fold: Folding, c: Config, names: seq<string>) returns (c': Config)
    ensures Added(fold, if names == [] then c.(pinErr := true) else c, names, c')
  {
    c' := if names == [] then c.(pinErr := true) else c;
    ghost var start := c';
    AddedNone(fold, start);
    assert names[..0] == [];
    for i := 0 to |names|
      invariant Added(fold, start, names[..i], c')
    {
      AddedMore(fold, start, names[..i], c', names[i]);
      TakeOneMore(names, i);
      c' := AddAllowed(fold, c', names[i]);
    }
    assert names[..|names|] == names;
  }

  // ----- Binding -----

  function ReceiptNamesAgent(lib: CallerLib, rcpt: Receipt.VerifiedReceipt, st: StatusPayload, stAns: AnsName): Option<ErrorType> {
    var ev := lib.leaf(rcpt.eventBytes);
    if ev.None? then Some(ReceiptInvalid)
    else if ev.value.AgentId() == "" || ev.value.ansName == "" then Some(ReceiptInvalid)
    else if ev.value.ansId != "" && ev.value.agentId != "" && ev.value.ansId != ev.value.agentId then Some(ReceiptInvalid)
    else
      var leafAns := ParseAnsName(lib.fold, ev.value.ansName);
      if leafAns.None? then Some(ReceiptInvalid)
      else if ev.value.AgentId() != st.agentId then Some(BindingFailed)
      else if CanonicalAnsName(leafAns.value) != CanonicalAnsName(stAns) then Some(BindingFailed)
      else None
  }

  function VerifyBinding(lib: CallerLib, proof: ProofResult, st: StatusPayload, rcpt: Option<Receipt.VerifiedReceipt>, cfg: Config)
    : Result<Identity, ErrorType>
  {
    var certAns, stAns := CertAnsName(lib.fold, proof.cert.uriSans), ParseAnsName(lib.fold, st.ansName);
    if proof.fingerprint !in st.validIdentityCerts then Err(BindingFailed)
    else if certAns.None? then Err(BindingFailed)
    else if stAns.None? then Err(BindingFailed)
    else if CanonicalAnsName(certAns.value) != CanonicalAnsName(stAns.value) then Err(BindingFailed)
    else
      var bad := if rcpt.Some? then ReceiptNamesAgent(lib, rcpt.value, st, stAns.value) else None;
      if bad.Some? then Err(bad.value)
      else if cfg.allowed != {} && CanonicalAnsName(stAns.value) !in cfg.allowed then Err(ExpectedPeerMismatch)
      else Ok(Identity(st.ansName, st.agentId, proof.fingerprint, proof.jkt))
  }

  /** One agent, said without canonical strings: one version and host everywhere, one agent id, within the pins. */
  ghost predicate OneAgent(lib: CallerLib, proof: ProofResult, st: StatusPayload, rcpt: Option<Receipt.VerifiedReceipt>,
                           pins: set<AnsName>)
  {
    var ans := ParseAnsName(lib.fold, st.ansName);
    && proof.fingerprint in st.validIdentityCerts
    && ans.Some? && (exists i: nat :: IsFirstAnsName(lib.fold, proof.cert.uriSans, i, ans.value))
    && (rcpt.Some? ==> LeafNames(lib.fold, lib.leaf(rcpt.value.eventBytes), st.agentId, ans.value))
    && (pins != {} ==> ans.value in pins)
  }

  /** A decoded leaf event whose every agent id is this one and whose name is this one. */
  predicate LeafNames(fold: Folding, ev: Option<LeafEvent>, agentId: string, ans: AnsName) {
    && ev.Some? && agentId != ""
    && ev.value.ansId in {"", agentId} && ev.value.agentId in {"", agentId}
    && (ev.value.ansId == agentId || ev.value.agentId == agentId)
    && ParseAnsName(fold, ev.value.ansName) == Some(ans)
  }

  lemma EmptyIsNoAnsName(fold: Folding)
    ensures ParseAnsName(fold, "").None?
  {
  }

  lemma ReceiptUnfolds(lib: CallerLib, rcpt: Receipt.VerifiedReceipt, st: StatusPayload, stAns: AnsName,
                       ev: Option<LeafEvent>, leafAns: Option<AnsName>)
    requires ev == lib.leaf(rcpt.eventBytes) && (ev.Some? ==> leafAns == ParseAnsName(lib.fold, ev.value.ansName))
    ensures ReceiptNamesAgent(lib, rcpt, st, stAns).None? <==>
      (&& ev.Some? && ev.value.ansName != "" && ev.value.AgentId() == st.agentId != ""
       && !(ev.value.ansId != "" && ev.value.agentId != "" && ev.value.ansId != ev.value.agentId)
       && leafAns.Some? && CanonicalAnsName(leafAns.value) == CanonicalAnsName(stAns))
  {
  }

  lemma ReceiptNamesAgentIff(lib: CallerLib, rcpt: Receipt.VerifiedReceipt, st: StatusPayload)
    requires ParseAnsName(lib.fold, st.ansName).Some?
    ensures ReceiptNamesAgent(lib, rcpt, st, ParseAnsName(lib.fold, st.ansName).value).None?
       <==> LeafNames(lib.fold, lib.leaf(rcpt.eventBytes), st.agentId, ParseAnsName(lib.fold, st.ansName).value)
  {
    var ev, stAns := lib.leaf(rcpt.eventBytes), ParseAnsName(lib.fold, st.ansName);
    EmptyIsNoAnsName(lib.fold);
    if ev.Some? {
      var leafAns := ParseAnsName(lib.fold, ev.value.ansName);
      ReceiptUnfolds(lib, rcpt, st, stAns.value, ev, leafAns);
      if leafAns.Some? {
        CanonicalIffSame(leafAns.value, stAns.value);
      }
    }
  }

  lemma PinnedIff(pins: set<AnsName>, ans: AnsName)
    ensures CanonicalAnsName(ans) in Canonicals(pins) <==> ans in pins
  {
    forall a | a in pins ensures CanonicalAnsName(a) == CanonicalAnsName(ans) <==> a == ans {
      CanonicalIffSame(a, ans);
    }
  }

  lemma BindingUnfolds(lib: CallerLib, proof: ProofResult, st: StatusPayload, rcpt: Option<Receipt.VerifiedReceipt>, cfg: Config,
                       certAns: Option<AnsName>, stAns: Option<AnsName>)
    requires certAns == CertAnsName(lib.fold, proof.cert.uriSans) && stAns == ParseAnsName(lib.fold, st.ansName)
    ensures VerifyBinding(lib, proof, st, rcpt, cfg).Ok? <==>
      (&& proof.fingerprint in st.validIdentityCerts && certAns.Some? && stAns.Some?
       && CanonicalAnsName(certAns.value) == CanonicalAnsName(stAns.value)
       && (rcpt.Some? ==> ReceiptNamesAgent(lib, rcpt.value, st, stAns.value).None?)
       && (cfg.allowed != {} ==> CanonicalAnsName(stAns.value) in cfg.allowed))
    ensures VerifyBinding(lib, proof, st, rcpt, cfg).Ok? ==>
      VerifyBinding(lib, proof, st, rcpt, cfg).value == Identity(st.ansName, st.agentId, proof.fingerprint, proof.jkt)
  {
  }

  /** The binding accepts exactly when everything presented names one agent, and then names that agent. */
  lemma BindingIffOneAgent(lib: CallerLib, proof: ProofResult, st: StatusPayload, rcpt: Option<Receipt.VerifiedReceipt>,
                           cfg: Config, names: seq<string>)
    requires cfg.allowed == Canonicals(Pins(lib.fold, names))
    ensures VerifyBinding(lib, proof, st, rcpt, cfg).Ok? <==> OneAgent(lib, proof, st, rcpt, Pins(lib.fold, names))
    ensures VerifyBinding(lib, proof, st, rcpt, cfg).Ok? ==>
      VerifyBinding(lib, proof, st, rcpt, cfg).value == Identity(st.ansName, st.agentId, proof.fingerprint, proof.jkt)
  {
    var certAns, stAns := CertAnsName(lib.fold, proof.cert.uriSans), ParseAnsName(lib.fold, st.ansName);
    BindingUnfolds(lib, proof, st, rcpt, cfg, certAns, stAns);
    if stAns.Some? {
      CertAnsNameIff(lib.fold, proof.cert.uriSans, stAns.value);
    }
    if certAns.Some? && stAns.Some? {
      CanonicalIffSame(certAns.value, stAns.value);
      PinnedIff(Pins(lib.fold, names), stAns.value);
      NoPinsNoCanonicals(Pins(lib.fold, names));
      if rcpt.Some? {
        ReceiptNamesAgentIff(lib, rcpt.value, st);
      }
    }
  }

  lemma NoPinsNoCanonicals(pins: set<AnsName>)
    ensures Canonicals(pins) == {} <==> pins == {}
  {
    if pins != {} {
      var a :| a in pins;
      assert CanonicalAnsName(a) in Canonicals(pins);
    }
  }

  // ----- The pipeline -----

  /** What can be refused before any artifact is verified. */
  function Precheck(cfg: Config, call: Call, haveKeys: bool, haveReplay: bool): Option<ErrorType> {
    if call.req.clientGone then Some(ClientGone)
    else if !haveKeys || !haveReplay || cfg.pinErr then Some(Misconfigured)
    else if call.req.proofJws == "" then Some(MissingHeaders)
    else if call.headers.None? || call.headers.value.statusToken == [] then Some(MissingHeaders)
    else if cfg.requireReceipt && call.headers.value.receipt == [] then Some(MissingHeaders)
    else None
  }

  /** The three artifacts, each verified in turn, then bound to one agent. */
  function BoundCaller(lib: CallerLib, cfg: Config, call: Call, keys: KeyMap, now: Time): Result<(ProofResult, Identity), ErrorType>
    requires call.headers.Some?
  {
    var proof := VerifyProofUnrecorded(lib.proof, call.req, now, cfg.popSkew);
    if proof.Err? then Err(proof.error)
    else
      var st := lib.status(call.headers.value.statusToken, keys, now / SECOND);
      if st.None? then Err(StatusInvalid)
      else
        var rcpt := Receipt.VerifyReceipt(lib.receipt, call.headers.value.receipt, keys);
        if cfg.requireReceipt && rcpt.Err? then Err(ReceiptInvalid)
        else
          var id := VerifyBinding(lib, proof.value, st.value, if cfg.requireReceipt then Some(rcpt.value) else None, cfg);
          if id.Err? then Err(id.error) else Ok((proof.value, id.value))
  }

  /** The verdict of VerifyCaller before its replay commit. */
  function VouchedByCaller(lib: CallerLib, cfg: Config, call: Call, keys: Option<KeyMap>, now: Time)
    : Result<(ProofResult, Identity), ErrorType>
  {
    var bad := Precheck(cfg, call, keys.Some?, true);
    if bad.Some? then Err(bad.value)
    else
      var bound := BoundCaller(lib, cfg, call, keys.value, now);
      if bound.Err? then bound
      else
        var unread := CheckContent(lib.proof, bound.value.0, call.req.content);
        if unread.Some? then Err(unread.value) else bound
  }

  method VerifyCaller(lib: CallerLib, cfg: Config, call: Call, keys: Option<KeyMap>, replay: MemoryReplayCache?,
                      now: Time, commitAt: Time)
    returns (res: Result<Identity, ErrorType>)
    requires replay != null ==> replay.Valid()
    modifies replay
    ensures replay == null ==> res == Err(if call.req.clientGone then ClientGone else Misconfigured)
    ensures replay != null ==> replay.Valid()
    ensures replay != null ==>
      (replay.index, res)
      == Settled(lib.proof, old(replay.index), replay.maxEntries, VouchedByCaller(lib, cfg, call, keys, now), commitAt)
  {
    var bad := Precheck(cfg, call, keys.Some?, replay != null);
    if bad.Some? {
      return Err(bad.value);
    }
    var bound := BoundCaller(lib, cfg, call, keys.value, now);
    if bound.Err? {
      return Err(bound.error);
    }
    bad := CheckContent(lib.proof, bound.value.0, call.req.content);
    if bad.Some? {
      return Err(bad.value);
    }
    bad := CommitReplay(lib.proof, bound.value.0, replay, commitAt);
    if bad.Some? {
      return Err(bad.value);
    }
    return Ok(bound.value.1);
  }

  /** The proof and identity come from a verified proof, status token and, when required, receipt, all of one agent. */
  ghost predicate OfOneAgent(lib: CallerLib, cfg: Config, pins: set<AnsName>, call: Call, keys: Option<KeyMap>, now: Time,
                             proof: ProofResult, id: Identity)
  {
    && keys.Some? && call.headers.Some?
    && VerifyProofUnrecorded(lib.proof, call.req, now, cfg.popSkew) == Ok(proof)
    && call.req.content.Some? && lib.proof.sha(call.req.content.value) == proof.contentDigest
    && var st := lib.status(call.headers.value.statusToken, keys.value, now / SECOND);
       var rcpt := Receipt.VerifyReceipt(lib.receipt, call.headers.value.receipt, keys.value);
       && st.Some? && (cfg.requireReceipt ==> rcpt.Ok?)
       && OneAgent(lib, proof, st.value, if cfg.requireReceipt then Some(rcpt.value) else None, pins)
       && id == Identity(st.value.ansName, st.value.agentId, proof.fingerprint, proof.jkt)
  }

  /** What a call must bring before anything is verified. */
  predicate Presentable(cfg: Config, call: Call, keys: Option<KeyMap>) {
    && !call.req.clientGone && keys.Some? && !cfg.pinErr && call.req.proofJws != ""
    && call.headers.Some? && call.headers.value.statusToken != []
    && (cfg.requireReceipt ==> call.headers.value.receipt != [])
  }

  lemma BoundUnfolds(lib: CallerLib, cfg: Config, call: Call, keys: KeyMap, now: Time, proof: ProofResult, id: Identity)
    requires call.headers.Some?
    ensures BoundCaller(lib, cfg, call, keys, now) == Ok((proof, id)) <==>
      var st := lib.status(call.headers.value.statusToken, keys, now / SECOND);
      var rcpt := Receipt.VerifyReceipt(lib.receipt, call.headers.value.receipt, keys);
      && VerifyProofUnrecorded(lib.proof, call.req, now, cfg.popSkew) == Ok(proof)
      && st.Some? && (cfg.requireReceipt ==> rcpt.Ok?)
      && VerifyBinding(lib, proof, st.value, if cfg.requireReceipt then Some(rcpt.value) else None, cfg) == Ok(id)
  {
  }

  lemma VouchedUnfolds(lib: CallerLib, cfg: Config, call: Call, keys: Option<KeyMap>, now: Time, proof: ProofResult, id: Identity)
    ensures VouchedByCaller(lib, cfg, call, keys, now) == Ok((proof, id)) <==>
      (&& Presentable(cfg, call, keys)
       && BoundCaller(lib, cfg, call, keys.value, now) == Ok((proof, id))
       && call.req.content.Some? && lib.proof.sha(call.req.content.value) == proof.contentDigest)
  {
  }

  /** A caller is vouched for exactly when the call is presentable and everything verified names one agent. */
  lemma VouchedIffOneAgent(lib: CallerLib, cfg: Config, names: seq<string>, call: Call, keys: Option<KeyMap>, now: Time,
                           proof: ProofResult, id: Identity)
    requires cfg.allowed == Canonicals(Pins(lib.fold, names))
    ensures VouchedByCaller(lib, cfg, call, keys, now) == Ok((proof, id))
       <==> Presentable(cfg, call, keys) && OfOneAgent(lib, cfg, Pins(lib.fold, names), call, keys, now, proof, id)
  {
    VouchedUnfolds(lib, cfg, call, keys, now, proof, id);
    if Presentable(cfg, call, keys) {
      BoundUnfolds(lib, cfg, call, keys.value, now, proof, id);
      var st := lib.status(call.headers.value.statusToken, keys.value, now / SECOND);
      var rcpt := Receipt.VerifyReceipt(lib.receipt, call.headers.value.receipt, keys.value);
      if st.Some? && (cfg.requireReceipt ==> rcpt.Ok?) {
        BindingIffOneAgent(lib, proof, st.value, if cfg.requireReceipt then Some(rcpt.value) else None, cfg, names);
      }
    }
  }

  // ----- Which rule a rejected call breaks -----

  /** Before anything is verified: the client, then the configuration, then what the call must bring. */
  lemma NotPresentableIff(cfg: Config, call: Call, keys: Option<KeyMap>)
    ensures Precheck(cfg, call, keys.Some?, true).None? <==> Presentable(cfg, call, keys)
    ensures Precheck(cfg, call, keys.Some?, true) == Some(ClientGone) <==> call.req.clientGone
    ensures Precheck(cfg, call, keys.Some?, true) == Some(Misconfigured) <==> !call.req.clientGone && (keys.None? || cfg.pinErr)
    ensures Precheck(cfg, call, keys.Some?, true) == Some(MissingHeaders) <==>
      !call.req.clientGone && keys.Some? && !cfg.pinErr && !Presentable(cfg, call, keys)
  {
  }

  /** What a call presents, judged artifact by artifact: the proof's own error first, then the token's, then the receipt's. */
  lemma ArtifactErrors(lib: CallerLib, cfg: Config, call: Call, keys: KeyMap, now: Time)
    requires call.headers.Some?
    ensures var proof := VerifyProofUnrecorded(lib.proof, call.req, now, cfg.popSkew);
      var st := lib.status(call.headers.value.statusToken, keys, now / SECOND);
      var rcpt := Receipt.VerifyReceipt(lib.receipt, call.headers.value.receipt, keys);
      var bound := BoundCaller(lib, cfg, call, keys, now);
      && (proof.Err? ==> bound == Err(proof.error))
      && (proof.Ok? && st.None? ==> bound == Err(StatusInvalid))
      && (proof.Ok? && st.Some? && cfg.requireReceipt && rcpt.Err? ==> bound == Err(ReceiptInvalid))
  {
  }

  /** A leaf event that names an agent by one id or by the same one twice, and by an ANS name. */
  predicate ReadableLeaf(fold: Folding, ev: Option<LeafEvent>) {
    && ev.Some? && ParseAnsName(fold, ev.value.ansName).Some?
    && (ev.value.ansId != "" || ev.value.agentId != "")
    && (ev.value.ansId == "" || ev.value.agentId == "" || ev.value.ansId == ev.value.agentId)
  }

  lemma UnreadableIff(lib: CallerLib, rcpt: Receipt.VerifiedReceipt, st: StatusPayload, stAns: AnsName)
    ensures ReceiptNamesAgent(lib, rcpt, st, stAns) in {None, Some(ReceiptInvalid), Some(BindingFailed)}
    ensures ReceiptNamesAgent(lib, rcpt, st, stAns) == Some(ReceiptInvalid) <==> !ReadableLeaf(lib.fold, lib.leaf(rcpt.eventBytes))
  {
    EmptyIsNoAnsName(lib.fold);
  }

  lemma BindingStepByStep(lib: CallerLib, proof: ProofResult, st: StatusPayload, rcpt: Option<Receipt.VerifiedReceipt>, cfg: Config)
    ensures var r := VerifyBinding(lib, proof, st, rcpt, cfg);
      var unpinned := VerifyBinding(lib, proof, st, rcpt, cfg.(allowed := {})).Ok?;
      var unlisted := VerifyBinding(lib, proof, st, None, cfg.(allowed := {})).Ok?;
      && (r == Err(ExpectedPeerMismatch) <==> unpinned && r.Err?)
      && (r == Err(ReceiptInvalid) <==> unlisted && rcpt.Some? && !ReadableLeaf(lib.fold, lib.leaf(rcpt.value.eventBytes)))
      && (r.Err? ==> r.error in {BindingFailed, ReceiptInvalid, ExpectedPeerMismatch})
  {
    var stAns := ParseAnsName(lib.fold, st.ansName);
    if rcpt.Some? && stAns.Some? {
      UnreadableIff(lib, rcpt.value, st, stAns.value);
    }
  }

  lemma NoNamesNoPins(fold: Folding)
    ensures Canonicals(Pins(fold, [])) == {} && Pins(fold, []) == {}
  {
  }

  /**
   Of artifacts that verify: an agent that only the pins exclude is an unexpected peer; a leaf event that cannot be read
   or names two agents makes the receipt invalid when all else is of one agent; and whatever else is of two agents fails to bind.
   */
  lemma BindingErrors(lib: CallerLib, proof: ProofResult, st: StatusPayload, rcpt: Option<Receipt.VerifiedReceipt>, cfg: Config,
                      names: seq<string>)
    requires cfg.allowed == Canonicals(Pins(lib.fold, names))
    ensures var r := VerifyBinding(lib, proof, st, rcpt, cfg);
      && (r == Err(ExpectedPeerMismatch) <==>
            OneAgent(lib, proof, st, rcpt, {}) && !OneAgent(lib, proof, st, rcpt, Pins(lib.fold, names)))
      && (r == Err(ReceiptInvalid) <==>
            OneAgent(lib, proof, st, None, {}) && rcpt.Some? && !ReadableLeaf(lib.fold, lib.leaf(rcpt.value.eventBytes)))
      && (r.Err? ==> r.error in {BindingFailed, ReceiptInvalid, ExpectedPeerMismatch})
  {
    NoNamesNoPins(lib.fold);
    BindingStepByStep(lib, proof, st, rcpt, cfg);
    BindingIffOneAgent(lib, proof, st, rcpt, cfg, names);
    BindingIffOneAgent(lib, proof, st, rcpt, cfg.(allowed := {}), []);
    BindingIffOneAgent(lib, proof, st, None, cfg.(allowed := {}), []);
  }

  /** Content is read last: until the caller is bound to one agent the verdict does not depend on it. */
  lemma ContentIsReadLast(lib: CallerLib, cfg: Config, call: Call, keys: Option<KeyMap>, now: Time, content: Option<Bytes>)
    requires Precheck(cfg, call, keys.Some?, true).Some? || BoundCaller(lib, cfg, call, keys.value, now).Err?
    ensures VouchedByCaller(lib, cfg, call.(req := call.req.(content := content)), keys, now)
         == VouchedByCaller(lib, cfg, call, keys, now)
    ensures VouchedByCaller(lib, cfg, call, keys, now).Err?
  {
    if Precheck(cfg, call, keys.Some?, true).None? {
      BoundIgnoresContent(lib, cfg, call, keys.value, now, content);
    }
  }

  lemma ProofIgnoresContent(lib: Proof.Lib, req: Request, now: Time, skew: Time, content: Option<Bytes>)
    ensures VerifyProofUnrecorded(lib, req.(content := content), now, skew) == VerifyProofUnrecorded(lib, req, now, skew)
  {
  }

  lemma BoundIgnoresContent(lib: CallerLib, cfg: Config, call: Call, keys: KeyMap, now: Time, content: Option<Bytes>)
    requires call.headers.Some?
    ensures BoundCaller(lib, cfg, call.(req := call.req.(content := content)), keys, now) == BoundCaller(lib, cfg, call, keys, now)
  {
    ProofIgnoresContent(lib.proof, call.req, now, cfg.popSkew, content);
  }
}
