/** pop/verify.go: verification of one possession proof, up to and including the replay commit. */
module Proof {
  import opened Prelude
  import opened ReplayCache
  import opened Text

  const MAX_PROOF_SIZE := 8192
  const MAX_JTI_SIZE := 128
  const DEFAULT_POP_SKEW: Time := 120 * SECOND
  const REPLAY_GRACE: Time := 5 * SECOND
  const PROFILE_REVISION := "1"

  datatype ErrorType =
    | MalformedProof | UnsupportedAlg | UnsupportedProfile | HttpBindingMismatch | ProofStale | Replay
    | ReplayCacheFull | SignatureInvalid | CertInvalid | KeyMismatch | TokenBindingMismatch
    | ContentBindingMismatch | ContentUnreadable | BindingFailed | StatusInvalid | ReceiptInvalid
    | MissingHeaders | Misconfigured | ClientGone | ExpectedPeerMismatch

  datatype Cert = Cert(raw: Bytes, key: Bytes, notBefore: Time, notAfter: Time, uriSans: seq<string>)

  /** The strictly decoded header, with the verdicts of the certificate and key libraries on it. */
  datatype Header = Header(
    typ: string, alg: string, hasJwk: bool, x5c: seq<Bytes>, leaf: Result<Cert, ErrorType>, jwkMatch: Result<(), ErrorType>)

  /** contentDigest is None when the claim is missing or is not a 32-byte digest; profile is its raw JSON. */
  datatype Payload = Payload(
    htm: string, htu: string, iat: int, jti: string, ath: string, profile: string, contentDigest: Option<Digest>)

  datatype Decoded = Decoded(threeParts: bool, header: Option<Header>, signatureVerifies: bool, payload: Option<Payload>)

  /** The libraries the verifier calls. */
  datatype Lib = Lib(
    decode: string -> Decoded,
    normalizeHtu: string -> Option<string>,
    accessTokenHash: string -> string,
    sha: HashFn,
    thumbprint: Bytes -> string,
    jtiKey: string -> string)

  datatype Request = Request(
    proofJws: string, httpMethod: string, url: string, token: Option<string>,
    content: Option<Bytes>, clientGone: bool)

  datatype ProofResult = ProofResult(
    cert: Cert, key: Bytes, fingerprint: Digest, jkt: string, contentDigest: Digest, jti: string, htu: string,
    issuedAt: Time, replayExp: Time)

  predicate IsPositiveJsonInteger(raw: string) {
    && raw != "" && '1' <= raw[0] <= '9'
    && forall i | 0 < i < |raw| :: '0' <= raw[i] <= '9'
  }

  /** Absent means revision 1. */
  function CheckProfile(raw: string): Option<ErrorType> {
    if raw == "" then None
    else if !IsPositiveJsonInteger(raw) then Some(MalformedProof)
    else if raw != PROFILE_REVISION then Some(UnsupportedProfile)
    else None
  }

  /** A numeral that does not start with zero is the rendering of its value. */
  lemma {:induction false} RenderedFromNumeral(raw: string)
    requires IsNumeral(raw) && raw[0] != '0'
    ensures NumeralValue(raw) > 0 && Decimal(NumeralValue(raw)) == raw
  {
    var n := |raw| - 1;
    if n > 0 {
      RenderedFromNumeral(raw[..n]);
      assert NumeralValue(raw) / 10 == NumeralValue(raw[..n]);
      assert raw == raw[..n] + [raw[n]];
    }
  }

  lemma {:induction false} RenderedStartsNonzero(n: nat)
    requires n > 0
    ensures Decimal(n)[0] != '0'
  {
    if n >= 10 {
      RenderedStartsNonzero(n / 10);
    }
  }

  /** A positive JSON integer is the decimal rendering of a positive number. */
  lemma PositiveJsonIntegerIff(raw: string)
    ensures IsPositiveJsonInteger(raw) <==> exists n: nat :: n > 0 && raw == Decimal(n)
  {
    if IsPositiveJsonInteger(raw) {
      RenderedFromNumeral(raw);
    }
    forall n: nat | n > 0 && raw == Decimal(n) ensures IsPositiveJsonInteger(raw) {
      RenderedStartsNonzero(n);
    }
  }

  /** Only an absent revision and revision 1 pass; another positive integer is unsupported, anything else malformed. */
  lemma ProfilePassesIff(raw: string)
    ensures CheckProfile(raw).None? <==> raw == "" || raw == "1"
    ensures CheckProfile(raw) == Some(UnsupportedProfile) <==> raw != "1" && exists n: nat :: n > 0 && raw == Decimal(n)
    ensures CheckProfile(raw) == Some(MalformedProof) <==> raw != "" && forall n: nat :: n > 0 ==> raw != Decimal(n)
  {
    PositiveJsonIntegerIff(raw);
    assert IsPositiveJsonInteger("1");
    if raw == "" {
      forall n: nat | n > 0 ensures raw != Decimal(n) {
        assert IsNumeral(Decimal(n));
      }
    }
  }

  function AcceptHeader(h: Header): Option<ErrorType> {
    if h.typ != "dpop+jwt" || h.alg != "ES256" then Some(UnsupportedAlg)
    else if !h.hasJwk then Some(MalformedProof)
    else if |h.x5c| != 1 then Some(CertInvalid)
    else None
  }

  function CheckHttpBinding(lib: Lib, p: Payload, httpMethod: string, url: string): Option<ErrorType> {
    if p.htm != httpMethod then Some(HttpBindingMismatch)
    else if lib.normalizeHtu(url).None? then Some(MalformedProof)
    else if p.htu != lib.normalizeHtu(url).value then Some(HttpBindingMismatch)
    else None
  }

  /** ath if and only if a token was presented, and then the hash of that token. */
  function CheckTokenBinding(lib: Lib, ath: string, token: Option<string>): (bad: Option<ErrorType>)
    ensures lib.accessTokenHash(token.GetOr("")) != "" ==>
      (bad.None? <==> ath == if token.Some? then lib.accessTokenHash(token.value) else "")
  {
    match token
    case None => if ath != "" then Some(TokenBindingMismatch) else None
    case Some(t) =>
      if ath == "" then Some(TokenBindingMismatch)
      else if ath != lib.accessTokenHash(t) then Some(TokenBindingMismatch)
      else None
  }

  /** The issue instant, if it lies within the skew of now. */
  function CheckFreshness(iat: int, now: Time, skew: Time): Result<Time, ErrorType> {
    if iat == 0 then Err(MalformedProof)
    else
      var issued := iat * SECOND;
      var delta := now - issued;
      if delta > skew then Err(ProofStale)
      else if delta < -skew then Err(ProofStale)
      else Ok(issued)
  }

  function EffectiveSkew(skew: Time): Time {
    if skew <= 0 then DEFAULT_POP_SKEW else skew
  }

  /** Every proof check except the content comparison and the replay commit, in the source's order. */
  function VerifyProofUnrecorded(lib: Lib, req: Request, now: Time, skew: Time): Result<ProofResult, ErrorType> {
    var d := lib.decode(req.proofJws);
    if req.clientGone then Err(ClientGone)
    else if |req.proofJws| > MAX_PROOF_SIZE then Err(MalformedProof)
    else if !d.threeParts || d.header.None? then Err(MalformedProof)
    else
      var h := d.header.value;
      if AcceptHeader(h).Some? then Err(AcceptHeader(h).value)
      else if h.leaf.Err? then Err(h.leaf.error)
      else if now < h.leaf.value.notBefore || now > h.leaf.value.notAfter then Err(CertInvalid)
      else if h.jwkMatch.Err? then Err(h.jwkMatch.error)
      else if !d.signatureVerifies then Err(SignatureInvalid)
      else if d.payload.None? then Err(MalformedProof)
      else VerifyPayload(lib, req, h.leaf.value, d.payload.value, now, EffectiveSkew(skew))
  }

  function VerifyPayload(lib: Lib, req: Request, cert: Cert, p: Payload, now: Time, skew: Time): Result<ProofResult, ErrorType> {
    if CheckProfile(p.profile).Some? then Err(CheckProfile(p.profile).value)
    else if p.contentDigest.None? then Err(MalformedProof)
    else if CheckHttpBinding(lib, p, req.httpMethod, req.url).Some? then Err(CheckHttpBinding(lib, p, req.httpMethod, req.url).value)
    else if CheckTokenBinding(lib, p.ath, req.token).Some? then Err(CheckTokenBinding(lib, p.ath, req.token).value)
    else
      var issued := CheckFreshness(p.iat, now, skew);
      if issued.Err? then Err(issued.error)
      else if p.jti == "" || |p.jti| > MAX_JTI_SIZE then Err(MalformedProof)
      else Ok(ProofResult(cert, cert.key, lib.sha(cert.raw), lib.thumbprint(cert.key), p.contentDigest.value, p.jti, p.htu,
                          issued.value, issued.value + skew + REPLAY_GRACE))
  }

  /** req.content is None when the content could not be read; no content at all is empty content. */
  function CheckContent(lib: Lib, r: ProofResult, content: Option<Bytes>): Option<ErrorType> {
    if content.None? then Some(ContentUnreadable)
    else if lib.sha(content.value) != r.contentDigest then Some(ContentBindingMismatch)
    else None
  }

  /** The verdict of VerifyProof before its replay commit. */
  function VouchedByProof(lib: Lib, req: Request, now: Time, skew: Time): Result<(ProofResult, ProofResult), ErrorType> {
    var r := VerifyProofUnrecorded(lib, req, now, skew);
    if r.Err? then Err(r.error)
    else if CheckContent(lib, r.value, req.content).Some? then Err(CheckContent(lib, r.value, req.content).value)
    else Ok((r.value, r.value))
  }

  function Verdict(answer: Answer): Option<ErrorType> {
    match answer
    case Seen => Some(Replay)
    case Full => Some(ReplayCacheFull)
    case Recorded => None
  }

  /** The replay commit on values: what it does to the cache's index, and the cache's answer. */
  function Committed(lib: Lib, index: Index, maxEntries: nat, r: ProofResult, now: Time): (Index, Answer) {
    Check(index, maxEntries, lib.jtiKey(r.jti), r.replayExp, now)
  }

  method CommitReplay(lib: Lib, r: ProofResult, replay: MemoryReplayCache, now: Time) returns (bad: Option<ErrorType>)
    requires replay.Valid()
    modifies replay
    ensures replay.Valid()
    ensures replay.index == Committed(lib, old(replay.index), replay.maxEntries, r, now).0
    ensures bad == Verdict(Committed(lib, old(replay.index), replay.maxEntries, r, now).1)
  {
    var answer := replay.CheckAndStore(lib.jtiKey(r.jti), r.replayExp, now);
    return Verdict(answer);
  }

  /** Whatever vouched for the proof, the replay commit comes last: a proof that fails a check leaves the cache alone. */
  function Settled<T>(lib: Lib, index: Index, maxEntries: nat, vouched: Result<(ProofResult, T), ErrorType>, commitAt: Time)
    : (Index, Result<T, ErrorType>)
  {
    if vouched.Err? then (index, Err(vouched.error))
    else
      var after := Committed(lib, index, maxEntries, vouched.value.0, commitAt);
      var bad := Verdict(after.1);
      (after.0, if bad.Some? then Err(bad.value) else Ok(vouched.value.1))
  }

  method VerifyProof(lib: Lib, req: Request, now: Time, skew: Time, replay: MemoryReplayCache?, commitAt: Time)
    returns (res: Result<ProofResult, ErrorType>)
    requires replay != null ==> replay.Valid()
    modifies replay
    ensures replay == null ==> res == Err(Misconfigured)
    ensures replay != null ==> replay.Valid()
    ensures replay != null ==>
      (replay.index, res) == Settled(lib, old(replay.index), replay.maxEntries, VouchedByProof(lib, req, now, skew), commitAt)
  {
    if replay == null {
      return Err(Misconfigured);
    }
    var r := VerifyProofUnrecorded(lib, req, now, skew);
    if r.Err? {
      return r;
    }
    var bad := CheckContent(lib, r.value, req.content);
    if bad.Some? {
      return Err(bad.value);
    }
    bad := CommitReplay(lib, r.value, replay, commitAt);
    if bad.Some? {
      return Err(bad.value);
    }
    return r;
  }

  /** A header and a key that can vouch for a signature at an instant. */
  predicate HeaderVouches(h: Header, now: Time) {
    && h.typ == "dpop+jwt" && h.alg == "ES256" && h.hasJwk && |h.x5c| == 1
    && h.leaf.Ok? && h.leaf.value.notBefore <= now <= h.leaf.value.notAfter
    && h.jwkMatch.Ok?
  }

  /** Claims that bind a proof to a request at an instant (section 4.3 of RFC 9449, and the profile's own). */
  predicate ClaimsBind(lib: Lib, p: Payload, req: Request, now: Time, skew: Time) {
    && p.htm == req.httpMethod && lib.normalizeHtu(req.url) == Some(p.htu)
    && (if req.token.Some? then p.ath == lib.accessTokenHash(req.token.value) && p.ath != "" else p.ath == "")
    && p.iat != 0 && now - skew <= p.iat * SECOND <= now + skew
    && 0 < |p.jti| <= MAX_JTI_SIZE
    && (p.profile == "" || p.profile == PROFILE_REVISION) && p.contentDigest.Some?
  }

  lemma ClaimsBindIff(lib: Lib, req: Request, cert: Cert, p: Payload, now: Time, skew: Time)
    ensures VerifyPayload(lib, req, cert, p, now, skew).Ok? <==> ClaimsBind(lib, p, req, now, skew)
  {
    ProfilePassesIff(p.profile);
  }

  /**
   A proof verifies exactly when it is small and well-formed, its header and key vouch, the signature holds
   and the claims bind it to the request.
   */
  lemma VerifiedIff(lib: Lib, req: Request, now: Time, skew: Time)
    ensures VerifyProofUnrecorded(lib, req, now, skew).Ok? <==>
      var d := lib.decode(req.proofJws);
      && !req.clientGone && |req.proofJws| <= MAX_PROOF_SIZE
      && d.threeParts && d.header.Some? && HeaderVouches(d.header.value, now)
      && d.signatureVerifies && d.payload.Some? && ClaimsBind(lib, d.payload.value, req, now, EffectiveSkew(skew))
  {
    var d := lib.decode(req.proofJws);
    if d.header.Some? && d.header.value.leaf.Ok? && d.payload.Some? {
      ClaimsBindIff(lib, req, d.header.value.leaf.value, d.payload.value, now, EffectiveSkew(skew));
    }
  }

  // ----- Which rule a rejected proof breaks -----

  /** Up to the signature: the client, the size and form, the algorithm, the header's key and certificate. */
  lemma HeaderRejections(lib: Lib, req: Request, now: Time, skew: Time)
    ensures var d, r := lib.decode(req.proofJws), VerifyProofUnrecorded(lib, req, now, skew);
      && (req.clientGone ==> r == Err(ClientGone))
      && (!req.clientGone && (|req.proofJws| > MAX_PROOF_SIZE || !d.threeParts || d.header.None?) ==> r == Err(MalformedProof))
      && (!req.clientGone && |req.proofJws| <= MAX_PROOF_SIZE && d.threeParts && d.header.Some? ==>
            var h := d.header.value;
            var algorithm := h.typ == "dpop+jwt" && h.alg == "ES256";
            var certified := algorithm && h.hasJwk && |h.x5c| == 1 && h.leaf.Ok?;
            var valid := certified && h.leaf.value.notBefore <= now <= h.leaf.value.notAfter;
            && (!algorithm ==> r == Err(UnsupportedAlg))
            && (algorithm && !h.hasJwk ==> r == Err(MalformedProof))
            && (algorithm && h.hasJwk && |h.x5c| != 1 ==> r == Err(CertInvalid))
            && (algorithm && h.hasJwk && |h.x5c| == 1 && h.leaf.Err? ==> r == Err(h.leaf.error))
            && (certified && !valid ==> r == Err(CertInvalid))
            && (valid && h.jwkMatch.Err? ==> r == Err(h.jwkMatch.error))
            && (HeaderVouches(h, now) && !d.signatureVerifies ==> r == Err(SignatureInvalid))
            && (HeaderVouches(h, now) && d.signatureVerifies && d.payload.None? ==> r == Err(MalformedProof)))
  {
  }

  /** The claims, of a proof whose signature holds: the profile and digest, the request, the token, the time and the identifier. */
  lemma ClaimRejections(lib: Lib, req: Request, cert: Cert, p: Payload, now: Time, skew: Time)
    ensures var r := VerifyPayload(lib, req, cert, p, now, skew);
      var shaped := p.profile in {"", "1"} && p.contentDigest.Some?;
      var here := shaped && p.htm == req.httpMethod && lib.normalizeHtu(req.url) == Some(p.htu);
      var bound := here && CheckTokenBinding(lib, p.ath, req.token).None?;
      var timely := bound && p.iat != 0 && now - skew <= p.iat * SECOND <= now + skew;
      && (CheckProfile(p.profile).Some? ==> r == Err(CheckProfile(p.profile).value))
      && (p.profile in {"", "1"} && p.contentDigest.None? ==> r == Err(MalformedProof))
      && (shaped && p.htm == req.httpMethod && lib.normalizeHtu(req.url).None? ==> r == Err(MalformedProof))
      && (shaped && !here && (p.htm != req.httpMethod || lib.normalizeHtu(req.url).Some?) ==> r == Err(HttpBindingMismatch))
      && (here && !bound ==> r == Err(TokenBindingMismatch))
      && (bound && p.iat == 0 ==> r == Err(MalformedProof))
      && (bound && p.iat != 0 && !timely ==> r == Err(ProofStale))
      && (timely && !(0 < |p.jti| <= MAX_JTI_SIZE) ==> r == Err(MalformedProof))
  {
    ProfilePassesIff(p.profile);
  }

  /** A proof that gets as far as its claims is judged by them. */
  lemma ClaimsDecide(lib: Lib, req: Request, now: Time, skew: Time)
    requires var d := lib.decode(req.proofJws);
      && !req.clientGone && |req.proofJws| <= MAX_PROOF_SIZE && d.threeParts && d.header.Some?
      && HeaderVouches(d.header.value, now) && d.signatureVerifies && d.payload.Some?
    ensures var d := lib.decode(req.proofJws);
      VerifyProofUnrecorded(lib, req, now, skew)
      == VerifyPayload(lib, req, d.header.value.leaf.value, d.payload.value, now, if skew > 0 then skew else 120 * SECOND)
  {
  }

  /** The result repeats the proof's certificate, digest and identifier, and nothing of the request. */
  lemma ResultIsTheProofs(lib: Lib, req: Request, now: Time, skew: Time)
    requires VerifyProofUnrecorded(lib, req, now, skew).Ok?
    ensures var r, d := VerifyProofUnrecorded(lib, req, now, skew).value, lib.decode(req.proofJws);
      var cert, p := d.header.value.leaf.value, d.payload.value;
      && r.cert == cert && r.key == cert.key && r.fingerprint == lib.sha(cert.raw) && r.jkt == lib.thumbprint(cert.key)
      && p.contentDigest == Some(r.contentDigest) && p.jti == r.jti && p.htu == r.htu && p.iat * SECOND == r.issuedAt
  {
  }

  /** What passing the freshness check at an instant says about issue and retention. */
  lemma FreshnessWindow(lib: Lib, req: Request, now: Time, skew: Time)
    requires VerifyProofUnrecorded(lib, req, now, skew).Ok?
    ensures EffectiveSkew(skew) == if skew > 0 then skew else 120 * SECOND
    ensures var r, w := VerifyProofUnrecorded(lib, req, now, skew).value, EffectiveSkew(skew);
      && now - w <= r.issuedAt <= now + w
      && r.replayExp == r.issuedAt + w + REPLAY_GRACE
      && now + REPLAY_GRACE <= r.replayExp <= now + 2 * w + REPLAY_GRACE
  {
  }

  /** Whatever the skews, a proof yields one result but for its retention, however and whenever it is presented. */
  lemma ProofDeterminesResult(lib: Lib, req1: Request, now1: Time, skew1: Time, req2: Request, now2: Time, skew2: Time)
    requires req1.proofJws == req2.proofJws
    requires VerifyProofUnrecorded(lib, req1, now1, skew1).Ok? && VerifyProofUnrecorded(lib, req2, now2, skew2).Ok?
    ensures var r1, r2 := VerifyProofUnrecorded(lib, req1, now1, skew1).value, VerifyProofUnrecorded(lib, req2, now2, skew2).value;
      r1.(replayExp := r2.replayExp) == r2 && r1.replayExp - EffectiveSkew(skew1) == r2.replayExp - EffectiveSkew(skew2)
  {
    ResultIsTheProofs(lib, req1, now1, skew1);
    ResultIsTheProofs(lib, req2, now2, skew2);
    FreshnessWindow(lib, req1, now1, skew1);
    FreshnessWindow(lib, req2, now2, skew2);
  }

  /** The entry point vouches for a proof exactly when it verifies and the content presented is the content it was made over. */
  lemma VouchedByProofIff(lib: Lib, req: Request, now: Time, skew: Time, r: ProofResult)
    ensures VouchedByProof(lib, req, now, skew) == Ok((r, r)) <==>
      (&& VerifyProofUnrecorded(lib, req, now, skew) == Ok(r)
       && req.content.Some? && lib.sha(req.content.value) == r.contentDigest)
    ensures VouchedByProof(lib, req, now, skew).Ok? ==>
      VouchedByProof(lib, req, now, skew).value.0 == VouchedByProof(lib, req, now, skew).value.1
  {
  }

  /**
   The content is compared last: a proof that does not verify is rejected for its own reason, and of one that
   does, content that cannot be read and content that differs are told apart.
   */
  lemma ContentIsComparedLast(lib: Lib, req: Request, now: Time, skew: Time)
    ensures var r, v := VerifyProofUnrecorded(lib, req, now, skew), VouchedByProof(lib, req, now, skew);
      && (r.Err? ==> v == Err(r.error))
      && (r.Ok? && req.content.None? ==> v == Err(ContentUnreadable))
      && (r.Ok? && req.content.Some? && lib.sha(req.content.value) != r.value.contentDigest ==> v == Err(ContentBindingMismatch))
  {
  }

  /** An earlier record of the key that has not expired. */
  predicate LiveAt(index: Index, key: string, now: Time) {
    key in index && index[key] > now
  }

  lemma LiveIsHeld(index: Index, key: string, now: Time)
    ensures LiveAt(index, key, now) <==> key in Unpassed(index, now) && Unpassed(index, now)[key] > now
  {
    if key in index {
      PassedMeansExpired(index[key], now);
    }
  }

  lemma OthersOf(index: Index, key: string, now: Time)
    ensures |Unpassed(index, now) - {key}| == |OthersAt(index, key, now)|
  {
    var others := OthersAt(index, key, now);
    var left := Unpassed(index, now) - {key};
    forall k ensures k in left <==> k in others {
      if k in index {
        PassedMeansExpired(index[k], now);
      }
    }
    assert left.Keys == others;
  }

  /** The other entries whose generation has not passed. */
  ghost function OthersAt(index: Index, key: string, now: Time): set<string> {
    set k | k in index && k != key && EndOf(index[k]) > now
  }

  /** What the cache answers: seen of a live record, full when the other entries leave no room, and otherwise recorded. */
  lemma AnswerIff(index: Index, maxEntries: nat, key: string, exp: Time, now: Time, answer: Answer)
    requires answer == Check(index, maxEntries, key, exp, now).1
    ensures answer == Seen <==> LiveAt(index, key, now)
    ensures answer == Full <==> !LiveAt(index, key, now) && |OthersAt(index, key, now)| >= maxEntries
    ensures answer == Recorded <==> !LiveAt(index, key, now) && |OthersAt(index, key, now)| < maxEntries
  {
    OthersOf(index, key, now);
    LiveIsHeld(index, key, now);
  }

  /** The commit of a vouched proof: a live record is a replay, no room is an error of its own, and otherwise it is accepted. */
  lemma SettledIff<T>(lib: Lib, index: Index, maxEntries: nat, r: ProofResult, t: T, now: Time)
    ensures var key, res := lib.jtiKey(r.jti), Settled(lib, index, maxEntries, Ok((r, t)), now).1;
      && (res == Err(Replay) <==> LiveAt(index, key, now))
      && (res == Err(ReplayCacheFull) <==> !LiveAt(index, key, now) && |OthersAt(index, key, now)| >= maxEntries)
      && (res == Ok(t) <==> !LiveAt(index, key, now) && |OthersAt(index, key, now)| < maxEntries)
  {
    var answer := Committed(lib, index, maxEntries, r, now).1;
    AnswerIff(index, maxEntries, lib.jtiKey(r.jti), r.replayExp, now, answer);
    SettledByAnswer(lib, index, maxEntries, r, t, now, answer);
  }

  lemma SettledByAnswer<T>(lib: Lib, index: Index, maxEntries: nat, r: ProofResult, t: T, now: Time, answer: Answer)
    requires answer == Committed(lib, index, maxEntries, r, now).1
    ensures Settled(lib, index, maxEntries, Ok((r, t)), now).1
         == match answer
            case Seen => Err(Replay)
            case Full => Err(ReplayCacheFull)
            case Recorded => Ok(t)
  {
  }

  // ----- One good proof -----

  const ZERO: Digest := seq(32, _ => 0)

  /** Libraries under which every input decodes to one good proof, issued at iat under a certificate valid through notAfter. */
  function OneProofLib(iat: int, notBefore: Time, notAfter: Time): Lib {
    Lib(_ => Decoded(true, Some(Header("dpop+jwt", "ES256", true, [[]], Ok(Cert([], [], notBefore, notAfter, [])), Ok(()))), true,
                     Some(Payload("GET", "u", iat, "j", "", "", Some(ZERO)))),
        _ => Some("u"), _ => "h", _ => ZERO, _ => "t", j => j)
  }

  /** A request for that proof. */
  function OneRequest(): Request {
    Request("p", "GET", "u", None, Some([]), false)
  }

  /** That proof verifies at every instant of its window and its certificate's validity. */
  lemma OneProofVerifies(iat: int, notBefore: Time, notAfter: Time, now: Time, skew: Time)
    requires iat != 0 && notBefore <= now <= notAfter
    requires iat * SECOND - EffectiveSkew(skew) <= now <= iat * SECOND + EffectiveSkew(skew)
    ensures var r := VerifyProofUnrecorded(OneProofLib(iat, notBefore, notAfter), OneRequest(), now, skew);
      r.Ok? && r.value.jti == "j" && r.value.replayExp == iat * SECOND + EffectiveSkew(skew) + REPLAY_GRACE
  {
    var lib := OneProofLib(iat, notBefore, notAfter);
    VerifiedIff(lib, OneRequest(), now, skew);
    ResultIsTheProofs(lib, OneRequest(), now, skew);
    FreshnessWindow(lib, OneRequest(), now, skew);
  }
}
