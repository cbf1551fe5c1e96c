/** verify/scitt/checkpoint.go: a signed tree head, accepted under the trusted keys. */
module Checkpoint {
  import opened Prelude
  import opened RootKeys
  import opened SignedNote
  import opened NoteText
  import opened Text
  import Base64
  import Receipt

  const MAX_NOTE_SIZE := 65536

  /** The ASCII of eyJhbGciOi, how a compact JWS whose header starts with alg begins. */
  const JWS_HEADER_MARKER: Bytes := [0x65, 0x79, 0x4A, 0x68, 0x62, 0x47, 0x63, 0x69, 0x4F, 0x69]

  datatype CheckpointError =
    | Oversized | Structure(cause: NoteError)
    | SignatureInvalid(kid: Kid) | UnknownKeyId(kid: Kid) | IssuerMismatch(kid: Kid)
    | SizeMismatch | RootMismatch

  datatype Checkpoint = Checkpoint(head: Head, keyId: Kid)

  /** ECDSA over the hash of a body: DER signatures, and the fixed-width halves of a 64-byte one. */
  datatype Lib = Lib(der: (PublicKey, string, Bytes) -> bool, raw: (PublicKey, string, Bytes, Bytes) -> bool)

  predicate Verifies(lib: Lib, key: PublicKey, body: string, sig: Bytes) {
    lib.der(key, body, sig) || (|sig| == 64 && lib.raw(key, body, sig[..32], sig[32..]))
  }

  // ----- The signature lines -----

  datatype LineKind = Unknown | Envelope | Bad | Misnamed | Good

  function KindOf(lib: Lib, origin: string, body: string, keys: KeyMap, s: Signature): LineKind {
    if s.kid !in keys then Unknown
    else if !Verifies(lib, keys[s.kid].key, body, s.sig) then
      if JWS_HEADER_MARKER <= s.sig then Envelope else Bad
    else if s.name != keys[s.kid].name || origin != keys[s.kid].name then Misnamed
    else Good
  }

  function Kinds(lib: Lib, origin: string, body: string, keys: KeyMap, sigs: seq<Signature>): (kinds: seq<LineKind>)
    ensures |kinds| == |sigs|
    ensures forall i | 0 <= i < |sigs| :: kinds[i] == KindOf(lib, origin, body, keys, sigs[i])
  {
    seq(|sigs|, i requires 0 <= i < |sigs| => KindOf(lib, origin, body, keys, sigs[i]))
  }

  /** The first line of one of these kinds, or the number of lines. */
  function FirstOf(kinds: seq<LineKind>, wanted: set<LineKind>): (i: nat)
    ensures i <= |kinds| && forall j | 0 <= j < i :: kinds[j] !in wanted
    ensures i < |kinds| ==> kinds[i] in wanted
  {
    if kinds == [] then 0 else if kinds[0] in wanted then 0 else 1 + FirstOf(kinds[1..], wanted)
  }

  /**
   The verdict over all lines: the first offending line rejects, wherever it stands; otherwise the first
   good line names the key; otherwise the first unknown key id is reported. No lines at all pass, without a key.
   */
  function SignaturesVerdict(kinds: seq<LineKind>, sigs: seq<Signature>, keys: KeyMap): Result<Option<Kid>, CheckpointError>
    requires |kinds| == |sigs| && forall i | 0 <= i < |sigs| :: kinds[i] == Unknown || sigs[i].kid in keys
  {
    var bad, good, unknown := FirstOf(kinds, {Bad, Misnamed}), FirstOf(kinds, {Good}), FirstOf(kinds, {Unknown});
    if bad < |sigs| then
      Err(if kinds[bad] == Bad then SignatureInvalid(sigs[bad].kid) else IssuerMismatch(keys[sigs[bad].kid].kid))
    else if good < |sigs| then Ok(Some(keys[sigs[good].kid].kid))
    else if unknown < |sigs| then Err(UnknownKeyId(sigs[unknown].kid))
    else if sigs != [] then Err(SignatureInvalid(sigs[0].kid))
    else Ok(None)
  }

  function SignatureOutcome(lib: Lib, origin: string, body: string, keys: KeyMap, sigs: seq<Signature>)
    : Result<Option<Kid>, CheckpointError>
  {
    SignaturesVerdict(Kinds(lib, origin, body, keys, sigs), sigs, keys)
  }

  /** A position the loop keeps is the first of its kind so far. */
  ghost predicate IsFirst(kinds: seq<LineKind>, n: nat, wanted: set<LineKind>, at: Option<nat>) {
    && n <= |kinds|
    && match at
       case None => forall j | 0 <= j < n :: kinds[j] !in wanted
       case Some(i) => i < n && kinds[i] in wanted && forall j | 0 <= j < i :: kinds[j] !in wanted
  }

  lemma IsFirstOf(kinds: seq<LineKind>, wanted: set<LineKind>, at: Option<nat>)
    requires IsFirst(kinds, |kinds|, wanted, at)
    ensures FirstOf(kinds, wanted) == at.GetOr(|kinds|)
  {
  }

  lemma OffenderIsFirst(kinds: seq<LineKind>, wanted: set<LineKind>, i: nat)
    requires IsFirst(kinds, i, wanted, None) && i < |kinds| && kinds[i] in wanted
    ensures FirstOf(kinds, wanted) == i
  {
  }

  lemma WithoutTheRestFirstIsEnvelope(kinds: seq<LineKind>)
    requires forall j | 0 <= j < |kinds| :: kinds[j] !in {Bad, Misnamed} && kinds[j] !in {Good} && kinds[j] !in {Unknown}
    ensures FirstOf(kinds, {Envelope}) == 0
  {
    if kinds != [] {
      assert kinds[0] !in {Bad, Misnamed} && kinds[0] !in {Good} && kinds[0] !in {Unknown};
      assert kinds[0] == Envelope;
    }
  }

  method VerifyCheckpointSignatures(lib: Lib, origin: string, body: string, sigs: seq<Signature>, keys: KeyMap)
    returns (res: Result<Option<Kid>, CheckpointError>)
    ensures res == SignatureOutcome(lib, origin, body, keys, sigs)
  {
    ghost var kinds := Kinds(lib, origin, body, keys, sigs);
    var good: Option<nat>, unknown: Option<nat>, envelope: Option<nat> := None, None, None;
    for i := 0 to |sigs|
      invariant IsFirst(kinds, i, {Bad, Misnamed}, None)
      invariant IsFirst(kinds, i, {Good}, good)
      invariant IsFirst(kinds, i, {Unknown}, unknown)
      invariant IsFirst(kinds, i, {Envelope}, envelope)
    {
      var s := sigs[i];
      assert kinds[i] == KindOf(lib, origin, body, keys, s);
      if s.kid !in keys {
        if unknown.None? {
          unknown := Some(i);
        }
      } else if !Verifies(lib, keys[s.kid].key, body, s.sig) {
        if !(JWS_HEADER_MARKER <= s.sig) {
          OffenderIsFirst(kinds, {Bad, Misnamed}, i);
          return Err(SignatureInvalid(s.kid));
        }
        if envelope.None? {
          envelope := Some(i);
        }
      } else if s.name != keys[s.kid].name || origin != keys[s.kid].name {
        OffenderIsFirst(kinds, {Bad, Misnamed}, i);
        return Err(IssuerMismatch(keys[s.kid].kid));
      } else if good.None? {
        good := Some(i);
      }
    }
    IsFirstOf(kinds, {Bad, Misnamed}, None);
    IsFirstOf(kinds, {Good}, good);
    IsFirstOf(kinds, {Unknown}, unknown);
    IsFirstOf(kinds, {Envelope}, envelope);
    if good.Some? {
      return Ok(Some(keys[sigs[good.value].kid].kid));
    }
    if unknown.Some? {
      return Err(UnknownKeyId(sigs[unknown.value].kid));
    }
    WithoutTheRestFirstIsEnvelope(kinds);
    if envelope.Some? {
      return Err(SignatureInvalid(sigs[envelope.value].kid));
    }
    return Ok(None);
  }

  // ----- Acceptance does not depend on line order -----

  /** A trusted key verifies this body: in DER, or as the two halves of a 64-byte signature, r before s. */
  predicate VerifiesUnderTrustedKey(lib: Lib, body: string, keys: KeyMap, s: Signature) {
    && s.kid in keys
    && (lib.der(keys[s.kid].key, body, s.sig) || (|s.sig| == 64 && lib.raw(keys[s.kid].key, body, s.sig[..32], s.sig[32..])))
  }

  /** A known-key line that verifies must bind its signer and the origin; one that does not must be an envelope. */
  predicate Tolerated(lib: Lib, origin: string, body: string, keys: KeyMap, s: Signature) {
    s.kid in keys ==>
      if VerifiesUnderTrustedKey(lib, body, keys, s) then s.name == keys[s.kid].name == origin else JWS_HEADER_MARKER <= s.sig
  }

  /** What the documentation promises, on the set of lines. */
  ghost predicate Acceptable(lib: Lib, origin: string, body: string, keys: KeyMap, sigs: seq<Signature>) {
    && (forall s | s in sigs :: Tolerated(lib, origin, body, keys, s))
    && (exists s | s in sigs :: VerifiesUnderTrustedKey(lib, body, keys, s))
  }

  lemma KindsMean(lib: Lib, origin: string, body: string, keys: KeyMap, s: Signature)
    ensures KindOf(lib, origin, body, keys, s) !in {Bad, Misnamed} <==> Tolerated(lib, origin, body, keys, s)
    ensures KindOf(lib, origin, body, keys, s) == Good
       <==> Tolerated(lib, origin, body, keys, s) && VerifiesUnderTrustedKey(lib, body, keys, s)
  {
  }

  /** The lines are accepted exactly when each is tolerated and one verifies; an empty list passes too. */
  lemma AcceptsIff(lib: Lib, origin: string, body: string, keys: KeyMap, sigs: seq<Signature>)
    ensures SignatureOutcome(lib, origin, body, keys, sigs).Ok? <==> sigs == [] || Acceptable(lib, origin, body, keys, sigs)
  {
    var kinds := Kinds(lib, origin, body, keys, sigs);
    forall i | 0 <= i < |sigs|
      ensures kinds[i] !in {Bad, Misnamed} <==> Tolerated(lib, origin, body, keys, sigs[i])
      ensures kinds[i] == Good <==> Tolerated(lib, origin, body, keys, sigs[i]) && VerifiesUnderTrustedKey(lib, body, keys, sigs[i])
    {
      KindsMean(lib, origin, body, keys, sigs[i]);
    }
    var bad, good := FirstOf(kinds, {Bad, Misnamed}), FirstOf(kinds, {Good});
    if bad < |sigs| {
      assert sigs[bad] in sigs;
    } else if good < |sigs| {
      assert sigs[good] in sigs;
    }
  }

  lemma FirstOfIs(kinds: seq<LineKind>, wanted: set<LineKind>, i: nat)
    requires i < |kinds| && kinds[i] in wanted && forall j | 0 <= j < i :: kinds[j] !in wanted
    ensures FirstOf(kinds, wanted) == i
  {
  }

  /** The first line that is not tolerated rejects the note, wherever a good one stands, and says which rule it breaks. */
  lemma OffendingLineRejects(lib: Lib, origin: string, body: string, keys: KeyMap, sigs: seq<Signature>, i: nat)
    requires i < |sigs| && !Tolerated(lib, origin, body, keys, sigs[i])
    requires forall j | 0 <= j < i :: Tolerated(lib, origin, body, keys, sigs[j])
    ensures SignatureOutcome(lib, origin, body, keys, sigs)
         == Err(if VerifiesUnderTrustedKey(lib, body, keys, sigs[i]) then IssuerMismatch(keys[sigs[i].kid].kid)
                else SignatureInvalid(sigs[i].kid))
  {
    var kinds := Kinds(lib, origin, body, keys, sigs);
    forall j | 0 <= j <= i ensures kinds[j] !in {Bad, Misnamed} <==> Tolerated(lib, origin, body, keys, sigs[j]) {
      KindsMean(lib, origin, body, keys, sigs[j]);
    }
    FirstOfIs(kinds, {Bad, Misnamed}, i);
  }

  /** Where every line is tolerated and none verifies, the first unknown key id is reported, or else the first envelope's. */
  lemma NothingVerifies(lib: Lib, origin: string, body: string, keys: KeyMap, sigs: seq<Signature>, i: nat)
    requires forall j | 0 <= j < |sigs| ::
      Tolerated(lib, origin, body, keys, sigs[j]) && !VerifiesUnderTrustedKey(lib, body, keys, sigs[j])
    requires i < |sigs| && (forall j | 0 <= j < i :: sigs[j].kid in keys)
    ensures sigs[i].kid !in keys ==> SignatureOutcome(lib, origin, body, keys, sigs) == Err(UnknownKeyId(sigs[i].kid))
    ensures i == |sigs| - 1 && sigs[i].kid in keys ==> SignatureOutcome(lib, origin, body, keys, sigs) == Err(SignatureInvalid(sigs[0].kid))
  {
    var kinds := Kinds(lib, origin, body, keys, sigs);
    forall j | 0 <= j < |sigs| ensures kinds[j] !in {Bad, Misnamed} && kinds[j] !in {Good} && (kinds[j] == Unknown <==> sigs[j].kid !in keys) {
      KindsMean(lib, origin, body, keys, sigs[j]);
    }
    if sigs[i].kid !in keys {
      FirstOfIs(kinds, {Unknown}, i);
    }
  }

  /** Lines in any order and multiplicity, with any unknown-key lines added or removed, are accepted alike. */
  lemma AcceptanceIgnoresOrderAndUnknownKeys(lib: Lib, origin: string, body: string, keys: KeyMap,
                                             sigs: seq<Signature>, others: seq<Signature>)
    requires sigs != [] && others != []
    requires forall s: Signature | s.kid in keys :: s in sigs <==> s in others
    ensures SignatureOutcome(lib, origin, body, keys, sigs).Ok? <==> SignatureOutcome(lib, origin, body, keys, others).Ok?
  {
    AcceptsIff(lib, origin, body, keys, sigs);
    AcceptsIff(lib, origin, body, keys, others);
  }

  /** In particular under every permutation. */
  lemma AcceptanceIgnoresPermutation(lib: Lib, origin: string, body: string, keys: KeyMap,
                                     sigs: seq<Signature>, others: seq<Signature>)
    requires multiset(sigs) == multiset(others)
    ensures SignatureOutcome(lib, origin, body, keys, sigs).Ok? <==> SignatureOutcome(lib, origin, body, keys, others).Ok?
  {
    forall s ensures s in sigs <==> s in others {
      assert s in sigs <==> s in multiset(sigs);
      assert s in others <==> s in multiset(others);
    }
    AcceptsIff(lib, origin, body, keys, sigs);
    AcceptsIff(lib, origin, body, keys, others);
    assert |multiset(sigs)| == |sigs| && |multiset(others)| == |others|;
  }

  /** An accepted list reports the key of its first verifying line. */
  lemma KeyIdIsFirstVerifying(lib: Lib, origin: string, body: string, keys: KeyMap, sigs: seq<Signature>) returns (i: nat)
    requires sigs != [] && SignatureOutcome(lib, origin, body, keys, sigs).Ok?
    ensures i < |sigs| && VerifiesUnderTrustedKey(lib, body, keys, sigs[i])
    ensures sigs[i].name == keys[sigs[i].kid].name == origin
    ensures forall j | 0 <= j < i :: !VerifiesUnderTrustedKey(lib, body, keys, sigs[j])
    ensures SignatureOutcome(lib, origin, body, keys, sigs) == Ok(Some(keys[sigs[i].kid].kid))
    ensures WellKeyed(keys) ==> SignatureOutcome(lib, origin, body, keys, sigs) == Ok(Some(sigs[i].kid))
  {
    var kinds := Kinds(lib, origin, body, keys, sigs);
    i := FirstOf(kinds, {Good});
    assert kinds[i] == Good;
    KindsMean(lib, origin, body, keys, sigs[i]);
    forall j | 0 <= j < i ensures !VerifiesUnderTrustedKey(lib, body, keys, sigs[j]) {
      assert kinds[j] !in {Good} && kinds[j] !in {Bad, Misnamed};
      KindsMean(lib, origin, body, keys, sigs[j]);
    }
  }

  // ----- When the reported key does not depend on line order either -----

  function MovedFirst(sigs: seq<Signature>, i: nat): (moved: seq<Signature>)
    requires i < |sigs|
    ensures |moved| == |sigs| && moved[0] == sigs[i]
  {
    [sigs[i]] + sigs[..i] + sigs[i + 1..]
  }

  lemma MovedIsPermutation(sigs: seq<Signature>, i: nat)
    requires i < |sigs|
    ensures multiset(MovedFirst(sigs, i)) == multiset(sigs)
  {
    assert sigs == sigs[..i] + [sigs[i]] + sigs[i + 1..];
  }

  /** The key reported under every order of the lines. */
  ghost predicate KeyIdIsStable(lib: Lib, origin: string, body: string, keys: KeyMap, sigs: seq<Signature>) {
    forall others | multiset(others) == multiset(sigs) ::
      SignatureOutcome(lib, origin, body, keys, others) == SignatureOutcome(lib, origin, body, keys, sigs)
  }

  ghost predicate OneVerifyingKey(lib: Lib, body: string, keys: KeyMap, sigs: seq<Signature>) {
    forall s, t | s in sigs && t in sigs && VerifiesUnderTrustedKey(lib, body, keys, s) && VerifiesUnderTrustedKey(lib, body, keys, t) ::
      keys[s.kid].kid == keys[t.kid].kid
  }

  lemma FirstLineVerifies(lib: Lib, origin: string, body: string, keys: KeyMap, sigs: seq<Signature>)
    requires sigs != [] && SignatureOutcome(lib, origin, body, keys, sigs).Ok? && VerifiesUnderTrustedKey(lib, body, keys, sigs[0])
    ensures SignatureOutcome(lib, origin, body, keys, sigs) == Ok(Some(keys[sigs[0].kid].kid))
  {
    var i := KeyIdIsFirstVerifying(lib, origin, body, keys, sigs);
  }

  lemma StableMeansOneKey(lib: Lib, origin: string, body: string, keys: KeyMap, sigs: seq<Signature>, i: nat)
    requires i < |sigs| && VerifiesUnderTrustedKey(lib, body, keys, sigs[i])
    requires SignatureOutcome(lib, origin, body, keys, sigs).Ok? && KeyIdIsStable(lib, origin, body, keys, sigs)
    ensures SignatureOutcome(lib, origin, body, keys, sigs) == Ok(Some(keys[sigs[i].kid].kid))
  {
    var moved := MovedFirst(sigs, i);
    MovedIsPermutation(sigs, i);
    FirstLineVerifies(lib, origin, body, keys, moved);
  }

  lemma OneKeyMeansSame(lib: Lib, origin: string, body: string, keys: KeyMap, sigs: seq<Signature>, others: seq<Signature>)
    requires sigs != [] && SignatureOutcome(lib, origin, body, keys, sigs).Ok? && OneVerifyingKey(lib, body, keys, sigs)
    requires multiset(others) == multiset(sigs)
    ensures SignatureOutcome(lib, origin, body, keys, others) == SignatureOutcome(lib, origin, body, keys, sigs)
  {
    AcceptanceIgnoresPermutation(lib, origin, body, keys, sigs, others);
    assert |multiset(sigs)| == |sigs| && |multiset(others)| == |others|;
    var i := KeyIdIsFirstVerifying(lib, origin, body, keys, sigs);
    var j := KeyIdIsFirstVerifying(lib, origin, body, keys, others);
    assert others[j] in multiset(others);
    assert others[j] in sigs;
  }

  /** Unlike acceptance, the reported key is independent of line order only when all verifying lines name one key. */
  lemma KeyIdIsStableIff(lib: Lib, origin: string, body: string, keys: KeyMap, sigs: seq<Signature>)
    requires sigs != [] && SignatureOutcome(lib, origin, body, keys, sigs).Ok?
    ensures KeyIdIsStable(lib, origin, body, keys, sigs) <==> OneVerifyingKey(lib, body, keys, sigs)
  {
    if KeyIdIsStable(lib, origin, body, keys, sigs) {
      forall s, t | s in sigs && t in sigs && VerifiesUnderTrustedKey(lib, body, keys, s) && VerifiesUnderTrustedKey(lib, body, keys, t)
        ensures keys[s.kid].kid == keys[t.kid].kid
      {
        var i :| 0 <= i < |sigs| && sigs[i] == s;
        var j :| 0 <= j < |sigs| && sigs[j] == t;
        StableMeansOneKey(lib, origin, body, keys, sigs, i);
        StableMeansOneKey(lib, origin, body, keys, sigs, j);
      }
    }
    if OneVerifyingKey(lib, body, keys, sigs) {
      forall others | multiset(others) == multiset(sigs)
        ensures SignatureOutcome(lib, origin, body, keys, others) == SignatureOutcome(lib, origin, body, keys, sigs)
      {
        OneKeyMeansSame(lib, origin, body, keys, sigs, others);
      }
    }
  }

  // ----- The whole note -----

  const NO_KEY: Kid := [0, 0, 0, 0]

  function VerifiedCheckpoint(lib: Lib, note: string, keys: KeyMap): Result<Checkpoint, CheckpointError> {
    if |note| > MAX_NOTE_SIZE then Err(Oversized)
    else if !ValidText(note) then Err(Structure(Malformed))
    else
      var parts := SplitNote(ParseSignatureLine, note);
      if parts.None? then Err(Structure(Malformed)) else VerifiedParts(lib, parts.value.0, parts.value.1, keys)
  }

  function VerifiedParts(lib: Lib, body: string, sigs: seq<Signature>, keys: KeyMap): Result<Checkpoint, CheckpointError> {
    var head := ParseBody(body);
    if head.Err? then Err(Structure(head.error))
    else
      var outcome := SignatureOutcome(lib, head.value.origin, body, keys, sigs);
      if outcome.Err? then Err(outcome.error) else Ok(Checkpoint(head.value, outcome.value.GetOr(NO_KEY)))
  }

  method VerifyCheckpoint(lib: Lib, note: string, keys: KeyMap) returns (res: Result<Checkpoint, CheckpointError>)
    ensures res == VerifiedCheckpoint(lib, note, keys)
  {
    if |note| > MAX_NOTE_SIZE {
      return Err(Oversized);
    }
    var ok := ValidateNoteText(note);
    if !ok {
      return Err(Structure(Malformed));
    }
    var parts := SplitCheckpointNote(ParseSignatureLine, note);
    if parts.None? {
      return Err(Structure(Malformed));
    }
    var (body, sigs) := parts.value;
    var head := ParseBody(body);
    if head.Err? {
      return Err(Structure(head.error));
    }
    var outcome := VerifyCheckpointSignatures(lib, head.value.origin, body, sigs, keys);
    if outcome.Err? {
      return Err(outcome.error);
    }
    return Ok(Checkpoint(head.value, outcome.value.GetOr(NO_KEY)));
  }

  /** A trusted key, named as the origin, that verified this body on a line that names it. */
  predicate SignedBy(lib: Lib, keys: KeyMap, cp: Checkpoint, body: string, s: Signature) {
    && VerifiesUnderTrustedKey(lib, body, keys, s)
    && s.name == keys[s.kid].name == cp.head.origin
    && cp.keyId == keys[s.kid].kid
  }

  /**
   End to end: an accepted note is a body without an empty line, a blank line and a block; the body parses
   to the checkpoint's head, and a trusted key named as the origin verified exactly that body.
   */
  lemma AcceptedIsSigned(lib: Lib, note: string, keys: KeyMap) returns (body: string, s: Signature)
    requires VerifiedCheckpoint(lib, note, keys).Ok?
    ensures |body| < |note| <= MAX_NOTE_SIZE && note == body + "\n" + note[|body| + 1..]
    ensures forall i | 0 <= i < |Lines(body)| :: Lines(body)[i] != ""
    ensures var cp := VerifiedCheckpoint(lib, note, keys).value;
      && ParseBody(body) == Ok(cp.head) && SignedBy(lib, keys, cp, body, s)
      && (WellKeyed(keys) ==> cp.keyId == s.kid)
    ensures ValidText(note)
  {
    var parts := SplitNote(ParseSignatureLine, note).value;
    body := parts.0;
    SplitReassembles(ParseSignatureLine, note, body, parts.1);
    BodyHasNoEmptyLine(ParseSignatureLine, note, body, parts.1);
    var i := KeyIdIsFirstVerifying(lib, ParseBody(body).value.origin, body, keys, parts.1);
    s := parts.1[i];
  }

  /** Under keys the strict constructor built, and whatever was merged into them, the key id reported is the line's own. */
  lemma AcceptedUnderBuiltKeys(lib: Lib, note: string, parse: KeyParser, built: seq<string>, merged: seq<string>)
      returns (body: string, s: Signature)
    requires Built(parse, built).Ok?
    requires VerifiedCheckpoint(lib, note, Merged(parse, Built(parse, built).value, merged).keys).Ok?
    ensures var keys := Merged(parse, Built(parse, built).value, merged).keys;
      var cp := VerifiedCheckpoint(lib, note, keys).value;
      && body + "\n" <= note && SignedBy(lib, keys, cp, body, s) && cp.keyId == s.kid
  {
    BuiltIsWellKeyed(parse, built);
    MergeKeepsWellKeyed(parse, Built(parse, built).value, merged);
    body, s := AcceptedIsSigned(lib, note, Merged(parse, Built(parse, built).value, merged).keys);
  }

  /** Structural problems come before any signature: the size, the text, the shape, then the head. */
  lemma StructureFirst(lib: Lib, note: string, keys: KeyMap)
    ensures |note| > 65536 <==> VerifiedCheckpoint(lib, note, keys) == Err(Oversized)
    ensures |note| <= 65536 && (!ValidText(note) || SplitNote(ParseSignatureLine, note).None?) ==>
      VerifiedCheckpoint(lib, note, keys) == Err(Structure(Malformed))
    ensures |note| <= 65536 && ValidText(note) && SplitNote(ParseSignatureLine, note).Some? ==>
      var (body, sigs) := SplitNote(ParseSignatureLine, note).value;
      VerifiedCheckpoint(lib, note, keys)
      == match ParseBody(body)
         case Err(e) => Err(Structure(e))
         case Ok(head) =>
           var outcome := SignatureOutcome(lib, head.origin, body, keys, sigs);
           if outcome.Err? then Err(outcome.error) else Ok(Checkpoint(head, outcome.value.GetOr([0, 0, 0, 0])))
  {
    var parts := SplitNote(ParseSignatureLine, note);
    if parts.Some? {
      OutcomeIsNeverOversized(lib, note, keys);
    }
  }

  lemma OutcomeIsNeverOversized(lib: Lib, note: string, keys: KeyMap)
    requires SplitNote(ParseSignatureLine, note).Some?
    ensures var (body, sigs) := SplitNote(ParseSignatureLine, note).value;
      VerifiedParts(lib, body, sigs, keys) != Err(Oversized)
  {
  }

  // ----- Printed notes -----

  lemma {:induction false} TerminatedIsValid(lines: seq<string>)
    requires forall i | 0 <= i < |lines| :: ValidText(lines[i])
    ensures ValidText(Terminated(lines))
  {
    if lines != [] {
      TerminatedIsValid(lines[1..]);
      AsciiIsValid("\n");
      ValidConcat(lines[0], "\n");
      ValidConcat(lines[0] + "\n", Terminated(lines[1..]));
    }
  }

  lemma SymbolsAreValid(bytes: Bytes)
    ensures ValidText(Base64.Encode(bytes))
  {
    Base64.EncodeIsSymbols(bytes);
    AsciiIsValid(Base64.Encode(bytes));
  }

  lemma SignatureLineIsValid(s: Signature)
    requires ValidText(s.name)
    ensures ValidText(SignatureLine(s))
  {
    var b64 := Base64.Encode(s.kid + s.sig);
    SymbolsAreValid(s.kid + s.sig);
    AsciiIsValid(" ");
    ValidConcat(s.name, " ");
    ValidConcat(s.name + " ", b64);
    EmDashIsValid();
    ValidConcat(SIGNATURE_PREFIX, s.name + " " + b64);
  }

  lemma EmDashIsValid()
    ensures ValidText(SIGNATURE_PREFIX)
  {
    assert RuneSize(SIGNATURE_PREFIX) == 3;
    assert SIGNATURE_PREFIX[3..] == " ";
    AsciiIsValid(" ");
  }

  /** The text fields of a note are checked text. */
  ghost predicate TextIsValid(head: Head, extensions: seq<string>, sigs: seq<Signature>) {
    && ValidText(head.origin) && (forall e | e in extensions :: ValidText(e))
    && forall s | s in sigs :: ValidText(s.name)
  }

  lemma PrintedBodyIsValid(head: Head, extensions: seq<string>)
    requires ValidText(head.origin) && forall e | e in extensions :: ValidText(e)
    ensures ValidText(PrintBody(head, extensions))
  {
    AsciiIsValid(Decimal(head.size));
    SymbolsAreValid(head.rootHash);
    TerminatedIsValid(BodyLines(head, extensions));
  }

  lemma PrintedBlockIsValid(sigs: seq<Signature>)
    requires forall s | s in sigs :: ValidText(s.name)
    ensures ValidText(Terminated(SignatureLines(sigs)))
  {
    forall i | 0 <= i < |sigs| ensures ValidText(SignatureLines(sigs)[i]) {
      SignatureLineIsValid(sigs[i]);
    }
    TerminatedIsValid(SignatureLines(sigs));
  }

  lemma PrintedNoteIsValid(head: Head, extensions: seq<string>, sigs: seq<Signature>)
    requires TextIsValid(head, extensions, sigs)
    ensures ValidText(PrintNote(head, extensions, sigs))
  {
    var body, block := PrintBody(head, extensions), Terminated(SignatureLines(sigs));
    PrintedBodyIsValid(head, extensions);
    PrintedBlockIsValid(sigs);
    AsciiIsValid("\n");
    ValidConcat(body, "\n");
    ValidConcat(body + "\n", block);
  }

  lemma VerifiedByParts(lib: Lib, note: string, body: string, sigs: seq<Signature>, keys: KeyMap)
    requires |note| <= MAX_NOTE_SIZE && ValidText(note) && SplitNote(ParseSignatureLine, note) == Some((body, sigs))
    ensures VerifiedCheckpoint(lib, note, keys) == VerifiedParts(lib, body, sigs, keys)
  {
  }

  lemma PartsByHead(lib: Lib, body: string, sigs: seq<Signature>, keys: KeyMap, head: Head)
    requires ParseBody(body) == Ok(head)
    ensures var outcome := SignatureOutcome(lib, head.origin, body, keys, sigs);
      VerifiedParts(lib, body, sigs, keys)
      == if outcome.Err? then Err(outcome.error) else Ok(Checkpoint(head, outcome.value.GetOr(NO_KEY)))
  {
  }

  /** A printed note within the size limit is verified on exactly the head, body and signatures it was printed from. */
  lemma PrintedNoteVerifies(lib: Lib, head: Head, extensions: seq<string>, sigs: seq<Signature>, keys: KeyMap)
    requires Carries(head, extensions, sigs) && TextIsValid(head, extensions, sigs)
    requires |PrintNote(head, extensions, sigs)| <= MAX_NOTE_SIZE
    ensures var outcome := SignatureOutcome(lib, head.origin, PrintBody(head, extensions), keys, sigs);
      VerifiedCheckpoint(lib, PrintNote(head, extensions, sigs), keys)
      == if outcome.Err? then Err(outcome.error) else Ok(Checkpoint(head, outcome.value.GetOr(NO_KEY)))
  {
    var note, body := PrintNote(head, extensions, sigs), PrintBody(head, extensions);
    PrintedNoteIsValid(head, extensions, sigs);
    NoteRoundTrip(head, extensions, sigs);
    VerifiedByParts(lib, note, body, sigs, keys);
    PartsByHead(lib, body, sigs, keys, head);
  }

  // ----- Checkpoints and receipts -----

  /** Compares size first, then root; None says that receipt and checkpoint speak of one tree. */
  function Covers(cp: Checkpoint, r: Receipt.VerifiedReceipt): Option<CheckpointError> {
    if r.treeSize != cp.head.size then Some(SizeMismatch)
    else if r.rootHash != cp.head.rootHash then Some(RootMismatch)
    else None
  }
}
