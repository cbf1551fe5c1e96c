/**
 Whole runs of the two proof entry points over one replay cache: no proof is accepted twice, only vouched
 proofs occupy slots, and the slots stay in few generations.
 */
module SingleUse {
  import opened Prelude
  import opened ReplayCache
  import opened ReplayRuns
  import opened Proof
  import opened Caller
  import opened RootKeys
  import opened GenerationBound

  /** What happens to the cache, in commit order: a proof checked at freshAt reaches the cache at commitAt. */
  datatype Event =
    | ViaProof(req: Request, skew: Time, freshAt: Time, commitAt: Time)
    | ViaCaller(cfg: Config, call: Call, keys: Option<KeyMap>, freshAt: Time, commitAt: Time)
    | Tick(commitAt: Time)

  function ProofOf(e: Event): string
    requires !e.Tick?
  {
    if e.ViaProof? then e.req.proofJws else e.call.req.proofJws
  }

  function SkewOf(e: Event): Time
    requires !e.Tick?
  {
    EffectiveSkew(if e.ViaProof? then e.skew else e.cfg.popSkew)
  }

  /** What one event does to the index, and whether it accepts its proof. */
  function EventStep(lib: CallerLib, maxEntries: nat, index: Index, e: Event): (Index, bool) {
    match e
    case ViaProof(req, skew, freshAt, commitAt) =>
      var (after, res) := Settled(lib.proof, index, maxEntries, VouchedByProof(lib.proof, req, freshAt, skew), commitAt);
      (after, res.Ok?)
    case ViaCaller(cfg, call, keys, freshAt, commitAt) =>
      var (after, res) := Settled(lib.proof, index, maxEntries, VouchedByCaller(lib, cfg, call, keys, freshAt), commitAt);
      (after, res.Ok?)
    case Tick(commitAt) => (Unpassed(index, commitAt), false)
  }

  function After(lib: CallerLib, maxEntries: nat, events: seq<Event>): Index {
    if events == [] then map[]
    else EventStep(lib, maxEntries, After(lib, maxEntries, events[..|events| - 1]), events[|events| - 1]).0
  }

  ghost predicate Accepted(lib: CallerLib, maxEntries: nat, events: seq<Event>, i: nat)
    requires i < |events|
  {
    EventStep(lib, maxEntries, After(lib, maxEntries, events[..i]), events[i]).1
  }

  // ----- Every event is one cache operation, or none -----

  /** The proof result an event brings to the commit, if its checks pass. */
  function Brought(lib: CallerLib, e: Event): Option<ProofResult> {
    match e
    case ViaProof(req, skew, freshAt, _) =>
      var v := VouchedByProof(lib.proof, req, freshAt, skew);
      if v.Ok? then Some(v.value.0) else None
    case ViaCaller(cfg, call, keys, freshAt, _) =>
      var v := VouchedByCaller(lib, cfg, call, keys, freshAt);
      if v.Ok? then Some(v.value.0) else None
    case Tick(_) => None
  }

  /** What an event asks of the cache; a request turned away earlier asks nothing. */
  function OpOf(lib: CallerLib, e: Event): (op: Op)
    ensures op.now == e.commitAt
  {
    var r := Brought(lib, e);
    if e.Tick? then SweepOp(e.commitAt)
    else if r.Some? then CheckOp(lib.proof.jtiKey(r.value.jti), r.value.replayExp, e.commitAt)
    else IdleOp(e.commitAt)
  }

  /** The cache operations of a run, event by event. */
  function Ops(lib: CallerLib, events: seq<Event>): (ops: seq<Op>)
    ensures |ops| == |events|
    ensures forall i | 0 <= i < |ops| :: ops[i] == OpOf(lib, events[i])
  {
    seq(|events|, i requires 0 <= i < |events| => OpOf(lib, events[i]))
  }

  lemma SettledIsCommitted<T>(lib: Proof.Lib, index: Index, maxEntries: nat, vouched: Result<(ProofResult, T), ErrorType>,
                              commitAt: Time, committed: (Index, Answer))
    requires vouched.Ok? && committed == Committed(lib, index, maxEntries, vouched.value.0, commitAt)
    ensures Settled(lib, index, maxEntries, vouched, commitAt).0 == committed.0
    ensures Settled(lib, index, maxEntries, vouched, commitAt).1.Ok? <==> committed.1 == Recorded
  {
  }

  lemma CommittedIsStep(lib: Proof.Lib, index: Index, maxEntries: nat, r: ProofResult, commitAt: Time, op: Op)
    requires op == CheckOp(lib.jtiKey(r.jti), r.replayExp, commitAt)
    ensures Step(maxEntries, index, op) == Committed(lib, index, maxEntries, r, commitAt).0
    ensures Reply(maxEntries, index, op) == Some(Committed(lib, index, maxEntries, r, commitAt).1)
  {
  }

  lemma SettledIsStep<T>(lib: Proof.Lib, index: Index, maxEntries: nat, vouched: Result<(ProofResult, T), ErrorType>,
                         commitAt: Time, op: Op)
    requires vouched.Ok? && op == CheckOp(lib.jtiKey(vouched.value.0.jti), vouched.value.0.replayExp, commitAt)
    ensures Settled(lib, index, maxEntries, vouched, commitAt).0 == Step(maxEntries, index, op)
    ensures Settled(lib, index, maxEntries, vouched, commitAt).1.Ok? <==> Reply(maxEntries, index, op) == Some(Recorded)
  {
    var committed := Committed(lib, index, maxEntries, vouched.value.0, commitAt);
    SettledIsCommitted(lib, index, maxEntries, vouched, commitAt, committed);
    CommittedIsStep(lib, index, maxEntries, vouched.value.0, commitAt, op);
  }

  lemma EventIsOperation(lib: CallerLib, maxEntries: nat, index: Index, e: Event)
    ensures EventStep(lib, maxEntries, index, e).0 == Step(maxEntries, index, OpOf(lib, e))
    ensures EventStep(lib, maxEntries, index, e).1 <==> Reply(maxEntries, index, OpOf(lib, e)) == Some(Recorded)
  {
    match e
    case ViaProof(req, skew, freshAt, commitAt) =>
      var vouched := VouchedByProof(lib.proof, req, freshAt, skew);
      if vouched.Ok? {
        SettledIsStep(lib.proof, index, maxEntries, vouched, commitAt, OpOf(lib, e));
      }
    case ViaCaller(cfg, call, keys, freshAt, commitAt) =>
      var vouched := VouchedByCaller(lib, cfg, call, keys, freshAt);
      if vouched.Ok? {
        SettledIsStep(lib.proof, index, maxEntries, vouched, commitAt, OpOf(lib, e));
      }
    case Tick(_) =>
  }

  lemma OpsOfPrefix(lib: CallerLib, events: seq<Event>, n: nat)
    requires n <= |events|
    ensures Ops(lib, events[..n]) == Ops(lib, events)[..n]
  {
  }

  /** A run of the entry points is a run of the cache. */
  lemma {:induction false} RunIsOperations(lib: CallerLib, maxEntries: nat, events: seq<Event>)
    ensures After(lib, maxEntries, events) == StateAfter(maxEntries, Ops(lib, events))
  {
    if events != [] {
      var n := |events| - 1;
      RunIsOperations(lib, maxEntries, events[..n]);
      OpsOfPrefix(lib, events, n);
      EventIsOperation(lib, maxEntries, After(lib, maxEntries, events[..n]), events[n]);
    }
  }

  /** An event accepts its proof exactly when the cache records it. */
  lemma AcceptedIffRecorded(lib: CallerLib, maxEntries: nat, events: seq<Event>, i: nat)
    requires i < |events|
    ensures Accepted(lib, maxEntries, events, i)
       <==> RecordedAt(Ops(lib, events), Answers(maxEntries, Ops(lib, events)), i)
  {
    RunIsOperations(lib, maxEntries, events[..i]);
    OpsOfPrefix(lib, events, i);
    EventIsOperation(lib, maxEntries, After(lib, maxEntries, events[..i]), events[i]);
    AnswersOfPrefix(maxEntries, Ops(lib, events), i);
  }

  /** A proof that reaches the commit passed the proof checks at freshAt. */
  lemma BroughtIsVerified(lib: CallerLib, e: Event)
    requires Brought(lib, e).Some?
    ensures !e.Tick?
    ensures var req, skew := if e.ViaProof? then e.req else e.call.req, if e.ViaProof? then e.skew else e.cfg.popSkew;
      VerifyProofUnrecorded(lib.proof, req, e.freshAt, skew) == Ok(Brought(lib, e).value)
  {
  }

  lemma CheckWindow(lib: CallerLib, e: Event)
    requires OpOf(lib, e).CheckOp?
    ensures !e.Tick?
    ensures e.freshAt + REPLAY_GRACE <= OpOf(lib, e).exp <= e.freshAt + 2 * SkewOf(e) + REPLAY_GRACE
  {
    BroughtIffCheck(lib, e);
    BroughtIsVerified(lib, e);
    if e.ViaProof? {
      FreshnessWindow(lib.proof, e.req, e.freshAt, e.skew);
    } else {
      FreshnessWindow(lib.proof, e.call.req, e.freshAt, e.cfg.popSkew);
    }
  }

  lemma BroughtIffCheck(lib: CallerLib, e: Event)
    ensures Brought(lib, e).Some? <==> OpOf(lib, e).CheckOp?
    ensures Brought(lib, e).Some? ==>
      OpOf(lib, e) == CheckOp(lib.proof.jtiKey(Brought(lib, e).value.jti), Brought(lib, e).value.replayExp, e.commitAt)
  {
  }

  /** One proof asks for one key; until when differs by the skews alone, however and whenever it is presented. */
  lemma OneProofOneEntry(lib: CallerLib, e1: Event, e2: Event)
    requires OpOf(lib, e1).CheckOp? && OpOf(lib, e2).CheckOp?
    requires !e1.Tick? && !e2.Tick? && ProofOf(e1) == ProofOf(e2)
    ensures OpOf(lib, e1).key == OpOf(lib, e2).key
    ensures OpOf(lib, e1).exp - SkewOf(e1) == OpOf(lib, e2).exp - SkewOf(e2)
  {
    BroughtIffCheck(lib, e1);
    BroughtIffCheck(lib, e2);
    BroughtIsVerified(lib, e1);
    BroughtIsVerified(lib, e2);
    var req1, skew1 := if e1.ViaProof? then e1.req else e1.call.req, if e1.ViaProof? then e1.skew else e1.cfg.popSkew;
    var req2, skew2 := if e2.ViaProof? then e2.req else e2.call.req, if e2.ViaProof? then e2.skew else e2.cfg.popSkew;
    ProofDeterminesResult(lib.proof, req1, e1.freshAt, skew1, req2, e2.freshAt, skew2);
  }

  // ----- Runs -----

  /** One clock that never goes back, over the commits. */
  ghost predicate InClockOrder(events: seq<Event>) {
    forall i, j | 0 <= i < j < |events| :: events[i].commitAt <= events[j].commitAt
  }

  /** Skews from lo to hi, and every commit at or after its check and less than lag after it. */
  ghost predicate IsRun(events: seq<Event>, lo: Time, hi: Time, lag: int) {
    && InClockOrder(events)
    && forall e | e in events && !e.Tick? :: lo <= SkewOf(e) <= hi && e.freshAt <= e.commitAt < e.freshAt + lag
  }

  lemma RunClock(lib: CallerLib, events: seq<Event>)
    requires InClockOrder(events)
    ensures ClockNeverGoesBack(Ops(lib, events))
  {
  }

  /**
   What the first presentation's retention covers of a second one: a commit that lags less than the grace
   behind its check, and less still if the second skew is the larger, by as much as it is.
   */
  predicate Covers(first: Event, again: Event)
    requires !first.Tick? && !again.Tick?
  {
    again.commitAt - again.freshAt < REPLAY_GRACE - (SkewOf(again) - SkewOf(first))
  }

  /** A proof presented again, checked while fresh and committed while covered, is answered as seen. */
  lemma AcceptedProofIsSeen(lib: CallerLib, maxEntries: nat, events: seq<Event>, i: nat, j: nat)
    requires InClockOrder(events) && i < j < |events|
    requires Accepted(lib, maxEntries, events, i) && OpOf(lib, events[j]).CheckOp?
    requires !events[i].Tick? && !events[j].Tick? && ProofOf(events[i]) == ProofOf(events[j]) && Covers(events[i], events[j])
    ensures Answers(maxEntries, Ops(lib, events))[j] == Some(Seen)
  {
    var e1, e2, ops := events[i], events[j], Ops(lib, events);
    AcceptedIffRecorded(lib, maxEntries, events, i);
    CheckWindow(lib, e2);
    OneProofOneEntry(lib, e1, e2);
    RunClock(lib, events);
    SeenIffRecordedAndLive(maxEntries, ops, j);
    assert ops[i].key == ops[j].key && ops[i].exp > ops[j].now;
  }

  /**
   Single use, pair by pair: under one clock no proof is accepted twice, through either entry point and
   whatever other proofs reuse its jti, while the second commit is covered. With a second skew no larger
   than the first, that is every commit less than REPLAY_GRACE after its check.
   */
  lemma NoProofIsAcceptedTwice(lib: CallerLib, maxEntries: nat, events: seq<Event>, i: nat, j: nat)
    requires InClockOrder(events) && i < j < |events| && !events[i].Tick? && !events[j].Tick?
    requires
      || Covers(events[i], events[j])
      || (SkewOf(events[j]) <= SkewOf(events[i]) && events[j].commitAt < events[j].freshAt + REPLAY_GRACE)
    requires Accepted(lib, maxEntries, events, i) && Accepted(lib, maxEntries, events, j)
    ensures ProofOf(events[i]) != ProofOf(events[j])
  {
    AcceptedIffRecorded(lib, maxEntries, events, i);
    AcceptedIffRecorded(lib, maxEntries, events, j);
    if ProofOf(events[i]) == ProofOf(events[j]) {
      AcceptedProofIsSeen(lib, maxEntries, events, i, j);
    }
  }

  /**
   Whatever the bytes of the two proofs, a key is never accepted again while the first acceptance is
   retained: acceptances of one key have disjoint retentions, each from its commit to its expiry.
   */
  lemma RetentionsOfOneKeyAreDisjoint(lib: CallerLib, maxEntries: nat, events: seq<Event>, i: nat, j: nat)
    requires InClockOrder(events) && i < j < |events|
    requires Accepted(lib, maxEntries, events, i) && Accepted(lib, maxEntries, events, j)
    ensures OpOf(lib, events[i]).CheckOp? && OpOf(lib, events[j]).CheckOp?
    ensures OpOf(lib, events[i]).key == OpOf(lib, events[j]).key ==> OpOf(lib, events[i]).exp <= events[j].commitAt
  {
    AcceptedIffRecorded(lib, maxEntries, events, i);
    AcceptedIffRecorded(lib, maxEntries, events, j);
    RunClock(lib, events);
    SeenIffRecordedAndLive(maxEntries, Ops(lib, events), j);
  }

  // ----- The bound on lag and skews is exact -----

  /** No proof is accepted twice in any run whose skews lie from lo to hi and whose commits lag less than this. */
  ghost predicate SingleUseHolds(lag: int, lo: Time, hi: Time) {
    forall lib: CallerLib, maxEntries: nat, events: seq<Event>, i: nat, j: nat ::
      IsRun(events, lo, hi, lag) && i < j < |events|
      && Accepted(lib, maxEntries, events, i) && Accepted(lib, maxEntries, events, j)
      ==> !events[i].Tick? && !events[j].Tick? && ProofOf(events[i]) != ProofOf(events[j])
  }

  function OneProofCallerLib(iat: int, notBefore: Time, notAfter: Time): CallerLib {
    CallerLib(OneProofLib(iat, notBefore, notAfter), Receipt.Lib(_ => None, (_, _, _, _) => false, _ => ZERO),
              (_, _, _) => None, _ => None, s => s)
  }

  /**
   One proof, issued at one second past the epoch, accepted at once under the skew lo; then checked at its
   last fresh instant under hi, and committed as soon as the first retention has run out.
   */
  function Replayed(lo: Time, hi: Time): seq<Event> {
    [ViaProof(OneRequest(), lo, SECOND, SECOND),
     ViaProof(OneRequest(), hi, SECOND + hi, Max(SECOND + hi, SECOND + lo + REPLAY_GRACE))]
  }

  lemma ExpiredIsRecordedAgain(key: string, exp: Time, now: Time, exp': Time, now': Time)
    requires exp <= now'
    ensures Check(map[], 1, key, exp, now) == (map[key := exp], Recorded)
    ensures Check(map[key := exp], 1, key, exp', now').1 == Recorded
  {
    var held: Index := map[key := exp];
    assert Unpassed(map[], now) == map[] && held - {key} == map[];
    assert Unpassed(held, now') - {key} == map[];
  }

  /** What one presentation of that proof asks of the cache. */
  lemma OneProofAsks(iat: int, notBefore: Time, notAfter: Time, skew: Time, freshAt: Time, commitAt: Time)
    requires iat != 0 && notBefore <= freshAt <= notAfter
    requires iat * SECOND - EffectiveSkew(skew) <= freshAt <= iat * SECOND + EffectiveSkew(skew)
    ensures OpOf(OneProofCallerLib(iat, notBefore, notAfter), ViaProof(OneRequest(), skew, freshAt, commitAt))
         == CheckOp("j", iat * SECOND + EffectiveSkew(skew) + REPLAY_GRACE, commitAt)
  {
    OneProofVerifies(iat, notBefore, notAfter, freshAt, skew);
    ResultIsTheProofs(OneProofLib(iat, notBefore, notAfter), OneRequest(), freshAt, skew);
    BroughtIffCheck(OneProofCallerLib(iat, notBefore, notAfter), ViaProof(OneRequest(), skew, freshAt, commitAt));
  }

  lemma ReplayedOps(lo: Time, hi: Time)
    requires 0 < lo <= hi
    ensures var lib, events := OneProofCallerLib(1, SECOND, SECOND + hi), Replayed(lo, hi);
      Ops(lib, events) == [CheckOp("j", SECOND + lo + REPLAY_GRACE, SECOND),
                           CheckOp("j", SECOND + hi + REPLAY_GRACE, events[1].commitAt)]
  {
    OneProofAsks(1, SECOND, SECOND + hi, lo, SECOND, SECOND);
    OneProofAsks(1, SECOND, SECOND + hi, hi, SECOND + hi, Replayed(lo, hi)[1].commitAt);
  }

  /** The run that fails: with hi further from lo than the grace even a commit at the very instant of its check. */
  lemma ReplayedIsAcceptedTwice(lo: Time, hi: Time)
    requires 0 < lo <= hi
    ensures var lib, events := OneProofCallerLib(1, SECOND, SECOND + hi), Replayed(lo, hi);
      && Accepted(lib, 1, events, 0) && Accepted(lib, 1, events, 1) && ProofOf(events[0]) == ProofOf(events[1])
      && SkewOf(events[0]) == lo && SkewOf(events[1]) == hi
      && events[0].commitAt == events[0].freshAt
      && events[1].commitAt - events[1].freshAt == Max(0, REPLAY_GRACE - (hi - lo))
  {
    var lib, events := OneProofCallerLib(1, SECOND, SECOND + hi), Replayed(lo, hi);
    var op1, op2 := CheckOp("j", SECOND + lo + REPLAY_GRACE, SECOND), CheckOp("j", SECOND + hi + REPLAY_GRACE, events[1].commitAt);
    ReplayedOps(lo, hi);
    ExpiredIsRecordedAgain("j", op1.exp, op1.now, op2.exp, op2.now);
    RunOfTwo(1, op1, op2);
    AcceptedIffRecorded(lib, 1, events, 0);
    AcceptedIffRecorded(lib, 1, events, 1);
  }

  lemma SingleUseWithinBound(lag: int, lo: Time, hi: Time)
    requires lo <= hi && lag <= Max(0, REPLAY_GRACE - (hi - lo))
    ensures SingleUseHolds(lag, lo, hi)
  {
    forall lib: CallerLib, maxEntries: nat, events: seq<Event>, i: nat, j: nat
      | IsRun(events, lo, hi, lag) && i < j < |events|
        && Accepted(lib, maxEntries, events, i) && Accepted(lib, maxEntries, events, j)
      ensures !events[i].Tick? && !events[j].Tick? && ProofOf(events[i]) != ProofOf(events[j])
    {
      AcceptedIsNoTick(lib, maxEntries, events, i);
      AcceptedIsNoTick(lib, maxEntries, events, j);
      assert events[i] in events && events[j] in events;
      NoProofIsAcceptedTwice(lib, maxEntries, events, i, j);
    }
  }

  lemma AcceptedIsNoTick(lib: CallerLib, maxEntries: nat, events: seq<Event>, i: nat)
    requires i < |events| && Accepted(lib, maxEntries, events, i)
    ensures !events[i].Tick?
  {
    AcceptedIffRecorded(lib, maxEntries, events, i);
    CheckWindow(lib, events[i]);
  }

  lemma ReplayedIsRun(lag: int, lo: Time, hi: Time)
    requires 0 < lo <= hi && lag > Max(0, REPLAY_GRACE - (hi - lo))
    ensures IsRun(Replayed(lo, hi), lo, hi, lag)
  {
  }

  /**
   The exact condition: single use holds of all runs with skews from lo to hi whose commits lag less than
   this if and only if that is at most the grace less the spread of the skews, or no request commits at all.
   */
  lemma SingleUseHoldsIff(lag: int, lo: Time, hi: Time)
    requires 0 < lo <= hi
    ensures SingleUseHolds(lag, lo, hi) <==> lag <= Max(0, REPLAY_GRACE - (hi - lo))
  {
    if lag <= Max(0, REPLAY_GRACE - (hi - lo)) {
      SingleUseWithinBound(lag, lo, hi);
    } else {
      ReplayedIsAcceptedTwice(lo, hi);
      ReplayedIsRun(lag, lo, hi);
    }
  }

  // ----- Who occupies the slots -----

  /** The event presented the content that its verified proof was made over. */
  ghost predicate OverItsContent(lib: CallerLib, e: Event)
    requires !e.Tick?
  {
    var req, skew := if e.ViaProof? then e.req else e.call.req, if e.ViaProof? then e.skew else e.cfg.popSkew;
    var r := VerifyProofUnrecorded(lib.proof, req, e.freshAt, skew);
    r.Ok? && req.content.Some? && lib.proof.sha(req.content.value) == r.value.contentDigest
  }

  lemma BroughtIsOverItsContent(lib: CallerLib, e: Event)
    requires Brought(lib, e).Some?
    ensures !e.Tick? && OverItsContent(lib, e)
  {
    BroughtIsVerified(lib, e);
    if e.ViaProof? {
      VouchedByProofIff(lib.proof, e.req, e.freshAt, e.skew, Brought(lib, e).value);
    } else {
      var (proof, id) := VouchedByCaller(lib, e.cfg, e.call, e.keys, e.freshAt).value;
      VouchedUnfolds(lib, e.cfg, e.call, e.keys, e.freshAt, proof, id);
    }
  }

  /** Through either entry point nothing is accepted over other content than the proof's own. */
  lemma AcceptedIsOverItsContent(lib: CallerLib, maxEntries: nat, events: seq<Event>, i: nat)
    requires i < |events| && Accepted(lib, maxEntries, events, i)
    ensures !events[i].Tick? && OverItsContent(lib, events[i])
  {
    AcceptedIffRecorded(lib, maxEntries, events, i);
    BroughtIffCheck(lib, events[i]);
    BroughtIsOverItsContent(lib, events[i]);
  }


  lemma UnrecordedAddsNoKey(maxEntries: nat, index: Index, op: Op)
    requires Reply(maxEntries, index, op) != Some(Recorded)
    ensures Step(maxEntries, index, op).Keys <= index.Keys
  {
  }

  /** A rejected request adds no key, and one that nothing vouches for changes nothing at all. */
  lemma RejectedAddsNothing(lib: CallerLib, maxEntries: nat, index: Index, e: Event)
    requires !EventStep(lib, maxEntries, index, e).1
    ensures EventStep(lib, maxEntries, index, e).0.Keys <= index.Keys
    ensures !e.Tick? && Brought(lib, e).None? ==> EventStep(lib, maxEntries, index, e).0 == index
  {
    EventIsOperation(lib, maxEntries, index, e);
    BroughtIffCheck(lib, e);
    UnrecordedAddsNoKey(maxEntries, index, OpOf(lib, e));
  }

  /** An event whose proof was accepted on behalf of one agent within the pins. */
  ghost predicate ForOneAgent(lib: CallerLib, names: seq<string>, e: Event) {
    e.ViaCaller? && exists proof, id :: OfOneAgent(lib, e.cfg, Pins(lib.fold, names), e.call, e.keys, e.freshAt, proof, id)
  }

  lemma BroughtByCallerIsOneAgent(lib: CallerLib, e: Event, names: seq<string>)
    requires e.ViaCaller? && e.cfg.allowed == Canonicals(Pins(lib.fold, names)) && Brought(lib, e).Some?
    ensures ForOneAgent(lib, names, e)
  {
    var (proof, id) := VouchedByCaller(lib, e.cfg, e.call, e.keys, e.freshAt).value;
    VouchedIffOneAgent(lib, e.cfg, names, e.call, e.keys, e.freshAt, proof, id);
  }

  /** Event i was accepted over its own content and recorded this key until this expiry; through the caller check, for one agent within its pins. */
  ghost predicate RecordedBy(lib: CallerLib, maxEntries: nat, events: seq<Event>, names: seq<seq<string>>,
                             i: nat, key: string, exp: Time)
    requires |names| == |events|
  {
    && i < |events| && Accepted(lib, maxEntries, events, i)
    && OpOf(lib, events[i]) == CheckOp(key, exp, events[i].commitAt)
    && !events[i].Tick? && OverItsContent(lib, events[i])
    && (events[i].ViaCaller? ==> ForOneAgent(lib, names[i], events[i]))
  }

  /** The pins of each caller check come from a list of names of its own. */
  ghost predicate PinnedBy(lib: CallerLib, events: seq<Event>, names: seq<seq<string>>) {
    && |names| == |events|
    && forall i | 0 <= i < |events| && events[i].ViaCaller? :: events[i].cfg.allowed == Canonicals(Pins(lib.fold, names[i]))
  }

  /** Every key held was recorded by an accepted request; a request through the caller check, for one vouched agent. */
  lemma HeldKeysAreVouched(lib: CallerLib, maxEntries: nat, events: seq<Event>, names: seq<seq<string>>, key: string)
    requires InClockOrder(events) && PinnedBy(lib, events, names) && key in After(lib, maxEntries, events)
    ensures exists i: nat :: RecordedBy(lib, maxEntries, events, names, i, key, After(lib, maxEntries, events)[key])
  {
    var ops := Ops(lib, events);
    var answers := Answers(maxEntries, ops);
    var exp := After(lib, maxEntries, events)[key];
    RunIsOperations(lib, maxEntries, events);
    RunClock(lib, events);
    RunRemembers(maxEntries, ops, if events == [] then 0 else events[|events| - 1].commitAt);
    HistoryIsWhatWasRecorded(ops, answers, (key, exp));
    var i: nat :| RecordedAt(ops, answers, i) && (key, exp) == (ops[i].key, ops[i].exp);
    AcceptedIffRecorded(lib, maxEntries, events, i);
    BroughtIffCheck(lib, events[i]);
    BroughtIsOverItsContent(lib, events[i]);
    if events[i].ViaCaller? {
      BroughtByCallerIsOneAgent(lib, events[i], names[i]);
    }
    assert RecordedBy(lib, maxEntries, events, names, i, key, exp);
  }

  // ----- How many generations the slots span -----

  ghost predicate NonNegative(events: seq<Event>) {
    forall e | e in events :: e.commitAt >= 0 && (!e.Tick? ==> e.freshAt >= 0)
  }

  /** The freshness check bounds every expiry: at most two of the largest skew and the grace past the commit. */
  lemma OpsRetain(lib: CallerLib, events: seq<Event>, lo: Time, hi: nat, lag: int)
    requires IsRun(events, lo, hi, lag) && NonNegative(events)
    ensures Retains(Ops(lib, events), 2 * hi + REPLAY_GRACE)
  {
    var ops := Ops(lib, events);
    RunClock(lib, events);
    forall i | 0 <= i < |ops|
      ensures ops[i].now >= 0 && (ops[i].CheckOp? ==> 0 <= ops[i].exp <= ops[i].now + 2 * hi + REPLAY_GRACE)
    {
      assert events[i] in events;
      if ops[i].CheckOp? {
        CheckWindow(lib, events[i]);
      }
    }
  }

  lemma DefaultRetention()
    ensures CeilDiv(2 * DEFAULT_POP_SKEW + REPLAY_GRACE, BUCKET_WIDTH) == 49
  {
  }

  /** After every event of a run at non-negative times, at most one generation per bucket width of retention, plus one. */
  lemma GenerationsOfRun(lib: CallerLib, maxEntries: nat, events: seq<Event>, lo: Time, hi: nat)
    requires IsRun(events, lo, hi, REPLAY_GRACE) && NonNegative(events)
    ensures |Generations(After(lib, maxEntries, events))| <= CeilDiv(2 * hi + REPLAY_GRACE, BUCKET_WIDTH) + 1
    ensures hi == DEFAULT_POP_SKEW ==> |Generations(After(lib, maxEntries, events))| <= 50
  {
    var ops := Ops(lib, events);
    RunIsOperations(lib, maxEntries, events);
    OpsRetain(lib, events, lo, hi, REPLAY_GRACE);
    forall i | 0 <= i < |ops| && ops[i].CheckOp? ensures ops[i].now < ops[i].exp {
      assert events[i] in events;
      CheckWindow(lib, events[i]);
    }
    GenerationsOfOps(maxEntries, ops, 2 * hi + REPLAY_GRACE);
    DefaultRetention();
  }
}
