/**
 verify/scitt/supplier.go: the supplier as a class, and CurrentHeaders, RefreshNow and the auto-refresh
 loop as interleaved steps at the lock boundaries.
 */
module HeaderSupplier {
  import opened Prelude
  import opened Steps

  /** Unix seconds. */
  type Time = int

  datatype Failure = ReceiptFetch | TokenFetch | ReceiptVerify | TokenVerify

  /** A receipt and a status token from one fetch, both verified, with the token's expiry. */
  datatype Artifacts = Artifacts(receipt: Bytes, token: Bytes, exp: Time)

  /** The fields guarded by mu. */
  datatype Shared = Shared(
    receipt: Option<Bytes>, token: Option<Bytes>, tokenExp: Option<Time>, initialized: bool, lastError: Option<Failure>)

  const FRESH: Shared := Shared(None, None, None, false, None)

  function Publish(sh: Shared, a: Artifacts): Shared {
    sh.(receipt := Some(a.receipt), token := Some(a.token), tokenExp := Some(a.exp), lastError := None)
  }

  /** What CurrentHeaders hands out. */
  datatype Headers = Headers(receipt: Option<Bytes>, token: Option<Bytes>)

  /** The guard before emission: a token whose expiry has been reached is withheld. */
  function Guarded(receipt: Option<Bytes>, token: Option<Bytes>, tokenExp: Option<Time>, now: Time): Headers {
    Headers(receipt, if token.Some? && tokenExp.Some? && now >= tokenExp.value then None else token)
  }

  /** What a fetch that is not disturbed leaves. */
  function FetchedAlone(sh: Shared, fetched: Result<Artifacts, Failure>): Shared {
    if fetched.Ok? then Publish(sh, fetched.value) else sh.(lastError := Some(fetched.error))
  }

  /** What an initialization that is not disturbed leaves. */
  function InitializedAlone(sh: Shared, fetched: Result<Artifacts, Failure>): Shared {
    if sh.initialized then sh
    else if fetched.Ok? then Publish(sh, fetched.value).(initialized := true)
    else sh.(lastError := Some(fetched.error))
  }

  /** What a turn of the refresh loop that is not disturbed leaves. */
  function TickedAlone(sh: Shared, fetched: Result<Artifacts, Failure>): Shared {
    if fetched.Ok? then Publish(sh, fetched.value).(initialized := true) else sh.(lastError := Some(fetched.error))
  }

  class Supplier {
    var receipt: Option<Bytes>
    var statusToken: Option<Bytes>
    var tokenExp: Option<Time>
    var initialized: bool
    var lastError: Option<Failure>

    function State(): Shared
      reads this
    {
      Shared(receipt, statusToken, tokenExp, initialized, lastError)
    }

    /** Receipt, token and expiry are all absent or all present, and present once initialized. */
    ghost predicate Valid()
      reads this
    {
      && (receipt.Some? <==> statusToken.Some?)
      && (receipt.Some? <==> tokenExp.Some?)
      && (initialized ==> receipt.Some?)
    }

    constructor ()
      ensures Valid() && State() == FRESH
    {
      receipt, statusToken, tokenExp, initialized, lastError := None, None, None, false, None;
    }

    method FetchAndVerify(fetched: Result<Artifacts, Failure>) returns (ok: bool)
      requires Valid()
      modifies this
      ensures Valid() && ok == fetched.Ok?
      ensures State() == FetchedAlone(old(State()), fetched)
    {
      if fetched.Err? {
        lastError := Some(fetched.error);
        return false;
      }
      receipt, statusToken, tokenExp := Some(fetched.value.receipt), Some(fetched.value.token), Some(fetched.value.exp);
      lastError := None;
      return true;
    }

    /** Lazy initialization; a failure leaves it to be retried. */
    method InitOnce(fetched: Result<Artifacts, Failure>)
      requires Valid()
      modifies this
      ensures Valid()
      ensures State() == InitializedAlone(old(State()), fetched)
    {
      if initialized {
        return;
      }
      var ok := FetchAndVerify(fetched);
      if ok {
        initialized, lastError := true, None;
      } else {
        lastError := Some(fetched.error);
      }
    }

    /** One turn of the refresh loop, which initializes the supplier too. */
    method AutoRefresh(fetched: Result<Artifacts, Failure>)
      requires Valid()
      modifies this
      ensures Valid()
      ensures State() == TickedAlone(old(State()), fetched)
    {
      var ok := FetchAndVerify(fetched);
      if ok {
        initialized := true;
      }
    }

    /** The headers come from one published pair, the token only while its expiry lies ahead of the clock read. */
    method CurrentHeaders(fetched: Result<Artifacts, Failure>, now: Time) returns (h: Headers)
      requires Valid()
      modifies this
      ensures Valid() && State() == InitializedAlone(old(State()), fetched)
      ensures h.receipt == receipt
      ensures h.token == if tokenExp.Some? && now < tokenExp.value then statusToken else None
    {
      if !initialized {
        InitOnce(fetched);
      }
      h := Guarded(receipt, statusToken, tokenExp, now);
    }
  }

  // ----- Interleavings -----

  type Tid = nat

  /** On whose behalf a fetch runs: lazy initialization (holding initGate), RefreshNow, or the refresh loop. */
  datatype Kind = Init | Manual | Auto

  datatype Pc =
    | Idle
    | WantInit
    | GateHeld
    | FetchingReceipt(kind: Kind)
    | FetchingToken(kind: Kind, r: Bytes)
    | CheckingReceipt(kind: Kind, r: Bytes, t: Bytes)
    | CheckingToken(kind: Kind, r: Bytes, t: Bytes)
    | Publishing(kind: Kind, a: Artifacts)
    | Failing(kind: Kind, why: Failure)
    | FailingInit(why: Failure)         // recorded once already, by the fetch itself
    | MarkInitialized(kind: Kind)
    | Unlocking
    | ReadAgain
    | Emitting(receipt: Option<Bytes>, token: Option<Bytes>, tokenExp: Option<Time>)

  /** One return of CurrentHeaders: the snapshot it used, the clock read that guarded it, the result. */
  datatype Emission = Emission(receipt: Option<Bytes>, token: Option<Bytes>, tokenExp: Option<Time>, now: Time, headers: Headers)

  /** receiptsOk and tokensOk record the verdicts given, log the fetches published, out the headers emitted. */
  datatype System = System(
    sh: Shared, gate: Option<Tid>, pcs: map<Tid, Pc>, receiptsOk: set<Bytes>, tokensOk: set<(Bytes, Time)>,
    log: seq<Artifacts>, out: seq<Emission>)

  datatype Action =
    | Call | Refresh(kind: Kind) | Acquire | Recheck
    | ReceiptArrives(bytes: Bytes) | TokenArrives(bytes: Bytes) | FetchFails
    | ReceiptVerdict(ok: bool) | TokenVerdict(exp: Option<Time>)
    | Store | Record | Mark | Unlock | Read | Emit(now: Time)

  function At(s: System, t: Tid): Pc {
    if t in s.pcs then s.pcs[t] else Idle
  }

  function Goto(s: System, t: Tid, pc: Pc): System {
    s.(pcs := s.pcs[t := pc])
  }

  function Snapshot(sh: Shared): Pc {
    Emitting(sh.receipt, sh.token, sh.tokenExp)
  }

  function Step(s: System, t: Tid, a: Action): Option<System> {
    match (At(s, t), a)
    case (Idle, Call) => Some(Goto(s, t, if s.sh.initialized then Snapshot(s.sh) else WantInit))
    case (Idle, Refresh(kind)) => if kind.Init? then None else Some(Goto(s, t, FetchingReceipt(kind)))
    case (WantInit, Acquire) => if s.gate.Some? then None else Some(Goto(s, t, GateHeld).(gate := Some(t)))
    case (GateHeld, Recheck) => Some(Goto(s, t, if s.sh.initialized then Unlocking else FetchingReceipt(Init)))
    case (FetchingReceipt(kind), ReceiptArrives(bytes)) => Some(Goto(s, t, FetchingToken(kind, bytes)))
    case (FetchingReceipt(kind), FetchFails) => Some(Goto(s, t, Failing(kind, ReceiptFetch)))
    case (FetchingToken(kind, r), TokenArrives(bytes)) => Some(Goto(s, t, CheckingReceipt(kind, r, bytes)))
    case (FetchingToken(kind, r), FetchFails) => Some(Goto(s, t, Failing(kind, TokenFetch)))
    case (CheckingReceipt(kind, r, tok), ReceiptVerdict(ok)) =>
      Some(if ok then Goto(s, t, CheckingToken(kind, r, tok)).(receiptsOk := s.receiptsOk + {r})
           else Goto(s, t, Failing(kind, ReceiptVerify)))
    case (CheckingToken(kind, r, tok), TokenVerdict(exp)) =>
      Some(if exp.Some? then Goto(s, t, Publishing(kind, Artifacts(r, tok, exp.value))).(tokensOk := s.tokensOk + {(tok, exp.value)})
           else Goto(s, t, Failing(kind, TokenVerify)))
    case (Publishing(kind, art), Store) =>
      Some(Goto(s, t, if kind.Manual? then Idle else MarkInitialized(kind)).(sh := Publish(s.sh, art), log := s.log + [art]))
    case (Failing(kind, why), Record) =>
      Some(Goto(s, t, if kind.Init? then FailingInit(why) else Idle).(sh := s.sh.(lastError := Some(why))))
    case (FailingInit(why), Record) => Some(Goto(s, t, Unlocking).(sh := s.sh.(lastError := Some(why))))
    case (MarkInitialized(kind), Mark) =>
      Some(Goto(s, t, if kind.Init? then Unlocking else Idle).(
        sh := s.sh.(initialized := true, lastError := if kind.Init? then None else s.sh.lastError)))
    case (Unlocking, Unlock) => Some(Goto(s, t, ReadAgain).(gate := None))
    case (ReadAgain, Read) => Some(Goto(s, t, Snapshot(s.sh)))
    case (Emitting(receipt, token, tokenExp), Emit(now)) =>
      Some(Goto(s, t, Idle).(out := s.out + [Emission(receipt, token, tokenExp, now, Guarded(receipt, token, tokenExp, now))]))
    case _ => None
  }

  ghost predicate Follows(s: System, s': System) {
    exists t: Tid, a :: Step(s, t, a) == Some(s')
  }

  ghost predicate IsRun(run: seq<System>) {
    && |run| > 0 && run[0] == System(FRESH, None, map[], {}, {}, [], [])
    && forall i | 0 < i < |run| :: Follows(run[i - 1], run[i])
  }

  /** All absent, or all from one published fetch. */
  ghost predicate FromOneFetch(log: seq<Artifacts>, receipt: Option<Bytes>, token: Option<Bytes>, tokenExp: Option<Time>) {
    || (receipt.None? && token.None? && tokenExp.None?)
    || exists a | a in log :: receipt == Some(a.receipt) && token == Some(a.token) && tokenExp == Some(a.exp)
  }

  ghost predicate LocalOk(s: System, pc: Pc) {
    && (pc.CheckingToken? ==> pc.r in s.receiptsOk)
    && (pc.Publishing? ==> pc.a.receipt in s.receiptsOk && (pc.a.token, pc.a.exp) in s.tokensOk)
    && (pc.MarkInitialized? ==> s.sh.receipt.Some?)
    && (pc.Emitting? ==> FromOneFetch(s.log, pc.receipt, pc.token, pc.tokenExp))
  }

  ghost predicate SharedOk(s: System) {
    && FromOneFetch(s.log, s.sh.receipt, s.sh.token, s.sh.tokenExp)
    && (s.sh.initialized ==> s.sh.receipt.Some?)
    && (forall a | a in s.log :: a.receipt in s.receiptsOk && (a.token, a.exp) in s.tokensOk)
  }

  /** An emitted receipt and token were published together, and the token was not expired at the guarding read. */
  ghost predicate EmissionOk(log: seq<Artifacts>, e: Emission) {
    && FromOneFetch(log, e.receipt, e.token, e.tokenExp)
    && e.headers.receipt == e.receipt
    && (e.headers.token.Some? ==> e.headers.token == e.token && e.tokenExp.Some? && e.now < e.tokenExp.value)
    && (e.headers.token.None? ==> e.token.None? || (e.tokenExp.Some? && e.now >= e.tokenExp.value))
  }

  ghost predicate Inv(s: System) {
    && SharedOk(s)
    && (forall t: Tid :: LocalOk(s, At(s, t)))
    && (forall i | 0 <= i < |s.out| :: EmissionOk(s.log, s.out[i]))
  }

  lemma LogGrows(log: seq<Artifacts>, more: seq<Artifacts>, receipt: Option<Bytes>, token: Option<Bytes>, tokenExp: Option<Time>)
    requires FromOneFetch(log, receipt, token, tokenExp)
    ensures FromOneFetch(log + more, receipt, token, tokenExp)
  {
  }

  lemma StepGrows(s: System, t: Tid, a: Action, s': System)
    requires Step(s, t, a) == Some(s')
    ensures exists more :: s'.log == s.log + more
    ensures s.receiptsOk <= s'.receiptsOk && s.tokensOk <= s'.tokensOk
    ensures s.sh.receipt.Some? ==> s'.sh.receipt.Some?
    ensures forall u: Tid | u != t :: At(s', u) == At(s, u)
  {
    if s'.log == s.log {
      assert s'.log == s.log + [];
    }
  }

  lemma SharedStep(s: System, t: Tid, a: Action, s': System)
    requires SharedOk(s) && LocalOk(s, At(s, t)) && Step(s, t, a) == Some(s')
    ensures SharedOk(s')
  {
    if At(s, t).Publishing? {
      assert At(s, t).a in s'.log;
    }
  }

  lemma MoverStep(s: System, t: Tid, a: Action, s': System)
    requires SharedOk(s) && LocalOk(s, At(s, t)) && Step(s, t, a) == Some(s')
    ensures LocalOk(s', At(s', t))
  {
  }

  lemma InvStep(s: System, t: Tid, a: Action, s': System)
    requires Inv(s) && Step(s, t, a) == Some(s')
    ensures Inv(s')
  {
    assert LocalOk(s, At(s, t));
    StepGrows(s, t, a, s');
    var more :| s'.log == s.log + more;
    SharedStep(s, t, a, s');
    forall u: Tid ensures LocalOk(s', At(s', u)) {
      assert LocalOk(s, At(s, u));
      if u == t {
        MoverStep(s, t, a, s');
      } else if At(s, u).Emitting? {
        LogGrows(s.log, more, At(s, u).receipt, At(s, u).token, At(s, u).tokenExp);
      }
    }
    forall i | 0 <= i < |s'.out| ensures EmissionOk(s'.log, s'.out[i]) {
      if i < |s.out| {
        assert s'.out[i] == s.out[i];
        LogGrows(s.log, more, s.out[i].receipt, s.out[i].token, s.out[i].tokenExp);
      }
    }
  }

  /** The supplier publishes consistent pairs, in every interleaving. */
  lemma {:induction false} RunPublishesConsistentPairs(run: seq<System>, n: nat)
    requires IsRun(run) && n < |run|
    ensures Inv(run[n])
  {
    if n != 0 {
      RunPublishesConsistentPairs(run, n - 1);
      var t: Tid, a :| Step(run[n - 1], t, a) == Some(run[n]);
      InvStep(run[n - 1], t, a, run[n]);
    }
  }

  /**
   Whatever CurrentHeaders emits in any run: both headers stem from one fetch whose receipt and token were
   verified, and an emitted token expires later than the clock read that guards it.
   */
  lemma EmittedHeadersAreConsistent(run: seq<System>, n: nat, i: nat)
    requires IsRun(run) && n < |run| && i < |run[n].out|
    ensures var s, e := run[n], run[n].out[i];
      && (e.headers.token.Some? ==> exists a | a in s.log ::
            && e.headers == Headers(Some(a.receipt), Some(a.token)) && e.now < a.exp
            && a.receipt in s.receiptsOk && (a.token, a.exp) in s.tokensOk)
      && (e.headers.receipt.Some? ==> exists a | a in s.log ::
            e.headers.receipt == Some(a.receipt) && a.receipt in s.receiptsOk && (e.headers.token.None? ==> a.exp <= e.now))
  {
    RunPublishesConsistentPairs(run, n);
    var s, e := run[n], run[n].out[i];
    assert EmissionOk(s.log, e);
  }

  /** Only publication changes the artifacts: no failed fetch and no other step touches any of the three. */
  lemma OnlyPublicationChangesArtifacts(s: System, t: Tid, a: Action, s': System)
    requires Step(s, t, a) == Some(s')
    ensures (s'.sh.receipt, s'.sh.token, s'.sh.tokenExp) != (s.sh.receipt, s.sh.token, s.sh.tokenExp)
      ==> At(s, t).Publishing? && s'.sh == Publish(s.sh, At(s, t).a)
    ensures At(s, t).Failing? ==> s'.sh == s.sh.(lastError := Some(At(s, t).why))
  {
  }

  lemma LogOnlyGrows(s: System, t: Tid, a: Action, s': System)
    requires Step(s, t, a) == Some(s')
    ensures |s'.log| >= |s.log|
    ensures |s'.log| == |s.log| ==> (s'.sh.receipt, s'.sh.token, s'.sh.tokenExp) == (s.sh.receipt, s.sh.token, s.sh.tokenExp)
  {
    OnlyPublicationChangesArtifacts(s, t, a, s');
  }

  /** Between two publications the artifacts stand, whatever fetches fail meanwhile. */
  lemma {:induction false} ArtifactsStandUntilPublished(run: seq<System>, m: nat, n: nat)
    requires IsRun(run) && m <= n < |run|
    ensures |run[m].log| <= |run[n].log|
    ensures |run[m].log| == |run[n].log| ==>
      (run[m].sh.receipt, run[m].sh.token, run[m].sh.tokenExp) == (run[n].sh.receipt, run[n].sh.token, run[n].sh.tokenExp)
  {
    if m < n {
      ArtifactsStandUntilPublished(run, m, n - 1);
      var t: Tid, a :| Step(run[n - 1], t, a) == Some(run[n]);
      LogOnlyGrows(run[n - 1], t, a, run[n]);
    }
  }

  // ----- Lazy initialization happens once -----

  /** In the middle of a lazy initialization. */
  predicate InInit(pc: Pc) {
    match pc
    case FetchingReceipt(kind) => kind.Init?
    case FetchingToken(kind, _) => kind.Init?
    case CheckingReceipt(kind, _, _) => kind.Init?
    case CheckingToken(kind, _, _) => kind.Init?
    case Publishing(kind, _) => kind.Init?
    case Failing(kind, _) => kind.Init?
    case MarkInitialized(kind) => kind.Init?
    case FailingInit(_) => true
    case _ => false
  }

  predicate InGate(pc: Pc) {
    pc.GateHeld? || pc.Unlocking? || InInit(pc)
  }

  ghost predicate GateExclusive(s: System) {
    forall t: Tid :: InGate(At(s, t)) <==> s.gate == Some(t)
  }

  lemma GateStep(s: System, t: Tid, a: Action, s': System)
    requires GateExclusive(s) && Step(s, t, a) == Some(s')
    ensures GateExclusive(s')
  {
    forall u: Tid ensures InGate(At(s', u)) <==> s'.gate == Some(u) {
      assert InGate(At(s, u)) <==> s.gate == Some(u);
      assert InGate(At(s, t)) <==> s.gate == Some(t);
      assert u != t ==> At(s', u) == At(s, u);
    }
  }

  /** No two goroutines are ever inside the gate, in any interleaving. */
  lemma {:induction false} GateIsExclusive(run: seq<System>, n: nat)
    requires IsRun(run) && n < |run|
    ensures GateExclusive(run[n])
  {
    if n != 0 {
      GateIsExclusive(run, n - 1);
      var t: Tid, a :| Step(run[n - 1], t, a) == Some(run[n]);
      GateStep(run[n - 1], t, a, run[n]);
    }
  }

  /** Initialized for good: nobody is initializing, and nobody will. */
  ghost predicate InitializedForGood(s: System) {
    s.sh.initialized && forall t: Tid :: !InInit(At(s, t))
  }

  lemma ForGoodStep(s: System, t: Tid, a: Action, s': System)
    requires InitializedForGood(s) && Step(s, t, a) == Some(s')
    ensures InitializedForGood(s')
  {
    assert !InInit(At(s, t));
    forall u: Tid ensures !InInit(At(s', u)) {
      assert !InInit(At(s, u));
      assert u != t ==> At(s', u) == At(s, u);
    }
  }

  /** The step from this state of the run completes a lazy initialization. */
  ghost predicate CompletesInit(run: seq<System>, n: nat) {
    n + 1 < |run| && exists t: Tid :: At(run[n], t) == MarkInitialized(Init) && Step(run[n], t, Mark) == Some(run[n + 1])
  }

  lemma CompletedIsForGood(run: seq<System>, n: nat)
    requires IsRun(run) && CompletesInit(run, n)
    ensures InitializedForGood(run[n + 1])
  {
    GateIsExclusive(run, n);
    var t: Tid :| At(run[n], t) == MarkInitialized(Init) && Step(run[n], t, Mark) == Some(run[n + 1]);
    var before, after := run[n], run[n + 1];
    forall u: Tid ensures !InInit(At(after, u)) {
      assert InGate(At(before, t)) && (InGate(At(before, u)) <==> before.gate == Some(u));
      assert u != t ==> At(after, u) == At(before, u);
    }
  }

  /** Initialized, and no error since the last success. */
  predicate Healthy(sh: Shared) {
    sh.initialized && sh.lastError.None?
  }

  /** A lazy initialization leaves the supplier healthy; a turn of the loop initializes it but keeps what was recorded meanwhile. */
  lemma CompletedIsHealthy(s: System, t: Tid, s': System)
    requires At(s, t).MarkInitialized? && Step(s, t, Mark) == Some(s')
    ensures At(s, t).kind.Init? ==> Healthy(s'.sh)
    ensures !At(s, t).kind.Init? ==> s'.sh == s.sh.(initialized := true)
  {
  }

  lemma {:induction false} StaysForGood(run: seq<System>, m: nat, n: nat)
    requires IsRun(run) && m <= n < |run| && InitializedForGood(run[m])
    ensures InitializedForGood(run[n])
    decreases n
  {
    if m < n {
      StaysForGood(run, m, n - 1);
      var t: Tid, a :| Step(run[n - 1], t, a) == Some(run[n]);
      ForGoodStep(run[n - 1], t, a, run[n]);
    }
  }

  /** However calls, refreshes and the refresh loop interleave, at most one lazy initialization ever completes. */
  lemma InitializationHappensOnce(run: seq<System>, m: nat, n: nat)
    requires IsRun(run) && CompletesInit(run, m) && CompletesInit(run, n)
    ensures m == n
  {
    var first, second := Min(m, n), Max(m, n);
    if first < second {
      CompletedIsForGood(run, first);
      StaysForGood(run, first + 1, second);
      var t: Tid :| At(run[second], t) == MarkInitialized(Init);
      assert InInit(At(run[second], t));
    }
  }

  // ----- The methods are the machine's undisturbed runs -----

  /** Goroutine t as the only one that moves. */
  function Mover(t: Tid): (System, Action) -> Option<System> {
    (s, a) => Step(s, t, a)
  }

  /** The way of a fetch up to its publication or the record of its failure. */
  function FetchActions(fetched: Result<Artifacts, Failure>): seq<Action> {
    match fetched
    case Ok(a) =>
      [ReceiptArrives(a.receipt)] + [TokenArrives(a.token)] + [ReceiptVerdict(true)] + [TokenVerdict(Some(a.exp))] + [Store]
    case Err(ReceiptFetch) => [FetchFails] + [Record]
    case Err(TokenFetch) => [ReceiptArrives([])] + [FetchFails] + [Record]
    case Err(ReceiptVerify) => [ReceiptArrives([])] + [TokenArrives([])] + [ReceiptVerdict(false)] + [Record]
    case Err(TokenVerify) =>
      [ReceiptArrives([])] + [TokenArrives([])] + [ReceiptVerdict(true)] + ([TokenVerdict(None)] + [Record])
  }

  /** Where a goroutine stands after that. */
  function AfterFetch(kind: Kind, fetched: Result<Artifacts, Failure>): Pc {
    if fetched.Ok? then (if kind.Manual? then Idle else MarkInitialized(kind))
    else if kind.Init? then FailingInit(fetched.error)
    else Idle
  }

  lemma ArrivalsAlone(s: System, t: Tid, kind: Kind, r: Bytes, tok: Bytes)
    requires At(s, t) == FetchingReceipt(kind)
    ensures var s' := Alone(Mover(t), s, [ReceiptArrives(r)] + [TokenArrives(tok)]);
      s'.Some? && At(s'.value, t) == CheckingReceipt(kind, r, tok) && (s'.value.sh, s'.value.gate, s'.value.out) == (s.sh, s.gate, s.out)
  {
    AloneOne(Mover(t), s, ReceiptArrives(r));
    AloneMore(Mover(t), s, [ReceiptArrives(r)], TokenArrives(tok));
  }

  lemma ReceiptPassesAlone(s: System, t: Tid, kind: Kind, r: Bytes, tok: Bytes)
    requires At(s, t) == FetchingReceipt(kind)
    ensures var s' := Alone(Mover(t), s, [ReceiptArrives(r)] + [TokenArrives(tok)] + [ReceiptVerdict(true)]);
      s'.Some? && At(s'.value, t) == CheckingToken(kind, r, tok) && (s'.value.sh, s'.value.gate, s'.value.out) == (s.sh, s.gate, s.out)
  {
    ArrivalsAlone(s, t, kind, r, tok);
    AloneMore(Mover(t), s, [ReceiptArrives(r)] + [TokenArrives(tok)], ReceiptVerdict(true));
  }

  lemma PublishAlone(s: System, t: Tid, kind: Kind, a: Artifacts)
    requires At(s, t) == FetchingReceipt(kind)
    ensures FetchedTo(s, t, kind, Ok(a))
  {
    var step, passed := Mover(t), [ReceiptArrives(a.receipt)] + [TokenArrives(a.token)] + [ReceiptVerdict(true)];
    ReceiptPassesAlone(s, t, kind, a.receipt, a.token);
    AloneMore(step, s, passed, TokenVerdict(Some(a.exp)));
    AloneMore(step, s, passed + [TokenVerdict(Some(a.exp))], Store);
  }

  lemma ReceiptMissingAlone(s: System, t: Tid, kind: Kind)
    requires At(s, t) == FetchingReceipt(kind)
    ensures FetchedTo(s, t, kind, Err(ReceiptFetch))
  {
    AloneOne(Mover(t), s, FetchFails);
    AloneMore(Mover(t), s, [FetchFails], Record);
  }

  lemma TokenMissingAlone(s: System, t: Tid, kind: Kind)
    requires At(s, t) == FetchingReceipt(kind)
    ensures FetchedTo(s, t, kind, Err(TokenFetch))
  {
    AloneOne(Mover(t), s, ReceiptArrives([]));
    AloneMore(Mover(t), s, [ReceiptArrives([])], FetchFails);
    AloneMore(Mover(t), s, [ReceiptArrives([])] + [FetchFails], Record);
  }

  lemma ReceiptRefusedAlone(s: System, t: Tid, kind: Kind)
    requires At(s, t) == FetchingReceipt(kind)
    ensures FetchedTo(s, t, kind, Err(ReceiptVerify))
  {
    var step, arrivals := Mover(t), [ReceiptArrives([])] + [TokenArrives([])];
    ArrivalsAlone(s, t, kind, [], []);
    AloneMore(step, s, arrivals, ReceiptVerdict(false));
    AloneMore(step, s, arrivals + [ReceiptVerdict(false)], Record);
  }

  lemma RefusalAlone(s: System, t: Tid, kind: Kind, r: Bytes, tok: Bytes)
    requires At(s, t) == CheckingToken(kind, r, tok)
    ensures var s' := Alone(Mover(t), s, [TokenVerdict(None)] + [Record]);
      && s'.Some? && s'.value.sh == FetchedAlone(s.sh, Err(TokenVerify)) && (s'.value.gate, s'.value.out) == (s.gate, s.out)
      && At(s'.value, t) == AfterFetch(kind, Err(TokenVerify))
  {
    AloneOne(Mover(t), s, TokenVerdict(None));
    AloneMore(Mover(t), s, [TokenVerdict(None)], Record);
  }

  lemma TokenRefusedAlone(s: System, t: Tid, kind: Kind)
    requires At(s, t) == FetchingReceipt(kind)
    ensures FetchedTo(s, t, kind, Err(TokenVerify))
  {
    var step, passed := Mover(t), [ReceiptArrives([])] + [TokenArrives([])] + [ReceiptVerdict(true)];
    ReceiptPassesAlone(s, t, kind, [], []);
    RefusalAlone(Alone(step, s, passed).value, t, kind, [], []);
    AloneThen(step, s, passed, [TokenVerdict(None)] + [Record]);
  }

  /** Alone, a fetch of this kind ends as it should. */
  ghost predicate FetchedTo(s: System, t: Tid, kind: Kind, fetched: Result<Artifacts, Failure>) {
    var s' := Alone(Mover(t), s, FetchActions(fetched));
    && s'.Some? && s'.value.sh == FetchedAlone(s.sh, fetched) && (s'.value.gate, s'.value.out) == (s.gate, s.out)
    && At(s'.value, t) == AfterFetch(kind, fetched)
  }

  lemma FetchAlone(s: System, t: Tid, kind: Kind, fetched: Result<Artifacts, Failure>)
    requires At(s, t) == FetchingReceipt(kind)
    ensures FetchedTo(s, t, kind, fetched)
  {
    match fetched
    case Ok(a) => PublishAlone(s, t, kind, a);
    case Err(ReceiptFetch) => ReceiptMissingAlone(s, t, kind);
    case Err(TokenFetch) => TokenMissingAlone(s, t, kind);
    case Err(ReceiptVerify) => ReceiptRefusedAlone(s, t, kind);
    case Err(TokenVerify) => TokenRefusedAlone(s, t, kind);
  }

  /** A RefreshNow that nobody disturbs leaves what FetchAndVerify leaves, from every state. */
  lemma RefreshIsFetchAndVerify(s: System, t: Tid, fetched: Result<Artifacts, Failure>)
    requires At(s, t).Idle?
    ensures var s' := Alone(Mover(t), s, [Refresh(Manual)] + FetchActions(fetched));
      s'.Some? && At(s'.value, t).Idle? && s'.value.sh == FetchedAlone(s.sh, fetched)
  {
    AloneOne(Mover(t), s, Refresh(Manual));
    AloneThen(Mover(t), s, [Refresh(Manual)], FetchActions(fetched));
    FetchAlone(Step(s, t, Refresh(Manual)).value, t, Manual, fetched);
  }

  /** The way of a lazy initialization inside the gate, and out of it to the emission. */
  function GateActions(): seq<Action> {
    [Call] + [Acquire] + [Recheck]
  }

  function InitActions(fetched: Result<Artifacts, Failure>): seq<Action> {
    GateActions() + FetchActions(fetched) + [MarkOrRecord(fetched)]
  }

  function EmitActions(now: Time): seq<Action> {
    [Unlock] + [Read] + [Emit(now)]
  }

  /** The way of one CurrentHeaders call when nobody else moves. */
  function CallActions(initialized: bool, fetched: Result<Artifacts, Failure>, now: Time): seq<Action> {
    if initialized then [Call] + [Emit(now)] else InitActions(fetched) + EmitActions(now)
  }

  lemma GateAlone(s: System, t: Tid)
    requires At(s, t).Idle? && s.gate.None? && !s.sh.initialized
    ensures var s' := Alone(Mover(t), s, GateActions());
      && s'.Some? && At(s'.value, t) == FetchingReceipt(Init) && (s'.value.sh, s'.value.out) == (s.sh, s.out)
  {
    AloneOne(Mover(t), s, Call);
    AloneMore(Mover(t), s, [Call], Acquire);
    AloneMore(Mover(t), s, [Call] + [Acquire], Recheck);
  }

  function MarkOrRecord(fetched: Result<Artifacts, Failure>): Action {
    if fetched.Ok? then Mark else Record
  }

  lemma MarkAlone(s: System, t: Tid, fetched: Result<Artifacts, Failure>, sh: Shared)
    requires At(s, t) == AfterFetch(Init, fetched) && s.sh == FetchedAlone(sh, fetched) && !sh.initialized
    ensures var s' := Step(s, t, MarkOrRecord(fetched));
      s'.Some? && At(s'.value, t).Unlocking? && s'.value.out == s.out && s'.value.sh == InitializedAlone(sh, fetched)
  {
  }

  lemma InitAlone(s: System, t: Tid, fetched: Result<Artifacts, Failure>)
    requires At(s, t).Idle? && s.gate.None? && !s.sh.initialized
    ensures var s' := Alone(Mover(t), s, InitActions(fetched));
      s'.Some? && At(s'.value, t).Unlocking? && s'.value.out == s.out && s'.value.sh == InitializedAlone(s.sh, fetched)
  {
    var step, way := Mover(t), GateActions() + FetchActions(fetched);
    GateAlone(s, t);
    FetchAlone(Alone(step, s, GateActions()).value, t, Init, fetched);
    AloneThen(step, s, GateActions(), FetchActions(fetched));
    MarkAlone(Alone(step, s, way).value, t, fetched, s.sh);
    AloneMore(step, s, way, MarkOrRecord(fetched));
  }

  /** The last emission is this one, from the fields as they are. */
  ghost predicate Emitted(s: System, now: Time, before: seq<Emission>) {
    s.out == before + [Emission(s.sh.receipt, s.sh.token, s.sh.tokenExp, now, Guarded(s.sh.receipt, s.sh.token, s.sh.tokenExp, now))]
  }

  lemma EmitAlone(s: System, t: Tid, now: Time)
    requires At(s, t).Unlocking?
    ensures var s' := Alone(Mover(t), s, EmitActions(now));
      s'.Some? && At(s'.value, t).Idle? && s'.value.sh == s.sh && Emitted(s'.value, now, s.out)
  {
    AloneOne(Mover(t), s, Unlock);
    AloneMore(Mover(t), s, [Unlock], Read);
    AloneMore(Mover(t), s, [Unlock] + [Read], Emit(now));
  }

  /** A CurrentHeaders call that nobody disturbs leaves and emits what the method does, from every state with the gate free. */
  lemma CallIsCurrentHeaders(s: System, t: Tid, fetched: Result<Artifacts, Failure>, now: Time)
    requires At(s, t).Idle? && s.gate.None?
    ensures var s' := Alone(Mover(t), s, CallActions(s.sh.initialized, fetched, now));
      && s'.Some? && At(s'.value, t).Idle? && s'.value.sh == InitializedAlone(s.sh, fetched)
      && Emitted(s'.value, now, s.out)
  {
    if s.sh.initialized {
      AloneOne(Mover(t), s, Call);
      AloneMore(Mover(t), s, [Call], Emit(now));
    } else {
      InitAlone(s, t, fetched);
      EmitAlone(Alone(Mover(t), s, InitActions(fetched)).value, t, now);
      AloneThen(Mover(t), s, InitActions(fetched), EmitActions(now));
    }
  }

  /** A turn of the refresh loop that nobody disturbs leaves what AutoRefresh leaves, from every state. */
  lemma TickIsAutoRefresh(s: System, t: Tid, fetched: Result<Artifacts, Failure>)
    requires At(s, t).Idle?
    ensures var s' := Alone(Mover(t), s, [Refresh(Auto)] + FetchActions(fetched) + (if fetched.Ok? then [Mark] else []));
      s'.Some? && At(s'.value, t).Idle? && s'.value.sh == TickedAlone(s.sh, fetched) && s'.value.out == s.out
  {
    var step, way := Mover(t), [Refresh(Auto)] + FetchActions(fetched);
    AloneOne(step, s, Refresh(Auto));
    AloneThen(step, s, [Refresh(Auto)], FetchActions(fetched));
    FetchAlone(Step(s, t, Refresh(Auto)).value, t, Auto, fetched);
    if fetched.Ok? {
      AloneMore(step, s, way, Mark);
    } else {
      assert way + [] == way;
    }
  }

  // ----- And they are possible in every run -----

  lemma {:induction false} RunGoesOn(run: seq<System>, t: Tid, actions: seq<Action>) returns (longer: seq<System>)
    requires IsRun(run) && Alone(Mover(t), run[|run| - 1], actions).Some?
    ensures IsRun(longer) && Alone(Mover(t), run[|run| - 1], actions) == Some(longer[|longer| - 1])
    decreases |actions|
  {
    if actions == [] {
      longer := run;
    } else {
      var s' := Step(run[|run| - 1], t, actions[0]).value;
      assert Follows(run[|run| - 1], s');
      longer := RunGoesOn(run + [s'], t, actions[1..]);
    }
  }

  /**
   From every reachable state with the gate free an idle goroutine can call CurrentHeaders and get them: what is
   published, or when nothing was initialized what its fetch brings; the token whenever its expiry lies ahead.
   */
  lemma CallerGetsHeaders(run: seq<System>, t: Tid, fetched: Result<Artifacts, Failure>, now: Time) returns (longer: seq<System>)
    requires IsRun(run) && At(run[|run| - 1], t).Idle? && run[|run| - 1].gate.None?
    ensures IsRun(longer)
    ensures var s, s' := run[|run| - 1], longer[|longer| - 1];
      var sh := InitializedAlone(s.sh, fetched);
      && s'.sh == sh && |s'.out| == |s.out| + 1 && s'.out[..|s.out|] == s.out
      && s'.out[|s.out|].headers == Headers(sh.receipt, if sh.tokenExp.Some? && now < sh.tokenExp.value then sh.token else None)
  {
    var s := run[|run| - 1];
    CallIsCurrentHeaders(s, t, fetched, now);
    longer := RunGoesOn(run, t, CallActions(s.sh.initialized, fetched, now));
    RunPublishesConsistentPairs(longer, |longer| - 1);
  }

  /** In particular the first caller of all gets both headers of a successful fetch. */
  lemma FirstCallerGetsHeaders(t: Tid, a: Artifacts, now: Time) returns (run: seq<System>)
    requires now < a.exp
    ensures IsRun(run) && |run[|run| - 1].out| == 1
    ensures run[|run| - 1].out[0].headers == Headers(Some(a.receipt), Some(a.token))
  {
    run := CallerGetsHeaders([System(FRESH, None, map[], {}, {}, [], [])], t, Ok(a), now);
  }
}
