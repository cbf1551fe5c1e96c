/**
 verify/scitt/refreshable_key_store.go: the store as a class, and its concurrent use as a state machine
 whose atomic steps are the critical sections, the clock reads and the fetches of the source.
 */
module RefreshableKeyStore {
  import opened Prelude
  import opened RootKeys
  import opened Steps

  /** Clock instants and durations, in nanoseconds. */
  type Time = int

  datatype FetchError = FetchFailed

  type Fetched = Result<seq<string>, FetchError>

  /** The fields guarded by mu. */
  datatype Shared = Shared(snapshot: KeyMap, lastRefreshed: Option<Time>)

  predicate WithinCooldown(lastRefreshed: Option<Time>, now: Time, cooldown: Time) {
    lastRefreshed.Some? && now - lastRefreshed.value < cooldown
  }

  /** The write-locked section of DoRefresh. */
  function Commit(parse: KeyParser, sh: Shared, strings: seq<string>, now: Time): Shared {
    Shared(Merged(parse, sh.snapshot, strings).keys, Some(now))
  }

  /** What a direct refresh that is not disturbed returns and leaves. */
  function RefreshedAlone(parse: KeyParser, sh: Shared, fetched: Fetched, completedAt: Time): (Result<(), FetchError>, Shared) {
    match fetched
    case Err(error) => (Err(error), sh)
    case Ok(strings) => (Ok(()), Commit(parse, sh, strings, completedAt))
  }

  /** What an on-demand refresh that is not disturbed returns and leaves; true exactly when it refreshed. */
  function OnDemandAlone(parse: KeyParser, cooldown: Time, sh: Shared, quickRead: Time, recheck: Time,
                         fetched: Fetched, completedAt: Time): (Result<bool, FetchError>, Shared)
  {
    if WithinCooldown(sh.lastRefreshed, quickRead, cooldown) || WithinCooldown(sh.lastRefreshed, recheck, cooldown) then (Ok(false), sh)
    else
      var (r, after) := RefreshedAlone(parse, sh, fetched, completedAt);
      (if r.Err? then Err(r.error) else Ok(true), after)
  }

  /** Strictly less than the cooldown has gone by at this reading since the last refresh, if there was one. */
  predicate TooSoon(lastRefreshed: Option<Time>, reading: Time, cooldown: Time) {
    match lastRefreshed
    case None => false
    case Some(last) => reading < last + cooldown
  }

  /**
   When an on-demand refresh goes through: it is refused exactly when one of the two readings comes less than the
   cooldown after the last refresh, and otherwise the fetch decides. A refusal and a failure change nothing.
   */
  lemma OnDemandGoesThroughIff(parse: KeyParser, cooldown: Time, sh: Shared, quickRead: Time, recheck: Time, fetched: Fetched,
                               completedAt: Time)
    ensures var soon := TooSoon(sh.lastRefreshed, quickRead, cooldown) || TooSoon(sh.lastRefreshed, recheck, cooldown);
      var (r, after) := OnDemandAlone(parse, cooldown, sh, quickRead, recheck, fetched, completedAt);
      && (r == Ok(false) <==> soon)
      && (r == Ok(true) <==> !soon && fetched.Ok?)
      && (forall e :: r == Err(e) <==> !soon && fetched == Err(e))
      && (r != Ok(true) ==> after == sh)
      && (r == Ok(true) ==> after.lastRefreshed == Some(completedAt) && after.snapshot == Merged(parse, sh.snapshot, fetched.value).keys)
  {
  }

  class Store {
    const parse: KeyParser
    const hasClient: bool
    const cooldown: Time
    var snapshot: KeyMap
    var lastRefreshed: Option<Time>

    function State(): Shared
      reads this
    {
      Shared(snapshot, lastRefreshed)
    }

    constructor (parse: KeyParser, initial: KeyMap, hasClient: bool, cooldown: Time)
      ensures State() == Shared(initial, None)
      ensures this.parse == parse && this.hasClient == hasClient && this.cooldown == cooldown
    {
      this.parse, this.hasClient, this.cooldown := parse, hasClient, cooldown;
      snapshot, lastRefreshed := initial, None;
    }

    /** A failed fetch changes nothing; a successful one is merged and stamped in one critical section. */
    method DoRefresh(fetched: Fetched, completedAt: Time) returns (r: Result<(), FetchError>)
      modifies this
      ensures (r, State()) == if hasClient then RefreshedAlone(parse, old(State()), fetched, completedAt)
                              else (Ok(()), old(State()))
    {
      if !hasClient {
        return Ok(());
      }
      if fetched.Err? {
        return Err(fetched.error);
      }
      var merged, _ := MergeFrom(parse, snapshot, fetched.value);
      snapshot := merged;
      lastRefreshed := Some(completedAt);
      return Ok(());
    }

    /** The on-demand path without interference. */
    method RefreshIfCooldownElapsed(quickRead: Time, recheck: Time, fetched: Fetched, completedAt: Time)
      returns (r: Result<bool, FetchError>)
      modifies this
      ensures (r, State()) == if hasClient
                              then OnDemandAlone(parse, cooldown, old(State()), quickRead, recheck, fetched, completedAt)
                              else (Ok(false), old(State()))
    {
      if !hasClient || WithinCooldown(lastRefreshed, quickRead, cooldown) {
        return Ok(false);
      }
      if WithinCooldown(lastRefreshed, recheck, cooldown) {
        return Ok(false);
      }
      var refreshed := DoRefresh(fetched, completedAt);
      if refreshed.Err? {
        return Err(refreshed.error);
      }
      return Ok(true);
    }
  }

  // ----- Interleavings -----

  type Tid = nat

  /** Where a goroutine stands; onDemand says whether it holds the refresh gate or is a direct DoRefresh. */
  datatype Pc =
    | Idle
    | QuickRead(lr: Option<Time>)       // lastRefreshed read, clock not yet
    | Waiting                           // for the gate
    | GateHeld
    | Rechecking(lr: Option<Time>)      // lastRefreshed read again, clock not yet
    | Fetching(onDemand: bool)
    | Merging(onDemand: bool, strings: seq<string>)
    | Releasing

  /** One completed refresh. */
  datatype Done = Done(onDemand: bool, at: Time, strings: seq<string>)

  datatype System = System(
    sh: Shared, gate: Option<Tid>, pcs: map<Tid, Pc>, clock: Time, log: seq<Done>)

  datatype Action =
    | ReadQuick | CheckQuick(now: Time) | Acquire | ReadAgain | Recheck(now: Time)
    | FetchFails | FetchReturns(strings: seq<string>) | Complete(now: Time) | Release
    | StartDirect

  datatype Env = Env(parse: KeyParser, cooldown: Time)

  function At(s: System, t: Tid): Pc {
    if t in s.pcs then s.pcs[t] else Idle
  }

  function Goto(s: System, t: Tid, pc: Pc): System {
    s.(pcs := s.pcs[t := pc])
  }

  /** The system after goroutine t takes action a, or None if it cannot. The clock never goes back. */
  function Step(env: Env, s: System, t: Tid, a: Action): Option<System> {
    match (At(s, t), a)
    case (Idle, ReadQuick) => Some(Goto(s, t, QuickRead(s.sh.lastRefreshed)))
    case (Idle, StartDirect) => Some(Goto(s, t, Fetching(false)))
    case (QuickRead(lr), CheckQuick(now)) =>
      if now < s.clock then None
      else Some(Goto(s, t, if WithinCooldown(lr, now, env.cooldown) then Idle else Waiting).(clock := now))
    case (Waiting, Acquire) =>
      if s.gate.Some? then None else Some(Goto(s, t, GateHeld).(gate := Some(t)))
    case (GateHeld, ReadAgain) => Some(Goto(s, t, Rechecking(s.sh.lastRefreshed)))
    case (Rechecking(lr), Recheck(now)) =>
      if now < s.clock then None
      else Some(Goto(s, t, if WithinCooldown(lr, now, env.cooldown) then Releasing else Fetching(true)).(clock := now))
    case (Fetching(onDemand), FetchFails) => Some(Goto(s, t, if onDemand then Releasing else Idle))
    case (Fetching(onDemand), FetchReturns(strings)) => Some(Goto(s, t, Merging(onDemand, strings)))
    case (Merging(onDemand, strings), Complete(now)) =>
      if now < s.clock then None
      else Some(Goto(s, t, if onDemand then Releasing else Idle).(
        sh := Commit(env.parse, s.sh, strings, now),
        clock := now,
        log := s.log + [Done(onDemand, now, strings)]))
    case (Releasing, Release) => Some(Goto(s, t, Idle).(gate := None))
    case _ => None
  }

  ghost predicate Initial(s: System) {
    s.sh.lastRefreshed == None && s.gate == None && s.pcs == map[] && s.log == []
  }

  ghost predicate Follows(env: Env, s: System, s': System) {
    exists t: Tid, a :: Step(env, s, t, a) == Some(s')
  }

  /** A run: every state follows from the one before by some goroutine's action. */
  ghost predicate IsRun(env: Env, run: seq<System>) {
    && |run| > 0 && Initial(run[0])
    && forall i | 0 < i < |run| :: Follows(env, run[i - 1], run[i])
  }

  predicate InGate(pc: Pc) {
    pc.GateHeld? || pc.Rechecking? || pc.Releasing? || (pc.Fetching? && pc.onDemand) || (pc.Merging? && pc.onDemand)
  }

  /** Completions are in clock order and lastRefreshed is the last of them. */
  ghost predicate Stamped(s: System) {
    && (forall i, j | 0 <= i < j < |s.log| :: s.log[i].at <= s.log[j].at)
    && (forall i | 0 <= i < |s.log| :: s.log[i].at <= s.clock)
    && s.sh.lastRefreshed == (if s.log == [] then None else Some(s.log[|s.log| - 1].at))
  }

  ghost predicate GateExclusive(s: System) {
    forall t: Tid :: InGate(At(s, t)) <==> s.gate == Some(t)
  }

  /** What a goroutine inside the gate has established about the on-demand completions so far. */
  ghost predicate Cooled(env: Env, s: System, pc: Pc) {
    forall i | 0 <= i < |s.log| && s.log[i].onDemand ::
      && (pc.Rechecking? ==> pc.lr.Some? && s.log[i].at <= pc.lr.value)
      && ((pc.Fetching? || pc.Merging?) && pc.onDemand ==> s.log[i].at + env.cooldown <= s.clock)
  }

  ghost predicate Spaced(env: Env, s: System) {
    forall i, j | 0 <= i < j < |s.log| && s.log[i].onDemand && s.log[j].onDemand ::
      s.log[j].at - s.log[i].at >= env.cooldown
  }

  /** Every key any completed refresh fetched is trusted now. */
  ghost predicate NothingLost(env: Env, s: System) {
    forall i, k | 0 <= i < |s.log| && 0 <= k < |s.log[i].strings| ::
      var parsed := env.parse(s.log[i].strings[k]);
      parsed.Some? ==> parsed.value.kid in s.sh.snapshot
  }

  ghost predicate Inv(env: Env, s: System) {
    && Stamped(s)
    && GateExclusive(s)
    && (forall t: Tid :: Cooled(env, s, At(s, t)))
    && Spaced(env, s)
  }

  lemma GateStep(env: Env, s: System, t: Tid, a: Action, s': System)
    requires GateExclusive(s) && Step(env, s, t, a) == Some(s')
    ensures GateExclusive(s')
  {
    forall u: Tid ensures InGate(At(s', u)) <==> s'.gate == Some(u) {
      assert InGate(At(s, u)) <==> s.gate == Some(u);
      assert InGate(At(s, t)) <==> s.gate == Some(t);
      assert u != t ==> At(s', u) == At(s, u);
    }
  }

  lemma LogStep(env: Env, s: System, t: Tid, a: Action, s': System)
    requires Stamped(s) && Spaced(env, s) && Cooled(env, s, At(s, t)) && Step(env, s, t, a) == Some(s')
    ensures Stamped(s') && Spaced(env, s')
  {
    if At(s, t).Merging? && a.Complete? {
      assert s'.log == s.log + [Done(At(s, t).onDemand, a.now, At(s, t).strings)];
    } else {
      assert s'.log == s.log && s'.sh == s.sh;
    }
  }

  /** The goroutine that moves: what it learns from its read and from its clock. */
  lemma MoverStaysCooled(env: Env, s: System, t: Tid, a: Action, s': System)
    requires Stamped(s) && Cooled(env, s, At(s, t)) && Step(env, s, t, a) == Some(s')
    ensures Cooled(env, s', At(s', t))
  {
  }

  lemma OthersStayCooled(env: Env, s: System, t: Tid, a: Action, s': System, u: Tid)
    requires GateExclusive(s) && Cooled(env, s, At(s, u)) && Step(env, s, t, a) == Some(s') && u != t
    ensures Cooled(env, s', At(s', u))
  {
    assert InGate(At(s, u)) <==> s.gate == Some(u);
    assert InGate(At(s, t)) <==> s.gate == Some(t);
    assert At(s', u) == At(s, u) && s.clock <= s'.clock;
  }

  lemma InvStep(env: Env, s: System, t: Tid, a: Action, s': System)
    requires Inv(env, s) && Step(env, s, t, a) == Some(s')
    ensures Inv(env, s')
  {
    assert Cooled(env, s, At(s, t));
    GateStep(env, s, t, a, s');
    LogStep(env, s, t, a, s');
    forall u: Tid ensures Cooled(env, s', At(s', u)) {
      assert Cooled(env, s, At(s, u));
      if u == t {
        MoverStaysCooled(env, s, t, a, s');
      } else {
        OthersStayCooled(env, s, t, a, s', u);
      }
    }
  }

  lemma MergeStep(env: Env, s: System, t: Tid, a: Action, s': System)
    requires NothingLost(env, s) && Step(env, s, t, a) == Some(s')
    ensures NothingLost(env, s') && Extends(s.sh.snapshot, s'.sh.snapshot)
  {
    if At(s, t).Merging? && a.Complete? {
      MergeIsMonotone(env.parse, s.sh.snapshot, At(s, t).strings);
    }
  }

  lemma {:induction false} RunKeepsInv(env: Env, run: seq<System>, n: nat)
    requires IsRun(env, run) && n < |run|
    ensures Inv(env, run[n]) && NothingLost(env, run[n])
  {
    if n != 0 {
      RunKeepsInv(env, run, n - 1);
      var t: Tid, a :| Step(env, run[n - 1], t, a) == Some(run[n]);
      InvStep(env, run[n - 1], t, a, run[n]);
      MergeStep(env, run[n - 1], t, a, run[n]);
    }
  }

  /**
   Cooldown under concurrency: however on-demand callers and direct refreshes interleave, two successful
   on-demand refreshes complete at least the cooldown apart.
   */
  lemma OnDemandRefreshesAreSpaced(env: Env, run: seq<System>, n: nat, i: nat, j: nat)
    requires IsRun(env, run) && n < |run|
    requires i < j < |run[n].log| && run[n].log[i].onDemand && run[n].log[j].onDemand
    ensures run[n].log[j].at - run[n].log[i].at >= env.cooldown
  {
    RunKeepsInv(env, run, n);
  }

  /** No refresh ever unbinds or rebinds a key id, and none of the concurrent merges is lost. */
  lemma {:induction false} TrustOnlyGrows(env: Env, run: seq<System>, m: nat, n: nat)
    requires IsRun(env, run) && m <= n < |run|
    ensures Extends(run[m].sh.snapshot, run[n].sh.snapshot)
    ensures NothingLost(env, run[n])
    decreases n
  {
    RunKeepsInv(env, run, n);
    if m < n {
      TrustOnlyGrows(env, run, m, n - 1);
      RunKeepsInv(env, run, n - 1);
      var t: Tid, a :| Step(env, run[n - 1], t, a) == Some(run[n]);
      MergeStep(env, run[n - 1], t, a, run[n]);
    }
  }

  /** A key found once is found with the same value ever after; keys stay filed under their own ids. */
  lemma FoundStaysFound(env: Env, run: seq<System>, m: nat, n: nat, kid: Kid)
    requires IsRun(env, run) && m <= n < |run| && kid in run[m].sh.snapshot
    ensures kid in run[n].sh.snapshot && run[n].sh.snapshot[kid] == run[m].sh.snapshot[kid]
  {
    TrustOnlyGrows(env, run, m, n);
  }

  lemma Extend(env: Env, run: seq<System>, t: Tid, a: Action) returns (longer: seq<System>)
    requires IsRun(env, run) && Step(env, run[|run| - 1], t, a).Some?
    ensures IsRun(env, longer) && |longer| == |run| + 1
    ensures Some(longer[|run|]) == Step(env, run[|run| - 1], t, a)
  {
    var s' := Step(env, run[|run| - 1], t, a).value;
    assert Follows(env, run[|run| - 1], s');
    longer := run + [s'];
  }

  /**
   A direct refresh ignores the cooldown: from every reachable state an idle goroutine can complete one at
   the current instant, however recent the last completion.
   */
  lemma DirectRefreshNeverWaits(env: Env, run: seq<System>, t: Tid, strings: seq<string>) returns (longer: seq<System>)
    requires IsRun(env, run) && At(run[|run| - 1], t).Idle?
    ensures IsRun(env, longer)
    ensures var s, s' := run[|run| - 1], longer[|longer| - 1];
      && s'.clock == s.clock && s'.log == s.log + [Done(false, s.clock, strings)]
      && forall u: Tid :: At(s', u) == At(s, u)
  {
    longer := Extend(env, run, t, StartDirect);
    longer := Extend(env, longer, t, FetchReturns(strings));
    longer := Extend(env, longer, t, Complete(run[|run| - 1].clock));
  }

  /**
   An on-demand refresh goes through once the cooldown has elapsed: from every reachable state with the gate free an
   idle goroutine can complete one at any instant at least the cooldown past the last refresh, and then the gate is free again.
   */
  lemma OnDemandRefreshGoesThrough(env: Env, run: seq<System>, t: Tid, strings: seq<string>, now: Time) returns (longer: seq<System>)
    requires IsRun(env, run)
    requires var s := run[|run| - 1];
      At(s, t).Idle? && s.gate.None? && s.clock <= now && (s.sh.lastRefreshed.Some? ==> s.sh.lastRefreshed.value + env.cooldown <= now)
    ensures IsRun(env, longer)
    ensures var s, s' := run[|run| - 1], longer[|longer| - 1];
      && s'.clock == now && s'.log == s.log + [Done(true, now, strings)] && s'.gate.None?
      && s'.sh == Shared(Merged(env.parse, s.sh.snapshot, strings).keys, Some(now))
      && forall u: Tid :: At(s', u) == At(s, u)
  {
    longer := RecheckPasses(env, run, t, now);
    longer := Extend(env, longer, t, FetchReturns(strings));
    longer := Extend(env, longer, t, Complete(now));
    longer := Extend(env, longer, t, Release);
  }

  /** Up to the fetch. */
  lemma RecheckPasses(env: Env, run: seq<System>, t: Tid, now: Time) returns (longer: seq<System>)
    requires IsRun(env, run)
    requires var s := run[|run| - 1];
      At(s, t).Idle? && s.gate.None? && s.clock <= now && (s.sh.lastRefreshed.Some? ==> s.sh.lastRefreshed.value + env.cooldown <= now)
    ensures IsRun(env, longer)
    ensures var s, s' := run[|run| - 1], longer[|longer| - 1];
      && s'.clock == now && s'.log == s.log && s'.gate == Some(t) && s'.sh == s.sh
      && At(s', t) == Fetching(true) && (forall u: Tid | u != t :: At(s', u) == At(s, u))
  {
    longer := Extend(env, run, t, ReadQuick);
    longer := Extend(env, longer, t, CheckQuick(now));
    longer := Extend(env, longer, t, Acquire);
    longer := Extend(env, longer, t, ReadAgain);
    longer := Extend(env, longer, t, Recheck(now));
  }

  /** The spacing is tight: two on-demand refreshes can complete exactly the cooldown apart. */
  lemma SpacingIsTight(env: Env) returns (run: seq<System>)
    requires env.cooldown >= 0
    ensures IsRun(env, run)
    ensures run[|run| - 1].log == [Done(true, 0, []), Done(true, env.cooldown, [])]
  {
    run := FreshRun(env);
    run := OnDemandRefreshGoesThrough(env, run, 0, [], 0);
    run := OnDemandRefreshGoesThrough(env, run, 0, [], env.cooldown);
  }

  /** The fresh store, and the run that has not left it. */
  const FRESH: System := System(Shared(map[], None), None, map[], 0, [])

  lemma FreshRun(env: Env) returns (run: seq<System>)
    ensures IsRun(env, run) && run == [FRESH]
  {
    run := [FRESH];
  }

  /** One that has passed its recheck completes at the present instant, whatever completed meanwhile. */
  lemma FetchingCompletes(env: Env, run: seq<System>, t: Tid, onDemand: bool) returns (longer: seq<System>)
    requires IsRun(env, run) && At(run[|run| - 1], t) == Fetching(onDemand)
    ensures IsRun(env, longer)
    ensures var s, s' := run[|run| - 1], longer[|longer| - 1];
      s'.clock == s.clock && s'.log == s.log + [Done(onDemand, s.clock, [])] && forall u: Tid | u != t :: At(s', u) == At(s, u)
  {
    longer := Extend(env, run, t, FetchReturns([]));
    longer := Extend(env, longer, t, Complete(run[|run| - 1].clock));
  }

  /** Completions of one kind before completions of another, in every run. */
  ghost predicate KindsAreSpaced(env: Env, first: bool, second: bool) {
    forall run: seq<System>, n: nat, i: nat, j: nat ::
      IsRun(env, run) && n < |run| && i < j < |run[n].log| && run[n].log[i].onDemand == first && run[n].log[j].onDemand == second
      ==> run[n].log[j].at - run[n].log[i].at >= env.cooldown
  }

  /** A run that completes twice at one instant, in these kinds, unless both are on-demand. */
  lemma CompleteTogether(env: Env, first: bool, second: bool) returns (run: seq<System>)
    requires !first || !second
    ensures IsRun(env, run)
    ensures run[|run| - 1].log == [Done(first, 0, []), Done(second, 0, [])]
  {
    if first {
      run := FreshRun(env);
      run := RecheckPasses(env, run, 0, 0);
      run := FetchingCompletes(env, run, 0, true);
      run := DirectRefreshNeverWaits(env, run, 1, []);
    } else if second {
      run := FreshRun(env);
      run := RecheckPasses(env, run, 0, 0);
      run := DirectRefreshNeverWaits(env, run, 1, []);
      run := FetchingCompletes(env, run, 0, true);
    } else {
      run := FreshRun(env);
      run := DirectRefreshNeverWaits(env, run, 0, []);
      run := DirectRefreshNeverWaits(env, run, 0, []);
    }
  }

  /** The cooldown spaces exactly the pairs of on-demand refreshes: with a direct one before or after, nothing is spaced. */
  lemma KindsAreSpacedIff(env: Env, first: bool, second: bool)
    ensures KindsAreSpaced(env, first, second) <==> (first && second) || env.cooldown <= 0
  {
    if first && second {
      forall run: seq<System>, n: nat, i: nat, j: nat
        | IsRun(env, run) && n < |run| && i < j < |run[n].log| && run[n].log[i].onDemand && run[n].log[j].onDemand
        ensures run[n].log[j].at - run[n].log[i].at >= env.cooldown
      {
        OnDemandRefreshesAreSpaced(env, run, n, i, j);
      }
    } else if env.cooldown <= 0 {
      forall run: seq<System>, n: nat, i: nat, j: nat | IsRun(env, run) && n < |run| && i < j < |run[n].log|
        ensures run[n].log[j].at - run[n].log[i].at >= env.cooldown
      {
        RunKeepsInv(env, run, n);
      }
    } else {
      var run := CompleteTogether(env, first, second);
      var n := |run| - 1;
      assert run[n].log[0].onDemand == first && run[n].log[1].onDemand == second;
      assert run[n].log[1].at - run[n].log[0].at < env.cooldown;
    }
  }

  /** In particular a direct refresh ignores the cooldown of an on-demand one. */
  lemma DirectRefreshIgnoresCooldown(env: Env) returns (run: seq<System>)
    requires env.cooldown > 0
    ensures IsRun(env, run)
    ensures var log := run[|run| - 1].log;
      |log| == 2 && log[0].onDemand && !log[1].onDemand && log[1].at - log[0].at < env.cooldown
  {
    run := CompleteTogether(env, true, false);
  }

  // ----- The methods are the machine's undisturbed runs -----

  /** Goroutine t as the only one that moves. */
  function Mover(env: Env, t: Tid): (System, Action) -> Option<System> {
    (s, a) => Step(env, s, t, a)
  }

  function FetchActions(fetched: Fetched, completedAt: Time): seq<Action> {
    match fetched
    case Err(_) => [FetchFails]
    case Ok(strings) => [FetchReturns(strings)] + [Complete(completedAt)]
  }

  /** The on-demand path up to the recheck. */
  function ApproachActions(quickRead: Time, recheck: Time): seq<Action> {
    [ReadQuick] + [CheckQuick(quickRead)] + [Acquire] + [ReadAgain] + [Recheck(recheck)]
  }

  /** What a goroutine does on the on-demand path when nobody else moves. */
  function OnDemandActions(env: Env, sh: Shared, quickRead: Time, recheck: Time, fetched: Fetched, completedAt: Time): seq<Action> {
    if WithinCooldown(sh.lastRefreshed, quickRead, env.cooldown) then [ReadQuick] + [CheckQuick(quickRead)]
    else
      ApproachActions(quickRead, recheck)
      + (if WithinCooldown(sh.lastRefreshed, recheck, env.cooldown) then [] else FetchActions(fetched, completedAt))
      + [Release]
  }

  lemma FetchAlone(env: Env, s: System, t: Tid, onDemand: bool, fetched: Fetched, completedAt: Time)
    requires At(s, t) == Fetching(onDemand) && s.clock <= completedAt
    ensures var s' := Alone(Mover(env, t), s, FetchActions(fetched, completedAt));
      && s'.Some? && s'.value.sh == RefreshedAlone(env.parse, s.sh, fetched, completedAt).1
      && At(s'.value, t) == (if onDemand then Releasing else Idle) && s'.value.gate == s.gate
  {
    match fetched
    case Err(_) =>
      AloneOne(Mover(env, t), s, FetchFails);
    case Ok(strings) =>
      AloneOne(Mover(env, t), s, FetchReturns(strings));
      AloneMore(Mover(env, t), s, [FetchReturns(strings)], Complete(completedAt));
  }

  /** A direct refresh that nobody disturbs leaves what DoRefresh leaves, from every state. */
  lemma DirectIsDoRefresh(env: Env, s: System, t: Tid, fetched: Fetched, completedAt: Time)
    requires At(s, t).Idle? && s.clock <= completedAt
    ensures var s' := Alone(Mover(env, t), s, [StartDirect] + FetchActions(fetched, completedAt));
      s'.Some? && At(s'.value, t).Idle? && s'.value.sh == RefreshedAlone(env.parse, s.sh, fetched, completedAt).1
  {
    AloneOne(Mover(env, t), s, StartDirect);
    AloneThen(Mover(env, t), s, [StartDirect], FetchActions(fetched, completedAt));
    FetchAlone(env, Step(env, s, t, StartDirect).value, t, false, fetched, completedAt);
  }

  lemma QuickReadAlone(env: Env, s: System, t: Tid, quickRead: Time)
    requires At(s, t).Idle? && s.clock <= quickRead
    ensures var s' := Alone(Mover(env, t), s, [ReadQuick] + [CheckQuick(quickRead)]);
      && s'.Some? && s'.value.sh == s.sh && s'.value.clock == quickRead && s'.value.gate == s.gate
      && At(s'.value, t) == if WithinCooldown(s.sh.lastRefreshed, quickRead, env.cooldown) then Idle else Waiting
  {
    AloneOne(Mover(env, t), s, ReadQuick);
    AloneMore(Mover(env, t), s, [ReadQuick], CheckQuick(quickRead));
  }

  lemma ApproachAlone(env: Env, s: System, t: Tid, quickRead: Time, recheck: Time)
    requires At(s, t).Idle? && s.gate.None? && s.clock <= quickRead <= recheck
    requires !WithinCooldown(s.sh.lastRefreshed, quickRead, env.cooldown)
    ensures var s' := Alone(Mover(env, t), s, ApproachActions(quickRead, recheck));
      && s'.Some? && s'.value.sh == s.sh && s'.value.clock == recheck && s'.value.gate == Some(t)
      && At(s'.value, t) == if WithinCooldown(s.sh.lastRefreshed, recheck, env.cooldown) then Releasing else Fetching(true)
  {
    var step, quick := Mover(env, t), [ReadQuick] + [CheckQuick(quickRead)];
    QuickReadAlone(env, s, t, quickRead);
    AloneMore(step, s, quick, Acquire);
    AloneMore(step, s, quick + [Acquire], ReadAgain);
    AloneMore(step, s, quick + [Acquire] + [ReadAgain], Recheck(recheck));
  }

  /** An on-demand caller that nobody disturbs leaves what RefreshIfCooldownElapsed leaves, from every state with the gate free. */
  lemma OnDemandIsRefreshIfCooldownElapsed(env: Env, s: System, t: Tid, quickRead: Time, recheck: Time,
                                           fetched: Fetched, completedAt: Time)
    requires At(s, t).Idle? && s.gate.None? && s.clock <= quickRead <= recheck <= completedAt
    ensures var s' := Alone(Mover(env, t), s, OnDemandActions(env, s.sh, quickRead, recheck, fetched, completedAt));
      && s'.Some? && At(s'.value, t).Idle? && s'.value.gate.None?
      && s'.value.sh == OnDemandAlone(env.parse, env.cooldown, s.sh, quickRead, recheck, fetched, completedAt).1
  {
    if WithinCooldown(s.sh.lastRefreshed, quickRead, env.cooldown) {
      QuickReadAlone(env, s, t, quickRead);
    } else {
      var step, approach := Mover(env, t), ApproachActions(quickRead, recheck);
      var cooled := WithinCooldown(s.sh.lastRefreshed, recheck, env.cooldown);
      var fetch := if cooled then [] else FetchActions(fetched, completedAt);
      ApproachAlone(env, s, t, quickRead, recheck);
      if !cooled {
        FetchAlone(env, Alone(step, s, approach).value, t, true, fetched, completedAt);
      }
      AloneThen(step, s, approach, fetch);
      AloneMore(step, s, approach + fetch, Release);
    }
  }
}
