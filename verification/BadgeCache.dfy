/** verify/cache.go: badges by domain name and by domain name and version, with a lifetime, stale retention and a size cap. */
module BadgeCache {
  import opened Prelude
  import opened Names
  import opened Text

  type Time = int

  datatype Config = Config(maxEntries: int, defaultTtl: Time, refreshThreshold: Time, staleRetention: Time)

  datatype Entry<+B> = Entry(badge: B, fetchedAt: Time, expiresAt: Time)

  type Entries<B> = map<string, Entry<B>>

  /** The two maps of the cache. */
  datatype Maps<B> = Maps(byFqdn: Entries<B>, byFqdnVer: Entries<B>)

  // ----- Lookups -----

  /** The entry held for a name, or for a name and version. */
  function Held<B>(m: Maps<B>, fqdn: Fqdn, version: Option<Version>): Option<Entry<B>> {
    match version
    case None => if fqdn in m.byFqdn then Some(m.byFqdn[fqdn]) else None
    case Some(v) =>
      if FqdnVersionKey(fqdn, v) in m.byFqdnVer then Some(m.byFqdnVer[FqdnVersionKey(fqdn, v)]) else None
  }

  function Fresh<B>(held: Option<Entry<B>>, now: Time): Option<B> {
    if held.None? || now > held.value.expiresAt then None else Some(held.value.badge)
  }

  /** Expired entries still count for maxStaleness past their expiry. */
  function Stale<B>(held: Option<Entry<B>>, now: Time, maxStaleness: Time): Option<B> {
    if held.None? || now - held.value.expiresAt > maxStaleness then None else Some(held.value.badge)
  }

  // ----- Cleanup -----

  ghost predicate SubMap<B>(a: Entries<B>, b: Entries<B>) {
    forall k | k in a :: k in b && a[k] == b[k]
  }

  /** What stale retention keeps. */
  function Retained<B>(entries: Entries<B>, deadline: Time): Entries<B> {
    map k | k in entries && deadline <= entries[k].expiresAt :: entries[k]
  }

  function Survivors<B>(config: Config, m: Maps<B>, now: Time): Maps<B> {
    Maps(Retained(m.byFqdn, now - config.staleRetention), Retained(m.byFqdnVer, now - config.staleRetention))
  }

  function Excess<B>(config: Config, s: Maps<B>): nat {
    Max(0, |s.byFqdn| + |s.byFqdnVer| - config.maxEntries)
  }

  /** Some of the survivors, the excess taken from byFqdn as long as it lasts; which ones is the map's choice. */
  ghost predicate Cleaned<B>(config: Config, m: Maps<B>, now: Time, m': Maps<B>) {
    var s := Survivors(config, m, now);
    var fromFqdn := Min(|s.byFqdn|, Excess(config, s));
    && SubMap(m'.byFqdn, s.byFqdn) && |m'.byFqdn| == |s.byFqdn| - fromFqdn
    && SubMap(m'.byFqdnVer, s.byFqdnVer)
    && |m'.byFqdnVer| == |s.byFqdnVer| - Min(|s.byFqdnVer|, Excess(config, s) - fromFqdn)
  }

  /** Whatever the iteration order, the survivors of the stale purge are cut to the cap and no further. */
  lemma CleanedTotal<B>(config: Config, m: Maps<B>, now: Time, m': Maps<B>)
    requires Cleaned(config, m, now, m')
    ensures var s := Survivors(config, m, now);
      |m'.byFqdn| + |m'.byFqdnVer| == Min(|s.byFqdn| + |s.byFqdnVer|, Max(0, config.maxEntries))
  {
  }

  // ----- One operation on the maps -----

  /**
   An insertion by the background refresh carries the position in the run of the collection it acts on; a
   collection reads the clock once for each name.
   */
  datatype Op<B> =
    | InsertOp(fqdn: Fqdn, version: Option<Version>, badge: B, now: Time, cleanedAt: Time, collectedAt: Option<nat>)
    | ClearOp(now: Time)
    | CollectOp(now: Time, doneAt: Time, readings: map<string, Time>)

  function NewEntry<B>(config: Config, badge: B, now: Time): Entry<B> {
    Entry(badge, now, now + config.defaultTtl)
  }

  function WithEntry<B>(config: Config, m: Maps<B>, fqdn: Fqdn, version: Option<Version>, badge: B, now: Time): Maps<B> {
    match version
    case None => m.(byFqdn := m.byFqdn[fqdn := NewEntry(config, badge, now)])
    case Some(v) => m.(byFqdnVer := m.byFqdnVer[FqdnVersionKey(fqdn, v) := NewEntry(config, badge, now)])
  }

  /** One clock reading for each name, taken between two instants. */
  predicate ReadFor<B>(byFqdn: Entries<B>, now: Time, doneAt: Time, readings: map<string, Time>) {
    && now <= doneAt
    && forall k | k in byFqdn :: k in readings && now <= readings[k] <= doneAt
  }

  ghost predicate Next<B>(config: Config, m: Maps<B>, op: Op<B>, m': Maps<B>) {
    match op
    case InsertOp(fqdn, version, badge, now, cleanedAt, _) =>
      now <= cleanedAt && Cleaned(config, WithEntry(config, m, fqdn, version, badge, now), cleanedAt, m')
    case ClearOp(_) => m' == Maps(map[], map[])
    case CollectOp(now, doneAt, readings) => m' == m && ReadFor(m.byFqdn, now, doneAt, readings)
  }

  // ----- Whole runs -----

  /** A run from the empty cache. */
  ghost predicate IsRun<B>(config: Config, states: seq<Maps<B>>, ops: seq<Op<B>>) {
    && |states| == |ops| + 1 && states[0] == Maps(map[], map[])
    && forall i | 0 <= i < |ops| :: Next(config, states[i], ops[i], states[i + 1])
  }

  predicate Concerns<B>(op: Op<B>, fqdn: Fqdn, version: Option<Version>) {
    op.ClearOp? || (op.InsertOp? && op.fqdn == fqdn && op.version == version)
  }

  lemma CleanedHolds<B>(config: Config, m: Maps<B>, now: Time, m': Maps<B>, fqdn: Fqdn, version: Option<Version>)
    requires Cleaned(config, m, now, m') && Held(m', fqdn, version).Some?
    ensures Held(m, fqdn, version) == Held(m', fqdn, version)
  {
  }

  /** Entries of different names or versions never share a key. */
  lemma WithEntryHolds<B>(config: Config, m: Maps<B>, op: Op<B>, fqdn: Fqdn, version: Option<Version>)
    requires op.InsertOp?
    ensures Held(WithEntry(config, m, op.fqdn, op.version, op.badge, op.now), fqdn, version)
         == if Concerns(op, fqdn, version) then Some(NewEntry(config, op.badge, op.now)) else Held(m, fqdn, version)
  {
    if op.version.Some? && version.Some? && FqdnVersionKey(op.fqdn, op.version.value) == FqdnVersionKey(fqdn, version.value) {
      FqdnVersionKeyInjective(op.fqdn, op.version.value, fqdn, version.value);
    }
  }

  lemma StepHolds<B>(config: Config, m: Maps<B>, op: Op<B>, m': Maps<B>, fqdn: Fqdn, version: Option<Version>)
    requires Next(config, m, op, m') && Held(m', fqdn, version).Some?
    ensures !op.ClearOp?
    ensures Held(m', fqdn, version)
         == if Concerns(op, fqdn, version) then Some(NewEntry(config, op.badge, op.now)) else Held(m, fqdn, version)
  {
    if op.InsertOp? {
      CleanedHolds(config, WithEntry(config, m, op.fqdn, op.version, op.badge, op.now), op.cleanedAt, m', fqdn, version);
      WithEntryHolds(config, m, op, fqdn, version);
    }
  }

  lemma RunEndsWith<B>(config: Config, states: seq<Maps<B>>, ops: seq<Op<B>>, n: nat)
    requires IsRun(config, states, ops) && |ops| == n + 1
    ensures IsRun(config, states[..n + 1], ops[..n]) && Next(config, states[n], ops[n], states[n + 1])
    ensures states[..n + 1][n] == states[n]
  {
  }

  lemma LastConcerns<B>(ops: seq<Op<B>>, n: nat, fqdn: Fqdn, version: Option<Version>)
    requires |ops| == n + 1 && ops[n].InsertOp? && Concerns(ops[n], fqdn, version)
    ensures InsertedLast(ops, n, fqdn, version)
  {
  }

  lemma LastDoesNotConcern<B>(ops: seq<Op<B>>, n: nat, i: nat, fqdn: Fqdn, version: Option<Version>)
    requires |ops| == n + 1 && !Concerns(ops[n], fqdn, version) && InsertedLast(ops[..n], i, fqdn, version)
    ensures InsertedLast(ops, i, fqdn, version) && ops[..n][i] == ops[i]
  {
    forall j | i < j < |ops| ensures !Concerns(ops[j], fqdn, version) {
      if j < n {
        assert ops[..n][j] == ops[j];
      }
    }
  }

  /** Whatever a run holds for a name and version is what its last insertion for them put there. */
  lemma {:induction false} HeldIsLatestInsert<B>(config: Config, states: seq<Maps<B>>, ops: seq<Op<B>>, fqdn: Fqdn,
                                                 version: Option<Version>) returns (i: nat)
    requires IsRun(config, states, ops) && Held(states[|ops|], fqdn, version).Some?
    ensures InsertedLast(ops, i, fqdn, version)
    ensures Held(states[|ops|], fqdn, version) == Some(NewEntry(config, ops[i].badge, ops[i].now))
  {
    EmptyHoldsNothing(states[0], fqdn, version);
    var n := |ops| - 1;
    RunEndsWith(config, states, ops, n);
    var init := ops[..n];
    StepHolds(config, states[n], ops[n], states[n + 1], fqdn, version);
    if Concerns(ops[n], fqdn, version) {
      i := n;
      LastConcerns(ops, n, fqdn, version);
    } else {
      i := HeldIsLatestInsert(config, states[..n + 1], init, fqdn, version);
      LastDoesNotConcern(ops, n, i, fqdn, version);
    }
  }

  lemma EmptyHoldsNothing<B>(m: Maps<B>, fqdn: Fqdn, version: Option<Version>)
    ensures m == Maps(map[], map[]) ==> Held(m, fqdn, version).None?
  {
  }

  /**
   What a lookup returns of what is held, over every run: the badge of the latest insertion for the name and version,
   fresh exactly through one lifetime after it and stale exactly through a lifetime and maxStaleness; so every hit is
   that young, and nothing that young is missed.
   */
  lemma HitIff<B>(config: Config, states: seq<Maps<B>>, ops: seq<Op<B>>, fqdn: Fqdn, version: Option<Version>,
                  now: Time, maxStaleness: Time) returns (i: nat)
    requires IsRun(config, states, ops) && Held(states[|ops|], fqdn, version).Some?
    ensures InsertedLast(ops, i, fqdn, version)
    ensures Fresh(Held(states[|ops|], fqdn, version), now) == if now <= ops[i].now + config.defaultTtl then Some(ops[i].badge) else None
    ensures Stale(Held(states[|ops|], fqdn, version), now, maxStaleness)
         == if now <= ops[i].now + config.defaultTtl + maxStaleness then Some(ops[i].badge) else None
  {
    i := HeldIsLatestInsert(config, states, ops, fqdn, version);
  }

  /** Bounded age: a fresh hit is at most a lifetime old, and a stale one at most a lifetime and maxStaleness. */
  lemma BadgeAgeIsBounded<B>(config: Config, states: seq<Maps<B>>, ops: seq<Op<B>>, fqdn: Fqdn, version: Option<Version>,
                             now: Time, maxStaleness: Time) returns (i: nat)
    requires IsRun(config, states, ops)
    requires Fresh(Held(states[|ops|], fqdn, version), now).Some? || Stale(Held(states[|ops|], fqdn, version), now, maxStaleness).Some?
    ensures InsertedLast(ops, i, fqdn, version)
    ensures Fresh(Held(states[|ops|], fqdn, version), now).Some? ==>
      Fresh(Held(states[|ops|], fqdn, version), now) == Some(ops[i].badge) && now - ops[i].now <= config.defaultTtl
    ensures Stale(Held(states[|ops|], fqdn, version), now, maxStaleness).Some? ==>
      (&& Stale(Held(states[|ops|], fqdn, version), now, maxStaleness) == Some(ops[i].badge)
       && now - ops[i].now <= config.defaultTtl + maxStaleness)
  {
    i := HitIff(config, states, ops, fqdn, version, now, maxStaleness);
  }

  /** Operation i is the last one that concerns this name and version, and it is an insertion. */
  ghost predicate InsertedLast<B>(ops: seq<Op<B>>, i: nat, fqdn: Fqdn, version: Option<Version>) {
    && i < |ops| && ops[i].InsertOp? && Concerns(ops[i], fqdn, version)
    && forall j | i < j < |ops| :: !Concerns(ops[j], fqdn, version)
  }

  // ----- The background refresh among other users -----

  /** The names a collection takes: within the threshold of their expiry when the clock is read for them. */
  function NearExpiry<B>(config: Config, byFqdn: Entries<B>, readings: map<string, Time>): set<string> {
    set k | k in byFqdn && k in readings && readings[k] + config.refreshThreshold > byFqdn[k].expiresAt
  }

  /** A collection takes a held name exactly when the clock, read for it, is within the threshold of one lifetime past its insertion. */
  lemma CollectedIff<B>(config: Config, states: seq<Maps<B>>, ops: seq<Op<B>>, c: nat, fqdn: Fqdn) returns (i: nat)
    requires IsRun(config, states, ops) && c < |ops| && ops[c].CollectOp? && Held(states[c], fqdn, None).Some?
    ensures i < c && InsertedLast(ops[..c], i, fqdn, None) && fqdn in ops[c].readings
    ensures CollectedAt(config, states, ops, c, fqdn)
       <==> ops[c].readings[fqdn] > ops[i].now + config.defaultTtl - config.refreshThreshold
  {
    PrefixIsRun(config, states, ops, c);
    i := HeldIsLatestInsert(config, states[..c + 1], ops[..c], fqdn, None);
    assert Next(config, states[c], ops[c], states[c + 1]);
  }

  /** The operation at this position is a collection that took this name. */
  ghost predicate CollectedAt<B>(config: Config, states: seq<Maps<B>>, ops: seq<Op<B>>, c: nat, key: string) {
    c < |ops| && c < |states| && ops[c].CollectOp? && key in NearExpiry(config, states[c].byFqdn, ops[c].readings)
  }

  /** Every insertion by the refresh is for a name that an earlier collection of the run took. */
  ghost predicate RefreshesAreCollected<B>(config: Config, states: seq<Maps<B>>, ops: seq<Op<B>>) {
    forall i | 0 <= i < |ops| && ops[i].InsertOp? && ops[i].collectedAt.Some? ::
      && ops[i].version.None? && ops[i].collectedAt.value < i
      && CollectedAt(config, states, ops, ops[i].collectedAt.value, ops[i].fqdn)
  }

  predicate Inserts<B>(op: Op<B>, key: string) {
    op.InsertOp? && op.version.None? && op.fqdn == key
  }

  lemma HeldBeforeOrInserted<B>(config: Config, m: Maps<B>, op: Op<B>, m': Maps<B>, key: string)
    requires Next(config, m, op, m') && key in m'.byFqdn
    ensures key in m.byFqdn || Inserts(op, key)
  {
  }

  /** Whatever a run holds under a name is held under a validated one. */
  lemma {:induction false} HeldKeysAreNames<B>(config: Config, states: seq<Maps<B>>, ops: seq<Op<B>>, n: nat, key: string)
    requires IsRun(config, states, ops) && n <= |ops| && key in states[n].byFqdn
    ensures NewFqdn(key) == Ok(key)
  {
    if n > 0 {
      assert Next(config, states[n - 1], ops[n - 1], states[n]);
      HeldBeforeOrInserted(config, states[n - 1], ops[n - 1], states[n], key);
      if Inserts(ops[n - 1], key) {
        var name: Fqdn := ops[n - 1].fqdn;
      } else {
        HeldKeysAreNames(config, states, ops, n - 1, key);
      }
    }
  }

  /** A run grows by one operation. */
  lemma Grow<B>(config: Config, states: seq<Maps<B>>, ops: seq<Op<B>>, op: Op<B>, m: Maps<B>)
      returns (states': seq<Maps<B>>, ops': seq<Op<B>>)
    requires IsRun(config, states, ops) && RefreshesAreCollected(config, states, ops) && Next(config, states[|ops|], op, m)
    requires op.InsertOp? && op.collectedAt.Some? ==> op.version.None? && CollectedAt(config, states, ops, op.collectedAt.value, op.fqdn)
    ensures IsRun(config, states', ops') && RefreshesAreCollected(config, states', ops')
    ensures states' == states + [m] && ops' == ops + [op]
  {
    Recorded(config, states, ops, op, m);
    states', ops' := states + [m], ops + [op];
  }

  // ----- How stale a stale hit can be -----

  function LastReading<B>(op: Op<B>): Time {
    match op
    case InsertOp(_, _, _, _, cleanedAt, _) => cleanedAt
    case ClearOp(now) => now
    case CollectOp(_, doneAt, _) => doneAt
  }

  /** One clock that never goes back, read by the operations in turn and last at now. */
  ghost predicate InClockOrder<B>(ops: seq<Op<B>>, now: Time) {
    && (forall i, j | 0 <= i < j < |ops| :: LastReading(ops[i]) <= ops[j].now)
    && forall i | 0 <= i < |ops| :: ops[i].now <= LastReading(ops[i]) <= now
  }

  /** The documented reading of maxStaleness, over every run: no stale hit is older than that. */
  ghost predicate StaleHitsAreWithin<B(!new)>(config: Config, maxStaleness: Time) {
    forall states: seq<Maps<B>>, ops: seq<Op<B>>, fqdn: Fqdn, version: Option<Version>, now: Time, i: nat ::
      IsRun(config, states, ops) && InClockOrder(ops, now) && InsertedLast(ops, i, fqdn, version)
      && Stale(Held(states[|ops|], fqdn, version), now, maxStaleness).Some?
      ==> now - ops[i].now <= maxStaleness
  }

  /** A configuration under which an entry can outlive its own insertion. */
  predicate CanHold(config: Config) {
    config.maxEntries >= 1 && config.defaultTtl + config.staleRetention >= 0
  }

  lemma InsertedLastIsUnique<B>(ops: seq<Op<B>>, i: nat, j: nat, fqdn: Fqdn, version: Option<Version>)
    requires InsertedLast(ops, i, fqdn, version) && InsertedLast(ops, j, fqdn, version)
    ensures i == j
  {
  }

  lemma CleanedMeansCanHold<B>(config: Config, m: Maps<B>, cleanedAt: Time, m': Maps<B>, fqdn: Fqdn, version: Option<Version>,
                               insertedAt: Time)
    requires Cleaned(config, m, cleanedAt, m') && insertedAt <= cleanedAt
    requires Held(m', fqdn, version).Some? && Held(m', fqdn, version).value.expiresAt == insertedAt + config.defaultTtl
    ensures CanHold(config)
  {
    CleanedTotal(config, m, cleanedAt, m');
    var key := if version.None? then fqdn else FqdnVersionKey(fqdn, version.value);
    var entries := if version.None? then m'.byFqdn else m'.byFqdnVer;
    assert key in entries.Keys && |entries| == |entries.Keys|;
    assert entries.Keys != {};
  }

  /** The clean-up since when nothing but collections has happened. */
  lemma {:induction false} HeldMeansCanHold<B>(config: Config, states: seq<Maps<B>>, ops: seq<Op<B>>, fqdn: Fqdn,
                                               version: Option<Version>, now: Time)
    requires IsRun(config, states, ops) && InClockOrder(ops, now) && Held(states[|ops|], fqdn, version).Some?
    ensures CanHold(config)
  {
    EmptyHoldsNothing(states[0], fqdn, version);
    var n := |ops| - 1;
    RunEndsWith(config, states, ops, n);
    var i := HeldIsLatestInsert(config, states, ops, fqdn, version);
    if ops[n].InsertOp? {
      var op := ops[n];
      assert ops[i].now <= op.cleanedAt;
      CleanedMeansCanHold(config, WithEntry(config, states[n], op.fqdn, op.version, op.badge, op.now), op.cleanedAt, states[n + 1],
                          fqdn, version, ops[i].now);
    } else {
      StepHolds(config, states[n], ops[n], states[n + 1], fqdn, version);
      PrefixInClockOrder(ops, now, n);
      HeldMeansCanHold(config, states[..n + 1], ops[..n], fqdn, version, now);
    }
  }

  lemma PrefixInClockOrder<B>(ops: seq<Op<B>>, now: Time, n: nat)
    requires InClockOrder(ops, now) && n <= |ops|
    ensures InClockOrder(ops[..n], now)
  {
  }

  /** The cache with one entry in it. */
  function Only<B>(config: Config, fqdn: Fqdn, version: Option<Version>, badge: B, now: Time): Maps<B> {
    WithEntry(config, Maps(map[], map[]), fqdn, version, badge, now)
  }

  lemma OnlyHolds<B>(config: Config, fqdn: Fqdn, version: Option<Version>, badge: B, now: Time)
    ensures Held(Only(config, fqdn, version, badge, now), fqdn, version) == Some(NewEntry(config, badge, now))
  {
  }

  /** Everything held is past stale retention. */
  predicate AllStale<B>(config: Config, m: Maps<B>, now: Time) {
    && (forall k | k in m.byFqdn :: now - config.staleRetention > m.byFqdn[k].expiresAt)
    && (forall k | k in m.byFqdnVer :: now - config.staleRetention > m.byFqdnVer[k].expiresAt)
  }

  lemma OnlyRetained<B>(entries: Entries<B>, deadline: Time, key: string, e: Entry<B>)
    requires deadline <= e.expiresAt && forall k | k in entries :: deadline > entries[k].expiresAt
    ensures Retained(entries, deadline) == map[] && Retained(entries[key := e], deadline) == map[key := e]
  {
  }

  lemma SurvivesAlone<B>(config: Config, m: Maps<B>, fqdn: Fqdn, version: Option<Version>, badge: B, now: Time)
    requires config.defaultTtl + config.staleRetention >= 0 && AllStale(config, m, now)
    ensures Survivors(config, WithEntry(config, m, fqdn, version, badge, now), now) == Only(config, fqdn, version, badge, now)
  {
    var key := if version.None? then fqdn else FqdnVersionKey(fqdn, version.value);
    OnlyRetained(m.byFqdn, now - config.staleRetention, key, NewEntry(config, badge, now));
    OnlyRetained(m.byFqdnVer, now - config.staleRetention, key, NewEntry(config, badge, now));
  }

  lemma NothingToEvict<B>(config: Config, m: Maps<B>, now: Time, s: Maps<B>)
    requires s == Survivors(config, m, now) && |s.byFqdn| + |s.byFqdnVer| <= config.maxEntries
    ensures Cleaned(config, m, now, s)
  {
  }

  /** An insertion that finds nothing but what its clean-up purges leaves its entry alone in the cache. */
  lemma InsertedAlone<B>(config: Config, m: Maps<B>, op: Op<B>)
    requires CanHold(config) && op.InsertOp? && op.now == op.cleanedAt && AllStale(config, m, op.now)
    ensures Next(config, m, op, Only(config, op.fqdn, op.version, op.badge, op.now))
  {
    var added, only := WithEntry(config, m, op.fqdn, op.version, op.badge, op.now), Only(config, op.fqdn, op.version, op.badge, op.now);
    SurvivesAlone(config, m, op.fqdn, op.version, op.badge, op.now);
    OnlyIsOne(config, op.fqdn, op.version, op.badge, op.now);
    NothingToEvict(config, added, op.now, only);
  }

  lemma OnlyIsOne<B>(config: Config, fqdn: Fqdn, version: Option<Version>, badge: B, now: Time)
    ensures var only := Only(config, fqdn, version, badge, now); |only.byFqdn| + |only.byFqdnVer| == 1
  {
  }

  /** One insertion at instant 0, alone in the cache. */
  lemma OneInsertion<B>(config: Config, badge: B, fqdn: Fqdn) returns (states: seq<Maps<B>>, ops: seq<Op<B>>)
    requires CanHold(config)
    ensures ops == [InsertOp(fqdn, None, badge, 0, 0, None)] && IsRun(config, states, ops) && RefreshesAreCollected(config, states, ops)
    ensures states == [Maps(map[], map[]), Only(config, fqdn, None, badge, 0)]
    ensures Held(states[1], fqdn, None) == Some(NewEntry(config, badge, 0)) && InClockOrder(ops, 0)
  {
    var op := InsertOp(fqdn, None, badge, 0, 0, None);
    InsertedAlone(config, Maps(map[], map[]), op);
    states, ops := Grow(config, [Maps(map[], map[])], [], op, Only(config, fqdn, None, badge, 0));
    OnlyHolds(config, fqdn, None, badge, 0);
  }

  /** A stale hit as old as the lifetime and maxStaleness together, whenever a hit so late is a hit after its insertion. */
  lemma OldestStaleHit<B>(config: Config, badge: B, fqdn: Fqdn, maxStaleness: Time) returns (states: seq<Maps<B>>, ops: seq<Op<B>>)
    requires CanHold(config) && config.defaultTtl + maxStaleness >= 0
    ensures var now := config.defaultTtl + maxStaleness;
      && IsRun(config, states, ops) && InClockOrder(ops, now) && InsertedLast(ops, 0, fqdn, None) && |ops| == 1
      && Stale(Held(states[1], fqdn, None), now, maxStaleness) == Some(badge)
      && now - ops[0].now == config.defaultTtl + maxStaleness
  {
    states, ops := OneInsertion(config, badge, fqdn);
  }

  /**
   When maxStaleness is the maximum age it is documented as: exactly when entries have no lifetime beyond
   their insertion, or no stale hit is possible at all.
   */
  lemma StaleHitsAreWithinIff<B(!new)>(config: Config, badge: B, maxStaleness: Time)
    ensures StaleHitsAreWithin<B>(config, maxStaleness)
       <==> config.defaultTtl <= 0 || config.defaultTtl + maxStaleness < 0 || !CanHold(config)
    ensures CanHold(config) && maxStaleness >= 0 ==> (StaleHitsAreWithin<B>(config, maxStaleness) <==> config.defaultTtl <= 0)
  {
    if config.defaultTtl <= 0 || config.defaultTtl + maxStaleness < 0 || !CanHold(config) {
      forall states: seq<Maps<B>>, ops: seq<Op<B>>, fqdn: Fqdn, version: Option<Version>, now: Time, i: nat
        | IsRun(config, states, ops) && InClockOrder(ops, now) && InsertedLast(ops, i, fqdn, version)
          && Stale(Held(states[|ops|], fqdn, version), now, maxStaleness).Some?
        ensures now - ops[i].now <= maxStaleness
      {
        HeldMeansCanHold(config, states, ops, fqdn, version, now);
        var j := BadgeAgeIsBounded(config, states, ops, fqdn, version, now, maxStaleness);
        InsertedLastIsUnique(ops, i, j, fqdn, version);
      }
    } else {
      var states, ops := OldestStaleHit(config, badge, WitnessFqdn(), maxStaleness);
      assert InsertedLast(ops, 0, WitnessFqdn(), None);
    }
  }

  // ----- When the background refresh can introduce a key -----

  lemma PrefixIsRun<B>(config: Config, states: seq<Maps<B>>, ops: seq<Op<B>>, n: nat)
    requires IsRun(config, states, ops) && n <= |ops|
    ensures IsRun(config, states[..n + 1], ops[..n]) && states[..n + 1][n] == states[n]
  {
    forall i | 0 <= i < n ensures Next(config, states[..n + 1][i], ops[..n][i], states[..n + 1][i + 1]) {
      assert Next(config, states[i], ops[i], states[i + 1]);
    }
  }

  /** In this run under one clock, refresh insertion i puts a name in the cache that was not there just before. */
  ghost predicate RefreshIntroduces<B>(config: Config, states: seq<Maps<B>>, ops: seq<Op<B>>, now: Time, i: nat) {
    && IsRun(config, states, ops) && RefreshesAreCollected(config, states, ops) && InClockOrder(ops, now)
    && i < |ops| && ops[i].InsertOp? && ops[i].collectedAt.Some?
    && ops[i].fqdn !in states[i].byFqdn && ops[i].fqdn in states[i + 1].byFqdn
  }

  ghost predicate RefreshCanIntroduce<B(!new)>(config: Config) {
    exists states: seq<Maps<B>>, ops: seq<Op<B>>, now: Time, i: nat :: RefreshIntroduces(config, states, ops, now, i)
  }

  /** A refresh insertion follows a collection that found its name held; so the configuration can hold an entry. */
  lemma RefreshedMeansCanHold<B>(config: Config, states: seq<Maps<B>>, ops: seq<Op<B>>, now: Time, i: nat)
    requires IsRun(config, states, ops) && RefreshesAreCollected(config, states, ops) && InClockOrder(ops, now)
    requires i < |ops| && ops[i].InsertOp? && ops[i].collectedAt.Some?
    ensures CanHold(config)
  {
    var c, name := ops[i].collectedAt.value, ops[i].fqdn;
    assert CollectedAt(config, states, ops, c, name);
    PrefixIsRun(config, states, ops, c);
    PrefixInClockOrder(ops, now, c);
    HeldMeansCanHold(config, states[..c + 1], ops[..c], name, None, now);
  }

  /** The instants of the run below: when the entry is near its expiry, when it is too stale, and when the next one is. */
  function NearAt(config: Config): Time {
    Max(0, config.defaultTtl - config.refreshThreshold + 1)
  }

  function PurgedAt(config: Config, insertedAt: Time, notBefore: Time): Time {
    Max(notBefore, insertedAt + config.defaultTtl + config.staleRetention + 1)
  }

  /** The clock goes on with one more operation. */
  lemma MoreInClockOrder<B>(ops: seq<Op<B>>, op: Op<B>, before: Time)
    requires InClockOrder(ops, before) && before <= op.now <= LastReading(op)
    ensures InClockOrder(ops + [op], LastReading(op))
  {
    forall i, j | 0 <= i < j < |ops + [op]| ensures LastReading((ops + [op])[i]) <= (ops + [op])[j].now {
      assert (ops + [op])[i] == ops[i];
    }
  }

  /** A run under one clock grows by an insertion that finds nothing but what its clean-up purges. */
  lemma GrowAlone<B>(config: Config, states: seq<Maps<B>>, ops: seq<Op<B>>, op: Op<B>, before: Time)
      returns (states': seq<Maps<B>>, ops': seq<Op<B>>)
    requires CanHold(config) && IsRun(config, states, ops) && RefreshesAreCollected(config, states, ops) && InClockOrder(ops, before)
    requires op.InsertOp? && before <= op.now == op.cleanedAt && AllStale(config, states[|ops|], op.now)
    requires op.collectedAt.Some? ==> op.version.None? && CollectedAt(config, states, ops, op.collectedAt.value, op.fqdn)
    ensures IsRun(config, states', ops') && RefreshesAreCollected(config, states', ops') && InClockOrder(ops', op.now)
    ensures ops' == ops + [op] && states' == states + [Only(config, op.fqdn, op.version, op.badge, op.now)]
  {
    InsertedAlone(config, states[|ops|], op);
    MoreInClockOrder(ops, op, before);
    states', ops' := Grow(config, states, ops, op, Only(config, op.fqdn, op.version, op.badge, op.now));
  }

  /** One name inserted at instant 0 and collected as soon as it is near its expiry. */
  lemma CollectedAlone<B>(config: Config, badge: B, a: Fqdn) returns (states: seq<Maps<B>>, ops: seq<Op<B>>)
    requires CanHold(config)
    ensures IsRun(config, states, ops) && RefreshesAreCollected(config, states, ops) && InClockOrder(ops, NearAt(config))
    ensures |ops| == 2 && ops[0].InsertOp? && states[2] == Only(config, a, None, badge, 0) && CollectedAt(config, states, ops, 1, a)
  {
    var near := NearAt(config);
    states, ops := OneInsertion(config, badge, a);
    var collect: Op<B> := CollectOp(near, near, map[a := near]);
    MoreInClockOrder(ops, collect, 0);
    states, ops := Grow(config, states, ops, collect, Only(config, a, None, badge, 0));
  }

  lemma OnlyGoesStale<B>(config: Config, fqdn: Fqdn, version: Option<Version>, badge: B, at: Time, notBefore: Time)
    ensures AllStale(config, Only(config, fqdn, version, badge, at), PurgedAt(config, at, notBefore))
  {
  }

  /** Then purged, too stale while its refresh is under way, by an insertion for one of its versions. */
  lemma PurgedAlone<B>(config: Config, badge: B, a: Fqdn, v: Version) returns (states: seq<Maps<B>>, ops: seq<Op<B>>, purged: Time)
    requires CanHold(config)
    ensures IsRun(config, states, ops) && RefreshesAreCollected(config, states, ops) && InClockOrder(ops, purged)
    ensures |ops| == 3 && (forall i | 0 <= i < 3 :: !ops[i].ClearOp?)
    ensures states[3] == Only(config, a, Some(v), badge, purged) && CollectedAt(config, states, ops, 1, a)
  {
    purged := PurgedAt(config, 0, NearAt(config));
    states, ops := CollectedAlone(config, badge, a);
    OnlyGoesStale(config, a, None, badge, 0, NearAt(config));
    states, ops := GrowAlone(config, states, ops, InsertOp(a, Some(v), badge, purged, purged, None), NearAt(config));
  }

  /**
   The run, for every configuration that can hold an entry, without clearing and with one name: the name is
   collected near its expiry, and purged as too stale while its refresh is under way; the refresh brings it back.
   */
  lemma RefreshBringsBack<B>(config: Config, badge: B, a: Fqdn, v: Version)
      returns (states: seq<Maps<B>>, ops: seq<Op<B>>, now: Time)
    requires CanHold(config)
    ensures |ops| == 4 && RefreshIntroduces(config, states, ops, now, 3) && forall i | 0 <= i < 4 :: !ops[i].ClearOp?
  {
    var purged;
    states, ops, purged := PurgedAlone(config, badge, a, v);
    now := PurgedAt(config, purged, purged);
    OnlyGoesStale(config, a, Some(v), badge, purged, purged);
    states, ops := GrowAlone(config, states, ops, InsertOp(a, None, badge, now, now, Some(1)), purged);
  }

  /** The refresh can introduce a key exactly under the configurations that can hold an entry at all. */
  lemma RefreshCanIntroduceIff<B(!new)>(config: Config, badge: B)
    ensures RefreshCanIntroduce<B>(config) <==> CanHold(config)
  {
    if CanHold(config) {
      var states, ops, now := RefreshBringsBack(config, badge, WitnessFqdn(), Version(0, 0, 0));
    }
    if states: seq<Maps<B>>, ops: seq<Op<B>>, now: Time, i: nat :| RefreshIntroduces(config, states, ops, now, i) {
      RefreshedMeansCanHold(config, states, ops, now, i);
    }
  }

  // ----- When an insertion is sure to stay -----

  lemma {:induction false} SubsetOfSize<T>(s: set<T>, x: T, n: nat) returns (t: set<T>)
    requires x in s && n < |s|
    ensures t <= s - {x} && |t| == n
  {
    if n == 0 {
      t := {};
    } else {
      t := SubsetOfSize(s, x, n - 1);
      assert |s - {x} - t| == |s - {x}| - |t|;
      var y :| y in s - {x} - t;
      t := t + {y};
    }
  }

  function Restrict<B>(entries: Entries<B>, keys: set<string>): Entries<B> {
    map k | k in entries && k in keys :: entries[k]
  }

  lemma SizeOfRestrict<B>(entries: Entries<B>, keys: set<string>)
    requires keys <= entries.Keys
    ensures |Restrict(entries, keys)| == |keys|
  {
    assert Restrict(entries, keys).Keys == keys;
  }

  lemma {:induction false} SameSizeSubset<T>(a: set<T>, b: set<T>)
    requires a <= b && |a| == |b|
    ensures a == b
  {
    assert |b - a| == |b| - |a|;
  }

  lemma SubMapOfSameSize<B>(a: Entries<B>, b: Entries<B>)
    requires SubMap(a, b) && |a| == |b|
    ensures a == b
  {
    assert |a.Keys| == |b.Keys|;
    SameSizeSubset(a.Keys, b.Keys);
  }

  /** Some survivors of the right sizes, without one given key of byFqdn. */
  lemma CleanupDropping<B>(config: Config, m: Maps<B>, now: Time, key: string) returns (m': Maps<B>)
    requires var s := Survivors(config, m, now); key in s.byFqdn && Excess(config, s) > 0
    ensures Cleaned(config, m, now, m') && key !in m'.byFqdn
  {
    var s := Survivors(config, m, now);
    var fromFqdn := Min(|s.byFqdn|, Excess(config, s));
    var f := SubsetOfSize(s.byFqdn.Keys, key, |s.byFqdn| - fromFqdn);
    var v := SubsetOfAnySize(s.byFqdnVer.Keys, |s.byFqdnVer| - Min(|s.byFqdnVer|, Excess(config, s) - fromFqdn));
    SizeOfRestrict(s.byFqdn, f);
    SizeOfRestrict(s.byFqdnVer, v);
    m' := Maps(Restrict(s.byFqdn, f), Restrict(s.byFqdnVer, v));
  }

  lemma CleanupDroppingVersion<B>(config: Config, m: Maps<B>, now: Time, key: string) returns (m': Maps<B>)
    requires var s := Survivors(config, m, now); key in s.byFqdnVer && Excess(config, s) > |s.byFqdn|
    ensures Cleaned(config, m, now, m') && key !in m'.byFqdnVer
  {
    var s := Survivors(config, m, now);
    var v := SubsetOfSize(s.byFqdnVer.Keys, key, |s.byFqdnVer| - Min(|s.byFqdnVer|, Excess(config, s) - |s.byFqdn|));
    SizeOfRestrict(s.byFqdnVer, v);
    m' := Maps(map[], Restrict(s.byFqdnVer, v));
  }

  lemma SubsetOfAnySize<T>(s: set<T>, n: nat) returns (t: set<T>)
    requires n <= |s|
    ensures t <= s && |t| == n
  {
    if n == |s| {
      t := s;
    } else {
      var x :| x in s;
      t := SubsetOfSize(s, x, n);
    }
  }

  /**
   An entry that outlives the stale purge is sure to stay exactly when the eviction has nothing to take
   from its map: for a name, when the survivors fit the cap; for a version, when those of its own map do.
   So an insertion over capacity may evict the entry it has just added.
   */
  lemma SureToStayIff<B>(config: Config, m: Maps<B>, now: Time, fqdn: Fqdn, version: Option<Version>)
    requires Held(Survivors(config, m, now), fqdn, version).Some?
    ensures var s := Survivors(config, m, now);
      (forall m' :: Cleaned(config, m, now, m') ==> Held(m', fqdn, version).Some?)
      <==> if version.None? then |s.byFqdn| + |s.byFqdnVer| <= config.maxEntries else |s.byFqdnVer| <= config.maxEntries
  {
    var s := Survivors(config, m, now);
    if version.None? {
      if Excess(config, s) > 0 {
        var m' := CleanupDropping(config, m, now, fqdn);
        assert Held(m', fqdn, version).None?;
      } else {
        forall m' | Cleaned(config, m, now, m') ensures Held(m', fqdn, version).Some? {
          SubMapOfSameSize(m'.byFqdn, s.byFqdn);
        }
      }
    } else {
      if Excess(config, s) > |s.byFqdn| {
        var m' := CleanupDroppingVersion(config, m, now, FqdnVersionKey(fqdn, version.value));
        assert Held(m', fqdn, version).None?;
      } else {
        forall m' | Cleaned(config, m, now, m') ensures Held(m', fqdn, version).Some? {
          SubMapOfSameSize(m'.byFqdnVer, s.byFqdnVer);
        }
      }
    }
  }

  /** There is always some way to clean up. */
  lemma SomeCleanup<B>(config: Config, m: Maps<B>, now: Time) returns (m': Maps<B>)
    ensures Cleaned(config, m, now, m')
  {
    var s := Survivors(config, m, now);
    var fromFqdn := Min(|s.byFqdn|, Excess(config, s));
    var f := SubsetOfAnySize(s.byFqdn.Keys, |s.byFqdn| - fromFqdn);
    var v := SubsetOfAnySize(s.byFqdnVer.Keys, |s.byFqdnVer| - Min(|s.byFqdnVer|, Excess(config, s) - fromFqdn));
    SizeOfRestrict(s.byFqdn, f);
    SizeOfRestrict(s.byFqdnVer, v);
    m' := Maps(Restrict(s.byFqdn, f), Restrict(s.byFqdnVer, v));
  }

  lemma RunGoesOnIff<B>(config: Config, states: seq<Maps<B>>, ops: seq<Op<B>>, op: Op<B>, m': Maps<B>)
    requires IsRun(config, states, ops)
    ensures IsRun(config, states + [m'], ops + [op]) <==> Next(config, states[|ops|], op, m')
  {
    if Next(config, states[|ops|], op, m') {
      MoreIsRun(config, states, ops, op, m');
    }
    if IsRun(config, states + [m'], ops + [op]) {
      RunEndsWith(config, states + [m'], ops + [op], |ops|);
    }
  }

  /**
   Over every run, what is held for a name or a version, or just inserted, is sure to survive an insertion
   exactly when its entry is within stale retention and what survives the purge fits the cap; for a version,
   when the versions do, as names are evicted first.
   */
  lemma SurvivesIff<B>(config: Config, states: seq<Maps<B>>, ops: seq<Op<B>>, op: Op<B>, fqdn: Fqdn, version: Option<Version>)
    requires IsRun(config, states, ops) && op.InsertOp? && op.now <= op.cleanedAt
    ensures var m := WithEntry(config, states[|ops|], op.fqdn, op.version, op.badge, op.now);
      var held, s := Held(m, fqdn, version), Survivors(config, m, op.cleanedAt);
      (forall m' :: IsRun(config, states + [m'], ops + [op]) ==> Held(m', fqdn, version).Some?)
      <==> (&& held.Some? && op.cleanedAt - config.staleRetention <= held.value.expiresAt
            && if version.None? then |s.byFqdn| + |s.byFqdnVer| <= config.maxEntries else |s.byFqdnVer| <= config.maxEntries)
  {
    var m := WithEntry(config, states[|ops|], op.fqdn, op.version, op.badge, op.now);
    forall m': Maps<B> ensures IsRun(config, states + [m'], ops + [op]) <==> Cleaned(config, m, op.cleanedAt, m') {
      RunGoesOnIff(config, states, ops, op, m');
    }
    if Held(Survivors(config, m, op.cleanedAt), fqdn, version).Some? {
      SureToStayIff(config, m, op.cleanedAt, fqdn, version);
    } else {
      var m' := SomeCleanup(config, m, op.cleanedAt);
      assert IsRun(config, states + [m'], ops + [op]) && Held(m', fqdn, version).None?;
    }
  }

  // ----- The cache -----

  class BadgeCache<B> {
    var byFqdn: Entries<B>
    var byFqdnVer: Entries<B>
    const config: Config
    /** The run so far: the states passed through and the operations between them. */
    ghost var states: seq<Maps<B>>
    ghost var ops: seq<Op<B>>

    ghost function Now(): Maps<B>
      reads this
    {
      Maps(byFqdn, byFqdnVer)
    }

    ghost predicate Valid()
      reads this
    {
      && IsRun(config, states, ops) && states[|ops|] == Now()
      && RefreshesAreCollected(config, states, ops)
    }

    constructor (config: Config)
      ensures Valid() && Now() == Maps(map[], map[]) && ops == [] && this.config == config
    {
      this.byFqdn, this.byFqdnVer, this.config := map[], map[], config;
      states, ops := [Maps(map[], map[])], [];
    }

    method GetByFqdn(fqdn: Fqdn, now: Time) returns (r: Option<B>)
      requires Valid()
      ensures r == Fresh(Held(Now(), fqdn, None), now)
    {
      if fqdn !in byFqdn {
        return None;
      }
      if now > byFqdn[fqdn].expiresAt {
        return None;
      }
      return Some(byFqdn[fqdn].badge);
    }

    method GetByFqdnVersion(fqdn: Fqdn, version: Version, now: Time) returns (r: Option<B>)
      requires Valid()
      ensures r == Fresh(Held(Now(), fqdn, Some(version)), now)
    {
      var key := FqdnVersionKey(fqdn, version);
      if key !in byFqdnVer {
        return None;
      }
      if now > byFqdnVer[key].expiresAt {
        return None;
      }
      return Some(byFqdnVer[key].badge);
    }

    method GetStaleByFqdn(fqdn: Fqdn, maxStaleness: Time, now: Time) returns (r: Option<B>)
      requires Valid()
      ensures r == Stale(Held(Now(), fqdn, None), now, maxStaleness)
    {
      if fqdn !in byFqdn || now - byFqdn[fqdn].expiresAt > maxStaleness {
        return None;
      }
      return Some(byFqdn[fqdn].badge);
    }

    method GetStaleByFqdnVersion(fqdn: Fqdn, version: Version, maxStaleness: Time, now: Time) returns (r: Option<B>)
      requires Valid()
      ensures r == Stale(Held(Now(), fqdn, Some(version)), now, maxStaleness)
    {
      var key := FqdnVersionKey(fqdn, version);
      if key !in byFqdnVer || now - byFqdnVer[key].expiresAt > maxStaleness {
        return None;
      }
      return Some(byFqdnVer[key].badge);
    }

    method Insert(fqdn: Fqdn, badge: B, now: Time, cleanedAt: Time)
      requires Valid() && now <= cleanedAt
      modifies this
      ensures Valid() && states == old(states) + [Now()]
      ensures ops == old(ops) + [InsertOp(fqdn, None, badge, now, cleanedAt, None)]
    {
      InsertCollected(fqdn, badge, now, cleanedAt, None);
    }

    /** Insert, with the collection it acts on when the background refresh calls it. */
    method InsertCollected(fqdn: Fqdn, badge: B, now: Time, cleanedAt: Time, ghost collectedAt: Option<nat>)
      requires Valid() && now <= cleanedAt
      requires collectedAt.Some? ==> CollectedAt(config, states, ops, collectedAt.value, fqdn)
      modifies this
      ensures Valid() && states == old(states) + [Now()]
      ensures ops == old(ops) + [InsertOp(fqdn, None, badge, now, cleanedAt, collectedAt)]
    {
      byFqdn := byFqdn[fqdn := NewEntry(config, badge, now)];
      CleanupLocked(cleanedAt);
      Recorded(config, states, ops, InsertOp(fqdn, None, badge, now, cleanedAt, collectedAt), Now());
      states, ops := states + [Now()], ops + [InsertOp(fqdn, None, badge, now, cleanedAt, collectedAt)];
    }

    method InsertForVersion(fqdn: Fqdn, version: Version, badge: B, now: Time, cleanedAt: Time)
      requires Valid() && now <= cleanedAt
      modifies this
      ensures Valid() && states == old(states) + [Now()]
      ensures ops == old(ops) + [InsertOp(fqdn, Some(version), badge, now, cleanedAt, None)]
    {
      byFqdnVer := byFqdnVer[FqdnVersionKey(fqdn, version) := NewEntry(config, badge, now)];
      CleanupLocked(cleanedAt);
      Recorded(config, states, ops, InsertOp(fqdn, Some(version), badge, now, cleanedAt, None), Now());
      states, ops := states + [Now()], ops + [InsertOp(fqdn, Some(version), badge, now, cleanedAt, None)];
    }

    method Clear(ghost now: Time)
      requires Valid()
      modifies this
      ensures Valid() && Now() == Maps(map[], map[])
      ensures states == old(states) + [Now()] && ops == old(ops) + [ClearOp(now)]
    {
      byFqdn, byFqdnVer := map[], map[];
      Recorded(config, states, ops, ClearOp(now), Now());
      states, ops := states + [Now()], ops + [ClearOp(now)];
    }

    method CleanupLocked(now: Time)
      modifies this`byFqdn, this`byFqdnVer
      ensures Cleaned(config, old(Now()), now, Now())
    {
      var staleDeadline := now - config.staleRetention;
      byFqdn := DropStale(byFqdn, staleDeadline);
      byFqdnVer := DropStale(byFqdnVer, staleDeadline);
      var totalEntries := |byFqdn| + |byFqdnVer|;
      if totalEntries > config.maxEntries {
        var toRemove := totalEntries - config.maxEntries;
        var removed := 0;
        byFqdn, removed := DropSome(byFqdn, removed, toRemove);
        byFqdnVer, removed := DropSome(byFqdnVer, removed, toRemove);
      }
    }

    /** The read-locked section of the background refresh: the names near expiry, each by its own reading of the clock. */
    method CollectExpiring(now: Time, doneAt: Time, readings: map<string, Time>) returns (keysToRefresh: set<string>)
      requires Valid() && ReadFor(byFqdn, now, doneAt, readings)
      modifies this`states, this`ops
      ensures Valid() && keysToRefresh == NearExpiry(config, byFqdn, readings)
      ensures states == old(states) + [Now()] && ops == old(ops) + [CollectOp(now, doneAt, readings)]
    {
      keysToRefresh := {};
      var keys := byFqdn.Keys;
      while keys != {}
        invariant keys <= byFqdn.Keys && states == old(states) && ops == old(ops)
        invariant keysToRefresh == NearExpiry(config, byFqdn, readings) - keys
      {
        var key :| key in keys;
        if readings[key] + config.refreshThreshold > byFqdn[key].expiresAt {
          keysToRefresh := keysToRefresh + {key};
        }
        keys := keys - {key};
      }
      Recorded(config, states, ops, CollectOp(now, doneAt, readings), Now());
      states, ops := states + [Now()], ops + [CollectOp(now, doneAt, readings)];
    }

    /** One turn of its loop, whatever happened to the cache since the collection; an error leaves the cache alone. */
    method RefreshOne(key: string, badge: Option<B>, now: Time, cleanedAt: Time, ghost at: nat)
      requires Valid() && now <= cleanedAt && CollectedAt(config, states, ops, at, key)
      modifies this
      ensures Valid()
      ensures badge.None? ==> ops == old(ops) && states == old(states)
      ensures badge.Some? ==> NewFqdn(key) == Ok(key)
      ensures badge.Some? ==> ops == old(ops) + [InsertOp(key, None, badge.value, now, cleanedAt, Some(at))]
      ensures badge.Some? ==> states == old(states) + [Now()]
    {
      HeldKeysAreNames(config, states, ops, at, key);
      if badge.None? {
        return;
      }
      var fqdn := NewFqdn(key);
      if fqdn.Err? {
        return;
      }
      InsertCollected(fqdn.value, badge.value, now, cleanedAt, Some(at));
    }

    /** The whole refresh when nobody else uses the cache meanwhile: it introduces no key. */
    method RefreshExpiring(refresh: string -> Option<B>, now: Time, doneAt: Time, readings: map<string, Time>)
      requires Valid() && ReadFor(byFqdn, now, doneAt, readings)
      modifies this
      ensures Valid() && byFqdn.Keys <= old(byFqdn.Keys) && byFqdnVer.Keys <= old(byFqdnVer.Keys)
    {
      ghost var was, at := byFqdn, |ops|;
      var keysToRefresh := CollectExpiring(now, doneAt, readings);
      assert CollectedHere(states, ops, at, was, readings);
      while keysToRefresh != {}
        invariant Valid() && CollectedHere(states, ops, at, was, readings)
        invariant keysToRefresh <= NearExpiry(config, was, readings)
        invariant byFqdn.Keys <= was.Keys && byFqdnVer.Keys <= old(byFqdnVer.Keys)
      {
        var key :| key in keysToRefresh;
        keysToRefresh := keysToRefresh - {key};
        var badge := refresh(key);
        var readAt, cleanedAt: Time :| doneAt <= readAt <= cleanedAt;
        ghost var states0, ops0 := states, ops;
        assert CollectedAt(config, states, ops, at, key);
        RefreshOne(key, badge, readAt, cleanedAt, at);
        if badge.Some? {
          InsertKeepsKeys(config, states0, ops0, ops[|ops0|], Now());
        }
      }
    }
  }

  /** The collection with these readings stands at this position of the run, over these entries. */
  ghost predicate CollectedHere<B>(states: seq<Maps<B>>, ops: seq<Op<B>>, at: nat, byFqdn: Entries<B>, readings: map<string, Time>) {
    && |states| == |ops| + 1 && at < |ops|
    && ops[at].CollectOp? && ops[at].readings == readings && states[at].byFqdn == byFqdn
  }

  lemma InsertKeepsKeys<B>(config: Config, states: seq<Maps<B>>, ops: seq<Op<B>>, op: Op<B>, m': Maps<B>)
    requires op.InsertOp? && op.version == None
    requires |states| == |ops| + 1 && IsRun(config, states + [m'], ops + [op])
    ensures m'.byFqdn.Keys <= states[|ops|].byFqdn.Keys + {op.fqdn} && m'.byFqdnVer.Keys <= states[|ops|].byFqdnVer.Keys
  {
    RunEndsWith(config, states + [m'], ops + [op], |ops|);
  }

  lemma StepOfMore<B>(config: Config, states: seq<Maps<B>>, ops: seq<Op<B>>, op: Op<B>, m: Maps<B>, i: nat)
    requires IsRun(config, states, ops) && i < |ops|
    ensures Next(config, (states + [m])[i], (ops + [op])[i], (states + [m])[i + 1])
  {
    assert Next(config, states[i], ops[i], states[i + 1]);
  }

  lemma StepAtEnd<B>(config: Config, states: seq<Maps<B>>, ops: seq<Op<B>>, op: Op<B>, m: Maps<B>, n: nat)
    requires |ops| == n && |states| == n + 1 && Next(config, states[n], op, m)
    ensures Next(config, (states + [m])[n], (ops + [op])[n], (states + [m])[n + 1])
  {
  }

  lemma MoreIsCollected<B>(config: Config, states: seq<Maps<B>>, ops: seq<Op<B>>, op: Op<B>, m: Maps<B>)
    requires |states| == |ops| + 1 && RefreshesAreCollected(config, states, ops)
    requires op.InsertOp? && op.collectedAt.Some? ==> op.version.None? && CollectedAt(config, states, ops, op.collectedAt.value, op.fqdn)
    ensures RefreshesAreCollected(config, states + [m], ops + [op])
  {
    var states', ops' := states + [m], ops + [op];
    forall i | 0 <= i < |ops'| && ops'[i].InsertOp? && ops'[i].collectedAt.Some?
      ensures ops'[i].version.None? && ops'[i].collectedAt.value < i
      ensures CollectedAt(config, states', ops', ops'[i].collectedAt.value, ops'[i].fqdn)
    {
      var c := ops'[i].collectedAt.value;
      if i < |ops| {
        assert ops'[i] == ops[i] && CollectedAt(config, states, ops, c, ops[i].fqdn);
      }
    }
  }

  lemma MoreIsRun<B>(config: Config, states: seq<Maps<B>>, ops: seq<Op<B>>, op: Op<B>, m: Maps<B>)
    requires IsRun(config, states, ops) && Next(config, states[|ops|], op, m)
    ensures IsRun(config, states + [m], ops + [op])
  {
    var states', ops' := states + [m], ops + [op];
    forall i | 0 <= i < |ops'| ensures Next(config, states'[i], ops'[i], states'[i + 1]) {
      if i < |ops| {
        StepOfMore(config, states, ops, op, m, i);
      } else {
        StepAtEnd(config, states, ops, op, m, i);
      }
    }
  }

  lemma Recorded<B>(config: Config, states: seq<Maps<B>>, ops: seq<Op<B>>, op: Op<B>, m: Maps<B>)
    requires IsRun(config, states, ops) && Next(config, states[|ops|], op, m)
    requires RefreshesAreCollected(config, states, ops)
    requires op.InsertOp? && op.collectedAt.Some? ==> op.version.None? && CollectedAt(config, states, ops, op.collectedAt.value, op.fqdn)
    ensures IsRun(config, states + [m], ops + [op]) && RefreshesAreCollected(config, states + [m], ops + [op])
  {
    MoreIsCollected(config, states, ops, op, m);
    MoreIsRun(config, states, ops, op, m);
  }

  /** A purge loop over one map. */
  method DropStale<B>(entries: Entries<B>, deadline: Time) returns (left: Entries<B>)
    ensures left == Retained(entries, deadline)
  {
    left := entries;
    var keys := entries.Keys;
    while keys != {}
      invariant keys <= entries.Keys
      invariant forall k :: k in left <==> k in entries && (k in keys || deadline <= entries[k].expiresAt)
      invariant forall k | k in left :: left[k] == entries[k]
    {
      var key :| key in keys;
      if deadline > left[key].expiresAt {
        left := left - {key};
      }
      keys := keys - {key};
    }
  }

  /** An eviction loop over one map, in whatever order it yields its keys, with the shared counter. */
  method DropSome<B>(entries: Entries<B>, already: nat, toRemove: nat) returns (left: Entries<B>, removed: nat)
    requires already <= toRemove
    ensures SubMap(left, entries)
    ensures removed == already + Min(|entries|, toRemove - already) && |left| == |entries| - (removed - already)
  {
    left, removed := entries, already;
    var keys := entries.Keys;
    while keys != {}
      invariant keys <= left.Keys && SubMap(left, entries)
      invariant already <= removed <= toRemove
      invariant |left| == |entries| - (removed - already)
      invariant |keys| == |left|
    {
      if removed >= toRemove {
        break;
      }
      var key :| key in keys;
      keys := keys - {key};
      left := left - {key};
      removed := removed + 1;
    }
  }
}
