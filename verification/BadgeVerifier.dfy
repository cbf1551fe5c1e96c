/** verify/verify.go: badge verification over the shared cache, and what the failure policy lets through. */
module BadgeVerifier {
  import opened Prelude
  import opened Names
  import opened BadgeCache

  datatype FailurePolicy = FailClosed | FailOpen | FailOpenWithCache

  datatype Verdict = Verified | InvalidStatus | FingerprintMismatch | HostnameMismatch | AnsNameMismatch

  datatype LookupError = DnsError | TlogError

  /** What DNS and the transparency log came back with. */
  datatype Fetch<+B> = Fetched(badge: B) | NoRecord | UrlRefused | Failed(error: LookupError)

  datatype Outcome<+B> =
    | Judged(badge: B, verdict: Verdict)
    | DaneRejected(badge: B)
    | NotAnsAgent
    | UrlInvalid
    | LookupFailed(error: LookupError)
    | FailedOpen(cached: Option<B>)

  /** One verification: how badges are judged and what DANE rejects. The server side looks up by name alone. */
  datatype Query<!B> = Query(fqdn: Fqdn, version: Option<Version>, judge: B -> Verdict, daneRejects: B -> bool)

  datatype Policy = Policy(failure: FailurePolicy, maxStaleness: Time)

  /** A hit decides, except that the server side takes a fingerprint mismatch as a sign of renewal and fetches. */
  predicate HitDecides<B>(q: Query<B>, badge: B) {
    q.version.Some? || q.judge(badge) != FingerprintMismatch
  }

  /** The outcome of a failed lookup. */
  function OnFailure<B>(policy: Policy, error: LookupError, stale: Option<B>): Outcome<B> {
    match policy.failure
    case FailClosed => LookupFailed(error)
    case FailOpenWithCache => if stale.Some? then FailedOpen(stale) else LookupFailed(error)
    case FailOpen => FailedOpen(None)
  }

  function OnFetched<B>(q: Query<B>, badge: B): Outcome<B> {
    if q.judge(badge) == Verified && q.daneRejects(badge) then DaneRejected(badge) else Judged(badge, q.judge(badge))
  }

  /** The outcome, given what the cache offers as fresh and as stale. */
  function Decided<B>(q: Query<B>, policy: Policy, hit: Option<B>, fetch: Fetch<B>, stale: Option<B>): Outcome<B> {
    if hit.Some? && HitDecides(q, hit.value) then Judged(hit.value, q.judge(hit.value))
    else
      match fetch
      case Fetched(badge) => OnFetched(q, badge)
      case NoRecord => NotAnsAgent
      case UrlRefused => UrlInvalid
      case Failed(error) => OnFailure(policy, error, stale)
  }

  /** Without a cache there is neither a hit nor a stale badge. */
  ghost function Hit<B>(cache: BadgeCache?<B>, q: Query<B>, now: Time): Option<B>
    reads cache
  {
    if cache == null then None else Fresh(Held(cache.Now(), q.fqdn, q.version), now)
  }

  ghost function StaleHit<B>(cache: BadgeCache?<B>, q: Query<B>, now: Time, maxStaleness: Time): Option<B>
    reads cache
  {
    if cache == null then None else Stale(Held(cache.Now(), q.fqdn, q.version), now, maxStaleness)
  }

  /** The verification both sides run; hitAt, staleAt and insertAt..cleanedAt are the clock readings it takes. */
  method Verify<B>(cache: BadgeCache?<B>, q: Query<B>, policy: Policy, fetch: Fetch<B>,
                   hitAt: Time, staleAt: Time, insertAt: Time, cleanedAt: Time)
    returns (o: Outcome<B>)
    requires cache != null ==> cache.Valid()
    requires insertAt <= cleanedAt
    modifies cache
    ensures cache != null ==> cache.Valid()
    ensures o == Decided(q, policy, old(Hit(cache, q, hitAt)), fetch, old(StaleHit(cache, q, staleAt, policy.maxStaleness)))
    ensures cache != null ==>
      cache.ops == old(cache.ops) + Inserted(q, old(Hit(cache, q, hitAt)), fetch, insertAt, cleanedAt)
  {
    if cache != null {
      var cached := Lookup(cache, q.fqdn, q.version, hitAt);
      if cached.Some? && HitDecides(q, cached.value) {
        return Judged(cached.value, q.judge(cached.value));
      }
    }
    match fetch {
      case NoRecord => return NotAnsAgent;
      case UrlRefused => return UrlInvalid;
      case Failed(error) =>
        o := ApplyFailurePolicy(cache, q, policy, error, staleAt);
      case Fetched(badge) =>
        if cache != null {
          if q.version.None? {
            cache.Insert(q.fqdn, badge, insertAt, cleanedAt);
          } else {
            cache.InsertForVersion(q.fqdn, q.version.value, badge, insertAt, cleanedAt);
          }
        }
        var verdict := q.judge(badge);
        if verdict != Verified {
          return Judged(badge, verdict);
        }
        if q.daneRejects(badge) {
          return DaneRejected(badge);
        }
        return Judged(badge, verdict);
    }
  }

  /** What a verification inserts: a badge it had to fetch. */
  function Inserted<B>(q: Query<B>, hit: Option<B>, fetch: Fetch<B>, insertAt: Time, cleanedAt: Time): seq<Op<B>> {
    if fetch.Fetched? && !(hit.Some? && HitDecides(q, hit.value))
    then [InsertOp(q.fqdn, q.version, fetch.badge, insertAt, cleanedAt, None)]
    else []
  }

  method Lookup<B>(cache: BadgeCache<B>, fqdn: Fqdn, version: Option<Version>, now: Time) returns (r: Option<B>)
    requires cache.Valid()
    ensures r == Fresh(Held(cache.Now(), fqdn, version), now)
  {
    if version.None? {
      r := cache.GetByFqdn(fqdn, now);
    } else {
      r := cache.GetByFqdnVersion(fqdn, version.value, now);
    }
  }

  method ApplyFailurePolicy<B>(cache: BadgeCache?<B>, q: Query<B>, policy: Policy, error: LookupError, staleAt: Time)
    returns (o: Outcome<B>)
    requires cache != null ==> cache.Valid()
    ensures o == OnFailure(policy, error, StaleHit(cache, q, staleAt, policy.maxStaleness))
  {
    match policy.failure {
      case FailClosed => return LookupFailed(error);
      case FailOpen => return FailedOpen(None);
      case FailOpenWithCache =>
        if cache == null {
          return LookupFailed(error);
        }
        var stale: Option<B>;
        if q.version.Some? {
          stale := cache.GetStaleByFqdnVersion(q.fqdn, q.version.value, policy.maxStaleness, staleAt);
        } else {
          stale := cache.GetStaleByFqdn(q.fqdn, policy.maxStaleness, staleAt);
        }
        return if stale.Some? then FailedOpen(stale) else LookupFailed(error);
    }
  }

  /** A badge of the latest insertion for the query's name and version, no older than a bound. */
  ghost predicate InsertedWithin<B>(ops: seq<Op<B>>, q: Query<B>, badge: B, now: Time, bound: Time) {
    exists i: nat :: InsertedLast(ops, i, q.fqdn, q.version) && ops[i].badge == badge && now - ops[i].now <= bound
  }

  /** A hit settles the verification: on the client side every hit, on the server side one whose fingerprint matches. */
  predicate Settles<B>(q: Query<B>, hit: Option<B>) {
    hit.Some? && (q.version.Some? || q.judge(hit.value) != FingerprintMismatch)
  }

  /** DANE rejects a badge that would be reported as verified. */
  predicate DaneOverrules<B>(q: Query<B>, b: B) {
    q.judge(b) == Verified && q.daneRejects(b)
  }

  /** A badge is reported with its verdict exactly when it is the hit that settles, or was fetched and is not overruled. */
  lemma JudgedIff<B>(q: Query<B>, policy: Policy, hit: Option<B>, fetch: Fetch<B>, stale: Option<B>, b: B, verdict: Verdict)
    ensures Decided(q, policy, hit, fetch, stale) == Judged(b, verdict) <==>
      verdict == q.judge(b) && if Settles(q, hit) then hit == Some(b) else fetch == Fetched(b) && !DaneOverrules(q, b)
  {
  }

  /** And as rejected by DANE exactly when it was fetched and is overruled. */
  lemma DaneRejectedIff<B>(q: Query<B>, policy: Policy, hit: Option<B>, fetch: Fetch<B>, stale: Option<B>, b: B)
    ensures Decided(q, policy, hit, fetch, stale) == DaneRejected(b) <==>
      !Settles(q, hit) && fetch == Fetched(b) && q.judge(b) == Verified && q.daneRejects(b)
  {
  }

  /** In particular a badge that DANE rejects is never reported as verified unless the cache settles it. */
  lemma VerifiedPassesDane<B>(q: Query<B>, policy: Policy, hit: Option<B>, fetch: Fetch<B>, stale: Option<B>, b: B)
    ensures Decided(q, policy, hit, fetch, stale) == Judged(b, Verified) && !Settles(q, hit) ==> !q.daneRejects(b)
  {
    JudgedIff(q, policy, hit, fetch, stale, b, Verified);
  }

  /** What a verification reports when there is no badge to judge. */
  lemma UnjudgedIff<B>(q: Query<B>, policy: Policy, hit: Option<B>, fetch: Fetch<B>, stale: Option<B>)
    ensures Decided(q, policy, hit, fetch, stale) == NotAnsAgent <==> !Settles(q, hit) && fetch == NoRecord
    ensures Decided(q, policy, hit, fetch, stale) == UrlInvalid <==> !Settles(q, hit) && fetch == UrlRefused
  {
  }

  /** When the failure policy stops a failed lookup, and when it lets the stale badge or nothing at all through. */
  lemma FailureIff<B>(q: Query<B>, policy: Policy, hit: Option<B>, fetch: Fetch<B>, stale: Option<B>, error: LookupError, cached: Option<B>)
    ensures Decided(q, policy, hit, fetch, stale) == LookupFailed(error) <==>
      (&& !Settles(q, hit) && fetch == Failed(error)
       && (policy.failure == FailClosed || (policy.failure == FailOpenWithCache && stale.None?)))
    ensures Decided(q, policy, hit, fetch, stale) == FailedOpen(cached) <==>
      (&& !Settles(q, hit) && fetch.Failed?
       && if cached.Some? then policy.failure == FailOpenWithCache && stale == cached else policy.failure == FailOpen)
  {
  }

  /**
   A verification that had to fetch a badge makes it the latest insertion for its name and version, stamped with its
   clock reading, so that it is held from then on unless the clean-up takes it; any other leaves the run as it is.
   */
  lemma FetchedIsCached<B>(config: Config, states: seq<Maps<B>>, ops: seq<Op<B>>, q: Query<B>, hit: Option<B>, fetch: Fetch<B>,
                           insertAt: Time, cleanedAt: Time)
    requires IsRun(config, states, ops + Inserted(q, hit, fetch, insertAt, cleanedAt))
    ensures fetch.Fetched? && !Settles(q, hit) ==>
      (&& InsertedLast(ops + Inserted(q, hit, fetch, insertAt, cleanedAt), |ops|, q.fqdn, q.version)
       && Held(states[|states| - 1], q.fqdn, q.version) in {None, Some(NewEntry(config, fetch.badge, insertAt))})
    ensures !fetch.Fetched? || Settles(q, hit) ==> Inserted(q, hit, fetch, insertAt, cleanedAt) == []
  {
    var all := ops + Inserted(q, hit, fetch, insertAt, cleanedAt);
    if fetch.Fetched? && !Settles(q, hit) && Held(states[|states| - 1], q.fqdn, q.version).Some? {
      var i := HeldIsLatestInsert(config, states, all, q.fqdn, q.version);
      assert InsertedLast(all, |ops|, q.fqdn, q.version);
      InsertedLastIsUnique(all, i, |ops|, q.fqdn, q.version);
    }
  }

  lemma FreshIsRecent<B>(config: Config, states: seq<Maps<B>>, ops: seq<Op<B>>, q: Query<B>, now: Time)
    requires IsRun(config, states, ops) && Fresh(Held(states[|ops|], q.fqdn, q.version), now).Some?
    ensures InsertedWithin(ops, q, Fresh(Held(states[|ops|], q.fqdn, q.version), now).value, now, config.defaultTtl)
  {
    var i := BadgeAgeIsBounded(config, states, ops, q.fqdn, q.version, now, 0);
  }

  lemma StaleIsRecent<B>(config: Config, states: seq<Maps<B>>, ops: seq<Op<B>>, q: Query<B>, now: Time, maxStaleness: Time)
    requires IsRun(config, states, ops) && Stale(Held(states[|ops|], q.fqdn, q.version), now, maxStaleness).Some?
    ensures InsertedWithin(ops, q, Stale(Held(states[|ops|], q.fqdn, q.version), now, maxStaleness).value, now,
                           config.defaultTtl + maxStaleness)
  {
    var i := BadgeAgeIsBounded(config, states, ops, q.fqdn, q.version, now, maxStaleness);
  }

  /**
   Where an outcome's badge comes from, over every run of the cache in which the fresh lookup comes at one
   point and the stale one at the same or a later point, whatever others do in between: it was fetched just
   now, and DANE does not reject it if it is reported as verified; or judged from the cache within its
   lifetime; or let through by fail-open-with-cache within the lifetime and maxStaleness. Fail-closed never lets
   anything through, and neither does any policy when there is no record.
   */
  lemma OutcomeBadgeIsRecent<B>(config: Config, states: seq<Maps<B>>, ops: seq<Op<B>>, hitIn: nat, staleIn: nat, q: Query<B>,
                                policy: Policy, fetch: Fetch<B>, hitAt: Time, staleAt: Time, o: Outcome<B>)
    requires IsRun(config, states, ops) && hitIn <= staleIn <= |ops|
    requires o == Decided(q, policy, Fresh(Held(states[hitIn], q.fqdn, q.version), hitAt), fetch,
                          Stale(Held(states[staleIn], q.fqdn, q.version), staleAt, policy.maxStaleness))
    ensures o.Judged? ==> o.verdict == q.judge(o.badge)
    ensures o.Judged? ==> fetch == Fetched(o.badge) || InsertedWithin(ops[..hitIn], q, o.badge, hitAt, config.defaultTtl)
    ensures o.Judged? && o.verdict == Verified && q.daneRejects(o.badge) ==>
      Settles(q, Fresh(Held(states[hitIn], q.fqdn, q.version), hitAt))
    ensures q.version.None? && o.Judged? && o.verdict == FingerprintMismatch ==> fetch == Fetched(o.badge)
    ensures o.DaneRejected? ==> fetch == Fetched(o.badge) && q.judge(o.badge) == Verified && q.daneRejects(o.badge)
    ensures o.FailedOpen? ==> fetch.Failed? && policy.failure != FailClosed
    ensures o.FailedOpen? && o.cached.Some? ==> policy.failure == FailOpenWithCache
    ensures o.FailedOpen? && o.cached.Some? ==>
      InsertedWithin(ops[..staleIn], q, o.cached.value, staleAt, config.defaultTtl + policy.maxStaleness)
  {
    var hit := Fresh(Held(states[hitIn], q.fqdn, q.version), hitAt);
    var stale := Stale(Held(states[staleIn], q.fqdn, q.version), staleAt, policy.maxStaleness);
    match o {
      case Judged(badge, verdict) =>
        JudgedIff(q, policy, hit, fetch, stale, badge, verdict);
        VerifiedPassesDane(q, policy, hit, fetch, stale, badge);
      case DaneRejected(badge) => DaneRejectedIff(q, policy, hit, fetch, stale, badge);
      case FailedOpen(cached) => FailureIff(q, policy, hit, fetch, stale, DnsError, cached);
      case _ =>
    }
    if hit.Some? {
      PrefixIsRun(config, states, ops, hitIn);
      FreshIsRecent(config, states[..hitIn + 1], ops[..hitIn], q, hitAt);
    }
    if stale.Some? {
      PrefixIsRun(config, states, ops, staleIn);
      StaleIsRecent(config, states[..staleIn + 1], ops[..staleIn], q, staleAt, policy.maxStaleness);
    }
  }
}
