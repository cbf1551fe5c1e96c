/**
 How many expiry generations the replay cache can hold when no expiry lies more than a retention past the
 instant it is recorded, and exactly when ceil(retention / width) + 1 is a bound.
 */
module GenerationBound {
  import opened Prelude
  import opened ReplayCache
  import opened ReplayRuns

  function CeilDiv(a: nat, b: nat): nat
    requires b > 0
  {
    (a + b - 1) / b
  }

  /** A run at non-negative times whose every recorded expiry is within the retention. */
  ghost predicate Retains(ops: seq<Op>, retention: nat) {
    && ClockNeverGoesBack(ops)
    && forall i | 0 <= i < |ops| :: ops[i].now >= 0 && (ops[i].CheckOp? ==> 0 <= ops[i].exp <= ops[i].now + retention)
  }

  /** Every entry lies in a generation from lo to hi. */
  ghost predicate Within(index: Index, lo: int, hi: int) {
    forall k | k in index :: lo <= BucketOf(index[k]) <= hi
  }

  function Ids(lo: int, hi: int): (ids: set<int>)
    requires lo <= hi + 1
    ensures |ids| == hi - lo + 1
    ensures forall id :: id in ids <==> lo <= id <= hi
    decreases hi - lo + 1
  {
    if lo == hi + 1 then {} else Ids(lo, hi - 1) + {hi}
  }

  lemma WithinBoundsGenerations(index: Index, lo: int, hi: int)
    requires Within(index, lo, hi) && lo <= hi + 1
    ensures |Generations(index)| <= hi - lo + 1
  {
    GenerationIds(index);
    forall id | id in Generations(index) ensures id in Ids(lo, hi) {
      var k :| k in Generation(index, id);
    }
    KeysOfSubset(Generations(index).Keys, Ids(lo, hi));
    assert |Generations(index)| == |Generations(index).Keys|;
  }

  lemma ExpiryWithin(exp: Time, now: Time, retention: nat)
    requires 0 <= exp <= now + retention && now >= 0
    ensures BucketOf(exp) <= (now + retention) / BUCKET_WIDTH
    ensures Passed(BucketOf(exp), now) <==> BucketOf(exp) < now / BUCKET_WIDTH
  {
  }

  /** No entry outlives the retention. */
  lemma {:induction false} RunRetains(maxEntries: nat, ops: seq<Op>, retention: nat, now: Time)
    requires Retains(ops, retention) && (ops != [] ==> ops[|ops| - 1].now <= now)
    ensures forall k | k in StateAfter(maxEntries, ops) :: 0 <= StateAfter(maxEntries, ops)[k] <= now + retention
  {
    if ops != [] {
      RunRetains(maxEntries, ops[..|ops| - 1], retention, ops[|ops| - 1].now);
    }
  }

  /** After an eviction every entry expires later than one bucket width before now. */
  lemma EvictedEntriesAreRecent(maxEntries: nat, ops: seq<Op>, retention: nat, now: Time)
    requires Retains(ops, retention) && (ops != [] ==> ops[|ops| - 1].now <= now)
    ensures var held := Unpassed(StateAfter(maxEntries, ops), now);
      forall k | k in held :: held[k] > now - BUCKET_WIDTH
  {
    RunRetains(maxEntries, ops, retention, now);
    var held := Unpassed(StateAfter(maxEntries, ops), now);
    forall k | k in held ensures held[k] > now - BUCKET_WIDTH {
      PassedMeansExpired(held[k], now);
    }
  }

  lemma SpanAtMostCeil(now: Time, retention: nat)
    requires now >= 0
    ensures (now + retention) / BUCKET_WIDTH - now / BUCKET_WIDTH <= CeilDiv(retention, BUCKET_WIDTH)
  {
  }

  /** The generations that are current at now for this retention. */
  function Span(now: Time, retention: nat): nat
    requires now >= 0
  {
    (now + retention) / BUCKET_WIDTH - now / BUCKET_WIDTH + 1
  }

  lemma UnpassedWithin(index: Index, retention: nat, now: Time)
    requires now >= 0 && forall k | k in index :: 0 <= index[k] <= now + retention
    ensures Within(Unpassed(index, now), now / BUCKET_WIDTH, (now + retention) / BUCKET_WIDTH)
  {
    forall k | k in Unpassed(index, now)
      ensures now / BUCKET_WIDTH <= BucketOf(index[k]) <= (now + retention) / BUCKET_WIDTH
    {
      ExpiryWithin(index[k], now, retention);
    }
  }

  lemma GenerationsAfterAdd(index: Index, key: string, exp: Time)
    requires key !in index
    ensures |Generations(index[key := exp])| <= |Generations(index)| + 1
  {
    GenerationsAdd(index, key, exp);
    var g, id := Generations(index), BucketOf(exp);
    assert g[id := Generation(index, id) + {key}].Keys == g.Keys + {id};
  }

  /** Whatever a call leaves of the entries it holds, and what recording one more adds. */
  lemma GenerationsOfLeft(held: Index, key: string, exp: Time, lo: int, hi: int)
    requires Within(held, lo, hi) && lo <= hi + 1
    ensures |Generations(held)| <= hi - lo + 1 && |Generations(held - {key})| <= hi - lo + 1
    ensures |Generations((held - {key})[key := exp])| <= hi - lo + 1 + if lo <= BucketOf(exp) <= hi then 0 else 1
  {
    var others := held - {key};
    assert Within(others, lo, hi);
    WithinBoundsGenerations(held, lo, hi);
    WithinBoundsGenerations(others, lo, hi);
    if lo <= BucketOf(exp) <= hi {
      assert Within(others[key := exp], lo, hi);
      WithinBoundsGenerations(others[key := exp], lo, hi);
    } else {
      GenerationsAfterAdd(others, key, exp);
    }
  }

  lemma CheckLeaves(index: Index, maxEntries: nat, key: string, exp: Time, now: Time)
    ensures var held, left := Unpassed(index, now), Check(index, maxEntries, key, exp, now).0;
      left == held || left == held - {key} || left == (held - {key})[key := exp]
  {
  }

  lemma GenerationsOfCheck(index: Index, maxEntries: nat, key: string, exp: Time, now: Time, retention: nat)
    requires now >= 0 && 0 <= exp <= now + retention
    requires forall k | k in index :: 0 <= index[k] <= now + retention
    ensures |Generations(Check(index, maxEntries, key, exp, now).0)|
         <= Span(now, retention) + if Passed(BucketOf(exp), now) then 1 else 0
  {
    CheckLeaves(index, maxEntries, key, exp, now);
    UnpassedWithin(index, retention, now);
    ExpiryWithin(exp, now, retention);
    GenerationsOfLeft(Unpassed(index, now), key, exp, now / BUCKET_WIDTH, (now + retention) / BUCKET_WIDTH);
  }

  lemma StateAfterOneMore(maxEntries: nat, ops: seq<Op>, op: Op)
    ensures StateAfter(maxEntries, ops + [op]) == Step(maxEntries, StateAfter(maxEntries, ops), op)
  {
    assert (ops + [op])[..|ops|] == ops;
  }

  /**
   The bound after a call: one generation per current id, plus one if the call recorded an expiry whose
   own generation had already passed.
   */
  lemma GenerationsAfterCheck(maxEntries: nat, ops: seq<Op>, key: string, exp: Time, now: Time, retention: nat)
    requires Retains(ops + [CheckOp(key, exp, now)], retention)
    ensures |Generations(StateAfter(maxEntries, ops + [CheckOp(key, exp, now)]))|
         <= Span(now, retention) + if Passed(BucketOf(exp), now) then 1 else 0
  {
    assert (ops + [CheckOp(key, exp, now)])[|ops|] == CheckOp(key, exp, now);
    RetainsBefore(ops, CheckOp(key, exp, now), retention);
    RunRetains(maxEntries, ops, retention, now);
    StateAfterOneMore(maxEntries, ops, CheckOp(key, exp, now));
    GenerationsOfCheck(StateAfter(maxEntries, ops), maxEntries, key, exp, now, retention);
  }

  lemma GenerationsOfUnpassed(index: Index, now: Time, retention: nat)
    requires now >= 0 && forall k | k in index :: 0 <= index[k] <= now + retention
    ensures |Generations(Unpassed(index, now))| <= Span(now, retention)
  {
    UnpassedWithin(index, retention, now);
    WithinBoundsGenerations(Unpassed(index, now), now / BUCKET_WIDTH, (now + retention) / BUCKET_WIDTH);
  }

  /** The bound after a sweep: one generation per current id. */
  lemma GenerationsAfterSweep(maxEntries: nat, ops: seq<Op>, now: Time, retention: nat)
    requires Retains(ops + [SweepOp(now)], retention) && now >= 0
    ensures |Generations(StateAfter(maxEntries, ops + [SweepOp(now)]))| <= Span(now, retention)
  {
    RetainsBefore(ops, SweepOp(now), retention);
    RunRetains(maxEntries, ops, retention, now);
    StateAfterOneMore(maxEntries, ops, SweepOp(now));
    GenerationsOfUnpassed(StateAfter(maxEntries, ops), now, retention);
  }

  lemma RetainsBefore(ops: seq<Op>, op: Op, retention: nat)
    requires Retains(ops + [op], retention)
    ensures Retains(ops, retention) && (ops != [] ==> ops[|ops| - 1].now <= op.now)
  {
    var all := ops + [op];
    assert all[|ops|] == op;
    assert forall i | 0 <= i < |ops| :: ops[i] == all[i];
  }

  lemma GenerationsOfNone()
    ensures |Generations(map[])| == 0
  {
    assert Generations(map[]) == map[];
  }

  lemma UnexpiredIsNotPassed(exp: Time, now: Time)
    requires exp > now
    ensures !Passed(BucketOf(exp), now)
  {
    PassedMeansExpired(exp, now);
  }

  lemma InitAndLast<T>(s: seq<T>, n: nat)
    requires |s| == n + 1
    ensures s == s[..n] + [s[n]]
  {
  }

  lemma SpanWithinCeil(now: Time, retention: nat)
    requires now >= 0
    ensures Span(now, retention) <= CeilDiv(retention, BUCKET_WIDTH) + 1
  {
    SpanAtMostCeil(now, retention);
  }

  lemma GenerationsAfterLiveCheck(maxEntries: nat, ops: seq<Op>, key: string, exp: Time, now: Time, retention: nat)
    requires Retains(ops + [CheckOp(key, exp, now)], retention) && now < exp
    ensures |Generations(StateAfter(maxEntries, ops + [CheckOp(key, exp, now)]))| <= Span(now, retention)
  {
    UnexpiredIsNotPassed(exp, now);
    GenerationsAfterCheck(maxEntries, ops, key, exp, now, retention);
  }

  lemma GenerationsAfterLast(maxEntries: nat, ops: seq<Op>, op: Op, retention: nat)
    requires Retains(ops + [op], retention) && !op.IdleOp? && op.now >= 0 && (op.CheckOp? ==> op.now < op.exp)
    ensures |Generations(StateAfter(maxEntries, ops + [op]))| <= CeilDiv(retention, BUCKET_WIDTH) + 1
  {
    SpanWithinCeil(op.now, retention);
    match op
    case CheckOp(key, exp, now) =>
      GenerationsAfterLiveCheck(maxEntries, ops, key, exp, now, retention);
    case SweepOp(now) =>
      GenerationsAfterSweep(maxEntries, ops, now, retention);
  }

  /** Calls for live expiries, sweeps and idle moments never leave more generations than that. */
  lemma {:induction false} GenerationsOfOps(maxEntries: nat, ops: seq<Op>, retention: nat)
    requires Retains(ops, retention) && forall i | 0 <= i < |ops| && ops[i].CheckOp? :: ops[i].now < ops[i].exp
    ensures |Generations(StateAfter(maxEntries, ops))| <= CeilDiv(retention, BUCKET_WIDTH) + 1
  {
    if ops == [] {
      GenerationsOfNone();
    } else {
      var n := |ops| - 1;
      InitAndLast(ops, n);
      if ops[n].IdleOp? {
        GenerationsOfOps(maxEntries, ops[..n], retention);
      } else {
        GenerationsAfterLast(maxEntries, ops[..n], ops[n], retention);
      }
    }
  }

  // ----- When ceil(retention / width) + 1 is a bound -----

  /** The claim for calls at one instant with one expiry, over every run that ends in such a call. */
  ghost predicate CeilBoundHolds(now: Time, exp: Time, retention: nat) {
    forall maxEntries: nat, ops: seq<Op>, key ::
      Retains(ops + [CheckOp(key, exp, now)], retention) ==>
        |Generations(StateAfter(maxEntries, ops + [CheckOp(key, exp, now)]))| <= CeilDiv(retention, BUCKET_WIDTH) + 1
  }

  function KeyNumber(i: nat): string {
    seq(i, _ => 'k')
  }

  function FillOp(now: Time, lo: nat, i: nat): Op {
    CheckOp(KeyNumber(i), (lo + i) * BUCKET_WIDTH, now)
  }

  /** A run that records one expiry in each of the generations lo, lo + 1, ... at one instant. */
  function Fill(now: Time, lo: nat, n: nat): (ops: seq<Op>)
    ensures |ops| == n
    ensures forall i | 0 <= i < n :: ops[i] == FillOp(now, lo, i)
  {
    if n == 0 then [] else Fill(now, lo, n - 1) + [FillOp(now, lo, n - 1)]
  }

  /** The index that Fill builds. */
  ghost predicate Filled(index: Index, lo: nat, n: nat) {
    && (forall i: nat | i < n :: KeyNumber(i) in index && index[KeyNumber(i)] == (lo + i) * BUCKET_WIDTH)
    && (forall k | k in index :: |k| < n && k == KeyNumber(|k|))
  }

  lemma CheckOfNewKey(index: Index, maxEntries: nat, key: string, exp: Time, now: Time)
    requires Unpassed(index, now) == index && key !in index && |index| < maxEntries
    ensures Check(index, maxEntries, key, exp, now) == (index[key := exp], Recorded)
  {
    assert index - {key} == index;
  }

  lemma FilledMore(index: Index, lo: nat, n: nat)
    requires Filled(index, lo, n)
    ensures KeyNumber(n) !in index
    ensures Filled(index[KeyNumber(n) := (lo + n) * BUCKET_WIDTH], lo, n + 1)
  {
    var more := index[KeyNumber(n) := (lo + n) * BUCKET_WIDTH];
    forall i: nat | i < n + 1 ensures KeyNumber(i) in more && more[KeyNumber(i)] == (lo + i) * BUCKET_WIDTH {
      assert |KeyNumber(i)| == i && |KeyNumber(n)| == n;
    }
  }

  lemma FillOneMore(index: Index, maxEntries: nat, now: Time, lo: nat, n: nat)
    requires (lo + 1) * BUCKET_WIDTH > now && n < maxEntries && Filled(index, lo, n) && |index| == n
    ensures var more := Step(maxEntries, index, FillOp(now, lo, n));
      Filled(more, lo, n + 1) && |more| == n + 1
  {
    FilledIsUnpassed(index, now, lo, n);
    FilledMore(index, lo, n);
    CheckOfNewKey(index, maxEntries, KeyNumber(n), (lo + n) * BUCKET_WIDTH, now);
  }

  lemma {:induction false} FillFills(maxEntries: nat, now: Time, lo: nat, n: nat)
    requires (lo + 1) * BUCKET_WIDTH > now && n <= maxEntries
    ensures Filled(StateAfter(maxEntries, Fill(now, lo, n)), lo, n)
    ensures |StateAfter(maxEntries, Fill(now, lo, n))| == n
  {
    if n != 0 {
      var ops, op := Fill(now, lo, n - 1), FillOp(now, lo, n - 1);
      var before := StateAfter(maxEntries, ops);
      FillFills(maxEntries, now, lo, n - 1);
      FillOneMore(before, maxEntries, now, lo, n - 1);
      StateAfterOneMore(maxEntries, ops, op);
      assert Fill(now, lo, n) == ops + [op];
    }
  }

  lemma FilledIsUnpassed(index: Index, now: Time, lo: nat, n: nat)
    requires (lo + 1) * BUCKET_WIDTH > now && Filled(index, lo, n)
    ensures Unpassed(index, now) == index
  {
    forall k | k in index ensures !Passed(BucketOf(index[k]), now) {
      assert index[k] == (lo + |k|) * BUCKET_WIDTH;
      MultipleBucket(lo + |k|);
    }
  }

  lemma MultipleBucket(id: nat)
    ensures BucketOf(id * BUCKET_WIDTH) == id
  {
  }

  lemma FilledGenerations(index: Index, lo: nat, n: nat, key: string, exp: Time)
    requires Filled(index, lo, n) && key !in index && !(lo <= BucketOf(exp) < lo + n)
    ensures |Generations(index[key := exp])| > n
  {
    var after := index[key := exp];
    var ids := Ids(lo, lo + n - 1) + {BucketOf(exp)};
    GenerationIds(after);
    forall id | id in ids ensures id in Generations(after).Keys {
      if id == BucketOf(exp) {
        assert key in Generation(after, id);
      } else {
        MultipleBucket(id);
        assert KeyNumber(id - lo) in Generation(after, id);
      }
    }
    KeysOfSubset(ids, Generations(after).Keys);
    assert |Generations(after)| == |Generations(after).Keys|;
  }

  /** A full span of generations, then one expiry of a generation that has passed. */
  lemma StaleExpiryAddsOne(now: Time, exp: Time, retention: nat)
    requires now >= 0 && 0 <= exp <= now + retention && Passed(BucketOf(exp), now)
    ensures var n := Span(now, retention); var ops := Fill(now, now / BUCKET_WIDTH, n);
      && Retains(ops + [CheckOp(KeyNumber(n), exp, now)], retention)
      && |Generations(StateAfter(n + 1, ops + [CheckOp(KeyNumber(n), exp, now)]))| > n
  {
    var n, lo := Span(now, retention), now / BUCKET_WIDTH;
    FillRetains(now, retention, n);
    ExpiryWithin(exp, now, retention);
    StaleAfterFill(now, exp, lo, n);
  }

  lemma StaleAfterFill(now: Time, exp: Time, lo: nat, n: nat)
    requires (lo + 1) * BUCKET_WIDTH > now && BucketOf(exp) < lo
    ensures |Generations(StateAfter(n + 1, Fill(now, lo, n) + [CheckOp(KeyNumber(n), exp, now)]))| > n
  {
    var before, key := StateAfter(n + 1, Fill(now, lo, n)), KeyNumber(n);
    FillFills(n + 1, now, lo, n);
    FilledIsUnpassed(before, now, lo, n);
    FilledMore(before, lo, n);
    CheckOfNewKey(before, n + 1, key, exp, now);
    StateAfterOneMore(n + 1, Fill(now, lo, n), CheckOp(key, exp, now));
    FilledGenerations(before, lo, n, key, exp);
  }

  lemma FillRetains(now: Time, retention: nat, n: nat)
    requires now >= 0 && n <= Span(now, retention)
    ensures Retains(Fill(now, now / BUCKET_WIDTH, n), retention)
  {
    var lo := now / BUCKET_WIDTH;
    var ops := Fill(now, lo, n);
    forall i | 0 <= i < n ensures ops[i].now == now && 0 <= ops[i].exp <= now + retention {
      assert ops[i].exp == (lo + i) * BUCKET_WIDTH;
      assert lo + i <= (now + retention) / BUCKET_WIDTH;
    }
  }

  /**
   The exact condition: the bound holds of calls at this instant with this expiry if and only if the
   expiry's generation has not passed yet, or the instant leaves a generation to spare.
   */
  lemma CeilBoundHoldsIff(now: Time, exp: Time, retention: nat)
    requires now >= 0 && 0 <= exp <= now + retention
    ensures CeilBoundHolds(now, exp, retention)
       <==> !Passed(BucketOf(exp), now) || Span(now, retention) <= CeilDiv(retention, BUCKET_WIDTH)
  {
    SpanAtMostCeil(now, retention);
    if Passed(BucketOf(exp), now) && Span(now, retention) > CeilDiv(retention, BUCKET_WIDTH) {
      StaleExpiryAddsOne(now, exp, retention);
    } else {
      forall maxEntries: nat, ops: seq<Op>, key | Retains(ops + [CheckOp(key, exp, now)], retention)
        ensures |Generations(StateAfter(maxEntries, ops + [CheckOp(key, exp, now)]))| <= CeilDiv(retention, BUCKET_WIDTH) + 1
      {
        GenerationsAfterCheck(maxEntries, ops, key, exp, now, retention);
      }
    }
  }
}
