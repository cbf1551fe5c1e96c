/** How long an accepted proof takes a slot of the replay cache, and the capacity that is sure to suffice. */
module Occupancy {
  import opened Prelude
  import opened ReplayCache
  import opened ReplayRuns
  import opened Proof
  import opened Caller
  import opened SingleUse

  /** Event i was accepted, recording this key until this expiry, and whatever was asked for the key since was answered seen. */
  ghost predicate KeepsSlot(lib: CallerLib, maxEntries: nat, events: seq<Event>, i: nat, key: string, exp: Time) {
    InClockOrder(events) && i < |events| && KeepsEntry(maxEntries, Ops(lib, events), i, key, exp)
  }

  lemma LastOpAt(lib: CallerLib, events: seq<Event>)
    requires events != []
    ensures |Ops(lib, events)| == |events| && Ops(lib, events)[|events| - 1].now == events[|events| - 1].commitAt
  {
  }

  lemma RetainedUntil(lib: CallerLib, e: Event)
    requires OpOf(lib, e).CheckOp?
    ensures !e.Tick? && Brought(lib, e).Some?
    ensures OpOf(lib, e).exp == Brought(lib, e).value.issuedAt + SkewOf(e) + REPLAY_GRACE
    ensures e.freshAt - SkewOf(e) <= Brought(lib, e).value.issuedAt <= e.freshAt + SkewOf(e)
  {
    BroughtIffCheck(lib, e);
    BroughtIsVerified(lib, e);
    if e.ViaProof? {
      FreshnessWindow(lib.proof, e.req, e.freshAt, e.skew);
    } else {
      FreshnessWindow(lib.proof, e.call.req, e.freshAt, e.cfg.popSkew);
    }
  }

  /** One skew and the grace past the check, for which the capacity is sized. */
  function SizedUntil(e: Event): Time
    requires !e.Tick?
  {
    e.freshAt + SkewOf(e) + REPLAY_GRACE
  }

  /**
   An accepted proof takes its slot for longer than one skew and the grace past its check exactly when the
   generation of its retention ends later than that, which its issue instant, its check and the skew decide.
   */
  lemma SlotOutlastsIff(lib: CallerLib, maxEntries: nat, events: seq<Event>, i: nat, key: string, exp: Time)
    requires KeepsSlot(lib, maxEntries, events, i, key, exp)
    ensures Accepted(lib, maxEntries, events, i) && !events[i].Tick? && Brought(lib, events[i]).Some?
    ensures exp == Brought(lib, events[i]).value.issuedAt + SkewOf(events[i]) + REPLAY_GRACE
    ensures var until, last := SizedUntil(events[i]), events[|events| - 1].commitAt;
      && (TakesSlotFrom(After(lib, maxEntries, events), key, Max(until + 1, last)) <==> Max(until + 1, last) < EndOf(exp))
      && (last <= until + 1 ==> (TakesSlotFrom(After(lib, maxEntries, events), key, until + 1) <==> EndOf(exp) - 1 > until))
  {
    AcceptedIffRecorded(lib, maxEntries, events, i);
    RetainedUntil(lib, events[i]);
    SlotTakenFromIff(lib, maxEntries, events, i, key, exp, Max(SizedUntil(events[i]) + 1, events[|events| - 1].commitAt));
  }

  lemma SlotTakenFromIff(lib: CallerLib, maxEntries: nat, events: seq<Event>, i: nat, key: string, exp: Time, first: Time)
    requires KeepsSlot(lib, maxEntries, events, i, key, exp) && events[|events| - 1].commitAt <= first
    ensures TakesSlotFrom(After(lib, maxEntries, events), key, first) <==> first < EndOf(exp)
  {
    RunIsOperations(lib, maxEntries, events);
    LastOpAt(lib, events);
    TakenFromIff(maxEntries, Ops(lib, events), i, key, exp, first);
  }

  /** No slot is taken two skews, the grace and one width past the check, or later; before the epoch one width more. */
  lemma SlotEndsWithin(lib: CallerLib, e: Event, key: string, exp: Time)
    requires OpOf(lib, e) == CheckOp(key, exp, e.commitAt)
    ensures !e.Tick?
    ensures EndOf(exp) <= e.freshAt + 2 * SkewOf(e) + REPLAY_GRACE + if exp >= 0 then BUCKET_WIDTH else 2 * BUCKET_WIDTH - 1
  {
    CheckWindow(lib, e);
    PassedMeansExpired(exp, e.freshAt);
  }

  /** A cache with one slot whose only event recorded a key refuses any other exactly until that slot ends. */
  lemma OneSlotIsTakenUntil(lib: CallerLib, e: Event, key: string, exp: Time, other: string, otherExp: Time, t: Time)
    requires OpOf(lib, e) == CheckOp(key, exp, e.commitAt) && other != key
    ensures Accepted(lib, 1, [e], 0)
    ensures Check(After(lib, 1, [e]), 1, other, otherExp, t).1 == if t < EndOf(exp) then Full else Recorded
  {
    OneRecording(lib, e, key, exp);
    OneSlot(key, exp, other, otherExp, t);
  }

  lemma OneRecording(lib: CallerLib, e: Event, key: string, exp: Time)
    requires OpOf(lib, e) == CheckOp(key, exp, e.commitAt)
    ensures Accepted(lib, 1, [e], 0) && After(lib, 1, [e]) == map[key := exp]
  {
    ExpiredIsRecordedAgain(key, exp, e.commitAt, exp, exp);
    EventIsOperation(lib, 1, map[], e);
    assert [e][..0] == [];
  }

  lemma OneSlot(key: string, exp: Time, other: string, otherExp: Time, t: Time)
    requires other != key
    ensures Check(map[key := exp], 1, other, otherExp, t).1 == if t < EndOf(exp) then Full else Recorded
  {
    var held: Index := map[key := exp];
    PassedMeansExpired(exp, t);
    assert Unpassed(held, t) == if t < EndOf(exp) then held else map[];
    assert held - {other} == held;
  }

  /** The one proof, checked and committed at one instant. */
  function OneEvent(skew: Time, check: Time): Event {
    ViaProof(OneRequest(), skew, check, check)
  }

  /**
   With one slot, that proof refuses every other key exactly until its slot ends, whichever instant of its window
   it was checked at. The most is reached when it was issued a whole skew after its check and its retention
   starts a generation.
   */
  lemma OneProofTakesSlot(lib: CallerLib, e: Event, iat: int, skew: Time, check: Time, exp: Time, other: string, otherExp: Time,
                          t: Time)
    requires lib == OneProofCallerLib(iat, check, check) && e == OneEvent(skew, check) && iat != 0 && other != "j"
    requires iat * SECOND - EffectiveSkew(skew) <= check <= iat * SECOND + EffectiveSkew(skew)
    requires exp == iat * SECOND + EffectiveSkew(skew) + REPLAY_GRACE
    ensures Accepted(lib, 1, [e], 0)
    ensures Check(After(lib, 1, [e]), 1, other, otherExp, t).1 == if t < EndOf(exp) then Full else Recorded
    ensures check == iat * SECOND - EffectiveSkew(skew) && exp >= REPLAY_GRACE && exp % BUCKET_WIDTH == 0 ==>
      EndOf(exp) == check + 2 * EffectiveSkew(skew) + REPLAY_GRACE + BUCKET_WIDTH
  {
    OneProofAsks(iat, check, check, skew, check, check);
    OneSlotIsTakenUntil(lib, e, "j", exp, other, otherExp, t);
    if exp >= REPLAY_GRACE && exp % BUCKET_WIDTH == 0 {
      EndOfMultiple(exp);
    }
  }

  lemma EndOfMultiple(exp: Time)
    requires exp >= 0 && exp % BUCKET_WIDTH == 0
    ensures EndOf(exp) == exp + BUCKET_WIDTH
  {
  }

  // ----- The capacity that suffices -----

  /** The proofs accepted before event i, less than a window before it. */
  ghost function AcceptedWithin(lib: CallerLib, maxEntries: nat, events: seq<Event>, i: nat, window: Time): set<nat>
    requires i < |events|
  {
    set j: nat | j < i && Accepted(lib, maxEntries, events, j) && events[i].commitAt < events[j].commitAt + window
  }

  /** Every key has a number that stands for it alone, so there are no fewer numbers than keys. */
  lemma {:induction false} NoFewerNumbers<T>(keys: set<T>, numbers: set<nat>, keyOf: nat -> T)
    requires forall k | k in keys :: exists j: nat :: j in numbers && keyOf(j) == k
    ensures |keys| <= |numbers|
  {
    if keys != {} {
      var k :| k in keys;
      var j: nat :| j in numbers && keyOf(j) == k;
      forall k' | k' in keys - {k} ensures exists j': nat :: j' in numbers - {j} && keyOf(j') == k' {
        var j': nat :| j' in numbers && keyOf(j') == k';
        assert j' in numbers - {j};
      }
      NoFewerNumbers(keys - {k}, numbers - {j}, keyOf);
    }
  }

  /** A key that still takes a slot was accepted less than two skews, the grace and one width ago. */
  lemma SlotIsOfRecentCommit(lib: CallerLib, e: Event, hi: Time, now: Time)
    requires OpOf(lib, e).CheckOp? && !e.Tick? && 0 <= e.freshAt <= e.commitAt && SkewOf(e) <= hi
    requires !Passed(BucketOf(OpOf(lib, e).exp), now)
    ensures now < e.commitAt + 2 * hi + REPLAY_GRACE + BUCKET_WIDTH
  {
    CheckWindow(lib, e);
    PassedMeansExpired(OpOf(lib, e).exp, now);
  }

  /**
   The capacity that suffices: a call is refused for want of room only if as many proofs as the cache can
   hold were accepted less than two of the largest skew, the grace and one bucket width before it.
   */
  lemma RefusedOnlyAfterManyAccepted(lib: CallerLib, maxEntries: nat, events: seq<Event>, i: nat, lo: Time, hi: Time, lag: int)
    requires IsRun(events, lo, hi, lag) && NonNegative(events) && i < |events|
    requires Answers(maxEntries, Ops(lib, events))[i] == Some(Full)
    ensures maxEntries <= |AcceptedWithin(lib, maxEntries, events, i, 2 * hi + REPLAY_GRACE + BUCKET_WIDTH)|
  {
    var ops, recent := Ops(lib, events), AcceptedWithin(lib, maxEntries, events, i, 2 * hi + REPLAY_GRACE + BUCKET_WIDTH);
    RunClock(lib, events);
    var held := FullOfEarlier(maxEntries, ops, i);
    forall k | k in held.Keys ensures exists j: nat :: j in recent && KeyAt(ops, j) == k {
      var j := RecordedEarlier(ops, Answers(maxEntries, ops), i, (k, held[k]));
      HolderIsRecent(lib, maxEntries, events, i, j, lo, hi, lag);
    }
    NoFewerNumbers(held.Keys, recent, (j: nat) => KeyAt(ops, j));
  }

  /** What a refusal leaves: as many keys as the cache can hold, recorded earlier in generations that have not passed. */
  lemma FullOfEarlier(maxEntries: nat, ops: seq<Op>, i: nat) returns (held: Index)
    requires ClockNeverGoesBack(ops) && i < |ops| && Answers(maxEntries, ops)[i] == Some(Full)
    ensures |held.Keys| == maxEntries
    ensures forall k | k in held ::
      (k, held[k]) in History(ops[..i], Answers(maxEntries, ops)[..i]) && !Passed(BucketOf(held[k]), ops[i].now)
  {
    AnswersOfPrefix(maxEntries, ops, i);
    RefusalsAreAtCapacity(maxEntries, ops, i);
    held := StateAfter(maxEntries, ops[..i + 1]);
    assert |held| == |held.Keys|;
  }

  lemma HolderIsRecent(lib: CallerLib, maxEntries: nat, events: seq<Event>, i: nat, j: nat, lo: Time, hi: Time, lag: int)
    requires IsRun(events, lo, hi, lag) && NonNegative(events) && j < i < |events|
    requires RecordedAt(Ops(lib, events), Answers(maxEntries, Ops(lib, events)), j)
    requires !Passed(BucketOf(Ops(lib, events)[j].exp), events[i].commitAt)
    ensures j in AcceptedWithin(lib, maxEntries, events, i, 2 * hi + REPLAY_GRACE + BUCKET_WIDTH)
  {
    AcceptedIffRecorded(lib, maxEntries, events, j);
    assert events[j] in events;
    CheckWindow(lib, events[j]);
    SlotIsOfRecentCommit(lib, events[j], hi, events[i].commitAt);
  }

  function KeyAt(ops: seq<Op>, j: nat): string {
    if j < |ops| && ops[j].CheckOp? then ops[j].key else ""
  }

  lemma RecordedEarlier(ops: seq<Op>, answers: seq<Option<Answer>>, i: nat, r: (string, Time)) returns (j: nat)
    requires |ops| == |answers| && i < |ops| && r in History(ops[..i], answers[..i])
    ensures j < i && RecordedAt(ops, answers, j) && r == (ops[j].key, ops[j].exp)
  {
    HistoryIsWhatWasRecorded(ops[..i], answers[..i], r);
    j :| RecordedAt(ops[..i], answers[..i], j) && r == (ops[..i][j].key, ops[..i][j].exp);
  }
}
