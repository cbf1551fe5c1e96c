/**
 Whole runs of the replay cache under a clock that never goes back: calls, janitor sweeps and moments at
 which a request is turned away before it reaches the cache, in any order.
 */
module ReplayRuns {
  import opened Prelude
  import opened ReplayCache

  datatype Op =
    | CheckOp(key: string, exp: Time, now: Time)
    | SweepOp(now: Time)
    | IdleOp(now: Time)

  function Step(maxEntries: nat, index: Index, op: Op): Index {
    match op
    case CheckOp(key, exp, now) => Check(index, maxEntries, key, exp, now).0
    case SweepOp(now) => Unpassed(index, now)
    case IdleOp(_) => index
  }

  function StateAfter(maxEntries: nat, ops: seq<Op>): Index {
    if ops == [] then map[]
    else Step(maxEntries, StateAfter(maxEntries, ops[..|ops| - 1]), ops[|ops| - 1])
  }

  /** The answer to one operation; only a call gives one. */
  function Reply(maxEntries: nat, index: Index, op: Op): Option<Answer> {
    match op
    case CheckOp(key, exp, now) => Some(Check(index, maxEntries, key, exp, now).1)
    case SweepOp(_) => None
    case IdleOp(_) => None
  }

  /** The answers of a whole run. */
  function Answers(maxEntries: nat, ops: seq<Op>): (answers: seq<Option<Answer>>)
    ensures |answers| == |ops|
  {
    if ops == [] then []
    else
      var n := |ops| - 1;
      Answers(maxEntries, ops[..n]) + [Reply(maxEntries, StateAfter(maxEntries, ops[..n]), ops[n])]
  }

  lemma AnswersUnroll(maxEntries: nat, ops: seq<Op>, n: nat)
    requires n == |ops| - 1
    ensures Answers(maxEntries, ops)[..n] == Answers(maxEntries, ops[..n])
    ensures Answers(maxEntries, ops)[n] == Reply(maxEntries, StateAfter(maxEntries, ops[..n]), ops[n])
  {
  }

  lemma PrefixOfPrefix<T>(s: seq<T>, i: nat, n: nat)
    requires i <= n <= |s|
    ensures s[..n][..i] == s[..i]
  {
  }

  lemma {:induction false} AnswersOfPrefix(maxEntries: nat, ops: seq<Op>, i: nat)
    requires i < |ops|
    ensures Answers(maxEntries, ops)[..i] == Answers(maxEntries, ops[..i])
    ensures Answers(maxEntries, ops)[i] == Reply(maxEntries, StateAfter(maxEntries, ops[..i]), ops[i])
  {
    var n := |ops| - 1;
    AnswersUnroll(maxEntries, ops, n);
    if i < n {
      var init := ops[..n];
      AnswersOfPrefix(maxEntries, init, i);
      PrefixOfPrefix(ops, i, n);
      PrefixOfPrefix(Answers(maxEntries, ops), i, n);
    }
  }

  ghost predicate ClockNeverGoesBack(ops: seq<Op>) {
    forall i, j | 0 <= i < j < |ops| :: ops[i].now <= ops[j].now
  }

  // ----- The reference: a plain map that never forgets -----

  /** One call on the reference; refused says that the bounded cache had no room for it. */
  function RefCheck(m: Index, key: string, exp: Time, now: Time, refused: bool): (Index, Answer) {
    if key in m && m[key] > now then (m, Seen)
    else if refused then (m, Full)
    else (m[key := exp], Recorded)
  }

  /** The reference after operations that the bounded cache answered so; it never evicts. */
  function RefAfter(ops: seq<Op>, answers: seq<Option<Answer>>): Index
    requires |ops| == |answers|
  {
    if ops == [] then map[]
    else
      var n := |ops| - 1;
      RefStep(RefAfter(ops[..n], answers[..n]), ops[n], answers[n])
  }

  function RefStep(m: Index, op: Op, answer: Option<Answer>): Index {
    match op
    case CheckOp(key, exp, now) => RefCheck(m, key, exp, now, answer == Some(Full)).0
    case SweepOp(_) => m
    case IdleOp(_) => m
  }

  // ----- The history: every (key, expiry) recorded -----

  predicate RecordedAt(ops: seq<Op>, answers: seq<Option<Answer>>, j: nat)
    requires |ops| == |answers|
  {
    j < |ops| && ops[j].CheckOp? && answers[j] == Some(Recorded)
  }

  ghost function Recording(op: Op, answer: Option<Answer>): set<(string, Time)> {
    if op.CheckOp? && answer == Some(Recorded) then {(op.key, op.exp)} else {}
  }

  ghost function History(ops: seq<Op>, answers: seq<Option<Answer>>): set<(string, Time)>
    requires |ops| == |answers|
  {
    if ops == [] then {}
    else
      var n := |ops| - 1;
      History(ops[..n], answers[..n]) + Recording(ops[n], answers[n])
  }

  lemma {:induction false} HistoryIsWhatWasRecorded(ops: seq<Op>, answers: seq<Option<Answer>>, r: (string, Time))
    requires |ops| == |answers|
    ensures r in History(ops, answers)
       <==> exists j: nat :: RecordedAt(ops, answers, j) && r == (ops[j].key, ops[j].exp)
  {
    if ops != [] {
      var n := |ops| - 1;
      HistoryIsWhatWasRecorded(ops[..n], answers[..n], r);
      assert forall j: nat | j < n :: RecordedAt(ops[..n], answers[..n], j) <==> RecordedAt(ops, answers, j);
      assert r in Recording(ops[n], answers[n]) <==> RecordedAt(ops, answers, n) && r == (ops[n].key, ops[n].exp);
    }
  }

  /** A map that remembers of a history at least what has not expired by now, and nothing else. */
  ghost predicate Remembers(m: Index, history: set<(string, Time)>, now: Time) {
    && (forall k | k in m :: (k, m[k]) in history)
    && (forall r | r in history && r.1 > now :: r.0 in m && m[r.0] == r.1)
  }

  ghost predicate LiveIn(history: set<(string, Time)>, key: string, now: Time) {
    exists r | r in history :: r.0 == key && r.1 > now
  }

  /** Dropping passed generations loses nothing that is still live. */
  lemma SweepRemembers(m: Index, history: set<(string, Time)>, before: Time, now: Time)
    requires Remembers(m, history, before) && before <= now
    ensures Remembers(Unpassed(m, now), history, now)
  {
    forall r | r in history && r.1 > now ensures !Passed(BucketOf(r.1), now) {
      PassedMeansExpired(r.1, now);
    }
  }

  /** One call: it answers seen exactly for a recorded key that is still live, and goes on remembering. */
  lemma CheckRemembers(m: Index, maxEntries: nat, history: set<(string, Time)>, before: Time, key: string, exp: Time, now: Time)
    requires Remembers(m, history, before) && before <= now
    ensures var (m', answer) := Check(m, maxEntries, key, exp, now);
      && (answer == Seen <==> LiveIn(history, key, now))
      && Remembers(m', if answer == Recorded then history + {(key, exp)} else history, now)
  {
    SweepRemembers(m, history, before, now);
    HeldRemembers(Unpassed(m, now), maxEntries, history, key, exp, now);
  }

  lemma HeldRemembers(held: Index, maxEntries: nat, history: set<(string, Time)>, key: string, exp: Time, now: Time)
    requires Remembers(held, history, now)
    ensures (key in held && held[key] > now) <==> LiveIn(history, key, now)
    ensures !LiveIn(history, key, now) ==>
      && Remembers(held - {key}, history, now)
      && Remembers((held - {key})[key := exp], history + {(key, exp)}, now)
  {
    if key in held && held[key] > now {
      assert (key, held[key]) in history;
    }
  }

  lemma RefCheckRemembers(m: Index, history: set<(string, Time)>, before: Time, key: string, exp: Time, now: Time, refused: bool)
    requires Remembers(m, history, before) && before <= now
    ensures var (m', answer) := RefCheck(m, key, exp, now, refused);
      && (answer == Seen <==> LiveIn(history, key, now))
      && Remembers(m', if answer == Recorded then history + {(key, exp)} else history, now)
  {
    if key in m && m[key] > now {
      assert (key, m[key]) in history;
    }
  }

  /** One operation of either kind keeps both the bounded cache and the reference true to the history. */
  lemma StepRemembers(maxEntries: nat, m: Index, ref: Index, history: set<(string, Time)>, before: Time, op: Op)
    requires Remembers(m, history, before) && Remembers(ref, history, before) && before <= op.now
    ensures var answer := Reply(maxEntries, m, op);
      && Remembers(Step(maxEntries, m, op), history + Recording(op, answer), op.now)
      && Remembers(RefStep(ref, op, answer), history + Recording(op, answer), op.now)
  {
    match op
    case CheckOp(key, exp, now) =>
      CheckRemembers(m, maxEntries, history, before, key, exp, now);
      RefCheckRemembers(ref, history, before, key, exp, now, Check(m, maxEntries, key, exp, now).1 == Full);
      assert history + {} == history;
    case SweepOp(now) =>
      SweepRemembers(m, history, before, now);
      assert history + {} == history;
    case IdleOp(_) =>
      assert history + {} == history;
  }

  /** Both the bounded cache and the reference remember the history of the run. */
  lemma {:induction false} RunRemembers(maxEntries: nat, ops: seq<Op>, now: Time)
    requires ClockNeverGoesBack(ops) && (ops != [] ==> ops[|ops| - 1].now <= now)
    ensures var answers := Answers(maxEntries, ops);
      && Remembers(StateAfter(maxEntries, ops), History(ops, answers), now)
      && Remembers(RefAfter(ops, answers), History(ops, answers), now)
  {
    if ops != [] {
      var n := |ops| - 1;
      var init, answers := ops[..n], Answers(maxEntries, ops);
      AnswersOfPrefix(maxEntries, ops, n);
      RunRemembers(maxEntries, init, ops[n].now);
      StepRemembers(maxEntries, StateAfter(maxEntries, init), RefAfter(init, answers[..n]),
                    History(init, answers[..n]), ops[n].now, ops[n]);
    }
  }

  /** Over every run, call i answers what the map that never forgets answers, capacity refusals apart. */
  lemma BoundedCacheAnswersLikeUnboundedMap(maxEntries: nat, ops: seq<Op>, i: nat)
    requires ClockNeverGoesBack(ops) && i < |ops| && ops[i].CheckOp?
    ensures var answers := Answers(maxEntries, ops);
      var ref := RefAfter(ops[..i], answers[..i]);
      answers[i] == Some(RefCheck(ref, ops[i].key, ops[i].exp, ops[i].now, answers[i] == Some(Full)).1)
  {
    var op, before, answers := ops[i], ops[..i], Answers(maxEntries, ops);
    AnswersOfPrefix(maxEntries, ops, i);
    RunRemembers(maxEntries, before, op.now);
    var history := History(before, answers[..i]);
    CheckRemembers(StateAfter(maxEntries, before), maxEntries, history, op.now, op.key, op.exp, op.now);
    RefCheckRemembers(RefAfter(before, answers[..i]), history, op.now, op.key, op.exp, op.now, answers[i] == Some(Full));
  }

  /** A call answers seen exactly when an earlier call recorded its key with an expiry later than now. */
  lemma SeenIffRecordedAndLive(maxEntries: nat, ops: seq<Op>, i: nat)
    requires ClockNeverGoesBack(ops) && i < |ops| && ops[i].CheckOp?
    ensures Answers(maxEntries, ops)[i] == Some(Seen)
       <==> exists j: nat :: j < i && RecordedAt(ops, Answers(maxEntries, ops), j)
                          && ops[j].key == ops[i].key && ops[j].exp > ops[i].now
  {
    var op, before, answers := ops[i], ops[..i], Answers(maxEntries, ops);
    AnswersOfPrefix(maxEntries, ops, i);
    RunRemembers(maxEntries, before, op.now);
    var history := History(before, answers[..i]);
    CheckRemembers(StateAfter(maxEntries, before), maxEntries, history, op.now, op.key, op.exp, op.now);
    LiveIffRecorded(ops, answers, i);
  }

  lemma LiveIffRecorded(ops: seq<Op>, answers: seq<Option<Answer>>, i: nat)
    requires |ops| == |answers| && i < |ops| && ops[i].CheckOp?
    ensures LiveIn(History(ops[..i], answers[..i]), ops[i].key, ops[i].now)
       <==> exists j: nat :: j < i && RecordedAt(ops, answers, j) && ops[j].key == ops[i].key && ops[j].exp > ops[i].now
  {
    var history := History(ops[..i], answers[..i]);
    assert forall j: nat | j < i :: RecordedAt(ops[..i], answers[..i], j) <==> RecordedAt(ops, answers, j);
    if LiveIn(history, ops[i].key, ops[i].now) {
      var r :| r in history && r.0 == ops[i].key && r.1 > ops[i].now;
      HistoryIsWhatWasRecorded(ops[..i], answers[..i], r);
    }
    forall j: nat | j < i && RecordedAt(ops, answers, j) ensures (ops[j].key, ops[j].exp) in history {
      HistoryIsWhatWasRecorded(ops[..i], answers[..i], (ops[j].key, ops[j].exp));
    }
  }

  /** The cache never holds more than its capacity. */
  lemma {:induction false} SizeIsBounded(maxEntries: nat, ops: seq<Op>)
    ensures |StateAfter(maxEntries, ops)| <= maxEntries
  {
    if ops != [] {
      var before := StateAfter(maxEntries, ops[..|ops| - 1]);
      SizeIsBounded(maxEntries, ops[..|ops| - 1]);
      SubsetIsSmaller(Unpassed(before, ops[|ops| - 1].now), before);
    }
  }

  lemma FullLeaves(m: Index, maxEntries: nat, key: string, exp: Time, now: Time)
    requires Check(m, maxEntries, key, exp, now).1 == Full
    ensures Check(m, maxEntries, key, exp, now).0 == Unpassed(m, now) - {key}
    ensures |Check(m, maxEntries, key, exp, now).0| >= maxEntries
  {
  }

  /** A full cache: as many keys as it may hold, all recorded before, in generations that have not passed, and not this one. */
  ghost predicate FullWithout(held: Index, maxEntries: nat, history: set<(string, Time)>, key: string, now: Time) {
    && |held| == maxEntries && key !in held
    && forall k | k in held :: (k, held[k]) in history && !Passed(BucketOf(held[k]), now)
  }

  lemma FullRemembers(m: Index, maxEntries: nat, history: set<(string, Time)>, key: string, exp: Time, now: Time)
    requires Remembers(m, history, now) && Check(m, maxEntries, key, exp, now).1 == Full
    requires |Check(m, maxEntries, key, exp, now).0| <= maxEntries
    ensures !LiveIn(history, key, now) && FullWithout(Check(m, maxEntries, key, exp, now).0, maxEntries, history, key, now)
  {
    FullLeaves(m, maxEntries, key, exp, now);
    CheckRemembers(m, maxEntries, history, now, key, exp, now);
  }

  lemma StateUnrolls(maxEntries: nat, ops: seq<Op>, n: nat)
    requires |ops| == n + 1
    ensures StateAfter(maxEntries, ops) == Step(maxEntries, StateAfter(maxEntries, ops[..n]), ops[n])
  {
  }

  lemma StateAt(maxEntries: nat, ops: seq<Op>, i: nat)
    requires i < |ops|
    ensures StateAfter(maxEntries, ops[..i + 1]) == Step(maxEntries, StateAfter(maxEntries, ops[..i]), ops[i])
  {
    PrefixOfPrefix(ops, i, i + 1);
    StateUnrolls(maxEntries, ops[..i + 1], i);
  }

  lemma PrefixClock(ops: seq<Op>, i: nat)
    requires ClockNeverGoesBack(ops) && i < |ops|
    ensures ClockNeverGoesBack(ops[..i]) && (i > 0 ==> ops[..i][i - 1].now <= ops[i].now)
  {
  }

  lemma RemembersAt(maxEntries: nat, ops: seq<Op>, i: nat)
    requires i < |ops| && ClockNeverGoesBack(ops)
    ensures Remembers(StateAfter(maxEntries, ops[..i]), History(ops[..i], Answers(maxEntries, ops)[..i]), ops[i].now)
  {
    AnswersOfPrefix(maxEntries, ops, i);
    PrefixClock(ops, i);
    RunRemembers(maxEntries, ops[..i], ops[i].now);
  }

  /** A refusal: the key is not live, and the cache is left full of keys recorded earlier in generations that have not passed. */
  lemma RefusalsAreAtCapacity(maxEntries: nat, ops: seq<Op>, i: nat)
    requires i < |ops| && ops[i].CheckOp? && ClockNeverGoesBack(ops)
    requires Answers(maxEntries, ops)[i] == Some(Full)
    ensures var history := History(ops[..i], Answers(maxEntries, ops)[..i]);
      && !LiveIn(history, ops[i].key, ops[i].now)
      && FullWithout(StateAfter(maxEntries, ops[..i + 1]), maxEntries, history, ops[i].key, ops[i].now)
  {
    var before, history := StateAfter(maxEntries, ops[..i]), History(ops[..i], Answers(maxEntries, ops)[..i]);
    AnswersOfPrefix(maxEntries, ops, i);
    SizeIsBounded(maxEntries, ops[..i + 1]);
    StateAt(maxEntries, ops, i);
    RemembersAt(maxEntries, ops, i);
    FullRemembers(before, maxEntries, history, ops[i].key, ops[i].exp, ops[i].now);
  }

  // ----- When a refusal is of live entries only -----

  /** The earliest expiry whose generation has not passed at now; generation 0 also holds the negative ones near it. */
  function GenerationStart(now: Time): Time {
    var id := now / BUCKET_WIDTH;
    if id > 0 then id * BUCKET_WIDTH else (id - 1) * BUCKET_WIDTH + 1
  }

  lemma UnpassedIff(exp: Time, now: Time)
    ensures !Passed(BucketOf(exp), now) <==> exp >= GenerationStart(now)
    ensures GenerationStart(now) <= now
  {
    PassedById(BucketOf(exp), now);
    BucketAtLeast(exp, now / BUCKET_WIDTH);
  }

  lemma PassedById(id: int, now: Time)
    ensures Passed(id, now) <==> id < now / BUCKET_WIDTH
  {
  }

  lemma BucketAtLeast(exp: Time, id: int)
    ensures BucketOf(exp) >= id <==> exp >= if id > 0 then id * BUCKET_WIDTH else (id - 1) * BUCKET_WIDTH + 1
  {
  }

  /** An entry that has expired although its generation has not passed. */
  predicate Lingers(exp: Time, now: Time) {
    GenerationStart(now) <= exp <= now
  }

  lemma FullLeavesLiveIff(m: Index, maxEntries: nat, key: string, exp: Time, now: Time)
    requires Check(m, maxEntries, key, exp, now).1 == Full
    ensures var held := Check(m, maxEntries, key, exp, now).0;
      (forall k | k in held :: held[k] > now) <==> (forall k | k in m && k != key :: !Lingers(m[k], now))
  {
    FullLeaves(m, maxEntries, key, exp, now);
    var held := Check(m, maxEntries, key, exp, now).0;
    forall k ensures k in held <==> k in m && k != key && m[k] >= GenerationStart(now) {
      if k in m {
        UnpassedIff(m[k], now);
      }
    }
    UnpassedIff(0, now);
  }

  /**
   A refusal is of live entries only exactly when no entry held before the call, other than the caller's own,
   has expired within a generation that has not passed.
   */
  lemma RefusalIsOfLiveEntriesIff(maxEntries: nat, ops: seq<Op>, i: nat)
    requires i < |ops| && ops[i].CheckOp? && Answers(maxEntries, ops)[i] == Some(Full)
    ensures var before, after := StateAfter(maxEntries, ops[..i]), StateAfter(maxEntries, ops[..i + 1]);
      (forall k | k in after :: after[k] > ops[i].now)
      <==> (forall k | k in before && k != ops[i].key :: !Lingers(before[k], ops[i].now))
  {
    AnswersOfPrefix(maxEntries, ops, i);
    StateAt(maxEntries, ops, i);
    FullLeavesLiveIff(StateAfter(maxEntries, ops[..i]), maxEntries, ops[i].key, ops[i].exp, ops[i].now);
  }

  /** At every instant one entry that was live a moment ago and has just expired can refuse a new key. */
  lemma DeadEntryRefuses(now: Time)
    ensures var ops := [CheckOp("a", now, now - 1), CheckOp("b", now + 1, now)];
      && ClockNeverGoesBack(ops) && Answers(1, ops) == [Some(Recorded), Some(Full)]
      && StateAfter(1, ops) == map["a" := now]
  {
    var op1, op2 := CheckOp("a", now, now - 1), CheckOp("b", now + 1, now);
    var held: Index := map["a" := now];
    UnpassedIff(now, now);
    assert Unpassed(map[], now - 1) == map[] && held - {"b"} == held;
    assert Check(map[], 1, "a", now, now - 1) == (held, Recorded);
    assert Unpassed(held, now) == held;
    assert Check(held, 1, "b", now + 1, now) == (held, Full);
    RunOfTwo(1, op1, op2);
  }

  // ----- How long a recorded key is held -----

  /** Whatever was asked for this key since it was recorded at i was answered seen. */
  ghost predicate UntouchedSince(ops: seq<Op>, answers: seq<Option<Answer>>, i: nat)
    requires |ops| == |answers| && i < |ops| && ops[i].CheckOp?
  {
    forall j | i < j < |ops| && ops[j].CheckOp? && ops[j].key == ops[i].key :: answers[j] == Some(Seen)
  }

  /** Until the generation of the expiry passes, the key is there; and never with another expiry. */
  ghost predicate HoldsUntilEnd(index: Index, key: string, exp: Time, now: Time) {
    && (key in index ==> index[key] == exp)
    && (now < EndOf(exp) ==> key in index)
  }

  lemma StepHoldsUntilEnd(maxEntries: nat, index: Index, op: Op, key: string, exp: Time, before: Time)
    requires HoldsUntilEnd(index, key, exp, before) && before <= op.now
    requires op.CheckOp? && op.key == key ==> Reply(maxEntries, index, op) == Some(Seen)
    ensures HoldsUntilEnd(Step(maxEntries, index, op), key, exp, op.now)
  {
    PassedMeansExpired(exp, op.now);
  }

  lemma RecordingHoldsUntilEnd(maxEntries: nat, index: Index, op: Op)
    requires op.CheckOp? && Reply(maxEntries, index, op) == Some(Recorded)
    ensures HoldsUntilEnd(Step(maxEntries, index, op), op.key, op.exp, op.now)
  {
  }

  lemma {:induction false} RunHoldsUntilEnd(maxEntries: nat, ops: seq<Op>, i: nat)
    requires ClockNeverGoesBack(ops) && RecordedAt(ops, Answers(maxEntries, ops), i)
    requires UntouchedSince(ops, Answers(maxEntries, ops), i)
    ensures HoldsUntilEnd(StateAfter(maxEntries, ops), ops[i].key, ops[i].exp, ops[|ops| - 1].now)
  {
    var n := |ops| - 1;
    AnswersUnroll(maxEntries, ops, n);
    if i == n {
      RecordingHoldsUntilEnd(maxEntries, StateAfter(maxEntries, ops[..n]), ops[n]);
    } else {
      RunHoldsUntilEnd(maxEntries, ops[..n], i);
      StepHoldsUntilEnd(maxEntries, StateAfter(maxEntries, ops[..n]), ops[n], ops[i].key, ops[i].exp, ops[n - 1].now);
    }
  }

  /** Operation i recorded this key until this expiry, and the key was not touched again. */
  ghost predicate KeepsEntry(maxEntries: nat, ops: seq<Op>, i: nat, key: string, exp: Time) {
    && ClockNeverGoesBack(ops) && RecordedAt(ops, Answers(maxEntries, ops), i)
    && ops[i].key == key && ops[i].exp == exp
    && UntouchedSince(ops, Answers(maxEntries, ops), i)
  }

  /** Such a key takes its slot from any call exactly until its generation passes. */
  lemma HeldExactlyUntilEnd(maxEntries: nat, ops: seq<Op>, i: nat, key: string, exp: Time, t: Time)
    requires KeepsEntry(maxEntries, ops, i, key, exp) && ops[|ops| - 1].now <= t
    ensures key in Unpassed(StateAfter(maxEntries, ops), t) <==> t < EndOf(exp)
  {
    RunHoldsUntilEnd(maxEntries, ops, i);
    PassedMeansExpired(exp, t);
  }

  /** At some instant at or after this one the key still takes a slot from a call. */
  ghost predicate TakesSlotFrom(index: Index, key: string, first: Time) {
    exists t :: first <= t && key in Unpassed(index, t)
  }

  lemma TakenFromIff(maxEntries: nat, ops: seq<Op>, i: nat, key: string, exp: Time, first: Time)
    requires KeepsEntry(maxEntries, ops, i, key, exp) && ops[|ops| - 1].now <= first
    ensures TakesSlotFrom(StateAfter(maxEntries, ops), key, first) <==> first < EndOf(exp)
  {
    HeldExactlyUntilEnd(maxEntries, ops, i, key, exp, first);
    if t :| first <= t && key in Unpassed(StateAfter(maxEntries, ops), t) {
      HeldExactlyUntilEnd(maxEntries, ops, i, key, exp, t);
    }
  }

  lemma RunOfTwo(maxEntries: nat, op1: Op, op2: Op)
    ensures var after := Step(maxEntries, map[], op1);
      && Answers(maxEntries, [op1, op2]) == [Reply(maxEntries, map[], op1), Reply(maxEntries, after, op2)]
      && StateAfter(maxEntries, [op1, op2]) == Step(maxEntries, after, op2)
  {
    assert [op1, op2][..1] == [op1] && [op1][..0] == [];
    StateUnrolls(maxEntries, [op1, op2], 1);
    AnswersOfPrefix(maxEntries, [op1, op2], 0);
    AnswersOfPrefix(maxEntries, [op1, op2], 1);
  }
}
