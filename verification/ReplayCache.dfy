/** pop/replay.go: the bounded replay cache, indexed by key and by expiry generation. */
module ReplayCache {
  import opened Prelude

  /** Clock instants, in nanoseconds. */
  type Time = int

  const SECOND: Time := 1_000_000_000
  const BUCKET_WIDTH: Time := 5 * SECOND
  const DEFAULT_MAX_ENTRIES := 100_000

  type Index = map<string, Time>

  type Buckets = map<int, set<string>>

  /** Go's integer division, which truncates toward zero. */
  function TruncDiv(a: int, b: int): int
    requires b > 0
  {
    if a >= 0 then a / b else -((-a) / b)
  }

  /** The generation an expiry belongs to. */
  function BucketOf(t: Time): int {
    TruncDiv(t, BUCKET_WIDTH)
  }

  /** Every expiry a generation can hold lies at or before now. */
  predicate Passed(id: int, now: Time) {
    (id + 1) * BUCKET_WIDTH <= now
  }

  /** The instant at which the generation of an expiry passes. */
  function EndOf(exp: Time): Time {
    (BucketOf(exp) + 1) * BUCKET_WIDTH
  }

  /**
   A generation ends after every expiry filed in it, and less than one width later; less than two for a
   negative expiry, as truncation files both sides of zero in generation 0.
   */
  lemma PassedMeansExpired(exp: Time, now: Time)
    ensures Passed(BucketOf(exp), now) <==> EndOf(exp) <= now
    ensures exp < EndOf(exp) <= exp + if exp >= 0 then BUCKET_WIDTH else 2 * BUCKET_WIDTH - 1
    ensures Passed(BucketOf(exp), now) ==> exp < now
    ensures !Passed(BucketOf(exp), now) ==> exp > now - if exp >= 0 then BUCKET_WIDTH else 2 * BUCKET_WIDTH - 1
  {
  }

  /** The second index, determined by the first: no generation is empty, no key is misfiled. */
  ghost function Generations(index: Index): Buckets {
    map id | id in (set k | k in index :: BucketOf(index[k])) :: Generation(index, id)
  }

  ghost function Generation(index: Index, id: int): set<string> {
    set k | k in index && BucketOf(index[k]) == id
  }

  function Unpassed(index: Index, now: Time): Index {
    map k | k in index && !Passed(BucketOf(index[k]), now) :: index[k]
  }

  datatype Answer = Seen | Recorded | Full

  /** What one call does to the index and answers. */
  function Check(index: Index, maxEntries: nat, key: string, exp: Time, now: Time): (Index, Answer) {
    var held := Unpassed(index, now);
    if key in held && held[key] > now then (held, Seen)
    else
      var others := held - {key};
      if |others| >= maxEntries then (others, Full) else (others[key := exp], Recorded)
  }

  lemma GenerationsAdd(index: Index, key: string, exp: Time)
    requires key !in index
    ensures var id := BucketOf(exp);
      Generations(index[key := exp]) == Generations(index)[id := Generation(index, id) + {key}]
  {
    var id, more := BucketOf(exp), index[key := exp];
    assert Generation(more, id) == Generation(index, id) + {key};
    assert forall other | other != id :: Generation(more, other) == Generation(index, other);
    assert more[key] == exp;
    forall other | other in Generations(index) ensures other in Generations(more) {
      var k :| k in index && BucketOf(index[k]) == other;
      assert k in more && more[k] == index[k];
    }
  }

  lemma GenerationsRemove(index: Index, key: string)
    requires key in index
    ensures var id := BucketOf(index[key]); var left := Generation(index, id) - {key};
      Generations(index - {key}) == if left == {} then Generations(index) - {id} else Generations(index)[id := left]
  {
    var id, fewer := BucketOf(index[key]), index - {key};
    assert Generation(fewer, id) == Generation(index, id) - {key};
    assert forall other | other != id :: Generation(fewer, other) == Generation(index, other);
    GenerationIds(index);
    GenerationIds(fewer);
  }

  /** A generation exists exactly while it holds a key. */
  lemma GenerationIds(index: Index)
    ensures forall id :: id in Generations(index) <==> Generation(index, id) != {}
    ensures forall id | id in Generations(index) :: Generations(index)[id] == Generation(index, id)
  {
    forall id ensures id in Generations(index) <==> Generation(index, id) != {} {
      if id in Generations(index) {
        var k :| k in index && BucketOf(index[k]) == id;
        assert k in Generation(index, id);
      }
    }
  }

  /** What is left of an index when a set of generations is dropped. */
  ghost function Without(index: Index, ids: set<int>): Index {
    map k | k in index && BucketOf(index[k]) !in ids :: index[k]
  }

  lemma GenerationsWithout(index: Index, ids: set<int>)
    ensures Generations(Without(index, ids)) == Generations(index) - ids
  {
    var left := Without(index, ids);
    GenerationIds(index);
    GenerationIds(left);
    forall id ensures Generation(left, id) == if id in ids then {} else Generation(index, id) {
    }
  }

  /** The index while the keys of one generation are being deleted. */
  ghost function PartlyDropped(index: Index, id: int, keys: set<string>): Index {
    map k | k in index && (BucketOf(index[k]) != id || k in keys) :: index[k]
  }

  lemma PartlyDroppedStarts(index: Index, id: int)
    ensures PartlyDropped(index, id, Generation(index, id)) == index
  {
  }

  lemma PartlyDroppedEnds(index: Index, id: int)
    ensures PartlyDropped(index, id, {}) == Without(index, {id})
  {
  }

  lemma PartlyDroppedStep(index: Index, id: int, keys: set<string>, key: string)
    requires keys <= Generation(index, id) && key in keys
    ensures key in PartlyDropped(index, id, keys) && PartlyDropped(index, id, keys)[key] == index[key]
    ensures PartlyDropped(index, id, keys - {key}) == PartlyDropped(index, id, keys) - {key}
  {
  }

  lemma WithoutBoth(index: Index, ids: set<int>, id: int)
    ensures Without(Without(index, ids), {id}) == Without(index, ids + {id})
  {
  }

  class MemoryReplayCache {
    var index: Index
    var buckets: Buckets
    const maxEntries: nat

    /** A key is in exactly the bucket of its indexed expiry, no bucket is empty, the size is bounded. */
    ghost predicate Valid()
      reads this
    {
      buckets == Generations(index) && |index| <= maxEntries
    }

    constructor (maxEntries: int)
      ensures Valid() && index == map[]
      ensures this.maxEntries == if maxEntries <= 0 then DEFAULT_MAX_ENTRIES else maxEntries
    {
      this.index, this.buckets := map[], map[];
      this.maxEntries := if maxEntries <= 0 then DEFAULT_MAX_ENTRIES else maxEntries;
    }

    method CheckAndStore(key: string, exp: Time, now: Time) returns (answer: Answer)
      requires Valid()
      modifies this
      ensures Valid()
      ensures (index, answer) == Check(old(index), maxEntries, key, exp, now)
    {
      EvictLocked(now);
      ghost var held := index;
      if key in index {
        var existing := index[key];
        if existing > now {
          return Seen;
        }
        RemoveLocked(key, existing);
      }
      assert index == held - {key};
      if |index| >= maxEntries {
        return Full;
      }
      AddLocked(key, exp);
      return Recorded;
    }

    method AddLocked(key: string, exp: Time)
      requires Valid() && key !in index && |index| < maxEntries
      modifies this
      ensures Valid() && index == old(index)[key := exp]
    {
      GenerationsAdd(index, key, exp);
      GenerationIds(index);
      index := index[key := exp];
      var id := BucketOf(exp);
      var bucket := if id in buckets then buckets[id] else {};
      buckets := buckets[id := bucket + {key}];
    }

    method RemoveLocked(key: string, exp: Time)
      requires Valid() && key in index && index[key] == exp
      modifies this
      ensures Valid() && index == old(index) - {key}
    {
      GenerationsRemove(index, key);
      GenerationIds(index);
      assert key in Generation(index, BucketOf(exp));
      index := index - {key};
      assert |index| < |old(index)|;
      var id := BucketOf(exp);
      if id in buckets {
        var bucket := buckets[id] - {key};
        if bucket == {} {
          buckets := buckets - {id};
        } else {
          buckets := buckets[id := bucket];
        }
      }
    }

    /** Drops every generation that has passed, in whatever order the map yields them. */
    method EvictLocked(now: Time)
      requires Valid()
      modifies this
      ensures Valid() && index == Unpassed(old(index), now)
    {
      var pending := buckets.Keys;
      ghost var dropped: set<int> := {};
      assert index == Without(index, {});
      while pending != {}
        invariant Valid() && pending <= buckets.Keys
        invariant forall id | id in buckets && Passed(id, now) :: id in pending
        invariant forall id | id in dropped :: Passed(id, now)
        invariant index == Without(old(index), dropped)
      {
        var id :| id in pending;
        pending := pending - {id};
        if Passed(id, now) {
          DropGeneration(id);
          WithoutBoth(old(index), dropped, id);
          dropped := dropped + {id};
        }
      }
      GenerationIds(index);
      forall k | k in index ensures !Passed(BucketOf(index[k]), now) {
        assert k in Generation(index, BucketOf(index[k]));
      }
    }

    /** The inner loop: forgets the keys one generation owns, then the generation. */
    method DropGeneration(id: int)
      requires Valid() && id in buckets
      modifies this
      ensures Valid() && index == Without(old(index), {id}) && buckets == old(buckets) - {id}
    {
      ghost var was := index;
      GenerationIds(was);
      GenerationsWithout(was, {id});
      var keys := buckets[id];
      assert keys == Generation(was, id);
      PartlyDroppedStarts(was, id);
      while keys != {}
        invariant buckets == old(buckets) && keys <= Generation(was, id)
        invariant index == PartlyDropped(was, id, keys)
      {
        var key :| key in keys;
        PartlyDroppedStep(was, id, keys, key);
        if key in index && BucketOf(index[key]) == id {
          index := index - {key};
        }
        keys := keys - {key};
      }
      buckets := buckets - {id};
      PartlyDroppedEnds(was, id);
      SubsetIsSmaller(index, was);
    }

    /** The janitor's tick. */
    method Sweep(now: Time)
      requires Valid()
      modifies this
      ensures Valid() && index == Unpassed(old(index), now)
    {
      EvictLocked(now);
    }
  }

  lemma SubsetIsSmaller(a: Index, b: Index)
    requires a.Keys <= b.Keys
    ensures |a| <= |b|
  {
    KeysOfSubset(a.Keys, b.Keys);
    assert |a| == |a.Keys| && |b| == |b.Keys|;
  }

  lemma {:induction false} KeysOfSubset<T>(a: set<T>, b: set<T>)
    requires a <= b
    ensures |a| <= |b|
  {
    if a != {} {
      var x :| x in a;
      KeysOfSubset(a - {x}, b - {x});
    }
  }
}
