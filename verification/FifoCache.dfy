/**
 verify/scitt/cache.go: the receipt cache and the status-token cache, one bounded first-in-first-out cache
 that differs only in when an entry expires.
 */
module FifoCache {
  import opened Prelude

  /** expiresAt is in nanoseconds for receipts and in Unix seconds for tokens; an entry is fresh through it. */
  datatype Entry<+V> = Entry(value: V, expiresAt: int)

  // ----- The specification: a bounded queue in which overwriting does not move a key -----

  type Queue<V> = seq<(string, Entry<V>)>

  /** In place when the key is queued, at the back otherwise. */
  function Put<V>(q: Queue<V>, key: string, e: Entry<V>): Queue<V> {
    if q == [] then [(key, e)]
    else if q[0].0 == key then [(key, e)] + q[1..]
    else [q[0]] + Put(q[1..], key, e)
  }

  function Remove<V>(q: Queue<V>, key: string): Queue<V> {
    if q == [] then []
    else if q[0].0 == key then q[1..]
    else [q[0]] + Remove(q[1..], key)
  }

  /** The newest entries that fit. */
  function Newest<V>(q: Queue<V>, maxEntries: int): Queue<V> {
    if |q| <= maxEntries then q else q[|q| - Max(0, maxEntries)..]
  }

  datatype Op<V> = Insert(key: string, entry: Entry<V>) | Invalidate(key: string)

  function QueueStep<V>(q: Queue<V>, maxEntries: int, op: Op<V>): Queue<V> {
    match op
    case Insert(key, e) => Newest(Put(q, key, e), maxEntries)
    case Invalidate(key) => Remove(q, key)
  }

  function QueueAfter<V>(maxEntries: int, ops: seq<Op<V>>): Queue<V> {
    if ops == [] then [] else QueueStep(QueueAfter(maxEntries, ops[..|ops| - 1]), maxEntries, ops[|ops| - 1])
  }

  // ----- The representation: entries by key, and the keys in insertion order -----

  function Keys<V>(q: Queue<V>): seq<string> {
    if q == [] then [] else [q[0].0] + Keys(q[1..])
  }

  predicate Distinct(keys: seq<string>) {
    keys == [] || (keys[0] !in keys[1..] && Distinct(keys[1..]))
  }

  /** The insertion order has no duplicates and lists exactly the keys of the map. */
  ghost predicate Listed<V>(entries: map<string, Entry<V>>, order: seq<string>) {
    && Distinct(order)
    && (forall k | k in order :: k in entries)
    && (forall k | k in entries :: k in order)
  }

  function QueueOf<V>(entries: map<string, Entry<V>>, order: seq<string>): (q: Queue<V>)
    requires forall k | k in order :: k in entries
    ensures |q| == |order|
  {
    if order == [] then [] else [(order[0], entries[order[0]])] + QueueOf(entries, order[1..])
  }

  class BoundedCache<V> {
    var entries: map<string, Entry<V>>
    var insertOrder: seq<string>
    const maxEntries: int

    ghost predicate Valid()
      reads this
    {
      Listed(entries, insertOrder) && |insertOrder| <= Max(0, maxEntries)
    }

    /** The abstract queue. */
    ghost function Contents(): Queue<V>
      reads this
      requires Listed(entries, insertOrder)
    {
      QueueOf(entries, insertOrder)
    }

    constructor (maxEntries: int)
      ensures Valid() && Contents() == [] && this.maxEntries == maxEntries
    {
      this.entries, this.insertOrder, this.maxEntries := map[], [], maxEntries;
    }

    method Get(key: string, now: int) returns (r: Option<V>)
      requires Valid()
      ensures r == Lookup(Contents(), key, now)
    {
      LookupFinds(entries, insertOrder, key, now);
      if key !in entries {
        return None;
      }
      if now > entries[key].expiresAt {
        return None;
      }
      return Some(entries[key].value);
    }

    method Insert(key: string, e: Entry<V>)
      requires Valid()
      modifies this
      ensures Valid() && Contents() == Newest(Put(old(Contents()), key, e), maxEntries)
    {
      PutUpdates(entries, insertOrder, key, e);
      if key !in entries {
        insertOrder := insertOrder + [key];
      }
      entries := entries[key := e];
      EvictLocked();
    }

    method Invalidate(key: string)
      requires Valid()
      modifies this
      ensures Valid() && Contents() == Remove(old(Contents()), key)
    {
      if key in entries {
        var i := RemoveFromOrderLocked(key);
        RemoveAt(entries, old(insertOrder), i);
        entries := entries - {key};
      } else {
        KeysOfQueue(entries, insertOrder);
        RemoveOfAbsent(Contents(), key);
      }
    }

    method EvictLocked()
      requires Listed(entries, insertOrder)
      modifies this
      ensures Valid() && Contents() == Newest(old(Contents()), maxEntries)
    {
      ListedCounts(entries, insertOrder);
      if |entries| <= maxEntries {
        return;
      }
      var toRemove := |entries| - maxEntries;
      ghost var was := insertOrder;
      var i := 0;
      while i < toRemove && |insertOrder| > 0
        invariant 0 <= i <= |was| && i <= toRemove
        invariant insertOrder == was[i..]
        invariant Listed(entries, insertOrder)
        invariant forall k | k in entries :: k in old(entries) && entries[k] == old(entries)[k]
      {
        var oldest := insertOrder[0];
        DropOldest(entries, insertOrder);
        insertOrder := insertOrder[1..];
        entries := entries - {oldest};
        i := i + 1;
      }
      NewestLeft(old(entries), was, entries, insertOrder, maxEntries);
    }

    /** Removes the first occurrence; its position is returned for the proof of Invalidate. */
    method RemoveFromOrderLocked(key: string) returns (ghost at: nat)
      requires key in insertOrder
      modifies this`insertOrder
      ensures at < |old(insertOrder)| && old(insertOrder)[at] == key && key !in old(insertOrder)[..at]
      ensures insertOrder == old(insertOrder)[..at] + old(insertOrder)[at + 1..]
    {
      assert insertOrder[..|insertOrder|] == insertOrder;
      for i := 0 to |insertOrder|
        invariant insertOrder == old(insertOrder) && key !in insertOrder[..i]
      {
        if insertOrder[i] == key {
          insertOrder := insertOrder[..i] + insertOrder[i + 1..];
          return i;
        }
        assert insertOrder[..i + 1] == insertOrder[..i] + [insertOrder[i]];
      }
      assert false;
    }
  }

  // ----- Lookups -----

  function Lookup<V>(q: Queue<V>, key: string, now: int): Option<V> {
    if q == [] then None
    else if q[0].0 == key then (if now > q[0].1.expiresAt then None else Some(q[0].1.value))
    else Lookup(q[1..], key, now)
  }

  lemma {:induction false} LookupFinds<V>(entries: map<string, Entry<V>>, order: seq<string>, key: string, now: int)
    requires forall k | k in order :: k in entries
    ensures key !in order ==> Lookup(QueueOf(entries, order), key, now) == None
    ensures key in order ==>
      Lookup(QueueOf(entries, order), key, now) == if now > entries[key].expiresAt then None else Some(entries[key].value)
  {
    if order != [] {
      LookupFinds(entries, order[1..], key, now);
      HeadOrTail(order, key);
    }
  }

  // ----- The steps of the representation -----

  lemma HeadOrTail(keys: seq<string>, key: string)
    requires keys != []
    ensures key in keys <==> key == keys[0] || key in keys[1..]
  {
    assert keys == [keys[0]] + keys[1..];
  }

  lemma {:induction false} QueueOfAgrees<V>(a: map<string, Entry<V>>, b: map<string, Entry<V>>, order: seq<string>)
    requires forall k | k in order :: k in a && k in b && a[k] == b[k]
    ensures QueueOf(a, order) == QueueOf(b, order)
  {
    if order != [] {
      QueueOfAgrees(a, b, order[1..]);
    }
  }

  lemma {:induction false} DistinctMore(keys: seq<string>, key: string)
    requires Distinct(keys) && key !in keys
    ensures Distinct(keys + [key])
  {
    if keys != [] {
      DistinctMore(keys[1..], key);
      assert (keys + [key])[1..] == keys[1..] + [key];
    }
  }

  lemma {:induction false} QueueOfMore<V>(entries: map<string, Entry<V>>, order: seq<string>, key: string)
    requires key in entries && forall k | k in order :: k in entries
    ensures QueueOf(entries, order + [key]) == QueueOf(entries, order) + [(key, entries[key])]
  {
    if order != [] {
      QueueOfMore(entries, order[1..], key);
      assert (order + [key])[1..] == order[1..] + [key];
    }
  }

  lemma {:induction false} PutQueued<V>(entries: map<string, Entry<V>>, order: seq<string>, key: string, e: Entry<V>)
    requires Distinct(order) && key in order && forall k | k in order :: k in entries
    ensures Put(QueueOf(entries, order), key, e) == QueueOf(entries[key := e], order)
  {
    if order[0] == key {
      QueueOfAgrees(entries, entries[key := e], order[1..]);
    } else {
      HeadOrTail(order, key);
      PutQueued(entries, order[1..], key, e);
    }
  }

  lemma {:induction false} PutUnqueued<V>(entries: map<string, Entry<V>>, order: seq<string>, key: string, e: Entry<V>)
    requires key !in order && forall k | k in order :: k in entries
    ensures Put(QueueOf(entries, order), key, e) == QueueOf(entries, order) + [(key, e)]
  {
    if order != [] {
      PutUnqueued(entries, order[1..], key, e);
    }
  }

  lemma PutUpdates<V>(entries: map<string, Entry<V>>, order: seq<string>, key: string, e: Entry<V>)
    requires Listed(entries, order)
    ensures var order' := if key in entries then order else order + [key];
      Listed(entries[key := e], order') && QueueOf(entries[key := e], order') == Put(QueueOf(entries, order), key, e)
  {
    if key in entries {
      PutQueued(entries, order, key, e);
    } else {
      DistinctMore(order, key);
      PutUnqueued(entries, order, key, e);
      QueueOfMore(entries[key := e], order, key);
      QueueOfAgrees(entries, entries[key := e], order);
    }
  }

  lemma Spliced(keys: seq<string>, at: nat)
    requires 0 < at < |keys|
    ensures keys[..at] + keys[at + 1..] == [keys[0]] + (keys[1..][..at - 1] + keys[1..][at..])
    ensures keys[1..][at - 1] == keys[at]
    ensures forall k | k in keys[1..][..at - 1] :: k in keys[..at]
  {
    assert keys[1..][..at - 1] == keys[1..at] && keys[..at] == [keys[0]] + keys[1..at];
  }

  lemma {:induction false} RemoveFrom<V>(entries: map<string, Entry<V>>, order: seq<string>, at: nat)
    requires at < |order| && order[at] !in order[..at] && forall k | k in order :: k in entries
    ensures Remove(QueueOf(entries, order), order[at]) == QueueOf(entries, order[..at] + order[at + 1..])
  {
    if at == 0 {
      assert order[..0] + order[1..] == order[1..];
    } else {
      var left := order[1..][..at - 1] + order[1..][at..];
      Spliced(order, at);
      assert order[0] == order[..at][0];
      RemoveFrom(entries, order[1..], at - 1);
      assert ([order[0]] + left)[1..] == left;
    }
  }

  lemma {:induction false} DistinctSplices(keys: seq<string>, at: nat)
    requires at < |keys| && Distinct(keys)
    ensures Distinct(keys[..at] + keys[at + 1..])
    ensures forall k :: k in keys[..at] + keys[at + 1..] <==> k in keys && k != keys[at]
  {
    if at == 0 {
      assert keys[..0] + keys[1..] == keys[1..];
      assert keys == [keys[0]] + keys[1..];
    } else {
      var left := keys[1..][..at - 1] + keys[1..][at..];
      Spliced(keys, at);
      DistinctSplices(keys[1..], at - 1);
      assert ([keys[0]] + left)[1..] == left;
      assert keys == [keys[0]] + keys[1..];
    }
  }

  lemma RemoveAt<V>(entries: map<string, Entry<V>>, order: seq<string>, at: nat)
    requires Listed(entries, order) && at < |order| && order[at] !in order[..at]
    ensures var key, order' := order[at], order[..at] + order[at + 1..];
      Listed(entries - {key}, order') && QueueOf(entries - {key}, order') == Remove(QueueOf(entries, order), key)
  {
    RemoveFrom(entries, order, at);
    DistinctSplices(order, at);
    var order' := order[..at] + order[at + 1..];
    assert forall k | k in order' :: k in order && k != order[at];
    QueueOfAgrees(entries, entries - {order[at]}, order');
  }

  lemma {:induction false} KeysOfQueue<V>(entries: map<string, Entry<V>>, order: seq<string>)
    requires forall k | k in order :: k in entries
    ensures Keys(QueueOf(entries, order)) == order
  {
    if order != [] {
      KeysOfQueue(entries, order[1..]);
    }
  }

  lemma {:induction false} RemoveOfAbsent<V>(q: Queue<V>, key: string)
    requires key !in Keys(q)
    ensures Remove(q, key) == q
  {
    if q != [] {
      RemoveOfAbsent(q[1..], key);
    }
  }

  lemma DropOldest<V>(entries: map<string, Entry<V>>, order: seq<string>)
    requires Listed(entries, order) && order != []
    ensures Listed(entries - {order[0]}, order[1..])
  {
    forall k ensures k in order <==> k == order[0] || k in order[1..] {
      HeadOrTail(order, k);
    }
  }

  lemma {:induction false} QueueOfSuffix<V>(entries: map<string, Entry<V>>, order: seq<string>, i: nat)
    requires i <= |order| && forall k | k in order :: k in entries
    ensures QueueOf(entries, order[i..]) == QueueOf(entries, order)[i..]
  {
    if i != 0 {
      QueueOfSuffix(entries, order[1..], i - 1);
      assert order[1..][i - 1..] == order[i..];
      assert QueueOf(entries, order)[1..][i - 1..] == QueueOf(entries, order)[i..];
    } else {
      assert order[0..] == order;
    }
  }

  lemma NewestLeft<V>(entries: map<string, Entry<V>>, order: seq<string>,
                      left: map<string, Entry<V>>, leftOrder: seq<string>, maxEntries: int)
    requires (forall k | k in order :: k in entries) && (forall k | k in leftOrder :: k in left)
    requires forall k | k in left :: k in entries && left[k] == entries[k]
    requires |order| > maxEntries && leftOrder == order[|order| - Max(0, maxEntries)..]
    ensures QueueOf(left, leftOrder) == Newest(QueueOf(entries, order), maxEntries)
  {
    QueueOfAgrees(left, entries, leftOrder);
    QueueOfSuffix(entries, order, |order| - Max(0, maxEntries));
  }

  lemma {:induction false} ListedCounts<V>(entries: map<string, Entry<V>>, order: seq<string>)
    requires Listed(entries, order)
    ensures |entries| == |order|
  {
    if order == [] {
      assert entries == map[];
    } else {
      DropOldest(entries, order);
      ListedCounts(entries - {order[0]}, order[1..]);
      assert entries.Keys == (entries - {order[0]}).Keys + {order[0]};
    }
  }

  // ----- Runs -----

  lemma {:induction false} PutKeepsKeys<V>(q: Queue<V>, key: string, e: Entry<V>)
    ensures Keys(Put(q, key, e)) == if key in Keys(q) then Keys(q) else Keys(q) + [key]
    ensures |Put(q, key, e)| <= |q| + 1
  {
    if q != [] && q[0].0 != key {
      PutKeepsKeys(q[1..], key, e);
      HeadOrTail(Keys(q), key);
      assert [q[0].0] + (Keys(q[1..]) + [key]) == Keys(q) + [key];
    }
  }

  lemma {:induction false} RemoveKeepsKeys<V>(q: Queue<V>, key: string)
    requires Distinct(Keys(q))
    ensures Distinct(Keys(Remove(q, key))) && |Remove(q, key)| <= |q|
    ensures forall k :: k in Keys(Remove(q, key)) <==> k in Keys(q) && k != key
  {
    if q != [] {
      assert Keys(q)[1..] == Keys(q[1..]) && Keys(q) == [q[0].0] + Keys(q[1..]);
      if q[0].0 != key {
        RemoveKeepsKeys(q[1..], key);
        assert Keys(Remove(q, key)) == [q[0].0] + Keys(Remove(q[1..], key));
      }
    }
  }

  lemma {:induction false} SuffixKeepsKeys<V>(q: Queue<V>, i: nat)
    requires i <= |q| && Distinct(Keys(q))
    ensures Distinct(Keys(q[i..]))
  {
    if i == 0 {
      assert q[0..] == q;
    } else {
      assert q[1..][i - 1..] == q[i..];
      SuffixKeepsKeys(q[1..], i - 1);
    }
  }

  lemma StepIsBounded<V>(q: Queue<V>, maxEntries: int, op: Op<V>)
    requires Distinct(Keys(q)) && |q| <= Max(0, maxEntries)
    ensures Distinct(Keys(QueueStep(q, maxEntries, op))) && |QueueStep(q, maxEntries, op)| <= Max(0, maxEntries)
  {
    match op
    case Insert(key, e) =>
      var more := Put(q, key, e);
      PutKeepsKeys(q, key, e);
      if key !in Keys(q) {
        DistinctMore(Keys(q), key);
      }
      if |more| > maxEntries {
        SuffixKeepsKeys(more, |more| - Max(0, maxEntries));
      }
    case Invalidate(key) =>
      RemoveKeepsKeys(q, key);
  }

  /** After any sequence of inserts and invalidations the keys are distinct and at most max(0, maxEntries). */
  lemma {:induction false} RunIsBounded<V>(maxEntries: int, ops: seq<Op<V>>)
    ensures Distinct(Keys(QueueAfter(maxEntries, ops))) && |QueueAfter(maxEntries, ops)| <= Max(0, maxEntries)
  {
    if ops != [] {
      RunIsBounded(maxEntries, ops[..|ops| - 1]);
      StepIsBounded(QueueAfter(maxEntries, ops[..|ops| - 1]), maxEntries, ops[|ops| - 1]);
    }
  }

  // ----- What a hit means -----

  /** The last operation on a key. */
  function Latest<V>(ops: seq<Op<V>>, key: string): Option<Op<V>> {
    if ops == [] then None
    else if ops[|ops| - 1].key == key then Some(ops[|ops| - 1])
    else Latest(ops[..|ops| - 1], key)
  }

  lemma InHeadOrTail<V>(q: Queue<V>, x: (string, Entry<V>))
    requires q != [] && x in q
    ensures x == q[0] || x in q[1..]
  {
    assert q == [q[0]] + q[1..];
  }

  lemma {:induction false} PutHolds<V>(q: Queue<V>, key: string, e: Entry<V>, x: (string, Entry<V>))
    requires x in Put(q, key, e) && Distinct(Keys(q))
    ensures x == (key, e) || (x in q && x.0 != key)
  {
    if q != [] {
      InHeadOrTail(Put(q, key, e), x);
      if q[0].0 == key {
        if x in q[1..] {
          HeldKeyListed(q[1..], x);
        }
      } else if x != q[0] {
        PutHolds(q[1..], key, e, x);
      }
    }
  }

  lemma {:induction false} RemoveHolds<V>(q: Queue<V>, key: string, x: (string, Entry<V>))
    requires x in Remove(q, key)
    ensures x in q
  {
    if q[0].0 != key {
      InHeadOrTail(Remove(q, key), x);
      if x != q[0] {
        RemoveHolds(q[1..], key, x);
      }
    }
  }

  lemma {:induction false} HeldKeyListed<V>(q: Queue<V>, x: (string, Entry<V>))
    requires x in q
    ensures x.0 in Keys(q)
  {
    InHeadOrTail(q, x);
    if x != q[0] {
      HeldKeyListed(q[1..], x);
    }
  }

  /** Whatever is held for a key is what the last operation on that key inserted. */
  lemma {:induction false} HeldIsLatest<V>(maxEntries: int, ops: seq<Op<V>>, x: (string, Entry<V>))
    requires x in QueueAfter(maxEntries, ops)
    ensures Latest(ops, x.0) == Some(Insert(x.0, x.1))
  {
    var n := |ops| - 1;
    var q := QueueAfter(maxEntries, ops[..n]);
    RunIsBounded(maxEntries, ops[..n]);
    match ops[n]
    case Insert(key, e) =>
      PutHolds(q, key, e, x);
      if x in q && x.0 != key {
        HeldIsLatest(maxEntries, ops[..n], x);
      }
    case Invalidate(key) =>
      RemoveKeepsKeys(q, key);
      RemoveHolds(q, key, x);
      HeldKeyListed(Remove(q, key), x);
      HeldIsLatest(maxEntries, ops[..n], x);
  }

  lemma {:induction false} LookupIsHeld<V>(q: Queue<V>, key: string, now: int) returns (e: Entry<V>)
    requires Lookup(q, key, now).Some?
    ensures (key, e) in q && Lookup(q, key, now) == Some(e.value) && now <= e.expiresAt
  {
    if q[0].0 == key {
      e := q[0].1;
    } else {
      e := LookupIsHeld(q[1..], key, now);
    }
  }

  /** A hit is the value of the last operation on the key, an insert that has not expired. */
  lemma HitIsLatestInsert<V>(maxEntries: int, ops: seq<Op<V>>, key: string, now: int) returns (e: Entry<V>)
    requires Lookup(QueueAfter(maxEntries, ops), key, now).Some?
    ensures Latest(ops, key) == Some(Insert(key, e)) && now <= e.expiresAt
    ensures Lookup(QueueAfter(maxEntries, ops), key, now) == Some(e.value)
  {
    e := LookupIsHeld(QueueAfter(maxEntries, ops), key, now);
    HeldIsLatest(maxEntries, ops, (key, e));
  }

  lemma {:induction false} LatestIsLast<V>(ops: seq<Op<V>>, key: string) returns (i: nat)
    requires Latest(ops, key).Some?
    ensures i < |ops| && ops[i].key == key && Latest(ops, key) == Some(ops[i])
    ensures forall j | i < j < |ops| :: ops[j].key != key
  {
    var n := |ops| - 1;
    if ops[n].key == key {
      i := n;
    } else {
      i := LatestIsLast(ops[..n], key);
    }
  }

  lemma {:induction false} LookupOfHeld<V>(q: Queue<V>, key: string, e: Entry<V>, now: int)
    requires Distinct(Keys(q)) && (key, e) in q
    ensures Lookup(q, key, now) == if now <= e.expiresAt then Some(e.value) else None
  {
    InHeadOrTail(q, (key, e));
    if (key, e) != q[0] {
      HeldKeyListed(q[1..], (key, e));
      LookupOfHeld(q[1..], key, e, now);
    }
  }

  /** A lookup hits exactly what is held and has not expired. */
  lemma HitIff<V>(maxEntries: int, ops: seq<Op<V>>, key: string, now: int, v: V)
    ensures Lookup(QueueAfter(maxEntries, ops), key, now) == Some(v)
       <==> exists e :: (key, e) in QueueAfter(maxEntries, ops) && e.value == v && now <= e.expiresAt
  {
    var q := QueueAfter(maxEntries, ops);
    RunIsBounded(maxEntries, ops);
    if Lookup(q, key, now) == Some(v) {
      var e := LookupIsHeld(q, key, now);
    }
    forall e: Entry<V> | (key, e) in q && e.value == v && now <= e.expiresAt ensures Lookup(q, key, now) == Some(v) {
      LookupOfHeld(q, key, e, now);
    }
  }

  lemma {:induction false} KeysOfSuffix<V>(q: Queue<V>, i: nat)
    requires i <= |q|
    ensures |Keys(q)| == |q| && Keys(q[i..]) == Keys(q)[i..]
  {
    if i == 0 {
      if q != [] {
        KeysOfSuffix(q[1..], 0);
      }
      assert q[0..] == q && Keys(q)[0..] == Keys(q);
    } else {
      KeysOfSuffix(q[1..], i - 1);
      assert q[1..][i - 1..] == q[i..] && Keys(q)[1..] == Keys(q[1..]);
    }
  }

  /** First in, first out: overwriting keeps a key's place, and a new key goes to the back at the cost of the one at the front. */
  lemma InsertIsFifo<V>(maxEntries: int, ops: seq<Op<V>>, key: string, e: Entry<V>)
    ensures var before, after := Keys(QueueAfter(maxEntries, ops)), Keys(QueueAfter(maxEntries, ops + [Insert(key, e)]));
      after == if maxEntries <= 0 then []
               else if key in before then before
               else if |before| < maxEntries then before + [key]
               else before[1..] + [key]
  {
    var q := QueueAfter(maxEntries, ops);
    var more := Put(q, key, e);
    assert (ops + [Insert(key, e)])[..|ops|] == ops;
    RunIsBounded(maxEntries, ops);
    PutKeepsKeys(q, key, e);
    KeysOfSuffix(q, 0);
    KeysOfSuffix(more, 0);
    if |more| > maxEntries {
      KeysOfSuffix(more, |more| - Max(0, maxEntries));
    }
  }

  lemma {:induction false} PutKeeps<V>(q: Queue<V>, key: string, e: Entry<V>, x: (string, Entry<V>))
    requires x == (key, e) || (x in q && x.0 != key)
    ensures x in Put(q, key, e)
  {
    if q != [] && q[0].0 != key {
      if x != q[0] {
        if x in q {
          InHeadOrTail(q, x);
        }
        PutKeeps(q[1..], key, e, x);
        assert x in [q[0]] + Put(q[1..], key, e);
      }
    } else if q != [] && x != (key, e) {
      InHeadOrTail(q, x);
      assert x in [(key, e)] + q[1..];
    }
  }

  lemma {:induction false} RemoveKeeps<V>(q: Queue<V>, key: string, x: (string, Entry<V>))
    requires x in q && x.0 != key
    ensures x in Remove(q, key)
  {
    InHeadOrTail(q, x);
    if q[0].0 != key && x != q[0] {
      RemoveKeeps(q[1..], key, x);
      assert x in [q[0]] + Remove(q[1..], key);
    }
  }

  lemma {:induction false} KeyIsHeld<V>(q: Queue<V>, key: string) returns (e: Entry<V>)
    requires key in Keys(q)
    ensures (key, e) in q
  {
    if q[0].0 == key {
      e := q[0].1;
    } else {
      HeadOrTail(Keys(q), key);
      e := KeyIsHeld(q[1..], key);
    }
  }

  /** What is held after one more insertion: the new entry, and of the old ones those whose key is still listed. */
  lemma InsertHoldsIff<V>(maxEntries: int, ops: seq<Op<V>>, key: string, e: Entry<V>, x: (string, Entry<V>))
    ensures var q, after := QueueAfter(maxEntries, ops), QueueAfter(maxEntries, ops + [Insert(key, e)]);
      x in after <==> x.0 in Keys(after) && (x == (key, e) || (x in q && x.0 != key))
  {
    var q, after := QueueAfter(maxEntries, ops), QueueAfter(maxEntries, ops + [Insert(key, e)]);
    assert (ops + [Insert(key, e)])[..|ops|] == ops;
    RunIsBounded(maxEntries, ops);
    RunIsBounded(maxEntries, ops + [Insert(key, e)]);
    if x in after {
      HeldKeyListed(after, x);
      assert x in Put(q, key, e);
      PutHolds(q, key, e, x);
    }
    if x.0 in Keys(after) && (x == (key, e) || (x in q && x.0 != key)) {
      var held := KeyIsHeld(after, x.0);
      assert (x.0, held) in Put(q, key, e);
      PutKeeps(q, key, e, x);
      PutKeepsKeys(q, key, e);
      OneEntryPerKey(Put(q, key, e), x, (x.0, held));
    }
  }

  lemma {:induction false} OneEntryPerKey<V>(q: Queue<V>, x: (string, Entry<V>), y: (string, Entry<V>))
    requires Distinct(Keys(q)) && x in q && y in q && x.0 == y.0
    ensures x == y
  {
    InHeadOrTail(q, x);
    InHeadOrTail(q, y);
    if x in q[1..] {
      HeldKeyListed(q[1..], x);
    }
    if y in q[1..] {
      HeldKeyListed(q[1..], y);
    }
    if x in q[1..] && y in q[1..] {
      OneEntryPerKey(q[1..], x, y);
    }
  }

  /** An invalidation takes exactly what is held for its key. */
  lemma InvalidateHoldsIff<V>(maxEntries: int, ops: seq<Op<V>>, key: string, x: (string, Entry<V>))
    ensures x in QueueAfter(maxEntries, ops + [Invalidate(key)]) <==> x in QueueAfter(maxEntries, ops) && x.0 != key
  {
    var q := QueueAfter(maxEntries, ops);
    assert (ops + [Op<V>.Invalidate(key)])[..|ops|] == ops;
    RunIsBounded(maxEntries, ops);
    RemoveKeepsKeys(q, key);
    if x in Remove(q, key) {
      RemoveHolds(q, key, x);
      HeldKeyListed(Remove(q, key), x);
    }
    if x in q && x.0 != key {
      RemoveKeeps(q, key, x);
    }
  }

  /** The receipt cache: an entry expires one lifetime after its insertion. */
  function ReceiptEntry<V>(receipt: V, ttl: int, insertedAt: int): Entry<V> {
    Entry(receipt, insertedAt + ttl)
  }

  /** A receipt that is returned was inserted at most one lifetime ago, and nothing touched its key since. */
  lemma ReceiptHitIsYoung<V>(maxEntries: int, ops: seq<Op<V>>, times: seq<int>, ttl: int, key: string, now: int) returns (i: nat)
    requires |times| == |ops|
    requires forall j | 0 <= j < |ops| && ops[j].Insert? :: ops[j].entry == ReceiptEntry(ops[j].entry.value, ttl, times[j])
    requires Lookup(QueueAfter(maxEntries, ops), key, now).Some?
    ensures i < |ops| && ops[i].Insert? && ops[i].key == key && (forall j | i < j < |ops| :: ops[j].key != key)
    ensures Lookup(QueueAfter(maxEntries, ops), key, now) == Some(ops[i].entry.value) && now <= times[i] + ttl
  {
    var e := HitIsLatestInsert(maxEntries, ops, key, now);
    i := LatestIsLast(ops, key);
  }
}
