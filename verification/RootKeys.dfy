/** verify/scitt/root_keys.go: trusted keys by key id, built from and merged with key strings. */
module RootKeys {
  import opened Prelude

  /** A 4-byte key id. */
  type Kid = k: Bytes | |k| == 4 witness [0, 0, 0, 0]

  /** An ECDSA public key, by its encoding. */
  type PublicKey = Bytes

  datatype TrustedKey = TrustedKey(name: string, kid: Kid, key: PublicKey)

  type KeyMap = map<Kid, TrustedKey>

  /** ParseC2SPKey: None for a string that is not a key. Its PKIX parser is library code. */
  type KeyParser = string -> Option<TrustedKey>

  /** Every key is filed under its own id. */
  ghost predicate WellKeyed(keys: KeyMap) {
    forall kid | kid in keys :: keys[kid].kid == kid
  }

  datatype MergeResult = MergeResult(
    added: nat, skipped: nat, skippedUnparseable: nat, skippedDuplicate: nat, collisions: seq<Kid>)

  datatype Merge = Merge(keys: KeyMap, result: MergeResult)

  function MergeOne(m: Merge, parsed: Option<TrustedKey>): Merge {
    match parsed
    case None =>
      m.(result := m.result.(skippedUnparseable := m.result.skippedUnparseable + 1, skipped := m.result.skipped + 1))
    case Some(tk) =>
      if tk.kid in m.keys then
        m.(result := m.result.(
          collisions := if m.keys[tk.kid].name != tk.name then m.result.collisions + [tk.kid] else m.result.collisions,
          skippedDuplicate := m.result.skippedDuplicate + 1,
          skipped := m.result.skipped + 1))
      else
        Merge(m.keys[tk.kid := tk], m.result.(added := m.result.added + 1))
  }

  /** The key strings merged one after the other. */
  function Merged(parse: KeyParser, keys: KeyMap, strings: seq<string>): Merge {
    if strings == [] then Merge(keys, MergeResult(0, 0, 0, 0, []))
    else MergeOne(Merged(parse, keys, strings[..|strings| - 1]), parse(strings[|strings| - 1]))
  }

  datatype KeyError = Unparseable | DuplicateKid

  /** NewKeyStore on values: the first bad string decides. */
  function Built(parse: KeyParser, strings: seq<string>): Result<KeyMap, KeyError> {
    if strings == [] then Ok(map[])
    else
      var before := Built(parse, strings[..|strings| - 1]);
      var parsed := parse(strings[|strings| - 1]);
      if before.Err? then before
      else if parsed.None? then Err(Unparseable)
      else if parsed.value.kid in before.value then Err(DuplicateKid)
      else Ok(before.value[parsed.value.kid := parsed.value])
  }

  method NewKeyStore(parse: KeyParser, keyStrings: seq<string>) returns (r: Result<KeyMap, KeyError>)
    ensures r == Built(parse, keyStrings)
  {
    var keys: KeyMap := map[];
    for i := 0 to |keyStrings|
      invariant Built(parse, keyStrings[..i]) == Ok(keys)
    {
      assert keyStrings[..i + 1][..i] == keyStrings[..i];
      var tk := parse(keyStrings[i]);
      if tk.None? {
        BadStringDecides(parse, keyStrings, i + 1);
        return Err(Unparseable);
      }
      if tk.value.kid in keys {
        BadStringDecides(parse, keyStrings, i + 1);
        return Err(DuplicateKid);
      }
      keys := keys[tk.value.kid := tk.value];
    }
    assert keyStrings[..|keyStrings|] == keyStrings;
    return Ok(keys);
  }

  lemma {:induction false} BadStringDecides(parse: KeyParser, strings: seq<string>, n: nat)
    requires n <= |strings| && Built(parse, strings[..n]).Err?
    ensures Built(parse, strings) == Built(parse, strings[..n])
    decreases |strings|
  {
    if n == |strings| {
      assert strings[..n] == strings;
    } else {
      assert strings[..|strings| - 1][..n] == strings[..n];
      BadStringDecides(parse, strings[..|strings| - 1], n);
    }
  }

  method MergeFrom(parse: KeyParser, keys: KeyMap, keyStrings: seq<string>) returns (merged: KeyMap, result: MergeResult)
    ensures Merge(merged, result) == Merged(parse, keys, keyStrings)
  {
    merged := keys;
    result := MergeResult(0, 0, 0, 0, []);
    for i := 0 to |keyStrings|
      invariant Merge(merged, result) == Merged(parse, keys, keyStrings[..i])
    {
      assert keyStrings[..i + 1][..i] == keyStrings[..i];
      var parsed := parse(keyStrings[i]);
      if parsed.None? {
        result := result.(skippedUnparseable := result.skippedUnparseable + 1, skipped := result.skipped + 1);
      } else {
        var tk := parsed.value;
        if tk.kid in merged {
          if merged[tk.kid].name != tk.name {
            result := result.(collisions := result.collisions + [tk.kid]);
          }
          result := result.(skippedDuplicate := result.skippedDuplicate + 1, skipped := result.skipped + 1);
        } else {
          merged := merged[tk.kid := tk];
          result := result.(added := result.added + 1);
        }
      }
    }
    assert keyStrings[..|keyStrings|] == keyStrings;
  }

  /** Old bindings survive a merge unchanged. */
  ghost predicate Extends(older: KeyMap, newer: KeyMap) {
    forall kid | kid in older :: kid in newer && newer[kid] == older[kid]
  }

  /** The first of the strings that is a key with this id. */
  ghost predicate FirstWithKid(parse: KeyParser, strings: seq<string>, i: nat, kid: Kid) {
    && i < |strings|
    && parse(strings[i]).Some? && parse(strings[i]).value.kid == kid
    && forall j | 0 <= j < i :: parse(strings[j]).Some? ==> parse(strings[j]).value.kid != kid
  }

  /**
   Trust is monotone: a merge keeps every binding, adds exactly the ids the strings name, and binds a new
   id to the first string that names it.
   */
  lemma {:induction false} MergeIsMonotone(parse: KeyParser, keys: KeyMap, strings: seq<string>)
    ensures Extends(keys, Merged(parse, keys, strings).keys)
    ensures forall i | 0 <= i < |strings| && parse(strings[i]).Some? ::
              parse(strings[i]).value.kid in Merged(parse, keys, strings).keys
    ensures forall kid | kid in Merged(parse, keys, strings).keys && kid !in keys ::
              exists i: nat :: FirstWithKid(parse, strings, i, kid)
                       && Merged(parse, keys, strings).keys[kid] == parse(strings[i]).value
  {
    if strings != [] {
      var n := |strings| - 1;
      var init := strings[..n];
      var before, after := Merged(parse, keys, init).keys, Merged(parse, keys, strings).keys;
      MergeIsMonotone(parse, keys, init);
      forall kid | kid in after && kid !in keys
        ensures exists i: nat :: FirstWithKid(parse, strings, i, kid) && after[kid] == parse(strings[i]).value
      {
        if kid in before {
          var i: nat :| FirstWithKid(parse, init, i, kid) && before[kid] == parse(init[i]).value;
          assert FirstWithKid(parse, strings, i, kid);
        } else {
          forall j | 0 <= j < n && parse(strings[j]).Some? ensures parse(strings[j]).value.kid != kid {
            assert init[j] == strings[j];
          }
          assert FirstWithKid(parse, strings, n, kid);
        }
      }
      forall i | 0 <= i < |strings| && parse(strings[i]).Some? ensures parse(strings[i]).value.kid in after {
        if i < n {
          assert init[i] == strings[i];
        }
      }
    }
  }

  /** Every input is counted once, the store grows by exactly the keys added, collisions are duplicates. */
  lemma {:induction false} MergeAccounts(parse: KeyParser, keys: KeyMap, strings: seq<string>)
    ensures var m := Merged(parse, keys, strings);
      && m.result.added + m.result.skipped == |strings|
      && m.result.skipped == m.result.skippedUnparseable + m.result.skippedDuplicate
      && |m.keys| == |keys| + m.result.added
      && |m.result.collisions| <= m.result.skippedDuplicate
  {
    if strings != [] {
      MergeAccounts(parse, keys, strings[..|strings| - 1]);
    }
  }

  // ----- What the counters count -----

  /** String i is a key whose id the store held before, or an earlier string named. */
  predicate IsDuplicate(parse: KeyParser, keys: KeyMap, strings: seq<string>, i: nat) {
    && i < |strings| && parse(strings[i]).Some?
    && (parse(strings[i]).value.kid in keys
        || exists j | 0 <= j < i :: parse(strings[j]).Some? && parse(strings[j]).value.kid == parse(strings[i]).value.kid)
  }

  /** A duplicate under another name than the one its id is bound to. */
  predicate IsCollision(parse: KeyParser, keys: KeyMap, strings: seq<string>, i: nat) {
    && IsDuplicate(parse, keys, strings, i)
    && var tk, bound := parse(strings[i]).value, Merged(parse, keys, strings).keys;
       tk.kid in bound && bound[tk.kid].name != tk.name
  }

  ghost function Unparseables(parse: KeyParser, strings: seq<string>): set<nat> {
    set i: nat | i < |strings| && parse(strings[i]).None?
  }

  ghost function Duplicates(parse: KeyParser, keys: KeyMap, strings: seq<string>): set<nat> {
    set i: nat | i < |strings| && IsDuplicate(parse, keys, strings, i)
  }

  /** The ids of the collisions among the first n strings, in order. */
  function CollidingIds(parse: KeyParser, keys: KeyMap, strings: seq<string>, n: nat): seq<Kid>
    requires n <= |strings|
  {
    if n == 0 then []
    else
      var before := CollidingIds(parse, keys, strings, n - 1);
      if IsCollision(parse, keys, strings, n - 1) then before + [parse(strings[n - 1]).value.kid] else before
  }

  lemma DuplicateIffHeld(parse: KeyParser, keys: KeyMap, strings: seq<string>, n: nat)
    requires |strings| == n + 1 && parse(strings[n]).Some?
    ensures IsDuplicate(parse, keys, strings, n) <==> parse(strings[n]).value.kid in Merged(parse, keys, strings[..n]).keys
  {
    var init, kid := strings[..n], parse(strings[n]).value.kid;
    MergeIsMonotone(parse, keys, init);
    if kid in Merged(parse, keys, init).keys && kid !in keys {
      var j: nat :| FirstWithKid(parse, init, j, kid);
      assert parse(strings[j]).Some? && parse(strings[j]).value.kid == kid;
    }
    if IsDuplicate(parse, keys, strings, n) && kid !in keys {
      var j :| 0 <= j < n && parse(strings[j]).Some? && parse(strings[j]).value.kid == kid;
      assert init[j] == strings[j];
    }
  }

  lemma DuplicateOfMore(parse: KeyParser, keys: KeyMap, strings: seq<string>, n: nat, i: nat)
    requires |strings| == n + 1 && i < n
    ensures IsDuplicate(parse, keys, strings[..n], i) <==> IsDuplicate(parse, keys, strings, i)
  {
    assert forall j | 0 <= j <= i :: strings[..n][j] == strings[j];
  }

  lemma IndexedMore(parse: KeyParser, keys: KeyMap, strings: seq<string>, n: nat)
    requires |strings| == n + 1
    ensures Unparseables(parse, strings)
         == Unparseables(parse, strings[..n]) + if parse(strings[n]).None? then {n} else {}
    ensures Duplicates(parse, keys, strings)
         == Duplicates(parse, keys, strings[..n]) + if IsDuplicate(parse, keys, strings, n) then {n} else {}
  {
    forall i: nat | i < n ensures IsDuplicate(parse, keys, strings[..n], i) <==> IsDuplicate(parse, keys, strings, i) {
      DuplicateOfMore(parse, keys, strings, n, i);
    }
  }

  /** What an earlier string's id is bound to stays. */
  lemma BoundOfMore(parse: KeyParser, keys: KeyMap, strings: seq<string>, n: nat, i: nat)
    requires |strings| == n + 1 && i < n && parse(strings[i]).Some?
    ensures var kid, before, after := parse(strings[i]).value.kid, Merged(parse, keys, strings[..n]).keys, Merged(parse, keys, strings).keys;
      kid in before && kid in after && before[kid] == after[kid]
  {
    MergeIsMonotone(parse, keys, strings[..n]);
    assert strings[..n][i] == strings[i];
  }

  lemma CollisionOfMore(parse: KeyParser, keys: KeyMap, strings: seq<string>, n: nat, i: nat)
    requires |strings| == n + 1 && i < n
    ensures IsCollision(parse, keys, strings[..n], i) <==> IsCollision(parse, keys, strings, i)
  {
    DuplicateOfMore(parse, keys, strings, n, i);
    if parse(strings[i]).Some? {
      BoundOfMore(parse, keys, strings, n, i);
      assert strings[..n][i] == strings[i];
    }
  }

  /** One more string counts as what it is against the keys merged before it. */
  lemma CountOfMore(parse: KeyParser, keys: KeyMap, strings: seq<string>, n: nat)
    requires |strings| == n + 1
    ensures var before, r := Merged(parse, keys, strings[..n]).result, Merged(parse, keys, strings).result;
      && r.skippedUnparseable == before.skippedUnparseable + (if parse(strings[n]).None? then 1 else 0)
      && r.skippedDuplicate == before.skippedDuplicate + (if IsDuplicate(parse, keys, strings, n) then 1 else 0)
      && r.collisions == if IsCollision(parse, keys, strings, n) then before.collisions + [parse(strings[n]).value.kid] else before.collisions
  {
    if parse(strings[n]).Some? {
      DuplicateIffHeld(parse, keys, strings, n);
    }
  }

  lemma {:induction false} CollidingIdsOfMore(parse: KeyParser, keys: KeyMap, strings: seq<string>, n: nat, k: nat)
    requires |strings| == n + 1 && k <= n
    ensures CollidingIds(parse, keys, strings[..n], k) == CollidingIds(parse, keys, strings, k)
  {
    if k != 0 {
      CollidingIdsOfMore(parse, keys, strings, n, k - 1);
      CollisionOfMore(parse, keys, strings, n, k - 1);
      assert strings[..n][k - 1] == strings[k - 1];
    }
  }

  /**
   What the counters count: the strings that are no keys, those whose id is already taken, and, in order, the
   ids of those that would bind a taken id to another name.
   */
  lemma {:induction false} MergeCounts(parse: KeyParser, keys: KeyMap, strings: seq<string>)
    ensures var r := Merged(parse, keys, strings).result;
      && r.skippedUnparseable == |Unparseables(parse, strings)|
      && r.skippedDuplicate == |Duplicates(parse, keys, strings)|
      && r.collisions == CollidingIds(parse, keys, strings, |strings|)
  {
    if strings != [] {
      var n := |strings| - 1;
      MergeCounts(parse, keys, strings[..n]);
      CountOfMore(parse, keys, strings, n);
      IndexedMore(parse, keys, strings, n);
      CollidingIdsOfMore(parse, keys, strings, n, n);
    }
  }

  /** Nothing is added when every named id is already held; the store is then returned as it was. */
  lemma {:induction false} NothingNewAddsNothing(parse: KeyParser, keys: KeyMap, strings: seq<string>)
    requires forall i | 0 <= i < |strings| && parse(strings[i]).Some? :: parse(strings[i]).value.kid in keys
    ensures Merged(parse, keys, strings).keys == keys && Merged(parse, keys, strings).result.added == 0
  {
    if strings != [] {
      var init := strings[..|strings| - 1];
      assert forall i | 0 <= i < |init| :: init[i] == strings[i];
      NothingNewAddsNothing(parse, keys, init);
    }
  }

  /** Merging the same strings again changes nothing. */
  lemma MergeIsIdempotent(parse: KeyParser, keys: KeyMap, strings: seq<string>)
    ensures var once := Merged(parse, keys, strings).keys;
      Merged(parse, once, strings).keys == once && Merged(parse, once, strings).result.added == 0
  {
    MergeIsMonotone(parse, keys, strings);
    NothingNewAddsNothing(parse, Merged(parse, keys, strings).keys, strings);
  }

  /** The strict constructor accepts exactly what a merge into an empty store skips nothing of, and agrees with it. */
  lemma {:induction false} BuildAgreesWithMerge(parse: KeyParser, strings: seq<string>)
    ensures Built(parse, strings).Ok? <==> Merged(parse, map[], strings).result.skipped == 0
    ensures Built(parse, strings).Ok? ==> Built(parse, strings).value == Merged(parse, map[], strings).keys
  {
    if strings != [] {
      BuildAgreesWithMerge(parse, strings[..|strings| - 1]);
    }
  }

  /** The first string that is no key, or names an id again, decides how a strict build fails. */
  ghost predicate FirstBad(parse: KeyParser, strings: seq<string>, i: nat, e: KeyError) {
    && i < |strings| && (forall j | 0 <= j < i :: parse(strings[j]).Some? && !IsDuplicate(parse, map[], strings, j))
    && match e
       case Unparseable => parse(strings[i]).None?
       case DuplicateKid => IsDuplicate(parse, map[], strings, i)
  }

  lemma FirstBadOfMore(parse: KeyParser, strings: seq<string>, n: nat, i: nat, e: KeyError)
    requires |strings| == n + 1 && i < n
    ensures FirstBad(parse, strings[..n], i, e) <==> FirstBad(parse, strings, i, e)
  {
    forall j: nat | j <= i ensures IsDuplicate(parse, map[], strings[..n], j) <==> IsDuplicate(parse, map[], strings, j) {
      DuplicateOfMore(parse, map[], strings, n, j);
    }
    assert forall j | 0 <= j <= i :: strings[..n][j] == strings[j];
  }

  lemma {:induction false} BuildFailsIff(parse: KeyParser, strings: seq<string>, e: KeyError)
    ensures Built(parse, strings) == Err(e) <==> exists i: nat :: FirstBad(parse, strings, i, e)
    ensures Built(parse, strings).Ok? <==> forall j: nat | j < |strings| :: parse(strings[j]).Some? && !IsDuplicate(parse, map[], strings, j)
  {
    if strings != [] {
      var n := |strings| - 1;
      var init := strings[..n];
      BuildFailsIff(parse, init, e);
      BuildAgreesWithMerge(parse, init);
      forall i: nat | i < n
        ensures FirstBad(parse, init, i, e) <==> FirstBad(parse, strings, i, e)
        ensures init[i] == strings[i] && (IsDuplicate(parse, map[], init, i) <==> IsDuplicate(parse, map[], strings, i))
      {
        FirstBadOfMore(parse, strings, n, i, e);
        DuplicateOfMore(parse, map[], strings, n, i);
      }
      if parse(strings[n]).Some? {
        DuplicateIffHeld(parse, map[], strings, n);
      }
      if FirstBad(parse, strings, n, e) {
        assert forall j: nat | j < |init| :: parse(init[j]).Some? && !IsDuplicate(parse, map[], init, j);
      }
      if Built(parse, init).Ok? && Built(parse, strings) == Err(e) {
        assert FirstBad(parse, strings, n, e);
      }
    }
  }

  lemma {:induction false} MergeKeepsWellKeyed(parse: KeyParser, keys: KeyMap, strings: seq<string>)
    requires WellKeyed(keys)
    ensures WellKeyed(Merged(parse, keys, strings).keys)
  {
    if strings != [] {
      MergeKeepsWellKeyed(parse, keys, strings[..|strings| - 1]);
    }
  }

  /** The strict constructor files every key under its own id too. */
  lemma {:induction false} BuiltIsWellKeyed(parse: KeyParser, strings: seq<string>)
    requires Built(parse, strings).Ok?
    ensures WellKeyed(Built(parse, strings).value)
  {
    if strings != [] {
      BuiltIsWellKeyed(parse, strings[..|strings| - 1]);
    }
  }
}
