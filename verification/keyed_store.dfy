/**
 * A document collection in natural (insertion) order, searched by a natural
 * key. A document's `_id` is its position: nothing in the application deletes
 * documents. Every reference-entity service and the upload worker are built
 * from the operations here, instantiated with the entity's key field.
 */
module KeyedStore {
  import opened Wrappers

  type Id = nat

  predicate HasKey<D>(store: seq<D>, keyOf: D -> string, k: string) {
    exists i :: 0 <= i < |store| && keyOf(store[i]) == k
  }

  function Keys<D>(store: seq<D>, keyOf: D -> string): set<string> {
    set i | 0 <= i < |store| :: keyOf(store[i])
  }

  /** No two documents share a natural key. */
  predicate UniqueKeys<D>(store: seq<D>, keyOf: D -> string) {
    forall i, j :: 0 <= i < j < |store| ==> keyOf(store[i]) != keyOf(store[j])
  }

  lemma KeysAppend<D>(a: seq<D>, b: seq<D>, keyOf: D -> string)
    ensures Keys(a + b, keyOf) == Keys(a, keyOf) + Keys(b, keyOf)
  {
    var ab := a + b;
    forall k | k in Keys(ab, keyOf) ensures k in Keys(a, keyOf) + Keys(b, keyOf) {
      var i :| 0 <= i < |ab| && keyOf(ab[i]) == k;
      if i >= |a| { assert ab[i] == b[i - |a|]; }
    }
    forall k | k in Keys(a, keyOf) + Keys(b, keyOf) ensures k in Keys(ab, keyOf) {
      if k in Keys(b, keyOf) {
        var i :| 0 <= i < |b| && keyOf(b[i]) == k;
        assert ab[|a| + i] == b[i];
      } else {
        var i :| 0 <= i < |a| && keyOf(a[i]) == k;
        assert ab[i] == a[i];
      }
    }
  }

  lemma KeysSingleton<D>(d: D, keyOf: D -> string)
    ensures Keys([d], keyOf) == {keyOf(d)}
  {
    assert [d][0] == d;
  }

  /** `findOne({ key: k })`: the position of the first document with key `k`. */
  function FindFirst<D>(store: seq<D>, keyOf: D -> string, k: string): (r: Option<Id>)
    ensures r.Some? ==> r.value < |store| && keyOf(store[r.value]) == k
    ensures r.Some? ==> forall j :: 0 <= j < r.value ==> keyOf(store[j]) != k
    ensures r.None? <==> !HasKey(store, keyOf, k)
    decreases |store|
  {
    if store == [] then None
    else if keyOf(store[0]) == k then Some(0)
    else
      match FindFirst(store[1..], keyOf, k)
      case None =>
        assert forall i :: 1 <= i < |store| ==> store[i] == store[1..][i - 1];
        None
      case Some(i) => Some(i + 1)
  }

  /** `findOne({ key: k })` as a document, or null. */
  function FindByKey<D>(store: seq<D>, keyOf: D -> string, k: string): (r: Option<D>)
    ensures r.Some? <==> HasKey(store, keyOf, k)
    ensures r.Some? ==> keyOf(r.value) == k && r.value in store
  {
    match FindFirst(store, keyOf, k)
    case None => None
    case Some(i) => Some(store[i])
  }

  lemma FindFirstPrefix<D>(a: seq<D>, b: seq<D>, keyOf: D -> string, k: string)
    requires HasKey(a, keyOf, k)
    ensures FindFirst(a + b, keyOf, k) == FindFirst(a, keyOf, k)
  {
    var i := FindFirst(a, keyOf, k).value;
    var j := FindFirst(a + b, keyOf, k);
    assert (a + b)[i] == a[i];
  }

  /**
   * `findOne` then `create`: the first document with `d`'s key when there is
   * one, and the store untouched; otherwise `d` appended and returned.
   */
  function CreateOrFind<D>(store: seq<D>, keyOf: D -> string, d: D): (r: (seq<D>, D))
    ensures keyOf(r.1) == keyOf(d)
    ensures HasKey(store, keyOf, keyOf(d)) ==> r.0 == store && Some(r.1) == FindByKey(store, keyOf, keyOf(d))
    ensures !HasKey(store, keyOf, keyOf(d)) ==> r.0 == store + [d] && r.1 == d
    ensures Keys(r.0, keyOf) == Keys(store, keyOf) + {keyOf(d)}
    ensures UniqueKeys(store, keyOf) ==> UniqueKeys(r.0, keyOf)
  {
    match FindByKey(store, keyOf, keyOf(d))
    case Some(found) => (store, found)
    case None =>
      KeysAppend(store, [d], keyOf);
      KeysSingleton(d, keyOf);
      (store + [d], d)
  }

  /** One `updateOne` with `$setOnInsert` and `upsert: true` filtered on the key. */
  function UpsertIfAbsent<D>(store: seq<D>, keyOf: D -> string, d: D): seq<D> {
    if HasKey(store, keyOf, keyOf(d)) then store else store + [d]
  }

  /**
   * `bulkWrite` of one insert-if-absent operation per item, applied in order
   * (`bulkWrite` is ordered by default).
   */
  function BulkUpsert<D>(store: seq<D>, keyOf: D -> string, items: seq<D>): (r: seq<D>)
    ensures |store| <= |r| <= |store| + |items| && r[..|store|] == store
    ensures Keys(r, keyOf) == Keys(store, keyOf) + Keys(items, keyOf)
    ensures UniqueKeys(r[|store|..], keyOf)
    ensures UniqueKeys(store, keyOf) ==> UniqueKeys(r, keyOf)
    ensures forall i :: |store| <= i < |r| ==>
              !HasKey(store, keyOf, keyOf(r[i])) && FindByKey(items, keyOf, keyOf(r[i])) == Some(r[i])
    decreases |items|
  {
    if items == [] then store
    else
      var last := items[|items| - 1];
      var prev := BulkUpsert(store, keyOf, items[..|items| - 1]);
      var r := UpsertIfAbsent(prev, keyOf, last);
      BulkUpsertStep(store, keyOf, items, prev, r);
      r
  }

  lemma FindByKeyExtend<D>(init: seq<D>, last: D, keyOf: D -> string, k: string)
    requires HasKey(init, keyOf, k)
    ensures FindByKey(init + [last], keyOf, k) == FindByKey(init, keyOf, k)
  {
    FindFirstPrefix(init, [last], keyOf, k);
    var j := FindFirst(init, keyOf, k).value;
    assert (init + [last])[j] == init[j];
  }

  lemma FindByKeyNew<D>(init: seq<D>, last: D, keyOf: D -> string)
    requires !HasKey(init, keyOf, keyOf(last))
    ensures FindByKey(init + [last], keyOf, keyOf(last)) == Some(last)
  {
    var items := init + [last];
    assert items[|init|] == last;
    assert forall j :: 0 <= j < |init| ==> items[j] == init[j];
  }

  lemma BulkUpsertStep<D>(store: seq<D>, keyOf: D -> string, items: seq<D>, prev: seq<D>, r: seq<D>)
    requires items != []
    requires |store| <= |prev| && prev[..|store|] == store
    requires Keys(prev, keyOf) == Keys(store, keyOf) + Keys(items[..|items| - 1], keyOf)
    requires UniqueKeys(prev[|store|..], keyOf)
    requires UniqueKeys(store, keyOf) ==> UniqueKeys(prev, keyOf)
    requires forall i :: |store| <= i < |prev| ==>
               !HasKey(store, keyOf, keyOf(prev[i])) && FindByKey(items[..|items| - 1], keyOf, keyOf(prev[i])) == Some(prev[i])
    requires r == UpsertIfAbsent(prev, keyOf, items[|items| - 1])
    ensures |store| <= |r| && r[..|store|] == store
    ensures Keys(r, keyOf) == Keys(store, keyOf) + Keys(items, keyOf)
    ensures UniqueKeys(r[|store|..], keyOf)
    ensures UniqueKeys(store, keyOf) ==> UniqueKeys(r, keyOf)
    ensures forall i :: |store| <= i < |r| ==>
              !HasKey(store, keyOf, keyOf(r[i])) && FindByKey(items, keyOf, keyOf(r[i])) == Some(r[i])
  {
    var init := items[..|items| - 1];
    var last := items[|items| - 1];
    assert items == init + [last];
    KeysAppend(init, [last], keyOf);
    KeysSingleton(last, keyOf);
    forall i | |store| <= i < |prev|
      ensures FindByKey(items, keyOf, keyOf(prev[i])) == Some(prev[i])
    {
      FindByKeyExtend(init, last, keyOf, keyOf(prev[i]));
    }
    if !HasKey(prev, keyOf, keyOf(last)) {
      BulkUpsertAppendStep(store, keyOf, init, last, prev);
    }
  }

  lemma BulkUpsertAppendStep<D>(store: seq<D>, keyOf: D -> string, init: seq<D>, last: D, prev: seq<D>)
    requires |store| <= |prev| && prev[..|store|] == store
    requires Keys(prev, keyOf) == Keys(store, keyOf) + Keys(init, keyOf)
    requires UniqueKeys(prev[|store|..], keyOf)
    requires UniqueKeys(store, keyOf) ==> UniqueKeys(prev, keyOf)
    requires !HasKey(prev, keyOf, keyOf(last))
    ensures var r := prev + [last];
      && r[..|store|] == store
      && Keys(r, keyOf) == Keys(store, keyOf) + Keys(init + [last], keyOf)
      && UniqueKeys(r[|store|..], keyOf)
      && (UniqueKeys(store, keyOf) ==> UniqueKeys(r, keyOf))
      && !HasKey(store, keyOf, keyOf(last))
      && FindByKey(init + [last], keyOf, keyOf(last)) == Some(last)
  {
    var r := prev + [last];
    KeysAppend(prev, [last], keyOf);
    KeysAppend(init, [last], keyOf);
    KeysSingleton(last, keyOf);
    assert keyOf(last) !in Keys(prev, keyOf);
    assert !HasKey(init, keyOf, keyOf(last));
    FindByKeyNew(init, last, keyOf);
    assert r[..|store|] == prev[..|store|];
    assert r[|store|..] == prev[|store|..] + [last];
  }

  /** Upserting keys that are all present already changes nothing. */
  lemma {:induction false} BulkUpsertPresent<D>(store: seq<D>, keyOf: D -> string, items: seq<D>)
    requires Keys(items, keyOf) <= Keys(store, keyOf)
    ensures BulkUpsert(store, keyOf, items) == store
    decreases |items|
  {
    if items != [] {
      var init := items[..|items| - 1];
      var last := items[|items| - 1];
      assert items == init + [last];
      KeysAppend(init, [last], keyOf);
      BulkUpsertPresent(store, keyOf, init);
      assert keyOf(last) in Keys(store, keyOf);
    }
  }

  /** Re-running the same batch of upserts is a no-op: insert-if-absent is idempotent. */
  lemma BulkUpsertIdempotent<D>(store: seq<D>, keyOf: D -> string, items: seq<D>)
    ensures BulkUpsert(BulkUpsert(store, keyOf, items), keyOf, items) == BulkUpsert(store, keyOf, items)
  {
    BulkUpsertPresent(BulkUpsert(store, keyOf, items), keyOf, items);
  }

  /**
   * `new Map(docs.map(d => [key(d), d._id]))`: the pairs are set in read
   * order, so a later document overwrites an earlier one with the same key.
   */
  function BuildLookup<D>(store: seq<D>, keyOf: D -> string): (m: map<string, Id>)
    ensures m.Keys == Keys(store, keyOf)
    decreases |store|
  {
    if store == [] then map[]
    else
      var init := store[..|store| - 1];
      KeysAppend(init, [store[|store| - 1]], keyOf);
      assert init + [store[|store| - 1]] == store;
      BuildLookup(init, keyOf)[keyOf(store[|store| - 1]) := |store| - 1]
  }

  /** `lookup.get(k)`: absent keys read as `undefined`. */
  function Get(m: map<string, Id>, k: string): Option<Id> {
    if k in m then Some(m[k]) else None
  }

  /** The position of the LAST document with key `k`, found by scanning from the end. */
  function LastIndex<D>(store: seq<D>, keyOf: D -> string, k: string): (r: Option<Id>)
    ensures r.Some? ==> r.value < |store| && keyOf(store[r.value]) == k
    ensures r.Some? ==> forall j :: r.value < j < |store| ==> keyOf(store[j]) != k
    ensures r.None? <==> !HasKey(store, keyOf, k)
    decreases |store|
  {
    if store == [] then None
    else if keyOf(store[|store| - 1]) == k then Some(|store| - 1)
    else
      var r := LastIndex(store[..|store| - 1], keyOf, k);
      assert forall i :: 0 <= i < |store| - 1 ==> store[i] == store[..|store| - 1][i];
      r
  }

  /** Looking a key up in the built map finds the last document in read order with that key. */
  lemma {:induction false} LookupIsLastIndex<D>(store: seq<D>, keyOf: D -> string, k: string)
    ensures Get(BuildLookup(store, keyOf), k) == LastIndex(store, keyOf, k)
    decreases |store|
  {
    if store != [] {
      LookupIsLastIndex(store[..|store| - 1], keyOf, k);
    }
  }

  /** With unique keys the last match is also the first: lookup and `findOne` agree. */
  lemma LookupIsFindFirst<D>(store: seq<D>, keyOf: D -> string, k: string)
    requires UniqueKeys(store, keyOf)
    ensures Get(BuildLookup(store, keyOf), k) == FindFirst(store, keyOf, k)
  {
    LookupIsLastIndex(store, keyOf, k);
  }

  /** `entries.set(key(d), d)` on a JavaScript `Map` kept as its entry list: in place when present, else appended. */
  function MapSet<D>(entries: seq<D>, keyOf: D -> string, d: D): (r: seq<D>)
    ensures Keys(r, keyOf) == Keys(entries, keyOf) + {keyOf(d)}
    ensures UniqueKeys(entries, keyOf) ==> UniqueKeys(r, keyOf)
    ensures d in r
    ensures forall e :: e in r && keyOf(e) != keyOf(d) ==> e in entries
    ensures UniqueKeys(entries, keyOf) ==> forall e :: e in r && keyOf(e) == keyOf(d) ==> e == d
  {
    match FindFirst(entries, keyOf, keyOf(d))
    case Some(i) =>
      var r := entries[i := d];
      assert Keys(r, keyOf) == Keys(entries, keyOf) by {
        forall k | k in Keys(entries, keyOf) ensures k in Keys(r, keyOf) {
          var j :| 0 <= j < |entries| && keyOf(entries[j]) == k;
          assert keyOf(r[j]) == k;
        }
      }
      assert r[i] == d;
      r
    case None =>
      KeysAppend(entries, [d], keyOf);
      KeysSingleton(d, keyOf);
      assert (entries + [d])[|entries|] == d;
      entries + [d]
  }

  /** The value of the LAST projected row with key `k`: a reference for last-wins deduplication. */
  function LastProjected<R, D>(rows: seq<R>, proj: R -> Option<D>, keyOf: D -> string, k: string): (r: Option<D>)
    ensures r.Some? ==> keyOf(r.value) == k
    decreases |rows|
  {
    if rows == [] then None
    else
      var p := proj(rows[|rows| - 1]);
      if p.Some? && keyOf(p.value) == k then p
      else LastProjected(rows[..|rows| - 1], proj, keyOf, k)
  }

  /** The keys of all projected rows. */
  function ProjectedKeys<R, D>(rows: seq<R>, proj: R -> Option<D>, keyOf: D -> string): set<string> {
    set i | 0 <= i < |rows| && proj(rows[i]).Some? :: keyOf(proj(rows[i]).value)
  }

  /**
   * A `Map` filled by `map.set(key(d), d)` for every row that projects to
   * some `d`, in row order, read back as its entry list.
   */
  function Collect<R, D>(rows: seq<R>, proj: R -> Option<D>, keyOf: D -> string): (r: seq<D>)
    ensures UniqueKeys(r, keyOf)
    ensures forall e :: e in r ==> LastProjected(rows, proj, keyOf, keyOf(e)) == Some(e)
    ensures forall k :: k in Keys(r, keyOf) <==> LastProjected(rows, proj, keyOf, k).Some?
    decreases |rows|
  {
    if rows == [] then []
    else
      var prev := Collect(rows[..|rows| - 1], proj, keyOf);
      match proj(rows[|rows| - 1])
      case None => prev
      case Some(d) => MapSet(prev, keyOf, d)
  }

  /** Every projected row contributes its key, and only projected rows contribute keys. */
  lemma {:induction false} CollectKeys<R, D>(rows: seq<R>, proj: R -> Option<D>, keyOf: D -> string)
    ensures Keys(Collect(rows, proj, keyOf), keyOf) == ProjectedKeys(rows, proj, keyOf)
    decreases |rows|
  {
    if rows != [] {
      var init := rows[..|rows| - 1];
      CollectKeys(init, proj, keyOf);
      var a := ProjectedKeys(rows, proj, keyOf);
      var b := ProjectedKeys(init, proj, keyOf);
      var p := proj(rows[|rows| - 1]);
      forall k | k in a ensures k in b || (p.Some? && k == keyOf(p.value)) {
        var i :| 0 <= i < |rows| && proj(rows[i]).Some? && keyOf(proj(rows[i]).value) == k;
        if i < |rows| - 1 { assert rows[i] == init[i]; }
      }
      forall k | k in b ensures k in a {
        var i :| 0 <= i < |init| && proj(init[i]).Some? && keyOf(proj(init[i]).value) == k;
        assert init[i] == rows[i];
      }
      if p.Some? {
        assert keyOf(p.value) in a;
      }
    }
  }

  /** How many documents carry key `k` (`countDocuments({ key: k })`). */
  function Count<D>(store: seq<D>, keyOf: D -> string, k: string): (n: nat)
    ensures n <= |store|
    ensures n == 0 <==> !HasKey(store, keyOf, k)
    decreases |store|
  {
    if store == [] then 0
    else
      var init := store[..|store| - 1];
      assert forall i :: 0 <= i < |init| ==> init[i] == store[i];
      Count(init, keyOf, k) + (if keyOf(store[|store| - 1]) == k then 1 else 0)
  }

  /** `findOne` then `create` adds a document with the key only when none exists. */
  lemma CreateOrFindCount<D>(store: seq<D>, keyOf: D -> string, d: D)
    ensures Count(CreateOrFind(store, keyOf, d).0, keyOf, keyOf(d))
            == if Count(store, keyOf, keyOf(d)) == 0 then 1 else Count(store, keyOf, keyOf(d))
  {
    if !HasKey(store, keyOf, keyOf(d)) {
      assert (store + [d])[..|store|] == store;
    }
  }

  /**
   * The documents `insertMany(items, { ordered: false })` stores: each item
   * cast through the schema, the ones that fail validation skipped, the rest
   * kept in order.
   */
  function Inserted<T, D>(items: seq<T>, cast: T -> Option<D>): (r: seq<D>)
    ensures |r| <= |items|
    ensures (forall i :: 0 <= i < |items| ==> cast(items[i]).Some?) ==> |r| == |items|
    ensures (forall i :: 0 <= i < |items| ==> cast(items[i]).None?) ==> r == []
    ensures forall d :: d in r ==> exists i :: 0 <= i < |items| && cast(items[i]) == Some(d)
    decreases |items|
  {
    if items == [] then []
    else
      var init := items[..|items| - 1];
      assert forall i :: 0 <= i < |init| ==> init[i] == items[i];
      match cast(items[|items| - 1])
      case None => Inserted(init, cast)
      case Some(d) => Inserted(init, cast) + [d]
  }

  /** Inserting a concatenation inserts each part in turn: input order is kept. */
  lemma {:induction false} InsertedAppend<T, D>(a: seq<T>, b: seq<T>, cast: T -> Option<D>)
    ensures Inserted(a + b, cast) == Inserted(a, cast) + Inserted(b, cast)
    decreases |b|
  {
    if b == [] {
      assert a + b == a;
    } else {
      var b' := b[..|b| - 1];
      assert (a + b)[..|a + b| - 1] == a + b';
      assert (a + b)[|a + b| - 1] == b[|b| - 1];
      InsertedAppend(a, b', cast);
    }
  }

  /** Upserting items with distinct keys none of which is stored appends every one of them, in order. */
  lemma {:induction false} BulkUpsertFresh<D>(store: seq<D>, keyOf: D -> string, items: seq<D>)
    requires UniqueKeys(items, keyOf)
    requires Keys(store, keyOf) !! Keys(items, keyOf)
    ensures BulkUpsert(store, keyOf, items) == store + items
    decreases |items|
  {
    if items != [] {
      var init := items[..|items| - 1];
      FreshSplit(store, keyOf, items);
      BulkUpsertFresh(store, keyOf, init);
      KeysAppend(store, init, keyOf);
      FreshStep(store, keyOf, items);
    }
  }

  /** Once the earlier items are appended, a last item with a new key is appended too. */
  lemma FreshStep<D>(store: seq<D>, keyOf: D -> string, items: seq<D>)
    requires items != []
    requires BulkUpsert(store, keyOf, items[..|items| - 1]) == store + items[..|items| - 1]
    requires keyOf(items[|items| - 1]) !in Keys(store + items[..|items| - 1], keyOf)
    ensures BulkUpsert(store, keyOf, items) == store + items
  {
    var init := items[..|items| - 1];
    var last := items[|items| - 1];
    var prev := store + init;
    SplitLast(items);
    assert !HasKey(prev, keyOf, keyOf(last));
    assert BulkUpsert(store, keyOf, items) == prev + [last];
  }

  /** A non-empty sequence is its front followed by its last element. */
  lemma SplitLast<T>(s: seq<T>)
    requires s != []
    ensures s == s[..|s| - 1] + [s[|s| - 1]]
  {
  }

  /** Splitting off the last of fresh items with distinct keys leaves fresh items with distinct keys and a new key. */
  lemma FreshSplit<D>(store: seq<D>, keyOf: D -> string, items: seq<D>)
    requires items != [] && UniqueKeys(items, keyOf)
    requires Keys(store, keyOf) !! Keys(items, keyOf)
    ensures var init := items[..|items| - 1];
            && UniqueKeys(init, keyOf) && Keys(store, keyOf) !! Keys(init, keyOf)
            && keyOf(items[|items| - 1]) !in Keys(store, keyOf) + Keys(init, keyOf)
  {
    var init := items[..|items| - 1];
    var last := items[|items| - 1];
    assert items == init + [last];
    KeysAppend(init, [last], keyOf);
    KeysSingleton(last, keyOf);
    assert forall i :: 0 <= i < |init| ==> items[i] == init[i];
    assert keyOf(last) !in Keys(init, keyOf);
  }

  /** The value the last projected row with key `k` carries, whichever row that is. */
  lemma {:induction false} LastProjectedIsLast<R, D>(rows: seq<R>, proj: R -> Option<D>, keyOf: D -> string, j: nat)
    requires j < |rows| && proj(rows[j]).Some?
    requires forall i :: j < i < |rows| && proj(rows[i]).Some? ==> keyOf(proj(rows[i]).value) != keyOf(proj(rows[j]).value)
    ensures LastProjected(rows, proj, keyOf, keyOf(proj(rows[j]).value)) == proj(rows[j])
    decreases |rows|
  {
    if j < |rows| - 1 {
      var init := rows[..|rows| - 1];
      assert init[j] == rows[j];
      assert forall i :: j < i < |init| ==> init[i] == rows[i];
      LastProjectedIsLast(init, proj, keyOf, j);
    }
  }
}
