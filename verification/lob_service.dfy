/**
 * The line-of-business service (src/services/lobService.js): find-or-create and insert-if-absent over the
 * line-of-business collection, keyed by `category_name`.
 */
module LobService {
  import opened Wrappers
  import opened Models
  import KeyedStore

  /** `findByName(name)`: the first line-of-business whose `category_name` is exactly `name`, or null. */
  function FindByName(docs: seq<Lob>, name: string): (r: Option<Lob>)
    ensures r.Some? ==> r.value.category_name == name && r.value in docs
    ensures r.None? <==> forall i :: 0 <= i < |docs| ==> docs[i].category_name != name
    ensures r.Some? && KeyedStore.UniqueKeys(docs, CategoryName) ==>
              forall i :: 0 <= i < |docs| && docs[i].category_name == name ==> docs[i] == r.value
  {
    KeyedStore.FindByKey(docs, CategoryName, name)
  }

  /**
   * `createOrFind(data)`: the line-of-business already named `data.category_name`, returned
   * unchanged with nothing written; otherwise `data` is created and returned.
   */
  function CreateOrFind(docs: seq<Lob>, data: Lob): (r: (seq<Lob>, Lob))
    ensures r.1.category_name == data.category_name
    ensures FindByName(docs, data.category_name).Some? ==> r.0 == docs && r.1 == FindByName(docs, data.category_name).value
    ensures FindByName(docs, data.category_name).None? ==> r.0 == docs + [data] && r.1 == data
  {
    KeyedStore.CreateOrFind(docs, CategoryName, data)
  }

  /** Calling `createOrFind` twice with the same `category_name` leaves exactly one document with it. */
  lemma CreateOrFindTwice(docs: seq<Lob>, first: Lob, second: Lob)
    requires FindByName(docs, first.category_name).None?
    requires second.category_name == first.category_name
    ensures KeyedStore.Count(CreateOrFind(CreateOrFind(docs, first).0, second).0, CategoryName, first.category_name) == 1
  {
    KeyedStore.CreateOrFindCount(docs, CategoryName, first);
    KeyedStore.CreateOrFindCount(CreateOrFind(docs, first).0, CategoryName, second);
  }

  /**
   * `bulkCreate(items)`: one insert-if-absent upsert per item. Stored
   * documents are never modified; an item whose `category_name` is already stored,
   * or that repeats an earlier item's, writes nothing, so the first
   * occurrence's attributes are the ones kept.
   */
  function BulkCreate(docs: seq<Lob>, items: seq<Lob>): (r: seq<Lob>)
    ensures |docs| <= |r| && r[..|docs|] == docs
    ensures KeyedStore.Keys(r, CategoryName) == KeyedStore.Keys(docs, CategoryName) + KeyedStore.Keys(items, CategoryName)
    ensures forall i :: |docs| <= i < |r| ==>
              FindByName(docs, r[i].category_name).None? && FindByName(items, r[i].category_name) == Some(r[i])
    ensures KeyedStore.UniqueKeys(docs, CategoryName) ==> KeyedStore.UniqueKeys(r, CategoryName)
  {
    KeyedStore.BulkUpsert(docs, CategoryName, items)
  }

  /** Items with distinct names, none stored yet, are all inserted, in order. */
  lemma BulkCreateDistinct(docs: seq<Lob>, items: seq<Lob>)
    requires KeyedStore.UniqueKeys(items, CategoryName)
    requires forall i :: 0 <= i < |items| ==> FindByName(docs, items[i].category_name).None?
    ensures BulkCreate(docs, items) == docs + items
  {
    forall k | k in KeyedStore.Keys(items, CategoryName) ensures k !in KeyedStore.Keys(docs, CategoryName) {
      var i :| 0 <= i < |items| && items[i].category_name == k;
      assert FindByName(docs, items[i].category_name).None?;
    }
    KeyedStore.BulkUpsertFresh(docs, CategoryName, items);
  }
}
