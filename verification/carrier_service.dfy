/**
 * The carrier service (src/services/carrierService.js): find-or-create and insert-if-absent over the
 * carrier collection, keyed by `company_name`.
 */
module CarrierService {
  import opened Wrappers
  import opened Models
  import KeyedStore

  /** `findByName(name)`: the first carrier whose `company_name` is exactly `name`, or null. */
  function FindByName(docs: seq<Carrier>, name: string): (r: Option<Carrier>)
    ensures r.Some? ==> r.value.company_name == name && r.value in docs
    ensures r.None? <==> forall i :: 0 <= i < |docs| ==> docs[i].company_name != name
    ensures r.Some? && KeyedStore.UniqueKeys(docs, CompanyName) ==>
              forall i :: 0 <= i < |docs| && docs[i].company_name == name ==> docs[i] == r.value
  {
    KeyedStore.FindByKey(docs, CompanyName, name)
  }

  /**
   * `createOrFind(data)`: the carrier already named `data.company_name`, returned
   * unchanged with nothing written; otherwise `data` is created and returned.
   */
  function CreateOrFind(docs: seq<Carrier>, data: Carrier): (r: (seq<Carrier>, Carrier))
    ensures r.1.company_name == data.company_name
    ensures FindByName(docs, data.company_name).Some? ==> r.0 == docs && r.1 == FindByName(docs, data.company_name).value
    ensures FindByName(docs, data.company_name).None? ==> r.0 == docs + [data] && r.1 == data
  {
    KeyedStore.CreateOrFind(docs, CompanyName, data)
  }

  /** Calling `createOrFind` twice with the same `company_name` leaves exactly one document with it. */
  lemma CreateOrFindTwice(docs: seq<Carrier>, first: Carrier, second: Carrier)
    requires FindByName(docs, first.company_name).None?
    requires second.company_name == first.company_name
    ensures KeyedStore.Count(CreateOrFind(CreateOrFind(docs, first).0, second).0, CompanyName, first.company_name) == 1
  {
    KeyedStore.CreateOrFindCount(docs, CompanyName, first);
    KeyedStore.CreateOrFindCount(CreateOrFind(docs, first).0, CompanyName, second);
  }

  /**
   * `bulkCreate(items)`: one insert-if-absent upsert per item. Stored
   * documents are never modified; an item whose `company_name` is already stored,
   * or that repeats an earlier item's, writes nothing, so the first
   * occurrence's attributes are the ones kept.
   */
  function BulkCreate(docs: seq<Carrier>, items: seq<Carrier>): (r: seq<Carrier>)
    ensures |docs| <= |r| && r[..|docs|] == docs
    ensures KeyedStore.Keys(r, CompanyName) == KeyedStore.Keys(docs, CompanyName) + KeyedStore.Keys(items, CompanyName)
    ensures forall i :: |docs| <= i < |r| ==>
              FindByName(docs, r[i].company_name).None? && FindByName(items, r[i].company_name) == Some(r[i])
    ensures KeyedStore.UniqueKeys(docs, CompanyName) ==> KeyedStore.UniqueKeys(r, CompanyName)
  {
    KeyedStore.BulkUpsert(docs, CompanyName, items)
  }

  /** Items with distinct names, none stored yet, are all inserted, in order. */
  lemma BulkCreateDistinct(docs: seq<Carrier>, items: seq<Carrier>)
    requires KeyedStore.UniqueKeys(items, CompanyName)
    requires forall i :: 0 <= i < |items| ==> FindByName(docs, items[i].company_name).None?
    ensures BulkCreate(docs, items) == docs + items
  {
    forall k | k in KeyedStore.Keys(items, CompanyName) ensures k !in KeyedStore.Keys(docs, CompanyName) {
      var i :| 0 <= i < |items| && items[i].company_name == k;
      assert FindByName(docs, items[i].company_name).None?;
    }
    KeyedStore.BulkUpsertFresh(docs, CompanyName, items);
  }
}
