/**
 * The account service (src/services/accountService.js): find-or-create and insert-if-absent over the
 * account collection, keyed by `account_name`.
 */
module AccountService {
  import opened Wrappers
  import opened Models
  import opened Text
  import KeyedStore

  /**
   * `findByName(name)`: the first account whose `account_name` is `name` as the schema's
   * `trim` setter casts the filter value, or null.
   */
  function FindByName(docs: seq<Account>, name: string): (r: Option<Account>)
    ensures r.Some? ==> r.value.account_name == Trim(name) && r.value in docs
    ensures r.None? <==> forall i :: 0 <= i < |docs| ==> docs[i].account_name != Trim(name)
    ensures r.Some? && KeyedStore.UniqueKeys(docs, AccountName) ==>
              forall i :: 0 <= i < |docs| && docs[i].account_name == Trim(name) ==> docs[i] == r.value
  {
    var k := Trim(name);
    FindByKeyFacts(docs, k);
    KeyedStore.FindByKey(docs, AccountName, k)
  }

  /** What `findOne` on the name `k` returns, for a key already cast. */
  lemma FindByKeyFacts(docs: seq<Account>, k: string)
    ensures var r := KeyedStore.FindByKey(docs, AccountName, k);
            && (r.Some? ==> r.value.account_name == k && r.value in docs)
            && (r.None? <==> forall i :: 0 <= i < |docs| ==> docs[i].account_name != k)
            && (r.Some? && KeyedStore.UniqueKeys(docs, AccountName) ==>
                  forall i :: 0 <= i < |docs| && docs[i].account_name == k ==> docs[i] == r.value)
  {
  }

  /**
   * `createOrFind(data)`: the account `findByName` finds for `data.account_name`, returned unchanged with
   * nothing written; otherwise `Account.create(data)`, which stores the trimmed
   * document, or throws a validation error when the trimmed name is empty.
   */
  function CreateOrFind(docs: seq<Account>, data: Account): (r: Result<(seq<Account>, Account)>)
    ensures FindByName(docs, data.account_name).Some? ==>
              r == Success((docs, FindByName(docs, data.account_name).value))
    ensures r.Failure? <==> FindByName(docs, data.account_name).None? && Trim(data.account_name) == ""
    ensures r.Failure? ==> r.error == AccountNameRequired
    ensures FindByName(docs, data.account_name).None? && r.Success? ==>
              r.value == (docs + [AccountSetters(data)], AccountSetters(data))
    ensures r.Success? ==> r.value.1.account_name == Trim(data.account_name) && r.value.1 in r.value.0
  {
    match FindByName(docs, data.account_name)
    case Some(found) => Success((docs, found))
    case None =>
      match AccountDoc(data)
      case None => Failure(AccountNameRequired)
      case Some(doc) => Success((docs + [doc], doc))
  }

  /** The collection after `createOrFind`: unchanged when the call throws. */
  function AfterCreateOrFind(docs: seq<Account>, data: Account): seq<Account> {
    match CreateOrFind(docs, data)
    case Success(v) => v.0
    case Failure(_) => docs
  }

  /**
   * Calling `createOrFind` twice with names that trim to the same new name
   * leaves exactly one account with it, or none when that name is blank.
   */
  lemma CreateOrFindTwice(docs: seq<Account>, first: Account, second: Account)
    requires FindByName(docs, first.account_name).None?
    requires Trim(second.account_name) == Trim(first.account_name)
    ensures KeyedStore.Count(AfterCreateOrFind(AfterCreateOrFind(docs, first), second), AccountName, Trim(first.account_name))
            == if Trim(first.account_name) == "" then 0 else 1
  {
    var once := AfterCreateOrFind(docs, first);
    if Trim(first.account_name) != "" {
      KeyedStore.CreateOrFindCount(docs, AccountName, AccountSetters(first));
      assert once == KeyedStore.CreateOrFind(docs, AccountName, AccountSetters(first)).0;
      KeyedStore.CreateOrFindCount(once, AccountName, AccountSetters(second));
      assert AfterCreateOrFind(once, second) == KeyedStore.CreateOrFind(once, AccountName, AccountSetters(second)).0;
    } else {
      assert once == docs;
      assert AfterCreateOrFind(once, second) == docs;
    }
  }

  /**
   * `bulkCreate(items)`: one insert-if-absent upsert per item, filtered on the
   * trimmed name and inserting the trimmed item. Stored documents are never
   * modified; an item whose trimmed name is already stored, or equals an
   * earlier item's, writes nothing, so the first occurrence's attributes are
   * the ones kept.
   */
  function BulkCreate(docs: seq<Account>, items: seq<Account>): (r: seq<Account>)
    ensures |docs| <= |r| && r[..|docs|] == docs
    ensures KeyedStore.Keys(r, AccountName) == KeyedStore.Keys(docs, AccountName) + KeyedStore.Keys(TrimAccounts(items), AccountName)
    ensures forall i :: |docs| <= i < |r| ==>
              !KeyedStore.HasKey(docs, AccountName, r[i].account_name) &&
              KeyedStore.FindByKey(TrimAccounts(items), AccountName, r[i].account_name) == Some(r[i])
    ensures KeyedStore.UniqueKeys(docs, AccountName) ==> KeyedStore.UniqueKeys(r, AccountName)
  {
    KeyedStore.BulkUpsert(docs, AccountName, TrimAccounts(items))
  }

  /** Items that `findByName` already finds, padded or not, write nothing. */
  lemma BulkCreateStored(docs: seq<Account>, items: seq<Account>)
    requires forall i :: 0 <= i < |items| ==> FindByName(docs, items[i].account_name).Some?
    ensures BulkCreate(docs, items) == docs
  {
    var t := TrimAccounts(items);
    forall i | 0 <= i < |t| ensures KeyedStore.HasKey(docs, AccountName, AccountName(t[i])) {
      var found := FindByName(docs, items[i].account_name).value;
      var j :| 0 <= j < |docs| && docs[j] == found;
    }
    KeyedStore.BulkUpsertPresent(docs, AccountName, t);
  }

  /** Items whose trimmed names are distinct and not yet stored are all inserted, trimmed, in order. */
  lemma BulkCreateDistinct(docs: seq<Account>, items: seq<Account>)
    requires forall i, j :: 0 <= i < j < |items| ==> Trim(items[i].account_name) != Trim(items[j].account_name)
    requires forall i :: 0 <= i < |items| ==> FindByName(docs, items[i].account_name).None?
    ensures BulkCreate(docs, items) == docs + TrimAccounts(items)
  {
    var t := TrimAccounts(items);
    assert KeyedStore.UniqueKeys(t, AccountName);
    forall k | k in KeyedStore.Keys(t, AccountName) ensures k !in KeyedStore.Keys(docs, AccountName) {
      var i :| 0 <= i < |t| && t[i].account_name == k;
      assert FindByName(docs, items[i].account_name).None?;
    }
    KeyedStore.BulkUpsertFresh(docs, AccountName, t);
  }
}
