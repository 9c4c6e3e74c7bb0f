/**
 * The agent service (src/services/agentService.js): find-or-create and insert-if-absent over the
 * agent collection, keyed by `agent_name`.
 */
module AgentService {
  import opened Wrappers
  import opened Models
  import opened Text
  import KeyedStore

  /**
   * `findByName(name)`: the first agent whose `agent_name` is `name` as the schema's
   * `trim` setter casts the filter value, or null.
   */
  function FindByName(docs: seq<Agent>, name: string): (r: Option<Agent>)
    ensures r.Some? ==> r.value.agent_name == Trim(name) && r.value in docs
    ensures r.None? <==> forall i :: 0 <= i < |docs| ==> docs[i].agent_name != Trim(name)
    ensures r.Some? && KeyedStore.UniqueKeys(docs, AgentName) ==>
              forall i :: 0 <= i < |docs| && docs[i].agent_name == Trim(name) ==> docs[i] == r.value
  {
    var k := Trim(name);
    FindByKeyFacts(docs, k);
    KeyedStore.FindByKey(docs, AgentName, k)
  }

  /** What `findOne` on the name `k` returns, for a key already cast. */
  lemma FindByKeyFacts(docs: seq<Agent>, k: string)
    ensures var r := KeyedStore.FindByKey(docs, AgentName, k);
            && (r.Some? ==> r.value.agent_name == k && r.value in docs)
            && (r.None? <==> forall i :: 0 <= i < |docs| ==> docs[i].agent_name != k)
            && (r.Some? && KeyedStore.UniqueKeys(docs, AgentName) ==>
                  forall i :: 0 <= i < |docs| && docs[i].agent_name == k ==> docs[i] == r.value)
  {
  }

  /**
   * `createOrFind(data)`: the agent `findByName` finds for `data.agent_name`, returned unchanged with
   * nothing written; otherwise `Agent.create(data)`, which stores the trimmed
   * document, or throws a validation error when the trimmed name is empty.
   */
  function CreateOrFind(docs: seq<Agent>, data: Agent): (r: Result<(seq<Agent>, Agent)>)
    ensures FindByName(docs, data.agent_name).Some? ==>
              r == Success((docs, FindByName(docs, data.agent_name).value))
    ensures r.Failure? <==> FindByName(docs, data.agent_name).None? && Trim(data.agent_name) == ""
    ensures r.Failure? ==> r.error == AgentNameRequired
    ensures FindByName(docs, data.agent_name).None? && r.Success? ==>
              r.value == (docs + [AgentSetters(data)], AgentSetters(data))
    ensures r.Success? ==> r.value.1.agent_name == Trim(data.agent_name) && r.value.1 in r.value.0
  {
    match FindByName(docs, data.agent_name)
    case Some(found) => Success((docs, found))
    case None =>
      match AgentDoc(data)
      case None => Failure(AgentNameRequired)
      case Some(doc) => Success((docs + [doc], doc))
  }

  /** The collection after `createOrFind`: unchanged when the call throws. */
  function AfterCreateOrFind(docs: seq<Agent>, data: Agent): seq<Agent> {
    match CreateOrFind(docs, data)
    case Success(v) => v.0
    case Failure(_) => docs
  }

  /**
   * Calling `createOrFind` twice with names that trim to the same new name
   * leaves exactly one agent with it, or none when that name is blank.
   */
  lemma CreateOrFindTwice(docs: seq<Agent>, first: Agent, second: Agent)
    requires FindByName(docs, first.agent_name).None?
    requires Trim(second.agent_name) == Trim(first.agent_name)
    ensures KeyedStore.Count(AfterCreateOrFind(AfterCreateOrFind(docs, first), second), AgentName, Trim(first.agent_name))
            == if Trim(first.agent_name) == "" then 0 else 1
  {
    var once := AfterCreateOrFind(docs, first);
    if Trim(first.agent_name) != "" {
      KeyedStore.CreateOrFindCount(docs, AgentName, AgentSetters(first));
      assert once == KeyedStore.CreateOrFind(docs, AgentName, AgentSetters(first)).0;
      KeyedStore.CreateOrFindCount(once, AgentName, AgentSetters(second));
      assert AfterCreateOrFind(once, second) == KeyedStore.CreateOrFind(once, AgentName, AgentSetters(second)).0;
    } else {
      assert once == docs;
      assert AfterCreateOrFind(once, second) == docs;
    }
  }

  /**
   * `bulkCreate(items)`: one insert-if-absent upsert per item, filtered on the
   * trimmed name and inserting the trimmed item. Stored documents are never
   * modified; an item whose trimmed name is already stored, or equals an
   * earlier item's, writes nothing, so the first occurrence's attributes are
   * the ones kept.
   */
  function BulkCreate(docs: seq<Agent>, items: seq<Agent>): (r: seq<Agent>)
    ensures |docs| <= |r| && r[..|docs|] == docs
    ensures KeyedStore.Keys(r, AgentName) == KeyedStore.Keys(docs, AgentName) + KeyedStore.Keys(TrimAgents(items), AgentName)
    ensures forall i :: |docs| <= i < |r| ==>
              !KeyedStore.HasKey(docs, AgentName, r[i].agent_name) &&
              KeyedStore.FindByKey(TrimAgents(items), AgentName, r[i].agent_name) == Some(r[i])
    ensures KeyedStore.UniqueKeys(docs, AgentName) ==> KeyedStore.UniqueKeys(r, AgentName)
  {
    KeyedStore.BulkUpsert(docs, AgentName, TrimAgents(items))
  }

  /** Items that `findByName` already finds, padded or not, write nothing. */
  lemma BulkCreateStored(docs: seq<Agent>, items: seq<Agent>)
    requires forall i :: 0 <= i < |items| ==> FindByName(docs, items[i].agent_name).Some?
    ensures BulkCreate(docs, items) == docs
  {
    var t := TrimAgents(items);
    forall i | 0 <= i < |t| ensures KeyedStore.HasKey(docs, AgentName, AgentName(t[i])) {
      var found := FindByName(docs, items[i].agent_name).value;
      var j :| 0 <= j < |docs| && docs[j] == found;
    }
    KeyedStore.BulkUpsertPresent(docs, AgentName, t);
  }

  /** Items whose trimmed names are distinct and not yet stored are all inserted, trimmed, in order. */
  lemma BulkCreateDistinct(docs: seq<Agent>, items: seq<Agent>)
    requires forall i, j :: 0 <= i < j < |items| ==> Trim(items[i].agent_name) != Trim(items[j].agent_name)
    requires forall i :: 0 <= i < |items| ==> FindByName(docs, items[i].agent_name).None?
    ensures BulkCreate(docs, items) == docs + TrimAgents(items)
  {
    var t := TrimAgents(items);
    assert KeyedStore.UniqueKeys(t, AgentName);
    forall k | k in KeyedStore.Keys(t, AgentName) ensures k !in KeyedStore.Keys(docs, AgentName) {
      var i :| 0 <= i < |t| && t[i].agent_name == k;
      assert FindByName(docs, items[i].agent_name).None?;
    }
    KeyedStore.BulkUpsertFresh(docs, AgentName, t);
  }
}
