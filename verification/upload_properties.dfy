/**
 * Properties of whole upload runs: what a second run of the same file does,
 * which references stored policies hold, and when a row finds the user the
 * same run inserted for it.
 */
module UploadProperties {
  import opened Wrappers
  import opened Text
  import opened Rows
  import opened Models
  import opened CsvWorker
  import KeyedStore

  /** Re-running an upload leaves every reference collection exactly as the first run left it. */
  lemma RerunKeepsReferences(env: Env, rows: seq<Row>, s: Stores)
    ensures var once := AfterRun(env, rows, s);
            var twice := AfterRun(env, rows, once);
            && twice.agents == once.agents && twice.accounts == once.accounts
            && twice.lobs == once.lobs && twice.carriers == once.carriers
  {
    var e := Extract(rows);
    KeyedStore.BulkUpsertIdempotent(s.agents, AgentName, TrimAgents(e.agents));
    KeyedStore.BulkUpsertIdempotent(s.accounts, AccountName, TrimAccounts(e.accounts));
    KeyedStore.BulkUpsertIdempotent(s.lobs, CategoryName, e.lobs);
    KeyedStore.BulkUpsertIdempotent(s.carriers, CompanyName, e.carriers);
  }

  /** Users are not deduplicated across runs: every run appends the file's valid users again. */
  lemma RunAppendsUsers(env: Env, rows: seq<Row>, s: Stores)
    ensures AfterRun(env, rows, s).users == s.users + KeyedStore.Inserted(ExtractUsers(rows), CsvWorker.UserCast(env))
  {
  }

  /** The policy's five ids point at documents of `s`. */
  predicate PolicyRefsIn(s: Stores, p: Policy) {
    && p.user_id < |s.users| && p.agent_id < |s.agents| && p.account_id < |s.accounts|
    && p.lob_id < |s.lobs| && p.carrier_id < |s.carriers|
  }

  /** Each policy holds ids of documents that exist. */
  predicate RefsIn(s: Stores) {
    forall p :: p in s.policies ==> PolicyRefsIn(s, p)
  }

  /** A run only inserts policies whose five references point at stored documents. */
  lemma RunKeepsRefsIn(env: Env, rows: seq<Row>, s: Stores)
    requires RefsIn(s)
    ensures RefsIn(AfterRun(env, rows, s))
  {
    var e := Extract(rows);
    var s5 := BeforePolicies(env, s, e);
    var added := NewPolicies(env, rows, s);
    var t := AfterRun(env, rows, s);
    NewPoliciesRefsIn(env, rows, s);
    GrowsBeforePolicies(env, s, e);
    assert t.policies == s.policies + added && t.users == s5.users;
    assert t.agents == s5.agents && t.accounts == s5.accounts && t.lobs == s5.lobs && t.carriers == s5.carriers;
    forall p | p in t.policies ensures PolicyRefsIn(t, p) {
      if p in s.policies {
        assert PolicyRefsIn(s, p);
      } else {
        assert p in added;
      }
    }
  }

  /** The policies a run inserts refer to documents stored before the policy insert. */
  lemma NewPoliciesRefsIn(env: Env, rows: seq<Row>, s: Stores)
    ensures forall p :: p in NewPolicies(env, rows, s) ==> PolicyRefsIn(BeforePolicies(env, s, Extract(rows)), p)
  {
    var s5 := BeforePolicies(env, s, Extract(rows));
    var drafts := AssembleAll(env, s5, BuildLookups(s5), rows);
    forall p | p in NewPolicies(env, rows, s) ensures PolicyRefsIn(s5, p) {
      var i :| 0 <= i < |drafts| && PolicyDoc(env, drafts[i]) == Some(p);
      assert drafts[i] in drafts;
    }
  }

  /** A run inserts at most one policy per row. */
  lemma AtMostOnePolicyPerRow(env: Env, rows: seq<Row>, s: Stores)
    ensures |AfterRun(env, rows, s).policies| - |s.policies| <= |rows|
  {
    var s5 := BeforePolicies(env, s, Extract(rows));
    assert |AssembleAll(env, s5, BuildLookups(s5), rows)| <= |rows|;
  }

  /** A fault while writing accounts ends the run with agents written and nothing else. */
  lemma AccountFaultKeepsAgents(env: Env, rows: seq<Row>, s: Stores, message: string)
    ensures var r := ProcessData(env, rows, s, Some(Fault(WritingAccounts, message)));
            && r.stores.agents == AfterRun(env, rows, s).agents
            && r.stores.accounts == s.accounts && r.stores.users == s.users && r.stores.policies == s.policies
            && r.events[|r.events| - 1] == Error(message)
  {
    var e := Extract(rows);
    AfterRunParts(env, rows, s);
    var r := ProcessData(env, rows, s, Some(Fault(WritingAccounts, message)));
    assert r.stores == StoresAt(env, s, e, WritingAccounts) == WriteAgents(s, e);
  }

  /** Two keys with the same outer fields are equal exactly when their middle fields are. */
  /** No stored agent name begins with white space, as the schema's `trim` setter guarantees. */
  predicate AgentsTrimmed(agents: seq<Agent>) {
    forall i :: 0 <= i < |agents| ==> agents[i].agent_name == [] || !IsSpace(agents[i].agent_name[0])
  }

  /** The agent upsert stores trimmed names only, so it keeps the collection trimmed. */
  lemma WriteAgentsTrimmed(s: Stores, e: Extracted)
    requires AgentsTrimmed(s.agents)
    ensures AgentsTrimmed(WriteAgents(s, e).agents)
  {
    UpsertKeepsTrimmed(s.agents, e.agents);
  }

  lemma UpsertKeepsTrimmed(store: seq<Agent>, agents: seq<Agent>)
    requires AgentsTrimmed(store)
    ensures AgentsTrimmed(KeyedStore.BulkUpsert(store, AgentName, TrimAgents(agents)))
  {
    var items := TrimAgents(agents);
    assert AgentsTrimmed(items) by {
      forall j | 0 <= j < |items| ensures items[j].agent_name == [] || !IsSpace(items[j].agent_name[0]) {
        assert items[j].agent_name == Trim(agents[j].agent_name);
      }
    }
    var t := KeyedStore.BulkUpsert(store, AgentName, items);
    forall i | |store| <= i < |t| ensures t[i].agent_name == [] || !IsSpace(t[i].agent_name[0]) {
      assert t[i] in items;
    }
    forall i | 0 <= i < |store| ensures t[i] == store[i] {
      assert t[i] == t[..|store|][i];
    }
  }

  /**
   * A row whose `agent` cell begins with white space never resolves against
   * trimmed agent names: `agentLookup.get(row.agent)` uses the cell as written,
   * so the policy has no `agent_id` and fails the schema's validation.
   */
  lemma PaddedAgentPolicyDropped(env: Env, t: Stores, row: Row)
    requires AgentsTrimmed(t.agents)
    requires Has(row, "agent") && IsSpace(row["agent"][0])
    ensures var d := Assemble(env, t, BuildLookups(t), row);
            d.Some? ==> d.value.agent_id.None? && PolicyDoc(env, d.value).None?
  {
    assert !KeyedStore.HasKey(t.agents, AgentName, row["agent"]);
  }

  lemma MiddleEqual(a: string, m1: string, m2: string, b: string)
    ensures a + "_" + m1 + "_" + b == a + "_" + m2 + "_" + b <==> m1 == m2
  {
    var k1 := a + "_" + m1 + "_" + b;
    var k2 := a + "_" + m2 + "_" + b;
    if k1 == k2 {
      assert |m1| == |m2|;
      forall i | 0 <= i < |m1| ensures m1[i] == m2[i] {
        assert k1[|a| + 1 + i] == m1[i];
        assert k2[|a| + 1 + i] == m2[i];
      }
    }
  }

  lemma StoredKeyShape(row: Row)
    requires Has(row, "firstname") && Trim(row["firstname"]) == row["firstname"]
    requires "phone" in row && Trim(row["phone"]) == row["phone"]
    ensures UserKey(UserSetters(UserOf(row)))
            == row["firstname"] + "_" + ToLower(Trim(Field(row, "email"))) + "_" + row["phone"]
  {
    var u := UserOf(row);
    assert u.firstname == Field(row, "firstname") == row["firstname"];
    assert u.phone == Field(row, "phone") == row["phone"];
    assert u.email == Field(row, "email");
    var stored := UserSetters(u);
    assert stored.firstname == row["firstname"];
    assert stored.phone == row["phone"];
  }

  /**
   * For a row whose `firstname` and `phone` are already trimmed, the key of the
   * user the run stores for it equals the row's lookup key exactly when its
   * `email` cell is present and unchanged by the schema's trim and
   * lower-casing. Which user the lookup returns is the last one with that key.
   */
  lemma OwnUserKeyMatches(row: Row)
    requires Has(row, "firstname") && Trim(row["firstname"]) == row["firstname"]
    requires "phone" in row && Trim(row["phone"]) == row["phone"]
    ensures UserKey(UserSetters(UserOf(row))) == RowUserKey(row)
            <==> "email" in row && ToLower(Trim(row["email"])) == row["email"]
  {
    StoredKeyShape(row);
    var a := row["firstname"];
    var b := row["phone"];
    var stored := ToLower(Trim(Field(row, "email")));
    var shown := Show(row, "email");
    assert RowUserKey(row) == a + "_" + shown + "_" + b;
    MiddleEqual(a, stored, shown, b);
    if "email" !in row {
      assert stored == [] by {
        assert Field(row, "email") == "";
      }
      assert shown == "undefined";
    }
  }

  /** So a row whose email has an upper-case letter never resolves to the user inserted for it. */
  lemma UpperCaseEmailMisses(row: Row, i: nat)
    requires Has(row, "firstname") && Trim(row["firstname"]) == row["firstname"]
    requires "phone" in row && Trim(row["phone"]) == row["phone"]
    requires "email" in row && i < |row["email"]| && IsUpper(row["email"][i])
    ensures UserKey(UserSetters(UserOf(row))) != RowUserKey(row)
  {
    OwnUserKeyMatches(row);
  }

  /** A row without an `email` cell never resolves to the user inserted for it: its key reads "undefined". */
  lemma MissingEmailMisses(row: Row)
    requires Has(row, "firstname") && Trim(row["firstname"]) == row["firstname"]
    requires "phone" in row && Trim(row["phone"]) == row["phone"]
    requires "email" !in row
    ensures UserKey(UserSetters(UserOf(row))) != RowUserKey(row)
  {
    OwnUserKeyMatches(row);
  }

  /** Joining with '_' is ambiguous: moving an underscore between fields keeps the key. */
  lemma UserKeyCollision(u: User, x: string, y: string)
    requires u.firstname == x + "_" + y
    ensures UserKey(u) == UserKey(u.(firstname := x, email := y + "_" + u.email))
  {
  }
}
