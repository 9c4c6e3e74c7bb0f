/**
 * The upload worker (src/workers/csvWorker.js): from the parsed rows of one
 * file it extracts agents, accounts, lines of business, carriers and users,
 * upserts the reference entities, inserts the users, re-reads every
 * collection to build lookup tables, and inserts one policy per row whose
 * user can be found again. Progress is reported as a sequence of events.
 */
module CsvWorker {
  import opened Wrappers
  import opened Rows
  import opened Models
  import KeyedStore

  /* ---------------- Extraction of entities from the rows ---------------- */

  function AgentOf(row: Row): Option<Agent> {
    if Has(row, "agent") then Some(Agent(row["agent"], Field(row, "agency_id"))) else None
  }

  function AccountOf(row: Row): Option<Account> {
    if Has(row, "account_name") then Some(Account(row["account_name"], Field(row, "account_type"))) else None
  }

  function LobOf(row: Row): Option<Lob> {
    if Has(row, "category_name") then Some(Lob(row["category_name"])) else None
  }

  function CarrierOf(row: Row): Option<Carrier> {
    if Has(row, "company_name") then Some(Carrier(row["company_name"])) else None
  }

  /** The user record the worker pushes for a row; missing string cells become ''. */
  function UserOf(row: Row): User {
    User(Field(row, "firstname"), DateOf(Field(row, "dob")), Field(row, "address"),
         Field(row, "phone"), Field(row, "state"), Field(row, "zip"), Field(row, "email"),
         Field(row, "gender"), Field(row, "city"), Field(row, "userType"))
  }

  /** `usersData`: one user per row with a non-empty `firstname`, in row order, not deduplicated. */
  function ExtractUsers(rows: seq<Row>): (r: seq<User>)
    ensures |r| <= |rows|
    ensures forall u :: u in r ==> u.firstname != ""
    ensures |rows| == 1 ==> r == (if Has(rows[0], "firstname") then [UserOf(rows[0])] else [])
    decreases |rows|
  {
    if rows == [] then []
    else
      var prev := ExtractUsers(rows[..|rows| - 1]);
      var row := rows[|rows| - 1];
      if Has(row, "firstname") then prev + [UserOf(row)] else prev
  }

  /** Users are extracted row by row: the list for a concatenation is the concatenation of the lists. */
  lemma {:induction false} ExtractUsersAppend(a: seq<Row>, b: seq<Row>)
    ensures ExtractUsers(a + b) == ExtractUsers(a) + ExtractUsers(b)
    decreases |b|
  {
    if b == [] {
      assert a + b == a;
    } else {
      var b' := b[..|b| - 1];
      assert (a + b)[..|a + b| - 1] == a + b';
      assert (a + b)[|a + b| - 1] == b[|b| - 1];
      ExtractUsersAppend(a, b');
    }
  }

  /** The four deduplicated reference maps (as entry lists) and the user list. */
  datatype Extracted = Extracted(
    agents: seq<Agent>, accounts: seq<Account>, lobs: seq<Lob>, carriers: seq<Carrier>, users: seq<User>)

  /**
   * The `forEach` over the rows: `map.set` per kind when the row's key cell is
   * non-empty, so each map holds one entry per key, carrying the LAST row's
   * attributes for that key.
   */
  function Extract(rows: seq<Row>): (e: Extracted)
    ensures KeyedStore.UniqueKeys(e.agents, AgentName) && KeyedStore.UniqueKeys(e.accounts, AccountName)
    ensures KeyedStore.UniqueKeys(e.lobs, CategoryName) && KeyedStore.UniqueKeys(e.carriers, CompanyName)
    ensures forall a :: a in e.agents ==> KeyedStore.LastProjected(rows, AgentOf, AgentName, a.agent_name) == Some(a)
    ensures forall a :: a in e.accounts ==> KeyedStore.LastProjected(rows, AccountOf, AccountName, a.account_name) == Some(a)
    ensures forall l :: l in e.lobs ==> KeyedStore.LastProjected(rows, LobOf, CategoryName, l.category_name) == Some(l)
    ensures forall c :: c in e.carriers ==> KeyedStore.LastProjected(rows, CarrierOf, CompanyName, c.company_name) == Some(c)
    ensures e.users == ExtractUsers(rows)
  {
    Extracted(KeyedStore.Collect(rows, AgentOf, AgentName), KeyedStore.Collect(rows, AccountOf, AccountName),
              KeyedStore.Collect(rows, LobOf, CategoryName), KeyedStore.Collect(rows, CarrierOf, CompanyName),
              ExtractUsers(rows))
  }

  /** The rows whose cell `name` is non-empty contribute their value as a key; no other row contributes. */
  function CellKeys(rows: seq<Row>, name: string): set<string> {
    set i | 0 <= i < |rows| && Has(rows[i], name) :: rows[i][name]
  }

  /** A row adds a key to a kind's map exactly when that kind's key cell is non-empty. */
  lemma ExtractedKeys(rows: seq<Row>)
    ensures KeyedStore.Keys(Extract(rows).agents, AgentName) == CellKeys(rows, "agent")
    ensures KeyedStore.Keys(Extract(rows).accounts, AccountName) == CellKeys(rows, "account_name")
    ensures KeyedStore.Keys(Extract(rows).lobs, CategoryName) == CellKeys(rows, "category_name")
    ensures KeyedStore.Keys(Extract(rows).carriers, CompanyName) == CellKeys(rows, "company_name")
  {
    AgentKeys(rows);
    AccountKeys(rows);
    LobKeys(rows);
    CarrierKeys(rows);
  }

  /**
   * A projection that yields a document exactly for the rows with a non-empty
   * `name` cell, keyed by that cell, collects exactly the cell keys.
   */
  lemma CollectedCellKeys<D>(rows: seq<Row>, proj: Row -> Option<D>, keyOf: D -> string, name: string)
    requires forall row :: proj(row).Some? <==> Has(row, name)
    requires forall row :: proj(row).Some? && name in row ==> keyOf(proj(row).value) == row[name]
    ensures KeyedStore.Keys(KeyedStore.Collect(rows, proj, keyOf), keyOf) == CellKeys(rows, name)
  {
    KeyedStore.CollectKeys(rows, proj, keyOf);
    var a := KeyedStore.ProjectedKeys(rows, proj, keyOf);
    forall k | k in a ensures k in CellKeys(rows, name) {
      var i :| 0 <= i < |rows| && proj(rows[i]).Some? && keyOf(proj(rows[i]).value) == k;
    }
    forall k | k in CellKeys(rows, name) ensures k in a {
      var i :| 0 <= i < |rows| && Has(rows[i], name) && rows[i][name] == k;
      assert proj(rows[i]).Some?;
    }
  }

  lemma AgentKeys(rows: seq<Row>)
    ensures KeyedStore.Keys(Extract(rows).agents, AgentName) == CellKeys(rows, "agent")
  {
    CollectedCellKeys(rows, AgentOf, AgentName, "agent");
  }

  lemma AccountKeys(rows: seq<Row>)
    ensures KeyedStore.Keys(Extract(rows).accounts, AccountName) == CellKeys(rows, "account_name")
  {
    CollectedCellKeys(rows, AccountOf, AccountName, "account_name");
  }

  lemma LobKeys(rows: seq<Row>)
    ensures KeyedStore.Keys(Extract(rows).lobs, CategoryName) == CellKeys(rows, "category_name")
  {
    CollectedCellKeys(rows, LobOf, CategoryName, "category_name");
  }

  lemma CarrierKeys(rows: seq<Row>)
    ensures KeyedStore.Keys(Extract(rows).carriers, CompanyName) == CellKeys(rows, "company_name")
  {
    CollectedCellKeys(rows, CarrierOf, CompanyName, "company_name");
  }

  /** For a repeated agent name the last row's `agency_id` wins ('' when that row has none). */
  lemma AgentLastRowWins(rows: seq<Row>, j: nat)
    requires j < |rows| && Has(rows[j], "agent")
    requires forall i :: j < i < |rows| ==> Field(rows[i], "agent") != rows[j]["agent"]
    ensures Agent(rows[j]["agent"], Field(rows[j], "agency_id")) in Extract(rows).agents
  {
    var agents := Extract(rows).agents;
    KeyedStore.LastProjectedIsLast(rows, AgentOf, AgentName, j);
    assert rows[j]["agent"] in KeyedStore.Keys(agents, AgentName);
    var i :| 0 <= i < |agents| && agents[i].agent_name == rows[j]["agent"];
    assert agents[i] in agents;
  }

  /** For a repeated account name the last row's `account_type` wins ('' when that row has none). */
  lemma AccountLastRowWins(rows: seq<Row>, j: nat)
    requires j < |rows| && Has(rows[j], "account_name")
    requires forall i :: j < i < |rows| ==> Field(rows[i], "account_name") != rows[j]["account_name"]
    ensures Account(rows[j]["account_name"], Field(rows[j], "account_type")) in Extract(rows).accounts
  {
    var accounts := Extract(rows).accounts;
    KeyedStore.LastProjectedIsLast(rows, AccountOf, AccountName, j);
    assert rows[j]["account_name"] in KeyedStore.Keys(accounts, AccountName);
    var i :| 0 <= i < |accounts| && accounts[i].account_name == rows[j]["account_name"];
    assert accounts[i] in accounts;
  }

  /* ---------------- The stores and the lookup tables ---------------- */

  /** The six collections, each in natural order; a document's `_id` is its position. */
  datatype Stores = Stores(
    agents: seq<Agent>, accounts: seq<Account>, lobs: seq<Lob>, carriers: seq<Carrier>,
    users: seq<User>, policies: seq<Policy>)

  /** The lookup key of a stored user. */
  function UserKey(u: User): string {
    u.firstname + "_" + u.email + "_" + u.phone
  }

  /** `${row.firstname}_${row.email}_${row.phone}`: the key a row looks its user up with. */
  function RowUserKey(row: Row): string {
    Show(row, "firstname") + "_" + Show(row, "email") + "_" + Show(row, "phone")
  }

  datatype Lookups = Lookups(
    agent: map<string, Id>, account: map<string, Id>, lob: map<string, Id>,
    carrier: map<string, Id>, user: map<string, Id>)

  /** The five `new Map(...)` tables built from whole-collection reads. */
  function BuildLookups(s: Stores): Lookups {
    Lookups(KeyedStore.BuildLookup(s.agents, AgentName), KeyedStore.BuildLookup(s.accounts, AccountName),
            KeyedStore.BuildLookup(s.lobs, CategoryName), KeyedStore.BuildLookup(s.carriers, CompanyName),
            KeyedStore.BuildLookup(s.users, UserKey))
  }

  /** `lookup.get(row[name])`: `undefined` when the cell is missing or the key unknown. */
  function CellLookup(m: map<string, Id>, row: Row, name: string): Option<Id> {
    if name in row then KeyedStore.Get(m, row[name]) else None
  }

  /** `parseInt(row[name]) || 0`. */
  function IntCell(env: Env, row: Row, name: string): (r: int)
    ensures name in row && env.parseInt(row[name]).Some? ==> r == env.parseInt(row[name]).value
    ensures name !in row || env.parseInt(row[name]).None? ==> r == 0
  {
    if name in row then env.parseInt(row[name]).GetOr(0) else 0
  }

  /** `parseFloat(row[name]) || 0`. */
  function RealCell(env: Env, row: Row, name: string): (r: real)
    ensures name in row && env.parseFloat(row[name]).Some? ==> r == env.parseFloat(row[name]).value
    ensures name !in row || env.parseFloat(row[name]).None? ==> r == 0.0
  {
    if name in row then env.parseFloat(row[name]).GetOr(0.0) else 0.0
  }

  /** The position of the last document with key `row[name]`, scanning the collection. */
  function CellIndex<D>(docs: seq<D>, keyOf: D -> string, row: Row, name: string): Option<Id> {
    if name in row then KeyedStore.LastIndex(docs, keyOf, row[name]) else None
  }

  lemma CellLookupIsIndex<D>(docs: seq<D>, keyOf: D -> string, row: Row, name: string)
    ensures CellLookup(KeyedStore.BuildLookup(docs, keyOf), row, name) == CellIndex(docs, keyOf, row, name)
  {
    if name in row {
      KeyedStore.LookupIsLastIndex(docs, keyOf, row[name]);
    }
  }

  /**
   * The policy assembled for one row, or None when the row is skipped: a
   * policy is built exactly when the row's user key resolves and its
   * `policy_number` is non-empty. Each id refers to the LAST document in read
   * order carrying the row's key; the four reference ids may be absent.
   */
  function Assemble(env: Env, s: Stores, lk: Lookups, row: Row): (r: Option<PolicyDraft>)
    requires lk == BuildLookups(s)
    ensures r.Some? <==> KeyedStore.HasKey(s.users, UserKey, RowUserKey(row)) && Has(row, "policy_number")
    ensures r.Some? ==> Some(r.value.user_id) == KeyedStore.LastIndex(s.users, UserKey, RowUserKey(row))
    ensures r.Some? ==> r.value.policy_number == row["policy_number"]
    ensures r.Some? ==> r.value.agent_id == CellIndex(s.agents, AgentName, row, "agent")
    ensures r.Some? ==> r.value.account_id == CellIndex(s.accounts, AccountName, row, "account_name")
    ensures r.Some? ==> r.value.lob_id == CellIndex(s.lobs, CategoryName, row, "category_name")
    ensures r.Some? ==> r.value.carrier_id == CellIndex(s.carriers, CompanyName, row, "company_name")
    ensures r.Some? ==> (r.value.hasActiveClientPolicy <==>
              "hasActiveClientPolicy" in row && row["hasActiveClientPolicy"] == "true")
    ensures r.Some? ==> r.value.policy_mode == IntCell(env, row, "policy_mode")
    ensures r.Some? ==> r.value.premium_amount == RealCell(env, row, "premium_amount")
    ensures r.Some? ==> r.value.premium_amount_written == RealCell(env, row, "premium_amount_written")
    ensures r.Some? ==> (r.value.policy_start_date.Now? <==> !Has(row, "policy_start_date"))
    ensures r.Some? && Has(row, "policy_start_date") ==> r.value.policy_start_date == At(row["policy_start_date"])
    ensures r.Some? ==> (r.value.policy_end_date.Now? <==> !Has(row, "policy_end_date"))
    ensures r.Some? && Has(row, "policy_end_date") ==> r.value.policy_end_date == At(row["policy_end_date"])
    ensures r.Some? ==> r.value.policy_type == Field(row, "policy_type")
    ensures r.Some? ==> r.value.producer == Field(row, "producer") && r.value.csr == Field(row, "csr")
  {
    KeyedStore.LookupIsLastIndex(s.users, UserKey, RowUserKey(row));
    CellLookupIsIndex(s.agents, AgentName, row, "agent");
    CellLookupIsIndex(s.accounts, AccountName, row, "account_name");
    CellLookupIsIndex(s.lobs, CategoryName, row, "category_name");
    CellLookupIsIndex(s.carriers, CompanyName, row, "company_name");
    match KeyedStore.Get(lk.user, RowUserKey(row))
    case None => None
    case Some(userId) =>
      if !Has(row, "policy_number") then None
      else
        Some(PolicyDraft(
          row["policy_number"],
          DateOf(Field(row, "policy_start_date")), DateOf(Field(row, "policy_end_date")),
          IntCell(env, row, "policy_mode"), Field(row, "policy_type"),
          RealCell(env, row, "premium_amount"), RealCell(env, row, "premium_amount_written"),
          Field(row, "producer"), Field(row, "csr"), userId,
          CellLookup(lk.lob, row, "category_name"), CellLookup(lk.carrier, row, "company_name"),
          CellLookup(lk.agent, row, "agent"), CellLookup(lk.account, row, "account_name"),
          "hasActiveClientPolicy" in row && row["hasActiveClientPolicy"] == "true"))
  }

  /** Every id in a draft points at an existing document of its collection. */
  predicate DraftRefsIn(s: Stores, d: PolicyDraft) {
    && d.user_id < |s.users|
    && (d.agent_id.Some? ==> d.agent_id.value < |s.agents|)
    && (d.account_id.Some? ==> d.account_id.value < |s.accounts|)
    && (d.lob_id.Some? ==> d.lob_id.value < |s.lobs|)
    && (d.carrier_id.Some? ==> d.carrier_id.value < |s.carriers|)
  }

  /** The per-row step of the assembly, with the lookup tables built from `s`. */
  function AssembleCast(env: Env, s: Stores): Row -> Option<PolicyDraft> {
    row => Assemble(env, s, BuildLookups(s), row)
  }

  /** `policiesData`: the drafts of the qualifying rows, in row order. */
  function AssembleAll(env: Env, s: Stores, lk: Lookups, rows: seq<Row>): (r: seq<PolicyDraft>)
    requires lk == BuildLookups(s)
    ensures |r| <= |rows|
    ensures forall d :: d in r ==> DraftRefsIn(s, d)
  {
    var r := KeyedStore.Inserted(rows, AssembleCast(env, s));
    assert forall d :: d in r ==> DraftRefsIn(s, d) by {
      forall d | d in r ensures DraftRefsIn(s, d) {
        var i :| 0 <= i < |rows| && AssembleCast(env, s)(rows[i]) == Some(d);
        AssembleRefsIn(env, s, lk, rows[i]);
      }
    }
    r
  }

  /** A single row gives its own policy, or none when it is skipped. */
  lemma AssembleOneRow(env: Env, s: Stores, lk: Lookups, row: Row)
    requires lk == BuildLookups(s)
    ensures AssembleAll(env, s, lk, [row]) == (match Assemble(env, s, lk, row) case Some(d) => [d] case None => [])
  {
    assert [row][..0] == [];
    assert KeyedStore.Inserted([], AssembleCast(env, s)) == [];
  }

  /** An assembled draft refers only to stored documents. */
  lemma AssembleRefsIn(env: Env, s: Stores, lk: Lookups, row: Row)
    requires lk == BuildLookups(s)
    ensures Assemble(env, s, lk, row).Some? ==> DraftRefsIn(s, Assemble(env, s, lk, row).value)
  {
  }

  /** Drafts are assembled row by row: there is one per qualifying row, in row order. */
  lemma AssembleAllAppend(env: Env, s: Stores, lk: Lookups, a: seq<Row>, b: seq<Row>)
    requires lk == BuildLookups(s)
    ensures AssembleAll(env, s, lk, a + b) == AssembleAll(env, s, lk, a) + AssembleAll(env, s, lk, b)
  {
    KeyedStore.InsertedAppend(a, b, AssembleCast(env, s));
  }

  /* ---------------- The pipeline and its progress events ---------------- */

  /** The per-upload totals posted with `complete`. */
  datatype Counts = Counts(agents: nat, accounts: nat, lobs: nat, carriers: nat, users: nat, policies: nat)

  /** The messages the worker posts to its parent. */
  datatype Event =
    | Progress(message: string, progress: nat)
    | Complete(message: string, result: Counts)
    | Error(message: string)

  /** The storage calls that can throw; the thrown error's message is carried along. */
  datatype Stage = Connecting | WritingAgents | WritingAccounts | WritingLobs | WritingCarriers | Fetching
  datatype Fault = Fault(stage: Stage, message: string)

  /** The ten progress events of a full run, in the order they are posted. */
  const ProgressEvents: seq<Event> := [
    Progress("Connected to MongoDB", 5),
    Progress("Extracting unique entities...", 10),
    Progress("Inserting agents...", 20),
    Progress("Inserting accounts...", 30),
    Progress("Inserting LOBs...", 40),
    Progress("Inserting carriers...", 50),
    Progress("Inserting users...", 60),
    Progress("Fetching entities for mapping...", 70),
    Progress("Inserting policies...", 80),
    Progress("Data processing complete!", 100)
  ]

  /** How many progress events are posted before the call at `stage` throws. */
  function PostedBefore(stage: Stage): (n: nat)
    ensures n < |ProgressEvents|
  {
    match stage
    case Connecting => 0
    case WritingAgents => 3
    case WritingAccounts => 4
    case WritingLobs => 5
    case WritingCarriers => 6
    case Fetching => 8
  }

  function UserCast(env: Env): User -> Option<User> {
    u => UserDoc(env, u)
  }

  function PolicyCast(env: Env): PolicyDraft -> Option<Policy> {
    d => PolicyDoc(env, d)
  }

  /** The reference upserts: one insert-if-absent `bulkWrite` per kind, in this order. */
  function WriteAgents(s: Stores, e: Extracted): Stores {
    s.(agents := KeyedStore.BulkUpsert(s.agents, AgentName, TrimAgents(e.agents)))
  }

  function WriteAccounts(s: Stores, e: Extracted): Stores {
    s.(accounts := KeyedStore.BulkUpsert(s.accounts, AccountName, TrimAccounts(e.accounts)))
  }

  function WriteLobs(s: Stores, e: Extracted): Stores {
    s.(lobs := KeyedStore.BulkUpsert(s.lobs, CategoryName, e.lobs))
  }

  function WriteCarriers(s: Stores, e: Extracted): Stores {
    s.(carriers := KeyedStore.BulkUpsert(s.carriers, CompanyName, e.carriers))
  }

  /** `User.insertMany(usersData, { ordered: false })`: the valid users are appended. */
  function WriteUsers(env: Env, s: Stores, e: Extracted): Stores {
    s.(users := s.users + KeyedStore.Inserted(e.users, UserCast(env)))
  }

  /** The stores once every reference kind is upserted and the users are inserted. */
  function BeforePolicies(env: Env, s: Stores, e: Extracted): Stores {
    WriteUsers(env, WriteCarriers(WriteLobs(WriteAccounts(WriteAgents(s, e), e), e), e), e)
  }

  /** The policies `Policy.insertMany(policiesData, { ordered: false })` stores for a run. */
  function NewPolicies(env: Env, rows: seq<Row>, s: Stores): seq<Policy> {
    var e := Extract(rows);
    var s5 := BeforePolicies(env, s, e);
    KeyedStore.Inserted(AssembleAll(env, s5, BuildLookups(s5), rows), PolicyCast(env))
  }

  /** Every collection of `s` is a prefix of the same collection in `t`: nothing stored is modified or removed. */
  predicate Grows(s: Stores, t: Stores) {
    && |s.agents| <= |t.agents| && t.agents[..|s.agents|] == s.agents
    && |s.accounts| <= |t.accounts| && t.accounts[..|s.accounts|] == s.accounts
    && |s.lobs| <= |t.lobs| && t.lobs[..|s.lobs|] == s.lobs
    && |s.carriers| <= |t.carriers| && t.carriers[..|s.carriers|] == s.carriers
    && |s.users| <= |t.users| && t.users[..|s.users|] == s.users
    && |s.policies| <= |t.policies| && t.policies[..|s.policies|] == s.policies
  }

  lemma GrowsTransitive(s: Stores, t: Stores, u: Stores)
    requires Grows(s, t) && Grows(t, u)
    ensures Grows(s, u)
  {
    assert u.agents[..|s.agents|] == u.agents[..|t.agents|][..|s.agents|];
    assert u.accounts[..|s.accounts|] == u.accounts[..|t.accounts|][..|s.accounts|];
    assert u.lobs[..|s.lobs|] == u.lobs[..|t.lobs|][..|s.lobs|];
    assert u.carriers[..|s.carriers|] == u.carriers[..|t.carriers|][..|s.carriers|];
    assert u.users[..|s.users|] == u.users[..|t.users|][..|s.users|];
    assert u.policies[..|s.policies|] == u.policies[..|t.policies|][..|s.policies|];
  }

  /** Each write stage only appends. */
  lemma WritesGrow(env: Env, s: Stores, e: Extracted)
    ensures Grows(s, WriteAgents(s, e))
    ensures Grows(WriteAgents(s, e), WriteAccounts(WriteAgents(s, e), e))
    ensures Grows(WriteAccounts(WriteAgents(s, e), e), WriteLobs(WriteAccounts(WriteAgents(s, e), e), e))
    ensures Grows(WriteLobs(WriteAccounts(WriteAgents(s, e), e), e),
                  WriteCarriers(WriteLobs(WriteAccounts(WriteAgents(s, e), e), e), e))
    ensures Grows(WriteCarriers(WriteLobs(WriteAccounts(WriteAgents(s, e), e), e), e), BeforePolicies(env, s, e))
  {
    var s1 := WriteAgents(s, e);
    var s2 := WriteAccounts(s1, e);
    var s3 := WriteLobs(s2, e);
    var s4 := WriteCarriers(s3, e);
    assert Grows(s, s1) by {
      SameRest(s, s1);
    }
    assert Grows(s1, s2) by {
      SameRest(s1, s2);
    }
    assert Grows(s2, s3) by {
      SameRest(s2, s3);
    }
    assert Grows(s3, s4) by {
      SameRest(s3, s4);
    }
    assert Grows(s4, BeforePolicies(env, s, e)) by {
      var t := BeforePolicies(env, s, e);
      SameRest(s4, t);
      assert t.users == s4.users + KeyedStore.Inserted(e.users, UserCast(env));
      assert t.users[..|s4.users|] == s4.users;
    }
  }

  /** A collection left as it was is its own prefix. */
  lemma SameRest(s: Stores, t: Stores)
    ensures s.agents == t.agents ==> t.agents[..|s.agents|] == s.agents
    ensures s.accounts == t.accounts ==> t.accounts[..|s.accounts|] == s.accounts
    ensures s.lobs == t.lobs ==> t.lobs[..|s.lobs|] == s.lobs
    ensures s.carriers == t.carriers ==> t.carriers[..|s.carriers|] == s.carriers
    ensures s.users == t.users ==> t.users[..|s.users|] == s.users
    ensures s.policies == t.policies ==> t.policies[..|s.policies|] == s.policies
  {
  }

  lemma GrowsBeforePolicies(env: Env, s: Stores, e: Extracted)
    ensures Grows(s, BeforePolicies(env, s, e))
  {
    var s1 := WriteAgents(s, e);
    var s2 := WriteAccounts(s1, e);
    var s3 := WriteLobs(s2, e);
    var s4 := WriteCarriers(s3, e);
    WritesGrow(env, s, e);
    GrowsTransitive(s, s1, s2);
    GrowsTransitive(s, s2, s3);
    GrowsTransitive(s, s3, s4);
    GrowsTransitive(s, s4, BeforePolicies(env, s, e));
  }

  /** The stores when the call at `stage` throws: the writes of the earlier stages are kept. */
  function StoresAt(env: Env, s: Stores, e: Extracted, stage: Stage): (t: Stores)
    ensures Grows(s, t)
  {
    var s1 := WriteAgents(s, e);
    var s2 := WriteAccounts(s1, e);
    var s3 := WriteLobs(s2, e);
    var s4 := WriteCarriers(s3, e);
    WritesGrow(env, s, e);
    GrowsTransitive(s, s1, s2);
    GrowsTransitive(s, s2, s3);
    GrowsBeforePolicies(env, s, e);
    match stage
    case Connecting => s
    case WritingAgents => s
    case WritingAccounts => s1
    case WritingLobs => s2
    case WritingCarriers => s3
    case Fetching => BeforePolicies(env, s, e)
  }

  /** Progress values are posted in strictly increasing order. */
  lemma ProgressIncreasing()
    ensures forall i :: 0 <= i < |ProgressEvents| ==> ProgressEvents[i].Progress?
    ensures forall i, j :: 0 <= i < j < |ProgressEvents| ==> ProgressEvents[i].progress < ProgressEvents[j].progress
  {
    forall i, j | 0 <= i < j < |ProgressEvents|
      ensures ProgressEvents[i].progress < ProgressEvents[j].progress
    {
      var ps := [5, 10, 20, 30, 40, 50, 60, 70, 80, 100];
      assert forall k :: 0 <= k < |ProgressEvents| ==> ProgressEvents[k].progress == ps[k];
    }
  }

  /**
   * The events of one run: every progress event up to the failing call, then
   * exactly one terminal event, `complete` or `error`.
   */
  function Events(fault: Option<Fault>, result: Counts): (ev: seq<Event>)
    ensures |ev| >= 1
    ensures forall i :: 0 <= i < |ev| - 1 ==> ev[i].Progress?
    ensures !ev[|ev| - 1].Progress?
    ensures ev[|ev| - 1].Complete? <==> fault.None?
    ensures fault.None? ==> ev[|ev| - 1].result == result
    ensures fault.Some? ==> ev[|ev| - 1] == Error(fault.value.message)
    ensures forall i, j :: 0 <= i < j < |ev| - 1 ==> ev[i].progress < ev[j].progress
  {
    ProgressIncreasing();
    match fault
    case None => ProgressEvents + [Complete("Data processing completed successfully", result)]
    case Some(f) => ProgressEvents[..PostedBefore(f.stage)] + [Error(f.message)]
  }

  /** What a run leaves behind: the events posted, in order, and the stores. */
  datatype Run = Run(events: seq<Event>, stores: Stores)

  /** `insertMany` of the policies: they are appended. */
  function AddPolicies(t: Stores, added: seq<Policy>): (u: Stores)
    ensures Grows(t, u)
    ensures u.policies == t.policies + added
    ensures u.agents == t.agents && u.accounts == t.accounts && u.lobs == t.lobs
    ensures u.carriers == t.carriers && u.users == t.users
  {
    var u := t.(policies := t.policies + added);
    assert u.policies[..|t.policies|] == t.policies;
    u
  }

  /** The stores after a run in which nothing throws. */
  function AfterRun(env: Env, rows: seq<Row>, s: Stores): (t: Stores)
    ensures Grows(s, t)
  {
    var e := Extract(rows);
    GrowsBeforePolicies(env, s, e);
    GrowsTransitive(s, BeforePolicies(env, s, e), AddPolicies(BeforePolicies(env, s, e), NewPolicies(env, rows, s)));
    AddPolicies(BeforePolicies(env, s, e), NewPolicies(env, rows, s))
  }

  /** Each collection after a run in which nothing throws, stage by stage. */
  lemma AfterRunParts(env: Env, rows: seq<Row>, s: Stores)
    ensures var e := Extract(rows);
            var t := AfterRun(env, rows, s);
            && t.agents == KeyedStore.BulkUpsert(s.agents, AgentName, TrimAgents(e.agents))
            && t.accounts == KeyedStore.BulkUpsert(s.accounts, AccountName, TrimAccounts(e.accounts))
            && t.lobs == KeyedStore.BulkUpsert(s.lobs, CategoryName, e.lobs)
            && t.carriers == KeyedStore.BulkUpsert(s.carriers, CompanyName, e.carriers)
            && t.users == s.users + KeyedStore.Inserted(e.users, UserCast(env))
            && t.policies == s.policies + NewPolicies(env, rows, s)
  {
  }

  /**
   * One worker run (`processData` around `transformAndInsertData`). With no
   * fault every stage completes and `complete` carries whole-collection sizes
   * and the number of policies this run inserted. A fault stops the run at
   * its stage, after the writes of the earlier stages, and posts `error`.
   */
  function ProcessData(env: Env, rows: seq<Row>, s: Stores, fault: Option<Fault>): (r: Run)
    ensures |r.events| >= 1
    ensures forall i :: 0 <= i < |r.events| - 1 ==> r.events[i].Progress?
    ensures !r.events[|r.events| - 1].Progress?
    ensures r.events[|r.events| - 1].Complete? <==> fault.None?
    ensures fault.Some? ==> r.events[|r.events| - 1] == Error(fault.value.message)
    ensures forall i, j :: 0 <= i < j < |r.events| - 1 ==> r.events[i].progress < r.events[j].progress
    ensures Grows(s, r.stores)
    ensures fault.None? ==> r.events[|r.events| - 1].result == Counts(
              |r.stores.agents|, |r.stores.accounts|, |r.stores.lobs|, |r.stores.carriers|,
              |r.stores.users|, |r.stores.policies| - |s.policies|)
  {
    var t := FinalStores(env, rows, s, fault);
    var result := Counts(|t.agents|, |t.accounts|, |t.lobs|, |t.carriers|, |t.users|, |t.policies| - |s.policies|);
    Run(Events(fault, result), t)
  }

  /** The stores a run leaves: all writes without a fault, those before the failing call with one. */
  function FinalStores(env: Env, rows: seq<Row>, s: Stores, fault: Option<Fault>): (t: Stores)
    ensures Grows(s, t)
    ensures |s.policies| <= |t.policies|
  {
    if fault.None? then AfterRun(env, rows, s) else StoresAt(env, s, Extract(rows), fault.value.stage)
  }
}
