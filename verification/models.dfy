/**
 * The persisted entities (the mongoose schemas under src/models) and the
 * effect of each schema on a document when it is saved: setters such as
 * `trim` and `lowercase` are applied, then `required` is checked.
 */
module Models {
  import opened Wrappers
  import opened Text
  import KeyedStore

  type Id = KeyedStore.Id

  /** A `Date` built from a cell: `new Date(raw)`, or `new Date()` (the current time). */
  datatype When = Now | At(raw: string)

  /**
   * The runtime's parsers, left abstract: `parseInt` and `parseFloat` (None
   * for NaN) and whether `new Date(raw)` is a valid date.
   */
  datatype Env = Env(parseInt: string -> Option<int>, parseFloat: string -> Option<real>, isDate: string -> bool)

  /** `cell ? new Date(cell) : new Date()`. */
  function DateOf(cell: string): (w: When)
    ensures w.Now? <==> cell == ""
    ensures w.At? ==> w.raw == cell
  {
    if cell == "" then Now else At(cell)
  }

  /** A `Date` path passes casting unless it is an invalid date. */
  predicate ValidDate(env: Env, w: When) {
    w.Now? || env.isDate(w.raw)
  }

  datatype Agent = Agent(agent_name: string, agency_id: string)
  datatype Account = Account(account_name: string, account_type: string)
  datatype Lob = Lob(category_name: string)
  datatype Carrier = Carrier(company_name: string)

  /** The setters of the Agent schema: both string fields trimmed. */
  function AgentSetters(a: Agent): (r: Agent)
    ensures r.agent_name == Trim(a.agent_name) && r.agency_id == Trim(a.agency_id)
  {
    Agent(Trim(a.agent_name), Trim(a.agency_id))
  }

  /** Saving an agent: setters, then `agent_name` required. None when validation fails. */
  function AgentDoc(a: Agent): (r: Option<Agent>)
    ensures r.Some? <==> Trim(a.agent_name) != ""
    ensures r.Some? ==> r.value == AgentSetters(a)
  {
    var s := AgentSetters(a);
    if s.agent_name != "" then Some(s) else None
  }

  /** The setters of the Account schema: both string fields trimmed. */
  function AccountSetters(a: Account): (r: Account)
    ensures r.account_name == Trim(a.account_name) && r.account_type == Trim(a.account_type)
  {
    Account(Trim(a.account_name), Trim(a.account_type))
  }

  /** Saving an account: setters, then `account_name` required. None when validation fails. */
  function AccountDoc(a: Account): (r: Option<Account>)
    ensures r.Some? <==> Trim(a.account_name) != ""
    ensures r.Some? ==> r.value == AccountSetters(a)
  {
    var s := AccountSetters(a);
    if s.account_name != "" then Some(s) else None
  }

  /**
   * The agents a bulk upsert writes and filters on: mongoose casts both the
   * filter and `$setOnInsert` through the schema, so each item is trimmed.
   */
  function TrimAgents(items: seq<Agent>): (r: seq<Agent>)
    ensures |r| == |items|
    ensures forall i :: 0 <= i < |items| ==> r[i] == AgentSetters(items[i])
  {
    seq(|items|, i requires 0 <= i < |items| => AgentSetters(items[i]))
  }

  /** The accounts a bulk upsert writes and filters on, each trimmed. */
  function TrimAccounts(items: seq<Account>): (r: seq<Account>)
    ensures |r| == |items|
    ensures forall i :: 0 <= i < |items| ==> r[i] == AccountSetters(items[i])
  {
    seq(|items|, i requires 0 <= i < |items| => AccountSetters(items[i]))
  }

  /** The validation error `Model.create` throws for a blank required name. */
  const AgentNameRequired := "Agent validation failed: agent_name: Path `agent_name` is required."
  const AccountNameRequired := "Account validation failed: account_name: Path `account_name` is required."

  /** The natural keys the services and the worker filter on. */
  function AgentName(a: Agent): string { a.agent_name }
  function AccountName(a: Account): string { a.account_name }
  function CategoryName(l: Lob): string { l.category_name }
  function CompanyName(c: Carrier): string { c.company_name }

  datatype User = User(
    firstname: string, dob: When, address: string, phone: string, state: string,
    zip: string, email: string, gender: string, city: string, userType: string)

  /** The setters of the User schema: every string field trimmed, `email` also lower-cased. */
  function UserSetters(u: User): (r: User)
    ensures r.firstname == Trim(u.firstname) && r.phone == Trim(u.phone)
    ensures r.address == Trim(u.address) && r.state == Trim(u.state) && r.zip == Trim(u.zip)
    ensures r.gender == Trim(u.gender) && r.city == Trim(u.city) && r.userType == Trim(u.userType)
    ensures r.email == ToLower(Trim(u.email))
    ensures r.dob == u.dob
  {
    User(Trim(u.firstname), u.dob, Trim(u.address), Trim(u.phone), Trim(u.state),
         Trim(u.zip), ToLower(Trim(u.email)), Trim(u.gender), Trim(u.city), Trim(u.userType))
  }

  /**
   * Saving a user: setters, then validation (`firstname` required, so not
   * blank once trimmed; `dob` required and a valid date). None when
   * validation fails and the document is not stored.
   */
  function UserDoc(env: Env, u: User): (r: Option<User>)
    ensures r.Some? <==> Trim(u.firstname) != "" && ValidDate(env, u.dob)
    ensures r.Some? ==> r.value == UserSetters(u)
  {
    var s := UserSetters(u);
    if s.firstname != "" && ValidDate(env, s.dob) then Some(s) else None
  }

  /** A policy as the upload worker assembles it: the four reference ids may be `undefined`. */
  datatype PolicyDraft = PolicyDraft(
    policy_number: string, policy_start_date: When, policy_end_date: When,
    policy_mode: int, policy_type: string, premium_amount: real,
    premium_amount_written: real, producer: string, csr: string,
    user_id: Id, lob_id: Option<Id>, carrier_id: Option<Id>,
    agent_id: Option<Id>, account_id: Option<Id>, hasActiveClientPolicy: bool)

  /** A stored policy: every reference is present. */
  datatype Policy = Policy(
    policy_number: string, policy_start_date: When, policy_end_date: When,
    policy_mode: int, policy_type: string, premium_amount: real,
    premium_amount_written: real, producer: string, csr: string,
    user_id: Id, lob_id: Id, carrier_id: Id, agent_id: Id, account_id: Id,
    hasActiveClientPolicy: bool)

  /** Every validation rule of the Policy schema a draft can break. */
  predicate PolicyValid(env: Env, d: PolicyDraft) {
    && Trim(d.policy_number) != ""
    && ValidDate(env, d.policy_start_date) && ValidDate(env, d.policy_end_date)
    && d.lob_id.Some? && d.carrier_id.Some? && d.agent_id.Some? && d.account_id.Some?
  }

  /**
   * Saving a policy: string fields trimmed, then validation. A draft with an
   * unresolved reference is rejected rather than stored with a null.
   */
  function PolicyDoc(env: Env, d: PolicyDraft): (r: Option<Policy>)
    ensures r.Some? <==> PolicyValid(env, d)
    ensures r.Some? ==> r.value.user_id == d.user_id && r.value.policy_number == Trim(d.policy_number)
    ensures r.Some? ==> Some(r.value.lob_id) == d.lob_id && Some(r.value.carrier_id) == d.carrier_id
    ensures r.Some? ==> Some(r.value.agent_id) == d.agent_id && Some(r.value.account_id) == d.account_id
    ensures r.Some? ==> r.value.premium_amount == d.premium_amount && r.value.policy_mode == d.policy_mode
    ensures r.Some? ==> r.value.premium_amount_written == d.premium_amount_written
    ensures r.Some? ==> r.value.policy_start_date == d.policy_start_date && r.value.policy_end_date == d.policy_end_date
    ensures r.Some? ==> r.value.policy_type == Trim(d.policy_type)
    ensures r.Some? ==> r.value.producer == Trim(d.producer) && r.value.csr == Trim(d.csr)
    ensures r.Some? ==> r.value.hasActiveClientPolicy == d.hasActiveClientPolicy
  {
    if PolicyValid(env, d) then
      Some(Policy(Trim(d.policy_number), d.policy_start_date, d.policy_end_date,
                  d.policy_mode, Trim(d.policy_type), d.premium_amount,
                  d.premium_amount_written, Trim(d.producer), Trim(d.csr),
                  d.user_id, d.lob_id.value, d.carrier_id.value, d.agent_id.value,
                  d.account_id.value, d.hasActiveClientPolicy))
    else None
  }
}
