# Policy management system: the upload core in Dafny

This project models the server of a policy management system: an Express
application over MongoDB that imports spreadsheets of insurance policies.
At its centre is the upload worker (`transformAndInsertData` in
`src/workers/csvWorker.js`). It turns the rows of an uploaded file into
four reference collections: agents, accounts, lines of business (LOBs) and
carriers. Those are deduplicated and upserted insert-if-absent. It also
appends one user per row and assembles one policy per row whose user can be
found again. Around that core the model covers:

- the row helpers of `dataProcessor.js`;
- the reference-entity services (find-or-create and bulk insert-if-absent);
- the user aggregation, name search and listing limit of the policy service;
- the HTTP envelopes, the error classifier and the validation gate;
- the message and upload validators and the parser's format dispatch;
- the three-strike CPU watchdog;
- one tick of the scheduled-message job.

Everything is pure. A collection is a `seq` of documents, and a document's
`_id` is its position: the modelled operations only ever append. A CSV row
is a `map<string, string>`, with an absent key standing for `undefined`.
The clock, `new Date`, `parseInt`, `parseFloat`, the ISO 8601 date test and
the name regex are parameters (`Models.Env`, `isIso8601`, `nameMatches`).
A storage failure is an optional `Fault` naming the stage that throws. The
progress messages the worker posts are a returned list of events.

Modules, one per source file (`Wrappers`, `Text` and `Rows` are shared
helpers for options, JavaScript string operations and row cells):

- `KeyedStore`: the generic keyed-collection operations the services and
  the worker share. These are `findOne`, find-or-create, bulk `$setOnInsert`
  upsert, `new Map(...)` lookups, `Map.set` deduplication and unordered
  `insertMany`.
- `Models`: the mongoose schemas' setters and required fields.
- `AgentService`, `AccountService`, `LobService`, `CarrierService`.
- `CsvWorker` and `UploadProperties`: the upload run and its whole-run
  properties.
- `DataProcessor`, `CpuMonitor`, `MessageScheduler`, `ResponseHandler`,
  `ErrorHandler`, `ValidateRequest`, `MessageValidator`, `UploadValidator`,
  `CsvParser`, `PolicyService`.

A few behaviours of the code shape the whole model:

- The worker deduplicates each reference kind with `Map.set`
  (`src/workers/csvWorker.js:52-90`), so for a repeated key the last row's
  attributes are kept.
- The user lookup is also a `new Map` (`src/workers/csvWorker.js:174-184`),
  so among users sharing a key the one read last is found.
- The Policy schema requires all four references
  (`src/models/Policy.js:45-64`). A policy whose reference did not resolve
  fails validation and is skipped by the unordered `insertMany`
  (`src/workers/csvWorker.js:208-210`).
- Mongoose casts query filters and `$setOnInsert` through the Agent and
  Account schemas, so `findByName`, `createOrFind`, `bulkCreate` and the
  worker's upserts (`src/workers/csvWorker.js:109-127`) all use trimmed
  names. The worker's lookups (`src/workers/csvWorker.js:168-171`) are
  keyed by those stored names but read with the row's cell as written
  (`src/workers/csvWorker.js:201-202`), so a padded agent or account cell
  leaves its policy without that reference, and the policy is not stored.
- Every `bulkWrite` and `find` of the run is awaited without a `catch`, so
  any of them that throws ends the run with one `error` event
  (`src/workers/csvWorker.js:36-43`).
- The counts in the `complete` event for agents, accounts, LOBs, carriers
  and users are the sizes of the whole collections read back after the
  writes (`src/workers/csvWorker.js:161-166` and `214-219`).

## Model

| member | source | states |
|---|---|---|
| Text.Trim | src/models/User.js:5-9 | The result is a slice of the input with only whitespace before and after it; it has no leading or trailing whitespace, and is empty exactly when the input is all whitespace |
| Text.ToLower | src/models/User.js:30-34 | Same length; each character is lower-cased one for one |
| Text.FromLast | src/validators/uploadValidator.js:13 | `substring(lastIndexOf(c))`: a suffix of the input; it starts at the last `c`, or is the whole input when there is no `c` |
| Text.AfterLast | src/utils/csvParser.js:49 | `split(c).pop()`: the longest suffix without `c`; the character before it is `c` |
| Rows.Field | src/workers/dataProcessor.js:7-42 | `row.x \|\| ''`: empty exactly when the cell is missing or empty, otherwise the cell |
| Rows.Show | src/workers/csvWorker.js:184 | A template-literal cell: the cell when present, the text "undefined" when missing |
| Models.DateOf | src/workers/csvWorker.js:95 | `cell ? new Date(cell) : new Date()`: the current time exactly for an empty cell, otherwise the cell's date |
| Models.UserSetters | src/models/User.js:3-46 | Saving a user trims each of the nine string fields and lower-cases the trimmed email; the date of birth is kept |
| Models.UserDoc | src/models/User.js:5-13 | A user is stored iff its trimmed first name is non-empty and its date of birth is valid; what is stored is the set-up document |
| Models.PolicyDoc | src/models/Policy.js:5-68 | A policy is stored iff its number is non-blank, both dates are valid and all four references are present. The stored policy has the number, type, producer and csr trimmed, and carries the draft's dates, mode, both premiums, references and active flag |
| Models.AgentDoc | src/models/Agent.js:3-13 | An agent is stored iff its trimmed name is non-empty; what is stored has both fields trimmed |
| Models.AccountDoc | src/models/Account.js:3-13 | An account is stored iff its trimmed name is non-empty; what is stored has both fields trimmed |
| KeyedStore.FindFirst | src/services/agentService.js:61-64 | `findOne` on a key: the first position holding that key, and none exactly when no document has it |
| KeyedStore.FindByKey | src/services/agentService.js:61-64 | The document found has the key and is stored; none exactly when the key is absent |
| KeyedStore.CreateOrFind | src/services/agentService.js:8-21 | A stored key returns its document and leaves the store unchanged; otherwise the data is appended and returned |
| KeyedStore.CreateOrFindCount | src/services/agentService.js:8-21 | After find-or-create, the key's document count is the old count when it was stored, else one |
| KeyedStore.Count | src/services/agentService.js:10 | The number of documents with a key is zero exactly when `findOne` finds nothing |
| KeyedStore.BulkUpsert | src/services/agentService.js:26-44 | Per-item `$setOnInsert` upsert: the old documents are an unchanged prefix; the keys are the union; every new document is the first input item with its key; unique keys stay unique |
| KeyedStore.BulkUpsertPresent | src/services/agentService.js:28-36 | Upserting keys that are all stored changes nothing |
| KeyedStore.BulkUpsertIdempotent | src/workers/csvWorker.js:109-150 | Upserting the same batch twice equals upserting it once |
| KeyedStore.BulkUpsertFresh | src/services/agentService.js:28-36 | Distinct, unstored keys are all appended in input order |
| KeyedStore.BuildLookup | src/workers/csvWorker.js:168-171 | The lookup map's keys are exactly the stored keys |
| KeyedStore.LastIndex | src/workers/csvWorker.js:168-177 | The position of the last document with the key; none exactly when the key is absent |
| KeyedStore.LookupIsLastIndex | src/workers/csvWorker.js:168-177 | `new Map(docs.map(...)).get(k)` finds the last document with key `k` in read order |
| KeyedStore.LookupIsFindFirst | src/workers/csvWorker.js:168-171 | With unique keys, the lookup agrees with `findOne` |
| KeyedStore.MapSet | src/workers/csvWorker.js:62-89 | `Map.set`: the key is added and the value is present; no other key's entry is new; with unique keys the value replaces any old entry of its key |
| KeyedStore.LastProjected | src/workers/csvWorker.js:60-89 | The value of the last row projecting to a key carries that key |
| KeyedStore.Collect | src/workers/csvWorker.js:60-89 | The deduplicated map has unique keys; each entry is the last row's value for its key; a key is present iff some row projects to it |
| KeyedStore.CollectKeys | src/workers/csvWorker.js:60-89 | The collected keys are exactly the keys of the projected rows |
| KeyedStore.LastProjectedIsLast | src/workers/csvWorker.js:62-75 | When no later row has the same key, row `j`'s value is the one kept |
| KeyedStore.Inserted | src/workers/csvWorker.js:153-157 | Unordered `insertMany`: only documents that pass the schema are stored, at most one per item; all pass gives all, none pass gives none |
| KeyedStore.InsertedAppend | src/workers/csvWorker.js:208-210 | Inserting a concatenation inserts each part in turn, keeping input order |
| AgentService.FindByName | src/services/agentService.js:61-64 | The filter is trimmed by the schema: the agent found is stored and has the trimmed name; none iff no agent has the trimmed name; with unique names it is the only one |
| AgentService.CreateOrFind | src/services/agentService.js:8-21 | A stored agent with the trimmed name is returned with nothing written. Otherwise the call fails with the required-name validation error exactly when the trimmed name is empty, and else stores and returns the trimmed agent |
| AgentService.CreateOrFindTwice | src/services/agentService.js:8-21 | Two calls whose names trim to the same new name leave exactly one agent with it, or none when that name is blank |
| AgentService.BulkCreate | src/services/agentService.js:26-44 | Filter and inserted document are trimmed by the schema. Stored agents are never modified; the names become the union with the trimmed input names; each new agent is the first trimmed input item with its name |
| AgentService.BulkCreateStored | src/services/agentService.js:28-36 | Items that `findByName` finds, padded or not, write nothing |
| AgentService.BulkCreateDistinct | src/services/agentService.js:28-36 | Items whose trimmed names are distinct and new are all inserted, trimmed, in order |
| AccountService.FindByName | src/services/accountService.js:61-64 | The stored account whose name is the trimmed filter value, or none iff no account has it |
| AccountService.CreateOrFind | src/services/accountService.js:8-21 | Find-or-create keyed by the trimmed `account_name`; a new blank name fails validation; a new account is stored trimmed |
| AccountService.CreateOrFindTwice | src/services/accountService.js:8-21 | Repeating find-or-create leaves one account with the trimmed name, or none when it is blank |
| AccountService.BulkCreate | src/services/accountService.js:26-44 | Insert-if-absent keyed by the trimmed `account_name`, inserting the trimmed item; stored accounts are unchanged |
| AccountService.BulkCreateStored | src/services/accountService.js:28-36 | Items that `findByName` finds, padded or not, write nothing |
| AccountService.BulkCreateDistinct | src/services/accountService.js:28-36 | Items whose trimmed names are distinct and new are all inserted, trimmed, in order |
| LobService.FindByName | src/services/lobService.js:61-64 | The exact `category_name` match or none |
| LobService.CreateOrFind | src/services/lobService.js:8-21 | Find-or-create keyed by `category_name` |
| LobService.CreateOrFindTwice | src/services/lobService.js:8-21 | Repeating find-or-create leaves one LOB with the name |
| LobService.BulkCreate | src/services/lobService.js:26-44 | Insert-if-absent keyed by `category_name`; stored LOBs are unchanged |
| LobService.BulkCreateDistinct | src/services/lobService.js:28-36 | Distinct new names are all inserted, in order |
| CarrierService.FindByName | src/services/carrierService.js:61-64 | The exact `company_name` match or none |
| CarrierService.CreateOrFind | src/services/carrierService.js:8-21 | Find-or-create keyed by `company_name` |
| CarrierService.CreateOrFindTwice | src/services/carrierService.js:8-21 | Repeating find-or-create leaves one carrier with the name |
| CarrierService.BulkCreate | src/services/carrierService.js:26-44 | Insert-if-absent keyed by `company_name`; stored carriers are unchanged |
| CarrierService.BulkCreateDistinct | src/services/carrierService.js:28-36 | Distinct new names are all inserted, in order |
| CsvWorker.ExtractUsers | src/workers/csvWorker.js:91-105 | One user per row with a non-empty first name and none otherwise, never more users than rows |
| CsvWorker.ExtractUsersAppend | src/workers/csvWorker.js:60-105 | Users are extracted row by row in row order, with no deduplication |
| CsvWorker.Extract | src/workers/csvWorker.js:60-106 | Each reference map has unique keys, and each entry is the last row's value for its key; the user list is the row-by-row extraction |
| CsvWorker.CollectedCellKeys | src/workers/csvWorker.js:60-89 | A map filled from the rows with a non-empty key cell holds exactly those cells as keys |
| CsvWorker.ExtractedKeys | src/workers/csvWorker.js:60-89 | Each reference map's keys are exactly the non-empty cells of its key column; other kinds do not interfere |
| CsvWorker.AgentLastRowWins | src/workers/csvWorker.js:62-67 | A repeated agent takes the `agency_id` of its last row, '' when missing |
| CsvWorker.AccountLastRowWins | src/workers/csvWorker.js:70-75 | A repeated account takes the `account_type` of its last row, '' when missing |
| CsvWorker.CellLookupIsIndex | src/workers/csvWorker.js:199-202 | `lookup.get(row.x)` is the last stored document with that name; none when the cell is missing or the name is unknown |
| CsvWorker.Assemble | src/workers/csvWorker.js:183-205 | A policy is built iff the row's user key resolves and `policy_number` is non-empty. It names the last user with that key and the reference lookups of its cells. It is active iff the cell is exactly 'true'. Mode and both premiums are parsed with fallback 0. Each date is the current time when its cell is empty and the cell's date otherwise. Type, producer and csr default to '' |
| CsvWorker.AssembleAll | src/workers/csvWorker.js:183-206 | At most one policy per row; each references existing documents |
| CsvWorker.AssembleOneRow | src/workers/csvWorker.js:183-206 | A single row gives its own policy, or none when it is skipped |
| CsvWorker.AssembleRefsIn | src/workers/csvWorker.js:183-204 | An assembled policy's user id and any reference ids point at stored documents |
| CsvWorker.AssembleAllAppend | src/workers/csvWorker.js:183-206 | Policies are assembled row by row in row order |
| CsvWorker.ProgressIncreasing | src/workers/csvWorker.js:22 | Progress values 5, 10, …, 80, 100 are strictly increasing |
| CsvWorker.GrowsTransitive | src/workers/csvWorker.js:109-210 | Append-only growth composes over stages |
| CsvWorker.WritesGrow | src/workers/csvWorker.js:109-157 | Each write stage only appends to the collections |
| CsvWorker.GrowsBeforePolicies | src/workers/csvWorker.js:109-157 | Every write before the policy insert only appends |
| CsvWorker.StoresAt | src/workers/csvWorker.js:36-43 | Whatever stage a fault stops the run at, every document stored before the run is still stored, unchanged and in place |
| CsvWorker.Events | src/workers/csvWorker.js:22-43 | Progress events in increasing order, then exactly one terminal event: `complete` with the counts iff no fault, else `error` with the fault's message |
| CsvWorker.AddPolicies | src/workers/csvWorker.js:208-210 | The policy insert appends exactly the inserted policies and leaves the other five collections as they were |
| CsvWorker.AfterRun | src/workers/csvWorker.js:49-225 | A whole run only appends to the collections |
| CsvWorker.FinalStores | src/workers/csvWorker.js:15-44 | With or without a fault, the stores a run leaves only grow, policies included |
| CsvWorker.ProcessData | src/workers/csvWorker.js:15-44 | One terminal event after increasing progress; collections only grow; on success the counts are whole-collection sizes plus the policies this run inserted |
| UploadProperties.RerunKeepsReferences | src/workers/csvWorker.js:109-150 | Re-running an upload leaves agents, accounts, LOBs and carriers exactly as the first run left them |
| UploadProperties.RunAppendsUsers | src/workers/csvWorker.js:153-157 | Every run appends the file's valid users again: users are not deduplicated across runs |
| UploadProperties.RunKeepsRefsIn | src/models/Policy.js:40-64 | If every stored policy references existing documents, this still holds after a run |
| UploadProperties.NewPoliciesRefsIn | src/workers/csvWorker.js:183-210 | Every policy a run inserts references documents stored before the policy insert |
| UploadProperties.AtMostOnePolicyPerRow | src/workers/csvWorker.js:183-210 | A run inserts at most as many policies as there are rows |
| UploadProperties.AccountFaultKeepsAgents | src/workers/csvWorker.js:120-128 | A failing account upsert ends the run with `error`, the agents written and nothing else changed |
| UploadProperties.OwnUserKeyMatches | src/workers/csvWorker.js:174-184 | With trimmed first name and phone, the key of the user stored for a row equals the row's lookup key iff its email is present and unchanged by trimming and lower-casing |
| UploadProperties.WriteAgentsTrimmed | src/workers/csvWorker.js:109-117 | The agent upsert stores only trimmed names, so no stored agent name begins with white space |
| UploadProperties.PaddedAgentPolicyDropped | src/workers/csvWorker.js:200-205 | A row whose agent cell begins with white space finds no agent among trimmed names, so its policy has no `agent_id` and fails validation |
| UploadProperties.UpperCaseEmailMisses | src/models/User.js:30-34 | A row whose email has an upper-case letter never finds the user inserted for it |
| UploadProperties.MissingEmailMisses | src/workers/csvWorker.js:184 | A row with no email cell never finds the user inserted for it: its key reads "undefined" |
| UploadProperties.UserKeyCollision | src/workers/csvWorker.js:175 | The '_'-joined key is ambiguous: two different users can share it |
| DataProcessor.TransformRowData | src/workers/dataProcessor.js:4-44 | The output has exactly the 26 listed fields; each is the source cell when truthy and '' otherwise |
| DataProcessor.TransformHas26Columns | src/workers/dataProcessor.js:5-43 | The normalised row has exactly 26 keys |
| DataProcessor.UnspacedFlagIsDropped | src/workers/dataProcessor.js:42 | A row without the spaced key 'hasActive ClientPolicy' gets '' for the flag, even when 'hasActiveClientPolicy' is set |
| DataProcessor.TransformTwice | src/workers/dataProcessor.js:4-44 | Normalising twice equals normalising once and then clearing the flag |
| DataProcessor.ValidateRowData | src/workers/dataProcessor.js:49-61 | No errors iff first name and policy number are both non-empty; each message appears iff its field is missing, the first-name message first |
| DataProcessor.ValidateAfterTransform | src/workers/dataProcessor.js:4-61 | Validation gives the same verdict before and after normalisation |
| DataProcessor.FlattenConcat | src/workers/dataProcessor.js:66-72 | Joining batches distributes over concatenating two lists of batches |
| DataProcessor.BatchArray | src/workers/dataProcessor.js:66-72 | The batches joined give the input; all have `batchSize` items except the last, which has 1 to `batchSize`; the count is the ceiling of n / `batchSize`; empty input gives none |
| CpuMonitor.CheckAndRestart | src/utils/cpuMonitor.js:55-85 | A failed sample returns 0 and changes nothing. Otherwise the sample is stored and returned: above the limit adds a strike, anything else clears the strikes. Restart iff above the limit with three or more strikes |
| CpuMonitor.GetCurrentUsage | src/utils/cpuMonitor.js:90-92 | Returns the stored usage |
| CpuMonitor.StrikesAreTrailingHighSamples | src/utils/cpuMonitor.js:62-78 | From zero strikes, the strike count is the number of trailing successful samples above the limit |
| CpuMonitor.RunKeepsThreshold | src/utils/cpuMonitor.js:5-9 | Checks never change the default threshold |
| CpuMonitor.RestartIffThreeHighInARow | src/utils/cpuMonitor.js:5-78 | From the initial state, a check asks for a restart iff its sample succeeds and it and the two previous successful samples were above the threshold |
| CpuMonitor.CurrentUsageIsLastSuccess | src/utils/cpuMonitor.js:57-58 | The current usage is the last successful sample, or the old value when every measurement failed |
| MessageScheduler.RunTick | src/jobs/messageScheduler.js:13-40 | Only due messages (pending, scheduled now or earlier) change, and only their status. Each becomes completed, or failed when completing throws. A message whose failed update also throws stops the tick, leaving it and all later messages as they were. Nothing returns to pending |
| MessageScheduler.SecondTickIsIdle | src/services/messageService.js:20-32 | After a tick that did not stop early nothing is due, so a second tick changes nothing |
| ResponseHandler.SendSuccess | src/utils/responseHandler.js:6-12 | A success envelope with the data; message defaults to 'Success' and status to 200 |
| ResponseHandler.SendError | src/utils/responseHandler.js:17-24 | A failure envelope; message defaults to 'Error' and status to 500; the errors key is present iff errors were given |
| ResponseHandler.EnvelopesDistinct | src/utils/responseHandler.js:6-24 | `success` is true in every success envelope and false in every error envelope, so the two never coincide |
| ResponseHandler.DefaultsAreExplicit | src/utils/responseHandler.js:6-17 | Omitting message or status is the same as passing 'Success'/200 or 'Error'/500 |
| ResponseHandler.SendErrorReadBack | src/utils/responseHandler.js:17-24 | Two error envelopes with explicit arguments are equal iff message, status and errors are |
| ResponseHandler.SendSuccessReadBack | src/utils/responseHandler.js:6-12 | Two success envelopes with explicit arguments are equal iff data, message and status are |
| ErrorHandler.StatusOrDefault | src/middleware/errorHandler.js:31 | `err.statusCode \|\| 500`: a non-zero status is kept, else 500 |
| ErrorHandler.MessageOrDefault | src/middleware/errorHandler.js:32 | `err.message \|\| 'Internal Server Error'`: a non-empty message is kept, else the fallback |
| ErrorHandler.HandleError | src/middleware/errorHandler.js:7-35 | First match wins: ValidationError gives 400 with the error messages, and throws when the error has no `errors` object; code 11000 gives 400 'Duplicate entry found'; CastError gives 400 'Invalid ID format'; otherwise the error's own status and message with fallbacks. Only the first branch sends errors |
| ErrorHandler.BranchesPartition | src/middleware/errorHandler.js:14-34 | Every error falls in exactly one of the four branches |
| ErrorHandler.HandleErrorBadRequest | src/middleware/errorHandler.js:14-34 | When a response is sent, its status is 400 iff the error is a validation, cast or duplicate-key error, or its own status is 400 |
| ValidateRequest.Messages | src/middleware/validateRequest.js:11 | One message per error, same order |
| ValidateRequest.Validate | src/middleware/validateRequest.js:7-16 | `next` iff there are no errors; otherwise a 400 'Validation failed' answer listing every message |
| MessageValidator.TimePatternIsClockReading | src/validators/messageValidator.js:23 | The time pattern accepts exactly one- or two-digit hours 0 to 23, a colon and two-digit minutes 00 to 59 |
| MessageValidator.AcceptedTimes | src/validators/messageValidator.js:23 | '14:30', '9:05' and '09:05' match |
| MessageValidator.RejectedTimes | src/validators/messageValidator.js:23 | '25:99', '24:00', '23:60' and '9:5' do not match |
| MessageValidator.MessageErrors | src/validators/messageValidator.js:7-12 | No error iff the message is a non-empty string; an empty one reports 'Message is required' first |
| MessageValidator.DayErrors | src/validators/messageValidator.js:14-18 | No error iff the day is non-empty and ISO 8601; an empty one reports 'Day is required' first |
| MessageValidator.TimeErrors | src/validators/messageValidator.js:20-24 | No error iff the time matches the pattern; an empty one reports both time messages |
| MessageValidator.CreateMessageErrors | src/validators/messageValidator.js:6-25 | No errors iff the message, day and time are all well-formed; each empty field reports its 'required' message |
| MessageValidator.MessageRequestGate | src/validators/messageValidator.js:6-25 | A message request reaches its handler iff the body is well-formed; a time of '25:99' is answered 400 |
| UploadValidator.Extension | src/validators/uploadValidator.js:13 | The lower-cased suffix from the last dot: it starts with the dot and holds no other, or is the whole name when there is no dot |
| UploadValidator.CheckUpload | src/validators/uploadValidator.js:7-20 | No file fails 'File is required'; a file is accepted with `true` iff its extension is allowed, else 'Only CSV and XLSX files are allowed' |
| UploadValidator.NoDotRejected | src/validators/uploadValidator.js:13-17 | A name without a dot is refused, even 'csv' |
| UploadValidator.AllowedSuffixAccepted | src/validators/uploadValidator.js:12-19 | A name ending, up to case, with an allowed extension is accepted |
| UploadValidator.SuffixIsExtension | src/validators/uploadValidator.js:13 | A suffix that lower-cases to a dot followed by dot-free text is exactly the extension the upload validator reads |
| UploadValidator.AcceptedIffAllowedSuffix | src/validators/uploadValidator.js:12-19 | Accepted iff the name, lower-cased, ends with '.csv', '.xlsx' or '.xls' |
| UploadValidator.UpperCaseExtensionAccepted | src/validators/uploadValidator.js:13-19 | 'DATA.CSV' is accepted |
| UploadValidator.InnerExtensionRejected | src/validators/uploadValidator.js:13-17 | 'a.csv.txt' is rejected |
| CsvParser.PathExtension | src/utils/csvParser.js:49 | The lower-cased text after the last dot, which holds no dot and is preceded by one, or the whole path when there is no dot |
| CsvParser.ParseFormat | src/utils/csvParser.js:48-58 | 'csv' goes to the CSV parser and 'xlsx' or 'xls' to the spreadsheet parser, iff; anything else fails 'Unsupported file format…' |
| CsvParser.DotlessPathUsesWholeName | src/utils/csvParser.js:49-52 | A dotless path is classified by its whole text: one named 'CSV' is parsed as CSV |
| CsvParser.DotlessNotesRejected | src/utils/csvParser.js:49-57 | A dotless path named 'notes' fails as unsupported |
| CsvParser.AcceptedUploadParses | src/routes/uploadRoutes.js:15-35 | Any upload whose extension passes the route's filter (the same test as the upload validator's) is stored under a name that the parser dispatches |
| PolicyService.EntriesOfSpec | src/services/policyService.js:88-96 | A user's pushed list has one entry per policy of that user and nothing else |
| PolicyService.UserIds | src/services/policyService.js:84-85 | The grouping keys are the distinct `user_id`s of the policies |
| PolicyService.GroupsFor | src/services/policyService.js:82-122 | Each group has distinct ids, the user's projected fields, its policies, their count and premium sum; groups without a matching user are dropped |
| PolicyService.Insert | src/services/policyService.js:123-125 | Inserting into a list sorted by policy count keeps it sorted and adds exactly the group |
| PolicyService.SortByTotal | src/services/policyService.js:123-125 | Sorting by `totalPolicies`, descending, is a permutation of the groups |
| PolicyService.GetAggregatedByUser | src/services/policyService.js:80-133 | One group per policy owner that exists as a user, sorted by policy count descending; each group carries its user, all of its policies, their count and their premium sum |
| PolicyService.EntriesOfAppend | src/services/policyService.js:88-96 | A user's entries over two policy lists are those of each list, in order |
| PolicyService.SumPremiumAppend | src/services/policyService.js:87 | The premium sum is additive over concatenation |
| PolicyService.GroupGrows | src/services/policyService.js:84-98 | A group's count and premium over two lists of policies are the sums of the two |
| PolicyService.SingleOwnerOneGroup | src/services/policyService.js:80-128 | Policies that all belong to one stored user give exactly that user's group |
| PolicyService.TwoPoliciesOneGroup | src/services/policyService.js:80-128 | Two policies of one user with premiums 1500 and 2000 form one group with 2 policies and 3500 |
| PolicyService.SearchByUsername | src/services/policyService.js:57-75 | An invalid pattern throws its SyntaxError; otherwise a policy is kept iff its user exists and the name matches, with at most the stored policies |
| PolicyService.MatchingPolicies | src/services/policyService.js:59-70 | A policy is kept iff its user exists and the pattern matches the first name |
| PolicyService.SearchKeepsOrder | src/services/policyService.js:59-70 | The search filters in scan order: searching a concatenation concatenates the searches |
| PolicyService.GetAll | src/services/policyService.js:138-151 | The first policies in scan order: all of them for a limit of 0, otherwise at most the limit's absolute value; at most 100 by default |
| PolicyService.ControllerLimit | src/controllers/policyController.js:58 | `parseInt(limit) \|\| 100`: a non-zero parse is kept, anything else becomes 100 |
| PolicyService.EndpointListing | src/controllers/policyController.js:56-62 | The endpoint lists nothing only when no policy is stored, and with limit 1 lists at most one |

## Left out

- Database access, `populate`, `ObjectId` generation, the connection and its closing are not modelled. A collection is a sequence and an id is a position; documents are never deleted here.
- The worker-thread plumbing (`workerData`, `postMessage`, `process.exit`) and the upload controller's event handling are not modelled; the run returns its events instead.
- Concurrency between uploads is not modelled. There is no unique index on natural keys, so uniqueness across concurrent runs is not a property of this code.
- A bulk write that fails part-way is not modelled. A fault aborts its whole stage before any of that stage's writes.
- `new Date`, the clock and date validity are parameters of `Models.Env`. So are `parseInt` and `parseFloat`. Premiums are `real`, so floating-point rounding in sums is not modelled.
- The CPU sample (`os.cpus`, the one-second timer and its division) is an input; the restart (`process.exit` after a timer) is a flag.
- `MessageScheduler.RunTick`: the cron schedule, logging and the database query are not modelled. A query that throws (caught at lines 37-39 of the job) leaves every message unchanged, so it is not a separate case.
- CSV and XLSX decoding are not modelled; only the format dispatch is.
- The express-validator library is not modelled. Its ISO 8601 date test is a parameter, and converting non-string JSON values to text is the `Other` case of `MessageValidator.Value`.
- PolicyService.SearchByUsername: compiling the case-insensitive regex is the parameter `regex`. It is either a matcher on the first name or the SyntaxError message an invalid pattern throws.
- PolicyService.SortByTotal: MongoDB leaves the order of groups with equal `totalPolicies` unspecified. The model's stable insertion sort is one admissible order, and only the ordering by count is stated.
- `getAll` in the four reference services is a plain `find()` returning the whole collection. It is the collection itself here and has no member of its own.
- No LOB or Carrier schema is part of this model, so their services and upserts keep names as given and have no required-name check.
- `Text.ToLower` and `Text.Trim` handle ASCII letters and ASCII whitespace only, not full Unicode case mapping or the complete JavaScript whitespace set.
- CsvWorker.Assemble: only string cells are modelled. A spreadsheet parsed with `sheet_to_json` (`src/utils/csvParser.js:35`) can yield typed cells, such as a boolean `true` for the active flag or a number for a premium; those are left out, and the flag is true exactly for the string 'true'.
- The `createdAt` and `updatedAt` fields that `timestamps: true` adds (`src/models/Agent.js:15-17`, `src/models/User.js:48-50`, `src/models/Policy.js:70-72`) are not modelled. In particular, a bulk upsert that matches an existing document still sets its `updatedAt` (`src/workers/csvWorker.js:109-150`, `src/services/agentService.js:28-36`); the model leaves matched documents unchanged.
- CsvParser.AcceptedUploadParses: it uses the text from the last dot as the stored suffix. `path.extname` differs from this only for a name whose only dot is its first character, which it treats as having no extension.
- A throw from closing the connection after `complete` was posted would post a second, `error`, event; the model assumes closing succeeds.
- Express routing, multer storage, server start-up, logging, constants and the PM2 configuration are not modelled.
