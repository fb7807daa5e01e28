# Verified model of the sub2api data layer and audit gate

This project models, in Dafny 4.11, four parts of the repository that hold real algorithms, and proves what
they promise for all inputs.

- **Eager loading** (`Joins`, `QueryModel`, `NestedLoop`, `EdgeLaws`, `WindowLaws`, `Rerun`, `Entities`, `Loaders`,
  `EagerLoad`, `EagerTheorems`, `NodeLaws`). The generated query builders fetch the children of all parents with one
  query per edge and join them in memory through maps. Account and account-group queries call each other, so an
  eager-load request is a finite tree. `Entities`, `Loaders` and `EagerLoad` are the code on the heap: node objects
  whose edge fields are assigned in place, builders whose predicate lists grow in place, and the many-to-many,
  many-to-one and one-to-many loaders as loops over maps. `QueryModel` says on values what a run returns and what it
  leaves behind; `NestedLoop` defines the plain nested-loop join and proves that the bulk queries compute it, at every
  level of the tree and whatever columns are selected; `WindowLaws` says exactly when limits and offsets break this,
  and `NodeLaws` which cells a loaded node shows. The edges covered are account to groups, proxy and account groups,
  and account group to account.
- **Bulk create and hooks** (`Hooks`, `BulkCreate`). Mutator i checks builder i, fills slot i and calls mutator
  i + 1; the last one inserts all rows; IDs and done flags are set on the way back. The closures become a
  recursive method over the position. Hooks may forward, refuse, or turn a success into a failure.
- **Fields and upserts** (`AccountFields`, `Upsert`). Defaults, checks, writing a row and reading it back, and
  the options that an upsert accumulates.
- **The audit gate** (`PyText`, `ExceptionFile`, `AuditReport`, `AuditGate`, `Firsts`, `AuditVerdict`, `AuditWaiver`).
  The line parser of the exception list, the extraction of findings from a decoded report, and the decision of `main`,
  up to which file waives which report.

Assumptions about code outside the repository. The database returns the rows of a table that satisfy all predicates,
in table order, then applies OFFSET and LIMIT (zero means no limit), and a join enumerates the groups in table order.
The batch insert needs a spec in every slot and reports keys through the specs. An update set keeps one assignment per
column, where the last write wins, and `DoNothing` overrides all of them. A function-valued default returns the same
value for every builder of one save, so the clock does not move between the `created_at` values of a batch. JSON
documents survive encoding, also when they are decoded into themselves. Lower-casing, `str` of a non-string JSON value
and ISO 8601 dates (calendar dates, section 4.1.2.2 of ISO 8601:2004) are parameters of the audit gate, about which
nothing is assumed. An exception that Python raises inside `main` is the outcome `Raised`, which is never exit code 0.

Results that differ from what one might expect, each with its exact condition:

- The documentation of `UpdateNewValues` calls it equivalent to `OnConflict(sql.ResolveWithNewValues())`. The two
  differ on `created_at`, and only there (`Upsert.NotJustNewValues`), for any complete row that is proposed at
  another time than the stored one (`Upsert.FormsCanDiffer`). The model follows the code.
- A failing bulk save can leave mutations marked as done: exactly when the insert went through and a hook then
  turned the success into a failure (`BulkCreate.AllOrNothing`), as one builder with one such hook shows
  (`BulkCreate.FailureCanLeaveMark`).
- A limit or offset on an edge query counts the children of all parents together; the result is the nested-loop
  join exactly when no window, at any depth of the tree, drops a selected row (`WindowLaws.WindowsExact`). A limit of
  one link already breaks it for two accounts with one link each (`WindowLaws.LimitIsNotPerParent`).
- The gate compares severities only for the first finding of each key. All severities agree exactly when findings
  that share a key with a severity-bearing exception share their severity (`AuditVerdict.SeverityExact`). The order
  of the findings decides the verdict exactly when the exceptions are usable and cover every relevant finding, some
  relevant finding disagrees with its exception's severity, and every key that has a relevant finding also has one
  that agrees (`AuditVerdict.OrderExact`), as a high and a critical finding under a "high" exception show
  (`AuditVerdict.OrderCanDecide`).
- A `via` item that has a GHSA number and a non-zero numeric `source` can be read only while it has a title, a URL or
  an advisory text, because the number is otherwise joined as a title, which raises (`AuditReport.LosingTitleRaises`).
  Exactly which reports cannot be iterated to the end is `AuditReport.RaisesExact`.

## Model

| member | source | states |
|---|---|---|
| `NestedLoop.BulkIsNested` | sub2api/backend/ent/account_query.go:480-540 | for every database with primary keys and every finite tree of the edges account to groups, proxy and account groups, and account group to account, whose windows drop nothing (in particular: without windows, `NestedLoop.UnwindowedWhole`), the bulk queries return exactly the trees of the nested-loop join, whatever predicates and selected columns are used |
| `NestedLoop.LinksAreNested` | sub2api/backend/ent/accountgroup_query.go:379-407 | the account-group half of the mutual recursion, for the account edge: each link carries the account its key finds in the table, or "not found" |
| `WindowLaws.WindowsExact` | sub2api/backend/ent/account_query.go:735-740 | with the primary keys of the schema, for any limits and offsets on the groups, proxy, account-groups and account queries at any depth: bulk loading is the nested-loop join if and only if no window of an edge query drops a row that its query selects |
| `WindowLaws.LinkWindowsExact` | sub2api/backend/ent/accountgroup_query.go:379-407 | the same for the account-group query and the account edge below it |
| `WindowLaws.LimitIsNotPerParent` | sub2api/backend/ent/account_query.go:735-740 | a limit of one link on the edge, with two accounts of one link each, is not the nested-loop join |
| `EagerLoad.AccountQuery.All` | sub2api/backend/ent/account_query.go:480-540 | on the heap: the fresh nodes show, through the edge accessors, the trees of the run, and every edge query is left with exactly the filters that the run appended |
| `EagerLoad.AccountGroupQuery.All` | sub2api/backend/ent/accountgroup_query.go:334-377 | the same for account-group nodes, with the foreign-key column selected whenever the edge needs it |
| `EagerLoad.LoadGroups` | sub2api/backend/ent/account_query.go:542-602 | each node's group list is the list of groups paired with it; the "unexpected node" error cannot occur |
| `EagerLoad.LoadProxy` | sub2api/backend/ent/account_query.go:603-634 | each node gets the fetched proxy its key names, or none; no query and no filter when all keys are nil |
| `EagerLoad.LoadLinks` | sub2api/backend/ent/account_query.go:665-694 | each node gets its children with their own subtrees; the "unexpected foreign-key" error cannot occur although the column selection may have left the key out |
| `EagerLoad.LoadAccount` | sub2api/backend/ent/accountgroup_query.go:379-407 | each link points at the loaded account its key names, with the account's own edges attached |
| `EagerTheorems.LoadNested` | sub2api/backend/ent/account_query.go:480-540 | running the builder yields heap nodes that unfold to the nested-loop join of the database over the four modelled edges, if and only if no edge window drops a row |
| `EagerTheorems.LoadEveryEdge` | sub2api/backend/ent/account_query.go:364-405 | a query built with all modelled edges and run on any database with primary keys: the nodes unfold to the nested-loop join, and no accessor of a node reports "not loaded" |
| `EagerTheorems.RunAgain` | sub2api/backend/ent/account_query.go:42-45 | n + 1 runs on an unchanged database, for trees without a groups edge: every run shows the trees of the first, and exactly n + 1 filters have been added to each of the two edge queries that the run uses |
| `Rerun.AgainAccounts` | sub2api/backend/ent/account_query.go:603-694 | a run of the query that a run left behind returns the same trees, although its edge queries carry more filters |
| `EagerTheorems.FiltersGrow` | sub2api/backend/ent/account_query.go:603-694 | every run leaves one more filter on the links query if it finds a parent, and one more on the proxy query if a parent has a key; whether it does is the same in the next run |
| `EagerTheorems.ProxyReported` | sub2api/backend/ent/account.go:110-117 | on loaded nodes, `ProxyOrErr` never reports "not loaded"; it reports a fetched proxy whose ID is in the row's `proxy_id` cell, and "not found" if and only if there is none; without a dropping window the fetched proxies with that ID are all matching ones |
| `NodeLaws.NodeShowsRow` | sub2api/backend/ent/account_query.go:480-510 | a loaded node has its row's ID and exactly the selected cells of the row, with `proxy_id` added for the proxy edge; the accessors report "not loaded" exactly for the edges that were not asked for |
| `NodeLaws.ChildShowsRow` | sub2api/backend/ent/account_query.go:665-694 | every account group that a node shows is a matching row of that account, with the account's ID in any case and each other column if it is selected |
| `NodeLaws.SelectOne` | sub2api/backend/ent/account_query.go:728-734 | a row is selected exactly when all accumulated predicates hold of it |
| `NodeLaws.SliceExact` | sub2api/backend/ent/account_query.go:735-740 | the window skips the offset and keeps at most the limit, in order |
| `Joins.FirstKeysExact` | sub2api/backend/ent/account_query.go:604-615 | the requested ids are the non-nil keys, each once |
| `Loaders.CollectProxyKeys` | sub2api/backend/ent/account_query.go:604-615 | the loop skips nil keys, requests each key once, and indexes under each key exactly the nodes that have it, in order |
| `Loaders.CollectAccountKeys` | sub2api/backend/ent/accountgroup_query.go:380-388 | the same for the required key of an account group |
| `Joins.WithKeyMembers` | sub2api/backend/ent/account_query.go:605-615 | a node is listed under a key if and only if it has that key |
| `Joins.Partition` | sub2api/backend/ent/account_query.go:655-662 | with distinct parents that include every key, the lists of all parents together hold each child exactly once |
| `EdgeLaws.OwnedExact` | sub2api/backend/ent/account_query.go:576-600 | a node's groups are exactly those paired with it, without duplicates |
| `EdgeLaws.GroupTotal` | sub2api/backend/ent/account_query.go:576-600 | for any join rows, the total number of groups attached is the number of distinct (account, group) pairs |
| `Loaders.AssignProxies` | sub2api/backend/ent/account_query.go:624-632 | for any neighbours and repeated keys: fails if and only if a neighbour was not asked for; otherwise all nodes with a key point at the same, last neighbour of that key |
| `Loaders.AssignLinks` | sub2api/backend/ent/account_query.go:685-692 | for any neighbours and repeated IDs: fails if and only if some key is unknown; otherwise the last node of each ID has its children in order and earlier copies keep an empty list |
| `Loaders.ScanJoin` | sub2api/backend/ent/account_query.go:576-585 | one node per group at its first row, and for each group the set of all owners |
| `Loaders.AssignGroups` | sub2api/backend/ent/account_query.go:592-600 | each node gets the neighbours it owns in their order, whatever order owners are taken in |
| `Loaders.OwnedIsEdge` | sub2api/backend/ent/account_query.go:544-552 | ownership goes to the last node of each ID and follows the join rows exactly |
| `BulkCreate.AccountCreateBulk.Save` | sub2api/backend/ent/account_create.go:1849-1906 | the insert is sent at most once, exactly when there is a builder and all are clear; it carries for every builder, in order, the fields that were set and the field's own default for each other field; which error is returned, a constraint error exactly for a constraint failure of the insert; which mutations are touched; marked mutations read the final key through their node |
| `BulkCreate.Chain.Core` | sub2api/backend/ent/account_create.go:1860-1892 | one link of the chain: error, insert, filled slots, keys and done flags from position i on, nothing else changed |
| `BulkCreate.Chain.Mark` | sub2api/backend/ent/account_create.go:1886-1891 | pointing the mutation at the node before copying the key still lets it read the key |
| `BulkCreate.ChainSucceeds` | sub2api/backend/ent/account_create.go:1860-1905 | the recursive chain succeeds if and only if all builders are clear, the insert succeeds and no hook spoils it |
| `BulkCreate.FirstErrorWins` | sub2api/backend/ent/account_create.go:1865-1874 | the first builder that is not clear determines the error: the one of its first refusing hook, else that of its check |
| `BulkCreate.InsertErrorWins` | sub2api/backend/ent/account_create.go:1877-1885 | a failed insert is reported unchanged through all hooks |
| `BulkCreate.SpoilErrorWins` | sub2api/backend/ent/account_create.go:1886-1905 | when only hooks fail after the insert, the error is that of the innermost such hook of the last builder that has one |
| `BulkCreate.AllOrNothing` | sub2api/backend/ent/account_create.go:1883-1891 | a failing save leaves a mark if and only if the insert succeeded and a hook spoilt the success; marks form a suffix |
| `BulkCreate.FailureCanLeaveMark` | sub2api/backend/ent/account_create.go:1883-1891 | this happens, for any builder that passes its check and has one hook that fails after the insert |
| `Hooks.Client.WithHooks` | sub2api/backend/ent/ent.go:542-573 | a nil hook at any position means nothing is entered or executed; otherwise the trace and the error are those of the composition |
| `Hooks.AroundSucceeds` | sub2api/backend/ent/ent.go:558-567 | success if and only if no hook refuses, none spoils and the operation succeeds; otherwise which error wins |
| `Hooks.ForwardTrace` | sub2api/backend/ent/ent.go:558-564 | forwarding hooks are entered in order, the operation runs once, and they are left in reverse order |
| `Hooks.ForwardEvents` | sub2api/backend/ent/ent.go:558-564 | event by event: hook i is the i-th to be entered and the i-th from last to be left, with the operation in the middle |
| `Hooks.ExecCount` | sub2api/backend/ent/ent.go:549-564 | the operation runs at most once, and exactly once when no hook refuses |
| `BulkCreate.AccountCreate.Defaults` | sub2api/backend/ent/account_create.go:451-505 | the method keeps every set field, gives every other field it sets its own default, and reports the field as the specification of the ten steps says |
| `AccountFields.DefaultsFill` | sub2api/backend/ent/account_create.go:451-505 | which fields are set afterwards and to what; defaults stop exactly when one of the ten is neither set nor has a default, and then at the first such field in the source's order |
| `AccountFields.DefaultsIdempotent` | sub2api/backend/ent/account_create.go:451-505 | defaults never overwrite a set field, and a second run changes nothing and stops at the same field, if any |
| `AccountFields.CheckExact` | sub2api/backend/ent/account_create.go:508-574 | the sequence of checks passes if and only if all required fields are set and all present validated fields are valid |
| `AccountFields.CheckNames` | sub2api/backend/ent/account_create.go:508-574 | which field the validation error names, for every mutation, in the source's order |
| `AccountFields.DroppedErrorHarmless` | sub2api/backend/ent/account_create.go:1859-1867 | when defaults fail, the check fails too; when they succeed, only name, platform, type and the validators are left to decide |
| `AccountFields.CreateThenRead` | sub2api/backend/ent/account_create.go:594-744 | scanning the stored row with any column list and assigning the result rebuilds the created node's columns restricted to that list |
| `AccountFields.ReadCreated` | sub2api/backend/ent/account.go:138-367 | the same of the methods: allocating targets, scanning a created row into them and assigning them in place never fails and leaves a new node with exactly the created columns that were asked for |
| `AccountFields.NeverWrongType` | sub2api/backend/ent/account.go:138-159 | for every column list, the assignment accepts the types that were allocated for scanning |
| `AccountFields.AccountRecord.AssignValues` | sub2api/backend/ent/account.go:163-367 | the loop in place equals the left-to-right assignment, where a JSON column is decoded into the document that the node already holds; on an error exactly the columns before the faulty one have been assigned |
| `AccountFields.AssignExact` | sub2api/backend/ent/account.go:169-367 | one arm of the switch fails exactly on a target of another type or on a JSON text that does not decode; a null ID is zero, another null changes nothing, and JSON goes into the document that is held |
| `Upsert.LastOptionDecides` | sub2api/backend/ent/account_create.go:1259-1294 | what a statement does to a column is what the last option that touches the column says |
| `Upsert.CreatedAtKept` | sub2api/backend/ent/account_create.go:1259-1294 | for any sequence of calls the conflicting row keeps `created_at`, unless the last call that touches it assigns it explicitly; then that assignment takes effect |
| `Upsert.TypedKeepsCreatedAt` | sub2api/backend/ent/account_create.go:1259-1294 | with the typed setters alone `created_at` is kept in every case |
| `Upsert.NotJustNewValues` | sub2api/backend/ent/account_create.go:1251-1267 | the raw option agrees with `UpdateNewValues` on every column but `created_at`, which it overwrites |
| `Upsert.FormsCanDiffer` | sub2api/backend/ent/account_create.go:1251-1267 | the two forms give different `created_at` cells for a complete row proposed at any other time than the stored one |
| `Upsert.AccountUpsert.Statement` | sub2api/backend/ent/account_create.go:1979-1989 | the statement, built from the mutations as they are when it is sent, does to every column what the last call that decides it says; it is suppressed exactly after a `DoNothing` |
| `Upsert.CellExact` | sub2api/backend/ent/account_create.go:1259-1294 | every cell of the conflicting row after any sequence of calls: kept, replaced by the proposed value, assigned, cleared or increased, as the last deciding call says |
| `Upsert.CallsDecide` | sub2api/backend/ent/account_create.go:1259-1294 | the options that the calls accumulate say about every column what the calls decide, `created_at` included |
| `Upsert.TypedSetter` | sub2api/backend/ent/account_create.go:1295-1320 | a typed Set, Clear or Add call, as the last one, sets, clears or increases its cell |
| `Upsert.StatementKeepsCreatedAt` | sub2api/backend/ent/account_create.go:1979-2016 | the bulk form: with checked mutations `created_at` is left alone unless an explicit assignment decides it, and then that assignment is what the statement does |
| `ExceptionFile.ParseExceptions` | sub2api/tools/check_pnpm_audit_exceptions.py:23-48 | the loop computes the state machine's entries, or raises where it does |
| `ExceptionFile.RoundTripText` | sub2api/tools/check_pnpm_audit_exceptions.py:12-48 | parsing the text of printed entries returns the entries, with each value unquoted or in either quote, any line terminator and with or without one at the end, any indentation, and blank lines, comments and header lines anywhere; quoted values may hold any characters but line breaks |
| `ExceptionFile.UnquoteExact` | sub2api/tools/check_pnpm_audit_exceptions.py:15-19 | exactly one pair of equal quotes is taken off, and any other value is kept |
| `ExceptionFile.SplitPadded` | sub2api/tools/check_pnpm_audit_exceptions.py:12-20 | a line is split at its first colon, and white space around key and value does not matter |
| `ExceptionFile.NeutralSkipped` | sub2api/tools/check_pnpm_audit_exceptions.py:30-33 | blank lines, comments and the two header lines change nothing |
| `ExceptionFile.LooseLineSkipped` | sub2api/tools/check_pnpm_audit_exceptions.py:43-45 | nor do lines before the first item, or lines without a colon |
| `ExceptionFile.PrintedDressed` | sub2api/tools/check_pnpm_audit_exceptions.py:27-47 | the printed lines themselves are such a text |
| `ExceptionFile.ParseAppend` | sub2api/tools/check_pnpm_audit_exceptions.py:25-48 | parsing is compositional at every item line, errors included |
| `ExceptionFile.OneRecordPerItem` | sub2api/tools/check_pnpm_audit_exceptions.py:34-47 | the parser raises if and only if an item line has no colon; otherwise there is one entry per item line and none is empty |
| `PyText.StripExact` | sub2api/tools/check_pnpm_audit_exceptions.py:15-20 | stripping returns a text if and only if it is trimmed and the line is that text between two runs of white space; a blank line gives the empty text |
| `PyText.SpacesListed` | sub2api/tools/check_pnpm_audit_exceptions.py:28 | the 29 characters that are white space |
| `AuditReport.IterVulns` | sub2api/tools/check_pnpm_audit_exceptions.py:64-111 | the loops compute the findings in order, or raise where the specification does |
| `AuditReport.FindingsExact` | sub2api/tools/check_pnpm_audit_exceptions.py:64-111 | a finding is yielded if and only if an advisory record says it, field by field (`module_name` or else `name`, `severity`, the first true of seven identifiers), or a vulnerability record says it under its key and severity through the first true identifier of one of its `via` items |
| `AuditReport.AdvisoryExact` | sub2api/tools/check_pnpm_audit_exceptions.py:51-79 | the finding of an advisory record, or that it raises, read off the record's fields |
| `AuditReport.ViaExact` | sub2api/tools/check_pnpm_audit_exceptions.py:86-109 | the identifier of a `via` item and whether its title can be joined, read off the item's fields |
| `AuditReport.DocumentOrder` | sub2api/tools/check_pnpm_audit_exceptions.py:67-111 | finding i comes from advisory record i, and the findings of the vulnerability records follow |
| `AuditReport.VulnOrder` | sub2api/tools/check_pnpm_audit_exceptions.py:80-111 | vulnerability records are read one after the other, raising included |
| `AuditReport.ViaOrder` | sub2api/tools/check_pnpm_audit_exceptions.py:86-111 | so are the items of a record |
| `AuditReport.TruthyExact` | sub2api/tools/check_pnpm_audit_exceptions.py:53-61 | what counts as false in a chain of `or` |
| `AuditReport.StableAdvisoryId` | sub2api/tools/check_pnpm_audit_exceptions.py:51-61 | the identifier of a record does not depend on any field behind the one that settles it, in the order GHSA number, URL, first CVE, numeric id, title, texts |
| `AuditReport.RaisesExact` | sub2api/tools/check_pnpm_audit_exceptions.py:51-111 | reading raises if and only if the report is no object, an advisory record is no object or reaches a `cves` that cannot be indexed, or a vulnerability record is no object or has a `via` item whose kept title is no text |
| `AuditReport.StableFindings` | sub2api/tools/check_pnpm_audit_exceptions.py:64-111 | two reports that agree, record by record and `via` item by `via` item, on package, severity and the identifiers down to the one that settles: if the first can be read, the second yields the same findings, unless joining the titles of some `via` list raises there |
| `AuditReport.LosingTitleRaises` | sub2api/tools/check_pnpm_audit_exceptions.py:88-108 | this does happen: dropping the title of a `via` item with a GHSA number and a numeric source makes a readable report raise |
| `AuditGate.BuildIndex` | sub2api/tools/check_pnpm_audit_exceptions.py:153-185 | the index is complete and sound, and no error is counted if and only if all exceptions are well formed with distinct keys |
| `AuditGate.CheckFindings` | sub2api/tools/check_pnpm_audit_exceptions.py:189-219 | no complaint is counted if and only if every relevant finding is covered and the first of each key fits; de-duplication loses nothing for existence and expiry |
| `AuditGate.Gate` | sub2api/tools/check_pnpm_audit_exceptions.py:142-243 | exit code 0 if and only if the quantified promise `Passes` holds of exceptions and findings; raises exactly when reading does |
| `AuditVerdict.ExceptionOrder` | sub2api/tools/check_pnpm_audit_exceptions.py:156-185 | the verdict is invariant under permuting exceptions |
| `AuditVerdict.OnlyExpiryFails` | sub2api/tools/check_pnpm_audit_exceptions.py:216-219 | passing is antitone in time, and a later failure comes from an exception that ran out in between |
| `AuditVerdict.MoreFindings` | sub2api/tools/check_pnpm_audit_exceptions.py:192-219 | appending findings never turns a failing run into a passing one |
| `AuditVerdict.SeverityExact` | sub2api/tools/check_pnpm_audit_exceptions.py:203-215 | a passing run's severities all agree with the exceptions if and only if the findings are consistent |
| `AuditVerdict.OrderExact` | sub2api/tools/check_pnpm_audit_exceptions.py:192-219 | for any exceptions and findings: every permutation of the findings has the same verdict if and only if the exceptions are unusable, some relevant finding is uncovered, all relevant findings agree in severity, or some key has no agreeing finding; consistent findings are a case of it |
| `Firsts.OrderFreeExact` | sub2api/tools/check_pnpm_audit_exceptions.py:198-215 | judging a list by the first relevant element of each key is the same in every order if and only if every relevant element is good or some key has no good element |
| `AuditVerdict.ConsistentPasses` | sub2api/tools/check_pnpm_audit_exceptions.py:192-219 | with consistent findings a run passes if and only if the exceptions are usable, every relevant finding is covered and every severity agrees |
| `AuditVerdict.OrderCanDecide` | sub2api/tools/check_pnpm_audit_exceptions.py:203-215 | the order can decide: on any day up to the expiry of a "high" exception, a high and a critical finding of its advisory pass in one order and fail in the other |
| `AuditVerdict.MatchIgnoresPaddingAndCase` | sub2api/tools/check_pnpm_audit_exceptions.py:119-131 | exception and finding have the same key if and only if they match up to padding of both parts and case of the advisory, with the package name's case kept, for text and non-text values |
| `AuditVerdict.WellFormedExact` | sub2api/tools/check_pnpm_audit_exceptions.py:157-175 | an exception is usable by itself if and only if its five required fields are filled, its date is a date, and its package and advisory are not blank |
| `AuditVerdict.RelevantExact` | sub2api/tools/check_pnpm_audit_exceptions.py:189-196 | a finding counts if and only if it is named and its severity is high or critical up to padding and case; a true severity that is no text raises |
| `AuditVerdict.ExcuseExact` | sub2api/tools/check_pnpm_audit_exceptions.py:203-219 | an exception excuses a finding of its key up to and including its date, and agrees with it when the severities are equal up to padding and case |
| `AuditWaiver.UnwaivedFails` | sub2api/tools/check_pnpm_audit_exceptions.py:189-222 | one named high or critical advisory record with a GHSA number makes the run fail unless some exception concerns it |
| `AuditWaiver.WaiverWorks` | sub2api/tools/check_pnpm_audit_exceptions.py:142-243 | from both files to a passing run: a printed exception, in any quoting and layout, waives the record it concerns up to the day on which it expires |
| `AuditVerdict.LooksDecide` | sub2api/tools/check_pnpm_audit_exceptions.py:189-219 | the verdict depends on findings only through their normalised key, their normalised severity and whether they are named |
| `AuditVerdict.StableVerdict` | sub2api/tools/check_pnpm_audit_exceptions.py:52-61 | when only titles, texts and less preferred identifiers change between two reports, the later one gets the same verdict, and it can be read if and only if the titles of every `via` list can still be joined |

## Left out

- EagerLoad.AccountQuery.All: the usage-logs edge, explicit ordering, DISTINCT, row locks, traversal paths and interceptors are not modelled; selected columns are always valid columns, so `prepareQuery` never fails; queries do not fail in the driver; a groups query in the tree must not have been run before, because each run adds another join of the same table to it and what two such joins select and scan is decided inside the SQL library.
- EagerLoad.AccountGroupQuery.All: the same, for the groups queries below the account edge; the group edge is not modelled.
- EagerLoad.LoadGroups: the groups query must not have been run before, for the same reason.
- EagerLoad.LoadLinks: the same, for the groups queries below it.
- EagerLoad.LoadAccount: the same, for the groups queries below it.
- EagerTheorems.LoadNested: the same, for all groups queries in the tree.
- EagerTheorems.RunAgain: trees with a groups edge are excluded, because the second run would find them joined; filters below the top level are not counted.
- Rerun.AgainAccounts: trees with a groups edge are excluded, for the same reason.
- NestedLoop.BulkIsNested: the usage-logs edge of accounts and the group edge of account groups have no place in the trees; their loaders repeat the one-to-many and many-to-one loops of the modelled edges.
- NestedLoop.LinksAreNested: the group edge of account groups, likewise.
- Hooks.Client.WithHooks: hooks that replace the mutation, call the next mutator more than once or hide an error are not modelled; in the bulk chain, where `check` runs before the mutation is written back, a hook that passes on another mutation would have the first one checked and the second one inserted.
- BulkCreate.AccountCreateBulk.Save: a nil hook in the bulk path is a Go panic and is not modelled; edge rows of the insert are not modelled beyond the proxy key.
- Upsert.CreatedAtKept: conflict options passed by hand to `OnConflict`, other than conflict targets, are covered only by `Upsert.LastOptionDecides` and `Upsert.NotJustNewValues`.
- AuditGate.Gate: error messages, titles, argument parsing and file access are not modelled; JSON decoding is given as a value.
- AccountFields.CreateThenRead: the database is taken to store null for every column that the insert does not name.
- The edges of groups and proxies themselves: the groups and proxy queries are leaves of the tree.
- The Announcement/AnnouncementRead and APIKey queries repeat the loops of the modelled ones with other names.
- `APIKeyCreateBulk.Save` and the single-row `Save` repeat the modelled chain, defaults and checks with other fields.
- Interceptors, `Clone`, GroupBy and Select scanning, update and delete builders, printers and panic variants.
