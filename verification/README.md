# What this project proves about the hub

The hub keeps a group's monthly accounts, computes key figures from them and exchanges tables with
people as CSV. Four parts of it are modelled here, together with the promises they exist for.

**Accounting core** (`Accounting*.dfy`). Versions of a month's accounts are created, validated, approved
twice by different roles, published, superseded and rolled back. The tables are a value `Db`; every
public call is a function from `Db` to `Db`, and the class `Workflow` makes the same changes statement
by statement, each method proved equal to its function. The invariants then hold over runs of any calls,
in any order, by anybody. `AccountingRules.dfy` states field by field what each call asks for, in which
order, and what it writes.

**KPI engine** (`Kpi*.dfy`). Expressions over facts, one KPI's calculation, runs and their reuse, the
rows saved, and what the consumer projection shows. The class `Repository` stands in the same relation
to its functions as `Workflow` does. `KpiStates.dfy` and `KpiRuns.dfy` give the exact condition of each
state of a calculation and of each outcome of a call on runs.

**Text codecs** (`Csv*.dfy`, `StoreMatch.dfy`, `Workforce*.dfy`, `StableJson.dfy`, `Json*.dfy`, `HubContext.dfy`,
`Utf8.dfy`, `TextRules.dfy`). Five hand-written CSV readers as one family of automata, and apart from these the
grammar of the texts they take (`CsvGrammar.dfy`); three quoting styles of printer; two forms that go out to
people and come back; the canonical JSON text that is hashed, with a reader for it (`JsonReader.dfy`); and
base64url over UTF-8 (sections 4 and 5 of RFC 4648, section 3 of RFC 3629; strings escaped as in section 7 of
RFC 8259). Text is a sequence of UTF-16 code units here, and of code points in the programs written in Python.
Each reader's loop is a method proved equal to the automaton.

**Validation and promotion** (`Validation*.dfy`, `Mapping*.dfy`, `CanonicalFacts.dfy`). The statement
equations and their tolerance (`ValidationRules.dfy`), the comparison of June with July and its causes, the loops
that count checks, the mapping findings, and the promotion of versioned canonical facts.

`Options.dfy`, `Dates.dfy`, `JsStrings.dfy`, `PyStrings.dfy`, `KeyOrder.dfy`, `InsertionSort.dfy`, `Permutations.dfy` and
`Folds.dfy` hold what these share.

## Where the code does not keep a promise

Each of these is a theorem, with the exact condition under which the promise does hold.

- The label of an accounting version is unique in the whole table but does not name the scope, so a new
  version is refused exactly when another scope already has the same month, kind and number
  (`RefusedForLabel`, `SecondStoreRefused`).
- The context codec loses a leading U+FEFF, because the decoder strips a byte order mark, and turns lone
  surrogates into U+FFFD; on all other text it is the identity (`RoundTripIdentity`).
- An artifact is not read back as printed when a cell holds CR, a row is blank, or the text begins with
  an unquoted U+FEFF (`ArtifactRoundTrip`). Its printer, unlike the others, writes no byte order mark.
- A quoted cell that ends in CR, at the end of a line that ends in a bare LF or with the text, loses that CR
  in the lax reader and not in the strict one; on every other text that the strict one accepts the two agree
  (`LaxRefinesStrict`). They differ on the text `LOSSY` (`ReadersDiffer`), and only ever on texts with a CR
  right before a quote (`ReadersAgree`).
- The strict reader's row limit is not applied behind a quoted cell, so a printed table may have one row more
  if its last cell is quoted, and is refused beyond that (`LimitExactly`).
- A KPI run that fails to get its facts is marked outside any transaction. The mark is lost exactly when the
  first later call that reaches a transaction block fails in it: a request or creation for a key that has a
  queued or running run, or a refused change of the registry. Calls before it that reach no block (a reused
  run, a refused retry) leave the mark pending, and any other call makes it final (`MarkLost`). It does happen
  (`MarkIsLost`), also behind a reused run (`LostBehindReuse`); the run then blocks its own key until it is
  superseded (`ForgottenRunBlocks`).
- A KPI whose numerator or denominator has no known group under its own top-level `code`, as composite
  expressions need not, is evaluated but cannot be saved once it selects a fact: the request crashes
  (`CompositeCrashes`) and leaves its run running and its key blocked (`CrashBlocks`). A request whose key is
  free finishes exactly when its facts project, every definition can be calculated, saved and traced, and no
  two are saved under one code (`EndsExactly`).
- The group that input rows name is the one under the top-level `code` of the expression. For a single group it
  is the one that selects (`Provenance`); an accepted sum may carry the code of another (`OtherGroupNamed`).
- The store review compares keys joined with NUL. It takes something other than a permutation of the export
  exactly when some exported name, in whichever column, holds NUL and no two lines share a key
  (`NulExactly`).
- The review stores its aliases and exclusions in plain objects, so a name that normalises to `__proto__` is
  counted but not stored, and every other one is (`EvidenceRecords`).
- A filled-in headcount form is refused when a candidate's name is not in NFC or holds U+FFFD: the
  template offers such names, the parser does not take them back (`FilledAccepted`).
- The results of `validate_mappings` depend on the order of the facts, beyond being reordered, exactly when
  some key occurs on two sheets (`OrderMatters`): the sheet a duplicate is reported on is that of the later
  fact (`DuplicateNamesTheLater`). The number of duplicates and all mapping findings never do (`OrderFree`).
- The cause given for identical June and July amounts depends on the order in which a set is iterated exactly
  when the confirmed period lies between two July periods of the sheet (`CauseSettled`). The yearly audit looks
  at the first July row instead: the two count the same causes, whatever the order, exactly when no sheet with
  identical months has its July periods on both sides (`CausesAgree`).

## What the models take as given

- Row ids are positions in their tables, so a new id is always fresh; time stamps and the metadata of the
  audit log are left out. Approvals and publications keep the whole actor, where the database keeps the
  id, so that what the actor was allowed to do can be stated.
- Transactions are atomic. The KPI definitions held in memory are rows of their table too. From `schema.sql`
  the model uses the allowed values, the references, the unique index on live publications and on live runs,
  the unique label, and the triggers on published facts. Uniqueness of publications is nevertheless proved from the steps: the index never fires.
- Facts, files, raw values and mappings change by steps of their own (`ImportStep`, `ReferenceStep`,
  `RegistryStep`), which may come anywhere in a run; a change of the KPI registry also commits the open
  transaction, rolls it back or, when only the dictionaries in memory change, leaves it open. What consumers see is the view
  `accounting_consumer_facts`: published facts of the version behind a live publication, within the
  confirmed period of their file.
- Amounts are exact: `Decimal` and JavaScript numbers are `real`, and dates are numbers that order as the
  dates do.
- NFKC, NFC, lower case, white-space removal and `localeCompare` are arbitrary functions; only the
  ordering theorem asks that the comparisons be consistent. The order in which Python iterates a set is
  arbitrary as well. `JSON.stringify` of a number is taken to be an
  injective token of digits, `+`, `-`, `.` and `e`.

## Model

| member | source | states |
|---|---|---|
| `AccountingGuarantees.OneChain` | accounting_core/workflow.py:110-139 | in every reachable state the publications of a scope and month form one chain in insertion order, only its last link is live, and a version is published exactly when it owns that link |
| `AccountingGuarantees.NoSharedPredecessor` | accounting_core/workflow.py:122-136 | over any run, no two publications that follow another one have versions naming the same superseded version |
| `AccountingGuarantees.PublishedProof` | accounting_core/workflow.py:82-139 | over any run, whatever was ever published has exactly one accounting and then one management approval, both positive, reasoned and by the right roles, and was published by an admin; three different people if each has one role |
| `AccountingGuarantees.LiveVersion` | accounting_core/workflow.py:124-127 | a version whose status is published owns the last publication of its scope and month |
| `AccountingInvariants.RunKeeps` | accounting_core/workflow.py:37-178 | the whole invariant (chain, owners, evidence, admins) survives any sequence of calls, accepted or refused |
| `AccountingInvariants.PublishKeeps` | accounting_core/workflow.py:110-139 | publication, the step that rewires the chain, keeps the invariant |
| `AccountingInvariants.ApproveKeeps` | accounting_core/workflow.py:82-108 | a decision keeps the invariant: the approvals of a version always match its status |
| `AccountingInvariants.LiveIsLatest` | accounting_core/workflow.py:117-121 | the active publication the query finds is the last one of its scope and month |
| `AccountingRollback.RunExtends` | accounting_core/workflow.py:66-139 | over any run statuses only move forward, rejected and superseded versions never move again, approvals and audit only grow, facts keep their content |
| `AccountingRollback.RollbackExtends` | accounting_core/workflow.py:141-178 | the same for a whole rollback, at whatever stage it stops |
| `AccountingGuarantees.RollbackNeverConflicts` | accounting_core/workflow.py:122-123 | a rollback never fails on the conflict of active publications |
| `AccountingOutcome.RollbackSucceeds` | accounting_core/workflow.py:141-178 | a rollback goes through if and only if, before it begins, the bad version is known and published, the one to restore known and superseded, all three actors are let in to the scope, roles, reason and label are in order, the restored facts are mapped and the restored file confirms the month; nothing else can stop it half-way |
| `AccountingOutcome.RestoredWasPublished` | accounting_core/workflow.py:150-174 | what a rollback restores was superseded, hence published once, after an accounting and then a management approval: a rollback only republishes what was published before |
| `AccountingOutcome.ReleaseExactly` | accounting_core/workflow.py:172-174 | the two approvals and the publication succeed together if and only if the reason, the three roles and what publication asks for are in order |
| `AccountingGuarantees.RollbackReplaces` | accounting_core/workflow.py:141-178 | a successful rollback publishes one new version in place of the bad one, supersedes the bad one and changes no other version |
| `AccountingGuarantees.RollbackRestores` | accounting_core/workflow.py:158-174 | the new version has exactly the facts of the version restored, in order, all published, behind a live publication |
| `AccountingGuarantees.RejectedRollbackHarmless` | accounting_core/workflow.py:141-178 | a rollback rejected at any stage leaves all publications, earlier versions, facts and everything consumers see as they were |
| `AccountingGuarantees.RollbackStops` | accounting_core/workflow.py:146-174 | a rollback whose checks or whose new version fail stops with that very error, and it is never a conflict |
| `AccountingGuarantees.SeenIsApproved` | accounting_core/schema.sql:101-109 | over any run, consumers see a fact if and only if it is published, its version is, and it lies within the confirmed period of its file; that version then has both approvals and is the only one of its scope and month |
| `AccountingGuarantees.RefusedForLabel` | accounting_core/workflow.py:45-62 | an otherwise valid new version is refused if and only if another scope has its month, kind and number |
| `AccountingGuarantees.SecondStoreRefused` | accounting_core/schema.sql:46-47 | two stores cannot both open a draft for one month |
| `AccountingRules.AccessExactly` | accounting_core/auth.py:21-32 | an actor is let in to a scope if and only if he is trusted, is no employee, and either acts for the whole group from one of four central roles or holds this scope by kind and id |
| `AccountingRules.CreateAsks` | accounting_core/workflow.py:43-62 | creation is refused with the error of the first of its demands not met: an admin let in to the scope, a known type, references that exist, a label nobody has |
| `AccountingRules.NextNumber` | accounting_core/workflow.py:45-48 | the number of a new version is one above the highest of its slot |
| `AccountingRules.CreateWrites` | accounting_core/workflow.py:49-64 | creation appends one imported version with the next number and one audit row, or changes nothing |
| `AccountingRules.ValidateAsks` | accounting_core/workflow.py:67-79 | validation asks, in this order, for role, a known version, its scope, no blocking result and an imported version |
| `AccountingRules.ValidateWrites` | accounting_core/workflow.py:76-80 | validation moves this one version from imported to validated, or changes nothing |
| `AccountingRules.ApproveAsks` | accounting_core/workflow.py:83-107 | a decision asks, in this order, for a reason with something besides white space, a known version, its scope, a known stage, the role and the status of that stage, and a decision the schema admits |
| `AccountingRules.ApproveWrites` | accounting_core/workflow.py:97-108 | a decision moves this one version on at its stage and keeps reason and actor, or changes nothing |
| `AccountingRules.MappedExactly` | accounting_core/workflow.py:217-231 | a fact stands in the way of publication if and only if its raw value exists and the entity of that, or its account as the account of the fact, has no approved mapping |
| `AccountingRules.PublishableAsks` | accounting_core/workflow.py:208-242 | publication asks of a version, in this order, that it is approved by management, has no blocking result, all facts mapped, a month that its unblocked file was detected as, and that the file is confirmed up to it |
| `AccountingRules.PublishAsks` | accounting_core/workflow.py:111-128 | publication asks, in this order, for role, a known version, its scope, a version that may be published, the live one named as superseded, and facts not published before |
| `AccountingRules.PublishWrites` | accounting_core/workflow.py:116-139 | publication adds one live publication that names the one before it, retires that one with its version, publishes version and facts, and changes no other row; or changes nothing |
| `AccountingRules.RollbackAsks` | accounting_core/workflow.py:146-151 | before anything is written a rollback asks, in this order, for two known versions, all three actors let in to the scope of the bad one, and a published bad version with a superseded one to restore |
| `AccountingRules.RollbackWrites` | accounting_core/workflow.py:152-178 | a successful rollback leaves one version with the next number, the slot of the bad one and the file of the restored one, that names both, two approvals and five audit rows, each with its actor and the reason given |
| `AccountingWorkflow.Workflow.constructor` | accounting_core/workflow.py:26-29 | starts from empty tables, which satisfy the invariant |
| `AccountingWorkflow.Workflow.Create` | accounting_core/workflow.py:37-64 | creation changes the tables as the function of the old state says and keeps the invariant |
| `AccountingWorkflow.Workflow.Validate` | accounting_core/workflow.py:66-80 | the same for validation |
| `AccountingWorkflow.Workflow.Decide` | accounting_core/workflow.py:82-108 | the same for a decision; a decision the schema refuses leaves no trace |
| `AccountingWorkflow.Workflow.UpdateFacts` | accounting_core/workflow.py:128 | the update publishes all facts of the version, or aborts exactly when one is published already |
| `AccountingWorkflow.Workflow.PublishTransaction` | accounting_core/workflow.py:116-139 | the transaction replaces the active publication, or leaves every table as it was |
| `AccountingWorkflow.Workflow.PublishVersion` | accounting_core/workflow.py:110-139 | publication with all its refusals, in the order of the code, keeps the invariant |
| `AccountingWorkflow.Workflow.InsertCopies` | accounting_core/workflow.py:159-170 | the loop of a rollback appends one copy per fact of the restored version |
| `AccountingWorkflow.Workflow.RollBack` | accounting_core/workflow.py:141-178 | a rollback, stage by stage, equals its function of the old state and keeps the invariant |
| `KpiPromises.OneCompletedRun` | accounting_kpi/repository.py:117-192 | after any calls at most one run per key is completed, or even live |
| `KpiPromises.RepeatChangesNothing` | accounting_kpi/repository.py:122-132 | a finished run is completed under its key, and the same request returns its id and changes no row |
| `KpiAnswers.DeadStaysDead` | accounting_kpi/consumer.py:56-74 | a superseded result, or one of a run no longer completed, is in no later answer |
| `KpiAnswers.NeverShownAgain` | accounting_kpi/repository.py:160-192 | superseding a run, or deactivating an accounting version, removes its results from every later answer |
| `KpiAnswers.OneRunPerAnswer` | accounting_kpi/consumer.py:95-107 | with one active version, all rows of an answer belong to the run and version its header names |
| `KpiAnswers.AnswerInOrder` | accounting_kpi/consumer.py:56-79 | an answer holds exactly the available results of this entity, scope and period that are not superseded, of a completed run, an active version, a released set and an approved definition (for a store manager, of three codes), each once, in dictionary order of their codes; there is none exactly when there is no such result |
| `KpiAnswers.FinishedIsShown` | accounting_kpi/consumer.py:56-74 | an available result of a finished request is in the next answer for its entity, scope and period once its set is released and its definition approved |
| `KpiMarks.MarkLost` | accounting_kpi/workflow.py:27-39 | whatever is called after a run was marked, the run is superseded if that was asked for, else running again if and only if the first later call that is not idle fails in its block, else failed; all read off the runs as marked |
| `KpiMarks.SettledForGood` | accounting_kpi/repository.py:117-192 | over any calls a run that is not completed and whose mark is not pending keeps its status until it is superseded itself |
| `KpiMarks.LostBehindReuse` | accounting_kpi/workflow.py:27-50 | a witness: a mark still pending behind a reused run is lost by the refusal that follows |
| `KpiMarks.MarkIsLost` | accounting_kpi/workflow.py:27-50 | from empty tables: a crash, a request without facts and a repeat of the first leave the second run running and its key blocked |
| `KpiMarks.ForgottenRunBlocks` | accounting_kpi/repository.py:146-157 | as long as a run left running is not superseded, every request for its key is refused, whatever is called in between |
| `KpiMarks.RefusedExactly` | accounting_kpi/repository.py:122-157 | a request is refused as a duplicate if and only if its key has a queued or running run |
| `KpiRuns.CreatesExactly` | accounting_kpi/repository.py:122-158 | creation reuses the completed run of the key if there is one, refuses the retry of anything but a failed run, is blocked by a queued or running run, and else appends one running run with its attempt number |
| `KpiRuns.RecalculatesExactly` | accounting_kpi/repository.py:133-134 | recalculation supersedes the completed run of the key and goes on as if there had been none; it is never a duplicate |
| `KpiRuns.SupersedesExactly` | accounting_kpi/repository.py:160-172 | superseding changes this run and its results and no other row |
| `KpiRuns.DeactivatesExactly` | accounting_kpi/repository.py:184-192 | deactivating a version supersedes exactly its completed runs and their results |
| `KpiGuarantees.RunAllKeeps` | accounting_kpi/repository.py:117-237 | any sequence of calls keeps one live run per key, results that match their runs, and marks only on failed runs |
| `KpiProvenance.Provenance` | accounting_kpi/repository.py:194-230 | a stored available result is of an approved definition, unless in preview, over approved groups, and is numerator over a positive denominator; its input rows name released facts of the request over which alone each expression evaluates to its amount and those very ids; for a single group they are the facts it selects and add up to the amount; the group they name is the one under the top-level code |
| `KpiOutcome.EndsExactly` | accounting_kpi/workflow.py:17-54 | a request is reused, refused, left without facts, crashed or finished, each if and only if a condition on tables, facts and registry before it holds |
| `KpiOutcome.CalculableExactly` | accounting_kpi/calculator.py:44-127 | a definition can be calculated if and only if both expressions are accepted and, when they are evaluated, no unknown group is come upon before another failure |
| `KpiOutcome.CompositeCrashes` | accounting_kpi/repository.py:217-223 | an expression that selects facts and has no known group under its top-level code makes the request crash |
| `KpiOutcome.CrashBlocks` | accounting_kpi/workflow.py:40-54 | a crash leaves the run running, and every later request for the key is refused until that run is superseded |
| `KpiOutcome.OtherGroupNamed` | accounting_kpi/repository.py:217-230 | a witness: the input rows of an accepted sum name a group that selected none of its facts |
| `KpiStored.SaveAllStores` | accounting_kpi/repository.py:194-230 | saving results one after the other stores each, under the code found for its definition's id, with exactly its own fact ids by role, each naming the group under the expression's code |
| `KpiProvenance.EvaluateNames` | accounting_kpi/calculator.py:117-156 | for every operator the ids returned are those of the facts selected, leaf by leaf |
| `KpiProvenance.EvaluateRestrict` | accounting_kpi/calculator.py:117-156 | leaving out facts that no leaf selects changes neither value, ids, missing groups nor failures |
| `KpiProvenance.AvailableQuotient` | accounting_kpi/calculator.py:59-115 | an available value times its positive denominator is its numerator; definition, or preview, groups and scope are in order and both expressions evaluated without a missing group |
| `KpiProvenance.AvailableRatio` | accounting_kpi/calculator.py:90-115 | over single groups the two are totals of the selected facts |
| `KpiStates.AcceptedExactly` | accounting_kpi/calculator.py:16-32 | the expressions accepted are exactly the documents that write down a tree of groups and operators with the right number of arguments |
| `KpiStates.GroupExactly` | accounting_kpi/calculator.py:125-139 | a group adds up its facts of the basis; without facts it is missing; a fact on another basis, and nothing else, is an error |
| `KpiStates.SelectedExactly` | accounting_kpi/calculator.py:127-134 | a group selects a fact if and only if the account is a member and the period lies in the time the group is in effect |
| `KpiStates.OperatorMeans` | accounting_kpi/calculator.py:140-155 | each operator gives what it is called, by the equation that defines it, with the ids and missing codes of all arguments; only a zero divisor fails |
| `KpiStates.MissingLeaves` | accounting_kpi/calculator.py:125-155 | what an expression misses are exactly the groups occurring in it for which there is no fact |
| `KpiStates.UnevaluatedExactly` | accounting_kpi/calculator.py:59-77 | a result says that its definition or a group is not approved, or the scope does not apply, if and only if that is the first of the three not in order; the missing codes are those of the required groups not approved |
| `KpiStates.EvaluatedExactly` | accounting_kpi/calculator.py:78-95 | otherwise it says basis mismatch, zero divisor or missing component if and only if the expressions evaluate so |
| `KpiStates.DividedExactly` | accounting_kpi/calculator.py:96-115 | with nothing missing the denominator decides: unavailable at zero, an error below, a value above |
| `KpiStates.AvailableExactly` | accounting_kpi/calculator.py:44-115 | a value is available if and only if definition or preview, groups and scope are in order, both expressions evaluate with nothing missing and the denominator is positive |
| `KpiProvenance.ProjectedReleased` | accounting_kpi/core_adapter.py:18-44 | all facts projected are released facts of the version, entity, scope and period asked for |
| `KpiOutcome.ProjectionRefuses` | accounting_kpi/core_adapter.py:25-44 | the projection refuses with the error of the first of its tests that some fact of the request fails, or that there is no such fact |
| `KpiCalculator.AcceptedEvaluates` | accounting_kpi/calculator.py:16-32 | an accepted expression over known groups fails only on a wrong basis or a zero divisor |
| `KpiCalculator.LinearValue` | accounting_kpi/calculator.py:117-156 | a linear expression is the weighted sum over its leaves of the facts they select, and returns just those facts' ids, leaf by leaf |
| `KpiCalculator.LinearAdds` | accounting_kpi/calculator.py:139-155 | splitting the facts splits the value |
| `KpiCalculator.LinearReorders` | accounting_kpi/calculator.py:139-155 | reordering the facts keeps the value |
| `KpiRepository.Repository.Create` | accounting_kpi/repository.py:117-158 | reuse, supersession, retry and insertion as one function of the old state, keeping the invariant |
| `KpiRepository.Repository.Supersede` | accounting_kpi/repository.py:160-172 | the run and all its results are superseded, nothing else changes |
| `KpiRepository.Repository.ObserveVersion` | accounting_kpi/repository.py:174-182 | the projection of the version is inserted or updated |
| `KpiRepository.Repository.DeactivateVersion` | accounting_kpi/repository.py:184-192 | the loop supersedes every completed run of the version |
| `KpiRepository.Repository.Save` | accounting_kpi/repository.py:194-230 | one result, under the code of the first definition with its id, and its input rows are stored together or not at all |
| `KpiRepository.Repository.Run` | accounting_kpi/workflow.py:17-54 | a request, from reuse to completion or failure, equals its function of the old state |
| `CsvReaders.ReadStrict` | portal/management-app/store-csv-requirements.js:84-156 | the strict reader's loop equals the automaton |
| `CsvReaders.ReadLax` | portal/management-app/store-workforce-monthly-summary-csv.js:7-27 | the lax reader's loop equals the automaton |
| `CsvReaders.ReadLocal` | portal/management-app/app-v2.js:1977-1997 | the same for the reader of returned reviews |
| `CsvReaders.ReadEvidence` | portal/js/management-workforce-evidence-status.js:195-219 | the same for the reader of allocation tables |
| `CsvReaders.ReadNormalized` | portal/management-app/dbf-business-data-normalized-csv.js:15-37 | the same for the reader of normalized tables |
| `CsvGrammar.ReadsExactly` | portal/management-app/store-csv-requirements.js:84-156 | for every text and each of the five readers: rows are returned if and only if the text is a table in a grammar that knows no automaton (the lax reader also wants it free of NUL and U+FFFD, the strict one within its limit), and they are the rows that table says; the reader of reviews returns none for a quote left open |
| `CsvGrammar.SpelledRead` | portal/management-app/app-v2.js:1977-1997 | each reader returns, for a table spelled by the grammar, the values of its fields line by line, less the empty rows it drops |
| `CsvGrammar.PrintExactly` | portal/management-app/financial-supplemental-csv.js:46-52 | each printer spells a table that says the rows printed, with quotes where its style wants them |
| `CsvGrammar.ArtifactExactly` | portal/management-app/dbf-business-data-input-adapter.js:41-46 | the artifact is the header and the rows, so spelled, each on a line of its own |
| `CsvGrammar.UnifyExactly` | portal/management-app/dbf-business-data-normalized-csv.js:20 | every CR LF and every bare CR becomes one LF and all other text stays |
| `CsvRoundTrip.ReadPrint` | portal/management-app/financial-supplemental-csv.js:46-97 | for any table and either quoting style, each of four readers returns exactly the printed rows less the empty rows it drops; only the lax one rejects NUL and U+FFFD, only the strict one a table that is too long |
| `CsvRoundTrip.PrintThenRead` | portal/js/management-workforce-evidence-status.js:160-219 | printing and reading a table is the identity if and only if the table survives the reader's filters and is not too long |
| `CsvRoundTrip.LimitExactly` | portal/management-app/store-csv-requirements.js:120-150 | too long means, for the strict reader only, more than 100001 rows, or 100002 if the last cell is quoted |
| `CsvRoundTrip.LinesRefused` | portal/management-app/store-csv-requirements.js:150 | a printed table with a row too many is refused, wherever that row ends |
| `CsvRoundTrip.LinesHold` | portal/management-app/app-v2.js:1999-2001 | apart from punctuation a print holds a character exactly when some cell does |
| `CsvArtifact.ArtifactRoundTrip` | portal/management-app/dbf-business-data-input-adapter.js:41-46 | an artifact is read back as printed if and only if no row is blank, no cell holds CR and the text does not begin with a bare U+FEFF |
| `CsvArtifact.ReadArtifact` | portal/management-app/dbf-business-data-normalized-csv.js:20-36 | without CR, what is read is the printed rows that hold something, less one leading U+FEFF |
| `CsvArtifact.ReadHasNoCr` | portal/management-app/dbf-business-data-normalized-csv.js:20 | no text at all is read into a cell that holds CR |
| `CsvRefinement.LaxRefinesStrict` | portal/management-app/store-workforce-monthly-summary-csv.js:7-27 | the lax reader accepts all the strict one accepts, with as many non-blank rows, and the same ones if and only if no quoted cell loses a final CR |
| `CsvRefinement.NoCrNoLoss` | portal/management-app/store-workforce-monthly-summary-csv.js:20-24 | no CR is lost on a text in which none stands right before a quote |
| `CsvRefinement.ReadersAgree` | portal/management-app/store-workforce-monthly-summary-csv.js:7-27 | on such texts the two readers return the same non-blank rows |
| `CsvRefinement.ReadersDiffer` | portal/management-app/store-workforce-monthly-summary-csv.js:20 | a quoted cell ending in CR before a bare LF is read differently by the two |
| `JsStrings.TrimExactly` | portal/management-app/store-csv-requirements.js:155 | trimming takes away the white space of ECMA-262 at both ends, written out character by character, and nothing else |
| `JsStrings.TrimEmptyIffBlank` | portal/management-app/store-csv-requirements.js:155 | trimming leaves nothing if and only if every character is white space, which is what the filters of blank rows test |
| `CsvRefinement.Simulate` | portal/management-app/store-csv-requirements.js:105-151 | step by step the two automata stay in agreement exactly while no CR has been lost |
| `StableJson.Canonical` | portal/management-app/dbf-business-data-runtime.js:14-20 | two values print to the same text if and only if they are the same up to key order at every depth |
| `JsonReader.CanonicalReads` | portal/management-app/dbf-business-data-runtime.js:14-20 | a reader of the grammar and the escapes of RFC 8259 takes the whole text and returns the value it was printed from, with the names of each object in dictionary order by code units |
| `JsonReader.PrintReads` | portal/management-app/dbf-business-data-runtime.js:14-20 | the same in front of any text that cannot continue a number |
| `KeyOrder.LessExactly` | portal/management-app/dbf-business-data-runtime.js:17 | a name sorts before another if and only if, at the first place where they differ, it ends or has the smaller unit |
| `StableJson.SamePrints` | portal/management-app/dbf-business-data-runtime.js:16-17 | values that differ only in key order print alike |
| `StableJson.ObjectDecodes` | portal/management-app/dbf-business-data-runtime.js:17 | a printed object followed by any text determines the object and the text after it |
| `JsonText.QuotedDecodes` | portal/management-app/dbf-business-data-runtime.js:17-19 | a quoted string followed by any text determines the string and the text after it |
| `HubContext.RoundTrip` | portal/js/hub-context.js:169-184 | decoding what was encoded gives the text less a leading U+FEFF, lone surrogates replaced |
| `HubContext.RoundTripIdentity` | portal/js/hub-context.js:169-184 | it gives the text itself if and only if that is well formed and does not begin with U+FEFF |
| `HubContext.PaddingRestored` | portal/js/hub-context.js:175-180 | for every length the padding restored is the padding stripped |
| `HubContext.AtobBtoa` | portal/js/hub-context.js:175-182 | the base64 pair is the identity on bytes |
| `HubContext.EncodeText` | portal/js/hub-context.js:169-176 | the encoder's loop computes the function the round trip is about |
| `TextRules.EncodedExactly` | portal/js/hub-context.js:169-176 | the encoding is, for every six bits of the UTF-8 text, the character of the base64url alphabet with that number, the last bits filled up with zeros, and nothing behind |
| `TextRules.DecodedExactly` | portal/js/hub-context.js:178-184 | a text without white space and padding signs is decoded if and only if no single character is left over and all are of either alphabet, to the text of its bits taken eight by eight |
| `TextRules.AtobExactly` | portal/js/hub-context.js:181 | the forgiving decoder takes exactly the texts that, without white space, are letters of base64, none left over, and at most two padding signs that make up whole groups, and returns their bits eight by eight |
| `TextRules.BytesExactly` | portal/js/hub-context.js:170 | a scalar value is written as the marks of RFC 3629 with its bits, six to a byte from the end |
| `TextRules.DecodesExactly` | portal/js/hub-context.js:183 | the decoder reads the scalar value whose bytes stand in front; for malformed bytes it replaces the longest beginning of one, or a single byte, by U+FFFD |
| `Utf8.DecodeEncode` | portal/js/hub-context.js:170-183 | the UTF-8 decoder undoes the encoder but for a leading U+FEFF and lone surrogates |
| `StoreMatch.ReviewCsv` | portal/management-app/app-v2.js:1937-1975 | the loop with its map of expected keys equals the review as a function of the rows read |
| `StoreMatch.ReviewAccepts` | portal/management-app/app-v2.js:1937-1975 | a return is evidence if and only if nothing was exported twice, every row has its request and switch as exported and names a known store as another name, or nothing as excluded or confirmed, and the returned triples are a permutation of the exported ones |
| `StoreMatch.AcceptsByKey` | portal/management-app/app-v2.js:1944-1973 | for any names at all, the same in terms of the joined keys |
| `StoreMatch.EvidenceCounts` | portal/management-app/app-v2.js:1957-1974 | the alias and exclusion counts are the numbers of rows so marked, the rest are confirmed |
| `StoreMatch.EvidenceRecords` | portal/management-app/app-v2.js:1957-1974 | the aliases and exclusions handed on are exactly the marked names but `__proto__`, every alias with a known target |
| `StoreMatch.AliasTargets` | portal/management-app/app-v2.js:1960-1964 | each alias leads to the normalised name typed in the last row that marks its store |
| `StoreMatch.RefusedExactly` | portal/management-app/app-v2.js:1940-1973 | a return that is no evidence is refused for its format if and only if header or number of rows is wrong or a row changed in shape comes before any other fault; else it is a mismatch |
| `StoreMatch.ReturnAccepted` | portal/management-app/app-v2.js:1906-1975 | through printer and reader, the export returned in any order is accepted if and only if every answer is a known store as another name, or nothing as excluded or confirmed, and no two lines share a key, which without NUL means that no triple was exported twice |
| `StoreMatch.UntouchedRefused` | portal/management-app/app-v2.js:1906-1923 | the export sent back untouched is refused unless it was empty |
| `StoreMatch.NulExactly` | portal/management-app/app-v2.js:1945-1973 | only permutations of the export are taken if and only if no exported name holds NUL or two lines share a key |
| `StoreMatch.NulConfuses` | portal/management-app/app-v2.js:1945-1953 | a witness: with NUL in a store name a triple that was never exported is accepted |
| `WorkforceTemplate.BuildTemplate` | portal/management-app/store-workforce-monthly-summary-csv.js:114-126 | the template is the print of the kept candidates, sorted, counts left blank |
| `WorkforceTemplate.ParseCsv` | portal/management-app/store-workforce-monthly-summary-csv.js:52-73 | the parser's loop equals the judgement of the rows read, refusals in the order of the code |
| `WorkforceRoundTrip.ParseAccepts` | portal/management-app/store-workforce-monthly-summary-csv.js:52-73 | a text is ready if and only if it reads as the header and 1 to 10000 good rows with distinct keys, and these are listed in order as what they say |
| `WorkforceRoundTrip.RowExactly` | portal/management-app/store-workforce-monthly-summary-csv.js:60-66 | a row is good if and only if it has four cells, a name of 1 to 100 characters in NFC without controls, a month from 2000-01 to 2099-12, two counts below a million, and no more people working than resident; else it is refused for shape, values or counts, in this order |
| `WorkforceRoundTrip.ParseRefuses` | portal/management-app/store-workforce-monthly-summary-csv.js:52-73 | a text that is not ready is refused for the first thing wrong: that it does not read, header, no rows, too many rows, or the first row that is at fault behind good rows with distinct keys |
| `WorkforceRoundTrip.TemplateHolds` | portal/management-app/store-workforce-monthly-summary-csv.js:114-124 | the template lists exactly the first well-formed candidate of each key, trimmed, once, in order; the example if there is none |
| `InsertionSort.SortStable` | portal/management-app/store-workforce-monthly-summary-csv.js:123 | rows that compare equal keep their order |
| `WorkforceRoundTrip.TemplateBlank` | portal/management-app/store-workforce-monthly-summary-csv.js:114-126 | as handed out, the template reads as the header and its rows with both counts blank |
| `WorkforceRoundTrip.FilledAccepted` | portal/management-app/store-workforce-monthly-summary-csv.js:52-126 | filled with valid counts, the template is ready with exactly its rows and counts in order if and only if it has at most 10000 rows, all in NFC and free of U+FFFD |
| `WorkforceRoundTrip.CountReads` | portal/management-app/store-workforce-monthly-summary-csv.js:29-34 | a cell counts as n if and only if its trimmed text is the decimal form of n, below a million |
| `WorkforceRoundTrip.PickExactly` | portal/management-app/store-workforce-monthly-summary-csv.js:115-123 | picking keeps a candidate if and only if it is the first well-formed one of its key |
| `Validation.ValidateRaw` | accounting_core/validation.py:20-77 | the loop over the sheets, with its checks and its comparison of June with July, equals the findings as a function of the rows |
| `Validation.AuditChecks` | accounting_core/year_comparison.py:74-93 | whatever order the sets of sheets and columns are visited in, the count is that of the sorted visit |
| `ValidationOrder.ChecksCounted` | accounting_core/year_comparison.py:74-93 | the checks counted are the pairs of a sheet's column and an equation for the type of the sheet all lines of which are there, each once |
| `Validation.CollectHolds` | accounting_core/validation.py:27-37 | the sheets, and the columns of a sheet, are visited once each and in the order of their code points |
| `Validation.VisitedInOrder` | accounting_core/validation.py:27-37 | a set of names is visited name by name, each before those it precedes in a dictionary by code points |
| `ValidationAudit.AuditCauses` | accounting_core/year_comparison.py:50-74 | whatever order the set of sheets is visited in, the two counts are the numbers of sheets with each cause by their first July row |
| `ValidationAudit.CausesReported` | accounting_core/validation.py:46-76 | the findings of each cause are as many as the sheets that have it by the July period that comes first in the set |
| `ValidationAudit.CausesAgree` | accounting_core/year_comparison.py:65-74 | the findings and the audit count the same sheets as carried forward, in every order of iteration, if and only if on each sheet with identical months all July periods lie on one side of the confirmed period |
| `Validation.FindingsWithinChecks` | accounting_core/year_comparison.py:75-93 | the balance and equation findings among the results never exceed the checks counted on the same rows |
| `Validation.EquationsAre` | accounting_core/validation.py:26-45 | the balance and equation findings among the results, in order, are those of the checks alone |
| `ValidationPeriods.JulyPeriodsExactly` | accounting_core/validation.py:50-53 | the periods from which the cause is taken are the July dates of the sheet's rows |
| `ValidationPeriods.WarnedExactly` | accounting_core/validation.py:46-77 | a sheet is warned about if and only if June has rows and shows the same amounts as July, and then gets exactly one of the two causes, as July lies after the confirmed period or not |
| `ValidationPeriods.CauseSettled` | accounting_core/validation.py:50-55 | the cause does not depend on which July period comes first if and only if all lie on one side of the confirmed period |
| `ValidationBounds.Reported` | accounting_core/validation.py:26-45 | a code is reported for a sheet if and only if one of its checks fails in some column |
| `ValidationRules.ReportedExactly` | accounting_core/validation.py:26-45 | a sheet is reported for one of the six equations, written out line by line, if and only if it is of the type the equation is about and the equation is off by more than its tolerance in some column that has all of its lines |
| `ValidationRules.OnePerColumn` | accounting_core/validation.py:31-45 | a check adds one finding for each such column and none for any other |
| `ValidationOrder.ResultsCounted` | accounting_core/validation.py:26-45 | the results hold, for a sheet and an equation it is checked for, exactly as many findings as there are columns in which the equation is off, and else none |
| `ValidationOrder.ResultsInOrder` | accounting_core/validation.py:28-77 | the findings come sheet by sheet in dictionary order, on a sheet the equations in their order, then the warning about identical months, then its cause |
| `ValidationRules.CellExactly` | accounting_core/validation.py:26 | the amount of a cell is that of the last row for it |
| `ValidationBounds.NetProfitBound` | accounting_core/validation.py:11-45 | on a sheet without findings a full column's net profit is within 2.5 of what its lines work out to |
| `ValidationBounds.BoundIsReached` | accounting_core/validation.py:44 | a statement that passes validation is off by exactly 2.5 |
| `ValidationBounds.BalancedExactly` | accounting_core/validation.py:28-33 | a balance sheet has no finding if and only if both totals agree in every column that has both |
| `Mappings.ValidateMappings` | accounting_core/validation.py:80-110 | the loop with its seen and emitted sets equals the results as a function of the facts |
| `Mappings.DuplicatesCounted` | accounting_core/validation.py:100-109 | the duplicates reported are the keyed facts less the distinct keys |
| `Mappings.FactAdds` | accounting_core/validation.py:84-109 | a fact adds, in this order, one finding for each approval it is the first of its sheet to lack, and one if it agrees with an earlier fact in entity, period, account, statement and context |
| `Mappings.ReportedOnce` | accounting_core/validation.py:86-95 | a sheet is reported once per missing approval if some fact of it lacks that approval, and else not at all |
| `Mappings.OrderFree` | accounting_core/validation.py:80-110 | reordering the facts changes neither the number of duplicates nor any mapping finding |
| `MappingOrder.OrderMatters` | accounting_core/validation.py:80-110 | every reordering of the facts gives the same results, as a multiset, if and only if no two facts on different sheets duplicate each other |
| `MappingOrder.DuplicatesBySheet` | accounting_core/validation.py:100-109 | where no key occurs on two sheets, the duplicates of a sheet are its own keyed facts less its own distinct keys |
| `MappingOrder.ExchangeMoves` | accounting_core/validation.py:100-109 | exchanging two facts of one key on different sheets at the front changes the results, whatever follows |
| `Mappings.DuplicateNamesTheLater` | accounting_core/validation.py:108 | a witness: the sheet named by a duplicate is that of the later fact |
| `CanonicalFacts.PromotesExactly` | portal/management-app/dbf-business-data-contract.js:115-124 | a promotion is refused if and only if the batch is not approved, the row is quarantined, or the grain has an active fact and this is no correction; else the promoted fact is active, next in number, and names the first active fact of the grain, which is retired |
| `CanonicalFacts.RunHistory` | portal/management-app/dbf-business-data-contract.js:115-124 | after any promotions each grain has versions 1 to n, only the last active, each correction naming the fact before it unless its id is empty, and its history is what its own calls alone make of it |
| `CanonicalFacts.OneActive` | portal/management-app/dbf-business-data-contract.js:118-122 | exactly one active fact for each grain ever promoted |
| `CanonicalFacts.GrainsIndependent` | portal/management-app/dbf-business-data-contract.js:115-124 | however calls for other grains are interleaved, a grain's history is the same |
| `CanonicalFacts.NothingRewritten` | portal/management-app/dbf-business-data-contract.js:121-122 | later promotions add versions and retire the last one, and rewrite nothing |
| `CanonicalFacts.ProjectionIsAFunction` | portal/management-app/dbf-business-data-contract.js:126-143 | if month, store and metric determine the grain, the projection shows each store and metric at most once, and exactly what the active promoted facts of the month say whose store is allowed, and asked for, and whose metric is listed, or asked for |
| `CanonicalFacts.ShowsNext` | portal/management-app/dbf-business-data-contract.js:131-142 | the rows come in the order of the facts |

## Left out

- The round trip of the normalized reader with the printers that end lines in CR LF; it is stated for the printer the reader is paired with.
- Values of expressions with `divide` and `absolute` as weighted sums: they are not linear.
- `save_result` and `complete_run` called on their own, outside a request: `complete_run` sets any run completed, so runs with such calls are not claimed to keep one completed run per key, nor what becomes of a mark under them.
- A claim about a rollback whose restored version belongs to another scope or month than the bad one: the code does not compare them.
- The unique key on accounting facts: copies get a new version id and so cannot violate it.
- Severity, message, cause and data state of a validation finding, which its code determines.
- The semantic checks after parsing of the financial, store and allocation tables (dates, ranges, duplicate columns), which are tests of one row or one set.
- The validators and the import preview of the canonical contract, each a list of independent conditions.
- Role and scope checks of the consumer projection, and the rounding of displayed percentages.
- Registering, approving and superseding KPI definitions and groups: the registry changes by arbitrary steps instead.
- Reading spreadsheets and files, decoding file encodings, hashing, sessions, fetching, rendering and the portal's catalogues.
- The hub context object around the text codec: its decoder refuses role keys that its encoder writes, so it does not round trip.
