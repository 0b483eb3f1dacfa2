# Verified model of the ape-dts console and connector core

This project models, in Dafny, the parts of ape-dts whose correctness depends on whole runs or on every input, and proves
properties of those models. Everything is stated for all inputs, all reachable states or all runs; where a property the
code suggests turns out false, a lemma gives a concrete input and another gives the exact condition under which it holds.
The statements are about the model. Where the code and its comments disagree, the model follows the code.

`dafny verify dfyconfig.toml` verifies the whole project.

| files | what they hold |
|---|---|
| `Alerts`, `AlertPairs` | the alert engine as a transition system over one shared state (alert table, dwell trackers, heartbeats, silence window), its invariant, and its projection on one (rule, task) pair |
| `Simulator`, `AlertRefinement` | the single-pass rule simulator, and the proof that the engine refines it |
| `AlertDwell`, `AlertLifecycle`, `Heartbeat` | when a pair fires over whole runs, the life of an alert, the stall machine |
| `AlertRules` | which values fire and recover under each operator, and the rows and events this leaves |
| `AlertEngine` | the engine as a class whose handlers update that state in place, each proved to perform its steps |
| `Sql`, `QueryBuilder` | statement shapes with separate placeholder and bind lists, their meaning on a table, and the builders |
| `BindAlignment`, `WriteStrategies` | which bind a placeholder reads; that all ways of writing a batch leave the same table |
| `RowStatements` | what the single-row insert, update, delete and select do to a table |
| `Glob`, `Filter`, `Router` | pattern translation, the filter with its verdict cache, routing and its reverse |
| `Strings`, `Json`, `Redaction`, `Secrets` | splitting text at a character; JSON values; redacting and restoring secrets; what is secret, and that it does not show |
| `Ini`, `IniValues`, `IniKeys`, `IniRedaction` | rendering a task to INI text; what its lines say; that no key is written twice; redacting that text |
| `ExtractorEdits`, `Resume`, `TwoPhase` | rewriting a task for a resumed run, and for the two phases of a snapshot-and-cdc run |
| `RateLimit`, `Idempotency`, `PortPool` | the login rate limiter, the idempotency cache, the metrics port pool with restart reconciliation |

## What the proofs found

- A stall alert that an operator clears stays tracked, so a task that goes on being stale raises no other until it was fresh
  once (`Heartbeat.CheckOutcome`, `Heartbeat.StallFollowsSteps`).
- A user rule on the metric `cdc_stalled` shadows the stall alert, because the stall lookup goes by metric name
  (`Heartbeat.RuleCanHideStall`; `Heartbeat.CheckOutcome` is the exact condition per evaluation).
- A heartbeat recovery turns a cleared stall alert back into a recovered one; no other step moves a cleared alert
  (`AlertLifecycle.ClearedLeaves`; `AlertLifecycle.ClearedReopens` is a run that does it).
- On PG-like databases a NULL id column in front of a non-NULL one shifts every later placeholder past its bind
  (`BindAlignment.WhereAligned`, `BindAlignment.UpdateAligned`, with a row in `BindAlignment.NullFirstMisses`). The batch builders number placeholders for the full batch
  size even when fewer rows are left (`BindAlignment.BatchAligned`, `BindAlignment.KeyBatchAligned`, with a batch in
  `BindAlignment.ShortBatchMisses`). In both cases the
  misaligned statement reads past its binds, so it is refused rather than run with wrong values.
- A batch replace on GaussDBMySQL is a plain insert: it fails on any stored key, so a batch that went through fails when it
  is sent again (`WriteStrategies.GaussMySqlBatch`, `WriteStrategies.GaussMySqlRetryFails`).
- An ignore entry made only of `?`, and the escaped `*`, make `filter_schema` drop a schema some of whose tables
  `filter_tb` keeps, unless a sound entry takes the whole schema as well (`Filter.SchemaLawExact`,
  `Filter.OptionalIgnoreBreaks`, `Filter.EscapedIgnoreBreaks`). A table name with a line break is kept too
  (`Filter.LoneIgnoreKeeps`).
- Adding a filter entry after a lookup can leave a stale verdict (`Filter.AddStaleness`, `Filter.StaleAfterAdd`).
- A value with a line break is redacted as several lines: the later lines of a secret stay readable. Redaction commutes
  with rendering exactly when every pair redacts cleanly, which for a secret means that its value is one line
  (`IniRedaction.RedactionCommutes`, `IniRedaction.CleanByKey`, `IniRedaction.LineBreakShows`,
  `IniRedaction.PasswordBreaks`).
- Idempotency keys and limiter keys join their parts with colons. Two requests share an entry exactly when they fall into
  the same parts at their colons (`Idempotency.ScopedKeyShared`, `Idempotency.ScopedKeyAlone`, `RateLimit.KeyShared`).
- A dead run recorded with a live run's port frees that port at restart (`PortPool.SharedPortFreed`).
- A two-phase task written with the camel-case `extractType` key renders both phases as `snapshot_and_cdc`
  (`TwoPhase.CamelCaseDefeatsPhases`).
- The rate limiter's comments speak of the rest of the window; the code keeps an exhausted window closed for
  `window_secs + block_secs`, and the model follows the code.

## Model

| member | source | states |
|---|---|---|
| AlertPairs.TrackerKeyClash | dt-console-server/src/alert_engine.rs:280-284 | two pairs that share the ambiguous tracker key `task:rule` and the rule id are one pair, so the inner map keyed by rule id keeps dwell state of distinct pairs apart |
| AlertPairs.PointOwn | dt-console-server/src/alert_engine.rs:248-377 | evaluating a point acts on its own (rule, task) pair as a two-variable machine, and the events are exactly that machine's outcome |
| AlertPairs.PointOther | dt-console-server/src/alert_engine.rs:248-377 | evaluating a point changes no other pair |
| AlertPairs.CheckOther | dt-console-server/src/alert_engine.rs:384-473 | a heartbeat evaluation changes no (rule, task) pair |
| AlertPairs.ClearPair | dt-console-server/src/alert_handlers.rs:267-298 | clearing an alert resets exactly the pair whose firing alert it is |
| AlertPairs.RunKeepsInv | dt-console-server/src/alert_engine.rs:248-473 | over every interleaving of ticks, heartbeat evaluations and clears: at most one firing alert per (rule, task), a firing pair has an empty dwell tracker, and tracked stall ids name stall alerts of their task |
| Simulator.EvaluateNow | dt-console-server/src/alert_rule_handlers.rs:262-346 | the simulator loop: fails exactly on an unknown operator or an empty metric name, otherwise returns the recursive reference run over the stamped points |
| AlertRefinement.RunRefinesSimulator | dt-console-server/src/alert_engine.rs:248-377 | in every run without clears, a pair's state and its Firing/Recovery events are the simulator's on the pair's own points |
| AlertRefinement.TickPairPoints | dt-console-server/src/alert_engine.rs:268-281 | a tick over any rules with distinct ids shows an enabled rule exactly its metric's points of the task, in order, and a disabled one none |
| AlertRefinement.TicksRefineEvaluateNow | dt-console-server/src/alert_rule_handlers.rs:272-340 | for every tick sequence from the empty state, any dwell and any rule, enabled or not, the engine's events on one (rule, task) equal what `evaluate_now` emits for that task's points stamped with their tick times |
| AlertRefinement.DisabledIsSilent | dt-console-server/src/alert_engine.rs:268-272 | over every tick sequence a disabled rule raises and recovers nothing |
| AlertDwell.FoldIsDwell | dt-console-server/src/alert_engine.rs:109-136 | the tracker machine agrees with a history-only definition: firing, and otherwise the start of the current violation streak since the last non-violation, fire or clear |
| AlertDwell.PairStepDecides | dt-console-server/src/alert_engine.rs:280-372 | a pair fires at a point exactly when it is not firing and violation has held at every one of its points since one at least `dwell_secs` earlier |
| AlertDwell.DwellSoundAndComplete | dt-console-server/src/alert_engine.rs:280-372 | the same for the whole engine over every run with nondecreasing time, clears included: a Firing event is emitted iff the history says so, the table holds a firing alert iff the history says so, and then the tracker is empty |
| AlertLifecycle.RunMoves | dt-console-server/src/alert_engine.rs:286-371 | between any two moments of any run a rule alert only moved firing to recovered to cleared or firing to cleared, no row disappears, and nothing but status and stamps changes |
| AlertLifecycle.ReclearIsNoop | dt-console-server/src/alert_handlers.rs:267-298 | clearing a rule alert that was cleared at any earlier moment changes nothing and emits nothing |
| AlertLifecycle.ClearTwiceIsOnce | dt-console-server/src/alert_handlers.rs:267-298 | a second clear of any alert keeps the first one's user and time |
| AlertLifecycle.ClearedLeaves | dt-console-server/src/alert_engine.rs:450-469 | a cleared alert changes status in exactly one case: its own task's heartbeat, still tracking it, is evaluated and is not stale |
| AlertLifecycle.ClearedReopens | dt-console-server/src/alert_engine.rs:450-469 | a run from the empty state in which a cleared alert becomes recovered |
| AlertLifecycle.EventsTellTheTable | dt-console-server/src/alert_engine.rs:286-371 | over every run each rule alert id has exactly one Firing event, one Recovery iff it has a recovery stamp, and one Cleared iff it is cleared |
| AlertRules.FiresByOperator | dt-console-server/src/alert_engine.rs:71-84 | without dwell, a point of a pair with no firing alert raises one iff its value is beyond the threshold under the rule's operator, each comparison spelt out; an unknown operator never fires |
| AlertRules.RaisedAlert | dt-console-server/src/alert_engine.rs:286-344 | whatever the dwell, such a point leaves the table as it was or adds one row, with every field given, and emits the one event of that row; inside the silence window both are marked silenced |
| AlertRules.RecoversByOperator | dt-console-server/src/alert_engine.rs:86-100 | with a recovery threshold, a firing pair recovers iff the value no longer violates and is strictly past that threshold, for each operator |
| AlertRules.RecoversAtThreshold | dt-console-server/src/alert_engine.rs:86-100 | without one, it recovers iff the value no longer violates |
| AlertRules.RecoveredAlert | dt-console-server/src/alert_engine.rs:345-371 | recovery changes status and time of the firing row and nothing else, and emits its event |
| AlertRules.UnstampedFireAtIndex | dt-console-server/src/alert_rule_handlers.rs:272-285 | points without timestamps count as one second apart: values above the threshold fire once, at the index that equals the dwell |
| Heartbeat.TrackerTableEventsAgree | dt-console-server/src/alert_engine.rs:145-187 | in every run, clears included, CdcStalled/CdcRecovered strictly alternate with matching ids and only the tracked stall alert of a task can be firing; without clears it is |
| Heartbeat.BeatsAreLast | dt-console-server/src/alert_engine.rs:145-167 | the tracker's time is the latest update of that task |
| Heartbeat.CheckOutcome | dt-console-server/src/alert_engine.rs:384-473 | in every run, clears included: after an evaluation a stall alert stands iff the task is stale and either one stood already, or none is tracked and none shadows it; and none is tracked iff the task is fresh, or none was and one shadows it |
| Heartbeat.EvaluationJudges | dt-console-server/src/alert_engine.rs:384-473 | after a heartbeat evaluation a listed task is stale iff its last stamp, of this batch or before, is more than the threshold old; an unlisted task keeps its verdict |
| Heartbeat.StallRows | dt-console-server/src/alert_engine.rs:401-470 | the row, tracker entry and event of each branch of one staleness evaluation: raised, already known, recovered, nothing to do |
| Heartbeat.StallFollowsSteps | dt-console-server/src/alert_engine.rs:384-473 | with no user rule on `cdc_stalled`, after every run the stall alert of a task stands, is dismissed or is not tracked exactly as read from the steps: raised by the first stale evaluation, dismissed by a clear, over at the first fresh one |
| Heartbeat.StalledExactlyWhenStale | dt-console-server/src/alert_engine.rs:384-473 | with no clears and no user rule on `cdc_stalled`, after every run a firing stall alert exists exactly when the task was stale at its latest evaluation |
| Heartbeat.RuleCanHideStall | dt-console-server/src/repositories/alert_repository.rs:217-227 | a concrete run, with a rule on `cdc_stalled`, whose stale task has no stall alert |
| AlertEngine.Engine.constructor | dt-console-server/src/alert_engine.rs:201-207 | a new engine is in the empty state |
| AlertEngine.Engine.SetSilenceWindow | dt-console-server/src/alert_engine.rs:210-219 | sets or clears the window and nothing else |
| AlertEngine.Engine.IsSilenced | dt-console-server/src/alert_engine.rs:222-228 | both ends of the window are inside it |
| AlertEngine.Engine.RecordDwell | dt-console-server/src/alert_engine.rs:111-125 | the first violation's time stays; dwell is met at once when it is zero, otherwise when that much time passed |
| AlertEngine.Engine.ClearDwell | dt-console-server/src/alert_engine.rs:128-130 | drops one rule from one tracker |
| AlertEngine.Engine.EvaluatePoint | dt-console-server/src/alert_engine.rs:280-374 | updates the shared state by exactly one point step and returns that step's events |
| AlertEngine.Engine.EvaluateRule | dt-console-server/src/alert_engine.rs:274-374 | the inner loop performs the steps of the rule's matching points in order |
| AlertEngine.Engine.EvaluateTick | dt-console-server/src/alert_engine.rs:248-377 | a tick performs the point steps of the enabled rules in order, all under the silence verdict taken once |
| AlertEngine.Engine.CheckTask | dt-console-server/src/alert_engine.rs:401-470 | one task's staleness evaluation is exactly one check step |
| AlertEngine.Engine.UpdateHeartbeats | dt-console-server/src/alert_engine.rs:396-399 | records the stamps in order, keeping stall ids |
| AlertEngine.Engine.EvaluateHeartbeats | dt-console-server/src/alert_engine.rs:384-473 | updates first, then one check step per task in order |
| AlertEngine.Engine.ClearAlert | dt-console-server/src/alert_handlers.rs:229-316 | NotFound iff the id is unknown; a row that was not cleared gets status, time and user and one event is emitted; otherwise nothing changes; exactly one clear step |
| AlertEngine.Engine.ClearBatch | dt-console-server/src/alert_handlers.rs:352-391 | the clear steps of the ids in order; successes are the known ids and failures the unknown ones, in request order |
| AlertEngine.BatchClears | dt-console-server/src/alert_handlers.rs:352-391 | a batch clear leaves every named row cleared, stamped by this request unless cleared before, and every other row and tracker alone, for any repeats |
| QueryBuilder.GetWhereInfo | dt-connector/src/rdb_query_builder.rs:633-665 | the loop's conditions, placeholders and bound columns in closed form; fails iff an id column is ambiguous in case or unavailable, a missing one being tested with IS NULL |
| QueryBuilder.PickAvailable | dt-connector/src/rdb_query_builder.rs:623-631 | reads all columns, a missing one as NULL; fails iff one is ambiguous in case or unavailable |
| QueryBuilder.GetInsertQuery | dt-connector/src/rdb_query_builder.rs:372-405 | the statement, its placeholders and its binds, a missing column bound as NULL; success iff there is an after image with no ambiguous or unavailable column |
| QueryBuilder.GetReplaceQuery | dt-connector/src/rdb_query_builder.rs:307-348 | the upsert with a second bind per non-key column, or REPLACE, or a plain insert, by database; success as for the insert |
| QueryBuilder.GetReplaceDeleteQuery | dt-connector/src/rdb_query_builder.rs:350-370 | the delete half of delete-then-insert, keyed by the after image; fails iff that is missing or an id column is ambiguous or unavailable |
| QueryBuilder.GetDeleteQuery | dt-connector/src/rdb_query_builder.rs:407-431 | delete by the before image's id columns; fails iff that image is missing or an id column is ambiguous or unavailable |
| QueryBuilder.GetSelectQuery | dt-connector/src/rdb_query_builder.rs:508-534 | select by the after image's id columns; fails iff that image is missing or an id column is ambiguous or unavailable |
| QueryBuilder.MatchedTargetCols | dt-connector/src/rdb_query_builder.rs:482-498 | the target columns present and available in the image, in target order, possibly none; fails iff one is ambiguous |
| QueryBuilder.GetUpdateQuery | dt-connector/src/rdb_query_builder.rs:433-480 | set columns first, then the condition numbered after them; fails iff an image is missing, a column is ambiguous, an id is unavailable or there is nothing to set |
| QueryBuilder.GetBatchInsertQuery | dt-connector/src/rdb_query_builder.rs:188-275 | placeholders for the whole batch size, binds for the rows left, and the conflict clause of the database; fails iff a row has no after image or an ambiguous or unavailable column |
| QueryBuilder.GetBatchDeleteQuery | dt-connector/src/rdb_query_builder.rs:138-186 | placeholders for the whole batch size and the keys of the rows left; refused iff a row has no before image or a key part is ambiguous, missing, unavailable or NULL |
| QueryBuilder.GetBatchReplaceDeleteQuery | dt-connector/src/rdb_query_builder.rs:279-305 | placeholders for the rows actually left, keyed by after images; fails iff a row has none or an id column is ambiguous |
| BindAlignment.InsertAligned | dt-connector/src/rdb_query_builder.rs:372-405 | placeholder k always reads bind k, and that bind is for the column it stands at |
| BindAlignment.ReplaceAligned | dt-connector/src/rdb_query_builder.rs:307-348 | the same for every single-row upsert |
| BindAlignment.WhereAligned | dt-connector/src/rdb_query_builder.rs:633-665 | delete and select are aligned iff the database is MySQL-like or the NULL ids come last, and aligned iff every placeholder has a bind |
| BindAlignment.NullFirstMisses | dt-connector/src/rdb_query_builder.rs:633-665 | a concrete delete whose placeholder has no bind |
| BindAlignment.UpdateAligned | dt-connector/src/rdb_query_builder.rs:433-480 | the same for update, whose condition is numbered after the set columns |
| BindAlignment.BatchAligned | dt-connector/src/rdb_query_builder.rs:188-238 | a batch insert is aligned iff as many rows as the batch size are left or there are no columns, and aligned iff fully bound |
| BindAlignment.KeyBatchAligned | dt-connector/src/rdb_query_builder.rs:138-186 | the same for batch deletes over the id columns |
| BindAlignment.ShortBatchMisses | dt-connector/src/rdb_query_builder.rs:138-228 | a concrete short batch, insert and delete, with an unbound placeholder |
| BindAlignment.BatchInsertDenotes | dt-connector/src/rdb_query_builder.rs:188-228 | with enough rows left, `$k` stands at column `(k-1) % n` and is bound to row `start + (k-1) / n` |
| BindAlignment.BatchDeleteDenotes | dt-connector/src/rdb_query_builder.rs:138-186 | the same for the keys of a batch delete |
| BindAlignment.AlignedIsLiteral | dt-connector/src/rdb_query_builder.rs:106-136 | an aligned statement with binds means what its literal rendering means |
| BindAlignment.InsertFormsAgree | dt-connector/src/rdb_query_builder.rs:307-405 | bound insert and upsert always run and read the cells of their literal forms |
| BindAlignment.DeleteSelectFormsAgree | dt-connector/src/rdb_query_builder.rs:407-534 | bound delete and select run iff aligned, and then read the cells of their literal forms, which always run |
| BindAlignment.UpdateFormsAgree | dt-connector/src/rdb_query_builder.rs:433-480 | the bound update is runnable iff aligned, and then reads the cells of its literal form, which is always runnable |
| WriteStrategies.ReplaceDeleteRuns | dt-connector/src/rdb_query_builder.rs:350-370 | the single delete removes exactly the row of that key |
| WriteStrategies.KeyBatchRuns | dt-connector/src/rdb_query_builder.rs:279-305 | the batch delete removes exactly the rows of those keys, whatever the images' other columns hold |
| WriteStrategies.SerialAgrees | dt-connector/src/rdb_query_builder.rs:307-370 | row by row, every database leaves the reference overlay of the images on the table |
| WriteStrategies.BatchExact | dt-connector/src/rdb_query_builder.rs:230-305 | any batch on any database leaves the overlay or is refused: MySQL always takes it, PG iff the keys are distinct or there is nothing to set, GaussDBOracle iff they are distinct, GaussDBMySQL iff they are distinct and none is stored |
| WriteStrategies.FallbackAgrees | dt-connector/src/sinker/pg/pg_sinker.rs:692-701 | a batch, or the serial writes a refused batch falls back to, leaves the overlay for any keys on every database, and again when sent again |
| WriteStrategies.BatchAgrees | dt-connector/src/rdb_query_builder.rs:230-305 | so does one batch with distinct keys, on every database but GaussDBMySQL |
| WriteStrategies.GaussMySqlBatch | dt-connector/src/rdb_query_builder.rs:230-275 | on GaussDBMySQL the batch gives that overlay iff no key is stored yet, and fails otherwise |
| WriteStrategies.GaussMySqlRetryFails | dt-connector/src/rdb_query_builder.rs:230-275 | every non-empty batch that it accepted is refused when sent again |
| WriteStrategies.PgBatchNeedsDistinctKeys | dt-connector/src/rdb_query_builder.rs:245-275 | an updating ON CONFLICT batch runs iff its keys are distinct |
| WriteStrategies.StrategiesAgree | dt-connector/src/rdb_query_builder.rs:230-370 | batch upsert, row-by-row upsert, REPLACE and delete-then-insert leave the same table on any two databases, and the batch applied twice equals once |
| RowStatements.LookupExact | dt-connector/src/rdb_query_builder.rs:699-724 | a column of the image is found under its own name first |
| RowStatements.LookupOtherCase | dt-connector/src/rdb_query_builder.rs:699-724 | else the only column that differs from it in case is found |
| RowStatements.LookupMissing | dt-connector/src/rdb_query_builder.rs:699-724 | else nothing is, which is no error |
| RowStatements.LookupAmbiguous | dt-connector/src/rdb_query_builder.rs:699-724 | two such columns are an error |
| RowStatements.CaseIgnored | dt-connector/src/rdb_query_builder.rs:707-709 | names match iff they agree letter by letter up to ASCII case |
| RowStatements.CellIs | dt-connector/src/rdb_query_builder.rs:623-631 | column by column, the cell written is the text the image holds, and NULL without one |
| RowStatements.StoredRowIs | dt-connector/src/rdb_query_builder.rs:307-405 | the row an image stands for: every table column with its text, under the texts of the id columns |
| RowStatements.InsertRuns | dt-connector/src/rdb_query_builder.rs:372-405 | the bound insert adds the image's row, and is refused when its key is taken |
| RowStatements.DeleteRuns | dt-connector/src/rdb_query_builder.rs:407-431 | the bound delete removes the row of the before image's key and no other |
| RowStatements.SelectFinds | dt-connector/src/rdb_query_builder.rs:508-534 | the condition of the bound select holds of the row of the after image's key and of no other |
| RowStatements.UpdateRuns | dt-connector/src/rdb_query_builder.rs:433-480 | the bound update sets in the row of the before key every column the after image carries, keeps the others, moves the row when the key changed, and is refused when the new key is NULL or taken; without such a row nothing happens |
| RowStatements.UpdateInPlace | dt-connector/src/rdb_query_builder.rs:433-480 | when the after image leaves the id columns alone, the row is replaced under its key |
| Glob.TranslationPreservesMeaning | dt-common/src/rdb_filter.rs:216-235 | for every pattern without other metacharacters, the regex of the three replacements matches only what the glob matches, and on newline-free names exactly that |
| Glob.AgreeWithoutNewline | dt-common/src/rdb_filter.rs:216-235 | glob and regex agree on a name for every such pattern iff the name holds no line break |
| Glob.StarTestIsSound | dt-common/src/rdb_filter.rs:65-69 | a pattern that accepts the name `*` accepts every name, exactly unless it is made only of `?` |
| Filter.SchemaImpliesTable | dt-common/src/rdb_filter.rs:65-108 | if a successful probe of the ignore list for `*` has a sound entry behind it (escaped but not the escaped `*`, or a glob not made only of `?`), a filtered schema has every newline-free table filtered, whatever the other entries are |
| Filter.SchemaDroppedWhen | dt-common/src/rdb_filter.rs:65-79 | a schema is dropped iff it is ignored, an ignore entry for it takes the name `*`, or neither do list asks for it |
| Filter.TableKeptWhen | dt-common/src/rdb_filter.rs:81-108 | a table is kept iff nothing ignores it and a do entry names it, or its schema is asked for and no do entry names a table there |
| Filter.EscapedToken | dt-common/src/rdb_filter.rs:205-213 | a token in escapes matches its inside literally, or itself as written |
| Filter.RawToken | dt-common/src/rdb_filter.rs:214-235 | a token between `r#` and `#` is the regex between them |
| Filter.SchemaLawExact | dt-common/src/rdb_filter.rs:65-108 | for a schema all of whose tables the do lists keep, under any number of escaped or glob ignore entries, that law holds iff a sound entry is behind a successful probe |
| Filter.LoneIgnoreKeeps | dt-common/src/rdb_filter.rs:65-108 | where one sound entry decides and drops the schema, a table is dropped iff its name holds no line break |
| Filter.OptionalIgnoreBreaks | dt-common/src/rdb_filter.rs:65-108 | a concrete `?` entry with a filtered schema and an unfiltered table |
| Filter.EscapedIgnoreBreaks | dt-common/src/rdb_filter.rs:205-213 | the same for the escaped `*` |
| Filter.AddsFirstCoherent | dt-common/src/rdb_filter.rs:81-108 | in every run whose adds precede the first lookup, each answer, cached or not, is the verdict of the final configuration |
| Filter.SchemaImpliesEveryAnswer | dt-common/src/rdb_filter.rs:65-108 | so in every such run each answer for a schema with that condition obeys the schema verdict |
| Filter.AddStaleness | dt-common/src/rdb_filter.rs:154-160 | an add keeps the cache right iff, for each cached table it matches, the stored verdict, the ignore lists and the earlier do entries say that the new entry changes nothing |
| Filter.StaleAfterAdd | dt-common/src/rdb_filter.rs:81-108 | every kept table that is looked up and then ignored under its own name goes on being kept |
| Filter.RdbFilter.constructor | dt-common/src/rdb_filter.rs:47-63 | starts with an empty cache |
| Filter.RdbFilter.AskTb | dt-common/src/rdb_filter.rs:81-108 | answers from the cache or computes, stores and answers |
| Filter.RdbFilter.AddIgnoreTb | dt-common/src/rdb_filter.rs:154-156 | adds the entry and leaves the cache as it is |
| Filter.RdbFilter.AddDoTb | dt-common/src/rdb_filter.rs:158-160 | adds the entry and leaves the cache as it is |
| Router.Invert | dt-connector/src/rdb_router.rs:91-120 | the loop that turns a map round: every value is a key, mapped to one of its own keys |
| Router.Reverse | dt-connector/src/rdb_router.rs:91-120 | fails iff a column map has no table route; on reversible maps the result is the inverse and reversible again |
| Router.TurnedIsReverse | dt-connector/src/rdb_router.rs:91-120 | on injective maps any order of the loop gives the inverse |
| Router.ReverseTwiceIsIdentity | dt-connector/src/rdb_router.rs:91-120 | reversing twice gives the maps back |
| Router.RouteValues | dt-connector/src/rdb_router.rs:130-156 | every column lands on its routed name, whatever the loop's order |
| Router.RouteRow | dt-connector/src/rdb_router.rs:122-159 | table and both images are routed, images only where the table has a column map |
| Router.RoutedRowIs | dt-connector/src/rdb_router.rs:65-159 | a routed row's table by the table map, else the schema map, else its own; in both images a mapped column under its destination, an unmapped one under its own name, and nothing else; without a column map the images as they were |
| Router.TableReturns | dt-connector/src/rdb_router.rs:65-73 | a table comes back from routing and reverse routing iff, when not mapped itself, it does not land on a mapped destination |
| Router.RoutingReturns | dt-connector/src/rdb_router.rs:65-159 | a row comes back unchanged iff its table does and no unmapped column bears a mapped destination's name |
| Redaction.RedactUrlTwice | dt-console-server/src/redaction.rs:63-71 | redacting a URL twice is redacting it once |
| Secrets.SecretKeys | dt-console-server/src/redaction.rs:26-49 | a key is secret iff its letters and digits spell one of ten words somewhere, whatever their case and the punctuation between them |
| Secrets.UrlKeys | dt-console-server/src/redaction.rs:54-57 | the same for the three words of a connection string |
| Secrets.UrlMasked | dt-console-server/src/redaction.rs:63-71 | what stands between the first `://` and the last `@` is replaced by `***` |
| Secrets.UrlKept | dt-console-server/src/redaction.rs:63-71 | a URL without that shape stays as it is |
| Secrets.RedactedLeaf | dt-console-server/src/redaction.rs:77-100 | at every place of every document: a non-empty secret reads `<redacted>`, a URL its masked form, an empty string and everything else itself |
| Secrets.RedactTells | dt-console-server/src/redaction.rs:77-100 | two documents redact to the same one iff they differ only in non-empty secrets and in the masked part of URLs |
| Secrets.SecretDoesNotShow | dt-console-server/src/redaction.rs:77-100 | so putting another non-empty secret in place of one changes nothing a client reads |
| Secrets.PlaceholderIs | dt-console-server/src/redaction.rs:109-135 | exactly the placeholder under a secret key, and the masked stored URL under a URL key, bring the stored string back |
| Redaction.RestoreUndoesRedact | dt-console-server/src/redaction.rs:77-135 | for every document, restoring its redaction against it gives it back |
| Redaction.RedactTwice | dt-console-server/src/redaction.rs:77-100 | redaction is idempotent on every document |
| Redaction.EditCommutes | dt-console-server/src/redaction.rs:109-135 | replacing a string leaf commutes with restore iff the new string is not that leaf's placeholder or is the stored value |
| Redaction.EditRoundTrip | dt-console-server/src/redaction.rs:77-135 | redact, change one leaf to a non-placeholder, restore: exactly that leaf changed |
| Ini.Assemble | dt-console-server/src/ini_renderer.rs:104-116 | the two loops write the sections as the reference text, blank line between them |
| IniValues.NumberReadsBack | dt-console-server/src/ini_renderer.rs:851-892 | a number is written in decimal without leading zeros and reads back as itself |
| IniValues.NumberOrText | dt-console-server/src/ini_renderer.rs:873-891 | a 64-bit number and its text are written alike |
| IniValues.ListIsJoined | dt-console-server/src/ini_renderer.rs:818-836 | a list is written as its non-empty strings with commas between them |
| IniValues.FormsWrite | dt-console-server/src/ini_renderer.rs:808-902 | what each kind of optional key writes for each JSON value, and for which it writes nothing |
| IniValues.ExtractorLines | dt-console-server/src/ini_renderer.rs:264-410 | a line stands in [extractor] iff it belongs to the head or writes a column of that extract type under the column's own key |
| IniValues.SinkerLines | dt-console-server/src/ini_renderer.rs:412-527 | the same for [sinker] |
| IniValues.UrlIs | dt-console-server/src/ini_renderer.rs:281-293 | the section's own non-empty URL, else the endpoint's |
| IniValues.CredentialsAre | dt-console-server/src/ini_renderer.rs:295-322 | user name and password are each the first value found in the section, its connection_auth and the endpoint, and written if it is a non-empty string |
| IniValues.ScopeNarrows | dt-console-server/src/ini_renderer.rs:561-594 | `do_dbs=*` is left out once tables other than `*.*` are named |
| IniValues.ExtractorDefault | dt-console-server/src/ini_renderer.rs:264-279 | an empty extractor column is a snapshot |
| IniValues.SinkerDefault | dt-console-server/src/ini_renderer.rs:412-427 | an empty sinker column is a write |
| IniValues.FilterDefault | dt-console-server/src/ini_renderer.rs:529-559 | an empty filter column still writes its four empty scope keys, and `do_events=insert` for snapshot and check tasks |
| IniValues.RouterDefault | dt-console-server/src/ini_renderer.rs:596-610 | an empty router column writes its three empty maps |
| IniValues.ParallelDefault | dt-console-server/src/ini_renderer.rs:612-639 | the parallel type an empty column takes from the task kind, with size 1 |
| IniValues.PipelineDefault | dt-console-server/src/ini_renderer.rs:641-685 | buffer size 16000 and a checkpoint every 10 seconds |
| IniValues.BufferSizeIs | dt-console-server/src/ini_renderer.rs:644-652 | the pipeline's own buffer size, else its capacity limiter's, else 16000 |
| IniValues.RuntimeDefault | dt-console-server/src/ini_renderer.rs:735-758 | log level and log paths of an empty column |
| IniValues.MetricsDefault | dt-console-server/src/ini_renderer.rs:766-800 | port 9100 on all interfaces with two workers |
| IniValues.LabelsJoined | dt-console-server/src/ini_renderer.rs:783-799 | the labels are written as `key=value`, in key order with commas between them |
| IniValues.ResumerOmitted | dt-console-server/src/ini_renderer.rs:687-700 | [resumer] is left out iff its type is missing, no string, empty or `dummy` |
| IniValues.ProcessorShown | dt-console-server/src/ini_renderer.rs:244-260 | [processor] is written iff one of its fields is neither null, false, zero nor empty |
| IniRedaction.RedactIniText | dt-console-server/src/redaction.rs:141-170 | the loop over lines is the line-by-line reference |
| IniRedaction.RedactIsLinewise | dt-console-server/src/redaction.rs:141-170 | for every text the lines of the redaction are the redactions of its lines, none added, dropped or moved |
| IniRedaction.WordLine | dt-console-server/src/redaction.rs:141-170 | a `key=value` line is masked by its key and keeps its key |
| IniRedaction.PaddedPair | dt-console-server/src/redaction.rs:141-170 | blanks round the key do not change the mask, and the line keeps them |
| IniRedaction.CommentLine | dt-console-server/src/redaction.rs:148-149 | a line whose first character after blanks is `#` is kept |
| IniRedaction.UrlLines | dt-console-server/src/redaction.rs:63-71 | masking a URL adds no line, and works line by line iff it swallows none |
| IniRedaction.PairCommutes | dt-console-server/src/redaction.rs:141-170 | for one pair, redacting its text is writing it with its value masked iff the pair redacts cleanly |
| IniRedaction.CleanByKey | dt-console-server/src/redaction.rs:141-170 | a secret redacts cleanly iff its value is one line, a plain value iff its later lines are left alone, a URL iff the mask swallows no line break and treats its later lines as the redactor does; one-line values always do |
| IniRedaction.RedactionCommutes | dt-console-server/src/redaction.rs:141-170 | for all sections, redacting the text is rendering the same sections, names and keys with each value masked by key iff every pair redacts cleanly |
| IniRedaction.RenderRedacts | dt-console-server/src/ini_renderer.rs:27-116 | the same for every rendered task |
| IniRedaction.LineBreakShows | dt-console-server/src/redaction.rs:141-170 | the second line of a two-line secret is left as it is unless it holds an `=` |
| IniRedaction.PasswordBreaks | dt-console-server/src/redaction.rs:141-170 | a concrete password with a line break for which the law fails |
| IniKeys.NoDuplicateKeys | dt-console-server/src/ini_renderer.rs:27-116 | no section of any rendered task holds a key twice |
| IniKeys.EnsureKeeps | dt-console-server/src/ini_renderer.rs:905-909 | filling in missing keys adds no duplicate |
| IniKeys.ExtractorFits | dt-console-server/src/ini_renderer.rs:264-410 | for every extract type the keys of [extractor] are distinct |
| IniKeys.SinkerFits | dt-console-server/src/ini_renderer.rs:412-527 | for every sink type the keys of [sinker] are distinct |
| IniKeys.FilterFits | dt-console-server/src/ini_renderer.rs:529-576 | the keys of [filter] are distinct |
| IniKeys.ResumerFits | dt-console-server/src/ini_renderer.rs:687-733 | the keys of [resumer] are distinct |
| ExtractorEdits.PushesAgree | dt-console-server/src/ini_renderer.rs:808-902 | columns that agree off some keys push the same lines off those keys, in the same order |
| ExtractorEdits.SectionAgrees | dt-console-server/src/ini_renderer.rs:264-410 | the same for the whole [extractor] section |
| Resume.ForceResume | dt-console-server/src/ini_renderer.rs:155-213 | the rewrite loop produces the closed-form task and audit list |
| Resume.NotesTellChanges | dt-console-server/src/ini_renderer.rs:180-208 | the audit names an extractor key iff its value changed |
| Resume.NotesOnce | dt-console-server/src/ini_renderer.rs:180-208 | no audit line is repeated and each carries the value the key had |
| Resume.ExtractorNeutral | dt-console-server/src/ini_renderer.rs:215-241 | every rendered start key is 0 and every rendered slot flag is false; a cdc task does render the flag |
| Resume.ExtractorOtherwiseSame | dt-console-server/src/ini_renderer.rs:155-213 | every other line of [extractor] is as in the plain rendering, in order |
| Resume.ResumerIs | dt-console-server/src/ini_renderer.rs:687-733 | [resumer] is from_log with the given directory and no config_file |
| Resume.ResumeRenders | dt-console-server/src/ini_renderer.rs:155-213 | the whole resumed file: the task's own sections with [extractor] and [resumer] replaced as above |
| Resume.ResumeTwice | dt-console-server/src/ini_renderer.rs:155-213 | the rewrite is idempotent, and the second audit records the resumer only |
| TwoPhase.PhasesTakeTheirTypes | dt-console-server/src/two_phase.rs:104-134 | the phases render snapshot and cdc iff the extractor has no camel-case `extractType` |
| TwoPhase.TwoPhaseExactly | dt-console-server/src/two_phase.rs:54-76 | without the camel-case key, a task runs in two phases iff it renders `snapshot_and_cdc` and its source is one of six databases |
| TwoPhase.CamelCaseDefeatsPhases | dt-console-server/src/two_phase.rs:64-76 | a concrete two-phase task whose phases both render snapshot_and_cdc |
| TwoPhase.Phase2Marked | dt-console-server/src/two_phase.rs:144-165 | phase 2 holds the captured time, if not empty, or log mining from the captured SCN, once |
| TwoPhase.Phase2OtherwiseSame | dt-console-server/src/two_phase.rs:116-134 | off the type and the keys of the captured marker, phase 2 extracts line for line as the task does |
| TwoPhase.Phase2Parallel | dt-console-server/src/two_phase.rs:136-142 | phase 2 runs serial when source or target is Oracle and rdb_merge otherwise, with the task's own parallel size |
| TwoPhase.FilterOtherwiseSame | dt-console-server/src/ini_renderer.rs:529-559 | the two phases' filters differ in do_events only |
| TwoPhase.InsertsOnly | dt-console-server/src/ini_renderer.rs:540-546 | the filter of a snapshot or check task takes inserts only, whatever it says |
| TwoPhase.EventsNamed | dt-console-server/src/ini_renderer.rs:540-546 | the filter of any other task takes the events it names |
| TwoPhase.OwnEvents | dt-console-server/src/ini_renderer.rs:529-559 | the cdc filter is the task's own, unless the task is a snapshot or check |
| TwoPhase.Phase1Renders | dt-console-server/src/two_phase.rs:104-113 | phase 1 is a snapshot of inserts; all sections but [extractor], [filter] and [parallelizer] are the task's own |
| TwoPhase.Phase2Renders | dt-console-server/src/two_phase.rs:116-165 | phase 2 is a change stream from the marker; the same sections are the task's own |
| RateLimit.RateLimiter.constructor | dt-console-server/src/rate_limit.rs:47-52 | starts with no attempts |
| RateLimit.RateLimiter.CheckAndRecord | dt-console-server/src/rate_limit.rs:60-97 | one key's record and the reply follow the attempt function, every other key stays |
| RateLimit.RateLimiter.Clear | dt-console-server/src/rate_limit.rs:102-105 | forgets exactly that key |
| RateLimit.KeyShared | dt-console-server/src/rate_limit.rs:60-61 | two logins share a record iff name and address fall into the same parts at their colons |
| RateLimit.PlainNamesApart | dt-console-server/src/rate_limit.rs:60-61 | names without a colon share a record iff name and address are equal, IPv6 addresses included |
| RateLimit.CountsInRange | dt-console-server/src/rate_limit.rs:60-97 | over every run each stored count is between 1 and the maximum |
| RateLimit.AcceptedByWindow | dt-console-server/src/rate_limit.rs:60-97 | over every run a call is accepted iff it opens a window, or the one it falls into has taken fewer than the allowed calls; windows and what they took are read from the history of calls alone |
| RateLimit.FreshSpanBound | dt-console-server/src/rate_limit.rs:60-97 | a span shorter than window plus block, without a clear of the key, that starts with no window left over accepts at most `max` calls |
| RateLimit.RateBound | dt-console-server/src/rate_limit.rs:60-97 | any span shorter than window plus block, without a clear of the key, accepts at most `2 * max - 1` calls |
| RateLimit.RateBoundIsTight | dt-console-server/src/rate_limit.rs:60-97 | for every configuration with at least one attempt and a span of at least a second, some run accepts exactly that many |
| RateLimit.RetryAfterIsExact | dt-console-server/src/rate_limit.rs:76-88 | after a rejection a retry d seconds later is rejected iff d is less than the announced delay |
| Idempotency.IdempotencyCache.constructor | dt-console-server/src/idempotency.rs:45-49 | starts empty |
| Idempotency.IdempotencyCache.Lookup | dt-console-server/src/idempotency.rs:55-65 | a live entry's response; an expired one is dropped |
| Idempotency.IdempotencyCache.Store | dt-console-server/src/idempotency.rs:72-88 | a live entry is kept, otherwise the response is stored |
| Idempotency.IdempotencyCache.EvictExpired | dt-console-server/src/idempotency.rs:91-94 | keeps exactly the live entries |
| Idempotency.EvictionInvisible | dt-console-server/src/idempotency.rs:91-123 | any two placements of evictions in a run give the same answers |
| Idempotency.GetAnswers | dt-console-server/src/idempotency.rs:55-88 | a lookup answers with the response of the unique effective put less than 60 seconds old, and with nothing iff there is none |
| Idempotency.ScopedKeyShared | dt-console-server/src/idempotency.rs:133-135 | two requests share a key iff they fall into the same parts at their colons |
| Idempotency.ScopedKeyInjective | dt-console-server/src/idempotency.rs:133-135 | when user, method and path have no colon, two requests share a key iff they are equal |
| Idempotency.ScopedKeyAlone | dt-console-server/src/idempotency.rs:133-135 | a request shares its key with some other request iff a colon stands in its user, method, path or key |
| PortPool.LowestFree | dt-console-server/src/port_pool.rs:48-57 | the least free port of the range, or none iff all are taken |
| PortPool.Pool.constructor | dt-console-server/src/port_pool.rs:27-31 | starts empty |
| PortPool.Pool.Seed | dt-console-server/src/port_pool.rs:36-43 | adds the in-range ports only |
| PortPool.Pool.Acquire | dt-console-server/src/port_pool.rs:48-57 | takes the lowest port of 9100 to 9199 not in use, and none iff all are |
| PortPool.Pool.Release | dt-console-server/src/port_pool.rs:62-65 | gives back that port |
| PortPool.ReconcileLiveRuns | dt-console-server/src/main.rs:190-337 | a row whose pid is a positive 32-bit number and alive stays as it is, every other one is failed, orphaned, without port and with exit code -1 unless it had one; the pool holds the recorded in-range ports but those of dead runs |
| PortPool.AttachedToLast | dt-console-server/src/main.rs:190-337 | a task is attached iff it has a live run, and to the last of them |
| PortPool.ReconcileExact | dt-console-server/src/main.rs:190-337 | from an empty pool the in-use set is the in-range ports of live runs iff no dead run bears a live run's port |
| PortPool.DistinctPortsSuffice | dt-console-server/src/main.rs:190-337 | pairwise distinct ports meet that condition |
| PortPool.SharedPortFreed | dt-console-server/src/main.rs:190-337 | a dead run with a live run's port frees it |
| PortPool.PortsStaySafe | dt-console-server/src/port_pool.rs:48-65 | over every acquire and owner-release run no two holders share a port and the pool marks exactly the held ones |
| PortPool.AcquireFailsOnlyWhenFull | dt-console-server/src/port_pool.rs:48-57 | at any moment acquire fails iff every port of the range is held |
| PortPool.PortSafetyAcrossRestart | dt-console-server/src/main.rs:190-337 | from the state a restart reconciles, for distinct ports and run ids, over every later run: no two holders share a port, and acquire fails iff every port of the range is held |

## Left out

- Time is integers (seconds for alerts, nanoseconds for the limiter) and metric values are reals: f64 rounding, NaN, timestamp formatting and i64/u32 overflow are not modelled.
- Alert ids are table indices; the source draws random UUIDs, taken here as always fresh. The table never fails, and latest-first lookups break equal times by the later row.
- Alert steps are atomic: interleavings inside one evaluation of a point are not modelled, nor are `metrics_unavailable` alerts, alarm channels, SSE, Kafka, SNMP, HTTP and SQLite.
- SQL text (escaping, casts, literal quoting), batch select, `data_size` and the MySQL/PG drivers: statements are shapes with operand and bind lists, and a statement with an unbound placeholder does not run.
- RowStatements: deletes, selects and updates are run on keys without NULLs; a table without keys of its own, where a LIMIT picks one of several equal rows, is not modelled.
- WriteStrategies: the id columns are the table's only unique key; triggers, other unique indexes and column defaults are not modelled.
- Regexes outside literal, `.`, `.?` and `.*` are an oracle `engine`; an invalid pattern's panic is not modelled. Parsing of configuration strings into token sets and maps is not part of this model.
- Filter.SchemaLawExact: not for a schema of which the do lists keep some tables only, where the law depends on whether those tables are ignored one by one; nor with raw-regex ignore entries for the schema, whose matches are an oracle; and it takes a character that no such glob spells out.
- Router: `topic_map`, DDL and structure routing, which would only add members of the same kind.
- Redaction.Redact, Redaction.Restore: the in-place recursion over a JSON tree is modelled on values, so aliasing and update order are not captured; parsing and printing JSON are taken as inverse, and a column that is not JSON reads as null.
- Ini: the section renderers push onto one vector in straight-line code and are modelled as concatenations of values; `Assemble` keeps the loops. Width limits on rendered numbers, other than in parsing text, are not modelled.
- Resume.ForceResume: the audit lines are values rather than English text; `render` is applied to the returned task, and its label sorting is a specification only.
- TwoPhase: capturing the marker, writing the phase files and the supervisor that starts phase 2 are I/O.
- RateLimit, Idempotency: the lock is taken as making each call one step, and spawning the evictor task is left out.
- PortPool: `is_alive` is an oracle; executor processes, run-row fields other than status, exit and port, and log output are not modelled.
- Licence, login, RBAC, CSRF, the web prototype and the extract and sink pipelines are not part of this model.
