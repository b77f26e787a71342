# Connection lifecycle of cloud-connector

A model of how cloud-connector keeps track of the clients that are connected to it, with
proofs about every run of the whole. Control messages arrive over MQTT, are written to
Kafka under the client id as key, and are read back one at a time by a consumer on each
partition, whose handler drops duplicate and old messages and writes the `connections`
table. Two updaters work on the same table meanwhile: one looks up the tenants of rows that
have none, one refreshes hosts in host inventory before they go stale. The API reads the
table in lookups and pages.

| file | part |
|---|---|
| Domain.dfy | rows, messages, answers, JSON values |
| ConnectionTable.dfy | the table as a sequence of rows, its SQL statements, the registrar |
| Topics.dfy | the topic verifier and builder |
| Inventory.dfy | canonical facts and the gate in front of host inventory |
| ControlMessages.dfy | from MQTT to Kafka, and the handler |
| MessageLog.dfy | what a log of messages means for a client, and its closed form |
| KafkaConsumer.dfy | the consumer loop and its commit discipline |
| Updaters.dfy | the two updaters and their queries |
| System.dfy | all processes as one state machine |
| ExactlyOnce.dfy | exactly-once effect and freshness over runs |
| Ingestion.dfy | from the keyed Kafka log to the partitions, and the effect in log order |
| Tenancy.dfy | tenant columns, interleaving independence, what reaches inventory |
| Retries.dfy | bounded retries and first-in-first-out fairness |
| Progress.dfy | the machine against the methods, and that no run is stuck |
| Locator.dfy, Pagination.dfy | API queries, pages and links |
| Isolation.dfy | what the API sees of a reachable table |
| AccountResolver.dfy | the configured and the cached resolver |

The state machine takes one SQL statement, one resolver call or one broker call per step, so
updater writes land between a handler's lookup of a row and its write. A call that fails may
or may not have had its effect. Every process may die at any point; a consumer starts again
from the committed offset. An event that its process cannot make leaves the state alone, so
the theorems quantify over all sequences of events. Calls of methods take their results as
parameters: `Outcome`, `WriteOutcome`, `Environment`, `LookupCall`, `RefreshCall`, and the
clock is a number that never goes back.

Where the code falls short of what it is for, the model keeps the code and says exactly
when: a non-fatal `Register` error loses its message
(`ExactlyOnce.SilentFailureLosesMessage`, `ControlMessages.AcknowledgedMeansApplied`); a
reused message id hides a newer message (`MessageLog.ClosedFormExactlyWhen`); a successful
lookup without an organization leaves a row that nothing picks up again
(`Tenancy.SettledExactlyWhen`, `Tenancy.OrglessSuccessStrandsRow`,
`Tenancy.UnsettledRowIsStuck`) and may reach host inventory
(`Tenancy.DoubtfulReportExactlyWhen`, `Tenancy.OrglessSuccessIsReported`); the sum of offset
and limit can overflow (`Pagination.NextIsRightExactlyWhen`, `Locator.LinksLeadToRows`),
after which `Next` has a negative offset that the query validation refuses; a valid topic
prefix with a slash or equal to `+` makes the verifier disagree with the subscriptions
(`Topics.VerifierAgreesExactlyWhen`); a host that only the script worker speaks for is
registered but never refreshed, since the gate in
`internal/controller/connected_client_recorder.go:207-213` knows three dispatchers and the
stale query two of them (`Inventory.RefreshedExactlyWhen`).

## Model

| member | source | states |
|---|---|---|
| `ExactlyOnce.ExactlyOnceEffect` | cmd/cloud-connector/kafka_message_consumer.go:233-315 | after any run with crashes, restarts, fetch, commit and fatal handler errors and interleaved updater writes, a client of a fully committed partition has exactly the message columns of one clean pass over the log, provided no `Register` failed non-fatally without effect |
| `ExactlyOnce.CommittedLogIsAppliedOnce` | cmd/cloud-connector/kafka_message_consumer.go:233-315 | the same without the proviso: the columns are those of the clean pass that leaves out exactly the messages recorded as lost |
| `ExactlyOnce.SilentFailureLosesMessage` | internal/cloud_connector/message_handlers.go:150-157 | a concrete run in which a non-fatal `Register` error is swallowed, the message committed and the client never registered: the proviso is needed |
| `ExactlyOnce.OnlySilentFailuresLose` | internal/cloud_connector/message_handlers.go:150-157 | a message is recorded as lost only if some `Register` failed non-fatally without effect |
| `ExactlyOnce.RowsStayFresh` | internal/cloud_connector/message_handlers.go:121-150 | in every reachable state, every step of every process: while a row stays, `message_sent` does not go back, a changed message has a different id, and the facts stay |
| `ExactlyOnce.SentNeverDecreases` | internal/cloud_connector/message_handlers.go:201-209 | along every run in which a client's row stays alive its `message_sent` never decreases |
| `Tenancy.InterleavingsAgree` | internal/mqtt/message_handlers.go:53-65 | any two runs over the same keyed logs with a fixed resolver that commit a client's partition and lost the same messages of it agree on the client's account, organization and message columns, whatever the interleaving of partitions, updaters and crashes; if successful lookups name an organization they also agree on whether it awaits a lookup |
| `Tenancy.LosslessInterleavingsAgree` | internal/mqtt/message_handlers.go:53-65 | the same for any two such runs in which no `Register` failed non-fatally without effect |
| `Ingestion.KeyedLogIsPartitioned` | cmd/cloud-connector/mqtt_message_consumer.go:172-179 | a log whose messages are keyed by the client of their topic header, partitioned by key and read through that header again, has every client's messages in the client's partition: the premise of the ordering results |
| `Ingestion.PartitionKeepsOrder` | internal/mqtt/message_handlers.go:53-65 | for each client a pass over its own partition, without any lost messages, is a pass over the whole log without the same messages |
| `Ingestion.LogOrderDecides` | cmd/cloud-connector/kafka_message_consumer.go:185-218 | against the one log the MQTT consumer wrote: after any run that commits a client's partition its row shows a clean pass over that whole log, however it was partitioned, without the messages that the partition has recorded as lost |
| `Ingestion.LatestMessageWins` | internal/cloud_connector/message_handlers.go:201-209 | if the partition has lost no message and equal message ids mean equal messages, that row is the latest online message of that log since the client last went offline, with the facts of the first |
| `Ingestion.ReadLogIsWellTyped` | cmd/cloud-connector/kafka_message_consumer.go:185-218 | a log whose contents the handler's type assertions accept gives well-typed rows: the premise of the gate results |
| `Isolation.ApiShowsLatestMessage` | internal/connection_repository/sql_connection_locator_v2.go:58-119 | from log to API, for a partition committed without a loss, a resolver that keeps to one answer per client, and the premise of the closed form on reused ids: a lookup finds a client iff an online message follows its last offline and the resolver's organization is the caller's, or not empty and the access relaxed with the satellite dispatcher in the latest message; it then shows that latest message, with the first one's facts, under that organization |
| `Progress.EveryRunCanFinish` | cmd/cloud-connector/kafka_message_consumer.go:233-315 | every run can go on until a partition's log is fully committed, with the same messages recorded as lost as before; where the message in hand was not written the process must die before it commits |
| `MessageLog.PassClosedForm` | internal/cloud_connector/message_handlers.go:201-209 | closed form of a clean pass: a row iff an online message follows the last offline; it is the last in order among those with the greatest `Sent`, with the canonical facts of the first; the premise is that a message repeating the latest id repeats the message, or is older |
| `MessageLog.ClosedFormExactlyWhen` | internal/cloud_connector/message_handlers.go:201-209 | that premise is exact: the closed form holds at every point of a log iff no message that reuses the latest id, and is no older, differs from the latest message |
| `MessageLog.ClosedFormOfIdentifyingIds` | internal/cloud_connector/message_handlers.go:201-209 | the closed form when equal message ids mean equal messages |
| `MessageLog.ClosedFormIsUnique` | internal/cloud_connector/message_handlers.go:201-209 | the two messages that the closed form names are determined by the log |
| `MessageLog.RowIffOnline` | internal/cloud_connector/message_handlers.go:98-102 | without any premise on ids: a row iff an online message follows the last offline |
| `MessageLog.ReusedIdHidesLaterMessage` | internal/cloud_connector/message_handlers.go:203-206 | a concrete log with a reused message id for which the closed form fails |
| `MessageLog.RedeliveryIsNoOp` | internal/cloud_connector/message_handlers.go:172-209 | handling a message again right after itself changes nothing, whatever the row was |
| `KafkaConsumer.LifeIsDisciplined` | cmd/cloud-connector/kafka_message_consumer.go:222-315 | commit discipline in every life of a consumer with crashes, restarts and errors of every kind: only processed messages are committed, at most one processed message is uncommitted, both counters are below ten while it runs, the commit counter is zero at every fetch, the fatal signal is sent at most once and then the loop has stopped |
| `KafkaConsumer.CommittedMessagesStayDone` | cmd/cloud-connector/kafka_message_consumer.go:265-286 | the committed offset grows by single messages that were processed, and a message that starts processing is the first uncommitted one |
| `KafkaConsumer.CommitLoopEnds` | cmd/cloud-connector/kafka_message_consumer.go:283-314 | the commit loop ends within ten calls less the errors already counted |
| `KafkaConsumer.NothingAfterStop` | cmd/cloud-connector/kafka_message_consumer.go:248-262 | a stopped loop makes no further call |
| `KafkaConsumer.PersistentFetchErrorsStop` | cmd/cloud-connector/kafka_message_consumer.go:236-263 | fewer than ten consecutive fetch errors only count; the tenth stops the loop with the signal |
| `KafkaConsumer.StopsSilentlyOnlyOnShutdown` | cmd/cloud-connector/kafka_message_consumer.go:236-313 | the loop stops without the fatal signal only when it is cancelled or its backoff is interrupted |
| `KafkaConsumer.StopsExactlyWhen` | cmd/cloud-connector/kafka_message_consumer.go:234-313 | a fetch or a commit stops the loop iff it is cancelled, its backoff is interrupted, or it is the tenth error in a row, and only the last gives the signal |
| `KafkaConsumer.HandlerErrorStops` | cmd/cloud-connector/kafka_message_consumer.go:271-277 | the handler's error, and nothing else there, stops the loop, with the signal and without a commit |
| `KafkaConsumer.CallsAdvanceExactlyWhen` | cmd/cloud-connector/kafka_message_consumer.go:234-313 | a successful fetch takes up the first uncommitted message; a commit moves the offset past it iff it reaches the broker; each error counts one |
| `KafkaConsumer.NothingAfterShutdown` | cmd/cloud-connector/kafka_message_consumer.go:236-238 | after a cancelled or interrupted call nothing more is processed, whatever the later calls would return |
| `KafkaConsumer.Consumer.ConsumeMqttMessages` | cmd/cloud-connector/kafka_message_consumer.go:233-315 | the loop with its counters and breaks does what the state machine does on every sequence of call results, keeps the discipline, and after a cancelled or interrupted call has stopped without processing anything more |
| `KafkaConsumer.Consumer.CommitUntilDone` | cmd/cloud-connector/kafka_message_consumer.go:283-314 | the inner commit loop, likewise |
| `ConnectionTable.ExecuteRefinesMap` | internal/connection_repository/sql_connection_registrar.go:59-62 | every statement over the sequence of rows keeps at most one row per client, changes its target's row as a map update would and no other client's |
| `ConnectionTable.Database.Register` | internal/connection_repository/sql_connection_registrar.go:33-103 | update-else-insert as a map update: the update leaves facts and stale timestamp alone, a tenantless one keeps the failure count, errors map to none, plain or fatal, and a failed call leaves the table alone or has its effect |
| `ConnectionTable.Database.Unregister` | internal/connection_repository/sql_connection_registrar.go:105-130 | removes the client's row and no other; every failure is fatal |
| `ConnectionTable.Database.FindConnectionByClientID` | internal/connection_repository/sql_connection_registrar.go:132-196 | finds the map's row; a missing row and a failed query are told apart |
| `ConnectionTable.Database.RecordUpdatedStaleTimestamp` | internal/connection_repository/stale_connection_locator.go:81-109 | refreshes the row only if it still has the organization it was read with |
| `ConnectionTable.Database.RecordFailedTenantLookup` | internal/connection_repository/stale_connection_locator.go:111-140 | clears the tenant, sets the lookup time and counts the failure |
| `ConnectionTable.Database.RecordSuccessfulTenantLookup` | internal/connection_repository/tenantless_connection_locator.go:80-109 | stores the tenant, clears the lookup time and the count |
| `System.RunKeepsUnique` | internal/connection_repository/sql_connection_registrar.go:59-62 | in every run of all processes there is at most one row per client |
| `System.OthersKeepColumns` | internal/mqtt/message_handlers.go:53-65 | only the consumer of a client's own partition ever writes the client's message columns |
| `ControlMessages.GetHeaderValueAsString` | cmd/cloud-connector/kafka_message_consumer.go:154-163 | the value of the first header with the name, or the empty string |
| `ControlMessages.KafkaLog.ControlMessageHandler` | internal/mqtt/message_handlers.go:23-89 | appends a message keyed by the topic's client, or nothing for a rejected topic or an empty payload; the log stays keyed |
| `ControlMessages.KafkaLog.DefaultMessageHandler` | internal/mqtt/message_handlers.go:105-124 | a control topic adds its message with the client as key, any other topic nothing |
| `ControlMessages.ActionFollowsKey` | cmd/cloud-connector/kafka_message_consumer.go:185-218 | the client id parsed again from the topic header is the message key |
| `ControlMessages.ActionMeans` | internal/cloud_connector/message_handlers.go:98-105 | which messages stand for an online and which for an offline action, and of which client, from topic, kind and state |
| `ControlMessages.MessageMeans` | internal/cloud_connector/message_handlers.go:98-105 | the effect of one message read from its fields: an offline one removes the client's row; a new online one leaves the row with id, sent time, dispatchers and tags of the message and the facts of the first, resolved tenant and retry columns, and is sent to inventory iff it is a host with an identity; repeats, older messages and everything else leave table and inventory alone |
| `ControlMessages.ActionWellTyped` | internal/cloud_connector/utils.go:7-27 | content that the type assertions accept gives a row whose facts are never nil |
| `ControlMessages.Handler.HandleMessage` | cmd/cloud-connector/kafka_message_consumer.go:176-219 | one call has the effect that the message's fields mean, on the map of rows, on host inventory and on its result, and the effect of its action with updater statements landing between lookup and write |
| `ControlMessages.Handler.HandleOnlineMessage` | internal/cloud_connector/message_handlers.go:115-170 | the online handler, step by step, against the same specification |
| `ControlMessages.Handler.HandleOfflineMessage` | internal/cloud_connector/message_handlers.go:252-261 | offline messages are not checked for age; only a fatal error is returned |
| `ControlMessages.Handler.CheckForDuplicateOnlineMessage` | internal/cloud_connector/message_handlers.go:172-209 | fatal on a failed query; otherwise skips exactly duplicates and older messages |
| `ControlMessages.HandledColumns` | internal/cloud_connector/message_handlers.go:115-170 | whatever the updaters do in between, a handled message has been applied to the message columns of every client, or not at all, as the verdict says |
| `ControlMessages.AcknowledgedMeansApplied` | internal/cloud_connector/message_handlers.go:36-39 | a message is acknowledged without being in the table exactly when `Register` failed non-fatally and without effect |
| `Progress.HandlerTakesThreeSteps` | internal/cloud_connector/message_handlers.go:115-170 | lookup, resolution and write as three steps of the state machine, with any steps of the updaters and the other consumers between them, have the effect proved of the handler's method with their statements in between |
| `Tenancy.RunKeepsTenantColumns` | internal/connection_repository/stale_connection_locator.go:120 | from an empty table, under every interleaving: a failure count above zero implies a lookup timestamp, and a timestamp implies an empty organization |
| `Tenancy.RunKeepsSettled` | internal/connection_repository/tenantless_connection_locator.go:89 | if every successful lookup names an organization, then in every run the organization is empty iff the timestamp is set |
| `Tenancy.SettledExactlyWhen` | internal/connection_repository/tenantless_connection_locator.go:89 | one statement breaks that equivalence exactly when it records a successful lookup without an organization on an existing row |
| `Tenancy.UnsettledRowIsStuck` | internal/connection_repository/tenantless_connection_locator.go:21-24 | a row that breaks it and is in no updater's hand stays as it is and is taken up by no updater in every run in which its own partition is silent |
| `Tenancy.OrglessSuccessStrandsRow` | internal/connection_repository/tenantless_connection_locator.go:89 | a concrete run, of handler and tenantless updater, that ends in such a row: the premise on successful lookups is needed |
| `Retries.LookupsAreBounded` | cmd/cloud-connector/tenantless_connection_updater.go:41-68 | while only lookups write the table, the number of recorded lookups is bounded by the initial sum of the failures still allowed, however the resolver answers |
| `Retries.NothingLeftToLookUp` | internal/connection_repository/tenantless_connection_locator.go:19-26 | once that many lookups have been recorded no run selects a row again |
| `Retries.OldestAreTakenUpFirst` | internal/connection_repository/tenantless_connection_locator.go:19-26 | FIFO fairness: a candidate with r rivals of equal or older lookup time is in the result of one of r / chunkSize + 1 runs, whatever happens to other clients |
| `Retries.OldestAreLookedUpFirst` | internal/connection_repository/tenantless_connection_locator.go:40-75 | and by then its lookup has been recorded, or the last of those runs still has it queued |
| `Retries.FailureIsCounted` | internal/connection_repository/stale_connection_locator.go:120 | a recorded failure leaves the row without tenant, with the time of the lookup and one failure more |
| `Retries.FailedLookupIsRetried` | internal/connection_repository/stale_connection_locator.go:120 | a row whose lookup failed is taken up again once the offset has passed, with the same bound, while its count is below the maximum |
| `Retries.ExhaustedIsNeverPicked` | internal/connection_repository/tenantless_connection_locator.go:21-24 | and from the maximum on never again |
| `Retries.CountersCount` | cmd/cloud-connector/tenantless_connection_updater.go:41-68 | the counters in these bounds are the numbers of recorded lookups and of started runs |
| `Updaters.Select` | internal/connection_repository/tenantless_connection_locator.go:19-26 | every query has a result: rows that are due by their columns, oldest first, all of them unless the limit is reached |
| `Updaters.RefreshResult` | internal/connection_repository/stale_connection_locator.go:20-28 | a result of the stale query is the rows with organization, facts and one of two workers that are older than the cutoff, oldest first, all of them unless the limit is reached |
| `System.LookupsTakeOldest` | cmd/cloud-connector/tenantless_connection_updater.go:41-68 | a run of the tenantless updater takes up the rows without a tenant that have failures left and were looked up longer ago than the offset, oldest first |
| `System.RefreshesTakeOldest` | cmd/cloud-connector/inventory_stale_timestamp_updater.go:20-25 | a run of the stale updater takes up the hosts refreshed longer ago than one hour less than the stale offset, oldest first |
| `Updaters.LookUpTenant` | cmd/cloud-connector/tenantless_connection_updater.go:42-68 | the per-row callback on the map of rows: a failure clears the tenant and counts, a success stores it and resets the count |
| `Updaters.ProcessTenantlessConnections` | internal/connection_repository/tenantless_connection_locator.go:40-75 | one run of the tenantless updater with its callback, row by row |
| `Updaters.PassUsesPotential` | cmd/cloud-connector/tenantless_connection_updater.go:42-68 | a run with successful writes uses up at least one unit of potential per row |
| `Updaters.ProcessStaleConnections` | internal/connection_repository/stale_connection_locator.go:42-75 | one run of the stale updater, which may end early, with the messages it sends |
| `Updaters.RefreshHost` | cmd/cloud-connector/inventory_stale_timestamp_updater.go:80-108 | the per-row callback of the stale updater: it sends exactly a host with an identity on a successful lookup, marks the row fresh unless the producer failed, takes the tenant away on a failed lookup, and ends the process only on a failed write of a timestamp |
| `Updaters.NothingAfterFailedWrite` | internal/connection_repository/stale_connection_locator.go:92-106 | a run of the stale updater ends with the row whose refresh could not be written: no later row is written or sent |
| `Updaters.NoReportOfFailedLookup` | cmd/cloud-connector/inventory_stale_timestamp_updater.go:86-103 | a run of the stale updater sends no message for a failed lookup |
| `Progress.UpdaterTakesItsSteps` | cmd/cloud-connector/tenantless_connection_updater.go:41-68 | an undisturbed run of the tenantless updater is the state machine's sequence of lookups and writes |
| `Progress.RefresherTakesItsSteps` | cmd/cloud-connector/inventory_stale_timestamp_updater.go:80-108 | the same for the stale updater and its messages, up to the write on which its process dies |
| `Inventory.SanitizeCanonicalFacts` | internal/cloud_connector/utils.go:7-27 | keeps every fact but an invalid `insights_id`; nothing becomes an empty map, never nil |
| `Inventory.SanitizedIsClean` | internal/cloud_connector/utils.go:16-24 | sanitizing is idempotent and leaves no invalid id |
| `Inventory.SanitizedKeeps` | internal/cloud_connector/utils.go:14-24 | every other fact and a valid id are kept unchanged |
| `Inventory.CleanupCanonicalFacts` | internal/controller/connected_client_recorder.go:240-264 | keeps exactly the facts that are non-empty arrays or strings, unchanged |
| `Inventory.GateIsForHosts` | internal/controller/connected_client_recorder.go:207-238 | the gate lets through exactly connections with an identity, facts and one of the three workers |
| `Inventory.GateAgainstStaleQuery` | internal/controller/connected_client_recorder.go:207-238 | a handler-written row with a tenant passes the gate iff the stale query would select it once old enough or it has facts and the script worker speaks for it |
| `Inventory.RefreshedExactlyWhen` | internal/connection_repository/stale_connection_locator.go:21-28 | a row with a tenant that passes the gate is selected at some cutoff iff the playbook worker or the package manager speaks for it |
| `Inventory.ScriptWorkerIsNeverRefreshed` | internal/controller/connected_client_recorder.go:207-213 | a row that passes the gate without either of those has the script worker and is selected at no cutoff |
| `Tenancy.StaleRowsPassGate` | internal/connection_repository/stale_connection_locator.go:21-28 | in every run, every row the stale updater has in hand passes the recorder's gate for any non-empty identity |
| `Tenancy.NoFailedLookupIsReported` | cmd/cloud-connector/inventory_stale_timestamp_updater.go:86-105 | in every run no failed lookup, of the handler or of the stale updater, reaches host inventory, whatever successful lookups return |
| `Tenancy.OnlyTenantsAreReported` | internal/cloud_connector/message_handlers.go:126-159 | in every run no connection without a tenant reaches host inventory, if successful lookups name an organization |
| `Tenancy.ReportedExactlyWhen` | internal/controller/connected_client_recorder.go:110-205 | in every run a message for host inventory has gone out iff at some step the handler registered, or the stale updater refreshed, a host with just that answer and a non-empty identity and the delivery succeeded |
| `Tenancy.DoubtfulReportExactlyWhen` | internal/cloud_connector/message_handlers.go:126-159 | for any resolver: a message without an organization or on a failed lookup goes out in a run iff at some step the handler registered the connection with just that answer, an identity and a host past the gate; the stale updater never sends one |
| `Tenancy.OrglessSuccessIsReported` | internal/cloud_connector/message_handlers.go:126-159 | a concrete run that sends a connection without an organization to host inventory: the premise on successful lookups is needed |
| `Isolation.TenantlessRowsAreHidden` | internal/connection_repository/sql_connection_locator_v2.go:15-20 | in every reachable table any client, even one with an empty id, is visible to some read iff its row has a tenant; what is visible awaits no lookup and has no failures |
| `Locator.AccessRules` | internal/connection_repository/sql_connection_locator_v2.go:58-73 | strict lookup finds exactly the owner's row, relaxed lookup finds the same and more only with the satellite dispatcher, and both give the client's one row, column by column |
| `Locator.GetConnectionsByOrgId` | internal/connection_repository/sql_connection_locator_v2.go:121-193 | the loop over the result fills the page's map and the total that each row carries; every connection shown is a row of that organization, column by column |
| `Locator.GetAllConnections` | internal/connection_repository/sql_connection_locator_v2.go:195-265 | the nested map holds exactly the page's connections, each under its account |
| `Locator.RowsAreListed` | internal/connection_repository/sql_connection_locator_v2.go:140-145 | a listing is the selected rows, each once, by organization and then by client |
| `Locator.TextLeqIsLexicographic` | internal/connection_repository/sql_connection_locator_v2.go:140-145 | the text order of a listing is lexicographic |
| `Locator.WalkShowsEveryConnectionOnce` | internal/connection_repository/sql_connection_locator_v2.go:140-191 | for every positive machine-size limit, following `Next` from the start shows every listed connection on exactly one page and nothing else, and every page reports the true total |
| `Locator.LinksLeadToRows` | internal/controller/api/pagination.go:43-70 | from a page with rows at any offset every link leads to a page with rows and the true total iff offset and limit add up without overflow; a page without rows has no links |
| `Locator.PagePastTheEnd` | internal/connection_repository/sql_connection_locator_v2.go:125 | a page reports total zero exactly when it lies past the end, and then has no links |
| `Pagination.NextIsRightExactlyWhen` | internal/controller/api/pagination.go:46-63 | `Next` is there iff rows follow, and leads to the first of them, exactly when offset plus limit does not overflow |
| `Pagination.OverflowingNext` | internal/controller/api/pagination.go:46-63 | a concrete large limit for which a `Next` link to a negative offset appears |
| `Pagination.LastOffsetIsUnique` | internal/controller/api/pagination.go:72-75 | the last offset is the one multiple of the limit in [total - limit, total) |
| `Pagination.ForwardLinksStayOnGrid` | internal/controller/api/pagination.go:43-70 | `Next` is missing exactly on the last page, and `Next` and `Last` stay on the grid |
| `Pagination.PrevUndoesNextExactlyWhen` | internal/controller/api/pagination.go:46-67 | at any offset `Prev` undoes `Next` iff offset and limit add up without overflow |
| `Pagination.PrevStaysOnGrid` | internal/controller/api/pagination.go:47-67 | `Prev` is missing exactly on the first page and stays on the grid |
| `Pagination.NextLeadsToEnd` | internal/controller/api/pagination.go:43-63 | from a page at any offset, following `Next` by whole limits ends in the last `limit` rows |
| `Pagination.NextLeadsToLast` | internal/controller/api/pagination.go:43-63 | from any page of the grid it ends exactly at the `Last` offset, and cleanly iff that offset plus the limit does not overflow |
| `Pagination.PrevLeadsToStart` | internal/controller/api/pagination.go:65-67 | from any offset `Prev` reaches the start in offset / limit steps, rounded up |
| `Topics.AcceptedIffSubscribed` | internal/mqtt/topic.go:40-61 | for a prefix of one level other than the wildcard a topic name is accepted with a type iff that type's subscription delivers it under section 4.7.1 of MQTT 3.1.1, and exactly the printed topic gives the client |
| `Topics.AcceptedRebuilds` | internal/mqtt/topic.go:40-61 | accepted topics are rebuilt exactly from prefix, type and client |
| `Topics.VerifierAgreesExactlyWhen` | internal/mqtt/topic.go:40-95 | verifier and subscriptions agree on all topic names exactly when the prefix has no slash and is not the single-level wildcard, or makes the subscription invalid |
| `Topics.OutgoingIsNeverAccepted` | internal/mqtt/topic.go:77-87 | no outgoing topic is accepted as incoming, whatever the client id contains |
| `Topics.TopicsSpelledOut` | internal/mqtt/topic.go:10-15 | the topics of both kinds and directions, spelled out |
| `Topics.OutgoingIsInjective` | internal/mqtt/topic.go:77-87 | an outgoing topic determines its kind and its client |
| `AccountResolver.ServeAllIsSound` | internal/controller/account_resolver.go:280-319 | over all sequences of calls, delays, evictions and sweeps: a hit repeats an earlier answer of the base for the same client, a success at most cacheTTL old, an error younger than errorTTL and at most cacheTTL old; base calls are the misses, and hits and misses are all calls |
| `AccountResolver.CacheIsTransparent` | internal/controller/account_resolver.go:280-319 | the cached answer is the base's, if that has not changed for cacheTTL and failures return nothing but the error |
| `AccountResolver.BaseCallsAreSpaced` | internal/controller/account_resolver.go:280-319 | without evictions two base calls for a client are more than cacheTTL apart after a success and at least min(errorTTL, cacheTTL) after an error |
| `AccountResolver.ExpirableCachedAccountIdResolver.MapClientIdToAccountId` | internal/controller/account_resolver.go:280-319 | the method with its branches does one step of that machine and returns the reply it records |
| `AccountResolver.ConfiguredContract` | internal/controller/account_resolver.go:247-259 | a failure of the configured resolver carries nothing but its error; its successes all name an organization exactly when the default organization is set |
| `AccountResolver.WhoGetsWhichTenant` | internal/controller/account_resolver.go:247-259 | a listed client gets its own entry's tenant, or its own error iff it has one and no organization; the rest get the default; a success carries the identity of the tenant it returns |
| `AccountResolver.NoForeignTenant` | internal/controller/account_resolver.go:247-259 | a success returns the client's own entry's tenant or the default, never another entry's |

## Left out

- MQTT, Kafka and PostgreSQL clients, TLS, JWT, SASL, HTTP routing, logging, metrics, configuration and migrations: library calls and I/O; their results are parameters here.
- SQL as a language: each statement is the function on rows that it denotes and runs atomically; the columns `id`, `created_at` and `updated_at`, which nothing reads, row scan failures and NULL accounts are not modelled.
- Consumer-group rebalances: one active consumer per partition, and one run of each updater at a time.
- A reader that holds several partitions: its loop shares the two error counters and a fatal message stops all of them; here each partition has a loop of its own, and a common stop is a crash of each.
- JSON, base64 and UUID parsing: messages are typed values and `validUUID` and the identity encoding are arbitrary functions; content on which the code's type assertions panic is excluded by `MessageWellTyped`, which asks for well-typed tags and catalog fields also of hosts on which those assertions are not reached.
- Sources registration (`processDispatchers`), the envelope of inventory messages beyond client, organization and lookup, tags in inventory messages, ping, reconnect and disconnect commands, header and key authentication, the Pendo reporter: thin, or outside the lifecycle.
- The gateway resolver (`BOPAccountIdResolver`): an HTTP call; the runs take any resolver that answers by client and step.
- The internals of the third-party LRU: the model keeps its contract, expiry after the time to live, refresh by `Add`, and lets any entry be evicted or swept; a time to live of zero or less, which the library reads as ten years, is not modelled.
- The classification of database errors as fatal: the outcome of a write is a parameter.
- Time zones, precision and clock skew: times are integers of one clock that does not go back.
- Float rounding of the last-page calculation: exact real division, which agrees while the total is at most 2^53.
- Limit 0, which the query validation allows, is excluded where the code divides by the limit.
- Text order of the database's collation: pages are ordered by code point, and the page theorems need only that the order is total.
- A percent sign in the topic prefix, which the outgoing builders would read as a format directive.
- `ExactlyOnce.ExactlyOnceEffect`: excludes non-fatal `Register` failures without effect, for which it is false; `ExactlyOnce.CommittedLogIsAppliedOnce` covers them.
- `Isolation.ApiShowsLatestMessage`: needs a partition without losses, one answer per client from the resolver, and the premise of `MessageLog.PassClosedForm`; `Ingestion.LogOrderDecides` covers runs with losses.
- `MessageLog.PassClosedForm`: fails for a log that reuses a message id for a different, newer message (`MessageLog.ReusedIdHidesLaterMessage`); its premise follows from equal ids meaning equal messages and is exact by `MessageLog.ClosedFormExactlyWhen`, and `MessageLog.RowIffOnline` does without.
- `Retries.OldestAreTakenUpFirst`: needs the updater's writes to succeed and the updater to stay up; a run that dies leaves its rows to the next one in the same order. `Retries.OldestAreLookedUpFirst` likewise.
- `Tenancy.InterleavingsAgree`: needs the two runs to have lost the same messages of the partition, without which the columns may differ, and a resolver that keeps to one answer; compares neither the values of the lookup and stale timestamps nor the failure count, which depend on the clock and on how often a lookup was retried.
