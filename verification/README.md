# QuantumLeap verification model

A Dafny model of the parts of QuantumLeap where state, order and concurrency matter, with proofs about them.
`dafny verify dfyconfig.toml` checks everything.

## What is modelled

- **The SQL translator** (`Ngsi`, `Database`, `RowInsert`, `Translator`, `Response`, `Caching`). The database is a map
  of tables (columns and rows) and a map of metadata; each statement is its effect. A script of fates says how each
  multi-row insert ends: accepted, answered with negative row counts, or raising, with any subset of rows let in.
  `SqlTranslator`, `Connection` and `QueryCache` are classes whose methods follow the source step by step; each is
  proved to do what a function on states says, and the theorems are about those functions.
- **What follows for the translator**: `Partition` (who is inserted by which call), `Coherence` and `Clashes` (what every
  sequential run keeps, and when it does not), `Tenants` (tenants do not see each other), `Queryable` (every reachable
  store can be queried), `Kept` (no entity is lost), `History` and `ReadBack` (insert, then query), `Spelling` (queries
  are contiguous by type), `Workers` (Timescale workers interleaving).
- **The cost splitter** (`CostSplitter`): the put-back stream as a class, its greedy split, and the documented
  right-greedy function, with optimality of both.
- **Telemetry** (`Observations`, `BucketThreads`): observation stores and their sum, the buffer and the bucket, and a
  machine in which threads interleave inside and outside the lock.
- **Task ids and retries** (`Utf8`, `Base64`, `TaskIds`, `Retries`).
- **Reports** (`Grouping`, `ByType`, `Reports`): grouping query results by type through one shared list.
- **Geometry** (`Geometry`, `GeoQuery`): Simple Location Format geometries, GeoJSON, centroids, normalisation, the
  georel grammars and the near query of both back-ends.

`Sequences` and `Strings` hold what they share.

## Where the code and its notes differ

- The function in the notes of `src/utils/itersplit.py` is greedy from the right, the code from the left. The number of
  batches agrees (`CostSplitter.GreedyCountsAgree`); the batches agree exactly when the split with fewest batches is
  unique (`CostSplitter.GreedyBatchesAgree`), which it need not be (`CostSplitter.GreedyBatchesDiffer`).
- `flush` in `src/server/telemetry/observation.py` leaves the memory counter alone, so once the threshold has been
  passed every put is flushed (`BucketThreads.BufferStaysBounded`).
- Stores may reach the sink out of flush order (`BucketThreads.LaterFlushMayArriveFirst`), exactly when a thread hands
  one on while another still owes an earlier one (`BucketThreads.DeliveredInFlushOrder`).
- A task id pattern finds more than `src/wq/core/task.py` says; `TaskIds.PatternIsExact` has the exact condition.
- When a batch fails on Crate the row counts of the raw insert are not looked at, so an insert can return with an
  entity stored nowhere (`RowInsert.RefusedRescueLosesEntity`); `RowInsert.NoEntityLost` says exactly when it can.
- A `StopTask` handled after the scheduler put the job back need not stop it (`Retries.StopCanBeOvertaken`);
  `Retries.StopIsFinal` says exactly when it does.
- Table and metadata part when the first insert for a table has an attribute named `instanceId` in any case: the create
  fails after the metadata was stored, and from then on every insert for the table fails until it is dropped
  (`Clashes.ClashOrphans`, `Clashes.OperationStaysOrphaned`). On Crate an attribute named like an internal column can
  stop an alter half-way. `Coherence.SchemaStaysCoherent` has the exact condition.
- Table names are put together without escaping, so services with a double quote can share tables
  (`Tenants.QuotedServicesCollide`); `Tenants.NamesAgree` and `Tenants.TenantsApart` say exactly when.
- An insert can be ready before the table has its columns (`Workers.EarlyInsertMissesColumn`);
  `Workers.ReadyInsertFindsColumns` says exactly when.
- Overlapping metadata updates lose columns (`Workers.OverlapLosesColumn`), as a note in
  `src/translators/sql_translator.py` suspects; `Workers.SaveForgetsExactly` says which ones.
- Normalising a box a second time moves its centroid (`Geometry.NormalizeBoxTwice`).
- A location with a text that cannot be read behind the points its constructor needs makes normalising raise instead of
  being left alone (`Geometry.ThirdTextUnreadable`); `Geometry.NormalizeRaises` has the exact condition.

## Assumptions

- Metadata statements succeed, and data definition fails only for a column named twice, one already there or a missing
  table. A failed metadata read would make the persisted metadata empty and overwrite it.
- A value conversion of a back-end is an arbitrary pair of functions; where values are read back, reading is taken to
  undo writing unless writing stored NULL.
- `sorted` of a set of columns, and the order in which Python goes through one, are some listings of it without
  repetition.
- `ReadBack` and `History`: one spelling and one type for each attribute, no attribute named like an internal column or
  `index`, service paths that fit, all bulk inserts accepted; `last_n` results also need distinct times.
- `Workers`: the table exists and query caching is off; the first create is excluded because a failed alter is
  swallowed by the connection guard.
- Texts are sequences of Unicode scalar values; lower-casing is that of ASCII letters.
- Costs of `CostSplitter` are non-negative where optimality is claimed.

## Model

| member | source | states |
|---|---|---|
| CostSplitter.IterCostSplitter.constructor | src/utils/itersplit.py:67-78 | A splitter has a cost function and a batch goal; the cost function is any function. |
| CostSplitter.IterCostSplitter.Next | src/utils/itersplit.py:91-106 | Reading the stream gives its first item and leaves the others, or nothing when it is dry. |
| CostSplitter.IterCostSplitter.PutBack | src/utils/itersplit.py:80-81 | Putting an item back makes it the next one read. |
| CostSplitter.IterCostSplitter.IsEmpty | src/utils/itersplit.py:83-89 | Testing for emptiness leaves the stream as it was, although it reads an item. |
| CostSplitter.IterCostSplitter.NextBatch | src/utils/itersplit.py:91-106 | One batch is the longest admissible start of the stream, nothing else is consumed, and the flag falls exactly when the stream ran dry. |
| CostSplitter.IterCostSplitter.ListBatches | src/utils/itersplit.py:108-131 | Draining all batches, each before the next is asked for, terminates and gives the left-greedy split of the input. |
| CostSplitter.LeftGreedyIsSplit | src/utils/itersplit.py:17-40 | Joining the batches gives the input back in order, no batch is empty, and every batch longer than one item costs at most the goal; no input, no batches. |
| CostSplitter.FirstBatchLongest | src/utils/itersplit.py:91-106 | For non-negative costs no admissible batch at the head of a stream is longer than the one read. |
| CostSplitter.FirstBatchEnds | src/utils/itersplit.py:91-106 | Whatever the costs, negative ones included, the batch read is the one no start of which with more than one item costs too much and to which one item more would be too much. |
| CostSplitter.GreedyStaysAhead | src/utils/itersplit.py:91-131 | Splitting any suffix of a stream takes no more batches than any admissible split of the whole stream. |
| CostSplitter.LeftGreedyOptimal | src/utils/itersplit.py:40-65 | No split into non-empty contiguous admissible batches has fewer batches than the splitter produces. |
| CostSplitter.PhiIsSplit | src/utils/itersplit.py:42-62 | The documented function, greedy from the right, also gives an admissible split. |
| CostSplitter.PhiDominates | src/utils/itersplit.py:42-62 | Among all admissible splits the documented one has the fewest batches and, among those, the shortest first batch. |
| CostSplitter.GreedyCountsAgree | src/utils/itersplit.py:42-65 | The code and its documented function agree on the number of batches for every input and every non-negative cost. |
| CostSplitter.GreedyBatchesAgree | src/utils/itersplit.py:42-65 | For every input and every non-negative cost the code's batches are the documented ones exactly when no other admissible split has as few batches. |
| CostSplitter.GreedyBatchesDiffer | src/utils/itersplit.py:42-65 | They need not be: 2, 3, 1 with goal 5 is split differently. |
| CostSplitter.ToInsertBatches | src/translators/insert_splitter.py:45-68 | Without a configured size there is one batch with all rows. With one the batches are an admissible split of the rows, no rows giving no batches; for non-negative sizes no admissible split has fewer batches, and no admissible start of the rows is longer than the first. |
| CostSplitter.InsertBatchesSplit | src/translators/insert_splitter.py:45-68 | The same of the function the insert is specified with; the batches an insert executes carry it (`RowInsert.JoinedBatches`, `Translator.TableBatches`). |
| CostSplitter.InsertBatchesJoin | src/translators/insert_splitter.py:45-68 | Either way the batches joined are the rows. |
| Ngsi.CheckEntities | src/translators/sql_translator.py:251-271 | Either the first offending entity stops the insert with its error, or every entity comes out with a time index. |
| Ngsi.InferColumns | src/translators/sql_translator.py:273-342 | The two dictionaries the loop fills: the table columns and the original attributes, later occurrences overwriting earlier ones. |
| Ngsi.OriginalAttrsKeys | src/translators/sql_translator.py:273-331 | An insert infers exactly the base columns and the columns some attribute of some entity mentions. |
| Ngsi.ChecksPass | src/translators/sql_translator.py:251-271 | An insert goes on exactly when every entity has its type and none a reserved attribute; each is then as it was, with the current time where it had no time index. |
| Ngsi.FirstOffenderDecides | src/translators/sql_translator.py:251-271 | Otherwise the first entity that does not pass gives the error: for its type if that is wrong, else for the reserved name. |
| Ngsi.SameColumn | src/translators/sql_translator.py:187-200 | Attributes have the same column exactly when their names agree in lower case, and one of the translator's own exactly when they agree with its text. |
| RowInsert.PreprocessValues | src/translators/sql_translator.py:463-518 | Values come in column order, one for each column: identity cells, service path, time index, converted attribute or NULL. |
| RowInsert.KeepRawEntities | src/translators/sql_translator.py:396-403 | Each row gets its own entity wrapped in the original-entity cell, and no other cell changes. |
| RowInsert.BuildInsertParamsAndValues | src/translators/sql_translator.py:396-407 | The statement has the lower-case columns in order and the rows, with raw entities if they are kept. |
| RowInsert.RowsStayAligned | src/translators/sql_translator.py:344-353 | The assumption the code calls brittle holds: in the joined batches row i, column j is the value of entity i for column j, rows are as long as the placeholder list, and with raw entities kept the original-entity cell of row i wraps entity i. |
| Database.StatementOutcome | src/translators/sql_translator.py:362-378 | A bulk insert into a missing table, into a column it lacks or twice into one raises a programming error and stores nothing; any other stores the rows its fate keeps and ends as that says. |
| RowInsert.ExecuteBatches | src/translators/sql_translator.py:362-378 | Batches run in order until one raises or reports a negative row count. |
| RowInsert.InsertOrRescue | src/translators/sql_translator.py:356-394 | The batches, and if one fails the raw entities where the back-end and the error ask for them. |
| RowInsert.InsertEntityRows | src/translators/sql_translator.py:356-394 | The whole insert of a table: statement, batches and rescue together. |
| RowInsert.BatchesLand | src/translators/sql_translator.py:362-378 | After any sequence of fates the table has the old rows and exactly the rows the fates let in, in order. |
| RowInsert.AllBatchesLand | src/translators/sql_translator.py:356-378 | On either back-end, with every batch accepted all rows are stored, no raw one, and the call returns. |
| RowInsert.StatementFails | src/translators/sql_translator.py:379-394 | On either back-end, a table that cannot take the statement gets the raw rows and no others, and the call raises exactly when the raw insert does. |
| RowInsert.BatchFails | src/translators/sql_translator.py:356-394 | The first batch that fails decides. What is stored of the normal rows is all of the batches before it and of that batch what its fate keeps. On Crate, and on Timescale if it raised a programming error, the raw rows come behind, and the call raises exactly when the raw insert does; on any other failure the call on Timescale ends with that error and no raw row is added. |
| RowInsert.CrateKeepsEntities | src/translators/sql_translator.py:356-394 | On Crate, whatever the fates and even where the table cannot take the statement, the new rows are marked normal rows and then marked raw rows, at most one of each an entity; with no failed batch exactly the normal ones; after a failure the call raises exactly when the raw insert does, and otherwise every entity has its raw row unless the raw insert had rows refused. |
| RowInsert.NoEntityLost | src/translators/sql_translator.py:356-449 | Whichever rows a refusing raw insert keeps, an insert that returns has lost no entity: that holds exactly when no batch failed, the raw insert refuses nothing, or all normal rows are in. |
| RowInsert.RefusedRescueLosesEntity | src/translators/sql_translator.py:437-449 | The row counts of the raw insert are not looked at: an insert can return with an entity stored nowhere. |
| Strings.LowerLetters | src/translators/sql_translator.py:181-184 | Lower-casing, of ASCII letters: the k-th capital becomes the k-th small letter, anything else stays. |
| Tenants.NamesAgree | src/translators/sql_translator.py:173-185 | For all types and services, exactly when two table names are the same: types and services agree in lower case, no service and an empty one being the same, or one service goes on from the other with the quotes that end a tenant and a type that makes up for it. |
| Tenants.TenantsApart | src/translators/sql_translator.py:173-185 | Two services have no table in common, whatever the types, exactly when they differ and neither goes on from the other that way. |
| Tenants.PlainNames | src/translators/sql_translator.py:173-185 | For services without a double quote two names agree exactly when the types and the services do in lower case. |
| Tenants.QuotedServicesCollide | src/translators/sql_translator.py:173-185 | With one every service shares tables with others. |
| Tenants.OtherTenantLeaves | src/translators/sql_translator.py:202-354 | An insert, delete or drop of another tenant, whether it succeeds or not, leaves every table of a tenant with its rows and columns, its metadata and its cached metadata as they were. |
| Tenants.OwnOperationAlike | src/translators/sql_translator.py:202-354 | What an operation does to the tables of its tenant and answers its caller depends on those tables and their metadata only. |
| Tenants.TenantsDoNotInterfere | src/translators/sql_translator.py:202-354 | Over every run of operations of any tenants apart, the tables and metadata of each are what they would be had it been alone. |
| Translator.SqlTranslator.constructor | src/translators/sql_translator.py:117-125 | A translator has a connection, a configuration and maybe a cache. |
| Translator.SqlTranslator.Cache | src/translators/sql_translator.py:1774-1781 | Caching stores under the translator's hash, and does nothing without a cache. |
| Translator.SqlTranslator.RemoveFromCache | src/translators/sql_translator.py:1783-1790 | Removing takes the one key out of the hash. |
| Translator.SqlTranslator.ExecuteQueryViaCache | src/translators/sql_translator.py:1741-1762 | A cached metadata entry is returned as it is; otherwise the database answers, and the answer is cached. |
| Translator.SqlTranslator.UpdateMetadataTable | src/translators/sql_translator.py:659-719 | The keys that were missing are added to the persisted ones, which stay as they are; with any missing the merge is stored and put into the cache. The result is the keys that were missing. |
| Translator.SqlTranslator.SortOutSchema | src/translators/sql_translator.py:333-342 | Metadata and data table catch up with the entities of an insert; the call may raise. |
| Translator.SqlTranslator.SortOutDataTable | src/translators/sql_translator.py:333-342 | Create when everything is new, alter when something is, else nothing; a statement that fails raises on Crate. |
| Translator.SqlTranslator.GatherValues | src/translators/sql_translator.py:344-350 | One entry an entity, in entity order. |
| Translator.SqlTranslator.InsertEntitiesOfType | src/translators/sql_translator.py:249-354 | One insert of one type, from checks to rows; it ends where a check or the schema raises. |
| Translator.SqlTranslator.InsertRowsOf | src/translators/sql_translator.py:344-354 | The rows of the entities, in sorted column order, with batches and rescue. |
| Translator.SqlTranslator.Partition | src/translators/sql_translator.py:202-247 | The calls an insert makes, or the error for a path-count mismatch. |
| Translator.SqlTranslator.PartitionByPath | src/translators/sql_translator.py:220-247 | One group of calls for each service path, paths in first-occurrence order. |
| Translator.SqlTranslator.PartitionAt | src/translators/sql_translator.py:207-219 | One call for each type met, types in first-occurrence order. |
| Translator.SqlTranslator.RunCalls | src/translators/sql_translator.py:202-247 | The calls run one after the other, the first error ending the insert. |
| Translator.CallsInTurn | src/translators/sql_translator.py:202-247 | Calls behind others run on what those leave; behind one that raised none runs, and the insert ends with its error. |
| Translator.SqlTranslator.Insert | src/translators/sql_translator.py:202-247 | An insert is its partition followed by its calls. |
| Partition.InsertPartitions | src/translators/sql_translator.py:202-247 | Every entity goes to exactly one call, that of its own type and its own space-stripped path, order kept inside each call; the partition fails exactly when the paths are neither one nor as many as the entities. |
| Partition.CallPicks | src/translators/sql_translator.py:202-247 | By positions in the request: a call has exactly the entities of its type whose own path, or the one path given, is that of the call, in input order, and at least one. |
| Partition.PathsAreThePieces | src/translators/sql_translator.py:207-213 | The service paths are the comma-separated pieces of the header without its spaces, no more and no fewer. |
| Partition.MismatchInsertsNothing | src/translators/sql_translator.py:228-236 | On a path-count mismatch the insert raises with store and cache untouched. |
| Translator.SqlTranslator.DeleteEntities | src/translators/sql_translator.py:1545-1572 | Matching rows go; the cached metadata entry goes; stored metadata stays. |
| Translator.SqlTranslator.DropTable | src/translators/sql_translator.py:1574-1594 | The table, its metadata and its cached metadata go. |
| Coherence.ReadIsTruthful | src/translators/sql_translator.py:678-683 | With a coherent cache the metadata read is the stored one, and the cache stays coherent. |
| Coherence.CachedAnswers | src/translators/sql_translator.py:1741-1762 | A cached metadata entry is the answer, whatever the database has; what the database answers is cached. |
| Coherence.UpdateMarks | src/translators/sql_translator.py:659-719 | An update leaves the marker of the metadata table in the cache, and changes no other entry but that of its table. |
| Coherence.UpdateStoresMerge | src/translators/sql_translator.py:685-719 | What an update leaves stored is the merge in which persisted entries win, and the result is the keys that were missing. |
| Coherence.MetadataCatchesUp | src/translators/sql_translator.py:685-719 | Whatever becomes of the table, the stored metadata is the merge in which known entries win, the cache agrees with it, and no row and no other table changes. |
| Coherence.SchemaStaysCoherent | src/translators/sql_translator.py:333-342 | The table keeps up with the metadata exactly when, being new, it would not have `instanceid` twice, or, being altered, on Crate no column is listed behind one that every table has; the call returns exactly when on Timescale or without such a clash; create rather than alter is chosen exactly when the table has no metadata. |
| Coherence.InsertOfTypeExtends | src/translators/sql_translator.py:249-354 | Whatever fate the rows and the table meet, an insert of one type overwrites no metadata entry, keeps the cache coherent and touches no other table. |
| Coherence.InsertOfTypeStaysCoherent | src/translators/sql_translator.py:249-354 | Whatever fate the rows meet, an insert of one type leaves its table coherent exactly when the schema fits, in particular without a clash; on Crate a clash makes it fail. |
| Coherence.OperationStaysCoherent | src/translators/sql_translator.py:202-247 | Inserts, deletes, drops and cache expiry each keep the cache coherent, and every table that no call of theirs clashes with. |
| Coherence.DeleteStaysCoherent | src/translators/sql_translator.py:1545-1572 | A delete takes exactly the matching rows of its table, keeps columns and metadata, and forgets the cached entry; without the table it changes nothing, the cache included. |
| Coherence.DropStaysCoherent | src/translators/sql_translator.py:1574-1594 | A drop takes the table, its metadata and its cached entry away and nothing else; the table is coherent then, whatever state it was in. |
| Coherence.EmptyIsCoherent | src/translators/sql_translator.py:117-125 | An empty database is coherent with any cache that has no hash of the translator yet. |
| Coherence.RunStaysCoherent | src/translators/sql_translator.py:273-342 | Over every sequential run the cached metadata is the stored one, and for every table no insert clashes with: a table just when there is metadata, three base columns in it, table columns equal to metadata keys and the three internal columns. |
| Coherence.EntriesSurvive | src/translators/sql_translator.py:695-716 | Over every run, as long as its table is not dropped a metadata entry is neither lost nor changed, and while the table is coherent it has the column. |
| Clashes.HarmlessRunsStayCoherent | src/translators/sql_translator.py:273-342 | A condition on the entities alone: every run in which no entity for a table has an attribute named like the instance id, on Crate like any internal column, keeps the table coherent. |
| Clashes.ClashOrphans | src/translators/sql_translator.py:333-342 | Otherwise not: the first insert for a table that mentions `instanceId` in any case fails on either back-end, and leaves metadata without a table. |
| Clashes.OperationStaysOrphaned | src/translators/sql_translator.py:333-342 | Once that happened every insert with an entity for the table fails, and nothing but a drop mends it. |
| Clashes.RunStaysOrphaned | src/translators/sql_translator.py:333-342 | So over every run without such a drop. |
| Queryable.RunStaysReady | src/translators/sql_translator.py:202-461 | Every run, whatever became of rows and tables, leaves all rows of a table, raw ones of failed batches included, naming their entity and its type, spelled as in some insert. |
| Queryable.RunsAreQueryable | src/translators/sql_translator.py:437-518 | So after every run from an empty database each table has the identifying columns, and each row their texts, that a query relies on. |
| History.InsertOutcome | src/translators/sql_translator.py:249-354 | Entities of a known schema with succeeding steps: one new row each, representing it, and all their columns known afterwards. |
| History.CallsOfOneType | src/translators/sql_translator.py:202-247 | An insert of entities of one type makes one call for each service path, paths in first-occurrence order, with the entities of that path in order. |
| History.ReceivedIsAddressed | src/translators/sql_translator.py:202-247 | What such an insert adds to the history is its entities, each once with its own path and a time index; with one path for all, in the order given. |
| History.ElsewhereLeaves | src/translators/sql_translator.py:202-247 | Inserts of other types, deletes and drops of other tables and cache expiry, whether they succeed or not, leave a table and its metadata alone. |
| History.InsertsAreRecorded | src/translators/sql_translator.py:202-354 | After any run whose operations each insert entities of one type or go elsewhere, none of those inserts fails, and the rows of the table are, one for one and in order, the entities received. |
| Kept.InsertKeepsEntities | src/translators/sql_translator.py:202-449 | If a whole `insert` returns, on either back-end and whatever batches failed, and no raw insert had rows refused, every entity of the request has a row in the table of its type: a normal one with its time index or a raw one with all of it. |
| Response.GetLimit | src/translators/sql_translator.py:777-793 | The limit is the least of what was asked for, the default and `last_n`, and the error comes exactly when one of those given is below one. |
| Response.SelectRows | src/translators/sql_translator.py:1113-1130 | The database's answer: the page of an ordering by time of exactly the matching rows; none without the table or a column. |
| Response.FormatResponse | src/translators/sql_translator.py:1456-1511 | The nested loops give, in id order, the entities found in the rows, turned round first for `last_n`. |
| Response.RowsGiveIndex | src/translators/sql_translator.py:1487-1505 | An entity's index is the times of its rows, in row order, each as often as the columns selected ask for the time. |
| Response.RowsGiveValues | src/translators/sql_translator.py:1487-1509 | An attribute series has for each row of the entity, in row order, its value as often as the columns selected ask for it. |
| Response.RowsGiveEntities | src/translators/sql_translator.py:1487-1511 | The answer has an entity exactly when a row has its id. |
| Strings.ContainsIs | src/translators/sql_translator.py:1475-1476 | A text contains another just when it stands somewhere in it. |
| Response.RowsOfTypeGiveEntities | src/translators/sql_translator.py:1475-1477 | Only rows count whose type in lower case stands in the name of the table. |
| Response.RowsOnlyFed | src/translators/sql_translator.py:1487-1509 | An answer has no attribute that no column selected holds, and each has the type its column was made for. |
| Response.LastNIsTail | src/translators/sql_translator.py:1456-1458 | Turning round the page of a descending selection gives the last rows of the ascending one, given distinct times. |
| Response.SeriesLengths | src/translators/sql_translator.py:1487-1509 | A series of an entity found is as long as its index exactly when as many of the columns selected feed it as feed the index, that is when the attribute is asked for once. |
| Response.RowsLabel | src/translators/sql_translator.py:1487-1499 | Every entity of an answer has the id it is listed under and the type of the rows. |
| Response.RowsContinue | src/translators/sql_translator.py:1487-1509 | The series of an answer for rows behind others are the series for those, continued. |
| Response.LastNSeriesAreSuffixes | src/translators/sql_translator.py:893-910 | Every series of the answer for the last rows, index and attributes, is a suffix of that in the full answer. |
| Translator.SelectListAsks | src/translators/sql_translator.py:750-774 | The columns selected are, for no attributes asked for, those of the table once each, else the identifying ones and that of each attribute as often as it is asked for; the table has them all exactly when it has a column for every attribute asked for. |
| Translator.SqlTranslator.QueryTable | src/translators/sql_translator.py:1113-1138 | One table's part of a query; without the table, or without a column for an attribute asked for, no entities. |
| Translator.SqlTranslator.QueryTables | src/translators/sql_translator.py:1106-1139 | The parts of the tables, joined in name order. |
| Translator.SqlTranslator.Query | src/translators/sql_translator.py:912-1139 | `last_n` or limit 0 gives the empty answer, a bad limit the error, everything else the joined parts. |
| ReadBack.InsertThenQuery | src/translators/sql_translator.py:202-1139 | After any run that inserts entities of one type into a store that does not know it, with whatever happens elsewhere in between, the rows mirror the entities received and `query` may be called. For any attributes, filter, limit and offset its answer in ascending order shows exactly the entities of the page: each under its id and type, its index their times in order, and for every attribute asked for that the table knows, and for no other, its type and a series with the value inserted or null for each time, also for rows older than the column; what is asked for several times comes as often. If the table lacks a column for an attribute asked for, the answer is empty. |
| ReadBack.AskedOnceShows | src/translators/sql_translator.py:1487-1509 | What is asked for once is shown once: the index is just the times, a series just the values. |
| ReadBack.AllColumnsAnswerable | src/translators/sql_translator.py:750-757 | A query for all attributes is answered from any table with metadata, and asks for every column once. |
| ReadBack.SeriesAsLongAsIndex | src/translators/sql_translator.py:1487-1509 | The series of an attribute asked for as often as the time is as long as the index. |
| ReadBack.LastNQueryAnswersTail | src/translators/sql_translator.py:1113-1130 | A `last_n` query of one table without offset answers, in ascending order, with exactly the last rows of the unlimited result, as many as its limit. |
| ReadBack.LastNQueryGivesEnds | src/translators/sql_translator.py:777-793 | The answer of a `last_n` query is that for the last rows, as many as the least of `last_n`, limit and default limit, and every series of it is a suffix of that in the full ascending answer; without the table, its metadata or a column both are empty. |
| Reports.QueryIsContiguous | src/translators/sql_translator.py:1106-1139 | A query over tables that each hold one spelling of their own type finds entities contiguous by type. |
| Spelling.RunKeepsSpelling | src/translators/sql_translator.py:202-461 | After every run from an empty database whose inserts spell the type of a table in one way, with no attribute in the column of the type, the table holds just that spelling, whatever became of the rows. |
| Spelling.QueryAfterRunIsContiguous | src/translators/sql_translator.py:1106-1139 | So after every such run what a query finds is contiguous by type. |
| Grouping.FirstKeysInOrder | src/translators/sql_translator.py:207-219 | Keys come in the order they first occur: each occurs before any of the later ones does. |
| Grouping.GroupsArePermutation | src/translators/sql_translator.py:207-219 | Grouping by a key loses and repeats nothing. |
| Grouping.CollectGroups | src/translators/sql_translator.py:207-219 | Collecting into a dictionary of lists is grouping by key: keys in first-occurrence order, members in input order. |
| Caching.QueryCache.constructor | src/cache/querycache.py:14-16 | The cache starts empty. |
| Caching.QueryCache.Get | src/cache/querycache.py:18-23 | Reading gives what was stored under hash and key. |
| Caching.QueryCache.Exists | src/cache/querycache.py:25-26 | A key exists exactly when reading it gives something. |
| Caching.QueryCache.Put | src/cache/querycache.py:28-35 | Storing changes one key of one hash and nothing else. |
| Caching.QueryCache.Delete | src/cache/querycache.py:37-38 | Deleting takes one key away. |
| Caching.QueryCache.Expire | src/cache/querycache.py:28-35 | The time limit takes the whole hash away. |
| Coherence.ExpiryStaysCoherent | src/cache/querycache.py:28-35 | As an operation of a run it forgets all entries of the hash and nothing else. |
| Database.CreateOutcome | src/translators/timescale.py:161-191 | The same without naming the model's own function: which columns and rows the table has afterwards, that no other table changes, and whether the call returns. |
| Database.CreateDataTable | src/translators/timescale.py:161-191 | A table not there is created with its columns in lower case and no rows, unless that names one twice: Crate raises then, Timescale only logs. An existing one is left alone by Crate and given the columns it lacks by Timescale. |
| Workers.InterleavingsStayAccounted | src/translators/timescale.py:161-201 | Under every interleaving of workers on an existing table, query caching off, each metadata column is in the table or stored by a worker that has yet to add it, and the table never loses a column. |
| Workers.ReadyInsertFindsColumns | src/translators/timescale.py:193-201 | An insert that is ready finds its columns in the table exactly when none of them is stored by a worker and still missing from the table; in particular when no worker is between its store and its alter. |
| Workers.EarlyInsertMissesColumn | src/translators/timescale.py:193-201 | It can fail to: an insert that reads between another's store and alter is ready while the table lacks its column. |
| Workers.AloneIsSequential | src/translators/timescale.py:161-201 | A worker left alone does what the sequential insert does, and is idle again when it finishes. |
| Workers.NonOverlappingInsertRestores | src/translators/timescale.py:278-288 | An insert that no other store overlaps keeps every entry and adds all its columns, among them those an earlier overlap lost. |
| Workers.SaveForgetsExactly | src/translators/timescale.py:278-288 | A store forgets exactly the columns stored since its worker read that the worker does not carry itself. |
| Workers.OverlapLosesColumn | src/translators/timescale.py:278-288 | Two overlapping inserts with a new column each lose one column from the metadata, though the table keeps it. |
| Database.UpdateDataTable | src/translators/crate.py:218-223 | Crate adds the new columns one statement at a time, in the order given, and raises at the first the table has already; Timescale adds all at once. |
| Coherence.AddingEach | src/translators/crate.py:218-223 | On a table that has none of them but internal ones, adding one by one is adding those before the first internal one at once, and returns exactly when there is none. |
| Observations.BuildStore | src/server/telemetry/observation.py:165-192 | The loop builds the store defined observation by observation. |
| Observations.SeriesOfStore | src/server/telemetry/observation.py:165-192 | A label's series is its measurements in input order, and a label is present exactly when it has some. |
| Observations.StoreOfConcat | src/server/telemetry/observation.py:195-231 | The store of joined lists is the documented sum of their stores. |
| Observations.PlusAssociates | src/server/telemetry/observation.py:195-204 | The documented sum is associative. |
| Observations.PlusEmpty | src/server/telemetry/observation.py:195-204 | The empty store is its unit. |
| Observations.MergeStore | src/server/telemetry/observation.py:226-229 | The inner loop adds one store to another, label by label in any order. |
| Observations.MergeStores | src/server/telemetry/observation.py:195-231 | The loops compute the documented sum of all stores, in order. |
| Observations.MergeOfParts | src/server/telemetry/observation.py:195-231 | Merging the stores of consecutive parts gives the store of the whole. |
| Observations.Tabulate | src/server/telemetry/observation.py:237-255 | The rows of a store, label by label, in the order its dictionary lists them. |
| Observations.TabulateRoundTrip | src/server/telemetry/observation.py:237-255 | Building a store from its rows gives it back, whatever the order of labels; only empty series are lost. |
| Observations.ObservationBuffer.constructor | src/server/telemetry/observation.py:286-291 | A buffer starts empty. |
| Observations.ObservationBuffer.Insert | src/server/telemetry/observation.py:307-319 | Inserting adds the store of the observations and counts their least size. |
| Observations.ObservationBuffer.Flush | src/server/telemetry/observation.py:321-329 | Flushing hands over the store, empties the buffer and leaves the memory counter as it is. |
| Observations.ObservationBucket.constructor | src/server/telemetry/observation.py:371-390 | A bucket starts with an empty buffer. |
| Observations.ObservationBucket.Put | src/server/telemetry/observation.py:392-408 | Past the threshold the buffer and the put are flushed together, and handed on if not empty; else the put stays buffered. |
| Observations.ObservationBucket.Empty | src/server/telemetry/observation.py:418-425 | The buffer is handed on, even when empty. |
| BucketThreads.NothingIsLost | src/server/telemetry/observation.py:392-425 | Over every interleaving of puts and empties, the stores flushed, merged in flush order, and the buffer are the store of all puts in the order they got the lock. |
| BucketThreads.FlushesAreDelivered | src/server/telemetry/observation.py:392-425 | No flush is handed on twice, what is handed on was flushed, and when all threads are done every flush with data has been handed on. |
| BucketThreads.BufferStaysBounded | src/server/telemetry/observation.py:300-329 | Whenever the lock is free the counter is the least size of all puts ever made, what is buffered fits a non-negative threshold, and nothing is buffered once that total exceeds the threshold. |
| BucketThreads.PutAlone | src/server/telemetry/observation.py:392-408 | A put nobody interleaves does what the sequential class says. |
| BucketThreads.EmptyAlone | src/server/telemetry/observation.py:418-425 | An empty nobody interleaves hands on what is buffered and changes nothing else. |
| BucketThreads.DeliveredInFlushOrder | src/server/telemetry/observation.py:392-425 | In every run that ends with all threads done, stores are handed on in flush order exactly when no thread hands one on while another still owes an earlier one. |
| BucketThreads.LaterFlushMayArriveFirst | src/server/telemetry/observation.py:392-416 | A run in which the second flush arrives first, because the action runs outside the lock. |
| Utf8.EncodedDecodes | src/utils/b64.py:16-25 | Encoding a text in UTF-8 and decoding it gives it back (section 3 of RFC 3629). |
| Utf8.DecodedEncodes | src/utils/b64.py:28-40 | The decoder takes nothing but what the encoder gives. |
| Utf8.PrefixesAgree | src/utils/b64.py:16-25 | The bytes of one text start those of another exactly when the texts do. |
| Base64.BytesRoundTrip | src/utils/b64.py:16-40 | Base64 of any bytes decodes to them (section 4 of RFC 4648). |
| Base64.PackKeepsBits | src/utils/b64.py:16-25 | The sextets are the bits of the bytes in order, zeros filling the last group of 24 (section 4 of RFC 4648). |
| Base64.OnlyAlphabet | src/utils/b64.py:16-25 | Only alphabet characters and padding appear; in particular no colon and no quote. |
| Base64.B64RoundTrip | src/utils/b64.py:28-40 | Converting a text to Base64 and back gives the text. |
| Base64.ListRoundTrip | src/utils/b64.py:48-79 | For every list of texts, the empty list and empty elements included, decoding what was encoded gives the list. |
| Base64.ListsDiffer | src/utils/b64.py:48-63 | Different lists have different representations. |
| Base64.TextPrefix | src/utils/b64.py:16-25 | One Base64 text starts another exactly when the texts are the same or the first has a byte length divisible by three and starts the other. |
| TaskIds.IdsAreIdentified | src/wq/core/task.py:96-102 | Representations identify ids and give them back, from the job key too. |
| TaskIds.TasksDiffer | src/wq/core/task.py:96-115 | Two tasks have the same id exactly when they have the same tags and the same identifier of their own. |
| TaskIds.SegmentSizes | src/wq/core/task.py:104-115 | An initial segment has the first element at least, as many as asked for, and never more than there are. |
| TaskIds.NoWildcards | src/wq/core/task.py:61-67 | No Redis wildcard occurs in any representation. |
| TaskIds.SegmentPrefix | src/wq/core/task.py:104-115 | A representation of the first m elements starts another representation exactly when the other has m elements, the first m-1 agree, and the m-th agrees or runs on from unpadded text. |
| TaskIds.PatternOvershoots | src/wq/core/task.py:66-72 | The documented reading fails where the last tag of the pattern is unpadded text. |
| TaskIds.AbcRunsOn | src/wq/core/task.py:66-72 | A concrete pair of tags for which it fails. |
| TaskIds.PatternIsExact | src/wq/core/task.py:66-72 | A pattern finds just the ids sharing its tags exactly when padding or the empty-element marker closes its last tag: for all ids, and also among those with tags enough. |
| Retries.RqJob.constructor | src/wq/core/task.py:180-184 | A task is queued with as many retries as it has intervals. |
| Retries.RqJob.AddException | src/wq/core/task.py:331-334 | The exception list grows by one at its end. |
| Retries.RqJob.ExcHandler | src/wq/core/task.py:340-353 | The exception, or the cause of a stop, is noted; a scheduled job that stops moves to the failed registry; no further handler is called. |
| Retries.RqJob.HandleJobFailure | src/wq/core/task.py:356-362 | What the notes say RQ does first: schedule again if there are retries left, else fail. |
| Retries.RqJob.PerformJob | src/wq/core/task.py:340-362 | A whole run: success, or the failure step followed by the handler. |
| Retries.PromptIsSequential | src/wq/core/task.py:340-362 | The steps of a run whose handler is called at once are, in the interleaved machine too, that whole run. |
| Retries.LifeOfJob | src/wq/core/task.py:132-141 | For every sequence of outcomes a job runs until a run succeeds or stops and at most once more than it has retries; each failed run leaves one exception, in order; it ends failed unless its last run succeeded. |
| Retries.RunsAreBounded | src/wq/core/task.py:316-326 | However late the handler comes: at most one run more than intervals, one exception noted or due for each failed run, never a place in both registries, no run after a failure or success is final. |
| Retries.StopIsFinal | src/wq/core/task.py:322-326 | Handling a stop ends a job for good exactly when the scheduler has not put it back on the queue since, or its retries are used up in a run already started. |
| Retries.StopCanBeOvertaken | src/wq/core/task.py:316-326 | From the queue, with any intervals: if the first interval ends before the handler is called, the stopped task runs a second time. |
| Retries.PromptStopIsFinal | src/wq/core/task.py:356-362 | A handler called right after the failure step comes in time. |
| TaskIds.JobKeyRoundTrip | src/wq/core/rqutils.py:21-63 | The id taken from a job key is the id the key was made of, and a text that gives an id is the key of that id. |
| TaskIds.StarMatchesPrefix | src/wq/core/rqutils.py:83-98 | A plain prefix followed by a star matches exactly the strings with that prefix. |
| TaskIds.PatternFinds | src/wq/core/rqutils.py:66-116 | Among ids and among job keys alike a pattern finds exactly the ids the prefix rule says. |
| TaskIds.TagsOfHeaders | src/wq/ql/notify.py:19-35 | The tags of a task are the texts of its three headers, one that is missing having the tag of an empty one. |
| TaskIds.HeadersFindTasks | src/wq/ql/notify.py:19-35 | Searching by the headers of a request finds the tasks queued with them, and besides only those that run on from a last header of unpadded text. |
| Retries.InsertTaskLife | src/wq/ql/notify.py:85-103 | On the work queue an insert that cannot be retried runs once whatever retries are left, one that can runs as often as allowed; both end failed with every error noted. |
| Retries.DefaultWaits | src/wq/core/cfg.py:88-97 | n default retries wait 20*(2^n - 1) seconds in all. |
| ByType.EntityList.Append | src/reporter/query_NTNE1A.py:118-131 | Appending to the shared list. |
| ByType.AddNext | src/reporter/query_NTNE1A.py:118-139 | One turn of the loop on the shared list is one step of the grouping it amounts to. |
| ByType.GroupInLoop | src/reporter/query_NTNE1A.py:100-139 | What the loop with its shared list makes of any input. |
| ByType.LoopKeepsAll | src/reporter/query_NTNE1A.py:118-139 | Whatever the order of types, the groups joined are the input in order. |
| ByType.LoopGroupsIffContiguous | src/reporter/query_NTNE1A.py:118-139 | The loop groups by type in first-occurrence order exactly when the input is contiguous by type. |
| ByType.GroupsOfLoop | src/reporter/query_NTNE1A.py:118-139 | Each group starts with the first element of a type, holds no element of a type met later, and has the type of its last element. |
| Reports.AttrByType | src/reporter/query_NTNE1A.py:100-147 | The report of one attribute: the members of the groups joined are as many as the entities found, and each has type, id and index of its entity, in order, and the values of the attribute matched or none. |
| Reports.ReportsGroupByType | src/reporter/query_NTNE1A.py:118-139 | On entities contiguous by type both reports have one group a type, in first-occurrence order. |
| Reports.CollectNames | src/reporter/query_NTNENA.py:94-100 | Every attribute name once, in the order first met, those first met in one entity sorted, and never `id`, `index` or `type`. |
| Reports.ByAttr | src/reporter/query_NTNENA.py:102-149 | One report for each attribute name, in the order of the names, on exactly those entities for which looking up the attribute gives something, in order: type, id, index and the values found. |
| ByType.FilterKeepsContiguity | src/reporter/query_NTNENA.py:106-108 | Leaving out entities without the attribute keeps entities of a type together. |
| Geometry.CodecRoundTrip | src/geocoding/slf/jsoncodec.py:80-135 | Every valid geometry survives encoding and decoding to its own type. |
| Geometry.DecodeOutcome | src/geocoding/slf/jsoncodec.py:80-135 | For any GeoJSON and type: exactly when decoding raises, when it gives nothing, and otherwise which positions the geometry has. |
| Geometry.DecodeAsOther | src/geocoding/slf/jsoncodec.py:34-36 | Decoding to another type: only boxes and polygons decode to each other; a box is a closed ring of five positions (section 3.1.6 of RFC 7946). |
| Geometry.Centroid2d | src/geocoding/centroid.py:6-28 | The loop computes the mean position, none for no points. |
| Geometry.CentroidBalances | src/geocoding/centroid.py:6-28 | The centroid is the one position from which the displacements to the points cancel out. |
| Geometry.NgsiEntity.constructor | src/geocoding/location.py:65-87 | An entity with a location and a centroid attribute. |
| Geometry.NormalizeLocation | src/geocoding/location.py:65-87 | What normalising leaves in the entity. It raises exactly when the location is a line whose first two texts, or a polygon whose first four, are points and some later one is not; the entity is then unchanged. |
| Geometry.NormalizeGeoJson | src/geocoding/location.py:65-87 | GeoJSON locations stay and get the mean of their positions as centroid, or keep theirs where there are none; without a location that can be read the centroid goes. |
| Geometry.NormalizeRaises | src/geocoding/location.py:31-87 | The condition of the raise, for every entity. |
| Geometry.ThirdTextUnreadable | src/geocoding/location.py:31-87 | A location that makes normalising raise: a line of two points and a text that is none. |
| Geometry.NormalizeTwice | src/geocoding/location.py:31-87 | For points, lines and polygons normalising twice is normalising once. |
| Geometry.NormalizeBoxTwice | src/geocoding/location.py:31-87 | For boxes the location is stable; the centroid moves from that of two corners to that of the ring, and stays exactly when the corners are one point. |
| Geometry.ThriceIsTwice | src/geocoding/location.py:65-87 | Whatever the location, a third normalisation changes nothing. |
| Geometry.TextsAreKept | src/geocoding/slf/locparser.py:34-62 | A geometry read from a list of texts has the points of all of them, in order, a box those of the first two; there is none exactly when one of the texts read at once is missing or no point. |
| Geometry.LocationRead | src/geocoding/slf/locparser.py:45-93 | A single text is read for a point only, a list for anything else. |
| GeoQuery.NumberIsParsed | src/geocoding/slf/queryparser.py:46-60 | Splitting at the dot recognises exactly the distance expression. |
| GeoQuery.WholeIsDecimal | src/geocoding/slf/queryparser.py:46-47 | What the expression takes before a dot are the decimal texts of the natural numbers, each in its one way, behind it what can follow a one in them. |
| GeoQuery.DecimalValue | src/geocoding/slf/queryparser.py:103-146 | The decimal text of a number has its value. |
| GeoQuery.NumberSays | src/geocoding/slf/queryparser.py:103-146 | A number with a dot has, once the dot is moved behind the last digit, the value of its digits. |
| GeoQuery.GrammarIsParsed | src/geocoding/slf/queryparser.py:40-60 | Splitting at the semicolons recognises exactly each of the eight languages, a closing line feed being allowed. |
| GeoQuery.GrammarsDisjoint | src/geocoding/slf/queryparser.py:63-146 | No text is in two of the eight languages. |
| GeoQuery.OneLineFeed | src/geocoding/slf/queryparser.py:40-60 | One closing line feed changes nothing, two fit no expression. |
| GeoQuery.QuerySaysWhatIsWritten | src/geocoding/slf/queryparser.py:63-146 | Whatever the form, a query parsed has the relation written, or the centroid of its geometry and just the distances written behind their keys. |
| GeoQuery.GeoParamsGive | src/geocoding/slf/queryparser.py:199-233 | Without parameters there is no query; with all three, a known kind of geometry whose first texts are points and a relation in one of the languages there is one, and it says what is written; everything else is the value error, for a near query also a text further on that is no point. |
| GeoQuery.OneParserDecides | src/geocoding/slf/queryparser.py:199-233 | Whatever order the parsers come in, the result is that of the one that accepts, or the value error. |
| GeoQuery.OrderIsIrrelevant | src/geocoding/slf/queryparser.py:199-233 | The order of the parsers does not matter. |
| GeoQuery.NearFormsAgree | src/geocoding/slf/queryparser.py:103-126 | Both orders of least and greatest distance denote the same query, with the distances written. |
| GeoQuery.ParsedNearIsComplete | src/geocoding/slf/queryparser.py:199-233 | A parsed near query has a centroid and at least one distance. |
| GeoQuery.TermsAreThere | src/translators/crate_geo_query.py:7-19 | Neither back-end reduces an empty list exactly when there is a distance. |
| GeoQuery.BackEndsAgree | src/translators/timescale_geo_query.py:7-19 | Where degrees are metres scaled, the back-ends select the same locations except those exactly at the least distance. |

## Left out

- Attribute type inference and SQL column types: which type a column gets does not affect any of the properties.
- Data definition and metadata statements that fail for reasons of their own, such as a lost connection.
- Translator.SqlTranslator.Query: does not model aggregation or the lookup of a type by entity id; the tables to query are given.
- The cached `tableNames` entry, `query_ids`, `query_last_value`, `query_instanceId` and aggregation: the code keeps no simple law there.
- The text of SQL statements; where clauses are arbitrary row predicates.
- Entity dictionaries are values in the translator model, so the time index an insert adds to the caller's dictionaries is not seen by the caller.
- Ids and types of entities are texts; missing and non-text ones end an insert with an error before the modelled part.
- Instance ids, batch ids and UUIDs: fresh or arbitrary values.
- The Flask handlers, health checks, configuration readers, logging, migration scripts, CSV flushing, samplers and profilers.
- Base64 decoding of text the encoder never makes: Python's decoder skips foreign characters, the model refuses them.
- Redis character classes and escapes in patterns: no pattern the code builds contains them.
- RQ and Redis beyond the steps the notes describe; zero retry intervals, which RQ would queue at once; `load_jobs`, which only adds fixed-size batches.
- Enqueueing failures and running tasks in the calling thread.
- An empty action that raises: the store it was given is then lost.
- geojson's rounding, altitudes, malformed positions and geometry types SLF does not have; coordinates are exact reals.
- Coordinate lists of geo queries enter as the texts already split, each a point or not; their own regular expression is not modelled.
- The rounding of `float` and of the Timescale distance literal; shape queries beyond being parsed.
- Observation times and measurements are opaque; labels are of any type with equality.
- Reports with aggregation, where the index is the date range, and the `_value` variants, which rename keys.
