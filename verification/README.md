# Toasty, verified

A Dafny model of the parts of Toasty (an ORM for Rust) whose correctness is hardest to see by reading:
how a schema diff becomes DDL and what that DDL does to the data, how values survive their stored forms,
how filters are rendered for DynamoDB, how migrations are applied by runs that interleave and are cut off,
and a few smaller algorithms. `dafny verify dfyconfig.toml` checks everything.

The program's loops over mutable state are methods with invariants, proved against specification
functions; what the program promises is proved about those functions. Loop specifications speak of the
first `n` items, as the loop has seen them.

## The parts

**From two schemas to a diff.** `RenameMatching`, `RenameHints` and `RenameDialogue` model the question loop of
`generate`: tables, columns and indices matched by hint or by name, questions in order, any user. The hints are
exactly the renames the user answers, and nothing is asked about twice. `ColumnDiffing`, `IndexDiffing`, `TableDiffing`
and `TypeDiffing` model the diff itself and show that under the hints the loop collects it has every property
the migration results ask of a diff. `GeneratedMigration` and `NextIndices` put the whole way together, from hints and
diff through the plan to the database it leaves: it holds the next schema with its definitions, so that whole
histories of migrations compose, and they say when it has the next keys and indices.

**From a diff to a migrated database.** `MigrationPlan` models the planner: an object that pushes statements,
each paired with a schema snapshot, with the rebuild of tables and the changes in place. `Database` gives
statements a meaning: tables by name with columns, primary key and rows, indices, types, and the foreign-key
switch; a statement fails where the database would refuse it. Where databases differ it follows SQLite: it
refuses to drop a column that the key or an index holds, which PostgreSQL and MySQL do not. `TableRebuild`
proves when the six steps of a rebuild succeed and that they then migrate every row; `TableInPlace` and
`InPlaceMigration` prove the same of in-place changes, with `InPlaceConditions` saying beforehand when they go
through; `MigrationStrategies` that both give the same contents; `AlteredTable` when all the statements for a table
go through; `WholePlan`, `NextTables`, `PlanIndices` and `TypeCatalogue` what a whole plan delivers: tables, their
definitions and keys, indices, types; `TypeRenames` which types are taken for renamed; `Dialects` that no plan asks
PostgreSQL, MySQL or SQLite for a change to a column that its serializer cannot spell, and what the clauses it does
spell come to; `DefinedColumns` which texts a column takes once its definition is spelled: an enum column its variants; `PlanOrder` the order of statements; `IndexFate` what becomes of indices.
`ColumnLineage` says what "every row migrated" means: a kept column's value is under its next name and
nothing else is filled.

Four things turn out not to hold, and are stated as such with the exact condition. A rebuild looks up the id of a
table's next version in the *previous* schema, and fails where a new table has pushed it past the end
(`PlannableExactly`, `NextIdOutOfRange`). A rebuild loses each index the diff does not mention (`RebuildHasNextIndices`,
`UnchangedIndexLost`, and for whole plans `NextIndicesHeld`). An altered table's index drops name the primary key's
index when the table is renamed, and no such index was ever created by a statement (`MissingIndexFailsPlan`,
`RenamedTableFails`). And no statement changes a primary key, so that only a rebuilt table has its next one, or one
whose columns map the old key to it (`KeyReached`, `NextKeysHeld`, `KeyChangeIgnored`); where the schema lists an
index for the key, the plan of such a change fails on dropping that index instead.

**Stored values.** `Json` models the document codec over a token stream with a remaining suffix; integers are
spelled in decimal digits, and strings are single tokens. UUIDs, decimals, times and network addresses are known
by the text they are stored as; how other texts read as them is a parameter. `JsonRoundTrip` and `JsonReader` prove
printing and parsing inverse to each other, by type up to the spelling of such texts and by shape up to a normal
form. `DynamoValue` models attribute
values and proves that documents decode alike in both stores. `ColumnCodec` adds the SQLite and Turso columns,
with the casts to and from a signed 64-bit integer written out.

**Documents in schemas.** `DocumentCheck` models the schema builder's check of `#[document]` fields and says which
schemas it accepts; `DocumentValues` says which columns hold only values that encode. An embed inside two
lists is not looked at, so in an accepted schema the values of a document column all encode just if such embeds
encode themselves; `DeepEmbedSlips` is a schema where one does not. The derive macro makes no such field: lists of
embeds get theirs from `Field for Vec<T>` in `toasty/src/schema/field.rs`, which asks for an embed and not for a list
of them. A schema built by hand may.

**Filters.** `FilterAttrs` models the placeholder allocator, `FilterExpr` and `FilterWriter` the rendering of an expression,
`ConditionGrammar` DynamoDB's condition grammar with the precedence its developer guide lists (comparisons, IN,
BETWEEN and functions, then parentheses, NOT, AND, OR). `FilterReading`, `FilterGrowth`, `FilterMeaning` and
`FilterCorrect` prove that every supported filter renders and reads back as spelled out by `Says`, and `FilterTruth`
that its truth value survives under every interpretation of its atoms if no NOT stands before more than one
condition. Where one does, the text means something else (`TreeAsMeant`, `NotRightExactlyWhen`, `UnsafeNotFails`).
`FilterWorld` judges both on a stored item: the text by the grammar's comparators, the filter by the engine's own
operators.
Over two tables the allocator would hand out the same placeholder twice (`TwoTablesCollide`). The engine, when it
folds a filter, moves NOT inwards by De Morgan's laws; `FilterFold` models that and shows that a folded filter has no
NOT over several conditions, so that it is right as it is rendered.

**Applying migrations.** `ApplyProtocol` is a state machine of any number of runs against one database: a run reads the
recorded ids, then does one transaction per pending entry, and may fail or be cut off anywhere. Statements are
arbitrary partial functions on the database. `ApplyMigration` models the drivers' code for one migration, the
retry loop and the command's loop on a connection that may fail at any call, and which calls they make: what the loop
does is an execution of the state machine, and a failure is one a call answered. SQLite's driver does not roll back
a COMMIT that fails, so its connection is then left inside the transaction; Turso's does, so a retry never meets the
transaction of the try before unless a rollback failed as well. `History` models the numbered names.

**Smaller ones.** `ConnectionUrl` (slicing and redaction), `TestMatrix` (the three-valued filter over the integration
suite's expansions), `Pragmas` (slots and insertion order), `ArgOrder` (positional parameters).

## Model

| member | source | states |
|---|---|---|
| RenameMatching.HintKeepsMatched | crates/toasty-core/src/schema/diff.rs:55-90 | a hint from a dropped item to a created one keeps the pairing one-to-one and changes no other item's partner |
| RenameMatching.NamesMatch | crates/toasty-core/src/schema/diff/column.rs:54-70 | distinct names alone pair items one to one |
| RenameMatching.CreatedIds | crates/toasty-core/src/schema/diff/column.rs:53-80 | the set left over by removing targets is exactly the next ids nothing has become |
| RenameMatching.OpenDrops | crates/toasty-cli/src/migration/generate.rs:47-55 | finds all and only the dropped items the user has not confirmed |
| RenameMatching.Ask | crates/toasty-cli/src/migration/generate.rs:67-95 | for any user: each question is about the first open drop and has the user's answer; the round ends with the first rename answered, which is what it returns, settles exactly the items answered with a drop, and without a rename leaves nothing to ask |
| RenameMatching.TargetExactly | crates/toasty-core/src/schema/diff/column.rs:54-70 | an item has become what its hint says, and without one the item of its name if there is one |
| RenameHints.Hints.AddTableHint | crates/toasty-core/src/schema/diff.rs:61-64 | records the pair and leaves columns and indices alone |
| RenameHints.Hints.AddColumnHint | crates/toasty-core/src/schema/diff.rs:66-69 | records the pair and leaves tables and indices alone |
| RenameHints.Hints.AddIndexHint | crates/toasty-core/src/schema/diff.rs:71-74 | records the pair and leaves tables and columns alone |
| RenameHints.TableHintOk | crates/toasty-cli/src/migration/generate.rs:67-95 | a table rename keeps every level of the pairing one-to-one |
| RenameHints.ColumnHintOk | crates/toasty-cli/src/migration/generate.rs:128-161 | a column rename within a table that stays keeps every level of the pairing one-to-one |
| RenameHints.IndexHintOk | crates/toasty-cli/src/migration/generate.rs:186-219 | the same for an index rename |
| RenameDialogue.AskTables | crates/toasty-cli/src/migration/generate.rs:47-95 | one round over tables: the hints and drops are those answered, a rename lowers the number of unhinted items, otherwise tables are settled |
| RenameDialogue.AskColumns | crates/toasty-cli/src/migration/generate.rs:105-161 | the same for the columns of one table that stays |
| RenameDialogue.AskIndices | crates/toasty-cli/src/migration/generate.rs:163-219 | the same for its indices |
| RenameDialogue.AskWithin | crates/toasty-cli/src/migration/generate.rs:96-222 | one pass over the tables that stay, columns before indices, ends at the first rename or settles all of them |
| RenameDialogue.CollectRenameHints | crates/toasty-cli/src/migration/generate.rs:38-228 | ends for all users; every question was the next one to ask and has the user's answer, the hints and drops are those answered, hints are injective and pair items one to one, and no question is left open |
| RenameDialogue.HintsAreAnswers | crates/toasty-cli/src/migration/generate.rs:80-94 | a hint is collected iff its rename was answered: table, column and index alike |
| RenameDialogue.AskedOnce | crates/toasty-cli/src/migration/generate.rs:43-45 | no table, column or index is asked about twice, whatever is asked in between |
| RenameHints.ColumnHintLands | crates/toasty-cli/src/migration/generate.rs:128-161 | a column hint leads to a column of the table its own table has become |
| RenameHints.ColumnHintsInjective | crates/toasty-cli/src/migration/generate.rs:38-228 | no two columns, of whatever tables, are hinted to the same column |
| ColumnDiffing.Diff | crates/toasty-core/src/schema/diff/column.rs:41-80 | drops and alterations in the previous order, then each new column once, in any order |
| ColumnDiffing.TouchedExactly | crates/toasty-core/src/schema/diff/column.rs:58-75 | a previous column is mentioned iff it is dropped or differs from what it has become |
| ColumnDiffing.MadeExactly | crates/toasty-core/src/schema/diff/column.rs:58-79 | a next column is mentioned iff it is new or differs from what became it |
| ColumnDiffing.DiffIsCoherent | crates/toasty-core/src/schema/diff/column.rs:41-80 | under a one-to-one pairing no column is spoken of twice and the columns left out pair up under equal names with equal properties |
| ColumnDiffing.NextIsKept | crates/toasty-core/src/schema/diff/column.rs:58-79 | what a column has become is its next version in the sense of the migration results, mentioned in the diff or not |
| ColumnDiffing.CollectedHintsAreCoherent | crates/toasty-cli/src/migration/generate.rs:38-228 | the hints the loop collects give coherent column diffs for every table that stays |
| IndexDiffing.Diff | crates/toasty-core/src/schema/diff/index.rs:42-101 | each index that was dropped or differs once, in the previous order, then each created one once |
| IndexDiffing.DroppedExactly | crates/toasty-core/src/schema/diff/index.rs:79-94 | a previous index is dropped by the diff iff it became nothing or something that differs |
| IndexDiffing.NotCreatedIsKept | crates/toasty-core/src/schema/diff/index.rs:75-101 | a next index the diff does not create is a previous one it does not drop, the same in name, uniqueness and columns |
| IndexDiffing.NotDroppedIsKept | crates/toasty-core/src/schema/diff/index.rs:75-101 | and the other way round |
| TypeDiffing.CollectNamedEnums | crates/toasty-core/src/schema/diff/ty.rs:85-108 | the nested loops file each named enum under its name with the columns that use it |
| TypeDiffing.Diff | crates/toasty-core/src/schema/diff/ty.rs:42-148 | in some order of the next types: each kept one with the variants it gained, each new one as a rename of a type that is gone, has the same columns and is a prefix, if there is one, else as a creation; it gives up only where a type lost variants |
| TypeRenames.RenamesFounded | crates/toasty-core/src/schema/diff/ty.rs:49-70 | a rename is between types used by the same columns of the same tables, one gone and one new, with variants only added behind; a type is created only if none left over could have become it |
| TypeRenames.OnTypeExactly | crates/toasty-sql/src/migration.rs:15-55 | on PostgreSQL a change to a column is left to its named type iff the type's own statements bring the column its next definition and its part in the key stays |
| TypeCatalogue.RenamesFollowed | crates/toasty-core/src/schema/diff/ty.rs:49-70 | no type is renamed twice, and no next column has a type by a name that was renamed away |
| TypeCatalogue.TypesReachNext | crates/toasty-sql/src/migration.rs:89-118 | the type statements take a catalogue with the previous types and their variants to one with the next |
| TableDiffing.Diff | crates/toasty-core/src/schema/diff/table.rs:46-84 | every table that was dropped, renamed or differs in its columns or indices once, in the previous order, with its column and index differences, then every created one once |
| TableDiffing.DiffIsSound | crates/toasty-core/src/schema/diff/table.rs:46-84 | under the collected hints the computed diff has all the migration results ask of one: tables in place, coherent column changes, no table taken twice |
| TableDiffing.PlannableExactly | crates/toasty-sql/src/migration.rs:258-266 | planning a computed diff fails exactly when a table it rebuilds has an id past the end of the previous schema; never where columns are altered in place or there are no more tables than before |
| TableDiffing.NextIdOutOfRange | crates/toasty-sql/src/migration.rs:258-266 | two well-formed schemas whose diff cannot be planned for SQLite, though it can for PostgreSQL |
| GeneratedMigration.GeneratedMigrates | crates/toasty-sql/src/migration.rs:73-239 | from the collected hints to the database: a generated plan that goes through leaves every next table, created empty as defined or with the rows of the table that became it, each row migrated, its columns and key as rebuild or changes in place leave them; names only the previous schema had are gone, and unmentioned tables are as they were but for renamed types |
| GeneratedMigration.NextTableThere | crates/toasty-core/src/schema/diff/table.rs:46-84 | each next table is created empty with its definitions and key, or carried over from the one table that became it, mentioned in the diff or not, with rows, definitions and key accounted for |
| GeneratedMigration.NextSchemaHeld | crates/toasty-sql/src/migration.rs:73-239 | on every SQL backend the database then holds the next schema, each column defined as `CREATE TABLE` would define it, and where enum types have names the catalogue holds each with its variants |
| DefinedColumns.DefinedAsMeant | crates/toasty-sql/src/stmt/column_def.rs:26-65 | a definition has the column's name, constraints and, as its dialect spells it, type; it has a check iff the column is an enum on SQLite; and it takes exactly the texts the column is meant for, an enum's variants |
| DefinedColumns.NextColumnsHeld | crates/toasty-sql/src/serializer/ty.rs:121-162 | after a generated migration that goes through, every next column is there as its dialect spells it and takes exactly the texts it is meant for, through the check, the labels or the named type |
| GeneratedMigration.NextKeysHeld | crates/toasty-sql/src/stmt/alter_column.rs:44-52 | every next table has its primary key iff each that stays was rebuilt or its columns map the old key to the next |
| GeneratedMigration.HistoryMigrates | crates/toasty-sql/src/migration.rs:73-239 | a history of generated migrations, each from the schema the last one led to, ends in a database that holds the last schema |
| NextIndices.NextIndicesHeld | crates/toasty-sql/src/migration.rs:178-235 | if the plan goes through, every next table has exactly its indices, over the right columns, iff the diff creates or alters each index of every table it rebuilds |
| NextIndices.NoKeyDropped | crates/toasty-sql/src/migration.rs:178-196 | a plan that goes through drops no primary key's index, where such indices have names of their own |
| NextIndices.OtherIndicesStay | crates/toasty-sql/src/migration.rs:178-196 | indices of tables the diff does not mention stay as they are unless a drop names them, and none are added there |
| KeyChange.KeyChangeIgnored | crates/toasty-sql/src/stmt/alter_column.rs:44-52 | two schemas that differ in a table's key, whose computed diff is planned as nothing at all |
| MigrationPlan.Planner.FromDiff | crates/toasty-sql/src/migration.rs:73-239 | the pushed statements are the plan, types first when the backend names enum types |
| MigrationPlan.Planner.EmitTables | crates/toasty-sql/src/migration.rs:120-237 | the statements of every table diff, in order |
| MigrationPlan.Planner.EmitTypes | crates/toasty-sql/src/migration.rs:89-118 | the statements of every type diff, under the right snapshot |
| MigrationPlan.Planner.EmitTableRecreation | crates/toasty-sql/src/migration.rs:241-335 | the six statements of a rebuild and their snapshots |
| MigrationPlan.Planner.EmitColumnChanges | crates/toasty-sql/src/migration.rs:337-384 | the in-place statements, a change split into steps where the backend needs it |
| MigrationPlan.Planner.EmitIndexDrops | crates/toasty-sql/src/migration.rs:178-196 | drops for dropped and altered indices only, by previous name |
| MigrationPlan.Planner.EmitIndexCreates | crates/toasty-sql/src/migration.rs:216-235 | creates for created and altered indices only, from the next schema |
| DatabaseInvariant.ExecKeepsDb | crates/toasty-sql/src/migration.rs:73-239 | every statement keeps the database sound: distinct columns, rows within them, keys and indices over existing columns |
| DatabaseInvariant.RunKeepsDb | crates/toasty-sql/src/migration.rs:73-239 | so does every run of any statements |
| ColumnLineage.RowMigratesUnique | crates/toasty-sql/src/migration.rs:269-314 | a migrated row is determined by the row it comes from |
| TableRebuild.CopyMigrates | crates/toasty-sql/src/migration.rs:269-314 | the copied row is the migrated row: renames followed, additions unfilled |
| TableRebuild.RebuildReachesNext | crates/toasty-sql/src/migration.rs:241-335 | the rebuild succeeds iff every row fills the next columns, and then leaves one table under the current name with the next columns and every row migrated, all other tables untouched, only that table's indices gone and enforcement on |
| TableInPlace.SplitMerges | crates/toasty-sql/src/migration.rs:354-381 | the steps a change is split into do together what the change does at once |
| TableInPlace.AlterRuns | crates/toasty-sql/src/migration.rs:354-381 | the steps go through iff the whole change is allowed, and have its effect |
| InPlaceMigration.InPlaceReachesNext | crates/toasty-sql/src/migration.rs:337-384 | in-place changes go through iff each is allowed where it stands; then columns with their definitions, rows, primary key and indices follow, and the rest of the database is as it was |
| InPlaceConditions.InPlaceRunsExactly | crates/toasty-sql/src/migration.rs:337-384 | they go through iff, by the diff and the table as it is to begin with, new names are free by their turn, no dropped column is held or the last, and no row is NULL where it may not be |
| MigrationStrategies.InPlaceDefIsNext | crates/toasty-sql/src/migration.rs:337-384 | a column changed in place ends as `CREATE TABLE` defines it iff its type is kept, name included, or changed and neither version is an emulated enum |
| MigrationStrategies.InPlaceDefsFollow | crates/toasty-core/src/driver/capability.rs:1206-1223 | on every SQL backend a change made in place ends so: the one that emulates enums rebuilds instead |
| MigrationStrategies.AllowedFills | crates/toasty-sql/src/migration.rs:196-214 | where in-place changes are allowed a rebuild would succeed too |
| MigrationStrategies.StrategiesAgree | crates/toasty-sql/src/migration.rs:196-214 | on adds, drops and renames with nothing in the way both strategies go through and give the same columns up to order and the same rows, and the same key iff the columns map the old key to the next one |
| WholePlan.ColumnWorkMigrates | crates/toasty-sql/src/migration.rs:196-214 | the column work of an altered table migrates it whichever way it is done: rows, the definition of each column, and the key |
| Dialects.RebuiltExactly | crates/toasty-sql/src/migration.rs:156-173 | a table is copied into a new one on SQLite only, and there iff one of its columns changes in type, nullability or auto-increment |
| Dialects.PlanSpells | crates/toasty-sql/src/serializer/statement.rs:93-205 | no plan has a change to a column its dialect's serializer panics on: SQLite is asked for renames only, PostgreSQL for one property at a time |
| Dialects.ClausesReachNext | crates/toasty-sql/src/serializer/statement.rs:93-205 | where a column is altered in place, the clauses its dialect spells, one after the other and none where the change is left to its type, take its definition to the next one |
| WholePlan.PlanReachesNext | crates/toasty-sql/src/migration.rs:73-239 | a plan that goes through creates new tables empty as defined, migrates altered ones with definitions and key, leaves no dropped one, touches no other table but for the names of renamed types, and keeps the database sound |
| WholePlan.TypesRun | crates/toasty-sql/src/migration.rs:89-118 | the type statements rename the types of columns and leave tables alone otherwise |
| NextTables.DefinitionsReached | crates/toasty-sql/src/migration.rs:154-214 | however it was reached, rebuilt, in place or through its named types, a table ends with the next definitions |
| NextTables.KeyReached | crates/toasty-sql/src/stmt/alter_column.rs:44-52 | a migrated table has the next key iff it was rebuilt or its kept columns map the old key to it |
| AlteredTable.AlteredTableRuns | crates/toasty-sql/src/migration.rs:143-235 | the statements for an altered table go through iff its next name is free, every index to drop is there, the columns can be worked on as the table then stands, and every index to create has a free name and columns to be over |
| PlanIndices.TableIndexStep | crates/toasty-sql/src/migration.rs:120-237 | after a table diff the indices are those it puts there and those that survive it, moved with their columns |
| PlanIndices.PlanIndexFate | crates/toasty-sql/src/migration.rs:120-237 | after a whole plan the indices on tables not mentioned are as they were unless dropped by name, and each table left has what its diff puts there and what survives, no more |
| PlanOrder.PlanInOrder | crates/toasty-sql/src/migration.rs:73-239 | type DDL precedes table DDL and the foreign-key switches strictly alternate OFF, ON |
| PlanOrder.AlteredTableInOrder | crates/toasty-sql/src/migration.rs:143-235 | an altered table's index drops precede its column work and its index creates follow it |
| PlanOrder.RunSetsSwitch | crates/toasty-sql/src/migration.rs:251-256 | after any run the switch stands at what the run last set it to |
| PlanOrder.PlanEndsEnforced | crates/toasty-sql/src/migration.rs:330-334 | a plan that starts with foreign keys enforced ends with them enforced |
| IndexFate.DropsRunWhenPresent | crates/toasty-sql/src/migration.rs:178-196 | the index drops go through iff all named indices are there and none is named twice |
| IndexFate.MissingIndexFailsPlan | crates/toasty-sql/src/migration.rs:178-196 | a plan that drops an index the database does not have fails |
| IndexFate.RenamedTableFails | crates/toasty-sql/src/migration.rs:178-196 | a table rename whose plan fails on its primary key's index |
| IndexFate.CreatesRun | crates/toasty-sql/src/migration.rs:216-235 | index creates go through iff each name is free, each column there and no name used twice, and then add the diff's indices and leave every other one alone |
| IndexFate.RebuildKeepsOnlyDiffIndices | crates/toasty-sql/src/migration.rs:241-335 | a rebuilt table has exactly the indices its diff creates |
| IndexFate.RebuildHasNextIndices | crates/toasty-sql/src/migration.rs:241-335 | it has all its next indices iff the diff creates or alters each |
| IndexFate.UnchangedIndexLost | crates/toasty-sql/src/migration.rs:241-335 | a change of type that loses an index it does not mention |
| Decimal.ToNatOfNat | crates/toasty-sql/src/json.rs:53-60 | printed digits read back as the number |
| Decimal.OfNatToNat | crates/toasty-sql/src/json.rs:337-361 | digits without a leading zero are the only text of their number |
| Decimal.ParseIntOfInt | crates/toasty-driver-dynamodb/src/value.rs:28-76 | a printed integer parses back, sign included |
| JsonRoundTrip.DecodeEncode | crates/toasty-sql/src/json.rs:48-85 | decoding an encoding followed by anything gives the canonical value and leaves what followed |
| JsonRoundTrip.TypedRoundTrip | crates/toasty-sql/src/json.rs:237-414 | every value of a type without documents, nested lists and nulls included, comes back and the text is used up; text scalars are in the form they are stored in |
| JsonRoundTrip.DocumentRoundTrip | crates/toasty-sql/src/json.rs:166-235 | a document comes back in normal form: null entries dropped, list nulls kept, integers I64 where they fit, key order kept |
| JsonRoundTrip.NormalEncodes | crates/toasty-sql/src/json.rs:75-85 | the normal form prints the same tokens and is its own normal form |
| JsonRoundTrip.EncodeFailsExactly | crates/toasty-sql/src/json.rs:48-123 | encoding fails iff bytes or a record occur outside a dropped entry |
| JsonReader.DecodeSound | crates/toasty-sql/src/json.rs:237-370 | whatever is accepted is of the type asked for, its integers in range and its text scalars in stored form |
| JsonReader.DecodePrints | crates/toasty-sql/src/json.rs:237-370 | at a type without documents only encodings are accepted, text scalars in any spelling that reads: printing again gives the consumed tokens, those spellings replaced by the stored ones |
| JsonReader.FromStrExactly | crates/toasty-sql/src/json.rs:392-398 | `from_str` reads exactly the encodings of the type's values, text scalars in any spelling that reads; without text scalars exactly the encodings |
| JsonReader.Sink.Serialize | crates/toasty-sql/src/json.rs:48-123 | streaming to a sink writes the encoding after what was there, or fails iff there is none |
| JsonReader.ReadSeq | crates/toasty-sql/src/json.rs:364-370 | the element loop reads what the specification reads |
| JsonReader.ReadMap | crates/toasty-sql/src/json.rs:228-235 | the entry loop reads what the specification reads |
| DynamoValue.FillDocument | crates/toasty-driver-dynamodb/src/value.rs:122-141 | the loop stores each non-null entry under its key, later ones winning |
| DynamoValue.FromDdbAny | crates/toasty-driver-dynamodb/src/value.rs:79-120 | gives one of the values the attribute may decode to, map entries in any order; nothing just where a number is a float |
| DynamoValue.StoredHasNoFloats | crates/toasty-driver-dynamodb/src/value.rs:122-141 | every stored document is one `from_ddb_any` decodes |
| DynamoValue.DynamoRoundTrip | crates/toasty-driver-dynamodb/src/value.rs:28-76 | every column value, bytes included, comes back from its attribute |
| DynamoValue.DocumentAgrees | crates/toasty-driver-dynamodb/src/value.rs:73-141 | whatever a stored document decodes to is its normal form up to key order |
| DynamoValue.CodecsAgree | crates/toasty-driver-dynamodb/src/value.rs:73-141 | a document without floats, bytes or repeated keys decodes to the same wire value from its attribute and from its JSON text, up to key order |
| ColumnCodec.CastRoundTrip | crates/toasty-driver-sqlite/src/value.rs:79-107 | an integer of every width survives the cast to a signed 64-bit integer and back, u64 above i64::MAX included |
| ColumnCodec.ColumnRoundTrip | crates/toasty-driver-turso/src/value.rs:16-76 | ints, bools, strings, bytes and lists come back from their stored form |
| ColumnCodec.ForeignReads | crates/toasty-driver-sqlite/src/value.rs:23-60 | a value stored by other hands: any integer but zero is true, an integer of a width is what its low bits say, a UUID is whatever reads as one |
| Values.WidthHolds | crates/toasty-driver-sqlite/src/value.rs:79-107 | an integer width holds the numbers its bits can write, in two's complement if signed |
| ColumnCodec.DocumentColumnRoundTrip | crates/toasty-driver-sqlite/src/value.rs:23-60 | a document column comes back in normal form |
| DocumentCheck.VerifyDocumentTypes | crates/toasty-core/src/schema/builder.rs:368-386 | the loops over models and fields give the first problem found |
| DocumentCheck.VerifyDocumentEmbed | crates/toasty-core/src/schema/builder.rs:392-447 | so does the recursive walk of one embed |
| DocumentCheck.AcceptedExactly | crates/toasty-core/src/schema/builder.rs:335-447 | a schema without cycles is accepted iff every embed reachable from a document column is a struct of named, unrenamed, non-relation fields with supported leaves |
| DocumentValues.EncodesExactly | crates/toasty-sql/src/json.rs:48-123 | all values of a column encode iff its type, looked through every list, has no bytes and no model without a document form |
| DocumentValues.AcceptedEncodes | crates/toasty-core/src/schema/builder.rs:335-447 | in an accepted schema every value of a document column encodes iff the embeds behind two lists or more, wherever the check comes to from it, encode themselves |
| DocumentValues.DeepEmbedSlips | crates/toasty-core/src/schema/builder.rs:353-362 | an accepted schema with a value that does not encode |
| FilterAttrs.TextsDiffer | crates/toasty-driver-dynamodb/src/lib.rs:577-614 | no two placeholders are written alike |
| FilterAttrs.ExprAttrs.Column | crates/toasty-driver-dynamodb/src/lib.rs:577-588 | registers the column once and hands out its placeholder |
| FilterAttrs.ExprAttrs.DocumentSegment | crates/toasty-driver-dynamodb/src/lib.rs:592-603 | registers the segment once, numbered by the names so far |
| FilterAttrs.ExprAttrs.DdbValue | crates/toasty-driver-dynamodb/src/lib.rs:605-614 | registers every value anew |
| FilterAttrs.AddSegmentKeeps | crates/toasty-driver-dynamodb/src/lib.rs:592-603 | a segment's number is unused, though the count it comes from includes columns |
| FilterAttrs.NothingOverwritten | crates/toasty-driver-dynamodb/src/lib.rs:566-615 | over any requests to one table nothing registered is ever replaced |
| FilterAttrs.PlaceholdersStand | crates/toasty-driver-dynamodb/src/lib.rs:566-615 | every placeholder handed out still resolves to its request, and two requests share one iff they are for the same column or segment |
| FilterAttrs.TwoTablesCollide | crates/toasty-driver-dynamodb/src/lib.rs:577-588 | columns of equal index in two tables share a placeholder and the second takes it over |
| FilterWriter.DdbExpression | crates/toasty-driver-dynamodb/src/lib.rs:368-528 | writing with the allocator updated in place gives the specified text and tables, or gives up exactly where the specification does |
| FilterWriter.DocumentPath | crates/toasty-driver-dynamodb/src/lib.rs:548-564 | the loop over segments writes the specified path |
| FilterWriter.WriteOperands | crates/toasty-driver-dynamodb/src/lib.rs:433-448 | the operands in order, joined |
| FilterGrowth.RenderKeeps | crates/toasty-driver-dynamodb/src/lib.rs:368-528 | rendering any expression leaves every earlier placeholder standing |
| FilterReading.NotReads | crates/toasty-driver-dynamodb/src/lib.rs:488-491 | by precedence NOT takes the first of the conditions behind it and no more |
| FilterReading.AllRead | crates/toasty-driver-dynamodb/src/lib.rs:433-440 | texts joined by AND read as all their conditions, whatever may follow |
| FilterReading.CasesRead | crates/toasty-driver-dynamodb/src/lib.rs:441-448 | texts joined by OR read as one case each |
| FilterCorrect.ConditionRenders | crates/toasty-driver-dynamodb/src/lib.rs:368-528 | every supported filter renders: none of the panicking arms is reached |
| FilterCorrect.AtomReadsBack | crates/toasty-driver-dynamodb/src/lib.rs:374-528 | every comparison, BETWEEN, IN, presence test and function call reads back over the names and values it was written for, a comparison by the comparator that says what the operator does of any two values |
| FilterCorrect.FilterParses | crates/toasty-driver-dynamodb/src/lib.rs:368-528 | reading the whole text against the finished tables gives exactly the conditions spelled out |
| FilterTruth.TreeAsMeant | crates/toasty-driver-dynamodb/src/lib.rs:488-491 | the text reads as the tree that is meant iff no NOT stands before more than one condition |
| FilterTruth.BracketedIsRight | crates/toasty-driver-dynamodb/src/lib.rs:433-491 | with brackets behind such NOTs every filter would say what it means |
| FilterTruth.MeaningPreserved | crates/toasty-driver-dynamodb/src/lib.rs:368-528 | with safe NOTs the text, read and evaluated, has the filter's truth value under every interpretation of the atoms |
| FilterTruth.NotRightExactlyWhen | crates/toasty-driver-dynamodb/src/lib.rs:488-491 | an unsafe NOT is right just under the interpretations that make all conditions but the first true |
| FilterTruth.UnsafeNotFails | crates/toasty-driver-dynamodb/src/lib.rs:488-491 | NOT over two boolean columns: true as a filter, false as a text |
| FilterFold.FoldMovesNots | crates/toasty/src/engine/fold/expr_not.rs:8-65 | folding leaves no NOT over AND, OR or NOT |
| FilterFold.FoldKeepsMeaning | crates/toasty/src/engine/fold/expr_not.rs:37-55 | a folded filter means what the filter means, or its negation, under every interpretation of the atoms |
| FilterFold.FoldedFiltersAreRight | crates/toasty/src/engine/fold/expr_not.rs:37-55 | so a folded filter renders to a text with the filter's own truth value, whatever its NOTs |
| FilterWorld.AtomAgrees | crates/toasty-driver-dynamodb/src/lib.rs:374-528 | on any stored item the condition an atom renders to is true iff the engine's own operator is: orders, ranges, membership, presence, booleans |
| FilterWorld.TextSaysWhatEngineSays | crates/toasty-driver-dynamodb/src/lib.rs:368-528 | with safe NOTs the text, read by precedence, is true of an item iff the filter is by the engine's own operators |
| FilterWorld.FoldedTextSaysWhatEngineSays | crates/toasty/src/engine/fold/expr_not.rs:37-55 | and for a folded filter whatever its NOTs |
| ApplyProtocol.StepKeeps | crates/toasty-driver-sqlite/src/lib.rs:535-587 | every step of any run keeps recorded ids distinct, the database the replay of what is recorded, and the lock with at most one run |
| ApplyProtocol.ExactlyOnce | crates/toasty-cli/src/migration/apply.rs:64-120 | however runs interleave and wherever each is cut off, no id is recorded twice, none is lost, and the database is what the recorded migrations, run whole and in order, make of the start |
| ApplyProtocol.AppliedInOrder | crates/toasty-cli/src/migration/apply.rs:64-120 | started from a prefix of the history the recorded ids stay one, and the database is the fold of the history up to there |
| ApplyProtocol.PendingIsRest | crates/toasty-cli/src/migration/apply.rs:67-73 | what a run finds pending is the history after the recorded prefix |
| ApplyProtocol.PendingCompletes | crates/toasty-cli/src/migration/apply.rs:64-120 | a run that applies all it found pending completes the history |
| ApplyProtocol.MigrationSteps | crates/toasty-driver-sqlite/src/lib.rs:535-587 | a migration applied from beginning to end is a run of the protocol's steps |
| ApplyMigration.Connection.ApplySqlite | crates/toasty-driver-sqlite/src/lib.rs:535-587 | all of the migration and its id show, or nothing does, whichever call fails; which calls are made, which failure is reported, and that the transaction is left open iff COMMIT or a rollback failed, or it was open before; a refusal is the migration's own |
| ApplyMigration.Connection.TransactionalBatch | crates/toasty-driver-turso/src/conn.rs:60-80 | the same for the batch, where every failure behind BEGIN, COMMIT's included, is followed by one rollback and reported, and the transaction is left open iff that failed |
| ApplyMigration.Connection.ApplyTurso | crates/toasty-driver-turso/src/lib.rs:134-152 | the retry loop ends, applies at most once, sleeps as its backoff says, and gives up busy only after ten seconds; a failure is one a call answered, and unless a rollback failed no try meets an open transaction, none is left, and a refusal is the migration's own |
| ApplyMigration.Connection.ApplyMigrations | crates/toasty-cli/src/migration/apply.rs:64-120 | the loop applies a whole number of pending migrations in order, all of them on success; otherwise it reports what the next one failed with; what it does is an execution of the protocol by a single run |
| History.NumberReadsBack | crates/toasty-cli/src/migration/generate.rs:272-287 | a generated name's number reads back, whatever the title |
| History.HistoryFile.Generate | crates/toasty-cli/src/migration/generate.rs:272-296 | adds one entry with the next number, or nothing on overflow |
| History.HistoryFile.Drop | crates/toasty-cli/src/migration/drop.rs:37-113 | removes the latest, named or picked entry and keeps the rest in order |
| History.NamesStayUnique | crates/toasty-core/src/migration.rs:144-160 | after any generates and drops every name has a number, numbers strictly increase, names and snapshot names are unique, and the next number is above all |
| History.DroppedNameGone | crates/toasty-cli/src/migration/drop.rs:43-50 | dropping by name leaves no entry of the name |
| History.NumbersFollow | crates/toasty-core/src/migration.rs:144-160 | after any generates and drops the next generated number is one more than the last entry's, or zero to an empty history; it fails only past the 32-bit limit |
| ConnectionUrl.SplitJoins | crates/toasty-core/src/driver/connection_url.rs:192-211 | the parts the accessors cut out are valid and make up the whole URL |
| ConnectionUrl.JoinSplits | crates/toasty-core/src/driver/connection_url.rs:27-41 | valid parts written out parse and split into the same parts, `@` and `:` in the password included |
| ConnectionUrl.TextReads | crates/toasty-core/src/driver/connection_url.rs:48-125 | what the accessors read off the text of valid parts is the parts |
| ConnectionUrl.ComponentsRead | crates/toasty-core/src/driver/connection_url.rs:59-72 | with an authority or without one, authority, path and query are read off exactly between their delimiters |
| ConnectionUrl.RestHasComponents | crates/toasty-core/src/driver/connection_url.rs:59-72 | whatever follows a scheme consists of such components |
| ConnectionUrl.RedactPassword | crates/toasty-core/src/driver/connection_url.rs:171-190 | the index arithmetic replaces the password and nothing else |
| ConnectionUrl.OnlyPasswordChanges | crates/toasty-core/src/driver/connection_url.rs:171-230 | the redacted URL parses to the same scheme, user, host, path and query with password `***`, and redacting again changes nothing |
| ConnectionUrl.PasswordDoesNotShow | crates/toasty-core/src/driver/connection_url.rs:171-190 | URLs that differ in their passwords only redact alike |
| TestMatrix.DefiniteStays | crates/toasty-driver-integration-suite-macros/src/parse.rs:200-226 | replacing unknown values by any others never flips a definite result |
| TestMatrix.DefiniteIsTruth | crates/toasty-driver-integration-suite-macros/src/parse.rs:91-118 | with all capabilities known evaluation is two-valued logic |
| TestMatrix.DroppedNeverHolds | crates/toasty-driver-integration-suite-macros/src/parse.rs:185-198 | a dropped expansion fails its predicate under every set of capabilities |
| TestMatrix.KeptThoughNeverHolds | crates/toasty-driver-integration-suite-macros/src/parse.rs:185-198 | the converse fails: a contradiction that is kept |
| TestMatrix.FilterExact | crates/toasty-driver-integration-suite-macros/src/parse.rs:185-226 | where no capability is named twice an expansion is kept iff some set of capabilities satisfies it |
| TestMatrix.OneTrueKey | crates/toasty-driver-integration-suite-macros/src/parse.rs:588-611 | with distinct keys each combination names all keys and makes one true |
| TestMatrix.GenerateMatrixCombinations | crates/toasty-driver-integration-suite-macros/src/parse.rs:593-611 | the nested loops give one combination per key, or one empty one |
| TestMatrix.GenerateExpansions | crates/toasty-driver-integration-suite-macros/src/parse.rs:522-586 | the kept expansions in order, the shortcut without arguments included |
| TestMatrix.NothingRunnableDropped | crates/toasty-driver-integration-suite-macros/src/parse.rs:522-586 | every variant and combination is generated unless no set of capabilities meets the test's own requirement and, with integer ids, auto-increment |
| Pragmas.Pragmas.constructor | crates/toasty-driver-sqlite/src/pragma.rs:151-192 | empty slots in order, foreign keys on |
| Pragmas.Pragmas.Set | crates/toasty-driver-sqlite/src/pragma.rs:198-204 | the name has the value, in the place it had or else at the end; every other entry keeps its place and value, and what was set so far is recorded in order |
| Pragmas.Pragmas.Iter | crates/toasty-driver-sqlite/src/pragma.rs:206-210 | the set entries in order |
| Pragmas.PragmasInOrder | crates/toasty-driver-sqlite/src/pragma.rs:146-210 | after any sets: the slots in slot order, then the others in the order first set, each once with its last value |
| Pragmas.KeyFirst | crates/toasty-driver-sqlite/src/pragma.rs:153-157 | the key comes first whenever it is set, however late |
| Pragmas.AppliedInNeededOrder | crates/toasty-driver-sqlite/src/pragma.rs:151-180 | whatever is set and in whatever order: cipher settings before anything but the key, the page size before anything that may write, locking and vacuuming before the journal mode |
| ArgOrder.Reorder | crates/toasty-driver-mysql/src/lib.rs:448-472 | the argument at each place is the parameter named there, neither lookup can fail, and a parameter is moved exactly at its last use |

## Left out

- Floats, and the text forms of decimals, times, network addresses and UUIDs: which texts read as which stored ones is a parameter.
- Escaping and lexing of JSON strings and white space, the parser's recursion limit, and SQL text as such.
- The conversion a database applies to stored values when a column's type changes, and type affinity: a rebuild copies values as they are.
- Uniqueness of primary keys and unique indices, index sort directions, and values filled in by auto-increment or defaults.
- Row-level foreign-key checks; the model has the switch and, for dropping tables, the names that are referenced.
- Pragmas inside transactions and other effects that depend on the server, and MySQL's implicit commits.
- IndexDiffing.SameIndex: leaves out the operators and scopes of indexed columns, which the model's indices do not have.
- DDL on which databases differ: dropping a column that a key or index holds is refused, as SQLite does; per-table names of indices, as in MySQL, are one namespace here.
- Byte offsets in URLs: strings are sequences of characters, which index alike for the ASCII delimiters that are searched for.
- Percent-decoding, form decoding, host and port syntax, and file paths of URLs.
- DynamoDB's limits on expressions and its reserved words; expressions over two tables.
- The clock, prompts, files, TOML, logging and network: clocks are arbitrary, answers are the user's, the rest is absent.
- The bookkeeping table's own creation, which is idempotent and precedes each migration.
- Other runs between the attempts of one retry loop: they are part of the state machine, not of the connection object.
- Timestamp prefixes of migration names; splitting a migration file into statements.
- The PostgreSQL codec and caches, pools, the query engine, proc-macro output and the sync and serverless transports.
- DocumentCheck.VerifyDocumentTypes: embeds that contain themselves, on which the program would not end, are outside the model.
- History.NamesStayUnique: holds for the sequential prefix style and numbers below the 32-bit limit, where generation stops.
- RenameDialogue.CollectRenameHints: asks for schemas with distinct names, within the schema for tables and within each table for columns and indices.
- WholePlan.PlanReachesNext: is about plans that go through; `AlteredTableRuns` says when the part of one altered table does, given the database it finds.
- GeneratedMigration.NextSchemaHeld: where enum types have names it is about schemas without enums behind two lists, which the diff of types does not see.
- TableRebuild.RebuildReachesNext: the check of an emulated enum is not applied to the rows that are copied; `DefinedColumns` says what it lets in.
- DefinedColumns.NextColumnsHeld: on PostgreSQL it is about schemas whose enums are named and agree wherever they share a name, since a type is created as its first column has it.
- Dialects.Spelled: leaves out the USING clause PostgreSQL gets between enums of different names.
- FilterWorld.TextSaysWhatEngineSays: compares values by a total order of the item's values; what a comparison with an attribute that is not there comes to is left out.
- FilterTruth.MeaningPreserved: is about one table, as a DynamoDB filter is.
- InPlaceMigration.InPlaceReachesNext: a column that the key or an index holds is not dropped, which is SQLite's rule; PostgreSQL and MySQL drop it along with the constraint or index.
- NextIndices.NextIndicesHeld: where the diff drops the index of a primary key, it is about such indices having names of their own; the plan then fails, as `NoKeyDropped` and `MissingIndexFailsPlan` say.
- JsonRoundTrip.TypedRoundTrip: text scalars are known by their stored text, so that digits of a time below the microsecond, which that text drops, are not seen.
- FilterFold.Folded: moves NOT through AND, OR and NOT; that comparisons under NOT are turned around and constants folded is left out, as neither puts a NOT over several conditions.
- ApplyMigration.Connection.ApplyTurso: the retry loop is modelled for the batch of one migration; the command's loop is shown over the SQLite driver.
