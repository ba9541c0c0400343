/** Whole plans: a run that goes through turns the previous tables into the next ones. */
module WholePlan {
  import opened Wrappers
  import opened DbSchema
  import opened MigrationPlan
  import opened Database
  import opened DatabaseInvariant
  import opened ColumnLineage
  import opened TableInPlace
  import opened InPlaceMigration
  import opened TableRebuild

  // ---- Statements that leave every table alone ----

  predicate LeavesTables(m: MigrationStatement) {
    var s := m.statement;
    s.CreateType? || s.AddTypeValue? || s.CreateIndex? || s.DropIndex?
  }

  predicate AllLeaveTables(statements: seq<MigrationStatement>) {
    forall i :: 0 <= i < |statements| ==> LeavesTables(statements[i])
  }

  lemma {:induction false} RunLeavesTables(statements: seq<MigrationStatement>, db: Db)
    requires AllLeaveTables(statements) && Run(statements, db).Some?
    ensures Run(statements, db).value.tables == db.tables
  {
    if statements != [] {
      assert LeavesTables(statements[0]);
      var d := Serialize(statements[0]).value;
      assert Exec(d, db).value.tables == db.tables;
      RunLeavesTables(statements[1..], Exec(d, db).value);
    }
  }

  lemma {:induction false} NewIndicesLeaveTables(indices: seq<Index>, n: nat, schema: Schema)
    requires n <= |indices|
    ensures AllLeaveTables(NewTableIndexStatements(indices, n, schema))
  {
    if n > 0 {
      NewIndicesLeaveTables(indices, n - 1, schema);
    }
  }

  lemma {:induction false} IndexDropsLeaveTables(indices: seq<IndexDiff>, n: nat, schema: Schema)
    requires n <= |indices|
    ensures AllLeaveTables(DropIndexStatements(indices, n, schema))
  {
    if n > 0 {
      IndexDropsLeaveTables(indices, n - 1, schema);
    }
  }

  lemma {:induction false} IndexCreatesLeaveTables(indices: seq<IndexDiff>, n: nat, schema: Schema)
    requires n <= |indices|
    ensures AllLeaveTables(CreateIndexStatements(indices, n, schema))
  {
    if n > 0 {
      IndexCreatesLeaveTables(indices, n - 1, schema);
    }
  }

  lemma {:induction false} VariantsLeaveTables(ty: TypeEnum, added: seq<string>, n: nat, schema: Schema)
    requires n <= |added|
    ensures AllLeaveTables(AddVariantStatements(ty, added, n, schema))
  {
    if n > 0 {
      VariantsLeaveTables(ty, added, n - 1, schema);
    }
  }

  // ---- Types and the columns that have them ----

  function RetypedColumns(columns: seq<ColumnDef>, renamed: RenamedTypes, n: nat): (retyped: seq<ColumnDef>)
    requires n <= |renamed|
    ensures |retyped| == |columns|
    ensures forall i :: 0 <= i < |columns| ==> retyped[i] == columns[i].(ty := Retyped(columns[i].ty, renamed, n))
  {
    seq(|columns|, i requires 0 <= i < |columns| => columns[i].(ty := Retyped(columns[i].ty, renamed, n)))
  }

  /** The tables after the first `n` renames of types. */
  function RetypedTables(tables: map<string, TableData>, renamed: RenamedTypes, n: nat): map<string, TableData>
    requires n <= |renamed|
  {
    map name <- tables :: tables[name].(columns := RetypedColumns(tables[name].columns, renamed, n))
  }

  /** The database as the types' statements leave its tables. */
  function AsTyped(db: Db, capability: Capability, renamed: RenamedTypes): Db {
    if capability.namedEnumTypes then db.(tables := RetypedTables(db.tables, renamed, |renamed|)) else db
  }

  lemma RetypedMore(tables: map<string, TableData>, renamed: RenamedTypes, more: RenamedTypes)
    ensures RetypedTables(tables, renamed + more, |renamed|) == RetypedTables(tables, renamed, |renamed|)
  {
    forall name | name in tables
      ensures RetypedColumns(tables[name].columns, renamed + more, |renamed|)
           == RetypedColumns(tables[name].columns, renamed, |renamed|)
    {
      RetypedColumnsMore(tables[name].columns, renamed, more);
    }
  }

  lemma RetypedColumnsMore(columns: seq<ColumnDef>, renamed: RenamedTypes, more: RenamedTypes)
    ensures RetypedColumns(columns, renamed + more, |renamed|) == RetypedColumns(columns, renamed, |renamed|)
  {
    forall i | 0 <= i < |columns|
      ensures Retyped(columns[i].ty, renamed + more, |renamed|) == Retyped(columns[i].ty, renamed, |renamed|)
    {
      RetypedPrefix(columns[i].ty, renamed, more, |renamed|);
    }
  }

  lemma {:induction false} RetypedPrefix(ty: Type, renamed: RenamedTypes, more: RenamedTypes, n: nat)
    requires n <= |renamed|
    ensures Retyped(ty, renamed + more, n) == Retyped(ty, renamed, n)
  {
    if n > 0 {
      RetypedPrefix(ty, renamed, more, n - 1);
      assert (renamed + more)[n - 1] == renamed[n - 1];
    }
  }

  lemma RetypedOnce(tables: map<string, TableData>, renamed: RenamedTypes, n: nat)
    requires n < |renamed|
    ensures RetypeTables(RetypedTables(tables, renamed, n), renamed[n].0, renamed[n].1)
         == RetypedTables(tables, renamed, n + 1)
  {
    forall name | name in tables
      ensures RetypeColumns(RetypedColumns(tables[name].columns, renamed, n), renamed[n].0, renamed[n].1)
           == RetypedColumns(tables[name].columns, renamed, n + 1)
    {
      RetypedColumnsOnce(tables[name].columns, renamed, n);
    }
  }

  lemma RetypedColumnsOnce(columns: seq<ColumnDef>, renamed: RenamedTypes, n: nat)
    requires n < |renamed|
    ensures RetypeColumns(RetypedColumns(columns, renamed, n), renamed[n].0, renamed[n].1)
         == RetypedColumns(columns, renamed, n + 1)
  {
  }

  lemma NotRetyped(tables: map<string, TableData>)
    ensures RetypedTables(tables, [], 0) == tables
  {
    forall name | name in tables
      ensures RetypedColumns(tables[name].columns, [], 0) == tables[name].columns
    {
    }
  }

  /** What one type's statements do to the tables. */
  lemma OneTypeRuns(d: TypeDiff, diff: SchemaDiff, db: Db, after: Db)
    requires Run(OneTypeStatements(d, diff), db) == Some(after)
    ensures after.tables == if d.Rename? then RetypeTables(db.tables, d.previous.name, d.next.name) else db.tables
  {
    match d
    case Create(_) => RunLeavesTables(OneTypeStatements(d, diff), db);
    case AddVariants(ty, added) =>
      VariantsLeaveTables(ty, added, |added|, diff.next);
      RunLeavesTables(OneTypeStatements(d, diff), db);
    case Rename(_, _) => RunOne(OneTypeStatements(d, diff)[0], db);
  }

  /** The types' statements rename the types of columns, and leave the tables alone otherwise. */
  lemma {:induction false} TypesRun(diff: SchemaDiff, n: nat, db: Db, after: Db)
    requires n <= |diff.types| && Run(TypeStatements(diff, n), db) == Some(after)
    ensures
      var renamed := RenamesAmong(diff.types, n);
      after.tables == RetypedTables(db.tables, renamed, |renamed|)
  {
    if n == 0 {
      NotRetyped(db.tables);
    } else {
      var k: nat := n - 1;
      var mid := RunSplit(TypeStatements(diff, k), OneTypeStatements(diff.types[k], diff), db, after);
      TypesRun(diff, k, db, mid);
      OneTypeRuns(diff.types[k], diff, mid, after);
      OneMoreType(diff.types[k], RenamesAmong(diff.types, k), db.tables, mid.tables, after.tables);
    }
  }

  lemma OneMoreType(
    d: TypeDiff, renamed: RenamedTypes, start: map<string, TableData>, mid: map<string, TableData>,
    after: map<string, TableData>)
    requires mid == RetypedTables(start, renamed, |renamed|)
    requires after == if d.Rename? then RetypeTables(mid, d.previous.name, d.next.name) else mid
    ensures
      var all := renamed + if d.Rename? then [(d.previous.name, d.next.name)] else [];
      after == RetypedTables(start, all, |all|)
  {
    if d.Rename? {
      var all := renamed + [(d.previous.name, d.next.name)];
      RetypedMore(start, renamed, [(d.previous.name, d.next.name)]);
      RetypedOnce(start, all, |renamed|);
    } else {
      assert renamed + [] == renamed;
    }
  }

  // ---- One altered table ----

  /** The columns are the previous ones, in any order. */
  ghost predicate ColumnsAre(
    t: TableData, previous: seq<Column>, capability: Capability, renamed: RenamedTypes)
  {
    && DistinctColumns(previous)
    && NamesOf(t.columns) == StartSlots(previous, capability, renamed).Keys
    && forall i :: 0 <= i < |t.columns| ==>
         t.columns[i] == StartSlots(previous, capability, renamed)[t.columns[i].name].def
  }

  /** What `def` is for next column `q`: as `CREATE TABLE` writes it if the table was rebuilt, else what
      the changes in place make of it. */
  ghost predicate EndDef(
    columns: seq<ColumnDiff>, capability: Capability, renamed: RenamedTypes, q: Column, def: ColumnDef)
  {
    if NeedsRecreation(columns, capability, renamed) then def == DefOf(q, capability)
    else InPlaceDef(capability, renamed, columns, q, def)
  }

  /** A rebuilt table has the next key; otherwise the key follows its columns. */
  ghost predicate EndKey(
    previous: Table, next: Table, columns: seq<ColumnDiff>, capability: Capability, renamed: RenamedTypes,
    key: seq<string>, key': seq<string>)
  {
    if NeedsRecreation(columns, capability, renamed) then Some(key') == ColumnNames(next.primaryKey, next.columns)
    else KeysFollow(previous.columns, next.columns, columns, key, key')
  }

  ghost predicate EndDefs(
    next: seq<Column>, columns: seq<ColumnDiff>, capability: Capability, renamed: RenamedTypes, t: TableData)
  {
    && DistinctNames(t.columns) && NamesOf(t.columns) == ColumnNameSet(next)
    && forall def, q | def in t.columns && q in next && def.name == q.name ::
         EndDef(columns, capability, renamed, q, def)
  }

  /** The next table: its columns are the next columns, each defined as the way it was reached leaves it,
      its key is the next one or follows, and every row of the previous table is migrated. */
  ghost predicate TableMigrated(
    previous: Table, next: Table, columns: seq<ColumnDiff>, capability: Capability, renamed: RenamedTypes,
    t: TableData, t': TableData)
  {
    && EndDefs(next.columns, columns, capability, renamed, t')
    && EndKey(previous, next, columns, capability, renamed, t.primaryKey, t'.primaryKey)
    && |t'.rows| == |t.rows|
    && forall i :: 0 <= i < |t.rows| ==>
         RowMigrates(previous.columns, next.columns, columns, t.rows[i], t'.rows[i])
  }

  lemma SoundHolds(
    db: Db, table: string, previous: seq<Column>, capability: Capability, renamed: RenamedTypes)
    requires DbOk(db) && table in db.tables && ColumnsAre(db.tables[table], previous, capability, renamed)
    ensures Holds(db, table, previous, capability, renamed)
  {
    assert TableOk(db.tables[table]);
    forall i | i in db.indices && db.indices[i].table == table
      ensures AllIn(db.indices[i].columns, StartSlots(previous, capability, renamed).Keys)
    {
      assert IndexOk(db.tables, db.indices[i]);
    }
  }

  /** A rebuild that got through found its temporary name free and a table to create. */
  lemma RebuildFoundRoom(
    schema: Schema, previous: Table, next: Table, columns: seq<ColumnDiff>, capability: Capability, db: Db)
    requires previous.id < |schema.tables| && next.id < |schema.tables|
    requires Run(RecreationStatements(schema, previous, next, columns, capability), db).Some?
    ensures TempName(schema.tables[previous.id].name) !in db.tables
    ensures next.columns != [] && ColumnNames(next.primaryKey, next.columns).Some?
  {
    var steps := RecreationStatements(schema, previous, next, columns, capability);
    var off := db.(enforce := false);
    FirstTwoRun(steps, db);
    assert Run([steps[0]], db) == Some(off) by { RunOne(steps[0], db); }
    RunOne(steps[1], off);
  }

  lemma FirstTwoRun(steps: seq<MigrationStatement>, db: Db)
    requires |steps| >= 2 && Run(steps, db).Some?
    ensures Run([steps[0]], db).Some? && Run([steps[1]], Run([steps[0]], db).value).Some?
  {
    assert steps == [steps[0]] + ([steps[1]] + steps[2..]);
    RunAppend([steps[0]], [steps[1]] + steps[2..], db);
    RunAppend([steps[1]], steps[2..], Run([steps[0]], db).value);
  }

  lemma NextNames(next: seq<Column>, capability: Capability)
    ensures NamesOf(DefsOf(next, capability)) == ColumnNameSet(next)
  {
    forall c | c in next
      ensures c.name in NamesOf(DefsOf(next, capability))
    {
      var i :| 0 <= i < |next| && next[i] == c;
      assert DefsOf(next, capability)[i].name == c.name;
    }
  }

  /** The column work of an altered table, whichever way it is done. */
  lemma ColumnWorkMigrates(
    schema: Schema, previous: Table, next: Table, columns: seq<ColumnDiff>, capability: Capability,
    renamed: RenamedTypes, db: Db, after: Db)
    requires previous.id < |schema.tables|
    requires NeedsRecreation(columns, capability, renamed) ==> next.id < |schema.tables|
    requires schema.tables[previous.id].name == next.name && next.name in db.tables
    requires Coherent(previous.columns, next.columns, columns)
    requires forall i :: 0 <= i < |previous.columns| ==> previous.columns[i].id.table == previous.id
    requires DbOk(db) && ColumnsAre(db.tables[next.name], previous.columns, capability, renamed)
    requires Some(after) ==
      if NeedsRecreation(columns, capability, renamed)
      then Run(RecreationStatements(schema, previous, next, columns, capability), db)
      else Run(ColumnChangeStatements(columns, |columns|, schema, previous.id, capability, renamed), db)
    ensures next.name in after.tables
    ensures after.tables == db.tables[next.name := after.tables[next.name]]
    ensures TableMigrated(previous, next, columns, capability, renamed, db.tables[next.name], after.tables[next.name])
  {
    var t := db.tables[next.name];
    SoundHolds(db, next.name, previous.columns, capability, renamed);
    if NeedsRecreation(columns, capability, renamed) {
      RebuildFoundRoom(schema, previous, next, columns, capability, db);
      HoldsColumns(t, previous.columns, capability, renamed);
      RebuildReachesNext(schema, previous, next, columns, capability, db);
      NextNames(next.columns, capability);
    } else {
      InPlaceReachesNext(Setting(db, next.name, schema, previous.id, capability, renamed),
                         previous.columns, next.columns, columns);
    }
  }

  lemma HoldsColumns(t: TableData, previous: seq<Column>, capability: Capability, renamed: RenamedTypes)
    requires ColumnsAre(t, previous, capability, renamed)
    ensures HasColumns(t, previous)
  {
    forall i | 0 <= i < |previous|
      ensures previous[i].name in NamesOf(t.columns)
    {
      assert previous[i].name in StartSlots(previous, capability, renamed);
    }
  }

  /** The table's place in the diff is its place in the schemas, and its column changes are coherent. */
  ghost predicate AlterSound(d: TableDiff, diff: SchemaDiff)
    requires d.Alter?
  {
    && d.previous.id < |diff.previous.tables| && diff.previous.tables[d.previous.id] == d.previous
    && Coherent(d.previous.columns, d.next.columns, d.columns)
    && forall i :: 0 <= i < |d.previous.columns| ==> d.previous.columns[i].id.table == d.previous.id
  }

  /** What running an altered table's statements makes of the tables. */
  ghost predicate AlteredTables(
    d: TableDiff, capability: Capability, renamed: RenamedTypes, db: Db, after: Db)
    requires d.Alter?
  {
    && d.previous.name in db.tables && d.next.name in after.tables
    && (d.previous.name != d.next.name ==> d.next.name !in db.tables)
    && TableMigrated(
         d.previous, d.next, d.columns, capability, renamed, db.tables[d.previous.name], after.tables[d.next.name])
    && after.tables == (db.tables - {d.previous.name})[d.next.name := after.tables[d.next.name]]
  }

  lemma RenameRuns(d: TableDiff, diff: SchemaDiff, db: Db)
    requires d.Alter? && d.previous.name in db.tables && Run(TableRename(d, diff), db).Some?
    ensures d.previous.name != d.next.name ==> d.next.name !in db.tables
    ensures Run(TableRename(d, diff), db).value.tables
         == (db.tables - {d.previous.name})[d.next.name := db.tables[d.previous.name]]
  {
    if d.previous.name != d.next.name {
      RunOne(TableRename(d, diff)[0], db);
    } else {
      assert (db.tables - {d.previous.name})[d.next.name := db.tables[d.previous.name]] == db.tables;
    }
  }

  lemma RunSplit(a: seq<MigrationStatement>, b: seq<MigrationStatement>, db: Db, after: Db)
    returns (mid: Db)
    requires Run(a + b, db) == Some(after)
    ensures Run(a, db) == Some(mid) && Run(b, mid) == Some(after)
  {
    RunAppend(a, b, db);
    mid := Run(a, db).value;
  }

  /** Four stretches of a plan run one after the other. */
  lemma RunFour(
    a: seq<MigrationStatement>, b: seq<MigrationStatement>, c: seq<MigrationStatement>,
    e: seq<MigrationStatement>, db: Db)
    returns (d1: Db, d2: Db, d3: Db)
    requires Run(a + b + c + e, db).Some?
    ensures Run(a, db) == Some(d1) && Run(b, d1) == Some(d2) && Run(c, d2) == Some(d3)
    ensures Run(e, d3) == Run(a + b + c + e, db)
  {
    RunAppend(a + b + c, e, db);
    RunAppend(a + b, c, db);
    RunAppend(a, b, db);
    d1 := Run(a, db).value;
    d2 := Run(b, d1).value;
    d3 := Run(c, d2).value;
  }

  /** Renaming and index drops: the table is there under its next name, otherwise as it was. */
  lemma UpToColumnWork(d: TableDiff, diff: SchemaDiff, db: Db, d1: Db, d2: Db)
    requires d.Alter? && DbOk(db) && d.previous.name in db.tables
    requires Run(TableRename(d, diff), db) == Some(d1)
    requires Run(DropIndexStatements(d.indices, |d.indices|, diff.previous), d1) == Some(d2)
    ensures DbOk(d2)
    ensures d.previous.name != d.next.name ==> d.next.name !in db.tables
    ensures d2.tables == (db.tables - {d.previous.name})[d.next.name := db.tables[d.previous.name]]
  {
    RenameRuns(d, diff, db);
    RunKeepsDb(TableRename(d, diff), db);
    IndexDropsLeaveTables(d.indices, |d.indices|, diff.previous);
    RunLeavesTables(DropIndexStatements(d.indices, |d.indices|, diff.previous), d1);
    RunKeepsDb(DropIndexStatements(d.indices, |d.indices|, diff.previous), d1);
  }

  /** The stages of an altered table: renamed, rid of indices, its columns worked on, given indices. */
  ghost predicate Stages(
    d: TableDiff, diff: SchemaDiff, capability: Capability, renamed: RenamedTypes, db: Db, d1: Db, d2: Db, d3: Db,
    after: Db)
    requires d.Alter? && AlterSound(d, diff) && IdsInRange(d, diff.previous, capability, renamed)
  {
    && Run(TableRename(d, diff), db) == Some(d1)
    && Run(DropIndexStatements(d.indices, |d.indices|, diff.previous), d1) == Some(d2)
    && Run(ColumnWork(d, diff, capability, renamed), d2) == Some(d3)
    && Run(CreateIndexStatements(d.indices, |d.indices|, diff.next), d3) == Some(after)
  }

  /** What the stages find and leave of the table. */
  ghost predicate StagesMigrate(
    d: TableDiff, capability: Capability, renamed: RenamedTypes, db: Db, d2: Db, d3: Db)
    requires d.Alter? && d.previous.name in db.tables
  {
    && DbOk(d2) && (d.previous.name != d.next.name ==> d.next.name !in db.tables)
    && d2.tables == (db.tables - {d.previous.name})[d.next.name := db.tables[d.previous.name]]
    && d.next.name in d3.tables && d3.tables == d2.tables[d.next.name := d3.tables[d.next.name]]
    && TableMigrated(
         d.previous, d.next, d.columns, capability, renamed, d2.tables[d.next.name], d3.tables[d.next.name])
  }

  lemma AlterStages(
    d: TableDiff, diff: SchemaDiff, capability: Capability, renamed: RenamedTypes, db: Db, after: Db)
    returns (d1: Db, d2: Db, d3: Db)
    requires d.Alter? && AlterSound(d, diff) && IdsInRange(d, diff.previous, capability, renamed)
    requires DbOk(db) && d.previous.name in db.tables
    requires ColumnsAre(db.tables[d.previous.name], d.previous.columns, capability, renamed)
    requires Run(TableStatements(d, diff, capability, renamed), db) == Some(after)
    ensures Stages(d, diff, capability, renamed, db, d1, d2, d3, after)
    ensures StagesMigrate(d, capability, renamed, db, d2, d3)
  {
    d1, d2, d3 := RunFour(
      TableRename(d, diff), DropIndexStatements(d.indices, |d.indices|, diff.previous),
      ColumnWork(d, diff, capability, renamed), CreateIndexStatements(d.indices, |d.indices|, diff.next), db);
    UpToColumnWork(d, diff, db, d1, d2);
    ColumnWorkMigrates(WorkingSchema(d, diff), d.previous, d.next, d.columns, capability, renamed, d2, d3);
  }

  lemma AlterReachesNext(
    d: TableDiff, diff: SchemaDiff, capability: Capability, renamed: RenamedTypes, db: Db, after: Db)
    requires d.Alter? && AlterSound(d, diff) && IdsInRange(d, diff.previous, capability, renamed)
    requires DbOk(db) && d.previous.name in db.tables
    requires ColumnsAre(db.tables[d.previous.name], d.previous.columns, capability, renamed)
    requires Run(TableStatements(d, diff, capability, renamed), db) == Some(after)
    ensures AlteredTables(d, capability, renamed, db, after)
  {
    var d1, d2, d3 := AlterStages(d, diff, capability, renamed, db, after);
    IndexCreatesLeaveTables(d.indices, |d.indices|, diff.next);
    RunLeavesTables(CreateIndexStatements(d.indices, |d.indices|, diff.next), d3);
  }

  // ---- The whole plan ----

  /** The table name a diff takes its data from, and the one it leaves data under. */
  function ConsumedTable(d: TableDiff): Option<string> {
    match d
    case Create(_) => None
    case Drop(table) => Some(table.name)
    case Alter(previous, _, _, _) => Some(previous.name)
  }

  function ProducedTable(d: TableDiff): Option<string> {
    match d
    case Create(table) => Some(table.name)
    case Drop(_) => None
    case Alter(_, next, _, _) => Some(next.name)
  }

  ghost predicate DiffSound(diff: SchemaDiff) {
    && (forall i :: 0 <= i < |diff.tables| ==>
          var d := diff.tables[i];
          && (d.Alter? ==> AlterSound(d, diff))
          && (d.Create? ==> d.table.id < |diff.next.tables| && diff.next.tables[d.table.id] == d.table))
    && (forall i, j :: 0 <= i < j < |diff.tables| && ConsumedTable(diff.tables[i]).Some?
          ==> ConsumedTable(diff.tables[i]) != ConsumedTable(diff.tables[j]))
  }

  /** The database is sound and holds every table the diff takes data from. */
  ghost predicate StartsFrom(diff: SchemaDiff, capability: Capability, renamed: RenamedTypes, db: Db) {
    && DbOk(db)
    && forall i :: 0 <= i < |diff.tables| && ConsumedTable(diff.tables[i]).Some? ==>
         var name := ConsumedTable(diff.tables[i]).value;
         && name in db.tables
         && (diff.tables[i].Alter? ==>
               ColumnsAre(db.tables[name], diff.tables[i].previous.columns, capability, renamed))
  }

  /** What one diff has made of the start: its table is created empty, gone, or migrated. */
  ghost predicate Delivered(d: TableDiff, capability: Capability, renamed: RenamedTypes, start: Db, db: Db) {
    match d
    case Create(table) =>
      && table.name in db.tables && db.tables[table.name].rows == []
      && db.tables[table.name].columns == DefsOf(table.columns, capability)
      && Some(db.tables[table.name].primaryKey) == ColumnNames(table.primaryKey, table.columns)
    case Drop(_) => true
    case Alter(previous, next, columns, _) =>
      && previous.name in start.tables && next.name in db.tables
      && TableMigrated(
           previous, next, columns, capability, renamed, start.tables[previous.name], db.tables[next.name])
  }

  /** `name` holds at `db` what it held at the start, or is absent from both. */
  predicate Unchanged(start: Db, db: Db, name: string) {
    (name in start.tables <==> name in db.tables) && (name in db.tables ==> db.tables[name] == start.tables[name])
  }

  predicate Mentioned(diff: SchemaDiff, n: nat, name: string)
    requires n <= |diff.tables|
  {
    exists i :: 0 <= i < n
      && (ConsumedTable(diff.tables[i]) == Some(name) || ProducedTable(diff.tables[i]) == Some(name))
  }

  predicate MadeTable(diff: SchemaDiff, n: nat, name: string)
    requires n <= |diff.tables|
  {
    exists i :: 0 <= i < n && ProducedTable(diff.tables[i]) == Some(name)
  }

  /** After `n` diffs: those are delivered, their data is nowhere else, and nothing else has moved. */
  ghost predicate Progress(diff: SchemaDiff, capability: Capability, renamed: RenamedTypes, n: nat, start: Db, db: Db)
    requires n <= |diff.tables|
  {
    && DbOk(db)
    && (forall i :: 0 <= i < n ==> Delivered(diff.tables[i], capability, renamed, start, db))
    && (forall name :: !Mentioned(diff, n, name) ==> Unchanged(start, db, name))
    && (forall name :: MadeTable(diff, n, name) ==> name in db.tables)
    && (forall i :: 0 <= i < n && ConsumedTable(diff.tables[i]).Some?
          && !MadeTable(diff, n, ConsumedTable(diff.tables[i]).value)
          ==> ConsumedTable(diff.tables[i]).value !in db.tables)
    && (forall i :: n <= i < |diff.tables| && ConsumedTable(diff.tables[i]).Some?
          ==> Unchanged(start, db, ConsumedTable(diff.tables[i]).value)
              && !MadeTable(diff, n, ConsumedTable(diff.tables[i]).value))
  }

  /** One diff changes no table but the two it names, and finds the one it produces absent. */
  ghost predicate StepEffect(d: TableDiff, capability: Capability, renamed: RenamedTypes, db: Db, after: Db) {
    && DbOk(after)
    && Delivered(d, capability, renamed, db, after)
    && (ProducedTable(d).Some? && ProducedTable(d) != ConsumedTable(d) ==> ProducedTable(d).value !in db.tables)
    && (ConsumedTable(d).Some? && ProducedTable(d) != ConsumedTable(d) ==> ConsumedTable(d).value !in after.tables)
    && (forall name :: ConsumedTable(d) != Some(name) && ProducedTable(d) != Some(name) ==> Unchanged(db, after, name))
  }

  lemma StepTakesEffect(
    d: TableDiff, diff: SchemaDiff, capability: Capability, renamed: RenamedTypes, db: Db, after: Db)
    requires IdsInRange(d, diff.previous, capability, renamed) && DbOk(db)
    requires d.Alter? ==> AlterSound(d, diff)
    requires d.Create? ==> d.table.id < |diff.next.tables| && diff.next.tables[d.table.id] == d.table
    requires ConsumedTable(d).Some? ==> ConsumedTable(d).value in db.tables
    requires d.Alter? ==> ColumnsAre(db.tables[d.previous.name], d.previous.columns, capability, renamed)
    requires Run(TableStatements(d, diff, capability, renamed), db) == Some(after)
    ensures StepEffect(d, capability, renamed, db, after)
  {
    RunKeepsDb(TableStatements(d, diff, capability, renamed), db);
    match d
    case Create(table) => CreateTakesEffect(table, diff, capability, db, after);
    case Drop(table) =>
      RunOne(MigrationStatement(Statement.DropTable(table.name), diff.previous), db);
    case Alter(_, _, _, _) =>
      AlterReachesNext(d, diff, capability, renamed, db, after);
  }

  lemma CreateTakesEffect(table: Table, diff: SchemaDiff, capability: Capability, db: Db, after: Db)
    requires table.id < |diff.next.tables| && diff.next.tables[table.id] == table
    requires Run([MigrationStatement(CreateTableOf(table, capability), diff.next)]
                 + NewTableIndexStatements(table.indices, |table.indices|, diff.next), db) == Some(after)
    ensures table.name !in db.tables && table.name in after.tables
    ensures after.tables[table.name].rows == [] && after.tables[table.name].columns == DefsOf(table.columns, capability)
    ensures Some(after.tables[table.name].primaryKey) == ColumnNames(table.primaryKey, table.columns)
    ensures after.tables == db.tables[table.name := after.tables[table.name]]
  {
    var create := MigrationStatement(CreateTableOf(table, capability), diff.next);
    var indices := NewTableIndexStatements(table.indices, |table.indices|, diff.next);
    var mid := RunSplit([create], indices, db, after);
    RunOne(create, db);
    NewIndicesLeaveTables(table.indices, |table.indices|, diff.next);
    RunLeavesTables(indices, mid);
  }

  /** Tables delivered before are not touched again. */
  lemma DeliveredStays(
    diff: SchemaDiff, capability: Capability, renamed: RenamedTypes, n: nat, start: Db, db: Db, after: Db, i: nat)
    requires DiffSound(diff) && i < n < |diff.tables| && Progress(diff, capability, renamed, n, start, db)
    requires StepEffect(diff.tables[n], capability, renamed, db, after)
    requires ConsumedTable(diff.tables[n]).Some? ==> ConsumedTable(diff.tables[n]).value in db.tables
    ensures Delivered(diff.tables[i], capability, renamed, start, after)
    ensures ProducedTable(diff.tables[i]).Some? ==> ProducedTable(diff.tables[i]).value in after.tables
  {
    assert Delivered(diff.tables[i], capability, renamed, start, db);
    if ProducedTable(diff.tables[i]).Some? {
      var name := ProducedTable(diff.tables[i]).value;
      assert MadeTable(diff, n, name);
      assert ConsumedTable(diff.tables[n]) != Some(name);
      assert ProducedTable(diff.tables[n]) != Some(name);
      assert Unchanged(db, after, name);
    }
  }

  /** What the step delivers from the current database it delivers from the start. */
  lemma DeliveredNow(
    diff: SchemaDiff, capability: Capability, renamed: RenamedTypes, n: nat, start: Db, db: Db, after: Db)
    requires n < |diff.tables| && Progress(diff, capability, renamed, n, start, db)
    requires StepEffect(diff.tables[n], capability, renamed, db, after)
    ensures Delivered(diff.tables[n], capability, renamed, start, after)
  {
    if diff.tables[n].Alter? {
      assert ConsumedTable(diff.tables[n]) == Some(diff.tables[n].previous.name);
      assert Unchanged(start, db, diff.tables[n].previous.name);
    }
  }

  lemma MadeNext(diff: SchemaDiff, n: nat, name: string)
    requires n < |diff.tables|
    ensures MadeTable(diff, n + 1, name) <==> MadeTable(diff, n, name) || ProducedTable(diff.tables[n]) == Some(name)
    ensures !Mentioned(diff, n + 1, name) ==>
      && !Mentioned(diff, n, name)
      && ConsumedTable(diff.tables[n]) != Some(name) && ProducedTable(diff.tables[n]) != Some(name)
  {
    if MadeTable(diff, n, name) {
      var i :| 0 <= i < n && ProducedTable(diff.tables[i]) == Some(name);
      assert i < n + 1;
    }
  }

  lemma OthersStay(
    diff: SchemaDiff, capability: Capability, renamed: RenamedTypes, n: nat, start: Db, db: Db, after: Db)
    requires DiffSound(diff) && n < |diff.tables| && Progress(diff, capability, renamed, n, start, db)
    requires StepEffect(diff.tables[n], capability, renamed, db, after)
    ensures forall name :: !Mentioned(diff, n + 1, name) ==> Unchanged(start, after, name)
    ensures forall i :: n + 1 <= i < |diff.tables| && ConsumedTable(diff.tables[i]).Some?
              && ConsumedTable(diff.tables[i]).value in start.tables
              ==> Unchanged(start, after, ConsumedTable(diff.tables[i]).value)
                  && !MadeTable(diff, n + 1, ConsumedTable(diff.tables[i]).value)
  {
    var d := diff.tables[n];
    forall name | !Mentioned(diff, n + 1, name)
      ensures Unchanged(start, after, name)
    {
      MadeNext(diff, n, name);
      assert Unchanged(start, db, name) && Unchanged(db, after, name);
    }
    forall i | n + 1 <= i < |diff.tables| && ConsumedTable(diff.tables[i]).Some?
                && ConsumedTable(diff.tables[i]).value in start.tables
      ensures Unchanged(start, after, ConsumedTable(diff.tables[i]).value)
      ensures !MadeTable(diff, n + 1, ConsumedTable(diff.tables[i]).value)
    {
      var name := ConsumedTable(diff.tables[i]).value;
      assert Unchanged(start, db, name) && ConsumedTable(d) != Some(name);
      assert ProducedTable(d) != Some(name);
      assert Unchanged(db, after, name);
      MadeNext(diff, n, name);
    }
  }

  lemma GoneStaysGone(
    diff: SchemaDiff, capability: Capability, renamed: RenamedTypes, n: nat, start: Db, db: Db, after: Db, i: nat)
    requires DiffSound(diff) && i <= n < |diff.tables| && Progress(diff, capability, renamed, n, start, db)
    requires StepEffect(diff.tables[n], capability, renamed, db, after)
    requires ConsumedTable(diff.tables[i]).Some? && !MadeTable(diff, n + 1, ConsumedTable(diff.tables[i]).value)
    ensures ConsumedTable(diff.tables[i]).value !in after.tables
  {
    var name := ConsumedTable(diff.tables[i]).value;
    MadeNext(diff, n, name);
    if i < n {
      assert name !in db.tables;
      assert ConsumedTable(diff.tables[n]) != Some(name);
      assert Unchanged(db, after, name);
    }
  }

  lemma ProgressStep(
    diff: SchemaDiff, capability: Capability, renamed: RenamedTypes, n: nat, start: Db, db: Db, after: Db)
    requires DiffSound(diff) && StartsFrom(diff, capability, renamed, start) && n < |diff.tables|
    requires Progress(diff, capability, renamed, n, start, db)
    requires StepEffect(diff.tables[n], capability, renamed, db, after)
    requires ConsumedTable(diff.tables[n]).Some? ==> ConsumedTable(diff.tables[n]).value in db.tables
    ensures Progress(diff, capability, renamed, n + 1, start, after)
  {
    OthersStay(diff, capability, renamed, n, start, db, after);
    DeliveredNow(diff, capability, renamed, n, start, db, after);
    forall i | 0 <= i < n + 1
      ensures Delivered(diff.tables[i], capability, renamed, start, after)
      ensures ProducedTable(diff.tables[i]).Some? ==> ProducedTable(diff.tables[i]).value in after.tables
    {
      if i < n {
        DeliveredStays(diff, capability, renamed, n, start, db, after, i);
      }
    }
    forall name | MadeTable(diff, n + 1, name)
      ensures name in after.tables
    {
      var i :| 0 <= i < n + 1 && ProducedTable(diff.tables[i]) == Some(name);
      assert ProducedTable(diff.tables[i]).value in after.tables;
    }
    forall i | 0 <= i < n + 1 && ConsumedTable(diff.tables[i]).Some?
                && !MadeTable(diff, n + 1, ConsumedTable(diff.tables[i]).value)
      ensures ConsumedTable(diff.tables[i]).value !in after.tables
    {
      GoneStaysGone(diff, capability, renamed, n, start, db, after, i);
    }
  }

  lemma TableProgress(
    diff: SchemaDiff, capability: Capability, renamed: RenamedTypes, n: nat, start: Db, mid: Db, db: Db)
    requires DiffSound(diff) && StartsFrom(diff, capability, renamed, start) && n < |diff.tables|
    requires AllInRange(diff.tables, diff.previous, capability, renamed)
    requires Progress(diff, capability, renamed, n, start, mid)
    requires Run(TableStatements(diff.tables[n], diff, capability, renamed), mid) == Some(db)
    ensures Progress(diff, capability, renamed, n + 1, start, db)
  {
    var d := diff.tables[n];
    if ConsumedTable(d).Some? {
      assert Unchanged(start, mid, ConsumedTable(d).value);
    }
    StepTakesEffect(d, diff, capability, renamed, mid, db);
    ProgressStep(diff, capability, renamed, n, start, mid, db);
  }

  lemma TablesSplit(diff: SchemaDiff, capability: Capability, renamed: RenamedTypes, n: nat, start: Db, db: Db)
    returns (mid: Db)
    requires AllInRange(diff.tables, diff.previous, capability, renamed) && n < |diff.tables|
    requires Run(TablesStatements(diff, n + 1, capability, renamed), start) == Some(db)
    ensures Run(TablesStatements(diff, n, capability, renamed), start) == Some(mid)
    ensures Run(TableStatements(diff.tables[n], diff, capability, renamed), mid) == Some(db)
  {
    var before := TablesStatements(diff, n, capability, renamed);
    var step := TableStatements(diff.tables[n], diff, capability, renamed);
    mid := RunSplit(before, step, start, db);
  }

  lemma NoProgressYet(diff: SchemaDiff, capability: Capability, renamed: RenamedTypes, start: Db)
    requires DiffSound(diff) && StartsFrom(diff, capability, renamed, start)
    ensures Progress(diff, capability, renamed, 0, start, start)
  {
  }

  lemma {:induction false} TablesProgress(
    diff: SchemaDiff, capability: Capability, renamed: RenamedTypes, n: nat, start: Db, db: Db)
    requires DiffSound(diff) && StartsFrom(diff, capability, renamed, start) && n <= |diff.tables|
    requires AllInRange(diff.tables, diff.previous, capability, renamed)
    requires Run(TablesStatements(diff, n, capability, renamed), start) == Some(db)
    ensures Progress(diff, capability, renamed, n, start, db)
  {
    if n == 0 {
      NoProgressYet(diff, capability, renamed, start);
    } else {
      var k: nat := n - 1;
      assert n == k + 1;
      assert IdsInRange(diff.tables[k], diff.previous, capability, renamed);
      var mid := TablesSplit(diff, capability, renamed, k, start, db);
      TablesProgress(diff, capability, renamed, k, start, mid);
      TableProgress(diff, capability, renamed, k, start, mid, db);
    }
  }

  /** Renaming types makes the columns be as the planner takes them to be when it comes to the tables. */
  lemma TypedStarts(diff: SchemaDiff, capability: Capability, renamed: RenamedTypes, start: Db, typed: Db)
    requires StartsFrom(diff, capability, [], start) && DbOk(typed)
    requires typed.tables == AsTyped(start, capability, renamed).tables
    ensures StartsFrom(diff, capability, renamed, typed)
  {
    forall i | 0 <= i < |diff.tables| && diff.tables[i].Alter?
      ensures
        var name := diff.tables[i].previous.name;
        && name in typed.tables
        && ColumnsAre(typed.tables[name], diff.tables[i].previous.columns, capability, renamed)
    {
      var d := diff.tables[i];
      assert ConsumedTable(d) == Some(d.previous.name);
      TypedColumns(start.tables[d.previous.name], d.previous.columns, capability, renamed);
    }
  }

  lemma TypedColumns(t: TableData, previous: seq<Column>, capability: Capability, renamed: RenamedTypes)
    requires ColumnsAre(t, previous, capability, [])
    ensures ColumnsAre(
      if capability.namedEnumTypes then t.(columns := RetypedColumns(t.columns, renamed, |renamed|)) else t,
      previous, capability, renamed)
  {
    var columns := if capability.namedEnumTypes then RetypedColumns(t.columns, renamed, |renamed|) else t.columns;
    SameSlotNames(previous, capability, [], renamed);
    RetypedNames(t.columns, columns);
    forall i | 0 <= i < |columns|
      ensures columns[i].name in StartSlots(previous, capability, renamed)
      ensures columns[i] == StartSlots(previous, capability, renamed)[columns[i].name].def
    {
      assert t.columns[i].name in NamesOf(t.columns);
      var p := SlotFrom(previous, capability, [], t.columns[i].name);
      SlotOf(previous, capability, [], p);
      SlotOf(previous, capability, renamed, p);
    }
  }

  lemma SameSlotNames(previous: seq<Column>, capability: Capability, a: RenamedTypes, b: RenamedTypes)
    requires DistinctColumns(previous)
    ensures StartSlots(previous, capability, a).Keys == StartSlots(previous, capability, b).Keys
  {
  }

  lemma RetypedNames(a: seq<ColumnDef>, b: seq<ColumnDef>)
    requires |a| == |b| && forall i :: 0 <= i < |a| ==> a[i].name == b[i].name
    ensures NamesOf(a) == NamesOf(b)
  {
    forall i | 0 <= i < |a|
      ensures a[i].name in NamesOf(b) && b[i].name in NamesOf(a)
    {
    }
  }

  /** A plan that goes through has created each new table empty, given every altered table its next
      columns and key as far as the way it was reached does, with all of its rows migrated, left no table
      behind that was dropped or renamed away, and touched nothing else but for the names of types that it
      renamed; the database is sound at the end. */
  lemma PlanReachesNext(diff: SchemaDiff, capability: Capability, start: Db, after: Db)
    requires DiffSound(diff) && StartsFrom(diff, capability, [], start) && Plannable(diff, capability)
    requires Run(Plan(diff, capability), start) == Some(after)
    ensures DbOk(after)
    ensures
      var renamed := RenamedTypesOf(diff.types);
      var typed := AsTyped(start, capability, renamed);
      && (forall i :: 0 <= i < |diff.tables| ==> Delivered(diff.tables[i], capability, renamed, typed, after))
      && (forall name :: !Mentioned(diff, |diff.tables|, name) ==> Unchanged(typed, after, name))
    ensures forall i :: 0 <= i < |diff.tables| && ConsumedTable(diff.tables[i]).Some?
              && !MadeTable(diff, |diff.tables|, ConsumedTable(diff.tables[i]).value)
              ==> ConsumedTable(diff.tables[i]).value !in after.tables
  {
    var renamed := RenamedTypesOf(diff.types);
    var typed := PlanTyped(diff, capability, start, after);
    TypedStarts(diff, capability, renamed, start, typed);
    TablesProgress(diff, capability, renamed, |diff.tables|, typed, after);
    SameTables(diff, capability, renamed, AsTyped(start, capability, renamed), typed, after);
  }

  /** The database between the types' statements and the tables'. */
  lemma PlanTyped(diff: SchemaDiff, capability: Capability, start: Db, after: Db) returns (typed: Db)
    requires DbOk(start) && Plannable(diff, capability) && Run(Plan(diff, capability), start) == Some(after)
    ensures DbOk(typed) && typed.tables == AsTyped(start, capability, RenamedTypesOf(diff.types)).tables
    ensures Run(if capability.namedEnumTypes then TypeStatements(diff, |diff.types|) else [], start) == Some(typed)
    ensures Run(TablesStatements(diff, |diff.tables|, capability, RenamedTypesOf(diff.types)), typed) == Some(after)
  {
    var types := if capability.namedEnumTypes then TypeStatements(diff, |diff.types|) else [];
    typed := RunSplit(
      types, TablesStatements(diff, |diff.tables|, capability, RenamedTypesOf(diff.types)), start, after);
    RunKeepsDb(types, start);
    if capability.namedEnumTypes {
      TypesRun(diff, |diff.types|, start, typed);
    }
  }

  /** What is delivered depends on the start's tables only. */
  lemma SameTables(diff: SchemaDiff, capability: Capability, renamed: RenamedTypes, start: Db, typed: Db, after: Db)
    requires typed.tables == start.tables
    ensures forall i :: 0 <= i < |diff.tables| && Delivered(diff.tables[i], capability, renamed, typed, after)
              ==> Delivered(diff.tables[i], capability, renamed, start, after)
    ensures forall name :: Unchanged(typed, after, name) ==> Unchanged(start, after, name)
  {
  }
}
