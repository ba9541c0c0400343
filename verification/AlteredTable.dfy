/** When the statements for one altered table go through, from first to last. */
module AlteredTable {
  import opened Wrappers
  import opened DbSchema
  import opened MigrationPlan
  import opened Database
  import opened DatabaseInvariant
  import opened ColumnLineage
  import opened InPlaceMigration
  import opened InPlaceConditions
  import opened TableRebuild
  import opened WholePlan
  import opened IndexFate
  import opened PlanIndices

  /** The database once the table has its next name and is rid of the indices to drop. */
  function Prepared(d: TableDiff, db: Db): Db
    requires d.Alter? && d.previous.name in db.tables
  {
    db.(tables := (db.tables - {d.previous.name})[d.next.name := db.tables[d.previous.name]],
        indices := MoveIndices(db.indices, d.previous.name, d.next.name) - Gone(d))
  }

  /** A rebuild needs room for its temporary table, a table to create, and rows that fill it; changes in
      place need that nothing stands in the way of any. */
  ghost predicate ColumnWorkRuns(
    d: TableDiff, diff: SchemaDiff, capability: Capability, renamed: RenamedTypes, db: Db)
    requires d.Alter? && AlterSound(d, diff) && d.next.name in db.tables
  {
    if NeedsRecreation(d.columns, capability, renamed) then
      && TempName(d.next.name) !in db.tables
      && d.next.columns != [] && ColumnNames(d.next.primaryKey, d.next.columns).Some?
      && AllFilled(d.previous.columns, d.next.columns, d.columns, db.tables[d.next.name].rows)
    else
      AllUnhindered(
        Setting(db, d.next.name, WorkingSchema(d, diff), d.previous.id, capability, renamed),
        d.previous.columns, d.columns, |d.columns|)
  }

  /** The names of the indices that are left when the column work is done. */
  function NamesLeft(d: TableDiff, capability: Capability, renamed: RenamedTypes, db: Db): set<string>
    requires d.Alter?
  {
    set name <- db.indices | NeedsRecreation(d.columns, capability, renamed) ==> db.indices[name].table != d.next.name
  }

  lemma RenameExactly(d: TableDiff, diff: SchemaDiff, db: Db)
    requires d.Alter? && d.previous.name in db.tables
    ensures Run(TableRename(d, diff), db)
         == if d.previous.name != d.next.name && d.next.name in db.tables then None
            else Some(db.(
              tables := (db.tables - {d.previous.name})[d.next.name := db.tables[d.previous.name]],
              indices := MoveIndices(db.indices, d.previous.name, d.next.name)))
  {
    if d.previous.name != d.next.name {
      RunOne(TableRename(d, diff)[0], db);
    } else {
      assert (db.tables - {d.previous.name})[d.next.name := db.tables[d.previous.name]] == db.tables;
      assert MoveIndices(db.indices, d.previous.name, d.next.name) == db.indices;
    }
  }

  /** Renaming and drops go through exactly when the name is free and every index is there to drop. */
  lemma PreparedExactly(d: TableDiff, diff: SchemaDiff, db: Db)
    requires d.Alter? && d.previous.name in db.tables
    ensures Run(TableRename(d, diff) + DropIndexStatements(d.indices, |d.indices|, diff.previous), db)
         == if (d.previous.name != d.next.name ==> d.next.name !in db.tables)
               && Droppable(d.indices, |d.indices|, db.indices.Keys)
            then Some(Prepared(d, db)) else None
  {
    var rename, drops := TableRename(d, diff), DropIndexStatements(d.indices, |d.indices|, diff.previous);
    RunAppend(rename, drops, db);
    RenameExactly(d, diff, db);
    if Run(rename, db).Some? {
      var d1 := Run(rename, db).value;
      assert d1.indices.Keys == db.indices.Keys;
      DropsRunWhenPresent(d.indices, |d.indices|, diff.previous, d1);
    }
  }

  lemma ColumnWorkExactly(
    d: TableDiff, diff: SchemaDiff, capability: Capability, renamed: RenamedTypes, db: Db)
    requires d.Alter? && AlterSound(d, diff) && IdsInRange(d, diff.previous, capability, renamed)
    requires DbOk(db) && d.next.name in db.tables
    requires ColumnsAre(db.tables[d.next.name], d.previous.columns, capability, renamed)
    ensures Run(ColumnWork(d, diff, capability, renamed), db).Some?
       <==> ColumnWorkRuns(d, diff, capability, renamed, db)
  {
    var schema := WorkingSchema(d, diff);
    if NeedsRecreation(d.columns, capability, renamed) {
      RebuildExactly(schema, d, capability, renamed, db);
    } else {
      SoundHolds(db, d.next.name, d.previous.columns, capability, renamed);
      InPlaceRunsExactly(Setting(db, d.next.name, schema, d.previous.id, capability, renamed),
                         d.previous.columns, d.next.columns, d.columns);
    }
  }

  lemma RebuildExactly(
    schema: Schema, d: TableDiff, capability: Capability, renamed: RenamedTypes, db: Db)
    requires d.Alter? && d.previous.id < |schema.tables| && d.next.id < |schema.tables|
    requires Coherent(d.previous.columns, d.next.columns, d.columns) && DbOk(db)
    requires schema.tables[d.previous.id].name == d.next.name && d.next.name in db.tables
    requires ColumnsAre(db.tables[d.next.name], d.previous.columns, capability, renamed)
    ensures Run(RecreationStatements(schema, d.previous, d.next, d.columns, capability), db).Some?
       <==> TempName(d.next.name) !in db.tables
            && d.next.columns != [] && ColumnNames(d.next.primaryKey, d.next.columns).Some?
            && AllFilled(d.previous.columns, d.next.columns, d.columns, db.tables[d.next.name].rows)
  {
    if Run(RecreationStatements(schema, d.previous, d.next, d.columns, capability), db).Some? {
      RebuildFoundRoom(schema, d.previous, d.next, d.columns, capability, db);
    }
    if TempName(d.next.name) !in db.tables && d.next.columns != []
       && ColumnNames(d.next.primaryKey, d.next.columns).Some?
    {
      HoldsColumns(db.tables[d.next.name], d.previous.columns, capability, renamed);
      forall name | name in db.indices
        ensures db.indices[name].table in db.tables
      {
        assert IndexOk(db.tables, db.indices[name]);
      }
      RebuildReachesNext(schema, d.previous, d.next, d.columns, capability, db);
    }
  }

  /** What the index creates find. */
  lemma ReadyForIndices(
    d: TableDiff, diff: SchemaDiff, capability: Capability, renamed: RenamedTypes, db: Db, after: Db)
    requires d.Alter? && AlterSound(d, diff) && IdsInRange(d, diff.previous, capability, renamed)
    requires DbOk(db) && d.next.name in db.tables
    requires ColumnsAre(db.tables[d.next.name], d.previous.columns, capability, renamed)
    requires Run(ColumnWork(d, diff, capability, renamed), db) == Some(after)
    ensures d.next.name in after.tables
    ensures NamesOf(after.tables[d.next.name].columns) == ColumnNameSet(d.next.columns)
    ensures after.indices.Keys == NamesLeft(d, capability, renamed, db)
  {
    ColumnWorkMigrates(WorkingSchema(d, diff), d.previous, d.next, d.columns, capability, renamed, db, after);
    ColumnWorkIndices(d, diff, capability, renamed, db, after);
  }

  lemma PreparedOk(d: TableDiff, diff: SchemaDiff, db: Db)
    requires d.Alter? && DbOk(db) && d.previous.name in db.tables
    requires Run(TableRename(d, diff) + DropIndexStatements(d.indices, |d.indices|, diff.previous), db)
          == Some(Prepared(d, db))
    ensures DbOk(Prepared(d, db))
  {
    RunKeepsDb(TableRename(d, diff) + DropIndexStatements(d.indices, |d.indices|, diff.previous), db);
  }

  /** Column work and index creates. */
  lemma SecondHalfExactly(
    d: TableDiff, diff: SchemaDiff, capability: Capability, renamed: RenamedTypes, db: Db)
    requires d.Alter? && AlterSound(d, diff) && IdsInRange(d, diff.previous, capability, renamed)
    requires IndicesStand(d, diff) && DbOk(db) && d.next.name in db.tables
    requires ColumnsAre(db.tables[d.next.name], d.previous.columns, capability, renamed)
    ensures Run(ColumnWork(d, diff, capability, renamed)
                + CreateIndexStatements(d.indices, |d.indices|, diff.next), db).Some?
       <==> ColumnWorkRuns(d, diff, capability, renamed, db)
            && AllCreatable(
                 d.indices, |d.indices|, d.next, NamesLeft(d, capability, renamed, db),
                 ColumnNameSet(d.next.columns))
  {
    var work := ColumnWork(d, diff, capability, renamed);
    RunAppend(work, CreateIndexStatements(d.indices, |d.indices|, diff.next), db);
    ColumnWorkExactly(d, diff, capability, renamed, db);
    if Run(work, db).Some? {
      ReadyForIndices(d, diff, capability, renamed, db, Run(work, db).value);
      CreatesRun(d.indices, |d.indices|, diff.next, d.next, Run(work, db).value);
    }
  }

  /** The statements for an altered table go through if and only if its next name is free, every index to
      drop is there, the columns can be worked on as the table then stands, and every index to create has
      a free name and columns to be over. */
  lemma AlteredTableRuns(d: TableDiff, diff: SchemaDiff, capability: Capability, renamed: RenamedTypes, db: Db)
    requires d.Alter? && AlterSound(d, diff) && IdsInRange(d, diff.previous, capability, renamed)
    requires IndicesStand(d, diff) && DbOk(db) && d.previous.name in db.tables
    requires ColumnsAre(db.tables[d.previous.name], d.previous.columns, capability, renamed)
    ensures Run(TableStatements(d, diff, capability, renamed), db).Some?
       <==> (d.previous.name != d.next.name ==> d.next.name !in db.tables)
            && Droppable(d.indices, |d.indices|, db.indices.Keys)
            && ColumnWorkRuns(d, diff, capability, renamed, Prepared(d, db))
            && AllCreatable(
                 d.indices, |d.indices|, d.next, NamesLeft(d, capability, renamed, Prepared(d, db)),
                 ColumnNameSet(d.next.columns))
  {
    var first := TableRename(d, diff) + DropIndexStatements(d.indices, |d.indices|, diff.previous);
    var work := ColumnWork(d, diff, capability, renamed);
    var creates := CreateIndexStatements(d.indices, |d.indices|, diff.next);
    Associative(first, work, creates);
    RunAppend(first, work + creates, db);
    PreparedExactly(d, diff, db);
    if Run(first, db).Some? {
      PreparedOk(d, diff, db);
      SecondHalfExactly(d, diff, capability, renamed, Prepared(d, db));
    }
  }
}
