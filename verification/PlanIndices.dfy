/** What a whole plan makes of the indices of a database. */
module PlanIndices {
  import opened Wrappers
  import opened DbSchema
  import opened MigrationPlan
  import opened Database
  import opened DatabaseInvariant
  import opened ColumnLineage
  import opened InPlaceMigration
  import opened TableRebuild
  import opened WholePlan
  import opened IndexFate
  import opened PlanOrder

  // ---- A new table's indices ----

  /** The indices of a new table, as things to create: the primary key's is left out. */
  function NewTableDiffs(indices: seq<Index>, n: nat): seq<IndexDiff>
    requires n <= |indices|
  {
    if n == 0 then []
    else
      NewTableDiffs(indices, n - 1)
      + if indices[n - 1].primaryKey then [] else [IndexDiff.Create(indices[n - 1])]
  }

  lemma {:induction false} CreatesPrefix(a: seq<IndexDiff>, b: seq<IndexDiff>, n: nat, schema: Schema)
    requires n <= |a|
    ensures CreateIndexStatements(a + b, n, schema) == CreateIndexStatements(a, n, schema)
  {
    if n > 0 {
      CreatesPrefix(a, b, n - 1, schema);
      assert (a + b)[n - 1] == a[n - 1];
    }
  }

  lemma {:induction false} NewTableAsDiffs(indices: seq<Index>, n: nat, schema: Schema)
    requires n <= |indices|
    ensures
      var diffs := NewTableDiffs(indices, n);
      NewTableIndexStatements(indices, n, schema) == CreateIndexStatements(diffs, |diffs|, schema)
  {
    if n > 0 {
      var k: nat := n - 1;
      NewTableAsDiffs(indices, k, schema);
      var diffs := NewTableDiffs(indices, k);
      if !indices[k].primaryKey {
        CreatesPrefix(diffs, [IndexDiff.Create(indices[k])], |diffs|, schema);
        CreateStatementsNext(diffs + [IndexDiff.Create(indices[k])], |diffs|, schema);
      } else {
        assert diffs + [] == diffs;
        var before := NewTableIndexStatements(indices, k, schema);
        assert before + [] == before;
      }
    }
  }

  // ---- One table ----

  function DiffIndices(d: TableDiff): seq<IndexDiff> {
    match d
    case Create(table) => NewTableDiffs(table.indices, |table.indices|)
    case Drop(_) => []
    case Alter(_, _, _, indices) => indices
  }

  function Gone(d: TableDiff): set<string> {
    DroppedNames(DiffIndices(d), |DiffIndices(d)|)
  }

  /** The indices the diff puts on the table it leaves. */
  function Put(d: TableDiff): map<string, IndexData> {
    match d
    case Create(table) => NewIndices(DiffIndices(d), |DiffIndices(d)|, table)
    case Drop(_) => map[]
    case Alter(_, next, _, _) => NewIndices(DiffIndices(d), |DiffIndices(d)|, next)
  }

  /** An index outlives the work on a table: it is not dropped, and not on a table that is dropped or
      rebuilt. */
  predicate Survives(
    d: TableDiff, capability: Capability, renamed: RenamedTypes, indices: map<string, IndexData>, name: string)
  {
    && name in indices && name !in Gone(d)
    && (ConsumedTable(d) == Some(indices[name].table) ==>
          d.Alter? && !NeedsRecreation(d.columns, capability, renamed))
  }

  /** What becomes of an index: on an altered table it follows its columns, anywhere else it stays. */
  ghost predicate Moves(d: TableDiff, x: IndexData, x': IndexData) {
    if d.Alter? && x.table == d.previous.name then
      && x'.table == d.next.name && x'.unique == x.unique
      && KeysFollow(d.previous.columns, d.next.columns, d.columns, x.columns, x'.columns)
    else
      x' == x
  }

  /** `after` has what the diff puts there and what survives of `before`, moved, and nothing else. */
  ghost predicate IndexStep(
    d: TableDiff, capability: Capability, renamed: RenamedTypes, before: map<string, IndexData>,
    after: map<string, IndexData>)
  {
    && (forall name <- after :: name in Put(d) || Survives(d, capability, renamed, before, name))
    && (forall name <- Put(d) :: name in after && after[name] == Put(d)[name])
    && (forall name <- before :: Survives(d, capability, renamed, before, name) ==>
          name in after && name !in Put(d) && Moves(d, before[name], after[name]))
  }

  lemma PutIn(d: TableDiff, capability: Capability, renamed: RenamedTypes, before: map<string, IndexData>,
              kept: map<string, IndexData>, after: map<string, IndexData>)
    requires after == kept + Put(d) && kept.Keys !! Put(d).Keys
    requires forall name :: name in kept <==> Survives(d, capability, renamed, before, name)
    requires forall name <- kept :: name in before && Moves(d, before[name], kept[name])
    ensures IndexStep(d, capability, renamed, before, after)
  {
  }

  /** The indices to create stand in the next schema, on the table the diff leaves. */
  predicate IndicesStand(d: TableDiff, diff: SchemaDiff) {
    match d
    case Create(table) => CreatedOn(DiffIndices(d), diff.next, table)
    case Drop(_) => true
    case Alter(_, next, _, _) => CreatedOn(DiffIndices(d), diff.next, next)
  }

  lemma CreatesApart(indices: seq<IndexDiff>, schema: Schema, t: Table, db: Db, after: Db)
    requires CreatedOn(indices, schema, t) && t.name in db.tables
    requires Run(CreateIndexStatements(indices, |indices|, schema), db) == Some(after)
    ensures after.indices == db.indices + NewIndices(indices, |indices|, t)
    ensures db.indices.Keys !! NewIndices(indices, |indices|, t).Keys
  {
    CreatesRun(indices, |indices|, schema, t, db);
    NewIndicesNamed(indices, |indices|, t, db.indices.Keys, NamesOf(db.tables[t.name].columns));
  }

  lemma CreateIndexStep(
    d: TableDiff, diff: SchemaDiff, capability: Capability, renamed: RenamedTypes, db: Db, after: Db)
    requires d.Create? && d.table.id < |diff.next.tables| && diff.next.tables[d.table.id] == d.table
    requires IndicesStand(d, diff)
    requires Run(TableStatements(d, diff, capability, renamed), db) == Some(after)
    ensures IndexStep(d, capability, renamed, db.indices, after.indices)
  {
    NewTableIndicesRun(d.table, diff, capability, db, after);
    NothingGone(d.table.indices, |d.table.indices|);
    PutIn(d, capability, renamed, db.indices, db.indices, after.indices);
  }

  lemma NewTableIndicesRun(table: Table, diff: SchemaDiff, capability: Capability, db: Db, after: Db)
    requires table.id < |diff.next.tables| && diff.next.tables[table.id] == table
    requires CreatedOn(NewTableDiffs(table.indices, |table.indices|), diff.next, table)
    requires Run([MigrationStatement(CreateTableOf(table, capability), diff.next)]
                 + NewTableIndexStatements(table.indices, |table.indices|, diff.next), db) == Some(after)
    ensures
      var diffs := NewTableDiffs(table.indices, |table.indices|);
      && after.indices == db.indices + NewIndices(diffs, |diffs|, table)
      && db.indices.Keys !! NewIndices(diffs, |diffs|, table).Keys
  {
    var create := MigrationStatement(CreateTableOf(table, capability), diff.next);
    var mid := RunSplit([create], NewTableIndexStatements(table.indices, |table.indices|, diff.next), db, after);
    RunOne(create, db);
    NewTableAsDiffs(table.indices, |table.indices|, diff.next);
    CreatesApart(NewTableDiffs(table.indices, |table.indices|), diff.next, table, mid, after);
  }

  lemma {:induction false} NothingGone(indices: seq<Index>, n: nat)
    requires n <= |indices|
    ensures forall i :: 0 <= i < |NewTableDiffs(indices, n)| ==> NewTableDiffs(indices, n)[i].Create?
  {
    if n > 0 {
      NothingGone(indices, n - 1);
    }
  }

  lemma DropIndexStep(
    d: TableDiff, diff: SchemaDiff, capability: Capability, renamed: RenamedTypes, db: Db, after: Db)
    requires d.Drop? && Run(TableStatements(d, diff, capability, renamed), db) == Some(after)
    ensures IndexStep(d, capability, renamed, db.indices, after.indices)
  {
    RunOne(MigrationStatement(Statement.DropTable(d.table.name), diff.previous), db);
  }

  function Renamed(d: TableDiff, x: IndexData): IndexData
    requires d.Alter?
  {
    if x.table == d.previous.name then x.(table := d.next.name) else x
  }

  /** After renaming and index drops. */
  lemma IndicesUpToColumnWork(d: TableDiff, diff: SchemaDiff, db: Db, d1: Db, d2: Db)
    requires d.Alter? && DbOk(db)
    requires Run(TableRename(d, diff), db) == Some(d1)
    requires Run(DropIndexStatements(d.indices, |d.indices|, diff.previous), d1) == Some(d2)
    ensures d2.indices.Keys == db.indices.Keys - Gone(d)
    ensures forall name <- d2.indices :: d2.indices[name] == Renamed(d, db.indices[name])
  {
    RenameIndices(d, diff, db);
    DropsRunWhenPresent(d.indices, |d.indices|, diff.previous, d1);
  }

  lemma RenameIndices(d: TableDiff, diff: SchemaDiff, db: Db)
    requires d.Alter? && Run(TableRename(d, diff), db).Some?
    ensures Run(TableRename(d, diff), db).value.indices == MoveIndices(db.indices, d.previous.name, d.next.name)
  {
    if d.previous.name != d.next.name {
      RunOne(TableRename(d, diff)[0], db);
    } else {
      assert MoveIndices(db.indices, d.previous.name, d.next.name) == db.indices;
    }
  }

  /** Column work: a rebuild takes the table's indices away, changes in place let them follow. */
  lemma ColumnWorkIndices(
    d: TableDiff, diff: SchemaDiff, capability: Capability, renamed: RenamedTypes, db: Db, after: Db)
    requires d.Alter? && AlterSound(d, diff) && IdsInRange(d, diff.previous, capability, renamed)
    requires DbOk(db) && d.next.name in db.tables
    requires ColumnsAre(db.tables[d.next.name], d.previous.columns, capability, renamed)
    requires Run(ColumnWork(d, diff, capability, renamed), db) == Some(after)
    ensures forall name :: name in after.indices <==>
      name in db.indices
      && (NeedsRecreation(d.columns, capability, renamed) ==> db.indices[name].table != d.next.name)
    ensures forall name <- after.indices ::
      FollowsOn(d, db.indices[name], after.indices[name])
  {
    var schema := WorkingSchema(d, diff);
    if NeedsRecreation(d.columns, capability, renamed) {
      RebuildIndices(schema, d, capability, renamed, db, after);
    } else {
      SoundHolds(db, d.next.name, d.previous.columns, capability, renamed);
      InPlaceReachesNext(Setting(db, d.next.name, schema, d.previous.id, capability, renamed),
                         d.previous.columns, d.next.columns, d.columns);
    }
  }

  /** On the table under its next name an index follows its columns; any other stays. */
  ghost predicate FollowsOn(d: TableDiff, x: IndexData, x': IndexData)
    requires d.Alter?
  {
    if x.table == d.next.name then
      && x'.table == x.table && x'.unique == x.unique
      && KeysFollow(d.previous.columns, d.next.columns, d.columns, x.columns, x'.columns)
    else
      x' == x
  }

  lemma RebuildIndices(
    schema: Schema, d: TableDiff, capability: Capability, renamed: RenamedTypes, db: Db, after: Db)
    requires d.Alter? && d.previous.id < |schema.tables| && d.next.id < |schema.tables|
    requires Coherent(d.previous.columns, d.next.columns, d.columns) && DbOk(db)
    requires schema.tables[d.previous.id].name == d.next.name && d.next.name in db.tables
    requires ColumnsAre(db.tables[d.next.name], d.previous.columns, capability, renamed)
    requires Run(RecreationStatements(schema, d.previous, d.next, d.columns, capability), db) == Some(after)
    ensures after.indices == DropIndicesOf(db.indices, d.next.name)
  {
    RebuildFoundRoom(schema, d.previous, d.next, d.columns, capability, db);
    HoldsColumns(db.tables[d.next.name], d.previous.columns, capability, renamed);
    forall name | name in db.indices
      ensures db.indices[name].table in db.tables
    {
      assert IndexOk(db.tables, db.indices[name]);
    }
    RebuildReachesNext(schema, d.previous, d.next, d.columns, capability, db);
  }

  /** An index on a table under its next name was on it under its previous name. */
  lemma AlterMoves(d: TableDiff, db: Db, x: IndexData, y: IndexData, z: IndexData)
    requires d.Alter? && (d.previous.name != d.next.name ==> x.table != d.next.name)
    requires y == Renamed(d, x)
    requires FollowsOn(d, y, z)
    ensures Moves(d, x, z)
    ensures y.table == d.next.name <==> x.table == d.previous.name
  {
  }

  lemma AlterIndexStep(
    d: TableDiff, diff: SchemaDiff, capability: Capability, renamed: RenamedTypes, db: Db, after: Db)
    requires d.Alter? && AlterSound(d, diff) && IdsInRange(d, diff.previous, capability, renamed)
    requires DbOk(db) && d.previous.name in db.tables && IndicesStand(d, diff)
    requires ColumnsAre(db.tables[d.previous.name], d.previous.columns, capability, renamed)
    requires Run(TableStatements(d, diff, capability, renamed), db) == Some(after)
    ensures IndexStep(d, capability, renamed, db.indices, after.indices)
  {
    var d1, d2, d3 := AlterStages(d, diff, capability, renamed, db, after);
    IndicesUpToColumnWork(d, diff, db, d1, d2);
    ColumnWorkIndices(d, diff, capability, renamed, d2, d3);
    CreatesApart(d.indices, diff.next, d.next, d3, after);
    AlterKept(d, capability, renamed, db, d2.indices, d3.indices);
    PutIn(d, capability, renamed, db.indices, d3.indices, after.indices);
  }

  lemma AlterKept(
    d: TableDiff, capability: Capability, renamed: RenamedTypes, db: Db, mid: map<string, IndexData>,
    kept: map<string, IndexData>)
    requires d.Alter? && DbOk(db) && (d.previous.name != d.next.name ==> d.next.name !in db.tables)
    requires mid.Keys == db.indices.Keys - Gone(d)
    requires forall name <- mid :: mid[name] == Renamed(d, db.indices[name])
    requires forall name :: name in kept <==>
      name in mid && (NeedsRecreation(d.columns, capability, renamed) ==> mid[name].table != d.next.name)
    requires forall name <- kept :: FollowsOn(d, mid[name], kept[name])
    ensures forall name :: name in kept <==> Survives(d, capability, renamed, db.indices, name)
    ensures forall name <- kept :: Moves(d, db.indices[name], kept[name])
  {
    forall name | name in mid
      ensures mid[name].table == d.next.name <==> db.indices[name].table == d.previous.name
      ensures name in kept ==> Moves(d, db.indices[name], kept[name])
    {
      assert IndexOk(db.tables, db.indices[name]);
      if name in kept {
        AlterMoves(d, db, db.indices[name], mid[name], kept[name]);
      }
    }
  }

  /** Whatever a table diff does, the database's indices afterwards are those it puts there and those
      that survive it. */
  lemma TableIndexStep(
    d: TableDiff, diff: SchemaDiff, capability: Capability, renamed: RenamedTypes, db: Db, after: Db)
    requires IdsInRange(d, diff.previous, capability, renamed) && DbOk(db) && IndicesStand(d, diff)
    requires d.Alter? ==> AlterSound(d, diff)
    requires d.Create? ==> d.table.id < |diff.next.tables| && diff.next.tables[d.table.id] == d.table
    requires ConsumedTable(d).Some? ==> ConsumedTable(d).value in db.tables
    requires d.Alter? ==> ColumnsAre(db.tables[d.previous.name], d.previous.columns, capability, renamed)
    requires Run(TableStatements(d, diff, capability, renamed), db) == Some(after)
    ensures IndexStep(d, capability, renamed, db.indices, after.indices)
  {
    match d
    case Create(_) => CreateIndexStep(d, diff, capability, renamed, db, after);
    case Drop(_) => DropIndexStep(d, diff, capability, renamed, db, after);
    case Alter(_, _, _, _) => AlterIndexStep(d, diff, capability, renamed, db, after);
  }

  // ---- The whole plan ----

  ghost predicate AllStand(diff: SchemaDiff) {
    forall i :: 0 <= i < |diff.tables| ==> IndicesStand(diff.tables[i], diff)
  }

  /** None of the first `n` diffs takes the index's table or drops the index. */
  predicate Spared(diff: SchemaDiff, n: nat, table: string, name: string)
    requires n <= |diff.tables|
  {
    forall i :: 0 <= i < n ==> ConsumedTable(diff.tables[i]) != Some(table) && name !in Gone(diff.tables[i])
  }

  /** After `n` diffs: spared indices are as they were, and there are no new ones but on tables made. */
  ghost predicate IndexProgress(diff: SchemaDiff, n: nat, start: Db, db: Db)
    requires n <= |diff.tables|
  {
    && (forall name <- start.indices :: Spared(diff, n, start.indices[name].table, name) ==>
          name in db.indices && db.indices[name] == start.indices[name])
    && (forall name <- db.indices :: !MadeTable(diff, n, db.indices[name].table) ==>
          name in start.indices && start.indices[name] == db.indices[name])
  }

  lemma SparedStay(
    diff: SchemaDiff, capability: Capability, renamed: RenamedTypes, n: nat, start: Db, mid: Db, db: Db,
    name: string)
    requires n < |diff.tables| && IndexProgress(diff, n, start, mid)
    requires IndexStep(diff.tables[n], capability, renamed, mid.indices, db.indices)
    requires name in start.indices && Spared(diff, n + 1, start.indices[name].table, name)
    ensures name in db.indices && db.indices[name] == start.indices[name]
  {
    assert Spared(diff, n, start.indices[name].table, name);
    assert ConsumedTable(diff.tables[n]) != Some(start.indices[name].table);
    assert Survives(diff.tables[n], capability, renamed, mid.indices, name);
  }

  /** What a diff puts in is on the table it leaves. */
  lemma PutOn(d: TableDiff)
    ensures forall name <- Put(d) :: Some(Put(d)[name].table) == ProducedTable(d)
  {
    match d
    case Create(table) => NewOnTable(DiffIndices(d), |DiffIndices(d)|, table);
    case Drop(_) =>
    case Alter(_, next, _, _) => NewOnTable(DiffIndices(d), |DiffIndices(d)|, next);
  }

  /** An index on a table the diff does not leave was there before, as it is. */
  lemma FoundElsewhere(
    d: TableDiff, capability: Capability, renamed: RenamedTypes, before: map<string, IndexData>,
    after: map<string, IndexData>, name: string)
    requires IndexStep(d, capability, renamed, before, after)
    requires name in after && Some(after[name].table) != ProducedTable(d)
    ensures name in before && before[name] == after[name]
  {
    PutOn(d);
    assert name !in Put(d);
    assert Survives(d, capability, renamed, before, name);
    assert Moves(d, before[name], after[name]);
  }

  lemma NoneNew(
    diff: SchemaDiff, capability: Capability, renamed: RenamedTypes, n: nat, start: Db, mid: Db, db: Db,
    name: string)
    requires n < |diff.tables| && IndexProgress(diff, n, start, mid)
    requires IndexStep(diff.tables[n], capability, renamed, mid.indices, db.indices)
    requires name in db.indices && !MadeTable(diff, n + 1, db.indices[name].table)
    ensures name in start.indices && start.indices[name] == db.indices[name]
  {
    MadeNext(diff, n, db.indices[name].table);
    FoundElsewhere(diff.tables[n], capability, renamed, mid.indices, db.indices, name);
  }

  lemma IndexProgressStep(
    diff: SchemaDiff, capability: Capability, renamed: RenamedTypes, n: nat, start: Db, mid: Db, db: Db)
    requires n < |diff.tables| && IndexProgress(diff, n, start, mid)
    requires IndexStep(diff.tables[n], capability, renamed, mid.indices, db.indices)
    ensures IndexProgress(diff, n + 1, start, db)
  {
    forall name | name in start.indices && Spared(diff, n + 1, start.indices[name].table, name)
      ensures name in db.indices && db.indices[name] == start.indices[name]
    {
      SparedStay(diff, capability, renamed, n, start, mid, db, name);
    }
    forall name | name in db.indices && !MadeTable(diff, n + 1, db.indices[name].table)
      ensures name in start.indices && start.indices[name] == db.indices[name]
    {
      NoneNew(diff, capability, renamed, n, start, mid, db, name);
    }
  }

  /** Every index the diff drops is there at the start, on the table it is dropped from. */
  ghost predicate DropsOwn(diff: SchemaDiff, start: Db) {
    forall i, name :: 0 <= i < |diff.tables| && name in Gone(diff.tables[i]) ==> DropsOne(diff.tables[i], start, name)
  }

  predicate DropsOne(d: TableDiff, start: Db, name: string) {
    name in start.indices && ConsumedTable(d) == Some(start.indices[name].table)
  }

  /** What a table diff has made of the indices of its table, seen from the start. */
  ghost predicate IndicesDelivered(
    d: TableDiff, capability: Capability, renamed: RenamedTypes, start: Db, db: Db)
  {
    && (forall name <- Put(d) :: name in db.indices && db.indices[name] == Put(d)[name])
    && (forall name <- start.indices :: OwnSurvivor(d, capability, renamed, start, name) ==>
          name in db.indices && Moves(d, start.indices[name], db.indices[name]))
    && (forall name <- db.indices :: Some(db.indices[name].table) == ProducedTable(d) ==>
          name in Put(d) || OwnSurvivor(d, capability, renamed, start, name))
  }

  predicate OwnSurvivor(d: TableDiff, capability: Capability, renamed: RenamedTypes, start: Db, name: string) {
    && Survives(d, capability, renamed, start.indices, name)
    && ConsumedTable(d) == Some(start.indices[name].table)
  }

  /** When its turn comes, a diff finds its table's indices as they were at the start. */
  lemma OwnAsAtStart(diff: SchemaDiff, n: nat, start: Db, mid: Db, name: string)
    requires DiffSound(diff) && n < |diff.tables| && DropsOwn(diff, start) && IndexProgress(diff, n, start, mid)
    requires ConsumedTable(diff.tables[n]).Some? && !MadeTable(diff, n, ConsumedTable(diff.tables[n]).value)
    ensures name in start.indices && ConsumedTable(diff.tables[n]) == Some(start.indices[name].table) ==>
      name in mid.indices && mid.indices[name] == start.indices[name]
    ensures name in mid.indices && ConsumedTable(diff.tables[n]) == Some(mid.indices[name].table) ==>
      name in start.indices && mid.indices[name] == start.indices[name]
  {
    if name in start.indices && ConsumedTable(diff.tables[n]) == Some(start.indices[name].table) {
      forall i | 0 <= i < n
        ensures ConsumedTable(diff.tables[i]) != Some(start.indices[name].table)
        ensures name !in Gone(diff.tables[i])
      {
        assert name in Gone(diff.tables[i]) ==> DropsOne(diff.tables[i], start, name);
      }
      assert Spared(diff, n, start.indices[name].table, name);
    }
  }

  lemma DeliveredFirst(
    diff: SchemaDiff, capability: Capability, renamed: RenamedTypes, n: nat, start: Db, mid: Db, db: Db)
    requires DiffSound(diff) && n < |diff.tables| && DropsOwn(diff, start) && IndexProgress(diff, n, start, mid)
    requires ConsumedTable(diff.tables[n]).Some? ==> !MadeTable(diff, n, ConsumedTable(diff.tables[n]).value)
    requires DbOk(mid) && FindsAbsent(diff.tables[n], mid)
    requires IndexStep(diff.tables[n], capability, renamed, mid.indices, db.indices)
    ensures IndicesDelivered(diff.tables[n], capability, renamed, start, db)
  {
    var d := diff.tables[n];
    forall name | OwnSurvivor(d, capability, renamed, start, name)
      ensures name in db.indices && Moves(d, start.indices[name], db.indices[name])
    {
      OwnAsAtStart(diff, n, start, mid, name);
      assert Survives(d, capability, renamed, mid.indices, name);
    }
    forall name | name in db.indices && Some(db.indices[name].table) == ProducedTable(d) && name !in Put(d)
      ensures OwnSurvivor(d, capability, renamed, start, name)
    {
      assert Survives(d, capability, renamed, mid.indices, name);
      OnOwnTable(d, capability, renamed, mid, db, name);
      OwnAsAtStart(diff, n, start, mid, name);
    }
  }

  /** The table a diff leaves is not there before, unless it is the one it takes. */
  predicate FindsAbsent(d: TableDiff, db: Db) {
    ProducedTable(d).Some? && ProducedTable(d) != ConsumedTable(d) ==> ProducedTable(d).value !in db.tables
  }

  lemma OnOwnTable(
    d: TableDiff, capability: Capability, renamed: RenamedTypes, mid: Db, db: Db, name: string)
    requires DbOk(mid) && FindsAbsent(d, mid)
    requires IndexStep(d, capability, renamed, mid.indices, db.indices)
    requires name in db.indices && Some(db.indices[name].table) == ProducedTable(d) && name !in Put(d)
    ensures name in mid.indices && ConsumedTable(d) == Some(mid.indices[name].table)
  {
    assert Survives(d, capability, renamed, mid.indices, name);
    assert Moves(d, mid.indices[name], db.indices[name]);
    assert IndexOk(mid.tables, mid.indices[name]);
  }

  /** Later diffs leave the indices of a table alone that was made before. */
  lemma MadeIndicesStay(
    diff: SchemaDiff, capability: Capability, renamed: RenamedTypes, n: nat, start: Db, mid: Db, db: Db,
    table: string, name: string)
    requires DiffSound(diff) && n < |diff.tables| && DropsOwn(diff, start) && IndexProgress(diff, n, start, mid)
    requires ConsumedTable(diff.tables[n]).Some? ==> !MadeTable(diff, n, ConsumedTable(diff.tables[n]).value)
    requires MadeTable(diff, n, table) && table in mid.tables && FindsAbsent(diff.tables[n], mid)
    requires IndexStep(diff.tables[n], capability, renamed, mid.indices, db.indices)
    ensures name in mid.indices && mid.indices[name].table == table ==>
      name in db.indices && db.indices[name] == mid.indices[name]
    ensures name in db.indices && db.indices[name].table == table ==>
      name in mid.indices && db.indices[name] == mid.indices[name]
  {
    var d := diff.tables[n];
    if name in mid.indices && mid.indices[name].table == table {
      if name in Gone(d) {
        assert DropsOne(d, start, name);
        OwnAsAtStart(diff, n, start, mid, name);
      }
      assert Survives(d, capability, renamed, mid.indices, name);
    }
    if name in db.indices && db.indices[name].table == table {
      FoundElsewhere(d, capability, renamed, mid.indices, db.indices, name);
    }
  }

  predicate MadeThere(diff: SchemaDiff, n: nat, db: Db)
    requires n <= |diff.tables|
  {
    forall i :: 0 <= i < n && ProducedTable(diff.tables[i]).Some? ==>
      ProducedTable(diff.tables[i]).value in db.tables
  }

  lemma DeliveredLater(
    diff: SchemaDiff, capability: Capability, renamed: RenamedTypes, n: nat, start: Db, mid: Db, db: Db, i: nat)
    requires DiffSound(diff) && n < |diff.tables| && DropsOwn(diff, start) && IndexProgress(diff, n, start, mid)
    requires ConsumedTable(diff.tables[n]).Some? ==> !MadeTable(diff, n, ConsumedTable(diff.tables[n]).value)
    requires FindsAbsent(diff.tables[n], mid)
    requires MadeThere(diff, n, mid)
    requires IndexStep(diff.tables[n], capability, renamed, mid.indices, db.indices)
    requires i < n && IndicesDelivered(diff.tables[i], capability, renamed, start, mid)
    ensures IndicesDelivered(diff.tables[i], capability, renamed, start, db)
  {
    var d := diff.tables[i];
    if ProducedTable(d).Some? {
      var table := ProducedTable(d).value;
      assert MadeTable(diff, n, table);
      PutOn(d);
      forall name: string
        ensures name in mid.indices && mid.indices[name].table == table ==>
          name in db.indices && db.indices[name] == mid.indices[name]
        ensures name in db.indices && db.indices[name].table == table ==>
          name in mid.indices && db.indices[name] == mid.indices[name]
      {
        MadeIndicesStay(diff, capability, renamed, n, start, mid, db, table, name);
      }
    }
  }

  /** All of the first `n` diffs have delivered their indices. */
  ghost predicate AllDelivered(
    diff: SchemaDiff, capability: Capability, renamed: RenamedTypes, n: nat, start: Db, db: Db)
    requires n <= |diff.tables|
  {
    forall i :: 0 <= i < n ==> IndicesDelivered(diff.tables[i], capability, renamed, start, db)
  }

  /** What the tables' progress says of the next diff. */
  lemma NextTurn(
    diff: SchemaDiff, capability: Capability, renamed: RenamedTypes, n: nat, start: Db, mid: Db, db: Db)
    requires DiffSound(diff) && AllStand(diff) && StartsFrom(diff, capability, renamed, start) && n < |diff.tables|
    requires AllInRange(diff.tables, diff.previous, capability, renamed)
    requires Progress(diff, capability, renamed, n, start, mid)
    requires Run(TableStatements(diff.tables[n], diff, capability, renamed), mid) == Some(db)
    ensures FindsAbsent(diff.tables[n], mid)
    ensures ConsumedTable(diff.tables[n]).Some? ==> !MadeTable(diff, n, ConsumedTable(diff.tables[n]).value)
    ensures IndexStep(diff.tables[n], capability, renamed, mid.indices, db.indices)
  {
    var d := diff.tables[n];
    if ConsumedTable(d).Some? {
      assert Unchanged(start, mid, ConsumedTable(d).value);
    }
    StepTakesEffect(d, diff, capability, renamed, mid, db);
    assert IndicesStand(d, diff);
    TableIndexStep(d, diff, capability, renamed, mid, db);
  }

  lemma {:induction false} IndicesProgress(
    diff: SchemaDiff, capability: Capability, renamed: RenamedTypes, n: nat, start: Db, db: Db)
    requires DiffSound(diff) && AllStand(diff) && StartsFrom(diff, capability, renamed, start) && n <= |diff.tables|
    requires AllInRange(diff.tables, diff.previous, capability, renamed)
    requires Run(TablesStatements(diff, n, capability, renamed), start) == Some(db)
    ensures IndexProgress(diff, n, start, db)
    ensures DropsOwn(diff, start) ==> AllDelivered(diff, capability, renamed, n, start, db)
  {
    if n > 0 {
      var k: nat := n - 1;
      assert n == k + 1;
      var mid := TablesSplit(diff, capability, renamed, k, start, db);
      IndicesProgress(diff, capability, renamed, k, start, mid);
      TablesProgress(diff, capability, renamed, k, start, mid);
      OneMoreTable(diff, capability, renamed, k, start, mid, db);
    } else {
      NoTableYet(diff, capability, renamed, start);
    }
  }

  lemma NoTableYet(diff: SchemaDiff, capability: Capability, renamed: RenamedTypes, start: Db)
    ensures IndexProgress(diff, 0, start, start) && AllDelivered(diff, capability, renamed, 0, start, start)
  {
  }

  lemma OneMoreTable(
    diff: SchemaDiff, capability: Capability, renamed: RenamedTypes, n: nat, start: Db, mid: Db, db: Db)
    requires DiffSound(diff) && AllStand(diff) && StartsFrom(diff, capability, renamed, start) && n < |diff.tables|
    requires AllInRange(diff.tables, diff.previous, capability, renamed)
    requires Progress(diff, capability, renamed, n, start, mid) && IndexProgress(diff, n, start, mid)
    requires DropsOwn(diff, start) ==> AllDelivered(diff, capability, renamed, n, start, mid)
    requires Run(TableStatements(diff.tables[n], diff, capability, renamed), mid) == Some(db)
    ensures IndexProgress(diff, n + 1, start, db)
    ensures DropsOwn(diff, start) ==> AllDelivered(diff, capability, renamed, n + 1, start, db)
  {
    NextTurn(diff, capability, renamed, n, start, mid, db);
    MadeAreThere(diff, capability, renamed, n, start, mid);
    IndexProgressStep(diff, capability, renamed, n, start, mid, db);
    if DropsOwn(diff, start) {
      AllDeliveredNext(diff, capability, renamed, n, start, mid, db);
    }
  }

  lemma MadeAreThere(
    diff: SchemaDiff, capability: Capability, renamed: RenamedTypes, n: nat, start: Db, mid: Db)
    requires n <= |diff.tables| && Progress(diff, capability, renamed, n, start, mid)
    ensures MadeThere(diff, n, mid)
  {
    forall i | 0 <= i < n && ProducedTable(diff.tables[i]).Some?
      ensures ProducedTable(diff.tables[i]).value in mid.tables
    {
      assert MadeTable(diff, n, ProducedTable(diff.tables[i]).value);
    }
  }

  lemma AllDeliveredNext(
    diff: SchemaDiff, capability: Capability, renamed: RenamedTypes, n: nat, start: Db, mid: Db, db: Db)
    requires DiffSound(diff) && n < |diff.tables| && DropsOwn(diff, start) && IndexProgress(diff, n, start, mid)
    requires ConsumedTable(diff.tables[n]).Some? ==> !MadeTable(diff, n, ConsumedTable(diff.tables[n]).value)
    requires DbOk(mid) && FindsAbsent(diff.tables[n], mid)
    requires MadeThere(diff, n, mid)
    requires IndexStep(diff.tables[n], capability, renamed, mid.indices, db.indices)
    requires AllDelivered(diff, capability, renamed, n, start, mid)
    ensures AllDelivered(diff, capability, renamed, n + 1, start, db)
  {
    DeliveredFirst(diff, capability, renamed, n, start, mid, db);
    forall i | 0 <= i < n
      ensures IndicesDelivered(diff.tables[i], capability, renamed, start, db)
    {
      DeliveredLater(diff, capability, renamed, n, start, mid, db, i);
    }
  }

  lemma {:induction false} RunLeavesIndices(statements: seq<MigrationStatement>, db: Db)
    requires forall i :: 0 <= i < |statements| ==> OnTypes(statements[i])
    requires Run(statements, db).Some?
    ensures Run(statements, db).value.indices == db.indices
  {
    if statements != [] {
      var after := Exec(Serialize(statements[0]).value, db).value;
      assert OnTypes(statements[0]) && after.indices == db.indices;
      RunLeavesIndices(statements[1..], after);
    }
  }

  /** A plan that goes through leaves the indices of tables it does not mention as they are, but for those
      a drop names, and puts none on them. If it drops only what is there for it to drop, each table it
      leaves has the indices its diff puts there and those of its own that survive, and no others. */
  lemma PlanIndexFate(diff: SchemaDiff, capability: Capability, start: Db, after: Db)
    requires DiffSound(diff) && AllStand(diff) && StartsFrom(diff, capability, [], start)
    requires Plannable(diff, capability) && Run(Plan(diff, capability), start) == Some(after)
    ensures IndexProgress(diff, |diff.tables|, start, after)
    ensures DropsOwn(diff, start) ==>
      AllDelivered(diff, capability, RenamedTypesOf(diff.types), |diff.tables|, start, after)
  {
    var renamed := RenamedTypesOf(diff.types);
    var typed := PlanTyped(diff, capability, start, after);
    TypesOnly(diff, |diff.types|);
    RunLeavesIndices(if capability.namedEnumTypes then TypeStatements(diff, |diff.types|) else [], start);
    TypedStarts(diff, capability, renamed, start, typed);
    IndicesProgress(diff, capability, renamed, |diff.tables|, typed, after);
    SameIndices(diff, capability, renamed, start, typed, after);
  }

  lemma SameIndices(
    diff: SchemaDiff, capability: Capability, renamed: RenamedTypes, start: Db, typed: Db, after: Db)
    requires typed.indices == start.indices
    requires IndexProgress(diff, |diff.tables|, typed, after)
    requires DropsOwn(diff, typed) ==> AllDelivered(diff, capability, renamed, |diff.tables|, typed, after)
    ensures IndexProgress(diff, |diff.tables|, start, after)
    ensures DropsOwn(diff, start) ==> AllDelivered(diff, capability, renamed, |diff.tables|, start, after)
  {
    if DropsOwn(diff, start) {
      forall i, name | 0 <= i < |diff.tables| && name in Gone(diff.tables[i])
        ensures DropsOne(diff.tables[i], typed, name)
      {
        assert DropsOne(diff.tables[i], start, name);
      }
      forall i | 0 <= i < |diff.tables|
        ensures IndicesDelivered(diff.tables[i], capability, renamed, start, after)
      {
        assert IndicesDelivered(diff.tables[i], capability, renamed, typed, after);
        SameDelivery(diff.tables[i], capability, renamed, start, typed, after);
      }
    }
  }

  lemma SameDelivery(d: TableDiff, capability: Capability, renamed: RenamedTypes, start: Db, typed: Db, after: Db)
    requires typed.indices == start.indices && IndicesDelivered(d, capability, renamed, typed, after)
    ensures IndicesDelivered(d, capability, renamed, start, after)
  {
    forall name: string
      ensures OwnSurvivor(d, capability, renamed, start, name) <==> OwnSurvivor(d, capability, renamed, typed, name)
    {
    }
  }

  // ---- Drops of what is not there ----

  predicate PutBefore(diff: SchemaDiff, n: nat, name: string)
    requires n <= |diff.tables|
  {
    exists j :: 0 <= j < n && name in Put(diff.tables[j])
  }

  /** What diff `i` drops was there at the start or has been put in before it. */
  predicate DropsKnown(diff: SchemaDiff, i: nat, start: Db)
    requires i < |diff.tables|
  {
    var d := diff.tables[i];
    d.Alter? ==> forall k :: 0 <= k < |d.indices| && d.indices[k].Dropped().Some? ==>
      var name := d.indices[k].Dropped().value.name;
      name in start.indices || PutBefore(diff, i, name)
  }

  /** Every index there is after `n` diffs was there at the start or put in by one of them; and so was
      whatever they have dropped. */
  lemma {:induction false} NamesComeFrom(
    diff: SchemaDiff, capability: Capability, renamed: RenamedTypes, n: nat, start: Db, db: Db)
    requires DiffSound(diff) && AllStand(diff) && StartsFrom(diff, capability, renamed, start)
    requires n <= |diff.tables| && AllInRange(diff.tables, diff.previous, capability, renamed)
    requires Run(TablesStatements(diff, n, capability, renamed), start) == Some(db)
    ensures AllKnown(diff, n, start, db)
  {
    if n > 0 {
      var k: nat := n - 1;
      assert n == k + 1;
      var mid := TablesSplit(diff, capability, renamed, k, start, db);
      NamesComeFrom(diff, capability, renamed, k, start, mid);
      TablesProgress(diff, capability, renamed, k, start, mid);
      NextTurn(diff, capability, renamed, k, start, mid, db);
      AllDroppedThere(diff.tables[k], diff, capability, renamed, mid, db);
      KnownOneMore(diff, capability, renamed, k, start, mid, db);
    }
  }

  predicate AllKnown(diff: SchemaDiff, n: nat, start: Db, db: Db)
    requires n <= |diff.tables|
  {
    && (forall name <- db.indices :: name in start.indices || PutBefore(diff, n, name))
    && (forall i :: 0 <= i < n ==> DropsKnown(diff, i, start))
  }

  lemma KnownOneMore(
    diff: SchemaDiff, capability: Capability, renamed: RenamedTypes, n: nat, start: Db, mid: Db, db: Db)
    requires n < |diff.tables| && AllKnown(diff, n, start, mid) && DroppedThere(diff.tables[n], mid)
    requires IndexStep(diff.tables[n], capability, renamed, mid.indices, db.indices)
    ensures AllKnown(diff, n + 1, start, db)
  {
    NamesOneMore(diff, capability, renamed, n, start, mid, db);
    DropsOneMore(diff, n, start, mid);
  }

  /** Every index the diff drops is there. */
  predicate DroppedThere(d: TableDiff, db: Db) {
    d.Alter? ==> forall k :: 0 <= k < |d.indices| && d.indices[k].Dropped().Some? ==>
      d.indices[k].Dropped().value.name in db.indices
  }

  lemma DropsOneMore(diff: SchemaDiff, n: nat, start: Db, mid: Db)
    requires n < |diff.tables| && DroppedThere(diff.tables[n], mid)
    requires forall name <- mid.indices :: name in start.indices || PutBefore(diff, n, name)
    ensures DropsKnown(diff, n, start)
  {
  }

  lemma AllDroppedThere(
    d: TableDiff, diff: SchemaDiff, capability: Capability, renamed: RenamedTypes, db: Db, after: Db)
    requires IdsInRange(d, diff.previous, capability, renamed)
    requires Run(TableStatements(d, diff, capability, renamed), db) == Some(after)
    ensures DroppedThere(d, db)
  {
    if d.Alter? {
      forall k | 0 <= k < |d.indices| && d.indices[k].Dropped().Some?
        ensures d.indices[k].Dropped().value.name in db.indices
      {
        DroppedIsThere(d, diff, capability, renamed, db, after, k);
      }
    }
  }

  lemma NamesOneMore(
    diff: SchemaDiff, capability: Capability, renamed: RenamedTypes, n: nat, start: Db, mid: Db, db: Db)
    requires n < |diff.tables| && IndexStep(diff.tables[n], capability, renamed, mid.indices, db.indices)
    requires forall name <- mid.indices :: name in start.indices || PutBefore(diff, n, name)
    ensures forall name <- db.indices :: name in start.indices || PutBefore(diff, n + 1, name)
  {
    forall name | name in db.indices && name !in start.indices
      ensures PutBefore(diff, n + 1, name)
    {
      if name !in Put(diff.tables[n]) {
        assert Survives(diff.tables[n], capability, renamed, mid.indices, name);
        var j :| 0 <= j < n && name in Put(diff.tables[j]);
      }
    }
  }

  /** So a plan that goes through drops only what was there at the start or has been put in since. */
  lemma DropsWereThere(diff: SchemaDiff, capability: Capability, start: Db, after: Db, i: nat)
    requires DiffSound(diff) && AllStand(diff) && StartsFrom(diff, capability, [], start)
    requires Plannable(diff, capability) && Run(Plan(diff, capability), start) == Some(after)
    requires i < |diff.tables|
    ensures DropsKnown(diff, i, start)
  {
    var renamed := RenamedTypesOf(diff.types);
    var typed := PlanTyped(diff, capability, start, after);
    TypesOnly(diff, |diff.types|);
    RunLeavesIndices(if capability.namedEnumTypes then TypeStatements(diff, |diff.types|) else [], start);
    TypedStarts(diff, capability, renamed, start, typed);
    NamesComeFrom(diff, capability, renamed, |diff.tables|, typed, after);
    assert DropsKnown(diff, i, typed);
  }

  lemma DroppedIsThere(
    d: TableDiff, diff: SchemaDiff, capability: Capability, renamed: RenamedTypes, db: Db, after: Db, k: nat)
    requires d.Alter? && IdsInRange(d, diff.previous, capability, renamed) && k < |d.indices|
    requires d.indices[k].Dropped().Some? && Run(TableStatements(d, diff, capability, renamed), db) == Some(after)
    ensures d.indices[k].Dropped().value.name in db.indices
  {
    if DroppedName(d.indices[k]).value !in db.indices {
      MissingIndexFailsPlan(d, diff, capability, renamed, db, k);
    }
  }
}
