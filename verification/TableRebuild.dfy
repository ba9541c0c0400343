/** The six-step rebuild: it reaches the next table and carries every row over. */
module TableRebuild {
  import opened Wrappers
  import opened DbSchema
  import opened MigrationPlan
  import opened Database
  import opened ColumnLineage

  // ---- The copied columns ----

  lemma {:induction false} SourceNameInSuffix(
    previous: seq<Column>, next: seq<Column>, columns: seq<ColumnDiff>, i: nat, q: Column)
    requires Coherent(previous, next, columns) && q in next && i <= |columns|
    ensures forall k :: i <= k < |columns| && columns[k].Alter? && columns[k].next == q
              ==> SourceName(q, columns[i..]) == columns[k].previous.name
    ensures (forall k :: i <= k < |columns| ==> Produced(columns[k]) != Some(q))
              ==> SourceName(q, columns[i..]) == q.name
    decreases |columns| - i
  {
    if i < |columns| {
      assert columns[i..][0] == columns[i] && columns[i..][1..] == columns[i + 1..];
      SourceNameInSuffix(previous, next, columns, i + 1, q);
      if columns[i].Alter? && columns[i].next.id == q.id {
        assert Produced(columns[i]) == Some(columns[i].next);
        assert columns[i].next in next;
        assert columns[i].next == q;
        forall k | i < k < |columns|
          ensures Produced(columns[k]) != Some(q)
        {
        }
      }
    }
  }

  /** A kept column is copied from the name it had. */
  lemma SourceNameOfKept(previous: seq<Column>, next: seq<Column>, columns: seq<ColumnDiff>, p: Column, q: Column)
    requires Coherent(previous, next, columns) && Kept(previous, next, columns, p, q)
    ensures !IsAdded(q, columns) && SourceName(q, columns) == p.name
  {
    SourceNameInSuffix(previous, next, columns, 0, q);
    assert columns[0..] == columns;
    if ColumnDiff.Alter(p, q) in columns {
      var k :| 0 <= k < |columns| && columns[k] == ColumnDiff.Alter(p, q);
      assert Produced(columns[k]) == Some(q);
    }
    var origin := LineageOf(previous, next, columns, q);
    assert origin == Some(p);
    forall i | 0 <= i < |columns| && columns[i].Add?
      ensures columns[i].column.id != q.id
    {
      assert Produced(columns[i]) == Some(columns[i].column);
      assert columns[i].column in next && columns[i].column != q;
    }
  }

  lemma {:induction false} MappingsOf(next: seq<Column>, columns: seq<ColumnDiff>)
    requires DistinctColumns(next)
    ensures forall q :: q in next && !IsAdded(q, columns)
              ==> (q.name, SourceName(q, columns)) in ColumnMappings(next, columns)
    ensures forall m :: m in ColumnMappings(next, columns) ==>
              exists q :: q in next && !IsAdded(q, columns) && m == (q.name, SourceName(q, columns))
    ensures Distinct(Targets(ColumnMappings(next, columns)))
  {
    if next != [] {
      var rest := next[1..];
      assert DistinctColumns(rest);
      MappingsOf(rest, columns);
      var tail := ColumnMappings(rest, columns);
      forall m | m in ColumnMappings(next, columns)
        ensures exists q :: q in next && !IsAdded(q, columns) && m == (q.name, SourceName(q, columns))
      {
        if m in tail {
          var q :| q in rest && !IsAdded(q, columns) && m == (q.name, SourceName(q, columns));
          assert q in next;
        }
      }
      forall i | 0 <= i < |tail|
        ensures tail[i].0 != next[0].name
      {
        assert tail[i] in tail;
        var q :| q in rest && !IsAdded(q, columns) && tail[i] == (q.name, SourceName(q, columns));
      }
    }
  }

  lemma ProjectRowAt(mappings: seq<(string, string)>, row: Row, m: (string, string))
    requires Distinct(Targets(mappings)) && m in mappings
    ensures SameValue(row, m.1, ProjectRow(mappings, row), m.0)
  {
    var i :| 0 <= i < |mappings| && mappings[i] == m;
    forall j | 0 <= j < |mappings| && mappings[j].0 == m.0
      ensures j == i
    {
      assert Targets(mappings)[j] == Targets(mappings)[i];
    }
    assert FirstTarget(mappings, i);
  }

  /** What step 3 copies is the migrated row: renamed columns included, added columns unfilled. */
  lemma CopyMigrates(previous: seq<Column>, next: seq<Column>, columns: seq<ColumnDiff>, row: Row)
    requires Coherent(previous, next, columns)
    ensures RowMigrates(previous, next, columns, row, ProjectRow(ColumnMappings(next, columns), row))
  {
    var mappings := ColumnMappings(next, columns);
    MappingsOf(next, columns);
    forall p, q | Kept(previous, next, columns, p, q)
      ensures SameValue(row, p.name, ProjectRow(mappings, row), q.name)
    {
      SourceNameOfKept(previous, next, columns, p, q);
      ProjectRowAt(mappings, row, (q.name, p.name));
    }
    forall name | name in ProjectRow(mappings, row)
      ensures exists p, q :: Kept(previous, next, columns, p, q) && q.name == name
    {
      var i :| 0 <= i < |mappings| && mappings[i].0 == name;
      assert mappings[i] in mappings;
      var q :| q in next && !IsAdded(q, columns) && mappings[i] == (q.name, SourceName(q, columns));
      var p := LineageOf(previous, next, columns, q);
      AddIsAdded(columns, q);
    }
  }

  // ---- The six steps ----

  /** Every column that must not be NULL next is fed by a column that is not NULL now. */
  ghost predicate NextFilled(previous: seq<Column>, next: seq<Column>, columns: seq<ColumnDiff>, row: Row) {
    forall q :: q in next && !q.nullable ==> exists p :: Kept(previous, next, columns, p, q) && p.name in row
  }

  lemma FilledWhenFits(
    previous: seq<Column>, next: seq<Column>, columns: seq<ColumnDiff>, capability: Capability,
    before: Row, after: Row, q: Column)
    requires DistinctColumns(next) && RowMigrates(previous, next, columns, before, after)
    requires Fits(DefsOf(next, capability), after) && q in next && !q.nullable
    ensures exists p :: Kept(previous, next, columns, p, q) && p.name in before
  {
    var i :| 0 <= i < |next| && next[i] == q;
    assert DefsOf(next, capability)[i] == DefOf(q, capability);
    assert q.name in after;
    var p, q' :| Kept(previous, next, columns, p, q') && q'.name == q.name;
    assert q' == q && SameValue(before, p.name, after, q.name);
  }

  lemma FitsWhenFilled(
    previous: seq<Column>, next: seq<Column>, columns: seq<ColumnDiff>, capability: Capability, before: Row, after: Row)
    requires DistinctColumns(next) && RowMigrates(previous, next, columns, before, after)
    ensures Fits(DefsOf(next, capability), after) <==> NextFilled(previous, next, columns, before)
  {
    if Fits(DefsOf(next, capability), after) {
      forall q | q in next && !q.nullable
        ensures exists p :: Kept(previous, next, columns, p, q) && p.name in before
      {
        FilledWhenFits(previous, next, columns, capability, before, after, q);
      }
    }
    if NextFilled(previous, next, columns, before) {
      forall i | 0 <= i < |next| && !next[i].nullable
        ensures next[i].name in after
      {
        assert next[i] in next;
        var p :| Kept(previous, next, columns, p, next[i]) && p.name in before;
        assert SameValue(before, p.name, after, next[i].name);
      }
    }
  }

  ghost predicate AllFilled(previous: seq<Column>, next: seq<Column>, columns: seq<ColumnDiff>, rows: seq<Row>) {
    forall i :: 0 <= i < |rows| ==> NextFilled(previous, next, columns, rows[i])
  }

  /** The table holds every one of the columns. */
  predicate HasColumns(t: TableData, columns: seq<Column>) {
    forall i :: 0 <= i < |columns| ==> columns[i].name in NamesOf(t.columns)
  }

  predicate IndicesSound(db: Db) {
    forall name <- db.indices :: db.indices[name].table in db.tables
  }

  /** What the rebuild of `current` starts from. */
  ghost predicate RebuildReady(
    schema: Schema, previous: Table, next: Table, columns: seq<ColumnDiff>, db: Db)
  {
    && previous.id < |schema.tables| && next.id < |schema.tables|
    && Coherent(previous.columns, next.columns, columns)
    && next.columns != []
    && ColumnNames(next.primaryKey, next.columns).Some?
    && IndicesSound(db)
    && var current := schema.tables[previous.id].name;
    && current in db.tables && TempName(current) !in db.tables
    && HasColumns(db.tables[current], previous.columns)
  }

  /** The table as it should be next, whatever became of it on the way there. */
  ghost predicate IsNextTable(
    previous: Table, next: Table, columns: seq<ColumnDiff>, capability: Capability, before: TableData, after: TableData)
  {
    && after.columns == DefsOf(next.columns, capability)
    && Some(after.primaryKey) == ColumnNames(next.primaryKey, next.columns)
    && |after.rows| == |before.rows|
    && forall i :: 0 <= i < |before.rows| ==>
         RowMigrates(previous.columns, next.columns, columns, before.rows[i], after.rows[i])
  }

  lemma {:induction false} ColumnNamesKnown(ids: seq<ColumnId>, columns: seq<Column>, capability: Capability)
    ensures ColumnNames(ids, columns).Some?
            ==> AllIn(ColumnNames(ids, columns).value, NamesOf(DefsOf(columns, capability)))
  {
    if ids != [] && ids[0].index < |columns| {
      ColumnNamesKnown(ids[1..], columns, capability);
      assert DefsOf(columns, capability)[ids[0].index].name in NamesOf(DefsOf(columns, capability));
    }
  }

  lemma MappingsResolved(
    previous: seq<Column>, next: seq<Column>, columns: seq<ColumnDiff>, capability: Capability, t: TableData)
    requires Coherent(previous, next, columns) && HasColumns(t, previous)
    ensures Distinct(Targets(ColumnMappings(next, columns)))
    ensures MappingsResolve(ColumnMappings(next, columns), NamesOf(DefsOf(next, capability)), NamesOf(t.columns))
  {
    var mappings := ColumnMappings(next, columns);
    MappingsOf(next, columns);
    forall i | 0 <= i < |mappings|
      ensures mappings[i].0 in NamesOf(DefsOf(next, capability)) && mappings[i].1 in NamesOf(t.columns)
    {
      assert mappings[i] in mappings;
      var q :| q in next && !IsAdded(q, columns) && mappings[i] == (q.name, SourceName(q, columns));
      var k :| 0 <= k < |next| && next[k] == q;
      assert DefsOf(next, capability)[k].name == q.name;
      var p := LineageOf(previous, next, columns, q);
      AddIsAdded(columns, q);
      SourceNameOfKept(previous, next, columns, p.value, q);
    }
  }

  function RebuiltTable(next: Table, columns: seq<ColumnDiff>, capability: Capability, t: TableData): TableData
    requires ColumnNames(next.primaryKey, next.columns).Some?
  {
    TableData(
      DefsOf(next.columns, capability), ColumnNames(next.primaryKey, next.columns).value,
      ProjectRows(ColumnMappings(next.columns, columns), t.rows))
  }

  /** The names of a table's primary key in its temporary snapshot are its names in the next table. */
  lemma SerializeTempTable(schema: Schema, next: Table, temp: string, capability: Capability)
    requires next.id < |schema.tables| && ColumnNames(next.primaryKey, next.columns).Some?
    ensures Serialize(MigrationStatement(CreateTableOf(next, capability), TempSchema(schema, next, temp)))
         == Some(Ddl.CreateTable(
              temp, DefsOf(next.columns, capability), ColumnNames(next.primaryKey, next.columns).value))
  {
  }

  lemma ExecCreateTemp(db: Db, temp: string, next: Table, capability: Capability)
    requires temp !in db.tables && DistinctColumns(next.columns) && next.columns != []
    requires ColumnNames(next.primaryKey, next.columns).Some?
    ensures
      var defs := DefsOf(next.columns, capability);
      var primaryKey := ColumnNames(next.primaryKey, next.columns).value;
      Exec(Ddl.CreateTable(temp, defs, primaryKey), db)
      == Some(db.(tables := db.tables[temp := TableData(defs, primaryKey, [])]))
  {
    ColumnNamesKnown(next.primaryKey, next.columns, capability);
    assert DefsOf(next.columns, capability)[0] == DefOf(next.columns[0], capability);
  }

  /** Copying into the empty table fails exactly when a copied row does not fit it. */
  lemma ExecCopy(db: Db, current: string, temp: string, mappings: seq<(string, string)>)
    requires current in db.tables && temp in db.tables && db.tables[temp].rows == []
    requires Distinct(Targets(mappings))
    requires MappingsResolve(mappings, NamesOf(db.tables[temp].columns), NamesOf(db.tables[current].columns))
    ensures
      var copied := ProjectRows(mappings, db.tables[current].rows);
      Exec(Ddl.CopyTable(current, temp, mappings), db)
      == if AllFit(db.tables[temp].columns, copied)
         then Some(db.(tables := db.tables[temp := db.tables[temp].(rows := copied)])) else None
  {
    var copied := ProjectRows(mappings, db.tables[current].rows);
    assert [] + copied == copied;
  }

  /** Steps 1 to 3: enforcement off, and a filled table beside the current one. */
  lemma CreateAndCopy(
    schema: Schema, previous: Table, next: Table, columns: seq<ColumnDiff>, capability: Capability, db: Db)
    requires previous.id < |schema.tables| && next.id < |schema.tables|
    requires DistinctColumns(next.columns) && next.columns != []
    requires ColumnNames(next.primaryKey, next.columns).Some?
    requires schema.tables[previous.id].name in db.tables
    requires TempName(schema.tables[previous.id].name) !in db.tables
    requires var mappings := ColumnMappings(next.columns, columns);
      && Distinct(Targets(mappings))
      && MappingsResolve(mappings, NamesOf(DefsOf(next.columns, capability)),
                         NamesOf(db.tables[schema.tables[previous.id].name].columns))
    ensures
      var current := schema.tables[previous.id].name;
      var rebuilt := RebuiltTable(next, columns, capability, db.tables[current]);
      Run(RecreationStatements(schema, previous, next, columns, capability)[..3], db)
      == if AllFit(rebuilt.columns, rebuilt.rows)
         then Some(db.(tables := db.tables[TempName(current) := rebuilt], enforce := false)) else None
  {
    var current := schema.tables[previous.id].name;
    var temp := TempName(current);
    var rebuilt := RebuiltTable(next, columns, capability, db.tables[current]);
    var steps := RecreationStatements(schema, previous, next, columns, capability);
    var off := db.(enforce := false);
    var created := off.(tables := off.tables[temp := rebuilt.(rows := [])]);
    SerializeTempTable(schema, next, temp, capability);
    ExecCreateTemp(off, temp, next, capability);
    ExecCopy(created, current, temp, ColumnMappings(next.columns, columns));
    RunThree(steps[0], steps[1], steps[2], db, off, created);
    assert steps[..3] == [steps[0], steps[1], steps[2]];
    assert created.tables[temp := rebuilt] == db.tables[temp := rebuilt];
  }

  /** Dropping the current table and renaming the temporary one to its name. */
  lemma ExecSwap(db: Db, current: string, temp: string, rebuilt: TableData)
    requires current in db.tables && temp !in db.tables && IndicesSound(db) && temp != current
    ensures
      var mid := db.(tables := db.tables[temp := rebuilt], enforce := false);
      var dropped := mid.(tables := mid.tables - {current}, indices := DropIndicesOf(db.indices, current));
      && Exec(Ddl.DropTable(current), mid) == Some(dropped)
      && Exec(Ddl.RenameTable(temp, current), dropped)
         == Some(dropped.(tables := db.tables[current := rebuilt]))
  {
    var mid := db.(tables := db.tables[temp := rebuilt], enforce := false);
    var dropped := mid.(tables := mid.tables - {current}, indices := DropIndicesOf(db.indices, current));
    assert MoveIndices(dropped.indices, temp, current) == dropped.indices;
    assert (dropped.tables - {temp})[current := rebuilt] == db.tables[current := rebuilt];
  }

  /** Steps 4 to 6: the new table takes the place of the current one, enforcement on again. */
  lemma SwapIn(schema: Schema, previous: Table, next: Table, columns: seq<ColumnDiff>, capability: Capability,
               db: Db, rebuilt: TableData)
    requires previous.id < |schema.tables| && next.id < |schema.tables| && IndicesSound(db)
    requires schema.tables[previous.id].name in db.tables
    requires TempName(schema.tables[previous.id].name) !in db.tables
    ensures
      var current := schema.tables[previous.id].name;
      Run(RecreationStatements(schema, previous, next, columns, capability)[3..],
          db.(tables := db.tables[TempName(current) := rebuilt], enforce := false))
      == Some(db.(
           tables := db.tables[current := rebuilt], indices := DropIndicesOf(db.indices, current), enforce := true))
  {
    var current := schema.tables[previous.id].name;
    var temp := TempName(current);
    assert |temp| > |current|;
    var steps := RecreationStatements(schema, previous, next, columns, capability);
    assert steps[3..] == [steps[3], steps[4], steps[5]];
    ExecSwap(db, current, temp, rebuilt);
    var mid := db.(tables := db.tables[temp := rebuilt], enforce := false);
    var dropped := mid.(tables := mid.tables - {current}, indices := DropIndicesOf(db.indices, current));
    RunThree(steps[3], steps[4], steps[5], mid, dropped, dropped.(tables := db.tables[current := rebuilt]));
  }

  /** The rebuild succeeds exactly when every row can fill the next columns. It then leaves one
      table under the current name, with the next columns and every old row migrated; every other
      table is untouched, only that table's indices are gone, and enforcement is on. */
  lemma RebuildReachesNext(
    schema: Schema, previous: Table, next: Table, columns: seq<ColumnDiff>, capability: Capability, db: Db)
    requires RebuildReady(schema, previous, next, columns, db)
    ensures
      var current := schema.tables[previous.id].name;
      match Run(RecreationStatements(schema, previous, next, columns, capability), db)
      case None => !AllFilled(previous.columns, next.columns, columns, db.tables[current].rows)
      case Some(after) =>
        && AllFilled(previous.columns, next.columns, columns, db.tables[current].rows)
        && current in after.tables
        && IsNextTable(previous, next, columns, capability, db.tables[current], after.tables[current])
        && after == db.(tables := db.tables[current := after.tables[current]],
                        indices := DropIndicesOf(db.indices, current), enforce := true)
  {
    var current := schema.tables[previous.id].name;
    var t := db.tables[current];
    var steps := RecreationStatements(schema, previous, next, columns, capability);
    var rebuilt := RebuiltTable(next, columns, capability, t);
    assert steps == steps[..3] + steps[3..];
    RunAppend(steps[..3], steps[3..], db);
    MappingsResolved(previous.columns, next.columns, columns, capability, t);
    CreateAndCopy(schema, previous, next, columns, capability, db);
    forall i | 0 <= i < |t.rows|
      ensures RowMigrates(previous.columns, next.columns, columns, t.rows[i], rebuilt.rows[i])
      ensures Fits(rebuilt.columns, rebuilt.rows[i]) <==> NextFilled(previous.columns, next.columns, columns, t.rows[i])
    {
      CopyMigrates(previous.columns, next.columns, columns, t.rows[i]);
      FitsWhenFilled(previous.columns, next.columns, columns, capability, t.rows[i], rebuilt.rows[i]);
    }
    if AllFit(rebuilt.columns, rebuilt.rows) {
      SwapIn(schema, previous, next, columns, capability, db, rebuilt);
    }
  }
}
