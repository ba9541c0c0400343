/** What every statement keeps true of the database, and so every run of every plan. */
module DatabaseInvariant {
  import opened Wrappers
  import opened DbSchema
  import opened MigrationPlan
  import opened Database

  /** Column names are distinct, rows have no other columns and are not NULL where they must not
      be, and the primary key names columns. */
  predicate TableOk(t: TableData) {
    && DistinctNames(t.columns)
    && (forall i :: 0 <= i < |t.rows| ==> t.rows[i].Keys <= NamesOf(t.columns))
    && AllFit(t.columns, t.rows)
    && AllIn(t.primaryKey, NamesOf(t.columns))
  }

  /** An index is on a table that exists and over columns the table has. */
  predicate IndexOk(tables: map<string, TableData>, x: IndexData) {
    x.table in tables && AllIn(x.columns, NamesOf(tables[x.table].columns))
  }

  predicate DbOk(db: Db) {
    && (forall name <- db.tables :: TableOk(db.tables[name]))
    && (forall name <- db.indices :: IndexOk(db.tables, db.indices[name]))
  }

  lemma AddKeepsTable(t: TableData, def: ColumnDef)
    requires TableOk(t) && def.name !in NamesOf(t.columns) && (def.notNull ==> t.rows == [])
    ensures TableOk(t.(columns := t.columns + [def]))
  {
    NamesOfSnoc(t.columns, def);
  }

  lemma DropKeepsTable(t: TableData, name: string)
    requires TableOk(t) && name !in t.primaryKey
    ensures TableOk(TableData(WithoutColumn(t.columns, name), t.primaryKey, DropKey(t.rows, name)))
  {
    var columns := WithoutColumn(t.columns, name);
    WithoutColumnIs(t.columns, name);
    NamesWithout(t.columns, name);
    forall i, k | 0 <= i < |t.rows| && 0 <= k < |columns| && columns[k].notNull
      ensures columns[k].name in DropKey(t.rows, name)[i]
    {
      assert columns[k] in columns;
      assert columns[k] in t.columns;
      assert columns[k].name in NamesOf(columns);
    }
  }

  lemma AlterKeepsTable(t: TableData, name: string, changes: ColumnChanges)
    requires TableOk(t) && AlterIn(t, name, changes).Some?
    ensures TableOk(AlterIn(t, name, changes).value)
    ensures NamesOf(AlterIn(t, name, changes).value.columns) == NamesOf(t.columns) - {name} + {NewName(name, changes)}
  {
    ChangedNames(t.columns, name, changes);
    AlteredDistinct(t.columns, name, changes);
    var t' := AlterIn(t, name, changes).value;
    forall i, k | 0 <= i < |t'.rows| && 0 <= k < |t'.columns| && t'.columns[k].notNull
      ensures t'.columns[k].name in t'.rows[i]
    {
      assert Fits(t.columns, t.rows[i]);
      assert t.columns[k].name in t.rows[i];
    }
  }

  lemma CopyKeepsTable(t: TableData, mappings: seq<(string, string)>, rows: seq<Row>)
    requires TableOk(t) && AllFit(t.columns, ProjectRows(mappings, rows))
    requires forall i :: 0 <= i < |mappings| ==> mappings[i].0 in NamesOf(t.columns)
    ensures TableOk(t.(rows := t.rows + ProjectRows(mappings, rows)))
  {
  }

  /** An index keeps its columns when its table's columns are the same or more. */
  lemma IndicesKept(db: Db, tables: map<string, TableData>)
    requires DbOk(db)
    requires forall name <- db.tables ::
      name in tables && NamesOf(db.tables[name].columns) <= NamesOf(tables[name].columns)
    ensures forall i <- db.indices :: IndexOk(tables, db.indices[i])
  {
    forall i | i in db.indices
      ensures IndexOk(tables, db.indices[i])
    {
      assert IndexOk(db.tables, db.indices[i]);
    }
  }

  lemma DropColumnKeepsIndices(db: Db, table: string, column: string)
    requires DbOk(db) && Exec(Ddl.DropColumn(table, column), db).Some?
    ensures forall i <- db.indices :: IndexOk(Exec(Ddl.DropColumn(table, column), db).value.tables, db.indices[i])
  {
    NamesWithout(db.tables[table].columns, column);
    forall i | i in db.indices
      ensures IndexOk(Exec(Ddl.DropColumn(table, column), db).value.tables, db.indices[i])
    {
      assert IndexOk(db.tables, db.indices[i]);
      if db.indices[i].table == table {
        assert column !in db.indices[i].columns;
      }
    }
  }

  lemma AlterColumnKeepsIndices(db: Db, table: string, column: string, changes: ColumnChanges)
    requires DbOk(db) && Exec(Ddl.AlterColumn(table, column, changes), db).Some?
    ensures
      var after := Exec(Ddl.AlterColumn(table, column, changes), db).value;
      forall i <- after.indices :: IndexOk(after.tables, after.indices[i])
  {
    var after := Exec(Ddl.AlterColumn(table, column, changes), db).value;
    AlterKeepsTable(db.tables[table], column, changes);
    forall i | i in after.indices
      ensures IndexOk(after.tables, after.indices[i])
    {
      assert IndexOk(db.tables, db.indices[i]);
    }
  }

  lemma CreateTableKeeps(db: Db, d: Ddl)
    requires d.CreateTable? && DbOk(db) && Exec(d, db).Some?
    ensures DbOk(Exec(d, db).value)
  {
    IndicesKept(db, Exec(d, db).value.tables);
  }

  lemma AddColumnKeeps(db: Db, d: Ddl)
    requires d.AddColumn? && DbOk(db) && Exec(d, db).Some?
    ensures DbOk(Exec(d, db).value)
  {
    AddKeepsTable(db.tables[d.table], d.def);
    NamesOfSnoc(db.tables[d.table].columns, d.def);
    IndicesKept(db, Exec(d, db).value.tables);
  }

  lemma DropColumnKeeps(db: Db, d: Ddl)
    requires d.DropColumn? && DbOk(db) && Exec(d, db).Some?
    ensures DbOk(Exec(d, db).value)
  {
    DropKeepsTable(db.tables[d.table], d.column);
    DropColumnKeepsIndices(db, d.table, d.column);
  }

  lemma AlterColumnKeeps(db: Db, d: Ddl)
    requires d.AlterColumn? && DbOk(db) && Exec(d, db).Some?
    ensures DbOk(Exec(d, db).value)
  {
    AlterKeepsTable(db.tables[d.table], d.column, d.changes);
    AlterColumnKeepsIndices(db, d.table, d.column, d.changes);
  }

  lemma CopyKeeps(db: Db, d: Ddl)
    requires d.CopyTable? && DbOk(db) && Exec(d, db).Some?
    ensures DbOk(Exec(d, db).value)
  {
    CopyKeepsTable(db.tables[d.target], d.mappings, db.tables[d.source].rows);
    IndicesKept(db, Exec(d, db).value.tables);
  }

  lemma DropTableKeeps(db: Db, name: string)
    requires DbOk(db) && Exec(Ddl.DropTable(name), db).Some?
    ensures DbOk(Exec(Ddl.DropTable(name), db).value)
  {
    var after := Exec(Ddl.DropTable(name), db).value;
    forall i | i in after.indices
      ensures IndexOk(after.tables, after.indices[i])
    {
      assert IndexOk(db.tables, db.indices[i]);
    }
  }

  lemma RetypedOk(t: TableData, from: Option<string>, to: Option<string>)
    requires TableOk(t)
    ensures TableOk(t.(columns := RetypeColumns(t.columns, from, to)))
    ensures NamesOf(RetypeColumns(t.columns, from, to)) == NamesOf(t.columns)
  {
    var columns := RetypeColumns(t.columns, from, to);
    forall i | 0 <= i < |columns|
      ensures columns[i].name in NamesOf(columns) && t.columns[i].name == columns[i].name
    {
    }
    forall i, k | 0 <= i < |t.rows| && 0 <= k < |columns| && columns[k].notNull
      ensures columns[k].name in t.rows[i]
    {
      assert Fits(t.columns, t.rows[i]) && t.columns[k].notNull;
    }
  }

  lemma RenameTypeKeeps(db: Db, d: Ddl)
    requires d.RenameType? && DbOk(db) && Exec(d, db).Some?
    ensures DbOk(Exec(d, db).value)
  {
    var after := Exec(d, db).value;
    forall name | name in db.tables
      ensures TableOk(after.tables[name]) && NamesOf(after.tables[name].columns) == NamesOf(db.tables[name].columns)
    {
      RetypedOk(db.tables[name], Some(d.name), Some(d.newName));
    }
    IndicesKept(db, after.tables);
  }

  lemma RenameTableKeeps(db: Db, name: string, newName: string)
    requires DbOk(db) && Exec(Ddl.RenameTable(name, newName), db).Some?
    ensures DbOk(Exec(Ddl.RenameTable(name, newName), db).value)
  {
    var after := Exec(Ddl.RenameTable(name, newName), db).value;
    forall i | i in after.indices
      ensures IndexOk(after.tables, after.indices[i])
    {
      assert IndexOk(db.tables, db.indices[i]);
    }
  }

  /** Whatever the statement, a sound database stays sound. */
  lemma ExecKeepsDb(d: Ddl, db: Db)
    requires DbOk(db) && Exec(d, db).Some?
    ensures DbOk(Exec(d, db).value)
  {
    match d
    case CreateType(_, _) =>
    case RenameType(_, _) => RenameTypeKeeps(db, d);
    case AddTypeValue(_, _) =>
    case CreateTable(_, _, _) => CreateTableKeeps(db, d);
    case DropTable(name) => DropTableKeeps(db, name);
    case RenameTable(name, newName) => RenameTableKeeps(db, name, newName);
    case AddColumn(_, _) => AddColumnKeeps(db, d);
    case DropColumn(_, _) => DropColumnKeeps(db, d);
    case AlterColumn(_, _, _) => AlterColumnKeeps(db, d);
    case CopyTable(_, _, _) => CopyKeeps(db, d);
    case CreateIndex(_, _, _, _) =>
    case DropIndex(_) =>
    case PragmaForeignKeys(_) =>
  }

  /** Every run of any statements leaves a sound database sound. */
  lemma {:induction false} RunKeepsDb(statements: seq<MigrationStatement>, db: Db)
    requires DbOk(db) && Run(statements, db).Some?
    ensures DbOk(Run(statements, db).value)
  {
    if statements != [] {
      var d := Serialize(statements[0]).value;
      ExecKeepsDb(d, db);
      RunKeepsDb(statements[1..], Exec(d, db).value);
    }
  }
}
