/** What DDL statements do: a database of named tables with rows and indices, and a step function
    that fails where the database would refuse the statement. Where databases differ it follows SQLite. */
module Database {
  import opened Wrappers
  import opened DbSchema
  import opened MigrationPlan

  datatype Val = Val(repr: string)

  /** A row; a column that is not a key holds NULL. */
  type Row = map<string, Val>

  datatype TableData = TableData(columns: seq<ColumnDef>, primaryKey: seq<string>, rows: seq<Row>)
  datatype IndexData = IndexData(table: string, columns: seq<string>, unique: bool)

  /** `enforce` is the foreign-key switch; `referenced` names the tables foreign keys point at. */
  datatype Db = Db(
    tables: map<string, TableData>, indices: map<string, IndexData>, types: map<string, seq<string>>,
    enforce: bool, referenced: set<string>)

  /** A statement after serialization: ids have become names. */
  datatype Ddl =
    | CreateType(name: string, variants: seq<string>)
    | RenameType(name: string, newName: string)
    | AddTypeValue(name: string, variant: string)
    | CreateTable(name: string, columns: seq<ColumnDef>, primaryKey: seq<string>)
    | DropTable(name: string)
    | RenameTable(name: string, newName: string)
    | AddColumn(table: string, def: ColumnDef)
    | DropColumn(table: string, column: string)
    | AlterColumn(table: string, column: string, changes: ColumnChanges)
    | CopyTable(source: string, target: string, mappings: seq<(string, string)>)
    | CreateIndex(name: string, table: string, indexed: seq<string>, unique: bool)
    | DropIndex(name: string)
    | PragmaForeignKeys(enforce: bool)

  // ---- Serialization: ids looked up in the snapshot ----

  function ColumnNames(ids: seq<ColumnId>, columns: seq<Column>): Option<seq<string>> {
    if ids == [] then Some([])
    else if ids[0].index >= |columns| then None
    else
      var rest :- ColumnNames(ids[1..], columns);
      Some([columns[ids[0].index].name] + rest)
  }

  /** `None` where the serializer panics: an id the snapshot does not have, or a nameless type. */
  function Serialize(m: MigrationStatement): Option<Ddl> {
    var tables := m.schema.tables;
    match m.statement
    case CreateType(ty) => if ty.name.Some? then Some(Ddl.CreateType(ty.name.value, ty.variants)) else None
    case RenameType(from, to) =>
      if from.Some? && to.Some? then Some(Ddl.RenameType(from.value, to.value)) else None
    case AddTypeValue(name, variant) => if name.Some? then Some(Ddl.AddTypeValue(name.value, variant)) else None
    case CreateTable(table, columns, primaryKey) =>
      if table >= |tables| then None
      else
        var names :- ColumnNames(primaryKey, tables[table].columns);
        Some(Ddl.CreateTable(tables[table].name, columns, names))
    case DropTable(name) => Some(Ddl.DropTable(name))
    case RenameTable(name, newName) => Some(Ddl.RenameTable(name, newName))
    case AddColumn(table, column) =>
      if table >= |tables| then None else Some(Ddl.AddColumn(tables[table].name, column))
    case DropColumn(table, name) =>
      if table >= |tables| then None else Some(Ddl.DropColumn(tables[table].name, name))
    case AlterColumn(table, column, changes) =>
      if table >= |tables| then None else Some(Ddl.AlterColumn(tables[table].name, column.name, changes))
    case CopyTable(source, target, mappings) => Some(Ddl.CopyTable(source, target, mappings))
    case CreateIndex(index, on, indexed, unique) =>
      if index.table >= |tables| || on >= |tables| || index.index >= |tables[index.table].indices| then None
      else
        var names :- ColumnNames(indexed, tables[on].columns);
        Some(Ddl.CreateIndex(tables[index.table].indices[index.index].name, tables[on].name, names, unique))
    case DropIndex(name) => Some(Ddl.DropIndex(name))
    case PragmaForeignKeys(enforce) => Some(Ddl.PragmaForeignKeys(enforce))
  }

  // ---- Execution ----

  function NamesOf(columns: seq<ColumnDef>): set<string> {
    set i | 0 <= i < |columns| :: columns[i].name
  }

  predicate Distinct<T(==)>(s: seq<T>) {
    forall i, j :: 0 <= i < j < |s| ==> s[i] != s[j]
  }

  predicate DistinctNames(columns: seq<ColumnDef>) {
    forall i, j :: 0 <= i < j < |columns| ==> columns[i].name != columns[j].name
  }

  /** No NOT NULL column of the table is NULL in the row. */
  predicate Fits(columns: seq<ColumnDef>, row: Row) {
    forall i :: 0 <= i < |columns| && columns[i].notNull ==> columns[i].name in row
  }

  predicate AllFit(columns: seq<ColumnDef>, rows: seq<Row>) {
    forall i :: 0 <= i < |rows| ==> Fits(columns, rows[i])
  }

  function Targets(mappings: seq<(string, string)>): (names: seq<string>)
    ensures |names| == |mappings|
    ensures forall i :: 0 <= i < |names| ==> names[i] == mappings[i].0
  {
    seq(|mappings|, i requires 0 <= i < |mappings| => mappings[i].0)
  }

  /** The copied row: each target column takes its source column's value. */
  function ProjectRow(mappings: seq<(string, string)>, row: Row): Row {
    map i | 0 <= i < |mappings| && mappings[i].1 in row && FirstTarget(mappings, i)
      :: mappings[i].0 := row[mappings[i].1]
  }

  predicate FirstTarget(mappings: seq<(string, string)>, i: nat)
    requires i < |mappings|
  {
    forall j :: 0 <= j < i ==> mappings[j].0 != mappings[i].0
  }

  function ProjectRows(mappings: seq<(string, string)>, rows: seq<Row>): (projected: seq<Row>)
    ensures |projected| == |rows|
    ensures forall i :: 0 <= i < |rows| ==> projected[i] == ProjectRow(mappings, rows[i])
  {
    seq(|rows|, i requires 0 <= i < |rows| => ProjectRow(mappings, rows[i]))
  }

  function DropKey(rows: seq<Row>, name: string): (dropped: seq<Row>)
    ensures |dropped| == |rows|
    ensures forall i :: 0 <= i < |rows| ==> dropped[i] == rows[i] - {name}
  {
    seq(|rows|, i requires 0 <= i < |rows| => rows[i] - {name})
  }

  function RenameKey(row: Row, from: string, to: string): Row {
    if from in row then (row - {from})[to := row[from]] else row - {from}
  }

  function RenameKeys(rows: seq<Row>, from: string, to: string): (renamed: seq<Row>)
    ensures |renamed| == |rows|
    ensures forall i :: 0 <= i < |rows| ==> renamed[i] == RenameKey(rows[i], from, to)
  {
    seq(|rows|, i requires 0 <= i < |rows| => RenameKey(rows[i], from, to))
  }

  function RenameNames(names: seq<string>, from: string, to: string): (renamed: seq<string>)
    ensures |renamed| == |names|
    ensures forall i :: 0 <= i < |names| ==> renamed[i] == if names[i] == from then to else names[i]
  {
    seq(|names|, i requires 0 <= i < |names| => if names[i] == from then to else names[i])
  }

  function WithoutColumn(columns: seq<ColumnDef>, name: string): seq<ColumnDef> {
    if columns == [] then []
    else (if columns[0].name == name then [] else [columns[0]]) + WithoutColumn(columns[1..], name)
  }

  function Changed(def: ColumnDef, changes: ColumnChanges): ColumnDef {
    ColumnDef(
      if changes.newName.Some? then changes.newName.value else def.name,
      if changes.newTy.Some? then changes.newTy.value else def.ty,
      if changes.newNotNull.Some? then changes.newNotNull.value else def.notNull,
      if changes.newAutoIncrement.Some? then changes.newAutoIncrement.value else def.autoIncrement,
      def.check)
  }

  function ChangeColumn(columns: seq<ColumnDef>, name: string, changes: ColumnChanges): (changed: seq<ColumnDef>)
    ensures |changed| == |columns|
    ensures forall i :: 0 <= i < |columns| ==>
      changed[i] == if columns[i].name == name then Changed(columns[i], changes) else columns[i]
  {
    seq(|columns|, i requires 0 <= i < |columns| =>
      if columns[i].name == name then Changed(columns[i], changes) else columns[i])
  }

  function RetypeColumns(columns: seq<ColumnDef>, from: Option<string>, to: Option<string>): (retyped: seq<ColumnDef>)
    ensures |retyped| == |columns|
    ensures forall i :: 0 <= i < |columns| ==>
      retyped[i] == columns[i].(ty := RenamedIn(columns[i].ty, from, to))
  {
    seq(|columns|, i requires 0 <= i < |columns| => columns[i].(ty := RenamedIn(columns[i].ty, from, to)))
  }

  /** The columns of a type go along when the type is renamed. */
  function RetypeTables(tables: map<string, TableData>, from: Option<string>, to: Option<string>)
    : map<string, TableData>
  {
    map name <- tables :: tables[name].(columns := RetypeColumns(tables[name].columns, from, to))
  }

  predicate Indexed(db: Db, table: string, column: string) {
    exists name <- db.indices :: db.indices[name].table == table && column in db.indices[name].columns
  }

  function MoveIndices(indices: map<string, IndexData>, from: string, to: string): map<string, IndexData> {
    map name <- indices :: if indices[name].table == from then indices[name].(table := to) else indices[name]
  }

  function RenameIndexed(indices: map<string, IndexData>, table: string, from: string, to: string)
    : map<string, IndexData>
  {
    map name <- indices ::
      if indices[name].table == table
      then indices[name].(columns := RenameNames(indices[name].columns, from, to))
      else indices[name]
  }

  function DropIndicesOf(indices: map<string, IndexData>, table: string): map<string, IndexData> {
    map name | name in indices && indices[name].table != table :: indices[name]
  }

  predicate AllIn(names: seq<string>, available: set<string>) {
    forall i :: 0 <= i < |names| ==> names[i] in available
  }

  predicate MappingsResolve(mappings: seq<(string, string)>, targets: set<string>, sources: set<string>) {
    forall i :: 0 <= i < |mappings| ==> mappings[i].0 in targets && mappings[i].1 in sources
  }

  /** `ALTER TABLE .. ALTER/RENAME COLUMN` on one table's contents. */
  function AlterIn(t: TableData, column: string, changes: ColumnChanges): Option<TableData> {
    if column !in NamesOf(t.columns) then None
    else if changes.newName.Some? && changes.newName.value in NamesOf(t.columns) then None
    else if changes.newNotNull == Some(true) && !(forall i :: 0 <= i < |t.rows| ==> column in t.rows[i]) then None
    else
      Some(TableData(
        ChangeColumn(t.columns, column, changes),
        if changes.newName.Some? then RenameNames(t.primaryKey, column, changes.newName.value) else t.primaryKey,
        if changes.newName.Some? then RenameKeys(t.rows, column, changes.newName.value) else t.rows))
  }

  function Exec(d: Ddl, db: Db): Option<Db> {
    match d
    case CreateType(name, variants) =>
      if name in db.types then None else Some(db.(types := db.types[name := variants]))
    case RenameType(name, newName) =>
      if name !in db.types || newName in db.types then None
      else
        Some(db.(types := (db.types - {name})[newName := db.types[name]],
                 tables := RetypeTables(db.tables, Some(name), Some(newName))))
    case AddTypeValue(name, variant) =>
      if name !in db.types || variant in db.types[name] then None
      else Some(db.(types := db.types[name := db.types[name] + [variant]]))
    case CreateTable(name, columns, primaryKey) =>
      if name in db.tables || columns == [] || !DistinctNames(columns) || !AllIn(primaryKey, NamesOf(columns)) then None
      else Some(db.(tables := db.tables[name := TableData(columns, primaryKey, [])]))
    case DropTable(name) =>
      if name !in db.tables || (db.enforce && name in db.referenced) then None
      else Some(db.(tables := db.tables - {name}, indices := DropIndicesOf(db.indices, name)))
    case RenameTable(name, newName) =>
      if name !in db.tables || newName in db.tables then None
      else
        Some(db.(tables := (db.tables - {name})[newName := db.tables[name]],
                 indices := MoveIndices(db.indices, name, newName)))
    case AddColumn(table, def) =>
      if table !in db.tables then None
      else
        var t := db.tables[table];
        if def.name in NamesOf(t.columns) || (def.notNull && t.rows != []) then None
        else Some(db.(tables := db.tables[table := t.(columns := t.columns + [def])]))
    case DropColumn(table, column) =>
      if table !in db.tables then None
      else
        var t := db.tables[table];
        if column !in NamesOf(t.columns) || column in t.primaryKey || Indexed(db, table, column) || |t.columns| == 1
        then None
        else
          Some(db.(tables := db.tables[table :=
            TableData(WithoutColumn(t.columns, column), t.primaryKey, DropKey(t.rows, column))]))
    case AlterColumn(table, column, changes) =>
      if table !in db.tables then None
      else
        var t :- AlterIn(db.tables[table], column, changes);
        Some(db.(tables := db.tables[table := t],
                 indices := if changes.newName.Some?
                            then RenameIndexed(db.indices, table, column, changes.newName.value)
                            else db.indices))
    case CopyTable(source, target, mappings) =>
      if source !in db.tables || target !in db.tables then None
      else
        var s, t := db.tables[source], db.tables[target];
        var copied := ProjectRows(mappings, s.rows);
        if !Distinct(Targets(mappings)) || !MappingsResolve(mappings, NamesOf(t.columns), NamesOf(s.columns))
           || !AllFit(t.columns, copied)
        then None
        else Some(db.(tables := db.tables[target := t.(rows := t.rows + copied)]))
    case CreateIndex(name, table, indexed, unique) =>
      if name in db.indices || table !in db.tables || !AllIn(indexed, NamesOf(db.tables[table].columns)) then None
      else Some(db.(indices := db.indices[name := IndexData(table, indexed, unique)]))
    case DropIndex(name) =>
      if name !in db.indices then None else Some(db.(indices := db.indices - {name}))
    case PragmaForeignKeys(enforce) => Some(db.(enforce := enforce))
  }

  /** The statements in turn; the first that fails fails the run. */
  function Run(statements: seq<MigrationStatement>, db: Db): Option<Db> {
    if statements == [] then Some(db)
    else
      var d :- Serialize(statements[0]);
      var after :- Exec(d, db);
      Run(statements[1..], after)
  }

  lemma {:induction false} RunAppend(a: seq<MigrationStatement>, b: seq<MigrationStatement>, db: Db)
    ensures Run(a + b, db) == match Run(a, db) { case None => None case Some(mid) => Run(b, mid) }
  {
    if a == [] {
      assert a + b == b;
    } else {
      assert (a + b)[1..] == a[1..] + b;
      var d := Serialize(a[0]);
      if d.Some? && Exec(d.value, db).Some? {
        RunAppend(a[1..], b, Exec(d.value, db).value);
      }
    }
  }

  lemma RunOne(m: MigrationStatement, db: Db)
    ensures Run([m], db) == match Serialize(m) { case None => None case Some(d) => Exec(d, db) }
  {
    assert [m][1..] == [];
  }

  /** Three statements of which the first two go through. */
  lemma RunThree(a: MigrationStatement, b: MigrationStatement, c: MigrationStatement, s0: Db, s1: Db, s2: Db)
    requires Serialize(a).Some? && Serialize(b).Some? && Serialize(c).Some?
    requires Exec(Serialize(a).value, s0) == Some(s1)
    requires Exec(Serialize(b).value, s1) == Some(s2)
    ensures Run([a, b, c], s0) == Exec(Serialize(c).value, s2)
  {
    RunOne(a, s0);
    RunOne(b, s1);
    RunOne(c, s2);
    RunAppend([b], [c], s1);
    RunAppend([a], [b] + [c], s0);
    assert [a, b, c] == [a] + ([b] + [c]);
  }

  // ---- Column lists ----

  lemma NamesOfSnoc(columns: seq<ColumnDef>, def: ColumnDef)
    ensures NamesOf(columns + [def]) == NamesOf(columns) + {def.name}
  {
    var all := columns + [def];
    assert all[|columns|] == def;
    forall i | 0 <= i < |columns|
      ensures columns[i].name in NamesOf(all)
    {
      assert all[i] == columns[i];
    }
  }

  lemma {:induction false} WithoutColumnIs(columns: seq<ColumnDef>, name: string)
    requires DistinctNames(columns)
    ensures DistinctNames(WithoutColumn(columns, name))
    ensures forall def :: def in WithoutColumn(columns, name) <==> def in columns && def.name != name
  {
    if columns != [] {
      WithoutColumnIs(columns[1..], name);
      var rest := WithoutColumn(columns[1..], name);
      forall i | 0 <= i < |rest|
        ensures rest[i].name != columns[0].name
      {
        assert rest[i] in rest;
        assert rest[i] in columns[1..];
      }
    }
  }

  lemma {:induction false} NamesWithout(columns: seq<ColumnDef>, name: string)
    ensures NamesOf(WithoutColumn(columns, name)) == NamesOf(columns) - {name}
  {
    if columns != [] {
      var rest := columns[1..];
      NamesWithout(rest, name);
      NamesOfCons(columns[0], rest);
      NamesOfCons(columns[0], WithoutColumn(rest, name));
      assert columns == [columns[0]] + rest;
      assert [] + WithoutColumn(rest, name) == WithoutColumn(rest, name);
    }
  }

  lemma NamesOfCons(def: ColumnDef, columns: seq<ColumnDef>)
    ensures NamesOf([def] + columns) == {def.name} + NamesOf(columns)
  {
    var all := [def] + columns;
    assert all[0] == def;
    forall i | 0 <= i < |columns|
      ensures columns[i].name in NamesOf(all)
    {
      assert all[i + 1] == columns[i];
    }
  }

  function NewName(name: string, changes: ColumnChanges): string {
    if changes.newName.Some? then changes.newName.value else name
  }

  lemma ChangedNames(columns: seq<ColumnDef>, name: string, changes: ColumnChanges)
    requires name in NamesOf(columns)
    requires changes.newName.Some? ==> changes.newName.value !in NamesOf(columns)
    ensures NamesOf(ChangeColumn(columns, name, changes)) == NamesOf(columns) - {name} + {NewName(name, changes)}
  {
    var changed := ChangeColumn(columns, name, changes);
    forall i | 0 <= i < |columns|
      ensures changed[i].name == if columns[i].name == name then NewName(name, changes) else columns[i].name
    {
    }
    forall other | other in NamesOf(columns) - {name} + {NewName(name, changes)}
      ensures other in NamesOf(changed)
    {
      var origin := if other == NewName(name, changes) then name else other;
      assert origin in NamesOf(columns);
      var k :| 0 <= k < |columns| && columns[k].name == origin;
      assert changed[k].name == other;
    }
  }

  lemma AlteredDistinct(columns: seq<ColumnDef>, name: string, changes: ColumnChanges)
    requires DistinctNames(columns)
    requires changes.newName.Some? ==> changes.newName.value !in NamesOf(columns)
    ensures DistinctNames(ChangeColumn(columns, name, changes))
  {
    forall i | 0 <= i < |columns|
      ensures columns[i].name in NamesOf(columns)
    {
    }
  }
}
