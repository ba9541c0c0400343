/** A primary key that changes and a plan that does not notice. */
module KeyChange {
  import opened Wrappers
  import opened DbSchema
  import opened MigrationPlan
  import opened Database
  import opened RenameMatching
  import opened RenameHints
  import opened ColumnDiffing
  import opened IndexDiffing
  import opened TableDiffing
  import opened KeyColumns

  const NoHints := HintMaps(map[], map[], map[])

  /** Column `x` or `y` of the one table. */
  function KeyColumn(first: bool, primaryKey: bool): Column {
    Column(ColumnId(0, if first then 0 else 1), if first then "x" else "y", Text, false, primaryKey, false, false)
  }

  /** The one table, keyed by `x` or by `y`. */
  function Keyed(byX: bool): Table {
    Table(0, "t", [KeyColumn(true, byX), KeyColumn(false, !byX)], [ColumnId(0, if byX then 0 else 1)], [])
  }

  function KeyedSchema(byX: bool): Schema {
    Schema([Keyed(byX)])
  }

  function KeyChanges(): seq<ColumnDiff> {
    [ ColumnDiff.Alter(KeyColumn(true, true), KeyColumn(true, false)),
      ColumnDiff.Alter(KeyColumn(false, false), KeyColumn(false, true)) ]
  }

  function KeyDiff(): SchemaDiff {
    SchemaDiff(
      KeyedSchema(true), KeyedSchema(false), [], [TableDiff.Alter(Keyed(true), Keyed(false), KeyChanges(), [])])
  }

  lemma KeyColumnsBecome()
    ensures ChangeOf(map[], Keyed(false).columns, KeyColumn(true, true)) == [KeyChanges()[0]]
    ensures ChangeOf(map[], Keyed(false).columns, KeyColumn(false, false)) == [KeyChanges()[1]]
    ensures TargetOf(map[], Keyed(false).columns, KeyColumn(true, true)) == Some(ColumnId(0, 0))
    ensures TargetOf(map[], Keyed(false).columns, KeyColumn(false, false)) == Some(ColumnId(0, 1))
  {
    var next := Keyed(false).columns;
    var items := ColumnItems(next);
    assert items[..1] == [Item(ColumnId(0, 0), "x")] && items[1] == Item(ColumnId(0, 1), "y");
    assert NamedIn(items[..1], "x") == Some(ColumnId(0, 0));
    assert "x" != "y";
    assert NamedIn(items, "x") == Some(ColumnId(0, 0)) && NamedIn(items, "y") == Some(ColumnId(0, 1));
    assert next[1..] == [KeyColumn(false, true)];
    assert WithId(next[1..], ColumnId(0, 1)) == Some(KeyColumn(false, true));
  }

  lemma KeyColumnsDiffer()
    ensures IsDiff(map[], Keyed(true).columns, Keyed(false).columns, KeyChanges())
  {
    var previous, next := Keyed(true).columns, Keyed(false).columns;
    KeyColumnsBecome();
    assert Changes(map[], previous, next, 0) == [];
    assert Changes(map[], previous, next, 1) == [KeyChanges()[0]];
    assert Changes(map[], previous, next, 2) == KeyChanges();
    var items := ColumnItems(previous);
    assert Target(map[], ColumnItems(next), items[0]) == Some(next[0].id);
    assert Target(map[], ColumnItems(next), items[1]) == Some(next[1].id);
  }

  lemma KeyedTarget()
    ensures TableTarget(KeyedSchema(true), KeyedSchema(false), NoHints, 0) == Some(0)
  {
    assert TableItems(KeyedSchema(false).tables)[0] == Item(0, "t");
  }

  lemma KeyIsChange()
    ensures IsChange(KeyedSchema(true), KeyedSchema(false), NoHints, 0, KeyDiff().tables[0])
  {
    KeyedTarget();
    KeyColumnsDiffer();
    assert IsSplitDiff(NoHints, Keyed(true), Keyed(false), [], []);
  }

  lemma KeyDiffComputed()
    ensures IsComputed(KeyedSchema(true), KeyedSchema(false), NoHints, KeyDiff().tables)
  {
    var previous, next, diff := KeyedSchema(true), KeyedSchema(false), KeyDiff().tables;
    KeyIsChange();
    NoneCreated();
    assert diff[..1] == diff && diff[1..] == [];
    assert AreChanges(previous, next, NoHints, diff, [0], 1);
    assert IsTablesDiff(previous, next, NoHints, diff, [0]);
  }

  lemma NoneCreated()
    ensures AreCreations(KeyedSchema(true), KeyedSchema(false), NoHints, [])
  {
    KeyedTarget();
    assert Target(
      NoHints.tables, TableItems(KeyedSchema(false).tables), TableItems(KeyedSchema(true).tables)[0]) == Some(0);
  }

  /** The diff of two schemas that differ in a table's key is planned as nothing at all wherever column
      changes are issued one at a time: the table keeps its old key. */
  lemma KeyChangeIgnored(capability: Capability, db: Db)
    requires !capability.alterColumnPropertiesAtomic
    ensures SchemasOk(KeyedSchema(true), KeyedSchema(false))
    ensures IsComputed(KeyedSchema(true), KeyedSchema(false), NoHints, KeyDiff().tables)
    ensures ColumnNames(Keyed(true).primaryKey, Keyed(true).columns) == Some(["x"])
    ensures ColumnNames(Keyed(false).primaryKey, Keyed(false).columns) == Some(["y"])
    ensures Plannable(KeyDiff(), capability) && Run(Plan(KeyDiff(), capability), db) == Some(db)
  {
    KeyedOk(true);
    KeyedOk(false);
    KeyDiffComputed();
    KeyNames(true);
    KeyNames(false);
    NothingPlanned(capability);
    RunNothing(Plan(KeyDiff(), capability), db);
  }

  lemma RunNothing(plan: seq<MigrationStatement>, db: Db)
    requires plan == []
    ensures Run(plan, db) == Some(db)
  {
  }

  lemma KeyedOk(byX: bool)
    ensures SchemaOk(KeyedSchema(byX)) && PlacesOk(KeyedSchema(byX))
  {
    assert ItemsOk(Keyed(byX), 0);
    assert TablePlacesOk(Keyed(byX), 0);
  }

  lemma KeyNames(byX: bool)
    ensures ColumnNames(Keyed(byX).primaryKey, Keyed(byX).columns) == Some([if byX then "x" else "y"])
  {
    NamesAre(Keyed(byX).primaryKey, Keyed(byX).columns, [if byX then "x" else "y"]);
  }

  lemma NothingPlanned(capability: Capability)
    requires !capability.alterColumnPropertiesAtomic
    ensures Plannable(KeyDiff(), capability) && Plan(KeyDiff(), capability) == []
  {
    var d, renamed, columns := KeyDiff().tables[0], RenamedTypesOf([]), KeyChanges();
    forall i | 0 <= i < 2
      ensures ChangesBetween(columns[i].previous, columns[i].next) == NoChanges
      ensures ColumnStatements(columns[i], KeyDiff().previous, 0, capability, renamed) == []
    {
    }
    assert !NeedsRecreation(columns, capability, renamed);
    assert ColumnChangeStatements(columns, 0, KeyDiff().previous, 0, capability, renamed) == [];
    assert ColumnChangeStatements(columns, 1, KeyDiff().previous, 0, capability, renamed) == [];
    assert ColumnChangeStatements(columns, 2, KeyDiff().previous, 0, capability, renamed) == [];
    assert TableStatements(d, KeyDiff(), capability, renamed) == [];
    assert TablesStatements(KeyDiff(), 0, capability, renamed) == [];
    assert TablesStatements(KeyDiff(), 1, capability, renamed) == [];
    assert TypeStatements(KeyDiff(), 0) == [];
  }
}
