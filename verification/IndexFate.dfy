/** What becomes of a table's indices: when the drops a plan asks for go through, and which indices
    a rebuilt table has afterwards. */
module IndexFate {
  import opened Wrappers
  import opened DbSchema
  import opened MigrationPlan
  import opened Database
  import opened DatabaseInvariant
  import opened ColumnLineage
  import opened TableRebuild
  import opened WholePlan

  function DroppedName(d: IndexDiff): Option<string> {
    var x :- d.Dropped();
    Some(x.name)
  }

  function DroppedNames(indices: seq<IndexDiff>, n: nat): set<string>
    requires n <= |indices|
  {
    set i | 0 <= i < n && DroppedName(indices[i]).Some? :: DroppedName(indices[i]).value
  }

  /** Every index to drop is there, and none is dropped twice. */
  predicate Droppable(indices: seq<IndexDiff>, n: nat, present: set<string>)
    requires n <= |indices|
  {
    && DroppedNames(indices, n) <= present
    && forall i, j :: 0 <= i < j < n && DroppedName(indices[i]).Some?
         ==> DroppedName(indices[i]) != DroppedName(indices[j])
  }

  /** The index drops of an altered table go through exactly when every index named is in the
      database. The diff may name the index of a primary key, which is never created as one. */
  lemma {:induction false} DropsRunWhenPresent(indices: seq<IndexDiff>, n: nat, schema: Schema, db: Db)
    requires n <= |indices|
    ensures Run(DropIndexStatements(indices, n, schema), db)
         == if Droppable(indices, n, db.indices.Keys)
            then Some(db.(indices := db.indices - DroppedNames(indices, n))) else None
  {
    if n == 0 {
      assert db.indices - DroppedNames(indices, 0) == db.indices;
    } else {
      DropsRunWhenPresent(indices, n - 1, schema, db);
      var before := DropIndexStatements(indices, n - 1, schema);
      if DroppedName(indices[n - 1]).Some? {
        var name := DroppedName(indices[n - 1]).value;
        assert DropIndexStatements(indices, n, schema)
            == before + [MigrationStatement(Statement.DropIndex(name), schema)];
        DroppedNext(indices, n - 1, db.indices.Keys);
        OneDrop(before, name, schema, db, DroppedNames(indices, n - 1));
      } else {
        assert DropIndexStatements(indices, n, schema) == before;
        assert DroppedNames(indices, n) == DroppedNames(indices, n - 1);
      }
    }
  }

  lemma OneDrop(before: seq<MigrationStatement>, name: string, schema: Schema, db: Db, gone: set<string>)
    requires Run(before, db).Some? ==> Run(before, db).value == db.(indices := db.indices - gone)
    ensures Run(before + [MigrationStatement(Statement.DropIndex(name), schema)], db)
         == if Run(before, db).Some? && name in db.indices && name !in gone
            then Some(db.(indices := db.indices - (gone + {name}))) else None
  {
    var m := MigrationStatement(Statement.DropIndex(name), schema);
    RunAppend(before, [m], db);
    if Run(before, db).Some? {
      RunOne(m, Run(before, db).value);
      assert db.indices - gone - {name} == db.indices - (gone + {name});
    }
  }

  lemma DroppedNext(indices: seq<IndexDiff>, n: nat, present: set<string>)
    requires n < |indices| && DroppedName(indices[n]).Some?
    ensures DroppedNames(indices, n + 1) == DroppedNames(indices, n) + {DroppedName(indices[n]).value}
    ensures Droppable(indices, n + 1, present)
       <==> Droppable(indices, n, present)
            && DroppedName(indices[n]).value in present && DroppedName(indices[n]).value !in DroppedNames(indices, n)
  {
    assert DroppedName(indices[n]).value in DroppedNames(indices, n + 1);
    forall i | 0 <= i < n && DroppedName(indices[i]).Some?
      ensures DroppedName(indices[i]).value in DroppedNames(indices, n)
    {
    }
  }

  /** An altered table whose diff drops or alters an index the database does not have, as it does not
      have the primary key's, has a plan that fails. */
  lemma MissingIndexFailsPlan(
    d: TableDiff, diff: SchemaDiff, capability: Capability, renamed: RenamedTypes, db: Db, i: nat)
    requires d.Alter? && IdsInRange(d, diff.previous, capability, renamed) && i < |d.indices|
    requires DroppedName(d.indices[i]).Some? && DroppedName(d.indices[i]).value !in db.indices
    ensures Run(TableStatements(d, diff, capability, renamed), db) == None
  {
    var rename, drops := TableRename(d, diff), DropIndexStatements(d.indices, |d.indices|, diff.previous);
    var work := ColumnWork(d, diff, capability, renamed);
    var creates := CreateIndexStatements(d.indices, |d.indices|, diff.next);
    if Run(rename, db).Some? {
      RenameKeepsIndexNames(d, diff, db);
      MissingIndexFailsDrops(d.indices, diff.previous, Run(rename, db).value, i);
    }
    SecondFails(rename, drops, work, creates, db);
  }

  lemma MissingIndexFailsDrops(indices: seq<IndexDiff>, schema: Schema, db: Db, i: nat)
    requires i < |indices| && DroppedName(indices[i]).Some? && DroppedName(indices[i]).value !in db.indices
    ensures Run(DropIndexStatements(indices, |indices|, schema), db) == None
  {
    DropsRunWhenPresent(indices, |indices|, schema, db);
    assert DroppedName(indices[i]).value in DroppedNames(indices, |indices|);
  }

  lemma SecondFails(
    a: seq<MigrationStatement>, b: seq<MigrationStatement>, c: seq<MigrationStatement>,
    d: seq<MigrationStatement>, db: Db)
    requires Run(a, db).Some? ==> Run(b, Run(a, db).value) == None
    ensures Run(a + b + c + d, db) == None
  {
    RunAppend(a, b, db);
    RunAppend(a + b, c, db);
    RunAppend(a + b + c, d, db);
  }

  lemma RenameKeepsIndexNames(d: TableDiff, diff: SchemaDiff, db: Db)
    requires d.Alter? && Run(TableRename(d, diff), db).Some?
    ensures Run(TableRename(d, diff), db).value.indices.Keys == db.indices.Keys
  {
    if d.previous.name != d.next.name {
      RunOne(TableRename(d, diff)[0], db);
    }
  }

  // ---- Creates ----

  /** The created indices are found in the schema where their ids say, on table `t`. */
  predicate CreatedOn(indices: seq<IndexDiff>, schema: Schema, t: Table) {
    forall i :: 0 <= i < |indices| && indices[i].Created().Some? ==>
      StandsOn(indices[i].Created().value, schema, t)
  }

  predicate StandsOn(x: Index, schema: Schema, t: Table) {
    && x.id.table < |schema.tables| && x.id.index < |schema.tables[x.id.table].indices|
    && schema.tables[x.id.table].indices[x.id.index] == x
    && x.on < |schema.tables| && schema.tables[x.on] == t
  }

  /** An index of `t` as the database has it. */
  function IndexDataOf(x: Index, t: Table): Option<IndexData> {
    var names :- ColumnNames(x.columns, t.columns);
    Some(IndexData(t.name, names, x.unique))
  }

  function NewIndex(d: IndexDiff, t: Table): map<string, IndexData> {
    if d.Created().Some? && IndexDataOf(d.Created().value, t).Some?
    then map[d.Created().value.name := IndexDataOf(d.Created().value, t).value]
    else map[]
  }

  /** The indices the first `n` diffs put in. */
  function NewIndices(indices: seq<IndexDiff>, n: nat, t: Table): map<string, IndexData>
    requires n <= |indices|
  {
    if n == 0 then map[] else NewIndices(indices, n - 1, t) + NewIndex(indices[n - 1], t)
  }

  /** The name is free and the indexed columns are there. */
  predicate Creatable(x: Index, t: Table, present: set<string>, columns: set<string>) {
    && x.name !in present
    && IndexDataOf(x, t).Some? && AllIn(IndexDataOf(x, t).value.columns, columns)
  }

  /** Each index to create is creatable, and none is created twice. */
  predicate AllCreatable(indices: seq<IndexDiff>, n: nat, t: Table, present: set<string>, columns: set<string>)
    requires n <= |indices|
  {
    && (forall i :: 0 <= i < n && indices[i].Created().Some? ==>
          Creatable(indices[i].Created().value, t, present, columns))
    && (forall i, j :: 0 <= i < j < n && indices[i].Created().Some? && indices[j].Created().Some? ==>
          indices[i].Created().value.name != indices[j].Created().value.name)
  }

  /** The names the first `n` diffs create. */
  function CreatedNames(indices: seq<IndexDiff>, n: nat): set<string>
    requires n <= |indices|
  {
    set i | 0 <= i < n && indices[i].Created().Some? :: indices[i].Created().value.name
  }

  lemma {:induction false} NewIndicesNamed(
    indices: seq<IndexDiff>, n: nat, t: Table, present: set<string>, columns: set<string>)
    requires n <= |indices| && AllCreatable(indices, n, t, present, columns)
    ensures NewIndices(indices, n, t).Keys == CreatedNames(indices, n)
    ensures forall i :: 0 <= i < n && indices[i].Created().Some? ==>
      var x := indices[i].Created().value;
      x.name in NewIndices(indices, n, t) && Some(NewIndices(indices, n, t)[x.name]) == IndexDataOf(x, t)
  {
    if n > 0 {
      var k: nat := n - 1;
      NewIndicesNamed(indices, k, t, present, columns);
      NewNamesNext(indices, k);
      if indices[k].Created().Some? {
        assert Creatable(indices[k].Created().value, t, present, columns);
      }
    }
  }

  lemma NewNamesNext(indices: seq<IndexDiff>, n: nat)
    requires n < |indices|
    ensures CreatedNames(indices, n + 1)
         == CreatedNames(indices, n)
            + (if indices[n].Created().Some? then {indices[n].Created().value.name} else {})
  {
    if indices[n].Created().Some? {
      assert indices[n].Created().value.name in CreatedNames(indices, n + 1);
    }
  }

  /** One more index: it is creatable exactly if it was to begin with and no earlier one has its name. */
  lemma CreatableNext(indices: seq<IndexDiff>, n: nat, t: Table, present: set<string>, columns: set<string>)
    requires n < |indices| && AllCreatable(indices, n, t, present, columns) && indices[n].Created().Some?
    ensures AllCreatable(indices, n + 1, t, present, columns)
       <==> Creatable(indices[n].Created().value, t, present + NewIndices(indices, n, t).Keys, columns)
  {
    NewIndicesNamed(indices, n, t, present, columns);
    var x := indices[n].Created().value;
    if AllCreatable(indices, n + 1, t, present, columns) {
      assert Creatable(x, t, present, columns);
      assert x.name !in CreatedNames(indices, n);
    }
  }

  lemma OneCreate(x: Index, schema: Schema, t: Table, db: Db)
    requires StandsOn(x, schema, t) && t.name in db.tables
    ensures Run([MigrationStatement(CreateIndexOf(x), schema)], db)
         == if Creatable(x, t, db.indices.Keys, NamesOf(db.tables[t.name].columns))
            then Some(db.(indices := db.indices[x.name := IndexDataOf(x, t).value])) else None
  {
    RunOne(MigrationStatement(CreateIndexOf(x), schema), db);
  }

  lemma CreateNext(before: seq<MigrationStatement>, x: Index, schema: Schema, t: Table, db: Db, mid: Db)
    requires StandsOn(x, schema, t) && t.name in db.tables && mid.tables == db.tables
    requires Run(before, db) == Some(mid)
    ensures Run(before + [MigrationStatement(CreateIndexOf(x), schema)], db)
         == if Creatable(x, t, mid.indices.Keys, NamesOf(db.tables[t.name].columns))
            then Some(mid.(indices := mid.indices[x.name := IndexDataOf(x, t).value])) else None
  {
    RunAppend(before, [MigrationStatement(CreateIndexOf(x), schema)], db);
    OneCreate(x, schema, t, mid);
  }

  lemma AddedLater<V>(a: map<string, V>, b: map<string, V>, name: string, v: V)
    ensures (a + b)[name := v] == a + (b + map[name := v])
    ensures (a + b).Keys == a.Keys + b.Keys
  {
  }

  /** What is left of `db` after creating the first `n` indices. */
  function WithIndices(indices: seq<IndexDiff>, n: nat, t: Table, db: Db): Option<Db>
    requires n <= |indices| && t.name in db.tables
  {
    if AllCreatable(indices, n, t, db.indices.Keys, NamesOf(db.tables[t.name].columns))
    then Some(db.(indices := db.indices + NewIndices(indices, n, t)))
    else None
  }

  /** The index creates of a table go through exactly when each name is free, each indexed column is
      there and no name is created twice; they then add the diff's indices and leave the rest alone. */
  lemma {:induction false} CreatesRun(indices: seq<IndexDiff>, n: nat, schema: Schema, t: Table, db: Db)
    requires n <= |indices| && CreatedOn(indices, schema, t) && t.name in db.tables
    ensures Run(CreateIndexStatements(indices, n, schema), db) == WithIndices(indices, n, t, db)
  {
    if n == 0 {
      assert db.indices + map[] == db.indices;
    } else {
      var k: nat := n - 1;
      CreatesRun(indices, k, schema, t, db);
      OneMoreCreate(indices, k, schema, t, db);
    }
  }

  lemma OneMoreCreate(indices: seq<IndexDiff>, n: nat, schema: Schema, t: Table, db: Db)
    requires n < |indices| && CreatedOn(indices, schema, t) && t.name in db.tables
    requires Run(CreateIndexStatements(indices, n, schema), db) == WithIndices(indices, n, t, db)
    ensures Run(CreateIndexStatements(indices, n + 1, schema), db) == WithIndices(indices, n + 1, t, db)
  {
    var before, columns := CreateIndexStatements(indices, n, schema), NamesOf(db.tables[t.name].columns);
    CreateStatementsNext(indices, n, schema);
    if indices[n].Created().None? {
      NothingMore(indices, n, t, db);
    } else if AllCreatable(indices, n, t, db.indices.Keys, columns) {
      LaterCreate(before, indices, n, schema, t, db);
    } else {
      FewerCreatable(indices, n, t, db.indices.Keys, columns);
      RunAppend(before, [MigrationStatement(CreateIndexOf(indices[n].Created().value), schema)], db);
    }
  }

  lemma NothingMore(indices: seq<IndexDiff>, n: nat, t: Table, db: Db)
    requires n < |indices| && indices[n].Created().None? && t.name in db.tables
    ensures WithIndices(indices, n + 1, t, db) == WithIndices(indices, n, t, db)
  {
    NewIndicesNext(indices, n, t);
    assert NewIndices(indices, n, t) + map[] == NewIndices(indices, n, t);
  }

  lemma LaterCreate(
    before: seq<MigrationStatement>, indices: seq<IndexDiff>, n: nat, schema: Schema, t: Table, db: Db)
    requires n < |indices| && indices[n].Created().Some? && t.name in db.tables
    requires StandsOn(indices[n].Created().value, schema, t)
    requires AllCreatable(indices, n, t, db.indices.Keys, NamesOf(db.tables[t.name].columns))
    requires Run(before, db) == Some(db.(indices := db.indices + NewIndices(indices, n, t)))
    ensures Run(before + [MigrationStatement(CreateIndexOf(indices[n].Created().value), schema)], db)
         == WithIndices(indices, n + 1, t, db)
  {
    var x, made := indices[n].Created().value, NewIndices(indices, n, t);
    CreatableNext(indices, n, t, db.indices.Keys, NamesOf(db.tables[t.name].columns));
    CreateNext(before, x, schema, t, db, db.(indices := db.indices + made));
    NewIndicesNext(indices, n, t);
    if IndexDataOf(x, t).Some? {
      AddedLater(db.indices, made, x.name, IndexDataOf(x, t).value);
    }
  }

  lemma NewIndicesNext(indices: seq<IndexDiff>, n: nat, t: Table)
    requires n < |indices|
    ensures NewIndices(indices, n + 1, t) == NewIndices(indices, n, t) + NewIndex(indices[n], t)
  {
  }

  lemma FewerCreatable(indices: seq<IndexDiff>, n: nat, t: Table, present: set<string>, columns: set<string>)
    requires n < |indices| && !AllCreatable(indices, n, t, present, columns)
    ensures !AllCreatable(indices, n + 1, t, present, columns)
  {
  }

  lemma CreateStatementsNext(indices: seq<IndexDiff>, n: nat, schema: Schema)
    requires n < |indices|
    ensures CreateIndexStatements(indices, n + 1, schema)
         == if indices[n].Created().Some?
            then CreateIndexStatements(indices, n, schema)
                 + [MigrationStatement(CreateIndexOf(indices[n].Created().value), schema)]
            else CreateIndexStatements(indices, n, schema)
  {
    if indices[n].Created().None? {
      assert CreateIndexStatements(indices, n, schema) + [] == CreateIndexStatements(indices, n, schema);
    }
  }

  // ---- After a rebuild ----

  /** A rebuilt table has exactly the indices its diff creates: one the diff does not mention is gone
      with the table it was on. */
  lemma RebuildKeepsOnlyDiffIndices(
    d: TableDiff, diff: SchemaDiff, capability: Capability, renamed: RenamedTypes, db: Db, after: Db)
    requires d.Alter? && AlterSound(d, diff) && IdsInRange(d, diff.previous, capability, renamed)
    requires NeedsRecreation(d.columns, capability, renamed)
    requires DbOk(db) && d.previous.name in db.tables
    requires ColumnsAre(db.tables[d.previous.name], d.previous.columns, capability, renamed)
    requires CreatedOn(d.indices, diff.next, d.next)
    requires Run(TableStatements(d, diff, capability, renamed), db) == Some(after)
    ensures forall name ::
      name in after.indices && after.indices[name].table == d.next.name
      <==> name in CreatedNames(d.indices, |d.indices|)
  {
    var d1, d2, d3 := AlterStages(d, diff, capability, renamed, db, after);
    RebuildLeavesNoIndex(WorkingSchema(d, diff), d.previous, d.next, d.columns, capability, renamed, d2, d3);
    CreatesRun(d.indices, |d.indices|, diff.next, d.next, d3);
    NewIndicesNamed(
      d.indices, |d.indices|, d.next, d3.indices.Keys, NamesOf(d3.tables[d.next.name].columns));
    NewOnTable(d.indices, |d.indices|, d.next);
  }

  lemma {:induction false} NewOnTable(indices: seq<IndexDiff>, n: nat, t: Table)
    requires n <= |indices|
    ensures forall name <- NewIndices(indices, n, t) :: NewIndices(indices, n, t)[name].table == t.name
  {
    if n > 0 {
      NewOnTable(indices, n - 1, t);
    }
  }

  lemma RebuildLeavesNoIndex(
    schema: Schema, previous: Table, next: Table, columns: seq<ColumnDiff>, capability: Capability,
    renamed: RenamedTypes, db: Db, after: Db)
    requires previous.id < |schema.tables| && next.id < |schema.tables|
    requires Coherent(previous.columns, next.columns, columns) && DbOk(db)
    requires schema.tables[previous.id].name in db.tables
    requires ColumnsAre(db.tables[schema.tables[previous.id].name], previous.columns, capability, renamed)
    requires Run(RecreationStatements(schema, previous, next, columns, capability), db) == Some(after)
    ensures forall name <- after.indices :: after.indices[name].table != schema.tables[previous.id].name
  {
    RebuildFoundRoom(schema, previous, next, columns, capability, db);
    HoldsColumns(db.tables[schema.tables[previous.id].name], previous.columns, capability, renamed);
    forall name | name in db.indices
      ensures db.indices[name].table in db.tables
    {
      assert IndexOk(db.tables, db.indices[name]);
    }
    RebuildReachesNext(schema, previous, next, columns, capability, db);
  }

  /** So the rebuilt table has all its next indices exactly when the diff creates or alters each. */
  lemma RebuildHasNextIndices(
    d: TableDiff, diff: SchemaDiff, capability: Capability, renamed: RenamedTypes, db: Db, after: Db)
    requires d.Alter? && AlterSound(d, diff) && IdsInRange(d, diff.previous, capability, renamed)
    requires NeedsRecreation(d.columns, capability, renamed)
    requires DbOk(db) && d.previous.name in db.tables
    requires ColumnsAre(db.tables[d.previous.name], d.previous.columns, capability, renamed)
    requires CreatedOn(d.indices, diff.next, d.next)
    requires Run(TableStatements(d, diff, capability, renamed), db) == Some(after)
    ensures (forall x <- d.next.indices :: !x.primaryKey ==>
               x.name in after.indices && after.indices[x.name].table == d.next.name)
       <==> (forall x <- d.next.indices :: !x.primaryKey ==> x.name in CreatedNames(d.indices, |d.indices|))
  {
    RebuildKeepsOnlyDiffIndices(d, diff, capability, renamed, db, after);
  }

  // ---- Two plans that go wrong ----

  function SoleColumn(ty: Type): Column {
    Column(ColumnId(0, 0), "id", ty, false, true, false, false)
  }

  function SoleTable(name: string, ty: Type, index: Index): Table {
    Table(0, name, [SoleColumn(ty)], [ColumnId(0, 0)], [index])
  }

  function SoleIndex(name: string, primaryKey: bool): Index {
    Index(IndexId(0, 0), name, 0, [ColumnId(0, 0)], primaryKey, primaryKey)
  }

  function SoleDb(t: Table, indices: map<string, IndexData>): Db {
    Db(map[t.name := TableData(DefsOf(t.columns, SQLITE), ["id"], [])], indices, map[], true, {})
  }

  /** Renaming a table also renames its primary key's index, which is named after it: the plan then
      drops an index that was never created, and fails. */
  lemma RenamedTableFails()
    ensures
      var users := SoleTable("users", Text, SoleIndex("index_users_by_id", true));
      var accounts := SoleTable("accounts", Text, SoleIndex("index_accounts_by_id", true));
      var indices := [IndexDiff.Drop(users.indices[0]), IndexDiff.Create(accounts.indices[0])];
      var diff := SchemaDiff(Schema([users]), Schema([accounts]), [], [TableDiff.Alter(users, accounts, [], indices)]);
      Run(Plan(diff, SQLITE), SoleDb(users, map[])) == None
  {
    var users := SoleTable("users", Text, SoleIndex("index_users_by_id", true));
    var accounts := SoleTable("accounts", Text, SoleIndex("index_accounts_by_id", true));
    var indices := [IndexDiff.Drop(users.indices[0]), IndexDiff.Create(accounts.indices[0])];
    var d := TableDiff.Alter(users, accounts, [], indices);
    var diff := SchemaDiff(Schema([users]), Schema([accounts]), [], [d]);
    var statements := TableStatements(d, diff, SQLITE, RenamedTypesOf([]));
    MissingIndexFailsPlan(d, diff, SQLITE, RenamedTypesOf([]), SoleDb(users, map[]), 0);
    assert TablesStatements(diff, 0, SQLITE, RenamedTypesOf([])) == [];
    assert Plan(diff, SQLITE) == [] + ([] + statements);
    assert [] + ([] + statements) == statements;
  }

  /** Rebuilding a table for a change of type takes an index no change mentions away with it. */
  lemma UnchangedIndexLost()
    ensures
      var previous := SoleTable("t", Text, SoleIndex("by_id", false));
      var next := SoleTable("t", Plain("int"), SoleIndex("by_id", false));
      var columns := [ColumnDiff.Alter(SoleColumn(Text), SoleColumn(Plain("int")))];
      var db := SoleDb(previous, map["by_id" := IndexData("t", ["id"], false)]);
      var after := Run(RecreationStatements(Schema([previous]), previous, next, columns, SQLITE), db);
      NeedsRecreation(columns, SQLITE, []) && after.Some? && "by_id" !in after.value.indices
  {
    var previous := SoleTable("t", Text, SoleIndex("by_id", false));
    var next := SoleTable("t", Plain("int"), SoleIndex("by_id", false));
    var columns := [ColumnDiff.Alter(SoleColumn(Text), SoleColumn(Plain("int")))];
    var db := SoleDb(previous, map["by_id" := IndexData("t", ["id"], false)]);
    assert ForcesRecreation(columns[0], SQLITE, []);
    SoleCoherent();
    var t := db.tables["t"];
    assert t.columns[0].name == "id" && t.columns[0].name in NamesOf(t.columns);
    assert ColumnNames(next.primaryKey, next.columns).Some? by {
      assert next.primaryKey[1..] == [];
      assert ColumnNames([], next.columns) == Some([]);
    }
    assert |TempName("t")| > |"t"|;
    RebuildReachesNext(Schema([previous]), previous, next, columns, SQLITE, db);
    assert db.indices["by_id"].table == "t";
  }

  lemma SoleCoherent()
    ensures Coherent([SoleColumn(Text)], [SoleColumn(Plain("int"))],
                     [ColumnDiff.Alter(SoleColumn(Text), SoleColumn(Plain("int")))])
  {
    var p, q := SoleColumn(Text), SoleColumn(Plain("int"));
    var columns := [ColumnDiff.Alter(p, q)];
    assert Consumed(columns[0]) == Some(p) && Produced(columns[0]) == Some(q);
    assert Touched(columns, 1, p) && Made(columns, q);
  }
}
