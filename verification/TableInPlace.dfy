/** Column changes made in place, one statement after another, and the table they leave. */
module TableInPlace {
  import opened Wrappers
  import opened DbSchema
  import opened MigrationPlan
  import opened Database

  /** A live column on the way: the name its data had at the start, if it had any, and its definition. */
  datatype Slot = Slot(source: Option<string>, def: ColumnDef)
  type Slots = map<string, Slot>

  predicate SlotsOk(slots: Slots) {
    && (forall name <- slots :: slots[name].def.name == name)
    && (forall a, b | a in slots && b in slots ::
          slots[a].source.Some? && slots[a].source == slots[b].source ==> a == b)
  }

  /** The row as the slots see it: each name holds what its source held. */
  function View(slots: Slots, row: Row): Row {
    map name | name in slots && slots[name].source.Some? && slots[name].source.value in row
      :: row[slots[name].source.value]
  }

  function AddSlot(slots: Slots, def: ColumnDef): Slots {
    slots[def.name := Slot(None, def)]
  }

  function ChangeSlot(slots: Slots, name: string, changes: ColumnChanges): Slots
    requires name in slots
  {
    var changed := Changed(slots[name].def, changes);
    (slots - {name})[changed.name := Slot(slots[name].source, changed)]
  }

  /** `after` names the columns `before` named, wherever their names have gone. */
  predicate Follows(slots: Slots, before: seq<string>, after: seq<string>) {
    && |before| == |after|
    && forall j :: 0 <= j < |after| ==> after[j] in slots && slots[after[j]].source == Some(before[j])
  }

  predicate IndexFollows(slots: Slots, table: string, before: IndexData, after: IndexData) {
    && after.table == before.table && after.unique == before.unique
    && if before.table == table then Follows(slots, before.columns, after.columns) else after == before
  }

  predicate Represents(slots: Slots, rows: seq<Row>, t: TableData) {
    && DistinctNames(t.columns) && NamesOf(t.columns) == slots.Keys
    && (forall i :: 0 <= i < |t.columns| ==> t.columns[i].name in slots && t.columns[i] == slots[t.columns[i].name].def)
    && |t.rows| == |rows|
    && (forall i :: 0 <= i < |rows| ==> t.rows[i] == View(slots, rows[i]))
  }

  /** `db` is `start` with `table` on the way the slots describe and nothing else changed, the
      primary key and the table's indices following their columns. */
  predicate Stage(start: Db, table: string, slots: Slots, db: Db) {
    && table in start.tables && table in db.tables
    && db == start.(tables := start.tables[table := db.tables[table]], indices := db.indices)
    && SlotsOk(slots)
    && Represents(slots, start.tables[table].rows, db.tables[table])
    && Follows(slots, start.tables[table].primaryKey, db.tables[table].primaryKey)
    && db.indices.Keys == start.indices.Keys
    && (forall i <- start.indices :: IndexFollows(slots, table, start.indices[i], db.indices[i]))
  }

  predicate Blocked(db: Db, table: string, column: string)
    requires table in db.tables
  {
    column in db.tables[table].primaryKey || Indexed(db, table, column)
  }

  // ---- One statement ----

  lemma FollowsContains(slots: Slots, before: seq<string>, after: seq<string>, name: string)
    requires SlotsOk(slots) && Follows(slots, before, after)
    requires name in slots && slots[name].source == Some(name)
    ensures name in before <==> name in after
  {
    if name in before {
      var j :| 0 <= j < |before| && before[j] == name;
      assert slots[after[j]].source == slots[name].source;
      assert after[j] == name;
    }
  }

  /** A column still under its first name is held by the primary key or an index now exactly when
      it was at the start. */
  lemma BlockedAsAtStart(start: Db, table: string, slots: Slots, db: Db, name: string)
    requires Stage(start, table, slots, db)
    requires name in slots && slots[name].source == Some(name)
    ensures Blocked(db, table, name) <==> Blocked(start, table, name)
  {
    FollowsContains(slots, start.tables[table].primaryKey, db.tables[table].primaryKey, name);
    forall i | i in start.indices && start.indices[i].table == table
      ensures name in start.indices[i].columns <==> name in db.indices[i].columns
    {
      assert IndexFollows(slots, table, start.indices[i], db.indices[i]);
      FollowsContains(slots, start.indices[i].columns, db.indices[i].columns, name);
    }
    if Indexed(db, table, name) {
      var i :| i in db.indices && db.indices[i].table == table && name in db.indices[i].columns;
      assert i in start.indices && IndexFollows(slots, table, start.indices[i], db.indices[i]);
    }
    if Indexed(start, table, name) {
      var i :| i in start.indices && start.indices[i].table == table && name in start.indices[i].columns;
      assert i in db.indices && IndexFollows(slots, table, start.indices[i], db.indices[i]);
    }
  }

  lemma FollowsKept(slots: Slots, slots': Slots, before: seq<string>, after: seq<string>)
    requires Follows(slots, before, after)
    requires forall j :: 0 <= j < |after| ==> after[j] in slots' && slots'[after[j]] == slots[after[j]]
    ensures Follows(slots', before, after)
  {
  }

  lemma RepresentsAdded(slots: Slots, rows: seq<Row>, t: TableData, def: ColumnDef)
    requires Represents(slots, rows, t) && def.name !in slots
    ensures Represents(AddSlot(slots, def), rows, t.(columns := t.columns + [def]))
  {
    var slots', columns := AddSlot(slots, def), t.columns + [def];
    NamesOfSnoc(t.columns, def);
    forall i | 0 <= i < |rows|
      ensures t.rows[i] == View(slots', rows[i])
    {
      assert View(slots', rows[i]) == View(slots, rows[i]);
    }
  }

  lemma StageFrom(start: Db, table: string, db: Db, slots: Slots, t: TableData, indices: map<string, IndexData>)
    requires table in start.tables && table in db.tables && SlotsOk(slots)
    requires db == start.(tables := start.tables[table := db.tables[table]], indices := db.indices)
    requires Represents(slots, start.tables[table].rows, t)
    requires Follows(slots, start.tables[table].primaryKey, t.primaryKey)
    requires indices.Keys == start.indices.Keys
    requires forall i <- start.indices :: IndexFollows(slots, table, start.indices[i], indices[i])
    ensures Stage(start, table, slots, db.(tables := db.tables[table := t], indices := indices))
  {
    assert start.tables[table := db.tables[table]][table := t] == start.tables[table := t];
  }

  lemma AddRuns(start: Db, table: string, slots: Slots, db: Db, def: ColumnDef)
    requires Stage(start, table, slots, db)
    ensures match Exec(Ddl.AddColumn(table, def), db)
      case None => def.name in slots || (def.notNull && start.tables[table].rows != [])
      case Some(after) =>
        && def.name !in slots && (def.notNull ==> start.tables[table].rows == [])
        && Stage(start, table, AddSlot(slots, def), after)
  {
    var t, rows := db.tables[table], start.tables[table].rows;
    assert t.rows == [] <==> rows == [];
    if def.name !in slots && (def.notNull ==> rows == []) {
      RepresentsAdded(slots, rows, t, def);
      FollowsKept(slots, AddSlot(slots, def), start.tables[table].primaryKey, t.primaryKey);
      IndicesStayPut(start, table, slots, AddSlot(slots, def), db, {def.name});
      StageFrom(start, table, db, AddSlot(slots, def), t.(columns := t.columns + [def]), db.indices);
    }
  }

  /** Slots that lose and gain only names no index of the table uses leave the indices as they are. */
  lemma IndicesStayPut(start: Db, table: string, slots: Slots, slots': Slots, db: Db, names: set<string>)
    requires Stage(start, table, slots, db)
    requires forall name | name in slots && name !in names :: name in slots' && slots'[name] == slots[name]
    requires forall name | name in names && name in slots :: !Indexed(db, table, name)
    ensures forall i <- start.indices :: IndexFollows(slots', table, start.indices[i], db.indices[i])
  {
    forall i | i in start.indices
      ensures IndexFollows(slots', table, start.indices[i], db.indices[i])
    {
      assert IndexFollows(slots, table, start.indices[i], db.indices[i]);
      if start.indices[i].table == table {
        forall j | 0 <= j < |db.indices[i].columns|
          ensures db.indices[i].columns[j] !in names
        {
          assert db.indices[i].columns[j] in slots && db.indices[i].columns[j] in db.indices[i].columns;
        }
      }
    }
  }

  lemma RepresentsDropped(slots: Slots, rows: seq<Row>, t: TableData, name: string)
    requires Represents(slots, rows, t) && SlotsOk(slots) && name in slots
    ensures Represents(
      slots - {name}, rows, TableData(WithoutColumn(t.columns, name), t.primaryKey, DropKey(t.rows, name)))
  {
    var slots', columns := slots - {name}, WithoutColumn(t.columns, name);
    WithoutColumnIs(t.columns, name);
    NamesWithout(t.columns, name);
    forall i | 0 <= i < |columns|
      ensures columns[i].name in slots' && columns[i] == slots'[columns[i].name].def
    {
      assert columns[i] in columns;
    }
    ViewsDropped(slots, rows, t.rows, name);
  }

  lemma ViewsDropped(slots: Slots, rows: seq<Row>, views: seq<Row>, name: string)
    requires |views| == |rows| && forall i :: 0 <= i < |rows| ==> views[i] == View(slots, rows[i])
    ensures forall i :: 0 <= i < |rows| ==> DropKey(views, name)[i] == View(slots - {name}, rows[i])
  {
    forall i | 0 <= i < |rows|
      ensures DropKey(views, name)[i] == View(slots - {name}, rows[i])
    {
      assert views[i] == View(slots, rows[i]);
    }
  }

  lemma OnlyColumn(t: TableData, slots: Slots, rows: seq<Row>)
    requires Represents(slots, rows, t)
    ensures |t.columns| == |slots|
  {
    NamesCounted(t.columns);
  }

  lemma {:induction false} NamesCounted(columns: seq<ColumnDef>)
    requires DistinctNames(columns)
    ensures |NamesOf(columns)| == |columns|
  {
    if columns != [] {
      var rest := columns[..|columns| - 1];
      NamesCounted(rest);
      assert NamesOf(columns) == NamesOf(rest) + {columns[|columns| - 1].name};
    }
  }

  lemma DropRuns(start: Db, table: string, slots: Slots, db: Db, name: string)
    requires Stage(start, table, slots, db)
    requires name in slots && slots[name].source == Some(name)
    ensures match Exec(Ddl.DropColumn(table, name), db)
      case None => Blocked(start, table, name) || |slots| == 1
      case Some(after) =>
        && !Blocked(start, table, name) && |slots| != 1
        && Stage(start, table, slots - {name}, after)
  {
    var t, rows := db.tables[table], start.tables[table].rows;
    BlockedAsAtStart(start, table, slots, db, name);
    OnlyColumn(t, slots, rows);
    if !Blocked(db, table, name) && |slots| != 1 {
      RepresentsDropped(slots, rows, t, name);
      FollowsKept(slots, slots - {name}, start.tables[table].primaryKey, t.primaryKey);
      IndicesStayPut(start, table, slots, slots - {name}, db, {name});
      StageFrom(start, table, db, slots - {name},
                TableData(WithoutColumn(t.columns, name), t.primaryKey, DropKey(t.rows, name)), db.indices);
    }
  }

  /** One change to one column goes through when its new name is free and no NULL stands in its way. */
  predicate ChangeAllowed(slots: Slots, rows: seq<Row>, name: string, changes: ColumnChanges) {
    && (changes.newName.Some? ==> changes.newName.value !in slots)
    && (changes.newNotNull == Some(true) ==> forall i :: 0 <= i < |rows| ==> name in View(slots, rows[i]))
  }

  lemma ViewRenamed(slots: Slots, name: string, changes: ColumnChanges, row: Row)
    requires SlotsOk(slots) && name in slots
    requires changes.newName.Some? ==> changes.newName.value !in slots
    ensures View(ChangeSlot(slots, name, changes), row)
         == if changes.newName.Some? then RenameKey(View(slots, row), name, changes.newName.value) else View(slots, row)
  {
  }

  lemma ChangedColumns(slots: Slots, columns: seq<ColumnDef>, name: string, changes: ColumnChanges)
    requires SlotsOk(slots) && name in slots && DistinctNames(columns) && NamesOf(columns) == slots.Keys
    requires forall i :: 0 <= i < |columns| ==> columns[i].name in slots && columns[i] == slots[columns[i].name].def
    requires changes.newName.Some? ==> changes.newName.value !in slots
    ensures
      var slots', changed := ChangeSlot(slots, name, changes), ChangeColumn(columns, name, changes);
      && DistinctNames(changed) && NamesOf(changed) == slots'.Keys
      && forall i :: 0 <= i < |changed| ==> changed[i].name in slots' && changed[i] == slots'[changed[i].name].def
  {
    var slots', changed := ChangeSlot(slots, name, changes), ChangeColumn(columns, name, changes);
    ChangedNames(columns, name, changes);
    assert slots[name].def.name == name;
    forall i | 0 <= i < |columns|
      ensures changed[i].name in slots' && changed[i] == slots'[changed[i].name].def
    {
      ChangedColumn(slots, columns[i], name, changes);
    }
    AlteredDistinct(columns, name, changes);
  }

  lemma ChangedColumn(slots: Slots, c: ColumnDef, name: string, changes: ColumnChanges)
    requires SlotsOk(slots) && name in slots && c.name in slots && c == slots[c.name].def
    requires changes.newName.Some? ==> changes.newName.value !in slots
    ensures
      var slots' := ChangeSlot(slots, name, changes);
      var changed := if c.name == name then Changed(c, changes) else c;
      changed.name in slots' && changed == slots'[changed.name].def
  {
  }

  lemma RepresentsChanged(slots: Slots, rows: seq<Row>, t: TableData, name: string, changes: ColumnChanges)
    requires SlotsOk(slots) && Represents(slots, rows, t) && name in slots
    requires ChangeAllowed(slots, rows, name, changes)
    ensures AlterIn(t, name, changes).Some?
    ensures Represents(ChangeSlot(slots, name, changes), rows, AlterIn(t, name, changes).value)
  {
    assert forall i :: 0 <= i < |rows| ==> t.rows[i] == View(slots, rows[i]);
    var t' := AlterIn(t, name, changes).value;
    ChangedColumns(slots, t.columns, name, changes);
    forall i | 0 <= i < |rows|
      ensures t'.rows[i] == View(ChangeSlot(slots, name, changes), rows[i])
    {
      ViewRenamed(slots, name, changes, rows[i]);
    }
  }

  lemma FollowsRenamed(slots: Slots, name: string, changes: ColumnChanges, before: seq<string>, after: seq<string>)
    requires SlotsOk(slots) && name in slots && Follows(slots, before, after)
    requires changes.newName.Some? ==> changes.newName.value !in slots
    ensures Follows(ChangeSlot(slots, name, changes), before, RenameNames(after, name, NewName(name, changes)))
  {
    var slots', renamed := ChangeSlot(slots, name, changes), RenameNames(after, name, NewName(name, changes));
    forall j | 0 <= j < |renamed|
      ensures renamed[j] in slots' && slots'[renamed[j]].source == Some(before[j])
    {
      assert after[j] in slots;
    }
  }

  lemma RenameInSelf(names: seq<string>, name: string)
    ensures RenameNames(names, name, name) == names
  {
  }

  lemma ChangeSlotOk(slots: Slots, name: string, changes: ColumnChanges)
    requires SlotsOk(slots) && name in slots
    requires changes.newName.Some? ==> changes.newName.value !in slots
    ensures SlotsOk(ChangeSlot(slots, name, changes))
  {
  }

  lemma IndicesRenamed(start: Db, table: string, slots: Slots, db: Db, name: string, changes: ColumnChanges)
    requires Stage(start, table, slots, db) && name in slots
    requires changes.newName.Some? ==> changes.newName.value !in slots
    ensures
      var indices := AlteredIndices(db, table, name, changes);
      && indices.Keys == start.indices.Keys
      && forall i <- start.indices ::
           IndexFollows(ChangeSlot(slots, name, changes), table, start.indices[i], indices[i])
  {
    forall i | i in start.indices && start.indices[i].table == table
      ensures Follows(ChangeSlot(slots, name, changes), start.indices[i].columns,
                      RenameNames(db.indices[i].columns, name, NewName(name, changes)))
    {
      assert IndexFollows(slots, table, start.indices[i], db.indices[i]);
      FollowsRenamed(slots, name, changes, start.indices[i].columns, db.indices[i].columns);
      RenameInSelf(db.indices[i].columns, name);
    }
    forall i | i in start.indices
      ensures IndexFollows(slots, table, start.indices[i], db.indices[i])
    {
    }
    forall i | i in start.indices
      ensures RenameNames(db.indices[i].columns, name, name) == db.indices[i].columns
    {
      RenameInSelf(db.indices[i].columns, name);
    }
  }

  function AlteredIndices(db: Db, table: string, name: string, changes: ColumnChanges): map<string, IndexData> {
    if changes.newName.Some? then RenameIndexed(db.indices, table, name, changes.newName.value) else db.indices
  }

  lemma ChangeGoesThrough(
    start: Db, table: string, slots: Slots, db: Db, t: TableData, name: string, changes: ColumnChanges)
    requires Stage(start, table, slots, db) && name in slots && t == db.tables[table]
    requires ChangeAllowed(slots, start.tables[table].rows, name, changes)
    ensures AlterIn(t, name, changes).Some?
    ensures Stage(start, table, ChangeSlot(slots, name, changes),
                  db.(tables := db.tables[table := AlterIn(t, name, changes).value],
                      indices := AlteredIndices(db, table, name, changes)))
  {
    RepresentsChanged(slots, start.tables[table].rows, t, name, changes);
    ChangeSlotOk(slots, name, changes);
    FollowsRenamed(slots, name, changes, start.tables[table].primaryKey, t.primaryKey);
    RenameInSelf(t.primaryKey, name);
    IndicesRenamed(start, table, slots, db, name, changes);
    StageFrom(start, table, db, ChangeSlot(slots, name, changes), AlterIn(t, name, changes).value,
              AlteredIndices(db, table, name, changes));
  }

  lemma ChangeRuns(start: Db, table: string, slots: Slots, db: Db, name: string, changes: ColumnChanges)
    requires Stage(start, table, slots, db) && name in slots
    ensures match Exec(Ddl.AlterColumn(table, name, changes), db)
      case None => !ChangeAllowed(slots, start.tables[table].rows, name, changes)
      case Some(after) =>
        && ChangeAllowed(slots, start.tables[table].rows, name, changes)
        && Stage(start, table, ChangeSlot(slots, name, changes), after)
  {
    if ChangeAllowed(slots, start.tables[table].rows, name, changes) {
      ChangeGoesThrough(start, table, slots, db, db.tables[table], name, changes);
    } else {
      ChangeRefused(slots, start.tables[table].rows, db.tables[table], name, changes);
    }
  }

  lemma ChangeRefused(slots: Slots, rows: seq<Row>, t: TableData, name: string, changes: ColumnChanges)
    requires Represents(slots, rows, t) && !ChangeAllowed(slots, rows, name, changes)
    ensures AlterIn(t, name, changes).None?
  {
    if changes.newName.Some? ==> changes.newName.value !in slots {
      var i :| 0 <= i < |rows| && name !in View(slots, rows[i]);
      assert t.rows[i] == View(slots, rows[i]);
    }
  }

  // ---- One column's changes, at once or one at a time ----

  function Merge(a: ColumnChanges, b: ColumnChanges): ColumnChanges {
    ColumnChanges(
      if b.newName.Some? then b.newName else a.newName,
      if b.newTy.Some? then b.newTy else a.newTy,
      if b.newNotNull.Some? then b.newNotNull else a.newNotNull,
      if b.newAutoIncrement.Some? then b.newAutoIncrement else a.newAutoIncrement)
  }

  function Merged(steps: seq<ColumnChanges>, n: nat): ColumnChanges
    requires n <= |steps|
  {
    if n == 0 then NoChanges else Merge(Merged(steps, n - 1), steps[n - 1])
  }

  /** No step follows a rename, and nullability is set at most once. */
  predicate StepsInOrder(steps: seq<ColumnChanges>) {
    forall i, j :: 0 <= i < j < |steps| ==>
      steps[i].newName.None? && (steps[i].newNotNull.None? || steps[j].newNotNull.None?)
  }

  /** Split one by one and put together again, the changes are the changes. */
  lemma SplitMerges(changes: ColumnChanges)
    ensures StepsInOrder(changes.Split())
    ensures Merged(changes.Split(), |changes.Split()|) == changes
  {
    var a := if changes.newTy.Some? then [NoChanges.(newTy := changes.newTy)] else [];
    var b := if changes.newNotNull.Some? then [NoChanges.(newNotNull := changes.newNotNull)] else [];
    var c := if changes.newAutoIncrement.Some? then [NoChanges.(newAutoIncrement := changes.newAutoIncrement)] else [];
    var d := if changes.newName.Some? then [NoChanges.(newName := changes.newName)] else [];
    assert changes.Split() == a + b + c + d;
    MergedAppend(a + b + c, d);
    MergedAppend(a + b, c);
    MergedAppend(a, b);
    MergedShort(a);
    MergedShort(b);
    MergedShort(c);
    MergedShort(d);
  }

  lemma MergedShort(steps: seq<ColumnChanges>)
    requires |steps| <= 1
    ensures Merged(steps, |steps|) == if steps == [] then NoChanges else steps[0]
  {
    if |steps| == 1 {
      assert Merged(steps, 0) == NoChanges;
    }
  }

  lemma {:induction false} MergedAppend(a: seq<ColumnChanges>, b: seq<ColumnChanges>)
    ensures Merged(a + b, |a + b|) == Merge(Merged(a, |a|), Merged(b, |b|))
    decreases |b|
  {
    if b == [] {
      assert a + b == a;
    } else {
      var b' := b[..|b| - 1];
      MergedAppend(a, b');
      MergedPrefix(a + b, a + b', |a + b'|);
      MergedPrefix(b, b', |b'|);
      assert (a + b)[|a + b| - 1] == b[|b| - 1];
    }
  }

  lemma {:induction false} MergedPrefix(a: seq<ColumnChanges>, b: seq<ColumnChanges>, n: nat)
    requires n <= |a| && n <= |b| && a[..n] == b[..n]
    ensures Merged(a, n) == Merged(b, n)
  {
    if n > 0 {
      assert a[..n - 1] == a[..n][..n - 1];
      assert b[..n - 1] == b[..n][..n - 1];
      assert a[n - 1] == a[..n][n - 1] && b[n - 1] == b[..n][n - 1];
      MergedPrefix(a, b, n - 1);
    }
  }

  lemma MergedChange(slots: Slots, rows: seq<Row>, name: string, a: ColumnChanges, b: ColumnChanges)
    requires SlotsOk(slots) && name in slots && a.newName.None?
    requires a.newNotNull.None? || b.newNotNull.None?
    ensures name in ChangeSlot(slots, name, a)
    ensures ChangeSlot(ChangeSlot(slots, name, a), name, b) == ChangeSlot(slots, name, Merge(a, b))
    ensures ChangeAllowed(slots, rows, name, a) && ChangeAllowed(ChangeSlot(slots, name, a), rows, name, b)
        <==> ChangeAllowed(slots, rows, name, Merge(a, b))
  {
    MergedSlot(slots, name, a, b);
    MergedAllowed(slots, rows, name, a, b);
  }

  lemma MergedSlot(slots: Slots, name: string, a: ColumnChanges, b: ColumnChanges)
    requires SlotsOk(slots) && name in slots && a.newName.None?
    ensures name in ChangeSlot(slots, name, a)
    ensures ChangeSlot(ChangeSlot(slots, name, a), name, b) == ChangeSlot(slots, name, Merge(a, b))
  {
  }

  lemma MergedAllowed(slots: Slots, rows: seq<Row>, name: string, a: ColumnChanges, b: ColumnChanges)
    requires SlotsOk(slots) && name in slots && a.newName.None?
    requires a.newNotNull.None? || b.newNotNull.None?
    ensures name in ChangeSlot(slots, name, a)
    ensures ChangeAllowed(slots, rows, name, a) && ChangeAllowed(ChangeSlot(slots, name, a), rows, name, b)
        <==> ChangeAllowed(slots, rows, name, Merge(a, b))
  {
    forall i | 0 <= i < |rows|
      ensures View(ChangeSlot(slots, name, a), rows[i]) == View(slots, rows[i])
    {
      ViewRenamed(slots, name, a, rows[i]);
    }
  }

  lemma {:induction false} MergedProperties(steps: seq<ColumnChanges>, n: nat)
    requires StepsInOrder(steps) && n < |steps|
    ensures Merged(steps, n).newName.None?
    ensures Merged(steps, n).newNotNull.None? || steps[n].newNotNull.None?
  {
    for i := 0 to n
      invariant Merged(steps, i).newName.None?
      invariant steps[n].newNotNull.Some? ==> Merged(steps, i).newNotNull.None?
    {
    }
  }

  lemma OneMoreStep(
    start: Db, table: string, slots: Slots, db: Db, p: Column, a: ColumnChanges, b: ColumnChanges,
    schema: Schema, capability: Capability)
    requires SlotsOk(slots) && p.name in slots
    requires a.newName.None? && (a.newNotNull.None? || b.newNotNull.None?)
    requires Stage(start, table, ChangeSlot(slots, p.name, a), db)
    requires ChangeAllowed(slots, start.tables[table].rows, p.name, a)
    requires p.id.table < |schema.tables| && schema.tables[p.id.table].name == table
    ensures
      var m := MigrationStatement(Statement.AlterColumn(p.id.table, DefOf(p, capability), b), schema);
      match Run([m], db)
      case None => !ChangeAllowed(slots, start.tables[table].rows, p.name, Merge(a, b))
      case Some(after) =>
        && ChangeAllowed(slots, start.tables[table].rows, p.name, Merge(a, b))
        && Stage(start, table, ChangeSlot(slots, p.name, Merge(a, b)), after)
  {
    RunOne(MigrationStatement(Statement.AlterColumn(p.id.table, DefOf(p, capability), b), schema), db);
    MergedChange(slots, start.tables[table].rows, p.name, a, b);
    ChangeRuns(start, table, ChangeSlot(slots, p.name, a), db, p.name, b);
  }

  lemma {:induction false} StepsRun(
    start: Db, table: string, slots: Slots, db: Db, p: Column, steps: seq<ColumnChanges>, n: nat,
    schema: Schema, capability: Capability)
    requires Stage(start, table, slots, db) && p.name in slots
    requires StepsInOrder(steps) && n <= |steps|
    requires p.id.table < |schema.tables| && schema.tables[p.id.table].name == table
    ensures match Run(AlterStatements(p, steps, n, schema, capability), db)
      case None => !ChangeAllowed(slots, start.tables[table].rows, p.name, Merged(steps, n))
      case Some(after) =>
        && ChangeAllowed(slots, start.tables[table].rows, p.name, Merged(steps, n))
        && Stage(start, table, ChangeSlot(slots, p.name, Merged(steps, n)), after)
  {
    if n == 0 {
      assert ChangeSlot(slots, p.name, NoChanges) == slots;
    } else {
      StepsRun(start, table, slots, db, p, steps, n - 1, schema, capability);
      MergedProperties(steps, n - 1);
      StepAfter(start, table, slots, db, p, AlterStatements(p, steps, n - 1, schema, capability),
        Merged(steps, n - 1), steps[n - 1], schema, capability);
    }
  }

  /** One more change after changes that together do `a`. */
  lemma StepAfter(
    start: Db, table: string, slots: Slots, db: Db, p: Column, before: seq<MigrationStatement>, a: ColumnChanges,
    b: ColumnChanges, schema: Schema, capability: Capability)
    requires SlotsOk(slots) && p.name in slots && table in start.tables
    requires a.newName.None? && (a.newNotNull.None? || b.newNotNull.None?)
    requires p.id.table < |schema.tables| && schema.tables[p.id.table].name == table
    requires match Run(before, db)
      case None => !ChangeAllowed(slots, start.tables[table].rows, p.name, a)
      case Some(mid) =>
        && ChangeAllowed(slots, start.tables[table].rows, p.name, a)
        && Stage(start, table, ChangeSlot(slots, p.name, a), mid)
    ensures
      var m := MigrationStatement(Statement.AlterColumn(p.id.table, DefOf(p, capability), b), schema);
      match Run(before + [m], db)
      case None => !ChangeAllowed(slots, start.tables[table].rows, p.name, Merge(a, b))
      case Some(after) =>
        && ChangeAllowed(slots, start.tables[table].rows, p.name, Merge(a, b))
        && Stage(start, table, ChangeSlot(slots, p.name, Merge(a, b)), after)
  {
    RunAppend(before, [MigrationStatement(Statement.AlterColumn(p.id.table, DefOf(p, capability), b), schema)], db);
    match Run(before, db)
    case None => MergedChange(slots, start.tables[table].rows, p.name, a, b);
    case Some(mid) => OneMoreStep(start, table, slots, mid, p, a, b, schema, capability);
  }

  /** Either way of issuing a column's changes does what the changes together do. */
  lemma AlterRuns(
    start: Db, table: string, slots: Slots, db: Db, p: Column, q: Column, schema: Schema, capability: Capability)
    requires Stage(start, table, slots, db) && p.name in slots
    requires p.id.table < |schema.tables| && schema.tables[p.id.table].name == table
    ensures
      var steps := ChangeSteps(p, q, capability);
      match Run(AlterStatements(p, steps, |steps|, schema, capability), db)
      case None => !ChangeAllowed(slots, start.tables[table].rows, p.name, StatedChanges(p, q, capability))
      case Some(after) =>
        && ChangeAllowed(slots, start.tables[table].rows, p.name, StatedChanges(p, q, capability))
        && Stage(start, table, ChangeSlot(slots, p.name, StatedChanges(p, q, capability)), after)
  {
    var steps := ChangeSteps(p, q, capability);
    SplitMerges(StatedChanges(p, q, capability));
    MergedShort([StatedChanges(p, q, capability)]);
    StepsRun(start, table, slots, db, p, steps, |steps|, schema, capability);
  }
}
