/** A whole list of in-place column changes: when it goes through, and the table it reaches. */
module InPlaceMigration {
  import opened Wrappers
  import opened DbSchema
  import opened MigrationPlan
  import opened Database
  import opened ColumnLineage
  import opened TableInPlace

  /** What surrounds the changes: where they run, and what the planner was given. */
  datatype Setting = Setting(
    start: Db, table: string, schema: Schema, id: nat, capability: Capability, renamed: RenamedTypes)
  {
    /** The id the changes speak of is the table's, and the table is there. */
    predicate Valid() {
      id < |schema.tables| && schema.tables[id].name == table && table in start.tables
    }

    function Was(p: Column): ColumnDef {
      StartDef(p, capability, renamed)
    }

    function Rows(): seq<Row>
      requires Valid()
    {
      start.tables[table].rows
    }
  }

  /** How a previous column is defined when its table's turn comes: its type has been renamed by then. */
  function StartDef(p: Column, capability: Capability, renamed: RenamedTypes): ColumnDef {
    var def := DefOf(p, capability);
    if capability.namedEnumTypes then def.(ty := Retyped(def.ty, renamed, |renamed|)) else def
  }

  function StartSlots(previous: seq<Column>, capability: Capability, renamed: RenamedTypes): Slots
    requires DistinctColumns(previous)
  {
    map i | 0 <= i < |previous| :: previous[i].name := Slot(
      Some(previous[i].name), StartDef(previous[i], capability, renamed))
  }

  function ItemSlots(s: Setting, slots: Slots, d: ColumnDiff): Slots {
    match d
    case Add(c) => AddSlot(slots, DefOf(c, s.capability))
    case Drop(c) => slots - {c.name}
    case Alter(p, q) =>
      if OnType(p, q, s.capability, s.renamed) || p.name !in slots then slots
      else ChangeSlot(slots, p.name, StatedChanges(p, q, s.capability))
  }

  function SlotsAfter(s: Setting, previous: seq<Column>, columns: seq<ColumnDiff>, n: nat): Slots
    requires DistinctColumns(previous) && n <= |columns|
  {
    if n == 0 then StartSlots(previous, s.capability, s.renamed)
    else
      ItemSlots(s, SlotsAfter(s, previous, columns, n - 1), columns[n - 1])
  }

  /** Nothing live stands in the way of the change: a name it introduces is free, a column it drops
      is neither the last one nor held by the primary key or an index, and no row is NULL where the
      change forbids it. */
  predicate Allowed(s: Setting, slots: Slots, d: ColumnDiff)
    requires s.Valid()
  {
    match d
    case Add(c) => c.name !in slots && (!c.nullable ==> s.Rows() == [])
    case Drop(c) => !Blocked(s.start, s.table, c.name) && |slots| != 1
    case Alter(p, q) =>
      OnType(p, q, s.capability, s.renamed) || ChangeAllowed(slots, s.Rows(), p.name, StatedChanges(p, q, s.capability))
  }

  predicate AllAllowed(s: Setting, previous: seq<Column>, columns: seq<ColumnDiff>, n: nat)
    requires s.Valid() && DistinctColumns(previous) && n <= |columns|
  {
    n > 0 ==>
      && AllAllowed(s, previous, columns, n - 1)
      && Allowed(s, SlotsAfter(s, previous, columns, n - 1), columns[n - 1])
  }

  // ---- Lineage: what the slots say about each column ----

  /** The definition an altered column has afterwards: its old one if the change was left to its type. */
  function AlteredDef(capability: Capability, renamed: RenamedTypes, p: Column, q: Column): ColumnDef {
    if OnType(p, q, capability, renamed) then StartDef(p, capability, renamed)
    else Changed(StartDef(p, capability, renamed), StatedChanges(p, q, capability))
  }

  /** The slot a change leaves behind, if any. */
  function Outcome(s: Setting, d: ColumnDiff): Option<(string, Slot)> {
    match d
    case Add(c) => Some((c.name, Slot(None, DefOf(c, s.capability))))
    case Drop(_) => None
    case Alter(p, q) => Some((q.name, Slot(Some(p.name), AlteredDef(s.capability, s.renamed, p, q))))
  }

  ghost predicate Accounted(
    s: Setting, previous: seq<Column>, columns: seq<ColumnDiff>, n: nat, name: string, slot: Slot)
    requires n <= |columns|
  {
    || (exists p :: p in previous && !Touched(columns, n, p)
          && (name, slot) == (p.name, Slot(Some(p.name), s.Was(p))))
    || (exists i :: 0 <= i < n && Outcome(s, columns[i]) == Some((name, slot)))
  }

  /** The slots are those of the untouched columns and those the changes so far have left. */
  ghost predicate Lineage(s: Setting, previous: seq<Column>, columns: seq<ColumnDiff>, n: nat, slots: Slots)
    requires n <= |columns|
  {
    && (forall p :: p in previous && !Touched(columns, n, p)
          ==> p.name in slots && slots[p.name] == Slot(Some(p.name), s.Was(p)))
    && (forall i :: 0 <= i < n && Outcome(s, columns[i]).Some?
          ==> var o := Outcome(s, columns[i]).value; o.0 in slots && slots[o.0] == o.1)
    && (forall name <- slots :: Accounted(s, previous, columns, n, name, slots[name]))
  }

  lemma SlotOf(previous: seq<Column>, capability: Capability, renamed: RenamedTypes, p: Column)
    requires DistinctColumns(previous) && p in previous
    ensures p.name in StartSlots(previous, capability, renamed)
    ensures StartSlots(previous, capability, renamed)[p.name]
         == Slot(Some(p.name), StartDef(p, capability, renamed))
  {
    var i :| 0 <= i < |previous| && previous[i] == p;
    assert previous[i].name in StartSlots(previous, capability, renamed);
  }

  lemma SlotFrom(previous: seq<Column>, capability: Capability, renamed: RenamedTypes, name: string)
    returns (p: Column)
    requires DistinctColumns(previous) && name in StartSlots(previous, capability, renamed)
    ensures p in previous && p.name == name
  {
    var i :| 0 <= i < |previous| && previous[i].name == name;
    p := previous[i];
  }

  lemma StartLineage(s: Setting, previous: seq<Column>, columns: seq<ColumnDiff>)
    requires DistinctColumns(previous)
    ensures Lineage(s, previous, columns, 0, StartSlots(previous, s.capability, s.renamed))
    ensures SlotsOk(StartSlots(previous, s.capability, s.renamed))
  {
    var slots := StartSlots(previous, s.capability, s.renamed);
    forall p | p in previous
      ensures p.name in slots && slots[p.name] == Slot(Some(p.name), s.Was(p))
    {
      SlotOf(previous, s.capability, s.renamed, p);
    }
    forall name | name in slots
      ensures Accounted(s, previous, columns, 0, name, slots[name])
      ensures slots[name].source == Some(name) && slots[name].def.name == name
    {
      var p := SlotFrom(previous, s.capability, s.renamed, name);
      assert !Touched(columns, 0, p);
      SlotOf(previous, s.capability, s.renamed, p);
    }
  }

  function WithoutConsumed(slots: Slots, d: ColumnDiff): Slots {
    if Consumed(d).Some? then slots - {Consumed(d).value.name} else slots
  }

  /** Every change takes its previous column's slot away and puts its outcome's slot in. */
  function Updated(s: Setting, slots: Slots, d: ColumnDiff): Slots {
    var rest := WithoutConsumed(slots, d);
    if Outcome(s, d).Some? then rest[Outcome(s, d).value.0 := Outcome(s, d).value.1] else rest
  }

  /** The column a change consumes is still as it was at the start. */
  lemma ConsumedUntouched(previous: seq<Column>, next: seq<Column>, columns: seq<ColumnDiff>, n: nat)
    requires Coherent(previous, next, columns) && n < |columns| && Consumed(columns[n]).Some?
    ensures Consumed(columns[n]).value in previous && !Touched(columns, n, Consumed(columns[n]).value)
  {
  }

  /** The slot of the column a change consumes is the one it started with. */
  predicate AsStarted(s: Setting, slots: Slots, d: ColumnDiff) {
    Consumed(d).Some? ==>
      var p := Consumed(d).value;
      p.name in slots && slots[p.name] == Slot(Some(p.name), s.Was(p))
  }

  lemma AlterIsUpdate(s: Setting, slots: Slots, d: ColumnDiff)
    requires s.Valid() && d.Alter? && AsStarted(s, slots, d) && Allowed(s, slots, d)
    ensures ItemSlots(s, slots, d) == Updated(s, slots, d)
    ensures d.next.name !in WithoutConsumed(slots, d)
  {
    var p, q := d.previous, d.next;
    if OnType(p, q, s.capability, s.renamed) {
      assert p.name == q.name;
      assert (slots - {p.name})[p.name := slots[p.name]] == slots;
    }
  }

  lemma ItemIsUpdate(s: Setting, slots: Slots, d: ColumnDiff)
    requires s.Valid() && AsStarted(s, slots, d) && Allowed(s, slots, d)
    ensures ItemSlots(s, slots, d) == Updated(s, slots, d)
    ensures Outcome(s, d).Some? ==> Outcome(s, d).value.0 !in WithoutConsumed(slots, d)
  {
    if d.Alter? {
      AlterIsUpdate(s, slots, d);
    }
  }

  lemma UpdatedOk(s: Setting, slots: Slots, d: ColumnDiff)
    requires SlotsOk(slots)
    requires Consumed(d).Some? ==> var p := Consumed(d).value; p.name in slots && slots[p.name].source == Some(p.name)
    requires Outcome(s, d).Some? ==> Outcome(s, d).value.0 !in WithoutConsumed(slots, d)
    ensures SlotsOk(Updated(s, slots, d))
  {
  }

  /** What another column's change left behind does not sit under this column's name. */
  lemma OutcomeApart(
    s: Setting, previous: seq<Column>, next: seq<Column>, columns: seq<ColumnDiff>, i: nat, n: nat, slots: Slots)
    requires Coherent(previous, next, columns) && i < n < |columns| && Lineage(s, previous, columns, n, slots)
    requires Consumed(columns[n]).Some? && Outcome(s, columns[i]).Some?
    ensures Outcome(s, columns[i]).value.0 != Consumed(columns[n]).value.name
  {
    var p := Consumed(columns[n]).value;
    ConsumedUntouched(previous, next, columns, n);
    assert slots[p.name].source == Some(p.name);
    if columns[i].Alter? {
      var p' := columns[i].previous;
      assert Consumed(columns[i]) == Some(p');
      assert p' in previous && p' != p;
      assert p'.name != p.name;
      assert slots[columns[i].next.name].source == Some(p'.name);
    } else {
      assert slots[columns[i].column.name].source == None;
    }
  }

  lemma UpdatedLineage(
    s: Setting, previous: seq<Column>, next: seq<Column>, columns: seq<ColumnDiff>, n: nat, slots: Slots)
    requires Coherent(previous, next, columns) && n < |columns|
    requires Lineage(s, previous, columns, n, slots)
    requires Outcome(s, columns[n]).Some? ==> Outcome(s, columns[n]).value.0 !in WithoutConsumed(slots, columns[n])
    ensures Lineage(s, previous, columns, n + 1, Updated(s, slots, columns[n]))
  {
    var d, slots' := columns[n], Updated(s, slots, columns[n]);
    forall p | p in previous && !Touched(columns, n + 1, p)
      ensures p.name in slots' && slots'[p.name] == Slot(Some(p.name), s.Was(p))
    {
      assert Consumed(d) != Some(p) && !Touched(columns, n, p);
      if Consumed(d).Some? {
        ConsumedUntouched(previous, next, columns, n);
        assert Consumed(d).value.name != p.name;
      }
      assert p.name in WithoutConsumed(slots, d);
    }
    forall i | 0 <= i < n + 1 && Outcome(s, columns[i]).Some?
      ensures var o := Outcome(s, columns[i]).value; o.0 in slots' && slots'[o.0] == o.1
    {
      if i < n {
        if Consumed(d).Some? {
          OutcomeApart(s, previous, next, columns, i, n, slots);
        }
        assert Outcome(s, columns[i]).value.0 in WithoutConsumed(slots, d);
      }
    }
    forall name | name in slots'
      ensures Accounted(s, previous, columns, n + 1, name, slots'[name])
    {
      if Outcome(s, d).Some? && Outcome(s, d).value.0 == name {
        assert Outcome(s, columns[n]) == Some((name, slots'[name]));
      } else {
        assert Accounted(s, previous, columns, n, name, slots[name]);
        StillAccounted(s, previous, columns, n, name, slots[name]);
      }
    }
  }

  lemma StillAccounted(s: Setting, previous: seq<Column>, columns: seq<ColumnDiff>, n: nat, name: string, slot: Slot)
    requires n < |columns| && Accounted(s, previous, columns, n, name, slot)
    requires Consumed(columns[n]).Some? ==> Consumed(columns[n]).value.name != name
    ensures Accounted(s, previous, columns, n + 1, name, slot)
  {
    if p :| p in previous && !Touched(columns, n, p)
            && (name, slot) == (p.name, Slot(Some(p.name), s.Was(p)))
    {
      assert !Touched(columns, n + 1, p);
    }
  }

  /** One more change keeps the lineage. */
  lemma LineageStep(
    s: Setting, previous: seq<Column>, next: seq<Column>, columns: seq<ColumnDiff>, n: nat, slots: Slots)
    requires s.Valid() && Coherent(previous, next, columns) && n < |columns|
    requires SlotsOk(slots) && Lineage(s, previous, columns, n, slots) && Allowed(s, slots, columns[n])
    ensures SlotsOk(ItemSlots(s, slots, columns[n]))
    ensures Lineage(s, previous, columns, n + 1, ItemSlots(s, slots, columns[n]))
  {
    if Consumed(columns[n]).Some? {
      ConsumedUntouched(previous, next, columns, n);
    }
    ItemIsUpdate(s, slots, columns[n]);
    UpdatedLineage(s, previous, next, columns, n, slots);
    UpdatedOk(s, slots, columns[n]);
  }

  lemma {:induction false} LineageHolds(
    s: Setting, previous: seq<Column>, next: seq<Column>, columns: seq<ColumnDiff>, n: nat)
    requires s.Valid() && Coherent(previous, next, columns) && n <= |columns|
    requires AllAllowed(s, previous, columns, n)
    ensures Lineage(s, previous, columns, n, SlotsAfter(s, previous, columns, n))
    ensures SlotsOk(SlotsAfter(s, previous, columns, n))
  {
    if n == 0 {
      StartLineage(s, previous, columns);
    } else {
      LineageHolds(s, previous, next, columns, n - 1);
      LineageStep(s, previous, next, columns, n - 1, SlotsAfter(s, previous, columns, n - 1));
    }
  }

  // ---- The statements ----

  /** The statements of a change go through exactly when it is allowed. */
  ghost predicate RunsTo(s: Setting, slots: Slots, d: ColumnDiff, outcome: Option<Db>)
    requires s.Valid()
  {
    match outcome
    case None => !Allowed(s, slots, d)
    case Some(after) => Allowed(s, slots, d) && Stage(s.start, s.table, ItemSlots(s, slots, d), after)
  }

  lemma AddItemRuns(s: Setting, slots: Slots, db: Db, c: Column)
    requires s.Valid() && Stage(s.start, s.table, slots, db)
    ensures RunsTo(s, slots, ColumnDiff.Add(c),
                   Run(ColumnStatements(ColumnDiff.Add(c), s.schema, s.id, s.capability, s.renamed), db))
  {
    RunOne(MigrationStatement(Statement.AddColumn(s.id, DefOf(c, s.capability)), s.schema), db);
    AddRuns(s.start, s.table, slots, db, DefOf(c, s.capability));
  }

  lemma DropItemRuns(s: Setting, slots: Slots, db: Db, c: Column)
    requires s.Valid() && Stage(s.start, s.table, slots, db)
    requires c.id.table == s.id && c.name in slots && slots[c.name].source == Some(c.name)
    ensures RunsTo(s, slots, ColumnDiff.Drop(c),
                   Run(ColumnStatements(ColumnDiff.Drop(c), s.schema, s.id, s.capability, s.renamed), db))
  {
    RunOne(MigrationStatement(Statement.DropColumn(c.id.table, c.name), s.schema), db);
    DropRuns(s.start, s.table, slots, db, c.name);
  }

  lemma AlterItemRuns(s: Setting, slots: Slots, db: Db, p: Column, q: Column)
    requires s.Valid() && Stage(s.start, s.table, slots, db)
    requires p.id.table == s.id && p.name in slots
    ensures RunsTo(s, slots, ColumnDiff.Alter(p, q),
                   Run(ColumnStatements(ColumnDiff.Alter(p, q), s.schema, s.id, s.capability, s.renamed), db))
  {
    if !OnType(p, q, s.capability, s.renamed) {
      AlterRuns(s.start, s.table, slots, db, p, q, s.schema, s.capability);
    }
  }

  lemma ItemRuns(s: Setting, slots: Slots, db: Db, d: ColumnDiff)
    requires s.Valid() && Stage(s.start, s.table, slots, db) && AsStarted(s, slots, d)
    requires Consumed(d).Some? ==> Consumed(d).value.id.table == s.id
    ensures RunsTo(s, slots, d, Run(ColumnStatements(d, s.schema, s.id, s.capability, s.renamed), db))
  {
    match d
    case Add(c) => AddItemRuns(s, slots, db, c);
    case Drop(c) => DropItemRuns(s, slots, db, c);
    case Alter(p, q) => AlterItemRuns(s, slots, db, p, q);
  }

  lemma {:induction false} ColumnsRun(
    s: Setting, previous: seq<Column>, next: seq<Column>, columns: seq<ColumnDiff>, n: nat)
    requires s.Valid() && Coherent(previous, next, columns) && n <= |columns|
    requires forall i :: 0 <= i < |previous| ==> previous[i].id.table == s.id
    requires Stage(s.start, s.table, StartSlots(previous, s.capability, s.renamed), s.start)
    ensures match Run(ColumnChangeStatements(columns, n, s.schema, s.id, s.capability, s.renamed), s.start)
      case None => !AllAllowed(s, previous, columns, n)
      case Some(after) =>
        && AllAllowed(s, previous, columns, n)
        && Stage(s.start, s.table, SlotsAfter(s, previous, columns, n), after)
  {
    if n > 0 {
      var before := ColumnChangeStatements(columns, n - 1, s.schema, s.id, s.capability, s.renamed);
      var d, slots := columns[n - 1], SlotsAfter(s, previous, columns, n - 1);
      ColumnsRun(s, previous, next, columns, n - 1);
      RunAppend(before, ColumnStatements(d, s.schema, s.id, s.capability, s.renamed), s.start);
      match Run(before, s.start)
      case None =>
      case Some(mid) =>
        ItemStarts(s, previous, next, columns, n - 1);
        ItemRuns(s, slots, mid, d);
    }
  }

  lemma ItemStarts(s: Setting, previous: seq<Column>, next: seq<Column>, columns: seq<ColumnDiff>, n: nat)
    requires s.Valid() && Coherent(previous, next, columns) && n < |columns|
    requires forall i :: 0 <= i < |previous| ==> previous[i].id.table == s.id
    requires AllAllowed(s, previous, columns, n)
    ensures AsStarted(s, SlotsAfter(s, previous, columns, n), columns[n])
    ensures Consumed(columns[n]).Some? ==> Consumed(columns[n]).value.id.table == s.id
  {
    LineageHolds(s, previous, next, columns, n);
    if Consumed(columns[n]).Some? {
      ConsumedUntouched(previous, next, columns, n);
    }
  }

  // ---- The table reached ----

  /** The definition a next column ends up with when it is reached in place. */
  ghost predicate InPlaceDef(
    capability: Capability, renamed: RenamedTypes, columns: seq<ColumnDiff>, q: Column, def: ColumnDef)
  {
    if exists p :: ColumnDiff.Alter(p, q) in columns
    then exists p :: ColumnDiff.Alter(p, q) in columns && def == AlteredDef(capability, renamed, p, q)
    else if ColumnDiff.Add(q) in columns then def == DefOf(q, capability)
    else def == StartDef(q, capability, renamed)
  }

  lemma SlotOfNext(
    s: Setting, previous: seq<Column>, next: seq<Column>, columns: seq<ColumnDiff>, slots: Slots, q: Column)
    returns (p: Option<Column>)
    requires Coherent(previous, next, columns) && Lineage(s, previous, columns, |columns|, slots) && q in next
    ensures q.name in slots && InPlaceDef(s.capability, s.renamed, columns, q, slots[q.name].def)
    ensures p.Some? ==> Kept(previous, next, columns, p.value, q) && slots[q.name].source == Some(p.value.name)
    ensures p.None? ==> slots[q.name].source == None
    ensures forall p' :: Kept(previous, next, columns, p', q) ==> p == Some(p')
  {
    p := LineageOf(previous, next, columns, q);
    if p.None? {
      var i :| 0 <= i < |columns| && columns[i] == ColumnDiff.Add(q);
      assert Outcome(s, columns[i]) == Some((q.name, Slot(None, DefOf(q, s.capability))));
      forall j | 0 <= j < |columns| && columns[j].Alter?
        ensures columns[j].next != q
      {
        assert Produced(columns[j]) != Produced(columns[i]);
      }
    } else if ColumnDiff.Alter(p.value, q) in columns {
      var i :| 0 <= i < |columns| && columns[i] == ColumnDiff.Alter(p.value, q);
      assert Outcome(s, columns[i]).Some?;
    } else {
      assert p.value in previous && !Touched(columns, |columns|, p.value) && SameColumn(p.value, q);
      forall j | 0 <= j < |columns| && columns[j].Alter?
        ensures columns[j].next != q
      {
        assert Produced(columns[j]) != Some(q);
      }
    }
  }

  /** Row by row, the view through the final slots is the migrated row. */
  lemma ViewMigrates(
    s: Setting, previous: seq<Column>, next: seq<Column>, columns: seq<ColumnDiff>, slots: Slots, row: Row)
    requires Coherent(previous, next, columns)
    requires Lineage(s, previous, columns, |columns|, slots) && SlotsOk(slots)
    ensures RowMigrates(previous, next, columns, row, View(slots, row))
  {
    forall p, q | Kept(previous, next, columns, p, q)
      ensures SameValue(row, p.name, View(slots, row), q.name)
    {
      var p' := SlotOfNext(s, previous, next, columns, slots, q);
    }
    forall name | name in View(slots, row)
      ensures exists p, q :: Kept(previous, next, columns, p, q) && q.name == name
    {
      var q := NextOfSlot(s, previous, next, columns, slots, name);
      var p := SlotOfNext(s, previous, next, columns, slots, q);
    }
  }

  lemma NextOfSlot(
    s: Setting, previous: seq<Column>, next: seq<Column>, columns: seq<ColumnDiff>, slots: Slots, name: string)
    returns (q: Column)
    requires Coherent(previous, next, columns) && Lineage(s, previous, columns, |columns|, slots) && name in slots
    ensures q in next && q.name == name
  {
    assert Accounted(s, previous, columns, |columns|, name, slots[name]);
    if p :| p in previous && !Touched(columns, |columns|, p) && p.name == name {
      assert name in UntouchedNames(previous, columns);
      q :| q in next && !Made(columns, q) && q.name == name;
    } else {
      var i :| 0 <= i < |columns| && Outcome(s, columns[i]) == Some((name, slots[name]));
      q := Produced(columns[i]).value;
    }
  }

  /** The database holds the previous table: its columns in any order, rows and keys within them. */
  ghost predicate Holds(
    db: Db, table: string, previous: seq<Column>, capability: Capability, renamed: RenamedTypes)
  {
    && table in db.tables && DistinctColumns(previous)
    && var t := db.tables[table];
    && var names := StartSlots(previous, capability, renamed).Keys;
    && DistinctNames(t.columns) && NamesOf(t.columns) == names
    && (forall i :: 0 <= i < |t.columns| ==>
          t.columns[i] == StartSlots(previous, capability, renamed)[t.columns[i].name].def)
    && (forall i :: 0 <= i < |t.rows| ==> t.rows[i].Keys <= names)
    && AllIn(t.primaryKey, names)
    && (forall i <- db.indices :: db.indices[i].table == table ==> AllIn(db.indices[i].columns, names))
  }

  lemma HeldIsStage(db: Db, table: string, previous: seq<Column>, capability: Capability, renamed: RenamedTypes)
    requires Holds(db, table, previous, capability, renamed)
    ensures Stage(db, table, StartSlots(previous, capability, renamed), db)
  {
    var slots, t := StartSlots(previous, capability, renamed), db.tables[table];
    forall name | name in slots
      ensures slots[name].source == Some(name) && slots[name].def.name == name
    {
    }
    forall i | 0 <= i < |t.rows|
      ensures t.rows[i] == View(slots, t.rows[i])
    {
    }
    assert db.tables[table := t] == db.tables;
    forall i | i in db.indices
      ensures IndexFollows(slots, table, db.indices[i], db.indices[i])
    {
    }
  }

  /** `name` before and `name'` after name the same column. */
  ghost predicate SameKey(
    previous: seq<Column>, next: seq<Column>, columns: seq<ColumnDiff>, name: string, name': string)
  {
    exists p, q :: Kept(previous, next, columns, p, q) && p.name == name && q.name == name'
  }

  /** `names` and `names'` name the same data, before and after. */
  ghost predicate KeysFollow(
    previous: seq<Column>, next: seq<Column>, columns: seq<ColumnDiff>, names: seq<string>, names': seq<string>)
  {
    |names| == |names'| && forall j :: 0 <= j < |names| ==> SameKey(previous, next, columns, names[j], names'[j])
  }

  lemma FollowsIsKeysFollow(
    s: Setting, previous: seq<Column>, next: seq<Column>, columns: seq<ColumnDiff>, slots: Slots,
    names: seq<string>, names': seq<string>)
    requires Coherent(previous, next, columns) && Lineage(s, previous, columns, |columns|, slots)
    requires Follows(slots, names, names')
    ensures KeysFollow(previous, next, columns, names, names')
  {
    forall j | 0 <= j < |names|
      ensures SameKey(previous, next, columns, names[j], names'[j])
    {
      var q := NextOfSlot(s, previous, next, columns, slots, names'[j]);
      var p := SlotOfNext(s, previous, next, columns, slots, q);
    }
  }

  function ColumnNameSet(columns: seq<Column>): set<string> {
    set c | c in columns :: c.name
  }

  /** The table's columns are the next columns, in some order, each as reached in place. */
  ghost predicate HasNextColumns(
    capability: Capability, renamed: RenamedTypes, next: seq<Column>, columns: seq<ColumnDiff>, t: TableData)
  {
    && DistinctNames(t.columns) && NamesOf(t.columns) == ColumnNameSet(next)
    && (forall def, q | def in t.columns && q in next && def.name == q.name ::
          InPlaceDef(capability, renamed, columns, q, def))
  }

  lemma SlotsAreNext(
    s: Setting, previous: seq<Column>, next: seq<Column>, columns: seq<ColumnDiff>, slots: Slots, rows: seq<Row>,
    t: TableData)
    requires Coherent(previous, next, columns) && Lineage(s, previous, columns, |columns|, slots)
    requires Represents(slots, rows, t) && SlotsOk(slots)
    ensures HasNextColumns(s.capability, s.renamed, next, columns, t)
  {
    forall def, q | def in t.columns && q in next && def.name == q.name
      ensures InPlaceDef(s.capability, s.renamed, columns, q, def)
    {
      var p := SlotOfNext(s, previous, next, columns, slots, q);
      var k :| 0 <= k < |t.columns| && t.columns[k] == def;
    }
    forall q | q in next
      ensures q.name in slots
    {
      var p := SlotOfNext(s, previous, next, columns, slots, q);
    }
    forall name | name in slots
      ensures name in ColumnNameSet(next)
    {
      var q := NextOfSlot(s, previous, next, columns, slots, name);
    }
  }

  /** In-place changes go through exactly when each is allowed where it stands. The table then has
      the next columns, every row is migrated, primary key and indices follow their columns, and
      the rest of the database is as it was. */
  lemma InPlaceReachesNext(s: Setting, previous: seq<Column>, next: seq<Column>, columns: seq<ColumnDiff>)
    requires s.Valid() && Coherent(previous, next, columns)
    requires forall i :: 0 <= i < |previous| ==> previous[i].id.table == s.id
    requires Holds(s.start, s.table, previous, s.capability, s.renamed)
    ensures match Run(ColumnChangeStatements(columns, |columns|, s.schema, s.id, s.capability, s.renamed), s.start)
      case None => !AllAllowed(s, previous, columns, |columns|)
      case Some(after) =>
        && AllAllowed(s, previous, columns, |columns|)
        && ReachedInPlace(s, previous, next, columns, after)
  {
    HeldIsStage(s.start, s.table, previous, s.capability, s.renamed);
    ColumnsRun(s, previous, next, columns, |columns|);
    match Run(ColumnChangeStatements(columns, |columns|, s.schema, s.id, s.capability, s.renamed), s.start)
    case None =>
    case Some(after) =>
      LineageHolds(s, previous, next, columns, |columns|);
      StageReached(s, previous, next, columns, SlotsAfter(s, previous, columns, |columns|), after);
  }

  ghost predicate ReachedInPlace(
    s: Setting, previous: seq<Column>, next: seq<Column>, columns: seq<ColumnDiff>, after: Db)
    requires s.Valid()
  {
    && s.table in after.tables
    && var t, t' := s.start.tables[s.table], after.tables[s.table];
    && after == s.start.(tables := s.start.tables[s.table := t'], indices := after.indices)
    && HasNextColumns(s.capability, s.renamed, next, columns, t')
    && |t'.rows| == |t.rows|
    && (forall i :: 0 <= i < |t.rows| ==> RowMigrates(previous, next, columns, t.rows[i], t'.rows[i]))
    && KeysFollow(previous, next, columns, t.primaryKey, t'.primaryKey)
    && after.indices.Keys == s.start.indices.Keys
    && (forall i <- s.start.indices ::
          var x, x' := s.start.indices[i], after.indices[i];
          && x'.table == x.table && x'.unique == x.unique
          && if x.table == s.table then KeysFollow(previous, next, columns, x.columns, x'.columns) else x' == x)
  }

  lemma StageReached(
    s: Setting, previous: seq<Column>, next: seq<Column>, columns: seq<ColumnDiff>, slots: Slots, after: Db)
    requires s.Valid() && Coherent(previous, next, columns)
    requires Lineage(s, previous, columns, |columns|, slots) && SlotsOk(slots)
    requires Stage(s.start, s.table, slots, after)
    ensures ReachedInPlace(s, previous, next, columns, after)
  {
    var t, t' := s.start.tables[s.table], after.tables[s.table];
    SlotsAreNext(s, previous, next, columns, slots, t.rows, t');
    forall i | 0 <= i < |t.rows|
      ensures RowMigrates(previous, next, columns, t.rows[i], t'.rows[i])
    {
      ViewMigrates(s, previous, next, columns, slots, t.rows[i]);
    }
    FollowsIsKeysFollow(s, previous, next, columns, slots, t.primaryKey, t'.primaryKey);
    forall i | i in s.start.indices
      ensures IndexFollows(slots, s.table, s.start.indices[i], after.indices[i])
      ensures s.start.indices[i].table == s.table
              ==> KeysFollow(previous, next, columns, s.start.indices[i].columns, after.indices[i].columns)
    {
      if s.start.indices[i].table == s.table {
        FollowsIsKeysFollow(s, previous, next, columns, slots, s.start.indices[i].columns, after.indices[i].columns);
      }
    }
  }
}
