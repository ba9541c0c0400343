/** The diff of two schemas' tables, and what it gives the planner. */
module TableDiffing {
  import opened Wrappers
  import opened DbSchema
  import opened MigrationPlan
  import opened WholePlan
  import opened RenameMatching
  import opened RenameHints
  import opened ColumnDiffing
  import opened IndexDiffing

  /** What the diff says about previous table `t`. */
  ghost predicate IsChange(previous: Schema, next: Schema, h: HintMaps, t: nat, d: TableDiff)
    requires t < |previous.tables|
  {
    match TableTarget(previous, next, h, t)
    case None => d == TableDiff.Drop(previous.tables[t])
    case Some(n) =>
      && n < |next.tables|
      && d.Alter? && d.previous == previous.tables[t] && d.next == next.tables[n]
      && IsDiff(h.columns, d.previous.columns, d.next.columns, d.columns)
      && IsIndexDiff(h, d.previous, d.next, d.indices)
  }

  /** A table that became nothing, changed its name or differs in its columns or indices has to be mentioned. */
  ghost predicate HasToChange(previous: Schema, next: Schema, h: HintMaps, t: nat)
    requires t < |previous.tables|
  {
    match TableTarget(previous, next, h, t)
    case None => true
    case Some(n) =>
      n < |next.tables| && (
        || previous.tables[t].name != next.tables[n].name
        || !IsDiff(h.columns, previous.tables[t].columns, next.tables[n].columns, [])
        || !IsIndexDiff(h, previous.tables[t], next.tables[n], []))
  }

  predicate IsNewTable(previous: Schema, next: Schema, h: HintMaps, n: nat) {
    n < |next.tables| && !Taken(h.tables, TableItems(previous.tables), TableItems(next.tables), n)
  }

  /** The changes of previous tables, in their order: entry `k` is about table `from[k]`. */
  ghost predicate AreChanges(
      previous: Schema, next: Schema, h: HintMaps, changes: seq<TableDiff>, from: seq<nat>, n: nat)
    requires n <= |previous.tables|
  {
    && |changes| == |from|
    && (forall k :: 0 <= k < |from| ==> from[k] < n && IsChange(previous, next, h, from[k], changes[k]))
    && (forall k, l :: 0 <= k < l < |from| ==> from[k] < from[l])
    && (forall t :: 0 <= t < n && HasToChange(previous, next, h, t) ==> t in from)
  }

  /** Every table nothing has become, once, in any order. */
  ghost predicate AreCreations(previous: Schema, next: Schema, h: HintMaps, creations: seq<TableDiff>) {
    && (forall k :: 0 <= k < |creations| ==>
          && creations[k].Create? && IsNewTable(previous, next, h, creations[k].table.id)
          && creations[k].table == next.tables[creations[k].table.id])
    && (forall k, l :: 0 <= k < l < |creations| ==> creations[k] != creations[l])
    && (forall n :: 0 <= n < |next.tables| && IsNewTable(previous, next, h, n) ==>
          TableDiff.Create(next.tables[n]) in creations)
  }

  ghost predicate IsTablesDiff(
      previous: Schema, next: Schema, h: HintMaps, diff: seq<TableDiff>, from: seq<nat>)
  {
    && |from| <= |diff|
    && AreChanges(previous, next, h, diff[..|from|], from, |previous.tables|)
    && AreCreations(previous, next, h, diff[|from|..])
  }

  ghost predicate IsComputed(previous: Schema, next: Schema, h: HintMaps, diff: seq<TableDiff>) {
    exists from: seq<nat> :: IsTablesDiff(previous, next, h, diff, from)
  }

  /** Names are distinct and ids are places, in both schemas. */
  predicate SchemasOk(previous: Schema, next: Schema) {
    SchemaOk(previous) && SchemaOk(next) && PlacesOk(previous) && PlacesOk(next)
  }

  /** The diff as it is computed. */
  method Diff(previous: Schema, next: Schema, h: HintMaps) returns (diff: seq<TableDiff>)
    requires SchemasOk(previous, next) && HintsOk(previous, next, h)
    ensures IsComputed(previous, next, h, diff)
  {
    var changes;
    ghost var from;
    changes, from := DiffPrevious(previous, next, h);
    var created := CreatedIds(h.tables, TableItems(previous.tables), TableItems(next.tables));
    IdsArePositions(next);
    var creations := Creations(next, created);
    diff := changes + creations;
    assert diff[..|from|] == changes && diff[|from|..] == creations;
    forall n | 0 <= n < |next.tables| && IsNewTable(previous, next, h, n)
      ensures n in created
    {
      assert TableItems(next.tables)[n].id == n;
    }
    assert IsTablesDiff(previous, next, h, diff, from);
  }

  lemma IdsArePositions(s: Schema)
    requires SchemaOk(s)
    ensures forall id: nat :: HasId(TableItems(s.tables), id) <==> id < |s.tables|
  {
    forall id: nat | id < |s.tables|
      ensures HasId(TableItems(s.tables), id)
    {
      assert ItemsOk(s.tables[id], id) && TableItems(s.tables)[id].id == id;
    }
    forall id: nat | HasId(TableItems(s.tables), id)
      ensures id < |s.tables|
    {
      var k :| 0 <= k < |s.tables| && TableItems(s.tables)[k].id == id;
      assert ItemsOk(s.tables[k], k);
    }
  }

  method DiffPrevious(previous: Schema, next: Schema, h: HintMaps)
      returns (changes: seq<TableDiff>, ghost from: seq<nat>)
    requires SchemasOk(previous, next) && HintsOk(previous, next, h)
    ensures AreChanges(previous, next, h, changes, from, |previous.tables|)
  {
    changes, from := [], [];
    NoChangesYet(previous, next, h);
    for t := 0 to |previous.tables|
      invariant AreChanges(previous, next, h, changes, from, t)
    {
      var change := DiffTable(previous, next, h, t);
      if change.Some? {
        OneMoreChange(previous, next, h, changes, from, t, change.value);
        changes, from := changes + [change.value], from + [t];
      } else {
        NoMoreChange(previous, next, h, changes, from, t);
      }
    }
  }

  lemma NoChangesYet(previous: Schema, next: Schema, h: HintMaps)
    ensures AreChanges(previous, next, h, [], [], 0)
  {
  }

  lemma NoMoreChange(previous: Schema, next: Schema, h: HintMaps, changes: seq<TableDiff>, from: seq<nat>, t: nat)
    requires t < |previous.tables| && AreChanges(previous, next, h, changes, from, t)
    requires !HasToChange(previous, next, h, t)
    ensures AreChanges(previous, next, h, changes, from, t + 1)
  {
  }

  lemma OneMoreChange(
      previous: Schema, next: Schema, h: HintMaps, changes: seq<TableDiff>, from: seq<nat>, t: nat, d: TableDiff)
    requires t < |previous.tables| && AreChanges(previous, next, h, changes, from, t)
    requires IsChange(previous, next, h, t, d)
    ensures AreChanges(previous, next, h, changes + [d], from + [t], t + 1)
  {
    var more := from + [t];
    assert more[|from|] == t;
    forall u | 0 <= u < t + 1 && HasToChange(previous, next, h, u)
      ensures u in more
    {
      if u < t {
        assert u in from;
      }
    }
  }

  /** What one previous table has become, if that is worth a statement. */
  method DiffTable(previous: Schema, next: Schema, h: HintMaps, t: nat) returns (change: Option<TableDiff>)
    requires SchemasOk(previous, next) && HintsOk(previous, next, h) && t < |previous.tables|
    ensures change.Some? ==> IsChange(previous, next, h, t, change.value)
    ensures change.None? ==> !HasToChange(previous, next, h, t)
  {
    var p := previous.tables[t];
    assert WithinOk(previous, next, h, t);
    var target := Target(h.tables, TableItems(next.tables), TableItems(previous.tables)[t]);
    if target == None {
      return Some(TableDiff.Drop(p));
    }
    var q := next.tables[target.value];
    assert ItemsOk(q, target.value);
    ItemsDistinct(q.columns);
    var columns := ColumnDiffing.Diff(h.columns, p.columns, q.columns);
    PairedIndices(previous, next, h, t, target.value);
    var indices := IndexDiffing.Diff(h, p, q);
    if p.name != q.name || columns != [] || indices != [] {
      change := Some(TableDiff.Alter(p, q, columns, indices));
    } else {
      change := None;
    }
  }

  lemma PairedIndices(previous: Schema, next: Schema, h: HintMaps, t: nat, n: nat)
    requires SchemasOk(previous, next) && HintsOk(previous, next, h) && t < |previous.tables|
    requires TableTarget(previous, next, h, t) == Some(n)
    ensures n < |next.tables| && IndicesPaired(h, previous.tables[t], next.tables[n])
  {
    assert WithinOk(previous, next, h, t);
    assert ItemsOk(previous.tables[t], t) && ItemsOk(next.tables[n], n);
    assert TablePlacesOk(previous.tables[t], t) && TablePlacesOk(next.tables[n], n);
  }

  method Creations(next: Schema, created: set<nat>) returns (creations: seq<TableDiff>)
    requires SchemaOk(next) && forall id <- created :: id < |next.tables|
    ensures forall k :: 0 <= k < |creations| ==>
      && creations[k].Create? && creations[k].table.id in created && creations[k].table.id < |next.tables|
      && creations[k].table == next.tables[creations[k].table.id]
    ensures forall k, l :: 0 <= k < l < |creations| ==> creations[k] != creations[l]
    ensures forall n <- created :: TableDiff.Create(next.tables[n]) in creations
  {
    creations := [];
    var ids := created;
    while ids != {}
      invariant ids <= created
      invariant forall k :: 0 <= k < |creations| ==>
        && creations[k].Create? && creations[k].table.id in created - ids && creations[k].table.id < |next.tables|
        && creations[k].table == next.tables[creations[k].table.id]
      invariant forall k, l :: 0 <= k < l < |creations| ==> creations[k] != creations[l]
      invariant forall n <- created - ids :: TableDiff.Create(next.tables[n]) in creations
      decreases ids
    {
      var n :| n in ids;
      assert ItemsOk(next.tables[n], n);
      ids := ids - {n};
      creations := creations + [TableDiff.Create(next.tables[n])];
    }
  }

  // ---- What the planner can rely on ----

  lemma ChangeSound(
      previous: Schema, next: Schema, h: HintMaps, types: seq<TypeDiff>, diff: seq<TableDiff>, t: nat, d: TableDiff)
    requires SchemaOk(previous) && SchemaOk(next) && HintsOk(previous, next, h) && t < |previous.tables|
    requires IsChange(previous, next, h, t, d)
    ensures d.Alter? ==> AlterSound(d, SchemaDiff(previous, next, types, diff))
    ensures !d.Create? && ConsumedTable(d) == Some(previous.tables[t].name)
  {
    assert ItemsOk(previous.tables[t], t);
    if d.Alter? {
      CollectedHintsAreCoherent(previous, next, h, t, TableTarget(previous, next, h, t).value, d.columns);
    }
  }

  lemma NamesApart(s: Schema, t: nat, u: nat)
    requires SchemaOk(s) && t < u < |s.tables|
    ensures s.tables[t].name != s.tables[u].name
  {
    assert TableItems(s.tables)[t].name != TableItems(s.tables)[u].name;
  }

  /** Under the hints the loop collects, the computed diff has all the migration results ask of a diff. */
  lemma DiffIsSound(
      previous: Schema, next: Schema, h: HintMaps, types: seq<TypeDiff>, diff: seq<TableDiff>)
    requires SchemaOk(previous) && SchemaOk(next) && HintsOk(previous, next, h)
    requires IsComputed(previous, next, h, diff)
    ensures DiffSound(SchemaDiff(previous, next, types, diff))
  {
    var from :| IsTablesDiff(previous, next, h, diff, from);
    forall i | 0 <= i < |diff|
      ensures diff[i].Alter? ==> AlterSound(diff[i], SchemaDiff(previous, next, types, diff))
      ensures diff[i].Create? ==>
        diff[i].table.id < |next.tables| && next.tables[diff[i].table.id] == diff[i].table
    {
      DiffEntry(previous, next, h, types, diff, from, i);
    }
    forall i, j | 0 <= i < j < |diff| && ConsumedTable(diff[i]).Some?
      ensures ConsumedTable(diff[i]) != ConsumedTable(diff[j])
    {
      DiffEntry(previous, next, h, types, diff, from, i);
      DiffEntry(previous, next, h, types, diff, from, j);
      if j < |from| {
        NamesApart(previous, from[i], from[j]);
      }
    }
  }

  /** A table the plan rebuilds, whose next version stands past the previous schema's last table. */
  predicate RebuiltPastEnd(d: TableDiff, previous: Schema, capability: Capability, renamed: RenamedTypes) {
    d.Alter? && NeedsRecreation(d.columns, capability, renamed) && d.next.id >= |previous.tables|
  }

  /** But planning may fail, for the id of a table's next version is looked up in the previous schema:
      it does exactly when a table to be rebuilt stands past that schema's end. So it never does where
      columns are altered in place, nor where there are no more tables than before. */
  lemma PlannableExactly(
      previous: Schema, next: Schema, h: HintMaps, types: seq<TypeDiff>, diff: seq<TableDiff>,
      capability: Capability)
    requires SchemaOk(previous) && SchemaOk(next) && HintsOk(previous, next, h)
    requires IsComputed(previous, next, h, diff)
    ensures Plannable(SchemaDiff(previous, next, types, diff), capability)
       <==> forall d <- diff :: !RebuiltPastEnd(d, previous, capability, RenamedTypesOf(types))
    ensures capability.alterColumnType || |next.tables| <= |previous.tables| ==>
      Plannable(SchemaDiff(previous, next, types, diff), capability)
  {
    var from :| IsTablesDiff(previous, next, h, diff, from);
    forall i | 0 <= i < |diff|
      ensures diff[i].Alter? ==> diff[i].previous.id < |previous.tables| && diff[i].next.id < |next.tables|
    {
      EntryIds(previous, next, h, diff, from, i);
    }
    var renamed := RenamedTypesOf(types);
    forall i | 0 <= i < |diff|
      ensures IdsInRange(diff[i], previous, capability, renamed)
         <==> !RebuiltPastEnd(diff[i], previous, capability, renamed)
    {
    }
  }

  lemma EntryIds(
      previous: Schema, next: Schema, h: HintMaps, diff: seq<TableDiff>, from: seq<nat>, i: nat)
    requires SchemaOk(previous) && SchemaOk(next) && IsTablesDiff(previous, next, h, diff, from) && i < |diff|
    ensures diff[i].Alter? ==> diff[i].previous.id < |previous.tables| && diff[i].next.id < |next.tables|
  {
    if i < |from| {
      assert diff[..|from|][i] == diff[i];
      assert ItemsOk(previous.tables[from[i]], from[i]);
      if diff[i].Alter? {
        var n := TableTarget(previous, next, h, from[i]).value;
        assert ItemsOk(next.tables[n], n);
      }
    } else {
      assert diff[|from|..][i - |from|] == diff[i];
    }
  }

  lemma DiffEntry(
      previous: Schema, next: Schema, h: HintMaps, types: seq<TypeDiff>, diff: seq<TableDiff>, from: seq<nat>, i: nat)
    requires SchemaOk(previous) && SchemaOk(next) && HintsOk(previous, next, h)
    requires IsTablesDiff(previous, next, h, diff, from) && i < |diff|
    ensures diff[i].Alter? ==> AlterSound(diff[i], SchemaDiff(previous, next, types, diff))
    ensures diff[i].Create? ==> diff[i].table.id < |next.tables| && next.tables[diff[i].table.id] == diff[i].table
    ensures if i < |from|
      then from[i] < |previous.tables| && ConsumedTable(diff[i]) == Some(previous.tables[from[i]].name)
      else ConsumedTable(diff[i]) == None
  {
    if i < |from| {
      assert diff[..|from|][i] == diff[i];
      ChangeSound(previous, next, h, types, diff, from[i], diff[i]);
    } else {
      assert diff[|from|..][i - |from|] == diff[i];
    }
  }

  /** A new table listed first pushes the next one's id out of the previous schema; where that one
      changes a column's type, the diff cannot be planned for SQLite, though it can for PostgreSQL. */
  lemma NextIdOutOfRange(diff: seq<TableDiff>)
    requires IsComputed(SmallPrevious(), SmallNext(), HintMaps(map[], map[], map[]), diff)
    ensures SchemasOk(SmallPrevious(), SmallNext())
    ensures HintsOk(SmallPrevious(), SmallNext(), HintMaps(map[], map[], map[]))
    ensures !Plannable(SchemaDiff(SmallPrevious(), SmallNext(), [], diff), SQLITE)
    ensures Plannable(SchemaDiff(SmallPrevious(), SmallNext(), [], diff), POSTGRESQL)
  {
    var previous, next, h := SmallPrevious(), SmallNext(), HintMaps(map[], map[], map[]);
    SmallSchemasOk();
    NoHintsOk(previous, next);
    var d := SmallEntry(diff);
    PlannableExactly(previous, next, h, [], diff, SQLITE);
    PlannableExactly(previous, next, h, [], diff, POSTGRESQL);
    SmallDiffRetypes(d.columns, RenamedTypesOf([]));
    assert RebuiltPastEnd(d, previous, SQLITE, RenamedTypesOf([]));
  }

  lemma SmallEntry(diff: seq<TableDiff>) returns (d: TableDiff)
    requires IsComputed(SmallPrevious(), SmallNext(), HintMaps(map[], map[], map[]), diff)
    ensures d in diff && d.Alter? && d.next.id == 1
    ensures IsDiff(map[], SmallPrevious().tables[0].columns, SmallNext().tables[1].columns, d.columns)
  {
    var previous, next, h := SmallPrevious(), SmallNext(), HintMaps(map[], map[], map[]);
    SmallTarget();
    SmallHasToChange();
    var from :| IsTablesDiff(previous, next, h, diff, from);
    assert 0 in from;
    var k :| 0 <= k < |from| && from[k] == 0;
    d := diff[k];
    assert diff[..|from|][k] == d;
    assert IsChange(previous, next, h, 0, d);
  }

  lemma SmallTarget()
    ensures TableTarget(SmallPrevious(), SmallNext(), HintMaps(map[], map[], map[]), 0) == Some(1)
  {
    assert TableItems(SmallNext().tables)[1] == Item(1, "b");
  }

  lemma SmallHasToChange()
    ensures HasToChange(SmallPrevious(), SmallNext(), HintMaps(map[], map[], map[]), 0)
  {
    SmallTarget();
    if IsDiff(map[], SmallPrevious().tables[0].columns, SmallNext().tables[1].columns, []) {
      SmallDiffRetypes([], []);
    }
  }

  lemma SmallDiffRetypes(columns: seq<ColumnDiff>, renamed: RenamedTypes)
    requires IsDiff(map[], SmallPrevious().tables[0].columns, SmallNext().tables[1].columns, columns)
    ensures columns != [] && NeedsRecreation(columns, SQLITE, renamed)
  {
    var x, y := SmallColumn(0, Plain("integer")), SmallColumn(1, Text);
    SmallChangeOf();
    assert Changes(map[], [x], [y], 0) == [];
    assert Changes(map[], [x], [y], 1) == [ColumnDiff.Alter(x, y)];
    assert columns[0] == ColumnDiff.Alter(x, y);
    assert ForcesRecreation(columns[0], SQLITE, renamed);
  }

  lemma SmallChangeOf()
    ensures
      var x, y := SmallColumn(0, Plain("integer")), SmallColumn(1, Text);
      ChangeOf(map[], [y], x) == [ColumnDiff.Alter(x, y)]
  {
    var x, y := SmallColumn(0, Plain("integer")), SmallColumn(1, Text);
    assert ColumnItems([y])[0] == Item(ColumnId(1, 0), "x");
    assert TargetOf(map[], [y], x) == Some(ColumnId(1, 0));
    assert NextOf(map[], [y], x) == Some(y);
  }

  function SmallColumn(table: nat, ty: Type): Column {
    Column(ColumnId(table, 0), "x", ty, false, false, false, false)
  }

  function SmallPrevious(): Schema {
    Schema([Table(0, "b", [SmallColumn(0, Plain("integer"))], [], [])])
  }

  function SmallNext(): Schema {
    Schema([
      Table(0, "a", [SmallColumn(0, Plain("integer"))], [], []),
      Table(1, "b", [SmallColumn(1, Text)], [], [])])
  }

  lemma SmallSchemasOk()
    ensures SchemasOk(SmallPrevious(), SmallNext())
  {
    var next := SmallNext();
    assert TableItems(next.tables)[0].name == "a" && TableItems(next.tables)[1].name == "b";
    assert ItemsOk(next.tables[0], 0) && ItemsOk(next.tables[1], 1);
    assert ItemsOk(SmallPrevious().tables[0], 0);
  }
}
