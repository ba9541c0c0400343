/** The two ways of changing a table's columns compared: on changes both can make, they leave the
    same contents; what the rebuild alone loses is the table's indices. */
module MigrationStrategies {
  import opened Wrappers
  import opened DbSchema
  import opened MigrationPlan
  import opened Database
  import opened ColumnLineage
  import opened TableInPlace
  import opened InPlaceMigration
  import opened InPlaceConditions
  import opened KeyColumns
  import opened TableRebuild

  /** The database emulates the column's enum with a text column and a check. */
  predicate Emulated(c: Column, capability: Capability) {
    c.storageTy.Enum? && !capability.nativeEnum
  }

  /** The column's type keeps its name: no rename takes it away. */
  predicate TypeStays(c: Column, capability: Capability, renamed: RenamedTypes) {
    StartDef(c, capability, renamed) == DefOf(c, capability)
  }

  predicate TypesStay(columns: seq<Column>, capability: Capability, renamed: RenamedTypes) {
    forall i :: 0 <= i < |columns| ==> TypeStays(columns[i], capability, renamed)
  }

  /** Altered in place, a column ends as `CREATE TABLE` would define it exactly when its type is kept, and
      keeps its name, or is changed and neither version is an emulated enum. */
  lemma InPlaceDefIsNext(capability: Capability, renamed: RenamedTypes, p: Column, q: Column)
    requires !OnType(p, q, capability, renamed)
    ensures AlteredDef(capability, renamed, p, q) == DefOf(q, capability)
       <==> if p.storageTy == q.storageTy then TypeStays(p, capability, renamed)
            else !Emulated(p, capability) && !Emulated(q, capability)
  {
  }

  /** A backend that emulates enums alters no column's type in place, and has no names for them. Every SQL
      backend is like that. */
  predicate DefinesAlike(capability: Capability) {
    && (capability.nativeEnum || !capability.alterColumnType)
    && (capability.namedEnumTypes ==> capability.nativeEnum)
  }

  lemma BackendsDefineAlike()
    ensures DefinesAlike(SQLITE) && DefinesAlike(POSTGRESQL) && DefinesAlike(MYSQL)
  {
  }

  /** So on those a change made in place, and not left to a type, ends as `CREATE TABLE` would have it. */
  lemma InPlaceDefsFollow(
    columns: seq<ColumnDiff>, capability: Capability, renamed: RenamedTypes, p: Column, q: Column)
    requires DefinesAlike(capability) && !NeedsRecreation(columns, capability, renamed)
    requires ColumnDiff.Alter(p, q) in columns && !OnType(p, q, capability, renamed)
    requires TypeStays(q, capability, renamed)
    ensures AlteredDef(capability, renamed, p, q) == DefOf(q, capability)
  {
    var i :| 0 <= i < |columns| && columns[i] == ColumnDiff.Alter(p, q);
    if !capability.alterColumnType {
      assert !ForcesRecreation(columns[i], capability, renamed);
    }
    InPlaceDefIsNext(capability, renamed, p, q);
  }

  /** The same table contents: the same columns in some order, and the same rows. */
  predicate SameContents(a: TableData, b: TableData) {
    && (forall def <- a.columns :: def in b.columns)
    && (forall def <- b.columns :: def in a.columns)
    && a.rows == b.rows
  }

  /** Only adds, drops and renames: no type, nullability or auto-increment change. */
  predicate NoTypeChange(columns: seq<ColumnDiff>) {
    forall i :: 0 <= i < |columns| && columns[i].Alter? ==>
      !ChangesBetween(columns[i].previous, columns[i].next).HasTypeChange()
  }

  lemma TightenedFilled(s: Setting, previous: seq<Column>, next: seq<Column>, columns: seq<ColumnDiff>, i: nat, k: nat)
    requires s.Valid() && Coherent(previous, next, columns) && AllAllowed(s, previous, columns, |columns|)
    requires i < |columns| && columns[i].Alter? && columns[i].previous.nullable && !columns[i].next.nullable
    requires k < |s.Rows()|
    ensures columns[i].previous.name in s.Rows()[k]
  {
    LineageBefore(s, previous, next, columns, |columns|, i);
    AllowedAt(s, previous, next, columns, |columns|, i);
    assert columns[i].previous.name in View(SlotsAfter(s, previous, columns, i), s.Rows()[k]);
  }

  lemma FilledColumn(s: Setting, previous: seq<Column>, next: seq<Column>, columns: seq<ColumnDiff>, k: nat, q: Column)
    returns (p: Column)
    requires s.Valid() && Coherent(previous, next, columns) && AllAllowed(s, previous, columns, |columns|)
    requires k < |s.Rows()| && Fits(DefsOf(previous, s.capability), s.Rows()[k])
    requires q in next && !q.nullable
    ensures Kept(previous, next, columns, p, q) && p.name in s.Rows()[k]
  {
    NoAddOverRows(s, previous, next, columns, q);
    var origin := LineageOf(previous, next, columns, q);
    p := origin.value;
    if p.nullable {
      var i := AlterOfNullable(previous, next, columns, p, q);
      TightenedFilled(s, previous, next, columns, i, k);
    } else {
      FitsAt(previous, s.capability, s.Rows()[k], p);
    }
  }

  lemma AlterOfNullable(previous: seq<Column>, next: seq<Column>, columns: seq<ColumnDiff>, p: Column, q: Column)
    returns (i: nat)
    requires Coherent(previous, next, columns) && Kept(previous, next, columns, p, q) && p.nullable && !q.nullable
    ensures i < |columns| && columns[i] == ColumnDiff.Alter(p, q)
  {
    i :| 0 <= i < |columns| && columns[i] == ColumnDiff.Alter(p, q);
  }

  lemma FitsAt(previous: seq<Column>, capability: Capability, row: Row, p: Column)
    requires p in previous && !p.nullable && Fits(DefsOf(previous, capability), row)
    ensures p.name in row
  {
    var m :| 0 <= m < |previous| && previous[m] == p;
    assert DefsOf(previous, capability)[m].name in row;
  }

  /** Where the changes are allowed in place, the rows fill the next columns: a rebuild would do too. */
  lemma AllowedFills(s: Setting, previous: seq<Column>, next: seq<Column>, columns: seq<ColumnDiff>)
    requires s.Valid() && Coherent(previous, next, columns) && AllAllowed(s, previous, columns, |columns|)
    requires forall i :: 0 <= i < |s.Rows()| ==> Fits(DefsOf(previous, s.capability), s.Rows()[i])
    ensures AllFilled(previous, next, columns, s.Rows())
  {
    forall k | 0 <= k < |s.Rows()|
      ensures NextFilled(previous, next, columns, s.Rows()[k])
    {
      forall q | q in next && !q.nullable
        ensures exists p :: Kept(previous, next, columns, p, q) && p.name in s.Rows()[k]
      {
        var p := FilledColumn(s, previous, next, columns, k, q);
      }
    }
  }

  /** With a row in the table, a column that must not be NULL was not added in place. */
  lemma NoAddOverRows(s: Setting, previous: seq<Column>, next: seq<Column>, columns: seq<ColumnDiff>, q: Column)
    requires s.Valid() && Coherent(previous, next, columns) && AllAllowed(s, previous, columns, |columns|)
    requires |s.Rows()| > 0 && !q.nullable
    ensures ColumnDiff.Add(q) !in columns
  {
    forall i | 0 <= i < |columns|
      ensures columns[i] != ColumnDiff.Add(q)
    {
      AllowedAt(s, previous, next, columns, |columns|, i);
    }
  }

  lemma {:induction false} AllowedAt(
    s: Setting, previous: seq<Column>, next: seq<Column>, columns: seq<ColumnDiff>, n: nat, i: nat)
    requires s.Valid() && Coherent(previous, next, columns) && i < n <= |columns|
    requires AllAllowed(s, previous, columns, n)
    ensures AllAllowed(s, previous, columns, i)
    ensures Allowed(s, SlotsAfter(s, previous, columns, i), columns[i])
  {
    if i < n - 1 {
      AllowedAt(s, previous, next, columns, n - 1, i);
    }
  }

  lemma LineageBefore(s: Setting, previous: seq<Column>, next: seq<Column>, columns: seq<ColumnDiff>, n: nat, i: nat)
    requires s.Valid() && Coherent(previous, next, columns) && i < n <= |columns|
    requires AllAllowed(s, previous, columns, n)
    ensures AsStarted(s, SlotsAfter(s, previous, columns, i), columns[i])
  {
    AllowedAt(s, previous, next, columns, n, i);
    LineageHolds(s, previous, next, columns, i);
    if Consumed(columns[i]).Some? {
      ConsumedUntouched(previous, next, columns, i);
    }
  }

  lemma NextDefs(
    s: Setting, previous: seq<Column>, next: seq<Column>, columns: seq<ColumnDiff>, t: TableData, def: ColumnDef)
    requires Coherent(previous, next, columns) && NoTypeChange(columns)
    requires TypesStay(next, s.capability, s.renamed)
    requires HasNextColumns(s.capability, s.renamed, next, columns, t)
    ensures def in t.columns <==> def in DefsOf(next, s.capability)
  {
    if def in t.columns {
      assert def.name in NamesOf(t.columns);
      var q :| q in next && q.name == def.name;
      InPlaceDefOfNext(s, previous, next, columns, q, def);
      var k :| 0 <= k < |next| && next[k] == q;
      assert DefsOf(next, s.capability)[k] == def;
    }
    if def in DefsOf(next, s.capability) {
      var k :| 0 <= k < |next| && DefsOf(next, s.capability)[k] == def;
      assert next[k] in next && next[k].name in ColumnNameSet(next);
      var m :| 0 <= m < |t.columns| && t.columns[m].name == def.name;
      InPlaceDefOfNext(s, previous, next, columns, next[k], t.columns[m]);
    }
  }

  lemma InPlaceDefOfNext(
    s: Setting, previous: seq<Column>, next: seq<Column>, columns: seq<ColumnDiff>, q: Column, def: ColumnDef)
    requires NoTypeChange(columns) && InPlaceDef(s.capability, s.renamed, columns, q, def)
    requires q in next && TypesStay(next, s.capability, s.renamed)
    ensures def == DefOf(q, s.capability)
  {
    assert TypeStays(q, s.capability, s.renamed);
    if exists p :: ColumnDiff.Alter(p, q) in columns {
      var p :| ColumnDiff.Alter(p, q) in columns && def == AlteredDef(s.capability, s.renamed, p, q);
      var i :| 0 <= i < |columns| && columns[i] == ColumnDiff.Alter(p, q);
      OnlyNameChanges(s.capability, s.renamed, p, q);
    }
  }

  /** Altered in its name at most, a column ends as its next version would have started. */
  lemma OnlyNameChanges(capability: Capability, renamed: RenamedTypes, p: Column, q: Column)
    requires !ChangesBetween(p, q).HasTypeChange()
    ensures AlteredDef(capability, renamed, p, q) == StartDef(q, capability, renamed)
  {
    assert p.storageTy == q.storageTy && p.nullable == q.nullable && p.autoIncrement == q.autoIncrement;
  }

  /** On adds, drops and renames, where nothing stands in the way in place, the rebuild goes through too,
      and both leave the same contents; and the same key exactly when the kept columns map the old key to
      the next one. */
  lemma StrategiesAgree(s: Setting, previous: Table, next: Table, columns: seq<ColumnDiff>)
    requires s.Valid() && previous.id == s.id && NoTypeChange(columns)
    requires RebuildReady(s.schema, previous, next, columns, s.start)
    requires forall i :: 0 <= i < |previous.columns| ==> previous.columns[i].id.table == s.id
    requires Holds(s.start, s.table, previous.columns, s.capability, s.renamed)
    requires forall i :: 0 <= i < |s.Rows()| ==> Fits(DefsOf(previous.columns, s.capability), s.Rows()[i])
    requires TypesStay(next.columns, s.capability, s.renamed)
    requires AllUnhindered(s, previous.columns, columns, |columns|)
    ensures
      var inPlace := Run(
        ColumnChangeStatements(columns, |columns|, s.schema, s.id, s.capability, s.renamed), s.start);
      var rebuilt := Run(RecreationStatements(s.schema, previous, next, columns, s.capability), s.start);
      && inPlace.Some? && rebuilt.Some? && s.table in inPlace.value.tables && s.table in rebuilt.value.tables
      && SameContents(inPlace.value.tables[s.table], rebuilt.value.tables[s.table])
      && (Some(s.start.tables[s.table].primaryKey) == ColumnNames(previous.primaryKey, previous.columns) ==>
            (inPlace.value.tables[s.table].primaryKey == rebuilt.value.tables[s.table].primaryKey
             <==> IdsKept(previous.columns, next.columns, columns, previous.primaryKey, next.primaryKey)))
  {
    AllowedExactly(s, previous.columns, next.columns, columns, |columns|);
    InPlaceReachesNext(s, previous.columns, next.columns, columns);
    AllowedFills(s, previous.columns, next.columns, columns);
    RebuildReachesNext(s.schema, previous, next, columns, s.capability, s.start);
    var inPlace := Run(
      ColumnChangeStatements(columns, |columns|, s.schema, s.id, s.capability, s.renamed), s.start).value;
    var rebuilt := Run(RecreationStatements(s.schema, previous, next, columns, s.capability), s.start).value;
    SameOutcome(s, previous, next, columns, inPlace.tables[s.table], rebuilt.tables[s.table]);
    SameKeyExactly(
      previous, next, columns, s.start.tables[s.table].primaryKey, inPlace.tables[s.table].primaryKey,
      rebuilt.tables[s.table].primaryKey);
  }

  lemma SameKeyExactly(
    previous: Table, next: Table, columns: seq<ColumnDiff>, start: seq<string>, inPlace: seq<string>,
    rebuilt: seq<string>)
    requires Coherent(previous.columns, next.columns, columns)
    requires KeysFollow(previous.columns, next.columns, columns, start, inPlace)
    requires Some(rebuilt) == ColumnNames(next.primaryKey, next.columns)
    ensures Some(start) == ColumnNames(previous.primaryKey, previous.columns) ==>
      (inPlace == rebuilt
       <==> IdsKept(previous.columns, next.columns, columns, previous.primaryKey, next.primaryKey))
  {
    if Some(start) == ColumnNames(previous.primaryKey, previous.columns) {
      FollowedNames(
        previous.columns, next.columns, columns, previous.primaryKey, next.primaryKey, start, inPlace);
    }
  }

  lemma SameOutcome(s: Setting, previous: Table, next: Table, columns: seq<ColumnDiff>, a: TableData, b: TableData)
    requires s.Valid() && NoTypeChange(columns) && Coherent(previous.columns, next.columns, columns)
    requires TypesStay(next.columns, s.capability, s.renamed)
    requires HasNextColumns(s.capability, s.renamed, next.columns, columns, a) && |a.rows| == |s.Rows()|
    requires forall i :: 0 <= i < |s.Rows()| ==>
      RowMigrates(previous.columns, next.columns, columns, s.Rows()[i], a.rows[i])
    requires IsNextTable(previous, next, columns, s.capability, s.start.tables[s.table], b)
    ensures SameContents(a, b)
  {
    forall def: ColumnDef
      ensures def in a.columns <==> def in b.columns
    {
      NextDefs(s, previous.columns, next.columns, columns, a, def);
    }
    forall i | 0 <= i < |s.Rows()|
      ensures a.rows[i] == b.rows[i]
    {
      RowMigratesUnique(previous.columns, next.columns, columns, s.Rows()[i], a.rows[i], b.rows[i]);
    }
  }
}
