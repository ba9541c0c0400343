/** From two schemas to a migrated database: the diff under the collected hints, planned and run. */
module GeneratedMigration {
  import opened Wrappers
  import opened DbSchema
  import opened MigrationPlan
  import opened Database
  import opened DatabaseInvariant
  import opened ColumnLineage
  import opened InPlaceMigration
  import opened WholePlan
  import opened RenameMatching
  import opened RenameHints
  import opened ColumnDiffing
  import opened IndexDiffing
  import opened TableDiffing
  import opened TypeDiffing
  import opened TypeCatalogue
  import opened MigrationStrategies
  import opened NextTables
  import opened KeyColumns

  /** The database holds every table of the schema, with its columns in any order. */
  ghost predicate HoldsSchema(s: Schema, capability: Capability, db: Db) {
    DbOk(db) && forall t :: 0 <= t < |s.tables| ==> HoldsTable(s.tables[t], capability, db)
  }

  ghost predicate HoldsTable(t: Table, capability: Capability, db: Db) {
    t.name in db.tables && ColumnsAre(db.tables[t.name], t.columns, capability, [])
  }

  /** Two schemas, the hints between them, the diff computed from them and the plan made of it. */
  datatype Generated = Generated(
    previous: Schema, next: Schema, hints: HintMaps, types: seq<TypeDiff>, tables: seq<TableDiff>,
    capability: Capability)
  {
    function Diff(): SchemaDiff {
      SchemaDiff(previous, next, types, tables)
    }

    function Renamed(): RenamedTypes {
      RenamedTypesOf(types)
    }

    /** What generation starts from and computes; and that no look-up fails while it is planned. */
    ghost predicate Sound() {
      && SchemasOk(previous, next) && HintsOk(previous, next, hints)
      && IsComputed(previous, next, hints, tables) && Plannable(Diff(), capability)
    }

    /** The types' diff is the computed one too; what it does not see, an enum behind two lists, is not there
        where enum types have names. */
    ghost predicate TypesSound() {
      TypesComputed(previous, next, types) && (capability.namedEnumTypes ==> FlatEnums(next))
    }

    /** The database between the types' statements and the tables'. */
    function Typed(start: Db): Db {
      AsTyped(start, capability, Renamed())
    }

    function Target(t: nat): Option<nat>
      requires t < |previous.tables|
    {
      TableTarget(previous, next, hints, t)
    }

    /** The column changes the diff lists for previous table `t`: none if it does not mention it. */
    function Columns(t: nat): seq<ColumnDiff>
      requires t < |previous.tables|
    {
      match EntryOf(tables, previous.tables[t])
      case None => []
      case Some(d) => if d.Alter? then d.columns else []
    }

    /** The index changes it lists for it. */
    function Indices(t: nat): seq<IndexDiff>
      requires t < |previous.tables|
    {
      match EntryOf(tables, previous.tables[t])
      case None => []
      case Some(d) => if d.Alter? then d.indices else []
    }

    predicate Rebuilt(t: nat)
      requires t < |previous.tables|
    {
      NeedsRecreation(Columns(t), capability, Renamed())
    }
  }

  /** The entry that alters table `p`, if any. */
  function EntryOf(tables: seq<TableDiff>, p: Table): Option<TableDiff> {
    if tables == [] then None
    else if tables[0].Alter? && tables[0].previous == p then Some(tables[0])
    else EntryOf(tables[1..], p)
  }

  lemma {:induction false} EntryIs(tables: seq<TableDiff>, p: Table, k: nat)
    requires k < |tables| && tables[k].Alter? && tables[k].previous == p
    requires forall i :: 0 <= i < |tables| && i != k && tables[i].Alter? ==> tables[i].previous != p
    ensures EntryOf(tables, p) == Some(tables[k])
  {
    if k > 0 {
      EntryIs(tables[1..], p, k - 1);
    }
  }

  lemma {:induction false} NoEntry(tables: seq<TableDiff>, p: Table)
    requires forall i :: 0 <= i < |tables| && tables[i].Alter? ==> tables[i].previous != p
    ensures EntryOf(tables, p) == None
  {
    if tables != [] {
      NoEntry(tables[1..], p);
    }
  }

  /** The entry about table `from[k]` is the only one that alters it. */
  lemma ListedEntry(g: Generated, from: seq<nat>, k: nat)
    requires g.Sound() && IsTablesDiff(g.previous, g.next, g.hints, g.tables, from) && k < |from|
    ensures from[k] < |g.previous.tables|
    ensures g.tables[k].Alter? ==> EntryOf(g.tables, g.previous.tables[from[k]]) == Some(g.tables[k])
  {
    EntryAbout(g, from, k);
    if g.tables[k].Alter? {
      forall i | 0 <= i < |g.tables| && i != k && g.tables[i].Alter?
        ensures g.tables[i].previous != g.previous.tables[from[k]]
      {
        OtherEntry(g, from, i, from[k]);
        assert i < |from| ==> from[i] != from[k];
      }
      EntryIs(g.tables, g.previous.tables[from[k]], k);
    }
  }

  lemma OtherEntry(g: Generated, from: seq<nat>, i: nat, t: nat)
    requires g.Sound() && IsTablesDiff(g.previous, g.next, g.hints, g.tables, from) && i < |g.tables|
    requires t < |g.previous.tables| && (i < |from| ==> from[i] != t)
    ensures g.tables[i].Alter? ==> g.tables[i].previous != g.previous.tables[t]
  {
    if i < |from| {
      EntryAbout(g, from, i);
      NamesDiffer(g.previous, from[i], t);
    } else {
      EntryCreates(g, from, i);
    }
  }

  lemma UnlistedEntry(g: Generated, from: seq<nat>, t: nat)
    requires g.Sound() && IsTablesDiff(g.previous, g.next, g.hints, g.tables, from)
    requires t < |g.previous.tables| && t !in from
    ensures EntryOf(g.tables, g.previous.tables[t]) == None
  {
    forall i | 0 <= i < |g.tables| && g.tables[i].Alter?
      ensures g.tables[i].previous != g.previous.tables[t]
    {
      assert i < |from| ==> from[i] in from;
      OtherEntry(g, from, i, t);
    }
    NoEntry(g.tables, g.previous.tables[t]);
  }

  /** What the diff lists for a table that stays is coherent. */
  lemma ColumnsCoherent(g: Generated, t: nat)
    requires g.Sound() && t < |g.previous.tables| && g.Target(t).Some?
    ensures g.Target(t).value < |g.next.tables|
    ensures Coherent(g.previous.tables[t].columns, g.next.tables[g.Target(t).value].columns, g.Columns(t))
  {
    TargetInRange(g, t);
    ListedColumns(g, t, g.Target(t).value);
    CollectedHintsAreCoherent(g.previous, g.next, g.hints, t, g.Target(t).value, g.Columns(t));
  }

  lemma ListedColumns(g: Generated, t: nat, n: nat)
    requires g.Sound() && t < |g.previous.tables| && g.Target(t) == Some(n) && n < |g.next.tables|
    ensures IsDiff(g.hints.columns, g.previous.tables[t].columns, g.next.tables[n].columns, g.Columns(t))
  {
    var from :| IsTablesDiff(g.previous, g.next, g.hints, g.tables, from);
    if t in from {
      var k: nat :| k < |from| && from[k] == t;
      EntryColumns(g, from, k, n);
    } else {
      UnlistedEntry(g, from, t);
      assert !HasToChange(g.previous, g.next, g.hints, t);
    }
  }

  lemma EntryColumns(g: Generated, from: seq<nat>, k: nat, n: nat)
    requires g.Sound() && IsTablesDiff(g.previous, g.next, g.hints, g.tables, from) && k < |from|
    requires from[k] < |g.previous.tables| && g.Target(from[k]) == Some(n) && n < |g.next.tables|
    ensures g.tables[k].Alter? && g.Columns(from[k]) == g.tables[k].columns
    ensures IsDiff(
      g.hints.columns, g.previous.tables[from[k]].columns, g.next.tables[n].columns, g.tables[k].columns)
  {
    EntryAbout(g, from, k);
    ListedEntry(g, from, k);
  }

  /** The rows of previous table `t` are in next table `n`, each migrated, and its columns and key are what
      the listed changes make of them. */
  ghost predicate Carried(g: Generated, t: nat, n: nat, start: Db, after: Db)
    requires t < |g.previous.tables| && n < |g.next.tables|
  {
    var p, q := g.previous.tables[t], g.next.tables[n];
    && p.name in start.tables && q.name in after.tables
    && TableMigrated(
         p, q, g.Columns(t), g.capability, g.Renamed(), start.tables[p.name], after.tables[q.name])
  }

  lemma StartsSound(g: Generated, start: Db)
    requires g.Sound() && HoldsSchema(g.previous, g.capability, start)
    ensures DiffSound(g.Diff()) && StartsFrom(g.Diff(), g.capability, [], start)
  {
    DiffIsSound(g.previous, g.next, g.hints, g.types, g.tables);
    var from :| IsTablesDiff(g.previous, g.next, g.hints, g.tables, from);
    forall i | 0 <= i < |g.tables| && ConsumedTable(g.tables[i]).Some?
      ensures
        var name := ConsumedTable(g.tables[i]).value;
        && name in start.tables
        && (g.tables[i].Alter? ==> ColumnsAre(start.tables[name], g.tables[i].previous.columns, g.capability, []))
    {
      DiffEntry(g.previous, g.next, g.hints, g.types, g.tables, from, i);
      assert HoldsTable(g.previous.tables[from[i]], g.capability, start);
      EntryAbout(g, from, i);
    }
  }

  /** Entry `i` of the diff is about previous table `from[i]`. */
  lemma EntryAbout(g: Generated, from: seq<nat>, i: nat)
    requires IsTablesDiff(g.previous, g.next, g.hints, g.tables, from) && i < |from|
    ensures from[i] < |g.previous.tables| && IsChange(g.previous, g.next, g.hints, from[i], g.tables[i])
  {
    assert g.tables[..|from|][i] == g.tables[i];
  }

  lemma EntryCreates(g: Generated, from: seq<nat>, i: nat)
    requires IsTablesDiff(g.previous, g.next, g.hints, g.tables, from) && |from| <= i < |g.tables|
    ensures g.tables[i].Create? && IsNewTable(g.previous, g.next, g.hints, g.tables[i].table.id)
    ensures g.tables[i].table == g.next.tables[g.tables[i].table.id]
  {
    assert g.tables[|from|..][i - |from|] == g.tables[i];
  }

  /** The table as `CREATE TABLE` leaves it. */
  predicate MadeEmpty(q: Table, capability: Capability, db: Db) {
    && q.name in db.tables && db.tables[q.name].rows == []
    && db.tables[q.name].columns == DefsOf(q.columns, capability)
    && Some(db.tables[q.name].primaryKey) == ColumnNames(q.primaryKey, q.columns)
  }

  /** A next table nothing has become is delivered empty. */
  lemma NewTableThere(g: Generated, n: nat, start: Db, after: Db)
    requires g.Sound() && n < |g.next.tables| && IsNewTable(g.previous, g.next, g.hints, n)
    requires forall i :: 0 <= i < |g.tables| ==>
      Delivered(g.tables[i], g.capability, g.Renamed(), g.Typed(start), after)
    ensures MadeEmpty(g.next.tables[n], g.capability, after)
  {
    var from :| IsTablesDiff(g.previous, g.next, g.hints, g.tables, from);
    assert TableDiff.Create(g.next.tables[n]) in g.tables[|from|..];
    var i: nat :| |from| <= i < |g.tables| && g.tables[i] == TableDiff.Create(g.next.tables[n]);
    assert Delivered(g.tables[i], g.capability, g.Renamed(), g.Typed(start), after);
  }

  /** A mentioned table that stays is delivered migrated. */
  lemma MentionedCarried(g: Generated, from: seq<nat>, k: nat, n: nat, start: Db, after: Db)
    requires g.Sound() && IsTablesDiff(g.previous, g.next, g.hints, g.tables, from) && k < |from|
    requires from[k] < |g.previous.tables| && g.Target(from[k]) == Some(n) && n < |g.next.tables|
    requires Delivered(g.tables[k], g.capability, g.Renamed(), g.Typed(start), after)
    ensures Carried(g, from[k], n, start, after)
  {
    EntryAbout(g, from, k);
    ListedEntry(g, from, k);
    var p, q := g.previous.tables[from[k]], g.next.tables[n];
    SameRowsMigrated(
      p, q, g.Columns(from[k]), g.capability, g.Renamed(), start.tables[p.name], g.Typed(start).tables[p.name],
      after.tables[q.name]);
  }

  /** Only the rows and the key of the table before matter. */
  lemma SameRowsMigrated(
    p: Table, q: Table, columns: seq<ColumnDiff>, capability: Capability, renamed: RenamedTypes, start: TableData,
    typed: TableData, after: TableData)
    requires start.rows == typed.rows && start.primaryKey == typed.primaryKey
    requires TableMigrated(p, q, columns, capability, renamed, typed, after)
    ensures TableMigrated(p, q, columns, capability, renamed, start, after)
  {
  }

  /** No entry of the diff speaks of a table that need not change and is not listed. */
  lemma NotMentioned(g: Generated, from: seq<nat>, t: nat, n: nat)
    requires g.Sound() && IsTablesDiff(g.previous, g.next, g.hints, g.tables, from)
    requires t < |g.previous.tables| && t !in from && g.Target(t) == Some(n) && n < |g.next.tables|
    requires g.previous.tables[t].name == g.next.tables[n].name
    ensures !Mentioned(g.Diff(), |g.tables|, g.previous.tables[t].name)
  {
    forall i | 0 <= i < |g.tables|
      ensures ConsumedTable(g.tables[i]) != Some(g.previous.tables[t].name)
      ensures ProducedTable(g.tables[i]) != Some(g.previous.tables[t].name)
    {
      if i < |from| {
        EntryAbout(g, from, i);
        assert from[i] in from;
        OtherTable(g, from[i], t, n, g.tables[i]);
      } else {
        EntryCreates(g, from, i);
        var m := g.tables[i].table.id;
        assert Target(g.hints.tables, TableItems(g.next.tables), TableItems(g.previous.tables)[t]) == Some(n);
        assert Taken(g.hints.tables, TableItems(g.previous.tables), TableItems(g.next.tables), n);
        NamesDiffer(g.next, m, n);
      }
    }
  }

  lemma NamesDiffer(s: Schema, m: nat, n: nat)
    requires SchemaOk(s) && m < |s.tables| && n < |s.tables| && m != n
    ensures s.tables[m].name != s.tables[n].name
  {
    if m < n {
      NamesApart(s, m, n);
    } else {
      NamesApart(s, n, m);
    }
  }

  lemma OtherTable(g: Generated, u: nat, t: nat, n: nat, d: TableDiff)
    requires g.Sound() && u < |g.previous.tables| && t < |g.previous.tables| && u != t
    requires g.Target(t) == Some(n) && n < |g.next.tables| && g.previous.tables[t].name == g.next.tables[n].name
    requires IsChange(g.previous, g.next, g.hints, u, d)
    ensures ConsumedTable(d) != Some(g.previous.tables[t].name)
    ensures ProducedTable(d) != Some(g.previous.tables[t].name)
  {
    NamesDiffer(g.previous, u, t);
    if g.Target(u).Some? {
      TargetsDiffer(g, u, t);
      NamesDiffer(g.next, g.Target(u).value, n);
    }
  }

  lemma TargetsDiffer(g: Generated, u: nat, t: nat)
    requires g.Sound() && u < |g.previous.tables| && t < |g.previous.tables| && u != t
    requires g.Target(u).Some? && g.Target(t).Some?
    ensures g.Target(u) != g.Target(t)
  {
    assert u < t || t < u;
  }

  /** Where nothing has to change the table as it is counts as migrated. */
  lemma UnchangedIsMigrated(p: Table, q: Table, capability: Capability, renamed: RenamedTypes, t: TableData)
    requires Coherent(p.columns, q.columns, []) && ColumnsAre(t, p.columns, capability, renamed) && TableOk(t)
    ensures TableMigrated(p, q, [], capability, renamed, t, t)
  {
    SameNames(p.columns, q.columns);
    StartNames(p.columns, capability, renamed);
    forall def, q' | def in t.columns && q' in q.columns && def.name == q'.name
      ensures EndDef([], capability, renamed, q', def)
    {
      SameDef(p.columns, q.columns, capability, renamed, t, def, q');
    }
    forall j | 0 <= j < |t.primaryKey|
      ensures SameKey(p.columns, q.columns, [], t.primaryKey[j], t.primaryKey[j])
    {
      UnchangedPair(p.columns, q.columns, t.primaryKey[j]);
    }
    forall i | 0 <= i < |t.rows|
      ensures RowMigrates(p.columns, q.columns, [], t.rows[i], t.rows[i])
    {
      assert t.rows[i].Keys <= NamesOf(t.columns);
      SameRow(p.columns, q.columns, t.rows[i]);
    }
  }

  lemma SameDef(
    previous: seq<Column>, next: seq<Column>, capability: Capability, renamed: RenamedTypes, t: TableData,
    def: ColumnDef, q: Column)
    requires Coherent(previous, next, []) && ColumnsAre(t, previous, capability, renamed)
    requires def in t.columns && q in next && def.name == q.name
    ensures def == StartDef(q, capability, renamed)
  {
    var p := ColumnOfDef(previous, capability, renamed, t, def);
    Unchanging(previous, next, p, q);
  }

  /** Each definition is that of a column the table started with. */
  lemma ColumnOfDef(
    previous: seq<Column>, capability: Capability, renamed: RenamedTypes, t: TableData, def: ColumnDef)
    returns (p: Column)
    requires ColumnsAre(t, previous, capability, renamed) && def in t.columns
    ensures p in previous && p.name == def.name && def == StartDef(p, capability, renamed)
  {
    var i :| 0 <= i < |t.columns| && t.columns[i] == def;
    assert t.columns[i].name in NamesOf(t.columns);
    p := SlotFrom(previous, capability, renamed, def.name);
    SlotOf(previous, capability, renamed, p);
  }

  lemma Unchanging(previous: seq<Column>, next: seq<Column>, p: Column, q: Column)
    requires Coherent(previous, next, []) && p in previous && q in next && p.name == q.name
    ensures SameColumn(p, q)
  {
    assert !Touched([], 0, p) && !Made([], q);
  }

  lemma UnchangedPair(previous: seq<Column>, next: seq<Column>, name: string)
    requires Coherent(previous, next, []) && name in ColumnNameSet(previous)
    ensures SameKey(previous, next, [], name, name)
  {
    SameNames(previous, next);
    var p :| p in previous && p.name == name;
    var q :| q in next && q.name == name;
    assert Kept(previous, next, [], p, q);
  }

  lemma SameNames(previous: seq<Column>, next: seq<Column>)
    requires Coherent(previous, next, [])
    ensures ColumnNameSet(previous) == ColumnNameSet(next)
  {
    assert UntouchedNames(previous, []) == ColumnNameSet(previous);
    assert UnmadeNames(next, []) == ColumnNameSet(next);
  }

  lemma StartNames(previous: seq<Column>, capability: Capability, renamed: RenamedTypes)
    requires DistinctColumns(previous)
    ensures StartSlots(previous, capability, renamed).Keys == ColumnNameSet(previous)
  {
  }

  lemma SameRow(previous: seq<Column>, next: seq<Column>, row: Row)
    requires Coherent(previous, next, []) && row.Keys <= ColumnNameSet(previous)
    requires ColumnNameSet(previous) == ColumnNameSet(next)
    ensures RowMigrates(previous, next, [], row, row)
  {
    forall name | name in row
      ensures exists p, q :: Kept(previous, next, [], p, q) && q.name == name
    {
      assert name in ColumnNameSet(previous) && name in ColumnNameSet(next);
      var p :| p in previous && p.name == name;
      var q :| q in next && q.name == name;
      assert Kept(previous, next, [], p, q);
    }
  }

  lemma UnmentionedCarried(g: Generated, from: seq<nat>, t: nat, n: nat, start: Db, after: Db)
    requires g.Sound() && IsTablesDiff(g.previous, g.next, g.hints, g.tables, from)
    requires t < |g.previous.tables| && t !in from && g.Target(t) == Some(n) && n < |g.next.tables|
    requires HoldsSchema(g.previous, g.capability, start)
    requires forall name :: !Mentioned(g.Diff(), |g.tables|, name) ==> Unchanged(g.Typed(start), after, name)
    ensures Carried(g, t, n, start, after)
  {
    var p, q := g.previous.tables[t], g.next.tables[n];
    assert !HasToChange(g.previous, g.next, g.hints, t);
    NotMentioned(g, from, t, n);
    assert Unchanged(g.Typed(start), after, p.name);
    assert HoldsTable(p, g.capability, start);
    CollectedHintsAreCoherent(g.previous, g.next, g.hints, t, n, []);
    UnlistedEntry(g, from, t);
    UnmentionedTyped(g, p, q, start);
  }

  lemma UnmentionedTyped(g: Generated, p: Table, q: Table, start: Db)
    requires Coherent(p.columns, q.columns, []) && DbOk(start) && HoldsTable(p, g.capability, start)
    ensures p.name in g.Typed(start).tables
    ensures TableMigrated(
      p, q, [], g.capability, g.Renamed(), start.tables[p.name], g.Typed(start).tables[p.name])
  {
    var t, t' := start.tables[p.name], g.Typed(start).tables[p.name];
    TypedColumns(t, p.columns, g.capability, g.Renamed());
    TypedOk(t, g.capability, g.Renamed());
    UnchangedIsMigrated(p, q, g.capability, g.Renamed(), t');
    SameRowsMigrated(p, q, [], g.capability, g.Renamed(), t, t', t');
  }

  lemma TypedOk(t: TableData, capability: Capability, renamed: RenamedTypes)
    requires TableOk(t)
    ensures TableOk(
      if capability.namedEnumTypes then t.(columns := RetypedColumns(t.columns, renamed, |renamed|)) else t)
  {
    var columns := RetypedColumns(t.columns, renamed, |renamed|);
    RetypedNames(t.columns, columns);
    forall i, k | 0 <= i < |t.rows| && 0 <= k < |columns| && columns[k].notNull
      ensures columns[k].name in t.rows[i]
    {
      assert Fits(t.columns, t.rows[i]) && t.columns[k].notNull;
    }
  }

  lemma TargetInRange(g: Generated, t: nat)
    requires g.Sound() && t < |g.previous.tables| && g.Target(t).Some?
    ensures g.Target(t).value < |g.next.tables|
  {
    assert WithinOk(g.previous, g.next, g.hints, t);
  }

  lemma TableCarried(g: Generated, t: nat, start: Db, after: Db)
    requires g.Sound() && t < |g.previous.tables| && g.Target(t).Some?
    requires g.Target(t).value < |g.next.tables|
    requires HoldsSchema(g.previous, g.capability, start)
    requires forall i :: 0 <= i < |g.tables| ==>
      Delivered(g.tables[i], g.capability, g.Renamed(), g.Typed(start), after)
    requires forall name :: !Mentioned(g.Diff(), |g.tables|, name) ==> Unchanged(g.Typed(start), after, name)
    ensures Carried(g, t, g.Target(t).value, start, after)
  {
    var from :| IsTablesDiff(g.previous, g.next, g.hints, g.tables, from);
    if t in from {
      var k: nat :| k < |from| && from[k] == t;
      MentionedCarried(g, from, k, g.Target(t).value, start, after);
    } else {
      UnmentionedCarried(g, from, t, g.Target(t).value, start, after);
    }
  }

  /** Next table `n` is there: created empty, or carried over from the table that became it. */
  ghost predicate Reached(g: Generated, n: nat, start: Db, after: Db)
    requires n < |g.next.tables|
  {
    || (IsNewTable(g.previous, g.next, g.hints, n) && MadeEmpty(g.next.tables[n], g.capability, after))
    || CarriedFromSome(g, n, start, after)
  }

  ghost predicate CarriedFromSome(g: Generated, n: nat, start: Db, after: Db)
    requires n < |g.next.tables|
  {
    exists t :: 0 <= t < |g.previous.tables| && g.Target(t) == Some(n) && Carried(g, t, n, start, after)
  }

  /** Every next table is reached. */
  lemma NextTableThere(g: Generated, n: nat, start: Db, after: Db)
    requires g.Sound() && n < |g.next.tables| && HoldsSchema(g.previous, g.capability, start)
    requires forall i :: 0 <= i < |g.tables| ==>
      Delivered(g.tables[i], g.capability, g.Renamed(), g.Typed(start), after)
    requires forall name :: !Mentioned(g.Diff(), |g.tables|, name) ==> Unchanged(g.Typed(start), after, name)
    ensures Reached(g, n, start, after)
  {
    if IsNewTable(g.previous, g.next, g.hints, n) {
      NewTableThere(g, n, start, after);
    } else {
      var t: nat :| t < |g.previous.tables|
        && Target(g.hints.tables, TableItems(g.next.tables), TableItems(g.previous.tables)[t]) == Some(n);
      assert g.Target(t) == Some(n);
      TableCarried(g, t, start, after);
    }
  }

  predicate NamesTable(s: Schema, name: string) {
    exists n :: 0 <= n < |s.tables| && s.tables[n].name == name
  }

  /** The diff leaves data under next names only. */
  lemma OnlyNextMade(g: Generated, name: string)
    requires g.Sound() && !NamesTable(g.next, name)
    ensures !MadeTable(g.Diff(), |g.tables|, name)
  {
    var from :| IsTablesDiff(g.previous, g.next, g.hints, g.tables, from);
    forall i | 0 <= i < |g.tables|
      ensures ProducedTable(g.tables[i]) != Some(name)
    {
      if i < |from| {
        EntryAbout(g, from, i);
      } else {
        EntryCreates(g, from, i);
      }
    }
  }

  /** A previous table whose name no next table has is mentioned. */
  lemma NameGoes(g: Generated, t: nat) returns (k: nat)
    requires g.Sound() && t < |g.previous.tables| && !NamesTable(g.next, g.previous.tables[t].name)
    ensures k < |g.tables| && ConsumedTable(g.tables[k]) == Some(g.previous.tables[t].name)
  {
    var from :| IsTablesDiff(g.previous, g.next, g.hints, g.tables, from);
    GoneHasToChange(g, t);
    k := Listed(g, from, t);
    EntryAbout(g, from, k);
  }

  lemma GoneHasToChange(g: Generated, t: nat)
    requires g.Sound() && t < |g.previous.tables| && !NamesTable(g.next, g.previous.tables[t].name)
    ensures HasToChange(g.previous, g.next, g.hints, t)
  {
    if g.Target(t).Some? {
      TargetInRange(g, t);
    }
  }

  lemma Listed(g: Generated, from: seq<nat>, t: nat) returns (k: nat)
    requires IsTablesDiff(g.previous, g.next, g.hints, g.tables, from)
    requires t < |g.previous.tables| && HasToChange(g.previous, g.next, g.hints, t)
    ensures k < |from| && from[k] == t
  {
    assert t in from;
    k :| k < |from| && from[k] == t;
  }

  /** A generated migration that goes through takes a database that holds the previous schema to one
      that has every next table: created empty as the schema defines it, or carried over from the table
      that became it, with each row migrated and its columns and key as the changes leave them; no table
      is left under a name only the previous schema had; and what the diff does not mention is as it was. */
  lemma GeneratedMigrates(g: Generated, start: Db, after: Db)
    requires g.Sound() && HoldsSchema(g.previous, g.capability, start)
    requires Run(Plan(g.Diff(), g.capability), start) == Some(after)
    ensures DbOk(after)
    ensures forall n :: 0 <= n < |g.next.tables| ==> Reached(g, n, start, after)
    ensures forall t :: 0 <= t < |g.previous.tables| ==>
      NamesTable(g.next, g.previous.tables[t].name) || g.previous.tables[t].name !in after.tables
    ensures forall name :: !Mentioned(g.Diff(), |g.tables|, name) ==> Unchanged(g.Typed(start), after, name)
  {
    StartsSound(g, start);
    PlanReachesNext(g.Diff(), g.capability, start, after);
    forall n | 0 <= n < |g.next.tables|
      ensures Reached(g, n, start, after)
    {
      NextTableThere(g, n, start, after);
    }
    forall t | 0 <= t < |g.previous.tables| && !NamesTable(g.next, g.previous.tables[t].name)
      ensures g.previous.tables[t].name !in after.tables
    {
      var k := NameGoes(g, t);
      OnlyNextMade(g, g.previous.tables[t].name);
    }
  }

  // ---- The next schema in full ----

  lemma EmptyIsHeld(q: Table, capability: Capability, db: Db)
    requires DistinctColumns(q.columns) && MadeEmpty(q, capability, db)
    ensures HoldsTable(q, capability, db)
  {
    var t := db.tables[q.name];
    NextNames(q.columns, capability);
    StartNames(q.columns, capability, []);
    forall i | 0 <= i < |t.columns|
      ensures t.columns[i] == StartSlots(q.columns, capability, [])[t.columns[i].name].def
    {
      SlotOf(q.columns, capability, [], q.columns[i]);
    }
  }

  lemma ColumnsDistinct(s: Schema, n: nat)
    requires SchemaOk(s) && n < |s.tables|
    ensures DistinctColumns(s.tables[n].columns)
  {
    assert ItemsOk(s.tables[n], n);
    ItemsDistinct(s.tables[n].columns);
  }

  lemma TableHeld(g: Generated, n: nat, start: Db, after: Db)
    requires g.Sound() && g.TypesSound() && DefinesAlike(g.capability) && n < |g.next.tables|
    requires Reached(g, n, start, after)
    ensures HoldsTable(g.next.tables[n], g.capability, after)
  {
    ColumnsDistinct(g.next, n);
    if MadeEmpty(g.next.tables[n], g.capability, after) {
      EmptyIsHeld(g.next.tables[n], g.capability, after);
    } else {
      var t: nat :| t < |g.previous.tables| && g.Target(t) == Some(n) && Carried(g, t, n, start, after);
      CarriedHeld(g, t, n, start, after);
    }
  }

  lemma CarriedHeld(g: Generated, t: nat, n: nat, start: Db, after: Db)
    requires g.TypesSound() && DefinesAlike(g.capability) && t < |g.previous.tables| && n < |g.next.tables|
    requires DistinctColumns(g.next.tables[n].columns) && Carried(g, t, n, start, after)
    ensures HoldsTable(g.next.tables[n], g.capability, after)
  {
    var q := g.next.tables[n];
    if g.capability.namedEnumTypes {
      RenamesFollowed(g.previous, g.next, g.types, n);
    }
    DefinitionsReached(q.columns, g.Columns(t), g.capability, g.Renamed(), after.tables[q.name]);
  }

  /** The database then holds the next schema, each column as it is defined there, whether its table was
      rebuilt, altered in place, or changed through a named type; and where enum types have names, the
      catalogue has each with its variants. The next migration can start from it. */
  lemma NextSchemaHeld(g: Generated, start: Db, after: Db)
    requires g.Sound() && HoldsSchema(g.previous, g.capability, start)
    requires g.TypesSound() && DefinesAlike(g.capability)
    requires Run(Plan(g.Diff(), g.capability), start) == Some(after)
    ensures HoldsSchema(g.next, g.capability, after)
    ensures g.capability.namedEnumTypes && HoldsTypes(TypesOf(g.previous), start) ==>
      HoldsTypes(TypesOf(g.next), after)
  {
    GeneratedMigrates(g, start, after);
    forall n | 0 <= n < |g.next.tables|
      ensures HoldsTable(g.next.tables[n], g.capability, after)
    {
      TableHeld(g, n, start, after);
    }
    if g.capability.namedEnumTypes && HoldsTypes(TypesOf(g.previous), start) {
      PlanReachesTypes(g.Diff(), g.capability, start, after);
    }
  }

  // ---- A history of migrations ----

  /** Generated one after the other, each from the schema the last one led to. */
  ghost predicate Chained(gs: seq<Generated>, capability: Capability) {
    && (forall i :: 0 <= i < |gs| ==> gs[i].Sound() && gs[i].TypesSound() && gs[i].capability == capability)
    && (forall i :: 0 < i < |gs| ==> gs[i].previous == gs[i - 1].next)
  }

  ghost function AllStatements(gs: seq<Generated>): seq<MigrationStatement>
    requires forall i :: 0 <= i < |gs| ==> gs[i].Sound()
  {
    if gs == [] then []
    else
      assert gs[0].Sound();
      Plan(gs[0].Diff(), gs[0].capability) + AllStatements(gs[1..])
  }

  /** Run from the first schema, a whole history of generated migrations that goes through ends in a
      database that holds the last one. */
  lemma {:induction false} HistoryMigrates(gs: seq<Generated>, capability: Capability, start: Db, after: Db)
    requires gs != [] && Chained(gs, capability) && DefinesAlike(capability)
    requires HoldsSchema(gs[0].previous, capability, start) && Run(AllStatements(gs), start) == Some(after)
    ensures HoldsSchema(gs[|gs| - 1].next, capability, after)
  {
    var mid := FirstOfHistory(gs, capability, start, after);
    if |gs| > 1 {
      RestChained(gs, capability);
      assert gs[1].previous == gs[0].next;
      HistoryMigrates(gs[1..], capability, mid, after);
    } else {
      assert gs[1..] == [];
    }
  }

  lemma RestChained(gs: seq<Generated>, capability: Capability)
    requires gs != [] && Chained(gs, capability)
    ensures Chained(gs[1..], capability)
  {
    forall i | 0 < i < |gs[1..]|
      ensures gs[1..][i].previous == gs[1..][i - 1].next
    {
      assert gs[i + 1].previous == gs[i].next;
    }
  }

  lemma FirstOfHistory(gs: seq<Generated>, capability: Capability, start: Db, after: Db) returns (mid: Db)
    requires gs != [] && Chained(gs, capability) && DefinesAlike(capability)
    requires HoldsSchema(gs[0].previous, capability, start) && Run(AllStatements(gs), start) == Some(after)
    ensures HoldsSchema(gs[0].next, capability, mid) && Run(AllStatements(gs[1..]), mid) == Some(after)
  {
    assert gs[0].Sound();
    mid := RunSplit(Plan(gs[0].Diff(), gs[0].capability), AllStatements(gs[1..]), start, after);
    NextSchemaHeld(gs[0], start, mid);
  }

  lemma BecameTable(g: Generated, n: nat) returns (t: nat)
    requires g.Sound() && n < |g.next.tables| && !IsNewTable(g.previous, g.next, g.hints, n)
    ensures t < |g.previous.tables| && g.Target(t) == Some(n)
  {
    t :| t < |g.previous.tables|
      && Target(g.hints.tables, TableItems(g.next.tables), TableItems(g.previous.tables)[t]) == Some(n);
  }

  // ---- Keys ----

  ghost predicate HoldsKey(t: Table, db: Db) {
    t.name in db.tables && Some(db.tables[t.name].primaryKey) == ColumnNames(t.primaryKey, t.columns)
  }

  ghost predicate HoldsKeys(s: Schema, db: Db) {
    forall t :: 0 <= t < |s.tables| ==> HoldsKey(s.tables[t], db)
  }

  /** The key of what became of table `t` is the next one: it was rebuilt, or its columns map the old key
      to it. */
  ghost predicate KeyMapped(g: Generated, t: nat)
    requires t < |g.previous.tables|
  {
    g.Target(t).Some? ==>
      && g.Target(t).value < |g.next.tables|
      && var p, q := g.previous.tables[t], g.next.tables[g.Target(t).value];
         g.Rebuilt(t) || IdsKept(p.columns, q.columns, g.Columns(t), p.primaryKey, q.primaryKey)
  }

  lemma KeyExactly(g: Generated, t: nat, start: Db, after: Db)
    requires g.Sound() && t < |g.previous.tables| && g.Target(t).Some?
    requires g.Target(t).value < |g.next.tables| && Carried(g, t, g.Target(t).value, start, after)
    requires HoldsKey(g.previous.tables[t], start)
    ensures HoldsKey(g.next.tables[g.Target(t).value], after) <==> KeyMapped(g, t)
  {
    var p, q := g.previous.tables[t], g.next.tables[g.Target(t).value];
    ColumnsCoherent(g, t);
    KeyReached(p, q, g.Columns(t), g.capability, g.Renamed(), start.tables[p.name], after.tables[q.name]);
  }

  /** Every next table has its primary key exactly when each that stays was rebuilt or keeps its key
      column for column: no statement changes a key. */
  lemma NextKeysHeld(g: Generated, start: Db, after: Db)
    requires g.Sound() && HoldsSchema(g.previous, g.capability, start) && HoldsKeys(g.previous, start)
    requires Run(Plan(g.Diff(), g.capability), start) == Some(after)
    ensures HoldsKeys(g.next, after) <==> forall t :: 0 <= t < |g.previous.tables| ==> KeyMapped(g, t)
  {
    StartsSound(g, start);
    PlanReachesNext(g.Diff(), g.capability, start, after);
    forall t | 0 <= t < |g.previous.tables| && g.Target(t).Some?
      ensures g.Target(t).value < |g.next.tables|
      ensures HoldsKey(g.next.tables[g.Target(t).value], after) <==> KeyMapped(g, t)
    {
      TargetInRange(g, t);
      TableCarried(g, t, start, after);
      KeyExactly(g, t, start, after);
    }
    forall n | 0 <= n < |g.next.tables|
      ensures HoldsKey(g.next.tables[n], after) || exists t: nat :: t < |g.previous.tables| && g.Target(t) == Some(n)
    {
      if IsNewTable(g.previous, g.next, g.hints, n) {
        NewTableThere(g, n, start, after);
      } else {
        var t := BecameTable(g, n);
      }
    }
  }
}
