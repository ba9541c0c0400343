/** When a generated migration leaves every next table with its indices. */
module NextIndices {
  import opened Wrappers
  import opened DbSchema
  import opened MigrationPlan
  import opened Database
  import opened ColumnLineage
  import opened InPlaceMigration
  import opened WholePlan
  import opened IndexFate
  import opened PlanIndices
  import opened RenameMatching
  import opened RenameHints
  import opened ColumnDiffing
  import opened IndexDiffing
  import opened TableDiffing
  import opened KeyColumns
  import opened GeneratedMigration

  /** The database has index `x` of table `t` as the schema defines it. */
  predicate HasIndex(t: Table, x: Index, db: Db) {
    x.name in db.indices && Some(db.indices[x.name]) == IndexDataOf(x, t)
  }

  predicate NamesIndex(t: Table, name: string) {
    exists k :: 0 <= k < |t.indices| && t.indices[k].name == name
  }

  /** The table has its indices and no others; the primary key's comes with the table, and is none. */
  predicate IndicesOn(t: Table, db: Db) {
    && (forall x <- t.indices :: !x.primaryKey ==> HasIndex(t, x, db))
    && (forall name <- db.indices :: db.indices[name].table == t.name ==> NamesIndex(t, name))
  }

  predicate HoldsIndices(s: Schema, db: Db) {
    forall t :: 0 <= t < |s.tables| ==> IndicesOn(s.tables[t], db)
  }

  /** No change drops the index of a primary key, which is not there to drop. */
  predicate DropsNoKey(g: Generated) {
    forall d <- g.tables :: d.Alter? ==>
      forall k :: 0 <= k < |d.indices| && d.indices[k].Dropped().Some? ==> !d.indices[k].Dropped().value.primaryKey
  }

  /** The index of a primary key that a change drops goes by a name that no index in the database has, nor
      one put in before its turn. */
  ghost predicate KeyNamesFree(g: Generated, start: Db) {
    forall i, k :: 0 <= i < |g.tables| && DropsKeyIndex(g.tables[i], k) ==>
      var name := g.tables[i].indices[k].Dropped().value.name;
      name !in start.indices && !PutBefore(g.Diff(), i, name)
  }

  predicate DropsKeyIndex(d: TableDiff, k: int) {
    && d.Alter? && 0 <= k < |d.indices|
    && d.indices[k].Dropped().Some? && d.indices[k].Dropped().value.primaryKey
  }

  /** Then a plan that goes through drops no such index. */
  lemma NoKeyDropped(g: Generated, start: Db, after: Db)
    requires g.Sound() && HoldsSchema(g.previous, g.capability, start) && KeyNamesFree(g, start)
    requires Run(Plan(g.Diff(), g.capability), start) == Some(after)
    ensures DropsNoKey(g)
  {
    StartsSound(g, start);
    AllIndicesStand(g);
    forall d | d in g.tables && d.Alter?
      ensures forall k :: 0 <= k < |d.indices| && d.indices[k].Dropped().Some? ==>
        !d.indices[k].Dropped().value.primaryKey
    {
      var i: nat :| i < |g.tables| && g.tables[i] == d;
      forall k: nat | k < |d.indices| && d.indices[k].Dropped().Some?
        ensures !d.indices[k].Dropped().value.primaryKey
      {
        KeyNotDropped(g, start, after, i, k);
      }
    }
  }

  lemma KeyNotDropped(g: Generated, start: Db, after: Db, i: nat, k: nat)
    requires DiffSound(g.Diff()) && AllStand(g.Diff()) && StartsFrom(g.Diff(), g.capability, [], start)
    requires Plannable(g.Diff(), g.capability) && Run(Plan(g.Diff(), g.capability), start) == Some(after)
    requires KeyNamesFree(g, start) && i < |g.tables| && g.tables[i].Alter?
    requires k < |g.tables[i].indices| && g.tables[i].indices[k].Dropped().Some?
    ensures !g.tables[i].indices[k].Dropped().value.primaryKey
  {
    DropsWereThere(g.Diff(), g.capability, start, after, i);
    assert !DropsKeyIndex(g.tables[i], k);
  }

  // ---- The diff's indices stand, and its drops are its own ----

  lemma InSchemaStands(s: Schema, n: nat, x: Index)
    requires PlacesOk(s) && SchemaOk(s) && n < |s.tables| && x in s.tables[n].indices
    ensures StandsOn(x, s, s.tables[n])
  {
    assert TablePlacesOk(s.tables[n], n);
    var k: nat :| k < |s.tables[n].indices| && s.tables[n].indices[k] == x;
  }

  lemma {:induction false} NewDiffsKnown(indices: seq<Index>, n: nat)
    requires n <= |indices|
    ensures forall d <- NewTableDiffs(indices, n) :: d.Create? && d.index in indices && !d.index.primaryKey
    ensures forall k :: 0 <= k < n && !indices[k].primaryKey ==>
      IndexDiff.Create(indices[k]) in NewTableDiffs(indices, n)
  {
    if n > 0 {
      NewDiffsKnown(indices, n - 1);
    }
  }

  lemma EntryPaired(g: Generated, from: seq<nat>, i: nat)
    requires g.Sound() && IsTablesDiff(g.previous, g.next, g.hints, g.tables, from) && i < |from|
    requires g.tables[i].Alter?
    ensures IndicesPaired(g.hints, g.tables[i].previous, g.tables[i].next)
    ensures IsIndexDiff(g.hints, g.tables[i].previous, g.tables[i].next, g.tables[i].indices)
    ensures g.tables[i].next in g.next.tables
  {
    EntryAbout(g, from, i);
    var t := from[i];
    var n := TableTarget(g.previous, g.next, g.hints, t).value;
    assert WithinOk(g.previous, g.next, g.hints, t);
    PairedIndices(g.previous, g.next, g.hints, t, n);
  }

  lemma EntryStands(g: Generated, from: seq<nat>, i: nat)
    requires g.Sound() && IsTablesDiff(g.previous, g.next, g.hints, g.tables, from) && i < |g.tables|
    ensures IndicesStand(g.tables[i], g.Diff())
  {
    var d := g.tables[i];
    if i >= |from| {
      EntryCreates(g, from, i);
      NewDiffsKnown(d.table.indices, |d.table.indices|);
      forall k | 0 <= k < |DiffIndices(d)|
        ensures StandsOn(DiffIndices(d)[k].index, g.next, d.table)
      {
        assert DiffIndices(d)[k] in DiffIndices(d);
        InSchemaStands(g.next, d.table.id, DiffIndices(d)[k].index);
      }
    } else if d.Alter? {
      EntryPaired(g, from, i);
      var n: nat :| n < |g.next.tables| && g.next.tables[n] == d.next;
      forall k | 0 <= k < |d.indices| && d.indices[k].Created().Some?
        ensures StandsOn(d.indices[k].Created().value, g.next, d.next)
      {
        ChangesKnown(g.hints, d.previous, d.next, d.indices, k);
        InSchemaStands(g.next, n, d.indices[k].Created().value);
      }
    } else {
      EntryAbout(g, from, i);
    }
  }

  lemma EntryDropsOwn(g: Generated, from: seq<nat>, i: nat, start: Db, name: string)
    requires g.Sound() && IsTablesDiff(g.previous, g.next, g.hints, g.tables, from) && i < |g.tables|
    requires HoldsIndices(g.previous, start) && DropsNoKey(g) && name in Gone(g.tables[i])
    ensures DropsOne(g.tables[i], start, name)
  {
    if i < |from| {
      EntryAbout(g, from, i);
      if g.tables[i].Alter? {
        EntryPaired(g, from, i);
        assert g.tables[i] in g.tables && IndicesOn(g.previous.tables[from[i]], start);
        DroppedFromTable(g.hints, g.tables[i], start, name);
      }
    } else {
      EntryCreates(g, from, i);
      NewDropsNothing(g.tables[i].table);
    }
  }

  lemma NewDropsNothing(t: Table)
    ensures Gone(TableDiff.Create(t)) == {}
  {
    NothingGone(t.indices, |t.indices|);
  }

  lemma DroppedFromTable(h: HintMaps, d: TableDiff, start: Db, name: string)
    requires d.Alter? && IndicesPaired(h, d.previous, d.next) && IsIndexDiff(h, d.previous, d.next, d.indices)
    requires forall k :: 0 <= k < |d.indices| && d.indices[k].Dropped().Some? ==>
      !d.indices[k].Dropped().value.primaryKey
    requires IndicesOn(d.previous, start) && name in Gone(d)
    ensures DropsOne(d, start, name)
  {
    var k :| 0 <= k < |d.indices| && DroppedName(d.indices[k]) == Some(name);
    ChangesKnown(h, d.previous, d.next, d.indices, k);
    assert HasIndex(d.previous, d.indices[k].Dropped().value, start);
  }

  /** What the plan results on indices ask of a diff. */
  lemma IndicesSound(g: Generated, start: Db)
    requires g.Sound() && HoldsIndices(g.previous, start) && DropsNoKey(g)
    ensures AllStand(g.Diff()) && DropsOwn(g.Diff(), start)
  {
    AllIndicesStand(g);
    var from :| IsTablesDiff(g.previous, g.next, g.hints, g.tables, from);
    forall i, name | 0 <= i < |g.tables| && name in Gone(g.tables[i])
      ensures DropsOne(g.tables[i], start, name)
    {
      EntryDropsOwn(g, from, i, start, name);
    }
  }

  predicate DroppedSomewhere(g: Generated, name: string) {
    exists i :: 0 <= i < |g.tables| && name in Gone(g.tables[i])
  }

  /** Indices of tables the diff does not mention are as they were, but for those that a drop names, and
      there are no new ones. */
  lemma OtherIndicesStay(g: Generated, start: Db, after: Db)
    requires g.Sound() && HoldsSchema(g.previous, g.capability, start)
    requires Run(Plan(g.Diff(), g.capability), start) == Some(after)
    ensures forall name <- start.indices ::
      !Mentioned(g.Diff(), |g.tables|, start.indices[name].table) && !DroppedSomewhere(g, name) ==>
        name in after.indices && after.indices[name] == start.indices[name]
    ensures forall name <- after.indices ::
      !Mentioned(g.Diff(), |g.tables|, after.indices[name].table) ==>
        name in start.indices && start.indices[name] == after.indices[name]
  {
    StartsSound(g, start);
    AllIndicesStand(g);
    PlanIndexFate(g.Diff(), g.capability, start, after);
    forall name | name in start.indices && !DroppedSomewhere(g, name)
                   && !Mentioned(g.Diff(), |g.tables|, start.indices[name].table)
      ensures Spared(g.Diff(), |g.tables|, start.indices[name].table, name)
    {
    }
  }

  lemma AllIndicesStand(g: Generated)
    requires g.Sound()
    ensures AllStand(g.Diff())
  {
    var from :| IsTablesDiff(g.previous, g.next, g.hints, g.tables, from);
    forall i | 0 <= i < |g.tables|
      ensures IndicesStand(g.tables[i], g.Diff())
    {
      EntryStands(g, from, i);
    }
  }

  // ---- What a diff puts on its table ----

  predicate IndexNamesDistinct(t: Table) {
    forall a, b | a in t.indices && b in t.indices :: a.name == b.name ==> a == b
  }

  /** Everything a diff creates is an index of the table, over columns it has. */
  predicate CreatesOnly(indices: seq<IndexDiff>, t: Table) {
    forall d <- indices :: d.Created().Some? ==>
      d.Created().value in t.indices && IndexDataOf(d.Created().value, t).Some?
  }

  lemma {:induction false} NewIndicesAre(indices: seq<IndexDiff>, n: nat, t: Table)
    requires n <= |indices| && IndexNamesDistinct(t) && CreatesOnly(indices, t)
    ensures forall i :: 0 <= i < n && indices[i].Created().Some? ==>
      var x := indices[i].Created().value;
      x.name in NewIndices(indices, n, t) && Some(NewIndices(indices, n, t)[x.name]) == IndexDataOf(x, t)
    ensures forall name <- NewIndices(indices, n, t) ::
      exists i :: 0 <= i < n && indices[i].Created().Some? && indices[i].Created().value.name == name
  {
    if n > 0 {
      var k: nat := n - 1;
      NewIndicesAre(indices, k, t);
      assert indices[k] in indices;
      forall i | 0 <= i < n && indices[i].Created().Some?
        ensures
          var x := indices[i].Created().value;
          x.name in NewIndices(indices, n, t) && Some(NewIndices(indices, n, t)[x.name]) == IndexDataOf(x, t)
      {
        assert indices[i] in indices;
      }
    }
  }

  lemma TableIndices(s: Schema, n: nat)
    requires SchemaOk(s) && PlacesOk(s) && n < |s.tables|
    ensures IndexNamesDistinct(s.tables[n])
    ensures forall x <- s.tables[n].indices :: IndexDataOf(x, s.tables[n]).Some?
  {
    var t := s.tables[n];
    assert ItemsOk(t, n) && TablePlacesOk(t, n);
    forall a, b | a in t.indices && b in t.indices && a.name == b.name
      ensures a == b
    {
      SameIndexName(t.indices, a, b);
    }
    forall x | x in t.indices
      ensures IndexDataOf(x, t).Some?
    {
      var k: nat :| k < |t.indices| && t.indices[k] == x;
      assert OwnColumns(t, n, x.columns);
      ColumnNamesAt(x.columns, t.columns);
    }
  }

  lemma SameIndexName(indices: seq<Index>, a: Index, b: Index)
    requires DistinctItems(IndexItems(indices)) && a in indices && b in indices && a.name == b.name
    ensures a == b
  {
    var i: nat :| i < |indices| && indices[i] == a;
    var j: nat :| j < |indices| && indices[j] == b;
    assert IndexItems(indices)[i].name == IndexItems(indices)[j].name;
    assert i < j || j < i || i == j;
  }

  /** A new table is delivered with its indices. */
  lemma NewTableIndices(g: Generated, n: nat, start: Db, after: Db)
    requires g.Sound() && n < |g.next.tables| && IsNewTable(g.previous, g.next, g.hints, n)
    requires AllDelivered(g.Diff(), g.capability, g.Renamed(), |g.tables|, start, after)
    ensures IndicesOn(g.next.tables[n], after)
  {
    var q := g.next.tables[n];
    var from :| IsTablesDiff(g.previous, g.next, g.hints, g.tables, from);
    assert TableDiff.Create(q) in g.tables[|from|..];
    var i: nat :| i < |g.tables| && g.tables[i] == TableDiff.Create(q);
    var d := g.tables[i];
    assert IndicesDelivered(d, g.capability, g.Renamed(), start, after);
    TableIndices(g.next, n);
    MadeIndices(q, g.capability, g.Renamed(), start, after);
  }

  lemma MadeIndices(q: Table, capability: Capability, renamed: RenamedTypes, start: Db, after: Db)
    requires IndexNamesDistinct(q) && forall x <- q.indices :: IndexDataOf(x, q).Some?
    requires IndicesDelivered(TableDiff.Create(q), capability, renamed, start, after)
    ensures IndicesOn(q, after)
  {
    forall x | x in q.indices && !x.primaryKey
      ensures HasIndex(q, x, after)
    {
      MadeIndex(q, x);
    }
    forall name | name in after.indices && after.indices[name].table == q.name
      ensures NamesIndex(q, name)
    {
      assert name in Put(TableDiff.Create(q));
      MadeNamed(q, name);
    }
  }

  lemma MadeIndex(q: Table, x: Index)
    requires IndexNamesDistinct(q) && (forall y <- q.indices :: IndexDataOf(y, q).Some?)
    requires x in q.indices && !x.primaryKey
    ensures x.name in Put(TableDiff.Create(q)) && Some(Put(TableDiff.Create(q))[x.name]) == IndexDataOf(x, q)
  {
    var diffs := NewTableDiffs(q.indices, |q.indices|);
    NewDiffsKnown(q.indices, |q.indices|);
    NewIndicesAre(diffs, |diffs|, q);
    var k: nat :| k < |q.indices| && q.indices[k] == x;
    var j :| 0 <= j < |diffs| && diffs[j] == IndexDiff.Create(x);
    assert diffs[j].Created() == Some(x);
  }

  lemma MadeNamed(q: Table, name: string)
    requires IndexNamesDistinct(q) && (forall y <- q.indices :: IndexDataOf(y, q).Some?)
    requires name in Put(TableDiff.Create(q))
    ensures NamesIndex(q, name)
  {
    var diffs := NewTableDiffs(q.indices, |q.indices|);
    NewDiffsKnown(q.indices, |q.indices|);
    NewIndicesAre(diffs, |diffs|, q);
    var j :| 0 <= j < |diffs| && diffs[j].Created().Some? && diffs[j].Created().value.name == name;
    assert diffs[j] in diffs;
  }

  // ---- A table that stays ----

  /** An index of previous table `p` that the diff leaves alone is on `q`, over the next versions of its
      columns. */
  ghost predicate Followed(p: Table, q: Table, columns: seq<ColumnDiff>, x: Index, db: Db) {
    && x.name in db.indices && db.indices[x.name].table == q.name && db.indices[x.name].unique == x.unique
    && ColumnNames(x.columns, p.columns).Some?
    && KeysFollow(
         p.columns, q.columns, columns, ColumnNames(x.columns, p.columns).value, db.indices[x.name].columns)
  }

  predicate CreatesNamed(indices: seq<IndexDiff>, name: string) {
    exists k :: 0 <= k < |indices| && indices[k].Created().Some? && indices[k].Created().value.name == name
  }

  predicate KeepsNamed(p: Table, indices: seq<IndexDiff>, name: string) {
    exists k :: 0 <= k < |p.indices| && p.indices[k].name == name && !DropsIndex(indices, p.indices[k])
  }

  /** What has become of the indices of a table that stays: those the diff creates are there, and so are
      those it leaves alone unless the table was rebuilt; and no others. */
  ghost predicate CarriedIndices(
    p: Table, q: Table, columns: seq<ColumnDiff>, indices: seq<IndexDiff>, rebuilt: bool, db: Db)
  {
    && (forall y :: CreatesIndex(indices, y) ==> HasIndex(q, y, db))
    && (forall x <- p.indices :: !x.primaryKey && !rebuilt && !DropsIndex(indices, x) ==>
          Followed(p, q, columns, x, db))
    && (forall name <- db.indices :: db.indices[name].table == q.name ==>
          CreatesNamed(indices, name) || (!rebuilt && KeepsNamed(p, indices, name)))
  }

  ghost predicate IndicesCarried(g: Generated, t: nat, n: nat, after: Db)
    requires t < |g.previous.tables| && n < |g.next.tables|
  {
    CarriedIndices(g.previous.tables[t], g.next.tables[n], g.Columns(t), g.Indices(t), g.Rebuilt(t), after)
  }

  /** A name is gone exactly when an index of that name is dropped. */
  lemma GoneIsDropped(h: HintMaps, p: Table, q: Table, indices: seq<IndexDiff>, x: Index)
    requires IndicesPaired(h, p, q) && IsIndexDiff(h, p, q, indices) && IndexNamesDistinct(p) && x in p.indices
    ensures x.name in DroppedNames(indices, |indices|) <==> DropsIndex(indices, x)
  {
    if x.name in DroppedNames(indices, |indices|) {
      var k :| 0 <= k < |indices| && DroppedName(indices[k]) == Some(x.name);
      ChangesKnown(h, p, q, indices, k);
    }
    if DropsIndex(indices, x) {
      var k :| 0 <= k < |indices| && indices[k].Dropped() == Some(x);
      assert DroppedName(indices[k]) == Some(x.name);
    }
  }

  lemma ListedIndices(g: Generated, from: seq<nat>, k: nat, n: nat, start: Db, after: Db)
    requires g.Sound() && IsTablesDiff(g.previous, g.next, g.hints, g.tables, from) && k < |from|
    requires from[k] < |g.previous.tables| && g.Target(from[k]) == Some(n) && n < |g.next.tables|
    requires HoldsIndices(g.previous, start)
    requires IndicesDelivered(g.tables[k], g.capability, g.Renamed(), start, after)
    ensures IndicesCarried(g, from[k], n, after)
  {
    EntryFacts(g, from, k, n);
    TableIndices(g.previous, from[k]);
    TableIndices(g.next, n);
    assert IndicesOn(g.previous.tables[from[k]], start);
    DeliveredIndices(g.hints, g.tables[k], g.capability, g.Renamed(), start, after);
  }

  lemma DeliveredIndices(
    h: HintMaps, d: TableDiff, capability: Capability, renamed: RenamedTypes, start: Db, after: Db)
    requires d.Alter? && IndicesPaired(h, d.previous, d.next) && IsIndexDiff(h, d.previous, d.next, d.indices)
    requires IndexNamesDistinct(d.previous) && IndexNamesDistinct(d.next) && IndicesOn(d.previous, start)
    requires forall x <- d.next.indices :: IndexDataOf(x, d.next).Some?
    requires IndicesDelivered(d, capability, renamed, start, after)
    ensures CarriedIndices(
      d.previous, d.next, d.columns, d.indices, NeedsRecreation(d.columns, capability, renamed), after)
  {
    DeliveredPut(h, d, capability, renamed, start, after);
    DeliveredKept(h, d, capability, renamed, start, after);
    DeliveredOnly(h, d, capability, renamed, start, after);
  }

  /** The entry about a table that stays, and what it lists. */
  lemma EntryFacts(g: Generated, from: seq<nat>, k: nat, n: nat)
    requires g.Sound() && IsTablesDiff(g.previous, g.next, g.hints, g.tables, from) && k < |from|
    requires from[k] < |g.previous.tables| && g.Target(from[k]) == Some(n) && n < |g.next.tables|
    ensures
      var d := g.tables[k];
      && d.Alter? && d.previous == g.previous.tables[from[k]] && d.next == g.next.tables[n]
      && g.Columns(from[k]) == d.columns && g.Indices(from[k]) == d.indices
      && IndicesPaired(g.hints, d.previous, d.next) && IsIndexDiff(g.hints, d.previous, d.next, d.indices)
      && IsDiff(g.hints.columns, d.previous.columns, d.next.columns, d.columns)
  {
    EntryAbout(g, from, k);
    ListedEntry(g, from, k);
    PairedIndices(g.previous, g.next, g.hints, from[k], n);
  }

  lemma DeliveredPut(
    h: HintMaps, d: TableDiff, capability: Capability, renamed: RenamedTypes, start: Db, after: Db)
    requires d.Alter? && IndicesPaired(h, d.previous, d.next) && IsIndexDiff(h, d.previous, d.next, d.indices)
    requires IndexNamesDistinct(d.next) && forall x <- d.next.indices :: IndexDataOf(x, d.next).Some?
    requires IndicesDelivered(d, capability, renamed, start, after)
    ensures forall y :: CreatesIndex(d.indices, y) ==> HasIndex(d.next, y, after)
    ensures forall name <- Put(d) :: CreatesNamed(d.indices, name)
  {
    forall e | e in d.indices && e.Created().Some?
      ensures e.Created().value in d.next.indices
    {
      var k :| 0 <= k < |d.indices| && d.indices[k] == e;
      ChangesKnown(h, d.previous, d.next, d.indices, k);
    }
    NewIndicesAre(d.indices, |d.indices|, d.next);
  }

  lemma DeliveredKept(
    h: HintMaps, d: TableDiff, capability: Capability, renamed: RenamedTypes, start: Db, after: Db)
    requires d.Alter? && IndicesPaired(h, d.previous, d.next) && IsIndexDiff(h, d.previous, d.next, d.indices)
    requires IndexNamesDistinct(d.previous) && IndicesOn(d.previous, start)
    requires IndicesDelivered(d, capability, renamed, start, after)
    ensures forall x <- d.previous.indices ::
      !x.primaryKey && !NeedsRecreation(d.columns, capability, renamed) && !DropsIndex(d.indices, x) ==>
        Followed(d.previous, d.next, d.columns, x, after)
  {
    forall x | x in d.previous.indices && !x.primaryKey && !NeedsRecreation(d.columns, capability, renamed)
                && !DropsIndex(d.indices, x)
      ensures Followed(d.previous, d.next, d.columns, x, after)
    {
      GoneIsDropped(h, d.previous, d.next, d.indices, x);
      assert HasIndex(d.previous, x, start);
      assert OwnSurvivor(d, capability, renamed, start, x.name);
      assert Moves(d, start.indices[x.name], after.indices[x.name]);
    }
  }

  lemma DeliveredOnly(
    h: HintMaps, d: TableDiff, capability: Capability, renamed: RenamedTypes, start: Db, after: Db)
    requires d.Alter? && IndicesPaired(h, d.previous, d.next) && IsIndexDiff(h, d.previous, d.next, d.indices)
    requires IndexNamesDistinct(d.previous) && IndicesOn(d.previous, start)
    requires forall name <- Put(d) :: CreatesNamed(d.indices, name)
    requires IndicesDelivered(d, capability, renamed, start, after)
    ensures forall name <- after.indices :: after.indices[name].table == d.next.name ==>
      || CreatesNamed(d.indices, name)
      || (!NeedsRecreation(d.columns, capability, renamed) && KeepsNamed(d.previous, d.indices, name))
  {
    forall name | name in after.indices && after.indices[name].table == d.next.name && name !in Put(d)
      ensures !NeedsRecreation(d.columns, capability, renamed) && KeepsNamed(d.previous, d.indices, name)
    {
      assert OwnSurvivor(d, capability, renamed, start, name);
      var k :| 0 <= k < |d.previous.indices| && d.previous.indices[k].name == name;
      GoneIsDropped(h, d.previous, d.next, d.indices, d.previous.indices[k]);
    }
  }

  /** A table the diff does not mention keeps its indices as they are. */
  lemma UnlistedIndices(g: Generated, from: seq<nat>, t: nat, n: nat, start: Db, after: Db)
    requires g.Sound() && IsTablesDiff(g.previous, g.next, g.hints, g.tables, from)
    requires t < |g.previous.tables| && t !in from && g.Target(t) == Some(n) && n < |g.next.tables|
    requires HoldsIndices(g.previous, start) && DropsNoKey(g) && DropsOwn(g.Diff(), start)
    requires IndexProgress(g.Diff(), |g.tables|, start, after)
    ensures IndicesCarried(g, t, n, after)
  {
    var p, q := g.previous.tables[t], g.next.tables[n];
    assert !HasToChange(g.previous, g.next, g.hints, t);
    NotMentioned(g, from, t, n);
    UnlistedEntry(g, from, t);
    assert IndicesOn(p, start);
    TableIndices(g.previous, t);
    CollectedHintsAreCoherent(g.previous, g.next, g.hints, t, n, []);
    forall x | x in p.indices && !x.primaryKey
      ensures Followed(p, q, [], x, after)
    {
      assert HasIndex(p, x, start);
      UnlistedStays(g, p.name, start, after, x.name);
      NamesKept(p.columns, q.columns, x.columns);
    }
    forall name | name in after.indices && after.indices[name].table == q.name
      ensures KeepsNamed(p, [], name)
    {
      assert !MadeTable(g.Diff(), |g.tables|, q.name);
      var k :| 0 <= k < |p.indices| && p.indices[k].name == name;
    }
  }

  lemma UnlistedStays(g: Generated, table: string, start: Db, after: Db, name: string)
    requires name in start.indices && start.indices[name].table == table
    requires DropsOwn(g.Diff(), start) && IndexProgress(g.Diff(), |g.tables|, start, after)
    requires !Mentioned(g.Diff(), |g.tables|, table)
    ensures name in after.indices && after.indices[name] == start.indices[name]
  {
    forall i | 0 <= i < |g.tables|
      ensures ConsumedTable(g.tables[i]) != Some(table) && name !in Gone(g.tables[i])
    {
      assert name in Gone(g.tables[i]) ==> DropsOne(g.Diff().tables[i], start, name);
    }
    assert Spared(g.Diff(), |g.tables|, table, name);
  }

  /** Where nothing changes, column names stay. */
  lemma NamesKept(previous: seq<Column>, next: seq<Column>, ids: seq<ColumnId>)
    requires Coherent(previous, next, []) && ColumnNames(ids, previous).Some?
    ensures KeysFollow(previous, next, [], ColumnNames(ids, previous).value, ColumnNames(ids, previous).value)
  {
    var names := ColumnNames(ids, previous).value;
    ColumnNamesAt(ids, previous);
    forall j | 0 <= j < |names|
      ensures SameKey(previous, next, [], names[j], names[j])
    {
      assert previous[ids[j].index] in previous;
      UnchangedPair(previous, next, names[j]);
    }
  }

  // ---- Both directions ----

  /** A table to be rebuilt has each of its next indices created by the diff. */
  predicate RebuildMakesAll(g: Generated, t: nat)
    requires t < |g.previous.tables|
  {
    g.Target(t).Some? && g.Target(t).value < |g.next.tables| && g.Rebuilt(t) ==>
      forall y <- g.next.tables[g.Target(t).value].indices :: !y.primaryKey ==> CreatesIndex(g.Indices(t), y)
  }

  lemma PairedColumns(g: Generated, t: nat, n: nat)
    requires g.Sound() && t < |g.previous.tables| && g.Target(t) == Some(n) && n < |g.next.tables|
    ensures Paired(g.hints.columns, g.previous.tables[t].columns, g.next.tables[n].columns)
  {
    assert WithinOk(g.previous, g.next, g.hints, t);
    ColumnsDistinct(g.previous, t);
    ColumnsDistinct(g.next, n);
  }

  lemma StayingPaired(g: Generated, t: nat)
    requires g.Sound() && t < |g.previous.tables| && g.Target(t).Some?
    ensures g.Target(t).value < |g.next.tables|
    ensures
      var p, q := g.previous.tables[t], g.next.tables[g.Target(t).value];
      && IndicesPaired(g.hints, p, q) && IsIndexDiff(g.hints, p, q, g.Indices(t))
      && Paired(g.hints.columns, p.columns, q.columns)
      && IsDiff(g.hints.columns, p.columns, q.columns, g.Columns(t))
  {
    TargetInRange(g, t);
    var n := g.Target(t).value;
    PairedIndices(g.previous, g.next, g.hints, t, n);
    PairedColumns(g, t, n);
    var from :| IsTablesDiff(g.previous, g.next, g.hints, g.tables, from);
    if t in from {
      var k: nat :| k < |from| && from[k] == t;
      EntryFacts(g, from, k, n);
    } else {
      UnlistedEntry(g, from, t);
      assert !HasToChange(g.previous, g.next, g.hints, t);
    }
  }

  /** Indexed columns that count as the same are kept. */
  lemma SameColumnsKept(h: HintMaps, p: Table, q: Table, columns: seq<ColumnDiff>, a: seq<ColumnId>, b: seq<ColumnId>)
    requires Paired(h.columns, p.columns, q.columns) && IsDiff(h.columns, p.columns, q.columns, columns)
    requires TablePlacesOk(p, p.id) && TablePlacesOk(q, q.id)
    requires OwnColumns(p, p.id, a) && OwnColumns(q, q.id, b) && SameColumns(h, p, q, a, b)
    ensures IdsKept(p.columns, q.columns, columns, a, b)
  {
    forall j | 0 <= j < |a|
      ensures Kept(p.columns, q.columns, columns, p.columns[a[j].index], q.columns[b[j].index])
    {
      assert SameIndexed(h, p, q, a[j], b[j]);
      assert p.columns[a[j].index].id == a[j] && q.columns[b[j].index].id == b[j];
      NextIsIndexed(h.columns, p.columns, q.columns, a[j].index, b[j].index);
      NextIsKept(h.columns, p.columns, q.columns, columns, a[j].index, q.columns[b[j].index]);
    }
  }

  lemma NextIsIndexed(hints: ColumnHints, previous: seq<Column>, next: seq<Column>, a: nat, b: nat)
    requires Paired(hints, previous, next) && a < |previous| && b < |next|
    requires if previous[a].id in hints then hints[previous[a].id] == next[b].id else previous[a].name == next[b].name
    ensures NextOf(hints, next, previous[a]) == Some(next[b])
  {
    var items := ColumnItems(next);
    NamedInFinds(items, previous[a].name);
    if previous[a].id !in hints {
      assert items[b].name == previous[a].name;
      var i: nat :| i < |items| && items[i] == Item(NamedIn(items, previous[a].name).value, previous[a].name);
      assert i < b || b < i || i == b;
    }
    assert TargetOf(hints, next, previous[a]) == Some(next[b].id);
    InHasId(next, next[b]);
    OnlyOneWithId(next, next[b]);
  }

  /** An index that became `y` unchanged is `y` in the database, if it followed its columns. */
  lemma FollowedIsNext(h: HintMaps, p: Table, q: Table, columns: seq<ColumnDiff>, x: Index, y: Index, db: Db)
    requires Paired(h.columns, p.columns, q.columns) && IsDiff(h.columns, p.columns, q.columns, columns)
    requires TablePlacesOk(p, p.id) && TablePlacesOk(q, q.id)
    requires x in p.indices && y in q.indices && SameIndex(h, p, q, x, y)
    requires Followed(p, q, columns, x, db)
    ensures HasIndex(q, y, db)
  {
    DiffIsCoherent(h.columns, p.columns, q.columns, columns);
    SameColumnsKept(h, p, q, columns, x.columns, y.columns);
    FollowedNames(
      p.columns, q.columns, columns, x.columns, y.columns, ColumnNames(x.columns, p.columns).value,
      db.indices[x.name].columns);
  }

  lemma CarriedHas(g: Generated, t: nat, n: nat, after: Db, y: Index)
    requires g.Sound() && t < |g.previous.tables| && g.Target(t) == Some(n) && n < |g.next.tables|
    requires IndicesCarried(g, t, n, after) && RebuildMakesAll(g, t)
    requires y in g.next.tables[n].indices && !y.primaryKey
    ensures HasIndex(g.next.tables[n], y, after)
  {
    var p, q := g.previous.tables[t], g.next.tables[n];
    StayingPaired(g, t);
    if !CreatesIndex(g.Indices(t), y) {
      var x := NotCreatedIsKept(g.hints, p, q, g.Indices(t), y);
      FollowedIsNext(g.hints, p, q, g.Columns(t), x, y, after);
    }
  }

  lemma CarriedOnly(g: Generated, t: nat, n: nat, after: Db, name: string)
    requires g.Sound() && t < |g.previous.tables| && g.Target(t) == Some(n) && n < |g.next.tables|
    requires IndicesCarried(g, t, n, after)
    requires name in after.indices && after.indices[name].table == g.next.tables[n].name
    ensures NamesIndex(g.next.tables[n], name)
  {
    var p, q := g.previous.tables[t], g.next.tables[n];
    StayingPaired(g, t);
    if CreatesNamed(g.Indices(t), name) {
      var k :| 0 <= k < |g.Indices(t)| && g.Indices(t)[k].Created().Some?
        && g.Indices(t)[k].Created().value.name == name;
      ChangesKnown(g.hints, p, q, g.Indices(t), k);
    } else {
      var k :| 0 <= k < |p.indices| && p.indices[k].name == name && !DropsIndex(g.Indices(t), p.indices[k]);
      var y := NotDroppedIsKept(g.hints, p, q, g.Indices(t), p.indices[k]);
      assert y.name == name;
    }
  }

  /** A rebuilt table has an index only if the diff creates it. */
  lemma RebuiltHasMade(g: Generated, t: nat, n: nat, after: Db, y: Index)
    requires g.Sound() && t < |g.previous.tables| && g.Target(t) == Some(n) && n < |g.next.tables|
    requires IndicesCarried(g, t, n, after) && g.Rebuilt(t)
    requires y in g.next.tables[n].indices && HasIndex(g.next.tables[n], y, after)
    ensures CreatesIndex(g.Indices(t), y)
  {
    StayingPaired(g, t);
    TableIndices(g.next, n);
    assert CreatesNamed(g.Indices(t), y.name);
    var k :| 0 <= k < |g.Indices(t)| && g.Indices(t)[k].Created().Some?
      && g.Indices(t)[k].Created().value.name == y.name;
    ChangesKnown(g.hints, g.previous.tables[t], g.next.tables[n], g.Indices(t), k);
  }

  lemma StayingExactly(g: Generated, t: nat, n: nat, after: Db)
    requires g.Sound() && t < |g.previous.tables| && g.Target(t) == Some(n) && n < |g.next.tables|
    requires IndicesCarried(g, t, n, after)
    ensures IndicesOn(g.next.tables[n], after) <==> RebuildMakesAll(g, t)
  {
    var q := g.next.tables[n];
    if RebuildMakesAll(g, t) {
      forall y | y in q.indices && !y.primaryKey
        ensures HasIndex(q, y, after)
      {
        CarriedHas(g, t, n, after, y);
      }
      forall name | name in after.indices && after.indices[name].table == q.name
        ensures NamesIndex(q, name)
      {
        CarriedOnly(g, t, n, after, name);
      }
    }
    if IndicesOn(q, after) && g.Rebuilt(t) {
      forall y | y in q.indices && !y.primaryKey
        ensures CreatesIndex(g.Indices(t), y)
      {
        RebuiltHasMade(g, t, n, after, y);
      }
    }
  }

  lemma StayingCarried(g: Generated, t: nat, start: Db, after: Db)
    requires g.Sound() && t < |g.previous.tables| && g.Target(t).Some?
    requires HoldsIndices(g.previous, start) && DropsNoKey(g) && DropsOwn(g.Diff(), start)
    requires IndexProgress(g.Diff(), |g.tables|, start, after)
    requires AllDelivered(g.Diff(), g.capability, g.Renamed(), |g.tables|, start, after)
    ensures g.Target(t).value < |g.next.tables| && IndicesCarried(g, t, g.Target(t).value, after)
  {
    TargetInRange(g, t);
    var from :| IsTablesDiff(g.previous, g.next, g.hints, g.tables, from);
    if t in from {
      var k: nat :| k < |from| && from[k] == t;
      assert IndicesDelivered(g.Diff().tables[k], g.capability, g.Renamed(), start, after);
      ListedIndices(g, from, k, g.Target(t).value, start, after);
    } else {
      UnlistedIndices(g, from, t, g.Target(t).value, start, after);
    }
  }

  /** From a database that holds the previous schema with its indices, a generated migration that goes
      through leaves every next table with exactly its indices, over the right columns, if and only if the
      diff creates or alters every index of each table it rebuilds. The indices of primary keys, which no
      statement drops with success, have names of their own. */
  lemma NextIndicesHeld(g: Generated, start: Db, after: Db)
    requires g.Sound() && HoldsSchema(g.previous, g.capability, start) && HoldsIndices(g.previous, start)
    requires KeyNamesFree(g, start) && Run(Plan(g.Diff(), g.capability), start) == Some(after)
    ensures HoldsIndices(g.next, after) <==> forall t :: 0 <= t < |g.previous.tables| ==> RebuildMakesAll(g, t)
  {
    AllStaying(g, start, after);
    forall n | 0 <= n < |g.next.tables|
      ensures IndicesOn(g.next.tables[n], after) || exists t: nat :: t < |g.previous.tables| && g.Target(t) == Some(n)
    {
      if !IsNewTable(g.previous, g.next, g.hints, n) {
        var t := BecameTable(g, n);
      }
    }
  }

  /** New tables have their indices, and those that stay exactly when a rebuild makes them all. */
  lemma AllStaying(g: Generated, start: Db, after: Db)
    requires g.Sound() && HoldsSchema(g.previous, g.capability, start) && HoldsIndices(g.previous, start)
    requires KeyNamesFree(g, start) && Run(Plan(g.Diff(), g.capability), start) == Some(after)
    ensures forall n :: 0 <= n < |g.next.tables| && IsNewTable(g.previous, g.next, g.hints, n) ==>
      IndicesOn(g.next.tables[n], after)
    ensures forall t :: 0 <= t < |g.previous.tables| && g.Target(t).Some? ==>
      && g.Target(t).value < |g.next.tables|
      && (IndicesOn(g.next.tables[g.Target(t).value], after) <==> RebuildMakesAll(g, t))
  {
    StartsSound(g, start);
    NoKeyDropped(g, start, after);
    IndicesSound(g, start);
    PlanIndexFate(g.Diff(), g.capability, start, after);
    forall t | 0 <= t < |g.previous.tables| && g.Target(t).Some?
      ensures g.Target(t).value < |g.next.tables|
      ensures IndicesOn(g.next.tables[g.Target(t).value], after) <==> RebuildMakesAll(g, t)
    {
      StayingCarried(g, t, start, after);
      StayingExactly(g, t, g.Target(t).value, after);
    }
    forall n | 0 <= n < |g.next.tables| && IsNewTable(g.previous, g.next, g.hints, n)
      ensures IndicesOn(g.next.tables[n], after)
    {
      NewTableIndices(g, n, start, after);
    }
  }
}
