/** Column ids across a migration: which of the next table name what ids of the previous one named. */
module KeyColumns {
  import opened Wrappers
  import opened DbSchema
  import opened MigrationPlan
  import opened Database
  import opened ColumnLineage
  import opened InPlaceMigration

  predicate InColumns(ids: seq<ColumnId>, columns: seq<Column>) {
    forall j :: 0 <= j < |ids| ==> ids[j].index < |columns|
  }

  lemma {:induction false} ColumnNamesAt(ids: seq<ColumnId>, columns: seq<Column>)
    ensures ColumnNames(ids, columns).Some? <==> InColumns(ids, columns)
    ensures ColumnNames(ids, columns).Some? ==>
      var names := ColumnNames(ids, columns).value;
      |names| == |ids| && forall j :: 0 <= j < |ids| ==> names[j] == columns[ids[j].index].name
  {
    if ids != [] {
      ColumnNamesAt(ids[1..], columns);
      if InColumns(ids, columns) {
        assert InColumns(ids[1..], columns);
      } else if ids[0].index < |columns| {
        var j :| 0 <= j < |ids| && ids[j].index >= |columns|;
        assert ids[1..][j - 1] == ids[j];
      }
    }
  }

  /** Column for column, `ids'` are the next versions of `ids`. */
  ghost predicate IdsKept(
    previous: seq<Column>, next: seq<Column>, columns: seq<ColumnDiff>, ids: seq<ColumnId>, ids': seq<ColumnId>)
  {
    && |ids| == |ids'| && InColumns(ids, previous) && InColumns(ids', next)
    && forall j :: 0 <= j < |ids| ==> Kept(previous, next, columns, previous[ids[j].index], next[ids'[j].index])
  }

  /** Where names follow their columns, those of `ids` become those of `ids'` exactly when these are the
      next versions of those. */
  lemma FollowedNames(
    previous: seq<Column>, next: seq<Column>, columns: seq<ColumnDiff>, ids: seq<ColumnId>, ids': seq<ColumnId>,
    names: seq<string>, names': seq<string>)
    requires Coherent(previous, next, columns) && Some(names) == ColumnNames(ids, previous)
    requires KeysFollow(previous, next, columns, names, names')
    ensures Some(names') == ColumnNames(ids', next) <==> IdsKept(previous, next, columns, ids, ids')
  {
    ColumnNamesAt(ids, previous);
    NamesAre(ids', next, names');
    if InColumns(ids', next) && |ids'| == |ids| {
      forall j | 0 <= j < |ids|
        ensures names'[j] == next[ids'[j].index].name
           <==> Kept(previous, next, columns, previous[ids[j].index], next[ids'[j].index])
      {
        FollowedName(previous, next, columns, ids[j].index, ids'[j].index, names'[j]);
      }
    }
  }

  lemma NamesAre(ids: seq<ColumnId>, columns: seq<Column>, names: seq<string>)
    ensures Some(names) == ColumnNames(ids, columns)
       <==> InColumns(ids, columns) && |names| == |ids|
            && forall j :: 0 <= j < |ids| ==> names[j] == columns[ids[j].index].name
  {
    ColumnNamesAt(ids, columns);
    if InColumns(ids, columns) && |names| == |ids|
       && forall j :: 0 <= j < |ids| ==> names[j] == columns[ids[j].index].name
    {
      assert names == ColumnNames(ids, columns).value;
    }
  }

  lemma FollowedName(
    previous: seq<Column>, next: seq<Column>, columns: seq<ColumnDiff>, a: nat, b: nat, name': string)
    requires Coherent(previous, next, columns) && a < |previous| && b < |next|
    requires SameKey(previous, next, columns, previous[a].name, name')
    ensures name' == next[b].name <==> Kept(previous, next, columns, previous[a], next[b])
  {
    var p, q :| Kept(previous, next, columns, p, q) && p.name == previous[a].name && q.name == name';
    SameNameSame(previous, p, previous[a]);
    if name' == next[b].name {
      SameNameSame(next, q, next[b]);
    }
    if Kept(previous, next, columns, previous[a], next[b]) {
      OneNext(previous, next, columns, previous[a], q, next[b]);
    }
  }

  lemma SameNameSame(columns: seq<Column>, a: Column, b: Column)
    requires DistinctColumns(columns) && a in columns && b in columns && a.name == b.name
    ensures a == b
  {
    var i: nat :| i < |columns| && columns[i] == a;
    var j: nat :| j < |columns| && columns[j] == b;
    assert i < j || j < i || i == j;
  }

  /** A column has one next version at most. */
  lemma OneNext(previous: seq<Column>, next: seq<Column>, columns: seq<ColumnDiff>, p: Column, q: Column, q': Column)
    requires Coherent(previous, next, columns)
    requires Kept(previous, next, columns, p, q) && Kept(previous, next, columns, p, q')
    ensures q == q'
  {
    if ColumnDiff.Alter(p, q) in columns {
      AlterTouches(columns, p, q);
    }
    if ColumnDiff.Alter(p, q') in columns {
      AlterTouches(columns, p, q');
    }
    if Touched(columns, |columns|, p) {
      var i: nat :| i < |columns| && columns[i] == ColumnDiff.Alter(p, q);
      var j: nat :| j < |columns| && columns[j] == ColumnDiff.Alter(p, q');
      assert Consumed(columns[i]) == Consumed(columns[j]);
      assert i < j || j < i || i == j;
    } else {
      SameNameSame(next, q, q');
    }
  }

  lemma AlterTouches(columns: seq<ColumnDiff>, p: Column, q: Column)
    requires ColumnDiff.Alter(p, q) in columns
    ensures Touched(columns, |columns|, p)
  {
    var i :| 0 <= i < |columns| && columns[i] == ColumnDiff.Alter(p, q);
    assert Consumed(columns[i]) == Some(p);
  }
}
