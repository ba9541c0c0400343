/** Where each column of the next table comes from, and what that says about its rows. */
module ColumnLineage {
  import opened Wrappers
  import opened DbSchema
  import opened MigrationPlan
  import opened Database

  /** The previous-side column a change consumes. */
  function Consumed(d: ColumnDiff): Option<Column> {
    match d
    case Add(_) => None
    case Drop(c) => Some(c)
    case Alter(p, _) => Some(p)
  }

  /** The next-side column a change produces. */
  function Produced(d: ColumnDiff): Option<Column> {
    match d
    case Add(c) => Some(c)
    case Drop(_) => None
    case Alter(_, q) => Some(q)
  }

  predicate DistinctColumns(columns: seq<Column>) {
    forall i, j :: 0 <= i < j < |columns| ==> columns[i].name != columns[j].name && columns[i].id != columns[j].id
  }

  predicate Touched(columns: seq<ColumnDiff>, n: nat, p: Column)
    requires n <= |columns|
  {
    exists i :: 0 <= i < n && Consumed(columns[i]) == Some(p)
  }

  predicate Made(columns: seq<ColumnDiff>, q: Column) {
    exists i :: 0 <= i < |columns| && Produced(columns[i]) == Some(q)
  }

  /** The two versions of a column no change mentions agree in all that a change could mention. */
  predicate SameColumn(p: Column, q: Column)
    ensures SameColumn(p, q) <==> p.(id := q.id) == q
  {
    && p.name == q.name && p.storageTy == q.storageTy && p.nullable == q.nullable
    && p.primaryKey == q.primaryKey && p.autoIncrement == q.autoIncrement && p.versionable == q.versionable
  }

  function UntouchedNames(previous: seq<Column>, columns: seq<ColumnDiff>): set<string> {
    set p | p in previous && !Touched(columns, |columns|, p) :: p.name
  }

  function UnmadeNames(next: seq<Column>, columns: seq<ColumnDiff>): set<string> {
    set q | q in next && !Made(columns, q) :: q.name
  }

  /** What a list of column changes between two column lists has to satisfy to describe their
      difference: each change speaks of columns that exist, no column is spoken of twice, and the
      columns left out pair up under their names. */
  ghost predicate Coherent(previous: seq<Column>, next: seq<Column>, columns: seq<ColumnDiff>) {
    && DistinctColumns(previous) && DistinctColumns(next)
    && (forall i :: 0 <= i < |columns| ==>
          && (Consumed(columns[i]).Some? ==> Consumed(columns[i]).value in previous)
          && (Produced(columns[i]).Some? ==> Produced(columns[i]).value in next))
    && (forall i, j :: 0 <= i < j < |columns| ==>
          && (Consumed(columns[i]).Some? ==> Consumed(columns[i]) != Consumed(columns[j]))
          && (Produced(columns[i]).Some? ==> Produced(columns[i]) != Produced(columns[j])))
    && UntouchedNames(previous, columns) == UnmadeNames(next, columns)
    && (forall p, q | p in previous && q in next ::
          p.name == q.name && !Touched(columns, |columns|, p) && !Made(columns, q) ==> SameColumn(p, q))
  }

  /** `q` is the next version of `p`. */
  ghost predicate Kept(previous: seq<Column>, next: seq<Column>, columns: seq<ColumnDiff>, p: Column, q: Column) {
    && p in previous && q in next
    && (ColumnDiff.Alter(p, q) in columns
        || (!Touched(columns, |columns|, p) && !Made(columns, q) && p.name == q.name))
  }

  /** Column `b` of row `s` holds what column `a` of row `r` holds. */
  predicate SameValue(r: Row, a: string, s: Row, b: string) {
    (a in r <==> b in s) && (a in r ==> r[a] == s[b])
  }

  /** `after` carries the data of `before`: a kept column's value is under its next name, and
      nothing else is filled. */
  ghost predicate RowMigrates(
    previous: seq<Column>, next: seq<Column>, columns: seq<ColumnDiff>, before: Row, after: Row)
  {
    && (forall p, q :: Kept(previous, next, columns, p, q) ==> SameValue(before, p.name, after, q.name))
    && (forall name :: name in after ==> exists p, q :: Kept(previous, next, columns, p, q) && q.name == name)
  }

  /** The migrated row is determined. */
  lemma RowMigratesUnique(
    previous: seq<Column>, next: seq<Column>, columns: seq<ColumnDiff>, before: Row, a: Row, b: Row)
    requires RowMigrates(previous, next, columns, before, a)
    requires RowMigrates(previous, next, columns, before, b)
    ensures a == b
  {
    forall name | name in a
      ensures name in b && b[name] == a[name]
    {
      var p, q :| Kept(previous, next, columns, p, q) && q.name == name;
      assert SameValue(before, p.name, a, q.name) && SameValue(before, p.name, b, q.name);
    }
    forall name | name in b
      ensures name in a
    {
      var p, q :| Kept(previous, next, columns, p, q) && q.name == name;
      assert SameValue(before, p.name, a, q.name) && SameValue(before, p.name, b, q.name);
    }
  }

  /** Every next column is new or has exactly one previous version. */
  lemma LineageOf(previous: seq<Column>, next: seq<Column>, columns: seq<ColumnDiff>, q: Column)
    returns (p: Option<Column>)
    requires Coherent(previous, next, columns) && q in next
    ensures p.None? <==> ColumnDiff.Add(q) in columns
    ensures p.Some? ==> Kept(previous, next, columns, p.value, q)
    ensures forall p' :: Kept(previous, next, columns, p', q) ==> p == Some(p')
  {
    if Made(columns, q) {
      var i :| 0 <= i < |columns| && Produced(columns[i]) == Some(q);
      if columns[i].Add? {
        p := None;
        assert columns[i] == ColumnDiff.Add(q);
      } else {
        p := Some(columns[i].previous);
        assert columns[i] == ColumnDiff.Alter(p.value, q);
      }
    } else {
      assert q.name in UnmadeNames(next, columns);
      var p0 :| p0 in previous && !Touched(columns, |columns|, p0) && p0.name == q.name;
      p := Some(p0);
      forall i | 0 <= i < |columns|
        ensures columns[i] != ColumnDiff.Add(q)
      {
        assert Produced(columns[i]) != Some(q);
      }
    }
    forall p' | Kept(previous, next, columns, p', q)
      ensures p == Some(p')
    {
      if ColumnDiff.Alter(p', q) in columns {
        var j :| 0 <= j < |columns| && columns[j] == ColumnDiff.Alter(p', q);
        assert Produced(columns[j]) == Some(q);
      }
    }
  }

  lemma AddIsAdded(columns: seq<ColumnDiff>, q: Column)
    ensures ColumnDiff.Add(q) in columns ==> IsAdded(q, columns)
  {
  }
}
