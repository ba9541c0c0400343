/** The diff of two schemas' named enum types, and the catalogue of types it leads to. */
module TypeDiffing {
  import opened Wrappers
  import opened DbSchema
  import opened MigrationPlan
  import opened NextTables

  /** A named enum: its definition where it is first used, and the columns that use it. */
  datatype NamedType = NamedType(ty: TypeEnum, uses: set<(string, string, bool)>)

  type NamedTypes = map<string, NamedType>

  // ---- The types of a schema ----

  function WithUse(types: NamedTypes, table: string, c: Column): NamedTypes {
    if NameOf(c.storageTy).None? then types
    else
      var name, use := NameOf(c.storageTy).value, (table, c.name, c.storageTy.List?);
      if name in types then types[name := types[name].(uses := types[name].uses + {use})]
      else types[name := NamedType(NamedEnum(c.storageTy).value, {use})]
  }

  /** What the first `n` columns of a table add. */
  function WithColumns(types: NamedTypes, table: Table, n: nat): NamedTypes
    requires n <= |table.columns|
  {
    if n == 0 then types else WithUse(WithColumns(types, table, n - 1), table.name, table.columns[n - 1])
  }

  function Collected(tables: seq<Table>, n: nat): NamedTypes
    requires n <= |tables|
  {
    if n == 0 then map[]
    else WithColumns(Collected(tables, n - 1), tables[n - 1], |tables[n - 1].columns|)
  }

  function TypesOf(s: Schema): NamedTypes {
    Collected(s.tables, |s.tables|)
  }

  method CollectNamedEnums(s: Schema) returns (types: NamedTypes)
    ensures types == TypesOf(s)
  {
    types := map[];
    for t := 0 to |s.tables|
      invariant types == Collected(s.tables, t)
    {
      for i := 0 to |s.tables[t].columns|
        invariant types == WithColumns(Collected(s.tables, t), s.tables[t], i)
      {
        types := WithUse(types, s.tables[t].name, s.tables[t].columns[i]);
      }
    }
  }

  /** Each type is filed under its own name. */
  predicate NamesKnown(types: NamedTypes) {
    forall name <- types :: types[name].ty.name == Some(name)
  }

  lemma {:induction false} ColumnsKnown(types: NamedTypes, table: Table, n: nat)
    requires n <= |table.columns| && NamesKnown(types)
    ensures NamesKnown(WithColumns(types, table, n)) && types.Keys <= WithColumns(types, table, n).Keys
    ensures forall i :: 0 <= i < n && NameOf(table.columns[i].storageTy).Some? ==>
      NameOf(table.columns[i].storageTy).value in WithColumns(types, table, n)
  {
    if n > 0 {
      ColumnsKnown(types, table, n - 1);
    }
  }

  lemma {:induction false} CollectedKnown(tables: seq<Table>, n: nat)
    requires n <= |tables|
    ensures NamesKnown(Collected(tables, n))
    ensures forall t, i :: 0 <= t < n && 0 <= i < |tables[t].columns| && NameOf(tables[t].columns[i].storageTy).Some?
              ==> NameOf(tables[t].columns[i].storageTy).value in Collected(tables, n)
  {
    if n > 0 {
      CollectedKnown(tables, n - 1);
      ColumnsKnown(Collected(tables, n - 1), tables[n - 1], |tables[n - 1].columns|);
    }
  }

  // ---- The diff ----

  function Grown(p: TypeEnum, q: TypeEnum): seq<TypeDiff>
    requires p.variants <= q.variants
  {
    if p.variants == q.variants then [] else [AddVariants(q, q.variants[|p.variants|..])]
  }

  /** A previous type that may have become `name`: gone itself, used by the same columns, and a prefix. */
  predicate MayBecome(previous: NamedTypes, next: NamedTypes, taken: set<string>, from: string, name: string)
    requires name in next
  {
    && from in previous && from !in next && from !in taken
    && previous[from].uses == next[name].uses && previous[from].ty.variants <= next[name].ty.variants
  }

  /** What next type `name` comes from: itself, a type renamed to it, or nothing. */
  predicate ComesFrom(
    previous: NamedTypes, next: NamedTypes, taken: set<string>, name: string, from: Option<string>)
  {
    && name in next
    && if name in previous then
         from == Some(name) && previous[name].ty.variants <= next[name].ty.variants
       else if from.Some? then MayBecome(previous, next, taken, from.value, name)
       else forall other <- previous :: !MayBecome(previous, next, taken, other, name)
  }

  /** The changes for next type `name`. */
  function ChangesFor(previous: NamedTypes, next: NamedTypes, name: string, from: Option<string>): seq<TypeDiff>
    requires name in next
    requires from.Some? ==>
      from.value in previous && previous[from.value].ty.variants <= next[name].ty.variants
  {
    if from.None? then [TypeDiff.Create(next[name].ty)]
    else
      (if from.value == name then [] else [TypeDiff.Rename(previous[from.value].ty, next[name].ty)])
      + Grown(previous[from.value].ty, next[name].ty)
  }

  /** The names renamed away among the first `n`. */
  function RenamedAway(order: seq<string>, from: seq<Option<string>>, n: nat): set<string>
    requires n <= |order| && n <= |from|
  {
    set k | 0 <= k < n && from[k].Some? && from[k].value != order[k] :: from[k].value
  }

  /** Each of the first `n` names comes from where it is said to. */
  predicate Sourced(
    previous: NamedTypes, next: NamedTypes, order: seq<string>, from: seq<Option<string>>, n: nat)
    requires n <= |order| && n <= |from|
  {
    forall k :: 0 <= k < n ==> ComesFrom(previous, next, RenamedAway(order, from, k), order[k], from[k])
  }

  function ChangesUpTo(
    previous: NamedTypes, next: NamedTypes, order: seq<string>, from: seq<Option<string>>, n: nat): seq<TypeDiff>
    requires n <= |order| && n <= |from| && Sourced(previous, next, order, from, n)
  {
    if n == 0 then []
    else
      assert ComesFrom(previous, next, RenamedAway(order, from, n - 1), order[n - 1], from[n - 1]);
      ChangesUpTo(previous, next, order, from, n - 1) + ChangesFor(previous, next, order[n - 1], from[n - 1])
  }

  ghost predicate EachOnce(order: seq<string>, names: set<string>) {
    && (forall k, l :: 0 <= k < l < |order| ==> order[k] != order[l])
    && (forall name :: name in names <==> name in order)
  }

  /** The diff in some order of the next types, renames included. */
  ghost predicate IsTypesDiff(
    previous: NamedTypes, next: NamedTypes, diff: seq<TypeDiff>, order: seq<string>, from: seq<Option<string>>)
  {
    && EachOnce(order, next.Keys) && |from| == |order|
    && Sourced(previous, next, order, from, |order|)
    && diff == ChangesUpTo(previous, next, order, from, |order|)
  }

  ghost predicate TypesComputed(previous: Schema, next: Schema, diff: seq<TypeDiff>) {
    exists order: seq<string>, from: seq<Option<string>> ::
      IsTypesDiff(TypesOf(previous), TypesOf(next), diff, order, from)
  }

  /** The type `name` may have been before, if it was not `name`. */
  method FindRenamed(previous: NamedTypes, next: NamedTypes, taken: set<string>, name: string)
      returns (from: Option<string>)
    requires name in next
    ensures from.Some? ==> MayBecome(previous, next, taken, from.value, name)
    ensures from.None? ==> forall other <- previous :: !MayBecome(previous, next, taken, other, name)
  {
    var left := previous.Keys;
    while left != {}
      invariant left <= previous.Keys
      invariant forall other <- previous.Keys - left :: !MayBecome(previous, next, taken, other, name)
      decreases left
    {
      var other :| other in left;
      if MayBecome(previous, next, taken, other, name) {
        return Some(other);
      }
      left := left - {other};
    }
    from := None;
  }

  /** The diff as it is computed; `None` where it panics because a type lost variants. */
  method Diff(previous: Schema, next: Schema) returns (diff: Option<seq<TypeDiff>>)
    ensures diff.Some? ==> TypesComputed(previous, next, diff.value)
    ensures diff.None? ==> exists name ::
      && name in TypesOf(previous) && name in TypesOf(next)
      && !(TypesOf(previous)[name].ty.variants <= TypesOf(next)[name].ty.variants)
  {
    var p := CollectNamedEnums(previous);
    var q := CollectNamedEnums(next);
    ghost var order: seq<string>, from: seq<Option<string>> := [], [];
    var changes: seq<TypeDiff>, renamed: set<string>, left := [], {}, q.Keys;
    while left != {}
      invariant left <= q.Keys && EachOnce(order, q.Keys - left) && |from| == |order|
      invariant renamed == RenamedAway(order, from, |order|)
      invariant Sourced(p, q, order, from, |order|) && changes == ChangesUpTo(p, q, order, from, |order|)
      decreases left
    {
      var name :| name in left;
      var source: Option<string>;
      if name in p {
        if !(p[name].ty.variants <= q[name].ty.variants) {
          return None;
        }
        source := Some(name);
      } else {
        source := FindRenamed(p, q, renamed, name);
      }
      OneMoreName(p, q, order, from, name, source);
      changes := changes + ChangesFor(p, q, name, source);
      if source.Some? && source.value != name {
        renamed := renamed + {source.value};
      }
      left := left - {name};
      order, from := order + [name], from + [source];
    }
    assert IsTypesDiff(p, q, changes, order, from);
    diff := Some(changes);
  }

  lemma RenamedAwayNext(order: seq<string>, from: seq<Option<string>>, name: string, source: Option<string>, n: nat)
    requires |order| == |from| && n <= |order|
    ensures RenamedAway(order + [name], from + [source], n) == RenamedAway(order, from, n)
    ensures RenamedAway(order + [name], from + [source], |order| + 1)
         == RenamedAway(order, from, |order|) + if source.Some? && source.value != name then {source.value} else {}
  {
    var more, sources := order + [name], from + [source];
    assert more[|order|] == name && sources[|order|] == source;
    assert forall k :: 0 <= k < |order| ==> more[k] == order[k] && sources[k] == from[k];
  }

  lemma {:induction false} ChangesPrefix(
    previous: NamedTypes, next: NamedTypes, order: seq<string>, from: seq<Option<string>>, name: string,
    source: Option<string>, n: nat)
    requires |order| == |from| && n <= |order| && Sourced(previous, next, order, from, n)
    ensures Sourced(previous, next, order + [name], from + [source], n)
    ensures ChangesUpTo(previous, next, order + [name], from + [source], n)
         == ChangesUpTo(previous, next, order, from, n)
  {
    var more, sources := order + [name], from + [source];
    forall k | 0 <= k < n
      ensures ComesFrom(previous, next, RenamedAway(more, sources, k), more[k], sources[k])
    {
      RenamedAwayNext(order, from, name, source, k);
    }
    if n > 0 {
      ChangesPrefix(previous, next, order, from, name, source, n - 1);
    }
  }

  lemma OneMoreName(
    previous: NamedTypes, next: NamedTypes, order: seq<string>, from: seq<Option<string>>, name: string,
    source: Option<string>)
    requires |order| == |from| && Sourced(previous, next, order, from, |order|)
    requires ComesFrom(previous, next, RenamedAway(order, from, |order|), name, source)
    ensures Sourced(previous, next, order + [name], from + [source], |order| + 1)
    ensures ChangesUpTo(previous, next, order + [name], from + [source], |order| + 1)
         == ChangesUpTo(previous, next, order, from, |order|) + ChangesFor(previous, next, name, source)
    ensures RenamedAway(order + [name], from + [source], |order| + 1)
         == RenamedAway(order, from, |order|) + if source.Some? && source.value != name then {source.value} else {}
  {
    var more, sources := order + [name], from + [source];
    ChangesPrefix(previous, next, order, from, name, source, |order|);
    RenamedAwayNext(order, from, name, source, |order|);
    assert more[|order|] == name && sources[|order|] == source;
    SourcedNext(previous, next, more, sources, |order|);
  }

  lemma SourcedNext(
    previous: NamedTypes, next: NamedTypes, order: seq<string>, from: seq<Option<string>>, n: nat)
    requires n < |order| && n < |from| && Sourced(previous, next, order, from, n)
    requires ComesFrom(previous, next, RenamedAway(order, from, n), order[n], from[n])
    ensures Sourced(previous, next, order, from, n + 1)
    ensures ChangesUpTo(previous, next, order, from, n + 1)
         == ChangesUpTo(previous, next, order, from, n) + ChangesFor(previous, next, order[n], from[n])
  {
  }
}
