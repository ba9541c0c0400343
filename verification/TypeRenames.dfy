/** Which named types the diff takes for renamed, by the columns that use them; and which changes to a
    column are left to its type. */
module TypeRenames {
  import opened Wrappers
  import opened DbSchema
  import opened MigrationPlan
  import opened InPlaceMigration
  import opened NextTables
  import opened TypeDiffing
  import opened TypeCatalogue

  type Use = (string, string, bool)

  predicate UsesIt(table: Table, c: Column, name: string, use: Use) {
    NameOf(c.storageTy) == Some(name) && use == (table.name, c.name, c.storageTy.List?)
  }

  /** A column of the schema, so named and in a table so named, is of the named enum, bare or in a list. */
  predicate Used(s: Schema, name: string, use: Use) {
    UsedIn(s.tables, |s.tables|, name, use)
  }

  predicate UsedIn(tables: seq<Table>, n: nat, name: string, use: Use)
    requires n <= |tables|
  {
    exists t :: 0 <= t < n && UsedBy(tables[t], |tables[t].columns|, name, use)
  }

  predicate UsedBy(table: Table, n: nat, name: string, use: Use)
    requires n <= |table.columns|
  {
    exists i :: 0 <= i < n && UsesIt(table, table.columns[i], name, use)
  }

  function UsesOf(types: NamedTypes, name: string): set<Use> {
    if name in types then types[name].uses else {}
  }

  lemma {:induction false} ColumnsUse(types: NamedTypes, table: Table, n: nat, name: string, use: Use)
    requires n <= |table.columns|
    ensures use in UsesOf(WithColumns(types, table, n), name)
       <==> use in UsesOf(types, name) || UsedBy(table, n, name, use)
  {
    if n > 0 {
      var k: nat := n - 1;
      ColumnsUse(types, table, k, name, use);
      var c := table.columns[k];
      assert use in UsesOf(WithColumns(types, table, n), name)
        <==> use in UsesOf(WithColumns(types, table, k), name) || UsesIt(table, c, name, use);
      assert UsedBy(table, n, name, use) <==> UsedBy(table, k, name, use) || UsesIt(table, c, name, use);
    }
  }

  /** A type's uses are the columns of it. */
  lemma {:induction false} CollectedUses(tables: seq<Table>, n: nat, name: string, use: Use)
    requires n <= |tables|
    ensures use in UsesOf(Collected(tables, n), name) <==> UsedIn(tables, n, name, use)
  {
    if n > 0 {
      var k: nat := n - 1;
      CollectedUses(tables, k, name, use);
      ColumnsUse(Collected(tables, k), tables[k], |tables[k].columns|, name, use);
      assert UsedIn(tables, n, name, use)
        <==> UsedIn(tables, k, name, use) || UsedBy(tables[k], |tables[k].columns|, name, use);
    }
  }

  /** The two types are used by columns of the same names in tables of the same names. */
  ghost predicate SameUses(previous: Schema, from: string, next: Schema, to: string) {
    forall use: Use :: Used(previous, from, use) <==> Used(next, to, use)
  }

  lemma UsesAgree(previous: Schema, from: string, next: Schema, to: string)
    requires from in TypesOf(previous) && to in TypesOf(next)
    ensures TypesOf(previous)[from].uses == TypesOf(next)[to].uses <==> SameUses(previous, from, next, to)
  {
    var a, b := TypesOf(previous)[from].uses, TypesOf(next)[to].uses;
    forall use: Use
      ensures use in a <==> Used(previous, from, use)
      ensures use in b <==> Used(next, to, use)
    {
      CollectedUses(previous.tables, |previous.tables|, from, use);
      CollectedUses(next.tables, |next.tables|, to, use);
    }
  }

  // ---- The renames and creations of a diff ----

  /** `from` and `to` may be one type: each has gone or come, they are used alike, and variants were only
      added at the end. */
  ghost predicate LooksRenamed(previous: Schema, next: Schema, from: string, to: string) {
    && from in TypesOf(previous) && from !in TypesOf(next) && to in TypesOf(next) && to !in TypesOf(previous)
    && SameUses(previous, from, next, to)
    && TypesOf(previous)[from].ty.variants <= TypesOf(next)[to].ty.variants
  }

  /** A rename is between types that look renamed; a type is created only if none that is left looks like
      it. */
  ghost predicate ChangeFounded(previous: Schema, next: Schema, d: TypeDiff, renamed: RenamedTypes) {
    match d
    case Create(ty) =>
      && ty.name.Some? && ty.name.value in TypesOf(next) && ty.name.value !in TypesOf(previous)
      && forall from <- TypesOf(previous) ::
           LooksRenamed(previous, next, from, ty.name.value) ==> exists pair <- renamed :: pair.0 == Some(from)
    case Rename(p, q) =>
      p.name.Some? && q.name.Some? && LooksRenamed(previous, next, p.name.value, q.name.value)
    case AddVariants(_, _) => true
  }

  lemma {:induction false} AwayIsRenamed(order: seq<string>, from: seq<Option<string>>, n: nat, name: string)
    requires n <= |order| && n <= |from| && name in RenamedAway(order, from, n)
    ensures exists pair <- RenamePairs(order, from, n) :: pair.0 == Some(name)
  {
    var k: nat := n - 1;
    var pairs := RenamePairs(order, from, n);
    if from[k] == Some(name) && name != order[k] {
      assert pairs[|pairs| - 1] == (Some(name), Some(order[k]));
    } else {
      AwayIsRenamed(order, from, k, name);
      var pair :| pair in RenamePairs(order, from, k) && pair.0 == Some(name);
      assert pair in pairs;
    }
  }

  lemma {:induction false} PairsGrow(order: seq<string>, from: seq<Option<string>>, k: nat, n: nat)
    requires k <= n <= |order| && n <= |from|
    ensures forall pair <- RenamePairs(order, from, k) :: pair in RenamePairs(order, from, n)
  {
    if k < n {
      PairsGrow(order, from, k, n - 1);
    }
  }

  /** The changes for one name, given where it comes from. */
  lemma OneFounded(
    previous: Schema, next: Schema, taken: set<string>, name: string, from: Option<string>, renamed: RenamedTypes)
    requires NamesKnown(TypesOf(previous)) && NamesKnown(TypesOf(next))
    requires ComesFrom(TypesOf(previous), TypesOf(next), taken, name, from)
    requires forall other <- taken :: exists pair <- renamed :: pair.0 == Some(other)
    ensures forall d <- ChangesFor(TypesOf(previous), TypesOf(next), name, from) ::
      ChangeFounded(previous, next, d, renamed)
  {
    var p, q := TypesOf(previous), TypesOf(next);
    if from.None? {
      forall other | other in p && LooksRenamed(previous, next, other, name)
        ensures exists pair <- renamed :: pair.0 == Some(other)
      {
        UsesAgree(previous, other, next, name);
        assert !MayBecome(p, q, taken, other, name);
      }
    } else if from.value != name {
      UsesAgree(previous, from.value, next, name);
    }
  }

  lemma {:induction false} AllFounded(
    previous: Schema, next: Schema, order: seq<string>, from: seq<Option<string>>, n: nat, renamed: RenamedTypes)
    requires n <= |order| && n <= |from| && NamesKnown(TypesOf(previous)) && NamesKnown(TypesOf(next))
    requires Sourced(TypesOf(previous), TypesOf(next), order, from, n)
    requires forall pair <- RenamePairs(order, from, n) :: pair in renamed
    ensures forall d <- ChangesUpTo(TypesOf(previous), TypesOf(next), order, from, n) ::
      ChangeFounded(previous, next, d, renamed)
  {
    if n > 0 {
      var k: nat := n - 1;
      PairsGrow(order, from, k, n);
      AllFounded(previous, next, order, from, k, renamed);
      forall other | other in RenamedAway(order, from, k)
        ensures exists pair <- renamed :: pair.0 == Some(other)
      {
        AwayIsRenamed(order, from, k, other);
      }
      assert ComesFrom(TypesOf(previous), TypesOf(next), RenamedAway(order, from, k), order[k], from[k]);
      OneFounded(previous, next, RenamedAway(order, from, k), order[k], from[k], renamed);
    }
  }

  /** Every rename the diff finds is between types that were used by the same columns, and every type it
      creates is one that no type left over could have become. */
  lemma RenamesFounded(previous: Schema, next: Schema, types: seq<TypeDiff>)
    requires TypesComputed(previous, next, types)
    ensures forall d <- types :: ChangeFounded(previous, next, d, RenamedTypesOf(types))
  {
    var p, q := TypesOf(previous), TypesOf(next);
    var order, from :| IsTypesDiff(p, q, types, order, from);
    CollectedKnown(previous.tables, |previous.tables|);
    CollectedKnown(next.tables, |next.tables|);
    RenamesAre(p, q, order, from, |order|);
    AllFounded(previous, next, order, from, |order|, RenamedTypesOf(types));
  }

  // ---- What is left to a type ----

  /** No type is renamed to a name that is renamed away. */
  predicate NoChain(renamed: RenamedTypes) {
    forall k, l :: 0 <= k < |renamed| && 0 <= l < |renamed| ==> renamed[k].1 != renamed[l].0
  }

  lemma RenamesEnd(previous: Schema, next: Schema, types: seq<TypeDiff>)
    requires TypesComputed(previous, next, types)
    ensures NoChain(RenamedTypesOf(types))
  {
    var p, q := TypesOf(previous), TypesOf(next);
    var order, from :| IsTypesDiff(p, q, types, order, from);
    CollectedKnown(previous.tables, |previous.tables|);
    CollectedKnown(next.tables, |next.tables|);
    RenamesAre(p, q, order, from, |order|);
    PairsTaken(p, q, order, from, |order|);
    var renamed := RenamedTypesOf(types);
    forall k, l | 0 <= k < |renamed| && 0 <= l < |renamed|
      ensures renamed[k].1 != renamed[l].0
    {
      assert renamed[k] in renamed && renamed[l] in renamed;
    }
  }

  /** What a type's name is after `n` renames: the new one of the pair it is the old one of, if any. */
  predicate NameAfter(renamed: RenamedTypes, n: nat, before: Option<string>, after: Option<string>)
    requires n <= |renamed|
  {
    || (before == after && forall k :: 0 <= k < n ==> renamed[k].0 != before)
    || exists k :: 0 <= k < n && renamed[k] == (before, after)
  }

  lemma {:induction false} EnumAfter(renamed: RenamedTypes, n: nat, before: Option<string>)
      returns (after: Option<string>)
    requires n <= |renamed| && NoChain(renamed)
    ensures Retyped(Enum(TypeEnum(before, [])), renamed, n) == Enum(TypeEnum(after, []))
    ensures Retyped(List(Enum(TypeEnum(before, []))), renamed, n) == List(Enum(TypeEnum(after, [])))
    ensures NameAfter(renamed, n, before, after)
  {
    if n == 0 {
      after := before;
    } else {
      var k: nat := n - 1;
      var mid := EnumAfter(renamed, k, before);
      after := if mid == renamed[k].0 then renamed[k].1 else mid;
      if mid == renamed[k].0 {
        assert mid == before;
        assert renamed[k] == (before, after);
      }
    }
  }

  /** On PostgreSQL a change is left to a named type exactly when the type's own statements bring the column
      its next definition, and its part in the key stays. */
  lemma OnTypeExactly(next: seq<Column>, renamed: RenamedTypes, p: Column, q: Column)
    requires NoChain(renamed) && RenamedOnce(renamed) && NamesAlive(next, renamed) && q in next
    ensures OnType(p, q, POSTGRESQL, renamed)
       <==> && NameOf(p.storageTy).Some? && NameOf(q.storageTy).Some? && p.primaryKey == q.primaryKey
            && StartDef(p, POSTGRESQL, renamed) == DefOf(q, POSTGRESQL)
  {
    if NameOf(p.storageTy).Some? && NameOf(q.storageTy).Some? {
      NamedIsWritten(p.storageTy, POSTGRESQL);
      NamedIsWritten(q.storageTy, POSTGRESQL);
      var after := EnumAfter(renamed, |renamed|, NameOf(p.storageTy));
      if OnType(p, q, POSTGRESQL, renamed) {
        TypeFollows(next, POSTGRESQL, renamed, p, q);
      }
    }
  }
}
