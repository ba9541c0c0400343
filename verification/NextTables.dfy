/** When the tables a plan leaves are the next ones in full: their definitions and their keys. */
module NextTables {
  import opened Wrappers
  import opened DbSchema
  import opened MigrationPlan
  import opened Database
  import opened ColumnLineage
  import opened InPlaceMigration
  import opened KeyColumns
  import opened MigrationStrategies
  import opened WholePlan

  // ---- Renamed types ----

  /** The type, or what it is a list of, goes by the name. */
  predicate Calls(ty: Type, name: Option<string>) {
    match ty
    case Enum(e) => e.name == name
    case List(elem) => Calls(elem, name)
    case _ => false
  }

  predicate RenamedOnce(renamed: RenamedTypes) {
    forall k, l :: 0 <= k < l < |renamed| ==> renamed[k].0 != renamed[l].0
  }

  /** No column's type goes by a name that was renamed away. */
  predicate NamesAlive(next: seq<Column>, renamed: RenamedTypes) {
    forall i, k :: 0 <= i < |next| && 0 <= k < |renamed| ==> !Calls(next[i].storageTy, renamed[k].0)
  }

  lemma {:induction false} NotCalled(ty: Type, renamed: RenamedTypes, n: nat)
    requires n <= |renamed| && forall k :: 0 <= k < n ==> !Calls(ty, renamed[k].0)
    ensures Retyped(ty, renamed, n) == ty
  {
    if n > 0 {
      NotCalled(ty, renamed, n - 1);
      NotRenamed(ty, renamed[n - 1].0, renamed[n - 1].1);
    }
  }

  lemma {:induction false} NotRenamed(ty: Type, from: Option<string>, to: Option<string>)
    requires !Calls(ty, from)
    ensures RenamedIn(ty, from, to) == ty
  {
    if ty.List? {
      NotRenamed(ty.elem, from, to);
    }
  }

  lemma {:induction false} WrittenCalls(ty: Type, capability: Capability, name: Option<string>)
    ensures Calls(Written(ty, capability), name) <==> Calls(ty, name)
  {
    if ty.List? {
      WrittenCalls(ty.elem, capability, name);
    }
  }

  /** A next column's type keeps its name. */
  lemma NextStays(next: seq<Column>, capability: Capability, renamed: RenamedTypes, q: Column)
    requires (capability.namedEnumTypes ==> NamesAlive(next, renamed)) && q in next
    ensures TypeStays(q, capability, renamed)
  {
    if capability.namedEnumTypes {
      LivingStays(next, capability, renamed, q);
    }
  }

  lemma LivingStays(next: seq<Column>, capability: Capability, renamed: RenamedTypes, q: Column)
    requires NamesAlive(next, renamed) && q in next
    ensures TypeStays(q, capability, renamed)
  {
    var i :| 0 <= i < |next| && next[i] == q;
    var ty := DefOf(q, capability).ty;
    forall k | 0 <= k < |renamed|
      ensures !Calls(ty, renamed[k].0)
    {
      WrittenCalls(q.storageTy, capability, renamed[k].0);
    }
    NotCalled(ty, renamed, |renamed|);
  }

  /** Renamed once, and not before or after, a type ends under its new name. */
  lemma {:induction false} RetypedThrough(from: Type, to: Type, renamed: RenamedTypes, k: nat, n: nat)
    requires k < n <= |renamed| && RenamedIn(from, renamed[k].0, renamed[k].1) == to
    requires forall j :: 0 <= j < k ==> !Calls(from, renamed[j].0)
    requires forall j :: k < j < n ==> !Calls(to, renamed[j].0)
    ensures Retyped(from, renamed, n) == to
  {
    if n == k + 1 {
      NotCalled(from, renamed, k);
    } else {
      RetypedThrough(from, to, renamed, k, n - 1);
      NotRenamed(to, renamed[n - 1].0, renamed[n - 1].1);
    }
  }

  /** The name of a type that is written by its name alone. */
  function NameOf(ty: Type): Option<string> {
    match NamedEnum(ty)
    case None => None
    case Some(e) => e.name
  }

  lemma NamedIsWritten(ty: Type, capability: Capability)
    requires capability.namedEnumTypes && NameOf(ty).Some?
    ensures
      var named := Enum(TypeEnum(NameOf(ty), []));
      Written(ty, capability) == if ty.List? then List(named) else named
    ensures forall name: Option<string> :: Calls(ty, name) <==> name == NameOf(ty)
  {
  }

  /** A change left to a named type: the type's new name is the column's next. */
  lemma TypeFollows(next: seq<Column>, capability: Capability, renamed: RenamedTypes, p: Column, q: Column)
    requires OnType(p, q, capability, renamed) && RenamedOnce(renamed) && NamesAlive(next, renamed) && q in next
    ensures Retyped(Written(p.storageTy, capability), renamed, |renamed|) == Written(q.storageTy, capability)
  {
    var from, to := Written(p.storageTy, capability), Written(q.storageTy, capability);
    var a, b := NameOf(p.storageTy), NameOf(q.storageTy);
    NamedIsWritten(p.storageTy, capability);
    NamedIsWritten(q.storageTy, capability);
    var i :| 0 <= i < |next| && next[i] == q;
    forall j | 0 <= j < |renamed|
      ensures !Calls(to, renamed[j].0)
    {
      WrittenCalls(q.storageTy, capability, renamed[j].0);
    }
    if a == b {
      NotCalled(to, renamed, |renamed|);
    } else {
      var k :| 0 <= k < |renamed| && renamed[k] == (a, b);
      forall j | 0 <= j < k
        ensures !Calls(from, renamed[j].0)
      {
        WrittenCalls(p.storageTy, capability, renamed[j].0);
      }
      RetypedThrough(from, to, renamed, k, |renamed|);
    }
  }

  // ---- Definitions ----

  /** Where types have names, the renames are such that the columns follow them. */
  predicate Followed(next: seq<Column>, capability: Capability, renamed: RenamedTypes) {
    capability.namedEnumTypes ==> RenamedOnce(renamed) && NamesAlive(next, renamed)
  }

  lemma AlteredDefReached(
    next: seq<Column>, columns: seq<ColumnDiff>, capability: Capability, renamed: RenamedTypes, p: Column,
    q: Column)
    requires DefinesAlike(capability) && !NeedsRecreation(columns, capability, renamed)
    requires Followed(next, capability, renamed) && q in next && ColumnDiff.Alter(p, q) in columns
    ensures AlteredDef(capability, renamed, p, q) == DefOf(q, capability)
  {
    if OnType(p, q, capability, renamed) {
      TypeFollows(next, capability, renamed, p, q);
    } else {
      NextStays(next, capability, renamed, q);
      InPlaceDefsFollow(columns, capability, renamed, p, q);
    }
  }

  lemma DefReached(
    next: seq<Column>, columns: seq<ColumnDiff>, capability: Capability, renamed: RenamedTypes, q: Column,
    def: ColumnDef)
    requires DefinesAlike(capability) && Followed(next, capability, renamed) && q in next
    requires EndDef(columns, capability, renamed, q, def)
    ensures def == DefOf(q, capability)
  {
    if !NeedsRecreation(columns, capability, renamed) {
      NextStays(next, capability, renamed, q);
      if exists p :: ColumnDiff.Alter(p, q) in columns {
        var p :| ColumnDiff.Alter(p, q) in columns && def == AlteredDef(capability, renamed, p, q);
        AlteredDefReached(next, columns, capability, renamed, p, q);
      }
    }
  }

  lemma NamedColumn(columns: seq<Column>, name: string) returns (q: Column)
    requires name in ColumnNameSet(columns)
    ensures q in columns && q.name == name
  {
    q :| q in columns && q.name == name;
  }

  /** A table's definitions are the next ones however it was reached: rebuilt, altered in place, or by a
      change of its named types. */
  lemma DefinitionsReached(
    next: seq<Column>, columns: seq<ColumnDiff>, capability: Capability, renamed: RenamedTypes, t: TableData)
    requires DistinctColumns(next) && EndDefs(next, columns, capability, renamed, t) && DefinesAlike(capability)
    requires Followed(next, capability, renamed)
    ensures ColumnsAre(t, next, capability, [])
  {
    assert StartSlots(next, capability, []).Keys == ColumnNameSet(next);
    forall i | 0 <= i < |t.columns|
      ensures t.columns[i] == StartSlots(next, capability, [])[t.columns[i].name].def
    {
      assert t.columns[i].name in NamesOf(t.columns);
      var q := NamedColumn(next, t.columns[i].name);
      assert t.columns[i] in t.columns;
      DefReached(next, columns, capability, renamed, q, t.columns[i]);
      SlotOf(next, capability, [], q);
    }
  }

  // ---- Keys ----

  /** No change of a primary key is ever emitted: a migrated table has the next key exactly when it was
      rebuilt, or its kept columns map the old key to the next one. */
  lemma KeyReached(
    previous: Table, next: Table, columns: seq<ColumnDiff>, capability: Capability, renamed: RenamedTypes,
    t: TableData, t': TableData)
    requires Coherent(previous.columns, next.columns, columns)
    requires TableMigrated(previous, next, columns, capability, renamed, t, t')
    requires Some(t.primaryKey) == ColumnNames(previous.primaryKey, previous.columns)
    ensures Some(t'.primaryKey) == ColumnNames(next.primaryKey, next.columns)
       <==> NeedsRecreation(columns, capability, renamed)
            || IdsKept(previous.columns, next.columns, columns, previous.primaryKey, next.primaryKey)
  {
    if !NeedsRecreation(columns, capability, renamed) {
      FollowedNames(
        previous.columns, next.columns, columns, previous.primaryKey, next.primaryKey, t.primaryKey, t'.primaryKey);
    }
  }
}
