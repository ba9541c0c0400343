/** What each SQL dialect spells for a change to a column, and that no plan asks a dialect for a change it
    has no spelling for: what a dialect cannot spell has forced a rebuild. */
module Dialects {
  import opened Wrappers
  import opened DbSchema
  import opened MigrationPlan
  import opened Database
  import opened InPlaceMigration
  import opened TableInPlace
  import opened MigrationStrategies
  import opened NextTables

  datatype Dialect = PostgreSQL | MySQL | SQLite
  {
    function Capability(): Capability {
      match this
      case PostgreSQL => POSTGRESQL
      case MySQL => MYSQL
      case SQLite => SQLITE
    }
  }

  /** What follows `ALTER TABLE`: MySQL writes a column's whole definition anew. */
  datatype Clause =
    | RenameColumn(newName: string)
    | AlterColumnType(ty: Type)
    | SetNotNull
    | DropNotNull
    | AddIdentity
    | DropIdentity
    | ChangeColumn(def: ColumnDef)

  /** `None` where the serializer panics. */
  function Spelled(d: Dialect, column: ColumnDef, changes: ColumnChanges): Option<Clause> {
    match d
    case PostgreSQL => (
      match changes
      case ColumnChanges(Some(name), None, None, None) => Some(RenameColumn(name))
      case ColumnChanges(None, Some(ty), None, None) => Some(AlterColumnType(ty))
      case ColumnChanges(None, None, Some(notNull), None) => Some(if notNull then SetNotNull else DropNotNull)
      case ColumnChanges(None, None, None, Some(on)) => Some(if on then AddIdentity else DropIdentity)
      case _ => None)
    case MySQL =>
      Some(ChangeColumn(ColumnDef(
        changes.newName.UnwrapOr(column.name),
        changes.newTy.UnwrapOr(column.ty),
        changes.newNotNull.UnwrapOr(column.notNull),
        changes.newAutoIncrement.UnwrapOr(column.autoIncrement),
        column.check)))
    case SQLite => (
      match changes
      case ColumnChanges(Some(name), None, None, None) => Some(RenameColumn(name))
      case _ => None)
  }

  /** What the clause makes of a column's definition. */
  function Effect(clause: Clause, def: ColumnDef): ColumnDef {
    match clause
    case RenameColumn(newName) => def.(name := newName)
    case AlterColumnType(ty) => def.(ty := ty)
    case SetNotNull => def.(notNull := true)
    case DropNotNull => def.(notNull := false)
    case AddIdentity => def.(autoIncrement := true)
    case DropIdentity => def.(autoIncrement := false)
    case ChangeColumn(next) => next
  }

  /** What the statement alters a column to, if it is about the column and can be spelled. */
  function AfterOne(d: Dialect, m: MigrationStatement, def: ColumnDef): Option<ColumnDef> {
    if !m.statement.AlterColumn? || m.statement.column.name != def.name then None
    else
      var clause :- Spelled(d, m.statement.column, m.statement.changes);
      Some(Effect(clause, def))
  }

  /** What the first `n` statements do to a column's definition, one after the other. */
  function After(d: Dialect, statements: seq<MigrationStatement>, n: nat, def: ColumnDef): Option<ColumnDef>
    requires n <= |statements|
  {
    if n == 0 then Some(def)
    else
      var before :- After(d, statements, n - 1, def);
      AfterOne(d, statements[n - 1], before)
  }

  // ---- Every change a plan makes can be spelled ----

  predicate CanSpell(d: Dialect, statements: seq<MigrationStatement>) {
    forall i :: 0 <= i < |statements| && statements[i].statement.AlterColumn? ==>
      Spelled(d, statements[i].statement.column, statements[i].statement.changes).Some?
  }

  lemma SpellsBoth(d: Dialect, a: seq<MigrationStatement>, b: seq<MigrationStatement>)
    requires CanSpell(d, a) && CanSpell(d, b)
    ensures CanSpell(d, a + b)
  {
  }

  /** The changes of a column that is altered where it stands, as the dialect asks for them. */
  lemma StepsSpell(d: Dialect, p: Column, q: Column, k: nat)
    requires k < |ChangeSteps(p, q, d.Capability())|
    requires d.SQLite? ==> !ChangesBetween(p, q).HasTypeChange()
    ensures Spelled(d, DefOf(p, d.Capability()), ChangeSteps(p, q, d.Capability())[k]).Some?
  {
  }

  lemma {:induction false} StatementsSpell(d: Dialect, p: Column, q: Column, n: nat, schema: Schema)
    requires d.SQLite? ==> !ChangesBetween(p, q).HasTypeChange()
    requires n <= |ChangeSteps(p, q, d.Capability())|
    ensures CanSpell(d, AlterStatements(p, ChangeSteps(p, q, d.Capability()), n, schema, d.Capability()))
  {
    if n > 0 {
      var k: nat := n - 1;
      StatementsSpell(d, p, q, k, schema);
      StepsSpell(d, p, q, k);
    }
  }

  lemma ColumnSpells(d: Dialect, c: ColumnDiff, schema: Schema, table: nat, renamed: RenamedTypes)
    requires !d.SQLite? || !ForcesRecreation(c, d.Capability(), renamed)
    ensures CanSpell(d, ColumnStatements(c, schema, table, d.Capability(), renamed))
  {
    if c.Alter? && !OnType(c.previous, c.next, d.Capability(), renamed) {
      var steps := ChangeSteps(c.previous, c.next, d.Capability());
      StatementsSpell(d, c.previous, c.next, |steps|, schema);
    }
  }

  lemma {:induction false} ColumnsSpell(
    d: Dialect, columns: seq<ColumnDiff>, n: nat, schema: Schema, table: nat, renamed: RenamedTypes)
    requires n <= |columns| && !NeedsRecreation(columns, d.Capability(), renamed)
    ensures CanSpell(d, ColumnChangeStatements(columns, n, schema, table, d.Capability(), renamed))
  {
    if n > 0 {
      var k: nat := n - 1;
      var last := columns[k];
      ColumnsSpell(d, columns, k, schema, table, renamed);
      assert !d.SQLite? || !ForcesRecreation(last, d.Capability(), renamed);
      ColumnSpells(d, last, schema, table, renamed);
      SpellsBoth(d, ColumnChangeStatements(columns, k, schema, table, d.Capability(), renamed),
        ColumnStatements(last, schema, table, d.Capability(), renamed));
    }
  }

  lemma {:induction false} IndicesSpell(d: Dialect, indices: seq<Index>, n: nat, schema: Schema)
    requires n <= |indices|
    ensures CanSpell(d, NewTableIndexStatements(indices, n, schema))
  {
    if n > 0 {
      IndicesSpell(d, indices, n - 1, schema);
    }
  }

  lemma {:induction false} IndexDiffsSpell(d: Dialect, indices: seq<IndexDiff>, n: nat, schema: Schema)
    requires n <= |indices|
    ensures CanSpell(d, DropIndexStatements(indices, n, schema))
    ensures CanSpell(d, CreateIndexStatements(indices, n, schema))
  {
    if n > 0 {
      IndexDiffsSpell(d, indices, n - 1, schema);
    }
  }

  lemma TableSpells(d: Dialect, t: TableDiff, diff: SchemaDiff, renamed: RenamedTypes)
    requires IdsInRange(t, diff.previous, d.Capability(), renamed)
    ensures CanSpell(d, TableStatements(t, diff, d.Capability(), renamed))
  {
    match t
    case Create(table) =>
      IndicesSpell(d, table.indices, |table.indices|, diff.next);
      SpellsBoth(d, [MigrationStatement(CreateTableOf(table, d.Capability()), diff.next)],
        NewTableIndexStatements(table.indices, |table.indices|, diff.next));
    case Drop(_) =>
    case Alter(_, _, columns, indices) =>
      var drops := DropIndexStatements(indices, |indices|, diff.previous);
      var work := ColumnWork(t, diff, d.Capability(), renamed);
      if !NeedsRecreation(columns, d.Capability(), renamed) {
        ColumnsSpell(d, columns, |columns|, WorkingSchema(t, diff), t.previous.id, renamed);
      }
      IndexDiffsSpell(d, indices, |indices|, diff.previous);
      IndexDiffsSpell(d, indices, |indices|, diff.next);
      SpellsBoth(d, TableRename(t, diff), drops);
      SpellsBoth(d, TableRename(t, diff) + drops, work);
      SpellsBoth(d, TableRename(t, diff) + drops + work, CreateIndexStatements(indices, |indices|, diff.next));
  }

  lemma {:induction false} TablesSpell(d: Dialect, diff: SchemaDiff, n: nat, renamed: RenamedTypes)
    requires n <= |diff.tables| && AllInRange(diff.tables, diff.previous, d.Capability(), renamed)
    ensures CanSpell(d, TablesStatements(diff, n, d.Capability(), renamed))
  {
    if n > 0 {
      var k: nat := n - 1;
      TablesSpell(d, diff, k, renamed);
      assert IdsInRange(diff.tables[k], diff.previous, d.Capability(), renamed);
      TableSpells(d, diff.tables[k], diff, renamed);
      SpellsBoth(d, TablesStatements(diff, k, d.Capability(), renamed),
        TableStatements(diff.tables[k], diff, d.Capability(), renamed));
    }
  }

  lemma {:induction false} TypesSpell(d: Dialect, diff: SchemaDiff, n: nat)
    requires n <= |diff.types|
    ensures CanSpell(d, TypeStatements(diff, n))
  {
    if n > 0 {
      TypesSpell(d, diff, n - 1);
      if diff.types[n - 1].AddVariants? {
        VariantsSpell(d, diff.types[n - 1].ty, diff.types[n - 1].added, |diff.types[n - 1].added|, diff.next);
      }
    }
  }

  lemma {:induction false} VariantsSpell(d: Dialect, ty: TypeEnum, added: seq<string>, n: nat, schema: Schema)
    requires n <= |added|
    ensures CanSpell(d, AddVariantStatements(ty, added, n, schema))
  {
    if n > 0 {
      VariantsSpell(d, ty, added, n - 1, schema);
    }
  }

  /** No plan for a dialect has a change to a column that its serializer would panic on: for SQLite that is
      everything but a rename, for PostgreSQL more than one property at a time. */
  lemma PlanSpells(d: Dialect, diff: SchemaDiff)
    requires Plannable(diff, d.Capability())
    ensures CanSpell(d, Plan(diff, d.Capability()))
  {
    var renamed := RenamedTypesOf(diff.types);
    TypesSpell(d, diff, |diff.types|);
    TablesSpell(d, diff, |diff.tables|, renamed);
    SpellsBoth(d, if d.Capability().namedEnumTypes then TypeStatements(diff, |diff.types|) else [],
      TablesStatements(diff, |diff.tables|, d.Capability(), renamed));
  }

  // ---- What is rebuilt ----

  /** The columns differ in their type, in whether they may be NULL, or in whether they count up. */
  predicate DiffersBeyondName(d: ColumnDiff) {
    && d.Alter?
    && (d.previous.storageTy != d.next.storageTy
        || d.previous.nullable != d.next.nullable
        || d.previous.autoIncrement != d.next.autoIncrement)
  }

  predicate Copies(statements: seq<MigrationStatement>) {
    exists i :: 0 <= i < |statements| && statements[i].statement.CopyTable?
  }

  lemma NoCopy(a: seq<MigrationStatement>, b: seq<MigrationStatement>)
    requires !Copies(a) && !Copies(b)
    ensures !Copies(a + b)
  {
  }

  lemma {:induction false} NoCopyInSteps(
    p: Column, steps: seq<ColumnChanges>, n: nat, schema: Schema, capability: Capability)
    requires n <= |steps|
    ensures !Copies(AlterStatements(p, steps, n, schema, capability))
  {
    if n > 0 {
      NoCopyInSteps(p, steps, n - 1, schema, capability);
    }
  }

  lemma NoCopyInOne(d: ColumnDiff, schema: Schema, table: nat, capability: Capability, renamed: RenamedTypes)
    ensures !Copies(ColumnStatements(d, schema, table, capability, renamed))
  {
    if d.Alter? {
      var steps := ChangeSteps(d.previous, d.next, capability);
      NoCopyInSteps(d.previous, steps, |steps|, schema, capability);
    }
  }

  lemma {:induction false} NoCopyInPlace(
    columns: seq<ColumnDiff>, n: nat, schema: Schema, table: nat, capability: Capability, renamed: RenamedTypes)
    requires n <= |columns|
    ensures !Copies(ColumnChangeStatements(columns, n, schema, table, capability, renamed))
  {
    if n > 0 {
      var k: nat := n - 1;
      var last := columns[k];
      NoCopyInPlace(columns, k, schema, table, capability, renamed);
      NoCopyInOne(last, schema, table, capability, renamed);
      NoCopy(ColumnChangeStatements(columns, k, schema, table, capability, renamed),
        ColumnStatements(last, schema, table, capability, renamed));
    }
  }

  /** A table is copied into a new one on SQLite, and there exactly when one of its columns changes in more
      than its name. */
  lemma RebuiltExactly(d: Dialect, t: TableDiff, diff: SchemaDiff, renamed: RenamedTypes)
    requires t.Alter? && IdsInRange(t, diff.previous, d.Capability(), renamed)
    ensures Copies(ColumnWork(t, diff, d.Capability(), renamed))
       <==> d == SQLite && exists i :: 0 <= i < |t.columns| && DiffersBeyondName(t.columns[i])
  {
    var work := ColumnWork(t, diff, d.Capability(), renamed);
    if NeedsRecreation(t.columns, d.Capability(), renamed) {
      assert work[2].statement.CopyTable?;
      var i :| 0 <= i < |t.columns| && ForcesRecreation(t.columns[i], d.Capability(), renamed);
      assert DiffersBeyondName(t.columns[i]);
    } else {
      NoCopyInPlace(t.columns, |t.columns|, WorkingSchema(t, diff), t.previous.id, d.Capability(), renamed);
      if d == SQLite {
        forall i | 0 <= i < |t.columns|
          ensures !DiffersBeyondName(t.columns[i])
        {
          assert !ForcesRecreation(t.columns[i], d.Capability(), renamed);
        }
      }
    }
  }

  // ---- What is altered in place ----

  lemma SpelledIsChanged(d: Dialect, m: MigrationStatement, column: ColumnDef, def: ColumnDef)
    requires m.statement.AlterColumn? && m.statement.column == column && column.name == def.name
    requires Spelled(d, column, m.statement.changes).Some? && (d.MySQL? ==> column == def)
    ensures AfterOne(d, m, def) == Some(Changed(def, m.statement.changes))
  {
  }

  lemma {:induction false} StepsTakeEffect(
    d: Dialect, p: Column, q: Column, n: nat, schema: Schema, def: ColumnDef, whole: seq<MigrationStatement>)
    requires d.SQLite? ==> !ChangesBetween(p, q).HasTypeChange()
    requires n <= |ChangeSteps(p, q, d.Capability())| && def.name == p.name
    requires d.MySQL? ==> def == DefOf(p, d.Capability())
    requires n <= |whole| && whole[..n] == AlterStatements(
      p, ChangeSteps(p, q, d.Capability()), n, schema, d.Capability())
    ensures After(d, whole, n, def) == Some(Changed(def, Merged(ChangeSteps(p, q, d.Capability()), n)))
  {
    if n > 0 {
      var k: nat := n - 1;
      var steps := ChangeSteps(p, q, d.Capability());
      assert n == k + 1;
      OneStatementMore(p, steps, k, schema, d.Capability(), whole);
      StepsTakeEffect(d, p, q, k, schema, def, whole);
      StepsSpell(d, p, q, k);
      StepsOrdered(p, q, d.Capability());
      MergedProperties(steps, k);
      assert Changed(def, NoChanges) == def;
      SpelledIsChanged(d, whole[k], DefOf(p, d.Capability()), Changed(def, Merged(steps, k)));
      ChangedTwice(def, Merged(steps, k), steps[k]);
    }
  }

  lemma StepsOrdered(p: Column, q: Column, capability: Capability)
    ensures StepsInOrder(ChangeSteps(p, q, capability))
    ensures Merged(ChangeSteps(p, q, capability), |ChangeSteps(p, q, capability)|) == StatedChanges(p, q, capability)
  {
    SplitMerges(StatedChanges(p, q, capability));
    MergedShort([StatedChanges(p, q, capability)]);
  }

  lemma {:induction false} StatementsCounted(
    p: Column, steps: seq<ColumnChanges>, n: nat, schema: Schema, capability: Capability)
    requires n <= |steps|
    ensures |AlterStatements(p, steps, n, schema, capability)| == n
  {
    if n > 0 {
      StatementsCounted(p, steps, n - 1, schema, capability);
    }
  }

  lemma OneStatementMore(
    p: Column, steps: seq<ColumnChanges>, k: nat, schema: Schema, capability: Capability,
    whole: seq<MigrationStatement>)
    requires k < |steps| && k < |whole|
    requires whole[..k + 1] == AlterStatements(p, steps, k + 1, schema, capability)
    ensures whole[..k] == AlterStatements(p, steps, k, schema, capability)
    ensures whole[k] == MigrationStatement(Statement.AlterColumn(p.id.table, DefOf(p, capability), steps[k]), schema)
  {
    var before := AlterStatements(p, steps, k, schema, capability);
    var last := MigrationStatement(Statement.AlterColumn(p.id.table, DefOf(p, capability), steps[k]), schema);
    StatementsCounted(p, steps, k, schema, capability);
    assert whole[..k + 1] == before + [last];
    assert whole[..k] == whole[..k + 1][..k];
    assert whole[k] == whole[..k + 1][k];
  }

  lemma ChangedTwice(def: ColumnDef, a: ColumnChanges, b: ColumnChanges)
    ensures Changed(Changed(def, a), b) == Changed(def, Merge(a, b))
  {
  }

  /** A column altered where it stands: what the dialect spells for it, one clause after the other, takes
      its definition to the one `CREATE TABLE` would write for the next column. */
  lemma ClausesReachNext(
    d: Dialect, p: Column, q: Column, columns: seq<ColumnDiff>, next: seq<Column>, schema: Schema, table: nat,
    renamed: RenamedTypes)
    requires ColumnDiff.Alter(p, q) in columns && !NeedsRecreation(columns, d.Capability(), renamed)
    requires q in next && Followed(next, d.Capability(), renamed)
    ensures
      var statements := ColumnStatements(ColumnDiff.Alter(p, q), schema, table, d.Capability(), renamed);
      After(d, statements, |statements|, StartDef(p, d.Capability(), renamed)) == Some(DefOf(q, d.Capability()))
  {
    var capability := d.Capability();
    BackendsDefineAlike();
    AlteredDefReached(next, columns, capability, renamed, p, q);
    if !OnType(p, q, capability, renamed) {
      var steps := ChangeSteps(p, q, capability);
      var whole := AlterStatements(p, steps, |steps|, schema, capability);
      var i :| 0 <= i < |columns| && columns[i] == ColumnDiff.Alter(p, q);
      assert !d.SQLite? || !ForcesRecreation(columns[i], capability, renamed);
      StatementsCounted(p, steps, |steps|, schema, capability);
      assert whole[..|steps|] == whole;
      StepsTakeEffect(d, p, q, |steps|, schema, StartDef(p, capability, renamed), whole);
      StepsOrdered(p, q, capability);
    }
  }
}
