/** The migration planner: a schema diff compiled to DDL statements, each paired with the schema
    snapshot its table and column ids are resolved against. */
module MigrationPlan {
  import opened Wrappers
  import opened DbSchema

  datatype Statement =
    | CreateType(ty: TypeEnum)
    | RenameType(from: Option<string>, to: Option<string>)
    | AddTypeValue(typeName: Option<string>, variant: string)
    | CreateTable(table: nat, columns: seq<ColumnDef>, primaryKey: seq<ColumnId>)
    | DropTable(name: string)
    | RenameTable(name: string, newName: string)
    | AddColumn(table: nat, column: ColumnDef)
    | DropColumn(table: nat, name: string)
    | AlterColumn(table: nat, column: ColumnDef, changes: ColumnChanges)
    | CopyTable(source: string, target: string, mappings: seq<(string, string)>)
    | CreateIndex(index: IndexId, on: nat, indexed: seq<ColumnId>, unique: bool)
    | DropIndex(name: string)
    | PragmaForeignKeys(enforce: bool)

  datatype MigrationStatement = MigrationStatement(statement: Statement, schema: Schema)

  /** The renames among the first `n` type diffs. */
  function RenamesAmong(types: seq<TypeDiff>, n: nat): RenamedTypes
    requires n <= |types|
  {
    if n == 0 then []
    else
      RenamesAmong(types, n - 1)
      + if types[n - 1].Rename? then [(types[n - 1].previous.name, types[n - 1].next.name)] else []
  }

  function RenamedTypesOf(types: seq<TypeDiff>): RenamedTypes {
    RenamesAmong(types, |types|)
  }

  /** A change to a named enum that happens on the type and needs nothing on the column. */
  predicate NamedEnumTypeOnlyChange(previous: Column, next: Column, renamed: RenamedTypes) {
    && previous.name == next.name
    && previous.nullable == next.nullable
    && previous.primaryKey == next.primaryKey
    && previous.autoIncrement == next.autoIncrement
    && ((previous.storageTy.Enum? && next.storageTy.Enum?) || (previous.storageTy.List? && next.storageTy.List?))
    && var a, b := NamedEnum(previous.storageTy), NamedEnum(next.storageTy);
       && a.Some? && b.Some? && a.value.name.Some? && b.value.name.Some?
       && (a.value.name == b.value.name || (a.value.name, b.value.name) in renamed)
  }

  /** A column change handled on its type: it needs no statement on the table. */
  predicate OnType(previous: Column, next: Column, capability: Capability, renamed: RenamedTypes) {
    capability.namedEnumTypes && NamedEnumTypeOnlyChange(previous, next, renamed)
  }

  predicate ForcesRecreation(d: ColumnDiff, capability: Capability, renamed: RenamedTypes) {
    && d.Alter?
    && ChangesBetween(d.previous, d.next).HasTypeChange()
    && !OnType(d.previous, d.next, capability, renamed)
  }

  /** Whether the table has to be rebuilt: a column changes in more than its name, and the backend can
      neither alter it nor leave the change to its type. */
  predicate NeedsRecreation(columns: seq<ColumnDiff>, capability: Capability, renamed: RenamedTypes) {
    && !capability.alterColumnType
    && exists i :: 0 <= i < |columns| && ForcesRecreation(columns[i], capability, renamed)
  }

  // ---- What the planner emits, as functions ----

  // Each of the functions over a list speaks of its first `n` items, as a loop has seen them.

  function AddVariantStatements(ty: TypeEnum, added: seq<string>, n: nat, schema: Schema): seq<MigrationStatement>
    requires n <= |added|
  {
    if n == 0 then []
    else
      AddVariantStatements(ty, added, n - 1, schema)
      + [MigrationStatement(AddTypeValue(ty.name, added[n - 1]), schema)]
  }

  function OneTypeStatements(d: TypeDiff, diff: SchemaDiff): seq<MigrationStatement> {
    match d
    case Create(ty) => [MigrationStatement(CreateType(ty), diff.next)]
    case Rename(previous, next) => [MigrationStatement(RenameType(previous.name, next.name), diff.previous)]
    case AddVariants(ty, added) => AddVariantStatements(ty, added, |added|, diff.next)
  }

  function TypeStatements(diff: SchemaDiff, n: nat): seq<MigrationStatement>
    requires n <= |diff.types|
  {
    if n == 0 then [] else TypeStatements(diff, n - 1) + OneTypeStatements(diff.types[n - 1], diff)
  }

  function CreateIndexOf(index: Index): Statement {
    CreateIndex(index.id, index.on, index.columns, index.unique)
  }

  /** The indices of a new table; the primary key's comes with `CREATE TABLE`. */
  function NewTableIndexStatements(indices: seq<Index>, n: nat, schema: Schema): seq<MigrationStatement>
    requires n <= |indices|
  {
    if n == 0 then []
    else
      NewTableIndexStatements(indices, n - 1, schema) +
      var index := indices[n - 1];
      if index.primaryKey then [] else [MigrationStatement(CreateIndexOf(index), schema)]
  }

  function DropIndexStatements(indices: seq<IndexDiff>, n: nat, schema: Schema): seq<MigrationStatement>
    requires n <= |indices|
  {
    if n == 0 then []
    else
      DropIndexStatements(indices, n - 1, schema) +
      match indices[n - 1]
      case Create(_) => []
      case Drop(index) => [MigrationStatement(DropIndex(index.name), schema)]
      case Alter(previous, _) => [MigrationStatement(DropIndex(previous.name), schema)]
  }

  function CreateIndexStatements(indices: seq<IndexDiff>, n: nat, schema: Schema): seq<MigrationStatement>
    requires n <= |indices|
  {
    if n == 0 then []
    else
      CreateIndexStatements(indices, n - 1, schema) +
      match indices[n - 1]
      case Create(index) => [MigrationStatement(CreateIndexOf(index), schema)]
      case Drop(_) => []
      case Alter(_, next) => [MigrationStatement(CreateIndexOf(next), schema)]
  }

  function CreateTableOf(table: Table, capability: Capability): Statement {
    CreateTable(table.id, DefsOf(table.columns, capability), table.primaryKey)
  }

  /** The snapshot with the table known under its new name. */
  function RenameInSnapshot(schema: Schema, id: nat, name: string): Schema
    requires id < |schema.tables|
  {
    Schema(schema.tables[id := schema.tables[id].(name := name)])
  }

  /** `_toasty_new_<name>`, the table a rebuild fills. */
  function TempName(current: string): string {
    "_toasty_new_" + current
  }

  predicate IsAdded(c: Column, columns: seq<ColumnDiff>) {
    exists i :: 0 <= i < |columns| && columns[i].Add? && columns[i].column.id == c.id
  }

  /** The name a column's data is found under before the change: that of the first rename to it. */
  function SourceName(c: Column, columns: seq<ColumnDiff>): string {
    if columns == [] then c.name
    else if columns[0].Alter? && columns[0].next.id == c.id && columns[0].previous.name != columns[0].next.name
    then columns[0].previous.name
    else SourceName(c, columns[1..])
  }

  /** (target, source) names for every column with data to copy. */
  function ColumnMappings(next: seq<Column>, columns: seq<ColumnDiff>): seq<(string, string)> {
    if next == [] then []
    else
      (if IsAdded(next[0], columns) then [] else [(next[0].name, SourceName(next[0], columns))])
      + ColumnMappings(next[1..], columns)
  }

  function TempSchema(schema: Schema, next: Table, tempName: string): Schema
    requires next.id < |schema.tables|
  {
    Schema(schema.tables[next.id := schema.tables[next.id].(
      name := tempName, columns := next.columns, primaryKey := next.primaryKey)])
  }

  /** The six steps that rebuild a table whose columns cannot be altered in place. */
  function RecreationStatements(
    schema: Schema, previous: Table, next: Table, columns: seq<ColumnDiff>, capability: Capability)
    : seq<MigrationStatement>
    requires previous.id < |schema.tables| && next.id < |schema.tables|
  {
    var current := schema.tables[previous.id].name;
    var temp := TempName(current);
    [ MigrationStatement(PragmaForeignKeys(false), schema),
      MigrationStatement(CreateTableOf(next, capability), TempSchema(schema, next, temp)),
      MigrationStatement(CopyTable(current, temp, ColumnMappings(next.columns, columns)), schema),
      MigrationStatement(DropTable(current), schema),
      MigrationStatement(RenameTable(temp, current), schema),
      MigrationStatement(PragmaForeignKeys(true), schema) ]
  }

  function AlterStatements(c: Column, changes: seq<ColumnChanges>, n: nat, schema: Schema, capability: Capability)
    : seq<MigrationStatement>
    requires n <= |changes|
  {
    if n == 0 then []
    else
      AlterStatements(c, changes, n - 1, schema, capability)
      + [MigrationStatement(AlterColumn(c.id.table, DefOf(c, capability), changes[n - 1]), schema)]
  }

  /** One statement for all the changes of a column, or one for each. */
  function ChangeSteps(previous: Column, next: Column, capability: Capability): seq<ColumnChanges> {
    var changes := StatedChanges(previous, next, capability);
    if capability.alterColumnPropertiesAtomic then [changes] else changes.Split()
  }

  function ColumnStatements(
    d: ColumnDiff, schema: Schema, table: nat, capability: Capability, renamed: RenamedTypes)
    : seq<MigrationStatement>
  {
    match d
    case Add(c) => [MigrationStatement(AddColumn(table, DefOf(c, capability)), schema)]
    case Drop(c) => [MigrationStatement(DropColumn(c.id.table, c.name), schema)]
    case Alter(previous, next) =>
      if OnType(previous, next, capability, renamed) then []
      else
        var steps := ChangeSteps(previous, next, capability);
        AlterStatements(previous, steps, |steps|, schema, capability)
  }

  function ColumnChangeStatements(
    columns: seq<ColumnDiff>, n: nat, schema: Schema, table: nat, capability: Capability, renamed: RenamedTypes)
    : seq<MigrationStatement>
    requires n <= |columns|
  {
    if n == 0 then []
    else
      ColumnChangeStatements(columns, n - 1, schema, table, capability, renamed)
      + ColumnStatements(columns[n - 1], schema, table, capability, renamed)
  }

  /** Every id the planner looks up for the diff is a table of the previous schema, which is where it
      looks: the previous one's for a rename, both for a rebuild. */
  predicate IdsInRange(d: TableDiff, previous: Schema, capability: Capability, renamed: RenamedTypes) {
    d.Alter? ==>
      && (d.previous.name != d.next.name ==> d.previous.id < |previous.tables|)
      && (NeedsRecreation(d.columns, capability, renamed) ==>
            d.previous.id < |previous.tables| && d.next.id < |previous.tables|)
  }

  /** The snapshot an altered table's columns are worked on under. */
  function WorkingSchema(d: TableDiff, diff: SchemaDiff): Schema
    requires d.Alter? && (d.previous.name != d.next.name ==> d.previous.id < |diff.previous.tables|)
  {
    if d.previous.name != d.next.name
    then RenameInSnapshot(diff.previous, d.previous.id, d.next.name)
    else diff.previous
  }

  function ColumnWork(d: TableDiff, diff: SchemaDiff, capability: Capability, renamed: RenamedTypes)
    : seq<MigrationStatement>
    requires d.Alter? && IdsInRange(d, diff.previous, capability, renamed)
  {
    var schema := WorkingSchema(d, diff);
    if NeedsRecreation(d.columns, capability, renamed)
    then RecreationStatements(schema, d.previous, d.next, d.columns, capability)
    else ColumnChangeStatements(d.columns, |d.columns|, schema, d.previous.id, capability, renamed)
  }

  function TableRename(d: TableDiff, diff: SchemaDiff): seq<MigrationStatement>
    requires d.Alter?
  {
    if d.previous.name != d.next.name
    then [MigrationStatement(RenameTable(d.previous.name, d.next.name), diff.previous)]
    else []
  }

  function TableStatements(d: TableDiff, diff: SchemaDiff, capability: Capability, renamed: RenamedTypes)
    : seq<MigrationStatement>
    requires IdsInRange(d, diff.previous, capability, renamed)
  {
    match d
    case Create(table) =>
      [MigrationStatement(CreateTableOf(table, capability), diff.next)]
      + NewTableIndexStatements(table.indices, |table.indices|, diff.next)
    case Drop(table) => [MigrationStatement(DropTable(table.name), diff.previous)]
    case Alter(_, _, _, indices) =>
      TableRename(d, diff)
      + DropIndexStatements(indices, |indices|, diff.previous)
      + ColumnWork(d, diff, capability, renamed)
      + CreateIndexStatements(indices, |indices|, diff.next)
  }

  predicate AllInRange(
    tables: seq<TableDiff>, previous: Schema, capability: Capability, renamed: RenamedTypes)
  {
    forall i :: 0 <= i < |tables| ==> IdsInRange(tables[i], previous, capability, renamed)
  }

  /** The statements of the first `n` table diffs. */
  function TablesStatements(diff: SchemaDiff, n: nat, capability: Capability, renamed: RenamedTypes)
    : seq<MigrationStatement>
    requires n <= |diff.tables| && AllInRange(diff.tables, diff.previous, capability, renamed)
  {
    if n == 0 then []
    else
      TablesStatements(diff, n - 1, capability, renamed)
      + TableStatements(diff.tables[n - 1], diff, capability, renamed)
  }

  /** No look-up of a table fails while the diff is planned. */
  predicate Plannable(diff: SchemaDiff, capability: Capability) {
    AllInRange(diff.tables, diff.previous, capability, RenamedTypesOf(diff.types))
  }

  function Plan(diff: SchemaDiff, capability: Capability): seq<MigrationStatement>
    requires Plannable(diff, capability)
  {
    (if capability.namedEnumTypes then TypeStatements(diff, |diff.types|) else [])
    + TablesStatements(diff, |diff.tables|, capability, RenamedTypesOf(diff.types))
  }

  lemma Associative<T>(a: seq<T>, b: seq<T>, c: seq<T>)
    ensures (a + b) + c == a + (b + c)
  {
  }

  lemma AssociativeFour<T>(a: seq<T>, b: seq<T>, c: seq<T>, d: seq<T>, e: seq<T>)
    ensures a + b + c + d + e == a + (b + c + d + e)
  {
    Associative(a, b, c);
    Associative(a, b + c, d);
    Associative(a, b + c + d, e);
  }

  // ---- The planner itself ----

  /** Pushes statements onto `result`, as the program's `from_diff` and its two helpers do. */
  class Planner {
    var result: seq<MigrationStatement>

    constructor ()
      ensures result == []
    {
      result := [];
    }

    method Push(statement: Statement, schema: Schema)
      modifies this
      ensures result == old(result) + [MigrationStatement(statement, schema)]
    {
      result := result + [MigrationStatement(statement, schema)];
    }

    method FromDiff(diff: SchemaDiff, capability: Capability)
      requires result == [] && Plannable(diff, capability)
      modifies this
      ensures result == Plan(diff, capability)
    {
      if capability.namedEnumTypes {
        EmitTypes(diff);
      }
      ghost var types := if capability.namedEnumTypes then TypeStatements(diff, |diff.types|) else [];
      assert result == types;
      var renamed := RenamedTypesOf(diff.types);
      ghost var tables := TablesStatements(diff, |diff.tables|, capability, renamed);
      EmitTables(diff, capability, renamed);
      assert result == types + tables;
    }

    method EmitTables(diff: SchemaDiff, capability: Capability, renamed: RenamedTypes)
      requires AllInRange(diff.tables, diff.previous, capability, renamed)
      modifies this
      ensures result == old(result) + TablesStatements(diff, |diff.tables|, capability, renamed)
    {
      for i := 0 to |diff.tables|
        invariant result == old(result) + TablesStatements(diff, i, capability, renamed)
      {
        ghost var done := TablesStatements(diff, i, capability, renamed);
        ghost var step := TableStatements(diff.tables[i], diff, capability, renamed);
        EmitTable(diff.tables[i], diff, capability, renamed);
        Associative(old(result), done, step);
      }
    }

    method EmitTypes(diff: SchemaDiff)
      modifies this
      ensures result == old(result) + TypeStatements(diff, |diff.types|)
    {
      for i := 0 to |diff.types|
        invariant result == old(result) + TypeStatements(diff, i)
      {
        ghost var done := TypeStatements(diff, i);
        EmitType(diff.types[i], diff);
        Associative(old(result), done, OneTypeStatements(diff.types[i], diff));
      }
    }

    method EmitType(d: TypeDiff, diff: SchemaDiff)
      modifies this
      ensures result == old(result) + OneTypeStatements(d, diff)
    {
      match d
      case Create(ty) => Push(CreateType(ty), diff.next);
      case Rename(previous, next) => Push(RenameType(previous.name, next.name), diff.previous);
      case AddVariants(ty, added) => EmitVariants(ty, added, diff.next);
    }

    method EmitVariants(ty: TypeEnum, added: seq<string>, schema: Schema)
      modifies this
      ensures result == old(result) + AddVariantStatements(ty, added, |added|, schema)
    {
      for i := 0 to |added|
        invariant result == old(result) + AddVariantStatements(ty, added, i, schema)
      {
        Push(AddTypeValue(ty.name, added[i]), schema);
      }
    }

    method EmitTable(d: TableDiff, diff: SchemaDiff, capability: Capability, renamed: RenamedTypes)
      requires IdsInRange(d, diff.previous, capability, renamed)
      modifies this
      ensures result == old(result) + TableStatements(d, diff, capability, renamed)
    {
      match d
      case Create(table) =>
        Push(CreateTableOf(table, capability), diff.next);
        EmitNewTableIndices(table.indices, diff.next);
      case Drop(table) => Push(DropTable(table.name), diff.previous);
      case Alter(previous, next, columns, indices) =>
        EmitAlteredTable(d, diff, capability, renamed);
    }

    method EmitNewTableIndices(indices: seq<Index>, schema: Schema)
      modifies this
      ensures result == old(result) + NewTableIndexStatements(indices, |indices|, schema)
    {
      for i := 0 to |indices|
        invariant result == old(result) + NewTableIndexStatements(indices, i, schema)
      {
        if !indices[i].primaryKey {
          Push(CreateIndexOf(indices[i]), schema);
        }
      }
    }

    method EmitAlteredTable(d: TableDiff, diff: SchemaDiff, capability: Capability, renamed: RenamedTypes)
      requires d.Alter? && IdsInRange(d, diff.previous, capability, renamed)
      modifies this
      ensures result == old(result) + TableStatements(d, diff, capability, renamed)
    {
      ghost var drops := DropIndexStatements(d.indices, |d.indices|, diff.previous);
      ghost var work := ColumnWork(d, diff, capability, renamed);
      ghost var creates := CreateIndexStatements(d.indices, |d.indices|, diff.next);
      EmitRename(d, diff);
      EmitIndexDrops(d.indices, diff);
      EmitColumnWork(d, diff, capability, renamed);
      EmitIndexCreates(d.indices, diff);
      AssociativeFour(old(result), TableRename(d, diff), drops, work, creates);
    }

    method EmitRename(d: TableDiff, diff: SchemaDiff)
      requires d.Alter?
      modifies this
      ensures result == old(result) + TableRename(d, diff)
    {
      if d.previous.name != d.next.name {
        Push(RenameTable(d.previous.name, d.next.name), diff.previous);
      }
    }

    method EmitColumnWork(d: TableDiff, diff: SchemaDiff, capability: Capability, renamed: RenamedTypes)
      requires d.Alter? && IdsInRange(d, diff.previous, capability, renamed)
      modifies this
      ensures result == old(result) + ColumnWork(d, diff, capability, renamed)
    {
      var schema := WorkingSchema(d, diff);
      if NeedsRecreation(d.columns, capability, renamed) {
        EmitTableRecreation(schema, d.previous, d.next, d.columns, capability);
      } else {
        EmitColumnChanges(schema, d.previous.id, d.columns, capability, renamed);
      }
    }

    method EmitIndexDrops(indices: seq<IndexDiff>, diff: SchemaDiff)
      modifies this
      ensures result == old(result) + DropIndexStatements(indices, |indices|, diff.previous)
    {
      for i := 0 to |indices|
        invariant result == old(result) + DropIndexStatements(indices, i, diff.previous)
      {
        match indices[i]
        case Create(_) =>
        case Drop(index) => Push(DropIndex(index.name), diff.previous);
        case Alter(previous, _) => Push(DropIndex(previous.name), diff.previous);
      }
    }

    method EmitIndexCreates(indices: seq<IndexDiff>, diff: SchemaDiff)
      modifies this
      ensures result == old(result) + CreateIndexStatements(indices, |indices|, diff.next)
    {
      for i := 0 to |indices|
        invariant result == old(result) + CreateIndexStatements(indices, i, diff.next)
      {
        match indices[i]
        case Create(index) => Push(CreateIndexOf(index), diff.next);
        case Drop(_) =>
        case Alter(_, next) => Push(CreateIndexOf(next), diff.next);
      }
    }

    method EmitTableRecreation(
      schema: Schema, previous: Table, next: Table, columns: seq<ColumnDiff>, capability: Capability)
      requires previous.id < |schema.tables| && next.id < |schema.tables|
      modifies this
      ensures result == old(result) + RecreationStatements(schema, previous, next, columns, capability)
    {
      var current := schema.tables[previous.id].name;
      var temp := TempName(current);
      Push(PragmaForeignKeys(false), schema);
      Push(CreateTableOf(next, capability), TempSchema(schema, next, temp));
      Push(CopyTable(current, temp, ColumnMappings(next.columns, columns)), schema);
      Push(DropTable(current), schema);
      Push(RenameTable(temp, current), schema);
      Push(PragmaForeignKeys(true), schema);
    }

    method EmitColumnChanges(
      schema: Schema, table: nat, columns: seq<ColumnDiff>, capability: Capability, renamed: RenamedTypes)
      modifies this
      ensures result == old(result) + ColumnChangeStatements(columns, |columns|, schema, table, capability, renamed)
    {
      for i := 0 to |columns|
        invariant result == old(result) + ColumnChangeStatements(columns, i, schema, table, capability, renamed)
      {
        ghost var done := ColumnChangeStatements(columns, i, schema, table, capability, renamed);
        ghost var step := ColumnStatements(columns[i], schema, table, capability, renamed);
        EmitColumnChange(columns[i], schema, table, capability, renamed);
        Associative(old(result), done, step);
      }
    }

    method EmitColumnChange(
      d: ColumnDiff, schema: Schema, table: nat, capability: Capability, renamed: RenamedTypes)
      modifies this
      ensures result == old(result) + ColumnStatements(d, schema, table, capability, renamed)
    {
      match d
      case Add(c) => Push(AddColumn(table, DefOf(c, capability)), schema);
      case Drop(c) => Push(DropColumn(c.id.table, c.name), schema);
      case Alter(previous, next) =>
        if !OnType(previous, next, capability, renamed) {
          EmitChangeSteps(previous, ChangeSteps(previous, next, capability), schema, capability);
        }
    }

    method EmitChangeSteps(previous: Column, steps: seq<ColumnChanges>, schema: Schema, capability: Capability)
      modifies this
      ensures result == old(result) + AlterStatements(previous, steps, |steps|, schema, capability)
    {
      for i := 0 to |steps|
        invariant result == old(result) + AlterStatements(previous, steps, i, schema, capability)
      {
        Push(AlterColumn(previous.id.table, DefOf(previous, capability), steps[i]), schema);
      }
    }
  }
}
