/** Database schemas, the diffs between two of them, and the column changes a diff asks for. */
module DbSchema {
  import opened Wrappers

  datatype TypeEnum = TypeEnum(name: Option<string>, variants: seq<string>)

  /** A storage type. Only enums and arrays matter to the planner; every other type is a label. */
  datatype Type = Enum(variants: TypeEnum) | List(elem: Type) | Text | Plain(repr: string)

  /** The enum a column stores, bare or as an array element. */
  function NamedEnum(ty: Type): Option<TypeEnum> {
    match ty
    case Enum(e) => Some(e)
    case List(Enum(e)) => Some(e)
    case _ => None
  }

  /** A type as a statement spells it: where enum types have names a named one is only named. */
  function Written(ty: Type, capability: Capability): Type {
    match ty
    case Enum(e) => if capability.namedEnumTypes && e.name.Some? then Enum(TypeEnum(e.name, [])) else ty
    case List(elem) => List(Written(elem, capability))
    case _ => ty
  }

  /** The pairs of names `ALTER TYPE .. RENAME` takes care of. */
  type RenamedTypes = seq<(Option<string>, Option<string>)>

  function RenamedIn(ty: Type, from: Option<string>, to: Option<string>): Type {
    match ty
    case Enum(e) => if e.name == from then Enum(TypeEnum(to, e.variants)) else ty
    case List(elem) => List(RenamedIn(elem, from, to))
    case _ => ty
  }

  /** What a type is called after the first `n` renames. */
  function Retyped(ty: Type, renamed: RenamedTypes, n: nat): Type
    requires n <= |renamed|
  {
    if n == 0 then ty else RenamedIn(Retyped(ty, renamed, n - 1), renamed[n - 1].0, renamed[n - 1].1)
  }

  datatype ColumnId = ColumnId(table: nat, index: nat)
  datatype IndexId = IndexId(table: nat, index: nat)

  datatype Column = Column(
    id: ColumnId, name: string, storageTy: Type, nullable: bool,
    primaryKey: bool, autoIncrement: bool, versionable: bool)

  datatype Index = Index(
    id: IndexId, name: string, on: nat, columns: seq<ColumnId>, unique: bool, primaryKey: bool)

  /** A table's id is its position in the schema it belongs to. */
  datatype Table = Table(
    id: nat, name: string, columns: seq<Column>, primaryKey: seq<ColumnId>, indices: seq<Index>)

  datatype Schema = Schema(tables: seq<Table>)

  datatype ColumnDiff = Add(column: Column) | Drop(column: Column) | Alter(previous: Column, next: Column)
  datatype IndexDiff = Create(index: Index) | Drop(index: Index) | Alter(previous: Index, next: Index)
  {
    function Dropped(): Option<Index> {
      match this
      case Create(_) => None
      case Drop(x) => Some(x)
      case Alter(x, _) => Some(x)
    }

    function Created(): Option<Index> {
      match this
      case Create(x) => Some(x)
      case Drop(_) => None
      case Alter(_, x) => Some(x)
    }
  }
  datatype TypeDiff =
    | Create(ty: TypeEnum)
    | Rename(previous: TypeEnum, next: TypeEnum)
    | AddVariants(ty: TypeEnum, added: seq<string>)
  datatype TableDiff =
    | Create(table: Table)
    | Drop(table: Table)
    | Alter(previous: Table, next: Table, columns: seq<ColumnDiff>, indices: seq<IndexDiff>)
  datatype SchemaDiff = SchemaDiff(
    previous: Schema, next: Schema, types: seq<TypeDiff>, tables: seq<TableDiff>)

  /** The part of a backend's capabilities the planner consults. */
  datatype Capability = Capability(
    nativeEnum: bool, namedEnumTypes: bool, alterColumnType: bool, alterColumnPropertiesAtomic: bool)

  const SQLITE := Capability(false, false, false, false)
  const POSTGRESQL := Capability(true, true, true, false)
  const MYSQL := Capability(true, false, true, true)

  /** The properties that differ between two versions of a column. */
  datatype ColumnChanges = ColumnChanges(
    newName: Option<string>, newTy: Option<Type>, newNotNull: Option<bool>, newAutoIncrement: Option<bool>)
  {
    predicate HasTypeChange() {
      newTy.Some? || newNotNull.Some? || newAutoIncrement.Some?
    }

    /** One change at a time, the rename last so that the others still find the column. */
    function Split(): seq<ColumnChanges> {
      (if newTy.Some? then [NoChanges.(newTy := newTy)] else [])
      + (if newNotNull.Some? then [NoChanges.(newNotNull := newNotNull)] else [])
      + (if newAutoIncrement.Some? then [NoChanges.(newAutoIncrement := newAutoIncrement)] else [])
      + (if newName.Some? then [NoChanges.(newName := newName)] else [])
    }

    /** The changes as a statement spells them. */
    function Stated(capability: Capability): ColumnChanges {
      if newTy.Some? then this.(newTy := Some(Written(newTy.value, capability))) else this
    }
  }

  const NoChanges := ColumnChanges(None, None, None, None)

  function ChangesBetween(previous: Column, next: Column): ColumnChanges {
    ColumnChanges(
      if previous.name != next.name then Some(next.name) else None,
      if previous.storageTy != next.storageTy then Some(next.storageTy) else None,
      if previous.nullable != next.nullable then Some(!next.nullable) else None,
      if previous.autoIncrement != next.autoIncrement then Some(next.autoIncrement) else None)
  }

  function StatedChanges(previous: Column, next: Column, capability: Capability): ColumnChanges {
    ChangesBetween(previous, next).Stated(capability)
  }

  /** A column as `CREATE TABLE` spells it; `check` lists the allowed texts of an emulated enum. */
  datatype ColumnDef = ColumnDef(
    name: string, ty: Type, notNull: bool, autoIncrement: bool, check: Option<seq<string>>)

  function DefOf(c: Column, capability: Capability): ColumnDef {
    if c.storageTy.Enum? && !capability.nativeEnum then
      ColumnDef(c.name, Text, !c.nullable, c.autoIncrement, Some(c.storageTy.variants.variants))
    else
      ColumnDef(c.name, Written(c.storageTy, capability), !c.nullable, c.autoIncrement, None)
  }

  function DefsOf(cs: seq<Column>, capability: Capability): (defs: seq<ColumnDef>)
    ensures |defs| == |cs|
    ensures forall i :: 0 <= i < |cs| ==> defs[i] == DefOf(cs[i], capability)
  {
    seq(|cs|, i requires 0 <= i < |cs| => DefOf(cs[i], capability))
  }
}
