/** What a column definition means once its dialect spells it: its type, and the texts it lets in. */
module DefinedColumns {
  import opened Wrappers
  import opened DbSchema
  import opened MigrationPlan
  import opened Database
  import opened InPlaceMigration
  import opened MigrationStrategies
  import opened WholePlan
  import opened NextTables
  import opened TypeDiffing
  import opened TypeCatalogue
  import opened GeneratedMigration
  import opened Dialects

  /** A column type as a dialect spells it. */
  datatype SqlType =
    | TextType
    | JsonType
    | EnumOf(labels: seq<string>)
    | TypeCalled(name: string)
    | ArrayOf(elem: SqlType)
    | OtherType(repr: string)

  /** `None` where the serializer panics: PostgreSQL spells an enum by its name alone. */
  function SpelledType(d: Dialect, ty: Type): Option<SqlType> {
    match ty
    case Enum(e) => (
      match d
      case PostgreSQL => if e.name.Some? then Some(TypeCalled(e.name.value)) else None
      case MySQL => Some(EnumOf(e.variants))
      case SQLite => Some(TextType))
    case List(elem) => (
      match d
      case PostgreSQL =>
        var spelled :- SpelledType(d, elem);
        Some(ArrayOf(spelled))
      case MySQL => Some(JsonType)
      case SQLite => Some(TextType))
    case Text => Some(TextType)
    case Plain(repr) => Some(OtherType(repr))
  }

  type Catalogue = map<string, seq<string>>

  /** Whether an enum type has the text among its labels; an array, as an element. */
  predicate TypeLetsIn(ty: SqlType, catalogue: Catalogue, text: string) {
    match ty
    case EnumOf(labels) => text in labels
    case TypeCalled(name) => name in catalogue && text in catalogue[name]
    case ArrayOf(elem) => TypeLetsIn(elem, catalogue, text)
    case _ => true
  }

  /** Whether a column so defined takes the text: its type does, and so does its check. */
  predicate LetsIn(d: Dialect, def: ColumnDef, catalogue: Catalogue, text: string) {
    && SpelledType(d, def.ty).Some? && TypeLetsIn(SpelledType(d, def.ty).value, catalogue, text)
    && (def.check.Some? ==> text in def.check.value)
  }

  /** The texts a column is meant for: an enum's variants. Elements of a list are held to it only where the
      database has arrays. */
  predicate MeantFor(d: Dialect, ty: Type, text: string) {
    match ty
    case Enum(e) => text in e.variants
    case List(elem) => d.PostgreSQL? ==> MeantFor(d, elem, text)
    case _ => true
  }

  /** Every enum of the type is named, and in the catalogue with its variants. */
  predicate InCatalogue(ty: Type, catalogue: Catalogue) {
    match ty
    case Enum(e) => e.name.Some? && e.name.value in catalogue && catalogue[e.name.value] == e.variants
    case List(elem) => InCatalogue(elem, catalogue)
    case _ => true
  }

  lemma {:induction false} WrittenSpelled(d: Dialect, ty: Type)
    ensures SpelledType(d, Written(ty, d.Capability())) == SpelledType(d, ty)
  {
    if ty.List? {
      WrittenSpelled(d, ty.elem);
    }
  }

  lemma {:induction false} SpelledLetsIn(d: Dialect, ty: Type, catalogue: Catalogue, text: string)
    requires d.PostgreSQL? ==> InCatalogue(ty, catalogue)
    ensures SpelledType(d, ty).Some?
    ensures TypeLetsIn(SpelledType(d, ty).value, catalogue, text) <==> (d.SQLite? && ty.Enum?) || MeantFor(d, ty, text)
  {
    if ty.List? && d.PostgreSQL? {
      SpelledLetsIn(d, ty.elem, catalogue, text);
    }
  }

  /** A column is defined under its own name, type and constraints, with a check exactly where the database
      has no enums, and takes exactly the texts it is meant for. */
  lemma DefinedAsMeant(d: Dialect, c: Column, catalogue: Catalogue, text: string)
    requires d.PostgreSQL? ==> InCatalogue(c.storageTy, catalogue)
    ensures
      var def := DefOf(c, d.Capability());
      && def.name == c.name && def.autoIncrement == c.autoIncrement && (def.notNull <==> !c.nullable)
      && SpelledType(d, def.ty) == SpelledType(d, c.storageTy)
      && (def.check.Some? <==> d.SQLite? && c.storageTy.Enum?)
      && (LetsIn(d, def, catalogue, text) <==> MeantFor(d, c.storageTy, text))
  {
    WrittenSpelled(d, c.storageTy);
    SpelledLetsIn(d, c.storageTy, catalogue, text);
  }

  // ---- The columns of a migrated database ----

  predicate HasColumn(s: Schema, t: nat, i: nat) {
    t < |s.tables| && i < |s.tables[t].columns|
  }

  function StoredTy(s: Schema, t: nat, i: nat): Type
    requires HasColumn(s, t, i)
  {
    s.tables[t].columns[i].storageTy
  }

  /** Enums of one name have the same variants, wherever they are used; and there is none without a name. */
  ghost predicate EnumsAgree(s: Schema) {
    && (forall t, i | HasColumn(s, t, i) :: HasEnum(StoredTy(s, t, i)) ==> NameOf(StoredTy(s, t, i)).Some?)
    && (forall t, i, u, j |
          HasColumn(s, t, i) && HasColumn(s, u, j) && NameOf(StoredTy(s, t, i)).Some?
          && NameOf(StoredTy(s, t, i)) == NameOf(StoredTy(s, u, j)) ::
          NamedEnum(StoredTy(s, t, i)) == NamedEnum(StoredTy(s, u, j)))
  }

  /** Every type is one a column has. */
  ghost predicate TakenFrom(types: NamedTypes, s: Schema) {
    forall name <- types :: exists t: nat, i: nat ::
      HasColumn(s, t, i) && NameOf(StoredTy(s, t, i)) == Some(name)
      && NamedEnum(StoredTy(s, t, i)) == Some(types[name].ty)
  }

  lemma {:induction false} ColumnsTaken(types: NamedTypes, s: Schema, t: nat, n: nat)
    requires t < |s.tables| && n <= |s.tables[t].columns| && TakenFrom(types, s)
    ensures TakenFrom(WithColumns(types, s.tables[t], n), s)
  {
    if n > 0 {
      var k: nat := n - 1;
      ColumnsTaken(types, s, t, k);
      UseTaken(WithColumns(types, s.tables[t], k), s, t, k);
    }
  }

  lemma UseTaken(types: NamedTypes, s: Schema, t: nat, i: nat)
    requires HasColumn(s, t, i) && TakenFrom(types, s)
    ensures TakenFrom(WithUse(types, s.tables[t].name, s.tables[t].columns[i]), s)
  {
    var more := WithUse(types, s.tables[t].name, s.tables[t].columns[i]);
    forall name | name in more
      ensures exists u: nat, j: nat ::
        HasColumn(s, u, j) && NameOf(StoredTy(s, u, j)) == Some(name)
        && NamedEnum(StoredTy(s, u, j)) == Some(more[name].ty)
    {
      if name in types {
        assert more[name].ty == types[name].ty;
      } else {
        assert NameOf(StoredTy(s, t, i)) == Some(name);
      }
    }
  }

  lemma {:induction false} CollectedTaken(s: Schema, n: nat)
    requires n <= |s.tables|
    ensures TakenFrom(Collected(s.tables, n), s)
  {
    if n > 0 {
      var k: nat := n - 1;
      CollectedTaken(s, k);
      ColumnsTaken(Collected(s.tables, k), s, k, |s.tables[k].columns|);
    }
  }

  /** A column's enum is in a catalogue that has the schema's types. */
  lemma ColumnInCatalogue(s: Schema, t: nat, i: nat, db: Db)
    requires HasColumn(s, t, i) && EnumsAgree(s) && FlatEnums(s) && HoldsTypes(TypesOf(s), db)
    ensures InCatalogue(StoredTy(s, t, i), db.types)
  {
    var ty := StoredTy(s, t, i);
    assert FlatType(s.tables[t].columns[i].storageTy);
    if HasEnum(ty) {
      FlatIsSeen(ty);
    }
    if HasEnum(ty) {
      var name := NameOf(ty).value;
      CollectedKnown(s.tables, |s.tables|);
      CollectedTaken(s, |s.tables|);
      assert NameOf(s.tables[t].columns[i].storageTy).Some?;
      assert name in TypesOf(s);
      var u: nat, j: nat :| HasColumn(s, u, j) && NameOf(StoredTy(s, u, j)) == Some(name)
        && NamedEnum(StoredTy(s, u, j)) == Some(TypesOf(s)[name].ty);
      assert NamedEnum(ty) == Some(TypesOf(s)[name].ty);
    } else {
      NoEnumInCatalogue(ty, db.types);
    }
  }

  lemma {:induction false} NoEnumInCatalogue(ty: Type, catalogue: Catalogue)
    requires !HasEnum(ty)
    ensures InCatalogue(ty, catalogue)
  {
    if ty.List? {
      NoEnumInCatalogue(ty.elem, catalogue);
    }
  }

  /** The column is there under its name, with its constraints, and takes exactly what it is meant for. */
  ghost predicate ColumnHeld(d: Dialect, c: Column, t: TableData, catalogue: Catalogue) {
    exists def <- t.columns ::
      && def.name == c.name && def.autoIncrement == c.autoIncrement && (def.notNull <==> !c.nullable)
      && SpelledType(d, def.ty) == SpelledType(d, c.storageTy)
      && forall text :: LetsIn(d, def, catalogue, text) <==> MeantFor(d, c.storageTy, text)
  }

  lemma DefHeld(d: Dialect, c: Column, t: TableData, columns: seq<Column>, catalogue: Catalogue)
    requires ColumnsAre(t, columns, d.Capability(), []) && c in columns
    requires d.PostgreSQL? ==> InCatalogue(c.storageTy, catalogue)
    ensures ColumnHeld(d, c, t, catalogue)
  {
    SlotOf(columns, d.Capability(), [], c);
    assert c.name in NamesOf(t.columns);
    var k :| 0 <= k < |t.columns| && t.columns[k].name == c.name;
    var def := t.columns[k];
    assert def == DefOf(c, d.Capability());
    DefinedAsMeant(d, c, catalogue, "");
    forall text
      ensures LetsIn(d, def, catalogue, text) <==> MeantFor(d, c.storageTy, text)
    {
      DefinedAsMeant(d, c, catalogue, text);
    }
    assert def in t.columns;
  }

  /** After a generated migration that goes through, every column of the next schema is there as its dialect
      spells it, and takes exactly the texts it is meant for: an enum column its variants. */
  lemma NextColumnsHeld(d: Dialect, g: Generated, start: Db, after: Db, t: nat, i: nat)
    requires g.Sound() && g.TypesSound() && g.capability == d.Capability()
    requires HoldsSchema(g.previous, g.capability, start)
    requires d.PostgreSQL? ==> HoldsTypes(TypesOf(g.previous), start) && EnumsAgree(g.next)
    requires Run(Plan(g.Diff(), g.capability), start) == Some(after)
    requires HasColumn(g.next, t, i)
    ensures g.next.tables[t].name in after.tables
    ensures ColumnHeld(d, g.next.tables[t].columns[i], after.tables[g.next.tables[t].name], after.types)
  {
    BackendsDefineAlike();
    NextSchemaHeld(g, start, after);
    var q := g.next.tables[t];
    assert HoldsTable(q, g.capability, after);
    if d.PostgreSQL? {
      ColumnInCatalogue(g.next, t, i, after);
    }
    DefHeld(d, q.columns[i], after.tables[q.name], q.columns, after.types);
  }
}
