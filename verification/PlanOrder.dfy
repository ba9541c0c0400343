/** The order of a plan's statements, for every diff and every backend. */
module PlanOrder {
  import opened DbSchema
  import opened MigrationPlan
  import opened Database

  predicate OnTypes(m: MigrationStatement) {
    m.statement.CreateType? || m.statement.RenameType? || m.statement.AddTypeValue?
  }

  function Switched(m: MigrationStatement): seq<bool> {
    if m.statement.PragmaForeignKeys? then [m.statement.enforce] else []
  }

  /** The values a plan sets the foreign-key switch to, in order. */
  function Pragmas(plan: seq<MigrationStatement>): seq<bool> {
    if plan == [] then [] else Switched(plan[0]) + Pragmas(plan[1..])
  }

  /** OFF, ON, OFF, ON, .. and never left OFF. */
  predicate Alternates(switches: seq<bool>) {
    |switches| % 2 == 0 && forall i :: 0 <= i < |switches| ==> switches[i] == (i % 2 == 1)
  }

  lemma {:induction false} PragmasAppend(a: seq<MigrationStatement>, b: seq<MigrationStatement>)
    ensures Pragmas(a + b) == Pragmas(a) + Pragmas(b)
  {
    if a == [] {
      assert a + b == b;
    } else {
      assert (a + b)[1..] == a[1..] + b;
      PragmasAppend(a[1..], b);
      Associative(Switched(a[0]), Pragmas(a[1..]), Pragmas(b));
    }
  }

  /** Statements on tables only, leaving enforcement as they found it. */
  predicate TableWork(plan: seq<MigrationStatement>) {
    (forall i :: 0 <= i < |plan| ==> !OnTypes(plan[i])) && Alternates(Pragmas(plan))
  }

  lemma TableWorkAppend(a: seq<MigrationStatement>, b: seq<MigrationStatement>)
    requires TableWork(a) && TableWork(b)
    ensures TableWork(a + b)
  {
    PragmasAppend(a, b);
    AlternatesAppend(Pragmas(a), Pragmas(b));
  }

  lemma AlternatesAppend(a: seq<bool>, b: seq<bool>)
    requires Alternates(a) && Alternates(b)
    ensures Alternates(a + b)
  {
  }

  lemma {:induction false} NoPragmas(plan: seq<MigrationStatement>)
    requires forall i :: 0 <= i < |plan| ==> !plan[i].statement.PragmaForeignKeys?
    ensures Pragmas(plan) == []
  {
    if plan != [] {
      NoPragmas(plan[1..]);
    }
  }

  // ---- What each stretch consists of ----

  /** 0 for index drops, 2 for index creates, 1 for the work on the columns between them. */
  function Phase(m: MigrationStatement): nat {
    if m.statement.DropIndex? then 0 else if m.statement.CreateIndex? then 2 else 1
  }

  predicate AllInPhase(plan: seq<MigrationStatement>, phase: nat) {
    forall i :: 0 <= i < |plan| ==> Phase(plan[i]) == phase && !OnTypes(plan[i])
  }

  predicate PhasesInOrder(plan: seq<MigrationStatement>) {
    forall i, j :: 0 <= i < j < |plan| ==> Phase(plan[i]) <= Phase(plan[j])
  }

  lemma {:induction false} IndexDropPhase(indices: seq<IndexDiff>, n: nat, schema: Schema)
    requires n <= |indices|
    ensures AllInPhase(DropIndexStatements(indices, n, schema), 0)
  {
    if n > 0 {
      IndexDropPhase(indices, n - 1, schema);
    }
  }

  lemma {:induction false} IndexCreatePhase(indices: seq<IndexDiff>, n: nat, schema: Schema)
    requires n <= |indices|
    ensures AllInPhase(CreateIndexStatements(indices, n, schema), 2)
  {
    if n > 0 {
      IndexCreatePhase(indices, n - 1, schema);
    }
  }

  lemma {:induction false} NewIndexPhase(indices: seq<Index>, n: nat, schema: Schema)
    requires n <= |indices|
    ensures AllInPhase(NewTableIndexStatements(indices, n, schema), 2)
  {
    if n > 0 {
      NewIndexPhase(indices, n - 1, schema);
    }
  }

  predicate ColumnStatementsOnly(plan: seq<MigrationStatement>) {
    forall i :: 0 <= i < |plan| ==>
      plan[i].statement.AddColumn? || plan[i].statement.DropColumn? || plan[i].statement.AlterColumn?
  }

  lemma {:induction false} AlterOnly(
    c: Column, changes: seq<ColumnChanges>, n: nat, schema: Schema, capability: Capability)
    requires n <= |changes|
    ensures ColumnStatementsOnly(AlterStatements(c, changes, n, schema, capability))
  {
    if n > 0 {
      AlterOnly(c, changes, n - 1, schema, capability);
    }
  }

  lemma {:induction false} ColumnsOnly(
    columns: seq<ColumnDiff>, n: nat, schema: Schema, table: nat, capability: Capability, renamed: RenamedTypes)
    requires n <= |columns|
    ensures ColumnStatementsOnly(ColumnChangeStatements(columns, n, schema, table, capability, renamed))
  {
    if n > 0 {
      ColumnsOnly(columns, n - 1, schema, table, capability, renamed);
      ColumnOnly(columns[n - 1], schema, table, capability, renamed);
    }
  }

  lemma ColumnOnly(d: ColumnDiff, schema: Schema, table: nat, capability: Capability, renamed: RenamedTypes)
    ensures ColumnStatementsOnly(ColumnStatements(d, schema, table, capability, renamed))
  {
    if d.Alter? {
      var steps := ChangeSteps(d.previous, d.next, capability);
      AlterOnly(d.previous, steps, |steps|, schema, capability);
    }
  }

  /** Rebuilt or changed in place, a table's column work is all of phase 1 and switches foreign keys
      off and on again or not at all. */
  lemma ColumnWorkShape(d: TableDiff, diff: SchemaDiff, capability: Capability, renamed: RenamedTypes)
    requires d.Alter? && IdsInRange(d, diff.previous, capability, renamed)
    ensures AllInPhase(ColumnWork(d, diff, capability, renamed), 1)
    ensures Pragmas(ColumnWork(d, diff, capability, renamed))
         == if NeedsRecreation(d.columns, capability, renamed) then [false, true] else []
  {
    var schema := WorkingSchema(d, diff);
    if NeedsRecreation(d.columns, capability, renamed) {
      RecreationShape(schema, d.previous, d.next, d.columns, capability);
    } else {
      ColumnsOnly(d.columns, |d.columns|, schema, d.previous.id, capability, renamed);
      InPlaceShape(ColumnChangeStatements(d.columns, |d.columns|, schema, d.previous.id, capability, renamed));
    }
  }

  lemma RecreationShape(schema: Schema, previous: Table, next: Table, columns: seq<ColumnDiff>, capability: Capability)
    requires previous.id < |schema.tables| && next.id < |schema.tables|
    ensures AllInPhase(RecreationStatements(schema, previous, next, columns, capability), 1)
    ensures Pragmas(RecreationStatements(schema, previous, next, columns, capability)) == [false, true]
  {
    RecreationPragmas(RecreationStatements(schema, previous, next, columns, capability));
  }

  lemma InPlaceShape(steps: seq<MigrationStatement>)
    requires ColumnStatementsOnly(steps)
    ensures AllInPhase(steps, 1) && Pragmas(steps) == []
  {
    NoPragmas(steps);
  }

  lemma RecreationPragmas(steps: seq<MigrationStatement>)
    requires |steps| == 6
    requires steps[0].statement == Statement.PragmaForeignKeys(false)
    requires steps[5].statement == Statement.PragmaForeignKeys(true)
    requires forall i :: 0 < i < 5 ==> !steps[i].statement.PragmaForeignKeys?
    ensures Pragmas(steps) == [false, true]
  {
    assert steps == [steps[0]] + steps[1..5] + [steps[5]];
    NoPragmas(steps[1..5]);
    PragmasAppend([steps[0]] + steps[1..5], [steps[5]]);
    PragmasAppend([steps[0]], steps[1..5]);
    assert Pragmas([steps[0]]) == [false] + Pragmas([]);
    assert Pragmas([steps[5]]) == [true] + Pragmas([]);
  }

  /** In an altered table's statements, past the renaming, every index drop comes before the column
      work and every index create after it. */
  lemma AlteredTableInOrder(d: TableDiff, diff: SchemaDiff, capability: Capability, renamed: RenamedTypes)
    requires d.Alter? && IdsInRange(d, diff.previous, capability, renamed)
    ensures
      var plan, rename := TableStatements(d, diff, capability, renamed), TableRename(d, diff);
      rename <= plan && PhasesInOrder(plan[|rename|..])
  {
    var rename := TableRename(d, diff);
    var drops := DropIndexStatements(d.indices, |d.indices|, diff.previous);
    var work := ColumnWork(d, diff, capability, renamed);
    var creates := CreateIndexStatements(d.indices, |d.indices|, diff.next);
    IndexDropPhase(d.indices, |d.indices|, diff.previous);
    ColumnWorkShape(d, diff, capability, renamed);
    IndexCreatePhase(d.indices, |d.indices|, diff.next);
    PhasesJoin(drops, work, creates);
    BehindFirst(rename, drops, work, creates);
  }

  lemma BehindFirst(
    a: seq<MigrationStatement>, b: seq<MigrationStatement>, c: seq<MigrationStatement>,
    d: seq<MigrationStatement>)
    ensures a <= a + b + c + d && (a + b + c + d)[|a|..] == b + c + d
  {
  }

  lemma PhasesJoin(drops: seq<MigrationStatement>, work: seq<MigrationStatement>, creates: seq<MigrationStatement>)
    requires AllInPhase(drops, 0) && AllInPhase(work, 1) && AllInPhase(creates, 2)
    ensures PhasesInOrder(drops + work + creates)
  {
  }

  lemma TableShape(d: TableDiff, diff: SchemaDiff, capability: Capability, renamed: RenamedTypes)
    requires IdsInRange(d, diff.previous, capability, renamed)
    ensures TableWork(TableStatements(d, diff, capability, renamed))
  {
    match d
    case Create(table) =>
      NewIndexPhase(table.indices, |table.indices|, diff.next);
      NoPragmas(TableStatements(d, diff, capability, renamed));
    case Drop(table) => NoPragmas(TableStatements(d, diff, capability, renamed));
    case Alter(_, _, _, _) => AlteredTableShape(d, diff, capability, renamed);
  }

  lemma AlteredTableShape(d: TableDiff, diff: SchemaDiff, capability: Capability, renamed: RenamedTypes)
    requires d.Alter? && IdsInRange(d, diff.previous, capability, renamed)
    ensures TableWork(TableStatements(d, diff, capability, renamed))
  {
    var rename := TableRename(d, diff);
    var drops := DropIndexStatements(d.indices, |d.indices|, diff.previous);
    var work := ColumnWork(d, diff, capability, renamed);
    var creates := CreateIndexStatements(d.indices, |d.indices|, diff.next);
    IndexDropPhase(d.indices, |d.indices|, diff.previous);
    ColumnWorkShape(d, diff, capability, renamed);
    IndexCreatePhase(d.indices, |d.indices|, diff.next);
    FourShapes(rename, drops, work, creates);
  }

  lemma FourShapes(
    rename: seq<MigrationStatement>, drops: seq<MigrationStatement>, work: seq<MigrationStatement>,
    creates: seq<MigrationStatement>)
    requires forall i :: 0 <= i < |rename| ==> rename[i].statement.RenameTable?
    requires AllInPhase(drops, 0) && AllInPhase(work, 1) && AllInPhase(creates, 2)
    requires Alternates(Pragmas(work))
    ensures TableWork(rename + drops + work + creates)
  {
    NoPragmas(rename);
    NoPragmas(drops);
    NoPragmas(creates);
    OnlyMiddlePragmas(rename, drops, work, creates);
  }

  lemma OnlyMiddlePragmas(
    a: seq<MigrationStatement>, b: seq<MigrationStatement>, c: seq<MigrationStatement>, d: seq<MigrationStatement>)
    requires Pragmas(a) == [] && Pragmas(b) == [] && Pragmas(d) == []
    ensures Pragmas(a + b + c + d) == Pragmas(c)
  {
    PragmasAppend(a, b);
    PragmasAppend(a + b, c);
    PragmasAppend(a + b + c, d);
  }

  lemma {:induction false} TablesShape(diff: SchemaDiff, n: nat, capability: Capability, renamed: RenamedTypes)
    requires n <= |diff.tables| && AllInRange(diff.tables, diff.previous, capability, renamed)
    ensures TableWork(TablesStatements(diff, n, capability, renamed))
  {
    if n > 0 {
      var k: nat := n - 1;
      assert n == k + 1;
      TablesShape(diff, k, capability, renamed);
      NextTableShape(diff, k, capability, renamed);
    }
  }

  lemma NextTableShape(diff: SchemaDiff, n: nat, capability: Capability, renamed: RenamedTypes)
    requires n < |diff.tables| && AllInRange(diff.tables, diff.previous, capability, renamed)
    requires TableWork(TablesStatements(diff, n, capability, renamed))
    ensures TableWork(TablesStatements(diff, n + 1, capability, renamed))
  {
    assert IdsInRange(diff.tables[n], diff.previous, capability, renamed);
    TableShape(diff.tables[n], diff, capability, renamed);
    TableWorkAppend(
      TablesStatements(diff, n, capability, renamed), TableStatements(diff.tables[n], diff, capability, renamed));
  }

  lemma {:induction false} TypesOnly(diff: SchemaDiff, n: nat)
    requires n <= |diff.types|
    ensures forall i :: 0 <= i < |TypeStatements(diff, n)| ==> OnTypes(TypeStatements(diff, n)[i])
  {
    if n > 0 {
      TypesOnly(diff, n - 1);
      if diff.types[n - 1].AddVariants? {
        VariantsOnly(diff.types[n - 1].ty, diff.types[n - 1].added, |diff.types[n - 1].added|, diff.next);
      }
    }
  }

  lemma {:induction false} VariantsOnly(ty: TypeEnum, added: seq<string>, n: nat, schema: Schema)
    requires n <= |added|
    ensures forall i :: 0 <= i < |AddVariantStatements(ty, added, n, schema)| ==>
      OnTypes(AddVariantStatements(ty, added, n, schema)[i])
  {
    if n > 0 {
      VariantsOnly(ty, added, n - 1, schema);
    }
  }

  /** For every diff and backend: what is done to types comes before what is done to tables, and
      foreign-key enforcement goes strictly off and on in turn and ends on. */
  lemma PlanInOrder(diff: SchemaDiff, capability: Capability)
    requires Plannable(diff, capability)
    ensures
      var plan := Plan(diff, capability);
      && (forall i, j :: 0 <= i < j < |plan| && OnTypes(plan[j]) ==> OnTypes(plan[i]))
      && Alternates(Pragmas(plan))
  {
    var types := if capability.namedEnumTypes then TypeStatements(diff, |diff.types|) else [];
    var renamed := RenamedTypesOf(diff.types);
    var tables := TablesStatements(diff, |diff.tables|, capability, renamed);
    TypesOnly(diff, |diff.types|);
    TablesShape(diff, |diff.tables|, capability, renamed);
    JoinInOrder(types, tables);
  }

  lemma JoinInOrder(types: seq<MigrationStatement>, tables: seq<MigrationStatement>)
    requires forall i :: 0 <= i < |types| ==> OnTypes(types[i])
    requires TableWork(tables)
    ensures forall i, j :: 0 <= i < j < |types + tables| && OnTypes((types + tables)[j]) ==>
      OnTypes((types + tables)[i])
    ensures Alternates(Pragmas(types + tables))
  {
    NoPragmas(types);
    PragmasAppend(types, tables);
  }

  /** What the switch stands at after a run is what the run last set it to. */
  lemma {:induction false} RunSetsSwitch(plan: seq<MigrationStatement>, db: Db)
    requires Run(plan, db).Some?
    ensures Run(plan, db).value.enforce
         == if Pragmas(plan) == [] then db.enforce else Pragmas(plan)[|Pragmas(plan)| - 1]
  {
    if plan != [] {
      ExecSetsSwitch(plan[0], db);
      RunSetsSwitch(plan[1..], Exec(Serialize(plan[0]).value, db).value);
    }
  }

  lemma ExecSetsSwitch(m: MigrationStatement, db: Db)
    requires Serialize(m).Some? && Exec(Serialize(m).value, db).Some?
    ensures Exec(Serialize(m).value, db).value.enforce
         == if m.statement.PragmaForeignKeys? then m.statement.enforce else db.enforce
  {
  }

  /** A plan that starts with foreign keys enforced leaves them enforced. */
  lemma PlanEndsEnforced(diff: SchemaDiff, capability: Capability, db: Db)
    requires Plannable(diff, capability) && db.enforce
    requires Run(Plan(diff, capability), db).Some?
    ensures Run(Plan(diff, capability), db).value.enforce
  {
    PlanInOrder(diff, capability);
    AlternatingEndsEnforced(Plan(diff, capability), db);
  }

  lemma AlternatingEndsEnforced(plan: seq<MigrationStatement>, db: Db)
    requires Alternates(Pragmas(plan)) && db.enforce && Run(plan, db).Some?
    ensures Run(plan, db).value.enforce
  {
    LastIsOn(Pragmas(plan));
    RunSetsSwitch(plan, db);
  }

  lemma LastIsOn(switches: seq<bool>)
    requires Alternates(switches)
    ensures switches != [] ==> switches[|switches| - 1]
  {
  }
}
