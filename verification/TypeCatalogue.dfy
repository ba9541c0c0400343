/** What the diff of types does: which names are renamed, and what the catalogue of types holds afterwards. */
module TypeCatalogue {
  import opened Wrappers
  import opened DbSchema
  import opened MigrationPlan
  import opened Database
  import opened WholePlan
  import opened PlanOrder
  import opened NextTables
  import opened TypeDiffing

  // ---- The renames of a diff ----

  /** The renames among the first `n` names, old and new. */
  function RenamePairs(order: seq<string>, from: seq<Option<string>>, n: nat): RenamedTypes
    requires n <= |order| && n <= |from|
  {
    if n == 0 then []
    else
      RenamePairs(order, from, n - 1)
      + if from[n - 1].Some? && from[n - 1].value != order[n - 1] then [(from[n - 1], Some(order[n - 1]))] else []
  }

  lemma {:induction false} RenamesAppend(a: seq<TypeDiff>, b: seq<TypeDiff>)
    ensures RenamedTypesOf(a + b) == RenamedTypesOf(a) + RenamedTypesOf(b)
    decreases |b|
  {
    if b == [] {
      assert a + b == a;
      RenamesPrefix(a, b, |a|);
    } else {
      var k: nat := |b| - 1;
      RenamesPrefix(a + b, [], |a| + k);
      RenamesAppend(a, b[..k]);
      RenamesPrefix(a + b[..k], [b[k]], |a| + k);
      RenamesPrefix(b[..k], [b[k]], k);
      assert a + b == a + b[..k] + [b[k]] && b == b[..k] + [b[k]];
      Associated(RenamedTypesOf(a), RenamesAmong(b, k), b[k]);
    }
  }

  lemma Associated(a: RenamedTypes, b: RenamedTypes, d: TypeDiff)
    ensures
      var last := if d.Rename? then [(d.previous.name, d.next.name)] else [];
      a + b + last == a + (b + last)
  {
  }

  lemma {:induction false} RenamesPrefix(a: seq<TypeDiff>, b: seq<TypeDiff>, n: nat)
    requires n <= |a|
    ensures RenamesAmong(a + b, n) == RenamesAmong(a, n)
  {
    if n > 0 {
      RenamesPrefix(a, b, n - 1);
      assert (a + b)[n - 1] == a[n - 1];
    }
  }

  /** The changes for one name rename it or do not. */
  lemma RenamesFor(previous: NamedTypes, next: NamedTypes, name: string, from: Option<string>)
    requires NamesKnown(previous) && NamesKnown(next) && name in next
    requires from.Some? ==> from.value in previous && previous[from.value].ty.variants <= next[name].ty.variants
    ensures RenamedTypesOf(ChangesFor(previous, next, name, from))
         == if from.Some? && from.value != name then [(from, Some(name))] else []
  {
    var changes := ChangesFor(previous, next, name, from);
    if |changes| >= 1 {
      assert RenamesAmong(changes, 0) == [];
      assert RenamesAmong(changes, 1) == RenamesAmong(changes, 0)
        + if changes[0].Rename? then [(changes[0].previous.name, changes[0].next.name)] else [];
    }
  }

  lemma {:induction false} RenamesAre(
    previous: NamedTypes, next: NamedTypes, order: seq<string>, from: seq<Option<string>>, n: nat)
    requires n <= |order| && n <= |from| && NamesKnown(previous) && NamesKnown(next)
    requires Sourced(previous, next, order, from, n)
    ensures RenamedTypesOf(ChangesUpTo(previous, next, order, from, n)) == RenamePairs(order, from, n)
  {
    if n > 0 {
      var k: nat := n - 1;
      assert n == k + 1;
      RenamesAre(previous, next, order, from, k);
      NextRenames(previous, next, order, from, k);
    }
  }

  lemma NextRenames(
    previous: NamedTypes, next: NamedTypes, order: seq<string>, from: seq<Option<string>>, n: nat)
    requires n < |order| && n < |from| && NamesKnown(previous) && NamesKnown(next)
    requires Sourced(previous, next, order, from, n + 1)
    requires RenamedTypesOf(ChangesUpTo(previous, next, order, from, n)) == RenamePairs(order, from, n)
    ensures RenamedTypesOf(ChangesUpTo(previous, next, order, from, n + 1)) == RenamePairs(order, from, n + 1)
  {
    assert ComesFrom(previous, next, RenamedAway(order, from, n), order[n], from[n]);
    SourcedNext(previous, next, order, from, n);
    RenamesAppend(ChangesUpTo(previous, next, order, from, n), ChangesFor(previous, next, order[n], from[n]));
    RenamesFor(previous, next, order[n], from[n]);
  }

  /** A rename's old name is one that is taken, and gone from the next schema; its new name is there. */
  lemma {:induction false} PairsTaken(
    previous: NamedTypes, next: NamedTypes, order: seq<string>, from: seq<Option<string>>, n: nat)
    requires n <= |order| && n <= |from| && Sourced(previous, next, order, from, n)
    ensures RenamedOnce(RenamePairs(order, from, n))
    ensures forall pair <- RenamePairs(order, from, n) ::
      && pair.0.Some? && pair.0.value in RenamedAway(order, from, n) && pair.0.value !in next
      && pair.1.Some? && pair.1.value in next
  {
    if n > 0 {
      var k: nat := n - 1;
      PairsTaken(previous, next, order, from, k);
      assert ComesFrom(previous, next, RenamedAway(order, from, k), order[k], from[k]);
      var before, all := RenamePairs(order, from, k), RenamePairs(order, from, n);
      forall i | 0 <= i < |before|
        ensures before[i].0.Some? && before[i].0.value in RenamedAway(order, from, k)
        ensures before[i].1.Some? && before[i].1.value in next
      {
        assert before[i] in before;
      }
    }
  }

  predicate HasEnum(ty: Type) {
    match ty
    case Enum(_) => true
    case List(elem) => HasEnum(elem)
    case _ => false
  }

  /** No enum is behind two lists, where the diff of types would not see it. */
  predicate FlatEnums(s: Schema) {
    forall t, i :: 0 <= t < |s.tables| && 0 <= i < |s.tables[t].columns| ==> FlatType(s.tables[t].columns[i].storageTy)
  }

  predicate FlatType(ty: Type) {
    ty.List? && ty.elem.List? ==> !HasEnum(ty)
  }

  lemma FlatIsSeen(ty: Type)
    requires FlatType(ty) && HasEnum(ty)
    ensures NamedEnum(ty).Some?
  {
  }

  lemma {:induction false} CallsEnum(ty: Type, name: Option<string>)
    ensures Calls(ty, name) ==> HasEnum(ty)
    ensures NamedEnum(ty).Some? ==> (Calls(ty, name) <==> name == NameOf(ty))
  {
    if ty.List? {
      CallsEnum(ty.elem, name);
    }
  }

  /** What the diff's renames satisfy: the columns of the next schema follow them. */
  lemma RenamesFollowed(previous: Schema, next: Schema, types: seq<TypeDiff>, t: nat)
    requires TypesComputed(previous, next, types) && FlatEnums(next) && t < |next.tables|
    ensures RenamedOnce(RenamedTypesOf(types)) && NamesAlive(next.tables[t].columns, RenamedTypesOf(types))
  {
    var p, q := TypesOf(previous), TypesOf(next);
    var order, from :| IsTypesDiff(p, q, types, order, from);
    CollectedKnown(previous.tables, |previous.tables|);
    CollectedKnown(next.tables, |next.tables|);
    RenamesAre(p, q, order, from, |order|);
    PairsTaken(p, q, order, from, |order|);
    var renamed, columns := RenamedTypesOf(types), next.tables[t].columns;
    forall i, k | 0 <= i < |columns| && 0 <= k < |renamed|
      ensures !Calls(columns[i].storageTy, renamed[k].0)
    {
      assert renamed[k] in renamed && FlatType(columns[i].storageTy);
      if HasEnum(columns[i].storageTy) {
        FlatIsSeen(columns[i].storageTy);
      }
      CallsEnum(columns[i].storageTy, renamed[k].0);
    }
  }

  // ---- The catalogue ----

  /** The catalogue has every one of the types, with its variants. */
  predicate HoldsTypes(types: NamedTypes, db: Db) {
    forall name <- types :: name in db.types && db.types[name] == types[name].ty.variants
  }

  lemma {:induction false} VariantsRun(ty: TypeEnum, added: seq<string>, n: nat, schema: Schema, db: Db, after: Db)
    requires n <= |added| && ty.name.Some? && ty.name.value in db.types
    requires Run(AddVariantStatements(ty, added, n, schema), db) == Some(after)
    ensures after.types == db.types[ty.name.value := db.types[ty.name.value] + added[..n]]
  {
    if n == 0 {
      assert db.types[ty.name.value] + [] == db.types[ty.name.value];
    } else {
      var k: nat := n - 1;
      var last := MigrationStatement(Statement.AddTypeValue(ty.name, added[k]), schema);
      var mid := RunSplit(AddVariantStatements(ty, added, k, schema), [last], db, after);
      VariantsRun(ty, added, k, schema, db, mid);
      RunOne(last, mid);
      assert db.types[ty.name.value] + added[..k] + [added[k]] == db.types[ty.name.value] + added[..n];
    }
  }

  lemma GrownRuns(p: TypeEnum, q: TypeEnum, diff: SchemaDiff, db: Db, after: Db)
    requires p.variants <= q.variants && q.name.Some? && q.name.value in db.types
    requires db.types[q.name.value] == p.variants
    requires Run(TypeStatements(diff.(types := Grown(p, q)), |Grown(p, q)|), db) == Some(after)
    ensures after.types == db.types[q.name.value := q.variants]
  {
    GrownStatements(p, q, diff);
    var added := q.variants[|p.variants|..];
    if p.variants == q.variants {
      NothingRuns(p, q, db, after);
    } else {
      assert Run(AddVariantStatements(q, added, |added|, diff.next), db) == Some(after);
      AddedRuns(p, q, added, diff.next, db, after);
    }
  }

  lemma NothingRuns(p: TypeEnum, q: TypeEnum, db: Db, after: Db)
    requires p.variants == q.variants && q.name.Some? && q.name.value in db.types
    requires db.types[q.name.value] == p.variants && Run([], db) == Some(after)
    ensures after.types == db.types[q.name.value := q.variants]
  {
    SetAgain(db.types, q.name.value);
  }

  lemma SetAgain(types: map<string, seq<string>>, name: string)
    requires name in types
    ensures types[name := types[name]] == types
  {
  }

  lemma GrownStatements(p: TypeEnum, q: TypeEnum, diff: SchemaDiff)
    requires p.variants <= q.variants
    ensures
      var added := q.variants[|p.variants|..];
      TypeStatements(diff.(types := Grown(p, q)), |Grown(p, q)|)
      == if p.variants == q.variants then [] else AddVariantStatements(q, added, |added|, diff.next)
  {
    OneStatements(AddVariants(q, q.variants[|p.variants|..]), diff);
  }

  lemma AddedRuns(p: TypeEnum, q: TypeEnum, added: seq<string>, schema: Schema, db: Db, after: Db)
    requires p.variants + added == q.variants && q.name.Some? && q.name.value in db.types
    requires db.types[q.name.value] == p.variants
    requires Run(AddVariantStatements(q, added, |added|, schema), db) == Some(after)
    ensures after.types == db.types[q.name.value := q.variants]
  {
    VariantsRun(q, added, |added|, schema, db, after);
    assert added[..|added|] == added;
  }

  lemma OneStatements(d: TypeDiff, diff: SchemaDiff)
    ensures TypeStatements(diff.(types := [d]), 1) == OneTypeStatements(d, diff.(types := [d]))
  {
    var types := diff.(types := [d]);
    assert TypeStatements(types, 0) == [];
    assert [] + OneTypeStatements(d, types) == OneTypeStatements(d, types);
  }

  lemma {:induction false} TypeStatementsPrefix(diff: SchemaDiff, a: seq<TypeDiff>, b: seq<TypeDiff>, n: nat)
    requires n <= |a|
    ensures TypeStatements(diff.(types := a + b), n) == TypeStatements(diff.(types := a), n)
  {
    if n > 0 {
      TypeStatementsPrefix(diff, a, b, n - 1);
      assert (a + b)[n - 1] == a[n - 1];
      SameOne(a[n - 1], diff, a + b, a);
    }
  }

  lemma SameOne(d: TypeDiff, diff: SchemaDiff, a: seq<TypeDiff>, b: seq<TypeDiff>)
    ensures OneTypeStatements(d, diff.(types := a)) == OneTypeStatements(d, diff.(types := b))
  {
  }

  lemma {:induction false} TypeStatementsAppend(diff: SchemaDiff, a: seq<TypeDiff>, b: seq<TypeDiff>)
    ensures TypeStatements(diff.(types := a + b), |a + b|)
         == TypeStatements(diff.(types := a), |a|) + TypeStatements(diff.(types := b), |b|)
    decreases |b|
  {
    var first := TypeStatements(diff.(types := a), |a|);
    if b == [] {
      assert a + b == a && first + [] == first;
    } else {
      var k: nat := |b| - 1;
      var rest := b[..k];
      assert a + b == (a + rest) + [b[k]] && b == rest + [b[k]];
      TypeStatementsAppend(diff, a, rest);
      TypeStatementsPrefix(diff, a + rest, [b[k]], |a + rest|);
      TypeStatementsPrefix(diff, rest, [b[k]], k);
      SameOne(b[k], diff, a + b, b);
      Associative(first, TypeStatements(diff.(types := rest), k), OneTypeStatements(b[k], diff.(types := b)));
    }
  }

  /** The statements for one next type, of which `from` is the previous version. */
  lemma NameRuns(
    previous: NamedTypes, next: NamedTypes, name: string, from: Option<string>, diff: SchemaDiff, db: Db,
    after: Db)
    requires NamesKnown(previous) && NamesKnown(next) && name in next
    requires from.Some? ==>
      && from.value in previous && previous[from.value].ty.variants <= next[name].ty.variants
      && from.value in db.types && db.types[from.value] == previous[from.value].ty.variants
    requires
      var changes := ChangesFor(previous, next, name, from);
      Run(TypeStatements(diff.(types := changes), |changes|), db) == Some(after)
    ensures name in after.types && after.types[name] == next[name].ty.variants
    ensures forall other <- db.types :: other != name && Some(other) != from ==>
      other in after.types && after.types[other] == db.types[other]
  {
    var changes := ChangesFor(previous, next, name, from);
    if from.None? {
      OneChange(changes[0], diff, db, after);
    } else {
      var grown := Grown(previous[from.value].ty, next[name].ty);
      if from.value == name {
        assert changes == grown;
        GrownRuns(previous[name].ty, next[name].ty, diff, db, after);
      } else {
        var rename := TypeDiff.Rename(previous[from.value].ty, next[name].ty);
        TypeStatementsAppend(diff, [rename], grown);
        var mid := RunSplit(
          TypeStatements(diff.(types := [rename]), 1), TypeStatements(diff.(types := grown), |grown|), db, after);
        OneChange(rename, diff, db, mid);
        GrownRuns(previous[from.value].ty, next[name].ty, diff, mid, after);
      }
    }
  }

  /** A single statement on a type. */
  lemma OneChange(d: TypeDiff, diff: SchemaDiff, db: Db, after: Db)
    requires d.Create? || d.Rename?
    requires Run(TypeStatements(diff.(types := [d]), 1), db) == Some(after)
    ensures d.Create? ==>
      && d.ty.name.Some? && d.ty.name.value !in db.types
      && after.types == db.types[d.ty.name.value := d.ty.variants]
    ensures d.Rename? ==>
      && d.previous.name.Some? && d.next.name.Some? && d.previous.name.value in db.types
      && after.types == (db.types - {d.previous.name.value})[d.next.name.value := db.types[d.previous.name.value]]
  {
    OneStatements(d, diff);
    RunOne(OneTypeStatements(d, diff.(types := [d]))[0], db);
  }

  /** After the first `n` names: those have their next variants, and the types still to come their previous. */
  predicate TypesProgress(
    previous: NamedTypes, next: NamedTypes, order: seq<string>, from: seq<Option<string>>, n: nat, db: Db)
    requires n <= |order| && n <= |from|
  {
    && (forall k :: 0 <= k < n ==>
          order[k] in next && order[k] in db.types && db.types[order[k]] == next[order[k]].ty.variants)
    && (forall name <- previous :: name !in RenamedAway(order, from, n) && name !in order[..n] ==>
          name in db.types && db.types[name] == previous[name].ty.variants)
  }

  lemma TypesProgressStep(
    previous: NamedTypes, next: NamedTypes, order: seq<string>, from: seq<Option<string>>, n: nat,
    diff: SchemaDiff, db: Db, after: Db)
    requires NamesKnown(previous) && NamesKnown(next) && EachOnce(order, next.Keys) && |from| == |order|
    requires n < |order| && ComesFrom(previous, next, RenamedAway(order, from, n), order[n], from[n])
    requires TypesProgress(previous, next, order, from, n, db)
    requires forall name <- RenamedAway(order, from, n) :: name !in next
    requires
      var changes := ChangesFor(previous, next, order[n], from[n]);
      Run(TypeStatements(diff.(types := changes), |changes|), db) == Some(after)
    ensures TypesProgress(previous, next, order, from, n + 1, after)
  {
    SourceThere(previous, next, order, from, n, db);
    NameRuns(previous, next, order[n], from[n], diff, db, after);
    DoneStay(next, order, from[n], n, db.types, after.types);
    RestStay(previous, order, from, n, db.types, after.types);
  }

  /** The names done stay done. */
  lemma DoneStay(
    next: NamedTypes, order: seq<string>, source: Option<string>, n: nat, before: map<string, seq<string>>,
    after: map<string, seq<string>>)
    requires EachOnce(order, next.Keys) && n < |order|
    requires source.Some? && source.value != order[n] ==> source.value !in next
    requires order[n] in after && after[order[n]] == next[order[n]].ty.variants
    requires forall other <- before :: other != order[n] && Some(other) != source ==>
      other in after && after[other] == before[other]
    requires forall k :: 0 <= k < n ==>
      order[k] in next && order[k] in before && before[order[k]] == next[order[k]].ty.variants
    ensures forall k :: 0 <= k < n + 1 ==>
      order[k] in next && order[k] in after && after[order[k]] == next[order[k]].ty.variants
  {
    assert order[n] in order;
  }

  /** The types still to come stay as they were. */
  lemma RestStay(
    previous: NamedTypes, order: seq<string>, from: seq<Option<string>>, n: nat,
    before: map<string, seq<string>>, after: map<string, seq<string>>)
    requires n < |order| && n < |from|
    requires forall other <- before :: other != order[n] && Some(other) != from[n] ==>
      other in after && after[other] == before[other]
    requires forall name <- previous :: name !in RenamedAway(order, from, n) && name !in order[..n] ==>
      name in before && before[name] == previous[name].ty.variants
    ensures forall name <- previous :: name !in RenamedAway(order, from, n + 1) && name !in order[..n + 1] ==>
      name in after && after[name] == previous[name].ty.variants
  {
    forall name | name in previous && name !in RenamedAway(order, from, n + 1) && name !in order[..n + 1]
      ensures name in after && after[name] == previous[name].ty.variants
    {
      assert order[..n + 1] == order[..n] + [order[n]];
      StillUntaken(order, from, n, name);
    }
  }

  lemma StillUntaken(order: seq<string>, from: seq<Option<string>>, n: nat, name: string)
    requires n < |order| && n < |from| && name !in RenamedAway(order, from, n + 1) && name != order[n]
    ensures name !in RenamedAway(order, from, n) && from[n] != Some(name)
  {
  }

  /** The previous version of the next name to come is still in the catalogue. */
  lemma SourceThere(
    previous: NamedTypes, next: NamedTypes, order: seq<string>, from: seq<Option<string>>, n: nat, db: Db)
    requires EachOnce(order, next.Keys) && |from| == |order| && n < |order|
    requires ComesFrom(previous, next, RenamedAway(order, from, n), order[n], from[n])
    requires TypesProgress(previous, next, order, from, n, db)
    requires forall name <- RenamedAway(order, from, n) :: name !in next
    ensures from[n].Some? ==>
      && from[n].value in previous && from[n].value in db.types
      && db.types[from[n].value] == previous[from[n].value].ty.variants
      && from[n].value !in order[..n]
  {
    if from[n].Some? {
      var name := from[n].value;
      forall k | 0 <= k < n
        ensures order[..n][k] != name
      {
        assert order[k] in order;
      }
      assert name !in RenamedAway(order, from, n);
    }
  }

  /** A name that stays was not renamed away: names renamed away are gone from the next schema. */
  lemma {:induction false} StayersUntaken(
    previous: NamedTypes, next: NamedTypes, order: seq<string>, from: seq<Option<string>>, n: nat)
    requires n <= |order| && n <= |from| && Sourced(previous, next, order, from, n)
    ensures forall name <- RenamedAway(order, from, n) :: name !in next
  {
    forall name | name in RenamedAway(order, from, n)
      ensures name !in next
    {
      var k :| 0 <= k < n && from[k].Some? && from[k].value != order[k] && from[k].value == name;
      assert ComesFrom(previous, next, RenamedAway(order, from, k), order[k], from[k]);
    }
  }

  lemma {:induction false} TypesReach(
    previous: NamedTypes, next: NamedTypes, order: seq<string>, from: seq<Option<string>>, n: nat,
    diff: SchemaDiff, db: Db, after: Db)
    requires NamesKnown(previous) && NamesKnown(next) && EachOnce(order, next.Keys) && |from| == |order|
    requires n <= |order| && Sourced(previous, next, order, from, n) && HoldsTypes(previous, db)
    requires
      var changes := ChangesUpTo(previous, next, order, from, n);
      Run(TypeStatements(diff.(types := changes), |changes|), db) == Some(after)
    ensures TypesProgress(previous, next, order, from, n, after)
  {
    if n > 0 {
      var k: nat := n - 1;
      assert n == k + 1;
      assert ComesFrom(previous, next, RenamedAway(order, from, k), order[k], from[k]);
      var before := ChangesUpTo(previous, next, order, from, k);
      var last := ChangesFor(previous, next, order[k], from[k]);
      TypeStatementsAppend(diff, before, last);
      var mid := RunSplit(
        TypeStatements(diff.(types := before), |before|), TypeStatements(diff.(types := last), |last|), db, after);
      TypesReach(previous, next, order, from, k, diff, db, mid);
      StayersUntaken(previous, next, order, from, k);
      TypesProgressStep(previous, next, order, from, k, diff, mid, after);
    }
  }

  /** The types' statements of a computed diff take a catalogue that holds the previous types to one that
      holds the next: created, renamed and extended, each with its variants in order. */
  lemma TypesReachNext(diff: SchemaDiff, db: Db, after: Db)
    requires TypesComputed(diff.previous, diff.next, diff.types) && HoldsTypes(TypesOf(diff.previous), db)
    requires Run(TypeStatements(diff, |diff.types|), db) == Some(after)
    ensures HoldsTypes(TypesOf(diff.next), after)
  {
    var p, q := TypesOf(diff.previous), TypesOf(diff.next);
    var order, from :| IsTypesDiff(p, q, diff.types, order, from);
    CollectedKnown(diff.previous.tables, |diff.previous.tables|);
    CollectedKnown(diff.next.tables, |diff.next.tables|);
    assert diff.(types := diff.types) == diff;
    TypesReach(p, q, order, from, |order|, diff, db, after);
    forall name | name in q
      ensures name in after.types && after.types[name] == q[name].ty.variants
    {
      assert name in order;
      var k :| 0 <= k < |order| && order[k] == name;
    }
  }

  lemma {:induction false} TablesKeepTypes(statements: seq<MigrationStatement>, db: Db)
    requires (forall i :: 0 <= i < |statements| ==> !OnTypes(statements[i])) && Run(statements, db).Some?
    ensures Run(statements, db).value.types == db.types
  {
    if statements != [] {
      var after := Exec(Serialize(statements[0]).value, db).value;
      assert !OnTypes(statements[0]);
      OneKeepsTypes(statements[0], db);
      TablesKeepTypes(statements[1..], after);
    }
  }

  lemma OneKeepsTypes(m: MigrationStatement, db: Db)
    requires !OnTypes(m) && Serialize(m).Some? && Exec(Serialize(m).value, db).Some?
    ensures Exec(Serialize(m).value, db).value.types == db.types
  {
  }

  /** So does the whole plan, on a backend that names enum types. */
  lemma PlanReachesTypes(diff: SchemaDiff, capability: Capability, start: Db, after: Db)
    requires TypesComputed(diff.previous, diff.next, diff.types) && HoldsTypes(TypesOf(diff.previous), start)
    requires capability.namedEnumTypes && Plannable(diff, capability)
    requires Run(Plan(diff, capability), start) == Some(after)
    ensures HoldsTypes(TypesOf(diff.next), after)
  {
    var renamed := RenamedTypesOf(diff.types);
    var mid := RunSplit(
      TypeStatements(diff, |diff.types|), TablesStatements(diff, |diff.tables|, capability, renamed), start, after);
    TypesReachNext(diff, start, mid);
    TablesShape(diff, |diff.tables|, capability, renamed);
    TablesKeepTypes(TablesStatements(diff, |diff.tables|, capability, renamed), mid);
  }
}
