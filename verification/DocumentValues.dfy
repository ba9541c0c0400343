/** The values of document columns: which columns hold only values that encode, and how far the
    schema check guarantees it. */
module DocumentValues {
  import opened Wrappers
  import opened Values
  import opened DocumentCheck
  import Json
  import JsonRoundTrip

  // ---- Values ----

  /** The values a column of the type holds: objects for embedded structs, records for the models that
      have no document form. */
  predicate ValueOf(app: App, ty: Ty, v: Value)
    decreases v, 1
  {
    v.Null? ||
    match ty
    case Scalar(t) => JsonRoundTrip.OfType(v, t)
    case Zoned => v.Text?
    case Blob => v.Bytes?
    case Many(elem) => v.List? && forall i :: 0 <= i < |v.items| ==> ValueOf(app, elem, v.items[i])
    case Model(id) =>
      id < |app| &&
      if !app[id].EmbeddedStruct? then v.Record?
      else
        && v.Object? && |v.entries| == |app[id].fields|
        && forall i :: 0 <= i < |v.entries| ==> FieldValue(app, app[id].fields[i], v.entries[i])
  }

  predicate FieldValue(app: App, f: Field, e: Entry)
    decreases e.value, 2
  {
    && (f.name.Some? ==> e.key == f.name.value)
    && match f.ty {
      case Primitive(ty) => ValueOf(app, ty, e.value)
      case Embedded(target) => ValueOf(app, Model(target), e.value)
      case Relation => e.value.Null?
    }
  }

  // ---- Types whose values all encode ----

  function CoreRank(rank: seq<nat>, ty: Ty): nat {
    match Core(ty)
    case None => 0
    case Some(id) => if id < |rank| then rank[id] + 1 else 0
  }

  /** No bytes, and no model without a document form, however deep. */
  predicate SafeTy(app: App, rank: seq<nat>, ty: Ty)
    requires Ranked(app, rank)
    decreases CoreRank(rank, ty), ty, 1
  {
    match ty
    case Blob => false
    case Many(elem) => SafeTy(app, rank, elem)
    case Model(id) =>
      id >= |app| || (
        && app[id].EmbeddedStruct?
        && forall i :: 0 <= i < |app[id].fields| ==> SafeField(app, rank, id, i))
    case _ => true
  }

  predicate SafeField(app: App, rank: seq<nat>, id: nat, i: nat)
    requires Ranked(app, rank) && id < |app| && app[id].EmbeddedStruct? && i < |app[id].fields|
    decreases rank[id] + 1, Model(id), 0
  {
    var f := app[id].fields[i];
    assert RanksBelow(rank, Stored(f), id);
    match f.ty
    case Primitive(ty) => SafeTy(app, rank, ty)
    case Embedded(target) => SafeTy(app, rank, Model(target))
    case Relation => true
  }

  lemma {:induction false} OfTypeEncodes(v: Value, ty: Type)
    requires JsonRoundTrip.OfType(v, ty)
    ensures JsonRoundTrip.Encodable(v)
  {
    if v.List? {
      forall i | 0 <= i < |v.items|
        ensures JsonRoundTrip.Encodable(v.items[i])
      {
        OfTypeEncodes(v.items[i], ty.elem);
      }
    }
  }

  lemma {:induction false} SafeEncodes(app: App, rank: seq<nat>, ty: Ty, v: Value)
    requires Ranked(app, rank) && SafeTy(app, rank, ty) && ValueOf(app, ty, v)
    ensures JsonRoundTrip.Encodable(v)
    decreases v, 1
  {
    if v.Null? {
    } else if ty.Scalar? {
      OfTypeEncodes(v, ty.ty);
    } else if ty.Many? {
      forall i | 0 <= i < |v.items|
        ensures JsonRoundTrip.Encodable(v.items[i])
      {
        SafeEncodes(app, rank, ty.elem, v.items[i]);
      }
    } else if ty.Model? {
      forall i | 0 <= i < |v.entries|
        ensures JsonRoundTrip.Encodable(v.entries[i].value)
      {
        assert SafeField(app, rank, ty.id, i);
        SafeFieldEncodes(app, rank, ty.id, i, v.entries[i]);
      }
    }
  }

  lemma {:induction false} SafeFieldEncodes(app: App, rank: seq<nat>, id: nat, i: nat, e: Entry)
    requires Ranked(app, rank) && id < |app| && app[id].EmbeddedStruct? && i < |app[id].fields|
    requires SafeField(app, rank, id, i) && FieldValue(app, app[id].fields[i], e)
    ensures JsonRoundTrip.Encodable(e.value)
    decreases e.value, 2
  {
    match app[id].fields[i].ty
    case Primitive(ty) => SafeEncodes(app, rank, ty, e.value);
    case Embedded(target) => SafeEncodes(app, rank, Model(target), e.value);
    case Relation =>
  }

  /** A value of an unsafe type that does not encode. */
  lemma {:induction false} UnsafeValue(app: App, rank: seq<nat>, ty: Ty) returns (v: Value)
    requires Ranked(app, rank) && !SafeTy(app, rank, ty)
    ensures ValueOf(app, ty, v) && !JsonRoundTrip.Encodable(v)
    decreases CoreRank(rank, ty), ty, 1
  {
    match ty
    case Blob => v := Value.Bytes([]);
    case Many(elem) =>
      var w := UnsafeValue(app, rank, elem);
      v := Value.List([w]);
      assert !JsonRoundTrip.Encodable(v.items[0]);
    case Model(id) =>
      if !app[id].EmbeddedStruct? {
        v := Value.Record([]);
      } else {
        var i :| 0 <= i < |app[id].fields| && !SafeField(app, rank, id, i);
        v := UnsafeObject(app, rank, id, i);
      }
  }

  /** All fields NULL but the unsafe one. */
  lemma {:induction false} UnsafeObject(app: App, rank: seq<nat>, id: nat, i: nat) returns (v: Value)
    requires Ranked(app, rank) && id < |app| && app[id].EmbeddedStruct? && i < |app[id].fields|
    requires !SafeField(app, rank, id, i)
    ensures ValueOf(app, Model(id), v) && !JsonRoundTrip.Encodable(v)
    decreases rank[id] + 1, Model(id), 0
  {
    var fields := app[id].fields;
    var f := fields[i];
    assert RanksBelow(rank, Stored(f), id);
    var w: Value;
    match f.ty {
      case Primitive(ty) => w := UnsafeValue(app, rank, ty);
      case Embedded(target) => w := UnsafeValue(app, rank, Model(target));
    }
    var entries := seq(|fields|, k requires 0 <= k < |fields| => Entry(KeyOf(fields[k]), if k == i then w else Null));
    v := Value.Object(entries);
    assert entries[i].value == w;
    assert !JsonRoundTrip.Encodable(v.entries[i].value);
    forall k | 0 <= k < |entries|
      ensures FieldValue(app, fields[k], entries[k])
    {
    }
  }

  function KeyOf(f: Field): string {
    if f.name.Some? then f.name.value else ""
  }

  /** Every value of a column encodes exactly when no bytes and no model without a document form are
      found in its type, looking through every list. */
  lemma EncodesExactly(app: App, rank: seq<nat>, ty: Ty)
    requires Ranked(app, rank)
    ensures (forall v | ValueOf(app, ty, v) :: Json.Encode(v).Some?) <==> SafeTy(app, rank, ty)
  {
    if SafeTy(app, rank, ty) {
      forall v | ValueOf(app, ty, v)
        ensures Json.Encode(v).Some?
      {
        SafeEncodes(app, rank, ty, v);
        JsonRoundTrip.EncodeFailsExactly(v);
      }
    } else {
      var v := UnsafeValue(app, rank, ty);
      JsonRoundTrip.EncodeFailsExactly(v);
      assert ValueOf(app, ty, v) && Json.Encode(v).None?;
    }
  }

  // ---- What acceptance gives ----

  /** No embed stands in more than one list, where the check would not see it. */
  predicate NoDeepEmbeds(app: App) {
    forall id, i ::
      0 <= id < |app| && app[id].EmbeddedStruct? && 0 <= i < |app[id].fields| ==> Shallow(app[id].fields[i])
  }

  predicate Shallow(f: Field) {
    f.ty.Primitive? ==> Core(f.ty.ty) == EmbedId(f.ty.ty)
  }

  lemma {:induction false} LeafSafe(app: App, rank: seq<nat>, ty: Ty)
    requires Ranked(app, rank) && Core(ty) == None && !HasUnsupportedLeaf(ty)
    ensures SafeTy(app, rank, ty)
  {
    if ty.Many? {
      LeafSafe(app, rank, ty.elem);
    }
  }

  /** The embeds the check does not see in the fields of `id`, behind two lists or more, encode. */
  predicate DeepSafe(app: App, rank: seq<nat>, id: nat)
    requires Ranked(app, rank)
  {
    id < |app| && app[id].EmbeddedStruct? ==>
      forall i :: 0 <= i < |app[id].fields| && !Shallow(app[id].fields[i]) ==>
        SafeTy(app, rank, app[id].fields[i].ty.ty)
  }

  /** So they do wherever the check comes to from `id`. */
  ghost predicate DeepSafeFrom(app: App, rank: seq<nat>, id: nat)
    requires Ranked(app, rank)
  {
    forall path | Path(app, path) && path[0] == id :: DeepSafe(app, rank, path[|path| - 1])
  }

  lemma DeepSafeNested(app: App, rank: seq<nat>, a: nat, b: nat)
    requires Ranked(app, rank) && DeepSafeFrom(app, rank, a) && NestsIn(app, a, b)
    ensures DeepSafeFrom(app, rank, b)
  {
    forall path | Path(app, path) && path[0] == b
      ensures DeepSafe(app, rank, path[|path| - 1])
    {
      var longer := [a] + path;
      forall k | 0 < k < |longer|
        ensures NestsIn(app, longer[k - 1], longer[k])
      {
        if k > 1 {
          assert NestsIn(app, path[k - 2], path[k - 1]);
        }
      }
      assert Path(app, longer) && longer[0] == a;
      assert longer[|longer| - 1] == path[|path| - 1];
    }
  }

  lemma {:induction false} AcceptedEmbedSafe(app: App, rank: seq<nat>, id: nat)
    requires Ranked(app, rank) && DeepSafeFrom(app, rank, id) && VerifyEmbed(app, rank, id).Accepted?
    ensures SafeTy(app, rank, Model(id))
    decreases RankOf(rank, id), 1
  {
    FieldsAccepted(app, rank, id, |app[id].fields|);
    forall i | 0 <= i < |app[id].fields|
      ensures SafeField(app, rank, id, i)
    {
      assert FieldOk(app, rank, id, i);
      AcceptedFieldSafe(app, rank, id, i);
    }
  }

  lemma {:induction false} AcceptedFieldSafe(app: App, rank: seq<nat>, id: nat, i: nat)
    requires Ranked(app, rank) && DeepSafeFrom(app, rank, id) && id < |app| && app[id].EmbeddedStruct?
    requires i < |app[id].fields| && FieldOk(app, rank, id, i)
    ensures SafeField(app, rank, id, i)
    decreases RankOf(rank, id), 0
  {
    var f := app[id].fields[i];
    FieldAccepted(app, rank, id, i);
    assert RanksBelow(rank, Stored(f), id);
    if Nested(f).Some? {
      assert NestsIn(app, id, Nested(f).value);
      DeepSafeNested(app, rank, id, Nested(f).value);
      AcceptedEmbedSafe(app, rank, Nested(f).value);
      NestedSafe(app, rank, f);
    } else if f.ty.Primitive? {
      if Shallow(f) {
        LeafSafe(app, rank, f.ty.ty);
      } else {
        assert Path(app, [id]);
        assert DeepSafe(app, rank, id);
      }
    }
  }

  /** A field is as safe as the embed the check sees in it. */
  lemma NestedSafe(app: App, rank: seq<nat>, f: Field)
    requires Ranked(app, rank) && Nested(f).Some?
    ensures f.ty.Primitive? ==> (SafeTy(app, rank, f.ty.ty) <==> SafeTy(app, rank, Model(Nested(f).value)))
  {
    if f.ty.Primitive? && f.ty.ty.Many? {
      assert f.ty.ty.elem == Model(Nested(f).value);
    }
  }

  lemma SafeNests(app: App, rank: seq<nat>, a: nat, b: nat)
    requires Ranked(app, rank) && SafeTy(app, rank, Model(a)) && NestsIn(app, a, b)
    ensures SafeTy(app, rank, Model(b))
  {
    var i :| 0 <= i < |app[a].fields| && Nested(app[a].fields[i]) == Some(b);
    assert SafeField(app, rank, a, i);
    NestedSafe(app, rank, app[a].fields[i]);
  }

  lemma {:induction false} SafeAlong(app: App, rank: seq<nat>, path: seq<nat>, k: nat)
    requires Ranked(app, rank) && Path(app, path) && SafeTy(app, rank, Model(path[0])) && k < |path|
    ensures SafeTy(app, rank, Model(path[k]))
  {
    if k > 0 {
      SafeAlong(app, rank, path, k - 1);
      assert NestsIn(app, path[k - 1], path[k]);
      SafeNests(app, rank, path[k - 1], path[k]);
    }
  }

  lemma SafeIsDeepSafe(app: App, rank: seq<nat>, id: nat)
    requires Ranked(app, rank) && SafeTy(app, rank, Model(id))
    ensures DeepSafeFrom(app, rank, id)
  {
    forall path | Path(app, path) && path[0] == id
      ensures DeepSafe(app, rank, path[|path| - 1])
    {
      var last := path[|path| - 1];
      SafeAlong(app, rank, path, |path| - 1);
      if last < |app| && app[last].EmbeddedStruct? {
        forall i | 0 <= i < |app[last].fields| && !Shallow(app[last].fields[i])
          ensures SafeTy(app, rank, app[last].fields[i].ty.ty)
        {
          assert SafeField(app, rank, last, i);
        }
      }
    }
  }

  /** Without embeds in more than one list there is nothing the check does not see. */
  lemma NothingDeep(app: App, rank: seq<nat>, id: nat)
    requires Ranked(app, rank) && NoDeepEmbeds(app)
    ensures DeepSafeFrom(app, rank, id)
  {
    forall path | Path(app, path) && path[0] == id
      ensures DeepSafe(app, rank, path[|path| - 1])
    {
    }
  }

  lemma ColumnAccepted(app: App, rank: seq<nat>, m: nat, i: nat)
    requires Ranked(app, rank) && VerifyModels(app, rank, |app|).Accepted?
    requires m < |app| && !app[m].EmbeddedEnum? && i < |app[m].fields|
    ensures VerifyColumn(app, rank, app[m].fields[i]).Accepted?
  {
    ModelsAccepted(app, rank, |app|);
  }

  /** In an accepted schema every value of a document column encodes if and only if the embeds behind two
      lists or more, wherever the check comes to from the column, encode themselves; so always where there
      are none. */
  lemma AcceptedEncodes(app: App, rank: seq<nat>, m: nat, i: nat)
    requires Ranked(app, rank) && VerifyModels(app, rank, |app|).Accepted?
    requires m < |app| && !app[m].EmbeddedEnum? && i < |app[m].fields|
    requires app[m].fields[i].ty.Primitive? && EmbedId(app[m].fields[i].ty.ty).Some?
    ensures (forall v | ValueOf(app, app[m].fields[i].ty.ty, v) :: Json.Encode(v).Some?)
       <==> DeepSafeFrom(app, rank, EmbedId(app[m].fields[i].ty.ty).value)
    ensures NoDeepEmbeds(app) ==> DeepSafeFrom(app, rank, EmbedId(app[m].fields[i].ty.ty).value)
  {
    var f := app[m].fields[i];
    var id := EmbedId(f.ty.ty).value;
    ColumnAccepted(app, rank, m, i);
    NestedSafe(app, rank, f);
    EncodesExactly(app, rank, f.ty.ty);
    if DeepSafeFrom(app, rank, id) {
      AcceptedEmbedSafe(app, rank, id);
    }
    if SafeTy(app, rank, Model(id)) {
      SafeIsDeepSafe(app, rank, id);
    }
    if NoDeepEmbeds(app) {
      NothingDeep(app, rank, id);
    }
  }

  /** An embed behind two lists is accepted unseen, bytes and all, and its values do not encode. */
  lemma DeepEmbedSlips()
    ensures
      var blob := EmbeddedStruct([Field(Some("data"), None, Primitive(Blob))]);
      var holder := EmbeddedStruct([Field(Some("grid"), None, Primitive(Many(Many(Model(2)))))]);
      var app := [Root([Field(Some("doc"), None, Primitive(Model(1)))]), holder, blob];
      var rank := [2, 1, 0];
      && Ranked(app, rank) && VerifyModels(app, rank, |app|) == Accepted
      && exists v :: ValueOf(app, Model(1), v) && Json.Encode(v).None?
  {
    var blob := EmbeddedStruct([Field(Some("data"), None, Primitive(Blob))]);
    var holder := EmbeddedStruct([Field(Some("grid"), None, Primitive(Many(Many(Model(2)))))]);
    var app := [Root([Field(Some("doc"), None, Primitive(Model(1)))]), holder, blob];
    var rank := [2, 1, 0];
    assert Core(Many(Many(Model(2)))) == Some(2);
    assert Ranked(app, rank);
    assert EmbedId(Many(Many(Model(2)))) == None && !HasUnsupportedLeaf(Many(Many(Model(2))));
    assert VerifyField(app, rank, 1, 0) == Accepted;
    assert VerifyEmbed(app, rank, 1) == Accepted;
    assert VerifyColumns(app, rank, app[0].fields, 1) == Accepted;
    assert VerifyColumns(app, rank, app[1].fields, 1) == Accepted;
    assert VerifyColumns(app, rank, app[2].fields, 1) == Accepted;
    assert VerifyModels(app, rank, 1) == Accepted;
    assert VerifyModels(app, rank, 2) == Accepted;
    assert VerifyModels(app, rank, 3) == Accepted;
    assert !SafeField(app, rank, 2, 0);
    assert !SafeTy(app, rank, Many(Many(Model(2)))) by { assert !SafeTy(app, rank, Many(Model(2))); }
    assert !SafeField(app, rank, 1, 0);
    EncodesExactly(app, rank, Model(1));
  }
}
