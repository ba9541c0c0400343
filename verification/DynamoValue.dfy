/** DynamoDB attribute values: the column codec, the document codec, and how the latter agrees with
    the JSON one. */
module DynamoValue {
  import opened Wrappers
  import opened Values
  import opened JsonRoundTrip
  import Json
  import Decimal

  datatype Attr =
    | B(bytes: seq<bv8>)
    | BoolAttr(truth: bool)
    | N(number: string)
    | S(s: string)
    | NullAttr
    | L(items: seq<Attr>)
    | M(fields: map<string, Attr>)

  // ---- Encoding ----

  /** `to_ddb`; `None` where the driver has no form for the value. */
  function ToDdb(v: Value): Option<Attr>
    decreases v, 2
  {
    match v
    case Bool(b) => Some(BoolAttr(b))
    case Str(s) => Some(S(s))
    case Int(_, n) => Some(N(Decimal.OfInt(n)))
    case Bytes(bytes) => Some(B(bytes))
    case Text(_, text) => Some(S(text))
    case Null => Some(NullAttr)
    case List(items) =>
      var attrs :- ToDdbItems(items);
      Some(L(attrs))
    case Object(_) => ToDdbDocument(v)
    case Record(_) => None
  }

  function ToDdbItems(items: seq<Value>): Option<seq<Attr>>
    decreases items, 3
  {
    if items == [] then Some([])
    else
      var item :- ToDdb(items[0]);
      var rest :- ToDdbItems(items[1..]);
      Some([item] + rest)
  }

  /** `to_ddb_document`: NULL entries are left out, and a key set twice keeps its last value. */
  function ToDdbDocument(v: Value): Option<Attr>
    decreases v, 1
  {
    match v
    case Object(entries) =>
      var fields :- DocumentFields(entries);
      Some(M(fields))
    case List(items) =>
      var attrs :- DocumentItems(items);
      Some(L(attrs))
    case Bool(b) => Some(BoolAttr(b))
    case Str(s) => Some(S(s))
    case Int(_, n) => Some(N(Decimal.OfInt(n)))
    case Bytes(bytes) => Some(B(bytes))
    case Text(_, text) => Some(S(text))
    case Null => Some(NullAttr)
    case Record(_) => None
  }

  function DocumentItems(items: seq<Value>): Option<seq<Attr>>
    decreases items, 2
  {
    if items == [] then Some([])
    else
      var item :- ToDdbDocument(items[0]);
      var rest :- DocumentItems(items[1..]);
      Some([item] + rest)
  }

  function DocumentFields(entries: seq<Entry>): Option<map<string, Attr>>
    decreases entries, 2
  {
    if entries == [] then Some(map[])
    else if entries[0].value.Null? then DocumentFields(entries[1..])
    else
      var value :- ToDdbDocument(entries[0].value);
      var rest :- DocumentFields(entries[1..]);
      Some(map[entries[0].key := value] + rest)
  }

  /** The loop of `to_ddb_document`, filling the map entry by entry. */
  method FillDocument(entries: seq<Entry>) returns (r: Option<map<string, Attr>>)
    ensures r == DocumentFields(entries)
  {
    var fields: map<string, Attr> := map[];
    assert entries[0..] == entries;
    for i := 0 to |entries|
      invariant DocumentFields(entries).Some? <==> DocumentFields(entries[i..]).Some?
      invariant DocumentFields(entries).Some? ==>
        DocumentFields(entries).value == fields + DocumentFields(entries[i..]).value
    {
      assert entries[i..][0] == entries[i] && entries[i..][1..] == entries[i + 1..];
      if !entries[i].value.Null? {
        var value := ToDdbDocument(entries[i].value);
        if value.None? {
          return None;
        }
        fields := fields[entries[i].key := value.value];
      }
    }
    assert fields + map[] == fields;
    r := Some(fields);
  }

  // ---- Decoding ----

  /** A number attribute by integer fit; other numbers are floats, which are not modelled. */
  function NumberAny(text: string): Option<Value> {
    var n :- Decimal.ParseInt(text);
    if I64.InRange(n) then Some(Value.Int(I64, n))
    else if U64.InRange(n) && text[0] != '-' then Some(Value.Int(U64, n))
    else None
  }

  predicate DistinctEntryKeys(entries: seq<Entry>) {
    forall i, j :: 0 <= i < j < |entries| ==> entries[i].key != entries[j].key
  }

  function KeysOf(entries: seq<Entry>): set<string> {
    set i | 0 <= i < |entries| :: entries[i].key
  }

  /** `from_ddb_any` may give `v` for the attribute: a map's entries come in the map's own order,
      which is any order. */
  predicate DecodesAny(attr: Attr, v: Value)
    decreases v
  {
    match attr
    case B(bytes) => v == Value.Bytes(bytes)
    case BoolAttr(b) => v == Value.Bool(b)
    case N(text) => NumberAny(text) == Some(v)
    case S(s) => v == Value.Str(s)
    case NullAttr => v == Value.Null
    case L(items) =>
      v.List? && |v.items| == |items| && forall i :: 0 <= i < |items| ==> DecodesAny(items[i], v.items[i])
    case M(fields) =>
      && v.Object? && DistinctEntryKeys(v.entries) && KeysOf(v.entries) == fields.Keys
      && forall i :: 0 <= i < |v.entries| ==>
           v.entries[i].key in fields && DecodesAny(fields[v.entries[i].key], v.entries[i].value)
  }

  /** Every number in the attribute fits 64 bits. */
  predicate NoFloats(attr: Attr) {
    match attr
    case N(text) => NumberAny(text).Some?
    case L(items) => forall i :: 0 <= i < |items| ==> NoFloats(items[i])
    case M(fields) => forall key :: key in fields ==> NoFloats(fields[key])
    case _ => true
  }

  /** `from_ddb_any`, taking the entries of a map in whatever order they come; `None` where a number is
      a float. */
  method FromDdbAny(attr: Attr) returns (v: Option<Value>)
    ensures v.Some? <==> NoFloats(attr)
    ensures v.Some? ==> DecodesAny(attr, v.value)
    decreases attr, 1
  {
    match attr
    case B(bytes) => v := Some(Value.Bytes(bytes));
    case BoolAttr(b) => v := Some(Value.Bool(b));
    case N(text) => v := NumberAny(text);
    case S(s) => v := Some(Value.Str(s));
    case NullAttr => v := Some(Value.Null);
    case L(items) => v := FromDdbList(items);
    case M(fields) => v := FromDdbMap(fields);
  }

  method FromDdbList(items: seq<Attr>) returns (v: Option<Value>)
    ensures v.Some? <==> NoFloats(L(items))
    ensures v.Some? ==> DecodesAny(L(items), v.value)
    decreases items, 0
  {
    var values: seq<Value> := [];
    for i := 0 to |items|
      invariant |values| == i
      invariant forall k :: 0 <= k < i ==> NoFloats(items[k]) && DecodesAny(items[k], values[k])
    {
      var item := FromDdbAny(items[i]);
      if item.None? {
        return None;
      }
      values := values + [item.value];
    }
    v := Some(Value.List(values));
  }

  method FromDdbMap(fields: map<string, Attr>) returns (v: Option<Value>)
    ensures v.Some? <==> NoFloats(M(fields))
    ensures v.Some? ==> DecodesAny(M(fields), v.value)
    decreases M(fields), 0
  {
    var entries: seq<Entry> := [];
    var keys := fields.Keys;
    while keys != {}
      invariant keys <= fields.Keys
      invariant DistinctEntryKeys(entries) && KeysOf(entries) == fields.Keys - keys
      invariant forall key <- fields.Keys - keys :: NoFloats(fields[key])
      invariant forall k :: 0 <= k < |entries| ==>
        entries[k].key in fields && DecodesAny(fields[entries[k].key], entries[k].value)
      decreases keys
    {
      var key :| key in keys;
      var value := FromDdbAny(fields[key]);
      if value.None? {
        return None;
      }
      KeysOfSnoc(entries, Entry(key, value.value));
      entries, keys := entries + [Entry(key, value.value)], keys - {key};
    }
    v := Some(Value.Object(entries));
  }

  lemma KeysOfSnoc(entries: seq<Entry>, e: Entry)
    ensures KeysOf(entries + [e]) == KeysOf(entries) + {e.key}
    ensures DistinctEntryKeys(entries) && e.key !in KeysOf(entries) ==> DistinctEntryKeys(entries + [e])
  {
    var all := entries + [e];
    assert all[|entries|] == e;
    forall i | 0 <= i < |entries|
      ensures entries[i].key in KeysOf(entries) && entries[i].key in KeysOf(all)
    {
      assert all[i] == entries[i];
    }
  }

  /** `from_ddb` by type; `None` where the driver panics or the pair is not one it stores. */
  function FromDdb(ty: Type, attr: Attr, forms: Forms): Option<Value>
    decreases attr, 0
  {
    match (ty, attr)
    case (_, NullAttr) => Some(Value.Null)
    case (Bool, BoolAttr(b)) => Some(Value.Bool(b))
    case (Str, S(s)) => Some(Value.Str(s))
    case (Int(width), N(text)) =>
      var n :- Decimal.ParseInt(text);
      if width.InRange(n) then Some(Value.Int(width, n)) else None
    case (Bytes, B(bytes)) => Some(Value.Bytes(bytes))
    case (Text(kind), S(s)) =>
      var text :- forms(kind, s);
      Some(Value.Text(kind, text))
    case (List(elem), L(items)) =>
      var values :- FromDdbItems(elem, items, forms);
      Some(Value.List(values))
    case _ => None
  }

  function FromDdbItems(elem: Type, items: seq<Attr>, forms: Forms): Option<seq<Value>>
    decreases items, 1
  {
    if items == [] then Some([])
    else
      var item :- FromDdb(elem, items[0], forms);
      var rest :- FromDdbItems(elem, items[1..], forms);
      Some([item] + rest)
  }

  // ---- Typed round trip ----

  /** The value is one of the type's, bytes included and documents left aside. */
  predicate ColumnValue(v: Value, ty: Type)
    decreases v
  {
    match v
    case Bytes(_) => ty.Bytes?
    case List(items) => ty.List? && forall i :: 0 <= i < |items| ==> ColumnValue(items[i], ty.elem)
    case Object(_) => false
    case _ => OfType(v, ty)
  }

  lemma {:induction false} DynamoRoundTrip(v: Value, ty: Type, forms: Forms)
    requires ColumnValue(v, ty) && Ranged(v) && Canonical(forms, v)
    ensures ToDdb(v).Some? && FromDdb(ty, ToDdb(v).value, forms) == Some(v)
    decreases v, 0
  {
    match v
    case Int(_, n) => Decimal.ParseIntOfInt(n);
    case List(items) => DynamoItemsRoundTrip(items, ty.elem, forms);
    case _ =>
  }

  lemma {:induction false} DynamoItemsRoundTrip(items: seq<Value>, elem: Type, forms: Forms)
    requires forall i :: 0 <= i < |items| ==>
      ColumnValue(items[i], elem) && Ranged(items[i]) && Canonical(forms, items[i])
    ensures ToDdbItems(items).Some? && FromDdbItems(elem, ToDdbItems(items).value, forms) == Some(items)
    decreases items, 1
  {
    if items != [] {
      DynamoRoundTrip(items[0], elem, forms);
      DynamoItemsRoundTrip(items[1..], elem, forms);
      var attrs := ToDdbItems(items).value;
      assert attrs[1..] == ToDdbItems(items[1..]).value;
      assert items == [items[0]] + items[1..];
    }
  }

  // ---- Agreement with the JSON codec ----

  /** A value with the order of keys forgotten. */
  datatype Shape = Leaf(v: Value) | Items(items: seq<Shape>) | Fields(fields: map<string, Shape>)

  function ShapeOf(v: Value): Shape
    decreases v, 0
  {
    match v
    case List(items) => Items(ShapesOf(items))
    case Object(entries) => Fields(FieldShapes(entries))
    case _ => Leaf(v)
  }

  function ShapesOf(items: seq<Value>): (shapes: seq<Shape>)
    ensures |shapes| == |items|
    decreases items, 1
  {
    if items == [] then [] else [ShapeOf(items[0])] + ShapesOf(items[1..])
  }

  function FieldShapes(entries: seq<Entry>): map<string, Shape>
    decreases entries, 1
  {
    if entries == [] then map[]
    else map[entries[0].key := ShapeOf(entries[0].value)] + FieldShapes(entries[1..])
  }

  predicate DistinctKeys(v: Value) {
    match v
    case List(items) => forall i :: 0 <= i < |items| ==> DistinctKeys(items[i])
    case Object(entries) =>
      && DistinctEntryKeys(entries)
      && forall i :: 0 <= i < |entries| ==> DistinctKeys(entries[i].value)
    case _ => true
  }

  lemma {:induction false} ShapesAt(items: seq<Value>, i: nat)
    requires i < |items|
    ensures ShapesOf(items)[i] == ShapeOf(items[i])
  {
    if i > 0 {
      ShapesAt(items[1..], i - 1);
    }
  }

  lemma {:induction false} FieldShapesAre(entries: seq<Entry>)
    requires DistinctEntryKeys(entries)
    ensures FieldShapes(entries).Keys == KeysOf(entries)
    ensures forall i :: 0 <= i < |entries| ==> FieldShapes(entries)[entries[i].key] == ShapeOf(entries[i].value)
  {
    if entries != [] {
      var rest := entries[1..];
      FieldShapesAre(rest);
      assert KeysOf(entries) == {entries[0].key} + KeysOf(rest) by {
        KeysOfCons(entries[0], rest);
        assert entries == [entries[0]] + rest;
      }
      forall i | 0 <= i < |entries|
        ensures FieldShapes(entries)[entries[i].key] == ShapeOf(entries[i].value)
      {
        if i > 0 {
          assert entries[i] == rest[i - 1];
        }
      }
    }
  }

  lemma KeysOfCons(e: Entry, entries: seq<Entry>)
    ensures KeysOf([e] + entries) == {e.key} + KeysOf(entries)
  {
    var all := [e] + entries;
    assert all[0] == e;
    forall i | 0 <= i < |entries|
      ensures entries[i].key in KeysOf(all)
    {
      assert all[i + 1] == entries[i];
    }
  }

  /** The fields of a document are its non-NULL entries. */
  lemma {:induction false} DocumentFieldsAre(entries: seq<Entry>)
    requires DistinctEntryKeys(entries) && DocumentFields(entries).Some?
    ensures
      var fields := DocumentFields(entries).value;
      && (forall i :: 0 <= i < |entries| && !entries[i].value.Null? ==>
            entries[i].key in fields && Some(fields[entries[i].key]) == ToDdbDocument(entries[i].value))
      && (forall key <- fields :: exists i :: 0 <= i < |entries| && !entries[i].value.Null? && entries[i].key == key)
  {
    if entries != [] {
      var rest := entries[1..];
      DocumentFieldsAre(rest);
      var fields := DocumentFields(entries).value;
      forall i | 0 <= i < |entries| && !entries[i].value.Null?
        ensures entries[i].key in fields && Some(fields[entries[i].key]) == ToDdbDocument(entries[i].value)
      {
        if i > 0 {
          assert entries[i] == rest[i - 1];
        }
      }
      forall key | key in fields
        ensures exists i :: 0 <= i < |entries| && !entries[i].value.Null? && entries[i].key == key
      {
        if key in DocumentFields(rest).value {
          var i :| 0 <= i < |rest| && !rest[i].value.Null? && rest[i].key == key;
          assert entries[i + 1] == rest[i];
        } else {
          assert entries[0].key == key;
        }
      }
    }
  }

  /** So are the entries of its normal form. */
  lemma {:induction false} NormalEntriesAre(entries: seq<Entry>)
    requires DistinctEntryKeys(entries)
    ensures
      var normal := NormalEntries(entries);
      && DistinctEntryKeys(normal)
      && (forall i :: 0 <= i < |entries| && !entries[i].value.Null? ==>
            Entry(entries[i].key, Normal(entries[i].value)) in normal)
      && (forall e <- normal ::
            exists i :: 0 <= i < |entries| && !entries[i].value.Null?
                        && e == Entry(entries[i].key, Normal(entries[i].value)))
  {
    if entries != [] {
      var rest, normal := entries[1..], NormalEntries(entries);
      NormalEntriesAre(rest);
      forall i | 0 <= i < |entries| && !entries[i].value.Null?
        ensures Entry(entries[i].key, Normal(entries[i].value)) in normal
      {
        if i > 0 {
          assert entries[i] == rest[i - 1];
        }
      }
      forall e | e in NormalEntries(rest)
        ensures e.key != entries[0].key
        ensures exists i :: 0 <= i < |entries| && !entries[i].value.Null?
                  && e == Entry(entries[i].key, Normal(entries[i].value))
      {
        var i :| 0 <= i < |rest| && !rest[i].value.Null? && e == Entry(rest[i].key, Normal(rest[i].value));
        assert entries[i + 1] == rest[i];
      }
      forall j | 0 <= j < |NormalEntries(rest)|
        ensures NormalEntries(rest)[j].key != entries[0].key
      {
        assert NormalEntries(rest)[j] in NormalEntries(rest);
      }
    }
  }

  /** Whatever `from_ddb_any` makes of a stored document, it is the document's normal form up to the
      order of keys. */
  lemma {:induction false} DocumentAgrees(v: Value, attr: Attr, w: Value)
    requires Encodable(v) && Ranged(v) && DistinctKeys(v)
    requires ToDdbDocument(v) == Some(attr) && DecodesAny(attr, w)
    ensures ShapeOf(w) == ShapeOf(Normal(v))
    decreases v, 0
  {
    match v
    case List(items) => ItemsAgree(v, attr, w);
    case Object(entries) => FieldsAgree(v, attr, w);
    case _ => ScalarAgrees(v, attr, w);
  }

  lemma ScalarAgrees(v: Value, attr: Attr, w: Value)
    requires !v.List? && !v.Object? && Encodable(v) && Ranged(v)
    requires ToDdbDocument(v) == Some(attr) && DecodesAny(attr, w)
    ensures w == Normal(v)
  {
    if v.Int? {
      Decimal.ParseIntOfInt(v.n);
      assert v.n >= 0 ==> Decimal.IsDigit(Decimal.OfInt(v.n)[0]);
    }
  }

  lemma ItemsAgree(v: Value, attr: Attr, w: Value)
    requires v.List? && Encodable(v) && Ranged(v) && DistinctKeys(v)
    requires ToDdbDocument(v) == Some(attr) && DecodesAny(attr, w)
    ensures ShapeOf(w) == ShapeOf(Normal(v))
    decreases v, 0, 0
  {
    DocumentItemsAt(v.items);
    forall i | 0 <= i < |v.items|
      ensures ShapesOf(w.items)[i] == ShapesOf(NormalItems(v.items))[i]
    {
      DocumentAgrees(v.items[i], attr.items[i], w.items[i]);
      ShapesAt(w.items, i);
      ShapesAt(NormalItems(v.items), i);
      NormalItemsAt(v.items, i);
    }
  }

  lemma FieldsAgree(v: Value, attr: Attr, w: Value)
    requires v.Object? && Encodable(v) && Ranged(v) && DistinctKeys(v)
    requires ToDdbDocument(v) == Some(attr) && DecodesAny(attr, w)
    ensures ShapeOf(w) == ShapeOf(Normal(v))
    decreases v, 0, 1
  {
    NormalKeysStored(v.entries, attr.fields);
    forall key | key in attr.fields
      ensures SameField(w.entries, NormalEntries(v.entries), key)
    {
      FieldAgrees(v, attr, w, key);
    }
    SameFields(w.entries, NormalEntries(v.entries), attr.fields.Keys);
  }

  /** Both lists give `key` the same shape. */
  predicate SameField(a: seq<Entry>, b: seq<Entry>, key: string) {
    && key in FieldShapes(a) && key in FieldShapes(b)
    && FieldShapes(a)[key] == FieldShapes(b)[key]
  }

  lemma SameFields(a: seq<Entry>, b: seq<Entry>, keys: set<string>)
    requires DistinctEntryKeys(a) && DistinctEntryKeys(b) && KeysOf(a) <= keys && KeysOf(b) <= keys
    requires forall key <- keys :: SameField(a, b, key)
    ensures FieldShapes(a) == FieldShapes(b)
  {
    FieldShapesAre(a);
    FieldShapesAre(b);
  }

  lemma NormalKeysStored(entries: seq<Entry>, fields: map<string, Attr>)
    requires DistinctEntryKeys(entries) && DocumentFields(entries) == Some(fields)
    ensures DistinctEntryKeys(NormalEntries(entries)) && KeysOf(NormalEntries(entries)) <= fields.Keys
  {
    DocumentFieldsAre(entries);
    NormalEntriesAre(entries);
    var normal := NormalEntries(entries);
    forall j | 0 <= j < |normal|
      ensures normal[j].key in fields
    {
      assert normal[j] in normal;
    }
  }

  lemma FieldAgrees(v: Value, attr: Attr, w: Value, key: string)
    requires v.Object? && Encodable(v) && Ranged(v) && DistinctKeys(v)
    requires ToDdbDocument(v) == Some(attr) && DecodesAny(attr, w) && key in attr.fields
    ensures SameField(w.entries, NormalEntries(v.entries), key)
    decreases v, 0, 0
  {
    var entries, normal := v.entries, NormalEntries(v.entries);
    DocumentFieldsAre(entries);
    NormalEntriesAre(entries);
    FieldShapesAre(w.entries);
    FieldShapesAre(normal);
    var i :| 0 <= i < |entries| && !entries[i].value.Null? && entries[i].key == key;
    var a :| 0 <= a < |w.entries| && w.entries[a].key == key;
    var e := Entry(key, Normal(entries[i].value));
    var j :| 0 <= j < |normal| && normal[j] == e;
    DocumentAgrees(entries[i].value, attr.fields[key], w.entries[a].value);
  }

  lemma {:induction false} DocumentItemsAt(items: seq<Value>)
    requires DocumentItems(items).Some?
    ensures |DocumentItems(items).value| == |items|
    ensures forall i :: 0 <= i < |items| ==> ToDdbDocument(items[i]) == Some(DocumentItems(items).value[i])
  {
    if items != [] {
      DocumentItemsAt(items[1..]);
    }
  }

  lemma {:induction false} NormalItemsAt(items: seq<Value>, i: nat)
    requires i < |items|
    ensures NormalItems(items)[i] == Normal(items[i])
  {
    if i > 0 {
      NormalItemsAt(items[1..], i - 1);
    }
  }

  /** What a document is stored as has no floats: its decoder is defined on it. */
  lemma {:induction false} StoredHasNoFloats(v: Value)
    requires Encodable(v) && Ranged(v)
    ensures ToDdbDocument(v).Some? && NoFloats(ToDdbDocument(v).value)
    decreases v, 0
  {
    match v
    case Int(_, n) =>
      Decimal.ParseIntOfInt(n);
      assert n >= 0 ==> Decimal.IsDigit(Decimal.OfInt(n)[0]);
    case List(items) => StoredItemsHaveNoFloats(items);
    case Object(entries) => StoredFieldsHaveNoFloats(entries);
    case _ =>
  }

  lemma {:induction false} StoredItemsHaveNoFloats(items: seq<Value>)
    requires forall i :: 0 <= i < |items| ==> Encodable(items[i]) && Ranged(items[i])
    ensures DocumentItems(items).Some?
    ensures forall i :: 0 <= i < |DocumentItems(items).value| ==> NoFloats(DocumentItems(items).value[i])
    decreases items, 1
  {
    if items != [] {
      StoredHasNoFloats(items[0]);
      StoredItemsHaveNoFloats(items[1..]);
    }
  }

  lemma {:induction false} StoredFieldsHaveNoFloats(entries: seq<Entry>)
    requires forall i :: 0 <= i < |entries| ==> Encodable(entries[i].value) && Ranged(entries[i].value)
    ensures DocumentFields(entries).Some?
    ensures forall key <- DocumentFields(entries).value :: NoFloats(DocumentFields(entries).value[key])
    decreases entries, 1
  {
    if entries != [] {
      StoredHasNoFloats(entries[0].value);
      StoredFieldsHaveNoFloats(entries[1..]);
    }
  }

  /** Both backends store every document, and their decoders give the same wire value for it, up to
      the order of keys. */
  lemma CodecsAgree(v: Value, w: Value, forms: Forms)
    requires v.Object? && Encodable(v) && Ranged(v) && DistinctKeys(v)
    ensures ToDdb(v).Some? && NoFloats(ToDdb(v).value) && Json.Encode(v).Some?
    ensures Json.FromStr(Json.Encode(v).value, Type.Object, forms).Some?
    ensures DecodesAny(ToDdb(v).value, w) ==>
      ShapeOf(w) == ShapeOf(Json.FromStr(Json.Encode(v).value, Type.Object, forms).value)
  {
    StoredHasNoFloats(v);
    DocumentRoundTrip(v, forms);
    if DecodesAny(ToDdb(v).value, w) {
      DocumentAgrees(v, ToDdb(v).value, w);
    }
  }
}
