/** Printing and parsing undo each other: by type exactly, by shape up to a normal form. */
module JsonRoundTrip {
  import opened Wrappers
  import opened Values
  import opened Json
  import Decimal

  // ---- What encodes, and to what it decodes ----

  /** No shape JSON cannot represent, apart from NULL entries, whose values are never looked at. */
  predicate Encodable(v: Value) {
    match v
    case Bytes(_) => false
    case Record(_) => false
    case List(items) => forall i :: 0 <= i < |items| ==> Encodable(items[i])
    case Object(entries) => forall i :: 0 <= i < |entries| ==> Encodable(entries[i].value)
    case _ => true
  }

  /** The value is one of the type's, or NULL; at `Object` any encodable object. */
  predicate OfType(v: Value, ty: Type)
    decreases v
  {
    match v
    case Null => true
    case Bool(_) => ty.Bool?
    case Int(width, _) => ty == Type.Int(width)
    case Str(_) => ty.Str?
    case Text(kind, _) => ty == Type.Text(kind)
    case List(items) => ty.List? && forall i :: 0 <= i < |items| ==> OfType(items[i], ty.elem)
    case Object(_) => ty.Object? && Encodable(v)
    case Bytes(_) => false
    case Record(_) => false
  }

  predicate Expected(m: Mode, v: Value) {
    match m
    case Any => Encodable(v)
    case Typed(ty, forms) => OfType(v, ty) && Canonical(forms, v)
  }

  /** The wire form of a value: NULL entries dropped, list NULLs kept, integers I64 where they fit
      and U64 otherwise, text scalars as strings, keys in order. */
  function Normal(v: Value): Value
    decreases v, 0
  {
    match v
    case Int(_, n) => Value.Int(if I64.InRange(n) then I64 else U64, n)
    case Text(_, text) => Value.Str(text)
    case List(items) => Value.List(NormalItems(items))
    case Object(entries) => Value.Object(NormalEntries(entries))
    case _ => v
  }

  function NormalItems(items: seq<Value>): (normal: seq<Value>)
    ensures |normal| == |items|
    decreases items, 1
  {
    if items == [] then [] else [Normal(items[0])] + NormalItems(items[1..])
  }

  function NormalEntries(entries: seq<Entry>): seq<Entry>
    decreases entries, 1
  {
    if entries == [] then []
    else
      (if entries[0].value.Null? then [] else [Entry(entries[0].key, Normal(entries[0].value))])
      + NormalEntries(entries[1..])
  }

  /** What decoding in a mode makes of an encoded value. */
  function Canon(m: Mode, v: Value): Value
    decreases v, 2
  {
    match m
    case Any => Normal(v)
    case Typed(ty, forms) =>
      match v
      case List(items) => if ty.List? then Value.List(CanonItems(Typed(ty.elem, forms), items)) else v
      case Object(_) => Normal(v)
      case _ => v
  }

  function CanonItems(m: Mode, items: seq<Value>): seq<Value>
    decreases items, 3
  {
    if items == [] then [] else [Canon(m, items[0])] + CanonItems(m, items[1..])
  }

  // ---- Numbers ----

  lemma {:induction false} NumberTextOf(text: string, rest: seq<Token>)
    requires rest == [] || !rest[0].NumChar?
    ensures NumberText(NumTokens(text) + rest) == text
  {
    var ts := NumTokens(text) + rest;
    if text == "" {
      assert ts == rest;
    } else {
      NumberTextOf(text[1..], rest);
      assert ts[1..] == NumTokens(text[1..]) + rest;
      assert text == [text[0]] + text[1..];
    }
  }

  lemma ReadNumberOfInt(n: int)
    ensures ReadNumber(Decimal.OfInt(n)) == Some(n)
  {
    if n < 0 {
      Decimal.ToNatOfNat(-n);
      assert Decimal.OfInt(n)[1..] == Decimal.OfNat(-n);
    } else {
      Decimal.ToNatOfNat(n);
    }
  }

  // ---- Decoding what was encoded ----

  lemma EncodeStarts(v: Value)
    requires Encode(v).Some?
    ensures Encode(v).value != []
    ensures var head := Encode(v).value[0]; head != RBracket && head != RBrace && head != Comma
  {
    if v.Int? {
      assert NumTokens(Decimal.OfInt(v.n))[0].NumChar?;
    }
  }

  /** The tokens after an element: not a continuation of a number. */
  predicate Ends(rest: seq<Token>) {
    rest == [] || !rest[0].NumChar?
  }

  /** Concatenations regrouped the way the parser takes them apart. */
  lemma Regroup(a: seq<Token>, b: seq<Token>, c: seq<Token>, d: seq<Token>, e: seq<Token>)
    ensures (a + b + c) + d + e == a + (b + (c + d + e))
    ensures b == [] ==> (a + c) + d + e == a + (c + d + e)
  {
    if b == [] {
      assert (a + c) + d + e == a + (c + d + e);
    }
  }

  lemma DecodeNumber(m: Mode, n: int, rest: seq<Token>)
    requires Ends(rest)
    ensures Decode(m, NumTokens(Decimal.OfInt(n)) + rest)
         == if IntValue(m, n).Some? then Some((IntValue(m, n).value, rest)) else None
  {
    var text := Decimal.OfInt(n);
    var ts := NumTokens(text) + rest;
    NumberTextOf(text, rest);
    ReadNumberOfInt(n);
    assert ts[0] == NumChar(text[0]) && ts[|text|..] == rest;
  }

  lemma DecodeArray(m: Mode, elem: Mode, inner: seq<Token>, items: seq<Value>, rest: seq<Token>)
    requires ElementMode(m) == Some(elem) && ReadItems(elem, inner, true) == Some((items, rest))
    ensures Decode(m, [LBracket] + inner) == Some((Value.List(items), rest))
  {
    assert ([LBracket] + inner)[1..] == inner;
  }

  lemma DecodeObject(m: Mode, inner: seq<Token>, entries: seq<Entry>, rest: seq<Token>)
    requires (m.Any? || m.ty.Object?) && ReadEntries(inner, true) == Some((entries, rest))
    ensures Decode(m, [LBrace] + inner) == Some((Value.Object(entries), rest))
  {
    assert ([LBrace] + inner)[1..] == inner;
  }

  /** What a single-token value is in a mode. */
  function OneTokenValue(m: Mode, t: Token): Option<Value> {
    match t
    case NullWord => Some(Value.Null)
    case BoolWord(b) => if m.Any? || m.ty.Bool? then Some(Value.Bool(b)) else None
    case StrLit(s) => StrValue(m, s)
    case _ => None
  }

  lemma DecodeOne(m: Mode, t: Token, rest: seq<Token>)
    requires OneTokenValue(m, t).Some?
    ensures Decode(m, [t] + rest) == Some((OneTokenValue(m, t).value, rest))
  {
    assert ([t] + rest)[1..] == rest;
  }

  /** A value the mode expects decodes from its encoding to its canonical form, whatever follows. */
  lemma {:induction false} DecodeEncode(m: Mode, v: Value, rest: seq<Token>)
    requires Expected(m, v) && Ranged(v) && Ends(rest)
    ensures Encode(v).Some?
    ensures Decode(m, Encode(v).value + rest) == Some((Canon(m, v), rest))
    decreases v, 1
  {
    match v
    case Int(_, n) => DecodeNumber(m, n, rest);
    case List(_) => DecodeListEncoded(m, v, rest);
    case Object(_) => DecodeObjectEncoded(m, v, rest);
    case _ => DecodeScalar(m, v, rest);
  }

  lemma DecodeScalar(m: Mode, v: Value, rest: seq<Token>)
    requires Expected(m, v) && (v.Null? || v.Bool? || v.Str? || v.Text?)
    ensures Encode(v).Some?
    ensures Decode(m, Encode(v).value + rest) == Some((Canon(m, v), rest))
  {
    DecodeOne(m, Encode(v).value[0], rest);
  }

  lemma {:induction false} DecodeListEncoded(m: Mode, v: Value, rest: seq<Token>)
    requires v.List? && Expected(m, v) && Ranged(v) && Ends(rest)
    ensures Encode(v).Some?
    ensures Decode(m, Encode(v).value + rest) == Some((Canon(m, v), rest))
    decreases v, 0
  {
    var elem := if m.Any? then Any else Typed(m.ty.elem, m.forms);
    ReadItemsEncoded(elem, v.items, true, rest);
    BracketedDecodes(m, elem, EncodeItems(v.items, true).value, CanonItems(elem, v.items), rest);
    CanonItemsAny(v.items);
  }

  lemma {:induction false} DecodeObjectEncoded(m: Mode, v: Value, rest: seq<Token>)
    requires v.Object? && Expected(m, v) && Ranged(v) && Ends(rest)
    ensures Encode(v).Some?
    ensures Decode(m, Encode(v).value + rest) == Some((Canon(m, v), rest))
    decreases v, 0
  {
    ReadEntriesEncoded(v.entries, true, rest);
    BracedDecodes(m, EncodeEntries(v.entries, true).value, NormalEntries(v.entries), rest);
  }

  lemma BracketedDecodes(m: Mode, elem: Mode, inner: seq<Token>, items: seq<Value>, rest: seq<Token>)
    requires ElementMode(m) == Some(elem) && ReadItems(elem, inner + [RBracket] + rest, true) == Some((items, rest))
    ensures Decode(m, [LBracket] + inner + [RBracket] + rest) == Some((Value.List(items), rest))
  {
    DecodeArray(m, elem, inner + [RBracket] + rest, items, rest);
    Regroup([LBracket], [], inner, [RBracket], rest);
  }

  lemma BracedDecodes(m: Mode, inner: seq<Token>, entries: seq<Entry>, rest: seq<Token>)
    requires m.Any? || m.ty.Object?
    requires ReadEntries(inner + [RBrace] + rest, true) == Some((entries, rest))
    ensures Decode(m, [LBrace] + inner + [RBrace] + rest) == Some((Value.Object(entries), rest))
  {
    DecodeObject(m, inner + [RBrace] + rest, entries, rest);
    Regroup([LBrace], [], inner, [RBrace], rest);
  }

  lemma {:induction false} CanonItemsAny(items: seq<Value>)
    ensures CanonItems(Any, items) == NormalItems(items)
  {
    if items != [] {
      CanonItemsAny(items[1..]);
    }
  }

  lemma ReadItem(
    m: Mode, first: bool, here: seq<Token>, item: Value, after: seq<Token>, items: seq<Value>, rest: seq<Token>)
    requires here != [] && here[0] != RBracket
    requires Decode(m, here) == Some((item, after)) && ReadItems(m, after, false) == Some((items, rest))
    ensures ReadItems(m, Separator(first) + here, first) == Some(([item] + items, rest))
  {
    var ts := Separator(first) + here;
    if first {
      assert ts == here;
    } else {
      assert ts[1..] == here;
    }
  }

  lemma {:induction false} ReadItemsEncoded(m: Mode, items: seq<Value>, first: bool, rest: seq<Token>)
    requires forall i :: 0 <= i < |items| ==> Expected(m, items[i]) && Ranged(items[i])
    ensures EncodeItems(items, first).Some?
    ensures ReadItems(m, EncodeItems(items, first).value + [RBracket] + rest, first)
         == Some((CanonItems(m, items), rest))
    decreases items, 1
  {
    if items == [] {
      assert ([] + [RBracket] + rest)[1..] == rest;
    } else {
      var tail := items[1..];
      ReadItemsEncoded(m, tail, false, rest);
      var follow := EncodeItems(tail, false).value + [RBracket] + rest;
      ItemsFollow(tail, rest);
      DecodeEncode(m, items[0], follow);
      var item := Encode(items[0]).value;
      EncodeStarts(items[0]);
      ReadItem(m, first, item + follow, Canon(m, items[0]), follow, CanonItems(m, tail), rest);
      Regroup(Separator(first), item, EncodeItems(tail, false).value, [RBracket], rest);
    }
  }

  lemma ItemsFollow(items: seq<Value>, rest: seq<Token>)
    requires EncodeItems(items, false).Some?
    ensures Ends(EncodeItems(items, false).value + [RBracket] + rest)
  {
    if items != [] {
      assert EncodeItems(items, false).value[0] == Comma;
    }
  }

  lemma ReadEntry(
    first: bool, key: string, here: seq<Token>, value: Value, after: seq<Token>, entries: seq<Entry>,
    rest: seq<Token>)
    requires Decode(Any, here) == Some((value, after)) && ReadEntries(after, false) == Some((entries, rest))
    ensures ReadEntries(Separator(first) + ([StrLit(key), Colon] + here), first)
         == Some(([Entry(key, value)] + entries, rest))
  {
    var pair := [StrLit(key), Colon] + here;
    var ts := Separator(first) + pair;
    assert pair[2..] == here;
    if first {
      assert ts == pair;
    } else {
      assert ts[1..] == pair;
    }
  }

  lemma {:induction false} ReadEntriesEncoded(entries: seq<Entry>, first: bool, rest: seq<Token>)
    requires forall i :: 0 <= i < |entries| ==> Encodable(entries[i].value) && Ranged(entries[i].value)
    ensures EncodeEntries(entries, first).Some?
    ensures ReadEntries(EncodeEntries(entries, first).value + [RBrace] + rest, first)
         == Some((NormalEntries(entries), rest))
    decreases entries, 1
  {
    if entries == [] {
      assert ([] + [RBrace] + rest)[1..] == rest;
    } else if entries[0].value.Null? {
      ReadEntriesEncoded(entries[1..], first, rest);
      assert NormalEntries(entries) == NormalEntries(entries[1..]);
    } else {
      var tail := entries[1..];
      ReadEntriesEncoded(tail, false, rest);
      EntriesFollow(tail);
      var more := EncodeEntries(tail, false).value;
      EndsAfter(more, rest);
      DecodeEncode(Any, entries[0].value, more + [RBrace] + rest);
      EntryThenRest(
        first, entries[0].key, Encode(entries[0].value).value, Normal(entries[0].value), more,
        NormalEntries(tail), rest);
    }
  }

  lemma Associative(a: seq<Token>, b: seq<Token>, c: seq<Token>)
    ensures a + (b + c) == a + b + c
  {
  }

  lemma EntryThenRest(
    first: bool, key: string, text: seq<Token>, value: Value, more: seq<Token>, entries: seq<Entry>, rest: seq<Token>)
    requires Decode(Any, text + (more + [RBrace] + rest)) == Some((value, more + [RBrace] + rest))
    requires ReadEntries(more + [RBrace] + rest, false) == Some((entries, rest))
    ensures ReadEntries(Separator(first) + [StrLit(key), Colon] + text + more + [RBrace] + rest, first)
         == Some(([Entry(key, value)] + entries, rest))
  {
    var follow := more + [RBrace] + rest;
    var pair := [StrLit(key), Colon];
    ReadEntry(first, key, text + follow, value, follow, entries, rest);
    Regroup(Separator(first) + pair, text, more, [RBrace], rest);
    Associative(Separator(first), pair, text + follow);
  }

  lemma EndsAfter(inner: seq<Token>, rest: seq<Token>)
    requires inner != [] ==> inner[0] == Comma
    ensures Ends(inner + [RBrace] + rest)
  {
  }

  lemma {:induction false} EntriesFollow(entries: seq<Entry>)
    requires EncodeEntries(entries, false).Some?
    ensures EncodeEntries(entries, false).value != [] ==> EncodeEntries(entries, false).value[0] == Comma
  {
    if entries != [] && entries[0].value.Null? {
      EntriesFollow(entries[1..]);
    }
  }

  // ---- The two round trips ----

  /** Without objects, the canonical form of a typed value is the value. */
  lemma {:induction false} CanonTyped(v: Value, ty: Type, forms: Forms)
    requires OfType(v, ty) && !HasObject(v)
    ensures Canon(Typed(ty, forms), v) == v
    decreases v, 0
  {
    if v.List? {
      CanonItemsTyped(v.items, ty.elem, forms);
    }
  }

  lemma {:induction false} CanonItemsTyped(items: seq<Value>, elem: Type, forms: Forms)
    requires forall i :: 0 <= i < |items| ==> OfType(items[i], elem) && !HasObject(items[i])
    ensures CanonItems(Typed(elem, forms), items) == items
    decreases items, 1
  {
    if items != [] {
      CanonTyped(items[0], elem, forms);
      CanonItemsTyped(items[1..], elem, forms);
    }
  }

  predicate HasObject(v: Value) {
    match v
    case Object(_) => true
    case List(items) => exists i :: 0 <= i < |items| && HasObject(items[i])
    case _ => false
  }

  /** Every value of a type, lists and NULLs nested to any depth, comes back from its text, and the
      text is used up. */
  lemma TypedRoundTrip(v: Value, ty: Type, forms: Forms)
    requires OfType(v, ty) && Ranged(v) && Canonical(forms, v) && !HasObject(v)
    ensures Encode(v).Some? && FromStr(Encode(v).value, ty, forms) == Some(v)
    ensures v.List? ==> ListFromStr(Encode(v).value, ty.elem, forms) == Some(v)
  {
    DecodeEncode(Typed(ty, forms), v, []);
    assert Encode(v).value + [] == Encode(v).value;
    CanonTyped(v, ty, forms);
    if v.List? {
      ListRoundTrip(v, ty.elem, forms);
    }
  }

  lemma ListRoundTrip(v: Value, elem: Type, forms: Forms)
    requires v.List? && OfType(v, Type.List(elem)) && Ranged(v) && Canonical(forms, v) && !HasObject(v)
    ensures Encode(v).Some? && ListFromStr(Encode(v).value, elem, forms) == Some(v)
  {
    ReadItemsEncoded(Typed(elem, forms), v.items, true, []);
    CanonItemsTyped(v.items, elem, forms);
    var inner := EncodeItems(v.items, true).value;
    assert ([LBracket] + inner + [RBracket])[1..] == inner + [RBracket] + [];
  }

  /** A document comes back from its text in normal form. */
  lemma DocumentRoundTrip(v: Value, forms: Forms)
    requires v.Object? && Encodable(v) && Ranged(v)
    ensures Encode(v).Some? && FromStr(Encode(v).value, Type.Object, forms) == Some(Normal(v))
  {
    DecodeEncode(Typed(Type.Object, forms), v, []);
    assert Encode(v).value + [] == Encode(v).value;
  }

  /** The normal form prints as the value does, so that normalising again changes nothing. */
  lemma {:induction false} NormalEncodes(v: Value)
    requires Ranged(v)
    ensures Encode(Normal(v)) == Encode(v)
    ensures Normal(Normal(v)) == Normal(v)
    decreases v, 0
  {
    match v
    case List(items) => NormalItemsEncode(items, true);
    case Object(entries) => NormalEntriesEncode(entries, true);
    case _ =>
  }

  lemma {:induction false} NormalItemsEncode(items: seq<Value>, first: bool)
    requires forall i :: 0 <= i < |items| ==> Ranged(items[i])
    ensures EncodeItems(NormalItems(items), first) == EncodeItems(items, first)
    ensures NormalItems(NormalItems(items)) == NormalItems(items)
    decreases items, 1
  {
    if items != [] {
      NormalEncodes(items[0]);
      NormalItemsEncode(items[1..], false);
      assert NormalItems(items)[1..] == NormalItems(items[1..]);
    }
  }

  lemma {:induction false} NormalEntriesEncode(entries: seq<Entry>, first: bool)
    requires forall i :: 0 <= i < |entries| ==> Ranged(entries[i].value)
    ensures EncodeEntries(NormalEntries(entries), first) == EncodeEntries(entries, first)
    ensures NormalEntries(NormalEntries(entries)) == NormalEntries(entries)
    decreases entries, 1
  {
    if entries != [] {
      var head, tail := entries[0], NormalEntries(entries[1..]);
      if head.value.Null? {
        NormalEntriesEncode(entries[1..], first);
        assert NormalEntries(entries) == tail;
      } else {
        NormalEncodes(head.value);
        NormalEntriesEncode(entries[1..], false);
        assert NormalEntries(entries)[1..] == tail;
        assert !Normal(head.value).Null?;
      }
    }
  }

  // ---- Exactly what cannot be encoded ----

  /** Encoding fails exactly on the shapes JSON has no form for. */
  lemma {:induction false} EncodeFailsExactly(v: Value)
    ensures Encode(v).Some? <==> Encodable(v)
    decreases v, 0
  {
    match v
    case List(items) => EncodeItemsFailsExactly(items, true);
    case Object(entries) => EncodeEntriesFailsExactly(entries, true);
    case _ =>
  }

  lemma {:induction false} EncodeItemsFailsExactly(items: seq<Value>, first: bool)
    ensures EncodeItems(items, first).Some? <==> forall i :: 0 <= i < |items| ==> Encodable(items[i])
    decreases items, 1
  {
    if items != [] {
      EncodeFailsExactly(items[0]);
      EncodeItemsFailsExactly(items[1..], false);
      assert items == [items[0]] + items[1..];
    }
  }

  lemma {:induction false} EncodeEntriesFailsExactly(entries: seq<Entry>, first: bool)
    ensures EncodeEntries(entries, first).Some? <==> forall i :: 0 <= i < |entries| ==> Encodable(entries[i].value)
    decreases entries, 1
  {
    if entries != [] {
      EncodeFailsExactly(entries[0].value);
      EncodeEntriesFailsExactly(entries[1..], first && entries[0].value.Null?);
      assert entries == [entries[0]] + entries[1..];
    }
  }
}
