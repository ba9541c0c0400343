/** The codec's loops, and what its decoder accepts. */
module JsonReader {
  import opened Wrappers
  import opened Values
  import opened Json
  import opened JsonRoundTrip
  import Decimal

  // ---- Printing what was parsed ----

  /** Types without a document in them. */
  predicate Plain(ty: Type) {
    match ty
    case Object => false
    case List(elem) => Plain(elem)
    case _ => true
  }

  lemma {:induction false} NumberTextTakes(ts: seq<Token>)
    ensures NumberText(ts) != "" <==> ts != [] && ts[0].NumChar?
    ensures ts == NumTokens(NumberText(ts)) + ts[|NumberText(ts)|..]
  {
    if ts != [] && ts[0].NumChar? {
      NumberTextTakes(ts[1..]);
      var text := NumberText(ts[1..]);
      assert ts[1..] == NumTokens(text) + ts[1..][|text|..];
      assert ts == [ts[0]] + ts[1..];
      assert NumTokens([ts[0].c] + text) == [ts[0]] + NumTokens(text);
    } else {
      assert NumTokens("") == [];
    }
  }

  lemma ReadNumberPrints(text: string)
    requires ReadNumber(text).Some?
    ensures Decimal.OfInt(ReadNumber(text).value) == text
  {
    if text[0] == '-' {
      Decimal.OfNatToNat(text[1..]);
      assert text == "-" + text[1..];
    } else {
      Decimal.OfNatToNat(text);
    }
  }

  /** Whatever the decoder accepts is of the type asked for, its integers in range, its text scalars in
      their stored form: nothing is wrapped or truncated. */
  lemma {:induction false} DecodeSound(m: Mode, ts: seq<Token>)
    requires Decode(m, ts).Some? && (m.Typed? ==> FormsOk(m.forms))
    ensures Expected(m, Decode(m, ts).value.0) && Ranged(Decode(m, ts).value.0)
    decreases |ts|, 1
  {
    match ts[0]
    case LBracket => ReadItemsSound(ElementMode(m).value, ts[1..], true);
    case LBrace => ReadEntriesSound(ts[1..], true);
    case _ =>
  }

  lemma {:induction false} ReadItemsSound(m: Mode, ts: seq<Token>, first: bool)
    requires ReadItems(m, ts, first).Some? && (m.Typed? ==> FormsOk(m.forms))
    ensures
      var items := ReadItems(m, ts, first).value.0;
      forall i :: 0 <= i < |items| ==> Expected(m, items[i]) && Ranged(items[i])
    decreases |ts|, 2
  {
    if ts[0] != RBracket {
      var here := PastSeparator(ts, first).value;
      DecodeSound(m, here);
      ReadItemsSound(m, Decode(m, here).value.1, false);
    }
  }

  lemma {:induction false} ReadEntriesSound(ts: seq<Token>, first: bool)
    requires ReadEntries(ts, first).Some?
    ensures
      var entries := ReadEntries(ts, first).value.0;
      forall i :: 0 <= i < |entries| ==> Encodable(entries[i].value) && Ranged(entries[i].value)
    decreases |ts|, 2
  {
    if ts[0] != RBrace {
      var here := PastSeparator(ts, first).value;
      DecodeSound(Any, here[2..]);
      ReadEntriesSound(Decode(Any, here[2..]).value.1, false);
    }
  }

  // ---- Texts respelled ----

  /** What the lists of the type are lists of, in the end. */
  function Leaf(ty: Type): Type {
    if ty.List? then Leaf(ty.elem) else ty
  }

  predicate Readable(leaf: Type, forms: Forms, t: Token) {
    leaf.Text? && t.StrLit? ==> forms(leaf.kind, t.s).Some?
  }

  predicate AllReadable(leaf: Type, forms: Forms, ts: seq<Token>) {
    forall i :: 0 <= i < |ts| ==> Readable(leaf, forms, ts[i])
  }

  /** A string that spells a text scalar, spelled as it is stored. */
  function Respell(leaf: Type, forms: Forms, t: Token): Token {
    if leaf.Text? && t.StrLit? && forms(leaf.kind, t.s).Some? then StrLit(forms(leaf.kind, t.s).value) else t
  }

  function Respelled(leaf: Type, forms: Forms, ts: seq<Token>): (r: seq<Token>)
    ensures |r| == |ts|
    ensures forall i :: 0 <= i < |ts| ==> r[i] == Respell(leaf, forms, ts[i])
  {
    seq(|ts|, i requires 0 <= i < |ts| => Respell(leaf, forms, ts[i]))
  }

  lemma RespelledTail(leaf: Type, forms: Forms, ts: seq<Token>, n: nat)
    requires n <= |ts|
    ensures Respelled(leaf, forms, ts)[n..] == Respelled(leaf, forms, ts[n..])
  {
  }

  lemma RespelledHead(leaf: Type, forms: Forms, ts: seq<Token>)
    requires ts != []
    ensures Respelled(leaf, forms, ts) == [Respell(leaf, forms, ts[0])] + Respelled(leaf, forms, ts[1..])
  {
  }

  lemma {:induction false} RespelledNumber(leaf: Type, forms: Forms, ts: seq<Token>)
    ensures NumberText(Respelled(leaf, forms, ts)) == NumberText(ts)
  {
    if ts != [] && ts[0].NumChar? {
      RespelledNumber(leaf, forms, ts[1..]);
      RespelledTail(leaf, forms, ts, 1);
    }
  }

  /** `ts` is the printed `text`, respelled, and then `rest`. */
  predicate Prints(leaf: Type, forms: Forms, ts: seq<Token>, text: Option<seq<Token>>, rest: seq<Token>) {
    && text.Some? && Respelled(leaf, forms, ts) == text.value + Respelled(leaf, forms, rest)
    && (AllReadable(leaf, forms, rest) ==> AllReadable(leaf, forms, ts))
  }

  /** At a type without documents the decoder accepts nothing but encodings, with text scalars in any
      spelling that reads: printing the value again gives back the tokens it consumed, respelled. */
  lemma {:induction false} DecodePrints(ty: Type, forms: Forms, ts: seq<Token>)
    requires Plain(ty) && Decode(Typed(ty, forms), ts).Some?
    ensures
      var (v, rest) := Decode(Typed(ty, forms), ts).value;
      Prints(Leaf(ty), forms, ts, Encode(v), rest)
    decreases |ts|, 1
  {
    match ts[0]
    case NumChar(_) => NumberPrints(ty, forms, ts);
    case LBracket => ListPrints(ty, forms, ts);
    case _ => WordPrints(ty, forms, ts);
  }

  lemma WordPrints(ty: Type, forms: Forms, ts: seq<Token>)
    requires ts != [] && (ts[0].NullWord? || ts[0].BoolWord? || ts[0].StrLit?)
    requires Decode(Typed(ty, forms), ts).Some?
    ensures
      var (v, rest) := Decode(Typed(ty, forms), ts).value;
      Prints(Leaf(ty), forms, ts, Encode(v), rest)
  {
    RespelledHead(Leaf(ty), forms, ts);
  }

  lemma NumberPrints(ty: Type, forms: Forms, ts: seq<Token>)
    requires ts != [] && ts[0].NumChar? && Decode(Typed(ty, forms), ts).Some?
    ensures
      var (v, rest) := Decode(Typed(ty, forms), ts).value;
      Prints(Leaf(ty), forms, ts, Encode(v), rest)
  {
    NumberDecoded(Typed(ty, forms), ts);
    NumberTextTakes(ts);
    Unreadable(Leaf(ty), forms, ts, NumTokens(NumberText(ts)), ts[|NumberText(ts)|..]);
  }

  /** A number's tokens are those its value is printed as. */
  lemma NumberDecoded(m: Mode, ts: seq<Token>)
    requires ts != [] && ts[0].NumChar? && Decode(m, ts).Some?
    ensures Encode(Decode(m, ts).value.0) == Some(NumTokens(NumberText(ts)))
    ensures Decode(m, ts).value.1 == ts[|NumberText(ts)|..]
  {
    ReadNumberPrints(NumberText(ts));
  }

  /** Tokens that are no strings change nothing. */
  lemma Unreadable(leaf: Type, forms: Forms, ts: seq<Token>, a: seq<Token>, b: seq<Token>)
    requires ts == a + b && forall i :: 0 <= i < |a| ==> !a[i].StrLit?
    ensures Prints(leaf, forms, ts, Some(a), b)
  {
  }

  lemma {:induction false} ListPrints(ty: Type, forms: Forms, ts: seq<Token>)
    requires Plain(ty) && ts != [] && ts[0] == LBracket && Decode(Typed(ty, forms), ts).Some?
    ensures
      var (v, rest) := Decode(Typed(ty, forms), ts).value;
      Prints(Leaf(ty), forms, ts, Encode(v), rest)
    decreases |ts|, 0
  {
    var (items, rest) := ReadItems(Typed(ty.elem, forms), ts[1..], true).value;
    ReadItemsPrints(ty.elem, forms, ts[1..], true);
    Bracketed(Leaf(ty), forms, ts, EncodeItems(items, true).value, rest);
  }

  lemma Bracketed(leaf: Type, forms: Forms, ts: seq<Token>, inner: seq<Token>, rest: seq<Token>)
    requires ts != [] && ts[0] == LBracket && Prints(leaf, forms, ts[1..], Some(inner + [RBracket]), rest)
    ensures Prints(leaf, forms, ts, Some([LBracket] + inner + [RBracket]), rest)
  {
    RespelledHead(leaf, forms, ts);
    Regroup([LBracket], [], inner, [RBracket], Respelled(leaf, forms, rest));
  }

  lemma {:induction false} ReadItemsPrints(elem: Type, forms: Forms, ts: seq<Token>, first: bool)
    requires Plain(elem) && ReadItems(Typed(elem, forms), ts, first).Some?
    ensures
      var (items, rest) := ReadItems(Typed(elem, forms), ts, first).value;
      && EncodeItems(items, first).Some?
      && Prints(Leaf(elem), forms, ts, Some(EncodeItems(items, first).value + [RBracket]), rest)
    decreases |ts|, 2
  {
    if ts[0] == RBracket {
      Unreadable(Leaf(elem), forms, ts, [] + [RBracket], ts[1..]);
    } else {
      var here := PastSeparator(ts, first).value;
      DecodePrints(elem, forms, here);
      var (item, after) := Decode(Typed(elem, forms), here).value;
      ReadItemsPrints(elem, forms, after, false);
      var (items, rest) := ReadItems(Typed(elem, forms), after, false).value;
      assert ([item] + items)[1..] == items;
      Unreadable(Leaf(elem), forms, ts, Separator(first), here);
      Continued(
        Leaf(elem), forms, ts, Separator(first), here, Encode(item).value, after,
        EncodeItems(items, false).value, rest);
    }
  }

  /** A separator, an item and what follows. */
  lemma Continued(
    leaf: Type, forms: Forms, ts: seq<Token>, separator: seq<Token>, here: seq<Token>, item: seq<Token>,
    after: seq<Token>, items: seq<Token>, rest: seq<Token>)
    requires Prints(leaf, forms, ts, Some(separator), here) && Prints(leaf, forms, here, Some(item), after)
    requires Prints(leaf, forms, after, Some(items + [RBracket]), rest)
    ensures Prints(leaf, forms, ts, Some(separator + item + items + [RBracket]), rest)
  {
    Regroup(separator, item, items, [RBracket], Respelled(leaf, forms, rest));
  }

  /** Respelling changes nothing that the decoder sees. */
  lemma {:induction false} DecodeRespelled(ty: Type, forms: Forms, ts: seq<Token>)
    requires Plain(ty) && FormsOk(forms) && AllReadable(Leaf(ty), forms, ts)
    ensures Decode(Typed(ty, forms), Respelled(Leaf(ty), forms, ts))
         == match Decode(Typed(ty, forms), ts)
            case None => None
            case Some((v, rest)) => Some((v, Respelled(Leaf(ty), forms, rest)))
    decreases |ts|, 1
  {
    if ts != [] {
      RespelledTail(Leaf(ty), forms, ts, 1);
      match ts[0]
      case NumChar(_) =>
        RespelledNumber(Leaf(ty), forms, ts);
        RespelledTail(Leaf(ty), forms, ts, |NumberText(ts)|);
      case LBracket =>
        if ty.List? {
          ReadItemsRespelled(ty.elem, forms, ts[1..], true);
        }
      case _ =>
    }
  }

  lemma {:induction false} ReadItemsRespelled(elem: Type, forms: Forms, ts: seq<Token>, first: bool)
    requires Plain(elem) && FormsOk(forms) && AllReadable(Leaf(elem), forms, ts)
    ensures ReadItems(Typed(elem, forms), Respelled(Leaf(elem), forms, ts), first)
         == match ReadItems(Typed(elem, forms), ts, first)
            case None => None
            case Some((items, rest)) => Some((items, Respelled(Leaf(elem), forms, rest)))
    decreases |ts|, 2
  {
    if ts != [] {
      RespelledTail(Leaf(elem), forms, ts, 1);
      var here := PastSeparator(ts, first);
      if ts[0] != RBracket && here.Some? {
        DecodeRespelled(elem, forms, here.value);
        var item := Decode(Typed(elem, forms), here.value);
        if item.Some? {
          RestReadable(elem, forms, here.value);
          ReadItemsRespelled(elem, forms, item.value.1, false);
        }
      }
    }
  }

  lemma RestReadable(ty: Type, forms: Forms, ts: seq<Token>)
    requires Decode(Typed(ty, forms), ts).Some? && AllReadable(Leaf(ty), forms, ts)
    ensures AllReadable(Leaf(ty), forms, Decode(Typed(ty, forms), ts).value.1)
  {
    DecodeTakes(Typed(ty, forms), ts);
  }

  predicate IsTail(ts: seq<Token>, rest: seq<Token>) {
    |rest| <= |ts| && ts[|ts| - |rest|..] == rest
  }

  lemma TailOfTail(a: seq<Token>, b: seq<Token>, c: seq<Token>)
    requires IsTail(a, b) && IsTail(b, c)
    ensures IsTail(a, c)
  {
    assert a[|a| - |c|..] == a[|a| - |b|..][|b| - |c|..];
  }

  lemma DropsAreTails(ts: seq<Token>, n: nat)
    requires n <= |ts|
    ensures IsTail(ts, ts[n..])
  {
  }

  /** What is left over is the end of the tokens. */
  lemma {:induction false} DecodeTakes(m: Mode, ts: seq<Token>)
    requires Decode(m, ts).Some?
    ensures IsTail(ts, Decode(m, ts).value.1)
    decreases |ts|, 1
  {
    DropsAreTails(ts, 1);
    match ts[0]
    case NumChar(_) => DropsAreTails(ts, |NumberText(ts)|);
    case LBracket =>
      ReadItemsTakes(ElementMode(m).value, ts[1..], true);
      TailOfTail(ts, ts[1..], Decode(m, ts).value.1);
    case LBrace =>
      ReadEntriesTakes(ts[1..], true);
      TailOfTail(ts, ts[1..], Decode(m, ts).value.1);
    case _ =>
  }

  lemma {:induction false} ReadItemsTakes(m: Mode, ts: seq<Token>, first: bool)
    requires ReadItems(m, ts, first).Some?
    ensures IsTail(ts, ReadItems(m, ts, first).value.1)
    decreases |ts|, 2
  {
    DropsAreTails(ts, 1);
    if ts[0] != RBracket {
      var here := PastSeparator(ts, first).value;
      var after := Decode(m, here).value.1;
      DecodeTakes(m, here);
      ReadItemsTakes(m, after, false);
      SeparatorTail(ts, first);
      TailOfTail(ts, here, after);
      TailOfTail(ts, after, ReadItems(m, ts, first).value.1);
    }
  }

  lemma SeparatorTail(ts: seq<Token>, first: bool)
    requires PastSeparator(ts, first).Some?
    ensures IsTail(ts, PastSeparator(ts, first).value)
  {
    DropsAreTails(ts, if first then 0 else 1);
  }

  lemma {:induction false} ReadEntriesTakes(ts: seq<Token>, first: bool)
    requires ReadEntries(ts, first).Some?
    ensures IsTail(ts, ReadEntries(ts, first).value.1)
    decreases |ts|, 2
  {
    DropsAreTails(ts, 1);
    if ts[0] != RBrace {
      var here := PastSeparator(ts, first).value;
      var after := Decode(Any, here[2..]).value.1;
      DecodeTakes(Any, here[2..]);
      ReadEntriesTakes(after, false);
      SeparatorTail(ts, first);
      DropsAreTails(here, 2);
      TailOfTail(ts, here, here[2..]);
      TailOfTail(ts, here[2..], after);
      TailOfTail(ts, after, ReadEntries(ts, first).value.1);
    }
  }

  lemma {:induction false} PlainHasNoObject(v: Value, ty: Type)
    requires Plain(ty) && OfType(v, ty)
    ensures !HasObject(v)
    decreases v
  {
    if v.List? {
      forall i | 0 <= i < |v.items|
        ensures !HasObject(v.items[i])
      {
        PlainHasNoObject(v.items[i], ty.elem);
      }
    }
  }

  lemma PlainRoundTrip(v: Value, ty: Type, forms: Forms)
    requires Plain(ty) && OfType(v, ty) && Ranged(v) && Canonical(forms, v)
    ensures Encode(v).Some? && FromStr(Encode(v).value, ty, forms) == Some(v)
  {
    PlainHasNoObject(v, ty);
    TypedRoundTrip(v, ty, forms);
  }

  /** At such a type, `from_str` reads exactly the encodings of the type's values, with text scalars in
      any spelling that reads; so where there are none, exactly the encodings. */
  lemma FromStrExactly(ts: seq<Token>, ty: Type, forms: Forms, v: Value)
    requires Plain(ty) && FormsOk(forms)
    ensures FromStr(ts, ty, forms) == Some(v)
       <==> OfType(v, ty) && Ranged(v) && Canonical(forms, v)
            && AllReadable(Leaf(ty), forms, ts) && Encode(v) == Some(Respelled(Leaf(ty), forms, ts))
    ensures !Leaf(ty).Text? ==> AllReadable(Leaf(ty), forms, ts) && Respelled(Leaf(ty), forms, ts) == ts
  {
    if FromStr(ts, ty, forms) == Some(v) {
      DecodeSound(Typed(ty, forms), ts);
      DecodePrints(ty, forms, ts);
      assert Encode(v).value + [] == Encode(v).value;
    }
    if OfType(v, ty) && Ranged(v) && Canonical(forms, v)
       && AllReadable(Leaf(ty), forms, ts) && Encode(v) == Some(Respelled(Leaf(ty), forms, ts))
    {
      PlainRoundTrip(v, ty, forms);
      DecodeRespelled(ty, forms, ts);
    }
  }

  // ---- The loops ----

  /** `done` of the whole encoding is out and `rest` remains, or neither can be encoded. */
  ghost predicate Streamed(whole: Option<seq<Token>>, done: seq<Token>, rest: Option<seq<Token>>) {
    (whole.Some? <==> rest.Some?) && (whole.Some? ==> whole.value == done + rest.value)
  }

  lemma Streaming(whole: Option<seq<Token>>)
    ensures Streamed(whole, [], whole)
  {
    if whole.Some? {
      assert [] + whole.value == whole.value;
    }
  }

  lemma StreamedMore(
    whole: Option<seq<Token>>, done: seq<Token>, step: seq<Token>, rest: Option<seq<Token>>,
    rest': Option<seq<Token>>)
    requires Streamed(whole, done, rest) && (rest.Some? <==> rest'.Some?)
    requires rest.Some? ==> rest.value == step + rest'.value
    ensures Streamed(whole, done + step, rest')
  {
    if rest.Some? {
      assert done + (step + rest'.value) == done + step + rest'.value;
    }
  }

  /** Where the serializer streams to. */
  class Sink {
    var tokens: seq<Token>

    constructor ()
      ensures tokens == []
    {
      tokens := [];
    }

    method Push(ts: seq<Token>)
      modifies this
      ensures tokens == old(tokens) + ts
    {
      tokens := tokens + ts;
    }

    /** Streams a value; false on a shape without a JSON form. */
    method Serialize(v: Value) returns (ok: bool)
      modifies this
      ensures ok <==> Encode(v).Some?
      ensures ok ==> tokens == old(tokens) + Encode(v).value
      decreases v, 0
    {
      match v
      case Null => Push([NullWord]); ok := true;
      case Bool(b) => Push([BoolWord(b)]); ok := true;
      case Int(_, n) => Push(NumTokens(Decimal.OfInt(n))); ok := true;
      case Str(s) => Push([StrLit(s)]); ok := true;
      case Text(_, text) => Push([StrLit(text)]); ok := true;
      case List(items) =>
        Push([LBracket]);
        ok := SerializeItems(items);
        Push([RBracket]);
      case Object(entries) =>
        Push([LBrace]);
        ok := SerializeEntries(entries);
        Push([RBrace]);
      case Bytes(_) => ok := false;
      case Record(_) => ok := false;
    }

    method SerializeItems(items: seq<Value>) returns (ok: bool)
      modifies this
      ensures ok <==> EncodeItems(items, true).Some?
      ensures ok ==> tokens == old(tokens) + EncodeItems(items, true).value
      decreases items, 1
    {
      ghost var whole, done := EncodeItems(items, true), [];
      assert items[0..] == items;
      Streaming(whole);
      for i := 0 to |items|
        invariant tokens == old(tokens) + done
        invariant Streamed(whole, done, EncodeItems(items[i..], i == 0))
      {
        assert items[i..][0] == items[i] && items[i..][1..] == items[i + 1..];
        if i > 0 {
          Push([Comma]);
        }
        var here := Serialize(items[i]);
        if !here {
          return false;
        }
        StreamedMore(whole, done, Separator(i == 0) + Encode(items[i]).value,
                     EncodeItems(items[i..], i == 0), EncodeItems(items[i + 1..], false));
        done := done + (Separator(i == 0) + Encode(items[i]).value);
      }
      ok := true;
    }

    method SerializeEntries(entries: seq<Entry>) returns (ok: bool)
      modifies this
      ensures ok <==> EncodeEntries(entries, true).Some?
      ensures ok ==> tokens == old(tokens) + EncodeEntries(entries, true).value
      decreases entries, 1
    {
      var first := true;
      ghost var whole, done := EncodeEntries(entries, true), [];
      assert entries[0..] == entries;
      Streaming(whole);
      for i := 0 to |entries|
        invariant tokens == old(tokens) + done
        invariant Streamed(whole, done, EncodeEntries(entries[i..], first))
      {
        var entry := entries[i];
        assert entries[i..][0] == entry && entries[i..][1..] == entries[i + 1..];
        if !entry.value.Null? {
          Push(Separator(first) + [StrLit(entry.key), Colon]);
          var here := Serialize(entry.value);
          if !here {
            return false;
          }
          ghost var step := Separator(first) + [StrLit(entry.key), Colon] + Encode(entry.value).value;
          StreamedMore(whole, done, step, EncodeEntries(entries[i..], first), EncodeEntries(entries[i + 1..], false));
          done := done + step;
          first := false;
        }
      }
      ok := true;
    }
  }

  method DecodeValue(m: Mode, ts: seq<Token>) returns (r: Option<(Value, seq<Token>)>)
    ensures r == Decode(m, ts)
    decreases |ts|, 1
  {
    if ts == [] {
      return None;
    }
    match ts[0]
    case LBracket =>
      var elem := ElementMode(m);
      if elem.None? {
        return None;
      }
      var items := ReadSeq(elem.value, ts[1..]);
      return if items.Some? then Some((Value.List(items.value.0), items.value.1)) else None;
    case LBrace =>
      if m.Typed? && !m.ty.Object? {
        return None;
      }
      var entries := ReadMap(ts[1..]);
      return if entries.Some? then Some((Value.Object(entries.value.0), entries.value.1)) else None;
    case _ =>
      return Decode(m, ts);
  }

  /** Reading the whole is what has been read followed by reading the rest. */
  ghost predicate SoFar<T>(whole: Option<(seq<T>, seq<Token>)>, done: seq<T>, tail: Option<(seq<T>, seq<Token>)>) {
    whole == if tail.Some? then Some((done + tail.value.0, tail.value.1)) else None
  }

  lemma SoFarNothing<T>(whole: Option<(seq<T>, seq<Token>)>)
    ensures SoFar(whole, [], whole)
  {
    if whole.Some? {
      assert [] + whole.value.0 == whole.value.0;
    }
  }

  lemma SoFarMore<T>(whole: Option<(seq<T>, seq<Token>)>, done: seq<T>, x: T,
                     tail: Option<(seq<T>, seq<Token>)>, more: Option<(seq<T>, seq<Token>)>)
    requires SoFar(whole, done, tail)
    requires tail == if more.Some? then Some(([x] + more.value.0, more.value.1)) else None
    ensures SoFar(whole, done + [x], more)
  {
    if more.Some? {
      assert done + ([x] + more.value.0) == done + [x] + more.value.0;
    }
  }

  method ReadSeq(m: Mode, ts: seq<Token>) returns (r: Option<(seq<Value>, seq<Token>)>)
    ensures r == ReadItems(m, ts, true)
    decreases |ts|, 2
  {
    var items, rest, first := [], ts, true;
    SoFarNothing(ReadItems(m, ts, true));
    while rest != [] && rest[0] != RBracket
      invariant |rest| <= |ts|
      invariant SoFar(ReadItems(m, ts, true), items, ReadItems(m, rest, first))
      decreases |rest|
    {
      var here := PastSeparator(rest, first);
      if here.None? {
        return None;
      }
      var item := DecodeValue(m, here.value);
      if item.None? {
        return None;
      }
      SoFarMore(
        ReadItems(m, ts, true), items, item.value.0, ReadItems(m, rest, first),
        ReadItems(m, item.value.1, false));
      items, rest, first := items + [item.value.0], item.value.1, false;
    }
    assert items + [] == items;
    r := if rest == [] then None else Some((items, rest[1..]));
  }

  method ReadMap(ts: seq<Token>) returns (r: Option<(seq<Entry>, seq<Token>)>)
    ensures r == ReadEntries(ts, true)
    decreases |ts|, 2
  {
    var entries, rest, first := [], ts, true;
    SoFarNothing(ReadEntries(ts, true));
    while rest != [] && rest[0] != RBrace
      invariant |rest| <= |ts|
      invariant SoFar(ReadEntries(ts, true), entries, ReadEntries(rest, first))
      decreases |rest|
    {
      var here := PastSeparator(rest, first);
      if here.None? || |here.value| < 2 || !here.value[0].StrLit? || here.value[1] != Colon {
        return None;
      }
      var value := DecodeValue(Any, here.value[2..]);
      if value.None? {
        return None;
      }
      var entry := Entry(here.value[0].s, value.value.0);
      SoFarMore(ReadEntries(ts, true), entries, entry, ReadEntries(rest, first), ReadEntries(value.value.1, false));
      entries, rest, first := entries + [entry], value.value.1, false;
    }
    assert entries + [] == entries;
    r := if rest == [] then None else Some((entries, rest[1..]));
  }
}
