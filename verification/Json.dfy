/** The JSON document codec over token streams: `Encode`, the type-directed decoder and the
    shape-directed one inside documents. Strings are single tokens; numbers are spelled out. */
module Json {
  import opened Wrappers
  import opened Values
  import Decimal

  datatype Token =
    | LBracket | RBracket | LBrace | RBrace | Comma | Colon
    | NullWord | BoolWord(truth: bool) | NumChar(c: char) | StrLit(s: string)

  // ---- Encoding ----

  function NumTokens(text: string): (ts: seq<Token>)
    ensures |ts| == |text|
    ensures forall i :: 0 <= i < |ts| ==> ts[i] == NumChar(text[i])
  {
    seq(|text|, i requires 0 <= i < |text| => NumChar(text[i]))
  }

  function Separator(first: bool): seq<Token> {
    if first then [] else [Comma]
  }

  /** `None` for the shapes JSON has no form for. */
  function Encode(v: Value): Option<seq<Token>>
    decreases v, 0
  {
    match v
    case Null => Some([NullWord])
    case Bool(b) => Some([BoolWord(b)])
    case Int(_, n) => Some(NumTokens(Decimal.OfInt(n)))
    case Str(s) => Some([StrLit(s)])
    case Text(_, text) => Some([StrLit(text)])
    case List(items) =>
      var inner :- EncodeItems(items, true);
      Some([LBracket] + inner + [RBracket])
    case Object(entries) =>
      var inner :- EncodeEntries(entries, true);
      Some([LBrace] + inner + [RBrace])
    case Bytes(_) => None
    case Record(_) => None
  }

  function EncodeItems(items: seq<Value>, first: bool): Option<seq<Token>>
    decreases items, 1
  {
    if items == [] then Some([])
    else
      var item :- Encode(items[0]);
      var rest :- EncodeItems(items[1..], false);
      Some(Separator(first) + item + rest)
  }

  /** NULL entries leave no key behind. */
  function EncodeEntries(entries: seq<Entry>, first: bool): Option<seq<Token>>
    decreases entries, 1
  {
    if entries == [] then Some([])
    else if entries[0].value.Null? then EncodeEntries(entries[1..], first)
    else
      var value :- Encode(entries[0].value);
      var rest :- EncodeEntries(entries[1..], false);
      Some(Separator(first) + [StrLit(entries[0].key), Colon] + value + rest)
  }

  // ---- Decoding ----

  /** By the column's type, or inside a document by shape alone. */
  datatype Mode = Typed(ty: Type, forms: Forms) | Any

  function NumberText(ts: seq<Token>): (text: string)
    ensures |text| <= |ts|
    ensures ts != [] && ts[0].NumChar? ==> text != []
  {
    if ts != [] && ts[0].NumChar? then [ts[0].c] + NumberText(ts[1..]) else ""
  }

  /** A JSON integer: no leading zero, no plus sign, and not minus zero, which is a float. */
  function ReadNumber(text: string): Option<int> {
    if text != [] && text[0] == '-' then
      if PlainDigits(text[1..]) && text[1] != '0' then Some(-(Decimal.ToNat(text[1..]) as int)) else None
    else if PlainDigits(text) then Some(Decimal.ToNat(text))
    else None
  }

  predicate PlainDigits(s: string) {
    s != [] && Decimal.AllDigits(s) && (s[0] == '0' ==> |s| == 1)
  }

  /** An integer token's value: checked against the type, or by integer fit. Beyond 64 bits the
      parser makes it a float, which is not an integer of any type. */
  function IntValue(m: Mode, n: int): Option<Value> {
    if !I64.InRange(n) && !U64.InRange(n) then None
    else
      match m
      case Any => Some(Value.Int(if I64.InRange(n) then I64 else U64, n))
      case Typed(Int(width), _) => if width.InRange(n) then Some(Value.Int(width, n)) else None
      case _ => None
  }

  function StrValue(m: Mode, s: string): Option<Value> {
    match m
    case Any => Some(Value.Str(s))
    case Typed(Str, _) => Some(Value.Str(s))
    case Typed(Text(kind), forms) =>
      var text :- forms(kind, s);
      Some(Value.Text(kind, text))
    case _ => None
  }

  function ElementMode(m: Mode): Option<Mode> {
    match m
    case Any => Some(Any)
    case Typed(List(elem), forms) => Some(Typed(elem, forms))
    case _ => None
  }

  function Decode(m: Mode, ts: seq<Token>): (r: Option<(Value, seq<Token>)>)
    ensures r.Some? ==> |r.value.1| < |ts|
    decreases |ts|, 1
  {
    if ts == [] then None
    else
      match ts[0]
      case NullWord => Some((Value.Null, ts[1..]))
      case BoolWord(b) => if m.Any? || m.ty.Bool? then Some((Value.Bool(b), ts[1..])) else None
      case StrLit(s) =>
        var v :- StrValue(m, s);
        Some((v, ts[1..]))
      case NumChar(_) =>
        var text := NumberText(ts);
        var n :- ReadNumber(text);
        var v :- IntValue(m, n);
        Some((v, ts[|text|..]))
      case LBracket =>
        var elem :- ElementMode(m);
        var (items, rest) :- ReadItems(elem, ts[1..], true);
        Some((Value.List(items), rest))
      case LBrace =>
        if m.Any? || m.ty.Object? then
          var (entries, rest) :- ReadEntries(ts[1..], true);
          Some((Value.Object(entries), rest))
        else None
      case _ => None
  }

  /** Past the separator an element after the first needs. */
  function PastSeparator(ts: seq<Token>, first: bool): (r: Option<seq<Token>>)
    ensures r.Some? ==> |r.value| <= |ts|
  {
    if first then Some(ts) else if ts != [] && ts[0] == Comma then Some(ts[1..]) else None
  }

  /** The elements up to the closing bracket, which is consumed. */
  function ReadItems(m: Mode, ts: seq<Token>, first: bool): (r: Option<(seq<Value>, seq<Token>)>)
    ensures r.Some? ==> |r.value.1| < |ts|
    decreases |ts|, 2
  {
    if ts == [] then None
    else if ts[0] == RBracket then Some(([], ts[1..]))
    else
      var here :- PastSeparator(ts, first);
      var (item, after) :- Decode(m, here);
      var (items, rest) :- ReadItems(m, after, false);
      Some(([item] + items, rest))
  }

  function ReadEntries(ts: seq<Token>, first: bool): (r: Option<(seq<Entry>, seq<Token>)>)
    ensures r.Some? ==> |r.value.1| < |ts|
    decreases |ts|, 2
  {
    if ts == [] then None
    else if ts[0] == RBrace then Some(([], ts[1..]))
    else
      var here :- PastSeparator(ts, first);
      if |here| < 2 || !here[0].StrLit? || here[1] != Colon then None
      else
        var (value, after) :- Decode(Any, here[2..]);
        var (entries, rest) :- ReadEntries(after, false);
        Some(([Entry(here[0].s, value)] + entries, rest))
  }

  /** `from_str`: one value and nothing after it. */
  function FromStr(ts: seq<Token>, ty: Type, forms: Forms): Option<Value> {
    var (v, rest) :- Decode(Typed(ty, forms), ts);
    if rest == [] then Some(v) else None
  }

  /** `list_from_str`: an array of the given elements, and not `null`. */
  function ListFromStr(ts: seq<Token>, elem: Type, forms: Forms): Option<Value> {
    if ts == [] || ts[0] != LBracket then None
    else
      var (items, rest) :- ReadItems(Typed(elem, forms), ts[1..], true);
      if rest == [] then Some(Value.List(items)) else None
  }
}
