/** The SQLite and Turso column codecs: five storage classes, 64-bit casts, and JSON text for lists
    and documents. */
module ColumnCodec {
  import opened Wrappers
  import opened Values
  import opened JsonRoundTrip
  import Json

  /** TEXT is either plain text or the token stream of a JSON text. */
  datatype Stored = PlainText(s: string) | JsonText(tokens: seq<Json.Token>)

  /** `Integer` holds a 64-bit signed integer. */
  datatype SqlValue = SqlNull | Integer(n: int) | SqlText(text: Stored) | Blob(bytes: seq<bv8>)

  /** Rust's `as` cast to a width: the number reduced into its range. */
  function Cast(width: IntType, n: int): (r: int)
    ensures width.InRange(r) && (n - r) % width.Span() == 0
  {
    var m := n % width.Span();
    RemainderOff(n, width.Span());
    if m > width.Max() then m - width.Span() else m
  }

  /** `to_sql` and `to_turso`; `None` where they are left unimplemented or have no JSON to write. */
  function ToSql(v: Value): Option<SqlValue> {
    match v
    case Bool(b) => Some(Integer(if b then 1 else 0))
    case Int(_, n) => Some(Integer(Cast(I64, n)))
    case Str(s) => Some(SqlText(PlainText(s)))
    case Bytes(bytes) => Some(Blob(bytes))
    case Null => Some(SqlNull)
    case List(_) =>
      var tokens :- Json.Encode(v);
      Some(SqlText(JsonText(tokens)))
    case Object(_) =>
      var tokens :- Json.Encode(v);
      Some(SqlText(JsonText(tokens)))
    case Text(_, _) => None
    case Record(_) => None
  }

  /** `from_sql` and `from_turso` by the expected type; `None` where they panic. */
  function FromSql(stored: SqlValue, ty: Type, forms: Forms): Option<Value> {
    match stored
    case SqlNull => Some(Value.Null)
    case Integer(n) =>
      (match ty
       case Bool => Some(Value.Bool(n != 0))
       case Int(width) => Some(Value.Int(width, Cast(width, n)))
       case _ => None)
    case SqlText(JsonText(tokens)) =>
      (match ty
       case List(elem) => Json.ListFromStr(tokens, elem, forms)
       case Object => Json.FromStr(tokens, ty, forms)
       case _ => None)
    case SqlText(PlainText(s)) =>
      (match ty
       case Text(Uuid) =>
         var text :- forms(Uuid, s);
         Some(Value.Text(Uuid, text))
       case List(_) => None
       case Object => None
       case _ => Some(Value.Str(s)))
    case Blob(bytes) => if ty.Bytes? then Some(Value.Bytes(bytes)) else None
  }

  lemma {:induction false} AtLeastOnce(d: nat, m: nat)
    requires d > 0
    ensures d * m >= m
  {
    if d > 1 {
      AtLeastOnce(d - 1, m);
      assert d * m == (d - 1) * m + m;
    }
  }

  lemma MultipleBounds(d: int, m: int)
    requires m > 0
    ensures d > 0 ==> d * m >= m
    ensures d < 0 ==> d * m <= -m
  {
    if d > 0 {
      AtLeastOnce(d, m);
    } else if d < 0 {
      AtLeastOnce(-d, m);
      assert (-d) * m == -(d * m);
    }
  }

  /** Quotient and remainder are determined. */
  lemma RemainderIs(n: int, m: nat, q: int, r: int)
    requires m > 0 && n == q * m + r && 0 <= r < m
    ensures n % m == r
  {
    var d := q - n / m;
    assert d * m == n % m - r;
    MultipleBounds(d, m);
  }

  lemma RemainderOff(n: int, m: nat)
    requires m > 0
    ensures (n - n % m) % m == 0 && (n - (n % m - m)) % m == 0
  {
    RemainderIs(n - n % m, m, n / m, 0);
    RemainderIs(n - n % m + m, m, n / m + 1, 0);
  }

  /** A number in range casts to itself. */
  lemma CastInRange(width: IntType, n: int)
    requires width.InRange(n)
    ensures Cast(width, n) == n
  {
    var span := width.Span();
    if n < 0 {
      RemainderIs(n, span, -1, n + span);
    } else {
      RemainderIs(n, span, 0, n);
    }
  }

  /** An integer survives the cast to 64 bits and back at every width, those above the signed
      maximum included. */
  lemma CastRoundTrip(width: IntType, n: int)
    requires width.InRange(n)
    ensures Cast(width, Cast(I64, n)) == n
  {
    if I64.InRange(n) {
      CastInRange(I64, n);
      CastInRange(width, n);
    } else {
      var wrapped := n - 0x1_0000_0000_0000_0000;
      assert width.U64? && Cast(I64, n) == wrapped;
      assert wrapped % 0x1_0000_0000_0000_0000 == n;
    }
  }

  /** Column values: those a column of the type can hold in SQLite. */
  predicate Storable(v: Value, ty: Type) {
    match v
    case Bytes(_) => ty.Bytes?
    case Text(_, _) => false
    case Object(_) => false
    case List(_) => OfType(v, ty) && !HasObject(v)
    case _ => OfType(v, ty)
  }

  /** Every column value comes back from its stored form. */
  lemma ColumnRoundTrip(v: Value, ty: Type, forms: Forms)
    requires Storable(v, ty) && Ranged(v) && Canonical(forms, v)
    ensures ToSql(v).Some? && FromSql(ToSql(v).value, ty, forms) == Some(v)
  {
    match v
    case Int(width, n) => CastRoundTrip(width, n);
    case List(_) => TypedRoundTrip(v, ty, forms);
    case _ =>
  }

  /** What stands in a column without having been written by this codec: every integer but zero is true, an
      integer of a width is what its low bits say, and a UUID is whatever reads as one. */
  lemma ForeignReads(n: int, width: IntType, s: string, text: string, forms: Forms)
    ensures FromSql(Integer(n), Type.Bool, forms).Some?
    ensures FromSql(Integer(n), Type.Bool, forms) == Some(Value.Bool(false)) <==> n == 0
    ensures
      var v := FromSql(Integer(n), Type.Int(width), forms);
      && v.Some? && v.value.Int? && v.value.width == width
      && width.InRange(v.value.n) && (n - v.value.n) % width.Span() == 0
    ensures FromSql(SqlText(PlainText(s)), Type.Text(Uuid), forms) == Some(Value.Text(Uuid, text))
       <==> forms(Uuid, s) == Some(text)
  {
  }

  /** A document column comes back in normal form. */
  lemma DocumentColumnRoundTrip(v: Value, forms: Forms)
    requires v.Object? && Encodable(v) && Ranged(v)
    ensures ToSql(v).Some? && FromSql(ToSql(v).value, Type.Object, forms) == Some(Normal(v))
  {
    DocumentRoundTrip(v, forms);
  }
}
