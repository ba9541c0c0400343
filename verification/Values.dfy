/** The query engine's values and types, as far as the storage codecs tell them apart. */
module Values {
  import opened Wrappers

  datatype IntType = I8 | I16 | I32 | I64 | U8 | U16 | U32 | U64 {
    predicate Signed() {
      I8? || I16? || I32? || I64?
    }

    /** How many numbers the width can tell apart. */
    function Span(): int {
      match this
      case I8 => 0x100
      case U8 => 0x100
      case I16 => 0x1_0000
      case U16 => 0x1_0000
      case I32 => 0x1_0000_0000
      case U32 => 0x1_0000_0000
      case I64 => 0x1_0000_0000_0000_0000
      case U64 => 0x1_0000_0000_0000_0000
    }

    function Min(): int {
      if Signed() then -(Span() / 2) else 0
    }

    function Max(): int {
      Min() + Span() - 1
    }

    predicate InRange(n: int) {
      Min() <= n <= Max()
    }

    function Bits(): nat {
      match this
      case I8 => 8
      case U8 => 8
      case I16 => 16
      case U16 => 16
      case I32 => 32
      case U32 => 32
      case I64 => 64
      case U64 => 64
    }
  }

  function PowerOfTwo(n: nat): int {
    if n == 0 then 1 else 2 * PowerOfTwo(n - 1)
  }

  lemma EightMore(n: nat)
    ensures PowerOfTwo(n + 8) == 0x100 * PowerOfTwo(n)
  {
    assert PowerOfTwo(n + 3) == 2 * PowerOfTwo(n + 2) == 4 * PowerOfTwo(n + 1) == 8 * PowerOfTwo(n);
    assert PowerOfTwo(n + 6) == 2 * PowerOfTwo(n + 5) == 4 * PowerOfTwo(n + 4) == 8 * PowerOfTwo(n + 3);
    assert PowerOfTwo(n + 8) == 2 * PowerOfTwo(n + 7) == 4 * PowerOfTwo(n + 6);
  }

  /** A width of so many bits holds the numbers they can write, in two's complement if it is signed. */
  lemma WidthHolds(width: IntType)
    ensures width.Span() == PowerOfTwo(width.Bits())
    ensures width.Min() == if width.Signed() then -PowerOfTwo(width.Bits() - 1) else 0
    ensures width.Max() == (if width.Signed() then PowerOfTwo(width.Bits() - 1) else PowerOfTwo(width.Bits())) - 1
  {
    assert PowerOfTwo(7) == 0x80;
    EightMore(7);
    EightMore(15);
    EightMore(23);
    EightMore(31);
    EightMore(39);
    EightMore(47);
    EightMore(55);
    EightMore(8);
    EightMore(16);
    EightMore(24);
    EightMore(32);
    EightMore(40);
    EightMore(48);
    EightMore(56);
  }

  /** Scalars stored as text in a form of their own. */
  datatype TextKind = Uuid | Decimal | Temporal | Network

  /** The stored text of the scalar a text reads as, if it reads as one: upper-case UUIDs, say, are read
      too, and are stored in lower case. The forms themselves are not modelled. */
  type Forms = (TextKind, string) -> Option<string>

  /** What a scalar is stored as reads as that scalar. */
  ghost predicate FormsOk(forms: Forms) {
    forall kind, s :: forms(kind, s).Some? ==> forms(kind, forms(kind, s).value) == forms(kind, s)
  }

  /** A `Text` scalar is known by its stored text. `Record` stands for every shape that never reaches a
      document: records and sparse records. */
  datatype Value =
    | Null
    | Bool(truth: bool)
    | Int(width: IntType, n: int)
    | Str(s: string)
    | Text(kind: TextKind, text: string)
    | Bytes(bytes: seq<bv8>)
    | List(items: seq<Value>)
    | Object(entries: seq<Entry>)
    | Record(fields: seq<Value>)

  datatype Entry = Entry(key: string, value: Value)

  datatype Type = Bool | Int(width: IntType) | Str | Text(kind: TextKind) | Bytes | List(elem: Type) | Object

  /** Every integer in the value is one its width can hold, as all the engine's values are. */
  predicate Ranged(v: Value) {
    match v
    case Int(width, n) => width.InRange(n)
    case List(items) => forall i :: 0 <= i < |items| ==> Ranged(items[i])
    case Object(entries) => forall i :: 0 <= i < |entries| ==> Ranged(entries[i].value)
    case Record(fields) => forall i :: 0 <= i < |fields| ==> Ranged(fields[i])
    case _ => true
  }

  /** Every text scalar outside documents is in the form it is stored in. */
  predicate Canonical(forms: Forms, v: Value) {
    match v
    case Text(kind, text) => forms(kind, text) == Some(text)
    case List(items) => forall i :: 0 <= i < |items| ==> Canonical(forms, items[i])
    case _ => true
  }
}
