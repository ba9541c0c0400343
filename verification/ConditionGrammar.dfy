/** DynamoDB's condition-expression grammar, read by its documented precedence: comparisons, IN,
    BETWEEN and functions bind tightest, then parentheses, NOT, AND and OR. */
module ConditionGrammar {
  import opened Wrappers
  import opened DynamoValue
  import opened FilterAttrs

  datatype Comparator = Eq | Ne | Gt | Ge | Lt | Le

  /** What a comparator says of two values, by their places in the order. */
  predicate Satisfied(op: Comparator, m: int, n: int) {
    match op
    case Eq => m == n
    case Ne => m != n
    case Gt => m > n
    case Ge => m >= n
    case Lt => m < n
    case Le => m <= n
  }

  datatype Function = AttributeExists | AttributeNotExists | BeginsWith | Contains | Size

  datatype Token =
    | Name(placeholder: Placeholder) | Val(placeholder: Placeholder) | Cmp(op: Comparator) | Fn(f: Function)
    | Dot | Comma | LParen | RParen | Between | In | And | Or | Not

  /** An attribute and the map keys below it. */
  datatype DocPath = DocPath(attribute: string, segments: seq<string>)

  datatype Operand = PathOp(path: DocPath) | ValOp(value: Attr) | SizeOp(path: DocPath)

  datatype Atom =
    | Compare(op: Comparator, left: Operand, right: Operand)
    | InRange(x: Operand, low: Operand, high: Operand)
    | OneOf(x: Operand, choices: seq<Operand>)
    | Exists(path: DocPath)
    | NotExists(path: DocPath)
    | StartsWith(path: DocPath, prefix: Operand)
    | Has(path: DocPath, item: Operand)

  /** What the text says: `Group` is a parenthesised OR of ANDs. */
  datatype Cond = Test(atom: Atom) | Negated(c: Cond) | Group(cases: seq<Case>)

  datatype Case = Case(all: seq<Cond>)

  // ---- Meaning ----

  type Interp = Atom -> bool

  predicate Holds(c: Cond, interp: Interp)
    decreases c, 0
  {
    match c
    case Test(atom) => interp(atom)
    case Negated(inner) => !Holds(inner, interp)
    case Group(cases) => SomeCase(cases, interp)
  }

  predicate AllHold(cs: seq<Cond>, interp: Interp)
    decreases cs, 1
  {
    cs == [] || (Holds(cs[0], interp) && AllHold(cs[1..], interp))
  }

  predicate SomeCase(cases: seq<Case>, interp: Interp)
    decreases cases, 2
  {
    cases != [] && (AllHold(cases[0].all, interp) || SomeCase(cases[1..], interp))
  }

  // ---- Parsing, against the finished placeholder tables ----

  function Expect(ts: seq<Token>, t: Token): (rest: Option<seq<Token>>)
    ensures rest.Some? ==> |rest.value| < |ts|
  {
    if ts != [] && ts[0] == t then Some(ts[1..]) else None
  }

  function ParseSegments(f: Attrs, ts: seq<Token>): (r: Option<(seq<string>, seq<Token>)>)
    ensures r.Some? ==> |r.value.1| <= |ts|
  {
    if ts == [] || ts[0] != Dot then Some(([], ts))
    else if |ts| < 2 || !ts[1].Name? || ts[1].placeholder !in f.names then None
    else
      var (more, rest) :- ParseSegments(f, ts[2..]);
      Some(([f.names[ts[1].placeholder]] + more, rest))
  }

  function ParsePath(f: Attrs, ts: seq<Token>): (r: Option<(DocPath, seq<Token>)>)
    ensures r.Some? ==> |r.value.1| < |ts|
  {
    if ts == [] || !ts[0].Name? || ts[0].placeholder !in f.names then None
    else
      var (segments, rest) :- ParseSegments(f, ts[1..]);
      Some((DocPath(f.names[ts[0].placeholder], segments), rest))
  }

  function ParseOperand(f: Attrs, ts: seq<Token>): (r: Option<(Operand, seq<Token>)>)
    ensures r.Some? ==> |r.value.1| < |ts|
  {
    if ts == [] then None
    else if ts[0].Val? then
      if ts[0].placeholder in f.values then Some((ValOp(f.values[ts[0].placeholder]), ts[1..])) else None
    else if ts[0] == Fn(Size) then
      var open :- Expect(ts[1..], LParen);
      var (path, after) :- ParsePath(f, open);
      var rest :- Expect(after, RParen);
      Some((SizeOp(path), rest))
    else
      var (path, rest) :- ParsePath(f, ts);
      Some((PathOp(path), rest))
  }

  /** Operands separated by commas. */
  function ParseChoices(f: Attrs, ts: seq<Token>): (r: Option<(seq<Operand>, seq<Token>)>)
    ensures r.Some? ==> |r.value.1| < |ts|
    decreases |ts|
  {
    var (x, after) :- ParseOperand(f, ts);
    if after != [] && after[0] == Comma then
      var (xs, rest) :- ParseChoices(f, after[1..]);
      Some(([x] + xs, rest))
    else Some(([x], after))
  }

  function ParseCall(f: Attrs, fn: Function, ts: seq<Token>): (r: Option<(Atom, seq<Token>)>)
    ensures r.Some? ==> |r.value.1| < |ts|
  {
    var open :- Expect(ts, LParen);
    var (path, after) :- ParsePath(f, open);
    if fn == AttributeExists || fn == AttributeNotExists then
      var rest :- Expect(after, RParen);
      Some((if fn == AttributeExists then Exists(path) else NotExists(path), rest))
    else if fn == BeginsWith || fn == Contains then
      var next :- Expect(after, Comma);
      var (x, last) :- ParseOperand(f, next);
      var rest :- Expect(last, RParen);
      Some((if fn == BeginsWith then StartsWith(path, x) else Has(path, x), rest))
    else None
  }

  /** What follows the first operand of a comparison, BETWEEN or IN. */
  function ParseTest(f: Attrs, x: Operand, ts: seq<Token>): (r: Option<(Atom, seq<Token>)>)
    ensures r.Some? ==> |r.value.1| < |ts|
  {
    if ts == [] then None
    else if ts[0].Cmp? then
      var (y, rest) :- ParseOperand(f, ts[1..]);
      Some((Compare(ts[0].op, x, y), rest))
    else if ts[0] == Between then
      var (low, after) :- ParseOperand(f, ts[1..]);
      var next :- Expect(after, And);
      var (high, rest) :- ParseOperand(f, next);
      Some((InRange(x, low, high), rest))
    else if ts[0] == In then
      var open :- Expect(ts[1..], LParen);
      var (choices, after) :- ParseChoices(f, open);
      var rest :- Expect(after, RParen);
      Some((OneOf(x, choices), rest))
    else None
  }

  function ParseAtom(f: Attrs, ts: seq<Token>): (r: Option<(Atom, seq<Token>)>)
    ensures r.Some? ==> |r.value.1| < |ts|
  {
    if ts == [] then None
    else if ts[0].Fn? && ts[0].f != Size then ParseCall(f, ts[0].f, ts[1..])
    else
      var (x, after) :- ParseOperand(f, ts);
      ParseTest(f, x, after)
  }

  function ParsePrimary(f: Attrs, ts: seq<Token>): (r: Option<(Cond, seq<Token>)>)
    ensures r.Some? ==> |r.value.1| < |ts|
    decreases |ts|, 0
  {
    if ts != [] && ts[0] == LParen then
      var (cases, after) :- ParseCases(f, ts[1..]);
      var rest :- Expect(after, RParen);
      Some((Group(cases), rest))
    else
      var (atom, rest) :- ParseAtom(f, ts);
      Some((Test(atom), rest))
  }

  function ParseNot(f: Attrs, ts: seq<Token>): (r: Option<(Cond, seq<Token>)>)
    ensures r.Some? ==> |r.value.1| < |ts|
    decreases |ts|, 1
  {
    if ts != [] && ts[0] == Not then
      var (c, rest) :- ParseNot(f, ts[1..]);
      Some((Negated(c), rest))
    else ParsePrimary(f, ts)
  }

  /** Conditions joined by AND. */
  function ParseAll(f: Attrs, ts: seq<Token>): (r: Option<(seq<Cond>, seq<Token>)>)
    ensures r.Some? ==> |r.value.1| < |ts| && r.value.0 != []
    decreases |ts|, 2
  {
    var (c, after) :- ParseNot(f, ts);
    var (cs, rest) :- MoreAll(f, after);
    Some(([c] + cs, rest))
  }

  function MoreAll(f: Attrs, ts: seq<Token>): (r: Option<(seq<Cond>, seq<Token>)>)
    ensures r.Some? ==> |r.value.1| <= |ts|
    decreases |ts|, 3
  {
    if ts != [] && ts[0] == And then ParseAll(f, ts[1..]) else Some(([], ts))
  }

  /** Conjunctions joined by OR. */
  function ParseCases(f: Attrs, ts: seq<Token>): (r: Option<(seq<Case>, seq<Token>)>)
    ensures r.Some? ==> |r.value.1| < |ts|
    decreases |ts|, 4
  {
    var (cs, after) :- ParseAll(f, ts);
    if after != [] && after[0] == Or then
      var (more, rest) :- ParseCases(f, after[1..]);
      Some(([Case(cs)] + more, rest))
    else Some(([Case(cs)], after))
  }

  /** A whole filter expression. */
  function ParseFilter(f: Attrs, ts: seq<Token>): Option<seq<Case>> {
    var (cases, rest) :- ParseCases(f, ts);
    if rest == [] then Some(cases) else None
  }
}
