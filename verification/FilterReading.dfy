/** Token texts that read back, whatever follows them: the pieces a rendered filter is made of. */
module FilterReading {
  import opened Wrappers
  import opened FilterAttrs
  import opened ConditionGrammar

  type Conds = Option<(seq<Cond>, seq<Token>)>

  predicate NoDot(rest: seq<Token>) {
    rest != [] ==> rest[0] != Dot
  }

  /** What may follow a condition. */
  predicate Ends(rest: seq<Token>) {
    rest != [] ==> rest[0] == And || rest[0] == Or || rest[0] == RParen
  }

  predicate Closes(rest: seq<Token>) {
    rest != [] ==> rest[0] == RParen
  }

  ghost predicate ReadsPath(f: Attrs, ts: seq<Token>, path: DocPath) {
    && ts != [] && ts[0].Name?
    && forall rest | NoDot(rest) :: ParsePath(f, ts + rest) == Some((path, rest))
  }

  /** The text is one operand. */
  ghost predicate ReadsOperand(f: Attrs, ts: seq<Token>, x: Operand) {
    && ts != [] && (ts[0].Name? || ts[0].Val? || ts[0] == Fn(Size))
    && forall rest | NoDot(rest) :: ParseOperand(f, ts + rest) == Some((x, rest))
  }

  ghost predicate ReadsChoices(f: Attrs, ts: seq<Token>, xs: seq<Operand>) {
    forall rest | rest != [] && rest[0] == RParen :: ParseChoices(f, ts + rest) == Some((xs, rest))
  }

  /** The text is one comparison, BETWEEN, IN or function call. */
  ghost predicate ReadsAtom(f: Attrs, ts: seq<Token>, atom: Atom) {
    && ts != [] && ts[0] != LParen && ts[0] != Not
    && forall rest | Ends(rest) :: ParseAtom(f, ts + rest) == Some((atom, rest))
  }

  function Prepend(cs: seq<Cond>, r: Conds): Conds {
    match r
    case None => None
    case Some((more, rest)) => Some((cs + more, rest))
  }

  /** The text reads as these conditions joined by AND, and what follows may join more. */
  ghost predicate ReadsAll(f: Attrs, ts: seq<Token>, cs: seq<Cond>) {
    && cs != []
    && forall rest | Ends(rest) :: ParseAll(f, ts + rest) == Prepend(cs, MoreAll(f, rest))
  }

  ghost predicate ReadsCases(f: Attrs, ts: seq<Token>, cases: seq<Case>) {
    forall rest | Closes(rest) :: ParseCases(f, ts + rest) == Some((cases, rest))
  }

  // ---- Operands ----

  lemma ValueReads(f: Attrs, p: Placeholder)
    requires p in f.values
    ensures ReadsOperand(f, [Val(p)], ValOp(f.values[p]))
  {
    forall rest | NoDot(rest)
      ensures ParseOperand(f, [Val(p)] + rest) == Some((ValOp(f.values[p]), rest))
    {
      assert ([Val(p)] + rest)[1..] == rest;
    }
  }

  lemma PathIsOperand(f: Attrs, ts: seq<Token>, path: DocPath)
    requires ReadsPath(f, ts, path)
    ensures ReadsOperand(f, ts, PathOp(path))
  {
    forall rest | NoDot(rest)
      ensures ParseOperand(f, ts + rest) == Some((PathOp(path), rest))
    {
      assert (ts + rest)[0] == ts[0];
      assert ParsePath(f, ts + rest) == Some((path, rest));
    }
  }

  /** `fn(path)`, cut after the opening parenthesis. */
  lemma CallOpens(fn: Function, ts: seq<Token>, rest: seq<Token>)
    ensures
      var text := [Fn(fn), LParen] + ts + [RParen];
      (text + rest)[1..] == [LParen] + (ts + ([RParen] + rest)) && (text + rest)[0] == Fn(fn)
  {
  }

  lemma SizeReads(f: Attrs, ts: seq<Token>, path: DocPath)
    requires ReadsPath(f, ts, path)
    ensures ReadsOperand(f, [Fn(Size), LParen] + ts + [RParen], SizeOp(path))
  {
    var text := [Fn(Size), LParen] + ts + [RParen];
    forall rest | NoDot(rest)
      ensures ParseOperand(f, text + rest) == Some((SizeOp(path), rest))
    {
      CallOpens(Size, ts, rest);
      var tail := [RParen] + rest;
      assert ([LParen] + (ts + tail))[1..] == ts + tail;
      assert ParsePath(f, ts + tail) == Some((path, tail));
      assert tail[1..] == rest;
    }
  }

  type Segments = Option<(seq<string>, seq<Token>)>

  function More(names: seq<string>, r: Segments): Segments {
    match r
    case None => None
    case Some((more, rest)) => Some((names + more, rest))
  }

  lemma MoreNothing(r: Segments)
    ensures More([], r) == r
  {
    if r.Some? {
      assert [] + r.value.0 == r.value.0;
    }
  }

  lemma MoreTwice(names: seq<string>, name: string, r: Segments)
    ensures More(names, More([name], r)) == More(names + [name], r)
  {
    if r.Some? {
      assert names + ([name] + r.value.0) == names + [name] + r.value.0;
    }
  }

  lemma SegmentsRead(f: Attrs, name: string, p: Placeholder, rest: seq<Token>)
    requires p in f.names && f.names[p] == name
    ensures ParseSegments(f, [Dot, Name(p)] + rest) == More([name], ParseSegments(f, rest))
  {
    assert ([Dot, Name(p)] + rest)[2..] == rest;
  }

  // ---- Atoms ----

  lemma Regroup(a: seq<Token>, b: seq<Token>, c: seq<Token>, d: seq<Token>)
    ensures a + b + c + d == a + (b + (c + d))
  {
  }

  /** An atom that starts with an operand goes on by what follows it. */
  lemma OperandThenTest(f: Attrs, ts: seq<Token>, x: Operand, tail: seq<Token>)
    requires ReadsOperand(f, ts, x) && NoDot(tail)
    ensures ParseAtom(f, ts + tail) == ParseTest(f, x, tail)
  {
    assert (ts + tail)[0] == ts[0];
    assert ParseOperand(f, ts + tail) == Some((x, tail));
  }

  /** One expected token and then an operand. */
  lemma TokenThenOperand(f: Attrs, t: Token, ts: seq<Token>, x: Operand, rest: seq<Token>)
    requires ReadsOperand(f, ts, x) && NoDot(rest)
    ensures
      var text := [t] + (ts + rest);
      && text != [] && text[0] == t && Expect(text, t) == Some(text[1..])
      && ParseOperand(f, text[1..]) == Some((x, rest))
  {
    assert ([t] + (ts + rest))[1..] == ts + rest;
  }

  lemma ReadsAtomIf(f: Attrs, head: seq<Token>, mid: seq<Token>, end: seq<Token>, atom: Atom)
    requires head != [] && head[0] != LParen && head[0] != Not
    requires forall rest | Ends(rest) :: ParseAtom(f, head + (mid + (end + rest))) == Some((atom, rest))
    ensures ReadsAtom(f, head + mid + end, atom)
  {
    forall rest | Ends(rest)
      ensures ParseAtom(f, head + mid + end + rest) == Some((atom, rest))
    {
      Regroup(head, mid, end, rest);
    }
  }

  lemma CompareReads(f: Attrs, left: seq<Token>, x: Operand, op: Comparator, right: seq<Token>, y: Operand)
    requires ReadsOperand(f, left, x) && ReadsOperand(f, right, y)
    ensures ReadsAtom(f, left + [Cmp(op)] + right, Compare(op, x, y))
  {
    forall rest | Ends(rest)
      ensures ParseAtom(f, left + ([Cmp(op)] + (right + rest))) == Some((Compare(op, x, y), rest))
    {
      TokenThenOperand(f, Cmp(op), right, y, rest);
      OperandThenTest(f, left, x, [Cmp(op)] + (right + rest));
    }
    ReadsAtomIf(f, left, [Cmp(op)], right, Compare(op, x, y));
  }

  lemma BetweenReads(
    f: Attrs, field: seq<Token>, x: Operand, from: seq<Token>, low: Operand, to: seq<Token>, high: Operand)
    requires ReadsOperand(f, field, x) && ReadsOperand(f, from, low) && ReadsOperand(f, to, high)
    ensures ReadsAtom(f, field + ([Between] + from) + ([And] + to), InRange(x, low, high))
  {
    forall rest | Ends(rest)
      ensures ParseAtom(f, field + (([Between] + from) + (([And] + to) + rest))) == Some((InRange(x, low, high), rest))
    {
      BetweenTest(f, x, from, low, to, high, rest);
      OperandThenTest(f, field, x, ([Between] + from) + (([And] + to) + rest));
    }
    ReadsAtomIf(f, field, [Between] + from, [And] + to, InRange(x, low, high));
  }

  lemma BetweenTest(
    f: Attrs, x: Operand, from: seq<Token>, low: Operand, to: seq<Token>, high: Operand, rest: seq<Token>)
    requires ReadsOperand(f, from, low) && ReadsOperand(f, to, high) && Ends(rest)
    ensures ParseTest(f, x, ([Between] + from) + (([And] + to) + rest)) == Some((InRange(x, low, high), rest))
  {
    var last := ([And] + to) + rest;
    assert last == [And] + (to + rest);
    TokenThenOperand(f, And, to, high, rest);
    assert ([Between] + from) + last == [Between] + (from + last);
    TokenThenOperand(f, Between, from, low, last);
  }

  lemma InReads(f: Attrs, field: seq<Token>, x: Operand, list: seq<Token>, xs: seq<Operand>)
    requires ReadsOperand(f, field, x) && ReadsChoices(f, list, xs)
    ensures ReadsAtom(f, field + ([In, LParen] + list) + [RParen], OneOf(x, xs))
  {
    forall rest | Ends(rest)
      ensures ParseAtom(f, field + (([In, LParen] + list) + ([RParen] + rest))) == Some((OneOf(x, xs), rest))
    {
      InTest(f, x, list, xs, rest);
      OperandThenTest(f, field, x, ([In, LParen] + list) + ([RParen] + rest));
    }
    ReadsAtomIf(f, field, [In, LParen] + list, [RParen], OneOf(x, xs));
  }

  lemma InTest(f: Attrs, x: Operand, list: seq<Token>, xs: seq<Operand>, rest: seq<Token>)
    requires ReadsChoices(f, list, xs)
    ensures ParseTest(f, x, ([In, LParen] + list) + ([RParen] + rest)) == Some((OneOf(x, xs), rest))
  {
    var last := [RParen] + rest;
    TwoTokens(In, LParen, list, last);
    Peel(In, [LParen] + (list + last));
    Peel(LParen, list + last);
    Peel(RParen, rest);
    assert ParseChoices(f, list + last) == Some((xs, last));
  }

  lemma Peel(t: Token, rest: seq<Token>)
    ensures ([t] + rest)[0] == t && ([t] + rest)[1..] == rest
  {
  }

  lemma TwoTokens(s: Token, t: Token, ts: seq<Token>, rest: seq<Token>)
    ensures ([s, t] + ts) + rest == [s] + ([t] + (ts + rest))
  {
  }

  lemma PresenceReads(f: Attrs, fn: Function, ts: seq<Token>, path: DocPath)
    requires ReadsPath(f, ts, path) && (fn == AttributeExists || fn == AttributeNotExists)
    ensures ReadsAtom(f, [Fn(fn), LParen] + ts + [RParen],
      if fn == AttributeExists then Exists(path) else NotExists(path))
  {
    var text := [Fn(fn), LParen] + ts + [RParen];
    forall rest | Ends(rest)
      ensures ParseAtom(f, text + rest) ==
        Some((if fn == AttributeExists then Exists(path) else NotExists(path), rest))
    {
      CallOpens(fn, ts, rest);
      var tail := [RParen] + rest;
      assert ([LParen] + (ts + tail))[1..] == ts + tail;
      assert ParsePath(f, ts + tail) == Some((path, tail));
      assert tail[1..] == rest;
    }
  }

  lemma CallReads(f: Attrs, fn: Function, ts: seq<Token>, path: DocPath, arg: seq<Token>, x: Operand)
    requires ReadsPath(f, ts, path) && ReadsOperand(f, arg, x) && (fn == BeginsWith || fn == Contains)
    ensures ReadsAtom(f, ([Fn(fn), LParen] + ts) + ([Comma] + arg) + [RParen], CallOf(fn, path, x))
  {
    forall rest | Ends(rest)
      ensures
        ParseAtom(f, ([Fn(fn), LParen] + ts) + (([Comma] + arg) + ([RParen] + rest))) ==
        Some((CallOf(fn, path, x), rest))
    {
      CallTail(f, fn, ts, path, arg, x, [RParen] + rest);
    }
    ReadsAtomIf(f, [Fn(fn), LParen] + ts, [Comma] + arg, [RParen], CallOf(fn, path, x));
  }

  function CallOf(fn: Function, path: DocPath, x: Operand): Atom {
    if fn == BeginsWith then StartsWith(path, x) else Has(path, x)
  }

  lemma CallTail(
      f: Attrs, fn: Function, ts: seq<Token>, path: DocPath, arg: seq<Token>, x: Operand, last: seq<Token>)
    requires ReadsPath(f, ts, path) && ReadsOperand(f, arg, x) && (fn == BeginsWith || fn == Contains)
    requires last != [] && last[0] == RParen
    ensures
      ParseAtom(f, ([Fn(fn), LParen] + ts) + (([Comma] + arg) + last)) == Some((CallOf(fn, path, x), last[1..]))
  {
    var next := ([Comma] + arg) + last;
    TwoTokens(Fn(fn), LParen, ts, next);
    Peel(Fn(fn), [LParen] + (ts + next));
    Peel(LParen, ts + next);
    assert ParsePath(f, ts + next) == Some((path, next));
    assert next == [Comma] + (arg + last);
    TokenThenOperand(f, Comma, arg, x, last);
  }

  // ---- Conditions ----

  lemma AtomReads(f: Attrs, ts: seq<Token>, atom: Atom)
    requires ReadsAtom(f, ts, atom)
    ensures ReadsAll(f, ts, [Test(atom)])
  {
    forall rest | Ends(rest)
      ensures ParseAll(f, ts + rest) == Prepend([Test(atom)], MoreAll(f, rest))
    {
      assert (ts + rest)[0] == ts[0];
      assert ParseAtom(f, ts + rest) == Some((atom, rest));
      assert ParsePrimary(f, ts + rest) == Some((Test(atom), rest));
    }
  }

  lemma GroupReads(f: Attrs, ts: seq<Token>, cases: seq<Case>)
    requires ReadsCases(f, ts, cases)
    ensures ReadsAll(f, [LParen] + ts + [RParen], [Group(cases)])
  {
    var text := [LParen] + ts + [RParen];
    forall rest | Ends(rest)
      ensures ParseAll(f, text + rest) == Prepend([Group(cases)], MoreAll(f, rest))
    {
      var tail := [RParen] + rest;
      assert text + rest == [LParen] + (ts + tail);
      assert (text + rest)[1..] == ts + tail;
      assert ParseCases(f, ts + tail) == Some((cases, tail));
      assert tail[1..] == rest;
      assert ParsePrimary(f, text + rest) == Some((Group(cases), rest));
    }
  }

  lemma AllIsCase(f: Attrs, ts: seq<Token>, cs: seq<Cond>)
    requires ReadsAll(f, ts, cs)
    ensures ReadsCases(f, ts, [Case(cs)])
  {
    forall rest | Closes(rest)
      ensures ParseCases(f, ts + rest) == Some(([Case(cs)], rest))
    {
      assert ParseAll(f, ts + rest) == Prepend(cs, MoreAll(f, rest));
      assert cs + [] == cs;
    }
  }

  /** NOT binds tighter than AND: it takes the first of the conditions that follow, and no more. */
  lemma NotReads(f: Attrs, ts: seq<Token>, cs: seq<Cond>)
    requires ReadsAll(f, ts, cs)
    ensures ReadsCases(f, [Not] + ts, [Case([Negated(cs[0])] + cs[1..])])
  {
    var negated := [Negated(cs[0])] + cs[1..];
    forall rest | Closes(rest)
      ensures ParseCases(f, [Not] + ts + rest) == Some(([Case(negated)], rest))
    {
      assert ParseAll(f, ts + rest) == Prepend(cs, MoreAll(f, rest));
      assert cs + [] == cs;
      var text := [Not] + ts + rest;
      assert text[1..] == ts + rest;
      var (c, after) := ParseNot(f, ts + rest).value;
      var (more, end) := MoreAll(f, after).value;
      assert [c] + more == cs && more == cs[1..] && end == rest;
      assert ParseNot(f, text) == Some((Negated(c), after));
      assert ParseAll(f, text) == Some((negated, rest));
    }
  }

  // ---- Joined lists ----

  /** `join`: the parts with a separator between. */
  function Join(parts: seq<seq<Token>>, separator: Token): seq<Token> {
    if parts == [] then []
    else if |parts| == 1 then parts[0]
    else parts[0] + ([separator] + Join(parts[1..], separator))
  }

  lemma JoinThen(parts: seq<seq<Token>>, separator: Token, rest: seq<Token>)
    requires |parts| > 1
    ensures
      Join(parts, separator) + rest == parts[0] + ([separator] + (Join(parts[1..], separator) + rest))
  {
  }

  lemma ChoiceThenMore(f: Attrs, part: seq<Token>, x: Operand, more: seq<Token>, xs: seq<Operand>, rest: seq<Token>)
    requires ReadsOperand(f, part, x) && ParseChoices(f, more) == Some((xs, rest))
    ensures ParseChoices(f, part + ([Comma] + more)) == Some(([x] + xs, rest))
  {
    var tail := [Comma] + more;
    Peel(Comma, more);
    assert ParseOperand(f, part + tail) == Some((x, tail));
  }

  lemma LastChoice(f: Attrs, part: seq<Token>, x: Operand, rest: seq<Token>)
    requires ReadsOperand(f, part, x) && rest != [] && rest[0] == RParen
    ensures ParseChoices(f, part + rest) == Some(([x], rest))
  {
    assert ParseOperand(f, part + rest) == Some((x, rest));
  }

  lemma {:induction false} ChoicesRead(f: Attrs, parts: seq<seq<Token>>, xs: seq<Operand>)
    requires |parts| == |xs| > 0
    requires forall k :: 0 <= k < |parts| ==> ReadsOperand(f, parts[k], xs[k])
    ensures ReadsChoices(f, Join(parts, Comma), xs)
  {
    if |parts| > 1 {
      ChoicesRead(f, parts[1..], xs[1..]);
    }
    forall rest | rest != [] && rest[0] == RParen
      ensures ParseChoices(f, Join(parts, Comma) + rest) == Some((xs, rest))
    {
      if |parts| == 1 {
        LastChoice(f, parts[0], xs[0], rest);
        assert xs == [xs[0]];
      } else {
        JoinThen(parts, Comma, rest);
        ChoiceThenMore(f, parts[0], xs[0], Join(parts[1..], Comma) + rest, xs[1..], rest);
        assert xs == [xs[0]] + xs[1..];
      }
    }
  }

  /** Several lists of conditions, end to end. */
  function Flat(groups: seq<seq<Cond>>): seq<Cond> {
    if groups == [] then [] else groups[0] + Flat(groups[1..])
  }

  lemma PrependTwice(cs: seq<Cond>, more: seq<Cond>, r: Conds)
    ensures Prepend(cs, Prepend(more, r)) == Prepend(cs + more, r)
  {
    if r.Some? {
      assert cs + (more + r.value.0) == cs + more + r.value.0;
    }
  }

  /** Texts joined by AND read as all their conditions. */
  lemma {:induction false} AllRead(f: Attrs, parts: seq<seq<Token>>, groups: seq<seq<Cond>>)
    requires |parts| == |groups| > 0
    requires forall k :: 0 <= k < |parts| ==> ReadsAll(f, parts[k], groups[k])
    ensures ReadsAll(f, Join(parts, And), Flat(groups))
  {
    assert ReadsAll(f, parts[0], groups[0]);
    if |parts| == 1 {
      assert Flat(groups[1..]) == [];
      assert Flat(groups) == groups[0];
    } else {
      AllRead(f, parts[1..], groups[1..]);
      forall rest | Ends(rest)
        ensures ParseAll(f, Join(parts, And) + rest) == Prepend(Flat(groups), MoreAll(f, rest))
      {
        JoinThen(parts, And, rest);
        var more := Join(parts[1..], And) + rest;
        Peel(And, more);
        assert ParseAll(f, more) == Prepend(Flat(groups[1..]), MoreAll(f, rest));
        assert ParseAll(f, parts[0] + ([And] + more)) == Prepend(groups[0], MoreAll(f, [And] + more));
        PrependTwice(groups[0], Flat(groups[1..]), MoreAll(f, rest));
      }
    }
  }

  function Cases(groups: seq<seq<Cond>>): (cases: seq<Case>)
    ensures |cases| == |groups|
    ensures forall k :: 0 <= k < |cases| ==> cases[k] == Case(groups[k])
  {
    seq(|groups|, k requires 0 <= k < |groups| => Case(groups[k]))
  }

  /** Texts joined by OR read as one case each. */
  lemma {:induction false} CasesRead(f: Attrs, parts: seq<seq<Token>>, groups: seq<seq<Cond>>)
    requires |parts| == |groups| > 0
    requires forall k :: 0 <= k < |parts| ==> ReadsAll(f, parts[k], groups[k])
    ensures ReadsCases(f, Join(parts, Or), Cases(groups))
  {
    assert ReadsAll(f, parts[0], groups[0]);
    if |parts| == 1 {
      AllIsCase(f, parts[0], groups[0]);
      assert Cases(groups) == [Case(groups[0])];
    } else {
      CasesRead(f, parts[1..], groups[1..]);
      forall rest | Closes(rest)
        ensures ParseCases(f, Join(parts, Or) + rest) == Some((Cases(groups), rest))
      {
        JoinThen(parts, Or, rest);
        var more := Join(parts[1..], Or) + rest;
        Peel(Or, more);
        assert ParseAll(f, parts[0] + ([Or] + more)) == Prepend(groups[0], MoreAll(f, [Or] + more));
        assert groups[0] + [] == groups[0];
        assert ParseCases(f, more) == Some((Cases(groups[1..]), rest));
        assert Cases(groups) == [Case(groups[0])] + Cases(groups[1..]);
      }
    }
  }
}
