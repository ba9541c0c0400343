/** How the schema diff pairs previous items with next ones: by rename hint, else by name. One
    definition for tables, columns and indices. */
module RenameMatching {
  import opened Wrappers

  datatype Item<I> = Item(id: I, name: string)

  predicate DistinctItems<I(==)>(items: seq<Item<I>>) {
    forall i, j :: 0 <= i < j < |items| ==> items[i].name != items[j].name && items[i].id != items[j].id
  }

  predicate HasId<I(==)>(items: seq<Item<I>>, id: I) {
    exists i :: 0 <= i < |items| && items[i].id == id
  }

  /** The item of a name; the later one where two share it. */
  function NamedIn<I>(items: seq<Item<I>>, name: string): (id: Option<I>) {
    if items == [] then None
    else if items[|items| - 1].name == name then Some(items[|items| - 1].id)
    else NamedIn(items[..|items| - 1], name)
  }

  /** What a previous item has become. */
  function Target<I(==)>(hints: map<I, I>, next: seq<Item<I>>, p: Item<I>): Option<I> {
    if p.id in hints then Some(hints[p.id]) else NamedIn(next, p.name)
  }

  predicate Taken<I(==)>(hints: map<I, I>, previous: seq<Item<I>>, next: seq<Item<I>>, id: I) {
    exists i :: 0 <= i < |previous| && Target(hints, next, previous[i]) == Some(id)
  }

  /** Different previous items have become different next ones. */
  predicate Matched<I(==)>(hints: map<I, I>, previous: seq<Item<I>>, next: seq<Item<I>>) {
    && (forall i :: 0 <= i < |previous| && Target(hints, next, previous[i]).Some?
          ==> HasId(next, Target(hints, next, previous[i]).value))
    && (forall i, j :: 0 <= i < j < |previous| && Target(hints, next, previous[i]).Some?
          ==> Target(hints, next, previous[i]) != Target(hints, next, previous[j]))
  }

  lemma {:induction false} NamedInFinds<I>(items: seq<Item<I>>, name: string)
    ensures
      var id := NamedIn(items, name);
      && (id.Some? ==> exists i :: 0 <= i < |items| && items[i] == Item(id.value, name))
      && (id.None? ==> forall i :: 0 <= i < |items| ==> items[i].name != name)
  {
    if items != [] {
      NamedInFinds(items[..|items| - 1], name);
      if items[|items| - 1].name == name {
        assert items[|items| - 1] == Item(NamedIn(items, name).value, name);
      }
    }
  }

  /** An item has become what its hint says, and without one the item of its name, if there is one. */
  lemma TargetExactly<I>(hints: map<I, I>, next: seq<Item<I>>, p: Item<I>, id: I)
    requires DistinctItems(next)
    ensures Target(hints, next, p) == Some(id)
       <==> if p.id in hints then hints[p.id] == id else exists k :: 0 <= k < |next| && next[k] == Item(id, p.name)
  {
    NamedInFinds(next, p.name);
  }

  /** Names alone match different items differently. */
  lemma NamesMatch<I(!new)>(hints: map<I, I>, previous: seq<Item<I>>, next: seq<Item<I>>)
    requires DistinctItems(previous) && DistinctItems(next)
    requires forall i :: 0 <= i < |previous| ==> previous[i].id !in hints
    ensures Matched(hints, previous, next)
  {
    forall i | 0 <= i < |previous|
      ensures Target(hints, next, previous[i]).Some? ==>
        exists k :: 0 <= k < |next| && next[k] == Item(Target(hints, next, previous[i]).value, previous[i].name)
    {
      NamedInFinds(next, previous[i].name);
    }
  }

  /** A hint from a dropped item to a created one keeps the matching one-to-one, and changes no other
      item's target. */
  lemma HintKeepsMatched<I(!new)>(
      hints: map<I, I>, previous: seq<Item<I>>, next: seq<Item<I>>, d: nat, to: I)
    requires DistinctItems(previous) && Matched(hints, previous, next)
    requires d < |previous| && Target(hints, next, previous[d]) == None
    requires HasId(next, to) && !Taken(hints, previous, next, to)
    ensures Matched(hints[previous[d].id := to], previous, next)
    ensures Target(hints[previous[d].id := to], next, previous[d]) == Some(to)
    ensures forall i :: 0 <= i < |previous| && i != d ==>
      Target(hints[previous[d].id := to], next, previous[i]) == Target(hints, next, previous[i])
  {
    var more := hints[previous[d].id := to];
    forall i | 0 <= i < |previous| && i != d
      ensures Target(more, next, previous[i]) == Target(hints, next, previous[i]) != Some(to)
    {
      assert i < d ==> previous[i].id != previous[d].id;
      assert d < i ==> previous[d].id != previous[i].id;
    }
  }

  /** Hints about other items do not matter. */
  lemma OtherHintsMatched<I>(hints: map<I, I>, more: map<I, I>, previous: seq<Item<I>>, next: seq<Item<I>>)
    requires forall i :: 0 <= i < |previous| ==>
      (previous[i].id in hints <==> previous[i].id in more)
      && (previous[i].id in hints ==> hints[previous[i].id] == more[previous[i].id])
    ensures Matched(hints, previous, next) <==> Matched(more, previous, next)
    ensures forall i :: 0 <= i < |previous| ==> Target(hints, next, previous[i]) == Target(more, next, previous[i])
  {
    assert forall i :: 0 <= i < |previous| ==> Target(hints, next, previous[i]) == Target(more, next, previous[i]);
  }

  // ---- Questions ----

  /** A previous item that would be dropped and that the user has not confirmed as such. */
  predicate OpenDrop<I(==)>(hints: map<I, I>, next: seq<Item<I>>, ignored: set<I>, p: Item<I>) {
    Target(hints, next, p) == None && p.id !in ignored
  }

  /** Nothing left to ask: no open drop, or nothing it could have been renamed to. */
  predicate Settled<I(==)>(hints: map<I, I>, previous: seq<Item<I>>, next: seq<Item<I>>, ignored: set<I>) {
    || (forall i :: 0 <= i < |previous| ==> !OpenDrop(hints, next, ignored, previous[i]))
    || (forall k :: 0 <= k < |next| ==> Taken(hints, previous, next, next[k].id))
  }

  /** The created items: those nothing previous has become. */
  function Created<I(==)>(hints: map<I, I>, previous: seq<Item<I>>, next: seq<Item<I>>): set<I> {
    set k | 0 <= k < |next| && !Taken(hints, previous, next, next[k].id) :: next[k].id
  }

  /** What the user selects when asked about an item: a rename to one of the created items offered, or `None`
      for the item being dropped. */
  type Answers<!I(!new)> = answers: (I, set<I>) -> Option<I> |
    forall item, offered :: answers(item, offered).Some? ==> answers(item, offered).value in offered
    witness (item, offered) => None

  datatype Question<I> = Question(item: I, answer: Option<I>)

  /** The items among the first `n` questions that are to be dropped. */
  function Drops<I(==)>(asked: seq<Question<I>>, n: nat): set<I>
    requires n <= |asked|
  {
    set i | 0 <= i < n && asked[i].answer == None :: asked[i].item
  }

  /** The question is about the first open drop, there is something to rename it to, and the answer is the
      user's. */
  predicate QuestionRight<I(==, !new)>(
    answers: Answers<I>, hints: map<I, I>, previous: seq<Item<I>>, next: seq<Item<I>>, ignored: set<I>,
    q: Question<I>)
  {
    && Created(hints, previous, next) != {}
    && (exists p :: 0 <= p < |previous| && previous[p].id == q.item && FirstOpen(hints, previous, next, ignored, p))
    && q.answer == answers(q.item, Created(hints, previous, next))
  }

  predicate FirstOpen<I(==)>(hints: map<I, I>, previous: seq<Item<I>>, next: seq<Item<I>>, ignored: set<I>, p: nat)
    requires p < |previous|
  {
    && OpenDrop(hints, next, ignored, previous[p])
    && forall j :: 0 <= j < p ==> !OpenDrop(hints, next, ignored, previous[j])
  }

  /** Every question is right at its turn, and only the last one may be answered with a rename. */
  predicate RoundRight<I(==, !new)>(
    answers: Answers<I>, hints: map<I, I>, previous: seq<Item<I>>, next: seq<Item<I>>, ignored: set<I>,
    asked: seq<Question<I>>)
  {
    forall i :: 0 <= i < |asked| ==>
      && QuestionRight(answers, hints, previous, next, ignored + Drops(asked, i), asked[i])
      && (i + 1 < |asked| ==> asked[i].answer == None)
  }

  /** The rename the round ended with, if any. */
  function RenameOf<I>(asked: seq<Question<I>>): Option<(I, I)> {
    if asked == [] || asked[|asked| - 1].answer.None? then None
    else Some((asked[|asked| - 1].item, asked[|asked| - 1].answer.value))
  }

  /** A rename that was answered is from a dropped item to a created one. */
  lemma RenameFounded<I(!new)>(
    answers: Answers<I>, hints: map<I, I>, previous: seq<Item<I>>, next: seq<Item<I>>, ignored: set<I>,
    q: Question<I>) returns (d: nat)
    requires QuestionRight(answers, hints, previous, next, ignored, q) && q.answer.Some?
    ensures d < |previous| && previous[d].id == q.item && Target(hints, next, previous[d]) == None
    ensures HasId(next, q.answer.value) && !Taken(hints, previous, next, q.answer.value)
  {
    d :| d < |previous| && previous[d].id == q.item && FirstOpen(hints, previous, next, ignored, d);
    assert q.answer.value in Created(hints, previous, next);
  }

  /** Where the open drops are, in order. */
  ghost predicate OpenAt<I>(
    hints: map<I, I>, previous: seq<Item<I>>, next: seq<Item<I>>, ignored: set<I>, open: seq<Item<I>>, at: seq<nat>,
    n: nat)
    requires n <= |previous|
  {
    && |at| == |open|
    && (forall i :: 0 <= i < |at| ==>
          at[i] < n && open[i] == previous[at[i]] && OpenDrop(hints, next, ignored, open[i]))
    && (forall i, j :: 0 <= i < j < |at| ==> at[i] < at[j])
    && (forall p :: 0 <= p < n && OpenDrop(hints, next, ignored, previous[p]) ==> p in at)
  }

  method OpenDrops<I(==)>(hints: map<I, I>, previous: seq<Item<I>>, next: seq<Item<I>>, ignored: set<I>)
      returns (open: seq<Item<I>>, ghost at: seq<nat>)
    ensures OpenAt(hints, previous, next, ignored, open, at, |previous|)
    ensures forall p :: p in open <==> p in previous && OpenDrop(hints, next, ignored, p)
  {
    open, at := [], [];
    for n := 0 to |previous|
      invariant OpenAt(hints, previous, next, ignored, open, at, n)
    {
      if Target(hints, next, previous[n]) == None && previous[n].id !in ignored {
        open, at := open + [previous[n]], at + [n];
      }
    }
    forall p
      ensures p in open <==> p in previous && OpenDrop(hints, next, ignored, p)
    {
      OpenAreThose(hints, previous, next, ignored, open, at, p);
    }
  }

  lemma OpenAreThose<I>(
    hints: map<I, I>, previous: seq<Item<I>>, next: seq<Item<I>>, ignored: set<I>, open: seq<Item<I>>, at: seq<nat>,
    p: Item<I>)
    requires OpenAt(hints, previous, next, ignored, open, at, |previous|)
    ensures p in open <==> p in previous && OpenDrop(hints, next, ignored, p)
  {
    if p in previous && OpenDrop(hints, next, ignored, p) {
      var k: nat :| k < |previous| && previous[k] == p;
      var i :| 0 <= i < |at| && at[i] == k;
      assert open[i] == p;
    }
  }

  /** The ids nothing previous has become, as the diff finds them: all of them, less those taken. */
  method CreatedIds<I(==)>(hints: map<I, I>, previous: seq<Item<I>>, next: seq<Item<I>>)
      returns (created: set<I>)
    ensures created == Created(hints, previous, next)
    ensures forall id :: id in created <==> HasId(next, id) && !Taken(hints, previous, next, id)
  {
    created := set k | 0 <= k < |next| :: next[k].id;
    for n := 0 to |previous|
      invariant forall id :: id in created <==>
        HasId(next, id) && forall i :: 0 <= i < n ==> Target(hints, next, previous[i]) != Some(id)
    {
      var target := Target(hints, next, previous[n]);
      if target.Some? {
        created := created - {target.value};
      }
    }
  }

  /** The open drop that comes next, once those before it have been answered with a drop. */
  lemma NextIsFirst<I>(
    hints: map<I, I>, previous: seq<Item<I>>, next: seq<Item<I>>, ignored: set<I>, open: seq<Item<I>>, at: seq<nat>,
    asked: seq<Question<I>>)
    requires OpenAt(hints, previous, next, ignored, open, at, |previous|) && |asked| < |open|
    requires DistinctItems(previous) && AskedInTurn(open, asked)
    ensures FirstOpen(hints, previous, next, ignored + Drops(asked, |asked|), at[|asked|])
  {
    var p := at[|asked|];
    forall j | 0 <= j < p
      ensures !OpenDrop(hints, next, ignored + Drops(asked, |asked|), previous[j])
    {
      if OpenDrop(hints, next, ignored, previous[j]) {
        var i :| 0 <= i < |at| && at[i] == j;
        assert i < |asked|;
        assert asked[i].item == previous[j].id;
      }
    }
  }

  lemma OneMoreQuestion<I(!new)>(
    answers: Answers<I>, hints: map<I, I>, previous: seq<Item<I>>, next: seq<Item<I>>, ignored: set<I>,
    asked: seq<Question<I>>, q: Question<I>)
    requires RoundRight(answers, hints, previous, next, ignored, asked)
    requires forall i :: 0 <= i < |asked| ==> asked[i].answer == None
    requires QuestionRight(answers, hints, previous, next, ignored + Drops(asked, |asked|), q)
    ensures RoundRight(answers, hints, previous, next, ignored, asked + [q])
    ensures Drops(asked + [q], |asked| + 1) == Drops(asked, |asked|) + if q.answer == None then {q.item} else {}
  {
    var all := asked + [q];
    assert all[|asked|] == q;
    forall i | 0 <= i <= |asked|
      ensures Drops(all, i) == Drops(asked, i)
    {
      assert forall k :: 0 <= k < i ==> all[k] == asked[k];
      assert Drops(all, i) <= Drops(asked, i) <= Drops(all, i);
    }
  }

  /** The open drops in turn: the next question is right too. */
  lemma NextQuestion<I(!new)>(
    answers: Answers<I>, hints: map<I, I>, previous: seq<Item<I>>, next: seq<Item<I>>, ignored: set<I>,
    open: seq<Item<I>>, at: seq<nat>, asked: seq<Question<I>>, q: Question<I>)
    requires DistinctItems(previous) && OpenAt(hints, previous, next, ignored, open, at, |previous|)
    requires |asked| < |open| && AskedInTurn(open, asked) && RoundRight(answers, hints, previous, next, ignored, asked)
    requires Created(hints, previous, next) != {}
    requires q == Question(open[|asked|].id, answers(open[|asked|].id, Created(hints, previous, next)))
    ensures RoundRight(answers, hints, previous, next, ignored, asked + [q])
    ensures q.answer == None ==> AskedInTurn(open, asked + [q])
    ensures Settling(ignored, asked + [q]) == Settling(ignored, asked) + if q.answer == None then {q.item} else {}
    ensures RenameOf(asked + [q]) == if q.answer.Some? then Some((q.item, q.answer.value)) else None
  {
    NextIsFirst(hints, previous, next, ignored, open, at, asked);
    OneMoreQuestion(answers, hints, previous, next, ignored, asked, q);
  }

  /** What is settled after the questions. */
  function Settling<I(==)>(ignored: set<I>, asked: seq<Question<I>>): set<I> {
    ignored + Drops(asked, |asked|)
  }

  predicate AskedInTurn<I(==)>(open: seq<Item<I>>, asked: seq<Question<I>>) {
    |asked| <= |open| && forall i :: 0 <= i < |asked| ==> asked[i] == Question(open[i].id, None)
  }

  lemma NothingToAsk<I>(
    hints: map<I, I>, previous: seq<Item<I>>, next: seq<Item<I>>, ignored: set<I>, open: seq<Item<I>>, at: seq<nat>)
    requires OpenAt(hints, previous, next, ignored, open, at, |previous|)
    requires open == [] || Created(hints, previous, next) == {}
    ensures Settled(hints, previous, next, ignored)
  {
    forall k | 0 <= k < |next| && !Taken(hints, previous, next, next[k].id)
      ensures next[k].id in Created(hints, previous, next)
    {
    }
  }

  lemma AllAnswered<I>(
    hints: map<I, I>, previous: seq<Item<I>>, next: seq<Item<I>>, ignored: set<I>, open: seq<Item<I>>, at: seq<nat>,
    asked: seq<Question<I>>)
    requires OpenAt(hints, previous, next, ignored, open, at, |previous|)
    requires |asked| == |open| && AskedInTurn(open, asked)
    ensures Settled(hints, previous, next, Settling(ignored, asked)) && RenameOf(asked) == None
  {
    forall p | 0 <= p < |previous|
      ensures !OpenDrop(hints, next, ignored + Drops(asked, |asked|), previous[p])
    {
      if OpenDrop(hints, next, ignored, previous[p]) {
        var i :| 0 <= i < |at| && at[i] == p;
        assert asked[i].item == previous[p].id;
      }
    }
  }

  /** Asks about each open drop in turn. The round ends at the first that is answered with a rename, which
      it returns; the others asked about are settled for good. */
  method Ask<I(==, !new)>(
      answers: Answers<I>, hints: map<I, I>, previous: seq<Item<I>>, next: seq<Item<I>>, ignored: set<I>)
      returns (rename: Option<(I, I)>, settled: set<I>, ghost asked: seq<Question<I>>)
    requires DistinctItems(previous)
    ensures RoundRight(answers, hints, previous, next, ignored, asked)
    ensures rename == RenameOf(asked) && settled == Settling(ignored, asked)
    ensures rename == None ==> Settled(hints, previous, next, settled)
  {
    settled, rename, asked := ignored, None, [];
    var open, at := OpenDrops(hints, previous, next, ignored);
    var created := CreatedIds(hints, previous, next);
    if open == [] || created == {} {
      NothingToAsk(hints, previous, next, ignored, open, at);
      return;
    }
    for n := 0 to |open|
      invariant rename == None && |asked| == n && AskedInTurn(open, asked)
      invariant RoundRight(answers, hints, previous, next, ignored, asked)
      invariant settled == Settling(ignored, asked)
    {
      var choice := answers(open[n].id, created);
      ghost var q := Question(open[n].id, choice);
      NextQuestion(answers, hints, previous, next, ignored, open, at, asked, q);
      asked := asked + [q];
      if choice.None? {
        settled := settled + {open[n].id};
      } else {
        rename := Some((open[n].id, choice.value));
        return;
      }
    }
    AllAnswered(hints, previous, next, ignored, open, at, asked);
  }
}
