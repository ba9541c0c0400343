/** SQLite pragmas: an insertion-ordered map whose first entries are empty slots, filled in place. */
module Pragmas {
  import opened Wrappers

  datatype Entry = Entry(name: string, value: Option<string>)

  /** The pragmas whose position matters, in the order they have to be applied. */
  const SLOTS: seq<string> := [
    "key", "cipher_plaintext_header_size", "cipher_salt", "kdf_iter", "cipher_kdf_algorithm",
    "cipher_use_hmac", "cipher_compatibility", "cipher_page_size", "cipher_hmac_algorithm",
    "page_size", "locking_mode", "auto_vacuum", "journal_mode", "foreign_keys", "synchronous"]

  predicate NoRepeats(names: seq<string>) {
    forall i, j :: 0 <= i < j < |names| ==> names[i] != names[j]
  }

  function EntryNames(entries: seq<Entry>): (names: seq<string>)
    ensures |names| == |entries|
    ensures forall i :: 0 <= i < |names| ==> names[i] == entries[i].name
  {
    seq(|entries|, i requires 0 <= i < |entries| => entries[i].name)
  }

  function Position(entries: seq<Entry>, name: string): (i: nat)
    ensures i <= |entries|
    ensures i < |entries| ==> entries[i].name == name
    ensures i == |entries| ==> name !in EntryNames(entries)
  {
    if entries == [] then 0
    else if entries[0].name == name then 0
    else
      assert forall k :: 0 < k < |entries| ==> EntryNames(entries)[k] == EntryNames(entries[1..])[k - 1];
      1 + Position(entries[1..], name)
  }

  /** `IndexMap::insert`: a key that is there keeps its position. */
  function Insert(entries: seq<Entry>, name: string, value: Option<string>): seq<Entry> {
    var i := Position(entries, name);
    if i < |entries| then entries[i := Entry(name, value)] else entries + [Entry(name, value)]
  }

  function EmptySlots(slots: seq<string>): (entries: seq<Entry>)
    ensures EntryNames(entries) == slots && forall i :: 0 <= i < |entries| ==> entries[i].value == None
  {
    seq(|slots|, i requires 0 <= i < |slots| => Entry(slots[i], None))
  }

  /** Empty slots, and foreign keys on. */
  function Fresh(slots: seq<string>): seq<Entry> {
    Insert(EmptySlots(slots), "foreign_keys", Some("ON"))
  }

  class Pragmas {
    var entries: seq<Entry>

    /** What has been set so far, in order. */
    ghost var sets: seq<(string, string)>

    ghost predicate Valid()
      reads this
    {
      NoRepeats(EntryNames(entries)) && entries == AfterSets(SLOTS, sets, |sets|)
    }

    constructor ()
      ensures Valid() && sets == []
      ensures entries == Fresh(SLOTS)
    {
      var slots: seq<Entry> := [];
      SlotsDistinct();
      for n := 0 to |SLOTS|
        invariant slots == EmptySlots(SLOTS[..n])
      {
        PositionNone(slots, SLOTS[n]);
        slots := Insert(slots, SLOTS[n], None);
        assert slots == EmptySlots(SLOTS[..n + 1]);
      }
      assert SLOTS[..|SLOTS|] == SLOTS;
      entries, sets := Insert(slots, "foreign_keys", Some("ON")), [];
      InsertIs(EmptySlots(SLOTS), SLOTS, "foreign_keys", Some("ON"));
    }

    /** The name now has the value, in the place it had or else at the end; every other entry keeps its
        place and its value. */
    method Set(name: string, value: string)
      requires Valid()
      modifies this
      ensures Valid() && sets == old(sets) + [(name, value)]
      ensures EntryNames(entries)
           == if name in old(EntryNames(entries)) then old(EntryNames(entries)) else old(EntryNames(entries)) + [name]
      ensures forall i :: 0 <= i < |entries| ==>
        entries[i].value == if entries[i].name == name then Some(value) else old(entries)[i].value
    {
      InsertIs(entries, EntryNames(entries), name, Some(value));
      OneMoreSet(SLOTS, entries, sets, name, value);
      entries, sets := Insert(entries, name, Some(value)), sets + [(name, value)];
    }

    /** The pragmas that are set, in order. */
    method Iter() returns (applied: seq<(string, string)>)
      ensures applied == Applied(entries, |entries|)
    {
      applied := [];
      for n := 0 to |entries|
        invariant applied == Applied(entries, n)
      {
        if entries[n].value.Some? {
          applied := applied + [(entries[n].name, entries[n].value.value)];
        }
      }
    }
  }

  lemma SlotsDistinct()
    ensures NoRepeats(SLOTS)
  {
  }

  lemma {:induction false} PositionNone(entries: seq<Entry>, name: string)
    requires forall k :: 0 <= k < |entries| ==> entries[k].name != name
    ensures Position(entries, name) == |entries|
  {
    if entries != [] {
      PositionNone(entries[1..], name);
    }
  }

  lemma {:induction false} PositionAt(entries: seq<Entry>, i: nat)
    requires i < |entries| && forall k :: 0 <= k < i ==> entries[k].name != entries[i].name
    ensures Position(entries, entries[i].name) == i
  {
    if i > 0 {
      assert entries[0].name != entries[i].name;
      PositionAt(entries[1..], i - 1);
    }
  }

  /** The set entries among the first `n`. */
  function Applied(entries: seq<Entry>, n: nat): seq<(string, string)>
    requires n <= |entries|
  {
    if n == 0 then []
    else if entries[n - 1].value.None? then Applied(entries, n - 1)
    else Applied(entries, n - 1) + [(entries[n - 1].name, entries[n - 1].value.value)]
  }

  /** They are the entries that have a value. */
  lemma {:induction false} AppliedIs(entries: seq<Entry>, n: nat, name: string, value: string)
    requires n <= |entries|
    ensures (name, value) in Applied(entries, n) <==> Entry(name, Some(value)) in entries[..n]
  {
    if n > 0 {
      var k: nat := n - 1;
      AppliedIs(entries, k, name, value);
      assert entries[..n] == entries[..k] + [entries[k]];
      var before := Applied(entries, k);
      if entries[k].value.Some? {
        var last := (entries[k].name, entries[k].value.value);
        assert (name, value) in before + [last] <==> (name, value) in before || (name, value) == last;
      }
    }
  }

  // ---- Any sequence of sets ----

  /** The entries after the first `n` sets. */
  function AfterSets(slots: seq<string>, sets: seq<(string, string)>, n: nat): seq<Entry>
    requires n <= |sets|
  {
    if n == 0 then Fresh(slots)
    else Insert(AfterSets(slots, sets, n - 1), sets[n - 1].0, Some(sets[n - 1].1))
  }

  lemma {:induction false} AfterSetsPrefix(
    slots: seq<string>, sets: seq<(string, string)>, last: (string, string), n: nat)
    requires n <= |sets|
    ensures AfterSets(slots, sets + [last], n) == AfterSets(slots, sets, n)
  {
    if n > 0 {
      AfterSetsPrefix(slots, sets, last, n - 1);
    }
  }

  lemma OneMoreSet(
    slots: seq<string>, entries: seq<Entry>, sets: seq<(string, string)>, name: string, value: string)
    requires NoRepeats(EntryNames(entries)) && entries == AfterSets(slots, sets, |sets|)
    ensures NoRepeats(EntryNames(Insert(entries, name, Some(value))))
    ensures Insert(entries, name, Some(value)) == AfterSets(slots, sets + [(name, value)], |sets| + 1)
  {
    InsertIs(entries, EntryNames(entries), name, Some(value));
    if name !in EntryNames(entries) {
      DistinctSnoc(EntryNames(entries), name);
    }
    AfterSetsPrefix(slots, sets, (name, value), |sets|);
  }

  /** The value set last among the first `n`; foreign keys start on. */
  function LastValue(sets: seq<(string, string)>, n: nat, name: string): Option<string>
    requires n <= |sets|
  {
    if n == 0 then if name == "foreign_keys" then Some("ON") else None
    else if sets[n - 1].0 == name then Some(sets[n - 1].1)
    else LastValue(sets, n - 1, name)
  }

  /** The names without a slot, in the order first set. */
  function Unslotted(slots: seq<string>, sets: seq<(string, string)>, n: nat): seq<string>
    requires n <= |sets|
  {
    if n == 0 then []
    else
      var before := Unslotted(slots, sets, n - 1);
      var name := sets[n - 1].0;
      if name in slots || name in before then before else before + [name]
  }

  /** The entries, spelled out: slots and then unslotted names, each with its last value. */
  function Expected(slots: seq<string>, sets: seq<(string, string)>, n: nat): (entries: seq<Entry>)
    requires n <= |sets|
    ensures |entries| == |slots| + |Unslotted(slots, sets, n)|
    ensures forall i :: 0 <= i < |entries| ==>
      var name := (slots + Unslotted(slots, sets, n))[i];
      entries[i] == Entry(name, LastValue(sets, n, name))
  {
    var names := slots + Unslotted(slots, sets, n);
    seq(|names|, i requires 0 <= i < |names| => Entry(names[i], LastValue(sets, n, names[i])))
  }

  lemma DistinctSnoc(names: seq<string>, name: string)
    requires NoRepeats(names) && name !in names
    ensures NoRepeats(names + [name])
  {
  }

  lemma {:induction false} NamesDistinct(slots: seq<string>, sets: seq<(string, string)>, n: nat)
    requires n <= |sets| && NoRepeats(slots)
    ensures NoRepeats(slots + Unslotted(slots, sets, n))
  {
    if n == 0 {
      assert slots + [] == slots;
    } else {
      NamesDistinct(slots, sets, n - 1);
      var before, name := Unslotted(slots, sets, n - 1), sets[n - 1].0;
      if name !in slots && name !in before {
        DistinctSnoc(slots + before, name);
        assert slots + (before + [name]) == slots + before + [name];
      }
    }
  }

  lemma PositionIs(entries: seq<Entry>, i: nat)
    requires i < |entries| && NoRepeats(EntryNames(entries))
    ensures Position(entries, entries[i].name) == i
  {
    forall k | 0 <= k < i
      ensures entries[k].name != entries[i].name
    {
      assert EntryNames(entries)[k] != EntryNames(entries)[i];
    }
    PositionAt(entries, i);
  }

  /** What one more set does to a list of distinct names. */
  lemma InsertIs(entries: seq<Entry>, names: seq<string>, name: string, value: Option<string>)
    requires names == EntryNames(entries) && NoRepeats(names)
    ensures EntryNames(Insert(entries, name, value)) == if name in names then names else names + [name]
    ensures forall i :: 0 <= i < |Insert(entries, name, value)| ==>
      var e := Insert(entries, name, value)[i];
      e.value == if e.name == name then value else entries[i].value
  {
    if name in names {
      var i: nat :| i < |names| && names[i] == name;
      PositionIs(entries, i);
      forall k | 0 <= k < |names| && k != i
        ensures entries[k].name != name
      {
        assert k < i ==> names[k] != names[i];
        assert i < k ==> names[i] != names[k];
      }
    } else {
      forall k | 0 <= k < |entries|
        ensures entries[k].name != name
      {
        assert names[k] in names;
      }
      PositionNone(entries, name);
    }
  }

  /** After any sets: the slots in slot order, then the others in the order first set, each once and
      with its last value. */
  lemma {:induction false} SetsInOrder(slots: seq<string>, sets: seq<(string, string)>, n: nat)
    requires n <= |sets| && NoRepeats(slots) && "foreign_keys" in slots
    ensures AfterSets(slots, sets, n) == Expected(slots, sets, n)
  {
    if n == 0 {
      StartsAsExpected(slots, sets);
    } else {
      var k: nat := n - 1;
      SetsInOrder(slots, sets, k);
      NamesDistinct(slots, sets, k);
      NextExpected(slots, sets, k, Expected(slots, sets, k));
      AfterSetsNext(slots, sets, k);
      assert n == k + 1;
    }
  }

  lemma AfterSetsNext(slots: seq<string>, sets: seq<(string, string)>, n: nat)
    requires n < |sets|
    ensures AfterSets(slots, sets, n + 1) == Insert(AfterSets(slots, sets, n), sets[n].0, Some(sets[n].1))
  {
  }

  /** One more set on entries that are as expected. */
  lemma NextExpected(slots: seq<string>, sets: seq<(string, string)>, n: nat, before: seq<Entry>)
    requires n < |sets| && before == Expected(slots, sets, n)
    requires NoRepeats(slots + Unslotted(slots, sets, n))
    ensures Insert(before, sets[n].0, Some(sets[n].1)) == Expected(slots, sets, n + 1)
  {
    var names, name := slots + Unslotted(slots, sets, n), sets[n].0;
    assert EntryNames(before) == names;
    InsertIs(before, names, name, Some(sets[n].1));
    UnslottedNext(slots, sets, n);
    SameEntries(Insert(before, name, Some(sets[n].1)), Expected(slots, sets, n + 1));
  }

  lemma UnslottedNext(slots: seq<string>, sets: seq<(string, string)>, n: nat)
    requires n < |sets|
    ensures slots + Unslotted(slots, sets, n + 1)
         == if sets[n].0 in slots + Unslotted(slots, sets, n) then slots + Unslotted(slots, sets, n)
            else slots + Unslotted(slots, sets, n) + [sets[n].0]
  {
    var before := Unslotted(slots, sets, n);
    assert slots + (before + [sets[n].0]) == slots + before + [sets[n].0];
  }

  lemma SameEntries(a: seq<Entry>, b: seq<Entry>)
    requires EntryNames(a) == EntryNames(b)
    requires forall i :: 0 <= i < |a| && i < |b| ==> a[i].value == b[i].value
    ensures a == b
  {
    assert |a| == |EntryNames(a)| && |b| == |EntryNames(b)|;
    assert forall i :: 0 <= i < |a| ==> EntryNames(a)[i] == a[i].name && EntryNames(b)[i] == b[i].name;
  }

  lemma StartsAsExpected(slots: seq<string>, sets: seq<(string, string)>)
    requires NoRepeats(slots) && "foreign_keys" in slots
    ensures AfterSets(slots, sets, 0) == Expected(slots, sets, 0)
  {
    InsertIs(EmptySlots(slots), slots, "foreign_keys", Some("ON"));
    assert slots + [] == slots;
    SameEntries(AfterSets(slots, sets, 0), Expected(slots, sets, 0));
  }

  /** What a connection is set up with: the slotted pragmas that are set, in slot order, then the others
      in the order first set, each with its last value. */
  lemma PragmasInOrder(sets: seq<(string, string)>)
    ensures AfterSets(SLOTS, sets, |sets|) == Expected(SLOTS, sets, |sets|)
  {
    SlotsDistinct();
    assert SLOTS[13] == "foreign_keys";
    SetsInOrder(SLOTS, sets, |sets|);
  }

  /** The key comes first whenever it is set, however late. */
  lemma KeyFirst(sets: seq<(string, string)>)
    requires LastValue(sets, |sets|, "key").Some?
    ensures
      var entries := AfterSets(SLOTS, sets, |sets|);
      var applied := Applied(entries, |entries|);
      applied != [] && applied[0] == ("key", LastValue(sets, |sets|, "key").value)
  {
    PragmasInOrder(sets);
    var entries := AfterSets(SLOTS, sets, |sets|);
    assert entries[0] == Entry("key", LastValue(sets, |sets|, "key"));
    assert Applied(entries, 1)[0] == ("key", LastValue(sets, |sets|, "key").value);
    AppliedGrows(entries, 1, |entries|);
  }

  lemma {:induction false} AppliedGrows(entries: seq<Entry>, m: nat, n: nat)
    requires m <= n <= |entries|
    ensures Applied(entries, m) <= Applied(entries, n)
    decreases n
  {
    if m < n {
      AppliedGrows(entries, m, n - 1);
    }
  }

  // ---- The order that is needed ----

  const CIPHER: set<string> := {
    "cipher_plaintext_header_size", "cipher_salt", "kdf_iter", "cipher_kdf_algorithm", "cipher_use_hmac",
    "cipher_compatibility", "cipher_page_size", "cipher_hmac_algorithm"}

  /** The key goes before everything, the cipher's settings before any read of the database, the page size
      before any write to it, and locking and vacuuming before the journal. */
  predicate MustPrecede(a: string, b: string) {
    || (a == "key" && b != "key")
    || (a in CIPHER && b != "key" && b !in CIPHER)
    || (a == "page_size" && b != "key" && b !in CIPHER && b != "page_size")
    || (a in {"locking_mode", "auto_vacuum"} && b == "journal_mode")
  }

  /** The slots are in such an order, and whatever has to precede anything has a slot. */
  lemma SlotsPrecede(i: nat, b: string)
    requires i < |SLOTS|
    ensures MustPrecede(SLOTS[i], b) ==> forall j :: 0 <= j < i ==> SLOTS[j] != b
  {
    assert SLOTS[0] == "key";
    assert forall j :: 1 <= j < 9 ==> SLOTS[j] in CIPHER;
    assert SLOTS[9] == "page_size";
    assert SLOTS[10] == "locking_mode" && SLOTS[11] == "auto_vacuum" && SLOTS[12] == "journal_mode";
    assert SLOTS[13] == "foreign_keys" && SLOTS[14] == "synchronous";
  }

  lemma {:induction false} AppliedPair(entries: seq<Entry>, n: nat, i: nat, j: nat) returns (k: nat, l: nat)
    requires n <= |entries| && i < j < |Applied(entries, n)|
    ensures k < l < n
    ensures entries[k].name == Applied(entries, n)[i].0 && entries[l].name == Applied(entries, n)[j].0
  {
    if j == |Applied(entries, n)| - 1 && entries[n - 1].value.Some? {
      k := AppliedFrom(entries, n - 1, i);
      l := n - 1;
    } else {
      k, l := AppliedPair(entries, n - 1, i, j);
    }
  }

  lemma {:induction false} AppliedFrom(entries: seq<Entry>, n: nat, i: nat) returns (k: nat)
    requires n <= |entries| && i < |Applied(entries, n)|
    ensures k < n && entries[k].name == Applied(entries, n)[i].0
  {
    if i == |Applied(entries, n)| - 1 && entries[n - 1].value.Some? {
      k := n - 1;
    } else {
      k := AppliedFrom(entries, n - 1, i);
    }
  }

  /** Whatever was set and in whatever order, no pragma is applied behind one it has to precede. */
  lemma AppliedInNeededOrder(sets: seq<(string, string)>, i: nat, j: nat)
    requires
      var entries := AfterSets(SLOTS, sets, |sets|);
      i < j < |Applied(entries, |entries|)|
    ensures
      var applied := Applied(AfterSets(SLOTS, sets, |sets|), |AfterSets(SLOTS, sets, |sets|)|);
      !MustPrecede(applied[j].0, applied[i].0)
  {
    PragmasInOrder(sets);
    var entries := AfterSets(SLOTS, sets, |sets|);
    var names := SLOTS + Unslotted(SLOTS, sets, |sets|);
    var k, l := AppliedPair(entries, |entries|, i, j);
    assert entries[k].name == names[k] && entries[l].name == names[l];
    if l < |SLOTS| {
      SlotsPrecede(l, names[k]);
    } else {
      UnslottedNotIn(sets, |sets|, names[l]);
      NoSlotNoOrder(names[l], names[k]);
    }
  }

  lemma {:induction false} UnslottedNotIn(sets: seq<(string, string)>, n: nat, name: string)
    requires n <= |sets| && name in Unslotted(SLOTS, sets, n)
    ensures name !in SLOTS
  {
    if name !in Unslotted(SLOTS, sets, n - 1) {
      assert name == sets[n - 1].0;
    } else {
      UnslottedNotIn(sets, n - 1, name);
    }
  }

  lemma NoSlotNoOrder(a: string, b: string)
    requires a !in SLOTS
    ensures !MustPrecede(a, b)
  {
    assert SLOTS[0] == "key" && SLOTS[9] == "page_size" && SLOTS[10] == "locking_mode" && SLOTS[11] == "auto_vacuum";
    CipherSlotted(a);
  }

  lemma CipherSlotted(a: string)
    ensures a in CIPHER ==> a in SLOTS
  {
    assert SLOTS[1] == "cipher_plaintext_header_size" && SLOTS[2] == "cipher_salt" && SLOTS[3] == "kdf_iter";
    assert SLOTS[4] == "cipher_kdf_algorithm" && SLOTS[5] == "cipher_use_hmac" && SLOTS[6] == "cipher_compatibility";
    assert SLOTS[7] == "cipher_page_size" && SLOTS[8] == "cipher_hmac_algorithm";
  }
}
