/** The migration history: numbered names, generation and removal of entries. */
module History {
  import opened Wrappers
  import Decimal

  datatype HistoryEntry = HistoryEntry(id: int, name: string, snapshotName: string)

  const U32_LIMIT := 0x1_0000_0000

  // ---- Names ----

  /** `{:04}`: at least four digits. */
  function Padded(n: nat): (s: string)
    ensures |s| >= 4 && Decimal.AllDigits(s) && Decimal.ToNat(s) == n
  {
    var digits := Decimal.OfNat(n);
    var zeros: nat := if |digits| < 4 then 4 - |digits| else 0;
    Decimal.ToNatOfNat(n);
    Decimal.LeadingZeros(zeros, digits);
    seq(zeros, _ => '0') + digits
  }

  function MigrationName(n: nat, title: string): string {
    Padded(n) + ("_" + title + ".sql")
  }

  function SnapshotName(n: nat): string {
    Padded(n) + "_snapshot.toml"
  }

  /** The text up to the first underscore, or all of it. */
  function FirstPart(s: string): string {
    if s == "" || s[0] == '_' then "" else [s[0]] + FirstPart(s[1..])
  }

  /** Rust's `parse::<u32>`. */
  function ParseU32(s: string): Option<nat> {
    var digits := if s != "" && s[0] == '+' then s[1..] else s;
    if digits != "" && Decimal.AllDigits(digits) && Decimal.ToNat(digits) < U32_LIMIT then
      Some(Decimal.ToNat(digits))
    else None
  }

  /** The number a name starts with. */
  function NumberOf(name: string): Option<nat> {
    ParseU32(FirstPart(name))
  }

  lemma {:induction false} FirstPartOf(a: string, b: string)
    requires forall i :: 0 <= i < |a| ==> a[i] != '_'
    ensures FirstPart(a + ("_" + b)) == a
  {
    var s := a + ("_" + b);
    if a != "" {
      assert s[1..] == a[1..] + ("_" + b);
      FirstPartOf(a[1..], b);
    }
  }

  /** A generated name's number reads back, whatever the title. */
  lemma NumberReadsBack(n: nat, title: string)
    requires n < U32_LIMIT
    ensures NumberOf(MigrationName(n, title)) == Some(n)
  {
    FirstPartOf(Padded(n), title + ".sql");
    assert "_" + (title + ".sql") == "_" + title + ".sql";
  }

  // ---- The history file ----

  /** One more than the number of the last entry; zero where there is none. `None` on overflow. */
  function NextNumber(entries: seq<HistoryEntry>): Option<nat> {
    if entries == [] then Some(0)
    else
      match NumberOf(entries[|entries| - 1].name)
      case None => Some(0)
      case Some(n) => if n + 1 < U32_LIMIT then Some(n + 1) else None
  }

  function Without(entries: seq<HistoryEntry>, index: nat): seq<HistoryEntry>
    requires index < |entries|
  {
    entries[..index] + entries[index + 1..]
  }

  /** The first entry of the name. */
  function Position(entries: seq<HistoryEntry>, name: string): (index: Option<nat>)
    ensures index.Some? ==> index.value < |entries| && entries[index.value].name == name
    ensures index.None? ==> forall e <- entries :: e.name != name
  {
    if entries == [] then None
    else if entries[0].name == name then Some(0)
    else
      match Position(entries[1..], name)
      case None => None
      case Some(i) => Some(i + 1)
  }

  datatype Choice = Latest | Named(name: string) | Picked(index: nat)

  class HistoryFile {
    var entries: seq<HistoryEntry>

    constructor ()
      ensures entries == []
    {
      entries := [];
    }

    method AddEntry(entry: HistoryEntry)
      modifies this
      ensures entries == old(entries) + [entry]
    {
      entries := entries + [entry];
    }

    method RemoveEntry(index: nat)
      requires index < |entries|
      modifies this
      ensures entries == Without(old(entries), index)
    {
      entries := entries[..index] + entries[index + 1..];
    }

    /** `generate` with sequential prefixes; `None` where the next number overflows. */
    method Generate(id: int, title: string) returns (added: Option<HistoryEntry>)
      modifies this
      ensures
        match NextNumber(old(entries)) {
          case None => added == None && entries == old(entries)
          case Some(n) =>
            && added == Some(HistoryEntry(id, MigrationName(n, title), SnapshotName(n)))
            && entries == old(entries) + [added.value]
        }
    {
      var number := NextNumber(entries);
      if number == None {
        return None;
      }
      var prefix := Padded(number.value);
      var entry := HistoryEntry(id, prefix + ("_" + title + ".sql"), prefix + "_snapshot.toml");
      AddEntry(entry);
      added := Some(entry);
    }

    /** `drop`: the latest entry, the one of a name, or one picked; nothing where there is none. */
    method Drop(choice: Choice) returns (dropped: Option<HistoryEntry>)
      requires choice.Picked? ==> choice.index < |entries| || entries == []
      modifies this
      ensures dropped.None? ==>
        && entries == old(entries)
        && (entries == [] || (choice.Named? && forall e <- entries :: e.name != choice.name))
      ensures dropped.Some? ==> exists index: nat ::
        && index < |old(entries)| && dropped.value == old(entries)[index]
        && entries == Without(old(entries), index)
        && (choice.Latest? ==> index == |old(entries)| - 1)
        && (choice.Picked? ==> index == choice.index)
        && (choice.Named? ==> dropped.value.name == choice.name)
    {
      if entries == [] {
        return None;
      }
      var index: nat;
      match choice {
        case Latest => index := |entries| - 1;
        case Named(name) =>
          var position := Position(entries, name);
          if position == None {
            return None;
          }
          index := position.value;
        case Picked(picked) => index := picked;
      }
      dropped := Some(entries[index]);
      RemoveEntry(index);
    }
  }

  // ---- Runs of generates and drops ----

  datatype Op = GenerateOp(id: int, title: string) | DropOp(index: nat)

  /** One command; `None` where it cannot run. */
  function Perform(entries: seq<HistoryEntry>, op: Op): Option<seq<HistoryEntry>> {
    match op
    case GenerateOp(id, title) =>
      var n :- NextNumber(entries);
      Some(entries + [HistoryEntry(id, MigrationName(n, title), SnapshotName(n))])
    case DropOp(index) => if index < |entries| then Some(Without(entries, index)) else None
  }

  function PerformAll(ops: seq<Op>, n: nat): Option<seq<HistoryEntry>>
    requires n <= |ops|
  {
    if n == 0 then Some([])
    else
      var before :- PerformAll(ops, n - 1);
      Perform(before, ops[n - 1])
  }

  predicate HasNumber(e: HistoryEntry) {
    NumberOf(e.name).Some? && e.snapshotName == SnapshotName(NumberOf(e.name).value)
  }

  /** Every entry carries a number, and the numbers increase. */
  predicate Numbered(entries: seq<HistoryEntry>) {
    && (forall i :: 0 <= i < |entries| ==> HasNumber(entries[i]))
    && forall i, j :: 0 <= i < j < |entries| ==> NumberOf(entries[i].name).value < NumberOf(entries[j].name).value
  }

  lemma NextExceedsAll(entries: seq<HistoryEntry>, i: nat)
    requires Numbered(entries) && NextNumber(entries).Some? && i < |entries|
    ensures NumberOf(entries[i].name).value < NextNumber(entries).value < U32_LIMIT
  {
  }

  lemma GenerateKeeps(entries: seq<HistoryEntry>, id: int, title: string)
    requires Numbered(entries) && NextNumber(entries).Some?
    ensures Numbered(Perform(entries, GenerateOp(id, title)).value)
  {
    var n := NextNumber(entries).value;
    NumberReadsBack(n, title);
    forall i | 0 <= i < |entries|
      ensures NumberOf(entries[i].name).value < n
    {
      NextExceedsAll(entries, i);
    }
    NumberedMore(entries, HistoryEntry(id, MigrationName(n, title), SnapshotName(n)));
  }

  lemma NumberedMore(entries: seq<HistoryEntry>, e: HistoryEntry)
    requires Numbered(entries) && HasNumber(e)
    requires forall i :: 0 <= i < |entries| ==> NumberOf(entries[i].name).value < NumberOf(e.name).value
    ensures Numbered(entries + [e])
  {
    var all := entries + [e];
    assert all[|entries|] == e;
    forall i | 0 <= i < |entries|
      ensures all[i] == entries[i]
    {
    }
  }

  lemma DropKeeps(entries: seq<HistoryEntry>, index: nat)
    requires Numbered(entries) && index < |entries|
    ensures Numbered(Without(entries, index))
  {
    var after := Without(entries, index);
    forall i | 0 <= i < |after|
      ensures after[i] == entries[if i < index then i else i + 1]
    {
    }
  }

  lemma {:induction false} RunsKeepNumbers(ops: seq<Op>, n: nat)
    requires n <= |ops| && PerformAll(ops, n).Some?
    ensures Numbered(PerformAll(ops, n).value)
  {
    if n > 0 {
      var k: nat := n - 1;
      PerformAllNext(ops, k);
      RunsKeepNumbers(ops, k);
      PerformKeeps(PerformAll(ops, k).value, ops[k]);
    }
  }

  lemma PerformAllNext(ops: seq<Op>, n: nat)
    requires n < |ops| && PerformAll(ops, n + 1).Some?
    ensures PerformAll(ops, n).Some? && PerformAll(ops, n + 1) == Perform(PerformAll(ops, n).value, ops[n])
  {
  }

  lemma PerformKeeps(entries: seq<HistoryEntry>, op: Op)
    requires Numbered(entries) && Perform(entries, op).Some?
    ensures Numbered(Perform(entries, op).value)
  {
    match op {
      case GenerateOp(id, title) => GenerateKeeps(entries, id, title);
      case DropOp(index) => DropKeeps(entries, index);
    }
  }

  lemma SnapshotsDiffer(m: nat, n: nat)
    requires m != n
    ensures SnapshotName(m) != SnapshotName(n)
  {
    FirstPartOf(Padded(m), "snapshot.toml");
    FirstPartOf(Padded(n), "snapshot.toml");
    assert "_" + "snapshot.toml" == "_snapshot.toml";
  }

  lemma NumberedDistinct(entries: seq<HistoryEntry>, i: nat, j: nat)
    requires Numbered(entries) && i < j < |entries|
    ensures entries[i].name != entries[j].name && entries[i].snapshotName != entries[j].snapshotName
  {
    var m, n := NumberOf(entries[i].name).value, NumberOf(entries[j].name).value;
    assert m < n;
    SnapshotsDiffer(m, n);
  }

  /** After any generates and drops from an empty history, the names' numbers strictly increase, no two
      entries share a name or a snapshot's, and the next number is above all of them. */
  lemma NamesStayUnique(ops: seq<Op>, entries: seq<HistoryEntry>)
    requires PerformAll(ops, |ops|) == Some(entries)
    ensures forall i :: 0 <= i < |entries| ==> HasNumber(entries[i])
    ensures forall i, j :: 0 <= i < j < |entries| ==>
      && HasNumber(entries[i]) && HasNumber(entries[j])
      && NumberOf(entries[i].name).value < NumberOf(entries[j].name).value
      && entries[i].name != entries[j].name && entries[i].snapshotName != entries[j].snapshotName
    ensures NextNumber(entries).Some? ==>
      forall i :: 0 <= i < |entries| ==>
        HasNumber(entries[i]) && NumberOf(entries[i].name).value < NextNumber(entries).value
  {
    RunsKeepNumbers(ops, |ops|);
    forall i, j | 0 <= i < j < |entries|
      ensures entries[i].name != entries[j].name && entries[i].snapshotName != entries[j].snapshotName
    {
      NumberedDistinct(entries, i, j);
    }
    if NextNumber(entries).Some? {
      forall i | 0 <= i < |entries|
        ensures NumberOf(entries[i].name).value < NextNumber(entries).value
      {
        NextExceedsAll(entries, i);
      }
    }
  }

  /** After any generates and drops, one more generate adds an entry whose number is one more than the last
      entry's, or zero to an empty history; it fails only where that number does not fit. */
  lemma NumbersFollow(ops: seq<Op>, entries: seq<HistoryEntry>, id: int, title: string)
    requires PerformAll(ops, |ops|) == Some(entries)
    ensures entries != [] ==> NumberOf(entries[|entries| - 1].name).Some?
    ensures
      var number := if entries == [] then 0 else NumberOf(entries[|entries| - 1].name).value + 1;
      match Perform(entries, GenerateOp(id, title))
      case None => number == U32_LIMIT
      case Some(after) =>
        && |after| == |entries| + 1 && after[..|entries|] == entries
        && after[|entries|].id == id && NumberOf(after[|entries|].name) == Some(number)
  {
    RunsKeepNumbers(ops, |ops|);
    assert entries != [] ==> HasNumber(entries[|entries| - 1]);
    if NextNumber(entries).Some? {
      NumberReadsBack(NextNumber(entries).value, title);
    }
  }

  /** With unique numbers, dropping by name leaves no entry of the name. */
  lemma DroppedNameGone(entries: seq<HistoryEntry>, name: string, index: nat)
    requires Numbered(entries) && index < |entries| && Position(entries, name) == Some(index)
    ensures
      var after := Without(entries, index);
      forall k :: 0 <= k < |after| ==> after[k].name != name
  {
    var after := Without(entries, index);
    forall k | 0 <= k < |after|
      ensures after[k].name != name
    {
      if k < index {
        assert after[k] == entries[k];
        NumberedDistinct(entries, k, index);
      } else {
        assert after[k] == entries[k + 1];
        NumberedDistinct(entries, index, k + 1);
      }
    }
  }
}
