/** MySQL's positional parameters: arguments laid out by occurrence, each parameter moved out at its last
    use and copied before. */
module ArgOrder {
  import opened Wrappers

  /** How often a parameter occurs in `order` from position `from`. */
  function Uses(order: seq<nat>, from: nat, parameter: nat): nat
    requires from <= |order|
    decreases |order| - from
  {
    if from == |order| then 0
    else (if order[from] == parameter then 1 else 0) + Uses(order, from + 1, parameter)
  }

  lemma {:induction false} NoUses(order: seq<nat>, from: nat, parameter: nat)
    requires from <= |order|
    ensures Uses(order, from, parameter) == 0 <==> forall k :: from <= k < |order| ==> order[k] != parameter
    decreases |order| - from
  {
    if from < |order| {
      NoUses(order, from + 1, parameter);
    }
  }

  /** How often among the first `n`. */
  function Counted(order: seq<nat>, n: nat, parameter: nat): nat
    requires n <= |order|
  {
    if n == 0 then 0 else Counted(order, n - 1, parameter) + if order[n - 1] == parameter then 1 else 0
  }

  lemma {:induction false} CountedAndUses(order: seq<nat>, n: nat, parameter: nat)
    requires n <= |order|
    ensures Counted(order, n, parameter) + Uses(order, n, parameter) == Uses(order, 0, parameter)
  {
    if n > 0 {
      CountedAndUses(order, n - 1, parameter);
    }
  }

  /** The order's last use of a parameter is at `i`. */
  predicate LastUse(order: seq<nat>, i: nat)
    requires i < |order|
  {
    forall k :: i < k < |order| ==> order[k] != order[i]
  }

  /** The arguments in the order of their occurrences, and which of them were moved rather than
      copied. Neither lookup can fail: a parameter is there until its last use. */
  method Reorder<T(0)>(parameters: seq<T>, order: seq<nat>) returns (arguments: seq<T>, moved: seq<bool>)
    requires forall i :: 0 <= i < |order| ==> order[i] < |parameters|
    ensures |arguments| == |moved| == |order|
    ensures forall i :: 0 <= i < |order| ==> arguments[i] == parameters[order[i]]
    ensures forall i :: 0 <= i < |order| ==> (moved[i] <==> LastUse(order, i))
  {
    var remaining := new nat[|parameters|](_ => 0);
    for n := 0 to |order|
      invariant forall p :: 0 <= p < |parameters| ==> remaining[p] == Counted(order, n, p)
    {
      remaining[order[n]] := remaining[order[n]] + 1;
    }
    forall p | 0 <= p < |parameters|
      ensures remaining[p] == Uses(order, 0, p)
    {
      CountedAndUses(order, |order|, p);
    }
    var values := new Option<T>[|parameters|](i requires 0 <= i < |parameters| => Some(parameters[i]));
    arguments, moved := [], [];
    for n := 0 to |order|
      invariant |arguments| == |moved| == n
      invariant forall i :: 0 <= i < n ==> arguments[i] == parameters[order[i]]
      invariant forall i :: 0 <= i < n ==> (moved[i] <==> LastUse(order, i))
      invariant forall p :: 0 <= p < |parameters| ==> remaining[p] == Uses(order, n, p)
      invariant forall p :: 0 <= p < |parameters| ==>
        values[p] == if Used(order, n, p) && remaining[p] == 0 then None else Some(parameters[p])
    {
      var pos := order[n];
      remaining[pos] := remaining[pos] - 1;
      NoUses(order, n + 1, pos);
      var last := remaining[pos] == 0;
      assert values[pos] == Some(parameters[pos]);
      arguments := arguments + [values[pos].value];
      moved := moved + [last];
      if last {
        values[pos] := None;
      }
      assert forall p :: 0 <= p < |parameters| ==> (Used(order, n + 1, p) <==> Used(order, n, p) || p == pos);
    }
  }

  /** Whether a parameter occurs among the first `n`. */
  predicate Used(order: seq<nat>, n: nat, parameter: nat)
    requires n <= |order|
  {
    exists i :: 0 <= i < n && order[i] == parameter
  }
}
