/**
 * Two small list helpers of the client's extension methods: the
 * all-conditions test over a list of predicates, and the search of an
 * entity-link list for a server id.
 */
module Extensions {
  import opened Store

  /** Every condition holds for the input. */
  predicate AllHold<T>(conditions: seq<T -> bool>, input: T)
  {
    forall i :: 0 <= i < |conditions| ==> conditions[i](input)
  }

  /**
   * `FunctionalExtensions.Evaluate`: the conditions are called in list order
   * and the walk stops at the first that fails; `calls` counts the
   * conditions called, so a later condition is never called after a failure.
   */
  method Evaluate<T>(conditions: seq<T -> bool>, input: T) returns (r: bool, calls: nat)
    ensures r <==> AllHold(conditions, input)
    ensures r ==> calls == |conditions|
    ensures !r ==> 0 < calls <= |conditions| && !conditions[calls - 1](input)
    ensures forall i :: 0 <= i < calls - 1 ==> conditions[i](input)
  {
    calls := 0;
    while calls < |conditions|
      invariant calls <= |conditions|
      invariant forall i :: 0 <= i < calls ==> conditions[i](input)
    {
      calls := calls + 1;
      if !conditions[calls - 1](input) {
        return false, calls;
      }
    }
    r := true;
  }

  /** Appending a condition list is the conjunction of the two tests. */
  lemma AllHoldAppend<T>(a: seq<T -> bool>, b: seq<T -> bool>, input: T)
    ensures AllHold(a + b, input) <==> AllHold(a, input) && AllHold(b, input)
  {
    if AllHold(a, input) && AllHold(b, input) {
      forall i | 0 <= i < |a + b| ensures (a + b)[i](input) {
        if i >= |a| {
          assert (a + b)[i] == b[i - |a|];
        }
      }
    }
    if AllHold(a + b, input) {
      forall i | 0 <= i < |a| ensures a[i](input) {
        assert (a + b)[i] == a[i];
      }
      forall i | 0 <= i < |b| ensures b[i](input) {
        assert (a + b)[|a| + i] == b[i];
      }
    }
  }

  /** Some link of the list carries the id. */
  predicate Listed(list: seq<EntityLink>, uniqueId: int)
  {
    exists i :: 0 <= i < |list| && list[i].uniqueId == uniqueId
  }

  /**
   * `UnsafeListExtension.Contains`: scans the links in order and stops at
   * the first carrying the id; `scanned` counts the links read.
   */
  method Contains(list: seq<EntityLink>, uniqueId: int) returns (r: bool, scanned: nat)
    ensures r <==> Listed(list, uniqueId)
    ensures r ==> 0 < scanned <= |list| && list[scanned - 1].uniqueId == uniqueId
    ensures !r ==> scanned == |list|
    ensures forall i :: 0 <= i < scanned - 1 ==> list[i].uniqueId != uniqueId
  {
    scanned := 0;
    while scanned < |list|
      invariant scanned <= |list|
      invariant forall i :: 0 <= i < scanned ==> list[i].uniqueId != uniqueId
    {
      scanned := scanned + 1;
      if list[scanned - 1].uniqueId == uniqueId {
        return true, scanned;
      }
    }
    r := false;
  }
}
