/**
 * `ShowInformations.GetInformation`: a weighted random pick of one
 * information text that should differ from the one shown last. The random
 * source is a parameter: `draw(n)` is the raw value behind the n-th
 * `Random.Next` call.
 */
module Informations {
  import opened Wrappers

  /** One information: its weight and its text. */
  datatype Information = Information(weight: int, text: string)

  /** A dictionary entry, key and information, in the dictionary's iteration order. */
  type Entry = (int, Information)

  /** The text returned when the scan finds nothing. */
  const FallbackText: string := "- If this message appears here... something is horrible wrong ! -"

  /** `Random.Next` with a negative bound. */
  datatype Error = ArgumentOutOfRange

  /** The sum of the first `n` weights. */
  function Prefix(es: seq<Entry>, n: nat): int
    requires n <= |es|
  {
    if n == 0 then 0 else Prefix(es, n - 1) + es[n - 1].1.weight
  }

  /** The first loop: the sum of all weights. */
  function Total(es: seq<Entry>): int
  {
    Prefix(es, |es|)
  }

  predicate NonNegative(es: seq<Entry>)
  {
    forall i :: 0 <= i < |es| ==> es[i].1.weight >= 0
  }

  lemma {:induction false} PrefixMonotone(es: seq<Entry>, a: nat, b: nat)
    requires NonNegative(es) && a <= b <= |es|
    ensures Prefix(es, a) <= Prefix(es, b)
    decreases b - a
  {
    if a < b {
      PrefixMonotone(es, a, b - 1);
    }
  }

  /** `Random.Next(0, max)` from a raw value: in [0, max) when max is positive, 0 when it is 0, a throw below. */
  function Next(raw: nat, max: int): (r: Result<int, Error>)
    ensures r.Failure? <==> max < 0
    ensures r.Success? && max > 0 ==> 0 <= r.value < max
    ensures r.Success? && max == 0 ==> r.value == 0
  {
    if max < 0 then Failure(ArgumentOutOfRange) else if max == 0 then Success(0) else Success(raw % max)
  }

  /** How a call ends: a text, the fallback text, an exception, or a recursion that never returns. */
  datatype Outcome = Shown(text: string) | Fallback | Thrown | Diverged

  /** The component's state across calls: the last key shown and the number of draws made. */
  datatype State = State(last: int, draws: nat)

  /**
   * `GetInformation` as written, cut off after `fuel` nested calls. A
   * matching entry carrying the last key calls the method again, discards
   * the text it returns but keeps its change of the last key, and the scan
   * continues.
   */
  function GetAsWritten(es: seq<Entry>, s: State, draw: nat -> nat, fuel: nat): (Outcome, State)
    decreases fuel, |es| + 1
  {
    if fuel == 0 then (Diverged, s)
    else
      match Next(draw(s.draws), Total(es))
      case Failure(_) => (Thrown, s.(draws := s.draws + 1))
      case Success(r) => ScanAsWritten(es, 0, r, s.(draws := s.draws + 1), draw, fuel)
  }

  /** The second loop from entry `i` on, with the running weight compared by `<=`. */
  function ScanAsWritten(es: seq<Entry>, i: nat, r: int, s: State, draw: nat -> nat, fuel: nat): (Outcome, State)
    requires i <= |es| && fuel > 0
    decreases fuel, |es| - i
  {
    if i == |es| then (Fallback, s)
    else if r <= Prefix(es, i + 1) then
      if es[i].0 != s.last then (Shown(es[i].1.text), s.(last := es[i].0))
      else
        var (o, s') := GetAsWritten(es, s, draw, fuel - 1);
        if o.Thrown? || o.Diverged? then (o, s') else ScanAsWritten(es, i + 1, r, s', draw, fuel)
    else ScanAsWritten(es, i + 1, r, s, draw, fuel)
  }

  /**
   * With a single information whose key was shown last, every draw lands
   * on it and the method calls itself again: no depth of recursion ends.
   */
  lemma {:induction false} SingleEntryDiverges(key: int, info: Information, s: State, draw: nat -> nat, fuel: nat)
    requires info.weight >= 0 && s.last == key
    ensures GetAsWritten([(key, info)], s, draw, fuel).0 == Diverged
    decreases fuel
  {
    if fuel > 0 {
      var es := [(key, info)];
      assert Prefix(es, 1) == Prefix(es, 0) + info.weight;
      var r := Next(draw(s.draws), Total(es)).value;
      var s1 := s.(draws := s.draws + 1);
      SingleEntryDiverges(key, info, s1, draw, fuel - 1);
      assert ScanAsWritten(es, 0, r, s1, draw, fuel).0 == Diverged;
    }
  }

  /** So with one information the first call shows it and the second never returns. */
  lemma SecondCallDiverges(key: int, info: Information, s: State, draw: nat -> nat, fuel: nat)
    requires info.weight >= 0 && s.last != key && fuel > 0
    ensures var (o, s1) := GetAsWritten([(key, info)], s, draw, fuel);
      o == Shown(info.text) && GetAsWritten([(key, info)], s1, draw, fuel).0 == Diverged
  {
    var es := [(key, info)];
    assert Prefix(es, 1) == Prefix(es, 0) + info.weight;
    var r := Next(draw(s.draws), Total(es)).value;
    assert r <= Prefix(es, 1);
    var s1 := s.(draws := s.draws + 1, last := key);
    assert ScanAsWritten(es, 0, r, s.(draws := s.draws + 1), draw, fuel) == (Shown(info.text), s1);
    SingleEntryDiverges(key, info, s1, draw, fuel);
  }

  /**
   * The `<=` test lets a draw of 0 pick a leading entry of weight 0, so an
   * information configured never to appear does appear.
   */
  lemma ZeroWeightShown()
    ensures var es := [(1, Information(0, "never")), (2, Information(5, "often"))];
      GetAsWritten(es, State(0, 0), _ => 0, 1).0 == Shown("never")
  {
    var es := [(1, Information(0, "never")), (2, Information(5, "often"))];
    assert Total(es) == 5;
  }

  /** The first entry whose weight range [Prefix(i), Prefix(i + 1)) holds `r`. */
  function Pick(es: seq<Entry>, r: int, i: nat): (o: Option<nat>)
    requires i <= |es| && Prefix(es, i) <= r
    ensures o.Some? ==> i <= o.value < |es| && Prefix(es, o.value) <= r < Prefix(es, o.value + 1)
    ensures o.Some? ==> es[o.value].1.weight > 0
    ensures o.None? ==> forall j :: i < j <= |es| ==> Prefix(es, j) <= r
    decreases |es| - i
  {
    if i == |es| then None
    else if r < Prefix(es, i + 1) then Some(i)
    else Pick(es, r, i + 1)
  }

  /** With non-negative weights the pick is exact: entry `i` is picked for exactly the `weight` draws of its range. */
  lemma PickExact(es: seq<Entry>, r: int, i: nat)
    requires NonNegative(es) && 0 <= r && i < |es|
    ensures Pick(es, r, 0) == Some(i) <==> Prefix(es, i) <= r < Prefix(es, i + 1)
  {
    var o := Pick(es, r, 0);
    if Prefix(es, i) <= r < Prefix(es, i + 1) && o != Some(i) {
      if o.Some? {
        if o.value < i {
          PrefixMonotone(es, o.value + 1, i);
        } else {
          PrefixMonotone(es, i + 1, o.value);
        }
      }
    }
  }

  /** The entries other than the one shown last. */
  function Others(es: seq<Entry>, last: int): (r: seq<Entry>)
    ensures forall e :: e in r <==> e in es && e.0 != last
    ensures NonNegative(es) ==> NonNegative(r) && Total(r) >= 0
  {
    if es == [] then []
    else
      var rest := Others(es[1..], last);
      var r := if es[0].0 != last then [es[0]] + rest else rest;
      assert NonNegative(es) ==> NonNegative(r) && Total(r) >= 0 by {
        if NonNegative(es) {
          assert forall e :: e in rest ==> e.1.weight >= 0;
          assert forall e :: e in r ==> e.1.weight >= 0;
          PrefixMonotone(r, 0, |r|);
        }
      }
      r
  }

  /** Some entry of positive weight makes the total positive. */
  lemma {:induction false} PositiveTotal(es: seq<Entry>, i: nat)
    requires NonNegative(es) && i < |es| && es[i].1.weight > 0
    ensures Total(es) > 0
  {
    PrefixMonotone(es, 0, i);
    PrefixMonotone(es, i + 1, |es|);
  }

  /** Whether some entry other than the last shown can be drawn. */
  predicate AnotherDrawable(es: seq<Entry>, last: int)
  {
    exists e :: e in es && e.0 != last && e.1.weight > 0
  }

  /** The entries drawn from: the others when one of them can be drawn, else all. */
  function Pool(es: seq<Entry>, last: int): (pool: seq<Entry>)
    ensures forall e :: e in pool ==> e in es
    ensures NonNegative(es) ==> NonNegative(pool) && Total(pool) >= 0
    ensures NonNegative(es) && AnotherDrawable(es, last) ==> Total(pool) > 0 && forall e :: e in pool ==> e.0 != last
  {
    var others := Others(es, last);
    var pool := if Total(others) > 0 then others else es;
    assert NonNegative(es) ==> Total(pool) >= 0 by {
      if NonNegative(es) {
        PrefixMonotone(es, 0, |es|);
      }
    }
    assert NonNegative(es) && AnotherDrawable(es, last) ==> Total(others) > 0 && pool == others by {
      if NonNegative(es) && AnotherDrawable(es, last) {
        var e :| e in es && e.0 != last && e.1.weight > 0;
        var k :| 0 <= k < |others| && others[k] == e;
        PositiveTotal(others, k);
      }
    }
    pool
  }

  /**
   * `GetInformation` as evidently intended: the draw falls in one entry's
   * own weight range (`<`, not `<=`), among the entries other than the last
   * shown whenever one of them can be drawn; no recursion, so every call
   * returns.
   */
  function GetInformation(es: seq<Entry>, last: int, raw: nat): (r: Result<(string, int), Error>)
    ensures NonNegative(es) ==> r.Success?
    ensures NonNegative(es) && AnotherDrawable(es, last) ==>
      exists e :: e in es && e.0 != last && e.1.weight > 0 && r.value == (e.1.text, e.0)
  {
    var pool := Pool(es, last);
    var n :- Next(raw, Total(pool));
    match Pick(pool, n, 0)
      case None => Success((FallbackText, last))
      case Some(i) =>
        assert pool[i] in pool;
        Success((pool[i].1.text, pool[i].0))
  }
}
