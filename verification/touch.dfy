/**
 * Tap handling of `TouchListener`: the comparator that orders the ray-cast
 * hits before a single tap, the count of the leading run of hits that pass
 * every tap condition, and the filter of a double tap.
 */
module Touch {
  import opened Wrappers
  import opened Extensions

  /** A ray-cast hit; only whether it has a collider, and which, matters here. */
  datatype Hit = Hit(collider: Option<int>)

  /** The tap conditions a hit must all pass. */
  type Conditions = seq<Hit -> bool>

  function Bit(b: bool): int
  {
    if b then 1 else 0
  }

  /**
   * `HitComparer.Compare` as written: the first test looks at the first
   * hit's collider twice, so a first hit without a collider compares equal
   * to everything and the second test can never fire.
   */
  function CompareAsWritten(conds: Conditions, h1: Hit, h2: Hit): (r: int)
    ensures -1 <= r <= 1
    ensures h1.collider.None? ==> r == 0
    ensures h1.collider.Some? && h2.collider.None? ==> r == -1
    ensures h1.collider.Some? && h2.collider.Some? ==> (r > 0 <==> AllHold(conds, h1) && !AllHold(conds, h2))
  {
    if h1.collider.None? && h1.collider.None? then 0
    else if h1.collider.None? then 1
    else if h2.collider.None? then -1
    else Bit(AllHold(conds, h1)) - Bit(AllHold(conds, h2))
  }

  /**
   * The comparator as written is not antisymmetric: a hit without a collider
   * compares equal to one with, while the reverse comparison says the one
   * with the collider comes first.
   */
  lemma AsWrittenNotAntisymmetric(conds: Conditions)
    ensures var none := Hit(None);
            var some := Hit(Some(1));
      CompareAsWritten(conds, none, some) == 0 && CompareAsWritten(conds, some, none) == -1
  {
  }

  /** Where a hit belongs in the order the comment describes: allowed hits, then other collider hits, then empty hits. */
  function Rank(conds: Conditions, h: Hit): (r: nat)
    ensures r == 0 <==> h.collider.Some? && AllHold(conds, h)
    ensures r == 2 <==> h.collider.None?
  {
    if h.collider.None? then 2 else if AllHold(conds, h) then 0 else 1
  }

  /** The comparator as intended: the null test looks at both hits, and allowed hits sort first. */
  function Compare(conds: Conditions, h1: Hit, h2: Hit): (r: int)
    ensures r < 0 <==> Rank(conds, h1) < Rank(conds, h2)
    ensures r == 0 <==> Rank(conds, h1) == Rank(conds, h2)
  {
    if h1.collider.None? && h2.collider.None? then 0
    else if h1.collider.None? then 1
    else if h2.collider.None? then -1
    else Bit(AllHold(conds, h2)) - Bit(AllHold(conds, h1))
  }

  /** The intended comparator is a total preorder: antisymmetric and transitive. */
  lemma CompareIsOrder(conds: Conditions, a: Hit, b: Hit, c: Hit)
    ensures Compare(conds, a, b) < 0 <==> Compare(conds, b, a) > 0
    ensures Compare(conds, a, b) == 0 <==> Compare(conds, b, a) == 0
    ensures Compare(conds, a, b) <= 0 && Compare(conds, b, c) <= 0 ==> Compare(conds, a, c) <= 0
  {
  }

  /** A buffer in ascending order of a comparator. */
  predicate SortedBy(hits: seq<Hit>, cmp: (Hit, Hit) -> int)
  {
    forall i, j :: 0 <= i < j < |hits| ==> cmp(hits[i], hits[j]) <= 0
  }

  /** The length of the leading run of hits, among the first `size`, that pass every condition. */
  function AllowedRun(conds: Conditions, hits: seq<Hit>, size: nat): (r: nat)
    requires size <= |hits|
    ensures r <= size
    ensures forall i :: 0 <= i < r ==> AllHold(conds, hits[i])
    ensures r < size ==> !AllHold(conds, hits[r])
    decreases size
  {
    if size == 0 then 0
    else
      var r := AllowedRun(conds, hits, size - 1);
      if r == size - 1 && AllHold(conds, hits[size - 1]) then size else r
  }

  /** What one single tap reports: the `OnTap` hits in order, and the `OnTaps` count when there is one. */
  datatype Taps = Taps(onTap: seq<Hit>, onTaps: Option<nat>)

  /**
   * `SingleTap` after the sort: walks the first `size` hits, firing `OnTap`
   * for each until the first that fails a condition, then fires `OnTaps`
   * with the count when it is positive.
   */
  method SingleTap(conds: Conditions, hits: seq<Hit>, size: nat) returns (r: Taps)
    requires size <= |hits|
    ensures r.onTap == hits[..AllowedRun(conds, hits, size)]
    ensures r.onTaps.Some? <==> AllowedRun(conds, hits, size) > 0
    ensures r.onTaps.Some? ==> r.onTaps.value == |r.onTap|
  {
    var allowedSize := 0;
    var taps: seq<Hit> := [];
    while allowedSize < size
      invariant allowedSize <= size
      invariant taps == hits[..allowedSize]
      invariant forall i :: 0 <= i < allowedSize ==> AllHold(conds, hits[i])
    {
      var ok, _ := Evaluate(conds, hits[allowedSize]);
      if !ok {
        break;
      }
      taps := taps + [hits[allowedSize]];
      allowedSize := allowedSize + 1;
    }
    assert allowedSize == AllowedRun(conds, hits, size) by {
      RunIsFirstFailure(conds, hits, size, allowedSize);
    }
    r := Taps(taps, if allowedSize > 0 then Some(allowedSize) else None);
  }

  /** The run ends exactly at the first failing hit. */
  lemma RunIsFirstFailure(conds: Conditions, hits: seq<Hit>, size: nat, k: nat)
    requires k <= size <= |hits|
    requires forall i :: 0 <= i < k ==> AllHold(conds, hits[i])
    requires k < size ==> !AllHold(conds, hits[k])
    ensures AllowedRun(conds, hits, size) == k
  {
  }

  /** The number of hits that pass every condition. */
  function CountAllowed(conds: Conditions, hits: seq<Hit>): (r: nat)
    ensures r <= |hits|
  {
    if hits == [] then 0 else Bit(AllHold(conds, hits[0])) + CountAllowed(conds, hits[1..])
  }

  /**
   * With the intended comparator the sort puts the allowed hits first, so the
   * run counts every allowed hit of the ray cast.
   */
  lemma {:induction false} SingleTapCountsAllowed(conds: Conditions, hits: seq<Hit>)
    requires SortedBy(hits, (a, b) => Compare(conds, a, b))
    requires forall i :: 0 <= i < |hits| ==> hits[i].collider.Some?
    ensures AllowedRun(conds, hits, |hits|) == CountAllowed(conds, hits)
    decreases |hits|
  {
    if hits != [] {
      var tail := hits[1..];
      assert SortedBy(tail, (a, b) => Compare(conds, a, b)) by {
        forall i, j | 0 <= i < j < |tail| ensures Compare(conds, tail[i], tail[j]) <= 0 {
          assert tail[i] == hits[i + 1] && tail[j] == hits[j + 1];
        }
      }
      SingleTapCountsAllowed(conds, tail);
      if AllHold(conds, hits[0]) {
        RunShift(conds, hits);
      } else {
        forall i | 0 <= i < |tail| ensures !AllHold(conds, tail[i]) {
          assert Compare(conds, hits[0], hits[i + 1]) <= 0;
        }
        NoneAllowed(conds, tail);
      }
    }
  }

  /** With an allowed first hit, the run is one longer than the tail's. */
  lemma RunShift(conds: Conditions, hits: seq<Hit>)
    requires hits != [] && AllHold(conds, hits[0])
    ensures AllowedRun(conds, hits, |hits|) == AllowedRun(conds, hits[1..], |hits| - 1) + 1
  {
    var k := AllowedRun(conds, hits[1..], |hits| - 1);
    forall i | 0 <= i < k + 1 ensures AllHold(conds, hits[i]) {
      if i > 0 {
        assert hits[i] == hits[1..][i - 1];
      }
    }
    if k + 1 < |hits| {
      assert hits[k + 1] == hits[1..][k];
    }
    RunIsFirstFailure(conds, hits, |hits|, k + 1);
  }

  /** A list with no allowed hit counts none. */
  lemma {:induction false} NoneAllowed(conds: Conditions, hits: seq<Hit>)
    requires forall i :: 0 <= i < |hits| ==> !AllHold(conds, hits[i])
    ensures CountAllowed(conds, hits) == 0
    decreases |hits|
  {
    if hits != [] {
      NoneAllowed(conds, hits[1..]);
    }
  }

  /**
   * As written the sort puts a failing collider hit before an allowed one,
   * so a tap on an allowed object behind a refused one reports nothing.
   */
  lemma AsWrittenRunMissesAllowed(allowed: int, refused: int)
    requires allowed != refused
    ensures var conds: Conditions := [(h: Hit) => h.collider == Some(allowed)];
            var hits := [Hit(Some(refused)), Hit(Some(allowed))];
      && SortedBy(hits, (a, b) => CompareAsWritten(conds, a, b))
      && AllowedRun(conds, hits, 2) == 0 && CountAllowed(conds, hits) == 1
  {
    var conds: Conditions := [(h: Hit) => h.collider == Some(allowed)];
    var hits := [Hit(Some(refused)), Hit(Some(allowed))];
    assert !AllHold(conds, hits[0]) by { assert !conds[0](hits[0]); }
    assert AllHold(conds, hits[1]);
    assert hits[1..] == [hits[1]] && hits[1..][1..] == [];
  }

  /** The hits among `hits` that pass every condition, in order. */
  function Allowed(conds: Conditions, hits: seq<Hit>): (r: seq<Hit>)
    ensures forall h :: h in r <==> h in hits && AllHold(conds, h)
    ensures |r| == CountAllowed(conds, hits)
  {
    if hits == [] then []
    else (if AllHold(conds, hits[0]) then [hits[0]] else []) + Allowed(conds, hits[1..])
  }

  /** `DoubleTap`: `OnDoubleTap` fires for every one of the first `size` hits that passes the double-tap conditions, with no cut-off. */
  method DoubleTap(conds: Conditions, hits: seq<Hit>, size: nat) returns (fired: seq<Hit>)
    requires size <= |hits|
    ensures fired == Allowed(conds, hits[..size])
  {
    fired := [];
    var index := size;
    while index > 0
      invariant 0 <= index <= size
      invariant fired == Allowed(conds, hits[index..size])
    {
      index := index - 1;
      assert hits[index..size][1..] == hits[index + 1..size];
      var ok, _ := Evaluate(conds, hits[index]);
      if ok {
        fired := [hits[index]] + fired;
      }
    }
  }
}
