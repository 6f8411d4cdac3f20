/**
 * `ChildsChanged`: when a transform's children change, the new child list is
 * compared with the tracked one and events fire for the first child, every
 * added and removed child, and an emptied list.
 */
module Childs {
  import opened Wrappers

  /** A child transform, by identity. */
  type Child = int

  /** The events in firing order; the inspector event and the code callback of each kind fire together. */
  datatype Event = First(child: Child) | ChildAdded(child: Child) | ChildRemoved(child: Child) | Empty

  /** Reading `added[0]` of an empty list. */
  datatype Error = ArgumentOutOfRange

  /** The position of the first occurrence of `c` in `a`. */
  function IndexOf(a: seq<Child>, c: Child): (k: nat)
    requires c in a
    ensures k < |a| && a[k] == c && forall j :: 0 <= j < k ==> a[j] != c
  {
    if a[0] == c then 0 else 1 + IndexOf(a[1..], c)
  }

  /** Whether the elements of `xs`, all of them in `a`, come in the order of their first occurrence in `a`. */
  predicate InOrderOf(xs: seq<Child>, a: seq<Child>)
  {
    forall i, j :: 0 <= i < j < |xs| && xs[i] in a && xs[j] in a ==> IndexOf(a, xs[i]) < IndexOf(a, xs[j])
  }

  /** LINQ `Except`: the distinct elements of `a` that are not in `b`, in first-occurrence order (`ExceptInOrder`). */
  function Except(a: seq<Child>, b: seq<Child>): (r: seq<Child>)
    ensures forall c :: c in r <==> c in a && c !in b
    ensures forall i, j :: 0 <= i < j < |r| ==> r[i] != r[j]
    decreases |a|
  {
    if a == [] then []
    else
      var rest := Except(a[1..], b + [a[0]]);
      if a[0] in b then rest
      else
        assert a[0] !in rest;
        [a[0]] + rest
  }

  /** `Except` lists its elements in the order of their first occurrence in `a`. */
  lemma {:induction false} ExceptInOrder(a: seq<Child>, b: seq<Child>)
    ensures InOrderOf(Except(a, b), a)
    decreases |a|
  {
    if a != [] {
      ExceptInOrder(a[1..], b + [a[0]]);
      InOrderCons(a, Except(a[1..], b + [a[0]]));
    }
  }

  /** An order along `a[1..]` of elements other than `a[0]` is an order along `a`, also with `a[0]` in front. */
  lemma InOrderCons(a: seq<Child>, rest: seq<Child>)
    requires a != [] && a[0] !in rest && InOrderOf(rest, a[1..])
    ensures InOrderOf(rest, a) && InOrderOf([a[0]] + rest, a)
  {
    assert forall c :: c in rest && c in a ==> c in a[1..] && IndexOf(a, c) == 1 + IndexOf(a[1..], c);
    var r := [a[0]] + rest;
    forall i, j | 0 <= i < j < |r| && r[i] in a && r[j] in a ensures IndexOf(a, r[i]) < IndexOf(a, r[j]) {
      assert r[j] == rest[j - 1];
      if i > 0 {
        assert r[i] == rest[i - 1];
      }
    }
  }

  /** The position of an event's kind in the firing order: first, added, removed, empty. */
  function Rank(e: Event): nat
  {
    match e
    case First(_) => 0
    case ChildAdded(_) => 1
    case ChildRemoved(_) => 2
    case Empty => 3
  }

  /** Events of an earlier kind never follow events of a later kind. */
  predicate KindsInOrder(es: seq<Event>)
  {
    forall i, j :: 0 <= i < j < |es| ==> Rank(es[i]) <= Rank(es[j])
  }

  /** The children the `ChildAdded` events name, in firing order. */
  function AddedOf(es: seq<Event>): seq<Child>
  {
    if es == [] then [] else (if es[0].ChildAdded? then [es[0].child] else []) + AddedOf(es[1..])
  }

  /** The children the `ChildRemoved` events name, in firing order. */
  function RemovedOf(es: seq<Event>): seq<Child>
  {
    if es == [] then [] else (if es[0].ChildRemoved? then [es[0].child] else []) + RemovedOf(es[1..])
  }

  lemma {:induction false} AddedConcat(a: seq<Event>, b: seq<Event>)
    ensures AddedOf(a + b) == AddedOf(a) + AddedOf(b)
    decreases |a|
  {
    if a != [] {
      assert (a + b)[0] == a[0] && (a + b)[1..] == a[1..] + b;
      AddedConcat(a[1..], b);
    } else {
      assert a + b == b;
    }
  }

  lemma {:induction false} RemovedConcat(a: seq<Event>, b: seq<Event>)
    ensures RemovedOf(a + b) == RemovedOf(a) + RemovedOf(b)
    decreases |a|
  {
    if a != [] {
      assert (a + b)[0] == a[0] && (a + b)[1..] == a[1..] + b;
      RemovedConcat(a[1..], b);
    } else {
      assert a + b == b;
    }
  }

  lemma KindsInOrderConcat(a: seq<Event>, b: seq<Event>)
    requires KindsInOrder(a) && KindsInOrder(b)
    requires forall i, j :: 0 <= i < |a| && 0 <= j < |b| ==> Rank(a[i]) <= Rank(b[j])
    ensures KindsInOrder(a + b)
  {
    forall i, j | 0 <= i < j < |a + b| ensures Rank((a + b)[i]) <= Rank((a + b)[j]) {
      if j < |a| {
        assert (a + b)[i] == a[i] && (a + b)[j] == a[j];
      } else if i >= |a| {
        assert (a + b)[i] == b[i - |a|] && (a + b)[j] == b[j - |a|];
      } else {
        assert (a + b)[i] == a[i] && (a + b)[j] == b[j - |a|];
      }
    }
  }

  function AddedEvents(cs: seq<Child>): (r: seq<Event>)
    ensures |r| == |cs| && forall i :: 0 <= i < |cs| ==> r[i] == ChildAdded(cs[i])
    ensures forall e :: e in r <==> e.ChildAdded? && e.child in cs
  {
    if cs == [] then [] else [ChildAdded(cs[0])] + AddedEvents(cs[1..])
  }

  function RemovedEvents(cs: seq<Child>): (r: seq<Event>)
    ensures |r| == |cs| && forall i :: 0 <= i < |cs| ==> r[i] == ChildRemoved(cs[i])
    ensures forall e :: e in r <==> e.ChildRemoved? && e.child in cs
  {
    if cs == [] then [] else [ChildRemoved(cs[0])] + RemovedEvents(cs[1..])
  }

  lemma {:induction false} EventsNames(cs: seq<Child>)
    ensures AddedOf(AddedEvents(cs)) == cs && RemovedOf(AddedEvents(cs)) == []
    ensures AddedOf(RemovedEvents(cs)) == [] && RemovedOf(RemovedEvents(cs)) == cs
  {
    if cs != [] {
      var a := AddedEvents(cs);
      var d := RemovedEvents(cs);
      assert a[0] == ChildAdded(cs[0]) && a[1..] == AddedEvents(cs[1..]);
      assert d[0] == ChildRemoved(cs[0]) && d[1..] == RemovedEvents(cs[1..]);
      EventsNames(cs[1..]);
    }
  }

  /** With nothing tracked, the first child that is new is the first child of the new list. */
  lemma FirstAdded(updated: seq<Child>)
    requires updated != []
    ensures Except(updated, []) != [] && Except(updated, [])[0] == updated[0]
  {
    var added := Except(updated, []);
    ExceptInOrder(updated, []);
    assert updated[0] in added;
    assert forall j :: 0 < j < |added| ==> IndexOf(updated, added[0]) < IndexOf(updated, added[j]);
    assert IndexOf(updated, updated[0]) == 0;
  }

  /** Four runs of events, one kind each, fire in kind order. */
  lemma PartsInOrder(f: seq<Event>, a: seq<Event>, d: seq<Event>, m: seq<Event>)
    requires forall i :: 0 <= i < |f| ==> f[i].First?
    requires forall i :: 0 <= i < |a| ==> a[i].ChildAdded?
    requires forall i :: 0 <= i < |d| ==> d[i].ChildRemoved?
    requires forall i :: 0 <= i < |m| ==> m[i].Empty?
    ensures KindsInOrder(f + a + d + m)
  {
    KindsInOrderConcat(f, a);
    var fa := f + a;
    assert forall i :: 0 <= i < |fa| ==> Rank(fa[i]) <= 1 by {
      forall i | 0 <= i < |fa| ensures Rank(fa[i]) <= 1 {
        if i < |f| { assert fa[i] == f[i]; } else { assert fa[i] == a[i - |f|]; }
      }
    }
    KindsInOrderConcat(fa, d);
    var fad := fa + d;
    assert forall i :: 0 <= i < |fad| ==> Rank(fad[i]) <= 2 by {
      forall i | 0 <= i < |fad| ensures Rank(fad[i]) <= 2 {
        if i < |fa| { assert fad[i] == fa[i]; } else { assert fad[i] == d[i - |fa|]; }
      }
    }
    KindsInOrderConcat(fad, m);
  }

  /** Events of neither kind name no child. */
  lemma {:induction false} NoNames(es: seq<Event>)
    requires forall i :: 0 <= i < |es| ==> es[i].First? || es[i].Empty?
    ensures AddedOf(es) == [] && RemovedOf(es) == []
    decreases |es|
  {
    if es != [] {
      NoNames(es[1..]);
    }
  }

  /** The added children of four runs are those of the second run. */
  lemma PartsAdded(f: seq<Event>, added: seq<Child>, removed: seq<Child>, m: seq<Event>)
    requires forall i :: 0 <= i < |f| ==> f[i].First?
    requires forall i :: 0 <= i < |m| ==> m[i].Empty?
    ensures AddedOf(f + AddedEvents(added) + RemovedEvents(removed) + m) == added
  {
    var a := AddedEvents(added);
    var d := RemovedEvents(removed);
    assert AddedOf(f) == [] && AddedOf(m) == [] by {
      NoNames(f);
      NoNames(m);
    }
    assert AddedOf(a) == added && AddedOf(d) == [] by {
      EventsNames(added);
      EventsNames(removed);
    }
    FourAdded(f, a, d, m);
  }

  lemma FourAdded(f: seq<Event>, a: seq<Event>, d: seq<Event>, m: seq<Event>)
    requires AddedOf(f) == [] && AddedOf(d) == [] && AddedOf(m) == []
    ensures AddedOf(f + a + d + m) == AddedOf(a)
  {
    AddedConcat(f, a);
    AddedConcat(f + a, d);
    AddedConcat(f + a + d, m);
  }

  /** The removed children of four runs are those of the third run. */
  lemma PartsRemoved(f: seq<Event>, added: seq<Child>, removed: seq<Child>, m: seq<Event>)
    requires forall i :: 0 <= i < |f| ==> f[i].First?
    requires forall i :: 0 <= i < |m| ==> m[i].Empty?
    ensures RemovedOf(f + AddedEvents(added) + RemovedEvents(removed) + m) == removed
  {
    var a := AddedEvents(added);
    var d := RemovedEvents(removed);
    assert RemovedOf(f) == [] && RemovedOf(m) == [] by {
      NoNames(f);
      NoNames(m);
    }
    assert RemovedOf(a) == [] && RemovedOf(d) == removed by {
      EventsNames(added);
      EventsNames(removed);
    }
    FourRemoved(f, a, d, m);
  }

  lemma FourRemoved(f: seq<Event>, a: seq<Event>, d: seq<Event>, m: seq<Event>)
    requires RemovedOf(f) == [] && RemovedOf(a) == [] && RemovedOf(m) == []
    ensures RemovedOf(f + a + d + m) == RemovedOf(d)
  {
    RemovedConcat(f, a);
    RemovedConcat(f + a, d);
    RemovedConcat(f + a + d, m);
  }

  /** The handler's effect: the events fired and the list tracked afterwards. */
  datatype Changed = Changed(events: seq<Event>, childs: seq<Child>)

  /**
   * The events of one change, when the tracked list is not empty or
   * something was added: `First` with the first new child when nothing was
   * tracked, then one `ChildAdded` per new child in the new list's order,
   * one `ChildRemoved` per lost child in the old list's order, and `Empty`
   * when the new list is empty.
   */
  function Announce(childs: seq<Child>, updated: seq<Child>): seq<Event>
    requires childs != [] || Except(updated, childs) != []
  {
    var added := Except(updated, childs);
    (if childs == [] then [First(added[0])] else [])
      + AddedEvents(added) + RemovedEvents(Except(childs, updated))
      + (if updated == [] then [Empty] else [])
  }

  /** The children named in four runs of events, the outer two naming none. */
  lemma RunsChildren(f: seq<Event>, added: seq<Child>, removed: seq<Child>, m: seq<Event>)
    requires forall i :: 0 <= i < |f| ==> f[i].First?
    requires forall i :: 0 <= i < |m| ==> m[i].Empty?
    ensures var es := f + AddedEvents(added) + RemovedEvents(removed) + m;
      && (forall c :: ChildAdded(c) in es <==> c in added)
      && (forall c :: ChildRemoved(c) in es <==> c in removed)
  {
    var a := AddedEvents(added);
    var d := RemovedEvents(removed);
    var es := f + a + d + m;
    forall c ensures ChildAdded(c) in es <==> c in added {
      assert ChildAdded(c) in es <==> ChildAdded(c) in a;
    }
    forall c ensures ChildRemoved(c) in es <==> c in removed {
      assert ChildRemoved(c) in es <==> ChildRemoved(c) in d;
    }
  }

  /** Four runs of events hold `Empty` when the last run is not empty, and `First` when the first is not. */
  lemma RunsEnds(f: seq<Event>, added: seq<Child>, removed: seq<Child>, m: seq<Event>)
    requires forall i :: 0 <= i < |f| ==> f[i].First?
    requires forall i :: 0 <= i < |m| ==> m[i].Empty?
    ensures var es := f + AddedEvents(added) + RemovedEvents(removed) + m;
      && (Empty in es <==> m != [])
      && ((exists c :: First(c) in es) <==> f != [])
  {
    var a := AddedEvents(added);
    var d := RemovedEvents(removed);
    var es := f + a + d + m;
    if m != [] {
      assert es[|es| - 1] == m[|m| - 1] && m[|m| - 1] == Empty;
    } else {
      assert es == f + a + d;
      assert Empty !in f && Empty !in a && Empty !in d;
    }
    if f != [] {
      assert es[0] == f[0] && First(f[0].child) == f[0];
      assert First(f[0].child) in es;
    }
    forall c | First(c) in es ensures f != [] {
      assert First(c) !in a + d + m;
    }
  }

  /** Which events one change fires: each new child, each lost child, `Empty` and `First` exactly when due. */
  lemma AnnounceMembers(childs: seq<Child>, updated: seq<Child>)
    requires childs != [] || Except(updated, childs) != []
    ensures var es := Announce(childs, updated);
      && (forall c :: ChildAdded(c) in es <==> c in updated && c !in childs)
      && (forall c :: ChildRemoved(c) in es <==> c in childs && c !in updated)
      && (Empty in es <==> updated == [])
      && ((exists c :: First(c) in es) <==> childs == [])
  {
    var added := Except(updated, childs);
    var removed := Except(childs, updated);
    var first := if childs == [] then [First(added[0])] else [];
    var empty := if updated == [] then [Empty] else [];
    assert Announce(childs, updated) == first + AddedEvents(added) + RemovedEvents(removed) + empty;
    RunsChildren(first, added, removed, empty);
    RunsEnds(first, added, removed, empty);
  }

  /**
   * The firing order of one change: kinds in the order first, added,
   * removed, empty; `First` names the first child of the new list; the
   * added children follow the new list and the removed ones the old list.
   */
  lemma AnnounceOrder(childs: seq<Child>, updated: seq<Child>)
    requires childs != [] || Except(updated, childs) != []
    ensures var es := Announce(childs, updated);
      && KindsInOrder(es)
      && (childs == [] ==> |es| > 0 && es[0] == First(updated[0]))
      && AddedOf(es) == Except(updated, childs) && RemovedOf(es) == Except(childs, updated)
  {
    AnnounceKinds(childs, updated);
    AnnounceNames(childs, updated);
    if childs == [] {
      AnnounceFirst(updated);
    }
  }

  lemma AnnounceKinds(childs: seq<Child>, updated: seq<Child>)
    requires childs != [] || Except(updated, childs) != []
    ensures KindsInOrder(Announce(childs, updated))
  {
    var added := Except(updated, childs);
    var first := if childs == [] then [First(added[0])] else [];
    var empty := if updated == [] then [Empty] else [];
    PartsInOrder(first, AddedEvents(added), RemovedEvents(Except(childs, updated)), empty);
  }

  lemma AnnounceNames(childs: seq<Child>, updated: seq<Child>)
    requires childs != [] || Except(updated, childs) != []
    ensures AddedOf(Announce(childs, updated)) == Except(updated, childs)
    ensures RemovedOf(Announce(childs, updated)) == Except(childs, updated)
  {
    var added := Except(updated, childs);
    var first := if childs == [] then [First(added[0])] else [];
    var empty := if updated == [] then [Empty] else [];
    PartsAdded(first, added, Except(childs, updated), empty);
    PartsRemoved(first, added, Except(childs, updated), empty);
  }


  lemma AnnounceFirst(updated: seq<Child>)
    requires updated != []
    ensures |Announce([], updated)| > 0 && Announce([], updated)[0] == First(updated[0])
  {
    FirstAdded(updated);
  }

  /**
   * `OnTransformChildrenChanged`. With an empty tracked list the first added
   * child is announced, which throws when nothing was added; the tracked
   * list is then left as it was. `Empty` fires whenever the new list is
   * empty, since the tracked count is never negative.
   */
  function OnChildrenChanged(childs: seq<Child>, updated: seq<Child>): (r: Result<Changed, Error>)
    ensures r.Success? <==> childs != [] || exists c :: c in updated && c !in childs
    ensures r.Success? ==> r.value.childs == updated
    ensures r.Success? ==> forall c :: ChildAdded(c) in r.value.events <==> c in updated && c !in childs
    ensures r.Success? ==> forall c :: ChildRemoved(c) in r.value.events <==> c in childs && c !in updated
    ensures r.Success? ==> (Empty in r.value.events <==> updated == [])
    ensures r.Success? ==> ((exists c :: First(c) in r.value.events) <==> childs == [])
    ensures r.Success? ==> KindsInOrder(r.value.events)
    ensures r.Success? && childs == [] ==> |r.value.events| > 0 && r.value.events[0] == First(updated[0])
    ensures r.Success? ==> AddedOf(r.value.events) == Except(updated, childs) && RemovedOf(r.value.events) == Except(childs, updated)
  {
    var added := Except(updated, childs);
    assert added == [] <==> !exists c :: c in updated && c !in childs by {
      if added != [] {
        assert added[0] in added;
      }
      if exists c :: c in updated && c !in childs {
        var c :| c in updated && c !in childs;
        assert c in added;
      }
    }
    if childs == [] && added == [] then Failure(ArgumentOutOfRange)
    else
      AnnounceMembers(childs, updated);
      AnnounceOrder(childs, updated);
      Success(Changed(Announce(childs, updated), updated))
  }

  /** No event occurs twice. */
  predicate Distinct(es: seq<Event>)
  {
    forall i, j :: 0 <= i < j < |es| ==> es[i] != es[j]
  }

  lemma DistinctConcat(a: seq<Event>, b: seq<Event>)
    requires Distinct(a) && Distinct(b)
    requires forall e :: e in a ==> e !in b
    ensures Distinct(a + b)
  {
    forall i, j | 0 <= i < j < |a + b| ensures (a + b)[i] != (a + b)[j] {
      if i < |a| && j >= |a| {
        assert (a + b)[i] in a && (a + b)[j] == b[j - |a|];
      }
    }
  }

  /** No event fires twice in one change: each added and each removed child is announced once. */
  lemma EventsOnce(childs: seq<Child>, updated: seq<Child>)
    requires OnChildrenChanged(childs, updated).Success?
    ensures Distinct(OnChildrenChanged(childs, updated).value.events)
  {
    var added := Except(updated, childs);
    var removed := Except(childs, updated);
    var first := if childs == [] then [First(added[0])] else [];
    var empty := if updated == [] then [Empty] else [];
    var a := AddedEvents(added);
    var d := RemovedEvents(removed);
    assert Distinct(a) by {
      forall i, j | 0 <= i < j < |a| ensures a[i] != a[j] {
        assert added[i] != added[j];
      }
    }
    assert Distinct(d) by {
      forall i, j | 0 <= i < j < |d| ensures d[i] != d[j] {
        assert removed[i] != removed[j];
      }
    }
    DistinctConcat(first, a);
    DistinctConcat(first + a, d);
    DistinctConcat(first + a + d, empty);
    assert OnChildrenChanged(childs, updated).value.events == Announce(childs, updated);
  }

  /**
   * The announced changes reconstruct the new children from the old: the new
   * set is the old set less the removed ones plus the added ones.
   */
  lemma DiffReconstructs(childs: seq<Child>, updated: seq<Child>)
    ensures var added := Except(updated, childs);
            var removed := Except(childs, updated);
      && (set c | c in updated) == (set c | c in childs) - (set c | c in removed) + (set c | c in added)
      && (set c | c in added) !! (set c | c in childs)
      && (set c | c in removed) !! (set c | c in updated)
  {
  }
}
