/**
 * The reactive detector lifted onto the entity store, and its one concrete
 * instance: `CreatedReactiveSystem` watches `Identity` with the markers
 * `Created` and `Destroyed`, and `InitialisationSystem.OnCreated` listens to
 * its added callback to keep the id cache current.
 */
module Created {
  import opened Wrappers
  import opened Store
  import opened Find
  import opened Reactive
  import Lifecycle

  /** A reactive system's component types: the watched component and its two one-pass markers. */
  datatype Watch = Watch(component: Kind, addedMarker: Kind, removedMarker: Kind)

  /** `ReactiveSystem<Identity, Created, Destroyed>`. */
  const CreatedWatch: Watch := Watch(IdentityK, CreatedK, DestroyedK)

  /** Whether a component type is one the system reads or writes, its `State` copy included. */
  predicate Watched(w: Watch, k: Kind)
  {
    k == w.component || k == w.addedMarker || k == w.removedMarker || k == StateOf(w.component)
  }

  /** The four component types are pairwise distinct. */
  predicate Separate(w: Watch)
  {
    && w.component != w.addedMarker && w.component != w.removedMarker && w.addedMarker != w.removedMarker
    && StateOf(w.component) != w.component
    && StateOf(w.component) != w.addedMarker && StateOf(w.component) != w.removedMarker
  }

  /** The system's view of one entity's components. */
  function TrackOf(c: Components, w: Watch): Track<Value>
  {
    Track(if w.component in c then Some(c[w.component]) else None,
          w.addedMarker in c,
          if StateOf(w.component) in c then Some(c[StateOf(w.component)]) else None,
          w.removedMarker in c)
  }

  /** Adds or removes one component type by an optional value. */
  function Write(c: Components, k: Kind, v: Option<Value>): (r: Components)
    ensures v.Some? ==> k in r && r[k] == v.value
    ensures v.None? ==> k !in r
    ensures forall j :: j != k ==> (j in r <==> j in c) && (j in r ==> r[j] == c[j])
  {
    if v.Some? then c[k := v.value] else c - {k}
  }

  /** Writes a track back onto the components; markers carry no data. */
  function WithTrack(c: Components, w: Watch, t: Track<Value>): (r: Components)
    ensures Separate(w) ==> TrackOf(r, w) == t
    ensures forall k :: !Watched(w, k) ==> (k in r <==> k in c) && (k in r ==> r[k] == c[k])
  {
    var c1 := Write(c, w.component, t.comp);
    var c2 := Write(c1, w.addedMarker, if t.added then Some(MarkerV) else None);
    var c3 := Write(c2, StateOf(w.component), t.state);
    Write(c3, w.removedMarker, if t.removed then Some(MarkerV) else None)
  }

  /** Markers present on the entity carry the marker value. */
  predicate MarkersPlain(c: Components, w: Watch)
  {
    (w.addedMarker in c ==> c[w.addedMarker] == MarkerV) && (w.removedMarker in c ==> c[w.removedMarker] == MarkerV)
  }

  /** Writing back the value a component type already has changes nothing. */
  lemma WriteSame(c: Components, k: Kind, v: Option<Value>)
    requires v == (if k in c then Some(c[k]) else None)
    ensures Write(c, k, v) == c
  {
  }

  /** Reading the track and writing it back changes nothing. */
  lemma TrackRoundTrip(c: Components, w: Watch)
    requires MarkersPlain(c, w)
    ensures WithTrack(c, w, TrackOf(c, w)) == c
  {
    var t := TrackOf(c, w);
    WriteSame(c, w.component, t.comp);
    WriteSame(c, w.addedMarker, if t.added then Some(MarkerV) else None);
    WriteSame(c, StateOf(w.component), t.state);
    WriteSame(c, w.removedMarker, if t.removed then Some(MarkerV) else None);
  }

  /**
   * One pass of the system over the store, once its buffer has played back:
   * the track of every entity its queries visit takes one step, prefab
   * templates are left alone, and nothing else changes. `onAdded(e)` is the
   * `ref` callback for entity `e`.
   */
  function Apply(s: Store, w: Watch, onAdded: Entity -> Value -> Value, managed: bool, q: Cleanup): (r: Store)
    ensures r.order == s.order && r.nextIndex == s.nextIndex && r.comps.Keys == s.comps.Keys
    ensures Separate(w) ==> forall e :: e in r.comps && Queried(s, e) ==>
              TrackOf(r.comps[e], w) == Step(TrackOf(s.comps[e], w), onAdded(e), managed, q).track
    ensures forall e :: e in r.comps && !Queried(s, e) ==> r.comps[e] == s.comps[e]
    ensures forall e, k :: e in r.comps && !Watched(w, k) ==>
              (k in r.comps[e] <==> k in s.comps[e]) && (k in r.comps[e] ==> r.comps[e][k] == s.comps[e][k])
  {
    s.(comps := map e | e in s.comps ::
         if PrefabK in s.comps[e] then s.comps[e]
         else WithTrack(s.comps[e], w, Step(TrackOf(s.comps[e], w), onAdded(e), managed, q).track))
  }

  /** The `OnAdded` callbacks of one pass, in query order, as entity and identity id. */
  function NewIdentities(s: Store, order: seq<Entity>): (r: seq<(Entity, int)>)
    ensures forall i :: 0 <= i < |r| ==>
              (r[i].0 in order && Carries(s, r[i].0, r[i].1) && IsNew(TrackOf(s.comps[r[i].0], CreatedWatch)))
    ensures forall e, id :: e in order && Carries(s, e, id) && IsNew(TrackOf(s.comps[e], CreatedWatch)) ==> (e, id) in r
    decreases |order|
  {
    if order == [] then []
    else
      var e := order[0];
      var rest := NewIdentities(s, order[1..]);
      if Queried(s, e) && IsNew(TrackOf(s.comps[e], CreatedWatch)) && IdOf(s, e).Some?
      then [(e, IdOf(s, e).value)] + rest
      else rest
  }

  /** `OnCreated` for each callback in turn. */
  function NotifyAll(w: World, news: seq<(Entity, int)>): (r: World)
    ensures r.store == w.store
    ensures forall id :: id in w.cached ==> id in r.cached
    ensures forall i :: 0 <= i < |news| ==>
              news[i].1 in r.cached && news[i].1 !in r.buffered && (r.cached[news[i].1], news[i].1) in news
    ensures forall id :: id in r.cached ==>
              (id in w.cached && r.cached[id] == w.cached[id]) || (r.cached[id], id) in news
    ensures forall id :: id in r.buffered ==> id in w.buffered && r.buffered[id] == w.buffered[id]
    decreases |news|
  {
    if news == [] then w
    else
      var r := NotifyAll(Lifecycle.OnCreated(w, news[0].0, news[0].1), news[1..]);
      assert forall i :: 1 <= i < |news| ==> news[i] == news[1..][i - 1];
      r
  }

  /**
   * `CreatedReactiveSystem` with `InitialisationSystem.OnCreated` subscribed:
   * every entity newly carrying an `Identity` is cached under its id, the
   * markers and shadow copies advance one pass, and a lingering entity whose
   * last `State` the cleanup query removes is destroyed.
   */
  function CreatedPass(w: World): (r: World)
    ensures r.store.nextIndex == w.store.nextIndex
    ensures forall e :: Live(r.store, e) <==> Live(w.store, e) && !(e in w.store.order && Ends(w.store, e))
    ensures Valid(w.store) ==> Valid(r.store)
  {
    var notified := NotifyAll(w, NewIdentities(w.store, w.store.order));
    notified.(store := CreatedStore(w.store))
  }

  /** The subscribed `OnCreated` takes the identity by `ref` and never writes it: the component keeps its value. */
  const KeepValue: Entity -> Value -> Value := _ => v => v

  /**
   * Whether the pass ends a lingering entity: the cleanup query visits it
   * and removes its `State`, the last system-state component it holds.
   */
  predicate Ends(s: Store, e: Entity)
  {
    && Queried(s, e) && Lingering(s, e)
    && ToRemove(TrackOf(s.comps[e], CreatedWatch), AsWritten)
    && forall k :: k in s.comps[e] && SystemState(k) ==> k == StateOf(IdentityK)
  }

  /** The entities of `order` the pass ends, in order. */
  function Ending(s: Store, order: seq<Entity>): (r: seq<Entity>)
    ensures forall x :: x in r <==> x in order && x in s.comps && Ends(s, x)
  {
    if order == [] then []
    else (if order[0] in s.comps && Ends(s, order[0]) then [order[0]] else []) + Ending(s, order[1..])
  }

  /** The components one pass leaves an entity, before the buffer destroys the spent ones. */
  function Stepped(s: Store): (r: Store)
    ensures r.order == s.order && r.nextIndex == s.nextIndex && r.comps.Keys == s.comps.Keys
    ensures Valid(s) ==> Valid(r)
  {
    Apply(s, CreatedWatch, KeepValue, false, AsWritten)
  }

  /**
   * The store after the created detector's pass: every step applied, and the
   * ended entities destroyed, since removing the last system-state component
   * of a lingering entity destroys it.
   */
  function CreatedStore(s: Store): (r: Store)
    ensures r.nextIndex == s.nextIndex
    ensures forall e :: Live(r, e) <==> Live(s, e) && !(e in s.order && Ends(s, e))
    ensures forall e :: e in r.comps ==> e in Stepped(s).comps && r.comps[e] == Stepped(s).comps[e]
    ensures Valid(s) ==> Valid(r)
  {
    var a := Stepped(s);
    DropAll(a, Ending(s, s.order))
  }

  /** What one step does to the components of an entity that is not a template. */
  function StepComps(c: Components, e: Entity): Components
  {
    WithTrack(c, CreatedWatch, Step(TrackOf(c, CreatedWatch), KeepValue(e), false, AsWritten).track)
  }

  /** A template keeps its components; every other entity takes one step. */
  lemma SteppedAt(s: Store, e: Entity)
    requires e in s.comps
    ensures Stepped(s).comps[e] == (if PrefabK in s.comps[e] then s.comps[e] else StepComps(s.comps[e], e))
  {
  }

  /** With the callback keeping the value, a step never changes the component. */
  lemma StepKeepsComponent(t: Track<Value>, e: Entity)
    ensures Step(t, KeepValue(e), false, AsWritten).track.comp == t.comp
  {
    assert t.comp.Some? ==> KeepValue(e)(t.comp.value) == t.comp.value;
  }

  /** A step keeps the template and cleanup tags and every system-state component but the `State` copy. */
  lemma StepKeepsTags(c: Components, e: Entity)
    ensures var a := StepComps(c, e);
      && (PrefabK in a <==> PrefabK in c) && (CleanupK in a <==> CleanupK in c)
      && forall k :: SystemState(k) && k != StateOf(IdentityK) ==> (k in a <==> k in c)
  {
    assert !Watched(CreatedWatch, PrefabK) && !Watched(CreatedWatch, CleanupK);
    assert forall k :: SystemState(k) && k != StateOf(IdentityK) ==> !Watched(CreatedWatch, k);
  }

  /** A step keeps the identity. */
  lemma StepKeepsIdentity(c: Components, e: Entity)
    ensures var a := StepComps(c, e);
      (IdentityK in a <==> IdentityK in c) && (IdentityK in c ==> a[IdentityK] == c[IdentityK])
  {
    var t := TrackOf(c, CreatedWatch);
    assert Separate(CreatedWatch);
    StepKeepsComponent(t, e);
    assert TrackOf(StepComps(c, e), CreatedWatch).comp == t.comp;
  }

  /** A step drops the `State` copy exactly when the cleanup query visits the entity. */
  lemma StepDropsState(c: Components, e: Entity)
    ensures StateOf(IdentityK) in c && StateOf(IdentityK) !in StepComps(c, e) <==> ToRemove(TrackOf(c, CreatedWatch), AsWritten)
  {
    var t := TrackOf(c, CreatedWatch);
    assert Separate(CreatedWatch);
    assert TrackOf(StepComps(c, e), CreatedWatch) == Step(t, KeepValue(e), false, AsWritten).track;
  }

  /**
   * The ended entities are exactly those the pass turns spent: lingering,
   * holding a system-state component before the pass and none after.
   */
  lemma CreatedStoreReaps(s: Store, e: Entity)
    requires e in s.comps
    ensures Ends(s, e) <==> !Spent(s.comps[e]) && Spent(Stepped(s).comps[e])
  {
    var c := s.comps[e];
    SteppedAt(s, e);
    if PrefabK !in c {
      var a := StepComps(c, e);
      StepKeepsTags(c, e);
      StepDropsState(c, e);
      assert Ends(s, e) ==> !Spent(c) && Spent(a) by {
        if Ends(s, e) {
          assert StateOf(IdentityK) in c && SystemState(StateOf(IdentityK));
          assert forall k :: k in a && SystemState(k) ==> k == StateOf(IdentityK);
        }
      }
      assert !Spent(c) && Spent(a) ==> Ends(s, e) by {
        if !Spent(c) && Spent(a) {
          var k :| k in c && SystemState(k);
          assert forall j :: j in c && SystemState(j) ==> j == StateOf(IdentityK);
          assert k == StateOf(IdentityK);
        }
      }
    }
  }

  /** Whether the pass ends the entity: it is in the query order and the cleanup query removes its last `State`. */
  predicate EndedBy(s: Store, e: Entity)
  {
    e in s.order && Ends(s, e)
  }

  /** Two component sets agree on the identity and on the template and cleanup tags. */
  predicate SameTags(a: Components, c: Components)
  {
    && (IdentityK in a <==> IdentityK in c) && (IdentityK in c ==> a[IdentityK] == c[IdentityK])
    && (PrefabK in a <==> PrefabK in c) && (CleanupK in a <==> CleanupK in c)
  }

  /**
   * The detector's pass leaves every surviving entity's identity, whether it
   * is a template, and whether it lingers, as they were; an ended entity
   * carried no identity.
   */
  lemma CreatedStoreKeepsIds(s: Store, e: Entity)
    ensures IdOf(CreatedStore(s), e) == IdOf(s, e)
    ensures Queried(CreatedStore(s), e) == (Queried(s, e) && !EndedBy(s, e))
    ensures Lingering(CreatedStore(s), e) == (Lingering(s, e) && !EndedBy(s, e))
  {
    assert IdOf(CreatedStore(s), e) == IdOf(s, e) by {
      AcrossPass(s, e);
    }
    assert Queried(CreatedStore(s), e) == (Queried(s, e) && !EndedBy(s, e)) by {
      AcrossPass(s, e);
    }
    assert Lingering(CreatedStore(s), e) == (Lingering(s, e) && !EndedBy(s, e)) by {
      AcrossPass(s, e);
    }
  }

  /**
   * A survivor of the pass kept its identity and tags; an entity the pass
   * ended lingered without an identity or the template tag.
   */
  lemma AcrossPass(s: Store, e: Entity)
    ensures Live(CreatedStore(s), e) ==> e in s.comps && !EndedBy(s, e) && SameTags(CreatedStore(s).comps[e], s.comps[e])
    ensures e in s.comps && !Live(CreatedStore(s), e) ==> EndedBy(s, e) && IdentityK !in s.comps[e] && PrefabK !in s.comps[e] && CleanupK in s.comps[e]
  {
    if Live(CreatedStore(s), e) {
      var c := s.comps[e];
      SteppedAt(s, e);
      StepKeepsTags(c, e);
      StepKeepsIdentity(c, e);
      assert SameTags(Stepped(s).comps[e], c);
    }
  }

  /** So the whole pass does the same. */
  lemma CreatedPassKeepsIds(w: World, e: Entity)
    ensures IdOf(CreatedPass(w).store, e) == IdOf(w.store, e)
    ensures Queried(CreatedPass(w).store, e) == (Queried(w.store, e) && !EndedBy(w.store, e))
    ensures Lingering(CreatedPass(w).store, e) == (Lingering(w.store, e) && !EndedBy(w.store, e))
  {
    assert CreatedPass(w).store == CreatedStore(w.store);
    CreatedStoreKeepsIds(w.store, e);
  }

  /** Soundness depends only on which entities live, the ids they carry and whether they linger. */
  lemma CacheSoundTransfer(s1: Store, s2: Store, cached: map<int, Entity>)
    requires CacheSound(s1, cached)
    requires forall x :: Live(s2, x) ==>
               Live(s1, x) && IdOf(s2, x) == IdOf(s1, x) && Queried(s2, x) == Queried(s1, x) && Lingering(s2, x) == Lingering(s1, x)
    ensures CacheSound(s2, cached)
  {
    forall id | id in cached && Live(s2, cached[id]) ensures Carries(s2, cached[id], id) || Lingering(s2, cached[id]) {
      var x := cached[id];
      assert Live(s1, x) && IdOf(s2, x) == IdOf(s1, x) && Queried(s2, x) == Queried(s1, x) && Lingering(s2, x) == Lingering(s1, x);
    }
  }

  /** Caching entities that carry their ids keeps a sound cache sound. */
  lemma NotifyAllSound(w: World, news: seq<(Entity, int)>)
    requires CacheSound(w.store, w.cached)
    requires forall i :: 0 <= i < |news| ==> Carries(w.store, news[i].0, news[i].1)
    ensures CacheSound(w.store, NotifyAll(w, news).cached)
  {
    var r := NotifyAll(w, news);
    forall id | id in r.cached && Live(w.store, r.cached[id])
      ensures Carries(w.store, r.cached[id], id) || Lingering(w.store, r.cached[id])
    {
      if (r.cached[id], id) in news {
        var i :| 0 <= i < |news| && news[i] == (r.cached[id], id);
        assert Carries(w.store, news[i].0, news[i].1);
      } else {
        assert id in w.cached && r.cached[id] == w.cached[id];
      }
    }
  }

  /** With a sound cache, the pass leaves the cache sound. */
  lemma CreatedPassSound(w: World)
    requires CacheSound(w.store, w.cached)
    ensures var r := CreatedPass(w); CacheSound(r.store, r.cached)
  {
    var r := CreatedPass(w);
    var news := NewIdentities(w.store, w.store.order);
    assert r.cached == NotifyAll(w, news).cached;
    forall x | Live(r.store, x)
      ensures Live(w.store, x) && IdOf(r.store, x) == IdOf(w.store, x) && Queried(r.store, x) == Queried(w.store, x)
      ensures Lingering(r.store, x) == Lingering(w.store, x)
    {
      CreatedPassKeepsIds(w, x);
    }
    NotifyAllSound(w, news);
    CacheSoundTransfer(w.store, r.store, r.cached);
  }

  /**
   * Every entity whose identity the pass reported is findable through the
   * cache under its id afterwards, and the id has left the buffered table.
   */
  lemma CreatedPassCaches(w: World, e: Entity, id: int)
    requires e in w.store.order && Carries(w.store, e, id) && IsNew(TrackOf(w.store.comps[e], CreatedWatch))
    ensures var r := CreatedPass(w);
      id in r.cached && id !in r.buffered && Carries(r.store, r.cached[id], id)
  {
    var r := CreatedPass(w);
    var news := NewIdentities(w.store, w.store.order);
    var notified := NotifyAll(w, news);
    assert r.cached == notified.cached && r.buffered == notified.buffered;
    assert (e, id) in news;
    var i :| 0 <= i < |news| && news[i] == (e, id);
    var x := r.cached[id];
    assert (x, id) in news;
    var j :| 0 <= j < |news| && news[j] == (x, id);
    assert Carries(w.store, x, id) && IdentityK in w.store.comps[x];
    assert !Ends(w.store, x);
    CreatedPassKeepsIds(w, x);
  }

  /**
   * The components of an entity lingering on its identity's `State` copy
   * `v` alone, with `Destroyed` attached or not.
   */
  predicate OnIdState(c: Components, v: Value, removed: bool)
  {
    && TrackOf(c, CreatedWatch) == Track(None, false, Some(v), removed)
    && CleanupK in c && PrefabK !in c
    && forall k :: k in c && SystemState(k) ==> k == StateOf(IdentityK)
  }

  /** The pass's step on such an entity marks it `Destroyed`. */
  lemma StepMarksLingering(c: Components, e: Entity, v: Value)
    requires OnIdState(c, v, false)
    ensures OnIdState(StepComps(c, e), v, true)
  {
    var a := StepComps(c, e);
    assert TrackOf(a, CreatedWatch) == Track(None, false, Some(v), true) by {
      var t := Track(None, false, Some(v), false);
      assert StateOnly(t);
      assert Step(t, KeepValue(e), false, AsWritten).track == Track(None, false, Some(v), true);
      assert Separate(CreatedWatch);
    }
    StepKeepsTags(c, e);
  }

  /** The pass keeps such an entity, marking it `Destroyed`. */
  lemma PassMarksLingering(s: Store, e: Entity, v: Value)
    requires e in s.comps && OnIdState(s.comps[e], v, false)
    ensures Live(CreatedStore(s), e) && OnIdState(CreatedStore(s).comps[e], v, true)
  {
    assert !Ends(s, e);
    SteppedAt(s, e);
    StepMarksLingering(s.comps[e], e, v);
  }

  /** The pass after destroys it for good. */
  lemma PassEndsMarked(s: Store, e: Entity, v: Value)
    requires Valid(s) && e in s.comps && OnIdState(s.comps[e], v, true)
    ensures !Live(CreatedStore(s), e)
  {
    assert Ends(s, e);
  }

  /**
   * A destroyed entity lingering on the `State` copy of its identity alone is
   * reported as removed by the next pass, which marks it `Destroyed`, and is
   * destroyed for good by the pass after, when the cleanup query takes its
   * last `State`.
   */
  lemma LingeringEndsInTwoPasses(s: Store, e: Entity, v: Value)
    requires Valid(s) && e in s.comps && s.comps[e] == map[StateOf(IdentityK) := v, CleanupK := MarkerV]
    ensures var s1 := CreatedStore(s);
      && Valid(s1) && Lingering(s1, e) && Has(s1, e, DestroyedK) && !Has(s1, e, IdentityK)
      && !Live(CreatedStore(s1), e)
  {
    assert OnIdState(s.comps[e], v, false) by {
      var c := s.comps[e];
      assert forall k :: k in c ==> k == StateOf(IdentityK) || k == CleanupK;
    }
    PassMarksLingering(s, e, v);
    PassEndsMarked(CreatedStore(s), e, v);
  }
}
