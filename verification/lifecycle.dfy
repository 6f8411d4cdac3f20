/**
 * Entity lifecycle: the id-cache maintenance run when an entity's identity
 * appears, the `Dirty` marking of freshly created entities, and the delayed
 * destruction driven by `DestroyAfter` tick counters and the `Destroy` marker.
 *
 * A frame runs the initialisation group, whose end-of-group buffer plays
 * back, then the simulation group, whose end-of-group buffer plays back.
 */
module Lifecycle {
  import opened Store
  import opened Find
  import OneFrame
  import Commander

  /**
   * `InitialisationSystem.OnCreated`: the id now maps to the entity in the
   * cache, replacing any earlier entry, and leaves the buffered table.
   */
  function OnCreated(w: World, en: Entity, id: int): (r: World)
    ensures id in r.cached && r.cached[id] == en
    ensures id !in r.buffered
    ensures forall k :: k != id ==> (k in r.cached <==> k in w.cached) && (k in r.buffered <==> k in w.buffered)
    ensures forall k :: k != id && k in r.cached ==> r.cached[k] == w.cached[k]
    ensures forall k :: k != id && k in r.buffered ==> r.buffered[k] == w.buffered[k]
    ensures r.store == w.store
  {
    var cached := if id !in w.cached then w.cached[id := en] else (w.cached - {id})[id := en];
    var buffered := if id in w.buffered then w.buffered - {id} else w.buffered;
    w.(cached := cached, buffered := buffered)
  }

  /** Caching a live entity under the id its identity carries keeps the cache sound. */
  lemma OnCreatedSound(w: World, en: Entity, id: int)
    requires CacheSound(w.store, w.cached) && Carries(w.store, en, id)
    ensures CacheSound(w.store, OnCreated(w, en, id).cached)
  {
  }

  /**
   * `InitialisationSystem.OnCreate`: `Created` and `Dirty` are registered,
   * as written, as one-frame components on the all-entities query. Both
   * types are registered nowhere else, so on a registry that does not know
   * them yet this agrees with the pair-test registration.
   */
  function RegisterMarkers(r: OneFrame.Registry): (r': OneFrame.Registry)
    ensures r'.components == r.components + {CreatedK, DirtyK} && r'.initialized == r.initialized
    ensures OneFrame.Consistent(r) ==> OneFrame.Consistent(r')
    ensures !r.initialized ==> r'.active == r.active && r'.buffered == r.buffered + [OneFrame.OneFrame({}, CreatedK), OneFrame.OneFrame({}, DirtyK)]
    ensures OneFrame.Consistent(r) && CreatedK !in r.components && DirtyK !in r.components ==>
              && r' == OneFrame.Register(OneFrame.Register(r, CreatedK, {}), DirtyK, {})
              && (r.initialized ==> r'.buffered == r.buffered && r'.active == r.active + [OneFrame.OneFrame({}, CreatedK), OneFrame.OneFrame({}, DirtyK)])
  {
    var r1 := OneFrame.RegisterAsWritten(r, CreatedK, {});
    var r2 := OneFrame.RegisterAsWritten(r1, DirtyK, {});
    assert OneFrame.Consistent(r) && CreatedK !in r.components && DirtyK !in r.components ==>
             r2 == OneFrame.Register(OneFrame.Register(r, CreatedK, {}), DirtyK, {}) by {
      if OneFrame.Consistent(r) && CreatedK !in r.components && DirtyK !in r.components {
        OneFrame.RegisterFreshAgrees(r, CreatedK, {});
        OneFrame.RegisterFreshAgrees(r1, DirtyK, {});
      }
    }
    r2
  }

  /** `InitialisationSystem.OnUpdate`, at the playback of its buffer: every queried entity with `Identity` and `Created` gains `Dirty`. */
  function MarkDirty(s: Store): (r: Store)
    ensures r.order == s.order && r.nextIndex == s.nextIndex && r.comps.Keys == s.comps.Keys
    ensures forall e :: Has(r, e, DirtyK) <==> Has(s, e, DirtyK) || (Queried(s, e) && Has(s, e, IdentityK) && Has(s, e, CreatedK))
    ensures forall e, k :: e in r.comps && k != DirtyK ==>
              (k in r.comps[e] <==> k in s.comps[e]) && (k in r.comps[e] ==> r.comps[e][k] == s.comps[e][k])
  {
    s.(comps := map e | e in s.comps ::
         if PrefabK !in s.comps[e] && IdentityK in s.comps[e] && CreatedK in s.comps[e] then s.comps[e][DirtyK := MarkerV] else s.comps[e])
  }

  /** Whether the countdown visits the entity: a queried entity with `DestroyAfter` and not yet `Destroy`. */
  predicate Counting(s: Store, e: Entity)
  {
    Queried(s, e) && Has(s, e, DestroyAfterK) && !Has(s, e, DestroyK) && s.comps[e][DestroyAfterK].DestroyAfterV?
  }

  /** The countdown's writes and the entities it marked for destruction. */
  datatype Countdown = Countdown(store: Store, marks: set<Entity>)

  /**
   * `DestroySystem.OnUpdate`, countdown part: each visited entity's ticks
   * drop by one, and those at or below zero are marked; the marks are
   * recorded for the NEXT frame's end-of-initialisation playback.
   */
  function CountDown(s: Store): (r: Countdown)
    ensures r.store.order == s.order && r.store.nextIndex == s.nextIndex && r.store.comps.Keys == s.comps.Keys
    ensures forall e :: e in s.comps && Counting(s, e) ==>
              r.store.comps[e] == s.comps[e][DestroyAfterK := DestroyAfterV(s.comps[e][DestroyAfterK].ticks - 1)]
    ensures forall e :: e in s.comps && !Counting(s, e) ==> r.store.comps[e] == s.comps[e]
    ensures forall e :: e in r.marks <==> Counting(s, e) && s.comps[e][DestroyAfterK].ticks - 1 <= 0
  {
    var comps := map e | e in s.comps ::
      if Counting(s, e) then s.comps[e][DestroyAfterK := DestroyAfterV(s.comps[e][DestroyAfterK].ticks - 1)] else s.comps[e];
    var marks := set e | e in s.comps && Counting(s, e) && s.comps[e][DestroyAfterK].ticks - 1 <= 0;
    Countdown(s.(comps := comps), marks)
  }

  /** The recorded marks played back: every marked entity that still exists gains `Destroy`. */
  function ApplyMarks(s: Store, marks: set<Entity>): (r: Store)
    ensures r.order == s.order && r.nextIndex == s.nextIndex && r.comps.Keys == s.comps.Keys
    ensures forall e :: Has(r, e, DestroyK) <==> Has(s, e, DestroyK) || (e in marks && e in s.comps)
    ensures forall e, k :: e in r.comps && k != DestroyK ==>
              (k in r.comps[e] <==> k in s.comps[e]) && (k in r.comps[e] ==> r.comps[e][k] == s.comps[e][k])
  {
    s.(comps := map e | e in s.comps :: if e in marks then s.comps[e][DestroyK := MarkerV] else s.comps[e])
  }

  /** Whether the sweep's `Destroy` query visits the entity. */
  predicate Doomed(s: Store, e: Entity)
  {
    Queried(s, e) && DestroyK in s.comps[e]
  }

  /**
   * Destroys every entity of `order` that the `Destroy` query visits: those
   * without system-state components stop existing, the others linger with
   * only those components.
   */
  function DestroyAll(s: Store, order: seq<Entity>): (r: Store)
    ensures forall e :: Live(r, e) <==> Live(s, e) && !(e in order && Doomed(s, e) && !HoldsState(s.comps[e]))
    ensures forall e :: e in r.comps ==> e in s.comps && r.comps[e] == (if e in order && Doomed(s, e) then Remains(s.comps[e]) else s.comps[e])
    ensures Valid(s) ==> Valid(r)
    decreases |order|
  {
    if order == [] then s
    else
      var x := order[0];
      var s1 := if Doomed(s, x) then Destroy(s, x) else s;
      var r := DestroyAll(s1, order[1..]);
      forall e
        ensures Live(r, e) <==> Live(s, e) && !(e in order && Doomed(s, e) && !HoldsState(s.comps[e]))
        ensures e in r.comps ==> e in s.comps && r.comps[e] == (if e in order && Doomed(s, e) then Remains(s.comps[e]) else s.comps[e])
      {
        assert e in order <==> e == x || e in order[1..];
        if e != x {
          assert Live(s1, e) <==> Live(s, e);
          assert Live(s1, e) ==> s1.comps[e] == s.comps[e];
        } else if Doomed(s, x) && Live(s1, x) {
          assert s1.comps[x] == Remains(s.comps[x]) && !Doomed(s1, x);
        }
      }
      r
  }

  /**
   * `DestroyEntitiesForEntityQuery(Destroy)` at the end-of-simulation
   * playback: every entity carrying `Destroy` is destroyed, and lingers when
   * it holds system-state components.
   */
  function Sweep(s: Store): (r: Store)
    requires Valid(s)
    ensures Valid(r)
    ensures forall e :: Live(r, e) <==> Live(s, e) && !(Doomed(s, e) && !HoldsState(s.comps[e]))
    ensures forall e :: e in r.comps ==> e in s.comps && r.comps[e] == (if Doomed(s, e) then Remains(s.comps[e]) else s.comps[e])
  {
    DestroyAll(s, s.order)
  }

  /** The store and the marks still waiting for the next end-of-initialisation playback. */
  datatype Frame = Frame(store: Store, pending: set<Entity>)

  /**
   * One frame of the lifecycle: the initialisation group's playback adds
   * `Dirty` and the previous frame's `Destroy` marks, the countdown runs,
   * and the simulation group's playback destroys every entity carrying
   * `Destroy`.
   */
  function Tick(f: Frame): (r: Frame)
    requires Valid(f.store)
    ensures Valid(r.store)
  {
    var played := ApplyMarks(MarkDirty(f.store), f.pending);
    var counted := CountDown(played);
    Frame(Sweep(counted.store), counted.marks)
  }

  /** The initialisation playback keeps a queried entity queried and adds `Destroy` exactly when it was marked. */
  lemma PlayedEntry(s: Store, pending: set<Entity>, e: Entity)
    requires Queried(s, e)
    ensures var p := ApplyMarks(MarkDirty(s), pending);
      && Queried(p, e)
      && (Has(p, e, DestroyK) <==> Has(s, e, DestroyK) || e in pending)
      && (Has(p, e, DestroyAfterK) <==> Has(s, e, DestroyAfterK))
      && (Has(s, e, DestroyAfterK) ==> p.comps[e][DestroyAfterK] == s.comps[e][DestroyAfterK])
  {
    var d := MarkDirty(s);
    assert PrefabK !in d.comps[e] && (DestroyK in d.comps[e] <==> DestroyK in s.comps[e]);
  }

  /** Components that agree on every system-state type leave the same remains. */
  lemma SameState(c1: Components, c2: Components)
    requires forall k :: SystemState(k) ==> (k in c1 <==> k in c2) && (k in c1 ==> c1[k] == c2[k])
    ensures HoldsState(c1) == HoldsState(c2) && Remains(c1) == Remains(c2)
  {
    if HoldsState(c1) {
      var k :| k in c1 && SystemState(k);
      assert k in c2;
    }
    if HoldsState(c2) {
      var k :| k in c2 && SystemState(k);
      assert k in c1;
    }
    assert Remains(c1).Keys == Remains(c2).Keys;
  }

  /** The playback and the countdown touch no system-state component. */
  lemma FrameKeepsState(s: Store, pending: set<Entity>, e: Entity)
    requires e in s.comps
    ensures var c := CountDown(ApplyMarks(MarkDirty(s), pending)).store.comps[e];
      HoldsState(c) == HoldsState(s.comps[e]) && Remains(c) == Remains(s.comps[e])
  {
    var c := CountDown(ApplyMarks(MarkDirty(s), pending)).store.comps[e];
    forall k | SystemState(k) ensures (k in c <==> k in s.comps[e]) && (k in c ==> c[k] == s.comps[e][k]) {
      assert k != DirtyK && k != DestroyK && k != DestroyAfterK;
    }
    SameState(c, s.comps[e]);
  }

  /**
   * A frame that starts with a queried entity marked destroys it: it is gone
   * afterwards unless it holds system-state components, and then it lingers
   * with only those.
   */
  lemma MarkedFrameDestroys(f: Frame, e: Entity)
    requires Valid(f.store) && Queried(f.store, e) && e in f.pending
    ensures var r := Tick(f).store;
      && (Live(r, e) <==> HoldsState(f.store.comps[e]))
      && (Live(r, e) ==> Lingering(r, e) && r.comps[e] == Remains(f.store.comps[e]))
  {
    var played := ApplyMarks(MarkDirty(f.store), f.pending);
    PlayedEntry(f.store, f.pending, e);
    var counted := CountDown(played);
    assert !Counting(played, e);
    assert Doomed(counted.store, e);
    FrameKeepsState(f.store, f.pending, e);
  }

  /**
   * A Delete takes two frames, not one: an entity carrying the
   * `DestroyAfter{Ticks = 1}` a Delete attaches survives the first frame
   * (it is only marked) and is destroyed at the end of the second. It is
   * gone then unless it holds system-state components; with them it lingers
   * with only those, until the systems that own them remove them.
   */
  lemma DeleteTakesTwoFrames(f: Frame, e: Entity)
    requires Valid(f.store) && Queried(f.store, e) && e !in f.pending && !Has(f.store, e, DestroyK)
    requires Has(f.store, e, Commander.DeleteMark.kind) && f.store.comps[e][Commander.DeleteMark.kind] == Commander.DeleteMark.value
    ensures var f1 := Tick(f);
      && Live(f1.store, e) && e in f1.pending
      && (Live(Tick(f1).store, e) <==> HoldsState(f.store.comps[e]))
      && (Live(Tick(f1).store, e) ==> Lingering(Tick(f1).store, e) && Tick(f1).store.comps[e] == Remains(f.store.comps[e]))
  {
    var played := ApplyMarks(MarkDirty(f.store), f.pending);
    PlayedEntry(f.store, f.pending, e);
    assert Counting(played, e);
    var counted := CountDown(played);
    assert PrefabK !in counted.store.comps[e] && DestroyK !in counted.store.comps[e];
    var f1 := Tick(f);
    assert !Doomed(counted.store, e);
    assert f1.store.comps[e] == counted.store.comps[e];
    FrameKeepsState(f.store, f.pending, e);
    MarkedFrameDestroys(f1, e);
  }

  /**
   * The cache's window on a deleted entity the created detector tracks: two
   * frames after the Delete, the entity has lost its `Identity` but still
   * exists through its `State` copy, so `FindById` answers with it from the
   * cache.
   */
  lemma DeletedStaysCached(f: Frame, e: Entity, cached: map<int, Entity>, id: int)
    requires Valid(f.store) && Queried(f.store, e) && e !in f.pending && !Has(f.store, e, DestroyK)
    requires Has(f.store, e, Commander.DeleteMark.kind) && f.store.comps[e][Commander.DeleteMark.kind] == Commander.DeleteMark.value
    requires Has(f.store, e, StateOf(IdentityK)) && id in cached && cached[id] == e
    ensures var s2 := Tick(Tick(f)).store;
      && Lingering(s2, e) && !Has(s2, e, IdentityK) && IdOf(s2, e).None?
      && FindById(s2, cached, id) == Lookup(cached, e)
  {
    assert HoldsState(f.store.comps[e]) by {
      assert StateOf(IdentityK) in f.store.comps[e] && SystemState(StateOf(IdentityK));
    }
    DeleteTakesTwoFrames(f, e);
    var s2 := Tick(Tick(f)).store;
    assert Live(s2, e) && s2.comps[e] == Remains(f.store.comps[e]);
    assert IdentityK !in s2.comps[e] by {
      assert !SystemState(IdentityK);
    }
    assert CacheHit(s2, cached, id);
  }
}
