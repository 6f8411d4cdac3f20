/**
 * The registry of one-frame components: every registered component type is
 * removed, at the end of each frame, from every entity matching the query it
 * was registered with. Registrations made before the system's `OnCreate`
 * has run wait in a buffer and are converted on its next update.
 */
module OneFrame {
  import opened Store

  /** An entity query by required component types; the engine hands out one query object per distinct set. */
  type Query = set<Kind>

  /** A component type stripped from the entities of a query. */
  datatype OneFrame = OneFrame(query: Query, kind: Kind)

  /** The system's state: whether it exists yet, the registered types, waiting and active registrations. */
  datatype Registry = Registry(initialized: bool, components: set<Kind>, buffered: seq<OneFrame>, active: seq<OneFrame>)

  /** Whether a query visits a live entity: it is no prefab template and has every component the query requires. */
  predicate Matches(s: Store, e: Entity, q: Query)
    requires e in s.comps
  {
    PrefabK !in s.comps[e] && q <= s.comps[e].Keys
  }

  /**
   * `Exists` as written: the type is registered under SOME query, and SOME
   * active registration uses the query; the pair itself is never compared.
   */
  predicate Exists(r: Registry, k: Kind, q: Query)
  {
    k in r.components && exists i :: 0 <= i < |r.active| && r.active[i].query == q
  }

  /** `Exists` as intended: an active registration of this very type with this very query. */
  predicate ExistsPair(r: Registry, k: Kind, q: Query)
  {
    OneFrame(q, k) in r.active
  }

  /** Every type in an active or waiting registration is in the registered set. */
  predicate Consistent(r: Registry)
  {
    && (forall i :: 0 <= i < |r.active| ==> r.active[i].kind in r.components)
    && (forall i :: 0 <= i < |r.buffered| ==> r.buffered[i].kind in r.components)
  }

  /** `Register` with the pair test the method's documentation describes: the corrected registration; `RegisterAsWritten` is what the program does. */
  function Register(r: Registry, k: Kind, q: Query): (r': Registry)
    ensures Consistent(r) ==> Consistent(r') && r'.components == r.components + {k}
    ensures r'.initialized == r.initialized
    // before initialisation only the buffer grows
    ensures !r.initialized ==> r'.active == r.active && r'.buffered == r.buffered + [OneFrame(q, k)]
    // afterwards the pair becomes active exactly once
    ensures r.initialized ==> r'.buffered == r.buffered && OneFrame(q, k) in r'.active
    ensures r.initialized ==> (r'.active == r.active <==> ExistsPair(r, k, q))
    ensures r.initialized && !ExistsPair(r, k, q) ==> r'.active == r.active + [OneFrame(q, k)]
  {
    if r.initialized then
      if ExistsPair(r, k, q) then r
      else r.(active := r.active + [OneFrame(q, k)], components := r.components + {k})
    else r.(buffered := r.buffered + [OneFrame(q, k)], components := r.components + {k})
  }

  /** `Register` exactly as written, with the type-blind `Exists`. */
  function RegisterAsWritten(r: Registry, k: Kind, q: Query): (r': Registry)
    ensures r'.components == r.components + {k} && r'.initialized == r.initialized
    ensures Consistent(r) ==> Consistent(r')
    ensures !r.initialized ==> r'.active == r.active && r'.buffered == r.buffered + [OneFrame(q, k)]
    ensures r.initialized ==> (r'.active == r.active <==> Exists(r, k, q))
  {
    if r.initialized then
      if Exists(r, k, q) then r
      else r.(active := r.active + [OneFrame(q, k)], components := r.components + {k})
    else r.(buffered := r.buffered + [OneFrame(q, k)], components := r.components + {k})
  }

  /**
   * The type-blind `Exists` loses a registration: after registering A on the
   * all-entities query and B on the query {X}, registering B on the
   * all-entities query is skipped, so B is never stripped from entities
   * lacking X. The pair test keeps it.
   */
  lemma ExistsIgnoresType()
    ensures var a := Other("A");
            var b := Other("B");
            var x := Other("X");
            var start := Registry(true, {}, [], []);
            var asWritten := RegisterAsWritten(RegisterAsWritten(RegisterAsWritten(start, a, {}), b, {x}), b, {});
            var fixed := Register(Register(Register(start, a, {}), b, {x}), b, {});
      && OneFrame({}, b) !in asWritten.active
      && OneFrame({}, b) in fixed.active
  {
    var a := Other("A");
    var b := Other("B");
    var x := Other("X");
    var start := Registry(true, {}, [], []);
    var r1 := RegisterAsWritten(start, a, {});
    assert r1.active == [OneFrame({}, a)];
    var r2 := RegisterAsWritten(r1, b, {x});
    assert r2.active == [OneFrame({}, a), OneFrame({x}, b)];
    assert Exists(r2, b, {}) by { assert r2.active[0].query == {}; }
    var r3 := RegisterAsWritten(r2, b, {});
    assert r3.active == r2.active;
    assert a != b;
  }

  /** For a type registered for the first time both tests agree, so the program's own registrations are unaffected. */
  lemma RegisterFreshAgrees(r: Registry, k: Kind, q: Query)
    requires k !in r.components && Consistent(r)
    ensures RegisterAsWritten(r, k, q) == Register(r, k, q)
  {
    if r.initialized {
      assert !Exists(r, k, q);
      assert !ExistsPair(r, k, q) by {
        forall i | 0 <= i < |r.active| ensures r.active[i] != OneFrame(q, k) {
          assert r.active[i].kind in r.components;
        }
      }
    }
  }

  /** Moves waiting registrations into the active list in order, skipping pairs already active. */
  function Activate(active: seq<OneFrame>, waiting: seq<OneFrame>): (r: seq<OneFrame>)
    ensures active <= r
    ensures forall f :: f in r <==> f in active || f in waiting
    decreases |waiting|
  {
    if waiting == [] then active
    else
      var f := waiting[0];
      Activate(if f in active then active else active + [f], waiting[1..])
  }

  /** The conversion loop exactly as written: a waiting registration is skipped when the type-blind `Exists` holds. */
  function ActivateAsWritten(r: Registry, waiting: seq<OneFrame>): (r': Registry)
    ensures r'.components == r.components && r'.initialized == r.initialized && r'.buffered == r.buffered
    ensures r.active <= r'.active
    ensures forall f :: f in r'.active ==> f in r.active || f in waiting
    // a waiting registration is left out only when its type is registered and its query is already in use
    ensures forall f :: f in waiting ==> f in r'.active || Exists(r', f.kind, f.query)
    decreases |waiting|
  {
    if waiting == [] then r
    else
      var f := waiting[0];
      var next := if Exists(r, f.kind, f.query) then r else r.(active := r.active + [f]);
      var r' := ActivateAsWritten(next, waiting[1..]);
      assert f in r'.active || Exists(r', f.kind, f.query) by {
        if Exists(r, f.kind, f.query) {
          var i :| 0 <= i < |r.active| && r.active[i].query == f.query;
          assert r'.active[i] == r.active[i];
        } else {
          assert next.active[|r.active|] == f;
          assert r'.active[|r.active|] == f;
        }
      }
      r'
  }

  /** `RemoveComponentForEntityQuery`: every live entity matching the query loses the type. */
  function RemoveForQuery(s: Store, f: OneFrame): (r: Store)
    ensures r.order == s.order && r.nextIndex == s.nextIndex && r.comps.Keys == s.comps.Keys
    ensures forall e :: e in r.comps ==> r.comps[e] == if Matches(s, e, f.query) then s.comps[e] - {f.kind} else s.comps[e]
  {
    s.(comps := map e | e in s.comps :: if Matches(s, e, f.query) then s.comps[e] - {f.kind} else s.comps[e])
  }

  /** The end-of-frame playback of every active registration, in list order. */
  function Strip(s: Store, fs: seq<OneFrame>): (r: Store)
    decreases |fs|
  {
    if fs == [] then s else Strip(RemoveForQuery(s, fs[0]), fs[1..])
  }

  /**
   * After the strip no entity that still matches a registration's query
   * carries its type; entities are neither created nor destroyed, every
   * surviving component keeps its value, and prefab templates are untouched.
   */
  lemma {:induction false} StripClears(s: Store, fs: seq<OneFrame>)
    ensures var r := Strip(s, fs);
      && r.order == s.order && r.nextIndex == s.nextIndex && r.comps.Keys == s.comps.Keys
      && (forall e, k :: e in r.comps && k in r.comps[e] ==> k in s.comps[e] && r.comps[e][k] == s.comps[e][k])
      && (forall e :: e in s.comps && PrefabK in s.comps[e] ==> r.comps[e] == s.comps[e])
      && (forall i, e :: 0 <= i < |fs| && e in r.comps && Matches(r, e, fs[i].query) ==> fs[i].kind !in r.comps[e])
    decreases |fs|
  {
    if fs != [] {
      var s1 := RemoveForQuery(s, fs[0]);
      StripClears(s1, fs[1..]);
      var r := Strip(s, fs);
      assert r == Strip(s1, fs[1..]);
      forall i, e | 0 <= i < |fs| && e in r.comps && Matches(r, e, fs[i].query)
        ensures fs[i].kind !in r.comps[e]
      {
        if i == 0 {
          // the query still matches, so it matched when the first registration played back
          assert PrefabK !in s1.comps[e];
          assert fs[0].query <= s1.comps[e].Keys;
          assert fs[0].kind !in s1.comps[e];
        } else {
          assert fs[i] == fs[1..][i - 1];
        }
      }
    }
  }

  /**
   * `OnUpdate` as written: converts the waiting registrations with the
   * type-blind `Exists`, empties the buffer, and removes every active
   * one-frame type at the end of the frame.
   */
  function Update(r: Registry, s: Store): (out: (Registry, Store))
    ensures out.0.buffered == [] && out.0.components == r.components && out.0.initialized == r.initialized
    ensures r.active <= out.0.active
    ensures forall f :: f in out.0.active ==> f in r.active || f in r.buffered
    ensures forall f :: f in r.buffered ==> f in out.0.active || Exists(out.0, f.kind, f.query)
    ensures out.1.order == s.order && out.1.comps.Keys == s.comps.Keys
    ensures forall i, e :: 0 <= i < |out.0.active| && e in out.1.comps && Matches(out.1, e, out.0.active[i].query) ==>
              out.0.active[i].kind !in out.1.comps[e]
  {
    var r' := ActivateAsWritten(r, r.buffered).(buffered := []);
    StripClears(s, r'.active);
    (r', Strip(s, r'.active))
  }

  /**
   * `OnUpdate` with the pair test: every waiting registration not already
   * active becomes active, so the active list ends as exactly the active
   * and the waiting registrations.
   */
  function UpdateByPair(r: Registry, s: Store): (out: (Registry, Store))
    ensures out.0.buffered == [] && out.0.components == r.components && out.0.initialized == r.initialized
    ensures r.active <= out.0.active
    ensures forall f :: f in out.0.active <==> f in r.active || f in r.buffered
    ensures out.1.order == s.order && out.1.comps.Keys == s.comps.Keys
    ensures forall i, e :: 0 <= i < |out.0.active| && e in out.1.comps && Matches(out.1, e, out.0.active[i].query) ==>
              out.0.active[i].kind !in out.1.comps[e]
  {
    var r' := r.(active := Activate(r.active, r.buffered), buffered := []);
    StripClears(s, r'.active);
    (r', Strip(s, r'.active))
  }

  /**
   * Through the buffer the loss needs no repeated type: `Created` and
   * `Dirty` registered on the all-entities query while the system's
   * `OnCreate` has not yet run, then the system's `OnCreate` and first
   * update: as written `Dirty` is never stripped, with the pair test it is.
   * Whether registration can precede `OnCreate` depends on the world's
   * system-creation order; `InitialisationSystem` creates the system
   * before registering, so on that path both types take the initialised
   * route and stay active.
   */
  lemma BufferedSameQueryDropped(s: Store)
    ensures var waiting := Registry(false, {}, [], []);
            var r := RegisterAsWritten(RegisterAsWritten(waiting, CreatedK, {}), DirtyK, {}).(initialized := true);
      && OneFrame({}, DirtyK) !in Update(r, s).0.active
      && OneFrame({}, DirtyK) in UpdateByPair(r, s).0.active
  {
    var waiting := Registry(false, {}, [], []);
    var r := RegisterAsWritten(RegisterAsWritten(waiting, CreatedK, {}), DirtyK, {}).(initialized := true);
    assert r.buffered == [OneFrame({}, CreatedK), OneFrame({}, DirtyK)];
    assert r.active == [];
    assert !Exists(r, CreatedK, {});
    var r2 := r.(active := [OneFrame({}, CreatedK)]);
    assert r.buffered[0] == OneFrame({}, CreatedK);
    assert r.(active := r.active + [r.buffered[0]]) == r2;
    assert ActivateAsWritten(r, r.buffered) == ActivateAsWritten(r2, r.buffered[1..]);
    assert Exists(r2, DirtyK, {}) by { assert r2.active[0].query == {}; }
    assert r.buffered[1..][1..] == [];
    assert ActivateAsWritten(r2, r.buffered[1..]) == r2;
  }
}
