/**
 * The local entity store the reconciliation layer writes into: live entity
 * handles, their components, the prototype registry used for cloning, and
 * the component-store primitives (has/get/add/set/remove/destroy) with the
 * failure cases of the engine's EntityManager.
 */
module Store {
  import opened Wrappers
  import FixedStrings

  /**
   * Component types the modelled systems name; `Other` stands for any payload
   * type. `StateOf(k)` is a reactive system's shadow copy of `k`, the only
   * system-state component (`ISystemStateComponentData`) of the model;
   * `CleanupK` is the engine's `CleanupEntity` tag on a destroyed entity that
   * its system-state components keep alive.
   */
  datatype Kind =
    | IdentityK | CreatedK | DestroyedK | DirtyK | DestroyAfterK | DestroyK
    | ChildK | ParentK | InventoryK | AnimationK | CharacterK | PrefabK
    | CleanupK
    | StateOf(tracked: Kind)
    | Other(name: string)

  /** An entity handle; the engine's `Entity.Null` has index 0 and version 0. */
  datatype Entity = Entity(index: int, version: int)

  const Null: Entity := Entity(0, 0)

  /** A lazily resolved reference to an entity by its server id. */
  datatype EntityLink = EntityLink(uniqueId: int)

  /** Component values; a marker (tag) component carries `MarkerV`. */
  datatype Value =
    | IdentityV(id: int, tag: string, typePath: string)
    | DestroyAfterV(ticks: int)
    | ChildV(parent: Entity)
    | ParentV(children: seq<EntityLink>)
    | InventoryV(items: seq<EntityLink>)
    | AnimationV(boolParams: map<string, bool>, triggers: seq<string>)
    | CharacterV(name: seq<FixedStrings.Byte>)
    | MarkerV
    | DataV(fields: seq<int>)

  /** The `State` tag of a server collection or parameter change. */
  datatype Change = Added | Updated | Removed

  /** One typed component payload of a wire command. */
  datatype Component = Component(kind: Kind, value: Value)

  type Components = map<Kind, Value>

  /**
   * The entity store: `order` is the order in which queries visit live
   * entities, `comps` the components of every live entity, and `nextIndex`
   * the index the next created entity receives.
   */
  datatype Store = Store(order: seq<Entity>, comps: map<Entity, Components>, nextIndex: int)

  /** Prototype templates by type path (e.g. "1:1"). */
  type Registry = map<string, Components>

  /** Why an operation on the store threw. */
  datatype Error =
    | EntityMissing(entity: Entity)
    | ComponentMissing(entity: Entity, kind: Kind)
    | UnknownPrototype(path: string)
    | NullTypePath
    | DuplicateKey
    | IndexOutOfRange
    | UnknownOperation(code: int)

  /** The store invariant: `order` lists exactly the live entities, once each, all with positive indices below `nextIndex`. */
  ghost predicate Valid(s: Store)
  {
    && 0 < s.nextIndex
    && Distinct(s.order)
    && (forall e :: e in s.comps <==> e in s.order)
    && (forall e :: e in s.comps ==> 0 < e.index < s.nextIndex)
  }

  /** No entity occurs twice in a query order. */
  predicate Distinct(order: seq<Entity>)
  {
    forall i, j :: 0 <= i < j < |order| ==> order[i] != order[j]
  }

  /** `EntityManager.Exists`. */
  predicate Live(s: Store, e: Entity)
  {
    e in s.comps
  }

  /** `EntityManager.HasComponent<T>`: false for entities that do not exist. */
  predicate Has(s: Store, e: Entity, k: Kind)
  {
    e in s.comps && k in s.comps[e]
  }

  /**
   * Whether the engine's entity queries visit `e`: a live entity without the
   * `Prefab` tag. Prototype templates carry `Prefab`, and a query sees them
   * only when it names `Prefab` itself.
   */
  predicate Queried(s: Store, e: Entity)
  {
    e in s.comps && PrefabK !in s.comps[e]
  }

  /** Whether a component type is a system-state component, which outlives `DestroyEntity`. */
  predicate SystemState(k: Kind)
  {
    k.StateOf?
  }

  /** Whether the components include a system-state component. */
  predicate HoldsState(c: Components)
  {
    exists k :: k in c && SystemState(k)
  }

  /** A destroyed entity still alive through its system-state components: it carries the `CleanupEntity` tag. */
  predicate Lingering(s: Store, e: Entity)
  {
    Has(s, e, CleanupK)
  }

  /** What `DestroyEntity` leaves of an entity with system-state components: those, and the `CleanupEntity` tag. */
  function Remains(c: Components): (r: Components)
    ensures CleanupK in r && r[CleanupK] == MarkerV
    ensures forall k :: k != CleanupK ==> (k in r <==> k in c && SystemState(k))
    ensures forall k :: k in r && k != CleanupK ==> r[k] == c[k]
    ensures HoldsState(r) == HoldsState(c)
  {
    (map k | k in c && SystemState(k) :: c[k])[CleanupK := MarkerV]
  }

  /** A lingering entity whose last system-state component is gone: the engine destroys it for good. */
  predicate Spent(c: Components)
  {
    CleanupK in c && !HoldsState(c)
  }

  /** A live store never contains the null handle. */
  lemma NullNotLive(s: Store)
    requires Valid(s)
    ensures !Live(s, Null)
  {
  }

  /** `GetComponentData<T>`: throws when the entity or the component is missing. */
  function Get(s: Store, e: Entity, k: Kind): (r: Result<Value, Error>)
    ensures r.Success? <==> Has(s, e, k)
    ensures r.Success? ==> r.value == s.comps[e][k]
  {
    if !Live(s, e) then Failure(EntityMissing(e))
    else if k !in s.comps[e] then Failure(ComponentMissing(e, k))
    else Success(s.comps[e][k])
  }

  /** Writes component `k` of a live entity; shared by every mutating primitive. */
  function Put(s: Store, e: Entity, k: Kind, v: Value): (r: Store)
    requires Live(s, e)
    ensures r.order == s.order && r.nextIndex == s.nextIndex && r.comps.Keys == s.comps.Keys
    ensures Has(r, e, k) && r.comps[e][k] == v
  {
    s.(comps := s.comps[e := s.comps[e][k := v]])
  }

  /**
   * `AddComponentData`: throws on an entity that does not exist; adding a
   * component the entity already has overwrites its value.
   */
  function AddComponentData(s: Store, e: Entity, k: Kind, v: Value): (r: Result<Store, Error>)
    ensures r.Success? <==> Live(s, e)
    ensures r.Success? ==> r.value.order == s.order && r.value.nextIndex == s.nextIndex
    ensures r.Success? ==> r.value.comps == s.comps[e := s.comps[e][k := v]]
  {
    if !Live(s, e) then Failure(EntityMissing(e)) else Success(Put(s, e, k, v))
  }

  /** `SetComponentData`: throws unless the entity already has the component. */
  function SetComponentData(s: Store, e: Entity, k: Kind, v: Value): (r: Result<Store, Error>)
    ensures r.Success? <==> Has(s, e, k)
    ensures r.Success? ==> r.value.order == s.order && r.value.nextIndex == s.nextIndex
    ensures r.Success? ==> r.value.comps == s.comps[e := s.comps[e][k := v]]
  {
    if !Live(s, e) then Failure(EntityMissing(e))
    else if k !in s.comps[e] then Failure(ComponentMissing(e, k))
    else Success(Put(s, e, k, v))
  }

  /**
   * `RemoveComponent<T>`: throws on a missing entity; removing an absent
   * component is a no-op. Removing the last system-state component of a
   * lingering entity destroys it.
   */
  function RemoveComponent(s: Store, e: Entity, k: Kind): (r: Result<Store, Error>)
    ensures r.Success? <==> Live(s, e)
    ensures r.Success? && !Spent(s.comps[e] - {k}) ==> r.value == s.(comps := s.comps[e := s.comps[e] - {k}])
    ensures r.Success? && Spent(s.comps[e] - {k}) ==>
              && !Live(r.value, e) && Lingering(s, e) && r.value.nextIndex == s.nextIndex
              && forall x :: x != e ==> (Live(r.value, x) <==> Live(s, x)) && (Live(s, x) ==> r.value.comps[x] == s.comps[x])
    ensures r.Success? && Valid(s) ==> Valid(r.value)
  {
    if !Live(s, e) then Failure(EntityMissing(e))
    else if Spent(s.comps[e] - {k}) then Success(Drop(s, e))
    else Success(s.(comps := s.comps[e := s.comps[e] - {k}]))
  }

  /** Removes every occurrence of `e` from a query order. */
  function Without(order: seq<Entity>, e: Entity): (r: seq<Entity>)
    ensures forall x :: x in r <==> x in order && x != e
    ensures |r| <= |order|
  {
    if order == [] then []
    else if order[0] == e then Without(order[1..], e)
    else [order[0]] + Without(order[1..], e)
  }

  /** `Without` keeps the remaining elements pairwise distinct. */
  lemma WithoutDistinct(order: seq<Entity>, e: Entity)
    ensures Distinct(order) ==> Distinct(Without(order, e))
  {
    if order != [] && Distinct(order) {
      var tail := order[1..];
      assert Distinct(tail) by {
        forall i, j | 0 <= i < j < |tail| ensures tail[i] != tail[j] {
          assert tail[i] == order[i + 1] && tail[j] == order[j + 1];
        }
      }
      WithoutDistinct(tail, e);
      if order[0] != e {
        var rest := Without(tail, e);
        assert order[0] !in tail by {
          forall k | 0 <= k < |tail| ensures tail[k] != order[0] {
            assert tail[k] == order[k + 1];
          }
        }
        assert order[0] !in rest;
        var r := [order[0]] + rest;
        assert Without(order, e) == r;
        forall i, j | 0 <= i < j < |r| ensures r[i] != r[j] {
          if i == 0 {
            assert r[j] == rest[j - 1];
            assert r[j] in rest;
          } else {
            assert r[i] == rest[i - 1] && r[j] == rest[j - 1];
          }
        }
      }
    }
  }

  /** Removes an entity and its components outright. */
  function Drop(s: Store, e: Entity): (r: Store)
    ensures !Live(r, e) && r.nextIndex == s.nextIndex
    ensures forall x :: x != e ==> (Live(r, x) <==> Live(s, x))
    ensures forall x :: x in r.comps ==> x in s.comps && r.comps[x] == s.comps[x]
    ensures Valid(s) ==> Valid(r)
  {
    WithoutDistinct(s.order, e);
    Store(Without(s.order, e), s.comps - {e}, s.nextIndex)
  }

  /** Removes every entity of `es` outright. */
  function DropAll(s: Store, es: seq<Entity>): (r: Store)
    ensures forall x :: Live(r, x) <==> Live(s, x) && x !in es
    ensures forall x :: x in r.comps ==> x in s.comps && r.comps[x] == s.comps[x]
    ensures r.nextIndex == s.nextIndex
    ensures Valid(s) ==> Valid(r)
    decreases |es|
  {
    if es == [] then s
    else
      assert forall x :: x in es <==> x == es[0] || x in es[1..];
      DropAll(Drop(s, es[0]), es[1..])
  }

  /**
   * `DestroyEntity`: an entity without system-state components stops
   * existing; one with them keeps existing, stripped to those components and
   * tagged `CleanupEntity`, until they are removed. Every other entity is
   * untouched.
   */
  function Destroy(s: Store, e: Entity): (r: Store)
    ensures Live(s, e) ==> (Live(r, e) <==> HoldsState(s.comps[e]))
    ensures Live(r, e) ==> Live(s, e) && r.comps[e] == Remains(s.comps[e]) && Lingering(r, e)
    ensures forall x :: x != e ==> (Live(r, x) <==> Live(s, x))
    ensures forall x :: x in r.comps && x != e ==> x in s.comps && r.comps[x] == s.comps[x]
    ensures Valid(s) ==> Valid(r)
  {
    if Live(s, e) && HoldsState(s.comps[e]) then s.(comps := s.comps[e := Remains(s.comps[e])])
    else Drop(s, e)
  }

  /** The result of spawning an entity. */
  datatype Spawned = Spawned(store: Store, entity: Entity)

  /**
   * `PrototyperHierarchy.Clone(typePath)`: a fresh live entity carrying the
   * template's components. A null type path and an unregistered path throw.
   */
  function Clone(s: Store, reg: Registry, path: Option<string>): (r: Result<Spawned, Error>)
    ensures r.Success? <==> path.Some? && path.value in reg
    ensures r.Success? ==> r.value.store.comps == s.comps[r.value.entity := reg[path.value]]
    ensures r.Success? ==> r.value.store.order == s.order + [r.value.entity]
    ensures r.Success? && Valid(s) ==> r.value.entity !in s.comps && r.value.entity != Null && Valid(r.value.store)
  {
    match path
    case None => Failure(NullTypePath)
    case Some(p) =>
      if p !in reg then Failure(UnknownPrototype(p))
      else
        var e := Entity(s.nextIndex, 1);
        Success(Spawned(Store(s.order + [e], s.comps[e := reg[p]], s.nextIndex + 1), e))
  }

  /** The entities of `order` carrying component `k`, in order: a query with one required component. */
  function WithKind(s: Store, order: seq<Entity>, k: Kind): (r: seq<Entity>)
    ensures forall x :: x in r <==> x in order && Has(s, x, k)
  {
    if order == [] then []
    else (if Has(s, order[0], k) then [order[0]] else []) + WithKind(s, order[1..], k)
  }
}
