/**
 * Entity lookups over the store: `FindById` through the id cache that evicts
 * stale entries, `FindByName` over player characters and `FindPrefab` over
 * prefab-tagged templates. The two static id tables (`CachedEntities` and
 * `BufferedEntity`) travel with the store as a `World`.
 */
module Find {
  import opened Wrappers
  import opened Store
  import FixedStrings

  /** The store together with the id cache and the table of ids whose create did not yield a real entity. */
  datatype World = World(store: Store, cached: map<int, Entity>, buffered: map<int, Entity>)

  /** The server id an entity carries in its `Identity`, if it has one. */
  function IdOf(s: Store, e: Entity): (r: Option<int>)
    ensures r.Some? ==> Has(s, e, IdentityK)
  {
    if Has(s, e, IdentityK) && s.comps[e][IdentityK].IdentityV? then Some(s.comps[e][IdentityK].id) else None
  }

  /** An entity of the identity query, which skips prefab templates, whose `Identity.ID` equals `id`. */
  predicate Carries(s: Store, e: Entity, id: int)
  {
    Queried(s, e) && IdOf(s, e) == Some(id)
  }

  /**
   * Every cached entry that still names a live entity names one carrying
   * that id, or a destroyed entity lingering through its system-state
   * components: destruction does not touch the cache.
   */
  ghost predicate CacheSound(s: Store, cached: map<int, Entity>)
  {
    forall id :: id in cached && Live(s, cached[id]) ==> Carries(s, cached[id], id) || Lingering(s, cached[id])
  }

  /** The index of the first element of `xs` satisfying `p`: the early-exit scan of a query. */
  function FirstWhere<T>(xs: seq<T>, p: T -> bool): (r: Option<nat>)
    ensures r.Some? ==> r.value < |xs| && p(xs[r.value]) && forall j :: 0 <= j < r.value ==> !p(xs[j])
    ensures r.None? ==> forall j :: 0 <= j < |xs| ==> !p(xs[j])
  {
    if xs == [] then None
    else if p(xs[0]) then Some(0)
    else match FirstWhere(xs[1..], p)
      case None => None
      case Some(i) => Some(i + 1)
  }

  /** The entity `FindById` returns together with the id cache it leaves behind. */
  datatype Lookup = Lookup(cached: map<int, Entity>, entity: Entity)

  /** Whether `FindById` answers from the cache: the id is cached and its entity still exists. */
  predicate CacheHit(s: Store, cached: map<int, Entity>, id: int)
  {
    id in cached && Live(s, cached[id])
  }

  /**
   * `FindById`: a cached entry whose entity still exists is returned as is;
   * a stale entry is evicted; otherwise the identity query, which skips
   * prefab templates, is scanned and the first match is cached. No match
   * yields `Null`.
   */
  function FindById(s: Store, cached: map<int, Entity>, id: int): (r: Lookup)
    ensures CacheHit(s, cached, id) ==> r == Lookup(cached, cached[id])
    ensures !CacheHit(s, cached, id) && (forall j :: 0 <= j < |s.order| ==> !Carries(s, s.order[j], id)) ==>
              r == Lookup(cached - {id}, Null)
    ensures !CacheHit(s, cached, id) && (exists j :: 0 <= j < |s.order| && Carries(s, s.order[j], id)) ==>
              && r.cached == (cached - {id})[id := r.entity]
              && exists i :: 0 <= i < |s.order| && s.order[i] == r.entity && Carries(s, r.entity, id) &&
                   forall j :: 0 <= j < i ==> !Carries(s, s.order[j], id)
    ensures Valid(s) ==> r.entity == Null || Live(s, r.entity)
  {
    if CacheHit(s, cached, id) then Lookup(cached, cached[id])
    else
      var evicted := cached - {id};
      match FirstWhere(s.order, x => Carries(s, x, id))
      case None => Lookup(evicted, Null)
      case Some(i) => Lookup(evicted[id := s.order[i]], s.order[i])
  }

  /**
   * With a sound cache over a valid store, `FindById` yields `Null`, a live
   * entity carrying the id, or a lingering entity straight from the cache;
   * it yields `Null` exactly when the cache misses and no live entity
   * carries the id; and it leaves the cache sound.
   */
  lemma FindByIdSound(s: Store, cached: map<int, Entity>, id: int)
    requires Valid(s) && CacheSound(s, cached)
    ensures var r := FindById(s, cached, id);
      && (r.entity != Null ==> Live(s, r.entity) && (Carries(s, r.entity, id) || (Lingering(s, r.entity) && r == Lookup(cached, r.entity))))
      && (r.entity == Null <==> !CacheHit(s, cached, id) && forall x :: Live(s, x) ==> !Carries(s, x, id))
      && CacheSound(s, r.cached)
  {
    var r := FindById(s, cached, id);
    NullNotLive(s);
    if !CacheHit(s, cached, id) {
      if forall j :: 0 <= j < |s.order| ==> !Carries(s, s.order[j], id) {
        forall x | Live(s, x) ensures !Carries(s, x, id) {
          assert x in s.order;
          var i :| 0 <= i < |s.order| && s.order[i] == x;
        }
      } else {
        var i :| 0 <= i < |s.order| && s.order[i] == r.entity && Carries(s, r.entity, id);
        assert r.entity in s.order;
      }
    }
  }

  /**
   * `FindById` with the cache hit also requiring the entity to still carry
   * the id in its `Identity`: a destroyed entity lingering through its
   * `State` copy is evicted like a dead one.
   */
  function FindByIdCarried(s: Store, cached: map<int, Entity>, id: int): (r: Lookup)
  {
    if CacheHit(s, cached, id) && Carries(s, cached[id], id) then Lookup(cached, cached[id])
    else FindById(s, cached - {id}, id)
  }

  /**
   * With a sound cache over a valid store, the corrected lookup yields `Null`
   * or a live entity carrying the id, yields `Null` exactly when no live
   * entity carries it, and leaves the cache sound.
   */
  lemma FindByIdCarriedSound(s: Store, cached: map<int, Entity>, id: int)
    requires Valid(s) && CacheSound(s, cached)
    ensures var r := FindByIdCarried(s, cached, id);
      && (r.entity != Null ==> Live(s, r.entity) && Carries(s, r.entity, id))
      && (r.entity == Null <==> forall x :: Live(s, x) ==> !Carries(s, x, id))
      && CacheSound(s, r.cached)
  {
    NullNotLive(s);
    if !(CacheHit(s, cached, id) && Carries(s, cached[id], id)) {
      assert CacheSound(s, cached - {id});
      assert !CacheHit(s, cached - {id}, id);
      FindByIdSound(s, cached - {id}, id);
    }
  }

  /** On a sound cache, the corrected lookup answers like `FindById` unless the cache names a lingering entity that no longer carries the id. */
  lemma FindByIdCarriedAgrees(s: Store, cached: map<int, Entity>, id: int)
    requires Valid(s) && CacheSound(s, cached)
    ensures !(CacheHit(s, cached, id) && !Carries(s, cached[id], id)) ==>
              FindByIdCarried(s, cached, id) == FindById(s, cached, id)
    ensures CacheHit(s, cached, id) && !Carries(s, cached[id], id) ==>
              FindById(s, cached, id).entity == cached[id] && Lingering(s, cached[id])
  {
    if !CacheHit(s, cached, id) {
      assert FindById(s, cached - {id}, id) == FindById(s, cached, id) by {
        assert !CacheHit(s, cached - {id}, id);
        assert (cached - {id}) - {id} == cached - {id};
      }
    }
  }

  /**
   * The stale window as written: a destroyed entity that still holds the
   * `State` copy of its identity is returned from the cache, though it has no
   * `Identity`; the corrected lookup finds nothing.
   */
  lemma LingeringHit()
    ensures var e := Entity(1, 1);
            var s := Store([e], map[e := map[StateOf(IdentityK) := IdentityV(5, "", "1:1"), CleanupK := MarkerV]], 2);
            var cached := map[5 := e];
      && Valid(s) && CacheSound(s, cached)
      && FindById(s, cached, 5).entity == e && !Has(s, e, IdentityK)
      && FindByIdCarried(s, cached, 5).entity == Null
  {
    var e := Entity(1, 1);
    var s := Store([e], map[e := map[StateOf(IdentityK) := IdentityV(5, "", "1:1"), CleanupK := MarkerV]], 2);
    var cached := map[5 := e];
    assert Lingering(s, e);
    assert !Carries(s, e, 5);
    assert FindById(s, cached - {5}, 5).entity == Null by {
      assert forall j :: 0 <= j < |s.order| ==> !Carries(s, s.order[j], 5);
    }
  }

  /** A second lookup of an id that was just found is a cache hit returning the same entity. */
  lemma FindByIdCaches(s: Store, cached: map<int, Entity>, id: int)
    requires Valid(s)
    ensures var r := FindById(s, cached, id);
      r.entity != Null ==> FindById(s, r.cached, id) == r
  {
    var r := FindById(s, cached, id);
    if r.entity != Null && !CacheHit(s, cached, id) {
      var i :| 0 <= i < |s.order| && s.order[i] == r.entity && Carries(s, r.entity, id);
      assert r.entity in s.order;
      assert CacheHit(s, r.cached, id);
    }
  }

  /**
   * `EntityLink.Resolve`: the entity cached under the link's id, `Null` when
   * the id is not cached. The link type is defined outside this repository;
   * the model reads only the id cache and checks nothing else.
   */
  function Resolve(cached: map<int, Entity>, link: EntityLink): (r: Entity)
    ensures link.uniqueId !in cached ==> r == Null
    ensures link.uniqueId in cached ==> r == cached[link.uniqueId]
  {
    if link.uniqueId in cached then cached[link.uniqueId] else Null
  }

  /** Whether an entity of the character query, which skips prefab templates, has a name equal to `name` byte-for-char. */
  predicate NamedCharacter(s: Store, e: Entity, name: seq<FixedStrings.CharUnit>)
  {
    Queried(s, e) && Has(s, e, CharacterK) && s.comps[e][CharacterK].CharacterV? &&
    FixedStrings.BytesEqual(s.comps[e][CharacterK].name, name)
  }

  /**
   * `FindByName`: every character of the query is visited and each match
   * overwrites the previous one, so the last match in query order wins;
   * `Null` when no character carries the name.
   */
  method FindByName(s: Store, name: seq<FixedStrings.CharUnit>) returns (player: Entity)
    ensures (forall j :: 0 <= j < |s.order| ==> !NamedCharacter(s, s.order[j], name)) ==> player == Null
    ensures player != Null || (exists j :: 0 <= j < |s.order| && NamedCharacter(s, s.order[j], name)) ==>
              exists i :: 0 <= i < |s.order| && s.order[i] == player && NamedCharacter(s, player, name) &&
                forall j :: i < j < |s.order| ==> !NamedCharacter(s, s.order[j], name)
  {
    player := Null;
    var found: Option<nat> := None;
    for k := 0 to |s.order|
      invariant found.None? ==> player == Null && forall j :: 0 <= j < k ==> !NamedCharacter(s, s.order[j], name)
      invariant found.Some? ==> found.value < k && s.order[found.value] == player && NamedCharacter(s, player, name)
      invariant found.Some? ==> forall j :: found.value < j < k ==> !NamedCharacter(s, s.order[j], name)
    {
      if NamedCharacter(s, s.order[k], name) {
        player := s.order[k];
        found := Some(k);
      }
    }
  }

  /** Whether an entity is a prefab template whose `Identity.Type` is `typeId`. */
  predicate PrefabOf(s: Store, e: Entity, typeId: string)
  {
    Has(s, e, PrefabK) && Has(s, e, IdentityK) && s.comps[e][IdentityK].IdentityV? &&
    s.comps[e][IdentityK].typePath == typeId
  }

  /** `FindPrefab`: the first prefab of the type in query order, `Null` when there is none. */
  function FindPrefab(s: Store, typeId: string): (r: Entity)
    ensures (forall j :: 0 <= j < |s.order| ==> !PrefabOf(s, s.order[j], typeId)) ==> r == Null
    ensures (exists j :: 0 <= j < |s.order| && PrefabOf(s, s.order[j], typeId)) ==>
              exists i :: 0 <= i < |s.order| && s.order[i] == r && PrefabOf(s, r, typeId) &&
                forall j :: 0 <= j < i ==> !PrefabOf(s, s.order[j], typeId)
  {
    match FirstWhere(s.order, x => PrefabOf(s, x, typeId))
    case None => Null
    case Some(i) => s.order[i]
  }
}
