/**
 * `InventoryCommand.Execute`: a server message lists item links of one
 * owner's inventory, each tagged added, updated or removed; the owner is
 * looked up once and its link list is edited entry by entry, then written
 * back. The screens the command also refreshes are not modelled.
 */
module Inventory {
  import opened Wrappers
  import opened Store
  import opened Find
  import opened Buffer
  import Extensions

  /** One item entry of the command. */
  datatype Entry = Entry(state: Change, item: EntityLink)

  /** The owner's server id and the changed item entries. */
  datatype InventoryCommand = InventoryCommand(owner: int, items: seq<Entry>)

  /** The links whose id differs from `id`, in their order. */
  function Unlinked(items: seq<EntityLink>, id: int): (r: seq<EntityLink>)
    ensures |r| <= |items|
  {
    if items == [] then []
    else (if items[0].uniqueId == id then [] else [items[0]]) + Unlinked(items[1..], id)
  }

  /** The links kept are exactly those whose id differs. */
  lemma {:induction false} UnlinkedMembers(items: seq<EntityLink>, id: int)
    ensures forall l :: l in Unlinked(items, id) <==> l in items && l.uniqueId != id
  {
    if items != [] {
      UnlinkedMembers(items[1..], id);
      assert forall l :: l in items <==> l == items[0] || l in items[1..];
    }
  }

  /** Removing a link id twice is removing it once. */
  lemma {:induction false} UnlinkedIdempotent(items: seq<EntityLink>, id: int)
    ensures Unlinked(Unlinked(items, id), id) == Unlinked(items, id)
  {
    if items != [] {
      var tail := Unlinked(items[1..], id);
      UnlinkedIdempotent(items[1..], id);
      if items[0].uniqueId == id {
        assert Unlinked(items, id) == tail;
      } else {
        var r := [items[0]] + tail;
        assert Unlinked(items, id) == r;
        assert r[0] == items[0] && r[1..] == tail;
        assert Unlinked(r, id) == [items[0]] + Unlinked(tail, id);
      }
    }
  }

  /**
   * The filter and the id search agree: after the filter no link carries
   * the id, and the filter changes the list exactly when some link did.
   */
  lemma {:induction false} UnlinkedAgreesWithContains(items: seq<EntityLink>, id: int)
    ensures !Extensions.Listed(Unlinked(items, id), id)
    ensures Extensions.Listed(items, id) <==> Unlinked(items, id) != items
  {
    var r := Unlinked(items, id);
    if items != [] {
      UnlinkedAgreesWithContains(items[1..], id);
      var tail := Unlinked(items[1..], id);
      if items[0].uniqueId == id {
        assert Extensions.Listed(items, id);
        assert |tail| <= |items[1..]| < |items|;
      } else {
        assert r == [items[0]] + tail;
        assert Extensions.Listed(items, id) <==> Extensions.Listed(items[1..], id) by {
          if Extensions.Listed(items, id) {
            var i :| 0 <= i < |items| && items[i].uniqueId == id;
            assert items[1..][i - 1] == items[i];
          }
          if Extensions.Listed(items[1..], id) {
            var i :| 0 <= i < |items[1..]| && items[1..][i].uniqueId == id;
            assert items[i + 1] == items[1..][i];
          }
        }
        assert r == items <==> tail == items[1..] by {
          if r == items {
            assert r[1..] == tail;
          }
          if tail == items[1..] {
            assert items == [items[0]] + items[1..];
          }
        }
      }
    }
  }

  /** The filter over a suffix takes one step at its first link. */
  lemma UnlinkedAt(items: seq<EntityLink>, i: nat, id: int)
    requires i < |items|
    ensures Unlinked(items[i..], id) == (if items[i].uniqueId == id then [] else [items[i]]) + Unlinked(items[i + 1..], id)
  {
    assert items[i..][1..] == items[i + 1..];
  }

  /**
   * One iteration of the backward loop at index `k - 1`: with the links from
   * `k` on already filtered, `RemoveAt(k - 1)` on a match (or keeping a
   * non-match) leaves the links from `k - 1` on filtered.
   */
  lemma RemoveStep(items: seq<EntityLink>, k: nat, id: int, r: seq<EntityLink>)
    requires 0 < k <= |items| && r == items[..k] + Unlinked(items[k..], id)
    ensures k <= |r| && r[k - 1] == items[k - 1]
    ensures items[k - 1].uniqueId == id ==> r[..k - 1] + r[k..] == items[..k - 1] + Unlinked(items[k - 1..], id)
    ensures items[k - 1].uniqueId != id ==> r == items[..k - 1] + Unlinked(items[k - 1..], id)
  {
    var tail := Unlinked(items[k..], id);
    assert items[..k] == items[..k - 1] + [items[k - 1]];
    assert r[..k - 1] == items[..k - 1];
    assert r[k..] == tail;
    UnlinkedAt(items, k - 1, id);
  }

  /**
   * The `Removed` case's backward loop of `RemoveAt` calls: walking from
   * the last index down, a removal never shifts an element that is still to
   * be visited, so every link with the id goes and the others stay in order.
   * `k` is one past the index the loop visits next.
   */
  method RemoveMatching(items: seq<EntityLink>, id: int) returns (r: seq<EntityLink>)
    ensures r == Unlinked(items, id)
  {
    r := items;
    var k := |items|;
    assert items[..|items|] == items && items[|items|..] == [];
    while k > 0
      invariant 0 <= k <= |items|
      invariant r == items[..k] + Unlinked(items[k..], id)
    {
      RemoveStep(items, k, id, r);
      if r[k - 1].uniqueId == id {
        r := r[..k - 1] + r[k..];
      }
      k := k - 1;
    }
    assert items[..0] == [] && items[0..] == items;
  }

  /** One entry's edit of the link list. */
  function ApplyEntry(items: seq<EntityLink>, e: Entry): (r: seq<EntityLink>)
    // Added appends exactly one link at the end
    ensures e.state == Added ==> |r| == |items| + 1 && r[..|items|] == items && r[|items|] == e.item
    // Updated leaves the list alone
    ensures e.state == Updated ==> r == items
    // Removed drops every link with the item's id and keeps the rest
    ensures e.state == Removed ==> forall l :: l in r <==> l in items && l.uniqueId != e.item.uniqueId
  {
    match e.state
    case Added => items + [e.item]
    case Updated => items
    case Removed =>
      UnlinkedMembers(items, e.item.uniqueId);
      Unlinked(items, e.item.uniqueId)
  }

  /** The entries' edits in command order. */
  function ApplyAll(items: seq<EntityLink>, entries: seq<Entry>): (r: seq<EntityLink>)
    decreases |entries|
  {
    if entries == [] then items else ApplyAll(ApplyEntry(items, entries[0]), entries[1..])
  }

  /** Entries apply in order: a command split in two has the same effect as the whole. */
  lemma {:induction false} ApplyAllAppend(items: seq<EntityLink>, a: seq<Entry>, b: seq<Entry>)
    ensures ApplyAll(items, a + b) == ApplyAll(ApplyAll(items, a), b)
    decreases |a|
  {
    if a == [] {
      assert a + b == b;
    } else {
      assert (a + b)[0] == a[0] && (a + b)[1..] == a[1..] + b;
      ApplyAllAppend(ApplyEntry(items, a[0]), a[1..], b);
    }
  }

  /** After an entry removes an id, no later entry but an Added of that id brings a link with it back. */
  lemma {:induction false} RemovedStaysRemoved(items: seq<EntityLink>, entries: seq<Entry>, id: int)
    requires forall l :: l in items ==> l.uniqueId != id
    requires forall i :: 0 <= i < |entries| ==> !(entries[i].state == Added && entries[i].item.uniqueId == id)
    ensures forall l :: l in ApplyAll(items, entries) ==> l.uniqueId != id
    decreases |entries|
  {
    if entries != [] {
      var next := ApplyEntry(items, entries[0]);
      if entries[0].state == Added {
        forall l | l in next ensures l.uniqueId != id {
          if l !in items {
            assert next == items + [entries[0].item];
          }
        }
      }
      RemovedStaysRemoved(next, entries[1..], id);
    }
  }

  /**
   * `Execute`: the owner is resolved by one `FindById`, whose cache update
   * stays even when the command then throws; reading the inventory throws
   * when the owner is `Null`, gone or has none. Otherwise the owner's link
   * list becomes the entries' edits applied in order and nothing else in
   * the store changes.
   */
  function Execute(w: World, cmd: InventoryCommand): (r: Attempt<World, Error>)
    ensures var found := FindById(w.store, w.cached, cmd.owner);
      && r.state.cached == found.cached && r.state.buffered == w.buffered
      && (r.error.None? <==> Has(w.store, found.entity, InventoryK) && w.store.comps[found.entity][InventoryK].InventoryV?)
      && (r.error.Some? ==> r.state.store == w.store)
      && (r.error.None? ==>
            var before := w.store.comps[found.entity][InventoryK].items;
            r.state.store == w.store.(comps := w.store.comps[found.entity :=
              w.store.comps[found.entity][InventoryK := InventoryV(ApplyAll(before, cmd.items))]]))
  {
    var found := FindById(w.store, w.cached, cmd.owner);
    var looked := w.(cached := found.cached);
    match Get(w.store, found.entity, InventoryK)
    case Failure(err) => Attempt(looked, Some(err))
    case Success(v) =>
      if !v.InventoryV? then Attempt(looked, Some(ComponentMissing(found.entity, InventoryK)))
      else Attempt(looked.(store := Put(w.store, found.entity, InventoryK, InventoryV(ApplyAll(v.items, cmd.items)))), None)
  }

  /** An inventory command whose owner is known leaves a sound cache sound. */
  lemma ExecuteKeepsCacheSound(w: World, cmd: InventoryCommand)
    requires Valid(w.store) && CacheSound(w.store, w.cached)
    ensures CacheSound(Execute(w, cmd).state.store, Execute(w, cmd).state.cached)
  {
    FindByIdSound(w.store, w.cached, cmd.owner);
    var r := Execute(w, cmd);
    forall id | id in r.state.cached && Live(r.state.store, r.state.cached[id])
      ensures Carries(r.state.store, r.state.cached[id], id) || Lingering(r.state.store, r.state.cached[id])
    {
      ExecuteKeepsIds(w, cmd, r.state.cached[id]);
    }
  }

  /** The command touches no entity's identity and no entity's cleanup tag. */
  lemma ExecuteKeepsIds(w: World, cmd: InventoryCommand, x: Entity)
    ensures IdOf(Execute(w, cmd).state.store, x) == IdOf(w.store, x)
    ensures Lingering(Execute(w, cmd).state.store, x) == Lingering(w.store, x)
  {
    assert InventoryK != IdentityK && InventoryK != CleanupK;
  }
}
