/**
 * `ParentChildSystem`: every frame each parent that is not being destroyed
 * walks its child links in order and records, for the next
 * end-of-initialisation playback, a `Child` component on each child naming
 * the parent. The walk of one parent stops at the first link the id cache
 * cannot resolve; children being destroyed are skipped.
 */
module ParentChild {
  import opened Wrappers
  import opened Store
  import opened Find

  /** One recorded command: `Child{Parent = parent}` on `child`, by `SetComponent` when `overwrite` and `AddComponent` otherwise. */
  datatype Link = Link(child: Entity, parent: Entity, overwrite: bool)

  /** Where one parent's walk stops: the first unresolved link, or the end of the list. */
  function Cut(cached: map<int, Entity>, children: seq<EntityLink>): (r: nat)
    ensures r <= |children|
    ensures forall i :: 0 <= i < r ==> Resolve(cached, children[i]) != Null
    ensures r < |children| ==> Resolve(cached, children[r]) == Null
  {
    match FirstWhere(children, (c: EntityLink) => Resolve(cached, c) == Null)
    case None => |children|
    case Some(i) => i
  }

  /** Whether child link `i` of a parent's list is linked this frame: before the cut and not being destroyed. */
  predicate Linked(s: Store, cached: map<int, Entity>, children: seq<EntityLink>, i: int)
  {
    0 <= i < Cut(cached, children) && !Has(s, Resolve(cached, children[i]), DestroyK)
  }

  /** Every cached entity still exists. */
  predicate CacheLive(s: Store, cached: map<int, Entity>)
  {
    forall id :: id in cached && cached[id] != Null ==> Live(s, cached[id])
  }

  /** The command recorded for child link `i`. */
  function LinkFor(s: Store, cached: map<int, Entity>, children: seq<EntityLink>, i: int, parent: Entity): Link
    requires 0 <= i < |children|
  {
    var c := Resolve(cached, children[i]);
    Link(c, parent, Has(s, c, ChildK))
  }

  /** The inner loop over one parent's children: the commands of the linked children, in list order. */
  function LinkChildren(s: Store, cached: map<int, Entity>, parent: Entity, children: seq<EntityLink>): (r: seq<Link>)
    ensures forall l :: l in r ==> l.parent == parent && l.child != Null && !Has(s, l.child, DestroyK)
    ensures forall l :: l in r ==> (CacheLive(s, cached) ==> Live(s, l.child)) && l.overwrite == Has(s, l.child, ChildK)
    ensures forall l :: l in r ==> exists i :: Linked(s, cached, children, i) && l == LinkFor(s, cached, children, i, parent)
    ensures forall i :: Linked(s, cached, children, i) ==> LinkFor(s, cached, children, i, parent) in r
    decreases |children|
  {
    if children == [] then []
    else
      var c := Resolve(cached, children[0]);
      if c == Null then []
      else
        var rest := LinkChildren(s, cached, parent, children[1..]);
        LinkedShift(s, cached, parent, children);
        var r := if Has(s, c, DestroyK) then rest else [Link(c, parent, Has(s, c, ChildK))] + rest;
        assert forall l :: l in rest ==> exists i :: Linked(s, cached, children, i) && l == LinkFor(s, cached, children, i, parent) by {
          forall l | l in rest ensures exists i :: Linked(s, cached, children, i) && l == LinkFor(s, cached, children, i, parent) {
            var j :| Linked(s, cached, children[1..], j) && l == LinkFor(s, cached, children[1..], j, parent);
            assert Linked(s, cached, children, j + 1);
          }
        }
        assert !Has(s, c, DestroyK) ==> Linked(s, cached, children, 0) && r[0] == LinkFor(s, cached, children, 0, parent);
        r
  }

  /** Before an unresolved first link the cut moves one position along with the list. */
  lemma CutStep(cached: map<int, Entity>, children: seq<EntityLink>)
    requires children != [] && Resolve(cached, children[0]) != Null
    ensures Cut(cached, children) == Cut(cached, children[1..]) + 1
  {
    assert forall i :: 1 <= i < |children| ==> children[1..][i - 1] == children[i];
  }

  /** Past a resolved first link, link `i` of the tail is link `i + 1` of the list. */
  lemma LinkedShift(s: Store, cached: map<int, Entity>, parent: Entity, children: seq<EntityLink>)
    requires children != [] && Resolve(cached, children[0]) != Null
    ensures forall i :: 1 <= i < |children| ==>
              (Linked(s, cached, children, i) <==> Linked(s, cached, children[1..], i - 1)) &&
              LinkFor(s, cached, children, i, parent) == LinkFor(s, cached, children[1..], i - 1, parent)
    ensures Linked(s, cached, children, 0) <==> !Has(s, Resolve(cached, children[0]), DestroyK)
  {
    CutStep(cached, children);
    assert forall i :: 1 <= i < |children| ==> children[1..][i - 1] == children[i];
  }

  /** Whether the outer query visits an entity: a queried entity with `Parent` holding a link list and no `Destroy`. */
  predicate IsParent(s: Store, e: Entity)
  {
    Queried(s, e) && Has(s, e, ParentK) && s.comps[e][ParentK].ParentV? && !Has(s, e, DestroyK)
  }

  /** `OnUpdate`: the commands of every visited parent, parents in query order. */
  function Record(s: Store, cached: map<int, Entity>, parents: seq<Entity>): (r: seq<Link>)
    ensures forall l :: l in r ==> l.child != Null && !Has(s, l.child, DestroyK) && l.parent in parents && IsParent(s, l.parent)
    ensures forall l :: l in r ==> (CacheLive(s, cached) ==> Live(s, l.child)) && l.overwrite == Has(s, l.child, ChildK)
    ensures forall p, i :: p in parents && IsParent(s, p) && Linked(s, cached, s.comps[p][ParentK].children, i) ==>
              LinkFor(s, cached, s.comps[p][ParentK].children, i, p) in r
    ensures forall l :: l in r ==>
              && IsParent(s, l.parent)
              && exists i :: Linked(s, cached, s.comps[l.parent][ParentK].children, i) &&
                   l == LinkFor(s, cached, s.comps[l.parent][ParentK].children, i, l.parent)
    decreases |parents|
  {
    if parents == [] then []
    else
      var p := parents[0];
      var rest := Record(s, cached, parents[1..]);
      if IsParent(s, p) then LinkChildren(s, cached, p, s.comps[p][ParentK].children) + rest else rest
  }

  /** The recording over two runs of parents is the recording of the first followed by that of the second. */
  lemma {:induction false} RecordAppend(s: Store, cached: map<int, Entity>, xs: seq<Entity>, ys: seq<Entity>)
    ensures Record(s, cached, xs + ys) == Record(s, cached, xs) + Record(s, cached, ys)
    decreases |xs|
  {
    if xs == [] {
      assert xs + ys == ys;
    } else {
      assert (xs + ys)[0] == xs[0] && (xs + ys)[1..] == xs[1..] + ys;
      RecordAppend(s, cached, xs[1..], ys);
    }
  }

  /** Whether `q` is a visited parent that links `c` this frame. */
  ghost predicate LinksChild(s: Store, cached: map<int, Entity>, q: Entity, c: Entity)
  {
    && IsParent(s, q)
    && exists i :: Linked(s, cached, s.comps[q][ParentK].children, i) && Resolve(cached, s.comps[q][ParentK].children[i]) == c
  }

  /** Position `a` of the query order holds the last visited parent that links `c`. */
  ghost predicate LastLinker(s: Store, cached: map<int, Entity>, c: Entity, a: int)
  {
    && 0 <= a < |s.order|
    && LinksChild(s, cached, s.order[a], c)
    && forall b :: a < b < |s.order| ==> !LinksChild(s, cached, s.order[b], c)
  }

  /** Whether some command of `links` targets `e`. */
  predicate Targets(links: seq<Link>, e: Entity)
  {
    exists l :: l in links && l.child == e
  }

  /** The store after the first command of a playback. */
  function FirstWrite(s: Store, l: Link): (r: Result<Store, Error>)
    ensures r.Success? <==> Live(s, l.child) && (l.overwrite ==> Has(s, l.child, ChildK))
    ensures r.Success? ==> r.value.order == s.order && r.value.nextIndex == s.nextIndex
    ensures r.Success? ==> r.value.comps == s.comps[l.child := s.comps[l.child][ChildK := ChildV(l.parent)]]
  {
    if l.overwrite then SetComponentData(s, l.child, ChildK, ChildV(l.parent))
    else AddComponentData(s, l.child, ChildK, ChildV(l.parent))
  }

  /** The playback: each command writes `Child`, `SetComponent` throwing when `Child` is missing and both when the child is gone. */
  function Playback(s: Store, links: seq<Link>): (r: Result<Store, Error>)
    ensures r.Success? ==> r.value.order == s.order && r.value.nextIndex == s.nextIndex && r.value.comps.Keys == s.comps.Keys
    ensures r.Success? ==> forall l :: l in links ==> Live(s, l.child)
    ensures (forall l :: l in links ==> Live(s, l.child) && (l.overwrite ==> Has(s, l.child, ChildK))) ==> r.Success?
    decreases |links|
  {
    if links == [] then Success(s)
    else
      var s1 :- FirstWrite(s, links[0]);
      assert forall x :: x in links[1..] ==> x in links;
      Playback(s1, links[1..])
  }

  /** A playback is its first command followed by the playback of the rest. */
  lemma PlaybackUnfold(s: Store, links: seq<Link>)
    requires links != [] && Playback(s, links).Success?
    ensures FirstWrite(s, links[0]).Success?
    ensures Playback(s, links) == Playback(FirstWrite(s, links[0]).value, links[1..])
  {
  }

  /** A successful playback changes nothing but `Child`, and that only on targeted children. */
  lemma {:induction false} PlaybackFrame(s: Store, links: seq<Link>)
    requires Playback(s, links).Success?
    ensures forall e :: e in s.comps && !Targets(links, e) ==> Playback(s, links).value.comps[e] == s.comps[e]
    ensures forall e :: e in s.comps ==> Playback(s, links).value.comps[e] - {ChildK} == s.comps[e] - {ChildK}
    decreases |links|
  {
    if links != [] {
      PlaybackUnfold(s, links);
      var s1 := FirstWrite(s, links[0]).value;
      PlaybackFrame(s1, links[1..]);
      assert forall x :: x in links[1..] ==> x in links;
      assert links[0] in links;
    }
  }

  /** The store holds the command's write: the child carries a `Child` naming the command's parent. */
  predicate Names(r: Store, l: Link)
  {
    Has(r, l.child, ChildK) && r.comps[l.child][ChildK] == ChildV(l.parent)
  }

  /** A command's write survives the rest of the playback when no later command targets the same child. */
  lemma PlaybackFirstSurvives(s: Store, links: seq<Link>)
    requires links != [] && Playback(s, links).Success?
    requires forall j :: 0 < j < |links| ==> links[j].child != links[0].child
    ensures Names(Playback(s, links).value, links[0])
  {
    PlaybackUnfold(s, links);
    var s1 := FirstWrite(s, links[0]).value;
    PlaybackFrame(s1, links[1..]);
    assert !Targets(links[1..], links[0].child) by {
      forall x | x in links[1..] ensures x.child != links[0].child {
        var j :| 0 <= j < |links[1..]| && links[1..][j] == x;
        assert links[j + 1] == x;
      }
    }
  }

  /** Command `i` is the last one targeting its child. */
  predicate LastFor(links: seq<Link>, i: int)
    requires 0 <= i < |links|
  {
    forall j :: i < j < |links| ==> links[j].child != links[i].child
  }

  /** Dropping the first command keeps a later command the last for its child. */
  lemma LastForTail(links: seq<Link>, i: int)
    requires 0 < i < |links| && LastFor(links, i)
    ensures LastFor(links[1..], i - 1)
  {
    var tail := links[1..];
    forall j | i - 1 < j < |tail| ensures tail[j].child != tail[i - 1].child {
      assert tail[j] == links[j + 1];
    }
  }

  /** After a successful playback, a child's `Child` names the parent of the last command targeting it. */
  lemma {:induction false} PlaybackLastWins(s: Store, links: seq<Link>, i: int)
    requires 0 <= i < |links| && Playback(s, links).Success? && LastFor(links, i)
    ensures Names(Playback(s, links).value, links[i])
    decreases |links|
  {
    if i == 0 {
      PlaybackFirstSurvives(s, links);
    } else {
      PlaybackUnfold(s, links);
      var tail := links[1..];
      LastForTail(links, i);
      PlaybackLastWins(FirstWrite(s, links[0]).value, tail, i - 1);
      assert tail[i - 1] == links[i];
    }
  }

  /** The index of the last command targeting `e`, given one exists. */
  lemma LastTarget(links: seq<Link>, k: int) returns (j: int)
    requires 0 <= k < |links|
    ensures k <= j < |links| && links[j].child == links[k].child
    ensures LastFor(links, j)
    decreases |links| - k
  {
    if exists m :: k < m < |links| && links[m].child == links[k].child {
      var m :| k < m < |links| && links[m].child == links[k].child;
      j := LastTarget(links, m);
    } else {
      j := k;
    }
  }

  /**
   * One frame of the system, recording and playback: when the cache holds
   * no stale entity, the playback succeeds, and every child a parent links
   * ends up with a `Child` naming the last parent in query order that links
   * it.
   */
  lemma FrameLinksChildren(s: Store, cached: map<int, Entity>, p: Entity, i: int)
    requires CacheLive(s, cached) && p in s.order && IsParent(s, p) && Linked(s, cached, s.comps[p][ParentK].children, i)
    ensures var r := Playback(s, Record(s, cached, s.order));
            var c := Resolve(cached, s.comps[p][ParentK].children[i]);
      && r.Success? && Has(r.value, c, ChildK) && r.value.comps[c][ChildK].ChildV?
      && IsParent(s, r.value.comps[c][ChildK].parent)
      && exists a :: LastLinker(s, cached, c, a) && s.order[a] == r.value.comps[c][ChildK].parent
  {
    var links := Record(s, cached, s.order);
    var c := Resolve(cached, s.comps[p][ParentK].children[i]);
    assert Playback(s, links).Success? by {
      forall l | l in links ensures Live(s, l.child) && (l.overwrite ==> Has(s, l.child, ChildK)) {
      }
    }
    var a := LastLinkerOf(s, cached, p, i);
    var k := LastLinkIndex(s, cached, a, c);
    PlaybackLastWins(s, links, k);
    assert links[k] in links;
  }

  /** The command the last linker of `c` records for it is the last command targeting `c`. */
  lemma LastLinkIndex(s: Store, cached: map<int, Entity>, a: int, c: Entity) returns (k: int)
    requires LastLinker(s, cached, c, a)
    ensures var links := Record(s, cached, s.order);
      && 0 <= k < |links| && links[k].child == c && links[k].parent == s.order[a] && LastFor(links, k)
  {
    var links := Record(s, cached, s.order);
    var q := s.order[a];
    var before := Record(s, cached, s.order[..a]);
    var own := LinkChildren(s, cached, q, s.comps[q][ParentK].children);
    var after := Record(s, cached, s.order[a + 1..]);
    RecordAround(s, cached, a);
    var m := OwnLink(s, cached, q, c);
    forall l | l in after ensures l.child != c {
      AfterMissesChild(s, cached, a, c, l);
    }
    var n := LastInMiddle(before, own, after, m);
    k := |before| + n;
  }

  /** When no command of `after` targets the child of `own[m]`, the last command targeting it lies in `own`. */
  lemma LastInMiddle(before: seq<Link>, own: seq<Link>, after: seq<Link>, m: int) returns (n: int)
    requires 0 <= m < |own| && forall l :: l in after ==> l.child != own[m].child
    ensures 0 <= n < |own| && own[n].child == own[m].child
    ensures LastFor(before + own + after, |before| + n)
  {
    var links := before + own + after;
    assert links[|before| + m] == own[m];
    var k := LastTarget(links, |before| + m);
    forall x | |before| + |own| <= x < |links| ensures links[x].child != own[m].child {
      assert links[x] == after[x - |before| - |own|];
    }
    n := k - |before|;
    assert links[k] == own[n];
  }

  /** A parent that links `c` records a command targeting `c`. */
  lemma OwnLink(s: Store, cached: map<int, Entity>, q: Entity, c: Entity) returns (m: int)
    requires LinksChild(s, cached, q, c)
    ensures var own := LinkChildren(s, cached, q, s.comps[q][ParentK].children);
      && 0 <= m < |own| && own[m].child == c && own[m].parent == q
  {
    var kids := s.comps[q][ParentK].children;
    var i :| Linked(s, cached, kids, i) && Resolve(cached, kids[i]) == c;
    var own := LinkChildren(s, cached, q, kids);
    assert LinkFor(s, cached, kids, i, q) in own;
    m :| 0 <= m < |own| && own[m] == LinkFor(s, cached, kids, i, q);
  }

  /** The last position of the query order whose parent links the child of `p`'s link `i`. */
  lemma LastLinkerOf(s: Store, cached: map<int, Entity>, p: Entity, i: int) returns (a: int)
    requires p in s.order && IsParent(s, p) && Linked(s, cached, s.comps[p][ParentK].children, i)
    ensures LastLinker(s, cached, Resolve(cached, s.comps[p][ParentK].children[i]), a)
  {
    var c := Resolve(cached, s.comps[p][ParentK].children[i]);
    var k :| 0 <= k < |s.order| && s.order[k] == p;
    assert LinksChild(s, cached, s.order[k], c);
    a := k;
    var b := k + 1;
    while b < |s.order|
      invariant a < b <= |s.order| && LinksChild(s, cached, s.order[a], c)
      invariant forall x :: a < x < b ==> !LinksChild(s, cached, s.order[x], c)
      decreases |s.order| - b
    {
      if LinksChild(s, cached, s.order[b], c) {
        a := b;
      }
      b := b + 1;
    }
  }

  /** The recording over the query order, split around position `a`. */
  lemma RecordAround(s: Store, cached: map<int, Entity>, a: int)
    requires 0 <= a < |s.order| && IsParent(s, s.order[a])
    ensures Record(s, cached, s.order) ==
              Record(s, cached, s.order[..a])
              + LinkChildren(s, cached, s.order[a], s.comps[s.order[a]][ParentK].children)
              + Record(s, cached, s.order[a + 1..])
  {
    var q := s.order[a];
    assert s.order == s.order[..a] + ([q] + s.order[a + 1..]);
    RecordAppend(s, cached, s.order[..a], [q] + s.order[a + 1..]);
    assert ([q] + s.order[a + 1..])[1..] == s.order[a + 1..];
  }

  /** No command recorded for the parents after the last linker of `c` targets `c`. */
  lemma AfterMissesChild(s: Store, cached: map<int, Entity>, a: int, c: Entity, x: Link)
    requires LastLinker(s, cached, c, a) && x in Record(s, cached, s.order[a + 1..])
    ensures x.child != c
  {
    var kids := s.comps[x.parent][ParentK].children;
    var i :| Linked(s, cached, kids, i) && x == LinkFor(s, cached, kids, i, x.parent);
    var b :| 0 <= b < |s.order[a + 1..]| && s.order[a + 1..][b] == x.parent;
    assert s.order[a + 1 + b] == x.parent;
    assert !LinksChild(s, cached, x.parent, c);
    assert Linked(s, cached, kids, i) && Resolve(cached, kids[i]) == x.child;
  }
}
