/**
 * The added/removed detector of `ReactiveSystem` and its managed twin, for
 * one entity. The engine has no add/remove callbacks, so the system keeps a
 * shadow `State` copy of the watched component and two one-pass markers,
 * `TAdded` and `TRemoved`, and selects entities by five queries:
 *
 *   new        component, no TAdded, no State
 *   withAdded  State and TAdded, no TRemoved
 *   stateOnly  State, no component, no TAdded, no TRemoved
 *   toRemove   State and TRemoved, no component, no TAdded
 *   copy       component and State
 *
 * Every query sees the entity as it was when the pass began. The copy into
 * `State` happens during the pass; marker and `State` additions and removals
 * are recorded in the end-of-initialisation buffer and land when it plays
 * back, before the next pass.
 */
module Reactive {
  import opened Wrappers

  /** What the system sees of one entity: the component, the two markers and the shadow copy. */
  datatype Track<V> = Track(comp: Option<V>, added: bool, state: Option<V>, removed: bool)

  /** A callback invocation: `OnAdded` with the component, or `OnRemoved` with the last copied value. */
  datatype Notice<V> = Added(value: V) | Removed(value: V)

  /** Which cleanup query the system uses: the program's, or one without the `no component` condition. */
  datatype Cleanup = AsWritten | Fixed

  /** The entity's track after the pass's buffer has played back, and the callback it caused, if any. */
  datatype Pass<V> = Pass(track: Track<V>, notice: Option<Notice<V>>)

  predicate IsNew<V>(t: Track<V>)
  {
    t.comp.Some? && !t.added && t.state.None?
  }

  predicate WithAdded<V>(t: Track<V>)
  {
    t.state.Some? && t.added && !t.removed
  }

  predicate StateOnly<V>(t: Track<V>)
  {
    t.state.Some? && t.comp.None? && !t.added && !t.removed
  }

  predicate ToRemove<V>(t: Track<V>, q: Cleanup)
  {
    t.state.Some? && t.removed && !t.added && (q == Fixed || t.comp.None?)
  }

  predicate Copies<V>(t: Track<V>)
  {
    t.comp.Some? && t.state.Some?
  }

  /** The marker combinations the system itself can produce: each marker only alongside `State`, never both. */
  predicate WellFormed<V>(t: Track<V>)
  {
    (t.added ==> t.state.Some?) && (t.removed ==> t.state.Some?) && !(t.added && t.removed)
  }

  /** Not tracked at all: no markers and no shadow copy. */
  predicate Untracked<V>(t: Track<V>)
  {
    !t.added && t.state.None? && !t.removed
  }

  /** Tracked and settled: a shadow copy and no marker. */
  predicate Settled<V>(t: Track<V>)
  {
    !t.added && t.state.Some? && !t.removed
  }

  /** The transition of one pass, without its specification: what `Run` iterates. */
  function Transition<V>(t: Track<V>, onAdded: V -> V, managed: bool, q: Cleanup): Pass<V>
  {
    if IsNew(t) then
      var v := t.comp.value;
      if managed then Pass(Track(t.comp, true, Some(onAdded(v)), t.removed), Some(Added(v)))
      else Pass(Track(Some(onAdded(v)), true, Some(v), t.removed), Some(Added(v)))
    else
      var copied := if Copies(t) then t.(state := t.comp) else t;
      if WithAdded(t) then Pass(copied.(added := false), None)
      else if StateOnly(t) then Pass(copied.(removed := true), Some(Removed(t.state.value)))
      else if ToRemove(t, q) then Pass(copied.(state := None, removed := false), None)
      else Pass(copied, None)
  }

  /**
   * One pass over one entity. `onAdded` is the `ref` callback: the unmanaged
   * system writes its result back into the component and keeps the value it
   * saw in `State`; the managed system stores the callback's value in `State`
   * and leaves the component as it was.
   */
  function Step<V>(t: Track<V>, onAdded: V -> V, managed: bool, q: Cleanup): (r: Pass<V>)
    // OnAdded fires exactly for the new query, with the value the entity holds
    ensures (r.notice.Some? && r.notice.value.Added?) <==> IsNew(t)
    ensures IsNew(t) ==> r.notice == Some(Added(t.comp.value))
    // OnRemoved fires exactly for the state-only query, with the shadow copy
    ensures (r.notice.Some? && r.notice.value.Removed?) <==> StateOnly(t)
    ensures StateOnly(t) ==> r.notice == Some(Removed(t.state.value))
    // a new entity gains TAdded and State
    ensures IsNew(t) ==>
              (&& r.track.added && r.track.removed == t.removed
               && r.track.state == Some(if managed then onAdded(t.comp.value) else t.comp.value)
               && r.track.comp == (if managed then t.comp else Some(onAdded(t.comp.value))))
    // nothing but the unmanaged added callback touches the component
    ensures !(IsNew(t) && !managed) ==> r.track.comp == t.comp
    // TAdded is gone after one pass, and removal is never reported while it is attached
    ensures WellFormed(t) && t.added ==> !r.track.added && r.notice.None?
    // State follows the component on every pass that keeps it
    ensures Copies(t) && !ToRemove(t, q) ==> r.track.state == t.comp
    // the cleanup query ends tracking
    ensures ToRemove(t, q) ==> Untracked(r.track) && r.notice.None?
    // a removed component is marked and keeps its shadow copy for one more pass
    ensures StateOnly(t) ==> r.track.removed && r.track.state == t.state && !r.track.added
    ensures WellFormed(t) ==> WellFormed(r.track)
  {
    Transition(t, onAdded, managed, q)
  }

  /** The callback list of one pass. */
  function Emitted<V>(o: Option<Notice<V>>): (r: seq<Notice<V>>)
    ensures (o.None? ==> r == []) && (o.Some? ==> r == [o.value])
  {
    if o.Some? then [o.value] else []
  }

  /** The entity's track and callbacks over several passes. */
  datatype Outcome<V> = Outcome(track: Track<V>, notices: seq<Notice<V>>)

  /**
   * Several passes: before each one, the rest of the program leaves the
   * component as `env[i]` says (`None` = removed), then the system runs.
   */
  function Run<V>(t: Track<V>, env: seq<Option<V>>, onAdded: V -> V, managed: bool, q: Cleanup): (r: Outcome<V>)
    ensures |r.notices| <= |env|
    ensures WellFormed(t) ==> WellFormed(r.track)
    decreases |env|
  {
    if env == [] then Outcome(t, [])
    else
      var p := Transition(t.(comp := env[0]), onAdded, managed, q);
      var rest := Run(p.track, env[1..], onAdded, managed, q);
      Outcome(rest.track, Emitted(p.notice) + rest.notices)
  }

  /** A run is its first pass followed by the run of the rest. */
  lemma RunCons<V>(t: Track<V>, x: Option<V>, rest: seq<Option<V>>, onAdded: V -> V, managed: bool, q: Cleanup)
    ensures var p := Transition(t.(comp := x), onAdded, managed, q);
            var r := Run(p.track, rest, onAdded, managed, q);
      Run(t, [x] + rest, onAdded, managed, q) == Outcome(r.track, Emitted(p.notice) + r.notices)
  {
    assert ([x] + rest)[0] == x && ([x] + rest)[1..] == rest;
  }

  /** Several passes of an arbitrary one-pass transition `next`. */
  function RunWith<V>(t: Track<V>, env: seq<Option<V>>, next: (Track<V>, Option<V>) -> Pass<V>): Outcome<V>
    decreases |env|
  {
    if env == [] then Outcome(t, [])
    else
      var p := next(t, env[0]);
      var rest := RunWith(p.track, env[1..], next);
      Outcome(rest.track, Emitted(p.notice) + rest.notices)
  }

  /** Passes of any transition compose. */
  lemma {:induction false} RunWithAppend<V>(t: Track<V>, a: seq<Option<V>>, b: seq<Option<V>>, next: (Track<V>, Option<V>) -> Pass<V>)
    ensures var ra := RunWith(t, a, next);
            var rb := RunWith(ra.track, b, next);
      RunWith(t, a + b, next) == Outcome(rb.track, ra.notices + rb.notices)
    decreases |a|
  {
    if a != [] {
      var p := next(t, a[0]);
      var tail := RunWith(p.track, a[1..], next);
      var rb := RunWith(tail.track, b, next);
      assert (a + b)[0] == a[0] && (a + b)[1..] == a[1..] + b;
      RunWithAppend(p.track, a[1..], b, next);
      assert Emitted(p.notice) + (tail.notices + rb.notices) == (Emitted(p.notice) + tail.notices) + rb.notices;
    } else {
      assert a + b == b;
    }
  }

  /** `Run` is `RunWith` of the system's transition. */
  lemma {:induction false} RunIsRunWith<V>(t: Track<V>, env: seq<Option<V>>, onAdded: V -> V, managed: bool, q: Cleanup)
    ensures Run(t, env, onAdded, managed, q) == RunWith(t, env, (u: Track<V>, x: Option<V>) => Transition(u.(comp := x), onAdded, managed, q))
    decreases |env|
  {
    if env != [] {
      RunIsRunWith(Transition(t.(comp := env[0]), onAdded, managed, q).track, env[1..], onAdded, managed, q);
    }
  }

  /** Passes compose: running `a` then `b` is running `a + b`. */
  lemma RunAppend<V>(t: Track<V>, a: seq<Option<V>>, b: seq<Option<V>>, onAdded: V -> V, managed: bool, q: Cleanup)
    ensures var ra := Run(t, a, onAdded, managed, q);
            var rb := Run(ra.track, b, onAdded, managed, q);
      Run(t, a + b, onAdded, managed, q) == Outcome(rb.track, ra.notices + rb.notices)
  {
    var next := (u: Track<V>, x: Option<V>) => Transition(u.(comp := x), onAdded, managed, q);
    RunIsRunWith(t, a + b, onAdded, managed, q);
    RunIsRunWith(t, a, onAdded, managed, q);
    RunIsRunWith(Run(t, a, onAdded, managed, q).track, b, onAdded, managed, q);
    RunWithAppend(t, a, b, next);
  }

  /** Every entry of `env` keeps the component on the entity. */
  predicate AllPresent<V>(env: seq<Option<V>>)
  {
    forall i :: 0 <= i < |env| ==> env[i].Some?
  }

  /** Every entry of `env` leaves the entity without the component. */
  predicate AllAbsent<V>(env: seq<Option<V>>)
  {
    forall i :: 0 <= i < |env| ==> env[i].None?
  }

  /** While the component stays, a settled entity raises no callback and its shadow copy tracks the latest value. */
  lemma {:induction false} SettledQuiet<V>(t: Track<V>, env: seq<Option<V>>, onAdded: V -> V, managed: bool, q: Cleanup)
    requires Settled(t) && AllPresent(env)
    ensures var r := Run(t, env, onAdded, managed, q);
      && r.notices == [] && Settled(r.track)
      && (env != [] ==> r.track.state == env[|env| - 1])
      && (env == [] ==> r.track.state == t.state)
    decreases |env|
  {
    if env != [] {
      var p := Transition(t.(comp := env[0]), onAdded, managed, q);
      assert p.notice.None? && Settled(p.track) && p.track.state == env[0];
      var tail := env[1..];
      assert AllPresent(tail) by {
        forall i | 0 <= i < |tail| ensures tail[i].Some? {
          assert tail[i] == env[i + 1];
        }
      }
      SettledQuiet(p.track, tail, onAdded, managed, q);
      var rest := Run(p.track, tail, onAdded, managed, q);
      assert Run(t, env, onAdded, managed, q) == Outcome(rest.track, Emitted(p.notice) + rest.notices);
      assert tail != [] ==> tail[|tail| - 1] == env[|env| - 1];
    }
  }

  /** The pass after `OnAdded` strips `TAdded`; from then on the entity is settled and quiet while the component stays. */
  lemma {:induction false} FreshQuiet<V>(t: Track<V>, env: seq<Option<V>>, onAdded: V -> V, managed: bool, q: Cleanup)
    requires t.added && t.state.Some? && !t.removed && AllPresent(env) && env != []
    ensures var r := Run(t, env, onAdded, managed, q);
      r.notices == [] && Settled(r.track) && r.track.state == env[|env| - 1]
  {
    var p := Transition(t.(comp := env[0]), onAdded, managed, q);
    assert p.notice.None? && Settled(p.track) && p.track.state == env[0];
    SettledQuiet(p.track, env[1..], onAdded, managed, q);
  }

  /** An added component is reported exactly once, however long it stays. */
  lemma AddedOnce<V>(t: Track<V>, env: seq<Option<V>>, onAdded: V -> V, managed: bool, q: Cleanup)
    requires Untracked(t) && AllPresent(env) && |env| >= 2
    ensures Run(t, env, onAdded, managed, q).notices == [Added(env[0].value)]
  {
    var p := Transition(t.(comp := env[0]), onAdded, managed, q);
    assert p.notice == Some(Added(env[0].value));
    FreshQuiet(p.track, env[1..], onAdded, managed, q);
  }

  /** With the component gone, an untracked entity stays untracked and silent. */
  lemma {:induction false} IdleQuiet<V>(t: Track<V>, env: seq<Option<V>>, onAdded: V -> V, managed: bool, q: Cleanup)
    requires Untracked(t) && AllAbsent(env)
    ensures var r := Run(t, env, onAdded, managed, q); r.notices == [] && Untracked(r.track)
    decreases |env|
  {
    if env != [] {
      IdleQuiet(Transition(t.(comp := env[0]), onAdded, managed, q).track, env[1..], onAdded, managed, q);
    }
  }

  /** A removed component is reported exactly once, with the shadow copy, and tracking ends a pass later. */
  lemma RemovedOnce<V>(t: Track<V>, env: seq<Option<V>>, onAdded: V -> V, managed: bool, q: Cleanup)
    requires Settled(t) && AllAbsent(env) && |env| >= 2
    ensures var r := Run(t, env, onAdded, managed, q);
      r.notices == [Removed(t.state.value)] && Untracked(r.track)
  {
    var p1 := Transition(t.(comp := env[0]), onAdded, managed, q);
    assert p1.notice == Some(Removed(t.state.value));
    var p2 := Transition(p1.track.(comp := env[1]), onAdded, managed, q);
    assert p2.notice.None? && Untracked(p2.track);
    IdleQuiet(p2.track, env[2..], onAdded, managed, q);
    assert env[1..][1..] == env[2..];
  }

  /**
   * A whole lifetime: a component present for `live` passes and then gone
   * for `gone` passes raises `OnAdded` with its first value and `OnRemoved`
   * with its last, and nothing else.
   */
  lemma ReportsLifetime<V>(t: Track<V>, live: seq<Option<V>>, gone: seq<Option<V>>, onAdded: V -> V, managed: bool, q: Cleanup)
    requires Untracked(t) && AllPresent(live) && AllAbsent(gone) && |live| >= 2 && |gone| >= 2
    ensures var r := Run(t, live + gone, onAdded, managed, q);
      r.notices == [Added(live[0].value), Removed(live[|live| - 1].value)] && Untracked(r.track)
  {
    RunAppend(t, live, gone, onAdded, managed, q);
    var p := Transition(t.(comp := live[0]), onAdded, managed, q);
    FreshQuiet(p.track, live[1..], onAdded, managed, q);
    var ra := Run(t, live, onAdded, managed, q);
    assert ra.notices == [Added(live[0].value)] && Settled(ra.track) && ra.track.state == live[|live| - 1];
    RemovedOnce(ra.track, gone, onAdded, managed, q);
  }

  /**
   * As written, a component added again while `TRemoved` is still attached
   * matches none of the queries but the copy: no callback fires and the
   * entity keeps `TRemoved` for as long as the component stays.
   */
  lemma {:induction false} ReAddNeverReported<V>(t: Track<V>, env: seq<Option<V>>, onAdded: V -> V, managed: bool)
    requires t.state.Some? && t.removed && !t.added && AllPresent(env)
    ensures var r := Run(t, env, onAdded, managed, AsWritten);
      r.notices == [] && r.track.removed && r.track.state.Some? && !r.track.added
    decreases |env|
  {
    if env != [] {
      var p := Transition(t.(comp := env[0]), onAdded, managed, AsWritten);
      assert p.notice.None? && p.track.removed && p.track.state.Some? && !p.track.added;
      ReAddNeverReported(p.track, env[1..], onAdded, managed);
    }
  }

  /** With the cleanup query not requiring the component's absence, the re-added component is reported on the second pass. */
  lemma ReAddReported<V>(t: Track<V>, env: seq<Option<V>>, onAdded: V -> V, managed: bool)
    requires t.state.Some? && t.removed && !t.added && AllPresent(env) && |env| >= 3
    ensures Run(t, env, onAdded, managed, Fixed).notices == [Added(env[1].value)]
  {
    var p := Transition(t.(comp := env[0]), onAdded, managed, Fixed);
    assert p.notice.None? && Untracked(p.track);
    AddedOnce(p.track, env[1..], onAdded, managed, Fixed);
  }

  /** A component present for two passes, removed for one, added again for three and removed for good. */
  function TwoLifetimes<V>(a: V, b: V): (env: seq<Option<V>>)
    ensures |env| == 8 && AllPresent(env[..2]) && AllPresent(env[3..6]) && env[2].None? && AllAbsent(env[6..])
  {
    [Some(a)] + ([Some(a)] + ([None] + ([Some(b), Some(b), Some(b)] + [None, None])))
  }

  /** The pass that sees a new component reports it and attaches `TAdded` and `State`. */
  lemma AddedPass<V>(a: V, onAdded: V -> V, managed: bool, q: Cleanup)
    ensures var p := Transition(Track(Some(a), false, None, false), onAdded, managed, q);
      p.notice == Some(Added(a)) && p.track.added && !p.track.removed && p.track.state.Some?
  {
  }

  /** The pass after that strips `TAdded` and copies the component into `State`. */
  lemma SettlePass<V>(t: Track<V>, a: V, onAdded: V -> V, managed: bool, q: Cleanup)
    requires t.added && !t.removed && t.state.Some?
    ensures Transition(t.(comp := Some(a)), onAdded, managed, q) == Pass(Track(Some(a), false, Some(a), false), None)
  {
  }

  /** The pass that sees the component gone reports the shadow copy and attaches `TRemoved`. */
  lemma RemovePass<V>(a: V, onAdded: V -> V, managed: bool, q: Cleanup)
    ensures Transition(Track(None, false, Some(a), false), onAdded, managed, q) == Pass(Track(None, false, Some(a), true), Some(Removed(a)))
  {
  }

  /** The first lifetime and its removal: `OnAdded(a)`, then `OnRemoved(a)`, leaving `TRemoved` attached. */
  lemma FirstLifetime<V>(a: V, rest: seq<Option<V>>, onAdded: V -> V, managed: bool, q: Cleanup)
    ensures var t3 := Track(None, false, Some(a), true);
      Run(Track(None, false, None, false), [Some(a)] + ([Some(a)] + ([None] + rest)), onAdded, managed, q)
        == Outcome(Run(t3, rest, onAdded, managed, q).track,
                   [Added(a), Removed(a)] + Run(t3, rest, onAdded, managed, q).notices)
  {
    var t0: Track<V> := Track(None, false, None, false);
    var p1 := Transition(t0.(comp := Some(a)), onAdded, managed, q);
    AddedPass(a, onAdded, managed, q);
    SettlePass(p1.track, a, onAdded, managed, q);
    var t2: Track<V> := Track(Some(a), false, Some(a), false);
    RemovePass(a, onAdded, managed, q);
    assert t2.(comp := None) == Track(None, false, Some(a), false);
    RunCons(t0, Some(a), [Some(a)] + ([None] + rest), onAdded, managed, q);
    RunCons(p1.track, Some(a), [None] + rest, onAdded, managed, q);
    RunCons(t2, None, rest, onAdded, managed, q);
  }

  /** As written, only the first of the two lifetimes is reported. */
  lemma SecondLifetimeLost<V>(a: V, b: V, onAdded: V -> V, managed: bool)
    ensures Run(Track(None, false, None, false), TwoLifetimes(a, b), onAdded, managed, AsWritten).notices
              == [Added(a), Removed(a)]
  {
    var live: seq<Option<V>> := [Some(b), Some(b), Some(b)];
    var gone: seq<Option<V>> := [None, None];
    var t3: Track<V> := Track(None, false, Some(a), true);
    FirstLifetime(a, live + gone, onAdded, managed, AsWritten);
    RunAppend(t3, live, gone, onAdded, managed, AsWritten);
    assert AllPresent(live);
    ReAddNeverReported(t3, live, onAdded, managed);
    var t4 := Run(t3, live, onAdded, managed, AsWritten).track;
    var p5 := Transition(t4.(comp := None), onAdded, managed, AsWritten);
    assert Untracked(p5.track) && p5.notice.None?;
    RunCons(t4, None, [None], onAdded, managed, AsWritten);
    IdleQuiet(p5.track, [None], onAdded, managed, AsWritten);
  }

  /** With the fixed cleanup query both lifetimes are reported, each with its first and last value. */
  lemma SecondLifetimeReported<V>(a: V, b: V, onAdded: V -> V, managed: bool)
    ensures Run(Track(None, false, None, false), TwoLifetimes(a, b), onAdded, managed, Fixed).notices
              == [Added(a), Removed(a), Added(b), Removed(b)]
  {
    var live: seq<Option<V>> := [Some(b), Some(b)];
    var gone: seq<Option<V>> := [None, None];
    var t3: Track<V> := Track(None, false, Some(a), true);
    assert [Some(b), Some(b), Some(b)] + gone == [Some(b)] + (live + gone);
    FirstLifetime(a, [Some(b)] + (live + gone), onAdded, managed, Fixed);
    var p4 := Transition(t3.(comp := Some(b)), onAdded, managed, Fixed);
    assert Untracked(p4.track) && p4.notice.None?;
    RunCons(t3, Some(b), live + gone, onAdded, managed, Fixed);
    assert AllPresent(live) && AllAbsent(gone);
    ReportsLifetime(p4.track, live, gone, onAdded, managed, Fixed);
  }
}
