/**
 * The enable and disable hooks of the client's `Entity` behaviour: each
 * invokes its event when one is set, and an event flagged "once" is cleared
 * after its first invocation.
 */
module Enabling {
  /** The behaviour's hook state: whether each event is still set, the once flags, and `enabled`. */
  datatype Hooks = Hooks(onEnable: bool, onDisable: bool, onceOnEnabled: bool, onceOnDisabled: bool, enabled: bool)

  /** One call of the hooks, and the invocations it made. */
  datatype Fired = Fired(hooks: Hooks, enableCalls: nat, disableCalls: nat)

  /** `OnEnable`. */
  function OnEnable(h: Hooks): (r: Fired)
    ensures r.hooks.enabled
    ensures r.enableCalls == (if h.onEnable then 1 else 0) && r.disableCalls == 0
    ensures r.hooks.onEnable == (h.onEnable && !h.onceOnEnabled)
    ensures r.hooks == h.(onEnable := r.hooks.onEnable, enabled := true)
  {
    var calls := if h.onEnable then 1 else 0;
    Fired(h.(onEnable := if h.onceOnEnabled then false else h.onEnable, enabled := true), calls, 0)
  }

  /** `OnDisable`. */
  function OnDisable(h: Hooks): (r: Fired)
    ensures !r.hooks.enabled
    ensures r.disableCalls == (if h.onDisable then 1 else 0) && r.enableCalls == 0
    ensures r.hooks.onDisable == (h.onDisable && !h.onceOnDisabled)
    ensures r.hooks == h.(onDisable := r.hooks.onDisable, enabled := false)
  {
    var calls := if h.onDisable then 1 else 0;
    Fired(h.(onDisable := if h.onceOnDisabled then false else h.onDisable, enabled := false), 0, calls)
  }

  /** A sequence of engine calls: `true` enables, `false` disables. */
  function Replay(h: Hooks, calls: seq<bool>): (r: Fired)
    ensures r.hooks.onceOnEnabled == h.onceOnEnabled && r.hooks.onceOnDisabled == h.onceOnDisabled
    ensures calls != [] ==> r.hooks.enabled == calls[|calls| - 1]
    decreases |calls|
  {
    if calls == [] then Fired(h, 0, 0)
    else
      var f := if calls[0] then OnEnable(h) else OnDisable(h);
      var rest := Replay(f.hooks, calls[1..]);
      Fired(rest.hooks, f.enableCalls + rest.enableCalls, f.disableCalls + rest.disableCalls)
  }

  /** The number of enabling calls. */
  function Enables(calls: seq<bool>): nat
  {
    if calls == [] then 0 else (if calls[0] then 1 else 0) + Enables(calls[1..])
  }

  function Disables(calls: seq<bool>): nat
  {
    if calls == [] then 0 else (if calls[0] then 0 else 1) + Disables(calls[1..])
  }

  /**
   * A once event fires at most once over any run of calls, and not at all
   * once it has been cleared; the other event is untouched by the flag.
   */
  lemma {:induction false} OnceFiresAtMostOnce(h: Hooks, calls: seq<bool>)
    ensures var r := Replay(h, calls);
      && (h.onceOnEnabled ==> r.enableCalls <= (if h.onEnable then 1 else 0))
      && (h.onceOnDisabled ==> r.disableCalls <= (if h.onDisable then 1 else 0))
    decreases |calls|
  {
    if calls != [] {
      var f := if calls[0] then OnEnable(h) else OnDisable(h);
      OnceFiresAtMostOnce(f.hooks, calls[1..]);
    }
  }

  /** Without the once flags a set event fires on every call of its kind. */
  lemma {:induction false} EveryCallFires(h: Hooks, calls: seq<bool>)
    requires h.onEnable && h.onDisable && !h.onceOnEnabled && !h.onceOnDisabled
    ensures var r := Replay(h, calls);
      r.enableCalls == Enables(calls) && r.disableCalls == Disables(calls)
    decreases |calls|
  {
    if calls != [] {
      var f := if calls[0] then OnEnable(h) else OnDisable(h);
      EveryCallFires(f.hooks, calls[1..]);
    }
  }
}
