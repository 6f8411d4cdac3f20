/**
 * `AnimationCommand.Execute`: a server message either edits one named bool
 * parameter of an entity's animation state or queues one trigger on it. The
 * target is an entity link resolved through the id cache; an unresolved
 * link makes the command do nothing.
 */
module Animation {
  import opened Wrappers
  import opened Store
  import opened Find
  import opened Buffer

  /** `Trigger` selects which of the two payloads is used; the other is ignored. */
  datatype AnimationCommand = AnimationCommand(
    trigger: bool,
    paramState: Change, paramLink: EntityLink, boolName: string, activated: bool,
    triggerLink: EntityLink, triggerName: string)

  /** The link the command acts through. */
  function Target(cmd: AnimationCommand): EntityLink
  {
    if cmd.trigger then cmd.triggerLink else cmd.paramLink
  }

  /**
   * The bool-parameter edit: Added inserts and throws on a name already
   * present, Updated sets the value whether or not the name is present, and
   * Removed deletes the name if present.
   */
  function EditParams(params: map<string, bool>, state: Change, name: string, active: bool): (r: Result<map<string, bool>, Error>)
    ensures r.Failure? <==> state == Added && name in params
    ensures r.Success? && state != Removed ==> r.value == params[name := active]
    ensures r.Success? && state == Removed ==> name !in r.value && forall k :: k != name ==>
              (k in r.value <==> k in params) && (k in r.value ==> r.value[k] == params[k])
  {
    match state
    case Added => if name in params then Failure(DuplicateKey) else Success(params[name := active])
    case Updated => Success(params[name := active])
    case Removed => Success(params - {name})
  }

  /** The animation component after the command, or the exception it throws. */
  function Edit(v: Value, cmd: AnimationCommand): (r: Result<Value, Error>)
    requires v.AnimationV?
    ensures cmd.trigger ==> r == Success(v.(triggers := v.triggers + [cmd.triggerName]))
    ensures !cmd.trigger ==> r.Success? == EditParams(v.boolParams, cmd.paramState, cmd.boolName, cmd.activated).Success?
    ensures !cmd.trigger && r.Success? ==>
              r.value == v.(boolParams := EditParams(v.boolParams, cmd.paramState, cmd.boolName, cmd.activated).value)
  {
    if cmd.trigger then Success(v.(triggers := v.triggers + [cmd.triggerName]))
    else
      var params :- EditParams(v.boolParams, cmd.paramState, cmd.boolName, cmd.activated);
      Success(v.(boolParams := params))
  }

  /**
   * `Execute`: an unresolved link changes nothing; a resolved one reads the
   * entity's `Animation` (throwing when the entity is gone or has none),
   * edits it, and writes it back. Only that component can change.
   */
  function Execute(w: World, cmd: AnimationCommand): (r: Attempt<World, Error>)
    ensures r.state.cached == w.cached && r.state.buffered == w.buffered
    ensures Resolve(w.cached, Target(cmd)) == Null ==> r == Attempt(w, None)
    ensures r.error.Some? ==> r.state == w
    ensures var e := Resolve(w.cached, Target(cmd));
      r.error.None? && e != Null ==>
        && Has(w.store, e, AnimationK) && w.store.comps[e][AnimationK].AnimationV?
        && var edited := Edit(w.store.comps[e][AnimationK], cmd);
           edited.Success? && r.state.store == w.store.(comps := w.store.comps[e := w.store.comps[e][AnimationK := edited.value]])
    ensures var e := Resolve(w.cached, Target(cmd));
      (&& e != Null && Has(w.store, e, AnimationK) && w.store.comps[e][AnimationK].AnimationV?
       && Edit(w.store.comps[e][AnimationK], cmd).Success?) ==> r.error.None?
  {
    var e := Resolve(w.cached, Target(cmd));
    if e == Null then Attempt(w, None)
    else match Get(w.store, e, AnimationK)
      case Failure(err) => Attempt(w, Some(err))
      case Success(v) =>
        if !v.AnimationV? then Attempt(w, Some(ComponentMissing(e, AnimationK)))
        else match Edit(v, cmd)
          case Failure(err) => Attempt(w, Some(err))
          case Success(v') => Attempt(w.(store := Put(w.store, e, AnimationK, v')), None)
  }

  /** A trigger appends exactly one name at the end of the trigger list and leaves the bool parameters alone. */
  lemma TriggerAppendsOne(w: World, cmd: AnimationCommand)
    requires cmd.trigger
    requires var e := Resolve(w.cached, cmd.triggerLink);
      e != Null && Has(w.store, e, AnimationK) && w.store.comps[e][AnimationK].AnimationV?
    ensures var e := Resolve(w.cached, cmd.triggerLink);
            var before := w.store.comps[e][AnimationK];
            var r := Execute(w, cmd);
      && r.error.None?
      && var after := r.state.store.comps[e][AnimationK];
         after.boolParams == before.boolParams &&
         |after.triggers| == |before.triggers| + 1 &&
         after.triggers[..|before.triggers|] == before.triggers && after.triggers[|before.triggers|] == cmd.triggerName
  {
  }

  /** Adding a parameter and then removing it leaves the parameters as they were, if the name was new. */
  lemma AddThenRemove(params: map<string, bool>, name: string, active: bool)
    requires name !in params
    ensures var added := EditParams(params, Added, name, active);
      added.Success? && EditParams(added.value, Removed, name, active) == Success(params)
  {
    var added := EditParams(params, Added, name, active).value;
    assert added - {name} == params;
  }
}
