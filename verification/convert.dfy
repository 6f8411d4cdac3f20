/**
 * The conversion of network commands into per-component operations: a
 * command names a server id, a prototype type path and an opcode, and
 * carries no payload (only its `Identity` is written), one to eight
 * component payloads, or a single component addressed by id alone. Batches
 * apply their commands in array order. An exception escaping a processor
 * aborts the rest of the command and of its batch; whatever happened before
 * it stays.
 */
module Convert {
  import opened Wrappers
  import opened Store
  import opened Find
  import opened Commander

  /** The header every entity command carries; `opcode` is the raw wire value. */
  datatype EntityCommand = EntityCommand(id: int, typePath: string, opcode: int)

  /** A component addressed by server id alone. */
  datatype ComponentCommand = ComponentCommand(id: int, opcode: int, component: Component)

  /** The world after a conversion, and the exception that aborted it, if any. */
  datatype Run = Run(world: World, error: Option<Error>)

  /** Components `comps` written in order over `m`; a later payload of the same type overwrites an earlier one. */
  function WriteAll(m: Components, comps: seq<Component>): (r: Components)
    ensures r.Keys == m.Keys + set c | c in comps :: c.kind
    decreases |comps|
  {
    if comps == [] then m else WriteAll(m[comps[0].kind := comps[0].value], comps[1..])
  }

  /** The operation that only writes its payload: Add, Update and Create. */
  predicate Writes(op: Operation)
  {
    op == Add || op == Update || op == Create
  }

  /**
   * Processes `comps` one after the other against the fixed entity `e`, all
   * with the same opcode and type path, stopping at the first exception.
   */
  function ApplyEach(w: World, reg: Registry, op: Operation, typeId: Option<string>, e: Entity, comps: seq<Component>): (r: Run)
    ensures r.world.cached == w.cached && r.world.buffered == w.buffered
    decreases |comps|
  {
    if comps == [] then Run(w, None)
    else
      match Process(w.store, reg, EcsCommand(op, e, typeId, comps[0]))
      case Failure(err) => Run(w, Some(err))
      case Success(p) => ApplyEach(w.(store := p.store), reg, op, typeId, e, comps[1..])
  }

  /** A writing opcode on a live entity is exactly the write of its payload. */
  lemma ProcessWrites(s: Store, reg: Registry, op: Operation, e: Entity, typeId: Option<string>, c: Component)
    requires Writes(op) && e != Null && Live(s, e)
    ensures Process(s, reg, EcsCommand(op, e, typeId, c)) == Success(Processed(s.(comps := s.comps[e := s.comps[e][c.kind := c.value]]), e))
  {
  }

  /** On a live entity, a writing opcode never throws and writes every payload in order. */
  lemma {:induction false} ApplyEachWrites(w: World, reg: Registry, op: Operation, typeId: Option<string>, e: Entity, comps: seq<Component>)
    requires Writes(op) && e != Null && Live(w.store, e)
    ensures ApplyEach(w, reg, op, typeId, e, comps) ==
              Run(w.(store := w.store.(comps := w.store.comps[e := WriteAll(w.store.comps[e], comps)])), None)
    decreases |comps|
  {
    if comps != [] {
      ProcessWrites(w.store, reg, op, e, typeId, comps[0]);
      var st := w.store.(comps := w.store.comps[e := w.store.comps[e][comps[0].kind := comps[0].value]]);
      ApplyEachWrites(w.(store := st), reg, op, typeId, e, comps[1..]);
    }
  }

  /** On `Null`, every opcode but Create is a no-op for each payload. */
  lemma {:induction false} ApplyEachOnNull(w: World, reg: Registry, op: Operation, typeId: Option<string>, comps: seq<Component>)
    requires op != Create && !op.Undefined?
    ensures ApplyEach(w, reg, op, typeId, Null, comps) == Run(w, None)
  {
    if comps != [] {
      ApplyEachOnNull(w, reg, op, typeId, comps[1..]);
    }
  }

  /** The identity a bare command writes: its id, an empty tag and its type path. */
  function IdentityOf(cmd: EntityCommand): Component
  {
    Component(IdentityK, IdentityV(cmd.id, "", cmd.typePath))
  }

  /**
   * `ConvertToEcs(EntityCommand)`: resolves the id, processes the identity
   * component, and when the resulting entity's index is not positive records
   * it in the buffered table; a duplicate key there is caught and logged.
   */
  function ConvertBare(w: World, reg: Registry, cmd: EntityCommand): (r: Run)
    ensures r.world.cached == FindById(w.store, w.cached, cmd.id).cached
    ensures r.world.buffered.Keys == w.buffered.Keys || r.world.buffered.Keys == w.buffered.Keys + {cmd.id}
    ensures forall id :: id in w.buffered ==> id in r.world.buffered && r.world.buffered[id] == w.buffered[id]
    ensures r.error.None? ==>
              var p := Process(w.store, reg, EcsCommand(OperationOf(cmd.opcode), FindById(w.store, w.cached, cmd.id).entity, Some(cmd.typePath), IdentityOf(cmd)));
              p.Success? && r.world.store == p.value.store &&
              (cmd.id in r.world.buffered - w.buffered.Keys <==> p.value.entity.index <= 0 && cmd.id !in w.buffered) &&
              (cmd.id in r.world.buffered - w.buffered.Keys ==> r.world.buffered[cmd.id] == p.value.entity)
  {
    var lk := FindById(w.store, w.cached, cmd.id);
    var w1 := w.(cached := lk.cached);
    match Process(w1.store, reg, EcsCommand(OperationOf(cmd.opcode), lk.entity, Some(cmd.typePath), IdentityOf(cmd)))
    case Failure(err) => Run(w1, Some(err))
    case Success(p) =>
      var w2 := w1.(store := p.store);
      if p.entity.index <= 0 && cmd.id !in w2.buffered then Run(w2.(buffered := w2.buffered[cmd.id := p.entity]), None)
      else Run(w2, None)
  }

  /**
   * `ConvertToEcs<T1..Tn>` for one to eight payloads: resolves the id once,
   * processes the first payload, and runs every further payload against the
   * entity the first one returned.
   */
  function ConvertComponents(w: World, reg: Registry, cmd: EntityCommand, comps: seq<Component>): (r: Run)
    requires 1 <= |comps| <= 8
    ensures r.world.cached == FindById(w.store, w.cached, cmd.id).cached && r.world.buffered == w.buffered
  {
    var lk := FindById(w.store, w.cached, cmd.id);
    var w1 := w.(cached := lk.cached);
    var op := OperationOf(cmd.opcode);
    match Process(w1.store, reg, EcsCommand(op, lk.entity, Some(cmd.typePath), comps[0]))
    case Failure(err) => Run(w1, Some(err))
    case Success(p) => ApplyEach(w1.(store := p.store), reg, op, Some(cmd.typePath), p.entity, comps[1..])
  }

  /** An id that resolves: every payload is written, in order, on the entity found. */
  lemma CommandOnFound(w: World, reg: Registry, cmd: EntityCommand, comps: seq<Component>)
    requires Valid(w.store) && 1 <= |comps| <= 8 && Writes(OperationOf(cmd.opcode))
    requires FindById(w.store, w.cached, cmd.id).entity != Null
    ensures var r := ConvertComponents(w, reg, cmd, comps);
            var found := FindById(w.store, w.cached, cmd.id).entity;
      r.error.None? && r.world.store == w.store.(comps := w.store.comps[found := WriteAll(w.store.comps[found], comps)])
  {
    var lk := FindById(w.store, w.cached, cmd.id);
    var w1 := w.(cached := lk.cached);
    var op := OperationOf(cmd.opcode);
    var e := lk.entity;
    var st := w.store.(comps := w.store.comps[e := w.store.comps[e][comps[0].kind := comps[0].value]]);
    assert Live(w.store, e);
    assert ConvertComponents(w, reg, cmd, comps) == ApplyEach(w1.(store := st), reg, op, Some(cmd.typePath), e, comps[1..]) by {
      ProcessWrites(w1.store, reg, op, e, Some(cmd.typePath), comps[0]);
    }
    ApplyEachAfterFirst(w1, reg, op, Some(cmd.typePath), e, comps);
  }

  /** The payloads after the first, applied to the entity the first was written on, complete the write of all of them. */
  lemma ApplyEachAfterFirst(w: World, reg: Registry, op: Operation, typeId: Option<string>, e: Entity, comps: seq<Component>)
    requires Writes(op) && e != Null && Live(w.store, e) && 1 <= |comps|
    ensures var st := w.store.(comps := w.store.comps[e := w.store.comps[e][comps[0].kind := comps[0].value]]);
      ApplyEach(w.(store := st), reg, op, typeId, e, comps[1..]) ==
        Run(w.(store := w.store.(comps := w.store.comps[e := WriteAll(w.store.comps[e], comps)])), None)
  {
    var st := w.store.(comps := w.store.comps[e := w.store.comps[e][comps[0].kind := comps[0].value]]);
    ApplyEachWrites(w.(store := st), reg, op, typeId, e, comps[1..]);
    assert WriteAll(w.store.comps[e], comps) == WriteAll(st.comps[e], comps[1..]);
    assert st.comps[e := WriteAll(st.comps[e], comps[1..])] == w.store.comps[e := WriteAll(w.store.comps[e], comps)];
  }

  /** An id that does not resolve, with Add or Update: nothing changes. */
  lemma CommandOnMissing(w: World, reg: Registry, cmd: EntityCommand, comps: seq<Component>)
    requires 1 <= |comps| <= 8 && (OperationOf(cmd.opcode) == Add || OperationOf(cmd.opcode) == Update)
    requires FindById(w.store, w.cached, cmd.id).entity == Null
    ensures var r := ConvertComponents(w, reg, cmd, comps);
      r.error.None? && r.world.store == w.store
  {
    var lk := FindById(w.store, w.cached, cmd.id);
    ApplyEachOnNull(w.(cached := lk.cached), reg, OperationOf(cmd.opcode), Some(cmd.typePath), comps[1..]);
  }

  /**
   * An id that does not resolve, with Create: exactly one entity is cloned
   * from the type path and every payload is written on it, or, for an
   * unregistered type path, the command throws having changed nothing.
   */
  lemma CommandClonesOnce(w: World, reg: Registry, cmd: EntityCommand, comps: seq<Component>)
    requires Valid(w.store) && 1 <= |comps| <= 8 && OperationOf(cmd.opcode) == Create
    requires FindById(w.store, w.cached, cmd.id).entity == Null
    ensures var r := ConvertComponents(w, reg, cmd, comps);
      && (r.error.Some? <==> cmd.typePath !in reg)
      && (r.error.Some? ==> r.world.store == w.store)
      && (r.error.None? ==>
            var e := Entity(w.store.nextIndex, 1);
            e !in w.store.comps &&
            r.world.store == Store(w.store.order + [e], w.store.comps[e := WriteAll(reg[cmd.typePath], comps)], w.store.nextIndex + 1))
  {
    var lk := FindById(w.store, w.cached, cmd.id);
    var w1 := w.(cached := lk.cached);
    var e := Entity(w.store.nextIndex, 1);
    var r := ConvertComponents(w, reg, cmd, comps);
    if cmd.typePath in reg {
      var base := w.store.(order := w.store.order + [e], comps := w.store.comps[e := reg[cmd.typePath]], nextIndex := w.store.nextIndex + 1);
      var st := base.(comps := base.comps[e := base.comps[e][comps[0].kind := comps[0].value]]);
      assert r == ApplyEach(w1.(store := st), reg, Create, Some(cmd.typePath), e, comps[1..]) by {
        ProcessClones(w1.store, reg, cmd.typePath, comps[0]);
      }
      assert r == Run(w1.(store := base.(comps := base.comps[e := WriteAll(base.comps[e], comps)])), None) by {
        ApplyEachAfterFirst(w1.(store := base), reg, Create, Some(cmd.typePath), e, comps);
      }
      assert base.comps[e := WriteAll(base.comps[e], comps)] == w.store.comps[e := WriteAll(reg[cmd.typePath], comps)] by {
        OverwriteTwice(w.store.comps, e, reg[cmd.typePath], WriteAll(reg[cmd.typePath], comps));
      }
      assert e !in w.store.comps;
    } else {
      assert r == Run(w1, Some(UnknownPrototype(cmd.typePath))) by {
        ProcessClones(w1.store, reg, cmd.typePath, comps[0]);
      }
    }
  }

  /** A second write to the same key of a map hides the first. */
  lemma OverwriteTwice<K, V>(m: map<K, V>, k: K, a: V, b: V)
    ensures m[k := a][k := b] == m[k := b] && m[k := a][k] == a
  {
  }

  /** Create on `Null` clones the type path's template and writes the payload on the clone, or throws for an unknown path. */
  lemma ProcessClones(s: Store, reg: Registry, path: string, c: Component)
    ensures var e := Entity(s.nextIndex, 1);
      Process(s, reg, EcsCommand(Create, Null, Some(path), c)) ==
        if path in reg then Success(Processed(Store(s.order + [e], s.comps[e := reg[path][c.kind := c.value]], s.nextIndex + 1), e))
        else Failure(UnknownPrototype(path))
  {
  }

  /** A command from the wire: the header alone, or the header with one to eight payloads. */
  datatype WireCommand =
    | EntityOnly(command: EntityCommand)
    | EntityWith(command: EntityCommand, components: seq<Component>)

  /** A payload list one of the typed overloads can carry. */
  predicate WellFormed(c: WireCommand)
  {
    c.EntityWith? ==> 1 <= |c.components| <= 8
  }

  /** The overload a wire command selects. */
  function ConvertWire(w: World, reg: Registry, c: WireCommand): Run
    requires WellFormed(c)
  {
    match c
    case EntityOnly(cmd) => ConvertBare(w, reg, cmd)
    case EntityWith(cmd, comps) => ConvertComponents(w, reg, cmd, comps)
  }

  /** The batch overloads: every command of the array in index order; an exception ends the batch. */
  function ConvertBatch(w: World, reg: Registry, batch: seq<WireCommand>): (r: Run)
    requires forall i :: 0 <= i < |batch| ==> WellFormed(batch[i])
    ensures batch == [] ==> r == Run(w, None)
    ensures |batch| == 1 ==> r == ConvertWire(w, reg, batch[0])
    decreases |batch|
  {
    if batch == [] then Run(w, None)
    else
      var first := ConvertWire(w, reg, batch[0]);
      if first.error.Some? then first else ConvertBatch(first.world, reg, batch[1..])
  }

  /** A batch is its first part followed by its rest, unless the first part throws. */
  lemma {:induction false} ConvertBatchSplits(w: World, reg: Registry, a: seq<WireCommand>, b: seq<WireCommand>)
    requires forall i :: 0 <= i < |a| ==> WellFormed(a[i])
    requires forall i :: 0 <= i < |b| ==> WellFormed(b[i])
    ensures forall i :: 0 <= i < |a + b| ==> WellFormed((a + b)[i])
    ensures var ra := ConvertBatch(w, reg, a);
      ConvertBatch(w, reg, a + b) == if ra.error.Some? then ra else ConvertBatch(ra.world, reg, b)
    decreases |a|
  {
    assert forall i :: 0 <= i < |a + b| ==> WellFormed((a + b)[i]) by {
      forall i | 0 <= i < |a + b| ensures WellFormed((a + b)[i]) {
        if i < |a| { assert (a + b)[i] == a[i]; } else { assert (a + b)[i] == b[i - |a|]; }
      }
    }
    if a != [] {
      assert (a + b)[0] == a[0];
      assert (a + b)[1..] == a[1..] + b;
      var first := ConvertWire(w, reg, a[0]);
      if first.error.None? {
        ConvertBatchSplits(first.world, reg, a[1..], b);
      }
    } else {
      assert a + b == b;
    }
  }

  /**
   * `ConvertToEcs(ComponentCommand<T>)`: resolves the id, falls back to the
   * buffered table when that yields `Null` (an absent key leaves `Null`), and
   * processes the component with a null type path.
   */
  function ConvertComponent(w: World, reg: Registry, cmd: ComponentCommand): (r: Run)
    ensures r.world.cached == FindById(w.store, w.cached, cmd.id).cached && r.world.buffered == w.buffered
    ensures var found := FindById(w.store, w.cached, cmd.id).entity;
            var target := if found != Null then found else if cmd.id in w.buffered then w.buffered[cmd.id] else Null;
            var p := Process(w.store, reg, EcsCommand(OperationOf(cmd.opcode), target, None, cmd.component));
            if p.Success? then r.world.store == p.value.store && r.error.None?
            else r.world.store == w.store && r.error == Some(p.error)
  {
    var lk := FindById(w.store, w.cached, cmd.id);
    var w1 := w.(cached := lk.cached);
    var target := if lk.entity != Null then lk.entity
                  else if cmd.id in w1.buffered then w1.buffered[cmd.id] else Null;
    match Process(w1.store, reg, EcsCommand(OperationOf(cmd.opcode), target, None, cmd.component))
    case Failure(err) => Run(w1, Some(err))
    case Success(p) => Run(w1.(store := p.store), None)
  }

  /** Every entry of the buffered table is `Null`. */
  predicate BufferHoldsNull(w: World)
  {
    forall id :: id in w.buffered ==> w.buffered[id] == Null
  }

  /**
   * Entities of a valid store have positive indices, so the only entity a
   * bare command can ever record in the buffered table is `Null`, and the
   * store stays valid.
   */
  lemma ConvertBareBuffersNull(w: World, reg: Registry, cmd: EntityCommand)
    requires Valid(w.store) && BufferHoldsNull(w)
    ensures var r := ConvertBare(w, reg, cmd); BufferHoldsNull(r.world) && Valid(r.world.store)
  {
    var lk := FindById(w.store, w.cached, cmd.id);
    var c := EcsCommand(OperationOf(cmd.opcode), lk.entity, Some(cmd.typePath), IdentityOf(cmd));
    ProcessValid(w.store, reg, c);
  }

  /**
   * Consequently the buffered fallback of a component command never finds
   * an entity: an id `FindById` cannot resolve leaves the store unchanged,
   * as a no-op for every opcode but Create and as a thrown null type path
   * for Create.
   */
  lemma ComponentFallbackInert(w: World, reg: Registry, cmd: ComponentCommand)
    requires BufferHoldsNull(w) && FindById(w.store, w.cached, cmd.id).entity == Null
    ensures var r := ConvertComponent(w, reg, cmd);
      && r.world.store == w.store
      && (OperationOf(cmd.opcode) == Create ==> r.error == Some(NullTypePath))
      && (OperationOf(cmd.opcode) != Create && !OperationOf(cmd.opcode).Undefined? ==> r.error.None?)
  {
  }
}
