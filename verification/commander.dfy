/**
 * The per-component command processor: an `EcsCommand` names an opcode, a
 * target entity (possibly `Null`), a prototype type path and one component
 * payload; `Process` dispatches it to the Create, Add, Update, Remove or
 * Delete processor registered for its opcode.
 */
module Commander {
  import opened Wrappers
  import opened Store

  /** The five opcodes; `Undefined` is an out-of-range byte cast to the enum, which has no processor. */
  datatype Operation = Create | Add | Update | Remove | Delete | Undefined(code: int)

  /** The numeric value of an opcode, in declaration order. */
  function Code(op: Operation): int
  {
    match op
    case Create => 0
    case Add => 1
    case Update => 2
    case Remove => 3
    case Delete => 4
    case Undefined(c) => c
  }

  /** The cast `(Operation)opcode` of a wire opcode. */
  function OperationOf(code: int): (op: Operation)
    ensures Code(op) == code
    ensures op.Undefined? <==> !(0 <= code < 5)
  {
    if code == 0 then Create
    else if code == 1 then Add
    else if code == 2 then Update
    else if code == 3 then Remove
    else if code == 4 then Delete
    else Undefined(code)
  }

  /** One component operation for the local store; `typeId` is `None` where the source passes a null type path. */
  datatype EcsCommand = EcsCommand(opcode: Operation, entity: Entity, typeId: Option<string>, data: Component)

  /** The store after an operation and the entity the processor returned. */
  datatype Processed = Processed(store: Store, entity: Entity)

  /** The `Exists` flag handed to processors: the entity is not `Null` and already has the payload's component type. */
  predicate ExistsFlag(s: Store, cmd: EcsCommand)
  {
    cmd.entity != Null && Has(s, cmd.entity, cmd.data.kind)
  }

  /** `after` is `before` with component `c` written on the live entity `e` (added or overwritten), nothing else changed. */
  ghost predicate Upserted(before: Store, after: Store, e: Entity, c: Component)
  {
    Live(before, e) && after == before.(comps := before.comps[e := before.comps[e][c.kind := c.value]])
  }

  /** The Create/Add processors' `if (!exists) AddComponentData else SetComponentData`. */
  function Upsert(s: Store, e: Entity, present: bool, c: Component): (r: Result<Store, Error>)
    ensures present == Has(s, e, c.kind) ==> (r.Success? <==> Live(s, e))
    ensures r.Success? ==> Upserted(s, r.value, e, c)
  {
    if !present then AddComponentData(s, e, c.kind, c.value)
    else SetComponentData(s, e, c.kind, c.value)
  }

  /** Create: a `Null` target is first cloned from the type path, and `exists` is recomputed against the clone. */
  function CreateOp(s: Store, reg: Registry, cmd: EcsCommand, present: bool): Result<Processed, Error>
  {
    if cmd.entity == Null then
      var spawned :- Clone(s, reg, cmd.typeId);
      var st :- Upsert(spawned.store, spawned.entity, Has(spawned.store, spawned.entity, cmd.data.kind), cmd.data);
      Success(Processed(st, spawned.entity))
    else
      var st :- Upsert(s, cmd.entity, present, cmd.data);
      Success(Processed(st, cmd.entity))
  }

  /** Add: writes the payload, adding or setting by the `exists` flag. */
  function AddOp(s: Store, cmd: EcsCommand, present: bool): Result<Processed, Error>
  {
    var st :- Upsert(s, cmd.entity, present, cmd.data);
    Success(Processed(st, cmd.entity))
  }

  /** Update: both branches of its `exists` test call `AddComponentData`. */
  function UpdateOp(s: Store, cmd: EcsCommand, present: bool): Result<Processed, Error>
  {
    var st :- if !present then AddComponentData(s, cmd.entity, cmd.data.kind, cmd.data.value)
              else AddComponentData(s, cmd.entity, cmd.data.kind, cmd.data.value);
    Success(Processed(st, cmd.entity))
  }

  /** Remove: drops the payload's component type from the entity. */
  function RemoveOp(s: Store, cmd: EcsCommand): Result<Processed, Error>
  {
    var st :- RemoveComponent(s, cmd.entity, cmd.data.kind);
    Success(Processed(st, cmd.entity))
  }

  /** Whether the command is a Remove that takes the last system-state component of a lingering entity, which destroys it. */
  predicate Reaps(s: Store, cmd: EcsCommand)
  {
    cmd.opcode == Remove && Live(s, cmd.entity) && Spent(s.comps[cmd.entity] - {cmd.data.kind})
  }

  /** The marker Delete attaches: destroy after one countdown. */
  const DeleteMark: Component := Component(DestroyAfterK, DestroyAfterV(1))

  /** Delete: ignores the payload and attaches `DestroyAfter{Ticks = 1}`. */
  function DeleteOp(s: Store, cmd: EcsCommand): Result<Processed, Error>
  {
    var st :- AddComponentData(s, cmd.entity, DeleteMark.kind, DeleteMark.value);
    Success(Processed(st, cmd.entity))
  }

  /**
   * `Process<T>`: looks the processor up by opcode (an opcode without one
   * throws before anything else), computes the `Exists` flag, turns a
   * non-Create command on `Null` into a no-op returning `Null`, and
   * otherwise runs the processor.
   */
  function Process(s: Store, reg: Registry, cmd: EcsCommand): (r: Result<Processed, Error>)
    // an opcode with no registered processor throws
    ensures cmd.opcode.Undefined? <==> r.Failure? && r.error == UnknownOperation(Code(cmd.opcode))
    // Null with any other opcode than Create: Null comes back and the store is untouched
    ensures !cmd.opcode.Undefined? && cmd.entity == Null && cmd.opcode != Create ==> r == Success(Processed(s, Null))
    // every processor but Create-on-Null returns its input entity and creates nothing
    ensures r.Success? && (cmd.opcode != Create || cmd.entity != Null) ==>
              && r.value.entity == cmd.entity && r.value.store.nextIndex == s.nextIndex
              && (!Reaps(s, cmd) ==> r.value.store.order == s.order)
    // the returned entity is Null or exists afterwards, unless the command destroyed it
    ensures r.Success? && !Reaps(s, cmd) ==> r.value.entity == Null || Live(r.value.store, r.value.entity)
    // Add, Update and Create on an existing handle: upsert of the payload, failing only on a dead entity
    ensures (cmd.opcode == Add || cmd.opcode == Update || cmd.opcode == Create) && cmd.entity != Null ==>
              (r.Success? <==> Live(s, cmd.entity)) && (r.Success? ==> Upserted(s, r.value.store, cmd.entity, cmd.data))
    // Remove: only the payload's component type goes, and a lingering entity losing its last system-state component goes too
    ensures cmd.opcode == Remove && cmd.entity != Null ==>
              && (r.Success? <==> Live(s, cmd.entity))
              && (r.Success? && !Reaps(s, cmd) ==> r.value.store == s.(comps := s.comps[cmd.entity := s.comps[cmd.entity] - {cmd.data.kind}]))
              && (r.Success? && Reaps(s, cmd) ==> !Live(r.value.store, cmd.entity) && Lingering(s, cmd.entity))
    // Delete: the entity stays and gains DestroyAfter{Ticks = 1}
    ensures cmd.opcode == Delete && cmd.entity != Null ==>
              (r.Success? <==> Live(s, cmd.entity)) &&
              (r.Success? ==> Upserted(s, r.value.store, cmd.entity, DeleteMark) && Live(r.value.store, cmd.entity))
    // Create on Null: a clone of the type path's template with the payload written on it
    ensures cmd.opcode == Create && cmd.entity == Null ==>
              && (r.Success? <==> cmd.typeId.Some? && cmd.typeId.value in reg)
              && (r.Success? ==>
                    && r.value.store.order == s.order + [r.value.entity]
                    && r.value.store.nextIndex == s.nextIndex + 1
                    && r.value.store.comps == s.comps[r.value.entity := reg[cmd.typeId.value][cmd.data.kind := cmd.data.value]]
                    && (Valid(s) ==> r.value.entity !in s.comps && r.value.entity != Null))
  {
    if cmd.opcode.Undefined? then Failure(UnknownOperation(cmd.opcode.code))
    else
      var present := ExistsFlag(s, cmd);
      if cmd.entity == Null && cmd.opcode != Create then Success(Processed(s, Null))
      else
        match cmd.opcode
        case Create => CreateOp(s, reg, cmd, present)
        case Add => AddOp(s, cmd, present)
        case Update => UpdateOp(s, cmd, present)
        case Remove => RemoveOp(s, cmd)
        case Delete => DeleteOp(s, cmd)
  }

  /** Update has exactly Add's effect on every store and command. */
  lemma UpdateIsAdd(s: Store, reg: Registry, cmd: EcsCommand)
    ensures Process(s, reg, cmd.(opcode := Update)) == Process(s, reg, cmd.(opcode := Add))
  {
    var u := cmd.(opcode := Update);
    if cmd.entity != Null && Live(s, cmd.entity) {
      assert ExistsFlag(s, u) == Has(s, cmd.entity, cmd.data.kind);
    }
  }

  /** A successful command on a valid store leaves a valid store. */
  lemma ProcessValid(s: Store, reg: Registry, cmd: EcsCommand)
    requires Valid(s)
    ensures var r := Process(s, reg, cmd); r.Success? ==> Valid(r.value.store)
  {
    var r := Process(s, reg, cmd);
    if r.Success? && cmd.opcode == Create && cmd.entity == Null {
      var spawned := Clone(s, reg, cmd.typeId).value;
      assert Valid(spawned.store);
      assert r.value.store.comps.Keys == spawned.store.comps.Keys;
    }
  }
}
