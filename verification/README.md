# Parallel Origin client core, in Dafny

This project models the client-side core of the Parallel Origin game client, a Unity ECS application. It covers three parts.

**The server-command reconciliation layer.**
- Network commands name a server id, a prototype type path and an opcode, and carry zero to eight component payloads.
- They are converted (`ConvertToEcs`) into per-component operations (`Process` and the Create, Add, Update, Remove and Delete processors) on a local entity store.
- Entities are found through an id cache that evicts stale entries (`FindById`). `InitialisationSystem.OnCreated` keeps that cache and a "buffered" id table current.
- A Delete only attaches a `DestroyAfter` countdown, which `DestroySystem` turns into a destruction later.
- The reactive systems' `State` copy is a system-state component. Destroying an entity that carries one leaves a cleanup entity: it keeps only its `State` copies, `Exists` stays true, and the id cache still answers with it. The entity goes away when the cleanup query removes its last `State`.

**The per-frame marker state machines on top of the store.**
- `ReactiveSystem` and its managed twin detect added and removed components through a shadow `State` copy and two one-pass markers. `CreatedReactiveSystem` is its instance on `Identity`.
- `OneFrameSystem` strips registered components at the end of each frame.
- `ExecutableBufferSystem` is a FIFO of deferred commands. It runs inventory link-list edits and animation parameter/trigger edits.
- `ParentChildSystem` links children to their parent every frame.

**The small helpers and rules.**
- Fixed-string byte comparison and its string cache.
- The all-conditions `Evaluate` and the link-list `Contains`.
- The slippy-map tile id: its equality, hash, neighbours and text form.
- The tap-hit comparator, the allowed-hit run of a single tap, and the double-tap filter.
- The child-list diff of `ChildsChanged`.
- The once-only enable/disable hooks of `Entity`.
- The news-text parser and its "already shown" check.
- The weighted information picker.

**How the store is modelled.**
- The store is immutable. `Store.Store` holds the query order of live entities, a map from entity to component type to value, and the next entity index.
- `Store.Destroy` follows the engine's rule for system-state components. An entity holding a `State` copy lingers with only those copies and the `CleanupK` tag. `Store.RemoveComponent` destroys a lingering entity once its last `State` copy goes.
- Every system pass is a pure function. Structural changes recorded in an entity command buffer are applied at the buffer's playback.
- An exception becomes a `Result` failure or an `Attempt` carrying the error. Effects made before the throw persist, as they do in the program.
- Calls the program makes into the engine or into code outside this repository become parameters or functions with stated behaviour:
  - `EntityManager` primitives;
  - prototype cloning;
  - `EntityLink.Resolve`;
  - `Random.Next`;
  - `char.ToLower`;
  - `fs.ToString()`;
  - `Environment.NewLine`.

The modules follow the source files:

| module | file |
|---|---|
| `Store` | the entity store and the `EntityManager` primitives (`store.dfy`) |
| `Commander` | `EntityManagerCommanderExtensions.cs` |
| `Convert` | `EntityManagerConvertExtension.cs` |
| `Find` | `EntityManagerFindExtension.cs` |
| `Lifecycle` | `InitialisationSystem.cs` and `DestroySystem.cs` |
| `Reactive`, `Created` | `ReactiveSystem.cs`, `CreatedReactiveSystem.cs` |
| `OneFrame` | `OneFrameSystem.cs` |
| `Buffer` | `ExecutableBufferSystem.cs` |
| `Inventory` | `InventoryExecutableSystem.cs` |
| `Animation` | `AnimationCommandSystem.cs` |
| `ParentChild` | `ParentChildSystem.cs` |
| `FixedStrings` | `FixedStringExtensions.cs` |
| `Extensions` | `FunctionalExtensions.cs`, `UnsafeListExtension.cs` |
| `Tiles` | `UnwrappedTileId.cs` |
| `Touch` | `TouchListener.cs` |
| `Childs` | `ChildsChanged.cs` |
| `Enabling` | `Entity.cs` |
| `News` | `NewsReceiver.cs` |
| `Informations` | `ShowInformations.cs` |
| `Wrappers` | `Option` and `Result` |

Where the code does something other than its names or comments suggest, the model follows the code:
- `Update` behaves exactly like `Add`.
- The `OneFrameSystem.Exists` test ignores the component type.
- The tap comparator tests the first hit's collider twice.
- The information picker compares with `<=` and discards its recursive result.
- The `FindById` cache hit tests only `Exists`, which a destroyed entity lingering on its `State` copies still passes.

Each of these is modelled as written, and where it is a defect the corrected behaviour is modelled next to it (see "## Findings").

## Model

Paths in the source column are relative to the repository root.

| member | source | states |
|---|---|---|
| Commander.OperationOf | Assets/Script/Extensions/EntityManagerCommanderExtensions.cs:13-19 | the cast of a wire opcode keeps its numeric value and yields one of the five operations exactly for 0 to 4; any other value is an operation without a processor |
| Commander.Upsert | Assets/Script/Extensions/EntityManagerCommanderExtensions.cs:128-143 | with the `Exists` flag computed from the store, the add-or-set write succeeds exactly on a live entity and leaves the payload written on it with nothing else changed |
| Commander.Process | Assets/Script/Extensions/EntityManagerCommanderExtensions.cs:56-74 | an opcode without a processor throws; `Null` with any opcode but Create returns `Null` and leaves the store untouched; every processor but Create-on-Null returns its input entity and creates nothing; Add/Update/Create on a handle upsert the payload and fail only on a dead entity; Remove drops only the payload's type, and destroys a lingering entity whose last `State` copy it drops; Delete keeps the entity and attaches `DestroyAfter{Ticks = 1}`; Create on `Null` clones the type path's template once, writes the payload on the clone and returns it, and throws for a null or unknown path |
| Commander.UpdateIsAdd | Assets/Script/Extensions/EntityManagerCommanderExtensions.cs:149-163 | Update has the same result as Add on every store and command |
| Commander.ProcessValid | Assets/Script/Extensions/EntityManagerCommanderExtensions.cs:96-195 | a successful command keeps the store invariant (query order lists the live entities once each, all with positive indices) |
| Convert.ConvertBare | Assets/Script/Extensions/EntityManagerConvertExtension.cs:23-39 | resolves the id once, processes exactly the identity `{ID, "", Type}`, and adds the id to the buffered table exactly when the resulting entity's index is not positive and the id is not there yet; a duplicate key changes nothing and does not throw |
| Convert.ConvertComponents | Assets/Script/Extensions/EntityManagerConvertExtension.cs:46-280 | the one-to-eight-payload overloads call `FindById` once and touch neither table otherwise |
| Convert.ApplyEach | Assets/Script/Extensions/EntityManagerConvertExtension.cs:97-104 | the payloads after the first are processed against one fixed entity and leave both id tables alone |
| Convert.ProcessWrites | Assets/Script/Extensions/EntityManagerCommanderExtensions.cs:128-163 | Add, Update and Create on a live entity are exactly the write of the payload and return that entity |
| Convert.ApplyEachWrites | Assets/Script/Extensions/EntityManagerConvertExtension.cs:262-279 | on a live entity, a writing opcode never throws and writes every payload in order, a later payload of the same type overwriting an earlier one |
| Convert.ApplyEachOnNull | Assets/Script/Extensions/EntityManagerCommanderExtensions.cs:65-66 | on `Null`, every payload of a non-Create command is a no-op |
| Convert.ApplyEachAfterFirst | Assets/Script/Extensions/EntityManagerConvertExtension.cs:123-133 | the payloads after the first, applied to the entity the first returned, complete the in-order write of all of them |
| Convert.CommandOnFound | Assets/Script/Extensions/EntityManagerConvertExtension.cs:64-79 | an id that resolves: no exception, and the found entity's components become the old ones with every payload written in declaration order |
| Convert.CommandOnMissing | Assets/Script/Extensions/EntityManagerConvertExtension.cs:46-57 | an unresolved id with Add or Update changes nothing and throws nothing |
| Convert.CommandClonesOnce | Assets/Script/Extensions/EntityManagerConvertExtension.cs:112-134 | an unresolved id with Create clones exactly one fresh entity carrying the template with every payload written; an unregistered type path throws with the store unchanged |
| Convert.ProcessClones | Assets/Script/Extensions/EntityManagerCommanderExtensions.cs:100-122 | Create on `Null` is the clone of the path's template with the payload written on it, or an unknown-prototype exception |
| Convert.ConvertBatch | Assets/Script/Extensions/EntityManagerConvertExtension.cs:303-401 | an empty batch changes nothing and a one-command batch is that command |
| Convert.ConvertBatchSplits | Assets/Script/Extensions/EntityManagerConvertExtension.cs:306-310 | a batch is its first part followed by the rest, unless the first part throws, which ends the batch |
| Convert.ConvertComponent | Assets/Script/Extensions/EntityManagerConvertExtension.cs:288-296 | the target is the found entity, else the buffered entry, else `Null`; it is processed with a null type path; the store changes exactly as the processor says, or not at all when it throws |
| Convert.ConvertBareBuffersNull | Assets/Script/Extensions/EntityManagerConvertExtension.cs:33-34 | over a valid store the buffered table only ever holds `Null`, and the store stays valid |
| Convert.ComponentFallbackInert | Assets/Script/Extensions/EntityManagerConvertExtension.cs:291-295 | so the buffered fallback never reaches an entity: an unresolved id leaves the store unchanged, as a no-op or, for Create, as a null-type-path exception |
| Find.FirstWhere | Assets/Script/Extensions/EntityManagerFindExtension.cs:38-47 | the early-exit scan finds the first match and none before it, or reports that nothing matches |
| Find.FindById | Assets/Script/Extensions/EntityManagerFindExtension.cs:20-51 | a cached id whose entity exists is returned with the cache unchanged; otherwise the entry is evicted and the first entity of the identity query (which skips prefab templates) carrying the id is returned and cached, or `Null` with only the eviction |
| Find.FindByIdSound | Assets/Script/Extensions/EntityManagerFindExtension.cs:27-46 | with a sound cache (each cached live entity carries its id or lingers after destruction), a non-null result is live and either carries the id or is a lingering entity returned from the cache; `Null` comes back exactly when the cache misses and no live entity carries the id; the cache stays sound |
| Find.FindByIdCarriedSound | Assets/Script/Extensions/EntityManagerFindExtension.cs:27-46 | the corrected lookup, whose cache hit also demands the id in `Identity`, returns `Null` or a live entity carrying the id, `Null` exactly when no live entity carries it, and keeps the cache sound |
| Find.FindByIdCarriedAgrees | Assets/Script/Extensions/EntityManagerFindExtension.cs:27-31 | the corrected lookup answers like `FindById` except when the cache names an entity that no longer carries the id, and then `FindById` returns that lingering entity |
| Find.LingeringHit | Assets/Script/Extensions/EntityManagerFindExtension.cs:27-31 | a valid store whose cached entity lingers on the `State` copy of its identity: `FindById` returns that entity, which has no `Identity`, and the corrected lookup returns `Null` |
| Find.FindByIdCaches | Assets/Script/Extensions/EntityManagerFindExtension.cs:27-31 | a second lookup of an id just found is a cache hit giving the same answer |
| Find.Resolve | Assets/Script/Client/Systems/Relation/ParentChildSystem.cs:24-32 | a link resolves to the entity cached under its id, `Null` when the id is not cached |
| Find.FindByName | Assets/Script/Extensions/EntityManagerFindExtension.cs:59-74 | the last character in query order, prefab templates skipped, whose name matches byte-for-char; `Null` when none matches |
| Find.FindPrefab | Assets/Script/Extensions/EntityManagerFindExtension.cs:113-137 | the first prefab of the type in query order, `Null` when there is none |
| Lifecycle.OnCreated | Assets/Script/Client/Systems/Lifecycle/InitialisationSystem.cs:53-70 | the id maps to the entity, replacing any earlier entry; the id leaves the buffered table; every other key of both tables and the store are unchanged |
| Lifecycle.OnCreatedSound | Assets/Script/Client/Systems/Lifecycle/InitialisationSystem.cs:59-64 | caching an entity under the id its identity carries keeps the cache sound |
| Lifecycle.RegisterMarkers | Assets/Script/Client/Systems/Lifecycle/InitialisationSystem.cs:27-29 | as written (type-blind `Exists`): `Created` and `Dirty` join the registered set on the all-entities query; before `OnCreate` both wait in the buffer in that order; for types not registered before, the result is the pair-test registration, both active in order once initialised |
| Lifecycle.MarkDirty | Assets/Script/Client/Systems/Lifecycle/InitialisationSystem.cs:39-42 | an entity has `Dirty` afterwards exactly when it had it or is a non-template entity with both `Identity` and `Created`; nothing else changes |
| Lifecycle.CountDown | Assets/Script/Client/Systems/Lifecycle/DestroySystem.cs:33-36 | each non-template entity with `DestroyAfter` and without `Destroy` loses one tick, the others are untouched, and the marked entities are exactly those left at or below zero; nothing is destroyed |
| Lifecycle.ApplyMarks | Assets/Script/Client/Systems/Lifecycle/DestroySystem.cs:29-35 | at the next playback every marked entity that still exists gains `Destroy`, and nothing else changes |
| Lifecycle.DestroyAll | Assets/Script/Client/Systems/Lifecycle/DestroySystem.cs:39 | every listed non-template entity carrying `Destroy` is destroyed: without `State` copies it stops existing, with them it lingers holding only those copies; other entities keep their components; validity is kept |
| Lifecycle.Sweep | Assets/Script/Client/Systems/Lifecycle/DestroySystem.cs:39 | at the end of the simulation group every non-template entity carrying `Destroy` is destroyed (gone, or lingering on its `State` copies), and no other |
| Lifecycle.Tick | Assets/Script/Client/Systems/Lifecycle/DestroySystem.cs:26-40 | one frame of marking, countdown and sweep keeps the store valid |
| Lifecycle.PlayedEntry | Assets/Script/Client/Systems/Lifecycle/DestroySystem.cs:29-35 | the frame-start playback of `Dirty` and of the pending marks keeps an entity visible to the queries, gives it `Destroy` exactly when it had it or was marked, and leaves its countdown alone |
| Lifecycle.MarkedFrameDestroys | Assets/Script/Client/Systems/Lifecycle/DestroySystem.cs:26-40 | an entity marked in the previous frame is destroyed in this one: it stops existing exactly when it holds no `State` copy, and otherwise lingers with only its `State` copies |
| Lifecycle.DeleteTakesTwoFrames | Assets/Script/Client/Systems/Lifecycle/DestroySystem.cs:26-40 | a non-template entity carrying the `DestroyAfter{Ticks = 1}` of a Delete survives one frame (only marked) and is destroyed in the second: gone exactly when it holds no `State` copy, otherwise lingering with only its `State` copies |
| Lifecycle.DeletedStaysCached | Assets/Script/Extensions/EntityManagerFindExtension.cs:27-31 | two frames after a Delete, a cached entity that carried the `State` copy of its identity lingers without `Identity`, yet `FindById` for its id still returns it from the cache |
| Reactive.Step | Assets/Script/Client/Systems/Reactive/ReactiveSystem.cs:98-308 | one pass: `OnAdded` fires exactly for the new query with the entity's value, which gains `TAdded` and `State`; `TAdded` lasts one pass; `State` follows the component; `OnRemoved` fires exactly for the state-only query with the shadow copy; the cleanup query ends tracking; only the unmanaged added callback writes the component back |
| Reactive.Run | Assets/Script/Client/Systems/Reactive/ReactiveSystem.cs:98-167 | over several passes at most one callback per pass, and well-formed marker combinations stay well formed |
| Reactive.SettledQuiet | Assets/Script/Client/Systems/Reactive/ReactiveSystem.cs:156-161 | while the component stays, a settled entity raises nothing and its shadow copy holds the latest value |
| Reactive.FreshQuiet | Assets/Script/Client/Systems/Reactive/ReactiveSystem.cs:142-147 | after `OnAdded` the marker goes and the entity settles silently |
| Reactive.AddedOnce | Assets/Script/Client/Systems/Reactive/ReactiveSystem.cs:62-66 | an added component is reported once, with its first value, however long it stays |
| Reactive.RemovedOnce | Assets/Script/Client/Systems/Reactive/ReactiveSystem.cs:74-84 | a removed component is reported once, with its last copied value, and tracking ends a pass later |
| Reactive.ReportsLifetime | Assets/Script/Client/Systems/Reactive/ReactiveSystem.cs:98-167 | a lifetime raises exactly `OnAdded` with its first value and `OnRemoved` with its last |
| Reactive.ReAddNeverReported | Assets/Script/Client/Systems/Reactive/ReactiveSystem.cs:81-84 | as written, a component re-added while `TRemoved` is attached is never reported and the entity keeps `TRemoved` |
| Reactive.ReAddReported | Assets/Script/Client/Systems/Reactive/ReactiveSystem.cs:81-84 | with the cleanup query not requiring the component's absence, the re-added component is reported once |
| Reactive.SecondLifetimeLost | Assets/Script/Client/Systems/Reactive/ReactiveSystem.cs:63-84 | as written, of two lifetimes separated by one pass only the first is reported |
| Reactive.SecondLifetimeReported | Assets/Script/Client/Systems/Reactive/ReactiveSystem.cs:63-84 | with the corrected cleanup query both lifetimes are reported, each with its first and last value |
| Created.Apply | Assets/Script/Client/Systems/Reactive/ReactiveSystem.cs:98-167 | one pass over the store: every live non-template entity's track takes one step, prefab templates are untouched, and no other component changes |
| Created.NewIdentities | Assets/Script/Client/Systems/Reactive/ReactiveSystem.cs:116-124 | the `OnAdded` callbacks of a pass are exactly the non-template entities of the new query with the ids they carry |
| Created.NotifyAll | Assets/Script/Client/Systems/Lifecycle/InitialisationSystem.cs:53-70 | after the callbacks every reported id is cached under a reported entity and absent from the buffered table; other entries only survive |
| Created.CreatedPass | Assets/Script/Client/Systems/Reactive/CreatedReactiveSystem.cs:13 | the created detector with `OnCreated` subscribed keeps every entity alive except the lingering ones whose last `State` copy the cleanup query removes, which are destroyed; validity and the next index are kept |
| Created.CreatedStoreReaps | Assets/Script/Client/Systems/Reactive/ReactiveSystem.cs:272-283 | the entities the pass ends are exactly those that held a system-state component before the pass and hold none after it, with the cleanup tag on |
| Created.CreatedStoreKeepsIds | Assets/Script/Client/Systems/Reactive/ReactiveSystem.cs:119-124 | with the subscribed callback taking the identity by `ref` and never writing it (Assets/Script/Client/Systems/Lifecycle/InitialisationSystem.cs:53-70), the detector's pass leaves every entity's `Identity` as it was, and which survivors are templates and which linger; an entity the pass ends carried no `Identity` |
| Created.LingeringEndsInTwoPasses | Assets/Script/Client/Systems/Reactive/ReactiveSystem.cs:74-84 | an entity lingering on the `State` copy of its identity alone is reported removed by the next pass, which marks it `Destroyed`, and is gone after the pass after that |
| Created.CreatedPassKeepsIds | Assets/Script/Client/Systems/Reactive/ReactiveSystem.cs:119-124 | the pass leaves every entity's identity as it was, and which survivors are templates and which linger |
| Created.NotifyAllSound | Assets/Script/Client/Systems/Lifecycle/InitialisationSystem.cs:59-64 | caching entities under the ids they carry keeps a sound cache sound |
| Created.CreatedPassSound | Assets/Script/Client/Systems/Lifecycle/InitialisationSystem.cs:53-70 | the whole pass keeps a sound cache sound |
| Created.CreatedPassCaches | Assets/Script/Client/Systems/Lifecycle/InitialisationSystem.cs:55-69 | every newly reported non-template identity is cached under its id, carries it, and has left the buffered table |
| OneFrame.Register | Assets/Script/Client/Systems/Reactive/OneFrameSystem.cs:67-80 | with the pair test: before initialisation only the buffer grows; afterwards the pair becomes active exactly once; the type joins the registered set |
| OneFrame.RegisterAsWritten | Assets/Script/Client/Systems/Reactive/OneFrameSystem.cs:67-80 | as written: the type joins the registered set and, after initialisation, is skipped exactly when the type-blind `Exists` holds |
| OneFrame.ExistsIgnoresType | Assets/Script/Client/Systems/Reactive/OneFrameSystem.cs:88-98 | a type registered on a query already used by another type is dropped as written and kept by the pair test |
| OneFrame.RegisterFreshAgrees | Assets/Script/Client/Systems/Reactive/OneFrameSystem.cs:88-98 | for a type never registered before, both tests agree |
| OneFrame.Activate | Assets/Script/Client/Systems/Reactive/OneFrameSystem.cs:41-52 | corrected (pair test): the conversion keeps the active list as a prefix and ends with exactly the active and waiting registrations |
| OneFrame.ActivateAsWritten | Assets/Script/Client/Systems/Reactive/OneFrameSystem.cs:41-52 | as written: the conversion keeps the active list as a prefix, adds only waiting registrations, and every waiting one ends active or covered by the type-blind `Exists` |
| OneFrame.BufferedSameQueryDropped | Assets/Script/Client/Systems/Reactive/OneFrameSystem.cs:41-50 | `Created` and `Dirty` registered before the system's `OnCreate` has run: as written `Dirty` never becomes active; with the pair test both do |
| OneFrame.RemoveForQuery | Assets/Script/Client/Systems/Reactive/OneFrameSystem.cs:58 | every live entity matching the query loses the type and nothing else changes |
| OneFrame.StripClears | Assets/Script/Client/Systems/Reactive/OneFrameSystem.cs:55-59 | after the frame's strip no non-template entity matching a registration's query carries its type, prefab templates are untouched, no entity is created or destroyed, and surviving components keep their values |
| OneFrame.Update | Assets/Script/Client/Systems/Reactive/OneFrameSystem.cs:36-60 | as written: the update empties the buffer and keeps the registered set; the active list keeps its prefix and gains only waiting registrations, each waiting one active or covered by the type-blind `Exists`; the frame-end strip removes every active type from the entities its query matches, changing no entity's existence |
| OneFrame.UpdateByPair | Assets/Script/Client/Systems/Reactive/OneFrameSystem.cs:36-60 | corrected (pair test): the same update, but exactly the active and waiting registrations are active afterwards |
| Buffer.Enqueue | Assets/Script/Client/Systems/Reactive/ExecutableBufferSystem.cs:42-44 | the command joins the tail and the queue before it is unchanged |
| Buffer.Fold | Assets/Script/Client/Systems/Reactive/ExecutableBufferSystem.cs:28-36 | what stays queued is a suffix of the queue, shorter than a non-empty queue, and empty unless a command threw |
| Buffer.FoldAppend | Assets/Script/Client/Systems/Reactive/ExecutableBufferSystem.cs:31-35 | draining `a + b` is draining `a` then `b`, or, after a throw, leaves all of `b` queued behind the rest of `a` |
| Buffer.Drain | Assets/Script/Client/Systems/Reactive/ExecutableBufferSystem.cs:28-36 | the executed commands followed by those left are exactly the queue, so each runs at most once in enqueue order; all run unless one throws |
| Inventory.UnlinkedMembers | Assets/Script/Client/Systems/Command/InventoryExecutableSystem.cs:59-64 | the links kept are exactly those whose id differs |
| Inventory.UnlinkedIdempotent | Assets/Script/Client/Systems/Command/InventoryExecutableSystem.cs:59-64 | removing an id twice is removing it once |
| Inventory.UnlinkedAgreesWithContains | Assets/Script/Extensions/UnsafeListExtension.cs:18-27 | after the removal `Contains` of the id is false, and the removal changes the list exactly when `Contains` was true |
| Inventory.RemoveStep | Assets/Script/Client/Systems/Command/InventoryExecutableSystem.cs:59-64 | one backward step: removing a matching link at `k - 1` (or keeping a non-matching one) extends the filtered suffix by one index without disturbing the links still to visit |
| Inventory.RemoveMatching | Assets/Script/Client/Systems/Command/InventoryExecutableSystem.cs:59-64 | the backward `RemoveAt` loop removes every link with the id and keeps the rest in order |
| Inventory.ApplyEntry | Assets/Script/Client/Systems/Command/InventoryExecutableSystem.cs:39-70 | Added appends exactly one link at the end, Updated changes nothing, Removed drops every link with the id and keeps the others |
| Inventory.ApplyAllAppend | Assets/Script/Client/Systems/Command/InventoryExecutableSystem.cs:36-38 | entries apply in command order: a split command has the effect of the whole |
| Inventory.RemovedStaysRemoved | Assets/Script/Client/Systems/Command/InventoryExecutableSystem.cs:57-64 | once an id is gone, only a later Added of that id brings it back |
| Inventory.Execute | Assets/Script/Client/Systems/Command/InventoryExecutableSystem.cs:24-75 | the owner is resolved by one `FindById`, whose cache change stays; the command throws with the store unchanged exactly when the owner has no inventory; otherwise only the owner's link list changes, to the entries' edits in order |
| Inventory.ExecuteKeepsCacheSound | Assets/Script/Client/Systems/Command/InventoryExecutableSystem.cs:32-33 | the command keeps a sound id cache sound |
| Animation.EditParams | Assets/Script/Client/Systems/Command/AnimationCommandSystem.cs:37-50 | Added inserts and throws exactly on a name already present; Updated sets the value; Removed deletes the name and keeps every other key |
| Animation.Edit | Assets/Script/Client/Systems/Command/AnimationCommandSystem.cs:22-66 | the trigger flag selects one branch: a trigger appends its name, a parameter command edits only the bool parameters |
| Animation.Execute | Assets/Script/Client/Systems/Command/AnimationCommandSystem.cs:19-71 | an unresolved link changes nothing; a thrown command changes nothing; otherwise only the target's `Animation` changes, to its edit, and the command succeeds whenever the target has an animation the edit accepts |
| Animation.TriggerAppendsOne | Assets/Script/Client/Systems/Command/AnimationCommandSystem.cs:57-70 | a trigger appends exactly one name at the end and leaves the bool parameters alone |
| Animation.AddThenRemove | Assets/Script/Client/Systems/Command/AnimationCommandSystem.cs:39-49 | adding a new parameter and removing it restores the parameters |
| ParentChild.Cut | Assets/Script/Client/Systems/Relation/ParentChildSystem.cs:29-35 | the walk stops at the first unresolved child link, every link before it resolving |
| ParentChild.LinkChildren | Assets/Script/Client/Systems/Relation/ParentChildSystem.cs:29-43 | the commands of one parent are exactly one per linked child (before the cut, not being destroyed), naming the parent, by set when the child already has `Child` |
| ParentChild.Record | Assets/Script/Client/Systems/Relation/ParentChildSystem.cs:27-44 | every command comes from a visited parent (live, not a prefab template, without `Destroy`) and is the command for one of that parent's linked children, which has no `Destroy`; every linked child of every visited parent gets one |
| ParentChild.Playback | Assets/Script/Client/Systems/Relation/ParentChildSystem.cs:39-42 | the playback succeeds when every target lives and has `Child` where it is set, fails only when some target is gone, and keeps the set of entities and their order |
| ParentChild.PlaybackFrame | Assets/Script/Client/Systems/Relation/ParentChildSystem.cs:39-42 | a successful playback changes nothing but `Child`, and that only on targeted children |
| ParentChild.PlaybackLastWins | Assets/Script/Client/Systems/Relation/ParentChildSystem.cs:39-42 | a child's `Child` names the parent of the last command targeting it |
| ParentChild.FrameLinksChildren | Assets/Script/Client/Systems/Relation/ParentChildSystem.cs:21-46 | with a cache holding no dead entity, the frame's playback succeeds and every linked child ends with a `Child` naming the last parent in query order that links it |
| FixedStrings.Truncate | Assets/Script/Extensions/FixedStringExtensions.cs:27 | the `(byte)` cast keeps the low eight bits and is the identity below 256 |
| FixedStrings.Widen | Assets/Script/Extensions/FixedStringExtensions.cs:45 | `Convert.ToChar` of a byte is the char with that code |
| FixedStrings.EqualsStack | Assets/Script/Extensions/FixedStringExtensions.cs:21-32 | false on differing lengths, true exactly when every byte equals the truncated char at its index |
| FixedStrings.EqualsStackWith | Assets/Script/Extensions/FixedStringExtensions.cs:40-61 | false on differing lengths, true exactly when every widened byte matches its char, lower-cased only under `CurrentCultureIgnoreCase` |
| FixedStrings.ExactOverloadsAgreeOnNarrowChars | Assets/Script/Extensions/FixedStringExtensions.cs:21-61 | on chars below 256, the truncating overload and every exact mode of the other agree |
| FixedStrings.TruncationAcceptsWideChar | Assets/Script/Extensions/FixedStringExtensions.cs:23-28 | a char above 255 is accepted by the truncating overload where the exact mode rejects it |
| FixedStrings.ToStringCached | Assets/Script/Extensions/FixedStringExtensions.cs:69-77 | a hit returns the cached string unchanged; a miss decodes, stores and returns; old entries stay; a faithful cache returns the decoding and stays faithful |
| FixedStrings.ToStringCachedIsStable | Assets/Script/Extensions/FixedStringExtensions.cs:71-72 | a second conversion is served from the cache with the same result |
| Extensions.Evaluate | Assets/Script/Extensions/FunctionalExtensions.cs:18-27 | true exactly when every condition holds (so true on an empty list); conditions run in order and none runs after the first that fails |
| Extensions.AllHoldAppend | Assets/Script/Extensions/FunctionalExtensions.cs:20-26 | the test over two concatenated lists is the conjunction of the two tests |
| Extensions.Contains | Assets/Script/Extensions/UnsafeListExtension.cs:18-27 | true exactly when some link carries the id (so false on an empty list); the scan stops at the first match |
| Tiles.Wrap | Assets/Mapbox/Core/mapbox-sdk-cs/Map/UnwrappedTileId.cs:73-119 | unchecked `int` arithmetic: in range the value is kept, one past either end wraps to the other end |
| Tiles.Equals | Assets/Mapbox/Core/mapbox-sdk-cs/Map/UnwrappedTileId.cs:52-54 | componentwise equality is exactly identity of the id |
| Tiles.NotEquals | Assets/Mapbox/Core/mapbox-sdk-cs/Map/UnwrappedTileId.cs:69-71 | `!=` is the negation of `==` |
| Tiles.Neighbour | Assets/Mapbox/Core/mapbox-sdk-cs/Map/UnwrappedTileId.cs:73-119 | every neighbour keeps the zoom and is the tile shifted by its direction's offset, wrapping like `int` |
| Tiles.NeighbourInverse | Assets/Mapbox/Core/mapbox-sdk-cs/Map/UnwrappedTileId.cs:73-95 | going one way and back returns to the tile, even across the edge of the `int` range |
| Tiles.DiagonalsCompose | Assets/Mapbox/Core/mapbox-sdk-cs/Map/UnwrappedTileId.cs:97-119 | each diagonal neighbour is the east or west neighbour of the north or south one |
| Tiles.HashAgreesWithEquals | Assets/Mapbox/Core/mapbox-sdk-cs/Map/UnwrappedTileId.cs:56-59 | equal ids hash equally; distinct ids (zoom 1, 0, 0) and (zoom 0, 4, 0) share a hash |
| Tiles.IntText | Assets/Mapbox/Core/mapbox-sdk-cs/Map/UnwrappedTileId.cs:49 | an `int`'s text is non-empty and has no slash |
| Tiles.ParseToString | Assets/Mapbox/Core/mapbox-sdk-cs/Map/UnwrappedTileId.cs:48-50 | the "Z/X/Y" text reads back as the id |
| Tiles.ToStringInjective | Assets/Mapbox/Core/mapbox-sdk-cs/Map/UnwrappedTileId.cs:48-54 | two ids print the same text exactly when they are equal |
| Touch.CompareAsWritten | Assets/Script/Client/Mono/Activities/Interaction/TouchListener.cs:19-34 | as written: a first hit without a collider compares equal to anything; a collider hit before an empty one is -1; two collider hits compare positive exactly when the first passes and the second fails |
| Touch.AsWrittenNotAntisymmetric | Assets/Script/Client/Mono/Activities/Interaction/TouchListener.cs:22-30 | as written an empty hit equals a collider hit while the reverse comparison orders them |
| Touch.Compare | Assets/Script/Client/Mono/Activities/Interaction/TouchListener.cs:19-34 | corrected: the sign orders hits as allowed, then other collider hits, then empty hits |
| Touch.CompareIsOrder | Assets/Script/Client/Mono/Activities/Interaction/TouchListener.cs:19-34 | the corrected comparator is antisymmetric and transitive |
| Touch.AllowedRun | Assets/Script/Client/Mono/Activities/Interaction/TouchListener.cs:106-114 | the run is at most `size`, every hit in it passes, and the hit just after it fails |
| Touch.SingleTap | Assets/Script/Client/Mono/Activities/Interaction/TouchListener.cs:99-118 | `OnTap` fires for exactly the hits of the run, in order; `OnTaps` fires exactly when the run is non-empty, with its length |
| Touch.SingleTapCountsAllowed | Assets/Script/Client/Mono/Activities/Interaction/TouchListener.cs:101-114 | after a sort by the corrected comparator the run counts every allowed hit |
| Touch.AsWrittenRunMissesAllowed | Assets/Script/Client/Mono/Activities/Interaction/TouchListener.cs:33 | ordered by the comparator as written, a refused hit before an allowed one gives an empty run though one hit is allowed |
| Touch.Allowed | Assets/Script/Client/Mono/Activities/Interaction/TouchListener.cs:136-141 | the fired hits are exactly the hits passing every condition, as many as there are |
| Touch.DoubleTap | Assets/Script/Client/Mono/Activities/Interaction/TouchListener.cs:133-142 | `OnDoubleTap` fires for every one of the first `size` hits that passes, in order, with no cut-off |
| Childs.Except | Assets/Script/Client/Mono/Entity/Components/ChildsChanged.cs:29-30 | LINQ `Except` holds exactly the elements of the first list missing from the second, each once |
| Childs.ExceptInOrder | Assets/Script/Client/Mono/Entity/Components/ChildsChanged.cs:29-30 | LINQ `Except` keeps the order of first occurrence in the first list |
| Childs.AddedEvents | Assets/Script/Client/Mono/Entity/Components/ChildsChanged.cs:37-40 | one added event per added child, in order |
| Childs.RemovedEvents | Assets/Script/Client/Mono/Entity/Components/ChildsChanged.cs:42-45 | one removed event per removed child, in order |
| Childs.Announce | Assets/Script/Client/Mono/Entity/Components/ChildsChanged.cs:32-50 | the events of one change, defined as the four runs fired in turn |
| Childs.AnnounceMembers | Assets/Script/Client/Mono/Entity/Components/ChildsChanged.cs:32-50 | added events for exactly the new children, removed events for exactly the gone ones, `Empty` exactly when the new list is empty, `First` exactly when the old one was |
| Childs.AnnounceOrder | Assets/Script/Client/Mono/Entity/Components/ChildsChanged.cs:32-50 | the events fire by kind: `First`, then `ChildAdded`, then `ChildRemoved`, then `Empty`; with an empty old list the first event is `First` of the new list's first child; added children come in the new list's order and removed ones in the old list's order |
| Childs.AnnounceKinds | Assets/Script/Client/Mono/Entity/Components/ChildsChanged.cs:32-50 | no event of a later kind precedes one of an earlier kind |
| Childs.AnnounceNames | Assets/Script/Client/Mono/Entity/Components/ChildsChanged.cs:37-45 | the added events name exactly the `Except` of new from old, in its order, and the removed events that of old from new |
| Childs.AnnounceFirst | Assets/Script/Client/Mono/Entity/Components/ChildsChanged.cs:32-35 | with nothing tracked, the first event is `First` of the new list's first child |
| Childs.OnChildrenChanged | Assets/Script/Client/Mono/Entity/Components/ChildsChanged.cs:24-53 | the handler throws exactly when the old list is empty and nothing was added; otherwise it tracks the new list and fires the events of exactly the added, removed, first and empty cases, in kind order, `First` naming the new list's first child, added children in new-list order and removed ones in old-list order |
| Childs.EventsOnce | Assets/Script/Client/Mono/Entity/Components/ChildsChanged.cs:37-45 | no event fires twice in one change |
| Childs.DiffReconstructs | Assets/Script/Client/Mono/Entity/Components/ChildsChanged.cs:29-30 | the new children are the old ones less the removed plus the added, and the added and removed sets are disjoint from the old and new lists respectively |
| Enabling.OnEnable | Assets/Script/Client/Mono/Entity/Entity.cs:112-120 | the enable event fires exactly when set, is cleared exactly when flagged once, and the behaviour ends enabled; nothing else changes |
| Enabling.OnDisable | Assets/Script/Client/Mono/Entity/Entity.cs:126-134 | the disable event fires exactly when set, is cleared exactly when flagged once, and the behaviour ends disabled; nothing else changes |
| Enabling.Replay | Assets/Script/Client/Mono/Entity/Entity.cs:112-134 | over any run of calls the once flags are kept and the last call decides `enabled` |
| Enabling.OnceFiresAtMostOnce | Assets/Script/Client/Mono/Entity/Entity.cs:112-134 | a once event fires at most once over any run of calls, never once it is cleared |
| Enabling.EveryCallFires | Assets/Script/Client/Mono/Entity/Entity.cs:112-134 | without the once flags a set event fires on every call of its kind |
| News.Lines | Assets/Script/Client/Mono/Utils/News/NewsReceiver.cs:52 | the split yields at least one entry, none holding a line break |
| News.LinesJoin | Assets/Script/Client/Mono/Utils/News/NewsReceiver.cs:52 | splitting inverts joining lines with any one of the three separators, empty lines kept |
| News.Body | Assets/Script/Client/Mono/Utils/News/NewsReceiver.cs:56-64 | the body's length is the rows' lengths plus one terminator per row |
| News.Extract | Assets/Script/Client/Mono/Utils/News/NewsReceiver.cs:51-65 | throws exactly on a text of fewer than two lines; the title is line 1 and the body is lines 2 onward, each followed by the terminator |
| News.ExtractComposed | Assets/Script/Client/Mono/Utils/News/NewsReceiver.cs:51-65 | a file of header, title and body lines reads back as that title and body |
| News.ShowNews | Assets/Script/Client/Mono/Utils/News/NewsReceiver.cs:72-89 | afterwards the news is no longer new; news that was not new changes nothing; no other key changes |
| News.ShowNewsOnce | Assets/Script/Client/Mono/Utils/News/NewsReceiver.cs:79-88 | showing the same news twice is showing it once |
| News.Receive | Assets/Script/Client/Mono/Utils/News/NewsReceiver.cs:38-44 | a one-line text leaves the preferences alone; otherwise the key of line 1 is set to lines 2 onward, each followed by the terminator, and no other key changes |
| News.ReceiveComposed | Assets/Script/Client/Mono/Utils/News/NewsReceiver.cs:38-65 | receiving a file of header, title and body lines stores exactly that body under that title |
| News.ReceiveOnce | Assets/Script/Client/Mono/Utils/News/NewsReceiver.cs:38-44 | receiving the same text twice is receiving it once |
| Informations.Next | Assets/Script/Client/Mono/Utils/Screens/ShowInformations.cs:57-58 | the draw throws exactly on a negative total, is 0 for a zero total, and lies in [0, total) otherwise |
| Informations.SingleEntryDiverges | Assets/Script/Client/Mono/Utils/Screens/ShowInformations.cs:61-72 | as written, with one information whose key was shown last, no depth of recursion returns |
| Informations.SecondCallDiverges | Assets/Script/Client/Mono/Utils/Screens/ShowInformations.cs:61-72 | as written, with one information the first call shows it and the second never returns |
| Informations.ZeroWeightShown | Assets/Script/Client/Mono/Utils/Screens/ShowInformations.cs:64 | as written, a leading information of weight 0 is shown on a draw of 0 |
| Informations.Pick | Assets/Script/Client/Mono/Utils/Screens/ShowInformations.cs:61-64 | corrected: the picked entry's weight range holds the draw and its weight is positive, or no range from the start holds it |
| Informations.PickExact | Assets/Script/Client/Mono/Utils/Screens/ShowInformations.cs:61-64 | with non-negative weights an entry is picked exactly for the draws of its own weight range |
| Informations.Others | Assets/Script/Client/Mono/Utils/Screens/ShowInformations.cs:65-68 | the entries other than the last shown, keeping non-negative weights |
| Informations.Pool | Assets/Script/Client/Mono/Utils/Screens/ShowInformations.cs:65-70 | the entries drawn from are entries of the dictionary; when another entry can be drawn they exclude the last key and weigh more than zero |
| Informations.GetInformation | Assets/Script/Client/Mono/Utils/Screens/ShowInformations.cs:51-75 | corrected: non-negative weights never throw, and when another information can be drawn the result is one with positive weight and a key other than the last |
| Store.Get | Assets/Script/Client/Systems/Command/InventoryExecutableSystem.cs:33 | `GetComponentData` succeeds exactly when the entity exists and has the component, with its value |
| Store.AddComponentData | Assets/Script/Extensions/EntityManagerCommanderExtensions.cs:115 | succeeds exactly on a live entity, writing (or overwriting) one component and nothing else |
| Store.SetComponentData | Assets/Script/Extensions/EntityManagerCommanderExtensions.cs:116 | succeeds exactly when the entity has the component, overwriting it and nothing else |
| Store.RemoveComponent | Assets/Script/Extensions/EntityManagerCommanderExtensions.cs:176 | succeeds exactly on a live entity, dropping only that component type; on a lingering entity that loses its last `State` copy the entity stops existing instead, every other entity unchanged |
| Store.Destroy | Assets/Script/Client/Systems/Lifecycle/DestroySystem.cs:39 | an entity without a `State` copy (a system-state component, ReactiveSystem.cs:314) stops existing; one with such copies stays, holding only them and the cleanup tag; every other entity keeps its existence and components; validity is kept |
| Store.Clone | Assets/Script/Extensions/EntityManagerCommanderExtensions.cs:109-113 | a known type path yields a fresh, non-null, live entity carrying the template, appended to the query order; a null or unknown path throws |

## Left out

- Tiles.Equals: models the typed `Equals(UnwrappedTileId)` and the `==`/`!=` operators, which compare the same three fields. The override `Equals(object)` casts its argument and throws on a null or non-tile argument; that throw is not modelled.
- Rendering, physics ray casts, GameObject plumbing, UI screens and view models: engine calls outside the modelled logic. The screen refreshes of `InventoryCommand.Execute` (`inventoryViewModel`, `buildScreenViewModel`) are not modelled.
- Job scheduling, Burst and parallel command-buffer writers: each pass is sequential, and recorded changes apply at the buffer's playback. Chunk iteration order is abstracted into the store's query order.
- `PrototyperHierarchy.Clone` is defined outside this repository. `Store.Clone` stands for it: a registry of templates by type path and a fresh entity index. Hooks a prototyper may run on clone are not modelled.
- `EntityLink.Resolve` is defined outside this repository. `Find.Resolve` reads only the id cache and does not check that the entity exists. A stale cache entry can therefore reach `SetComponent`, and `ParentChild.Playback` then throws. `ParentChild.FrameLinksChildren` assumes a cache with no dead entity.
- The `Child` component stores an `EntityLink` built from the parent entity. The model stores the parent entity itself.
- `FindLocalPlayer` reads the user name from the player preferences (I/O). It is `FindByName` on that name, which is modelled.
- The cached-query helper `Find(params ComponentType[])` is reflection-style query plumbing and is not modelled.
- `NewsReceiver.Download` is a coroutine over a web request. `News.Receive` models what follows the request. The text arrives as a parameter, and so does `Environment.NewLine`.
- `Random` and the component's `lastInformationKey` field: the draw is a parameter (`raw` or `draw(n)`), and the last key is part of the state.
- Informations.GetAsWritten: the recursive call is bounded by a `fuel` parameter. Running out of fuel is reported as `Diverged`; a recursion deeper than the fuel is not modelled otherwise.
- `TouchListener.Update` and the `Waiting` coroutine (the hold timing between a single and a double tap) are frame and clock driven and are not modelled.
- `Array.Sort` over the whole fifty-slot hit buffer: the model takes the hits as already sorted. Stale slots past `size` are not modelled.
- Touch.SingleTapCountsAllowed: stated for hit lists where every hit has a collider, because the corrected comparator sorts empty hits last anyway.
- `char.ToLower` under the current culture is a parameter `toLower`. `fs.ToString()` is a parameter `decode`. UTF-8 decoding is not modelled.
- Tiles.IntText: `int.ToString()` is modelled for the invariant culture, digits with a leading minus sign.
- Buffer.Drain: commands never enqueue further commands while the queue drains. Commands enqueued during execution would also be drained in the same update; the model does not state that.
- Inventory.Execute: the `SetComponentData` after each Added or Removed entry writes the same component that the final write overwrites, so the model makes one final write. An owner that loses its inventory between entries is not possible in a single-threaded pass.
- The managed reactive system's reference-type aliasing of the component and its `State` copy is not modelled. The managed callback's result is stored in `State`, as the program does.
- Store.Get: the Unity exception types are collapsed into `Error` cases (missing entity, missing component).
- Commander.Process: the processor table in `Main.cs` registers all five operations. Only an out-of-range cast reaches a missing processor, which throws a dictionary-key exception.
- The batch overloads exist for one, two and four to seven payloads, and not for three or eight. `Convert.ConvertBatch` accepts any mix of well-formed commands.
- Animation.EditParams: a duplicate `Added` name always fails with `DuplicateKey`. This follows the `Add` of the native `UnsafeParallelHashMap` when collection safety checks are on. A build without those checks may not throw on a duplicate key, and that behaviour is not modelled.
- Informations.Total: weights are summed as unbounded integers. The program sums them in a 32-bit `int`, so weights whose sum exceeds 2^31 - 1 wrap around; a negative wrapped total would make `Random.Next` throw. The model does not promise anything about such overflow.
- Informations.Prefix: the running sums are unbounded for the same reason as `Total`.
- Entities with the `Disabled` tag are not modelled. Every engine query skips them, as it skips `Prefab`, and the client never adds them.
- A registry template stands for the components a clone receives. The engine drops `Prefab` when it instantiates a template, and `Store.Clone` copies the template's components as given.

## Findings

| source | as written | input that shows it | evidently intended | confidence | as-written member | corrected member |
|---|---|---|---|---|---|---|
| Assets/Script/Client/Systems/Reactive/ReactiveSystem.cs:81-84 | the cleanup query requires the component to be absent, so a component re-added while `TRemoved` is attached matches no query but the copy | present two frames, absent one, present three, absent two | the second lifetime is reported with `OnAdded` and `OnRemoved` | not executed | Reactive.SecondLifetimeLost | Reactive.SecondLifetimeReported |
| Assets/Script/Client/Systems/Reactive/ReactiveSystem.cs:63-66 | the new-entity query excludes entities with `State`, so the stuck entity is never reported as added | any run that re-adds the component while `TRemoved` is attached | the re-added component is reported once | not executed | Reactive.ReAddNeverReported | Reactive.ReAddReported |
| Assets/Script/Client/Systems/Reactive/OneFrameSystem.cs:88-98 | `Exists` tests that the type is registered somewhere and that some registration uses the query, never the pair | `Created` and `Dirty` registered on the all-entities query before `OneFrameSystem.OnCreate` has run. This depends on the world's system-creation order: `InitialisationSystem.OnCreate` calls `GetOrCreateSystem<OneFrameSystem>()` first (InitialisationSystem.cs:22), so on that path both registrations come after `OnCreate` and both types stay active | both types are stripped every frame, whichever system is created first | not executed | OneFrame.BufferedSameQueryDropped | OneFrame.UpdateByPair |
| Assets/Script/Client/Systems/Reactive/OneFrameSystem.cs:67-80 | registering a type on a query another type already uses is skipped | A on {}, B on {X}, then B on {} | B is registered on {} | not executed | OneFrame.ExistsIgnoresType | OneFrame.Register |
| Assets/Script/Client/Mono/Activities/Interaction/TouchListener.cs:22 | the first null test checks the first hit's collider twice | a hit without a collider compared with one that has a collider, both ways | both-null returns 0, and a single empty hit sorts last | not executed | Touch.AsWrittenNotAntisymmetric | Touch.CompareIsOrder |
| Assets/Script/Client/Mono/Activities/Interaction/TouchListener.cs:33 | allowed minus allowed sorts failing collider hits before allowed ones in an ascending sort | a refused collider hit and an allowed one | allowed hits first, so the run counts every allowed hit | not executed | Touch.AsWrittenRunMissesAllowed | Touch.SingleTapCountsAllowed |
| Assets/Script/Client/Mono/Utils/Screens/ShowInformations.cs:64 | `<=` lets a draw of 0 select a leading information of weight 0 | weights 0 and 5, draw 0 | an information is chosen with probability proportional to its weight | not executed | Informations.ZeroWeightShown | Informations.PickExact |
| Assets/Script/Client/Mono/Utils/Screens/ShowInformations.cs:70 | the retry's result is discarded and the retry recurses again whenever only the last key can be drawn | one information, whose key was shown last | a different information is returned, or the same one when no other can be drawn, and the call always returns | not executed | Informations.SecondCallDiverges | Informations.GetInformation |
| Assets/Script/Extensions/EntityManagerFindExtension.cs:27-31 | a cached entity is returned whenever `Exists` holds, and a destroyed entity still holding a `State` copy exists | a Delete of an entity whose `Identity` the created detector has copied, then `FindById` of its id two frames later | the cache answers only with an entity that still carries the id | not executed | Find.LingeringHit | Find.FindByIdCarriedSound |
