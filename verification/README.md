# ECS core of a 2D game engine, in Dafny

This project models the entity-component-system bookkeeping of the engine (`src/ECS/ECS.h` and
`src/ECS/ECS.cpp`) and proves properties of it:

- **Signature** (`signature.dfy`, module `Signatures`): the 32-bit `std::bitset`, given by the
  set of its bits that are on, with `test`, `set` and `set(k, false)`.
- **Component type ids** (`component.dfy`, module `Components`): the shared static counter
  `IComponent::nextId` and the per-type static id of `Component<T>::GetId`, as one object
  (`ComponentIds`) that every operation calling `GetId` receives and may update. Types are named
  by a `TypeKey`.
- **Entity** (`entity.dfy`, module `Entities`): an integer id, with equality and ordering by id.
- **Pool** (`pool.dfy`, module `Pools`): `Pool<T>` as a class over a sequence, default size 100,
  with `Resize`, `Clear`, `Add`, `Set`, `Get`, `GetSize` and `isEmpty`.
- **System** (`system.dfy`, module `Systems`): the required signature and the ordered entity
  list, with append, remove-every-entry-with-this-id (the erase-remove idiom, as a loop proved
  against the specification function `Without`) and `RequireComponent<T>`.
- **Registry** (`registry.dfy`, module `Registries`): the entity counter, the vector of pools
  (null for a type with no pool yet), the per-entity signatures, the system map and the
  pending-add set, with `CreateEntity`, `AddComponent`, `RemoveComponent`, `HasComponent`,
  `AddSystem`, `RemoveSystem`, `HasSystem`, `GetSystem` and the stub `Update`.

The model follows the code of this snapshot, even where the headers under `src/Systems` call an
entity API it does not have (`Kill`, tags, groups, `GetComponent`): there is no free-id queue
(ids are never reused), no `KillEntity`, and `Update` reconciles nothing. It also follows the code in never growing the signature vector when an
entity is created; see "## Findings".

Every operation that calls `Component<T>::GetId` (`RequireComponent`, `AddComponent`,
`RemoveComponent`, `HasComponent`) requires the id it will obtain to be below 32, because
`std::bitset::set` and `test` throw `std::out_of_range` beyond the width (by then `GetId` has
already assigned the id and bumped the counter; see "## Left out"). Operations that index
the signature vector by entity id require the entity to have a slot there, because
`std::vector::operator[]` is unchecked. `RemoveSystem` and `GetSystem` require the system to be
registered, because they use the `find` result unchecked.

## Model

| member | source | states |
|---|---|---|
| `Signatures.Test` | src/ECS/ECS.h:227 | bit k is on exactly when k is in the set of on-positions |
| `Signatures.Set` | src/ECS/ECS.h:211 | setting bit k turns k on and leaves every other bit of the signature as it was |
| `Signatures.Reset` | src/ECS/ECS.h:220 | clearing bit k turns k off and leaves every other bit as it was |
| `Signatures.Extensional` | src/ECS/ECS.h:18 | a signature is determined by its 32 bits: two that agree on every bit are equal |
| `Signatures.EmptyHasNoBits` | src/ECS/ECS.h:62 | a default-constructed signature has no bit on |
| `Signatures.SetIdempotent` | src/ECS/ECS.h:183-186 | setting a bit twice equals setting it once; setting a bit already on changes nothing |
| `Signatures.ResetAfterSet` | src/ECS/ECS.h:216-221 | clearing a bit after setting it equals clearing it; if it was off before, the signature is restored |
| `Components.ComponentIds.constructor` | src/ECS/ECS.h:25 | the shared counter starts at 0 and no type has an id |
| `Components.ComponentIds.IdFor` | src/ECS/ECS.h:32-35 | the id `GetId` yields for a type is at most the counter, below it exactly when the type already has an id (and then it is that id), and no other type holds it |
| `Components.ComponentIds.GetId` | src/ECS/ECS.h:23-36 | a type seen before gets its stored id and nothing changes; a new type gets the counter, which goes up by one; the ids stay exactly 0 .. nextId-1, pairwise distinct |
| `Components.GetIdIsStable` | src/ECS/ECS.h:33 | two calls of `GetId` for one type return the same id, the one recorded for the type |
| `Components.IdsAreSequential` | src/ECS/ECS.h:25-35 | from program start, two distinct types get 0 and 1 in order of first use, and the first keeps 0 |
| `Entities.Entity.Less` | src/ECS/ECS.h:54 | orders by id: holds exactly when this id is smaller than the other's, and never for an entity and itself |
| `Entities.Entity.Greater` | src/ECS/ECS.h:53 | orders by id: holds exactly when this id is larger than the other's, exactly when the other is `Less` than this |
| `Entities.OrderIsStrictTotal` | src/ECS/ECS.h:51-54 | `<` on entities is irreflexive, transitive and total on distinct entities; `>` is its converse |
| `Entities.EquivalenceIsEquality` | src/ECS/ECS.h:51-54 | two entities are equivalent under `<` exactly when they are equal, exactly when their ids are equal, so the pending-add `std::set` is a set of ids |
| `Pools.Resized` | src/ECS/ECS.h:104-106 | a resize to n has length n, keeps every existing element below n and fills new slots with the value-initialised element |
| `Pools.StoreAt` | src/ECS/ECS.h:204-210 | after storing for entity `id` (resizing to the entity count only when `id` is out of range), slot `id` holds the value, every other old slot keeps its value and every other new slot is value-initialised |
| `Pools.Pool.constructor` | src/ECS/ECS.h:91-93 | a pool is built with `size` slots, 100 by default, all value-initialised |
| `Pools.Pool.IsEmpty` | src/ECS/ECS.h:96-98 | a pool is empty exactly when its size is 0 |
| `Pools.Pool.GetSize` | src/ECS/ECS.h:100-102 | the size is the non-negative number of slots |
| `Pools.Pool.Resize` | src/ECS/ECS.h:104-106 | the new contents are the resize of the old ones, as `Pools.Resized` describes |
| `Pools.Pool.Clear` | src/ECS/ECS.h:108-110 | afterwards the pool has no slot and `IsEmpty` holds |
| `Pools.Pool.Add` | src/ECS/ECS.h:112-114 | the pool grows by one slot at the end, holding the argument; earlier slots are unchanged |
| `Pools.Pool.Set` | src/ECS/ECS.h:116-118 | requires an index below the size; that slot holds the new value, the size and every other slot are unchanged |
| `Pools.Pool.Get` | src/ECS/ECS.h:120-122 | requires an index below the size; yields the value in that slot |
| `Systems.Without` | src/ECS/ECS.cpp:12-16 | the result has no entity with the removed id, holds only entities of the input and is no longer than it |
| `Systems.WithoutAppend` | src/ECS/ECS.cpp:12-16 | removal distributes over concatenation, so the kept entities stay in their original relative order |
| `Systems.WithoutAbsent` | src/ECS/ECS.cpp:12-16 | removing an entity whose id is not in the list leaves the list unchanged |
| `Systems.WithoutIdempotent` | src/ECS/ECS.cpp:12-16 | removing the same entity twice equals removing it once |
| `Systems.WithoutCounts` | src/ECS/ECS.cpp:12-16 | afterwards no entity with the removed id occurs, and every other entity occurs as often as before |
| `Systems.AddThenRemove` | src/ECS/ECS.cpp:8-16 | appending an entity and then removing it equals removing it from the list before the append |
| `Systems.RemoveIfSameId` | src/ECS/ECS.cpp:13-15 | the single pass keeping entities with a different id computes exactly `Without` |
| `Systems.System.constructor` | src/ECS/ECS.h:66 | a new system requires no component and holds no entity |
| `Systems.System.AddEntityToSystem` | src/ECS/ECS.cpp:8-10 | the list grows by the entity at the end, earlier entries unchanged; the signature is unchanged |
| `Systems.System.RemoveEntityFromSystem` | src/ECS/ECS.cpp:12-16 | the list becomes `Without` of the old list; the signature is unchanged |
| `Systems.System.GetSystemEntities` | src/ECS/ECS.cpp:18-20 | returns a copy equal to the current list and changes nothing |
| `Systems.System.GetComponentSignature` | src/ECS/ECS.cpp:22-24 | returns the stored required signature and changes nothing |
| `Systems.System.RequireComponent` | src/ECS/ECS.h:182-186 | requires the type's id below 32; sets exactly that bit of the required signature, records the id, leaves the entity list alone |
| `Systems.RequireComponentIdempotent` | src/ECS/ECS.h:183-186 | requiring a component twice gives the same signature as requiring it once |
| `Registries.Registry.constructor` | src/ECS/ECS.h:134-153 | a new registry has no entity, pool, signature, system or pending entity |
| `Registries.Registry.Update` | src/ECS/ECS.cpp:38-42 | the stub changes no state |
| `Registries.Registry.CreateEntity` | src/ECS/ECS.cpp:26-36 | the new id is the old counter, which goes up by one; the entity was not pending and the pending-add set grows by exactly it; the signature vector, pools and systems are unchanged |
| `Registries.Registry.CreateEntityGrowingSignatures` | src/ECS/ECS.cpp:26-36 | as `CreateEntity`, and the signature vector is resized to cover the new id, which then has an empty signature |
| `Registries.Registry.AddComponent` | src/ECS/ECS.h:188-214 | the pool vector is extended with null slots only when too short and a pool created only for a null slot; that pool's contents become `StoreAt` of the old ones; every other pool and pool slot, every other entity's signature and every other bit are unchanged, and the entity then owns the component |
| `Registries.Registry.PoolFor` | src/ECS/ECS.h:193-200 | the pool vector has length max(old length, id+1), new slots null, other slots unchanged; an existing pool is kept, a missing one is created with 100 value-initialised slots |
| `Registries.Registry.RemoveComponent` | src/ECS/ECS.h:216-221 | only the entity's bit for the type is cleared; the entity no longer owns it, every other bit, signature and pool is unchanged |
| `Registries.Registry.HasComponent` | src/ECS/ECS.h:223-228 | returns whether the entity's bit for the type is on; changes no registry state (only a first-time type gets an id) |
| `Registries.Registry.AddSystem` | src/ECS/ECS.h:232-236 | the new instance is fresh, so no key holds it yet; an already registered type keeps its existing instance, otherwise the new instance is inserted; afterwards `HasSystem` holds, and no instance is shared by two system types |
| `Registries.Registry.RemoveSystem` | src/ECS/ECS.h:238-242 | requires the system to be registered; afterwards it is not, and every other system keeps its instance |
| `Registries.Registry.HasSystem` | src/ECS/ECS.h:244-247 | holds exactly when the map has an entry for the system type |
| `Registries.Registry.GetSystem` | src/ECS/ECS.h:249-253 | requires the system to be registered; yields the instance stored for it |
| `Registries.CreatedEntityHasNoSignatureSlot` | src/ECS/ECS.cpp:26-36 | on a fresh registry, the first created entity (id 0) is pending but has no signature slot, the vector being empty |
| `Registries.AddComponentScenario` | src/ECS/ECS.h:188-228 | with two created entities (entities created by `CreateEntityGrowingSignatures`, since with the as-written `CreateEntity` the `AddComponent` precondition cannot be met) and a system requiring component A (signature {0}), after adding A to the second only, the second owns A and the first does not, the system is registered, and after removing A the second no longer owns it |

## Left out

- `KillEntity` and `GetComponent`: only a TODO comment in this snapshot (src/ECS/ECS.h:174-177).
- Tags and groups: absent from `src/ECS/ECS.h` and `src/ECS/ECS.cpp`; only the headers under `src/Systems` call them (`HasTag`, `BelongsToGroup`, `Group`), against an entity API this snapshot does not have.
- `AddEntityToSystems`: declared (src/ECS/ECS.h:172) but never defined.
- Reconciliation of pending entities into systems, and the pending-kill set: `Update` is a stub and nothing ever reads or writes `entitiesToBeKilled`; it is kept as a field that no operation changes.
- Id recycling: the code has no free-id queue; ids are never reused.
- `Logger::Log` calls: console output, modelled as doing nothing.
- Type erasure: all pools hold one value type `V`; `shared_ptr` ownership, `std::type_index` keys and the downcasts of pool handles are replaced by a `TypeKey` and a sequence of pool objects (null for none).
- Component and system construction: `AddComponent` receives the constructed component value instead of constructor arguments, and `AddSystem` receives the constructed system instance (the game systems' constructors are not part of this model).
- `Pool::operator[]`: identical to `Get`, not modelled separately.
- `Pools.Pool.Get`: returns the value in the slot, not a mutable reference; a write through that reference is `Set`.
- `Systems.System.RequireComponent`: the `std::out_of_range` exception `std::bitset::set` throws for an id of 32 or more is a precondition instead; the model does not capture that `GetId` has already assigned the id and incremented the counter when the exception is thrown.
- `Registries.Registry.RemoveComponent`: the `std::out_of_range` exception `std::bitset::set(k, false)` throws for an id of 32 or more is a precondition instead; the id assignment that `GetId` has already made at that point is not captured.
- `Registries.Registry.HasComponent`: the `std::out_of_range` exception `std::bitset::test` throws for an id of 32 or more is a precondition instead; the id assignment that `GetId` has already made at that point is not captured.
- `Pools.Pool.constructor`: a negative `size` makes `vector::resize` throw `std::length_error`; the model requires a non-negative size instead.
- `Pools.Pool.Resize`: a negative `n` makes `vector::resize` throw `std::length_error`; the model requires a non-negative `n` instead.
- `Systems.System.GetComponentSignature`: returns the signature as a value, not a `const Signature&` into the system.
- `Registries.Registry.AddComponent`: the exception `std::bitset::set` throws for an id of 32 or more, after the pool vector and pool were already updated, is a precondition instead; the id assignment `GetId` has already made is not captured.
- Integer widths: `numEntities`, `IComponent::nextId` and `GetSize()` are C++ `int`; their overflow beyond 2^31-1 is not modelled.
- `IComponent::nextId` is only declared (src/ECS/ECS.h:25); neither ECS file has an out-of-class definition of it. The model assumes one that starts the counter at 0.
- Destructors and the game loop, systems, event bus and rendering code outside `src/ECS`.

## Findings

| source | as written | input that shows it | evidently intended | confidence | as-written member | corrected member |
|---|---|---|---|---|---|---|
| src/ECS/ECS.cpp:26-36 | `CreateEntity` never grows `entityComponentSignatures`, and no other code does, so the vector stays empty; `AddComponent`, `RemoveComponent` and `HasComponent` then index it out of bounds (src/ECS/ECS.h:211, 220, 227) | a new registry, `e = CreateEntity()` (id 0), then `AddComponent<T>(e)` reads `entityComponentSignatures[0]` of an empty vector | `CreateEntity` resizes the signature vector to cover the new id, with an empty signature in the new slot | high; not executed | `Registries.Registry.CreateEntity`, `Registries.CreatedEntityHasNoSignatureSlot` | `Registries.Registry.CreateEntityGrowingSignatures`, used by `Registries.AddComponentScenario` |
