/** The registry: entity creation, component storage and signatures, and the system map. */
module Registries {
  import opened Signatures
  import opened Components
  import opened Entities
  import opened Pools
  import opened Systems

  /**
   * `Registry`, over one component value type `V` (`blank` is its value-initialised form,
   * what new pool slots hold). `componentPools[c]` is the pool of the component type with id
   * `c`, or null when none was created; `entityComponentSignatures[e]` is the signature of the
   * entity with id `e`; `systems` maps a system type to its single instance.
   */
  class Registry<V> {
    var numEntities: int
    var componentPools: seq<Pool?<V>>
    var entityComponentSignatures: seq<Signature>
    var systems: map<TypeKey, System>
    var entitiesToBeAdded: set<Entity>
    var entitiesToBeKilled: set<Entity>
    const blank: V

    /**
     * Ids are handed out from 0 upwards and every entity created so far is still pending
     * addition (nothing drains that set); no entity has a signature slot beyond the counter;
     * no pool object is shared by two component types, and no system instance by two system
     * types.
     */
    ghost predicate Valid()
      reads this
    {
      && 0 <= numEntities
      && |entityComponentSignatures| <= numEntities
      && (forall e :: e in entitiesToBeAdded <==> 0 <= e.id < numEntities)
      && (forall i, j :: 0 <= i < j < |componentPools| && componentPools[i] != null ==>
            componentPools[i] != componentPools[j])
      && (forall i :: 0 <= i < |componentPools| && componentPools[i] != null ==>
            componentPools[i].blank == blank)
      && (forall k1, k2 :: k1 in systems && k2 in systems && k1 != k2 ==> systems[k1] != systems[k2])
    }

    /** The pool objects the registry owns. */
    ghost function PoolObjects(): set<Pool<V>>
      reads this
    {
      set i | 0 <= i < |componentPools| && componentPools[i] != null :: componentPools[i]
    }

    /** Whether entity `e` has a signature slot, which every component operation indexes unchecked. */
    predicate HasSignatureSlot(e: Entity)
      reads this
    {
      0 <= e.id < |entityComponentSignatures|
    }

    /** Bit `componentId` of `e`'s signature: `e` owns the component type with that id. */
    predicate Owns(e: Entity, componentId: nat)
      reads this
      requires HasSignatureSlot(e) && componentId < MAX_COMPONENTS
    {
      Test(entityComponentSignatures[e.id], componentId)
    }

    /** `Registry()`: no entity, no pool, no signature, no system. */
    constructor (blank: V)
      ensures Valid()
      ensures this.blank == blank && numEntities == 0
      ensures componentPools == [] && entityComponentSignatures == [] && systems == map[]
      ensures entitiesToBeAdded == {} && entitiesToBeKilled == {}
    {
      this.blank := blank;
      numEntities := 0;
      componentPools := [];
      entityComponentSignatures := [];
      systems := map[];
      entitiesToBeAdded := {};
      entitiesToBeKilled := {};
    }

    /** `Update()`: the reconciliation pass is an empty stub; nothing changes. */
    method Update()
      requires Valid()
      ensures unchanged(this)
    {
    }

    /**
     * `CreateEntity()`, as written: the new id is the counter, which goes up by one; the entity
     * joins the pending-add set, where it was not before. The signature vector is left alone.
     */
    method CreateEntity() returns (entity: Entity)
      requires Valid()
      modifies this
      ensures Valid()
      ensures entity.id == old(numEntities) && numEntities == old(numEntities) + 1
      ensures entity !in old(entitiesToBeAdded)
      ensures entitiesToBeAdded == old(entitiesToBeAdded) + {entity}
      ensures |entitiesToBeAdded| == |old(entitiesToBeAdded)| + 1
      ensures entityComponentSignatures == old(entityComponentSignatures)
      ensures componentPools == old(componentPools) && systems == old(systems)
      ensures entitiesToBeKilled == old(entitiesToBeKilled)
    {
      var entityId := numEntities;
      numEntities := numEntities + 1;
      entity := Entity(entityId);
      entitiesToBeAdded := entitiesToBeAdded + {entity};
    }

    /**
     * `CreateEntity()` with the signature vector grown to cover the new id: as `CreateEntity`,
     * and the new entity then has a signature slot holding no component.
     */
    method CreateEntityGrowingSignatures() returns (entity: Entity)
      requires Valid()
      modifies this
      ensures Valid()
      ensures entity.id == old(numEntities) && numEntities == old(numEntities) + 1
      ensures entity !in old(entitiesToBeAdded)
      ensures entitiesToBeAdded == old(entitiesToBeAdded) + {entity}
      ensures entityComponentSignatures ==
                Resized(old(entityComponentSignatures), entity.id + 1, EMPTY)
      ensures HasSignatureSlot(entity) && entityComponentSignatures[entity.id] == EMPTY
      ensures componentPools == old(componentPools) && systems == old(systems)
      ensures entitiesToBeKilled == old(entitiesToBeKilled)
    {
      entity := CreateEntity();
      if entity.id >= |entityComponentSignatures| {
        entityComponentSignatures := Resized(entityComponentSignatures, entity.id + 1, EMPTY);
      }
    }

    /**
     * `AddComponent<T>(entity, value)`. The pool vector is extended with null slots up to
     * `T`'s id only when it is too short; a pool of the default size is created only when
     * `T`'s slot is null; the pool is resized to the number of entities only when the entity's
     * id is not a valid index; then the value is stored and the entity's bit for `T` is set.
     * Every other pool, every other entity's signature and every other bit stay as they were.
     */
    method AddComponent(ids: ComponentIds, t: TypeKey, entity: Entity, value: V)
      requires Valid() && ids.Valid()
      requires HasSignatureSlot(entity)
      requires ids.IdFor(t) < MAX_COMPONENTS
      modifies this, ids, PoolObjects()
      ensures Valid() && ids.Valid()
      ensures ids.ids == old(ids.ids)[t := old(ids.IdFor(t))]
      ensures numEntities == old(numEntities) && systems == old(systems)
      ensures entitiesToBeAdded == old(entitiesToBeAdded)
      ensures entitiesToBeKilled == old(entitiesToBeKilled)
      ensures var c := old(ids.IdFor(t));
        |componentPools| == if c < |old(componentPools)| then |old(componentPools)| else c + 1
      ensures var c := old(ids.IdFor(t));
        forall i :: 0 <= i < |componentPools| && i != c ==>
          componentPools[i] == if i < |old(componentPools)| then old(componentPools)[i] else null
      ensures var c := old(ids.IdFor(t));
        c < |componentPools| && componentPools[c] != null
      ensures var c := old(ids.IdFor(t));
        old(c < |componentPools| && componentPools[c] != null) ==>
          && componentPools[c] == old(componentPools[c])
          && componentPools[c].data ==
               StoreAt(old(componentPools[c].data), entity.id, value, numEntities, blank)
      ensures var c := old(ids.IdFor(t));
        old(c >= |componentPools| || componentPools[c] == null) ==>
          && fresh(componentPools[c])
          && componentPools[c].data ==
               StoreAt(seq(DEFAULT_POOL_SIZE, _ => blank), entity.id, value, numEntities, blank)
      ensures var c := old(ids.IdFor(t));
        forall p :: p in old(PoolObjects()) && p != componentPools[c] ==> p.data == old(p.data)
      ensures var c := old(ids.IdFor(t));
        entityComponentSignatures ==
          old(entityComponentSignatures)[entity.id := Set(old(entityComponentSignatures[entity.id]), c)]
      ensures var c := old(ids.IdFor(t));
        && Owns(entity, c)
        && forall k :: 0 <= k < MAX_COMPONENTS && k != c ==> Owns(entity, k) == old(Owns(entity, k))
    {
      var componentId := ids.GetId(t);
      var entityId := entity.id;
      var componentPool := PoolFor(componentId);

      if entityId >= componentPool.GetSize() {
        componentPool.Resize(numEntities);
      }

      componentPool.Set(entityId, value);
      entityComponentSignatures := entityComponentSignatures[entityId :=
        Set(entityComponentSignatures[entityId], componentId)];
    }

    /**
     * `RemoveComponent<T>(entity)`: clears the entity's bit for `T` and nothing else; the pool
     * keeps the stale value.
     */
    method RemoveComponent(ids: ComponentIds, t: TypeKey, entity: Entity)
      requires Valid() && ids.Valid()
      requires HasSignatureSlot(entity)
      requires ids.IdFor(t) < MAX_COMPONENTS
      modifies this, ids
      ensures Valid() && ids.Valid()
      ensures ids.ids == old(ids.ids)[t := old(ids.IdFor(t))]
      ensures numEntities == old(numEntities) && systems == old(systems)
      ensures entitiesToBeAdded == old(entitiesToBeAdded)
      ensures entitiesToBeKilled == old(entitiesToBeKilled)
      ensures componentPools == old(componentPools)
      ensures var c := old(ids.IdFor(t));
        entityComponentSignatures ==
          old(entityComponentSignatures)[entity.id := Reset(old(entityComponentSignatures[entity.id]), c)]
      ensures var c := old(ids.IdFor(t));
        && !Owns(entity, c)
        && forall k :: 0 <= k < MAX_COMPONENTS && k != c ==> Owns(entity, k) == old(Owns(entity, k))
    {
      var componentId := ids.GetId(t);
      var entityId := entity.id;
      entityComponentSignatures := entityComponentSignatures[entityId :=
        Reset(entityComponentSignatures[entityId], componentId)];
    }

    /**
     * `HasComponent<T>(entity)`: whether the entity's bit for `T` is on. It changes no registry
     * state, but asking about a type for the first time assigns that type an id.
     */
    method HasComponent(ids: ComponentIds, t: TypeKey, entity: Entity) returns (has: bool)
      requires ids.Valid()
      requires HasSignatureSlot(entity)
      requires ids.IdFor(t) < MAX_COMPONENTS
      modifies ids
      ensures ids.Valid() && ids.ids == old(ids.ids)[t := old(ids.IdFor(t))]
      ensures has == Owns(entity, old(ids.IdFor(t)))
    {
      var componentId := ids.GetId(t);
      var entityId := entity.id;
      has := Test(entityComponentSignatures[entityId], componentId);
    }

    /**
     * `AddSystem<S>(args...)`: `newSystem` is the instance the call constructs, so no key holds
     * it yet. The map insert keeps an instance already registered for `S`, discarding the new one.
     */
    method AddSystem(key: TypeKey, newSystem: System)
      requires Valid()
      requires newSystem !in systems.Values
      modifies this
      ensures Valid() && HasSystem(key)
      ensures systems == if key in old(systems) then old(systems) else old(systems)[key := newSystem]
      ensures numEntities == old(numEntities) && componentPools == old(componentPools)
      ensures entityComponentSignatures == old(entityComponentSignatures)
      ensures entitiesToBeAdded == old(entitiesToBeAdded)
      ensures entitiesToBeKilled == old(entitiesToBeKilled)
    {
      if key !in systems {
        systems := systems[key := newSystem];
      }
    }

    /**
     * `RemoveSystem<S>()`: erases the entry for `S`, which must exist (the `find` result is
     * erased unchecked). Every other system stays registered with its instance.
     */
    method RemoveSystem(key: TypeKey)
      requires Valid() && HasSystem(key)
      modifies this
      ensures Valid() && !HasSystem(key)
      ensures systems == old(systems) - {key}
      ensures forall k :: k in old(systems) && k != key ==> k in systems && systems[k] == old(systems)[k]
      ensures numEntities == old(numEntities) && componentPools == old(componentPools)
      ensures entityComponentSignatures == old(entityComponentSignatures)
      ensures entitiesToBeAdded == old(entitiesToBeAdded)
      ensures entitiesToBeKilled == old(entitiesToBeKilled)
    {
      systems := systems - {key};
    }

    /** `HasSystem<S>()`: whether `find` locates an entry for `S`. */
    predicate HasSystem(key: TypeKey)
      reads this
      ensures HasSystem(key) <==> key in systems.Keys
    {
      key in systems
    }

    /** `GetSystem<S>()`: the instance registered for `S`, which must exist (the `find` result is dereferenced unchecked). */
    function GetSystem(key: TypeKey): (system: System)
      reads this
      requires HasSystem(key)
      ensures system in systems.Values && systems[key] == system
    {
      systems[key]
    }

    /**
     * The first half of `AddComponent`: the pool vector is extended with null slots up to
     * `componentId` when it is too short, and a pool of the default size is created when that
     * slot is null. The pool in the slot is returned; no other slot changes.
     */
    method PoolFor(componentId: nat) returns (pool: Pool<V>)
      requires Valid()
      modifies this
      ensures Valid()
      ensures numEntities == old(numEntities) && systems == old(systems)
      ensures entitiesToBeAdded == old(entitiesToBeAdded)
      ensures entitiesToBeKilled == old(entitiesToBeKilled)
      ensures entityComponentSignatures == old(entityComponentSignatures)
      ensures |componentPools| == if componentId < |old(componentPools)| then |old(componentPools)| else componentId + 1
      ensures forall i :: 0 <= i < |componentPools| && i != componentId ==>
        componentPools[i] == if i < |old(componentPools)| then old(componentPools)[i] else null
      ensures componentId < |componentPools| && componentPools[componentId] == pool
      ensures pool.blank == blank
      ensures old(componentId < |componentPools| && componentPools[componentId] != null) ==>
        pool == old(componentPools[componentId])
      ensures old(componentId >= |componentPools| || componentPools[componentId] == null) ==>
        fresh(pool) && pool.data == seq(DEFAULT_POOL_SIZE, _ => blank)
    {
      if componentId >= |componentPools| {
        componentPools := componentPools + seq(componentId + 1 - |componentPools|, _ => null);
      }

      if componentPools[componentId] == null {
        var newComponentPool := new Pool(blank);
        componentPools := componentPools[componentId := newComponentPool];
      }

      pool := componentPools[componentId];
    }
  }

  /**
   * As written, `CreateEntity` never grows the signature vector: on a freshly constructed
   * registry the entity it returns has no signature slot, so `AddComponent`, `RemoveComponent`
   * and `HasComponent` on it would index an empty vector.
   */
  method CreatedEntityHasNoSignatureSlot<V>(blank: V) returns (r: Registry<V>, e: Entity)
    ensures fresh(r) && r.Valid()
    ensures e.id == 0 && e in r.entitiesToBeAdded
    ensures |r.entityComponentSignatures| == 0 && !r.HasSignatureSlot(e)
  {
    r := new Registry(blank);
    e := r.CreateEntity();
  }

  /**
   * Two entities are created (with signature slots), a system requiring component `a` is
   * registered, and `a` is added to the second entity only: then the second owns `a`, the
   * first does not, the system is registered once, and removing `a` again clears ownership.
   */
  method AddComponentScenario(a: TypeKey, sysKey: TypeKey)
    returns (first: bool, second: bool, afterRemove: bool, registered: bool, required: Signature)
    ensures !first && second && !afterRemove && registered
    ensures required == {0}
  {
    var ids := new ComponentIds();
    var registry := new Registry<int>(0);
    var e0 := registry.CreateEntityGrowingSignatures();
    var e1 := registry.CreateEntityGrowingSignatures();
    assert e0.id == 0 && e1.id == 1;
    assert registry.entityComponentSignatures[0] == EMPTY;

    var sys := new System();
    sys.RequireComponent(ids, a);
    registry.AddSystem(sysKey, sys);
    registered := registry.HasSystem(sysKey);
    required := sys.componentSignature;

    assert ids.ids == map[a := 0];
    registry.AddComponent(ids, a, e1, 7);
    assert registry.entityComponentSignatures[0] == EMPTY;
    second := registry.HasComponent(ids, a, e1);
    first := registry.HasComponent(ids, a, e0);
    registry.RemoveComponent(ids, a, e1);
    afterRemove := registry.HasComponent(ids, a, e1);
  }
}
