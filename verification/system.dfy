/** Systems: a required-component signature and the ordered list of entities the system processes. */
module Systems {
  import opened Signatures
  import opened Components
  import opened Entities

  /**
   * The list `s` with every entity whose id equals `e`'s removed and the others kept in their
   * relative order: what `erase(remove_if(..., same id as e), end())` leaves.
   */
  function Without(s: seq<Entity>, e: Entity): (r: seq<Entity>)
    ensures |r| <= |s|
    ensures forall x :: x in r ==> x in s && x.id != e.id
  {
    if s == [] then []
    else
      var last := s[|s| - 1];
      Without(s[..|s| - 1], e) + (if last.id == e.id then [] else [last])
  }

  /** Removal works piece by piece: the kept elements of `a` stay ahead of those of `b`. */
  lemma {:induction false} WithoutAppend(a: seq<Entity>, b: seq<Entity>, e: Entity)
    ensures Without(a + b, e) == Without(a, e) + Without(b, e)
  {
    if b != [] {
      var last := b[|b| - 1];
      assert (a + b)[..|a + b| - 1] == a + b[..|b| - 1];
      WithoutAppend(a, b[..|b| - 1], e);
    } else {
      assert a + b == a;
    }
  }

  /** Removing an entity that is not in the list leaves the list as it was. */
  lemma {:induction false} WithoutAbsent(s: seq<Entity>, e: Entity)
    requires forall x :: x in s ==> x.id != e.id
    ensures Without(s, e) == s
  {
    if s != [] {
      WithoutAbsent(s[..|s| - 1], e);
      assert s[..|s| - 1] + [s[|s| - 1]] == s;
    }
  }

  /** Removing twice is removing once. */
  lemma WithoutIdempotent(s: seq<Entity>, e: Entity)
    ensures Without(Without(s, e), e) == Without(s, e)
  {
    WithoutAbsent(Without(s, e), e);
  }

  /**
   * Every entity with `e`'s id is gone, and every other entity occurs exactly as often as
   * before.
   */
  lemma {:induction false} WithoutCounts(s: seq<Entity>, e: Entity, x: Entity)
    ensures multiset(Without(s, e))[x] == if x.id == e.id then 0 else multiset(s)[x]
  {
    if s != [] {
      var init, last := s[..|s| - 1], s[|s| - 1];
      WithoutCounts(init, e, x);
      assert s == init + [last];
    }
  }

  /** Appending an entity and then removing it is the same as removing it from the list before. */
  lemma AddThenRemove(s: seq<Entity>, e: Entity)
    ensures Without(s + [e], e) == Without(s, e)
  {
    WithoutAppend(s, [e], e);
  }

  /**
   * The erase-remove idiom of `RemoveEntityFromSystem`: one pass over `s` that keeps, in
   * order, each entity whose id differs from `e`'s.
   */
  method RemoveIfSameId(s: seq<Entity>, e: Entity) returns (kept: seq<Entity>)
    ensures kept == Without(s, e)
  {
    kept := [];
    var i := 0;
    while i < |s|
      invariant 0 <= i <= |s|
      invariant kept == Without(s[..i], e)
    {
      if s[i].id != e.id {
        kept := kept + [s[i]];
      }
      assert s[..i + 1][..i] == s[..i];
      i := i + 1;
    }
    assert s[..|s|] == s;
  }

  /** `System`: the components it requires and the entities currently routed to it. */
  class System {
    var componentSignature: Signature
    var entities: seq<Entity>

    /** `System() = default`: no component required and no entity. */
    constructor ()
      ensures componentSignature == EMPTY && entities == []
    {
      componentSignature := EMPTY;
      entities := [];
    }

    /** `AddEntityToSystem`: appends, without checking whether the entity is already there. */
    method AddEntityToSystem(entity: Entity)
      modifies this
      ensures entities == old(entities) + [entity]
      ensures componentSignature == old(componentSignature)
    {
      entities := entities + [entity];
    }

    /** `RemoveEntityFromSystem`: drops every entry with the entity's id and keeps the order of the rest. */
    method RemoveEntityFromSystem(entity: Entity)
      modifies this
      ensures entities == Without(old(entities), entity)
      ensures componentSignature == old(componentSignature)
    {
      entities := RemoveIfSameId(entities, entity);
    }

    /** `GetSystemEntities`: a copy of the current list; nothing changes. */
    method GetSystemEntities() returns (r: seq<Entity>)
      ensures r == entities
    {
      r := entities;
    }

    /** `GetComponentSignature`: the stored required signature; nothing changes. */
    method GetComponentSignature() returns (s: Signature)
      ensures s == componentSignature
    {
      s := componentSignature;
    }

    /**
     * `RequireComponent<T>`: turns on the bit of `T`'s id (assigning that id if `T` had none)
     * and no other bit. The id must fit the signature, or `bitset::set` throws.
     */
    method RequireComponent(ids: ComponentIds, t: TypeKey)
      requires ids.Valid() && ids.IdFor(t) < MAX_COMPONENTS
      modifies this, ids
      ensures ids.Valid() && ids.ids == old(ids.ids)[t := old(ids.IdFor(t))]
      ensures componentSignature == Set(old(componentSignature), old(ids.IdFor(t)))
      ensures entities == old(entities)
    {
      var componentId := ids.GetId(t);
      componentSignature := Set(componentSignature, componentId);
    }
  }

  /** Requiring the same component twice leaves the signature as requiring it once. */
  method RequireComponentIdempotent(sys: System, ids: ComponentIds, t: TypeKey)
    requires ids.Valid() && ids.IdFor(t) < MAX_COMPONENTS
    modifies sys, ids
    ensures sys.componentSignature == Set(old(sys.componentSignature), old(ids.IdFor(t)))
  {
    sys.RequireComponent(ids, t);
    sys.RequireComponent(ids, t);
    SetIdempotent(old(sys.componentSignature), old(ids.IdFor(t)));
  }
}
