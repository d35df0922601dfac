/** Component type ids: each component type gets a small integer, lazily, from one shared counter. */
module Components {

  /** The identity of a C++ type, as `std::type_index` or a template argument gives it. */
  datatype TypeKey = TypeKey(name: string)

  /**
   * The shared static counter `IComponent::nextId` together with the function-local static `id`
   * inside every instantiation `Component<T>::GetId`. `ids` holds the types whose `GetId` has
   * already run once, with the id each of them received.
   */
  class ComponentIds {
    var nextId: int
    var ids: map<TypeKey, int>

    /** Ids are handed out in order: exactly `nextId` types hold the ids 0 .. nextId-1, no two alike. */
    ghost predicate Valid()
      reads this
    {
      && nextId == |ids|
      && (forall t :: t in ids ==> 0 <= ids[t] < nextId)
      && (forall t, u :: t in ids && u in ids && t != u ==> ids[t] != ids[u])
    }

    /** Program start: the static counter is zero and no type has an id yet. */
    constructor ()
      ensures Valid() && nextId == 0 && ids == map[]
    {
      nextId := 0;
      ids := map[];
    }

    /**
     * The id `GetId` gives `t` when called now: the one it already holds, or else the counter.
     * Either way no other type holds it.
     */
    function IdFor(t: TypeKey): (id: nat)
      reads this
      requires Valid()
      ensures id <= nextId
      ensures t in ids <==> id < nextId
      ensures t in ids ==> id == ids[t]
      ensures forall u :: u in ids && u != t ==> ids[u] != id
    {
      if t in ids then ids[t] else nextId
    }

    /**
     * `Component<T>::GetId`: the first call for `t` takes the counter and increments it; every
     * later call returns the same id and changes nothing.
     */
    method GetId(t: TypeKey) returns (id: int)
      requires Valid()
      modifies this
      ensures Valid()
      ensures id == old(IdFor(t))
      ensures ids == old(ids)[t := id]
      ensures nextId == if t in old(ids) then old(nextId) else old(nextId) + 1
    {
      if t in ids {
        id := ids[t];
      } else {
        id := nextId;
        nextId := nextId + 1;
        ids := ids[t := id];
      }
    }
  }

  /** Two calls of `GetId` for the same type return the same id. */
  method GetIdIsStable(c: ComponentIds, t: TypeKey) returns (first: int, second: int)
    requires c.Valid()
    modifies c
    ensures first == second
    ensures t in c.ids && c.ids[t] == first
  {
    first := c.GetId(t);
    second := c.GetId(t);
  }

  /** Fresh types are numbered in the order of their first use: 0, 1, and again 0 for the first. */
  method IdsAreSequential(a: TypeKey, b: TypeKey) returns (ida: int, idb: int, again: int)
    requires a != b
    ensures ida == 0 && idb == 1 && again == 0
  {
    var c := new ComponentIds();
    ida := c.GetId(a);
    idb := c.GetId(b);
    again := c.GetId(a);
  }
}
