/** Entities: objects that are nothing but an integer id. */
module Entities {

  /**
   * An entity handle. `Entity::GetId` is the destructor `id`; the copy constructor and copy
   * assignment are value semantics. Equality of two handles is equality of their ids, which is
   * what `operator==` and `operator!=` compare.
   */
  datatype Entity = Entity(id: int) {

    /** `operator<`: ordering by id. It is the ordering `std::set<Entity>` keys on. */
    predicate Less(other: Entity)
      ensures Less(other) <==> id < other.id
      ensures Less(other) ==> this != other
    {
      id < other.id
    }

    /** `operator>`: ordering by id. */
    predicate Greater(other: Entity)
      ensures Greater(other) <==> id > other.id
      ensures Greater(other) <==> other.Less(this)
    {
      id > other.id
    }
  }

  /** `operator<` is a strict total order and `operator>` is its converse. */
  lemma OrderIsStrictTotal(a: Entity, b: Entity, c: Entity)
    ensures !a.Less(a)
    ensures a.Less(b) && b.Less(c) ==> a.Less(c)
    ensures a.Less(b) || a == b || b.Less(a)
    ensures a.Greater(b) <==> b.Less(a)
  {
  }

  /**
   * Two entities are equivalent under `operator<` (neither is less than the other) exactly when
   * they are equal, and equal exactly when their ids are: a `std::set<Entity>` therefore behaves
   * as a mathematical set of entities.
   */
  lemma EquivalenceIsEquality(a: Entity, b: Entity)
    ensures (!a.Less(b) && !b.Less(a)) <==> a == b
    ensures a == b <==> a.id == b.id
  {
  }
}
