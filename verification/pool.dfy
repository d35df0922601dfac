/** Component pools: a vector of component values indexed by entity id. */
module Pools {

  /** The size a pool has when it is constructed without an argument. */
  const DEFAULT_POOL_SIZE: nat := 100

  /**
   * `std::vector::resize(n)` on `s`: the first `min(|s|, n)` elements are kept and every new
   * slot holds the value-initialised element `blank`.
   */
  function Resized<T>(s: seq<T>, n: nat, blank: T): (r: seq<T>)
    ensures |r| == n
    ensures forall i :: 0 <= i < n ==> r[i] == if i < |s| then s[i] else blank
  {
    if n <= |s| then s[..n] else s + seq(n - |s|, _ => blank)
  }

  /**
   * The contents of a pool after `Registry::AddComponent` stored `value` for entity `id`: the
   * pool is first resized to `n` (the number of entities) when `id` is not already a valid
   * index, then slot `id` is overwritten. Slot `id` then holds `value`, every other slot that
   * existed keeps its value, and every other new slot holds `blank`.
   */
  function StoreAt<T>(s: seq<T>, id: int, value: T, n: nat, blank: T): (r: seq<T>)
    requires 0 <= id
    requires id < |s| || id < n
    ensures |r| == if id < |s| then |s| else n
    ensures id < |r| && r[id] == value
    ensures forall j :: 0 <= j < |r| && j != id ==> r[j] == if j < |s| then s[j] else blank
  {
    var grown := if id < |s| then s else Resized(s, n, blank);
    grown[id := value]
  }

  /** `Pool<T>`: the storage of one component type; slot i holds the component of entity i. */
  class Pool<T> {
    var data: seq<T>
    /** The value-initialised `T()` that `vector::resize` puts in new slots. */
    const blank: T

    /** `Pool(int size = 100)`: `size` value-initialised slots. A negative size throws. */
    constructor (blank: T, size: int := DEFAULT_POOL_SIZE)
      requires 0 <= size
      ensures this.blank == blank
      ensures data == seq(size, _ => blank)
    {
      this.blank := blank;
      data := seq(size, _ => blank);
    }

    /** `isEmpty()`: the pool has no slot at all. */
    predicate IsEmpty()
      reads this
      ensures IsEmpty() <==> GetSize() == 0
    {
      |data| == 0
    }

    /** `GetSize()`: the number of slots, which is not the number of entities owning the component. */
    function GetSize(): (n: int)
      reads this
      ensures 0 <= n && n == |data|
    {
      |data|
    }

    /** `Resize(n)`: the existing prefix is kept and new slots are value-initialised. */
    method Resize(n: int)
      requires 0 <= n
      modifies this
      ensures data == Resized(old(data), n, blank)
    {
      data := Resized(data, n, blank);
    }

    /** `Clear()`: every slot is dropped. */
    method Clear()
      modifies this
      ensures data == [] && IsEmpty()
    {
      data := [];
    }

    /** `Add(object)`: one slot holding the argument is appended at the end. */
    method Add(item: T)
      modifies this
      ensures data == old(data) + [item]
      ensures GetSize() == old(GetSize()) + 1 && data[|data| - 1] == item
    {
      data := data + [item];
    }

    /** `Set(index, object)`: slot `index` is overwritten; no other slot changes. */
    method Set(index: int, item: T)
      requires 0 <= index < |data|
      modifies this
      ensures |data| == |old(data)| && data[index] == item
      ensures forall j :: 0 <= j < |data| && j != index ==> data[j] == old(data)[j]
    {
      data := data[index := item];
    }

    /** `Get(index)`: the value in slot `index`, which must exist. */
    function Get(index: int): (item: T)
      reads this
      requires 0 <= index < |data|
      ensures item == data[index]
    {
      data[index]
    }
  }
}
