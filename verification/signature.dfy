/** The fixed-width component bitset that entities and systems share (the `Signature` typedef). */
module Signatures {

  /** Width of every signature: the number of component types the engine can tell apart. */
  const MAX_COMPONENTS: nat := 32

  /**
   * A `std::bitset<MAX_COMPONENTS>`, given by the positions of its bits that are on; bit k
   * stands for the component type whose id is k.
   */
  type Signature = s: set<nat> | forall k :: k in s ==> k < MAX_COMPONENTS

  /** The all-clear signature that a default-constructed bitset holds. */
  const EMPTY: Signature := {}

  /** `bitset::test(k)`: whether bit k is on. Positions at or above the width throw in the source. */
  predicate Test(s: Signature, k: nat)
    requires k < MAX_COMPONENTS
    ensures Test(s, k) <==> k in s
  {
    k in s
  }

  /** `bitset::set(k)`: turns bit k on and leaves every other bit as it was. */
  function Set(s: Signature, k: nat): (r: Signature)
    requires k < MAX_COMPONENTS
    ensures Test(r, k)
    ensures forall j :: 0 <= j < MAX_COMPONENTS && j != k ==> Test(r, j) == Test(s, j)
  {
    s + {k}
  }

  /** `bitset::set(k, false)`: turns bit k off and leaves every other bit as it was. */
  function Reset(s: Signature, k: nat): (r: Signature)
    requires k < MAX_COMPONENTS
    ensures !Test(r, k)
    ensures forall j :: 0 <= j < MAX_COMPONENTS && j != k ==> Test(r, j) == Test(s, j)
  {
    s - {k}
  }

  /** Two signatures that agree on every bit are the same signature. */
  lemma Extensional(a: Signature, b: Signature)
    requires forall k :: 0 <= k < MAX_COMPONENTS ==> Test(a, k) == Test(b, k)
    ensures a == b
  {
    forall k | k in a ensures k in b {
      assert Test(a, k);
    }
    forall k | k in b ensures k in a {
      assert Test(b, k);
    }
  }

  /** The empty signature has no bit on. */
  lemma EmptyHasNoBits(k: nat)
    requires k < MAX_COMPONENTS
    ensures !Test(EMPTY, k)
  {
  }

  /** Setting a bit twice is setting it once; setting a bit that is already on changes nothing. */
  lemma SetIdempotent(s: Signature, k: nat)
    requires k < MAX_COMPONENTS
    ensures Set(Set(s, k), k) == Set(s, k)
    ensures Test(s, k) ==> Set(s, k) == s
  {
  }

  /** Clearing a bit undoes setting it, whatever the bit was before. */
  lemma ResetAfterSet(s: Signature, k: nat)
    requires k < MAX_COMPONENTS
    ensures Reset(Set(s, k), k) == Reset(s, k)
    ensures !Test(s, k) ==> Reset(Set(s, k), k) == s
  {
  }
}
