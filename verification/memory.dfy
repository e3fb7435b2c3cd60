/** Memory blocks by address. A block can be freed once and only while it is allocated. */
module Memory {

  class Heap {
    var live: set<nat>
    var next: nat

    /** Addresses are handed out in order, so a new one is not in use, and never null. */
    ghost predicate Valid()
      reads this
    {
      next > 0 && forall a :: a in live ==> 0 < a < next
    }

    /** The blocks allocated, each once. */
    ghost function Blocks(): multiset<nat>
      reads this
    {
      multiset(live)
    }

    constructor ()
      ensures Valid() && Blocks() == multiset{}
    {
      live, next := {}, 1;
    }

    method Allocate() returns (addr: nat)
      requires Valid()
      modifies this
      ensures Valid() && Blocks() == old(Blocks()) + multiset{addr}
      ensures addr !in old(Blocks()) && addr != 0
    {
      addr := next;
      live, next := live + {addr}, next + 1;
    }

    method Free(addr: nat)
      requires Valid() && addr in Blocks()
      modifies this`live
      ensures Valid() && Blocks() == old(Blocks()) - multiset{addr}
    {
      live := live - {addr};
    }
  }

  /** A memory pool. A block is freed with the size it was allocated with. */
  class Pool {
    var live: set<(nat, nat)>
    var next: nat

    ghost predicate Valid()
      reads this
    {
      && next > 0
      && (forall b :: b in live ==> 0 < b.0 < next)
      && (forall a, b :: a in live && b in live && a.0 == b.0 ==> a == b)
    }

    /** The blocks allocated, with their sizes, each once. */
    ghost function Blocks(): multiset<(nat, nat)>
      reads this
    {
      multiset(live)
    }

    constructor ()
      ensures Valid() && Blocks() == multiset{}
    {
      live, next := {}, 1;
    }

    /** Returns 0 when there is no memory. */
    method Allocate(size: nat, memory: bool) returns (addr: nat)
      requires Valid()
      modifies this
      ensures Valid() && (addr != 0 <==> memory)
      ensures Blocks() == old(Blocks()) + if memory then multiset{(addr, size)} else multiset{}
    {
      if !memory {
        return 0;
      }
      addr := next;
      live, next := live + {(addr, size)}, next + 1;
    }

    method Free(addr: nat, size: nat)
      requires Valid() && (addr, size) in Blocks()
      modifies this`live
      ensures Valid() && Blocks() == old(Blocks()) - multiset{(addr, size)}
    {
      live := live - {(addr, size)};
    }
  }
}
