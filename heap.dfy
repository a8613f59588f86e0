/** The heap of src/heap.c: a grow increment, a TLSF allocator and a singly
    linked list of arenas, the regions added to the allocator when it runs
    out. TLSF itself is a library the model does not contain: its state is
    reduced to the set of blocks it has handed out, and its answers are
    parameters that obey the library's contract. */
module Heaps {
  import opened Common

  /** sizeof(arena_t): a pool_t handle and the next arena's address on a 64-bit target. */
  const ARENA_HEADER: nat := 16

  /** The usable size of a growth arena, `__max(grow_increment, size * 2) +
      sizeof(arena_t)` computed in 64-bit size_t arithmetic. */
  function ArenaSize(growIncrement: uint64, size: uint64): (r: uint64)
    ensures 2 * size < TWO_64 && Max(growIncrement, 2 * size) + ARENA_HEADER < TWO_64 ==>
      r >= growIncrement + ARENA_HEADER && r >= 2 * size + ARENA_HEADER &&
      (r == growIncrement + ARENA_HEADER || r == 2 * size + ARENA_HEADER)
  {
    (Max(growIncrement, (size * 2) % TWO_64) + ARENA_HEADER) % TWO_64
  }

  /** What the allocator has handed out and not taken back. */
  datatype Tlsf = Tlsf(live: set<uint64>)

  /** The contract of tlsf_memalign: NULL, or a block that is not in use and
      is aligned as asked. */
  predicate TlsfAnswer(address: uint64, alignment: uint64, live: set<uint64>) {
    address == 0 || (address !in live && (alignment > 0 ==> address % alignment == 0))
  }

  /** arena_t: the pool handle tlsf_add_pool returned for the region, the
      region's usable size and the next arena. None of them changes after the
      arena is linked in. */
  class Arena {
    const pool: uint64
    const size: uint64
    const next: Arena?

    constructor (pool: uint64, size: uint64, next: Arena?)
      ensures this.pool == pool && this.size == size && this.next == next
    {
      this.pool := pool;
      this.size := size;
      this.next := next;
    }
  }

  /** `list` is the chain of arenas reached from `head` through `next`, each
      arena once. */
  ghost predicate Linked(head: Arena?, list: seq<Arena>) {
    (head == if list == [] then null else list[0]) &&
    (forall i :: 0 < i < |list| ==> list[i - 1].next == list[i]) &&
    (list != [] ==> list[|list| - 1].next == null) &&
    (forall i, j :: 0 <= i < j < |list| ==> list[i] != list[j])
  }

  lemma LinkedPrepend(head: Arena?, list: seq<Arena>, a: Arena)
    requires Linked(head, list) && a.next == head && a !in list
    ensures Linked(a, [a] + list)
  {
    var l := [a] + list;
    forall i | 0 < i < |l| ensures l[i - 1].next == l[i] {
      assert l[i] == list[i - 1];
      if i > 1 {
        assert l[i - 1] == list[i - 2];
      }
    }
    forall i, j | 0 <= i < j < |l| ensures l[i] != l[j] {
      assert l[j] == list[j - 1];
      if i > 0 {
        assert l[i] == list[i - 1];
      }
    }
  }

  lemma LinkedStep(head: Arena?, list: seq<Arena>, i: nat)
    requires Linked(head, list) && i < |list|
    ensures list[i].next == if i + 1 < |list| then list[i + 1] else null
  {
    if i + 1 < |list| {
      assert list[(i + 1) - 1] == list[i];
    }
  }

  class Heap {
    var growIncrement: uint64
    var tlsf: Tlsf
    var arena: Arena?
    /** Whether heap_destroy has handed the heap's own region back to the OS. */
    var released: bool
    /** The arena list from the head, in list order. */
    ghost var arenas: seq<Arena>

    ghost predicate Valid()
      reads this
    {
      Linked(arena, arenas)
    }

    constructor Init(growIncrement: uint64)
      ensures Valid() && this.growIncrement == growIncrement
      ensures arena == null && arenas == [] && tlsf.live == {} && !released
    {
      this.growIncrement := growIncrement;
      tlsf := Tlsf({});
      arena := null;
      released := false;
      arenas := [];
    }

    /** heap_create. `osOk` is whether VirtualAlloc grants the heap's region;
        if it does not, the result is NULL. */
    static method Create(growIncrement: uint64, osOk: bool) returns (heap: Heap?)
      ensures osOk <==> heap != null
      ensures heap != null ==>
        fresh(heap) && heap.Valid() && heap.growIncrement == growIncrement &&
        heap.arena == null && heap.arenas == [] && heap.tlsf.live == {} && !heap.released
    {
      if !osOk {
        return null;
      }
      heap := new Heap.Init(growIncrement);
    }

    /** heap_alloc. `first` and `retry` are TLSF's answers to the first and
        the second tlsf_memalign (0 is NULL), `osOk` whether VirtualAlloc
        grants the growth region and `pool` the handle tlsf_add_pool returns. */
    method Alloc(size: uint64, alignment: uint64, first: uint64, osOk: bool, pool: uint64, retry: uint64)
      returns (address: uint64)
      requires Valid() && !released
      requires TlsfAnswer(first, alignment, tlsf.live) && TlsfAnswer(retry, alignment, tlsf.live)
      modifies this
      ensures Valid() && growIncrement == old(growIncrement) && !released
      ensures address != 0 ==> address !in old(tlsf.live) && tlsf.live == old(tlsf.live) + {address}
      ensures address != 0 && alignment > 0 ==> address % alignment == 0
      ensures address == 0 ==> tlsf.live == old(tlsf.live)
      ensures first != 0 ==> address == first && arenas == old(arenas)
      ensures first == 0 && !osOk ==> address == 0 && arenas == old(arenas)
      ensures first == 0 && osOk ==>
        address == retry && |arenas| == |old(arenas)| + 1 && arenas[1..] == old(arenas) &&
        fresh(arenas[0]) && arenas[0].size == ArenaSize(growIncrement, size) && arenas[0].pool == pool
    {
      address := first;
      if address == 0 {
        var arenaSize := ArenaSize(growIncrement, size);
        if !osOk {
          return 0;
        }
        var grown := new Arena(pool, arenaSize, arena);
        LinkedPrepend(arena, arenas, grown);
        arena := grown;
        arenas := [grown] + arenas;
        address := retry;
      }
      if address != 0 {
        tlsf := tlsf.(live := tlsf.live + {address});
      }
    }

    /** heap_free hands the block back to TLSF. */
    method Free(address: uint64)
      requires Valid()
      modifies this`tlsf
      ensures Valid()
      ensures tlsf.live == old(tlsf.live) - {address}
    {
      tlsf := tlsf.(live := tlsf.live - {address});
    }

    /** heap_destroy: walks the list from the head, releasing each arena, then
        releases the heap's own region. The result is the order in which the
        arenas are released. */
    method Destroy() returns (order: seq<Arena>)
      requires Valid() && !released
      modifies this`released
      ensures released
      ensures order == arenas
      ensures forall i, j :: 0 <= i < j < |order| ==> order[i] != order[j]
    {
      order := [];
      var a := arena;
      ghost var i := 0;
      while a != null
        invariant 0 <= i <= |arenas|
        invariant a == if i < |arenas| then arenas[i] else null
        invariant order == arenas[..i]
        decreases |arenas| - i
      {
        LinkedStep(arena, arenas, i);
        var next := a.next;
        order := order + [a];
        a := next;
        i := i + 1;
      }
      released := true;
    }
  }

  /** The size of a growth arena always covers twice the request, so the
      retry asks for at most half of the new region; and it is never smaller
      than the grow increment. */
  lemma GrowthCoversRequest(growIncrement: uint64, size: uint64)
    requires 2 * size + ARENA_HEADER < TWO_64 && growIncrement + ARENA_HEADER < TWO_64
    ensures ArenaSize(growIncrement, size) - ARENA_HEADER >= 2 * size
    ensures ArenaSize(growIncrement, size) - ARENA_HEADER >= growIncrement
  {
  }
}
