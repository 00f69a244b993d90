/**
 The per-thread mempool caches (memory.rs): one zone holds the pool header and then, aligned to a
 cache line, one pointer slot per thread id.
 */
module CacheSlots {
  import opened Common
  import ThreadIds

  const CACHE_LINE_SIZE: nat := 64
  const POINTER_SIZE: nat := 8

  /** `(n + 63) / 64 * 64`. */
  function RoundUp(n: nat): (r: nat)
    ensures r % CACHE_LINE_SIZE == 0 && n <= r < n + CACHE_LINE_SIZE
  {
    (n + CACHE_LINE_SIZE - 1) / CACHE_LINE_SIZE * CACHE_LINE_SIZE
  }

  /** The reserved length: the rounded header and 2048 slots. */
  function ZoneLength(header: nat): nat {
    RoundUp(header) + POINTER_SIZE * ThreadIds.MAX_THREAD_NUM
  }

  /** Past the header, aligned by `align_offset`: the first multiple of 64 not below. */
  function CacheBase(zone: nat, header: nat): nat {
    RoundUp(zone + header)
  }

  function Slot(zone: nat, header: nat, id: nat): nat {
    CacheBase(zone, header) + POINTER_SIZE * id
  }

  /** Two byte ranges of one pointer each do not overlap. */
  predicate Disjoint(a: nat, b: nat) {
    a + POINTER_SIZE <= b || b + POINTER_SIZE <= a
  }

  lemma AlignedBase(zone: nat, header: nat)
    requires zone % CACHE_LINE_SIZE == 0
    ensures CacheBase(zone, header) == zone + RoundUp(header)
  {
    var q := zone / CACHE_LINE_SIZE;
    assert zone == CACHE_LINE_SIZE * q;
    assert (zone + header + CACHE_LINE_SIZE - 1) / CACHE_LINE_SIZE ==
           q + (header + CACHE_LINE_SIZE - 1) / CACHE_LINE_SIZE;
  }

  /** For a zone on a cache-line boundary, which is how it is reserved, every slot lies behind the
      header and inside the zone, and distinct ids have disjoint slots. */
  lemma SlotsInZone(zone: nat, header: nat, id: nat, other: nat)
    requires zone % CACHE_LINE_SIZE == 0 && id < ThreadIds.MAX_THREAD_NUM && other < ThreadIds.MAX_THREAD_NUM
    ensures zone + header <= Slot(zone, header, id)
    ensures Slot(zone, header, id) + POINTER_SIZE <= zone + ZoneLength(header)
    ensures Slot(zone, header, id) % POINTER_SIZE == 0
    ensures Disjoint(Slot(zone, header, id), Slot(zone, header, other)) <==> id != other
  {
    AlignedBase(zone, header);
  }

  /** Where the zone starts matters: for any start, the last slot stays inside the zone exactly when
      the start is no further past a cache line than the header's padding; an aligned zone is. */
  lemma LastSlotInsideIff(zone: nat, header: nat)
    ensures Slot(zone, header, ThreadIds.MAX_THREAD_NUM - 1) + POINTER_SIZE <= zone + ZoneLength(header)
            <==> zone % CACHE_LINE_SIZE <= RoundUp(header) - header
  {
    var r := zone % CACHE_LINE_SIZE;
    var base := zone - r;
    AlignedBase(base, r + header);
    assert zone + header == base + (r + header);
    assert CacheBase(zone, header) == base + RoundUp(r + header);
  }

  // ----- the slot array -----

  /** The pool object: its own pointer to the slots, and the copy kept in the mempool's private
      data, which is what `deallocate` follows. */
  class MemoryPool {
    const zone: nat
    const header: nat
    const cachePerThread: nat
    const privCachePerThread: nat
    var memory: map<nat, nat>

    ghost predicate Valid() {
      && zone % CACHE_LINE_SIZE == 0
      && cachePerThread == CacheBase(zone, header) && privCachePerThread == cachePerThread
    }

    constructor (zone: nat, header: nat)
      requires zone % CACHE_LINE_SIZE == 0
      ensures Valid() && this.zone == zone && this.header == header && memory == map[]
    {
      this.zone, this.header := zone, header;
      cachePerThread := CacheBase(zone, header);
      privCachePerThread := CacheBase(zone, header);
      memory := map[];
    }

    /** `create_cache`: store a new cache in the thread's slot. */
    method CreateCache(id: nat, cache: nat)
      requires Valid() && id < ThreadIds.MAX_THREAD_NUM
      modifies this
      ensures memory == old(memory)[Slot(zone, header, id) := cache]
      ensures forall other :: 0 <= other < ThreadIds.MAX_THREAD_NUM && other != id ==>
                CacheFor(other) == old(CacheFor(other))
      ensures CacheFor(id) == Some(cache)
    {
      memory := memory[cachePerThread + POINTER_SIZE * id := cache];
    }

    /** The cache in a thread's slot. */
    ghost function CacheFor(id: nat): Option<nat>
      reads this
    {
      var a := Slot(zone, header, id);
      if a in memory then Some(memory[a]) else None
    }

    /** `get_cache`, used when allocating. */
    method AllocationCache(id: nat) returns (r: Option<nat>)
      requires Valid()
      ensures r == CacheFor(id)
    {
      var a := cachePerThread + POINTER_SIZE * id;
      r := if a in memory then Some(memory[a]) else None;
    }

    /** The lookup in `deallocate`, through the mempool's private data. */
    method DeallocationCache(id: nat) returns (r: Option<nat>)
      requires Valid()
      ensures r == CacheFor(id)
    {
      var a := privCachePerThread + POINTER_SIZE * id;
      r := if a in memory then Some(memory[a]) else None;
    }
  }

  /** With the ids the server hands out, no two live threads share a cache slot, in any state any
      honest trace reaches. */
  lemma LiveThreadsHaveOwnSlots(es: seq<ThreadIds.Event>, zone: nat, header: nat, t: ThreadIds.Thread,
                                u: ThreadIds.Thread)
    requires zone % CACHE_LINE_SIZE == 0
    requires ThreadIds.HonestTrace(ThreadIds.Initial(), es)
    ensures var live := ThreadIds.HandleAll(ThreadIds.Initial(), es).live;
            t in live && u in live && t != u ==>
              && Disjoint(Slot(zone, header, live[t]), Slot(zone, header, live[u]))
              && Slot(zone, header, live[t]) + POINTER_SIZE <= zone + ZoneLength(header)
  {
    ThreadIds.InitialConsistent();
    ThreadIds.TraceConsistent(ThreadIds.Initial(), es);
    var live := ThreadIds.HandleAll(ThreadIds.Initial(), es).live;
    if t in live && u in live {
      SlotsInZone(zone, header, live[t], live[u]);
    }
  }
}
