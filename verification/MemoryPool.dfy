/** The slab allocator. A block address is an index into the memory of all slabs, laid end to end;
    the link of a free block overlays the memory of the order that last lived in it. */
module MemoryPool {
  import opened Types

  type Pointer = Option<nat>

  /** `level` is the address of the price level the order is linked into; PriceLevel is declared later. */
  datatype RestingOrder = RestingOrder(
    next: Pointer,
    prev: Pointer,
    level: object?,
    id: OrderId,
    quantity: int,
    lifetime: RestingLifetime,
    side: Side)

  datatype Block = Live(order: RestingOrder) | Free(next: Pointer)

  type Blocks = seq<Block>

  /** Pointer to element i of a chain, null past its end. */
  function Element(chain: seq<nat>, i: int): Pointer {
    if 0 <= i < |chain| then Some(chain[i]) else None
  }

  ghost predicate Distinct(chain: seq<nat>) {
    forall i, j :: 0 <= i < j < |chain| ==> chain[i] != chain[j]
  }

  ghost predicate IsLive(blocks: Blocks, k: nat) {
    k < |blocks| && blocks[k].Live?
  }

  /** Two blocks hold the same order, wherever it is linked. */
  ghost predicate SameOrder(a: Block, b: Block) {
    && a.Live? && b.Live?
    && a.order.id == b.order.id && a.order.quantity == b.order.quantity
    && a.order.lifetime == b.order.lifetime && a.order.side == b.order.side
  }

  /** Element i of the free list is a free block whose link leads to the next element. */
  ghost predicate FreeAt(blocks: Blocks, freeList: seq<nat>, i: nat)
    requires i < |freeList|
  {
    freeList[i] < |blocks| && blocks[freeList[i]] == Free(Element(freeList, i + 1))
  }

  /** The free list threads exactly the free blocks, each once, and ends in null. */
  ghost predicate Threaded(blocks: Blocks, first: Pointer, freeList: seq<nat>) {
    && first == Element(freeList, 0)
    && Distinct(freeList)
    && (forall i :: 0 <= i < |freeList| ==> FreeAt(blocks, freeList, i))
    && (forall k :: 0 <= k < |blocks| && blocks[k].Free? ==> k in freeList)
  }

  /** Blocks in all slabs after n growths: each slab added is as large as the pool before it. */
  function Capacity(initial: nat, n: nat): nat {
    if n == 0 then initial else 2 * Capacity(initial, n - 1)
  }

  /** The pool grew by one doubling, if at all, and then because more blocks are live than it had before. */
  predicate GrewOnDemand(initial: nat, slabs: nat, slabs': nat, allocated': nat) {
    slabs' == slabs || (slabs' == slabs + 1 >= 2 && allocated' > Capacity(initial, slabs - 1))
  }

  function Pow2(n: nat): nat {
    if n == 0 then 1 else 2 * Pow2(n - 1)
  }

  ghost predicate Layout(initial: nat, slabs: seq<nat>, total: nat) {
    && 1 <= initial <= total
    && 1 <= |slabs| && slabs[0] == 0
    && total == Capacity(initial, |slabs| - 1)
    && (forall s :: 1 <= s < |slabs| ==> slabs[s] == Capacity(initial, s - 1))
  }

  function LiveBlocks(blocks: Blocks): set<nat> {
    set k | 0 <= k < |blocks| && blocks[k].Live?
  }

  /** The blocks from lo on are free and linked in address order, the last to null. */
  ghost predicate FreshSlab(blocks: Blocks, lo: nat) {
    forall k :: lo <= k < |blocks| ==> blocks[k] == Free(if k + 1 < |blocks| then Some(k + 1) else None)
  }

  /** A block that was not live now holds the order; memory grew, if at all, by free blocks,
      and only when there was no free block left. */
  ghost predicate Placed(before: Blocks, after: Blocks, k: nat, order: RestingOrder) {
    && !IsLive(before, k)
    && k < |after| && after[k] == Live(order)
    && |before| <= |after|
    && (forall j :: 0 <= j < |before| && j != k ==> after[j] == before[j])
    && (forall j :: |before| <= j < |after| && j != k ==> after[j].Free?)
    && (|before| < |after| ==> forall j :: 0 <= j < |before| ==> before[j].Live?)
  }

  ghost predicate AllFree(blocks: Blocks) {
    forall k :: 0 <= k < |blocks| ==> blocks[k].Free?
  }

  /** Consecutive addresses from lo up to, not including, hi. */
  function Span(lo: nat, hi: nat): (s: seq<nat>)
    requires lo <= hi
    ensures |s| == hi - lo && forall i :: 0 <= i < |s| ==> s[i] == lo + i
  {
    seq(hi - lo, i => lo + i)
  }

  class MemoryPool {
    var totalElements: nat
    var currentlyAllocated: nat
    var firstFree: Pointer
    var slabs: seq<nat>   // address of the first block of each slab
    var blocks: Blocks
    ghost const initial: nat
    ghost var freeList: seq<nat>

    ghost predicate Valid()
      reads this
    {
      && |blocks| == totalElements
      && Layout(initial, slabs, totalElements)
      && Threaded(blocks, firstFree, freeList)
      && currentlyAllocated + |freeList| == totalElements
    }

    constructor (size: nat)
      requires size >= 1
      ensures Valid() && fresh(this)
      ensures initial == size && totalElements == size && |slabs| == 1
      ensures currentlyAllocated == 0 && AllFree(blocks)
    {
      totalElements := size;
      currentlyAllocated := 0;
      firstFree := None;
      slabs := [];
      blocks := [];
      initial := size;
      freeList := [];
      new;
      var newSlab := AllocateSlab(size);
      slabs := slabs + [newSlab];
      firstFree := Some(newSlab);
      freeList := Span(0, size);
      SpanIsThreaded(blocks, 0, size);
    }

    /** Appends a slab whose blocks are threaded in address order. */
    method AllocateSlab(slabSize: nat) returns (firstInSlab: nat)
      requires slabSize >= 1
      modifies this`blocks
      ensures firstInSlab == |old(blocks)|
      ensures |blocks| == firstInSlab + slabSize && old(blocks) <= blocks
      ensures FreshSlab(blocks, firstInSlab)
    {
      firstInSlab := |blocks|;
      blocks := blocks + seq(slabSize, _ => Free(None));
      var indexOfLastBlock := slabSize - 1;
      for i := 0 to indexOfLastBlock
        invariant |blocks| == firstInSlab + slabSize
        invariant old(blocks) <= blocks
        invariant forall k :: firstInSlab <= k < firstInSlab + i ==> blocks[k] == Free(Some(k + 1))
        invariant forall k :: firstInSlab + i <= k < |blocks| ==> blocks[k] == Free(None)
      {
        blocks := blocks[firstInSlab + i := Free(Some(firstInSlab + i + 1))];
      }
      blocks := blocks[firstInSlab + indexOfLastBlock := Free(None)];
    }

    /** Grows the pool when, and only when, every block is live. */
    method Grow()
      requires Valid() && firstFree.None?
      modifies this
      ensures Valid() && firstFree.Some?
      ensures old(blocks) <= blocks && |blocks| == 2 * |old(blocks)|
      ensures forall k :: 0 <= k < |old(blocks)| ==> old(blocks)[k].Live?
      ensures forall k :: |old(blocks)| <= k < |blocks| ==> blocks[k].Free?
      ensures |slabs| == |old(slabs)| + 1 && currentlyAllocated == old(currentlyAllocated)
    {
      hide Threaded, FreshSlab;
      ghost var n := totalElements;
      AllLiveWhenExhausted(blocks, firstFree, freeList);
      var newSlab := AllocateSlab(totalElements);
      slabs := slabs + [newSlab];
      firstFree := Some(newSlab);
      totalElements := totalElements * 2;
      freeList := Span(n, 2 * n);
      SpanIsThreaded(blocks, n, 2 * n);
    }

    method Allocate(id: OrderId, quantity: int, lifetime: RestingLifetime, side: Side) returns (ret: nat)
      requires Valid()
      modifies this
      ensures Valid()
      ensures Placed(old(blocks), blocks, ret, RestingOrder(None, None, null, id, quantity, lifetime, side))
      ensures currentlyAllocated == old(currentlyAllocated) + 1
      ensures |slabs| == |old(slabs)| + (if old(firstFree).None? then 1 else 0)
      ensures GrewOnDemand(initial, |old(slabs)|, |slabs|, currentlyAllocated)
    {
      if firstFree.None? {
        Grow();
      }
      ret := TakeFirstFree(RestingOrder(None, None, null, id, quantity, lifetime, side));
    }

    method TakeFirstFree(order: RestingOrder) returns (ret: nat)
      requires Valid() && firstFree.Some?
      modifies this
      ensures Valid()
      ensures ret < |old(blocks)| && old(blocks)[ret].Free?
      ensures blocks == old(blocks)[ret := Live(order)]
      ensures currentlyAllocated == old(currentlyAllocated) + 1
      ensures slabs == old(slabs)
    {
      hide Threaded;
      FirstTaken(blocks, firstFree, freeList, order);
      ret := firstFree.value;
      firstFree := blocks[ret].next;
      currentlyAllocated := currentlyAllocated + 1;
      blocks := blocks[ret := Live(order)];
      freeList := freeList[1..];
    }

    /** Hands a block back; its memory is overwritten by the free-list link. */
    method Deallocate(order: nat)
      requires Valid() && IsLive(blocks, order)
      modifies this
      ensures Valid()
      ensures blocks == old(blocks)[order := Free(old(firstFree))] && firstFree == Some(order)
      ensures currentlyAllocated == old(currentlyAllocated) - 1
      ensures slabs == old(slabs)
    {
      hide Threaded;
      BlockReturned(blocks, firstFree, freeList, order);
      blocks := blocks[order := Free(firstFree)];
      firstFree := Some(order);
      currentlyAllocated := currentlyAllocated - 1;
      freeList := [order] + freeList;
    }
  }

  lemma FirstTaken(blocks: Blocks, first: Pointer, freeList: seq<nat>, order: RestingOrder)
    requires Threaded(blocks, first, freeList) && first.Some?
    ensures freeList != [] && first.value == freeList[0] && first.value < |blocks| && blocks[first.value].Free?
    ensures Threaded(blocks[first.value := Live(order)], blocks[first.value].next, freeList[1..])
  {
    assert FreeAt(blocks, freeList, 0);
    var after, rest := blocks[first.value := Live(order)], freeList[1..];
    assert freeList == [first.value] + rest;
    forall i | 0 <= i < |rest| ensures FreeAt(after, rest, i) {
      assert FreeAt(blocks, freeList, i + 1);
    }
  }

  lemma BlockReturned(blocks: Blocks, first: Pointer, freeList: seq<nat>, k: nat)
    requires Threaded(blocks, first, freeList) && IsLive(blocks, k)
    ensures |freeList| < |blocks|
    ensures Threaded(blocks[k := Free(first)], Some(k), [k] + freeList)
  {
    FreeAndLivePartition(blocks, first, freeList);
    assert k in LiveBlocks(blocks);
    var after, longer := blocks[k := Free(first)], [k] + freeList;
    forall i | 0 <= i < |longer| ensures FreeAt(after, longer, i) {
      if i > 0 { assert FreeAt(blocks, freeList, i - 1); }
    }
    assert longer[0] == k && forall i :: 0 <= i < |freeList| ==> longer[i + 1] == freeList[i];
  }

  lemma AllLiveWhenExhausted(blocks: Blocks, first: Pointer, freeList: seq<nat>)
    requires Threaded(blocks, first, freeList) && first.None?
    ensures freeList == [] && (forall k :: 0 <= k < |blocks| ==> blocks[k].Live?)
  {
  }

  lemma SpanIsThreaded(blocks: Blocks, lo: nat, hi: nat)
    requires lo < hi == |blocks|
    requires forall k :: 0 <= k < lo ==> blocks[k].Live?
    requires FreshSlab(blocks, lo)
    ensures Threaded(blocks, Some(lo), Span(lo, hi))
    ensures forall k :: lo <= k < hi ==> blocks[k].Free?
  {
    var s := Span(lo, hi);
    forall k | 0 <= k < |blocks| && blocks[k].Free? ensures k in s {
      assert s[k - lo] == k;
    }
    forall i | 0 <= i < |s| ensures FreeAt(blocks, s, i) {
      assert s[i] == lo + i;
    }
  }

  lemma {:induction false} CapacityIsPower(initial: nat, n: nat)
    ensures Capacity(initial, n) == initial * Pow2(n)
  {
    if n > 0 { CapacityIsPower(initial, n - 1); }
  }

  /** Free list and live set split all blocks of all slabs. */
  lemma FreeAndLivePartition(blocks: Blocks, first: Pointer, freeList: seq<nat>)
    requires Threaded(blocks, first, freeList)
    ensures |LiveBlocks(blocks)| + |freeList| == |blocks|
    ensures forall k: nat :: k < |blocks| ==> (k in freeList <==> k !in LiveBlocks(blocks))
  {
    forall k | k in freeList ensures k < |blocks| && blocks[k].Free? {
      var i :| 0 <= i < |freeList| && freeList[i] == k;
      assert FreeAt(blocks, freeList, i);
    }
    var all := Span(0, |blocks|);
    DistinctHasSize(freeList);
    DistinctHasSize(all);
    forall k | k in LiveBlocks(blocks) + Elements(freeList) ensures k in Elements(all) {
      assert all[k] == k;
    }
    assert LiveBlocks(blocks) + Elements(freeList) == Elements(all);
    assert LiveBlocks(blocks) !! Elements(freeList);
  }

  function Elements(chain: seq<nat>): set<nat> {
    set k | k in chain
  }

  lemma DistinctHasSize(chain: seq<nat>)
    requires Distinct(chain)
    ensures |Elements(chain)| == |chain|
  {
    if chain != [] {
      var last := |chain| - 1;
      DistinctHasSize(chain[..last]);
      assert chain == chain[..last] + [chain[last]];
      assert Elements(chain) == Elements(chain[..last]) + {chain[last]};
      assert chain[last] !in chain[..last];
    }
  }
}
