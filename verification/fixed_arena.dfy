/** The fixed-block arena of conpty-proxy/arena.c: every new block has the
    default capacity, or the request's size when that is larger; there is
    no growth and no cap. */
module FixedArena {
  import opened Common
  import opened Arena

  /** `arena_allocator_t` as arena.h declares it: the block list and the default block size. */
  datatype Allocator = Allocator(blocks: seq<Block>, defaultBlockSize: nat)

  datatype Grant = Grant(arena: Allocator, ptr: Ptr)

  /** `arena_create`: an empty block list; `None` when the record cannot be obtained. */
  function Create(defaultBlockSize: nat, osGrants: bool): (r: Option<Allocator>)
    ensures r.Some? <==> osGrants
    ensures r.Some? ==> r.value.blocks == [] && Committed(r.value.blocks) == 0
    ensures r.Some? ==> r.value.defaultBlockSize == defaultBlockSize
  {
    if osGrants then Some(Allocator([], defaultBlockSize)) else None
  }

  /** Capacity of the block opened for an `n`-byte (already rounded) request. */
  function BlockSize(defaultBlockSize: nat, n: nat): (r: nat)
    ensures r >= n && r >= defaultBlockSize
    ensures r == n || r == defaultBlockSize
  {
    if n > defaultBlockSize then n else defaultBlockSize
  }

  /** `arena_alloc`. */
  function Alloc(a: Allocator, size: nat, osGrants: bool): (r: Option<Grant>)
    ensures r.None? <==> !Fits(a.blocks, Align8(size)) && !osGrants
    ensures Fits(a.blocks, Align8(size)) ==>
              && r.Some? && |r.value.arena.blocks| == |a.blocks|
              && r.value.ptr == Ptr(|a.blocks| - 1, Head(a.blocks).used)
              && Head(r.value.arena.blocks) == Block(Head(a.blocks).size, Head(a.blocks).used + Align8(size))
    ensures r.Some? && !Fits(a.blocks, Align8(size)) ==>
              && |r.value.arena.blocks| == |a.blocks| + 1
              && r.value.arena.blocks[..|a.blocks|] == a.blocks
              && Head(r.value.arena.blocks) == Block(Max(Align8(size), a.defaultBlockSize), Align8(size))
              && r.value.ptr == Ptr(|a.blocks|, 0)
    ensures r.Some? ==>
              && r.value.arena.defaultBlockSize == a.defaultBlockSize
              && r.value.ptr.block < |r.value.arena.blocks|
              && r.value.ptr.offset + Align8(size) == r.value.arena.blocks[r.value.ptr.block].used
              && r.value.arena.blocks[r.value.ptr.block].used <= r.value.arena.blocks[r.value.ptr.block].size
              && (forall i :: 0 <= i < |a.blocks| && i != r.value.ptr.block ==> r.value.arena.blocks[i] == a.blocks[i])
    ensures r.Some? && WellFormed(a.blocks) ==>
              WellFormed(r.value.arena.blocks) && Aligned(r.value.ptr.offset)
  {
    var n := Align8(size);
    match Place(a.blocks, n, BlockSize(a.defaultBlockSize, n), osGrants)
    case None => None
    case Some(p) => Some(Grant(Allocator(p.blocks, a.defaultBlockSize), p.ptr))
  }

  /** One allocation next to spans already handed out: the new span is
      disjoint from all of them, and the bytes in use grow by exactly the
      rounded request. */
  lemma AllocDisjoint(a: Allocator, issued: seq<Span>, size: nat, osGrants: bool)
    requires Covered(a.blocks, issued)
    requires Alloc(a, size, osGrants).Some?
    ensures var g := Alloc(a, size, osGrants).value;
            && (forall i :: 0 <= i < |issued| ==> Disjoint(issued[i], Span(g.ptr, Align8(size))))
            && Covered(g.arena.blocks, issued + [Span(g.ptr, Align8(size))])
            && UsedTotal(g.arena.blocks) == UsedTotal(a.blocks) + Align8(size)
  {
    var n := Align8(size);
    PlaceDisjoint(a.blocks, issued, n, BlockSize(a.defaultBlockSize, n), osGrants);
    PlaceAccounting(a.blocks, n, BlockSize(a.defaultBlockSize, n), osGrants);
  }

  /** `arena_reset`: cursors rewound, the block list otherwise unchanged. */
  function Reset(a: Allocator): (r: Allocator)
    ensures |r.blocks| == |a.blocks| && r.defaultBlockSize == a.defaultBlockSize
    ensures forall i :: 0 <= i < |r.blocks| ==> r.blocks[i].size == a.blocks[i].size && r.blocks[i].used == 0
    ensures WellFormed(r.blocks) && Committed(r.blocks) == Committed(a.blocks) && UsedTotal(r.blocks) == 0
  {
    Allocator(Rewind(a.blocks), a.defaultBlockSize)
  }

  /** `arena_destroy`: every block once, head first, then the allocator. */
  method Destroy(a: Allocator) returns (log: seq<Release>)
    ensures |log| == |a.blocks| + 1 && log[|a.blocks|] == AllocatorReleased
    ensures forall i :: 0 <= i < |a.blocks| ==> log[i] == BlockReleased(|a.blocks| - 1 - i)
    ensures forall b :: 0 <= b < |a.blocks| ==> BlockReleased(b) in log
    ensures forall i, j :: 0 <= i < j < |log| ==> log[i] != log[j]
  {
    log := ReleaseAll(a.blocks);
  }
}
