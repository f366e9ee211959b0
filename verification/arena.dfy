/** The block list shared by both bump-pointer arenas (arena.h).

    A block is its capacity and its bump cursor. The C code links blocks from
    the newest (`current`) to the oldest; here the list is kept oldest first,
    so the head block is the LAST element and a block's index never changes
    when a newer block is pushed. A returned pointer is a (block, offset) pair
    instead of a raw address. */
module Arena {
  import opened Common

  datatype Block = Block(size: nat, used: nat)

  /** An address inside the arena: block index (oldest is 0) and byte offset. */
  datatype Ptr = Ptr(block: nat, offset: nat)

  /** `len` bytes handed out starting at `ptr`. */
  datatype Span = Span(ptr: Ptr, len: nat)

  const Alignment: nat := 8

  predicate Aligned(n: nat) {
    n % Alignment == 0
  }

  /** The request rounding `(size + 7) & ~7`, over unbounded sizes: the
      smallest multiple of 8 that is not below the request. */
  function Align8(size: nat): (r: nat)
    ensures Aligned(r)
    ensures size <= r < size + Alignment
  {
    size + (Alignment - size % Alignment) % Alignment
  }

  /** Width of `size_t` on the 64-bit targets. */
  const SizeModulus: nat := 0x1_0000_0000_0000_0000

  /** `(size + 7) & ~7` evaluated in 64-bit `size_t`, as both arena files
      write it: the addition wraps before the mask is applied. */
  function Align8AsWritten(size: nat): (r: nat)
    requires size < SizeModulus
    ensures r < SizeModulus && Aligned(r)
    ensures size <= SizeModulus - Alignment ==> r == Align8(size)
  {
    var wrapped := (size + 7) % SizeModulus;
    wrapped - wrapped % Alignment
  }

  /** The largest requests round to 0 bytes: an allocation would succeed
      while reserving nothing of what was asked. */
  lemma Align8AsWrittenLosesRequest()
    ensures Align8AsWritten(SizeModulus - 1) == 0
    ensures Align8(SizeModulus - 1) >= SizeModulus - 1
  {
  }

  /** The allocator's `current` block. */
  function Head(blocks: seq<Block>): Block
    requires |blocks| > 0
  {
    blocks[|blocks| - 1]
  }

  /** The head block exists and can serve `n` more bytes without a new block. */
  predicate Fits(blocks: seq<Block>, n: nat) {
    |blocks| > 0 && Head(blocks).used + n <= Head(blocks).size
  }

  /** The fit check `used + size > size` as both arena files write it: the
      sum is taken in 64-bit `size_t`, so it can wrap below the capacity. */
  predicate FitsAsWritten(blocks: seq<Block>, n: nat) {
    |blocks| > 0 && (Head(blocks).used + n) % SizeModulus <= Head(blocks).size
  }

  /** Without a wrap, the check as written is `Fits`. */
  lemma FitsAsWrittenAgrees(blocks: seq<Block>, n: nat)
    requires |blocks| > 0 ==> Head(blocks).used + n < SizeModulus
    ensures FitsAsWritten(blocks, n) <==> Fits(blocks, n)
  {
  }

  /** A head block with 8 bytes in use and a request that rounds, as
      written, to 2^64 - 8: the wrapped sum is 0, so the request "fits" a
      64-byte block, and the bumped cursor wraps to 0, below the 8 bytes
      already handed out, so the next request overlaps them. */
  lemma FitCheckAsWrittenWraps()
    ensures var blocks := [Block(64, 8)];
            var n := Align8AsWritten(SizeModulus - 8);
            && n == SizeModulus - 8
            && FitsAsWritten(blocks, n) && !Fits(blocks, n)
            && (Head(blocks).used + n) % SizeModulus == 0 < Head(blocks).used
  {
  }

  /** Every cursor lies inside its block, on an 8-byte boundary. */
  predicate WellFormed(blocks: seq<Block>) {
    forall i :: 0 <= i < |blocks| ==> blocks[i].used <= blocks[i].size && Aligned(blocks[i].used)
  }

  /** Bytes handed out since creation or the last reset. */
  function UsedTotal(blocks: seq<Block>): nat {
    if |blocks| == 0 then 0 else UsedTotal(blocks[..|blocks| - 1]) + Head(blocks).used
  }

  /** Bytes of block capacity obtained from the OS. */
  function Committed(blocks: seq<Block>): nat {
    if |blocks| == 0 then 0 else Committed(blocks[..|blocks| - 1]) + Head(blocks).size
  }

  lemma {:induction false} CommittedCoversUsed(blocks: seq<Block>)
    requires WellFormed(blocks)
    ensures UsedTotal(blocks) <= Committed(blocks)
  {
    if |blocks| > 0 {
      var k := |blocks| - 1;
      assert WellFormed(blocks[..k]) by {
        forall i | 0 <= i < k ensures blocks[..k][i] == blocks[i] { }
      }
      CommittedCoversUsed(blocks[..k]);
    }
  }

  /** Result of serving one request: the new block list and the returned address. */
  datatype Placement = Placement(blocks: seq<Block>, ptr: Ptr)

  /** The common core of `arena_alloc`, after rounding the request to `n`:
      bump the head block when it has room, otherwise push a fresh block of
      `capacity` bytes; `None` when the OS refuses that block (`NULL`). */
  function Place(blocks: seq<Block>, n: nat, capacity: nat, osGrants: bool): (r: Option<Placement>)
    requires n <= capacity
    ensures r.None? <==> !Fits(blocks, n) && !osGrants
    ensures r.Some? && Fits(blocks, n) ==>
              |r.value.blocks| == |blocks| && r.value.ptr.block == |blocks| - 1
              && r.value.ptr.offset == Head(blocks).used
              && Head(r.value.blocks).size == Head(blocks).size
    ensures r.Some? && !Fits(blocks, n) ==>
              |r.value.blocks| == |blocks| + 1 && r.value.blocks[..|blocks|] == blocks && Head(r.value.blocks) == Block(capacity, n)
              && r.value.ptr == Ptr(|blocks|, 0)
    ensures r.Some? ==>
              && r.value.ptr.block < |r.value.blocks|
              && r.value.ptr.offset + n == r.value.blocks[r.value.ptr.block].used
              && r.value.blocks[r.value.ptr.block].used <= r.value.blocks[r.value.ptr.block].size
              && (forall i :: 0 <= i < |blocks| && i != r.value.ptr.block ==> r.value.blocks[i] == blocks[i])
    ensures r.Some? && WellFormed(blocks) && Aligned(n) ==>
              WellFormed(r.value.blocks) && Aligned(r.value.ptr.offset)
  {
    if Fits(blocks, n) then
      var k := |blocks| - 1;
      Some(Placement(blocks[k := Block(blocks[k].size, blocks[k].used + n)], Ptr(k, blocks[k].used)))
    else if !osGrants then
      None
    else
      Some(Placement(blocks + [Block(capacity, n)], Ptr(|blocks|, 0)))
  }

  /** A placement adds exactly the served bytes to the running total and
      never gives capacity back. */
  lemma PlaceAccounting(blocks: seq<Block>, n: nat, capacity: nat, osGrants: bool)
    requires n <= capacity
    requires Place(blocks, n, capacity, osGrants).Some?
    ensures UsedTotal(Place(blocks, n, capacity, osGrants).value.blocks) == UsedTotal(blocks) + n
    ensures Committed(Place(blocks, n, capacity, osGrants).value.blocks) >= Committed(blocks)
  {
    var r := Place(blocks, n, capacity, osGrants).value.blocks;
    if Fits(blocks, n) {
      var k := |blocks| - 1;
      assert r[..k] == blocks[..k];
    } else {
      assert r[..|blocks|] == blocks;
    }
  }

  /** The span lies below its block's cursor. */
  predicate Below(blocks: seq<Block>, s: Span) {
    s.ptr.block < |blocks| && s.ptr.offset + s.len <= blocks[s.ptr.block].used
  }

  /** Every span handed out since the last reset lies below its block's cursor. */
  predicate Covered(blocks: seq<Block>, spans: seq<Span>) {
    forall i :: 0 <= i < |spans| ==> Below(blocks, spans[i])
  }

  predicate Disjoint(x: Span, y: Span) {
    x.ptr.block != y.ptr.block || x.ptr.offset + x.len <= y.ptr.offset || y.ptr.offset + y.len <= x.ptr.offset
  }

  predicate PairwiseDisjoint(spans: seq<Span>) {
    forall i, j :: 0 <= i < j < |spans| ==> Disjoint(spans[i], spans[j])
  }

  /** A fresh placement overlaps nothing handed out before it, and the
      extended list of spans is again covered by the cursors. */
  lemma PlaceDisjoint(blocks: seq<Block>, spans: seq<Span>, n: nat, capacity: nat, osGrants: bool)
    requires n <= capacity
    requires Covered(blocks, spans)
    requires Place(blocks, n, capacity, osGrants).Some?
    ensures var p := Place(blocks, n, capacity, osGrants).value;
            && (forall i :: 0 <= i < |spans| ==> Disjoint(spans[i], Span(p.ptr, n)))
            && Covered(p.blocks, spans + [Span(p.ptr, n)])
  {
    var p := Place(blocks, n, capacity, osGrants).value;
    var grown := spans + [Span(p.ptr, n)];
    forall i | 0 <= i < |grown|
      ensures Below(p.blocks, grown[i])
    {
      if i < |spans| {
        assert Below(blocks, spans[i]);
      }
    }
  }

  /** `arena_reset`'s walk: every cursor back to zero, every capacity kept. */
  function Rewind(blocks: seq<Block>): (r: seq<Block>)
    ensures |r| == |blocks|
    ensures forall i :: 0 <= i < |r| ==> r[i].size == blocks[i].size && r[i].used == 0
    ensures WellFormed(r)
    ensures Committed(r) == Committed(blocks) && UsedTotal(r) == 0
  {
    if |blocks| == 0 then []
    else
      var k := |blocks| - 1;
      var prev := Rewind(blocks[..k]);
      var r := prev + [Block(blocks[k].size, 0)];
      assert r[..k] == prev;
      assert Head(r) == Block(blocks[k].size, 0) && Head(blocks) == blocks[k];
      assert forall i :: 0 <= i < k ==> r[i] == prev[i] && blocks[..k][i] == blocks[i];
      r
  }

  /** What `arena_destroy` hands back to the OS, in order. */
  datatype Release = BlockReleased(block: nat) | AllocatorReleased

  /** `arena_destroy`'s walk from the head block to the oldest, then the
      allocator record itself: every block released exactly once, the
      allocator last, and nothing else. */
  method ReleaseAll(blocks: seq<Block>) returns (log: seq<Release>)
    ensures |log| == |blocks| + 1
    ensures log[|blocks|] == AllocatorReleased
    ensures forall i :: 0 <= i < |blocks| ==> log[i] == BlockReleased(|blocks| - 1 - i)
    ensures forall b :: 0 <= b < |blocks| ==> BlockReleased(b) in log
    ensures forall i, j :: 0 <= i < j < |log| ==> log[i] != log[j]
  {
    log := [];
    var k := |blocks|;
    while k > 0
      invariant 0 <= k <= |blocks|
      invariant |log| == |blocks| - k
      invariant forall i :: 0 <= i < |log| ==> log[i] == BlockReleased(|blocks| - 1 - i)
    {
      k := k - 1;
      log := log + [BlockReleased(k)];
    }
    log := log + [AllocatorReleased];
    forall b | 0 <= b < |blocks|
      ensures BlockReleased(b) in log
    {
      assert log[|blocks| - 1 - b] == BlockReleased(b);
    }
  }
}
