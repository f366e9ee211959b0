/** The growing arena of arena.c: each new block doubles the previous
    block's capacity, capped at 16 MiB unless the request itself is larger. */
module GrowthArena {
  import opened Common
  import opened Arena

  /** `ARENA_MAX_BLOCK_SIZE`. */
  const MaxBlockSize: nat := 16 * 1024 * 1024

  /** `arena_allocator_t` with the fields arena.c uses: the block list, the
      configured default block size, and the capacity of the block opened
      most recently (the growth base). */
  datatype Allocator = Allocator(blocks: seq<Block>, defaultBlockSize: nat, lastBlockSize: nat)

  /** A successful `arena_alloc`: the updated allocator and the returned address. */
  datatype Grant = Grant(arena: Allocator, ptr: Ptr)

  /** `arena_create`: no block is committed until the first allocation, and
      growth starts from the default size. `None` when the allocator record
      itself cannot be obtained. */
  function Create(defaultBlockSize: nat, osGrants: bool): (r: Option<Allocator>)
    ensures r.Some? <==> osGrants
    ensures r.Some? ==> r.value.blocks == [] && Committed(r.value.blocks) == 0
    ensures r.Some? ==> r.value.defaultBlockSize == r.value.lastBlockSize == defaultBlockSize
  {
    if osGrants then Some(Allocator([], defaultBlockSize, defaultBlockSize)) else None
  }

  /** Capacity of the block opened for an `n`-byte (already rounded) request. */
  function NextBlockSize(lastBlockSize: nat, n: nat): (r: nat)
    ensures r == Max(n, Min(2 * lastBlockSize, MaxBlockSize))
    ensures r >= n
    ensures r <= Max(n, MaxBlockSize)
  {
    var next := lastBlockSize * 2;
    var blockSize := if n > next then n else next;
    if blockSize > MaxBlockSize then (if n > MaxBlockSize then n else MaxBlockSize) else blockSize
  }

  /** `arena_alloc`. */
  function Alloc(a: Allocator, size: nat, osGrants: bool): (r: Option<Grant>)
    ensures r.None? <==> !Fits(a.blocks, Align8(size)) && !osGrants
    ensures Fits(a.blocks, Align8(size)) ==>
              && r.Some? && |r.value.arena.blocks| == |a.blocks| && r.value.arena.lastBlockSize == a.lastBlockSize
              && r.value.ptr == Ptr(|a.blocks| - 1, Head(a.blocks).used)
              && Head(r.value.arena.blocks) == Block(Head(a.blocks).size, Head(a.blocks).used + Align8(size))
    ensures r.Some? && !Fits(a.blocks, Align8(size)) ==>
              && |r.value.arena.blocks| == |a.blocks| + 1
              && r.value.arena.blocks[..|a.blocks|] == a.blocks
              && Head(r.value.arena.blocks) == Block(NextBlockSize(a.lastBlockSize, Align8(size)), Align8(size))
              && r.value.arena.lastBlockSize == Head(r.value.arena.blocks).size
              && r.value.ptr == Ptr(|a.blocks|, 0)
    ensures r.Some? ==>
              && r.value.arena.defaultBlockSize == a.defaultBlockSize
              && r.value.ptr.block < |r.value.arena.blocks|
              && r.value.ptr.offset + Align8(size) == r.value.arena.blocks[r.value.ptr.block].used
              && r.value.arena.blocks[r.value.ptr.block].used <= r.value.arena.blocks[r.value.ptr.block].size
              && (forall i :: 0 <= i < |a.blocks| && i != r.value.ptr.block ==> r.value.arena.blocks[i] == a.blocks[i])
    ensures r.Some? && WellFormed(a.blocks) ==>
              WellFormed(r.value.arena.blocks) && Aligned(r.value.ptr.offset)
  {
    var n := Align8(size);
    var needsBlock := !Fits(a.blocks, n);
    var capacity := NextBlockSize(a.lastBlockSize, n);
    match Place(a.blocks, n, capacity, osGrants)
    case None => None
    case Some(p) =>
      var last := if needsBlock then capacity else a.lastBlockSize;
      Some(Grant(Allocator(p.blocks, a.defaultBlockSize, last), p.ptr))
  }

  function SpanTotal(spans: seq<Span>): nat {
    if |spans| == 0 then 0 else SpanTotal(spans[..|spans| - 1]) + spans[|spans| - 1].len
  }

  /** The allocator after one request of a run: `arena_alloc`'s result
      when it served the request, otherwise unchanged. */
  function Step(c: Allocator, size: nat, osGrants: bool): Allocator {
    match Alloc(c, size, osGrants)
    case None => c
    case Some(g) => g.arena
  }

  /** Where `arena_alloc` places a rounded request of `n` bytes: at the
      head's cursor when the head can take it, otherwise at the start of a
      new block. */
  function Returned(c: Allocator, n: nat): Ptr {
    if Fits(c.blocks, n) then Ptr(|c.blocks| - 1, Head(c.blocks).used) else Ptr(|c.blocks|, 0)
  }

  /** `before[i]` is the allocator request `i` met: the run starts at `a`,
      each request moves it on by `Step`, and `b` is where the first `k`
      requests left it. */
  predicate Replayed(a: Allocator, sizes: seq<nat>, grants: seq<bool>, k: nat, b: Allocator, before: seq<Allocator>)
    requires |grants| == |sizes| && k <= |sizes|
  {
    && |before| == k
    && (k == 0 ==> b == a)
    && (k > 0 ==> before[0] == a && b == Step(before[k - 1], sizes[k - 1], grants[k - 1]))
    && (forall i :: 0 <= i < k - 1 ==> before[i + 1] == Step(before[i], sizes[i], grants[i]))
  }

  /** Which of the first `k` requests got memory: `served` lists, in order,
      exactly those that fit the head they met or were granted a block, and
      `spans[j]` is where request `served[j]` was placed, with its rounded size. */
  predicate Record(sizes: seq<nat>, grants: seq<bool>, k: nat, spans: seq<Span>, served: seq<nat>, before: seq<Allocator>)
    requires |grants| == |sizes| && k <= |sizes|
  {
    && |before| == k
    && |served| == |spans| <= k
    && (forall j :: 0 <= j < |served| ==> served[j] < k)
    && (forall j, i :: 0 <= j < i < |served| ==> served[j] < served[i])
    && (forall i :: 0 <= i < k ==> (i in served <==> grants[i] || Fits(before[i].blocks, Align8(sizes[i]))))
    && (forall j :: 0 <= j < |served| ==>
          spans[j] == Span(Returned(before[served[j]], Align8(sizes[served[j]])), Align8(sizes[served[j]])))
    && ((forall i :: 0 <= i < k ==> grants[i]) ==> |spans| == k)
  }

  /** The memory side of a run: the spans handed out are aligned, lie
      below their blocks' cursors, overlap nothing else handed out, and
      account for every byte in use beyond what `a` already had. */
  predicate Space(a: Allocator, issued: seq<Span>, b: Allocator, spans: seq<Span>) {
    && WellFormed(b.blocks) && b.defaultBlockSize == a.defaultBlockSize
    && (forall i :: 0 <= i < |spans| ==> Aligned(spans[i].ptr.offset) && Aligned(spans[i].len))
    && Covered(b.blocks, issued + spans) && PairwiseDisjoint(issued + spans)
    && UsedTotal(b.blocks) == UsedTotal(a.blocks) + SpanTotal(spans)
  }

  /** What holds after the first `k` requests of a run. */
  predicate SeriesSoFar(a: Allocator, issued: seq<Span>, sizes: seq<nat>, grants: seq<bool>, k: nat,
                        b: Allocator, spans: seq<Span>, served: seq<nat>, before: seq<Allocator>)
    requires |grants| == |sizes| && k <= |sizes|
  {
    Replayed(a, sizes, grants, k, b, before) && Record(sizes, grants, k, spans, served, before) && Space(a, issued, b, spans)
  }

  /** One more request moves the replayed states on by `Step`. */
  lemma ReplayStep(a: Allocator, sizes: seq<nat>, grants: seq<bool>, k: nat, b: Allocator, before: seq<Allocator>)
    requires |grants| == |sizes| && k < |sizes|
    requires Replayed(a, sizes, grants, k, b, before)
    ensures Replayed(a, sizes, grants, k + 1, Step(b, sizes[k], grants[k]), before + [b])
  {
    var before' := before + [b];
    assert forall i :: 0 <= i < k ==> before'[i] == before[i];
    assert before'[k] == b;
  }

  /** Request `k`, met at `b`, joins the record exactly when it was served. */
  lemma RecordStep(sizes: seq<nat>, grants: seq<bool>, k: nat, spans: seq<Span>, served: seq<nat>,
                   before: seq<Allocator>, b: Allocator, got: bool)
    requires |grants| == |sizes| && k < |sizes|
    requires Record(sizes, grants, k, spans, served, before)
    requires got <==> grants[k] || Fits(b.blocks, Align8(sizes[k]))
    ensures Record(sizes, grants, k + 1,
                   if got then spans + [Span(Returned(b, Align8(sizes[k])), Align8(sizes[k]))] else spans,
                   if got then served + [k] else served, before + [b])
  {
    if got {
      RecordServed(sizes, grants, k, spans, served, before, b);
    } else {
      RecordSkipped(sizes, grants, k, spans, served, before, b);
    }
  }

  /** A served request is appended to the record, at the place `arena_alloc` returned. */
  lemma RecordServed(sizes: seq<nat>, grants: seq<bool>, k: nat, spans: seq<Span>, served: seq<nat>,
                     before: seq<Allocator>, b: Allocator)
    requires |grants| == |sizes| && k < |sizes|
    requires Record(sizes, grants, k, spans, served, before)
    requires grants[k] || Fits(b.blocks, Align8(sizes[k]))
    ensures Record(sizes, grants, k + 1, spans + [Span(Returned(b, Align8(sizes[k])), Align8(sizes[k]))],
                   served + [k], before + [b])
  {
    var before', served' := before + [b], served + [k];
    var spans' := spans + [Span(Returned(b, Align8(sizes[k])), Align8(sizes[k]))];
    assert forall i :: 0 <= i < k ==> before'[i] == before[i];
    assert before'[k] == b && served'[|served|] == k;
    assert forall j :: 0 <= j < |served| ==> served'[j] == served[j] && spans'[j] == spans[j];
    assert forall i :: 0 <= i < k + 1 ==> (i in served' <==> grants[i] || Fits(before'[i].blocks, Align8(sizes[i]))) by {
      assert forall i :: 0 <= i < k ==> (i in served' <==> i in served);
    }
  }

  /** An unserved request leaves the record as it was. */
  lemma RecordSkipped(sizes: seq<nat>, grants: seq<bool>, k: nat, spans: seq<Span>, served: seq<nat>,
                      before: seq<Allocator>, b: Allocator)
    requires |grants| == |sizes| && k < |sizes|
    requires Record(sizes, grants, k, spans, served, before)
    requires !grants[k] && !Fits(b.blocks, Align8(sizes[k]))
    ensures Record(sizes, grants, k + 1, spans, served, before + [b])
  {
    var before' := before + [b];
    assert forall i :: 0 <= i < k ==> before'[i] == before[i];
    assert before'[k] == b && k !in served;
    assert forall j :: 0 <= j < |served| ==> before'[served[j]] == before[served[j]];
  }

  /** A served request keeps the memory side of a run intact. */
  lemma SpaceStep(a: Allocator, issued: seq<Span>, b: Allocator, spans: seq<Span>, size: nat, osGrants: bool)
    requires Space(a, issued, b, spans)
    requires Alloc(b, size, osGrants).Some?
    ensures Space(a, issued, Alloc(b, size, osGrants).value.arena,
                  spans + [Span(Alloc(b, size, osGrants).value.ptr, Align8(size))])
  {
    var n := Align8(size);
    var capacity := NextBlockSize(b.lastBlockSize, n);
    var g := Alloc(b, size, osGrants).value;
    var s := Span(g.ptr, n);
    var spans' := spans + [s];
    assert Covered(g.arena.blocks, issued + spans') && PairwiseDisjoint(issued + spans') by {
      PlaceDisjoint(b.blocks, issued + spans, n, capacity, osGrants);
      assert (issued + spans) + [s] == issued + spans';
    }
    assert UsedTotal(g.arena.blocks) == UsedTotal(a.blocks) + SpanTotal(spans') by {
      PlaceAccounting(b.blocks, n, capacity, osGrants);
      assert spans'[..|spans|] == spans;
    }
  }

  /** Request `k` of a run: served when the head fits it or the OS grants a block. */
  method AllocNext(a: Allocator, issued: seq<Span>, sizes: seq<nat>, grants: seq<bool>, k: nat,
                   b: Allocator, spans: seq<Span>, served: seq<nat>, before: seq<Allocator>)
    returns (b': Allocator, spans': seq<Span>, served': seq<nat>, before': seq<Allocator>)
    requires |grants| == |sizes| && k < |sizes|
    requires SeriesSoFar(a, issued, sizes, grants, k, b, spans, served, before)
    ensures SeriesSoFar(a, issued, sizes, grants, k + 1, b', spans', served', before')
  {
    before' := before + [b];
    ReplayStep(a, sizes, grants, k, b, before);
    var n := Align8(sizes[k]);
    var r := Alloc(b, sizes[k], grants[k]);
    RecordStep(sizes, grants, k, spans, served, before, b, r.Some?);
    if r.Some? {
      assert r.value.ptr == Returned(b, n);
      SpaceStep(a, issued, b, spans, sizes[k], grants[k]);
      b', spans', served' := r.value.arena, spans + [Span(r.value.ptr, n)], served + [k];
    } else {
      b', spans', served' := b, spans, served;
    }
  }

  /** Before the first request nothing has been served. */
  lemma SeriesStart(a: Allocator, issued: seq<Span>, sizes: seq<nat>, grants: seq<bool>)
    requires WellFormed(a.blocks) && Covered(a.blocks, issued) && PairwiseDisjoint(issued)
    requires |grants| == |sizes|
    ensures SeriesSoFar(a, issued, sizes, grants, 0, a, [], [], [])
  {
    assert issued + [] == issued;
  }

  /** The replay of a whole run, spelled out. */
  lemma ReplayedDone(a: Allocator, sizes: seq<nat>, grants: seq<bool>, b: Allocator, before: seq<Allocator>)
    requires |grants| == |sizes| && Replayed(a, sizes, grants, |sizes|, b, before)
    ensures |before| == |sizes| && (|sizes| > 0 ==> before[0] == a)
    ensures forall i :: 0 <= i < |before| - 1 && i < |sizes| ==> before[i + 1] == Step(before[i], sizes[i], grants[i])
    ensures |sizes| == 0 ==> b == a
    ensures |sizes| > 0 ==> b == Step(before[|sizes| - 1], sizes[|sizes| - 1], grants[|sizes| - 1])
  {
  }

  /** The record of a whole run, spelled out. */
  lemma RecordDone(sizes: seq<nat>, grants: seq<bool>, spans: seq<Span>, served: seq<nat>, before: seq<Allocator>)
    requires |grants| == |sizes| && Record(sizes, grants, |sizes|, spans, served, before)
    ensures |before| == |sizes|
    ensures |served| == |spans| <= |sizes|
    ensures forall j :: 0 <= j < |served| ==> served[j] < |sizes|
    ensures forall j, k :: 0 <= j < k < |served| ==> served[j] < served[k]
    ensures forall k :: 0 <= k < |sizes| && k < |before| ==>
              (k in served <==> grants[k] || Fits(before[k].blocks, Align8(sizes[k])))
    ensures forall j :: 0 <= j < |served| ==>
              && j < |spans| && served[j] < |sizes| && served[j] < |before|
              && spans[j].ptr == Returned(before[served[j]], Align8(sizes[served[j]]))
              && spans[j].len == Align8(sizes[served[j]]) && spans[j].len >= sizes[served[j]]
    ensures (forall k :: 0 <= k < |grants| ==> grants[k]) ==> |spans| == |sizes|
  {
  }

  /** The memory side of a whole run, spelled out. */
  lemma SpaceDone(a: Allocator, issued: seq<Span>, b: Allocator, spans: seq<Span>)
    requires Space(a, issued, b, spans)
    ensures WellFormed(b.blocks) && b.defaultBlockSize == a.defaultBlockSize
    ensures forall i :: 0 <= i < |spans| ==> Aligned(spans[i].ptr.offset) && Aligned(spans[i].len)
    ensures Covered(b.blocks, issued + spans) && PairwiseDisjoint(issued + spans)
    ensures UsedTotal(b.blocks) == UsedTotal(a.blocks) + SpanTotal(spans)
    ensures UsedTotal(b.blocks) <= Committed(b.blocks)
  {
    CommittedCoversUsed(b.blocks);
  }

  /** The requests of a run from `k` on, met with the allocator `b`. */
  method AllocFrom(a: Allocator, issued: seq<Span>, sizes: seq<nat>, grants: seq<bool>, k: nat,
                   b: Allocator, spans: seq<Span>, served: seq<nat>, before: seq<Allocator>)
    returns (b': Allocator, spans': seq<Span>, served': seq<nat>, before': seq<Allocator>)
    requires |grants| == |sizes| && k <= |sizes|
    requires SeriesSoFar(a, issued, sizes, grants, k, b, spans, served, before)
    ensures SeriesSoFar(a, issued, sizes, grants, |sizes|, b', spans', served', before')
    decreases |sizes| - k
  {
    if k == |sizes| {
      b', spans', served', before' := b, spans, served, before;
    } else {
      var b1, spans1, served1, before1 := AllocNext(a, issued, sizes, grants, k, b, spans, served, before);
      b', spans', served', before' := AllocFrom(a, issued, sizes, grants, k + 1, b1, spans1, served1, before1);
    }
  }

  /** A run of `arena_alloc` calls (the OS's answer for each in `grants`)
      after `issued` spans are already out. `before[k]` is the allocator
      request `k` met. A request is served exactly when `arena_alloc`
      serves it from there, so it goes unserved only when it did not fit
      the head and the OS refused a block. `served` lists, in order, the
      requests that got memory, and `spans[j]` is the address `arena_alloc`
      returned for request `served[j]` with its rounded size, at least what
      was asked. Every span is aligned, lies below its block's cursor and
      overlaps no other span, and the bytes in use grow by exactly what was
      served. */
  method AllocSeries(a: Allocator, issued: seq<Span>, sizes: seq<nat>, grants: seq<bool>)
    returns (b: Allocator, spans: seq<Span>, served: seq<nat>, before: seq<Allocator>)
    requires WellFormed(a.blocks) && Covered(a.blocks, issued) && PairwiseDisjoint(issued)
    requires |grants| == |sizes|
    ensures WellFormed(b.blocks) && b.defaultBlockSize == a.defaultBlockSize
    ensures |before| == |sizes| && (|sizes| > 0 ==> before[0] == a)
    ensures forall i :: 0 <= i < |before| - 1 && i < |sizes| ==> before[i + 1] == Step(before[i], sizes[i], grants[i])
    ensures |sizes| == 0 ==> b == a
    ensures |sizes| > 0 && |before| == |sizes| ==> b == Step(before[|sizes| - 1], sizes[|sizes| - 1], grants[|sizes| - 1])
    ensures |served| == |spans| <= |sizes|
    ensures forall j :: 0 <= j < |served| ==> served[j] < |sizes|
    ensures forall j, k :: 0 <= j < k < |served| ==> served[j] < served[k]
    ensures forall k :: 0 <= k < |sizes| && k < |before| ==>
              (k in served <==> grants[k] || Fits(before[k].blocks, Align8(sizes[k])))
    ensures forall j :: 0 <= j < |served| ==>
              && j < |spans| && served[j] < |sizes| && served[j] < |before|
              && spans[j].ptr == Returned(before[served[j]], Align8(sizes[served[j]]))
              && spans[j].len == Align8(sizes[served[j]]) && spans[j].len >= sizes[served[j]]
    ensures (forall k :: 0 <= k < |grants| ==> grants[k]) ==> |spans| == |sizes|
    ensures forall i :: 0 <= i < |spans| ==> Aligned(spans[i].ptr.offset) && Aligned(spans[i].len)
    ensures Covered(b.blocks, issued + spans) && PairwiseDisjoint(issued + spans)
    ensures UsedTotal(b.blocks) == UsedTotal(a.blocks) + SpanTotal(spans)
    ensures UsedTotal(b.blocks) <= Committed(b.blocks)
  {
    SeriesStart(a, issued, sizes, grants);
    b, spans, served, before := AllocFrom(a, issued, sizes, grants, 0, a, [], [], []);
    ReplayedDone(a, sizes, grants, b, before);
    RecordDone(sizes, grants, spans, served, before);
    SpaceDone(a, issued, b, spans);
  }

  /** `arena_reset`: cursors rewound, blocks kept, growth base back to the default. */
  function Reset(a: Allocator): (r: Allocator)
    ensures |r.blocks| == |a.blocks|
    ensures forall i :: 0 <= i < |r.blocks| ==> r.blocks[i].size == a.blocks[i].size && r.blocks[i].used == 0
    ensures r.defaultBlockSize == a.defaultBlockSize && r.lastBlockSize == a.defaultBlockSize
    ensures WellFormed(r.blocks) && Committed(r.blocks) == Committed(a.blocks) && UsedTotal(r.blocks) == 0
  {
    Allocator(Rewind(a.blocks), a.defaultBlockSize, a.defaultBlockSize)
  }

  /** After a reset only the head block is reused: a request that does not
      fit in it opens a new block even when an older rewound block could
      hold it. */
  lemma ResetReusesOnlyHead(a: Allocator, size: nat)
    requires |a.blocks| >= 2
    requires Align8(size) > Head(a.blocks).size
    requires a.blocks[0].size >= Align8(size)
    ensures Alloc(Reset(a), size, true).Some?
    ensures |Alloc(Reset(a), size, true).value.arena.blocks| == |a.blocks| + 1
  {
  }

  /** `arena_destroy`: every block once, head first, then the allocator. */
  method Destroy(a: Allocator) returns (log: seq<Release>)
    ensures |log| == |a.blocks| + 1 && log[|a.blocks|] == AllocatorReleased
    ensures forall i :: 0 <= i < |a.blocks| ==> log[i] == BlockReleased(|a.blocks| - 1 - i)
    ensures forall b :: 0 <= b < |a.blocks| ==> BlockReleased(b) in log
    ensures forall i, j :: 0 <= i < j < |log| ==> log[i] != log[j]
  {
    log := ReleaseAll(a.blocks);
  }
}
