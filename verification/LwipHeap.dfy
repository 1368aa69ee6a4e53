/**
 The first-fit heap that lwIP uses as its malloc (lab/net/lwip/core/mem.c), in the
 configuration protected by a semaphore only.

 `ram` is indexed by byte offset: `ram[p]` is the `struct mem` stored at offset `p`.
 Offsets that do not start a block hold stale headers and are never trusted.  The
 ghost field `blocks` is the set of offsets that do start a block, and `live` maps
 each allocated block to the number of bytes its owner asked for.
 */
module LwipHeap {
  import opened Options

  const MEM_ALIGNMENT := 4
  const SIZEOF_STRUCT_MEM := 12
  const MIN_SIZE_ALIGNED := 12
  // A header and the smallest payload: no block is smaller.
  const MIN_BLOCK := SIZEOF_STRUCT_MEM + MIN_SIZE_ALIGNED

  datatype Mem = Mem(next: int, prev: int, used: bool)

  // LWIP_MEM_ALIGN_SIZE followed by the MIN_SIZE_ALIGNED floor.
  function Padded(request: nat): (r: nat)
    ensures r >= request && r >= MIN_SIZE_ALIGNED && r % MEM_ALIGNMENT == 0
    ensures r < request + MEM_ALIGNMENT || r == MIN_SIZE_ALIGNED
  {
    var aligned := (request + MEM_ALIGNMENT - 1) / MEM_ALIGNMENT * MEM_ALIGNMENT;
    if aligned < MIN_SIZE_ALIGNED then MIN_SIZE_ALIGNED else aligned
  }

  // ------------------------------------------------------------------
  // The heap as a value
  // ------------------------------------------------------------------

  ghost predicate InBounds(size: int, blocks: set<int>) {
    && 0 in blocks
    && size in blocks
    && forall b :: b in blocks ==> 0 <= b <= size && b % MEM_ALIGNMENT == 0
  }

  // `b` is followed directly by another block, whose `prev` leads back to it.
  ghost predicate LinkedForward(ram: seq<Mem>, size: int, blocks: set<int>, b: int) {
    && 0 <= b < size < |ram|
    && var n := ram[b].next;
    && n in blocks
    && b + MIN_BLOCK <= n <= size
    && (n < size ==> ram[n].prev == b)
  }

  ghost predicate LinkedBackward(ram: seq<Mem>, size: int, blocks: set<int>, b: int) {
    && 0 < b < size < |ram|
    && var p := ram[b].prev;
    && p in blocks
    && 0 <= p < b
    && ram[p].next == b
  }

  ghost predicate Chained(ram: seq<Mem>, size: int, blocks: set<int>) {
    && (forall b {:trigger LinkedForward(ram, size, blocks, b)} ::
          b in blocks && b < size ==> LinkedForward(ram, size, blocks, b))
    && (forall b {:trigger LinkedBackward(ram, size, blocks, b)} ::
          b in blocks && 0 < b < size ==> LinkedBackward(ram, size, blocks, b))
  }

  // No block starts inside another.
  ghost predicate Ordered(ram: seq<Mem>, size: int, blocks: set<int>)
    requires InBounds(size, blocks) && size < |ram|
  {
    forall b, c :: b in blocks && c in blocks && b < c ==> ram[b].next <= c
  }

  // The blocks tile [0, size) and the links agree with them.  The sentinel at `size`
  // is marked used and points to itself; its `prev` is unconstrained.
  ghost predicate Tiled(ram: seq<Mem>, size: int, blocks: set<int>) {
    && MIN_BLOCK <= size
    && |ram| == size + 1
    && InBounds(size, blocks)
    && ram[0].prev == 0
    && ram[size].used && ram[size].next == size
    && Chained(ram, size, blocks)
    && Ordered(ram, size, blocks)
  }

  // Two neighbouring blocks are never both free, except possibly next to `hole`.
  ghost predicate PluggedBut(ram: seq<Mem>, size: int, blocks: set<int>, hole: int)
    requires Tiled(ram, size, blocks)
  {
    forall b {:trigger LinkedForward(ram, size, blocks, b)} ::
      b in blocks && b < size && b != hole && !ram[b].used
      ==> LinkedForward(ram, size, blocks, b) && (ram[b].next != hole ==> ram[ram[b].next].used)
  }

  // `lfree` is the lowest free block, or the sentinel when there is none.  While there
  // is a hole `lfree` may still name a block that is about to be merged into it.
  ghost predicate LowestFree(ram: seq<Mem>, size: int, blocks: set<int>, lfree: int, hole: int)
    requires Tiled(ram, size, blocks)
  {
    && lfree in blocks
    && (lfree == size || !ram[lfree].used)
    && (forall b :: b in blocks && !ram[b].used && b < lfree ==>
          && (b == hole || ram[b].next == hole)
          && (lfree == hole || (0 <= hole < size && lfree == ram[hole].next < size)))
  }

  // The allocated blocks are exactly the live ones, each still as large as requested.
  ghost predicate Honoured(ram: seq<Mem>, size: int, blocks: set<int>, live: map<int, nat>)
    requires Tiled(ram, size, blocks)
  {
    && (forall b :: b in live ==> b in blocks && b < size && ram[b].used)
    && (forall b :: b in blocks && b < size && ram[b].used ==> b in live)
    && (forall b :: b in live ==> b + SIZEOF_STRUCT_MEM + live[b] <= ram[b].next)
  }

  // Everything the allocator maintains; `hole` is -1 between calls.
  ghost predicate Sound(ram: seq<Mem>, size: int, blocks: set<int>, lfree: int, live: map<int, nat>, hole: int) {
    && Tiled(ram, size, blocks)
    && PluggedBut(ram, size, blocks, hole)
    && LowestFree(ram, size, blocks, lfree, hole)
    && Honoured(ram, size, blocks, live)
  }

  ghost predicate FreeAndFits(ram: seq<Mem>, size: int, blocks: set<int>, b: int, want: int)
    requires Tiled(ram, size, blocks)
  {
    b in blocks && b < size && !ram[b].used && ram[b].next - (b + SIZEOF_STRUCT_MEM) >= want
  }

  // ------------------------------------------------------------------
  // The tiling: every byte belongs to exactly one block
  // ------------------------------------------------------------------

  lemma {:induction false} EveryByteInABlock(ram: seq<Mem>, size: int, blocks: set<int>, x: int, from: int)
    returns (b: int)
    requires Tiled(ram, size, blocks)
    requires from in blocks && 0 <= from <= x < size
    ensures b in blocks && b <= x < ram[b].next <= size
    ensures forall c :: c in blocks && c < size && c <= x < ram[c].next ==> c == b
    decreases size - from
  {
    assert LinkedForward(ram, size, blocks, from);
    if x < ram[from].next {
      b := from;
    } else {
      b := EveryByteInABlock(ram, size, blocks, x, ram[from].next);
    }
  }

  // Payloads of different allocations never overlap, and none reaches a header.
  lemma LivePayloadsDisjoint(ram: seq<Mem>, size: int, blocks: set<int>, live: map<int, nat>, b: int, c: int)
    requires Tiled(ram, size, blocks) && Honoured(ram, size, blocks, live)
    requires b in live && c in blocks && b != c
    ensures b + SIZEOF_STRUCT_MEM + live[b] <= c || c + SIZEOF_STRUCT_MEM <= b
    ensures c in live ==>
              || b + SIZEOF_STRUCT_MEM + live[b] <= c + SIZEOF_STRUCT_MEM
              || c + SIZEOF_STRUCT_MEM + live[c] <= b + SIZEOF_STRUCT_MEM
  {
    if c < b {
      assert LinkedForward(ram, size, blocks, c);
    }
  }

  // ------------------------------------------------------------------
  // Headers in the heap itself
  // ------------------------------------------------------------------

  // In memory a header is three words of the heap; `heap` is indexed by byte offset, and
  // words start at multiples of four.
  function GetHeader(heap: seq<int>, p: nat): Mem
    requires p + SIZEOF_STRUCT_MEM <= |heap|
  {
    Mem(heap[p], heap[p + 4], heap[p + 8] != 0)
  }

  function PutHeader(heap: seq<int>, p: nat, h: Mem): (r: seq<int>)
    requires p + SIZEOF_STRUCT_MEM <= |heap|
    ensures |r| == |heap|
  {
    heap[p := h.next][p + 4 := h.prev][p + 8 := if h.used then 1 else 0]
  }

  // What `ram` says of the blocks is what is in the heap.
  ghost predicate InBand(heap: seq<int>, ram: seq<Mem>, size: int, blocks: set<int>) {
    && 0 <= size < |ram| && |heap| == size + SIZEOF_STRUCT_MEM && InBounds(size, blocks)
    && forall b :: b in blocks ==> GetHeader(heap, b) == ram[b]
  }

  // No two headers overlap.
  lemma HeadersApart(ram: seq<Mem>, size: int, blocks: set<int>, b: int, c: int)
    requires Tiled(ram, size, blocks) && b in blocks && c in blocks && b < c
    ensures b + SIZEOF_STRUCT_MEM <= c
  {
    assert LinkedForward(ram, size, blocks, b);
  }

  // Every header the allocator stores is that of a block of the tiling it makes; the blocks
  // that stay keep theirs, whatever was left of a block that goes.
  lemma StoreHeader(heap: seq<int>, ram: seq<Mem>, size: int, blocks: set<int>, ram': seq<Mem>, blocks': set<int>, b: int, h: Mem)
    requires InBand(heap, ram, size, blocks)
    requires Tiled(ram', size, blocks') && b in blocks' && forall c :: c in blocks' && c != b ==> c in blocks
    ensures b + SIZEOF_STRUCT_MEM <= |heap| && InBand(PutHeader(heap, b, h), ram[b := h], size, blocks')
  {
    var heap' := PutHeader(heap, b, h);
    forall c | c in blocks' ensures GetHeader(heap', c) == ram[b := h][c] {
      if c < b { HeadersApart(ram', size, blocks', c, b); }
      if b < c { HeadersApart(ram', size, blocks', b, c); }
    }
  }

  // When mem_realloc() moves the header of a free neighbour down by less than its size, the
  // new header covers part of the old: `next` must be read before.
  lemma ReadBeforeMoving(heap: seq<int>, ptr2: nat, next: int, prev: int)
    requires ptr2 + 4 + SIZEOF_STRUCT_MEM <= |heap|
    ensures GetHeader(PutHeader(heap, ptr2, Mem(next, prev, false)), ptr2 + 4).next == prev
    ensures GetHeader(PutHeader(heap, ptr2, Mem(next, prev, false)), ptr2).next == next
  {
  }

  // ------------------------------------------------------------------
  // What splitting, shifting and merging do to a tiling
  // ------------------------------------------------------------------

  // `ram'` differs from `ram` on `blocks` in at most the headers of `b` and `n`,
  // and of `n` only in the back link.
  ghost predicate Touched(ram: seq<Mem>, ram': seq<Mem>, size: int, blocks: set<int>, b: int, n: int) {
    && |ram| == |ram'| == size + 1
    && 0 <= n <= size
    && ram'[n].next == ram[n].next
    && ram'[n].used == ram[n].used
    && (forall c :: c in blocks && 0 <= c <= size && c != b && c != n ==> ram'[c] == ram[c])
  }

  // `b` now ends at `cut`, where a new header leads on to the block that followed `b`.
  ghost predicate IsSplit(ram: seq<Mem>, size: int, blocks: set<int>, b: int, cut: int, ram': seq<Mem>) {
    && b in blocks && 0 <= b < size && size < |ram| && cut % MEM_ALIGNMENT == 0
    && b + MIN_BLOCK <= cut && cut + MIN_BLOCK <= ram[b].next
    && Touched(ram, ram', size, blocks, b, ram[b].next)
    && (ram[b].next < size ==> ram'[ram[b].next].prev == cut)
    && ram'[b].next == cut && ram'[b].prev == ram[b].prev
    && ram'[cut].next == ram[b].next && ram'[cut].prev == b
  }

  lemma SplitForward(ram: seq<Mem>, size: int, blocks: set<int>, b: int, cut: int, ram': seq<Mem>, c: int)
    requires Tiled(ram, size, blocks) && IsSplit(ram, size, blocks, b, cut, ram')
    requires c in blocks + {cut} && c < size
    ensures LinkedForward(ram', size, blocks + {cut}, c)
  {
    assert LinkedForward(ram, size, blocks, b);
    if c != cut { assert LinkedForward(ram, size, blocks, c); }
  }

  lemma SplitBackward(ram: seq<Mem>, size: int, blocks: set<int>, b: int, cut: int, ram': seq<Mem>, c: int)
    requires Tiled(ram, size, blocks) && IsSplit(ram, size, blocks, b, cut, ram')
    requires c in blocks + {cut} && 0 < c < size
    ensures LinkedBackward(ram', size, blocks + {cut}, c)
  {
    if c != cut { assert LinkedBackward(ram, size, blocks, c); }
  }

  lemma Split(ram: seq<Mem>, size: int, blocks: set<int>, b: int, cut: int, ram': seq<Mem>)
    requires Tiled(ram, size, blocks) && IsSplit(ram, size, blocks, b, cut, ram')
    ensures cut !in blocks
    ensures Tiled(ram', size, blocks + {cut})
  {
    assert LinkedForward(ram, size, blocks, b);
    assert Chained(ram', size, blocks + {cut}) by {
      forall c | c in blocks + {cut} && c < size
        ensures LinkedForward(ram', size, blocks + {cut}, c)
      {
        SplitForward(ram, size, blocks, b, cut, ram', c);
      }
      forall c | c in blocks + {cut} && 0 < c < size
        ensures LinkedBackward(ram', size, blocks + {cut}, c)
      {
        SplitBackward(ram, size, blocks, b, cut, ram', c);
      }
    }
    assert Ordered(ram', size, blocks + {cut});
  }

  // `b` swallows its neighbour `n`: it now ends where the neighbour ended.
  ghost predicate IsMerge(ram: seq<Mem>, size: int, blocks: set<int>, b: int, n: int, ram': seq<Mem>) {
    && b in blocks && n in blocks && 0 <= b < n < size < |ram| && n == ram[b].next
    && Touched(ram, ram', size, blocks - {n}, b, ram[n].next)
    && ram'[b] == ram[b].(next := ram[n].next)
    && ram'[ram[n].next].prev == b
  }

  lemma MergeForward(ram: seq<Mem>, size: int, blocks: set<int>, b: int, n: int, ram': seq<Mem>, c: int)
    requires Tiled(ram, size, blocks) && IsMerge(ram, size, blocks, b, n, ram')
    requires c in blocks - {n} && c < size
    ensures LinkedForward(ram', size, blocks - {n}, c)
  {
    assert LinkedForward(ram, size, blocks, n);
    assert LinkedForward(ram, size, blocks, c);
  }

  lemma MergeBackward(ram: seq<Mem>, size: int, blocks: set<int>, b: int, n: int, ram': seq<Mem>, c: int)
    requires Tiled(ram, size, blocks) && IsMerge(ram, size, blocks, b, n, ram')
    requires c in blocks - {n} && 0 < c < size
    ensures LinkedBackward(ram', size, blocks - {n}, c)
  {
    assert LinkedForward(ram, size, blocks, n);
    assert LinkedBackward(ram, size, blocks, c);
  }

  lemma Merge(ram: seq<Mem>, size: int, blocks: set<int>, b: int, n: int, ram': seq<Mem>)
    requires Tiled(ram, size, blocks) && IsMerge(ram, size, blocks, b, n, ram')
    ensures Tiled(ram', size, blocks - {n})
  {
    assert LinkedForward(ram, size, blocks, n);
    assert Chained(ram', size, blocks - {n}) by {
      forall c | c in blocks - {n} && c < size
        ensures LinkedForward(ram', size, blocks - {n}, c)
      {
        MergeForward(ram, size, blocks, b, n, ram', c);
      }
      forall c | c in blocks - {n} && 0 < c < size
        ensures LinkedBackward(ram', size, blocks - {n}, c)
      {
        MergeBackward(ram, size, blocks, b, n, ram', c);
      }
    }
    assert Ordered(ram', size, blocks - {n});
  }

  // Only free blocks have disappeared, and allocated ones have not changed.
  ghost predicate Coalesced(ram: seq<Mem>, blocks: set<int>, ram': seq<Mem>, blocks': set<int>) {
    && blocks' <= blocks
    && |ram| == |ram'|
    && (forall b :: b in blocks && 0 <= b < |ram| && b !in blocks' ==> !ram[b].used)
    && (forall b :: b in blocks' && 0 <= b < |ram| ==>
          && ram'[b].used == ram[b].used
          && (ram[b].used ==> ram'[b].next == ram[b].next))
  }

  lemma MergeKeepsPlugged(ram: seq<Mem>, size: int, blocks: set<int>, hole: int, b: int, n: int, ram': seq<Mem>, hole': int)
    requires Tiled(ram, size, blocks) && PluggedBut(ram, size, blocks, hole) && IsMerge(ram, size, blocks, b, n, ram')
    requires hole == hole' == b || (hole == n && hole' == -1 && !ram[b].used && ram[ram[n].next].used)
    requires Tiled(ram', size, blocks - {n})
    ensures PluggedBut(ram', size, blocks - {n}, hole')
  {
    forall c | c in blocks - {n} && c < size && c != hole' && !ram'[c].used
      ensures LinkedForward(ram', size, blocks - {n}, c)
      ensures ram'[c].next != hole' ==> ram'[ram'[c].next].used
    {
      assert LinkedForward(ram', size, blocks - {n}, c);
      assert LinkedForward(ram, size, blocks, c);
    }
  }

  // Merging two free blocks keeps the rest sound.  When the hole is the left one it
  // stays the hole; when it is the right one and its own right neighbour is in use,
  // no hole is left.
  lemma MergeKeepsSound(ram: seq<Mem>, size: int, blocks: set<int>, lfree: int, live: map<int, nat>, hole: int,
                        b: int, n: int, ram': seq<Mem>, hole': int)
    requires Sound(ram, size, blocks, lfree, live, hole) && IsMerge(ram, size, blocks, b, n, ram')
    requires !ram[b].used && !ram[n].used
    requires hole == hole' == b || (hole == n && hole' == -1 && ram[ram[n].next].used)
    ensures Sound(ram', size, blocks - {n}, if lfree == n then b else lfree, live, hole')
    ensures Coalesced(ram, blocks, ram', blocks - {n})
    ensures hole' == b ==> ram'[ram'[b].next].used == ram[ram[n].next].used
    ensures ram[n].next == ram'[b].next
  {
    Merge(ram, size, blocks, b, n, ram');
    MergeKeepsPlugged(ram, size, blocks, hole, b, n, ram', hole');
    assert LinkedForward(ram, size, blocks, n);
    assert LowestFree(ram', size, blocks - {n}, if lfree == n then b else lfree, hole');
    assert Honoured(ram', size, blocks - {n}, live);
  }

  // The header of the free block after `b` moves down to `cut`: a merge, then a split.
  lemma Shift(ram: seq<Mem>, size: int, blocks: set<int>, b: int, cut: int, ram': seq<Mem>)
    requires Tiled(ram, size, blocks)
    requires b in blocks && b < size && ram[b].next < size
    requires cut % MEM_ALIGNMENT == 0 && b + MIN_BLOCK <= cut < ram[b].next
    requires 0 <= ram[b].next && Touched(ram, ram', size, blocks - {ram[b].next}, b, ram[ram[b].next].next)
    requires ram[ram[b].next].next < size ==> ram'[ram[ram[b].next].next].prev == cut
    requires ram'[b].next == cut && ram'[b].prev == ram[b].prev
    requires ram'[cut].next == ram[ram[b].next].next && ram'[cut].prev == b
    ensures cut !in blocks
    ensures Tiled(ram', size, blocks - {ram[b].next} + {cut})
  {
    assert LinkedForward(ram, size, blocks, b);
    var m := ram[b].next;
    assert LinkedForward(ram, size, blocks, m);
    var n := ram[m].next;
    var mid := ram[b := ram[b].(next := n)][n := ram[n].(prev := b)];
    Merge(ram, size, blocks, b, m, mid);
    Split(mid, size, blocks - {m}, b, cut, ram');
  }

  // ------------------------------------------------------------------
  // What allocating, freeing and shrinking do to a sound heap
  // ------------------------------------------------------------------

  // All of [lo, hi) lies in one free block.
  ghost predicate FreeSpan(ram: seq<Mem>, blocks: set<int>, lo: int, hi: int) {
    exists c :: c in blocks && 0 <= c <= lo && c < |ram| && !ram[c].used && hi <= ram[c].next
  }

  // Shrinking `b` to `want` bytes frees something: there is a surplus, and it either
  // joins a free neighbour or can stand alone.
  ghost predicate GivesBack(ram: seq<Mem>, b: int, want: int) {
    && 0 <= b < |ram|
    && 0 <= ram[b].next < |ram|
    && var surplus := ram[b].next - (b + SIZEOF_STRUCT_MEM + want);
    && surplus > 0
    && (!ram[ram[b].next].used || surplus >= MIN_BLOCK)
  }

  lemma Reflag(ram: seq<Mem>, size: int, blocks: set<int>, b: int, used: bool)
    requires Tiled(ram, size, blocks) && b in blocks && 0 <= b < size
    ensures Tiled(ram[b := ram[b].(used := used)], size, blocks)
  {
    var ram' := ram[b := ram[b].(used := used)];
    assert Chained(ram', size, blocks) by {
      forall c | c in blocks && c < size
        ensures LinkedForward(ram', size, blocks, c)
      {
        assert LinkedForward(ram, size, blocks, c);
      }
      forall c | c in blocks && 0 < c < size
        ensures LinkedBackward(ram', size, blocks, c)
      {
        assert LinkedBackward(ram, size, blocks, c);
      }
    }
    assert Ordered(ram', size, blocks);
  }

  lemma FreeMakesHole(ram: seq<Mem>, size: int, blocks: set<int>, lfree: int, live: map<int, nat>, b: int)
    requires Sound(ram, size, blocks, lfree, live, -1) && b in live
    ensures b in blocks && 0 <= b < size
    ensures Sound(ram[b := ram[b].(used := false)], size, blocks, if b < lfree then b else lfree, live - {b}, b)
  {
    var ram' := ram[b := ram[b].(used := false)];
    Reflag(ram, size, blocks, b, ram'[b].used);
    assert PluggedBut(ram', size, blocks, b) by {
      forall c | c in blocks && c < size && c != b && !ram'[c].used
        ensures LinkedForward(ram', size, blocks, c) && (ram'[c].next != b ==> ram'[ram'[c].next].used)
      {
        assert LinkedForward(ram, size, blocks, c);
      }
    }
  }

  // Taking the whole of the free block `b`.
  lemma TakeWhole(ram: seq<Mem>, size: int, blocks: set<int>, lfree: int, live: map<int, nat>, b: int, request: nat)
    requires Sound(ram, size, blocks, lfree, live, -1)
    requires FreeAndFits(ram, size, blocks, b, request)
    ensures Taken(ram[b := ram[b].(used := true)], size, blocks, lfree, live[b := request])
  {
    var ram' := ram[b := ram[b].(used := true)];
    Reflag(ram, size, blocks, b, ram'[b].used);
    assert PluggedBut(ram', size, blocks, -1) by {
      forall c | c in blocks && c < size && !ram'[c].used
        ensures LinkedForward(ram', size, blocks, c) && ram'[ram'[c].next].used
      {
        assert LinkedForward(ram, size, blocks, c);
      }
    }
  }

  // Sound but for `lfree`, which may have been allocated; nothing below it is free.
  ghost predicate Taken(ram: seq<Mem>, size: int, blocks: set<int>, lfree: int, live: map<int, nat>) {
    && Tiled(ram, size, blocks)
    && PluggedBut(ram, size, blocks, -1)
    && Honoured(ram, size, blocks, live)
    && lfree in blocks
    && (forall c :: c in blocks && !ram[c].used ==> lfree <= c)
  }

  // A free header has been written at `cut`, between the block in use at `b` and `n`.
  ghost predicate Relinked(ram: seq<Mem>, size: int, b: int, cut: int, n: int, ram': seq<Mem>) {
    && 0 <= b < cut < n <= size && |ram| == |ram'| == size + 1
    && ram'[cut] == Mem(n, b, false)
    && ram'[b] == Mem(cut, ram[b].prev, true)
    && (n < size ==> ram'[n] == ram[n].(prev := cut))
    && (forall c {:trigger ram'[c]} :: 0 <= c <= size && c != b && c != cut && (c != n || n == size) ==> ram'[c] == ram[c])
  }

  // Headers in use elsewhere are as before.
  ghost predicate OthersKept(ram: seq<Mem>, blocks: set<int>, b: int, ram': seq<Mem>) {
    |ram| == |ram'| && forall c :: c in blocks && 0 <= c < |ram| && c != b ==>
      ram'[c].next == ram[c].next && ram'[c].used == ram[c].used
  }

  // Block `b`, in use, is cut at `cut`: it keeps `request` bytes and the rest is free.
  lemma SplitKeepsSound(ram: seq<Mem>, size: int, blocks: set<int>, lfree: int, live: map<int, nat>,
                        b: int, request: nat, cut: int, ram': seq<Mem>)
    requires Taken(ram, size, blocks, lfree, live) && b in live
    requires cut % MEM_ALIGNMENT == 0 && b + MIN_BLOCK <= cut && cut + MIN_BLOCK <= ram[b].next
    requires Relinked(ram, size, b, cut, ram[b].next, ram')
    requires b + SIZEOF_STRUCT_MEM + request <= cut
    requires ram[ram[b].next].used
    ensures Taken(ram', size, blocks + {cut}, if cut < lfree then cut else lfree, live[b := request])
    ensures OthersKept(ram, blocks, b, ram')
    ensures cut !in blocks
  {
    assert IsSplit(ram, size, blocks, b, cut, ram') by {
      assert LinkedForward(ram, size, blocks, b);
      assert cut !in blocks;
    }
    Split(ram, size, blocks, b, cut, ram');
    assert PluggedBut(ram', size, blocks + {cut}, -1) by {
      forall c | c in blocks + {cut} && c < size && !ram'[c].used
        ensures LinkedForward(ram', size, blocks + {cut}, c) && ram'[ram'[c].next].used
      {
        assert LinkedForward(ram', size, blocks + {cut}, c);
        assert c != cut ==> LinkedForward(ram, size, blocks, c);
      }
    }
    assert Honoured(ram', size, blocks + {cut}, live[b := request]);
  }

  // The same starting from a free block.
  lemma TakeFront(ram: seq<Mem>, size: int, blocks: set<int>, lfree: int, live: map<int, nat>,
                  b: int, request: nat, cut: int, ram': seq<Mem>)
    requires Sound(ram, size, blocks, lfree, live, -1)
    requires FreeAndFits(ram, size, blocks, b, cut - b - SIZEOF_STRUCT_MEM + MIN_BLOCK)
    requires cut == b + SIZEOF_STRUCT_MEM + Padded(request)
    requires Relinked(ram, size, b, cut, ram[b].next, ram')
    ensures Taken(ram', size, blocks + {cut}, lfree, live[b := request])
    ensures OthersKept(ram, blocks, b, ram')
  {
    TakeWhole(ram, size, blocks, lfree, live, b, request);
    assert LinkedForward(ram, size, blocks, b);
    var ram1 := ram[b := ram[b].(used := true)];
    SplitKeepsSound(ram1, size, blocks, lfree, live[b := request], b, request, cut, ram');
    assert live[b := request][b := request] == live[b := request];
  }

  // The same starting and ending between calls.
  lemma ShrinkApartKeepsSound(ram: seq<Mem>, size: int, blocks: set<int>, lfree: int, live: map<int, nat>,
                              b: int, request: nat, cut: int, ram': seq<Mem>)
    requires Sound(ram, size, blocks, lfree, live, -1) && b in live
    requires cut == b + SIZEOF_STRUCT_MEM + Padded(request) && cut + MIN_BLOCK <= ram[b].next
    requires Relinked(ram, size, b, cut, ram[b].next, ram')
    requires ram[ram[b].next].used
    ensures Sound(ram', size, blocks + {cut}, if cut < lfree then cut else lfree, live[b := request], -1)
    ensures FreeSpan(ram', blocks + {cut}, cut, ram[b].next)
    ensures OthersKept(ram, live.Keys, b, ram')
  {
    SplitKeepsSound(ram, size, blocks, lfree, live, b, request, cut, ram');
  }

  // Block `b`, in use, gives its tail beyond `cut` to the free block that follows it.
  lemma ShiftLeaves(ram: seq<Mem>, size: int, blocks: set<int>, live: map<int, nat>, b: int, cut: int, ram': seq<Mem>)
    requires Tiled(ram, size, blocks) && Honoured(ram, size, blocks, live) && b in live && 0 <= ram[b].next < size
    requires b < cut < ram[b].next && Relinked(ram, size, b, cut, ram[ram[b].next].next, ram') && !ram[ram[b].next].used
    requires cut !in blocks
    ensures OthersKept(ram, live.Keys, b, ram')
    ensures FreeSpan(ram', blocks - {ram[b].next} + {cut}, cut, ram[b].next)
  {
    assert LinkedForward(ram, size, blocks, b);
    assert LinkedForward(ram, size, blocks, ram[b].next);
  }

  lemma ShiftKeepsPlugged(ram: seq<Mem>, size: int, blocks: set<int>, b: int, cut: int, ram': seq<Mem>)
    requires Tiled(ram, size, blocks) && PluggedBut(ram, size, blocks, -1)
    requires b in blocks && b < size && 0 <= ram[b].next < size && !ram[ram[b].next].used && ram[b].used
    requires Relinked(ram, size, b, cut, ram[ram[b].next].next, ram')
    requires Tiled(ram', size, blocks - {ram[b].next} + {cut}) && cut !in blocks
    ensures PluggedBut(ram', size, blocks - {ram[b].next} + {cut}, -1)
  {
    var m := ram[b].next;
    var blocks' := blocks - {m} + {cut};
    assert LinkedForward(ram, size, blocks, b);
    assert LinkedForward(ram, size, blocks, m);
    forall c | c in blocks' && c < size && !ram'[c].used
      ensures LinkedForward(ram', size, blocks', c) && ram'[ram'[c].next].used
    {
      assert LinkedForward(ram', size, blocks', c);
      assert c != cut ==> LinkedForward(ram, size, blocks, c);
    }
  }

  lemma ShiftKeepsSound(ram: seq<Mem>, size: int, blocks: set<int>, lfree: int, live: map<int, nat>,
                        b: int, request: nat, cut: int, ram': seq<Mem>)
    requires Sound(ram, size, blocks, lfree, live, -1) && b in live && 0 <= ram[b].next < size
    requires cut % MEM_ALIGNMENT == 0 && b + MIN_BLOCK <= cut < ram[b].next
    requires Relinked(ram, size, b, cut, ram[ram[b].next].next, ram')
    requires b + SIZEOF_STRUCT_MEM + request <= cut
    requires !ram[ram[b].next].used
    ensures Sound(ram', size, blocks - {ram[b].next} + {cut}, if lfree == ram[b].next then cut else lfree,
                  live[b := request], -1)
    ensures cut !in blocks
  {
    var m := ram[b].next;
    var blocks' := blocks - {m} + {cut};
    assert LinkedForward(ram, size, blocks, b);
    assert LinkedForward(ram, size, blocks, m);
    assert cut !in blocks;
    Shift(ram, size, blocks, b, cut, ram');
    ShiftKeepsPlugged(ram, size, blocks, b, cut, ram');
    assert Honoured(ram', size, blocks', live[b := request]);
  }

  // ------------------------------------------------------------------
  // The allocator
  // ------------------------------------------------------------------

  class Heap {
    const size: int          // MEM_SIZE_ALIGNED
    const ram: array<Mem>
    var lfree: int
    ghost var blocks: set<int>
    ghost var live: map<int, nat>

    ghost predicate Valid()
      reads this, ram
    {
      Sound(ram[..], size, blocks, lfree, live, -1)
    }

    // mem_init
    constructor (size: int)
      requires MIN_BLOCK <= size && size % MEM_ALIGNMENT == 0
      ensures Valid() && fresh(ram) && this.size == size
      ensures live == map[] && blocks == {0, size} && lfree == 0
    {
      this.size := size;
      ram := new Mem[size + 1](_ => Mem(0, 0, false));
      lfree := 0;
      blocks, live := {0, size}, map[];
      new;
      ram[0] := Mem(size, 0, false);
      ram[size] := Mem(size, size, true);
    }

    // Combine the block just freed with a free neighbour on either side.
    method PlugHoles(mem: int)
      requires Sound(ram[..], size, blocks, lfree, live, mem)
      requires mem in blocks && mem < size && !ram[mem].used
      modifies this`lfree, this`blocks, ram
      ensures Valid()
      ensures Coalesced(old(ram[..]), old(blocks), ram[..], blocks)
      ensures FreeSpan(ram[..], blocks, mem, old(ram[mem].next))
    {
      assert LinkedForward(ram[..], size, blocks, mem);
      var nmem := ram[mem].next;
      if mem != nmem && !ram[nmem].used && nmem != size {
        assert LinkedForward(ram[..], size, blocks, nmem);
        Absorb(mem, nmem, mem, mem);
      }
      PlugBackward(mem);
    }

    // The second half of plug_holes.
    method PlugBackward(mem: int)
      requires Sound(ram[..], size, blocks, lfree, live, mem)
      requires mem in blocks && mem < size && !ram[mem].used
      requires 0 <= ram[mem].next <= size && ram[ram[mem].next].used
      modifies this`lfree, this`blocks, ram
      ensures Valid()
      ensures Coalesced(old(ram[..]), old(blocks), ram[..], blocks)
      ensures FreeSpan(ram[..], blocks, mem, old(ram[mem].next))
    {
      ghost var ram0 := ram[..];
      assert mem > 0 ==> LinkedBackward(ram0, size, blocks, mem);
      var pmem := ram[mem].prev;
      if pmem != mem && !ram[pmem].used {
        Absorb(pmem, mem, mem, -1);
      } else {
        forall b | b in blocks && b < size && !ram0[b].used
          ensures LinkedForward(ram0, size, blocks, b) && ram0[ram0[b].next].used
        {
          assert LinkedForward(ram0, size, blocks, b);
        }
      }
    }

    // Merge the free block `n` into the free block `b` on its left.
    method Absorb(b: int, n: int, ghost hole: int, ghost hole': int)
      requires Sound(ram[..], size, blocks, lfree, live, hole)
      requires b in blocks && n in blocks && 0 <= b < n < size && n == ram[b].next
      requires !ram[b].used && !ram[n].used && 0 <= ram[n].next <= size
      requires hole == hole' == b || (hole == n && hole' == -1 && ram[ram[n].next].used)
      modifies this`lfree, this`blocks, ram
      ensures Sound(ram[..], size, blocks, lfree, live, hole')
      ensures blocks == old(blocks) - {n}
      ensures Coalesced(old(ram[..]), old(blocks), ram[..], blocks)
      ensures ram[b].next == old(ram[n].next) && !ram[b].used
      ensures ram[ram[b].next].used == old(ram[ram[n].next].used)
    {
      ghost var ram0, lfree0 := ram[..], lfree;
      assert LinkedForward(ram0, size, blocks, n);
      if lfree == n {
        lfree := b;
      }
      ram[b] := ram[b].(next := ram[n].next);
      ram[ram[n].next] := ram[ram[n].next].(prev := b);
      MergeKeepsSound(ram0, size, blocks, lfree0, live, hole, b, n, ram[..], hole');
      blocks := blocks - {n};
    }

    method MemFree(rmem: Option<int>)
      requires Valid()
      requires rmem.Some? && 0 <= rmem.value < size ==> rmem.value - SIZEOF_STRUCT_MEM in live
      modifies this`lfree, this`blocks, this`live, ram
      ensures Valid()
      ensures rmem.None? || rmem.value < 0 || rmem.value >= size ==>
                ram[..] == old(ram[..]) && blocks == old(blocks) && live == old(live) && lfree == old(lfree)
      ensures rmem.Some? && 0 <= rmem.value < size ==>
                && live == old(live) - {rmem.value - SIZEOF_STRUCT_MEM}
                && FreeSpan(ram[..], blocks, rmem.value - SIZEOF_STRUCT_MEM, old(ram[..])[rmem.value - SIZEOF_STRUCT_MEM].next)
      ensures forall b :: b in live ==> ram[b].next == old(ram[..])[b].next
    {
      if rmem.None? || rmem.value < 0 || rmem.value >= size {
        return;
      }
      var mem := rmem.value - SIZEOF_STRUCT_MEM;
      FreeMakesHole(ram[..], size, blocks, lfree, live, mem);
      ghost var ram0 := ram[..];
      ram[mem] := ram[mem].(used := false);
      if mem < lfree {
        lfree := mem;
      }
      live := live - {mem};
      assert ram[..] == ram0[mem := ram0[mem].(used := false)];
      PlugHoles(mem);
    }

    // mem_malloc after a fitting block `mem` has been found.
    method Take(mem: int, want: int, ghost request: nat)
      requires Valid()
      requires FreeAndFits(ram[..], size, blocks, mem, want)
      requires want == Padded(request)
      modifies this`lfree, this`blocks, this`live, ram
      ensures Valid()
      ensures live == old(live)[mem := request]
      ensures old(ram[mem].next) - (mem + SIZEOF_STRUCT_MEM) >= want + MIN_BLOCK ==>
                blocks == old(blocks) + {mem + SIZEOF_STRUCT_MEM + want} && ram[mem].next == mem + SIZEOF_STRUCT_MEM + want
      ensures old(ram[mem].next) - (mem + SIZEOF_STRUCT_MEM) < want + MIN_BLOCK ==>
                blocks == old(blocks) && ram[mem].next == old(ram[mem].next)
      ensures forall b :: b in old(live) ==> ram[b].next == old(ram[..])[b].next
    {
      ghost var ram0 := ram[..];
      TakeWhole(ram0, size, blocks, lfree, live, mem, request);
      if ram[mem].next - (mem + SIZEOF_STRUCT_MEM) >= want + SIZEOF_STRUCT_MEM + MIN_SIZE_ALIGNED {
        CutOff(mem, want, request);
      } else {
        ram[mem] := ram[mem].(used := true);
        assert ram[..] == ram0[mem := ram0[mem].(used := true)];
        live := live[mem := request];
      }
      AdvanceLfree(mem);
    }

    // Allocate the front of `mem` and leave the rest as a free block of its own.
    method CutOff(mem: int, want: int, ghost request: nat)
      requires Valid()
      requires FreeAndFits(ram[..], size, blocks, mem, want + MIN_BLOCK)
      requires want == Padded(request)
      modifies this`blocks, this`live, ram
      ensures Taken(ram[..], size, blocks, lfree, live)
      ensures live == old(live)[mem := request]
      ensures blocks == old(blocks) + {mem + SIZEOF_STRUCT_MEM + want}
      ensures ram[mem].next == mem + SIZEOF_STRUCT_MEM + want
      ensures OthersKept(old(ram[..]), old(blocks), mem, ram[..])
    {
      ghost var ram0 := ram[..];
      assert LinkedForward(ram0, size, blocks, mem);
      var ptr2 := mem + SIZEOF_STRUCT_MEM + want;
      Link(mem, ptr2, ram[mem].next);
      TakeFront(ram0, size, blocks, lfree, live, mem, request, ptr2, ram[..]);
      blocks := blocks + {ptr2};
      live := live[mem := request];
    }

    // Write a free header at `ptr2`, between the block in use at `mem` and `next`.
    method Link(mem: int, ptr2: int, next: int)
      requires 0 <= mem < ptr2 < next <= size && ram.Length == size + 1
      modifies ram
      ensures Relinked(old(ram[..]), size, mem, ptr2, next, ram[..])
    {
      ram[ptr2] := Mem(next, mem, false);
      ram[mem] := ram[mem].(next := ptr2, used := true);
      if ram[ptr2].next != size {
        ram[ram[ptr2].next] := ram[ram[ptr2].next].(prev := ptr2);
      }
    }

    // The lowest free block was just allocated: find the next one.
    method AdvanceLfree(mem: int)
      requires Taken(ram[..], size, blocks, lfree, live)
      requires lfree == mem || !ram[lfree].used || lfree == size
      modifies this`lfree
      ensures Valid()
    {
      if mem == lfree {
        while ram[lfree].used && lfree != size
          invariant Taken(ram[..], size, blocks, lfree, live)
          decreases size - lfree
        {
          assert LinkedForward(ram[..], size, blocks, lfree);
          lfree := ram[lfree].next;
        }
      }
    }

    method MemMalloc(request: nat) returns (rmem: Option<int>)
      requires Valid()
      requires request + MEM_ALIGNMENT - 1 < 0x1_0000_0000
      modifies this`lfree, this`blocks, this`live, ram
      ensures Valid()
      // NULL exactly when nothing fits, and then nothing changes
      ensures rmem.None? <==>
                request == 0 || forall b :: !old(FreeAndFits(ram[..], size, blocks, b, Padded(request)))
      ensures rmem.None? ==> ram[..] == old(ram[..]) && blocks == old(blocks) && live == old(live) && lfree == old(lfree)
      // otherwise the lowest fitting block, cut to size when the rest can stand alone
      ensures rmem.Some? ==>
                var mem := rmem.value - SIZEOF_STRUCT_MEM;
                && old(FreeAndFits(ram[..], size, blocks, mem, Padded(request)))
                && (forall b :: old(FreeAndFits(ram[..], size, blocks, b, Padded(request))) ==> mem <= b)
                && mem !in old(live) && live == old(live)[mem := request]
                && ram[mem].next == (if old(ram[..])[mem].next - rmem.value >= Padded(request) + MIN_BLOCK
                                     then rmem.value + Padded(request) else old(ram[..])[mem].next)
      ensures forall b :: b in old(live) ==> ram[b].next == old(ram[..])[b].next
    {
      if request == 0 {
        return None;
      }
      var want := Padded(request);
      if want > size {
        return None;
      }
      var ptr := lfree;
      while ptr < size - want
        invariant ptr in blocks && lfree <= ptr
        invariant forall b :: b in blocks && b < ptr ==> !FreeAndFits(ram[..], size, blocks, b, want)
        decreases size - ptr
      {
        assert LinkedForward(ram[..], size, blocks, ptr);
        if !ram[ptr].used && ram[ptr].next - (ptr + SIZEOF_STRUCT_MEM) >= want {
          assert FreeAndFits(ram[..], size, blocks, ptr, want);
          Take(ptr, want, request);
          return Some(ptr + SIZEOF_STRUCT_MEM);
        }
        ptr := ram[ptr].next;
      }
      assert forall b :: !FreeAndFits(ram[..], size, blocks, b, want);
      return None;
    }

    // mem_realloc can only shrink.
    method MemRealloc(rmem: int, newsize: nat) returns (r: Option<int>)
      requires Valid()
      requires newsize + MEM_ALIGNMENT - 1 < 0x1_0000_0000
      requires 0 <= rmem < size ==> rmem - SIZEOF_STRUCT_MEM in live
      modifies this`lfree, this`blocks, this`live, ram
      ensures Valid()
      // NULL exactly when the block is too small, and then nothing changes
      ensures r.None? <==>
                || Padded(newsize) > size
                || (0 <= rmem < size && Padded(newsize) > old(ram[..])[rmem - SIZEOF_STRUCT_MEM].next - rmem)
      ensures r.Some? ==> r.value == rmem
      ensures r.None? || rmem < 0 || rmem >= size ==>
                ram[..] == old(ram[..]) && blocks == old(blocks) && live == old(live) && lfree == old(lfree)
      // otherwise the block keeps its place and at least `newsize` bytes
      ensures r.Some? && 0 <= rmem < size ==>
                var mem := rmem - SIZEOF_STRUCT_MEM;
                && live == old(live)[mem := newsize]
                && if GivesBack(old(ram[..]), mem, Padded(newsize))
                   then ram[mem].next == rmem + Padded(newsize) &&
                        FreeSpan(ram[..], blocks, ram[mem].next, old(ram[..])[mem].next)
                   else ram[mem].next == old(ram[..])[mem].next
      ensures forall b :: b in old(live) && b != rmem - SIZEOF_STRUCT_MEM ==> ram[b].next == old(ram[..])[b].next
    {
      var want := Padded(newsize);
      if want > size {
        return None;
      }
      if rmem < 0 || rmem >= size {
        return Some(rmem);
      }
      var mem := rmem - SIZEOF_STRUCT_MEM;
      assert LinkedForward(ram[..], size, blocks, mem);
      var available := ram[mem].next - mem - SIZEOF_STRUCT_MEM;
      if want > available {
        return None;
      }
      if want < available {
        Shrink(mem, want, newsize);
      } else {
        live := live[mem := newsize];
      }
      return Some(rmem);
    }

    // The part of mem_realloc that gives memory back.
    method Shrink(mem: int, want: int, ghost newsize: nat)
      requires Valid()
      requires mem in live && want == Padded(newsize) && mem + SIZEOF_STRUCT_MEM + want < ram[mem].next
      modifies this`lfree, this`blocks, this`live, ram
      ensures Valid()
      ensures live == old(live)[mem := newsize]
      ensures if GivesBack(old(ram[..]), mem, want)
              then ram[mem].next == mem + SIZEOF_STRUCT_MEM + want &&
                   FreeSpan(ram[..], blocks, ram[mem].next, old(ram[mem].next))
              else ram[mem].next == old(ram[mem].next)
      ensures forall b :: b in old(live) && b != mem ==> ram[b].next == old(ram[..])[b].next
    {
      assert LinkedForward(ram[..], size, blocks, mem);
      var mem2 := ram[mem].next;
      var ptr2 := mem + SIZEOF_STRUCT_MEM + want;
      if !ram[mem2].used {
        ShrinkIntoNeighbour(mem, mem2, ptr2, newsize);
      } else if want + SIZEOF_STRUCT_MEM + MIN_SIZE_ALIGNED <= mem2 - mem - SIZEOF_STRUCT_MEM {
        ShrinkApart(mem, mem2, ptr2, newsize);
      } else {
        live := live[mem := newsize];
      }
    }

    // The next block is free: its header moves down to `ptr2`.
    method ShrinkIntoNeighbour(mem: int, mem2: int, ptr2: int, ghost newsize: nat)
      requires Valid()
      requires mem in live && ptr2 == mem + SIZEOF_STRUCT_MEM + Padded(newsize)
      requires ptr2 < mem2 == ram[mem].next < size && !ram[mem2].used
      modifies this`lfree, this`blocks, this`live, ram
      ensures Valid()
      ensures live == old(live)[mem := newsize]
      ensures ram[mem].next == ptr2 && FreeSpan(ram[..], blocks, ptr2, old(ram[mem].next))
      ensures OthersKept(old(ram[..]), old(live.Keys), mem, ram[..])
    {
      ghost var ram0, lfree0 := ram[..], lfree;
      assert LinkedForward(ram0, size, blocks, mem);
      assert LinkedForward(ram0, size, blocks, mem2);
      if lfree == mem2 {
        lfree := ptr2;
      }
      Link(mem, ptr2, ram[mem2].next);
      ShiftKeepsSound(ram0, size, blocks, lfree0, live, mem, newsize, ptr2, ram[..]);
      ShiftLeaves(ram0, size, blocks, live, mem, ptr2, ram[..]);
      blocks := blocks - {mem2} + {ptr2};
      live := live[mem := newsize];
    }

    // The next block is in use, but the surplus is large enough for a block of its own.
    method ShrinkApart(mem: int, mem2: int, ptr2: int, ghost newsize: nat)
      requires Valid()
      requires mem in live && ptr2 == mem + SIZEOF_STRUCT_MEM + Padded(newsize)
      requires ptr2 + MIN_BLOCK <= mem2 == ram[mem].next <= size && ram[mem2].used
      modifies this`lfree, this`blocks, this`live, ram
      ensures Valid()
      ensures live == old(live)[mem := newsize]
      ensures ram[mem].next == ptr2 && FreeSpan(ram[..], blocks, ptr2, old(ram[mem].next))
      ensures OthersKept(old(ram[..]), old(live.Keys), mem, ram[..])
    {
      ghost var ram0, lfree0 := ram[..], lfree;
      if ptr2 < lfree {
        lfree := ptr2;
      }
      Link(mem, ptr2, mem2);
      ShrinkApartKeepsSound(ram0, size, blocks, lfree0, live, mem, newsize, ptr2, ram[..]);
      blocks := blocks + {ptr2};
      live := live[mem := newsize];
    }
  }
}
