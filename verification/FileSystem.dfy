/**
 Files on blocks (lab/fs/fs.c): the free-block bitmap, ten direct block pointers and one
 block of indirect ones per file, reads, writes and truncation.

 File records are kept apart from the blocks, and so are the super block and the bitmap;
 the tables of indirect pointers are stored in blocks, as little-endian words.  All block
 accesses go through the block cache, whose contents are what `blocks` stands for.
 */
module FileSystem {
  import opened Options
  import opened Bitmap

  const BLKSIZE := 4096
  const BLKBITSIZE := 32768
  const NDIRECT := 10
  const NINDIRECT := 1024
  const NSLOTS := NDIRECT + NINDIRECT
  const MAXFILESIZE := NSLOTS * BLKSIZE

  type Byte = x: int | 0 <= x < 256
  type Block = seq<Byte>

  // Panic stands for panic(), which does not return.
  datatype Error = NoDisk | NotFound | Inval | Panic
  datatype Result<T> = Ok(value: T) | Err(error: Error)

  datatype File = File(size: nat, direct: seq<nat>, indirect: nat)

  datatype Disk = Disk(blocks: seq<Block>, bitmap: seq<bv32>, files: seq<File>)

  // A place that holds a block number.
  datatype Slot = Direct(f: nat, i: nat) | Indirect(f: nat) | Table(f: nat, j: nat)

  // ------------------------------------------------------------------
  // Words in a block
  // ------------------------------------------------------------------

  function WordAt(b: Block, j: nat): nat {
    if 4 * j + 3 < |b| then
      var b0: int, b1: int, b2: int, b3: int := b[4 * j], b[4 * j + 1], b[4 * j + 2], b[4 * j + 3];
      b0 + 0x100 * b1 + 0x10000 * b2 + 0x1000000 * b3
    else 0
  }

  function PutWord(b: Block, j: nat, v: nat): (r: Block)
    requires 4 * j + 3 < |b| && v < 0x1_0000_0000
    ensures |r| == |b|
  {
    b[4 * j := v % 0x100][4 * j + 1 := v / 0x100 % 0x100][4 * j + 2 := v / 0x10000 % 0x100][4 * j + 3 := v / 0x1000000]
  }

  // The four bytes of a word give it back.
  lemma Bytes(v: nat)
    requires v < 0x1_0000_0000
    ensures v == v % 0x100 + 0x100 * (v / 0x100 % 0x100) + 0x10000 * (v / 0x10000 % 0x100) + 0x1000000 * (v / 0x1000000)
  {
  }

  lemma PutWordAt(b: Block, j: nat, v: nat, k: nat)
    requires 4 * j + 3 < |b| && v < 0x1_0000_0000
    ensures WordAt(PutWord(b, j, v), k) == if k == j then v else WordAt(b, k)
  {
    var r := PutWord(b, j, v);
    if k == j {
      assert r[4 * j] == v % 0x100 && r[4 * j + 1] == v / 0x100 % 0x100;
      assert r[4 * j + 2] == v / 0x10000 % 0x100 && r[4 * j + 3] == v / 0x1000000;
      Bytes(v);
    } else if 4 * k + 3 < |b| {
      assert r[4 * k] == b[4 * k] && r[4 * k + 1] == b[4 * k + 1];
      assert r[4 * k + 2] == b[4 * k + 2] && r[4 * k + 3] == b[4 * k + 3];
    }
  }

  function ZeroBlock(): (r: Block)
    ensures |r| == BLKSIZE && forall k :: 0 <= k < BLKSIZE ==> r[k] == 0
  {
    seq(BLKSIZE, _ => 0)
  }

  // ------------------------------------------------------------------
  // Block pointers
  // ------------------------------------------------------------------

  function IndirectOf(d: Disk, f: nat): nat {
    if f < |d.files| then d.files[f].indirect else 0
  }

  function Ptr(d: Disk, s: Slot): nat {
    match s
    case Direct(f, i) => if f < |d.files| && i < |d.files[f].direct| then d.files[f].direct[i] else 0
    case Indirect(f) => IndirectOf(d, f)
    case Table(f, j) =>
      var b := IndirectOf(d, f);
      if 0 < b < |d.blocks| then WordAt(d.blocks[b], j) else 0
  }

  // Where file `f` keeps the number of its `n`th block.
  function SlotOf(f: nat, n: nat): Slot {
    if n < NDIRECT then Direct(f, n) else Table(f, n - NDIRECT)
  }

  // The slot exists.
  predicate Exists(d: Disk, s: Slot) {
    s.f < |d.files| &&
    match s
    case Direct(_, i) => i < NDIRECT
    case Indirect(_) => true
    case Table(f, j) => j < NINDIRECT && IndirectOf(d, f) != 0
  }

  // Inside the file record, or inside the table block.
  predicate SlotFits(s: Slot) {
    match s
    case Direct(_, i) => i < NDIRECT
    case Indirect(_) => true
    case Table(_, j) => 4 * j + 4 <= BLKSIZE
  }

  // *slot = v
  function SetPtr(d: Disk, s: Slot, v: nat): (r: Disk)
    requires Shaped(d) && Exists(d, s) && v < |d.blocks|
    requires s.Table? ==> IndirectOf(d, s.f) < |d.blocks|
    ensures Shaped(r) && |r.blocks| == |d.blocks| && r.bitmap == d.bitmap && |r.files| == |d.files|
  {
    match s
    case Direct(f, i) =>
      d.(files := d.files[f := d.files[f].(direct := d.files[f].direct[i := v])])
    case Indirect(f) =>
      d.(files := d.files[f := d.files[f].(indirect := v)])
    case Table(f, j) =>
      var b := d.files[f].indirect;
      d.(blocks := d.blocks[b := PutWord(d.blocks[b], j, v)])
  }

  // ------------------------------------------------------------------
  // The invariant: who owns each block
  // ------------------------------------------------------------------

  // Block 0, the super block and the bitmap blocks.
  function Reserved(nblocks: nat): nat {
    2 + (nblocks + BLKBITSIZE - 1) / BLKBITSIZE
  }

  ghost predicate Shaped(d: Disk) {
    && (forall b :: 0 <= b < |d.blocks| ==> |d.blocks[b]| == BLKSIZE)
    && (forall f :: 0 <= f < |d.files| ==> |d.files[f].direct| == NDIRECT)
    && |d.blocks| <= 32 * |d.bitmap| && |d.blocks| < 0x1_0000_0000
  }

  ghost predicate SlotOk(d: Disk, own: map<nat, Slot>, s: Slot) {
    Ptr(d, s) != 0 ==> Ptr(d, s) in own && own[Ptr(d, s)] == s
  }

  ghost predicate BlockOk(d: Disk, own: map<nat, Slot>, b: nat) {
    && (b in own ==> Reserved(|d.blocks|) <= b < |d.blocks| && Ptr(d, own[b]) == b)
    && (b < |d.blocks| ==> (IsFree(d.bitmap, b) <==> Reserved(|d.blocks|) <= b && b !in own))
  }

  // Each block past the reserved ones is free, or exactly one slot holds its number.
  ghost predicate Inv(d: Disk, own: map<nat, Slot>) {
    && Shaped(d)
    && (forall s {:trigger SlotOk(d, own, s)} :: SlotOk(d, own, s))
    && (forall b {:trigger BlockOk(d, own, b)} :: BlockOk(d, own, b))
  }

  function Min(a: nat, b: nat): nat { if a < b then a else b }

  function Max(a: nat, b: nat): nat { if a < b then b else a }

  function NBlocks(size: nat): nat {
    (size + BLKSIZE - 1) / BLKSIZE
  }

  // No block is kept past the end of the file.
  ghost predicate Trimmed(d: Disk, f: nat)
    requires f < |d.files|
  {
    && (forall n :: NBlocks(d.files[f].size) <= n ==> Ptr(d, SlotOf(f, n)) == 0)
    && (d.files[f].indirect != 0 ==> NDIRECT <= NBlocks(d.files[f].size))
  }

  // ------------------------------------------------------------------
  // Contents
  // ------------------------------------------------------------------

  // Byte `k` of file `f`; a hole reads as zeroes.
  function ByteAt(d: Disk, f: nat, k: nat): Byte {
    var b := Ptr(d, SlotOf(f, k / BLKSIZE));
    if 0 < b < |d.blocks| && k % BLKSIZE < |d.blocks[b]| then d.blocks[b][k % BLKSIZE] else 0
  }

  // ------------------------------------------------------------------
  // Giving a block to a slot
  // ------------------------------------------------------------------

  // alloc_block(), *slot = b, memset(diskaddr(b), 0, BLKSIZE)
  function Assign(d: Disk, s: Slot, b: nat): (r: Disk)
    requires Shaped(d) && Exists(d, s) && b < |d.blocks|
    requires s.Table? ==> IndirectOf(d, s.f) < |d.blocks|
  {
    var e := SetPtr(d.(bitmap := Flip(d.bitmap, b)), s, b);
    e.(blocks := e.blocks[b := ZeroBlock()])
  }

  lemma ZeroTable(j: nat)
    ensures WordAt(ZeroBlock(), j) == 0
  {
  }

  lemma OwnersApart(d: Disk, own: map<nat, Slot>, s: Slot, t: Slot)
    requires Inv(d, own) && Ptr(d, s) == Ptr(d, t) != 0
    ensures s == t
  {
    assert SlotOk(d, own, s) && SlotOk(d, own, t);
  }

  // A free block is in no slot.
  lemma FreeUnowned(d: Disk, own: map<nat, Slot>, b: nat, s: Slot)
    requires Inv(d, own) && b < |d.blocks| && IsFree(d.bitmap, b)
    ensures b !in own && b != 0 && Ptr(d, s) != b
  {
    assert BlockOk(d, own, b) && SlotOk(d, own, s);
  }

  lemma InBounds(d: Disk, own: map<nat, Slot>, s: Slot)
    requires Inv(d, own)
    ensures Ptr(d, s) < |d.blocks| || Ptr(d, s) == 0
    ensures Ptr(d, s) != 0 ==> Reserved(|d.blocks|) <= Ptr(d, s) && !IsFree(d.bitmap, Ptr(d, s))
  {
    assert SlotOk(d, own, s) && BlockOk(d, own, Ptr(d, s));
  }

  // What the invariant says without naming an owner.
  lemma FreeOrInOneSlot(d: Disk, own: map<nat, Slot>, b: nat)
    requires Inv(d, own) && Reserved(|d.blocks|) <= b < |d.blocks|
    ensures IsFree(d.bitmap, b) <==> forall s :: Ptr(d, s) != b
    ensures forall s, t :: Ptr(d, s) == b && Ptr(d, t) == b ==> s == t
  {
    assert BlockOk(d, own, b);
    if b in own {
      assert Ptr(d, own[b]) == b;
    }
    forall s | Ptr(d, s) == b ensures b in own && own[b] == s {
      assert SlotOk(d, own, s);
    }
  }

  lemma AssignPtr(d: Disk, own: map<nat, Slot>, s: Slot, b: nat, t: Slot)
    requires Inv(d, own) && Exists(d, s) && Ptr(d, s) == 0
    requires b < |d.blocks| && IsFree(d.bitmap, b)
    requires s.Table? ==> IndirectOf(d, s.f) < |d.blocks|
    ensures Ptr(Assign(d, s, b), t) == if t == s then b else Ptr(d, t)
  {
    FreeUnowned(d, own, b, s);
    FreeUnowned(d, own, b, Indirect(t.f));
    if s.Table? {
      FreeUnowned(d, own, b, Indirect(s.f));
    }
    if t.Table? {
      ZeroTable(t.j);
      if s.Table? {
        PutWordAt(d.blocks[d.files[s.f].indirect], s.j, b, t.j);
        if IndirectOf(d, t.f) == IndirectOf(d, s.f) {
          OwnersApart(d, own, Indirect(s.f), Indirect(t.f));
        }
      }
    }
  }

  lemma AssignKeeps(d: Disk, own: map<nat, Slot>, s: Slot, b: nat)
    requires Inv(d, own) && Exists(d, s) && Ptr(d, s) == 0
    requires b < |d.blocks| && IsFree(d.bitmap, b)
    requires s.Table? ==> IndirectOf(d, s.f) < |d.blocks|
    ensures Inv(Assign(d, s, b), own[b := s])
  {
    var d', own' := Assign(d, s, b), own[b := s];
    FreeUnowned(d, own, b, s);
    forall t ensures SlotOk(d', own', t) {
      AssignPtr(d, own, s, b, t);
      FreeUnowned(d, own, b, t);
      assert SlotOk(d, own, t);
    }
    forall c ensures BlockOk(d', own', c) {
      assert BlockOk(d, own, b) && BlockOk(d, own, c);
      FlipTakes(d.bitmap, b, c);
      AssignPtr(d, own, s, b, s);
      if c in own { AssignPtr(d, own, s, b, own[c]); }
    }
  }

  // A new block shows as the zeroes that were read from the hole.
  lemma AssignBytes(d: Disk, own: map<nat, Slot>, s: Slot, b: nat, f: nat, k: nat)
    requires Inv(d, own) && Exists(d, s) && Ptr(d, s) == 0
    requires b < |d.blocks| && IsFree(d.bitmap, b)
    requires s.Table? ==> IndirectOf(d, s.f) < |d.blocks|
    ensures ByteAt(Assign(d, s, b), f, k) == ByteAt(d, f, k)
  {
    var t := SlotOf(f, k / BLKSIZE);
    AssignPtr(d, own, s, b, t);
    FreeUnowned(d, own, b, t);
    if s.Table? && Ptr(d, t) == Ptr(d, Indirect(s.f)) {
      OwnersApart(d, own, t, Indirect(s.f));
    }
  }

  // ------------------------------------------------------------------
  // Taking a block from a slot
  // ------------------------------------------------------------------

  // free_block(*slot), *slot = 0
  function Release(d: Disk, s: Slot): (r: Disk)
    requires Shaped(d) && Exists(d, s) && Ptr(d, s) < |d.blocks|
    requires s.Table? ==> IndirectOf(d, s.f) < |d.blocks|
  {
    SetPtr(d.(bitmap := Mark(d.bitmap, Ptr(d, s))), s, 0)
  }

  // Nothing is lost with the block: a table must hold no block numbers.
  ghost predicate Releasable(d: Disk, s: Slot) {
    && Ptr(d, s) != 0 && Exists(d, s)
    && (s.Indirect? ==> forall j :: Ptr(d, Table(s.f, j)) == 0)
  }

  lemma ReleasePtr(d: Disk, own: map<nat, Slot>, s: Slot, t: Slot)
    requires Inv(d, own) && Releasable(d, s)
    ensures Ptr(d, s) < |d.blocks| && (s.Table? ==> IndirectOf(d, s.f) < |d.blocks|)
    ensures Ptr(Release(d, s), t) == if t == s then 0 else Ptr(d, t)
  {
    InBounds(d, own, s);
    InBounds(d, own, Indirect(s.f));
    if t.Table? && s.Table? {
      PutWordAt(d.blocks[d.files[s.f].indirect], s.j, 0, t.j);
      if IndirectOf(d, t.f) == IndirectOf(d, s.f) {
        OwnersApart(d, own, Indirect(s.f), Indirect(t.f));
      }
    }
  }

  lemma ReleaseKeeps(d: Disk, own: map<nat, Slot>, s: Slot)
    requires Inv(d, own) && Releasable(d, s)
    ensures Ptr(d, s) < |d.blocks| && (s.Table? ==> IndirectOf(d, s.f) < |d.blocks|)
    ensures Inv(Release(d, s), own - {Ptr(d, s)})
  {
    ReleasePtr(d, own, s, s);
    var b := Ptr(d, s);
    var d', own' := Release(d, s), own - {b};
    assert SlotOk(d, own, s);
    forall t ensures SlotOk(d', own', t) {
      ReleasePtr(d, own, s, t);
      assert SlotOk(d, own, t);
    }
    forall c ensures BlockOk(d', own', c) {
      assert BlockOk(d, own, b) && BlockOk(d, own, c);
      MarkFrees(d.bitmap, b, c);
      if c in own { ReleasePtr(d, own, s, own[c]); }
    }
  }

  lemma ReleaseBytes(d: Disk, own: map<nat, Slot>, s: Slot, f: nat, k: nat)
    requires Inv(d, own) && Releasable(d, s)
    ensures Ptr(d, s) < |d.blocks| && (s.Table? ==> IndirectOf(d, s.f) < |d.blocks|)
    ensures ByteAt(Release(d, s), f, k) == if SlotOf(f, k / BLKSIZE) == s then 0 else ByteAt(d, f, k)
  {
    var t := SlotOf(f, k / BLKSIZE);
    ReleasePtr(d, own, s, t);
    if s.Table? && t != s && Ptr(d, t) == Ptr(d, Indirect(s.f)) && Ptr(d, t) != 0 {
      OwnersApart(d, own, t, Indirect(s.f));
    }
  }

  // ------------------------------------------------------------------
  // Storing into a block
  // ------------------------------------------------------------------

  // memmove(diskaddr(b) + at, data, |data|)
  function Store(d: Disk, b: nat, at: nat, data: seq<Byte>): (r: Disk)
    requires Shaped(d) && b < |d.blocks| && at + |data| <= BLKSIZE
  {
    d.(blocks := d.blocks[b := d.blocks[b][..at] + data + d.blocks[b][at + |data|..]])
  }

  lemma StorePtr(d: Disk, own: map<nat, Slot>, n: nat, f: nat, at: nat, data: seq<Byte>, t: Slot)
    requires Inv(d, own) && Ptr(d, SlotOf(f, n)) != 0 && at + |data| <= BLKSIZE
    ensures Ptr(d, SlotOf(f, n)) < |d.blocks|
    ensures Ptr(Store(d, Ptr(d, SlotOf(f, n)), at, data), t) == Ptr(d, t)
  {
    InBounds(d, own, SlotOf(f, n));
    if t.Table? && IndirectOf(d, t.f) == Ptr(d, SlotOf(f, n)) {
      OwnersApart(d, own, SlotOf(f, n), Indirect(t.f));
    }
  }

  lemma StoreKeeps(d: Disk, own: map<nat, Slot>, n: nat, f: nat, at: nat, data: seq<Byte>)
    requires Inv(d, own) && Ptr(d, SlotOf(f, n)) != 0 && at + |data| <= BLKSIZE
    ensures Ptr(d, SlotOf(f, n)) < |d.blocks|
    ensures Inv(Store(d, Ptr(d, SlotOf(f, n)), at, data), own)
  {
    InBounds(d, own, SlotOf(f, n));
    var d' := Store(d, Ptr(d, SlotOf(f, n)), at, data);
    forall t ensures SlotOk(d', own, t) {
      StorePtr(d, own, n, f, at, data, t);
      assert SlotOk(d, own, t);
    }
    forall c ensures BlockOk(d', own, c) {
      assert BlockOk(d, own, c);
      if c in own { StorePtr(d, own, n, f, at, data, own[c]); }
    }
  }

  lemma StoreBytes(d: Disk, own: map<nat, Slot>, n: nat, f: nat, at: nat, data: seq<Byte>, g: nat, k: nat)
    requires Inv(d, own) && Ptr(d, SlotOf(f, n)) != 0 && at + |data| <= BLKSIZE
    ensures Ptr(d, SlotOf(f, n)) < |d.blocks|
    ensures ByteAt(Store(d, Ptr(d, SlotOf(f, n)), at, data), g, k) ==
            if g == f && k / BLKSIZE == n && at <= k % BLKSIZE < at + |data| then data[k % BLKSIZE - at]
            else ByteAt(d, g, k)
  {
    InBounds(d, own, SlotOf(f, n));
    var t := SlotOf(g, k / BLKSIZE);
    StorePtr(d, own, n, f, at, data, t);
    if Ptr(d, t) == Ptr(d, SlotOf(f, n)) {
      OwnersApart(d, own, SlotOf(f, n), t);
    }
  }

  // ------------------------------------------------------------------
  // What an operation leaves alone
  // ------------------------------------------------------------------

  ghost predicate SameBytes(d: Disk, d': Disk) {
    forall g, k: nat {:trigger ByteAt(d', g, k)} :: ByteAt(d', g, k) == ByteAt(d, g, k)
  }

  ghost predicate SameFiles(d: Disk, d': Disk) {
    && |d'.files| == |d.files| && |d'.blocks| == |d.blocks|
    && forall g :: 0 <= g < |d.files| ==> d'.files[g].size == d.files[g].size
  }

  // Only the slot of block `n` of file `f` changes, and the one of its table on the way.
  ghost predicate SamePtrsBut(d: Disk, d': Disk, f: nat, n: nat) {
    forall t {:trigger Ptr(d', t)} ::
      t != SlotOf(f, n) && (t == Indirect(f) ==> n < NDIRECT) ==> Ptr(d', t) == Ptr(d, t)
  }

  ghost predicate AllTrimmed(d: Disk) {
    forall f {:trigger Trimmed(d, f)} :: 0 <= f < |d.files| ==> Trimmed(d, f)
  }

  ghost predicate Full(d: Disk) {
    forall b :: 0 <= b < |d.blocks| ==> !IsFree(d.bitmap, b)
  }

  // No block changes hands.
  ghost predicate Grown(own: map<nat, Slot>, own': map<nat, Slot>) {
    forall b :: b in own ==> b in own' && own'[b] == own[b]
  }

  // Blocks may be added to file `f` up to its size.
  lemma StaysTrimmed(d: Disk, d': Disk, f: nat, n: nat)
    requires AllTrimmed(d) && SameFiles(d, d') && SamePtrsBut(d, d', f, n)
    requires f < |d.files| && n < NBlocks(d.files[f].size)
    ensures AllTrimmed(d')
  {
    forall g | 0 <= g < |d.files| ensures Trimmed(d', g) {
      assert Trimmed(d, g);
      assert g != f || n < NDIRECT ==> Ptr(d', Indirect(g)) == Ptr(d, Indirect(g));
    }
  }

  // Bytes `at` .. `at + m` of file `f` are the first `m` of `buf`, all else is as before.
  ghost predicate Written(d: Disk, d': Disk, f: nat, buf: seq<Byte>, at: nat, m: nat)
    requires m <= |buf|
  {
    forall g, k: nat {:trigger ByteAt(d', g, k)} ::
      ByteAt(d', g, k) == if g == f && at <= k < at + m then buf[k - at] else ByteAt(d, g, k)
  }

  // The slot gives up its block.
  ghost predicate Dropped(d: Disk, d': Disk, s: Slot) {
    && (forall t {:trigger Ptr(d', t)} :: Ptr(d', t) == if t == s then 0 else Ptr(d, t))
    && (forall g, k: nat {:trigger ByteAt(d', g, k)} ::
          ByteAt(d', g, k) == if SlotOf(g, k / BLKSIZE) == s then 0 else ByteAt(d, g, k))
  }

  predicate InRange(t: Slot, f: nat, from: nat, to: nat) {
    match t
    case Direct(g, i) => g == f && i < NDIRECT && from <= i < to
    case Indirect(_) => false
    case Table(g, j) => g == f && from <= NDIRECT + j < to
  }

  // Blocks `from` .. `to` are gone from file `f`, and only they.
  ghost predicate Cut(d: Disk, d': Disk, f: nat, from: nat, to: nat) {
    && (forall t {:trigger Ptr(d', t)} :: t != Indirect(f) ==>
          Ptr(d', t) == if InRange(t, f, from, to) then 0 else Ptr(d, t))
    && (forall g, k: nat {:trigger ByteAt(d', g, k)} ::
          ByteAt(d', g, k) == if g == f && from <= k / BLKSIZE < to then 0 else ByteAt(d, g, k))
  }

  lemma CutMore(d: Disk, d1: Disk, d2: Disk, f: nat, from: nat, to: nat)
    requires Cut(d, d1, f, from, to) && from <= to && Dropped(d1, d2, SlotOf(f, to))
    ensures Cut(d, d2, f, from, to + 1) && IndirectOf(d2, f) == IndirectOf(d1, f)
  {
    assert Ptr(d2, Indirect(f)) == Ptr(d1, Indirect(f));
    forall t | t != Indirect(f) ensures Ptr(d2, t) == if InRange(t, f, from, to + 1) then 0 else Ptr(d, t) {
      assert Ptr(d2, t) == if t == SlotOf(f, to) then 0 else Ptr(d1, t);
    }
    forall g, k: nat ensures ByteAt(d2, g, k) == if g == f && from <= k / BLKSIZE < to + 1 then 0 else ByteAt(d, g, k) {
      assert ByteAt(d2, g, k) == if SlotOf(g, k / BLKSIZE) == SlotOf(f, to) then 0 else ByteAt(d1, g, k);
    }
  }

  // Only the size of file `f` changes after the blocks past it have gone.
  lemma Resized(d: Disk, d1: Disk, d': Disk, own: map<nat, Slot>, f: nat, newsize: nat)
    requires Inv(d1, own) && AllTrimmed(d) && SameFiles(d, d1) && f < |d.files|
    requires d' == d1.(files := d1.files[f := d1.files[f].(size := newsize)])
    requires if d.files[f].size > newsize
             then Cut(d, d1, f, NBlocks(newsize), NBlocks(d.files[f].size))
                  && IndirectOf(d1, f) == (if NBlocks(newsize) <= NDIRECT then 0 else IndirectOf(d, f))
             else d1 == d
    ensures Inv(d', own) && AllTrimmed(d')
    ensures forall g, k: nat {:trigger ByteAt(d', g, k)} ::
              ByteAt(d', g, k) == if g == f && NBlocks(newsize) <= k / BLKSIZE then 0 else ByteAt(d, g, k)
    ensures newsize >= d.files[f].size ==> SameBytes(d, d')
  {
    assert forall t :: Ptr(d', t) == Ptr(d1, t);
    assert forall g, k: nat :: ByteAt(d', g, k) == ByteAt(d1, g, k);
    assert Trimmed(d, f);
    forall t ensures SlotOk(d', own, t) { assert SlotOk(d1, own, t); }
    forall b ensures BlockOk(d', own, b) { assert BlockOk(d1, own, b); }
    forall g | 0 <= g < |d.files| ensures Trimmed(d', g) {
      assert Trimmed(d, g);
      assert Ptr(d', Indirect(g)) == Ptr(d1, Indirect(g));
    }
    forall k | NBlocks(newsize) <= k / BLKSIZE ensures ByteAt(d1, f, k) == 0 {
      assert NBlocks(d.files[f].size) <= k / BLKSIZE ==> ByteAt(d, f, k) == 0;
    }
  }

  // The file has no block there, and none can be had.
  ghost predicate Missing(d: Disk, f: nat, n: nat) {
    Full(d) && Ptr(d, SlotOf(f, n)) == 0
  }

  // What file_get_block() promises for a number in range.
  ghost predicate Served(d: Disk, own: map<nat, Slot>, d': Disk, own': map<nat, Slot>, f: nat, n: nat, r: Result<nat>)
    requires f < |d.files|
  {
    && Inv(d', own') && SameFiles(d, d') && SameBytes(d, d') && Grown(own, own') && SamePtrsBut(d, d', f, n)
    && (r.Err? ==> r.error == NoDisk && Missing(d', f, n) && Ptr(d, SlotOf(f, n)) == 0)
    && (r.Ok? ==> Reserved(|d'.blocks|) <= r.value < |d'.blocks| && !IsFree(d'.bitmap, r.value))
    && (AllTrimmed(d) && n < NBlocks(d.files[f].size) ==> AllTrimmed(d'))
  }

  // One round of the loop in file_read().
  lemma ReadRound(d0: Disk, d: Disk, f: nat, buf: seq<Byte>, at: nat, pos: nat, bn: nat, b: nat)
    requires SameBytes(d0, d) && Shaped(d) && at + |buf| == pos && bn <= BLKSIZE - pos % BLKSIZE
    requires b == Ptr(d, SlotOf(f, pos / BLKSIZE)) && 0 < b < |d.blocks|
    requires forall i :: 0 <= i < |buf| ==> buf[i] == ByteAt(d0, f, at + i)
    ensures var buf' := buf + d.blocks[b][pos % BLKSIZE..pos % BLKSIZE + bn];
            |buf'| == |buf| + bn && forall i :: 0 <= i < |buf'| ==> buf'[i] == ByteAt(d0, f, at + i)
  {
    var buf' := buf + d.blocks[b][pos % BLKSIZE..pos % BLKSIZE + bn];
    forall i | |buf| <= i < |buf'| ensures buf'[i] == ByteAt(d0, f, at + i) {
      WithinBlock(pos, at + i);
      assert buf'[i] == d.blocks[b][pos % BLKSIZE + (at + i - pos)];
      assert ByteAt(d, f, at + i) == ByteAt(d0, f, at + i);
    }
  }

  lemma WithinBlock(pos: nat, k: nat)
    requires pos <= k < pos + (BLKSIZE - pos % BLKSIZE)
    ensures k / BLKSIZE == pos / BLKSIZE && k % BLKSIZE == pos % BLKSIZE + (k - pos)
  {
  }

  // One round of the loop in file_write().
  lemma WriteRound(d0: Disk, d: Disk, own: map<nat, Slot>, f: nat, buf: seq<Byte>, at: nat, pos: nat, bn: nat)
    requires at <= pos && pos - at + bn <= |buf| && bn <= BLKSIZE - pos % BLKSIZE
    requires Inv(d, own) && AllTrimmed(d) && Written(d0, d, f, buf, at, pos - at) && Ptr(d, SlotOf(f, pos / BLKSIZE)) != 0
    ensures Ptr(d, SlotOf(f, pos / BLKSIZE)) < |d.blocks|
    ensures var d' := Store(d, Ptr(d, SlotOf(f, pos / BLKSIZE)), pos % BLKSIZE, buf[pos - at..pos - at + bn]);
            Inv(d', own) && AllTrimmed(d') && Written(d0, d', f, buf, at, pos - at + bn)
  {
    var n, data := pos / BLKSIZE, buf[pos - at..pos - at + bn];
    StoreKeeps(d, own, n, f, pos % BLKSIZE, data);
    var d' := Store(d, Ptr(d, SlotOf(f, n)), pos % BLKSIZE, data);
    forall g, k: nat ensures ByteAt(d', g, k) == if g == f && at <= k < pos + bn then buf[k - at] else ByteAt(d0, g, k) {
      StoreBytes(d, own, n, f, pos % BLKSIZE, data, g, k);
      if pos <= k < pos + bn { WithinBlock(pos, k); }
    }
    forall t ensures Ptr(d', t) == Ptr(d, t) { StorePtr(d, own, n, f, pos % BLKSIZE, data, t); }
    forall g | 0 <= g < |d.files| ensures Trimmed(d', g) { assert Trimmed(d, g); }
  }

  // Setting one bit of a word.
  function OrWord(b: Block, j: nat, i: nat): (r: Block)
    requires 4 * j + 3 < |b| && i < 32
    ensures |r| == |b|
  {
    PutWord(b, j, ((WordAt(b, j) as bv32) | Bit(i)) as nat)
  }

  lemma Released(d: Disk, own: map<nat, Slot>, s: Slot)
    requires Inv(d, own) && Releasable(d, s)
    ensures Ptr(d, s) < |d.blocks| && (s.Table? ==> IndirectOf(d, s.f) < |d.blocks|)
    ensures var d' := Release(d, s); Inv(d', own - {Ptr(d, s)}) && SameFiles(d, d') && Dropped(d, d', s)
  {
    ReleaseKeeps(d, own, s);
    var d' := Release(d, s);
    forall t ensures Ptr(d', t) == if t == s then 0 else Ptr(d, t) {
      ReleasePtr(d, own, s, t);
    }
    forall g, k: nat ensures ByteAt(d', g, k) == if SlotOf(g, k / BLKSIZE) == s then 0 else ByteAt(d, g, k) {
      ReleaseBytes(d, own, s, g, k);
    }
  }

  lemma Assigned(d: Disk, own: map<nat, Slot>, s: Slot, b: nat)
    requires Inv(d, own) && Exists(d, s) && Ptr(d, s) == 0
    requires b < |d.blocks| && IsFree(d.bitmap, b)
    requires s.Table? ==> IndirectOf(d, s.f) < |d.blocks|
    ensures var d' := Assign(d, s, b);
            && Inv(d', own[b := s]) && SameFiles(d, d') && SameBytes(d, d')
            && forall t {:trigger Ptr(d', t)} :: Ptr(d', t) == if t == s then b else Ptr(d, t)
  {
    AssignKeeps(d, own, s, b);
    forall t ensures Ptr(Assign(d, s, b), t) == if t == s then b else Ptr(d, t) {
      AssignPtr(d, own, s, b, t);
    }
    forall g, k: nat ensures ByteAt(Assign(d, s, b), g, k) == ByteAt(d, g, k) {
      AssignBytes(d, own, s, b, g, k);
    }
  }

  // ------------------------------------------------------------------
  // The block after the last
  // ------------------------------------------------------------------

  // Block number NDIRECT + NINDIRECT has no slot.
  lemma BeyondTable(d: Disk, f: nat, n: nat)
    requires Shaped(d) && n >= NSLOTS
    ensures Ptr(d, SlotOf(f, n)) == 0
  {
  }

  // The word after the table of file `f`.
  function StrayWord(d: Disk, f: nat): nat {
    var k := IndirectOf(d, f) + 1;
    if k > 1 && k < |d.blocks| then WordAt(d.blocks[k], 0) else 0
  }

  // A byte range that touches block NDIRECT + NINDIRECT.
  predicate Strays(offset: nat, n: nat) {
    n > 0 && offset / BLKSIZE <= NSLOTS <= (offset + n - 1) / BLKSIZE
  }

  // How many of the bytes asked for are in the file.
  function InFile(d: Disk, f: nat, count: nat, offset: nat): nat
    requires f < |d.files|
  {
    if offset >= d.files[f].size then 0 else Min(count, d.files[f].size - offset)
  }

  // What file_get_block() does to the disk there: the new block goes into the first word
  // of block `k`, whatever that is.
  function StrayFill(d: Disk, k: nat, b: nat): (r: Disk)
    requires Shaped(d) && k < |d.blocks| && b < |d.blocks|
    ensures Shaped(r)
  {
    var e := d.(bitmap := Flip(d.bitmap, b), blocks := d.blocks[k := PutWord(d.blocks[k], 0, b)]);
    e.(blocks := e.blocks[b := ZeroBlock()])
  }

  ghost predicate StrayFilled(d: Disk, d': Disk, f: nat)
    requires Shaped(d)
  {
    && IndirectOf(d, f) + 1 < |d.blocks| && StrayWord(d, f) == 0
    && exists b :: 0 <= b < |d.blocks| && IsFree(d.bitmap, b) && d' == StrayFill(d, IndirectOf(d, f) + 1, b)
  }

  // Bit `b`, counted from the start of block 2, is set: in the bitmap, or as far past it.
  ghost predicate BitSet(d: Disk, d': Disk, b: nat)
    requires Shaped(d)
  {
    if b / 32 < |d.bitmap| then d' == d.(bitmap := Mark(d.bitmap, b))
    else
      var x := 2 + b / BLKBITSIZE;
      x < |d.blocks| && d' == d.(blocks := d.blocks[x := OrWord(d.blocks[x], b / 32 % NINDIRECT, b % 32)])
  }

  // It is, and word 0 of block `k`, which was `b`, is cleared.
  ghost predicate StrayFreed(d: Disk, d': Disk, k: nat, b: nat)
    requires Shaped(d)
  {
    exists d1 {:trigger BitSet(d, d1, b)} ::
      BitSet(d, d1, b) && Shaped(d1) && k < |d1.blocks| && d' == d1.(blocks := d1.blocks[k := PutWord(d1.blocks[k], 0, 0)])
  }

  // A word that is not zero is taken for the number of the block.
  ghost predicate StrayServed(d: Disk, d': Disk, f: nat, r: Result<nat>)
    requires Shaped(d)
  {
    var k := IndirectOf(d, f) + 1;
    && (k >= |d.blocks| ==> r == Err(Panic) && d' == d)
    && (StrayWord(d, f) != 0 ==> d' == d && r == if StrayWord(d, f) < |d.blocks| then Ok(StrayWord(d, f)) else Err(Panic))
    && (k < |d.blocks| && StrayWord(d, f) == 0 && Full(d) ==> d' == d && r == Err(NoDisk))
    && (k < |d.blocks| && StrayWord(d, f) == 0 && !Full(d) ==> StrayFilled(d, d', f) && (r.Ok? || r == Err(Panic)))
  }

  // If that is a block of file `g`, no slot changes ...
  lemma StrayFillPtr(d: Disk, own: map<nat, Slot>, k: nat, g: nat, n: nat, b: nat, s: Slot)
    requires Inv(d, own) && Ptr(d, SlotOf(g, n)) == k && 0 < k < |d.blocks|
    requires b < |d.blocks| && IsFree(d.bitmap, b)
    ensures Ptr(StrayFill(d, k, b), s) == Ptr(d, s) != b
  {
    FreeUnowned(d, own, b, s);
    FreeUnowned(d, own, b, Indirect(s.f));
    if Ptr(d, Indirect(s.f)) == k { OwnersApart(d, own, Indirect(s.f), SlotOf(g, n)); }
  }

  // ... but the bytes of that block do, and the new block is in no slot.
  lemma StrayFillBreaks(d: Disk, own: map<nat, Slot>, f: nat, g: nat, n: nat, b: nat)
    requires Inv(d, own) && IndirectOf(d, f) != 0 && Ptr(d, SlotOf(g, n)) == IndirectOf(d, f) + 1
    requires StrayWord(d, f) == 0 && b < |d.blocks| && IsFree(d.bitmap, b)
    ensures IndirectOf(d, f) + 1 < |d.blocks|
    ensures var d' := StrayFill(d, IndirectOf(d, f) + 1, b);
            !SameBytes(d, d') && forall o :: !Inv(d', o)
  {
    InBounds(d, own, SlotOf(g, n));
    var k := IndirectOf(d, f) + 1;
    var d' := StrayFill(d, k, b);
    StrayFillPtr(d, own, k, g, n, b, SlotOf(g, n));
    FreeUnowned(d, own, b, SlotOf(g, n));
    StrayFillBytes(d, g, n, k, b);
    forall s ensures Ptr(d', s) != b { StrayFillPtr(d, own, k, g, n, b, s); }
    FlipTakes(d.bitmap, b, b);
    assert BlockOk(d, own, b);
    forall o ensures !Inv(d', o) {
      if Inv(d', o) { FreeOrInOneSlot(d', o, b); }
    }
  }

  lemma StrayFillBytes(d: Disk, g: nat, n: nat, k: nat, b: nat)
    requires Shaped(d) && 0 < k < |d.blocks| && 0 < b < |d.blocks| && k != b
    requires Ptr(d, SlotOf(g, n)) == k && WordAt(d.blocks[k], 0) == 0
    requires Ptr(StrayFill(d, k, b), SlotOf(g, n)) == k
    ensures !SameBytes(d, StrayFill(d, k, b))
  {
    var d' := StrayFill(d, k, b);
    PutWordAt(d.blocks[k], 0, b, 0);
    var x, y := d.blocks[k], d'.blocks[k];
    assert y == PutWord(x, 0, b);
    assert !(y[0] == x[0] && y[1] == x[1] && y[2] == x[2] && y[3] == x[3]);
    var i := if y[0] != x[0] then 0 else if y[1] != x[1] then 1 else if y[2] != x[2] then 2 else 3;
    assert (n * BLKSIZE + i) / BLKSIZE == n && (n * BLKSIZE + i) % BLKSIZE == i;
    assert ByteAt(d', g, n * BLKSIZE + i) != ByteAt(d, g, n * BLKSIZE + i);
  }

  // A disk on which that happens: block 3 is the table of file 0, block 4 belongs to file 1,
  // and block 5 is free.
  function StrayDisk(): Disk {
    Disk(seq(6, _ => ZeroBlock()), [0x20],
         [File(0, seq(NDIRECT, _ => 0), 3), File(BLKSIZE, [4] + seq(NDIRECT - 1, _ => 0), 0)])
  }

  lemma StrayHappens()
    ensures Inv(StrayDisk(), map[3 := Indirect(0), 4 := Direct(1, 0)])
    ensures var d' := StrayFill(StrayDisk(), 4, 5);
            !SameBytes(StrayDisk(), d') && forall o :: !Inv(d', o)
  {
    var d, own := StrayDisk(), map[3 := Indirect(0), 4 := Direct(1, 0)];
    forall s ensures SlotOk(d, own, s) {
      if s.Table? { ZeroTable(s.j); }
    }
    forall b ensures BlockOk(d, own, b) {
      if b < 6 { StrayBitmap(b); }
    }
    ZeroTable(0);
    StrayBitmap(5);
    StrayFillBreaks(d, own, 0, 1, 0, 5);
  }

  lemma StrayBitmap(b: nat)
    requires b < 6
    ensures IsFree([0x20], b) <==> b == 5
  {
    var w: bv32 := 0x20;
    assert w & Bit(5) != 0 && w & Bit(4) == 0 && w & Bit(3) == 0;
    assert w & Bit(2) == 0 && w & Bit(1) == 0 && w & Bit(0) == 0;
  }

  // Truncating a file past block NDIRECT + NINDIRECT frees what the word after its table
  // says and clears the word, or runs off the end of the disk.
  predicate StraysCut(d: Disk, f: nat, newsize: nat)
    requires f < |d.files|
  {
    && NBlocks(newsize) <= NSLOTS < NBlocks(d.files[f].size) && IndirectOf(d, f) != 0
    && (IndirectOf(d, f) + 1 >= |d.blocks| || StrayWord(d, f) != 0)
  }

  lemma DroppedNothing(d: Disk, s: Slot)
    requires Ptr(d, s) == 0
    ensures Dropped(d, d, s)
  {
    forall g, k: nat ensures ByteAt(d, g, k) == if SlotOf(g, k / BLKSIZE) == s then 0 else ByteAt(d, g, k) {
    }
  }

  // ------------------------------------------------------------------
  // The operations
  // ------------------------------------------------------------------

  class Server {
    var d: Disk
    ghost var own: map<nat, Slot>

    // A file system that is sound is mounted.
    constructor (d: Disk, ghost own: map<nat, Slot>)
      requires Inv(d, own) && AllTrimmed(d)
      ensures this.d == d && this.own == own
    {
      this.d, this.own := d, own;
    }

    // False stands for a failed assertion.
    method CheckBitmap() returns (ok: bool)
      requires Shaped(d)
      ensures ok <==> forall b :: 0 <= b < Reserved(|d.blocks|) ==> !BlockIsFree(b)
      ensures Inv(d, own) ==> ok
    {
      forall b | 0 <= b < Reserved(|d.blocks|) ensures Inv(d, own) ==> !BlockIsFree(b) {
        if Inv(d, own) { assert BlockOk(d, own, b); }
      }
      var i := 0;
      while i * BLKBITSIZE < |d.blocks|
        invariant 0 <= i && 2 + i <= Reserved(|d.blocks|)
        invariant forall b :: 2 <= b < 2 + i ==> !BlockIsFree(b)
        decreases |d.blocks| - i * BLKBITSIZE
      {
        if BlockIsFree(2 + i) {
          return false;
        }
        i := i + 1;
      }
      assert 2 + i == Reserved(|d.blocks|);
      return !BlockIsFree(0) && !BlockIsFree(1);
    }

    predicate BlockIsFree(b: nat)
      reads this
    {
      b < |d.blocks| && IsFree(d.bitmap, b)
    }

    method FreeBlock(b: nat)
      requires Shaped(d) && 0 < b && b / 32 < |d.bitmap|
      modifies this`d
      ensures d == old(d).(bitmap := Mark(old(d).bitmap, b))
      ensures forall c :: 0 <= c ==> (IsFree(d.bitmap, c) <==> c == b || IsFree(old(d).bitmap, c))
    {
      forall c: nat ensures IsFree(Mark(d.bitmap, b), c) <==> c == b || IsFree(d.bitmap, c) {
        MarkFrees(d.bitmap, b, c);
      }
      d := d.(bitmap := Mark(d.bitmap, b));
    }

    method AllocBlock() returns (r: Option<nat>)
      requires Shaped(d)
      modifies this`d
      ensures r.None? ==> d == old(d) && Full(d)
      ensures r.Some? ==> r.value < |d.blocks| && IsFree(old(d).bitmap, r.value)
                          && d == old(d).(bitmap := Flip(old(d).bitmap, r.value))
      ensures r.Some? ==> forall b :: 0 <= b < r.value ==> !IsFree(old(d).bitmap, b)
    {
      var blockno := 0;
      while blockno < |d.blocks|
        invariant blockno <= |d.blocks| && d == old(d)
        invariant forall b :: 0 <= b < blockno ==> !IsFree(d.bitmap, b)
      {
        if BlockIsFree(blockno) {
          d := d.(bitmap := Flip(d.bitmap, blockno));
          return Some(blockno);
        }
        blockno := blockno + 1;
      }
      return None;
    }

    // An empty slot takes a zeroed block from alloc_block().
    method Provide(s: Slot) returns (r: Option<nat>)
      requires Inv(d, own) && Exists(d, s)
      modifies this
      ensures Inv(d, own) && SameFiles(old(d), d) && SameBytes(old(d), d) && Grown(old(own), own)
      ensures Ptr(old(d), s) != 0 || r.None? ==> d == old(d) && own == old(own)
      ensures r.None? ==> Ptr(old(d), s) == 0 && Full(d)
      ensures r.Some? ==> Ptr(d, s) == r.value && Reserved(|d.blocks|) <= r.value < |d.blocks|
                          && !IsFree(d.bitmap, r.value)
      ensures forall t {:trigger Ptr(d, t)} :: t != s ==> Ptr(d, t) == Ptr(old(d), t)
    {
      if Ptr(d, s) != 0 {
        InBounds(d, own, s);
        return Some(Ptr(d, s));
      }
      ghost var d0 := d;
      InBounds(d, own, Indirect(s.f));
      r := AllocBlock();
      if r.Some? {
        var b := r.value;
        FreeUnowned(d0, own, b, s);
        Assigned(d0, own, s, b);
        d := SetPtr(d, s, b);
        d := d.(blocks := d.blocks[b := ZeroBlock()]);
        own := own[b := s];
        assert d == Assign(d0, s, b);
        InBounds(d, own, s);
      }
    }

    // The result points at a slot, whose value may be 0.  At NDIRECT + NINDIRECT it points
    // at no slot of the file.
    method FileBlockWalk(f: nat, filebno: nat, alloc: bool) returns (r: Result<Slot>)
      requires Shaped(d) && f < |d.files| && (filebno <= NSLOTS ==> Inv(d, own))
      modifies this
      ensures r == Err(Inval) <==> filebno > NSLOTS
      ensures r == Err(NotFound) <==> NDIRECT <= filebno <= NSLOTS && !alloc && IndirectOf(old(d), f) == 0
      ensures r == Err(NoDisk) ==> NDIRECT <= filebno && alloc && IndirectOf(old(d), f) == 0 && Full(d)
      ensures r != Err(Panic)
      ensures r.Ok? ==> r.value == SlotOf(f, filebno) && (Exists(d, r.value) <==> filebno != NSLOTS)
      ensures r.Ok? && NDIRECT <= filebno ==> IndirectOf(d, f) != 0
      ensures r.Err? || !alloc || filebno < NDIRECT || IndirectOf(old(d), f) != 0 ==> d == old(d) && own == old(own)
      ensures filebno <= NSLOTS ==> Inv(d, own) && Grown(old(own), own)
      ensures SameFiles(old(d), d) && SameBytes(old(d), d)
      ensures forall t {:trigger Ptr(d, t)} :: t != Indirect(f) ==> Ptr(d, t) == Ptr(old(d), t)
    {
      if filebno > NINDIRECT + NDIRECT {
        return Err(Inval);
      }
      if filebno < NDIRECT {
        return Ok(Direct(f, filebno));
      }
      if !alloc && d.files[f].indirect == 0 {
        return Err(NotFound);
      }
      var ret := Provide(Indirect(f));
      if ret.None? {
        return Err(NoDisk);
      }
      return Ok(Table(f, filebno - NDIRECT));
    }

    method FileGetBlock(f: nat, filebno: nat) returns (r: Result<nat>)
      requires Shaped(d) && f < |d.files| && (filebno <= NSLOTS ==> Inv(d, own))
      modifies this
      ensures r == Err(Inval) <==> filebno > NSLOTS
      ensures filebno > NSLOTS ==> d == old(d) && own == old(own)
      ensures filebno < NSLOTS ==> Served(old(d), old(own), d, own, f, filebno, r)
      // the block is the file's own if and only if the number is in range
      ensures r.Ok? ==> 0 < r.value < |d.blocks| && (r.value == Ptr(d, SlotOf(f, filebno)) <==> filebno < NSLOTS)
      ensures filebno == NSLOTS ==> Shaped(d) && SameFiles(old(d), d)
      ensures filebno == NSLOTS && IndirectOf(old(d), f) != 0 ==> StrayServed(old(d), d, f, r)
    {
      ghost var d0 := d;
      var ret := FileBlockWalk(f, filebno, true);
      if ret.Err? {
        assert ret.error == Inval || (ret.error == NoDisk && IndirectOf(d0, f) == 0 && d == d0);
        return Err(ret.error);
      }
      if !SlotFits(ret.value) {
        r := StrayBlock(f);
        BeyondTable(d, f, filebno);
        return;
      }
      var b := Provide(ret.value);
      if AllTrimmed(d0) && filebno < NBlocks(d0.files[f].size) { StaysTrimmed(d0, d, f, filebno); }
      if b.None? {
        return Err(NoDisk);
      }
      return Ok(b.value);
    }

    // The rest of file_get_block() when the pointer is to the word after the table of
    // file `f`, which is the first word of the next block.
    method StrayBlock(f: nat) returns (r: Result<nat>)
      requires Shaped(d) && IndirectOf(d, f) != 0
      modifies this`d
      ensures Shaped(d) && SameFiles(old(d), d) && d.files == old(d).files
      ensures r.Ok? ==> 0 < r.value < |d.blocks|
      ensures r != Err(Inval) && r != Err(NotFound)
      ensures StrayServed(old(d), d, f, r)
    {
      var k := d.files[f].indirect + 1;
      if k >= |d.blocks| {
        return Err(Panic);                          // bc_pgfault: no such block
      }
      if WordAt(d.blocks[k], 0) == 0 {
        var ret := AllocBlock();
        if ret.None? {
          return Err(NoDisk);
        }
        d := d.(blocks := d.blocks[k := PutWord(d.blocks[k], 0, ret.value)]);
        d := d.(blocks := d.blocks[ret.value := ZeroBlock()]);
        assert d == StrayFill(old(d), k, ret.value);
        assert StrayFilled(old(d), d, f);
      }
      var b := WordAt(d.blocks[k], 0);
      if b == 0 || b >= |d.blocks| {
        return Err(Panic);                          // diskaddr: bad block number
      }
      return Ok(b);
    }

    method FileRead(f: nat, count: nat, offset: nat) returns (r: Result<nat>, buf: seq<Byte>)
      requires Inv(d, own) && AllTrimmed(d) && f < |d.files|
      modifies this
      ensures Shaped(d) && SameFiles(old(d), d)
      // the promise, unless the range touches the block that is not there
      ensures !Strays(offset, InFile(d, f, count, offset)) ==>
                && Inv(d, own) && AllTrimmed(d) && SameBytes(old(d), d) && Grown(old(own), own)
                && (forall i :: 0 <= i < |buf| ==> buf[i] == ByteAt(old(d), f, offset + i))
                && (r.Ok? ==> r.value == |buf| == InFile(d, f, count, offset))
                && (r.Err? ==> if offset / BLKSIZE > NSLOTS then r.error == Inval && buf == []
                               else r.error == NoDisk && Missing(d, f, (offset + |buf|) / BLKSIZE))
                && (InFile(d, f, count, offset) > 0 && offset / BLKSIZE > NSLOTS ==> r.Err?)
    {
      buf := [];
      if offset >= d.files[f].size {
        return Ok(0), [];
      }
      var n := Min(count, d.files[f].size - offset);
      var pos := offset;
      ghost var stray := false;
      while pos < offset + n
        invariant offset <= pos <= offset + n && Shaped(d) && SameFiles(old(d), d)
        invariant stray ==> Strays(offset, n) && (pos == offset + n || pos / BLKSIZE > NSLOTS)
        invariant !stray ==> |buf| == pos - offset && (pos > offset ==> offset / BLKSIZE <= NSLOTS)
        invariant !stray ==> ReadSoFar(old(d), old(own), f, offset, buf)
      {
        var blk := FileGetBlock(f, pos / BLKSIZE);
        if blk.Err? {
          return Err(blk.error), buf;
        }
        var bn := Min(BLKSIZE - pos % BLKSIZE, offset + n - pos);
        if pos / BLKSIZE == NSLOTS { stray := true; }
        ghost var was := buf;
        buf := buf + d.blocks[blk.value][pos % BLKSIZE..pos % BLKSIZE + bn];
        if !stray { ReadRound(old(d), d, f, was, offset, pos, bn, blk.value); }
        pos := pos + bn;
      }
      return Ok(n), buf;
    }

    ghost predicate ReadSoFar(d0: Disk, own0: map<nat, Slot>, f: nat, offset: nat, buf: seq<Byte>)
      reads this
    {
      && Inv(d, own) && AllTrimmed(d) && SameBytes(d0, d) && Grown(own0, own)
      && forall i :: 0 <= i < |buf| ==> buf[i] == ByteAt(d0, f, offset + i)
    }

    method FileWrite(f: nat, buf: seq<Byte>, offset: nat) returns (r: Result<nat>, ghost done: nat)
      requires Inv(d, own) && AllTrimmed(d) && f < |d.files|
      modifies this
      ensures Shaped(d) && |d.files| == |old(d).files| && |d.blocks| == |old(d).blocks|
      ensures forall g :: 0 <= g < |d.files| ==>
                d.files[g].size == if g == f then Max(old(d).files[f].size, offset + |buf|) else old(d).files[g].size
      ensures done <= |buf|
      // the promise, unless the range touches the block that is not there
      ensures !Strays(offset, |buf|) ==>
                && Inv(d, own) && AllTrimmed(d) && Written(old(d), d, f, buf, offset, done)
                && (r.Ok? ==> r.value == |buf| == done)
                && (r.Err? ==> if offset / BLKSIZE > NSLOTS then r.error == Inval && done == 0
                               else r.error == NoDisk && Missing(d, f, (offset + done) / BLKSIZE))
                && (buf != [] && offset / BLKSIZE > NSLOTS ==> r.Err?)
    {
      if offset + |buf| > d.files[f].size {
        var panicked := FileSetSize(f, offset + |buf|);
      }
      r, done := WriteBlocks(f, buf, offset);
    }

    // The loop of file_write(), once the file is large enough.
    method WriteBlocks(f: nat, buf: seq<Byte>, offset: nat) returns (r: Result<nat>, ghost done: nat)
      requires Inv(d, own) && AllTrimmed(d) && f < |d.files| && offset + |buf| <= d.files[f].size
      modifies this
      ensures Shaped(d) && SameFiles(old(d), d) && done <= |buf|
      ensures !Strays(offset, |buf|) ==>
                && Inv(d, own) && AllTrimmed(d) && Written(old(d), d, f, buf, offset, done)
                && (r.Ok? ==> r.value == |buf| == done)
                && (r.Err? ==> if offset / BLKSIZE > NSLOTS then r.error == Inval && done == 0
                               else r.error == NoDisk && Missing(d, f, (offset + done) / BLKSIZE))
                && (buf != [] && offset / BLKSIZE > NSLOTS ==> r.Err?)
    {
      var pos := offset;
      ghost var stray := false;
      while pos < offset + |buf|
        invariant offset <= pos <= offset + |buf| && Shaped(d) && SameFiles(old(d), d)
        invariant stray ==> Strays(offset, |buf|) && (pos == offset + |buf| || pos / BLKSIZE > NSLOTS)
        invariant !stray ==> (pos > offset ==> offset / BLKSIZE <= NSLOTS)
        invariant !stray ==> Inv(d, own) && AllTrimmed(d) && Written(old(d), d, f, buf, offset, pos - offset)
      {
        var blk := FileGetBlock(f, pos / BLKSIZE);
        if blk.Err? {
          return Err(blk.error), pos - offset;
        }
        var bn := Min(BLKSIZE - pos % BLKSIZE, offset + |buf| - pos);
        if pos / BLKSIZE == NSLOTS { stray := true; }
        if !stray { WriteRound(old(d), d, own, f, buf, offset, pos, bn); }
        d := Store(d, blk.value, pos % BLKSIZE, buf[pos - offset..pos - offset + bn]);
        pos := pos + bn;
      }
      return Ok(|buf|), |buf|;
    }

    method FileFreeBlock(f: nat, filebno: nat) returns (r: Result<()>)
      requires Shaped(d) && f < |d.files| && (filebno <= NSLOTS ==> Inv(d, own))
      modifies this
      ensures r == Err(Inval) <==> filebno > NSLOTS
      ensures r == Err(NotFound) <==> NDIRECT <= filebno <= NSLOTS && IndirectOf(old(d), f) == 0
      ensures r != Err(NoDisk)
      ensures Shaped(d) && SameFiles(old(d), d) && IndirectOf(d, f) == IndirectOf(old(d), f)
      ensures filebno < NSLOTS ==> Inv(d, own) && Dropped(old(d), d, SlotOf(f, filebno)) && StrayWord(d, f) == StrayWord(old(d), f)
      ensures filebno > NSLOTS || r.Err? ==> d == old(d) && own == old(own)
      // there, nothing is changed if and only if the word after the table is zero
      ensures filebno == NSLOTS ==> (d == old(d) <==> StrayWord(old(d), f) == 0 || r == Err(Panic)) && own == old(own)
      ensures r == Err(Panic) ==> filebno == NSLOTS && IndirectOf(d, f) != 0 && (IndirectOf(d, f) + 1 >= |d.blocks| || StrayWord(d, f) != 0)
      ensures filebno == NSLOTS && IndirectOf(old(d), f) != 0 && IndirectOf(old(d), f) + 1 >= |d.blocks| ==> r == Err(Panic)
    {
      ghost var d0 := d;
      var s := FileBlockWalk(f, filebno, false);
      if s.Err? {
        if s.error == NotFound { DroppedNothing(d, SlotOf(f, filebno)); }
        return Err(s.error);
      }
      if !SlotFits(s.value) {
        r := StrayFree(f);
        return;
      }
      if Ptr(d, s.value) != 0 {
        ReleaseKeeps(d, own, s.value);
        Drop(s.value);
      } else {
        DroppedNothing(d, s.value);
      }
      return Ok(());
    }

    // The rest of file_free_block() there.
    method StrayFree(f: nat) returns (r: Result<()>)
      requires Shaped(d) && IndirectOf(d, f) != 0
      modifies this`d
      ensures Shaped(d) && d.files == old(d).files && |d.blocks| == |old(d).blocks|
      ensures r.Ok? || (r == Err(Panic) && d == old(d))
      ensures d == old(d) <==> StrayWord(old(d), f) == 0 || r == Err(Panic)
      ensures r == Err(Panic) ==> IndirectOf(d, f) + 1 >= |d.blocks| || StrayWord(d, f) != 0
      ensures IndirectOf(old(d), f) + 1 >= |d.blocks| ==> r == Err(Panic)
      // the block that the word names is marked free, in the bitmap or as far past it
      ensures r.Ok? && StrayWord(old(d), f) != 0 ==> StrayFreed(old(d), d, IndirectOf(old(d), f) + 1, StrayWord(old(d), f))
    {
      var k := d.files[f].indirect + 1;
      if k >= |d.blocks| {
        return Err(Panic);
      }
      var b := WordAt(d.blocks[k], 0);
      if b != 0 {
        var ok := SetBit(b);
        if !ok {
          return Err(Panic);
        }
        ghost var d1 := d;
        PutWordAt(d.blocks[k], 0, 0, 0);
        d := d.(blocks := d.blocks[k := PutWord(d.blocks[k], 0, 0)]);
        assert StrayWord(d, f) == 0;
        assert BitSet(old(d), d1, b);
      }
      return Ok(());
    }

    // free_block() of a number that need not be one of a block.
    method SetBit(b: nat) returns (ok: bool)
      requires Shaped(d) && 0 < b
      modifies this`d
      ensures Shaped(d) && d.files == old(d).files && |d.blocks| == |old(d).blocks|
      ensures ok <==> b / 32 < |old(d).bitmap| || 2 + b / BLKBITSIZE < |d.blocks|
      ensures if ok then BitSet(old(d), d, b) else d == old(d)
    {
      if b / 32 < |d.bitmap| {
        FreeBlock(b);
      } else {
        // the bit is past the bitmap, in the block that many further on
        var x := 2 + b / BLKBITSIZE;
        if x >= |d.blocks| {
          return false;
        }
        d := d.(blocks := d.blocks[x := OrWord(d.blocks[x], b / 32 % NINDIRECT, b % 32)]);
      }
      return true;
    }

    // free_block(*slot), *slot = 0
    method Drop(s: Slot)
      requires Shaped(d) && Exists(d, s) && 0 < Ptr(d, s) < |d.blocks| && (s.Table? ==> IndirectOf(d, s.f) < |d.blocks|)
      modifies this
      ensures d == Release(old(d), s) && Shaped(d)
      ensures Inv(old(d), old(own)) && Releasable(old(d), s) ==> Inv(d, own) && SameFiles(old(d), d) && Dropped(old(d), d, s)
    {
      if Inv(d, own) && Releasable(d, s) { Released(d, own, s); }
      var b := Ptr(d, s);
      FreeBlock(b);
      d := SetPtr(d, s, 0);
      own := own - {b};
    }

    // True stands for panic().
    method FileTruncateBlocks(f: nat, newsize: nat) returns (panicked: bool)
      requires Inv(d, own) && f < |d.files| && Trimmed(d, f)
      modifies this
      ensures Shaped(d) && SameFiles(old(d), d)
      ensures !StraysCut(old(d), f, newsize) ==>
                && !panicked && Inv(d, own)
                && Cut(old(d), d, f, NBlocks(newsize), NBlocks(old(d).files[f].size))
                && IndirectOf(d, f) == if NBlocks(newsize) <= NDIRECT then 0 else IndirectOf(old(d), f)
    {
      panicked := false;
      var oldNblocks, newNblocks := NBlocks(d.files[f].size), NBlocks(newsize);
      var bno := newNblocks;
      InBounds(d, own, Indirect(f));
      while bno < oldNblocks
        invariant newNblocks <= bno && (bno <= oldNblocks || bno == newNblocks)
        invariant Shaped(d) && SameFiles(old(d), d) && IndirectOf(d, f) == IndirectOf(old(d), f)
        invariant bno <= NSLOTS || !StraysCut(old(d), f, newsize) ==>
                    && Inv(d, own) && Cut(old(d), d, f, newNblocks, bno)
                    && (bno <= NSLOTS ==> StrayWord(d, f) == StrayWord(old(d), f))
      {
        ghost var d1 := d;
        var r := FileFreeBlock(f, bno);
        if r == Err(Panic) {
          return true;
        }
        if bno < NSLOTS || !StraysCut(old(d), f, newsize) {
          if bno >= NSLOTS {
            BeyondTable(d1, f, bno);
            DroppedNothing(d1, SlotOf(f, bno));
          }
          CutMore(old(d), d1, d, f, newNblocks, bno);
        }
        bno := bno + 1;
      }
      if newNblocks <= NDIRECT && d.files[f].indirect != 0 {
        if !StraysCut(old(d), f, newsize) {
          forall j ensures Ptr(d, Table(f, j)) == 0 {
            assert Ptr(old(d), SlotOf(f, NDIRECT + j)) == 0 || InRange(Table(f, j), f, newNblocks, bno);
          }
        }
        Drop(Indirect(f));
        assert Ptr(d, Indirect(f)) == 0;
      }
    }

    method FileSetSize(f: nat, newsize: nat) returns (panicked: bool)
      requires Inv(d, own) && AllTrimmed(d) && f < |d.files|
      modifies this
      ensures Shaped(d) && |d.files| == |old(d).files| && |d.blocks| == |old(d).blocks|
      ensures !panicked ==> forall g :: 0 <= g < |d.files| ==>
                d.files[g].size == if g == f then newsize else old(d).files[g].size
      ensures !StraysCut(old(d), f, newsize) ==>
                && !panicked && Inv(d, own) && AllTrimmed(d)
                && (forall g, k: nat {:trigger ByteAt(d, g, k)} ::
                      ByteAt(d, g, k) == if g == f && NBlocks(newsize) <= k / BLKSIZE then 0 else ByteAt(old(d), g, k))
                && (newsize >= old(d).files[f].size ==> SameBytes(old(d), d))
    {
      assert Trimmed(d, f);
      panicked := false;
      if d.files[f].size > newsize {
        panicked := FileTruncateBlocks(f, newsize);
        if panicked {
          return;
        }
      }
      ghost var d1 := d;
      d := d.(files := d.files[f := d.files[f].(size := newsize)]);
      if !StraysCut(old(d), f, newsize) { Resized(old(d), d1, d, own, f, newsize); }
    }
  }
}
