/**
 Building the first disk image (lab/fs/fsformat.c): a bump allocator, file records that
 point at consecutive blocks, and a bitmap written at the end.

 File 0 is the root directory, file i + 1 the i-th file given.  The records start out
 zeroed; the copy of them in the blocks of the root directory is left out.
 */
module FsFormat {
  import opened Options
  import opened Bitmap
  import opened FileSystem

  const FILE_SIZE := 256        // sizeof(struct File)
  const MAX_DIR_ENTS := 128

  // ROUNDUP on uint32_t: (n - 1) wraps at 0, and the result is 0.
  function RoundUp(n: nat): nat
    requires n <= 0x1_0000_0000 - BLKSIZE
  {
    var m := (n + 0x1_0000_0000 - 1) % 0x1_0000_0000;
    (m + BLKSIZE - m % BLKSIZE) % 0x1_0000_0000
  }

  // ROUNDUP on int, where -1 % BLKSIZE is -1.
  function RoundUpInt(n: nat): nat {
    if n == 0 then -1 + BLKSIZE - -1 else n - 1 + BLKSIZE - (n - 1) % BLKSIZE
  }

  // Both are the number of whole blocks that `n` bytes take, except that the signed one
  // gives a block to nothing.
  lemma RoundUps(n: nat)
    requires n <= 0x1_0000_0000 - BLKSIZE
    ensures RoundUp(n) == NBlocks(n) * BLKSIZE
    ensures RoundUpInt(n) == if n == 0 then BLKSIZE else RoundUp(n)
  {
    if n > 0 {
      assert (n - 1 + 0x1_0000_0000) % 0x1_0000_0000 == n - 1;
      assert n + BLKSIZE - 1 == (n - 1) + BLKSIZE;
    }
  }

  // ------------------------------------------------------------------
  // A disk being built
  // ------------------------------------------------------------------

  ghost predicate LinkOk(d: Disk, own: map<nat, Slot>, b: nat) {
    b in own ==> 0 < b < |d.blocks| && Ptr(d, own[b]) == b
  }

  ghost predicate Linked(d: Disk, own: map<nat, Slot>) {
    && Shaped(d)
    && (forall s {:trigger SlotOk(d, own, s)} :: SlotOk(d, own, s))
    && (forall b {:trigger LinkOk(d, own, b)} :: LinkOk(d, own, b))
  }

  lemma LinksApart(d: Disk, own: map<nat, Slot>, s: Slot, t: Slot)
    requires Linked(d, own) && Ptr(d, s) == Ptr(d, t) != 0
    ensures s == t
  {
    assert SlotOk(d, own, s) && SlotOk(d, own, t);
  }

  // *slot = b
  ghost predicate Linkable(d: Disk, own: map<nat, Slot>, s: Slot, b: nat) {
    && Exists(d, s) && Ptr(d, s) == 0 && 0 < b < |d.blocks| && b !in own
    && (s.Table? ==> IndirectOf(d, s.f) < |d.blocks|)
    && (s.Indirect? ==> d.blocks[b] == ZeroBlock())
  }

  lemma LinkPtr(d: Disk, own: map<nat, Slot>, s: Slot, b: nat, t: Slot)
    requires Linked(d, own) && Linkable(d, own, s, b)
    ensures Ptr(SetPtr(d, s, b), t) == if t == s then b else Ptr(d, t)
  {
    if t.Table? {
      ZeroTable(t.j);
      if s.Table? {
        PutWordAt(d.blocks[d.files[s.f].indirect], s.j, b, t.j);
        if IndirectOf(d, t.f) == IndirectOf(d, s.f) {
          LinksApart(d, own, Indirect(s.f), Indirect(t.f));
        }
      }
    }
  }

  lemma LinkKeeps(d: Disk, own: map<nat, Slot>, s: Slot, b: nat)
    requires Linked(d, own) && Linkable(d, own, s, b)
    ensures Linked(SetPtr(d, s, b), own[b := s])
  {
    var d', own' := SetPtr(d, s, b), own[b := s];
    forall t ensures SlotOk(d', own', t) {
      LinkPtr(d, own, s, b, t);
      assert SlotOk(d, own, t) && SlotOk(d, own, s);
    }
    forall c ensures LinkOk(d', own', c) {
      assert LinkOk(d, own, c);
      LinkPtr(d, own, s, b, if c in own' then own'[c] else s);
    }
  }

  ghost predicate Keys(own: map<nat, Slot>, lo: nat, hi: nat) {
    forall b :: b in own <==> lo <= b < hi
  }

  ghost predicate ZeroFrom(d: Disk, pos: nat) {
    forall b :: pos <= b < |d.blocks| ==> d.blocks[b] == ZeroBlock()
  }

  // File `f` is made of blocks start, start + 1, ...
  ghost predicate Consecutive(d: Disk, f: nat, start: nat, n: nat) {
    forall i: nat {:trigger SlotOf(f, i)} :: Ptr(d, SlotOf(f, i)) == if i < n then start + i else 0
  }

  // What is linked already stays.
  ghost predicate Kept(d: Disk, d': Disk, own: map<nat, Slot>, f: nat) {
    && |d'.files| == |d.files| && |d'.blocks| == |d.blocks| && d'.bitmap == d.bitmap
    && (forall g :: 0 <= g < |d.files| && g != f ==> d'.files[g] == d.files[g])
    && (forall b :: 0 <= b < |d.blocks| && b in own ==> d'.blocks[b] == d.blocks[b])
  }

  lemma KeptFile(d: Disk, d': Disk, own: map<nat, Slot>, f: nat, g: nat)
    requires Linked(d, own) && Kept(d, d', own, f) && g != f
    ensures forall s: Slot {:trigger Ptr(d', s)} :: s.f == g ==> Ptr(d', s) == Ptr(d, s)
    ensures forall k: nat :: ByteAt(d', g, k) == ByteAt(d, g, k)
  {
    assert SlotOk(d, own, Indirect(g)) && LinkOk(d, own, Ptr(d, Indirect(g)));
    forall k: nat ensures ByteAt(d', g, k) == ByteAt(d, g, k) {
      var s := SlotOf(g, k / BLKSIZE);
      assert SlotOk(d, own, s) && LinkOk(d, own, Ptr(d, s));
      assert Ptr(d', s) == Ptr(d, s);
    }
  }

  // The bytes of `data` that fall in its `i`th block.
  function Chunk(data: seq<Byte>, i: nat): (r: Block)
    ensures |r| == BLKSIZE
  {
    seq(BLKSIZE, k requires 0 <= k < BLKSIZE => if i * BLKSIZE + k < |data| then data[i * BLKSIZE + k] else 0)
  }

  // readn(fd, start, size), into blocks that were zero
  function Spread(blocks: seq<Block>, start: nat, data: seq<Byte>): (r: seq<Block>)
    ensures |r| == |blocks|
    ensures forall b :: 0 <= b < |r| ==>
              r[b] == if start <= b < start + NBlocks(|data|) then Chunk(data, b - start) else blocks[b]
  {
    seq(|blocks|, b requires 0 <= b < |blocks| =>
      if start <= b < start + NBlocks(|data|) then Chunk(data, b - start) else blocks[b])
  }

  // File `f` holds `data`.
  ghost predicate Holds(d: Disk, f: nat, data: seq<Byte>) {
    && f < |d.files| && d.files[f].size == |data| && Trimmed(d, f)
    && forall k: nat :: ByteAt(d, f, k) == if k < |data| then data[k] else 0
  }

  // The file record has not been filled in.
  ghost predicate Empty(d: Disk, f: nat) {
    f < |d.files| && d.files[f].indirect == 0 && forall i :: 0 <= i < |d.files[f].direct| ==> d.files[f].direct[i] == 0
  }

  // How many blocks of block numbers a file has: fsformat gives it one as soon as the
  // direct slots are full.
  function Tables(len: nat): nat {
    if NBlocks(len) >= NDIRECT then 1 else 0
  }

  lemma LinkedKept(d: Disk, d': Disk, own: map<nat, Slot>)
    requires Linked(d, own) && Shaped(d') && Kept(d, d'.(bitmap := d.bitmap), own, |d.files|)
    ensures Linked(d', own)
  {
    forall s ensures Ptr(d', s) == Ptr(d, s) {
      KeptFile(d, d'.(bitmap := d.bitmap), own, |d.files|, if s.f == |d.files| then s.f + 1 else s.f);
      assert Ptr(d', s) == Ptr(d'.(bitmap := d.bitmap), s);
    }
    forall s ensures SlotOk(d', own, s) { assert SlotOk(d, own, s); }
    forall b ensures LinkOk(d', own, b) { assert LinkOk(d, own, b); }
  }

  lemma SpreadHolds(d: Disk, f: nat, start: nat, data: seq<Byte>)
    requires f < |d.files| && d.files[f].size == |data| && Consecutive(d, f, start, NBlocks(|data|))
    requires 0 < start && start + NBlocks(|data|) <= |d.blocks|
    requires forall i :: 0 <= i < NBlocks(|data|) ==> d.blocks[start + i] == Chunk(data, i)
    requires IndirectOf(d, f) != 0 ==> NBlocks(|data|) >= NDIRECT
    ensures Holds(d, f, data)
  {
    forall k: nat ensures ByteAt(d, f, k) == if k < |data| then data[k] else 0 {
      assert Ptr(d, SlotOf(f, k / BLKSIZE)) == if k / BLKSIZE < NBlocks(|data|) then start + k / BLKSIZE else 0;
      if k / BLKSIZE < NBlocks(|data|) {
        assert d.blocks[start + k / BLKSIZE] == Chunk(data, k / BLKSIZE);
      }
    }
  }

  // The blocks that the files take, tables included.
  function Needs(contents: seq<seq<Byte>>): nat
    decreases |contents|
  {
    if contents == [] then 0
    else
      var last := |contents[|contents| - 1]|;
      Needs(contents[..|contents| - 1]) + NBlocks(last) + Tables(last)
  }

  // writefile() turns away files of the maximum size.
  predicate Small(contents: seq<seq<Byte>>) {
    forall i :: 0 <= i < |contents| ==> |contents[i]| < MAXFILESIZE
  }

  lemma {:induction false} NeedsMore(contents: seq<seq<Byte>>, i: nat)
    requires i < |contents|
    ensures Needs(contents[..i + 1]) == Needs(contents[..i]) + NBlocks(|contents[i]|) + Tables(|contents[i]|)
    ensures Needs(contents[..i + 1]) <= Needs(contents)
    decreases |contents| - i
  {
    assert contents[..i + 1][..i] == contents[..i];
    if i + 1 < |contents| {
      NeedsMore(contents, i + 1);
    } else {
      assert contents[..i + 1] == contents;
    }
  }

  // A new disk, all zero.
  function Blank(nblocks: nat, nfiles: nat): (r: Disk)
    ensures |r.blocks| == nblocks && |r.files| == nfiles
    ensures forall b :: 0 <= b < nblocks ==> r.blocks[b] == ZeroBlock()
    ensures forall f :: 0 <= f < nfiles ==> r.files[f] == File(0, seq(NDIRECT, _ => 0), 0)
  {
    Disk(seq(nblocks, _ => ZeroBlock()), [], seq(nfiles, _ => File(0, seq(NDIRECT, _ => 0), 0)))
  }

  lemma BlankLinked(d: Disk)
    requires Shaped(d) && forall f :: 0 <= f < |d.files| ==> d.files[f] == File(0, seq(NDIRECT, _ => 0), 0)
    ensures Linked(d, map[])
  {
    forall s ensures SlotOk(d, map[], s) { }
    forall b ensures LinkOk(d, map[], b) { }
  }

  class Formatter {
    var d: Disk
    var pos: nat                   // blockof(diskpos)
    ghost var own: map<nat, Slot>

    constructor (nblocks: nat, nfiles: nat)
      requires nblocks <= 1024
      ensures d == Blank(nblocks, nfiles) && pos == 0 && own == map[]
    {
      d, pos, own := Blank(nblocks, nfiles), 0, map[];
    }

    method OpenDisk() returns (ok: bool)
      requires d == Blank(|d.blocks|, |d.files|) && |d.blocks| <= 1024 && pos == 0 && own == map[]
      modifies this
      ensures |d.blocks| == |old(d).blocks| && d.files == old(d).files
      ensures ok <==> Reserved(|d.blocks|) < |d.blocks|
      ensures ok ==> pos == Reserved(|d.blocks|)
      ensures ok ==> Building() && own == map[] && forall w :: 0 <= w < |d.bitmap| ==> d.bitmap[w] == 0xFFFF_FFFF
    {
      var nbitblocks := (|d.blocks| + BLKBITSIZE - 1) / BLKBITSIZE;
      var boot := Alloc(BLKSIZE);
      if boot.None? { return false; }
      var super := Alloc(BLKSIZE);
      if super.None? { return false; }
      var bitmap := Alloc(nbitblocks * BLKSIZE);
      if bitmap.None? { return false; }
      d := d.(bitmap := seq(nbitblocks * (BLKSIZE / 4), _ => 0xFFFF_FFFF));
      BlankLinked(d);
      return true;
    }

    method Alloc(bytes: nat) returns (start: Option<nat>)
      requires bytes <= 0x1_0000_0000 - BLKSIZE
      modifies this`pos
      ensures pos == old(pos) + NBlocks(bytes)
      ensures start == if pos >= |d.blocks| then None else Some(old(pos))
    {
      RoundUps(bytes);
      start := Some(pos);
      pos := pos + RoundUp(bytes) / BLKSIZE;
      if pos >= |d.blocks| {
        return None;
      }
    }

    // *slot = b
    method Link(s: Slot, b: nat)
      requires Linked(d, own) && Linkable(d, own, s, b)
      modifies this`d, this`own
      ensures Linked(d, own) && own == old(own)[b := s] && d == SetPtr(old(d), s, b)
      ensures forall t {:trigger Ptr(d, t)} :: Ptr(d, t) == if t == s then b else Ptr(old(d), t)
    {
      LinkKeeps(d, own, s, b);
      forall t ensures Ptr(SetPtr(d, s, b), t) == if t == s then b else Ptr(d, t) {
        LinkPtr(d, own, s, b, t);
      }
      d := SetPtr(d, s, b);
      own := own[b := s];
    }

    method FinishFile(f: nat, start: nat, len: nat) returns (ok: bool)
      requires Linked(d, own) && Keys(own, Reserved(|d.blocks|), start) && Empty(d, f) && ZeroFrom(d, pos)
      requires Reserved(|d.blocks|) <= start <= pos && start + NBlocks(len) <= |d.blocks| && len <= MAXFILESIZE
      requires NBlocks(len) >= NDIRECT ==> start + NBlocks(len) == pos
      modifies this
      ensures ok ==> Linked(d, own) && Kept(old(d), d, old(own), f) && d.files[f].size == len
      ensures ok ==> Consecutive(d, f, start, NBlocks(len)) && (IndirectOf(d, f) != 0 <==> NBlocks(len) >= NDIRECT)
      ensures ok ==> Keys(own, Reserved(|d.blocks|), start + NBlocks(len) + Tables(len)) && pos == old(pos) + Tables(len)
      ensures ok ==> forall b :: 0 <= b < |d.blocks| && b != start + NBlocks(len) ==> d.blocks[b] == old(d).blocks[b]
      ensures ok ==> ZeroFrom(d, pos) && (pos < |d.blocks| || pos == old(pos))
      ensures ok <==> Tables(len) == 0 || old(pos) + 1 < |old(d).blocks|
    {
      RoundUps(len);
      var n := RoundUp(len) / BLKSIZE;
      SetSize(f, len);
      var i := FillDirect(f, start, n);
      if i == NDIRECT {
        ok := AddTable(f, start, n);
        return;
      }
      return true;
    }

    method AddTable(f: nat, start: nat, n: nat) returns (ok: bool)
      requires Linked(d, own) && Keys(own, Reserved(|d.blocks|), start + NDIRECT) && ZeroFrom(d, pos)
      requires f < |d.files| && IndirectOf(d, f) == 0 && Consecutive(d, f, start, NDIRECT)
      requires Reserved(|d.blocks|) <= start && start + n == pos && NDIRECT <= n <= NSLOTS
      modifies this
      ensures pos == old(pos) + 1 && (ok <==> pos < |old(d).blocks|)
      ensures ok ==> Linked(d, own) && Keys(own, Reserved(|d.blocks|), pos) && ZeroFrom(d, pos) && pos < |d.blocks|
      ensures ok ==> Kept(old(d), d, old(own), f) && d.files[f].size == old(d).files[f].size
      ensures ok ==> Consecutive(d, f, start, n) && IndirectOf(d, f) != 0
      ensures ok ==> forall b :: 0 <= b < |d.blocks| && b != start + n ==> d.blocks[b] == old(d).blocks[b]
    {
      var ind := Alloc(BLKSIZE);
      if ind.None? {
        return false;
      }
      Link(Indirect(f), ind.value);
      FillTable(f, start, n, ind.value);
      return true;
    }

    method SetSize(f: nat, len: nat)
      requires Linked(d, own) && f < |d.files|
      modifies this`d
      ensures d == old(d).(files := old(d).files[f := old(d).files[f].(size := len)])
      ensures Linked(d, own)
    {
      ghost var d0 := d;
      d := d.(files := d.files[f := d.files[f].(size := len)]);
      assert forall s :: Ptr(d, s) == Ptr(d0, s);
      forall s ensures SlotOk(d, own, s) { assert SlotOk(d0, own, s); }
      forall b ensures LinkOk(d, own, b) { assert LinkOk(d0, own, b); }
    }

    method FillDirect(f: nat, start: nat, n: nat) returns (i: nat)
      requires Linked(d, own) && Keys(own, Reserved(|d.blocks|), start) && Empty(d, f)
      requires Reserved(|d.blocks|) <= start && start + n <= |d.blocks|
      modifies this`d, this`own
      ensures i == Min(n, NDIRECT) && Linked(d, own) && Keys(own, Reserved(|d.blocks|), start + i)
      ensures Kept(old(d), d, old(own), f) && d.blocks == old(d).blocks && d.files[f].size == old(d).files[f].size
      ensures Consecutive(d, f, start, i) && IndirectOf(d, f) == 0
    {
      i := 0;
      while i < n && i < NDIRECT
        invariant i <= n && i <= NDIRECT && Linked(d, own) && Keys(own, Reserved(|d.blocks|), start + i)
        invariant Kept(old(d), d, old(own), f) && d.blocks == old(d).blocks && d.files[f].size == old(d).files[f].size
        invariant Consecutive(d, f, start, i) && IndirectOf(d, f) == 0
      {
        assert Ptr(d, SlotOf(f, i)) == 0;
        Link(Direct(f, i), start + i);
        i := i + 1;
      }
    }

    method FillTable(f: nat, start: nat, n: nat, ind: nat)
      requires Linked(d, own) && f < |d.files| && IndirectOf(d, f) == ind == start + n < |d.blocks| && NDIRECT <= n <= NSLOTS
      requires Consecutive(d, f, start, NDIRECT)
      requires forall b :: b in own <==> Reserved(|d.blocks|) <= b < start + NDIRECT || b == ind
      requires Reserved(|d.blocks|) <= start
      modifies this`d, this`own
      ensures Linked(d, own) && Keys(own, Reserved(|d.blocks|), ind + 1)
      ensures d == old(d).(blocks := d.blocks) && |d.blocks| == |old(d).blocks|
      ensures forall b :: 0 <= b < |d.blocks| && b != ind ==> d.blocks[b] == old(d).blocks[b]
      ensures Consecutive(d, f, start, n)
    {
      var i := NDIRECT;
      while i < n
        invariant NDIRECT <= i <= n && Linked(d, own) && Consecutive(d, f, start, i)
        invariant forall b :: b in own <==> Reserved(|d.blocks|) <= b < start + i || b == ind
        invariant d == old(d).(blocks := d.blocks) && |d.blocks| == |old(d).blocks|
        invariant forall b :: 0 <= b < |d.blocks| && b != ind ==> d.blocks[b] == old(d).blocks[b]
      {
        assert Ptr(d, SlotOf(f, i)) == 0;
        Link(Table(f, i - NDIRECT), start + i);
        i := i + 1;
      }
    }

    // Between opendisk() and finishdisk().
    ghost predicate Building()
      reads this
    {
      && Linked(d, own) && Keys(own, Reserved(|d.blocks|), pos) && ZeroFrom(d, pos)
      && Reserved(|d.blocks|) <= pos < |d.blocks| <= 1024
    }

    method WriteFile(f: nat, data: seq<Byte>) returns (ok: bool)
      requires Building() && Empty(d, f)
      modifies this
      ensures ok ==> Building() && Kept(old(d), d, old(own), f) && Holds(d, f, data)
      ensures ok ==> pos == old(pos) + NBlocks(|data|) + Tables(|data|)
      ensures ok <==> |data| < MAXFILESIZE && old(pos) + NBlocks(|data|) + Tables(|data|) < |old(d).blocks|
    {
      if |data| >= MAXFILESIZE {
        return false;
      }
      var start := Alloc(|data|);
      if start.None? {
        return false;
      }
      Place(start.value, data);
      ok := FinishFile(f, start.value, |data|);
      if ok {
        SpreadHolds(d, f, start.value, data);
      }
    }

    // readn(fd, start, size)
    method Place(start: nat, data: seq<Byte>)
      requires Linked(d, own) && Keys(own, Reserved(|d.blocks|), start)
      modifies this`d
      ensures d == old(d).(blocks := Spread(old(d).blocks, start, data)) && Linked(d, own)
    {
      ghost var d' := d.(blocks := Spread(d.blocks, start, data));
      LinkedKept(d, d', own);
      d := d.(blocks := Spread(d.blocks, start, data));
    }

    // The loop of main() over its arguments.
    method WriteFiles(contents: seq<seq<Byte>>) returns (ok: bool)
      requires Building() && |d.files| == |contents| + 1 && forall g :: 0 <= g < |d.files| ==> Empty(d, g)
      modifies this
      ensures ok ==> Building() && |contents| <= MAX_DIR_ENTS && d.bitmap == old(d).bitmap && Empty(d, 0)
      ensures ok ==> |d.blocks| == |old(d).blocks| && |d.files| == |old(d).files|
      ensures ok ==> forall j :: 0 <= j < |contents| ==> Holds(d, j + 1, contents[j])
      ensures ok ==> pos == old(pos) + Needs(contents)
      ensures ok <==> |contents| <= MAX_DIR_ENTS && Small(contents) && old(pos) + Needs(contents) < |old(d).blocks|
    {
      assert contents[..|contents|] == contents;
      var i := 0;
      while i < |contents|
        invariant i <= |contents| && i <= MAX_DIR_ENTS && Written(contents, i, old(pos)) && d.bitmap == old(d).bitmap
        invariant |d.blocks| == |old(d).blocks| && |d.files| == |old(d).files|
      {
        if i + 1 > MAX_DIR_ENTS {
          return false;
        }
        NeedsMore(contents, i);
        ok := WriteNext(contents, i, old(pos));
        if !ok {
          return;
        }
        i := i + 1;
      }
      return true;
    }

    // The first `i` files are there, the other records are empty.
    ghost predicate Written(contents: seq<seq<Byte>>, i: nat, pos0: nat)
      requires i <= |contents|
      reads this
    {
      && Building() && |d.files| == |contents| + 1 && Empty(d, 0)
      && (forall j :: 0 <= j < i ==> Holds(d, j + 1, contents[j]))
      && (forall g :: i < g < |d.files| ==> Empty(d, g))
      && pos == pos0 + Needs(contents[..i]) && Small(contents[..i])
    }

    method WriteNext(contents: seq<seq<Byte>>, i: nat, ghost pos0: nat) returns (ok: bool)
      requires i < |contents| && Written(contents, i, pos0)
      modifies this
      ensures ok ==> Written(contents, i + 1, pos0) && d.bitmap == old(d).bitmap && |d.blocks| == |old(d).blocks|
      ensures ok <==> |contents[i]| < MAXFILESIZE && pos0 + Needs(contents[..i + 1]) < |old(d).blocks|
    {
      NeedsMore(contents, i);
      ok := WriteFile(i + 1, contents[i]);
      if ok {
        StillHold(old(d), d, old(own), i + 1, contents, i);
        forall g | i + 1 < g < |d.files| ensures Empty(d, g) {
          assert Empty(old(d), g) && d.files[g] == old(d).files[g];
        }
      }
    }

    method FinishDir(n: nat) returns (ok: bool)
      requires Building() && Empty(d, 0) && n <= MAX_DIR_ENTS
      modifies this
      ensures ok ==> Linked(d, own) && Kept(old(d), d, old(own), 0) && Trimmed(d, 0)
      ensures ok ==> d.files[0].size == RoundUpInt(n * FILE_SIZE)
      ensures ok ==> Keys(own, Reserved(|d.blocks|), if n == 0 then pos + 1 else pos)
      ensures ok ==> Reserved(|d.blocks|) <= pos < |d.blocks|
      ensures ok <==> old(pos) + NBlocks(n * FILE_SIZE) < |old(d).blocks|
    {
      var size := n * FILE_SIZE;
      var start := Alloc(size);
      if start.None? {
        return false;
      }
      RoundUps(size);
      ok := FinishFile(0, start.value, RoundUpInt(size));
    }

    method FinishDisk()
      requires pos <= |d.blocks| && Shaped(d)
      requires forall w :: 0 <= w < |d.bitmap| ==> d.bitmap[w] == 0xFFFF_FFFF
      modifies this`d
      ensures d == old(d).(bitmap := d.bitmap) && |d.bitmap| == |old(d).bitmap|
      ensures forall b :: 0 <= b < |d.blocks| ==> (IsFree(d.bitmap, b) <==> pos <= b)
    {
      forall b | 0 <= b < |d.blocks| ensures IsFree(d.bitmap, b) { AllOnesIsFree(d.bitmap, b); }
      var i := 0;
      while i < pos
        invariant i <= pos && d == old(d).(bitmap := d.bitmap) && |d.bitmap| == |old(d).bitmap|
        invariant forall b :: 0 <= b < |d.blocks| ==> (IsFree(d.bitmap, b) <==> i <= b)
      {
        ghost var bitmap := d.bitmap;
        d := d.(bitmap := Clear(d.bitmap, i));
        forall b | 0 <= b < |d.blocks| ensures IsFree(d.bitmap, b) <==> b != i && IsFree(bitmap, b) {
          ClearTakes(bitmap, i, b);
        }
        i := i + 1;
      }
    }
  }

  // The finished disk is sound exactly if the bitmap agrees with the blocks handed out.
  lemma Finished(d: Disk, own: map<nat, Slot>, pos: nat)
    requires Linked(d, own) && Keys(own, Reserved(|d.blocks|), pos) && pos <= |d.blocks|
    requires forall b :: 0 <= b < |d.blocks| ==> (IsFree(d.bitmap, b) <==> pos <= b) && Reserved(|d.blocks|) <= pos
    ensures Inv(d, own)
  {
    forall b ensures BlockOk(d, own, b) { assert LinkOk(d, own, b); }
  }

  // A free block in a slot.
  lemma Unsound(d: Disk, own: map<nat, Slot>, pos: nat)
    requires Linked(d, own) && Keys(own, Reserved(|d.blocks|), pos + 1) && Reserved(|d.blocks|) <= pos < |d.blocks|
    requires IsFree(d.bitmap, pos)
    ensures forall o :: !Inv(d, o)
  {
    assert LinkOk(d, own, pos);
    forall o ensures !Inv(d, o) {
      if Inv(d, o) { FreeUnowned(d, o, pos, own[pos]); }
    }
  }

  // Filling in record `f` leaves the files before it alone.
  lemma StillHold(d: Disk, d': Disk, own: map<nat, Slot>, f: nat, contents: seq<seq<Byte>>, n: nat)
    requires Linked(d, own) && Kept(d, d', own, f) && n <= |contents| && (f == 0 || n < f)
    requires forall j :: 0 <= j < n ==> Holds(d, j + 1, contents[j])
    ensures forall j :: 0 <= j < n ==> Holds(d', j + 1, contents[j])
  {
    forall j | 0 <= j < n ensures Holds(d', j + 1, contents[j]) {
      assert Holds(d, j + 1, contents[j]);
      KeptFile(d, d', own, f, j + 1);
    }
  }

  // `d'` is `d` with its bitmap written.
  lemma Outcome(d: Disk, d': Disk, own: map<nat, Slot>, pos: nat, contents: seq<seq<Byte>>)
    requires d' == d.(bitmap := d'.bitmap) && |d'.bitmap| == |d.bitmap| && Linked(d, own) && |d.files| == |contents| + 1
    requires Keys(own, Reserved(|d.blocks|), if contents == [] then pos + 1 else pos)
    requires Reserved(|d.blocks|) <= pos < |d.blocks| && Trimmed(d, 0)
    requires forall b :: 0 <= b < |d.blocks| ==> (IsFree(d'.bitmap, b) <==> pos <= b)
    requires forall j :: 0 <= j < |contents| ==> Holds(d, j + 1, contents[j])
    ensures forall j :: 0 <= j < |contents| ==> Holds(d', j + 1, contents[j])
    ensures if contents == [] then forall o :: !Inv(d', o) else Inv(d', own) && AllTrimmed(d')
  {
    LinkedKept(d, d', own);
    assert forall s :: Ptr(d', s) == Ptr(d, s);
    forall j | 0 <= j < |contents| ensures Holds(d', j + 1, contents[j]) {
      assert Holds(d, j + 1, contents[j]);
      var f := j + 1;
      assert forall k: nat :: ByteAt(d', f, k) == ByteAt(d, f, k);
    }
    forall f | 0 <= f < |d.files| ensures Trimmed(d', f) {
      assert f == 0 || Holds(d, (f - 1) + 1, contents[f - 1]);
    }
    if contents == [] { Unsound(d', own, pos); } else { Finished(d', own, pos); }
  }

  // What it takes for an image to be made.
  predicate Fits(nblocks: nat, contents: seq<seq<Byte>>) {
    && 2 <= nblocks <= 1024 && |contents| <= MAX_DIR_ENTS && Small(contents)
    && Reserved(nblocks) + Needs(contents) + NBlocks(|contents| * FILE_SIZE) < nblocks
  }

  // main(): files given in order.  Without any, the root directory gets a block that was
  // not allocated.
  method Format(nblocks: nat, contents: seq<seq<Byte>>) returns (r: Option<Disk>, ghost own: map<nat, Slot>)
    ensures r.Some? <==> Fits(nblocks, contents)
    ensures r.Some? ==> |r.value.blocks| == nblocks && |r.value.files| == |contents| + 1
    ensures r.Some? ==> forall i :: 0 <= i < |contents| ==> Holds(r.value, i + 1, contents[i])
    ensures r.Some? ==> r.value.files[0].size == RoundUpInt(|contents| * FILE_SIZE)
    ensures r.Some? && |contents| > 0 ==> Inv(r.value, own) && AllTrimmed(r.value)
    ensures r.Some? && |contents| == 0 ==> forall o :: !Inv(r.value, o)
  {
    own := map[];
    if nblocks < 2 || nblocks > 1024 {
      return None, own;
    }
    var m := new Formatter(nblocks, |contents| + 1);
    var ok := m.OpenDisk();
    if !ok {
      return None, own;
    }
    ok := m.WriteFiles(contents);
    if !ok {
      return None, own;
    }
    ghost var d0, own0 := m.d, m.own;
    ok := m.FinishDir(|contents|);
    if !ok {
      return None, own;
    }
    StillHold(d0, m.d, own0, 0, contents, |contents|);
    ghost var d1 := m.d;
    m.FinishDisk();
    Outcome(d1, m.d, m.own, m.pos, contents);
    return Some(m.d), m.own;
  }

  // The smallest image without files is made, and is unsound.
  method EmptyImage() returns (d: Disk)
    ensures |d.blocks| == 4 && forall o :: !Inv(d, o)
  {
    var r, own := Format(4, []);
    d := r.value;
  }
}
