/**
 The block cache of the file server (lab/fs/bc.c): disk blocks are read in on a page
 fault, written back when their page is dirty, and may be unmapped when it is not.

 The disk is a sequence of bytes that the IDE driver moves by the sector; a page table
 entry carries the flags that the cache looks at.
 */
module BlockCache {
  import opened Bitmap
  import opened FileSystem

  const SECTSIZE := 512
  const BLKSECTS := BLKSIZE / SECTSIZE

  const PTE_P: bv12 := 0x001
  const PTE_W: bv12 := 0x002
  const PTE_U: bv12 := 0x004
  const PTE_D: bv12 := 0x040
  const PTE_SYSCALL: bv12 := 0xE07

  datatype Page = Page(data: Block, flags: bv12)

  predicate Dirty(p: Page) { p.flags & PTE_D != 0 }

  // The file server reads and writes through the mapping.
  predicate Usable(p: Page) { p.flags & PTE_P != 0 && p.flags & PTE_U != 0 && p.flags & PTE_W != 0 }

  function FreshPage(): (p: Page)
    ensures Usable(p) && p.data == ZeroBlock()
  {
    Page(ZeroBlock(), PTE_U | PTE_P | PTE_W)
  }

  // sys_page_map(0, addr, 0, addr, uvpt[PGNUM(addr)] & PTE_SYSCALL)
  function Remap(p: Page): (r: Page)
    ensures !Dirty(r) && r.data == p.data && (Usable(p) <==> Usable(r))
  {
    assert (p.flags & PTE_SYSCALL) & PTE_D == 0;
    p.(flags := p.flags & PTE_SYSCALL)
  }

  // A store through the mapping; the processor sets PTE_D.
  function Touch(p: Page, data: Block): (r: Page)
    ensures Dirty(r) && r.data == data && (Usable(p) <==> Usable(r))
  {
    assert (p.flags | PTE_D) & PTE_D != 0;
    Page(data, p.flags | PTE_D)
  }

  // ------------------------------------------------------------------
  // The disk
  // ------------------------------------------------------------------

  // ide_read()
  function Sectors(disk: seq<Byte>, secno: nat, nsecs: nat): (r: seq<Byte>)
    requires (secno + nsecs) * SECTSIZE <= |disk|
    ensures |r| == nsecs * SECTSIZE
  {
    disk[secno * SECTSIZE..(secno + nsecs) * SECTSIZE]
  }

  // ide_write()
  function PutSectors(disk: seq<Byte>, secno: nat, data: seq<Byte>): (r: seq<Byte>)
    requires secno * SECTSIZE + |data| <= |disk|
    ensures |r| == |disk|
  {
    disk[..secno * SECTSIZE] + data + disk[secno * SECTSIZE + |data|..]
  }

  function OnDisk(disk: seq<Byte>, b: nat): (r: Block)
    requires (b + 1) * BLKSIZE <= |disk|
    ensures |r| == BLKSIZE
  {
    disk[b * BLKSIZE..(b + 1) * BLKSIZE]
  }

  lemma BlockIsItsSectors(disk: seq<Byte>, b: nat)
    requires (b + 1) * BLKSIZE <= |disk|
    ensures Sectors(disk, b * BLKSECTS, BLKSECTS) == OnDisk(disk, b)
  {
  }

  // Writing the sectors of one block changes that block and no other.
  lemma WriteBack(disk: seq<Byte>, b: nat, data: Block, c: nat)
    requires (b + 1) * BLKSIZE <= |disk| && (c + 1) * BLKSIZE <= |disk| && |data| == BLKSIZE
    ensures OnDisk(PutSectors(disk, b * BLKSECTS, data), c) == if c == b then data else OnDisk(disk, c)
  {
    var disk' := PutSectors(disk, b * BLKSECTS, data);
    assert b * BLKSECTS * SECTSIZE == b * BLKSIZE;
    if c == b {
      assert OnDisk(disk', c) == data;
    } else {
      assert c < b ==> (c + 1) * BLKSIZE <= b * BLKSIZE;
      assert b < c ==> (b + 1) * BLKSIZE <= c * BLKSIZE;
      assert forall k :: c * BLKSIZE <= k < (c + 1) * BLKSIZE ==> disk'[k] == disk[k];
    }
  }

  lemma WriteBackAll(disk: seq<Byte>, nblocks: nat, b: nat, data: Block)
    requires |disk| == nblocks * BLKSIZE && b < nblocks && |data| == BLKSIZE
    ensures var disk' := PutSectors(disk, b * BLKSECTS, data);
            forall c :: 0 <= c < nblocks ==> OnDisk(disk', c) == if c == b then data else OnDisk(disk, c)
  {
    forall c | 0 <= c < nblocks
      ensures OnDisk(PutSectors(disk, b * BLKSECTS, data), c) == if c == b then data else OnDisk(disk, c)
    {
      WriteBack(disk, b, data, c);
    }
  }

  // ------------------------------------------------------------------
  // The cache
  // ------------------------------------------------------------------

  // The bitmap, from the blocks it is stored in.
  function BitmapOf(blocks: seq<Block>): (r: seq<bv32>)
    requires Reserved(|blocks|) <= |blocks|
    ensures |r| == (Reserved(|blocks|) - 2) * NINDIRECT
  {
    seq((Reserved(|blocks|) - 2) * NINDIRECT, w requires 0 <= w < (Reserved(|blocks|) - 2) * NINDIRECT =>
      WordBits(blocks[2 + w / NINDIRECT], w % NINDIRECT))
  }

  function Doubled(x: bv32, odd: bool): bv32 {
    (x << 1) | (if odd then 1 else 0)
  }

  // The bits of a word.
  function Bits(n: nat): bv32 {
    if n == 0 then 0 else Doubled(Bits(n / 2), n % 2 == 1)
  }

  function Pow2(i: nat): (p: nat)
    ensures p > 0
  {
    if i == 0 then 1 else 2 * Pow2(i - 1)
  }

  lemma LowBit(x: bv32, b: bv32)
    requires b == 0 || b == 1
    ensures ((x << 1) | b) & 1 == b
  {
  }

  lemma HighBit(x: bv32, b: bv32, p: bv32, p': bv32)
    requires (b == 0 || b == 1) && p & 0x8000_0000 == 0 && p' == p << 1
    ensures ((x << 1) | b) & p' != 0 <==> x & p != 0
  {
  }

  lemma NextBit(i: nat)
    requires i + 1 < 32
    ensures Bit(i + 1) == Bit(i) << 1 && Bit(i) & 0x8000_0000 == 0
  {
  }

  lemma FirstBit(x: bv32, odd: bool)
    ensures HasBit(Doubled(x, odd), 0) <==> odd
  {
    LowBit(x, if odd then 1 else 0);
    assert Bit(0) == 1;
  }

  lemma HigherBit(x: bv32, b: bv32, i: nat)
    requires (b == 0 || b == 1) && 0 < i < 32
    ensures HasBit((x << 1) | b, i) <==> HasBit(x, i - 1)
  {
    NextBit(i - 1);
    HighBit(x, b, Bit(i - 1), Bit(i));
  }

  lemma ShiftedBit(x: bv32, odd: bool, i: nat)
    requires 0 < i < 32
    ensures HasBit(Doubled(x, odd), i) <==> HasBit(x, i - 1)
  {
    if odd { HigherBit(x, 1, i); } else { HigherBit(x, 0, i); }
  }

  lemma NoBits(i: nat)
    requires i < 32
    ensures !HasBit(0, i)
  {
  }

  // Binary digit i of a number.
  predicate Digit(n: nat, i: nat) {
    if i == 0 then n % 2 == 1 else Digit(n / 2, i - 1)
  }

  lemma Multiple(t: nat, k: nat, p: nat)
    requires k > 0
    ensures (t + k) * p == t * p + k * p && k * p >= p
  {
  }

  // There is one way to divide.
  lemma Unique(q: nat, r: nat, t: nat, m: nat, p: nat)
    requires q * p + r == t * p + m && r < p && m < p
    ensures q == t
  {
    if q > t { Multiple(t, q - t, p); }
    if q < t { Multiple(q, t - q, p); }
  }

  lemma Quotient(n: nat, p: nat, q: nat, r: nat)
    requires p > 0 && n == q * p + r && r < p
    ensures n / p == q
  {
    var t, m := n / p, n % p;
    assert n == t * p + m;
    Unique(q, r, t, m, p);
  }

  lemma HalveFirst(n: nat, p: nat)
    requires p > 0
    ensures n / 2 / p == n / (2 * p)
  {
    var q, r := n / 2 / p, n / 2 % p;
    assert n / 2 == q * p + r;
    assert n == q * (2 * p) + (2 * r + n % 2);
    Quotient(n, 2 * p, q, 2 * r + n % 2);
  }

  lemma {:induction false} DigitIsDigit(n: nat, i: nat)
    ensures Digit(n, i) <==> n / Pow2(i) % 2 == 1
    decreases i
  {
    if i > 0 {
      DigitIsDigit(n / 2, i - 1);
      HalveFirst(n, Pow2(i - 1));
    }
  }

  lemma {:induction false} NoDigits(i: nat)
    ensures !Digit(0, i)
  {
    if i > 0 { NoDigits(i - 1); }
  }

  // Bit i of the word is digit i of the number it holds.
  lemma {:induction false} BitsAreDigits(n: nat, i: nat)
    requires i < 32
    ensures HasBit(Bits(n), i) <==> Digit(n, i)
    decreases i
  {
    if n == 0 {
      NoBits(i);
      NoDigits(i);
    } else if i == 0 {
      FirstBit(Bits(n / 2), n % 2 == 1);
    } else {
      ShiftedBit(Bits(n / 2), n % 2 == 1, i);
      BitsAreDigits(n / 2, i - 1);
    }
  }

  function WordBits(b: Block, j: nat): bv32 { Bits(WordAt(b, j)) }

  // The bit of block `b`, in the bitmap block it is in.
  predicate FreeBit(block: Block, b: nat) {
    HasBit(WordBits(block, b / 32 % NINDIRECT), b % 32)
  }

  // A block is free if its digit in the number stored for it is 1.
  lemma FreeDigit(block: Block, b: nat)
    ensures FreeBit(block, b) <==> WordAt(block, b / 32 % NINDIRECT) / Pow2(b % 32) % 2 == 1
  {
    var n := WordAt(block, b / 32 % NINDIRECT);
    BitsAreDigits(n, b % 32);
    DigitIsDigit(n, b % 32);
  }

  lemma WordOfBitmap(blocks: seq<Block>, w: nat)
    requires Reserved(|blocks|) <= |blocks| && w < (Reserved(|blocks|) - 2) * NINDIRECT
    ensures 2 + w / NINDIRECT < |blocks| && BitmapOf(blocks)[w] == WordBits(blocks[2 + w / NINDIRECT], w % NINDIRECT)
  {
  }

  lemma FreeBitIsFree(blocks: seq<Block>, b: nat)
    requires Reserved(|blocks|) <= |blocks| && b < |blocks| && 2 + b / 32 / NINDIRECT < |blocks|
    ensures IsFree(BitmapOf(blocks), b) <==> FreeBit(blocks[2 + b / 32 / NINDIRECT], b)
  {
    BitInBitmap(|blocks|, b);
    WordOfBitmap(blocks, b / 32);
    WordDecides(BitmapOf(blocks), b, WordBits(blocks[2 + b / 32 / NINDIRECT], b / 32 % NINDIRECT));
  }

  lemma BitInBitmap(nblocks: nat, b: nat)
    requires b < nblocks
    ensures b / 32 < (Reserved(nblocks) - 2) * NINDIRECT && 2 + b / 32 / NINDIRECT < Reserved(nblocks)
  {
    var n := Reserved(nblocks) - 2;
    assert n * BLKBITSIZE >= nblocks;
    assert b / 32 / NINDIRECT == b / BLKBITSIZE;
  }

  // Blocks past the reserved ones do not matter to it.
  lemma BitmapKept(blocks: seq<Block>, b: nat, data: Block)
    requires Reserved(|blocks|) <= b < |blocks|
    ensures BitmapOf(blocks[b := data]) == BitmapOf(blocks)
  {
  }

  class Cache {
    const nblocks: nat                 // super->s_nblocks
    var disk: seq<Byte>
    var pages: map<nat, Page>          // what is mapped at DISKMAP + b * BLKSIZE

    // What is mapped and not dirty is what is on disk.
    ghost predicate Valid()
      reads this
    {
      && |disk| == nblocks * BLKSIZE && Reserved(nblocks) <= nblocks
      && (forall b :: b in pages ==> b < nblocks && |pages[b].data| == BLKSIZE && Usable(pages[b]))
      && (forall b :: b in pages && !Dirty(pages[b]) ==> pages[b].data == OnDisk(disk, b))
    }

    // The contents of block `b`, wherever they are.
    function Logical(b: nat): Block
      requires Valid() && b < nblocks
      reads this
    {
      if b in pages then pages[b].data else OnDisk(disk, b)
    }

    // All blocks as the file system sees them.
    ghost function Blocks(): (r: seq<Block>)
      requires Valid()
      reads this
      ensures |r| == nblocks
    {
      seq(nblocks, b requires 0 <= b < nblocks && Valid() reads this => Logical(b))
    }

    // The disk that the file system works on.
    ghost function AsDisk(files: seq<File>): Disk
      requires Valid()
      reads this
    {
      Disk(Blocks(), BitmapOf(Blocks()), files)
    }

    constructor (disk: seq<Byte>, nblocks: nat)
      requires |disk| == nblocks * BLKSIZE && Reserved(nblocks) <= nblocks
      ensures Valid() && this.nblocks == nblocks && this.disk == disk && pages == map[]
    {
      this.nblocks, this.disk, this.pages := nblocks, disk, map[];
    }

    predicate BlockIsFree(blockno: nat)
      requires Valid() && blockno < nblocks
      reads this
    {
      BitInBitmap(nblocks, blockno);
      FreeBit(Logical(2 + blockno / 32 / NINDIRECT), blockno)
    }

    // A fault at block `blockno`, which is not mapped; `bitmap` says whether the pointer to
    // the bitmap has been set.  False stands for panic().
    method BcPgfault(blockno: nat, bitmap: bool) returns (ok: bool)
      requires Valid() && blockno !in pages
      modifies this`pages
      ensures Valid() && Blocks() == old(Blocks())
      ensures ok <==> blockno < nblocks && !(bitmap && IsFree(BitmapOf(old(Blocks())), blockno))
      ensures ok ==> blockno in pages && !Dirty(pages[blockno])
      ensures forall b :: b != blockno ==> (b in pages <==> b in old(pages)) && (b in pages ==> pages[b] == old(pages)[b])
    {
      if blockno >= nblocks {
        return false;
      }
      pages := pages[blockno := FreshPage()];
      BlockIsItsSectors(disk, blockno);
      pages := pages[blockno := Touch(pages[blockno], Sectors(disk, blockno * BLKSECTS, BLKSECTS))];
      pages := pages[blockno := Remap(pages[blockno])];
      assert Blocks() == old(Blocks());
      BitInBitmap(nblocks, blockno);
      FreeBitIsFree(Blocks(), blockno);
      return !(bitmap && BlockIsFree(blockno));
    }

    method FlushBlock(blockno: nat)
      requires Valid() && blockno < nblocks
      modifies this`disk, this`pages
      ensures Valid() && Blocks() == old(Blocks())
      ensures OnDisk(disk, blockno) == Logical(blockno)
      ensures forall b :: 0 <= b < nblocks && b != blockno ==> OnDisk(disk, b) == OnDisk(old(disk), b)
      ensures forall b :: b in pages <==> b in old(pages)
      ensures forall b :: b in pages && b != blockno ==> pages[b] == old(pages)[b]
      ensures blockno in pages ==> !Dirty(pages[blockno])
    {
      if blockno in pages && Dirty(pages[blockno]) {
        WriteBackAll(disk, nblocks, blockno, pages[blockno].data);
        disk := PutSectors(disk, blockno * BLKSECTS, pages[blockno].data);
        pages := pages[blockno := Remap(pages[blockno])];
      }
    }

    // A store by the file system to a mapped block; past the reserved blocks it is what
    // `FileSystem.Store` and `FileSystem.SetPtr` do to their disk.
    method Store(blockno: nat, data: Block, ghost files: seq<File>)
      requires Valid() && blockno in pages && |data| == BLKSIZE
      modifies this`pages
      ensures Valid() && Blocks() == old(Blocks())[blockno := data]
      ensures blockno in pages && Dirty(pages[blockno])
      ensures forall b :: b != blockno ==> (b in pages <==> b in old(pages)) && (b in pages ==> pages[b] == old(pages)[b])
      ensures blockno >= Reserved(nblocks) ==>
                AsDisk(files) == old(AsDisk(files)).(blocks := old(Blocks())[blockno := data])
    {
      if blockno >= Reserved(nblocks) { BitmapKept(Blocks(), blockno, data); }
      pages := pages[blockno := Touch(pages[blockno], data)];
      assert Blocks() == old(Blocks())[blockno := data];
    }

    // sys_page_unmap() of a page that is not dirty, as check_bc() does.
    method Unmap(blockno: nat)
      requires Valid() && (blockno in pages ==> !Dirty(pages[blockno]))
      modifies this`pages
      ensures Valid() && Blocks() == old(Blocks()) && pages == old(pages) - {blockno}
    {
      pages := pages - {blockno};
    }

    method FsSync()
      requires Valid()
      modifies this`disk, this`pages
      ensures Valid() && Blocks() == old(Blocks())
      ensures forall b :: 1 <= b < nblocks ==> OnDisk(disk, b) == Logical(b)
      ensures forall b :: b in pages && b != 0 ==> !Dirty(pages[b])
      ensures forall b :: b in pages <==> b in old(pages)
    {
      var i := 1;
      while i < nblocks
        invariant Valid() && Blocks() == old(Blocks()) && 1 <= i
        invariant forall b :: 1 <= b < i && b < nblocks ==> OnDisk(disk, b) == Logical(b)
        invariant forall b :: b in pages && 1 <= b < i ==> !Dirty(pages[b])
        invariant forall b :: b in pages <==> b in old(pages)
      {
        ghost var was := Blocks();
        FlushBlock(i);
        assert forall b :: 0 <= b < nblocks ==> Logical(b) == was[b];
        i := i + 1;
      }
    }
  }
}
