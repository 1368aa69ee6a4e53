/**
 The free-block bitmap: one bit per block, 32 to a word, set while the block is free
 (lab/fs/fs.c).
 */
module Bitmap {

  function Bit(i: nat): bv32
    requires i < 32
  {
    (1 as bv32) << i
  }

  predicate IsFree(bitmap: seq<bv32>, b: nat) {
    b / 32 < |bitmap| && bitmap[b / 32] & Bit(b % 32) != 0
  }

  predicate HasBit(word: bv32, i: nat)
    requires i < 32
  {
    word & Bit(i) != 0
  }

  lemma WordDecides(bitmap: seq<bv32>, b: nat, word: bv32)
    requires b / 32 < |bitmap| && bitmap[b / 32] == word
    ensures IsFree(bitmap, b) <==> HasBit(word, b % 32)
  {
  }

  function Mark(bitmap: seq<bv32>, b: nat): seq<bv32>
    requires b / 32 < |bitmap|
  {
    bitmap[b / 32 := bitmap[b / 32] | Bit(b % 32)]
  }

  function Flip(bitmap: seq<bv32>, b: nat): seq<bv32>
    requires b / 32 < |bitmap|
  {
    bitmap[b / 32 := bitmap[b / 32] ^ Bit(b % 32)]
  }

  function Clear(bitmap: seq<bv32>, b: nat): seq<bv32>
    requires b / 32 < |bitmap|
  {
    bitmap[b / 32 := bitmap[b / 32] & !Bit(b % 32)]
  }

  lemma BitsApart(i: nat, j: nat)
    requires i < 32 && j < 32 && i != j
    ensures Bit(i) & Bit(j) == 0
  {
  }

  lemma OrOthers(w: bv32, a: bv32, b: bv32)
    requires a & b == 0
    ensures (w | a) & b == w & b
  {
  }

  lemma XorOthers(w: bv32, a: bv32, b: bv32)
    requires a & b == 0
    ensures (w ^ a) & b == w & b
  {
  }

  lemma ClearOthers(w: bv32, a: bv32, b: bv32)
    requires a & b == 0
    ensures w & !a & b == w & b
  {
  }

  lemma OwnBit(w: bv32, i: nat)
    requires i < 32
    ensures (w | Bit(i)) & Bit(i) != 0
    ensures w & Bit(i) != 0 ==> (w ^ Bit(i)) & Bit(i) == 0
    ensures w & !Bit(i) & Bit(i) == 0 && Bit(i) != 0
  {
  }

  lemma MarkFrees(bitmap: seq<bv32>, b: nat, c: nat)
    requires b / 32 < |bitmap|
    ensures IsFree(Mark(bitmap, b), c) <==> c == b || IsFree(bitmap, c)
  {
    if c == b {
      OwnBit(bitmap[b / 32], b % 32);
    } else if c / 32 == b / 32 {
      BitsApart(b % 32, c % 32);
      OrOthers(bitmap[b / 32], Bit(b % 32), Bit(c % 32));
    }
  }

  lemma FlipTakes(bitmap: seq<bv32>, b: nat, c: nat)
    requires IsFree(bitmap, b)
    ensures IsFree(Flip(bitmap, b), c) <==> c != b && IsFree(bitmap, c)
  {
    if c == b {
      OwnBit(bitmap[b / 32], b % 32);
    } else if c / 32 == b / 32 {
      BitsApart(b % 32, c % 32);
      XorOthers(bitmap[b / 32], Bit(b % 32), Bit(c % 32));
    }
  }

  lemma ClearTakes(bitmap: seq<bv32>, b: nat, c: nat)
    requires b / 32 < |bitmap|
    ensures IsFree(Clear(bitmap, b), c) <==> c != b && IsFree(bitmap, c)
  {
    if c == b {
      OwnBit(bitmap[b / 32], b % 32);
    } else if c / 32 == b / 32 {
      BitsApart(b % 32, c % 32);
      ClearOthers(bitmap[b / 32], Bit(b % 32), Bit(c % 32));
    }
  }

  lemma AllOnesIsFree(bitmap: seq<bv32>, b: nat)
    requires b / 32 < |bitmap| && bitmap[b / 32] == 0xFFFF_FFFF
    ensures IsFree(bitmap, b)
  {
    OwnBit(0xFFFF_FFFF, b % 32);
    assert 0xFFFF_FFFF & Bit(b % 32) == Bit(b % 32);
  }
}
