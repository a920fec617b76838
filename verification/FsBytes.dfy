/** Disk blocks as bytes: the bits of the free map and the 32-bit numbers of an indirect block. */
module FsBytes {

  const BSIZE := 1024
  const NINDIRECT := 256

  type Byte = x: int | 0 <= x < 256
  type Blk = b: seq<Byte> | |b| == BSIZE witness seq(BSIZE, i => 0)

  function Zero(): Blk { seq(BSIZE, i => 0) }

  // ---------------------------------------------------------------- bits of a byte

  // 1 << k.
  function Mask(k: nat): (m: nat)
    ensures m > 0
  {
    if k == 0 then 1 else 2 * Mask(k - 1)
  }

  predicate BitOf(x: nat, k: nat)
  {
    if k == 0 then x % 2 == 1 else BitOf(x / 2, k - 1)
  }

  lemma {:induction false} SetBitBound(x: nat, k: nat, n: nat)
    requires k < n && x < Mask(n) && !BitOf(x, k)
    ensures x + Mask(k) < Mask(n)
  {
    var half := Mask(n - 1);
    assert Mask(n) == 2 * half;
    if k > 0 {
      SetBitBound(x / 2, k - 1, n - 1);
      assert x / 2 + Mask(k - 1) < half;
    }
  }

  /** Setting a clear bit adds its mask, and changes no other bit. */
  lemma {:induction false} SetBitAt(x: nat, k: nat, j: nat)
    requires !BitOf(x, k)
    ensures BitOf(x + Mask(k), j) <==> j == k || BitOf(x, j)
  {
    if k > 0 && j > 0 {
      assert (x + Mask(k)) / 2 == x / 2 + Mask(k - 1);
      SetBitAt(x / 2, k - 1, j - 1);
    }
  }

  /** Clearing a set bit subtracts it. */
  lemma {:induction false} ClearBitAt(x: nat, k: nat, j: nat)
    requires BitOf(x, k)
    ensures Mask(k) <= x && (BitOf(x - Mask(k), j) <==> j != k && BitOf(x, j))
  {
    if k > 0 {
      ClearBitAt(x / 2, k - 1, if j > 0 then j - 1 else 0);
      assert (x - Mask(k)) / 2 == x / 2 - Mask(k - 1);
    }
  }

  // x | 1 << k for a clear bit, and x & ~(1 << k) for a set one.
  function SetBit(x: Byte, k: nat): Byte
    requires k < 8 && !BitOf(x, k)
  {
    SetBitBound(x, k, 8);
    x + Mask(k)
  }

  function ClearBit(x: Byte, k: nat): Byte
    requires k < 8 && BitOf(x, k)
  {
    ClearBitAt(x, k, k);
    x - Mask(k)
  }

  // ---------------------------------------------------------------- words of a block

  function Word(b: Blk, j: nat): nat
    requires j < NINDIRECT
  {
    b[4 * j] as int + 0x100 * b[4 * j + 1] as int + 0x1_0000 * b[4 * j + 2] as int + 0x100_0000 * b[4 * j + 3] as int
  }

  function PutWord(b: Blk, j: nat, v: nat): Blk
    requires j < NINDIRECT && v < 0x1_0000_0000
  {
    b[4 * j := v % 0x100][4 * j + 1 := v / 0x100 % 0x100]
     [4 * j + 2 := v / 0x1_0000 % 0x100][4 * j + 3 := v / 0x100_0000]
  }

  lemma FourBytes(v: nat)
    requires v < 0x1_0000_0000
    ensures v % 0x100 + 0x100 * (v / 0x100 % 0x100)
          + 0x1_0000 * (v / 0x1_0000 % 0x100) + 0x100_0000 * (v / 0x100_0000) == v
  {
    var a, b := v / 0x100, v / 0x1_0000;
    assert a / 0x100 == b && b / 0x100 == v / 0x100_0000;
  }

  lemma PutWordAt(b: Blk, j: nat, v: nat, k: nat)
    requires j < NINDIRECT && k < NINDIRECT && v < 0x1_0000_0000
    ensures Word(PutWord(b, j, v), k) == if k == j then v else Word(b, k)
  {
    FourBytes(v);
  }

  lemma ZeroWord(j: nat)
    requires j < NINDIRECT
    ensures Word(Zero(), j) == 0
  {}
}
