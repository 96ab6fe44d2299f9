/** The bits of the free-block bitmap, as fs.c reads and writes them in bytes. */
module Bitmap {
  import opened Blocks

  const BPB := 4096 // BSIZE * 8

  function Pow2(n: nat): (r: nat)
    ensures r >= 1
  {
    if n == 0 then 1 else 2 * Pow2(n - 1)
  }

  /** (x & (1 << k)) != 0: binary digit k of x. */
  predicate TestBit(x: nat, k: nat) {
    if k == 0 then x % 2 == 1 else TestBit(x / 2, k - 1)
  }

  /** x | (1 << k). */
  function OrBit(x: nat, k: nat): (y: nat) {
    if k == 0 then x / 2 * 2 + 1 else 2 * OrBit(x / 2, k - 1) + x % 2
  }

  /** x & ~(1 << k). */
  function AndNotBit(x: nat, k: nat): (y: nat) {
    if k == 0 then x / 2 * 2 else 2 * AndNotBit(x / 2, k - 1) + x % 2
  }

  lemma {:induction false} OrBitTest(x: nat, k: nat, j: nat)
    ensures TestBit(OrBit(x, k), j) == (j == k || TestBit(x, j))
    decreases k
  {
    var y := OrBit(x, k);
    if k == 0 {
      assert y / 2 == x / 2 && y % 2 == 1;
    } else {
      assert y / 2 == OrBit(x / 2, k - 1) && y % 2 == x % 2;
      if j > 0 { OrBitTest(x / 2, k - 1, j - 1); }
    }
  }

  lemma {:induction false} AndNotBitTest(x: nat, k: nat, j: nat)
    ensures TestBit(AndNotBit(x, k), j) == (j != k && TestBit(x, j))
    decreases k
  {
    var y := AndNotBit(x, k);
    if k == 0 {
      assert y / 2 == x / 2 && y % 2 == 0;
    } else {
      assert y / 2 == AndNotBit(x / 2, k - 1) && y % 2 == x % 2;
      if j > 0 { AndNotBitTest(x / 2, k - 1, j - 1); }
    }
  }

  lemma {:induction false} BitOpsFit(x: nat, k: nat, n: nat)
    requires x < Pow2(n) && k < n
    ensures OrBit(x, k) < Pow2(n) && AndNotBit(x, k) < Pow2(n)
    decreases k
  {
    if k > 0 { BitOpsFit(x / 2, k - 1, n - 1); }
  }

  lemma ByteBits()
    ensures Pow2(8) == 256
  {
    assert Pow2(8) == 2 * 2 * 2 * 2 * Pow2(4);
  }

  // ---------------------------------------------------------------- bits of a block

  predicate BitOf(b: Block, bi: nat)
    requires bi < BPB
  {
    TestBit(b[bi / 8], bi % 8)
  }

  /** data[bi/8] |= 1 << (bi%8). */
  function SetBit(b: Block, bi: nat): (r: Block)
    requires bi < BPB
    ensures forall j :: 0 <= j < BPB ==> BitOf(r, j) == (j == bi || BitOf(b, j))
  {
    ByteBits();
    BitOpsFit(b[bi / 8], bi % 8, 8);
    var r := b[bi / 8 := OrBit(b[bi / 8], bi % 8)];
    assert forall j :: 0 <= j < BPB ==> BitOf(r, j) == (j == bi || BitOf(b, j)) by {
      forall j | 0 <= j < BPB ensures BitOf(r, j) == (j == bi || BitOf(b, j)) {
        if j / 8 == bi / 8 { OrBitTest(b[bi / 8], bi % 8, j % 8); }
      }
    }
    r
  }

  /** data[bi/8] &= ~(1 << (bi%8)). */
  function ResetBit(b: Block, bi: nat): (r: Block)
    requires bi < BPB
    ensures forall j :: 0 <= j < BPB ==> BitOf(r, j) == (j != bi && BitOf(b, j))
  {
    ByteBits();
    BitOpsFit(b[bi / 8], bi % 8, 8);
    var r := b[bi / 8 := AndNotBit(b[bi / 8], bi % 8)];
    assert forall j :: 0 <= j < BPB ==> BitOf(r, j) == (j != bi && BitOf(b, j)) by {
      forall j | 0 <= j < BPB ensures BitOf(r, j) == (j != bi && BitOf(b, j)) {
        if j / 8 == bi / 8 { AndNotBitTest(b[bi / 8], bi % 8, j % 8); }
      }
    }
    r
  }

  lemma {:induction false} ZeroTest(k: nat)
    ensures !TestBit(0, k)
  {
    if k > 0 { ZeroTest(k - 1); }
  }

  lemma ZeroBits(k: nat)
    requires k < BPB
    ensures !BitOf(ZeroBlock(), k)
  {
    ZeroTest(k % 8);
  }
}
