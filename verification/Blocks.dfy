/** Disk blocks as bytes, and the little-endian words that log headers and
    indirect blocks keep in them (fs.h, buf.h). */
module Blocks {

  const BSIZE := 512
  const BWORDS := 128 // BSIZE / sizeof(uint)
  const WORDMAX := 0x1_0000_0000

  type byte = x: int | 0 <= x < 256
  type word = x: int | 0 <= x < WORDMAX
  type Block = b: seq<byte> | |b| == BSIZE witness seq(BSIZE, _ => 0)

  function ZeroBlock(): (b: Block)
    ensures forall i {:trigger b[i]} :: 0 <= i < BSIZE ==> b[i] == 0
  {
    seq(BSIZE, _ => 0)
  }

  function Compose(b0: byte, b1: byte, b2: byte, b3: byte): (w: word) {
    b0 as int + 256 * b1 as int + 65536 * b2 as int + 16777216 * b3 as int
  }

  /** Byte `k` of a word, least significant first. */
  function ByteOf(w: word, k: nat): (b: byte)
    requires k < 4
  {
    if k == 0 then w % 256 else if k == 1 then (w / 256) % 256
    else if k == 2 then (w / 65536) % 256 else w / 16777216
  }

  lemma ComposeBytes(w: word)
    ensures Compose(ByteOf(w, 0), ByteOf(w, 1), ByteOf(w, 2), ByteOf(w, 3)) == w
  {
    assert w == 256 * (w / 256) + w % 256;
    assert w / 256 == 256 * (w / 65536) + (w / 256) % 256;
    assert w / 65536 == 256 * (w / 16777216) + (w / 65536) % 256;
  }

  /** `((uint*)data)[i]` on a little-endian machine. */
  function GetWord(b: Block, i: nat): (w: word)
    requires i < BWORDS
  {
    Compose(b[4 * i], b[4 * i + 1], b[4 * i + 2], b[4 * i + 3])
  }

  /** `((uint*)data)[i] = w`. */
  function PutWord(b: Block, i: nat, w: word): (r: Block)
    requires i < BWORDS
    ensures GetWord(r, i) == w
    ensures forall j: nat :: j < BWORDS && j != i ==> GetWord(r, j) == GetWord(b, j)
  {
    ComposeBytes(w);
    b[4 * i := ByteOf(w, 0)][4 * i + 1 := ByteOf(w, 1)][4 * i + 2 := ByteOf(w, 2)][4 * i + 3 := ByteOf(w, 3)]
  }

  lemma ZeroBlockWords(i: nat)
    requires i < BWORDS
    ensures GetWord(ZeroBlock(), i) == 0
  {
  }
}
