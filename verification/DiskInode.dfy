/** struct dinode of fs.h as it lies in an inode block: four shorts, the size and the block addresses, in 16
    little-endian words. */
module DiskInode {
  import opened Blocks
  import opened BlockMap
  import opened FileSystem

  const IPB := 8 // BSIZE / sizeof(struct dinode)
  const SHORT := 65536

  /** The fields fit the struct. */
  ghost predicate Encodable(ino: Inode) {
    && ino.kind < SHORT && ino.major < SHORT && ino.minor < SHORT && ino.nlink < SHORT
    && ino.size < WORDMAX && |ino.addrs| == NDIRECT + 1
  }

  function InodeWords(ino: Inode): (ws: seq<word>)
    requires Encodable(ino)
    ensures |ws| == 16
  {
    [ino.kind + SHORT * ino.major, ino.minor + SHORT * ino.nlink, ino.size] + ino.addrs
  }

  /** Store words from word k on. */
  function PutWords(b: Block, k: nat, ws: seq<word>): (r: Block)
    requires k + |ws| <= BWORDS
    ensures forall j: nat {:trigger GetWord(r, j)} :: j < BWORDS ==>
              GetWord(r, j) == if k <= j < k + |ws| then ws[j - k] else GetWord(b, j)
    decreases |ws|
  {
    if ws == [] then b else PutWords(PutWord(b, k, ws[0]), k + 1, ws[1..])
  }

  /** Word a of inode j. */
  function WordOf(b: Block, j: nat, a: nat): (w: word)
    requires j < IPB && a < 16
  {
    GetWord(b, 16 * j + a)
  }

  function Addrs(b: Block, j: nat): (addrs: seq<word>)
    requires j < IPB
    ensures |addrs| == NDIRECT + 1
    ensures forall k {:trigger addrs[k]} :: 0 <= k <= NDIRECT ==> addrs[k] == WordOf(b, j, 3 + k)
  {
    seq(NDIRECT + 1, (k: nat) requires k <= NDIRECT => WordOf(b, j, 3 + k))
  }

  /** Inode j of an inode block. */
  function InodeAt(b: Block, j: nat): (ino: Inode)
    requires j < IPB
    ensures Encodable(ino)
  {
    var w0, w1 := WordOf(b, j, 0), WordOf(b, j, 1);
    Inode(w0 % SHORT, w0 / SHORT, w1 % SHORT, w1 / SHORT, WordOf(b, j, 2), Addrs(b, j))
  }

  /** The block with inode j replaced. */
  function SetInode(b: Block, j: nat, ino: Inode): (r: Block)
    requires j < IPB && Encodable(ino)
  {
    PutWords(b, 16 * j, InodeWords(ino))
  }

  /** Writing an inode changes that inode and no other in the block. */
  lemma SetInodeAt(b: Block, j: nat, ino: Inode, k: nat)
    requires j < IPB && k < IPB && Encodable(ino)
    ensures InodeAt(SetInode(b, j, ino), k) == if k == j then ino else InodeAt(b, k)
  {
    hide GetWord, PutWord;
    var r, ws := SetInode(b, j, ino), InodeWords(ino);
    forall a: nat | a < 16 ensures WordOf(r, k, a) == if k == j then ws[a] else WordOf(b, k, a) {}
    assert k == j ==> Addrs(r, j) == ino.addrs;
    assert k != j ==> Addrs(r, k) == Addrs(b, k);
  }

  /** Where the fields lie: type, major, minor and nlink in two bytes each, then the size and the addresses in four, all
      little-endian. */
  lemma InodeLayout(b: Block, j: nat, k: nat)
    requires j < 8 && k <= 12
    ensures var ino, o := InodeAt(b, j), 64 * j;
            && ino.kind == b[o] as int + 256 * (b[o + 1] as int)
            && ino.major == b[o + 2] as int + 256 * (b[o + 3] as int)
            && ino.minor == b[o + 4] as int + 256 * (b[o + 5] as int)
            && ino.nlink == b[o + 6] as int + 256 * (b[o + 7] as int)
            && ino.size == Four(b, o + 8) && ino.addrs[k] == Four(b, o + 12 + 4 * k)
  {
    hide GetWord, Four, Addrs;
    var o := 64 * j;
    WordIs(b, j, 0);
    WordIs(b, j, 1);
    WordIs(b, j, 2);
    WordIs(b, j, 3 + k);
    Halves(b, o);
    Halves(b, o + 4);
  }

  lemma WordIs(b: Block, j: nat, a: nat)
    requires j < IPB && a < 16
    ensures WordOf(b, j, a) == Four(b, 64 * j + 4 * a)
  {
  }

  lemma Halves(b: Block, o: nat)
    requires o + 4 <= BSIZE
    ensures Four(b, o) % SHORT == b[o] as int + 256 * (b[o + 1] as int)
    ensures Four(b, o) / SHORT == b[o + 2] as int + 256 * (b[o + 3] as int)
  {
    var lo, hi := b[o] as int + 256 * (b[o + 1] as int), b[o + 2] as int + 256 * (b[o + 3] as int);
    assert Four(b, o) == lo + 65536 * hi && 0 <= lo < 65536;
  }

  /** The number in four bytes from o on, the lowest first. */
  function Four(b: Block, o: nat): (n: nat)
    requires o + 4 <= BSIZE
  {
    b[o] as int + 256 * (b[o + 1] as int) + 65536 * (b[o + 2] as int) + 16777216 * (b[o + 3] as int)
  }

  /** A block of zeros holds free inodes. */
  lemma ZeroInode(j: nat)
    requires j < IPB
    ensures InodeAt(ZeroBlock(), j) == Inode(0, 0, 0, 0, 0, NoBlocks())
  {
    hide GetWord;
    forall a: nat | a < 16 ensures WordOf(ZeroBlock(), j, a) == 0 { ZeroBlockWords(16 * j + a); }
    assert Addrs(ZeroBlock(), j) == NoBlocks();
  }
}
