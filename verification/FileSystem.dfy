/** balloc, bfree, bmap, itrunc, readi and writei of fs.c, updating bitmap bytes, inodes and block
    data in place. A file is the byte sequence File(i); the methods are proved to splice and slice it. */
module FileSystem {
  import opened Prelude
  import opened Blocks
  import opened Bitmap
  import opened BlockMap

  // ---------------------------------------------------------------- files as byte sequences

  const MAXBYTES := 71680 // MAXFILE * BSIZE

  /** Every block that holds one of the first n bytes is mapped. */
  ghost predicate Covers(fs: Fs, i: nat, n: nat)
    requires Shape(fs) && i < |fs.inodes|
  {
    && n <= MAXBYTES
    && (forall bn: nat {:trigger FileBlock(fs, i, bn)} :: bn < MAXFILE && bn * BSIZE < n ==> FileBlock(fs, i, bn).Some?)
  }

  /** ... and no other block is. */
  ghost predicate MapsTo(fs: Fs, i: nat, n: nat)
    requires Shape(fs) && i < |fs.inodes|
  {
    && Covers(fs, i, n)
    && (forall bn: nat {:trigger FileBlock(fs, i, bn)} :: bn < MAXFILE && FileBlock(fs, i, bn).Some? ==> bn * BSIZE < n)
  }

  /** The first n bytes of file i. */
  ghost function Bytes(fs: Fs, i: nat, n: nat): (s: seq<byte>)
    requires Shape(fs) && i < |fs.inodes| && Covers(fs, i, n)
    ensures |s| == n
    ensures forall k {:trigger s[k]} :: 0 <= k < n ==>
              && k / BSIZE < MAXFILE && FileBlock(fs, i, k / BSIZE).Some?
              && s[k] == FileBlock(fs, i, k / BSIZE).value[k % BSIZE]
  {
    seq(n, k requires 0 <= k < n => FileBlock(fs, i, k / BSIZE).value[k % BSIZE])
  }

  /** s with data written over it at off, growing at the end if need be. */
  function Splice<T>(s: seq<T>, off: nat, data: seq<T>): (r: seq<T>)
    requires off <= |s|
  {
    s[..off] + data + if off + |data| < |s| then s[off + |data|..] else []
  }

  function Max(a: nat, b: nat): (m: nat) {
    if a < b then b else a
  }

  /** Writing one piece after another is one splice. */
  lemma SpliceMore<T>(s: seq<T>, off: nat, d: seq<T>, e: seq<T>)
    requires off <= |s|
    ensures Splice(Splice(s, off, d), off + |d|, e) == Splice(s, off, d + e)
  {
  }

  /** How the bytes of a file change when block bn is mapped and its bytes from off on are replaced. */
  lemma SpliceOneBlock(fs: Fs, r: Fs, i: nat, n: nat, off: nat, d: seq<byte>, was: Block, now: Block)
    requires Shape(fs) && Shape(r) && i < |fs.inodes| == |r.inodes| && Covers(fs, i, n)
    requires off <= n && 0 < |d| && off % BSIZE + |d| <= BSIZE && off + |d| <= MAXBYTES
    requires now == Splice(was, off % BSIZE, d)
    requires forall bn: nat {:trigger FileBlock(r, i, bn)} :: bn < MAXFILE ==>
               FileBlock(r, i, bn) == if bn == off / BSIZE then Some(now) else FileBlock(fs, i, bn)
    requires off / BSIZE < MAXFILE
    requires FileBlock(fs, i, off / BSIZE).Some? ==> FileBlock(fs, i, off / BSIZE).value == was
    ensures Covers(r, i, Max(n, off + |d|)) && (MapsTo(fs, i, n) ==> MapsTo(r, i, Max(n, off + |d|)))
    ensures Bytes(r, i, Max(n, off + |d|)) == Splice(Bytes(fs, i, n), off, d)
  {
    hide FileBlock;
    var bn0, n' := off / BSIZE, Max(n, off + |d|);
    forall bn: nat | bn < MAXFILE ensures bn * BSIZE < n' ==> FileBlock(r, i, bn).Some? {}
    var s, t := Bytes(fs, i, n), Bytes(r, i, n');
    forall k | 0 <= k < n' ensures t[k] == Splice(s, off, d)[k] {
      if k / BSIZE == bn0 { assert k - off == k % BSIZE - off % BSIZE; }
    }
  }

  // ---------------------------------------------------------------- what a step may change

  /** r has the inodes of fs, up to the block addresses of inode i. */
  ghost predicate SameMeta(fs: Fs, r: Fs, i: nat) {
    && r.sb == fs.sb && i < |fs.inodes| && |r.inodes| == |fs.inodes|
    && r.inodes[i] == fs.inodes[i].(addrs := r.inodes[i].addrs)
    && (forall i' {:trigger r.inodes[i']} :: 0 <= i' < |fs.inodes| && i' != i ==> r.inodes[i'] == fs.inodes[i'])
  }

  /** Every block of every file but i is as it was. */
  ghost predicate SameOthers(fs: Fs, r: Fs, i: nat)
    requires Shape(fs) && Shape(r) && |r.inodes| == |fs.inodes|
  {
    forall i': nat, bn: nat {:trigger FileBlock(r, i', bn)} :: i' < |fs.inodes| && i' != i && bn < MAXFILE ==>
      FileBlock(r, i', bn) == FileBlock(fs, i', bn)
  }

  /** r is fs, except that block bn of file i is `now`. */
  ghost predicate OneBlock(fs: Fs, r: Fs, i: nat, bn: nat, now: Option<Block>)
    requires Shape(fs) && Shape(r)
  {
    && SameMeta(fs, r, i)
    && (forall i': nat, k: nat {:trigger FileBlock(r, i', k)} :: i' < |fs.inodes| && k < MAXFILE ==>
          FileBlock(r, i', k) == if i' == i && k == bn then now else FileBlock(fs, i', k))
  }

  /** What bmap adds to a file at bn: a block of zeros if there was none. */
  ghost function Filled(fs: Fs, i: nat, bn: nat): (d: Option<Block>)
    requires Shape(fs) && i < |fs.inodes| && bn < MAXFILE
    ensures d.Some?
  {
    if FileBlock(fs, i, bn).None? then Some(ZeroBlock()) else FileBlock(fs, i, bn)
  }

  /** An inode with its first k addresses cleared. */
  ghost function Emptied(ino: Inode, k: nat): (r: Inode)
    requires |ino.addrs| == NDIRECT + 1
    ensures |r.addrs| == NDIRECT + 1 && r == ino.(addrs := r.addrs)
    ensures forall j {:trigger r.addrs[j]} :: 0 <= j <= NDIRECT ==> r.addrs[j] == if j < k then 0 else ino.addrs[j]
  {
    ino.(addrs := seq(NDIRECT + 1, j requires 0 <= j <= NDIRECT => if j < k then 0 else ino.addrs[j]))
  }

  lemma EmptiedStep(inodes: seq<Inode>, i: nat, k: nat)
    requires i < |inodes| && |inodes[i].addrs| == NDIRECT + 1 && k <= NDIRECT
    ensures Emptied(inodes[i], 0) == inodes[i]
    ensures var e := Emptied(inodes[i], k);
            && e.(addrs := e.addrs[k := 0]) == Emptied(inodes[i], k + 1)
            && inodes[i := e][i := e.(addrs := e.addrs[k := 0])] == inodes[i := Emptied(inodes[i], k + 1)]
  {
    var e := Emptied(inodes[i], k);
    assert e.addrs[k := 0] == Emptied(inodes[i], k + 1).addrs;
    assert Emptied(inodes[i], 0).addrs == inodes[i].addrs;
  }

  function NoBlocks(): (a: seq<word>)
    ensures |a| == NDIRECT + 1 && forall k {:trigger a[k]} :: 0 <= k <= NDIRECT ==> a[k] == 0
  {
    seq(NDIRECT + 1, _ => 0)
  }

  /** The loop of balloc in mkfs.c, on a disk of zeros: the blocks before the data are marked. */
  method MarkFirst(sb: Super, zeros: seq<Block>, ghost inodes: seq<Inode>) returns (blocks: seq<Block>)
    requires Shape(Fs(sb, zeros, inodes))
    requires forall b {:trigger zeros[b]} :: 0 <= b < sb.size ==> zeros[b] == ZeroBlock()
    ensures |blocks| == sb.size && Shape(Fs(sb, blocks, inodes))
    ensures forall b {:trigger blocks[b]} :: 0 <= b < sb.size && (b < sb.bmapstart || sb.datastart <= b) ==>
              blocks[b] == ZeroBlock()
    ensures var fs := Fs(sb, blocks, inodes);
            forall x: nat {:trigger Used(fs, x)} :: x < sb.size ==> Used(fs, x) == (x < sb.datastart)
  {
    blocks := zeros;
    ghost var fs := Fs(sb, blocks, inodes);
    forall x: nat | x < sb.size ensures !Used(fs, x) { BitBlockIsMeta(sb, x); ZeroBits(x % BPB); }
    var i := 0;
    while i < sb.datastart
      invariant 0 <= i <= sb.datastart && fs == Fs(sb, blocks, inodes) && Shape(fs)
      invariant forall b {:trigger blocks[b]} :: 0 <= b < sb.size && (b < sb.bmapstart || sb.datastart <= b) ==>
                  blocks[b] == ZeroBlock()
      invariant forall x: nat {:trigger Used(fs, x)} :: x < sb.size ==> Used(fs, x) == (x < i)
    {
      BitBlockIsMeta(sb, i);
      var bb := i / BPB + sb.bmapstart;
      blocks := blocks[bb := SetBit(blocks[bb], i % BPB)];
      fs := Mark(fs, i);
      i := i + 1;
    }
  }

  // ---------------------------------------------------------------- the blocks that an operation logs

  /** A block passed to log_write: the one that a slot names, one of the bitmap, or the one with an inode. */
  datatype Logged = LogData(o: Owner) | LogBitmap(b: nat) | LogInode(i: nat)

  /** Blocks first, ..., first + n - 1 of file i. */
  ghost function DataItems(i: nat, first: nat, n: nat): (r: set<Logged>)
    ensures |r| == n
    ensures forall bn: nat {:trigger NameOf(i, bn)} :: LogData(NameOf(i, bn)) in r <==> first <= bn < first + n
    ensures forall x {:trigger x in r} :: x in r ==> x.LogData? && !x.o.Indirect?
  {
    if n == 0 then {} else DataItems(i, first, n - 1) + {LogData(NameOf(i, first + n - 1))}
  }

  ghost function BitmapItems(lo: nat, n: nat): (r: set<Logged>)
    ensures |r| == n && forall x {:trigger x in r} :: x in r <==> x.LogBitmap? && lo <= x.b < lo + n
  {
    if n == 0 then {} else BitmapItems(lo, n - 1) + {LogBitmap(lo + n - 1)}
  }

  /** How many blocks the bitmap has. */
  function BitmapSize(sb: Super): (n: nat)
    requires sb.size > 0
  {
    (sb.size - 1) / BPB + 1
  }

  /** What a write to blocks of file i logs besides the data: bitmap blocks, the indirect block, the inode. */
  ghost function Overhead(sb: Super, i: nat, indirect: bool): (r: set<Logged>)
    requires sb.size > 0
    ensures |r| == BitmapSize(sb) + (if indirect then 2 else 1)
  {
    BitmapItems(sb.bmapstart, BitmapSize(sb)) + {LogInode(i)} + if indirect then {LogData(Indirect(i))} else {}
  }

  /** Exactly the data blocks, and at most those besides. */
  ghost predicate Logs(sb: Super, lg: set<Logged>, i: nat, first: nat, n: nat) {
    && sb.size > 0
    && DataItems(i, first, n) <= lg <= DataItems(i, first, n) + Overhead(sb, i, first + n > NDIRECT)
  }

  lemma LogsSize(sb: Super, lg: set<Logged>, i: nat, first: nat, n: nat)
    requires Logs(sb, lg, i, first, n)
    ensures n <= |lg| <= n + BitmapSize(sb) + if first + n > NDIRECT then 2 else 1
  {
    var d, all := DataItems(i, first, n), DataItems(i, first, n) + Overhead(sb, i, first + n > NDIRECT);
    assert lg == d + (lg - d);
    assert all == lg + (all - lg);
  }

  /** How many blocks n bytes at off touch. */
  function DataBlocks(off: nat, n: nat): (k: nat) {
    if n == 0 then 0 else (off + n - 1) / BSIZE - off / BSIZE + 1
  }

  /** The next piece of a write is in the next block. */
  lemma NextBlock(off: nat, tot: nat, m: nat, n: nat)
    requires tot < n && AtBlock(off, tot, n)
    requires m == if n - tot < BSIZE - (off + tot) % BSIZE then n - tot else BSIZE - (off + tot) % BSIZE
    ensures (off + tot) / BSIZE == off / BSIZE + DataBlocks(off, tot)
    ensures DataBlocks(off, tot + m) == DataBlocks(off, tot) + 1
    ensures AtBlock(off, tot + m, n)
  {
  }

  /** Between the pieces of a write the offset is at the start of a block. */
  predicate AtBlock(off: nat, tot: nat, n: nat) {
    0 < tot < n ==> (off + tot) % BSIZE == 0
  }

  lemma LogsMore(sb: Super, lg: set<Logged>, e: set<Logged>, i: nat, first: nat, n: nat)
    requires Logs(sb, lg, i, first, n) && Logs(sb, e, i, first + n, 1)
    ensures Logs(sb, lg + e, i, first, n + 1)
  {
    hide DataItems, Overhead, BitmapItems;
    DataMore(i, first, n);
    OverheadMore(sb, i, first + n > NDIRECT, first + n + 1 > NDIRECT);
  }

  lemma InOverhead(sb: Super, i: nat, b: nat, indirect: bool)
    requires b < sb.size
    ensures LogBitmap(BitBlock(sb, b)) in Overhead(sb, i, indirect)
    ensures indirect ==> LogData(Indirect(i)) in Overhead(sb, i, indirect)
  {
  }

  lemma OneItem(i: nat, bn: nat)
    ensures DataItems(i, bn, 1) == {LogData(NameOf(i, bn))}
  {
    assert DataItems(i, bn, 0) == {};
  }

  lemma LogsInode(sb: Super, lg: set<Logged>, i: nat, first: nat, n: nat)
    requires Logs(sb, lg, i, first, n)
    ensures Logs(sb, lg + {LogInode(i)}, i, first, n)
  {
    hide DataItems;
  }

  lemma DataMore(i: nat, first: nat, n: nat)
    ensures DataItems(i, first, n + 1) == DataItems(i, first, n) + DataItems(i, first + n, 1)
  {
    assert DataItems(i, first + n, 0) == {};
  }

  lemma OverheadMore(sb: Super, i: nat, a: bool, b: bool)
    requires sb.size > 0 && (a ==> b)
    ensures Overhead(sb, i, a) <= Overhead(sb, i, b)
  {
  }

  class Files {
    const sb: Super
    var blocks: seq<Block>
    var inodes: seq<Inode>  // in memory
    var dinodes: seq<Inode> // in the inode blocks
    ghost var owner: map<nat, Owner>

    ghost function State(): (fs: Fs)
      reads this
    {
      Fs(sb, blocks, inodes)
    }

    ghost predicate Wf()
      reads this
    {
      WellFormed(State(), owner) && Tight(State(), owner)
    }

    ghost predicate Full()
      reads this
    {
      Shape(State()) && forall x: nat {:trigger Used(State(), x)} :: x < sb.size ==> Used(State(), x)
    }

    /** Well formed, every file has exactly the blocks its size needs, and every inode is on disk. */
    ghost predicate Valid()
      reads this
    {
      && Wf() && dinodes == inodes
      && (forall i {:trigger inodes[i]} :: 0 <= i < |inodes| ==> MapsTo(State(), i, inodes[i].size))
    }

    ghost function File(i: nat): (s: seq<byte>)
      requires Valid() && i < |inodes|
      reads this
    {
      Bytes(State(), i, inodes[i].size)
    }

    /** The disk that mkfs starts from: zeros, empty inodes, and a bitmap with the blocks before the data marked. */
    constructor (sb: Super, ninodes: nat)
      requires SuperOk(sb)
      ensures this.sb == sb && |inodes| == ninodes && Valid()
      ensures forall i: nat {:trigger File(i)} :: i < ninodes ==> File(i) == []
      ensures forall x: nat {:trigger Used(State(), x)} :: x < sb.size ==> Used(State(), x) == (x < sb.datastart)
    {
      this.sb := sb;
      var none := seq(ninodes, _ => Inode(0, 0, 0, 0, 0, NoBlocks()));
      var marked := MarkFirst(sb, seq(sb.size, _ => ZeroBlock()), none);
      blocks, inodes, dinodes, owner := marked, none, none, map[];
      new;
      EmptyWellFormed(State());
      forall i: nat, bn: nat | i < ninodes && bn < MAXFILE ensures FileBlock(State(), i, bn) == None {}
    }

    /** The inner loop of balloc: the first clear bit of the bitmap block that covers b. */
    method FirstClear(b: nat) returns (bi: nat)
      requires Shape(State()) && b % BPB == 0 && b < sb.size
      ensures bi <= BPB && (bi == BPB || b + bi >= sb.size || !Used(State(), b + bi))
      ensures forall x: nat {:trigger Used(State(), x)} :: b <= x < b + bi && x < sb.size ==> Used(State(), x)
    {
      hide SetBit, ResetBit;
      BitBlockIsMeta(sb, b);
      var bb := b / BPB + sb.bmapstart;
      bi := 0;
      while bi < BPB && b + bi < sb.size
        invariant 0 <= bi <= BPB
        invariant forall x: nat {:trigger Used(State(), x)} :: b <= x < b + bi && x < sb.size ==> Used(State(), x)
      {
        InBitBlock(State(), b, bi);
        if !BitOf(blocks[bb], bi) { return; }
        bi := bi + 1;
      }
    }

    /** The first block whose bit is clear, marked and zeroed; None is the panic "out of blocks". */
    method Balloc() returns (r: Option<nat>)
      requires Wf()
      modifies `blocks
      ensures r.None? ==> blocks == old(blocks) && Full()
      ensures r.Some? ==> sb.datastart <= r.value < sb.size && !Used(old(State()), r.value)
      ensures r.Some? ==> forall x: nat {:trigger Used(old(State()), x)} :: x < r.value ==> Used(old(State()), x)
      ensures r.Some? ==> State() == Alloc(old(State()), r.value)
    {
      hide Owned, Used;
      var b := 0;
      while b < sb.size
        invariant b % BPB == 0 && blocks == old(blocks)
        invariant forall x: nat {:trigger Used(State(), x)} :: x < b && x < sb.size ==> Used(State(), x)
      {
        var bi := FirstClear(b);
        if bi < BPB && b + bi < sb.size {
          var bb := b / BPB + sb.bmapstart;
          InBitBlock(State(), b, bi);
          blocks := blocks[bb := SetBit(blocks[bb], bi)];
          blocks := blocks[b + bi := ZeroBlock()];
          return Some(b + bi);
        }
        b := b + BPB;
      }
      return None;
    }

    /** Clear the bit of b; false is the panic "freeing free block". */
    method Bfree(b: nat) returns (ok: bool)
      requires Shape(State()) && b < sb.size
      modifies `blocks
      ensures ok == Used(old(State()), b)
      ensures State() == if ok then Unmark(old(State()), b) else old(State())
    {
      BitBlockIsMeta(sb, b);
      var bb, bi := b / BPB + sb.bmapstart, b % BPB;
      if !BitOf(blocks[bb], bi) { return false; }
      blocks := blocks[bb := ResetBit(blocks[bb], bi)];
      return true;
    }

    /** Link a fresh block into slot o: what the three allocating branches of bmap share. */
    ghost method Link(fs: Fs, o: Owner, b: nat)
      requires WellFormed(fs, owner) && Tight(fs, owner) && sb == fs.sb
      requires sb.datastart <= b < sb.size && !Used(fs, b)
      requires IsOwner(fs, o) && Ref(fs, o) == 0 && (o.Slot? ==> IndirectBlock(fs, o.i) != 0)
      requires State() == SetRef(Alloc(fs, b), o, b)
      modifies `owner
      ensures Wf() && owner == old(owner)[b := o] && SameMeta(fs, State(), o.i)
      ensures forall i: nat, bn: nat {:trigger FileBlock(State(), i, bn)} :: i < |fs.inodes| && bn < MAXFILE ==>
                FileBlock(State(), i, bn) == if o == NameOf(i, bn) then Some(ZeroBlock()) else FileBlock(fs, i, bn)
    {
      hide Used, Owned, Alloc, FileBlock, Ref;
      LinkKeepsWellFormed(fs, owner, o, b);
      forall i: nat, bn: nat | i < |fs.inodes| && bn < MAXFILE
        ensures FileBlock(State(), i, bn) == if o == NameOf(i, bn) then Some(ZeroBlock()) else FileBlock(fs, i, bn)
      {
        LinkFileBlock(fs, owner, o, b, i, bn);
      }
      owner := owner[b := o];
    }

    method MapDirect(i: nat, k: nat) returns (r: Option<word>, ghost lg: set<Logged>)
      requires Wf() && i < |inodes| && k < NDIRECT
      modifies `blocks, `inodes, `owner
      ensures lg <= {LogData(Direct(i, k))} + Overhead(sb, i, false)
      ensures r.None? ==> unchanged(this) && Full()
      ensures r.Some? ==> Wf() && OneBlock(old(State()), State(), i, k, Filled(old(State()), i, k))
      ensures r.Some? ==> r.value == Addr(State(), i, k) && r.value != 0
      ensures FileBlock(old(State()), i, k).Some? ==> r.Some? && unchanged(this)
    {
      hide Used, Owned, Alloc, Overhead;
      var addr := inodes[i].addrs[k];
      if addr != 0 {
        AddrOwned(State(), owner, i, k);
        return Some(addr), {};
      }
      ghost var fs := State();
      var b := Balloc();
      if b.None? { return None, {}; }
      inodes := inodes[i := inodes[i].(addrs := inodes[i].addrs[k := b.value])];
      Link(fs, Direct(i, k), b.value);
      InOverhead(sb, i, b.value, false);
      return Some(b.value), {LogData(Direct(i, k)), LogBitmap(BitBlock(sb, b.value))};
    }

    method MapIndirect(i: nat) returns (ok: bool, ghost lg: set<Logged>)
      requires Wf() && i < |inodes|
      modifies `blocks, `inodes, `owner
      ensures lg <= Overhead(sb, i, true)
      ensures !ok ==> Full()
      ensures ok ==> Wf() && SameMeta(old(State()), State(), i) && IndirectBlock(State(), i) != 0
      ensures ok ==> forall i': nat, k: nat {:trigger FileBlock(State(), i', k)} :: i' < |inodes| && k < MAXFILE ==>
                       FileBlock(State(), i', k) == FileBlock(old(State()), i', k)
      ensures IndirectBlock(old(State()), i) != 0 ==> ok && unchanged(this)
    {
      hide Used, Owned, Alloc, FileBlock, Overhead;
      if inodes[i].addrs[NDIRECT] != 0 { return true, {}; }
      ghost var fs := State();
      var b := Balloc();
      if b.None? { return false, {}; }
      inodes := inodes[i := inodes[i].(addrs := inodes[i].addrs[NDIRECT := b.value])];
      Link(fs, Indirect(i), b.value);
      InOverhead(sb, i, b.value, true);
      return true, {LogData(Indirect(i)), LogBitmap(BitBlock(sb, b.value))};
    }

    method MapSlot(i: nat, j: nat) returns (r: Option<word>, ghost lg: set<Logged>)
      requires Wf() && i < |inodes| && j < NINDIRECT && IndirectBlock(State(), i) != 0
      modifies `blocks, `owner
      ensures lg <= {LogData(Slot(i, j))} + Overhead(sb, i, true)
      ensures r.None? ==> Full()
      ensures r.Some? ==> Wf() && OneBlock(old(State()), State(), i, NDIRECT + j, Filled(old(State()), i, NDIRECT + j))
      ensures r.Some? ==> r.value == Addr(State(), i, NDIRECT + j) && r.value != 0
      ensures FileBlock(old(State()), i, NDIRECT + j).Some? ==> r.Some? && unchanged(this)
    {
      hide Used, Owned, Alloc, GetWord, PutWord, Overhead;
      IndirectBlockOwned(State(), owner, i);
      var ind := inodes[i].addrs[NDIRECT];
      var addr := GetWord(blocks[ind], j);
      if addr != 0 {
        AddrOwned(State(), owner, i, NDIRECT + j);
        return Some(addr), {};
      }
      ghost var fs := State();
      var b := Balloc();
      if b.None? { return None, {}; }
      blocks := blocks[ind := PutWord(blocks[ind], j, b.value)];
      Link(fs, Slot(i, j), b.value);
      InOverhead(sb, i, b.value, true);
      return Some(b.value), {LogData(Slot(i, j)), LogData(Indirect(i)), LogBitmap(BitBlock(sb, b.value))};
    }

    /** The address of block bn of file i, allocated and zeroed if the file has none; None is a panic: bn is
        out of range, or every block is in use. `lg` is what it logs. */
    method Bmap(i: nat, bn: nat) returns (r: Option<word>, ghost lg: set<Logged>)
      requires Wf() && i < |inodes|
      modifies `blocks, `inodes, `owner
      ensures r.None? ==> bn >= MAXFILE || Full()
      ensures bn >= MAXFILE ==> r.None? && unchanged(this)
      ensures r.Some? ==> Wf() && OneBlock(old(State()), State(), i, bn, Filled(old(State()), i, bn))
      ensures r.Some? ==> r.value == Addr(State(), i, bn) && r.value != 0
      ensures bn < MAXFILE && FileBlock(old(State()), i, bn).Some? ==> r.Some? && unchanged(this)
      ensures Logs(sb, lg + {LogData(NameOf(i, bn))}, i, bn, 1)
    {
      hide Used, Owned, GetWord, Overhead, DataItems;
      OneItem(i, bn);
      if bn < NDIRECT {
        r, lg := MapDirect(i, bn);
        return;
      }
      if bn >= MAXFILE { return None, {}; }
      var ok;
      ok, lg := MapIndirect(i);
      if !ok { return None, lg; }
      ghost var more;
      r, more := MapSlot(i, bn - NDIRECT);
      lg := lg + more;
    }

    /** Free what one slot names. Its bit is still set, so bfree does not panic. */
    method FreeBlock(ghost fs: Fs, ghost o: Owner, b: nat)
      requires WellFormed(fs, owner) && IsOwner(fs, o) && sb == fs.sb
      requires Freed(fs, owner, State(), o.i, Rank(o)) && b == Ref(fs, o)
      modifies `blocks
      ensures Freed(fs, owner, State(), o.i, Rank(o) + 1)
    {
      hide Ref, Used, Unmark, Owned;
      if b == 0 {
        FreeNone(fs, owner, State(), o);
      } else {
        FreeOne(fs, owner, State(), o);
        var ok := Bfree(b);
        assert ok;
      }
    }

    /** The first loop of itrunc. */
    method FreeDirect(i: nat)
      requires Wf() && i < |inodes|
      modifies `blocks, `inodes
      ensures Freed(old(State()), owner, State(), i, NDIRECT)
      ensures inodes == old(inodes)[i := Emptied(old(inodes[i]), NDIRECT)]
    {
      hide Used, Owned, GetWord;
      EmptiedStep(inodes, i, 0);
      assert inodes[i := inodes[i]] == inodes;
      ghost var fs := State();
      var k := 0;
      while k < NDIRECT
        invariant 0 <= k <= NDIRECT && Freed(fs, owner, State(), i, k)
        invariant inodes == fs.inodes[i := Emptied(fs.inodes[i], k)]
      {
        FreeBlock(fs, Direct(i, k), inodes[i].addrs[k]);
        EmptiedStep(fs.inodes, i, k);
        FreedInodes(fs, owner, State(), fs.inodes[i := Emptied(fs.inodes[i], k + 1)], i, k + 1);
        inodes := inodes[i := inodes[i].(addrs := inodes[i].addrs[k := 0])];
        k := k + 1;
      }
    }

    /** The second loop of itrunc, over the words of the indirect block. */
    method FreeSlots(ghost fs: Fs, i: nat, ind: nat)
      requires WellFormed(fs, owner) && sb == fs.sb && i < |fs.inodes| && ind == IndirectBlock(fs, i) != 0
      requires Freed(fs, owner, State(), i, NDIRECT)
      modifies `blocks
      ensures Freed(fs, owner, State(), i, MAXFILE)
    {
      hide Used, Owned, GetWord;
      IndirectBlockOwned(fs, owner, i);
      var j := 0;
      while j < NINDIRECT
        invariant 0 <= j <= NINDIRECT && Freed(fs, owner, State(), i, NDIRECT + j)
      {
        assert State().blocks[ind] == fs.blocks[ind];
        FreeBlock(fs, Slot(i, j), GetWord(blocks[ind], j));
        j := j + 1;
      }
    }

    method FreeIndirect(ghost fs: Fs, i: nat)
      requires WellFormed(fs, owner) && sb == fs.sb && i < |inodes| == |fs.inodes|
      requires Freed(fs, owner, State(), i, NDIRECT) && inodes[i] == Emptied(fs.inodes[i], NDIRECT)
      modifies `blocks, `inodes
      ensures Freed(fs, owner, State(), i, MAXFILE + 1)
      ensures inodes == old(inodes)[i := Emptied(fs.inodes[i], NDIRECT + 1)]
    {
      hide Used, Owned, GetWord;
      EmptiedStep(fs.inodes, i, NDIRECT);
      var ind := inodes[i].addrs[NDIRECT];
      if ind == 0 {
        NoSlots(fs, owner, State(), i);
        assert inodes[i].addrs[NDIRECT := 0] == inodes[i].addrs;
        assert inodes[i := inodes[i]] == inodes;
      } else {
        FreeSlots(fs, i, ind);
        FreeBlock(fs, Indirect(i), ind);
        FreedInodes(fs, owner, State(), inodes[i := Emptied(fs.inodes[i], NDIRECT + 1)], i, MAXFILE + 1);
        inodes := inodes[i := inodes[i].(addrs := inodes[i].addrs[NDIRECT := 0])];
      }
    }

    /** The loops of itrunc and its update of the inode. */
    method Empty(i: nat)
      requires Wf() && i < |inodes| == |dinodes|
      modifies `blocks, `inodes, `dinodes, `owner
      ensures Wf() && owner == Without(old(owner), i)
      ensures forall x: nat {:trigger Used(State(), x)} :: x < sb.size ==>
                Used(State(), x) == (Used(old(State()), x) && !(x in old(owner) && old(owner)[x].i == i))
      ensures |inodes| == old(|inodes|) && inodes == old(inodes)[i := inodes[i]]
      ensures inodes[i] == old(inodes[i]).(size := 0, addrs := inodes[i].addrs)
      ensures dinodes == old(dinodes)[i := inodes[i]]
      ensures forall i': nat, bn: nat {:trigger FileBlock(State(), i', bn)} :: i' < |inodes| && bn < MAXFILE ==>
                FileBlock(State(), i', bn) == if i' == i then None else FileBlock(old(State()), i', bn)
    {
      hide Used, Owned, GetWord, FileBlock;
      ghost var fs, own := State(), owner;
      FreeDirect(i);
      FreeIndirect(fs, i);
      ghost var m := State();
      FreedInodes(fs, own, m, inodes[i := inodes[i].(size := 0)], i, MAXFILE + 1);
      inodes := inodes[i := inodes[i].(size := 0)];
      dinodes := dinodes[i := inodes[i]];
      TruncKeepsWellFormed(fs, own, State(), i);
      forall i': nat, bn: nat | i' < |inodes| && bn < MAXFILE
        ensures FileBlock(State(), i', bn) == if i' == i then None else FileBlock(fs, i', bn)
      {
        TruncFileBlock(fs, own, State(), i, i', bn);
      }
      forall x | x in own ensures Rank(own[x]) < MAXFILE + 1 { OwnerRank(fs, own, x); }
      owner := Without(owner, i);
    }

    /** Every block of file i goes back to the bitmap and no other; no bfree panics on the way. */
    method Itrunc(i: nat)
      requires Valid() && i < |inodes|
      modifies `blocks, `inodes, `dinodes, `owner
      ensures Valid() && |inodes| == old(|inodes|) && File(i) == []
      ensures forall i': nat {:trigger File(i')} :: i' < |inodes| && i' != i ==>
                File(i') == old(File(i')) && inodes[i'] == old(inodes[i'])
      ensures forall x: nat {:trigger Used(State(), x)} :: x < sb.size ==>
                Used(State(), x) == (Used(old(State()), x) && !(x in old(owner) && old(owner)[x].i == i))
    {
      hide Used, Owned, FileBlock;
      ghost var fs := State();
      Empty(i);
      forall i': nat | i' < |inodes| && i' != i
        ensures MapsTo(State(), i', inodes[i'].size)
        ensures Bytes(State(), i', inodes[i'].size) == Bytes(fs, i', fs.inodes[i'].size)
      {
        assert inodes[i'] == fs.inodes[i'];
        SameBytes(fs, State(), i', inodes[i'].size);
      }
    }

    // -------------------------------------------------------------- byte-level reading and writing

    /** -1 beyond the end or when the end wraps; otherwise the next bytes up to the end of the file.
        Nothing is allocated, so reading changes nothing. */
    method Readi(i: nat, off0: word, n0: word) returns (r: int, dst: seq<byte>)
      requires Valid() && i < |inodes|
      modifies this
      ensures unchanged(this)
      ensures off0 > |File(i)| || off0 + n0 >= WORDMAX ==> r == -1 && dst == []
      ensures off0 <= |File(i)| && off0 + n0 < WORDMAX ==>
                r == |dst| && dst == File(i)[off0..if off0 + n0 > |File(i)| then |File(i)| else off0 + n0]
    {
      hide Owned, FileBlock, Covers, Used, Wf, WellFormed, Bytes;
      dst := [];
      if off0 > inodes[i].size || off0 + n0 >= WORDMAX { return -1, []; }
      var n: nat := if off0 + n0 > inodes[i].size then inodes[i].size - off0 else n0;
      ghost var s := File(i);
      var tot := 0;
      while tot < n
        invariant 0 <= tot <= n && unchanged(this) && dst == s[off0..off0 + tot]
      {
        var off := off0 + tot;
        var m := if n - tot < BSIZE - off % BSIZE then n - tot else BSIZE - off % BSIZE;
        var d := ReadPiece(i, off, m);
        dst := dst + d;
        SliceMore(s, off0, off, off + m);
        tot := tot + m;
      }
      return n, dst;
    }

    /** One turn of the loop of readi. The block is there already, so bmap allocates nothing. */
    method ReadPiece(i: nat, off: nat, m: nat) returns (d: seq<byte>)
      requires Valid() && i < |inodes| && 0 < m && off + m <= inodes[i].size && off % BSIZE + m <= BSIZE
      modifies this
      ensures unchanged(this) && d == File(i)[off..off + m]
    {
      hide Used, Owned, GetWord, Ref;
      assert MapsTo(State(), i, inodes[i].size);
      assert FileBlock(State(), i, off / BSIZE).Some?;
      var a, _ := Bmap(i, off / BSIZE);
      AddrOwned(State(), owner, i, off / BSIZE);
      BlockSlice(State(), i, inodes[i].size, off, m, blocks[a.value]);
      d := blocks[a.value][off % BSIZE..off % BSIZE + m];
    }

    /** One turn of the loop of writei: d goes into the block that holds off. */
    method WritePiece(i: nat, off: nat, d: seq<byte>, ghost n: nat) returns (ok: bool, ghost lg: set<Logged>)
      requires Wf() && i < |inodes| && MapsTo(State(), i, n)
      requires off <= n && 0 < |d| && off % BSIZE + |d| <= BSIZE && off + |d| <= MAXBYTES
      modifies `blocks, `inodes, `owner
      ensures !ok ==> Full()
      ensures ok ==> Wf() && SameMeta(old(State()), State(), i) && MapsTo(State(), i, Max(n, off + |d|))
      ensures ok ==> Bytes(State(), i, Max(n, off + |d|)) == Splice(Bytes(old(State()), i, n), off, d)
      ensures ok ==> SameOthers(old(State()), State(), i)
      ensures off < n ==> ok && inodes == old(inodes)
      ensures Logs(sb, lg, i, off / BSIZE, 1)
    {
      hide Used, Owned, GetWord, Ref, Splice, Logs;
      var bn := off / BSIZE;
      assert off < n ==> bn * BSIZE < n;
      assert off < n ==> FileBlock(State(), i, bn).Some?;
      var a;
      a, lg := Bmap(i, bn);
      lg := lg + {LogData(NameOf(i, bn))};
      if a.None? { return false, lg; }
      ghost var m := State();
      AddrOwned(m, owner, i, bn);
      var now := BlockSplice(blocks[a.value], off % BSIZE, d);
      WriteKeepsWellFormed(m, owner, i, bn, now);
      forall i': nat, k: nat | i' < |inodes| && k < MAXFILE
        ensures FileBlock(PutBlock(m, a.value, now), i', k) ==
                if i' == i && k == bn then Some(now) else FileBlock(m, i', k)
      {
        WriteFileBlock(m, owner, i, bn, now, i', k);
      }
      ghost var was := blocks[a.value];
      blocks := blocks[a.value := now];
      SpliceOneBlock(old(State()), State(), i, n, off, d, was, now);
      return true, lg;
    }

    /** -1 outside the file, when the end wraps or passes MAXFILE blocks; otherwise the file is spliced and
        no other file changes. None is the panic of balloc, which a write inside the file cannot meet. `lg` is what it
        logs: every block of data, and besides at most the bitmap, the indirect block and the inode. */
    method Writei(i: nat, src: seq<byte>, off0: word) returns (r: Option<int>, ghost lg: set<Logged>)
      requires Valid() && i < |inodes| && |src| < WORDMAX
      modifies this
      ensures r.None? ==> Full() && off0 + |src| > |old(File(i))|
      ensures off0 > |old(File(i))| || off0 + |src| > MAXBYTES <==> r == Some(-1)
      ensures r == Some(-1) ==> unchanged(this)
      ensures r.Some? && r.value != -1 ==> Valid() && |inodes| == old(|inodes|) && r.value == |src|
      ensures r.Some? && r.value != -1 ==> File(i) == Splice(old(File(i)), off0, src)
      ensures r.Some? && r.value != -1 ==> forall i': nat {:trigger File(i')} :: i' < |inodes| && i' != i ==>
                File(i') == old(File(i')) && inodes[i'] == old(inodes[i'])
      ensures r == Some(-1) ==> lg == {}
      ensures r.Some? && r.value != -1 ==> Logs(sb, lg, i, off0 / BSIZE, DataBlocks(off0, |src|))
    {
      hide Wf, FileBlock, Covers, Splice, Logs, DataBlocks, AtBlock, Full, Splicing;
      if off0 > inodes[i].size || off0 + |src| >= WORDMAX { return Some(-1), {}; }
      if off0 + |src| > MAXBYTES { return Some(-1), {}; }
      ghost var fs := State();
      var n, tot := |src|, 0;
      StartSplicing(i, src, off0);
      lg := {};
      while tot < n
        invariant 0 <= tot <= n && Splicing(fs, i, src, off0, tot)
        invariant Logs(sb, lg, i, off0 / BSIZE, DataBlocks(off0, tot)) && AtBlock(off0, tot, n)
      {
        var m, ok, more := WriteNext(fs, i, src, off0, tot);
        if !ok { return None, lg + more; }
        NextBlock(off0, tot, m, n);
        LogsMore(sb, lg, more, i, off0 / BSIZE, DataBlocks(off0, tot));
        lg := lg + more;
        tot := tot + m;
      }
      Finish(fs, i, src, off0);
      forall i': nat | i' < |inodes| && i' != i ensures File(i') == old(File(i')) && inodes[i'] == old(inodes[i']) {
        assert File(i') == Bytes(fs, i', fs.inodes[i'].size);
      }
      LogsInode(sb, lg, i, off0 / BSIZE, DataBlocks(off0, n));
      return Some(n), if off0 + n > fs.inodes[i].size then lg + {LogInode(i)} else lg;
    }

    /** writei has written the first tot bytes of src; it began on file system fs. */
    ghost predicate Splicing(fs: Fs, i: nat, src: seq<byte>, off0: nat, tot: nat)
      reads this
    {
      && Shape(fs) && i < |fs.inodes| && Wf() && dinodes == fs.inodes && SameMeta(fs, State(), i) && tot <= |src|
      && (forall i' {:trigger fs.inodes[i']} :: 0 <= i' < |fs.inodes| ==> MapsTo(fs, i', fs.inodes[i'].size))
      && var size := fs.inodes[i].size;
      && off0 <= size && off0 + |src| <= MAXBYTES && MapsTo(State(), i, Max(size, off0 + tot))
      && Bytes(State(), i, Max(size, off0 + tot)) == Splice(Bytes(fs, i, size), off0, src[..tot])
      && SameOthers(fs, State(), i) && (off0 + tot <= size ==> inodes == fs.inodes)
    }

    lemma StartSplicing(i: nat, src: seq<byte>, off0: nat)
      requires Valid() && i < |inodes| && off0 <= inodes[i].size && off0 + |src| <= MAXBYTES
      ensures Shape(State()) && Splicing(State(), i, src, off0, 0) && Logs(sb, {}, i, off0 / BSIZE, DataBlocks(off0, 0))
      ensures AtBlock(off0, 0, |src|)
    {
      hide Used, Owned, FileBlock, Covers, Splice;
      assert MapsTo(State(), i, inodes[i].size);
      SpliceNothing(File(i), off0);
      assert src[..0] == [];
    }

    /** One turn of the loop of writei, with its bookkeeping. */
    method WriteNext(ghost fs: Fs, i: nat, src: seq<byte>, off0: nat, tot: nat)
      returns (m: nat, ok: bool, ghost lg: set<Logged>)
      requires Splicing(fs, i, src, off0, tot) && tot < |src|
      modifies `blocks, `inodes, `owner
      ensures m == if |src| - tot < BSIZE - (off0 + tot) % BSIZE then |src| - tot else BSIZE - (off0 + tot) % BSIZE
      ensures !ok ==> Full() && off0 + tot >= fs.inodes[i].size
      ensures ok ==> Splicing(fs, i, src, off0, tot + m)
      ensures Logs(sb, lg, i, (off0 + tot) / BSIZE, 1)
    {
      hide Used, Owned, FileBlock, Covers, Splice, Logs, Bytes;
      ghost var size := fs.inodes[i].size;
      var off := off0 + tot;
      m := if |src| - tot < BSIZE - off % BSIZE then |src| - tot else BSIZE - off % BSIZE;
      ok, lg := WritePiece(i, off, src[tot..tot + m], Max(size, off));
      SpliceMore(Bytes(fs, i, size), off0, src[..tot], src[tot..tot + m]);
      assert src[..tot] + src[tot..tot + m] == src[..tot + m];
    }

    /** The end of writei. */
    method Finish(ghost fs: Fs, i: nat, src: seq<byte>, off0: nat)
      requires Splicing(fs, i, src, off0, |src|)
      modifies `inodes, `dinodes
      ensures Valid() && |inodes| == |fs.inodes| && File(i) == Splice(Bytes(fs, i, fs.inodes[i].size), off0, src)
      ensures forall i': nat {:trigger File(i')} :: i' < |inodes| && i' != i ==>
                && MapsTo(fs, i', fs.inodes[i'].size) && File(i') == Bytes(fs, i', fs.inodes[i'].size)
                && inodes[i'] == fs.inodes[i']
    {
      hide Used, Owned, FileBlock, Covers, Splice, Bytes, MapsTo, Wf, SameMeta, SameOthers;
      assert src[..|src|] == src;
      SplicingFacts(fs, i, src, off0);
      Grow(fs, i, off0 + |src|);
    }

    lemma SplicingFacts(fs: Fs, i: nat, src: seq<byte>, off0: nat)
      requires Splicing(fs, i, src, off0, |src|)
      ensures |inodes| == |fs.inodes| && inodes[i].size == fs.inodes[i].size
      ensures off0 + |src| <= inodes[i].size ==> inodes == fs.inodes
    {
      hide MapsTo, Wf, SameOthers, Bytes, Splice;
    }

    /** The end of writei: record a larger size and write the inode out. */
    method Grow(ghost fs: Fs, i: nat, off: nat)
      requires Wf() && Shape(fs) && SameMeta(fs, State(), i) && dinodes == fs.inodes
      requires MapsTo(State(), i, Max(fs.inodes[i].size, off)) && (off <= inodes[i].size ==> inodes == fs.inodes)
      requires SameOthers(fs, State(), i)
      requires forall i' {:trigger fs.inodes[i']} :: 0 <= i' < |fs.inodes| ==> MapsTo(fs, i', fs.inodes[i'].size)
      modifies `inodes, `dinodes
      ensures Valid() && |inodes| == |fs.inodes| && File(i) == Bytes(old(State()), i, Max(fs.inodes[i].size, off))
      ensures forall i': nat {:trigger File(i')} :: i' < |inodes| && i' != i ==>
                inodes[i'] == fs.inodes[i'] && MapsTo(fs, i', fs.inodes[i'].size)
                && File(i') == Bytes(fs, i', fs.inodes[i'].size)
    {
      hide Used, Owned, FileBlock;
      ghost var m := State();
      if off > inodes[i].size {
        MetaOnly(State(), owner, i, inodes[i].(size := off));
        inodes := inodes[i := inodes[i].(size := off)];
        dinodes := dinodes[i := inodes[i]];
      }
      forall i': nat | i' < |inodes| && i' != i
        ensures MapsTo(State(), i', inodes[i'].size)
        ensures Bytes(State(), i', inodes[i'].size) == Bytes(fs, i', fs.inodes[i'].size)
      {
        assert inodes[i'] == m.inodes[i'] == fs.inodes[i'];
        SameBytes(fs, State(), i', inodes[i'].size);
      }
      SameBytes(m, State(), i, Max(fs.inodes[i].size, off));
    }
  }

  lemma InBitBlock(fs: Fs, b: nat, bi: nat)
    requires Shape(fs) && b % BPB == 0 && bi < BPB && b + bi < fs.sb.size
    ensures BitBlock(fs.sb, b + bi) == b / BPB + fs.sb.bmapstart < |fs.blocks| && (b + bi) % BPB == bi
    ensures Used(fs, b + bi) == BitOf(fs.blocks[b / BPB + fs.sb.bmapstart], bi)
  {
    BitBlockIsMeta(fs.sb, b + bi);
  }

  /** With no address in any inode and no data block marked, nobody owns anything. */
  lemma EmptyWellFormed(fs: Fs)
    requires Shape(fs) && forall i {:trigger fs.inodes[i]} :: 0 <= i < |fs.inodes| ==> fs.inodes[i].addrs == NoBlocks()
    requires forall x: nat {:trigger Used(fs, x)} :: x < fs.sb.size ==> Used(fs, x) == (x < fs.sb.datastart)
    ensures WellFormed(fs, map[]) && Tight(fs, map[])
  {
    hide Used;
    forall o | IsOwner(fs, o) ensures Ref(fs, o) == 0 {}
  }

  /** Freeing is about bits only. */
  lemma FreedInodes(fs: Fs, own: map<nat, Owner>, r: Fs, inodes: seq<Inode>, i: nat, m: nat)
    requires Shape(fs) && Freed(fs, own, r, i, m) && Shape(r.(inodes := inodes))
    ensures Freed(fs, own, r.(inodes := inodes), i, m)
  {
    var r' := r.(inodes := inodes);
    forall x: nat | x < fs.sb.size ensures Used(r', x) == Used(r, x) {}
  }

  lemma OwnerRank(fs: Fs, own: map<nat, Owner>, x: nat)
    requires WellFormed(fs, own) && x in own
    ensures Rank(own[x]) < MAXFILE + 1
  {
  }

  /** Without an indirect block, the direct blocks are all there is to free. */
  lemma NoSlots(fs: Fs, own: map<nat, Owner>, r: Fs, i: nat)
    requires WellFormed(fs, own) && i < |fs.inodes| && IndirectBlock(fs, i) == 0 && Freed(fs, own, r, i, NDIRECT)
    ensures Freed(fs, own, r, i, MAXFILE + 1)
  {
    hide Used, GetWord;
    forall x | x in own && own[x].i == i ensures Rank(own[x]) < NDIRECT {
      assert IsOwner(fs, own[x]) && Ref(fs, own[x]) == x > 0;
    }
  }

  /** The bytes of a file inside one block. */
  lemma BlockSlice(fs: Fs, i: nat, n: nat, off: nat, m: nat, block: Block)
    requires Shape(fs) && i < |fs.inodes| && Covers(fs, i, n)
    requires off + m <= n && off % BSIZE + m <= BSIZE && 0 < m
    requires off / BSIZE < MAXFILE && FileBlock(fs, i, off / BSIZE) == Some(block)
    ensures Bytes(fs, i, n)[off..off + m] == block[off % BSIZE..off % BSIZE + m]
  {
    hide FileBlock, Covers;
    var s := Bytes(fs, i, n);
    forall k | off <= k < off + m ensures s[k] == block[k - off + off % BSIZE] {
      assert k / BSIZE == off / BSIZE && k % BSIZE == k - off + off % BSIZE;
    }
  }

  /** memmove into a block. */
  function BlockSplice(b: Block, k: nat, d: seq<byte>): (r: Block)
    requires k + |d| <= BSIZE
    ensures r == Splice(b, k, d)
  {
    b[..k] + d + b[k + |d|..]
  }

  lemma SliceMore<T>(s: seq<T>, a: nat, b: nat, c: nat)
    requires a <= b <= c <= |s|
    ensures s[a..b] + s[b..c] == s[a..c]
  {
  }

  lemma SpliceNothing<T>(s: seq<T>, off: nat)
    requires off <= |s|
    ensures Splice(s, off, []) == s
  {
  }

  lemma SameBytes(fs: Fs, r: Fs, i: nat, n: nat)
    requires Shape(fs) && Shape(r) && i < |fs.inodes| == |r.inodes| && Covers(fs, i, n)
    requires forall bn: nat {:trigger FileBlock(r, i, bn)} :: bn < MAXFILE ==>
               FileBlock(r, i, bn) == FileBlock(fs, i, bn)
    ensures (MapsTo(fs, i, n) ==> MapsTo(r, i, n)) && Covers(r, i, n) && Bytes(r, i, n) == Bytes(fs, i, n)
  {
    hide FileBlock;
    var s, t := Bytes(fs, i, n), Bytes(r, i, n);
    forall k | 0 <= k < n ensures s[k] == t[k] {}
  }

  /** Only the addresses of an inode have a part in ownership and block maps. */
  lemma MetaOnly(fs: Fs, own: map<nat, Owner>, i: nat, ino: Inode)
    requires WellFormed(fs, own) && i < |fs.inodes| && ino.addrs == fs.inodes[i].addrs
    ensures var r := fs.(inodes := fs.inodes[i := ino]);
            && WellFormed(r, own) && (Tight(fs, own) ==> Tight(r, own))
            && forall i': nat, bn: nat {:trigger FileBlock(r, i', bn)} :: i' < |fs.inodes| && bn < MAXFILE ==>
                 FileBlock(r, i', bn) == FileBlock(fs, i', bn)
  {
    hide Owned, GetWord, BitOf;
    var r := fs.(inodes := fs.inodes[i := ino]);
    forall p | IsOwner(fs, p) ensures Ref(r, p) == Ref(fs, p) {}
    forall x: nat | x < fs.sb.size ensures Used(r, x) == Used(fs, x) {}
    OwnedUnchanged(fs, own, r);
  }
}
