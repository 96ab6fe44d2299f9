/** What the file server keeps about its disk, as values: the block buffers and inode slots of fsserver.c, and how
    they agree with the blocks. */
module ServerStore {
  import opened Prelude
  import opened Blocks
  import opened Bitmap
  import opened BlockMap
  import opened FileSystem
  import opened DiskInode

  const NUBUF := 32
  const NINODE := 32
  const ROOTDEV := 1

  // ---------------------------------------------------------------- block buffers

  datatype Ubuf = Ubuf(dev: nat, blockno: nat, valid: bool, refcnt: int, data: Block)

  /** A valid buffer holds what the disk holds, and a block has at most one buffer. */
  ghost predicate Coherent(bufs: seq<Ubuf>, disk: seq<Block>) {
    && |bufs| == NUBUF
    && (forall i {:trigger bufs[i]} :: 0 <= i < NUBUF && bufs[i].valid ==>
          bufs[i].dev == ROOTDEV && bufs[i].blockno < |disk| && bufs[i].data == disk[bufs[i].blockno])
    && (forall i, j {:trigger bufs[i], bufs[j]} :: 0 <= i < j < NUBUF && bufs[i].dev == bufs[j].dev == ROOTDEV ==>
          bufs[i].blockno != bufs[j].blockno)
  }

  /** The references to buffers are those in `held`. */
  ghost predicate Held(bufs: seq<Ubuf>, held: multiset<nat>) {
    forall i {:trigger bufs[i]} :: 0 <= i < |bufs| ==> bufs[i].refcnt == held[i]
  }

  /** The held buffers, once read, keep their block and its contents. */
  ghost predicate SameHeld(bufs: seq<Ubuf>, bufs': seq<Ubuf>, held: multiset<nat>) {
    && |bufs'| == |bufs|
    && (forall k {:trigger bufs'[k]} :: k in held && k < |bufs| && bufs[k].valid ==>
          bufs'[k] == bufs[k].(refcnt := bufs'[k].refcnt))
  }

  /** The held buffers, once read, keep their block. */
  ghost predicate KeptHeld(bufs: seq<Ubuf>, bufs': seq<Ubuf>, held: multiset<nat>) {
    && |bufs'| == |bufs|
    && (forall k {:trigger bufs'[k]} :: k in held && k < |bufs| && bufs[k].valid ==>
          bufs'[k].valid && bufs'[k].dev == bufs[k].dev && bufs'[k].blockno == bufs[k].blockno)
  }

  lemma KeptHeldTrans(a: seq<Ubuf>, b: seq<Ubuf>, c: seq<Ubuf>, held: multiset<nat>)
    requires KeptHeld(a, b, held) && KeptHeld(b, c, held)
    ensures KeptHeld(a, c, held)
  {
  }

  lemma SameHeldTrans(a: seq<Ubuf>, b: seq<Ubuf>, c: seq<Ubuf>, held: multiset<nat>)
    requires SameHeld(a, b, held) && SameHeld(b, c, held)
    ensures SameHeld(a, c, held)
  {
  }

  predicate HoldsBlock(x: Ubuf, b: nat) {
    x.dev == ROOTDEV && x.blockno == b
  }

  lemma ManyHeld(held: multiset<nat>)
    requires forall i: nat {:trigger held[i]} :: i < NUBUF ==> held[i] > 0
    ensures |held| > 1
  {
    assert held[0] > 0 && held[1] > 0;
    assert held == multiset{0, 1} + (held - multiset{0, 1});
  }

  // ---------------------------------------------------------------- inode slots

  /** struct uinode; the device is always ROOTDEV. */
  datatype Uinode = Uinode(inum: nat, ref: int, valid: bool, ino: Inode)

  /** What readsb learns about the disk. */
  datatype Layout = Layout(sb: Super, inodestart: nat, ninodes: nat)

  ghost predicate LayoutOk(l: Layout) {
    SuperOk(l.sb) && l.ninodes <= SHORT && l.inodestart + l.ninodes / IPB < l.sb.bmapstart
  }

  function IBlock(l: Layout, i: nat): nat {
    i / IPB + l.inodestart
  }

  const FREE_INODE := Inode(0, 0, 0, 0, 0, NoBlocks())

  /** Inode i as the disk has it. */
  ghost function OnDisk(l: Layout, disk: seq<Block>, i: nat): (ino: Inode)
    ensures Encodable(ino)
  {
    if IBlock(l, i) < |disk| then InodeAt(disk[IBlock(l, i)], i % IPB) else FREE_INODE
  }

  lemma IBlockIsMeta(l: Layout, i: nat)
    requires LayoutOk(l) && i < l.ninodes
    ensures IBlock(l, i) < l.sb.bmapstart < l.sb.datastart <= l.sb.size
  {
  }

  predicate Loaded(x: Uinode) {
    x.ref > 0 && x.valid
  }

  ghost predicate Caches(icache: seq<Uinode>, i: nat) {
    exists u :: 0 <= u < |icache| && Loaded(icache[u]) && icache[u].inum == i
  }

  /** d is on disk for an inode that is `ino` in memory: the same, but for addresses of blocks behind the end of the
      file that were added since it was written. */
  ghost predicate Behind(d: Inode, ino: Inode) {
    && |d.addrs| == |ino.addrs| == NDIRECT + 1 && d == ino.(addrs := d.addrs)
    && (forall k {:trigger d.addrs[k]} :: 0 <= k <= NDIRECT ==>
          d.addrs[k] == ino.addrs[k] || (d.addrs[k] == 0 && k * BSIZE >= ino.size))
  }

  /** A referenced slot is for an inode in use; once loaded it has the inode as the file system sees it. */
  ghost predicate SlotOk(l: Layout, disk: seq<Block>, inodes: seq<Inode>, x: Uinode) {
    x.ref > 0 ==>
      && x.inum < l.ninodes && x.inum < |inodes| && OnDisk(l, disk, x.inum).kind != 0
      && (x.valid ==> inodes[x.inum] == x.ino && Behind(OnDisk(l, disk, x.inum), x.ino))
  }

  ghost predicate DistinctInums(icache: seq<Uinode>) {
    forall u, v {:trigger icache[u], icache[v]} :: 0 <= u < v < |icache| && icache[u].ref > 0 && icache[v].ref > 0 ==>
      icache[u].inum != icache[v].inum
  }

  /** The slots are sound by themselves, whatever the disk holds. */
  ghost predicate SlotsOk(icache: seq<Uinode>) {
    && |icache| == NINODE && DistinctInums(icache)
    && (forall u {:trigger icache[u]} :: 0 <= u < NINODE ==>
          icache[u].ref >= 0 && (Loaded(icache[u]) ==> Encodable(icache[u].ino)))
  }

  /** `inodes` are the inodes as the file system sees them: in a loaded slot, or else on disk. */
  ghost predicate CacheOk(l: Layout, disk: seq<Block>, icache: seq<Uinode>, inodes: seq<Inode>) {
    && LayoutOk(l) && |disk| == l.sb.size && |inodes| == l.ninodes && |icache| == NINODE && DistinctInums(icache)
    && (forall u {:trigger icache[u]} :: 0 <= u < NINODE ==> icache[u].ref >= 0 && SlotOk(l, disk, inodes, icache[u]))
    && (forall i: nat {:trigger Caches(icache, i)} :: i < l.ninodes && !Caches(icache, i) ==>
          inodes[i] == OnDisk(l, disk, i))
  }

  /** No inode on disk changed. */
  ghost predicate SameOnDisk(l: Layout, disk: seq<Block>, disk': seq<Block>) {
    && |disk'| == |disk|
    && (forall i: nat {:trigger OnDisk(l, disk', i)} :: i < l.ninodes ==> OnDisk(l, disk', i) == OnDisk(l, disk, i))
  }

  lemma CacheDisk(l: Layout, disk: seq<Block>, disk': seq<Block>, icache: seq<Uinode>, inodes: seq<Inode>)
    requires CacheOk(l, disk, icache, inodes) && SameOnDisk(l, disk, disk')
    ensures CacheOk(l, disk', icache, inodes)
  {
    hide OnDisk, Behind;
    forall u | 0 <= u < NINODE ensures SlotOk(l, disk', inodes, icache[u]) {
      assert SlotOk(l, disk, inodes, icache[u]);
    }
  }

  /** Changing a block that is not an inode block. */
  lemma OtherBlock(l: Layout, disk: seq<Block>, b: nat, data: Block)
    requires LayoutOk(l) && |disk| == l.sb.size && l.sb.bmapstart <= b < |disk|
    ensures SameOnDisk(l, disk, disk[b := data])
  {
    forall i: nat | i < l.ninodes ensures OnDisk(l, disk[b := data], i) == OnDisk(l, disk, i) { IBlockIsMeta(l, i); }
  }

  /** Writing inode i to its block. */
  lemma InodeBlock(l: Layout, disk: seq<Block>, i: nat, ino: Inode, i': nat)
    requires LayoutOk(l) && |disk| == l.sb.size && i < l.ninodes && i' < l.ninodes && Encodable(ino)
    ensures IBlock(l, i) < |disk|
    ensures var disk' := disk[IBlock(l, i) := SetInode(disk[IBlock(l, i)], i % IPB, ino)];
            OnDisk(l, disk', i') == if i' == i then ino else OnDisk(l, disk, i')
  {
    IBlockIsMeta(l, i);
    IBlockIsMeta(l, i');
    if IBlock(l, i') == IBlock(l, i) { SetInodeAt(disk[IBlock(l, i)], i % IPB, ino, i' % IPB); }
  }

  lemma LoadedSlot(l: Layout, disk: seq<Block>, icache: seq<Uinode>, inodes: seq<Inode>, u: nat)
    requires CacheOk(l, disk, icache, inodes) && u < NINODE && Loaded(icache[u])
    ensures icache[u].inum < |inodes| == l.ninodes && inodes[icache[u].inum] == icache[u].ino
    ensures Behind(OnDisk(l, disk, icache[u].inum), icache[u].ino) && icache[u].ino.kind != 0
  {
    assert SlotOk(l, disk, inodes, icache[u]);
  }

  /** Changing what slot u has loaded, with the disk still behind it. */
  lemma SetLoaded(l: Layout, disk: seq<Block>, icache: seq<Uinode>, inodes: seq<Inode>, u: nat, ino: Inode)
    requires CacheOk(l, disk, icache, inodes) && u < NINODE && Loaded(icache[u])
    requires Behind(OnDisk(l, disk, icache[u].inum), ino)
    ensures icache[u].inum < |inodes|
    ensures CacheOk(l, disk, icache[u := icache[u].(ino := ino)], inodes[icache[u].inum := ino])
  {
    hide OnDisk, Behind;
    var i := icache[u].inum;
    assert SlotOk(l, disk, inodes, icache[u]);
    var icache', inodes' := icache[u := icache[u].(ino := ino)], inodes[i := ino];
    forall v | 0 <= v < NINODE ensures icache'[v].ref >= 0 && SlotOk(l, disk, inodes', icache'[v]) {
      assert icache[v].ref >= 0 && SlotOk(l, disk, inodes, icache[v]);
    }
    forall k: nat | k < l.ninodes && !Caches(icache', k) ensures inodes'[k] == OnDisk(l, disk, k) {
      SameCaches(icache, icache', k);
      assert Loaded(icache'[u]) && icache'[u].inum == i;
    }
  }

  /** Slots with the same numbers loaded. */
  lemma SameCaches(icache: seq<Uinode>, icache': seq<Uinode>, k: nat)
    requires |icache'| == |icache|
    requires forall v {:trigger icache'[v]} {:trigger icache[v]} :: 0 <= v < |icache| ==>
               Loaded(icache'[v]) == Loaded(icache[v]) && icache'[v].inum == icache[v].inum
    ensures Caches(icache', k) <==> Caches(icache, k)
  {
    StillCaches(icache, icache', k);
    StillCaches(icache', icache, k);
  }

  lemma CacheFacts(l: Layout, disk: seq<Block>, icache: seq<Uinode>, inodes: seq<Inode>)
    requires CacheOk(l, disk, icache, inodes)
    ensures LayoutOk(l) && |icache| == NINODE && |inodes| == l.ninodes && |disk| == l.sb.size
    ensures forall u {:trigger icache[u]} :: 0 <= u < NINODE ==>
              icache[u].ref >= 0 && (icache[u].ref > 0 ==> icache[u].inum < l.ninodes)
  {
    hide OnDisk, Behind;
    forall u | 0 <= u < NINODE ensures icache[u].ref >= 0 && (icache[u].ref > 0 ==> icache[u].inum < l.ninodes) {
      assert SlotOk(l, disk, inodes, icache[u]);
    }
  }

  /** Slots for k that are loaded stay loaded. */
  lemma StillCaches(icache: seq<Uinode>, icache': seq<Uinode>, k: nat)
    requires |icache'| == |icache|
    requires forall v {:trigger icache'[v]} {:trigger icache[v]} :: 0 <= v < |icache| ==>
               (Loaded(icache[v]) && icache[v].inum == k ==> Loaded(icache'[v]) && icache'[v].inum == k)
    ensures Caches(icache, k) ==> Caches(icache', k)
  {
    if Caches(icache, k) {
      var v :| 0 <= v < |icache| && Loaded(icache[v]) && icache[v].inum == k;
      assert Loaded(icache'[v]) && icache'[v].inum == k;
    }
  }

  // ---------------------------------------------------------------- files

  /** Free blocks read as zeros. */
  ghost predicate FreeZero(fs: Fs)
    requires Shape(fs)
  {
    forall b: nat {:trigger Used(fs, b)} :: fs.sb.datastart <= b < fs.sb.size && !Used(fs, b) ==>
      fs.blocks[b] == ZeroBlock()
  }

  /** A file has the blocks that its size needs, and a free inode has none. */
  ghost predicate FileOk(fs: Fs, i: nat)
    requires Shape(fs) && i < |fs.inodes|
  {
    && Encodable(fs.inodes[i]) && Covers(fs, i, fs.inodes[i].size)
    && (fs.inodes[i].kind == 0 ==> fs.inodes[i].addrs == NoBlocks())
  }

  ghost predicate FilesOk(fs: Fs)
    requires Shape(fs)
  {
    forall i: nat {:trigger FileOk(fs, i)} :: i < |fs.inodes| ==> FileOk(fs, i)
  }

  /** The contents of file i. */
  ghost function Contents(fs: Fs, i: nat): (s: seq<byte>)
    requires Shape(fs) && i < |fs.inodes| && FileOk(fs, i)
    ensures |s| == fs.inodes[i].size <= MAXBYTES
  {
    Bytes(fs, i, fs.inodes[i].size)
  }

  /** Every file but i is as it was. */
  ghost predicate OtherFiles(fs: Fs, r: Fs, i: nat) {
    && Shape(fs) && Shape(r) && r.sb == fs.sb && |r.inodes| == |fs.inodes|
    && (forall i' {:trigger r.inodes[i']} :: 0 <= i' < |fs.inodes| && i' != i ==> r.inodes[i'] == fs.inodes[i'])
    && SameOthers(fs, r, i)
  }

  lemma OtherTrans(fs: Fs, q: Fs, r: Fs, i: nat)
    requires OtherFiles(fs, q, i) && OtherFiles(q, r, i)
    ensures OtherFiles(fs, r, i)
  {
    hide FileBlock, Shape;
  }

  lemma OtherSelf(fs: Fs, i: nat)
    requires Shape(fs)
    ensures OtherFiles(fs, fs, i)
  {
  }

  /** A file that kept its inode and its blocks kept its contents. */
  lemma OtherContents(fs: Fs, r: Fs, i: nat, i': nat)
    requires OtherFiles(fs, r, i) && i' < |fs.inodes| && i' != i && FileOk(fs, i')
    ensures FileOk(r, i') && Contents(r, i') == Contents(fs, i')
  {
    hide FileBlock;
    assert r.inodes[i'] == fs.inodes[i'];
    SameBytes(fs, r, i', fs.inodes[i'].size);
  }

  /** If files kept the blocks they had, and inode i at most gained addresses, all files are still sound. */
  lemma FilesGrow(fs: Fs, r: Fs, i: nat)
    requires Shape(fs) && Shape(r) && SameMeta(fs, r, i) && FilesOk(fs) && fs.inodes[i].kind != 0
    requires forall i': nat, bn: nat {:trigger FileBlock(r, i', bn)} :: i' < |fs.inodes| && bn < MAXFILE ==>
               (FileBlock(fs, i', bn).Some? ==> FileBlock(r, i', bn).Some?)
    ensures FilesOk(r)
  {
    hide FileBlock;
    forall i': nat | i' < |r.inodes| ensures FileOk(r, i') {
      assert FileOk(fs, i');
      assert i' != i ==> r.inodes[i'] == fs.inodes[i'];
    }
  }

  /** Where free blocks hold zeros, marking a block is allocating it. */
  lemma AllocZero(fs: Fs, b: nat)
    requires Shape(fs) && FreeZero(fs) && fs.sb.datastart <= b < fs.sb.size && !Used(fs, b)
    ensures Alloc(fs, b) == Mark(fs, b)
  {
    hide BitOf, SetBit;
    var m := Mark(fs, b);
    assert m.blocks[b] == fs.blocks[b] == ZeroBlock();
    assert m.blocks[b := ZeroBlock()] == m.blocks;
  }

  /** Marking a block changes no inode on disk. */
  lemma MarkOnDisk(l: Layout, fs: Fs, b: nat)
    requires LayoutOk(l) && Shape(fs) && fs.sb == l.sb && b < l.sb.size
    ensures SameOnDisk(l, fs.blocks, Mark(fs, b).blocks)
  {
    BitBlockIsMeta(fs.sb, b);
    hide SetBit, BitOf;
    var bb := BitBlock(fs.sb, b);
    OtherBlock(l, fs.blocks, bb, SetBit(fs.blocks[bb], b % BPB));
  }

  lemma LinkFreeZero(fs: Fs, own: map<nat, Owner>, o: Owner, b: nat)
    requires WellFormed(fs, own) && FreeZero(fs) && fs.sb.datastart <= b < fs.sb.size && !Used(fs, b)
    requires IsOwner(fs, o) && (o.Slot? ==> IndirectBlock(fs, o.i) != 0)
    ensures Shape(SetRef(Alloc(fs, b), o, b)) && FreeZero(SetRef(Alloc(fs, b), o, b))
  {
    LinkUsed(fs, own, o, b);
    if o.Slot? { IndirectBlockOwned(fs, own, o.i); UsedOwned(fs, own, IndirectBlock(fs, o.i)); }
    hide Used, Owned, Alloc, GetWord, PutWord;
  }

  lemma UsedOwned(fs: Fs, own: map<nat, Owner>, b: nat)
    requires WellFormed(fs, own) && b in own
    ensures b < fs.sb.size && Used(fs, b)
  {
  }

  lemma WriteFreeZero(fs: Fs, own: map<nat, Owner>, i: nat, bn: nat, data: Block)
    requires WellFormed(fs, own) && FreeZero(fs) && i < |fs.inodes| && bn < MAXFILE && Addr(fs, i, bn) != 0
    ensures Addr(fs, i, bn) < |fs.blocks|
    ensures var r := PutBlock(fs, Addr(fs, i, bn), data); Shape(r) && FreeZero(r)
  {
    AddrOwned(fs, own, i, bn);
    UsedOwned(fs, own, Addr(fs, i, bn));
    hide Owned, Ref, Used;
    PutDataBlock(fs, Addr(fs, i, bn), data);
  }

  lemma MetaFreeZero(fs: Fs, i: nat, ino: Inode)
    requires Shape(fs) && FreeZero(fs) && i < |fs.inodes| && ino.addrs == fs.inodes[i].addrs
    ensures var r := fs.(inodes := fs.inodes[i := ino]); Shape(r) && FreeZero(r)
  {
    var r := fs.(inodes := fs.inodes[i := ino]);
    forall x: nat | x < fs.sb.size ensures Used(r, x) == Used(fs, x) {}
  }

  /** Changing a block before the bitmap: no name, no bit and no file changes. */
  lemma PutMetaBlock(fs: Fs, own: map<nat, Owner>, b: nat, data: Block)
    requires WellFormed(fs, own) && b < fs.sb.bmapstart
    ensures b < |fs.blocks|
    ensures var r := PutBlock(fs, b, data);
            && WellFormed(r, own) && (Tight(fs, own) ==> Tight(r, own)) && (FreeZero(fs) ==> FreeZero(r))
            && (forall i': nat, bn: nat {:trigger FileBlock(r, i', bn)} :: i' < |fs.inodes| && bn < MAXFILE ==>
                  FileBlock(r, i', bn) == FileBlock(fs, i', bn))
  {
    hide GetWord, BitOf;
    var r := PutBlock(fs, b, data);
    forall x: nat | x < fs.sb.size ensures Used(r, x) == Used(fs, x) { BitBlockIsMeta(fs.sb, x); }
    forall p | IsOwner(fs, p) ensures Ref(r, p) == Ref(fs, p) {
      if p.Slot? && IndirectBlock(fs, p.i) != 0 { IndirectBlockOwned(fs, own, p.i); }
    }
    OwnedUnchanged(fs, own, r);
    hide Used, Owned, Ref;
    forall i': nat, bn: nat | i' < |fs.inodes| && bn < MAXFILE ensures FileBlock(r, i', bn) == FileBlock(fs, i', bn) {
      if Addr(fs, i', bn) != 0 { AddrOwned(fs, own, i', bn); }
    }
  }

  /** The part of s from off on, at most n long. */
  function Slice<T>(s: seq<T>, off: nat, n: nat): (r: seq<T>) {
    if off >= |s| then [] else if off + n > |s| then s[off..] else s[off..off + n]
  }

  // ---------------------------------------------------------------- taking, loading and dropping a slot

  /** One more reference to a slot. */
  lemma RefSlot(l: Layout, disk: seq<Block>, icache: seq<Uinode>, inodes: seq<Inode>, u: nat, ref: int)
    requires CacheOk(l, disk, icache, inodes) && u < NINODE && icache[u].ref > 0 && ref > 0
    ensures CacheOk(l, disk, icache[u := icache[u].(ref := ref)], inodes)
  {
    hide OnDisk, Behind;
    var icache' := icache[u := icache[u].(ref := ref)];
    forall v | 0 <= v < NINODE ensures icache'[v].ref >= 0 && SlotOk(l, disk, inodes, icache'[v]) {
      assert icache[v].ref >= 0 && SlotOk(l, disk, inodes, icache[v]);
    }
    forall k: nat | k < l.ninodes && !Caches(icache', k) ensures inodes[k] == OnDisk(l, disk, k) {
      SameCaches(icache, icache', k);
    }
  }

  /** A free slot is taken for an inode that no slot is for. */
  lemma TakeSlot(l: Layout, disk: seq<Block>, icache: seq<Uinode>, inodes: seq<Inode>, u: nat, inum: nat)
    requires CacheOk(l, disk, icache, inodes) && u < NINODE && icache[u].ref == 0
    requires inum < l.ninodes && OnDisk(l, disk, inum).kind != 0
    requires forall v {:trigger icache[v]} :: 0 <= v < NINODE ==> !(icache[v].ref > 0 && icache[v].inum == inum)
    ensures CacheOk(l, disk, icache[u := icache[u].(inum := inum, ref := 1, valid := false)], inodes)
  {
    hide OnDisk, Behind;
    var icache' := icache[u := icache[u].(inum := inum, ref := 1, valid := false)];
    forall v | 0 <= v < NINODE ensures icache'[v].ref >= 0 && SlotOk(l, disk, inodes, icache'[v]) {
      assert icache[v].ref >= 0 && SlotOk(l, disk, inodes, icache[v]);
    }
    forall k: nat | k < l.ninodes && !Caches(icache', k) ensures inodes[k] == OnDisk(l, disk, k) {
      StillCaches(icache, icache', k);
    }
  }

  /** A slot that is not loaded yet is for an inode that only the disk has. */
  lemma NotLoaded(l: Layout, disk: seq<Block>, icache: seq<Uinode>, inodes: seq<Inode>, u: nat)
    requires CacheOk(l, disk, icache, inodes) && u < NINODE && icache[u].ref > 0 && !icache[u].valid
    ensures icache[u].inum < |inodes| && inodes[icache[u].inum] == OnDisk(l, disk, icache[u].inum)
  {
    assert SlotOk(l, disk, inodes, icache[u]);
    var i := icache[u].inum;
    assert forall v {:trigger icache[v]} :: 0 <= v < |icache| ==> !(Loaded(icache[v]) && icache[v].inum == i);
    assert !Caches(icache, i);
  }

  lemma LoadSlot(l: Layout, disk: seq<Block>, icache: seq<Uinode>, inodes: seq<Inode>, u: nat)
    requires CacheOk(l, disk, icache, inodes) && u < NINODE && icache[u].ref > 0 && !icache[u].valid
    ensures icache[u].inum < |inodes|
    ensures CacheOk(l, disk, icache[u := icache[u].(valid := true, ino := inodes[icache[u].inum])], inodes)
  {
    NotLoaded(l, disk, icache, inodes, u);
    hide OnDisk;
    var icache' := icache[u := icache[u].(valid := true, ino := inodes[icache[u].inum])];
    forall v | 0 <= v < NINODE ensures icache'[v].ref >= 0 && SlotOk(l, disk, inodes, icache'[v]) {
      assert icache[v].ref >= 0 && SlotOk(l, disk, inodes, icache[v]);
    }
    forall k: nat | k < l.ninodes && !Caches(icache', k) ensures inodes[k] == OnDisk(l, disk, k) {
      StillCaches(icache, icache', k);
    }
  }

  /** The last reference goes: what counts from then on is the inode on disk. */
  lemma DropSlot(l: Layout, disk: seq<Block>, icache: seq<Uinode>, inodes: seq<Inode>, u: nat)
    requires CacheOk(l, disk, icache, inodes) && u < NINODE && icache[u].ref > 0
    ensures icache[u].inum < |inodes|
    ensures CacheOk(l, disk, icache[u := icache[u].(ref := 0, valid := false)],
                    inodes[icache[u].inum := OnDisk(l, disk, icache[u].inum)])
  {
    hide OnDisk, Behind;
    assert SlotOk(l, disk, inodes, icache[u]);
    var i := icache[u].inum;
    var icache', inodes' := icache[u := icache[u].(ref := 0, valid := false)], inodes[i := OnDisk(l, disk, i)];
    forall v | 0 <= v < NINODE ensures icache'[v].ref >= 0 && SlotOk(l, disk, inodes', icache'[v]) {
      assert icache[v].ref >= 0 && SlotOk(l, disk, inodes, icache[v]);
    }
    forall k: nat | k < l.ninodes && !Caches(icache', k) ensures inodes'[k] == OnDisk(l, disk, k) {
      if k != i { StillCaches(icache, icache', k); }
    }
  }

  // ---------------------------------------------------------------- an inode falls back to what the disk has

  /** What is still owned when some slots name nothing any more. */
  ghost function StillOwned(fs: Fs, own: map<nat, Owner>): (r: map<nat, Owner>)
    requires Shape(fs)
  {
    map b | b in own && IsOwner(fs, own[b]) && Ref(fs, own[b]) == b :: own[b]
  }

  lemma AllOwned(fs: Fs, own: map<nat, Owner>)
    requires WellFormed(fs, own)
    ensures StillOwned(fs, own) == own
  {
  }

  lemma BehindRef(fs: Fs, own: map<nat, Owner>, i: nat, d: Inode, p: Owner)
    requires WellFormed(fs, own) && i < |fs.inodes| && Behind(d, fs.inodes[i]) && IsOwner(fs, p)
    ensures var r := fs.(inodes := fs.inodes[i := d]);
            Shape(r) && IsOwner(r, p) && (Ref(r, p) == Ref(fs, p) || (p.i == i && Ref(r, p) == 0))
  {
    hide GetWord;
    assert d.addrs[NDIRECT] == fs.inodes[i].addrs[NDIRECT] || d.addrs[NDIRECT] == 0;
    if p.i == i && p.Direct? { assert d.addrs[p.k] == fs.inodes[i].addrs[p.k] || d.addrs[p.k] == 0; }
  }

  /** A block that holds some of the file is named on disk as it is in memory. */
  lemma BehindBlock(fs: Fs, i: nat, d: Inode, bn: nat)
    requires Shape(fs) && i < |fs.inodes| && Behind(d, fs.inodes[i]) && bn < MAXFILE && bn * BSIZE < d.size
    requires Shape(fs.(inodes := fs.inodes[i := d]))
    ensures FileBlock(fs.(inodes := fs.inodes[i := d]), i, bn) == FileBlock(fs, i, bn)
  {
    hide GetWord;
    assert bn < NDIRECT ==> d.addrs[bn] == fs.inodes[i].addrs[bn];
    assert d.addrs[NDIRECT] == fs.inodes[i].addrs[NDIRECT] || d.size <= NDIRECT * BSIZE;
  }

  /** Falling back keeps every file, and loses no block exactly when memory and disk agree. */
  lemma FallBack(fs: Fs, own: map<nat, Owner>, i: nat, d: Inode)
    requires WellFormed(fs, own) && FreeZero(fs) && FilesOk(fs) && i < |fs.inodes|
    requires Behind(d, fs.inodes[i]) && d.kind != 0 && Encodable(d)
    ensures var r := fs.(inodes := fs.inodes[i := d]);
            && WellFormed(r, StillOwned(r, own)) && FreeZero(r) && FilesOk(r)
            && (Tight(r, StillOwned(r, own)) <==> Tight(fs, own) && d == fs.inodes[i])
  {
    var r := fs.(inodes := fs.inodes[i := d]);
    forall p | IsOwner(fs, p)
      ensures Shape(r) && (Ref(r, p) == Ref(fs, p) || (p.i == i && Ref(r, p) == 0))
    {
      BehindRef(fs, own, i, d, p);
    }
    FallBackShape(fs, own, i, d);
    FallBackFiles(fs, own, i, d);
    if d != fs.inodes[i] { FallBackLoses(fs, own, i, d); }
    if d == fs.inodes[i] { assert r == fs && StillOwned(r, own) == own; }
  }

  lemma FallBackShape(fs: Fs, own: map<nat, Owner>, i: nat, d: Inode)
    requires WellFormed(fs, own) && FreeZero(fs) && i < |fs.inodes| && Behind(d, fs.inodes[i])
    ensures var r := fs.(inodes := fs.inodes[i := d]); WellFormed(r, StillOwned(r, own)) && FreeZero(r)
  {
    var r := fs.(inodes := fs.inodes[i := d]);
    BehindRef(fs, own, i, d, Indirect(i));
    forall x: nat | x < fs.sb.size ensures Used(r, x) == Used(fs, x) {}
    hide Used;
    forall p | IsOwner(fs, p)
      ensures Ref(r, p) == Ref(fs, p) || (p.i == i && Ref(r, p) == 0)
    {
      BehindRef(fs, own, i, d, p);
    }
    hide Ref;
    var own' := StillOwned(r, own);
    forall p | IsOwner(r, p) && Ref(r, p) != 0 ensures Ref(r, p) in own' && own'[Ref(r, p)] == p {
      assert IsOwner(fs, p) && Ref(fs, p) == Ref(r, p);
      assert Ref(fs, p) in own && own[Ref(fs, p)] == p;
    }
    forall b | b in own' ensures fs.sb.datastart <= b < fs.sb.size && Used(r, b) && IsOwner(r, own'[b]) {
      assert b in own;
    }
  }

  lemma FallBackFiles(fs: Fs, own: map<nat, Owner>, i: nat, d: Inode)
    requires WellFormed(fs, own) && FilesOk(fs) && i < |fs.inodes|
    requires Behind(d, fs.inodes[i]) && d.kind != 0 && Encodable(d)
    ensures var r := fs.(inodes := fs.inodes[i := d]);
            && Shape(r) && FilesOk(r)
            && (forall i': nat {:trigger Contents(r, i')} :: i' < |fs.inodes| ==>
                  FileOk(r, i') && FileOk(fs, i') && Contents(r, i') == Contents(fs, i'))
  {
    var r := fs.(inodes := fs.inodes[i := d]);
    BehindRef(fs, own, i, d, Indirect(i));
    forall i': nat | i' < |fs.inodes|
      ensures FileOk(r, i') && FileOk(fs, i') && Contents(r, i') == Contents(fs, i')
    {
      assert FileOk(fs, i');
      if i' == i { FallBackBytes(fs, i, d); } else { FallBackOther(fs, i, d, i'); }
    }
  }

  lemma FallBackOther(fs: Fs, i: nat, d: Inode, i': nat)
    requires Shape(fs) && i < |fs.inodes| && i' < |fs.inodes| && i' != i && FileOk(fs, i')
    requires Shape(fs.(inodes := fs.inodes[i := d]))
    ensures var r := fs.(inodes := fs.inodes[i := d]); FileOk(r, i') && Contents(r, i') == Contents(fs, i')
  {
    var r := fs.(inodes := fs.inodes[i := d]);
    forall bn: nat | bn < MAXFILE ensures FileBlock(r, i', bn) == FileBlock(fs, i', bn) {}
    SameBytes(fs, r, i', fs.inodes[i'].size);
  }

  lemma FallBackBytes(fs: Fs, i: nat, d: Inode)
    requires Shape(fs) && i < |fs.inodes| && FileOk(fs, i) && Behind(d, fs.inodes[i]) && d.kind != 0 && Encodable(d)
    requires Shape(fs.(inodes := fs.inodes[i := d]))
    ensures var r := fs.(inodes := fs.inodes[i := d]); FileOk(r, i) && Contents(r, i) == Contents(fs, i)
  {
    var r := fs.(inodes := fs.inodes[i := d]);
    forall bn: nat | bn < MAXFILE && bn * BSIZE < d.size ensures FileBlock(r, i, bn) == FileBlock(fs, i, bn) {
      BehindBlock(fs, i, d, bn);
    }
    hide FileBlock;
    forall k | 0 <= k < d.size ensures Contents(r, i)[k] == Contents(fs, i)[k] {
      assert k / BSIZE * BSIZE <= k;
    }
  }

  /** An address that only memory has is lost, and its block stays marked. */
  lemma FallBackLoses(fs: Fs, own: map<nat, Owner>, i: nat, d: Inode)
    requires WellFormed(fs, own) && i < |fs.inodes| && Behind(d, fs.inodes[i]) && d != fs.inodes[i]
    ensures var r := fs.(inodes := fs.inodes[i := d]); Shape(r) && !Tight(r, StillOwned(r, own))
  {
    var r := fs.(inodes := fs.inodes[i := d]);
    BehindRef(fs, own, i, d, Indirect(i));
    assert d.addrs != fs.inodes[i].addrs;
    var k :| 0 <= k <= NDIRECT && d.addrs[k] != fs.inodes[i].addrs[k];
    var p := if k < NDIRECT then Direct(i, k) else Indirect(i);
    var x := Ref(fs, p);
    assert x == fs.inodes[i].addrs[k] && Ref(r, p) == d.addrs[k] == 0;
    assert x in own && own[x] == p;
    assert Used(fs, x) && Used(r, x) == Used(fs, x);
    assert x !in StillOwned(r, own);
  }

  // ---------------------------------------------------------------- changing a loaded inode

  /** An address behind the end of the file is filled in, in memory only. */
  lemma AddAddr(l: Layout, disk: seq<Block>, icache: seq<Uinode>, inodes: seq<Inode>, u: nat, k: nat, b: word)
    requires CacheOk(l, disk, icache, inodes) && u < NINODE && Loaded(icache[u]) && k <= NDIRECT
    requires |icache[u].ino.addrs| == NDIRECT + 1 && icache[u].ino.addrs[k] == 0 && k * BSIZE >= icache[u].ino.size
    ensures icache[u].inum < |inodes| && inodes[icache[u].inum] == icache[u].ino
    ensures var ino := icache[u].ino.(addrs := icache[u].ino.addrs[k := b]);
            CacheOk(l, disk, icache[u := icache[u].(ino := ino)], inodes[icache[u].inum := ino])
  {
    LoadedSlot(l, disk, icache, inodes, u);
    var d, ino := OnDisk(l, disk, icache[u].inum), icache[u].ino;
    hide OnDisk;
    assert d.addrs[k] == 0;
    assert Behind(d, ino.(addrs := ino.addrs[k := b]));
    SetLoaded(l, disk, icache, inodes, u, ino.(addrs := ino.addrs[k := b]));
  }

  /** A loaded inode changes and is written out. */
  lemma WriteBack(l: Layout, disk: seq<Block>, icache: seq<Uinode>, inodes: seq<Inode>, u: nat, ino: Inode)
    requires CacheOk(l, disk, icache, inodes) && u < NINODE && Loaded(icache[u]) && Encodable(ino) && ino.kind != 0
    ensures icache[u].inum < |inodes| && IBlock(l, icache[u].inum) < |disk|
    ensures var i := icache[u].inum;
            var disk' := disk[IBlock(l, i) := SetInode(disk[IBlock(l, i)], i % IPB, ino)];
            && CacheOk(l, disk', icache[u := icache[u].(ino := ino)], inodes[i := ino]) && OnDisk(l, disk', i) == ino
            && (forall i': nat {:trigger OnDisk(l, disk', i')} :: i' < l.ninodes && i' != i ==>
                  OnDisk(l, disk', i') == OnDisk(l, disk, i'))
  {
    assert SlotOk(l, disk, inodes, icache[u]);
    var i := icache[u].inum;
    IBlockIsMeta(l, i);
    var disk' := disk[IBlock(l, i) := SetInode(disk[IBlock(l, i)], i % IPB, ino)];
    forall k: nat | k < l.ninodes ensures OnDisk(l, disk', k) == if k == i then ino else OnDisk(l, disk, k) {
      InodeBlock(l, disk, i, ino, k);
    }
    hide OnDisk;
    assert Behind(ino, ino);
    hide Behind;
    var icache', inodes' := icache[u := icache[u].(ino := ino)], inodes[i := ino];
    forall v | 0 <= v < NINODE ensures icache'[v].ref >= 0 && SlotOk(l, disk', inodes', icache'[v]) {
      assert icache[v].ref >= 0 && SlotOk(l, disk, inodes, icache[v]);
    }
    assert Loaded(icache'[u]) && icache'[u].inum == i;
    assert Caches(icache', i);
    forall k: nat | k < l.ninodes && !Caches(icache', k) ensures inodes'[k] == OnDisk(l, disk', k) {
      StillCaches(icache, icache', k);
    }
  }

  /** A free inode is taken, on disk only. */
  lemma WriteFree(l: Layout, disk: seq<Block>, icache: seq<Uinode>, inodes: seq<Inode>, i: nat, ino: Inode)
    requires CacheOk(l, disk, icache, inodes) && i < l.ninodes && OnDisk(l, disk, i).kind == 0 && Encodable(ino)
    ensures IBlock(l, i) < |disk| && inodes[i] == OnDisk(l, disk, i)
    ensures var disk' := disk[IBlock(l, i) := SetInode(disk[IBlock(l, i)], i % IPB, ino)];
            && CacheOk(l, disk', icache, inodes[i := ino]) && OnDisk(l, disk', i) == ino
            && (forall k: nat {:trigger OnDisk(l, disk', k)} :: k < l.ninodes && k != i ==>
                  OnDisk(l, disk', k) == OnDisk(l, disk, k))
  {
    IBlockIsMeta(l, i);
    var disk' := disk[IBlock(l, i) := SetInode(disk[IBlock(l, i)], i % IPB, ino)];
    forall k: nat | k < l.ninodes ensures OnDisk(l, disk', k) == if k == i then ino else OnDisk(l, disk, k) {
      InodeBlock(l, disk, i, ino, k);
    }
    hide OnDisk, Behind;
    forall v | 0 <= v < NINODE
      ensures icache[v].ref >= 0 && SlotOk(l, disk', inodes[i := ino], icache[v])
      ensures icache[v].ref > 0 ==> icache[v].inum != i
    {
      assert icache[v].ref >= 0 && SlotOk(l, disk, inodes, icache[v]);
    }
    assert !Caches(icache, i);
  }

  // ---------------------------------------------------------------- files across an inode update

  /** Every block of every file is as it was. */
  ghost predicate SameBlocks(fs: Fs, r: Fs) {
    && Shape(fs) && Shape(r) && r.sb == fs.sb && |r.inodes| == |fs.inodes|
    && (forall i: nat, bn: nat {:trigger FileBlock(r, i, bn)} :: i < |fs.inodes| && bn < MAXFILE ==>
          FileBlock(r, i, bn) == FileBlock(fs, i, bn))
  }

  /** Inode i changes but for its addresses, and so does a block before the bitmap. */
  lemma PutInode(fs: Fs, own: map<nat, Owner>, i: nat, ino: Inode, b: nat, data: Block)
    requires WellFormed(fs, own) && FreeZero(fs) && FilesOk(fs) && i < |fs.inodes| && b < fs.sb.bmapstart
    requires ino.addrs == fs.inodes[i].addrs && Encodable(ino) && Covers(fs, i, ino.size)
    requires ino.kind == 0 ==> ino.addrs == NoBlocks()
    ensures b < |fs.blocks|
    ensures var r := PutBlock(fs.(inodes := fs.inodes[i := ino]), b, data);
            && WellFormed(r, own) && FreeZero(r) && FilesOk(r) && SameBlocks(fs, r)
            && (Tight(fs, own) ==> Tight(r, own))
  {
    hide Used, Owned, FileBlock;
    var m := fs.(inodes := fs.inodes[i := ino]);
    MetaOnly(fs, own, i, ino);
    MetaFreeZero(fs, i, ino);
    PutMetaBlock(m, own, b, data);
    var r := PutBlock(m, b, data);
    assert SameBlocks(fs, r);
    forall k: nat | k < |fs.inodes| ensures FileOk(r, k) {
      assert FileOk(fs, k);
      SameBytes(fs, r, k, r.inodes[k].size);
    }
  }

  /** An inode without an address ends before the blocks that the address would be for. */
  lemma EmptyBehind(fs: Fs, i: nat, k: nat)
    requires Shape(fs) && i < |fs.inodes| && FileOk(fs, i) && k <= NDIRECT && fs.inodes[i].addrs[k] == 0
    ensures k * BSIZE >= fs.inodes[i].size
  {
    assert FileBlock(fs, i, k) == None;
  }

  lemma SameOnDiskTrans(l: Layout, a: seq<Block>, b: seq<Block>, c: seq<Block>)
    requires SameOnDisk(l, a, b) && SameOnDisk(l, b, c)
    ensures SameOnDisk(l, a, c)
  {
    hide OnDisk;
    forall i: nat | i < l.ninodes ensures OnDisk(l, c, i) == OnDisk(l, a, i) {
      assert OnDisk(l, b, i) == OnDisk(l, a, i);
    }
  }

  lemma SameOnDiskSelf(l: Layout, disk: seq<Block>)
    ensures SameOnDisk(l, disk, disk)
  {
  }

  /** Only what slot u has loaded may have changed. */
  ghost predicate SlotKept(icache: seq<Uinode>, icache': seq<Uinode>, u: nat) {
    |icache'| == |icache| && u < |icache| && icache' == icache[u := icache[u].(ino := icache'[u].ino)]
  }

  /** Only addresses that slot u has loaded may have changed. */
  ghost predicate AddrsOnly(icache: seq<Uinode>, icache': seq<Uinode>, u: nat) {
    SlotKept(icache, icache', u) && icache'[u].ino == icache[u].ino.(addrs := icache'[u].ino.addrs)
  }

  ghost predicate SameIndirect(icache: seq<Uinode>, icache': seq<Uinode>, u: nat) {
    && u < |icache| && u < |icache'| && |icache[u].ino.addrs| == |icache'[u].ino.addrs| == NDIRECT + 1
    && icache'[u].ino.addrs[NDIRECT] == icache[u].ino.addrs[NDIRECT]
  }

  lemma SameIndirectTrans(a: seq<Uinode>, b: seq<Uinode>, c: seq<Uinode>, u: nat)
    requires SameIndirect(a, b, u) && SameIndirect(b, c, u)
    ensures SameIndirect(a, c, u)
  {
  }

  lemma AddrsOnlyTrans(a: seq<Uinode>, b: seq<Uinode>, c: seq<Uinode>, u: nat)
    requires AddrsOnly(a, b, u) && AddrsOnly(b, c, u)
    ensures AddrsOnly(a, c, u)
  {
    SlotKeptTrans(a, b, c, u);
  }

  /** A file that was longer in the making. */
  lemma BytesPrefix(fs: Fs, i: nat, n: nat, m: nat)
    requires Shape(fs) && i < |fs.inodes| && n <= m && Covers(fs, i, m)
    ensures Covers(fs, i, n) && Bytes(fs, i, n) == Bytes(fs, i, m)[..n]
  {
    hide FileBlock;
  }

  lemma SameBlocksBytes(fs: Fs, r: Fs, i: nat, n: nat)
    requires SameBlocks(fs, r) && i < |fs.inodes| && Covers(fs, i, n)
    ensures Covers(r, i, n) && Bytes(r, i, n) == Bytes(fs, i, n)
  {
    hide FileBlock;
    SameBytes(fs, r, i, n);
  }

  lemma SameBlocksOther(fs: Fs, r: Fs, i: nat)
    requires SameBlocks(fs, r)
    requires forall k {:trigger r.inodes[k]} :: 0 <= k < |fs.inodes| && k != i ==> r.inodes[k] == fs.inodes[k]
    ensures OtherFiles(fs, r, i)
  {
    hide FileBlock;
  }

  lemma OneBlockOther(fs: Fs, r: Fs, i: nat, bn: nat, now: Option<Block>)
    requires Shape(fs) && Shape(r) && OneBlock(fs, r, i, bn, now)
    ensures OtherFiles(fs, r, i)
  {
    hide FileBlock;
  }

  lemma SameMetaTrans(fs: Fs, q: Fs, r: Fs, i: nat)
    requires SameMeta(fs, q, i) && SameMeta(q, r, i)
    ensures SameMeta(fs, r, i)
  {
  }

  lemma SlotKeptTrans(a: seq<Uinode>, b: seq<Uinode>, c: seq<Uinode>, u: nat)
    requires SlotKept(a, b, u) && SlotKept(b, c, u)
    ensures SlotKept(a, c, u)
  {
    assert c == a[u := a[u].(ino := c[u].ino)];
  }

  /** Writing block bn of file i keeps the file system sound and changes no other block of any file. */
  lemma PutFileBlock(fs: Fs, own: map<nat, Owner>, i: nat, bn: nat, data: Block)
    requires WellFormed(fs, own) && FreeZero(fs) && FilesOk(fs) && i < |fs.inodes| && bn < MAXFILE
    requires Addr(fs, i, bn) != 0 && fs.inodes[i].kind != 0
    ensures Addr(fs, i, bn) < |fs.blocks|
    ensures var r := PutBlock(fs, Addr(fs, i, bn), data);
            && WellFormed(r, own) && FreeZero(r) && FilesOk(r) && (Tight(fs, own) ==> Tight(r, own))
            && OneBlock(fs, r, i, bn, Some(data))
  {
    hide Used, Owned, GetWord, Ref, FreeZero, Tight;
    AddrOwned(fs, own, i, bn);
    WriteKeepsWellFormed(fs, own, i, bn, data);
    WriteFreeZero(fs, own, i, bn, data);
    var r := PutBlock(fs, Addr(fs, i, bn), data);
    forall i': nat, bn': nat | i' < |fs.inodes| && bn' < MAXFILE
      ensures FileBlock(r, i', bn') == if i' == i && bn' == bn then Some(data) else FileBlock(fs, i', bn')
    {
      WriteFileBlock(fs, own, i, bn, data, i', bn');
    }
    hide FileBlock;
    FilesGrow(fs, r, i);
  }

  /** bmap gave file i block off / BSIZE, if it had none, and then d was moved into it. */
  lemma PieceWritten(fs: Fs, q: Fs, r: Fs, i: nat, n: nat, off: nat, d: seq<byte>, was: Block, now: Block)
    requires Shape(fs) && Shape(q) && Shape(r) && i < |fs.inodes| && Covers(fs, i, n)
    requires off <= n && 0 < |d| && off % BSIZE + |d| <= BSIZE && off / BSIZE < MAXFILE
    requires OneBlock(fs, q, i, off / BSIZE, Filled(fs, i, off / BSIZE)) && OneBlock(q, r, i, off / BSIZE, Some(now))
    requires FileBlock(q, i, off / BSIZE) == Some(was) && now == Splice(was, off % BSIZE, d)
    ensures SameMeta(fs, r, i) && OtherFiles(fs, r, i)
    ensures Covers(r, i, Max(n, off + |d|)) && Bytes(r, i, Max(n, off + |d|)) == Splice(Bytes(fs, i, n), off, d)
  {
    hide FileBlock, Splice, Covers;
    SameMetaTrans(fs, q, r, i);
    OneBlockOther(fs, q, i, off / BSIZE, Filled(fs, i, off / BSIZE));
    OneBlockOther(q, r, i, off / BSIZE, Some(now));
    OtherTrans(fs, q, r, i);
    SpliceOneBlock(fs, r, i, n, off, d, was, now);
  }

  /** Memory and disk never disagree about the type of an inode. */
  lemma KindOnDisk(l: Layout, disk: seq<Block>, icache: seq<Uinode>, inodes: seq<Inode>, i: nat)
    requires CacheOk(l, disk, icache, inodes) && i < l.ninodes
    ensures OnDisk(l, disk, i).kind == inodes[i].kind
  {
    hide OnDisk;
    if Caches(icache, i) {
      var u :| 0 <= u < |icache| && Loaded(icache[u]) && icache[u].inum == i;
      LoadedSlot(l, disk, icache, inodes, u);
    }
  }

  /** No slot is for a free inode. */
  lemma FreeIsUnused(l: Layout, disk: seq<Block>, icache: seq<Uinode>, inodes: seq<Inode>, i: nat)
    requires CacheOk(l, disk, icache, inodes) && OnDisk(l, disk, i).kind == 0
    ensures forall u {:trigger icache[u]} :: 0 <= u < NINODE ==> !(icache[u].ref > 0 && icache[u].inum == i)
  {
    hide OnDisk;
    forall u | 0 <= u < NINODE ensures !(icache[u].ref > 0 && icache[u].inum == i) {
      assert SlotOk(l, disk, inodes, icache[u]);
    }
  }

  /** File i has its type, size and contents. */
  ghost predicate SameAt(fs: Fs, r: Fs, i: nat)
    requires Shape(fs) && Shape(r) && |r.inodes| == |fs.inodes| && i < |fs.inodes|
  {
    && r.inodes[i] == fs.inodes[i].(addrs := r.inodes[i].addrs)
    && FileOk(r, i) && FileOk(fs, i) && Contents(r, i) == Contents(fs, i)
  }

  ghost predicate SameContents(fs: Fs, r: Fs) {
    && Shape(fs) && Shape(r) && r.sb == fs.sb && |r.inodes| == |fs.inodes|
    && (forall i: nat {:trigger SameAt(fs, r, i)} :: i < |fs.inodes| ==> SameAt(fs, r, i))
  }

  lemma SameContentsSelf(fs: Fs)
    requires Shape(fs) && FilesOk(fs)
    ensures SameContents(fs, fs)
  {
    forall i: nat | i < |fs.inodes| ensures SameAt(fs, fs, i) { assert FileOk(fs, i); }
  }

  lemma FileIsOk(fs: Fs, i: nat)
    requires Shape(fs) && FilesOk(fs) && i < |fs.inodes|
    ensures FileOk(fs, i)
  {
  }

  // ---------------------------------------------------------------- a disk at boot

  ghost function DiskInodes(l: Layout, disk: seq<Block>): (inodes: seq<Inode>)
    ensures |inodes| == l.ninodes
    ensures forall i {:trigger inodes[i]} :: 0 <= i < l.ninodes ==> inodes[i] == OnDisk(l, disk, i)
  {
    seq(l.ninodes, (i: nat) => OnDisk(l, disk, i))
  }

  /** A disk that the server can start from: nothing is shared, free blocks hold zeros and files have their blocks. */
  ghost predicate ImageOk(l: Layout, disk: seq<Block>, own: map<nat, Owner>) {
    var fs := Fs(l.sb, disk, DiskInodes(l, disk));
    LayoutOk(l) && WellFormed(fs, own) && FreeZero(fs) && FilesOk(fs)
  }

  const T_DIR := 1
  const ROOTINO := 1

  /** mkfs before it appends anything: a marked bitmap and a root directory without entries. */
  method Format(l: Layout) returns (disk: seq<Block>)
    requires LayoutOk(l) && ROOTINO < l.ninodes
    ensures ImageOk(l, disk, map[]) && Tight(Fs(l.sb, disk, DiskInodes(l, disk)), map[])
    ensures forall i: nat {:trigger OnDisk(l, disk, i)} :: i < l.ninodes ==>
              OnDisk(l, disk, i) == if i == ROOTINO then Inode(T_DIR, 0, 0, 1, 0, NoBlocks()) else FREE_INODE
  {
    hide Used, GetWord, PutWord;
    ghost var none := seq(l.ninodes, _ => FREE_INODE);
    var zeros := seq(l.sb.size, _ => ZeroBlock());
    disk := MarkFirst(l.sb, zeros, none);
    ghost var marked := disk;
    IBlockIsMeta(l, ROOTINO);
    var root := Inode(T_DIR, 0, 0, 1, 0, NoBlocks());
    var b := IBlock(l, ROOTINO);
    disk := disk[b := SetInode(disk[b], ROOTINO % IPB, root)];
    Formatted(l, marked, disk, root);
  }

  lemma Formatted(l: Layout, marked: seq<Block>, disk: seq<Block>, root: Inode)
    requires LayoutOk(l) && ROOTINO < l.ninodes && |marked| == l.sb.size && IBlock(l, ROOTINO) < |marked|
    requires root == Inode(T_DIR, 0, 0, 1, 0, NoBlocks())
    requires var fs := Fs(l.sb, marked, seq(l.ninodes, _ => FREE_INODE));
             Shape(fs) && forall x: nat {:trigger Used(fs, x)} :: x < l.sb.size ==> Used(fs, x) == (x < l.sb.datastart)
    requires forall b {:trigger marked[b]} :: 0 <= b < l.sb.size && (b < l.sb.bmapstart || l.sb.datastart <= b) ==>
               marked[b] == ZeroBlock()
    requires disk == marked[IBlock(l, ROOTINO) := SetInode(marked[IBlock(l, ROOTINO)], ROOTINO % IPB, root)]
    ensures ImageOk(l, disk, map[]) && Tight(Fs(l.sb, disk, DiskInodes(l, disk)), map[])
    ensures forall i: nat {:trigger OnDisk(l, disk, i)} :: i < l.ninodes ==>
              OnDisk(l, disk, i) == if i == ROOTINO then root else FREE_INODE
  {
    hide SetInode, InodeAt;
    forall i: nat | i < l.ninodes ensures OnDisk(l, disk, i) == if i == ROOTINO then root else FREE_INODE {
      IBlockIsMeta(l, i);
      InodeBlock(l, marked, ROOTINO, root, i);
      ZeroInode(i % IPB);
    }
    var fs := Fs(l.sb, disk, DiskInodes(l, disk));
    var fs0 := Fs(l.sb, marked, seq(l.ninodes, _ => FREE_INODE));
    hide OnDisk;
    IBlockIsMeta(l, ROOTINO);
    forall x: nat | x < l.sb.size ensures Used(fs, x) == Used(fs0, x) { BitBlockIsMeta(l.sb, x); }
    hide Used;
    EmptyWellFormed(fs);
    forall i: nat | i < |fs.inodes| ensures FileOk(fs, i) {}
  }
}
