/** The block cache, inode cache, allocators, block maps, ureadi and uwritei of fsserver.c over the blocks that
    disk_request reads and writes. Unlike the kernel's, this balloc does not clear a block: the server starts from a
    disk whose free blocks hold zeros and frees none. */
module ServerIo {
  import opened Prelude
  import opened Blocks
  import opened Bitmap
  import opened BlockMap
  import opened FileSystem
  import opened DiskInode
  import opened ServerStore

  class Store {
    const l: Layout
    const sb: Super := l.sb
    var disk: seq<Block>
    var bufs: seq<Ubuf>
    var icache: seq<Uinode>
    ghost var inodes: seq<Inode> // as the file system sees them: in a loaded slot, or else on disk
    ghost var owner: map<nat, Owner>

    ghost function State(): (fs: Fs)
      reads this
    {
      Fs(sb, disk, inodes)
    }

    /** What the server keeps whatever the blocks hold: buffers agree with the disk, and the slots are sound. */
    ghost predicate Tab()
      reads this
    {
      Shape(State()) && Coherent(bufs, disk) && LayoutOk(l) && SlotsOk(icache)
    }

    /** ... and what it keeps as long as the directories lead to inodes in use: a sound file system. */
    ghost predicate Wf()
      reads this
    {
      && WellFormed(State(), owner) && FreeZero(State()) && FilesOk(State())
      && Coherent(bufs, disk) && CacheOk(l, disk, icache, inodes)
    }

    /** No marked block is lost. */
    ghost predicate NoLeak()
      reads this
    {
      Shape(State()) && Tight(State(), owner)
    }

    ghost predicate Full()
      reads this
    {
      Shape(State()) && forall x: nat {:trigger Used(State(), x)} :: x < sb.size ==> Used(State(), x)
    }

    /** ubuf_init and uinode_init, over a disk that nothing else writes. */
    constructor (l: Layout, image: seq<Block>, ghost own: map<nat, Owner>)
      requires ImageOk(l, image, own)
      ensures this.l == l && disk == image && inodes == DiskInodes(l, image) && owner == own
      ensures Wf() && Held(bufs, multiset{}) && forall u {:trigger icache[u]} :: 0 <= u < NINODE ==> icache[u].ref == 0
    {
      this.l, disk := l, image;
      bufs := seq(NUBUF, _ => Ubuf(0, 0, false, 0, ZeroBlock()));
      icache := seq(NINODE, _ => Uinode(0, 0, false, FREE_INODE));
      inodes, owner := DiskInodes(l, image), own;
      new;
      hide WellFormed, FreeZero, FilesOk, OnDisk, Behind;
      assert CacheOk(l, disk, icache, inodes);
    }

    // -------------------------------------------------------------- the block cache

    /** ubuf_get: the buffer of block b if there is one, else the first unreferenced buffer from the tail of the list;
        None exactly when there is neither. */
    method UbufGet(b: nat, ghost held: multiset<nat>) returns (r: Option<nat>)
      requires Coherent(bufs, disk) && Held(bufs, held)
      modifies `bufs
      ensures Coherent(bufs, disk)
      ensures r.None? <==> forall i {:trigger old(bufs)[i]} :: 0 <= i < NUBUF ==>
                             !HoldsBlock(old(bufs)[i], b) && old(bufs)[i].refcnt != 0
      ensures r.None? ==> bufs == old(bufs)
      ensures r.Some? ==> r.value < NUBUF && Held(bufs, held + multiset{r.value}) && HoldsBlock(bufs[r.value], b)
      ensures r.Some? ==> SameHeld(old(bufs), bufs, held)
      ensures r.Some? ==> (r.value in held <==> held[r.value] > 0 && HoldsBlock(old(bufs)[r.value], b))
    {
      var i := NUBUF;
      while i > 0
        invariant 0 <= i <= NUBUF && bufs == old(bufs)
        invariant forall j {:trigger bufs[j]} :: i <= j < NUBUF ==> !HoldsBlock(bufs[j], b)
      {
        i := i - 1;
        if HoldsBlock(bufs[i], b) {
          bufs := bufs[i := bufs[i].(refcnt := bufs[i].refcnt + 1)];
          return Some(i);
        }
      }
      while i < NUBUF
        invariant 0 <= i <= NUBUF && bufs == old(bufs)
        invariant forall j {:trigger bufs[j]} :: 0 <= j < i ==> bufs[j].refcnt != 0
      {
        if bufs[i].refcnt == 0 {
          bufs := bufs[i := bufs[i].(dev := ROOTDEV, blockno := b, valid := false, refcnt := 1)];
          return Some(i);
        }
        i := i + 1;
      }
      return None;
    }

    /** ubread, for a block on the disk and with at most one other reference held: there is always a buffer. */
    method Ubread(b: nat, ghost held: multiset<nat>) returns (i: nat)
      requires Coherent(bufs, disk) && Held(bufs, held) && b < |disk| && |held| <= 1
      modifies `bufs
      ensures Coherent(bufs, disk) && i < NUBUF == |bufs| && Held(bufs, held + multiset{i})
      ensures HoldsBlock(bufs[i], b) && bufs[i].valid && bufs[i].data == disk[b]
      ensures SameHeld(old(bufs), bufs, held)
      ensures i in held ==> HoldsBlock(old(bufs)[i], b)
    {
      var r := UbufGet(b, held);
      assert r.Some? by {
        if r.None? {
          forall j: nat | j < NUBUF ensures held[j] > 0 { assert old(bufs)[j].refcnt != 0; }
          ManyHeld(held);
        }
      }
      i := r.value;
      if !bufs[i].valid {
        bufs := bufs[i := bufs[i].(data := disk[b], valid := true)];
      }
    }

    /** Change a held buffer and ubwrite it. */
    method Ubwrite(i: nat, data: Block, ghost held: multiset<nat>)
      requires Coherent(bufs, disk) && Held(bufs, held) && i < NUBUF && bufs[i].valid
      modifies `bufs, `disk
      ensures Coherent(bufs, disk) && Held(bufs, held) && bufs == old(bufs)[i := old(bufs)[i].(data := data)]
      ensures old(bufs)[i].blockno < |old(disk)| && disk == old(disk)[old(bufs)[i].blockno := data]
    {
      bufs := bufs[i := bufs[i].(data := data)];
      disk := disk[bufs[i].blockno := data];
    }

    method Ubrelse(i: nat, ghost held: multiset<nat>)
      requires Coherent(bufs, disk) && i < NUBUF && Held(bufs, held) && i in held
      modifies `bufs
      ensures Coherent(bufs, disk) && Held(bufs, held - multiset{i}) && SameHeld(old(bufs), bufs, held)
      ensures bufs == old(bufs)[i := old(bufs)[i].(refcnt := old(bufs)[i].refcnt - 1)]
    {
      bufs := bufs[i := bufs[i].(refcnt := bufs[i].refcnt - 1)];
    }

    // -------------------------------------------------------------- balloc

    /** The inner loop of balloc over the bitmap block in buffer i. */
    method FirstClear(b: nat, i: nat) returns (bi: nat)
      requires Shape(State()) && b % BPB == 0 && b < sb.size && i < |bufs| && bufs[i].data == disk[BitBlock(sb, b)]
      ensures bi <= BPB && (bi == BPB || b + bi >= sb.size || !Used(State(), b + bi))
      ensures forall x: nat {:trigger Used(State(), x)} :: b <= x < b + bi && x < sb.size ==> Used(State(), x)
    {
      hide SetBit, ResetBit;
      BitBlockIsMeta(sb, b);
      bi := 0;
      while bi < BPB && b + bi < sb.size
        invariant 0 <= bi <= BPB
        invariant forall x: nat {:trigger Used(State(), x)} :: b <= x < b + bi && x < sb.size ==> Used(State(), x)
      {
        InBitBlock(State(), b, bi);
        if !BitOf(bufs[i].data, bi) { return; }
        bi := bi + 1;
      }
    }

    /** Set the bit, write the bitmap block through and release it. */
    method MarkBit(b: nat, bi: nat, i: nat, ghost held: multiset<nat>)
      requires Shape(State()) && Coherent(bufs, disk) && Held(bufs, held + multiset{i})
      requires b % BPB == 0 && bi < BPB && b + bi < sb.size && i < NUBUF
      requires bufs[i].valid && bufs[i].blockno == BitBlock(sb, b)
      modifies `bufs, `disk
      ensures Coherent(bufs, disk) && Held(bufs, held) && KeptHeld(old(bufs), bufs, held)
      ensures i !in held ==> SameHeld(old(bufs), bufs, held)
      ensures State() == Mark(old(State()), b + bi)
    {
      InBitBlock(State(), b, bi);
      hide Used, SetBit;
      Ubwrite(i, SetBit(bufs[i].data, bi), held + multiset{i});
      Ubrelse(i, held + multiset{i});
      assert held + multiset{i} - multiset{i} == held;
    }

    /** One turn of the outer loop of balloc; None when the bitmap block has no clear bit. */
    method TryBlock(b: nat, ghost held: multiset<nat>) returns (r: Option<nat>)
      requires Shape(State()) && Coherent(bufs, disk) && Held(bufs, held) && |held| <= 1 && b % BPB == 0 && b < sb.size
      modifies `bufs, `disk
      ensures Coherent(bufs, disk) && Held(bufs, held) && KeptHeld(old(bufs), bufs, held)
      ensures HeldData(old(bufs), held, sb.datastart) ==> SameHeld(old(bufs), bufs, held)
      ensures r.None? ==> disk == old(disk)
      ensures r.None? ==>
                forall x: nat {:trigger Used(State(), x)} :: b <= x < b + BPB && x < sb.size ==> Used(State(), x)
      ensures r.Some? ==> b <= r.value < sb.size && !Used(old(State()), r.value)
      ensures r.Some? ==> State() == Mark(old(State()), r.value)
    {
      hide Used, Coherent, Held, SameHeld, KeptHeld, Mark;
      BitBlockIsMeta(sb, b);
      var i := Ubread(BitBlock(sb, b), held);
      ghost var b1, fs := bufs, State();
      var bi := FirstClear(b, i);
      if bi < BPB && b + bi < sb.size {
        MarkBit(b, bi, i, held);
        r := Some(b + bi);
      } else {
        r := None;
        assert State() == fs;
        assert forall x: nat {:trigger Used(fs, x)} :: b <= x < b + BPB && x < sb.size ==> Used(fs, x);
        Ubrelse(i, held + multiset{i});
        assert held + multiset{i} - multiset{i} == held;
        assert State() == fs;
      }
      Turned(old(bufs), b1, bufs, held, i, r.Some?, sb.datastart, BitBlock(sb, b));
    }

    /** The first block whose bit is clear, marked; 0 when every block is in use. */
    method Balloc(ghost held: multiset<nat>) returns (r: nat)
      requires Shape(State()) && Coherent(bufs, disk) && Held(bufs, held) && |held| <= 1
      modifies `bufs, `disk
      ensures Shape(State()) && Coherent(bufs, disk) && Held(bufs, held) && KeptHeld(old(bufs), bufs, held)
      ensures HeldData(old(bufs), held, sb.datastart) ==> SameHeld(old(bufs), bufs, held)
      ensures r == 0 && Used(old(State()), 0) ==> disk == old(disk) && Full()
      ensures r != 0 ==> r < sb.size && !Used(old(State()), r) && State() == Mark(old(State()), r)
    {
      ghost var fs, data := State(), HeldData(bufs, held, sb.datastart);
      var b := 0;
      hide Used, Coherent, Held, HeldData, Mark, SameHeld, KeptHeld;
      HeldSelf(bufs, held);
      while b < sb.size
        invariant b % BPB == 0 && disk == old(disk) && Coherent(bufs, disk) && Held(bufs, held)
        invariant KeptHeld(old(bufs), bufs, held)
        invariant data ==> SameHeld(old(bufs), bufs, held) && HeldData(bufs, held, sb.datastart)
        invariant forall x: nat {:trigger Used(fs, x)} :: x < b && x < sb.size ==> Used(fs, x)
      {
        ghost var b1 := bufs;
        var o := TryBlock(b, held);
        KeptHeldTrans(old(bufs), b1, bufs, held);
        if data { SameHeldTrans(old(bufs), b1, bufs, held); }
        if o.Some? { return o.value; }
        if data { StillData(b1, bufs, held, sb.datastart); }
        assert State() == fs;
        b := b + BPB;
      }
      return 0;
    }

    // -------------------------------------------------------------- the inode cache

    /** uiget: the slot for inode inum, else the first free slot; None exactly when there is neither. A slot for an
        inode that is not in use leaves nothing known of the file system. */
    method Uiget(inum: nat) returns (r: Option<nat>)
      requires Tab()
      modifies `icache
      ensures Tab()
      ensures r.None? <==> forall u {:trigger old(icache)[u]} :: 0 <= u < NINODE ==>
                             old(icache)[u].ref > 0 && old(icache)[u].inum != inum
      ensures r.None? ==> icache == old(icache)
      ensures r.Some? ==> r.value < NINODE && |icache| == |old(icache)| == NINODE
      ensures r.Some? ==> var x, y := old(icache)[r.value], icache[r.value];
                          && icache == old(icache)[r.value := y] && y.inum == inum && y.ref == x.ref + 1 && x.ref >= 0
                          && (x.ref > 0 ==> y == x.(ref := x.ref + 1))
                          && (x.ref == 0 ==> y == x.(inum := inum, ref := 1, valid := false))
      ensures old(Wf()) && inum < l.ninodes && OnDisk(l, disk, inum).kind != 0 ==> Wf()
    {
      hide WellFormed, FreeZero, FilesOk, Coherent, CacheOk, OnDisk;
      ghost var sane := Wf() && inum < l.ninodes && OnDisk(l, disk, inum).kind != 0;
      var u, empty := 0, NINODE;
      while u < NINODE
        invariant 0 <= u <= NINODE && icache == old(icache) && 0 <= empty <= NINODE
        invariant forall v {:trigger icache[v]} :: 0 <= v < u ==> !(icache[v].ref > 0 && icache[v].inum == inum)
        invariant empty < NINODE ==> empty < u && icache[empty].ref == 0
        invariant empty == NINODE ==> forall v {:trigger icache[v]} :: 0 <= v < u ==> icache[v].ref != 0
      {
        if icache[u].ref > 0 && icache[u].inum == inum {
          if sane { RefSlot(l, disk, icache, inodes, u, icache[u].ref + 1); }
          icache := icache[u := icache[u].(ref := icache[u].ref + 1)];
          return Some(u);
        }
        if empty == NINODE && icache[u].ref == 0 { empty := u; }
        u := u + 1;
      }
      if empty == NINODE { return None; }
      if sane { TakeSlot(l, disk, icache, inodes, empty, inum); }
      icache := icache[empty := icache[empty].(inum := inum, ref := 1, valid := false)];
      return Some(empty);
    }

    /** uilock: the slot is loaded from the inode block if need be. The file system does not change. Not live: there is
        no such block, and the kernel panics. */
    method Uilock(u: nat) returns (live: bool)
      requires Tab() && Held(bufs, multiset{}) && u < |icache| && icache[u].ref > 0
      modifies `bufs, `icache
      ensures Tab() && Held(bufs, multiset{}) && |icache| == |old(icache)|
      ensures live <==> old(icache)[u].valid || IBlock(l, old(icache)[u].inum) < |disk|
      ensures !live ==> icache == old(icache)
      ensures live ==> Loaded(icache[u])
      ensures live ==> icache == old(icache)[u := old(icache)[u].(valid := true, ino := icache[u].ino)]
      ensures live ==> if old(icache)[u].valid then icache == old(icache) else Clean(u)
      ensures old(Wf()) ==> live && Wf()
      ensures old(Wf()) ==> icache[u].inum < |inodes| && icache[u].ino == inodes[icache[u].inum]
    {
      hide WellFormed, FreeZero, FilesOk, Coherent, Held, CacheOk, Encodable;
      ghost var sane := Wf();
      if icache[u].valid {
        if sane { LoadedSlot(l, disk, icache, inodes, u); }
        assert icache[u := icache[u]] == icache;
        return true;
      }
      var inum := icache[u].inum;
      if sane {
        CacheFacts(l, disk, icache, inodes);
        NotLoaded(l, disk, icache, inodes, u);
        LoadSlot(l, disk, icache, inodes, u);
        IBlockIsMeta(l, inum);
      }
      if IBlock(l, inum) >= |disk| { return false; }
      var bp := Ubread(IBlock(l, inum), multiset{});
      icache := icache[u := icache[u].(ino := InodeAt(bufs[bp].data, inum % IPB))];
      assert multiset{} + multiset{bp} == multiset{bp} && multiset{bp} - multiset{bp} == multiset{};
      Ubrelse(bp, multiset{bp});
      icache := icache[u := icache[u].(valid := true)];
      assert icache == old(icache)[u := old(icache)[u].(valid := true, ino := OnDisk(l, disk, inum))];
      return true;
    }

    /** The disk has the inode in slot u as it is in memory. */
    ghost predicate Clean(u: nat)
      reads this
      requires u < |icache|
    {
      OnDisk(l, disk, icache[u].inum) == icache[u].ino
    }

    /** Dropping a reference to slot u changes nothing else. */
    ghost predicate LetGo(u: nat)
      reads this
      requires u < |icache|
    {
      icache[u].ref > 1 || !icache[u].valid || Clean(u)
    }

    /** uiput: one reference less. With the last one the slot is no longer valid, and the inode is what the disk has:
        every file keeps its contents, and no block is lost exactly when the slot agreed with the disk. */
    method Uiput(u: nat)
      requires Tab() && u < |icache| && icache[u].ref > 0
      modifies `icache, `inodes, `owner
      ensures Tab() && |icache| == |old(icache)|
      ensures var x := old(icache)[u];
              icache == old(icache)[u := x.(ref := x.ref - 1, valid := x.ref > 1 && x.valid)]
      ensures old(LetGo(u)) || !old(Wf()) ==> State() == old(State()) && owner == old(owner)
      ensures old(Wf()) ==> Wf() && SameContents(old(State()), State())
      ensures old(Wf()) ==> (NoLeak() <==> old(NoLeak()) && old(LetGo(u)))
    {
      hide WellFormed, FreeZero, FilesOk, Coherent, Tight, CacheOk, OnDisk, SameContents, Behind, Encodable;
      ghost var x, sane, ic := icache[u], Wf(), icache;
      icache := icache[u := icache[u].(ref := icache[u].ref - 1)];
      if icache[u].ref == 0 {
        icache := icache[u := icache[u].(valid := false)];
        assert icache == ic[u := x.(ref := 0, valid := false)];
      }
      assert icache[u] == x.(ref := x.ref - 1, valid := x.ref > 1 && x.valid);
      if sane {
        Dropped(u, ic);
        WfShape();
      }
    }

    /** One reference to slot u went: how the file system is seen from then on. */
    ghost method Dropped(u: nat, ic: seq<Uinode>)
      requires WellFormed(State(), owner) && FreeZero(State()) && FilesOk(State()) && Coherent(bufs, disk)
      requires CacheOk(l, disk, ic, inodes) && u < |ic| && ic[u].ref > 0
      requires var x := ic[u]; icache == ic[u := x.(ref := x.ref - 1, valid := x.ref > 1 && x.valid)]
      modifies `inodes, `owner
      ensures Wf() && SameContents(old(State()), State())
      ensures var go := ic[u].ref > 1 || !ic[u].valid || OnDisk(l, disk, ic[u].inum) == ic[u].ino;
              && (go ==> State() == old(State()) && owner == old(owner))
              && (NoLeak() <==> old(NoLeak()) && go)
    {
      assert Shape(State());
      hide WellFormed, FreeZero, FilesOk, Coherent, Tight, CacheOk, OnDisk, SameContents, Behind;
      ghost var x := ic[u];
      CacheFacts(l, disk, ic, inodes);
      SameContentsSelf(State());
      if x.ref > 1 {
        RefSlot(l, disk, ic, inodes, u, x.ref - 1);
      } else {
        DropSlot(l, disk, ic, inodes, u);
        if x.valid {
          LoadedSlot(l, disk, ic, inodes, u);
          Forget(x.inum);
        } else {
          NotLoaded(l, disk, ic, inodes, u);
          assert inodes[x.inum := inodes[x.inum]] == inodes;
        }
      }
    }

    /** Inode i is again what the disk has. */
    ghost method Forget(i: nat)
      requires WellFormed(State(), owner) && FreeZero(State()) && FilesOk(State()) && i < |inodes|
      requires Behind(OnDisk(l, disk, i), inodes[i]) && inodes[i].kind != 0
      modifies `inodes, `owner
      ensures inodes == old(inodes)[i := OnDisk(l, disk, i)] && SameContents(old(State()), State())
      ensures WellFormed(State(), owner) && FreeZero(State()) && FilesOk(State())
      ensures NoLeak() <==> old(NoLeak()) && OnDisk(l, disk, i) == old(inodes)[i]
      ensures OnDisk(l, disk, i) == old(inodes)[i] ==> inodes == old(inodes) && owner == old(owner)
    {
      assert Shape(State());
      hide WellFormed, FreeZero, FilesOk, Tight, OnDisk;
      ghost var fs, d := State(), OnDisk(l, disk, i);
      FallBack(fs, owner, i, d);
      FallBackFiles(fs, owner, i, d);
      if d == inodes[i] {
        assert inodes[i := d] == inodes;
        AllOwned(fs, owner);
      }
      inodes := inodes[i := d];
      owner := StillOwned(State(), owner);
      ghost var r := State();
      assert r == fs.(inodes := fs.inodes[i := d]);
      forall k: nat | k < |inodes| ensures SameAt(fs, r, k) { assert Contents(r, k) == Contents(fs, k); }
    }

    lemma WfTab()
      requires Wf()
      ensures Tab()
    {
      hide Owned, FreeZero, Coherent, OnDisk, Behind, Covers;
      forall u | 0 <= u < NINODE ensures icache[u].ref >= 0 && (Loaded(icache[u]) ==> Encodable(icache[u].ino)) {
        assert SlotOk(l, disk, inodes, icache[u]);
        if Loaded(icache[u]) { assert FileOk(State(), icache[u].inum); }
      }
    }

    lemma WfShape()
      requires Wf()
      ensures Shape(State()) && |icache| == NINODE && |inodes| == l.ninodes && |disk| == sb.size && FilesOk(State())
    {
    }

    /** The fields may change to ino's: the addresses stay, and the file has the blocks for its size. */
    ghost predicate MayUpdate(u: nat, ino: Inode)
      reads this
    {
      && Wf() && u < |icache| && Loaded(icache[u]) && ino.addrs == icache[u].ino.addrs && ino.kind != 0
      && icache[u].inum < |inodes| && Covers(State(), icache[u].inum, ino.size)
    }

    /** The fields of a loaded inode change to ino, and uiupdate writes it out. Not live: there is no such block. */
    method Uiupdate(u: nat, ino: Inode) returns (live: bool)
      requires Tab() && Held(bufs, multiset{}) && u < |icache| && Loaded(icache[u]) && Encodable(ino)
      modifies `bufs, `disk, `icache, `inodes
      ensures Tab() && Held(bufs, multiset{}) && (live <==> IBlock(l, old(icache)[u].inum) < |old(disk)|)
      ensures icache == old(icache)[u := old(icache)[u].(ino := ino)]
      ensures old(Wf()) ==> live
      ensures old(MayUpdate(u, ino)) ==>
                Wf() && SameBlocks(old(State()), State()) && (old(NoLeak()) ==> NoLeak())
      ensures old(MayUpdate(u, ino)) ==>
                inodes == old(inodes)[old(icache)[u].inum := ino] && OnDisk(l, disk, old(icache)[u].inum) == ino
      ensures old(MayUpdate(u, ino)) ==>
                forall i: nat {:trigger OnDisk(l, disk, i)} :: i < l.ninodes && i != old(icache)[u].inum ==>
                  OnDisk(l, disk, i) == OnDisk(l, old(disk), i)
    {
      hide Coherent, Held, OnDisk, Encodable, SameBlocks, MayUpdate, WellFormed, FreeZero, FilesOk, CacheOk, Tight;
      ghost var i, sane := icache[u].inum, MayUpdate(u, ino);
      if Wf() { HasInodeBlock(u); }
      if sane { Updating(u, ino); }
      if IBlock(l, icache[u].inum) >= |disk| {
        icache := icache[u := icache[u].(ino := ino)];
        return false;
      }
      var bp := Ubread(IBlock(l, icache[u].inum), multiset{});
      assert multiset{} + multiset{bp} == multiset{bp} && multiset{bp} - multiset{bp} == multiset{};
      var data := SetInode(bufs[bp].data, icache[u].inum % IPB, ino);
      icache := icache[u := icache[u].(ino := ino)];
      Ubwrite(bp, data, multiset{bp});
      Ubrelse(bp, multiset{bp});
      if sane { inodes := inodes[i := ino]; }
      return true;
    }

    lemma HasInodeBlock(u: nat)
      requires Wf() && u < |icache| && icache[u].ref > 0
      ensures IBlock(l, icache[u].inum) < |disk|
    {
      hide WellFormed, FreeZero, FilesOk, Coherent, Behind, OnDisk;
      CacheFacts(l, disk, icache, inodes);
      IBlockIsMeta(l, icache[u].inum);
    }

    /** What uiupdate's write makes of the file system. */
    lemma Updating(u: nat, ino: Inode)
      requires MayUpdate(u, ino) && Encodable(ino)
      ensures u < |icache| && icache[u].inum < |inodes| && IBlock(l, icache[u].inum) < |disk|
      ensures var i := icache[u].inum;
              var d := disk[IBlock(l, i) := SetInode(disk[IBlock(l, i)], i % IPB, ino)];
              && CacheOk(l, d, icache[u := icache[u].(ino := ino)], inodes[i := ino]) && OnDisk(l, d, i) == ino
              && (forall k: nat {:trigger OnDisk(l, d, k)} ::
                    k < l.ninodes && k != i ==> OnDisk(l, d, k) == OnDisk(l, disk, k))
              && var r := Fs(sb, d, inodes[i := ino]);
              && Shape(r) && WellFormed(r, owner) && FreeZero(r) && FilesOk(r) && SameBlocks(State(), r)
              && (Tight(State(), owner) ==> Tight(r, owner))
    {
      assert Shape(State());
      hide WellFormed, FreeZero, FilesOk, Coherent, Tight, Covers, OnDisk, CacheOk, Encodable, SameBlocks;
      var i := icache[u].inum;
      CacheFacts(l, disk, icache, inodes);
      LoadedSlot(l, disk, icache, inodes, u);
      IBlockIsMeta(l, i);
      WriteBack(l, disk, icache, inodes, u, ino);
      PutInode(State(), owner, i, ino, IBlock(l, i), SetInode(disk[IBlock(l, i)], i % IPB, ino));
    }

    // -------------------------------------------------------------- bmap

    /** Link a fresh block into slot o: what the three allocating branches of bmap share. */
    ghost method Link(fs: Fs, o: Owner, b: nat)
      requires WellFormed(fs, owner) && FreeZero(fs) && FilesOk(fs) && sb == fs.sb
      requires sb.datastart <= b < sb.size && !Used(fs, b)
      requires IsOwner(fs, o) && Ref(fs, o) == 0 && (o.Slot? ==> IndirectBlock(fs, o.i) != 0)
      requires State() == SetRef(Alloc(fs, b), o, b) && fs.inodes[o.i].kind != 0
      modifies `owner
      ensures WellFormed(State(), owner) && FreeZero(State()) && FilesOk(State()) && SameMeta(fs, State(), o.i)
      ensures Tight(fs, old(owner)) ==> NoLeak()
      ensures forall i: nat, bn: nat {:trigger FileBlock(State(), i, bn)} :: i < |fs.inodes| && bn < MAXFILE ==>
                FileBlock(State(), i, bn) == if o == NameOf(i, bn) then Some(ZeroBlock()) else FileBlock(fs, i, bn)
    {
      assert SameMeta(fs, State(), o.i);
      hide Used, Owned, Alloc, FileBlock, Ref, FreeZero, Tight;
      LinkKeepsWellFormed(fs, owner, o, b);
      LinkFreeZero(fs, owner, o, b);
      forall i: nat, bn: nat | i < |fs.inodes| && bn < MAXFILE
        ensures FileBlock(State(), i, bn) == if o == NameOf(i, bn) then Some(ZeroBlock()) else FileBlock(fs, i, bn)
      {
        LinkFileBlock(fs, owner, o, b, i, bn);
      }
      FilesGrow(fs, State(), o.i);
      owner := owner[b := o];
    }

    /** balloc inside bmap. In a sound file system the block it returns was free, holds zeros and is now marked; it is
        0 when all are in use. */
    method Fresh(ghost held: multiset<nat>) returns (r: nat)
      requires Tab() && Held(bufs, held) && |held| <= 1
      modifies `bufs, `disk
      ensures Tab() && Held(bufs, held) && KeptHeld(old(bufs), bufs, held) && |disk| == |old(disk)| && r < WORDMAX
      ensures old(Wf()) && HeldData(old(bufs), held, sb.datastart) ==>
                && SameHeld(old(bufs), bufs, held) && CacheOk(l, disk, icache, inodes) && SameOnDisk(l, old(disk), disk)
                && (r == 0 ==> disk == old(disk) && Full())
                && (r != 0 ==> sb.datastart <= r < sb.size && !Used(old(State()), r))
                && (r != 0 ==> State() == Alloc(old(State()), r))
    {
      ghost var fs, sane := State(), Wf() && HeldData(bufs, held, sb.datastart);
      if sane { MetaUsed(); }
      hide Used, Owned, Coherent, Held, SameHeld, KeptHeld, HeldData, Mark, Alloc, CacheOk, SameOnDisk, FreeZero,
           SlotsOk;
      r := Balloc(held);
      if sane {
        CacheFacts(l, fs.blocks, icache, inodes);
        if r == 0 {
          SameOnDiskSelf(l, disk);
        } else {
          IsData(fs, owner, r);
          AllocZero(fs, r);
          MarkOnDisk(l, fs, r);
          CacheDisk(l, fs.blocks, disk, icache, inodes);
        }
      }
    }

    lemma MetaUsed()
      requires Wf()
      ensures Shape(State()) && 0 < sb.size && Used(State(), 0)
    {
    }

    /** Slot u is loaded with an inode of a sound file system. */
    ghost predicate Seen(u: nat)
      reads this
    {
      Wf() && u < |icache| && Loaded(icache[u]) && icache[u].inum < |inodes|
    }

    ghost predicate HasIndirect(u: nat)
      reads this
    {
      Seen(u) && IndirectBlock(State(), icache[u].inum) != 0
    }

    /** The new block at address k of the inode in slot u is part of the file system. */
    ghost method LinkAddr(fs: Fs, u: nat, k: nat, b: nat, ic: seq<Uinode>)
      requires WellFormed(fs, owner) && FreeZero(fs) && FilesOk(fs) && fs.sb == sb && fs.inodes == inodes
      requires CacheOk(l, disk, ic, inodes) && Coherent(bufs, disk) && u < |ic| && Loaded(ic[u]) && k <= NDIRECT
      requires ic[u].inum < |inodes| && inodes[ic[u].inum] == ic[u].ino && ic[u].ino.kind != 0
      requires ic[u].ino.addrs[k] == 0 && b < WORDMAX
      requires icache == ic[u := ic[u].(ino := ic[u].ino.(addrs := ic[u].ino.addrs[k := b]))]
      requires sb.datastart <= b < sb.size && !Used(fs, b) && State() == Alloc(fs, b)
      modifies `inodes, `owner
      ensures Wf() && SameMeta(fs, State(), ic[u].inum) && (Tight(fs, old(owner)) ==> NoLeak())
      ensures inodes == fs.inodes[ic[u].inum := icache[u].ino]
      ensures forall i: nat, bn: nat {:trigger FileBlock(State(), i, bn)} :: i < |fs.inodes| && bn < MAXFILE ==>
                FileBlock(State(), i, bn) ==
                if i == ic[u].inum && bn == k && k < NDIRECT then Some(ZeroBlock()) else FileBlock(fs, i, bn)
    {
      hide Used, Owned, Alloc, FreeZero, Coherent, CacheOk, Tight, FilesOk, FileBlock;
      var i := ic[u].inum;
      FileIsOk(fs, i);
      EmptyBehind(fs, i, k);
      CacheFacts(l, disk, ic, inodes);
      AddAddr(l, disk, ic, inodes, u, k, b);
      inodes := inodes[i := inodes[i].(addrs := inodes[i].addrs[k := b])];
      Link(fs, if k < NDIRECT then Direct(i, k) else Indirect(i), b);
    }

    /** bmap's direct case. */
    method MapDirect(u: nat, k: nat) returns (r: word)
      requires Tab() && Held(bufs, multiset{}) && u < |icache| && Loaded(icache[u]) && k < NDIRECT
      modifies `disk, `bufs, `icache, `inodes, `owner
      ensures Tab() && Held(bufs, multiset{}) && AddrsOnly(old(icache), icache, u) && |disk| == |old(disk)|
      ensures SameIndirect(old(icache), icache, u)
      ensures old(Seen(u)) ==> Wf() && SameOnDisk(l, old(disk), disk) && (old(NoLeak()) ==> NoLeak())
      ensures old(Seen(u)) && r == 0 ==> Full() && State() == old(State())
      ensures old(Seen(u)) && r != 0 ==>
                var i := icache[u].inum;
                && OneBlock(old(State()), State(), i, k, Filled(old(State()), i, k)) && r == Addr(State(), i, k)
      ensures old(Seen(u)) && FileBlock(old(State()), icache[u].inum, k).Some? ==>
                r != 0 && State() == old(State()) && owner == old(owner)
    {
      hide Used, Owned, Alloc, FreeZero, Coherent, Held, CacheOk, SameOnDisk, Tight, FilesOk;
      ghost var fs, i, sane := State(), icache[u].inum, Seen(u);
      if sane {
        CacheFacts(l, disk, icache, inodes);
        LoadedSlot(l, disk, icache, inodes, u);
      }
      var addr := icache[u].ino.addrs[k];
      assert icache[u := icache[u]] == icache;
      if addr != 0 {
        if sane {
          AddrOwned(fs, owner, i, k);
          SameOnDiskSelf(l, disk);
        }
        return addr;
      }
      NoneHeld(bufs, sb.datastart);
      var b := Fresh(multiset{});
      if b == 0 { return 0; }
      icache := icache[u := icache[u].(ino := icache[u].ino.(addrs := icache[u].ino.addrs[k := b]))];
      if sane { LinkAddr(fs, u, k, b, old(icache)); }
      return b;
    }

    /** bmap's indirect pointer. */
    method MapIndirect(u: nat) returns (ok: bool)
      requires Tab() && Held(bufs, multiset{}) && u < |icache| && Loaded(icache[u])
      modifies `disk, `bufs, `icache, `inodes, `owner
      ensures Tab() && Held(bufs, multiset{}) && AddrsOnly(old(icache), icache, u) && |disk| == |old(disk)|
      ensures old(Seen(u)) ==> Wf() && SameOnDisk(l, old(disk), disk) && (old(NoLeak()) ==> NoLeak())
      ensures old(Seen(u)) ==> SameMeta(old(State()), State(), icache[u].inum) && SameBlocks(old(State()), State())
      ensures old(Seen(u)) && ok ==> IndirectBlock(State(), icache[u].inum) != 0
      ensures old(Seen(u)) && !ok ==> Full() && State() == old(State())
      ensures old(Seen(u)) && IndirectBlock(old(State()), icache[u].inum) != 0 ==>
                ok && State() == old(State()) && owner == old(owner)
    {
      hide Used, Owned, Alloc, FileBlock, FreeZero, Coherent, Held, CacheOk, SameOnDisk, Tight, FilesOk;
      ghost var fs, i, sane := State(), icache[u].inum, Seen(u);
      if sane {
        CacheFacts(l, disk, icache, inodes);
        LoadedSlot(l, disk, icache, inodes, u);
        SameOnDiskSelf(l, disk);
      }
      assert icache[u := icache[u]] == icache;
      if icache[u].ino.addrs[NDIRECT] != 0 { return true; }
      NoneHeld(bufs, sb.datastart);
      var b := Fresh(multiset{});
      if b == 0 { return false; }
      icache := icache[u := icache[u].(ino := icache[u].ino.(addrs := icache[u].ino.addrs[NDIRECT := b]))];
      if sane { LinkAddr(fs, u, NDIRECT, b, old(icache)); }
      return true;
    }

    /** Buffer bp holds the indirect block of inode i, in which slot j is empty. */
    ghost predicate SlotFree(i: nat, j: nat, bp: nat)
      reads this
    {
      && Wf() && i < |inodes| && j < NINDIRECT && inodes[i].kind != 0 && IndirectBlock(State(), i) != 0
      && Ref(State(), Slot(i, j)) == 0
      && bp < |bufs| && bufs[bp].valid && bufs[bp].blockno == IndirectBlock(State(), i) >= sb.datastart
    }

    /** Allocate a block for indirect slot j of inode i, with the indirect block in buffer bp; bp is released. */
    method AllocSlot(ghost i: nat, j: nat, bp: nat) returns (r: word)
      requires Tab() && Held(bufs, multiset{bp}) && j < NINDIRECT && bp < |bufs| && bufs[bp].valid
      modifies `disk, `bufs, `owner
      ensures Tab() && Held(bufs, multiset{}) && |disk| == |old(disk)|
      ensures old(SlotFree(i, j, bp)) ==>
                && Wf() && SameOnDisk(l, old(disk), disk) && (old(NoLeak()) ==> NoLeak())
                && (r == 0 ==> Full() && State() == old(State()) && owner == old(owner))
                && (r != 0 ==> OneBlock(old(State()), State(), i, NDIRECT + j, Some(ZeroBlock())))
                && (r != 0 ==> r == Addr(State(), i, NDIRECT + j))
    {
      ghost var fs, sane := State(), SlotFree(i, j, bp);
      assert sane ==> HeldData(bufs, multiset{bp}, sb.datastart);
      assert multiset{bp} - multiset{bp} == multiset{};
      hide Used, Owned, Alloc, GetWord, PutWord, FreeZero, Held, HeldData, CacheOk, SameOnDisk, Tight, FilesOk, SlotsOk;
      if sane { SameOnDiskSelf(l, disk); }
      r := Fresh(multiset{bp});
      if r == 0 { Ubrelse(bp, multiset{bp}); return; }
      ghost var d1 := disk;
      assert sane ==> bufs[bp].data == d1[bufs[bp].blockno];
      Ubwrite(bp, PutWord(bufs[bp].data, j, r), multiset{bp});
      Ubrelse(bp, multiset{bp});
      if sane { LinkSlot(fs, d1, i, j, r); }
    }

    /** The new block in indirect slot j of inode i is part of the file system. */
    ghost method LinkSlot(fs: Fs, d1: seq<Block>, i: nat, j: nat, r: nat)
      requires WellFormed(fs, owner) && FreeZero(fs) && FilesOk(fs) && fs.sb == sb && fs.inodes == inodes
      requires i < |inodes| && j < NINDIRECT && inodes[i].kind != 0 && IndirectBlock(fs, i) != 0
      requires Ref(fs, Slot(i, j)) == 0 && sb.datastart <= r < sb.size < WORDMAX && !Used(fs, r)
      requires Fs(sb, d1, inodes) == Alloc(fs, r) && CacheOk(l, d1, icache, inodes) && SameOnDisk(l, fs.blocks, d1)
      requires sb.datastart <= IndirectBlock(fs, i) < |d1|
      requires disk == d1[IndirectBlock(fs, i) := PutWord(d1[IndirectBlock(fs, i)], j, r)] && Coherent(bufs, disk)
      modifies `owner
      ensures Wf() && SameOnDisk(l, fs.blocks, disk) && (Tight(fs, old(owner)) ==> NoLeak())
      ensures OneBlock(fs, State(), i, NDIRECT + j, Some(ZeroBlock())) && r == Addr(State(), i, NDIRECT + j)
    {
      hide Used, Owned, Alloc, GetWord, PutWord, FreeZero, CacheOk, SameOnDisk, Tight, FilesOk, Coherent;
      CacheFacts(l, d1, icache, inodes);
      var ind := IndirectBlock(fs, i);
      OtherBlock(l, d1, ind, PutWord(d1[ind], j, r));
      CacheDisk(l, d1, disk, icache, inodes);
      SameOnDiskTrans(l, fs.blocks, d1, disk);
      Link(fs, Slot(i, j), r);
    }

    /** bmap's indirect case, once there is an indirect block. Not live: there is no such block on the disk. */
    method MapSlot(u: nat, j: nat) returns (live: bool, r: word)
      requires Tab() && Held(bufs, multiset{}) && u < |icache| && Loaded(icache[u]) && j < NINDIRECT
      modifies `disk, `bufs, `owner
      ensures Tab() && Held(bufs, multiset{}) && |disk| == |old(disk)|
      ensures live <==> icache[u].ino.addrs[NDIRECT] < |disk|
      ensures old(HasIndirect(u)) ==> live && Wf() && SameOnDisk(l, old(disk), disk) && (old(NoLeak()) ==> NoLeak())
      ensures old(HasIndirect(u)) && r == 0 ==> Full() && State() == old(State())
      ensures old(HasIndirect(u)) && r != 0 ==>
                var i, bn := icache[u].inum, NDIRECT + j;
                && OneBlock(old(State()), State(), i, bn, Filled(old(State()), i, bn)) && r == Addr(State(), i, bn)
      ensures old(HasIndirect(u)) && FileBlock(old(State()), icache[u].inum, NDIRECT + j).Some? ==>
                r != 0 && State() == old(State()) && owner == old(owner)
    {
      hide Used, Owned, GetWord, FreeZero, Coherent, Held, CacheOk, SameOnDisk, Tight, FilesOk, Behind, OnDisk;
      ghost var i, sane := icache[u].inum, HasIndirect(u);
      if sane {
        CacheFacts(l, disk, icache, inodes);
        LoadedSlot(l, disk, icache, inodes, u);
        IndirectBlockOwned(State(), owner, i);
        SameOnDiskSelf(l, disk);
      }
      var ind := icache[u].ino.addrs[NDIRECT];
      if ind >= |disk| { return false, 0; }
      var bp := Ubread(ind, multiset{});
      assert multiset{} + multiset{bp} == multiset{bp} && multiset{bp} - multiset{bp} == multiset{};
      var addr := GetWord(bufs[bp].data, j);
      if addr != 0 {
        if sane { AddrOwned(State(), owner, i, NDIRECT + j); }
        Ubrelse(bp, multiset{bp});
        return true, addr;
      }
      r := AllocSlot(i, j, bp);
      return true, r;
    }

    /** bmap: the address of block bn of the file in slot u, allocated if the file has none. 0: bn is out of range, or
        every block is in use; then no file changed. Not live: the kernel panics, for a block that the disk does not
        have; in a sound file system that does not happen. */
    method Bmap(u: nat, bn: nat) returns (live: bool, r: word)
      requires Tab() && Held(bufs, multiset{}) && u < |icache| && Loaded(icache[u])
      modifies `disk, `bufs, `icache, `inodes, `owner
      ensures Tab() && Held(bufs, multiset{}) && AddrsOnly(old(icache), icache, u) && |disk| == |old(disk)|
      ensures r != 0 ==> bn < MAXFILE
      ensures bn < NDIRECT ==> SameIndirect(old(icache), icache, u)
      ensures old(Seen(u)) ==> live && Wf() && SameOnDisk(l, old(disk), disk) && (old(NoLeak()) ==> NoLeak())
      ensures old(Seen(u)) ==> SameMeta(old(State()), State(), icache[u].inum)
      ensures old(Seen(u)) && r == 0 ==> (bn >= MAXFILE || Full()) && SameBlocks(old(State()), State())
      ensures old(Seen(u)) && r != 0 ==>
                var i := icache[u].inum;
                && OneBlock(old(State()), State(), i, bn, Filled(old(State()), i, bn)) && r == Addr(State(), i, bn)
      ensures old(Seen(u)) && bn < MAXFILE && FileBlock(old(State()), icache[u].inum, bn).Some? ==>
                r != 0 && State() == old(State()) && owner == old(owner)
    {
      hide Used, Owned, GetWord, FreeZero, Coherent, Held, CacheOk, SameOnDisk, Tight, FilesOk;
      ghost var sane := Seen(u);
      if bn < NDIRECT {
        r := MapDirect(u, bn);
        return true, r;
      }
      assert icache[u := icache[u]] == icache;
      if sane { SameOnDiskSelf(l, disk); }
      if bn >= MAXFILE { return true, 0; }
      var ok := MapIndirect(u);
      ghost var d1 := disk;
      if !ok { return true, 0; }
      live, r := MapSlot(u, bn - NDIRECT);
      if sane { SameOnDiskTrans(l, old(disk), d1, disk); }
      if !live { r := 0; }
    }

    // -------------------------------------------------------------- reading and writing

    /** The contents of the file in slot u. */
    ghost function File(u: nat): (s: seq<byte>)
      requires Wf() && u < |icache| && Loaded(icache[u])
      reads this
      ensures |s| == icache[u].ino.size <= MAXBYTES
    {
      LoadedSlot(l, disk, icache, inodes, u);
      FileIsOk(State(), icache[u].inum);
      Contents(State(), icache[u].inum)
    }

    lemma SlotFacts(u: nat)
      requires Wf() && u < |icache| && Loaded(icache[u])
      ensures Shape(State()) && |icache| == NINODE && |inodes| == l.ninodes && icache[u].inum < |inodes|
      ensures inodes[icache[u].inum] == icache[u].ino && FileOk(State(), icache[u].inum) && icache[u].ino.kind != 0
      ensures File(u) == Bytes(State(), icache[u].inum, icache[u].ino.size) == Contents(State(), icache[u].inum)
    {
      hide Owned, FreeZero, Coherent;
      LoadedSlot(l, disk, icache, inodes, u);
      FileIsOk(State(), icache[u].inum);
    }

    /** bmap of the block at an offset that ureadi reads. In a sound file system the file has it and nothing changes. */
    method ReadBlock(u: nat, off: nat, m: nat) returns (live: bool, a: word)
      requires Tab() && Held(bufs, multiset{}) && u < |icache| && Loaded(icache[u]) && 0 < m && off % BSIZE + m <= BSIZE
      modifies `disk, `bufs, `icache, `inodes, `owner
      ensures Tab() && Held(bufs, multiset{}) && AddrsOnly(old(icache), icache, u)
      ensures live && a != 0 ==> a < |disk| && off + m <= MAXBYTES
      ensures old(Wf()) && off + m <= old(icache)[u].ino.size ==>
                && Wf() && State() == old(State()) && owner == old(owner) && icache == old(icache)
                && live && a != 0 && disk[a][off % BSIZE..off % BSIZE + m] == old(File(u))[off..off + m]
                && File(u) == old(File(u))
    {
      hide Wf, Held, File, FileBlock, OneBlock, SameMeta, SameOnDisk, SameBlocks, Full, NoLeak, Shape, FileOk, Tab;
      ghost var sane, fs, i := Wf() && off + m <= icache[u].ino.size, State(), icache[u].inum;
      if sane { HasBlock(u, off, m); }
      live, a := Bmap(u, off / BSIZE);
      if sane {
        BlockAt(u, off, m, a);
        assert icache == old(icache);
      }
      if a >= |disk| { live := false; }
    }

    lemma HasBlock(u: nat, off: nat, m: nat)
      requires Wf() && u < |icache| && Loaded(icache[u]) && 0 < m && off + m <= icache[u].ino.size
      ensures Seen(u) && inodes[icache[u].inum] == icache[u].ino && Shape(State()) && off / BSIZE < MAXFILE
      ensures FileBlock(State(), icache[u].inum, off / BSIZE).Some?
      ensures File(u) == Contents(State(), icache[u].inum)
    {
      hide FileBlock, Owned, FreeZero, Coherent;
      SlotFacts(u);
      CoversSize(State(), icache[u].inum);
    }

    lemma BlockAt(u: nat, off: nat, m: nat, a: nat)
      requires Seen(u) && 0 < m && off + m <= icache[u].ino.size && off % BSIZE + m <= BSIZE && off / BSIZE < MAXFILE
      requires a == Addr(State(), icache[u].inum, off / BSIZE) != 0
      ensures 0 < a < |disk| && disk[a][off % BSIZE..off % BSIZE + m] == File(u)[off..off + m]
      ensures inodes[icache[u].inum] == icache[u].ino && File(u) == Contents(State(), icache[u].inum)
    {
      hide Owned, FreeZero, Coherent, CacheOk, GetWord;
      var i := icache[u].inum;
      SlotFacts(u);
      CoversSize(State(), i);
      AddrOwned(State(), owner, i, off / BSIZE);
      BlockSlice(State(), i, icache[u].ino.size, off, m, disk[a]);
    }

    /** One turn of the loop of ureadi. Not ok: bmap gave 0. */
    method ReadPiece(u: nat, off: nat, m: nat) returns (live: bool, ok: bool, d: seq<byte>)
      requires Tab() && Held(bufs, multiset{}) && u < |icache| && Loaded(icache[u]) && 0 < m && off % BSIZE + m <= BSIZE
      modifies `disk, `bufs, `icache, `inodes, `owner
      ensures Tab() && Held(bufs, multiset{}) && AddrsOnly(old(icache), icache, u)
      ensures live && ok ==> |d| == m && off + m <= MAXBYTES
      ensures old(Wf()) && off + m <= old(icache)[u].ino.size ==>
                && Wf() && State() == old(State()) && owner == old(owner) && icache == old(icache)
                && live && ok && d == old(File(u))[off..off + m] && File(u) == old(File(u))
    {
      ghost var sane := Wf() && off + m <= icache[u].ino.size;
      hide WellFormed, FreeZero, Coherent, Held, CacheOk, FilesOk, File, Shape, SlotsOk, AddrsOnly, FileOk;
      var a;
      live, a := ReadBlock(u, off, m);
      if !live || a == 0 { return live, false, []; }
      if sane { SlotFacts(u); }
      d := CopyOut(a, off % BSIZE, m);
      if sane { SlotFacts(u); }
      return true, true, d;
    }

    /** ubread, memmove and ubrelse. */
    method CopyOut(a: nat, k: nat, m: nat) returns (d: seq<byte>)
      requires Coherent(bufs, disk) && Held(bufs, multiset{}) && a < |disk| && k + m <= BSIZE
      modifies `bufs
      ensures Coherent(bufs, disk) && Held(bufs, multiset{}) && d == disk[a][k..k + m]
    {
      hide Coherent, Held;
      var bp := Ubread(a, multiset{});
      assert multiset{} + multiset{bp} == multiset{bp} && multiset{bp} - multiset{bp} == multiset{};
      d := bufs[bp].data[k..k + m];
      Ubrelse(bp, multiset{bp});
    }

    /** ureadi: the next bytes of the file, up to n0 and its end; nothing is allocated. In an unsound file system: as
        many bytes, or -1, and addresses may be filled in. */
    method Ureadi(u: nat, off0: word, n0: nat) returns (live: bool, r: int, dst: seq<byte>)
      requires Tab() && Held(bufs, multiset{}) && u < |icache| && Loaded(icache[u]) && off0 + n0 < WORDMAX
      modifies `disk, `bufs, `icache, `inodes, `owner
      ensures Tab() && Held(bufs, multiset{}) && AddrsOnly(old(icache), icache, u)
      ensures live ==> r == -1 || r == |dst|
      ensures live && r != -1 ==> r == (if off0 + n0 <= icache[u].ino.size then n0
                                        else if off0 >= icache[u].ino.size then 0 else icache[u].ino.size - off0)
      ensures live && r > 0 ==> off0 + r <= MAXBYTES
      ensures old(Wf()) ==>
                && live && Wf() && State() == old(State()) && owner == old(owner) && icache == old(icache)
                && r == |dst| && dst == Slice(old(File(u)), off0, n0)
    {
      hide Wf, Held, File, Tab;
      ghost var sane, s := Wf(), if Wf() then File(u) else [];
      if sane { FileSize(u); }
      dst := [];
      assert icache[u := icache[u]] == icache;
      if off0 >= icache[u].ino.size { return true, 0, []; }
      var n := if off0 + n0 > icache[u].ino.size then icache[u].ino.size - off0 else n0;
      var tot := 0;
      while tot < n
        invariant 0 <= tot <= n && Tab() && Held(bufs, multiset{}) && AddrsOnly(old(icache), icache, u) && |dst| == tot
        invariant tot > 0 ==> off0 + tot <= MAXBYTES
        invariant sane ==> Wf() && icache == old(icache) && State() == old(State()) && owner == old(owner)
        invariant sane ==> File(u) == s
        invariant sane ==> dst == s[off0..off0 + tot]
      {
        var off := off0 + tot;
        var m := if n - tot < BSIZE - off % BSIZE then n - tot else BSIZE - off % BSIZE;
        ghost var ic := icache;
        var ok, d;
        live, ok, d := ReadPiece(u, off, m);
        AddrsOnlyTrans(old(icache), ic, icache, u);
        if !live || !ok { return live, -1, []; }
        dst := dst + d;
        if sane { SliceMore(s, off0, off, off + m); }
        tot := tot + m;
      }
      return true, n, dst;
    }

    lemma FileSize(u: nat)
      requires Wf() && u < |icache| && Loaded(icache[u])
      ensures |File(u)| == icache[u].ino.size <= MAXBYTES
    {
    }

    /** Block a is block bn of file i. */
    ghost predicate IsBlock(i: nat, bn: nat, a: nat)
      reads this
    {
      Wf() && i < |inodes| && bn < MAXFILE && inodes[i].kind != 0 && a == Addr(State(), i, bn) != 0
    }

    /** memmove into the block that bmap found: ubread, memmove, ubwrite, ubrelse. */
    method PutPiece(ghost i: nat, ghost bn: nat, a: nat, k: nat, d: seq<byte>)
      returns (ghost was: Block, ghost now: Block)
      requires Tab() && Held(bufs, multiset{}) && a < |disk| && k + |d| <= BSIZE
      modifies `disk, `bufs
      ensures Tab() && Held(bufs, multiset{}) && |disk| == |old(disk)|
      ensures old(IsBlock(i, bn, a)) ==>
                && Wf() && SameOnDisk(l, old(disk), disk) && (old(NoLeak()) ==> NoLeak())
                && FileBlock(old(State()), i, bn) == Some(was) && now == Splice(was, k, d)
                && OneBlock(old(State()), State(), i, bn, Some(now))
    {
      hide Used, Owned, GetWord, Ref, FreeZero, Held, Splice, Coherent, CacheOk, SameOnDisk, Tight, FilesOk, SlotsOk;
      ghost var m, sane := State(), IsBlock(i, bn, a);
      if sane {
        CacheFacts(l, disk, icache, inodes);
        AddrOwned(m, owner, i, bn);
      }
      var bp := Ubread(a, multiset{});
      assert multiset{} + multiset{bp} == multiset{bp} && multiset{bp} - multiset{bp} == multiset{};
      was := disk[a];
      var data := BlockSplice(bufs[bp].data, k, d);
      now := data;
      if sane {
        PutFileBlock(m, owner, i, bn, now);
        OtherBlock(l, disk, a, data);
      }
      Ubwrite(bp, data, multiset{bp});
      Ubrelse(bp, multiset{bp});
      if sane { CacheDisk(l, m.blocks, disk, icache, inodes); }
    }

    /** Slot u has a file of which n bytes are there, and off is not behind them. */
    ghost predicate Reaches(u: nat, off: nat, n: nat)
      reads this
    {
      && Wf() && u < |icache| && Loaded(icache[u]) && icache[u].inum < |inodes| && Covers(State(), icache[u].inum, n)
      && off <= n
    }

    /** One turn of the loop of uwritei: d goes into the block that holds off, in a file of which n bytes are there. */
    method WritePiece(u: nat, off: nat, d: seq<byte>, ghost n: nat) returns (live: bool, ok: bool)
      requires Tab() && Held(bufs, multiset{}) && u < |icache| && Loaded(icache[u])
      requires 0 < |d| && off % BSIZE + |d| <= BSIZE
      modifies `disk, `bufs, `icache, `inodes, `owner
      ensures Tab() && Held(bufs, multiset{}) && AddrsOnly(old(icache), icache, u) && |disk| == |old(disk)|
      ensures live && ok ==> off + |d| <= MAXBYTES
      ensures off + |d| <= NDIRECT * BSIZE ==> SameIndirect(old(icache), icache, u)
      ensures old(Reaches(u, off, n)) ==>
                && live && Wf() && (old(NoLeak()) ==> NoLeak()) && (!ok ==> off >= MAXBYTES || Full())
                && Piece(l, old(State()), State(), icache[u].inum, n, off, d, ok)
                && (off < n ==> ok && inodes == old(inodes))
    {
      hide Used, Owned, GetWord, Ref, Splice, FreeZero, Held, Coherent, CacheOk, SameOnDisk, Tight, FilesOk, SlotsOk;
      ghost var i, fs, sane := icache[u].inum, State(), Reaches(u, off, n);
      if sane {
        CacheFacts(l, disk, icache, inodes);
        LoadedSlot(l, disk, icache, inodes, u);
      }
      var bn := off / BSIZE;
      assert sane && off < n ==> FileBlock(fs, i, bn).Some?;
      var a;
      live, a := Bmap(u, bn);
      ghost var q := State();
      if !live { return false, false; }
      if a == 0 {
        if sane { SameBlocksOther(fs, q, i); }
        return true, false;
      }
      if sane { MappedIs(i, bn, a); }
      if a >= |disk| { return false, false; }
      var was, now := PutPiece(i, bn, a, off % BSIZE, d);
      if sane {
        PieceWritten(fs, q, State(), i, n, off, d, was, now);
        SameOnDiskTrans(l, fs.blocks, q.blocks, disk);
      }
      return true, true;
    }

    lemma MappedIs(i: nat, bn: nat, a: nat)
      requires Wf() && i < |inodes| && bn < MAXFILE && inodes[i].kind != 0 && a == Addr(State(), i, bn) != 0
      ensures IsBlock(i, bn, a) && a < |disk|
    {
      hide CacheOk, FreeZero, FilesOk;
      AddrOwned(State(), owner, i, bn);
    }

    /** A write that begins on file system fs, inside the file or at its end. */
    static ghost predicate Begun(u: nat, fs: Fs, ic: seq<Uinode>, off: nat) {
      && Shape(fs) && u < |ic| && Loaded(ic[u]) && ic[u].inum < |fs.inodes| && FileOk(fs, ic[u].inum)
      && off <= ic[u].ino.size && ic[u].ino == fs.inodes[ic[u].inum]
    }

    /** uwritei has written the first tot bytes of src; it began on file system fs and inode slots ic. */
    ghost predicate Writing(u: nat, fs: Fs, ic: seq<Uinode>, src: seq<byte>, off: nat, tot: nat)
      reads this
    {
      && Wf() && Held(bufs, multiset{}) && SlotKept(ic, icache, u) && Begun(u, fs, ic, off) && tot <= |src|
      && Written(l, fs, State(), ic[u].inum, src, off, tot)
    }

    /** What uwritei keeps whatever the blocks hold. */
    ghost predicate Going(u: nat, ic: seq<Uinode>, off: nat, tot: nat)
      reads this
    {
      && Tab() && Held(bufs, multiset{}) && u < |ic| && Loaded(ic[u]) && AddrsOnly(ic, icache, u)
      && (tot > 0 ==> off + tot <= MAXBYTES)
    }

    /** One turn of the loop of uwritei, with its bookkeeping. */
    method WriteNext(u: nat, src: seq<byte>, off0: nat, tot: nat, ghost fs: Fs, ghost ic: seq<Uinode>, ghost sane: bool)
      returns (m: nat, live: bool, ok: bool)
      requires Going(u, ic, off0, tot) && tot < |src|
      requires sane ==> Writing(u, fs, ic, src, off0, tot)
      modifies `disk, `bufs, `icache, `inodes, `owner
      ensures 0 < m <= |src| - tot && Going(u, ic, off0, if live && ok then tot + m else tot)
      ensures sane ==> live && Writing(u, fs, ic, src, off0, if ok then tot + m else tot)
      ensures sane ==> (old(NoLeak()) ==> NoLeak())
      ensures sane && !ok ==> (off0 + tot >= MAXBYTES || Full()) && off0 + tot >= ic[u].ino.size
      ensures sane && ok && off0 + tot + m <= ic[u].ino.size ==> inodes == old(inodes)
      ensures off0 + tot + m <= NDIRECT * BSIZE ==> SameIndirect(old(icache), icache, u)
    {
      hide Wf, NoLeak, Held, Written, Writing, Full, Tab, Begun, Piece, Reaches;
      ghost var q, n, ic1 := State(), Max(ic[u].ino.size, off0 + tot), icache;
      if sane { Reached(u, fs, ic, src, off0, tot); }
      var off := off0 + tot;
      m := if |src| - tot < BSIZE - off % BSIZE then |src| - tot else BSIZE - off % BSIZE;
      live, ok := WritePiece(u, off, src[tot..tot + m], n);
      AddrsOnlyTrans(ic, ic1, icache, u);
      if sane { GoesOn(u, fs, ic, src, off0, tot, m, ok, q); }
    }

    lemma Reached(u: nat, fs: Fs, ic: seq<Uinode>, src: seq<byte>, off0: nat, tot: nat)
      requires Writing(u, fs, ic, src, off0, tot)
      ensures Reaches(u, off0 + tot, Max(ic[u].ino.size, off0 + tot)) && Begun(u, fs, ic, off0)
      ensures Written(l, fs, State(), ic[u].inum, src, off0, tot)
    {
      hide FileBlock, Covers, Splice, SameOnDisk, FileOk;
      SlotFacts(u);
    }

    lemma GoesOn(u: nat, fs: Fs, ic: seq<Uinode>, src: seq<byte>, off0: nat, tot: nat, m: nat, ok: bool, q: Fs)
      requires Wf() && Held(bufs, multiset{}) && SlotKept(ic, icache, u) && Begun(u, fs, ic, off0) && tot + m <= |src|
      requires Written(l, fs, q, ic[u].inum, src, off0, tot)
      requires Piece(l, q, State(), ic[u].inum, Max(ic[u].ino.size, off0 + tot), off0 + tot, src[tot..tot + m], ok)
      ensures Writing(u, fs, ic, src, off0, if ok then tot + m else tot)
    {
      hide Wf, Held, Written, Piece, FileOk, Shape;
      Wrote(l, fs, q, State(), ic[u].inum, src, off0, tot, m, ok);
    }

    lemma Started(u: nat, src: seq<byte>, off: nat)
      requires Wf() && Held(bufs, multiset{}) && u < |icache| && Loaded(icache[u]) && off <= icache[u].ino.size
      ensures Writing(u, State(), icache, src, off, 0)
    {
      hide FileBlock, Splice;
      SlotFacts(u);
      OtherSelf(State(), icache[u].inum);
      SameOnDiskSelf(l, disk);
      assert src[..0] == [];
      SpliceNothing(Contents(State(), icache[u].inum), off);
      assert icache[u := icache[u]] == icache;
    }

    /** Where uwritei gives up. */
    lemma Stopped(u: nat, fs: Fs, ic: seq<Uinode>, src: seq<byte>, off: nat, tot: nat)
      requires Writing(u, fs, ic, src, off, tot)
      ensures Begun(u, fs, ic, off) && tot <= |src| && Wf() && Loaded(icache[u])
      ensures SlotKept(ic, icache, u) && OtherFiles(fs, State(), ic[u].inum) && SameOnDisk(l, fs.blocks, disk)
      ensures |Splice(Contents(fs, ic[u].inum), off, src[..tot])| >= ic[u].ino.size
      ensures File(u) == Splice(Contents(fs, ic[u].inum), off, src[..tot])[..ic[u].ino.size]
    {
      hide FileBlock;
      SlotFacts(u);
      BytesPrefix(State(), ic[u].inum, ic[u].ino.size, Max(ic[u].ino.size, off + tot));
    }

    /** The end of uwritei: record a larger size and write the inode out. */
    method Grow(u: nat, src: seq<byte>, off0: nat, ghost fs: Fs, ghost ic: seq<Uinode>, ghost sane: bool)
      returns (live: bool)
      requires Going(u, ic, off0, |src|) && off0 + |src| < WORDMAX
      requires sane ==> Writing(u, fs, ic, src, off0, |src|)
      requires sane && off0 + |src| <= ic[u].ino.size ==> inodes == fs.inodes
      modifies `disk, `bufs, `icache, `inodes
      ensures Tab() && Held(bufs, multiset{}) && SlotKept(ic, icache, u)
      ensures icache[u].ino.addrs == old(icache)[u].ino.addrs
      ensures icache[u].ino == ic[u].ino.(size := icache[u].ino.size, addrs := icache[u].ino.addrs)
      ensures icache[u].ino.size == if src != [] && off0 + |src| > ic[u].ino.size then off0 + |src| else ic[u].ino.size
      ensures sane ==> live && Grown(u, src, off0, fs, ic) && (old(NoLeak()) ==> NoLeak())
    {
      hide FileBlock, Splice, Held, Coherent, FreeZero, Owned, Tight, Encodable, Grown;
      assert src[..|src|] == src;
      var end := off0 + |src|;
      ghost var q, i := State(), ic[u].inum;
      if sane { SlotFacts(u); }
      if src != [] && end > icache[u].ino.size {
        if sane { Growing(u, end); }
        assert Encodable(icache[u].ino.(size := end)) by { GrowEncodable(icache, u, end); }
        live := Uiupdate(u, icache[u].ino.(size := end));
        if sane { GrownAfter(u, src, off0, fs, ic, q); }
      } else {
        live := true;
        if sane { NotGrown(u, src, off0, fs, ic); }
      }
    }

    lemma GrowEncodable(ic: seq<Uinode>, u: nat, end: nat)
      requires SlotsOk(ic) && u < |ic| && Loaded(ic[u]) && end < WORDMAX
      ensures Encodable(ic[u].ino.(size := end))
    {
    }

    lemma AddrsLength(u: nat)
      requires Tab() && u < |icache| && Loaded(icache[u])
      ensures |icache[u].ino.addrs| == NDIRECT + 1
    {
      assert Encodable(icache[u].ino);
    }

    lemma Growing(u: nat, end: nat)
      requires Wf() && u < |icache| && Loaded(icache[u]) && icache[u].inum < |inodes|
      requires Covers(State(), icache[u].inum, end)
      ensures MayUpdate(u, icache[u].ino.(size := end))
    {
      SlotFacts(u);
    }

    /** All of src is in the file, and no other file changed; the inode on disk is up to date if the file grew. */
    ghost predicate Grown(u: nat, src: seq<byte>, off0: nat, fs: Fs, ic: seq<Uinode>)
      reads this
    {
      && Begun(u, fs, ic, off0) && Wf() && SlotKept(ic, icache, u) && OtherFiles(fs, State(), ic[u].inum)
      && File(u) == Splice(Contents(fs, ic[u].inum), off0, src)
      && (OnDisk(l, fs.blocks, ic[u].inum) == ic[u].ino || off0 + |src| > ic[u].ino.size ==> Clean(u))
    }

    lemma NotGrown(u: nat, src: seq<byte>, off0: nat, fs: Fs, ic: seq<Uinode>)
      requires Writing(u, fs, ic, src, off0, |src|) && off0 + |src| <= ic[u].ino.size
      requires inodes == fs.inodes
      ensures Grown(u, src, off0, fs, ic)
    {
      hide FileBlock, Splice, OnDisk;
      assert src[..|src|] == src;
      SlotFacts(u);
      LoadedSlot(l, disk, icache, inodes, u);
      assert OnDisk(l, disk, ic[u].inum) == OnDisk(l, fs.blocks, ic[u].inum);
    }

    lemma GrownAfter(u: nat, src: seq<byte>, off0: nat, fs: Fs, ic: seq<Uinode>, q: Fs)
      requires Begun(u, fs, ic, off0) && off0 + |src| > ic[u].ino.size
      requires Shape(q) && OtherFiles(fs, q, ic[u].inum) && SameMeta(fs, q, ic[u].inum)
      requires Covers(q, ic[u].inum, off0 + |src|)
      requires Bytes(q, ic[u].inum, off0 + |src|) == Splice(Contents(fs, ic[u].inum), off0, src)
      requires Wf() && SlotKept(ic, icache, u) && SameBlocks(q, State())
      requires inodes == q.inodes[ic[u].inum := icache[u].ino] && icache[u].ino.size == off0 + |src|
      requires OnDisk(l, disk, ic[u].inum) == icache[u].ino
      ensures Grown(u, src, off0, fs, ic)
    {
      hide FileBlock, Splice, OnDisk;
      SlotFacts(u);
      SameBlocksBytes(q, State(), ic[u].inum, off0 + |src|);
      SameBlocksOther(q, State(), ic[u].inum);
      OtherTrans(fs, q, State(), ic[u].inum);
    }

    /** The loop of uwritei and what follows it. */
    method WriteAll(u: nat, src: seq<byte>, off0: nat, ghost fs: Fs, ghost ic: seq<Uinode>, ghost sane: bool)
      returns (live: bool, r: int, ghost done: nat)
      requires Going(u, ic, off0, 0) && icache == ic && off0 + |src| < WORDMAX
      requires sane ==> Writing(u, fs, ic, src, off0, 0) && inodes == fs.inodes
      modifies `disk, `bufs, `icache, `inodes, `owner
      ensures Tab() && Held(bufs, multiset{}) && SlotKept(ic, icache, u)
      ensures icache[u].ino == ic[u].ino.(size := icache[u].ino.size, addrs := icache[u].ino.addrs)
      ensures icache[u].ino.size >= ic[u].ino.size && (r == -1 || r == |src|)
      ensures r == -1 ==> icache[u].ino.size == ic[u].ino.size
      ensures live && r != -1 && src != [] ==> off0 + |src| <= icache[u].ino.size && off0 + |src| <= MAXBYTES
      ensures off0 + |src| <= NDIRECT * BSIZE ==> SameIndirect(ic, icache, u)
      ensures sane ==> live && (old(NoLeak()) ==> NoLeak())
      ensures sane && r == -1 ==> Failed(u, src, off0, fs, ic, done)
      ensures sane && r != -1 ==> Grown(u, src, off0, fs, ic)
    {
      assert SameIndirect(ic, icache, u) by { AddrsLength(u); }
      hide Wf, Writing, NoLeak, Held, Full, Tab, Grown, Failed;
      var ok, tot;
      live, ok, tot := WriteLoop(u, src, off0, fs, ic, sane);
      done := tot;
      if !live || !ok {
        if sane { FailedAt(u, fs, ic, src, off0, tot); }
        return live, -1, tot;
      }
      live := Grow(u, src, off0, fs, ic, sane);
      return live, |src|, tot;
    }

    /** The loop of uwritei, to its end or to where it gives up. */
    method WriteLoop(u: nat, src: seq<byte>, off0: nat, ghost fs: Fs, ghost ic: seq<Uinode>, ghost sane: bool)
      returns (live: bool, ok: bool, tot: nat)
      requires u < |ic| && Going(u, ic, off0, 0) && SameIndirect(ic, icache, u)
      requires sane ==> Writing(u, fs, ic, src, off0, 0) && inodes == fs.inodes
      modifies `disk, `bufs, `icache, `inodes, `owner
      ensures tot <= |src| && Going(u, ic, off0, tot) && (live && ok ==> tot == |src|)
      ensures off0 + |src| <= NDIRECT * BSIZE ==> SameIndirect(ic, icache, u)
      ensures sane ==> live && Writing(u, fs, ic, src, off0, tot) && (old(NoLeak()) ==> NoLeak())
      ensures sane && ok && off0 + tot <= ic[u].ino.size ==> inodes == fs.inodes
      ensures sane && !ok ==> tot < |src| && (off0 + tot >= MAXBYTES || Full()) && off0 + tot >= ic[u].ino.size
    {
      hide Going, Writing, Wf, NoLeak, Held, Full, Tab, SameIndirect;
      var n := |src|;
      tot := 0;
      while tot < n
        invariant 0 <= tot <= n && Going(u, ic, off0, tot)
        invariant off0 + tot <= NDIRECT * BSIZE ==> SameIndirect(ic, icache, u)
        invariant sane ==> Writing(u, fs, ic, src, off0, tot) && (old(NoLeak()) ==> NoLeak())
        invariant sane && off0 + tot <= ic[u].ino.size ==> inodes == fs.inodes
      {
        ghost var ic1 := icache;
        var m;
        m, live, ok := WriteNext(u, src, off0, tot, fs, ic, sane);
        if off0 + tot + m <= NDIRECT * BSIZE { SameIndirectTrans(ic, ic1, icache, u); }
        if !live || !ok { return live, ok, tot; }
        tot := tot + m;
      }
      return true, true, tot;
    }

    /** The file has its size, and of src it has the first `done` bytes as far as they lie inside it: it could not grow
        as far as it must. No other file changed, and no inode on disk. */
    ghost predicate Failed(u: nat, src: seq<byte>, off0: nat, fs: Fs, ic: seq<Uinode>, done: nat)
      reads this
    {
      && Begun(u, fs, ic, off0) && done <= |src| && Wf() && SlotKept(ic, icache, u)
      && OtherFiles(fs, State(), ic[u].inum) && SameOnDisk(l, fs.blocks, disk)
      && (off0 + |src| > MAXBYTES || Full()) && off0 + |src| > ic[u].ino.size
      && var s := Splice(Contents(fs, ic[u].inum), off0, src[..done]);
         |s| >= ic[u].ino.size && File(u) == s[..ic[u].ino.size]
    }

    lemma FailedAt(u: nat, fs: Fs, ic: seq<Uinode>, src: seq<byte>, off: nat, tot: nat)
      requires tot < |src| && Writing(u, fs, ic, src, off, tot)
      requires u < |ic| && (off + tot >= MAXBYTES || Full()) && off + tot >= ic[u].ino.size
      ensures Failed(u, src, off, fs, ic, tot)
    {
      hide Writing, Splice, Full, File, Contents, FileOk, Shape, OtherFiles, SameOnDisk, Wf;
      Stopped(u, fs, ic, src, off, tot);
    }

    /** uwritei. In a sound file system, at an offset inside the file or at its end: it returns |src|, and the file is
        spliced, or -1; no other file changes and no block is lost. Whatever the blocks hold, the file does not
        shrink. */
    method Uwritei(u: nat, src: seq<byte>, off0: word) returns (live: bool, r: int, ghost done: nat)
      requires Tab() && Held(bufs, multiset{}) && u < |icache| && Loaded(icache[u]) && |src| < WORDMAX
      modifies `disk, `bufs, `icache, `inodes, `owner
      ensures Tab() && Held(bufs, multiset{}) && SlotKept(old(icache), icache, u)
      ensures icache[u].ino == old(icache)[u].ino.(size := icache[u].ino.size, addrs := icache[u].ino.addrs)
      ensures icache[u].ino.size >= old(icache)[u].ino.size && (r == -1 || r == |src|)
      ensures r == -1 ==> icache[u].ino.size == old(icache)[u].ino.size
      ensures live && r != -1 && src != [] ==> off0 + |src| <= icache[u].ino.size && off0 + |src| <= MAXBYTES
      ensures off0 + |src| <= NDIRECT * BSIZE ==> SameIndirect(old(icache), icache, u)
      ensures old(Wf()) && off0 <= old(icache)[u].ino.size ==>
                && live && Begun(u, old(State()), old(icache), off0) && (old(NoLeak()) ==> NoLeak())
                && old(File(u)) == Contents(old(State()), old(icache)[u].inum)
                && (r == -1 ==> Failed(u, src, off0, old(State()), old(icache), done))
                && (r != -1 ==> Grown(u, src, off0, old(State()), old(icache)))
    {
      ghost var sane := Wf() && off0 <= icache[u].ino.size;
      if sane { SlotFacts(u); }
      hide Wf, Writing, NoLeak, Held, Splice, Full, File, Contents, FileOk, Shape, OnDisk, OtherFiles, Tab, Begun,
           Grown, Failed;
      if sane { Started(u, src, off0); }
      assert icache[u := icache[u]] == icache;
      if off0 + |src| >= WORDMAX {
        AddrsLength(u);
        if sane { TooFar(u, src, off0); }
        return true, -1, 0;
      }
      live, r, done := WriteAll(u, src, off0, State(), icache, sane);
    }

    lemma TooFar(u: nat, src: seq<byte>, off: nat)
      requires Writing(u, State(), icache, src, off, 0)
      requires off + |src| >= WORDMAX
      ensures Failed(u, src, off, State(), icache, 0)
    {
      hide Writing, Splice, Full, Contents, FileOk, Shape, OtherFiles, SameOnDisk, Wf;
      Stopped(u, State(), icache, src, off, 0);
      FileSize(u);
    }

    // -------------------------------------------------------------- ialloc

    /** ialloc: the first inode of type 0 gets the type and is otherwise empty, on disk at once, and a slot. inum is 0
        when there is no such inode. When there is no slot for it, ialloc fails and the inode stays taken. */
    method Ialloc(kind: nat) returns (r: Option<nat>, ghost inum: nat)
      requires Tab() && Held(bufs, multiset{}) && 0 < kind < SHORT
      modifies `bufs, `disk, `icache, `inodes
      ensures Tab() && Held(bufs, multiset{})
      ensures r.None? ==> icache == old(icache)
      ensures r.Some? ==> inum != 0 && r.value < NINODE && |icache| == |old(icache)| == NINODE
      ensures r.Some? ==> var x, y := old(icache)[r.value], icache[r.value];
                          && icache == old(icache)[r.value := y] && y.inum == inum && y.ref == x.ref + 1 && x.ref >= 0
                          && (x.ref > 0 ==> y == x.(ref := x.ref + 1))
                          && (x.ref == 0 ==> y == x.(inum := inum, ref := 1, valid := false))
      ensures inum == 0 ==> r.None? && disk == old(disk) && State() == old(State())
      ensures inum == 0 || inum < l.ninodes
      ensures inum != 0 && r.None? ==> forall u {:trigger icache[u]} :: 0 <= u < NINODE ==>
                                         icache[u].ref > 0 && icache[u].inum != inum
      ensures old(Wf()) ==> Wf() && Allocated(old(State()), State(), inum, kind) && (old(NoLeak()) ==> NoLeak())
      ensures old(Wf()) ==> forall k: nat {:trigger OnDisk(l, disk, k)} :: k < l.ninodes && k != inum ==>
                              OnDisk(l, disk, k) == OnDisk(l, old(disk), k)
      ensures old(Wf()) && r.Some? ==> old(icache)[r.value].ref == 0
    {
      hide WellFormed, FreeZero, FilesOk, Coherent, Held, CacheOk, OnDisk, SameBlocks, Tight, SlotsOk;
      ghost var sane := Wf();
      if sane {
        WfShape();
        SameBlocksSelf(State());
        CacheFacts(l, disk, icache, inodes);
      }
      var i := 1;
      while i < l.ninodes
        invariant 1 <= i && Tab() && Held(bufs, multiset{}) && State() == old(State()) && icache == old(icache)
        invariant owner == old(owner)
        invariant sane ==> Wf()
        invariant sane ==> forall k {:trigger inodes[k]} :: 0 < k < i && k < |inodes| ==> inodes[k].kind != 0
      {
        var bp, free := ReadKind(i);
        if sane { KindOnDisk(l, disk, icache, inodes, i); }
        if free {
          if sane { FreeIsUnused(l, disk, icache, inodes, i); }
          TakeInode(i, kind, bp);
          r := Uiget(i);
          return r, i;
        }
        assert multiset{bp} - multiset{bp} == multiset{};
        Ubrelse(bp, multiset{bp});
        i := i + 1;
      }
      return None, 0;
    }

    /** Reads the block of inode i; is the inode free? */
    method ReadKind(i: nat) returns (bp: nat, free: bool)
      requires Coherent(bufs, disk) && Held(bufs, multiset{}) && LayoutOk(l) && i < l.ninodes && |disk| == sb.size
      modifies `bufs
      ensures Coherent(bufs, disk) && Held(bufs, multiset{bp}) && bp < NUBUF == |bufs|
      ensures HoldsBlock(bufs[bp], IBlock(l, i)) && bufs[bp].valid && IBlock(l, i) < |disk|
      ensures bufs[bp].data == disk[IBlock(l, i)] && (free <==> OnDisk(l, disk, i).kind == 0)
    {
      hide Coherent, Held, InodeAt;
      IBlockIsMeta(l, i);
      bp := Ubread(IBlock(l, i), multiset{});
      assert multiset{} + multiset{bp} == multiset{bp};
      free := InodeAt(bufs[bp].data, i % IPB).kind == 0;
    }

    /** The inode in the held buffer bp is taken. */
    method TakeInode(i: nat, kind: nat, bp: nat)
      requires Tab() && Held(bufs, multiset{bp}) && 0 < kind < SHORT && i < l.ninodes && OnDisk(l, disk, i).kind == 0
      requires bp < |bufs| == NUBUF && HoldsBlock(bufs[bp], IBlock(l, i)) && bufs[bp].valid
      requires IBlock(l, i) < |disk| && bufs[bp].data == disk[IBlock(l, i)]
      modifies `bufs, `disk, `inodes
      ensures Tab() && Held(bufs, multiset{})
      ensures old(Wf()) ==> Wf() && SameBlocks(old(State()), State()) && (old(NoLeak()) ==> NoLeak())
      ensures old(Wf()) ==> i < |old(inodes)| && inodes == old(inodes)[i := Inode(kind, 0, 0, 0, 0, NoBlocks())]
      ensures old(Wf()) ==> OnDisk(l, disk, i).kind != 0
      ensures old(Wf()) ==> forall k: nat {:trigger OnDisk(l, disk, k)} :: k < l.ninodes && k != i ==>
                              OnDisk(l, disk, k) == OnDisk(l, old(disk), k)
    {
      hide WellFormed, FreeZero, FilesOk, Coherent, CacheOk, OnDisk, SameBlocks, Tight, SlotsOk;
      ghost var fs, sane := State(), Wf();
      var ino := Inode(kind, 0, 0, 0, 0, NoBlocks());
      var data := SetInode(bufs[bp].data, i % IPB, ino);
      if sane {
        WfShape();
        CacheFacts(l, disk, icache, inodes);
        WriteFree(l, disk, icache, inodes, i, ino);
        IBlockIsMeta(l, i);
        FileIsOk(fs, i);
        NoBytes(fs, i);
        PutInode(fs, owner, i, ino, IBlock(l, i), data);
        inodes := inodes[i := ino];
      }
      Ubwrite(bp, data, multiset{bp});
      assert multiset{bp} - multiset{bp} == multiset{};
      Ubrelse(bp, multiset{bp});
    }
  }

  /** The first tot bytes of src have been written at off to file i of fs, and no other file changed. */
  ghost predicate Written(l: Layout, fs: Fs, r: Fs, i: nat, src: seq<byte>, off: nat, tot: nat) {
    && Shape(fs) && i < |fs.inodes| && FileOk(fs, i) && off <= fs.inodes[i].size && tot <= |src|
    && SameMeta(fs, r, i) && OtherFiles(fs, r, i) && SameOnDisk(l, fs.blocks, r.blocks)
    && var n := Max(fs.inodes[i].size, off + tot);
    && Covers(r, i, n) && Bytes(r, i, n) == Splice(Contents(fs, i), off, src[..tot])
  }

  /** d has been written at off to file i of fs, of which n bytes were there; or not, and then no block changed. */
  ghost predicate Piece(l: Layout, fs: Fs, r: Fs, i: nat, n: nat, off: nat, d: seq<byte>, ok: bool) {
    && Shape(fs) && i < |fs.inodes| && Covers(fs, i, n) && off <= n
    && SameMeta(fs, r, i) && OtherFiles(fs, r, i) && SameOnDisk(l, fs.blocks, r.blocks)
    && (!ok ==> SameBlocks(fs, r))
    && (ok ==> Covers(r, i, Max(n, off + |d|)) && Bytes(r, i, Max(n, off + |d|)) == Splice(Bytes(fs, i, n), off, d))
  }

  /** One more piece. */
  lemma Wrote(l: Layout, fs: Fs, q: Fs, r: Fs, i: nat, src: seq<byte>, off: nat, tot: nat, m: nat, ok: bool)
    requires Written(l, fs, q, i, src, off, tot) && tot + m <= |src|
    requires Piece(l, q, r, i, Max(fs.inodes[i].size, off + tot), off + tot, src[tot..tot + m], ok)
    ensures Written(l, fs, r, i, src, off, if ok then tot + m else tot)
  {
    hide FileBlock, Covers, Splice, SameOnDisk, FileOk, Bytes;
    SameOnDiskTrans(l, fs.blocks, q.blocks, r.blocks);
    SameMetaTrans(fs, q, r, i);
    OtherTrans(fs, q, r, i);
    if ok {
      SpliceMore(Contents(fs, i), off, src[..tot], src[tot..tot + m]);
      assert src[..tot] + src[tot..tot + m] == src[..tot + m];
    } else {
      SameBlocksBytes(q, r, i, Max(fs.inodes[i].size, off + tot));
    }
  }

  /** The first free inode, if there was one, has the type and is otherwise empty; no block of a file changed. */
  ghost predicate Allocated(fs: Fs, r: Fs, inum: nat, kind: nat) {
    && SameBlocks(fs, r) && (inum == 0 ==> r == fs)
    && (inum != 0 ==> inum < |fs.inodes| && fs.inodes[inum].kind == 0)
    && (inum != 0 ==> r.inodes == fs.inodes[inum := Inode(kind, 0, 0, 0, 0, NoBlocks())])
    && (forall i {:trigger fs.inodes[i]} :: 0 < i < |fs.inodes| && (inum == 0 || i < inum) ==> fs.inodes[i].kind != 0)
  }

  lemma IsData(fs: Fs, own: map<nat, Owner>, b: nat)
    requires WellFormed(fs, own) && b < fs.sb.size && !Used(fs, b)
    ensures fs.sb.datastart <= b
  {
  }

  lemma CoversSize(fs: Fs, i: nat)
    requires Shape(fs) && i < |fs.inodes| && FileOk(fs, i)
    ensures Covers(fs, i, fs.inodes[i].size)
  {
  }

  lemma NoBytes(fs: Fs, i: nat)
    requires Shape(fs) && i < |fs.inodes|
    ensures Covers(fs, i, 0)
  {
  }

  lemma SameBlocksSelf(fs: Fs)
    requires Shape(fs)
    ensures SameBlocks(fs, fs)
  {
  }

  lemma NoneHeld(bufs: seq<Ubuf>, datastart: nat)
    ensures HeldData(bufs, multiset{}, datastart)
  {
  }

  /** Only data blocks, and blocks that have been read, are in held buffers. */
  ghost predicate HeldData(bufs: seq<Ubuf>, held: multiset<nat>, datastart: nat) {
    forall k {:trigger bufs[k]} :: k in held && k < |bufs| ==> bufs[k].valid && bufs[k].blockno >= datastart
  }

  lemma NotHeld(bufs: seq<Ubuf>, held: multiset<nat>, datastart: nat, b: nat)
    requires HeldData(bufs, held, datastart) && b < datastart
    ensures forall k {:trigger bufs[k]} :: 0 <= k < |bufs| && HoldsBlock(bufs[k], b) ==> k !in held
  {
  }

  lemma StillData(bufs: seq<Ubuf>, bufs': seq<Ubuf>, held: multiset<nat>, datastart: nat)
    requires SameHeld(bufs, bufs', held) && HeldData(bufs, held, datastart)
    ensures HeldData(bufs', held, datastart)
  {
  }

  lemma HeldSelf(bufs: seq<Ubuf>, held: multiset<nat>)
    ensures KeptHeld(bufs, bufs, held) && SameHeld(bufs, bufs, held)
  {
  }

  /** What one turn of balloc leaves of the held buffers: ubread, and the bitmap block in buffer i marked or not. */
  lemma Turned(a: seq<Ubuf>, b: seq<Ubuf>, c: seq<Ubuf>, held: multiset<nat>, i: nat, marked: bool, datastart: nat,
               bb: nat)
    requires SameHeld(a, b, held) && i < |b| && HoldsBlock(b[i], bb) && bb < datastart
    requires i in held ==> i < |a| && HoldsBlock(a[i], bb)
    requires if marked then KeptHeld(b, c, held) && (i !in held ==> SameHeld(b, c, held))
             else SameHeld(b, c, held + multiset{i})
    ensures KeptHeld(a, c, held)
    ensures HeldData(a, held, datastart) ==> SameHeld(a, c, held)
  {
    if HeldData(a, held, datastart) { NotHeld(a, held, datastart, bb); }
  }
}
