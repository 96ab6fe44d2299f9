/** Runs of the server from a disk that mkfs made: what a client can do to the root directory, to a block and to the
    inode slots. The calls are the cases of the request loop. */
module ServerRuns {
  import opened Blocks
  import opened BlockMap
  import opened FileSystem
  import opened Directory
  import opened DiskInode
  import opened ServerStore
  import opened ServerIo
  import opened ServerNames
  import opened Server
  import opened ServerPaths
  import opened ServerTables

  const CLIENT := 1
  const O_RDWR := 2

  // ---------------------------------------------------------------- counting blocks

  /** lo, lo + 1, ..., lo + n - 1. */
  ghost function Range(lo: nat, n: nat): (r: set<nat>)
    ensures |r| == n && forall x: nat {:trigger x in r} :: x in r <==> lo <= x < lo + n
  {
    if n == 0 then {} else Range(lo, n - 1) + {lo + n - 1}
  }

  ghost function Elements(s: seq<nat>): (r: set<nat>)
    ensures |r| <= |s| && forall x: nat {:trigger x in r} {:trigger x in s} :: x in r <==> x in s
  {
    if s == [] then {} else
      assert s == s[..|s| - 1] + [s[|s| - 1]];
      Elements(s[..|s| - 1]) + {s[|s| - 1]}
  }

  lemma {:induction false} DistinctCount(s: seq<nat>)
    requires forall j, k {:trigger s[j], s[k]} :: 0 <= j < k < |s| ==> s[j] != s[k]
    ensures |Elements(s)| == |s|
  {
    if s != [] { DistinctCount(s[..|s| - 1]); }
  }

  lemma Subset(a: set<nat>, b: set<nat>)
    requires a <= b
    ensures |a| <= |b|
  {
    assert b == a + (b - a);
  }

  lemma DistinctFits(s: seq<nat>, lo: nat, hi: nat)
    requires forall j, k {:trigger s[j], s[k]} :: 0 <= j < k < |s| ==> s[j] != s[k]
    requires s != [] && forall k {:trigger s[k]} :: 0 <= k < |s| ==> lo <= s[k] < hi
    ensures lo + |s| <= hi
  {
    assert lo <= s[0] < hi;
    DistinctCount(s);
    Subset(Elements(s), Range(lo, hi - lo));
  }

  /** When only the root has blocks, and no indirect one, it has NDIRECT at most. */
  lemma NotFull(fs: Fs, own: map<nat, Owner>)
    requires WellFormed(fs, own) && Tight(fs, own) && FilesOk(fs) && RootOnly(fs)
    requires fs.inodes[ROOTINO].addrs[NDIRECT] == 0 && fs.sb.datastart + NDIRECT < fs.sb.size
    ensures exists x: nat :: x < fs.sb.size && !Used(fs, x)
  {
    hide Used, Encodable, Covers;
    if forall x: nat {:trigger Used(fs, x)} :: x < fs.sb.size ==> Used(fs, x) {
      var a, lo := fs.inodes[ROOTINO].addrs[..NDIRECT], fs.sb.datastart;
      forall x: nat | lo <= x < lo + NDIRECT + 1 ensures x in a {
        assert Used(fs, x);
        OnlyDirect(fs, own, x);
      }
      Subset(Range(lo, NDIRECT + 1), Elements(a));
      assert false;
    }
  }

  lemma OnlyDirect(fs: Fs, own: map<nat, Owner>, x: nat)
    requires WellFormed(fs, own) && FilesOk(fs) && RootOnly(fs) && fs.inodes[ROOTINO].addrs[NDIRECT] == 0 && x in own
    ensures x in fs.inodes[ROOTINO].addrs[..NDIRECT]
  {
    hide Used, Encodable, Covers;
    var o := own[x];
    assert Ref(fs, o) == x;
    FileIsOk(fs, o.i);
    assert o.Direct? && o.i == ROOTINO;
    assert fs.inodes[ROOTINO].addrs[..NDIRECT][o.k] == x;
  }

  /** The slots of the first NDIRECT + 1 blocks of file i. */
  function NthName(i: nat, k: nat): Owner {
    if k < NDIRECT then Direct(i, k) else if k == NDIRECT then Indirect(i) else Slot(i, 0)
  }

  lemma TakesBlock(fs: Fs, own: map<nat, Owner>, i: nat, k: nat)
    requires WellFormed(fs, own) && i < |fs.inodes| && Covers(fs, i, NDIRECT * BSIZE + 1) && k < NDIRECT + 2
    ensures IsOwner(fs, NthName(i, k))
    ensures var b := Ref(fs, NthName(i, k)); b in own && own[b] == NthName(i, k) && fs.sb.datastart <= b < fs.sb.size
  {
    hide Used, GetWord;
    assert FileBlock(fs, i, if k < NDIRECT then k else NDIRECT).Some?;
    assert Ref(fs, NthName(i, k)) != 0;
  }

  lemma NamesDiffer(i: nat, j: nat, k: nat)
    requires j < k < NDIRECT + 2
    ensures NthName(i, j) != NthName(i, k)
  {
  }

  ghost function NamedBlocks(fs: Fs, i: nat, n: nat): (s: seq<nat>)
    requires Shape(fs) && i < |fs.inodes| && n <= NDIRECT + 2
    ensures |s| == n
  {
    if n == 0 then [] else NamedBlocks(fs, i, n - 1) + [Ref(fs, NthName(i, n - 1))]
  }

  lemma {:induction false} NamedAt(fs: Fs, i: nat, n: nat, k: nat)
    requires Shape(fs) && i < |fs.inodes| && k < n <= NDIRECT + 2
    ensures IsOwner(fs, NthName(i, k)) && NamedBlocks(fs, i, n)[k] == Ref(fs, NthName(i, k))
  {
    hide Ref;
    if k < n - 1 { NamedAt(fs, i, n - 1, k); }
  }

  /** A file with more than NDIRECT blocks takes NDIRECT + 2. */
  lemma Crowded(fs: Fs, own: map<nat, Owner>, i: nat)
    requires WellFormed(fs, own) && i < |fs.inodes| && Covers(fs, i, NDIRECT * BSIZE + 1)
    ensures fs.sb.datastart + NDIRECT + 2 <= fs.sb.size
  {
    hide Owned, Covers, Ref, Used, NthName;
    var s := NamedBlocks(fs, i, NDIRECT + 2);
    forall k: nat | k < |s| ensures s[k] in own && own[s[k]] == NthName(i, k) && fs.sb.datastart <= s[k] < fs.sb.size {
      TakesBlock(fs, own, i, k);
      NamedAt(fs, i, NDIRECT + 2, k);
    }
    forall j, k | 0 <= j < k < |s| ensures s[j] != s[k] { NamesDiffer(i, j, k); }
    DistinctFits(s, fs.sb.datastart, fs.sb.size);
  }

  lemma RootNotFull(srv: FileServer)
    requires srv.Valid(multiset{}) && srv.store.NoLeak() && RootOnly(srv.store.State())
    requires |srv.store.inodes[ROOTINO].addrs| == NDIRECT + 1 && srv.store.inodes[ROOTINO].addrs[NDIRECT] == 0
    requires srv.store.l.sb.datastart + NDIRECT < srv.store.l.sb.size
    ensures !srv.store.Full()
  {
    hide Used, Owned, FreeZero, CacheOk, Coherent, Held, Ok, SlotsOk;
    NotFull(srv.store.State(), srv.store.owner);
  }

  // ---------------------------------------------------------------- writing to the root directory

  function Zeros(n: nat): (s: seq<byte>) {
    seq(n, _ => 0)
  }

  /** A directory of zeros is a directory of free entries. */
  lemma ZerosOk(fs: Fs, n: nat)
    requires n % DIRENT == 0
    ensures DirBytes(fs, Zeros(n))
  {
    hide Trim;
    forall k | 0 <= k < |Entries(Zeros(n))| ensures EntryOk(fs, Entries(Zeros(n))[k]) {
      assert Entries(Zeros(n))[k] == EntryAt(Zeros(n), k);
    }
  }

  /** The client has the root directory open, at its end, with n zero bytes in direct blocks; its slot has no other
      reference and agrees with the disk. No other file has blocks. */
  ghost predicate Filling(srv: FileServer, l: Layout, fd: nat, n: nat)
    reads srv, srv.store
  {
    && srv.Sound(multiset{}) && srv.store.NoLeak() && RootOnly(srv.store.State()) && srv.store.l == l
    && |srv.fds| == |srv.at| == MAX_FDS && srv.Owns(CLIENT, fd) && srv.fds[fd].writable && srv.fds[fd].off == n
    && srv.FdInum(fd) == ROOTINO && srv.FdFile(fd) == Zeros(n)
    && srv.at[fd].Some? && RootSlot(srv.store, srv.at[fd].value)
  }

  ghost predicate RootSlot(store: Store, u: nat)
    reads store
  {
    && u < |store.icache| && store.icache[u].ref == 1 && store.icache[u].valid && store.icache[u].inum == ROOTINO
    && |store.icache[u].ino.addrs| == NDIRECT + 1 && store.icache[u].ino.addrs[NDIRECT] == 0 && store.Clean(u)
  }

  lemma SlashPath()
    ensures NoNul([Path.SLASH]) && Path.Components([Path.SLASH]) == []
    ensures !Creates(O_RDWR) && RdWr(O_RDWR)
  {
    Path.SlashFirst([Path.SLASH]);
    assert [Path.SLASH][1..] == [];
    Path.NoComponents();
  }

  lemma RootReached(srv: FileServer, r: Outcome, inum: nat, k: nat, fs: Fs, own: map<nat, Owner>, ic: seq<Uinode>)
    requires srv.OpenDone(r, inum, k, [Path.SLASH], O_RDWR, fs, own, ic) && Safe(fs, ic) && !r.Crash?
    requires r.Reply? || (r.Quit? && Creates(O_RDWR)) || r.Panic?
    ensures r.Reply? && srv.Sound(multiset{}) && srv.store.State() == fs && srv.store.owner == own
    ensures if r.result == -1 then AllUsed(srv.fds) else inum == ROOTINO
  {
    hide FileServer.Sound, Store.Full, Gettable, AllUsed, IsCreated, Taken;
    SlashPath();
  }

  /** Boot, and OPEN "/" for reading and writing. */
  method OpenRoot(l: Layout) returns (srv: FileServer, fd: nat)
    requires LayoutOk(l) && ROOTINO < l.ninodes
    ensures fresh(srv) && fresh(srv.store) && Filling(srv, l, fd, 0)
  {
    hide FileServer.Sound, FileServer.Tables, FileServer.Valid, FileServer.OpenDone, Tight, RootOnly, Safe, LayoutOk,
         Shape, Store.Wf, FileServer.FdFile, FileServer.FdInum, OnDisk, Filling, Path.Components, Gettable, SameRefs;
    srv := Boot(l);
    srv.SoundFacts(multiset{});
    SlashPath();
    assert !srv.fds[0].used;
    ghost var fs, own, ic := srv.store.State(), srv.store.owner, srv.store.icache;
    var r, inum, k := srv.Open(CLIENT, [Path.SLASH], O_RDWR);
    RootReached(srv, r, inum, k, fs, own, ic);
    fd := r.result;
    NowOpen(srv, l, fd);
  }

  lemma NowOpen(srv: FileServer, l: Layout, fd: nat)
    requires srv.Sound(multiset{}) && srv.store.NoLeak() && RootOnly(srv.store.State()) && srv.store.l == l
    requires |srv.fds| == |srv.at| == MAX_FDS && fd < MAX_FDS && srv.fds[fd] == NewFd(CLIENT, O_RDWR)
    requires srv.at[fd].Some?
    requires srv.at[fd].value < |srv.store.icache| && srv.store.icache[srv.at[fd].value].inum == ROOTINO
    requires srv.store.icache[srv.at[fd].value].ref == 1
    requires srv.store.inodes[ROOTINO] == Inode(T_DIR, 0, 0, 1, 0, NoBlocks())
    ensures Filling(srv, l, fd, 0)
  {
    hide FileServer.Tables, Tight, DirsOk, Store.Wf, FileServer.FdFile, FileServer.FdInum, OnDisk, Shape, FileOk;
    SlashPath();
    srv.SoundFacts(multiset{});
    srv.FdIs(fd);
    srv.EmptyClean(srv.at[fd].value);
  }

  /** What a write at the end of the root directory leaves. */
  lemma StillRoot(srv: FileServer, fd: nat, d: seq<byte>, result: int, done: nat, fds: seq<Fd>, fs: Fs, s: seq<byte>,
                  ic: seq<Uinode>)
    requires srv.Written(fd, d, result, done, fds, fs, ROOTINO, s) && RootOnly(fs)
    requires |srv.at| == MAX_FDS && srv.at[fd].Some? && srv.at[fd].value < |ic|
    ensures srv.Valid(multiset{}) && RootOnly(srv.store.State()) && srv.FdInum(fd) == ROOTINO
    ensures srv.at[fd].value < |srv.store.icache| && srv.store.icache[srv.at[fd].value].valid
    ensures srv.store.icache[srv.at[fd].value].inum == ROOTINO
    ensures srv.store.inodes[ROOTINO] == srv.store.icache[srv.at[fd].value].ino
    ensures result == -1 ==> fds[fd].off + |d| > MAXBYTES || srv.store.Full()
    ensures srv.FdFile(fd) == NewBytes(s, fds[fd].off, d, result, done)
  {
    hide FileServer.Tables, Store.Wf, FileServer.FdFile, FileServer.FdInum, Shape, FileOk, Store.Full, NewBytes,
         SameOthers, Contents;
    srv.FdIs(fd);
  }

  /** A write in the direct blocks of the root directory does not fail. */
  method WriteRoot(srv: FileServer, l: Layout, fd: nat, n: nat, d: seq<byte>) returns (r: Outcome)
    requires Filling(srv, l, fd, n) && n + |d| <= NDIRECT * BSIZE && 0 < |d| <= IPC_DATA_SIZE
    requires l.sb.datastart + NDIRECT < l.sb.size
    modifies srv, srv.store
    ensures r == Reply(|d|, fd, []) && srv.Valid(multiset{})
    ensures DirBytes(old(srv.store.State()), Zeros(n) + d) <==> srv.Sound(multiset{})
    ensures d == Zeros(|d|) && DirBytes(old(srv.store.State()), Zeros(n) + d) ==> Filling(srv, l, fd, n + |d|)
  {
    hide FileServer.Sound, FileServer.Tables, FileServer.Valid, FileServer.Written, Tight, RootOnly, Safe, LayoutOk,
         Shape, Store.Wf, FileServer.FdFile, FileServer.FdInum, OnDisk, Filling, SameIndirect, SameRefs, RootSlot,
         DirBytes, NewBytes;
    IsFilling(srv, l, fd, n);
    srv.SoundFacts(multiset{});
    ghost var fs, fds, ic, u := srv.store.State(), srv.fds, srv.store.icache, srv.at[fd].value;
    assert d[..Chunk(|d|)] == d;
    ghost var done;
    r, done := srv.Write(CLIENT, fd, d);
    StillRoot(srv, fd, d, r.result, done, fds, fs, Zeros(n), ic);
    SlotStays(ic, srv.store.icache, u);
    if r.result == -1 { RootNotFull(srv); }
    Spliced(n, d, done);
    if d == Zeros(|d|) && srv.Sound(multiset{}) { FilledMore(srv, l, fd, n + |d|); }
  }

  lemma IsFilling(srv: FileServer, l: Layout, fd: nat, n: nat)
    requires Filling(srv, l, fd, n)
    ensures srv.Sound(multiset{}) && srv.Valid(multiset{}) && srv.Tables(multiset{}) && srv.store.NoLeak()
    ensures RootOnly(srv.store.State()) && srv.store.l == l && |srv.fds| == |srv.at| == MAX_FDS && srv.Owns(CLIENT, fd)
    ensures srv.fds[fd].writable && srv.fds[fd].off == n && srv.FdInum(fd) == ROOTINO && srv.FdFile(fd) == Zeros(n)
    ensures srv.at[fd].Some? && srv.at[fd].value < |srv.store.icache| && RootSlot(srv.store, srv.at[fd].value)
    ensures var x := srv.store.icache[srv.at[fd].value];
            x.ref == 1 && |x.ino.addrs| == NDIRECT + 1 && x.ino.addrs[NDIRECT] == 0
    ensures srv.IsDir(fd)
  {
    hide Store.Wf, FileServer.Tables, FileServer.FdFile, FileServer.FdInum;
    srv.SoundFacts(multiset{});
  }

  lemma SlotStays(ic: seq<Uinode>, ic': seq<Uinode>, u: nat)
    requires SameRefs(ic, ic') && SameIndirect(ic, ic', u) && u < |ic| && ic[u].ref == 1
    requires |ic[u].ino.addrs| == NDIRECT + 1 && ic[u].ino.addrs[NDIRECT] == 0
    ensures u < |ic'| && ic'[u].ref == 1 && |ic'[u].ino.addrs| == NDIRECT + 1 && ic'[u].ino.addrs[NDIRECT] == 0
  {
  }

  lemma Spliced(n: nat, d: seq<byte>, done: nat)
    ensures NewBytes(Zeros(n), n, d, |d|, done) == Zeros(n) + d
    ensures d == Zeros(|d|) ==> Zeros(n) + d == Zeros(n + |d|)
  {
  }

  lemma FilledMore(srv: FileServer, l: Layout, fd: nat, n: nat)
    requires srv.Sound(multiset{}) && srv.store.NoLeak() && RootOnly(srv.store.State()) && srv.store.l == l
    requires |srv.fds| == |srv.at| == MAX_FDS && srv.Owns(CLIENT, fd) && srv.fds[fd].writable && srv.fds[fd].off == n
    requires srv.FdInum(fd) == ROOTINO && srv.FdFile(fd) == Zeros(n) && srv.at[fd].Some?
    requires srv.at[fd].value < |srv.store.icache| && srv.store.Clean(srv.at[fd].value)
    requires var x := srv.store.icache[srv.at[fd].value];
             && x.ref == 1 && x.valid && x.inum == ROOTINO && |x.ino.addrs| == NDIRECT + 1 && x.ino.addrs[NDIRECT] == 0
    ensures Filling(srv, l, fd, n)
  {
    hide FileServer.Sound, Tight, RootOnly, FileServer.FdFile, FileServer.FdInum, OnDisk, Shape;
  }

  /** Boot, OPEN "/" for writing and WRITE one byte: the root directory is no longer a sequence of entries. */
  method BreakRoot(l: Layout) returns (srv: FileServer, r: Outcome)
    requires LayoutOk(l) && ROOTINO < l.ninodes && l.sb.datastart + NDIRECT < l.sb.size
    ensures fresh(srv) && srv.Valid(multiset{}) && r.Reply? && r.result == 1
    ensures Shape(srv.store.State()) && !DirsOk(srv.store.State())
  {
    hide FileServer.Tables, FileServer.Valid, Filling, DirsOk, Store.Wf, LayoutOk, Shape;
    var fd;
    srv, fd := OpenRoot(l);
    ghost var fs := srv.store.State();
    r := WriteRoot(srv, l, fd, 0, [0]);
    assert !DirBytes(fs, Zeros(0) + [0]);
    srv.ValidFacts(multiset{});
  }

  /** The write of the block after the direct ones. */
  method Overfill(srv: FileServer, l: Layout, fd: nat)
    requires Filling(srv, l, fd, NDIRECT * BSIZE) && l.sb.datastart + NDIRECT + 1 == l.sb.size
    modifies srv, srv.store
    ensures srv.Sound(multiset{}) && srv.Valid(multiset{}) && srv.Tables(multiset{}) && srv.store.NoLeak()
    ensures |srv.fds| == |srv.at| == MAX_FDS && srv.Owns(CLIENT, fd)
    ensures srv.at[fd].Some? && srv.at[fd].value < |srv.store.icache| && !srv.store.LetGo(srv.at[fd].value)
  {
    hide FileServer.Sound, FileServer.Tables, FileServer.Valid, FileServer.Written, Tight, RootOnly, Safe, LayoutOk,
         Shape, Store.Wf, FileServer.FdFile, FileServer.FdInum, OnDisk, Filling, SameIndirect, DirBytes, NewBytes;
    IsFilling(srv, l, fd, NDIRECT * BSIZE);
    srv.SoundFacts(multiset{});
    ghost var n, fs, fds, ic, u := NDIRECT * BSIZE, srv.store.State(), srv.fds, srv.store.icache, srv.at[fd].value;
    var d := Zeros(IPC_DATA_SIZE);
    assert d[..Chunk(|d|)] == d;
    ghost var done;
    var r;
    r, done := srv.Write(CLIENT, fd, d);
    StillRoot(srv, fd, d, r.result, done, fds, fs, Zeros(n), ic);
    if r.result != -1 {
      TooLong(srv, fd);
    }
    Truncated(n, d, done);
    ZerosOk(fs, n);
    srv.SoundFacts(multiset{});
    if srv.store.icache[u].ino.addrs[NDIRECT] == 0 { RootNotFull(srv); }
    assert OnDisk(l, srv.store.disk, ROOTINO) == ic[u].ino;
  }

  lemma TooLong(srv: FileServer, fd: nat)
    requires srv.Valid(multiset{}) && |srv.fds| == MAX_FDS && fd < MAX_FDS && srv.fds[fd].used
    requires |srv.FdFile(fd)| > NDIRECT * BSIZE
    ensures srv.store.l.sb.datastart + NDIRECT + 2 <= srv.store.l.sb.size
  {
    hide Used, Owned, FreeZero, CacheOk, Coherent, Held, Ok, SlotsOk, FileServer.FdFile, Contents, FileBlock;
    srv.FdIs(fd);
    Crowded(srv.store.State(), srv.store.owner, srv.FdInum(fd));
  }

  lemma Truncated(n: nat, d: seq<byte>, done: nat)
    requires d == Zeros(|d|)
    ensures NewBytes(Zeros(n), n, d, -1, done) == Zeros(n)
  {
  }

  /** On a disk with NDIRECT + 1 blocks of data: Boot, OPEN "/" for writing, WRITE zeros until the direct blocks are
      full, WRITE once more and CLOSE. The last write takes the last block for the indirect block, finds none for the
      data, and does not write the inode out: the block is lost. */
  method LoseBlock(l: Layout) returns (srv: FileServer, r: Outcome)
    requires LayoutOk(l) && ROOTINO < l.ninodes && l.sb.datastart + NDIRECT + 1 == l.sb.size
    ensures fresh(srv) && srv.Sound(multiset{}) && !srv.store.NoLeak() && r.Reply? && r.result == 0
  {
    hide FileServer.Tables, FileServer.Valid, FileServer.Sound, Filling, DirsOk, Store.Wf, LayoutOk, Shape, DirBytes,
         Tight;
    var fd;
    srv, fd := OpenRoot(l);
    var n := 0;
    while n < NDIRECT * BSIZE
      invariant 0 <= n <= NDIRECT * BSIZE && n % IPC_DATA_SIZE == 0 && Filling(srv, l, fd, n) && fresh(srv)
      invariant fresh(srv.store)
    {
      var d := Zeros(IPC_DATA_SIZE);
      Spliced(n, d, 0);
      ZerosOk(srv.store.State(), n + IPC_DATA_SIZE);
      var w := WriteRoot(srv, l, fd, n, d);
      n := n + IPC_DATA_SIZE;
    }
    Overfill(srv, l, fd);
    r := srv.Close(CLIENT, fd);
  }

  // ---------------------------------------------------------------- no slot for the root

  /** A path with one component: "a". */
  const A_PATH: Name := [97]

  lemma OneComponent()
    ensures NoNul(A_PATH) && Path.Components(A_PATH) != []
  {
    assert A_PATH[0..] == A_PATH;
    Path.AtEnd(A_PATH, 0);
  }

  /** OPEN takes the last slot for a file that is not the root, and the next OPEN faults. One slot is spare, the root
      has none, and the path leads through a directory that is open to a file that is not: as when a client has a
      subdirectory and NINODE - 2 files open. */
  method LastSlot(srv: FileServer, path: Name, flags: nat) returns (r: Outcome, r': Outcome)
    requires srv.Sound(multiset{}) && RootDir(srv.store.State()) && NoNul(path) && !AllUsed(srv.fds)
    requires Spare(srv.store.icache) && !TwoSpare(srv.store.icache) && !Live(srv.store.icache, ROOTINO)
    requires var t := Reached(srv.store.State(), srv.store.icache, path);
             t.Some? && t.value != ROOTINO && !Live(srv.store.icache, t.value)
    modifies srv, srv.store
    ensures r.Reply? && r.result != -1 && r' == Crash
  {
    hide FileServer.Sound, FileServer.Tables, FileServer.Valid, Tight, Safe, Shape, Store.Wf, OnDisk, Path.Components,
         Gettable, SameRefs, PlusOne, DistinctInums, Reached, AllUsed, RootDir, FilesOk, DirsOk;
    srv.SoundFacts(multiset{});
    OneComponent();
    ghost var ic, fs, own := srv.store.icache, srv.store.State(), srv.store.owner;
    assert Gettable(ic, ROOTINO) by { SpareIsGettable(ic); }
    ghost var inum, k;
    r, inum, k := srv.Open(CLIENT, path, flags);
    srv.SoundFacts(multiset{});
    SlotForIs(ic, srv.store.icache, srv.at[r.result].value, ROOTINO);
    r', inum, k := srv.Open(CLIENT, A_PATH, 0);
  }

  lemma SpareIsGettable(ic: seq<Uinode>)
    requires Spare(ic)
    ensures Gettable(ic, ROOTINO)
  {
  }

  ghost function LiveSlots(ic: seq<Uinode>): (r: set<nat>) {
    set u: nat | u < |ic| && ic[u].ref > 0
  }

  lemma OneMore(ic: seq<Uinode>, ic': seq<Uinode>, u: nat)
    requires PlusOne(ic, ic', u) && ic[u].ref == 0
    ensures |ic'| == |ic| && |LiveSlots(ic')| == |LiveSlots(ic)| + 1
    ensures !Live(ic, ROOTINO) && ic'[u].inum != ROOTINO ==> !Live(ic', ROOTINO)
  {
    assert LiveSlots(ic') == LiveSlots(ic) + {u};
    forall v | 0 <= v < |ic| && ic'[v].ref > 0 ensures v == u || (ic[v].ref > 0 && ic[v].inum == ic'[v].inum) {
      assert SameSlot(ic[v], ic'[v]);
    }
  }

  lemma SomeSpare(ic: seq<Uinode>, i: nat)
    requires |LiveSlots(ic)| < |ic|
    ensures Gettable(ic, i)
  {
    if forall u {:trigger ic[u]} :: 0 <= u < |ic| ==> ic[u].ref > 0 { Subset(Range(0, |ic|), LiveSlots(ic)); }
  }

  lemma NoneSpare(ic: seq<Uinode>)
    requires |LiveSlots(ic)| == |ic| && !Live(ic, ROOTINO)
    ensures !Gettable(ic, ROOTINO)
  {
    forall u: nat | u < |ic| ensures ic[u].ref > 0 {
      if ic[u].ref <= 0 { Subset(LiveSlots(ic), Range(0, |ic|) - {u}); }
    }
  }

  lemma NoneLive(ic: seq<Uinode>)
    requires forall u {:trigger ic[u]} :: 0 <= u < |ic| ==> ic[u].ref == 0
    ensures |LiveSlots(ic)| == 0 && !Live(ic, ROOTINO)
  {
    assert LiveSlots(ic) == {};
  }

  /** n slots are referenced, none of them for the root; what comes after n descriptors and n files is free. */
  ghost predicate NTaken(l: Layout, fds: seq<Fd>, ic: seq<Uinode>, inodes: seq<Inode>, n: nat) {
    && |fds| == MAX_FDS && |ic| == NINODE && |inodes| == l.ninodes && |LiveSlots(ic)| == n && !Live(ic, ROOTINO)
    && (forall k {:trigger fds[k]} :: n <= k < MAX_FDS ==> !fds[k].used)
    && (forall i {:trigger inodes[i]} :: ROOTINO + n < i < |inodes| ==> inodes[i].kind == 0)
  }

  /** ialloc and a descriptor for the new inode. */
  method TakeOne(srv: FileServer, l: Layout, n: nat)
    requires srv.Sound(multiset{}) && NTaken(l, srv.fds, srv.store.icache, srv.store.inodes, n)
    requires n < NINODE && ROOTINO + NINODE < l.ninodes
    modifies srv, srv.store
    ensures srv.Sound(multiset{}) && NTaken(l, srv.fds, srv.store.icache, srv.store.inodes, n + 1)
  {
    hide FileServer.Sound, FileServer.Tables, FileServer.Valid, Tight, Safe, Shape, Store.Wf, OnDisk, Gettable,
         LiveSlots, SameRefs, PlusOne, DistinctInums, FilesOk, DirsOk, NTaken, Taken, FileServer.Holding, AllUsed;
    srv.SoundFacts(multiset{});
    ghost var ic, fs, fds := srv.store.icache, srv.store.State(), srv.fds;
    var ip, inum := srv.NewInode(multiset{});
    Available(l, fds, ic, fs, srv.store.State(), n, inum);
    assert multiset{} + multiset{ip.value} == multiset{ip.value};
    NowHeld(srv, ic, ip.value, inum);
    var r := srv.OpenFound(ip.value, CLIENT, 0, ic);
    srv.SoundFacts(multiset{});
    NextTaken(l, fds, srv.fds, ic, srv.store.icache, fs, srv.store.State(), n, inum, ip.value, r.result);
  }

  lemma Available(l: Layout, fds: seq<Fd>, ic: seq<Uinode>, fs: Fs, r: Fs, n: nat, inum: nat)
    requires NTaken(l, fds, ic, fs.inodes, n) && n < NINODE && ROOTINO + NINODE < l.ninodes
    requires Taken(fs, r, inum, NewFile(0)) && fs.inodes[ROOTINO].kind == T_DIR
    ensures 0 < inum <= ROOTINO + n + 1 && inum < |fs.inodes| && inum != ROOTINO && Gettable(ic, inum) && !AllUsed(fds)
    ensures r.inodes == fs.inodes[inum := NewFile(0)]
  {
    hide SameBlocks, LiveSlots, Gettable;
    assert fs.inodes[ROOTINO + n + 1].kind == 0 && !fds[n].used;
    SomeSpare(ic, inum);
  }

  lemma NowHeld(srv: FileServer, ic: seq<Uinode>, u: nat, inum: nat)
    requires srv.Sound(multiset{u}) && Got(ic, srv.store.icache, u, inum) && ic[u].ref == 0
    ensures srv.Holding(u, ic) && srv.Tables(multiset{u}) && srv.store.icache[u].inum == inum
  {
    hide FileServer.Tables, Store.Wf, DirsOk, OnDisk;
    AddrsRefs(ic, ic, u);
    GotOne(ic, ic, srv.store.icache, u, inum);
  }

  lemma NextTaken(l: Layout, fds: seq<Fd>, fds': seq<Fd>, ic: seq<Uinode>, ic': seq<Uinode>, fs: Fs, r: Fs, n: nat,
                  inum: nat, u: nat, fd: int)
    requires NTaken(l, fds, ic, fs.inodes, n) && n < NINODE && PlusOne(ic, ic', u) && ic[u].ref == 0
    requires 0 < inum <= ROOTINO + n + 1 && inum < |fs.inodes| && r.inodes == fs.inodes[inum := NewFile(0)]
    requires ic'[u].inum == inum != ROOTINO && 0 <= fd < MAX_FDS && fds' == fds[fd := NewFd(CLIENT, 0)]
    requires forall k {:trigger fds[k]} :: 0 <= k < fd ==> fds[k].used
    ensures NTaken(l, fds', ic', r.inodes, n + 1)
  {
    hide PlusOne, LiveSlots;
    OneMore(ic, ic', u);
    assert fd <= n by { assert !fds[n].used; }
    forall k | n + 1 <= k < MAX_FDS ensures !fds'[k].used { assert fds'[k] == fds[k]; }
    forall i | ROOTINO + n + 1 < i < |r.inodes| ensures r.inodes[i].kind == 0 { assert r.inodes[i] == fs.inodes[i]; }
  }

  /** A sound state in which every slot is referenced, none for the root: OPEN faults. */
  method AllTaken(l: Layout) returns (srv: FileServer, r: Outcome)
    requires LayoutOk(l) && ROOTINO + NINODE < l.ninodes
    ensures fresh(srv) && r == Crash
  {
    hide FileServer.Sound, FileServer.Tables, FileServer.Valid, Tight, Safe, Shape, Store.Wf, OnDisk, NTaken, LayoutOk,
         Path.Components, LiveSlots, Gettable, DirsOk, FilesOk;
    srv := Boot(l);
    srv.SoundFacts(multiset{});
    NoneLive(srv.store.icache);
    StartTaking(l, srv.fds, srv.store.icache, srv.store.State());
    var n := 0;
    while n < NINODE
      invariant 0 <= n <= NINODE && fresh(srv) && fresh(srv.store) && srv.Sound(multiset{})
      invariant NTaken(l, srv.fds, srv.store.icache, srv.store.inodes, n)
    {
      TakeOne(srv, l, n);
      n := n + 1;
    }
    srv.SoundFacts(multiset{});
    AllLive(l, srv.fds, srv.store.icache, srv.store.inodes);
    OneComponent();
    ghost var inum, k;
    r, inum, k := srv.Open(CLIENT, A_PATH, 0);
  }

  lemma StartTaking(l: Layout, fds: seq<Fd>, ic: seq<Uinode>, fs: Fs)
    requires RootOnly(fs) && |fs.inodes| == l.ninodes && |ic| == NINODE && |LiveSlots(ic)| == 0 && !Live(ic, ROOTINO)
    requires |fds| == MAX_FDS && forall k {:trigger fds[k]} :: 0 <= k < MAX_FDS ==> !fds[k].used
    ensures NTaken(l, fds, ic, fs.inodes, 0)
  {
    hide LiveSlots;
  }

  lemma AllLive(l: Layout, fds: seq<Fd>, ic: seq<Uinode>, inodes: seq<Inode>)
    requires NTaken(l, fds, ic, inodes, NINODE)
    ensures !Gettable(ic, ROOTINO)
  {
    hide LiveSlots;
    NoneSpare(ic);
  }
}
