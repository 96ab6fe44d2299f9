/** The request loop of fsserver.c: descriptors and inode references over the store, directory lookup and linking,
    path resolution, and every request that the loop can get. */
module Server {
  import opened Prelude
  import opened Blocks
  import opened BlockMap
  import opened FileSystem
  import opened Directory
  import opened DiskInode
  import opened ServerStore
  import opened ServerIo
  import opened ServerNames
  import opened ServerTables
  import opened ServerPaths

  /** What namei comes back with: a referenced slot, nothing, a null dereference because uiget had no slot for the
      root, or the panic of a kernel asked for a block that the disk does not have. */
  datatype Named = Found(u: nat) | Missing | Fault | Dead

  /** What creating a file comes to: a referenced slot, a reply of -1, the server's exit, or that panic. */
  datatype Created = New(u: nat) | Failed | Exits | Halts

  /** One request of the loop. A message that the kernel lets through has at most IPC_DATA_SIZE bytes of data. */
  datatype Request =
    | OpenReq(sender: int, path: Name, flags: nat)
    | ReadReq(sender: int, fd: int, nbytes: nat)
    | WriteReq(sender: int, fd: int, data: seq<byte>)
    | CloseReq(sender: int, fd: int)
    | ShutdownReq(sender: int)
    | ExitReq(sender: int)
    | OtherReq(sender: int, fd: int)

  /** What the loop does with it: replies and goes on, goes on, replies to a shutdown and stops, exits on a failed
      directory write, faults on a missing root slot, or ends with the kernel, asked for a block that the disk does not
      have. */
  datatype Outcome = Reply(result: int, fd: int, data: seq<byte>) | GoOn | Stop | Quit | Crash | Panic

  /** What a message can carry. */
  ghost function Message(data: seq<byte>): (d: seq<byte>) {
    if |data| <= 128 then data else data[..128]
  }

  /** A reply with the bytes of s from `off` on: as many as asked for, as a message carries, or as there are. */
  ghost predicate IsRead(s: seq<byte>, off: nat, nbytes: nat, fd: int, r: Outcome) {
    && r.Reply? && r.fd == fd && r.result == |r.data| && off + |r.data| <= |s| && r.data == s[off..off + |r.data|]
    && |r.data| <= nbytes && |r.data| <= 128
    && (|r.data| == nbytes || |r.data| == 128 || off + |r.data| == |s|)
  }

  lemma SliceIsRead(s: seq<byte>, off: nat, nbytes: nat, fd: int)
    requires off <= |s|
    ensures var d := Slice(s, off, Chunk(nbytes)); IsRead(s, off, nbytes, fd, Reply(|d|, fd, d))
  {
  }

  lemma ChunkIsMessage(data: seq<byte>)
    ensures data[..Chunk(|data|)] == Message(data) && Chunk(|data|) == |Message(data)|
  {
  }

  /** s' is s with the bytes d at `off`. */
  ghost predicate HasBytes(s: seq<byte>, off: nat, d: seq<byte>, s': seq<byte>) {
    && off <= |s| && |s'| == (if off + |d| > |s| then off + |d| else |s|)
    && s'[..off] == s[..off] && s'[off..off + |d|] == d && (off + |d| <= |s| ==> s'[off + |d|..] == s[off + |d|..])
  }

  lemma SpliceIsWritten(s: seq<byte>, off: nat, d: seq<byte>)
    requires off <= |s|
    ensures HasBytes(s, off, d, Splice(s, off, d))
  {
  }

  /** The server is gone. */
  predicate Ends(r: Outcome) {
    r.Quit? || r.Crash? || r.Panic?
  }

  /** A directory scan: the slot, the references in hand, and, in a sound file system, the directory's bytes and what
      must not change. */
  datatype Scan = Scan(u: nat, extra: multiset<nat>, b: seq<byte>, fs: Fs, own: map<nat, Owner>, ic: seq<Uinode>)

  class FileServer {
    const store: Store
    var fds: seq<Fd>
    var at: seq<Option<nat>> // fd_inodes

    /** The bookkeeping, whatever the disk holds: no block buffer is held and the buffers agree with the disk, live
        slots have distinct inode numbers, the references to them are the descriptors' and those in `extra`, and every
        descriptor is inside its file. */
    ghost predicate Tables(extra: multiset<nat>)
      reads this, store
    {
      store.Tab() && Held(store.bufs, multiset{}) && Ok(store.icache, fds, at, extra)
    }

    /** ... and the file system is sound. */
    ghost predicate Valid(extra: multiset<nat>)
      reads this, store
    {
      Tables(extra) && store.Wf()
    }

    /** ... and its directories lead to inodes in use. */
    ghost predicate Sound(extra: multiset<nat>)
      reads this, store
    {
      Valid(extra) && DirsOk(store.State())
    }

    /** The descriptor table at boot. */
    constructor (store: Store)
      requires store.Wf() && Held(store.bufs, multiset{}) && DirsOk(store.State())
      requires forall u {:trigger store.icache[u]} :: 0 <= u < NINODE ==> store.icache[u].ref == 0
      ensures this.store == store && Sound(multiset{})
      ensures |fds| == MAX_FDS && forall k {:trigger fds[k]} :: 0 <= k < MAX_FDS ==> !fds[k].used
    {
      this.store := store;
      fds := seq(MAX_FDS, _ => Fd(false, 0, 0, false, false));
      at := seq(MAX_FDS, _ => None);
      new;
      store.WfTab();
      store.WfShape();
      forall u ensures Count(at, u) == 0 { CountNone(at, u); }
      forall k | 0 <= k < MAX_FDS ensures FdOk(store.icache, fds, at, k) {}
    }

    lemma TabFacts(extra: multiset<nat>)
      requires Tables(extra)
      ensures Shape(store.State()) && LayoutOk(store.l) && |store.icache| == NINODE && |fds| == |at| == MAX_FDS
      ensures Ok(store.icache, fds, at, extra) && Held(store.bufs, multiset{}) && store.Tab()
      ensures forall u: nat {:trigger extra[u]} :: u in extra ==> u < NINODE && store.icache[u].ref > 0
    {
      OkFacts(store.icache, fds, at, extra);
    }

    // -------------------------------------------------------------- references

    /** uiget. */
    method Get(inum: nat, ghost extra: multiset<nat>) returns (r: Option<nat>)
      requires Tables(extra)
      modifies store`icache
      ensures r.Some? <==> Gettable(old(store.icache), inum)
      ensures r.None? ==> store.icache == old(store.icache) && Tables(extra)
      ensures r.Some? ==> Tables(extra + multiset{r.value}) && Got(old(store.icache), store.icache, r.value, inum)
      ensures r.Some? ==> store.LetGo(r.value)
      ensures old(store.Wf()) && inum < |store.inodes| && store.inodes[inum].kind != 0 ==> store.Wf()
    {
      hide Tables, Store.Tab, Store.Wf, Ok, Held, OnDisk, Shape, LayoutOk, Gettable;
      TabFacts(extra);
      if store.Wf() && inum < |store.inodes| { Lookups(inum); }
      GettableIs(store.icache, inum);
      r := store.Uiget(inum);
      if r.Some? { GetOk(old(store.icache), fds, at, extra, r.value, store.icache[r.value]); }
      TablesAre(if r.Some? then extra + multiset{r.value} else extra);
    }

    lemma TablesAre(extra: multiset<nat>)
      requires store.Tab() && Held(store.bufs, multiset{}) && Ok(store.icache, fds, at, extra)
      ensures Tables(extra)
    {
    }

    lemma Lookups(inum: nat)
      requires store.Wf() && inum < |store.inodes|
      ensures inum < store.l.ninodes && OnDisk(store.l, store.disk, inum).kind == store.inodes[inum].kind
    {
      KindOnDisk(store.l, store.disk, store.icache, store.inodes, inum);
    }

    /** uilock. */
    method Lock(u: nat, ghost extra: multiset<nat>) returns (live: bool)
      requires Tables(extra) && u in extra
      modifies store`bufs, store`icache
      ensures Tables(extra) && |store.icache| == |old(store.icache)| == NINODE && u < NINODE
      ensures live ==> Loaded(store.icache[u])
      ensures live ==>
                var x := old(store.icache)[u];
                store.icache == old(store.icache)[u := x.(valid := true, ino := store.icache[u].ino)]
      ensures live && old(store.LetGo(u)) ==> store.LetGo(u)
      ensures old(store.Wf()) ==> live && store.Wf()
      ensures old(store.Wf()) ==>
                store.icache[u].inum < |store.inodes| && store.icache[u].ino == store.inodes[store.icache[u].inum]
    {
      hide Tables, Store.Tab, Store.Wf, Ok, Held, OnDisk, Shape, LayoutOk;
      TabFacts(extra);
      assert extra[u] > 0;
      live := store.Uilock(u);
      if live && !old(store.icache)[u].valid {
        LoadOk(old(store.icache), fds, at, extra, u, store.icache[u].ino);
      }
      TablesAre(extra);
    }

    /** uiput: every file keeps its contents, and no block is lost exactly if there was no leak before and the slot
        agrees with the disk or is still referenced. */
    method Put(u: nat, ghost extra: multiset<nat>)
      requires Tables(extra) && u in extra
      modifies store`icache, store`inodes, store`owner
      ensures Tables(extra - multiset{u}) && |store.icache| == |old(store.icache)| == NINODE && u < NINODE
      ensures store.icache == old(store.icache)[u := store.icache[u]]
      ensures store.icache[u] == Dropped(old(store.icache)[u])
      ensures old(store.LetGo(u)) || !old(store.Wf()) ==>
                store.State() == old(store.State()) && store.owner == old(store.owner)
      ensures old(store.Wf()) ==> store.Wf() && SameContents(old(store.State()), store.State())
      ensures old(store.Wf()) ==> (store.NoLeak() <==> old(store.NoLeak()) && old(store.LetGo(u)))
      ensures old(Sound(extra)) ==> Shape(store.State()) && DirsOk(store.State())
    {
      hide Tables, Store.Tab, Store.Wf, Ok, Held, OnDisk, Shape, LayoutOk, SameContents, DirsOk, Store.NoLeak;
      TabFacts(extra);
      assert extra[u] > 0;
      PutOk(store.icache, fds, at, extra, u);
      ghost var fs, sound := store.State(), Sound(extra);
      store.Uiput(u);
      TablesAre(extra - multiset{u});
      if sound {
        SameDirs(fs, store.State());
        TabFacts(extra - multiset{u});
      }
    }

    // -------------------------------------------------------------- scanning a directory

    /** What dirlookup looks for in the directory in slot u. */
    ghost function Sought(u: nat, name: Name): (r: Option<nat>)
      requires store.Wf() && u < |store.icache| && Loaded(store.icache[u])
      reads store
    {
      store.SlotFacts(u);
      Lookup(store.State(), store.icache[u].inum, name)
    }

    /** The scan has gone on, whatever the disk holds. */
    ghost predicate Scanning(s: Scan)
      reads this, store
    {
      && Tables(s.extra) && s.u in s.extra && s.u < |s.ic| && Loaded(s.ic[s.u]) && AddrsOnly(s.ic, store.icache, s.u)
    }

    /** In a sound file system nothing has changed, and slot u has a directory with the bytes b. */
    ghost predicate Reading(s: Scan)
      reads this, store
    {
      && Sound(s.extra) && s.u in s.extra && s.u < |store.icache| && Loaded(store.icache[s.u])
      && store.icache[s.u].ino.kind == T_DIR && store.File(s.u) == s.b
      && store.State() == s.fs && store.owner == s.own && store.icache == s.ic
    }

    lemma DirSize(s: Scan, k: nat)
      requires Reading(s)
      ensures s.u < |store.icache| == NINODE
      ensures store.icache[s.u].ino.size == |s.b| == DIRENT * |Entries(s.b)| <= MAXBYTES
      ensures DIRENT * k < |s.b| <==> k < |Entries(s.b)|
      ensures Loaded(store.icache[s.u]) && Sound(s.extra) && s.u in s.extra
      ensures forall name {:trigger Sought(s.u, name)} :: Sought(s.u, name) == Find(Entries(s.b), name, 0)
    {
      hide Store.Wf, Ok, Held, Store.Tab, Store.File;
      store.SlotFacts(s.u);
      assert DirOk(store.State(), store.icache[s.u].inum);
    }

    lemma InUse(s: Scan, k: nat)
      requires Reading(s) && k < |Entries(s.b)| && Entries(s.b)[k].inum != 0
      ensures Entries(s.b)[k].inum < |s.fs.inodes| && s.fs.inodes[Entries(s.b)[k].inum].kind != 0
    {
      hide Store.Wf, Ok, Held, Store.Tab, Store.File;
      store.SlotFacts(s.u);
      assert DirOk(store.State(), store.icache[s.u].inum);
      assert EntryOk(store.State(), DirEntries(store.State(), store.icache[s.u].inum)[k]);
    }

    /** ureadi of entry k. */
    method ReadEntry(u: nat, k: nat, ghost s: Scan) returns (live: bool, n: int, de: seq<byte>)
      requires Scanning(s) && s.u == u && DIRENT * k + DIRENT < WORDMAX
      modifies store
      ensures Scanning(s)
      ensures live && n == DIRENT ==> |de| == DIRENT && DIRENT * k + DIRENT <= MAXBYTES
      ensures old(Reading(s)) ==> live && Reading(s)
      ensures old(Reading(s)) && k < |Entries(s.b)| ==>
                && n == DIRENT == |de|
                && Entries(s.b)[k] == Entry(de[0] as int + 256 * (de[1] as int), Trim(de[2..]))
    {
      hide Tables, Reading, Dir, Store.Tab, Store.Wf, Ok, Held, Entries, EntryAt, Trim, Store.File;
      TabFacts(s.extra);
      ghost var ic, sound := store.icache, Reading(s);
      if sound { StartEntry(s); }
      live, n, de := store.Ureadi(u, DIRENT * k, DIRENT);
      AddrsOnlyTrans(s.ic, ic, store.icache, u);
      GrowOk(ic, store.icache, fds, at, s.extra, u);
      TablesAre(s.extra);
      if sound {
        BackToReading(s);
        if k < |Entries(s.b)| { SliceEntry(s.b, k, de); }
      }
    }

    /** What Reading says without the heap. */
    static ghost predicate Dir(s: Scan) {
      && Shape(s.fs) && FilesOk(s.fs) && DirsOk(s.fs) && s.u in s.extra && s.u < |s.ic| && Loaded(s.ic[s.u])
      && s.ic[s.u].ino.kind == T_DIR
      && s.ic[s.u].inum < |s.fs.inodes| && FileOk(s.fs, s.ic[s.u].inum) && Contents(s.fs, s.ic[s.u].inum) == s.b
    }

    lemma StartEntry(s: Scan)
      requires Reading(s)
      ensures Dir(s) && store.Wf() && store.State() == s.fs && store.owner == s.own && store.icache == s.ic
      ensures store.File(s.u) == s.b
    {
      hide Store.Wf, Store.Tab, Ok, Held, DirsOk, Store.File;
      store.SlotFacts(s.u);
      store.WfShape();
      TabFacts(s.extra);
    }

    lemma BackToReading(s: Scan)
      requires Dir(s) && Tables(s.extra) && store.Wf()
      requires store.State() == s.fs && store.owner == s.own && store.icache == s.ic
      ensures Reading(s)
    {
      hide Tables, Store.Wf, DirsOk, Store.File, FileOk;
      store.SlotFacts(s.u);
    }

    /** Entry k, if it is live and has the name: its inode number, else 0. Not ok: the entry could not be read. */
    method Probe(u: nat, k: nat, name: Name, ghost s: Scan) returns (live: bool, ok: bool, inum: nat)
      requires Scanning(s) && s.u == u && DIRENT * k + DIRENT < WORDMAX && NoNul(name) && |name| < DIRSIZ
      modifies store
      ensures Scanning(s)
      ensures inum < SHORT && (live && ok ==> DIRENT * k + DIRENT <= MAXBYTES)
      ensures old(Reading(s)) ==> live && Reading(s)
      ensures old(Reading(s)) && k < |Entries(s.b)| ==>
                && ok
                && var e := Entries(s.b)[k];
                && inum == (if e.inum != 0 && e.name == name then e.inum else 0)
                && (inum != 0 ==> inum < |s.fs.inodes| && s.fs.inodes[inum].kind != 0)
    {
      hide Scanning, Reading, Entries, Trim;
      ghost var sound := Reading(s) && k < |Entries(s.b)|;
      var n, de;
      live, n, de := ReadEntry(u, k, s);
      if !live || n != DIRENT { return live, false, 0; }
      inum := de[0] as int + 256 * (de[1] as int);
      ok := true;
      if inum == 0 { return; }
      var eq := UnameCmp(name, de[2..]);
      if !eq { return live, true, 0; }
      if sound { InUse(s, k); }
    }

    /** The loop of dirlookup: the inode number of the first live entry with the name, or 0. */
    method FindEntry(u: nat, name: Name, ghost s: Scan) returns (live: bool, inum: nat)
      requires Scanning(s) && s.u == u && NoNul(name) && |name| < DIRSIZ
      modifies store
      ensures Scanning(s) && inum < SHORT
      ensures old(Reading(s)) ==> live && Reading(s)
      ensures old(Reading(s)) ==> Find(Entries(s.b), name, 0) == if inum == 0 then None else Some(inum)
      ensures old(Reading(s)) && inum != 0 ==> inum < |s.fs.inodes| && s.fs.inodes[inum].kind != 0
    {
      hide Scanning, Reading, Entries, Sound, Sought;
      ghost var sound := Reading(s);
      ScanSlot(s);
      if sound { DirSize(s, 0); }
      live, inum := true, 0;
      var k, ok := 0, true;
      while inum == 0 && ok && DIRENT * k < store.icache[u].ino.size
        invariant 0 <= k && DIRENT * k <= MAXBYTES && Scanning(s) && u < |store.icache| && inum < SHORT && live
        invariant sound ==> ok && Reading(s) && k <= |Entries(s.b)|
        invariant sound ==> (DIRENT * k < store.icache[u].ino.size <==> k < |Entries(s.b)|)
        invariant sound && inum == 0 ==> Find(Entries(s.b), name, k) == Find(Entries(s.b), name, 0)
        invariant sound && inum != 0 ==> Find(Entries(s.b), name, 0) == Some(inum)
        invariant sound && inum != 0 ==> inum < |s.fs.inodes| && s.fs.inodes[inum].kind != 0
        decreases inum == 0 && ok, MAXBYTES - DIRENT * k
      {
        live, ok, inum := Probe(u, k, name, s);
        ScanSlot(s);
        if !live { return false, 0; }
        k := k + 1;
        if sound { DirSize(s, k); }
        if !ok { return true, 0; }
      }
    }

    lemma ScanSlot(s: Scan)
      requires Scanning(s)
      ensures s.u < |store.icache| == NINODE && Loaded(store.icache[s.u]) && Tables(s.extra) && s.u in s.extra
      ensures AddrsOnly(s.ic, store.icache, s.u)
    {
      hide Store.Tab, Ok, Held;
      TabFacts(s.extra);
    }

    /** dirlookup: a reference to the inode of the first entry with the name. It is missed for want of a slot only when
        no slot is free and none has the inode. */
    method Dirlookup(u: nat, name: Name, ghost extra: multiset<nat>) returns (live: bool, r: Option<nat>)
      requires Tables(extra) && u in extra && u < |store.icache| && Loaded(store.icache[u])
      requires NoNul(name) && |name| < DIRSIZ
      modifies store
      ensures |store.icache| == |old(store.icache)| == NINODE && u < NINODE && Loaded(store.icache[u])
      ensures store.icache[u].inum == old(store.icache)[u].inum
      ensures store.icache[u].ino.kind == old(store.icache)[u].ino.kind
      ensures r.None? ==> Tables(extra) && AddrsOnly(old(store.icache), store.icache, u)
      ensures r.Some? ==> live && r.value < NINODE && Tables(extra + multiset{r.value}) && store.LetGo(r.value)
      ensures r.Some? ==> PlusOne(old(store.icache), store.icache, r.value)
      ensures old(Sound(extra)) ==> live && Looked(u, name, extra, r, old(store.icache), old(Sought(u, name)))
      ensures old(Sound(extra)) ==> store.State() == old(store.State()) && store.owner == old(store.owner)
    {
      hide Tables, Sound, Reading, Scanning, Store.Tab, Store.Wf, Ok, Held, Entries, Find, Looked, Store.File, Sought,
           Gettable, PlusOne, SameRefs;
      TabFacts(extra);
      ghost var sound := Sound(extra);
      ghost var s := Scan(u, extra, if sound then FileOf(u, extra) else [], store.State(), store.owner, store.icache);
      assert store.icache[u := store.icache[u]] == store.icache;
      if store.icache[u].ino.kind != T_DIR {
        if sound { NotDir(u, name, extra); }
        return true, None;
      }
      StartScan(s);
      if sound { StartReading(s); }
      var inum;
      live, inum := FindEntry(u, name, s);
      ScanSlot(s);
      if sound { StartEntry(s); }
      if !live || inum == 0 {
        if sound { LookedNone(s, name); }
        return live, None;
      }
      ghost var ic := store.icache;
      r := Get(inum, extra);
      AddrsRefs(s.ic, ic, u);
      if r.Some? {
        StillLoaded(ic, store.icache, r.value, inum, u);
        GotOne(s.ic, ic, store.icache, r.value, inum);
      }
      if sound { LookedUp(s, name, inum, r); }
    }

    /** The file in a slot of a sound file system. */
    ghost function FileOf(u: nat, extra: multiset<nat>): (b: seq<byte>)
      requires Sound(extra) && u < |store.icache| && Loaded(store.icache[u])
      reads this, store
      ensures store.Wf() && b == store.File(u)
    {
      store.File(u)
    }

    /** What dirlookup did in a sound file system: it found the entry, and a slot for it. */
    ghost predicate Looked(u: nat, name: Name, extra: multiset<nat>, r: Option<nat>, ic: seq<Uinode>,
                           sought: Option<nat>)
      reads this, store
    {
      && (r.Some? <==> sought.Some? && Gettable(ic, sought.value))
      && (r.None? ==> Sound(extra) && store.icache == ic)
      && (r.Some? ==> Sound(extra + multiset{r.value}) && Got(ic, store.icache, r.value, sought.value))
    }

    lemma NotDir(u: nat, name: Name, extra: multiset<nat>)
      requires Sound(extra) && u < |store.icache| && Loaded(store.icache[u]) && store.icache[u].ino.kind != T_DIR
      ensures Looked(u, name, extra, None, store.icache, Sought(u, name))
    {
      hide Tables, DirsOk;
      store.SlotFacts(u);
    }

    lemma StartScan(s: Scan)
      requires Tables(s.extra) && s.u in s.extra && s.ic == store.icache && s.u < |s.ic| && Loaded(s.ic[s.u])
      ensures Scanning(s)
    {
      assert store.icache[s.u := store.icache[s.u]] == store.icache;
    }

    lemma StartReading(s: Scan)
      requires Sound(s.extra) && s.u in s.extra && s.u < |store.icache| && Loaded(store.icache[s.u])
      requires store.icache[s.u].ino.kind == T_DIR && store.File(s.u) == s.b
      requires store.State() == s.fs && store.owner == s.own && store.icache == s.ic
      ensures Reading(s)
      ensures forall name {:trigger Sought(s.u, name)} :: Sought(s.u, name) == Find(Entries(s.b), name, 0)
    {
      DirSize(s, 0);
    }

    lemma LookedNone(s: Scan, name: Name)
      requires Reading(s) && Find(Entries(s.b), name, 0) == None
      ensures Looked(s.u, name, s.extra, None, s.ic, Find(Entries(s.b), name, 0))
    {
    }

    lemma LookedUp(s: Scan, name: Name, inum: nat, r: Option<nat>)
      requires Dir(s) && store.Wf() && Find(Entries(s.b), name, 0) == Some(inum)
      requires store.State() == s.fs && (r.Some? <==> Gettable(s.ic, inum))
      requires r.None? ==> Tables(s.extra) && store.icache == s.ic
      requires r.Some? ==> Tables(s.extra + multiset{r.value}) && Got(s.ic, store.icache, r.value, inum)
      ensures Looked(s.u, name, s.extra, r, s.ic, Find(Entries(s.b), name, 0))
    {
      hide Tables, Store.Wf, DirsOk, FileOk, Entries, Find, Gettable, Got;
    }

    /** The second loop of dirlink: the first free entry, or one past the last. Not ok: an entry could not be read, and
        the server exits. */
    method FreeEntry(u: nat, ghost s: Scan) returns (live: bool, ok: bool, k: nat)
      requires Scanning(s) && s.u == u
      modifies store
      ensures Scanning(s) && DIRENT * k <= MAXBYTES
      ensures old(Reading(s)) ==> live && ok && Reading(s)
      ensures old(Reading(s)) ==> k <= |Entries(s.b)| && (k < |Entries(s.b)| ==> Entries(s.b)[k].inum == 0)
      ensures old(Reading(s)) ==> forall j {:trigger Entries(s.b)[j]} :: 0 <= j < k ==> Entries(s.b)[j].inum != 0
    {
      hide Scanning, Reading, Entries, Sound, Sought;
      ghost var sound := Reading(s);
      ScanSlot(s);
      if sound { DirSize(s, 0); }
      live, ok, k := true, true, 0;
      var free := false;
      while !free && DIRENT * k < store.icache[u].ino.size
        invariant DIRENT * k <= MAXBYTES && Scanning(s) && u < |store.icache| && live && ok
        invariant sound ==> Reading(s) && k <= |Entries(s.b)|
        invariant sound ==> (DIRENT * k < store.icache[u].ino.size <==> k < |Entries(s.b)|)
        invariant sound && free ==> k < |Entries(s.b)| && Entries(s.b)[k].inum == 0
        invariant sound ==> forall j {:trigger Entries(s.b)[j]} :: 0 <= j < k ==> Entries(s.b)[j].inum != 0
        decreases !free, MAXBYTES - DIRENT * k
      {
        live, ok, free := IsFree(u, k, s);
        ScanSlot(s);
        if !live || !ok { return; }
        if !free { k := k + 1; }
        if sound { DirSize(s, k); }
      }
    }

    method IsFree(u: nat, k: nat, ghost s: Scan) returns (live: bool, ok: bool, free: bool)
      requires Scanning(s) && s.u == u && DIRENT * k + DIRENT < WORDMAX
      modifies store
      ensures Scanning(s)
      ensures live && ok ==> DIRENT * k + DIRENT <= MAXBYTES
      ensures old(Reading(s)) ==> live && Reading(s)
      ensures old(Reading(s)) && k < |Entries(s.b)| ==> ok && free == (Entries(s.b)[k].inum == 0)
    {
      hide Scanning, Reading, Entries, Trim;
      var n, de;
      live, n, de := ReadEntry(u, k, s);
      if !live || n != DIRENT { return live, false, false; }
      return true, true, de[0] == 0 && de[1] == 0;
    }

    /** The uwritei of dirlink. Not ok: the server exits. */
    method WriteEntry(u: nat, k: nat, de: seq<byte>, ghost s: Scan) returns (live: bool, ok: bool)
      requires Scanning(s) && s.u == u && |de| == DIRENT && DIRENT * k <= MAXBYTES
      modifies store
      ensures Tables(s.extra) && s.u in s.extra && SlotKept(old(store.icache), store.icache, u)
      ensures Loaded(store.icache[u])
      ensures store.icache[u].ino.kind == old(store.icache)[u].ino.kind
      ensures old(Reading(s)) && k <= |Entries(s.b)| && EntryOk(s.fs, EntryAt(de, 0)) ==>
                live && EntryWritten(s, k, de, ok) && (ok && old(store.NoLeak()) ==> store.NoLeak())
    {
      hide Tables, Scanning, Reading, Store.Tab, Store.Wf, Ok, Held, Entries, EntryAt, Store.File, EntryWritten, Dir,
           Store.Grown, Store.Failed, Store.Begun, Store.NoLeak, Store.Clean, Contents;
      ScanSlot(s);
      TabFacts(s.extra);
      ghost var ic, sound := store.icache, Reading(s) && k <= |Entries(s.b)| && EntryOk(s.fs, EntryAt(de, 0));
      if sound {
        DirSize(s, k);
        StartEntry(s);
      }
      var r;
      ghost var done;
      live, r, done := store.Uwritei(u, de, DIRENT * k);
      ok := r == DIRENT;
      GrowOk(ic, store.icache, fds, at, s.extra, u);
      TablesAre(s.extra);
      if sound { Linked(s, k, de, ok, done); }
    }

    /** What writing entry k did in a sound file system. */
    ghost predicate EntryWritten(s: Scan, k: nat, de: seq<byte>, ok: bool)
      reads this, store
    {
      && |de| == DIRENT && s.u < |s.ic| && s.u < |store.icache| && store.icache[s.u].inum == s.ic[s.u].inum
      && (!ok ==> (store.Full() || DIRENT * k + DIRENT > MAXBYTES) && k == |Entries(s.b)|)
      && (ok ==>
            && Sound(s.extra) && Loaded(store.icache[s.u]) && OtherFiles(s.fs, store.State(), s.ic[s.u].inum)
            && Entries(store.File(s.u)) == (if k < |Entries(s.b)| then Entries(s.b)[k := EntryAt(de, 0)]
                                            else Entries(s.b) + [EntryAt(de, 0)])
            && (OnDisk(store.l, s.fs.blocks, s.ic[s.u].inum) == s.ic[s.u].ino ==> store.Clean(s.u)))
    }

    lemma Linked(s: Scan, k: nat, de: seq<byte>, ok: bool, done: nat)
      requires Dir(s) && Tables(s.extra) && |de| == DIRENT && k <= |Entries(s.b)| && |s.b| == DIRENT * |Entries(s.b)|
      requires EntryOk(s.fs, EntryAt(de, 0)) && SlotKept(s.ic, store.icache, s.u)
      requires store.icache[s.u].ino.kind == s.ic[s.u].ino.kind
      requires ok ==> store.Grown(s.u, de, DIRENT * k, s.fs, s.ic)
      requires !ok ==> store.Failed(s.u, de, DIRENT * k, s.fs, s.ic, done)
      ensures EntryWritten(s, k, de, ok)
    {
      hide Tables, Entries, EntryAt, DirsOk, OtherFiles, Store.File, Splice, OnDisk, Store.Wf, Contents, FileOk,
           FilesOk, Shape, Store.Full, Store.Clean;
      SpliceEntry(s.b, k, de);
      if ok {
        store.SlotFacts(s.u);
        store.WfShape();
        SpliceSize(s.b, DIRENT * k, de);
        DirsAfterLink(s.fs, store.State(), s.ic[s.u].inum, k, EntryAt(de, 0));
      }
    }

    /** dirlink into the directory in slot u. -1: dirlookup found the name; None: the server exits. */
    method Dirlink(u: nat, name: Name, inum: nat, ghost extra: multiset<nat>)
      returns (live: bool, r: Option<int>, ghost k: nat)
      requires Tables(extra) && u in extra && u < |store.icache| && Loaded(store.icache[u])
      requires NoNul(name) && |name| < DIRSIZ && inum < SHORT
      modifies store
      ensures live && r.Some? ==> Tables(extra) && (r.value == -1 || r.value == 0)
      ensures live && r.Some? ==> SameRefs(old(store.icache), store.icache)
      ensures |store.icache| == |old(store.icache)| == NINODE && u < NINODE && Loaded(store.icache[u])
      ensures store.icache[u].inum == old(store.icache)[u].inum
      ensures old(LinksTo(u, inum, extra)) ==>
                live && DirLinked(u, name, inum, extra, r, k, old(store.icache), old(store.State()), old(store.File(u)))
      ensures old(LinksTo(u, inum, extra)) ==>
                var x := old(Sought(u, name));
                r == Some(-1) <==> x.Some? && Gettable(old(store.icache), x.value)
      ensures old(LinksTo(u, inum, extra)) && r == Some(-1) ==> store.owner == old(store.owner)
      ensures old(LinksTo(u, inum, extra)) && r.Some? && old(store.NoLeak()) ==> store.NoLeak()
      ensures old(LinksTo(u, inum, extra)) && r.Some? && old(store.LetGo(u)) ==> store.LetGo(u)
    {
      hide Tables, Sound, Store.Tab, Store.Wf, Ok, Held, Looked, Contents, FileOk, Sought, Gettable, LinksTo, DirLinked,
           PlusOne, SameRefs, Tight, Shape, LayoutOk, OnDisk;
      TabFacts(extra);
      k := 0;
      ghost var sound, ic, fs := LinksTo(u, inum, extra), store.icache, store.State();
      if sound { MayLink(u, inum, extra); }
      var ip;
      live, ip := Dirlookup(u, name, extra);
      if !live { return false, None, 0; }
      if ip.Some? {
        assert extra + multiset{ip.value} - multiset{ip.value} == extra;
        assert (extra + multiset{ip.value})[ip.value] > 0;
        if sound { LookedIs(u, name, extra, ip, ic, old(Sought(u, name))); }
        ghost var mid := store.icache;
        Put(ip.value, extra + multiset{ip.value});
        PutBack(ic, mid, store.icache, ip.value);
        TabFacts(extra);
        if sound { NotLinked(u, name, inum, extra, ip.value, mid, ic, fs, old(store.File(u))); }
        return true, Some(-1), 0;
      }
      if sound {
        LookedIs(u, name, extra, ip, ic, old(Sought(u, name)));
        StillLinks(u, inum, extra);
      }
      ghost var mid := store.icache;
      AddrsRefs(ic, mid, u);
      var ok;
      live, ok, k := AddEntry(u, name, inum, extra);
      AddrsRefs(mid, store.icache, u);
      SameRefsTrans(ic, mid, store.icache);
      r := if ok then Some(0) else None;
    }

    /** Slot u has a directory of a sound file system, and inum is in use. */
    ghost predicate LinksTo(u: nat, inum: nat, extra: multiset<nat>)
      reads this, store
    {
      && Sound(extra) && u < |store.icache| && Loaded(store.icache[u]) && store.icache[u].ino.kind == T_DIR
      && 0 < inum < |store.inodes| && store.inodes[inum].kind != 0
    }

    /** What dirlink did to the directory in slot u, whose bytes were b, of file system fs. */
    ghost predicate DirLinked(u: nat, name: Name, inum: nat, extra: multiset<nat>, r: Option<int>, k: nat,
                              ic: seq<Uinode>, fs: Fs, b: seq<byte>)
      reads this, store
    {
      && (r == Some(-1) ==> Sound(extra) && store.State() == fs && SameLive(ic, store.icache))
      && (r.None? ==> store.Full() || |b| + DIRENT > MAXBYTES)
      && (r == Some(0) ==>
            && Sound(extra) && SlotKept(ic, store.icache, u) && Loaded(store.icache[u])
            && OtherFiles(fs, store.State(), ic[u].inum)
            && LinkedTo(Entries(b), Entries(store.File(u)), k, Entry(inum, name)))
    }

    lemma MayLink(u: nat, inum: nat, extra: multiset<nat>)
      requires LinksTo(u, inum, extra)
      ensures Sound(extra) && store.Wf() && u < |store.icache| && Loaded(store.icache[u])
      ensures store.icache[u].ino.kind == T_DIR && 0 < inum < |store.inodes| && store.inodes[inum].kind != 0
    {
    }

    lemma StillLinks(u: nat, inum: nat, extra: multiset<nat>)
      requires Sound(extra) && u < |store.icache| && Loaded(store.icache[u]) && store.icache[u].ino.kind == T_DIR
      requires 0 < inum < |store.inodes| && store.inodes[inum].kind != 0
      ensures LinksTo(u, inum, extra)
    {
    }

    lemma LookedIs(u: nat, name: Name, extra: multiset<nat>, r: Option<nat>, ic: seq<Uinode>, sought: Option<nat>)
      requires Looked(u, name, extra, r, ic, sought)
      ensures r.Some? <==> sought.Some? && Gettable(ic, sought.value)
      ensures r.None? ==> Sound(extra) && store.Wf() && store.icache == ic
      ensures r.Some? ==> Sound(extra + multiset{r.value}) && store.Wf() && Got(ic, store.icache, r.value, sought.value)
    {
    }

    lemma NotLinked(u: nat, name: Name, inum: nat, extra: multiset<nat>, v: nat, mid: seq<Uinode>, ic: seq<Uinode>,
                    fs: Fs,
                    b: seq<byte>)
      requires Tables(extra) && store.Wf() && Shape(store.State()) && DirsOk(store.State()) && store.State() == fs
      requires |mid| == NINODE && v < NINODE && Got(ic, mid, v, mid[v].inum) && |store.icache| == NINODE
      requires store.icache == mid[v := Dropped(mid[v])]
      ensures DirLinked(u, name, inum, extra, Some(-1), 0, ic, fs, b)
      ensures u < NINODE && ic[u].ref > 0 ==> store.icache[u] == ic[u]
    {
      hide Tables, Store.Wf, DirsOk, Shape;
    }

    /** dirlink once the name was not found. */
    method AddEntry(u: nat, name: Name, inum: nat, ghost extra: multiset<nat>)
      returns (live: bool, ok: bool, ghost k: nat)
      requires Tables(extra) && u in extra && u < |store.icache| && Loaded(store.icache[u])
      requires NoNul(name) && |name| < DIRSIZ && inum < SHORT
      modifies store
      ensures Tables(extra) && |store.icache| == |old(store.icache)| == NINODE && u < NINODE
      ensures SlotKept(old(store.icache), store.icache, u) && Loaded(store.icache[u])
      ensures old(LinksTo(u, inum, extra)) ==>
                && live
                && DirLinked(u, name, inum, extra, if ok then Some(0) else None, k, old(store.icache),
                             old(store.State()), old(store.File(u)))
                && (ok && old(store.NoLeak()) ==> store.NoLeak()) && (ok && old(store.LetGo(u)) ==> store.LetGo(u))
    {
      hide Tables, Sound, Scanning, Reading, Store.Tab, Store.Wf, Ok, Held, Entries, EntryAt, Store.File, EntryWritten,
           LinksTo, DirLinked, Tight, Shape, LayoutOk, OnDisk, EntryOk;
      TabFacts(extra);
      ghost var sound, ic := LinksTo(u, inum, extra), store.icache;
      if sound { MayLink(u, inum, extra); }
      ghost var s := Scan(u, extra, if sound then FileOf(u, extra) else [], store.State(), store.owner, store.icache);
      StartScan(s);
      if sound { StartReading(s); }
      var free;
      live, ok, free := FreeEntry(u, s);
      k := free;
      ScanSlot(s);
      if !live || !ok { return live, false, k; }
      var de := MakeEntry(name, inum);
      if sound {
        DirSize(s, k);
        StartEntry(s);
        EntryIsOk(s.fs, inum, name);
      }
      ghost var mid := store.icache;
      live, ok := WriteEntry(u, free, de, s);
      SlotKeptTrans(ic, mid, store.icache, u);
      if sound { Added(s, name, inum, k, de, ok); }
    }

    lemma Added(s: Scan, name: Name, inum: nat, k: nat, de: seq<byte>, ok: bool)
      requires EntryWritten(s, k, de, ok) && SlotKept(s.ic, store.icache, s.u) && EntryAt(de, 0) == Entry(inum, name)
      requires k <= |Entries(s.b)| && (k < |Entries(s.b)| ==> Entries(s.b)[k].inum == 0) && Dir(s)
      requires |s.b| == DIRENT * |Entries(s.b)|
      ensures DirLinked(s.u, name, inum, s.extra, if ok then Some(0) else None, k, s.ic, s.fs, s.b)
      ensures ok ==> store.icache[s.u].ref == s.ic[s.u].ref && store.icache[s.u].valid == s.ic[s.u].valid
      ensures ok && OnDisk(store.l, s.fs.blocks, s.ic[s.u].inum) == s.ic[s.u].ino ==> store.Clean(s.u)
    {
      hide Sound, Entries, EntryAt, Store.File, OtherFiles, OnDisk, Store.Full, DirsOk, FileOk, Contents;
    }

    // -------------------------------------------------------------- paths

    lemma SoundIs(extra: multiset<nat>)
      requires Tables(extra) && store.Wf() && DirsOk(store.State())
      ensures Sound(extra)
    {
    }

    lemma SoundFacts(extra: multiset<nat>)
      requires Sound(extra)
      ensures Valid(extra) && Tables(extra) && store.Wf() && Shape(store.State()) && FilesOk(store.State())
      ensures DirsOk(store.State())
      ensures ROOTINO < |store.inodes| == store.l.ninodes <= SHORT && store.inodes[ROOTINO].kind == T_DIR
      ensures |store.icache| == NINODE && DistinctInums(store.icache)
    {
      store.WfShape();
    }

    /** namei is at slot u, on file system fs; it began with the inode slots ic. */
    ghost predicate At(u: nat, fs: Fs, own: map<nat, Owner>, ic: seq<Uinode>)
      reads this, store
    {
      && Sound(multiset{u}) && u < |store.icache| && store.LetGo(u) && store.icache[u].inum < |fs.inodes|
      && store.State() == fs && store.owner == own && PlusOne(ic, store.icache, u) && Shape(fs) && FilesOk(fs)
    }

    /** What one turn of namei's loop did, from inode i: it went on to the inode that the directory has for the name,
        exactly if there is one and a slot for it. */
    ghost predicate Stepped(i: nat, name: Name, r: Option<nat>, fs: Fs, own: map<nat, Owner>, ic: seq<Uinode>)
      reads this, store
    {
      && store.State() == fs && store.owner == own && Shape(fs) && i < |fs.inodes| && FileOk(fs, i)
      && var x := Lookup(fs, i, name);
      && (r.Some? <==> x.Some? && SlotFor(ic, i, x.value))
      && (r.None? ==> Sound(multiset{}) && SameRefs(ic, store.icache))
      && (r.Some? ==> At(r.value, fs, own, ic) && store.icache[r.value].inum == x.value)
    }

    lemma AtIs(u: nat, fs: Fs, own: map<nat, Owner>, ic: seq<Uinode>)
      requires At(u, fs, own, ic)
      ensures Sound(multiset{u}) && Tables(multiset{u}) && store.Wf() && DirsOk(fs) && u < |store.icache| == NINODE
      ensures store.LetGo(u) && store.icache[u].inum < |fs.inodes| && store.State() == fs && store.owner == own
      ensures PlusOne(ic, store.icache, u) && DistinctInums(store.icache) && Shape(fs) && FilesOk(fs)
    {
      SoundFacts(multiset{u});
    }

    /** One turn of the loop of namei, at the inode in slot ip. */
    method Descend(ip: nat, name: Name, ghost fs: Fs, ghost own: map<nat, Owner>, ghost ic: seq<Uinode>)
      returns (live: bool, r: Option<nat>)
      requires Tables(multiset{ip}) && NoNul(name) && |name| < DIRSIZ && ip < |store.icache|
      modifies store
      ensures live ==> Tables(if r.Some? then multiset{r.value} else multiset{})
      ensures live && r.Some? ==> r.value < |store.icache|
      ensures old(At(ip, fs, own, ic)) ==> live && Stepped(old(store.icache)[ip].inum, name, r, fs, own, ic)
    {
      hide Tables, Sound, Store.Tab, Store.Wf, Ok, Held, DirsOk, Looked, At, Stepped, Gettable, Sought, PlusOne, Shape,
           FileOk, FilesOk, DistinctInums, OnDisk;
      ghost var one, sound, i := multiset{ip}, At(ip, fs, own, ic), store.icache[ip].inum;
      assert one - one == multiset{} && ip in one;
      if sound { AtIs(ip, fs, own, ic); }
      ghost var ic0 := store.icache;
      live := Lock(ip, one);
      if !live { return false, None; }
      ghost var ic1, sought := store.icache, None;
      if sound {
        SoundIs(one);
        SoughtIs(ip, name);
        sought := Sought(ip, name);
        LockedOne(ic, ic0, ic1, ip);
      }
      live, r := Dirlookup(ip, name, one);
      if !live { return false, None; }
      ghost var mid := store.icache;
      if r.None? {
        if sound { LookedIs(ip, name, one, r, ic1, sought); }
        Put(ip, one);
        if sound { SteppedNone(i, ip, name, fs, own, ic, ic1); }
        return;
      }
      if sound { LookedIs(ip, name, one, r, ic1, sought); }
      assert one + multiset{r.value} - one == multiset{r.value} && ip in one + multiset{r.value};
      Put(ip, one + multiset{r.value});
      TabFacts(multiset{r.value});
      assert multiset{r.value}[r.value] > 0;
      if sound { SteppedOn(i, ip, name, r.value, fs, own, ic, ic1, mid); }
    }

    lemma SoughtIs(u: nat, name: Name)
      requires store.Wf() && u < |store.icache| && Loaded(store.icache[u])
      ensures Shape(store.State()) && store.icache[u].inum < |store.inodes|
      ensures FileOk(store.State(), store.icache[u].inum)
      ensures Sought(u, name) == Lookup(store.State(), store.icache[u].inum, name)
    {
      store.SlotFacts(u);
    }

    lemma SteppedNone(i: nat, ip: nat, name: Name, fs: Fs, own: map<nat, Owner>, ic: seq<Uinode>, ic1: seq<Uinode>)
      requires Tables(multiset{}) && store.Wf() && Shape(fs) && DirsOk(fs) && store.State() == fs && store.owner == own
      requires i < |fs.inodes| && FileOk(fs, i) && PlusOne(ic, ic1, ip) && DistinctInums(ic1) && ic1[ip].inum == i
      requires |ic1| == NINODE && ip < NINODE
      requires store.icache == ic1[ip := Dropped(ic1[ip])]
      requires var x := Lookup(fs, i, name); !(x.Some? && Gettable(ic1, x.value))
      ensures Stepped(i, name, None, fs, own, ic)
    {
      hide Tables, Store.Wf, DirsOk, Gettable, SlotFor, DistinctInums, Lookup;
      var x := Lookup(fs, i, name);
      if x.Some? { SlotForIs(ic, ic1, ip, x.value); }
      PutBack(ic, ic1, store.icache, ip);
    }

    lemma SteppedOn(i: nat, ip: nat, name: Name, next: nat, fs: Fs, own: map<nat, Owner>, ic: seq<Uinode>,
                    ic1: seq<Uinode>, mid: seq<Uinode>)
      requires Tables(multiset{next}) && store.Wf() && Shape(fs) && DirsOk(fs) && store.State() == fs
      requires store.owner == own
      requires i < |fs.inodes| && FileOk(fs, i) && PlusOne(ic, ic1, ip) && DistinctInums(ic1) && ic1[ip].inum == i
      requires |ic1| == |mid| == |store.icache| == NINODE && ip < NINODE && next < NINODE
      requires var x := Lookup(fs, i, name); x.Some? && Gettable(ic1, x.value) && Got(ic1, mid, next, x.value)
      requires store.icache == mid[ip := Dropped(mid[ip])]
      requires Let(store.l, store.disk, ic1[ip]) && Let(store.l, store.disk, mid[next])
      ensures Stepped(i, name, Some(next), fs, own, ic)
    {
      hide Tables, Store.Wf, DirsOk, Gettable, SlotFor, DistinctInums, Lookup, OnDisk;
      var x := Lookup(fs, i, name).value;
      SlotForIs(ic, ic1, ip, x);
      AddrsRefs(ic1, ic1, ip);
      GotOne(ic1, ic1, mid, next, x);
      LeftFor(ic, ic1, mid, store.icache, ip, next);
      LeftSlot(ic1, mid, store.icache, ip, next, x);
      SlotInUse(next);
      store.WfShape();
    }

    lemma SlotInUse(u: nat)
      requires Tables(multiset{u}) && store.Wf()
      ensures u < |store.icache| && store.icache[u].inum < |store.inodes|
    {
      OkFacts(store.icache, fds, at, multiset{u});
      assert multiset{u}[u] > 0;
      CacheFacts(store.l, store.disk, store.icache, store.inodes);
    }

    /** One component c of a path, with the components cs still to follow. */
    method Component(u: nat, c: Name, ghost fs: Fs, ghost own: map<nat, Owner>, ghost ic: seq<Uinode>,
                     ghost cs: seq<Name>, ghost rest: seq<Name>)
      returns (live: bool, r: Option<nat>)
      requires Tables(multiset{u}) && u < |store.icache| && NoNul(c) && cs == [c] + rest
      modifies store
      ensures live ==> Tables(if r.Some? then multiset{r.value} else multiset{})
      ensures live && r.Some? ==> r.value < |store.icache|
      ensures old(At(u, fs, own, ic)) ==> live && Followed(old(store.icache)[u].inum, cs, rest, r, fs, own, ic)
    {
      hide Tables, Sound, At, Stepped, Followed, FilesOk, Shape;
      ghost var i, sound := store.icache[u].inum, At(u, fs, own, ic);
      if sound { AtIs(u, fs, own, ic); }
      live, r := Descend(u, Shorten(c), fs, own, ic);
      if sound { FollowedIs(i, c, cs, rest, r, fs, own, ic); }
    }

    /** What following one component did: it leads on, or there is no such path for the slots. */
    ghost predicate Followed(i: nat, cs: seq<Name>, rest: seq<Name>, r: Option<nat>, fs: Fs, own: map<nat, Owner>,
                             ic: seq<Uinode>)
      reads this, store
    {
      && Shape(fs) && FilesOk(fs) && i < |fs.inodes|
      && (r.None? ==> WalkIn(fs, ic, i, cs).None? && Sound(multiset{}) && SameRefs(ic, store.icache))
      && (r.None? ==> store.State() == fs && store.owner == own)
      && (r.Some? ==>
            && At(r.value, fs, own, ic)
            && WalkIn(fs, ic, i, cs) == WalkIn(fs, ic, store.icache[r.value].inum, rest))
    }

    lemma FollowedIs(i: nat, c: Name, cs: seq<Name>, rest: seq<Name>, r: Option<nat>, fs: Fs, own: map<nat, Owner>,
                     ic: seq<Uinode>)
      requires Stepped(i, Shorten(c), r, fs, own, ic) && cs == [c] + rest && Shape(fs) && FilesOk(fs)
      ensures Followed(i, cs, rest, r, fs, own, ic)
    {
      hide Sound, Store.LetGo, SlotFor, FilesOk, Shape, SameRefs, PlusOne, Lookup;
      WalkStep(fs, ic, i, cs, c, rest);
    }

    /** The loop of namei. */
    method Follow(u0: nat, path: Name, p0: nat, ghost fs: Fs, ghost own: map<nat, Owner>, ghost ic: seq<Uinode>)
      returns (r: Named)
      requires NoNul(path) && p0 <= |path| && (p0 < |path| ==> path[p0] != Path.SLASH)
      requires Tables(multiset{u0}) && u0 < |store.icache|
      modifies store
      ensures !r.Fault? && (r.Missing? ==> Tables(multiset{}))
      ensures r.Found? ==> Tables(multiset{r.u}) && r.u < |store.icache|
      ensures old(At(u0, fs, own, ic)) ==>
                Walked(old(store.icache)[u0].inum, Path.Components(path[p0..]), r, fs, own, ic)
    {
      hide Path.Components, WalkIn, Shape, FilesOk, At, Sound, Tables, Followed, Walked;
      ghost var sound, cs, i0 := At(u0, fs, own, ic), Path.Components(path[p0..]), store.icache[u0].inum;
      if sound { AtIs(u0, fs, own, ic); }
      var u: nat, p: nat := u0, p0;
      while p < |path|
        invariant 0 <= p <= |path| && (p < |path| ==> path[p] != Path.SLASH)
        invariant Tables(multiset{u}) && u < |store.icache|
        invariant sound ==> Shape(fs) && FilesOk(fs) && i0 < |fs.inodes|
        invariant sound ==> At(u, fs, own, ic) && store.icache[u].inum < |fs.inodes|
        invariant sound ==> WalkIn(fs, ic, i0, cs) == WalkIn(fs, ic, store.icache[u].inum, Path.Components(path[p..]))
      {
        var e := Path.ScanWord(path, p);
        var q := Path.SkipSlashes(path, e);
        ghost var i := store.icache[u].inum;
        var live, ip := Component(u, path[p..e], fs, own, ic, Path.Components(path[p..]), Path.Components(path[q..]));
        if !live { return Dead; }
        if sound { WentOn(i, i0, cs, Path.Components(path[p..]), Path.Components(path[q..]), ip, fs, own, ic); }
        if ip.None? { return Missing; }
        u, p := ip.value, q;
      }
      if sound { Arrived(u, i0, cs, path, p, fs, own, ic); }
      return Found(u);
    }

    /** What namei's loop did from inode i: it found what the path leads to, as far as there are slots. */
    ghost predicate Walked(i: nat, cs: seq<Name>, r: Named, fs: Fs, own: map<nat, Owner>, ic: seq<Uinode>)
      reads this, store
    {
      && Shape(fs) && FilesOk(fs) && i < |fs.inodes|
      && store.State() == fs && store.owner == own && (r.Found? || r.Missing?)
      && (r.Found? ==> At(r.u, fs, own, ic) && WalkIn(fs, ic, i, cs) == Some(store.icache[r.u].inum))
      && (r.Missing? ==> WalkIn(fs, ic, i, cs).None? && Sound(multiset{}) && SameRefs(ic, store.icache))
    }

    lemma WentOn(i: nat, i0: nat, cs0: seq<Name>, cs: seq<Name>, rest: seq<Name>, r: Option<nat>, fs: Fs,
                 own: map<nat, Owner>, ic: seq<Uinode>)
      requires Followed(i, cs, rest, r, fs, own, ic) && i0 < |fs.inodes|
      requires WalkIn(fs, ic, i0, cs0) == WalkIn(fs, ic, i, cs)
      ensures r.None? ==> Walked(i0, cs0, Missing, fs, own, ic)
      ensures r.Some? ==> At(r.value, fs, own, ic) && FilesOk(fs)
      ensures r.Some? ==> r.value < |store.icache| && store.icache[r.value].inum < |fs.inodes|
      ensures r.Some? ==> WalkIn(fs, ic, i0, cs0) == WalkIn(fs, ic, store.icache[r.value].inum, rest)
    {
      hide WalkIn, Shape, FilesOk, Sound;
    }

    lemma Arrived(u: nat, i0: nat, cs: seq<Name>, path: Name, p: nat, fs: Fs, own: map<nat, Owner>, ic: seq<Uinode>)
      requires Shape(fs) && FilesOk(fs) && At(u, fs, own, ic) && i0 < |fs.inodes| && p == |path|
      requires WalkIn(fs, ic, i0, cs) == WalkIn(fs, ic, store.icache[u].inum, Path.Components(path[p..]))
      ensures Walked(i0, cs, Found(u), fs, own, ic)
    {
      hide Shape, FilesOk, Sound;
      assert path[p..] == [];
      Path.NoComponents();
    }

    /** namei. It faults exactly if uiget has no slot for the root and the path has a component. In a sound file system
        nothing else changes, and it finds exactly the paths that the directories have and that there are slots for. */
    method Namei(path: Name) returns (r: Named)
      requires Tables(multiset{}) && NoNul(path)
      modifies store
      ensures r.Fault? <==> !Gettable(old(store.icache), ROOTINO) && Path.Components(path) != []
      ensures r.Missing? || r.Fault? ==> Tables(multiset{})
      ensures r.Found? ==> Tables(multiset{r.u}) && r.u < |store.icache|
      ensures old(Sound(multiset{})) ==>
                Resolved(Path.Components(path), r, old(store.State()), old(store.owner), old(store.icache))
    {
      hide Path.Components, WalkIn, Shape, FilesOk, DirsOk, At, Sound, Tables, Walked, Resolved, Gettable,
           DistinctInums, Store.Wf, LayoutOk, Ok, Held;
      ghost var sound, fs, own, ic := Sound(multiset{}), store.State(), store.owner, store.icache;
      TabFacts(multiset{});
      if sound { SoundFacts(multiset{}); }
      var ip := Get(ROOTINO, multiset{});
      var p := Path.SkipSlashes(path, 0);
      assert path[0..] == path;
      Path.AtEnd(path, p);
      if ip.None? {
        if sound { NoRoot(p == |path|, path, fs, own, ic); }
        return if p == |path| then Missing else Fault;
      }
      assert multiset{} + multiset{ip.value} == multiset{ip.value};
      if sound { StartAt(ip.value, fs, own, ic); }
      r := Follow(ip.value, path, p, fs, own, ic);
      if sound { IsResolved(path, r, fs, own, ic); }
    }

    /** What namei did in a sound file system. */
    ghost predicate Resolved(cs: seq<Name>, r: Named, fs: Fs, own: map<nat, Owner>, ic: seq<Uinode>)
      reads this, store
    {
      && Shape(fs) && FilesOk(fs) && DirsOk(fs) && store.State() == fs && store.owner == own && !r.Dead?
      && (r.Found? <==> Gettable(ic, ROOTINO) && WalkIn(fs, ic, ROOTINO, cs).Some?)
      && (r.Found? ==> At(r.u, fs, own, ic) && WalkIn(fs, ic, ROOTINO, cs) == Some(store.icache[r.u].inum))
      && (r.Missing? || r.Fault? ==> Sound(multiset{}) && SameRefs(ic, store.icache))
    }

    lemma NoRoot(end: bool, path: Name, fs: Fs, own: map<nat, Owner>, ic: seq<Uinode>)
      requires Tables(multiset{}) && store.Wf() && Shape(fs) && FilesOk(fs) && DirsOk(fs) && !Gettable(ic, ROOTINO)
      requires store.State() == fs && store.owner == own && store.icache == ic
      ensures Resolved(Path.Components(path), if end then Missing else Fault, fs, own, ic)
    {
      hide Tables, Store.Wf, Gettable, FilesOk, Shape, WalkIn, Path.Components;
    }

    lemma StartAt(u: nat, fs: Fs, own: map<nat, Owner>, ic: seq<Uinode>)
      requires Tables(multiset{u}) && store.Wf() && Shape(fs) && FilesOk(fs) && DirsOk(fs)
      requires store.State() == fs && store.owner == own && u < |store.icache| && store.LetGo(u)
      requires Got(ic, store.icache, u, ROOTINO)
      ensures At(u, fs, own, ic) && store.icache[u].inum == ROOTINO
    {
      hide Tables, Store.Wf, Shape, FilesOk, OnDisk;
    }

    lemma IsResolved(path: Name, r: Named, fs: Fs, own: map<nat, Owner>, ic: seq<Uinode>)
      requires Walked(ROOTINO, Path.Components(path), r, fs, own, ic) && Gettable(ic, ROOTINO) && DirsOk(fs)
      ensures Resolved(Path.Components(path), r, fs, own, ic)
    {
      hide Sound, Gettable, DirsOk, FilesOk, Shape, WalkIn, Path.Components, At;
    }

    // -------------------------------------------------------------- creating a file

    /** The name that OPEN creates: the first component of the path, whatever follows it. */
    method FirstName(path: Name) returns (name: Name)
      requires NoNul(path)
      ensures NoNul(name) && |name| < DIRSIZ
      ensures name == CreatedName(path)
    {
      hide Path.Components;
      var p := Path.SkipSlashes(path, 0);
      assert path[0..] == path;
      Path.AtEnd(path, p);
      if p == |path| { return []; }
      var e := Path.ScanWord(path, p);
      return Shorten(path[p..e]);
    }

    /** ialloc. */
    method NewInode(ghost extra: multiset<nat>) returns (r: Option<nat>, ghost inum: nat)
      requires Tables(extra)
      modifies store
      ensures |store.icache| == |old(store.icache)| == NINODE && inum < SHORT
      ensures r.None? ==> Tables(extra) && store.icache == old(store.icache)
      ensures r.None? && inum != 0 ==> !Gettable(store.icache, inum)
      ensures r.Some? ==> Tables(extra + multiset{r.value}) && Got(old(store.icache), store.icache, r.value, inum)
      ensures r.Some? ==> inum != 0 && (old(Sound(extra)) ==> old(store.icache)[r.value].ref == 0)
      ensures old(Sound(extra)) ==>
                && Sound(if r.Some? then extra + multiset{r.value} else extra)
                && Taken(old(store.State()), store.State(), inum, NewFile(0))
                && (old(store.NoLeak()) ==> store.NoLeak())
      ensures old(Sound(extra)) ==>
                forall k: nat {:trigger OnDisk(store.l, store.disk, k)} :: k < store.l.ninodes && k != inum ==>
                  OnDisk(store.l, store.disk, k) == OnDisk(store.l, old(store.disk), k)
    {
      hide Tables, Sound, Store.Tab, Store.Wf, Ok, DirsOk, Held, SameBlocks, FilesOk, OnDisk, Shape, Tight, Gettable,
           Taken, Allocated;
      TabFacts(extra);
      ghost var sound, fs := Sound(extra), store.State();
      if sound { SoundFacts(extra); }
      r, inum := store.Ialloc(T_FILE);
      GettableIs(store.icache, inum);
      if r.Some? { GetOk(old(store.icache), fds, at, extra, r.value, store.icache[r.value]); }
      ghost var more := if r.Some? then extra + multiset{r.value} else extra;
      TablesAre(more);
      if sound {
        store.WfShape();
        IsAllocated(fs, store.State(), inum);
        SoundIs(more);
      }
    }

    /** The link count of a loaded inode is set, and uiupdate writes it out. */
    method SetNlink(u: nat, nlink: nat, ghost extra: multiset<nat>) returns (live: bool)
      requires Tables(extra) && u in extra && u < |store.icache| && Loaded(store.icache[u]) && nlink < SHORT
      modifies store
      ensures Tables(extra) && |store.icache| == |old(store.icache)|
      ensures var x := old(store.icache)[u]; store.icache == old(store.icache)[u := x.(ino := x.ino.(nlink := nlink))]
      ensures old(Sound(extra)) ==>
                && live && Sound(extra) && store.Clean(u) && SameBlocks(old(store.State()), store.State())
                && (old(store.NoLeak()) ==> store.NoLeak())
                && var x := old(store.icache)[u];
                   x.inum < |old(store.inodes)| && store.inodes == old(store.inodes)[x.inum := x.ino.(nlink := nlink)]
      ensures old(Sound(extra)) ==>
                forall k: nat {:trigger OnDisk(store.l, store.disk, k)} ::
                  k < store.l.ninodes && k != old(store.icache)[u].inum ==>
                  OnDisk(store.l, store.disk, k) == OnDisk(store.l, old(store.disk), k)
    {
      hide Tables, Sound, Store.Tab, Store.Wf, Ok, DirsOk, Held, SameBlocks, FilesOk, OnDisk, Shape, Tight, Covers,
           Store.MayUpdate, Encodable;
      TabFacts(extra);
      ghost var sound, fs, ic := Sound(extra), store.State(), store.icache;
      var ino := store.icache[u].ino.(nlink := nlink);
      StillEncodable(u, nlink);
      if sound {
        SoundFacts(extra);
        MayRelink(u, ino);
      }
      live := store.Uiupdate(u, ino);
      GrowOk(ic, store.icache, fds, at, extra, u);
      TablesAre(extra);
      if sound {
        store.WfShape();
        SameAfterUpdate(fs, store.State(), ic[u].inum, ino);
        SoundIs(extra);
      }
    }

    lemma StillEncodable(u: nat, nlink: nat)
      requires store.Tab() && u < |store.icache| && Loaded(store.icache[u]) && nlink < SHORT
      ensures Encodable(store.icache[u].ino.(nlink := nlink))
    {
    }

    lemma MayRelink(u: nat, ino: Inode)
      requires store.Wf() && u < |store.icache| && Loaded(store.icache[u]) && Encodable(ino)
      requires ino == store.icache[u].ino.(nlink := ino.nlink)
      ensures store.MayUpdate(u, ino) && store.icache[u].inum < |store.inodes|
      ensures store.inodes[store.icache[u].inum] == store.icache[u].ino
    {
      store.SlotFacts(u);
      CoversSize(store.State(), store.icache[u].inum);
    }

    /** The new inode inum in slot ip, with nlink links, and the root directory in slot dp are held, on a file system
        that was fs, with slots ic, and ic1 when dp was held alone. */
    ghost predicate Making(dp: nat, ip: nat, fs: Fs, inum: nat, nlink: nat, ic: seq<Uinode>, ic1: seq<Uinode>)
      reads this, store
    {
      && Sound(multiset{dp} + multiset{ip}) && BothHeld(dp, ip, inum, ic, ic1, store.icache) && store.LetGo(dp)
      && Taken(fs, store.State(), inum, NewFile(nlink)) && RootDir(fs)
    }

    lemma MakingIs(dp: nat, ip: nat, fs: Fs, inum: nat, nlink: nat, ic: seq<Uinode>, ic1: seq<Uinode>)
      requires Making(dp, ip, fs, inum, nlink, ic, ic1)
      ensures Sound(multiset{dp} + multiset{ip}) && store.Wf() && BothHeld(dp, ip, inum, ic, ic1, store.icache)
      ensures Taken(fs, store.State(), inum, NewFile(nlink)) && RootDir(fs) && dp < |store.icache| && store.LetGo(dp)
      ensures inum < |store.inodes| == store.l.ninodes && store.inodes[inum] == NewFile(nlink)
      ensures ROOTINO < store.l.ninodes && ip < |store.icache| && |store.icache| == NINODE
      ensures Shape(store.State()) && DirsOk(store.State()) && store.icache[ip].inum == inum
    {
      hide Tables, Store.Wf, DirsOk, OnDisk, PlusOne, SlotFor;
      SoundFacts(multiset{dp} + multiset{ip});
      IsTaken(fs, store.State(), inum, NewFile(nlink));
    }

    /** What creating a file came to in a sound file system fs, with slots ic. */
    ghost predicate Made(r: Created, inum: nat, k: nat, name: Name, fs: Fs, ic: seq<Uinode>)
      reads this, store
    {
      && !r.Halts? && RootDir(fs)
      && (r.Failed? ==> Sound(multiset{}) && SameRefs(ic, store.icache))
      && (r.Failed? ==>
            || (store.State() == fs && !Gettable(ic, ROOTINO))
            || (Taken(fs, store.State(), inum, NewFile(0)) && NoRoom(fs, ic, inum, name)))
      && (r.New? ==>
            && Sound(multiset{r.u}) && r.u < |store.icache| && store.LetGo(r.u) && store.icache[r.u].inum == inum
            && IsCreated(fs, store.State(), inum, name, k)
            && PlusOne(ic, store.icache, r.u) && SlotFor(ic, ROOTINO, inum))
      && (r.Exits? ==> store.Full() || fs.inodes[ROOTINO].size + DIRENT > MAXBYTES)
    }

    /** The creating branch of OPEN. In a sound file system it links a new file into the root directory under the first
        name of the path; the server exits only when the disk or the directory is full. */
    method Create(path: Name) returns (r: Created, ghost inum: nat, ghost k: nat)
      requires Tables(multiset{}) && NoNul(path)
      modifies store
      ensures r.Failed? ==> Tables(multiset{})
      ensures r.New? ==> Tables(multiset{r.u}) && r.u < |store.icache|
      ensures old(Sound(multiset{})) ==>
                && Made(r, inum, k, CreatedName(path), old(store.State()), old(store.icache))
                && (!r.Exits? && old(store.NoLeak()) ==> store.NoLeak())
    {
      hide Tables, Sound, Store.Tab, Store.Wf, Ok, DirsOk, Held, FilesOk, Shape, Tight, Path.Components, Made, Gettable,
           CreatedName, RootDir, OnDisk, DistinctInums;
      ghost var sound, ic := Sound(multiset{}), store.icache;
      TabFacts(multiset{});
      if sound { SoundFacts(multiset{}); }
      var name := FirstName(path);
      ghost var fs, own := store.State(), store.owner;
      var dp := Get(ROOTINO, multiset{});
      if dp.None? {
        if sound { NotMade(name, fs, ic); }
        return Failed, 0, 0;
      }
      assert multiset{} + multiset{dp.value} == multiset{dp.value};
      if sound { StartAt(dp.value, fs, own, ic); }
      r, inum, k := CreateIn(dp.value, name, fs, own, ic);
    }

    lemma NotMade(name: Name, fs: Fs, ic: seq<Uinode>)
      requires Tables(multiset{}) && store.Wf() && Shape(fs) && FilesOk(fs) && DirsOk(fs) && !Gettable(ic, ROOTINO)
      requires store.State() == fs && store.icache == ic
      ensures Made(Failed, 0, 0, name, fs, ic)
    {
      hide Tables, Store.Wf, Gettable, FilesOk, Shape;
    }

    /** uilock of the root in slot dp, ialloc, and what follows. */
    method CreateIn(dp: nat, name: Name, ghost fs: Fs, ghost own: map<nat, Owner>, ghost ic: seq<Uinode>)
      returns (r: Created, ghost inum: nat, ghost k: nat)
      requires Tables(multiset{dp}) && dp < |store.icache| && store.icache[dp].inum == ROOTINO
      requires NoNul(name) && |name| < DIRSIZ
      modifies store
      ensures r.Failed? ==> Tables(multiset{})
      ensures r.New? ==> Tables(multiset{r.u}) && r.u < |store.icache|
      ensures old(At(dp, fs, own, ic)) ==>
                Made(r, inum, k, name, fs, ic) && (!r.Exits? && old(store.NoLeak()) ==> store.NoLeak())
    {
      hide Tables, Sound, Store.Tab, Store.Wf, Ok, DirsOk, Held, FilesOk, Shape, Tight, Made, Making, At, Taken, OnDisk,
           PlusOne, Gettable, DistinctInums;
      ghost var sound, d, ic0 := At(dp, fs, own, ic), multiset{dp}, store.icache;
      assert dp in d && d - d == multiset{};
      if sound { AtIs(dp, fs, own, ic); }
      var live := Lock(dp, d);
      if !live { return Halts, 0, 0; }
      ghost var ic1, disk := store.icache, store.disk;
      if sound {
        SoundIs(d);
        SoundFacts(d);
        LockedOne(ic, ic0, ic1, dp);
      }
      var ip;
      ip, inum := NewInode(d);
      if ip.None? {
        if sound {
          NoInode(dp, inum, fs, ic1, disk);
          NoSlotLeft(dp, inum, fs, ic, ic1, name);
        }
        ghost var mid := store.icache;
        Put(dp, d);
        if sound { NoneMade(dp, inum, name, 0, fs, ic, mid); }
        return Failed, inum, 0;
      }
      if sound { StartMaking(dp, ip.value, fs, inum, ic, ic1, disk); }
      StillLoaded(ic1, store.icache, ip.value, inum, dp);
      r, k := LinkNew(dp, ip.value, name, fs, inum, ic, ic1);
    }

    lemma NoInode(dp: nat, inum: nat, fs: Fs, ic1: seq<Uinode>, disk: seq<Block>)
      requires Sound(multiset{dp}) && Taken(fs, store.State(), inum, NewFile(0)) && RootDir(fs) && store.icache == ic1
      requires dp < |ic1| && ic1[dp].inum == ROOTINO && Let(store.l, disk, ic1[dp])
      requires forall k: nat {:trigger OnDisk(store.l, store.disk, k)} :: k < store.l.ninodes && k != inum ==>
                 OnDisk(store.l, store.disk, k) == OnDisk(store.l, disk, k)
      ensures store.LetGo(dp) && store.Wf()
    {
      hide Tables, Store.Wf, DirsOk, OnDisk;
      SoundFacts(multiset{dp});
      NotRoot(fs, store.State(), inum, NewFile(0));
    }

    lemma NoSlotLeft(dp: nat, inum: nat, fs: Fs, ic: seq<Uinode>, ic1: seq<Uinode>, name: Name)
      requires RootDir(fs) && PlusOne(ic, ic1, dp) && DistinctInums(ic1) && ic1[dp].inum == ROOTINO
      requires inum != 0 ==> !Gettable(ic1, inum)
      ensures NoRoom(fs, ic, inum, name)
    {
      hide RootDir, PlusOne, DistinctInums, SlotFor, Gettable, Lookup;
      SlotForIs(ic, ic1, dp, inum);
    }

    lemma StartMaking(dp: nat, ip: nat, fs: Fs, inum: nat, ic: seq<Uinode>, ic1: seq<Uinode>, disk: seq<Block>)
      requires Sound(multiset{dp} + multiset{ip}) && Taken(fs, store.State(), inum, NewFile(0)) && RootDir(fs)
      requires inum != 0
      requires dp < |ic1| && Loaded(ic1[dp]) && ic1[dp].inum == ROOTINO && Let(store.l, disk, ic1[dp]) && inum < SHORT
      requires PlusOne(ic, ic1, dp) && DistinctInums(ic1) && Got(ic1, store.icache, ip, inum) && ic1[ip].ref == 0
      requires forall k: nat {:trigger OnDisk(store.l, store.disk, k)} :: k < store.l.ninodes && k != inum ==>
                 OnDisk(store.l, store.disk, k) == OnDisk(store.l, disk, k)
      ensures Making(dp, ip, fs, inum, 0, ic, ic1)
    {
      hide Tables, Store.Wf, DirsOk, OnDisk, DistinctInums, SlotFor;
      SoundFacts(multiset{dp} + multiset{ip});
      NotRoot(fs, store.State(), inum, NewFile(0));
      AddrsRefs(ic1, ic1, ip);
      GotOne(ic1, ic1, store.icache, ip, inum);
      SlotForIs(ic, ic1, dp, inum);
    }

    /** The new inode in slot ip gets its link and its name in the root directory, in slot dp. */
    method LinkNew(dp: nat, ip: nat, name: Name, ghost fs: Fs, ghost inum: nat, ghost ic: seq<Uinode>,
                   ghost ic1: seq<Uinode>)
      returns (r: Created, ghost k: nat)
      requires Tables(multiset{dp} + multiset{ip}) && dp < |store.icache| && ip < |store.icache|
      requires Loaded(store.icache[dp]) && store.icache[ip].inum < SHORT && NoNul(name) && |name| < DIRSIZ
      modifies store
      ensures r.Failed? ==> Tables(multiset{})
      ensures r.New? ==> Tables(multiset{r.u}) && r.u < |store.icache|
      ensures old(Making(dp, ip, fs, inum, 0, ic, ic1)) ==>
                Made(r, inum, k, name, fs, ic) && (!r.Exits? && old(store.NoLeak()) ==> store.NoLeak())
    {
      hide Tables, Sound, Store.Tab, Store.Wf, Ok, DirsOk, Held, Shape, Tight, Made, Making, Taken, OnDisk, BothHeld,
           RootDir, SameBlocks;
      ghost var sound, both := Making(dp, ip, fs, inum, 0, ic, ic1), multiset{dp} + multiset{ip};
      assert dp in both && ip in both;
      if sound { MakingIs(dp, ip, fs, inum, 0, ic, ic1); }
      ghost var mid := store.icache;
      var live := Lock(ip, both);
      if !live { return Halts, 0; }
      if sound {
        SoundIs(both);
        LockedBoth(dp, ip, inum, ic, ic1, mid, store.icache);
        MakingIsNow(dp, ip, fs, inum, 0, ic, ic1);
      }
      live := Relink(dp, ip, 0, 1, fs, inum, ic, ic1);
      if !live { return Halts, 0; }
      r, k := NameNew(dp, ip, name, fs, inum, ic, ic1);
    }

    lemma MakingIsNow(dp: nat, ip: nat, fs: Fs, inum: nat, nlink: nat, ic: seq<Uinode>, ic1: seq<Uinode>)
      requires Sound(multiset{dp} + multiset{ip}) && BothHeld(dp, ip, inum, ic, ic1, store.icache)
      requires dp < |store.icache| && store.LetGo(dp) && Taken(fs, store.State(), inum, NewFile(nlink)) && RootDir(fs)
      ensures Making(dp, ip, fs, inum, nlink, ic, ic1)
    {
      hide Sound, OnDisk, Taken, RootDir;
    }

    /** The link count of the new inode goes from n to m. */
    method Relink(dp: nat, ip: nat, n: nat, m: nat, ghost fs: Fs, ghost inum: nat, ghost ic: seq<Uinode>,
                  ghost ic1: seq<Uinode>)
      returns (live: bool)
      requires Tables(multiset{dp} + multiset{ip}) && dp < |store.icache| && ip < |store.icache| && m < SHORT
      requires Loaded(store.icache[dp]) && Loaded(store.icache[ip])
      modifies store
      ensures Tables(multiset{dp} + multiset{ip}) && |store.icache| == |old(store.icache)|
      ensures Loaded(store.icache[dp]) && Loaded(store.icache[ip])
      ensures store.icache[ip].inum == old(store.icache)[ip].inum
      ensures old(Making(dp, ip, fs, inum, n, ic, ic1)) ==>
                && live && Making(dp, ip, fs, inum, m, ic, ic1) && store.Clean(ip)
                && (old(store.NoLeak()) ==> store.NoLeak())
    {
      hide Tables, Sound, Store.Tab, Store.Wf, Ok, DirsOk, Held, Shape, Tight, Making, Taken, OnDisk, BothHeld, RootDir,
           SameBlocks;
      ghost var sound, both := Making(dp, ip, fs, inum, n, ic, ic1), multiset{dp} + multiset{ip};
      assert dp in both && ip in both;
      ghost var q, mid, disk := store.State(), store.icache, store.disk;
      if sound {
        MakingIs(dp, ip, fs, inum, n, ic, ic1);
        store.SlotFacts(ip);
      }
      live := SetNlink(ip, m, both);
      if sound { Relinked(dp, ip, n, m, fs, inum, ic, ic1, q, mid, disk); }
    }

    lemma Relinked(dp: nat, ip: nat, n: nat, m: nat, fs: Fs, inum: nat, ic: seq<Uinode>, ic1: seq<Uinode>, q: Fs,
                   mid: seq<Uinode>, disk: seq<Block>)
      requires Sound(multiset{dp} + multiset{ip}) && BothHeld(dp, ip, inum, ic, ic1, mid) && RootDir(fs)
      requires Taken(fs, q, inum, NewFile(n)) && Let(store.l, disk, mid[dp])
      requires SameBlocks(q, store.State()) && inum < |q.inodes| && store.inodes == q.inodes[inum := NewFile(m)]
      requires store.icache == mid[ip := mid[ip].(ino := NewFile(m))]
      requires forall k: nat {:trigger OnDisk(store.l, store.disk, k)} :: k < store.l.ninodes && k != inum ==>
                 OnDisk(store.l, store.disk, k) == OnDisk(store.l, disk, k)
      ensures Making(dp, ip, fs, inum, m, ic, ic1)
    {
      hide Tables, Store.Wf, DirsOk, OnDisk, RootDir, SameBlocks, Taken, SlotFor;
      SoundFacts(multiset{dp} + multiset{ip});
      TakenAgain(fs, q, store.State(), inum, NewFile(n), NewFile(m));
    }

    /** The new inode in slot ip, which has its link, gets its name in the root directory, in slot dp. */
    method NameNew(dp: nat, ip: nat, name: Name, ghost fs: Fs, ghost inum: nat, ghost ic: seq<Uinode>,
                   ghost ic1: seq<Uinode>)
      returns (r: Created, ghost k: nat)
      requires Tables(multiset{dp} + multiset{ip}) && dp < |store.icache| && ip < |store.icache|
      requires Loaded(store.icache[dp]) && Loaded(store.icache[ip])
      requires store.icache[ip].inum < SHORT && NoNul(name) && |name| < DIRSIZ
      modifies store
      ensures r.Failed? ==> Tables(multiset{})
      ensures r.New? ==> Tables(multiset{r.u}) && r.u < |store.icache|
      ensures old(Making(dp, ip, fs, inum, 1, ic, ic1)) ==>
                Made(r, inum, k, name, fs, ic) && (!r.Exits? && old(store.NoLeak()) ==> store.NoLeak())
    {
      hide Tables, Sound, Store.Tab, Store.Wf, Ok, DirsOk, Held, Shape, Tight, Made, Making, Taken, OnDisk, BothHeld,
           RootDir, LinksTo, DirLinked, Contents, FileOk, Gettable, Sought, SameRefs;
      ghost var sound, both := Making(dp, ip, fs, inum, 1, ic, ic1), multiset{dp} + multiset{ip};
      assert dp in both && ip in both && both - multiset{dp} == multiset{ip} && both - multiset{ip} == multiset{dp};
      ghost var q, mid, b, sought := store.State(), store.icache, [], None;
      if sound {
        MakingIs(dp, ip, fs, inum, 1, ic, ic1);
        RootSlot(dp, ip, fs, inum, ic, ic1);
        b, sought := store.File(dp), Sought(dp, name);
        SoughtInRoot(dp, ip, fs, inum, ic, ic1, name);
      }
      var live, l;
      live, l, k := Dirlink(dp, name, store.icache[ip].inum, both);
      if !live { return Halts, k; }
      if l.None? {
        if sound { MadeNone(dp, inum, k, name, fs, ic, mid, q, b, both); }
        return Exits, k;
      }
      StillLive(mid, store.icache, dp, ip);
      if l.value < 0 {
        if sound {
          StillMaking(dp, ip, fs, inum, ic, ic1, mid, q, b, name, k);
          assert sought.Some? && NoRoom(fs, ic, inum, name) by { NameTaken(fs, ic, inum, name); }
        }
        r := Undo(dp, ip, fs, inum, ic, ic1, name, k);
        return;
      }
      ghost var end := store.icache;
      if sound { NowNamed(dp, ip, fs, inum, ic, ic1, mid, q, b, name, k); }
      Put(dp, both);
      r := New(ip);
      TabFacts(multiset{ip});
      if sound { MadeNew(dp, ip, fs, inum, ic, ic1, end, name, k); }
    }

    lemma RootSlot(dp: nat, ip: nat, fs: Fs, inum: nat, ic: seq<Uinode>, ic1: seq<Uinode>)
      requires Making(dp, ip, fs, inum, 1, ic, ic1)
      ensures LinksTo(dp, inum, multiset{dp} + multiset{ip}) && store.Wf() && Shape(store.State())
      ensures FilesOk(store.State())
      ensures FileOk(store.State(), ROOTINO) && store.File(dp) == Contents(store.State(), ROOTINO)
      ensures |store.File(dp)| == fs.inodes[ROOTINO].size
      ensures (Loaded(store.icache[ip]) ==> store.icache[ip].ino == NewFile(1))
    {
      hide Tables, Store.Wf, DirsOk, OnDisk, PlusOne, SlotFor;
      SoundFacts(multiset{dp} + multiset{ip});
      NotRoot(fs, store.State(), inum, NewFile(1));
      IsTaken(fs, store.State(), inum, NewFile(1));
      store.SlotFacts(dp);
      if Loaded(store.icache[ip]) { store.SlotFacts(ip); }
    }

    /** What dirlookup looks for in the root is what the root had before the inode was taken. */
    lemma SoughtInRoot(dp: nat, ip: nat, fs: Fs, inum: nat, ic: seq<Uinode>, ic1: seq<Uinode>, name: Name)
      requires Making(dp, ip, fs, inum, 1, ic, ic1)
      ensures dp < |store.icache| && Loaded(store.icache[dp]) && RootDir(fs) && RootDir(store.State())
      ensures Sought(dp, name) == Lookup(fs, ROOTINO, name)
    {
      RootSlot(dp, ip, fs, inum, ic, ic1);
      hide Tables, Store.Wf, DirsOk, OnDisk, PlusOne, SlotFor, Find, Entries;
      SoundFacts(multiset{dp} + multiset{ip});
      TakenLookup(fs, store.State(), inum, 1, name);
    }

    lemma MadeNone(dp: nat, inum: nat, k: nat, name: Name, fs: Fs, ic: seq<Uinode>, mid: seq<Uinode>, q: Fs,
                   b: seq<byte>,
                   both: multiset<nat>)
      requires DirLinked(dp, name, inum, both, None, k, mid, q, b) && RootDir(fs) && |b| == fs.inodes[ROOTINO].size
      ensures Made(Exits, inum, k, name, fs, ic)
    {
      hide Store.Full, RootDir;
      assert RootDir(fs);
    }

    lemma NameTaken(fs: Fs, ic: seq<Uinode>, inum: nat, name: Name)
      requires RootDir(fs) && Lookup(fs, ROOTINO, name).Some?
      ensures NoRoom(fs, ic, inum, name)
    {
    }

    lemma StillMaking(dp: nat, ip: nat, fs: Fs, inum: nat, ic: seq<Uinode>, ic1: seq<Uinode>, mid: seq<Uinode>, q: Fs,
                      b: seq<byte>, name: Name, k: nat)
      requires DirLinked(dp, name, inum, multiset{dp} + multiset{ip}, Some(-1), k, mid, q, b)
      requires BothHeld(dp, ip, inum, ic, ic1, mid) && Taken(fs, q, inum, NewFile(1)) && RootDir(fs)
      requires dp < |store.icache| && store.LetGo(dp) && SameRefs(mid, store.icache)
      ensures Making(dp, ip, fs, inum, 1, ic, ic1)
    {
      hide Sound, OnDisk, Taken, RootDir, SlotFor;
    }

    /** dirlink failed: the link count goes back, and both slots. */
    method Undo(dp: nat, ip: nat, ghost fs: Fs, ghost inum: nat, ghost ic: seq<Uinode>, ghost ic1: seq<Uinode>,
                ghost name: Name, ghost k: nat)
      returns (r: Created)
      requires Tables(multiset{dp} + multiset{ip}) && dp < |store.icache| && ip < |store.icache|
      requires Loaded(store.icache[dp]) && Loaded(store.icache[ip])
      modifies store
      ensures r.Failed? || r.Halts?
      ensures r.Failed? ==> Tables(multiset{})
      ensures old(Making(dp, ip, fs, inum, 1, ic, ic1)) && RootDir(fs) && NoRoom(fs, ic, inum, name) ==>
                Made(r, inum, k, name, fs, ic) && (old(store.NoLeak()) ==> store.NoLeak())
    {
      hide Tables, Sound, Store.Tab, Store.Wf, Ok, DirsOk, Held, Shape, Tight, Made, Making, Taken, OnDisk, BothHeld,
           RootDir, NoRoom;
      ghost var sound, d, i :=
        Making(dp, ip, fs, inum, 1, ic, ic1) && RootDir(fs) && NoRoom(fs, ic, inum, name), multiset{dp}, multiset{ip};
      assert dp in d && dp in d + i && ip in d + i && d + i - i == d && d - d == multiset{};
      var live := Relink(dp, ip, 1, 0, fs, inum, ic, ic1);
      if !live { return Halts; }
      if sound { MakingIs(dp, ip, fs, inum, 0, ic, ic1); }
      ghost var mid := store.icache;
      Put(ip, d + i);
      ghost var one := store.icache;
      if sound {
        SoundIs(d);
        PutNew(dp, ip, inum, ic, ic1, mid, one);
      }
      Put(dp, d);
      if sound { NoneMade(dp, inum, name, k, fs, ic, one); }
      return Failed;
    }

    lemma NoneMade(dp: nat, inum: nat, name: Name, k: nat, fs: Fs, ic: seq<Uinode>, mid: seq<Uinode>)
      requires Tables(multiset{}) && store.Wf() && Shape(store.State()) && DirsOk(store.State()) && RootDir(fs)
      requires Taken(fs, store.State(), inum, NewFile(0)) && PlusOne(ic, mid, dp) && NoRoom(fs, ic, inum, name)
      requires |store.icache| == |mid| && store.icache == mid[dp := Dropped(mid[dp])]
      ensures Made(Failed, inum, k, name, fs, ic)
    {
      hide Tables, Store.Wf, DirsOk, Taken, PlusOne, SameRefs;
      PutBack(ic, mid, store.icache, dp);
    }

    lemma NowNamed(dp: nat, ip: nat, fs: Fs, inum: nat, ic: seq<Uinode>, ic1: seq<Uinode>, mid: seq<Uinode>, q: Fs,
                   b: seq<byte>, name: Name, k: nat)
      requires DirLinked(dp, name, inum, multiset{dp} + multiset{ip}, Some(0), k, mid, q, b)
      requires BothHeld(dp, ip, inum, ic, ic1, mid) && Taken(fs, q, inum, NewFile(1)) && RootDir(fs)
      requires Loaded(mid[ip]) && mid[ip].ino == NewFile(1) && Shape(q) && FilesOk(q) && ROOTINO < |q.inodes|
      requires FileOk(q, ROOTINO) && b == Contents(q, ROOTINO)
      ensures Sound(multiset{dp} + multiset{ip}) && store.Wf() && IsCreated(fs, store.State(), inum, name, k)
      ensures BothHeld(dp, ip, inum, ic, ic1, store.icache) && store.Clean(ip)
    {
      hide Tables, Store.Wf, DirsOk, OnDisk, Taken, SlotFor, Entries, LinkedTo, OtherFiles, Shape, Store.File, Contents,
           FileOk, FilesOk, IsCreated;
      SoundFacts(multiset{dp} + multiset{ip});
      store.SlotFacts(dp);
      EmptyClean(ip);
      CreatedIs(fs, q, store.State(), inum, name, k);
    }

    lemma MadeNew(dp: nat, ip: nat, fs: Fs, inum: nat, ic: seq<Uinode>, ic1: seq<Uinode>, end: seq<Uinode>, name: Name,
                  k: nat)
      requires Tables(multiset{ip}) && store.Wf() && Shape(store.State()) && DirsOk(store.State()) && RootDir(fs)
      requires IsCreated(fs, store.State(), inum, name, k) && BothHeld(dp, ip, inum, ic, ic1, end)
      requires |store.icache| == NINODE && store.icache == end[dp := Dropped(end[dp])] && store.LetGo(ip)
      ensures Made(New(ip), inum, k, name, fs, ic)
    {
      hide Tables, Store.Wf, DirsOk, OnDisk, IsCreated, SlotFor, PlusOne;
      LeftFor(ic, ic1, end, store.icache, dp, ip);
    }

    /** A new file has no blocks to lose. */
    lemma EmptyClean(u: nat)
      requires store.Wf() && u < |store.icache| && Loaded(store.icache[u]) && store.icache[u].ino.addrs == NoBlocks()
      ensures store.Clean(u)
    {
      LoadedSlot(store.l, store.disk, store.icache, store.inodes, u);
      var d := OnDisk(store.l, store.disk, store.icache[u].inum);
      hide OnDisk;
      assert d.addrs == NoBlocks();
    }

    // -------------------------------------------------------------- descriptors

    /** The lowest unused descriptor, or -1. The caller gives it its inode. */
    method AllocRemoteFd(sender: int, flags: nat) returns (r: int)
      requires |fds| == MAX_FDS
      modifies `fds
      ensures r == -1 ==> fds == old(fds) && AllUsed(fds)
      ensures r != -1 ==> 0 <= r < MAX_FDS && !old(fds)[r].used && fds == old(fds)[r := NewFd(sender, flags)]
      ensures r != -1 ==> forall k {:trigger old(fds)[k]} :: 0 <= k < r ==> old(fds)[k].used
    {
      var i := 0;
      while i < MAX_FDS
        invariant 0 <= i <= MAX_FDS && fds == old(fds) && forall k {:trigger fds[k]} :: 0 <= k < i ==> fds[k].used
      {
        if !fds[i].used {
          fds := fds[i := NewFd(sender, flags)];
          return i;
        }
        i := i + 1;
      }
      return -1;
    }

    /** lookup_remote_fd finds a descriptor: it is in use and the sender's. */
    predicate Owns(sender: int, fd: int)
      reads this
      requires |fds| == MAX_FDS
    {
      0 <= fd < MAX_FDS && fds[fd].used && fds[fd].owner == sender
    }

    /** The descriptors of other clients are as they were. */
    twostate predicate OthersKeep(sender: int)
      reads this
    {
      && |fds| == |at| == |old(fds)| == |old(at)| == MAX_FDS
      && (forall k {:trigger fds[k]} {:trigger at[k]} ::
           0 <= k < MAX_FDS && old(fds)[k].used && old(fds)[k].owner != sender ==>
            fds[k] == old(fds)[k] && at[k] == old(at)[k])
    }

    // -------------------------------------------------------------- OPEN

    /** Descriptor fd, the lowest that was free, is the sender's, at the start of inode inum: readable unless the
        flags have O_WRONLY, writable if they have O_WRONLY or O_RDWR. */
    twostate predicate Opened(fd: int, sender: int, flags: nat, inum: nat)
      reads this, store
    {
      && |fds| == |at| == |old(fds)| == |old(at)| == MAX_FDS && 0 <= fd < MAX_FDS && !old(fds)[fd].used
      && (forall k {:trigger old(fds)[k]} :: 0 <= k < fd ==> old(fds)[k].used)
      && fds == old(fds)[fd := NewFd(sender, flags)] && at == old(at)[fd := at[fd]]
      && fds[fd] == Fd(true, sender, 0, flags % 2 == 0, flags % 2 == 1 || flags / 2 % 2 == 1)
      && at[fd].Some? && at[fd].value < |store.icache| && store.icache[at[fd].value].inum == inum
    }

    /** Slot u is held besides the references of ic, in a sound file system. */
    ghost predicate Holding(u: nat, ic: seq<Uinode>)
      reads this, store
    {
      Sound(multiset{u}) && u < |store.icache| && store.LetGo(u) && PlusOne(ic, store.icache, u)
    }

    /** The end of OPEN: the inode in slot u gets a descriptor, or there is none left and it is put. */
    method OpenFound(u: nat, sender: int, flags: nat, ghost ic: seq<Uinode>) returns (r: Outcome)
      requires Tables(multiset{u}) && u < |store.icache|
      modifies this, store
      ensures r.Panic? || (r.Reply? && Tables(multiset{}))
      ensures r.Reply? && r.result == -1 ==> fds == old(fds) && at == old(at) && AllUsed(fds)
      ensures r.Reply? && r.result != -1 ==> Opened(r.result, sender, flags, old(store.icache)[u].inum)
      ensures r.Reply? && r.result != -1 ==> at[r.result] == Some(u)
      ensures old(Holding(u, ic)) ==>
                && r.Reply? && Sound(multiset{}) && store.State() == old(store.State())
                && store.owner == old(store.owner)
                && (if r.result == -1 then SameRefs(ic, store.icache) else PlusOne(ic, store.icache, u))
    {
      hide Tables, Sound, Store.Tab, Store.Wf, Ok, DirsOk, Held, Shape, OnDisk, PlusOne, SameRefs, AllUsed,
           DistinctInums;
      ghost var sound, one, ic0 := Holding(u, ic), multiset{u}, store.icache;
      assert u in one && one - one == multiset{};
      TabFacts(one);
      if sound { SoundFacts(one); }
      var live := Lock(u, one);
      if !live { return Panic; }
      ghost var ic1 := store.icache;
      if sound {
        LockedOne(ic, ic0, ic1, u);
        SoundIs(one);
      }
      TabFacts(one);
      var fd := AllocRemoteFd(sender, flags);
      if fd == -1 {
        Put(u, one);
        if sound {
          PutBack(ic, ic1, store.icache, u);
          SoundIs(multiset{});
        }
        return Reply(-1, -1, []);
      }
      FlagBits(flags);
      Attach(store.icache, old(fds), fds[fd], at, fd, u);
      at := at[fd := Some(u)];
      TablesAre(multiset{});
      if sound { SoundIs(multiset{}); }
      r := Reply(fd, fd, []);
    }

    /** What OPEN came to in a sound file system fs, with slots ic: a descriptor for what the path leads to, as far as
        there are slots; or for a new file, linked into the root directory; or -1, only without a free descriptor, or
        for want of a slot, a free inode or a free name. It exits only for a new file, when the disk or the root
        directory is full. */
    ghost predicate OpenDone(r: Outcome, inum: nat, k: nat, path: Name, flags: nat, fs: Fs, own: map<nat, Owner>,
                             ic: seq<Uinode>)
      reads this, store
    {
      && RootDir(fs) && !r.Panic?
      && var t := Reached(fs, ic, path);
      && (r.Quit? ==> Creates(flags) && t.None? && (store.Full() || fs.inodes[ROOTINO].size + DIRENT > MAXBYTES))
      && (r.Reply? ==> Sound(multiset{}))
      && (r.Reply? && (t.Some? || !Creates(flags)) ==> store.State() == fs && store.owner == own)
      && (t.Some? ==> r.Reply? && if r.result == -1 then AllUsed(fds) else inum == t.value)
      && (t.None? && !Creates(flags) ==> r == Reply(-1, -1, []) || r.Crash?)
      && (r.Reply? && t.None? && Creates(flags) && r.result != -1 ==>
            IsCreated(fs, store.State(), inum, CreatedName(path), k))
      && (r.Reply? && t.None? && Creates(flags) && r.result == -1 ==>
            || (store.State() == fs && !Gettable(ic, ROOTINO))
            || (Taken(fs, store.State(), inum, NewFile(0)) && NoRoom(fs, ic, inum, CreatedName(path)))
            || (IsCreated(fs, store.State(), inum, CreatedName(path), k) && AllUsed(fds)))
    }

    /** OPEN in a sound file system comes to OpenDone; the descriptors stay, or the sender has a new one. */
    twostate predicate OpenAnswered(sender: int, path: Name, flags: nat, r: Outcome, inum: nat, k: nat)
      reads this, store
    {
      && (old(Sound(multiset{})) ==>
            OpenDone(r, inum, k, path, flags, old(store.State()), old(store.owner), old(store.icache)))
      && (r.Reply? ==>
            if r.result == -1 then fds == old(fds) && at == old(at) else Opened(r.result, sender, flags, inum))
    }

    /** OPEN. It faults exactly if uiget has no slot for the root and the path has a component. Without a fault, a
        panic or an exit the tables stay sound, whatever the disk holds. */
    method Open(sender: int, path: Name, flags: nat) returns (r: Outcome, ghost inum: nat, ghost k: nat)
      requires Tables(multiset{}) && NoNul(path)
      modifies this, store
      ensures r.Reply? || (r.Quit? && Creates(flags)) || r.Crash? || r.Panic?
      ensures r.Crash? <==> !Gettable(old(store.icache), ROOTINO) && Path.Components(path) != []
      ensures r.Reply? ==> Tables(multiset{}) && OthersKeep(sender)
      ensures r.Reply? && r.result == -1 ==> fds == old(fds) && at == old(at)
      ensures r.Reply? && r.result != -1 ==> Opened(r.result, sender, flags, inum)
      ensures old(Sound(multiset{})) ==>
                && OpenDone(r, inum, k, path, flags, old(store.State()), old(store.owner), old(store.icache))
                && (r.Reply? && old(store.NoLeak()) ==> store.NoLeak())
      ensures old(Sound(multiset{})) && r.Reply? ==>
                if r.result == -1 then SameRefs(old(store.icache), store.icache)
                else PlusOne(old(store.icache), store.icache, at[r.result].value)
      ensures old(Sound(multiset{})) && r.Reply? && old(Safe(store.State(), store.icache)) ==>
                Safe(store.State(), store.icache)
      ensures OpenAnswered(sender, path, flags, r, inum, k)
    {
      hide Tables, Sound, Store.Tab, Store.Wf, Ok, DirsOk, Held, Shape, OnDisk, PlusOne, SameRefs, AllUsed, Holding,
           Resolved, OpenDone, Made, Path.Components, Tight, Safe, Gettable;
      ghost var sound, fs, own, ic := Sound(multiset{}), store.State(), store.owner, store.icache;
      inum, k := 0, 0;
      TabFacts(multiset{});
      var n := Namei(path);
      match n
      case Fault =>
        if sound {
          ResolvedIs(path, n, fs, own, ic);
          NotFound(Crash, path, flags, fs, own, ic);
        }
        return Crash, 0, 0;
      case Dead =>
        if sound { ResolvedIs(path, n, fs, own, ic); }
        return Panic, 0, 0;
      case Found(u) =>
        if sound { ResolvedIs(path, n, fs, own, ic); }
        inum := store.icache[u].inum;
        r := OpenFound(u, sender, flags, ic);
        if sound { OpenedFile(u, r, inum, path, flags, fs, own, ic); }
      case Missing =>
        if sound { ResolvedIs(path, n, fs, own, ic); }
        if !Creates(flags) {
          if sound { NotFound(Reply(-1, -1, []), path, flags, fs, own, ic); }
          return Reply(-1, -1, []), 0, 0;
        }
        r, inum, k := OpenNew(sender, path, flags, fs, own, ic);
    }

    lemma ResolvedIs(path: Name, n: Named, fs: Fs, own: map<nat, Owner>, ic: seq<Uinode>)
      requires Resolved(Path.Components(path), n, fs, own, ic)
      ensures RootDir(fs) && !n.Dead? && store.State() == fs && store.owner == own && Shape(fs) && DirsOk(fs)
      ensures n.Found? <==> Reached(fs, ic, path).Some?
      ensures n.Found? ==> Holding(n.u, ic) && n.u < |store.icache|
      ensures n.Found? ==> Reached(fs, ic, path) == Some(store.icache[n.u].inum)
      ensures !n.Found? ==> Sound(multiset{}) && SameRefs(ic, store.icache)
    {
      hide Sound, FilesOk, Shape, WalkIn, Path.Components, PlusOne, SameRefs, OnDisk, Gettable;
    }

    /** OPEN of a path that does not lead anywhere. */
    lemma NotFound(r: Outcome, path: Name, flags: nat, fs: Fs, own: map<nat, Owner>, ic: seq<Uinode>)
      requires RootDir(fs) && Reached(fs, ic, path).None? && (r.Crash? || (r == Reply(-1, -1, []) && !Creates(flags)))
      requires store.State() == fs && store.owner == own && Sound(multiset{}) && SameRefs(ic, store.icache)
      ensures OpenDone(r, 0, 0, path, flags, fs, own, ic) && (Safe(fs, ic) ==> Safe(store.State(), store.icache))
    {
      hide Sound, FilesOk, Shape, Reached, SameRefs;
      SafeSame(fs, ic, store.icache);
    }

    lemma OpenedFile(u: nat, r: Outcome, inum: nat, path: Name, flags: nat, fs: Fs, own: map<nat, Owner>,
                     ic: seq<Uinode>)
      requires RootDir(fs) && Reached(fs, ic, path) == Some(inum) && r.Reply? && Sound(multiset{})
      requires store.State() == fs && store.owner == own && (r.result == -1 ==> AllUsed(fds))
      requires if r.result == -1 then SameRefs(ic, store.icache) else PlusOne(ic, store.icache, u)
      requires r.result != -1 ==> store.icache[u].inum == inum
      ensures OpenDone(r, inum, 0, path, flags, fs, own, ic) && (Safe(fs, ic) ==> Safe(store.State(), store.icache))
    {
      hide FilesOk, Shape, Reached, SameRefs, AllUsed, PlusOne, Safe, DistinctInums, Tables, Store.Wf, DirsOk;
      SoundFacts(multiset{});
      if r.result == -1 { SafeSame(fs, ic, store.icache); } else { SafeFound(fs, ic, store.icache, u, path); }
    }

    /** OPEN with O_CREATE of a path that namei does not find. */
    method OpenNew(sender: int, path: Name, flags: nat, ghost fs: Fs, ghost own: map<nat, Owner>, ghost ic: seq<Uinode>)
      returns (r: Outcome, ghost inum: nat, ghost k: nat)
      requires Tables(multiset{}) && NoNul(path) && Creates(flags)
      modifies this, store
      ensures r.Reply? || r.Quit? || r.Panic?
      ensures r.Reply? ==> Tables(multiset{})
      ensures r.Reply? && r.result == -1 ==> fds == old(fds) && at == old(at)
      ensures r.Reply? && r.result != -1 ==> Opened(r.result, sender, flags, inum)
      ensures old(Resolved(Path.Components(path), Missing, fs, own, ic)) ==>
                && OpenDone(r, inum, k, path, flags, fs, own, ic)
                && (r.Reply? && old(store.NoLeak()) ==> store.NoLeak())
                && (r.Reply? ==> (Safe(fs, ic) ==> Safe(store.State(), store.icache)))
                && (r.Reply? ==> if r.result == -1 then SameRefs(ic, store.icache)
                                 else PlusOne(ic, store.icache, at[r.result].value))
    {
      hide Tables, Sound, Store.Tab, Store.Wf, Ok, DirsOk, Held, Shape, OnDisk, PlusOne, SameRefs, AllUsed, Holding,
           Resolved, OpenDone, Made, Path.Components, Tight, Safe, Gettable, CreatedName, Reached, RootDir;
      ghost var sound, ic1 := Resolved(Path.Components(path), Missing, fs, own, ic), store.icache;
      if sound { ResolvedIs(path, Missing, fs, own, ic); }
      var c;
      c, inum, k := Create(path);
      if c.Exits? || c.Halts? || c.Failed? {
        r := if c.Exits? then Quit else if c.Halts? then Panic else Reply(-1, -1, []);
        if sound { NotNew(c, r, inum, k, path, flags, fs, own, ic, ic1); }
        return;
      }
      if sound { NewHeld(c, inum, k, path, fs, ic, ic1); }
      ghost var i := store.icache[c.u].inum;
      r := OpenFound(c.u, sender, flags, ic);
      if sound { OpenedNew(c.u, r, inum, k, path, flags, fs, own, ic); } else { inum := i; }
    }

    lemma NotNew(c: Created, r: Outcome, inum: nat, k: nat, path: Name, flags: nat, fs: Fs, own: map<nat, Owner>,
                 ic: seq<Uinode>, ic1: seq<Uinode>)
      requires Made(c, inum, k, CreatedName(path), fs, ic1) && SameRefs(ic, ic1) && Reached(fs, ic, path).None?
      requires (c.Exits? && r.Quit?) || (c.Failed? && r == Reply(-1, -1, [])) || c.Halts?
      requires Creates(flags)
      ensures !c.Halts? && OpenDone(r, inum, k, path, flags, fs, own, ic)
      ensures r.Reply? ==> SameRefs(ic, store.icache) && (Safe(fs, ic) ==> Safe(store.State(), store.icache))
    {
      hide FilesOk, Shape, Reached, SameRefs, AllUsed, PlusOne, Sound, Safe, Store.Full, SlotFor, Gettable, Taken,
           NoRoom;
      if c.Failed? {
        NoRoomSame(fs, ic, ic1, inum, CreatedName(path));
        SameRefsTrans(ic, ic1, store.icache);
        SafeSame(fs, ic, store.icache);
        SafeTaken(fs, store.State(), store.icache, inum);
      }
    }

    lemma NewHeld(c: Created, inum: nat, k: nat, path: Name, fs: Fs, ic: seq<Uinode>, ic1: seq<Uinode>)
      requires Made(c, inum, k, CreatedName(path), fs, ic1) && c.New? && SameRefs(ic, ic1)
      ensures Holding(c.u, ic) && IsCreated(fs, store.State(), inum, CreatedName(path), k) && RootDir(fs)
      ensures c.u < |store.icache| && store.icache[c.u].inum == inum
      ensures SlotFor(ic, ROOTINO, inum)
    {
      hide FilesOk, Shape, Sound, IsCreated, OnDisk, RootDir, CreatedName;
      SlotForSame(ic, ic1, ROOTINO, inum);
    }

    lemma OpenedNew(u: nat, r: Outcome, inum: nat, k: nat, path: Name, flags: nat, fs: Fs, own: map<nat, Owner>,
                    ic: seq<Uinode>)
      requires RootDir(fs) && Reached(fs, ic, path).None? && Creates(flags) && r.Reply? && Sound(multiset{})
      requires IsCreated(fs, store.State(), inum, CreatedName(path), k) && SlotFor(ic, ROOTINO, inum)
      requires r.result == -1 ==> AllUsed(fds)
      requires if r.result == -1 then SameRefs(ic, store.icache) else PlusOne(ic, store.icache, u)
      requires r.result != -1 ==> store.icache[u].inum == inum
      ensures OpenDone(r, inum, k, path, flags, fs, own, ic) && (Safe(fs, ic) ==> Safe(store.State(), store.icache))
    {
      hide FilesOk, Shape, Reached, SameRefs, AllUsed, PlusOne, DistinctInums, Tables, Store.Wf, DirsOk, SlotFor,
           Gettable, IsCreated, OnlyRoot, CreatedName, RootDir;
      SoundFacts(multiset{});
      if Safe(fs, ic) {
        OnlyRootNew(fs, store.State(), inum, CreatedName(path), k);
        if r.result == -1 { SafeSame(fs, ic, store.icache); } else { RootStays(ic, store.icache, u); }
      }
    }

    // -------------------------------------------------------------- READ and WRITE

    /** A used descriptor has a loaded slot, at least as long as its offset. */
    lemma FdSlot(fd: nat)
      requires Tables(multiset{}) && |fds| == MAX_FDS && fd < MAX_FDS && fds[fd].used
      ensures |at| == MAX_FDS && at[fd].Some? && at[fd].value < |store.icache| == NINODE
      ensures Loaded(store.icache[at[fd].value])
      ensures fds[fd].off <= store.icache[at[fd].value].ino.size && fds[fd].off <= MAXBYTES
    {
      hide Store.Tab, Held;
      assert FdOk(store.icache, fds, at, fd);
      CountHas(at, fd, at[fd].value);
      OkFacts(store.icache, fds, at, multiset{});
    }

    /** The file of a used descriptor. */
    ghost function FdFile(fd: nat): (s: seq<byte>)
      requires Valid(multiset{}) && |fds| == MAX_FDS && fd < MAX_FDS && fds[fd].used
      reads this, store
      ensures fds[fd].off <= |s| <= MAXBYTES
    {
      FdSlot(fd);
      store.FileSize(at[fd].value);
      store.File(at[fd].value)
    }

    /** The inode of a used descriptor. */
    ghost function FdInum(fd: nat): (i: nat)
      requires Valid(multiset{}) && |fds| == MAX_FDS && fd < MAX_FDS && fds[fd].used
      reads this, store
      ensures i < |store.inodes| && store.inodes[i].kind != 0 && store.inodes[i].size == |FdFile(fd)|
    {
      FdSlot(fd);
      store.SlotFacts(at[fd].value);
      store.icache[at[fd].value].inum
    }

    lemma FdIs(fd: nat)
      requires Valid(multiset{}) && |fds| == MAX_FDS && fd < MAX_FDS && fds[fd].used
      ensures |at| == MAX_FDS && at[fd].Some? && at[fd].value < |store.icache| && Loaded(store.icache[at[fd].value])
      ensures store.Wf() && Shape(store.State()) && FdInum(fd) == store.icache[at[fd].value].inum < |store.inodes|
      ensures FileOk(store.State(), FdInum(fd)) && FdFile(fd) == store.File(at[fd].value)
      ensures FdFile(fd) == Contents(store.State(), FdInum(fd)) && |FdFile(fd)| == store.icache[at[fd].value].ino.size
      ensures store.inodes[FdInum(fd)] == store.icache[at[fd].value].ino
    {
      FdSlot(fd);
      store.SlotFacts(at[fd].value);
      store.FileSize(at[fd].value);
    }

    /** -1, and nothing has changed. */
    twostate predicate Refused(fd: int, r: Outcome)
      reads this, store
    {
      r == Reply(-1, fd, []) && fds == old(fds) && at == old(at) && store.State() == old(store.State())
    }

    /** READ of a readable descriptor of the sender, in a well-formed file system: the file's bytes from the offset on,
        which moves by as many, and nothing else changes. Any other READ is refused. */
    twostate predicate ReadAnswered(sender: int, fd: int, nbytes: nat, r: Outcome)
      reads this, store
    {
      && |old(fds)| == |fds| == MAX_FDS
      && if old(Owns(sender, fd)) && old(fds)[fd].readable then
           old(Valid(multiset{})) ==>
             && Valid(multiset{}) && store.State() == old(store.State()) && at == old(at)
             && IsRead(old(FdFile(fd)), old(fds)[fd].off, nbytes, fd, r)
             && fds == old(fds)[fd := old(fds)[fd].(off := old(fds)[fd].off + r.result)]
             && FdFile(fd) == old(FdFile(fd))
         else Refused(fd, r)
    }

    /** READ: at most IPC_DATA_SIZE bytes from the descriptor's offset, which moves on; -1 if the descriptor is not
        the sender's or not readable. In a well-formed file system nothing else changes. */
    method Read(sender: int, fd: int, nbytes: nat) returns (r: Outcome)
      requires Tables(multiset{}) && |fds| == MAX_FDS
      modifies this, store
      ensures |fds| == MAX_FDS && (r.Panic? || (r.Reply? && Tables(multiset{}) && at == old(at) && OthersKeep(sender)))
      ensures !(old(Owns(sender, fd)) && old(fds)[fd].readable) ==>
                && r == Reply(-1, fd, []) && fds == old(fds) && store.icache == old(store.icache)
                && store.State() == old(store.State()) && store.owner == old(store.owner)
      ensures old(Owns(sender, fd)) && old(fds)[fd].readable && r.Reply? ==>
                || (r == Reply(-1, fd, []) && fds == old(fds))
                || (r == Reply(|r.data|, fd, r.data)
                    && fds == old(fds)[fd := old(fds)[fd].(off := old(fds)[fd].off + |r.data|)])
      ensures r.Reply? ==> SameRefs(old(store.icache), store.icache)
      ensures old(Valid(multiset{})) ==>
                && r.Reply? && Valid(multiset{}) && store.State() == old(store.State())
                && store.owner == old(store.owner) && store.icache == old(store.icache)
      ensures old(Valid(multiset{})) && old(Owns(sender, fd)) && old(fds)[fd].readable ==>
                && r.data == Slice(old(FdFile(fd)), old(fds)[fd].off, Chunk(nbytes)) && r == Reply(|r.data|, fd, r.data)
                && fds == old(fds)[fd := old(fds)[fd].(off := old(fds)[fd].off + |r.data|)]
                && FdFile(fd) == old(FdFile(fd))
      ensures ReadAnswered(sender, fd, nbytes, r)
    {
      hide Tables, Valid, Store.Tab, Store.Wf, Ok, Held, Slice, FdFile, SameRefs, IsRead;
      SameRefsSelf(store.icache);
      TabFacts(multiset{});
      if !(0 <= fd < MAX_FDS) || !fds[fd].used || fds[fd].owner != sender || !fds[fd].readable {
        return Reply(-1, fd, []);
      }
      ghost var sound := Valid(multiset{});
      FdSlot(fd);
      var u := at[fd].value;
      var n := Chunk(nbytes);
      if sound {
        FdIs(fd);
        SliceClamp(FdFile(fd), fds[fd].off, n);
        SliceIsRead(FdFile(fd), fds[fd].off, nbytes, fd);
      }
      if fds[fd].off >= store.icache[u].ino.size {
        assert fds[fd := fds[fd]] == fds;
        return Reply(0, fd, []);
      }
      if n > store.icache[u].ino.size - fds[fd].off { n := store.icache[u].ino.size - fds[fd].off; }
      r := ReadOn(fd, n);
    }

    /** ureadi at the descriptor's offset, which moves on. */
    method ReadOn(fd: nat, n: nat) returns (r: Outcome)
      requires Tables(multiset{}) && |fds| == |at| == MAX_FDS && fd < MAX_FDS && fds[fd].used && at[fd].Some?
      requires at[fd].value < |store.icache| && fds[fd].off + n <= store.icache[at[fd].value].ino.size
      modifies this, store
      ensures |fds| == MAX_FDS && (r.Panic? || (r.Reply? && Tables(multiset{}) && at == old(at)))
      ensures r.Reply? ==>
                || (r == Reply(-1, fd, []) && fds == old(fds))
                || (r == Reply(|r.data|, fd, r.data)
                    && fds == old(fds)[fd := old(fds)[fd].(off := old(fds)[fd].off + |r.data|)])
      ensures r.Reply? ==> SameRefs(old(store.icache), store.icache)
      ensures old(Valid(multiset{})) ==>
                && r.Reply? && Valid(multiset{}) && store.State() == old(store.State())
                && store.owner == old(store.owner) && store.icache == old(store.icache)
                && r.data == Slice(old(FdFile(fd)), old(fds)[fd].off, n) && r == Reply(|r.data|, fd, r.data)
                && fds == old(fds)[fd := old(fds)[fd].(off := old(fds)[fd].off + |r.data|)]
                && FdFile(fd) == old(FdFile(fd))
    {
      hide Tables, Valid, Store.Tab, Store.Wf, Ok, Held, Slice, FdFile, SameRefs, Contents, FileOk;
      ghost var sound, ic := Valid(multiset{}), store.icache;
      FdSlot(fd);
      TabFacts(multiset{});
      if sound { FdIs(fd); }
      var u := at[fd].value;
      WordSize(u);
      var live, got, data := store.Ureadi(u, fds[fd].off, n);
      if !live { return Panic; }
      AddrsRefs(ic, store.icache, u);
      GrowOk(ic, store.icache, fds, at, multiset{}, u);
      if got < 0 {
        TablesAre(multiset{});
        return Reply(-1, fd, []);
      }
      MoveFd(store.icache, fds, at, fd, fds[fd].off + got);
      fds := fds[fd := fds[fd].(off := fds[fd].off + got)];
      TablesAre(multiset{});
      r := Reply(got, fd, data);
      if sound {
        ValidIs(multiset{});
        FdIs(fd);
      }
    }

    lemma ValidIs(extra: multiset<nat>)
      requires Tables(extra) && store.Wf()
      ensures Valid(extra)
    {
    }

    lemma WordSize(u: nat)
      requires store.Tab() && u < |store.icache| && Loaded(store.icache[u])
      ensures store.icache[u].ino.size < WORDMAX
    {
    }

    /** What a write through descriptor fd leaves in its file. */
    lemma WrittenBytes(fd: nat, d: seq<byte>, result: int, done: nat, fds0: seq<Fd>, fs: Fs, i: nat, s: seq<byte>)
      requires Written(fd, d, result, done, fds0, fs, i, s)
      ensures result == -1 || result == |d|
      ensures result != -1 ==>
                && Valid(multiset{}) && |fds| == |fds0| == MAX_FDS && fd < MAX_FDS && fds[fd].used
                && HasBytes(s, fds0[fd].off, d, FdFile(fd))
    {
      hide Valid, FdFile, FdInum, OtherFiles, Store.Full, HasBytes;
      if result != -1 { SpliceIsWritten(s, fds0[fd].off, d); }
    }

    /** WRITE through a writable descriptor of the sender, in a well-formed file system: the message is in the file at
        the offset, which moves behind it, and the reply is its length; or -1, with what that leaves. Any other WRITE
        is refused. */
    twostate predicate WriteAnswered(sender: int, fd: int, data: seq<byte>, r: Outcome, done: nat)
      reads this, store
    {
      && |old(fds)| == |fds| == MAX_FDS
      && if old(Owns(sender, fd)) && old(fds)[fd].writable then
           old(Valid(multiset{})) ==>
             var d, off := Message(data), old(fds)[fd].off;
             && (r == Reply(|d|, fd, []) || r == Reply(-1, fd, [])) && at == old(at)
             && Written(fd, d, r.result, done, old(fds), old(store.State()), old(FdInum(fd)), old(FdFile(fd)))
             && (r.result != -1 ==>
                   && fds == old(fds)[fd := old(fds)[fd].(off := off + |d|)] && Valid(multiset{})
                   && HasBytes(old(FdFile(fd)), off, d, FdFile(fd)))
         else Refused(fd, r)
    }

    /** WRITE: the data, at most IPC_DATA_SIZE bytes, is spliced in at the descriptor's offset, which moves on; -1 if
        the descriptor is not the sender's or not writable. When the file cannot grow as far as it must, the reply is
        -1 as well: the file keeps its length and the offset stays, but the first `done` bytes may be in place. */
    method Write(sender: int, fd: int, data: seq<byte>) returns (r: Outcome, ghost done: nat)
      requires Tables(multiset{}) && |fds| == MAX_FDS
      modifies this, store
      ensures |fds| == MAX_FDS && (r.Panic? || (r.Reply? && Tables(multiset{}) && at == old(at) && OthersKeep(sender)))
      ensures !(old(Owns(sender, fd)) && old(fds)[fd].writable) ==>
                && r == Reply(-1, fd, []) && fds == old(fds) && store.icache == old(store.icache)
                && store.State() == old(store.State()) && store.owner == old(store.owner)
      ensures old(Owns(sender, fd)) && old(fds)[fd].writable && r.Reply? ==>
                || (r == Reply(-1, fd, []) && fds == old(fds))
                || (r == Reply(Chunk(|data|), fd, [])
                    && fds == old(fds)[fd := old(fds)[fd].(off := old(fds)[fd].off + Chunk(|data|))])
      ensures r.Reply? ==> SameRefs(old(store.icache), store.icache)
      ensures old(Valid(multiset{})) ==> r.Reply? && Valid(multiset{}) && (old(store.NoLeak()) ==> store.NoLeak())
      ensures old(Valid(multiset{})) && old(Owns(sender, fd)) && old(fds)[fd].writable ==>
                && r.Reply?
                && Written(fd, data[..Chunk(|data|)], r.result, done, old(fds), old(store.State()), old(FdInum(fd)),
                           old(FdFile(fd)))
      ensures old(Valid(multiset{})) && old(Owns(sender, fd)) && old(fds)[fd].writable && r.Reply? ==>
                && old(at[fd].Some? && at[fd].value < |store.icache|)
                && (r.result == -1 ==> SameOnDisk(store.l, old(store.disk), store.disk))
                && (r.result != -1 && old(fds)[fd].off + Chunk(|data|) > |old(FdFile(fd))| ==>
                      at[fd].value < |store.icache| && store.Clean(at[fd].value))
                && (old(fds)[fd].off + Chunk(|data|) <= NDIRECT * BSIZE ==>
                      SameIndirect(old(store.icache), store.icache, old(at[fd].value)))
      ensures old(Sound(multiset{})) && r.Reply? ==>
                (Sound(multiset{}) <==> (old(Owns(sender, fd)) && old(fds)[fd].writable && old(IsDir(fd)) ==>
                                           DirBytes(old(store.State()), old(AfterWrite(fd, data, r.result, done)))))
      ensures old(Valid(multiset{})) && old(Safe(store.State(), store.icache)) ==> Safe(store.State(), store.icache)
      ensures WriteAnswered(sender, fd, data, r, done)
    {
      hide Tables, Valid, Store.Tab, Store.Wf, Ok, Held, FdFile, FdInum, SameRefs, HasBytes, Written, Tight, Shape,
           SameOnDisk, SameIndirect, DirsOk, DirBytes, NewBytes, Safe;
      done := 0;
      SameRefsSelf(store.icache);
      TabFacts(multiset{});
      ghost var valid, sound, fs, ic := Valid(multiset{}), Sound(multiset{}), store.State(), store.icache;
      ghost var i, s, fds0, d := 0, [], fds, data[..Chunk(|data|)];
      if !(0 <= fd < MAX_FDS) || !fds[fd].used || fds[fd].owner != sender || !fds[fd].writable {
        return Reply(-1, fd, []), 0;
      }
      if valid {
        ValidFacts(multiset{});
        FdIs(fd);
        i, s := FdInum(fd), FdFile(fd);
      }
      r, done := WriteOn(fd, data[..Chunk(|data|)]);
      if valid {
        SafeSame(fs, ic, store.icache);
        DirsWritten(fd, d, r.result, done, fds0, fs, i, s);
        ChunkIsMessage(data);
        WrittenBytes(fd, d, r.result, done, fds0, fs, i, s);
      }
    }

    /** Descriptor fd has a directory open. */
    ghost predicate IsDir(fd: nat)
      requires Valid(multiset{}) && |fds| == MAX_FDS && fd < MAX_FDS && fds[fd].used
      reads this, store
    {
      store.inodes[FdInum(fd)].kind == T_DIR
    }

    /** What a write of the data leaves in the file of descriptor fd. */
    ghost function AfterWrite(fd: nat, data: seq<byte>, result: int, done: nat): seq<byte>
      requires Valid(multiset{}) && |fds| == MAX_FDS && fd < MAX_FDS && fds[fd].used
      reads this, store
    {
      NewBytes(FdFile(fd), fds[fd].off, data[..Chunk(|data|)], result, done)
    }

    lemma DirsWritten(fd: nat, d: seq<byte>, result: int, done: nat, fds0: seq<Fd>, fs: Fs, i: nat, s: seq<byte>)
      requires Written(fd, d, result, done, fds0, fs, i, s) && Shape(fs) && FilesOk(fs) && i < |fs.inodes|
      ensures DirsOk(fs) ==>
                (Sound(multiset{}) <==>
                   (fs.inodes[i].kind == T_DIR ==> DirBytes(fs, NewBytes(s, fds0[fd].off, d, result, done))))
      ensures Safe(fs, store.icache) ==> Safe(store.State(), store.icache)
    {
      hide DirsOk, DirBytes, NewBytes, Contents, FileOk, FilesOk, FileBlock, Store.Full, Gettable, Shape, SameOthers,
           Tables, Store.Wf, FdFile, FdInum;
      ValidFacts(multiset{});
      FdIs(fd);
      if DirsOk(fs) { DirsAfterWrite(fs, store.State(), i); }
      assert forall j {:trigger store.inodes[j]} :: 0 <= j < |fs.inodes| ==> store.inodes[j].kind == fs.inodes[j].kind;
    }

    /** What a write of d through descriptor fd did in a well-formed file system: the descriptors were fds0, the file
        inode i of fs, with the bytes s. */
    ghost predicate Written(fd: nat, d: seq<byte>, result: int, done: nat, fds0: seq<Fd>, fs: Fs, i: nat, s: seq<byte>)
      reads this, store
    {
      && Valid(multiset{}) && |fds| == |fds0| == MAX_FDS && fd < MAX_FDS && fds[fd].used && fds0[fd].off <= |s|
      && (result == -1 ==> done <= |d| && fds0[fd].off + |d| > |s|)
      && FdInum(fd) == i && OtherFiles(fs, store.State(), i) && store.inodes[i].kind == fs.inodes[i].kind
      && FdFile(fd) == NewBytes(s, fds0[fd].off, d, result, done)
      && (result != -1 ==> result == |d| && fds == fds0[fd := fds0[fd].(off := fds0[fd].off + |d|)])
      && (result == -1 ==> fds == fds0 && (fds0[fd].off + |d| > MAXBYTES || store.Full()))
    }

    /** uwritei at the descriptor's offset, which moves on. */
    method WriteOn(fd: nat, d: seq<byte>) returns (r: Outcome, ghost done: nat)
      requires Tables(multiset{}) && |fds| == MAX_FDS && fd < MAX_FDS && fds[fd].used && |d| <= IPC_DATA_SIZE
      modifies this, store
      ensures |fds| == MAX_FDS && (r.Panic? || (r.Reply? && Tables(multiset{}) && at == old(at)))
      ensures r.Reply? ==>
                || (r == Reply(-1, fd, []) && fds == old(fds))
                || (r == Reply(|d|, fd, []) && fds == old(fds)[fd := old(fds)[fd].(off := old(fds)[fd].off + |d|)])
      ensures r.Reply? ==> SameRefs(old(store.icache), store.icache)
      ensures old(Valid(multiset{})) ==>
                && r.Reply? && Valid(multiset{}) && (old(store.NoLeak()) ==> store.NoLeak())
                && Written(fd, d, r.result, done, old(fds), old(store.State()), old(FdInum(fd)), old(FdFile(fd)))
      ensures old(Valid(multiset{})) ==>
                && r.Reply? && old(|at| == MAX_FDS && at[fd].Some? && at[fd].value < |store.icache|)
                && (r.result == -1 ==> SameOnDisk(store.l, old(store.disk), store.disk))
                && (r.result != -1 && old(fds)[fd].off + |d| > |old(FdFile(fd))| ==>
                      at[fd].value < |store.icache| && store.Clean(at[fd].value))
                && (old(fds)[fd].off + |d| <= NDIRECT * BSIZE ==>
                      SameIndirect(old(store.icache), store.icache, old(at[fd].value)))
    {
      hide Tables, Valid, Store.Tab, Store.Wf, Ok, Held, FdFile, FdInum, SameRefs, Written, Tight, Shape, SameOnDisk,
           SameIndirect, Store.Grown, Store.Failed, Store.Begun, Contents, FileOk, Store.File;
      ghost var sound, ic, fds0, fs := Valid(multiset{}), store.icache, fds, store.State();
      ghost var i, s := 0, [];
      FdSlot(fd);
      TabFacts(multiset{});
      var u := at[fd].value;
      if sound {
        FdIs(fd);
        i, s := FdInum(fd), FdFile(fd);
      }
      var live, n;
      live, n, done := store.Uwritei(u, d, fds[fd].off);
      if !live { return Panic, done; }
      AddrsRefs(ic, store.icache, u);
      GrowOk(ic, store.icache, fds, at, multiset{}, u);
      if n >= 0 {
        MoveFd(store.icache, fds, at, fd, fds[fd].off + n);
        fds := fds[fd := fds[fd].(off := fds[fd].off + n)];
      }
      TablesAre(multiset{});
      r := Reply(n, fd, []);
      if sound { IsWritten(fd, u, d, n, done, fds0, ic, fs, i, s); }
    }

    lemma IsWritten(fd: nat, u: nat, d: seq<byte>, n: int, done: nat, fds0: seq<Fd>, ic: seq<Uinode>, fs: Fs, i: nat,
                    s: seq<byte>)
      requires Tables(multiset{}) && |fds| == |fds0| == |at| == MAX_FDS && fd < MAX_FDS && fds[fd].used
      requires at[fd] == Some(u)
      requires u < |ic| && SlotKept(ic, store.icache, u) && store.icache[u].ino.kind == ic[u].ino.kind
      requires ic[u].inum == i < |fs.inodes| && Shape(fs) && FileOk(fs, i) && s == Contents(fs, i)
      requires |s| == ic[u].ino.size
      requires fds0[fd].off <= |s| && fs.inodes[i] == ic[u].ino && (n == -1 || n == |d|)
      requires fds == if n == -1 then fds0 else fds0[fd := fds0[fd].(off := fds0[fd].off + n)]
      requires n != -1 ==> store.Grown(u, d, fds0[fd].off, fs, ic)
      requires n == -1 ==> store.Failed(u, d, fds0[fd].off, fs, ic, done)
      ensures Valid(multiset{}) && Written(fd, d, n, done, fds0, fs, i, s)
      ensures n == -1 ==> SameOnDisk(store.l, fs.blocks, store.disk)
      ensures n != -1 && fds0[fd].off + |d| > |s| ==> store.Clean(u)
    {
      hide Tables, Store.Wf, Contents, FileOk, OtherFiles, Splice, Store.File, Store.Full, SameOnDisk, OnDisk, Shape;
      FdIs(fd);
    }

    // -------------------------------------------------------------- CLOSE

    /** A descriptor is given up, and its reference. In a well-formed file system every file keeps its contents; no
        block is lost exactly when there was no leak and the inode has another reference or the disk has it as the
        slot does. */
    method Drop(k: nat)
      requires Tables(multiset{}) && |fds| == MAX_FDS && k < MAX_FDS && fds[k].used
      modifies this, store`icache, store`inodes, store`owner
      ensures Tables(multiset{}) && |fds| == |at| == |old(at)| == MAX_FDS
      ensures fds == old(fds)[k := old(fds)[k].(used := false)] && at == old(at)[k := None]
      ensures |store.icache| == |old(store.icache)| == NINODE && old(at)[k].Some? && old(at)[k].value < NINODE
      ensures var u := old(at)[k].value; store.icache == old(store.icache)[u := Dropped(old(store.icache)[u])]
      ensures Loaded(old(store.icache)[old(at)[k].value])
      ensures old(Valid(multiset{})) ==>
                && Valid(multiset{}) && SameContents(old(store.State()), store.State())
                && (store.NoLeak() <==> old(store.NoLeak()) && old(store.LetGo(at[k].value)))
      ensures old(Sound(multiset{})) ==> Sound(multiset{})
    {
      hide Tables, Valid, Store.Tab, Store.Wf, Ok, Held, DirsOk, SameContents, Store.NoLeak, OnDisk;
      ghost var valid, sound := Valid(multiset{}), Sound(multiset{});
      FdSlot(k);
      TabFacts(multiset{});
      if valid { ValidFacts(multiset{}); }
      var u := at[k].value;
      Detach(store.icache, fds, at, k);
      fds := fds[k := fds[k].(used := false)];
      at := at[k := None];
      TablesAre(multiset{u});
      if sound { SoundIs(multiset{u}); }
      assert multiset{u} - multiset{u} == multiset{} && u in multiset{u};
      Put(u, multiset{u});
      if valid { ValidIs(multiset{}); }
    }

    lemma ValidFacts(extra: multiset<nat>)
      requires Valid(extra)
      ensures Tables(extra) && store.Wf() && Shape(store.State()) && FilesOk(store.State()) && |store.icache| == NINODE
    {
      store.WfShape();
    }

    /** CLOSE of a descriptor of the sender: 0, and it is free. Any other CLOSE is refused. */
    twostate predicate CloseAnswered(sender: int, fd: int, r: Outcome)
      reads this, store
    {
      && |old(fds)| == |old(at)| == MAX_FDS
      && if old(Owns(sender, fd)) then
           && r == Reply(0, fd, []) && at == old(at)[fd := None]
           && fds == old(fds)[fd := old(fds)[fd].(used := false)]
         else Refused(fd, r)
    }

    /** CLOSE: 0 and the descriptor is free, or -1 if it is not the sender's. */
    method Close(sender: int, fd: int) returns (r: Outcome)
      requires Tables(multiset{}) && |fds| == MAX_FDS
      modifies this, store`icache, store`inodes, store`owner
      ensures Tables(multiset{}) && |fds| == |at| == |old(at)| == MAX_FDS && OthersKeep(sender)
      ensures !old(Owns(sender, fd)) ==>
                && r == Reply(-1, fd, []) && fds == old(fds) && at == old(at) && store.icache == old(store.icache)
                && store.State() == old(store.State()) && store.owner == old(store.owner)
      ensures old(Owns(sender, fd)) ==>
                && r == Reply(0, fd, [])
                && fds == old(fds)[fd := old(fds)[fd].(used := false)] && at == old(at)[fd := None]
                && old(at)[fd].Some? && old(at)[fd].value < |old(store.icache)|
      ensures old(Valid(multiset{})) ==> Valid(multiset{}) && SameContents(old(store.State()), store.State())
      ensures old(Valid(multiset{})) && old(Owns(sender, fd)) ==>
                (store.NoLeak() <==> old(store.NoLeak()) && old(store.LetGo(at[fd].value)))
      ensures old(Sound(multiset{})) ==> Sound(multiset{})
      ensures old(Safe(store.State(), store.icache)) && old(Valid(multiset{})) ==> Safe(store.State(), store.icache)
      ensures CloseAnswered(sender, fd, r)
    {
      hide Tables, Valid, DirsOk, SameContents, Store.NoLeak, Store.LetGo, Safe, Shape, FilesOk, LayoutOk;
      TabFacts(multiset{});
      if Valid(multiset{}) {
        ValidFacts(multiset{});
        SameContentsSelf(store.State());
      }
      if !(0 <= fd < MAX_FDS) || !fds[fd].used || fds[fd].owner != sender { return Reply(-1, fd, []); }
      Drop(fd);
      if old(Valid(multiset{})) {
        SafeFewer(old(store.State()), store.State(), old(store.icache), store.icache);
      }
      r := Reply(0, fd, []);
    }

    /** Exactly the sender's descriptors are given up. */
    twostate predicate AllClosed(sender: int)
      reads this, store
    {
      && |fds| == |at| == |old(fds)| == |old(at)| == MAX_FDS
      && forall k {:trigger fds[k]} {:trigger at[k]} :: 0 <= k < MAX_FDS ==>
           ClosedFor(sender, old(fds)[k], old(at)[k], fds[k], at[k])
    }

    /** close_all_for_owner: exactly the owner's descriptors are given up. In a well-formed file system every file keeps
        its contents; no block is lost exactly when there was no leak and every slot that only the owner had open agrees
        with the disk. */
    method CloseAllForOwner(owner: int)
      requires Tables(multiset{}) && |fds| == MAX_FDS
      modifies this, store`icache, store`inodes, store`owner
      ensures Tables(multiset{}) && |fds| == |at| == |old(at)| == MAX_FDS && OthersKeep(owner)
      ensures forall k {:trigger fds[k]} {:trigger at[k]} :: 0 <= k < MAX_FDS ==>
                ClosedFor(owner, old(fds)[k], old(at)[k], fds[k], at[k])
      ensures forall k {:trigger fds[k]} :: 0 <= k < MAX_FDS ==> !(fds[k].used && fds[k].owner == owner)
      ensures old(Valid(multiset{})) ==>
                && Valid(multiset{}) && SameContents(old(store.State()), store.State())
                && |old(store.icache)| == NINODE
                && (store.NoLeak() <==> old(store.NoLeak()) && old(CleanFor(owner)))
      ensures old(Sound(multiset{})) ==> Sound(multiset{})
      ensures old(Safe(store.State(), store.icache)) && old(Valid(multiset{})) ==> Safe(store.State(), store.icache)
      ensures AllClosed(owner)
    {
      hide Tables, Valid, DirsOk, SameContents, Store.NoLeak, Store.LetGo, Safe, Shape, FilesOk, LayoutOk, Closing,
           OnDisk, Sound, Fewer, Last, ClosedFor, RefsOk, FdOk;
      TabFacts(multiset{});
      ghost var c := Table(fds, at, store.State(), store.icache, Valid(multiset{}), Sound(multiset{}), store.NoLeak());
      StartClosing(owner, c);
      var i := 0;
      while i < MAX_FDS
        invariant 0 <= i <= MAX_FDS && Closing(owner, i, c)
      {
        CloseNext(owner, i, c);
        i := i + 1;
      }
      Closed(owner, c);
    }

    /** The inodes that only the owner has open are on disk as the slots have them. */
    ghost predicate CleanFor(owner: int)
      reads this, store
    {
      GoneFor(store.l, store.disk, store.icache, fds, at, owner)
    }

    /** The first i descriptors are done; c is what there was before. */
    ghost predicate Closing(owner: int, i: nat, c: Table)
      reads this, store
    {
      && Tables(multiset{}) && |fds| == |at| == |c.fds| == |c.at| == MAX_FDS && |store.icache| == |c.ic| == NINODE
      && (forall k {:trigger fds[k]} {:trigger at[k]} :: 0 <= k < MAX_FDS ==>
            if k < i then ClosedFor(owner, c.fds[k], c.at[k], fds[k], at[k])
            else fds[k] == c.fds[k] && at[k] == c.at[k])
      && (forall u {:trigger store.icache[u]} :: 0 <= u < NINODE ==> Fewer(c.ic[u], store.icache[u]))
      && store.disk == c.fs.blocks && (c.sound ==> Sound(multiset{}))
      && (c.valid ==>
            && Valid(multiset{}) && SameContents(c.fs, store.State())
            && (store.NoLeak() <==> c.tight && Gone(store.l, c.fs.blocks, c.ic, store.icache)))
    }

    lemma StartClosing(owner: int, c: Table)
      requires Tables(multiset{}) && c.fds == fds && c.at == at && c.fs == store.State() && c.ic == store.icache
      requires c.valid == Valid(multiset{}) && c.sound == Sound(multiset{}) && c.tight == store.NoLeak()
      ensures Closing(owner, 0, c)
    {
      hide Sound, SameContents, Store.NoLeak, OnDisk, Shape, FilesOk;
      TabFacts(multiset{});
      if c.valid {
        ValidFacts(multiset{});
        SameContentsSelf(c.fs);
      }
    }

    method CloseNext(owner: int, i: nat, ghost c: Table)
      requires i < MAX_FDS && Closing(owner, i, c)
      modifies this, store`icache, store`inodes, store`owner
      ensures Closing(owner, i + 1, c)
    {
      hide Tables, Valid, Sound, DirsOk, SameContents, Store.NoLeak, OnDisk, Gone;
      FdUsed(i);
      if fds[i].used && fds[i].owner == owner {
        ghost var q, ic, tight := store.State(), store.icache, store.NoLeak();
        Drop(i);
        if c.valid {
          SameContentsTrans(c.fs, q, store.State());
          GoneNext(store.l, c.fs.blocks, c.ic, ic, store.icache, c.at[i].value);
        }
      }
    }

    lemma FdUsed(k: nat)
      requires Tables(multiset{}) && k < MAX_FDS
      ensures |fds| == |at| == MAX_FDS && (fds[k].used <==> at[k].Some?)
    {
      assert FdOk(store.icache, fds, at, k);
    }

    lemma Closed(owner: int, c: Table)
      requires Closing(owner, MAX_FDS, c) && Ok(c.ic, c.fds, c.at, multiset{})
      ensures Tables(multiset{}) && |fds| == |at| == |c.fds| == |c.at| == MAX_FDS && |store.icache| == NINODE == |c.ic|
      ensures forall k {:trigger fds[k]} {:trigger at[k]} :: 0 <= k < MAX_FDS ==>
                ClosedFor(owner, c.fds[k], c.at[k], fds[k], at[k])
      ensures forall k {:trigger fds[k]} :: 0 <= k < MAX_FDS ==> !(fds[k].used && fds[k].owner == owner)
      ensures forall k {:trigger fds[k]} {:trigger at[k]} ::
                0 <= k < MAX_FDS && c.fds[k].used && c.fds[k].owner != owner ==>
                  fds[k] == c.fds[k] && at[k] == c.at[k]
      ensures c.sound ==> Sound(multiset{})
      ensures c.valid ==>
                && Valid(multiset{}) && SameContents(c.fs, store.State())
                && (store.NoLeak() <==> c.tight && GoneFor(store.l, c.fs.blocks, c.ic, c.fds, c.at, owner))
                && (Safe(c.fs, c.ic) ==> Safe(store.State(), store.icache))
    {
      hide Sound, Store.Tab, Store.Wf, Held, SameContents, Store.NoLeak, OnDisk, Safe, Ok;
      GoneIs(store.l, c.fs.blocks, c.ic, store.icache, c.fds, c.at, fds, at, owner);
      if c.valid { SafeFewer(c.fs, store.State(), c.ic, store.icache); }
    }

    // -------------------------------------------------------------- the loop

    /** The request writes to a directory. */
    ghost predicate WritesDirectory(req: Request)
      requires Valid(multiset{}) && |fds| == MAX_FDS
      reads this, store
    {
      req.WriteReq? && Owns(req.sender, req.fd) && fds[req.fd].writable && IsDir(req.fd)
    }

    /** The slots that the request gives up agree with the disk. */
    ghost predicate NoLoss(req: Request)
      requires Tables(multiset{}) && |fds| == MAX_FDS
      reads this, store
    {
      if req.CloseReq? && Owns(req.sender, req.fd) then
        FdSlot(req.fd);
        store.LetGo(at[req.fd].value)
      else (req.ExitReq? || req.ShutdownReq?) ==> CleanFor(req.sender)
    }

    /** The reply that the request is promised. */
    twostate predicate Answered(req: Request, r: Outcome, done: nat, inum: nat, k: nat)
      reads this, store
    {
      match req
      case OpenReq(sender, path, flags) => OpenAnswered(sender, path, flags, r, inum, k)
      case ReadReq(sender, fd, nbytes) => ReadAnswered(sender, fd, nbytes, r)
      case WriteReq(sender, fd, data) => WriteAnswered(sender, fd, data, r, done)
      case CloseReq(sender, fd) => CloseAnswered(sender, fd, r)
      case ShutdownReq(sender) => AllClosed(sender)
      case ExitReq(sender) => AllClosed(sender)
      case OtherReq(_, fd) => Refused(fd, r)
    }

    /** One turn of the loop: the replies to READ, WRITE, CLOSE and OPEN are the ones promised, and CLIENT_EXIT and
        SHUTDOWN close the sender's descriptors. Whatever the disk holds, it keeps the tables sound, unless it ends
        the server; it faults exactly for an OPEN with no slot for the root. In a sound file system the directories
        stay sound exactly if a write to one leaves sound bytes in it, and no block is lost exactly if the slots that
        are given up agree with the disk. */
    method Handle(req: Request) returns (r: Outcome, ghost done: nat, ghost inum: nat, ghost k: nat)
      requires Tables(multiset{}) && |fds| == MAX_FDS && (req.OpenReq? ==> NoNul(req.path))
      modifies this, store
      ensures r.Crash? <==> req.OpenReq? && !Gettable(old(store.icache), ROOTINO) && Path.Components(req.path) != []
      ensures r.Quit? ==> req.OpenReq? && Creates(req.flags)
      ensures (r.Stop? <==> req.ShutdownReq?) && (r.GoOn? <==> req.ExitReq?)
      ensures !Ends(r) ==> Tables(multiset{}) && |fds| == MAX_FDS && OthersKeep(req.sender)
      ensures r.Stop? || r.GoOn? ==>
                forall k {:trigger fds[k]} :: 0 <= k < |fds| ==> !(fds[k].used && fds[k].owner == req.sender)
      ensures old(Valid(multiset{})) && !req.OpenReq? ==> !Ends(r) && Valid(multiset{})
      ensures old(Sound(multiset{})) ==> !r.Panic? && (!Ends(r) ==> Valid(multiset{}))
      ensures old(Sound(multiset{})) && r.Quit? ==>
                store.Full() || old(store.inodes)[ROOTINO].size + DIRENT > MAXBYTES
      ensures old(Sound(multiset{})) && !Ends(r) ==>
                (Sound(multiset{}) <==> (old(WritesDirectory(req)) ==>
                   && r.Reply?
                   && DirBytes(old(store.State()), old(AfterWrite(req.fd, req.data, r.result, done)))))
      ensures (if req.OpenReq? then old(Sound(multiset{})) else old(Valid(multiset{})))
              && !Ends(r) && !req.WriteReq? && !(req.OpenReq? && Creates(req.flags)) ==>
                SameContents(old(store.State()), store.State())
      ensures (if req.OpenReq? then old(Sound(multiset{})) else old(Valid(multiset{})))
              && !Ends(r) && old(store.NoLeak()) ==>
                (store.NoLeak() <==> old(NoLoss(req)))
      ensures old(Sound(multiset{})) && old(Safe(store.State(), store.icache)) ==>
                !r.Crash? && (!Ends(r) ==> Safe(store.State(), store.icache))
      ensures Answered(req, r, done, inum, k)
    {
      hide Tables, Valid, Sound, Store.Wf, DirsOk, SameContents, Tight, Written, FilesOk, Shape, FdFile, FdInum,
           Opened, ClosedFor, OthersKeep, OpenDone, OnlyRoot, Gettable, DirBytes, AfterWrite, IsDir, OnDisk,
           Path.Components, SameRefs, PlusOne, CleanFor, SameOnDisk, SameIndirect, LayoutOk, Held, Ok, Store.Tab,
           ReadAnswered, WriteAnswered, CloseAnswered, OpenAnswered, AllClosed;
      ghost var valid, sound, fs := Valid(multiset{}), Sound(multiset{}), store.State();
      TabFacts(multiset{});
      if sound { SoundFacts(multiset{}); }
      if valid {
        ValidFacts(multiset{});
        SameContentsSelf(store.State());
      }
      done, inum, k := 0, 0, 0;
      match req {
      case OpenReq(sender, path, flags) =>
        r, inum, k := Open(sender, path, flags);
        if sound { OpenIs(r, inum, k, path, flags, fs, old(store.owner), old(store.icache)); }
      case ReadReq(sender, fd, nbytes) =>
        r := Read(sender, fd, nbytes);
        if sound {
          ValidFacts(multiset{});
          SoundIs(multiset{});
        }
      case WriteReq(sender, fd, data) =>
        r, done := Write(sender, fd, data);
      case CloseReq(sender, fd) =>
        r := Close(sender, fd);
      case ShutdownReq(sender) =>
        CloseAllForOwner(sender);
        r := Stop;
      case ExitReq(sender) =>
        CloseAllForOwner(sender);
        r := GoOn;
      case OtherReq(sender, fd) =>
        r := Reply(-1, fd, []);
        SelfKeeps(sender);
      }
      if !Ends(r) { TabFacts(multiset{}); }
    }

    twostate lemma SelfKeeps(sender: int)
      requires |fds| == |at| == MAX_FDS && fds == old(fds) && at == old(at)
      ensures OthersKeep(sender)
    {
    }

    lemma OpenIs(r: Outcome, inum: nat, k: nat, path: Name, flags: nat, fs: Fs, own: map<nat, Owner>, ic: seq<Uinode>)
      requires OpenDone(r, inum, k, path, flags, fs, own, ic)
      ensures !r.Panic? && RootDir(fs)
      ensures r.Quit? ==> store.Full() || fs.inodes[ROOTINO].size + DIRENT > MAXBYTES
      ensures r.Reply? ==> Sound(multiset{}) && Valid(multiset{})
      ensures r.Reply? && !Creates(flags) ==> store.State() == fs && store.owner == own
    {
      hide Tables, Store.Wf, DirsOk, Reached, IsCreated, Taken, Store.Full;
    }
  }

  /** The server, started on a disk that mkfs made. */
  method Boot(l: Layout) returns (srv: FileServer)
    requires LayoutOk(l) && ROOTINO < l.ninodes
    ensures fresh(srv) && fresh(srv.store) && srv.Sound(multiset{}) && srv.store.NoLeak() && srv.store.l == l
    ensures RootOnly(srv.store.State()) && srv.store.inodes[ROOTINO] == Inode(T_DIR, 0, 0, 1, 0, NoBlocks())
    ensures |srv.store.icache| == NINODE && forall u {:trigger srv.store.icache[u]} :: 0 <= u < NINODE ==>
                                              srv.store.icache[u].ref == 0
    ensures Safe(srv.store.State(), srv.store.icache)
    ensures |srv.fds| == MAX_FDS && forall k {:trigger srv.fds[k]} :: 0 <= k < MAX_FDS ==> !srv.fds[k].used
  {
    var disk := Format(l);
    var store := new Store(l, disk, map[]);
    EmptyDirs(store.State());
    srv := new FileServer(store);
    assert store.icache[0].ref == 0;
  }

  /** Every inode but the root is free. */
  ghost predicate RootOnly(fs: Fs) {
    && ROOTINO < |fs.inodes|
    && (forall i {:trigger fs.inodes[i]} :: 0 <= i < |fs.inodes| && i != ROOTINO ==> fs.inodes[i].kind == 0)
  }

  lemma EmptyDirs(fs: Fs)
    requires Shape(fs) && ROOTINO < |fs.inodes| && fs.inodes[ROOTINO].kind == T_DIR
    requires forall i {:trigger fs.inodes[i]} :: 0 <= i < |fs.inodes| && fs.inodes[i].kind == T_DIR ==>
               fs.inodes[i].size == 0
    ensures DirsOk(fs)
  {
  }
}
