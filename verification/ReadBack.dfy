/** The point of the server: what is written under a path is what is read back under that path after it was closed, by
    any client. Every request goes through the turn of the server's loop. */
module ReadBack {
  import opened Prelude
  import opened Blocks
  import opened BlockMap
  import opened FileSystem
  import opened Directory
  import opened ServerStore
  import opened ServerIo
  import opened ServerNames
  import opened ServerPaths
  import opened ServerTables
  import opened Server

  // ---------------------------------------------------------------- where a path leads

  /** The path leads to file inum, which is not a directory. */
  ghost predicate Leads(fs: Fs, path: Name, inum: nat) {
    && RootDir(fs) && Walk(fs, ROOTINO, Path.Components(path)) == Some(inum)
    && inum < |fs.inodes| && fs.inodes[inum].kind != T_DIR
  }

  /** A path of one name that does not lead to a directory. */
  ghost predicate Fine(fs: Fs, path: Name) {
    && RootDir(fs) && |Path.Components(path)| == 1
    && forall i: nat :: Walk(fs, ROOTINO, Path.Components(path)) == Some(i) ==>
         i < |fs.inodes| && fs.inodes[i].kind != T_DIR
  }

  /** A write to a file that is not a directory leaves every path where it led. */
  lemma {:induction false} WalkAfterWrite(fs: Fs, r: Fs, i: nat, j: nat, cs: seq<Name>)
    requires OtherFiles(fs, r, i) && FilesOk(fs) && FilesOk(r) && i < |fs.inodes| && j < |fs.inodes|
    requires r.inodes[i].kind == fs.inodes[i].kind != T_DIR
    ensures Walk(r, j, cs) == Walk(fs, j, cs)
    decreases |cs|
  {
    hide Contents, FileOk, Entries, SameOthers, Find;
    if cs != [] {
      FileIsOk(fs, j);
      FileIsOk(r, j);
      SameLookup(fs, r, i, j, Shorten(cs[0]));
      var x := Lookup(fs, j, Shorten(cs[0]));
      if x.Some? && x.value < |fs.inodes| { WalkAfterWrite(fs, r, i, x.value, cs[1..]); }
    }
  }

  lemma SameLookup(fs: Fs, r: Fs, i: nat, j: nat, name: Name)
    requires OtherFiles(fs, r, i) && i < |fs.inodes| && j < |fs.inodes| && FileOk(fs, j) && FileOk(r, j)
    requires r.inodes[i].kind == fs.inodes[i].kind != T_DIR
    ensures Lookup(r, j, name) == Lookup(fs, j, name)
  {
    hide Entries, Find, FileBlock;
    if j != i {
      assert r.inodes[j] == fs.inodes[j];
      assert Contents(r, j) == Contents(fs, j);
    }
  }

  lemma LeadsAfterWrite(fs: Fs, r: Fs, i: nat, path: Name)
    requires OtherFiles(fs, r, i) && FilesOk(r) && Leads(fs, path, i) && r.inodes[i].kind == fs.inodes[i].kind
    ensures Leads(r, path, i)
  {
    hide Path.Components, Walk, FilesOk, SameOthers, Shape;
    WalkAfterWrite(fs, r, i, ROOTINO, Path.Components(path));
  }

  lemma LeadsAfterClose(fs: Fs, r: Fs, i: nat, path: Name)
    requires SameContents(fs, r) && FilesOk(r) && Leads(fs, path, i)
    ensures Leads(r, path, i) && FileOk(fs, i) && FileOk(r, i) && Contents(r, i) == Contents(fs, i)
  {
    hide Path.Components, Walk, FilesOk, Shape, Contents, FileOk;
    SameWalk(fs, r, ROOTINO, Path.Components(path));
    assert SameAt(fs, r, i) && SameAt(fs, r, ROOTINO);
  }

  /** A path of one name that leads nowhere has no entry in the root. */
  lemma NoEntry(fs: Fs, path: Name)
    requires RootDir(fs) && DirsOk(fs) && |Path.Components(path)| == 1
    requires Walk(fs, ROOTINO, Path.Components(path)) == None
    ensures Lookup(fs, ROOTINO, CreatedName(path)) == None
  {
    hide Path.Components, Entries, Contents, FileOk, FilesOk, Shape;
    var cs := Path.Components(path);
    FileIsOk(fs, ROOTINO);
    assert DirOk(fs, ROOTINO);
    var es := DirEntries(fs, ROOTINO);
    if Lookup(fs, ROOTINO, CreatedName(path)).Some? { FindExists(fs, es, CreatedName(path), 0); }
    assert cs[1..] == [];
  }

  lemma {:induction false} FindExists(fs: Fs, es: seq<Entry>, name: Name, k: nat)
    requires k <= |es| && Find(es, name, k).Some?
    requires forall j {:trigger es[j]} :: 0 <= j < |es| ==> EntryOk(fs, es[j])
    ensures Find(es, name, k).value < |fs.inodes|
    decreases |es| - k
  {
    if es[k].inum == 0 || es[k].name != name { FindExists(fs, es, name, k + 1); }
  }

  // ---------------------------------------------------------------- one request after the other

  /** Descriptor fd of the client has open what the path leads to. */
  ghost predicate Has(srv: FileServer, pid: int, fd: int, path: Name, inum: nat)
    reads srv, srv.store
  {
    && srv.Sound(multiset{}) && |srv.fds| == MAX_FDS && srv.Owns(pid, fd) && srv.FdInum(fd) == inum
    && Leads(srv.store.State(), path, inum)
  }

  /** What OPEN came to, if it gave a descriptor. */
  lemma OpenedLeads(srv: FileServer, r: Outcome, inum: nat, k: nat, path: Name, flags: nat, fs: Fs,
                    own: map<nat, Owner>, ic: seq<Uinode>)
    requires srv.OpenDone(r, inum, k, path, flags, fs, own, ic) && r.Reply? && r.result != -1
    requires DirsOk(fs) && Fine(fs, path) && TwoSpare(ic)
    ensures srv.Sound(multiset{}) && Leads(srv.store.State(), path, inum)
    ensures !Creates(flags) ==> Leads(fs, path, inum) && srv.store.State() == fs
  {
    hide FileServer.Tables, Path.Components, Walk, AllUsed, Gettable, Taken, NoRoom, Store.Full, Shape, FilesOk,
         CreatedName, TwoSpare, DirsOk;
    srv.SoundFacts(multiset{});
    if Reached(fs, ic, path).None? {
      NoEntry(fs, path);
      CreatedIsFound(fs, srv.store.State(), inum, path, k);
      assert srv.store.inodes[inum].kind != T_DIR by { NewIsFile(fs, srv.store.State(), inum, CreatedName(path), k); }
    }
  }

  /** The disk has no block left, or the root directory no room. */
  ghost predicate NoSpace(srv: FileServer, fs: Fs)
    requires ROOTINO < |fs.inodes|
    reads srv.store
  {
    srv.store.Full() || fs.inodes[ROOTINO].size + DIRENT > MAXBYTES
  }

  ghost predicate NoInodeFree(fs: Fs) {
    forall i {:trigger fs.inodes[i]} :: 0 < i < |fs.inodes| ==> fs.inodes[i].kind != 0
  }

  /** Why OPEN gave no descriptor, with two slots spare. */
  lemma OpenRefused(srv: FileServer, r: Outcome, inum: nat, k: nat, path: Name, flags: nat, fs: Fs,
                    own: map<nat, Owner>, ic: seq<Uinode>)
    requires srv.OpenDone(r, inum, k, path, flags, fs, own, ic) && (r.Reply? ==> r.result == -1)
    requires r.Reply? || r.Quit? || r.Panic?
    requires DirsOk(fs) && Fine(fs, path) && TwoSpare(ic)
    requires Creates(flags) || Walk(fs, ROOTINO, Path.Components(path)).Some?
    ensures (r.Reply? && AllUsed(srv.fds)) || (Creates(flags) && (NoSpace(srv, fs) || NoInodeFree(fs)))
  {
    hide FileServer.Sound, Path.Components, Walk, AllUsed, Store.Full, Shape, FilesOk, CreatedName, DirsOk, IsCreated,
         Lookup;
    assert Gettable(ic, ROOTINO) by { var a, b :| 0 <= a < b < |ic| && ic[a].ref <= 0 && ic[b].ref <= 0; }
    hide Gettable, TwoSpare;
    if Reached(fs, ic, path).None? { NoEntry(fs, path); }
  }

  lemma NewIsFile(fs: Fs, r: Fs, inum: nat, name: Name, k: nat)
    requires IsCreated(fs, r, inum, name, k)
    ensures inum < |r.inodes| && r.inodes[inum].kind != T_DIR
  {
  }

  lemma IsOpen(srv: FileServer, pid: int, fd: nat, path: Name, inum: nat)
    requires srv.Sound(multiset{}) && |srv.fds| == |srv.at| == MAX_FDS && fd < MAX_FDS && srv.fds[fd].used
    requires srv.fds[fd].owner == pid && srv.at[fd].Some? && srv.at[fd].value < |srv.store.icache|
    requires srv.store.icache[srv.at[fd].value].inum == inum && Leads(srv.store.State(), path, inum)
    ensures Has(srv, pid, fd, path, inum)
  {
    hide FileServer.Tables, Store.Wf, DirsOk, Leads, FileServer.FdFile, FileServer.FdInum, Shape;
    srv.SoundFacts(multiset{});
    srv.FdIs(fd);
  }

  /** OPEN of a path that does not lead to a directory. */
  method OpenPath(srv: FileServer, pid: int, path: Name, flags: nat) returns (ok: bool, fd: int, ghost inum: nat)
    requires srv.Sound(multiset{}) && |srv.fds| == MAX_FDS && NoNul(path)
    requires Fine(srv.store.State(), path) && TwoSpare(srv.store.icache)
    requires Creates(flags) || Walk(srv.store.State(), ROOTINO, Path.Components(path)).Some?
    modifies srv, srv.store
    ensures ok ==>
              && Has(srv, pid, fd, path, inum) && srv.fds[fd].off == 0
              && srv.fds[fd].readable == (flags % 2 == 0)
              && srv.fds[fd].writable == (flags % 2 == 1 || flags / 2 % 2 == 1)
              && |srv.at| == |old(srv.at)| == MAX_FDS && old(srv.at)[fd] == None
              && srv.at == old(srv.at)[fd := srv.at[fd]]
    ensures ok && !Creates(flags) ==>
              srv.store.State() == old(srv.store.State()) && Leads(srv.store.State(), path, inum)
    ensures !ok ==>
              || AllUsed(old(srv.fds))
              || (Creates(flags) && (NoSpace(srv, old(srv.store.State())) || NoInodeFree(old(srv.store.State()))))
  {
    hide FileServer.Sound, FileServer.Tables, FileServer.Valid, FileServer.OpenDone, Path.Components, Walk, Fine,
         Leads, Has, SameContents, Tight, Safe, Gettable, FileServer.NoLoss, FileServer.OthersKeep, Shape, TwoSpare,
         FileServer.FdInum, FileServer.FdFile, DirsOk, NoSpace, NoInodeFree, AllUsed;
    srv.SoundFacts(multiset{});
    RootGettable(srv.store.icache);
    ghost var fs, own, ic := srv.store.State(), srv.store.owner, srv.store.icache;
    var r;
    ghost var done, k;
    NoneAt(srv);
    r, done, inum, k := srv.Handle(OpenReq(pid, path, flags));
    if !r.Reply? || r.result == -1 {
      OpenRefused(srv, r, inum, k, path, flags, fs, own, ic);
      return false, -1, inum;
    }
    OpenedLeads(srv, r, inum, k, path, flags, fs, own, ic);
    ok, fd := true, r.result;
    IsOpen(srv, pid, fd, path, inum);
  }

  lemma RootGettable(ic: seq<Uinode>)
    requires TwoSpare(ic)
    ensures Gettable(ic, ROOTINO)
  {
    var a, b :| 0 <= a < b < |ic| && ic[a].ref <= 0 && ic[b].ref <= 0;
  }

  /** An unused descriptor has no slot. */
  lemma NoneAt(srv: FileServer)
    requires srv.Tables(multiset{})
    ensures |srv.fds| == |srv.at| == MAX_FDS
    ensures forall k {:trigger srv.at[k]} {:trigger srv.fds[k]} :: 0 <= k < MAX_FDS && !srv.fds[k].used ==>
              srv.at[k] == None
  {
    hide Store.Tab, Held, RefsOk;
    forall k | 0 <= k < MAX_FDS && !srv.fds[k].used ensures srv.at[k] == None {
      assert FdOk(srv.store.icache, srv.fds, srv.at, k);
    }
  }

  /** Who has a slot open is what its reference count says, so the same descriptors leave the same slots spare. */
  lemma SparesBack(srv: FileServer, ic: seq<Uinode>, at: seq<Option<nat>>)
    requires srv.Tables(multiset{}) && RefsOk(ic, at, multiset{}) && srv.at == at && TwoSpare(ic)
    ensures TwoSpare(srv.store.icache)
  {
    hide Store.Tab, Held;
    assert RefsOk(srv.store.icache, at, multiset{});
    var a, b :| 0 <= a < b < |ic| && ic[a].ref <= 0 && ic[b].ref <= 0;
    assert srv.store.icache[a].ref == ic[a].ref && srv.store.icache[b].ref == ic[b].ref;
  }

  lemma HasRefs(srv: FileServer)
    requires srv.Sound(multiset{})
    ensures srv.Tables(multiset{}) && RefsOk(srv.store.icache, srv.at, multiset{})
  {
    hide Store.Tab, Held, FdOk;
  }

  lemma HasFacts(srv: FileServer, pid: int, fd: int, path: Name, inum: nat)
    requires Has(srv, pid, fd, path, inum)
    ensures srv.Sound(multiset{}) && srv.Valid(multiset{}) && srv.Tables(multiset{}) && |srv.fds| == MAX_FDS
    ensures srv.Owns(pid, fd) && srv.FdInum(fd) == inum && !srv.IsDir(fd)
    ensures Shape(srv.store.State()) && FilesOk(srv.store.State()) && DirsOk(srv.store.State())
    ensures inum < |srv.store.inodes| && FileOk(srv.store.State(), inum)
    ensures srv.FdFile(fd) == Contents(srv.store.State(), inum) && Leads(srv.store.State(), path, inum)
  {
    hide FileServer.Tables, Store.Wf, DirsOk, Path.Components, Walk, FileServer.FdFile, FileServer.FdInum, Shape,
         FilesOk, FileOk, Contents;
    srv.SoundFacts(multiset{});
    srv.FdIs(fd);
  }

  /** WRITE at the start of the file. */
  method WriteStart(srv: FileServer, pid: int, fd: int, d: seq<byte>, ghost path: Name, ghost inum: nat)
    returns (ok: bool)
    requires Has(srv, pid, fd, path, inum) && srv.fds[fd].writable && srv.fds[fd].off == 0 && |d| <= 128
    modifies srv, srv.store
    ensures ok ==> Has(srv, pid, fd, path, inum) && |srv.FdFile(fd)| >= |d| && srv.FdFile(fd)[..|d|] == d
    ensures ok ==> srv.at == old(srv.at)
    ensures !ok ==> srv.store.Full()
  {
    HasFacts(srv, pid, fd, path, inum);
    hide FileServer.Sound, FileServer.Tables, FileServer.Valid, FileServer.Written, Path.Components, Walk, RootDir,
         Leads, Has, SameContents, Tight, Safe, FileServer.NoLoss, FileServer.OthersKeep, Shape, FilesOk, DirsOk,
         FileServer.FdInum, FileServer.FdFile, FileServer.IsDir, FileServer.AfterWrite, HasBytes, FileOk, Contents;
    ghost var fs, s, fds := srv.store.State(), srv.FdFile(fd), srv.fds;
    var r;
    ghost var done, i, k;
    r, done, i, k := srv.Handle(WriteReq(pid, fd, d));
    if r.result == -1 {
      DiskFull(srv, fd, d, done, fds, fs, inum, s);
      return false;
    }
    StillHas(srv, pid, fd, d, r.result, done, fds, fs, path, inum, s);
    ok := true;
  }

  lemma DiskFull(srv: FileServer, fd: nat, d: seq<byte>, done: nat, fds: seq<Fd>, fs: Fs, inum: nat, s: seq<byte>)
    requires srv.Written(fd, d, -1, done, fds, fs, inum, s) && fds[fd].off == 0 && |d| <= 128
    ensures srv.store.Full()
  {
    hide FileServer.Valid, FileServer.FdFile, FileServer.FdInum, Store.Full, OtherFiles, NewBytes;
  }

  lemma StillHas(srv: FileServer, pid: int, fd: int, d: seq<byte>, result: int, done: nat, fds: seq<Fd>, fs: Fs,
                 path: Name, inum: nat, s: seq<byte>)
    requires 0 <= fd < MAX_FDS && srv.Written(fd, d, result, done, fds, fs, inum, s) && result != -1
    requires srv.Sound(multiset{}) && Leads(fs, path, inum) && fds[fd].off == 0 && fds[fd].owner == pid
    requires HasBytes(s, 0, d, srv.FdFile(fd))
    ensures Has(srv, pid, fd, path, inum) && |srv.FdFile(fd)| >= |d| && srv.FdFile(fd)[..|d|] == d
  {
    hide FileServer.Tables, Store.Wf, Path.Components, Walk, FileServer.FdFile, FileServer.FdInum, Shape, FilesOk,
         DirsOk, SameOthers, NewBytes;
    srv.SoundFacts(multiset{});
    LeadsAfterWrite(fs, srv.store.State(), inum, path);
  }

  /** CLOSE keeps the file and its name. */
  method CloseIt(srv: FileServer, pid: int, fd: int, ghost path: Name, ghost inum: nat, ghost s: seq<byte>)
    requires Has(srv, pid, fd, path, inum) && srv.FdFile(fd) == s
    modifies srv, srv.store
    ensures srv.Sound(multiset{}) && |srv.fds| == MAX_FDS && Leads(srv.store.State(), path, inum)
    ensures FileOk(srv.store.State(), inum) && Contents(srv.store.State(), inum) == s
    ensures |old(srv.at)| == MAX_FDS && 0 <= fd < MAX_FDS && !srv.fds[fd].used && srv.at == old(srv.at)[fd := None]
  {
    HasFacts(srv, pid, fd, path, inum);
    hide FileServer.Sound, FileServer.Tables, FileServer.Valid, Path.Components, Walk, RootDir, Leads, Has,
         SameContents, Tight, Safe, FileServer.NoLoss, FileServer.OthersKeep, Shape, FilesOk, DirsOk,
         FileServer.FdInum, FileServer.FdFile, FileOk, Contents;
    ghost var fs := srv.store.State();
    var r;
    ghost var done, i, k;
    r, done, i, k := srv.Handle(CloseReq(pid, fd));
    srv.SoundFacts(multiset{});
    LeadsAfterClose(fs, srv.store.State(), inum, path);
  }

  /** READ from the start of the file. */
  method ReadStart(srv: FileServer, pid: int, fd: int, n: nat, ghost path: Name, ghost inum: nat)
    returns (got: seq<byte>)
    requires Has(srv, pid, fd, path, inum) && srv.fds[fd].readable && srv.fds[fd].off == 0
    requires n <= 128 && n <= |srv.FdFile(fd)|
    modifies srv, srv.store
    ensures |old(srv.FdFile(fd))| >= n && got == old(srv.FdFile(fd))[..n]
  {
    HasFacts(srv, pid, fd, path, inum);
    hide FileServer.Sound, FileServer.Tables, FileServer.Valid, Has, SameContents, Tight, Safe, FileServer.NoLoss,
         FileServer.OthersKeep, FileServer.FdInum, FileServer.FdFile;
    var r;
    ghost var done, i, k;
    r, done, i, k := srv.Handle(ReadReq(pid, fd, n));
    got := r.data;
  }

  lemma LeadsFine(fs: Fs, path: Name, inum: nat)
    requires Leads(fs, path, inum) && |Path.Components(path)| == 1
    ensures Fine(fs, path) && Walk(fs, ROOTINO, Path.Components(path)) == Some(inum)
  {
  }

  lemma OneLeads(fs: Fs, path: Name, i: nat, j: nat)
    requires Leads(fs, path, i) && Leads(fs, path, j)
    ensures i == j
  {
  }

  /** In a sound file system with two inode slots spare, a client writes a message under a name that is not a
      directory's and closes, and another opens the name and reads: it gets the message. That fails only without a
      free descriptor or inode, or with the disk or the root directory full. */
  method WriteThenRead(srv: FileServer, writer: int, reader: int, path: Name, d: seq<byte>)
    returns (ok: bool, got: seq<byte>)
    requires srv.Sound(multiset{}) && |srv.fds| == MAX_FDS && NoNul(path) && |d| <= 128
    requires Fine(srv.store.State(), path) && TwoSpare(srv.store.icache)
    modifies srv, srv.store
    ensures ok ==> got == d
    ensures !ok ==>
              || AllUsed(old(srv.fds)) || NoInodeFree(old(srv.store.State())) || NoSpace(srv, old(srv.store.State()))
  {
    hide FileServer.Sound, FileServer.Valid, Path.Components, Walk, Has, TwoSpare, FileServer.FdFile,
         FileServer.FdInum, Contents, FileOk, Fine, Leads, NoInodeFree, RefsOk, Store.Full;
    got := [];
    Creating();
    HasRefs(srv);
    ghost var ic, at := srv.store.icache, srv.at;
    OneName(srv.store.State(), path);
    var fd, fd';
    ghost var inum, inum';
    ok, fd, inum := OpenPath(srv, writer, path, 0x202);
    if !ok { return; }
    ok := WriteStart(srv, writer, fd, d, path, inum);
    if !ok { return; }
    HasFacts(srv, writer, fd, path, inum);
    CloseIt(srv, writer, fd, path, inum, srv.FdFile(fd));
    HasRefs(srv);
    assert srv.at == at;
    SparesBack(srv, ic, at);
    LeadsFine(srv.store.State(), path, inum);
    ghost var fds := srv.fds;
    ok, fd', inum' := OpenPath(srv, reader, path, 0);
    assert ok by { NotAllUsed(fds, fd); }
    HasFacts(srv, reader, fd', path, inum');
    OneLeads(srv.store.State(), path, inum, inum');
    got := ReadStart(srv, reader, fd', |d|, path, inum');
  }

  lemma NotAllUsed(fds: seq<Fd>, k: nat)
    requires k < |fds| && !fds[k].used
    ensures !AllUsed(fds)
  {
  }

  lemma OneName(fs: Fs, path: Name)
    requires Fine(fs, path)
    ensures ROOTINO < |fs.inodes| && |Path.Components(path)| == 1
  {
  }

  lemma Creating()
    ensures !Creates(0) && Creates(0x202)
  {
    FlagBits(0);
    FlagBits(0x202);
  }
}
