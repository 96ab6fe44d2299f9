/** Reading and writing a remote descriptor: the chunk loops of sys_read and sys_write against the READ and WRITE
    cases of the server loop. A request and its reply are one call here; that each call gets its own reply is what
    FsProtocol shows. fs_ipc_call fails when the server is gone: `calls` is how many calls come back before that. */
module RemoteIo {
  import opened Blocks
  import opened BlockMap
  import opened FileSystem
  import opened ServerStore
  import opened Server
  import opened ServerPaths
  import opened ServerTables

  // ---------------------------------------------------------------- read

  predicate Readable(fds: seq<Fd>, pid: int, fd: int)
    requires |fds| == MAX_FDS
  {
    0 <= fd < MAX_FDS && fds[fd].used && fds[fd].owner == pid && fds[fd].readable
  }

  predicate Writable(fds: seq<Fd>, pid: int, fd: int)
    requires |fds| == MAX_FDS
  {
    0 <= fd < MAX_FDS && fds[fd].used && fds[fd].owner == pid && fds[fd].writable
  }

  /** A reader of descriptor fd has got `total` bytes of s; nothing else changed. */
  ghost predicate Reading(srv: FileServer, pid: int, fd: int, s: seq<byte>, fs: Fs, fds: seq<Fd>, total: nat)
    reads srv, srv.store
  {
    && srv.Valid(multiset{}) && |srv.fds| == |fds| == MAX_FDS && srv.store.State() == fs
    && (Readable(fds, pid, fd) ==>
          && srv.fds == fds[fd := fds[fd].(off := fds[fd].off + total)]
          && srv.FdFile(fd) == s && fds[fd].off + total <= |s|)
    && (!Readable(fds, pid, fd) ==> srv.fds == fds && total == 0)
  }

  /** read(fd, p, n): the next min(n, size - off) bytes, whatever n is, unless the server dies: then the full chunks
      that came before. No file changes. */
  method SysRead(srv: FileServer, pid: int, fd: int, n: int, calls: nat) returns (r: int, p: seq<byte>)
    requires srv.Valid(multiset{}) && |srv.fds| == MAX_FDS
    modifies srv, srv.store
    ensures srv.Valid(multiset{}) && |srv.fds| == MAX_FDS && srv.store.State() == old(srv.store.State())
    ensures !Readable(old(srv.fds), pid, fd) ==> p == [] && r == (if n > 0 then -1 else 0) && srv.fds == old(srv.fds)
    ensures Readable(old(srv.fds), pid, fd) ==>
              && srv.fds == old(srv.fds)[fd := old(srv.fds)[fd].(off := old(srv.fds)[fd].off + |p|)]
              && p == Slice(old(srv.FdFile(fd)), old(srv.fds)[fd].off, |p|)
              && (p == Slice(old(srv.FdFile(fd)), old(srv.fds)[fd].off, if n > 0 then n else 0)
                 || |p| == calls * IPC_DATA_SIZE)
              && r == if n > 0 && calls == 0 then -1 else |p|
  {
    ghost var s, fs, fds := [], srv.store.State(), srv.fds;
    ghost var off := if 0 <= fd < MAX_FDS then fds[fd].off else 0;
    if Readable(fds, pid, fd) { s := srv.FdFile(fd); }
    StartReading(srv, pid, fd, s);
    r, p := ReadLoop(srv, pid, fd, n, calls, s, fs, fds, off);
  }

  /** The loop of sys_read. */
  method ReadLoop(srv: FileServer, pid: int, fd: int, n: int, calls: nat,
                  ghost s: seq<byte>, ghost fs: Fs, ghost fds: seq<Fd>, ghost off: nat) returns (r: int, p: seq<byte>)
    requires Reading(srv, pid, fd, s, fs, fds, 0) && |fds| == MAX_FDS && Slice(s, off, 0) == []
    requires 0 <= fd < MAX_FDS ==> off == fds[fd].off
    modifies srv, srv.store
    ensures Reading(srv, pid, fd, s, fs, fds, |p|) && p == Slice(s, off, |p|)
    ensures !Readable(fds, pid, fd) ==> p == [] && r == if n > 0 then -1 else 0
    ensures Readable(fds, pid, fd) ==>
              && (p == Slice(s, off, if n > 0 then n else 0) || |p| == calls * IPC_DATA_SIZE)
              && r == if n > 0 && calls == 0 then -1 else |p|
  {
    hide Slice, Readable, Reading;
    p := [];
    var made := 0;
    while |p| < n
      invariant Reading(srv, pid, fd, s, fs, fds, |p|) && p == Slice(s, off, |p|)
      invariant (|p| == made * IPC_DATA_SIZE || |p| == n) && made <= calls && |p| <= (if n > 0 then n else 0)
      invariant if made > 0 then Readable(fds, pid, fd) && p != [] else p == []
    {
      var chunk := if n - |p| > IPC_DATA_SIZE then IPC_DATA_SIZE else n - |p|;
      if made == calls { return if |p| > 0 then |p| else -1, p; }
      var result, data;
      result, data := ReadNext(srv, pid, fd, s, fs, fds, off, |p|, chunk, n);
      made := made + 1;
      if result < 0 { return if |p| > 0 then |p| else -1, p; }
      if result == 0 { break; }
      p := p + data;
      if result < chunk { break; }
    }
    return |p|, p;
  }

  lemma StartReading(srv: FileServer, pid: int, fd: int, s: seq<byte>)
    requires srv.Valid(multiset{}) && |srv.fds| == MAX_FDS && (Readable(srv.fds, pid, fd) ==> s == srv.FdFile(fd))
    ensures Reading(srv, pid, fd, s, srv.store.State(), srv.fds, 0)
            && Slice(s, if 0 <= fd < MAX_FDS then srv.fds[fd].off else 0, 0) == []
  {
  }

  /** One turn of the loop of sys_read. A short reply is the end of the file. */
  method ReadNext(srv: FileServer, pid: int, fd: int, ghost s: seq<byte>, ghost fs: Fs, ghost fds: seq<Fd>,
                  ghost off: nat, ghost total: nat, chunk: nat, ghost n: nat) returns (result: int, data: seq<byte>)
    requires Reading(srv, pid, fd, s, fs, fds, total) && 0 < chunk <= IPC_DATA_SIZE && total + chunk <= n
    requires 0 <= fd < MAX_FDS ==> off == fds[fd].off
    requires |Slice(s, off, total)| == total
    modifies srv, srv.store
    ensures |fds| == MAX_FDS
    ensures !Readable(fds, pid, fd) ==> result == -1 && data == [] && Reading(srv, pid, fd, s, fs, fds, total)
    ensures Readable(fds, pid, fd) ==>
              && 0 <= result == |data| <= chunk && Reading(srv, pid, fd, s, fs, fds, total + result)
              && Slice(s, off, total) + data == Slice(s, off, total + result)
              && (result < chunk ==> Slice(s, off, total + result) == Slice(s, off, n))
  {
    hide Slice, FileServer.Valid, FileServer.Tables, FileServer.Sound, SameRefs, FileServer.FdFile,
         FileServer.OthersKeep, SameContents, Safe, Tight, Gettable, FileServer.NoLoss, IsRead;
    srv.ValidFacts(multiset{});
    var r;
    ghost var a, b, c;
    r, a, b, c := srv.Handle(ReadReq(pid, fd, chunk));
    result, data := r.result, r.data;
    if Readable(fds, pid, fd) {
      ReadIsSlice(s, off + total, chunk, fd, r);
      SliceJoin(s, off, total, chunk, n);
    }
  }

  lemma ReadIsSlice(s: seq<byte>, off: nat, n: nat, fd: int, r: Outcome)
    requires IsRead(s, off, n, fd, r) && n <= IPC_DATA_SIZE
    ensures r.Reply? && r.result == |r.data| && r.data == Slice(s, off, n)
  {
  }

  /** A slice continued by the next slice; a short one ends at the end of s. */
  lemma SliceJoin<T>(s: seq<T>, off: nat, total: nat, chunk: nat, n: nat)
    requires off <= |s| && |Slice(s, off, total)| == total && total + chunk <= n
    ensures var d := Slice(s, off + total, chunk);
            && |d| <= chunk && Slice(s, off, total) + d == Slice(s, off, total + |d|) && off + total + |d| <= |s|
            && (|d| < chunk ==> Slice(s, off, total + |d|) == Slice(s, off, n))
  {
  }

  // ---------------------------------------------------------------- write

  /** A writer has been told that t bytes are written; the file got d, as far as its length allows; no other file
      changed. Without a writable descriptor nothing has. */
  ghost predicate Written(srv: FileServer, pid: int, fd: int, s: seq<byte>, fs: Fs, fds: seq<Fd>, inum: nat,
                          t: nat, d: seq<byte>)
    reads srv, srv.store
  {
    && srv.Valid(multiset{}) && |srv.fds| == |fds| == MAX_FDS && t <= |d|
    && (!Writable(fds, pid, fd) ==> srv.fds == fds && srv.store.State() == fs && t == 0)
    && (Writable(fds, pid, fd) ==>
          && srv.fds == fds[fd := fds[fd].(off := fds[fd].off + t)] && fds[fd].off <= |s|
          && srv.FdInum(fd) == inum && OtherFiles(fs, srv.store.State(), inum)
          && |Splice(s, fds[fd].off, d)| >= Max(|s|, fds[fd].off + t)
          && srv.FdFile(fd) == Splice(s, fds[fd].off, d)[..Max(|s|, fds[fd].off + t)])
  }

  /** Why a write stops before its end. */
  ghost predicate Stuck(srv: FileServer, end: nat)
    reads srv.store
  {
    end > MAXBYTES || srv.store.Full()
  }

  /** The file, and the inode, that a writer has open. */
  ghost function FileOf(srv: FileServer, pid: int, fd: int): seq<byte>
    requires srv.Valid(multiset{}) && |srv.fds| == MAX_FDS
    reads srv, srv.store
  {
    if Writable(srv.fds, pid, fd) then srv.FdFile(fd) else []
  }

  ghost function InumOf(srv: FileServer, pid: int, fd: int): nat
    requires srv.Valid(multiset{}) && |srv.fds| == MAX_FDS
    reads srv, srv.store
  {
    if Writable(srv.fds, pid, fd) then srv.FdInum(fd) else 0
  }

  /** write(fd, p, n): all of p is spliced in at the offset. When it is not, the result is what the completed chunks
      come to, or -1 if there is none: those are in the file, the offset is behind them, and up to `done` bytes of the
      next chunk may be in the file as well, but not beyond its length. */
  method SysWrite(srv: FileServer, pid: int, fd: int, p: seq<byte>, calls: nat) returns (r: int, ghost done: nat)
    requires srv.Valid(multiset{}) && |srv.fds| == MAX_FDS
    modifies srv, srv.store
    ensures (r == -1 || 0 <= r <= |p|) && (r == 0 ==> p == []) && (if r < 0 then 0 else r) + done <= |p|
    ensures !Writable(old(srv.fds), pid, fd) ==> r == if p == [] then 0 else -1
    ensures var t := if r < 0 then 0 else r;
            Written(srv, pid, fd, old(FileOf(srv, pid, fd)), old(srv.store.State()), old(srv.fds),
                    old(InumOf(srv, pid, fd)), t, p[..t + done])
    ensures r < |p| && Writable(old(srv.fds), pid, fd) ==>
              || ((if r < 0 then 0 else r) == calls * IPC_DATA_SIZE && done == 0)
              || Stuck(srv, old(srv.fds)[fd].off + |p|)
  {
    hide *;
    StartWriting(srv, pid, fd, p);
    r, done := WriteLoop(srv, pid, fd, p, calls, FileOf(srv, pid, fd), srv.store.State(), srv.fds,
        InumOf(srv, pid, fd));
  }

  /** The loop of sys_write. */
  method WriteLoop(srv: FileServer, pid: int, fd: int, p: seq<byte>, calls: nat,
                   ghost s: seq<byte>, ghost fs: Fs, ghost fds: seq<Fd>, ghost inum: nat)
    returns (r: int, ghost done: nat)
    requires Written(srv, pid, fd, s, fs, fds, inum, 0, p[..0]) && |fds| == MAX_FDS
    modifies srv, srv.store
    ensures (r == -1 || 0 <= r <= |p|) && (r == 0 ==> p == []) && (if r < 0 then 0 else r) + done <= |p|
    ensures !Writable(fds, pid, fd) ==> r == if p == [] then 0 else -1
    ensures var t := if r < 0 then 0 else r; Written(srv, pid, fd, s, fs, fds, inum, t, p[..t + done])
    ensures r < |p| && Writable(fds, pid, fd) ==>
              ((if r < 0 then 0 else r) == calls * IPC_DATA_SIZE && done == 0) || Stuck(srv, fds[fd].off + |p|)
  {
    hide Written, Writable, Stuck;
    var n, total, made := |p|, 0, 0;
    while total < n
      invariant 0 <= total <= n && (total == made * IPC_DATA_SIZE || total == n) && made <= calls
      invariant if made > 0 then total > 0 && Writable(fds, pid, fd) else total == 0
      invariant Written(srv, pid, fd, s, fs, fds, inum, total, p[..total])
    {
      var chunk := if n - total > IPC_DATA_SIZE then IPC_DATA_SIZE else n - total;
      if made == calls { return if total > 0 then total else -1, 0; }
      var result;
      result, done := WriteNext(srv, pid, fd, p, s, fs, fds, inum, total, chunk);
      made := made + 1;
      if result < 0 { return if total > 0 then total else -1, done; }
      if result == 0 { break; }
      total := total + result;
      if result < chunk { break; }
    }
    return total, 0;
  }

  /** The bytes that count as written are in the file. */
  lemma HasPrefix(srv: FileServer, pid: int, fd: int, s: seq<byte>, fs: Fs, fds: seq<Fd>, inum: nat, t: nat,
                  d: seq<byte>)
    requires Written(srv, pid, fd, s, fs, fds, inum, t, d) && |fds| == MAX_FDS && Writable(fds, pid, fd)
    ensures srv.Valid(multiset{}) && |srv.fds| == MAX_FDS && srv.fds[fd].used && fds[fd].off + t <= |srv.FdFile(fd)|
    ensures srv.FdFile(fd)[fds[fd].off..fds[fd].off + t] == d[..t]
  {
    SpliceHas(s, fds[fd].off, d, t);
  }

  lemma StartWriting(srv: FileServer, pid: int, fd: int, p: seq<byte>)
    requires srv.Valid(multiset{}) && |srv.fds| == MAX_FDS
    ensures Written(srv, pid, fd, FileOf(srv, pid, fd), srv.store.State(), srv.fds, InumOf(srv, pid, fd), 0, p[..0])
  {
    assert p[..0] == [];
    srv.ValidFacts(multiset{});
    OtherSelf(srv.store.State(), InumOf(srv, pid, fd));
    if Writable(srv.fds, pid, fd) { SpliceNothing(srv.FdFile(fd), srv.fds[fd].off); }
  }

  /** One turn of the loop of sys_write: a reply is -1 or the whole chunk. */
  method WriteNext(srv: FileServer, pid: int, fd: int, p: seq<byte>, ghost s: seq<byte>, ghost fs: Fs,
                   ghost fds: seq<Fd>, ghost inum: nat, total: nat, chunk: nat) returns (result: int, ghost done: nat)
    requires total + chunk <= |p| && 0 < chunk <= IPC_DATA_SIZE
    requires Written(srv, pid, fd, s, fs, fds, inum, total, p[..total]) && |fds| == MAX_FDS
    modifies srv, srv.store
    ensures result == -1 || result == chunk
    ensures !Writable(fds, pid, fd) ==> result == -1
    ensures result != -1 ==> Written(srv, pid, fd, s, fs, fds, inum, total + chunk, p[..total + chunk])
    ensures result == -1 ==>
              && total + done <= |p| && Written(srv, pid, fd, s, fs, fds, inum, total, p[..total + done])
              && (Writable(fds, pid, fd) ==> Stuck(srv, fds[fd].off + |p|))
  {
    hide FileServer.Valid, FileServer.Tables, FileServer.Sound, FileServer.Written, Written, SameRefs, SameOnDisk,
         SameIndirect, FileServer.FdFile, FileServer.FdInum, FileServer.IsDir, FileServer.AfterWrite, Safe, Stuck;
    WrittenIs(srv, pid, fd, s, fs, fds, inum, total, p[..total]);
    ghost var e := p[total..total + chunk];
    assert Message(e) == e;
    ghost var q, fds1, s1 := srv.store.State(), srv.fds, if Writable(fds, pid, fd) then srv.FdFile(fd) else [];
    var reply;
    ghost var inum', k;
    reply, done, inum', k := srv.Handle(WriteReq(pid, fd, p[total..total + chunk]));
    result := reply.result;
    if Writable(fds, pid, fd) {
      WroteOn(srv, pid, fd, p, s, fs, fds, inum, total, chunk, result, done, q, fds1, s1);
    } else {
      done := 0;
      assert p[..total + done] == p[..total];
      WroteNothing(srv, pid, fd, s, fs, fds, inum, p[..total]);
    }
  }

  lemma WrittenIs(srv: FileServer, pid: int, fd: int, s: seq<byte>, fs: Fs, fds: seq<Fd>, inum: nat, t: nat,
                  d: seq<byte>)
    requires Written(srv, pid, fd, s, fs, fds, inum, t, d)
    ensures srv.Valid(multiset{}) && srv.Tables(multiset{}) && |srv.fds| == |fds| == MAX_FDS
    ensures !Writable(fds, pid, fd) ==> srv.fds == fds && srv.store.State() == fs && t == 0
    ensures Writable(fds, pid, fd) ==>
              && srv.fds == fds[fd := fds[fd].(off := fds[fd].off + t)] && srv.FdInum(fd) == inum && fds[fd].off <= |s|
              && OtherFiles(fs, srv.store.State(), inum) && |d| >= t
              && |Splice(s, fds[fd].off, d)| >= Max(|s|, fds[fd].off + t)
              && srv.FdFile(fd) == Splice(s, fds[fd].off, d)[..Max(|s|, fds[fd].off + t)]
  {
    hide FileServer.FdFile, FileServer.FdInum, OtherFiles, Splice;
    srv.ValidFacts(multiset{});
  }

  lemma WroteNothing(srv: FileServer, pid: int, fd: int, s: seq<byte>, fs: Fs, fds: seq<Fd>, inum: nat, d: seq<byte>)
    requires srv.Valid(multiset{}) && |srv.fds| == |fds| == MAX_FDS && !Writable(fds, pid, fd)
    requires srv.fds == fds && srv.store.State() == fs
    ensures Written(srv, pid, fd, s, fs, fds, inum, 0, d)
  {
    hide FileServer.Valid;
  }

  /** What the server's WRITE of the next chunk comes to. */
  lemma WroteOn(srv: FileServer, pid: int, fd: int, p: seq<byte>, s: seq<byte>, fs: Fs, fds: seq<Fd>, inum: nat,
                total: nat, chunk: nat, result: int, done: nat, q: Fs, fds1: seq<Fd>, s1: seq<byte>)
    requires |fds| == MAX_FDS && Writable(fds, pid, fd) && total + chunk <= |p| && fds[fd].off <= |s| && chunk > 0
    requires fds1 == fds[fd := fds[fd].(off := fds[fd].off + total)] && OtherFiles(fs, q, inum)
    requires s1 == Splice(s, fds[fd].off, p[..total])[..Max(|s|, fds[fd].off + total)]
    requires |Splice(s, fds[fd].off, p[..total])| >= Max(|s|, fds[fd].off + total)
    requires srv.Written(fd, p[total..total + chunk], result, done, fds1, q, inum, s1)
    ensures result == -1 || result == chunk
    ensures result != -1 ==> Written(srv, pid, fd, s, fs, fds, inum, total + chunk, p[..total + chunk])
    ensures result == -1 ==>
              && total + done <= |p| && Written(srv, pid, fd, s, fs, fds, inum, total, p[..total + done])
              && Stuck(srv, fds[fd].off + |p|)
  {
    hide FileServer.Valid, FileServer.FdFile, FileServer.FdInum, OtherFiles, Splice;
    var off := fds[fd].off;
    SpliceWhole(s, off, p[..total]);
    OtherTrans(fs, q, srv.store.State(), inum);
    if result != -1 {
      SplicePart(s, off, p, total, chunk);
      SpliceWhole(s, off, p[..total + chunk]);
    } else {
      SplicePart(s, off, p, total, done);
      assert p[total..total + chunk][..done] == p[total..total + done];
    }
  }

  lemma SpliceWhole<T>(s: seq<T>, off: nat, d: seq<T>)
    requires off <= |s|
    ensures |Splice(s, off, d)| == Max(|s|, off + |d|) && Splice(s, off, d)[..Max(|s|, off + |d|)] == Splice(s, off, d)
  {
  }

  /** A part of p on top of the part before it. */
  lemma SplicePart<T>(s: seq<T>, off: nat, p: seq<T>, total: nat, more: nat)
    requires off <= |s| && total + more <= |p|
    ensures |Splice(s, off, p[..total])| >= off + total
    ensures Splice(Splice(s, off, p[..total]), off + total, p[total..total + more]) == Splice(s, off, p[..total + more])
    ensures |Splice(s, off, p[..total + more])| >= Max(|s|, off + total)
  {
    assert p[..total + more] == p[..total] + p[total..total + more];
    SpliceMore(s, off, p[..total], p[total..total + more]);
  }

  lemma SpliceHas<T>(s: seq<T>, off: nat, d: seq<T>, t: nat)
    requires off <= |s| && t <= |d|
    ensures |Splice(s, off, d)| >= Max(|s|, off + t)
    ensures Splice(s, off, d)[..Max(|s|, off + t)][off..off + t] == d[..t]
  {
    var r := Splice(s, off, d);
    assert r[off..off + |d|] == d;
    assert r[..Max(|s|, off + t)][off..off + t] == r[off..off + |d|][..t];
  }
}
