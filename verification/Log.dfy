/** log.c over the buffer cache: the loops that perform the events of RedoLog.

    A method returning false is a panic (or, for BeginOp, a process that sleeps). */
module Log {
  import opened Prelude
  import opened BufferCache
  import opened RedoLog

  /** Every clean buffer shows its block as it is on disk: other processes may hold buffers, but a
      change they make goes through Update. */
  ghost predicate Settled(buf: seq<Buf>, disk: seq<Block>) {
    forall i {:trigger buf[i]} :: 0 <= i < |buf| && buf[i].valid && !buf[i].dirty ==>
      buf[i].blockno < |disk| && buf[i].data == disk[buf[i].blockno]
  }

  /** The clean buffers that some process holds, or waits for. */
  ghost function HeldClean(buf: seq<Buf>): set<nat> {
    set i: nat | i < |buf| && !buf[i].dirty && buf[i].refcnt > 0
  }

  /** Nobody holds a buffer. */
  ghost predicate Quiet(buf: seq<Buf>) {
    forall i :: 0 <= i < |buf| ==> buf[i].refcnt == 0
  }

  /** Other processes hold in buf' exactly what they hold in buf. */
  ghost predicate SameHolders(buf: seq<Buf>, buf': seq<Buf>) {
    && |buf'| == |buf|
    && (forall i {:trigger buf'[i]} {:trigger buf[i]} :: 0 <= i < |buf| ==>
          && buf'[i].refcnt == buf[i].refcnt
          && (buf[i].refcnt > 0 ==> buf'[i].dev == buf[i].dev && buf'[i].blockno == buf[i].blockno))
  }

  /** ... and nothing new is pinned. */
  ghost predicate Kept(buf: seq<Buf>, buf': seq<Buf>) {
    && SameHolders(buf, buf')
    && (forall i {:trigger buf'[i]} {:trigger buf[i]} :: 0 <= i < |buf| && buf'[i].dirty ==>
          buf[i].dirty && buf'[i].dev == buf[i].dev && buf'[i].blockno == buf[i].blockno)
  }

  /** The log code has read the buffers in `own`, once each, on top of what was held in buf. */
  ghost predicate Own(buf: seq<Buf>, buf': seq<Buf>, own: set<nat>) {
    && |buf'| == |buf|
    && (forall i {:trigger buf'[i]} {:trigger buf[i]} :: 0 <= i < |buf| ==>
          && buf'[i].refcnt == buf[i].refcnt + (if i in own then 1 else 0)
          && buf'[i].dirty == buf[i].dirty
          && (buf[i].refcnt > 0 || buf[i].dirty ==> buf'[i].dev == buf[i].dev && buf'[i].blockno == buf[i].blockno))
  }

  lemma {:induction false} BijectionSize<A(!new), B(!new)>(s: set<A>, t: set<B>, f: A -> B)
    requires forall a :: a in s ==> f(a) in t
    requires forall a, a' :: a in s && a' in s && a != a' ==> f(a) != f(a')
    requires forall b :: b in t ==> exists a :: a in s && f(a) == b
    ensures |s| == |t|
  {
    if s == {} {
      assert t == {};
    } else {
      var a :| a in s;
      BijectionSize(s - {a}, t - {f(a)}, f);
    }
  }

  ghost function Elems<T>(s: seq<T>): set<T> {
    set x | x in s
  }

  lemma ElemsSize<T>(s: seq<T>)
    requires forall i, j :: 0 <= i < j < |s| ==> s[i] != s[j]
    ensures |Elems(s)| == |s|
  {
    SetSize(s);
  }

  /** A busy buffer is pinned for one block, or clean and held. */
  lemma BusyCount(buf: seq<Buf>, disk: seq<Block>)
    requires BuffersOk(buf, disk)
    ensures |Busy(buf)| == |DirtyBlocks(buf)| + |HeldClean(buf)|
  {
    var pinned := set i: nat | i < |buf| && buf[i].dirty;
    var f := (i: nat) => if i < |buf| then buf[i].blockno else 0;
    forall b | b in DirtyBlocks(buf) ensures exists i :: i in pinned && f(i) == b {
      var i: nat :| i < |buf| && buf[i].dirty && buf[i].blockno == b;
      assert i in pinned && f(i) == b;
    }
    BijectionSize(pinned, DirtyBlocks(buf), f);
    assert Busy(buf) == pinned + HeldClean(buf);
  }

  /** Readers see the disk except for logged blocks. */
  lemma CleanView(buf: seq<Buf>, disk: seq<Block>, b: nat)
    requires BuffersOk(buf, disk) && Settled(buf, disk) && b < |disk| && b !in DirtyBlocks(buf)
    ensures ViewOf(buf, disk)[b] == disk[b]
  {
    if Cached(buf, b) {
      var i :| 0 <= i < |buf| && Holds(buf[i], DISK_DEV, b) && buf[i].valid;
      ContentsAt(buf, disk, i);
    }
  }

  lemma AllClean(buf: seq<Buf>, disk: seq<Block>)
    requires BuffersOk(buf, disk) && Settled(buf, disk) && DirtyBlocks(buf) == {}
    ensures ViewOf(buf, disk) == disk
  {
    forall b | 0 <= b < |disk| ensures ViewOf(buf, disk)[b] == disk[b] { CleanView(buf, disk, b); }
  }

  lemma DirtyIsPresent(buf: seq<Buf>, disk: seq<Block>, b: nat)
    requires BuffersOk(buf, disk) && b in DirtyBlocks(buf)
    ensures Servable(buf, b)
  {
    var i: nat :| i < |buf| && buf[i].dirty && buf[i].blockno == b;
    assert Holds(buf[i], DISK_DEV, b);
  }

  /** Slot i changed, but for whether it is dirty: what that does to the dirty blocks. */
  lemma DirtyAfter(buf: seq<Buf>, buf': seq<Buf>, disk: seq<Block>, i: nat, dirty: bool)
    requires BuffersOk(buf, disk) && |buf'| == |buf| && i < |buf|
    requires forall j :: 0 <= j < |buf| && j != i ==>
               buf'[j].dirty == buf[j].dirty && (buf[j].dirty ==> buf'[j].blockno == buf[j].blockno)
    requires buf[i].dirty ==> buf'[i].blockno == buf[i].blockno
    requires buf'[i].dirty == dirty && buf'[i].dev == DISK_DEV
    requires forall j :: 0 <= j < |buf| && j != i && buf[j].dirty ==> buf[j].blockno != buf'[i].blockno
    ensures var c := buf'[i].blockno;
            DirtyBlocks(buf') == if dirty then DirtyBlocks(buf) + {c} else DirtyBlocks(buf) - {c}
  {
    var s, s', c := DirtyBlocks(buf), DirtyBlocks(buf'), buf'[i].blockno;
    forall b | b in s && b != c ensures b in s' {
      var j: nat :| j < |buf| && buf[j].dirty && buf[j].blockno == b;
      assert buf'[j].dirty && buf'[j].blockno == b;
    }
    forall b | b in s' && b != c ensures b in s {
      var j: nat :| j < |buf| && buf'[j].dirty && buf'[j].blockno == b;
      assert buf[j].dirty && buf[j].blockno == b;
    }
    if dirty { assert buf'[i].dirty && buf'[i].blockno == c; }
  }

  /** Reading one more block holds one more buffer and dirties nothing. */
  lemma ReadHolds(buf0: seq<Buf>, buf: seq<Buf>, buf': seq<Buf>, disk: seq<Block>, b: nat, i: nat, own: set<nat>)
    requires BuffersOk(buf, disk) && BuffersOk(buf', disk) && Own(buf0, buf, own) && i < NBUF
    requires ReadInto(buf, buf', b, i)
    requires forall j :: j in own && j < NBUF ==> buf[j].blockno != b
    ensures i !in own && Own(buf0, buf', own + {i}) && DirtyBlocks(buf') == DirtyBlocks(buf)
    ensures forall j :: j in own && j < NBUF ==> buf'[j] == buf[j]
    ensures Holds(buf'[i], DISK_DEV, b) && buf'[i].valid
  {
    DirtyAfter(buf, buf', disk, i, buf'[i].dirty);
    if buf'[i].dirty { assert buf[i].dirty && buf[i].blockno == b; }
    else {
      forall j: nat | j < |buf| && buf[j].dirty ensures buf[j].blockno != b {}
    }
  }

  /** What bread brings in is what is on disk, unless the block is pinned. */
  lemma ReadSettles(buf: seq<Buf>, buf': seq<Buf>, disk: seq<Block>, b: nat, i: nat)
    requires BuffersOk(buf, disk) && BuffersOk(buf', disk) && Settled(buf, disk) && i < NBUF && b < |disk|
    requires ReadInto(buf, buf', b, i) && buf'[i].data == ViewOf(buf, disk)[b]
    ensures Settled(buf', disk)
  {
    hide ViewOf;
    if !buf'[i].dirty {
      forall j: nat | j < |buf| && buf[j].dirty ensures buf[j].blockno != b {
        assert j != i ==> buf'[j] == buf[j];
      }
      CleanView(buf, disk, b);
    }
  }

  lemma OwnNothing(buf: seq<Buf>)
    ensures Own(buf, buf, {}) && Kept(buf, buf)
  {
  }

  lemma KeptTrans(a: seq<Buf>, b: seq<Buf>, c: seq<Buf>)
    requires Kept(a, b) && Kept(b, c)
    ensures Kept(a, c)
  {
  }

  /** If nothing was unpinned either, all pinned buffers are the same. */
  lemma KeptBack(buf: seq<Buf>, buf': seq<Buf>, disk: seq<Block>)
    requires BuffersOk(buf, disk) && Kept(buf, buf') && DirtyBlocks(buf') == DirtyBlocks(buf)
    ensures Kept(buf', buf)
  {
    forall i | 0 <= i < |buf| && buf[i].dirty
      ensures buf'[i].dirty && buf'[i].dev == buf[i].dev && buf'[i].blockno == buf[i].blockno
    {
      var b := buf[i].blockno;
      assert b in DirtyBlocks(buf');
      var j: nat :| j < |buf'| && buf'[j].dirty && buf'[j].blockno == b;
      assert buf[j].dirty && buf[j].blockno == b;
    }
  }

  lemma FullIsBusy(buf: seq<Buf>, i: nat)
    requires |buf| == NBUF && |Busy(buf)| >= NBUF && i < NBUF
    ensures buf[i].refcnt > 0 || buf[i].dirty
  {
    if i !in Busy(buf) {
      MissesOne(Busy(buf), NBUF, i);
    }
  }

  /** A clean block that bget could serve can still be served. */
  lemma ServableKept(buf: seq<Buf>, buf': seq<Buf>, disk: seq<Block>, b: nat)
    requires BuffersOk(buf, disk) && Kept(buf, buf') && b !in DirtyBlocks(buf) && Servable(buf, b)
    ensures Servable(buf', b)
  {
    assert Busy(buf') <= Busy(buf);
    SubsetSize(Busy(buf'), Busy(buf));
    if |Busy(buf)| >= NBUF {
      var i :| 0 <= i < |buf| && Holds(buf[i], DISK_DEV, b);
      FullIsBusy(buf, i);
      assert Holds(buf'[i], DISK_DEV, b);
    }
  }

  lemma ServableSame(buf: seq<Buf>, buf': seq<Buf>, disk: seq<Block>, disk': seq<Block>, b: nat)
    requires BuffersOk(buf, disk) && BuffersOk(buf', disk') && Kept(buf, buf')
    requires DirtyBlocks(buf') == DirtyBlocks(buf) && b !in DirtyBlocks(buf)
    ensures Servable(buf', b) <==> Servable(buf, b)
  {
    hide BuffersOk, Kept, Servable, DirtyBlocks;
    if Servable(buf, b) { ServableKept(buf, buf', disk, b); }
    KeptBack(buf, buf', disk);
    if Servable(buf', b) { ServableKept(buf', buf, disk', b); }
  }

  /** Every log block that a commit of n blocks reads, with the header, can be served. */
  ghost predicate LogServable(g: Geometry, buf: seq<Buf>, n: nat) {
    forall b: nat :: g.start <= b <= g.start + n ==> Servable(buf, b)
  }

  /** Every log block that a commit of n blocks reads, with the header, is in the cache already. */
  ghost predicate LogPresent(g: Geometry, buf: seq<Buf>, n: nat) {
    forall b: nat :: g.start <= b <= g.start + n ==> Present(buf, b)
  }

  class LogDevice {
    const cache: BCache
    const g: Geometry
    var outstanding: nat
    var committing: bool
    var n: nat // log.lh.n
    var block: seq<nat> // log.lh.block

    ghost function Names(): (bs: seq<nat>)
      reads this
      requires n <= |block|
    {
      block[..n]
    }

    /** The in-memory header has its shape. */
    ghost predicate Shape()
      reads this
    {
      |block| == LOGSIZE && n <= LOGSIZE
    }

    /** The state between two calls, when no commit is running; other processes may hold buffers. */
    ghost predicate Valid()
      reads this, cache
    {
      && Shape() && !committing
      && cache.Valid() && Settled(cache.buf, cache.disk)
      && DirtyBlocks(cache.buf) == Elems(Names())
      && SysOk(g, Model())
    }

    /** The state this device is in, as RedoLog sees it. */
    ghost function Model(): (s: Sys)
      reads this, cache
      requires n <= |block|
    {
      Up(cache.disk, cache.View(), Names(), outstanding)
    }

    /** The cache is between two uses by the log code. */
    ghost predicate CacheReady()
      reads this, cache
    {
      cache.Valid() && Settled(cache.buf, cache.disk) && Shape() && Fits(g, cache.disk)
    }

    /** begin_op: one pass of its loop. */
    method BeginOp() returns (ok: bool)
      requires Shape() && (committing || Valid())
      modifies this`outstanding
      ensures committing ==> !ok
      ensures !committing ==> old(Valid()) && ok == Step(g, old(Model()), Begin).Some?
      ensures ok ==> Valid() && Step(g, old(Model()), Begin) == Some(Model())
      ensures ok <==> !committing && n + (old(outstanding) + 1) * 10 <= 30
      ensures outstanding == if ok then old(outstanding) + 1 else old(outstanding)
    {
      if committing {
        return false;
      } else if n + (outstanding + 1) * MAXOPBLOCKS > LOGSIZE {
        return false;
      } else {
        outstanding := outstanding + 1;
        return true;
      }
    }

    /** The absorption scan of log_write: the entry for b, or n. */
    method FindEntry(b: nat) returns (i: nat)
      requires n <= |block|
      ensures i <= n
      ensures i < n ==> block[i] == b
      ensures i == n ==> b !in Names()
    {
      i := 0;
      while i < n
        invariant 0 <= i <= n
        invariant forall j :: 0 <= j < i ==> block[j] != b
      {
        if block[i] == b { return; }
        i := i + 1;
      }
    }

    /** bread, change, pin, brelse: what an update does to the cache. */
    method Overwrite(b: nat, data: Block) returns (ok: bool)
      requires CacheReady() && b < |cache.disk|
      modifies cache
      ensures cache.disk == old(cache.disk) && cache.trace == old(cache.trace)
      ensures ok == Servable(old(cache.buf), b)
      ensures ok ==>
                && cache.Valid() && Settled(cache.buf, cache.disk)
                && SameHolders(old(cache.buf), cache.buf)
                && cache.View() == old(cache.View())[b := data]
                && DirtyBlocks(cache.buf) == old(DirtyBlocks(cache.buf)) + {b}
    {
      hide ViewOf, RingOk, BuffersOk, Busy, DirtyBlocks, Cached, ReadInto, Own, SameHolders, Kept, Settled;
      ghost var buf0, disk0 := cache.buf, cache.disk;
      var r := cache.Bread(b);
      if r.None? { return false; }
      var i := r.value;
      ghost var buf1 := cache.buf;
      OwnNothing(buf0);
      BuffersSize(buf0, disk0);
      BuffersSize(buf1, disk0);
      ReadHolds(buf0, buf0, buf1, disk0, b, i, {});
      ReadSettles(buf0, buf1, disk0, b, i);
      assert {} + {i} == {i};
      OwnOne(buf0, buf1, i);
      cache.Fill(i, data);
      cache.Pin(i);
      cache.Brelse(i);
      assert cache.buf == buf1[i := buf1[i].(data := data, dirty := true, refcnt := buf1[i].refcnt - 1)];
      PinnedAndReleased(buf0, buf1, cache.buf, disk0, i);
      ok := true;
    }

    /** A change to a block, passed to log_write as its comment describes. */
    method Update(b: nat, data: Block) returns (ok: bool)
      requires Valid() && b < |cache.disk| && !InLog(g, b)
      modifies this`n, this`block, cache
      ensures ok == (Step(g, old(Model()), LogWrite(b, data)).Some? && Servable(old(cache.buf), b))
      ensures ok ==> Valid() && Step(g, old(Model()), LogWrite(b, data)) == Some(Model())
      ensures ok ==> SameHolders(old(cache.buf), cache.buf)
      ensures cache.disk == old(cache.disk) && cache.trace == old(cache.trace)
    {
      hide ViewOf, RingOk, BuffersOk, Busy, DirtyBlocks, Settled, SameHolders, Elems, SysOk, Servable;
      ghost var s0, names0 := Model(), Names();
      if n >= LOGSIZE || n >= g.size - 1 || outstanding < 1 {
        return false;
      }
      SysFits(g, s0);
      StepRefines(g, s0, LogWrite(b, data));
      ok := Overwrite(b, data);
      if !ok { return; }
      var k := FindEntry(b);
      block := block[k := b];
      if k == n { n := n + 1; }
      assert Names() == Absorb(names0, b);
      ElemsAbsorb(names0, b);
    }

    /** The pinned buffers are the logged blocks'. */
    lemma NamesCount()
      requires Valid()
      ensures |Busy(cache.buf)| == n + |HeldClean(cache.buf)|
      ensures Fits(g, cache.disk) && Loggable(g, |cache.disk|, Names())
    {
      ElemsSize(Names());
      BusyCount(cache.buf, cache.disk);
    }

    /** With no buffer held, the last end_op fails exactly when every buffer is pinned. */
    lemma QuietCommit()
      requires Valid() && Quiet(cache.buf)
      ensures n == 0 || n + |HeldClean(cache.buf)| < NBUF || LogPresent(g, cache.buf, n) <==> n < NBUF
    {
      assert HeldClean(cache.buf) == {};
      NamesCount();
      if n == NBUF {
        forall i: nat | i < NBUF ensures !Holds(cache.buf[i], DISK_DEV, g.start) {
          FullIsBusy(cache.buf, i);
          assert cache.buf[i].blockno in Elems(Names());
        }
        assert !Present(cache.buf, g.start);
      }
    }

    /** Reads a log block, then a home block, and holds both. */
    method ReadPair(logb: nat, home: nat) returns (ok: bool, l: nat, h: nat)
      requires CacheReady() && logb < |cache.disk| && home < |cache.disk|
      requires InLog(g, logb) && !InLog(g, home)
      requires home in DirtyBlocks(cache.buf) || |Busy(cache.buf)| + 1 < NBUF
      modifies cache
      ensures ok == Servable(old(cache.buf), logb)
      ensures ok ==>
                && cache.Valid() && cache.disk == old(cache.disk) && cache.trace == old(cache.trace)
                && cache.View() == old(cache.View()) && Settled(cache.buf, cache.disk)
                && DirtyBlocks(cache.buf) == old(DirtyBlocks(cache.buf))
                && l < NBUF && h < NBUF && l != h && Own(old(cache.buf), cache.buf, {l, h})
                && HoldsBlock(l, logb) && HoldsBlock(h, home)
    {
      hide ViewOf, RingOk, OneBufferPerBlock, Busy, DirtyBlocks, Cached, ReadInto, Own, Kept, Settled, Present;
      ok, l, h := false, 0, 0;
      ghost var buf0, disk0 := cache.buf, cache.disk;
      var r := cache.Bread(logb);
      if r.None? { return; }
      l := r.value;
      ghost var buf1 := cache.buf;
      OwnNothing(buf0);
      ReadHolds(buf0, buf0, buf1, disk0, logb, l, {});
      ReadSettles(buf0, buf1, disk0, logb, l);
      assert {} + {l} == {l};
      assert Servable(buf1, home) by {
        if home in DirtyBlocks(buf1) { DirtyIsPresent(buf1, disk0, home); }
        else { BusyOneMore(buf0, buf1, l); }
      }
      r := cache.Bread(home);
      h := r.value;
      ReadHolds(buf0, buf1, cache.buf, disk0, home, h, {l});
      ReadSettles(buf1, cache.buf, disk0, home, h);
      assert l in {l} && cache.buf[l] == buf1[l];
      assert {l} + {h} == {l, h};
      ok := true;
    }

    ghost predicate HoldsBlock(i: nat, b: nat)
      reads cache
      requires b < |cache.disk|
    {
      && i < |cache.buf| && Holds(cache.buf[i], DISK_DEV, b) && cache.buf[i].valid
      && cache.buf[i].data == cache.View()[b]
    }

    /** Writes `data` through held buffer `to` and lets go of both buffers. */
    method WriteAndRelease(to: nat, from: nat, data: Block, ghost buf0: seq<Buf>)
      requires cache.Valid() && to < NBUF && from < NBUF && to != from && Own(buf0, cache.buf, {to, from})
      requires Settled(cache.buf, cache.disk)
      requires cache.buf[to].blockno < |cache.disk| && HoldsBlock(to, cache.buf[to].blockno)
      requires cache.buf[from].blockno < |cache.disk| && HoldsBlock(from, cache.buf[from].blockno)
      modifies cache
      ensures cache.Valid() && Settled(cache.buf, cache.disk) && Kept(buf0, cache.buf)
      ensures var dst := old(cache.buf)[to].blockno;
              && cache.disk == old(cache.disk)[dst := data]
              && cache.View() == old(cache.View())[dst := data]
              && cache.trace == old(cache.trace) + [Write(dst, data)]
              && DirtyBlocks(cache.buf) == old(DirtyBlocks(cache.buf)) - {dst}
    {
      hide ViewOf, RingOk, Cached, DirtyBlocks, Kept, Settled, Own, BuffersOk;
      ghost var buf1, disk1 := cache.buf, cache.disk;
      BuffersSize(buf1, disk1);
      OwnTwo(buf0, buf1, to, from);
      cache.Fill(to, data);
      cache.Bwrite(to);
      ghost var buf2, disk2 := cache.buf, cache.disk;
      assert buf2 == buf1[to := buf1[to].(data := data, dirty := false)];
      WrittenSettles(buf1, buf2, disk1, disk2, to);
      if !buf2[from].dirty { SettledAt(buf2, disk2, from); }
      cache.Brelse(from);
      cache.Brelse(to);
      ReleasedTwo(buf0, buf1, cache.buf, disk1, to, from);
      ReleasedSettles(buf2, cache.buf, disk2);
    }

    /** Copy one block through two buffers and write the copy to disk: the body of the loops
        of write_log (`intoLog`) and install_trans.  Both read the log block first. */
    method CopyBlock(logb: nat, home: nat, intoLog: bool) returns (ok: bool)
      requires CacheReady() && logb < |cache.disk| && home < |cache.disk|
      requires InLog(g, logb) && !InLog(g, home)
      requires home in DirtyBlocks(cache.buf) || |Busy(cache.buf)| + 1 < NBUF
      modifies cache
      ensures ok == Servable(old(cache.buf), logb)
      ensures ok ==>
                var src, dst := if intoLog then home else logb, if intoLog then logb else home;
                var data := old(cache.View())[src];
                && cache.Valid() && Settled(cache.buf, cache.disk) && Kept(old(cache.buf), cache.buf)
                && cache.disk == old(cache.disk)[dst := data]
                && cache.View() == old(cache.View())[dst := data]
                && cache.trace == old(cache.trace) + [Write(dst, data)]
                && DirtyBlocks(cache.buf) == old(DirtyBlocks(cache.buf)) - {dst}
    {
      hide ViewOf, RingOk, Cached, DirtyBlocks, Settled, Own, Kept, Servable;
      ghost var buf0 := cache.buf;
      var l, h;
      ok, l, h := ReadPair(logb, home);
      if !ok { return; }
      assert {l, h} == {h, l};
      if intoLog { WriteAndRelease(l, h, cache.buf[h].data, buf0); }
      else { WriteAndRelease(h, l, cache.buf[l].data, buf0); }
    }

    /** The header as write_head fills it in. */
    method FillHead(hdr: Block) returns (data: Block)
      requires n <= LOGSIZE == |block| && (forall i :: 0 <= i < n ==> block[i] < WORDMAX)
      ensures data == EncodeHead(hdr, Names())
    {
      data := hdr[0 := n];
      var i := 0;
      while i < n
        invariant 0 <= i <= n && |data| == BWORDS
        invariant data == [n] + block[..i] + hdr[i + 1..]
      {
        data := data[i + 1 := block[i]];
        i := i + 1;
      }
    }

    /** Reads a clean block and holds its buffer. */
    method OpenBlock(b: nat) returns (r: Option<nat>)
      requires CacheReady() && b < |cache.disk| && b !in DirtyBlocks(cache.buf)
      modifies cache
      ensures cache.Valid() && cache.disk == old(cache.disk) && cache.trace == old(cache.trace)
      ensures cache.View() == old(cache.View()) && DirtyBlocks(cache.buf) == old(DirtyBlocks(cache.buf))
      ensures r.Some? <==> Servable(old(cache.buf), b)
      ensures r.Some? ==>
                && r.value < NBUF && Own(old(cache.buf), cache.buf, {r.value}) && HoldsBlock(r.value, b)
                && Settled(cache.buf, cache.disk) && cache.buf[r.value].data == cache.disk[b]
    {
      hide ViewOf, RingOk, Cached, DirtyBlocks, Busy, Own, ReadInto, Settled, Servable;
      ghost var buf0, disk0 := cache.buf, cache.disk;
      CleanView(buf0, disk0, b);
      OwnNothing(buf0);
      r := cache.Bread(b);
      if r.None? { return; }
      ReadHolds(buf0, buf0, cache.buf, disk0, b, r.value, {});
      ReadSettles(buf0, cache.buf, disk0, b, r.value);
      assert {} + {r.value} == {r.value};
    }

    /** Writes `data` through the held buffer and lets go of it. */
    method CloseBlock(i: nat, b: nat, data: Block, ghost buf0: seq<Buf>)
      requires cache.Valid() && i < NBUF && Own(buf0, cache.buf, {i}) && b < |cache.disk| && HoldsBlock(i, b)
      requires Settled(cache.buf, cache.disk)
      modifies cache
      ensures cache.Valid() && Settled(cache.buf, cache.disk) && Kept(buf0, cache.buf)
      ensures DirtyBlocks(cache.buf) == old(DirtyBlocks(cache.buf)) - {b}
      ensures cache.disk == old(cache.disk)[b := data] && cache.View() == old(cache.View())[b := data]
      ensures cache.trace == old(cache.trace) + [Write(b, data)]
    {
      hide ViewOf, RingOk, Cached, DirtyBlocks;
      ghost var buf1, disk1 := cache.buf, cache.disk;
      cache.Fill(i, data);
      cache.Bwrite(i);
      cache.Brelse(i);
      DirtyAfter(buf1, cache.buf, disk1, i, false);
    }

    /** write_head; it fails exactly when the header block cannot be served. */
    method WriteHead() returns (ok: bool)
      requires CacheReady() && g.start !in DirtyBlocks(cache.buf)
      requires forall i :: 0 <= i < n ==> block[i] < WORDMAX
      modifies cache
      ensures ok == Servable(old(cache.buf), g.start)
      ensures ok ==>
                && cache.Valid() && Settled(cache.buf, cache.disk) && Kept(old(cache.buf), cache.buf)
                && DirtyBlocks(cache.buf) == old(DirtyBlocks(cache.buf))
                && var w := HeadWrite(g, old(cache.disk)[g.start], Names());
                && cache.disk == old(cache.disk)[g.start := w.data]
                && cache.View() == old(cache.View())[g.start := w.data]
                && cache.trace == old(cache.trace) + [w]
    {
      hide ViewOf, RingOk, Cached, DirtyBlocks, Busy, Own, Kept, Settled, BuffersOk, Servable;
      ghost var buf0 := cache.buf;
      var r := OpenBlock(g.start);
      if r.None? { return false; }
      BuffersSize(cache.buf, cache.disk);
      var data := FillHead(cache.buf[r.value].data);
      CloseBlock(r.value, g.start, data, buf0);
      ok := true;
    }

    /** write_log has copied the first `tail` blocks; it began on buffers buf0, disk d0 and view v0. */
    ghost predicate Logging(tail: nat, buf0: seq<Buf>, d0: Disk, v0: Disk, t0: seq<Write>)
      reads this, cache
    {
      && CacheReady() && Loggable(g, |cache.disk|, Names()) && tail <= n
      && BuffersOk(buf0, d0) && Kept(buf0, cache.buf)
      && DirtyBlocks(cache.buf) == DirtyBlocks(buf0) == Elems(Names())
      && |v0| == |d0| == |cache.disk|
      && cache.disk == Apply(d0, LogWrites(g, v0, Names())[..tail])
      && cache.trace == t0 + LogWrites(g, v0, Names())[..tail]
      && SameOutsideLog(cache.View(), v0)
    }

    ghost predicate SameOutsideLog(v: Disk, v0: Disk) {
      |v| == |v0| && forall b {:trigger v[b]} :: 0 <= b < |v0| && !InLog(g, b) ==> v[b] == v0[b]
    }

    /** The body of write_log's loop. */
    method LogBlock(tail: nat, ghost buf0: seq<Buf>, ghost d0: Disk, ghost v0: Disk, ghost t0: seq<Write>)
      returns (ok: bool)
      requires Logging(tail, buf0, d0, v0, t0) && tail < n
      modifies cache
      ensures ok == Servable(buf0, g.start + tail + 1)
      ensures ok ==> Logging(tail + 1, buf0, d0, v0, t0)
    {
      hide ViewOf, RingOk, Cached, DirtyBlocks, Settled, Kept, Servable, Apply, BuffersOk;
      ghost var ws, v, buf1 := LogWrites(g, v0, Names()), cache.View(), cache.buf;
      var logb := g.start + tail + 1;
      LogIsNotLogged(logb);
      ServableSame(buf0, buf1, d0, cache.disk, logb);
      assert block[tail] in Elems(Names()) by { assert Names()[tail] == block[tail]; }
      ok := CopyBlock(logb, block[tail], true);
      if ok {
        KeptTrans(buf0, buf1, cache.buf);
        assert ws[tail] == Write(logb, v[block[tail]]);
        OneMoreWrite(d0, ws, tail);
        assert Elems(Names()) - {logb} == Elems(Names());
        assert SameOutsideLog(cache.View(), v0);
        assert t0 + ws[..tail] + [ws[tail]] == t0 + ws[..tail + 1];
      }
    }

    lemma LogIsNotLogged(b: nat)
      requires Shape() && Loggable(g, |cache.disk|, Names()) && InLog(g, b)
      ensures b !in Elems(Names())
    {
    }

    /** write_log: fails exactly when some log block it needs cannot be served. */
    method WriteLog() returns (ok: bool)
      requires CacheReady() && Loggable(g, |cache.disk|, Names()) && DirtyBlocks(cache.buf) == Elems(Names())
      modifies cache
      ensures ok == forall b: nat :: g.start < b <= g.start + n ==> Servable(old(cache.buf), b)
      ensures ok ==>
                var ws := LogWrites(g, old(cache.View()), Names());
                && CacheReady() && DirtyBlocks(cache.buf) == Elems(Names()) && Kept(old(cache.buf), cache.buf)
                && cache.disk == Apply(old(cache.disk), ws) && cache.trace == old(cache.trace) + ws
    {
      hide ViewOf, RingOk, Cached, DirtyBlocks, Settled, Kept, Servable, Apply, BuffersOk;
      ghost var buf0, d0, v0, t0 := cache.buf, cache.disk, cache.View(), cache.trace;
      ghost var ws := LogWrites(g, v0, Names());
      assert ws[..0] == [] && ws[..n] == ws && t0 + [] == t0;
      ApplyNone(d0, ws[..0]);
      OwnNothing(buf0);
      var tail := 0;
      while tail < n
        invariant 0 <= tail <= n && Logging(tail, buf0, d0, v0, t0)
        invariant forall b: nat :: g.start < b <= g.start + tail ==> Servable(buf0, b)
      {
        ok := LogBlock(tail, buf0, d0, v0, t0);
        if !ok { return; }
        tail := tail + 1;
      }
      ok := true;
    }

    /** What install_trans still has pinned: everything (a commit) or nothing (a recovery). */
    ghost function StillPinned(pinned: bool, tail: nat): set<nat>
      reads this
      requires tail <= n <= |block|
    {
      if pinned then Elems(block[tail..n]) else {}
    }

    /** install_trans has installed the first `tail` blocks; it began on disk d0.  A commit pinned the
        blocks; in a recovery nothing is pinned and nobody else runs. */
    ghost predicate Installing(tail: nat, d0: Disk, t0: seq<Write>, pinned: bool)
      reads this, cache
    {
      && CacheReady() && |d0| == |cache.disk| && Loggable(g, |d0|, Names()) && tail <= n
      && (pinned ==> LogServable(g, cache.buf, n)) && (!pinned ==> Quiet(cache.buf))
      && DirtyBlocks(cache.buf) == StillPinned(pinned, tail)
      && cache.disk == Apply(d0, HomeWrites(g, d0, Names())[..tail])
      && cache.trace == t0 + HomeWrites(g, d0, Names())[..tail]
    }

    /** The body of install_trans's loop. */
    method InstallBlock(tail: nat, ghost d0: Disk, ghost t0: seq<Write>, ghost pinned: bool)
      requires Installing(tail, d0, t0, pinned) && tail < n
      modifies cache
      ensures Installing(tail + 1, d0, t0, pinned)
      ensures Kept(old(cache.buf), cache.buf)
    {
      hide ViewOf, RingOk, Cached, DirtyBlocks, Settled, Kept, Quiet, Apply, BuffersOk, Elems, Servable, Busy;
      ghost var ws, buf0, disk0 := HomeWrites(g, d0, Names()), cache.buf, cache.disk;
      var logb := g.start + tail + 1;
      PinnedLeft(pinned, tail);
      if !pinned { QuietServes(buf0, disk0, logb); }
      LogOfHomeWrites(g, d0, ws[..tail]);
      CleanView(cache.buf, cache.disk, logb);
      var ok := CopyBlock(logb, block[tail], false);
      assert ws[tail] == Write(block[tail], d0[logb]);
      OneMoreWrite(d0, ws, tail);
      if pinned { LogStaysServable(g, buf0, cache.buf, disk0, n); }
      else { KeptQuiet(buf0, cache.buf); }
    }

    lemma PinnedLeft(pinned: bool, tail: nat)
      requires Shape() && tail < n
      requires Fits(g, cache.disk) && Loggable(g, |cache.disk|, Names())
      ensures StillPinned(pinned, tail) - {block[tail]} == StillPinned(pinned, tail + 1)
      ensures pinned ==> block[tail] in StillPinned(pinned, tail)
      ensures forall b :: b in StillPinned(pinned, tail) ==> !InLog(g, b)
      ensures var ws := HomeWrites(g, cache.disk, Names())[..tail];
              forall i :: 0 <= i < |ws| ==> !InLog(g, ws[i].blockno)
    {
      var rest := block[tail..n];
      assert rest == [block[tail]] + block[tail + 1..n];
      assert forall i :: 0 <= i < n ==> Names()[i] == block[i];
      ElemsSize(rest);
    }

    /** install_trans. */
    method InstallTrans(ghost pinned: bool)
      requires CacheReady() && Loggable(g, |cache.disk|, Names())
      requires if pinned then LogServable(g, cache.buf, n) else Quiet(cache.buf)
      requires DirtyBlocks(cache.buf) == if pinned then Elems(Names()) else {}
      modifies cache
      ensures CacheReady() && DirtyBlocks(cache.buf) == {} && Kept(old(cache.buf), cache.buf)
      ensures var ws := HomeWrites(g, old(cache.disk), Names());
              cache.disk == Apply(old(cache.disk), ws) && cache.trace == old(cache.trace) + ws
    {
      hide ViewOf, RingOk, Cached, DirtyBlocks, Settled, Kept, Quiet, Apply, BuffersOk, Servable;
      ghost var buf0, d0, t0, ws := cache.buf, cache.disk, cache.trace, HomeWrites(g, cache.disk, Names());
      assert ws[..0] == [] && ws[..n] == ws && t0 + [] == t0 && block[0..n] == Names() && block[n..n] == [];
      ApplyNone(d0, ws[..0]);
      OwnNothing(buf0);
      var tail := 0;
      while tail < n
        invariant 0 <= tail <= n && Installing(tail, d0, t0, pinned) && Kept(buf0, cache.buf)
      {
        ghost var buf1 := cache.buf;
        InstallBlock(tail, d0, t0, pinned);
        KeptTrans(buf0, buf1, cache.buf);
        tail := tail + 1;
      }
    }

    /** commit: with anything to write, it fails exactly when bget cannot serve some block of the log. */
    method Commit() returns (ok: bool)
      requires CacheReady() && DirtyBlocks(cache.buf) == Elems(Names())
      requires Loggable(g, |cache.disk|, Names())
      modifies this`n, cache
      ensures ok == (old(n) == 0 || LogServable(g, old(cache.buf), old(n)))
      ensures ok ==>
                var ws := CommitWrites(g, old(cache.disk), old(cache.View()), old(Names()));
                && CacheReady() && n == 0 && DirtyBlocks(cache.buf) == {} && Kept(old(cache.buf), cache.buf)
                && cache.disk == Apply(old(cache.disk), ws) && cache.trace == old(cache.trace) + ws
    {
      hide ViewOf, RingOk, Cached, DirtyBlocks, Settled, Kept, Servable, Apply, BuffersOk;
      hide HeadWrite, LogWrites, HomeWrites;
      ghost var buf0, d0, v0, t0, bs := cache.buf, cache.disk, cache.View(), cache.trace, Names();
      ok := true;
      if n == 0 {
        ApplyNone(d0, []);
        OwnNothing(buf0);
        assert t0 + [] == t0 && bs == [] && Elems(bs) == {};
      } else {
        ok := WriteLog();
        if !ok { return; }
        ghost var buf1 := cache.buf;
        LogPhaseIs(g, d0, v0, bs, cache.disk);
        LogIsNotLogged(g.start);
        ServableSame(buf0, buf1, d0, cache.disk, g.start);
        ok := WriteHead();
        if !ok { return; }
        ghost var buf2, d2 := cache.buf, cache.disk;
        KeptTrans(buf0, buf1, buf2);
        LogStaysServable(g, buf0, buf2, d0, n);
        InstallTrans(true);
        KeptTrans(buf0, buf2, cache.buf);
        LogStaysServable(g, buf0, cache.buf, d0, n);
        n := 0;
        InstallPhaseIs(g, d2, bs, cache.disk);
        ghost var buf3 := cache.buf;
        ok := WriteHead();
        KeptTrans(buf0, buf3, cache.buf);
        assert Names() == [];
        ApplyConcat(d0, LogPhase(g, d0, v0, bs), InstallPhase(g, d2, bs));
      }
    }

    /** end_op.  Called while a commit runs, it panics.  Otherwise it fails exactly when it is the last
        operation, something was logged, and the pinned buffers with the clean ones that other processes
        hold are all NBUF of them, with some block of the log not among them: bget then panics. */
    method EndOp() returns (ok: bool)
      requires Shape() && (committing || Valid()) && outstanding >= 1
      modifies this`outstanding, this`committing, this`n, cache
      ensures old(committing) ==> !ok
      ensures !old(committing) ==>
                && old(Valid())
                && ok == (old(outstanding) > 1 || old(n) == 0 || old(n) + |HeldClean(old(cache.buf))| < NBUF
                          || LogPresent(g, old(cache.buf), old(n)))
      ensures ok ==> Valid() && Step(g, old(Model()), End) == Some(Model()) && Kept(old(cache.buf), cache.buf)
      ensures ok && old(outstanding) == 1 ==>
                cache.trace == old(cache.trace) + CommitWrites(g, old(cache.disk), old(cache.View()), old(Names()))
      ensures old(outstanding) > 1 ==> cache.trace == old(cache.trace)
    {
      hide ViewOf, RingOk, Cached, DirtyBlocks, Settled, Kept, Apply, CommitWrites, Servable;
      ghost var buf0 := cache.buf;
      if !committing {
        NamesCount();
        LogServableMeans(g, buf0, n);
        StepRefines(g, Model(), End);
        OwnNothing(buf0);
      }
      outstanding := outstanding - 1;
      if committing { return false; }
      if outstanding == 0 {
        committing := true;
        ok := Commit();
        if !ok { return; }
        committing := false;
        AllClean(cache.buf, cache.disk);
        assert Names() == [] && Elems(Names()) == {};
      }
      ok := true;
    }

    /** bread by another process, as in readi: nobody else's state changes. */
    method ReaderBread(b: nat) returns (r: Option<nat>)
      requires Valid() && b < |cache.disk|
      modifies cache
      ensures Valid() && Model() == old(Model()) && cache.trace == old(cache.trace)
      ensures r.Some? <==> Servable(old(cache.buf), b)
      ensures r.Some? ==> r.value < NBUF && ReadInto(old(cache.buf), cache.buf, b, r.value)
      ensures r.None? ==> cache.buf == old(cache.buf)
    {
      hide ViewOf, RingOk, Cached, DirtyBlocks, Busy, Own, ReadInto, Settled, Servable, SysOk;
      ghost var buf0, disk0 := cache.buf, cache.disk;
      OwnNothing(buf0);
      r := cache.Bread(b);
      if r.None? { return; }
      ReadHolds(buf0, buf0, cache.buf, disk0, b, r.value, {});
      ReadSettles(buf0, cache.buf, disk0, b, r.value);
    }

    /** brelse by another process that did not change the buffer. */
    method ReaderBrelse(i: nat)
      requires Valid() && i < NBUF && cache.buf[i].refcnt > 0 && cache.buf[i].valid
      modifies cache
      ensures Valid() && Model() == old(Model()) && cache.trace == old(cache.trace)
      ensures cache.buf == old(cache.buf)[i := old(cache.buf)[i].(refcnt := old(cache.buf)[i].refcnt - 1)]
    {
      hide ViewOf, RingOk, SysOk;
      ghost var buf0, disk0 := cache.buf, cache.disk;
      cache.Brelse(i);
      DirtyAfter(buf0, cache.buf, disk0, i, buf0[i].dirty);
      if buf0[i].dirty {
        assert DirtyBlocks(buf0) + {buf0[i].blockno} == DirtyBlocks(buf0);
      } else {
        assert buf0[i].blockno !in DirtyBlocks(buf0);
      }
    }

    /** The copying loop of read_head. */
    method CopyHead(hdr: Block)
      requires hdr[0] <= LOGSIZE == |block|
      modifies this`n, this`block
      ensures |block| == LOGSIZE && n <= LOGSIZE && Names() == DecodeHead(hdr)
    {
      n := hdr[0];
      var i := 0;
      while i < n
        invariant 0 <= i <= n == hdr[0] && |block| == LOGSIZE && n <= LOGSIZE
        invariant block[..i] == hdr[1..1 + i]
      {
        ghost var done := block[..i];
        block := block[i := hdr[i + 1]];
        assert block[..i + 1] == done + [hdr[i + 1]] == hdr[1..1 + i] + [hdr[i + 1]];
        i := i + 1;
      }
    }

    /** read_head. */
    method ReadHead()
      requires CacheReady() && DirtyBlocks(cache.buf) == {} && Quiet(cache.buf) && HeadOk(g, cache.disk)
      modifies this`n, this`block, cache
      ensures CacheReady() && DirtyBlocks(cache.buf) == {} && Quiet(cache.buf)
      ensures cache.disk == old(cache.disk) && cache.trace == old(cache.trace)
      ensures Names() == DecodeHead(cache.disk[g.start])
    {
      hide ViewOf, RingOk, Cached, DirtyBlocks, BuffersOk, Own, Quiet, Settled, Servable, Loggable, Busy;
      ghost var buf0 := cache.buf;
      QuietServes(buf0, cache.disk, g.start);
      var r := OpenBlock(g.start);
      BuffersSize(cache.buf, cache.disk);
      CopyHead(cache.buf[r.value].data);
      LetGo(r.value, buf0);
    }

    /** brelse of the only held buffer, unchanged since it was read. */
    method LetGo(i: nat, ghost buf0: seq<Buf>)
      requires cache.Valid() && i < NBUF && Quiet(buf0) && Own(buf0, cache.buf, {i})
      requires cache.buf[i].valid && DirtyBlocks(cache.buf) == {} && Settled(cache.buf, cache.disk)
      modifies cache
      ensures cache.Valid() && Settled(cache.buf, cache.disk) && Quiet(cache.buf) && DirtyBlocks(cache.buf) == {}
      ensures cache.disk == old(cache.disk) && cache.trace == old(cache.trace)
    {
      hide ViewOf, RingOk, Cached;
      assert !cache.buf[i].dirty by { DirtyOf(cache.buf, cache.disk, i); }
      cache.Brelse(i);
    }

    /** initlog and recover_from_log, on whatever disk a crash left behind. */
    constructor (image: Disk, geometry: Geometry)
      requires HeadOk(geometry, image)
      ensures g == geometry && fresh(cache) && Valid() && Quiet(cache.buf)
      ensures Step(geometry, Down(image), Reboot) == Some(Model())
      ensures cache.trace == RecoverWrites(geometry, image)
    {
      hide ViewOf, RingOk, Cached, DirtyBlocks, Quiet, Kept, Settled, Servable, Busy, Apply, BuffersOk, HomeWrites;
      cache := new BCache(image);
      g := geometry;
      outstanding, committing, n, block := 0, false, 0, seq(LOGSIZE, _ => 0);
      new;
      FreshCache(cache.buf, cache.disk);
      ReadHead();
      ghost var buf1 := cache.buf;
      InstallTrans(false);
      InstallPhaseIs(g, image, Names(), cache.disk);
      n := 0;
      KeptQuiet(buf1, cache.buf);
      QuietServes(cache.buf, cache.disk, g.start);
      ghost var buf2 := cache.buf;
      var ok := WriteHead();
      KeptQuiet(buf2, cache.buf);
      assert Names() == [] && Elems(Names()) == {};
      StepRefines(g, Down(image), Reboot);
      AllClean(cache.buf, cache.disk);
    }
  }

  /** The blocks from `base` on, in order. */
  ghost function Consecutive(base: nat, count: nat): (bs: seq<nat>)
    ensures |bs| == count && forall i :: 0 <= i < count ==> bs[i] == base + i
  {
    seq(count, (i: nat) => base + i)
  }

  /** Operations log `count` blocks after the log, in the order of their numbers. */
  method LogBlocksAfter(dev: LogDevice, count: nat, data: Block)
    requires dev.Valid() && Quiet(dev.cache.buf) && dev.outstanding >= 1 && dev.n == 0
    requires count <= LOGSIZE && count <= dev.g.size - 1 && dev.g.start + dev.g.size + count <= |dev.cache.disk|
    modifies dev`n, dev`block, dev.cache
    ensures dev.Valid() && Quiet(dev.cache.buf) && |dev.cache.disk| == old(|dev.cache.disk|)
    ensures dev.n == count && dev.Names() == Consecutive(dev.g.start + dev.g.size, count)
  {
    hide ViewOf, RingOk, BuffersOk, Quiet, SameHolders, Settled, DirtyBlocks, Servable;
    var base := dev.g.start + dev.g.size;
    var k := 0;
    while k < count
      invariant 0 <= k <= count && dev.Valid() && Quiet(dev.cache.buf)
      invariant |dev.cache.disk| == old(|dev.cache.disk|)
      invariant dev.Names() == Consecutive(base, k)
    {
      ghost var names := dev.Names();
      QuietHasRoom(dev, base + k);
      ghost var buf := dev.cache.buf;
      var ok := dev.Update(base + k, data);
      SameQuiet(buf, dev.cache.buf);
      assert dev.Names() == Absorb(names, base + k) == names + [base + k] == Consecutive(base, k + 1);
      k := k + 1;
    }
  }

  lemma QuietHasRoom(dev: LogDevice, b: nat)
    requires dev.Valid() && Quiet(dev.cache.buf) && dev.n < NBUF
    ensures Servable(dev.cache.buf, b)
  {
    dev.NamesCount();
    assert HeldClean(dev.cache.buf) == {};
  }

  lemma SameQuiet(buf: seq<Buf>, buf': seq<Buf>)
    requires SameHolders(buf, buf') && Quiet(buf)
    ensures Quiet(buf')
  {
  }

  method BeginThree(dev: LogDevice)
    requires dev.Valid() && dev.outstanding == 0 && dev.n == 0
    modifies dev`outstanding
    ensures dev.Valid() && dev.outstanding == 3
  {
    hide ViewOf, RingOk, BuffersOk, Settled, DirtyBlocks, Elems, SysOk;
    var ok := dev.BeginOp();
    ok := dev.BeginOp();
    ok := dev.BeginOp();
  }

  /** An operation that is not the last one ends. */
  method EndOne(dev: LogDevice)
    requires dev.Valid() && dev.outstanding > 1 && Quiet(dev.cache.buf)
    modifies dev`outstanding, dev`committing, dev`n, dev.cache
    ensures dev.Valid() && dev.outstanding == old(dev.outstanding) - 1 && Quiet(dev.cache.buf)
    ensures dev.n == old(dev.n) && dev.Names() == old(dev.Names()) && dev.cache.disk == old(dev.cache.disk)
  {
    hide ViewOf, RingOk, BuffersOk, Quiet, Kept, Settled, DirtyBlocks, Elems, SysOk, LogPresent, HeldClean;
    ghost var buf := dev.cache.buf;
    var ok := dev.EndOp();
    KeptQuiet(buf, dev.cache.buf);
    assert |dev.Names()| == dev.n;
  }

  /** Three operations of up to MAXOPBLOCKS blocks run together, log `count` blocks, and two end. */
  method ThreeOperations(image: Disk, g: Geometry, count: nat, data: Block) returns (dev: LogDevice)
    requires HeadOk(g, image) && count <= LOGSIZE && count <= g.size - 1 && g.start + g.size + count <= |image|
    ensures fresh(dev) && fresh(dev.cache) && dev.g == g && dev.Valid() && |dev.cache.disk| == |image|
    ensures dev.outstanding == 1 && dev.n == count && Quiet(dev.cache.buf)
    ensures dev.Names() == Consecutive(g.start + g.size, count)
  {
    hide ViewOf, RingOk, BuffersOk, Quiet, Settled, DirtyBlocks, Elems, SysOk, Recover;
    dev := new LogDevice(image, g);
    BeginThree(dev);
    LogBlocksAfter(dev, count, data);
    EndOne(dev);
    EndOne(dev);
  }

  /** A log larger than LOGSIZE: three operations log NBUF blocks, and the last end_op panics. */
  method PinnedBuffersStopCommit(image: Disk, g: Geometry, data: Block) returns (logged: nat, ok: bool)
    requires HeadOk(g, image) && g.size > LOGSIZE && g.start + g.size + NBUF <= |image|
    ensures !ok && logged == NBUF
  {
    var dev := ThreeOperations(image, g, NBUF, data);
    dev.QuietCommit();
    logged := dev.n;
    ok := dev.EndOp();
  }

  /** The log that mkfs makes: three operations log one block less than NBUF, another process reads
      a block, and the last end_op panics although a buffer was free for it before. */
  method ReaderStopsCommit(image: Disk, g: Geometry, data: Block) returns (logged: nat, ok: bool)
    requires HeadOk(g, image) && g.size == LOGSIZE && g.start + g.size + NBUF <= |image|
    ensures !ok && logged == NBUF - 1
  {
    var dev := ThreeOperations(image, g, NBUF - 1, data);
    QuietHasRoom(dev, g.start + g.size + NBUF - 1);
    ghost var buf := dev.cache.buf;
    var r := dev.ReaderBread(g.start + g.size + NBUF - 1);
    OneReader(dev, buf, r.value, g.start + g.size + NBUF - 1);
    logged := dev.n;
    ok := dev.EndOp();
  }

  lemma OneReader(dev: LogDevice, buf: seq<Buf>, i: nat, b: nat)
    requires dev.Valid() && dev.n == NBUF - 1 && |buf| == NBUF && i < NBUF && Quiet(buf)
    requires ReadInto(buf, dev.cache.buf, b, i) && b !in dev.Names() && !InLog(dev.g, b)
    ensures |HeldClean(dev.cache.buf)| == 1 && !LogPresent(dev.g, dev.cache.buf, dev.n)
  {
    var buf' := dev.cache.buf;
    DirtyOf(buf', dev.cache.disk, i);
    assert HeldClean(buf') == {i};
    dev.NamesCount();
    forall j: nat | j < NBUF ensures !Holds(buf'[j], DISK_DEV, dev.g.start) {
      FullIsBusy(buf', j);
      if buf'[j].dirty { assert buf'[j].blockno in Elems(dev.Names()); }
    }
    assert !Present(buf', dev.g.start);
  }

  lemma FreshCache(buf: seq<Buf>, disk: seq<Block>)
    requires BuffersOk(buf, disk) && Busy(buf) == {}
    ensures Quiet(buf) && DirtyBlocks(buf) == {} && Settled(buf, disk)
  {
    forall i | 0 <= i < |buf| ensures buf[i].refcnt == 0 && !buf[i].dirty {
      assert i !in Busy(buf);
    }
  }

  /** With nothing held and nothing pinned, bget serves any block. */
  lemma QuietServes(buf: seq<Buf>, disk: seq<Block>, b: nat)
    requires BuffersOk(buf, disk) && Quiet(buf) && DirtyBlocks(buf) == {}
    ensures |Busy(buf)| == 0 && Servable(buf, b)
  {
    BusyCount(buf, disk);
    assert HeldClean(buf) == {};
  }

  lemma KeptQuiet(buf: seq<Buf>, buf': seq<Buf>)
    requires Kept(buf, buf') && Quiet(buf)
    ensures Quiet(buf')
  {
  }

  lemma LogStaysServable(g: Geometry, buf: seq<Buf>, buf': seq<Buf>, disk: seq<Block>, n: nat)
    requires BuffersOk(buf, disk) && Kept(buf, buf') && LogServable(g, buf, n)
    requires forall b :: b in DirtyBlocks(buf) ==> !InLog(g, b)
    requires n < g.size
    ensures LogServable(g, buf', n)
  {
    hide BuffersOk, Kept, Servable, DirtyBlocks;
    forall b: nat | g.start <= b <= g.start + n ensures Servable(buf', b) { ServableKept(buf, buf', disk, b); }
  }

  lemma LogServableMeans(g: Geometry, buf: seq<Buf>, n: nat)
    ensures LogServable(g, buf, n) <==> |Busy(buf)| < NBUF || LogPresent(g, buf, n)
  {
    if LogServable(g, buf, n) && |Busy(buf)| >= NBUF {
      forall b: nat | g.start <= b <= g.start + n ensures Present(buf, b) { assert Servable(buf, b); }
    }
  }

  /** Performing write k of a sequence. */
  lemma OneMoreWrite(d: Disk, ws: seq<Write>, k: nat)
    requires k < |ws| && ws[k].blockno < |d|
    ensures ws[..k + 1] == ws[..k] + [ws[k]]
    ensures Apply(d, ws[..k + 1]) == Apply(d, ws[..k])[ws[k].blockno := ws[k].data]
  {
    assert ws[..k + 1] == ws[..k] + [ws[k]];
    ApplyOne(d, ws[..k], ws[k]);
  }

  /** write_log and then the header write, as one phase. */
  lemma LogPhaseIs(g: Geometry, d: Disk, view: Disk, bs: seq<nat>, d1: Disk)
    requires |d| == |view| && Fits(g, d) && Loggable(g, |d|, bs) && d1 == Apply(d, LogWrites(g, view, bs))
    ensures d1[g.start] == d[g.start]
    ensures d1[g.start := HeadWrite(g, d[g.start], bs).data] == Apply(d, LogPhase(g, d, view, bs))
  {
    UpdatesKeys(LogWrites(g, view, bs));
    ApplyOne(d, LogWrites(g, view, bs), HeadWrite(g, d[g.start], bs));
  }

  /** install_trans and then the clearing write, as one phase. */
  lemma InstallPhaseIs(g: Geometry, d: Disk, bs: seq<nat>, d1: Disk)
    requires Fits(g, d) && Loggable(g, |d|, bs) && d1 == Apply(d, HomeWrites(g, d, bs))
    ensures d1[g.start] == d[g.start]
    ensures d1[g.start := HeadWrite(g, d[g.start], []).data] == Apply(d, InstallPhase(g, d, bs))
  {
    UpdatesKeys(HomeWrites(g, d, bs));
    ApplyOne(d, HomeWrites(g, d, bs), HeadWrite(g, d[g.start], []));
  }

  lemma ApplyNone(d: Disk, ws: seq<Write>)
    requires ws == []
    ensures Apply(d, ws) == d
  {
  }

  lemma DirtyOf(buf: seq<Buf>, disk: seq<Block>, i: nat)
    requires BuffersOk(buf, disk) && i < NBUF && buf[i].valid
    ensures buf[i].dirty <==> buf[i].blockno in DirtyBlocks(buf)
  {
  }

  lemma BuffersSize(buf: seq<Buf>, disk: seq<Block>)
    requires BuffersOk(buf, disk)
    ensures |buf| == NBUF
  {
  }

  lemma SysFits(g: Geometry, s: Sys)
    requires SysOk(g, s)
    ensures Fits(g, s.disk)
  {
  }

  lemma OwnTwo(buf: seq<Buf>, buf': seq<Buf>, i: nat, j: nat)
    requires Own(buf, buf', {i, j}) && i < |buf'| && j < |buf'|
    ensures buf'[i].refcnt > 0 && buf'[j].refcnt > 0
  {
  }

  lemma SettledAt(buf: seq<Buf>, disk: seq<Block>, i: nat)
    requires Settled(buf, disk) && i < |buf| && buf[i].valid && !buf[i].dirty
    ensures buf[i].blockno < |disk| && buf[i].data == disk[buf[i].blockno]
  {
  }

  /** Buffer i was changed and written through. */
  lemma WrittenSettles(buf: seq<Buf>, buf': seq<Buf>, disk: seq<Block>, disk': seq<Block>, i: nat)
    requires BuffersOk(buf, disk) && Settled(buf, disk) && i < NBUF && buf[i].valid
    requires |buf'| == NBUF && buf' == buf[i := buf'[i]] && buf'[i] == buf[i].(data := buf'[i].data, dirty := false)
    requires disk' == disk[buf[i].blockno := buf'[i].data]
    ensures Settled(buf', disk')
  {
  }

  lemma ReleasedSettles(buf: seq<Buf>, buf': seq<Buf>, disk: seq<Block>)
    requires Settled(buf, disk) && |buf'| == |buf|
    requires forall i :: 0 <= i < |buf| ==> buf'[i] == buf[i].(refcnt := buf'[i].refcnt)
    ensures Settled(buf', disk)
  {
  }

  /** Buffer `to` was written through, and both buffers were let go. */
  lemma ReleasedTwo(buf0: seq<Buf>, buf: seq<Buf>, buf': seq<Buf>, disk: seq<Block>, to: nat, from: nat)
    requires BuffersOk(buf, disk) && to < NBUF && from < NBUF && to != from && Own(buf0, buf, {to, from})
    requires buf[to].valid && |buf'| == |buf|
    requires buf' == buf[to := buf'[to]][from := buf[from].(refcnt := buf[from].refcnt - 1)]
    requires buf'[to] == buf[to].(data := buf'[to].data, dirty := false, refcnt := buf[to].refcnt - 1)
    ensures Kept(buf0, buf') && DirtyBlocks(buf') == DirtyBlocks(buf) - {buf[to].blockno}
  {
    DirtyAfter(buf, buf', disk, to, false);
  }

  lemma OwnOne(buf: seq<Buf>, buf': seq<Buf>, i: nat)
    requires Own(buf, buf', {i}) && i < |buf|
    ensures buf'[i].refcnt > 0
  {
  }

  lemma ElemsAbsorb(bs: seq<nat>, b: nat)
    ensures Elems(Absorb(bs, b)) == Elems(bs) + {b}
  {
  }

  lemma PinnedAndReleased(buf0: seq<Buf>, buf: seq<Buf>, buf': seq<Buf>, disk: seq<Block>, i: nat)
    requires BuffersOk(buf, disk) && Settled(buf, disk) && i < NBUF && Own(buf0, buf, {i}) && buf[i].valid
    requires |buf'| == |buf| && buf' == buf[i := buf'[i]]
    requires buf'[i] == buf[i].(data := buf'[i].data, dirty := true, refcnt := buf[i].refcnt - 1)
    ensures Settled(buf', disk) && SameHolders(buf0, buf')
    ensures DirtyBlocks(buf') == DirtyBlocks(buf) + {buf[i].blockno}
  {
    DirtyAfter(buf, buf', disk, i, true);
  }

  lemma BusyOneMore(buf: seq<Buf>, buf': seq<Buf>, i: nat)
    requires |buf| == |buf'| && i < |buf| && buf' == buf[i := buf'[i]] && |Busy(buf)| + 1 < NBUF
    ensures |Busy(buf')| < NBUF
  {
    assert Busy(buf') <= Busy(buf) + {i};
    SubsetSize(Busy(buf'), Busy(buf) + {i});
  }
}
