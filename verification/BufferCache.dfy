/** The buffer cache of bio.c over the in-memory disk of memide.c.

    Buffers are slots 0..NBUF-1; slot HEAD is bcache.head.  The doubly linked list
    is kept in `next`/`prev` exactly as the C pointers are; the ghost `ring` is the
    order that list spells out, most recently used first. */
module BufferCache {
  import opened Prelude

  const BWORDS := 128 // BSIZE / sizeof(int)
  const WORDMAX := 0x1_0000_0000

  /** A block as 32-bit words: the only code at this level that looks inside one,
      the log header, addresses it by word. */
  type word = x: int | 0 <= x < WORDMAX
  type Block = b: seq<word> | |b| == BWORDS witness seq(BWORDS, _ => 0)

  const NBUF := 30
  const HEAD := NBUF
  const DISK_DEV := 1 // the only device iderw accepts


  /** One write that reached the disk. */
  datatype Write = Write(blockno: nat, data: Block)

  datatype Buf = Buf(dev: nat, blockno: nat, valid: bool, dirty: bool, refcnt: nat, data: Block)

  // ---------------------------------------------------------------- the LRU list

  /** Position `i` on the walk head, ring[0], ..., ring[|ring|-1], head. */
  ghost function Stop(ring: seq<nat>, i: nat): nat
    requires i <= |ring| + 1
  {
    if 1 <= i <= |ring| then ring[i - 1] else HEAD
  }

  ghost predicate Distinct(ring: seq<nat>) {
    && (forall i :: 0 <= i < |ring| ==> ring[i] < NBUF)
    && (forall i, j :: 0 <= i < j < |ring| ==> ring[i] != ring[j])
  }

  /** The pointers agree with the ring on the step from position `i` to `i + 1`. */
  ghost predicate Link(next: seq<nat>, prev: seq<nat>, ring: seq<nat>, i: nat)
    requires |next| == |prev| == NBUF + 1 && Distinct(ring) && i <= |ring|
  {
    next[Stop(ring, i)] == Stop(ring, i + 1) && prev[Stop(ring, i + 1)] == Stop(ring, i)
  }

  /** The pointers spell out `ring`, in both directions. */
  ghost predicate Linked(next: seq<nat>, prev: seq<nat>, ring: seq<nat>) {
    && |next| == |prev| == NBUF + 1
    && Distinct(ring)
    && (forall i :: 0 <= i <= |ring| ==> Link(next, prev, ring, i))
  }

  ghost function Without(ring: seq<nat>, k: nat): seq<nat>
    requires k < |ring|
  {
    ring[..k] + ring[k + 1..]
  }

  /** `b->next->prev = b->prev; b->prev->next = b->next` takes b out of the ring. */
  lemma UnlinkRing(next: seq<nat>, prev: seq<nat>, ring: seq<nat>, k: nat)
    requires Linked(next, prev, ring) && k < |ring|
    ensures var b := ring[k]; next[b] <= NBUF && prev[b] <= NBUF
    ensures var b := ring[k];
            Linked(next[prev[b] := next[b]], prev[next[b] := prev[b]], Without(ring, k))
  {
    var b := ring[k];
    assert Link(next, prev, ring, k) && Link(next, prev, ring, k + 1);
    var next', prev', ring' := next[prev[b] := next[b]], prev[next[b] := prev[b]], Without(ring, k);
    forall i | 0 <= i <= |ring'| ensures Link(next', prev', ring', i) {
      assert Link(next, prev, ring, i) && Link(next, prev, ring, i + 1);
      assert Stop(ring', i) == if i <= k then Stop(ring, i) else Stop(ring, i + 1);
      assert Stop(ring', i + 1) == if i < k then Stop(ring, i + 1) else Stop(ring, i + 2);
    }
  }

  /** Inserting b behind the head puts it at the front of the ring. */
  lemma PushRing(next: seq<nat>, prev: seq<nat>, ring: seq<nat>, b: nat)
    requires Linked(next, prev, ring) && b < NBUF && b !in ring
    ensures next[HEAD] <= NBUF
    ensures Linked(next[b := next[HEAD]][HEAD := b], prev[b := HEAD][next[HEAD] := b], [b] + ring)
  {
    assert Link(next, prev, ring, 0);
    var next', prev', ring' := next[b := next[HEAD]][HEAD := b], prev[b := HEAD][next[HEAD] := b], [b] + ring;
    forall i | 0 <= i <= |ring'| ensures Link(next', prev', ring', i) {
      if i >= 1 {
        assert Link(next, prev, ring, i - 1);
        assert Stop(ring', i + 1) == Stop(ring, i);
        assert Stop(ring', i) == if i == 1 then b else Stop(ring, i - 1);
      }
    }
  }

  // ---------------------------------------------------------------- logical contents

  predicate Holds(b: Buf, dev: nat, blockno: nat) {
    b.dev == dev && b.blockno == blockno
  }

  /** Some buffer holds block `blockno` of the disk, with valid data. */
  ghost predicate Cached(buf: seq<Buf>, blockno: nat) {
    exists i :: 0 <= i < |buf| && Holds(buf[i], DISK_DEV, blockno) && buf[i].valid
  }

  /** Some buffer stands for the block, whether its data has been read or not. */
  ghost predicate Present(buf: seq<Buf>, blockno: nat) {
    exists i :: 0 <= i < |buf| && Holds(buf[i], DISK_DEV, blockno)
  }

  /** bget finds a buffer for the block: the one it has, or one to recycle. */
  ghost predicate Servable(buf: seq<Buf>, blockno: nat) {
    |Busy(buf)| < NBUF || Present(buf, blockno)
  }

  /** What a reader of the block must see: the cached bytes, or else the disk's. */
  ghost function Contents(buf: seq<Buf>, disk: seq<Block>, blockno: nat): Block
    requires blockno < |disk|
  {
    if Cached(buf, blockno) then
      var i :| 0 <= i < |buf| && Holds(buf[i], DISK_DEV, blockno) && buf[i].valid;
      buf[i].data
    else disk[blockno]
  }

  /** For a non-zero device at most one buffer holds a block. */
  ghost predicate OneBufferPerBlock(buf: seq<Buf>) {
    forall i, j :: 0 <= i < |buf| && 0 <= j < |buf| && i != j && buf[i].dev != 0 && buf[i].dev == buf[j].dev
      ==> buf[i].blockno != buf[j].blockno
  }

  ghost predicate BuffersOk(buf: seq<Buf>, disk: seq<Block>) {
    && |buf| == NBUF
    && OneBufferPerBlock(buf)
    && (forall i :: 0 <= i < NBUF && buf[i].valid ==> buf[i].dev == DISK_DEV && buf[i].blockno < |disk|)
    && (forall i :: 0 <= i < NBUF && buf[i].dirty ==> buf[i].valid)
    && (forall i :: 0 <= i < NBUF && buf[i].valid && !buf[i].dirty && buf[i].refcnt == 0
          ==> buf[i].data == disk[buf[i].blockno])
  }

  lemma ContentsAt(buf: seq<Buf>, disk: seq<Block>, i: nat)
    requires BuffersOk(buf, disk) && i < NBUF && buf[i].valid
    ensures Contents(buf, disk, buf[i].blockno) == buf[i].data
  {
    assert Holds(buf[i], DISK_DEV, buf[i].blockno);
  }

  /** Buffers that bget may not recycle. */
  ghost function Busy(buf: seq<Buf>): set<nat> {
    set i: nat | i < |buf| && (buf[i].refcnt > 0 || buf[i].dirty)
  }

  ghost function DirtyBlocks(buf: seq<Buf>): set<nat> {
    set i: nat | i < |buf| && buf[i].dirty :: buf[i].blockno
  }

  /** The whole logical disk, as readers see it. */
  ghost function ViewOf(buf: seq<Buf>, disk: seq<Block>): (v: seq<Block>)
    ensures |v| == |disk|
    ensures forall b :: 0 <= b < |disk| ==> v[b] == Contents(buf, disk, b)
  {
    seq(|disk|, b requires 0 <= b < |disk| => Contents(buf, disk, b))
  }

  /** The view is the only sequence that agrees with every valid buffer, and with the disk elsewhere. */
  lemma ViewIs(buf: seq<Buf>, disk: seq<Block>, v: seq<Block>)
    requires BuffersOk(buf, disk) && |v| == |disk|
    requires forall i :: 0 <= i < NBUF && buf[i].valid ==> v[buf[i].blockno] == buf[i].data
    requires forall b :: 0 <= b < |disk| ==> Cached(buf, b) || v[b] == disk[b]
    ensures ViewOf(buf, disk) == v
  {
    forall b | 0 <= b < |disk| ensures ViewOf(buf, disk)[b] == v[b] {
      if Cached(buf, b) {
        var i :| 0 <= i < |buf| && Holds(buf[i], DISK_DEV, b) && buf[i].valid;
        ContentsAt(buf, disk, i);
      }
    }
  }

  /** Changing one buffer without changing what readers of any block see. */
  lemma SameView(buf: seq<Buf>, disk: seq<Block>, i: nat, b': Buf)
    requires i < |buf| && BuffersOk(buf, disk) && b'.blockno < |disk|
    requires BuffersOk(buf[i := b'], disk)
    requires b'.valid && b'.data == ViewOf(buf, disk)[b'.blockno]
    requires buf[i].valid && !Holds(buf[i], b'.dev, b'.blockno) ==> !buf[i].dirty && buf[i].refcnt == 0
    ensures ViewOf(buf[i := b'], disk) == ViewOf(buf, disk)
  {
    var buf', v := buf[i := b'], ViewOf(buf, disk);
    forall j | 0 <= j < NBUF && buf'[j].valid ensures v[buf'[j].blockno] == buf'[j].data {
      if j != i { ContentsAt(buf, disk, j); }
    }
    forall b | 0 <= b < |disk| ensures Cached(buf', b) || v[b] == disk[b] {
      if Cached(buf, b) {
        var j :| 0 <= j < |buf| && Holds(buf[j], DISK_DEV, b) && buf[j].valid;
        ContentsAt(buf, disk, j);
        if j != i || Holds(b', DISK_DEV, b) { assert Holds(buf'[j], DISK_DEV, b); }
      }
    }
    ViewIs(buf', disk, v);
  }

  /** A buffer that keeps its block keeps the block cached. */
  lemma StillCached(buf: seq<Buf>, buf': seq<Buf>, b: nat)
    requires |buf| == |buf'|
    requires forall j :: 0 <= j < |buf| ==>
               && buf'[j].dev == buf[j].dev && buf'[j].blockno == buf[j].blockno
               && (buf[j].valid ==> buf'[j].valid)
    ensures Cached(buf, b) ==> Cached(buf', b)
  {
    if Cached(buf, b) {
      var j :| 0 <= j < |buf| && Holds(buf[j], DISK_DEV, b) && buf[j].valid;
      assert Holds(buf'[j], DISK_DEV, b);
    }
  }

  /** Overwriting a valid buffer overwrites that block of the view. */
  lemma FillView(buf: seq<Buf>, disk: seq<Block>, i: nat, data: Block)
    requires i < |buf| && BuffersOk(buf, disk) && buf[i].valid && buf[i].refcnt > 0
    ensures var buf' := buf[i := buf[i].(data := data)];
            BuffersOk(buf', disk) && ViewOf(buf', disk) == ViewOf(buf, disk)[buf[i].blockno := data]
  {
    var buf', v := buf[i := buf[i].(data := data)], ViewOf(buf, disk)[buf[i].blockno := data];
    forall j | 0 <= j < NBUF && buf'[j].valid ensures v[buf'[j].blockno] == buf'[j].data {
      if j != i { ContentsAt(buf, disk, j); }
    }
    assert Holds(buf'[i], DISK_DEV, buf[i].blockno);
    forall b | 0 <= b < |disk| ensures Cached(buf', b) || v[b] == disk[b] { StillCached(buf, buf', b); }
    ViewIs(buf', disk, v);
  }

  /** Writing a valid buffer through to the disk leaves the view alone. */
  lemma WriteThroughView(buf: seq<Buf>, disk: seq<Block>, i: nat)
    requires i < |buf| && BuffersOk(buf, disk) && buf[i].valid
    ensures var buf', disk' := buf[i := buf[i].(dirty := false)], disk[buf[i].blockno := buf[i].data];
            BuffersOk(buf', disk') && ViewOf(buf', disk') == ViewOf(buf, disk)
  {
    var buf', disk', v := buf[i := buf[i].(dirty := false)], disk[buf[i].blockno := buf[i].data], ViewOf(buf, disk);
    forall j | 0 <= j < NBUF && buf'[j].valid ensures v[buf'[j].blockno] == buf'[j].data {
      ContentsAt(buf, disk, j);
    }
    assert Holds(buf'[i], DISK_DEV, buf[i].blockno);
    forall b | 0 <= b < |disk| ensures Cached(buf', b) || v[b] == disk'[b] { StillCached(buf, buf', b); }
    ViewIs(buf', disk', v);
  }

  /** The list visits every buffer once, most recently released first. */
  ghost predicate RingOk(next: seq<nat>, prev: seq<nat>, ring: seq<nat>, stamp: seq<nat>, clock: nat) {
    && Linked(next, prev, ring)
    && |ring| == NBUF == |stamp|
    && (forall b :: 0 <= b < NBUF ==> b in ring)
    && (forall b :: 0 <= b < NBUF ==> stamp[b] < clock)
    && (forall i, j :: 0 <= i < j < NBUF ==> stamp[ring[i]] > stamp[ring[j]])
  }

  ghost function PosOf(ring: seq<nat>, b: nat): (i: nat)
    requires b in ring
    ensures i < |ring| && ring[i] == b
  {
    var i :| 0 <= i < |ring| && ring[i] == b; i
  }

  // ---------------------------------------------------------------- the cache

  class BCache {
    var disk: seq<Block>
    var buf: seq<Buf>
    var next: seq<nat>
    var prev: seq<nat>
    ghost var ring: seq<nat>
    ghost var stamp: seq<nat> // when each buffer was last released
    ghost var clock: nat
    ghost var trace: seq<Write> // every write that reached the disk

    ghost predicate Valid()
      reads this
    {
      BuffersOk(buf, disk) && RingOk(next, prev, ring, stamp, clock)
    }

    ghost function View(): (v: seq<Block>)
      reads this
    {
      ViewOf(buf, disk)
    }

    /** binit over a disk that survived a reboot. */
    constructor (image: seq<Block>)
      ensures Valid() && disk == image && trace == []
      ensures View() == image && Busy(buf) == {}
    {
      disk, trace := image, [];
      buf := seq(NBUF, _ => Buf(0, 0, false, false, 0, seq(BWORDS, _ => 0)));
      next, prev := seq(NBUF + 1, _ => HEAD), seq(NBUF + 1, _ => HEAD);
      ring, stamp, clock := [], seq(NBUF, i => i), NBUF;
      new;
      LinkAll();
    }

    /** The list-building loop of binit. */
    method LinkAll()
      requires next == seq(NBUF + 1, _ => HEAD) == prev && ring == []
      requires stamp == seq(NBUF, i => i) && clock == NBUF
      modifies this`next, this`prev, this`ring
      ensures RingOk(next, prev, ring, stamp, clock)
    {
      var b := 0;
      while b < NBUF
        invariant 0 <= b <= NBUF
        invariant Linked(next, prev, ring) && |ring| == b
        invariant forall i :: 0 <= i < b ==> ring[i] == b - 1 - i
      {
        PushRing(next, prev, ring, b);
        var first := next[HEAD];
        next := next[b := first];
        prev := prev[b := HEAD];
        prev := prev[first := b];
        next := next[HEAD := b];
        ring := [b] + ring;
        b := b + 1;
      }
      forall c | 0 <= c < NBUF ensures c in ring { assert ring[NBUF - 1 - c] == c; }
    }

    /** First loop of bget: walk forward for a buffer that holds the block. */
    method FindCached(dev: nat, blockno: nat) returns (r: Option<nat>)
      requires Valid()
      ensures r.Some? ==> r.value < NBUF && Holds(buf[r.value], dev, blockno)
      ensures r.None? ==> forall i :: 0 <= i < NBUF ==> !Holds(buf[i], dev, blockno)
    {
      var b := next[HEAD];
      ghost var k := 0;
      assert Link(next, prev, ring, 0);
      while b != HEAD
        invariant 0 <= k <= NBUF && b == Stop(ring, k + 1)
        invariant forall i :: 0 <= i < k ==> !Holds(buf[ring[i]], dev, blockno)
        decreases NBUF - k
      {
        if Holds(buf[b], dev, blockno) { return Some(b); }
        assert Link(next, prev, ring, k + 1);
        b := next[b];
        k := k + 1;
      }
      forall c | 0 <= c < NBUF ensures !Holds(buf[c], dev, blockno) { ghost var i := PosOf(ring, c); }
      return None;
    }

    /** Second loop of bget: walk backward for the least recently released
        buffer that is clean and unreferenced. */
    method FindVictim() returns (r: Option<nat>)
      requires Valid()
      ensures r.Some? ==> r.value < NBUF && buf[r.value].refcnt == 0 && !buf[r.value].dirty
      ensures r.Some? ==> forall j :: 0 <= j < NBUF && buf[j].refcnt == 0 && !buf[j].dirty ==>
                stamp[r.value] <= stamp[j]
      ensures r.None? ==> forall i :: 0 <= i < NBUF ==> buf[i].refcnt > 0 || buf[i].dirty
    {
      var b := prev[HEAD];
      ghost var k := NBUF;
      assert Link(next, prev, ring, NBUF);
      while b != HEAD
        invariant 0 <= k <= NBUF && b == Stop(ring, k)
        invariant forall i :: k <= i < NBUF ==> buf[ring[i]].refcnt > 0 || buf[ring[i]].dirty
        decreases k
      {
        if buf[b].refcnt == 0 && !buf[b].dirty {
          forall j | 0 <= j < NBUF && buf[j].refcnt == 0 && !buf[j].dirty ensures stamp[b] <= stamp[j] {
            ghost var i := PosOf(ring, j);
          }
          return Some(b);
        }
        assert Link(next, prev, ring, k - 1);
        b := prev[b];
        k := k - 1;
      }
      forall c | 0 <= c < NBUF ensures buf[c].refcnt > 0 || buf[c].dirty { ghost var i := PosOf(ring, c); }
      return None;
    }

    /** Found or recycled buffer; None is the panic "bget: no buffers". */
    method Bget(dev: nat, blockno: nat) returns (r: Option<nat>)
      requires Valid() && dev != 0
      modifies this`buf
      ensures r.Some? ==> r.value < NBUF
      // already cached: only the reference count moves
      ensures forall i :: 0 <= i < NBUF && Holds(old(buf)[i], dev, blockno) ==> r == Some(i)
      ensures r.Some? && Holds(old(buf)[r.value], dev, blockno) ==>
                buf == old(buf)[r.value := old(buf)[r.value].(refcnt := old(buf)[r.value].refcnt + 1)]
      // recycled: clean, unreferenced, and the least recently released such buffer
      ensures r.Some? && !Holds(old(buf)[r.value], dev, blockno) ==>
                && old(buf)[r.value].refcnt == 0 && !old(buf)[r.value].dirty
                && (forall j :: 0 <= j < NBUF && old(buf)[j].refcnt == 0 && !old(buf)[j].dirty ==>
                     stamp[r.value] <= stamp[j])
                && buf == old(buf)[r.value := Buf(dev, blockno, false, false, 1, old(buf)[r.value].data)]
      ensures r.None? <==> (forall i :: 0 <= i < NBUF ==>
                              !Holds(old(buf)[i], dev, blockno) && (old(buf)[i].refcnt > 0 || old(buf)[i].dirty))
      ensures r.None? ==> buf == old(buf)
    {
      r := FindCached(dev, blockno);
      if r.Some? {
        var b := r.value;
        buf := buf[b := buf[b].(refcnt := buf[b].refcnt + 1)];
        return;
      }
      r := FindVictim();
      if r.Some? {
        var b := r.value;
        buf := buf[b := Buf(dev, blockno, false, false, 1, buf[b].data)];
      }
    }

    /** memide.c: a dirty buffer goes to the disk, an invalid one is read from it. */
    method Iderw(i: nat)
      requires i < |buf| && buf[i].dev == DISK_DEV && buf[i].blockno < |disk|
      requires buf[i].dirty || !buf[i].valid
      modifies this`buf, this`disk, this`trace
      ensures old(buf)[i].dirty ==>
                && disk == old(disk)[old(buf)[i].blockno := old(buf)[i].data]
                && trace == old(trace) + [Write(old(buf)[i].blockno, old(buf)[i].data)]
                && buf == old(buf)[i := old(buf)[i].(dirty := false, valid := true)]
      ensures !old(buf)[i].dirty ==>
                && disk == old(disk) && trace == old(trace)
                && buf == old(buf)[i := old(buf)[i].(valid := true, data := disk[old(buf)[i].blockno])]
    {
      var b := buf[i];
      if b.dirty {
        disk := disk[b.blockno := b.data];
        trace := trace + [Write(b.blockno, b.data)];
        buf := buf[i := b.(dirty := false, valid := true)];
      } else {
        buf := buf[i := b.(valid := true, data := disk[b.blockno])];
      }
    }

    /** Returns the buffer with the latest contents of the block; None is bget's panic, which happens
        exactly when every buffer is busy and none stands for the block. */
    method Bread(blockno: nat) returns (r: Option<nat>)
      requires Valid() && blockno < |disk|
      modifies this`buf, this`disk, this`trace
      ensures Valid() && disk == old(disk) && trace == old(trace) && View() == old(View())
      ensures r.Some? ==>
                && r.value < NBUF && ReadInto(old(buf), buf, blockno, r.value)
                && buf[r.value].data == View()[blockno]
      ensures r.Some? <==> Servable(old(buf), blockno)
      ensures r.None? ==> buf == old(buf)
    {
      ghost var buf0, disk0 := buf, disk;
      r := Bget(DISK_DEV, blockno);
      if r.None? {
        NoBufferLeft(buf, blockno);
        return;
      }
      BufferLeft(buf0, blockno, r.value);
      var i := r.value;
      if !buf[i].valid { Iderw(i); }
      assert buf == buf0[i := buf[i]];
      ReadView(buf0, disk0, i, buf[i]);
    }

    /** The caller's memmove into the data of a buffer it holds. */
    method Fill(i: nat, data: Block)
      requires Valid() && i < NBUF && buf[i].refcnt > 0 && buf[i].valid
      modifies this`buf
      ensures Valid() && buf == old(buf)[i := old(buf)[i].(data := data)]
      ensures View() == old(View())[buf[i].blockno := data]
    {
      FillView(buf, disk, i, data);
      buf := buf[i := buf[i].(data := data)];
    }

    /** The end of log_write: B_DIRTY pins the buffer until commit writes it. */
    method Pin(i: nat)
      requires Valid() && i < NBUF && buf[i].refcnt > 0 && buf[i].valid
      modifies this`buf
      ensures Valid() && buf == old(buf)[i := old(buf)[i].(dirty := true)]
      ensures View() == old(View())
    {
      ContentsAt(buf, disk, i);
      SameView(buf, disk, i, buf[i].(dirty := true));
      buf := buf[i := buf[i].(dirty := true)];
    }

    /** Write-through: the disk gets the buffer's bytes and readers see no change. */
    method Bwrite(i: nat)
      requires Valid() && i < NBUF && buf[i].refcnt > 0 && buf[i].valid
      modifies this`buf, this`disk, this`trace
      ensures Valid() && View() == old(View())
      ensures buf == old(buf)[i := old(buf)[i].(dirty := false)]
      ensures disk == old(disk)[buf[i].blockno := buf[i].data]
      ensures trace == old(trace) + [Write(buf[i].blockno, buf[i].data)]
    {
      WriteThroughView(buf, disk, i);
      ghost var buf0 := buf;
      buf := buf[i := buf[i].(dirty := true)];
      Iderw(i);
      assert buf == buf0[i := buf0[i].(dirty := false)];
    }

    /** Drops one reference; the last one moves the buffer to the front of the list.  The cache stays
        sound exactly when a changed buffer was logged or written before its last reference went. */
    method Brelse(i: nat)
      requires Valid() && i < NBUF && buf[i].refcnt > 0 && buf[i].valid
      modifies this`buf, this`next, this`prev, this`ring, this`stamp, this`clock
      ensures |buf| == NBUF && buf[i].blockno < |disk| && RingOk(next, prev, ring, stamp, clock)
      ensures Valid() <==> buf[i].refcnt > 0 || buf[i].dirty || buf[i].data == disk[buf[i].blockno]
      ensures Valid() ==> View() == old(View())
      ensures buf == old(buf)[i := old(buf)[i].(refcnt := old(buf)[i].refcnt - 1)]
      ensures buf[i].refcnt == 0 ==>
                && ring == [i] + Without(old(ring), PosOf(old(ring), i))
                && stamp == old(stamp)[i := old(clock)]
      ensures buf[i].refcnt > 0 ==> ring == old(ring) && stamp == old(stamp)
    {
      ContentsAt(buf, disk, i);
      if buf[i].refcnt > 1 || buf[i].dirty || buf[i].data == disk[buf[i].blockno] {
        SameView(buf, disk, i, buf[i].(refcnt := buf[i].refcnt - 1));
      }
      buf := buf[i := buf[i].(refcnt := buf[i].refcnt - 1)];
      if buf[i].refcnt == 0 { MoveToFront(i); }
    }

    /** The pointer surgery of brelse. */
    method MoveToFront(i: nat)
      requires RingOk(next, prev, ring, stamp, clock) && i < NBUF
      modifies this`next, this`prev, this`ring, this`stamp, this`clock
      ensures RingOk(next, prev, ring, stamp, clock)
      ensures ring == [i] + Without(old(ring), PosOf(old(ring), i)) && stamp == old(stamp)[i := old(clock)]
    {
      hide Linked, RingOk, Without;
      RingIsLinked(next, prev, ring, stamp, clock);
      ghost var k := PosOf(ring, i);
      ghost var rest := Without(ring, k);
      UnlinkRing(next, prev, ring, k);
      var before, after := prev[i], next[i];
      prev := prev[after := before];
      next := next[before := after];
      FrontIsNew(ring, k);
      PushRing(next, prev, rest, i);
      var first := next[HEAD];
      next := next[i := first];
      prev := prev[i := HEAD];
      prev := prev[first := i];
      next := next[HEAD := i];
      MovedRing(old(next), old(prev), next, prev, ring, k, stamp, clock);
      ring, stamp, clock := [i] + rest, stamp[i := clock], clock + 1;
    }
  }

  lemma RingIsLinked(next: seq<nat>, prev: seq<nat>, ring: seq<nat>, stamp: seq<nat>, clock: nat)
    requires RingOk(next, prev, ring, stamp, clock)
    ensures Linked(next, prev, ring) && Distinct(ring) && |next| == |prev| == NBUF + 1 && |ring| == NBUF == |stamp|
    ensures forall b :: 0 <= b < NBUF ==> b in ring
  {
  }

  lemma FrontIsNew(ring: seq<nat>, k: nat)
    requires Distinct(ring) && k < |ring|
    ensures ring[k] !in Without(ring, k)
  {
  }

  /** Moving position k to the front, with the newest stamp, keeps the list sound. */
  lemma MovedRing(next: seq<nat>, prev: seq<nat>, next': seq<nat>, prev': seq<nat>, ring: seq<nat>, k: nat,
                  stamp: seq<nat>, clock: nat)
    requires RingOk(next, prev, ring, stamp, clock) && k < NBUF
    requires Linked(next', prev', [ring[k]] + Without(ring, k))
    ensures RingOk(next', prev', [ring[k]] + Without(ring, k), stamp[ring[k] := clock], clock + 1)
  {
    assert Distinct(ring);
    hide Linked;
    var i, rest := ring[k], Without(ring, k);
    forall b | 0 <= b < NBUF ensures b in [i] + rest {
      var p := PosOf(ring, b);
      if p < k { assert rest[p] == b; } else if p > k { assert rest[p - 1] == b; }
    }
  }

  /** What bread did to the buffers: slot `i` now holds the block, one reference up, the rest untouched. */
  ghost predicate ReadInto(buf: seq<Buf>, buf': seq<Buf>, blockno: nat, i: nat)
    requires i < |buf| == |buf'| == NBUF
  {
    var hit := Holds(buf[i], DISK_DEV, blockno);
    && buf' == buf[i := buf'[i]]
    && Holds(buf'[i], DISK_DEV, blockno) && buf'[i].valid
    && buf'[i].refcnt == (if hit then buf[i].refcnt else 0) + 1
    && buf'[i].dirty == (hit && buf[i].dirty)
    && (!hit ==> buf[i].refcnt == 0 && !buf[i].dirty)
    && (Cached(buf, blockno) ==> hit && buf[i].valid)
  }

  lemma NoBufferLeft(buf: seq<Buf>, blockno: nat)
    requires |buf| == NBUF
    requires forall i :: 0 <= i < NBUF ==> !Holds(buf[i], DISK_DEV, blockno) && (buf[i].refcnt > 0 || buf[i].dirty)
    ensures !Servable(buf, blockno)
  {
    HasAll(Busy(buf), NBUF);
  }

  lemma BufferLeft(buf: seq<Buf>, blockno: nat, i: nat)
    requires |buf| == NBUF && i < NBUF
    requires Holds(buf[i], DISK_DEV, blockno) || (buf[i].refcnt == 0 && !buf[i].dirty)
    ensures Servable(buf, blockno)
  {
    if !Holds(buf[i], DISK_DEV, blockno) {
      MissesOne(Busy(buf), NBUF, i);
    }
  }

  /** What bread leaves in a slot does not change the view. */
  lemma ReadView(buf: seq<Buf>, disk: seq<Block>, i: nat, b': Buf)
    requires i < |buf| && BuffersOk(buf, disk) && b'.valid && b'.dev == DISK_DEV && b'.blockno < |disk| && b'.refcnt > 0
    requires b'.dirty ==> Holds(buf[i], DISK_DEV, b'.blockno)
    requires Holds(buf[i], DISK_DEV, b'.blockno) ==> b'.data == if buf[i].valid then buf[i].data else disk[b'.blockno]
    requires !Holds(buf[i], DISK_DEV, b'.blockno) ==>
               && b'.data == disk[b'.blockno] && buf[i].refcnt == 0 && !buf[i].dirty
               && (forall j :: 0 <= j < |buf| ==> !Holds(buf[j], DISK_DEV, b'.blockno))
    ensures BuffersOk(buf[i := b'], disk)
    ensures b'.data == ViewOf(buf, disk)[b'.blockno]
    ensures ViewOf(buf[i := b'], disk) == ViewOf(buf, disk)
    ensures Cached(buf, b'.blockno) ==> Holds(buf[i], DISK_DEV, b'.blockno) && buf[i].valid
  {
    if buf[i].valid && Holds(buf[i], DISK_DEV, b'.blockno) {
      ContentsAt(buf, disk, i);
    } else {
      assert !Cached(buf, b'.blockno);
    }
    SameView(buf, disk, i, b');
  }
}
