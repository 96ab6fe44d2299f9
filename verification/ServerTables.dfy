/** The tables of fsserver.c as values: descriptors, inode slots and the references between them. */
module ServerTables {
  import opened Prelude
  import opened Blocks
  import opened Bitmap
  import opened BlockMap
  import opened FileSystem
  import opened DiskInode
  import opened ServerStore

  // ---------------------------------------------------------------- the descriptors and the references

  const MAX_FDS := 64
  const T_FILE := 2
  const IPC_DATA_SIZE := 128

  datatype Fd = Fd(used: bool, owner: int, off: nat, readable: bool, writable: bool)

  /** How many descriptors point at inode slot u. */
  ghost function Count(s: seq<Option<nat>>, u: nat): (n: nat) {
    if s == [] then 0 else Count(s[..|s| - 1], u) + if s[|s| - 1] == Some(u) then 1 else 0
  }

  lemma {:induction false} CountSet(s: seq<Option<nat>>, k: nat, x: Option<nat>, u: nat)
    requires k < |s|
    ensures Count(s[k := x], u) == Count(s, u) - (if s[k] == Some(u) then 1 else 0) + (if x == Some(u) then 1 else 0)
  {
    var n := |s| - 1;
    if k == n {
      assert s[k := x][..n] == s[..n];
    } else {
      assert s[k := x][..n] == s[..n][k := x];
      CountSet(s[..n], k, x, u);
    }
  }

  lemma {:induction false} CountHas(s: seq<Option<nat>>, k: nat, u: nat)
    requires k < |s| && s[k] == Some(u)
    ensures Count(s, u) > 0
  {
    if k < |s| - 1 { CountHas(s[..|s| - 1], k, u); }
  }

  lemma {:induction false} CountNone(s: seq<Option<nat>>, u: nat)
    requires forall k {:trigger s[k]} :: 0 <= k < |s| ==> s[k] != Some(u)
    ensures Count(s, u) == 0
  {
    if s != [] { CountNone(s[..|s| - 1], u); }
  }

  lemma {:induction false} CountSome(s: seq<Option<nat>>, u: nat)
    requires Count(s, u) > 0
    ensures exists k {:trigger s[k]} :: 0 <= k < |s| && s[k] == Some(u)
  {
    var n := |s| - 1;
    if s[n] != Some(u) {
      CountSome(s[..n], u);
      var k :| 0 <= k < n && s[..n][k] == Some(u);
      assert s[k] == Some(u);
    }
  }

  /** Each slot's reference count is the number of descriptors at it, plus the references in `extra`. */
  ghost predicate RefsOk(icache: seq<Uinode>, at: seq<Option<nat>>, extra: multiset<nat>) {
    && |icache| == NINODE
    && (forall u {:trigger icache[u]} :: 0 <= u < NINODE ==> icache[u].ref == Count(at, u) + extra[u])
    && (forall u {:trigger extra[u]} :: u in extra ==> u < NINODE)
  }

  /** Descriptor k is used exactly when it has an inode, which is loaded and at least as long as the offset. */
  ghost predicate FdOk(icache: seq<Uinode>, fds: seq<Fd>, at: seq<Option<nat>>, k: nat)
    requires k < |fds| == |at|
  {
    && (fds[k].used <==> at[k].Some?)
    && (at[k].Some? ==>
          && at[k].value < |icache| && icache[at[k].value].valid
          && fds[k].off <= icache[at[k].value].ino.size && fds[k].off <= MAXBYTES)
  }

  ghost predicate Ok(icache: seq<Uinode>, fds: seq<Fd>, at: seq<Option<nat>>, extra: multiset<nat>) {
    && RefsOk(icache, at, extra) && |fds| == |at| == MAX_FDS
    && (forall k {:trigger FdOk(icache, fds, at, k)} :: 0 <= k < MAX_FDS ==> FdOk(icache, fds, at, k))
  }

  lemma OkFacts(icache: seq<Uinode>, fds: seq<Fd>, at: seq<Option<nat>>, extra: multiset<nat>)
    requires Ok(icache, fds, at, extra)
    ensures |icache| == NINODE && |fds| == |at| == MAX_FDS
    ensures forall u: nat {:trigger extra[u]} :: u in extra ==> u < NINODE && icache[u].ref > 0
    ensures forall u {:trigger icache[u]} :: 0 <= u < NINODE ==> icache[u].ref == Count(at, u) + extra[u]
  {
    forall u: nat | u in extra ensures u < NINODE && icache[u].ref > 0 { assert extra[u] > 0; }
  }

  /** When one slot may change. */
  lemma SetSlot(icache: seq<Uinode>, fds: seq<Fd>, at: seq<Option<nat>>, extra: multiset<nat>,
                u: nat, x: Uinode, extra': multiset<nat>)
    requires Ok(icache, fds, at, extra) && u < NINODE
    requires x.ref == Count(at, u) + extra'[u] && extra' == extra[u := extra'[u]]
    requires Count(at, u) > 0 && icache[u].valid ==> x.valid && x.ino.size >= icache[u].ino.size
    ensures Ok(icache[u := x], fds, at, extra')
  {
    var r := icache[u := x];
    forall k | 0 <= k < MAX_FDS ensures FdOk(r, fds, at, k) {
      assert FdOk(icache, fds, at, k);
      if at[k] == Some(u) { CountHas(at, k, u); }
    }
  }

  /** uiget. */
  lemma GetOk(icache: seq<Uinode>, fds: seq<Fd>, at: seq<Option<nat>>, extra: multiset<nat>, u: nat, y: Uinode)
    requires Ok(icache, fds, at, extra) && u < NINODE && y.ref == icache[u].ref + 1
    requires icache[u].ref > 0 ==> y == icache[u].(ref := y.ref)
    ensures Ok(icache[u := y], fds, at, extra + multiset{u})
  {
    assert extra + multiset{u} == extra[u := extra[u] + 1];
    SetSlot(icache, fds, at, extra, u, y, extra + multiset{u});
  }

  /** uilock. */
  lemma LoadOk(icache: seq<Uinode>, fds: seq<Fd>, at: seq<Option<nat>>, extra: multiset<nat>, u: nat, ino: Inode)
    requires Ok(icache, fds, at, extra) && u < NINODE && !icache[u].valid
    ensures Ok(icache[u := icache[u].(valid := true, ino := ino)], fds, at, extra)
  {
    assert extra[u := extra[u]] == extra;
    SetSlot(icache, fds, at, extra, u, icache[u].(valid := true, ino := ino), extra);
  }

  /** uiput. */
  lemma PutOk(icache: seq<Uinode>, fds: seq<Fd>, at: seq<Option<nat>>, extra: multiset<nat>, u: nat)
    requires Ok(icache, fds, at, extra) && u in extra
    ensures u < NINODE && icache[u].ref > 0
    ensures var x := icache[u];
            Ok(icache[u := x.(ref := x.ref - 1, valid := x.ref > 1 && x.valid)], fds, at, extra - multiset{u})
  {
    OkFacts(icache, fds, at, extra);
    var x := icache[u];
    assert extra - multiset{u} == extra[u := extra[u] - 1];
    SetSlot(icache, fds, at, extra, u, x.(ref := x.ref - 1, valid := x.ref > 1 && x.valid), extra - multiset{u});
  }

  /** A loaded inode changes and does not shrink. */
  lemma GrowOk(icache: seq<Uinode>, icache': seq<Uinode>, fds: seq<Fd>, at: seq<Option<nat>>, extra: multiset<nat>,
               u: nat)
    requires Ok(icache, fds, at, extra) && u < NINODE && SlotKept(icache, icache', u)
    requires icache'[u].ino.size >= icache[u].ino.size
    ensures Ok(icache', fds, at, extra)
  {
    assert extra[u := extra[u]] == extra;
    SetSlot(icache, fds, at, extra, u, icache'[u], extra);
  }

  /** A held reference becomes the reference of descriptor k. */
  lemma Attach(icache: seq<Uinode>, fds: seq<Fd>, fd: Fd, at: seq<Option<nat>>, k: nat, u: nat)
    requires Ok(icache, fds, at, multiset{u}) && k < MAX_FDS && !fds[k].used && u < NINODE
    requires fd.used && fd.off <= icache[u].ino.size && fd.off <= MAXBYTES && icache[u].valid
    ensures Ok(icache, fds[k := fd], at[k := Some(u)], multiset{})
  {
    assert FdOk(icache, fds, at, k);
    var fds', at' := fds[k := fd], at[k := Some(u)];
    forall v | 0 <= v < NINODE ensures icache[v].ref == Count(at', v) { CountSet(at, k, Some(u), v); }
    forall j | 0 <= j < MAX_FDS ensures FdOk(icache, fds', at', j) { assert FdOk(icache, fds, at, j); }
  }

  /** The reference of descriptor k becomes a held one. */
  lemma Detach(icache: seq<Uinode>, fds: seq<Fd>, at: seq<Option<nat>>, k: nat)
    requires Ok(icache, fds, at, multiset{}) && k < MAX_FDS && at[k].Some? && at[k].value < NINODE
    ensures Ok(icache, fds[k := fds[k].(used := false)], at[k := None], multiset{at[k].value})
  {
    var fds', at' := fds[k := fds[k].(used := false)], at[k := None];
    forall v | 0 <= v < NINODE ensures icache[v].ref == Count(at', v) + multiset{at[k].value}[v] {
      CountSet(at, k, None, v);
    }
    forall j | 0 <= j < MAX_FDS ensures FdOk(icache, fds', at', j) { assert FdOk(icache, fds, at, j); }
  }

  /** A descriptor moves within its file. */
  lemma MoveFd(icache: seq<Uinode>, fds: seq<Fd>, at: seq<Option<nat>>, k: nat, off: nat)
    requires Ok(icache, fds, at, multiset{}) && k < MAX_FDS && fds[k].used && at[k].Some? && at[k].value < NINODE
    requires off <= icache[at[k].value].ino.size && off <= MAXBYTES
    ensures Ok(icache, fds[k := fds[k].(off := off)], at, multiset{})
  {
    var fds' := fds[k := fds[k].(off := off)];
    forall j | 0 <= j < MAX_FDS ensures FdOk(icache, fds', at, j) { assert FdOk(icache, fds, at, j); }
  }

  ghost predicate AllUsed(fds: seq<Fd>) {
    forall k {:trigger fds[k]} :: 0 <= k < |fds| ==> fds[k].used
  }

  // ---------------------------------------------------------------- flags

  /** flags & O_WRONLY, flags & O_RDWR, flags & O_CREATE. */
  predicate WrOnly(flags: nat) { TestBit(flags, 0) }
  predicate RdWr(flags: nat) { TestBit(flags, 1) }
  predicate Creates(flags: nat) { TestBit(flags, 9) }

  /** O_WRONLY is 1, O_RDWR is 2, O_CREATE is 0x200. */
  lemma FlagBits(flags: nat)
    ensures WrOnly(flags) <==> flags % 2 == 1
    ensures RdWr(flags) <==> flags / 2 % 2 == 1
    ensures Creates(flags) <==> flags / 0x200 % 2 == 1
  {
    assert RdWr(flags) == TestBit(flags / 2, 0);
    assert Creates(flags) == TestBit(flags / 0x200, 0) by { Ninth(flags); }
  }

  lemma Ninth(x: nat)
    ensures TestBit(x, 9) == TestBit(x / 0x200, 0)
  {
    hide TestBit;
    TestShift(x, 6);
    TestShift(x / 8, 3);
    TestShift(x / 64, 0);
    assert x / 8 / 8 / 8 == x / 0x200;
  }

  lemma TestShift(x: nat, j: nat)
    ensures TestBit(x, j + 3) == TestBit(x / 8, j)
  {
    assert TestBit(x, j + 3) == TestBit(x / 2, j + 2);
    assert TestBit(x / 2, j + 2) == TestBit(x / 2 / 2, j + 1);
    assert TestBit(x / 2 / 2, j + 1) == TestBit(x / 2 / 2 / 2, j);
    assert x / 2 / 2 / 2 == x / 8;
  }

  function NewFd(sender: int, flags: nat): Fd {
    Fd(true, sender, 0, !WrOnly(flags), WrOnly(flags) || RdWr(flags))
  }

  // ---------------------------------------------------------------- slots

  /** There is a slot for the inode, or one to take for it. */
  ghost predicate Gettable(icache: seq<Uinode>, inum: nat) {
    exists v {:trigger icache[v]} :: 0 <= v < |icache| && (icache[v].ref <= 0 || icache[v].inum == inum)
  }

  lemma GettableIs(icache: seq<Uinode>, inum: nat)
    requires |icache| == NINODE
    ensures Gettable(icache, inum) <==> !(forall u {:trigger icache[u]} :: 0 <= u < NINODE ==>
                                            icache[u].ref > 0 && icache[u].inum != inum)
  {
  }

  /** The inode has a referenced slot. */
  ghost predicate Live(ic: seq<Uinode>, i: nat) {
    exists v {:trigger ic[v]} :: 0 <= v < |ic| && ic[v].ref > 0 && ic[v].inum == i
  }

  ghost predicate Spare(ic: seq<Uinode>) {
    exists v {:trigger ic[v]} :: 0 <= v < |ic| && ic[v].ref <= 0
  }

  ghost predicate TwoSpare(ic: seq<Uinode>) {
    exists a, b {:trigger ic[a], ic[b]} :: 0 <= a < b < |ic| && ic[a].ref <= 0 && ic[b].ref <= 0
  }

  /** While a reference to inode i is held besides those in ic, uiget has a slot for inode x. */
  ghost predicate SlotFor(ic: seq<Uinode>, i: nat, x: nat) {
    Live(ic, x) || x == i || TwoSpare(ic) || (Live(ic, i) && Spare(ic))
  }

  /** A referenced slot has the same inode, and is still loaded if it was. */
  ghost predicate SameSlot(x: Uinode, y: Uinode) {
    x.ref > 0 ==> y.inum == x.inum && (x.valid ==> y.valid)
  }

  /** The same references to the same inodes. */
  ghost predicate SameRefs(ic: seq<Uinode>, ic': seq<Uinode>) {
    && |ic'| == |ic|
    && (forall v {:trigger ic[v]} {:trigger ic'[v]} :: 0 <= v < |ic| ==>
          ic'[v].ref == ic[v].ref && SameSlot(ic[v], ic'[v]))
  }

  /** ... and one more, to the inode in slot u. */
  ghost predicate PlusOne(ic: seq<Uinode>, ic': seq<Uinode>, u: nat) {
    && |ic'| == |ic| && u < |ic| && ic'[u].ref == ic[u].ref + 1 > 0
    && (forall v {:trigger ic[v]} {:trigger ic'[v]} :: 0 <= v < |ic| ==>
          (v != u ==> ic'[v].ref == ic[v].ref) && SameSlot(ic[v], ic'[v]))
  }

  lemma SlotForIs(ic: seq<Uinode>, ic': seq<Uinode>, u: nat, x: nat)
    requires PlusOne(ic, ic', u) && DistinctInums(ic')
    ensures Gettable(ic', x) <==> SlotFor(ic, ic'[u].inum, x)
  {
    if Gettable(ic', x) {
      var v :| 0 <= v < |ic'| && (ic'[v].ref <= 0 || ic'[v].inum == x);
      assert v != u ==> ic'[v].ref == ic[v].ref;
      assert ic[u].ref > 0 ==> Live(ic, ic'[u].inum);
    }
    if SlotFor(ic, ic'[u].inum, x) {
      if Live(ic, x) {
        var v :| 0 <= v < |ic| && ic[v].ref > 0 && ic[v].inum == x;
        assert ic'[v].inum == x;
      } else if x == ic'[u].inum {
        assert 0 <= u < |ic'|;
      } else if TwoSpare(ic) {
        var a, b :| 0 <= a < b < |ic| && ic[a].ref <= 0 && ic[b].ref <= 0;
        var v := if a == u then b else a;
        assert ic'[v].ref <= 0;
      } else {
        var w :| 0 <= w < |ic| && ic[w].ref > 0 && ic[w].inum == ic'[u].inum;
        assert w == u by { assert ic'[w].inum == ic'[u].inum; }
        var v :| 0 <= v < |ic| && ic[v].ref <= 0;
        assert ic'[v].ref <= 0;
      }
    }
  }

  lemma SlotForSame(ic: seq<Uinode>, ic': seq<Uinode>, i: nat, x: nat)
    requires SameRefs(ic, ic') && SlotFor(ic', i, x)
    ensures SlotFor(ic, i, x)
  {
    if Live(ic', x) {
      var v :| 0 <= v < |ic'| && ic'[v].ref > 0 && ic'[v].inum == x;
      assert ic[v].inum == x;
    } else if TwoSpare(ic') {
      var a, b :| 0 <= a < b < |ic'| && ic'[a].ref <= 0 && ic'[b].ref <= 0;
      assert ic[a].ref <= 0 && ic[b].ref <= 0;
    } else if x != i {
      var v :| 0 <= v < |ic'| && ic'[v].ref > 0 && ic'[v].inum == i;
      assert ic[v].inum == i;
      var w :| 0 <= w < |ic'| && ic'[w].ref <= 0;
      assert ic[w].ref <= 0;
    }
  }

  lemma LockedOne(ic: seq<Uinode>, ic0: seq<Uinode>, ic1: seq<Uinode>, u: nat)
    requires PlusOne(ic, ic0, u) && DistinctInums(ic0) && |ic1| == |ic0|
    requires ic1 == ic0[u := ic0[u].(valid := true, ino := ic1[u].ino)]
    ensures PlusOne(ic, ic1, u) && DistinctInums(ic1)
  {
  }

  /** One more reference to slot v, for inode inum: it had the inode, or it was free and is not loaded yet. */
  ghost predicate Got(ic: seq<Uinode>, ic': seq<Uinode>, v: nat, inum: nat) {
    && |ic| == |ic'| == NINODE && v < NINODE && ic' == ic[v := ic'[v]] && ic'[v].inum == inum
    && ic'[v].ref == ic[v].ref + 1 > 0
    && (ic[v].ref > 0 ==> ic'[v] == ic[v].(ref := ic'[v].ref))
    && (ic[v].ref <= 0 ==> !ic'[v].valid)
  }

  /** Dropping a reference to the slot loses nothing. */
  ghost predicate Let(l: Layout, disk: seq<Block>, x: Uinode) {
    x.ref > 1 || !x.valid || OnDisk(l, disk, x.inum) == x.ino
  }

  /** One reference less. */
  function Dropped(x: Uinode): Uinode {
    x.(ref := x.ref - 1, valid := x.ref > 1 && x.valid)
  }

  lemma GotOne(ic: seq<Uinode>, ic0: seq<Uinode>, ic': seq<Uinode>, v: nat, inum: nat)
    requires SameRefs(ic, ic0) && Got(ic0, ic', v, inum)
    ensures PlusOne(ic, ic', v)
  {
  }

  lemma AddrsRefs(ic: seq<Uinode>, ic': seq<Uinode>, u: nat)
    requires AddrsOnly(ic, ic', u) || SlotKept(ic, ic', u)
    ensures SameRefs(ic, ic')
  {
  }

  lemma SameRefsTrans(ic: seq<Uinode>, ic1: seq<Uinode>, ic2: seq<Uinode>)
    requires SameRefs(ic, ic1) && SameRefs(ic1, ic2)
    ensures SameRefs(ic, ic2)
  {
  }

  lemma SameRefsSelf(ic: seq<Uinode>)
    ensures SameRefs(ic, ic)
  {
  }

  lemma PutBack(ic: seq<Uinode>, mid: seq<Uinode>, ic': seq<Uinode>, u: nat)
    requires PlusOne(ic, mid, u) && |ic'| == |mid| && ic' == mid[u := Dropped(mid[u])]
    ensures SameRefs(ic, ic')
  {
  }

  /** The slot next was got while slot ip was held, and ip put. */
  lemma LeftFor(ic: seq<Uinode>, ic1: seq<Uinode>, mid: seq<Uinode>, ic2: seq<Uinode>, ip: nat, next: nat)
    requires PlusOne(ic, ic1, ip) && PlusOne(ic1, mid, next) && |ic2| == |mid| && ic2 == mid[ip := Dropped(mid[ip])]
    ensures PlusOne(ic, ic2, next)
  {
  }

  /** Put again at once. */
  lemma LeftSlot(ic1: seq<Uinode>, mid: seq<Uinode>, ic2: seq<Uinode>, ip: nat, next: nat, x: nat)
    requires ip < |ic1| && ic1[ip].ref > 0 && Got(ic1, mid, next, x) && |ic2| == |mid|
    requires ic2 == mid[ip := Dropped(mid[ip])]
    ensures ic2[next].inum == x && ic2[next] == if next == ip then ic1[ip] else mid[next]
  {
  }

  lemma StillLoaded(ic: seq<Uinode>, ic': seq<Uinode>, v: nat, inum: nat, u: nat)
    requires Got(ic, ic', v, inum) && u < |ic| && Loaded(ic[u])
    ensures Loaded(ic'[u]) && ic'[u] == ic[u].(ref := ic'[u].ref)
  {
  }

  /** The referenced slots are as they were. */
  ghost predicate SameLive(ic: seq<Uinode>, ic': seq<Uinode>) {
    && |ic'| == |ic|
    && (forall v {:trigger ic[v]} {:trigger ic'[v]} :: 0 <= v < |ic| ==>
          if ic[v].ref > 0 then ic'[v] == ic[v] else ic'[v].ref <= 0)
  }

  /** A slot that was got while the root was held leaves one for the root. */
  lemma RootStays(ic: seq<Uinode>, ic': seq<Uinode>, u: nat)
    requires PlusOne(ic, ic', u) && DistinctInums(ic') && Gettable(ic, ROOTINO) && SlotFor(ic, ROOTINO, ic'[u].inum)
    ensures Gettable(ic', ROOTINO)
  {
    SlotForIs(ic, ic', u, ROOTINO);
    if !Live(ic, ROOTINO) && ic'[u].inum != ROOTINO && !TwoSpare(ic) {
      var v :| 0 <= v < |ic| && (ic[v].ref <= 0 || ic[v].inum == ROOTINO);
      assert Spare(ic);
    }
  }

  // ---------------------------------------------------------------- the root and a new inode

  /** Slot dp has the root and slot ip the new inode; they are held besides the references of ic. */
  ghost predicate BothHeld(dp: nat, ip: nat, inum: nat, ic: seq<Uinode>, ic1: seq<Uinode>, ic2: seq<Uinode>) {
    && |ic2| == NINODE && dp < NINODE && ip < NINODE && dp != ip && 0 < inum < SHORT && inum != ROOTINO
    && Loaded(ic2[dp]) && ic2[dp].inum == ROOTINO && ic2[ip].inum == inum && ic2[ip].ref == 1
    && PlusOne(ic, ic1, dp) && PlusOne(ic1, ic2, ip) && SlotFor(ic, ROOTINO, inum)
  }

  lemma LockedBoth(dp: nat, ip: nat, inum: nat, ic: seq<Uinode>, ic1: seq<Uinode>, mid: seq<Uinode>, ic2: seq<Uinode>)
    requires BothHeld(dp, ip, inum, ic, ic1, mid) && |ic2| == NINODE
    requires ic2 == mid[ip := mid[ip].(valid := true, ino := ic2[ip].ino)]
    ensures BothHeld(dp, ip, inum, ic, ic1, ic2)
  {
    hide SlotFor;
  }

  lemma StillLive(ic: seq<Uinode>, ic': seq<Uinode>, dp: nat, ip: nat)
    requires SameRefs(ic, ic') && dp < |ic| && ip < |ic| && Loaded(ic[dp]) && Loaded(ic[ip])
    ensures Loaded(ic'[dp]) && Loaded(ic'[ip]) && ic'[ip].inum == ic[ip].inum
  {
  }

  lemma PutNew(dp: nat, ip: nat, inum: nat, ic: seq<Uinode>, ic1: seq<Uinode>, mid: seq<Uinode>, ic2: seq<Uinode>)
    requires BothHeld(dp, ip, inum, ic, ic1, mid) && |ic2| == NINODE && ic2 == mid[ip := Dropped(mid[ip])]
    ensures PlusOne(ic, ic2, dp) && ic2[dp] == mid[dp]
  {
    hide SlotFor;
    PutBack(ic1, mid, ic2, ip);
  }

  // ---------------------------------------------------------------- giving up descriptors

  /** What close_all_for_owner makes of one descriptor. */
  ghost predicate ClosedFor(owner: int, fd: Fd, x: Option<nat>, fd': Fd, x': Option<nat>) {
    if fd.used && fd.owner == owner then fd' == fd.(used := false) && x' == None else fd' == fd && x' == x
  }

  /** The tables before close_all_for_owner, and what held of them. */
  datatype Table = Table(fds: seq<Fd>, at: seq<Option<nat>>, fs: Fs, ic: seq<Uinode>, valid: bool, sound: bool,
                         tight: bool)

  /** Slot x with fewer references. */
  ghost predicate Fewer(x: Uinode, y: Uinode) {
    y.inum == x.inum && y.ino == x.ino && y.ref <= x.ref && (y.ref > 0 ==> y.valid == x.valid)
  }

  /** Slot u is open, and only by the owner. */
  ghost predicate Last(fds: seq<Fd>, at: seq<Option<nat>>, owner: int, u: nat) {
    && |fds| == |at|
    && (exists k {:trigger at[k]} :: 0 <= k < |at| && at[k] == Some(u))
    && (forall k {:trigger at[k]} :: 0 <= k < |at| && at[k] == Some(u) ==> fds[k].owner == owner)
  }

  /** The slots that have lost all references were on disk as they are. */
  ghost predicate Gone(l: Layout, disk: seq<Block>, ic: seq<Uinode>, ic': seq<Uinode>) {
    && |ic| == |ic'|
    && (forall u {:trigger ic[u]} {:trigger ic'[u]} :: 0 <= u < |ic| && ic[u].ref > 0 && ic'[u].ref <= 0 ==>
          OnDisk(l, disk, ic[u].inum) == ic[u].ino)
  }

  ghost predicate GoneFor(l: Layout, disk: seq<Block>, ic: seq<Uinode>, fds: seq<Fd>, at: seq<Option<nat>>,
                          owner: int) {
    forall u: nat {:trigger Last(fds, at, owner, u)} :: u < |ic| && Last(fds, at, owner, u) ==>
      OnDisk(l, disk, ic[u].inum) == ic[u].ino
  }

  lemma GoneNext(l: Layout, disk: seq<Block>, ic: seq<Uinode>, mid: seq<Uinode>, ic': seq<Uinode>, u: nat)
    requires |ic| == |mid| == |ic'| && u < |ic| && ic' == mid[u := Dropped(mid[u])] && Loaded(mid[u])
    requires forall v {:trigger mid[v]} :: 0 <= v < |ic| ==> Fewer(ic[v], mid[v])
    ensures Gone(l, disk, ic, ic') <==>
              Gone(l, disk, ic, mid) && (mid[u].ref > 1 || !mid[u].valid || OnDisk(l, disk, mid[u].inum) == mid[u].ino)
    ensures forall v {:trigger ic'[v]} :: 0 <= v < |ic| ==> Fewer(ic[v], ic'[v])
  {
    hide OnDisk;
    if Gone(l, disk, ic, ic') {
      assert ic'[u].ref <= 0 ==> OnDisk(l, disk, ic[u].inum) == ic[u].ino;
      forall v | 0 <= v < |ic| && ic[v].ref > 0 && mid[v].ref <= 0 ensures OnDisk(l, disk, ic[v].inum) == ic[v].ino {
        assert ic'[v].ref <= 0;
      }
    }
  }

  lemma LastIs(ic: seq<Uinode>, ic': seq<Uinode>, fds: seq<Fd>, at: seq<Option<nat>>, fds': seq<Fd>,
               at': seq<Option<nat>>, owner: int, u: nat)
    requires Ok(ic, fds, at, multiset{}) && Ok(ic', fds', at', multiset{}) && u < NINODE
    requires forall k {:trigger fds'[k]} {:trigger at'[k]} :: 0 <= k < MAX_FDS ==>
               ClosedFor(owner, fds[k], at[k], fds'[k], at'[k])
    ensures Last(fds, at, owner, u) <==> ic[u].ref > 0 && ic'[u].ref <= 0
  {
    assert ic[u].ref == Count(at, u) + multiset{}[u] && ic'[u].ref == Count(at', u) + multiset{}[u];
    if Last(fds, at, owner, u) {
      var k :| 0 <= k < |at| && at[k] == Some(u);
      CountHas(at, k, u);
      forall j | 0 <= j < |at'| ensures at'[j] != Some(u) { assert FdOk(ic, fds, at, j); }
      CountNone(at', u);
    }
    if ic[u].ref > 0 && ic'[u].ref <= 0 {
      CountSome(at, u);
      forall k | 0 <= k < |at| && at[k] == Some(u) ensures fds[k].owner == owner {
        if at'[k] == Some(u) { CountHas(at', k, u); }
      }
    }
  }

  lemma GoneIs(l: Layout, disk: seq<Block>, ic: seq<Uinode>, ic': seq<Uinode>, fds: seq<Fd>, at: seq<Option<nat>>,
               fds': seq<Fd>, at': seq<Option<nat>>, owner: int)
    requires Ok(ic, fds, at, multiset{}) && Ok(ic', fds', at', multiset{})
    requires forall k {:trigger fds'[k]} {:trigger at'[k]} :: 0 <= k < MAX_FDS ==>
               ClosedFor(owner, fds[k], at[k], fds'[k], at'[k])
    ensures Gone(l, disk, ic, ic') <==> GoneFor(l, disk, ic, fds, at, owner)
  {
    hide OnDisk, Last, FdOk, ClosedFor;
    forall u: nat | u < NINODE ensures Last(fds, at, owner, u) <==> ic[u].ref > 0 && ic'[u].ref <= 0 {
      LastIs(ic, ic', fds, at, fds', at', owner, u);
    }
  }
}
