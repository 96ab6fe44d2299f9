/** Files across crashes: the file system that fs.c keeps in the home blocks, and the redo log under it.

    The log moves blocks of words, the file system reads blocks of bytes; `Sees` ties the two. Whatever the events,
    recovery leaves the file system that the kernel saw at the last commit, so if every commit finds it well formed,
    every crash does. */
module CrashSafety {
  import opened Prelude
  import opened RedoLog
  import opened BlockMap
  import opened DiskInode
  import opened ServerStore
  import Bytes = Blocks
  import Words = BufferCache

  // ---------------------------------------------------------------- blocks of words and of bytes

  function ToBytes(w: Words.Block): (b: Bytes.Block)
    ensures forall i: nat {:trigger w[i]} :: i < Bytes.BWORDS ==> Bytes.GetWord(b, i) == w[i]
  {
    PutWords(Bytes.ZeroBlock(), 0, w)
  }

  function ToWords(b: Bytes.Block): (w: Words.Block)
    ensures forall i: nat {:trigger w[i]} :: i < Bytes.BWORDS ==> w[i] == Bytes.GetWord(b, i)
  {
    seq(Bytes.BWORDS, (i: nat) requires i < Bytes.BWORDS => Bytes.GetWord(b, i))
  }

  lemma SameBytes(b: Bytes.Block, b': Bytes.Block, i: nat)
    requires i < Bytes.BWORDS && Bytes.GetWord(b, i) == Bytes.GetWord(b', i)
    ensures b[4 * i] == b'[4 * i] && b[4 * i + 1] == b'[4 * i + 1]
    ensures b[4 * i + 2] == b'[4 * i + 2] && b[4 * i + 3] == b'[4 * i + 3]
  {
    SameDigits(b[4 * i], b[4 * i + 1], b[4 * i + 2], b[4 * i + 3],
               b'[4 * i], b'[4 * i + 1], b'[4 * i + 2], b'[4 * i + 3]);
  }

  lemma SameDigits(a0: Bytes.byte, a1: Bytes.byte, a2: Bytes.byte, a3: Bytes.byte,
                   b0: Bytes.byte, b1: Bytes.byte, b2: Bytes.byte, b3: Bytes.byte)
    requires Bytes.Compose(a0, a1, a2, a3) == Bytes.Compose(b0, b1, b2, b3)
    ensures a0 == b0 && a1 == b1 && a2 == b2 && a3 == b3
  {
    LastDigit(a0, a1 + 256 * (a2 + 256 * a3), b0, b1 + 256 * (b2 + 256 * b3));
    LastDigit(a1, a2 + 256 * a3, b1, b2 + 256 * b3);
    LastDigit(a2, a3, b2, b3);
  }

  lemma LastDigit(a: Bytes.byte, x: int, b: Bytes.byte, y: int)
    requires a + 256 * x == b + 256 * y
    ensures a == b && x == y
  {
  }

  /** Blocks of words and blocks of bytes are the same blocks. */
  lemma BytesWords(b: Bytes.Block)
    ensures ToBytes(ToWords(b)) == b
  {
    var r := ToBytes(ToWords(b));
    hide ToBytes, Bytes.GetWord;
    forall k | 0 <= k < Bytes.BSIZE ensures r[k] == b[k] {
      assert ToWords(b)[k / 4] == Bytes.GetWord(b, k / 4);
      SameBytes(r, b, k / 4);
    }
  }

  // ---------------------------------------------------------------- the file system on a disk

  /** The home blocks of d hold the file system fs: bitmap and data blocks as they are, inodes in the inode blocks. The
      log lies before them. */
  ghost predicate Sees(g: Geometry, l: Layout, d: Disk, fs: Fs) {
    && Fits(g, d) && LayoutOk(l) && g.start + g.size <= l.inodestart && |d| == l.sb.size
    && Shape(fs) && fs.sb == l.sb && |fs.inodes| == l.ninodes
    && (forall b: nat {:trigger d[b]} :: l.sb.bmapstart <= b < |d| ==> ToBytes(d[b]) == fs.blocks[b])
    && (forall i: nat {:trigger fs.inodes[i]} :: i < l.ninodes ==> SeesInode(l, d, i, fs.inodes[i]))
  }

  ghost predicate SeesInode(l: Layout, d: Disk, i: nat, ino: Inode) {
    IBlock(l, i) < |d| && InodeAt(ToBytes(d[IBlock(l, i)]), i % IPB) == ino
  }

  /** It holds a file system in which every used block has exactly one owner. */
  ghost predicate Consistent(g: Geometry, l: Layout, d: Disk) {
    exists fs, own :: Sees(g, l, d, fs) && WellFormed(fs, own) && Tight(fs, own)
  }

  /** It is in the home blocks. */
  lemma SeesHome(g: Geometry, l: Layout, d: Disk, d': Disk, fs: Fs)
    requires Sees(g, l, d, fs) && Fits(g, d') && |d'| == |d| && HomeOf(g, d') == HomeOf(g, d)
    ensures Sees(g, l, d', fs)
  {
    forall b: nat | l.inodestart <= b < |d| ensures d'[b] == d[b] {
      assert b in HomeOf(g, d);
      assert HomeOf(g, d')[b] == HomeOf(g, d)[b];
    }
    hide HomeOf;
    forall i: nat | i < l.ninodes ensures SeesInode(l, d', i, fs.inodes[i]) {
      IBlockIsMeta(l, i);
      assert SeesInode(l, d, i, fs.inodes[i]);
    }
  }

  // ---------------------------------------------------------------- what recovery leaves

  /** The event commits the open transaction. */
  ghost predicate Commits(g: Geometry, s: Sys, e: Event)
    requires SysOk(g, s)
  {
    s.Up? && Durable(SpecOf(g, s), e).Some?
  }

  /** What the kernel saw at the last commit of a run from a disk with a clear log; that disk if there is none. */
  ghost function LastView(g: Geometry, d: Disk, es: seq<Event>): (r: Disk)
    requires Fits(g, d) && d[g.start][0] == 0 && Run(g, Up(d, d, [], 0), es).Some?
    ensures |r| == |d|
  {
    if es == [] then d
    else
      var front := es[..|es| - 1];
      var s := Run(g, Up(d, d, [], 0), front).value;
      if Commits(g, s, es[|es| - 1]) then SameSize(g, d, front); s.view else LastView(g, d, front)
  }

  lemma {:induction false} SameSize(g: Geometry, d: Disk, es: seq<Event>)
    requires Fits(g, d) && d[g.start][0] == 0 && Run(g, Up(d, d, [], 0), es).Some?
    ensures var s := Run(g, Up(d, d, [], 0), es).value; |s.disk| == |d| && (s.Up? ==> |s.view| == |d|)
  {
    if es != [] { SameSize(g, d, es[..|es| - 1]); }
  }

  /** The home blocks of the specification's state. */
  lemma HomeIsRecovered(g: Geometry, s: Sys)
    requires SysOk(g, s)
    ensures HeadOk(g, s.disk) && SpecOf(g, s).home == HomeOf(g, Recover(g, s.disk))
  {
    hide Recover;
    if s.Up? { RecoverEmpty(g, s.disk); }
  }

  /** After any events, recovery gives the home blocks that the kernel saw at the last commit. */
  lemma {:induction false} RecoversLastView(g: Geometry, d: Disk, es: seq<Event>)
    requires Fits(g, d) && d[g.start][0] == 0 && Run(g, Up(d, d, [], 0), es).Some?
    ensures var end := Run(g, Up(d, d, [], 0), es).value;
            HeadOk(g, end.disk) && HomeOf(g, Recover(g, end.disk)) == HomeOf(g, LastView(g, d, es))
  {
    var s0 := Up(d, d, [], 0);
    hide Step, SpecStep, SysOk, SpecOf, HomeOf, Durable, HeadOk, Recover;
    HomeIsRecovered(g, Run(g, s0, es).value);
    if es == [] {
      RecoverEmpty(g, d);
    } else {
      var front, e := es[..|es| - 1], es[|es| - 1];
      var s := Run(g, s0, front).value;
      RecoversLastView(g, d, front);
      HomeIsRecovered(g, s);
      StepRefines(g, s, e);
      SpecStepHome(SpecOf(g, s), e);
      CommitsView(g, s, e);
    }
  }

  /** A commit makes the view durable. */
  lemma CommitsView(g: Geometry, s: Sys, e: Event)
    requires SysOk(g, s)
    ensures Durable(SpecOf(g, s), e).Some? ==>
              s.Up? && SpecOf(g, s).home + Durable(SpecOf(g, s), e).value == HomeOf(g, s.view)
  {
    if s.Up? { ViewOverlaysDisk(g, s); }
  }

  /** Every commit of the run finds a consistent file system in the kernel's view. */
  ghost predicate CommitsConsistent(g: Geometry, l: Layout, d: Disk, es: seq<Event>)
    requires Fits(g, d) && d[g.start][0] == 0 && Run(g, Up(d, d, [], 0), es).Some?
    decreases |es|
  {
    es != [] ==>
      var front := es[..|es| - 1];
      var s := Run(g, Up(d, d, [], 0), front).value;
      CommitsConsistent(g, l, d, front) && (Commits(g, s, es[|es| - 1]) ==> Consistent(g, l, s.view))
  }

  /** The files that the kernel saw at the last commit are the files after recovery, whenever the machine stops. */
  lemma RecoversFiles(g: Geometry, l: Layout, d: Disk, es: seq<Event>, fs: Fs)
    requires Fits(g, d) && d[g.start][0] == 0 && Run(g, Up(d, d, [], 0), es).Some?
    requires Sees(g, l, LastView(g, d, es), fs)
    ensures var end := Run(g, Up(d, d, [], 0), es).value;
            HeadOk(g, end.disk) && Sees(g, l, Recover(g, end.disk), fs)
  {
    RecoversLastView(g, d, es);
    SameSize(g, d, es);
    hide Recover, HomeOf, Run;
    SeesHome(g, l, LastView(g, d, es), Recover(g, Run(g, Up(d, d, [], 0), es).value.disk), fs);
  }

  /** If the operations leave a consistent file system at every commit, then so does every crash, after recovery: no
      block is shared and none is lost. */
  lemma CrashConsistency(g: Geometry, l: Layout, d: Disk, es: seq<Event>)
    requires Fits(g, d) && d[g.start][0] == 0 && Run(g, Up(d, d, [], 0), es).Some?
    requires Consistent(g, l, d) && CommitsConsistent(g, l, d, es)
    ensures var end := Run(g, Up(d, d, [], 0), es).value;
            HeadOk(g, end.disk) && Consistent(g, l, Recover(g, end.disk))
  {
    LastConsistent(g, l, d, es);
    hide Sees, WellFormed, Tight, Recover, Run;
    var fs, own :| Sees(g, l, LastView(g, d, es), fs) && WellFormed(fs, own) && Tight(fs, own);
    RecoversFiles(g, l, d, es, fs);
  }

  lemma {:induction false} LastConsistent(g: Geometry, l: Layout, d: Disk, es: seq<Event>)
    requires Fits(g, d) && d[g.start][0] == 0 && Run(g, Up(d, d, [], 0), es).Some?
    requires Consistent(g, l, d) && CommitsConsistent(g, l, d, es)
    ensures Consistent(g, l, LastView(g, d, es))
  {
    hide Consistent, Step, SysOk, SpecOf;
    if es != [] { LastConsistent(g, l, d, es[..|es| - 1]); }
  }

  // ---------------------------------------------------------------- one operation as a transaction

  ghost predicate AllEncodable(inodes: seq<Inode>) {
    forall i {:trigger inodes[i]} :: 0 <= i < |inodes| ==> Encodable(inodes[i])
  }

  /** Inode block k with its first n inodes filled in. */
  ghost function InodeBlock(inodes: seq<Inode>, k: nat, n: nat): (b: Bytes.Block)
    requires AllEncodable(inodes) && n <= IPB
  {
    if n == 0 then Bytes.ZeroBlock()
    else
      var b := InodeBlock(inodes, k, n - 1);
      if k * IPB + n - 1 < |inodes| then SetInode(b, n - 1, inodes[k * IPB + n - 1]) else b
  }

  lemma {:induction false} InodeBlockAt(inodes: seq<Inode>, k: nat, n: nat, j: nat)
    requires AllEncodable(inodes) && j < n <= IPB && k * IPB + j < |inodes|
    ensures InodeAt(InodeBlock(inodes, k, n), j) == inodes[k * IPB + j]
  {
    hide InodeAt, SetInode;
    var b := InodeBlock(inodes, k, n - 1);
    if k * IPB + n - 1 < |inodes| { SetInodeAt(b, n - 1, inodes[k * IPB + n - 1], j); }
    if j < n - 1 { InodeBlockAt(inodes, k, n - 1, j); }
  }

  /** Block b of the disk d with fs in its home blocks. */
  ghost function ImageBlock(l: Layout, d: Disk, fs: Fs, b: nat): (w: Words.Block)
    requires AllEncodable(fs.inodes) && b < |d| == |fs.blocks|
  {
    if b >= l.sb.bmapstart then ToWords(fs.blocks[b])
    else if b >= l.inodestart then ToWords(InodeBlock(fs.inodes, b - l.inodestart, IPB))
    else d[b]
  }

  ghost function Image(l: Layout, d: Disk, fs: Fs): (r: Disk)
    requires AllEncodable(fs.inodes) && |d| == |fs.blocks|
    ensures |r| == |d| && forall b: nat {:trigger r[b]} :: b < |d| ==> r[b] == ImageBlock(l, d, fs, b)
  {
    seq(|d|, (b: nat) requires b < |d| => ImageBlock(l, d, fs, b))
  }

  /** Every file system has an image. */
  lemma ImageSees(g: Geometry, l: Layout, d: Disk, fs: Fs)
    requires Fits(g, d) && LayoutOk(l) && g.start + g.size <= l.inodestart && |d| == l.sb.size
    requires Shape(fs) && fs.sb == l.sb && |fs.inodes| == l.ninodes && AllEncodable(fs.inodes)
    ensures Sees(g, l, Image(l, d, fs), fs)
  {
    var r := Image(l, d, fs);
    hide Image, ToBytes, ToWords, InodeBlock, InodeAt;
    forall b: nat | l.sb.bmapstart <= b < |d| ensures ToBytes(r[b]) == fs.blocks[b] { BytesWords(fs.blocks[b]); }
    forall i: nat | i < l.ninodes ensures SeesInode(l, r, i, fs.inodes[i]) {
      IBlockIsMeta(l, i);
      ImageInode(l, d, fs, i, i / IPB, i % IPB);
    }
  }

  /** Inode j of inode block k. */
  lemma ImageInode(l: Layout, d: Disk, fs: Fs, i: nat, k: nat, j: nat)
    requires AllEncodable(fs.inodes) && j < IPB && i == k * IPB + j < |fs.inodes| && |d| == |fs.blocks|
    requires IBlock(l, i) == l.inodestart + k < |d| && l.inodestart + k < l.sb.bmapstart && i % IPB == j
    ensures SeesInode(l, Image(l, d, fs), i, fs.inodes[i])
  {
    hide Image, ToBytes, ToWords, InodeBlock, InodeAt, IBlock;
    BytesWords(InodeBlock(fs.inodes, k, IPB));
    InodeBlockAt(fs.inodes, k, IPB, j);
    assert Image(l, d, fs)[l.inodestart + k] == ToWords(InodeBlock(fs.inodes, k, IPB));
  }

  /** begin_op, and log_write of the blocks bs of img. */
  ghost function Writes(img: Disk, bs: seq<nat>): (es: seq<Event>)
    requires forall i {:trigger bs[i]} :: 0 <= i < |bs| ==> bs[i] < |img|
  {
    [Begin] + seq(|bs|, i requires 0 <= i < |bs| => LogWrite(bs[i], img[bs[i]]))
  }

  lemma RunOneMore(g: Geometry, s: Sys, es: seq<Event>, e: Event)
    requires SysOk(g, s) && Run(g, s, es).Some? && Step(g, Run(g, s, es).value, e).Some?
    ensures Run(g, s, es + [e]) == Step(g, Run(g, s, es).value, e)
  {
    hide SysOk, Step;
    assert (es + [e])[..|es|] == es;
  }

  /** They run, and the kernel sees those blocks. */
  lemma {:induction false} WritesRun(g: Geometry, s: Sys, img: Disk, bs: seq<nat>, n: nat)
    requires SysOk(g, s) && s.Up? && s.outstanding == 0 && |img| == |s.disk| && Loggable(g, |img|, bs) && n <= |bs|
    ensures Run(g, s, Writes(img, bs[..n])) == Some(Up(s.disk, Over(s.view, Logged(img, bs[..n])), bs[..n], 1))
  {
    hide Over, Logged, Writes, Run;
    WritesParts(s.view, img, bs, n);
    if n == 0 {
      BeginRun(g, s);
    } else {
      WritesRun(g, s, img, bs, n - 1);
      var e := LogWrite(bs[n - 1], img[bs[n - 1]]);
      LogOne(s.view, img, bs, n);
      StepLogWrite(g, Run(g, s, Writes(img, bs[..n - 1])).value, bs[n - 1], img[bs[n - 1]]);
      hide Loggable, SysOk, Step, Absorb;
      RunOneMore(g, s, Writes(img, bs[..n - 1]), e);
    }
  }

  lemma BeginRun(g: Geometry, s: Sys)
    requires SysOk(g, s) && s.Up? && s.outstanding == 0
    ensures Run(g, s, [Begin]) == Some(s.(outstanding := 1))
  {
    assert [] + [Begin] == [Begin] && Run(g, s, []) == Some(s);
    assert Step(g, s, Begin) == Some(s.(outstanding := 1));
    hide Step, SysOk, Run;
    RunOneMore(g, s, [], Begin);
  }

  lemma WritesParts(view: Disk, img: Disk, bs: seq<nat>, n: nat)
    requires n <= |bs| && forall i {:trigger bs[i]} :: 0 <= i < |bs| ==> bs[i] < |img|
    ensures n == 0 ==> Writes(img, bs[..n]) == [Begin] && Over(view, Logged(img, bs[..n])) == view && bs[..n] == []
    ensures n > 0 ==> Writes(img, bs[..n]) == Writes(img, bs[..n - 1]) + [LogWrite(bs[n - 1], img[bs[n - 1]])]
  {
  }

  lemma StepLogWrite(g: Geometry, s: Sys, b: nat, data: Words.Block)
    requires SysOk(g, s) && s.Up? && s.outstanding > 0 && b < |s.disk| && !InLog(g, b)
    requires |s.blocks| < LOGSIZE && |s.blocks| < g.size - 1
    ensures Step(g, s, LogWrite(b, data)) == Some(s.(view := s.view[b := data], blocks := Absorb(s.blocks, b)))
  {
  }

  lemma LogOne(view: Disk, img: Disk, bs: seq<nat>, n: nat)
    requires |img| == |view| && 0 < n <= |bs| && (forall i :: 0 <= i < |bs| ==> bs[i] < |img|)
    requires forall i, j :: 0 <= i < j < |bs| ==> bs[i] != bs[j]
    ensures Absorb(bs[..n - 1], bs[n - 1]) == bs[..n]
    ensures Over(view, Logged(img, bs[..n - 1]))[bs[n - 1] := img[bs[n - 1]]] == Over(view, Logged(img, bs[..n]))
  {
    assert bs[..n - 1] + [bs[n - 1]] == bs[..n];
  }

  /** The system with a transaction of bs open, up to its commit. */
  lemma CommitOf(g: Geometry, d: Disk, img: Disk, bs: seq<nat>, k: nat)
    requires Fits(g, d) && d[g.start][0] == 0 && |img| == |d| && Loggable(g, |d|, bs)
    requires forall b {:trigger img[b]} :: 0 <= b < |d| && b !in bs ==> img[b] == d[b]
    requires k <= |CommitWrites(g, d, img, bs)|
    ensures SysOk(g, Up(d, d, [], 0)) && SysOk(g, Up(d, img, bs, 1))
    ensures Run(g, Up(d, d, [], 0), Writes(img, bs) + [CommitCrash(k)]) ==
            Some(Down(Apply(d, CommitWrites(g, d, img, bs)[..k])))
  {
    var s0, s1 := Up(d, d, [], 0), Up(d, img, bs, 1);
    assert SysOk(g, s0) && SysOk(g, s1);
    assert bs[..|bs|] == bs && Over(d, Logged(img, bs)) == img;
    hide Run, Writes, Over, Logged, CommitWrites, Apply, Loggable;
    WritesRun(g, s0, img, bs, |bs|);
    assert Step(g, s1, CommitCrash(k)) == Some(Down(Apply(d, CommitWrites(g, d, img, bs)[..k])));
    hide *;
    RunOneMore(g, s0, Writes(img, bs), CommitCrash(k));
  }

  /** An operation takes the file system from fs to fs', and `bs` are the blocks that it logs, all that differ among
      them. If the machine stops after k disk writes of its commit, recovery gives fs' when the header was written,
      that is after one write for each block and one more, and fs before. */
  lemma OperationIsAtomic(g: Geometry, l: Layout, d: Disk, fs: Fs, fs': Fs, bs: seq<nat>, k: nat)
    requires Sees(g, l, d, fs) && d[g.start][0] == 0 && Shape(fs') && fs'.sb == l.sb && |fs'.inodes| == l.ninodes
    requires AllEncodable(fs'.inodes) && Loggable(g, |d|, bs)
    requires forall b {:trigger Image(l, d, fs')[b]} :: 0 <= b < |d| && b !in bs ==> Image(l, d, fs')[b] == d[b]
    requires k <= |CommitWrites(g, d, Image(l, d, fs'), bs)|
    ensures var end := Run(g, Up(d, d, [], 0), Writes(Image(l, d, fs'), bs) + [CommitCrash(k)]);
            && end.Some? && HeadOk(g, end.value.disk)
            && Sees(g, l, Recover(g, end.value.disk), if k <= |bs| then fs else fs')
  {
    var img := Image(l, d, fs');
    ImageSees(g, l, d, fs');
    hide Image;
    CommitOf(g, d, img, bs, k);
    CommitIsAtomic(g, d, img, bs, k);
    ViewOverlaysDisk(g, Up(d, img, bs, 1));
    hide CommitWrites, Apply, Recover, HomeOf, Run, Writes, Logged, Sees, Shape, Loggable;
    var d' := Recover(g, Apply(d, CommitWrites(g, d, img, bs)[..k]));
    if k <= |bs| { SeesHome(g, l, d, d', fs); } else { SeesHome(g, l, img, d', fs'); }
  }
}
