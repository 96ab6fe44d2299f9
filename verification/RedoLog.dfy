/** The redo log of log.c: what the disk holds after every write of a commit or of
    a recovery, and what recovery makes of it.

    A home block is a block outside the log region.  The system is a value (`Sys`):
    up, with the logical disk the file system sees, or down after a crash, with only
    the disk.  `Step` is one event; a crash may fall between any two disk writes. */
module RedoLog {
  import opened Prelude
  import opened BufferCache

  const LOGSIZE := 30
  const MAXOPBLOCKS := 10

  type Disk = seq<Block>

  /** log.start, log.size. */
  datatype Geometry = Geometry(start: nat, size: nat)

  predicate InLog(g: Geometry, b: nat) {
    g.start <= b < g.start + g.size
  }

  ghost predicate Fits(g: Geometry, d: Disk) {
    1 <= g.size && g.start + g.size <= |d| < WORDMAX
  }

  /** A list log.c can hold in its header: distinct home blocks, with a log block for each. */
  ghost predicate Loggable(g: Geometry, nblocks: nat, bs: seq<nat>) {
    && |bs| <= LOGSIZE && |bs| < g.size
    && (forall i :: 0 <= i < |bs| ==> bs[i] < nblocks && !InLog(g, bs[i]))
    && (forall i, j :: 0 <= i < j < |bs| ==> bs[i] != bs[j])
  }

  // ---------------------------------------------------------------- the header block

  /** write_head: n, then the block numbers; the words behind them keep their old value. */
  function EncodeHead(hdr: Block, bs: seq<word>): (r: Block)
    requires |bs| <= LOGSIZE
    ensures DecodeHead(r) == bs
  {
    [|bs|] + bs + hdr[|bs| + 1..]
  }

  /** read_head. */
  function DecodeHead(hdr: Block): (bs: seq<word>) {
    if hdr[0] <= LOGSIZE then hdr[1..1 + hdr[0]] else []
  }

  // ---------------------------------------------------------------- sequences of disk writes

  /** What a sequence of writes leaves in each block it touches: the last write wins. */
  ghost function Updates(ws: seq<Write>): (m: map<nat, Block>) {
    if ws == [] then map[]
    else Updates(ws[..|ws| - 1])[ws[|ws| - 1].blockno := ws[|ws| - 1].data]
  }

  /** A disk with some blocks replaced. */
  ghost function Over(d: Disk, m: map<nat, Block>): (d': Disk)
    ensures |d'| == |d|
    ensures forall b {:trigger d'[b]} :: 0 <= b < |d| ==> d'[b] == if b in m then m[b] else d[b]
  {
    seq(|d|, b requires 0 <= b < |d| => if b in m then m[b] else d[b])
  }

  /** The disk after a sequence of writes. */
  ghost function Apply(d: Disk, ws: seq<Write>): (d': Disk)
    ensures |d'| == |d|
  {
    Over(d, Updates(ws))
  }

  lemma ApplyOne(d: Disk, ws: seq<Write>, w: Write)
    requires w.blockno < |d|
    ensures Apply(d, ws + [w]) == Apply(d, ws)[w.blockno := w.data]
  {
    assert (ws + [w])[..|ws|] == ws;
  }

  lemma {:induction false} UpdatesConcat(ws: seq<Write>, ws': seq<Write>)
    ensures Updates(ws + ws') == Updates(ws) + Updates(ws')
  {
    if ws' == [] {
      assert ws + ws' == ws;
    } else {
      var front := ws'[..|ws'| - 1];
      UpdatesConcat(ws, front);
      assert (ws + ws')[..|ws + ws'| - 1] == ws + front;
    }
  }

  lemma ApplyConcat(d: Disk, ws: seq<Write>, ws': seq<Write>)
    ensures Apply(d, ws + ws') == Apply(Apply(d, ws), ws')
  {
    UpdatesConcat(ws, ws');
  }

  /** Writes to the blocks `bs`, in order. */
  ghost function WritesTo(bs: seq<nat>, data: seq<Block>): (ws: seq<Write>)
    requires |bs| == |data|
    ensures |ws| == |bs|
    ensures forall i {:trigger ws[i]} :: 0 <= i < |bs| ==> ws[i] == Write(bs[i], data[i])
  {
    seq(|bs|, i requires 0 <= i < |bs| => Write(bs[i], data[i]))
  }

  ghost function Pick(d: Disk, bs: seq<nat>): (data: seq<Block>)
    requires forall i :: 0 <= i < |bs| ==> bs[i] < |d|
    ensures |data| == |bs| && forall i {:trigger data[i]} :: 0 <= i < |bs| ==> data[i] == d[bs[i]]
  {
    seq(|bs|, i requires 0 <= i < |bs| => d[bs[i]])
  }

  /** Some blocks of a disk, by number. */
  ghost function Logged(view: Disk, bs: seq<nat>): (m: map<nat, Block>)
    requires forall i :: 0 <= i < |bs| ==> bs[i] < |view|
    ensures forall b: nat {:trigger b in m} :: b in m <==> b in bs
    ensures forall b: nat {:trigger m[b]} :: b in m ==> b < |view| && m[b] == view[b]
  {
    map b: nat | b in bs :: view[b]
  }

  lemma {:induction false} UpdatesKeys(ws: seq<Write>)
    ensures forall i :: 0 <= i < |ws| ==> ws[i].blockno in Updates(ws)
    ensures forall b :: b in Updates(ws) ==> exists i :: 0 <= i < |ws| && ws[i].blockno == b
  {
    if ws != [] {
      var front, last := ws[..|ws| - 1], ws[|ws| - 1];
      UpdatesKeys(front);
      forall b | b in Updates(ws) ensures exists i :: 0 <= i < |ws| && ws[i].blockno == b {
        if b == last.blockno { assert ws[|ws| - 1].blockno == b; }
        else {
          assert b in Updates(front);
          var i :| 0 <= i < |front| && front[i].blockno == b;
          assert ws[i].blockno == b;
        }
      }
    }
  }

  /** Copying blocks of `view` to their own places amounts to `Logged`. */
  lemma {:induction false} UpdatesOfView(view: Disk, bs: seq<nat>)
    requires forall i :: 0 <= i < |bs| ==> bs[i] < |view|
    ensures Updates(WritesTo(bs, Pick(view, bs))) == Logged(view, bs)
  {
    if bs != [] {
      var front, ws := bs[..|bs| - 1], WritesTo(bs, Pick(view, bs));
      UpdatesOfView(view, front);
      assert ws[..|ws| - 1] == WritesTo(front, Pick(view, front));
      assert bs == front + [bs[|bs| - 1]];
    }
  }

  // ---------------------------------------------------------------- commit and recovery

  /** The first n blocks of the log, behind its header. */
  ghost function LogBlocks(g: Geometry, n: nat): (bs: seq<nat>)
    ensures |bs| == n && forall i :: 0 <= i < n ==> bs[i] == g.start + 1 + i
  {
    seq(n, (i: nat) => g.start + 1 + i)
  }

  ghost function HeadWrite(g: Geometry, hdr: Block, bs: seq<nat>): (w: Write)
    requires |bs| <= LOGSIZE && forall i :: 0 <= i < |bs| ==> bs[i] < WORDMAX
  {
    Write(g.start, EncodeHead(hdr, bs))
  }

  /** write_log: the cached contents of every logged block, into the log. */
  ghost function LogWrites(g: Geometry, view: Disk, bs: seq<nat>): (ws: seq<Write>)
    requires Fits(g, view) && Loggable(g, |view|, bs)
    ensures |ws| == |bs|
  {
    WritesTo(LogBlocks(g, |bs|), Pick(view, bs))
  }

  /** install_trans: every logged block, to its home; the log blocks are read from `d`. */
  ghost function HomeWrites(g: Geometry, d: Disk, bs: seq<nat>): (ws: seq<Write>)
    requires Fits(g, d) && Loggable(g, |d|, bs)
    ensures |ws| == |bs|
  {
    WritesTo(bs, Pick(d, LogBlocks(g, |bs|)))
  }

  /** Up to and including the header write, "the real commit". */
  ghost function LogPhase(g: Geometry, d: Disk, view: Disk, bs: seq<nat>): (ws: seq<Write>)
    requires |d| == |view| && Fits(g, d) && Loggable(g, |d|, bs)
    ensures |ws| == |bs| + 1
  {
    LogWrites(g, view, bs) + [HeadWrite(g, d[g.start], bs)]
  }

  /** Installing and then clearing the header. */
  ghost function InstallPhase(g: Geometry, d: Disk, bs: seq<nat>): (ws: seq<Write>)
    requires Fits(g, d) && Loggable(g, |d|, bs)
    ensures |ws| == |bs| + 1
  {
    HomeWrites(g, d, bs) + [HeadWrite(g, d[g.start], [])]
  }

  /** Every disk write of commit(), in order. */
  ghost function CommitWrites(g: Geometry, d: Disk, view: Disk, bs: seq<nat>): (ws: seq<Write>)
    requires |d| == |view| && Fits(g, d) && Loggable(g, |d|, bs)
  {
    if bs == [] then []
    else LogPhase(g, d, view, bs) + InstallPhase(g, Apply(d, LogPhase(g, d, view, bs)), bs)
  }

  /** The header names blocks that log.c could have logged. */
  ghost predicate HeadOk(g: Geometry, d: Disk) {
    && Fits(g, d)
    && d[g.start][0] <= LOGSIZE
    && Loggable(g, |d|, DecodeHead(d[g.start]))
  }

  /** Every disk write of recover_from_log(), in order. */
  ghost function RecoverWrites(g: Geometry, d: Disk): (ws: seq<Write>)
    requires HeadOk(g, d)
  {
    InstallPhase(g, d, DecodeHead(d[g.start]))
  }

  ghost function Recover(g: Geometry, d: Disk): (d': Disk)
    requires HeadOk(g, d)
    ensures |d'| == |d|
  {
    Apply(d, RecoverWrites(g, d))
  }

  /** The home blocks of a disk. */
  ghost function HomeOf(g: Geometry, d: Disk): (m: map<nat, Block>)
    ensures forall b: nat {:trigger b in m} :: b in m <==> b < |d| && !InLog(g, b)
    ensures forall b: nat {:trigger m[b]} :: b in m ==> m[b] == d[b]
  {
    map b: nat | b < |d| && !InLog(g, b) :: d[b]
  }

  /** Writes inside the log region do not reach a home block. */
  lemma HomeOfLogWrites(g: Geometry, d: Disk, ws: seq<Write>)
    requires forall i :: 0 <= i < |ws| ==> InLog(g, ws[i].blockno)
    ensures HomeOf(g, Apply(d, ws)) == HomeOf(g, d)
  {
    UpdatesKeys(ws);
  }

  /** Writes to home blocks do not reach the log region. */
  lemma LogOfHomeWrites(g: Geometry, d: Disk, ws: seq<Write>)
    requires forall i :: 0 <= i < |ws| ==> !InLog(g, ws[i].blockno)
    ensures forall b :: 0 <= b < |d| && InLog(g, b) ==> Apply(d, ws)[b] == d[b]
  {
    UpdatesKeys(ws);
  }

  /** Clearing the header finishes recovery without touching a home block. */
  lemma ClearedHead(g: Geometry, d: Disk, ws: seq<Write>)
    requires Fits(g, d)
    ensures var d' := Apply(d, ws + [HeadWrite(g, d[g.start], [])]);
            && d'[g.start][0] == 0
            && HomeOf(g, d') == HomeOf(g, Apply(d, ws))
  {
    ApplyOne(d, ws, HeadWrite(g, d[g.start], []));
  }

  /** A disk with an empty header is already recovered. */
  lemma RecoverEmpty(g: Geometry, d: Disk)
    requires Fits(g, d) && d[g.start][0] == 0
    ensures HeadOk(g, d)
    ensures HomeOf(g, Recover(g, d)) == HomeOf(g, d)
  {
    assert HomeWrites(g, d, []) == [];
    assert Apply(d, []) == d;
    ClearedHead(g, d, []);
  }

  /** Recovery clears the header, and only the home writes matter to the home blocks. */
  lemma RecoverHome(g: Geometry, d: Disk)
    requires HeadOk(g, d)
    ensures Recover(g, d)[g.start][0] == 0
    ensures HomeOf(g, Recover(g, d)) == HomeOf(g, Apply(d, HomeWrites(g, d, DecodeHead(d[g.start]))))
  {
    ClearedHead(g, d, HomeWrites(g, d, DecodeHead(d[g.start])));
  }

  /** Replaying all writes after some of them is the same as doing them once. */
  lemma ReplayPrefix(d: Disk, ws: seq<Write>, k: nat)
    requires k <= |ws|
    ensures Apply(Apply(d, ws[..k]), ws) == Apply(d, ws)
  {
    assert ws == ws[..k] + ws[k..];
    UpdatesConcat(ws[..k], ws[k..]);
  }

  /** A crash after any k writes of recovery: recovering again gives the same home blocks. */
  lemma RecoveryIsIdempotent(g: Geometry, d: Disk, k: nat)
    requires HeadOk(g, d) && k <= |RecoverWrites(g, d)|
    ensures var d' := Apply(d, RecoverWrites(g, d)[..k]);
            HeadOk(g, d') && HomeOf(g, Recover(g, d')) == HomeOf(g, Recover(g, d))
  {
    var bs, ws := DecodeHead(d[g.start]), RecoverWrites(g, d);
    var hw := HomeWrites(g, d, bs);
    if k == |ws| {
      assert ws[..k] == ws;
      RecoverHome(g, d);
      RecoverEmpty(g, Recover(g, d));
    } else {
      assert ws[..k] == hw[..k];
      var d' := Apply(d, hw[..k]);
      LogOfHomeWrites(g, d, hw[..k]);
      assert d'[g.start] == d[g.start];
      assert Pick(d', LogBlocks(g, |bs|)) == Pick(d, LogBlocks(g, |bs|));
      ReplayPrefix(d, hw, k);
      RecoverHome(g, d);
      RecoverHome(g, d');
    }
  }

  /** Before the header write, nothing has happened as far as recovery can tell. */
  lemma CrashWhileLogging(g: Geometry, d: Disk, view: Disk, bs: seq<nat>, k: nat)
    requires |d| == |view| && Fits(g, d) && Loggable(g, |d|, bs) && k <= |bs|
    requires d[g.start][0] == 0
    ensures var d' := Apply(d, LogPhase(g, d, view, bs)[..k]);
            HeadOk(g, d') && HomeOf(g, Recover(g, d')) == HomeOf(g, d)
  {
    var ws := LogWrites(g, view, bs)[..k];
    assert LogPhase(g, d, view, bs)[..k] == ws;
    UpdatesKeys(ws);
    HomeOfLogWrites(g, d, ws);
    RecoverEmpty(g, Apply(d, ws));
  }

  /** After write_log has done k blocks, log block i holds the cached contents of logged block i. */
  lemma {:induction false} LogHolds(g: Geometry, d: Disk, view: Disk, bs: seq<nat>, k: nat, i: nat)
    requires |d| == |view| && Fits(g, d) && Loggable(g, |d|, bs) && i < k <= |bs|
    ensures Apply(d, LogWrites(g, view, bs)[..k])[g.start + 1 + i] == view[bs[i]]
  {
    var ws := LogWrites(g, view, bs);
    var w := ws[k - 1];
    assert w == Write(g.start + k, view[bs[k - 1]]);
    assert ws[..k] == ws[..k - 1] + [w];
    ApplyOne(d, ws[..k - 1], w);
    if i < k - 1 { LogHolds(g, d, view, bs, k - 1, i); }
  }

  /** The disk just after the header write: the header names the blocks and the log holds them. */
  lemma AfterLogPhase(g: Geometry, d: Disk, view: Disk, bs: seq<nat>)
    requires |d| == |view| && Fits(g, d) && Loggable(g, |d|, bs)
    ensures var d' := Apply(d, LogPhase(g, d, view, bs));
            && d'[g.start] == EncodeHead(d[g.start], bs)
            && Pick(d', LogBlocks(g, |bs|)) == Pick(view, bs)
            && HomeOf(g, d') == HomeOf(g, d)
  {
    var lw, hd, lbs := LogWrites(g, view, bs), HeadWrite(g, d[g.start], bs), LogBlocks(g, |bs|);
    var d1 := Apply(d, lw);
    var d' := d1[g.start := hd.data];
    ApplyOne(d, lw, hd);
    assert lw[..|bs|] == lw;
    forall i | 0 <= i < |bs| ensures Pick(d', lbs)[i] == Pick(view, bs)[i] {
      LogHolds(g, d, view, bs, |bs|, i);
    }
    HomeOfLogWrites(g, d, lw + [hd]);
  }

  /** The header write commits the whole transaction. */
  lemma HeaderWriteCommits(g: Geometry, d: Disk, view: Disk, bs: seq<nat>)
    requires |d| == |view| && Fits(g, d) && Loggable(g, |d|, bs)
    ensures var d' := Apply(d, LogPhase(g, d, view, bs));
            && HeadOk(g, d') && DecodeHead(d'[g.start]) == bs
            && HomeOf(g, Recover(g, d')) == HomeOf(g, d) + Logged(view, bs)
  {
    AfterLogPhase(g, d, view, bs);
    var d' := Apply(d, LogPhase(g, d, view, bs));
    RecoverHome(g, d');
    UpdatesOfView(view, bs);
    HomePlus(g, d', Logged(view, bs));
  }

  lemma HomePlus(g: Geometry, d: Disk, m: map<nat, Block>)
    requires forall b :: b in m ==> b < |d| && !InLog(g, b)
    ensures HomeOf(g, Over(d, m)) == HomeOf(g, d) + m
  {
  }

  // ---------------------------------------------------------------- the system and its events

  /** Up: the disk, what the file system sees, log.lh.block[..n] and log.outstanding.
      Down: only the disk is left. */
  datatype Sys =
    | Up(disk: Disk, view: Disk, blocks: seq<nat>, outstanding: nat)
    | Down(disk: Disk)

  /** CommitCrash(k) and RecoverCrash(k): the machine stops after k disk writes of
      the commit that the last end_op runs, or of recover_from_log. */
  datatype Event =
    | Begin
    | LogWrite(b: nat, data: Block)
    | End
    | Crash
    | CommitCrash(k: nat)
    | RecoverCrash(k: nat)
    | Reboot

  ghost predicate SysOk(g: Geometry, s: Sys) {
    match s
    case Up(disk, view, blocks, outstanding) =>
      && Fits(g, disk) && |view| == |disk| && disk[g.start][0] == 0
      && Loggable(g, |disk|, blocks)
      && (outstanding == 0 ==> blocks == [])
      && (forall b {:trigger view[b]} :: 0 <= b < |disk| && b !in blocks ==> view[b] == disk[b])
    case Down(disk) => HeadOk(g, disk)
  }

  /** The logged list after log_write, with absorption. */
  function Absorb(blocks: seq<nat>, b: nat): (r: seq<nat>) {
    if b in blocks then blocks else blocks + [b]
  }

  /** The machine stops after k disk writes of the commit of the last end_op. */
  ghost function CommitCut(g: Geometry, s: Sys, k: nat): (r: Option<Sys>)
    requires SysOk(g, s) && s.Up?
  {
    var ws := CommitWrites(g, s.disk, s.view, s.blocks);
    if s.outstanding != 1 || k > |ws| then None else Some(Down(Apply(s.disk, ws[..k])))
  }

  /** The machine stops after k disk writes of recovery. */
  ghost function RecoverCut(g: Geometry, s: Sys, k: nat): (r: Option<Sys>)
    requires SysOk(g, s) && s.Down?
  {
    var ws := RecoverWrites(g, s.disk);
    if k > |ws| then None else Some(Down(Apply(s.disk, ws[..k])))
  }

  /** begin_op, log_write and end_op. */
  ghost function OpStep(g: Geometry, s: Sys, e: Event): (r: Option<Sys>)
    requires SysOk(g, s) && s.Up?
  {
    var Up(disk, view, blocks, out) := s;
    match e
    case Begin =>
      if |blocks| + (out + 1) * MAXOPBLOCKS > LOGSIZE then None
      else Some(s.(outstanding := out + 1))
    case LogWrite(b, data) =>
      if |blocks| >= LOGSIZE || |blocks| >= g.size - 1 || out < 1 || b >= |disk| || InLog(g, b) then None
      else Some(s.(view := view[b := data], blocks := Absorb(blocks, b)))
    case End =>
      if out < 1 then None
      else if out > 1 then Some(s.(outstanding := out - 1))
      else var d := Apply(disk, CommitWrites(g, disk, view, blocks)); Some(Up(d, d, [], 0))
    case _ => None
  }

  /** One event; None when it cannot happen (begin_op sleeps, or the kernel panics). */
  ghost function Step(g: Geometry, s: Sys, e: Event): (r: Option<Sys>)
    requires SysOk(g, s)
  {
    if s.Up? then
      if e.Crash? then Some(Down(s.disk))
      else if e.CommitCrash? then CommitCut(g, s, e.k)
      else OpStep(g, s, e)
    else if e.RecoverCrash? then RecoverCut(g, s, e.k)
    else if e.Reboot? then var d := Recover(g, s.disk); Some(Up(d, d, [], 0))
    else None
  }

  /** The machine may stop at any time: before or after every disk write of a commit (n log blocks, the header,
      n home blocks, the cleared header) and of recovery, which the header alone decides; and it can always restart. */
  lemma AnyCrashCanHappen(g: Geometry, s: Sys, k: nat)
    requires SysOk(g, s)
    ensures Step(g, s, Crash).Some? <==> s.Up?
    ensures Step(g, s, Reboot).Some? <==> s.Down?
    ensures Step(g, s, CommitCrash(k)).Some? <==>
            s.Up? && s.outstanding == 1 && k <= if |s.blocks| == 0 then 0 else 2 * |s.blocks| + 2
    ensures Step(g, s, RecoverCrash(k)).Some? <==> s.Down? && k <= s.disk[g.start][0] + 1
  {
  }

  /** The same system as its users are told to think of it: committed transactions
      survive, the open one is a map of updates, and a commit is one indivisible step. */
  datatype Spec =
    | SpecUp(home: map<nat, Block>, open: map<nat, Block>, outstanding: nat)
    | SpecDown(home: map<nat, Block>)

  /** A commit cut short keeps the open transaction exactly when its header was written,
      that is after one write for each block in it and one more. */
  ghost function SpecStep(s: Spec, e: Event): (r: Option<Spec>) {
    match e
    case Begin => if s.SpecUp? then Some(s.(outstanding := s.outstanding + 1)) else None
    case LogWrite(b, data) => if s.SpecUp? then Some(s.(open := s.open[b := data])) else None
    case End =>
      if s.SpecDown? then None
      else if s.outstanding > 1 then Some(s.(outstanding := s.outstanding - 1))
      else Some(SpecUp(s.home + s.open, map[], 0))
    case Crash => if s.SpecUp? then Some(SpecDown(s.home)) else None
    case CommitCrash(k) =>
      if s.SpecUp? then Some(SpecDown(if k <= |s.open| then s.home else s.home + s.open)) else None
    case RecoverCrash(_) => if s.SpecDown? then Some(s) else None
    case Reboot => if s.SpecDown? then Some(SpecUp(s.home, map[], 0)) else None
  }

  ghost function SpecOf(g: Geometry, s: Sys): (r: Spec)
    requires SysOk(g, s)
  {
    match s
    case Up(disk, view, blocks, out) => SpecUp(HomeOf(g, disk), Logged(view, blocks), out)
    case Down(disk) => SpecDown(HomeOf(g, Recover(g, disk)))
  }

  lemma {:induction false} SetSize<T>(bs: seq<T>)
    requires forall i, j :: 0 <= i < j < |bs| ==> bs[i] != bs[j]
    ensures |(set b | b in bs)| == |bs|
  {
    if bs == [] {
      assert (set b | b in bs) == {};
    } else {
      var front, last := bs[..|bs| - 1], bs[|bs| - 1];
      SetSize(front);
      assert last !in front;
      assert (set b | b in bs) == (set b | b in front) + {last};
    }
  }

  lemma LoggedSize(view: Disk, bs: seq<nat>)
    requires forall i :: 0 <= i < |bs| ==> bs[i] < |view|
    requires forall i, j :: 0 <= i < j < |bs| ==> bs[i] != bs[j]
    ensures |Logged(view, bs)| == |bs|
  {
    SetSize(bs);
    assert Logged(view, bs).Keys == set b | b in bs;
  }

  /** The disk after a whole commit: header clear, home blocks updated, log blocks whatever. */
  lemma CommitDone(g: Geometry, d: Disk, view: Disk, bs: seq<nat>)
    requires SysOk(g, Up(d, view, bs, 1))
    ensures var d' := Apply(d, CommitWrites(g, d, view, bs));
            d'[g.start][0] == 0 && HomeOf(g, d') == HomeOf(g, d) + Logged(view, bs)
  {
    if bs == [] {
      assert Apply(d, []) == d;
      assert HomeOf(g, d) + Logged(view, bs) == HomeOf(g, d);
    } else {
      var log := LogPhase(g, d, view, bs);
      var mid := Apply(d, log);
      HeaderWriteCommits(g, d, view, bs);
      RecoverHome(g, mid);
      ApplyConcat(d, log, InstallPhase(g, mid, bs));
    }
  }

  /** After the header write, a crash is a crash of recovery. */
  lemma CrashWhileInstalling(g: Geometry, d: Disk, view: Disk, bs: seq<nat>, j: nat)
    requires SysOk(g, Up(d, view, bs, 1))
    requires j <= |bs| + 1
    ensures var mid := Apply(d, LogPhase(g, d, view, bs));
            var d' := Apply(mid, InstallPhase(g, mid, bs)[..j]);
            HeadOk(g, d') && HomeOf(g, Recover(g, d')) == HomeOf(g, d) + Logged(view, bs)
  {
    var mid := Apply(d, LogPhase(g, d, view, bs));
    HeaderWriteCommits(g, d, view, bs);
    RecoveryIsIdempotent(g, mid, j);
  }

  /** Where k writes of a commit end: in the log phase or in the install phase. */
  lemma CommitPrefix(g: Geometry, d: Disk, view: Disk, bs: seq<nat>, k: nat)
    requires SysOk(g, Up(d, view, bs, 1)) && bs != [] && k <= |CommitWrites(g, d, view, bs)|
    ensures k <= |bs| ==> CommitWrites(g, d, view, bs)[..k] == LogPhase(g, d, view, bs)[..k]
    ensures k > |bs| ==>
              var mid := Apply(d, LogPhase(g, d, view, bs));
              Apply(d, CommitWrites(g, d, view, bs)[..k]) == Apply(mid, InstallPhase(g, mid, bs)[..k - |bs| - 1])
  {
    hide Apply, LogPhase, InstallPhase;
    var ws, log := CommitWrites(g, d, view, bs), LogPhase(g, d, view, bs);
    var inst := InstallPhase(g, Apply(d, log), bs);
    if k > |bs| {
      assert ws[..k] == log + inst[..k - |log|];
      ApplyConcat(d, log, inst[..k - |log|]);
    }
  }

  /** Crashing after k writes of a commit keeps the whole transaction or none of it. */
  lemma CommitIsAtomic(g: Geometry, d: Disk, view: Disk, bs: seq<nat>, k: nat)
    requires SysOk(g, Up(d, view, bs, 1)) && k <= |CommitWrites(g, d, view, bs)|
    ensures var d' := Apply(d, CommitWrites(g, d, view, bs)[..k]);
            && HeadOk(g, d')
            && HomeOf(g, Recover(g, d')) == if k <= |bs| then HomeOf(g, d) else HomeOf(g, d) + Logged(view, bs)
  {
    if bs == [] {
      assert CommitWrites(g, d, view, bs)[..k] == [] && Apply(d, []) == d;
      RecoverEmpty(g, d);
    } else {
      CommitPrefix(g, d, view, bs, k);
      if k <= |bs| { CrashWhileLogging(g, d, view, bs, k); }
      else { CrashWhileInstalling(g, d, view, bs, k - |bs| - 1); }
    }
  }

  /** The events between transactions. */
  lemma OpRefines(g: Geometry, s: Sys, e: Event)
    requires SysOk(g, s) && s.Up? && (e.Begin? || e.LogWrite? || e.End?) && Step(g, s, e).Some?
    ensures SysOk(g, Step(g, s, e).value)
    ensures SpecStep(SpecOf(g, s), e) == Some(SpecOf(g, Step(g, s, e).value))
  {
    hide Apply, CommitWrites;
    if e.LogWrite? { LogWriteRefines(g, s, e.b, e.data); }
    if e.End? && s.outstanding == 1 { CommitDone(g, s.disk, s.view, s.blocks); }
  }

  lemma LogWriteRefines(g: Geometry, s: Sys, b: nat, data: Block)
    requires SysOk(g, s) && s.Up? && OpStep(g, s, LogWrite(b, data)).Some?
    ensures var s' := OpStep(g, s, LogWrite(b, data)).value;
            SysOk(g, s') && Logged(s'.view, s'.blocks) == Logged(s.view, s.blocks)[b := data]
  {
  }

  lemma CommitCutRefines(g: Geometry, s: Sys, k: nat)
    requires SysOk(g, s) && s.Up? && CommitCut(g, s, k).Some?
    ensures var s' := CommitCut(g, s, k).value;
            && SysOk(g, s')
            && HomeOf(g, Recover(g, s'.disk)) ==
                 if k <= |Logged(s.view, s.blocks)| then HomeOf(g, s.disk)
                     else HomeOf(g, s.disk) + Logged(s.view, s.blocks)
  {
    CommitIsAtomic(g, s.disk, s.view, s.blocks, k);
    LoggedSize(s.view, s.blocks);
  }

  /** The events that stop or restart the machine. */
  lemma CrashRefines(g: Geometry, s: Sys, e: Event)
    requires SysOk(g, s) && Step(g, s, e).Some?
    requires e.Crash? || e.CommitCrash? || e.RecoverCrash? || e.Reboot?
    ensures SysOk(g, Step(g, s, e).value)
    ensures SpecStep(SpecOf(g, s), e) == Some(SpecOf(g, Step(g, s, e).value))
  {
    hide Apply, CommitWrites, RecoverWrites;
    match e
    case Crash => RecoverEmpty(g, s.disk);
    case CommitCrash(k) => CommitCutRefines(g, s, k);
    case RecoverCrash(k) => RecoveryIsIdempotent(g, s.disk, k);
    case Reboot => RecoverHome(g, s.disk);
  }

  /** Every event of the implementation is that event of the specification. */
  lemma StepRefines(g: Geometry, s: Sys, e: Event)
    requires SysOk(g, s) && Step(g, s, e).Some?
    ensures SysOk(g, Step(g, s, e).value)
    ensures SpecStep(SpecOf(g, s), e) == Some(SpecOf(g, Step(g, s, e).value))
  {
    if e.Begin? || e.LogWrite? || e.End? { OpRefines(g, s, e); }
    else { CrashRefines(g, s, e); }
  }

  /** The system after a sequence of events, if they can all happen. */
  ghost function Run(g: Geometry, s: Sys, es: seq<Event>): (r: Option<Sys>)
    requires SysOk(g, s)
    ensures r.Some? ==> SysOk(g, r.value)
  {
    if es == [] then Some(s)
    else
      var s', e := Run(g, s, es[..|es| - 1]), es[|es| - 1];
      if s'.None? || Step(g, s'.value, e).None? then None
      else (StepRefines(g, s'.value, e); Step(g, s'.value, e))
  }

  ghost function SpecRun(s: Spec, es: seq<Event>): (r: Option<Spec>) {
    if es == [] then Some(s)
    else
      var s' := SpecRun(s, es[..|es| - 1]);
      if s'.None? then None else SpecStep(s'.value, es[|es| - 1])
  }

  /** The transaction that an event makes durable, if it does. */
  ghost function Durable(s: Spec, e: Event): (txn: Option<map<nat, Block>>) {
    if s.SpecUp? && ((e.End? && s.outstanding <= 1) || (e.CommitCrash? && e.k > |s.open|)) then Some(s.open) else None
  }

  /** The transactions a run of the specification commits, in order: each is the updates
      of every operation since the commit before it. */
  ghost function Committed(s: Spec, es: seq<Event>): (txns: seq<map<nat, Block>>) {
    if es == [] then []
    else
      var txns, s' := Committed(s, es[..|es| - 1]), SpecRun(s, es[..|es| - 1]);
      if s'.None? || Durable(s'.value, es[|es| - 1]).None? then txns
      else txns + [Durable(s'.value, es[|es| - 1]).value]
  }

  /** The home blocks after a whole number of transactions. */
  ghost function After(home: map<nat, Block>, txns: seq<map<nat, Block>>): (r: map<nat, Block>) {
    if txns == [] then home else After(home, txns[..|txns| - 1]) + txns[|txns| - 1]
  }

  lemma {:induction false} RunRefines(g: Geometry, s: Sys, es: seq<Event>)
    requires SysOk(g, s)
    ensures Run(g, s, es).Some? ==> SpecRun(SpecOf(g, s), es) == Some(SpecOf(g, Run(g, s, es).value))
  {
    hide Step, SpecStep, SysOk, SpecOf;
    if es != [] && Run(g, s, es).Some? {
      var front, e := es[..|es| - 1], es[|es| - 1];
      RunRefines(g, s, front);
      StepRefines(g, Run(g, s, front).value, e);
    }
  }

  lemma SpecStepHome(s: Spec, e: Event)
    requires SpecStep(s, e).Some?
    ensures SpecStep(s, e).value.home == if Durable(s, e).Some? then s.home + Durable(s, e).value else s.home
  {
  }

  lemma AfterOneMore(home: map<nat, Block>, txns: seq<map<nat, Block>>, txn: map<nat, Block>)
    ensures After(home, txns + [txn]) == After(home, txns) + txn
  {
    assert (txns + [txn])[..|txns|] == txns;
  }

  lemma {:induction false} SpecRunHome(s: Spec, es: seq<Event>)
    requires SpecRun(s, es).Some?
    ensures SpecRun(s, es).value.home == After(s.home, Committed(s, es))
  {
    hide SpecStep, Durable;
    if es != [] {
      hide After;
      var front, e := es[..|es| - 1], es[|es| - 1];
      SpecRunHome(s, front);
      var s', txns := SpecRun(s, front).value, Committed(s, front);
      assert SpecRun(s, es) == SpecStep(s', e);
      assert Committed(s, es) == if Durable(s', e).None? then txns else txns + [Durable(s', e).value];
      hide SpecRun, Committed;
      SpecStepHome(s', e);
      if Durable(s', e).Some? { AfterOneMore(s.home, txns, Durable(s', e).value); }
    }
  }

  /** Crash atomicity.  Start from any disk with a clear log header and let any events happen,
      with crashes between any two disk writes, also inside recovery.  Then the home blocks,
      as recovery leaves them, are what a whole number of transactions made of them; while the
      machine is up, the file system sees those blocks overlaid with the open transaction. */
  lemma CrashAtomicity(g: Geometry, d: Disk, es: seq<Event>)
    requires Fits(g, d) && d[g.start][0] == 0
    ensures var end := Run(g, Up(d, d, [], 0), es);
            var home := After(HomeOf(g, d), Committed(SpecUp(HomeOf(g, d), map[], 0), es));
            end.Some? ==>
              && HeadOk(g, end.value.disk) && HomeOf(g, Recover(g, end.value.disk)) == home
              && (end.value.Up? ==> HomeOf(g, end.value.view) == home + Logged(end.value.view, end.value.blocks))
  {
    var s0 := Up(d, d, [], 0);
    RunRefines(g, s0, es);
    assert SpecOf(g, s0) == SpecUp(HomeOf(g, d), map[], 0);
    var end := Run(g, s0, es);
    if end.Some? {
      SpecRunHome(SpecOf(g, s0), es);
      if end.value.Up? {
        RecoverEmpty(g, end.value.disk);
        ViewOverlaysDisk(g, end.value);
      }
    }
  }

  lemma ViewOverlaysDisk(g: Geometry, s: Sys)
    requires SysOk(g, s) && s.Up?
    ensures HomeOf(g, s.view) == HomeOf(g, s.disk) + Logged(s.view, s.blocks)
  {
    hide SpecOf;
    var m := HomeOf(g, s.disk) + Logged(s.view, s.blocks);
    assert HomeOf(g, s.view).Keys == m.Keys;
    forall b | b in m ensures HomeOf(g, s.view)[b] == m[b] {
      assert s.view[b] == s.view[b];
    }
  }
}
