/** filewrite of file.c: a write as a sequence of operations, each small enough, it says, for the log. */
module FileIo {
  import opened Prelude
  import opened Blocks
  import opened BlockMap
  import opened FileSystem
  import RedoLog

  /** Blocks of data that filewrite puts in one operation. */
  const FILEWRITE_BLOCKS := (RedoLog.LOGSIZE - 1 - 1 - 2) / 2
  const MAXCHUNK := FILEWRITE_BLOCKS * BSIZE

  /** An operation of filewrite that wrote n bytes at off and logged lg. It logs its data blocks, which are
      FILEWRITE_BLOCKS + 1 at most and FILEWRITE_BLOCKS at least when it is full, more than MAXOPBLOCKS; and besides
      them no more than the bitmap, the inode and the indirect block. */
  lemma OperationBlocks(sb: Super, lg: set<Logged>, i: nat, off: nat, n: nat)
    requires n <= MAXCHUNK && Logs(sb, lg, i, off / BSIZE, DataBlocks(off, n))
    ensures DataBlocks(off, n) <= |lg| <= DataBlocks(off, n) + BitmapSize(sb) + 2
    ensures DataBlocks(off, n) <= FILEWRITE_BLOCKS + 1
    ensures n == MAXCHUNK ==> DataBlocks(off, n) == if off % BSIZE == 0 then FILEWRITE_BLOCKS else FILEWRITE_BLOCKS + 1
    ensures n == MAXCHUNK ==> |lg| >= FILEWRITE_BLOCKS > RedoLog.MAXOPBLOCKS
    ensures BitmapSize(sb) == 1 ==> |lg| <= RedoLog.LOGSIZE
  {
    hide Logs;
    LogsSize(sb, lg, i, off / BSIZE, DataBlocks(off, n));
  }

  /** t bytes of data have been written at off, and no other file changed since `was`. */
  ghost predicate Done(f: Files, i: nat, off: nat, data: seq<byte>, t: nat, s: seq<byte>, was: seq<seq<byte>>)
    reads f
  {
    && f.Valid() && i < |f.inodes| == |was| && t <= |data| && off <= |s|
    && f.File(i) == Splice(s, off, data[..t])
    && (forall k: nat {:trigger f.File(k)} :: k < |was| && k != i ==> f.File(k) == was[k])
  }

  ghost function Contents(f: Files): (was: seq<seq<byte>>)
    requires f.Valid()
    reads f
    ensures |was| == |f.inodes| && forall k: nat {:trigger was[k]} :: k < |was| ==> was[k] == f.File(k)
  {
    seq(|f.inodes|, k requires 0 <= k < |f.inodes| && f.Valid() reads f => f.File(k))
  }

  /** How many operations a write of n bytes takes. */
  function Operations(n: nat): (k: nat) {
    (n + MAXCHUNK - 1) / MAXCHUNK
  }

  lemma LastOperation(n: nat, j: nat)
    requires if n == 0 then j == 0 else (j - 1) * MAXCHUNK < n <= j * MAXCHUNK
    ensures Operations(n) == j
  {
    assert MAXCHUNK == 6656;
    assert j * 6656 <= n + 6655 < j * 6656 + 6656;
  }

  /** What operation j of a write of n bytes logs. */
  ghost predicate OpLogs(sb: Super, lg: set<Logged>, i: nat, off0: nat, n: nat, j: nat) {
    && j * MAXCHUNK < n
    && var off, m := off0 + j * MAXCHUNK, if n - j * MAXCHUNK > MAXCHUNK then MAXCHUNK else n - j * MAXCHUNK;
       Logs(sb, lg, i, off / BSIZE, DataBlocks(off, m))
  }

  /** filewrite: n and all of the data is in the file, or -1 and it is there up to the last operation that fits MAXFILE
      blocks, after the full ones. The offset is behind what was written. None is the panic of balloc; filewrite's own
      "short filewrite" cannot happen. `logs` is what each operation logged. */
  method Filewrite(f: Files, i: nat, off0: word, data: seq<byte>)
    returns (r: Option<int>, off: nat, ghost logs: seq<set<Logged>>)
    requires f.Valid() && i < |f.inodes| && |data| < WORDMAX
    modifies f
    ensures r.None? ==> f.Full() && off0 + |data| > |old(f.File(i))|
    ensures off0 > |old(f.File(i))| ==> r == Some(if data == [] then 0 else -1) && off == off0 && unchanged(f)
    ensures r.Some? && off0 <= |old(f.File(i))| ==>
              && off0 <= off && Done(f, i, off0, data, off - off0, old(f.File(i)), old(Contents(f)))
              && r.value == (if off == off0 + |data| then |data| else -1)
              && (r.value == -1 <==> off0 + |data| > MAXBYTES)
              && (r.value == -1 ==> off == off0 + |logs| * MAXCHUNK && off + MAXCHUNK > MAXBYTES)
    ensures forall j {:trigger logs[j]} :: 0 <= j < |logs| ==> OpLogs(f.sb, logs[j], i, off0, |data|, j)
    ensures r.Some? && off0 <= |old(f.File(i))| && r.value != -1 ==> |logs| == Operations(|data|)
  {
    Start(f, i, off0, data, f.File(i), Contents(f));
    r, off, logs := WriteLoop(f, i, off0, data, f.File(i), Contents(f));
  }

  /** The loop of filewrite. */
  method WriteLoop(f: Files, i: nat, off0: word, data: seq<byte>, ghost s: seq<byte>, ghost was: seq<seq<byte>>)
    returns (r: Option<int>, off: nat, ghost logs: seq<set<Logged>>)
    requires InProgress(f, i, off0, data, 0, s, was) && |data| < WORDMAX
    modifies f
    ensures r.None? ==> f.Full() && off0 + |data| > |s|
    ensures r.Some? ==> off0 <= off <= off0 + |data| && InProgress(f, i, off0, data, off - off0, s, was)
    ensures r.Some? ==> r.value == if off == off0 + |data| then |data| else -1
    ensures r == Some(-1) <==> data != [] && (off0 > |s| || off0 + |data| > MAXBYTES) && r.Some?
    ensures r == Some(-1) && off0 > |s| ==> unchanged(f) && off == off0
    ensures data == [] ==> unchanged(f)
    ensures r == Some(-1) && off0 <= |s| ==> off == off0 + |logs| * MAXCHUNK && off + MAXCHUNK > MAXBYTES
    ensures off0 > |s| ==> r.Some?
    ensures forall j {:trigger logs[j]} :: 0 <= j < |logs| ==> OpLogs(f.sb, logs[j], i, off0, |data|, j)
    ensures r.Some? && r.value != -1 ==> |logs| == Operations(|data|)
  {
    hide InProgress, Files.Full, OpLogs, Operations;
    LastOperation(0, 0);
    off := off0;
    var n, k := |data|, 0;
    logs := [];
    while k < n
      invariant 0 <= k <= n && off == off0 + k && InProgress(f, i, off0, data, k, s, was)
      invariant if k == 0 then unchanged(f) && logs == [] else off0 + k <= MAXBYTES && off0 <= |s|
      invariant if k < n then k == |logs| * MAXCHUNK else |logs| == Operations(n)
      invariant forall j {:trigger logs[j]} :: 0 <= j < |logs| ==> OpLogs(f.sb, logs[j], i, off0, n, j)
    {
      var n1 := if n - k > MAXCHUNK then MAXCHUNK else n - k;
      var w, lg := Operation(f, i, off0, data, k, n1, |logs|, s, was);
      if w.None? { return None, off, logs; }
      if w.value > 0 { off := off + w.value; }
      if w.value < 0 { break; }
      assert w.value == n1; // no "short filewrite"
      if k + n1 == n { LastOperation(n, |logs| + 1); }
      k, logs := k + w.value, logs + [lg];
    }
    r := Some(if k == n then n else -1);
  }

  /** Before each operation; a descriptor past the end of its file never gets beyond the first. */
  ghost predicate InProgress(f: Files, i: nat, off: nat, data: seq<byte>, k: nat, s: seq<byte>, was: seq<seq<byte>>)
    reads f
  {
    if off <= |s| then Done(f, i, off, data, k, s, was)
    else k == 0 && f.Valid() && i < |f.inodes| && f.File(i) == s
  }

  lemma Start(f: Files, i: nat, off: nat, data: seq<byte>, s: seq<byte>, was: seq<seq<byte>>)
    requires f.Valid() && i < |f.inodes| && s == f.File(i) && was == Contents(f)
    ensures InProgress(f, i, off, data, 0, s, was)
  {
    assert data[..0] == [];
    if off <= |s| { SpliceNothing(s, off); }
  }

  /** One operation: begin_op, writei, end_op. */
  method Operation(f: Files, i: nat, off0: word, data: seq<byte>, k: nat, n1: nat, ghost j: nat,
                   ghost s: seq<byte>, ghost was: seq<seq<byte>>) returns (w: Option<int>, ghost lg: set<Logged>)
    requires InProgress(f, i, off0, data, k, s, was) && 0 < n1 && k + n1 <= |data| < WORDMAX
    requires k == j * MAXCHUNK && n1 == if |data| - k > MAXCHUNK then MAXCHUNK else |data| - k
    requires k > 0 ==> off0 + k <= MAXBYTES
    modifies f
    ensures w.None? ==> f.Full() && off0 + |data| > |s|
    ensures w == Some(-1) <==> off0 > |s| || off0 + k + n1 > MAXBYTES
    ensures w == Some(-1) ==> unchanged(f) && InProgress(f, i, off0, data, k, s, was)
    ensures w.Some? && w.value != -1 ==> w.value == n1 && InProgress(f, i, off0, data, k + n1, s, was)
    ensures w.Some? && w.value != -1 ==> OpLogs(f.sb, lg, i, off0, |data|, j)
  {
    hide Files.Valid, Files.File, Files.Full, Splice, Logs;
    if off0 <= |s| { OperationAt(s, off0, data, k, n1); }
    w, lg := f.Writei(i, data[k..k + n1], off0 + k);
  }

  lemma OperationAt(s: seq<byte>, off: nat, data: seq<byte>, k: nat, n1: nat)
    requires off <= |s| && k + n1 <= |data|
    ensures |Splice(s, off, data[..k])| == Max(|s|, off + k)
    ensures Splice(Splice(s, off, data[..k]), off + k, data[k..k + n1]) == Splice(s, off, data[..k + n1])
  {
    assert data[..k] + data[k..k + n1] == data[..k + n1];
    SpliceMore(s, off, data[..k], data[k..k + n1]);
  }
}
