/** Admission to the log: begin_op, log_write and end_op of log.c as steps of any number of
    processes, each step one critical section of log.lock, and the commit as one more. */
module GroupCommit {
  import opened Prelude
  import BlockMap
  import Blocks
  import BufferCache
  import FileIo
  import FileSystem
  import RedoLog

  /** `size` is log.size; `budget` is how many log_write calls one operation may make; `others` is how
      many clean buffers the rest of the kernel may hold, of blocks that the step at hand does not need. */
  datatype Config = Config(size: nat, budget: nat, others: nat)

  /** log.lh.block, the log_write calls of each active operation, log.committing, and the
      processes asleep in begin_op.  log.outstanding is |calls|. */
  datatype State = State(blocks: seq<nat>, calls: map<nat, nat>, committing: bool, asleep: set<nat>)

  /** `held` is how many clean buffers are held by others when the step needs one from bget: to change the
      block it logs, or to read the log. */
  datatype Event = BeginOp(p: nat) | LogWrite(p: nat, b: nat, held: nat) | EndOp(p: nat) | CommitDone(held: nat)

  const INIT := State([], map[], false, {})

  /** log_write's first check. */
  predicate TooBig(c: Config, s: State) {
    |s.blocks| >= RedoLog.LOGSIZE || |s.blocks| >= c.size - 1
  }

  /** The step can be taken: the process is awake and does what the rules allow it. */
  ghost predicate Enabled(c: Config, s: State, e: Event) {
    match e
    case BeginOp(p) => p !in s.calls && p !in s.asleep
    case LogWrite(p, b, held) => p in s.calls && s.calls[p] < c.budget && held <= c.others
    case EndOp(p) => p in s.calls
    case CommitDone(held) => s.committing && held <= c.others
  }

  /** bget has no buffer left: one is pinned for every logged block, and the others are held. */
  predicate NoBuffers(s: State, held: nat) {
    |s.blocks| + held >= BufferCache.NBUF
  }

  /** The step ends in a panic: log_write's "too big a transaction", end_op's "log.committing", or bget's
      "no buffers", for a block not logged yet or for the log itself. */
  ghost predicate Panics(c: Config, s: State, e: Event) {
    && Enabled(c, s, e)
    && match e
       case BeginOp(_) => false
       case LogWrite(_, b, held) => TooBig(c, s) || (b !in s.blocks && NoBuffers(s, held))
       case EndOp(_) => s.committing
       case CommitDone(held) => s.blocks != [] && NoBuffers(s, held)
  }

  ghost function Next(c: Config, s: State, e: Event): (s': State)
    requires Enabled(c, s, e) && !Panics(c, s, e)
  {
    match e
    case BeginOp(p) =>
      if s.committing then s.(asleep := s.asleep + {p})
      else if |s.blocks| + (|s.calls| + 1) * RedoLog.MAXOPBLOCKS > RedoLog.LOGSIZE then s.(asleep := s.asleep + {p})
      else s.(calls := s.calls[p := 0])
    case LogWrite(p, b, _) => s.(blocks := RedoLog.Absorb(s.blocks, b), calls := s.calls[p := s.calls[p] + 1])
    case EndOp(p) =>
      var calls := s.calls - {p};
      if calls == map[] then s.(calls := calls, committing := true)
      else s.(calls := calls, asleep := {})
    case CommitDone(_) => s.(blocks := [], committing := false, asleep := {})
  }

  ghost predicate IsRun(c: Config, es: seq<Event>, ss: seq<State>) {
    && |ss| == |es| + 1 && ss[0] == INIT
    && (forall i :: 0 <= i < |es| ==> StepAt(c, es, ss, i))
  }

  ghost predicate StepAt(c: Config, es: seq<Event>, ss: seq<State>, i: nat)
    requires i < |es| && |ss| == |es| + 1
  {
    Enabled(c, ss[i], es[i]) && !Panics(c, ss[i], es[i]) && ss[i + 1] == Next(c, ss[i], es[i])
  }

  ghost predicate Reachable(c: Config, s: State) {
    exists es, ss :: IsRun(c, es, ss) && ss[|es|] == s
  }

  lemma ReachableInit(c: Config)
    ensures Reachable(c, INIT)
  {
    assert IsRun(c, [], [INIT]);
  }

  lemma ReachableNext(c: Config, s: State, e: Event)
    requires Reachable(c, s) && Enabled(c, s, e) && !Panics(c, s, e)
    ensures Reachable(c, Next(c, s, e))
  {
    var es, ss :| IsRun(c, es, ss) && ss[|es|] == s;
    var es', ss' := es + [e], ss + [Next(c, s, e)];
    forall i | 0 <= i < |es'| ensures StepAt(c, es', ss', i) {
      if i < |es| { assert StepAt(c, es, ss, i); }
    }
    assert IsRun(c, es', ss') && ss'[|es'|] == Next(c, s, e);
  }

  // ---------------------------------------------------------------- the invariant

  /** The log_write calls that active operations may still make. */
  ghost function Left(c: Config, calls: map<nat, nat>): (n: nat)
    requires forall p :: p in calls ==> calls[p] <= c.budget
  {
    if calls == map[] then 0
    else var p := Least(calls.Keys); c.budget - calls[p] + Left(c, calls - {p})
  }

  ghost predicate IsLeast(s: set<nat>, p: nat) {
    p in s && forall q :: q in s ==> p <= q
  }

  ghost function Least(s: set<nat>): (p: nat)
    requires s != {}
    ensures IsLeast(s, p)
  {
    LeastExists(s);
    var p :| IsLeast(s, p);
    p
  }

  lemma {:induction false} LeastExists(s: set<nat>)
    requires s != {}
    ensures exists p :: IsLeast(s, p)
  {
    var x :| x in s;
    if s == {x} {
      assert IsLeast(s, x);
    } else {
      LeastExists(s - {x});
      var m :| IsLeast(s - {x}, m);
      var r := if x < m then x else m;
      forall q | q in s ensures r <= q {
        if q != x { assert q in s - {x}; }
      }
      assert IsLeast(s, r);
    }
  }

  /** Left is a sum, whichever operation is taken out first. */
  lemma {:induction false} LeftWithout(c: Config, calls: map<nat, nat>, p: nat)
    requires p in calls && forall q :: q in calls ==> calls[q] <= c.budget
    ensures Left(c, calls) == c.budget - calls[p] + Left(c, calls - {p})
    decreases |calls|
  {
    var m := Least(calls.Keys);
    if m != p {
      LeftWithout(c, calls - {m}, p);
      assert (calls - {m}) - {p} == (calls - {p}) - {m};
      LeftWithout(c, calls - {p}, m);
    }
  }

  lemma LeftSet(c: Config, calls: map<nat, nat>, p: nat, k: nat)
    requires k <= c.budget && forall q :: q in calls ==> calls[q] <= c.budget
    ensures Left(c, calls[p := k]) == c.budget - k + Left(c, calls - {p})
  {
    LeftWithout(c, calls[p := k], p);
    assert calls[p := k] - {p} == calls - {p};
  }

  lemma {:induction false} LeftBound(c: Config, calls: map<nat, nat>)
    requires forall q :: q in calls ==> calls[q] <= c.budget
    ensures Left(c, calls) <= |calls| * c.budget
    decreases |calls|
  {
    if calls != map[] {
      var p := Least(calls.Keys);
      var rest := calls - {p};
      LeftBound(c, rest);
      assert |rest| == |calls| - 1 by { assert rest.Keys == calls.Keys - {p}; }
      OneMore(|rest|, c.budget);
    }
  }

  /** The most blocks that operations admitted together can log. */
  function Peak(budget: nat): (n: nat) {
    if 3 * budget >= RedoLog.MAXOPBLOCKS + 2 * budget then 3 * budget else RedoLog.MAXOPBLOCKS + 2 * budget
  }

  ghost predicate Inv(c: Config, s: State) {
    && (s.committing ==> s.calls == map[])
    && (forall i, j :: 0 <= i < j < |s.blocks| ==> s.blocks[i] != s.blocks[j])
    && (!s.committing && s.calls == map[] ==> s.blocks == [])
    && (s.asleep != {} ==> s.committing || s.calls != map[])
    && (forall p :: p in s.calls ==> s.calls[p] <= c.budget)
    && |s.blocks| + Left(c, s.calls) <= Peak(c.budget)
    && (c.budget == 0 ==> s.blocks == [])
  }

  /** What begin_op's test leaves room for. */
  lemma AdmittedFits(c: Config, s: State)
    requires forall p :: p in s.calls ==> s.calls[p] <= c.budget
    requires |s.blocks| + (|s.calls| + 1) * RedoLog.MAXOPBLOCKS <= RedoLog.LOGSIZE
    requires s.calls == map[] ==> s.blocks == []
    ensures |s.blocks| + c.budget + Left(c, s.calls) <= Peak(c.budget)
  {
    LeftBound(c, s.calls);
    if |s.calls| == 0 {
      assert s.calls == map[];
    } else if |s.calls| == 1 {
      assert |s.calls| * c.budget == c.budget;
    } else {
      assert |s.calls| == 2 && |s.blocks| == 0;
      assert |s.calls| * c.budget == 2 * c.budget;
    }
  }

  lemma InvBegin(c: Config, s: State, p: nat)
    requires Inv(c, s) && Enabled(c, s, BeginOp(p))
    ensures Inv(c, Next(c, s, BeginOp(p)))
  {
    hide Left, Peak;
    var s' := Next(c, s, BeginOp(p));
    if p in s'.calls {
      LeftSet(c, s.calls, p, 0);
      assert s.calls - {p} == s.calls;
      AdmittedFits(c, s);
    }
  }

  lemma InvLogWrite(c: Config, s: State, p: nat, b: nat, held: nat)
    requires Inv(c, s) && Enabled(c, s, LogWrite(p, b, held)) && !Panics(c, s, LogWrite(p, b, held))
    ensures Inv(c, Next(c, s, LogWrite(p, b, held)))
  {
    LeftWithout(c, s.calls, p);
    LeftSet(c, s.calls, p, s.calls[p] + 1);
  }

  lemma InvEnd(c: Config, s: State, p: nat)
    requires Inv(c, s) && Enabled(c, s, EndOp(p))
    ensures !Panics(c, s, EndOp(p)) && Inv(c, Next(c, s, EndOp(p)))
  {
    LeftWithout(c, s.calls, p);
  }

  lemma InvNext(c: Config, s: State, e: Event)
    requires Inv(c, s) && Enabled(c, s, e) && !Panics(c, s, e)
    ensures Inv(c, Next(c, s, e))
  {
    match e
    case BeginOp(p) => InvBegin(c, s, p);
    case LogWrite(p, b, held) => InvLogWrite(c, s, p, b, held);
    case EndOp(p) => InvEnd(c, s, p);
    case CommitDone(_) =>
  }

  lemma {:induction false} InvRun(c: Config, es: seq<Event>, ss: seq<State>, n: nat)
    requires IsRun(c, es, ss) && n <= |es|
    ensures Inv(c, ss[n])
  {
    if n > 0 {
      InvRun(c, es, ss, n - 1);
      assert StepAt(c, es, ss, n - 1);
      InvNext(c, ss[n - 1], es[n - 1]);
    }
  }

  /** In every reachable state: a commit runs alone, logged blocks are distinct, nobody sleeps in
      begin_op unless an operation or a commit is there to wake it, and end_op does not panic. */
  lemma GroupCommitSafe(c: Config, s: State)
    requires Reachable(c, s)
    ensures Inv(c, s)
    ensures s.committing ==> s.calls == map[]
    ensures forall i, j :: 0 <= i < j < |s.blocks| ==> s.blocks[i] != s.blocks[j]
    ensures forall p :: p in s.asleep ==> s.committing || s.calls != map[]
    ensures forall p :: !Panics(c, s, EndOp(p))
  {
    var es, ss :| IsRun(c, es, ss) && ss[|es|] == s;
    InvRun(c, es, ss, |es|);
  }

  /** Whoever is asleep is woken by every end_op that leaves operations running, and by every commit. */
  lemma EveryEndWakes(c: Config, s: State, e: Event)
    requires Reachable(c, s) && Enabled(c, s, e) && (e.EndOp? || e.CommitDone?)
    ensures e.EndOp? ==> !Panics(c, s, e)
    ensures !Panics(c, s, e) ==> var s' := Next(c, s, e); s'.asleep == {} || s'.committing
  {
    GroupCommitSafe(c, s);
  }

  // ---------------------------------------------------------------- when a run can panic

  /** The number of logged blocks at which log_write panics. */
  function Limit(c: Config): (n: int) {
    if c.size - 1 < RedoLog.LOGSIZE then c.size - 1 else RedoLog.LOGSIZE
  }

  /** The number of logged blocks that a commit can still write beside the other holders. */
  function Room(c: Config): (n: int) {
    BufferCache.NBUF - 1 - c.others
  }

  predicate PeakFits(c: Config) {
    c.budget == 0 || (Peak(c.budget) <= Limit(c) && Peak(c.budget) <= Room(c))
  }

  lemma NoPanicIfPeakFits(c: Config, s: State, e: Event)
    requires Reachable(c, s) && Enabled(c, s, e) && PeakFits(c)
    ensures !Panics(c, s, e)
  {
    GroupCommitSafe(c, s);
    if e.LogWrite? { LeftWithout(c, s.calls, e.p); }
  }

  function Iota(n: nat): (s: seq<nat>)
    ensures |s| == n && forall i :: 0 <= i < n ==> s[i] == i
  {
    seq(n, (i: nat) => i)
  }

  /** Operation p logs m more blocks, all new. */
  lemma {:induction false} Fill(c: Config, n: nat, calls: map<nat, nat>, p: nat, m: nat)
    requires Reachable(c, State(Iota(n), calls, false, {}))
    requires p in calls && calls[p] + m <= c.budget && n + m <= Limit(c)
    ensures Reachable(c, State(Iota(n + m), calls[p := calls[p] + m], false, {}))
    decreases m
  {
    if m == 0 {
      assert calls[p := calls[p]] == calls;
    } else {
      var s := State(Iota(n), calls, false, {});
      ReachableNext(c, s, LogWrite(p, n, 0));
      assert Iota(n) + [n] == Iota(n + 1);
      var calls' := calls[p := calls[p] + 1];
      Fill(c, n + 1, calls', p, m - 1);
      assert calls'[p := calls'[p] + (m - 1)] == calls[p := calls[p] + m];
    }
  }

  /** begin_op admits p. */
  lemma Admit(c: Config, n: nat, calls: map<nat, nat>, p: nat)
    requires Reachable(c, State(Iota(n), calls, false, {})) && p !in calls
    requires n + (|calls| + 1) * RedoLog.MAXOPBLOCKS <= RedoLog.LOGSIZE
    ensures Reachable(c, State(Iota(n), calls[p := 0], false, {}))
  {
    ReachableNext(c, State(Iota(n), calls, false, {}), BeginOp(p));
  }

  /** While operation 0 stays active, short operations log blocks until there are `goal` of them. */
  lemma {:induction false} Climb(c: Config, n: nat, goal: nat)
    requires c.budget >= 1 && n <= goal <= RedoLog.MAXOPBLOCKS && goal <= Limit(c)
    requires Reachable(c, State(Iota(n), map[0 := 0], false, {}))
    ensures Reachable(c, State(Iota(goal), map[0 := 0], false, {}))
    decreases goal - n
  {
    if n < goal {
      var m := if c.budget < goal - n then c.budget else goal - n;
      Admit(c, n, map[0 := 0], 1);
      Fill(c, n, map[0 := 0][1 := 0], 1, m);
      var calls := map[0 := 0][1 := 0][1 := m];
      ReachableNext(c, State(Iota(n + m), calls, false, {}), EndOp(1));
      assert calls - {1} == map[0 := 0] && calls - {1} != map[];
      Climb(c, n + m, goal);
    }
  }

  /** Two operations that have made no call yet log blocks until there are `goal` of them. */
  lemma FillTo(c: Config, n: nat, calls: map<nat, nat>, p: nat, q: nat, goal: nat) returns (calls': map<nat, nat>)
    requires Reachable(c, State(Iota(n), calls, false, {})) && n <= goal <= Limit(c) && goal <= n + 2 * c.budget
    requires p in calls && q in calls && p != q && calls[p] == calls[q] == 0
    ensures Reachable(c, State(Iota(goal), calls', false, {})) && p in calls' && q in calls'
    ensures goal < n + 2 * c.budget ==> calls'[p] < c.budget || calls'[q] < c.budget
  {
    var a := if c.budget < goal - n then c.budget else goal - n;
    Fill(c, n, calls, p, a);
    var calls1 := calls[p := calls[p] + a];
    Fill(c, n + a, calls1, q, goal - n - a);
    calls' := calls1[q := calls1[q] + (goal - n - a)];
    assert n + a + (goal - n - a) == goal;
  }

  /** As many blocks as the peak, or as the log has room for, by operations that are still active; one of
      them has a call left if the log stopped them. */
  lemma Crowd(c: Config, goal: nat) returns (calls: map<nat, nat>, p: nat)
    requires c.budget >= 1 && goal <= Limit(c) && goal <= Peak(c.budget)
    ensures p in calls && Reachable(c, State(Iota(goal), calls, false, {}))
    ensures goal < Peak(c.budget) ==> calls[p] < c.budget
  {
    ReachableInit(c);
    assert INIT == State(Iota(0), map[], false, {});
    Admit(c, 0, map[], 0);
    var one: map<nat, nat> := map[][0 := 0];
    assert one == map[0 := 0];
    if Peak(c.budget) == 3 * c.budget {
      Admit(c, 0, one, 1);
      Admit(c, 0, one[1 := 0], 2);
      var three := one[1 := 0][2 := 0];
      var a := if c.budget < goal then c.budget else goal;
      Fill(c, 0, three, 0, a);
      if a == goal < c.budget {
        calls, p := three[0 := three[0] + a], 0;
      } else {
        calls := FillTo(c, a, three[0 := three[0] + a], 1, 2, goal);
        p := if calls[1] < c.budget then 1 else 2;
      }
    } else {
      var first := if goal < RedoLog.MAXOPBLOCKS then goal else RedoLog.MAXOPBLOCKS;
      Climb(c, 0, first);
      Admit(c, first, one, 1);
      calls := FillTo(c, first, one[1 := 0], 0, 1, goal);
      p := if calls[0] < c.budget then 0 else 1;
    }
  }

  /** All operations end, and the last one starts the commit. */
  lemma {:induction false} EndAll(c: Config, n: nat, calls: map<nat, nat>)
    requires Reachable(c, State(Iota(n), calls, false, {})) && calls != map[]
    ensures Reachable(c, State(Iota(n), map[], true, {}))
    decreases |calls|
  {
    var p :| p in calls;
    ReachableNext(c, State(Iota(n), calls, false, {}), EndOp(p));
    if calls - {p} != map[] { EndAll(c, n, calls - {p}); }
  }

  lemma PanicIfPeakDoesNotFit(c: Config) returns (s: State, e: Event)
    requires !PeakFits(c)
    ensures Reachable(c, s) && Panics(c, s, e)
    ensures 0 <= Limit(c) < Peak(c.budget) ==> e.LogWrite? && |s.blocks| == Limit(c)
    ensures Peak(c.budget) <= Limit(c) ==> e.CommitDone? && |s.blocks| == Peak(c.budget)
  {
    if Limit(c) < 0 {
      ReachableInit(c);
      assert INIT == State(Iota(0), map[], false, {});
      Admit(c, 0, map[], 0);
      s, e := State(Iota(0), map[][0 := 0], false, {}), LogWrite(0, 0, 0);
    } else if Peak(c.budget) > Limit(c) {
      var calls, p := Crowd(c, Limit(c));
      s, e := State(Iota(Limit(c)), calls, false, {}), LogWrite(p, 0, 0);
    } else {
      var calls, p := Crowd(c, Peak(c.budget));
      EndAll(c, Peak(c.budget), calls);
      s, e := State(Iota(Peak(c.budget)), map[], true, {}), CommitDone(c.others);
    }
  }

  /** Panics are out of reach of every run exactly when the peak fits the log and the cache.  With
      nobody else holding a buffer that is a budget of less than MAXOPBLOCKS calls, for the log of
      LOGSIZE blocks that mkfs makes and for any larger one. */
  lemma NoRunPanics(c: Config)
    ensures (forall s, e :: Reachable(c, s) && Enabled(c, s, e) ==> !Panics(c, s, e)) <==> PeakFits(c)
    ensures c.size >= RedoLog.LOGSIZE && c.others == 0 ==> (PeakFits(c) <==> c.budget <= RedoLog.MAXOPBLOCKS - 1)
  {
    if PeakFits(c) {
      forall s, e | Reachable(c, s) && Enabled(c, s, e) ensures !Panics(c, s, e) {
        NoPanicIfPeakFits(c, s, e);
      }
    } else {
      var s, e := PanicIfPeakDoesNotFit(c);
    }
  }

  /** A log larger than LOGSIZE lets operations of MAXOPBLOCKS calls pin every buffer before they commit. */
  lemma FullCommitPanics(size: nat) returns (s: State)
    requires size > RedoLog.LOGSIZE
    ensures var c := Config(size, RedoLog.MAXOPBLOCKS, 0);
            && Reachable(c, s) && s.committing && |s.blocks| == BufferCache.NBUF && Panics(c, s, CommitDone(0))
  {
    var e;
    s, e := PanicIfPeakDoesNotFit(Config(size, RedoLog.MAXOPBLOCKS, 0));
  }

  /** filewrite sizes its operations from LOGSIZE, not from MAXOPBLOCKS: `lg` is what a full one logs, at any offset of
      any file. So concurrent writers that begin_op admits together can make log_write panic, whatever the size of the
      log. */
  lemma FilewriteCanPanic(size: nat, sb: BlockMap.Super, lg: set<FileSystem.Logged>, i: nat, off: nat)
    returns (s: State, e: Event)
    requires FileSystem.Logs(sb, lg, i, off / Blocks.BSIZE, FileSystem.DataBlocks(off, FileIo.MAXCHUNK))
    ensures |lg| > RedoLog.MAXOPBLOCKS
    ensures Reachable(Config(size, |lg|, 0), s) && Panics(Config(size, |lg|, 0), s, e)
    ensures size > 0 ==> e.LogWrite?
  {
    FileIo.OperationBlocks(sb, lg, i, off, FileIo.MAXCHUNK);
    s, e := PanicIfPeakDoesNotFit(Config(size, |lg|, 0));
  }

  // ---------------------------------------------------------------- the device takes these steps

  /** An event of the log, and the process that causes it. */
  datatype Act = Act(p: nat, e: RedoLog.Event)

  /** The log_write calls of each active operation, after one more act. */
  ghost function Tally(calls: map<nat, nat>, a: Act): (r: map<nat, nat>) {
    match a.e
    case Begin => calls[a.p := 0]
    case LogWrite(_, _) => calls[a.p := (if a.p in calls then calls[a.p] else 0) + 1]
    case End => calls - {a.p}
    case _ => map[]
  }

  ghost function Calls(acts: seq<Act>): (r: map<nat, nat>) {
    if acts == [] then map[] else Tally(Calls(acts[..|acts| - 1]), acts[|acts| - 1])
  }

  /** A process logs blocks and ends only inside its own operation, of at most `budget` log_write calls. */
  ghost predicate ByRules(calls: map<nat, nat>, a: Act, budget: nat) {
    match a.e
    case Begin => a.p !in calls
    case LogWrite(_, _) => a.p in calls && calls[a.p] < budget
    case End => a.p in calls
    case _ => true
  }

  ghost predicate Obeys(acts: seq<Act>, budget: nat) {
    acts == [] || (Obeys(acts[..|acts| - 1], budget)
                   && ByRules(Calls(acts[..|acts| - 1]), acts[|acts| - 1], budget))
  }

  function Events(acts: seq<Act>): (es: seq<RedoLog.Event>)
    ensures |es| == |acts| && forall k {:trigger es[k]} :: 0 <= k < |acts| ==> es[k] == acts[k].e
  {
    seq(|acts|, k requires 0 <= k < |acts| => acts[k].e)
  }

  /** The log between two acts, as the protocol sees it. */
  function Between(s: RedoLog.Sys, calls: map<nat, nat>): (r: State)
    requires s.Up?
  {
    State(s.blocks, calls, false, {})
  }

  /** begin_op goes on in the log exactly when the protocol admits it, and then does the same. */
  lemma BeginIsAdmission(g: RedoLog.Geometry, c: Config, s: RedoLog.Sys, calls: map<nat, nat>, p: nat)
    requires RedoLog.SysOk(g, s) && s.Up? && |calls| == s.outstanding && p !in calls
    ensures var r, s' := Next(c, Between(s, calls), BeginOp(p)), RedoLog.Step(g, s, RedoLog.Begin);
            && (s'.Some? <==> r.asleep == {})
            && (s'.Some? ==> r == Between(s'.value, calls[p := 0]) && |calls[p := 0]| == s'.value.outstanding)
  {
    assert calls[p := 0].Keys == calls.Keys + {p};
  }

  /** log_write of a home block goes on in the log exactly when the protocol does not find the transaction too big. */
  lemma LogWriteIsStep(g: RedoLog.Geometry, c: Config, s: RedoLog.Sys, calls: map<nat, nat>, p: nat, b: nat,
                       data: BufferCache.Block)
    requires RedoLog.SysOk(g, s) && s.Up? && |calls| == s.outstanding && c.size == g.size
    requires p in calls && calls[p] < c.budget && b < |s.disk| && !RedoLog.InLog(g, b)
    ensures var m, s' := Between(s, calls), RedoLog.Step(g, s, RedoLog.LogWrite(b, data));
            && (s'.Some? <==> !TooBig(c, m))
            && (s'.Some? && !Panics(c, m, LogWrite(p, b, 0)) ==>
                  && Next(c, m, LogWrite(p, b, 0)) == Between(s'.value, calls[p := calls[p] + 1])
                  && |calls[p := calls[p] + 1]| == s'.value.outstanding)
  {
    assert calls[p := calls[p] + 1].Keys == calls.Keys;
    assert |calls.Keys| > 0;
  }

  /** end_op is one step, or, for the last operation, that step and the commit. */
  lemma EndIsStep(g: RedoLog.Geometry, c: Config, s: RedoLog.Sys, calls: map<nat, nat>, p: nat)
    requires RedoLog.SysOk(g, s) && s.Up? && |calls| == s.outstanding && p in calls
    ensures var m, s' := Between(s, calls), RedoLog.Step(g, s, RedoLog.End);
            && s'.Some? && s'.value.Up? && |calls - {p}| == s'.value.outstanding
            && Enabled(c, m, EndOp(p)) && !Panics(c, m, EndOp(p))
            && if s.outstanding > 1 then Next(c, m, EndOp(p)) == Between(s'.value, calls - {p})
               else
                 && Next(c, m, EndOp(p)) == m.(calls := map[], committing := true)
                 && (!NoBuffers(m, 0) ==>
                       Next(c, m.(calls := map[], committing := true), CommitDone(0)) == Between(s'.value, calls - {p}))
  {
    hide RedoLog.Apply, RedoLog.CommitWrites;
    var rest := calls - {p};
    assert rest.Keys == calls.Keys - {p};
    assert rest == map[] <==> |rest| == 0;
  }

  /** The log is in a state that the protocol reaches. */
  ghost predicate Follows(g: RedoLog.Geometry, c: Config, s: RedoLog.Sys, calls: map<nat, nat>) {
    && RedoLog.SysOk(g, s)
    && if s.Up? then |calls| == s.outstanding && Reachable(c, Between(s, calls)) else calls == map[]
  }

  lemma EndFollows(g: RedoLog.Geometry, c: Config, s: RedoLog.Sys, calls: map<nat, nat>, p: nat)
    requires Follows(g, c, s, calls) && s.Up? && p in calls && PeakFits(c)
    ensures RedoLog.Step(g, s, RedoLog.End).Some?
    ensures Follows(g, c, RedoLog.Step(g, s, RedoLog.End).value, calls - {p})
  {
    hide RedoLog.SysOk, RedoLog.Step, Reachable, PeakFits, Next, Panics;
    EndIsStep(g, c, s, calls, p);
    RedoLog.StepRefines(g, s, RedoLog.End);
    var m := Between(s, calls);
    ReachableNext(c, m, EndOp(p));
    if s.outstanding <= 1 {
      var m' := m.(calls := map[], committing := true);
      NoPanicIfPeakFits(c, m', CommitDone(0));
      CommitHasBuffers(c, m');
      ReachableNext(c, m', CommitDone(0));
    }
  }

  lemma CommitHasBuffers(c: Config, m: State)
    requires Enabled(c, m, CommitDone(0)) && !Panics(c, m, CommitDone(0))
    ensures !NoBuffers(m, 0)
  {
  }

  lemma BeginFollows(g: RedoLog.Geometry, c: Config, s: RedoLog.Sys, calls: map<nat, nat>, p: nat)
    requires Follows(g, c, s, calls) && s.Up? && p !in calls && PeakFits(c) && RedoLog.Step(g, s, RedoLog.Begin).Some?
    ensures Follows(g, c, RedoLog.Step(g, s, RedoLog.Begin).value, calls[p := 0])
  {
    hide RedoLog.SysOk, RedoLog.Step, Reachable, PeakFits, Next, Panics;
    BeginIsAdmission(g, c, s, calls, p);
    RedoLog.StepRefines(g, s, RedoLog.Begin);
    StepSides(g, s, RedoLog.Begin);
    NoPanicIfPeakFits(c, Between(s, calls), BeginOp(p));
    ReachableNext(c, Between(s, calls), BeginOp(p));
  }

  lemma LogWriteFollows(g: RedoLog.Geometry, c: Config, s: RedoLog.Sys, calls: map<nat, nat>, p: nat, b: nat,
                        data: BufferCache.Block)
    requires Follows(g, c, s, calls) && s.Up? && p in calls && calls[p] < c.budget && PeakFits(c) && c.size == g.size
    requires RedoLog.Step(g, s, RedoLog.LogWrite(b, data)).Some?
    ensures Follows(g, c, RedoLog.Step(g, s, RedoLog.LogWrite(b, data)).value, calls[p := calls[p] + 1])
  {
    hide RedoLog.SysOk, RedoLog.Step, Reachable, PeakFits, Next, Panics;
    RedoLog.StepRefines(g, s, RedoLog.LogWrite(b, data));
    StepSides(g, s, RedoLog.LogWrite(b, data));
    LogWriteIsStep(g, c, s, calls, p, b, data);
    NoPanicIfPeakFits(c, Between(s, calls), LogWrite(p, b, 0));
    ReachableNext(c, Between(s, calls), LogWrite(p, b, 0));
  }

  lemma ActFollows(g: RedoLog.Geometry, c: Config, s: RedoLog.Sys, calls: map<nat, nat>, a: Act)
    requires Follows(g, c, s, calls) && PeakFits(c) && c.size == g.size && ByRules(calls, a, c.budget)
    requires RedoLog.Step(g, s, a.e).Some?
    ensures Follows(g, c, RedoLog.Step(g, s, a.e).value, Tally(calls, a))
  {
    hide RedoLog.SysOk, RedoLog.Step, Reachable, PeakFits;
    StepSides(g, s, a.e);
    match a.e
    case Begin => BeginFollows(g, c, s, calls, a.p);
    case LogWrite(b, data) => LogWriteFollows(g, c, s, calls, a.p, b, data);
    case End => EndFollows(g, c, s, calls, a.p);
    case _ =>
      RedoLog.StepRefines(g, s, a.e);
      ReachableInit(c);
  }

  /** What the events ask of the system, and how it is after a crash and a reboot. */
  lemma StepSides(g: RedoLog.Geometry, s: RedoLog.Sys, e: RedoLog.Event)
    requires RedoLog.SysOk(g, s) && RedoLog.Step(g, s, e).Some?
    ensures e.Begin? || e.LogWrite? || e.End? ==> s.Up? && RedoLog.Step(g, s, e).value.Up?
    ensures e.LogWrite? ==> e.b < |s.disk| && !RedoLog.InLog(g, e.b)
    ensures e.Crash? || e.CommitCrash? || e.RecoverCrash? ==> RedoLog.Step(g, s, e).value.Down?
    ensures e.Reboot? ==>
              var s' := RedoLog.Step(g, s, e).value; s'.Up? && s'.blocks == [] && s'.outstanding == 0
  {
    hide RedoLog.Apply, RedoLog.CommitWrites, RedoLog.RecoverWrites;
  }

  lemma {:induction false} RunFollows(g: RedoLog.Geometry, c: Config, d: RedoLog.Disk, acts: seq<Act>)
    requires RedoLog.Fits(g, d) && d[g.start][0] == 0 && PeakFits(c) && c.size == g.size && Obeys(acts, c.budget)
    requires RedoLog.Run(g, RedoLog.Up(d, d, [], 0), Events(acts)).Some?
    ensures Follows(g, c, RedoLog.Run(g, RedoLog.Up(d, d, [], 0), Events(acts)).value, Calls(acts))
    decreases |acts|
  {
    hide RedoLog.SysOk, RedoLog.Step, Reachable, PeakFits, Tally, ByRules;
    var s0 := RedoLog.Up(d, d, [], 0);
    if acts == [] {
      StartOk(g, d);
      ReachableInit(c);
    } else {
      var front, a := acts[..|acts| - 1], acts[|acts| - 1];
      assert Events(acts)[..|acts| - 1] == Events(front);
      StartOk(g, d);
      RunFollows(g, c, d, front);
      ActFollows(g, c, RedoLog.Run(g, s0, Events(front)).value, Calls(front), a);
    }
  }

  lemma StartOk(g: RedoLog.Geometry, d: RedoLog.Disk)
    requires RedoLog.Fits(g, d) && d[g.start][0] == 0
    ensures RedoLog.SysOk(g, RedoLog.Up(d, d, [], 0))
  {
  }

  /** In every run of the log on at least LOGSIZE blocks, with crashes anywhere, in which no operation makes more than
      MAXOPBLOCKS - 1 log_write calls, no log_write of a home block by an operation fails, and no end_op does. */
  lemma NoLogWriteFails(g: RedoLog.Geometry, d: RedoLog.Disk, acts: seq<Act>, p: nat)
    requires RedoLog.Fits(g, d) && d[g.start][0] == 0 && g.size >= 30 && Obeys(acts, 9)
    requires RedoLog.Run(g, RedoLog.Up(d, d, [], 0), Events(acts)).Some? && p in Calls(acts)
    ensures var s := RedoLog.Run(g, RedoLog.Up(d, d, [], 0), Events(acts)).value;
            && s.Up? && RedoLog.Step(g, s, RedoLog.End).Some?
            && forall b: nat, data {:trigger RedoLog.LogWrite(b, data)} ::
                 Calls(acts)[p] < 9 && b < |s.disk| && !RedoLog.InLog(g, b) ==>
                   RedoLog.Step(g, s, RedoLog.LogWrite(b, data)).Some?
  {
    hide RedoLog.SysOk, RedoLog.Step, Reachable, PeakFits, Obeys, Panics;
    var c := Config(g.size, 9, 0);
    StartOk(g, d);
    NoRunPanics(c);
    RunFollows(g, c, d, acts);
    var s, calls := RedoLog.Run(g, RedoLog.Up(d, d, [], 0), Events(acts)).value, Calls(acts);
    EndIsStep(g, c, s, calls, p);
    forall b: nat, data | calls[p] < 9 && b < |s.disk| && !RedoLog.InLog(g, b)
      ensures RedoLog.Step(g, s, RedoLog.LogWrite(b, data)).Some?
    {
      LogWriteIsStep(g, c, s, calls, p, b, data);
      NoPanicIfPeakFits(c, Between(s, calls), LogWrite(p, b, 0));
      NotTooBig(c, Between(s, calls), p, b);
    }
  }

  lemma NotTooBig(c: Config, m: State, p: nat, b: nat)
    requires Enabled(c, m, LogWrite(p, b, 0)) && !Panics(c, m, LogWrite(p, b, 0))
    ensures !TooBig(c, m)
  {
  }
}
