/** Readers and writers of one pipe, in any interleaving: each stretch of pipewrite, piperead or pipeclose under the
    pipe's lock is one step. The ring is the queue that PipeRing.Ring implements. */
module PipeProtocol {
  import opened PipeRing

  /** write(fd, data, |data|) or read(fd, buf, n). */
  datatype Call = Write(data: seq<byte>) | Read(n: nat)

  /** What a process is in: for a writer, its argument and what is left of it. */
  datatype Role = Idle | Writing(data: seq<byte>, rest: seq<byte>) | Reading(n: nat)

  /** asleep: on &p->nwrite for a writer, on &p->nread for a reader. `calls` numbers the calls made so far. */
  datatype Proc = Proc(role: Role, asleep: bool, killed: bool, calls: nat)

  /** A byte, and the call that moved it. */
  datatype Moved = Moved(p: nat, call: nat, b: byte)

  /** A call that has returned. */
  datatype Ended = Ended(p: nat, call: nat, what: Call, result: int)

  /** `written` and `got` are all bytes that ever entered and left the pipe, `done` all calls that ever returned. */
  datatype Pipe = Pipe(buf: seq<byte>, readopen: bool, writeopen: bool, procs: seq<Proc>, written: seq<Moved>,
                       got: seq<Moved>, done: seq<Ended>)

  datatype Event =
    | Start(p: nat, call: Call) // a process calls read or write
    | Run(p: nat)               // a process in the call runs until it sleeps or returns
    | CloseRead | CloseWrite    // the last descriptor of an end is closed
    | Kill(p: nat)

  function Woken(q: Proc, readers: bool): (r: Proc) {
    if (if readers then q.role.Reading? else q.role.Writing?) then q.(asleep := false) else q
  }

  /** wakeup(&p->nread) or wakeup(&p->nwrite). */
  function Wakeup(procs: seq<Proc>, readers: bool): (r: seq<Proc>)
    ensures |r| == |procs|
    ensures forall k {:trigger r[k]} :: 0 <= k < |r| ==> r[k] == Woken(procs[k], readers)
  {
    seq(|procs|, k requires 0 <= k < |procs| => Woken(procs[k], readers))
  }

  /** How many bytes a writer can put in before the pipe is full. */
  function Fits(s: Pipe, rest: seq<byte>): (k: nat)
    requires |s.buf| <= PIPESIZE
    ensures k <= |rest| && |s.buf| + k <= PIPESIZE && (k < |rest| ==> |s.buf| + k == PIPESIZE)
  {
    Least(|rest|, PIPESIZE - |s.buf|)
  }

  function Tag(p: nat, call: nat, bs: seq<byte>): (ts: seq<Moved>)
    ensures |ts| == |bs| && forall k {:trigger ts[k]} :: 0 <= k < |bs| ==> ts[k] == Moved(p, call, bs[k])
  {
    seq(|bs|, k requires 0 <= k < |bs| => Moved(p, call, bs[k]))
  }

  function RunWrite(s: Pipe, p: nat): (r: Pipe)
    requires p < |s.procs| && s.procs[p].role.Writing? && |s.buf| <= PIPESIZE
  {
    var q := s.procs[p];
    var Writing(data, rest) := q.role;
    var k := Fits(s, rest);
    var t := s.(buf := s.buf + rest[..k], written := s.written + Tag(p, q.calls, rest[..k]));
    if k == |rest| then
      t.(procs := Wakeup(s.procs, true)[p := q.(role := Idle)],
         done := s.done + [Ended(p, q.calls, Write(data), |data|)])
    else if !s.readopen || q.killed then
      t.(procs := s.procs[p := q.(role := Idle)], done := s.done + [Ended(p, q.calls, Write(data), -1)])
    else t.(procs := Wakeup(s.procs, true)[p := q.(role := Writing(data, rest[k..]), asleep := true)])
  }

  function RunRead(s: Pipe, p: nat): (r: Pipe)
    requires p < |s.procs| && s.procs[p].role.Reading?
  {
    var q := s.procs[p];
    var n := q.role.n;
    if s.buf == [] && s.writeopen then
      if q.killed then
        s.(procs := s.procs[p := q.(role := Idle)], done := s.done + [Ended(p, q.calls, Read(n), -1)])
      else s.(procs := s.procs[p := q.(asleep := true)])
    else
      var m := Least(n, |s.buf|);
      s.(buf := s.buf[m..], got := s.got + Tag(p, q.calls, s.buf[..m]),
         procs := Wakeup(s.procs, false)[p := q.(role := Idle)],
         done := s.done + [Ended(p, q.calls, Read(n), m)])
  }

  predicate Using(s: Pipe, reading: bool) {
    exists k :: 0 <= k < |s.procs| && if reading then s.procs[k].role.Reading? else s.procs[k].role.Writing?
  }

  /** A process holds its descriptor while it is in a call, so an end is not closed under it. */
  predicate Enabled(s: Pipe, e: Event) {
    match e
    case Start(p, call) => p < |s.procs| && s.procs[p].role.Idle? && if call.Read? then s.readopen else s.writeopen
    case Run(p) => p < |s.procs| && !s.procs[p].role.Idle? && !s.procs[p].asleep && |s.buf| <= PIPESIZE
    case CloseRead => s.readopen && !Using(s, true)
    case CloseWrite => s.writeopen && !Using(s, false)
    case Kill(p) => p < |s.procs|
  }

  function Started(call: Call): (r: Role) {
    match call
    case Write(data) => Writing(data, data)
    case Read(n) => Reading(n)
  }

  function Next(s: Pipe, e: Event): (r: Pipe)
    requires Enabled(s, e)
  {
    match e
    case Start(p, call) =>
      s.(procs := s.procs[p := s.procs[p].(role := Started(call), asleep := false, calls := s.procs[p].calls + 1)])
    case Run(p) => if s.procs[p].role.Writing? then RunWrite(s, p) else RunRead(s, p)
    case CloseRead => s.(readopen := false, procs := Wakeup(s.procs, false))
    case CloseWrite => s.(writeopen := false, procs := Wakeup(s.procs, true))
    case Kill(p) => s.(procs := s.procs[p := s.procs[p].(killed := true, asleep := false)])
  }

  // ---------------------------------------------------------------- the bytes of one call

  function Bytes(ts: seq<Moved>): (bs: seq<byte>)
    ensures |bs| == |ts| && forall k {:trigger bs[k]} :: 0 <= k < |ts| ==> bs[k] == ts[k].b
  {
    seq(|ts|, k requires 0 <= k < |ts| => ts[k].b)
  }

  /** What call c of process p moved, in order. */
  ghost function Of(ts: seq<Moved>, p: nat, c: nat): (bs: seq<byte>) {
    if ts == [] then []
    else
      var t := ts[|ts| - 1];
      Of(ts[..|ts| - 1], p, c) + if t.p == p && t.call == c then [t.b] else []
  }

  lemma {:induction false} OfTag(ts: seq<Moved>, q: nat, d: nat, bs: seq<byte>, p: nat, c: nat)
    ensures Of(ts + Tag(q, d, bs), p, c) == Of(ts, p, c) + if q == p && d == c then bs else []
    decreases |bs|
  {
    if bs == [] {
      assert ts + Tag(q, d, bs) == ts;
    } else {
      var front, b := bs[..|bs| - 1], bs[|bs| - 1];
      OfTag(ts, q, d, front, p, c);
      assert ts + Tag(q, d, bs) == ts + Tag(q, d, front) + [Moved(q, d, b)];
      assert bs == front + [b];
      hide Of, Tag;
      OfOne(ts + Tag(q, d, front), Moved(q, d, b), p, c);
    }
  }

  lemma OfOne(ts: seq<Moved>, t: Moved, p: nat, c: nat)
    ensures Of(ts + [t], p, c) == Of(ts, p, c) + if t.p == p && t.call == c then [t.b] else []
  {
    assert (ts + [t])[..|ts|] == ts;
  }

  /** Only calls already made have moved bytes. */
  ghost predicate Dated(ts: seq<Moved>, procs: seq<Proc>) {
    forall k {:trigger ts[k]} :: 0 <= k < |ts| ==> ts[k].p < |procs| && ts[k].call <= procs[ts[k].p].calls
  }

  lemma {:induction false} NothingYet(ts: seq<Moved>, procs: seq<Proc>, p: nat, c: nat)
    requires Dated(ts, procs) && p < |procs| && c > procs[p].calls
    ensures Of(ts, p, c) == []
  {
    if ts != [] { NothingYet(ts[..|ts| - 1], procs, p, c); }
  }

  /** The calls of process p that returned, in the order in which they did. */
  ghost function Returned(done: seq<Ended>, p: nat): (cs: seq<nat>) {
    if done == [] then []
    else
      var d := done[|done| - 1];
      Returned(done[..|done| - 1], p) + if d.p == p then [d.call] else []
  }

  lemma ReturnedOne(done: seq<Ended>, d: Ended, p: nat)
    ensures Returned(done + [d], p) == Returned(done, p) + if d.p == p then [d.call] else []
  {
    assert (done + [d])[..|done|] == done;
  }

  function UpTo(n: nat): (s: seq<nat>)
    ensures |s| == n && forall k {:trigger s[k]} :: 0 <= k < n ==> s[k] == k + 1
  {
    seq(n, (k: nat) => k + 1)
  }

  // ---------------------------------------------------------------- what every run keeps

  /** Nothing is lost, made up or reordered, and calls are on open ends. */
  ghost predicate Conserved(s: Pipe) {
    && Bytes(s.written) == Bytes(s.got) + s.buf && |s.buf| <= PIPESIZE
    && (!s.readopen ==> !Using(s, true)) && (!s.writeopen ==> !Using(s, false))
  }

  /** A call in progress: what a writer has put in and what it has left are its argument; a reader has taken nothing. */
  ghost predicate CallOk(s: Pipe, p: nat)
    requires p < |s.procs|
  {
    var q := s.procs[p];
    match q.role
    case Idle => true
    case Writing(data, rest) => Of(s.written, p, q.calls) + rest == data && Of(s.got, p, q.calls) == []
    case Reading(n) => Of(s.got, p, q.calls) == []
  }

  /** A write that returned put in all of its argument, once and in order, and gives its length; or it gives -1 and
      put in a part of it, and either nobody can read any more or its process is killed. */
  ghost predicate WriteOk(s: Pipe, p: nat, c: nat, data: seq<byte>, result: int)
    requires p < |s.procs|
  {
    || (result == |data| && Of(s.written, p, c) == data)
    || (result == -1 && Of(s.written, p, c) < data && (!s.readopen || s.procs[p].killed))
  }

  /** A read that returned gives how many bytes it took, and none only if it asked for none or no more can come; or it
      gives -1, took nothing, and its process is killed. */
  ghost predicate ReadOk(s: Pipe, p: nat, c: nat, n: nat, result: int)
    requires p < |s.procs|
  {
    || (0 <= result <= n && |Of(s.got, p, c)| == result && (result == 0 < n ==> !s.writeopen))
    || (result == -1 && Of(s.got, p, c) == [] && s.procs[p].killed)
  }

  /** A call that has returned. */
  ghost predicate EndedOk(s: Pipe, d: Ended) {
    && d.p < |s.procs| && d.call <= s.procs[d.p].calls && (d.call == s.procs[d.p].calls ==> s.procs[d.p].role.Idle?)
    && match d.what
       case Write(data) => WriteOk(s, d.p, d.call, data, d.result)
       case Read(n) => ReadOk(s, d.p, d.call, n, d.result)
  }

  /** Calls 1, 2, ... of a process have returned, each once, up to the one it is in. */
  ghost predicate Numbered(s: Pipe, p: nat)
    requires p < |s.procs|
  {
    var q := s.procs[p];
    if q.role.Idle? then Returned(s.done, p) == UpTo(q.calls)
    else q.calls > 0 && Returned(s.done, p) == UpTo(q.calls - 1)
  }

  ghost predicate Inv(s: Pipe) {
    && Conserved(s) && Dated(s.written, s.procs) && Dated(s.got, s.procs)
    && (forall p {:trigger s.procs[p]} :: 0 <= p < |s.procs| ==> CallOk(s, p) && Numbered(s, p))
    && (forall k {:trigger s.done[k]} :: 0 <= k < |s.done| ==> EndedOk(s, s.done[k]))
  }

  ghost predicate SleeperOk(s: Pipe, q: Proc) {
    q.asleep ==>
      && !q.role.Idle? && !q.killed
      && (q.role.Reading? ==> s.buf == [] && s.writeopen)
      && (q.role.Writing? ==> |s.buf| == PIPESIZE && s.readopen)
  }

  /** No sleeper's condition is satisfied, and none is killed. */
  ghost predicate Quiet(s: Pipe) {
    forall k {:trigger s.procs[k]} :: 0 <= k < |s.procs| ==> SleeperOk(s, s.procs[k])
  }

  lemma BytesTag(ts: seq<Moved>, p: nat, c: nat, bs: seq<byte>)
    ensures Bytes(ts + Tag(p, c, bs)) == Bytes(ts) + bs
  {
  }

  /** What each stretch does to the queue. */
  lemma QueueWrite(s: Pipe, p: nat)
    requires p < |s.procs| && s.procs[p].role.Writing? && |s.buf| <= PIPESIZE
    ensures var r, rest := RunWrite(s, p), s.procs[p].role.rest;
            var put := rest[..Fits(s, rest)];
            r.written == s.written + Tag(p, s.procs[p].calls, put) && r.buf == s.buf + put && r.got == s.got
  {
    hide Wakeup, Tag;
  }

  lemma QueueRead(s: Pipe, p: nat)
    requires p < |s.procs| && s.procs[p].role.Reading?
    ensures var r := RunRead(s, p);
            var m := if s.buf == [] && s.writeopen then 0 else Least(s.procs[p].role.n, |s.buf|);
            r.written == s.written && r.got == s.got + Tag(p, s.procs[p].calls, s.buf[..m]) && r.buf == s.buf[m..]
  {
    hide Wakeup;
  }

  lemma Appended(w: seq<Moved>, g: seq<Moved>, b: seq<byte>, p: nat, c: nat, put: seq<byte>)
    requires Bytes(w) == Bytes(g) + b
    ensures Bytes(w + Tag(p, c, put)) == Bytes(g) + (b + put)
  {
    hide Bytes, Tag;
    BytesTag(w, p, c, put);
    assert Bytes(g) + b + put == Bytes(g) + (b + put);
  }

  lemma TakenOut(w: seq<Moved>, g: seq<Moved>, b: seq<byte>, p: nat, c: nat, m: nat)
    requires Bytes(w) == Bytes(g) + b && m <= |b|
    ensures Bytes(w) == Bytes(g + Tag(p, c, b[..m])) + b[m..]
  {
    hide Bytes, Tag;
    BytesTag(g, p, c, b[..m]);
    assert b == b[..m] + b[m..];
    assert Bytes(g) + (b[..m] + b[m..]) == Bytes(g) + b[..m] + b[m..];
  }

  lemma BytesNext(s: Pipe, e: Event)
    requires Conserved(s) && Enabled(s, e)
    ensures var r := Next(s, e); Bytes(r.written) == Bytes(r.got) + r.buf && |r.buf| <= PIPESIZE
  {
    hide RunWrite, RunRead, Wakeup, Bytes, Tag, Using;
    if e.Run? {
      var q := s.procs[e.p];
      if q.role.Writing? {
        QueueWrite(s, e.p);
        Appended(s.written, s.got, s.buf, e.p, q.calls, q.role.rest[..Fits(s, q.role.rest)]);
      } else {
        QueueRead(s, e.p);
        TakenOut(s.written, s.got, s.buf, e.p, q.calls,
                 if s.buf == [] && s.writeopen then 0 else Least(q.role.n, |s.buf|));
      }
    }
  }

  /** A call that goes on after a step went on before it, or has just started. */
  lemma RoleNext(s: Pipe, e: Event, k: nat)
    requires Enabled(s, e) && k < |s.procs|
    ensures |Next(s, e).procs| == |s.procs|
    ensures var q, q' := s.procs[k].role, Next(s, e).procs[k].role;
            !q'.Idle? && !(e.Start? && k == e.p) ==> q'.Reading? == q.Reading? && q'.Writing? == q.Writing?
  {
  }

  lemma UsersNext(s: Pipe, e: Event, reading: bool)
    requires Enabled(s, e) && Using(Next(s, e), reading)
    ensures Using(s, reading) || (e.Start? && e.call.Read? == reading)
  {
    hide Next, Enabled;
    var r := Next(s, e);
    var k :| 0 <= k < |r.procs| && if reading then r.procs[k].role.Reading? else r.procs[k].role.Writing?;
    StartRole(s, e);
    RoleNext(s, e, k);
  }

  /** A call starts with all of its argument to go. */
  lemma StartRole(s: Pipe, e: Event)
    requires Enabled(s, e)
    ensures |Next(s, e).procs| == |s.procs|
    ensures e.Start? ==>
              && e.p < |s.procs| && Next(s, e).procs[e.p].calls == s.procs[e.p].calls + 1
              && Next(s, e).procs[e.p].role ==
                   if e.call.Write? then Writing(e.call.data, e.call.data) else Reading(e.call.n)
  {
  }

  lemma ConservedNext(s: Pipe, e: Event)
    requires Conserved(s) && Enabled(s, e)
    ensures Conserved(Next(s, e))
  {
    BytesNext(s, e);
    var r := Next(s, e);
    if Using(r, true) { UsersNext(s, e, true); }
    if Using(r, false) { UsersNext(s, e, false); }
    hide RunWrite, RunRead, Using;
    if e.Run? { RunEnds(s, e); }
  }

  /** What a step leaves of a process that does not run in it. */
  lemma OthersNext(s: Pipe, e: Event, k: nat)
    requires Enabled(s, e) && k < |s.procs|
    ensures |Next(s, e).procs| == |s.procs|
    ensures var q, q' := s.procs[k], Next(s, e).procs[k];
            && (q.killed ==> q'.killed)
            && q'.calls == (if e.Start? && e.p == k then q.calls + 1 else q.calls)
            && (!((e.Start? || e.Run?) && e.p == k) ==> q'.role == q.role)
  {
  }

  /** The bytes a step moves are moved by the process that runs in it, for its call. */
  lemma MovesNext(s: Pipe, e: Event, p: nat, c: nat)
    requires Enabled(s, e)
    requires e.Run? ==> !(p == e.p && c == s.procs[e.p].calls)
    ensures Of(Next(s, e).written, p, c) == Of(s.written, p, c) && Of(Next(s, e).got, p, c) == Of(s.got, p, c)
  {
    hide RunWrite, RunRead, Wakeup, Of, Tag;
    if e.Run? {
      var q := s.procs[e.p];
      if q.role.Writing? {
        QueueWrite(s, e.p);
        OfTag(s.written, e.p, q.calls, q.role.rest[..Fits(s, q.role.rest)], p, c);
      } else {
        QueueRead(s, e.p);
        var m := if s.buf == [] && s.writeopen then 0 else Least(q.role.n, |s.buf|);
        OfTag(s.got, e.p, q.calls, s.buf[..m], p, c);
      }
    }
  }

  lemma DatedNext(s: Pipe, e: Event)
    requires Enabled(s, e) && Dated(s.written, s.procs) && Dated(s.got, s.procs)
    ensures Dated(Next(s, e).written, Next(s, e).procs) && Dated(Next(s, e).got, Next(s, e).procs)
  {
    hide Wakeup;
    forall k | 0 <= k < |s.procs| ensures Next(s, e).procs[k].calls >= s.procs[k].calls { OthersNext(s, e, k); }
  }

  /** A write's stretch: its bytes follow what the call has put in before. */
  lemma WriteMoves(s: Pipe, p: nat)
    requires Enabled(s, Run(p)) && s.procs[p].role.Writing? && CallOk(s, p)
    ensures var q := s.procs[p];
            var k := Fits(s, q.role.rest);
            && Of(RunWrite(s, p).written, p, q.calls) + q.role.rest[k..] == q.role.data
            && RunWrite(s, p).got == s.got
  {
    QueueWrite(s, p);
    hide RunWrite, Of, Tag;
    var q := s.procs[p];
    var k := Fits(s, q.role.rest);
    OfTag(s.written, p, q.calls, q.role.rest[..k], p, q.calls);
    assert q.role.rest == q.role.rest[..k] + q.role.rest[k..];
  }

  /** A read's stretch: the bytes it takes are all that its call takes. */
  lemma ReadMoves(s: Pipe, p: nat)
    requires Enabled(s, Run(p)) && s.procs[p].role.Reading? && CallOk(s, p)
    ensures var q, r := s.procs[p], RunRead(s, p);
            && Of(r.got, p, q.calls) + r.buf == s.buf
            && (s.buf == [] && s.writeopen ==> Of(r.got, p, q.calls) == [])
            && (!(s.buf == [] && s.writeopen) ==> |Of(r.got, p, q.calls)| == Least(q.role.n, |s.buf|))
  {
    QueueRead(s, p);
    hide RunRead, Of, Tag;
    var q := s.procs[p];
    var m := if s.buf == [] && s.writeopen then 0 else Least(q.role.n, |s.buf|);
    OfTag(s.got, p, q.calls, s.buf[..m], p, q.calls);
  }

  lemma CallStarted(s: Pipe, p: nat, call: Call)
    requires Enabled(s, Start(p, call)) && Dated(s.written, s.procs) && Dated(s.got, s.procs)
    ensures CallOk(Next(s, Start(p, call)), p)
  {
    hide Of;
    NothingYet(s.written, s.procs, p, s.procs[p].calls + 1);
    NothingYet(s.got, s.procs, p, s.procs[p].calls + 1);
  }

  lemma CallRuns(s: Pipe, p: nat)
    requires Enabled(s, Run(p)) && CallOk(s, p)
    ensures |Next(s, Run(p)).procs| == |s.procs| && CallOk(Next(s, Run(p)), p)
  {
    hide Of, Tag;
    if s.procs[p].role.Writing? { WriteMoves(s, p); }
  }

  lemma CallNext(s: Pipe, e: Event, p: nat)
    requires Enabled(s, e) && p < |s.procs| && CallOk(s, p) && Dated(s.written, s.procs) && Dated(s.got, s.procs)
    ensures |Next(s, e).procs| == |s.procs| && CallOk(Next(s, e), p)
  {
    OthersNext(s, e, p);
    if e.Start? && e.p == p {
      CallStarted(s, p, e.call);
    } else if e.Run? && e.p == p {
      CallRuns(s, p);
    } else {
      hide Next, Of, Dated;
      MovesNext(s, e, p, s.procs[p].calls);
    }
  }

  /** What was true of a call when it returned stays so. */
  lemma EndedKept(s: Pipe, e: Event, d: Ended)
    requires Inv(s) && Enabled(s, e) && EndedOk(s, d)
    ensures EndedOk(Next(s, e), d)
  {
    OthersNext(s, e, d.p);
    MovesNext(s, e, d.p, d.call);
    RunEnds(s, e);
  }

  lemma EndedNew(s: Pipe, e: Event)
    requires Inv(s) && Enabled(s, e)
    ensures var r := Next(s, e);
            r.done == s.done || (e.Run? && r.procs[e.p].role.Idle? && exists d ::
              r.done == s.done + [d] && d.p == e.p && d.call == s.procs[e.p].calls && EndedOk(r, d))
  {
    var r := Next(s, e);
    if e.Run? && r.done != s.done {
      var d := r.done[|s.done|];
      assert CallOk(s, e.p);
      if s.procs[e.p].role.Writing? { WriteMoves(s, e.p); } else { ReadMoves(s, e.p); }
      assert r.done == s.done + [d] && EndedOk(r, d);
    }
  }

  /** A call is recorded when it returns. */
  lemma DoneNext(s: Pipe, e: Event)
    requires Enabled(s, e)
    ensures !e.Run? ==> Next(s, e).done == s.done
    ensures e.Run? ==>
              if Next(s, e).procs[e.p].role.Idle? then
                exists d :: Next(s, e).done == s.done + [d] && d.p == e.p && d.call == s.procs[e.p].calls
              else Next(s, e).done == s.done
  {
    hide Wakeup, Tag;
    if e.Run? && Next(s, e).procs[e.p].role.Idle? {
      var d := Next(s, e).done[|s.done|];
      assert Next(s, e).done == s.done + [d];
    }
  }

  lemma NumberedNext(s: Pipe, e: Event, p: nat)
    requires Enabled(s, e) && p < |s.procs| && Numbered(s, p)
    ensures |Next(s, e).procs| == |s.procs| && Numbered(Next(s, e), p)
  {
    OthersNext(s, e, p);
    DoneNext(s, e);
    StartRole(s, e);
    hide Next, Returned;
    var r, c := Next(s, e), s.procs[p].calls;
    if r.done != s.done {
      var d :| r.done == s.done + [d] && d.p == e.p && d.call == s.procs[e.p].calls;
      ReturnedOne(s.done, d, p);
      if p == e.p { assert UpTo(c - 1) + [c] == UpTo(c); }
    }
  }

  lemma InvNext(s: Pipe, e: Event)
    requires Inv(s) && Enabled(s, e)
    ensures Inv(Next(s, e))
  {
    ConservedNext(s, e);
    DatedNext(s, e);
    EndedNew(s, e);
    var r := Next(s, e);
    forall p | 0 <= p < |r.procs| ensures CallOk(r, p) && Numbered(r, p) {
      StartRole(s, e);
      CallNext(s, e, p);
      NumberedNext(s, e, p);
    }
    forall k | 0 <= k < |r.done| ensures EndedOk(r, r.done[k]) {
      if k < |s.done| { EndedKept(s, e, s.done[k]); }
    }
  }

  /** When a call returns. A read waits only on an empty pipe that can still be written; otherwise it takes the oldest
      bytes, as many as it asked for or all there are. A write returns its length when the rest of it fits beside what
      the pipe holds, and waits only if it does not fit, somebody can read, and it is not killed. */
  lemma CallReturns(s: Pipe, p: nat)
    requires Inv(s) && Enabled(s, Run(p))
    ensures var q, r := s.procs[p], Next(s, Run(p));
            var c := Of(r.got, p, q.calls);
            q.role.Reading? ==>
              && (r.procs[p].role.Idle? <==> s.buf != [] || !s.writeopen || q.killed)
              && c + r.buf == s.buf && |c| <= q.role.n
              && (s.buf != [] || !s.writeopen ==>
                    (|c| == q.role.n || r.buf == []) && r.done == s.done + [Ended(p, q.calls, Read(q.role.n), |c|)])
    ensures var q, r := s.procs[p], Next(s, Run(p));
            q.role.Writing? ==>
              var room := 512 - |s.buf|;
              && (r.procs[p].role.Idle? <==> |q.role.rest| <= room || !s.readopen || q.killed)
              && (|q.role.rest| > room ==> |r.buf| == 512)
              && (r.procs[p].role.Idle? ==>
                    var result := if |q.role.rest| <= room then |q.role.data| else -1;
                    r.done == s.done + [Ended(p, q.calls, Write(q.role.data), result)])
  {
    assert CallOk(s, p);
    hide Of, Tag, Wakeup;
    if s.procs[p].role.Writing? { WriteMoves(s, p); } else { ReadMoves(s, p); }
  }

  lemma RunEnds(s: Pipe, e: Event)
    requires Enabled(s, e)
    ensures (Next(s, e).readopen ==> s.readopen) && (Next(s, e).writeopen ==> s.writeopen)
    ensures e.Run? ==> Next(s, e).readopen == s.readopen && Next(s, e).writeopen == s.writeopen
  {
  }

  /** A killed writer leaves on a full pipe without waking the readers, though it has just put bytes in. */
  ghost predicate LeavesUnheard(s: Pipe, e: Event)
    requires Inv(s) && Enabled(s, e)
  {
    && e.Run? && s.procs[e.p].role.Writing? && s.procs[e.p].killed
    && 0 < Fits(s, s.procs[e.p].role.rest) < |s.procs[e.p].role.rest|
    && exists k :: 0 <= k < |s.procs| && s.procs[k].role.Reading? && s.procs[k].asleep
  }

  /** Wakeups are exactly enough, except that one case: then and only then is someone left asleep on a condition that
      has come true. */
  lemma QuietNext(s: Pipe, e: Event)
    requires Inv(s) && Quiet(s) && Enabled(s, e)
    ensures Quiet(Next(s, e)) <==> !LeavesUnheard(s, e)
  {
    var r := Next(s, e);
    if LeavesUnheard(s, e) {
      var k :| 0 <= k < |s.procs| && s.procs[k].role.Reading? && s.procs[k].asleep;
      assert r.procs[k] == s.procs[k] && !SleeperOk(r, r.procs[k]);
    } else {
      forall k | 0 <= k < |r.procs| ensures SleeperOk(r, r.procs[k]) { SleeperNext(s, e, k); }
    }
  }

  lemma SleeperNext(s: Pipe, e: Event, k: nat)
    requires Inv(s) && Quiet(s) && Enabled(s, e) && !LeavesUnheard(s, e) && k < |s.procs|
    ensures SleeperOk(Next(s, e), Next(s, e).procs[k])
  {
    var r := Next(s, e);
    assert SleeperOk(s, s.procs[k]);
    if e.Run? && s.procs[e.p].role.Writing? {
      var rest := s.procs[e.p].role.rest;
      if Fits(s, rest) == 0 { assert rest[..0] == [] && r.buf == s.buf; }
      assert s.procs[k].role.Reading? ==> Using(s, true);
    }
  }

  // ---------------------------------------------------------------- runs

  /** ss are the states of a run with events es. */
  ghost predicate IsRun(ss: seq<Pipe>, es: seq<Event>) {
    && |ss| == |es| + 1
    && forall i {:trigger StepAt(ss, es, i)} :: 0 <= i < |es| ==> StepAt(ss, es, i)
  }

  ghost predicate StepAt(ss: seq<Pipe>, es: seq<Event>, i: nat)
    requires i < |es| && |ss| == |es| + 1
  {
    Enabled(ss[i], es[i]) && ss[i + 1] == Next(ss[i], es[i])
  }

  ghost predicate Fresh(s: Pipe) {
    && s.buf == [] && s.written == [] && s.got == [] && s.done == [] && s.readopen && s.writeopen
    && forall k {:trigger s.procs[k]} :: 0 <= k < |s.procs| ==> s.procs[k] == Proc(Idle, false, false, 0)
  }

  lemma InvFacts(s: Pipe)
    requires Inv(s)
    ensures Bytes(s.written) == Bytes(s.got) + s.buf
    ensures forall p {:trigger s.procs[p]} :: 0 <= p < |s.procs| && s.procs[p].role.Writing? ==>
              Of(s.written, p, s.procs[p].calls) + s.procs[p].role.rest == s.procs[p].role.data
    ensures forall k {:trigger s.done[k]} :: 0 <= k < |s.done| && s.done[k].what.Write? ==>
              var d := s.done[k];
              && Of(s.written, d.p, d.call) <= d.what.data
              && (d.result != -1 ==> d.result == |d.what.data| && Of(s.written, d.p, d.call) == d.what.data)
  {
    forall p | 0 <= p < |s.procs| ensures CallOk(s, p) {}
    forall k | 0 <= k < |s.done| ensures EndedOk(s, s.done[k]) {}
  }

  lemma FreshInv(s: Pipe)
    requires Fresh(s)
    ensures Inv(s) && Quiet(s) && NoneKilled(s)
  {
    assert Bytes([]) == [] && UpTo(0) == [];
    forall p | 0 <= p < |s.procs| ensures CallOk(s, p) && Numbered(s, p) {}
  }

  ghost predicate NoKill(es: seq<Event>) {
    forall i {:trigger es[i]} :: 0 <= i < |es| ==> !es[i].Kill?
  }

  ghost predicate NoneKilled(s: Pipe) {
    forall k {:trigger s.procs[k]} :: 0 <= k < |s.procs| ==> !s.procs[k].killed
  }

  lemma NoneKilledNext(s: Pipe, e: Event)
    requires NoneKilled(s) && Enabled(s, e) && !e.Kill?
    ensures NoneKilled(Next(s, e))
  {
  }

  lemma NotUnheard(s: Pipe, e: Event)
    requires Inv(s) && Enabled(s, e) && NoneKilled(s)
    ensures !LeavesUnheard(s, e)
  {
  }

  /** In every run from a fresh pipe, what was written is what was read plus what the pipe holds, in order; what a
      writer has put in, followed by what it has left, is its argument; every call but the ones in progress returned
      once, a write of n bytes with n only if it put in all of them; and as long as no process is killed, nobody
      sleeps on a condition that holds. */
  lemma {:induction false} PipeRuns(ss: seq<Pipe>, es: seq<Event>, i: nat)
    requires IsRun(ss, es) && Fresh(ss[0]) && i <= |es|
    ensures Inv(ss[i])
    ensures Bytes(ss[i].written) == Bytes(ss[i].got) + ss[i].buf
    ensures forall p {:trigger ss[i].procs[p]} :: 0 <= p < |ss[i].procs| && ss[i].procs[p].role.Writing? ==>
              Of(ss[i].written, p, ss[i].procs[p].calls) + ss[i].procs[p].role.rest == ss[i].procs[p].role.data
    ensures forall k {:trigger ss[i].done[k]} :: 0 <= k < |ss[i].done| && ss[i].done[k].what.Write? ==>
              var d := ss[i].done[k];
              && Of(ss[i].written, d.p, d.call) <= d.what.data
              && (d.result != -1 ==> d.result == |d.what.data| && Of(ss[i].written, d.p, d.call) == d.what.data)
    ensures NoKill(es) ==> Quiet(ss[i]) && NoneKilled(ss[i])
    decreases i
  {
    hide Next, Enabled, Inv, Quiet, NoneKilled, Fresh;
    if i == 0 {
      FreshInv(ss[0]);
    } else {
      PipeRuns(ss, es, i - 1);
      assert StepAt(ss, es, i - 1);
      InvNext(ss[i - 1], es[i - 1]);
      if NoKill(es) {
        NoneKilledNext(ss[i - 1], es[i - 1]);
        NotUnheard(ss[i - 1], es[i - 1]);
        QuietNext(ss[i - 1], es[i - 1]);
      }
    }
    InvFacts(ss[i]);
  }

  /** Call c of process p is in progress, or has returned. */
  ghost predicate Concerns(s: Pipe, p: nat, c: nat, call: Call)
    requires p < |s.procs|
  {
    var q := s.procs[p];
    || (q.calls == c && match call
                        case Write(data) => q.role.Writing? && q.role.data == data
                        case Read(n) => q.role == Reading(n))
    || exists k :: 0 <= k < |s.done| && s.done[k].p == p && s.done[k].call == c && s.done[k].what == call
  }

  lemma ConcernsNext(s: Pipe, e: Event, p: nat, c: nat, call: Call)
    requires Enabled(s, e) && p < |s.procs| && Concerns(s, p, c, call)
    ensures |Next(s, e).procs| == |s.procs| && Concerns(Next(s, e), p, c, call)
  {
    OthersNext(s, e, p);
    var r := Next(s, e);
    if k :| 0 <= k < |s.done| && s.done[k].p == p && s.done[k].call == c && s.done[k].what == call {
      DoneNext(s, e);
      hide Next;
      assert r.done[k] == s.done[k];
    } else if e.Run? && e.p == p && r.procs[p].role.Idle? {
      assert r.done[|s.done|].p == p && r.done[|s.done|].call == c && r.done[|s.done|].what == call;
    }
  }

  /** In every run, a call that was made with an argument is in progress with that argument from then on, until it has
      returned. */
  lemma {:induction false} CallIsKept(ss: seq<Pipe>, es: seq<Event>, i: nat, j: nat)
    requires IsRun(ss, es) && i < j <= |es| && es[i].Start?
    ensures es[i].p < |ss[i].procs| == |ss[j].procs|
    ensures Concerns(ss[j], es[i].p, ss[i].procs[es[i].p].calls + 1, es[i].call)
    decreases j
  {
    hide Next, Enabled, Concerns;
    assert StepAt(ss, es, j - 1);
    if i == j - 1 {
      StartRole(ss[i], es[i]);
      StartConcerns(ss[i], es[i]);
    } else {
      CallIsKept(ss, es, i, j - 1);
      ConcernsNext(ss[j - 1], es[j - 1], es[i].p, ss[i].procs[es[i].p].calls + 1, es[i].call);
    }
  }

  lemma StartConcerns(s: Pipe, e: Event)
    requires Enabled(s, e) && e.Start?
    ensures e.p < |s.procs| == |Next(s, e).procs| && Concerns(Next(s, e), e.p, s.procs[e.p].calls + 1, e.call)
  {
    StartRole(s, e);
    hide Next;
  }

  /** With a kill, a reader can be left asleep beside a full pipe: it waits for a byte, a writer starts on more than the
      pipe holds, and is killed before it runs. */
  lemma KilledWriterStrandsReader() returns (ss: seq<Pipe>, es: seq<Event>)
    ensures IsRun(ss, es) && Fresh(ss[0]) && Inv(ss[|es|]) && !Quiet(ss[|es|]) && |ss[|es|].buf| == PIPESIZE
  {
    var idle := Proc(Idle, false, false, 0);
    var data: seq<byte> := seq(PIPESIZE + 1, _ => 0);
    var s0 := Pipe([], true, true, [idle, idle], [], [], []);
    es := [Start(0, Read(1)), Run(0), Start(1, Write(data)), Kill(1), Run(1)];
    var s1 := Next(s0, es[0]);
    var s2 := Next(s1, es[1]);
    var s3 := Next(s2, es[2]);
    var s4 := Next(s3, es[3]);
    var s5 := Next(s4, es[4]);
    ss := [s0, s1, s2, s3, s4, s5];
    assert s4.procs == [Proc(Reading(1), true, false, 1), Proc(Writing(data, data), false, true, 1)];
    assert s5.buf == data[..PIPESIZE] && s5.procs[0] == s4.procs[0];
    assert !SleeperOk(s5, s5.procs[0]);
    forall i | 0 <= i < |es| ensures StepAt(ss, es, i) {
      assert i == 0 || i == 1 || i == 2 || i == 3 || i == 4;
    }
    PipeRuns(ss, es, |es|);
  }
}
