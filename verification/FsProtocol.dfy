/** Request and reply between live clients and one file server: fs_ipc_call of sysfile.c against
    the loop of fsserver.c, over the mailboxes of proc.c.  Every slot but `srv` is a client; a step
    is one critical section of ptable.lock, and any runnable process may take the next one. */
module FsProtocol {
  import opened Prelude
  import opened ProcTable

  /** Where each process stands in its program.
      Client: Idle, Calling (about to enter ipc_send_msg), InSend (inside its loop), Await (inside
      ipc_recv_msg).  Server: Serve (inside recv), Serving (a request is being worked on), Gone. */
  datatype Pc =
    | Idle
    | Calling(m: Msg)
    | InSend(m: Msg)
    | Await(m: Msg)
    | Serve
    | Serving(req: Msg)
    | Gone

  /** A call that is over, with what it picked up; None if it was refused or interrupted. */
  datatype Ended = Ended(c: nat, req: Msg, reply: Option<Msg>)

  /** ended: every call that is over, oldest first. */
  datatype State = State(srv: nat, ps: Table, pc: seq<Pc>, nextId: int, ended: seq<Ended>)

  /** Call: a client takes a request id and starts fs_ipc_call.  Run: process i takes its next
      section; `body` is what the server answers, when it is the server's turn to. */
  datatype Event = Call(c: nat, m: Msg) | Run(i: nat, body: Msg)

  /** Requests that the server's loop answers; exit()'s notice is the one it does not. */
  predicate Answered(m: Msg) {
    m.kind != FS_CLIENT_EXIT
  }

  ghost predicate Shaped(s: State) {
    s.srv < |s.ps| == |s.pc|
  }

  ghost predicate Enabled(s: State, e: Event)
    requires Shaped(s)
  {
    match e
    case Call(c, m) => c < |s.ps| && c != s.srv && s.pc[c].Idle? && Answered(m)
    case Run(i, body) =>
      && i < |s.ps| && s.ps[i].state == RUNNABLE && !s.pc[i].Idle? && !s.pc[i].Gone?
      && 0 <= body.nbytes <= IPC_DATA_SIZE
  }

  function Reply(req: Msg, body: Msg): Msg {
    body.(kind := FS_REPLY, id := req.id)
  }

  /** The client's program counter after a send attempt. */
  function AfterSend(m: Msg, r: Sent): Pc {
    match r
    case Delivered => Await(m)
    case Refused => Idle
    case Blocked(_) => InSend(m)
  }

  function ClientStep(s: State, i: nat): (s': State)
    requires s.srv < |s.ps| == |s.pc| && i < |s.ps| && (s.pc[i].Calling? || s.pc[i].InSend? || s.pc[i].Await?)
  {
    match s.pc[i]
    case Calling(m) =>
      var (ps, r) := SendFirst(s.ps, i, s.ps[s.srv].pid, m);
      SentBy(s, i, m.(sender := s.ps[i].pid), ps, r)
    case InSend(m) =>
      var (ps, r) := SendPass(s.ps, i, s.srv, m);
      SentBy(s, i, m, ps, r)
    case Await(m) =>
      var (ps, r) := RecvPass(s.ps, i);
      if r.Waiting? then s.(ps := ps)
      else s.(ps := ps, pc := s.pc[i := Idle],
              ended := s.ended + [Ended(i, m, if r.Got? then Some(r.m) else None)])
  }

  /** Client i has tried to send m. */
  function SentBy(s: State, i: nat, m: Msg, ps: Table, r: Sent): (s': State)
    requires i < |s.pc|
  {
    s.(ps := ps, pc := s.pc[i := AfterSend(m, r)],
       ended := if r.Refused? then s.ended + [Ended(i, m, None)] else s.ended)
  }

  function ServerStep(s: State, i: nat, body: Msg): (s': State)
    requires i < |s.ps| == |s.pc| && (s.pc[i].Serve? || s.pc[i].Serving?)
  {
    match s.pc[i]
    case Serve =>
      var (ps, r) := RecvPass(s.ps, i);
      s.(ps := ps, pc := s.pc[i := if r.Got? then Serving(r.m) else Serve])
    case Serving(req) =>
      var (ps, r) := SendFirst(s.ps, i, req.sender, Reply(req, body));
      s.(ps := ps,
         pc := s.pc[i := if r.Blocked? then Serving(req) else if req.kind == FS_SHUTDOWN then Gone else Serve])
  }

  function Next(s: State, e: Event): (s': State)
    requires Shaped(s) && Enabled(s, e)
  {
    match e
    case Call(c, m) => s.(pc := s.pc[c := Calling(m.(id := s.nextId))], nextId := s.nextId + 1)
    case Run(i, body) => if s.pc[i].Serve? || s.pc[i].Serving? then ServerStep(s, i, body) else ClientStep(s, i)
  }

  // ---------------------------------------------------------------- where the token is

  /** The request waits in the server's mailbox. */
  ghost predicate InBox(s: State, c: nat)
    requires Shaped(s) && c < |s.ps|
  {
    s.ps[s.srv].hasMsg && s.ps[s.srv].mailbox.sender == s.ps[c].pid
  }

  /** The server is working on the request. */
  ghost predicate InServer(s: State, c: nat)
    requires Shaped(s) && c < |s.ps|
  {
    s.pc[s.srv].Serving? && s.pc[s.srv].req.sender == s.ps[c].pid
  }

  /** The reply waits in the client's mailbox. */
  ghost predicate InReply(s: State, c: nat)
    requires Shaped(s) && c < |s.ps|
  {
    s.ps[c].hasMsg
  }

  /** A client whose request was sent has it, or the answer, in exactly one place, under the call's id;
      any other client has nothing anywhere; and whoever sleeps has reason to. */
  ghost predicate ClientOk(s: State, c: nat)
    requires Shaped(s) && c < |s.ps|
  {
    var p, pc := s.ps[c], s.pc[c];
    && (pc.Idle? || pc.Calling? || pc.InSend? || pc.Await?)
    && (pc.Calling? ==> Answered(pc.m))
    && (pc.InSend? ==> Answered(pc.m) && ValidMsg(pc.m) && pc.m.sender == p.pid)
    && (!pc.Await? ==> !InBox(s, c) && !InServer(s, c) && !InReply(s, c))
    && (pc.Await? ==>
          && (InBox(s, c) || InServer(s, c) || InReply(s, c))
          && !(InBox(s, c) && InServer(s, c)) && !(InBox(s, c) && InReply(s, c)) && !(InServer(s, c) && InReply(s, c))
          && (InBox(s, c) ==> s.ps[s.srv].mailbox == pc.m)
          && (InServer(s, c) ==> s.pc[s.srv].req == pc.m)
          && (InReply(s, c) ==> p.mailbox.kind == FS_REPLY && p.mailbox.id == pc.m.id))
    && (p.state == SLEEPING ==>
          || (pc.InSend? && p.chan == OnMail(s.srv) && s.ps[s.srv].hasMsg)
          || (pc.Await? && p.chan == OnProc(c) && !p.hasMsg))
  }

  ghost predicate FromClient(s: State, m: Msg)
    requires Shaped(s)
  {
    Answered(m) && exists c :: 0 <= c < |s.ps| && c != s.srv && s.ps[c].pid == m.sender
  }

  ghost predicate ServerOk(s: State)
    requires Shaped(s)
  {
    var p, pc := s.ps[s.srv], s.pc[s.srv];
    && (pc.Serve? || pc.Serving? || pc.Gone?)
    && (p.hasMsg ==> FromClient(s, p.mailbox))
    && (pc.Serving? ==> FromClient(s, pc.req))
    && (p.state == SLEEPING ==> pc.Serve? && p.chan == OnProc(s.srv) && !p.hasMsg)
  }

  ghost predicate LiveTable(s: State) {
    && (forall i :: 0 <= i < |s.ps| ==> !s.ps[i].killed && (s.ps[i].state == RUNNABLE || s.ps[i].state == SLEEPING))
    && (forall i, j :: 0 <= i < |s.ps| && 0 <= j < |s.ps| && i != j ==> s.ps[i].pid != s.ps[j].pid)
  }

  /** A call for an OPEN, READ, WRITE, CLOSE or SHUTDOWN is over only when it has its reply. */
  ghost predicate EndedOk(d: Ended) {
    IsRequest(d.req) || (d.req.kind == 101 && 0 <= d.req.nbytes <= 128) ==>
      d.reply.Some? && d.reply.value.kind == 100 && d.reply.value.id == d.req.id
  }

  ghost predicate Inv(s: State) {
    && Shaped(s) && LiveTable(s) && ServerOk(s)
    && (forall k :: 0 <= k < |s.ended| ==> EndedOk(s.ended[k]))
    && (forall c :: 0 <= c < |s.ps| && c != s.srv ==> ClientOk(s, c))
  }

  ghost predicate Init(s: State) {
    && Shaped(s) && LiveTable(s)
    && (forall i :: 0 <= i < |s.ps| ==> s.ps[i].state == RUNNABLE && !s.ps[i].hasMsg)
    && (forall i :: 0 <= i < |s.ps| ==> s.pc[i] == if i == s.srv then Serve else Idle)
    && s.ended == []
  }

  lemma InitInv(s: State)
    requires Init(s)
    ensures Inv(s)
  {
  }

  lemma FindSlot(ps: Table, i: nat)
    requires i < |ps|
    requires forall a, b :: 0 <= a < |ps| && 0 <= b < |ps| && a != b ==> ps[a].pid != ps[b].pid
    ensures FindPid(ps, ps[i].pid, 0) == i
  {
  }

  /** Among live processes, ipc_send_msg finds its target and goes straight to its loop. */
  lemma SendFirstIsPass(s: State, me: nat, t: nat, m: Msg)
    requires LiveTable(s) && me < |s.ps| && t < |s.ps|
    ensures var m' := m.(sender := s.ps[me].pid);
            SendFirst(s.ps, me, s.ps[t].pid, m) == if ValidMsg(m') then SendPass(s.ps, me, t, m') else (s.ps, Refused)
  {
    FindSlot(s.ps, t);
  }

  lemma FromClientKept(s: State, s': State, m: Msg)
    requires Shaped(s) && Shaped(s') && s'.srv == s.srv && |s'.ps| == |s.ps|
    requires forall i :: 0 <= i < |s.ps| ==> s'.ps[i].pid == s.ps[i].pid
    ensures FromClient(s, m) ==> FromClient(s', m)
  {
    if FromClient(s, m) {
      var c :| 0 <= c < |s.ps| && c != s.srv && s.ps[c].pid == m.sender;
      assert s'.ps[c].pid == m.sender;
    }
  }

  /** The server's two messages still come from clients. */
  lemma ServerFromClients(s: State, s': State)
    requires Shaped(s) && Shaped(s') && s'.srv == s.srv && |s'.ps| == |s.ps|
    requires forall i :: 0 <= i < |s.ps| ==> s'.ps[i].pid == s.ps[i].pid
    ensures FromClient(s, s.ps[s.srv].mailbox) ==> FromClient(s', s.ps[s.srv].mailbox)
    ensures s.pc[s.srv].Serving? && FromClient(s, s.pc[s.srv].req) ==> FromClient(s', s.pc[s.srv].req)
  {
    FromClientKept(s, s', s.ps[s.srv].mailbox);
    if s.pc[s.srv].Serving? { FromClientKept(s, s', s.pc[s.srv].req); }
  }

  lemma InvCall(s: State, c: nat, m: Msg)
    requires Inv(s) && Enabled(s, Call(c, m))
    ensures Inv(Next(s, Call(c, m)))
  {
    var s' := Next(s, Call(c, m));
    ServerFromClients(s, s');
    forall d | 0 <= d < |s.ps| && d != s.srv ensures ClientOk(s', d) { assert ClientOk(s, d); }
  }

  /** A send attempt of client c, from outside or inside the loop of ipc_send_msg. */
  lemma InvSend(s: State, c: nat, m: Msg)
    requires Inv(s) && c < |s.ps| && c != s.srv && s.ps[c].state == RUNNABLE
    requires s.pc[c].Calling? || s.pc[c].InSend?
    requires Answered(m) && ValidMsg(m) && m.sender == s.ps[c].pid
    ensures var (ps, r) := SendPass(s.ps, c, s.srv, m);
            Inv(SentBy(s, c, m, ps, r)) && !r.Refused?
  {
    var (ps, r) := SendPass(s.ps, c, s.srv, m);
    var s' := SentBy(s, c, m, ps, r);
    assert ClientOk(s, c);
    ServerFromClients(s, s');
    forall d | 0 <= d < |s.ps| && d != s.srv ensures ClientOk(s', d) { assert ClientOk(s, d); }
    if r.Delivered? { assert s'.ps[c].pid == m.sender && FromClient(s', m); }
  }

  /** A pass of client c through the loop of ipc_recv_msg. */
  lemma InvTake(s: State, c: nat)
    requires Inv(s) && c < |s.ps| && c != s.srv && s.ps[c].state == RUNNABLE && s.pc[c].Await?
    ensures Inv(ClientStep(s, c))
  {
    var s' := ClientStep(s, c);
    assert ClientOk(s, c);
    ServerFromClients(s, s');
    forall d | 0 <= d < |s.ps| && d != s.srv ensures ClientOk(s', d) { assert ClientOk(s, d); }
  }

  /** A pass of the server through recv. */
  lemma InvAccept(s: State, body: Msg)
    requires Inv(s) && s.pc[s.srv].Serve? && s.ps[s.srv].state == RUNNABLE
    ensures Inv(ServerStep(s, s.srv, body))
  {
    var s' := ServerStep(s, s.srv, body);
    ServerFromClients(s, s');
    forall d | 0 <= d < |s.ps| && d != s.srv ensures ClientOk(s', d) { assert ClientOk(s, d); }
  }

  /** The server's reply goes straight into the client's mailbox. */
  lemma ReplyIsDelivered(s: State, body: Msg)
    requires Inv(s) && s.pc[s.srv].Serving? && 0 <= body.nbytes <= IPC_DATA_SIZE
    ensures var req := s.pc[s.srv].req;
            SendFirst(s.ps, s.srv, req.sender, Reply(req, body)).1 == Delivered
    ensures var req := s.pc[s.srv].req;
            exists c :: 0 <= c < |s.ps| && c != s.srv && s.ps[c].pid == req.sender && s.pc[c] == Await(req)
  {
    var req := s.pc[s.srv].req;
    var c :| 0 <= c < |s.ps| && c != s.srv && s.ps[c].pid == req.sender;
    assert ClientOk(s, c);
    SendFirstIsPass(s, s.srv, c, Reply(req, body));
  }

  /** The state after the reply m to client c, who is waiting for it. */
  function Answer(s: State, c: nat, m: Msg, pc: Pc): (s': State)
    requires s.srv < |s.ps| == |s.pc| && c < |s.ps|
  {
    s.(ps := Woken(s.ps[c := s.ps[c].(mailbox := m, hasMsg := true)], OnProc(c)), pc := s.pc[s.srv := pc])
  }

  lemma InvAnswer(s: State, c: nat, m: Msg, pc: Pc)
    requires Inv(s) && c < |s.ps| && c != s.srv && s.pc[s.srv].Serving? && s.ps[s.srv].state == RUNNABLE
    requires s.pc[s.srv].req.sender == s.ps[c].pid && m.kind == FS_REPLY && m.id == s.pc[s.srv].req.id
    requires pc.Serve? || pc.Gone?
    ensures Inv(Answer(s, c, m, pc))
  {
    var s' := Answer(s, c, m, pc);
    assert ClientOk(s, c);
    ServerFromClients(s, s');
    forall d | 0 <= d < |s.ps| && d != s.srv ensures ClientOk(s', d) { assert ClientOk(s, d); }
  }

  lemma InvReply(s: State, body: Msg)
    requires Inv(s) && s.pc[s.srv].Serving? && s.ps[s.srv].state == RUNNABLE && 0 <= body.nbytes <= IPC_DATA_SIZE
    ensures Inv(ServerStep(s, s.srv, body))
  {
    var req := s.pc[s.srv].req;
    var c :| 0 <= c < |s.ps| && c != s.srv && s.ps[c].pid == req.sender;
    assert ClientOk(s, c);
    SendFirstIsPass(s, s.srv, c, Reply(req, body));
    var m := Reply(req, body).(sender := s.ps[s.srv].pid);
    var pc := if req.kind == FS_SHUTDOWN then Gone else Serve;
    InvAnswer(s, c, m, pc);
    assert ServerStep(s, s.srv, body) == Answer(s, c, m, pc);
  }

  lemma InvNext(s: State, e: Event)
    requires Inv(s) && Enabled(s, e)
    ensures Inv(Next(s, e))
  {
    match e
    case Call(c, m) => InvCall(s, c, m);
    case Run(i, body) =>
      if i == s.srv {
        if s.pc[i].Serve? { InvAccept(s, body); } else { InvReply(s, body); }
      } else {
        assert ClientOk(s, i);
        if s.pc[i].Await? {
          InvTake(s, i);
        } else if s.pc[i].InSend? {
          InvSend(s, i, s.pc[i].m);
        } else {
          InvFirstSend(s, i);
        }
      }
  }

  lemma InvFirstSend(s: State, c: nat)
    requires Inv(s) && c < |s.ps| && c != s.srv && s.ps[c].state == RUNNABLE && s.pc[c].Calling?
    ensures Inv(ClientStep(s, c))
  {
    assert ClientOk(s, c);
    var m := s.pc[c].m.(sender := s.ps[c].pid);
    SendFirstIsPass(s, c, s.srv, s.pc[c].m);
    if ValidMsg(m) {
      InvSend(s, c, m);
    } else {
      Sendable(m);
      var s' := ClientStep(s, c);
      ServerFromClients(s, s');
      forall d | 0 <= d < |s.ps| && d != s.srv ensures ClientOk(s', d) { assert ClientOk(s, d); }
    }
  }

  // ---------------------------------------------------------------- every run

  ghost predicate StepAt(es: seq<Event>, ss: seq<State>, i: nat)
    requires i < |es| && |ss| == |es| + 1
  {
    Shaped(ss[i]) && Enabled(ss[i], es[i]) && ss[i + 1] == Next(ss[i], es[i])
  }

  ghost predicate IsRun(es: seq<Event>, ss: seq<State>) {
    |ss| == |es| + 1 && forall i :: 0 <= i < |es| ==> StepAt(es, ss, i)
  }

  /** Some interleaving leads from an initial state to s. */
  ghost predicate Reachable(s: State) {
    Shaped(s) && exists es, ss :: IsRun(es, ss) && Init(ss[0]) && ss[|es|] == s
  }

  lemma {:induction false} InvRun(es: seq<Event>, ss: seq<State>, n: nat)
    requires IsRun(es, ss) && n <= |es| && Inv(ss[0])
    ensures Inv(ss[n])
  {
    if n > 0 {
      InvRun(es, ss, n - 1);
      assert StepAt(es, ss, n - 1);
      InvNext(ss[n - 1], es[n - 1]);
    }
  }

  lemma ReachableInv(s: State)
    requires Reachable(s)
    ensures Inv(s)
  {
    var es, ss :| IsRun(es, ss) && Init(ss[0]) && ss[|es|] == s;
    InitInv(ss[0]);
    InvRun(es, ss, |es|);
  }

  function One(b: bool): nat {
    if b then 1 else 0
  }

  /** In how many places the call of client c is: blocked or about to send, in the server's mailbox,
      with the server, in the client's own mailbox. */
  ghost function Places(s: State, c: nat): nat
    requires Shaped(s) && c < |s.ps|
  {
    One(s.pc[c].Calling? || s.pc[c].InSend?) + One(InBox(s, c)) + One(InServer(s, c)) + One(InReply(s, c))
  }

  /** An outstanding call is in exactly one place, and a client without a call is in none. */
  lemma SingleToken(s: State, c: nat)
    requires Reachable(s) && c < |s.ps| && c != s.srv
    ensures Places(s, c) == One(!s.pc[c].Idle?)
  {
    ReachableInv(s);
    assert ClientOk(s, c);
  }

  /** Whatever a client picks up is the reply to the request it is waiting for. */
  lemma ReplyMatches(s: State, c: nat)
    requires Reachable(s) && c < |s.ps| && c != s.srv && s.pc[c].Await? && RecvPass(s.ps, c).1.Got?
    ensures var m := RecvPass(s.ps, c).1.m; m.kind == FS_REPLY && m.id == s.pc[c].m.id
  {
    ReachableInv(s);
    assert ClientOk(s, c);
  }

  /** In every reachable state, every call for an OPEN, READ, WRITE or CLOSE that is over picked up a reply, with the id
      of its request: none was refused, and none interrupted. */
  lemma OnlyRepliesEndCalls(s: State, k: nat)
    requires Reachable(s) && k < |s.ended| && IsRequest(s.ended[k].req)
    ensures s.ended[k].reply.Some? && s.ended[k].reply.value.kind == 100
    ensures s.ended[k].reply.value.id == s.ended[k].req.id
  {
    ReachableInv(s);
    assert EndedOk(s.ended[k]);
  }

  /** The server's send never finds a full mailbox. */
  lemma ServerNeverBlocks(s: State, body: Msg)
    requires Reachable(s) && s.pc[s.srv].Serving? && 0 <= body.nbytes <= IPC_DATA_SIZE
    ensures SendFirst(s.ps, s.srv, s.pc[s.srv].req.sender, Reply(s.pc[s.srv].req, body)).1 == Delivered
  {
    ReachableInv(s);
    ReplyIsDelivered(s, body);
  }

  /** While a call is outstanding and the server has not exited, some process can take a step. */
  lemma SomeStepEnabled(s: State, c: nat, body: Msg)
    requires Inv(s) && c < |s.ps| && c != s.srv && !s.pc[c].Idle? && !s.pc[s.srv].Gone?
    requires 0 <= body.nbytes <= IPC_DATA_SIZE
    ensures exists i :: Enabled(s, Run(i, body))
  {
    assert ClientOk(s, c);
    if s.ps[c].state == RUNNABLE {
      assert Enabled(s, Run(c, body));
    } else {
      assert Enabled(s, Run(s.srv, body));
    }
  }

  // ---------------------------------------------------------------- ids, and the end of the server

  /** The message that client c is calling with. */
  ghost predicate Calls(s: State, c: nat)
    requires Shaped(s) && c < |s.ps|
  {
    s.pc[c].Calling? || s.pc[c].InSend? || s.pc[c].Await?
  }

  /** No two calls, over or not, have the same id, and the next one has not been given out. */
  ghost predicate IdsOk(s: State)
    requires Shaped(s)
  {
    && (forall c: nat :: c < |s.ps| && Calls(s, c) ==> s.pc[c].m.id < s.nextId)
    && (forall k :: 0 <= k < |s.ended| ==> s.ended[k].req.id < s.nextId)
    && (forall c: nat, d: nat :: c < d < |s.ps| && Calls(s, c) && Calls(s, d) ==> s.pc[c].m.id != s.pc[d].m.id)
    && (forall k, l :: 0 <= k < l < |s.ended| ==> s.ended[k].req.id != s.ended[l].req.id)
    && (forall c: nat, k :: c < |s.ps| && Calls(s, c) && 0 <= k < |s.ended| ==> s.pc[c].m.id != s.ended[k].req.id)
  }

  /** A call starts with the next id and otherwise with what the client asks for. */
  lemma CallStarts(s: State, c: nat, m: Msg)
    requires Shaped(s) && Enabled(s, Call(c, m))
    ensures var s' := Next(s, Call(c, m));
            && s'.nextId == s.nextId + 1 && s'.ps == s.ps && s'.ended == s.ended && |s'.pc| == |s.pc|
            && s'.pc[c] == Calling(Msg(m.sender, s.nextId, m.kind, m.nbytes, m.payload))
            && forall d :: 0 <= d < |s.pc| && d != c ==> s'.pc[d] == s.pc[d]
  {
  }

  /** A section moves nobody but the process that runs it, and a call to its end or not at all. */
  lemma RunMoves(s: State, i: nat, body: Msg)
    requires Inv(s) && Enabled(s, Run(i, body))
    ensures var s' := Next(s, Run(i, body));
            && s'.nextId == s.nextId && s'.srv == s.srv && |s'.ps| == |s.ps| && |s'.pc| == |s.pc|
            && (forall d :: 0 <= d < |s.pc| && d != i ==> s'.pc[d] == s.pc[d])
            && (i == s.srv ==> s'.ended == s.ended && !Calls(s', i))
            && (i != s.srv ==>
                  && Calls(s, i)
                  && if s'.ended == s.ended then
                       Calls(s', i) && s'.pc[i].m.id == s.pc[i].m.id && s'.pc[i].m.kind == s.pc[i].m.kind
                     else
                       && s'.pc[i].Idle? && |s'.ended| == |s.ended| + 1 && s'.ended[..|s.ended|] == s.ended
                       && s'.ended[|s.ended|].req.id == s.pc[i].m.id)
  {
    hide SendPass;
    if i != s.srv { ServerPcOnly(s, i); } else { ServerStays(s, body); }
  }

  lemma ServerStays(s: State, body: Msg)
    requires Inv(s) && (s.pc[s.srv].Serve? || s.pc[s.srv].Serving?)
    ensures var s' := ServerStep(s, s.srv, body);
            Shaped(s') && s'.ended == s.ended && !Calls(s', s.srv) && s'.nextId == s.nextId && s'.srv == s.srv
  {
    hide SendFirst;
  }

  lemma IdsCall(s: State, c: nat, m: Msg)
    requires Inv(s) && IdsOk(s) && Enabled(s, Call(c, m))
    ensures Shaped(Next(s, Call(c, m))) && IdsOk(Next(s, Call(c, m)))
  {
    InvCall(s, c, m);
    CallStarts(s, c, m);
    hide Inv, Next, Enabled;
  }

  lemma IdsMove(s: State, i: nat, body: Msg)
    requires Inv(s) && IdsOk(s) && Enabled(s, Run(i, body))
    ensures Shaped(Next(s, Run(i, body))) && IdsOk(Next(s, Run(i, body)))
  {
    InvNext(s, Run(i, body));
    RunMoves(s, i, body);
    hide Inv, Next, Enabled;
    var s' := Next(s, Run(i, body));
    if s'.ended != s.ended {
      forall k | 0 <= k < |s.ended| ensures s'.ended[k] == s.ended[k] { assert s'.ended[..|s.ended|][k] == s.ended[k]; }
    }
  }

  lemma IdsNext(s: State, e: Event)
    requires Inv(s) && IdsOk(s) && Enabled(s, e)
    ensures Shaped(Next(s, e)) && IdsOk(Next(s, e))
  {
    hide Inv, Next, Enabled, IdsOk;
    if e.Call? { IdsCall(s, e.c, e.m); } else { IdsMove(s, e.i, e.body); }
  }

  lemma {:induction false} IdsRun(es: seq<Event>, ss: seq<State>, n: nat)
    requires IsRun(es, ss) && n <= |es| && Init(ss[0])
    ensures Inv(ss[n]) && IdsOk(ss[n])
  {
    if n == 0 {
      InitInv(ss[0]);
    } else {
      hide Inv, Next, Enabled, IdsOk;
      IdsRun(es, ss, n - 1);
      assert StepAt(es, ss, n - 1);
      InvNext(ss[n - 1], es[n - 1]);
      IdsNext(ss[n - 1], es[n - 1]);
    }
  }

  /** In every reachable state, calls have ids of their own. */
  lemma IdsAreUnique(s: State)
    requires Reachable(s)
    ensures IdsOk(s)
  {
    var es, ss :| IsRun(es, ss) && Init(ss[0]) && ss[|es|] == s;
    IdsRun(es, ss, |es|);
  }

  /** Nobody is in a call for a SHUTDOWN, and the server has not exited. */
  ghost predicate NoShutdown(s: State)
    requires Shaped(s)
  {
    !s.pc[s.srv].Gone? && forall c: nat :: c < |s.ps| && Calls(s, c) ==> s.pc[c].m.kind != 101
  }

  /** The server exits only for a SHUTDOWN that a client asked for. */
  lemma OnlyShutdownEndsServer(s: State, e: Event)
    requires Inv(s) && NoShutdown(s) && Enabled(s, e) && (e.Call? ==> e.m.kind != 101)
    ensures Shaped(Next(s, e)) && NoShutdown(Next(s, e))
  {
    InvNext(s, e);
    if e.Call? { CallStarts(s, e.c, e.m); }
    else {
      RunMoves(s, e.i, e.body);
      if e.i == s.srv && s.pc[s.srv].Serving? { ServerWorksForClient(s); }
    }
  }

  lemma ServerWorksForClient(s: State)
    requires Inv(s) && s.pc[s.srv].Serving?
    ensures exists c: nat :: c < |s.ps| && Calls(s, c) && s.pc[c].m == s.pc[s.srv].req
  {
    var req := s.pc[s.srv].req;
    var c :| 0 <= c < |s.ps| && c != s.srv && s.ps[c].pid == req.sender;
    assert ClientOk(s, c);
    assert Calls(s, c);
  }

  /** If nobody asks for a SHUTDOWN, the server does not exit in any run. */
  lemma {:induction false} ServerStaysUp(es: seq<Event>, ss: seq<State>, n: nat)
    requires IsRun(es, ss) && n <= |es| && Inv(ss[0]) && NoShutdown(ss[0])
    requires forall i :: 0 <= i < |es| ==> es[i].Call? ==> es[i].m.kind != 101
    ensures Inv(ss[n]) && NoShutdown(ss[n])
    decreases n
  {
    hide Inv, Next, Enabled, NoShutdown;
    if n > 0 {
      ServerStaysUp(es, ss, n - 1);
      assert StepAt(es, ss, n - 1);
      InvNext(ss[n - 1], es[n - 1]);
      OnlyShutdownEndsServer(ss[n - 1], es[n - 1]);
    }
  }

  // ---------------------------------------------------------------- every call completes

  /** The same message, but for the sender's pid, which the kernel fills in. */
  predicate Same(m: Msg, m': Msg) {
    m' == m.(sender := m'.sender)
  }

  /** Client c is in a call for m. */
  ghost predicate InCall(s: State, c: nat, m: Msg)
    requires Shaped(s) && c < |s.ps|
  {
    (s.pc[c].Calling? || s.pc[c].InSend? || s.pc[c].Await?) && Same(m, s.pc[c].m)
  }

  /** Client c has been in a call for m, which was over after the first n calls were. */
  ghost predicate Over(s: State, c: nat, m: Msg, n: nat) {
    exists k :: n <= k < |s.ended| && s.ended[k].c == c && Same(m, s.ended[k].req) && EndedOk(s.ended[k])
  }

  lemma NotLost(s: State, e: Event, c: nat, m: Msg, n: nat)
    requires Inv(s) && Enabled(s, e) && c < |s.ps| && c != s.srv && n <= |s.ended|
    requires InCall(s, c, m) || Over(s, c, m, n)
    ensures var s' := Next(s, e);
            && Shaped(s') && |s'.ps| == |s.ps| && s'.srv == s.srv && |s.ended| <= |s'.ended|
            && (InCall(s', c, m) || Over(s', c, m, n))
  {
    InvNext(s, e);
    var s' := Next(s, e);
    assert s.ended <= s'.ended;
    if Over(s, c, m, n) {
      var k :| n <= k < |s.ended| && s.ended[k].c == c && Same(m, s.ended[k].req) && EndedOk(s.ended[k]);
      assert s'.ended[k] == s.ended[k];
    } else if !InCall(s', c, m) {
      var k := |s.ended|;
      assert s'.ended[k].c == c && Same(m, s'.ended[k].req) && EndedOk(s'.ended[k]);
    }
  }

  /** A call that is outstanding at the start of a run is still outstanding, or has ended by then. */
  lemma {:induction false} NoCallIsLost(es: seq<Event>, ss: seq<State>, n: nat, c: nat, m: Msg)
    requires IsRun(es, ss) && n <= |es| && Inv(ss[0]) && c < |ss[0].ps| && c != ss[0].srv && InCall(ss[0], c, m)
    ensures Inv(ss[n]) && |ss[n].ps| == |ss[0].ps| && ss[n].srv == ss[0].srv && |ss[0].ended| <= |ss[n].ended|
    ensures InCall(ss[n], c, m) || Over(ss[n], c, m, |ss[0].ended|)
    decreases n
  {
    hide Inv, Next, Enabled, InCall, Over;
    if n > 0 {
      NoCallIsLost(es, ss, n - 1, c, m);
      assert StepAt(es, ss, n - 1);
      InvNext(ss[n - 1], es[n - 1]);
      NotLost(ss[n - 1], es[n - 1], c, m, |ss[0].ended|);
    }
  }

  /** How far a client is from having its answer. */
  ghost function Stage(s: State, c: nat): nat
    requires Shaped(s) && c < |s.ps|
  {
    if c == s.srv || s.pc[c].Idle? then 0
    else if s.pc[c].Calling? || s.pc[c].InSend? then 4
    else if InBox(s, c) then 3
    else if InServer(s, c) then 2
    else 1
  }

  ghost function StageSum(s: State, n: nat): nat
    requires Shaped(s) && n <= |s.ps|
  {
    if n == 0 then 0 else StageSum(s, n - 1) + Stage(s, n - 1)
  }

  ghost function ReadyCount(s: State, n: nat): (r: nat)
    requires n <= |s.ps|
    ensures r <= n
  {
    if n == 0 then 0 else ReadyCount(s, n - 1) + One(s.ps[n - 1].state == RUNNABLE)
  }

  /** An upper bound on the sections that processes can still run without a new call. */
  ghost function Work(s: State): nat
    requires Shaped(s)
  {
    StageSum(s, |s.ps|) * (|s.ps| + 1) + ReadyCount(s, |s.ps|)
  }

  /** Client d is one stage further; the others are where they were. */
  ghost predicate Advances(s: State, s': State, d: nat)
    requires Shaped(s) && Shaped(s') && |s'.ps| == |s.ps|
  {
    && d < |s.ps| && Stage(s', d) < Stage(s, d)
    && forall c :: 0 <= c < |s.ps| && c != d ==> Stage(s', c) == Stage(s, c)
  }

  /** Process i went to sleep; nothing else happened. */
  ghost predicate GoesToSleep(s: State, s': State, i: nat)
    requires Shaped(s) && Shaped(s') && |s'.ps| == |s.ps|
  {
    && i < |s.ps| && s.ps[i].state == RUNNABLE && s'.ps[i].state == SLEEPING
    && (forall c :: 0 <= c < |s.ps| && c != i ==> s'.ps[c] == s.ps[c])
    && forall c :: 0 <= c < |s.ps| ==> Stage(s', c) == Stage(s, c)
  }

  lemma {:induction false} AdvanceLowersSum(s: State, s': State, d: nat, n: nat)
    requires Shaped(s) && Shaped(s') && |s'.ps| == |s.ps| && n <= |s.ps| && Advances(s, s', d)
    ensures StageSum(s', n) + One(d < n) <= StageSum(s, n)
  {
    if n > 0 { AdvanceLowersSum(s, s', d, n - 1); }
  }

  lemma {:induction false} SleepLowersReady(s: State, s': State, i: nat, n: nat)
    requires Shaped(s) && Shaped(s') && |s'.ps| == |s.ps| && n <= |s.ps| && GoesToSleep(s, s', i)
    ensures StageSum(s', n) == StageSum(s, n)
    ensures ReadyCount(s', n) + One(i < n) == ReadyCount(s, n)
  {
    if n > 0 { SleepLowersReady(s, s', i, n - 1); }
  }

  lemma SendAdvances(s: State, c: nat, m: Msg)
    requires Inv(s) && c < |s.ps| && c != s.srv && s.ps[c].state == RUNNABLE
    requires s.pc[c].Calling? || s.pc[c].InSend?
    requires Answered(m) && ValidMsg(m) && m.sender == s.ps[c].pid
    ensures var (ps, r) := SendPass(s.ps, c, s.srv, m);
            var s' := SentBy(s, c, m, ps, r);
            Advances(s, s', c) || GoesToSleep(s, s', c)
  {
    assert ClientOk(s, c);
    var (ps, r) := SendPass(s.ps, c, s.srv, m);
    var s' := SentBy(s, c, m, ps, r);
    forall d | 0 <= d < |s.ps| && d != c ensures Stage(s', d) == Stage(s, d) {
      if d != s.srv { assert ClientOk(s, d); }
    }
  }

  lemma ClientAdvances(s: State, c: nat)
    requires Inv(s) && c < |s.ps| && c != s.srv && s.ps[c].state == RUNNABLE
    requires s.pc[c].Calling? || s.pc[c].InSend? || s.pc[c].Await?
    ensures var s' := ClientStep(s, c); Shaped(s') && |s'.ps| == |s.ps| && (Advances(s, s', c) || GoesToSleep(s, s', c))
  {
    assert ClientOk(s, c);
    if s.pc[c].InSend? {
      SendAdvances(s, c, s.pc[c].m);
    } else if s.pc[c].Calling? {
      SendFirstIsPass(s, c, s.srv, s.pc[c].m);
      var m := s.pc[c].m.(sender := s.ps[c].pid);
      if ValidMsg(m) { SendAdvances(s, c, m); }
    } else {
      var s' := ClientStep(s, c);
      forall d | 0 <= d < |s.ps| && d != c ensures Stage(s', d) == Stage(s, d) {
        if d != s.srv { assert ClientOk(s, d); }
      }
    }
  }

  lemma AcceptAdvances(s: State, body: Msg) returns (d: nat)
    requires Inv(s) && s.pc[s.srv].Serve? && s.ps[s.srv].state == RUNNABLE
    ensures var s' := ServerStep(s, s.srv, body);
            Shaped(s') && |s'.ps| == |s.ps| && (Advances(s, s', d) || GoesToSleep(s, s', d))
  {
    var s' := ServerStep(s, s.srv, body);
    if s.ps[s.srv].hasMsg {
      d :| 0 <= d < |s.ps| && d != s.srv && s.ps[d].pid == s.ps[s.srv].mailbox.sender;
      assert ClientOk(s, d);
    } else {
      d := s.srv;
    }
    forall c | 0 <= c < |s.ps| && c != d ensures Stage(s', c) == Stage(s, c) {
      if c != s.srv { assert ClientOk(s, c); }
    }
  }

  lemma ReplyAdvances(s: State, body: Msg) returns (d: nat)
    requires Inv(s) && s.pc[s.srv].Serving? && s.ps[s.srv].state == RUNNABLE && 0 <= body.nbytes <= IPC_DATA_SIZE
    ensures var s' := ServerStep(s, s.srv, body);
            Shaped(s') && |s'.ps| == |s.ps| && Advances(s, s', d)
  {
    var req := s.pc[s.srv].req;
    d :| 0 <= d < |s.ps| && d != s.srv && s.ps[d].pid == req.sender;
    assert ClientOk(s, d);
    SendFirstIsPass(s, s.srv, d, Reply(req, body));
    var s' := ServerStep(s, s.srv, body);
    forall c | 0 <= c < |s.ps| && c != d ensures Stage(s', c) == Stage(s, c) {
      if c != s.srv { assert ClientOk(s, c); }
    }
  }

  /** Every section uses up some of the work. */
  lemma RunLowersWork(s: State, i: nat, body: Msg)
    requires Inv(s) && Enabled(s, Run(i, body))
    ensures Shaped(Next(s, Run(i, body))) && Work(Next(s, Run(i, body))) < Work(s)
  {
    hide Advances, GoesToSleep, ClientStep, ServerStep, Stage;
    var s' := Next(s, Run(i, body));
    var d := i;
    if i == s.srv {
      if s.pc[i].Serve? { d := AcceptAdvances(s, body); } else { d := ReplyAdvances(s, body); }
    } else {
      ServerPcOnly(s, i);
      ClientAdvances(s, i);
    }
    AdvanceLowersWork(s, s', d);
  }

  lemma ServerPcOnly(s: State, i: nat)
    requires Inv(s) && i < |s.ps| && i != s.srv
    ensures s.pc[i].Idle? || s.pc[i].Calling? || s.pc[i].InSend? || s.pc[i].Await?
  {
    assert ClientOk(s, i);
  }

  lemma AdvanceLowersWork(s: State, s': State, d: nat)
    requires Shaped(s) && Shaped(s') && |s'.ps| == |s.ps| && (Advances(s, s', d) || GoesToSleep(s, s', d))
    ensures Work(s') < Work(s)
  {
    hide StageSum, ReadyCount;
    var n := |s.ps|;
    assert d < n;
    if Advances(s, s', d) {
      hide Advances, GoesToSleep;
      AdvanceLowersSum(s, s', d, n);
      StageFirst(StageSum(s', n), StageSum(s, n), ReadyCount(s', n), n);
    } else {
      hide Advances, GoesToSleep;
      SleepLowersReady(s, s', d, n);
    }
  }

  /** A lower stage outweighs any number of runnable processes. */
  lemma {:induction false} StageFirst(a: nat, b: nat, ready: nat, n: nat)
    requires a < b && ready <= n
    ensures a * (n + 1) + ready < b * (n + 1)
    decreases b
  {
    OneMore(b - 1, n + 1);
    if a < b - 1 { StageFirst(a, b - 1, ready, n); }
  }

  /** From any reachable state, processes cannot go on for ever without a new call ... */
  lemma {:induction false} RunsAreShort(es: seq<Event>, ss: seq<State>, n: nat)
    requires IsRun(es, ss) && n <= |es| && Inv(ss[0])
    requires forall i :: 0 <= i < |es| ==> es[i].Run?
    ensures Inv(ss[n]) && Work(ss[n]) + n <= Work(ss[0])
  {
    hide Work, Inv;
    if n > 0 {
      RunsAreShort(es, ss, n - 1);
      assert StepAt(es, ss, n - 1);
      InvNext(ss[n - 1], es[n - 1]);
      RunLowersWork(ss[n - 1], es[n - 1].i, es[n - 1].body);
    }
  }

  /** ... and where they stop, every call has been answered, unless the server was told to exit.
      So every schedule completes every outstanding call, without any fairness assumption, and one for an OPEN, READ,
      WRITE or CLOSE completes by picking up the reply with its id. */
  lemma EveryCallCompletes(es: seq<Event>, ss: seq<State>)
    requires IsRun(es, ss) && Reachable(ss[0]) && (forall i :: 0 <= i < |es| ==> es[i].Run?)
    ensures |es| <= Work(ss[0]) && Shaped(ss[|es|])
    ensures NoShutdown(ss[0]) ==> !ss[|es|].pc[ss[|es|].srv].Gone?
    ensures Quiescent(ss[|es|]) && !ss[|es|].pc[ss[|es|].srv].Gone? ==>
              forall c :: 0 <= c < |ss[|es|].ps| && c != ss[|es|].srv ==> ss[|es|].pc[c].Idle?
    ensures Quiescent(ss[|es|]) && !ss[|es|].pc[ss[|es|].srv].Gone? ==>
              forall c: nat, m {:trigger InCall(ss[0], c, m)} ::
                c < |ss[0].ps| && c != ss[0].srv && InCall(ss[0], c, m) ==>
                  Over(ss[|es|], c, m, |ss[0].ended|)
  {
    ReachableInv(ss[0]);
    RunsAreShort(es, ss, |es|);
    if NoShutdown(ss[0]) { ServerStaysUp(es, ss, |es|); }
    var s := ss[|es|];
    if Quiescent(s) && !s.pc[s.srv].Gone? {
      forall c: nat, m | c < |ss[0].ps| && c != ss[0].srv && InCall(ss[0], c, m)
        ensures Over(s, c, m, |ss[0].ended|)
      {
        NoCallIsLost(es, ss, |es|, c, m);
        if !s.pc[c].Idle? { SomeStepEnabled(s, c, NO_MSG); }
      }
      forall c | 0 <= c < |s.ps| && c != s.srv ensures s.pc[c].Idle? {
        if !s.pc[c].Idle? { SomeStepEnabled(s, c, NO_MSG); }
      }
    }
  }

  /** No process can run a section. */
  ghost predicate Quiescent(s: State)
    requires Shaped(s)
  {
    forall i :: !Enabled(s, Run(i, NO_MSG))
  }
}
