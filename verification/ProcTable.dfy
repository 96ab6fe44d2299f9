/** The process table of proc.c: each function is what one critical section of ptable.lock does
    to the table, and each method of class PTable performs it with the loops of the source. */
module ProcTable {
  import opened Prelude

  const NPROC := 64

  datatype RunState = UNUSED | EMBRYO | SLEEPING | RUNNABLE | ZOMBIE

  /** What a process can sleep on: a process (recv and wait), a mailbox flag (send), anything else. */
  datatype Chan = NoChan | OnProc(slot: nat) | OnMail(slot: nat) | OnOther(n: nat)

  datatype Msg = Msg(sender: int, id: int, kind: int, nbytes: int, payload: seq<int>)

  const NO_MSG := Msg(0, 0, 0, 0, [])

  /** RUNNABLE stands for RUNNING too: the process can take its next step. */
  datatype Proc = Proc(
    state: RunState, pid: int, parent: Option<nat>, chan: Chan, killed: bool, hasMsg: bool, mailbox: Msg)

  type Table = seq<Proc>

  const IPC_DATA_SIZE := 128
  const FS_REPLY := 100
  const FS_SHUTDOWN := 101
  const FS_CLIENT_EXIT := 102

  /** valid_ipc_msg. */
  predicate ValidMsg(m: Msg) {
    0 <= m.nbytes <= IPC_DATA_SIZE && m.kind in {1, 2, 3, 4, FS_REPLY, FS_SHUTDOWN, FS_CLIENT_EXIT}
  }

  // ---------------------------------------------------------------- wakeup1

  function Wake(p: Proc, c: Chan): (r: Proc) {
    if p.state == SLEEPING && p.chan == c then p.(state := RUNNABLE) else p
  }

  function Woken(ps: Table, c: Chan): (r: Table)
    ensures |r| == |ps|
    ensures forall i {:trigger r[i]} :: 0 <= i < |ps| ==> r[i] == Wake(ps[i], c)
  {
    seq(|ps|, i requires 0 <= i < |ps| => Wake(ps[i], c))
  }

  // ---------------------------------------------------------------- send and receive

  /** The first slot at or after i with this pid, or |ps|. */
  function FindPid(ps: Table, pid: int, i: nat): (r: nat)
    requires i <= |ps|
    ensures i <= r <= |ps|
    ensures forall j :: i <= j < r ==> ps[j].pid != pid
    ensures r < |ps| ==> ps[r].pid == pid
    decreases |ps| - i
  {
    if i == |ps| || ps[i].pid == pid then i else FindPid(ps, pid, i + 1)
  }

  datatype Sent = Delivered | Refused | Blocked(slot: nat)

  function Asleep(p: Proc, c: Chan): Proc {
    p.(state := SLEEPING, chan := c)
  }

  /** One pass of the loop in ipc_send_msg, from the test of has_msg on. */
  function SendPass(ps: Table, me: nat, t: nat, m: Msg): (r: (Table, Sent))
    requires me < |ps| && t < |ps|
    ensures |r.0| == |ps|
  {
    if ps[t].hasMsg then
      if ps[me].killed || ps[t].state == UNUSED || ps[t].state == ZOMBIE || ps[t].killed then (ps, Refused)
      else (ps[me := Asleep(ps[me], OnMail(t))], Blocked(t))
    else
      (Woken(ps[t := ps[t].(mailbox := m, hasMsg := true)], OnProc(t)), Delivered)
  }

  /** ipc_send_msg up to its first sleep: find the target and try. */
  function SendFirst(ps: Table, me: nat, pid: int, m: Msg): (r: (Table, Sent))
    requires me < |ps|
    ensures |r.0| == |ps|
  {
    var m' := m.(sender := ps[me].pid);
    var t := FindPid(ps, pid, 0);
    if !ValidMsg(m') || t == |ps| then (ps, Refused)
    else if ps[t].state == UNUSED || ps[t].state == EMBRYO || ps[t].state == ZOMBIE || ps[t].killed then (ps, Refused)
    else SendPass(ps, me, t, m')
  }

  datatype Received = Got(m: Msg) | Interrupted | Waiting

  /** One pass of the loop in ipc_recv_msg. */
  function RecvPass(ps: Table, me: nat): (r: (Table, Received))
    requires me < |ps|
    ensures |r.0| == |ps|
  {
    if !ps[me].hasMsg then
      if ps[me].killed then (ps, Interrupted)
      else (ps[me := Asleep(ps[me], OnProc(me))], Waiting)
    else
      (Woken(ps[me := ps[me].(hasMsg := false, mailbox := NO_MSG)], OnMail(me)), Got(ps[me].mailbox))
  }

  // ---------------------------------------------------------------- fork, exit, wait, kill

  /** The first slot at or after i in state UNUSED, or |ps|. */
  function FindUnused(ps: Table, i: nat): (r: nat)
    requires i <= |ps|
    ensures i <= r <= |ps|
    ensures forall j :: i <= j < r ==> ps[j].state != UNUSED
    ensures r < |ps| ==> ps[r].state == UNUSED
    decreases |ps| - i
  {
    if i == |ps| || ps[i].state == UNUSED then i else FindUnused(ps, i + 1)
  }

  /** The locked part of allocproc, for the slot it found. */
  function Embryo(p: Proc, pid: int): Proc {
    p.(state := EMBRYO, pid := pid)
  }

  /** An empty mailbox: what exit and wait do with the lock held, and allocproc after it let go of it. */
  function Emptied(p: Proc): Proc {
    p.(hasMsg := false, mailbox := NO_MSG)
  }

  /** One process as exit() of `me` leaves it: reparented to init if it was a child. */
  function Adopted(p: Proc, me: nat, init: nat): Proc {
    if p.parent == Some(me) then p.(parent := Some(init)) else p
  }

  /** exit() wakes init when it hands over a zombie. */
  ghost predicate LeavesZombie(ps: Table, me: nat) {
    exists i :: 0 <= i < |ps| && ps[i].parent == Some(me) && ps[i].state == ZOMBIE
  }

  ghost function AdoptedAll(ps: Table, me: nat, init: nat): (r: Table)
    ensures |r| == |ps|
    ensures forall i {:trigger r[i]} :: 0 <= i < |ps| ==> r[i] == Adopted(ps[i], me, init)
  {
    seq(|ps|, i requires 0 <= i < |ps| => Adopted(ps[i], me, init))
  }

  /** The locked part of exit(). */
  ghost function Exited(ps: Table, me: nat, init: nat): (r: Table)
    requires me < |ps| && ps[me].parent.Some?
    ensures |r| == |ps|
  {
    var ps1 := ps[me := Emptied(ps[me])];
    var ps2 := Woken(Woken(ps1, OnMail(me)), OnProc(ps[me].parent.value));
    var ps3 := AdoptedAll(ps2, me, init);
    var ps4 := if LeavesZombie(ps2, me) then Woken(ps3, OnProc(init)) else ps3;
    ps4[me := ps4[me].(state := ZOMBIE)]
  }

  /** The first zombie child of `me` at or after i, or |ps|. */
  function FindZombie(ps: Table, me: nat, i: nat): (r: nat)
    requires i <= |ps|
    ensures i <= r <= |ps|
    ensures forall j :: i <= j < r ==> !(ps[j].parent == Some(me) && ps[j].state == ZOMBIE)
    ensures r < |ps| ==> ps[r].parent == Some(me) && ps[r].state == ZOMBIE
    decreases |ps| - i
  {
    if i == |ps| || (ps[i].parent == Some(me) && ps[i].state == ZOMBIE) then i else FindZombie(ps, me, i + 1)
  }

  ghost predicate HasKids(ps: Table, me: nat) {
    exists i :: 0 <= i < |ps| && ps[i].parent == Some(me)
  }

  function Reaped(p: Proc): Proc {
    Emptied(p).(pid := 0, parent := None, killed := false, state := UNUSED)
  }

  datatype Waited = Child(pid: int) | NoChild | MustWait

  /** One pass of the loop in wait(). */
  ghost function WaitPass(ps: Table, me: nat): (r: (Table, Waited))
    requires me < |ps|
    ensures |r.0| == |ps|
  {
    var z := FindZombie(ps, me, 0);
    if z < |ps| then (ps[z := Reaped(ps[z])], Child(ps[z].pid))
    else if !HasKids(ps, me) || ps[me].killed then (ps, NoChild)
    else (ps[me := Asleep(ps[me], OnProc(me))], MustWait)
  }

  /** kill(). */
  function Killed(ps: Table, pid: int): (r: (Table, bool))
    ensures |r.0| == |ps|
  {
    var t := FindPid(ps, pid, 0);
    if t == |ps| then (ps, false)
    else (ps[t := ps[t].(killed := true, state := if ps[t].state == SLEEPING then RUNNABLE else ps[t].state)], true)
  }

  // ---------------------------------------------------------------- what the sections come to

  /** An OPEN, READ, WRITE or CLOSE that fits a message. */
  ghost predicate IsRequest(m: Msg) {
    (m.kind == 1 || m.kind == 2 || m.kind == 3 || m.kind == 4) && 0 <= m.nbytes <= 128
  }

  /** The messages that can be sent at all: OPEN, READ, WRITE, CLOSE, REPLY, SHUTDOWN and CLIENT_EXIT of ipc.h. */
  lemma Sendable(m: Msg)
    ensures ValidMsg(m) <==>
              && 0 <= m.nbytes <= 128
              && (m.kind == 1 || m.kind == 2 || m.kind == 3 || m.kind == 4 || m.kind == 100 || m.kind == 101
                  || m.kind == 102)
  {
  }

  /** Among processes with their own pids, process t can be sent to. */
  ghost predicate CanTake(ps: Table, t: nat) {
    && t < |ps| && !ps[t].killed && (ps[t].state == RUNNABLE || ps[t].state == SLEEPING)
    && forall j :: 0 <= j < t ==> ps[j].pid != ps[t].pid
  }

  /** A send is delivered exactly if the message can be sent and the target is there, live and with an empty mailbox;
      then the mailbox holds the message under the sender's pid, who sleeps for mail at t runs, and nothing else
      changes. It blocks exactly if that mailbox is full and the sender is not killed. */
  lemma SendOutcome(ps: Table, me: nat, m: Msg, t: nat)
    requires me < |ps| && t < |ps| && forall j :: 0 <= j < t ==> ps[j].pid != ps[t].pid
    ensures var (r, sent) := SendFirst(ps, me, ps[t].pid, m);
            && (sent.Delivered? <==> ValidMsg(m) && CanTake(ps, t) && !ps[t].hasMsg)
            && (sent.Blocked? <==> ValidMsg(m) && CanTake(ps, t) && ps[t].hasMsg && !ps[me].killed)
            && (sent.Refused? ==> r == ps) && (sent.Blocked? ==> r == ps[me := Asleep(ps[me], OnMail(t))])
    ensures var (r, sent) := SendFirst(ps, me, ps[t].pid, m);
            sent.Delivered? ==>
              && r[t].hasMsg && r[t].mailbox == m.(sender := ps[me].pid)
              && forall k {:trigger r[k]} :: 0 <= k < |ps| ==>
                   && (k != t ==> r[k].hasMsg == ps[k].hasMsg && r[k].mailbox == ps[k].mailbox)
                   && r[k].pid == ps[k].pid && r[k].parent == ps[k].parent && r[k].killed == ps[k].killed
                   && r[k].state == if ps[k].state == SLEEPING && ps[k].chan == OnProc(t) then RUNNABLE else ps[k].state
  {
    assert FindPid(ps, ps[t].pid, 0) == t;
  }

  /** A send to a pid that nobody has is refused. */
  lemma SendToNobody(ps: Table, me: nat, pid: int, m: Msg)
    requires me < |ps| && forall j :: 0 <= j < |ps| ==> ps[j].pid != pid
    ensures SendFirst(ps, me, pid, m) == (ps, Refused)
  {
    assert FindPid(ps, pid, 0) == |ps|;
  }

  /** A process that waits for mail gets what is in its mailbox, which is empty afterwards; then who sleeps to send to
      it runs. With nothing there it sleeps, or, if it is killed, gives up. */
  lemma RecvOutcome(ps: Table, me: nat)
    requires me < |ps|
    ensures var (r, got) := RecvPass(ps, me);
            && (got.Got? <==> ps[me].hasMsg) && (got.Interrupted? <==> !ps[me].hasMsg && ps[me].killed)
            && (got.Got? ==> got.m == ps[me].mailbox && !r[me].hasMsg)
            && (got.Interrupted? ==> r == ps) && (got.Waiting? ==> r == ps[me := Asleep(ps[me], OnProc(me))])
    ensures var (r, got) := RecvPass(ps, me);
            got.Got? ==> forall k {:trigger r[k]} :: 0 <= k < |ps| ==>
              && (k != me ==> r[k].hasMsg == ps[k].hasMsg && r[k].mailbox == ps[k].mailbox)
              && r[k].state == if ps[k].state == SLEEPING && ps[k].chan == OnMail(me) then RUNNABLE else ps[k].state
  {
  }

  /** wait() gives the pid of a zombie child if there is one, and frees its slot; gives -1 exactly if there is none and
      there is no child at all or the caller is killed; and sleeps otherwise. */
  lemma WaitOutcome(ps: Table, me: nat)
    requires me < |ps|
    ensures var (r, w) := WaitPass(ps, me);
            && (w.Child? <==> exists z :: 0 <= z < |ps| && ps[z].parent == Some(me) && ps[z].state == ZOMBIE)
            && (w.Child? ==> exists z :: 0 <= z < |ps| && ps[z].parent == Some(me) && ps[z].state == ZOMBIE
                               && w.pid == ps[z].pid
                               && r == ps[z := Proc(UNUSED, 0, None, ps[z].chan, false, false, NO_MSG)])
            && (w.NoChild? <==>
                  !w.Child? && (ps[me].killed || forall k :: 0 <= k < |ps| ==> ps[k].parent != Some(me)))
            && (w.NoChild? ==> r == ps) && (w.MustWait? ==> r == ps[me := Asleep(ps[me], OnProc(me))])
  {
    var z := FindZombie(ps, me, 0);
    if z < |ps| { assert ps[z].parent == Some(me) && ps[z].state == ZOMBIE; }
  }

  /** kill() marks the first process with that pid, and lets it run if it sleeps; nobody else is touched. */
  lemma KillOutcome(ps: Table, pid: int)
    ensures var (r, ok) := Killed(ps, pid);
            && (ok <==> exists t :: 0 <= t < |ps| && ps[t].pid == pid)
            && (!ok ==> r == ps)
            && (ok ==> exists t :: 0 <= t < |ps| && ps[t].pid == pid && (forall j :: 0 <= j < t ==> ps[j].pid != pid)
                         && r[t].killed && r[t].state != SLEEPING
                         && (ps[t].state != SLEEPING ==> r[t].state == ps[t].state)
                         && (ps[t].state == SLEEPING ==> r[t].state == RUNNABLE)
                         && r[t].pid == pid && r[t].parent == ps[t].parent
                         && forall j :: 0 <= j < |ps| && j != t ==> r[j] == ps[j])
  {
    var t := FindPid(ps, pid, 0);
    if t < |ps| { assert ps[t].pid == pid; }
  }

  // ---------------------------------------------------------------- the loops

  class PTable {
    var proc: seq<Proc>
    var nextpid: int
    var fsserver: int // fsserver_pid

    ghost predicate Valid()
      reads this
    {
      |proc| == NPROC
    }

    constructor ()
      ensures Valid() && nextpid == 1 && fsserver == -1
      ensures forall i :: 0 <= i < NPROC ==>
                proc[i].state == UNUSED && proc[i].pid == 0 && proc[i].parent == None && !proc[i].hasMsg
    {
      proc := seq(NPROC, _ => Proc(UNUSED, 0, None, NoChan, false, false, NO_MSG));
      nextpid := 1;
      fsserver := -1;
    }

    /** wakeup1. */
    method Wakeup1(c: Chan)
      requires Valid()
      modifies this`proc
      ensures Valid() && proc == Woken(old(proc), c)
    {
      var p := 0;
      while p < NPROC
        invariant 0 <= p <= NPROC && |proc| == NPROC
        invariant forall i :: 0 <= i < p ==> proc[i] == Wake(old(proc)[i], c)
        invariant forall i :: p <= i < NPROC ==> proc[i] == old(proc)[i]
      {
        if proc[p].state == SLEEPING && proc[p].chan == c {
          proc := proc[p := proc[p].(state := RUNNABLE)];
        }
        p := p + 1;
      }
    }

    /** The scan that ipc_send_msg and kill share. */
    method ScanPid(pid: int) returns (t: nat)
      requires Valid()
      ensures t == FindPid(proc, pid, 0)
    {
      t := 0;
      while t < NPROC && proc[t].pid != pid
        invariant 0 <= t <= NPROC
        invariant FindPid(proc, pid, 0) == FindPid(proc, pid, t)
      {
        t := t + 1;
      }
    }

    /** One pass of ipc_send_msg's loop. */
    method SendLoop(me: nat, t: nat, m: Msg) returns (r: Sent)
      requires Valid() && me < NPROC && t < NPROC
      modifies this`proc
      ensures Valid() && (proc, r) == SendPass(old(proc), me, t, m)
    {
      if proc[t].hasMsg {
        if proc[me].killed || proc[t].state == UNUSED || proc[t].state == ZOMBIE || proc[t].killed {
          return Refused;
        }
        proc := proc[me := proc[me].(chan := OnMail(t), state := SLEEPING)];
        return Blocked(t);
      }
      proc := proc[t := proc[t].(mailbox := m, hasMsg := true)];
      Wakeup1(OnProc(t));
      return Delivered;
    }

    /** ipc_send_msg, to its return or its first sleep. */
    method IpcSend(me: nat, pid: int, msg: Msg) returns (r: Sent)
      requires Valid() && me < NPROC
      modifies this`proc
      ensures Valid() && (proc, r) == SendFirst(old(proc), me, pid, msg)
      ensures forall t: nat ::
                CanTake(old(proc), t) && old(proc)[t].pid == pid && !old(proc)[t].hasMsg && IsRequest(msg) ==>
                  r == Delivered && proc[t].hasMsg && proc[t].mailbox == msg.(sender := old(proc)[me].pid)
    {
      forall t: nat | CanTake(proc, t) && proc[t].pid == pid && !proc[t].hasMsg && IsRequest(msg)
        ensures var (ps, sent) := SendFirst(proc, me, pid, msg);
                sent == Delivered && ps[t].hasMsg && ps[t].mailbox == msg.(sender := proc[me].pid)
      {
        SendOutcome(proc, me, msg, t);
      }
      var kmsg := msg.(sender := proc[me].pid);
      if !ValidMsg(kmsg) { return Refused; }
      var t := ScanPid(pid);
      if t == NPROC { return Refused; }
      if proc[t].state == UNUSED || proc[t].state == EMBRYO || proc[t].state == ZOMBIE || proc[t].killed {
        return Refused;
      }
      r := SendLoop(me, t, kmsg);
    }

    /** One pass of ipc_recv_msg's loop. */
    method IpcRecv(me: nat) returns (r: Received)
      requires Valid() && me < NPROC
      modifies this`proc
      ensures Valid() && (proc, r) == RecvPass(old(proc), me)
    {
      if !proc[me].hasMsg {
        if proc[me].killed { return Interrupted; }
        proc := proc[me := proc[me].(chan := OnProc(me), state := SLEEPING)];
        return Waiting;
      }
      var kmsg := proc[me].mailbox;
      proc := proc[me := proc[me].(hasMsg := false, mailbox := NO_MSG)];
      Wakeup1(OnMail(me));
      return Got(kmsg);
    }

    /** The locked part of allocproc. */
    method AllocProc() returns (p: nat)
      requires Valid()
      modifies this`proc, this`nextpid
      ensures Valid() && p == FindUnused(old(proc), 0)
      ensures p < NPROC ==> proc == old(proc)[p := Embryo(old(proc)[p], old(nextpid))] && nextpid == old(nextpid) + 1
      ensures p == NPROC ==> proc == old(proc) && nextpid == old(nextpid)
    {
      p := 0;
      while p < NPROC && proc[p].state != UNUSED
        invariant 0 <= p <= NPROC && proc == old(proc) && nextpid == old(nextpid)
        invariant FindUnused(proc, 0) == FindUnused(proc, p)
      {
        p := p + 1;
      }
      if p == NPROC { return; }
      proc := proc[p := proc[p].(state := EMBRYO, pid := nextpid)];
      nextpid := nextpid + 1;
    }

    /** allocproc empties the mailbox after it has let go of the lock, and wakes nobody. */
    method ClearMail(p: nat)
      requires Valid() && p < NPROC
      modifies this`proc
      ensures Valid() && proc == old(proc)[p := Emptied(old(proc)[p])]
    {
      proc := proc[p := proc[p].(mailbox := NO_MSG, hasMsg := false)];
    }

    /** The loop of exit() that passes children to init. */
    method PassChildren(me: nat, init: nat)
      requires Valid()
      modifies this`proc
      ensures Valid()
      ensures var r := AdoptedAll(old(proc), me, init);
              proc == if LeavesZombie(old(proc), me) then Woken(r, OnProc(init)) else r
    {
      ghost var ps := proc;
      var p := 0;
      ghost var woke := false;
      while p < NPROC
        invariant 0 <= p <= NPROC && |proc| == NPROC
        invariant woke <==> exists i :: 0 <= i < p && ps[i].parent == Some(me) && ps[i].state == ZOMBIE
        invariant forall i :: 0 <= i < p ==>
                    proc[i] == var q := Adopted(ps[i], me, init); if woke then Wake(q, OnProc(init)) else q
        invariant forall i :: p <= i < NPROC ==> proc[i] == if woke then Wake(ps[i], OnProc(init)) else ps[i]
      {
        if proc[p].parent == Some(me) {
          proc := proc[p := proc[p].(parent := Some(init))];
          if proc[p].state == ZOMBIE {
            Wakeup1(OnProc(init));
            woke := true;
            assert ps[p].parent == Some(me) && ps[p].state == ZOMBIE;
          }
        }
        p := p + 1;
      }
    }

    /** The locked part of exit(), to the jump into the scheduler. */
    method Exit(me: nat, init: nat)
      requires Valid() && me < NPROC && me != init && proc[me].parent.Some?
      modifies this`proc, this`fsserver
      ensures Valid() && proc == Exited(old(proc), me, init)
      ensures fsserver == if old(fsserver) == old(proc)[me].pid then -1 else old(fsserver)
    {
      if fsserver == proc[me].pid { fsserver := -1; }
      proc := proc[me := proc[me].(hasMsg := false, mailbox := NO_MSG)];
      Wakeup1(OnMail(me));
      Wakeup1(OnProc(proc[me].parent.value));
      PassChildren(me, init);
      proc := proc[me := proc[me].(state := ZOMBIE)];
    }

    /** One pass of wait()'s loop. */
    method Wait(me: nat) returns (r: Waited)
      requires Valid() && me < NPROC
      modifies this`proc
      ensures Valid() && (proc, r) == WaitPass(old(proc), me)
    {
      var havekids := false;
      var p := 0;
      while p < NPROC
        invariant 0 <= p <= NPROC && proc == old(proc)
        invariant FindZombie(proc, me, 0) == FindZombie(proc, me, p)
        invariant havekids <==> exists i :: 0 <= i < p && proc[i].parent == Some(me)
      {
        if proc[p].parent == Some(me) {
          havekids := true;
          if proc[p].state == ZOMBIE {
            var pid := proc[p].pid;
            proc := proc[p := proc[p].(pid := 0, parent := None, killed := false,
                                       mailbox := NO_MSG, hasMsg := false, state := UNUSED)];
            return Child(pid);
          }
        }
        p := p + 1;
      }
      if !havekids || proc[me].killed { return NoChild; }
      proc := proc[me := proc[me].(chan := OnProc(me), state := SLEEPING)];
      return MustWait;
    }

    /** kill. */
    method Kill(pid: int) returns (ok: bool)
      requires Valid()
      modifies this`proc
      ensures Valid() && (proc, ok) == Killed(old(proc), pid)
    {
      var t := ScanPid(pid);
      if t == NPROC { return false; }
      var p := proc[t].(killed := true);
      if p.state == SLEEPING { p := p.(state := RUNNABLE); }
      proc := proc[t := p];
      return true;
    }
  }
}
