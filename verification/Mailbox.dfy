/** One-slot mailboxes of processes that are born and die: ipc_send_msg and ipc_recv_msg of proc.c among
    fork, exit, wait and kill, under every interleaving of their critical sections. */
module Mailbox {
  import opened ProcTable
  import L = Lifecycle

  /** Where a process is in the kernel: in the loop of ipc_send_msg, with the slot it found and the pid it
      was asked for, in the loop of ipc_recv_msg, or in neither. */
  datatype Place = Outside | Sending(t: nat, pid: int, m: Msg) | Receiving

  /** A message put in a mailbox by process `from`, for the process with pid `wanted`.  `state` and `to` are
      the state and the pid of the slot it went to; `late`: the wanted process had exited by then. */
  datatype Delivery = Delivery(from: int, wanted: int, state: RunState, to: int, late: bool, m: Msg)

  /** ipc_recv_msg returned it to process `pid`, or the mailbox was emptied unread. */
  datatype Fate = Received(pid: int, m: Msg) | Dropped

  /** stored[t]: everything ever put in the mailbox of slot t; fate[t]: what became of it, in order. */
  datatype State = State(life: L.State, place: seq<Place>, stored: seq<seq<Delivery>>, fate: seq<seq<Fate>>)

  datatype Event = Life(e: L.Event) | Send(i: nat, pid: int, m: Msg) | Resume(i: nat) | Recv(i: nat)

  ghost predicate Shaped(s: State) {
    L.Shaped(s.life) && |s.place| == |s.stored| == |s.fate| == |s.life.ps|
  }

  /** A process in ipc_send_msg or ipc_recv_msg does nothing else; other sleeps are on other channels. */
  ghost predicate Free(s: State, e: L.Event)
    requires Shaped(s) && L.Enabled(s.life, e)
  {
    e.Kill? || e.Wakeup? || (s.place[e.i].Outside? && (e.Sleep? ==> e.c.OnOther?))
  }

  ghost predicate Enabled(s: State, e: Event)
    requires Shaped(s)
  {
    var ps := s.life.ps;
    match e
    case Life(le) => L.Enabled(s.life, le) && Free(s, le)
    case Send(i, _, _) => i < |ps| && ps[i].state == RUNNABLE && s.life.at[i].Elsewhere? && s.place[i].Outside?
    case Resume(i) => i < |ps| && ps[i].state == RUNNABLE && s.place[i].Sending?
    case Recv(i) => i < |ps| && ps[i].state == RUNNABLE && s.life.at[i].Elsewhere? && !s.place[i].Sending?
  }

  /** The state after process i's attempt to put m, meant for pid, in the mailbox of slot t came out as r. */
  ghost function AfterSend(s: State, i: nat, t: nat, pid: int, m: Msg, ps: Table, r: Sent): (s': State)
    requires Shaped(s) && i < |s.life.ps| && t < |s.life.ps|
  {
    var life := s.life.(ps := ps);
    match r
    case Delivered =>
      var target := s.life.ps[t];
      var d := Delivery(s.life.ps[i].pid, pid, target.state, target.pid, pid in s.life.exited, m);
      s.(life := life, place := s.place[i := Outside], stored := s.stored[t := s.stored[t] + [d]])
    case Refused => s.(life := life, place := s.place[i := Outside])
    case Blocked(_) => s.(life := life, place := s.place[i := Sending(t, pid, m)])
  }

  /** Every mailbox that lost its message without a receiver has one more dropped message. */
  ghost function Emptying(ps: Table, ps': Table, fate: seq<seq<Fate>>): (r: seq<seq<Fate>>)
    requires |ps| == |ps'| == |fate|
    ensures |r| == |fate|
    ensures forall t {:trigger r[t]} :: 0 <= t < |ps| ==>
              r[t] == if ps[t].hasMsg && !ps'[t].hasMsg then fate[t] + [Dropped] else fate[t]
  {
    seq(|ps|, t requires 0 <= t < |ps| => if ps[t].hasMsg && !ps'[t].hasMsg then fate[t] + [Dropped] else fate[t])
  }

  ghost function Next(s: State, e: Event): (s': State)
    requires Shaped(s) && Enabled(s, e)
  {
    var ps := s.life.ps;
    match e
    case Life(le) =>
      var life := L.Next(s.life, le);
      s.(life := life, fate := Emptying(ps, life.ps, s.fate))
    case Send(i, pid, m) =>
      var t := FindPid(ps, pid, 0);
      if t == |ps| then s
      else var (ps', r) := SendFirst(ps, i, pid, m); AfterSend(s, i, t, pid, m.(sender := ps[i].pid), ps', r)
    case Resume(i) =>
      var Sending(t, pid, m) := s.place[i];
      if t >= |ps| then s
      else var (ps', r) := SendPass(ps, i, t, m); AfterSend(s, i, t, pid, m, ps', r)
    case Recv(i) =>
      var (ps', r) := RecvPass(ps, i);
      var life := s.life.(ps := ps');
      (match r
       case Got(m) =>
         var fate := s.fate[i := s.fate[i] + [Received(ps[i].pid, m)]];
         s.(life := life, place := s.place[i := Outside], fate := fate)
       case Interrupted => s.(life := life, place := s.place[i := Outside])
       case Waiting => s.(life := life, place := s.place[i := Receiving]))
  }

  // ---------------------------------------------------------------- the invariant

  /** A message that is not late went to the process it was meant for; every message names its real sender. */
  ghost predicate DeliveryOk(l: L.State, d: Delivery) {
    && d.m.sender == d.from && ValidMsg(d.m)
    && (d.late ==> d.wanted in l.exited)
    && (!d.late ==> (d.state == RUNNABLE || d.state == SLEEPING) && d.to == d.wanted)
    && (d.state == ZOMBIE ==> d.to in l.exited)
  }

  /** A received message is the one stored, and a late one never reaches the process it was meant for. */
  ghost predicate FateOk(d: Delivery, f: Fate) {
    f.Received? ==> f.m == d.m && (d.late <==> f.pid != d.wanted)
  }

  /** Stored messages are received or dropped in order, and at most one is pending: the mailbox. */
  ghost predicate MailOk(s: State, t: nat)
    requires Shaped(s) && t < |s.life.ps|
  {
    var p, ds, fs := s.life.ps[t], s.stored[t], s.fate[t];
    && |ds| == |fs| + (if p.hasMsg then 1 else 0)
    && (forall k {:trigger ds[k]} :: 0 <= k < |ds| ==> DeliveryOk(s.life, ds[k]))
    && (forall k {:trigger fs[k]} :: 0 <= k < |fs| ==> FateOk(ds[k], fs[k]))
    && (p.hasMsg ==>
          && p.mailbox == ds[|fs|].m
          && (!ds[|fs|].late ==> L.Alive(p) && p.pid == ds[|fs|].wanted))
  }

  ghost predicate ToZombie(d: Delivery, pid: int) {
    d.state == ZOMBIE && d.to == pid
  }

  /** A zombie is sent at most one message, and that one is not received. */
  ghost predicate ZombieOk(s: State, t: nat)
    requires Shaped(s) && t < |s.life.ps|
  {
    var p, ds, fs := s.life.ps[t], s.stored[t], s.fate[t];
    && (forall j, k :: 0 <= j < k < |ds| && ds[j].state == ZOMBIE ==> !ToZombie(ds[k], ds[j].to))
    && (p.state == ZOMBIE ==> forall k :: 0 <= k < |fs| && k < |ds| ==> !ToZombie(ds[k], p.pid))
    && (p.state == ZOMBIE ==>
          forall k {:trigger ds[k]} :: 0 <= k < |ds| && ds[k].late && ds[k].wanted == p.pid ==> ToZombie(ds[k], p.pid))
  }

  /** Where a process stands, and what it sleeps on. */
  ghost predicate PlaceOk(s: State, i: nat)
    requires Shaped(s) && i < |s.life.ps|
  {
    var ps, w := s.life.ps, s.place[i];
    && (!w.Outside? ==> L.Alive(ps[i]) && s.life.at[i].Elsewhere?)
    && (w.Sending? ==>
          && w.t < |ps| && w.m.sender == ps[i].pid && ValidMsg(w.m)
          && (w.pid in s.life.exited || (L.Alive(ps[w.t]) && ps[w.t].pid == w.pid)))
    && (ps[i].state == SLEEPING && w.Receiving? ==> ps[i].chan == OnProc(i) && !ps[i].hasMsg)
    && (ps[i].state == SLEEPING && w.Sending? ==> ps[i].chan == OnMail(w.t) && ps[w.t].state != ZOMBIE)
  }

  ghost predicate Inv(s: State) {
    && Shaped(s) && L.Inv(s.life)
    && (forall t :: 0 <= t < |s.life.ps| ==> MailOk(s, t))
    && (forall t :: 0 <= t < |s.life.ps| ==> ZombieOk(s, t))
    && (forall i :: 0 <= i < |s.life.ps| ==> PlaceOk(s, i))
  }

  ghost predicate Init(s: State) {
    && Shaped(s) && L.Init(s.life)
    && (forall i :: 0 <= i < |s.place| ==> s.place[i] == Outside && s.stored[i] == [] && s.fate[i] == [])
    && (forall i :: 0 <= i < |s.place| ==> !s.life.ps[i].hasMsg)
  }

  lemma InitInv(s: State)
    requires Init(s)
    ensures Inv(s)
  {
    L.InitInv(s.life);
  }

  // ---------------------------------------------------------------- sends and receives

  /** The pid of a live process has not exited. */
  lemma LiveHasNotExited(l: L.State, t: nat)
    requires L.Inv(l) && t < |l.ps| && (L.Alive(l.ps[t]) || l.ps[t].state == EMBRYO)
    ensures l.ps[t].pid !in l.exited
  {
  }

  /** A pass of ipc_send_msg's loop, slot by slot. */
  lemma SendPassAt(ps: Table, i: nat, t: nat, m: Msg, k: nat)
    requires i < |ps| && t < |ps| && k < |ps| && ps[i].state == RUNNABLE
    ensures var (ps', r) := SendPass(ps, i, t, m);
            && ps'[k].pid == ps[k].pid && ps'[k].parent == ps[k].parent && ps'[k].killed == ps[k].killed
            && (ps'[k].state == ps[k].state || (L.Alive(ps[k]) && L.Alive(ps'[k])))
            && (r.Delivered? && k == t ==> ps'[k].hasMsg && ps'[k].mailbox == m && !ps[k].hasMsg)
            && (!(r.Delivered? && k == t) ==> ps'[k].hasMsg == ps[k].hasMsg && ps'[k].mailbox == ps[k].mailbox)
            && (ps'[k].state == SLEEPING && k != i ==> ps[k].state == SLEEPING && ps'[k].chan == ps[k].chan)
            && (ps'[i].state == SLEEPING ==>
                  r.Blocked? && ps'[i].chan == OnMail(t) && ps[t].hasMsg && ps[t].state != ZOMBIE)
            && (ps'[t].state == SLEEPING && r.Delivered? ==> ps'[t].chan != OnProc(t))
  {
  }

  lemma InvLifeSend(s: State, i: nat, t: nat, m: Msg)
    requires Inv(s) && i < |s.life.ps| && t < |s.life.ps| && s.life.ps[i].state == RUNNABLE && s.life.at[i].Elsewhere?
    ensures L.Inv(s.life.(ps := SendPass(s.life.ps, i, t, m).0))
  {
    hide SendPass, L.Inv;
    var ps' := SendPass(s.life.ps, i, t, m).0;
    forall k | 0 <= k < |ps'| ensures L.SameLife(s.life, ps', k) { SendPassAt(s.life.ps, i, t, m, k); }
    L.InvStates(s.life, ps');
  }

  /** What a delivery, a refusal or a block does to every mailbox. */
  lemma InvAttemptMail(s: State, i: nat, t: nat, pid: int, m: Msg, k: nat)
    requires Inv(s) && i < |s.life.ps| && t < |s.life.ps| && k < |s.life.ps| && s.life.ps[i].state == RUNNABLE
    requires m.sender == s.life.ps[i].pid && ValidMsg(m)
    requires pid in s.life.exited || (L.Alive(s.life.ps[t]) && s.life.ps[t].pid == pid)
    ensures var (ps', r) := SendPass(s.life.ps, i, t, m);
            var s' := AfterSend(s, i, t, pid, m, ps', r); Shaped(s') && MailOk(s', k) && ZombieOk(s', k)
  {
    hide SendPass, L.Inv;
    var (ps', r) := SendPass(s.life.ps, i, t, m);
    var s' := AfterSend(s, i, t, pid, m, ps', r);
    assert MailOk(s, k) && ZombieOk(s, k);
    SendPassAt(s.life.ps, i, t, m, k);
    if r.Delivered? && k == t && s.life.ps[t].state == ZOMBIE { ZombieHasExited(s.life, t); }
  }

  lemma ZombieHasExited(l: L.State, t: nat)
    requires L.Inv(l) && t < |l.ps| && l.ps[t].state == ZOMBIE
    ensures l.ps[t].pid in l.exited
  {
  }

  lemma InvAttemptPlace(s: State, i: nat, t: nat, pid: int, m: Msg, k: nat)
    requires Inv(s) && i < |s.life.ps| && t < |s.life.ps| && k < |s.life.ps|
    requires s.life.ps[i].state == RUNNABLE && s.life.at[i].Elsewhere?
    requires m.sender == s.life.ps[i].pid && ValidMsg(m)
    requires pid in s.life.exited || (L.Alive(s.life.ps[t]) && s.life.ps[t].pid == pid)
    ensures var (ps', r) := SendPass(s.life.ps, i, t, m);
            var s' := AfterSend(s, i, t, pid, m, ps', r); Shaped(s') && PlaceOk(s', k)
  {
    hide SendPass, L.Inv;
    var (ps', r) := SendPass(s.life.ps, i, t, m);
    var s' := AfterSend(s, i, t, pid, m, ps', r);
    assert PlaceOk(s, k);
    SendPassAt(s.life.ps, i, t, m, k);
    SendPassAt(s.life.ps, i, t, m, t);
    if s.place[k].Sending? { SendPassAt(s.life.ps, i, t, m, s.place[k].t); }
  }

  lemma InvAttempt(s: State, i: nat, t: nat, pid: int, m: Msg)
    requires Inv(s) && i < |s.life.ps| && t < |s.life.ps|
    requires s.life.ps[i].state == RUNNABLE && s.life.at[i].Elsewhere?
    requires m.sender == s.life.ps[i].pid && ValidMsg(m)
    requires pid in s.life.exited || (L.Alive(s.life.ps[t]) && s.life.ps[t].pid == pid)
    ensures var (ps', r) := SendPass(s.life.ps, i, t, m); Inv(AfterSend(s, i, t, pid, m, ps', r))
  {
    hide SendPass, L.Inv, MailOk, ZombieOk, PlaceOk;
    var (ps', r) := SendPass(s.life.ps, i, t, m);
    var s' := AfterSend(s, i, t, pid, m, ps', r);
    InvLifeSend(s, i, t, m);
    forall k | 0 <= k < |ps'| ensures Shaped(s') && MailOk(s', k) && ZombieOk(s', k) {
      InvAttemptMail(s, i, t, pid, m, k);
    }
    forall k | 0 <= k < |ps'| ensures PlaceOk(s', k) { InvAttemptPlace(s, i, t, pid, m, k); }
  }

  /** A process that is not in a loop of its own any more. */
  lemma InvLeaves(s: State, i: nat)
    requires Inv(s) && i < |s.life.ps|
    ensures Inv(s.(place := s.place[i := Outside]))
  {
    hide L.Inv;
    var s' := s.(place := s.place[i := Outside]);
    forall k | 0 <= k < |s.life.ps| ensures MailOk(s', k) && ZombieOk(s', k) && PlaceOk(s', k) {
      assert MailOk(s, k) && ZombieOk(s, k) && PlaceOk(s, k);
    }
  }

  lemma InvSend(s: State, i: nat, pid: int, m: Msg)
    requires Inv(s) && Enabled(s, Send(i, pid, m))
    ensures Inv(Next(s, Send(i, pid, m)))
  {
    hide Inv, L.Inv, SendPass;
    var t := FindPid(s.life.ps, pid, 0);
    if t < |s.life.ps| {
      var m' := m.(sender := s.life.ps[i].pid);
      var (ps', r) := SendFirst(s.life.ps, i, pid, m);
      if ValidMsg(m') && L.Alive(s.life.ps[t]) && !s.life.ps[t].killed {
        InvAttempt(s, i, t, pid, m');
      } else {
        InvLeaves(s, i);
      }
    }
  }

  lemma InvResume(s: State, i: nat)
    requires Inv(s) && Enabled(s, Resume(i))
    ensures Inv(Next(s, Resume(i)))
  {
    assert PlaceOk(s, i);
    hide Inv, L.Inv, SendPass;
    InvAttempt(s, i, s.place[i].t, s.place[i].pid, s.place[i].m);
  }

  // ---------------------------------------------------------------- receives

  lemma RecvPassAt(ps: Table, i: nat, k: nat)
    requires i < |ps| && k < |ps| && ps[i].state == RUNNABLE
    ensures var (ps', r) := RecvPass(ps, i);
            && ps'[k].pid == ps[k].pid && ps'[k].parent == ps[k].parent && ps'[k].killed == ps[k].killed
            && (ps'[k].state == ps[k].state || (L.Alive(ps[k]) && L.Alive(ps'[k])))
            && (r.Got? && k == i ==> ps[k].hasMsg && !ps'[k].hasMsg && r.m == ps[k].mailbox)
            && (!(r.Got? && k == i) ==> ps'[k].hasMsg == ps[k].hasMsg && ps'[k].mailbox == ps[k].mailbox)
            && (ps'[k].state == SLEEPING && k != i ==> ps[k].state == SLEEPING && ps'[k].chan == ps[k].chan)
            && (ps'[k].state == SLEEPING && r.Got? ==> ps'[k].chan != OnMail(i))
            && (ps'[i].state == SLEEPING ==> r.Waiting? && ps'[i].chan == OnProc(i) && !ps[i].hasMsg)
  {
  }

  lemma InvRecvMail(s: State, i: nat, k: nat)
    requires Inv(s) && Enabled(s, Recv(i)) && k < |s.life.ps|
    ensures var s' := Next(s, Recv(i)); Shaped(s') && MailOk(s', k) && ZombieOk(s', k)
  {
    LiveHasNotExited(s.life, i);
    hide RecvPass, L.Inv, PlaceOk;
    assert MailOk(s, k) && ZombieOk(s, k);
    RecvPassAt(s.life.ps, i, k);
  }

  lemma InvRecvPlace(s: State, i: nat, k: nat)
    requires Inv(s) && Enabled(s, Recv(i)) && k < |s.life.ps|
    ensures var s' := Next(s, Recv(i)); Shaped(s') && PlaceOk(s', k)
  {
    hide RecvPass, L.Inv, MailOk, ZombieOk;
    assert PlaceOk(s, k);
    var s' := Next(s, Recv(i));
    RecvPassAt(s.life.ps, i, k);
    assert k != i ==> s'.place[k] == s.place[k];
    if s.place[k].Sending? {
      assert k != i;
      RecvPassAt(s.life.ps, i, s.place[k].t);
    }
  }

  lemma InvRecv(s: State, i: nat)
    requires Inv(s) && Enabled(s, Recv(i))
    ensures Inv(Next(s, Recv(i)))
  {
    hide RecvPass, L.Inv, MailOk, ZombieOk, PlaceOk;
    var s' := Next(s, Recv(i));
    var ps' := RecvPass(s.life.ps, i).0;
    forall k | 0 <= k < |ps'| ensures L.SameLife(s.life, ps', k) { RecvPassAt(s.life.ps, i, k); }
    L.InvStates(s.life, ps');
    forall k | 0 <= k < |ps'| ensures MailOk(s', k) && ZombieOk(s', k) && PlaceOk(s', k) {
      InvRecvMail(s, i, k);
      InvRecvPlace(s, i, k);
    }
  }

  // ---------------------------------------------------------------- births and deaths

  /** The step empties the mailbox of slot t: exit() of its process, wait() reaping it, or allocproc. */
  ghost predicate Empties(l: L.State, e: L.Event, t: nat)
    requires L.Shaped(l) && L.Enabled(l, e) && t < |l.ps|
  {
    e == L.Exit(t) || (e.Wait? && l.ps[t].state == ZOMBIE) || (e.ForkClear? && l.at[e.i].child == t)
  }

  /** What a birth, a death or a wakeup does to slot t. */
  ghost predicate SlotStep(l: L.State, l': L.State, e: L.Event, t: nat)
    requires L.Shaped(l) && L.Enabled(l, e) && |l'.ps| == |l.ps| && |l'.at| == |l.at| && t < |l.ps|
  {
    var p, p' := l.ps[t], l'.ps[t];
    && (p'.hasMsg ==> p.hasMsg && p'.mailbox == p.mailbox)
    && (p.hasMsg && !p'.hasMsg ==> Empties(l, e, t))
    && (L.Alive(p) ==> p'.pid == p.pid && (if e == L.Exit(t) then p'.state == ZOMBIE && !p'.hasMsg else L.Alive(p')))
    && (p'.state == ZOMBIE && e != L.Exit(t) ==> p.state == ZOMBIE && p'.pid == p.pid && p'.hasMsg == p.hasMsg)
    && (p'.state == SLEEPING && !(e.Wait? && e.i == t) && !(e.Sleep? && e.i == t) ==>
          p.state == SLEEPING && p'.chan == p.chan && (e.Exit? ==> p.chan != OnMail(e.i)))
    && (e.Kill? || e.Wakeup? || e.i != t ==> l'.at[t] == l.at[t])
  }

  lemma ForkStepAt(l: L.State, e: L.Event, t: nat)
    requires L.Inv(l) && L.Enabled(l, e) && t < |l.ps|
    requires e.ForkAlloc? || e.ForkClear? || e.ForkDone? || e.ForkFails?
    ensures var l' := L.Next(l, e);
            |l'.ps| == |l.ps| && |l'.at| == |l.at| && l'.exited == l.exited && SlotStep(l, l', e, t)
  {
    if !e.ForkAlloc? { assert L.PlaceOk(l, e.i); }
  }

  lemma ExitStepAt(l: L.State, i: nat, t: nat)
    requires L.Inv(l) && L.Enabled(l, L.Exit(i)) && t < |l.ps|
    ensures var l' := L.Next(l, L.Exit(i));
            && |l'.ps| == |l.ps| && |l'.at| == |l.at| && l'.exited == l.exited + [l.ps[i].pid]
            && SlotStep(l, l', L.Exit(i), t)
  {
    hide Exited;
    L.ExitedAt(l.ps, i, l.init, t);
  }

  lemma OtherStepAt(l: L.State, e: L.Event, t: nat)
    requires L.Inv(l) && L.Enabled(l, e) && t < |l.ps|
    requires e.Wait? || e.Kill? || e.Sleep? || e.Wakeup?
    ensures var l' := L.Next(l, e);
            |l'.ps| == |l.ps| && |l'.at| == |l.at| && l'.exited == l.exited && SlotStep(l, l', e, t)
  {
  }

  lemma LifeAt(l: L.State, e: L.Event, t: nat)
    requires L.Inv(l) && L.Enabled(l, e) && t < |l.ps|
    ensures var l' := L.Next(l, e);
            && |l'.ps| == |l.ps| && |l'.at| == |l.at| && SlotStep(l, l', e, t)
            && l'.exited == if e.Exit? then l.exited + [l.ps[e.i].pid] else l.exited
  {
    hide L.Inv, L.Next, SlotStep;
    match e
    case Exit(i) => ExitStepAt(l, i, t);
    case ForkAlloc(_) => ForkStepAt(l, e, t);
    case ForkClear(_) => ForkStepAt(l, e, t);
    case ForkDone(_) => ForkStepAt(l, e, t);
    case ForkFails(_) => ForkStepAt(l, e, t);
    case _ => OtherStepAt(l, e, t);
  }

  lemma InvLifeMail(s: State, e: L.Event, t: nat)
    requires Inv(s) && Enabled(s, Life(e)) && t < |s.life.ps|
    ensures var s' := Next(s, Life(e)); Shaped(s') && MailOk(s', t) && ZombieOk(s', t)
  {
    hide L.Inv, L.Next, Exited;
    L.SameSize(s.life, e);
    LifeAt(s.life, e, t);
    if L.Alive(s.life.ps[t]) { LiveHasNotExited(s.life, t); }
    assert MailOk(s, t) && ZombieOk(s, t);
  }

  lemma InvLifePlace(s: State, e: L.Event, i: nat)
    requires Inv(s) && Enabled(s, Life(e)) && i < |s.life.ps|
    ensures var s' := Next(s, Life(e)); Shaped(s') && PlaceOk(s', i)
  {
    LifeAt(s.life, e, i);
    hide L.Inv, L.Next;
    assert PlaceOk(s, i);
    if s.place[i].Sending? {
      LifeAt(s.life, e, s.place[i].t);
      if e.Exit? { LifeAt(s.life, e, e.i); }
    }
  }

  lemma InvLife(s: State, e: L.Event)
    requires Inv(s) && Enabled(s, Life(e))
    ensures Inv(Next(s, Life(e)))
  {
    hide L.Inv, L.Next, MailOk, ZombieOk, PlaceOk;
    var s' := Next(s, Life(e));
    L.InvNext(s.life, e);
    LifeAt(s.life, e, s.life.init);
    InvLifeMail(s, e, s.life.init);
    forall t | 0 <= t < |s'.life.ps| ensures MailOk(s', t) && ZombieOk(s', t) { InvLifeMail(s, e, t); }
    forall i | 0 <= i < |s'.life.ps| ensures PlaceOk(s', i) { InvLifePlace(s, e, i); }
  }

  lemma InvNext(s: State, e: Event)
    requires Inv(s) && Enabled(s, e)
    ensures Inv(Next(s, e))
  {
    hide Inv, Next, Enabled;
    match e
    case Life(le) => InvLife(s, le);
    case Send(i, pid, m) => InvSend(s, i, pid, m);
    case Resume(i) => InvResume(s, i);
    case Recv(i) => InvRecv(s, i);
  }

  ghost predicate StepAt(es: seq<Event>, ss: seq<State>, i: nat)
    requires i < |es| && |ss| == |es| + 1
  {
    Shaped(ss[i]) && Enabled(ss[i], es[i]) && ss[i + 1] == Next(ss[i], es[i])
  }

  ghost predicate IsRun(es: seq<Event>, ss: seq<State>) {
    |ss| == |es| + 1 && Init(ss[0]) && forall i :: 0 <= i < |es| ==> StepAt(es, ss, i)
  }

  lemma {:induction false} InvRun(es: seq<Event>, ss: seq<State>, n: nat)
    requires IsRun(es, ss) && n <= |es|
    ensures Inv(ss[n])
  {
    hide Inv, Next, Enabled;
    if n == 0 {
      InitInv(ss[0]);
    } else {
      InvRun(es, ss, n - 1);
      assert StepAt(es, ss, n - 1);
      InvNext(ss[n - 1], es[n - 1]);
    }
  }

  ghost predicate Reachable(s: State) {
    exists es, ss :: IsRun(es, ss) && ss[|es|] == s
  }

  lemma ReachableInit(s: State)
    requires Init(s)
    ensures Reachable(s)
  {
    assert IsRun([], [s]);
  }

  lemma ReachableNext(s: State, e: Event)
    requires Reachable(s) && Shaped(s) && Enabled(s, e)
    ensures Reachable(Next(s, e))
  {
    hide Enabled, Next, Init;
    var es, ss :| IsRun(es, ss) && ss[|es|] == s;
    var es', ss' := es + [e], ss + [Next(s, e)];
    forall i | 0 <= i < |es'| ensures StepAt(es', ss', i) {
      if i < |es| { assert StepAt(es, ss, i); }
    }
    assert IsRun(es', ss') && ss'[|es'|] == Next(s, e);
  }

  lemma ReachableInv(s: State)
    requires Reachable(s)
    ensures Inv(s)
  {
    var es, ss :| IsRun(es, ss) && ss[|es|] == s;
    InvRun(es, ss, |es|);
  }

  /** Mailbox conservation in every reachable state: what was put in a mailbox was received, in order and
      unchanged, or was dropped, or is still in it.  A message sent while its receiver was alive is received by
      that process or dropped; a late one is received by another process or dropped. */
  lemma MailIsConserved(s: State, t: nat)
    requires Reachable(s) && Shaped(s) && t < |s.life.ps|
    ensures var p, ds, fs := s.life.ps[t], s.stored[t], s.fate[t];
            && |ds| == |fs| + (if p.hasMsg then 1 else 0)
            && (p.hasMsg ==> p.mailbox == ds[|fs|].m)
            && (forall k {:trigger ds[k]} :: 0 <= k < |ds| ==> ds[k].m.sender == ds[k].from)
            && (forall k {:trigger fs[k]} :: 0 <= k < |fs| && fs[k].Received? ==>
                  fs[k].m == ds[k].m && (ds[k].late <==> fs[k].pid != ds[k].wanted))
  {
    ReachableInv(s);
    assert MailOk(s, t);
  }

  /** In every reachable state a zombie has been sent at most one message. */
  lemma OneMessagePerZombie(s: State, t: nat, j: nat, k: nat)
    requires Reachable(s) && Shaped(s) && t < |s.life.ps| && j < k < |s.stored[t]|
    ensures var ds := s.stored[t]; ds[j].state == ds[k].state == ZOMBIE ==> ds[j].to != ds[k].to
  {
    ReachableInv(s);
    assert ZombieOk(s, t);
  }

  /** Until wait() reaps a process, at most one sender that asked for it after its exit is told success. */
  lemma OneSuccessUntilReaped(s: State, t: nat, j: nat, k: nat)
    requires Reachable(s) && Shaped(s) && t < |s.life.ps| && s.life.ps[t].state == ZOMBIE
    requires j < |s.stored[t]| && k < |s.stored[t]|
    requires var ds, q := s.stored[t], s.life.ps[t].pid; ds[j].late && ds[k].late && ds[j].wanted == ds[k].wanted == q
    ensures j == k
  {
    ReachableInv(s);
    assert ZombieOk(s, t);
    assert ToZombie(s.stored[t][j], s.life.ps[t].pid) && ToZombie(s.stored[t][k], s.life.ps[t].pid);
  }

  /** Of two late successes the earlier message is gone: dropped, or received by a process it was not for. */
  lemma EarlierLateMessageIsGone(s: State, t: nat, j: nat, k: nat)
    requires Reachable(s) && Shaped(s) && t < |s.life.ps| && j < k < |s.stored[t]| && s.stored[t][j].late
    ensures j < |s.fate[t]| && (s.fate[t][j].Dropped? || s.fate[t][j].pid != s.stored[t][j].wanted)
  {
    ReachableInv(s);
    assert MailOk(s, t);
    assert FateOk(s.stored[t][j], s.fate[t][j]);
  }

  // ---------------------------------------------------------------- senders blocked on a process that exits

  /** What process i, in the loop of ipc_send_msg, gets when its turn comes. */
  ghost function Outcome(s: State, i: nat): (r: Sent)
    requires Shaped(s) && i < |s.life.ps| && s.place[i].Sending? && s.place[i].t < |s.life.ps|
  {
    SendPass(s.life.ps, i, s.place[i].t, s.place[i].m).1
  }

  /** The receiver has not exited: it is still there, and the sender is refused only if one of them is killed. */
  lemma LiveReceiver(s: State, i: nat)
    requires Reachable(s) && Shaped(s) && i < |s.life.ps| && s.place[i].Sending?
    requires s.place[i].pid !in s.life.exited
    ensures s.place[i].t < |s.life.ps|
    ensures var p := s.life.ps[s.place[i].t];
            && L.Alive(p) && p.pid == s.place[i].pid
            && (Outcome(s, i).Delivered? <==> !p.hasMsg)
            && (Outcome(s, i).Refused? <==> p.hasMsg && (p.killed || s.life.ps[i].killed))
  {
    ReachableInv(s);
    assert PlaceOk(s, i);
  }

  /** The receiver has exited while the sender was blocked.  The sender is told success exactly when the
      mailbox of the slot is empty at its turn.  It is refused exactly when the mailbox is full and the slot
      is a zombie's or a free one, or one of the two is killed.  Otherwise it goes on sleeping.  A slot with a
      process in it, then, has a process the sender never asked for. */
  lemma ExitedReceiver(s: State, i: nat)
    requires Reachable(s) && Shaped(s) && i < |s.life.ps| && s.place[i].Sending?
    requires s.place[i].pid in s.life.exited
    ensures s.place[i].t < |s.life.ps|
    ensures var p := s.life.ps[s.place[i].t];
            && (Outcome(s, i).Delivered? <==> !p.hasMsg)
            && (Outcome(s, i).Refused? <==>
                  p.hasMsg && (p.state == ZOMBIE || p.state == UNUSED || p.killed || s.life.ps[i].killed))
            && (Outcome(s, i).Blocked? ==> L.Alive(p) || p.state == EMBRYO)
            && (L.Alive(p) || p.state == EMBRYO ==> p.pid != s.place[i].pid)
  {
    ReachableInv(s);
    assert PlaceOk(s, i);
    var t := s.place[i].t;
    if L.Alive(s.life.ps[t]) || s.life.ps[t].state == EMBRYO { LiveHasNotExited(s.life, t); }
  }

  // ---------------------------------------------------------------- lost wakeups

  /** Process i is asleep in ipc_send_msg although the mailbox it waits for is empty. */
  ghost predicate Stranded(s: State, i: nat)
    requires Shaped(s) && i < |s.life.ps|
  {
    && s.life.ps[i].state == SLEEPING && s.place[i].Sending?
    && s.place[i].t < |s.life.ps| && !s.life.ps[s.place[i].t].hasMsg
  }

  /** allocproc empties a mailbox that some sender sleeps on. */
  ghost predicate Strands(s: State, e: Event, i: nat)
    requires Shaped(s) && Enabled(s, e) && i < |s.life.ps|
  {
    && e.Life? && e.e.ForkClear?
    && s.life.ps[i].state == SLEEPING && s.place[i].Sending? && s.place[i].t == s.life.at[e.e.i].child
  }

  lemma SendStrands(s: State, i: nat, t: nat, pid: int, m: Msg, k: nat)
    requires Inv(s) && i < |s.life.ps| && t < |s.life.ps| && k < |s.life.ps| && s.life.ps[i].state == RUNNABLE
    ensures var (ps', r) := SendPass(s.life.ps, i, t, m);
            var s' := AfterSend(s, i, t, pid, m, ps', r);
            Shaped(s') && (Stranded(s', k) ==> Stranded(s, k))
  {
    hide SendPass, L.Inv;
    SendPassAt(s.life.ps, i, t, m, k);
    SendPassAt(s.life.ps, i, t, m, t);
    assert PlaceOk(s, k);
    if s.place[k].Sending? { SendPassAt(s.life.ps, i, t, m, s.place[k].t); }
  }

  lemma RecvStrands(s: State, i: nat, k: nat)
    requires Inv(s) && Enabled(s, Recv(i)) && k < |s.life.ps|
    ensures var s' := Next(s, Recv(i)); Shaped(s') && (Stranded(s', k) ==> Stranded(s, k))
  {
    hide RecvPass, L.Inv;
    assert PlaceOk(s, k);
    RecvPassAt(s.life.ps, i, k);
    if s.place[k].Sending? { RecvPassAt(s.life.ps, i, s.place[k].t); }
  }

  lemma LifeStrands(s: State, e: L.Event, k: nat)
    requires Inv(s) && Enabled(s, Life(e)) && k < |s.life.ps|
    ensures var s' := Next(s, Life(e));
            && Shaped(s') && |s'.life.ps| == |s.life.ps|
            && (Stranded(s', k) && !Stranded(s, k) <==> Strands(s, Life(e), k) && !Stranded(s, k))
  {
    LifeAt(s.life, e, k);
    InvLifePlace(s, e, k);
    assert PlaceOk(s, k);
    if s.place[k].Sending? { LifeAt(s.life, e, s.place[k].t); }
    if e.ForkClear? { assert L.PlaceOk(s.life, e.i); }
  }

  /** The only step that leaves a sender asleep on an empty mailbox is allocproc's, which empties it without the
      lock and wakes nobody; and it does so whenever a sender sleeps there. */
  lemma StrandedNext(s: State, e: Event, i: nat)
    requires Inv(s) && Enabled(s, e) && i < |s.life.ps|
    ensures var s' := Next(s, e); Shaped(s') && |s'.life.ps| == |s.life.ps|
    ensures Strands(s, e, i) ==> Stranded(Next(s, e), i)
    ensures Stranded(Next(s, e), i) ==> Stranded(s, i) || Strands(s, e, i)
  {
    hide L.Inv, L.Next, SendPass, RecvPass;
    match e
    case Life(le) =>
      LifeStrands(s, le, i);
      if Strands(s, e, i) { ClearStrands(s, le, i); }
    case Send(k, pid, m) =>
      var t := FindPid(s.life.ps, pid, 0);
      if t < |s.life.ps| { SendStrands(s, k, t, pid, m.(sender := s.life.ps[k].pid), i); }
    case Resume(k) =>
      assert PlaceOk(s, k);
      SendStrands(s, k, s.place[k].t, s.place[k].pid, s.place[k].m, i);
    case Recv(k) => RecvStrands(s, k, i);
  }

  lemma ClearStrands(s: State, e: L.Event, i: nat)
    requires Inv(s) && Enabled(s, Life(e)) && i < |s.life.ps| && Strands(s, Life(e), i)
    ensures Shaped(Next(s, Life(e))) && Stranded(Next(s, Life(e)), i)
  {
    assert PlaceOk(s, i) && L.PlaceOk(s.life, e.i);
  }

  /** No wakeup is lost, in any run, except by that step. */
  lemma {:induction false} NoLostWakeup(es: seq<Event>, ss: seq<State>, n: nat, i: nat)
    requires IsRun(es, ss) && n <= |es| && Shaped(ss[0]) && i < |ss[0].life.ps|
    ensures Inv(ss[n]) && |ss[n].life.ps| == |ss[0].life.ps|
    ensures Stranded(ss[n], i) ==>
              exists k :: 0 <= k < n && StepAt(es, ss, k) && i < |ss[k].life.ps| && Strands(ss[k], es[k], i)
    ensures ss[n].life.ps[i].state == SLEEPING && ss[n].place[i].Receiving? ==> !ss[n].life.ps[i].hasMsg
  {
    hide Next, Enabled, Stranded, Strands;
    InvRun(es, ss, n);
    if n > 0 {
      NoLostWakeup(es, ss, n - 1, i);
      assert StepAt(es, ss, n - 1);
      StrandedNext(ss[n - 1], es[n - 1], i);
    } else {
      NobodyStranded(ss[0], i);
    }
    assert PlaceOk(ss[n], i);
  }

  lemma NobodyStranded(s: State, i: nat)
    requires Init(s) && i < |s.life.ps|
    ensures !Stranded(s, i)
  {
  }

  /** Who sleeps is in wait(), waits for mail, waits to send, or sleeps on something else. */
  ghost predicate SleeperOk(s: State, i: nat)
    requires Shaped(s) && i < |s.life.ps|
  {
    var p := s.life.ps[i];
    p.state == SLEEPING ==>
      || p.chan.OnOther?
      || (p.chan == OnProc(i) && (s.life.at[i].InWait? || s.place[i].Receiving?))
      || (s.place[i].Sending? && p.chan == OnMail(s.place[i].t))
  }

  /** ipc_recv_msg returns, with the message or because the process is killed, or is in its loop. */
  lemma RecvMoves(s: State, i: nat)
    requires Shaped(s) && Enabled(s, Recv(i))
    ensures var s', got := Next(s, Recv(i)), RecvPass(s.life.ps, i).1;
            && s'.place == s.place[i := if got.Waiting? then Receiving else Outside]
            && s'.stored == s.stored && s'.life.at == s.life.at
            && s'.fate == if got.Got? then s.fate[i := s.fate[i] + [Received(s.life.ps[i].pid, got.m)]] else s.fate
  {
  }

  lemma SendSleeper(s: State, i: nat, t: nat, pid: int, m: Msg, k: nat)
    requires Shaped(s) && i < |s.life.ps| && t < |s.life.ps| && k < |s.life.ps| && s.life.ps[i].state == RUNNABLE
    requires SleeperOk(s, k)
    ensures var (ps, r) := SendPass(s.life.ps, i, t, m);
            var s' := AfterSend(s, i, t, pid, m, ps, r); Shaped(s') && SleeperOk(s', k)
  {
    hide SendPass;
    SendPassAt(s.life.ps, i, t, m, k);
  }

  lemma RefusedSleeper(s: State, i: nat, t: nat, pid: int, m: Msg, k: nat)
    requires Shaped(s) && Enabled(s, Send(i, pid, m)) && t < |s.life.ps| && k < |s.life.ps| && SleeperOk(s, k)
    ensures var s' := AfterSend(s, i, t, pid, m, s.life.ps, Refused); Shaped(s') && SleeperOk(s', k)
  {
  }

  lemma SleeperNext(s: State, e: Event, k: nat)
    requires Inv(s) && Enabled(s, e) && k < |s.life.ps| && SleeperOk(s, k)
    ensures Shaped(Next(s, e)) && |Next(s, e).life.ps| == |s.life.ps| && SleeperOk(Next(s, e), k)
  {
    SameSlots(s, e);
    match e
    case Life(le) => LifeSleeper(s, le, k);
    case Send(i, pid, m) =>
      hide Inv, SendPass, SleeperOk, AfterSend;
      var t := FindPid(s.life.ps, pid, 0);
      if t < |s.life.ps| {
        var m' := m.(sender := s.life.ps[i].pid);
        SendSleeper(s, i, t, pid, m', k);
        RefusedSleeper(s, i, t, pid, m', k);
      }
    case Resume(i) =>
      PlaceBound(s, i);
      hide Inv, SendPass, SleeperOk, AfterSend;
      SendSleeper(s, i, s.place[i].t, s.place[i].pid, s.place[i].m, k);
    case Recv(i) =>
      assert PlaceOk(s, k);
      RecvMoves(s, i);
      hide Inv, RecvPass;
      RecvPassAt(s.life.ps, i, k);
  }

  lemma LifeSleeper(s: State, e: L.Event, k: nat)
    requires Inv(s) && Enabled(s, Life(e)) && k < |s.life.ps| && SleeperOk(s, k)
    ensures Shaped(Next(s, Life(e))) && |Next(s, Life(e)).life.ps| == |s.life.ps| && SleeperOk(Next(s, Life(e)), k)
  {
    SameSlots(s, Life(e));
    assert PlaceOk(s, k);
    LifeAt(s.life, e, k);
    hide Inv, L.Inv;
  }

  /** In every run, who sleeps is in one of these places, and who sleeps for mail has none. */
  lemma {:induction false} SleepersRun(es: seq<Event>, ss: seq<State>, n: nat, i: nat)
    requires IsRun(es, ss) && n <= |es| && Shaped(ss[0]) && i < |ss[0].life.ps|
    ensures Inv(ss[n]) && |ss[n].life.ps| == |ss[0].life.ps| && SleeperOk(ss[n], i)
    ensures var p := ss[n].life.ps[i];
            p.state == SLEEPING && p.chan == OnProc(i) && !ss[n].life.at[i].InWait? ==> !p.hasMsg
    decreases n
  {
    hide Next, Enabled, SleeperOk, Inv;
    InvRun(es, ss, n);
    if n > 0 {
      SleepersRun(es, ss, n - 1, i);
      assert StepAt(es, ss, n - 1);
      SleeperNext(ss[n - 1], es[n - 1], i);
    } else {
      NobodySleeps(ss[0], i);
    }
    SleepsForMail(ss[n], i);
  }

  lemma NobodySleeps(s: State, i: nat)
    requires Init(s) && i < |s.life.ps|
    ensures SleeperOk(s, i)
  {
  }

  lemma SleepsForMail(s: State, i: nat)
    requires Inv(s) && i < |s.life.ps| && SleeperOk(s, i)
    ensures var p := s.life.ps[i];
            p.state == SLEEPING && p.chan == OnProc(i) && !s.life.at[i].InWait? ==> !p.hasMsg
  {
    assert PlaceOk(s, i);
  }

  // ---------------------------------------------------------------- what is sent is what was asked for

  /** In state s, event e is a send of m to process `wanted` by process `from`; the kernel fills in the sender. */
  ghost predicate Asks(s: State, e: Event, from: int, wanted: int, m: Msg) {
    && e.Send? && e.i < |s.life.ps| && s.life.ps[e.i].pid == from && e.pid == wanted
    && m == Msg(from, e.m.id, e.m.kind, e.m.nbytes, e.m.payload)
  }

  /** One of the first n events was that. */
  ghost predicate Asked(es: seq<Event>, ss: seq<State>, n: nat, from: int, wanted: int, m: Msg) {
    n <= |es| < |ss| && exists a :: 0 <= a < n && Asks(ss[a], es[a], from, wanted, m)
  }

  /** A message that is new in a mailbox comes from the call that the event is or resumes. */
  lemma NewMessage(s: State, e: Event, t: nat)
    requires Inv(s) && Enabled(s, e) && t < |s.life.ps|
    ensures Shaped(Next(s, e)) && |Next(s, e).life.ps| == |s.life.ps|
    ensures var ds, ds' := s.stored[t], Next(s, e).stored[t];
            || ds' == ds
            || (exists d :: ds' == ds + [d] && Asks(s, e, d.from, d.wanted, d.m))
            || (exists d :: ds' == ds + [d] && e.Resume? && s.place[e.i] == Sending(t, d.wanted, d.m)
                            && d.from == s.life.ps[e.i].pid)
  {
    InvNext(s, e);
    hide Inv, L.Inv, L.Next, SendPass, RecvPass;
    if Next(s, e).stored[t] != s.stored[t] {
      var d := Next(s, e).stored[t][|s.stored[t]|];
      assert Next(s, e).stored[t] == s.stored[t] + [d];
    }
  }

  /** Who is in the loop of ipc_send_msg has been there with the same message, or is there by its own call now. */
  lemma StillSending(s: State, e: Event, i: nat)
    requires Inv(s) && Enabled(s, e) && i < |s.life.ps|
    ensures Shaped(Next(s, e)) && |Next(s, e).life.ps| == |s.life.ps|
    ensures var w, w', pid := s.place[i], Next(s, e).place[i], Next(s, e).life.ps[i].pid;
            w'.Sending? ==>
              || (w.Sending? && w'.pid == w.pid && w'.m == w.m && pid == s.life.ps[i].pid)
              || Asks(s, e, pid, w'.pid, w'.m)
  {
    InvNext(s, e);
    PidKept(s, e, i);
    hide Inv, L.Inv, L.Next, SendPass, RecvPass;
  }

  lemma PidKept(s: State, e: Event, i: nat)
    requires Inv(s) && Enabled(s, e) && i < |s.life.ps|
    ensures |Next(s, e).life.ps| == |s.life.ps|
    ensures !s.place[i].Outside? || e.Send? ==> Next(s, e).life.ps[i].pid == s.life.ps[i].pid
  {
    assert PlaceOk(s, i);
    match e
    case Life(le) =>
      hide L.Inv, L.Next;
      LifeAt(s.life, le, i);
    case Send(k, pid, m) =>
      var t := FindPid(s.life.ps, pid, 0);
      if t < |s.life.ps| { SendPassAt(s.life.ps, k, t, m.(sender := s.life.ps[k].pid), i); }
    case Resume(k) =>
      assert PlaceOk(s, k);
      SendPassAt(s.life.ps, k, s.place[k].t, s.place[k].m, i);
    case Recv(k) => RecvPassAt(s.life.ps, k, i);
  }

  /** In every run, every message that was ever put in a mailbox, and every message of a process in the loop of
      ipc_send_msg, is the argument of a send by that process to the process it was meant for. */
  lemma {:induction false} MessagesAreArguments(es: seq<Event>, ss: seq<State>, n: nat)
    requires IsRun(es, ss) && n <= |es|
    ensures Inv(ss[n])
    ensures forall t, k {:trigger ss[n].stored[t][k]} :: 0 <= t < |ss[n].stored| && 0 <= k < |ss[n].stored[t]| ==>
              var d := ss[n].stored[t][k]; Asked(es, ss, n, d.from, d.wanted, d.m)
    ensures forall i {:trigger ss[n].place[i]} :: 0 <= i < |ss[n].place| && ss[n].place[i].Sending? ==>
              Asked(es, ss, n, ss[n].life.ps[i].pid, ss[n].place[i].pid, ss[n].place[i].m)
    decreases n
  {
    hide Inv, Next, Enabled, Asks, Init;
    InvRun(es, ss, n);
    ShapedInv(ss[n]);
    if n == 0 {
      NothingSent(ss[0]);
    } else {
      var s, s', e := ss[n - 1], ss[n], es[n - 1];
      MessagesAreArguments(es, ss, n - 1);
      ShapedInv(s);
      assert StepAt(es, ss, n - 1);
      SameSlots(s, e);
      forall t, k | 0 <= t < |s'.stored| && 0 <= k < |s'.stored[t]|
        ensures var d := s'.stored[t][k]; Asked(es, ss, n, d.from, d.wanted, d.m)
      {
        NewMessage(s, e, t);
        var d := s'.stored[t][k];
        AskedBefore(es, ss, n, d.from, d.wanted, d.m);
        if k < |s.stored[t]| {
          assert s.stored[t][k] == d;
        } else if Asks(s, e, d.from, d.wanted, d.m) {
          assert Asks(ss[n - 1], es[n - 1], d.from, d.wanted, d.m);
        } else {
          assert s.place[e.i] == Sending(t, d.wanted, d.m);
        }
      }
      forall i | 0 <= i < |s'.place| && s'.place[i].Sending?
        ensures Asked(es, ss, n, s'.life.ps[i].pid, s'.place[i].pid, s'.place[i].m)
      {
        StillSending(s, e, i);
        if Asks(s, e, s'.life.ps[i].pid, s'.place[i].pid, s'.place[i].m) {
          assert Asks(ss[n - 1], es[n - 1], s'.life.ps[i].pid, s'.place[i].pid, s'.place[i].m);
        } else { AskedBefore(es, ss, n, s'.life.ps[i].pid, s'.place[i].pid, s'.place[i].m); }
      }
    }
  }

  lemma SameSlots(s: State, e: Event)
    requires Inv(s) && Enabled(s, e)
    ensures Shaped(Next(s, e)) && |Next(s, e).life.ps| == |s.life.ps| && (e.Resume? ==> e.i < |s.life.ps|)
  {
    InvNext(s, e);
    hide Inv, L.Inv, SendPass, RecvPass;
    if e.Life? { L.SameSize(s.life, e.e); }
  }

  lemma ShapedInv(s: State)
    requires Inv(s)
    ensures Shaped(s)
  {
  }

  lemma NothingSent(s: State)
    requires Init(s)
    ensures Shaped(s) && forall i :: 0 <= i < |s.place| ==> s.place[i] == Outside && s.stored[i] == []
  {
  }

  lemma AskedBefore(es: seq<Event>, ss: seq<State>, n: nat, from: int, wanted: int, m: Msg)
    requires 0 < n <= |es|
    ensures Asked(es, ss, n - 1, from, wanted, m) ==> Asked(es, ss, n, from, wanted, m)
  {
    hide Asks;
  }

  // ---------------------------------------------------------------- and not more often

  ghost function Stored(stored: seq<seq<Delivery>>): (n: nat) {
    if stored == [] then 0 else Stored(stored[..|stored| - 1]) + |stored[|stored| - 1]|
  }

  ghost function Pending(place: seq<Place>): (n: nat) {
    if place == [] then 0 else Pending(place[..|place| - 1]) + if place[|place| - 1].Sending? then 1 else 0
  }

  ghost function Sends(es: seq<Event>): (n: nat) {
    if es == [] then 0 else Sends(es[..|es| - 1]) + if es[|es| - 1].Send? then 1 else 0
  }

  lemma {:induction false} StoredSet(stored: seq<seq<Delivery>>, t: nat, ds: seq<Delivery>)
    requires t < |stored|
    ensures Stored(stored[t := ds]) == Stored(stored) - |stored[t]| + |ds|
  {
    var n := |stored| - 1;
    if t == n { assert stored[t := ds][..n] == stored[..n]; }
    else {
      assert stored[t := ds][..n] == stored[..n][t := ds];
      StoredSet(stored[..n], t, ds);
    }
  }

  lemma {:induction false} PendingSet(place: seq<Place>, i: nat, w: Place)
    requires i < |place|
    ensures Pending(place[i := w]) ==
              Pending(place) - (if place[i].Sending? then 1 else 0) + (if w.Sending? then 1 else 0)
  {
    var n := |place| - 1;
    if i == n { assert place[i := w][..n] == place[..n]; }
    else {
      assert place[i := w][..n] == place[..n][i := w];
      PendingSet(place[..n], i, w);
    }
  }

  /** A step stores or leaves pending at most one message more than before, and only if it is a send. */
  lemma CountNext(s: State, e: Event)
    requires Inv(s) && Enabled(s, e)
    ensures Stored(Next(s, e).stored) + Pending(Next(s, e).place) <=
              Stored(s.stored) + Pending(s.place) + if e.Send? then 1 else 0
  {
    ShapedInv(s);
    hide Inv, L.Inv, L.Next, SendPass, RecvPass, Stored, Pending;
    match e
    case Life(_) =>
    case Send(i, pid, m) =>
      var t := FindPid(s.life.ps, pid, 0);
      if t < |s.life.ps| {
        var (ps, r) := SendFirst(s.life.ps, i, pid, m);
        CountAttempt(s, i, t, pid, m.(sender := s.life.ps[i].pid), ps, r);
      }
    case Resume(i) =>
      PlaceBound(s, i);
      var Sending(t, pid, m) := s.place[i];
      var (ps, r) := SendPass(s.life.ps, i, t, m);
      CountAttempt(s, i, t, pid, m, ps, r);
    case Recv(i) => PendingSet(s.place, i, Next(s, e).place[i]);
  }

  lemma PlaceBound(s: State, i: nat)
    requires Inv(s) && i < |s.life.ps| && s.place[i].Sending?
    ensures s.place[i].t < |s.life.ps|
  {
    assert PlaceOk(s, i);
  }

  lemma CountAttempt(s: State, i: nat, t: nat, pid: int, m: Msg, ps: Table, r: Sent)
    requires Shaped(s) && i < |s.life.ps| && t < |s.life.ps|
    ensures var s' := AfterSend(s, i, t, pid, m, ps, r);
            Stored(s'.stored) + Pending(s'.place) <=
              Stored(s.stored) + Pending(s.place) + if s.place[i].Sending? then 0 else 1
  {
    var s' := AfterSend(s, i, t, pid, m, ps, r);
    hide Stored, Pending;
    PendingSet(s.place, i, s'.place[i]);
    StoredSet(s.stored, t, s'.stored[t]);
    assert s'.place == s.place[i := s'.place[i]];
    assert s'.stored == s.stored[t := s'.stored[t]];
  }

  /** In every run there are never more messages, in mailboxes by now or still to be put there, than sends were made. */
  lemma {:induction false} NoMessageTwice(es: seq<Event>, ss: seq<State>, n: nat)
    requires IsRun(es, ss) && n <= |es|
    ensures Stored(ss[n].stored) + Pending(ss[n].place) <= Sends(es[..n])
    decreases n
  {
    hide Inv, Next, Enabled;
    if n == 0 {
      NothingSent(ss[0]);
      NothingStored(ss[0].stored);
      NothingPending(ss[0].place);
    } else {
      NoMessageTwice(es, ss, n - 1);
      InvRun(es, ss, n - 1);
      assert StepAt(es, ss, n - 1);
      CountNext(ss[n - 1], es[n - 1]);
      assert es[..n][..n - 1] == es[..n - 1];
    }
  }

  lemma {:induction false} NothingStored(stored: seq<seq<Delivery>>)
    requires forall t :: 0 <= t < |stored| ==> stored[t] == []
    ensures Stored(stored) == 0
  {
    if stored != [] { NothingStored(stored[..|stored| - 1]); }
  }

  lemma {:induction false} NothingPending(place: seq<Place>)
    requires forall i :: 0 <= i < |place| ==> place[i] == Outside
    ensures Pending(place) == 0
  {
    if place != [] { NothingPending(place[..|place| - 1]); }
  }
}
