/** Runs of the kernel in which a process exits with two senders blocked on its mailbox. */
module DeadLetters {
  import opened Prelude
  import opened ProcTable
  import opened Mailbox

  /** A request: any valid message would do. */
  const REQUEST := Msg(0, 0, 1, 0, [])

  function From(pid: int): Msg {
    REQUEST.(sender := pid)
  }

  /** Init in slot 0; the others are its children. */
  function Slot(state: RunState, pid: int, parent: Option<nat>, chan: Chan, mail: Option<Msg>): Proc {
    if mail.Some? then Proc(state, pid, parent, chan, false, true, mail.value)
    else Proc(state, pid, parent, chan, false, false, NO_MSG)
  }

  const FREE := Slot(UNUSED, 0, None, NoChan, None)
  const INITPROC := Slot(RUNNABLE, 1, None, NoChan, None)

  function Child(pid: int): Proc {
    Slot(RUNNABLE, pid, Some(0), NoChan, None)
  }

  /** Everybody is outside ipc_send_msg and ipc_recv_msg, and no message was ever sent. */
  function Plain(ps: Table, at: seq<L.Where>, nextpid: int, forker: map<int, int>): State {
    State(L.State(0, ps, at, nextpid, [], [], forker), [Outside, Outside, Outside, Outside], [[], [], [], []],
          [[], [], [], []])
  }

  /** The first n children of init. */
  function ByInit(n: nat): map<int, int> {
    if n == 0 then map[] else ByInit(n - 1)[n + 1 := 1]
  }

  const IDLE: seq<L.Where> := [L.Elsewhere, L.Elsewhere, L.Elsewhere, L.Elsewhere]

  /** fork() by init, into slot c. */
  lemma Forks(ps: Table, c: nat)
    requires |ps| == 4 && 1 <= c < 4 && ps[0] == INITPROC && ps[c] == FREE
    requires forall i :: 0 <= i < c ==> ps[i].state != UNUSED
    requires Reachable(Plain(ps, IDLE, c + 1, ByInit(c - 1)))
    ensures Reachable(Plain(ps[c := Child(c + 1)], IDLE, c + 2, ByInit(c)))
  {
    hide Reachable;
    var s0 := Plain(ps, IDLE, c + 1, ByInit(c - 1));
    var embryo := Embryo(FREE, c + 1);
    var s1 := Plain(ps[c := embryo], IDLE[0 := L.InFork(c, false)], c + 2, ByInit(c - 1));
    var s2 := Plain(ps[c := embryo], IDLE[0 := L.InFork(c, true)], c + 2, ByInit(c - 1));
    var s3 := Plain(ps[c := Child(c + 1)], IDLE, c + 2, ByInit(c));
    ReachableNext(s0, Life(L.ForkAlloc(0)));
    assert FindUnused(ps, 0) == c;
    assert Next(s0, Life(L.ForkAlloc(0))) == s1;
    ReachableNext(s1, Life(L.ForkClear(0)));
    assert Next(s1, Life(L.ForkClear(0))) == s2;
    ReachableNext(s2, Life(L.ForkDone(0)));
    assert Next(s2, Life(L.ForkDone(0))) == s3;
  }

  lemma Boot()
    ensures Reachable(Plain([INITPROC, FREE, FREE, FREE], IDLE, 2, map[]))
  {
    hide Reachable;
    ReachableInit(Plain([INITPROC, FREE, FREE, FREE], IDLE, 2, map[]));
  }

  /** Four processes, and nothing has happened between them yet. */
  lemma Born()
    ensures Reachable(Plain([INITPROC, Child(2), Child(3), Child(4)], IDLE, 5, ByInit(3)))
  {
    hide Reachable, Plain;
    Boot();
    var ps0 := [INITPROC, FREE, FREE, FREE];
    var ps1 := [INITPROC, Child(2), FREE, FREE];
    var ps2 := [INITPROC, Child(2), Child(3), FREE];
    var ps3 := [INITPROC, Child(2), Child(3), Child(4)];
    Forks(ps0, 1);
    assert ps0[1 := Child(2)] == ps1;
    Forks(ps1, 2);
    assert ps1[2 := Child(3)] == ps2;
    Forks(ps2, 3);
    assert ps2[3 := Child(4)] == ps3;
  }

  /** Only the receiver's slot, the two senders and init's fork change from here on. */
  function With(receiver: Proc, a: Proc, b: Proc, fork: L.Where, nextpid: int, exited: seq<int>, reaped: seq<int>,
                pa: Place, pb: Place, stored: seq<Delivery>, fate: seq<Fate>): State
  {
    var at := [fork, L.Elsewhere, L.Elsewhere, L.Elsewhere];
    State(L.State(0, [INITPROC, receiver, a, b], at, nextpid, exited, reaped, ByInit(3)),
          [Outside, Outside, pa, pb], [[], stored, [], []], [[], fate, [], []])
  }

  function First(): Delivery {
    Delivery(1, 2, RUNNABLE, 2, false, From(1))
  }

  function Sender(pid: int, state: RunState): Proc {
    Slot(state, pid, Some(0), OnMail(1), None)
  }

  /** Blocked in ipc_send_msg on slot 1, which it looked up as pid 2. */
  function ToSlot1(pid: int): Place {
    Sending(1, 2, From(pid))
  }

  lemma NobodyWakes(ps: Table, c: Chan)
    requires forall i :: 0 <= i < |ps| ==> !(ps[i].state == SLEEPING && ps[i].chan == c)
    ensures Woken(ps, c) == ps
  {
  }

  function Full(state: RunState, pid: int, from: int): Proc {
    Slot(state, pid, Some(0), NoChan, Some(From(from)))
  }

  /** Init sends the receiver a message that it does not read. */
  lemma OneMessage()
    ensures Reachable(With(Full(RUNNABLE, 2, 1), Child(3), Child(4), L.Elsewhere, 5, [], [],
                           Outside, Outside, [First()], []))
  {
    hide Reachable;
    Born();
    var ps := [INITPROC, Child(2), Child(3), Child(4)];
    var s0, e := Plain(ps, IDLE, 5, ByInit(3)), Send(0, 2, REQUEST);
    ReachableNext(s0, e);
    assert FindPid(ps, 2, 0) == FindPid(ps, 2, 1) == 1;
    var ps' := [INITPROC, Full(RUNNABLE, 2, 1), Child(3), Child(4)];
    assert ps[1 := ps[1].(mailbox := From(1), hasMsg := true)] == ps';
    NobodyWakes(ps', OnProc(1));
    assert SendFirst(ps, 0, 2, REQUEST) == (ps', Delivered);
    var s1 := With(Full(RUNNABLE, 2, 1), Child(3), Child(4), L.Elsewhere, 5, [], [], Outside, Outside, [First()], []);
    assert s0.stored[1] + [First()] == [First()];
    assert s0.stored[1 := [First()]] == s1.stored && s0.place[0 := Outside] == s1.place;
    assert s0.life.(ps := ps') == s1.life;
    assert Next(s0, e) == s1;
  }

  /** The receiver's slot, full, with both senders blocked on it. */
  lemma TwoBlocked()
    ensures Reachable(With(Full(RUNNABLE, 2, 1), Sender(3, SLEEPING), Sender(4, SLEEPING), L.Elsewhere, 5, [], [],
                           ToSlot1(3), ToSlot1(4), [First()], []))
  {
    hide Reachable;
    OneMessage();
    var r := Full(RUNNABLE, 2, 1);
    var s0 := With(r, Child(3), Child(4), L.Elsewhere, 5, [], [], Outside, Outside, [First()], []);
    var s1 := With(r, Sender(3, SLEEPING), Child(4), L.Elsewhere, 5, [], [], ToSlot1(3), Outside, [First()], []);
    var s2 :=
      With(r, Sender(3, SLEEPING), Sender(4, SLEEPING), L.Elsewhere, 5, [], [], ToSlot1(3), ToSlot1(4), [First()], []);
    Blocks(s0, 2, s1);
    Blocks(s1, 3, s2);
  }

  /** One of the children asks for pid 2 and blocks. */
  lemma Blocks(s: State, i: nat, s': State)
    requires Reachable(s) && |s.life.ps| == 4 && Shaped(s) && Enabled(s, Send(i, 2, REQUEST)) && 2 <= i < 4
    requires s.life.ps[0] == INITPROC && s.life.ps[1] == Full(RUNNABLE, 2, 1) && s.life.ps[i] == Child(i + 1)
    requires s'.life == s.life.(ps := s.life.ps[i := Sender(i + 1, SLEEPING)])
    requires s' == s.(life := s'.life, place := s.place[i := ToSlot1(i + 1)])
    ensures Reachable(s')
  {
    hide Reachable;
    ReachableNext(s, Send(i, 2, REQUEST));
    assert FindPid(s.life.ps, 2, 0) == FindPid(s.life.ps, 2, 1) == 1;
    assert SendFirst(s.life.ps, i, 2, REQUEST) == (s'.life.ps, Blocked(1));
  }

  /** The receiver exits. */
  function Exit1(): State {
    With(Slot(ZOMBIE, 2, Some(0), NoChan, None), Sender(3, RUNNABLE), Sender(4, RUNNABLE), L.Elsewhere, 5, [2], [],
         ToSlot1(3), ToSlot1(4), [First()], [Dropped])
  }

  lemma Exits()
    ensures Reachable(Exit1())
  {
    hide Reachable;
    TwoBlocked();
    var s := With(Full(RUNNABLE, 2, 1), Sender(3, SLEEPING), Sender(4, SLEEPING), L.Elsewhere, 5, [], [],
                  ToSlot1(3), ToSlot1(4), [First()], []);
    var e := Life(L.Exit(1));
    ReachableNext(s, e);
    ExitedIs(s.life.ps, Exit1().life.ps);
    assert s.fate[1] + [Dropped] == [Dropped];
    assert Emptying(s.life.ps, Exit1().life.ps, s.fate) == Exit1().fate;
    assert Next(s, e) == Exit1();
  }

  lemma ExitedIs(ps: Table, ps': Table)
    requires ps == [INITPROC, Full(RUNNABLE, 2, 1), Sender(3, SLEEPING), Sender(4, SLEEPING)]
    requires ps' == [INITPROC, Slot(ZOMBIE, 2, Some(0), NoChan, None), Sender(3, RUNNABLE), Sender(4, RUNNABLE)]
    ensures Exited(ps, 1, 0) == ps'
  {
    var ps1 := ps[1 := Emptied(ps[1])];
    var ps2 := [INITPROC, Child(2), Sender(3, RUNNABLE), Sender(4, RUNNABLE)];
    assert Woken(ps1, OnMail(1)) == ps2;
    NobodyWakes(ps2, OnProc(0));
    assert AdoptedAll(ps2, 1, 0) == ps2;
    assert !LeavesZombie(ps2, 1);
  }

  // ---------------------------------------------------------------- what can happen after the exit

  /** A woken sender finds the mailbox of slot 1 empty. */
  lemma Delivers(s: State, i: nat) returns (s': State)
    requires Reachable(s) && Shaped(s) && |s.life.ps| == 4 && 2 <= i < 4
    requires s.life.ps[i] == Sender(i + 1, RUNNABLE) && s.place[i] == ToSlot1(i + 1) && !s.life.ps[1].hasMsg
    requires forall k :: 0 <= k < 4 ==> !(s.life.ps[k].state == SLEEPING && s.life.ps[k].chan == OnProc(1))
    ensures Reachable(s') && Shaped(s')
    ensures s'.life == s.life.(ps := s.life.ps[1 := s.life.ps[1].(mailbox := From(i + 1), hasMsg := true)])
    ensures s'.place == s.place[i := Outside] && s'.fate == s.fate
    ensures var d := Delivery(i + 1, 2, s.life.ps[1].state, s.life.ps[1].pid, 2 in s.life.exited, From(i + 1));
            s'.stored == s.stored[1 := s.stored[1] + [d]]
  {
    hide Reachable;
    ReachableNext(s, Resume(i));
    var ps' := s.life.ps[1 := s.life.ps[1].(mailbox := From(i + 1), hasMsg := true)];
    NobodyWakes(ps', OnProc(1));
    assert SendPass(s.life.ps, i, 1, From(i + 1)) == (ps', Delivered);
    s' := Next(s, Resume(i));
  }

  /** Init reaps slot 1. */
  lemma Reaps(s: State) returns (s': State)
    requires Reachable(s) && Shaped(s) && |s.life.ps| == 4 && s.life.ps[0] == INITPROC
    requires s.life.at[0] == L.Elsewhere && s.place[0] == Outside
    requires s.life.ps[1].state == ZOMBIE && s.life.ps[1].parent == Some(0)
    ensures Reachable(s') && Shaped(s')
    ensures s'.life == s.life.(ps := s.life.ps[1 := Reaped(s.life.ps[1])], reaped := s.life.reaped + [s.life.ps[1].pid])
    ensures s'.place == s.place && s'.stored == s.stored
    ensures s'.fate == if s.life.ps[1].hasMsg then s.fate[1 := s.fate[1] + [Dropped]] else s.fate
  {
    hide Reachable;
    ReachableNext(s, Life(L.Wait(0)));
    assert FindZombie(s.life.ps, 0, 0) == FindZombie(s.life.ps, 0, 1) == 1;
    assert WaitPass(s.life.ps, 0) == (s.life.ps[1 := Reaped(s.life.ps[1])], Waited.Child(s.life.ps[1].pid));
    assert s.life.at[0 := L.Elsewhere] == s.life.at;
    s' := Next(s, Life(L.Wait(0)));
    assert s'.fate == if s.life.ps[1].hasMsg then s.fate[1 := s.fate[1] + [Dropped]] else s.fate;
  }

  /** Init's fork takes slot 1 and lets go of the lock. */
  lemma Allocates(s: State) returns (s': State)
    requires Reachable(s) && Shaped(s) && |s.life.ps| == 4 && s.life.ps[0] == INITPROC
    requires s.life.at[0] == L.Elsewhere && s.place[0] == Outside && s.life.ps[1].state == UNUSED
    ensures Reachable(s') && Shaped(s')
    ensures s'.life == L.WithEmbryo(s.life, 0, 1)
    ensures s'.place == s.place && s'.stored == s.stored && s'.fate == s.fate
  {
    hide Reachable;
    ReachableNext(s, Life(L.ForkAlloc(0)));
    assert FindUnused(s.life.ps, 0) == FindUnused(s.life.ps, 1) == 1;
    s' := Next(s, Life(L.ForkAlloc(0)));
    assert s'.fate == s.fate;
  }

  /** The first woken sender is told success by the zombie; the second is refused. */
  lemma SecondSenderIsRefused() returns (s: State)
    ensures Reachable(s) && Shaped(s) && |s.life.ps| == 4 && s.life.exited == [2] && s.life.ps[1].state == ZOMBIE
    ensures s.stored[1] == [First(), Delivery(3, 2, ZOMBIE, 2, true, From(3))]
    ensures s.place[3] == ToSlot1(4) && Outcome(s, 3) == Refused
  {
    hide Reachable;
    Exits();
    s := Delivers(Exit1(), 2);
  }

  /** The same two senders are both told success if init reaps the zombie between their turns. */
  lemma BothSendersSucceed() returns (s: State)
    ensures Reachable(s) && Shaped(s) && |s.life.ps| == 4 && s.life.exited == [2]
    ensures s.stored[1] == [First(), Delivery(3, 2, ZOMBIE, 2, true, From(3)), Delivery(4, 2, UNUSED, 0, true, From(4))]
    ensures s.fate[1] == [Dropped, Dropped]
  {
    hide Reachable;
    Exits();
    s := Delivers(Exit1(), 2);
    s := Reaps(s);
    s := Delivers(s, 3);
  }

  /** Init reaps the zombie and forks; a woken sender's message goes to the new process, which it never asked for. */
  lemma StrangerGetsTheMessage() returns (s: State)
    ensures Reachable(s) && Shaped(s) && |s.life.ps| == 4 && s.life.exited == [2]
    ensures s.life.ps[1].state == RUNNABLE && s.life.ps[1].pid == 5
    ensures s.place[2] == ToSlot1(3) && Outcome(s, 2) == Delivered
  {
    hide Reachable;
    Exits();
    s := Reaps(Exit1());
    s := Allocates(s);
    ReachableNext(s, Life(L.ForkClear(0)));
    s := Next(s, Life(L.ForkClear(0)));
    ReachableNext(s, Life(L.ForkDone(0)));
    s := Next(s, Life(L.ForkDone(0)));
  }

  /** One sender's message goes to the free slot; the other finds it there after fork has taken the slot and
      sleeps; then allocproc empties the mailbox. */
  lemma SenderIsStranded() returns (s: State)
    ensures Reachable(s) && Shaped(s) && |s.life.ps| == 4 && Stranded(s, 3)
  {
    hide Reachable;
    Exits();
    s := Reaps(Exit1());
    s := Delivers(s, 2);
    s := Allocates(s);
    ReachableNext(s, Resume(3));
    s := Next(s, Resume(3));
    ReachableNext(s, Life(L.ForkClear(0)));
    s := Next(s, Life(L.ForkClear(0)));
  }
}
