/** Birth, death and reaping of processes: fork, exit, wait and kill of proc.c under every
    interleaving of their critical sections, among sleeps and wakeups of any other kind. */
module Lifecycle {
  import opened Prelude
  import opened ProcTable

  /** Where a process is: in wait()'s loop, in fork() with a child not yet runnable, or anywhere else.
      `clean`: allocproc has emptied the child's mailbox. */
  datatype Where = Elsewhere | InWait | InFork(child: nat, clean: bool)

  /** exited: the pids of the processes that exited; reaped: those that wait() has returned, oldest first; forker: for
      the pid of each process that fork() made, the pid of the process that called fork(). */
  datatype State = State(
    init: nat, ps: Table, at: seq<Where>, nextpid: int, exited: seq<int>, reaped: seq<int>, forker: map<int, int>)

  datatype Event =
    | ForkAlloc(i: nat)
    | ForkClear(i: nat)
    | ForkDone(i: nat)
    | ForkFails(i: nat)
    | Exit(i: nat)
    | Wait(i: nat)
    | Kill(pid: int)
    | Sleep(i: nat, c: Chan)
    | Wakeup(c: Chan)

  ghost predicate Shaped(s: State) {
    s.init < |s.ps| == |s.at|
  }

  predicate Alive(p: Proc) {
    p.state == RUNNABLE || p.state == SLEEPING
  }

  ghost predicate InForkOf(s: State, i: nat)
    requires Shaped(s)
  {
    i < |s.ps| && s.ps[i].state == RUNNABLE && s.at[i].InFork? && s.at[i].child < |s.ps|
  }

  ghost predicate Enabled(s: State, e: Event)
    requires Shaped(s)
  {
    match e
    case ForkAlloc(i) => i < |s.ps| && s.ps[i].state == RUNNABLE && s.at[i].Elsewhere?
    case ForkClear(i) => InForkOf(s, i) && !s.at[i].clean
    case ForkDone(i) => InForkOf(s, i) && s.at[i].clean
    case ForkFails(i) => InForkOf(s, i) && s.at[i].clean
    case Exit(i) =>
      i < |s.ps| && i != s.init && s.ps[i].state == RUNNABLE && s.at[i].Elsewhere? && s.ps[i].parent.Some?
    case Wait(i) => i < |s.ps| && s.ps[i].state == RUNNABLE && !s.at[i].InFork?
    case Kill(_) => true
    case Sleep(i, _) => i < |s.ps| && s.ps[i].state == RUNNABLE && s.at[i].Elsewhere?
    case Wakeup(_) => true
  }

  function WithEmbryo(s: State, i: nat, j: nat): (s': State)
    requires j < |s.ps| && i < |s.at|
  {
    s.(ps := s.ps[j := Embryo(s.ps[j], s.nextpid)], nextpid := s.nextpid + 1, at := s.at[i := InFork(j, false)])
  }

  ghost function Next(s: State, e: Event): (s': State)
    requires Shaped(s) && Enabled(s, e)
  {
    match e
    case ForkAlloc(i) =>
      var j := FindUnused(s.ps, 0);
      if j == |s.ps| then s
      else WithEmbryo(s, i, j)
    case ForkClear(i) =>
      var j := s.at[i].child;
      s.(ps := s.ps[j := Emptied(s.ps[j])], at := s.at[i := InFork(j, true)])
    case ForkDone(i) =>
      var j := s.at[i].child;
      s.(ps := s.ps[j := s.ps[j].(parent := Some(i), state := RUNNABLE)], at := s.at[i := Elsewhere],
         forker := s.forker[s.ps[j].pid := s.ps[i].pid])
    case ForkFails(i) =>
      var j := s.at[i].child;
      s.(ps := s.ps[j := s.ps[j].(state := UNUSED)], at := s.at[i := Elsewhere])
    case Exit(i) => s.(ps := Exited(s.ps, i, s.init), exited := s.exited + [s.ps[i].pid])
    case Wait(i) =>
      var (ps, r) := WaitPass(s.ps, i);
      s.(ps := ps, at := s.at[i := if r.MustWait? then InWait else Elsewhere],
         reaped := if r.Child? then s.reaped + [r.pid] else s.reaped)
    case Kill(pid) => s.(ps := Killed(s.ps, pid).0)
    case Sleep(i, c) => s.(ps := s.ps[i := Asleep(s.ps[i], c)])
    case Wakeup(c) => s.(ps := Woken(s.ps, c))
  }

  // ---------------------------------------------------------------- the invariant

  /** A process's parent can still wait for it; slots without a process have no parent. */
  ghost predicate ParentOk(s: State, j: nat)
    requires Shaped(s) && j < |s.ps|
  {
    var p := s.ps[j];
    && (p.parent.Some? ==> p.parent.value < |s.ps| && p.parent.value != j && Alive(s.ps[p.parent.value]))
    && (p.state == UNUSED || p.state == EMBRYO ==> p.parent == None)
    && ((Alive(p) || p.state == ZOMBIE) && j != s.init ==> p.parent.Some?)
  }

  /** A process asleep in wait() has no zombie child, and a process in fork() owns its embryo. */
  ghost predicate PlaceOk(s: State, i: nat)
    requires Shaped(s) && i < |s.ps|
  {
    && (s.at[i].InWait? && s.ps[i].state == SLEEPING ==>
          && s.ps[i].chan == OnProc(i)
          && forall j :: 0 <= j < |s.ps| && s.ps[j].parent == Some(i) ==> s.ps[j].state != ZOMBIE)
    && (s.at[i].InFork? ==> Alive(s.ps[i]) && s.at[i].child < |s.ps| && s.ps[s.at[i].child].state == EMBRYO)
    && (!Alive(s.ps[i]) ==> s.at[i].Elsewhere?)
  }

  /** Pids in use are distinct and younger than nextpid; of them exactly the zombies' have exited, and none
      was reaped. */
  ghost predicate PidsOk(s: State)
    requires Shaped(s)
  {
    && (forall i :: 0 <= i < |s.ps| && s.ps[i].state != UNUSED ==>
          s.ps[i].pid < s.nextpid && s.ps[i].pid !in s.reaped && (s.ps[i].pid in s.exited <==> s.ps[i].state == ZOMBIE))
    && (forall i, j :: 0 <= i < j < |s.ps| && s.ps[i].state != UNUSED && s.ps[j].state != UNUSED
          ==> s.ps[i].pid != s.ps[j].pid)
    && (forall a :: 0 <= a < |s.exited| ==> s.exited[a] < s.nextpid)
    && (forall a, b :: 0 <= a < b < |s.reaped| ==> s.reaped[a] != s.reaped[b])
    && (forall a :: 0 <= a < |s.reaped| ==> s.reaped[a] < s.nextpid && s.reaped[a] in s.exited)
  }

  ghost predicate ForksDistinct(s: State)
    requires Shaped(s)
  {
    forall i, k :: 0 <= i < |s.ps| && 0 <= k < |s.ps| && i != k && s.at[i].InFork? && s.at[k].InFork?
      ==> s.at[i].child != s.at[k].child
  }

  ghost predicate Inv(s: State) {
    && Shaped(s) && Alive(s.ps[s.init]) && s.ps[s.init].parent == None && PidsOk(s) && ForksDistinct(s)
    && (forall j :: 0 <= j < |s.ps| ==> ParentOk(s, j))
    && (forall i :: 0 <= i < |s.ps| ==> PlaceOk(s, i))
  }

  /** userinit: one process, and it has no parent. */
  ghost predicate Init(s: State) {
    && Shaped(s) && s.ps[s.init].state == RUNNABLE && s.ps[s.init].pid < s.nextpid && s.exited == s.reaped == []
    && (forall i :: 0 <= i < |s.ps| ==>
          s.at[i] == Elsewhere && s.ps[i].parent == None && (i != s.init ==> s.ps[i].state == UNUSED))
  }

  lemma InitInv(s: State)
    requires Init(s)
    ensures Inv(s)
  {
  }

  lemma EmbryoPids(s: State, i: nat, j: nat)
    requires Shaped(s) && PidsOk(s) && j < |s.ps| && i < |s.ps| && s.ps[j].state == UNUSED
    ensures PidsOk(WithEmbryo(s, i, j))
  {
  }

  lemma InvForkAlloc(s: State, i: nat)
    requires Inv(s) && Enabled(s, ForkAlloc(i))
    ensures Inv(Next(s, ForkAlloc(i)))
  {
    hide PidsOk;
    var c := FindUnused(s.ps, 0);
    if c < |s.ps| {
      var s' := WithEmbryo(s, i, c);
      EmbryoPids(s, i, c);
      forall k | 0 <= k < |s.ps| && s.at[k].InFork?
        ensures s.at[k].child < |s.ps| && s.ps[s.at[k].child].state == EMBRYO
      {
        assert PlaceOk(s, k);
      }
      forall j | 0 <= j < |s.ps| ensures ParentOk(s', j) { assert ParentOk(s, j); }
      forall j | 0 <= j < |s.ps| ensures PlaceOk(s', j) { assert PlaceOk(s, j); }
    }
  }

  lemma InvForkClear(s: State, i: nat)
    requires Inv(s) && Enabled(s, ForkClear(i))
    ensures Inv(Next(s, ForkClear(i)))
  {
    var s' := Next(s, ForkClear(i));
    assert PlaceOk(s, i);
    forall j | 0 <= j < |s.ps| ensures ParentOk(s', j) && PlaceOk(s', j) { assert ParentOk(s, j) && PlaceOk(s, j); }
  }

  lemma InvForkDone(s: State, i: nat)
    requires Inv(s) && Enabled(s, ForkDone(i))
    ensures Inv(Next(s, ForkDone(i)))
  {
    var s' := Next(s, ForkDone(i));
    assert PlaceOk(s, i);
    forall j | 0 <= j < |s.ps| ensures ParentOk(s', j) && PlaceOk(s', j) { assert ParentOk(s, j) && PlaceOk(s, j); }
  }

  lemma InvForkFails(s: State, i: nat)
    requires Inv(s) && Enabled(s, ForkFails(i))
    ensures Inv(Next(s, ForkFails(i)))
  {
    var s' := Next(s, ForkFails(i));
    assert PlaceOk(s, i);
    forall j | 0 <= j < |s.ps| ensures ParentOk(s', j) && PlaceOk(s', j) { assert ParentOk(s, j) && PlaceOk(s, j); }
  }

  /** exit() process by process: who is reparented, who is woken, whose mailbox is emptied, who becomes
      the zombie. */
  lemma ExitedAt(ps: Table, me: nat, init: nat, k: nat)
    requires me < |ps| && ps[me].parent.Some? && k < |ps| && me != init && ps[me].state == RUNNABLE
    ensures var r := Exited(ps, me, init)[k];
            && r.pid == ps[k].pid && r.chan == ps[k].chan && r.killed == ps[k].killed
            && r.parent == (if ps[k].parent == Some(me) then Some(init) else ps[k].parent)
            && (k == me ==> r.state == ZOMBIE && !r.hasMsg)
            && (k != me ==> r.state == ps[k].state || (ps[k].state == SLEEPING && r.state == RUNNABLE))
            && (k != me ==> r.hasMsg == ps[k].hasMsg && r.mailbox == ps[k].mailbox)
            && (k != me && r.state == SLEEPING ==>
                  && r.chan != OnProc(ps[me].parent.value) && r.chan != OnMail(me)
                  && (LeavesZombie(ps, me) ==> r.chan != OnProc(init)))
  {
    hide LeavesZombie;
    var ps1 := ps[me := Emptied(ps[me])];
    var ps2 := Woken(Woken(ps1, OnMail(me)), OnProc(ps[me].parent.value));
    if LeavesZombie(ps, me) { ZombieStays(ps, ps2, me); }
  }

  lemma ZombieStays(ps: Table, ps2: Table, me: nat)
    requires |ps2| == |ps| && LeavesZombie(ps, me)
    requires forall k :: 0 <= k < |ps| && ps[k].state == ZOMBIE ==>
               ps2[k].state == ZOMBIE && ps2[k].parent == ps[k].parent
    ensures LeavesZombie(ps2, me)
  {
    var z :| 0 <= z < |ps| && ps[z].parent == Some(me) && ps[z].state == ZOMBIE;
    assert ps2[z].parent == Some(me) && ps2[z].state == ZOMBIE;
  }

  lemma InvExit(s: State, me: nat)
    requires Inv(s) && Enabled(s, Exit(me))
    ensures Inv(Next(s, Exit(me)))
  {
    hide Exited;
    var s' := Next(s, Exit(me));
    forall k | 0 <= k < |s.ps| ensures ExitFacts(s, s', me, k) { ExitedAt(s.ps, me, s.init, k); }
    assert ParentOk(s, me);
    forall j | 0 <= j < |s.ps| ensures ParentOk(s', j) {
      assert ExitFacts(s, s', me, j) && ParentOk(s, j);
      if s.ps[j].parent.Some? { assert ExitFacts(s, s', me, s.ps[j].parent.value); }
      assert ExitFacts(s, s', me, s.init);
    }
    forall i | 0 <= i < |s.ps| ensures PlaceOk(s', i) { InvExitPlace(s, s', me, i); }
    assert ExitFacts(s, s', me, s.init);
    InvExitPids(s, s', me);
  }

  lemma InvExitPids(s: State, s': State, me: nat)
    requires Inv(s) && Enabled(s, Exit(me)) && Shaped(s') && |s'.ps| == |s.ps|
    requires s'.nextpid == s.nextpid && s'.reaped == s.reaped && s'.exited == s.exited + [s.ps[me].pid]
    requires forall k :: 0 <= k < |s.ps| ==> ExitFacts(s, s', me, k)
    ensures PidsOk(s')
  {
    forall k | 0 <= k < |s.ps|
      ensures s'.ps[k].pid == s.ps[k].pid && (s'.ps[k].state == UNUSED <==> s.ps[k].state == UNUSED)
      ensures s'.ps[k].state == ZOMBIE <==> k == me || s.ps[k].state == ZOMBIE
      ensures k != me && s.ps[k].state != UNUSED ==> s.ps[k].pid != s.ps[me].pid
    {
      assert ExitFacts(s, s', me, k);
    }
  }

  ghost predicate ExitFacts(s: State, s': State, me: nat, k: nat)
    requires Shaped(s) && |s'.ps| == |s.ps| && me < |s.ps| && k < |s.ps| && s.ps[me].parent.Some?
  {
    var r := s'.ps[k];
    && r.pid == s.ps[k].pid && r.chan == s.ps[k].chan
    && r.parent == (if s.ps[k].parent == Some(me) then Some(s.init) else s.ps[k].parent)
    && (k == me ==> r.state == ZOMBIE)
    && (k != me ==> r.state == s.ps[k].state || (s.ps[k].state == SLEEPING && r.state == RUNNABLE))
    && (k != me && r.state == SLEEPING ==>
          && r.chan != OnProc(s.ps[me].parent.value)
          && (LeavesZombie(s.ps, me) ==> r.chan != OnProc(s.init)))
  }

  lemma InvExitPlace(s: State, s': State, me: nat, i: nat)
    requires Inv(s) && Enabled(s, Exit(me)) && i < |s.ps|
    requires s'.at == s.at && s'.init == s.init && |s'.ps| == |s.ps|
    requires forall k :: 0 <= k < |s.ps| ==> ExitFacts(s, s', me, k)
    ensures PlaceOk(s', i)
  {
    assert PlaceOk(s, i) && ExitFacts(s, s', me, i) && ParentOk(s, me);
    if s.at[i].InFork? { assert ExitFacts(s, s', me, s.at[i].child); }
    if s'.at[i].InWait? && s'.ps[i].state == SLEEPING {
      forall j | 0 <= j < |s.ps| && s'.ps[j].parent == Some(i) ensures s'.ps[j].state != ZOMBIE {
        assert ExitFacts(s, s', me, j);
        assert s.ps[me].parent != Some(i);
        assert LeavesZombie(s.ps, me) || s.ps[j].parent != Some(me) || s.ps[j].state != ZOMBIE;
      }
    }
  }

  /** wait() reaps child z. */
  lemma InvReap(s: State, i: nat, z: nat)
    requires Inv(s) && Enabled(s, Wait(i)) && z < |s.ps| && s.ps[z].parent == Some(i) && s.ps[z].state == ZOMBIE
    ensures Inv(s.(ps := s.ps[z := Reaped(s.ps[z])], at := s.at[i := Elsewhere], reaped := s.reaped + [s.ps[z].pid]))
  {
    var ps' := s.ps[z := Reaped(s.ps[z])];
    var s' := s.(ps := ps', at := s.at[i := Elsewhere], reaped := s.reaped + [s.ps[z].pid]);
    assert ParentOk(s, z);
    forall j | 0 <= j < |s.ps| ensures ParentOk(s', j) { assert ParentOk(s, j); }
    forall j | 0 <= j < |s.ps| ensures PlaceOk(s', j) { assert PlaceOk(s, j); }
  }

  /** wait() returns without a child, or goes to sleep for lack of a zombie. */
  lemma InvNoReap(s: State, i: nat, w: Where, p: Proc)
    requires Inv(s) && Enabled(s, Wait(i))
    requires (w == Elsewhere && p == s.ps[i]) || (w == InWait && p == Asleep(s.ps[i], OnProc(i)))
    requires forall j :: 0 <= j < |s.ps| ==> !(s.ps[j].parent == Some(i) && s.ps[j].state == ZOMBIE)
    ensures Inv(s.(ps := s.ps[i := p], at := s.at[i := w]))
  {
    var s' := s.(ps := s.ps[i := p], at := s.at[i := w]);
    forall j | 0 <= j < |s.ps| ensures ParentOk(s', j) { assert ParentOk(s, j); }
    forall j | 0 <= j < |s.ps| ensures PlaceOk(s', j) { assert PlaceOk(s, j); }
  }

  lemma InvWait(s: State, i: nat)
    requires Inv(s) && Enabled(s, Wait(i))
    ensures Inv(Next(s, Wait(i)))
  {
    hide Inv, PidsOk, ForksDistinct;
    var z := FindZombie(s.ps, i, 0);
    if z < |s.ps| { InvReap(s, i, z); }
    else if !HasKids(s.ps, i) || s.ps[i].killed {
      InvNoReap(s, i, Elsewhere, s.ps[i]);
      assert s.ps[i := s.ps[i]] == s.ps;
    } else { InvNoReap(s, i, InWait, Asleep(s.ps[i], OnProc(i))); }
  }

  /** The same process, except that it may have been woken, or have gone to sleep outside wait(). */
  ghost predicate SameLife(s: State, ps: Table, k: nat)
    requires Shaped(s) && |ps| == |s.ps| && k < |ps|
  {
    && ps[k].pid == s.ps[k].pid && ps[k].parent == s.ps[k].parent
    && (ps[k].state == s.ps[k].state || (Alive(ps[k]) && Alive(s.ps[k])))
    && (ps[k].state == SLEEPING && s.at[k].InWait? ==> s.ps[k].state == SLEEPING && ps[k].chan == s.ps[k].chan)
  }

  lemma InvStates(s: State, ps: Table)
    requires Inv(s) && |ps| == |s.ps|
    requires forall k :: 0 <= k < |ps| ==> SameLife(s, ps, k)
    ensures Inv(s.(ps := ps))
  {
    var s' := s.(ps := ps);
    forall j | 0 <= j < |s.ps| ensures ParentOk(s', j) {
      assert ParentOk(s, j) && SameLife(s, ps, j);
      if s.ps[j].parent.Some? { assert SameLife(s, ps, s.ps[j].parent.value); }
    }
    forall i | 0 <= i < |s.ps| ensures PlaceOk(s', i) {
      assert PlaceOk(s, i) && SameLife(s, ps, i);
      if s.at[i].InFork? { assert SameLife(s, ps, s.at[i].child); }
      forall j | 0 <= j < |s.ps| && s'.ps[j].state == ZOMBIE
        ensures s.ps[j].state == ZOMBIE && s'.ps[j].parent == s.ps[j].parent
      {
        assert SameLife(s, ps, j);
      }
    }
    assert SameLife(s, ps, s.init);
    SamePids(s, ps);
  }

  lemma SamePids(s: State, ps: Table)
    requires Shaped(s) && PidsOk(s) && |ps| == |s.ps|
    requires forall k :: 0 <= k < |ps| ==> SameLife(s, ps, k)
    ensures PidsOk(s.(ps := ps))
  {
    forall k | 0 <= k < |ps|
      ensures ps[k].pid == s.ps[k].pid && (ps[k].state == UNUSED <==> s.ps[k].state == UNUSED)
      ensures ps[k].state == ZOMBIE <==> s.ps[k].state == ZOMBIE
    {
      assert SameLife(s, ps, k);
    }
  }

  lemma InvNext(s: State, e: Event)
    requires Inv(s) && Enabled(s, e)
    ensures Inv(Next(s, e))
  {
    hide Inv, Exited, WaitPass;
    match e
    case ForkAlloc(i) => InvForkAlloc(s, i);
    case ForkClear(i) => InvForkClear(s, i);
    case ForkDone(i) => InvForkDone(s, i);
    case ForkFails(i) => InvForkFails(s, i);
    case Exit(i) => InvExit(s, i);
    case Wait(i) => InvWait(s, i);
    case Kill(pid) => InvStates(s, Killed(s.ps, pid).0);
    case Sleep(i, c) => InvStates(s, s.ps[i := Asleep(s.ps[i], c)]);
    case Wakeup(c) => InvStates(s, Woken(s.ps, c));
  }

  // ---------------------------------------------------------------- whose child a process is

  /** A process is the child of the one that forked it, or, once that one has exited, of init. */
  ghost predicate ChildOk(s: State, j: nat)
    requires Shaped(s) && j < |s.ps|
  {
    var p := s.ps[j];
    (Alive(p) || p.state == ZOMBIE) && j != s.init ==>
      && p.parent.Some? && p.parent.value < |s.ps| && p.pid in s.forker
      && if s.forker[p.pid] in s.exited then p.parent == Some(s.init)
         else s.ps[p.parent.value].pid == s.forker[p.pid]
  }

  /** Nobody's child, parent or forker changes: the same pids, with the same parents. */
  ghost predicate SameFamily(s: State, s': State, j: nat)
    requires Shaped(s) && Shaped(s') && |s'.ps| == |s.ps| && j < |s.ps|
  {
    && (Alive(s'.ps[j]) || s'.ps[j].state == ZOMBIE ==>
          (Alive(s.ps[j]) || s.ps[j].state == ZOMBIE) && s'.ps[j].parent == s.ps[j].parent)
    && (Alive(s.ps[j]) || Alive(s'.ps[j]) || s'.ps[j].state == ZOMBIE ==> s'.ps[j].pid == s.ps[j].pid)
  }

  lemma ChildKept(s: State, s': State, j: nat)
    requires Inv(s) && Shaped(s') && |s'.ps| == |s.ps| && j < |s.ps| && ChildOk(s, j)
    requires s'.init == s.init && s'.exited == s.exited && s'.forker == s.forker
    requires forall k {:trigger SameFamily(s, s', k)} :: 0 <= k < |s.ps| ==> SameFamily(s, s', k)
    ensures ChildOk(s', j)
  {
    assert SameFamily(s, s', j) && ParentOk(s, j);
    if s.ps[j].parent.Some? { assert SameFamily(s, s', s.ps[j].parent.value); }
  }

  lemma ChildForked(s: State, i: nat, j: nat)
    requires Inv(s) && Enabled(s, ForkDone(i)) && j < |s.ps| && ChildOk(s, j)
    ensures ChildOk(Next(s, ForkDone(i)), j)
  {
    assert PlaceOk(s, i) && ParentOk(s, j);
  }

  lemma ChildOfExited(s: State, me: nat, j: nat)
    requires Inv(s) && Enabled(s, Exit(me)) && j < |s.ps| && ChildOk(s, j)
    ensures ChildOk(Next(s, Exit(me)), j)
  {
    hide Exited;
    assert ParentOk(s, j) && ParentOk(s, me);
    ExitedAt(s.ps, me, s.init, j);
    if s.ps[j].parent.Some? { ExitedAt(s.ps, me, s.init, s.ps[j].parent.value); }
  }

  lemma SameSize(s: State, e: Event)
    requires Shaped(s) && Enabled(s, e)
    ensures var s' := Next(s, e); Shaped(s') && |s'.ps| == |s.ps| && s'.init == s.init
    ensures !e.ForkDone? && !e.Exit? ==> Next(s, e).exited == s.exited && Next(s, e).forker == s.forker
  {
  }

  lemma FamilyKept(s: State, e: Event, k: nat)
    requires Inv(s) && Enabled(s, e) && !e.ForkDone? && !e.Exit? && k < |s.ps|
    ensures Shaped(Next(s, e)) && |Next(s, e).ps| == |s.ps| && SameFamily(s, Next(s, e), k)
  {
    SameSize(s, e);
    if e.ForkClear? || e.ForkFails? { assert PlaceOk(s, e.i); }
    hide Inv;
  }

  lemma ChildNext(s: State, e: Event, j: nat)
    requires Inv(s) && Enabled(s, e) && j < |s.ps| && ChildOk(s, j)
    ensures Shaped(Next(s, e)) && |Next(s, e).ps| == |s.ps| && ChildOk(Next(s, e), j)
  {
    SameSize(s, e);
    hide Inv, ChildOk, SameFamily, Next, Enabled;
    if e.ForkDone? { ChildForked(s, e.i, j); }
    else if e.Exit? { ChildOfExited(s, e.i, j); }
    else {
      forall k | 0 <= k < |s.ps| ensures SameFamily(s, Next(s, e), k) { FamilyKept(s, e, k); }
      ChildKept(s, Next(s, e), j);
    }
  }

  /** A slot that is being filled belongs to a process in fork(). */
  ghost predicate EmbryoOk(s: State, j: nat)
    requires Shaped(s) && j < |s.ps|
  {
    s.ps[j].state == EMBRYO ==> exists i: nat :: Fills(s, i, j)
  }

  ghost predicate Fills(s: State, i: nat, j: nat)
    requires Shaped(s)
  {
    i < |s.at| && s.at[i].InFork? && s.at[i].child == j
  }

  /** Only fork() and its failure make and end embryos. */
  lemma EmbryoAt(s: State, e: Event, j: nat)
    requires Inv(s) && Enabled(s, e) && j < |s.ps|
    ensures Shaped(Next(s, e)) && |Next(s, e).ps| == |s.ps|
    ensures Next(s, e).ps[j].state == EMBRYO ==>
              s.ps[j].state == EMBRYO || (e.ForkAlloc? && Fills(Next(s, e), e.i, j))
    ensures Next(s, e).ps[j].state == EMBRYO && (e.ForkDone? || e.ForkFails?) ==> s.at[e.i].child != j
    ensures forall i: nat :: i < |s.at| && s.at[i].InFork? && !((e.ForkDone? || e.ForkFails?) && e.i == i) ==>
              Next(s, e).at[i].InFork? && Next(s, e).at[i].child == s.at[i].child
  {
    SameSize(s, e);
    if e.Exit? { ExitedAt(s.ps, e.i, s.init, j); }
    hide Inv, Exited;
  }

  lemma EmbryoNext(s: State, e: Event, j: nat)
    requires Inv(s) && Enabled(s, e) && j < |s.ps| && EmbryoOk(s, j)
    ensures Shaped(Next(s, e)) && |Next(s, e).ps| == |s.ps| && EmbryoOk(Next(s, e), j)
  {
    EmbryoAt(s, e, j);
    hide Inv, Next, Enabled;
    var s' := Next(s, e);
    if s'.ps[j].state == EMBRYO && s.ps[j].state == EMBRYO {
      var i: nat :| Fills(s, i, j);
      assert Fills(s', i, j);
    }
  }

  // ---------------------------------------------------------------- every run

  ghost predicate StepAt(es: seq<Event>, ss: seq<State>, i: nat)
    requires i < |es| && |ss| == |es| + 1
  {
    Shaped(ss[i]) && Enabled(ss[i], es[i]) && ss[i + 1] == Next(ss[i], es[i])
  }

  ghost predicate IsRun(es: seq<Event>, ss: seq<State>) {
    |ss| == |es| + 1 && Init(ss[0]) && forall i :: 0 <= i < |es| ==> StepAt(es, ss, i)
  }

  lemma {:induction false} InvRun(es: seq<Event>, ss: seq<State>, n: nat)
    requires IsRun(es, ss) && n <= |es|
    ensures Inv(ss[n]) && forall j :: 0 <= j < |ss[n].ps| ==> ChildOk(ss[n], j) && EmbryoOk(ss[n], j)
  {
    hide Inv, Next, Enabled;
    if n == 0 {
      InitInv(ss[0]);
    } else {
      InvRun(es, ss, n - 1);
      assert StepAt(es, ss, n - 1);
      InvNext(ss[n - 1], es[n - 1]);
      hide ChildOk, EmbryoOk;
      SameSize(ss[n - 1], es[n - 1]);
      forall j | 0 <= j < |ss[n].ps| ensures ChildOk(ss[n], j) && EmbryoOk(ss[n], j) {
        ChildNext(ss[n - 1], es[n - 1], j);
        EmbryoNext(ss[n - 1], es[n - 1], j);
      }
    }
  }

  /** In every state of every run: a process's parent is alive, and is the process that forked it, or init once that one
      has exited; a parent asleep in wait() has no zombie child; no pid is returned by wait() twice or without having
      exited; and a slot that is being filled belongs to a process in fork(). */
  lemma ProcessLifecycle(es: seq<Event>, ss: seq<State>, n: nat)
    requires IsRun(es, ss) && n <= |es|
    ensures var s := ss[n];
            && Shaped(s)
            && (forall j :: 0 <= j < |s.ps| && s.ps[j].parent.Some? ==>
                  s.ps[j].parent.value < |s.ps| && Alive(s.ps[s.ps[j].parent.value]))
            && (forall j :: 0 <= j < |s.ps| ==> ChildOk(s, j) && EmbryoOk(s, j))
            && (forall i, j :: 0 <= i < |s.ps| && 0 <= j < |s.ps| && s.at[i].InWait? && s.ps[i].state == SLEEPING ==>
                  s.ps[j].parent == Some(i) ==> s.ps[j].state != ZOMBIE)
            && (forall a, b :: 0 <= a < b < |s.reaped| ==> s.reaped[a] != s.reaped[b])
            && (forall a :: 0 <= a < |s.reaped| ==> s.reaped[a] in s.exited)
  {
    InvRun(es, ss, n);
    var s := ss[n];
    forall j | 0 <= j < |s.ps| && s.ps[j].parent.Some?
      ensures s.ps[j].parent.value < |s.ps| && Alive(s.ps[s.ps[j].parent.value])
    {
      assert ParentOk(s, j);
    }
    forall i, j | 0 <= i < |s.ps| && 0 <= j < |s.ps| && s.at[i].InWait? && s.ps[i].state == SLEEPING
                  && s.ps[j].parent == Some(i)
      ensures s.ps[j].state != ZOMBIE
    {
      assert PlaceOk(s, i);
    }
  }
}
