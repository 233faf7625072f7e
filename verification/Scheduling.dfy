/** Scheduling and reaping in kernel/proc.c: any number of CPUs running schedulers
    and processes over one process table, with ptable.lock held across each
    context switch, as a transition system. */
module Scheduling {
  import opened Options
  import opened ProcTable

  /** Where a CPU is: in its scheduler or in a process. */
  datatype Mode =
    | Idle                         // scheduler, about to acquire ptable.lock
    | Scan                         // scheduler, at entry k, holding the lock
    | Running                      // in the process c->proc
    | Back                         // switched back, about to clear c->proc

  datatype Cpu = Cpu(mode: Mode, proc: Option<Slot>, k: nat)

  /** ptable.lock is taken by a CPU, or by a caller of wakeup or kill. */
  datatype Lock = Free | ByCpu(cpu: nat) | ByCaller

  /** `exited` and `reaped` are the pids that have been through exit and wait. */
  datatype System = System(ps: Table, cpus: seq<Cpu>, lock: Lock, nextpid: nat, exited: set<nat>, reaped: seq<nat>)

  datatype Action =
    | SchedTake(c: nat)            // scheduler acquires the lock
    | SchedLook(c: nat)            // scheduler looks at entry k
    | SchedBack(c: nat)            // scheduler resumes after a process
    | Acquire(c: nat, op: Op)      // process acquires the lock to do op
    | Go(c: nat, choice: bool)     // process takes its next step
    | CallerTake | CallerWake(chan: Chan) | CallerKill(slot: Slot) | CallerDrop

  // ----- the steps -----

  function Next(s: System, a: Action): Option<System> {
    match a
    case SchedTake(c) =>
      if c < |s.cpus| && s.cpus[c].mode.Idle? && s.lock.Free?
      then Some(s.(cpus := s.cpus[c := Cpu(Scan, None, 0)], lock := ByCpu(c))) else None
    case SchedLook(c) =>
      if c < |s.cpus| && s.cpus[c].mode.Scan? then Some(Look(s, c, s.cpus[c].k)) else None
    case SchedBack(c) =>
      if c < |s.cpus| && s.cpus[c].mode.Back?
      then Some(s.(cpus := s.cpus[c := Cpu(Scan, None, s.cpus[c].k + 1)])) else None
    case Acquire(c, op) =>
      if OnCpu(s, c) && s.lock.Free? && MayAcquire(s.ps[s.cpus[c].proc.value].at, op)
      then Some(s.(ps := s.ps[s.cpus[c].proc.value := s.ps[s.cpus[c].proc.value].(at := Taking(s.ps[s.cpus[c].proc.value].at, op))], lock := ByCpu(c)))
      else None
    case Go(c, choice) =>
      if OnCpu(s, c) then Step(s, c, s.cpus[c].proc.value, choice) else None
    case CallerTake => if s.lock.Free? then Some(s.(lock := ByCaller)) else None
    case CallerWake(chan) => if s.lock.ByCaller? then Some(s.(ps := WakeAll(s.ps, chan))) else None
    case CallerKill(p) =>
      if s.lock.ByCaller? && p < |s.ps|
      then Some(s.(ps := if s.ps[p].st.SLEEPING? then s.ps[p := s.ps[p].(st := RUNNABLE)] else s.ps)) else None
    case CallerDrop => if s.lock.ByCaller? then Some(s.(lock := Free)) else None
  }

  predicate OnCpu(s: System, c: nat) {
    c < |s.cpus| && s.cpus[c].mode.Running? && s.cpus[c].proc.Some? && s.cpus[c].proc.value < |s.ps|
  }

  /** The scheduler's loop body, and its end. */
  function Look(s: System, c: nat, k: nat): System
    requires c < |s.cpus|
  {
    if k >= |s.ps| then s.(cpus := s.cpus[c := Cpu(Idle, None, 0)], lock := Free)
    else if !s.ps[k].st.RUNNABLE? then s.(cpus := s.cpus[c := Cpu(Scan, None, k + 1)])
    else s.(cpus := s.cpus[c := Cpu(Running, Some(k), k)], ps := s.ps[k := s.ps[k].(st := RUNNING(c))])
  }

  /** A process calls yield at any point without the lock (a clock interrupt), the
      others from its own code; sleep here is on anything but the wait channel. */
  predicate MayAcquire(at: Code, op: Op) {
    match op
    case Yield(back) => at == back && (at.User? || at.ForkFill? || at.ForkReady?)
    case Sleep(chan) => at.User? && chan.Object?
    case Exit => at.User?
    case Wait => at.User?
    case Alloc => at.User?
  }

  function Taking(at: Code, op: Op): Code {
    if op.Wait? then WaitLoop else Locked(op)
  }

  /** Changes state and switches to the scheduler, which holds the lock on. */
  function Switch(s: System, c: nat, ps: Table): System
    requires c < |s.cpus|
  {
    s.(ps := ps, cpus := s.cpus[c := s.cpus[c].(mode := Back)])
  }

  function Step(s: System, c: nat, p: Slot, choice: bool): Option<System>
    requires c < |s.cpus| && p < |s.ps|
  {
    var me := s.ps[p];
    match me.at
    case User => None
    case Locked(Yield(back)) => Some(Switch(s, c, s.ps[p := me.(st := RUNNABLE, at := Release(back))]))
    case Locked(Sleep(chan)) => Some(Switch(s, c, s.ps[p := me.(st := SLEEPING(chan), at := Release(User))]))
    case Locked(Exit) =>
      if p == INIT then None        // panic
      else Some(Switch(s, c, Exited(s.ps[p := me.(at := User)], p)).(exited := s.exited + {me.pid}))
    case Locked(Wait) => None
    case Locked(Alloc) => Some(Allocate(s, p))
    case WaitLoop => Some(WaitStep(s, c, p, choice))
    case Release(back) => Some(s.(ps := s.ps[p := me.(at := back)], lock := Free))
    case ForkFill(np) =>
      if np >= |s.ps| then None
      else if choice then Some(s.(ps := s.ps[np := s.ps[np].(parent := Some(p))][p := me.(at := ForkReady(np))]))
      else Some(s.(ps := s.ps[np := s.ps[np].(st := UNUSED)][p := me.(at := User)]))
    case ForkReady(np) =>
      if s.lock.Free? then Some(s.(ps := s.ps[p := me.(at := ForkLocked(np))], lock := ByCpu(c))) else None
    case ForkLocked(np) =>
      if np >= |s.ps| then None
      else Some(s.(ps := s.ps[np := s.ps[np].(st := RUNNABLE, at := Release(User))][p := me.(at := Release(User))]))
  }

  /** allocproc: the first UNUSED entry, if there is one. */
  function FirstUnused(ps: Table, i: nat): (r: nat)
    requires i <= |ps|
    ensures i <= r <= |ps| && (r < |ps| ==> ps[r].st.UNUSED?)
    ensures forall j :: i <= j < r ==> !ps[j].st.UNUSED?
    decreases |ps| - i
  {
    if i == |ps| || ps[i].st.UNUSED? then i else FirstUnused(ps, i + 1)
  }

  function Allocate(s: System, p: Slot): System
    requires p < |s.ps|
  {
    var np := FirstUnused(s.ps, 0);
    if np == |s.ps| then s.(ps := s.ps[p := s.ps[p].(at := Release(User))])
    else s.(ps := s.ps[np := s.ps[np].(st := EMBRYO(p), pid := s.nextpid, at := User)][p := s.ps[p].(at := Release(ForkFill(np)))],
            nextpid := s.nextpid + 1)
  }

  function FirstZombie(ps: Table, q: Slot, i: nat): (r: nat)
    requires i <= |ps|
    ensures i <= r <= |ps| && (r < |ps| ==> ZombieChild(ps[r], q))
    ensures forall j :: i <= j < r ==> !ZombieChild(ps[j], q)
    decreases |ps| - i
  {
    if i == |ps| || ZombieChild(ps[i], q) then i else FirstZombie(ps, q, i + 1)
  }

  /** One pass of wait's loop: reap, give up, or sleep on one's own entry. */
  function WaitStep(s: System, c: nat, p: Slot, killed: bool): System
    requires c < |s.cpus| && p < |s.ps|
  {
    var z := FirstZombie(s.ps, p, 0);
    if z < |s.ps| then
      s.(ps := s.ps[z := s.ps[z].(st := UNUSED, parent := None, pid := 0)][p := s.ps[p].(at := Release(User))],
         reaped := s.reaped + [s.ps[z].pid])
    else if killed || forall i :: 0 <= i < |s.ps| ==> s.ps[i].parent != Some(p) then s.(ps := s.ps[p := s.ps[p].(at := Release(User))])
    else Switch(s, c, s.ps[p := s.ps[p].(st := SLEEPING(Child(p)))])
  }

  // ----- the invariant -----

  predicate HoldsLock(at: Code) {
    at.Locked? || at.WaitLoop? || at.Release? || at.ForkLocked?
  }

  /** The embryo a process is filling, through any interruption. */
  function Filling(at: Code): Option<Slot> {
    match at
    case ForkFill(np) => Some(np)
    case ForkReady(np) => Some(np)
    case ForkLocked(np) => Some(np)
    case Locked(Yield(back)) => Filling(back)
    case Release(back) => Filling(back)
    case _ => None
  }

  predicate ParentSet(at: Code) {
    match at
    case ForkReady(_) => true
    case ForkLocked(_) => true
    case Locked(Yield(back)) => ParentSet(back)
    case Release(back) => ParentSet(back)
    case _ => false
  }

  /** The points a process can be at. */
  predicate Proper(at: Code) {
    match at
    case Locked(op) => op.Exit? || op.Alloc? || (op.Sleep? && op.chan.Object?)
                       || (op.Yield? && (op.back.User? || op.back.ForkFill? || op.back.ForkReady?))
    case Release(back) => back.User? || back.ForkFill? || back.ForkReady?
    case _ => true
  }

  /** Entry i: its code, its CPU, its embryo and its owner agree with its state. */
  predicate CodeOk(ps: Table, cpus: seq<Cpu>, i: Slot)
    requires i < |ps|
  {
    var p := ps[i];
    && Proper(p.at)
    && (Filling(p.at).Some? ==> Alive(p.st) && Filling(p.at).value < |ps| && ps[Filling(p.at).value].st == EMBRYO(i))
    && (p.st.EMBRYO? ==> p.st.owner < |ps| && Filling(ps[p.st.owner].at) == Some(i)
                         && p.parent == (if ParentSet(ps[p.st.owner].at) then Some(p.st.owner) else None))
    && (p.st.RUNNABLE? ==> p.at.Release? || p.at.WaitLoop?)
    && (p.st.SLEEPING? ==> match p.st.chan
                           case Child(q) => q == i && p.at.WaitLoop?
                           case Object(_) => p.at == Release(User))
    && (p.st.RUNNING? ==> p.st.cpu < |cpus| && cpus[p.st.cpu].mode.Running? && cpus[p.st.cpu].proc == Some(i))
    && ((p.st.UNUSED? || p.st.EMBRYO? || p.st.ZOMBIE?) ==> p.at.User?)
  }

  /** Entry i: its parent is there to reap it. */
  predicate ParentOk(ps: Table, i: Slot)
    requires i < |ps|
  {
    var p := ps[i];
    && (p.st.UNUSED? ==> p.parent == None)
    && (i == INIT ==> Alive(p.st) && p.parent == None)
    && (i != INIT && (Alive(p.st) || p.st.ZOMBIE?) ==>
          p.parent.Some? && p.parent.value < |ps| && p.parent.value != i && Alive(ps[p.parent.value].st))
  }

  /** Entry i does not sleep in wait beside a zombie child. */
  predicate WaitOk(ps: Table, i: Slot)
    requires i < |ps|
  {
    ps[i].st.SLEEPING? && ps[i].st.chan.Child? ==> forall j :: 0 <= j < |ps| ==> !ZombieChild(ps[j], i)
  }

  predicate CpuOk(ps: Table, cpus: seq<Cpu>, lock: Lock, c: nat)
    requires c < |cpus|
  {
    var u := cpus[c];
    && (u.mode.Idle? || u.mode.Scan? ==> u.proc == None)
    && (u.mode.Running? ==> u.proc.Some? && u.proc.value < |ps| && ps[u.proc.value].st == RUNNING(c))
    && ((u.mode.Scan? || u.mode.Back? || (u.mode.Running? && HoldsLock(ps[u.proc.value].at))) <==> lock == ByCpu(c))
  }

  ghost predicate TableOk(ps: Table, cpus: seq<Cpu>) {
    && INIT < |ps|
    && (forall i :: 0 <= i < |ps| ==> CodeOk(ps, cpus, i))
    && (forall i :: 0 <= i < |ps| ==> ParentOk(ps, i))
    && (forall i :: 0 <= i < |ps| ==> WaitOk(ps, i))
  }

  ghost predicate CpusOk(ps: Table, cpus: seq<Cpu>, lock: Lock) {
    && (lock.ByCpu? ==> lock.cpu < |cpus|)
    && (forall c :: 0 <= c < |cpus| ==> CpuOk(ps, cpus, lock, c))
  }

  ghost predicate Inv(s: System) {
    TableOk(s.ps, s.cpus) && CpusOk(s.ps, s.cpus, s.lock)
  }

  // ----- each step keeps it -----

  /** An entry's code moves on, its state unchanged. */
  lemma MovesOn(ps: Table, cpus: seq<Cpu>, p: Slot, at: Code)
    requires TableOk(ps, cpus) && p < |ps| && ps[p].st.RUNNING? && Proper(at)
    requires Filling(at) == Filling(ps[p].at) && ParentSet(at) == ParentSet(ps[p].at)
    ensures TableOk(ps[p := ps[p].(at := at)], cpus)
  {
    var ps' := ps[p := ps[p].(at := at)];
    forall i | 0 <= i < |ps'| ensures CodeOk(ps', cpus, i) && ParentOk(ps', i) && WaitOk(ps', i) {
      assert CodeOk(ps, cpus, i) && ParentOk(ps, i) && WaitOk(ps, i) && CodeOk(ps, cpus, p);
    }
  }

  /** A running process changes state and its CPU goes back to the scheduler. */
  lemma GivesUp(ps: Table, cpus: seq<Cpu>, c: nat, p: Slot, st: Status, at: Code)
    requires TableOk(ps, cpus) && p < |ps| && ps[p].st == RUNNING(c) && c < |cpus| && Proper(at)
    requires Filling(at) == Filling(ps[p].at) && ParentSet(at) == ParentSet(ps[p].at)
    requires || (st == RUNNABLE && at.Release?)
             || (st.SLEEPING? && st.chan.Object? && at == Release(User))
             || (st == SLEEPING(Child(p)) && at.WaitLoop? && forall j :: 0 <= j < |ps| ==> !ZombieChild(ps[j], p))
    ensures TableOk(ps[p := ps[p].(st := st, at := at)], cpus[c := cpus[c].(mode := Back)])
  {
    var ps', cpus' := ps[p := ps[p].(st := st, at := at)], cpus[c := cpus[c].(mode := Back)];
    forall i | 0 <= i < |ps'| ensures CodeOk(ps', cpus', i) && ParentOk(ps', i) && WaitOk(ps', i) {
      assert CodeOk(ps, cpus, i) && ParentOk(ps, i) && WaitOk(ps, i) && CodeOk(ps, cpus, p) && ParentOk(ps, p);
    }
  }

  /** wakeup1 on any channel. */
  lemma WakingKeeps(ps: Table, cpus: seq<Cpu>, chan: Chan)
    requires TableOk(ps, cpus)
    ensures TableOk(WakeAll(ps, chan), cpus)
  {
    var ps' := WakeAll(ps, chan);
    forall i | 0 <= i < |ps'| ensures CodeOk(ps', cpus, i) && ParentOk(ps', i) && WaitOk(ps', i) {
      assert CodeOk(ps, cpus, i) && ParentOk(ps, i) && WaitOk(ps, i);
    }
  }

  lemma PickKeeps(ps: Table, cpus: seq<Cpu>, c: nat, k: Slot)
    requires TableOk(ps, cpus) && c < |cpus| && cpus[c].mode.Scan? && k < |ps| && ps[k].st.RUNNABLE?
    ensures TableOk(ps[k := ps[k].(st := RUNNING(c))], cpus[c := Cpu(Running, Some(k), k)])
  {
    var ps', cpus' := ps[k := ps[k].(st := RUNNING(c))], cpus[c := Cpu(Running, Some(k), k)];
    forall i | 0 <= i < |ps'| ensures CodeOk(ps', cpus', i) && ParentOk(ps', i) && WaitOk(ps', i) {
      assert CodeOk(ps, cpus, i) && ParentOk(ps, i) && WaitOk(ps, i) && CodeOk(ps, cpus, k);
    }
  }

  /** The scheduler's CPU changes while it runs no process. */
  lemma CpuMoves(ps: Table, cpus: seq<Cpu>, c: nat, u: Cpu)
    requires TableOk(ps, cpus) && c < |cpus| && !cpus[c].mode.Running?
    ensures TableOk(ps, cpus[c := u])
  {
    var cpus' := cpus[c := u];
    forall i | 0 <= i < |ps| ensures CodeOk(ps, cpus', i) && ParentOk(ps, i) && WaitOk(ps, i) {
      assert CodeOk(ps, cpus, i);
    }
  }

  lemma AllocKeeps(s: System, cpus: seq<Cpu>, p: Slot)
    requires TableOk(s.ps, cpus) && p < |s.ps| && s.ps[p].st.RUNNING? && s.ps[p].at == Locked(Alloc)
    ensures TableOk(Allocate(s, p).ps, cpus)
  {
    var ps, ps' := s.ps, Allocate(s, p).ps;
    var np := FirstUnused(ps, 0);
    assert CodeOk(ps, cpus, p);
    if np == |ps| {
      MovesOn(ps, cpus, p, Release(User));
    } else {
      assert CodeOk(ps, cpus, np) && ParentOk(ps, np);
      forall i | 0 <= i < |ps'| ensures CodeOk(ps', cpus, i) && ParentOk(ps', i) && WaitOk(ps', i) {
        assert CodeOk(ps, cpus, i) && ParentOk(ps, i) && WaitOk(ps, i);
      }
    }
  }

  lemma FillKeeps(ps: Table, cpus: seq<Cpu>, p: Slot, np: Slot, choice: bool)
    requires TableOk(ps, cpus) && p < |ps| && ps[p].st.RUNNING? && ps[p].at == ForkFill(np)
    ensures np < |ps|
    ensures TableOk(if choice then ps[np := ps[np].(parent := Some(p))][p := ps[p].(at := ForkReady(np))]
                    else ps[np := ps[np].(st := UNUSED)][p := ps[p].(at := User)], cpus)
  {
    assert CodeOk(ps, cpus, p);
    assert CodeOk(ps, cpus, np) && ParentOk(ps, np);
    var ps' := if choice then ps[np := ps[np].(parent := Some(p))][p := ps[p].(at := ForkReady(np))]
               else ps[np := ps[np].(st := UNUSED)][p := ps[p].(at := User)];
    forall i | 0 <= i < |ps'| ensures CodeOk(ps', cpus, i) && ParentOk(ps', i) && WaitOk(ps', i) {
      assert CodeOk(ps, cpus, i) && ParentOk(ps, i) && WaitOk(ps, i);
    }
  }

  lemma ReadyKeeps(ps: Table, cpus: seq<Cpu>, p: Slot, np: Slot)
    requires TableOk(ps, cpus) && p < |ps| && ps[p].st.RUNNING? && ps[p].at == ForkLocked(np)
    ensures np < |ps|
    ensures TableOk(ps[np := ps[np].(st := RUNNABLE, at := Release(User))][p := ps[p].(at := Release(User))], cpus)
  {
    assert CodeOk(ps, cpus, p);
    assert CodeOk(ps, cpus, np) && ParentOk(ps, np);
    var ps' := ps[np := ps[np].(st := RUNNABLE, at := Release(User))][p := ps[p].(at := Release(User))];
    forall i | 0 <= i < |ps'| ensures CodeOk(ps', cpus, i) && ParentOk(ps', i) && WaitOk(ps', i) {
      assert CodeOk(ps, cpus, i) && ParentOk(ps, i) && WaitOk(ps, i);
    }
  }

  /** Reaping a zombie leaves no entry without its parent. */
  lemma ReapKeeps(ps: Table, cpus: seq<Cpu>, p: Slot, z: Slot)
    requires TableOk(ps, cpus) && p < |ps| && ps[p].st.RUNNING? && ps[p].at == WaitLoop
    requires z < |ps| && ZombieChild(ps[z], p)
    ensures TableOk(ps[z := ps[z].(st := UNUSED, parent := None, pid := 0)][p := ps[p].(at := Release(User))], cpus)
  {
    assert CodeOk(ps, cpus, p);
    assert CodeOk(ps, cpus, z) && ParentOk(ps, z);
    var ps' := ps[z := ps[z].(st := UNUSED, parent := None, pid := 0)][p := ps[p].(at := Release(User))];
    forall i | 0 <= i < |ps'| ensures CodeOk(ps', cpus, i) && ParentOk(ps', i) && WaitOk(ps', i) {
      assert CodeOk(ps, cpus, i) && ParentOk(ps, i) && WaitOk(ps, i);
    }
  }

  /** What exit makes of an entry. */
  lemma ExitedAt(ps: Table, p: Slot, i: Slot)
    requires p < |ps| && i < |ps| && ps[p].parent.Some?
    ensures var e, o := Exited(ps, p)[i], ps[i];
            && e.at == o.at && e.pid == o.pid && e.parent == Adopted(o, p).parent
            && (i == p ==> e.st.ZOMBIE?)
            && (i != p ==> e.st == o.st || (e.st.RUNNABLE? && o.st.SLEEPING?))
            && (i != p ==> e.st != SLEEPING(Child(ps[p].parent.value)))
            && (i != p && e.st == SLEEPING(Child(INIT)) ==> forall j :: 0 <= j < |ps| ==> !ZombieChild(ps[j], p))
  {
    var a := WakeAll(ps, Child(ps[p].parent.value));
    forall j | 0 <= j < |ps| ensures ZombieChild(a[j], p) <==> ZombieChild(ps[j], p) {}
  }

  lemma ExitCode(ps: Table, cpus: seq<Cpu>, c: nat, p: Slot, i: Slot)
    requires TableOk(ps, cpus) && p < |ps| && c < |cpus| && ps[p].st == RUNNING(c) && ps[p].at.User? && p != INIT
    requires i < |ps|
    ensures CodeOk(Exited(ps, p), cpus[c := cpus[c].(mode := Back)], i)
  {
    hide Exited, WaitOk;
    assert CodeOk(ps, cpus, p) && ParentOk(ps, p) && CodeOk(ps, cpus, i);
    ExitedAt(ps, p, i);
    var f := Filling(ps[i].at);
    if f.Some? {
      ExitedAt(ps, p, f.value);
    }
    if ps[i].st.EMBRYO? {
      ExitedAt(ps, p, ps[i].st.owner);
    }
  }

  lemma ExitParent(ps: Table, cpus: seq<Cpu>, p: Slot, i: Slot)
    requires TableOk(ps, cpus) && p < |ps| && ps[p].st.RUNNING? && p != INIT && i < |ps|
    ensures ParentOk(Exited(ps, p), i)
  {
    hide Exited, WaitOk, CodeOk;
    assert ParentOk(ps, p) && ParentOk(ps, INIT) && ParentOk(ps, i);
    ExitedAt(ps, p, i);
    ExitedAt(ps, p, INIT);
    if ps[i].parent.Some? && ps[i].parent.value < |ps| {
      ExitedAt(ps, p, ps[i].parent.value);
    }
  }

  /** A zombie afterwards was one before, or is the one that exits. */
  lemma ExitWait(ps: Table, cpus: seq<Cpu>, p: Slot, i: Slot)
    requires TableOk(ps, cpus) && p < |ps| && ps[p].st.RUNNING? && p != INIT && i < |ps|
    ensures WaitOk(Exited(ps, p), i)
  {
    hide Exited;
    assert ParentOk(ps, p) && WaitOk(ps, i) && CodeOk(ps, cpus, i);
    ExitedAt(ps, p, i);
    var ps' := Exited(ps, p);
    if ps'[i].st.SLEEPING? && ps'[i].st.chan.Child? {
      forall j | 0 <= j < |ps'| ensures !ZombieChild(ps'[j], i) {
        ExitedAt(ps, p, j);
      }
    }
  }

  /** exit: the parent is awake, the children are init's, and init is awake if one
      of them is a zombie. */
  lemma ExitKeeps(ps: Table, cpus: seq<Cpu>, c: nat, p: Slot)
    requires TableOk(ps, cpus) && p < |ps| && c < |cpus| && ps[p].st == RUNNING(c) && ps[p].at.User? && p != INIT
    ensures TableOk(Exited(ps, p), cpus[c := cpus[c].(mode := Back)])
  {
    var ps', cpus' := Exited(ps, p), cpus[c := cpus[c].(mode := Back)];
    hide Exited, CodeOk, ParentOk, WaitOk;
    forall i | 0 <= i < |ps'| ensures CodeOk(ps', cpus', i) && ParentOk(ps', i) && WaitOk(ps', i) {
      ExitCode(ps, cpus, c, p, i);
      ExitParent(ps, cpus, p, i);
      ExitWait(ps, cpus, p, i);
    }
  }

  lemma StepKeepsTable(s: System, c: nat, p: Slot, choice: bool)
    requires Inv(s) && OnCpu(s, c) && s.cpus[c].proc == Some(p) && Step(s, c, p, choice).Some?
    ensures var t := Step(s, c, p, choice).value; TableOk(t.ps, t.cpus)
  {
    hide TableOk, CpusOk, CodeOk, ParentOk, WaitOk;
    assert s.ps[p].st == RUNNING(c) by { OnIt(s, c, p); }
    var me := s.ps[p];
    match me.at
    case Locked(Yield(back)) => PlaceOk(s.ps, s.cpus, p); GivesUp(s.ps, s.cpus, c, p, RUNNABLE, Release(back));
    case Locked(Sleep(chan)) => PlaceOk(s.ps, s.cpus, p); GivesUp(s.ps, s.cpus, c, p, SLEEPING(chan), Release(User));
    case Locked(Exit) =>
      MovesOn(s.ps, s.cpus, p, User);
      ExitKeeps(s.ps[p := me.(at := User)], s.cpus, c, p);
    case Locked(Alloc) => AllocKeeps(s, s.cpus, p);
    case WaitLoop =>
      var z := FirstZombie(s.ps, p, 0);
      if z < |s.ps| {
        ReapKeeps(s.ps, s.cpus, p, z);
      } else {
        MovesOn(s.ps, s.cpus, p, Release(User));
        GivesUp(s.ps, s.cpus, c, p, SLEEPING(Child(p)), WaitLoop);
        assert s.ps[p].(st := SLEEPING(Child(p)), at := WaitLoop) == s.ps[p].(st := SLEEPING(Child(p)));
      }
    case Release(back) => PlaceOk(s.ps, s.cpus, p); MovesOn(s.ps, s.cpus, p, back);
    case ForkFill(np) => FillKeeps(s.ps, s.cpus, p, np, choice);
    case ForkReady(np) => MovesOn(s.ps, s.cpus, p, ForkLocked(np));
    case ForkLocked(np) => ReadyKeeps(s.ps, s.cpus, p, np);
  }

  lemma OnIt(s: System, c: nat, p: Slot)
    requires Inv(s) && OnCpu(s, c) && s.cpus[c].proc == Some(p)
    ensures s.ps[p].st == RUNNING(c)
  {
    assert CpuOk(s.ps, s.cpus, s.lock, c);
  }

  lemma PlaceOk(ps: Table, cpus: seq<Cpu>, p: Slot)
    requires TableOk(ps, cpus) && p < |ps|
    ensures Proper(ps[p].at)
  {
    assert CodeOk(ps, cpus, p);
  }

  lemma StepKeepsCpus(s: System, c: nat, p: Slot, choice: bool)
    requires Inv(s) && OnCpu(s, c) && s.cpus[c].proc == Some(p) && Step(s, c, p, choice).Some?
    ensures var t := Step(s, c, p, choice).value; CpusOk(t.ps, t.cpus, t.lock)
  {
    hide Exited, WaitOk;
    var t := Step(s, c, p, choice).value;
    assert CpuOk(s.ps, s.cpus, s.lock, c) && CodeOk(s.ps, s.cpus, p) && ParentOk(s.ps, p);
    forall d | 0 <= d < |t.cpus| ensures CpuOk(t.ps, t.cpus, t.lock, d) {
      assert CpuOk(s.ps, s.cpus, s.lock, d);
      if s.cpus[d].proc.Some? && s.cpus[d].mode.Running? {
        assert CodeOk(s.ps, s.cpus, s.cpus[d].proc.value);
        if s.ps[p].at == Locked(Exit) {
          ExitedAt(s.ps[p := s.ps[p].(at := User)], p, s.cpus[d].proc.value);
        }
      }
    }
  }

  lemma NextKeeps(s: System, a: Action)
    requires Inv(s) && Next(s, a).Some?
    ensures Inv(Next(s, a).value)
  {
    match a
    case Go(c, choice) =>
      StepKeepsTable(s, c, s.cpus[c].proc.value, choice);
      StepKeepsCpus(s, c, s.cpus[c].proc.value, choice);
    case _ =>
      OtherKeepsTable(s, a);
      OtherKeepsCpus(s, a);
  }

  lemma OtherKeepsTable(s: System, a: Action)
    requires Inv(s) && Next(s, a).Some? && !a.Go?
    ensures var t := Next(s, a).value; TableOk(t.ps, t.cpus)
  {
    hide TableOk, CpusOk, CodeOk, ParentOk, WaitOk;
    match a
    case SchedTake(c) => CpuMoves(s.ps, s.cpus, c, Cpu(Scan, None, 0));
    case SchedLook(c) =>
      var k := s.cpus[c].k;
      if k < |s.ps| && s.ps[k].st.RUNNABLE? {
        PickKeeps(s.ps, s.cpus, c, k);
      } else {
        CpuMoves(s.ps, s.cpus, c, Cpu(Idle, None, 0));
        CpuMoves(s.ps, s.cpus, c, Cpu(Scan, None, k + 1));
      }
    case SchedBack(c) => CpuMoves(s.ps, s.cpus, c, Cpu(Scan, None, s.cpus[c].k + 1));
    case Acquire(c, op) =>
      var p := s.cpus[c].proc.value;
      OnIt(s, c, p);
      MovesOn(s.ps, s.cpus, p, Taking(s.ps[p].at, op));
    case CallerWake(chan) => WakingKeeps(s.ps, s.cpus, chan);
    case CallerKill(p) => KillKeeps(s.ps, s.cpus, p);
    case _ =>
  }

  lemma KillKeeps(ps: Table, cpus: seq<Cpu>, p: Slot)
    requires TableOk(ps, cpus) && p < |ps|
    ensures TableOk(if ps[p].st.SLEEPING? then ps[p := ps[p].(st := RUNNABLE)] else ps, cpus)
  {
    var ps' := if ps[p].st.SLEEPING? then ps[p := ps[p].(st := RUNNABLE)] else ps;
    forall i | 0 <= i < |ps'| ensures CodeOk(ps', cpus, i) && ParentOk(ps', i) && WaitOk(ps', i) {
      assert CodeOk(ps, cpus, i) && ParentOk(ps, i) && WaitOk(ps, i) && CodeOk(ps, cpus, p);
    }
  }

  lemma OtherKeepsCpus(s: System, a: Action)
    requires Inv(s) && Next(s, a).Some? && !a.Go?
    ensures var t := Next(s, a).value; CpusOk(t.ps, t.cpus, t.lock)
  {
    var t := Next(s, a).value;
    if a.SchedLook? {
      assert CpuOk(s.ps, s.cpus, s.lock, a.c);
      assert s.cpus[a.c].k < |s.ps| ==> CodeOk(s.ps, s.cpus, s.cpus[a.c].k);
    } else if a.Acquire? {
      assert CpuOk(s.ps, s.cpus, s.lock, a.c);
    }
    forall d | 0 <= d < |t.cpus| ensures CpuOk(t.ps, t.cpus, t.lock, d) {
      assert CpuOk(s.ps, s.cpus, s.lock, d);
      if s.cpus[d].proc.Some? && s.cpus[d].mode.Running? {
        assert CodeOk(s.ps, s.cpus, s.cpus[d].proc.value);
      }
    }
  }

  // ----- pids -----

  /** Entry i in use: its pid has been given out, is not reaped, and is among the
      exited exactly if the entry is a zombie. */
  ghost predicate PidOk(s: System, i: Slot)
    requires i < |s.ps|
  {
    var p := s.ps[i];
    !p.st.UNUSED? ==> p.pid < s.nextpid && p.pid !in s.reaped && (p.pid in s.exited <==> p.st.ZOMBIE?)
  }

  ghost predicate HasZombie(ps: Table, pid: nat) {
    exists i :: 0 <= i < |ps| && ps[i].st.ZOMBIE? && ps[i].pid == pid
  }

  ghost predicate PidsOk(s: System) {
    && (forall i :: 0 <= i < |s.ps| ==> PidOk(s, i))
    && (forall i, j :: 0 <= i < j < |s.ps| && !s.ps[i].st.UNUSED? && !s.ps[j].st.UNUSED? ==> s.ps[i].pid != s.ps[j].pid)
    && (forall x :: x in s.exited ==> x < s.nextpid && (x in s.reaped || HasZombie(s.ps, x)))
    && (forall k :: 0 <= k < |s.reaped| ==> s.reaped[k] in s.exited)
    && (forall j, k :: 0 <= j < k < |s.reaped| ==> s.reaped[j] != s.reaped[k])
  }

  /** Nothing that concerns pids has changed. */
  ghost predicate SamePids(s: System, t: System) {
    && |t.ps| == |s.ps| && t.nextpid == s.nextpid && t.exited == s.exited && t.reaped == s.reaped
    && forall i :: 0 <= i < |s.ps| ==>
         (t.ps[i].st.ZOMBIE? <==> s.ps[i].st.ZOMBIE?)
         && (!t.ps[i].st.UNUSED? ==> !s.ps[i].st.UNUSED? && t.ps[i].pid == s.ps[i].pid)
  }

  lemma SamePidsKeep(s: System, t: System)
    requires PidsOk(s) && SamePids(s, t)
    ensures PidsOk(t)
  {
    forall i | 0 <= i < |t.ps| ensures PidOk(t, i) {
      assert PidOk(s, i);
    }
    forall x | x in t.exited && x !in t.reaped ensures HasZombie(t.ps, x) {
      var i :| 0 <= i < |s.ps| && s.ps[i].st.ZOMBIE? && s.ps[i].pid == x;
      assert t.ps[i].st.ZOMBIE?;
    }
  }

  lemma ReapPids(s: System, z: Slot, t: System)
    requires PidsOk(s) && z < |s.ps| && s.ps[z].st.ZOMBIE? && |t.ps| == |s.ps| && t.ps[z].st.UNUSED?
    requires t.reaped == s.reaped + [s.ps[z].pid] && t.exited == s.exited && t.nextpid == s.nextpid
    requires forall i :: 0 <= i < |s.ps| && i != z ==> t.ps[i].st == s.ps[i].st && t.ps[i].pid == s.ps[i].pid
    ensures PidsOk(t)
  {
    assert PidOk(s, z);
    forall i | 0 <= i < |t.ps| ensures PidOk(t, i) {
      assert PidOk(s, i);
    }
    forall x | x in t.exited && x !in t.reaped ensures HasZombie(t.ps, x) {
      var i :| 0 <= i < |s.ps| && s.ps[i].st.ZOMBIE? && s.ps[i].pid == x;
      assert s.ps[z].pid == t.reaped[|s.reaped|];
      assert t.ps[i].st.ZOMBIE?;
    }
  }

  lemma ExitPids(s: System, p: Slot, t: System)
    requires PidsOk(s) && p < |s.ps| && Alive(s.ps[p].st) && |t.ps| == |s.ps| && t.ps[p].st.ZOMBIE?
    requires t.exited == s.exited + {s.ps[p].pid} && t.reaped == s.reaped && t.nextpid == s.nextpid
    requires forall i :: 0 <= i < |s.ps| ==> t.ps[i].pid == s.ps[i].pid
    requires forall i :: 0 <= i < |s.ps| && i != p ==>
               (t.ps[i].st.ZOMBIE? <==> s.ps[i].st.ZOMBIE?) && (t.ps[i].st.UNUSED? <==> s.ps[i].st.UNUSED?)
    ensures PidsOk(t)
  {
    assert PidOk(s, p);
    forall i | 0 <= i < |t.ps| ensures PidOk(t, i) {
      assert PidOk(s, i);
    }
    forall x | x in t.exited && x !in t.reaped ensures HasZombie(t.ps, x) {
      if x != s.ps[p].pid {
        var i :| 0 <= i < |s.ps| && s.ps[i].st.ZOMBIE? && s.ps[i].pid == x;
        assert t.ps[i].st.ZOMBIE?;
      }
    }
  }

  lemma AllocPids(s: System, p: Slot)
    requires PidsOk(s) && p < |s.ps| && Alive(s.ps[p].st)
    ensures PidsOk(Allocate(s, p))
  {
    var t := Allocate(s, p);
    forall i | 0 <= i < |t.ps| ensures PidOk(t, i) {
      assert PidOk(s, i);
    }
    forall i, j | 0 <= i < j < |t.ps| && !t.ps[i].st.UNUSED? && !t.ps[j].st.UNUSED? ensures t.ps[i].pid != t.ps[j].pid {
      assert PidOk(s, i) && PidOk(s, j);
    }
    forall x | x in t.exited && x !in t.reaped ensures HasZombie(t.ps, x) {
      var i :| 0 <= i < |s.ps| && s.ps[i].st.ZOMBIE? && s.ps[i].pid == x;
      assert t.ps[i].st.ZOMBIE?;
    }
  }

  lemma StepKeepsPids(s: System, c: nat, p: Slot, choice: bool)
    requires Inv(s) && PidsOk(s) && OnCpu(s, c) && s.cpus[c].proc == Some(p) && Step(s, c, p, choice).Some?
    ensures PidsOk(Step(s, c, p, choice).value)
  {
    hide PidsOk, CpusOk, Exited, WaitOk;
    var t := Step(s, c, p, choice).value;
    OnIt(s, c, p);
    assert CodeOk(s.ps, s.cpus, p) && ParentOk(s.ps, p);
    if s.ps[p].at == Locked(Exit) {
      forall i | 0 <= i < |s.ps| ensures t.ps[i].pid == s.ps[i].pid {
        ExitedAt(s.ps[p := s.ps[p].(at := User)], p, i);
      }
      forall i | 0 <= i < |s.ps| ensures i == p ==> t.ps[i].st.ZOMBIE?
        ensures i != p ==> (t.ps[i].st.ZOMBIE? <==> s.ps[i].st.ZOMBIE?) && (t.ps[i].st.UNUSED? <==> s.ps[i].st.UNUSED?)
      {
        ExitedAt(s.ps[p := s.ps[p].(at := User)], p, i);
      }
      ExitPids(s, p, t);
    } else if s.ps[p].at == Locked(Alloc) {
      AllocPids(s, p);
    } else if s.ps[p].at.WaitLoop? && FirstZombie(s.ps, p, 0) < |s.ps| {
      ReapPids(s, FirstZombie(s.ps, p, 0), t);
    } else {
      if s.ps[p].at.ForkFill? || s.ps[p].at.ForkLocked? {
        assert CodeOk(s.ps, s.cpus, s.ps[p].at.child);
      }
      SamePidsKeep(s, t);
    }
  }

  lemma NextKeepsPids(s: System, a: Action)
    requires Inv(s) && PidsOk(s) && Next(s, a).Some?
    ensures PidsOk(Next(s, a).value)
  {
    hide PidsOk, Inv;
    if a.Go? {
      StepKeepsPids(s, a.c, s.cpus[a.c].proc.value, a.choice);
    } else {
      SamePidsKeep(s, Next(s, a).value);
    }
  }

  // ----- whole runs -----

  function After(s: System, acts: seq<Action>): Option<System> {
    if acts == [] then Some(s)
    else
      var m := |acts| - 1;
      var prior := After(s, acts[..m]);
      if prior.None? then None else Next(prior.value, acts[m])
  }

  /** After userinit: init ready to run, every other entry unused, every CPU about
      to enter its scheduler. */
  predicate Boot(s: System) {
    && |s.ps| > 0 && s.ps[INIT] == Proc(RUNNABLE, None, 1, Release(User)) && s.nextpid == 2
    && (forall i :: 0 < i < |s.ps| ==> s.ps[i] == Proc(UNUSED, None, 0, User))
    && (forall c :: 0 <= c < |s.cpus| ==> s.cpus[c] == Cpu(Idle, None, 0))
    && s.lock == Free && s.exited == {} && s.reaped == []
  }

  lemma {:induction false} RunKeeps(s: System, acts: seq<Action>)
    requires Boot(s) && After(s, acts).Some?
    ensures Inv(After(s, acts).value) && PidsOk(After(s, acts).value)
  {
    if acts == [] {
      forall i | 0 <= i < |s.ps| ensures CodeOk(s.ps, s.cpus, i) && ParentOk(s.ps, i) && WaitOk(s.ps, i) {}
    } else {
      hide Inv, PidsOk;
      var m := |acts| - 1;
      RunKeeps(s, acts[..m]);
      NextKeeps(After(s, acts[..m]).value, acts[m]);
      NextKeepsPids(After(s, acts[..m]).value, acts[m]);
    }
  }

  /** Whenever ptable.lock is free, a process is RUNNING exactly if some CPU has it
      as c->proc, and no two CPUs have the same one. */
  lemma OneCpuEach(s: System, acts: seq<Action>, p: Slot)
    requires Boot(s) && After(s, acts).Some?
    requires var t := After(s, acts).value; t.lock == Free && p < |t.ps|
    ensures var t := After(s, acts).value;
            && (t.ps[p].st.RUNNING? <==> exists c :: 0 <= c < |t.cpus| && t.cpus[c].proc == Some(p))
            && forall c, d :: 0 <= c < |t.cpus| && 0 <= d < |t.cpus| && t.cpus[c].proc == Some(p) && t.cpus[d].proc == Some(p) ==> c == d
  {
    RunKeeps(s, acts);
    var t := After(s, acts).value;
    assert CodeOk(t.ps, t.cpus, p);
    forall c | 0 <= c < |t.cpus| && t.cpus[c].proc == Some(p) ensures t.ps[p].st == RUNNING(c) {
      assert CpuOk(t.ps, t.cpus, t.lock, c);
    }
  }

  /** No process sleeps in wait beside a zombie child; no live process or zombie
      other than init has a parent that is unused, embryonic or a zombie, so each
      zombie can be reaped. */
  lemma EveryZombieReapable(s: System, acts: seq<Action>, p: Slot)
    requires Boot(s) && After(s, acts).Some? && p < |After(s, acts).value.ps| && p != INIT
    requires var st := After(s, acts).value.ps[p].st; Alive(st) || st.ZOMBIE?
    ensures var ps := After(s, acts).value.ps;
            && ps[p].parent.Some? && ps[p].parent.value < |ps| && Alive(ps[ps[p].parent.value].st)
            && (ps[p].st.ZOMBIE? ==> ps[ps[p].parent.value].st != SLEEPING(Child(ps[p].parent.value)))
  {
    RunKeeps(s, acts);
    var t := After(s, acts).value;
    assert ParentOk(t.ps, p);
    assert WaitOk(t.ps, t.ps[p].parent.value);
    assert t.ps[p].st.ZOMBIE? ==> ZombieChild(t.ps[p], t.ps[p].parent.value);
  }

  /** Each pid that exits is reaped at most once, and until then it is a zombie in
      exactly one entry. */
  lemma ReapedOnce(s: System, acts: seq<Action>, pid: nat)
    requires Boot(s) && After(s, acts).Some?
    ensures var t := After(s, acts).value;
            && (pid in t.exited <==> (pid in t.reaped || HasZombie(t.ps, pid)))
            && !(pid in t.reaped && HasZombie(t.ps, pid))
            && multiset(t.reaped)[pid] <= 1
  {
    RunKeeps(s, acts);
    var t := After(s, acts).value;
    if HasZombie(t.ps, pid) {
      var i :| 0 <= i < |t.ps| && t.ps[i].st.ZOMBIE? && t.ps[i].pid == pid;
      assert PidOk(t, i);
    }
    AtMostOnce(t.reaped, pid);
  }

  lemma {:induction false} AtMostOnce(xs: seq<nat>, x: nat)
    requires forall j, k :: 0 <= j < k < |xs| ==> xs[j] != xs[k]
    ensures multiset(xs)[x] <= 1
  {
    if xs != [] {
      var m := |xs| - 1;
      assert xs == xs[..m] + [xs[m]];
      AtMostOnce(xs[..m], x);
      if x == xs[m] {
        assert x !in xs[..m];
      }
    }
  }
}
