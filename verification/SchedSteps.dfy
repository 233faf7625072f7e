/** What each step of kernel/proc.c does, in terms of the process table before and after
    it: wait, exit, fork, sleep, yield, the scheduler's choice, wakeup and kill. */
module SchedSteps {
  import opened Options
  import opened ProcTable
  import opened Scheduling

  /** The process p is running on CPU c and at this point of its code. */
  ghost predicate RunsAt(s: System, c: nat, p: Slot, at: Code) {
    Inv(s) && OnCpu(s, c) && s.cpus[c].proc == Some(p) && s.ps[p].at == at
  }

  /** Entries other than p and q are as they were. */
  predicate OthersSame(ps: Table, ps': Table, p: Slot, q: Slot) {
    |ps'| == |ps| && forall i :: 0 <= i < |ps| && i != p && i != q ==> ps'[i] == ps[i]
  }

  /** Only the place of p in its code has changed. */
  predicate OnlyPlace(s: System, t: System, p: Slot, at: Code) {
    && p < |s.ps| && OthersSame(s.ps, t.ps, p, p) && t.ps[p] == s.ps[p].(at := at)
    && t.cpus == s.cpus && t.lock == s.lock && t.nextpid == s.nextpid && t.exited == s.exited && t.reaped == s.reaped
  }

  /** wait, holding the lock. With a zombie child, the first one's entry becomes free
      and its pid is handed over; with no child left, or if killed, it gives up;
      otherwise it sleeps on its own entry. */
  lemma WaitDoes(s: System, c: nat, p: Slot, killed: bool)
    requires RunsAt(s, c, p, WaitLoop) && Next(s, Go(c, killed)).Some?
    ensures var t := Next(s, Go(c, killed)).value;
            if exists z :: 0 <= z < |s.ps| && s.ps[z].parent == Some(p) && s.ps[z].st.ZOMBIE? then
              && t.cpus == s.cpus && t.lock == s.lock && t.nextpid == s.nextpid && t.exited == s.exited
              && exists z: Slot :: z < |s.ps| && s.ps[z].parent == Some(p) && s.ps[z].st.ZOMBIE?
                   && (forall j :: 0 <= j < z ==> !(s.ps[j].parent == Some(p) && s.ps[j].st.ZOMBIE?))
                   && z != p && OthersSame(s.ps, t.ps, z, p) && t.ps[p] == s.ps[p].(at := Release(User))
                   && t.ps[z].st.UNUSED? && t.ps[z].parent == None && t.ps[z].pid == 0 && t.reaped == s.reaped + [s.ps[z].pid]
            else if killed || !exists i :: 0 <= i < |s.ps| && s.ps[i].parent == Some(p) then OnlyPlace(s, t, p, Release(User))
            else
              && OthersSame(s.ps, t.ps, p, p) && t.ps[p] == s.ps[p].(st := SLEEPING(Child(p)))
              && t.cpus == s.cpus[c := s.cpus[c].(mode := Back)] && t.lock == s.lock && t.reaped == s.reaped
  {
    OnIt(s, c, p);
    hide Inv;
    var t := Next(s, Go(c, killed)).value;
    var z := FirstZombie(s.ps, p, 0);
    if z < |s.ps| {
      assert ZombieChild(s.ps[z], p) && z != p;
      assert forall j :: 0 <= j < z ==> !ZombieChild(s.ps[j], p);
    } else {
      assert forall j :: 0 <= j < |s.ps| ==> !ZombieChild(s.ps[j], p);
    }
  }

  /** exit, holding the lock: the process is a zombie, its children are init's, its
      parent is awake, and so is init if it has been given a zombie. */
  lemma ExitDoes(s: System, c: nat, p: Slot, choice: bool)
    requires RunsAt(s, c, p, Locked(Exit)) && Next(s, Go(c, choice)).Some?
    ensures var t := Next(s, Go(c, choice)).value;
            && p != INIT && |t.ps| == |s.ps| && s.ps[p].parent.Some? && t.ps[p] == s.ps[p].(st := ZOMBIE, at := User)
            && t.exited == s.exited + {s.ps[p].pid} && t.cpus == s.cpus[c := s.cpus[c].(mode := Back)] && t.lock == s.lock && t.reaped == s.reaped
            && forall i :: 0 <= i < |s.ps| && i != p ==>
                 && t.ps[i].pid == s.ps[i].pid && t.ps[i].at == s.ps[i].at
                 && t.ps[i].parent == (if s.ps[i].parent == Some(p) then Some(INIT) else s.ps[i].parent)
                 && t.ps[i].st == if WokenByExit(s.ps, p, i) then RUNNABLE else s.ps[i].st
  {
    OnIt(s, c, p);
    assert ParentOk(s.ps, p);
    hide Inv;
    var ps := s.ps[p := s.ps[p].(at := User)];
    var a := WakeAll(ps, Child(ps[p].parent.value));
    forall j | 0 <= j < |ps| ensures ZombieChild(a[j], p) <==> ZombieChild(s.ps[j], p) {
    }
    assert ps[p].parent != Some(p);
  }

  ghost predicate WokenByExit(ps: Table, p: Slot, i: Slot)
    requires p < |ps| && i < |ps|
  {
    && ps[i].st.SLEEPING?
    && (|| (ps[p].parent.Some? && ps[i].st.chan == Child(ps[p].parent.value))
        || (ps[i].st.chan == Child(INIT) && exists j :: 0 <= j < |ps| && ps[j].parent == Some(p) && ps[j].st.ZOMBIE?))
  }

  /** allocproc: the first free entry, with a pid that no process has had. */
  lemma AllocDoes(s: System, c: nat, p: Slot, choice: bool)
    requires RunsAt(s, c, p, Locked(Alloc)) && PidsOk(s) && Next(s, Go(c, choice)).Some?
    ensures var t := Next(s, Go(c, choice)).value;
            if exists n :: 0 <= n < |s.ps| && s.ps[n].st.UNUSED? then
              exists n: Slot :: n < |s.ps| && s.ps[n].st.UNUSED? && (forall j :: 0 <= j < n ==> !s.ps[j].st.UNUSED?)
                && n != p && OthersSame(s.ps, t.ps, n, p) && t.ps[p] == s.ps[p].(at := Release(ForkFill(n)))
                && t.ps[n].st == EMBRYO(p) && t.ps[n].pid == s.nextpid && t.nextpid == s.nextpid + 1
                && t.ps[n].pid !in t.exited && forall i :: 0 <= i < |t.ps| && i != n && !t.ps[i].st.UNUSED? ==> t.ps[i].pid != t.ps[n].pid
            else OnlyPlace(s, t, p, Release(User))
  {
    OnIt(s, c, p);
    hide Inv;
    var t := Next(s, Go(c, choice)).value;
    var n := FirstUnused(s.ps, 0);
    if n < |s.ps| {
      forall i | 0 <= i < |t.ps| && i != n && !t.ps[i].st.UNUSED? ensures t.ps[i].pid != t.ps[n].pid {
        assert PidOk(s, i);
      }
      assert n != p && OthersSame(s.ps, t.ps, n, p);
    } else {
      assert forall j :: 0 <= j < |s.ps| ==> !s.ps[j].st.UNUSED?;
    }
  }

  /** The end of fork: the new process can run, as a child of the one that forked. */
  lemma ForkDoes(s: System, c: nat, p: Slot, np: Slot, choice: bool)
    requires RunsAt(s, c, p, ForkLocked(np)) && Next(s, Go(c, choice)).Some?
    ensures var t := Next(s, Go(c, choice)).value;
            && np < |s.ps| && np != p && s.ps[np].st == EMBRYO(p) && OthersSame(s.ps, t.ps, np, p) && t.ps[p] == s.ps[p].(at := Release(User))
            && t.ps[np].st.RUNNABLE? && t.ps[np].parent == Some(p) && t.ps[np].pid == s.ps[np].pid && t.cpus == s.cpus && t.lock == s.lock
  {
    OnIt(s, c, p);
    assert CodeOk(s.ps, s.cpus, p);
    assert CodeOk(s.ps, s.cpus, np);
  }

  /** fork with no memory for the copy: the entry is free again. */
  lemma ForkFails(s: System, c: nat, p: Slot, np: Slot)
    requires RunsAt(s, c, p, ForkFill(np)) && Next(s, Go(c, false)).Some?
    ensures var t := Next(s, Go(c, false)).value;
            && np < |s.ps| && np != p && OthersSame(s.ps, t.ps, np, p) && t.ps[p] == s.ps[p].(at := User) && t.ps[np].st.UNUSED?
  {
    OnIt(s, c, p);
    assert CodeOk(s.ps, s.cpus, p);
    assert CodeOk(s.ps, s.cpus, np);
  }

  /** sleep and yield: the process is off the CPU, asleep on the channel or ready, and
      will go on where it was. */
  lemma LeavesCpu(s: System, c: nat, p: Slot, op: Op, choice: bool)
    requires RunsAt(s, c, p, Locked(op)) && (op.Sleep? || op.Yield?) && Next(s, Go(c, choice)).Some?
    ensures var t := Next(s, Go(c, choice)).value;
            && OthersSame(s.ps, t.ps, p, p) && t.ps[p].pid == s.ps[p].pid && t.ps[p].parent == s.ps[p].parent
            && (op.Sleep? ==> t.ps[p].st == SLEEPING(op.chan) && t.ps[p].at == Release(User))
            && (op.Yield? ==> t.ps[p].st == RUNNABLE && t.ps[p].at == Release(op.back))
            && t.cpus == s.cpus[c := s.cpus[c].(mode := Back)] && t.lock == s.lock
  {
  }

  /** The scheduler runs a process it finds ready, and passes over any other; past the
      last entry it lets the lock go. */
  lemma LookDoes(s: System, c: nat)
    requires Inv(s) && c < |s.cpus| && s.cpus[c].mode.Scan? && Next(s, SchedLook(c)).Some?
    ensures var t, k := Next(s, SchedLook(c)).value, s.cpus[c].k;
            && |t.cpus| == |s.cpus| && (forall d :: 0 <= d < |s.cpus| && d != c ==> t.cpus[d] == s.cpus[d]) && |t.ps| == |s.ps|
            && if k < |s.ps| && s.ps[k].st.RUNNABLE? then
                 t.ps[k] == s.ps[k].(st := RUNNING(c)) && OthersSame(s.ps, t.ps, k, k) && t.cpus[c].mode.Running? && t.cpus[c].proc == Some(k) && t.lock == s.lock
               else
                 t.ps == s.ps && if k < |s.ps| then t.cpus[c] == Cpu(Scan, None, k + 1) && t.lock == s.lock else t.cpus[c].mode.Idle? && t.lock == Free
  {
  }

  /** wakeup makes ready exactly the processes asleep on the channel. */
  lemma WakeDoes(s: System, chan: Chan)
    requires Next(s, CallerWake(chan)).Some?
    ensures var t := Next(s, CallerWake(chan)).value;
            |t.ps| == |s.ps| && t.cpus == s.cpus
            && forall i :: 0 <= i < |s.ps| ==> t.ps[i] == if s.ps[i].st == SLEEPING(chan) then s.ps[i].(st := RUNNABLE) else s.ps[i]
  {
  }

  /** kill makes its process ready if it sleeps, and changes no other. */
  lemma KillDoes(s: System, p: Slot)
    requires Next(s, CallerKill(p)).Some?
    ensures var t := Next(s, CallerKill(p)).value;
            p < |s.ps| && OthersSame(s.ps, t.ps, p, p) && t.ps[p] == if s.ps[p].st.SLEEPING? then s.ps[p].(st := RUNNABLE) else s.ps[p]
  {
  }
}
