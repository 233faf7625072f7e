/** sleep and wakeup of kernel/proc.c, for any number of processes sharing data
    under one spinlock `lk` (a sleep-lock's, a pipe's, the log's).

    The code run by the processes is a parameter. What is fixed here is the
    kernel's part: acquire and release, the two-lock handover of sleep (take
    ptable.lock, drop lk, mark SLEEPING, switch to the scheduler, which drops
    ptable.lock; on the way back, the reverse), and wakeup's pass over the
    process table under ptable.lock. The theorem is that no wakeup is lost. */
module Monitor {
  import opened Options

  type Pid = nat
  type Chan = nat

  /** What a process does next, and where its code continues. */
  datatype Cmd<P, D> =
    | Local(p: P)                 // nothing shared
    | Lock(p: P)                  // acquire(&lk)
    | Update(d: D, p: P)          // read and write the shared data
    | Wakeup(c: Chan, p: P)       // wakeup(c)
    | Sleep(c: Chan, p: P)        // sleep(c, &lk)
    | Unlock(p: P)                // release(&lk)

  /** The code of the processes, and the annotations its proof needs. The boolean
      given to `step` is an input, such as whether the process has been killed. */
  datatype Program<!P, !D> = Program(
    step: (Pid, P, D, bool) -> Cmd<P, D>,
    holds: P -> bool,                  // the code holds lk here
    rests: P -> bool,                  // the code may come back here from sleep
    owes: P -> set<Chan>,              // wakeups due before lk is let go
    local: (Pid, P, D) -> bool,        // an assertion at this point of the code
    ok: D -> bool,                     // an invariant of the data
    waits: (Chan, D) -> bool)          // sleepers on the channel belong asleep

  /** Where a process is: in its own code, or inside sleep or wakeup. */
  datatype Run<P> =
    | At(p: P)
    | SleepPt(c: Chan, p: P)     // sleep: holds lk, wants ptable.lock
    | SleepBoth(c: Chan, p: P)   // holds lk and ptable.lock
    | SleepMark(c: Chan, p: P)   // holds ptable.lock, about to mark itself
    | Asleep(c: Chan, p: P)      // SLEEPING, switched away
    | Ready(p: P)                // RUNNABLE
    | Back(p: P)                 // running again, holds ptable.lock
    | Relock(p: P)               // ptable.lock dropped, wants lk
    | WakePt(c: Chan, p: P)      // wakeup: holds lk, wants ptable.lock
    | WakeScan(c: Chan, p: P)    // holds both, about to scan
    | WakeDone(p: P)             // holds both, scan done

  datatype PtLock = Free | Held(pid: Pid) | Scheduler

  datatype State<P, D> = State(runs: seq<Run<P>>, data: D, lk: Option<Pid>, pt: PtLock)

  /** Process i takes a step (with an input), or the scheduler or kill acts. */
  datatype Action = Step(pid: Pid, input: bool) | SchedTake | SchedDrop | SchedRun(pid: Pid) | Kill(pid: Pid)

  function Go<P, D>(s: State<P, D>, i: Pid, r: Run<P>): State<P, D>
    requires i < |s.runs|
  {
    s.(runs := s.runs[i := r])
  }

  /** wakeup1: every process asleep on the channel becomes runnable. */
  function Woken<P>(r: Run<P>, c: Chan): Run<P> {
    if r.Asleep? && r.c == c then Ready(r.p) else r
  }

  function Scan<P>(runs: seq<Run<P>>, c: Chan): (r: seq<Run<P>>)
    ensures |r| == |runs| && forall i :: 0 <= i < |runs| ==> r[i] == Woken(runs[i], c)
  {
    seq(|runs|, i requires 0 <= i < |runs| => Woken(runs[i], c))
  }

  /** The next state, if the action can happen now. */
  function Next<P, D>(prog: Program<P, D>, s: State<P, D>, a: Action): Option<State<P, D>> {
    match a
    case Step(i, input) =>
      if i < |s.runs| then Advance(prog, s, i, input) else None
    case SchedTake =>
      if s.pt == Free then Some(s.(pt := Scheduler)) else None
    case SchedDrop =>
      if s.pt == Scheduler then Some(s.(pt := Free)) else None
    case SchedRun(i) =>
      if i < |s.runs| && s.pt == Scheduler && s.runs[i].Ready?
      then Some(Go(s, i, Back(s.runs[i].p)).(pt := Held(i))) else None
    case Kill(i) =>
      if i < |s.runs| && s.pt == Free && s.runs[i].Asleep?
      then Some(Go(s, i, Ready(s.runs[i].p))) else None
  }

  function Advance<P, D>(prog: Program<P, D>, s: State<P, D>, i: Pid, input: bool): Option<State<P, D>>
    requires i < |s.runs|
  {
    match s.runs[i]
    case At(p) => Execute(s, i, prog.step(i, p, s.data, input))
    case SleepPt(c, p) => if s.pt == Free then Some(Go(s, i, SleepBoth(c, p)).(pt := Held(i))) else None
    case SleepBoth(c, p) => Some(Go(s, i, SleepMark(c, p)).(lk := None))
    case SleepMark(c, p) => Some(Go(s, i, Asleep(c, p)).(pt := Scheduler))
    case Asleep(_, _) => None
    case Ready(_) => None
    case Back(p) => Some(Go(s, i, Relock(p)).(pt := Free))
    case Relock(p) => if s.lk == None then Some(Go(s, i, At(p)).(lk := Some(i))) else None
    case WakePt(c, p) => if s.pt == Free then Some(Go(s, i, WakeScan(c, p)).(pt := Held(i))) else None
    case WakeScan(c, p) => Some(State(Scan(s.runs, c)[i := WakeDone(p)], s.data, s.lk, s.pt))
    case WakeDone(p) => Some(Go(s, i, At(p)).(pt := Free))
  }

  function Execute<P, D>(s: State<P, D>, i: Pid, cmd: Cmd<P, D>): Option<State<P, D>>
    requires i < |s.runs|
  {
    match cmd
    case Local(p) => Some(Go(s, i, At(p)))
    case Lock(p) => if s.lk == None then Some(Go(s, i, At(p)).(lk := Some(i))) else None
    case Update(d, p) => Some(Go(s, i, At(p)).(data := d))
    case Wakeup(c, p) => Some(Go(s, i, WakePt(c, p)))
    case Sleep(c, p) => Some(Go(s, i, SleepPt(c, p)))
    case Unlock(p) => Some(Go(s, i, At(p)).(lk := None))
  }

  // ----- what a program must satisfy -----

  /** One command at one point of the code: it keeps to the lock discipline and
      establishes its assertion, and no other process loses its own. */
  ghost predicate CmdSafe<P(!new), D(!new)>(prog: Program<P, D>, i: Pid, p: P, d: D, cmd: Cmd<P, D>) {
    && (!cmd.Update? ==> prog.local(i, cmd.p, d))
    && match cmd
       case Local(q) => prog.holds(q) == prog.holds(p)
       case Lock(q) => !prog.holds(p) && prog.holds(q)
       case Unlock(q) => prog.holds(p) && !prog.holds(q)
       case Wakeup(c, q) => prog.holds(p) && prog.holds(q)
       case Sleep(c, q) => prog.holds(p) && prog.holds(q) && prog.rests(q)
       case Update(d', q) =>
         && prog.holds(q) == prog.holds(p) && prog.ok(d') && prog.local(i, q, d')
         && (forall j, r :: j != i && prog.local(j, r, d) && (prog.rests(r) || !(prog.holds(p) && prog.holds(r)))
               ==> prog.local(j, r, d'))
  }

  /** One command at one point of the code: it sleeps only where it should, and a
      sleeper's condition is undone only by a process that goes on to wake it. */
  ghost predicate CmdWakes<P(!new), D(!new)>(prog: Program<P, D>, p: P, d: D, cmd: Cmd<P, D>) {
    match cmd
    case Local(q) => prog.owes(p) <= prog.owes(q)
    case Lock(q) => true
    case Unlock(q) => prog.owes(p) == {}
    case Wakeup(c, q) => prog.owes(p) <= prog.owes(q) + {c}
    case Sleep(c, q) => prog.owes(p) == {} && prog.waits(c, d)
    case Update(d', q) =>
      && prog.owes(p) <= prog.owes(q)
      && (forall c :: prog.waits(c, d) && !prog.waits(c, d') ==> prog.holds(p) && c in prog.owes(q))
  }

  ghost predicate Safe<P(!new), D(!new)>(prog: Program<P, D>) {
    forall i, p, d, input :: prog.ok(d) && prog.local(i, p, d) ==> CmdSafe(prog, i, p, d, prog.step(i, p, d, input))
  }

  ghost predicate Wakes<P(!new), D(!new)>(prog: Program<P, D>) {
    forall i, p, d, input :: prog.ok(d) && prog.local(i, p, d) ==> CmdWakes(prog, p, d, prog.step(i, p, d, input))
  }

  // ----- the invariants -----

  predicate HoldsLk<P, D>(prog: Program<P, D>, r: Run<P>) {
    match r
    case At(p) => prog.holds(p)
    case SleepPt(_, _) | SleepBoth(_, _) | WakePt(_, _) | WakeScan(_, _) | WakeDone(_) => true
    case SleepMark(_, _) | Asleep(_, _) | Ready(_) | Back(_) | Relock(_) => false
  }

  predicate HoldsPt<P>(r: Run<P>) {
    r.SleepBoth? || r.SleepMark? || r.Back? || r.WakeScan? || r.WakeDone?
  }

  predicate InSleep<P>(r: Run<P>) {
    r.SleepPt? || r.SleepBoth? || r.SleepMark? || r.Asleep? || r.Ready? || r.Back? || r.Relock?
  }

  /** A process's assertion and the locks it holds. */
  ghost predicate ProcSafe<P, D>(prog: Program<P, D>, s: State<P, D>, i: Pid)
    requires i < |s.runs|
  {
    var r := s.runs[i];
    && prog.local(i, r.p, s.data)
    && (!r.At? ==> prog.holds(r.p))
    && (InSleep(r) ==> prog.rests(r.p))
    && (HoldsLk(prog, r) <==> s.lk == Some(i))
    && (HoldsPt(r) <==> s.pt == Held(i))
  }

  ghost predicate SafeInv<P, D>(prog: Program<P, D>, s: State<P, D>) {
    && prog.ok(s.data)
    && (s.lk.Some? ==> s.lk.value < |s.runs|)
    && (forall i :: 0 <= i < |s.runs| ==> ProcSafe(prog, s, i))
  }

  /** The wakeups the holder of lk still has to make. */
  function Debts<P, D>(prog: Program<P, D>, r: Run<P>): set<Chan> {
    match r
    case At(p) => prog.owes(p)
    case WakePt(c, p) => prog.owes(p) + {c}
    case WakeScan(c, p) => prog.owes(p) + {c}
    case WakeDone(p) => prog.owes(p)
    case _ => {}
  }

  ghost predicate Owed<P, D>(prog: Program<P, D>, s: State<P, D>, c: Chan) {
    s.lk.Some? && s.lk.value < |s.runs| && c in Debts(prog, s.runs[s.lk.value])
  }

  /** Why a process may be asleep or on its way there. */
  ghost predicate SleepOk<P, D>(prog: Program<P, D>, s: State<P, D>, r: Run<P>) {
    && ((r.SleepPt? || r.SleepBoth?) ==> prog.waits(r.c, s.data))
    && ((r.SleepMark? || r.Asleep?) ==> prog.waits(r.c, s.data) || Owed(prog, s, r.c))
  }

  ghost predicate WakeInv<P, D>(prog: Program<P, D>, s: State<P, D>) {
    forall i :: 0 <= i < |s.runs| ==> SleepOk(prog, s, s.runs[i])
  }

  /** The command the action runs, if it runs one. */
  function Command<P, D>(prog: Program<P, D>, s: State<P, D>, a: Action): Option<Cmd<P, D>> {
    if a.Step? && a.pid < |s.runs| && s.runs[a.pid].At?
    then Some(prog.step(a.pid, s.runs[a.pid].p, s.data, a.input)) else None
  }

  lemma SafeStep<P(!new), D(!new)>(prog: Program<P, D>, s: State<P, D>, a: Action)
    requires Safe(prog) && SafeInv(prog, s) && Next(prog, s, a).Some?
    ensures SafeInv(prog, Next(prog, s, a).value)
  {
    var s' := Next(prog, s, a).value;
    if a.Step? {
      assert ProcSafe(prog, s, a.pid);
      assert s.runs[a.pid].At? ==>
        CmdSafe(prog, a.pid, s.runs[a.pid].p, s.data, prog.step(a.pid, s.runs[a.pid].p, s.data, a.input));
    }
    forall j | 0 <= j < |s'.runs| ensures ProcSafe(prog, s', j) {
      assert ProcSafe(prog, s, j);
    }
  }

  /** Every step whose command meets its obligation leaves every sleeper rightly asleep. */
  lemma WakeStep<P(!new), D(!new)>(prog: Program<P, D>, s: State<P, D>, a: Action)
    requires SafeInv(prog, s) && WakeInv(prog, s) && Next(prog, s, a).Some?
    requires Command(prog, s, a).Some? ==>
               CmdSafe(prog, a.pid, s.runs[a.pid].p, s.data, Command(prog, s, a).value)
               && CmdWakes(prog, s.runs[a.pid].p, s.data, Command(prog, s, a).value)
    ensures WakeInv(prog, Next(prog, s, a).value)
  {
    var s' := Next(prog, s, a).value;
    if a.Step? {
      assert ProcSafe(prog, s, a.pid);
    }
    forall j | 0 <= j < |s'.runs| ensures SleepOk(prog, s', s'.runs[j]) {
      assert ProcSafe(prog, s, j) && SleepOk(prog, s, s.runs[j]);
    }
  }

  // ----- whole runs -----

  /** The state after a sequence of actions, if each could happen in its turn. */
  function After<P, D>(prog: Program<P, D>, s: State<P, D>, acts: seq<Action>): Option<State<P, D>> {
    if acts == [] then Some(s)
    else
      var m := |acts| - 1;
      var prior := After(prog, s, acts[..m]);
      if prior.None? then None else Next(prog, prior.value, acts[m])
  }

  /** Some run leads from one state to the other. */
  ghost predicate Reaches<P, D>(prog: Program<P, D>, s: State<P, D>, t: State<P, D>) {
    exists acts :: After(prog, s, acts) == Some(t)
  }

  lemma ReachSelf<P, D>(prog: Program<P, D>, s: State<P, D>)
    ensures Reaches(prog, s, s)
  {
    assert After(prog, s, []) == Some(s);
  }

  lemma ReachNext<P, D>(prog: Program<P, D>, s: State<P, D>, t: State<P, D>, a: Action)
    requires Reaches(prog, s, t) && Next(prog, t, a).Some?
    ensures Reaches(prog, s, Next(prog, t, a).value)
  {
    var acts :| After(prog, s, acts) == Some(t);
    assert (acts + [a])[..|acts|] == acts;
    assert After(prog, s, acts + [a]) == Next(prog, t, a);
  }

  /** Every process at its starting point, no lock taken. */
  ghost predicate Init<P, D>(prog: Program<P, D>, s: State<P, D>) {
    && prog.ok(s.data) && s.lk == None && s.pt == Free
    && forall i :: 0 <= i < |s.runs| ==> s.runs[i].At? && !prog.holds(s.runs[i].p) && prog.local(i, s.runs[i].p, s.data)
  }

  lemma {:induction false} SafeRun<P(!new), D(!new)>(prog: Program<P, D>, s: State<P, D>, acts: seq<Action>)
    requires Safe(prog) && Init(prog, s) && After(prog, s, acts).Some?
    ensures SafeInv(prog, After(prog, s, acts).value)
  {
    if acts != [] {
      var m := |acts| - 1;
      SafeRun(prog, s, acts[..m]);
      SafeStep(prog, After(prog, s, acts[..m]).value, acts[m]);
    }
  }

  lemma {:induction false} RunLength<P, D>(prog: Program<P, D>, s: State<P, D>, acts: seq<Action>)
    requires After(prog, s, acts).Some?
    ensures |After(prog, s, acts).value.runs| == |s.runs|
  {
    if acts != [] {
      RunLength(prog, s, acts[..|acts| - 1]);
    }
  }

  /** No command of the run breaks its wakeup obligation. */
  ghost predicate Prompt<P(!new), D(!new)>(prog: Program<P, D>, s: State<P, D>, acts: seq<Action>) {
    forall k :: 0 <= k < |acts| ==>
      var prior := After(prog, s, acts[..k]);
      prior.Some? && Command(prog, prior.value, acts[k]).Some? ==>
        CmdWakes(prog, prior.value.runs[acts[k].pid].p, prior.value.data, Command(prog, prior.value, acts[k]).value)
  }

  lemma {:induction false} WakeRun<P(!new), D(!new)>(prog: Program<P, D>, s: State<P, D>, acts: seq<Action>)
    requires Safe(prog) && Init(prog, s) && After(prog, s, acts).Some? && Prompt(prog, s, acts)
    ensures WakeInv(prog, After(prog, s, acts).value)
  {
    if acts != [] {
      var m := |acts| - 1;
      forall k | 0 <= k < m ensures acts[..m][..k] == acts[..k] {}
      WakeRun(prog, s, acts[..m]);
      SafeRun(prog, s, acts[..m]);
      var t := After(prog, s, acts[..m]).value;
      if Command(prog, t, acts[m]).Some? {
        assert ProcSafe(prog, t, acts[m].pid);
      }
      WakeStep(prog, t, acts[m]);
    }
  }

  /** No lost wakeups: after any such run, while the spinlock is free, every
      process asleep on a channel is one whose condition still holds. */
  lemma NoLostWakeup<P(!new), D(!new)>(prog: Program<P, D>, s: State<P, D>, acts: seq<Action>, i: Pid)
    requires Safe(prog) && Init(prog, s) && After(prog, s, acts).Some? && Prompt(prog, s, acts)
    requires var t := After(prog, s, acts).value; i < |t.runs| && t.runs[i].Asleep? && t.lk == None
    ensures var t := After(prog, s, acts).value; prog.waits(t.runs[i].c, t.data)
  {
    WakeRun(prog, s, acts);
    assert SleepOk(prog, After(prog, s, acts).value, After(prog, s, acts).value.runs[i]);
  }

  /** A program all of whose commands meet their obligation is prompt in every run. */
  lemma AlwaysPrompt<P(!new), D(!new)>(prog: Program<P, D>, s: State<P, D>, acts: seq<Action>)
    requires Safe(prog) && Wakes(prog) && Init(prog, s)
    ensures Prompt(prog, s, acts)
  {
    forall k | 0 <= k < |acts|
      ensures var prior := After(prog, s, acts[..k]);
              prior.Some? && Command(prog, prior.value, acts[k]).Some? ==>
                CmdWakes(prog, prior.value.runs[acts[k].pid].p, prior.value.data, Command(prog, prior.value, acts[k]).value)
    {
      var prior := After(prog, s, acts[..k]);
      if prior.Some? && Command(prog, prior.value, acts[k]).Some? {
        SafeRun(prog, s, acts[..k]);
        assert ProcSafe(prog, prior.value, acts[k].pid);
      }
    }
  }
}
