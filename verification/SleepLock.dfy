/** Sleep-locks (kernel/sleeplock.c): any number of processes acquiring and
    releasing one sleep-lock, over the sleep and wakeup of module Monitor. */
module SleepLock {
  import opened Options
  import opened Monitor

  const CHAN: Chan := 0

  /** Where a process is in acquiresleep, its critical section, or releasesleep. */
  datatype Point =
    | Out              // outside
    | Want             // about to acquire lk->lk
    | Test             // at the test of lk->locked
    | Taken            // locked and pid set, about to release lk->lk
    | In               // acquiresleep has returned
    | Leave            // releasesleep, about to acquire lk->lk
    | Clear            // about to reset locked and pid
    | Notify           // about to call wakeup
    | Exit             // about to release lk->lk

  /** The lock's data: the pid when locked, None when not. */
  type Owner = Option<Pid>

  function Code(i: Pid, p: Point, d: Owner, input: bool): Cmd<Point, Owner> {
    match p
    case Out => Local(if input then Want else Out)
    case Want => Lock(Test)
    case Test => if d.Some? then Sleep(CHAN, Test) else Update(Some(i), Taken)
    case Taken => Unlock(In)
    case In => Local(if input then Leave else In)
    case Leave => Lock(Clear)
    case Clear => Update(None, Notify)
    case Notify => Wakeup(CHAN, Exit)
    case Exit => Unlock(Out)
  }

  predicate Holding(p: Point) {
    p.Taken? || p.In? || p.Leave? || p.Clear?
  }

  predicate Named(n: nat, i: Pid, p: Point, d: Owner) {
    i < n && (Holding(p) <==> d == Some(i))
  }

  /** The code of n processes. A process is Holding exactly when the lock names it. */
  function Locking(n: nat): Program<Point, Owner> {
    Program(
      Code,
      (p: Point) => p.Test? || p.Taken? || p.Clear? || p.Notify? || p.Exit?,
      (p: Point) => p.Test?,
      (p: Point) => if p.Notify? then {CHAN} else {},
      (i: Pid, p: Point, d: Owner) => Named(n, i, p, d),
      (d: Owner) => d.Some? ==> d.value < n,
      (c: Chan, d: Owner) => c == CHAN && d.Some?)
  }

  lemma LockingIsSafe(n: nat)
    ensures Safe(Locking(n))
  {
    var prog := Locking(n);
    forall i, p, d, input | prog.ok(d) && prog.local(i, p, d)
      ensures CmdSafe(prog, i, p, d, prog.step(i, p, d, input))
    {
      var cmd := Code(i, p, d, input);
      assert Named(n, i, p, d);
      assert Named(n, i, cmd.p, if cmd.Update? then cmd.d else d);
    }
  }

  lemma LockingWakes(n: nat)
    ensures Wakes(Locking(n))
  {
    var prog := Locking(n);
    forall i, p, d, input | prog.ok(d) && prog.local(i, p, d)
      ensures CmdWakes(prog, p, d, prog.step(i, p, d, input))
    {
      assert prog.step(i, p, d, input) == Code(i, p, d, input);
    }
  }

  /** Every process outside, the lock free. */
  predicate Start(s: State<Point, Owner>) {
    s.data == None && s.lk == None && s.pt == Free && forall i :: 0 <= i < |s.runs| ==> s.runs[i] == At(Out)
  }

  /** At most one holder: in every interleaving, no two processes are between
      taking the lock in acquiresleep and clearing it in releasesleep, and the
      holder is the one whose pid the lock records. */
  lemma MutualExclusion(s: State<Point, Owner>, acts: seq<Action>, i: Pid, j: Pid)
    requires Start(s) && After(Locking(|s.runs|), s, acts).Some?
    requires var t := After(Locking(|s.runs|), s, acts).value;
             i < |t.runs| && j < |t.runs| && Holding(t.runs[i].p) && Holding(t.runs[j].p)
    ensures i == j && After(Locking(|s.runs|), s, acts).value.data == Some(i)
  {
    var prog := Locking(|s.runs|);
    LockingIsSafe(|s.runs|);
    SafeRun(prog, s, acts);
    var t := After(prog, s, acts).value;
    assert ProcSafe(prog, t, i) && ProcSafe(prog, t, j);
  }

  /** A process asleep on the lock, whenever lk->lk is free, has a holder to wait
      for: the lock is locked, and the process it names has yet to release it. */
  lemma SleeperHasHolder(s: State<Point, Owner>, acts: seq<Action>, i: Pid)
    requires Start(s) && After(Locking(|s.runs|), s, acts).Some?
    requires var t := After(Locking(|s.runs|), s, acts).value; i < |t.runs| && t.runs[i].Asleep? && t.lk == None
    ensures var t := After(Locking(|s.runs|), s, acts).value;
            t.data.Some? && t.data.value < |t.runs| && t.data.value != i && Holding(t.runs[t.data.value].p)
  {
    var prog := Locking(|s.runs|);
    LockingIsSafe(|s.runs|);
    LockingWakes(|s.runs|);
    AlwaysPrompt(prog, s, acts);
    NoLostWakeup(prog, s, acts, i);
    SafeRun(prog, s, acts);
    RunLength(prog, s, acts);
    var t := After(prog, s, acts).value;
    assert ProcSafe(prog, t, i) && ProcSafe(prog, t, t.data.value);
  }

  // ----- what each step does -----

  /** Only process i has moved, and the lock's data are now d. */
  predicate Moved(s: State<Point, Owner>, t: State<Point, Owner>, i: Pid, r: Run<Point>, d: Owner) {
    i < |s.runs| && t.runs == s.runs[i := r] && t.data == d && t.lk == s.lk && t.pt == s.pt
  }

  /** acquiresleep at its test takes a free lock in one step, in its own name, and goes
      to sleep on a taken one. */
  lemma AcquireDoes(n: nat, s: State<Point, Owner>, i: Pid, input: bool)
    requires i < |s.runs| && s.runs[i] == At(Test)
    ensures Next(Locking(n), s, Step(i, input)).Some?
    ensures var t := Next(Locking(n), s, Step(i, input)).value;
            if s.data == None then Moved(s, t, i, At(Taken), Some(i)) else Moved(s, t, i, SleepPt(CHAN, Test), s.data)
  {
  }

  /** releasesleep frees the lock and then wakes the sleepers. */
  lemma ReleaseDoes(n: nat, s: State<Point, Owner>, i: Pid, input: bool)
    requires i < |s.runs| && (s.runs[i] == At(Clear) || s.runs[i] == At(Notify))
    ensures Next(Locking(n), s, Step(i, input)).Some?
    ensures var t := Next(Locking(n), s, Step(i, input)).value;
            if s.runs[i] == At(Clear) then Moved(s, t, i, At(Notify), None) else Moved(s, t, i, WakePt(CHAN, Exit), s.data)
  {
  }
}
