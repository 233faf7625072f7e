/** The log's admission gate (begin_op, end_op and log_write's bookkeeping in
    kernel/log.c): any number of processes running file-system operations, over
    the sleep and wakeup of module Monitor. */
module LogGate {
  import opened Options
  import opened Monitor
  import opened Sums

  const MAXOPBLOCKS := 20
  const LOGSIZE := 3 * MAXOPBLOCKS
  const SLOTS := LOGSIZE - 1       // log.size - 1: mkfs makes a log of LOGSIZE blocks, header included
  const CHAN: Chan := 0            // &log

  datatype Point =
    | Out
    | Want                         // begin_op, about to acquire log.lock
    | Test                         // at begin_op's tests
    | Begun                        // admitted, about to release log.lock
    | Work(used: nat)              // inside the operation, after logging this many new blocks
    | WantLog(used: nat)           // log_write, about to acquire log.lock
    | Record(used: nat)            // about to enter the block number
    | Logged(used: nat)            // about to release log.lock
    | WantEnd(used: nat)           // end_op, about to acquire log.lock
    | End(used: nat)               // about to leave the outstanding operations
    | Notify                       // others remain: about to call wakeup
    | Ended                        // about to release log.lock
    | Commit                       // the last one: about to release log.lock and commit
    | Writing                      // in commit, before the count is reset
    | Written                      // in commit, after it
    | Reopen                       // about to clear committing
    | NotifyAll
    | Reopened
    | Panicked

  /** The log's counters. Which process commits, and what each operation in
      progress has left of its MAXOPBLOCKS, are history, not kernel data. */
  datatype Gate = Gate(n: int, outstanding: int, committer: Option<Pid>, left: map<Pid, int>)

  predicate Committing(p: Point) {
    p.Commit? || p.Writing? || p.Written? || p.Reopen?
  }

  predicate InOp(p: Point) {
    p.Begun? || p.Work? || p.WantLog? || p.Record? || p.Logged? || p.WantEnd? || p.End?
  }

  function Used(p: Point): nat
    requires InOp(p)
  {
    if p.Begun? then 0 else p.used
  }

  predicate Full(d: Gate) {
    d.n + (d.outstanding + 1) * MAXOPBLOCKS > LOGSIZE
  }

  predicate TooBig(d: Gate) {
    d.n >= LOGSIZE || d.n >= SLOTS
  }

  /** An operation logs at most `limit` new blocks; logging one again is free. */
  function Code(limit: nat, i: Pid, p: Point, d: Gate, input: bool): Cmd<Point, Gate> {
    match p
    case Out => Local(if input then Want else Out)
    case Want => Lock(Test)
    case Test =>
      if d.committer.Some? || Full(d) then Sleep(CHAN, Test)
      else Update(d.(outstanding := d.outstanding + 1, left := d.left[i := MAXOPBLOCKS]), Begun)
    case Begun => Unlock(Work(0))
    case Work(u) => Local(if !input then WantEnd(u) else if TooBig(d) then Panicked else WantLog(u))
    case WantLog(u) => Lock(Record(u))
    case Record(u) =>
      if input && u < limit
      then Update(d.(n := d.n + 1, left := d.left[i := MAXOPBLOCKS - u - 1]), Logged(u + 1))
      else Local(Logged(u))
    case Logged(u) => Unlock(Work(u))
    case WantEnd(u) => Lock(End(u))
    case End(_) =>
      var d' := d.(outstanding := d.outstanding - 1, left := d.left - {i});
      if d.committer.Some? then Update(d', Panicked)
      else if d'.outstanding == 0 then Update(d'.(committer := Some(i)), Commit)
      else Update(d', Notify)
    case Notify => Wakeup(CHAN, Ended)
    case Ended => Unlock(Out)
    case Commit => Unlock(Writing)
    case Writing => Update(d.(n := 0), Written)
    case Written => Lock(Reopen)
    case Reopen => Update(d.(committer := None), NotifyAll)
    case NotifyAll => Wakeup(CHAN, Reopened)
    case Reopened => Unlock(Out)
    case Panicked => Local(Panicked)
  }

  // ----- the accounting -----

  lemma {:induction false} SumBounds(m: map<Pid, int>)
    requires forall i :: i in m ==> 1 <= m[i] <= MAXOPBLOCKS
    ensures |m| <= Sum(m) <= MAXOPBLOCKS * |m|
    decreases |m|
  {
    if m != map[] {
      var i :| i in m && Sum(m) == m[i] + Sum(m - {i});
      var rest := m - {i};
      SumBounds(rest);
      assert |m| == |rest| + 1;
    }
  }

  /** Reservations: the blocks logged and the blocks still reserved fit in the
      log, with one to spare once at most one operation is left. */
  ghost predicate Reserved(procs: nat, limit: nat, d: Gate) {
    && d.n >= 0
    && d.outstanding == |d.left|
    && (forall i :: i in d.left ==> i < procs && MAXOPBLOCKS - limit <= d.left[i] <= MAXOPBLOCKS)
    && d.n + Sum(d.left) <= (if |d.left| <= 1 then LOGSIZE - 1 else LOGSIZE)
    && (d.committer.Some? ==> d.committer.value < procs && d.outstanding == 0)
    && (d.committer == None && d.outstanding == 0 ==> d.n == 0)
  }

  predicate Placed(procs: nat, limit: nat, i: Pid, p: Point, d: Gate) {
    && i < procs && !p.Panicked?
    && (InOp(p) <==> i in d.left)
    && (InOp(p) ==> Used(p) <= limit && d.left[i] == MAXOPBLOCKS - Used(p))
    && (Committing(p) <==> d.committer == Some(i))
    && (p.Written? || p.Reopen? ==> d.n == 0)
  }

  ghost function Logging(procs: nat, limit: nat): Program<Point, Gate> {
    Program(
      (i: Pid, p: Point, d: Gate, input: bool) => Code(limit, i, p, d, input),
      (p: Point) => p.Test? || p.Begun? || p.Record? || p.Logged? || p.End? || p.Notify? || p.Ended? || p.Commit?
                    || p.Reopen? || p.NotifyAll? || p.Reopened?,
      (p: Point) => p.Test?,
      (p: Point) => if p.Notify? || p.NotifyAll? then {CHAN} else {},
      (i: Pid, p: Point, d: Gate) => Placed(procs, limit, i, p, d),
      d => Reserved(procs, limit, d),
      (c: Chan, d: Gate) => c == CHAN && (d.committer.Some? || Full(d)))
  }

  // ----- each step keeps the accounting -----

  lemma Admitted(procs: nat, limit: nat, d: Gate, i: Pid)
    requires limit < MAXOPBLOCKS && i < procs && i !in d.left
    requires Reserved(procs, limit, d) && d.committer == None && !Full(d)
    ensures Reserved(procs, limit, d.(outstanding := d.outstanding + 1, left := d.left[i := MAXOPBLOCKS]))
  {
    SumSet(d.left, i, MAXOPBLOCKS);
    SumBounds(d.left);
  }

  lemma Recorded(procs: nat, limit: nat, d: Gate, i: Pid)
    requires limit < MAXOPBLOCKS && i in d.left && d.left[i] > MAXOPBLOCKS - limit
    requires Reserved(procs, limit, d)
    ensures Reserved(procs, limit, d.(n := d.n + 1, left := d.left[i := d.left[i] - 1]))
  {
    SumSet(d.left, i, d.left[i] - 1);
    assert |d.left[i := d.left[i] - 1]| == |d.left|;
  }

  lemma Departed(procs: nat, limit: nat, d: Gate, i: Pid)
    requires limit < MAXOPBLOCKS && i in d.left && Reserved(procs, limit, d)
    ensures var d' := d.(outstanding := d.outstanding - 1, left := d.left - {i});
            Reserved(procs, limit, if d'.outstanding == 0 then d'.(committer := Some(i)) else d')
  {
    SumWithout(d.left, i);
    assert |d.left - {i}| == |d.left| - 1;
  }

  /** With one more block reserved than any operation uses, log_write's test passes. */
  lemma RoomToLog(procs: nat, limit: nat, d: Gate, i: Pid)
    requires limit < MAXOPBLOCKS && i in d.left && Reserved(procs, limit, d)
    ensures !TooBig(d)
  {
    SumBounds(d.left);
  }

  /** The data after a command. */
  function Result(cmd: Cmd<Point, Gate>, d: Gate): Gate {
    if cmd.Update? then cmd.d else d
  }

  lemma StepReserves(procs: nat, limit: nat, i: Pid, p: Point, d: Gate, input: bool)
    requires limit < MAXOPBLOCKS && Reserved(procs, limit, d) && Placed(procs, limit, i, p, d)
    ensures Reserved(procs, limit, Result(Code(limit, i, p, d, input), d))
  {
    hide Sum;
    match p
    case Test => if d.committer == None && !Full(d) { Admitted(procs, limit, d, i); }
    case Record(u) => if input && u < limit { Recorded(procs, limit, d, i); }
    case End(_) => Departed(procs, limit, d, i);
    case _ =>
  }

  lemma StepPlaces(procs: nat, limit: nat, i: Pid, p: Point, d: Gate, input: bool)
    requires limit < MAXOPBLOCKS && Reserved(procs, limit, d) && Placed(procs, limit, i, p, d)
    ensures var cmd := Code(limit, i, p, d, input); Placed(procs, limit, i, cmd.p, Result(cmd, d))
  {
    hide Sum;
    if p.Work? {
      RoomToLog(procs, limit, d, i);
    }
  }

  lemma StepSpares(procs: nat, limit: nat, i: Pid, p: Point, d: Gate, input: bool, j: Pid, r: Point)
    requires Reserved(procs, limit, d) && Placed(procs, limit, i, p, d)
    requires j != i && Placed(procs, limit, j, r, d)
    ensures Placed(procs, limit, j, r, Result(Code(limit, i, p, d, input), d))
  {
    hide Sum;
  }

  lemma NoCommitYet(procs: nat, limit: nat, i: Pid, p: Point, d: Gate)
    requires Reserved(procs, limit, d) && Placed(procs, limit, i, p, d) && p.End?
    ensures d.committer == None
  {
    hide Sum;
    assert |d.left| > 0;
  }

  lemma CommandIsSafe(procs: nat, limit: nat, i: Pid, p: Point, d: Gate, input: bool)
    requires limit < MAXOPBLOCKS && Reserved(procs, limit, d) && Placed(procs, limit, i, p, d)
    ensures CmdSafe(Logging(procs, limit), i, p, d, Code(limit, i, p, d, input))
  {
    hide Sum, Reserved, Placed, Full, TooBig;
    if p.End? {
      NoCommitYet(procs, limit, i, p, d);
    }
    StepReserves(procs, limit, i, p, d, input);
    StepPlaces(procs, limit, i, p, d, input);
    forall j, r | j != i && Placed(procs, limit, j, r, d)
      ensures Placed(procs, limit, j, r, Result(Code(limit, i, p, d, input), d))
    {
      StepSpares(procs, limit, i, p, d, input, j, r);
    }
  }

  lemma LoggingIsSafe(procs: nat, limit: nat)
    requires limit < MAXOPBLOCKS
    ensures Safe(Logging(procs, limit))
  {
    hide Sum, Reserved, Placed, CmdSafe, Code;
    var prog := Logging(procs, limit);
    forall i, p, d, input | prog.ok(d) && prog.local(i, p, d)
      ensures CmdSafe(prog, i, p, d, prog.step(i, p, d, input))
    {
      CommandIsSafe(procs, limit, i, p, d, input);
    }
  }

  lemma CommandWakes(procs: nat, limit: nat, i: Pid, p: Point, d: Gate, input: bool)
    requires Placed(procs, limit, i, p, d) && Reserved(procs, limit, d)
    ensures CmdWakes(Logging(procs, limit), p, d, Code(limit, i, p, d, input))
  {
    hide Sum;
  }

  lemma LoggingWakes(procs: nat, limit: nat)
    ensures Wakes(Logging(procs, limit))
  {
    hide Sum, Reserved, Placed, CmdWakes, Code;
    var prog := Logging(procs, limit);
    forall i, p, d, input | prog.ok(d) && prog.local(i, p, d)
      ensures CmdWakes(prog, p, d, prog.step(i, p, d, input))
    {
      CommandWakes(procs, limit, i, p, d, input);
    }
  }

  // ----- whole runs -----

  /** The log empty, every process outside any operation. */
  predicate Start(s: State<Point, Gate>) {
    && s.data == Gate(0, 0, None, map[]) && s.lk == None && s.pt == Free
    && forall i :: 0 <= i < |s.runs| ==> s.runs[i] == At(Out)
  }

  lemma Started(limit: nat, s: State<Point, Gate>)
    requires Start(s)
    ensures Init(Logging(|s.runs|, limit), s)
  {
  }

  /** Log space: after any run in which each operation logs fewer than MAXOPBLOCKS
      blocks, what is logged plus what is still reserved fits in the log, no
      commit is under way while an operation is, and neither log_write nor end_op
      has panicked. */
  lemma NeverTooBig(limit: nat, s: State<Point, Gate>, acts: seq<Action>)
    requires limit < MAXOPBLOCKS && Start(s) && After(Logging(|s.runs|, limit), s, acts).Some?
    ensures var t := After(Logging(|s.runs|, limit), s, acts).value;
            && t.data.n + Sum(t.data.left) <= LOGSIZE
            && (t.data.committer.Some? ==> t.data.outstanding == 0)
            && t.data.outstanding == |t.data.left|
            && forall i :: 0 <= i < |t.runs| ==>
                 !t.runs[i].p.Panicked? && (InOp(t.runs[i].p) <==> i in t.data.left)
  {
    hide Sum;
    var prog := Logging(|s.runs|, limit);
    LoggingIsSafe(|s.runs|, limit);
    Started(limit, s);
    SafeRun(prog, s, acts);
    var t := After(prog, s, acts).value;
    forall i | 0 <= i < |t.runs|
      ensures !t.runs[i].p.Panicked? && (InOp(t.runs[i].p) <==> i in t.data.left)
    {
      assert ProcSafe(prog, t, i);
    }
  }

  /** The gate is shut only while there is a committer or an operation. */
  lemma ShutForCause(procs: nat, limit: nat, d: Gate) returns (j: Pid)
    requires Reserved(procs, limit, d) && (d.committer.Some? || Full(d))
    ensures j < procs && (d.committer == Some(j) || j in d.left)
  {
    hide Sum;
    if d.committer.Some? {
      j := d.committer.value;
    } else {
      assert |d.left| > 0;
      j :| j in d.left;
    }
  }

  /** A process asleep in begin_op, whenever log.lock is free, has another to wait
      for: one that is committing or one inside an operation. */
  lemma SleeperHasCause(limit: nat, s: State<Point, Gate>, acts: seq<Action>, i: Pid)
    requires limit < MAXOPBLOCKS && Start(s) && After(Logging(|s.runs|, limit), s, acts).Some?
    requires var t := After(Logging(|s.runs|, limit), s, acts).value; i < |t.runs| && t.runs[i].Asleep? && t.lk == None
    ensures var t := After(Logging(|s.runs|, limit), s, acts).value;
            exists j :: 0 <= j < |t.runs| && j != i && (Committing(t.runs[j].p) || InOp(t.runs[j].p))
  {
    hide Sum;
    var prog := Logging(|s.runs|, limit);
    LoggingIsSafe(|s.runs|, limit);
    LoggingWakes(|s.runs|, limit);
    Started(limit, s);
    AlwaysPrompt(prog, s, acts);
    NoLostWakeup(prog, s, acts, i);
    SafeRun(prog, s, acts);
    RunLength(prog, s, acts);
    var t := After(prog, s, acts).value;
    assert ProcSafe(prog, t, i);
    var j := ShutForCause(|s.runs|, limit, t.data);
    assert ProcSafe(prog, t, j);
  }

  // ----- the bound is exact -----

  /** A process passes from one point to the next, leaving this data. */
  function Moved(t: State<Point, Gate>, i: Pid, p: Point, d: Gate): State<Point, Gate>
    requires i < |t.runs|
  {
    State(t.runs[i := At(p)], d, None, Free)
  }

  ghost predicate Quiet(t: State<Point, Gate>, i: Pid, p: Point) {
    i < |t.runs| && t.lk == None && t.pt == Free && t.runs[i] == At(p)
  }

  /** begin_op through to its return. */
  lemma CanBegin(limit: nat, s: State<Point, Gate>, t: State<Point, Gate>, i: Pid)
    requires Quiet(t, i, Out) && t.data.committer == None && !Full(t.data)
    requires Reaches(Logging(|s.runs|, limit), s, t)
    ensures Reaches(Logging(|s.runs|, limit), s,
                    Moved(t, i, Work(0), t.data.(outstanding := t.data.outstanding + 1, left := t.data.left[i := MAXOPBLOCKS])))
  {
    hide Reaches, Sum, Reserved, Placed;
    var prog := Logging(|s.runs|, limit);
    var d := t.data.(outstanding := t.data.outstanding + 1, left := t.data.left[i := MAXOPBLOCKS]);
    ReachNext(prog, s, t, Step(i, true));
    var t1 := Moved(t, i, Want, t.data);
    ReachNext(prog, s, t1, Step(i, true));
    var t2 := Moved(t, i, Test, t.data).(lk := Some(i));
    assert t2 == Next(prog, t1, Step(i, true)).value;
    ReachNext(prog, s, t2, Step(i, true));
    var t3 := Moved(t, i, Begun, d).(lk := Some(i));
    assert t3 == Next(prog, t2, Step(i, true)).value;
    ReachNext(prog, s, t3, Step(i, true));
    assert Moved(t, i, Work(0), d) == Next(prog, t3, Step(i, true)).value;
  }

  /** One log_write of a new block. */
  lemma CanLog(limit: nat, s: State<Point, Gate>, t: State<Point, Gate>, i: Pid, u: nat)
    requires Quiet(t, i, Work(u)) && !TooBig(t.data) && u < limit
    requires Reaches(Logging(|s.runs|, limit), s, t)
    ensures Reaches(Logging(|s.runs|, limit), s,
                    Moved(t, i, Work(u + 1), t.data.(n := t.data.n + 1, left := t.data.left[i := MAXOPBLOCKS - u - 1])))
  {
    hide Reaches, Sum, Reserved, Placed;
    var prog := Logging(|s.runs|, limit);
    var d := t.data.(n := t.data.n + 1, left := t.data.left[i := MAXOPBLOCKS - u - 1]);
    ReachNext(prog, s, t, Step(i, true));
    var t1 := Moved(t, i, WantLog(u), t.data);
    ReachNext(prog, s, t1, Step(i, true));
    var t2 := Moved(t, i, Record(u), t.data).(lk := Some(i));
    assert t2 == Next(prog, t1, Step(i, true)).value;
    ReachNext(prog, s, t2, Step(i, true));
    var t3 := Moved(t, i, Logged(u + 1), d).(lk := Some(i));
    assert t3 == Next(prog, t2, Step(i, true)).value;
    ReachNext(prog, s, t3, Step(i, true));
    assert Moved(t, i, Work(u + 1), d) == Next(prog, t3, Step(i, true)).value;
  }

  /** m of them, as long as log_write's test allows. */
  lemma {:induction false} CanLogMany(limit: nat, s: State<Point, Gate>, t: State<Point, Gate>, i: Pid, m: nat)
    requires Quiet(t, i, Work(0)) && i in t.data.left && t.data.left[i] == MAXOPBLOCKS
    requires m <= limit && t.data.n + m <= SLOTS
    requires Reaches(Logging(|s.runs|, limit), s, t)
    ensures Reaches(Logging(|s.runs|, limit), s,
                    Moved(t, i, Work(m), t.data.(n := t.data.n + m, left := t.data.left[i := MAXOPBLOCKS - m])))
  {
    hide Reaches, Sum, Reserved, Placed;
    if m == 0 {
      assert t.data.left[i := MAXOPBLOCKS] == t.data.left;
      assert t.runs[i := At(Work(0))] == t.runs;
    } else {
      CanLogMany(limit, s, t, i, m - 1);
      var t1 := Moved(t, i, Work(m - 1), t.data.(n := t.data.n + m - 1, left := t.data.left[i := MAXOPBLOCKS - m + 1]));
      CanLog(limit, s, t1, i, m - 1);
      assert t1.data.left[i := MAXOPBLOCKS - m] == t.data.left[i := MAXOPBLOCKS - m];
      assert t1.runs[i := At(Work(m))] == t.runs[i := At(Work(m))];
    }
  }

  lemma LogFails(limit: nat, s: State<Point, Gate>, t: State<Point, Gate>, i: Pid, u: nat)
    requires Quiet(t, i, Work(u)) && TooBig(t.data) && Reaches(Logging(|s.runs|, limit), s, t)
    ensures Reaches(Logging(|s.runs|, limit), s, Moved(t, i, Panicked, t.data))
  {
    hide Reaches, Sum, Reserved, Placed;
    ReachNext(Logging(|s.runs|, limit), s, t, Step(i, true));
  }

  /** If operations may log all MAXOPBLOCKS blocks that begin_op reserves, three
      of them can fill the 59 slots and the next log_write panics. */
  lemma TooBigIsReachable(limit: nat) returns (s: State<Point, Gate>, t: State<Point, Gate>)
    requires limit >= MAXOPBLOCKS
    ensures Start(s) && Reaches(Logging(|s.runs|, limit), s, t) && |t.runs| == 3 && t.runs[2].p.Panicked?
  {
    hide Reaches, Sum, Reserved, Placed, Code;
    s := State([At(Out), At(Out), At(Out)], Gate(0, 0, None, map[]), None, Free);
    var prog := Logging(3, limit);
    ReachSelf(prog, s);
    CanBegin(limit, s, s, 0);
    var t1 := Moved(s, 0, Work(0), Gate(0, 1, None, map[0 := 20]));
    CanBegin(limit, s, t1, 1);
    var t2 := Moved(t1, 1, Work(0), Gate(0, 2, None, t1.data.left[1 := 20]));
    CanBegin(limit, s, t2, 2);
    var t3 := Moved(t2, 2, Work(0), Gate(0, 3, None, t2.data.left[2 := 20]));
    CanLogMany(limit, s, t3, 0, 20);
    var t4 := Moved(t3, 0, Work(20), Gate(20, 3, None, t3.data.left[0 := 0]));
    CanLogMany(limit, s, t4, 1, 20);
    var t5 := Moved(t4, 1, Work(20), Gate(40, 3, None, t4.data.left[1 := 0]));
    CanLogMany(limit, s, t5, 2, 19);
    var t6 := Moved(t5, 2, Work(19), Gate(59, 3, None, t5.data.left[2 := 1]));
    LogFails(limit, s, t6, 2, 19);
    t := Moved(t6, 2, Panicked, t6.data);
  }

  // ----- what each step does -----

  predicate OneMoved(s: State<Point, Gate>, t: State<Point, Gate>, i: Pid, r: Run<Point>) {
    i < |s.runs| && t.runs == s.runs[i := r] && t.lk == s.lk && t.pt == s.pt
  }

  predicate Counters(d: Gate, n: int, outstanding: int, committer: Option<Pid>) {
    d.n == n && d.outstanding == outstanding && d.committer == committer
  }

  /** begin_op admits an operation exactly if no commit is going on and the log has room
      for MAXOPBLOCKS blocks of every operation in progress and of this one; otherwise it
      sleeps. */
  lemma BeginDoes(procs: nat, limit: nat, s: State<Point, Gate>, i: Pid, input: bool)
    requires i < |s.runs| && s.runs[i] == At(Test)
    ensures Next(Logging(procs, limit), s, Step(i, input)).Some?
    ensures var t, d := Next(Logging(procs, limit), s, Step(i, input)).value, s.data;
            if d.committer == None && d.n + (d.outstanding + 1) * 20 <= 60
            then OneMoved(s, t, i, At(Begun)) && Counters(t.data, d.n, d.outstanding + 1, None)
            else OneMoved(s, t, i, SleepPt(CHAN, Test)) && t.data == d
  {
  }

  /** log_write counts a block that is new. */
  lemma RecordDoes(procs: nat, limit: nat, s: State<Point, Gate>, i: Pid, u: nat, isNew: bool)
    requires i < |s.runs| && s.runs[i] == At(Record(u)) && u < limit
    ensures Next(Logging(procs, limit), s, Step(i, isNew)).Some?
    ensures var t, d := Next(Logging(procs, limit), s, Step(i, isNew)).value, s.data;
            && OneMoved(s, t, i, At(Logged(if isNew then u + 1 else u)))
            && Counters(t.data, if isNew then d.n + 1 else d.n, d.outstanding, d.committer)
  {
  }

  /** end_op leaves; the last one out commits, any other wakes those who wait for room. */
  lemma EndDoes(procs: nat, limit: nat, s: State<Point, Gate>, i: Pid, u: nat, input: bool)
    requires i < |s.runs| && s.runs[i] == At(End(u)) && s.data.committer == None
    ensures Next(Logging(procs, limit), s, Step(i, input)).Some?
    ensures var t, d := Next(Logging(procs, limit), s, Step(i, input)).value, s.data;
            if d.outstanding == 1 then OneMoved(s, t, i, At(Commit)) && Counters(t.data, d.n, 0, Some(i))
            else OneMoved(s, t, i, At(Notify)) && Counters(t.data, d.n, d.outstanding - 1, None)
  {
  }

  /** commit empties the log, and then the gate is open again and everyone is woken. */
  lemma CommitDoes(procs: nat, limit: nat, s: State<Point, Gate>, i: Pid, input: bool)
    requires i < |s.runs| && s.runs[i].At? && (s.runs[i].p.Writing? || s.runs[i].p.Reopen? || s.runs[i].p.NotifyAll? || s.runs[i].p.Notify?)
    ensures Next(Logging(procs, limit), s, Step(i, input)).Some?
    ensures var t, d := Next(Logging(procs, limit), s, Step(i, input)).value, s.data;
            match s.runs[i].p
            case Writing => OneMoved(s, t, i, At(Written)) && Counters(t.data, 0, d.outstanding, d.committer)
            case Reopen => OneMoved(s, t, i, At(NotifyAll)) && Counters(t.data, d.n, d.outstanding, None)
            case NotifyAll => OneMoved(s, t, i, WakePt(CHAN, Reopened)) && t.data == d
            case _ => OneMoved(s, t, i, WakePt(CHAN, Ended)) && t.data == d
  {
  }
}
