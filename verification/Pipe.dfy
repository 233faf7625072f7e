/** Pipes (kernel/pipe.c): any number of readers, writers and closers of one
    pipe, over the sleep and wakeup of module Monitor. */
module Pipe {
  import opened Options
  import opened Monitor
  import opened Bytes

  const PIPESIZE := 512
  const UINT := 0x1_0000_0000
  const NREAD: Chan := 0           // &p->nread
  const NWRITE: Chan := 1          // &p->nwrite

  type Buffer = s: seq<byte> | |s| == PIPESIZE witness seq(PIPESIZE, _ => 0)

  /** struct pipe, with the bytes accepted and delivered so far as history. */
  datatype Ring = Ring(data: Buffer, nread: int, nwrite: int, readopen: bool, writeopen: bool,
                       accepted: seq<byte>, delivered: seq<byte>)

  datatype Call = Write(src: seq<byte>) | Read(n: nat) | Close(writable: bool)

  datatype Stage =
    | Idle
    | WLock(src: seq<byte>)
    | WLoop(src: seq<byte>, i: nat, news: bool)   // news: bytes stored since the last wakeup
    | WWake(src: seq<byte>, i: nat)
    | WSleep(src: seq<byte>, i: nat)
    | WDone(src: seq<byte>)
    | WUnlock(src: seq<byte>)                     // about to release and return |src|
    | WFail(src: seq<byte>, i: nat, news: bool)   // about to release and return -1
    | RLock(n: nat)
    | RWait(n: nat)
    | RCopy(n: nat, got: seq<byte>)
    | RUnlock(n: nat, got: seq<byte>)             // about to release and return |got|
    | RFail
    | CLock(writable: bool)
    | CSet(writable: bool)
    | CWake(writable: bool)
    | CUnlock

  /** A process: the calls it has yet to make, and where it is in the current one. */
  datatype Point = Point(rest: seq<Call>, at: Stage)

  predicate Full(d: Ring) { d.nwrite == (d.nread + PIPESIZE) % UINT }

  predicate Empty(d: Ring) { d.nread == d.nwrite }

  function Put(d: Ring, b: byte): Ring {
    d.(data := d.data[d.nwrite % PIPESIZE := b], nwrite := (d.nwrite + 1) % UINT, accepted := d.accepted + [b])
  }

  function Head(d: Ring): byte {
    d.data[d.nread % PIPESIZE]
  }

  function Get(d: Ring): Ring {
    d.(nread := (d.nread + 1) % UINT, delivered := d.delivered + [Head(d)])
  }

  function Begin(c: Call): Stage {
    match c
    case Write(src) => WLock(src)
    case Read(n) => RLock(n)
    case Close(w) => CLock(w)
  }

  function Shut(d: Ring, writable: bool): Ring {
    if writable then d.(writeopen := false) else d.(readopen := false)
  }

  /** The input says whether the process has been killed. */
  function Code(p: Point, d: Ring, killed: bool): Cmd<Point, Ring> {
    match p.at
    case Idle => Local(if p.rest == [] then p else Point(p.rest[1..], Begin(p.rest[0])))
    case WLock(src) => Lock(p.(at := WLoop(src, 0, false)))
    case WLoop(src, i, news) =>
      if i >= |src| then Local(p.(at := WDone(src)))
      else if Full(d) then Local(p.(at := if !d.readopen || killed then WFail(src, i, news) else WWake(src, i)))
      else Update(Put(d, src[i]), p.(at := WLoop(src, i + 1, true)))
    case WWake(src, i) => Wakeup(NREAD, p.(at := WSleep(src, i)))
    case WSleep(src, i) => Sleep(NWRITE, p.(at := WLoop(src, i, false)))
    case WDone(src) => Wakeup(NREAD, p.(at := WUnlock(src)))
    case WUnlock(_) => Unlock(p.(at := Idle))
    case WFail(_, _, _) => Unlock(p.(at := Idle))
    case RLock(n) => Lock(p.(at := RWait(n)))
    case RWait(n) =>
      if Empty(d) && d.writeopen
      then (if killed then Local(p.(at := RFail)) else Sleep(NREAD, p))
      else Local(p.(at := RCopy(n, [])))
    case RCopy(n, got) =>
      if |got| >= n || Empty(d) then Wakeup(NWRITE, p.(at := RUnlock(n, got)))
      else Update(Get(d), p.(at := RCopy(n, got + [Head(d)])))
    case RUnlock(_, _) => Unlock(p.(at := Idle))
    case RFail => Unlock(p.(at := Idle))
    case CLock(w) => Lock(p.(at := CSet(w)))
    case CSet(w) => Update(Shut(d, w), p.(at := CWake(w)))
    case CWake(w) => Wakeup(if w then NREAD else NWRITE, p.(at := CUnlock))
    case CUnlock => Unlock(p.(at := Idle))
  }

  /** First in, first out: what was delivered is the first part of what was
      accepted, the rest is in the buffer, and the counters are the lengths
      reduced modulo 2^32. */
  predicate Fifo(d: Ring) {
    && d.delivered <= d.accepted && |d.accepted| <= |d.delivered| + PIPESIZE
    && d.nwrite == |d.accepted| % UINT && d.nread == |d.delivered| % UINT
    && forall k :: |d.delivered| <= k < |d.accepted| ==> d.data[k % PIPESIZE] == d.accepted[k]
  }

  /** The read has the last bytes delivered, and no more than it asked for. */
  predicate Oldest(n: nat, got: seq<byte>, d: Ring) {
    |got| <= n && |got| <= |d.delivered| && got == d.delivered[|d.delivered| - |got|..]
  }

  predicate Facts(p: Point, d: Ring) {
    && ((p.at.WWake? || p.at.WSleep?) ==> Full(d) && d.readopen)
    && (p.at.WFail? ==> Full(d))
    && ((p.at.WLoop? || p.at.WWake? || p.at.WSleep? || p.at.WFail?) ==> p.at.i <= |p.at.src|)
    && ((p.at.RCopy? || p.at.RUnlock?) ==> Oldest(p.at.n, p.at.got, d))
    && (p.at.RUnlock? ==> |p.at.got| == p.at.n || Empty(d))
  }

  predicate HoldsLock(p: Point) {
    !p.at.Idle? && !p.at.WLock? && !p.at.RLock? && !p.at.CLock?
  }

  function Owes(p: Point): set<Chan> {
    match p.at
    case WLoop(_, _, news) => if news then {NREAD} else {}
    case WDone(_) => {NREAD}
    case WFail(_, _, news) => if news then {NREAD} else {}
    case WWake(_, _) => {NREAD}
    case RCopy(_, _) => {NWRITE}
    case CWake(w) => if w then {NREAD} else {NWRITE}
    case _ => {}
  }

  predicate BelongsAsleep(c: Chan, d: Ring) {
    || (c == NREAD && Empty(d) && d.writeopen)
    || (c == NWRITE && Full(d) && d.readopen)
  }

  function Piping(): Program<Point, Ring> {
    Program(
      (i: Pid, p: Point, d: Ring, killed: bool) => Code(p, d, killed),
      HoldsLock,
      Resting,
      Owes,
      (i: Pid, p: Point, d: Ring) => Facts(p, d),
      Fifo,
      BelongsAsleep)
  }

  // ----- the counters wrap harmlessly -----

  lemma SameRemainder(a: int, b: int)
    requires a % UINT == b % UINT && b <= a < b + UINT
    ensures a == b
  {
  }

  lemma SlotOf(k: nat)
    ensures k % UINT % PIPESIZE == k % PIPESIZE
  {
    assert UINT == 8388608 * PIPESIZE;
    var q := k / UINT;
    assert k == (q * 8388608) * PIPESIZE + k % UINT;
    AddMultiple(k % UINT, q * 8388608);
  }

  lemma AddMultiple(r: int, m: int)
    ensures (m * PIPESIZE + r) % PIPESIZE == r % PIPESIZE
  {
  }

  lemma Successor(k: nat)
    ensures (k % UINT + 1) % UINT == (k + 1) % UINT
  {
  }

  lemma FullMeans(d: Ring)
    requires Fifo(d)
    ensures Full(d) <==> |d.accepted| == |d.delivered| + PIPESIZE
  {
    var a, r := |d.accepted|, |d.delivered|;
    assert (r % UINT + PIPESIZE) % UINT == (r + PIPESIZE) % UINT;
    if Full(d) {
      SameRemainder(r + PIPESIZE, a);
    }
  }

  lemma EmptyMeans(d: Ring)
    requires Fifo(d)
    ensures Empty(d) <==> d.accepted == d.delivered
  {
    if Empty(d) {
      SameRemainder(|d.accepted|, |d.delivered|);
    }
  }

  lemma DistinctSlots(j: nat, k: nat)
    requires j < k < j + PIPESIZE
    ensures j % PIPESIZE != k % PIPESIZE
  {
  }

  lemma PutKeeps(d: Ring, b: byte)
    requires Fifo(d) && !Full(d)
    ensures Fifo(Put(d, b))
  {
    hide Full;
    FullMeans(d);
    var a := |d.accepted|;
    SlotOf(a);
    Successor(a);
    var d' := Put(d, b);
    forall k | |d'.delivered| <= k < |d'.accepted| ensures d'.data[k % PIPESIZE] == d'.accepted[k] {
      if k < a {
        DistinctSlots(k, a);
      }
    }
  }

  lemma GetKeeps(d: Ring)
    requires Fifo(d) && !Empty(d)
    ensures Fifo(Get(d))
  {
    EmptyMeans(d);
    SlotOf(|d.delivered|);
    Successor(|d.delivered|);
  }

  // ----- each command -----

  predicate Resting(p: Point) { (p.at.WLoop? && !p.at.news) || p.at.RWait? }

  /** What is asserted where others may change the pipe does not speak of the pipe. */
  lemma FactsStable(p: Point, d: Ring, d': Ring)
    requires Facts(p, d) && (Resting(p) || !HoldsLock(p))
    ensures Facts(p, d')
  {
  }

  lemma UpdateIsSafe(i: Pid, p: Point, d: Ring, d': Ring, q: Point)
    requires HoldsLock(p) && HoldsLock(q) && Fifo(d') && Facts(q, d')
    ensures CmdSafe(Piping(), i, p, d, Update(d', q))
  {
    hide Fifo, Facts;
    forall r | Facts(r, d) && (Resting(r) || !(HoldsLock(p) && HoldsLock(r))) ensures Facts(r, d') {
      FactsStable(r, d, d');
    }
  }

  lemma CommandIsSafe(i: Pid, p: Point, d: Ring, killed: bool)
    requires Fifo(d) && Facts(p, d)
    ensures CmdSafe(Piping(), i, p, d, Code(p, d, killed))
  {
    hide Fifo, Full, Empty, Put, Get, Oldest;
    if p.at.WLoop? && p.at.i < |p.at.src| && !Full(d) {
      PutKeeps(d, p.at.src[p.at.i]);
      UpdateIsSafe(i, p, d, Put(d, p.at.src[p.at.i]), p.(at := WLoop(p.at.src, p.at.i + 1, true)));
    } else if p.at.RCopy? {
      CopyIsSafe(i, p, d, killed);
    } else if p.at.RWait? {
      OldestNone(p.at.n, d);
    } else if p.at.CSet? {
      ShutKeeps(d, p.at.writable);
      UpdateIsSafe(i, p, d, Shut(d, p.at.writable), p.(at := CWake(p.at.writable)));
    }
  }

  lemma CopyIsSafe(i: Pid, p: Point, d: Ring, killed: bool)
    requires Fifo(d) && Facts(p, d) && p.at.RCopy?
    ensures CmdSafe(Piping(), i, p, d, Code(p, d, killed))
  {
    hide Fifo, Full, Empty, Get, Oldest;
    var n, got := p.at.n, p.at.got;
    OldestFits(n, got, d);
    if |got| < n && !Empty(d) {
      GetKeeps(d);
      OldestNext(n, got, d);
      UpdateIsSafe(i, p, d, Get(d), p.(at := RCopy(n, got + [Head(d)])));
    }
  }

  lemma OldestNone(n: nat, d: Ring)
    ensures Oldest(n, [], d)
  {
  }

  lemma OldestFits(n: nat, got: seq<byte>, d: Ring)
    requires Oldest(n, got, d)
    ensures |got| <= n
  {
  }

  lemma OldestNext(n: nat, got: seq<byte>, d: Ring)
    requires Oldest(n, got, d) && |got| < n
    ensures Oldest(n, got + [Head(d)], Get(d))
  {
  }

  lemma ShutKeeps(d: Ring, writable: bool)
    requires Fifo(d)
    ensures Fifo(Shut(d, writable))
  {
  }

  lemma PipingIsSafe()
    ensures Safe(Piping())
  {
    hide Fifo, Facts, CmdSafe, Code;
    var prog := Piping();
    forall i, p, d, killed | prog.ok(d) && prog.local(i, p, d)
      ensures CmdSafe(prog, i, p, d, prog.step(i, p, d, killed))
    {
      CommandIsSafe(i, p, d, killed);
    }
  }

  /** pipewrite is about to give up with bytes stored that no wakeup announced. */
  predicate Silent(p: Point) {
    p.at.WFail? && p.at.news
  }

  lemma CommandWakes(p: Point, d: Ring, killed: bool)
    requires Fifo(d) && Facts(p, d)
    ensures CmdWakes(Piping(), p, d, Code(p, d, killed)) <==> !Silent(p)
  {
    hide Fifo;
    FullMeans(d);
    EmptyMeans(d);
  }

  // ----- whole runs -----

  /** pipealloc's pipe, and processes with any calls to make on it. */
  predicate Start(s: State<Point, Ring>) {
    && s.data == Ring(s.data.data, 0, 0, true, true, [], []) && s.lk == None && s.pt == Free
    && forall i :: 0 <= i < |s.runs| ==> s.runs[i].At? && s.runs[i].p.at == Idle
  }

  lemma Started(s: State<Point, Ring>)
    requires Start(s)
    ensures Init(Piping(), s)
  {
  }

  /** First in, first out over every interleaving, however far the counters have
      wrapped: the bytes delivered are a prefix of the bytes accepted, and no more
      than PIPESIZE are in between. */
  lemma FirstInFirstOut(s: State<Point, Ring>, acts: seq<Action>)
    requires Start(s) && After(Piping(), s, acts).Some?
    ensures var d := After(Piping(), s, acts).value.data;
            && d.delivered <= d.accepted && |d.accepted| - |d.delivered| <= PIPESIZE
            && (Full(d) <==> |d.accepted| - |d.delivered| == PIPESIZE)
            && (Empty(d) <==> d.delivered == d.accepted)
            && forall k :: |d.delivered| <= k < |d.accepted| ==> d.data[k % PIPESIZE] == d.accepted[k]
  {
    PipingIsSafe();
    SafeRun(Piping(), s, acts);
    var d := After(Piping(), s, acts).value.data;
    FullMeans(d);
    EmptyMeans(d);
  }

  /** In no step of the run does a pipewrite give up silently. */
  ghost predicate Announced(s: State<Point, Ring>, acts: seq<Action>) {
    forall k :: 0 <= k < |acts| && acts[k].Step? ==>
      var prior := After(Piping(), s, acts[..k]);
      prior.Some? && acts[k].pid < |prior.value.runs| && prior.value.runs[acts[k].pid].At? ==>
        !Silent(prior.value.runs[acts[k].pid].p)
  }

  lemma AnnouncedIsPrompt(s: State<Point, Ring>, acts: seq<Action>)
    requires Start(s)
    ensures Announced(s, acts) <==> Prompt(Piping(), s, acts)
  {
    hide Fifo, CmdWakes, Code;
    PipingIsSafe();
    Started(s);
    forall k | 0 <= k < |acts|
      ensures var prior := After(Piping(), s, acts[..k]);
              prior.Some? && Command(Piping(), prior.value, acts[k]).Some? ==>
                var p := prior.value.runs[acts[k].pid].p;
                CmdWakes(Piping(), p, prior.value.data, Command(Piping(), prior.value, acts[k]).value) <==> !Silent(p)
    {
      var prior := After(Piping(), s, acts[..k]);
      if prior.Some? && Command(Piping(), prior.value, acts[k]).Some? {
        SafeRun(Piping(), s, acts[..k]);
        assert ProcSafe(Piping(), prior.value, acts[k].pid);
        CommandWakes(prior.value.runs[acts[k].pid].p, prior.value.data, acts[k].input);
      }
    }
  }

  // ----- giving up silently -----

  ghost predicate AsleepOn(s: State<Point, Ring>, c: Chan) {
    exists i :: 0 <= i < |s.runs| && (s.runs[i].Asleep? || s.runs[i].SleepMark?) && s.runs[i].c == c
  }

  /** A silent pipewrite does no harm exactly when no reader is asleep. */
  lemma SilenceHarmless(s: State<Point, Ring>, i: Pid, killed: bool)
    requires SafeInv(Piping(), s) && WakeInv(Piping(), s)
    requires i < |s.runs| && s.runs[i].At? && Silent(s.runs[i].p)
    ensures WakeInv(Piping(), Next(Piping(), s, Step(i, killed)).value) <==> !AsleepOn(s, NREAD)
  {
    hide Fifo;
    var prog := Piping();
    var t := Next(prog, s, Step(i, killed)).value;
    assert ProcSafe(prog, s, i);
    FullMeans(s.data);
    EmptyMeans(s.data);
    assert !BelongsAsleep(NREAD, s.data);
    forall j | 0 <= j < |t.runs| ensures SleepOk(prog, t, t.runs[j]) <==>
      !((s.runs[j].Asleep? || s.runs[j].SleepMark?) && s.runs[j].c == NREAD)
    {
      assert SleepOk(prog, s, s.runs[j]) && ProcSafe(prog, s, j);
    }
  }

  /** The action is the return of a pipewrite that gives up silently. */
  predicate SilentAt(t: State<Point, Ring>, a: Action) {
    a.Step? && a.pid < |t.runs| && t.runs[a.pid].At? && Silent(t.runs[a.pid].p)
  }

  lemma WakesUnlessSilent(t: State<Point, Ring>, a: Action)
    requires SafeInv(Piping(), t) && WakeInv(Piping(), t) && Next(Piping(), t, a).Some?
    ensures WakeInv(Piping(), Next(Piping(), t, a).value) <==> !(SilentAt(t, a) && AsleepOn(t, NREAD))
  {
    hide WakeInv, CmdWakes, CmdSafe, Fifo, AsleepOn, Next, Code;
    if SilentAt(t, a) {
      SilenceHarmless(t, a.pid, a.input);
    } else {
      if Command(Piping(), t, a).Some? {
        assert ProcSafe(Piping(), t, a.pid);
        CommandWakes(t.runs[a.pid].p, t.data, a.input);
        CommandIsSafe(a.pid, t.runs[a.pid].p, t.data, a.input);
      }
      WakeStep(Piping(), t, a);
    }
  }

  /** The state after the first k actions of the run. */
  function Prefix(s: State<Point, Ring>, acts: seq<Action>, k: nat): Option<State<Point, Ring>>
    requires k <= |acts|
  {
    After(Piping(), s, acts[..k])
  }

  lemma {:induction false} PrefixRuns(s: State<Point, Ring>, acts: seq<Action>, k: nat)
    requires After(Piping(), s, acts).Some? && k <= |acts|
    ensures Prefix(s, acts, k).Some?
    ensures k < |acts| ==> Next(Piping(), Prefix(s, acts, k).value, acts[k]) == Prefix(s, acts, k + 1)
    decreases |acts| - k
  {
    hide Next;
    if k == |acts| {
      assert acts[..k] == acts;
    } else {
      PrefixRuns(s, acts, k + 1);
      assert acts[..k + 1][..k] == acts[..k];
    }
  }

  lemma SafePrefix(s: State<Point, Ring>, acts: seq<Action>, k: nat)
    requires Start(s) && After(Piping(), s, acts).Some? && k <= |acts|
    ensures Prefix(s, acts, k).Some? && SafeInv(Piping(), Prefix(s, acts, k).value)
  {
    PipingIsSafe();
    Started(s);
    PrefixRuns(s, acts, k);
    SafeRun(Piping(), s, acts[..k]);
  }

  /** No pipewrite gives up silently in the run while a reader is asleep. */
  ghost predicate Harmless(s: State<Point, Ring>, acts: seq<Action>) {
    forall k :: 0 <= k < |acts| && Prefix(s, acts, k).Some? && SilentAt(Prefix(s, acts, k).value, acts[k]) ==>
      !AsleepOn(Prefix(s, acts, k).value, NREAD)
  }

  /** While p->lock is free, every process asleep has its reason. */
  ghost predicate Rightful(t: State<Point, Ring>) {
    t.lk == None ==> forall i :: 0 <= i < |t.runs| && (t.runs[i].Asleep? || t.runs[i].SleepMark?) ==> BelongsAsleep(t.runs[i].c, t.data)
  }

  lemma {:induction false} HarmlessSoFar(s: State<Point, Ring>, acts: seq<Action>, k: nat)
    requires Start(s) && After(Piping(), s, acts).Some? && Harmless(s, acts) && k <= |acts|
    ensures Prefix(s, acts, k).Some? && WakeInv(Piping(), Prefix(s, acts, k).value)
  {
    hide WakeInv, Start, Next, AsleepOn, SilentAt;
    if k == 0 {
      AtStart(s, acts);
    } else {
      HarmlessSoFar(s, acts, k - 1);
      PrefixRuns(s, acts, k - 1);
      SafePrefix(s, acts, k - 1);
      PrefixRuns(s, acts, k);
      WakesUnlessSilent(Prefix(s, acts, k - 1).value, acts[k - 1]);
    }
  }

  lemma AtStart(s: State<Point, Ring>, acts: seq<Action>)
    requires Start(s)
    ensures Prefix(s, acts, 0) == Some(s) && WakeInv(Piping(), s)
  {
    assert acts[..0] == [];
  }

  lemma WakeIsRightful(t: State<Point, Ring>)
    requires WakeInv(Piping(), t)
    ensures Rightful(t)
  {
    forall i | 0 <= i < |t.runs| && t.lk == None && (t.runs[i].Asleep? || t.runs[i].SleepMark?)
      ensures BelongsAsleep(t.runs[i].c, t.data)
    {
      assert SleepOk(Piping(), t, t.runs[i]);
    }
  }

  /** The silent return leaves the lock free and the pipe full: a reader asleep then is
      asleep without a reason. */
  lemma SilenceWrongs(t: State<Point, Ring>, a: Action)
    requires SafeInv(Piping(), t) && SilentAt(t, a) && AsleepOn(t, NREAD) && Next(Piping(), t, a).Some?
    ensures !Rightful(Next(Piping(), t, a).value)
  {
    hide Fifo;
    assert ProcSafe(Piping(), t, a.pid);
    FullMeans(t.data);
    EmptyMeans(t.data);
    var j :| 0 <= j < |t.runs| && (t.runs[j].Asleep? || t.runs[j].SleepMark?) && t.runs[j].c == NREAD;
    var u := Next(Piping(), t, a).value;
    assert u.lk == None && u.runs[j] == t.runs[j] && u.data == t.data;
  }

  /** A run loses no wakeup if and only if no pipewrite gives up silently in it while
      a reader is asleep. */
  lemma NoWakeupLostIff(s: State<Point, Ring>, acts: seq<Action>)
    requires Start(s) && After(Piping(), s, acts).Some?
    ensures Harmless(s, acts) <==> forall k :: 0 <= k <= |acts| ==> Prefix(s, acts, k).Some? && WakeInv(Piping(), Prefix(s, acts, k).value)
    ensures Harmless(s, acts) <==> forall k :: 0 <= k <= |acts| ==> Prefix(s, acts, k).Some? && Rightful(Prefix(s, acts, k).value)
  {
    hide WakeInv, Rightful, Start, SafeInv, Next, AsleepOn, SilentAt, Prefix;
    if Harmless(s, acts) {
      forall k | 0 <= k <= |acts| ensures Prefix(s, acts, k).Some? && WakeInv(Piping(), Prefix(s, acts, k).value) && Rightful(Prefix(s, acts, k).value) {
        HarmlessSoFar(s, acts, k);
        WakeIsRightful(Prefix(s, acts, k).value);
      }
    } else {
      var k :| 0 <= k < |acts| && Prefix(s, acts, k).Some? && SilentAt(Prefix(s, acts, k).value, acts[k]) && AsleepOn(Prefix(s, acts, k).value, NREAD);
      PrefixRuns(s, acts, k);
      PrefixRuns(s, acts, k + 1);
      SafePrefix(s, acts, k);
      SilenceWrongs(Prefix(s, acts, k).value, acts[k]);
      if WakeInv(Piping(), Prefix(s, acts, k + 1).value) {
        WakeIsRightful(Prefix(s, acts, k + 1).value);
      }
      assert !WakeInv(Piping(), Prefix(s, acts, k + 1).value) && !Rightful(Prefix(s, acts, k + 1).value);
    }
  }

  /** No lost wakeups: after any such run, whenever p->lock is free, a sleeping
      reader faces an empty pipe with its write end open, and a sleeping writer a
      full one with its read end open. */
  lemma AsleepForCause(s: State<Point, Ring>, acts: seq<Action>, i: Pid)
    requires Start(s) && After(Piping(), s, acts).Some? && Harmless(s, acts)
    requires var t := After(Piping(), s, acts).value; i < |t.runs| && t.runs[i].Asleep? && t.lk == None
    ensures var t := After(Piping(), s, acts).value;
            if t.runs[i].c == NREAD then t.data.accepted == t.data.delivered && t.data.writeopen
            else t.runs[i].c == NWRITE && |t.data.accepted| == |t.data.delivered| + PIPESIZE && t.data.readopen
  {
    hide Fifo, Harmless, Start, Full, Empty, WakeInv;
    HarmlessSoFar(s, acts, |acts|);
    SafePrefix(s, acts, |acts|);
    assert acts[..|acts|] == acts;
    var t := After(Piping(), s, acts).value;
    WakeIsRightful(t);
    FullMeans(t.data);
    EmptyMeans(t.data);
  }

  /** The first m bytes stored into a pipe that has been empty from the start. */
  ghost predicate Stored(d: Ring, src: seq<byte>, m: nat) {
    Fifo(d) && m <= |src| && d.accepted == src[..m] && d.delivered == [] && d.readopen && d.writeopen
  }

  /** pipewrite's loop can store all that fits. */
  lemma {:induction false} CanStore(s: State<Point, Ring>, t: State<Point, Ring>, i: Pid, src: seq<byte>, m: nat)
      returns (u: State<Point, Ring>)
    requires Reaches(Piping(), s, t) && i < |t.runs| && t.lk == Some(i) && |src| > PIPESIZE && m <= PIPESIZE
    requires t.runs[i] == At(Point([], WLoop(src, 0, false))) && Stored(t.data, src, 0)
    ensures Reaches(Piping(), s, u) && Stored(u.data, src, m) && u.lk == Some(i) && u.pt == t.pt
    ensures u.runs == t.runs[i := At(Point([], WLoop(src, m, m > 0)))]
  {
    hide Reaches;
    if m == 0 {
      u := t;
    } else {
      var v := CanStore(s, t, i, src, m - 1);
      FullMeans(v.data);
      PutKeeps(v.data, src[m - 1]);
      ReachNext(Piping(), s, v, Step(i, false));
      u := Next(Piping(), v, Step(i, false)).value;
      assert src[..m] == src[..m - 1] + [src[m - 1]];
      assert u.runs == t.runs[i := At(Point([], WLoop(src, m, true)))];
    }
  }

  /** Two processes: one reads a byte, the other writes more than the pipe holds. */
  function Pair(src: seq<byte>): State<Point, Ring> {
    State([At(Point([Read(1)], Idle)), At(Point([Write(src)], Idle))],
          Ring(seq(PIPESIZE, _ => 0), 0, 0, true, true, [], []), None, Free)
  }

  /** The reader can fall asleep, and the writer then enter pipewrite. */
  lemma CanSleepFirst(src: seq<byte>) returns (t: State<Point, Ring>)
    requires |src| > PIPESIZE
    ensures Reaches(Piping(), Pair(src), t)
    ensures t == State([Asleep(NREAD, Point([], RWait(1))), At(Point([], WLoop(src, 0, false)))], Pair(src).data, Some(1), Free)
  {
    hide Reaches, Fifo, Facts, Full, Put, Get, Shut;
    var prog, s := Piping(), Pair(src);
    var w := s.runs[1];
    assert [Read(1)][1..] == [] && [Write(src)][1..] == [];
    ReachSelf(prog, s);
    ReachNext(prog, s, s, Step(0, false));
    var t1 := s.(runs := [At(Point([], RLock(1))), w]);
    assert Next(prog, s, Step(0, false)).value == t1;
    ReachNext(prog, s, t1, Step(0, false));
    var t2 := t1.(runs := [At(Point([], RWait(1))), w], lk := Some(0));
    assert Next(prog, t1, Step(0, false)).value == t2;
    ReachNext(prog, s, t2, Step(0, false));
    var p := Point([], RWait(1));
    var t3 := t2.(runs := [SleepPt(NREAD, p), w]);
    assert Next(prog, t2, Step(0, false)).value == t3;
    ReachNext(prog, s, t3, Step(0, false));
    var t4 := t3.(runs := [SleepBoth(NREAD, p), w], pt := Held(0));
    assert Next(prog, t3, Step(0, false)).value == t4;
    ReachNext(prog, s, t4, Step(0, false));
    var t5 := t4.(runs := [SleepMark(NREAD, p), w], lk := None);
    assert Next(prog, t4, Step(0, false)).value == t5;
    ReachNext(prog, s, t5, Step(0, false));
    var t6 := t5.(runs := [Asleep(NREAD, p), w], pt := Scheduler);
    assert Next(prog, t5, Step(0, false)).value == t6;
    ReachNext(prog, s, t6, SchedDrop);
    var t7 := t6.(pt := Free);
    assert Next(prog, t6, SchedDrop).value == t7;
    ReachNext(prog, s, t7, Step(1, false));
    var t8 := t7.(runs := [Asleep(NREAD, p), At(Point([], WLock(src)))]);
    assert Next(prog, t7, Step(1, false)).value == t8;
    ReachNext(prog, s, t8, Step(1, false));
    t := Next(prog, t8, Step(1, false)).value;
  }

  /** A lost wakeup: the writer fills the pipe, is killed while it is full, and
      leaves the reader asleep beside PIPESIZE unread bytes with no lock held. */
  lemma SleepsBesideData(src: seq<byte>) returns (t: State<Point, Ring>)
    requires |src| > PIPESIZE
    ensures Start(Pair(src)) && Reaches(Piping(), Pair(src), t)
    ensures t.lk == None && t.pt == Free && |t.runs| == 2 && t.runs[0].Asleep? && t.runs[0].c == NREAD
    ensures t.data.accepted == src[..PIPESIZE] && t.data.delivered == []
  {
    hide Reaches;
    var prog, s := Piping(), Pair(src);
    var t0 := CanSleepFirst(src);
    var t1 := CanStore(s, t0, 1, src, PIPESIZE);
    FullMeans(t1.data);
    ReachNext(prog, s, t1, Step(1, true));
    var t2 := Next(prog, t1, Step(1, true)).value;
    ReachNext(prog, s, t2, Step(1, true));
    t := Next(prog, t2, Step(1, true)).value;
  }
}
