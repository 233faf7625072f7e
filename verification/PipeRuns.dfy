/** What the calls on a pipe return, over whole runs (kernel/pipe.c): the reads get the
    accepted bytes in order, and the accepted bytes are what the writers were asked to
    write, each writer's in order. */
module PipeRuns {
  import opened Options
  import opened Monitor
  import opened Bytes
  import opened Pipe

  type Machine = State<Point, Ring>

  /** A read's answer: how many bytes were asked for, and the bytes put at addr. */
  datatype Answer = Answer(n: nat, got: seq<byte>)

  /** The point of the code from which the action runs a command, if it does. */
  function PointAt(t: Machine, a: Action): Option<Point> {
    if a.Step? && a.pid < |t.runs| && t.runs[a.pid].At? then Some(t.runs[a.pid].p) else None
  }

  /** The answers of the reads that have returned, in the order of their returns. */
  ghost function Answers(s: Machine, acts: seq<Action>): seq<Answer> {
    if acts == [] then []
    else
      var m := |acts| - 1;
      Answers(s, acts[..m]) + (
        match After(Piping(), s, acts[..m])
        case None => []
        case Some(t) => Answered(PointAt(t, acts[m])))
  }

  function Answered(p: Option<Point>): seq<Answer> {
    if p.Some? && p.value.at.RUnlock? then [Answer(p.value.at.n, p.value.at.got)] else []
  }

  function Joined(rs: seq<Answer>): seq<byte> {
    if rs == [] then [] else Joined(rs[..|rs| - 1]) + rs[|rs| - 1].got
  }

  /** What the read in progress has so far. */
  function InHand(t: Machine): seq<byte> {
    if t.lk.Some? && t.lk.value < |t.runs| then Taken(t.runs[t.lk.value].p) else []
  }

  function Taken(p: Point): seq<byte> {
    if p.at.RCopy? || p.at.RUnlock? then p.at.got else []
  }

  /** Only the holder of the lock can have bytes in hand. */
  lemma NothingInHand(p: Point)
    requires Resting(p) || !HoldsLock(p)
    ensures Taken(p) == []
  {
  }

  /** From delivered bytes s that end in h, to delivered bytes s' that have `out` for h
      and then end in h'. */
  ghost predicate Moves(s: seq<byte>, h: seq<byte>, s': seq<byte>, out: seq<byte>, h': seq<byte>) {
    exists pre :: s == pre + h && s' == pre + out + h'
  }

  lemma JoinedOne(p: Option<Point>)
    ensures Joined(Answered(p)) == if p.Some? && p.value.at.RUnlock? then p.value.at.got else []
  {
    var rs := Answered(p);
    assert |rs| == 1 ==> rs[..0] == [];
  }

  /** One command of a process. */
  lemma ReadCommand(p: Point, d: Ring, killed: bool)
    requires Facts(p, d)
    ensures var cmd := Code(p, d, killed);
            Moves(d.delivered, Taken(p), (if cmd.Update? then cmd.d else d).delivered, Joined(Answered(Some(p))), Taken(cmd.p))
  {
    JoinedOne(Some(p));
    if p.at.RCopy? || p.at.RUnlock? {
      HasSuffix(p.at.n, p.at.got, d);
      CopyDelivered(p, d, killed);
      hide *;
      MovesNot(d.delivered, p.at.got);
      MovesOut(d.delivered, p.at.got);
      MovesMore(d.delivered, p.at.got, Head(d));
    } else {
      SameDelivered(p, d, killed);
      hide *;
      MovesNot(d.delivered, []);
    }
  }

  lemma CopyDelivered(p: Point, d: Ring, killed: bool)
    requires p.at.RCopy? || p.at.RUnlock?
    ensures var cmd := Code(p, d, killed);
            var d' := if cmd.Update? then cmd.d else d;
            && (p.at.RUnlock? ==> d'.delivered == d.delivered && Taken(cmd.p) == [])
            && (p.at.RCopy? ==> || (d'.delivered == d.delivered && Taken(cmd.p) == p.at.got)
                                || (d'.delivered == d.delivered + [Head(d)] && Taken(cmd.p) == p.at.got + [Head(d)]))
  {
    hide Empty, Head;
  }

  lemma SameDelivered(p: Point, d: Ring, killed: bool)
    requires !p.at.RCopy? && !p.at.RUnlock?
    ensures var cmd := Code(p, d, killed); (if cmd.Update? then cmd.d else d).delivered == d.delivered && Taken(cmd.p) == []
  {
    hide Full, Empty;
  }

  lemma HasSuffix(n: nat, got: seq<byte>, d: Ring)
    requires Oldest(n, got, d)
    ensures |got| <= |d.delivered| && got == d.delivered[|d.delivered| - |got|..]
  {
  }

  lemma MovesOut(s: seq<byte>, h: seq<byte>)
    requires |h| <= |s| && h == s[|s| - |h|..]
    ensures Moves(s, h, s, h, [])
  {
    var pre := s[..|s| - |h|];
    assert s == pre + h && s == pre + h + [];
  }

  lemma MovesMore(s: seq<byte>, h: seq<byte>, b: byte)
    requires |h| <= |s| && h == s[|s| - |h|..]
    ensures Moves(s, h, s + [b], [], h + [b])
  {
    var pre := s[..|s| - |h|];
    assert s == pre + h && s + [b] == pre + [] + (h + [b]);
  }

  lemma MovesNot(s: seq<byte>, h: seq<byte>)
    requires |h| <= |s| && h == s[|s| - |h|..]
    ensures Moves(s, h, s, [], h)
  {
    var pre := s[..|s| - |h|];
    assert s == pre + h && s == pre + [] + h;
  }

  /** The bytes in hand are the last ones delivered. */
  lemma HandIsSuffix(t: Machine)
    requires SafeInv(Piping(), t)
    ensures var h, s := InHand(t), t.data.delivered; |h| <= |s| && h == s[|s| - |h|..]
  {
    hide Fifo, Full, Empty;
    if t.lk.Some? {
      assert ProcSafe(Piping(), t, t.lk.value);
    }
  }

  /** A process that runs no command leaves everything as it is. */
  lemma OtherStep(t: Machine, a: Action)
    requires SafeInv(Piping(), t) && Next(Piping(), t, a).Some? && PointAt(t, a).None?
    ensures var u := Next(Piping(), t, a).value; u.data == t.data && InHand(u) == InHand(t)
    ensures var u := Next(Piping(), t, a).value; |u.runs| == |t.runs| && forall i :: 0 <= i < |t.runs| ==> u.runs[i].p == t.runs[i].p
  {
    hide Fifo, Full, Empty, Facts, Code;
    if a.Step? {
      assert ProcSafe(Piping(), t, a.pid);
      if t.runs[a.pid].SleepBoth? || t.runs[a.pid].Relock? {
        NothingInHand(t.runs[a.pid].p);
      }
    }
  }

  /** A command acts on the data and on its own process. */
  lemma CommandStep(t: Machine, a: Action)
    requires SafeInv(Piping(), t) && Next(Piping(), t, a).Some? && PointAt(t, a).Some?
    ensures var p, u := PointAt(t, a).value, Next(Piping(), t, a).value;
            var cmd := Code(p, t.data, a.input);
            && u.data == (if cmd.Update? then cmd.d else t.data)
            && |u.runs| == |t.runs| && u.runs[a.pid].p == cmd.p && (forall i :: 0 <= i < |t.runs| && i != a.pid ==> u.runs[i] == t.runs[i])
            && (if HoldsLock(p) then t.lk == Some(a.pid) && u.lk == (if cmd.Unlock? then None else t.lk)
                else t.lk != Some(a.pid) && if cmd.Lock? then t.lk == None && u.lk == Some(a.pid) else u.lk == t.lk && cmd.Local?)
            && (HoldsLock(cmd.p) <==> u.lk == Some(a.pid))
  {
    hide Fifo, Full, Empty, Put, Get, Facts;
    assert ProcSafe(Piping(), t, a.pid);
  }

  /** What one action does to the bytes delivered, the answers and the read in progress. */
  lemma ReadStep(t: Machine, a: Action)
    requires SafeInv(Piping(), t) && Next(Piping(), t, a).Some?
    ensures var u := Next(Piping(), t, a).value;
            Moves(t.data.delivered, InHand(t), u.data.delivered, Joined(Answered(PointAt(t, a))), InHand(u))
  {
    hide *;
    HandIsSuffix(t);
    MovesNot(t.data.delivered, InHand(t));
    JoinedOne(PointAt(t, a));
    if PointAt(t, a).None? {
      OtherStep(t, a);
    } else {
      FactsAt(t, a);
      ReadCommand(PointAt(t, a).value, t.data, a.input);
      HandAfter(t, a);
    }
  }

  /** Only a command of the lock's holder touches what is in hand. */
  lemma HandAfter(t: Machine, a: Action)
    requires SafeInv(Piping(), t) && Next(Piping(), t, a).Some? && PointAt(t, a).Some?
    ensures var p, u := PointAt(t, a).value, Next(Piping(), t, a).value;
            var cmd := Code(p, t.data, a.input);
            && u.data == (if cmd.Update? then cmd.d else t.data)
            && if HoldsLock(p) then InHand(t) == Taken(p) && InHand(u) == Taken(cmd.p)
               else InHand(u) == InHand(t) && u.data == t.data && !p.at.RUnlock?
  {
    CommandStep(t, a);
    HandMoves(PointAt(t, a).value, t.data, a.input);
    hide SafeInv, Next, Code, HoldsLock, Taken;
  }

  lemma FactsAt(t: Machine, a: Action)
    requires SafeInv(Piping(), t) && PointAt(t, a).Some?
    ensures a.Step? && Facts(PointAt(t, a).value, t.data)
  {
    hide Fifo, Facts;
    assert ProcSafe(Piping(), t, a.pid);
  }

  /** Bytes are in hand only between the lock's taking and its release. */
  lemma HandMoves(p: Point, d: Ring, killed: bool)
    ensures var cmd := Code(p, d, killed);
            && (cmd.Unlock? || cmd.Lock? ==> Taken(cmd.p) == []) && (!HoldsLock(p) ==> Taken(p) == [] && Taken(cmd.p) == [] && !p.at.RUnlock?)
  {
    hide Full, Empty, Put, Get;
  }

  lemma JoinedMore(rs: seq<Answer>, p: Option<Point>)
    ensures Joined(rs + Answered(p)) == Joined(rs) + Joined(Answered(p))
  {
    JoinedOne(p);
    if p.Some? && p.value.at.RUnlock? {
      JoinedPush(rs, Answer(p.value.at.n, p.value.at.got));
    } else {
      assert rs + [] == rs;
    }
  }

  lemma JoinedPush(rs: seq<Answer>, a: Answer)
    ensures Joined(rs + [a]) == Joined(rs) + a.got
  {
    assert (rs + [a])[..|rs|] == rs;
  }

  lemma MovesOn(s: seq<byte>, h: seq<byte>, s': seq<byte>, out: seq<byte>, h': seq<byte>, j: seq<byte>)
    requires Moves(s, h, s', out, h') && s == j + h
    ensures s' == j + out + h'
  {
    var pre :| s == pre + h && s' == pre + out + h';
    assert pre == s[..|s| - |h|] && j == s[..|s| - |h|];
  }

  /** Over every run, what has been delivered is what the reads that returned got, one
      after the other, and then what the read in progress has. */
  lemma {:induction false} ReadsInOrder(s: Machine, acts: seq<Action>)
    requires Start(s) && After(Piping(), s, acts).Some?
    ensures var t := After(Piping(), s, acts).value; t.data.delivered == Joined(Answers(s, acts)) + InHand(t)
    ensures var t := After(Piping(), s, acts).value; t.lk == None ==> t.data.delivered == Joined(Answers(s, acts))
  {
    hide Fifo, Safe, Moves, Next;
    if acts != [] {
      var m := |acts| - 1;
      ReadsInOrder(s, acts[..m]);
      var t := After(Piping(), s, acts[..m]).value;
      PipingIsSafe();
      Started(s);
      SafeRun(Piping(), s, acts[..m]);
      ReadStep(t, acts[m]);
      var u := Next(Piping(), t, acts[m]).value;
      MovesOn(t.data.delivered, InHand(t), u.data.delivered, Joined(Answered(PointAt(t, acts[m]))), InHand(u), Joined(Answers(s, acts[..m])));
      JoinedMore(Answers(s, acts[..m]), PointAt(t, acts[m]));
    }
  }

  function Min(a: int, b: int): int { if a < b then a else b }

  /** A read that returns has the oldest bytes waiting when it began to copy, as many as
      it asked for or all there were. */
  lemma ReadGetsOldest(s: Machine, acts: seq<Action>, i: Pid)
    requires Start(s) && After(Piping(), s, acts).Some?
    requires var t := After(Piping(), s, acts).value; i < |t.runs| && t.runs[i].p.at.RUnlock?
    ensures var t := After(Piping(), s, acts).value;
            var n, got, from := t.runs[i].p.at.n, t.runs[i].p.at.got, |Joined(Answers(s, acts))|;
            && from <= |t.data.accepted| && |got| == Min(n, |t.data.accepted| - from)
            && got == t.data.accepted[from..from + |got|]
  {
    hide *;
    SafeAfter(s, acts);
    ReadsInOrder(s, acts);
    var t := After(Piping(), s, acts).value;
    var p := t.runs[i].p;
    ReadNow(t, i);
    OldestWaiting(p.at.n, p.at.got, t.data, Joined(Answers(s, acts)));
  }

  lemma SafeAfter(s: Machine, acts: seq<Action>)
    requires Start(s) && After(Piping(), s, acts).Some?
    ensures SafeInv(Piping(), After(Piping(), s, acts).value)
  {
    PipingIsSafe();
    Started(s);
    SafeRun(Piping(), s, acts);
  }

  lemma ReadNow(t: Machine, i: Pid)
    requires SafeInv(Piping(), t) && i < |t.runs| && t.runs[i].p.at.RUnlock?
    ensures var p := t.runs[i].p;
            InHand(t) == p.at.got && Fifo(t.data) && Oldest(p.at.n, p.at.got, t.data) && (|p.at.got| == p.at.n || Empty(t.data))
  {
    hide Fifo, Oldest, Empty, Full;
    assert ProcSafe(Piping(), t, i);
  }

  lemma OldestWaiting(n: nat, got: seq<byte>, d: Ring, before: seq<byte>)
    requires Fifo(d) && Oldest(n, got, d) && (|got| == n || Empty(d)) && d.delivered == before + got
    ensures |before| <= |d.accepted| && |got| == Min(n, |d.accepted| - |before|)
    ensures got == d.accepted[|before|..|before| + |got|]
  {
    EmptyMeans(d);
    hide Empty;
    assert d.delivered == d.accepted[..|d.delivered|];
    assert got == d.delivered[|before|..];
  }

  // ----- writers -----

  /** What the write in progress has stored. */
  function Part(p: Point): seq<byte> {
    match p.at
    case WLoop(src, i, _) => src[..Min(i, |src|)]
    case WWake(src, i) => src[..Min(i, |src|)]
    case WSleep(src, i) => src[..Min(i, |src|)]
    case WFail(src, i, _) => src[..Min(i, |src|)]
    case WDone(src) => src
    case WUnlock(src) => src
    case _ => []
  }

  /** What a write has stored when it returns: everything it was given, or, if it gives
      up, the first part. */
  function Wrote(p: Point): seq<byte> {
    if p.at.WUnlock? || p.at.WFail? then Part(p) else []
  }

  /** What the writes of process i that have returned stored. */
  ghost function Written(s: Machine, acts: seq<Action>, i: Pid): seq<byte> {
    if acts == [] then []
    else
      var m := |acts| - 1;
      var t := After(Piping(), s, acts[..m]);
      var w := Written(s, acts[..m], i);
      if t.Some? && acts[m].Step? && acts[m].pid == i && PointAt(t.value, acts[m]).Some? then w + Wrote(PointAt(t.value, acts[m]).value) else w
  }

  /** Whose step accepted each byte. */
  ghost function Authors(s: Machine, acts: seq<Action>): seq<Pid> {
    if acts == [] then []
    else
      var m := |acts| - 1;
      Authors(s, acts[..m]) + Author(After(Piping(), s, acts[..m]), After(Piping(), s, acts), acts[m])
  }

  function Author(t: Option<Machine>, u: Option<Machine>, a: Action): seq<Pid> {
    if t.Some? && u.Some? && a.Step? && |t.value.data.accepted| < |u.value.data.accepted| then [a.pid] else []
  }

  /** The bytes of one author. */
  function By(bs: seq<byte>, who: seq<Pid>, i: Pid): seq<byte>
    requires |bs| == |who|
  {
    if bs == [] then []
    else
      var m := |bs| - 1;
      By(bs[..m], who[..m], i) + if who[m] == i then [bs[m]] else []
  }

  lemma ByMore(bs: seq<byte>, who: seq<Pid>, b: byte, j: Pid, i: Pid)
    requires |bs| == |who|
    ensures By(bs + [b], who + [j], i) == By(bs, who, i) + if j == i then [b] else []
  {
    assert (bs + [b])[..|bs|] == bs && (who + [j])[..|who|] == who;
  }

  /** One command: what is newly accepted is the next part of what is being written. */
  lemma WriteCommand(p: Point, d: Ring, killed: bool)
    requires Facts(p, d)
    ensures var cmd := Code(p, d, killed);
            var d' := if cmd.Update? then cmd.d else d;
            && (d'.accepted == d.accepted || (|d'.accepted| == |d.accepted| + 1 && d.accepted <= d'.accepted))
            && Wrote(p) + Part(cmd.p) == Part(p) + d'.accepted[|d.accepted|..]
  {
    hide Full, Empty, Fifo;
    if p.at.WLoop? && p.at.i < |p.at.src| && !Full(d) {
      assert p.at.src[..p.at.i + 1] == p.at.src[..p.at.i] + [p.at.src[p.at.i]];
    }
  }

  lemma {:induction false} WritesInOrder(s: Machine, acts: seq<Action>, i: Pid)
    requires Start(s) && After(Piping(), s, acts).Some? && i < |s.runs|
    ensures var t := After(Piping(), s, acts).value;
            && |t.runs| == |s.runs| && |Authors(s, acts)| == |t.data.accepted|
            && By(t.data.accepted, Authors(s, acts), i) == Written(s, acts, i) + Part(t.runs[i].p)
  {
    hide Fifo, Safe, Next, Part, Wrote, By;
    if acts == [] {
      NoneWritten(s, i);
    } else {
      var m := |acts| - 1;
      WritesInOrder(s, acts[..m], i);
      var t := After(Piping(), s, acts[..m]).value;
      PipingIsSafe();
      Started(s);
      SafeRun(Piping(), s, acts[..m]);
      WriteStep(t, acts[m], Authors(s, acts[..m]), i, Written(s, acts[..m], i));
    }
  }

  lemma NoneWritten(s: Machine, i: Pid)
    requires Start(s) && i < |s.runs|
    ensures s.data.accepted == [] && By([], [], i) == [] && Part(s.runs[i].p) == []
  {
  }

  lemma WriteStep(t: Machine, a: Action, who: seq<Pid>, i: Pid, w: seq<byte>)
    requires SafeInv(Piping(), t) && Next(Piping(), t, a).Some? && i < |t.runs|
    requires |who| == |t.data.accepted| && By(t.data.accepted, who, i) == w + Part(t.runs[i].p)
    ensures var u := Next(Piping(), t, a).value;
            var who' := who + Author(Some(t), Some(u), a);
            var w' := if a.Step? && a.pid == i && PointAt(t, a).Some? then w + Wrote(PointAt(t, a).value) else w;
            && |u.runs| == |t.runs| && |who'| == |u.data.accepted| && By(u.data.accepted, who', i) == w' + Part(u.runs[i].p)
  {
    var u := Next(Piping(), t, a).value;
    if PointAt(t, a).None? {
      OtherStep(t, a);
      hide *;
      assert who + [] == who;
    } else {
      var p := PointAt(t, a).value;
      assert ProcSafe(Piping(), t, a.pid);
      CommandStep(t, a);
      WriteCommand(p, t.data, a.input);
      var cmd := Code(p, t.data, a.input);
      hide *;
      ByStep(t.data.accepted, u.data.accepted, who, a.pid, i, w, Part(t.runs[i].p), Wrote(p), Part(u.runs[i].p));
    }
  }

  lemma ByStep(bs: seq<byte>, bs': seq<byte>, who: seq<Pid>, j: Pid, i: Pid, w: seq<byte>, part: seq<byte>, out: seq<byte>, part': seq<byte>)
    requires |who| == |bs| && (bs' == bs || (|bs'| == |bs| + 1 && bs <= bs')) && By(bs, who, i) == w + part
    requires if j == i then out + part' == part + bs'[|bs|..] else part' == part
    ensures var who' := who + if |bs| < |bs'| then [j] else [];
            |who'| == |bs'| && By(bs', who', i) == (if j == i then w + out else w) + part'
  {
    if |bs'| > |bs| {
      assert bs' == bs + [bs'[|bs|]] && bs'[|bs|..] == [bs'[|bs|]];
      ByMore(bs, who, bs'[|bs|], j, i);
    } else {
      assert bs'[|bs|..] == [] && who + [] == who;
    }
    hide By;
    if j == i {
      assert w + out + part' == w + (out + part');
      assert w + (part + bs'[|bs|..]) == w + part + bs'[|bs|..];
    }
  }

  // ----- what each step does -----

  predicate Moved(t: Machine, u: Machine, i: Pid, r: Run<Point>, d: Ring) {
    i < |t.runs| && u.runs == t.runs[i := r] && u.data == d && u.lk == t.lk && u.pt == t.pt
  }

  /** pipewrite's loop: with everything stored it goes on to its wakeup; into a pipe with
      room it stores the next byte; on a full one it gives up if the read end is closed
      or it has been killed, and otherwise wakes the readers and then sleeps. */
  lemma WriteDoes(t: Machine, i: Pid, killed: bool)
    requires SafeInv(Piping(), t) && i < |t.runs| && t.runs[i].At? && t.runs[i].p.at.WLoop?
    ensures Next(Piping(), t, Step(i, killed)).Some?
    ensures var u, p, d := Next(Piping(), t, Step(i, killed)).value, t.runs[i].p, t.data;
            var src, k := p.at.src, p.at.i;
            if k >= |src| then Moved(t, u, i, At(p.(at := WDone(src))), d)
            else if |d.accepted| - |d.delivered| < 512 then
              u.data.accepted == d.accepted + [src[k]] && u.data.delivered == d.delivered && Moved(t, u, i, At(p.(at := WLoop(src, k + 1, true))), u.data)
            else Moved(t, u, i, At(p.(at := if d.readopen && !killed then WWake(src, k) else WFail(src, k, p.at.news))), d)
  {
    assert ProcSafe(Piping(), t, i);
    FullMeans(t.data);
    hide Full, Fifo;
  }

  /** piperead: on an empty pipe with an open write end it sleeps, or gives up if killed;
      otherwise it copies, byte by byte, up to n or to the end of what there is, and then
      wakes the writers. */
  lemma ReadDoes(t: Machine, i: Pid, killed: bool)
    requires SafeInv(Piping(), t) && i < |t.runs| && t.runs[i].At? && (t.runs[i].p.at.RWait? || t.runs[i].p.at.RCopy?)
    ensures Next(Piping(), t, Step(i, killed)).Some?
    ensures var u, p, d := Next(Piping(), t, Step(i, killed)).value, t.runs[i].p, t.data;
            var empty := d.accepted == d.delivered;
            if p.at.RWait? then
              if empty && d.writeopen then Moved(t, u, i, if killed then At(p.(at := RFail)) else SleepPt(NREAD, p), d)
              else Moved(t, u, i, At(p.(at := RCopy(p.at.n, []))), d)
            else if empty || |p.at.got| == p.at.n then Moved(t, u, i, WakePt(NWRITE, p.(at := RUnlock(p.at.n, p.at.got))), d)
            else
              && |d.delivered| < |d.accepted| && u.data.accepted == d.accepted && u.data.delivered == d.delivered + [d.accepted[|d.delivered|]]
              && Moved(t, u, i, At(p.(at := RCopy(p.at.n, p.at.got + [d.accepted[|d.delivered|]]))), u.data)
  {
    assert ProcSafe(Piping(), t, i);
    EmptyMeans(t.data);
    var p, d := t.runs[i].p, t.data;
    if p.at.RCopy? {
      OldestFits(p.at.n, p.at.got, d);
    }
    if d.accepted != d.delivered {
      HeadIs(d);
    }
    hide Empty, Fifo, Head, Oldest;
  }

  lemma HeadIs(d: Ring)
    requires Fifo(d) && d.accepted != d.delivered
    ensures |d.delivered| < |d.accepted| && Head(d) == d.accepted[|d.delivered|]
  {
    SlotOf(|d.delivered|);
  }
}
