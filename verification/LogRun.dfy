/** Whole runs of the journal, from a reboot: any number of processes that begin and
    end operations (kernel/log.c), read, change and release buffers (kernel/bio.c) and
    log what they changed, in any order. */
module LogRun {
  import opened Options
  import opened Blocks
  import opened CrashSpec
  import opened Bio
  import J = Log

  /** One call of one process. `Resume` is the rest of a bread that had to wait. */
  datatype Act =
    | Begin
    | Read(pid: nat, id: BlockId)
    | Resume(pid: nat, b: nat)
    | Change(pid: nat, b: nat, data: Block)
    | Write(pid: nat, b: nat)
    | Release(pid: nat, b: nat)
    | End(pid: nat)

  /** What the call meant for the file system. */
  datatype Effect = Nothing | Wrote(id: BlockId, data: Block) | Committed

  predicate Fits(a: Act, e: Effect) {
    match a
    case Write(_, _) => e.Wrote?
    case End(_) => !e.Wrote?
    case _ => e == Nothing
  }

  /** The file system as the processes have logged it. */
  function Current(v: Disk, es: seq<Effect>): Disk {
    if es == [] then v
    else
      var u, e := Current(v, es[..|es| - 1]), es[|es| - 1];
      if e.Wrote? then u[e.id := e.data] else u
  }

  /** The file systems that were committed, the one found at the reboot first. */
  function Commits(v: Disk, es: seq<Effect>): (r: seq<Disk>)
    ensures |r| >= 1
  {
    if es == [] then [v]
    else
      var r := Commits(v, es[..|es| - 1]);
      if es[|es| - 1].Committed? then r + [Current(v, es)] else r
  }

  ghost predicate RecoversTo(l: Layout, d: Disk, v: Disk) {
    OnDisk(l, d) && Recovered(l, d) == v
  }

  /** Every disk there was recovers to one of the committed file systems, to later ones
      later; `at` says which. */
  ghost predicate Follows(l: Layout, trace: seq<Disk>, views: seq<Disk>, at: seq<nat>) {
    && |at| == |trace|
    && (forall i :: 0 <= i < |trace| ==> at[i] < |views| && RecoversTo(l, trace[i], views[at[i]]))
    && (forall i, j :: 0 <= i < j < |trace| ==> at[i] <= at[j])
  }

  /** Which view each disk of a commit recovers to, the old one being number k. */
  ghost function Which(l: Layout, t: seq<Disk>, was: Disk, k: nat): (r: seq<nat>)
    ensures |r| == |t| && forall i :: 0 <= i < |t| ==> r[i] == if RecoversTo(l, t[i], was) then k else k + 1
  {
    seq(|t|, i requires 0 <= i < |t| => if RecoversTo(l, t[i], was) then k else k + 1)
  }

  lemma CommitEntry(l: Layout, was: Disk, now: Disk, t: seq<Disk>, t': seq<Disk>, i: nat)
    requires J.OldThenNew(l, was, now, t, t') && |t| <= i < |t'|
    ensures RecoversTo(l, t'[i], was) || RecoversTo(l, t'[i], now)
    ensures !RecoversTo(l, t'[i], was) ==> forall j :: i <= j < |t'| ==> !RecoversTo(l, t'[j], was)
  {
    hide Recovered, OnDisk;
  }

  lemma CommitFollows(l: Layout, was: Disk, now: Disk, t: seq<Disk>, t': seq<Disk>, k: nat) returns (more: seq<Disk>, w: seq<nat>)
    requires J.OldThenNew(l, was, now, t, t')
    ensures t' == t + more && |w| == |more|
    ensures forall i :: 0 <= i < |w| ==> k <= w[i] <= k + 1 && RecoversTo(l, more[i], if w[i] == k then was else now)
    ensures forall i, j :: 0 <= i < j < |w| ==> w[i] <= w[j]
  {
    assert t <= t';
    hide RecoversTo, J.OldThenNew;
    more := t'[|t|..];
    w := Which(l, more, was, k);
    forall i | 0 <= i < |more|
      ensures RecoversTo(l, more[i], was) || RecoversTo(l, more[i], now)
      ensures !RecoversTo(l, more[i], was) ==> forall j :: i <= j < |more| ==> !RecoversTo(l, more[j], was)
    {
      CommitEntry(l, was, now, t, t', |t| + i);
      assert forall j :: i <= j < |more| ==> more[j] == t'[|t| + j];
    }
  }

  lemma FollowsMore(l: Layout, t: seq<Disk>, views: seq<Disk>, at: seq<nat>, more: seq<Disk>, w: seq<nat>, now: Disk, i: nat)
    requires |views| >= 1 && Follows(l, t, views, at) && |w| == |more| && i < |t + more|
    requires forall i :: 0 <= i < |w| ==> |views| - 1 <= w[i] <= |views| && RecoversTo(l, more[i], if w[i] == |views| - 1 then views[|views| - 1] else now)
    ensures (at + w)[i] < |views + [now]| && RecoversTo(l, (t + more)[i], (views + [now])[(at + w)[i]])
  {
    hide RecoversTo;
    if i < |t| {
      assert (t + more)[i] == t[i] && (at + w)[i] == at[i];
    } else {
      assert (t + more)[i] == more[i - |t|] && (at + w)[i] == w[i - |t|];
    }
  }

  lemma InOrder(at: seq<nat>, w: seq<nat>, k: nat)
    requires (forall i :: 0 <= i < |at| ==> at[i] <= k) && forall i :: 0 <= i < |w| ==> w[i] >= k
    requires (forall i, j :: 0 <= i < j < |at| ==> at[i] <= at[j]) && forall i, j :: 0 <= i < j < |w| ==> w[i] <= w[j]
    ensures forall i, j :: 0 <= i < j < |at + w| ==> (at + w)[i] <= (at + w)[j]
  {
  }

  lemma FollowsOn(l: Layout, t: seq<Disk>, t': seq<Disk>, views: seq<Disk>, at: seq<nat>, now: Disk) returns (at': seq<nat>)
    requires |views| >= 1 && Follows(l, t, views, at) && J.OldThenNew(l, views[|views| - 1], now, t, t')
    ensures Follows(l, t', views + [now], at')
  {
    hide RecoversTo, J.OldThenNew;
    var more, w := CommitFollows(l, views[|views| - 1], now, t, t', |views| - 1);
    at' := at + w;
    InOrder(at, w, |views| - 1);
    forall i | 0 <= i < |t'| ensures at'[i] < |views + [now]| && RecoversTo(l, t'[i], (views + [now])[at'[i]]) {
      FollowsMore(l, t, views, at, more, w, now, i);
    }
  }

  lemma Extended(v: Disk, es: seq<Effect>, e: Effect)
    ensures Current(v, es + [e]) == if e.Wrote? then Current(v, es)[e.id := e.data] else Current(v, es)
    ensures Commits(v, es + [e]) == if e.Committed? then Commits(v, es) + [Current(v, es)] else Commits(v, es)
  {
    assert (es + [e])[..|es|] == es;
  }

  lemma HomeWritten(l: Layout, f: Disk, id: BlockId, data: Block)
    requires id in f && !l.InLog(id)
    ensures HomeView(l, f[id := data]) == HomeView(l, f)[id := data]
  {
  }

  /** The journal's place in the run. */
  ghost predicate History(l: Layout, start: Disk, es: seq<Effect>, at: seq<nat>, trace: seq<Disk>, disk: Disk, flat: Disk) {
    && HomeView(l, flat) == Current(start, es)
    && HomeView(l, disk) == Commits(start, es)[|Commits(start, es)| - 1]
    && Follows(l, trace, Commits(start, es), at)
  }

  lemma HistoryQuiet(l: Layout, start: Disk, es: seq<Effect>, at: seq<nat>, trace: seq<Disk>, disk: Disk, flat: Disk, flat': Disk)
    requires History(l, start, es, at, trace, disk, flat) && HomeView(l, flat') == HomeView(l, flat)
    ensures History(l, start, es + [Nothing], at, trace, disk, flat')
  {
    Extended(start, es, Nothing);
  }

  lemma HistoryWrote(l: Layout, start: Disk, es: seq<Effect>, at: seq<nat>, trace: seq<Disk>, disk: Disk, flat: Disk, id: BlockId, data: Block)
    requires History(l, start, es, at, trace, disk, flat) && id in flat && !l.InLog(id)
    ensures History(l, start, es + [Wrote(id, data)], at, trace, disk, flat[id := data])
  {
    Extended(start, es, Wrote(id, data));
    HomeWritten(l, flat, id, data);
  }

  lemma HistoryCommitted(l: Layout, start: Disk, es: seq<Effect>, at: seq<nat>, trace: seq<Disk>, disk: Disk, flat: Disk,
                         trace': seq<Disk>, disk': Disk, flat': Disk) returns (at': seq<nat>)
    requires History(l, start, es, at, trace, disk, flat) && HomeView(l, flat') == HomeView(l, flat) && flat' == disk'
    requires J.OldThenNew(l, HomeView(l, disk), HomeView(l, flat), trace, trace')
    ensures History(l, start, es + [Committed], at', trace', disk', flat')
  {
    hide HomeView, Follows;
    Extended(start, es, Committed);
    at' := FollowsOn(l, trace, trace', Commits(start, es), at, HomeView(l, flat));
  }

  /** Every listed block is in the cache, valid and pinned. */
  ghost predicate AllPinned(l: Layout, bufs: seq<Buf>, bs: seq<word>) {
    forall j :: 0 <= j < |bs| ==> InCache(bufs, l.Home(bs[j]))
  }

  ghost predicate InCache(bufs: seq<Buf>, id: BlockId) {
    exists i :: 0 <= i < |bufs| && bufs[i].id == id && bufs[i].dirty && bufs[i].valid
  }

  /** A held buffer is valid, and unless it is among those changed and not yet logged
      it holds its block. */
  ghost predicate Tracked(bufs: seq<Buf>, flat: Disk, changed: set<nat>) {
    && (forall b :: b in changed ==> b < |bufs| && bufs[b].holder.Some?)
    && (forall b :: 0 <= b < |bufs| && bufs[b].holder.Some? ==> bufs[b].valid && bufs[b].id in flat)
    && (forall b :: 0 <= b < |bufs| && bufs[b].holder.Some? && b !in changed ==> bufs[b].data == flat[bufs[b].id])
  }

  /** A commit leaves the buffers in use alone, and with them what they hold. */
  lemma StillTracked(l: Layout, bufs: seq<Buf>, bufs': seq<Buf>, refs: seq<set<nat>>, refs': seq<set<nat>>,
                     flat: Disk, flat': Disk, bs: seq<word>, changed: set<nat>)
    requires Tracked(bufs, flat, changed) && Counted(bufs, refs) && Counted(bufs', refs') && J.InUseKept(bufs, bufs', refs, refs')
    requires J.Quiet(l, bufs, refs, bs) && HomeView(l, flat') == HomeView(l, flat)
    ensures Tracked(bufs', flat', changed)
  {
    forall b | 0 <= b < |bufs'| && (bufs'[b].holder.Some? || bufs[b].holder.Some?) ensures bufs'[b] == bufs[b] && !l.InLog(bufs[b].id) {
      assert refs[b] != {};
    }
    forall b | 0 <= b < |bufs'| && bufs'[b].holder.Some?
      ensures bufs'[b].id in flat' && flat'[bufs[b].id] == flat[bufs[b].id]
    {
      assert bufs[b].id in HomeView(l, flat) && bufs[b].id in HomeView(l, flat');
    }
  }

  lemma TrackedSame(bufs: seq<Buf>, bufs': seq<Buf>, flat: Disk, changed: set<nat>, b: nat)
    requires Tracked(bufs, flat, changed) && |bufs'| == |bufs| && b < |bufs|
    requires forall i :: 0 <= i < |bufs| && i != b ==> bufs'[i] == bufs[i]
    requires bufs'[b] == bufs[b].(refcnt := bufs[b].refcnt + 1)
    ensures Tracked(bufs', flat, changed)
  {
  }

  lemma TrackedHeld(bufs: seq<Buf>, bufs': seq<Buf>, flat: Disk, changed: set<nat>, b: nat, pid: nat, id: BlockId)
    requires Tracked(bufs, flat, changed) && |bufs'| == |bufs| && b < |bufs| && bufs[b].holder.None?
    requires forall i :: 0 <= i < |bufs| && i != b ==> bufs'[i] == bufs[i]
    requires id in flat && J.Held(bufs'[b], id, pid, flat[id])
    ensures Tracked(bufs', flat, changed)
  {
  }

  lemma TrackedChanged(bufs: seq<Buf>, flat: Disk, changed: set<nat>, b: nat, data: Block)
    requires Tracked(bufs, flat, changed) && b < |bufs| && bufs[b].holder.Some?
    ensures Tracked(bufs[b := bufs[b].(data := data)], flat, changed + {b})
  {
  }

  lemma TrackedLogged(bufs: seq<Buf>, flat: Disk, changed: set<nat>, b: nat)
    requires Tracked(bufs, flat, changed) && b < |bufs| && bufs[b].holder.Some?
    requires forall i :: 0 <= i < |bufs| && i != b ==> bufs[i].id != bufs[b].id
    ensures Tracked(bufs[b := bufs[b].(dirty := true)], flat[bufs[b].id := bufs[b].data], changed - {b})
  {
  }

  lemma TrackedReleased(bufs: seq<Buf>, flat: Disk, changed: set<nat>, b: nat)
    requires Tracked(bufs, flat, changed) && b < |bufs| && b !in changed && bufs[b].refcnt > 0
    ensures Tracked(bufs[b := bufs[b].(holder := None, refcnt := bufs[b].refcnt - 1)], flat, changed)
  {
  }

  lemma CountedIn(log: J.Log)
    requires log.Open()
    ensures Counted(log.cache.bufs[..], log.cache.refs)
  {
  }

  /** A machine with the journal on it: who has references to the buffers, and which
      buffers hold changes not yet logged, are kept on the side. */
  class Machine {
    const log: J.Log
    var users: seq<set<nat>>
    var changed: set<nat>
    ghost const start: Disk          // what the disk recovered to at the reboot
    ghost var es: seq<Effect>
    ghost var at: seq<nat>

    ghost predicate Valid()
      reads this, log, log.block, log.cache, log.cache.bufs, log.cache.prev, log.cache.next
    {
      && log.Open() && Clean(log.l, log.cache.disk) && users == log.cache.refs && log.cache.bufs.Length == |users| == NBUF
      && Tracked(log.cache.bufs[..], log.cache.flat, changed)
      && History(log.l, start, es, at, log.cache.trace, log.cache.disk, log.cache.flat)
    }

    predicate Holds(pid: nat, b: nat)
      requires log.cache.bufs.Length == NBUF
      reads log, log.cache, log.cache.bufs
    {
      b < NBUF && log.cache.bufs[b].holder == Some(pid)
    }

    /** commit will have no one to wait for and a buffer to use. */
    predicate CanCommit()
      requires log.cache.bufs.Length == NBUF && |users| == NBUF && log.n <= log.block.Length
      reads this, log, log.block, log.cache, log.cache.bufs
    {
      && |J.Busy(users)| + log.n < NBUF
      && forall i :: 0 <= i < NBUF && users[i] != {} ==>
           !log.l.InLog(log.cache.bufs[i].id) && forall j :: 0 <= j < log.n ==> log.cache.bufs[i].id != log.l.Home(log.block[j])
    }

    /** The call can go through now: nothing to wait for, no panic, and the caller keeps
        to the rules of the buffer cache. */
    predicate Enabled(a: Act)
      requires log.cache.bufs.Length == NBUF && |users| == NBUF && log.n <= log.block.Length
      reads this, log, log.block, log.cache, log.cache.bufs
    {
      match a
      case Begin => true
      case Read(pid, id) =>
        id.dev != 0 && id in log.cache.disk && forall i :: 0 <= i < NBUF && log.cache.bufs[i].id == id ==> pid !in users[i]
      case Resume(pid, b) =>
        b < NBUF && pid in users[b] && log.cache.bufs[b].holder.None? && log.cache.bufs[b].id in log.cache.disk && log.cache.bufs[b].id.dev != 0
      case Change(pid, b, _) => Holds(pid, b)
      case Write(pid, b) =>
        && Holds(pid, b) && log.outstanding >= 1 && log.n < log.l.Capacity()
        && log.cache.bufs[b].id.dev == log.l.dev && !log.l.InLog(log.cache.bufs[b].id) && log.cache.bufs[b].id.no < WORD_LIMIT
      case Release(pid, b) => Holds(pid, b) && b !in changed
      case End(_) => log.outstanding >= 1 && (log.outstanding == 1 ==> CanCommit())
    }

    constructor (log: J.Log)
      requires log.Open() && Clean(log.l, log.cache.disk) && J.Busy(log.cache.refs) == {}
      requires log.cache.flat == log.cache.disk
      requires J.OldThenNew(log.l, HomeView(log.l, log.cache.flat), HomeView(log.l, log.cache.flat), [], log.cache.trace)
      ensures Valid() && this.log == log && es == [] && start == HomeView(log.l, log.cache.flat)
    {
      this.log := log;
      users := seq(NBUF, _ => {});
      changed := {};
      start := HomeView(log.l, log.cache.flat);
      es := [];
      at := seq(|log.cache.trace|, _ => 0);
      new;
      Booted(log.l, log.cache.bufs[..], log.cache.refs, log.cache.trace, log.cache.flat, at);
      assert users == log.cache.refs;
    }

    method Begin()
      requires Valid()
      modifies this, log`outstanding
      ensures Valid() && es == old(es) + [Nothing]
    {
      hide Tracked, History, Clean, BufferCache.Valid, J.Homes, J.Dirty, HasLog, Loggable;
      log.BeginOp();
      HistoryQuiet(log.l, start, es, at, log.cache.trace, log.cache.disk, log.cache.flat, log.cache.flat);
      es := es + [Nothing];
    }

    /** bread, up to the point where it has the buffer or must wait for it. */
    method Read(pid: nat, id: BlockId) returns (r: Fetch)
      requires Valid() && Enabled(Act.Read(pid, id))
      modifies this, log.cache`refs, log.cache.bufs
      ensures Valid() && es == old(es) + [Nothing]
      ensures r.Got? ==> r.b < NBUF && J.Held(log.cache.bufs[r.b], id, pid, log.cache.flat[id])
    {
      hide Tracked, History, Clean, BufferCache.Valid, J.Homes, J.Dirty, HasLog, Loggable;
      ghost var bufs := log.cache.bufs[..];
      InFlat();
      r := log.Read(id, pid);
      if !r.NoBuffers? {
        users := users[r.b := users[r.b] + {pid}];
        if r.Got? {
          TrackedHeld(bufs, log.cache.bufs[..], log.cache.flat, changed, r.b, pid, id);
        } else {
          TrackedSame(bufs, log.cache.bufs[..], log.cache.flat, changed, r.b);
        }
      }
      HistoryQuiet(log.l, start, es, at, log.cache.trace, log.cache.disk, log.cache.flat, log.cache.flat);
      es := es + [Nothing];
    }

    lemma InFlat()
      requires Valid()
      ensures log.cache.disk.Keys == log.cache.flat.Keys
    {
    }

    /** bread goes on once the buffer's lock is free. */
    method Resume(pid: nat, b: nat)
      requires Valid() && Enabled(Act.Resume(pid, b))
      modifies this, log.cache.bufs
      ensures Valid() && es == old(es) + [Nothing]
      ensures J.Held(log.cache.bufs[b], old(log.cache.bufs[b]).id, pid, log.cache.flat[old(log.cache.bufs[b]).id])
    {
      hide Tracked, History, Clean, BufferCache.Valid, J.Homes, J.Dirty, HasLog, Loggable;
      ghost var bufs := log.cache.bufs[..];
      InFlat();
      log.Resume(b, pid);
      TrackedHeld(bufs, log.cache.bufs[..], log.cache.flat, changed, b, pid, bufs[b].id);
      HistoryQuiet(log.l, start, es, at, log.cache.trace, log.cache.disk, log.cache.flat, log.cache.flat);
      es := es + [Nothing];
    }

    /** The holder changes the bytes in the buffer. */
    method Change(pid: nat, b: nat, data: Block)
      requires Valid() && Enabled(Act.Change(pid, b, data))
      modifies this, log.cache.bufs
      ensures Valid() && es == old(es) + [Nothing] && log.cache.bufs[b].data == data
    {
      hide Tracked, History, Clean, BufferCache.Valid, J.Homes, J.Dirty, HasLog, Loggable;
      ghost var bufs := log.cache.bufs[..];
      log.Change(b, pid, data);
      TrackedChanged(bufs, log.cache.flat, changed, b, data);
      changed := changed + {b};
      HistoryQuiet(log.l, start, es, at, log.cache.trace, log.cache.disk, log.cache.flat, log.cache.flat);
      es := es + [Nothing];
    }

    /** log_write: what the buffer holds is now what its block holds. */
    method Write(pid: nat, b: nat)
      requires Valid() && Enabled(Act.Write(pid, b))
      modifies this, log`n, log.block, log.cache`flat, log.cache.bufs
      ensures Valid() && es == old(es) + [Wrote(old(log.cache.bufs[b]).id, old(log.cache.bufs[b]).data)]
    {
      hide History, Clean, BufferCache.Valid, J.Homes, J.Dirty, HasLog, Loggable;
      ghost var bufs, flat := log.cache.bufs[..], log.cache.flat;
      OneHolder(b);
      hide Tracked;
      log.LogWrite(b, pid);
      TrackedLogged(bufs, flat, changed, b);
      changed := changed - {b};
      HistoryWrote(log.l, start, es, at, log.cache.trace, log.cache.disk, flat, bufs[b].id, bufs[b].data);
      es := es + [Wrote(bufs[b].id, bufs[b].data)];
    }

    lemma OneHolder(b: nat)
      requires Valid() && b < NBUF && log.cache.bufs[b].holder.Some?
      ensures log.cache.bufs[b].valid && log.cache.bufs[b].id in log.cache.flat
      ensures forall i :: 0 <= i < NBUF && i != b ==> log.cache.bufs[i].id != log.cache.bufs[b].id
    {
      assert Unique(log.cache.bufs[..]) && Coherent(log.cache.bufs[..], log.cache.disk, log.cache.flat);
      forall i | 0 <= i < NBUF && i != b ensures log.cache.bufs[..][i].id != log.cache.bufs[..][b].id {
      }
    }

    /** brelse of a buffer whose changes, if any, have been logged. */
    method Release(pid: nat, b: nat)
      requires Valid() && Enabled(Act.Release(pid, b))
      modifies this, log.cache`order, log.cache`stamp, log.cache`clock, log.cache`refs, log.cache.prev, log.cache.next, log.cache.bufs
      ensures Valid() && es == old(es) + [Nothing]
    {
      hide History, Clean, BufferCache.Valid, J.Homes, J.Dirty, HasLog, Loggable;
      ghost var bufs := log.cache.bufs[..];
      assert bufs[b].data == log.cache.flat[bufs[b].id];
      hide Tracked;
      log.Release(b, pid);
      TrackedReleased(bufs, log.cache.flat, changed, b);
      users := users[b := users[b] - {pid}];
      HistoryQuiet(log.l, start, es, at, log.cache.trace, log.cache.disk, log.cache.flat, log.cache.flat);
      es := es + [Nothing];
    }

    lemma QuietNow()
      requires Valid() && CanCommit()
      ensures J.Quiet(log.l, log.cache.bufs[..], log.cache.refs, log.Numbers())
    {
    }

    /** end_op: the last operation commits what has been logged. */
    method End(pid: nat)
      requires Valid() && Enabled(Act.End(pid))
      modifies this, log`n, log`outstanding, log.cache, log.cache.bufs, log.cache.prev, log.cache.next
      ensures Valid() && es == old(es) + [if old(log.outstanding) == 1 then Committed else Nothing]
    {
      hide History, Clean, Tracked, BufferCache.Valid, J.Homes, J.Dirty, HasLog, Loggable;
      ghost var bufs, refs, flat, disk, trace := log.cache.bufs[..], log.cache.refs, log.cache.flat, log.cache.disk, log.cache.trace;
      ghost var last, bs := log.outstanding == 1, log.Numbers();
      if last {
        QuietNow();
      }
      CountedIn(log);
      log.EndOp(pid);
      CountedIn(log);
      if last {
        StillTracked(log.l, bufs, log.cache.bufs[..], refs, log.cache.refs, flat, log.cache.flat, bs, changed);
        at := HistoryCommitted(log.l, start, es, at, trace, disk, flat, log.cache.trace, log.cache.disk, log.cache.flat);
        es := es + [Committed];
      } else {
        HistoryQuiet(log.l, start, es, at, log.cache.trace, log.cache.disk, flat, log.cache.flat);
        es := es + [Nothing];
      }
    }

    /** The call goes through if it can. */
    method Do(a: Act) returns (ok: bool)
      requires Valid()
      modifies this, log, log.block, log.cache, log.cache.bufs, log.cache.prev, log.cache.next
      ensures Valid() && (ok <==> old(Enabled(a)))
      ensures ok ==> |es| == old(|es|) + 1 && es[..old(|es|)] == old(es) && Fits(a, es[old(|es|)])
      ensures !ok ==> es == old(es) && !Enabled(a)
    {
      hide Tracked, History, Clean, BufferCache.Valid, J.Homes, J.Dirty, HasLog, Loggable;
      ok := Enabled(a);
      if ok {
        match a
        case Begin => Begin();
        case Read(pid, id) => var r := Read(pid, id);
        case Resume(pid, b) => Resume(pid, b);
        case Change(pid, b, data) => Change(pid, b, data);
        case Write(pid, b) => Write(pid, b);
        case Release(pid, b) => Release(pid, b);
        case End(pid) => End(pid);
      }
    }
  }

  lemma PinnedAll(log: J.Log)
    requires log.Open()
    ensures AllPinned(log.l, log.cache.bufs[..], log.Numbers())
  {
    var bufs, bs := log.cache.bufs[..], log.Numbers();
    forall j | 0 <= j < |bs| ensures InCache(bufs, log.l.Home(bs[j])) {
      var i := J.ListedPinned(log, j);
      assert bufs[i].dirty && bufs[i].valid && bufs[i].id == log.l.Home(bs[j]);
    }
  }

  /** Any calls of any processes after a reboot, up to the first that cannot go through.
      The file system is at all times what was found at the reboot with the blocks
      logged since, and at whatever moment the power fails, the disk recovers to what
      it was at one of the commits, the latest that had reached its commit point. All
      along, every block the journal lists is in the cache, valid and pinned. */
  method Run(disk: Disk, l: Layout, pid: nat, acts: seq<Act>) returns (m: Machine, done: nat)
    requires OnDisk(l, disk) && l.dev != 0
    ensures fresh(m) && m.Valid() && m.log.l == l && m.start == Recovered(l, disk)
    ensures done <= |acts| && |m.es| == done && forall k :: 0 <= k < done ==> Fits(acts[k], m.es[k])
    ensures done < |acts| ==> !m.Enabled(acts[done])
    ensures HomeView(l, m.log.cache.flat) == Current(Recovered(l, disk), m.es)
    ensures Follows(l, m.log.cache.trace, Commits(Recovered(l, disk), m.es), m.at)
    ensures AllPinned(l, m.log.cache.bufs[..], m.log.Numbers())
  {
    hide Recovered, OnDisk, HomeView, Clean, J.OldThenNew, Tracked, Follows, AllPinned, Current, Commits, Fits;
    hide BufferCache.Valid, J.Busy, J.Homes, J.Dirty, HasLog, Loggable;
    var log := J.Reboot(disk, l, pid);
    m := new Machine(log);
    done := 0;
    var ok := true;
    while done < |acts| && ok
      invariant fresh(m) && m.log == log && m.log.l == l && m.start == Recovered(l, disk)
      invariant fresh(log) && fresh(log.block) && fresh(log.cache) && fresh(log.cache.bufs) && fresh(log.cache.prev) && fresh(log.cache.next)
      invariant m.Valid()
      invariant 0 <= done <= |acts| && |m.es| == done && forall k :: 0 <= k < done ==> Fits(acts[k], m.es[k])
      invariant !ok ==> done < |acts| && !m.Enabled(acts[done])
      decreases |acts| - done, ok
    {
      ok := m.Do(acts[done]);
      if ok {
        done := done + 1;
      }
    }
    PinnedAll(log);
  }

  lemma Booted(l: Layout, bufs: seq<Buf>, refs: seq<set<nat>>, trace: seq<Disk>, flat: Disk, at: seq<nat>)
    requires Counted(bufs, refs) && J.Busy(refs) == {} && |at| == |trace| && forall i :: 0 <= i < |at| ==> at[i] == 0
    requires J.OldThenNew(l, HomeView(l, flat), HomeView(l, flat), [], trace)
    ensures Tracked(bufs, flat, {}) && (forall i :: 0 <= i < |refs| ==> refs[i] == {})
    ensures History(l, HomeView(l, flat), [], at, trace, flat, flat)
  {
    hide Recovered, OnDisk;
    forall i: nat | i < |refs| ensures refs[i] == {} {
      assert i in J.Busy(refs) <==> refs[i] != {};
    }
  }
}
