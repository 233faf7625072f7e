/** kernel/log.c over the buffer cache: log_write, write_log, write_head,
    install_trans, commit and recover_from_log, each tied to the disk writes
    listed by module CrashSpec. */
module Log {
  import opened Options
  import opened Blocks
  import opened CrashSpec
  import opened Bio
  import Ring

  /** The blocks pinned in the cache by B_DIRTY. */
  ghost function Dirty(bufs: seq<Buf>): set<BlockId> {
    set i | 0 <= i < |bufs| && bufs[i].dirty :: bufs[i].id
  }

  /** No process has a reference to the block's buffer. */
  ghost predicate Unused(bufs: seq<Buf>, refs: seq<set<nat>>, id: BlockId)
    requires |bufs| == |refs|
  {
    forall i :: 0 <= i < |bufs| && bufs[i].id == id ==> refs[i] == {}
  }

  /** Buffers in use stay as they are, and the reference counts are as before. */
  ghost predicate InUseKept(bufs: seq<Buf>, bufs': seq<Buf>, refs: seq<set<nat>>, refs': seq<set<nat>>)
  {
    |bufs| == |bufs'| == |refs| && refs' == refs && forall i :: 0 <= i < |bufs| && refs[i] != {} ==> bufs'[i] == bufs[i]
  }

  /** There are buffers for a log block and for `home` at the same time. */
  ghost predicate Room(bufs: seq<Buf>, home: BlockId) {
    exists i, j :: 0 <= i < |bufs| && 0 <= j < |bufs| && i != j
      && Idle(bufs[i]) && (Idle(bufs[j]) || (bufs[j].dirty && bufs[j].id == home))
  }

  predicate Held(b: Buf, id: BlockId, pid: nat, data: Block) {
    b.id == id && b.valid && b.holder == Some(pid) && b.data == data
  }

  ghost predicate Quiet(l: Layout, bufs: seq<Buf>, refs: seq<set<nat>>, bs: seq<word>)
    requires |bufs| == |refs|
  {
    && (forall i :: 0 <= i < |bufs| && l.InLog(bufs[i].id) ==> refs[i] == {})
    && (forall i, j :: 0 <= i < |bufs| && 0 <= j < |bs| && bufs[i].id == l.Home(bs[j]) ==> refs[i] == {})
  }

  /** The contents the listed blocks have in the cache. */
  ghost function Contents(l: Layout, flat: Disk, bs: seq<word>): (data: seq<Block>)
    requires forall j :: 0 <= j < |bs| ==> l.Home(bs[j]) in flat
    ensures |data| == |bs| && forall j :: 0 <= j < |bs| ==> data[j] == flat[l.Home(bs[j])]
  {
    seq(|bs|, j requires 0 <= j < |bs| => flat[l.Home(bs[j])])
  }

  /** The disks write_log leaves, one per write. */
  ghost function LogTrace(l: Layout, d: Disk, data: seq<Block>, k: nat): (t: seq<Disk>)
    requires k <= |data|
  {
    if k == 0 then [] else LogTrace(l, d, data, k - 1) + [Logged(l, d, data, k)]
  }

  /** The disks install_trans leaves, one per write. */
  ghost function InstallTrace(l: Layout, d: Disk, bs: seq<word>, k: nat): (t: seq<Disk>)
    requires k <= |bs| && HasLog(l, d.Keys) && Loggable(l, d.Keys, bs)
  {
    if k == 0 then [] else InstallTrace(l, d, bs, k - 1) + [Install(l, d, bs, k)]
  }

  /** The log slots of the listed blocks hold the same on two disks. */
  ghost predicate SlotsAgree(l: Layout, d: Disk, f: Disk, bs: seq<word>) {
    && HasLog(l, d.Keys) && Loggable(l, d.Keys, bs) && f.Keys == d.Keys
    && forall j :: 0 <= j < |bs| ==> d[l.Slot(j)] == f[l.Slot(j)]
  }

  /** k blocks installed on the disk and in the cache's view of it, one write each. */
  ghost predicate Installed(l: Layout, d: Disk, f: Disk, bs: seq<word>, k: nat,
                            disk: Disk, flat: Disk, t: seq<Disk>, t': seq<Disk>) {
    && HasLog(l, d.Keys) && Loggable(l, d.Keys, bs) && f.Keys == d.Keys && k <= |bs|
    && disk == Install(l, d, bs, k) && flat == Install(l, f, bs, k)
    && t' == t + InstallTrace(l, d, bs, k)
  }

  /** `data` is what the cache holds for the listed blocks. */
  ghost predicate Caches(l: Layout, flat: Disk, bs: seq<word>, data: seq<Block>) {
    && Loggable(l, flat.Keys, bs) && |data| == |bs|
    && forall j :: 0 <= j < |bs| ==> data[j] == flat[l.Home(bs[j])]
  }

  /** write_log and the first write_head have run, one disk write each. */
  ghost predicate AtCommitPoint(l: Layout, d: Disk, f: Disk, bs: seq<word>, data: seq<Block>,
                                disk: Disk, flat: Disk, t: seq<Disk>, t': seq<Disk>) {
    && Clean(l, d) && Clean(l, f) && Loggable(l, d.Keys, bs) && d.Keys == f.Keys && |data| == |bs|
    && disk == Committed(l, d, bs, data) && flat == Committed(l, f, bs, data)
    && t' == t + LogTrace(l, d, data, |bs|) + [disk]
  }

  /** commit has made exactly the disk writes of CommitTrace. */
  ghost predicate CommitDone(l: Layout, d: Disk, bs: seq<word>, data: seq<Block>, disk: Disk, t: seq<Disk>, t': seq<Disk>) {
    && Clean(l, d) && Loggable(l, d.Keys, bs) && |data| == |bs|
    && disk == CommitAt(l, d, bs, data, CommitWrites(bs))
    && t' == t + CommitTrace(l, d, bs, data, CommitWrites(bs))
  }

  /** recover_from_log has made exactly the disk writes of RecoveryTrace. */
  ghost predicate RecoveryDone(l: Layout, d: Disk, disk: Disk, t: seq<Disk>, t': seq<Disk>) {
    && OnDisk(l, d)
    && disk == RecoveryAt(l, d, RecoveryWrites(l, d))
    && t' == t + RecoveryTrace(l, d, RecoveryWrites(l, d))
  }

  /** The whole list installed and then the header cleared. */
  ghost predicate Replayed(l: Layout, d: Disk, bs: seq<word>, disk: Disk, t: seq<Disk>, t': seq<Disk>) {
    && HasLog(l, d.Keys) && Loggable(l, d.Keys, bs)
    && disk == Cleared(l, Install(l, d, bs, |bs|))
    && t' == t + InstallTrace(l, d, bs, |bs|) + [disk]
  }

  /** The pinned blocks once the first k listed ones are installed. */
  ghost function LetGo(l: Layout, dirty: set<BlockId>, bs: seq<word>, k: nat): (r: set<BlockId>)
    requires k <= |bs|
    ensures r <= dirty && forall j :: 0 <= j < k ==> l.Home(bs[j]) !in r
  {
    if k == 0 then dirty else LetGo(l, dirty, bs, k - 1) - {l.Home(bs[k - 1])}
  }

  /** The home blocks a list names. */
  ghost function Homes(l: Layout, bs: seq<word>): set<BlockId> {
    set j | 0 <= j < |bs| :: l.Home(bs[j])
  }

  /** The disks after the first k writes of commit, in order. */
  ghost function CommitTrace(l: Layout, d: Disk, bs: seq<word>, data: seq<Block>, k: nat): (t: seq<Disk>)
    requires Clean(l, d) && Loggable(l, d.Keys, bs) && |data| == |bs| && k <= CommitWrites(bs)
    ensures |t| == k && forall i :: 0 <= i < k ==> t[i] == CommitAt(l, d, bs, data, i + 1)
  {
    if k == 0 then [] else CommitTrace(l, d, bs, data, k - 1) + [CommitAt(l, d, bs, data, k)]
  }

  /** The disks after the first k writes of recover_from_log, in order. */
  ghost function RecoveryTrace(l: Layout, d: Disk, k: nat): (t: seq<Disk>)
    requires OnDisk(l, d) && k <= RecoveryWrites(l, d)
    ensures |t| == k && forall i :: 0 <= i < k ==> t[i] == RecoveryAt(l, d, i + 1)
  {
    if k == 0 then [] else RecoveryTrace(l, d, k - 1) + [RecoveryAt(l, d, k)]
  }

  ghost predicate AllIdle(bufs: seq<Buf>) {
    forall i :: 0 <= i < |bufs| ==> Idle(bufs[i])
  }

  /** Log absorption: a block already listed is not listed again. */
  function Absorb(bs: seq<word>, no: word): (r: seq<word>)
    ensures no in r && Ring.Distinct(bs) ==> Ring.Distinct(r)
    ensures forall x :: x in r <==> x in bs || x == no
  {
    if no in bs then bs else bs + [no]
  }

  ghost predicate Roomy(bufs: seq<Buf>) {
    exists i, j :: 0 <= i < |bufs| && 0 <= j < |bufs| && i != j && Idle(bufs[i]) && Idle(bufs[j])
  }

  /** Some buffer can be recycled. */
  ghost predicate Spare(bufs: seq<Buf>) {
    exists i :: 0 <= i < |bufs| && Idle(bufs[i])
  }

  /** A pinned home block and a spare buffer make room for a copy. */
  lemma PinnedRoom(bufs: seq<Buf>, home: BlockId)
    requires Spare(bufs) && home in Dirty(bufs)
    ensures Room(bufs, home)
  {
    var i :| 0 <= i < |bufs| && Idle(bufs[i]);
    var j :| 0 <= j < |bufs| && bufs[j].dirty && bufs[j].id == home;
    assert i != j;
  }

  lemma IdleRoom(bufs: seq<Buf>, a: BlockId, b: BlockId)
    requires CachedIdle(bufs, a) && CachedIdle(bufs, b) && a != b
    ensures Roomy(bufs)
  {
    var i :| 0 <= i < |bufs| && Idle(bufs[i]) && bufs[i].id == a;
    var j :| 0 <= j < |bufs| && Idle(bufs[j]) && bufs[j].id == b;
    assert i != j;
  }

  lemma RoomyRoom(bufs: seq<Buf>, home: BlockId)
    requires Roomy(bufs)
    ensures Room(bufs, home) && Spare(bufs)
  {
  }

  /** A listed block is outside the log, its slot inside. */
  lemma ListedApart(l: Layout, disk: set<BlockId>, bs: seq<word>, j: nat)
    requires HasLog(l, disk) && Loggable(l, disk, bs) && j < |bs|
    ensures l.Home(bs[j]) in disk && !l.InLog(l.Home(bs[j]))
    ensures l.Slot(j) in disk && l.InLog(l.Slot(j)) && l.Slot(j) != l.Head()
  {
  }

  lemma NothingDirty(bufs: seq<Buf>)
    requires AllIdle(bufs)
    ensures Dirty(bufs) == {}
  {
  }

  lemma NothingReferenced(bufs: seq<Buf>, refs: seq<set<nat>>)
    requires AllIdle(bufs) && Counted(bufs, refs)
    ensures forall i :: 0 <= i < |refs| ==> refs[i] == {}
  {
    forall i | 0 <= i < |refs| ensures refs[i] == {} {
      assert bufs[i].refcnt == |refs[i]|;
    }
  }

  lemma PoweredUp(l: Layout, bufs: seq<Buf>, refs: seq<set<nat>>, bs: seq<word>)
    requires AllIdle(bufs) && Counted(bufs, refs) && |bufs| == NBUF
    ensures Quiet(l, bufs, refs, bs) && Roomy(bufs)
    ensures forall id :: Room(bufs, id)
  {
    NothingReferenced(bufs, refs);
    assert Idle(bufs[0]) && Idle(bufs[1]);
  }

  /** With nothing pinned the disk is what its users see. */
  lemma EqualWhenClean(bufs: seq<Buf>, disk: Disk, flat: Disk)
    requires Coherent(bufs, disk, flat) && Dirty(bufs) == {}
    ensures disk == flat
  {
    forall id | id in disk ensures disk[id] == flat[id] {
      CleanOnDisk(bufs, disk, flat, id);
    }
  }

  lemma PinnedToo(l: Layout, bufs: seq<Buf>, b: nat, bs: seq<word>)
    requires b < |bufs| && bufs[b].id.dev == l.dev && bufs[b].id.no < WORD_LIMIT
    requires Dirty(bufs) == Homes(l, bs)
    ensures Dirty(bufs[b := bufs[b].(dirty := true)]) == Homes(l, Absorb(bs, bufs[b].id.no))
  {
    var bufs' := bufs[b := bufs[b].(dirty := true)];
    var bs' := Absorb(bs, bufs[b].id.no);
    assert Dirty(bufs') == Dirty(bufs) + {bufs[b].id} by {
      forall id | id in Dirty(bufs) ensures id in Dirty(bufs') {
        var i :| 0 <= i < |bufs| && bufs[i].dirty && bufs[i].id == id;
        assert bufs'[i].dirty && bufs'[i].id == id;
      }
      assert bufs'[b].dirty;
    }
    assert Homes(l, bs') == Homes(l, bs) + {l.Home(bufs[b].id.no)} by {
      assert bs' == bs || bs' == bs + [bufs[b].id.no];
      forall id | id in Homes(l, bs) + {l.Home(bufs[b].id.no)} ensures id in Homes(l, bs') {
        assert id.no in bs';
      }
    }
  }

  lemma InstallNone(l: Layout, d: Disk, bs: seq<word>)
    requires HasLog(l, d.Keys) && Loggable(l, d.Keys, bs)
    ensures Install(l, d, bs, 0) == d && InstallTrace(l, d, bs, 0) == []
  {
  }

  lemma LogHead(l: Layout, d: Disk, f: Disk, data: seq<Block>)
    requires Clean(l, d) && Clean(l, f) && |data| <= l.Capacity()
    ensures l.Head() in Logged(l, d, data, |data|) && l.Head() in Logged(l, f, data, |data|)
  {
    LoggedFacts(l, d, data, |data|);
    LoggedFacts(l, f, data, |data|);
  }

  /** The header write after write_log is the commit point. */
  lemma Reached(l: Layout, d: Disk, f: Disk, bs: seq<word>, data: seq<Block>, disk1: Disk, flat1: Disk, disk: Disk, flat: Disk, t: seq<Disk>, t': seq<Disk>)
    requires Clean(l, d) && Clean(l, f) && Loggable(l, d.Keys, bs) && d.Keys == f.Keys && |data| == |bs| && d[l.Head()] == f[l.Head()]
    requires disk1 == Logged(l, d, data, |bs|) && flat1 == Logged(l, f, data, |bs|) && l.Head() in disk1 && l.Head() in flat1
    requires disk == disk1[l.Head() := WriteHeader(flat1[l.Head()], bs)] && flat == flat1[l.Head() := WriteHeader(flat1[l.Head()], bs)]
    requires t' == t + LogTrace(l, d, data, |bs|) + [disk]
    ensures AtCommitPoint(l, d, f, bs, data, disk, flat, t, t')
  {
    LoggedFacts(l, d, data, |data|);
    LoggedFacts(l, f, data, |data|);
    hide LogTrace, Logged, WriteHeader;
  }

  lemma HomesApart(l: Layout, disk: set<BlockId>, bs: seq<word>)
    requires Loggable(l, disk, bs)
    ensures forall id :: id in Homes(l, bs) ==> !l.InLog(id)
  {
  }

  /** Installing the whole list lets go of every block it names. */
  lemma AllLetGo(l: Layout, bs: seq<word>)
    ensures LetGo(l, Homes(l, bs), bs, |bs|) == {}
  {
  }

  lemma Joined<T>(t: seq<T>, a: seq<T>, b: seq<T>, c: seq<T>, e: seq<T>)
    ensures t + a + b + c + e == t + (a + b + c + e)
  {
  }

  lemma CommitEnds(l: Layout, d: Disk, bs: seq<word>, data: seq<Block>)
    requires Clean(l, d) && Loggable(l, d.Keys, bs) && |data| == |bs| && bs != []
    ensures var c := Committed(l, d, bs, data);
            && CommitAt(l, d, bs, data, CommitWrites(bs)) == Cleared(l, Install(l, c, bs, |bs|))
            && CommitTrace(l, d, bs, data, CommitWrites(bs)) ==
               LogTrace(l, d, data, |bs|) + [c] + InstallTrace(l, c, bs, |bs|) + [Cleared(l, Install(l, c, bs, |bs|))]
  {
    hide InstallTrace, LogTrace, Install, Logged, CommitTrace, CommitAt, Committed, Clean, Loggable, Cleared;
    InstallPart(l, d, bs, data, |bs|);
    TraceStep(l, d, bs, data, CommitWrites(bs));
    ClearedAt(l, d, bs, data);
  }

  lemma ClearedAt(l: Layout, d: Disk, bs: seq<word>, data: seq<Block>)
    requires Clean(l, d) && Loggable(l, d.Keys, bs) && |data| == |bs| && bs != []
    ensures CommitWrites(bs) == 2 * |bs| + 2
    ensures CommitAt(l, d, bs, data, CommitWrites(bs)) == Cleared(l, Install(l, Committed(l, d, bs, data), bs, |bs|))
  {
    hide Install, Logged, Committed, Cleared;
  }

  lemma {:induction false} LogPart(l: Layout, d: Disk, bs: seq<word>, data: seq<Block>, k: nat)
    requires Clean(l, d) && Loggable(l, d.Keys, bs) && |data| == |bs| && k <= |bs|
    ensures CommitTrace(l, d, bs, data, k) == LogTrace(l, d, data, k)
  {
    hide Install, Logged;
    if k > 0 {
      LogPart(l, d, bs, data, k - 1);
    }
  }

  lemma InstallTraceStep(l: Layout, d: Disk, bs: seq<word>, k: nat)
    requires 0 < k <= |bs| && HasLog(l, d.Keys) && Loggable(l, d.Keys, bs)
    ensures InstallTrace(l, d, bs, k) == InstallTrace(l, d, bs, k - 1) + [Install(l, d, bs, k)]
  {
    hide Install;
  }

  lemma TraceStep(l: Layout, d: Disk, bs: seq<word>, data: seq<Block>, k: nat)
    requires Clean(l, d) && Loggable(l, d.Keys, bs) && |data| == |bs| && 0 < k <= CommitWrites(bs)
    ensures CommitTrace(l, d, bs, data, k) == CommitTrace(l, d, bs, data, k - 1) + [CommitAt(l, d, bs, data, k)]
  {
    hide CommitAt, Clean, Loggable;
  }

  lemma InstallAt(l: Layout, d: Disk, bs: seq<word>, data: seq<Block>, j: nat)
    requires Clean(l, d) && Loggable(l, d.Keys, bs) && |data| == |bs| && j <= |bs| && bs != []
    ensures CommitAt(l, d, bs, data, |bs| + 1 + j) == Install(l, Committed(l, d, bs, data), bs, j)
  {
    hide Install, Logged, Committed;
  }

  /** The trace of commit up to j home writes after the commit point. */
  ghost predicate PartIs(l: Layout, d: Disk, bs: seq<word>, data: seq<Block>, j: nat) {
    && Clean(l, d) && Loggable(l, d.Keys, bs) && |data| == |bs| && j <= |bs| && bs != []
    && var c := Committed(l, d, bs, data);
       CommitTrace(l, d, bs, data, |bs| + 1 + j) == LogTrace(l, d, data, |bs|) + [c] + InstallTrace(l, c, bs, j)
  }

  lemma PartNone(l: Layout, d: Disk, bs: seq<word>, data: seq<Block>)
    requires Clean(l, d) && Loggable(l, d.Keys, bs) && |data| == |bs| && bs != []
    ensures PartIs(l, d, bs, data, 0)
  {
    var c, logs := Committed(l, d, bs, data), LogTrace(l, d, data, |bs|);
    hide Install, Logged, LogTrace, InstallTrace, Committed, CommitAt, CommitTrace, Clean, Loggable;
    InstallAt(l, d, bs, data, 0);
    TraceStep(l, d, bs, data, |bs| + 1);
    InstallNone(l, c, bs);
    LogPart(l, d, bs, data, |bs|);
    assert logs + [c] + [] == logs + [c];
  }

  lemma PartStep(l: Layout, d: Disk, bs: seq<word>, data: seq<Block>, j: nat)
    requires 0 < j <= |bs| && PartIs(l, d, bs, data, j - 1)
    ensures PartIs(l, d, bs, data, j)
  {
    var c, logs := Committed(l, d, bs, data), LogTrace(l, d, data, |bs|);
    hide Install, Logged, LogTrace, InstallTrace, Committed, CommitAt, CommitTrace, Clean, Loggable;
    InstallAt(l, d, bs, data, j);
    TraceStep(l, d, bs, data, |bs| + 1 + j);
    InstallTraceStep(l, c, bs, j);
    Grouped(logs + [c], InstallTrace(l, c, bs, j - 1), [Install(l, c, bs, j)]);
  }

  lemma {:induction false} InstallPart(l: Layout, d: Disk, bs: seq<word>, data: seq<Block>, j: nat)
    requires Clean(l, d) && Loggable(l, d.Keys, bs) && |data| == |bs| && j <= |bs| && bs != []
    ensures PartIs(l, d, bs, data, j)
  {
    hide PartIs, Clean, Loggable;
    if j == 0 {
      PartNone(l, d, bs, data);
    } else {
      InstallPart(l, d, bs, data, j - 1);
      PartStep(l, d, bs, data, j);
    }
  }

  lemma Grouped<T>(a: seq<T>, b: seq<T>, c: seq<T>)
    ensures a + b + c == a + (b + c)
  {
  }

  lemma {:induction false} RecoveryPart(l: Layout, d: Disk, j: nat)
    requires OnDisk(l, d) && j <= HeaderCount(d[l.Head()])
    ensures RecoveryTrace(l, d, j) == InstallTrace(l, d, Header(d[l.Head()]), j)
  {
    hide Install;
    if j > 0 {
      RecoveryPart(l, d, j - 1);
    }
  }

  lemma RecoveryJoins(l: Layout, d: Disk, disk: Disk, t: seq<Disk>, t': seq<Disk>)
    requires OnDisk(l, d) && Replayed(l, d, Header(d[l.Head()]), disk, t, t')
    ensures RecoveryDone(l, d, disk, t, t')
  {
    var bs := Header(d[l.Head()]);
    RecoveryPart(l, d, |bs|);
    hide HasLog, Loggable, InstallTrace, Install, Cleared, Header;
    Grouped(t, InstallTrace(l, d, bs, |bs|), [disk]);
  }

  /** The buffers some process has a reference to. */
  function Busy(refs: seq<set<nat>>): set<nat> {
    set i: nat | i < |refs| && refs[i] != {}
  }

  ghost function DirtyBufs(bufs: seq<Buf>): set<nat> {
    set i: nat | i < |bufs| && bufs[i].dirty
  }

  /** As many buffers as the blocks they hold, one each. */
  lemma {:induction false} OneEach(bufs: seq<Buf>, a: set<nat>, ids: set<BlockId>)
    requires forall i :: i in a ==> i < |bufs| && bufs[i].id in ids
    requires forall i, j :: i in a && j in a && i != j ==> bufs[i].id != bufs[j].id
    requires forall id :: id in ids ==> exists i :: i in a && bufs[i].id == id
    ensures |a| == |ids|
    decreases |a|
  {
    if a == {} {
      assert ids == {};
    } else {
      var i :| i in a;
      OneEach(bufs, a - {i}, ids - {bufs[i].id});
    }
  }

  lemma {:induction false} HomesSize(l: Layout, bs: seq<word>)
    requires Ring.Distinct(bs)
    ensures |Homes(l, bs)| == |bs|
  {
    if bs == [] {
      assert Homes(l, bs) == {};
    } else {
      var m := |bs| - 1;
      HomesSize(l, bs[..m]);
      HomesGrow(l, bs);
      assert l.Home(bs[m]) !in Homes(l, bs[..m]);
    }
  }

  lemma HomesGrow(l: Layout, bs: seq<word>)
    requires bs != []
    ensures Homes(l, bs) == Homes(l, bs[..|bs| - 1]) + {l.Home(bs[|bs| - 1])}
  {
    var m := |bs| - 1;
    forall id | id in Homes(l, bs) ensures id in Homes(l, bs[..m]) + {l.Home(bs[m])} {
      var j :| 0 <= j < |bs| && id == l.Home(bs[j]);
      assert j < m ==> bs[..m][j] == bs[j];
    }
    forall id | id in Homes(l, bs[..m]) ensures id in Homes(l, bs) {
      var j :| 0 <= j < m && id == l.Home(bs[..m][j]);
      assert bs[j] == bs[..m][j];
    }
  }

  ghost function Below(n: nat): (r: set<nat>)
    ensures |r| == n && forall i :: i in r <==> 0 <= i < n
  {
    if n == 0 then {} else Below(n - 1) + {n - 1}
  }

  lemma DirtyCount(bufs: seq<Buf>, l: Layout, bs: seq<word>)
    requires Unique(bufs) && Dirty(bufs) == Homes(l, bs) && Ring.Distinct(bs) && l.dev != 0
    ensures |DirtyBufs(bufs)| == |bs|
  {
    HomesSize(l, bs);
    forall i | i in DirtyBufs(bufs) ensures bufs[i].id in Homes(l, bs) {
      assert bufs[i].id in Dirty(bufs);
    }
    OneEach(bufs, DirtyBufs(bufs), Homes(l, bs));
  }

  /** Commit finds a buffer for the log block exactly if the listed blocks and the
      buffers in use leave one over. The log's capacity is less than the number of
      buffers, so with none in use they always do. */
  lemma SpareForCommit(bufs: seq<Buf>, refs: seq<set<nat>>, l: Layout, bs: seq<word>)
    requires |bufs| == NBUF && Unique(bufs) && Counted(bufs, refs) && Dirty(bufs) == Homes(l, bs) && Ring.Distinct(bs)
    requires l.dev != 0 && Quiet(l, bufs, refs, bs)
    ensures Spare(bufs) <==> |Busy(refs)| + |bs| < NBUF
    ensures l.size <= NBUF && |bs| <= l.Capacity() && Busy(refs) == {} ==> Spare(bufs)
  {
    DirtyCount(bufs, l, bs);
    var dirty, used := DirtyBufs(bufs), Busy(refs);
    Apart(bufs, refs, l, bs);
    LeftOver(dirty, used, NBUF);
    hide Unique, Ring.Distinct, Quiet, Dirty, Homes;
    forall i: nat | i < NBUF ensures Idle(bufs[i]) <==> i !in dirty && i !in used {
    }
  }

  lemma Apart(bufs: seq<Buf>, refs: seq<set<nat>>, l: Layout, bs: seq<word>)
    requires |bufs| == |refs| && Dirty(bufs) == Homes(l, bs) && Quiet(l, bufs, refs, bs)
    ensures DirtyBufs(bufs) !! Busy(refs)
  {
    forall i | i in DirtyBufs(bufs) ensures i !in Busy(refs) {
      assert bufs[i].id in Dirty(bufs);
    }
  }

  lemma LeftOver(a: set<nat>, b: set<nat>, n: nat)
    requires a !! b && (forall i :: i in a ==> i < n) && forall i :: i in b ==> i < n
    ensures (exists i :: 0 <= i < n && i !in a && i !in b) <==> |a| + |b| < n
  {
    var all := Below(n);
    assert |a + b| == |a| + |b|;
    if a + b != all {
      var i := SmallerSet(a + b, all);
      assert 0 <= i < n && i !in a && i !in b;
    }
  }

  lemma SmallerSet(a: set<nat>, b: set<nat>) returns (i: nat)
    requires a <= b && a != b
    ensures |a| < |b| && i in b && i !in a
  {
    i :| i in b && i !in a;
    assert b == a + (b - a) && i in b - a;
  }

  /** Before a commit the header is the same on disk and in the cache. */
  lemma BeforeCommit(l: Layout, bufs: seq<Buf>, d: Disk, f: Disk, bs: seq<word>, data: seq<Block>)
    requires Coherent(bufs, d, f) && Clean(l, d) && Loggable(l, d.Keys, bs) && Dirty(bufs) == Homes(l, bs)
    ensures d[l.Head()] == f[l.Head()] && Clean(l, f)
  {
    assert l.InLog(l.Head());
    HomesApart(l, d.Keys, bs);
    CleanOnDisk(bufs, d, f, l.Head());
  }

  /** At the commit point the log slots and the header are the same on disk and in the cache. */
  lemma HalvesMeet(l: Layout, d: Disk, f: Disk, bs: seq<word>, data: seq<Block>,
                   c: Disk, flat: Disk, t: seq<Disk>, t': seq<Disk>)
    requires AtCommitPoint(l, d, f, bs, data, c, flat, t, t') && d[l.Head()] == f[l.Head()]
    ensures SlotsAgree(l, c, flat, bs) && c[l.Head()] == flat[l.Head()]
  {
    LoggedFacts(l, d, data, |data|);
    LoggedFacts(l, f, data, |data|);
  }

  /** The two halves together are a commit. */
  lemma CommitJoins(l: Layout, d: Disk, f: Disk, bs: seq<word>, data: seq<Block>, c: Disk, flat: Disk, disk: Disk,
                    t: seq<Disk>, t1: seq<Disk>, t2: seq<Disk>)
    requires bs != [] && AtCommitPoint(l, d, f, bs, data, c, flat, t, t1) && Replayed(l, c, bs, disk, t1, t2)
    ensures CommitDone(l, d, bs, data, disk, t, t2)
  {
    CommitEnds(l, d, bs, data);
    hide HasLog, Loggable, CommitTrace, CommitAt, Committed, LogTrace, InstallTrace, Install, Cleared, Clean;
    Joined(t, LogTrace(l, d, data, |bs|), [c], InstallTrace(l, c, bs, |bs|), [disk]);
  }

  /** One buffer changes, pinned or not as before, and a pinned one keeps its block. */
  lemma KeptDirty(bufs: seq<Buf>, b: nat, x: Buf)
    requires b < |bufs| && x.dirty == bufs[b].dirty && (x.dirty ==> x.id == bufs[b].id)
    ensures Dirty(bufs[b := x]) == Dirty(bufs)
  {
    var bufs' := bufs[b := x];
    forall id ensures id in Dirty(bufs') <==> id in Dirty(bufs) {
      if id in Dirty(bufs') {
        var i :| 0 <= i < |bufs'| && bufs'[i].dirty && bufs'[i].id == id;
        assert bufs[i].dirty && bufs[i].id == id;
      }
      if id in Dirty(bufs) {
        var i :| 0 <= i < |bufs| && bufs[i].dirty && bufs[i].id == id;
        assert bufs'[i].dirty && bufs'[i].id == id;
      }
    }
  }

  lemma SameDirty(bufs: seq<Buf>, bufs': seq<Buf>, b: nat)
    requires |bufs| == |bufs'| && b < |bufs| && !bufs[b].dirty && !bufs'[b].dirty
    requires forall i :: 0 <= i < |bufs| && i != b ==> bufs'[i] == bufs[i]
    ensures Dirty(bufs') == Dirty(bufs)
  {
    forall id ensures id in Dirty(bufs') <==> id in Dirty(bufs) {
      if id in Dirty(bufs') {
        var i :| 0 <= i < |bufs'| && bufs'[i].dirty && bufs'[i].id == id;
        assert bufs[i].dirty && bufs[i].id == id;
      }
      if id in Dirty(bufs) {
        var i :| 0 <= i < |bufs| && bufs[i].dirty && bufs[i].id == id;
        assert bufs'[i].dirty && bufs'[i].id == id;
      }
    }
  }

  lemma KeptSame(bufs: seq<Buf>, refs: seq<set<nat>>)
    requires |bufs| == |refs|
    ensures InUseKept(bufs, bufs, refs, refs)
  {
  }

  lemma KeptTrans(bufs: seq<Buf>, bufs1: seq<Buf>, bufs2: seq<Buf>, refs: seq<set<nat>>, refs1: seq<set<nat>>, refs2: seq<set<nat>>)
    requires InUseKept(bufs, bufs1, refs, refs1) && InUseKept(bufs1, bufs2, refs1, refs2)
    ensures InUseKept(bufs, bufs2, refs, refs2)
  {
  }

  lemma StaysQuiet(l: Layout, bufs: seq<Buf>, bufs': seq<Buf>, refs: seq<set<nat>>, refs': seq<set<nat>>, bs: seq<word>)
    requires |bufs| == |bufs'| == |refs| && Quiet(l, bufs, refs, bs) && InUseKept(bufs, bufs', refs, refs')
    ensures Quiet(l, bufs', refs', bs)
  {
  }

  /** An unpinned block is up to date on disk. */
  lemma CleanOnDisk(bufs: seq<Buf>, disk: Disk, flat: Disk, id: BlockId)
    requires Coherent(bufs, disk, flat) && id in disk && id !in Dirty(bufs)
    ensures disk[id] == flat[id]
  {
    assert disk[id] != flat[id] ==> Pinned(bufs, id);
  }

  /** The copy's target is clean afterwards and nothing else is pinned or let go. */
  lemma CopiedDirty(bufs: seq<Buf>, bufs': seq<Buf>, from: nat, to: nat)
    requires |bufs| == |bufs'| && from < |bufs| && to < |bufs| && from != to
    requires Unique(bufs') && bufs'[to].id.dev != 0
    requires forall i :: 0 <= i < |bufs| && i != from && i != to ==> bufs'[i] == bufs[i]
    requires !bufs'[to].dirty && bufs'[from].dirty == bufs[from].dirty
    requires bufs[to].dirty ==> bufs[to].id == bufs'[to].id
    requires bufs[from].dirty ==> bufs[from].id == bufs'[from].id
    ensures Dirty(bufs') == Dirty(bufs) - {bufs'[to].id}
  {
    forall id ensures id in Dirty(bufs') <==> id in Dirty(bufs) && id != bufs'[to].id {
      if id in Dirty(bufs') {
        var i :| 0 <= i < |bufs'| && bufs'[i].dirty && bufs'[i].id == id;
        assert bufs[i].dirty && bufs[i].id == id;
      }
      if id in Dirty(bufs) && id != bufs'[to].id {
        var i :| 0 <= i < |bufs| && bufs[i].dirty && bufs[i].id == id;
        assert bufs'[i].dirty && bufs'[i].id == id;
      }
    }
  }

  ghost predicate CachedIdle(bufs: seq<Buf>, id: BlockId) {
    exists i :: 0 <= i < |bufs| && Idle(bufs[i]) && bufs[i].id == id
  }

  // ----- what the file system sees -----

  /** Every disk that existed since `t` recovers to the whole old file system or to
      the whole new one, and to the new one from some write on. */
  ghost predicate OldThenNew(l: Layout, was: Disk, now: Disk, t: seq<Disk>, t': seq<Disk>) {
    && t <= t'
    && (forall i :: |t| <= i < |t'| ==> OnDisk(l, t'[i]) && (Recovered(l, t'[i]) == was || Recovered(l, t'[i]) == now))
    && (forall i, j :: |t| <= i < j < |t'| && Recovered(l, t'[i]) == now != was ==> Recovered(l, t'[j]) == now)
  }

  lemma {:induction false} ApplyAt(l: Layout, h: Disk, f: Disk, bs: seq<word>, data: seq<Block>)
    requires |data| == |bs| && forall j :: 0 <= j < |bs| ==> l.Home(bs[j]) in h && l.Home(bs[j]) in f && data[j] == f[l.Home(bs[j])]
    requires h.Keys <= f.Keys
    ensures Apply(l, h, bs, data).Keys == h.Keys
    ensures forall id :: id in h ==> Apply(l, h, bs, data)[id] == if id in Homes(l, bs) then f[id] else h[id]
  {
    if bs != [] {
      var m := |bs| - 1;
      ApplyAt(l, h, f, bs[..m], data[..m]);
      HomesGrow(l, bs);
    }
  }

  /** The transaction the journal carries is exactly the difference between the disk
      and the disk as its users see it. */
  lemma NewIsFlat(l: Layout, bufs: seq<Buf>, d: Disk, f: Disk, bs: seq<word>, data: seq<Block>)
    requires Coherent(bufs, d, f) && Dirty(bufs) == Homes(l, bs) && Caches(l, f, bs, data)
    ensures Apply(l, HomeView(l, d), bs, data) == HomeView(l, f)
  {
    ApplyAt(l, HomeView(l, d), f, bs, data);
    forall id | id in d && id !in Homes(l, bs) ensures d[id] == f[id] {
      CleanOnDisk(bufs, d, f, id);
    }
  }

  /** The i-th disk of a commit's history. */
  lemma CommitEntry(l: Layout, d: Disk, bs: seq<word>, data: seq<Block>, disk: Disk, t: seq<Disk>, t': seq<Disk>)
    requires CommitDone(l, d, bs, data, disk, t, t')
    ensures Clean(l, d) && Loggable(l, d.Keys, bs) && |data| == |bs| && t <= t' && |t'| == |t| + CommitWrites(bs)
    ensures disk == CommitAt(l, d, bs, data, CommitWrites(bs))
    ensures forall i :: |t| <= i < |t'| ==> t'[i] == CommitAt(l, d, bs, data, i - |t| + 1)
  {
    hide CommitAt, Clean, Loggable;
  }

  /** Before the commit point the old state, then the new. */
  lemma CommitSeenAt(l: Layout, d: Disk, now: Disk, bs: seq<word>, data: seq<Block>, k: nat)
    requires Clean(l, d) && Loggable(l, d.Keys, bs) && |data| == |bs| && Apply(l, HomeView(l, d), bs, data) == now
    requires 0 < k <= CommitWrites(bs)
    ensures var c := CommitAt(l, d, bs, data, k); OnDisk(l, c) && Recovered(l, c) == if k <= |bs| then HomeView(l, d) else now
  {
    hide CommitAt, Apply, HomeView, Recovered, OnDisk, Clean, Loggable;
    CommitIsAtomic(l, d, bs, data, k);
  }

  /** A finished commit, seen from the file system. */
  lemma CommitSeen(l: Layout, d: Disk, now: Disk, bs: seq<word>, data: seq<Block>, disk: Disk, t: seq<Disk>, t': seq<Disk>)
    requires CommitDone(l, d, bs, data, disk, t, t') && Apply(l, HomeView(l, d), bs, data) == now
    ensures Clean(l, disk) && HomeView(l, disk) == now
    ensures OldThenNew(l, HomeView(l, d), now, t, t')
  {
    hide CommitDone, Apply, CommitAt, HomeView, Recovered, OnDisk, Clean, Loggable;
    CommitEntry(l, d, bs, data, disk, t, t');
    CommitIsAtomic(l, d, bs, data, CommitWrites(bs));
    forall i | |t| <= i < |t'|
      ensures OnDisk(l, t'[i]) && Recovered(l, t'[i]) == if i - |t| + 1 <= |bs| then HomeView(l, d) else now
    {
      CommitSeenAt(l, d, now, bs, data, i - |t| + 1);
    }
  }

  /** The i-th disk of a recovery's history. */
  lemma RecoveryEntry(l: Layout, d: Disk, disk: Disk, t: seq<Disk>, t': seq<Disk>)
    requires RecoveryDone(l, d, disk, t, t')
    ensures OnDisk(l, d) && t <= t' && |t'| == |t| + RecoveryWrites(l, d) && disk == RecoveryAt(l, d, RecoveryWrites(l, d))
    ensures forall i :: |t| <= i < |t'| ==> t'[i] == RecoveryAt(l, d, i - |t| + 1)
  {
    hide RecoveryAt, RecoveryWrites, OnDisk;
  }

  /** A recovery, seen from the file system: all the while the disk recovers to the
      same state, and at the end it holds it. */
  lemma RecoverySeen(l: Layout, d: Disk, disk: Disk, t: seq<Disk>, t': seq<Disk>)
    requires RecoveryDone(l, d, disk, t, t')
    ensures OnDisk(l, d) && Clean(l, disk) && HomeView(l, disk) == Recovered(l, d)
    ensures OldThenNew(l, Recovered(l, d), Recovered(l, d), t, t')
  {
    hide RecoveryDone, RecoveryAt, RecoveryWrites, HomeView, Recovered, OnDisk, Clean;
    RecoveryEntry(l, d, disk, t, t');
    RecoveryIsRestartable(l, d, RecoveryWrites(l, d));
    forall i | |t| <= i < |t'| ensures OnDisk(l, t'[i]) && Recovered(l, t'[i]) == Recovered(l, d) {
      RecoveryIsRestartable(l, d, i - |t| + 1);
    }
  }

  class Log {
    const cache: BufferCache
    const l: Layout
    var n: nat
    const block: array<word>
    var outstanding: nat

    constructor (cache: BufferCache, l: Layout)
      ensures this.cache == cache && this.l == l && fresh(block) && block.Length == LOGSIZE
      ensures n == 0 && outstanding == 0
    {
      this.cache := cache;
      this.l := l;
      n := 0;
      block := new word[LOGSIZE](_ => 0);
      outstanding := 0;
    }

    ghost function Numbers(): seq<word>
      requires n <= block.Length
      reads this, block
    {
      block[..n]
    }

    /** The log and the listed blocks exist, and no process is using their buffers. */
    ghost predicate Ready()
      reads this, block, cache, cache.bufs, cache.prev, cache.next
    {
      && cache.Valid()
      && l.dev != 0 && 1 <= l.size
      && block.Length == LOGSIZE && n <= LOGSIZE
      && cache.flat.Keys == cache.disk.Keys && cache.bufs.Length == |cache.refs| == NBUF
      && HasLog(l, cache.disk.Keys) && Loggable(l, cache.disk.Keys, Numbers())
      && Quiet(l, cache.bufs[..], cache.refs, Numbers())
    }

    /** bread of a block no one is using, with a buffer to be had for it. */
    method ReadOne(id: BlockId, pid: nat, ghost k: nat) returns (b: nat)
      requires cache.Valid() && id.dev != 0 && id in cache.disk && Unused(cache.bufs[..], cache.refs, id)
      requires k < NBUF && (Idle(cache.bufs[k]) || cache.bufs[k].id == id)
      modifies cache.bufs, cache`refs
      ensures cache.Valid() && b < NBUF
      ensures old(cache.refs)[b] == {} && cache.refs == old(cache.refs)[b := {pid}]
      ensures old(cache.bufs[b].id == id || Idle(cache.bufs[b]))
      ensures Held(cache.bufs[b], id, pid, cache.flat[id]) && cache.bufs[b].dirty == old(cache.bufs[b]).dirty
      ensures forall i :: 0 <= i < NBUF && i != b ==> cache.bufs[i] == old(cache.bufs[i])
    {
      hide Unique, Coherent, Ring.IsRing, ByRelease;
      assert Idle(cache.bufs[k]) || cache.bufs[k].id == id;
      var r := cache.Bread(id, pid);
      b := r.b;
    }

    /** bread of a log block and of its home block. */
    method ReadPair(slot: BlockId, home: BlockId, pid: nat) returns (s: nat, h: nat)
      requires cache.Valid() && slot.dev != 0 && home.dev != 0 && slot != home
      requires slot in cache.disk && home in cache.disk
      requires Unused(cache.bufs[..], cache.refs, slot) && Unused(cache.bufs[..], cache.refs, home)
      requires Room(cache.bufs[..], home)
      modifies cache.bufs, cache`refs
      ensures cache.Valid()
      ensures s < NBUF && h < NBUF && s != h
      ensures old(cache.refs)[s] == {} && old(cache.refs)[h] == {}
      ensures cache.refs == old(cache.refs)[s := {pid}][h := {pid}]
      ensures old(cache.bufs[s]).dirty ==> old(cache.bufs[s]).id == slot
      ensures old(cache.bufs[h]).dirty ==> old(cache.bufs[h]).id == home
      ensures Held(cache.bufs[s], slot, pid, cache.flat[slot]) && cache.bufs[s].dirty == old(cache.bufs[s]).dirty
      ensures Held(cache.bufs[h], home, pid, cache.flat[home]) && cache.bufs[h].dirty == old(cache.bufs[h]).dirty
      ensures forall i :: 0 <= i < NBUF && i != s && i != h ==> cache.bufs[i] == old(cache.bufs[i])
    {
      hide BufferCache.Linked, Unique, Coherent, ByRelease;
      ghost var bufs0 := cache.bufs[..];
      ghost var i, j :| 0 <= i < |bufs0| && 0 <= j < |bufs0| && i != j
        && Idle(bufs0[i]) && (Idle(bufs0[j]) || (bufs0[j].dirty && bufs0[j].id == home));
      s := ReadOne(slot, pid, i);
      h := ReadOne(home, pid, if s == i then j else i);
    }

    /** One iteration of write_log (into the log) or install_trans (out of it). */
    method Copy(slot: BlockId, home: BlockId, intoLog: bool, pid: nat)
      requires cache.Valid() && slot.dev != 0 && home.dev != 0 && slot != home
      requires slot in cache.disk && home in cache.disk
      requires Unused(cache.bufs[..], cache.refs, slot) && Unused(cache.bufs[..], cache.refs, home)
      requires Room(cache.bufs[..], home)
      modifies cache, cache.bufs, cache.prev, cache.next
      ensures cache.Valid()
      ensures var src, dst := if intoLog then home else slot, if intoLog then slot else home;
              && cache.disk == old(cache.disk)[dst := old(cache.flat)[src]]
              && cache.flat == old(cache.flat)[dst := old(cache.flat)[src]]
              && Dirty(cache.bufs[..]) == old(Dirty(cache.bufs[..])) - {dst}
              && CachedIdle(cache.bufs[..], dst)
              && (src !in Dirty(cache.bufs[..]) ==> CachedIdle(cache.bufs[..], src))
      ensures cache.trace == old(cache.trace) + [cache.disk]
      ensures InUseKept(old(cache.bufs[..]), cache.bufs[..], old(cache.refs), cache.refs)
    {
      hide BufferCache.Linked, Coherent, Counted, ByRelease;
      ghost var bufs0 := cache.bufs[..];
      var s, h := ReadPair(slot, home, pid);
      var from, to := if intoLog then h else s, if intoLog then s else h;
      Transfer(from, to, pid);
      CopiedDirty(bufs0, cache.bufs[..], from, to);
      assert Idle(cache.bufs[to]);
      assert cache.bufs[from].dirty || Idle(cache.bufs[from]);
    }

    /** write_log: copy each listed block from the cache to its log slot. */
    method WriteLog(pid: nat, ghost data: seq<Block>)
      requires Ready() && Spare(cache.bufs[..])
      requires forall j :: 0 <= j < n ==> l.Home(block[j]) in Dirty(cache.bufs[..])
      requires forall id :: id in Dirty(cache.bufs[..]) ==> !l.InLog(id)
      requires |data| == n && forall j :: 0 <= j < n ==> data[j] == cache.flat[l.Home(block[j])]
      modifies cache, cache.bufs, cache.prev, cache.next
      ensures Ready() && Spare(cache.bufs[..])
      ensures Dirty(cache.bufs[..]) == old(Dirty(cache.bufs[..]))
      ensures cache.disk == Logged(l, old(cache.disk), data, n)
      ensures cache.flat == Logged(l, old(cache.flat), data, n)
      ensures cache.trace == old(cache.trace) + LogTrace(l, old(cache.disk), data, n)
      ensures InUseKept(old(cache.bufs[..]), cache.bufs[..], old(cache.refs), cache.refs)
    {
      hide BufferCache.Valid, Quiet, Spare, Dirty, HasLog, Loggable, InUseKept;
      KeptSame(cache.bufs[..], cache.refs);
      ghost var d, f := cache.disk, cache.flat;
      var tail := 0;
      while tail < n
        invariant 0 <= tail <= n
        invariant InUseKept(old(cache.bufs[..]), cache.bufs[..], old(cache.refs), cache.refs)
        invariant Ready() && Spare(cache.bufs[..])
        invariant Dirty(cache.bufs[..]) == old(Dirty(cache.bufs[..]))
        invariant cache.disk == Logged(l, d, data, tail) && cache.flat == Logged(l, f, data, tail)
        invariant cache.trace == old(cache.trace) + LogTrace(l, d, data, tail)
      {
        ListedApart(l, f.Keys, Numbers(), tail);
        ghost var bufs1, refs1 := cache.bufs[..], cache.refs;
        LogStep(tail, pid, d, f, data);
        KeptTrans(old(cache.bufs[..]), bufs1, cache.bufs[..], old(cache.refs), refs1, cache.refs);
        tail := tail + 1;
      }
    }

    method LogStep(tail: nat, pid: nat, ghost d: Disk, ghost f: Disk, ghost data: seq<Block>)
      requires Ready() && Spare(cache.bufs[..]) && tail < n == |data|
      requires l.Home(block[tail]) in Dirty(cache.bufs[..])
      requires forall id :: id in Dirty(cache.bufs[..]) ==> !l.InLog(id)
      requires HasLog(l, f.Keys) && l.Home(block[tail]) in f && data[tail] == f[l.Home(block[tail])]
      requires cache.disk == Logged(l, d, data, tail) && cache.flat == Logged(l, f, data, tail)
      modifies cache, cache.bufs, cache.prev, cache.next
      ensures Ready() && Spare(cache.bufs[..])
      ensures Dirty(cache.bufs[..]) == old(Dirty(cache.bufs[..]))
      ensures cache.disk == Logged(l, d, data, tail + 1) && cache.flat == Logged(l, f, data, tail + 1)
      ensures cache.trace == old(cache.trace) + [cache.disk]
      ensures InUseKept(old(cache.bufs[..]), cache.bufs[..], old(cache.refs), cache.refs)
    {
      ListedApart(l, cache.disk.Keys, Numbers(), tail);
      LoggedFacts(l, f, data, tail);
      hide BufferCache.Valid, Quiet, Spare, Dirty, HasLog, Loggable, InUseKept;
      LogOne(tail, pid);
    }

    method LogOne(tail: nat, pid: nat)
      requires Ready() && Spare(cache.bufs[..]) && tail < n
      requires l.Home(block[tail]) in Dirty(cache.bufs[..]) && l.Slot(tail) !in Dirty(cache.bufs[..])
      modifies cache, cache.bufs, cache.prev, cache.next
      ensures Ready() && Spare(cache.bufs[..])
      ensures Dirty(cache.bufs[..]) == old(Dirty(cache.bufs[..]))
      ensures cache.disk == old(cache.disk[l.Slot(tail) := cache.flat[l.Home(block[tail])]])
      ensures cache.flat == old(cache.flat[l.Slot(tail) := cache.flat[l.Home(block[tail])]])
      ensures cache.trace == old(cache.trace) + [cache.disk]
      ensures InUseKept(old(cache.bufs[..]), cache.bufs[..], old(cache.refs), cache.refs)
    {
      hide BufferCache.Linked, Unique, Coherent, Counted, ByRelease;
      ghost var bufs, refs := cache.bufs[..], cache.refs;
      PinnedRoom(bufs, l.Home(block[tail]));
      assert !l.InLog(l.Home(block[tail])) && l.InLog(l.Slot(tail));
      Copy(l.Slot(tail), l.Home(block[tail]), true, pid);
      StaysQuiet(l, bufs, cache.bufs[..], refs, cache.refs, Numbers());
    }

    /** install_trans: copy each log slot to its home block. */
    method InstallTrans(pid: nat, ghost d: Disk, ghost f: Disk, ghost bs: seq<word>)
      requires Ready() && Numbers() == bs && cache.disk == d && cache.flat == f && SlotsAgree(l, d, f, bs)
      requires n > 0 ==> Room(cache.bufs[..], l.Home(block[0]))
      requires forall id :: id in Dirty(cache.bufs[..]) ==> !l.InLog(id)
      modifies cache, cache.bufs, cache.prev, cache.next
      ensures Ready() && (n > 0 || old(Roomy(cache.bufs[..])) ==> Roomy(cache.bufs[..]))
      ensures Dirty(cache.bufs[..]) == LetGo(l, old(Dirty(cache.bufs[..])), bs, |bs|)
      ensures Installed(l, d, f, bs, |bs|, cache.disk, cache.flat, old(cache.trace), cache.trace)
      ensures InUseKept(old(cache.bufs[..]), cache.bufs[..], old(cache.refs), cache.refs)
    {
      hide BufferCache.Valid, Quiet, Dirty, Room, Roomy, HasLog, Loggable, InUseKept;
      KeptSame(cache.bufs[..], cache.refs);
      var tail := 0;
      while tail < n
        invariant 0 <= tail <= n && Numbers() == bs
        invariant InUseKept(old(cache.bufs[..]), cache.bufs[..], old(cache.refs), cache.refs)
        invariant Ready() && (tail > 0 || old(Roomy(cache.bufs[..])) ==> Roomy(cache.bufs[..]))
        invariant tail < n ==> Room(cache.bufs[..], l.Home(block[tail]))
        invariant Dirty(cache.bufs[..]) == LetGo(l, old(Dirty(cache.bufs[..])), bs, tail)
        invariant Installed(l, d, f, bs, tail, cache.disk, cache.flat, old(cache.trace), cache.trace)
      {
        ghost var bufs1, refs1 := cache.bufs[..], cache.refs;
        InstallStep(tail, pid, d, f, bs, old(cache.trace));
        KeptTrans(old(cache.bufs[..]), bufs1, cache.bufs[..], old(cache.refs), refs1, cache.refs);
        tail := tail + 1;
        if tail < n {
          RoomyRoom(cache.bufs[..], l.Home(block[tail]));
        }
      }
    }

    method InstallStep(tail: nat, pid: nat, ghost d: Disk, ghost f: Disk, ghost bs: seq<word>, ghost t: seq<Disk>)
      requires Ready() && tail < n && Numbers() == bs && SlotsAgree(l, d, f, bs)
      requires Room(cache.bufs[..], l.Home(block[tail]))
      requires forall id :: id in Dirty(cache.bufs[..]) ==> !l.InLog(id)
      requires Installed(l, d, f, bs, tail, cache.disk, cache.flat, t, cache.trace)
      modifies cache, cache.bufs, cache.prev, cache.next
      ensures Ready() && Roomy(cache.bufs[..])
      ensures Dirty(cache.bufs[..]) == old(Dirty(cache.bufs[..])) - {l.Home(block[tail])}
      ensures Installed(l, d, f, bs, tail + 1, cache.disk, cache.flat, t, cache.trace)
      ensures InUseKept(old(cache.bufs[..]), cache.bufs[..], old(cache.refs), cache.refs)
    {
      ListedApart(l, d.Keys, bs, tail);
      hide BufferCache.Valid, Quiet, Dirty, Room, Roomy, HasLog, Loggable, InUseKept;
      InstallOne(tail, pid);
      Grouped(t, InstallTrace(l, d, bs, tail), [cache.disk]);
    }

    method InstallOne(tail: nat, pid: nat)
      requires Ready() && tail < n && Room(cache.bufs[..], l.Home(block[tail]))
      requires l.Slot(tail) !in Dirty(cache.bufs[..])
      modifies cache, cache.bufs, cache.prev, cache.next
      ensures Ready() && Roomy(cache.bufs[..])
      ensures Dirty(cache.bufs[..]) == old(Dirty(cache.bufs[..])) - {l.Home(block[tail])}
      ensures cache.disk == old(cache.disk[l.Home(block[tail]) := cache.flat[l.Slot(tail)]])
      ensures cache.flat == old(cache.flat[l.Home(block[tail]) := cache.flat[l.Slot(tail)]])
      ensures cache.trace == old(cache.trace) + [cache.disk]
      ensures InUseKept(old(cache.bufs[..]), cache.bufs[..], old(cache.refs), cache.refs)
    {
      hide BufferCache.Linked, Unique, Coherent, Counted, ByRelease, Room;
      ghost var bufs, refs := cache.bufs[..], cache.refs;
      assert !l.InLog(l.Home(block[tail])) && l.InLog(l.Slot(tail));
      Copy(l.Slot(tail), l.Home(block[tail]), false, pid);
      StaysQuiet(l, bufs, cache.bufs[..], refs, cache.refs, Numbers());
      IdleRoom(cache.bufs[..], l.Slot(tail), l.Home(block[tail]));
    }

    /** write_head: put the in-memory header on disk, in one block write. */
    method WriteHead(pid: nat)
      requires Ready() && Spare(cache.bufs[..])
      requires l.Head() !in Dirty(cache.bufs[..])
      modifies cache, cache.bufs, cache.prev, cache.next
      ensures Ready() && Spare(cache.bufs[..])
      ensures old(Roomy(cache.bufs[..])) ==> Roomy(cache.bufs[..])
      ensures Dirty(cache.bufs[..]) == old(Dirty(cache.bufs[..]))
      ensures cache.disk == old(cache.disk[l.Head() := WriteHeader(cache.flat[l.Head()], Numbers())])
      ensures cache.flat == old(cache.flat[l.Head() := WriteHeader(cache.flat[l.Head()], Numbers())])
      ensures cache.trace == old(cache.trace) + [cache.disk]
      ensures InUseKept(old(cache.bufs[..]), cache.bufs[..], old(cache.refs), cache.refs)
    {
      hide BufferCache.Linked, Unique, Coherent, Counted, ByRelease, WriteHeader;
      ghost var bufs, refs := cache.bufs[..], cache.refs;
      assert l.InLog(l.Head());
      ghost var k :| 0 <= k < NBUF && Idle(bufs[k]);
      var b := ReadOne(l.Head(), pid, k);
      var hb := EncodeHead(cache.bufs[b].data);
      FlushOne(b, pid, hb);
      SameDirty(bufs, cache.bufs[..], b);
      StaysQuiet(l, bufs, cache.bufs[..], refs, cache.refs, Numbers());
      assert Idle(cache.bufs[b]);
    }

    /** The loop of write_head that fills the header's buffer. */
    method EncodeHead(b: Block) returns (hb: Block)
      requires n <= block.Length && n <= LOGSIZE
      ensures hb == WriteHeader(b, Numbers())
    {
      hb := b[0 := n];
      var i := 0;
      while i < n
        invariant 0 <= i <= n
        invariant hb == PutNumbers(b[0 := n], Numbers(), i)
      {
        hb := hb[1 + i := block[i]];
        i := i + 1;
      }
    }

    /** Store, bwrite, brelse. */
    method FlushOne(b: nat, pid: nat, data: Block)
      requires cache.Valid() && b < NBUF && cache.bufs[b].valid && cache.bufs[b].holder == Some(pid)
      requires cache.refs[b] == {pid}
      modifies cache, cache.bufs, cache.prev, cache.next
      ensures cache.Valid()
      ensures cache.disk == old(cache.disk)[cache.bufs[b].id := data]
      ensures cache.flat == old(cache.flat)[cache.bufs[b].id := data]
      ensures cache.trace == old(cache.trace) + [cache.disk]
      ensures cache.refs == old(cache.refs)[b := {}]
      ensures forall i :: 0 <= i < NBUF && i != b ==> cache.bufs[i] == old(cache.bufs[i])
      ensures cache.bufs[b].id == old(cache.bufs[b]).id && Idle(cache.bufs[b])
    {
      hide BufferCache.Linked, ByRelease, Counted, Unique;
      cache.Store(b, pid, data);
      cache.Bwrite(b, pid);
      cache.Brelse(b, pid);
      assert cache.refs[b] == {};
    }

    /** commit: the disk writes are exactly those of CommitTrace; afterwards
        nothing is pinned and the file system's blocks are on disk as cached. */
    method Commit(pid: nat, ghost d: Disk, ghost bs: seq<word>, ghost data: seq<Block>)
      requires Ready() && Spare(cache.bufs[..]) && Numbers() == bs && Dirty(cache.bufs[..]) == Homes(l, bs)
      requires cache.disk == d && Clean(l, d) && Caches(l, cache.flat, bs, data)
      modifies this`n, cache, cache.bufs, cache.prev, cache.next
      ensures Ready() && n == 0 && Dirty(cache.bufs[..]) == {}
      ensures CommitDone(l, d, bs, data, cache.disk, old(cache.trace), cache.trace)
      ensures InUseKept(old(cache.bufs[..]), cache.bufs[..], old(cache.refs), cache.refs)
    {
      if n > 0 {
        ghost var f, t := cache.flat, cache.trace;
        BeforeCommit(l, cache.bufs[..], d, f, bs, data);
        hide BufferCache.Valid, Quiet, Spare, Dirty, Homes, HasLog, Loggable, Caches;
        hide AtCommitPoint, Replayed, CommitDone, SlotsAgree, InUseKept;
        CommitFirstHalf(pid, d, f, bs, data);
        ghost var c, f1, t1 := cache.disk, cache.flat, cache.trace;
        HalvesMeet(l, d, f, bs, data, c, f1, t, t1);
        ghost var bufs1, refs1 := cache.bufs[..], cache.refs;
        CommitSecondHalf(pid, c, f1, bs);
        KeptTrans(old(cache.bufs[..]), bufs1, cache.bufs[..], old(cache.refs), refs1, cache.refs);
        CommitJoins(l, d, f, bs, data, c, f1, cache.disk, t, t1, cache.trace);
      } else {
        assert bs == [] && Homes(l, bs) == {};
      }
    }

    /** write_log and write_head: up to the commit point. */
    method CommitFirstHalf(pid: nat, ghost d: Disk, ghost f: Disk, ghost bs: seq<word>, ghost data: seq<Block>)
      requires Ready() && Spare(cache.bufs[..]) && Numbers() == bs && Dirty(cache.bufs[..]) == Homes(l, bs)
      requires cache.disk == d && cache.flat == f && Clean(l, d) && Clean(l, f) && Caches(l, f, bs, data)
      requires d[l.Head()] == f[l.Head()] && d.Keys == f.Keys
      modifies cache, cache.bufs, cache.prev, cache.next
      ensures Ready() && Spare(cache.bufs[..]) && Dirty(cache.bufs[..]) == Homes(l, bs)
      ensures AtCommitPoint(l, d, f, bs, data, cache.disk, cache.flat, old(cache.trace), cache.trace)
      ensures InUseKept(old(cache.bufs[..]), cache.bufs[..], old(cache.refs), cache.refs)
    {
      HomesApart(l, d.Keys, bs);
      assert l.InLog(l.Head());
      forall j | 0 <= j < n ensures l.Home(block[j]) in Dirty(cache.bufs[..]) {
        assert bs[j] == block[j] && l.Home(bs[j]) in Homes(l, bs);
      }
      hide BufferCache.Valid, Quiet, Spare, Dirty, Homes, HasLog, Loggable, Logged, LogTrace, Clean, AtCommitPoint, InUseKept;
      ghost var t := cache.trace;
      WriteLog(pid, data);
      ghost var disk1, flat1 := cache.disk, cache.flat;
      LogHead(l, d, f, data);
      ghost var bufs1, refs1 := cache.bufs[..], cache.refs;
      WriteHead(pid);
      KeptTrans(old(cache.bufs[..]), bufs1, cache.bufs[..], old(cache.refs), refs1, cache.refs);
      Reached(l, d, f, bs, data, disk1, flat1, cache.disk, cache.flat, t, cache.trace);
    }

    /** install_trans and the write_head that erases the transaction. */
    method CommitSecondHalf(pid: nat, ghost c: Disk, ghost f: Disk, ghost bs: seq<word>)
      requires Ready() && Spare(cache.bufs[..]) && Dirty(cache.bufs[..]) == Homes(l, bs) && n > 0
      requires Numbers() == bs && cache.disk == c && cache.flat == f && SlotsAgree(l, c, f, bs)
      requires c[l.Head()] == f[l.Head()]
      modifies this`n, cache, cache.bufs, cache.prev, cache.next
      ensures Ready() && n == 0 && Dirty(cache.bufs[..]) == {}
      ensures Replayed(l, c, bs, cache.disk, old(cache.trace), cache.trace)
      ensures InUseKept(old(cache.bufs[..]), cache.bufs[..], old(cache.refs), cache.refs)
    {
      HomesApart(l, c.Keys, bs);
      assert block[0] == bs[0] && l.Home(bs[0]) in Homes(l, bs);
      PinnedRoom(cache.bufs[..], l.Home(block[0]));
      assert l.InLog(l.Head());
      AllLetGo(l, bs);
      hide BufferCache.Valid, Quiet, Spare, Dirty, Homes, Room, Roomy, HasLog, Loggable;
      hide LetGo, Install, InstallTrace, Cleared, InUseKept;
      InstallTrans(pid, c, f, bs);
      assert Dirty(cache.bufs[..]) == {};
      ghost var bufs1, refs1 := cache.bufs[..], cache.refs;
      ClearHead(pid);
      KeptTrans(old(cache.bufs[..]), bufs1, cache.bufs[..], old(cache.refs), refs1, cache.refs);
    }

    /** log.lh.n = 0; write_head(). */
    method ClearHead(pid: nat)
      requires Ready() && Roomy(cache.bufs[..]) && l.Head() !in Dirty(cache.bufs[..])
      requires cache.disk[l.Head()] == cache.flat[l.Head()]
      modifies this`n, cache, cache.bufs, cache.prev, cache.next
      ensures Ready() && Roomy(cache.bufs[..]) && n == 0
      ensures Dirty(cache.bufs[..]) == old(Dirty(cache.bufs[..]))
      ensures cache.disk == Cleared(l, old(cache.disk))
      ensures cache.flat == Cleared(l, old(cache.flat))
      ensures cache.trace == old(cache.trace) + [cache.disk]
      ensures InUseKept(old(cache.bufs[..]), cache.bufs[..], old(cache.refs), cache.refs)
    {
      RoomyRoom(cache.bufs[..], l.Head());
      n := 0;
      assert Numbers() == [];
      hide BufferCache.Valid, Spare, Dirty, Roomy, InUseKept;
      WriteHead(pid);
    }

    /** read_head: the in-memory header becomes the one on disk. */
    method ReadHead(pid: nat)
      requires cache.Valid() && AllIdle(cache.bufs[..]) && l.dev != 0 && OnDisk(l, cache.disk)
      requires block.Length == LOGSIZE
      modifies this`n, block, cache`order, cache`stamp, cache`clock, cache`refs, cache.bufs, cache.prev, cache.next
      ensures cache.Valid() && AllIdle(cache.bufs[..])
      ensures n <= LOGSIZE && Numbers() == Header(cache.disk[l.Head()])
    {
      hide BufferCache.Linked, Unique, ByRelease;
      NothingReferenced(cache.bufs[..], cache.refs);
      NothingDirty(cache.bufs[..]);
      CleanOnDisk(cache.bufs[..], cache.disk, cache.flat, l.Head());
      hide Coherent, Counted;
      var b := ReadOne(l.Head(), pid, 0);
      CopyNumbers(cache.bufs[b].data);
      cache.Brelse(b, pid);
      assert cache.refs[b] == {};
    }

    /** read_head's copying loop. */
    method CopyNumbers(hb: Block)
      requires block.Length == LOGSIZE && HeaderCount(hb) == hb[0] <= LOGSIZE
      modifies this`n, block
      ensures n <= LOGSIZE && Numbers() == Header(hb)
    {
      n := hb[0];
      var i := 0;
      while i < n
        invariant 0 <= i <= n == hb[0] && block[..i] == hb[1..1 + i]
        modifies block
      {
        block[i] := hb[1 + i];
        i := i + 1;
      }
    }

    /** recover_from_log: the disk writes are exactly those of RecoveryTrace. */
    method Recover(pid: nat, ghost d: Disk)
      requires cache.Valid() && AllIdle(cache.bufs[..]) && l.dev != 0
      requires cache.disk == d && OnDisk(l, d) && block.Length == LOGSIZE
      modifies this`n, block, cache, cache.bufs, cache.prev, cache.next
      ensures Ready() && n == 0 && Dirty(cache.bufs[..]) == {}
      ensures RecoveryDone(l, d, cache.disk, old(cache.trace), cache.trace)
      ensures Busy(cache.refs) == {}
    {
      ghost var t := cache.trace;
      ReadHead(pid);
      hide BufferCache.Valid, AllIdle, Replayed, RecoveryDone, Log.Ready, Busy;
      Replay(pid, d, Header(d[l.Head()]));
      RecoveryJoins(l, d, cache.disk, t, cache.trace);
    }

    /** recover_from_log once the header is in memory. */
    method Replay(pid: nat, ghost d: Disk, ghost bs: seq<word>)
      requires cache.Valid() && AllIdle(cache.bufs[..]) && l.dev != 0
      requires cache.disk == d && OnDisk(l, d) && block.Length == LOGSIZE
      requires n <= LOGSIZE && Numbers() == bs == Header(d[l.Head()])
      modifies this`n, cache, cache.bufs, cache.prev, cache.next
      ensures Ready() && n == 0 && Dirty(cache.bufs[..]) == {}
      ensures Replayed(l, d, bs, cache.disk, old(cache.trace), cache.trace)
      ensures Busy(cache.refs) == {}
    {
      hide BufferCache.Linked, Unique, ByRelease;
      NothingReferenced(cache.bufs[..], cache.refs);
      ghost var refs := cache.refs;
      PoweredUp(l, cache.bufs[..], cache.refs, bs);
      NothingDirty(cache.bufs[..]);
      EqualWhenClean(cache.bufs[..], d, cache.flat);
      hide Coherent, Counted, Quiet, Dirty, Room, Roomy, AllIdle;
      hide LetGo, Install, InstallTrace, Cleared;
      assert l.InLog(l.Head());
      InstallTrans(pid, d, d, bs);
      ClearHead(pid);
      assert cache.refs == refs;
    }

    /** Between commits: the pinned blocks are exactly the listed ones, each listed once. */
    ghost predicate Open()
      reads this, block, cache, cache.bufs, cache.prev, cache.next
    {
      && cache.Valid()
      && l.dev != 0 && 1 <= l.size
      && block.Length == LOGSIZE && n <= LOGSIZE
      && HasLog(l, cache.disk.Keys) && Loggable(l, cache.disk.Keys, Numbers())
      && Ring.Distinct(Numbers())
      && Dirty(cache.bufs[..]) == Homes(l, Numbers())
    }

    /** bread in an operation: what the journal lists stays pinned. */
    method Read(id: BlockId, pid: nat) returns (r: Fetch)
      requires Open() && id.dev != 0 && id in cache.disk
      requires forall i :: 0 <= i < NBUF && cache.bufs[i].id == id ==> pid !in cache.refs[i]
      modifies cache.bufs, cache`refs
      ensures Open() && Numbers() == old(Numbers())
      ensures r.NoBuffers? ==> cache.bufs[..] == old(cache.bufs[..]) && cache.refs == old(cache.refs)
      ensures !r.NoBuffers? ==> r.b < NBUF && cache.refs == old(cache.refs)[r.b := old(cache.refs)[r.b] + {pid}]
                                && forall i :: 0 <= i < NBUF && i != r.b ==> cache.bufs[i] == old(cache.bufs[i])
      ensures r.Wait? ==> cache.bufs[r.b] == old(cache.bufs[r.b]).(refcnt := old(cache.bufs[r.b]).refcnt + 1)
                          && cache.bufs[r.b].id == id && cache.bufs[r.b].holder.Some?
      ensures r.Got? ==> Held(cache.bufs[r.b], id, pid, cache.flat[id]) && old(cache.bufs[r.b]).holder.None?
    {
      hide BufferCache.Linked, Unique, Coherent, ByRelease, HasLog, Loggable, Ring.Distinct;
      ghost var bufs := cache.bufs[..];
      assert forall i :: 0 <= i < NBUF && cache.refs[i] == {} ==> cache.bufs[i].holder.None?;
      hide Counted;
      r := cache.Bread(id, pid);
      if !r.NoBuffers? {
        KeptDirty(bufs, r.b, cache.bufs[r.b]);
      }
    }

    /** bread once the sleep-lock of the buffer is free. */
    method Resume(b: nat, pid: nat)
      requires Open() && b < NBUF && pid in cache.refs[b] && cache.bufs[b].holder.None?
      requires cache.bufs[b].id in cache.disk && cache.bufs[b].id.dev != 0
      modifies cache.bufs
      ensures Open() && Numbers() == old(Numbers())
      ensures Held(cache.bufs[b], old(cache.bufs[b]).id, pid, cache.flat[old(cache.bufs[b]).id])
      ensures forall i :: 0 <= i < NBUF && i != b ==> cache.bufs[i] == old(cache.bufs[i])
    {
      hide BufferCache.Linked, Unique, Coherent, ByRelease, Counted, HasLog, Loggable, Ring.Distinct;
      ghost var bufs := cache.bufs[..];
      cache.Resume(b, pid);
      KeptDirty(bufs, b, cache.bufs[b]);
    }

    /** The holder changes the bytes in the buffer. */
    method Change(b: nat, pid: nat, data: Block)
      requires Open() && b < NBUF && cache.bufs[b].holder == Some(pid)
      modifies cache.bufs
      ensures Open() && Numbers() == old(Numbers())
      ensures cache.bufs[..] == old(cache.bufs[..])[b := old(cache.bufs[b]).(data := data)]
    {
      hide BufferCache.Linked, Unique, Coherent, ByRelease, Counted, HasLog, Loggable, Ring.Distinct;
      ghost var bufs := cache.bufs[..];
      cache.Store(b, pid, data);
      KeptDirty(bufs, b, cache.bufs[b]);
    }

    /** brelse: a listed block stays pinned whoever lets go of it. */
    method Release(b: nat, pid: nat)
      requires Open() && b < NBUF && cache.bufs[b].holder == Some(pid)
      requires cache.bufs[b].valid ==> cache.bufs[b].data == cache.flat[cache.bufs[b].id]
      modifies cache`order, cache`stamp, cache`clock, cache`refs, cache.prev, cache.next, cache.bufs
      ensures Open() && Numbers() == old(Numbers())
      ensures cache.refs == old(cache.refs)[b := old(cache.refs)[b] - {pid}]
      ensures old(cache.bufs[b]).refcnt > 0
      ensures cache.bufs[..] == old(cache.bufs[..])[b := old(cache.bufs[b]).(holder := None, refcnt := old(cache.bufs[b]).refcnt - 1)]
    {
      hide BufferCache.Linked, Unique, Coherent, ByRelease, HasLog, Loggable, Ring.Distinct;
      assert pid in cache.refs[b] && cache.bufs[b].refcnt == |cache.refs[b]|;
      ghost var bufs := cache.bufs[..];
      hide Counted;
      cache.Brelse(b, pid);
      KeptDirty(bufs, b, cache.bufs[b]);
    }

    /** log_write: record the block, once, and pin its buffer. The bound on n is
        the panic "too big a transaction", which is tested before absorption. */
    method LogWrite(b: nat, pid: nat)
      requires Open() && outstanding >= 1 && n < l.Capacity()
      requires b < NBUF && cache.bufs[b].valid && cache.bufs[b].holder == Some(pid)
      requires cache.bufs[b].id.dev == l.dev && !l.InLog(cache.bufs[b].id) && cache.bufs[b].id.no < WORD_LIMIT
      modifies this`n, block, cache`flat, cache.bufs
      ensures Open()
      ensures Numbers() == Absorb(old(Numbers()), old(cache.bufs[b]).id.no)
      ensures cache.flat == old(cache.flat)[cache.bufs[b].id := cache.bufs[b].data]
      ensures cache.bufs[..] == old(cache.bufs[..])[b := old(cache.bufs[b]).(dirty := true)]
    {
      hide BufferCache.Linked, Unique, ByRelease, Counted;
      ghost var bs, bufs := Numbers(), cache.bufs[..];
      var no := cache.bufs[b].id.no;
      var i := 0;
      while i < n && block[i] != no
        invariant 0 <= i <= n
        invariant forall j :: 0 <= j < i ==> block[j] != no
      {
        i := i + 1;
      }
      block[i] := no;
      if i == n {
        n := n + 1;
      }
      assert Numbers() == Absorb(bs, no);
      PinnedToo(l, bufs, b, bs);
      cache.Pin(b, pid);
    }

    /** memmove, bwrite, brelse, brelse. */
    method Transfer(from: nat, to: nat, pid: nat)
      requires cache.Valid() && from < NBUF && to < NBUF && from != to
      requires cache.bufs[from].valid && cache.bufs[from].holder == Some(pid)
      requires cache.bufs[to].valid && cache.bufs[to].holder == Some(pid)
      requires cache.bufs[from].data == cache.flat[cache.bufs[from].id]
      requires cache.refs[from] == {pid} && cache.refs[to] == {pid}
      modifies cache, cache.bufs, cache.prev, cache.next
      ensures cache.Valid()
      ensures cache.disk == old(cache.disk[cache.bufs[to].id := cache.bufs[from].data])
      ensures cache.flat == old(cache.flat[cache.bufs[to].id := cache.bufs[from].data])
      ensures cache.trace == old(cache.trace) + [cache.disk]
      ensures cache.refs == old(cache.refs)[from := {}][to := {}]
      ensures forall i :: 0 <= i < NBUF && i != from && i != to ==> cache.bufs[i] == old(cache.bufs[i])
      ensures cache.bufs[to].id == old(cache.bufs[to]).id && Idle(cache.bufs[to])
      ensures cache.bufs[from].id == old(cache.bufs[from]).id && cache.bufs[from].refcnt == 0
      ensures cache.bufs[from].dirty == old(cache.bufs[from]).dirty
    {
      hide BufferCache.Linked, ByRelease, Counted;
      assert cache.bufs[from].id != cache.bufs[to].id;
      hide Unique;
      cache.Store(to, pid, cache.bufs[from].data);
      cache.Bwrite(to, pid);
      hide Coherent;
      ReleasePair(from, to, pid);
    }

    method ReleasePair(from: nat, to: nat, pid: nat)
      requires cache.Valid() && from < NBUF && to < NBUF && from != to
      requires cache.bufs[from].valid && cache.bufs[from].holder == Some(pid)
      requires cache.bufs[to].valid && cache.bufs[to].holder == Some(pid)
      requires cache.bufs[from].data == cache.flat[cache.bufs[from].id]
      requires cache.bufs[to].data == cache.flat[cache.bufs[to].id]
      requires cache.refs[from] == {pid} && cache.refs[to] == {pid}
      modifies cache`order, cache`stamp, cache`clock, cache`refs, cache.bufs, cache.prev, cache.next
      ensures cache.Valid()
      ensures cache.refs == old(cache.refs)[from := {}][to := {}]
      ensures forall i :: 0 <= i < NBUF && i != from && i != to ==> cache.bufs[i] == old(cache.bufs[i])
      ensures cache.bufs[from] == old(cache.bufs[from]).(holder := None, refcnt := 0)
      ensures cache.bufs[to] == old(cache.bufs[to]).(holder := None, refcnt := 0)
    {
      hide BufferCache.Linked, ByRelease, Counted, Unique, Coherent;
      cache.Brelse(from, pid);
      cache.Brelse(to, pid);
      assert cache.refs[from] == {} && cache.refs[to] == {};
    }

    /** begin_op, once admitted. */
    method BeginOp()
      modifies this`outstanding
      ensures outstanding == old(outstanding) + 1
    {
      outstanding := outstanding + 1;
    }

    /** end_op: the last operation out commits. Then the disk is what its users saw,
        and a crash at any moment would have left all of the transaction or none. */
    method EndOp(pid: nat)
      requires Open() && outstanding >= 1 && Clean(l, cache.disk)
      requires outstanding == 1 ==> Quiet(l, cache.bufs[..], cache.refs, Numbers()) && |Busy(cache.refs)| + n < NBUF
      modifies this`n, this`outstanding, cache, cache.bufs, cache.prev, cache.next
      ensures Open() && Clean(l, cache.disk) && outstanding == old(outstanding) - 1
      ensures HomeView(l, cache.flat) == HomeView(l, old(cache.flat))
      ensures outstanding > 0 ==> cache.disk == old(cache.disk) && cache.trace == old(cache.trace) && Numbers() == old(Numbers())
      ensures outstanding > 0 ==> cache.bufs[..] == old(cache.bufs[..]) && cache.flat == old(cache.flat)
      ensures outstanding == 0 ==> n == 0 && cache.flat == cache.disk
      ensures OldThenNew(l, HomeView(l, old(cache.disk)), HomeView(l, old(cache.flat)), old(cache.trace), cache.trace)
      ensures InUseKept(old(cache.bufs[..]), cache.bufs[..], old(cache.refs), cache.refs)
    {
      outstanding := outstanding - 1;
      if outstanding == 0 {
        ghost var d, f, bs, t := cache.disk, cache.flat, Numbers(), cache.trace;
        ghost var data := Contents(l, f, bs);
        SpareForCommit(cache.bufs[..], cache.refs, l, bs);
        NewIsFlat(l, cache.bufs[..], d, f, bs, data);
        Commit(pid, d, bs, data);
        CommitSeen(l, d, HomeView(l, f), bs, data, cache.disk, t, cache.trace);
        EqualWhenClean(cache.bufs[..], cache.disk, cache.flat);
        assert Homes(l, Numbers()) == {};
      }
    }
  }

  /** From log_write to its installation a listed block stays in the cache, valid and
      pinned, so write_log never has to read it. */
  lemma ListedPinned(log: Log, j: nat) returns (i: nat)
    requires log.Open() && j < log.n
    ensures i < NBUF && log.cache.bufs[i].id == log.l.Home(log.block[j])
    ensures log.cache.bufs[i].dirty && log.cache.bufs[i].valid
    ensures log.cache.bufs[i].holder.None? ==> log.cache.bufs[i].data == log.cache.flat[log.l.Home(log.block[j])]
  {
    var id := log.l.Home(log.block[j]);
    assert log.Numbers()[j] == log.block[j] && id in Homes(log.l, log.Numbers());
    assert id in Dirty(log.cache.bufs[..]);
    i :| 0 <= i < NBUF && log.cache.bufs[i].dirty && log.cache.bufs[i].id == id;
  }

  /** Power comes back with `disk` on the device: a new cache, and recovery. The file
      system is what the disk recovers to. */
  method Reboot(disk: Disk, l: Layout, pid: nat) returns (log: Log)
    requires OnDisk(l, disk) && l.dev != 0
    ensures fresh(log) && fresh(log.cache) && log.l == l && log.Open() && Clean(l, log.cache.disk)
    ensures fresh(log.block) && fresh(log.cache.bufs) && fresh(log.cache.prev) && fresh(log.cache.next)
    ensures log.n == 0 && log.outstanding == 0 && log.cache.flat == log.cache.disk && Busy(log.cache.refs) == {}
    ensures HomeView(l, log.cache.flat) == Recovered(l, disk)
    ensures OldThenNew(l, Recovered(l, disk), Recovered(l, disk), [], log.cache.trace)
  {
    var cache := new BufferCache(disk);
    log := new Log(cache, l);
    log.Recover(pid, disk);
    RecoverySeen(l, disk, cache.disk, [], cache.trace);
    EqualWhenClean(cache.bufs[..], cache.disk, cache.flat);
    assert Homes(l, log.Numbers()) == {};
  }
}
