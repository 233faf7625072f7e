/** What the redo log of kernel/log.c does to the disk, one atomic block write at
    a time, and what a crash between any two of those writes leaves behind.

    A disk is a map from block to contents. `CommitAt` is the disk after so many
    writes of commit() and `RecoveryAt` the one after so many of recover_from_log();
    module Log proves that its loops write exactly these, in this order. */
module CrashSpec {
  import opened Options
  import opened Blocks

  const LOGSIZE := 60

  datatype BlockId = BlockId(dev: nat, no: nat)
  type Disk = map<BlockId, Block>

  /** log.dev, log.start and log.size. */
  datatype Layout = Layout(dev: nat, start: nat, size: nat) {
    function Head(): BlockId { BlockId(dev, start) }

    function Slot(i: nat): BlockId { BlockId(dev, start + 1 + i) }

    function Home(no: nat): BlockId { BlockId(dev, no) }

    predicate InLog(id: BlockId) { id.dev == dev && start <= id.no < start + size }

    /** Most blocks one transaction can hold: log_write panics beyond it. */
    function Capacity(): nat {
      if size == 0 then 0 else if size - 1 < LOGSIZE then size - 1 else LOGSIZE
    }
  }

  // ----- the on-disk header -----

  function HeaderCount(b: Block): nat { b[0] }

  /** read_head: the block numbers a header lists. */
  function Header(b: Block): (bs: seq<word>)
    requires HeaderCount(b) <= LOGSIZE
    ensures |bs| == HeaderCount(b)
  {
    b[1..1 + HeaderCount(b)]
  }

  /** The loop of write_head: words 1..k take the first k block numbers. */
  function PutNumbers(b: Block, bs: seq<word>, k: nat): (r: Block)
    requires k <= |bs| <= LOGSIZE
    ensures r[0] == b[0] && r[1..1 + k] == bs[..k]
  {
    if k == 0 then b else PutNumbers(b, bs, k - 1)[k := bs[k - 1]]
  }

  function WriteHeader(b: Block, bs: seq<word>): (r: Block)
    requires |bs| <= LOGSIZE
    ensures HeaderCount(r) == |bs| && Header(r) == bs
  {
    PutNumbers(b[0 := |bs|], bs, |bs|)
  }

  // ----- well-formed disks and transactions -----

  /** Block numbers that may be logged: home blocks of the log's own device. */
  predicate Loggable(l: Layout, disk: set<BlockId>, bs: seq<word>) {
    && |bs| <= l.Capacity()
    && forall i :: 0 <= i < |bs| ==> l.Home(bs[i]) in disk && !l.InLog(l.Home(bs[i]))
  }

  predicate HasLog(l: Layout, disk: set<BlockId>) {
    && l.Head() in disk
    && (forall i :: 0 <= i < l.Capacity() ==> l.Slot(i) in disk)
  }

  predicate OnDisk(l: Layout, d: Disk) {
    && 1 <= l.size
    && HasLog(l, d.Keys)
    && HeaderCount(d[l.Head()]) <= LOGSIZE
    && Loggable(l, d.Keys, Header(d[l.Head()]))
  }

  predicate Clean(l: Layout, d: Disk) {
    OnDisk(l, d) && HeaderCount(d[l.Head()]) == 0
  }

  /** The file system's part of the disk: everything outside the log. */
  function HomeView(l: Layout, d: Disk): (h: Disk) {
    map id | id in d && !l.InLog(id) :: d[id]
  }

  // ----- install, commit, recovery -----

  /** install_trans after k iterations. */
  function Install(l: Layout, d: Disk, bs: seq<word>, k: nat): (r: Disk)
    requires k <= |bs| && HasLog(l, d.Keys) && Loggable(l, d.Keys, bs)
    ensures r.Keys == d.Keys
    ensures forall id :: id in d && l.InLog(id) ==> r[id] == d[id]
  {
    if k == 0 then d else Install(l, d, bs, k - 1)[l.Home(bs[k - 1]) := d[l.Slot(k - 1)]]
  }

  /** What a completed recovery leaves in the file system's part of the disk. */
  function Recovered(l: Layout, d: Disk): (h: Disk)
    requires OnDisk(l, d)
  {
    var bs := Header(d[l.Head()]);
    HomeView(l, Install(l, d, bs, |bs|))
  }

  /** The disk after a final write_head with an empty list. */
  function Cleared(l: Layout, d: Disk): (r: Disk)
    requires HasLog(l, d.Keys)
    ensures r.Keys == d.Keys
    ensures forall id :: id in d && id != l.Head() ==> r[id] == d[id]
    ensures HeaderCount(r[l.Head()]) == 0
  {
    d[l.Head() := WriteHeader(d[l.Head()], [])]
  }

  /** The number of disk writes of recover_from_log. */
  function RecoveryWrites(l: Layout, d: Disk): nat
    requires OnDisk(l, d)
  {
    HeaderCount(d[l.Head()]) + 1
  }

  /** The disk after the first k writes of recover_from_log. */
  function RecoveryAt(l: Layout, d: Disk, k: nat): (r: Disk)
    requires OnDisk(l, d) && k <= RecoveryWrites(l, d)
    ensures r.Keys == d.Keys
  {
    var bs := Header(d[l.Head()]);
    if k <= |bs| then Install(l, d, bs, k) else Cleared(l, Install(l, d, bs, |bs|))
  }

  /** write_log after k iterations. */
  function Logged(l: Layout, d: Disk, data: seq<Block>, k: nat): (r: Disk)
    requires k <= |data|
  {
    if k == 0 then d else Logged(l, d, data, k - 1)[l.Slot(k - 1) := data[k - 1]]
  }

  /** Logging fills the slots and touches nothing else. */
  lemma {:induction false} LoggedFacts(l: Layout, d: Disk, data: seq<Block>, k: nat)
    requires k <= |data| <= l.Capacity() && HasLog(l, d.Keys)
    ensures Logged(l, d, data, k).Keys == d.Keys
    ensures forall i :: 0 <= i < k ==> Logged(l, d, data, k)[l.Slot(i)] == data[i]
    ensures forall id :: id in d && (!l.InLog(id) || id == l.Head()) ==> Logged(l, d, data, k)[id] == d[id]
  {
    if k > 0 {
      LoggedFacts(l, d, data, k - 1);
    }
  }

  /** The disk just after the first write_head of commit: the commit point. */
  function Committed(l: Layout, d: Disk, bs: seq<word>, data: seq<Block>): (r: Disk)
    requires Clean(l, d) && Loggable(l, d.Keys, bs) && |data| == |bs|
    ensures r.Keys == d.Keys && OnDisk(l, r) && Header(r[l.Head()]) == bs
  {
    LoggedFacts(l, d, data, |data|);
    Logged(l, d, data, |data|)[l.Head() := WriteHeader(d[l.Head()], bs)]
  }

  /** The number of disk writes of commit. */
  function CommitWrites(bs: seq<word>): nat {
    if bs == [] then 0 else 2 * |bs| + 2
  }

  /** The disk after the first k writes of commit. */
  function CommitAt(l: Layout, d: Disk, bs: seq<word>, data: seq<Block>, k: nat): (r: Disk)
    requires Clean(l, d) && Loggable(l, d.Keys, bs) && |data| == |bs| && k <= CommitWrites(bs)
    ensures r.Keys == d.Keys
  {
    var n := |bs|;
    LoggedFacts(l, d, data, Cap(k, n));
    if k <= n then Logged(l, d, data, k)
    else
      var c := Committed(l, d, bs, data);
      if k <= 2 * n + 1 then Install(l, c, bs, k - n - 1) else Cleared(l, Install(l, c, bs, n))
  }

  /** The transaction as the file system means it: each home block takes its new contents. */
  function Apply(l: Layout, h: Disk, bs: seq<word>, data: seq<Block>): (r: Disk)
    requires |data| == |bs|
  {
    if bs == [] then h
    else
      var m := |bs| - 1;
      Apply(l, h, bs[..m], data[..m])[l.Home(bs[m]) := data[m]]
  }

  // ----- lemmas -----

  /** Block `id` is one of the first k home blocks of the list. */
  predicate Listed(l: Layout, bs: seq<word>, k: nat, id: BlockId)
    requires k <= |bs|
  {
    id.dev == l.dev && id.no in bs[..k]
  }

  /** Two disks with the same log slots install alike wherever they agree or the list writes. */
  lemma {:induction false} InstallAgree(l: Layout, d: Disk, e: Disk, bs: seq<word>, k: nat, id: BlockId)
    requires k <= |bs|
    requires HasLog(l, d.Keys) && Loggable(l, d.Keys, bs) && d.Keys == e.Keys
    requires forall i :: 0 <= i < |bs| ==> d[l.Slot(i)] == e[l.Slot(i)]
    requires id in d && (Listed(l, bs, k, id) || d[id] == e[id])
    ensures Install(l, d, bs, k)[id] == Install(l, e, bs, k)[id]
  {
    if k > 0 {
      if l.Home(bs[k - 1]) != id {
        assert bs[..k] == bs[..k - 1] + [bs[k - 1]];
        InstallAgree(l, d, e, bs, k - 1, id);
      }
    }
  }

  /** Installing changes only listed home blocks. */
  lemma {:induction false} InstallFrame(l: Layout, d: Disk, bs: seq<word>, k: nat, id: BlockId)
    requires k <= |bs| && HasLog(l, d.Keys) && Loggable(l, d.Keys, bs)
    requires id in d && !Listed(l, bs, k, id)
    ensures Install(l, d, bs, k)[id] == d[id]
  {
    if k > 0 {
      assert bs[..k] == bs[..k - 1] + [bs[k - 1]];
      InstallFrame(l, d, bs, k - 1, id);
    }
  }

  /** A partly installed log, installed again from the start, ends in the same place. */
  lemma InstallRestart(l: Layout, d: Disk, bs: seq<word>, k: nat)
    requires k <= |bs| && HasLog(l, d.Keys) && Loggable(l, d.Keys, bs)
    ensures Install(l, Install(l, d, bs, k), bs, |bs|) == Install(l, d, bs, |bs|)
  {
    var e := Install(l, d, bs, k);
    forall i | 0 <= i < |bs| ensures d[l.Slot(i)] == e[l.Slot(i)] {
      assert l.InLog(l.Slot(i));
    }
    forall id | id in d ensures Install(l, e, bs, |bs|)[id] == Install(l, d, bs, |bs|)[id] {
      if !Listed(l, bs, |bs|, id) {
        InstallFrame(l, d, bs, k, id);
      }
      InstallAgree(l, d, e, bs, |bs|, id);
    }
  }

  lemma HomeViewUpdate(l: Layout, d: Disk, id: BlockId, b: Block)
    requires id in d && !l.InLog(id)
    ensures HomeView(l, d[id := b]) == HomeView(l, d)[id := b]
  {
  }

  lemma ApplyStep(l: Layout, h: Disk, bs: seq<word>, data: seq<Block>, k: nat)
    requires k <= |bs| == |data|
    ensures k == 0 ==> Apply(l, h, bs[..k], data[..k]) == h
    ensures k > 0 ==> Apply(l, h, bs[..k], data[..k]) == Apply(l, h, bs[..k - 1], data[..k - 1])[l.Home(bs[k - 1]) := data[k - 1]]
  {
    if k > 0 {
      assert bs[..k][..k - 1] == bs[..k - 1] && data[..k][..k - 1] == data[..k - 1];
    }
  }

  /** Once the header is on disk, installing performs the transaction. */
  lemma {:induction false} InstallApplies(l: Layout, d: Disk, bs: seq<word>, data: seq<Block>, k: nat)
    requires k <= |bs| == |data| && HasLog(l, d.Keys) && Loggable(l, d.Keys, bs)
    requires forall i :: 0 <= i < |bs| ==> d[l.Slot(i)] == data[i]
    ensures HomeView(l, Install(l, d, bs, k)) == Apply(l, HomeView(l, d), bs[..k], data[..k])
  {
    hide HomeView, Apply;
    ApplyStep(l, HomeView(l, d), bs, data, k);
    if k > 0 {
      InstallApplies(l, d, bs, data, k - 1);
      HomeViewUpdate(l, Install(l, d, bs, k - 1), l.Home(bs[k - 1]), data[k - 1]);
    }
  }

  lemma ClearedKeepsHome(l: Layout, d: Disk)
    requires HasLog(l, d.Keys) && 1 <= l.size
    ensures Clean(l, Cleared(l, d)) && HomeView(l, Cleared(l, d)) == HomeView(l, d)
  {
    assert l.InLog(l.Head());
  }

  lemma CleanRecoversToItself(l: Layout, d: Disk)
    requires Clean(l, d)
    ensures Recovered(l, d) == HomeView(l, d)
  {
  }

  /** Crash during recovery: every intermediate disk still recovers to the same
      file system, and the last one has it in place with an empty log. */
  lemma RecoveryIsRestartable(l: Layout, d: Disk, k: nat)
    requires OnDisk(l, d) && k <= RecoveryWrites(l, d)
    ensures OnDisk(l, RecoveryAt(l, d, k)) && Recovered(l, RecoveryAt(l, d, k)) == Recovered(l, d)
    ensures k == RecoveryWrites(l, d) ==>
              Clean(l, RecoveryAt(l, d, k)) && HomeView(l, RecoveryAt(l, d, k)) == Recovered(l, d)
  {
    var bs := Header(d[l.Head()]);
    assert l.InLog(l.Head());
    if k <= |bs| {
      InstallRestart(l, d, bs, k);
    } else {
      var e := Install(l, d, bs, |bs|);
      ClearedKeepsHome(l, e);
      CleanRecoversToItself(l, Cleared(l, e));
    }
  }

  /** Crash atomicity of commit: after any number of its disk writes the disk
      recovers to the whole old state or the whole new state, and to the new one
      exactly when the first header write, write |bs| + 1, has reached the disk. */
  lemma CommitIsAtomic(l: Layout, d: Disk, bs: seq<word>, data: seq<Block>, k: nat)
    requires Clean(l, d) && Loggable(l, d.Keys, bs) && |data| == |bs|
    requires k <= CommitWrites(bs)
    ensures OnDisk(l, CommitAt(l, d, bs, data, k))
    ensures Recovered(l, CommitAt(l, d, bs, data, k)) ==
            if k <= |bs| then HomeView(l, d) else Apply(l, HomeView(l, d), bs, data)
    ensures k == CommitWrites(bs) ==>
              Clean(l, CommitAt(l, d, bs, data, k))
              && HomeView(l, CommitAt(l, d, bs, data, k)) == Apply(l, HomeView(l, d), bs, data)
  {
    var n := |bs|;
    if k <= n {
      BeforeCommitPoint(l, d, data, k);
      assert n == 0 ==> Apply(l, HomeView(l, d), bs, data) == HomeView(l, d);
      hide HomeView, Logged, Recovered, Apply;
    } else {
      var c := Committed(l, d, bs, data);
      CommittedHeader(l, d, bs, data);
      hide HomeView, Install, Recovered, Apply, Cleared, Logged, Header, Committed, OnDisk, Clean;
      CommittedRecoversNew(l, d, bs, data);
      RecoveryIsRestartable(l, c, if k <= 2 * n + 1 then k - n - 1 else n + 1);
    }
  }

  /** Once the header is on disk, the rest of commit writes what recovery would. */
  lemma CommittedHeader(l: Layout, d: Disk, bs: seq<word>, data: seq<Block>)
    requires Clean(l, d) && Loggable(l, d.Keys, bs) && |data| == |bs|
    ensures var c := Committed(l, d, bs, data);
            && OnDisk(l, c) && RecoveryWrites(l, c) == |bs| + 1
            && forall k :: |bs| < k <= CommitWrites(bs) ==> CommitAt(l, d, bs, data, k) == RecoveryAt(l, c, k - |bs| - 1)
  {
  }

  lemma BeforeCommitPoint(l: Layout, d: Disk, data: seq<Block>, k: nat)
    requires Clean(l, d) && k <= |data| <= l.Capacity()
    ensures Logged(l, d, data, k).Keys == d.Keys && Clean(l, Logged(l, d, data, k))
    ensures HomeView(l, Logged(l, d, data, k)) == HomeView(l, d)
    ensures Recovered(l, Logged(l, d, data, k)) == HomeView(l, d)
  {
    LoggedFacts(l, d, data, k);
    CleanRecoversToItself(l, Logged(l, d, data, k));
  }

  lemma CommittedRecoversNew(l: Layout, d: Disk, bs: seq<word>, data: seq<Block>)
    requires Clean(l, d) && Loggable(l, d.Keys, bs) && |data| == |bs|
    ensures Recovered(l, Committed(l, d, bs, data)) == Apply(l, HomeView(l, d), bs, data)
  {
    var c := Committed(l, d, bs, data);
    LoggedFacts(l, d, data, |data|);
    assert HomeView(l, c) == HomeView(l, d);
    InstallApplies(l, c, bs, data, |bs|);
    assert bs[..|bs|] == bs && data[..|bs|] == data;
  }

  // ----- whole histories -----

  /** One transaction of a history. `crash == None` means commit ran to its end.
      Otherwise the machine stopped after `crash.value` of commit's disk writes,
      and then `reboots[i]` writes into the i-th attempt to recover; the attempt
      after those ran to its end. A count past the last write means the last. */
  datatype Event = Event(bs: seq<word>, data: seq<Block>, crash: Option<nat>, reboots: seq<nat>) {
    /** The first header write reached the disk. */
    predicate Durable() { crash.None? || |bs| < crash.value }
  }

  predicate EventOk(l: Layout, disk: set<BlockId>, e: Event) {
    Loggable(l, disk, e.bs) && |e.data| == |e.bs|
  }

  function Cap(k: nat, limit: nat): nat { if k < limit then k else limit }

  /** Interrupted recoveries, one per reboot, then a complete one. */
  function Reboot(l: Layout, d: Disk, reboots: seq<nat>): (r: Disk)
    requires OnDisk(l, d)
    ensures Clean(l, r) && r.Keys == d.Keys && HomeView(l, r) == Recovered(l, d)
    decreases |reboots|
  {
    var last := RecoveryWrites(l, d);
    if reboots == [] then
      RecoveryIsRestartable(l, d, last);
      RecoveryAt(l, d, last)
    else
      RecoveryIsRestartable(l, d, Cap(reboots[0], last));
      Reboot(l, RecoveryAt(l, d, Cap(reboots[0], last)), reboots[1..])
  }

  function RunEvent(l: Layout, d: Disk, e: Event): (r: Disk)
    requires Clean(l, d) && EventOk(l, d.Keys, e)
    ensures Clean(l, r) && r.Keys == d.Keys
  {
    var last := CommitWrites(e.bs);
    if e.crash.None? then
      CommitIsAtomic(l, d, e.bs, e.data, last);
      CommitAt(l, d, e.bs, e.data, last)
    else
      CommitIsAtomic(l, d, e.bs, e.data, Cap(e.crash.value, last));
      Reboot(l, CommitAt(l, d, e.bs, e.data, Cap(e.crash.value, last)), e.reboots)
  }

  function Run(l: Layout, d: Disk, es: seq<Event>): (r: Disk)
    requires Clean(l, d) && forall i :: 0 <= i < |es| ==> EventOk(l, d.Keys, es[i])
    ensures Clean(l, r) && r.Keys == d.Keys
  {
    if es == [] then d
    else
      var m := |es| - 1;
      RunEvent(l, Run(l, d, es[..m]), es[m])
  }

  /** The history the file system should see: durable transactions, in order, whole. */
  function ApplyDurable(l: Layout, h: Disk, es: seq<Event>): (r: Disk)
    requires forall i :: 0 <= i < |es| ==> |es[i].data| == |es[i].bs|
  {
    if es == [] then h
    else
      var m := |es| - 1;
      var prior := ApplyDurable(l, h, es[..m]);
      if es[m].Durable() then Apply(l, prior, es[m].bs, es[m].data) else prior
  }

  lemma EventIsAtomic(l: Layout, d: Disk, e: Event)
    requires Clean(l, d) && EventOk(l, d.Keys, e)
    ensures HomeView(l, RunEvent(l, d, e)) ==
            if e.Durable() then Apply(l, HomeView(l, d), e.bs, e.data) else HomeView(l, d)
  {
    var last := CommitWrites(e.bs);
    CommitIsAtomic(l, d, e.bs, e.data, if e.crash.None? then last else Cap(e.crash.value, last));
  }

  /** Whatever transactions run and wherever the machine crashes, in commit or in
      any number of recoveries, the file system ends as the durable transactions
      applied in order: no lost one, no torn one. */
  lemma {:induction false} HistoryIsAtomic(l: Layout, d: Disk, es: seq<Event>)
    requires Clean(l, d) && forall i :: 0 <= i < |es| ==> EventOk(l, d.Keys, es[i])
    ensures HomeView(l, Run(l, d, es)) == ApplyDurable(l, HomeView(l, d), es)
  {
    if es != [] {
      var m := |es| - 1;
      HistoryIsAtomic(l, d, es[..m]);
      EventIsAtomic(l, Run(l, d, es[..m]), es[m]);
    }
  }
}
