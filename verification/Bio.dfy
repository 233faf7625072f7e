/** The buffer cache of kernel/bio.c over an atomic disk.

    The invariant holds between any two critical sections of the source: bget's
    and brelse's, under bcache.lock, and those of a buffer's sleep-lock holder. So
    it holds in every interleaving of `Bget`, `Lock`, `Fill`, `Store`, `Pin`,
    `Bwrite`, `Unlock` and `Drop` by many processes; `Bread` and `Brelse` are the
    sequences of them that one process goes through. */
module Bio {
  import opened Options
  import opened Blocks
  import opened CrashSpec
  import opened Ring

  const NBUF := 60
  const HEAD: nat := NBUF

  datatype Buf = Buf(id: BlockId, valid: bool, dirty: bool, refcnt: nat, holder: Option<nat>, data: Block)

  /** What bread comes to: a panic, a buffer whose sleep-lock another process has,
      or a locked buffer. */
  datatype Fetch = NoBuffers | Wait(b: nat) | Got(b: nat)

  predicate Idle(b: Buf) { b.refcnt == 0 && !b.dirty }

  /** A block of a real device is cached at most once. */
  ghost predicate Unique(bufs: seq<Buf>) {
    forall i, j :: 0 <= i < j < |bufs| && bufs[i].id.dev != 0 ==> bufs[i].id != bufs[j].id
  }

  ghost predicate Pinned(bufs: seq<Buf>, id: BlockId) {
    exists i :: 0 <= i < |bufs| && bufs[i].dirty && bufs[i].id == id
  }

  /** `flat` is the disk as its users see it: the bytes last written to each block. */
  ghost predicate Coherent(bufs: seq<Buf>, disk: Disk, flat: Disk) {
    && disk.Keys == flat.Keys
    && (forall i :: 0 <= i < |bufs| && bufs[i].dirty ==> bufs[i].valid)
    && (forall i :: 0 <= i < |bufs| && bufs[i].valid ==> bufs[i].id in disk && bufs[i].id.dev != 0)
    && (forall i :: 0 <= i < |bufs| && bufs[i].valid && bufs[i].holder.None? ==>
          bufs[i].data == flat[bufs[i].id])
    && (forall id :: id in disk && disk[id] != flat[id] ==> Pinned(bufs, id))
  }

  ghost predicate Counted(bufs: seq<Buf>, refs: seq<set<nat>>) {
    && |refs| == |bufs|
    && (forall i :: 0 <= i < |bufs| ==> bufs[i].refcnt == |refs[i]|)
    && (forall i :: 0 <= i < |bufs| && bufs[i].holder.Some? ==> bufs[i].holder.value in refs[i])
  }

  /** Most recently released first. */
  ghost predicate ByRelease(order: seq<nat>, stamp: seq<nat>, clock: nat) {
    && |order| == |stamp|
    && (forall j :: 0 <= j < |order| ==> order[j] < |stamp| && stamp[order[j]] <= clock)
    && (forall j, k :: 0 <= j < k < |order| ==> stamp[order[j]] > stamp[order[k]])
  }

  /** The buffer released last has the newest stamp and goes first; the rest keep their order. */
  lemma Restamped(order: seq<nat>, stamp: seq<nat>, clock: nat, i: nat)
    requires ByRelease(order, stamp, clock) && Distinct(order) && i < |order|
    ensures |stamp| == |order| == |[order[i]] + Without(order, i)| && order[i] < |stamp|
    ensures ByRelease([order[i]] + Without(order, i), stamp[order[i] := clock + 1], clock + 1)
  {
    var r := Without(order, i);
    assert forall j :: 0 <= j < |r| ==> r[j] == order[if j < i then j else j + 1];
  }

  ghost predicate MovedToFront(order: seq<nat>, order': seq<nat>, b: nat) {
    exists i :: 0 <= i < |order| && order[i] == b && order' == [b] + Without(order, i)
  }

  /** A valid buffer keeps its data; an invalid one gets the block's. */
  ghost function Filled(b: Buf, flat: Disk): Buf
    requires b.id in flat
  {
    if b.valid then b else b.(valid := true, data := flat[b.id])
  }

  /** A block whose only buffer is invalid is up to date on disk. */
  lemma Unpinned(bufs: seq<Buf>, disk: Disk, flat: Disk, b: nat)
    requires Unique(bufs) && Coherent(bufs, disk, flat)
    requires b < |bufs| && !bufs[b].valid && bufs[b].id in disk && bufs[b].id.dev != 0
    ensures disk[bufs[b].id] == flat[bufs[b].id]
  {
  }

  /** The holder of a buffer may change it as long as what it releases, pins or
      writes out agrees with `flat`, and no other block's contents move. */
  lemma Rewritten(bufs: seq<Buf>, refs: seq<set<nat>>, disk: Disk, disk': Disk, flat: Disk, flat': Disk,
                  b: nat, x: Buf)
    requires b < |bufs| && Unique(bufs) && Coherent(bufs, disk, flat) && Counted(bufs, refs)
    requires x.id == bufs[b].id && x.refcnt == bufs[b].refcnt
    requires x.holder.Some? ==> x.holder.value in refs[b]
    requires x.dirty ==> x.valid
    requires x.valid ==> x.id in disk && x.id.dev != 0
    requires disk'.Keys == disk.Keys && flat'.Keys == flat.Keys
    requires x.valid && x.holder.None? ==> x.data == flat'[x.id]
    requires forall id :: id in disk && id != x.id ==> disk'[id] == disk[id] && flat'[id] == flat[id]
    requires x.id in disk && !x.dirty ==>
               disk'[x.id] == flat'[x.id]
               || (!bufs[b].dirty && disk'[x.id] == disk[x.id] && flat'[x.id] == flat[x.id])
    requires x.id.dev == 0 ==> disk' == disk && flat' == flat
    ensures var bufs' := bufs[b := x];
            Unique(bufs') && Coherent(bufs', disk', flat') && Counted(bufs', refs)
  {
    var bufs' := bufs[b := x];
    forall id | id in disk' && disk'[id] != flat'[id] ensures Pinned(bufs', id) {
      if id == x.id && x.dirty {
        assert bufs'[b].dirty;
      } else {
        assert disk[id] != flat[id];
        var i :| 0 <= i < |bufs| && bufs[i].dirty && bufs[i].id == id;
        assert bufs'[i].dirty && bufs'[i].id == id;
      }
    }
    forall i | 0 <= i < |bufs'| && bufs'[i].valid && bufs'[i].holder.None?
      ensures bufs'[i].data == flat'[bufs'[i].id]
    {
      if i != b {
        assert bufs[i].id != x.id || x.id.dev == 0;
      }
    }
  }

  /** A reference goes, not that of the lock's holder. */
  lemma Dropped(bufs: seq<Buf>, refs: seq<set<nat>>, disk: Disk, flat: Disk, b: nat, pid: nat)
    requires b < |bufs| && Unique(bufs) && Coherent(bufs, disk, flat) && Counted(bufs, refs)
    requires pid in refs[b] && bufs[b].holder != Some(pid)
    ensures bufs[b].refcnt > 0
    ensures var bufs' := bufs[b := bufs[b].(refcnt := bufs[b].refcnt - 1)];
            Unique(bufs') && Coherent(bufs', disk, flat) && Counted(bufs', refs[b := refs[b] - {pid}])
  {
    var bufs' := bufs[b := bufs[b].(refcnt := bufs[b].refcnt - 1)];
    forall id | id in disk && disk[id] != flat[id] ensures Pinned(bufs', id) {
      var i :| 0 <= i < |bufs| && bufs[i].dirty && bufs[i].id == id;
      assert bufs'[i].dirty && bufs'[i].id == id;
    }
  }

  /** The buffer bget hands out: one more reference, refilled if it held another block. */
  function Gotten(b: Buf, id: BlockId): Buf {
    if b.id == id then b.(refcnt := b.refcnt + 1)
    else b.(id := id, valid := false, dirty := false, refcnt := 1)
  }

  /** An idle buffer has no holder, so the lock bread finds taken is that of the
      block's own buffer. */
  lemma NotHeld(bufs: seq<Buf>, id: BlockId, b: nat)
    requires b < |bufs| && Unique(bufs) && id.dev != 0
    requires bufs[b].id == id || (Idle(bufs[b]) && bufs[b].holder.None? && forall i :: 0 <= i < |bufs| ==> bufs[i].id != id)
    ensures (exists i :: 0 <= i < |bufs| && bufs[i].id == id && bufs[i].holder.Some?) <==> Gotten(bufs[b], id).holder.Some?
  {
  }

  /** A ring of NBUF distinct buffers has every buffer on it. */
  lemma OnRing(order: seq<nat>, i: nat)
    requires |order| == NBUF && Distinct(order) && i < NBUF
    requires forall j :: 0 <= j < NBUF ==> order[j] < NBUF
    ensures i in order
  {
    if i !in order {
      DistinctBound([i] + order, NBUF);
    }
  }

  lemma Position(prev: seq<nat>, next: seq<nat>, order: seq<nat>, b: nat) returns (i: nat)
    requires IsRing(prev, next, HEAD, order) && |order| == NBUF && b < NBUF
    ensures i < NBUF && order[i] == b && Distinct(order)
  {
    OnRing(order, b);
    i :| 0 <= i < NBUF && order[i] == b;
  }

  lemma NotWithout(order: seq<nat>, i: nat)
    requires Distinct(order) && i < |order|
    ensures order[i] !in Without(order, i)
  {
  }

  /** Everything behind the last idle buffer of the ring is busy, so it is the oldest. */
  lemma Oldest(order: seq<nat>, stamp: seq<nat>, clock: nat, bufs: seq<Buf>, k: nat)
    requires |order| == |bufs| == NBUF && k < NBUF && Distinct(order) && ByRelease(order, stamp, clock)
    requires forall j :: k < j < NBUF ==> !Idle(bufs[order[j]])
    ensures forall i :: 0 <= i < NBUF && i != order[k] && Idle(bufs[i]) ==> stamp[order[k]] < stamp[i]
  {
    forall i | 0 <= i < NBUF && i != order[k] && Idle(bufs[i]) ensures stamp[order[k]] < stamp[i] {
      OnRing(order, i);
    }
  }

  /** Handing out a cached block, or an idle buffer for an uncached one, keeps the cache sound. */
  lemma Referenced(bufs: seq<Buf>, refs: seq<set<nat>>, disk: Disk, flat: Disk, b: nat, id: BlockId, pid: nat)
    requires b < |bufs| && Unique(bufs) && Coherent(bufs, disk, flat) && Counted(bufs, refs)
    requires id.dev != 0 && pid !in refs[b]
    requires bufs[b].id == id || (Idle(bufs[b]) && forall i :: 0 <= i < |bufs| ==> bufs[i].id != id)
    ensures var bufs' := bufs[b := Gotten(bufs[b], id)];
            Unique(bufs') && Coherent(bufs', disk, flat) && Counted(bufs', refs[b := refs[b] + {pid}])
  {
    var bufs' := bufs[b := Gotten(bufs[b], id)];
    forall x | x in disk && disk[x] != flat[x] ensures Pinned(bufs', x) {
      var i :| 0 <= i < |bufs| && bufs[i].dirty && bufs[i].id == x;
      assert bufs'[i].dirty && bufs'[i].id == x;
    }
  }

  class BufferCache {
    const prev: array<nat>
    const next: array<nat>
    const bufs: array<Buf>
    var disk: Disk

    ghost var order: seq<nat>       // the ring, head.next first
    ghost var stamp: seq<nat>       // when each buffer was last released by its last user
    ghost var clock: nat
    ghost var refs: seq<set<nat>>   // the processes counted by each refcnt
    ghost var flat: Disk
    ghost var trace: seq<Disk>      // the disk after every write

    ghost predicate Linked()
      reads this, prev, next
    {
      && prev != next && prev.Length == next.Length == NBUF + 1
      && |order| == NBUF
      && IsRing(prev[..], next[..], HEAD, order)
    }

    ghost predicate Valid()
      reads this, prev, next, bufs
    {
      && Linked()
      && ByRelease(order, stamp, clock)
      && bufs.Length == |refs| == NBUF
      && Unique(bufs[..])
      && Coherent(bufs[..], disk, flat)
      && Counted(bufs[..], refs)
    }

    /** binit, then the ring holds the buffers in reverse order of their addresses. */
    constructor (disk: Disk)
      ensures Valid() && fresh(prev) && fresh(next) && fresh(bufs)
      ensures this.disk == disk && flat == disk && trace == []
      ensures forall i :: 0 <= i < NBUF ==> Idle(bufs[i]) && !bufs[i].valid
    {
      prev := new nat[NBUF + 1](_ => HEAD);
      next := new nat[NBUF + 1](_ => HEAD);
      bufs := new Buf[NBUF](_ => Buf(BlockId(0, 0), false, false, 0, None, ZeroBlock()));
      this.disk := disk;
      flat := disk;
      trace := [];
      order := [];
      stamp := seq(NBUF, i => i);
      clock := NBUF;
      refs := seq(NBUF, i => {});
      new;
      var b := 0;
      while b < NBUF
        invariant 0 <= b <= NBUF
        invariant prev != next && prev.Length == next.Length == NBUF + 1
        invariant |order| == b && forall j :: 0 <= j < b ==> order[j] == b - 1 - j
        invariant IsRing(prev[..], next[..], HEAD, order)
        invariant fresh(prev) && fresh(next) && fresh(bufs)
        invariant bufs.Length == NBUF && this.disk == disk && flat == disk && trace == []
        invariant forall i :: 0 <= i < NBUF ==>
                    bufs[i] == Buf(BlockId(0, 0), false, false, 0, None, ZeroBlock())
        invariant |stamp| == NBUF && (forall i :: 0 <= i < NBUF ==> stamp[i] == i) && clock == NBUF
        invariant |refs| == NBUF && forall i :: 0 <= i < NBUF ==> refs[i] == {}
        modifies this`order, prev, next
      {
        PushFront(b);
        b := b + 1;
      }
    }

    method PushFront(b: nat)
      requires prev != next && prev.Length == next.Length == NBUF + 1
      requires IsRing(prev[..], next[..], HEAD, order) && b < HEAD && b !in order
      modifies this`order, prev, next
      ensures order == [b] + old(order) && IsRing(prev[..], next[..], HEAD, order)
    {
      PushRing(prev[..], next[..], HEAD, order, b);
      next[b] := next[HEAD];
      prev[b] := HEAD;
      prev[next[HEAD]] := b;
      next[HEAD] := b;
      order := [b] + order;
    }

    /** bget: find the block in the cache, else recycle the idle buffer released
        longest ago. `None` is the panic "bget: no buffers". */
    method Bget(id: BlockId, pid: nat) returns (r: Option<nat>)
      requires Valid() && id.dev != 0
      requires forall i :: 0 <= i < NBUF && bufs[i].id == id ==> pid !in refs[i]
      modifies bufs, this`refs
      ensures Valid()
      ensures r.None? ==> bufs[..] == old(bufs[..]) && refs == old(refs)
      ensures r.None? ==> forall i :: 0 <= i < NBUF ==> bufs[i].id != id && !Idle(bufs[i])
      ensures r.Some? ==> r.value < NBUF && refs == old(refs)[r.value := old(refs)[r.value] + {pid}]
      ensures r.Some? ==> bufs[..] == old(bufs[..])[r.value := Gotten(old(bufs[r.value]), id)]
      ensures r.Some? && old(bufs[r.value]).id != id ==>
                && old(Idle(bufs[r.value]))
                && (forall i :: 0 <= i < NBUF ==> old(bufs[i]).id != id)
                && (forall i :: 0 <= i < NBUF && i != r.value && old(Idle(bufs[i])) ==>
                      stamp[r.value] < stamp[i])
    {
      var b := ScanCached(id);
      if b == HEAD {
        b := ScanIdle();
        if b == HEAD { return None; }
      }
      Referenced(bufs[..], refs, disk, flat, b, id, pid);
      bufs[b] := Gotten(bufs[b], id);
      refs := refs[b := refs[b] + {pid}];
      return Some(b);
    }

    /** First loop of bget: walk `next` from the head, looking for the block. */
    method ScanCached(id: BlockId) returns (b: nat)
      requires Linked() && bufs.Length == NBUF
      ensures b <= HEAD && (b < HEAD ==> bufs[b].id == id)
      ensures b == HEAD ==> forall i :: 0 <= i < NBUF ==> bufs[i].id != id
    {
      ghost var w := Walk(HEAD, order);
      b := next[HEAD];
      ghost var k := 1;
      assert w[0] == HEAD && next[w[0]] == w[1];
      while b != HEAD
        invariant 1 <= k <= NBUF + 1 && b == w[k]
        invariant forall j :: 0 <= j < k - 1 ==> bufs[order[j]].id != id
        decreases NBUF + 1 - k
      {
        assert b == order[k - 1];
        if bufs[b].id == id {
          return;
        }
        assert next[w[k]] == w[k + 1];
        b := next[b];
        k := k + 1;
      }
      forall i | 0 <= i < NBUF ensures bufs[i].id != id {
        OnRing(order, i);
      }
    }

    /** Second loop of bget: walk `prev` from the head, looking for an idle buffer. */
    method ScanIdle() returns (b: nat)
      requires Linked() && bufs.Length == NBUF && ByRelease(order, stamp, clock)
      ensures b <= HEAD && (b < HEAD ==> Idle(bufs[b]))
      ensures b < HEAD ==> forall i :: 0 <= i < NBUF && i != b && Idle(bufs[i]) ==> stamp[b] < stamp[i]
      ensures b == HEAD ==> forall i :: 0 <= i < NBUF ==> !Idle(bufs[i])
    {
      ghost var w := Walk(HEAD, order);
      b := prev[HEAD];
      ghost var k := NBUF;
      assert w[NBUF + 1] == HEAD && next[w[NBUF]] == w[NBUF + 1];
      while b != HEAD
        invariant 0 <= k <= NBUF && b == w[k]
        invariant forall j :: k <= j < NBUF ==> !Idle(bufs[order[j]])
        decreases k
      {
        assert b == order[k - 1];
        if Idle(bufs[b]) {
          Oldest(order, stamp, clock, bufs[..], k - 1);
          return;
        }
        assert next[w[k - 1]] == w[k];
        b := prev[b];
        k := k - 1;
      }
      forall i | 0 <= i < NBUF ensures !Idle(bufs[i]) {
        OnRing(order, i);
      }
    }

    /** acquiresleep(&b->lock), once the lock is free. */
    method Lock(b: nat, pid: nat)
      requires Valid() && b < NBUF && pid in refs[b] && bufs[b].holder.None?
      modifies bufs
      ensures Valid() && bufs[..] == old(bufs[..])[b := old(bufs[b]).(holder := Some(pid))]
    {
      Rewritten(bufs[..], refs, disk, disk, flat, flat, b, bufs[b].(holder := Some(pid)));
      bufs[b] := bufs[b].(holder := Some(pid));
    }

    /** The read half of iderw: fill a buffer that bget recycled. */
    method Fill(b: nat, pid: nat)
      requires Valid() && b < NBUF && bufs[b].holder == Some(pid)
      requires bufs[b].id in disk && bufs[b].id.dev != 0
      modifies bufs
      ensures Valid()
      ensures bufs[..] == old(bufs[..])[b := Filled(old(bufs[b]), flat)]
    {
      if !bufs[b].valid {
        Unpinned(bufs[..], disk, flat, b);
        Rewritten(bufs[..], refs, disk, disk, flat, flat, b, bufs[b].(valid := true, data := disk[bufs[b].id]));
        bufs[b] := bufs[b].(valid := true, data := disk[bufs[b].id]);
      }
    }

    /** bread: the locked buffer holds the bytes last written to the block. When
        another process has the buffer locked, a reference is taken and `Resume`
        is what follows once the lock is free. */
    method Bread(id: BlockId, pid: nat) returns (r: Fetch)
      requires Valid() && id.dev != 0 && id in disk
      requires forall i :: 0 <= i < NBUF && bufs[i].id == id ==> pid !in refs[i]
      modifies bufs, this`refs
      ensures Valid()
      ensures r.NoBuffers? ==> bufs[..] == old(bufs[..]) && refs == old(refs)
      ensures r.NoBuffers? <==> old(forall i :: 0 <= i < NBUF ==> bufs[i].id != id && !Idle(bufs[i]))
      ensures r.Wait? <==> old(exists i :: 0 <= i < NBUF && bufs[i].id == id && bufs[i].holder.Some?)
      ensures !r.NoBuffers? ==> r.b < NBUF && refs == old(refs)[r.b := old(refs)[r.b] + {pid}]
      ensures !r.NoBuffers? ==> old(bufs[r.b].id == id || (Idle(bufs[r.b]) && refs[r.b] == {}))
      ensures r.Wait? ==> old(bufs[r.b]).id == id && old(bufs[r.b]).holder.Some?
                          && bufs[..] == old(bufs[..])[r.b := old(bufs[r.b]).(refcnt := old(bufs[r.b]).refcnt + 1)]
      ensures r.Got? ==>
                bufs[..] == old(bufs[..])[r.b :=
                  Buf(id, true, old(bufs[r.b]).dirty, old(bufs[r.b]).refcnt + 1, Some(pid), flat[id])]
    {
      ghost var bufs0 := bufs[..];
      var o := Bget(id, pid);
      if o.None? {
        return NoBuffers;
      }
      var b := o.value;
      NotHeld(bufs0, id, b);
      if bufs[b].holder.Some? {
        return Wait(b);
      }
      Resume(b, pid);
      r := Got(b);
    }

    /** The rest of bread, once the sleep-lock is free. */
    method Resume(b: nat, pid: nat)
      requires Valid() && b < NBUF && pid in refs[b] && bufs[b].holder.None? && bufs[b].id in disk && bufs[b].id.dev != 0
      modifies bufs
      ensures Valid()
      ensures bufs[..] == old(bufs[..])[b := old(bufs[b]).(valid := true, holder := Some(pid), data := flat[old(bufs[b]).id])]
    {
      Lock(b, pid);
      Fill(b, pid);
    }

    /** The lock holder changes b->data in memory. */
    method Store(b: nat, pid: nat, data: Block)
      requires Valid() && b < NBUF && bufs[b].holder == Some(pid)
      modifies bufs
      ensures Valid() && bufs[..] == old(bufs[..])[b := old(bufs[b]).(data := data)]
    {
      Rewritten(bufs[..], refs, disk, disk, flat, flat, b, bufs[b].(data := data));
      bufs[b] := bufs[b].(data := data);
    }

    /** What log_write does to the buffer: pin it with B_DIRTY. From here on its
        contents are the block's contents. */
    method Pin(b: nat, pid: nat)
      requires Valid() && b < NBUF && bufs[b].holder == Some(pid) && bufs[b].valid
      modifies bufs, this`flat
      ensures Valid() && bufs[..] == old(bufs[..])[b := old(bufs[b]).(dirty := true)]
      ensures flat == old(flat)[bufs[b].id := bufs[b].data]
    {
      ghost var flat' := flat[bufs[b].id := bufs[b].data];
      Rewritten(bufs[..], refs, disk, disk, flat, flat', b, bufs[b].(dirty := true));
      flat := flat';
      bufs[b] := bufs[b].(dirty := true);
    }

    /** bwrite: one atomic write of the buffer to the disk. */
    method Bwrite(b: nat, pid: nat)
      requires Valid() && b < NBUF && bufs[b].holder == Some(pid)
      requires bufs[b].id in disk && bufs[b].id.dev != 0
      modifies bufs, this`disk, this`flat, this`trace
      ensures Valid()
      ensures bufs[..] == old(bufs[..])[b := old(bufs[b]).(valid := true, dirty := false)]
      ensures disk == old(disk)[bufs[b].id := bufs[b].data]
      ensures flat == old(flat)[bufs[b].id := bufs[b].data]
      ensures trace == old(trace) + [disk]
    {
      var disk' := disk[bufs[b].id := bufs[b].data];
      ghost var flat' := flat[bufs[b].id := bufs[b].data];
      Rewritten(bufs[..], refs, disk, disk', flat, flat', b, bufs[b].(valid := true, dirty := false));
      disk := disk';
      flat := flat';
      trace := trace + [disk];
      bufs[b] := bufs[b].(valid := true, dirty := false);
    }

    /** releasesleep(&b->lock). The data must be what the block holds: a holder that
        changed it has logged or written it. */
    method Unlock(b: nat, pid: nat)
      requires Valid() && b < NBUF && bufs[b].holder == Some(pid)
      requires bufs[b].valid ==> bufs[b].data == flat[bufs[b].id]
      modifies bufs
      ensures Valid() && bufs[..] == old(bufs[..])[b := old(bufs[b]).(holder := None)]
    {
      Rewritten(bufs[..], refs, disk, disk, flat, flat, b, bufs[b].(holder := None));
      bufs[b] := bufs[b].(holder := None);
    }

    /** brelse under bcache.lock: the reference goes and, when it was the last, the
        buffer moves to the front of the ring. Another process may have locked the
        buffer by now. */
    method Drop(b: nat, pid: nat)
      requires Valid() && b < NBUF && pid in refs[b] && bufs[b].holder != Some(pid)
      modifies this`order, this`stamp, this`clock, this`refs, prev, next, bufs
      ensures Valid()
      ensures refs == old(refs)[b := old(refs)[b] - {pid}] && (bufs[b].refcnt == 0 <==> refs[b] == {})
      ensures old(bufs[b]).refcnt > 0 && bufs[..] == old(bufs[..])[b := old(bufs[b]).(refcnt := old(bufs[b]).refcnt - 1)]
      ensures if bufs[b].refcnt > 0 then order == old(order) && stamp == old(stamp)
              else MovedToFront(old(order), order, b) && clock > old(clock) && stamp == old(stamp)[b := clock]
    {
      Dropped(bufs[..], refs, disk, flat, b, pid);
      bufs[b] := bufs[b].(refcnt := bufs[b].refcnt - 1);
      refs := refs[b := refs[b] - {pid}];
      if bufs[b].refcnt == 0 {
        Requeue(b);
      }
    }

    /** brelse, with no step of another process between its two sections. */
    method Brelse(b: nat, pid: nat)
      requires Valid() && b < NBUF && bufs[b].holder == Some(pid)
      requires bufs[b].valid ==> bufs[b].data == flat[bufs[b].id]
      modifies this`order, this`stamp, this`clock, this`refs, prev, next, bufs
      ensures Valid()
      ensures refs == old(refs)[b := old(refs)[b] - {pid}] && (bufs[b].refcnt == 0 <==> refs[b] == {})
      ensures bufs[..] == old(bufs[..])[b := old(bufs[b]).(holder := None, refcnt := old(bufs[b]).refcnt - 1)]
      ensures if bufs[b].refcnt > 0 then order == old(order) && stamp == old(stamp)
              else MovedToFront(old(order), order, b) && clock > old(clock) && stamp == old(stamp)[b := clock]
    {
      assert pid in refs[b];
      hide Linked, Unique, Coherent, ByRelease, MovedToFront;
      Unlock(b, pid);
      Drop(b, pid);
    }

    /** The relinking of brelse. */
    method Requeue(b: nat)
      requires Linked() && ByRelease(order, stamp, clock) && b < NBUF
      modifies this`order, this`stamp, this`clock, prev, next
      ensures Linked() && ByRelease(order, stamp, clock)
      ensures MovedToFront(old(order), order, b)
      ensures clock == old(clock) + 1 && stamp == old(stamp)[b := clock]
    {
      hide IsRing, ByRelease, Without, Distinct;
      ghost var i := Position(prev[..], next[..], order, b);
      ghost var was := order;
      Restamped(order, stamp, clock, i);
      Unlink(b, i);
      NotWithout(was, i);
      PushFront(b);
      assert MovedToFront(was, order, b);
      clock := clock + 1;
      stamp := stamp[b := clock];
    }

    method Unlink(b: nat, ghost i: nat)
      requires prev != next && prev.Length == next.Length == NBUF + 1
      requires IsRing(prev[..], next[..], HEAD, order) && i < |order| && order[i] == b
      modifies this`order, prev, next
      ensures order == Without(old(order), i) && IsRing(prev[..], next[..], HEAD, order)
    {
      UnlinkRing(prev[..], next[..], HEAD, order, i);
      prev[next[b]] := prev[b];
      next[prev[b]] := next[b];
      order := Without(order, i);
    }
  }
}
