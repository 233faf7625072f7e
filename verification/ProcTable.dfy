/** The process table of kernel/proc.c: its entries, and the loops over it that
    run under ptable.lock (wakeup1, the reparenting in exit, the searches of
    allocproc and wait), each proved equal to a function of the table. */
module ProcTable {
  import opened Options

  const INIT := 0                  // initproc is the first process allocated

  type Slot = nat

  /** What a process sleeps on: its own entry, in wait, or anything else. */
  datatype Chan = Child(slot: Slot) | Object(id: nat)

  /** p->state. The CPU a process runs on and the process forking an embryo are
      history, not kernel data. */
  datatype Status =
    | UNUSED
    | EMBRYO(owner: Slot)
    | SLEEPING(chan: Chan)
    | RUNNABLE
    | RUNNING(cpu: nat)
    | ZOMBIE

  /** Where the process is in its own kernel code. */
  datatype Code =
    | User                         // no lock held: in user space or in other kernel code
    | Locked(op: Op)               // has acquired ptable.lock to do this
    | WaitLoop                     // at the top of wait's loop, holding the lock
    | Release(back: Code)          // about to release the lock
    | ForkFill(child: Slot)        // allocproc has returned this entry
    | ForkReady(child: Slot)       // the entry's parent is set
    | ForkLocked(child: Slot)      // about to make the entry RUNNABLE

  datatype Op = Yield(back: Code) | Sleep(chan: Chan) | Exit | Wait | Alloc

  datatype Proc = Proc(st: Status, parent: Option<Slot>, pid: nat, at: Code)

  type Table = seq<Proc>

  predicate Alive(st: Status) {
    st.SLEEPING? || st.RUNNABLE? || st.RUNNING?
  }

  // ----- wakeup1 -----

  function Woken(p: Proc, c: Chan): Proc {
    if p.st == SLEEPING(c) then p.(st := RUNNABLE) else p
  }

  function WakeAll(ps: Table, c: Chan): (r: Table)
    ensures |r| == |ps| && forall i :: 0 <= i < |ps| ==> r[i] == Woken(ps[i], c)
  {
    seq(|ps|, i requires 0 <= i < |ps| => Woken(ps[i], c))
  }

  // ----- exit -----

  predicate ZombieChild(p: Proc, q: Slot) {
    p.parent == Some(q) && p.st.ZOMBIE?
  }

  function Adopted(p: Proc, q: Slot): Proc {
    if p.parent == Some(q) then p.(parent := Some(INIT)) else p
  }

  /** Children of q go to init, which is woken if any of them is a zombie. */
  function Reparent(ps: Table, q: Slot): (r: Table)
    ensures |r| == |ps|
    ensures forall i :: 0 <= i < |ps| ==>
      r[i] == if exists j :: 0 <= j < |ps| && ZombieChild(ps[j], q) then Woken(Adopted(ps[i], q), Child(INIT)) else Adopted(ps[i], q)
  {
    var a := seq(|ps|, i requires 0 <= i < |ps| => Adopted(ps[i], q));
    if exists j :: 0 <= j < |ps| && ZombieChild(ps[j], q) then WakeAll(a, Child(INIT)) else a
  }

  function Exited(ps: Table, q: Slot): (r: Table)
    requires q < |ps|
    ensures |r| == |ps|
  {
    var a := if ps[q].parent.Some? then WakeAll(ps, Child(ps[q].parent.value)) else ps;
    var b := Reparent(a, q);
    b[q := b[q].(st := ZOMBIE)]
  }

  // ----- wait -----

  predicate HasKids(ps: Table, q: Slot) {
    exists i :: 0 <= i < |ps| && ps[i].parent == Some(q)
  }

  /** wait's scan, over the table held in place. */
  method FindZombie(procs: array<Proc>, q: Slot) returns (kids: bool, found: Option<Slot>)
    ensures found.Some? ==> found.value < procs.Length && ZombieChild(procs[found.value], q)
    ensures found == None ==> forall i :: 0 <= i < procs.Length ==> !ZombieChild(procs[i], q)
    ensures found == None ==> (kids <==> HasKids(procs[..], q))
  {
    kids := false;
    for i := 0 to procs.Length
      invariant forall j :: 0 <= j < i ==> !ZombieChild(procs[j], q)
      invariant kids <==> exists j :: 0 <= j < i && procs[j].parent == Some(q)
    {
      if procs[i].parent == Some(q) {
        kids := true;
        if procs[i].st.ZOMBIE? {
          return kids, Some(i);
        }
      }
    }
    found := None;
    assert kids ==> HasKids(procs[..], q) by {
      if kids {
        var j :| 0 <= j < procs.Length && procs[j].parent == Some(q);
        assert procs[..][j].parent == Some(q);
      }
    }
  }

  method Wakeup1(procs: array<Proc>, c: Chan)
    modifies procs
    ensures procs[..] == WakeAll(old(procs[..]), c)
  {
    for i := 0 to procs.Length
      invariant forall j :: 0 <= j < procs.Length ==>
        procs[j] == if j < i then Woken(old(procs[j]), c) else old(procs[j])
    {
      if procs[i].st == SLEEPING(c) {
        procs[i] := procs[i].(st := RUNNABLE);
      }
    }
  }

  /** The table while exit's loop is at entry i: entries below it are adopted, and
      init has been woken if a zombie child has been met. */
  ghost predicate HalfReparented(was: Table, now: Table, q: Slot, i: nat) {
    && |now| == |was| && i <= |was|
    && forall j :: 0 <= j < |was| ==>
         var p := if j < i then Adopted(was[j], q) else was[j];
         now[j] == if exists k :: 0 <= k < i && ZombieChild(was[k], q) then Woken(p, Child(INIT)) else p
  }

  lemma ReparentStep(was: Table, now: Table, q: Slot, i: nat)
    requires i < |was| && HalfReparented(was, now, q, i) && q != INIT
    ensures was[i].parent == now[i].parent && (was[i].st.ZOMBIE? <==> now[i].st.ZOMBIE?)
    ensures now[i].parent != Some(q) ==> HalfReparented(was, now, q, i + 1)
    ensures now[i].parent == Some(q) && !now[i].st.ZOMBIE? ==>
              HalfReparented(was, now[i := now[i].(parent := Some(INIT))], q, i + 1)
    ensures now[i].parent == Some(q) && now[i].st.ZOMBIE? ==>
              HalfReparented(was, WakeAll(now[i := now[i].(parent := Some(INIT))], Child(INIT)), q, i + 1)
  {
    assert !ZombieChild(was[i], q) ==>
      ((exists k :: 0 <= k < i && ZombieChild(was[k], q)) <==> exists k :: 0 <= k < i + 1 && ZombieChild(was[k], q));
    assert ZombieChild(was[i], q) ==> exists k :: 0 <= k < i + 1 && ZombieChild(was[k], q);
  }

  /** exit's pass over the table, with its calls of wakeup1 inside the loop. */
  method PassOnChildren(procs: array<Proc>, q: Slot)
    requires q != INIT
    modifies procs
    ensures procs[..] == Reparent(old(procs[..]), q)
  {
    ghost var was := procs[..];
    var i := 0;
    while i < procs.Length
      invariant i <= procs.Length && HalfReparented(was, procs[..], q, i)
    {
      ReparentStep(was, procs[..], q, i);
      ghost var now := procs[..];
      if procs[i].parent == Some(q) {
        procs[i] := procs[i].(parent := Some(INIT));
        assert procs[..] == now[i := now[i].(parent := Some(INIT))];
        if procs[i].st.ZOMBIE? {
          Wakeup1(procs, Child(INIT));
        }
      }
      i := i + 1;
    }
  }

  /** exit, from acquire to sched. */
  method ExitTable(procs: array<Proc>, q: Slot)
    requires q < procs.Length && q != INIT
    modifies procs
    ensures procs[..] == Exited(old(procs[..]), q)
  {
    ghost var was := procs[..];
    if procs[q].parent.Some? {
      Wakeup1(procs, Child(procs[q].parent.value));
    }
    PassOnChildren(procs, q);
    procs[q] := procs[q].(st := ZOMBIE);
  }
}
