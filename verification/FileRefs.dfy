/** Open files (kernel/file.c, kernel/sysfile.c, kernel/pipe.c, and the file loops
    of fork and exit in kernel/proc.c): reference counts, descriptor slots and the
    pages of pipes, over whole system calls. */
module FileRefs {
  import opened Options

  const NFILE := 100
  const NOFILE := 16

  datatype Kind = FdNone | FdPipe(pipe: nat, writable: bool) | FdInode(ip: nat)

  datatype File = File(ref: int, kind: Kind)

  /** ofile of every process, one after the other: slot p * NOFILE + fd. */
  type Slots = seq<Option<nat>>

  datatype Pipe = Pipe(readopen: bool, writeopen: bool)

  /** The files of a pipe's two ends. */
  datatype Ends = Ends(reader: nat, writer: nat)

  // ----- counting slots -----

  function Count(slots: Slots, f: nat): nat {
    if slots == [] then 0 else Count(slots[..|slots| - 1], f) + (if slots[|slots| - 1] == Some(f) then 1 else 0)
  }

  lemma {:induction false} CountSet(slots: Slots, i: nat, v: Option<nat>, f: nat)
    requires i < |slots|
    ensures Count(slots[i := v], f) == Count(slots, f) - (if slots[i] == Some(f) then 1 else 0) + (if v == Some(f) then 1 else 0)
  {
    var m := |slots| - 1;
    if i == m {
      assert slots[i := v][..m] == slots[..m];
    } else {
      CountSet(slots[..m], i, v, f);
      assert slots[i := v][..m] == slots[..m][i := v];
    }
  }

  lemma {:induction false} CountZero(slots: Slots, f: nat)
    ensures Count(slots, f) == 0 <==> forall i :: 0 <= i < |slots| ==> slots[i] != Some(f)
  {
    if slots != [] {
      CountZero(slots[..|slots| - 1], f);
    }
  }

  // ----- the invariant -----

  /** Each file's count is its slots and what is held besides, between calls nothing. */
  ghost predicate RefsOk(files: seq<File>, slots: Slots, held: multiset<nat>) {
    && |files| == NFILE
    && (forall i :: 0 <= i < |slots| && slots[i].Some? ==> slots[i].value < NFILE)
    && (forall f :: 0 <= f < NFILE ==> files[f].ref == Count(slots, f) + held[f] && (files[f].ref == 0 ==> files[f].kind == FdNone))
  }

  /** An end that is open has its file, and no other file is of that end. */
  ghost predicate PipesOk(files: seq<File>, pipes: map<nat, Pipe>, ends: map<nat, Ends>) {
    && |files| == NFILE
    && (forall x :: x in pipes ==>
          && (pipes[x].readopen || pipes[x].writeopen)
          && x in ends && ends[x].reader < NFILE && ends[x].writer < NFILE
          && (pipes[x].readopen ==> files[ends[x].reader].kind == FdPipe(x, false))
          && (pipes[x].writeopen ==> files[ends[x].writer].kind == FdPipe(x, true)))
    && (forall f :: 0 <= f < NFILE && files[f].kind.FdPipe? ==>
          var x := files[f].kind.pipe;
          x in pipes && x in ends &&
          if files[f].kind.writable then pipes[x].writeopen && ends[x].writer == f else pipes[x].readopen && ends[x].reader == f)
  }

  /** Every page ever allocated is a live pipe or has been freed, once. */
  ghost predicate FreedOk(pipes: map<nat, Pipe>, next: nat, freed: seq<nat>) {
    && (forall x: nat :: x < next <==> (x in pipes || x in freed))
    && (forall x :: x in pipes ==> x !in freed)
    && (forall i, j :: 0 <= i < j < |freed| ==> freed[i] != freed[j])
  }

  /** A file after one of its references is dropped. */
  function Drop(f: File): File {
    if f.ref > 1 then f.(ref := f.ref - 1) else File(0, FdNone)
  }

  /** No file changes its kind; none that is still open does. */
  predicate SameKind(was: seq<File>, now: seq<File>) {
    |now| == |was| && forall f :: 0 <= f < |was| ==> now[f].kind == was[f].kind
  }

  predicate KindsKept(was: seq<File>, now: seq<File>) {
    |now| == |was| && forall f :: 0 <= f < |was| && now[f].ref > 0 ==> now[f].kind == was[f].kind && was[f].ref > 0
  }

  predicate Unused(f: File) {
    f == File(0, FdNone)
  }

  /** Two free files have become the ends of the pipe at page x. */
  predicate NewPipe(was: seq<File>, now: seq<File>, rf: nat, wf: nat, x: nat) {
    && rf < |was| && wf < |was| && rf != wf && Unused(was[rf]) && Unused(was[wf])
    && now == was[rf := File(1, FdPipe(x, false))][wf := File(1, FdPipe(x, true))]
  }

  /** The process's first two free slots, i and then j, have been taken. */
  predicate TwoSlots(was: Slots, now: Slots, p: nat, i: nat, j: nat) {
    && FirstSlot(was, p, i) && j < |was| && i < |now| && j < |now| && now[i].Some? && now[j].Some?
    && FirstSlot(was[i := now[i]], p, j) && now == was[i := now[i]][j := now[j]]
  }

  /** No file is free; at most one is. */
  predicate NoneFree(files: seq<File>) {
    forall f :: 0 <= f < |files| ==> files[f].ref != 0
  }

  predicate OneFree(files: seq<File>) {
    forall f, g :: 0 <= f < g < |files| ==> files[f].ref != 0 || files[g].ref != 0
  }

  /** The process has no free slot; at most one. */
  predicate SlotsFull(slots: Slots, p: nat) {
    forall i :: p * NOFILE <= i < (p + 1) * NOFILE && i < |slots| ==> slots[i].Some?
  }

  predicate OneSlot(slots: Slots, p: nat) {
    forall i, j :: p * NOFILE <= i < j < (p + 1) * NOFILE && j < |slots| ==> slots[i].Some? || slots[j].Some?
  }

  /** Slot i is the first free one of the process. */
  predicate FirstSlot(slots: Slots, p: nat, i: nat) {
    && p * NOFILE <= i < (p + 1) * NOFILE && i < |slots| && slots[i] == None
    && forall j :: p * NOFILE <= j < i ==> slots[j].Some?
  }

  lemma OneWasFree(files: seq<File>, f: nat, x: File)
    requires f < |files| && NoneFree(files[f := x])
    ensures OneFree(files)
  {
    forall g | 0 <= g < |files| && g != f ensures files[g].ref != 0 {
      assert files[f := x][g].ref != 0;
    }
  }

  lemma TwoWereFree(files: seq<File>, f: nat, g: nat)
    requires f < |files| && g < |files| && f != g && files[f].ref == 0 && files[g].ref == 0
    ensures !OneFree(files)
  {
    var lo, hi := if f < g then f else g, if f < g then g else f;
    assert files[lo].ref == 0 && files[hi].ref == 0;
  }

  lemma FullHasOne(slots: Slots, p: nat)
    requires SlotsFull(slots, p)
    ensures OneSlot(slots, p)
  {
  }

  lemma FirstIn(slots: Slots, p: nat, i: nat)
    requires FirstSlot(slots, p, i)
    ensures i < |slots| && slots[i] == None
  {
  }

  lemma LastTaken(slots: Slots, p: nat, i: nat, f: nat)
    requires FirstSlot(slots, p, i) && SlotsFull(slots[i := Some(f)], p)
    ensures OneSlot(slots, p)
  {
    forall j | p * NOFILE <= j < (p + 1) * NOFILE && j < |slots| && j != i ensures slots[j].Some? {
      assert slots[i := Some(f)][j].Some?;
    }
  }

  lemma TookTwo(slots: Slots, p: nat, i: nat, j: nat, f: nat, g: nat)
    requires FirstSlot(slots, p, i) && FirstSlot(slots[i := Some(f)], p, j)
    ensures j < |slots| && TwoSlots(slots, slots[i := Some(f)][j := Some(g)], p, i, j) && !OneSlot(slots, p)
    ensures slots[i := Some(f)][j := Some(g)][i] == Some(f)
  {
    var now := slots[i := Some(f)][j := Some(g)];
    assert i != j && now[i] == Some(f) && slots[j] == None;
    assert i < j;
  }

  function Source(was: Slots, s: nat, d: nat, n: nat, i: nat): Option<nat>
    requires i < |was| && s + n <= |was|
  {
    if d <= i < d + n then was[i - d + s] else was[i]
  }

  /** The first n slots from d on are those from s on; they were free before. */
  ghost predicate Inherited(was: Slots, now: Slots, s: nat, d: nat, n: nat) {
    && n <= NOFILE && s + NOFILE <= |was| && d + NOFILE <= |was| && |now| == |was|
    && (s + NOFILE <= d || d + NOFILE <= s)
    && (forall i :: d <= i < d + NOFILE ==> was[i] == None)
    && (forall i :: 0 <= i < |was| ==> now[i] == Source(was, s, d, n, i))
  }

  lemma InheritNone(slots: Slots, p: nat, np: nat)
    requires p != np && (p + 1) * NOFILE <= |slots| && (np + 1) * NOFILE <= |slots|
    requires forall i :: np * NOFILE <= i < (np + 1) * NOFILE ==> slots[i] == None
    ensures Inherited(slots, slots, p * NOFILE, np * NOFILE, 0)
  {
  }

  lemma InheritNext(was: Slots, now: Slots, s: nat, d: nat, fd: nat)
    requires Inherited(was, now, s, d, fd) && fd < NOFILE
    ensures s + fd < |now| && d + fd < |now| && now[d + fd] == None
    ensures Inherited(was, now[d + fd := now[s + fd]], s, d, fd + 1)
    ensures now[s + fd] == None ==> now[d + fd := now[s + fd]] == now
  {
    assert was[d + fd] == None;
    var now' := now[d + fd := now[s + fd]];
    forall i | 0 <= i < |was| ensures now'[i] == Source(was, s, d, fd + 1, i) {
      assert now[s + fd] == was[s + fd];
    }
  }

  /** A new page, named by two files that were just allocated. */
  lemma PipeMade(files: seq<File>, slots: Slots, held: multiset<nat>, pipes: map<nat, Pipe>, ends: map<nat, Ends>, next: nat, freed: seq<nat>, f: nat, g: nat)
    requires RefsOk(files, slots, held) && PipesOk(files, pipes, ends) && FreedOk(pipes, next, freed)
    requires f < NFILE && g < NFILE && f != g && files[f] == File(1, FdNone) && files[g] == File(1, FdNone)
    ensures var files' := files[f := files[f].(kind := FdPipe(next, false))][g := files[g].(kind := FdPipe(next, true))];
            && RefsOk(files', slots, held) && PipesOk(files', pipes[next := Pipe(true, true)], ends[next := Ends(f, g)])
            && FreedOk(pipes[next := Pipe(true, true)], next + 1, freed)
  {
    assert next !in pipes && next !in freed;
    MadeEnds(files, pipes, ends, next, f, g);
    hide PipesOk;
  }

  lemma MadeEnds(files: seq<File>, pipes: map<nat, Pipe>, ends: map<nat, Ends>, next: nat, f: nat, g: nat)
    requires PipesOk(files, pipes, ends) && next !in pipes
    requires f < NFILE && g < NFILE && f != g && files[f].kind == FdNone && files[g].kind == FdNone
    ensures PipesOk(files[f := files[f].(kind := FdPipe(next, false))][g := files[g].(kind := FdPipe(next, true))],
                    pipes[next := Pipe(true, true)], ends[next := Ends(f, g)])
  {
  }

  lemma {:induction false} OnceEach(xs: seq<nat>, x: nat)
    requires forall i, j :: 0 <= i < j < |xs| ==> xs[i] != xs[j]
    ensures multiset(xs)[x] == if x in xs then 1 else 0
  {
    if xs != [] {
      var m := |xs| - 1;
      assert xs == xs[..m] + [xs[m]];
      OnceEach(xs[..m], x);
    }
  }

  lemma Named(files: seq<File>, slots: Slots, held: multiset<nat>, i: nat)
    requires RefsOk(files, slots, held) && i < |slots| && slots[i].Some?
    ensures |files| == NFILE && slots[i].value < NFILE && files[slots[i].value].ref >= 1
  {
    CountZero(slots, slots[i].value);
  }

  lemma SlotCopied(files: seq<File>, slots: Slots, held: multiset<nat>, i: nat, f: nat)
    requires RefsOk(files, slots, held) && i < |slots| && slots[i] == None && f < NFILE && files[f].ref >= 1
    ensures RefsOk(files[f := files[f].(ref := files[f].ref + 1)], slots[i := Some(f)], held)
  {
    var slots' := slots[i := Some(f)];
    forall g | 0 <= g < NFILE ensures Count(slots', g) == Count(slots, g) + (if g == f then 1 else 0) {
      CountSet(slots, i, Some(f), g);
    }
  }

  lemma SlotCleared(files: seq<File>, slots: Slots, held: multiset<nat>, i: nat)
    requires RefsOk(files, slots, held) && i < |slots| && slots[i].Some?
    ensures slots[i].value < NFILE && RefsOk(files, slots[i := None], held + multiset{slots[i].value})
  {
    var slots' := slots[i := None];
    forall g | 0 <= g < NFILE ensures Count(slots', g) == Count(slots, g) - (if slots[i] == Some(g) then 1 else 0) {
      CountSet(slots, i, None, g);
    }
  }

  lemma KindSet(files: seq<File>, slots: Slots, held: multiset<nat>, pipes: map<nat, Pipe>, ends: map<nat, Ends>, f: nat, kind: Kind)
    requires RefsOk(files, slots, held) && PipesOk(files, pipes, ends) && f < NFILE && files[f].ref > 0 && files[f].kind == FdNone && !kind.FdPipe?
    ensures RefsOk(files[f := files[f].(kind := kind)], slots, held) && PipesOk(files[f := files[f].(kind := kind)], pipes, ends)
  {
  }

  lemma RefDropped(files: seq<File>, slots: Slots, held: multiset<nat>, f: nat)
    requires RefsOk(files, slots, held) && f < NFILE && held[f] > 0
    ensures var files' := files[f := files[f].(ref := files[f].ref - 1)];
            && files'[f].ref >= 0 && (files'[f].ref > 0 ==> RefsOk(files', slots, held - multiset{f}))
            && (files'[f].ref == 0 ==> RefsOk(files'[f := File(0, FdNone)], slots, held - multiset{f}))
  {
  }

  lemma SameKinds(files: seq<File>, files': seq<File>, pipes: map<nat, Pipe>, ends: map<nat, Ends>)
    requires PipesOk(files, pipes, ends) && |files'| == |files| && forall f :: 0 <= f < NFILE ==> files'[f].kind == files[f].kind
    ensures PipesOk(files', pipes, ends)
  {
  }

  lemma NotPipe(files: seq<File>, pipes: map<nat, Pipe>, ends: map<nat, Ends>, f: nat)
    requires PipesOk(files, pipes, ends) && f < NFILE
    ensures !files[f].kind.FdPipe? ==> PipesOk(files[f := File(0, FdNone)], pipes, ends)
  {
  }

  function Shut(p: Pipe, writable: bool): Pipe {
    if writable then p.(writeopen := false) else p.(readopen := false)
  }

  /** The file of a pipe's end is gone, and so is the end. */
  lemma EndGone(files: seq<File>, pipes: map<nat, Pipe>, ends: map<nat, Ends>, f: nat, x: nat, writable: bool)
    requires PipesOk(files, pipes, ends) && f < NFILE && files[f].kind == FdPipe(x, writable)
    ensures x in pipes
    ensures var p := Shut(pipes[x], writable);
            PipesOk(files[f := File(0, FdNone)], if p.readopen || p.writeopen then pipes[x := p] else pipes - {x}, ends)
  {
  }

  lemma PageStays(pipes: map<nat, Pipe>, next: nat, freed: seq<nat>, x: nat, p: Pipe)
    requires FreedOk(pipes, next, freed) && x in pipes
    ensures FreedOk(pipes[x := p], next, freed)
  {
  }

  lemma PageGoes(pipes: map<nat, Pipe>, next: nat, freed: seq<nat>, x: nat)
    requires FreedOk(pipes, next, freed) && x in pipes
    ensures FreedOk(pipes - {x}, next, freed + [x])
  {
    forall y: nat ensures y < next <==> (y in pipes - {x} || y in freed + [x]) {
      assert y in freed + [x] <==> y in freed || y == x;
    }
  }

  lemma SlotFilled(files: seq<File>, slots: Slots, held: multiset<nat>, i: nat, f: nat)
    requires RefsOk(files, slots, held) && i < |slots| && slots[i] == None && f < NFILE && held[f] > 0
    ensures RefsOk(files, slots[i := Some(f)], held - multiset{f})
  {
    forall g | 0 <= g < NFILE ensures files[g].ref == Count(slots[i := Some(f)], g) + (held - multiset{f})[g] {
      CountSet(slots, i, Some(f), g);
    }
  }

  class FileTable {
    var files: seq<File>
    var slots: Slots
    var pipes: map<nat, Pipe>
    var next: nat                  // pages handed out for pipes so far
    ghost var freed: seq<nat>      // pages given back, in order
    ghost var ends: map<nat, Ends>
    ghost var held: multiset<nat>  // references in kernel hands during a call

    ghost predicate Valid()
      reads this
    {
      RefsOk(files, slots, held) && PipesOk(files, pipes, ends) && FreedOk(pipes, next, freed)
    }

    constructor (procs: nat)
      ensures Valid() && held == multiset{} && next == 0 && |slots| == procs * NOFILE
      ensures forall i :: 0 <= i < |slots| ==> slots[i] == None
    {
      files := seq(NFILE, _ => File(0, FdNone));
      slots := seq(procs * NOFILE, _ => None);
      pipes := map[];
      next := 0;
      freed := [];
      ends := map[];
      held := multiset{};
      new;
      forall f | 0 <= f < NFILE ensures Count(slots, f) == 0 {
        CountZero(slots, f);
      }
    }

    /** filealloc: a file nobody refers to, now held by the caller. */
    method Filealloc() returns (r: Option<nat>)
      requires Valid()
      modifies this`files, this`held
      ensures Valid()
      ensures r == None ==> files == old(files) && held == old(held) && NoneFree(files)
      ensures r.Some? ==> r.value < NFILE == |old(files)| && Unused(old(files)[r.value]) && held == old(held) + multiset{r.value}
                          && files == old(files)[r.value := File(1, FdNone)]
    {
      for f := 0 to NFILE
        invariant Valid() && files == old(files) && held == old(held)
        invariant forall g :: 0 <= g < f ==> files[g].ref != 0
      {
        if files[f].ref == 0 {
          files := files[f := files[f].(ref := 1)];
          held := held + multiset{f};
          return Some(f);
        }
      }
      r := None;
    }

    /** fdalloc's search: the process's first free slot. */
    method FreeSlot(p: nat) returns (r: Option<nat>)
      requires (p + 1) * NOFILE <= |slots|
      ensures r == None ==> SlotsFull(slots, p)
      ensures r.Some? ==> FirstSlot(slots, p, r.value)
    {
      for fd := 0 to NOFILE
        invariant forall i :: p * NOFILE <= i < p * NOFILE + fd ==> slots[i].Some?
      {
        if slots[p * NOFILE + fd] == None {
          return Some(p * NOFILE + fd);
        }
      }
      r := None;
    }

    /** fdalloc: the slot takes over the caller's reference. */
    method Fdalloc(p: nat, f: nat) returns (r: Option<nat>)
      requires Valid() && (p + 1) * NOFILE <= |slots| && f < NFILE && held[f] > 0
      modifies this`slots, this`held
      ensures Valid() && |slots| == old(|slots|)
      ensures r == None ==> slots == old(slots) && held == old(held) && SlotsFull(slots, p)
      ensures r.Some? ==> FirstSlot(old(slots), p, r.value)
                          && slots == old(slots)[r.value := Some(f)] && held == old(held) - multiset{f}
    {
      hide RefsOk, PipesOk, FreedOk;
      r := FreeSlot(p);
      if r.Some? {
        SlotFilled(files, slots, held, r.value, f);
        slots := slots[r.value := Some(f)];
        held := held - multiset{f};
      }
    }

    /** fileclose of a reference in hand; the last one also closes a pipe's end. */
    method Fileclose(f: nat)
      requires Valid() && f < NFILE && held[f] > 0
      modifies this
      ensures Valid() && slots == old(slots) && next == old(next) && held == old(held) - multiset{f}
      ensures |old(files)| == NFILE && files == old(files)[f := Drop(old(files)[f])]
    {
      hide PipesOk, FreedOk;
      RefDropped(files, slots, held, f);
      SameKinds(files, files[f := files[f].(ref := files[f].ref - 1)], pipes, ends);
      files := files[f := files[f].(ref := files[f].ref - 1)];
      hide RefsOk;
      held := held - multiset{f};
      if files[f].ref > 0 {
        return;
      }
      var kind := files[f].kind;
      ghost var files0 := files;
      NotPipe(files, pipes, ends, f);
      files := files[f := File(0, FdNone)];
      if kind.FdPipe? {
        Pipeclose(kind.pipe, kind.writable, f, files0);
      }
    }

    /** pipeclose: one end goes, and the page with the second. */
    method Pipeclose(x: nat, writable: bool, ghost f: nat, ghost files0: seq<File>)
      requires RefsOk(files, slots, held) && FreedOk(pipes, next, freed)
      requires f < NFILE == |files0| && PipesOk(files0, pipes, ends) && files0[f].kind == FdPipe(x, writable) && files == files0[f := File(0, FdNone)]
      modifies this`pipes, this`freed
      ensures Valid()
    {
      hide RefsOk;
      ghost var pipes0 := pipes;
      EndGone(files0, pipes, ends, f, x, writable);
      PageStays(pipes, next, freed, x, Shut(pipes[x], writable));
      PageGoes(pipes, next, freed, x);
      assert pipes[x := Shut(pipes[x], writable)] - {x} == pipes - {x};
      hide PipesOk, FreedOk;
      pipes := pipes[x := if writable then pipes[x].(writeopen := false) else pipes[x].(readopen := false)];
      if !pipes[x].readopen && !pipes[x].writeopen {
        pipes := pipes - {x};
        freed := freed + [x];
      }
    }

    // ----- system calls -----

    /** sys_dup. */
    method Dup(p: nat, fd: int) returns (r: Option<nat>)
      requires Valid() && held == multiset{} && (p + 1) * NOFILE <= |slots|
      modifies this`slots, this`files
      ensures Valid() && |slots| == old(|slots|)
      ensures r == None <==> fd < 0 || fd >= NOFILE || old(slots)[p * NOFILE + fd] == None || SlotsFull(old(slots), p)
      ensures r == None ==> slots == old(slots) && files == old(files)
      ensures r.Some? ==> FirstSlot(old(slots), p, r.value) && slots == old(slots)[r.value := old(slots)[p * NOFILE + fd]]
      ensures SameKind(old(files), files)
    {
      hide RefsOk, PipesOk, FreedOk;
      if fd < 0 || fd >= NOFILE || slots[p * NOFILE + fd] == None {
        return None;
      }
      var f := slots[p * NOFILE + fd].value;
      r := FreeSlot(p);
      if r == None {
        return;
      }
      Named(files, slots, held, p * NOFILE + fd);
      SlotCopied(files, slots, held, r.value, f);
      SameKinds(files, files[f := files[f].(ref := files[f].ref + 1)], pipes, ends);
      slots := slots[r.value := Some(f)];
      files := files[f := files[f].(ref := files[f].ref + 1)];
    }

    /** sys_close. */
    method Close(p: nat, fd: int) returns (ok: bool)
      requires Valid() && held == multiset{} && (p + 1) * NOFILE <= |slots|
      modifies this
      ensures Valid() && held == multiset{} && next == old(next)
      ensures ok <==> 0 <= fd < NOFILE && old(slots)[p * NOFILE + fd].Some?
      ensures slots == if ok then old(slots)[p * NOFILE + fd := None] else old(slots)
      ensures KindsKept(old(files), files)
    {
      if fd < 0 || fd >= NOFILE || slots[p * NOFILE + fd] == None {
        return false;
      }
      CloseSlot(p * NOFILE + fd);
      ok := true;
    }

    /** The slot is cleared, then its file closed. */
    method CloseSlot(i: nat)
      requires Valid() && i < |slots| && slots[i].Some?
      modifies this
      ensures Valid() && held == old(held) && next == old(next) && slots == old(slots)[i := None]
      ensures |old(files)| == NFILE && old(slots)[i].value < NFILE
      ensures files == old(files)[old(slots)[i].value := Drop(old(files)[old(slots)[i].value])]
    {
      var f := slots[i].value;
      SlotCleared(files, slots, held, i);
      hide RefsOk, PipesOk, FreedOk;
      slots := slots[i := None];
      held := held + multiset{f};
      Fileclose(f);
    }

    /** sys_open once the inode is found: a file and a slot, or neither. */
    method Open(p: nat, ip: nat) returns (r: Option<nat>)
      requires Valid() && held == multiset{} && (p + 1) * NOFILE <= |slots|
      modifies this
      ensures Valid() && held == multiset{} && |slots| == old(|slots|)
      ensures r == None <==> NoneFree(old(files)) || SlotsFull(old(slots), p)
      ensures r == None ==> slots == old(slots) && files == old(files)
      ensures r.Some? ==> FirstSlot(old(slots), p, r.value) && slots[r.value].Some? && slots == old(slots)[r.value := slots[r.value]]
      ensures r.Some? ==> var f := slots[r.value].value; f < |old(files)| && old(files)[f].ref == 0 && files == old(files)[f := File(1, FdInode(ip))]
    {
      hide RefsOk, PipesOk, FreedOk;
      ghost var files0, slots0 := files, slots;
      var f := Filealloc();
      if f == None {
        return None;
      }
      assert !NoneFree(files0) && held == multiset{f.value};
      hide NoneFree;
      r := Fdalloc(p, f.value);
      if r == None {
        Fileclose(f.value);
        assert files == files0;
        return;
      }
      assert !SlotsFull(slots0, p) by { FirstIn(slots0, p, r.value); }
      KindSet(files, slots, held, pipes, ends, f.value, FdInode(ip));
      files := files[f.value := files[f.value].(kind := FdInode(ip))];
    }

    /** pipealloc: two files and a page, or nothing. `page` is whether kalloc found one. */
    method Pipealloc(page: bool) returns (r: Option<(nat, nat)>)
      requires Valid() && held == multiset{}
      modifies this
      ensures Valid() && slots == old(slots)
      ensures r == None <==> OneFree(old(files)) || !page
      ensures r == None ==> held == multiset{} && next == old(next) && freed == old(freed) && files == old(files)
      ensures r.Some? ==> held == multiset{r.value.0, r.value.1} && r.value.0 != r.value.1 && r.value.0 < NFILE && r.value.1 < NFILE
                          && next == old(next) + 1 && freed == old(freed)
      ensures r.Some? ==> NewPipe(old(files), files, r.value.0, r.value.1, old(next))
    {
      hide RefsOk, PipesOk, FreedOk;
      var files2 := TwoFiles();
      if files2 == None {
        return None;
      }
      var (f0, f1) := files2.value;
      if !page {
        DropUnused(f0);
        DropUnused(f1);
        return None;
      }
      SetEnds(f0, f1);
      r := files2;
    }

    /** pipealloc's two calls of filealloc. */
    method TwoFiles() returns (r: Option<(nat, nat)>)
      requires Valid() && held == multiset{}
      modifies this
      ensures Valid() && slots == old(slots) && next == old(next) && freed == old(freed) && pipes == old(pipes)
      ensures r == None <==> OneFree(old(files))
      ensures r == None ==> held == multiset{} && files == old(files)
      ensures r.Some? ==> held == multiset{r.value.0, r.value.1} && r.value.0 != r.value.1 && r.value.0 < NFILE == |files| && r.value.1 < NFILE
                          && |old(files)| == NFILE && Unused(old(files)[r.value.0]) && Unused(old(files)[r.value.1])
                          && files == old(files)[r.value.0 := File(1, FdNone)][r.value.1 := File(1, FdNone)]
    {
      hide RefsOk, PipesOk, FreedOk;
      ghost var files0 := files;
      var f0 := Filealloc();
      if f0 == None {
        return None;
      }
      var f1 := Filealloc();
      if f1 == None {
        OneWasFree(files0, f0.value, File(1, FdNone));
        DropUnused(f0.value);
        assert files == files0;
        return None;
      }
      TwoWereFree(files0, f0.value, f1.value);
      r := Some((f0.value, f1.value));
    }

    /** pipealloc's writes. */
    method SetEnds(f0: nat, f1: nat)
      requires Valid() && f0 < NFILE == |files| && f1 < NFILE && f0 != f1 && files[f0] == File(1, FdNone) && files[f1] == File(1, FdNone)
      modifies this`files, this`pipes, this`ends, this`next
      ensures Valid() && next == old(next) + 1
      ensures files == old(files)[f0 := File(1, FdPipe(old(next), false))][f1 := File(1, FdPipe(old(next), true))]
    {
      PipeMade(files, slots, held, pipes, ends, next, freed, f0, f1);
      hide RefsOk, PipesOk, FreedOk;
      files := files[f0 := files[f0].(kind := FdPipe(next, false))];
      files := files[f1 := files[f1].(kind := FdPipe(next, true))];
      pipes := pipes[next := Pipe(true, true)];
      ends := ends[next := Ends(f0, f1)];
      next := next + 1;
    }

    /** fileclose of a file that filealloc just gave: no end to close. */
    method DropUnused(f: nat)
      requires Valid() && f < NFILE && held[f] == 1 && files[f] == File(1, FdNone)
      modifies this
      ensures Valid() && slots == old(slots) && next == old(next) && freed == old(freed) && held == old(held) - multiset{f}
      ensures files == old(files)[f := File(0, FdNone)] && pipes == old(pipes)
    {
      RefDropped(files, slots, held, f);
      NotPipe(files, pipes, ends, f);
      hide RefsOk, PipesOk, FreedOk;
      files := files[f := files[f].(ref := files[f].ref - 1)];
      held := held - multiset{f};
      assert files == old(files)[f := File(0, FdNone)];
    }

    /** sys_pipe: both slots or neither; in the second case the page is given back. */
    method MakePipe(p: nat, page: bool) returns (r: Option<(nat, nat)>)
      requires Valid() && held == multiset{} && (p + 1) * NOFILE <= |slots|
      modifies this
      ensures Valid() && held == multiset{} && |slots| == old(|slots|)
      ensures r == None <==> OneFree(old(files)) || !page || OneSlot(old(slots), p)
      ensures r == None ==> slots == old(slots) && files == old(files)
      ensures r.Some? ==> && TwoSlots(old(slots), slots, p, r.value.0, r.value.1)
                          && NewPipe(old(files), files, slots[r.value.0].value, slots[r.value.1].value, old(next))
    {
      hide RefsOk, PipesOk, FreedOk;
      var pair := Pipealloc(page);
      if pair == None {
        return None;
      }
      r := TakeSlots(p, pair.value.0, pair.value.1);
    }

    /** sys_pipe's two slots, or the closing of both ends. */
    method TakeSlots(p: nat, rf: nat, wf: nat) returns (r: Option<(nat, nat)>)
      requires Valid() && rf < NFILE && wf < NFILE && rf != wf && held == multiset{rf, wf} && (p + 1) * NOFILE <= |slots|
      modifies this
      ensures Valid() && held == multiset{} && |slots| == old(|slots|)
      ensures r == None <==> OneSlot(old(slots), p)
      ensures r == None ==> slots == old(slots) && |old(files)| == NFILE
                            && files == old(files)[rf := Drop(old(files)[rf])][wf := Drop(old(files)[wf])]
      ensures r.Some? ==> && TwoSlots(old(slots), slots, p, r.value.0, r.value.1) && files == old(files)
                          && slots[r.value.0] == Some(rf) && slots[r.value.1] == Some(wf)
    {
      hide RefsOk, PipesOk, FreedOk, FirstSlot, OneSlot, SlotsFull, TwoSlots;
      ghost var was, files0 := slots, files;
      assert held - multiset{rf} == multiset{wf};
      var fd0 := Fdalloc(p, rf);
      if fd0 == None {
        FullHasOne(was, p);
        Fileclose(rf);
        Fileclose(wf);
        return None;
      }
      FirstIn(was, p, fd0.value);
      var fd1 := Fdalloc(p, wf);
      if fd1 == None {
        LastTaken(was, p, fd0.value, rf);
        CloseSlot(fd0.value);
        Fileclose(wf);
        assert slots == was;
        return None;
      }
      TookTwo(was, p, fd0.value, fd1.value, rf, wf);
      r := Some((fd0.value, fd1.value));
    }

    /** fork's loop: the child gets the parent's files. */
    method Fork(p: nat, np: nat)
      requires Valid() && held == multiset{} && p != np && (p + 1) * NOFILE <= |slots| && (np + 1) * NOFILE <= |slots|
      requires forall i :: np * NOFILE <= i < (np + 1) * NOFILE ==> slots[i] == None
      modifies this`slots, this`files
      ensures Valid() && Inherited(old(slots), slots, p * NOFILE, np * NOFILE, NOFILE) && SameKind(old(files), files)
    {
      hide RefsOk, PipesOk, FreedOk, Inherited;
      ghost var was := slots;
      InheritNone(slots, p, np);
      for fd := 0 to NOFILE
        invariant Valid() && Inherited(was, slots, p * NOFILE, np * NOFILE, fd) && SameKind(old(files), files)
      {
        InheritNext(was, slots, p * NOFILE, np * NOFILE, fd);
        var c := slots[p * NOFILE + fd];
        if c.Some? {
          Named(files, slots, held, p * NOFILE + fd);
          SlotCopied(files, slots, held, np * NOFILE + fd, c.value);
          SameKinds(files, files[c.value := files[c.value].(ref := files[c.value].ref + 1)], pipes, ends);
          slots := slots[np * NOFILE + fd := c];
          files := files[c.value := files[c.value].(ref := files[c.value].ref + 1)];
        }
      }
    }

    /** exit's loop: every slot of the process is closed. */
    method Exit(p: nat)
      requires Valid() && held == multiset{} && (p + 1) * NOFILE <= |slots|
      modifies this
      ensures Valid() && held == multiset{} && |slots| == old(|slots|)
      ensures forall i :: 0 <= i < |slots| ==> slots[i] == if p * NOFILE <= i < (p + 1) * NOFILE then None else old(slots)[i]
      ensures KindsKept(old(files), files)
    {
      hide RefsOk, PipesOk, FreedOk;
      for fd := 0 to NOFILE
        invariant Valid() && held == multiset{} && |slots| == old(|slots|)
        invariant forall i :: 0 <= i < |slots| ==> slots[i] == if p * NOFILE <= i < p * NOFILE + fd then None else old(slots)[i]
        invariant KindsKept(old(files), files)
      {
        if slots[p * NOFILE + fd].Some? {
          CloseSlot(p * NOFILE + fd);
        }
      }
    }
  }

  // ----- between system calls -----

  /** Conservation: each file's count is the number of slots that name it. */
  lemma RefsAreSlots(t: FileTable, f: nat)
    requires t.Valid() && t.held == multiset{} && f < NFILE
    ensures t.files[f].ref == Count(t.slots, f)
  {
  }

  ghost predicate Names(t: FileTable, i: nat, x: nat)
    reads t
  {
    && i < |t.slots| && t.slots[i].Some? && t.slots[i].value < |t.files|
    && t.files[t.slots[i].value].kind.FdPipe? && t.files[t.slots[i].value].kind.pipe == x
  }

  /** A pipe's page is freed when and only when no slot names either end, and then
      it has been freed once. */
  lemma FreedOnce(t: FileTable, x: nat)
    requires t.Valid() && t.held == multiset{} && x < t.next
    ensures x in t.freed <==> forall i: nat :: !Names(t, i, x)
    ensures multiset(t.freed)[x] == if x in t.freed then 1 else 0
  {
    if x in t.pipes {
      var f := if t.pipes[x].readopen then t.ends[x].reader else t.ends[x].writer;
      CountZero(t.slots, f);
      var i :| 0 <= i < |t.slots| && t.slots[i] == Some(f);
      assert Names(t, i, x);
    }
    OnceEach(t.freed, x);
  }
}
