/** The frame allocator and the page-table code (kernel/kalloc.c, kernel/vm.c),
    updating memory in place. */
module Vm {
  import opened Blocks
  import opened Frames
  import opened Paging
  import opened Translation

  lemma PteParts(m: Mapping, k: nat, i: nat)
    requires MappingOk(m) && i == k * PGSIZE
    ensures 0 <= Pte(m) && Pte(m) % PGSIZE == m.flags && Pte(m) / PGSIZE == m.frame && Pte(m) % 2 == 1
    ensures k / PGWORDS == i / 0x40_0000 && i / PGSIZE % PGWORDS == k % PGWORDS
  {
    Quotients(m.frame, m.flags);
    Quotients(k, 0);
    PlaceOf(k);
  }

  lemma Quotients(f: nat, r: nat)
    requires r < 4096
    ensures (f * 4096 + r) / 4096 == f && (f * 4096 + r) % 4096 == r && (f * 4096 + r) % 2 == r % 2
  {
    assert f * 4096 + r == 2 * (f * 2048) + r;
  }

  lemma PlaceOf(k: nat)
    ensures k * 4096 / 0x40_0000 == k / 1024
  {
  }

  lemma Aligned(i: nat, k: nat, held: nat, f: Frame, flags: nat)
    requires i == k * PGSIZE && held == Addr(f) && flags % 2 == 1
    ensures i / PGSIZE == k && i % PGSIZE == 0 && held >= KERNBASE && Present(flags) == flags
    ensures (held - KERNBASE) / PGSIZE == f && (held - KERNBASE) % PGSIZE == 0
  {
  }

  /** The page deallocuvm has come to, or the last one. */
  function Upto(a: nat, hi: nat): nat { if a / PGSIZE < hi then a / PGSIZE else hi }

  lemma EntryAddr(t: Frame)
    ensures Pde(t) / PGSIZE * PGSIZE + KERNBASE == Addr(t) && Pde(t) % 2 == 1
  {
  }

  lemma AddrFits(mem: seq<Page>, own: map<Frame, Owner>, first: nat, f: Frame)
    requires PoolOk(mem, own, first) && f in own
    ensures Addr(f) < WORD_LIMIT
  {
  }

  lemma WholePages(k: nat)
    ensures k * PGSIZE / PGSIZE == k && k * PGSIZE % PGSIZE == 0
  {
  }

  lemma KeptFreed(mem: seq<Page>, own: map<Frame, Owner>, mem1: seq<Page>, own1: map<Frame, Owner>, mem2: seq<Page>, t: Frame)
    requires Kept(mem, own, mem1, own1) && t in own1 && |mem2| == |mem1|
    requires forall g :: 0 <= g < |mem1| && g != t ==> mem2[g] == mem1[g]
    ensures Kept(mem, own, mem2, own1[t := Free])
  {
  }

  /** Of the whole frames in the range, those below p have been freed. */
  ghost predicate Swept(own: map<Frame, Owner>, own': map<Frame, Owner>, vstart: nat, vend: nat, p: nat) {
    && own'.Keys == own.Keys
    && forall f: Frame :: f in own ==> own'[f] == if vstart <= Addr(f) && Addr(f) + PGSIZE <= vend && Addr(f) < p then Free else own[f]
  }

  lemma SweptNone(own: map<Frame, Owner>, vstart: nat, vend: nat, p: nat)
    requires p == (vstart + PGSIZE - 1) / PGSIZE * PGSIZE && vstart >= KERNBASE
    ensures p % PGSIZE == 0 && vstart <= p && Swept(own, own, vstart, vend, p)
  {
    forall f: Frame | f in own ensures !(vstart <= Addr(f) < p) {
      assert Addr(f) % PGSIZE == 0;
    }
  }

  lemma SweptNext(own: map<Frame, Owner>, own1: map<Frame, Owner>, vstart: nat, vend: nat, p: word, f: Frame)
    requires Swept(own, own1, vstart, vend, p) && KERNBASE <= vstart <= p && p + PGSIZE <= vend && p % PGSIZE == 0 && f == FrameOf(p)
    requires forall f: Frame :: vstart <= Addr(f) && Addr(f) + PGSIZE <= vend ==> f in own && own[f] == Other
    ensures Addr(f) == p && f in own1 && own1[f] == Other && Swept(own, own1[f := Free], vstart, vend, p + PGSIZE)
  {
    assert Addr(f) == p;
  }

  lemma SweptAll(own: map<Frame, Owner>, own1: map<Frame, Owner>, vstart: nat, vend: nat, p: nat)
    requires Swept(own, own1, vstart, vend, p) && p + PGSIZE > vend
    ensures forall f: Frame :: f in own1 ==> f in own && own1[f] == if vstart <= Addr(f) && Addr(f) + PGSIZE <= vend then Free else own[f]
  {
  }

  lemma FirstPage(newsz: word, oldsz: word)
    requires newsz < oldsz <= KERNBASE
    ensures RoundUp(newsz) <= RoundUp(oldsz) <= USERPAGES && RoundUp(newsz) * PGSIZE <= KERNBASE
    ensures RoundUp(newsz) * PGSIZE % PGSIZE == 0 && Upto(RoundUp(newsz) * PGSIZE, RoundUp(oldsz)) == RoundUp(newsz)
  {
  }

  lemma AtPage(a: nat, oldsz: word, lo: nat)
    requires a % PGSIZE == 0 && a < oldsz && lo * PGSIZE <= a
    ensures lo <= a / PGSIZE < RoundUp(oldsz) && Upto(a, RoundUp(oldsz)) == a / PGSIZE
  {
  }

  lemma LastPage(a: nat, oldsz: word)
    requires a % PGSIZE == 0 && a >= oldsz
    ensures Upto(a, RoundUp(oldsz)) == RoundUp(oldsz)
  {
  }

  class Machine {
    const first: nat               // the first frame after the kernel
    var mem: seq<Page>
    var freelist: word
    ghost var own: map<Frame, Owner>
    ghost var spaces: map<Frame, Space>
    ghost var free: seq<Frame>
    ghost var dry: nat             // how often kalloc has found no frame

    ghost predicate Valid()
      reads this
    {
      PoolOk(mem, own, first) && FreeOk(mem, freelist, own, free) && SpacesOk(mem, own, spaces)
    }

    /** Memory as the boot code leaves it, before any frame is freed. */
    constructor (first: nat, mem: seq<Page>)
      requires 0 < first <= NFRAMES && |mem| == NFRAMES
      ensures Valid() && this.first == first && spaces == map[]
      ensures forall f: Frame :: f in own <==> first <= f < NFRAMES
      ensures forall f: Frame :: f in own ==> own[f] == Other
    {
      this.first := first;
      this.mem := mem;
      freelist := 0;
      own := map f: Frame | 0 <= f < NFRAMES && InPool(first, f) :: Other;
      spaces := map[];
      free := [];
      dry := 0;
    }

    method Kalloc() returns (v: word)
      requires Valid()
      modifies this`freelist, this`own, this`free, this`dry
      ensures Valid()
      ensures old(free) == [] ==> v == 0 && own == old(own) && free == [] && freelist == old(freelist) && dry == old(dry) + 1
      ensures old(free) != [] ==>
                var f := old(free)[0];
                && v == Addr(f) && v != 0 && first <= f < NFRAMES && f in old(own) && old(own)[f] == Free
                && own == old(own)[f := Other] && free == old(free)[1..] && dry == old(dry)
    {
      v := freelist;
      if v != 0 {
        ghost var f := free[0];
        assert f in free;
        assert FrameOf(v) == f;
        freelist := mem[FrameOf(v)][0];
        Popped(mem, v, own, free);
        TablesUntouched(mem, mem, own, own[f := Other], spaces, f);
        own := own[f := Other];
        free := free[1..];
      } else {
        dry := dry + 1;
      }
    }

    /** The caller's frame f goes to the front of the free list. */
    method Kfree(v: word, ghost f: Frame)
      requires PoolOk(mem, own, first) && FreeOk(mem, freelist, own, free)
      requires f in own && own[f] == Other && v == Addr(f)
      modifies this`mem, this`freelist, this`own, this`free
      ensures PoolOk(mem, own, first) && FreeOk(mem, freelist, own, free)
      ensures own == old(own)[f := Free] && free == [f] + old(free)
      ensures |mem| == old(|mem|) && forall g :: 0 <= g < |mem| && g != f ==> mem[g] == old(mem)[g]
    {
      assert FrameOf(v) == f;
      Pushed(mem, freelist, own, free, f, Junk(freelist));
      mem := mem[FrameOf(v) := Junk(freelist)];
      freelist := v;
      own := own[f := Free];
      free := [f] + free;
    }

    /** The same, between calls. */
    method Release(v: word, ghost f: Frame)
      requires Valid() && f in own && own[f] == Other && v == Addr(f)
      modifies this`mem, this`freelist, this`own, this`free
      ensures Valid()
      ensures own == old(own)[f := Free] && free == [f] + old(free)
      ensures |mem| == old(|mem|) && forall g :: 0 <= g < |mem| && g != f ==> mem[g] == old(mem)[g]
    {
      ghost var mem0, own0 := mem, own;
      Kfree(v, f);
      TablesUntouched(mem0, mem, own0, own, spaces, f);
    }

    /** freerange: every whole frame of the range, held by the caller, is freed. */
    method Freerange(vstart: word, vend: word)
      requires Valid() && KERNBASE <= vstart <= vend <= Addr(NFRAMES)
      requires forall f: Frame :: vstart <= Addr(f) && Addr(f) + PGSIZE <= vend ==> f in own && own[f] == Other
      modifies this`mem, this`freelist, this`own, this`free
      ensures Valid()
      ensures forall f: Frame :: f in own ==>
                own[f] == if vstart <= Addr(f) && Addr(f) + PGSIZE <= vend then Free else old(own)[f]
    {
      hide PoolOk, FreeOk, SpacesOk, Swept, Addr;
      ghost var own0 := own;
      var p := (vstart + PGSIZE - 1) / PGSIZE * PGSIZE;
      SweptNone(own, vstart, vend, p);
      while p + PGSIZE <= vend
        invariant Valid() && p % PGSIZE == 0 && vstart <= p && Swept(own0, own, vstart, vend, p)
      {
        ghost var f := FrameOf(p);
        SweptNext(own0, own, vstart, vend, p, f);
        Release(p, f);
        p := p + PGSIZE;
      }
      SweptAll(own0, own, vstart, vend, p);
    }

    /** The table and index of the entry for va, making the table if asked to.
        Not found means no table, and when asked to make one, no frame for it. */
    method Walkpgdir(r: Frame, va: word, alloc: bool) returns (found: bool, t: Frame, i: nat)
      requires Valid() && r in spaces
      modifies this
      ensures Valid() && i == va / PGSIZE % PGWORDS
      ensures Now(old(spaces), spaces, r, old(spaces)[r].pages)
      ensures OnlyTables(old(own), own, r) && Kept(old(mem), old(own), mem, own)
      ensures found ==> va / 0x40_0000 in spaces[r].tables && t == spaces[r].tables[va / 0x40_0000] && t < NFRAMES
      ensures !found ==> (alloc ==> old(free) == []) && va / 0x40_0000 !in spaces[r].tables
      ensures !alloc || !found ==> mem == old(mem) && own == old(own) && spaces == old(spaces) && free == old(free) && freelist == old(freelist)
      ensures dry == old(dry) + (if alloc && !found then 1 else 0)
    {
      i := va / PGSIZE % PGWORDS;
      t := 0;
      var d := va / 0x40_0000;
      assert SpaceOk(mem, own, r, spaces[r]);
      var pde := mem[r][d];
      if pde % 2 == 1 {
        t := pde / PGSIZE;
        found := true;
      } else if !alloc {
        found := false;
      } else {
        found, t := NewTable(r, d);
      }
    }

    /** A zeroed table at entry d of the directory. */
    method NewTable(r: Frame, d: nat) returns (made: bool, t: Frame)
      requires Valid() && r in spaces && d < PGWORDS && d !in spaces[r].tables
      modifies this
      ensures Valid()
      ensures Now(old(spaces), spaces, r, old(spaces)[r].pages)
      ensures OnlyTables(old(own), own, r) && Kept(old(mem), old(own), mem, own)
      ensures made ==> d in spaces[r].tables && t == spaces[r].tables[d] && t < NFRAMES
      ensures !made ==> old(free) == [] && mem == old(mem) && own == old(own) && spaces == old(spaces) && free == [] && freelist == old(freelist)
      ensures dry == old(dry) + (if made then 0 else 1)
    {
      hide FreeOk, SpacesOk;
      made, t := false, 0;
      var v := Kalloc();
      if v != 0 {
        made, t := true, FrameOf(v);
        assert Addr(t) == v;
        Fill(t, Zero());
        AttachTable(r, d, t);
      }
    }

    method AttachTable(r: Frame, d: nat, t: Frame)
      requires Valid() && r in spaces && d < PGWORDS && d !in spaces[r].tables
      requires t in own && own[t] == Other && mem[t] == Zero()
      modifies this`mem, this`own, this`spaces
      ensures Valid() && own == old(own)[t := Table(r, d)]
      ensures spaces == old(spaces)[r := old(spaces)[r].(tables := old(spaces)[r].tables[d := t])]
      ensures old(own)[r] == Root && |mem| == old(|mem|) && forall f :: 0 <= f < |mem| && f != r ==> mem[f] == old(mem)[f]
    {
      assert SpaceOk(mem, own, r, spaces[r]);
      TableAdded(mem, own, spaces, r, d, t);
      FreeListKept(mem, Poke(mem, r, d, Pde(t)), freelist, own, own[t := Table(r, d)], free);
      mem := Poke(mem, r, d, Pde(t));
      own := own[t := Table(r, d)];
      spaces := spaces[r := spaces[r].(tables := spaces[r].tables[d := t])];
    }

    /** The holder of a frame writes it. */
    method Fill(f: Frame, p: Page)
      requires Valid() && f in own && own[f] == Other
      modifies this`mem
      ensures Valid() && mem == old(mem)[f := p]
    {
      FreeListKept(mem, mem[f := p], freelist, own, own, free);
      TablesUntouched(mem, mem[f := p], own, own[f := Other], spaces, f);
      assert own[f := Other] == own;
      mem := mem[f := p];
    }

    /** One page of mappages: the flat map gains v, or there was no frame for a table. */
    method MapPage(r: Frame, a: word, pa: word, perm: nat) returns (ok: bool)
      requires Valid() && r in spaces && a / PGSIZE !in spaces[r].pages
      requires pa % PGSIZE == 0 && perm < PGSIZE
      requires a / PGSIZE < USERPAGES ==> pa / PGSIZE in own && own[pa / PGSIZE] == Other
      modifies this
      ensures Valid()
      ensures ok ==> Now(old(spaces), spaces, r, old(spaces)[r].pages[a / PGSIZE := Mapping(pa / PGSIZE, Present(perm))])
      ensures ok ==> Granted(old(own), own, r, a / PGSIZE, pa / PGSIZE, 1) && Kept(old(mem), old(own), mem, own)
      ensures !ok ==> old(free) == [] && mem == old(mem) && own == old(own) && spaces == old(spaces) && free == [] && freelist == old(freelist)
      ensures dry == old(dry) + (if ok then 0 else 1)
    {
      hide PoolOk, FreeOk, SpacesOk;
      ghost var mem0, own0 := mem, own;
      var t, i;
      ok, t, i := Walkpgdir(r, a, true);
      if ok {
        assert a / PGSIZE / PGWORDS == a / 0x40_0000;
        ghost var mem1, own1 := mem, own;
        SetEntry(r, t, i, a / PGSIZE, Mapping(pa / PGSIZE, Present(perm)));
        GrantOne(own0, own1, r, a / PGSIZE, pa / PGSIZE);
        KeptThrough(mem0, own0, mem1, own1, mem, own);
      }
    }

    method SetEntry(r: Frame, t: Frame, i: nat, v: nat, m: Mapping)
      requires Valid() && r in spaces && v < ALLPAGES && v !in spaces[r].pages
      requires v / PGWORDS in spaces[r].tables && t == spaces[r].tables[v / PGWORDS] && t < NFRAMES && i == v % PGWORDS
      requires MappingOk(m) && (v < USERPAGES ==> m.frame in own && own[m.frame] == Other)
      modifies this`mem, this`own, this`spaces
      ensures Valid()
      ensures own == if v < USERPAGES then old(own)[m.frame := User(r, v)] else old(own)
      ensures spaces == old(spaces)[r := old(spaces)[r].(pages := old(spaces)[r].pages[v := m])]
      ensures t in own && own[t].Table? && |mem| == old(|mem|) && forall f :: 0 <= f < |mem| && f != t ==> mem[f] == old(mem)[f]
    {
      ghost var own' := if v < USERPAGES then own[m.frame := User(r, v)] else own;
      assert SpaceOk(mem, own, r, spaces[r]);
      PageAdded(mem, own, spaces, r, v, m);
      FreeListKept(mem, Poke(mem, t, i, Pte(m)), freelist, own, own', free);
      mem := Poke(mem, t, i, Pte(m));
      own := own';
      spaces := spaces[r := spaces[r].(pages := spaces[r].pages[v := m])];
    }

    /** mappages: the flat map gains exactly the pages of the range, or the first m
        of them when the frames for tables run out. */
    method Mappages(r: Frame, va: word, size: nat, pa: word, perm: nat) returns (ok: bool, ghost m: nat)
      requires Valid() && r in spaces && 0 < size && va + size <= WORD_LIMIT
      requires pa % PGSIZE == 0 && perm < PGSIZE && pa + PageCount(va, size) * PGSIZE <= WORD_LIMIT
      requires forall w: nat :: Within(va / PGSIZE, w, PageCount(va, size)) ==> w !in spaces[r].pages
      requires forall f: Frame :: Within(pa / PGSIZE, f, PageCount(va, size)) && va / PGSIZE + (f - pa / PGSIZE) < USERPAGES ==>
                 f in own && own[f] == Other
      modifies this
      ensures Valid() && m <= PageCount(va, size) && (ok <==> m == PageCount(va, size))
      ensures Mapped(old(mem), old(own), old(spaces), mem, own, spaces, r, va / PGSIZE, pa / PGSIZE, Present(perm), m)
      ensures !ok ==> free == []
      ensures dry == old(dry) + (if ok then 0 else 1)
    {
      ghost var v, f, n := va / PGSIZE, pa / PGSIZE, PageCount(va, size);
      assert spaces[r].pages + Run(v, f, Present(perm), 0) == spaces[r].pages;
      forall w: nat | v <= w < v + n ensures w !in spaces[r].pages {
        assert Within(v, w, n);
      }
      forall g: Frame | f <= g < f + n && v + (g - f) < USERPAGES ensures g in own && own[g] == Other {
        assert Within(f, g, n);
      }
      ok, m := MapAll(r, va / PGSIZE * PGSIZE, (va + size - 1) / PGSIZE * PGSIZE, pa, perm, v, f, n);
    }

    /** mappages' loop, over n pages from v on. */
    method MapAll(r: Frame, first: word, last: word, pa: word, perm: nat, ghost v: nat, ghost f: nat, ghost n: nat) returns (ok: bool, ghost m: nat)
      requires Valid() && r in spaces && 0 < n && perm < PGSIZE && v + n <= ALLPAGES && f + n <= ALLPAGES
      requires first == v * PGSIZE && last == (v + n - 1) * PGSIZE && pa == f * PGSIZE
      requires forall w: nat :: v <= w < v + n ==> w !in spaces[r].pages
      requires forall g: Frame :: f <= g < f + n && v + (g - f) < USERPAGES ==> g in own && own[g] == Other
      requires Mapped(mem, own, spaces, mem, own, spaces, r, v, f, Present(perm), 0)
      modifies this
      ensures Valid() && m <= n && (ok <==> m == n)
      ensures Mapped(old(mem), old(own), old(spaces), mem, own, spaces, r, v, f, Present(perm), m)
      ensures !ok ==> free == []
      ensures dry == old(dry) + (if ok then 0 else 1)
    {
      hide PoolOk, FreeOk, SpacesOk, Mapped;
      var a, p := first, pa;
      m := 0;
      ghost var mem0, own0, spaces0 := mem, own, spaces;
      while true
        invariant Valid() && m < n && a == (v + m) * PGSIZE && p == (f + m) * PGSIZE
        invariant Mapped(mem0, own0, spaces0, mem, own, spaces, r, v, f, Present(perm), m) && dry == old(dry)
        decreases n - m
      {
        ok := MapNext(r, a, p, perm, mem0, own0, spaces0, v, f, m);
        if !ok {
          return;
        }
        m := m + 1;
        if a == last {
          return;
        }
        a := a + PGSIZE;
        p := p + PGSIZE;
      }
    }

    /** mappages' loop body, after m pages. */
    method MapNext(r: Frame, a: word, pa: word, perm: nat, ghost mem0: seq<Page>, ghost own0: map<Frame, Owner>,
                   ghost spaces0: map<Frame, Space>, ghost v: nat, ghost f: nat, ghost m: nat) returns (ok: bool)
      requires Valid() && Mapped(mem0, own0, spaces0, mem, own, spaces, r, v, f, Present(perm), m)
      requires a == (v + m) * PGSIZE && pa == (f + m) * PGSIZE && perm < PGSIZE && v + m !in spaces0[r].pages
      requires v + m < USERPAGES ==> f + m in own0 && own0[f + m] == Other
      modifies this
      ensures Valid()
      ensures ok ==> Mapped(mem0, own0, spaces0, mem, own, spaces, r, v, f, Present(perm), m + 1)
      ensures !ok ==> Mapped(mem0, own0, spaces0, mem, own, spaces, r, v, f, Present(perm), m) && free == []
      ensures dry == old(dry) + (if ok then 0 else 1)
    {
      hide *;
      ghost var mem1, own1, spaces1 := mem, own, spaces;
      MappedHas(mem0, own0, spaces0, mem, own, spaces, r, v, f, Present(perm), m);
      WholePages(v + m);
      WholePages(f + m);
      ok := MapPage(r, a, pa, perm);
      if ok {
        MappedOn(mem0, own0, spaces0, mem1, own1, spaces1, mem, own, spaces, r, v, f, Present(perm), m);
      }
    }

    /** A user frame is freed while its entry still stands. */
    method Evict(v: word, ghost f: Frame)
      requires PoolOk(mem, own, first) && FreeOk(mem, freelist, own, free)
      requires f in own && own[f].User? && v == Addr(f)
      modifies this`mem, this`freelist, this`own, this`free
      ensures PoolOk(mem, own, first) && FreeOk(mem, freelist, own, free)
      ensures own == old(own)[f := Free]
      ensures |mem| == old(|mem|) && forall g :: 0 <= g < |mem| && g != f ==> mem[g] == old(mem)[g]
    {
      FreeListKept(mem, mem, freelist, own, own[f := Other], free);
      own := own[f := Other];
      Kfree(v, f);
    }

    method ClearWord(t: Frame, i: nat)
      requires PoolOk(mem, own, first) && FreeOk(mem, freelist, own, free)
      requires t in own && own[t].Table? && i < PGWORDS
      modifies this`mem
      ensures PoolOk(mem, own, first) && FreeOk(mem, freelist, own, free) && mem == Poke(old(mem), t, i, 0)
    {
      FreeListKept(mem, Poke(mem, t, i, 0), freelist, own, own, free);
      mem := Poke(mem, t, i, 0);
    }

    /** deallocuvm's removal of one present page: free the frame, clear the entry. */
    method FreePage(r: Frame, t: Frame, i: nat, ghost v: nat, ghost f: Frame)
      requires Valid() && r in spaces && v < USERPAGES && v in spaces[r].pages && f == spaces[r].pages[v].frame
      requires v / PGWORDS in spaces[r].tables && t == spaces[r].tables[v / PGWORDS] && t < NFRAMES && i == v % PGWORDS
      modifies this
      ensures Valid() && f in old(own) && old(own)[f] == User(r, v) && own == old(own)[f := Free]
      ensures spaces == old(spaces)[r := old(spaces)[r].(pages := old(spaces)[r].pages - {v})]
      ensures Kept(old(mem), old(own), mem, own)
      ensures dry == old(dry)
    {
      ghost var mem0, own0 := mem, own;
      PageThere(mem, own, spaces, r, v);
      hide SpacesOk, FreeOk, PoolOk;
      var pte := mem[t][i];
      Evict(pte / PGSIZE * PGSIZE + KERNBASE, f);
      ClearWord(t, i);
      PageFreed(mem0, mem, own0, spaces, r, v, t, f);
      spaces := spaces[r := spaces[r].(pages := spaces[r].pages - {v})];
    }

    /** deallocuvm's loop body at the page address a, and the address it goes on to. */
    method DeallocNext(r: Frame, a: word, ghost mem0: seq<Page>, ghost own0: map<Frame, Owner>, ghost spaces0: map<Frame, Space>,
                       ghost lo: nat, ghost hi: nat) returns (next: nat)
      requires Valid() && r in spaces && a % PGSIZE == 0 && lo <= a / PGSIZE < hi <= USERPAGES
      requires Unmapped(own0, spaces0, own, spaces, r, lo, a / PGSIZE) && NoLeaks(own0, spaces0) && Kept(mem0, own0, mem, own)
      modifies this
      ensures Valid() && next % PGSIZE == 0 && a < next <= KERNBASE
      ensures Unmapped(own0, spaces0, own, spaces, r, lo, Upto(next, hi))
      ensures Kept(mem0, own0, mem, own)
      ensures dry == old(dry)
    {
      hide PoolOk, FreeOk, SpacesOk, NoLeaks, Unmapped, Kept, Now, OnlyTables;
      ghost var v := a / PGSIZE;
      assert v / PGWORDS == a / 0x40_0000 && a == v * PGSIZE;
      assert r in spaces0 by { Same(own0, spaces0, own, spaces, r, lo, v); }
      var found, t, i := Walkpgdir(r, a, false);
      if !found {
        next := (a / 0x40_0000 + 1) * 0x40_0000;
        GoPast(mem, own0, spaces0, own, spaces, r, lo, v, hi, next / PGSIZE);
      } else {
        next := a + PGSIZE;
        DeallocFound(r, t, i, mem0, own0, spaces0, lo, v);
      }
    }

    /** The table is there; its entry may be empty. */
    method DeallocFound(r: Frame, t: Frame, i: nat, ghost mem0: seq<Page>, ghost own0: map<Frame, Owner>, ghost spaces0: map<Frame, Space>,
                        ghost lo: nat, ghost v: nat)
      requires Valid() && r in spaces && lo <= v < USERPAGES
      requires v / PGWORDS in spaces[r].tables && t == spaces[r].tables[v / PGWORDS] && t < NFRAMES && i == v % PGWORDS
      requires Unmapped(own0, spaces0, own, spaces, r, lo, v) && NoLeaks(own0, spaces0) && Kept(mem0, own0, mem, own)
      modifies this
      ensures Valid() && Unmapped(own0, spaces0, own, spaces, r, lo, v + 1) && Kept(mem0, own0, mem, own)
      ensures dry == old(dry)
    {
      hide FreeOk, SpacesOk, NoLeaks;
      PageThere(mem, own, spaces, r, v);
      PagesAbove(own0, spaces0, own, spaces, r, lo, v, v);
      ghost var mem1, own1, spaces1 := mem, own, spaces;
      if mem[t][i] % 2 == 1 {
        ghost var f := spaces[r].pages[v].frame;
        OnlyFrame(own0, spaces0, own, spaces, r, lo, v, f);
        FreePage(r, t, i, v, f);
        OneMoreGone(own0, spaces0, own1, spaces1, r, lo, v, f);
        KeptThrough(mem0, own0, mem1, own1, mem, own);
      } else {
        SkipAbsent(own0, spaces0, own, spaces, r, lo, v, v + 1);
      }
    }

    /** deallocuvm: exactly the pages from PGROUNDUP(newsz) up to oldsz go. */
    method Deallocuvm(r: Frame, oldsz: word, newsz: word) returns (sz: word)
      requires Valid() && r in spaces && oldsz <= KERNBASE
      modifies this
      ensures Valid() && sz == if newsz >= oldsz then oldsz else newsz
      ensures newsz >= oldsz ==> mem == old(mem) && own == old(own) && spaces == old(spaces)
      ensures newsz < oldsz ==> Unmapped(old(own), old(spaces), own, spaces, r, RoundUp(newsz), RoundUp(oldsz))
      ensures Kept(old(mem), old(own), mem, own)
      ensures dry == old(dry)
    {
      if newsz >= oldsz {
        return oldsz;
      }
      ghost var mem0, own0, spaces0 := mem, own, spaces;
      ghost var lo, hi := RoundUp(newsz), RoundUp(oldsz);
      assert NoLeaks(own0, spaces0);
      NothingYet(own, spaces, r, lo);
      hide PoolOk, FreeOk, SpacesOk, NoLeaks, Unmapped, Kept, Upto, RoundUp;
      FirstPage(newsz, oldsz);
      var a := RoundUp(newsz) * PGSIZE;
      while a < oldsz
        invariant Valid() && r in spaces && a % PGSIZE == 0 && lo * PGSIZE <= a <= KERNBASE
        invariant Unmapped(own0, spaces0, own, spaces, r, lo, Upto(a, hi))
        invariant Kept(mem0, own0, mem, own) && dry == old(dry)
      {
        AtPage(a, oldsz, lo);
        a := DeallocNext(r, a, mem0, own0, spaces0, lo, hi);
        Same(own0, spaces0, own, spaces, r, lo, Upto(a, hi));
      }
      LastPage(a, oldsz);
      sz := newsz;
    }

    /** mappages of one page. */
    method MapUser(r: Frame, a: word, pa: word, perm: nat) returns (ok: bool)
      requires Valid() && r in spaces && a % PGSIZE == 0 && a / PGSIZE < USERPAGES && a / PGSIZE !in spaces[r].pages
      requires pa % PGSIZE == 0 && perm < PGSIZE && pa / PGSIZE in own && own[pa / PGSIZE] == Other
      modifies this
      ensures Valid() && Kept(old(mem), old(own), mem, own)
      ensures ok ==> Now(old(spaces), spaces, r, old(spaces)[r].pages[a / PGSIZE := Mapping(pa / PGSIZE, Present(perm))])
      ensures ok ==> Granted(old(own), own, r, a / PGSIZE, pa / PGSIZE, 1)
      ensures !ok ==> Now(old(spaces), spaces, r, old(spaces)[r].pages) && OnlyTables(old(own), own, r)
      ensures dry == old(dry) + (if ok then 0 else 1)
    {
      hide FreeOk, SpacesOk;
      ghost var pages, v, f := spaces[r].pages, a / PGSIZE, pa / PGSIZE;
      ghost var m;
      assert PageCount(a, PGSIZE) == 1;
      ok, m := Mappages(r, a, PGSIZE, pa, perm);
      RunExtended(pages, v, f, Present(perm), 0);
      assert pages + Run(v, f, Present(perm), 0) == pages;
    }

    /** allocuvm's loop body at page k. On failure a frame may be left held. */
    method AllocNext(r: Frame, a: word, ghost mem0: seq<Page>, ghost own0: map<Frame, Owner>, ghost spaces0: map<Frame, Space>,
                     ghost lo: nat, ghost k: nat) returns (ok: bool, held: word, ghost f: Frame)
      requires Valid() && Grew(mem0, own0, spaces0, mem, own, spaces, r, lo, k)
      requires a == k * PGSIZE && lo <= k < USERPAGES && k !in spaces0[r].pages
      modifies this
      ensures Valid()
      ensures ok ==> Grew(mem0, own0, spaces0, mem, own, spaces, r, lo, k + 1)
      ensures !ok && held == 0 ==> Grew(mem0, own0, spaces0, mem, own, spaces, r, lo, k)
      ensures !ok && held != 0 ==> held == Addr(f) && f in own && own[f] == Other
                                   && Grew(mem0, own0, spaces0, mem, own[f := Free], spaces, r, lo, k)
      ensures dry == old(dry) + (if ok then 0 else 1)
    {
      ok, f := false, 0;
      ghost var mem1, own1, spaces1 := mem, own, spaces;
      assert SpacesOk(mem1, own1, spaces1);
      assert k !in spaces[r].pages;
      hide FreeOk, SpacesOk, Grew;
      held := Kalloc();
      if held != 0 {
        f := FrameOf(held);
        assert Addr(f) == held;
        WasFree(mem0, own0, spaces0, mem1, own1, spaces1, r, lo, k, f);
        Fill(FrameOf(held), Zero());
        ok := PutPage(r, a, held, mem0, own0, spaces0, mem1, own1, spaces1, lo, k, f);
      }
    }

    /** Maps the frame just taken and zeroed. */
    method PutPage(r: Frame, a: word, held: word, ghost mem0: seq<Page>, ghost own0: map<Frame, Owner>, ghost spaces0: map<Frame, Space>,
                   ghost mem1: seq<Page>, ghost own1: map<Frame, Owner>, ghost spaces1: map<Frame, Space>,
                   ghost lo: nat, ghost k: nat, ghost f: Frame) returns (ok: bool)
      requires Valid() && Grew(mem0, own0, spaces0, mem1, own1, spaces1, r, lo, k) && SpacesOk(mem1, own1, spaces1)
      requires a == k * PGSIZE && lo <= k < USERPAGES && k !in spaces1[r].pages
      requires f in own0 && own0[f] == Free && f in own1 && own1[f] == Free && f < |mem1| && held == Addr(f)
      requires mem == mem1[f := Zero()] && own == own1[f := Other] && spaces == spaces1
      modifies this
      ensures Valid()
      ensures ok ==> Grew(mem0, own0, spaces0, mem, own, spaces, r, lo, k + 1)
      ensures !ok ==> f in own && own[f] == Other && Grew(mem0, own0, spaces0, mem, own[f := Free], spaces, r, lo, k)
      ensures dry == old(dry) + (if ok then 0 else 1)
    {
      hide PoolOk, FreeOk, SpacesOk, Grew, Now, Granted, OnlyTables, Kept;
      assert r in spaces by { GrewIn(mem0, own0, spaces0, mem1, own1, spaces1, r, lo, k); }
      ok := MapUser(r, a, held - KERNBASE, PTE_W + PTE_U);
      if ok {
        GrewOne(mem0, own0, spaces0, mem1, own1, spaces1, mem, own, spaces, r, lo, k, f);
      } else {
        GrewHeld(mem0, own0, spaces0, mem1, own1, spaces1, mem, own, spaces, r, lo, k, f);
      }
    }

    /** allocuvm: on success the pages from PGROUNDUP(oldsz) up to newsz are there,
        zeroed; on failure the user mapping is as it was, and of the frames taken
        only those of new tables are not free again. */
    method Allocuvm(r: Frame, oldsz: word, newsz: word) returns (sz: word)
      requires Valid() && r in spaces && oldsz <= KERNBASE
      requires forall v :: RoundUp(oldsz) <= v < RoundUp(newsz) ==> v !in spaces[r].pages
      modifies this
      ensures Valid()
      ensures newsz >= KERNBASE ==> sz == 0
      ensures newsz < KERNBASE && newsz < oldsz ==> sz == oldsz
      ensures newsz >= KERNBASE || newsz < oldsz ==> mem == old(mem) && own == old(own) && spaces == old(spaces)
      ensures oldsz <= newsz < KERNBASE ==>
                || (sz == newsz && Grew(old(mem), old(own), old(spaces), mem, own, spaces, r, RoundUp(oldsz), RoundUp(newsz)) && dry == old(dry))
                || (sz == 0 && newsz > 0 && Failed(old(mem), old(own), old(spaces), mem, own, spaces, r) && dry == old(dry) + 1)
    {
      if newsz >= KERNBASE {
        return 0;
      }
      if newsz < oldsz {
        return oldsz;
      }
      GrewNothing(mem, own, spaces, r, RoundUp(oldsz));
      hide PoolOk, FreeOk, Grew, Failed, NoLeaks;
      var ok := AllocAll(r, oldsz, newsz, mem, own, spaces);
      sz := if ok then newsz else 0;
    }

    /** allocuvm's loop, from the state allocuvm began in. */
    method AllocAll(r: Frame, oldsz: word, newsz: word, ghost mem0: seq<Page>, ghost own0: map<Frame, Owner>, ghost spaces0: map<Frame, Space>)
        returns (ok: bool)
      requires Valid() && oldsz <= newsz < KERNBASE && Grew(mem0, own0, spaces0, mem, own, spaces, r, RoundUp(oldsz), RoundUp(oldsz))
      requires NoLeaks(own0, spaces0) && forall v :: RoundUp(oldsz) <= v < RoundUp(newsz) ==> v !in spaces0[r].pages
      modifies this
      ensures Valid()
      ensures ok ==> Grew(mem0, own0, spaces0, mem, own, spaces, r, RoundUp(oldsz), RoundUp(newsz))
      ensures !ok ==> newsz > 0 && Failed(mem0, own0, spaces0, mem, own, spaces, r)
      ensures dry == old(dry) + (if ok then 0 else 1)
    {
      hide PoolOk, FreeOk, SpacesOk, Grew, Failed, NoLeaks;
      ghost var lo, hi := RoundUp(oldsz), RoundUp(newsz);
      ghost var k := lo;
      var a := RoundUp(oldsz) * PGSIZE;
      while a < newsz
        invariant Valid() && a == k * PGSIZE && lo <= k <= hi
        invariant Grew(mem0, own0, spaces0, mem, own, spaces, r, lo, k) && dry == old(dry)
      {
        ok := AllocOrUndo(r, a, oldsz, newsz, mem0, own0, spaces0, k);
        if !ok {
          return;
        }
        a := a + PGSIZE;
        k := k + 1;
      }
      ok := true;
    }

    /** allocuvm's loop body with its failure path. */
    method AllocOrUndo(r: Frame, a: word, oldsz: word, newsz: word, ghost mem0: seq<Page>, ghost own0: map<Frame, Owner>, ghost spaces0: map<Frame, Space>,
                       ghost k: nat) returns (ok: bool)
      requires Valid() && oldsz < newsz < KERNBASE && RoundUp(oldsz) <= k < RoundUp(newsz) && a == k * PGSIZE
      requires Grew(mem0, own0, spaces0, mem, own, spaces, r, RoundUp(oldsz), k)
      requires NoLeaks(own0, spaces0) && forall v :: RoundUp(oldsz) <= v < RoundUp(newsz) ==> v !in spaces0[r].pages
      modifies this
      ensures Valid()
      ensures ok ==> Grew(mem0, own0, spaces0, mem, own, spaces, r, RoundUp(oldsz), k + 1)
      ensures !ok ==> Failed(mem0, own0, spaces0, mem, own, spaces, r)
      ensures dry == old(dry) + (if ok then 0 else 1)
    {
      hide PoolOk, FreeOk, SpacesOk, Grew, Failed, NoLeaks;
      var held;
      ghost var f;
      ok, held, f := AllocNext(r, a, mem0, own0, spaces0, RoundUp(oldsz), k);
      if !ok {
        GrewIn(mem0, own0, spaces0, mem, if held != 0 then own[f := Free] else own, spaces, r, RoundUp(oldsz), k);
        Shrink(r, oldsz, newsz, held, mem0, own0, spaces0, k, f);
      }
    }

    /** allocuvm's failure path: deallocuvm, then kfree of the frame still held. */
    method Shrink(r: Frame, oldsz: word, newsz: word, held: word, ghost mem0: seq<Page>, ghost own0: map<Frame, Owner>, ghost spaces0: map<Frame, Space>,
                  ghost k: nat, ghost f: Frame)
      requires Valid() && r in spaces && oldsz < newsz < KERNBASE && RoundUp(oldsz) <= k <= RoundUp(newsz)
      requires held != 0 ==> held == Addr(f) && f in own && own[f] == Other
      requires Grew(mem0, own0, spaces0, mem, if held != 0 then own[f := Free] else own, spaces, r, RoundUp(oldsz), k)
      requires NoLeaks(own0, spaces0) && forall v :: RoundUp(oldsz) <= v < RoundUp(newsz) ==> v !in spaces0[r].pages
      modifies this
      ensures Valid() && Failed(mem0, own0, spaces0, mem, own, spaces, r)
      ensures dry == old(dry)
    {
      ghost var mem1, own1, spaces1 := mem, own, spaces;
      hide PoolOk, FreeOk, SpacesOk, NoLeaks, Grew, Unmapped, Kept;
      var sz := Deallocuvm(r, newsz, oldsz);
      ghost var mem2, own2, spaces2 := mem, own, spaces;
      if held != 0 {
        assert f in own && own[f] == Other by { HeldThrough(own1, spaces1, own, spaces, r, RoundUp(oldsz), RoundUp(newsz), f); }
        Release(held, f);
        ThenRelease(mem1, own1, spaces1, mem2, own2, spaces2, mem, r, RoundUp(oldsz), RoundUp(newsz), f);
        GrewBack(mem0, own0, spaces0, mem1, own1[f := Free], spaces1, mem, own, spaces, r, RoundUp(oldsz), k, RoundUp(newsz));
      } else {
        GrewBack(mem0, own0, spaces0, mem1, own1, spaces1, mem, own, spaces, r, RoundUp(oldsz), k, RoundUp(newsz));
      }
    }

    /** freevm: each user frame, table and the directory is freed, once. */
    method Freevm(r: Frame)
      requires Valid() && r in spaces
      modifies this
      ensures Valid() && GaveUp(old(own), old(spaces), own, spaces, r) && Kept(old(mem), old(own), mem, own)
      ensures dry == old(dry)
    {
      hide FreeOk, SpacesOk, NoLeaks, GaveUp, Kept, Unmapped, TablesFreed;
      ghost var mem0, own0, spaces0 := mem, own, spaces;
      RootIs(mem, own, spaces, r);
      var sz := Deallocuvm(r, KERNBASE, 0);
      ghost var mem1, own1, spaces1 := mem, own, spaces;
      NoUserLeft(own0, spaces0, own, spaces, r);
      FreeTables(r);
      ghost var mem2, own2 := mem, own;
      AllFreed(own0, spaces0, own1, spaces1, own, r);
      RootHeld(own1, own, r);
      Release(r * PGSIZE + KERNBASE, r);
      FreedKept(mem0, own0, mem1, own1, mem2, own2, mem, own, spaces0, spaces1, r);
    }

    /** freevm's loop over the directory. */
    method FreeTables(r: Frame)
      requires Valid() && r in spaces && forall v :: v in spaces[r].pages ==> v >= USERPAGES
      modifies this
      ensures Valid() && spaces == old(spaces) - {r}
      ensures TablesFreed(old(own), own, r, PGWORDS) && Kept(old(mem), old(own), mem, own)
      ensures dry == old(dry)
    {
      ghost var mem0, own0 := mem, own;
      ghost var spaces0: map<Frame, Space> := spaces;
      ghost var left: map<Frame, Space> := spaces - {r};
      Disband(r);
      hide PoolOk, FreeOk, SpacesOk, TablesFreed, Kept;
      for i := 0 to PGWORDS
        invariant Valid() && spaces == left && |mem| == |mem0| && r < |mem| && mem[r] == mem0[r]
        invariant TablesFreed(own0, own, r, i) && Kept(mem0, own0, mem, own) && dry == old(dry)
      {
        FreeTable(r, i, mem0, own0, spaces0);
      }
    }

    /** The directory's frames become the caller's to free. */
    ghost method Disband(r: Frame)
      requires Valid() && r in spaces && forall v :: v in spaces[r].pages ==> v >= USERPAGES
      modifies this`own, this`spaces
      ensures Valid() && spaces == old(spaces) - {r} && r < |mem|
      ensures TablesFreed(old(own), own, r, 0) && Kept(mem, old(own), mem, own)
    {
      RootIs(mem, own, spaces, r);
      RootDropped(mem, own, spaces, r);
      DisownedIs(own, r);
      FreeListKept(mem, mem, freelist, own, Disowned(own, r), free);
      own := Disowned(own, r);
      spaces := spaces - {r};
    }

    method FreeTable(r: Frame, i: nat, ghost mem0: seq<Page>, ghost own0: map<Frame, Owner>, ghost spaces0: map<Frame, Space>)
      requires Valid() && SpacesOk(mem0, own0, spaces0) && r in spaces0 && i < PGWORDS
      requires |mem| == |mem0| && r < |mem| && mem[r] == mem0[r] && TablesFreed(own0, own, r, i) && Kept(mem0, own0, mem, own)
      modifies this`mem, this`freelist, this`own, this`free
      ensures Valid() && |mem| == |mem0| && mem[r] == mem0[r] && TablesFreed(own0, own, r, i + 1) && Kept(mem0, own0, mem, own)
    {
      hide PoolOk, FreeOk, SpacesOk, TablesFreed, Kept, Pde, Addr, NoLeaks;
      TableUnique(mem0, own0, spaces0, r, i);
      RootIs(mem0, own0, spaces0, r);
      ghost var t := if i in spaces0[r].tables then spaces0[r].tables[i] else 0;
      EntryAddr(t);
      if mem[r][i] % 2 == 1 {
        FreedNext(own0, own, r, i, t);
        ghost var mem1, own1 := mem, own;
        AddrFits(mem, own, first, t);
        Release(mem[r][i] / PGSIZE * PGSIZE + KERNBASE, t);
        KeptFreed(mem0, own0, mem1, own1, mem, t);
      } else {
        FreedSkip(own0, own, r, i);
      }
    }

    /** A zeroed page directory, or no frame for it. */
    method NewRoot() returns (made: bool, r: Frame)
      requires Valid()
      modifies this
      ensures Valid() && Kept(old(mem), old(own), mem, own)
      ensures made ==> Since(old(own), old(spaces), own, spaces, r) && spaces[r] == Space(map[], map[])
      ensures !made ==> own == old(own) && spaces == old(spaces)
      ensures dry == old(dry) + (if made then 0 else 1)
    {
      made, r := false, 0;
      ghost var mem0, own0, spaces0 := mem, own, spaces;
      var v := Kalloc();
      if v != 0 {
        made, r := true, FrameOf(v);
        assert Addr(r) == v;
        Fill(r, Zero());
        Found(r);
        NewSince(own0, spaces0, r);
      }
    }

    ghost method Found(r: Frame)
      requires Valid() && r in own && own[r] == Other && mem[r] == Zero()
      modifies this`own, this`spaces
      ensures Valid() && own == old(own)[r := Root] && spaces == old(spaces)[r := Space(map[], map[])] && r !in old(spaces)
    {
      forall q | q in spaces ensures q != r {
        assert SpaceOk(mem, own, q, spaces[q]);
      }
      RootMade(mem, own, spaces, r);
      FreeListKept(mem, mem, freelist, own, own[r := Root], free);
      own := own[r := Root];
      spaces := spaces[r := Space(map[], map[])];
    }

    /** setupkvm: a directory with exactly the kernel's pages, made of free frames;
        on failure every frame taken is free again. */
    method Setupkvm(data: word) returns (ok: bool, r: Frame)
      requires Valid() && DataOk(data)
      modifies this
      ensures Valid() && Kept(old(mem), old(own), mem, own)
      ensures ok ==> Since(old(own), old(spaces), own, spaces, r) && spaces[r].pages == KernelPages(data, 4)
      ensures ok ==> forall va: nat :: va < WORD_LIMIT ==> KernelAt(mem, r, data, va)
      ensures !ok ==> own == old(own) && spaces == old(spaces)
      ensures dry == old(dry) + (if ok then 0 else 1)
    {
      ghost var mem0, own0, spaces0 := mem, own, spaces;
      assert NoLeaks(own0, spaces0);
      hide PoolOk, FreeOk, SpacesOk, NoLeaks, Kept, KernelPages, KernelMap, KernelAt;
      ok, r := NewRoot();
      if ok {
        ok := MapKernel(data, r, mem0, own0, spaces0);
        if ok {
          KernelMade(mem, own, spaces, first, r, data);
        }
      }
    }

    method MapKernel(data: word, r: Frame, ghost mem0: seq<Page>, ghost own0: map<Frame, Owner>, ghost spaces0: map<Frame, Space>) returns (ok: bool)
      requires Valid() && DataOk(data) && NoLeaks(own0, spaces0)
      requires Since(own0, spaces0, own, spaces, r) && Kept(mem0, own0, mem, own) && spaces[r].pages == map[]
      modifies this
      ensures Valid() && Kept(mem0, own0, mem, own)
      ensures ok ==> Since(own0, spaces0, own, spaces, r) && spaces[r].pages == KernelPages(data, 4)
      ensures !ok ==> own == own0 && spaces == spaces0
      ensures dry == old(dry) + (if ok then 0 else 1)
    {
      hide PoolOk, FreeOk, SpacesOk, NoLeaks, Kept, KernelMap;
      for j := 0 to 4
        invariant Valid() && Since(own0, spaces0, own, spaces, r) && Kept(mem0, own0, mem, own)
        invariant spaces[r].pages == KernelPages(data, j) && dry == old(dry)
      {
        ok := MapEntry(data, r, j, mem0, own0, spaces0);
        if !ok {
          Undo(r, mem0, own0, spaces0);
          return;
        }
      }
      ok := true;
    }

    /** One entry of the kernel's table. */
    method MapEntry(data: word, r: Frame, j: nat, ghost mem0: seq<Page>, ghost own0: map<Frame, Owner>, ghost spaces0: map<Frame, Space>) returns (ok: bool)
      requires Valid() && DataOk(data) && j < 4
      requires Since(own0, spaces0, own, spaces, r) && Kept(mem0, own0, mem, own) && spaces[r].pages == KernelPages(data, j)
      modifies this
      ensures Valid() && Since(own0, spaces0, own, spaces, r) && Kept(mem0, own0, mem, own)
      ensures ok ==> spaces[r].pages == KernelPages(data, j + 1)
      ensures dry == old(dry) + (if ok then 0 else 1)
    {
      ghost var mem1, own1, spaces1 := mem, own, spaces;
      KernelRange(data, j);
      hide PoolOk, FreeOk, SpacesOk, Kept;
      var k := KernelMap(data, j);
      ghost var m;
      ok, m := Mappages(r, k.virt, k.size, k.start, k.perm);
      SinceTables(own0, spaces0, own1, spaces1, own, spaces, r, k.virt / PGSIZE, k.start / PGSIZE, m);
      KeptOnly(mem0, own0, spaces0, mem1, own1, spaces1, mem, own, r);
    }

    /** freevm of a directory made since, on a failure path. */
    method Undo(r: Frame, ghost mem0: seq<Page>, ghost own0: map<Frame, Owner>, ghost spaces0: map<Frame, Space>)
      requires Valid() && NoLeaks(own0, spaces0) && Since(own0, spaces0, own, spaces, r) && Kept(mem0, own0, mem, own)
      modifies this
      ensures Valid() && own == own0 && spaces == spaces0 && Kept(mem0, own0, mem, own)
      ensures dry == old(dry)
    {
      hide PoolOk, FreeOk, SpacesOk, NoLeaks, Kept, GaveUp;
      ghost var mem1, own1, spaces1 := mem, own, spaces;
      RootIs(mem, own, spaces, r);
      Freevm(r);
      SinceUndone(own0, spaces0, own1, spaces1, own, spaces, r);
      KeptOnly(mem0, own0, spaces0, mem1, own1, spaces1, mem, own, r);
    }

    /** copyuvm: on success the child has the parent's user pages below sz with
        equal flags and contents, on frames of its own, and the kernel's pages; on
        failure every frame taken is free again. */
    method Copyuvm(r: Frame, sz: word, data: word) returns (ok: bool, d: Frame)
      requires Valid() && DataOk(data) && r in spaces && sz <= KERNBASE
      requires forall v :: 0 <= v < RoundUp(sz) ==> v in spaces[r].pages
      modifies this
      ensures Valid() && Kept(old(mem), old(own), mem, own)
      ensures ok ==> Copying(old(mem), old(own), old(spaces), mem, own, spaces, r, d, KernelPages(data, 4), RoundUp(sz))
      ensures ok ==> forall va: nat :: KERNBASE <= va < WORD_LIMIT ==> KernelAt(mem, d, data, va)
      ensures !ok ==> own == old(own) && spaces == old(spaces)
      ensures dry == old(dry) + (if ok then 0 else 1)
    {
      ghost var mem0, own0, spaces0 := mem, own, spaces;
      KernelRange(data, 4);
      hide KernelAt;
      ok, d := Setupkvm(data);
      if ok {
        ok := CopyAll(r, d, sz, KernelPages(data, 4), mem0, own0, spaces0);
        if ok {
          KernelCopied(mem0, own0, spaces0, mem, own, spaces, first, r, d, data, RoundUp(sz));
        }
      }
    }

    /** copyuvm's loop. */
    method CopyAll(r: Frame, d: Frame, sz: word, ghost kernel: map<nat, Mapping>,
                   ghost mem0: seq<Page>, ghost own0: map<Frame, Owner>, ghost spaces0: map<Frame, Space>) returns (ok: bool)
      requires Valid() && sz <= KERNBASE && Origin(mem0, own0, spaces0, first, kernel)
      requires Copying(mem0, own0, spaces0, mem, own, spaces, r, d, kernel, 0)
      requires forall v :: 0 <= v < RoundUp(sz) ==> v in spaces0[r].pages
      modifies this
      ensures Valid() && Kept(mem0, own0, mem, own)
      ensures ok ==> Copying(mem0, own0, spaces0, mem, own, spaces, r, d, kernel, RoundUp(sz))
      ensures !ok ==> own == own0 && spaces == spaces0
      ensures dry == old(dry) + (if ok then 0 else 1)
    {
      hide PoolOk, FreeOk, SpacesOk, Origin, Since, Copied, Kept;
      ghost var k := 0;
      var i := 0;
      while i < sz
        invariant Valid() && i == k * PGSIZE && 0 <= k <= RoundUp(sz)
        invariant Copying(mem0, own0, spaces0, mem, own, spaces, r, d, kernel, k) && dry == old(dry)
      {
        ok := CopyOrUndo(r, d, i, kernel, mem0, own0, spaces0, k);
        if !ok {
          return;
        }
        i := i + PGSIZE;
        k := k + 1;
      }
      ok := true;
    }

    /** copyuvm's loop body at page k, with its failure path. */
    method CopyOrUndo(r: Frame, d: Frame, i: word, ghost kernel: map<nat, Mapping>,
                      ghost mem0: seq<Page>, ghost own0: map<Frame, Owner>, ghost spaces0: map<Frame, Space>, ghost k: nat) returns (ok: bool)
      requires Valid() && i == k * PGSIZE && k < USERPAGES && Origin(mem0, own0, spaces0, first, kernel)
      requires Copying(mem0, own0, spaces0, mem, own, spaces, r, d, kernel, k) && k in spaces0[r].pages
      modifies this
      ensures Valid() && Kept(mem0, own0, mem, own)
      ensures ok ==> Copying(mem0, own0, spaces0, mem, own, spaces, r, d, kernel, k + 1)
      ensures !ok ==> own == own0 && spaces == spaces0
      ensures dry == old(dry) + (if ok then 0 else 1)
    {
      hide PoolOk, FreeOk, Since, Copied, Kept;
      ok := CopyNext(r, d, i, kernel, mem0, own0, spaces0, k);
      if !ok {
        assert NoLeaks(own0, spaces0);
        Undo(d, mem0, own0, spaces0);
      }
    }

    method CopyNext(r: Frame, d: Frame, i: word, ghost kernel: map<nat, Mapping>,
                    ghost mem0: seq<Page>, ghost own0: map<Frame, Owner>, ghost spaces0: map<Frame, Space>, ghost k: nat) returns (ok: bool)
      requires Valid() && i == k * PGSIZE && k < USERPAGES && Origin(mem0, own0, spaces0, first, kernel)
      requires Copying(mem0, own0, spaces0, mem, own, spaces, r, d, kernel, k) && k in spaces0[r].pages
      modifies this
      ensures Valid()
      ensures ok ==> Copying(mem0, own0, spaces0, mem, own, spaces, r, d, kernel, k + 1)
      ensures !ok ==> Since(own0, spaces0, own, spaces, d) && Kept(mem0, own0, mem, own)
      ensures dry == old(dry) + (if ok then 0 else 1)
    {
      hide FreeOk, SpacesOk, NoLeaks, Copied, Since, Kept;
      ok := false;
      ghost var mem1, own1, spaces1 := mem, own, spaces;
      var pte := Lookup(r, i, k, mem0, own0, spaces0, d);
      NotYetCopied(mem0, own0, spaces0, mem, own, spaces, r, d, kernel, k);
      RootIs(mem, own, spaces, d);
      hide Origin, Copying;
      var held := Kalloc();
      if held != 0 {
        ghost var f := FrameOf(held);
        assert Addr(f) == held;
        SinceFree(own0, spaces0, own1, spaces1, d, f);
        Fill(FrameOf(held), mem[pte / PGSIZE]);
        ok := PlaceCopy(r, d, i, held, pte % PGSIZE, kernel, mem0, own0, spaces0, mem1, own1, spaces1, k, f);
      }
    }

    /** The parent's entry for page k, with its contents as they were. */
    method Lookup(r: Frame, i: word, ghost k: nat, ghost mem0: seq<Page>, ghost own0: map<Frame, Owner>, ghost spaces0: map<Frame, Space>, ghost d: Frame) returns (pte: word)
      requires Valid() && i == k * PGSIZE && k < USERPAGES && r in spaces0 && k in spaces0[r].pages
      requires SpacesOk(mem0, own0, spaces0) && PoolOk(mem0, own0, first)
      requires Since(own0, spaces0, own, spaces, d) && Kept(mem0, own0, mem, own)
      ensures pte % PGSIZE == spaces0[r].pages[k].flags && pte / PGSIZE == spaces0[r].pages[k].frame && pte % 2 == 1
      ensures pte / PGSIZE < NFRAMES && mem[pte / PGSIZE] == mem0[pte / PGSIZE]
    {
      hide FreeOk, SpacesOk, PoolOk, Pte, MappingOk;
      assert spaces[r] == spaces0[r];
      WalkTo(mem, own, spaces, first, r, k);
      WalkTo(mem0, own0, spaces0, first, r, k);
      PteParts(spaces0[r].pages[k], k, i);
      var pde := mem[r][i / 0x40_0000];
      pte := mem[pde / PGSIZE][i / PGSIZE % PGWORDS];
    }

    /** Maps the frame just filled with the parent's words. */
    method PlaceCopy(r: Frame, d: Frame, i: word, held: word, flags: nat, ghost kernel: map<nat, Mapping>,
                     ghost mem0: seq<Page>, ghost own0: map<Frame, Owner>, ghost spaces0: map<Frame, Space>,
                     ghost mem1: seq<Page>, ghost own1: map<Frame, Owner>, ghost spaces1: map<Frame, Space>, ghost k: nat, ghost f: Frame) returns (ok: bool)
      requires Valid() && i == k * PGSIZE && k < USERPAGES && PoolOk(mem1, own1, first) && SpacesOk(mem1, own1, spaces1)
      requires Copying(mem0, own0, spaces0, mem1, own1, spaces1, r, d, kernel, k) && k in spaces0[r].pages
      requires flags == spaces0[r].pages[k].flags && flags < PGSIZE && flags % 2 == 1
      requires d in spaces && k !in spaces1[d].pages
      requires f in own0 && own0[f] == Free && f in own1 && own1[f] == Free && f < |mem1| && held == Addr(f)
      requires spaces0[r].pages[k].frame < |mem0| && mem == mem1[f := mem0[spaces0[r].pages[k].frame]] && own == own1[f := Other] && spaces == spaces1
      modifies this
      ensures Valid()
      ensures ok ==> Copying(mem0, own0, spaces0, mem, own, spaces, r, d, kernel, k + 1)
      ensures !ok ==> Since(own0, spaces0, own, spaces, d) && Kept(mem0, own0, mem, own)
      ensures dry == old(dry) + (if ok then 0 else 1)
    {
      ghost var p := mem0[spaces0[r].pages[k].frame];
      Aligned(i, k, held, f, flags);
      hide PoolOk, FreeOk, SpacesOk, Copying, Since, Kept, Granted, OnlyTables, Now, Addr, Present;
      ok := MapUser(d, i, held - KERNBASE, flags);
      if ok {
        CopyDone(mem0, own0, spaces0, first, mem1, own1, spaces1, mem, own, spaces, kernel, r, d, k, f);
      } else {
        CopyFailed(mem0, own0, spaces0, mem1, own1, spaces1, mem, own, spaces, kernel, r, d, k, f, p);
        DropHeld(held, f, mem0, own0);
      }
    }

    method DropHeld(held: word, ghost f: Frame, ghost mem0: seq<Page>, ghost own0: map<Frame, Owner>)
      requires Valid() && f in own && own[f] == Other && held == Addr(f) && Kept(mem0, own0, mem, own) && f in own0 && own0[f] == Free
      modifies this`mem, this`freelist, this`own, this`free
      ensures Valid() && own == old(own)[f := Free] && Kept(mem0, own0, mem, own)
    {
      hide PoolOk, FreeOk, SpacesOk;
      Release(held, f);
    }
  }
}
