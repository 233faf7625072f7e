/** What the page-table code of kernel/vm.c does to the bookkeeping of module
    Frames: relations between the state before and after its loops. */
module Paging {
  import opened Blocks
  import opened Frames

  const PTE_P := 1
  const PTE_W := 2
  const PTE_U := 4

  function FrameOf(v: word): int { (v - KERNBASE) / PGSIZE }

  /** memset(v, 1, PGSIZE), with the link to the next free frame in front. */
  function Junk(next: word): Page { seq(PGWORDS, i => if i == 0 then next else 0x0101_0101) }

  /** perm | PTE_P. */
  function Present(perm: nat): nat { if perm % 2 == 1 then perm else perm + 1 }

  predicate InUse(o: Owner) { o.User? || o.Other? }

  /** Contents that no one may disturb: frames in use before and after a step keep
      their words. */
  ghost predicate Kept(mem: seq<Page>, own: map<Frame, Owner>, mem': seq<Page>, own': map<Frame, Owner>) {
    && |mem'| == |mem| && own'.Keys == own.Keys
    && forall f: Frame :: f in own && f < |mem| && InUse(own[f]) && InUse(own'[f]) ==> mem'[f] == mem[f]
  }

  /** Owners change only from Free to a table of r. */
  ghost predicate OnlyTables(own: map<Frame, Owner>, own': map<Frame, Owner>, r: Frame) {
    && own'.Keys == own.Keys
    && forall f: Frame :: f in own ==>
         own'[f] == own[f] || (own[f] == Free && own'[f].Table? && own'[f].root == r)
  }

  /** The same, but for m frames from p on that became user pages of r from v on. */
  ghost predicate Granted(own: map<Frame, Owner>, own': map<Frame, Owner>, r: Frame, v: nat, p: nat, m: nat) {
    && own'.Keys == own.Keys
    && forall f: Frame :: f in own ==>
         if p <= f < p + m && v + (f - p) < USERPAGES then own'[f] == User(r, v + (f - p))
         else own'[f] == own[f] || (own[f] == Free && own'[f].Table? && own'[f].root == r)
  }

  predicate Within(v: nat, w: nat, m: nat) { v <= w < v + m }

  /** m pages from v on, mapped to frames from p on. */
  function Run(v: nat, p: nat, flags: nat, m: nat): map<nat, Mapping> {
    map w: nat | 0 <= w < v + m && Within(v, w, m) :: Mapping(p + (w - v), flags)
  }

  lemma GrantOne(own: map<Frame, Owner>, own': map<Frame, Owner>, r: Frame, v: nat, p: nat)
    requires OnlyTables(own, own', r) && (v < USERPAGES ==> p in own && own[p] == Other)
    ensures Granted(own, if v < USERPAGES then own'[p := User(r, v)] else own', r, v, p, 1)
  {
  }

  /** Contents stay through two steps if none in use was freed in between. */
  lemma KeptThrough(mem: seq<Page>, own: map<Frame, Owner>, mem1: seq<Page>, own1: map<Frame, Owner>, mem2: seq<Page>, own2: map<Frame, Owner>)
    requires Kept(mem, own, mem1, own1) && Kept(mem1, own1, mem2, own2)
    requires forall f: Frame :: f in own && InUse(own[f]) && InUse(own2[f]) ==> InUse(own1[f])
    ensures Kept(mem, own, mem2, own2)
  {
  }

  /** r's directory may have more tables; its pages are these. */
  ghost predicate Now(spaces: map<Frame, Space>, spaces': map<Frame, Space>, r: Frame, pages: map<nat, Mapping>) {
    && r in spaces && r in spaces' && spaces' == spaces[r := spaces'[r]] && spaces'[r].pages == pages
    && forall d :: d in spaces[r].tables ==> d in spaces'[r].tables && spaces'[r].tables[d] == spaces[r].tables[d]
  }

  predicate InPool(first: nat, f: Frame) { first <= f < NFRAMES }

  /** The run of m pages is followed by one more. */
  lemma RunOn(own: map<Frame, Owner>, own1: map<Frame, Owner>, own2: map<Frame, Owner>, r: Frame, v: nat, p: nat, m: nat)
    requires Granted(own, own1, r, v, p, m) && Granted(own1, own2, r, v + m, p + m, 1)
    requires v + m < USERPAGES ==> p + m in own && own[p + m] == Other
    ensures Granted(own, own2, r, v, p, m + 1)
  {
  }

  lemma RunExtended(pages: map<nat, Mapping>, v: nat, p: nat, flags: nat, m: nat)
    ensures (pages + Run(v, p, flags, m))[v + m := Mapping(p + m, flags)] == pages + Run(v, p, flags, m + 1)
  {
  }

  /** From the old state to the new, m pages have been mapped. */
  ghost predicate Mapped(mem: seq<Page>, own: map<Frame, Owner>, spaces: map<Frame, Space>,
                         mem': seq<Page>, own': map<Frame, Owner>, spaces': map<Frame, Space>,
                         r: Frame, v: nat, p: nat, flags: nat, m: nat) {
    && r in spaces && Now(spaces, spaces', r, spaces[r].pages + Run(v, p, flags, m))
    && Granted(own, own', r, v, p, m) && Kept(mem, own, mem', own')
  }

  /** One more page. */
  lemma MappedOn(mem: seq<Page>, own: map<Frame, Owner>, spaces: map<Frame, Space>,
                 mem1: seq<Page>, own1: map<Frame, Owner>, spaces1: map<Frame, Space>,
                 mem2: seq<Page>, own2: map<Frame, Owner>, spaces2: map<Frame, Space>, r: Frame, v: nat, p: nat, flags: nat, m: nat)
    requires Mapped(mem, own, spaces, mem1, own1, spaces1, r, v, p, flags, m) && r in spaces1
    requires Now(spaces1, spaces2, r, spaces1[r].pages[v + m := Mapping(p + m, flags)])
    requires Granted(own1, own2, r, v + m, p + m, 1) && Kept(mem1, own1, mem2, own2)
    requires v + m < USERPAGES ==> p + m in own && own[p + m] == Other
    ensures Mapped(mem, own, spaces, mem2, own2, spaces2, r, v, p, flags, m + 1)
  {
    RunOn(own, own1, own2, r, v, p, m);
    RunExtended(spaces[r].pages, v, p, flags, m);
    KeptThrough(mem, own, mem1, own1, mem2, own2);
    hide Run, Granted, Kept;
    assert spaces2 == spaces[r := spaces2[r]];
  }

  lemma MappedHas(mem: seq<Page>, own: map<Frame, Owner>, spaces: map<Frame, Space>,
                  mem': seq<Page>, own': map<Frame, Owner>, spaces': map<Frame, Space>, r: Frame, v: nat, p: nat, flags: nat, m: nat)
    requires Mapped(mem, own, spaces, mem', own', spaces', r, v, p, flags, m) && v + m !in spaces[r].pages
    ensures r in spaces' && v + m !in spaces'[r].pages
    ensures v + m < USERPAGES && p + m in own && own[p + m] == Other ==> p + m in own' && own'[p + m] == Other
  {
  }

  /** The pages touched by size bytes from va on. */
  function PageCount(va: word, size: nat): nat
    requires size > 0
  {
    (va + size - 1) / PGSIZE - va / PGSIZE + 1
  }

  function Without(pages: map<nat, Mapping>, lo: nat, hi: nat): map<nat, Mapping> {
    map v | v in pages && !(lo <= v < hi) :: pages[v]
  }

  predicate Freed(o: Owner, r: Frame, lo: nat, hi: nat) {
    o.User? && o.root == r && lo <= o.v < hi
  }

  /** From the old state to the new, r has lost its pages from lo up to hi, and
      their frames are free. */
  ghost predicate Unmapped(own: map<Frame, Owner>, spaces: map<Frame, Space>, own': map<Frame, Owner>, spaces': map<Frame, Space>,
                           r: Frame, lo: nat, hi: nat) {
    && r in spaces && spaces' == spaces[r := spaces[r].(pages := Without(spaces[r].pages, lo, hi))]
    && own'.Keys == own.Keys
    && forall f: Frame :: f in own ==> own'[f] == if Freed(own[f], r, lo, hi) then Free else own[f]
  }

  /** Pages that are not there need no removing. */
  lemma SkipAbsent(own: map<Frame, Owner>, spaces: map<Frame, Space>, own': map<Frame, Owner>, spaces': map<Frame, Space>,
                   r: Frame, lo: nat, hi: nat, hi': nat)
    requires Unmapped(own, spaces, own', spaces', r, lo, hi) && NoLeaks(own, spaces) && lo <= hi <= hi'
    requires forall v :: hi <= v < hi' ==> v !in spaces[r].pages
    ensures Unmapped(own, spaces, own', spaces', r, lo, hi')
  {
    assert Without(spaces[r].pages, lo, hi') == Without(spaces[r].pages, lo, hi);
    forall f: Frame | f in own ensures Freed(own[f], r, lo, hi') <==> Freed(own[f], r, lo, hi) {
      assert NoLeak(own, spaces, f);
    }
  }

  lemma OneMoreGone(own: map<Frame, Owner>, spaces: map<Frame, Space>, own1: map<Frame, Owner>, spaces1: map<Frame, Space>,
                    r: Frame, lo: nat, v: nat, f: Frame)
    requires Unmapped(own, spaces, own1, spaces1, r, lo, v) && lo <= v
    requires f in own && own[f] == User(r, v) && forall g: Frame :: g in own && own[g] == User(r, v) ==> g == f
    ensures Unmapped(own, spaces, own1[f := Free], spaces1[r := spaces1[r].(pages := spaces1[r].pages - {v})], r, lo, v + 1)
  {
    assert Without(spaces[r].pages, lo, v + 1) == Without(spaces[r].pages, lo, v) - {v};
  }

  /** No table, no pages. */
  lemma NoTableNoPages(mem: seq<Page>, own: map<Frame, Owner>, spaces: map<Frame, Space>, r: Frame, d: nat)
    requires SpacesOk(mem, own, spaces) && r in spaces && d !in spaces[r].tables
    ensures forall v :: d * PGWORDS <= v < (d + 1) * PGWORDS ==> v !in spaces[r].pages
  {
    assert SpaceOk(mem, own, r, spaces[r]);
  }

  /** What stands between the old pages and the new from hi on. */
  lemma PagesAbove(own: map<Frame, Owner>, spaces: map<Frame, Space>, own': map<Frame, Owner>, spaces': map<Frame, Space>, r: Frame, lo: nat, hi: nat, v: nat)
    requires Unmapped(own, spaces, own', spaces', r, lo, hi) && hi <= v
    ensures v in spaces[r].pages <==> v in spaces'[r].pages
    ensures v in spaces[r].pages ==> spaces[r].pages[v] == spaces'[r].pages[v]
  {
  }

  lemma OnlyFrame(own: map<Frame, Owner>, spaces: map<Frame, Space>, own': map<Frame, Owner>, spaces': map<Frame, Space>, r: Frame, lo: nat, v: nat, f: Frame)
    requires Unmapped(own, spaces, own', spaces', r, lo, v) && NoLeaks(own, spaces) && f in own' && own'[f] == User(r, v)
    ensures own[f] == User(r, v) && forall g: Frame :: g in own && own[g] == User(r, v) ==> g == f
  {
    forall g: Frame | g in own && own[g] == User(r, v) ensures v in spaces[r].pages && spaces[r].pages[v].frame == g {
      assert NoLeak(own, spaces, g);
    }
  }

  /** The walk to a user page, word by word. */
  lemma WalkTo(mem: seq<Page>, own: map<Frame, Owner>, spaces: map<Frame, Space>, first: nat, r: Frame, k: nat)
    requires PoolOk(mem, own, first) && SpacesOk(mem, own, spaces) && r in spaces && k in spaces[r].pages && k < USERPAGES
    ensures var m := spaces[r].pages[k];
            && r < |mem| && k / PGWORDS < PGWORDS && mem[r][k / PGWORDS] / PGSIZE < |mem| == NFRAMES
            && mem[mem[r][k / PGWORDS] / PGSIZE][k % PGWORDS] == Pte(m) && MappingOk(m)
            && m.frame in own && own[m.frame] == User(r, k) && m.frame < NFRAMES
  {
    assert SpaceOk(mem, own, r, spaces[r]);
    assert Word(mem, spaces[r].tables[k / PGWORDS], k) == Entry(spaces[r].pages, k);
  }

  lemma PageThere(mem: seq<Page>, own: map<Frame, Owner>, spaces: map<Frame, Space>, r: Frame, v: nat)
    requires SpacesOk(mem, own, spaces) && r in spaces && v < ALLPAGES && v / PGWORDS in spaces[r].tables
    requires spaces[r].tables[v / PGWORDS] < |mem|
    ensures var t := spaces[r].tables[v / PGWORDS];
            && t in own && own[t] == Table(r, v / PGWORDS) && mem[t][v % PGWORDS] == Entry(spaces[r].pages, v)
            && (v in spaces[r].pages ==> mem[t][v % PGWORDS] / PGSIZE == spaces[r].pages[v].frame
                                         && mem[t][v % PGWORDS] % PGSIZE == spaces[r].pages[v].flags
                                         && spaces[r].pages[v].flags % 2 == 1)
            && (v in spaces[r].pages && v < USERPAGES ==> spaces[r].pages[v].frame in own && own[spaces[r].pages[v].frame] == User(r, v))
  {
    assert SpaceOk(mem, own, r, spaces[r]);
    assert Word(mem, spaces[r].tables[v / PGWORDS], v) == Entry(spaces[r].pages, v);
  }

  /** A frame is freed, then its entry cleared. */
  lemma PageFreed(mem: seq<Page>, mem': seq<Page>, own: map<Frame, Owner>, spaces: map<Frame, Space>, r: Frame, v: nat, t: Frame, f: Frame)
    requires SpacesOk(mem, own, spaces) && r in spaces && v in spaces[r].pages && v < USERPAGES && f == spaces[r].pages[v].frame
    requires v / PGWORDS in spaces[r].tables && t == spaces[r].tables[v / PGWORDS] && t < |mem| && |mem'| == |mem|
    requires forall g :: 0 <= g < |mem| && g != f ==> mem'[g] == Poke(mem, t, v % PGWORDS, 0)[g]
    ensures f in own && SpacesOk(mem', own[f := Free], spaces[r := spaces[r].(pages := spaces[r].pages - {v})])
  {
    hide SpacesOk;
    PageRemoved(mem, own, spaces, r, v);
    TablesUntouched(Poke(mem, t, v % PGWORDS, 0), mem', own[f := Other], own[f := Free],
                    spaces[r := spaces[r].(pages := spaces[r].pages - {v})], f);
  }

  /** Owners since the old state: free frames have become tables of r or its user
      pages from lo up to k, nothing else. */
  ghost predicate OwnersGrew(own: map<Frame, Owner>, own': map<Frame, Owner>, r: Frame, lo: nat, k: nat) {
    && own'.Keys == own.Keys
    && forall f: Frame :: f in own ==>
         || own'[f] == own[f]
         || (own[f] == Free && ((own'[f].Table? && own'[f].root == r) || Freed(own'[f], r, lo, k)))
  }

  /** Page v is a fresh zeroed page, writable by the user. */
  ghost predicate FreshPage(pages: map<nat, Mapping>, own: map<Frame, Owner>, mem: seq<Page>, v: nat) {
    && v in pages && pages[v].flags == PTE_P + PTE_W + PTE_U
    && pages[v].frame in own && own[pages[v].frame] == Free && pages[v].frame < |mem| && mem[pages[v].frame] == Zero()
  }

  ghost predicate PagesGrew(pages: map<nat, Mapping>, pages': map<nat, Mapping>, own: map<Frame, Owner>, mem: seq<Page>, lo: nat, k: nat) {
    forall v: nat ::
      if lo <= v < k then FreshPage(pages', own, mem, v)
      else (v in pages <==> v in pages') && (v in pages ==> pages'[v] == pages[v])
  }

  /** allocuvm has reached page k. */
  ghost predicate Grew(mem: seq<Page>, own: map<Frame, Owner>, spaces: map<Frame, Space>,
                       mem': seq<Page>, own': map<Frame, Owner>, spaces': map<Frame, Space>, r: Frame, lo: nat, k: nat) {
    && r in spaces && r in spaces' && Now(spaces, spaces', r, spaces'[r].pages)
    && PagesGrew(spaces[r].pages, spaces'[r].pages, own, mem', lo, k)
    && OwnersGrew(own, own', r, lo, k) && Kept(mem, own, mem', own')
  }

  lemma GrewNothing(mem: seq<Page>, own: map<Frame, Owner>, spaces: map<Frame, Space>, r: Frame, lo: nat)
    requires r in spaces
    ensures Grew(mem, own, spaces, mem, own, spaces, r, lo, lo)
  {
  }

  /** One more page: a free frame f, held and zeroed (mem1, own1), then mapped. */
  lemma GrewOne(mem: seq<Page>, own: map<Frame, Owner>, spaces: map<Frame, Space>,
                mem1: seq<Page>, own1: map<Frame, Owner>, spaces1: map<Frame, Space>,
                mem2: seq<Page>, own2: map<Frame, Owner>, spaces2: map<Frame, Space>, r: Frame, lo: nat, k: nat, f: Frame)
    requires Grew(mem, own, spaces, mem1, own1, spaces1, r, lo, k) && lo <= k < USERPAGES && SpacesOk(mem1, own1, spaces1)
    requires f in own && own[f] == Free && own1[f] == Free && f < |mem1|
    requires Kept(mem1[f := Zero()], own1[f := Other], mem2, own2)
    requires Now(spaces1, spaces2, r, spaces1[r].pages[k := Mapping(f, 7)]) && Granted(own1[f := Other], own2, r, k, f, 1)
    ensures Grew(mem, own, spaces, mem2, own2, spaces2, r, lo, k + 1)
  {
    OwnersGrewOne(own, own1, own2, r, lo, k, f);
    KeptGrewOne(mem, own, mem1, own1, mem2, own2, f);
    ZeroStill(mem1, own1, mem2, own2, r, k, f);
    forall v | lo <= v < k ensures FreshPage(spaces1[r].pages, own, mem1, v) {
    }
    hide SpacesOk, Kept, Granted, OwnersGrew, PagesGrew, FreshPage;
    forall v | lo <= v < k ensures StillThere(spaces1[r].pages, mem1, mem2, v) {
      FreshStill(own, mem1, own1, spaces1, mem2, own2, r, lo, k, f, v);
    }
    PagesGrewOne(spaces[r].pages, spaces1[r].pages, own, mem1, mem2, lo, k, f);
  }

  lemma ZeroStill(mem1: seq<Page>, own1: map<Frame, Owner>, mem2: seq<Page>, own2: map<Frame, Owner>, r: Frame, k: nat, f: Frame)
    requires f in own1 && f < |mem1| && k < USERPAGES
    requires Kept(mem1[f := Zero()], own1[f := Other], mem2, own2) && Granted(own1[f := Other], own2, r, k, f, 1)
    ensures |mem2| == |mem1| && mem2[f] == Zero()
  {
  }

  ghost predicate StillThere(pages: map<nat, Mapping>, mem: seq<Page>, mem': seq<Page>, v: nat) {
    v in pages && pages[v].frame < |mem| && pages[v].frame < |mem'| && mem'[pages[v].frame] == mem[pages[v].frame]
  }

  lemma FreshStill(own: map<Frame, Owner>, mem1: seq<Page>, own1: map<Frame, Owner>, spaces1: map<Frame, Space>,
                   mem2: seq<Page>, own2: map<Frame, Owner>, r: Frame, lo: nat, k: nat, f: Frame, v: nat)
    requires SpacesOk(mem1, own1, spaces1) && r in spaces1 && v < USERPAGES && FreshPage(spaces1[r].pages, own, mem1, v)
    requires f in own1 && own1[f] == Free && f < |mem1|
    requires Kept(mem1[f := Zero()], own1[f := Other], mem2, own2) && Granted(own1[f := Other], own2, r, k, f, 1)
    ensures StillThere(spaces1[r].pages, mem1, mem2, v)
  {
    assert SpaceOk(mem1, own1, r, spaces1[r]);
    hide DirOk, TablesOk, SpacesOk;
    assert own1[spaces1[r].pages[v].frame] == User(r, v);
  }

  lemma OwnersGrewOne(own: map<Frame, Owner>, own1: map<Frame, Owner>, own2: map<Frame, Owner>, r: Frame, lo: nat, k: nat, f: Frame)
    requires OwnersGrew(own, own1, r, lo, k) && f in own && own[f] == Free && own1[f] == Free && lo <= k < USERPAGES
    requires Granted(own1[f := Other], own2, r, k, f, 1)
    ensures OwnersGrew(own, own2, r, lo, k + 1)
  {
  }

  lemma KeptGrewOne(mem: seq<Page>, own: map<Frame, Owner>, mem1: seq<Page>, own1: map<Frame, Owner>, mem2: seq<Page>, own2: map<Frame, Owner>, f: Frame)
    requires Kept(mem, own, mem1, own1) && f in own && own[f] == Free && own1[f] == Free && f < |mem1|
    requires Kept(mem1[f := Zero()], own1[f := Other], mem2, own2)
    requires forall g: Frame :: g in own && InUse(own[g]) && InUse(own2[g]) ==> InUse(own1[g])
    ensures Kept(mem, own, mem2, own2)
  {
  }

  lemma PagesGrewOne(pages: map<nat, Mapping>, pages1: map<nat, Mapping>, own: map<Frame, Owner>, mem1: seq<Page>, mem2: seq<Page>, lo: nat, k: nat, f: Frame)
    requires PagesGrew(pages, pages1, own, mem1, lo, k) && lo <= k
    requires forall v :: lo <= v < k ==> StillThere(pages1, mem1, mem2, v)
    requires f in own && own[f] == Free && f < |mem2| && mem2[f] == Zero()
    ensures PagesGrew(pages, pages1[k := Mapping(f, 7)], own, mem2, lo, k + 1)
  {
    var pages2 := pages1[k := Mapping(f, 7)];
    forall v: nat ensures if lo <= v < k + 1 then FreshPage(pages2, own, mem2, v)
      else (v in pages <==> v in pages2) && (v in pages ==> pages2[v] == pages[v])
    {
      if lo <= v < k {
        assert FreshPage(pages1, own, mem1, v) && StillThere(pages1, mem1, mem2, v);
      }
    }
  }

  /** What a failed allocuvm leaves: more tables perhaps, and nothing else. */
  lemma GrewBack(mem: seq<Page>, own: map<Frame, Owner>, spaces: map<Frame, Space>,
                 mem1: seq<Page>, own1: map<Frame, Owner>, spaces1: map<Frame, Space>,
                 mem2: seq<Page>, own2: map<Frame, Owner>, spaces2: map<Frame, Space>, r: Frame, lo: nat, k: nat, hi: nat)
    requires Grew(mem, own, spaces, mem1, own1, spaces1, r, lo, k) && NoLeaks(own, spaces)
    requires Unmapped(own1, spaces1, own2, spaces2, r, lo, hi) && lo <= k <= hi && Kept(mem1, own1, mem2, own2)
    requires forall v :: lo <= v < hi ==> v !in spaces[r].pages
    ensures Now(spaces, spaces2, r, spaces[r].pages) && OnlyTables(own, own2, r) && Kept(mem, own, mem2, own2)
  {
    assert spaces2[r].pages == spaces[r].pages;
    forall f: Frame | f in own ensures own2[f] == own[f] || (own[f] == Free && own2[f].Table? && own2[f].root == r) {
      assert NoLeak(own, spaces, f);
    }
  }

  /** The mapping failed: the frame f is still held, and only tables were made. */
  lemma GrewHeld(mem: seq<Page>, own: map<Frame, Owner>, spaces: map<Frame, Space>,
                 mem1: seq<Page>, own1: map<Frame, Owner>, spaces1: map<Frame, Space>,
                 mem2: seq<Page>, own2: map<Frame, Owner>, spaces2: map<Frame, Space>, r: Frame, lo: nat, k: nat, f: Frame)
    requires Grew(mem, own, spaces, mem1, own1, spaces1, r, lo, k) && lo <= k <= USERPAGES && SpacesOk(mem1, own1, spaces1)
    requires f in own && own[f] == Free && own1[f] == Free && f < |mem1|
    requires Kept(mem1[f := Zero()], own1[f := Other], mem2, own2)
    requires Now(spaces1, spaces2, r, spaces1[r].pages) && OnlyTables(own1[f := Other], own2, r)
    ensures f in own2 && own2[f] == Other && Grew(mem, own, spaces, mem2, own2[f := Free], spaces2, r, lo, k)
  {
    forall v | lo <= v < k ensures FreshPage(spaces1[r].pages, own, mem2, v) {
      assert FreshPage(spaces1[r].pages, own, mem1, v);
      HeldStill(own, mem1, own1, spaces1, mem2, own2, r, f, v);
    }
    hide SpacesOk, FreshPage, PagesGrew, OwnersGrew, OnlyTables, Kept;
    HeldPages(spaces[r].pages, spaces1[r].pages, own, mem1, mem2, lo, k);
    HeldOwners(mem, own, mem1, own1, mem2, own2, r, lo, k, f);
  }

  lemma HeldPages(pages: map<nat, Mapping>, pages1: map<nat, Mapping>, own: map<Frame, Owner>, mem1: seq<Page>, mem2: seq<Page>, lo: nat, k: nat)
    requires PagesGrew(pages, pages1, own, mem1, lo, k) && forall v :: lo <= v < k ==> FreshPage(pages1, own, mem2, v)
    ensures PagesGrew(pages, pages1, own, mem2, lo, k)
  {
  }

  lemma HeldOwners(mem: seq<Page>, own: map<Frame, Owner>, mem1: seq<Page>, own1: map<Frame, Owner>, mem2: seq<Page>, own2: map<Frame, Owner>,
                   r: Frame, lo: nat, k: nat, f: Frame)
    requires OwnersGrew(own, own1, r, lo, k) && Kept(mem, own, mem1, own1)
    requires f in own && own[f] == Free && own1[f] == Free && f < |mem1| && Kept(mem1[f := Zero()], own1[f := Other], mem2, own2)
    requires OnlyTables(own1[f := Other], own2, r)
    ensures f in own2 && own2[f] == Other && OwnersGrew(own, own2[f := Free], r, lo, k) && Kept(mem, own, mem2, own2[f := Free])
  {
    KeptGrewOne(mem, own, mem1, own1, mem2, own2, f);
  }

  lemma HeldStill(own: map<Frame, Owner>, mem1: seq<Page>, own1: map<Frame, Owner>, spaces1: map<Frame, Space>,
                  mem2: seq<Page>, own2: map<Frame, Owner>, r: Frame, f: Frame, v: nat)
    requires SpacesOk(mem1, own1, spaces1) && r in spaces1 && v < USERPAGES && FreshPage(spaces1[r].pages, own, mem1, v)
    requires f in own1 && own1[f] == Free && f < |mem1|
    requires Kept(mem1[f := Zero()], own1[f := Other], mem2, own2) && OnlyTables(own1[f := Other], own2, r)
    ensures FreshPage(spaces1[r].pages, own, mem2, v)
  {
    assert SpaceOk(mem1, own1, r, spaces1[r]);
    hide DirOk, TablesOk, SpacesOk;
    assert own1[spaces1[r].pages[v].frame] == User(r, v);
  }

  /** Giving back the held frame after the pages. */
  lemma ThenRelease(mem1: seq<Page>, own1: map<Frame, Owner>, spaces1: map<Frame, Space>, mem2: seq<Page>, own2: map<Frame, Owner>, spaces2: map<Frame, Space>,
                    mem3: seq<Page>, r: Frame, lo: nat, hi: nat, f: Frame)
    requires Unmapped(own1, spaces1, own2, spaces2, r, lo, hi) && Kept(mem1, own1, mem2, own2)
    requires f in own1 && own1[f] == Other && |mem3| == |mem2| && forall g :: 0 <= g < |mem2| && g != f ==> mem3[g] == mem2[g]
    ensures Unmapped(own1[f := Free], spaces1, own2[f := Free], spaces2, r, lo, hi)
    ensures Kept(mem1, own1[f := Free], mem3, own2[f := Free])
  {
  }

  /** The directory r and all it owned are free; nothing else has changed hands. */
  ghost predicate GaveUp(own: map<Frame, Owner>, spaces: map<Frame, Space>, own': map<Frame, Owner>, spaces': map<Frame, Space>, r: Frame) {
    && spaces' == spaces - {r} && own'.Keys == own.Keys
    && forall f: Frame :: f in own ==> own'[f] == if Mine(own, f, r) then Free else own[f]
  }

  /** freevm's loop at directory entry i: tables below it are free, the others and
      the directory itself are held. */
  ghost predicate TablesFreed(own: map<Frame, Owner>, own': map<Frame, Owner>, r: Frame, i: nat) {
    && own'.Keys == own.Keys
    && forall f: Frame :: f in own ==>
         own'[f] == if own[f].Table? && own[f].root == r then (if own[f].d < i then Free else Other) else if f == r then Other else own[f]
  }

  lemma FreedNext(own: map<Frame, Owner>, own1: map<Frame, Owner>, r: Frame, i: nat, t: Frame)
    requires TablesFreed(own, own1, r, i) && t in own && own[t] == Table(r, i)
    requires forall f: Frame :: f in own && own[f] == Table(r, i) ==> f == t
    ensures t in own1 && own1[t] == Other && TablesFreed(own, own1[t := Free], r, i + 1)
  {
  }

  lemma FreedSkip(own: map<Frame, Owner>, own1: map<Frame, Owner>, r: Frame, i: nat)
    requires TablesFreed(own, own1, r, i) && forall f: Frame :: f in own ==> own[f] != Table(r, i)
    ensures TablesFreed(own, own1, r, i + 1)
  {
  }

  /** The table at entry i, if any, is the only frame that is. */
  lemma TableUnique(mem: seq<Page>, own: map<Frame, Owner>, spaces: map<Frame, Space>, r: Frame, i: nat)
    requires SpacesOk(mem, own, spaces) && r in spaces && i < PGWORDS && r < |mem|
    ensures i in spaces[r].tables ==> mem[r][i] == Pde(spaces[r].tables[i]) && spaces[r].tables[i] in own && own[spaces[r].tables[i]] == Table(r, i)
    ensures i !in spaces[r].tables ==> mem[r][i] == 0
    ensures forall f: Frame :: f in own && own[f] == Table(r, i) ==> i in spaces[r].tables && f == spaces[r].tables[i]
  {
    assert SpaceOk(mem, own, r, spaces[r]);
    forall f: Frame | f in own && own[f] == Table(r, i) ensures i in spaces[r].tables && f == spaces[r].tables[i] {
      assert NoLeak(own, spaces, f);
    }
  }

  /** User pages, tables and directory together. */
  lemma AllFreed(own: map<Frame, Owner>, spaces: map<Frame, Space>, own1: map<Frame, Owner>, spaces1: map<Frame, Space>, own2: map<Frame, Owner>, r: Frame)
    requires NoLeaks(own, spaces) && Unmapped(own, spaces, own1, spaces1, r, 0, USERPAGES) && TablesFreed(own1, own2, r, PGWORDS)
    requires r in own && own[r] == Root && (forall f: Frame :: f in own && own[f].Table? && own[f].root == r ==> own[f].d < PGWORDS)
    ensures r in own1 && own1[r] == Root && r in own2 && GaveUp(own, spaces, own2[r := Free], spaces1 - {r}, r)
  {
    assert spaces1 - {r} == spaces - {r};
    forall f: Frame | f in own && f != r ensures own2[f] == if Mine(own, f, r) then Free else own[f] {
      assert NoLeak(own, spaces, f);
    }
  }

  lemma RootIs(mem: seq<Page>, own: map<Frame, Owner>, spaces: map<Frame, Space>, r: Frame)
    requires SpacesOk(mem, own, spaces) && r in spaces
    ensures r in own && own[r] == Root && r < |mem|
    ensures forall f: Frame :: f in own && own[f].Table? && own[f].root == r ==> own[f].d < PGWORDS
    ensures NoLeaks(own, spaces)
  {
    assert SpaceOk(mem, own, r, spaces[r]);
    forall f: Frame | f in own && own[f].Table? && own[f].root == r ensures own[f].d < PGWORDS {
      assert NoLeak(own, spaces, f);
    }
  }

  lemma DisownedIs(own: map<Frame, Owner>, r: Frame)
    requires r in own && own[r] == Root
    ensures TablesFreed(own, Disowned(own, r), r, 0)
  {
  }

  // ----- the kernel's part -----

  const EXTMEM := 0x10_0000
  const KERNLINK := KERNBASE + EXTMEM
  const PHYSTOP := 0xE00_0000
  const DEVSPACE := 0xFE00_0000

  /** Where the kernel's data begins, as linked: a page boundary. */
  predicate DataOk(data: word) {
    data % PGSIZE == 0 && KERNLINK < data < KERNBASE + PHYSTOP
  }

  datatype Kmap = Kmap(virt: word, start: word, size: nat, perm: nat)

  function KernelMap(data: word, j: nat): Kmap
    requires DataOk(data) && j < 4
  {
    if j == 0 then Kmap(KERNBASE, 0, EXTMEM, PTE_W)
    else if j == 1 then Kmap(KERNLINK, EXTMEM, data - KERNLINK, 0)
    else if j == 2 then Kmap(data, data - KERNBASE, PHYSTOP - (data - KERNBASE), PTE_W)
    else Kmap(DEVSPACE, DEVSPACE, WORD_LIMIT - DEVSPACE, PTE_W)
  }

  /** The pages of the first j entries. */
  function KernelPages(data: word, j: nat): map<nat, Mapping>
    requires DataOk(data) && j <= 4
  {
    if j == 0 then map[]
    else
      var k := KernelMap(data, j - 1);
      KernelPages(data, j - 1) + Run(k.virt / PGSIZE, k.start / PGSIZE, Present(k.perm), PageCount(k.virt, k.size))
  }

  /** The entries do not overlap, and none is below KERNBASE. */
  lemma {:induction false} KernelRange(data: word, j: nat)
    requires DataOk(data) && j <= 4
    ensures forall v :: v in KernelPages(data, j) ==> USERPAGES <= v
    ensures forall v :: v in KernelPages(data, j) && j < 4 ==> v < KernelMap(data, j).virt / PGSIZE
  {
    if j > 0 {
      KernelRange(data, j - 1);
    }
  }

  lemma RunAt(v: nat, p: nat, flags: nat, m: nat, w: nat)
    ensures w in Run(v, p, flags, m) <==> v <= w < v + m
    ensures w in Run(v, p, flags, m) ==> Run(v, p, flags, m)[w] == Mapping(p + (w - v), flags)
  {
  }

  /** Page by page, where the kernel's pages lead and what they allow. */
  lemma KernelPage(data: word, v: nat)
    requires DataOk(data) && v < ALLPAGES
    ensures v in KernelPages(data, 4) <==> USERPAGES <= v < USERPAGES + 57344 || 0xFE000 <= v
    ensures v in KernelPages(data, 4) ==>
              KernelPages(data, 4)[v] == Mapping(if v < 0xFE000 then v - USERPAGES else v, if 0x80100 <= v < data / PGSIZE then 1 else 3)
  {
    KernelEntry(data, 0, v);
    KernelEntry(data, 1, v);
    KernelEntry(data, 2, v);
    KernelEntry(data, 3, v);
    EntryPages(data);
  }

  lemma KernelEntry(data: word, j: nat, v: nat)
    requires DataOk(data) && j < 4
    ensures var k := KernelMap(data, j);
            var lo, m := k.virt / PGSIZE, PageCount(k.virt, k.size);
            && (v in KernelPages(data, j + 1) <==> v in KernelPages(data, j) || lo <= v < lo + m)
            && (lo <= v < lo + m ==> KernelPages(data, j + 1)[v] == Mapping(k.start / PGSIZE + (v - lo), Present(k.perm)))
            && (v in KernelPages(data, j) && !(lo <= v < lo + m) ==> KernelPages(data, j + 1)[v] == KernelPages(data, j)[v])
  {
    var k := KernelMap(data, j);
    RunAt(k.virt / PGSIZE, k.start / PGSIZE, Present(k.perm), PageCount(k.virt, k.size), v);
  }

  /** The entries in whole pages. */
  lemma EntryPages(data: word)
    requires DataOk(data)
    ensures KernelMap(data, 0).virt / PGSIZE == 0x80000 && PageCount(KernelMap(data, 0).virt, KernelMap(data, 0).size) == 0x100
    ensures KernelMap(data, 1).virt / PGSIZE == 0x80100 && PageCount(KernelMap(data, 1).virt, KernelMap(data, 1).size) == data / PGSIZE - 0x80100
    ensures KernelMap(data, 2).virt / PGSIZE == data / PGSIZE && PageCount(KernelMap(data, 2).virt, KernelMap(data, 2).size) == 0x8E000 - data / PGSIZE
    ensures KernelMap(data, 3).virt / PGSIZE == 0xFE000 && PageCount(KernelMap(data, 3).virt, KernelMap(data, 3).size) == 0x2000
    ensures KernelMap(data, 0).start == 0 && KernelMap(data, 1).start / PGSIZE == 0x100 && KernelMap(data, 2).start / PGSIZE == data / PGSIZE - 0x80000
            && KernelMap(data, 3).start / PGSIZE == 0xFE000
    ensures 0x80100 < data / PGSIZE < 0x8E000
  {
  }

  /** Since the old state a directory d has been made, of frames that were free. */
  ghost predicate Since(own: map<Frame, Owner>, spaces: map<Frame, Space>, own': map<Frame, Owner>, spaces': map<Frame, Space>, d: Frame) {
    && d !in spaces && d in spaces' && spaces' == spaces[d := spaces'[d]] && own'.Keys == own.Keys
    && forall f: Frame :: f in own ==> own'[f] == own[f] || (own[f] == Free && Mine(own', f, d))
  }

  /** Giving it up restores every owner. */
  lemma SinceUndone(own: map<Frame, Owner>, spaces: map<Frame, Space>, own1: map<Frame, Owner>, spaces1: map<Frame, Space>,
                    own2: map<Frame, Owner>, spaces2: map<Frame, Space>, d: Frame)
    requires NoLeaks(own, spaces) && Since(own, spaces, own1, spaces1, d) && GaveUp(own1, spaces1, own2, spaces2, d)
    requires d in own1 && own1[d] == Root
    ensures own2 == own && spaces2 == spaces
  {
    forall f: Frame | f in own ensures own2[f] == own[f] {
      assert NoLeak(own, spaces, f);
    }
  }

  lemma SinceTables(own: map<Frame, Owner>, spaces: map<Frame, Space>, own1: map<Frame, Owner>, spaces1: map<Frame, Space>,
                    own2: map<Frame, Owner>, spaces2: map<Frame, Space>, d: Frame, v: nat, p: nat, m: nat)
    requires Since(own, spaces, own1, spaces1, d) && Granted(own1, own2, d, v, p, m) && v >= USERPAGES
    requires d in spaces2 && spaces2 == spaces1[d := spaces2[d]]
    ensures Since(own, spaces, own2, spaces2, d)
  {
  }

  lemma KeptOnly(mem: seq<Page>, own: map<Frame, Owner>, spaces: map<Frame, Space>, mem1: seq<Page>, own1: map<Frame, Owner>, spaces1: map<Frame, Space>,
                 mem2: seq<Page>, own2: map<Frame, Owner>, d: Frame)
    requires Since(own, spaces, own1, spaces1, d) && Kept(mem, own, mem1, own1) && Kept(mem1, own1, mem2, own2)
    ensures Kept(mem, own, mem2, own2)
  {
    KeptThrough(mem, own, mem1, own1, mem2, own2);
  }

  // ----- fork -----

  /** Page v of the child has the parent's flags and the parent's words, as they
      were when the copy began. */
  ghost predicate SamePageAs(mem: seq<Page>, parent: map<nat, Mapping>, mem': seq<Page>, child: map<nat, Mapping>, v: nat) {
    && v in parent && v in child && child[v].flags == parent[v].flags
    && parent[v].frame < |mem| && child[v].frame < |mem'| && mem'[child[v].frame] == mem[parent[v].frame]
  }

  /** Pages below k are copied; the rest are the kernel's. */
  ghost predicate Copied(mem: seq<Page>, parent: map<nat, Mapping>, mem': seq<Page>, child: map<nat, Mapping>, kernel: map<nat, Mapping>, k: nat) {
    forall v: nat ::
      if v < k then SamePageAs(mem, parent, mem', child, v)
      else (v in child <==> v in kernel) && (v in kernel ==> child[v] == kernel[v])
  }

  /** copyuvm has reached page k, from the old state. */
  ghost predicate Copying(mem: seq<Page>, own: map<Frame, Owner>, spaces: map<Frame, Space>,
                          mem': seq<Page>, own': map<Frame, Owner>, spaces': map<Frame, Space>, r: Frame, d: Frame, kernel: map<nat, Mapping>, k: nat) {
    && r in spaces && Since(own, spaces, own', spaces', d) && Kept(mem, own, mem', own')
    && Copied(mem, spaces[r].pages, mem', spaces'[d].pages, kernel, k)
  }

  /** What copyuvm starts from: an orderly state, and the kernel's pages. */
  ghost predicate Origin(mem: seq<Page>, own: map<Frame, Owner>, spaces: map<Frame, Space>, first: nat, kernel: map<nat, Mapping>) {
    PoolOk(mem, own, first) && SpacesOk(mem, own, spaces) && forall v :: v in kernel ==> v >= USERPAGES
  }

  lemma CopiedOne(mem: seq<Page>, parent: map<nat, Mapping>, mem1: seq<Page>, mem2: seq<Page>, child: map<nat, Mapping>, kernel: map<nat, Mapping>, k: nat, f: Frame)
    requires Copied(mem, parent, mem1, child, kernel, k) && k in parent
    requires forall v :: 0 <= v < k ==> StillThere(child, mem1, mem2, v)
    requires f < |mem2| && parent[k].frame < |mem| && mem2[f] == mem[parent[k].frame]
    ensures Copied(mem, parent, mem2, child[k := Mapping(f, parent[k].flags)], kernel, k + 1)
  {
    var child' := child[k := Mapping(f, parent[k].flags)];
    forall v: nat ensures if v < k + 1 then SamePageAs(mem, parent, mem2, child', v)
      else (v in child' <==> v in kernel) && (v in kernel ==> child'[v] == kernel[v])
    {
      if v < k {
        assert SamePageAs(mem, parent, mem1, child, v) && StillThere(child, mem1, mem2, v);
      }
    }
  }

  /** The child's pages stand while a frame f is filled and mapped, or only tables made. */
  lemma ChildStill(mem1: seq<Page>, own1: map<Frame, Owner>, spaces1: map<Frame, Space>, mem2: seq<Page>, own2: map<Frame, Owner>,
                   d: Frame, k: nat, f: Frame, p: Page, v: nat)
    requires SpacesOk(mem1, own1, spaces1) && d in spaces1 && v < USERPAGES && v in spaces1[d].pages && |mem1| == NFRAMES
    requires (forall g: Frame :: g in own1 ==> g < NFRAMES) && f in own1 && own1[f] == Free
    requires Kept(mem1[f := p], own1[f := Other], mem2, own2) && Granted(own1[f := Other], own2, d, k, f, 1)
    ensures StillThere(spaces1[d].pages, mem1, mem2, v)
  {
    assert SpaceOk(mem1, own1, d, spaces1[d]);
    hide DirOk, TablesOk, SpacesOk;
    assert own1[spaces1[d].pages[v].frame] == User(d, v);
  }

  lemma SinceFree(own: map<Frame, Owner>, spaces: map<Frame, Space>, own1: map<Frame, Owner>, spaces1: map<Frame, Space>, d: Frame, f: Frame)
    requires Since(own, spaces, own1, spaces1, d) && f in own1 && own1[f] == Free && d in own1 && own1[d] == Root
    ensures f in own && own[f] == Free
  {
  }

  lemma SinceMapped(own: map<Frame, Owner>, spaces: map<Frame, Space>, own1: map<Frame, Owner>, spaces1: map<Frame, Space>,
                    own2: map<Frame, Owner>, spaces2: map<Frame, Space>, d: Frame, k: nat, f: Frame)
    requires Since(own, spaces, own1, spaces1, d) && f in own && own[f] == Free && own1[f] == Free && k < USERPAGES
    requires Granted(own1[f := Other], own2, d, k, f, 1) && d in spaces2 && spaces2 == spaces1[d := spaces2[d]]
    ensures Since(own, spaces, own2, spaces2, d)
  {
  }

  lemma SinceReleased(own: map<Frame, Owner>, spaces: map<Frame, Space>, own1: map<Frame, Owner>, spaces1: map<Frame, Space>,
                      own2: map<Frame, Owner>, spaces2: map<Frame, Space>, d: Frame, f: Frame)
    requires Since(own, spaces, own1, spaces1, d) && f in own && own[f] == Free && own1[f] == Free
    requires OnlyTables(own1[f := Other], own2, d) && d in spaces2 && spaces2 == spaces1[d := spaces2[d]]
    ensures f in own2 && own2[f] == Other && Since(own, spaces, own2[f := Free], spaces2, d)
  {
  }

  /** Contents through the copying of one page. */
  lemma KeptFilled(mem: seq<Page>, own: map<Frame, Owner>, spaces: map<Frame, Space>, mem1: seq<Page>, own1: map<Frame, Owner>, spaces1: map<Frame, Space>,
                   mem2: seq<Page>, own2: map<Frame, Owner>, d: Frame, f: Frame, p: Page)
    requires Since(own, spaces, own1, spaces1, d) && Kept(mem, own, mem1, own1) && f in own && own[f] == Free && own1[f] == Free && f < |mem1|
    requires Kept(mem1[f := p], own1[f := Other], mem2, own2)
    ensures Kept(mem, own, mem2, own2)
  {
  }

  lemma CopyDone(mem: seq<Page>, own: map<Frame, Owner>, spaces: map<Frame, Space>, first: nat, mem1: seq<Page>, own1: map<Frame, Owner>, spaces1: map<Frame, Space>,
                 mem2: seq<Page>, own2: map<Frame, Owner>, spaces2: map<Frame, Space>, kernel: map<nat, Mapping>, r: Frame, d: Frame, k: nat, f: Frame)
    requires Copying(mem, own, spaces, mem1, own1, spaces1, r, d, kernel, k) && k in spaces[r].pages && k < USERPAGES
    requires PoolOk(mem1, own1, first) && SpacesOk(mem1, own1, spaces1)
    requires f in own && own[f] == Free && f in own1 && own1[f] == Free && f < |mem1| && spaces[r].pages[k].frame < |mem|
    requires Kept(mem1[f := mem[spaces[r].pages[k].frame]], own1[f := Other], mem2, own2) && Granted(own1[f := Other], own2, d, k, f, 1)
    requires d in spaces1 && Now(spaces1, spaces2, d, spaces1[d].pages[k := Mapping(f, spaces[r].pages[k].flags)])
    ensures Copying(mem, own, spaces, mem2, own2, spaces2, r, d, kernel, k + 1)
  {
    hide PoolOk, SpacesOk, Copied, Since, Kept, Granted;
    var p := mem[spaces[r].pages[k].frame];
    KeptFilled(mem, own, spaces, mem1, own1, spaces1, mem2, own2, d, f, p);
    SinceMapped(own, spaces, own1, spaces1, own2, spaces2, d, k, f);
    CopyPlaced(mem, spaces[r].pages, first, mem1, own1, spaces1, mem2, own2, kernel, d, k, f, p);
  }

  lemma CopyFailed(mem: seq<Page>, own: map<Frame, Owner>, spaces: map<Frame, Space>, mem1: seq<Page>, own1: map<Frame, Owner>, spaces1: map<Frame, Space>,
                   mem2: seq<Page>, own2: map<Frame, Owner>, spaces2: map<Frame, Space>, kernel: map<nat, Mapping>, r: Frame, d: Frame, k: nat, f: Frame, p: Page)
    requires Copying(mem, own, spaces, mem1, own1, spaces1, r, d, kernel, k)
    requires f in own && own[f] == Free && f in own1 && own1[f] == Free && f < |mem1|
    requires Kept(mem1[f := p], own1[f := Other], mem2, own2) && OnlyTables(own1[f := Other], own2, d)
    requires d in spaces1 && Now(spaces1, spaces2, d, spaces1[d].pages)
    ensures f in own2 && own2[f] == Other && Since(own, spaces, own2[f := Free], spaces2, d) && Kept(mem, own, mem2, own2)
  {
    hide Copied, Since, Kept, OnlyTables;
    KeptFilled(mem, own, spaces, mem1, own1, spaces1, mem2, own2, d, f, p);
    SinceReleased(own, spaces, own1, spaces1, own2, spaces2, d, f);
  }

  lemma NotYetCopied(mem: seq<Page>, own: map<Frame, Owner>, spaces: map<Frame, Space>, mem1: seq<Page>, own1: map<Frame, Owner>, spaces1: map<Frame, Space>,
                     r: Frame, d: Frame, kernel: map<nat, Mapping>, k: nat)
    requires Copying(mem, own, spaces, mem1, own1, spaces1, r, d, kernel, k) && k < USERPAGES && forall v :: v in kernel ==> v >= USERPAGES
    ensures d in spaces1 && k !in spaces1[d].pages
  {
  }

  lemma CopyPlaced(mem: seq<Page>, parent: map<nat, Mapping>, first: nat, mem1: seq<Page>, own1: map<Frame, Owner>, spaces1: map<Frame, Space>,
                   mem2: seq<Page>, own2: map<Frame, Owner>, kernel: map<nat, Mapping>, d: Frame, k: nat, f: Frame, p: Page)
    requires SpacesOk(mem1, own1, spaces1) && d in spaces1 && k < USERPAGES && PoolOk(mem1, own1, first)
    requires Copied(mem, parent, mem1, spaces1[d].pages, kernel, k) && k in parent && parent[k].frame < |mem| && p == mem[parent[k].frame]
    requires f in own1 && own1[f] == Free && f < |mem1|
    requires Kept(mem1[f := p], own1[f := Other], mem2, own2) && Granted(own1[f := Other], own2, d, k, f, 1)
    ensures Copied(mem, parent, mem2, spaces1[d].pages[k := Mapping(f, parent[k].flags)], kernel, k + 1)
  {
    forall v | 0 <= v < k ensures StillThere(spaces1[d].pages, mem1, mem2, v) {
      assert SamePageAs(mem, parent, mem1, spaces1[d].pages, v);
      ChildStill(mem1, own1, spaces1, mem2, own2, d, k, f, p, v);
    }
    hide SpacesOk, Copied;
    CopiedOne(mem, parent, mem1, mem2, spaces1[d].pages, kernel, k, f);
  }

  lemma NewSince(own: map<Frame, Owner>, spaces: map<Frame, Space>, r: Frame)
    requires r in own && own[r] == Free && r !in spaces
    ensures Since(own, spaces, own[r := Root], spaces[r := Space(map[], map[])], r)
  {
  }

  lemma NoUserLeft(own: map<Frame, Owner>, spaces: map<Frame, Space>, own': map<Frame, Owner>, spaces': map<Frame, Space>, r: Frame)
    requires Unmapped(own, spaces, own', spaces', r, 0, USERPAGES)
    ensures r in spaces' && forall v :: v in spaces'[r].pages ==> v >= USERPAGES
  {
  }

  lemma RootHeld(own: map<Frame, Owner>, own': map<Frame, Owner>, r: Frame)
    requires TablesFreed(own, own', r, PGWORDS) && r in own && own[r] == Root
    ensures r in own' && own'[r] == Other
  {
  }

  /** The frames freed last were not in use. */
  lemma FreedKept(mem: seq<Page>, own: map<Frame, Owner>, mem1: seq<Page>, own1: map<Frame, Owner>, mem2: seq<Page>, own2: map<Frame, Owner>,
                  mem3: seq<Page>, own3: map<Frame, Owner>, spaces: map<Frame, Space>, spaces1: map<Frame, Space>, r: Frame)
    requires Kept(mem, own, mem1, own1) && Kept(mem1, own1, mem2, own2) && |mem3| == |mem2| && r in own && own[r] == Root
    requires own3 == own2[r := Free] && r in own2 && forall g :: 0 <= g < |mem2| && g != r ==> mem3[g] == mem2[g]
    requires Unmapped(own, spaces, own1, spaces1, r, 0, USERPAGES) && TablesFreed(own1, own2, r, PGWORDS)
    ensures Kept(mem, own, mem3, own3)
  {
  }

  /** What a failure leaves: more tables perhaps, and nothing else. */
  ghost predicate Failed(mem: seq<Page>, own: map<Frame, Owner>, spaces: map<Frame, Space>,
                         mem': seq<Page>, own': map<Frame, Owner>, spaces': map<Frame, Space>, r: Frame) {
    r in spaces && Now(spaces, spaces', r, spaces[r].pages) && OnlyTables(own, own', r) && Kept(mem, own, mem', own')
  }

  lemma HeldThrough(own: map<Frame, Owner>, spaces: map<Frame, Space>, own': map<Frame, Owner>, spaces': map<Frame, Space>, r: Frame, lo: nat, hi: nat, f: Frame)
    requires Unmapped(own, spaces, own', spaces', r, lo, hi) && f in own && own[f] == Other
    ensures f in own' && own'[f] == Other
  {
  }

  lemma GrewIn(mem: seq<Page>, own: map<Frame, Owner>, spaces: map<Frame, Space>, mem1: seq<Page>, own1: map<Frame, Owner>, spaces1: map<Frame, Space>, r: Frame, lo: nat, k: nat)
    requires Grew(mem, own, spaces, mem1, own1, spaces1, r, lo, k)
    ensures r in spaces && r in spaces1
  {
  }

  lemma WasFree(mem: seq<Page>, own: map<Frame, Owner>, spaces: map<Frame, Space>, mem1: seq<Page>, own1: map<Frame, Owner>, spaces1: map<Frame, Space>, r: Frame, lo: nat, k: nat, f: Frame)
    requires Grew(mem, own, spaces, mem1, own1, spaces1, r, lo, k) && f in own1 && own1[f] == Free
    ensures f in own && own[f] == Free
  {
  }

  /** The page number of PGROUNDUP. */
  function RoundUp(sz: word): nat { (sz + PGSIZE - 1) / PGSIZE }

  lemma NothingYet(own: map<Frame, Owner>, spaces: map<Frame, Space>, r: Frame, lo: nat)
    requires r in spaces
    ensures Unmapped(own, spaces, own, spaces, r, lo, lo)
  {
    assert Without(spaces[r].pages, lo, lo) == spaces[r].pages;
  }

  lemma Same(own: map<Frame, Owner>, spaces: map<Frame, Space>, own': map<Frame, Owner>, spaces': map<Frame, Space>, r: Frame, lo: nat, hi: nat)
    requires Unmapped(own, spaces, own', spaces', r, lo, hi)
    ensures r in spaces && r in spaces' && spaces'[r].tables == spaces[r].tables
  {
  }

  /** The jump over a missing table passes no page. */
  lemma GoPast(mem: seq<Page>, own: map<Frame, Owner>, spaces: map<Frame, Space>, own': map<Frame, Owner>, spaces': map<Frame, Space>,
               r: Frame, lo: nat, v: nat, hi: nat, next: nat)
    requires Unmapped(own, spaces, own', spaces', r, lo, v) && NoLeaks(own, spaces) && lo <= v < hi
    requires SpacesOk(mem, own', spaces') && v / PGWORDS !in spaces'[r].tables && next == (v / PGWORDS + 1) * PGWORDS
    ensures Unmapped(own, spaces, own', spaces', r, lo, if next < hi then next else hi)
  {
    hide SpacesOk, NoLeaks;
    var stop := if next < hi then next else hi;
    NoTableNoPages(mem, own', spaces', r, v / PGWORDS);
    forall w | v <= w < stop ensures w !in spaces[r].pages {
      PagesAbove(own, spaces, own', spaces', r, lo, v, w);
    }
    SkipAbsent(own, spaces, own', spaces', r, lo, v, stop);
  }

  // ----- what the bookkeeping amounts to -----

  /** Fork isolation: two user pages of one or two directories never share a frame. */
  lemma PagesApart(mem: seq<Page>, own: map<Frame, Owner>, spaces: map<Frame, Space>, r: Frame, v: nat, q: Frame, w: nat)
    requires SpacesOk(mem, own, spaces) && r in spaces && q in spaces && (r != q || v != w)
    requires v < USERPAGES && w < USERPAGES && v in spaces[r].pages && w in spaces[q].pages
    ensures spaces[r].pages[v].frame != spaces[q].pages[w].frame
  {
    assert SpaceOk(mem, own, r, spaces[r]) && SpaceOk(mem, own, q, spaces[q]);
  }

  ghost function Elements(free: seq<Frame>): set<Frame> {
    set f | f in free
  }

  lemma {:induction false} ListCount(mem: seq<Page>, head: int, free: seq<Frame>)
    requires Linked(mem, head, free)
    ensures |Elements(free)| == |free|
    decreases |free|
  {
    if free == [] {
      assert Elements(free) == {};
    } else {
      ListCount(mem, mem[free[0]][0], free[1..]);
      assert free == [free[0]] + free[1..];
      assert Elements(free) == Elements(free[1..]) + {free[0]};
    }
  }

  ghost function Owned(own: map<Frame, Owner>): set<Frame> {
    set f | f in own && own[f] != Free
  }

  /** Frame conservation: the frames on the free list and the frames owned make up
      the pool. */
  lemma Conserved(mem: seq<Page>, head: int, own: map<Frame, Owner>, free: seq<Frame>)
    requires FreeOk(mem, head, own, free)
    ensures |free| + |Owned(own)| == |own.Keys|
  {
    ListCount(mem, head, free);
    assert own.Keys == Elements(free) + Owned(own);
    assert Elements(free) !! Owned(own);
  }
}
