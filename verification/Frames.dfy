/** Physical memory as the kernel's memory code sees it (kernel/kalloc.c,
    kernel/vm.c): frames of 4096 bytes read as 1024 words, the free list threaded
    through free frames, and two-level page tables in the format of 32-bit paging
    (section 4.3 of volume 3A of the Intel SDM).

    Beside the words stands the bookkeeping they represent: who owns each frame of
    the pool, and for each page directory a flat map from virtual page number to
    frame and flags. */
module Frames {
  import opened Blocks

  const PGWORDS := 1024
  const PGSIZE := 4096
  const NFRAMES := 57344           // PHYSTOP / PGSIZE
  const KERNBASE := 0x8000_0000
  const USERPAGES := 524288        // KERNBASE / PGSIZE
  const ALLPAGES := 1048576

  type Frame = nat
  type Page = s: seq<word> | |s| == PGWORDS witness seq(PGWORDS, _ => 0)

  datatype Owner =
    | Free
    | Other                        // handed out by kalloc, not in a page table
    | Root                         // a page directory
    | Table(root: Frame, d: nat)   // the page table at entry d of a directory
    | User(root: Frame, v: nat)    // user page v of a directory

  datatype Mapping = Mapping(frame: nat, flags: nat)

  datatype Space = Space(tables: map<nat, Frame>, pages: map<nat, Mapping>)

  function Zero(): Page { seq(PGWORDS, _ => 0) }

  /** P2V of a frame's address. */
  function Addr(f: Frame): int { f * PGSIZE + KERNBASE }

  /** A directory entry for a table: PTE_P | PTE_W | PTE_U. */
  function Pde(f: Frame): int { f * PGSIZE + 7 }

  function Pte(m: Mapping): int { m.frame * PGSIZE + m.flags }

  predicate MappingOk(m: Mapping) {
    m.frame < ALLPAGES && m.flags < PGSIZE && m.flags % 2 == 1
  }

  // ----- the free list -----

  /** The list of free frames from this address on, each holding the address of
      the next in its first word; 0 ends it. No frame is on it twice. */
  ghost predicate Linked(mem: seq<Page>, head: int, free: seq<Frame>)
    decreases |free|
  {
    if free == [] then head == 0
    else
      var f := free[0];
      head == Addr(f) && f < |mem| && f !in free[1..] && Linked(mem, mem[f][0], free[1..])
  }

  ghost predicate FreeOk(mem: seq<Page>, head: int, own: map<Frame, Owner>, free: seq<Frame>) {
    && Linked(mem, head, free)
    && (forall f: Frame :: f in free <==> f in own && own[f] == Free)
  }

  ghost predicate PoolOk(mem: seq<Page>, own: map<Frame, Owner>, first: nat) {
    && |mem| == NFRAMES && 0 < first
    && (forall f: Frame :: f in own <==> first <= f < NFRAMES)
  }

  // ----- one page directory -----

  function Entry(pages: map<nat, Mapping>, v: nat): int {
    if v in pages then Pte(pages[v]) else 0
  }

  /** The word of the page table that stands for page v. */
  function Word(mem: seq<Page>, t: Frame, v: nat): int {
    if t < |mem| then mem[t][v % PGWORDS] else 0
  }

  ghost predicate DirOk(mem: seq<Page>, own: map<Frame, Owner>, r: Frame, sp: Space) {
    && r in own && own[r] == Root && r < |mem|
    && (forall d :: d in sp.tables ==> d < PGWORDS && sp.tables[d] in own && own[sp.tables[d]] == Table(r, d))
    && (forall d :: 0 <= d < PGWORDS ==> mem[r][d] == if d in sp.tables then Pde(sp.tables[d]) else 0)
  }

  ghost predicate TablesOk(mem: seq<Page>, sp: Space) {
    forall v :: 0 <= v < ALLPAGES && v / PGWORDS in sp.tables ==>
      Word(mem, sp.tables[v / PGWORDS], v) == Entry(sp.pages, v)
  }

  ghost predicate PagesOk(own: map<Frame, Owner>, r: Frame, sp: Space) {
    forall v :: v in sp.pages ==>
      && v < ALLPAGES && v / PGWORDS in sp.tables && MappingOk(sp.pages[v])
      && (v < USERPAGES ==> sp.pages[v].frame in own && own[sp.pages[v].frame] == User(r, v))
  }

  ghost predicate SpaceOk(mem: seq<Page>, own: map<Frame, Owner>, r: Frame, sp: Space) {
    DirOk(mem, own, r, sp) && TablesOk(mem, sp) && PagesOk(own, r, sp)
  }

  /** Nothing is owned that is not in use. */
  ghost predicate NoLeak(own: map<Frame, Owner>, spaces: map<Frame, Space>, f: Frame) {
    f in own ==>
      match own[f]
      case Root => f in spaces
      case Table(r, d) => r in spaces && d in spaces[r].tables && spaces[r].tables[d] == f
      case User(r, v) => r in spaces && v < USERPAGES && v in spaces[r].pages && spaces[r].pages[v].frame == f
      case _ => true
  }

  ghost predicate EachOk(mem: seq<Page>, own: map<Frame, Owner>, spaces: map<Frame, Space>) {
    forall r :: r in spaces ==> SpaceOk(mem, own, r, spaces[r])
  }

  ghost predicate NoLeaks(own: map<Frame, Owner>, spaces: map<Frame, Space>) {
    forall f: Frame :: NoLeak(own, spaces, f)
  }

  ghost predicate SpacesOk(mem: seq<Page>, own: map<Frame, Owner>, spaces: map<Frame, Space>) {
    EachOk(mem, own, spaces) && NoLeaks(own, spaces)
  }

  // ----- the hardware's walk -----

  /** The physical address the processor computes, if the entries are present. */
  function Translate(mem: seq<Page>, r: Frame, va: nat): int {
    if r >= |mem| || va >= WORD_LIMIT then -1
    else
      var pde := mem[r][va / 0x40_0000];
      if pde % 2 == 0 || pde / PGSIZE >= |mem| then -1
      else
        var pte := mem[pde / PGSIZE][va / PGSIZE % PGWORDS];
        if pte % 2 == 0 then -1 else pte / PGSIZE * PGSIZE + va % PGSIZE
  }

  /** The walk over the words is a lookup in the flat map. */
  lemma TranslateIsLookup(mem: seq<Page>, own: map<Frame, Owner>, first: nat, r: Frame, sp: Space, va: nat)
    requires PoolOk(mem, own, first) && SpaceOk(mem, own, r, sp) && va < WORD_LIMIT
    ensures Translate(mem, r, va) ==
            if va / PGSIZE in sp.pages then sp.pages[va / PGSIZE].frame * PGSIZE + va % PGSIZE else -1
  {
    var v := va / PGSIZE;
    assert v / PGWORDS == va / 0x40_0000;
    var d := v / PGWORDS;
    if d in sp.tables {
      assert Word(mem, sp.tables[d], v) == Entry(sp.pages, v);
    }
  }

  /** The word of the page table that the processor finds for the address, 0 if none. */
  function Leaf(mem: seq<Page>, r: Frame, va: nat): nat {
    if r >= |mem| || va >= WORD_LIMIT then 0
    else
      var pde := mem[r][va / 0x40_0000];
      if pde % 2 == 0 || pde / PGSIZE >= |mem| then 0 else mem[pde / PGSIZE][va / PGSIZE % PGWORDS]
  }

  /** Both levels let the processor write there: bit 1. */
  predicate Writable(mem: seq<Page>, r: Frame, va: nat) {
    Translate(mem, r, va) != -1 && mem[r][va / 0x40_0000] / 2 % 2 == 1 && Leaf(mem, r, va) / 2 % 2 == 1
  }

  /** Both levels let user code use it: bit 2. */
  predicate UserMay(mem: seq<Page>, r: Frame, va: nat) {
    Translate(mem, r, va) != -1 && mem[r][va / 0x40_0000] / 4 % 2 == 1 && Leaf(mem, r, va) / 4 % 2 == 1
  }

  lemma FlagBits(f: nat, flags: nat)
    requires flags < 4096
    ensures (f * 4096 + flags) / 2 % 2 == flags / 2 % 2 && (f * 4096 + flags) / 4 % 2 == flags / 4 % 2
  {
    var x := f * 4096 + flags;
    Doubled(f * 2048, flags);
    Doubled(f * 1024, flags / 2);
    Doubled(f * 1024, flags / 2 % 2);
    Doubled(f * 512, flags / 4);
    assert x == 2 * (f * 2048) + flags && x / 2 == 2 * (f * 1024) + flags / 2;
    Quarter(f * 1024, flags);
    assert x == 4 * (f * 1024) + flags && x / 4 == 2 * (f * 512) + flags / 4;
  }

  lemma Doubled(a: nat, b: nat)
    ensures (2 * a + b) / 2 == a + b / 2 && (2 * a + b) % 2 == b % 2
  {
  }

  lemma Quarter(a: nat, b: nat)
    ensures (4 * a + b) / 4 == a + b / 4
  {
  }

  /** What the processor allows is what the flat map's flags say. */
  lemma AllowedIsLookup(mem: seq<Page>, own: map<Frame, Owner>, first: nat, r: Frame, sp: Space, va: nat)
    requires PoolOk(mem, own, first) && SpaceOk(mem, own, r, sp) && va < WORD_LIMIT
    ensures var v := va / PGSIZE;
            && (Writable(mem, r, va) <==> v in sp.pages && sp.pages[v].flags / 2 % 2 == 1)
            && (UserMay(mem, r, va) <==> v in sp.pages && sp.pages[v].flags / 4 % 2 == 1)
  {
    TranslateIsLookup(mem, own, first, r, sp, va);
    var v := va / PGSIZE;
    assert v / PGWORDS == va / 0x40_0000;
    var d := v / PGWORDS;
    if d in sp.tables {
      assert Word(mem, sp.tables[d], v) == Entry(sp.pages, v);
      FlagBits(sp.tables[d], 7);
      if v in sp.pages {
        FlagBits(sp.pages[v].frame, sp.pages[v].flags);
      }
    }
  }

  // ----- what a step must leave alone -----

  /** The frame belongs to the directory r. */
  predicate Mine(own: map<Frame, Owner>, f: Frame, r: Frame) {
    f in own && (f == r || (own[f].Table? && own[f].root == r) || (own[f].User? && own[f].root == r))
  }

  /** A directory is kept by a step that leaves its frames alone. */
  lemma Untouched(mem: seq<Page>, mem': seq<Page>, own: map<Frame, Owner>, own': map<Frame, Owner>, r: Frame, sp: Space)
    requires SpaceOk(mem, own, r, sp) && |mem| == |mem'|
    requires forall f: Frame :: Mine(own, f, r) ==> f in own' && own'[f] == own[f]
    requires forall f: Frame :: Mine(own, f, r) && !own[f].User? && f < |mem| ==> mem'[f] == mem[f]
    ensures SpaceOk(mem', own', r, sp)
  {
    assert Mine(own, r, r);
    forall d | d in sp.tables ensures Mine(own, sp.tables[d], r) {}
    forall v | 0 <= v < ALLPAGES && v / PGWORDS in sp.tables
      ensures Word(mem', sp.tables[v / PGWORDS], v) == Entry(sp.pages, v)
    {
      assert Word(mem, sp.tables[v / PGWORDS], v) == Entry(sp.pages, v);
      assert Mine(own, sp.tables[v / PGWORDS], r);
    }
    forall v | v in sp.pages && v < USERPAGES ensures sp.pages[v].frame in own' && own'[sp.pages[v].frame] == User(r, v) {
      assert Mine(own, sp.pages[v].frame, r);
    }
  }

  /** A step that changes no page table keeps every directory. */
  lemma TablesUntouched(mem: seq<Page>, mem': seq<Page>, own: map<Frame, Owner>, own': map<Frame, Owner>,
                        spaces: map<Frame, Space>, f: Frame)
    requires SpacesOk(mem, own, spaces) && |mem| == |mem'| && f in own
    requires own[f] == Free || own[f] == Other
    requires own' == own[f := Free] || own' == own[f := Other]
    requires forall g :: 0 <= g < |mem| && g != f ==> mem'[g] == mem[g]
    ensures SpacesOk(mem', own', spaces)
  {
    forall r | r in spaces ensures SpaceOk(mem', own', r, spaces[r]) {
      assert SpaceOk(mem, own, r, spaces[r]);
      Untouched(mem, mem', own, own', r, spaces[r]);
    }
    forall g: Frame ensures NoLeak(own', spaces, g) {
      assert NoLeak(own, spaces, g);
    }
  }

  // ----- kalloc and kfree -----

  lemma Popped(mem: seq<Page>, head: int, own: map<Frame, Owner>, free: seq<Frame>)
    requires FreeOk(mem, head, own, free) && free != []
    ensures FreeOk(mem, mem[free[0]][0], own[free[0] := Other], free[1..])
  {
    assert free == [free[0]] + free[1..];
  }

  lemma Pushed(mem: seq<Page>, head: int, own: map<Frame, Owner>, free: seq<Frame>, f: Frame, p: Page)
    requires FreeOk(mem, head, own, free) && f < |mem| && f in own && own[f] != Free && p[0] == head
    ensures FreeOk(mem[f := p], Addr(f), own[f := Free], [f] + free)
  {
    StillLinked(mem, mem[f := p], head, free);
    assert ([f] + free)[1..] == free;
  }

  lemma {:induction false} StillLinked(mem: seq<Page>, mem': seq<Page>, head: int, free: seq<Frame>)
    requires Linked(mem, head, free) && |mem'| == |mem| && forall f :: f in free && f < |mem| ==> mem'[f] == mem[f]
    ensures Linked(mem', head, free)
    decreases |free|
  {
    if free != [] {
      StillLinked(mem, mem', mem[free[0]][0], free[1..]);
    }
  }

  /** Writing a frame that is not free leaves the free list alone, and so does a
      change of owners among frames that are not free. */
  lemma FreeListKept(mem: seq<Page>, mem': seq<Page>, head: int, own: map<Frame, Owner>, own': map<Frame, Owner>, free: seq<Frame>)
    requires FreeOk(mem, head, own, free) && |mem'| == |mem| && own'.Keys == own.Keys
    requires forall f: Frame :: f in own ==> (own[f] == Free <==> own'[f] == Free)
    requires forall f: Frame :: f in own && own[f] == Free && f < |mem| ==> mem'[f] == mem[f]
    ensures FreeOk(mem', head, own', free)
  {
    StillLinked(mem, mem', head, free);
  }

  // ----- page directories -----

  lemma RootMade(mem: seq<Page>, own: map<Frame, Owner>, spaces: map<Frame, Space>, r: Frame)
    requires SpacesOk(mem, own, spaces) && r in own && own[r] == Other && r < |mem| && mem[r] == Zero()
    ensures SpacesOk(mem, own[r := Root], spaces[r := Space(map[], map[])])
  {
    var own', spaces' := own[r := Root], spaces[r := Space(map[], map[])];
    forall q | q in spaces ensures q != r {
      assert SpaceOk(mem, own, q, spaces[q]);
    }
    forall q | q in spaces' ensures SpaceOk(mem, own', q, spaces'[q]) {
      if q != r {
        assert SpaceOk(mem, own, q, spaces[q]);
        Untouched(mem, mem, own, own', q, spaces[q]);
      }
    }
    forall f: Frame ensures NoLeak(own', spaces', f) {
      assert NoLeak(own, spaces, f);
    }
  }

  /** The directory r changes, by a write to its frame x and a new owner for the
      frame y, which no other directory owns; the others stand. */
  lemma OthersStand(mem: seq<Page>, mem': seq<Page>, own: map<Frame, Owner>, own': map<Frame, Owner>,
                    spaces: map<Frame, Space>, r: Frame, sp: Space, x: Frame, y: Frame)
    requires EachOk(mem, own, spaces) && |mem| == |mem'| && r in spaces && SpaceOk(mem', own', r, sp)
    requires x in own && (x == r || (own[x].Table? && own[x].root == r))
    requires forall f :: 0 <= f < |mem| && f != x ==> mem'[f] == mem[f]
    requires own'.Keys >= own.Keys && forall f: Frame :: f in own && f != y ==> own'[f] == own[f]
    requires y in own && own'[y] != own[y] ==> own[y] == Other || (own[y].User? && own[y].root == r)
    ensures EachOk(mem', own', spaces[r := sp])
  {
    assert SpaceOk(mem, own, r, spaces[r]);
    forall q | q in spaces && q != r ensures SpaceOk(mem', own', q, spaces[q]) {
      assert SpaceOk(mem, own, q, spaces[q]);
      Untouched(mem, mem', own, own', q, spaces[q]);
    }
  }

  /** Writes one word of a page. */
  function Poke(mem: seq<Page>, f: Frame, i: nat, w: word): (r: seq<Page>)
    requires f < |mem| && i < PGWORDS
    ensures |r| == |mem|
  {
    mem[f := mem[f][i := w]]
  }

  lemma TableAddedSpace(mem: seq<Page>, own: map<Frame, Owner>, sp: Space, r: Frame, d: nat, t: Frame)
    requires SpaceOk(mem, own, r, sp) && d < PGWORDS && d !in sp.tables
    requires t in own && own[t] == Other && t < |mem| && t < ALLPAGES && mem[t] == Zero()
    ensures 0 <= Pde(t) < WORD_LIMIT
    ensures SpaceOk(Poke(mem, r, d, Pde(t)), own[t := Table(r, d)], r, sp.(tables := sp.tables[d := t]))
  {
    var mem', own', sp' := Poke(mem, r, d, Pde(t)), own[t := Table(r, d)], sp.(tables := sp.tables[d := t]);
    forall v | 0 <= v < ALLPAGES && v / PGWORDS in sp'.tables
      ensures Word(mem', sp'.tables[v / PGWORDS], v) == Entry(sp'.pages, v)
    {
      if v / PGWORDS != d {
        assert Word(mem, sp.tables[v / PGWORDS], v) == Entry(sp.pages, v);
      } else {
        assert v !in sp.pages;
      }
    }
  }

  lemma TableAdded(mem: seq<Page>, own: map<Frame, Owner>, spaces: map<Frame, Space>, r: Frame, d: nat, t: Frame)
    requires SpacesOk(mem, own, spaces) && r in spaces && d < PGWORDS && d !in spaces[r].tables
    requires t in own && own[t] == Other && t < |mem| && t < ALLPAGES && mem[t] == Zero()
    ensures 0 <= Pde(t) < WORD_LIMIT && r < |mem|
    ensures SpacesOk(Poke(mem, r, d, Pde(t)), own[t := Table(r, d)], spaces[r := spaces[r].(tables := spaces[r].tables[d := t])])
  {
    var sp := spaces[r];
    assert SpaceOk(mem, own, r, sp);
    TableAddedSpace(mem, own, sp, r, d, t);
    var mem', own', sp' := Poke(mem, r, d, Pde(t)), own[t := Table(r, d)], sp.(tables := sp.tables[d := t]);
    OthersStand(mem, mem', own, own', spaces, r, sp', r, t);
    var spaces' := spaces[r := sp'];
    forall f: Frame ensures NoLeak(own', spaces', f) {
      hide SpaceOk;
      assert NoLeak(own, spaces, f);
    }
  }

  lemma SamePage(v: nat, w: nat)
    requires v / PGWORDS == w / PGWORDS && v % PGWORDS == w % PGWORDS
    ensures v == w
  {
  }

  /** Page v's word is written, and the flat map changes at v to match. */
  lemma WordWritten(mem: seq<Page>, own: map<Frame, Owner>, r: Frame, sp: Space, sp': Space, v: nat, e: word)
    requires DirOk(mem, own, r, sp) && TablesOk(mem, sp) && sp'.tables == sp.tables && v < ALLPAGES
    requires v / PGWORDS in sp.tables && sp.tables[v / PGWORDS] < |mem|
    requires e == Entry(sp'.pages, v) && forall w: nat :: w != v ==> Entry(sp'.pages, w) == Entry(sp.pages, w)
    ensures DirOk(Poke(mem, sp.tables[v / PGWORDS], v % PGWORDS, e), own, r, sp')
    ensures TablesOk(Poke(mem, sp.tables[v / PGWORDS], v % PGWORDS, e), sp')
  {
    hide Entry, Pde;
    var t := sp.tables[v / PGWORDS];
    var mem' := Poke(mem, t, v % PGWORDS, e);
    forall w | 0 <= w < ALLPAGES && w / PGWORDS in sp'.tables
      ensures Word(mem', sp'.tables[w / PGWORDS], w) == Entry(sp'.pages, w)
    {
      assert Word(mem, sp.tables[w / PGWORDS], w) == Entry(sp.pages, w);
      if w / PGWORDS == v / PGWORDS && w % PGWORDS == v % PGWORDS {
        SamePage(v, w);
      }
    }
  }

  /** Frames outside the page tables change hands: a directory's words still stand. */
  lemma Reowned(mem: seq<Page>, own: map<Frame, Owner>, r: Frame, sp: Space, f: Frame, o: Owner)
    requires DirOk(mem, own, r, sp) && f in own && (own[f] == Other || own[f].User?)
    ensures DirOk(mem, own[f := o], r, sp)
  {
  }

  lemma PageAddedSpace(mem: seq<Page>, own: map<Frame, Owner>, sp: Space, r: Frame, v: nat, m: Mapping)
    requires SpaceOk(mem, own, r, sp) && v < ALLPAGES && v !in sp.pages && v / PGWORDS in sp.tables
    requires MappingOk(m) && (v < USERPAGES ==> m.frame in own && own[m.frame] == Other)
    requires sp.tables[v / PGWORDS] < |mem|
    ensures 0 <= Pte(m) < WORD_LIMIT
    ensures SpaceOk(Poke(mem, sp.tables[v / PGWORDS], v % PGWORDS, Pte(m)),
                    if v < USERPAGES then own[m.frame := User(r, v)] else own, r, sp.(pages := sp.pages[v := m]))
  {
    hide TablesOk, DirOk;
    var own', sp' := if v < USERPAGES then own[m.frame := User(r, v)] else own, sp.(pages := sp.pages[v := m]);
    WordWritten(mem, own, r, sp, sp', v, Pte(m));
    if v < USERPAGES {
      Reowned(Poke(mem, sp.tables[v / PGWORDS], v % PGWORDS, Pte(m)), own, r, sp', m.frame, User(r, v));
    }
    assert PagesOk(own', r, sp');
  }

  lemma PageAdded(mem: seq<Page>, own: map<Frame, Owner>, spaces: map<Frame, Space>, r: Frame, v: nat, m: Mapping)
    requires SpacesOk(mem, own, spaces) && r in spaces && v < ALLPAGES && v !in spaces[r].pages && v / PGWORDS in spaces[r].tables
    requires MappingOk(m) && (v < USERPAGES ==> m.frame in own && own[m.frame] == Other)
    requires spaces[r].tables[v / PGWORDS] < |mem|
    ensures 0 <= Pte(m) < WORD_LIMIT
    ensures SpacesOk(Poke(mem, spaces[r].tables[v / PGWORDS], v % PGWORDS, Pte(m)),
                     if v < USERPAGES then own[m.frame := User(r, v)] else own,
                     spaces[r := spaces[r].(pages := spaces[r].pages[v := m])])
  {
    var sp := spaces[r];
    assert SpaceOk(mem, own, r, sp);
    PageAddedSpace(mem, own, sp, r, v, m);
    hide TablesOk, DirOk, PagesOk;
    var t := sp.tables[v / PGWORDS];
    var own', sp' := if v < USERPAGES then own[m.frame := User(r, v)] else own, sp.(pages := sp.pages[v := m]);
    TableOwned(mem, own, r, sp, v / PGWORDS);
    OthersStand(mem, Poke(mem, t, v % PGWORDS, Pte(m)), own, own', spaces, r, sp', t, m.frame);
    forall g: Frame | g in own ensures own[g] != User(r, v) {
      assert NoLeak(own, spaces, g);
    }
    NoLeakMoved(own, own', spaces, r, sp', v, m.frame);
  }

  /** Page v of r gains or gives up the frame f; every owner is still in use. */
  lemma NoLeakMoved(own: map<Frame, Owner>, own': map<Frame, Owner>, spaces: map<Frame, Space>, r: Frame, sp: Space, v: nat, f: Frame)
    requires NoLeaks(own, spaces) && r in spaces && sp.tables == spaces[r].tables
    requires forall w: nat :: w != v ==> (w in sp.pages <==> w in spaces[r].pages) && (w in sp.pages ==> sp.pages[w] == spaces[r].pages[w])
    requires own' == own || (own'.Keys == own.Keys + {f} && forall g: Frame :: g in own && g != f ==> own'[g] == own[g])
    requires forall g: Frame :: g in own && own[g] == User(r, v) ==> g == f && own' != own
    requires own' != own ==> own'[f] == Other || (own'[f] == User(r, v) && v < USERPAGES && v in sp.pages && sp.pages[v].frame == f)
    ensures NoLeaks(own', spaces[r := sp])
  {
    var spaces' := spaces[r := sp];
    forall g: Frame ensures NoLeak(own', spaces', g) {
      assert NoLeak(own, spaces, g);
    }
  }

  lemma TableOwned(mem: seq<Page>, own: map<Frame, Owner>, r: Frame, sp: Space, d: nat)
    requires DirOk(mem, own, r, sp) && d in sp.tables
    ensures sp.tables[d] in own && own[sp.tables[d]] == Table(r, d)
  {
  }

  lemma PageRemoved(mem: seq<Page>, own: map<Frame, Owner>, spaces: map<Frame, Space>, r: Frame, v: nat)
    requires SpacesOk(mem, own, spaces) && r in spaces && v in spaces[r].pages && v < USERPAGES
    requires v / PGWORDS in spaces[r].tables && spaces[r].tables[v / PGWORDS] < |mem|
    ensures spaces[r].pages[v].frame in own
    ensures SpacesOk(Poke(mem, spaces[r].tables[v / PGWORDS], v % PGWORDS, 0),
                     own[spaces[r].pages[v].frame := Other],
                     spaces[r := spaces[r].(pages := spaces[r].pages - {v})])
  {
    hide TablesOk, DirOk;
    var sp := spaces[r];
    assert SpaceOk(mem, own, r, sp);
    var t := sp.tables[v / PGWORDS];
    var f := sp.pages[v].frame;
    var own', sp' := own[f := Other], sp.(pages := sp.pages - {v});
    var mem' := Poke(mem, t, v % PGWORDS, 0);
    WordWritten(mem, own, r, sp, sp', v, 0);
    Reowned(mem', own, r, sp', f, Other);
    assert PagesOk(own', r, sp');
    hide PagesOk;
    TableOwned(mem, own, r, sp, v / PGWORDS);
    OthersStand(mem, mem', own, own', spaces, r, sp', t, f);
    forall g: Frame | g in own && own[g] == User(r, v) ensures g == f {
      assert NoLeak(own, spaces, g);
    }
    NoLeakMoved(own, own', spaces, r, sp', v, f);
  }

  /** The directory r is given up, once it has no user pages: its frames become
      the caller's to free. */
  ghost function Disowned(own: map<Frame, Owner>, r: Frame): map<Frame, Owner> {
    map f | f in own :: if f == r || (own[f].Table? && own[f].root == r) then Other else own[f]
  }

  lemma RootDropped(mem: seq<Page>, own: map<Frame, Owner>, spaces: map<Frame, Space>, r: Frame)
    requires SpacesOk(mem, own, spaces) && r in spaces
    requires forall v :: v in spaces[r].pages ==> v >= USERPAGES
    ensures SpacesOk(mem, Disowned(own, r), spaces - {r})
  {
    var own' := Disowned(own, r);
    assert SpaceOk(mem, own, r, spaces[r]);
    forall q | q in spaces - {r} ensures SpaceOk(mem, own', q, spaces[q]) {
      assert SpaceOk(mem, own, q, spaces[q]);
      Untouched(mem, mem, own, own', q, spaces[q]);
    }
    forall f: Frame ensures NoLeak(own', spaces - {r}, f) {
      assert NoLeak(own, spaces, f);
    }
  }
}
