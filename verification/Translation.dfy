/** What kernel/vm.c's operations mean for the processor, which walks the words of
    the page directory and page tables for every address. */
module Translation {
  import opened Blocks
  import opened Frames
  import opened Paging

  /** The address of a byte by the flat map. */
  function Lookup(pages: map<nat, Mapping>, va: nat): int {
    if va / PGSIZE in pages then pages[va / PGSIZE].frame * PGSIZE + va % PGSIZE else -1
  }

  /** Memory in which every directory is in order. */
  ghost predicate Orderly(mem: seq<Page>, own: map<Frame, Owner>, spaces: map<Frame, Space>, first: nat) {
    PoolOk(mem, own, first) && SpacesOk(mem, own, spaces)
  }

  lemma WalkIsLookup(mem: seq<Page>, own: map<Frame, Owner>, spaces: map<Frame, Space>, first: nat, r: Frame, va: nat)
    requires Orderly(mem, own, spaces, first) && r in spaces && va < WORD_LIMIT
    ensures Translate(mem, r, va) == Lookup(spaces[r].pages, va)
  {
    assert SpaceOk(mem, own, r, spaces[r]);
    TranslateIsLookup(mem, own, first, r, spaces[r], va);
  }

  /** After mappages the addresses of the range lead to the frames from p on, one after
      the other; every other address, and every address of every other space, leads
      where it did. */
  lemma MappedSeen(mem: seq<Page>, own: map<Frame, Owner>, spaces: map<Frame, Space>,
                   mem': seq<Page>, own': map<Frame, Owner>, spaces': map<Frame, Space>,
                   first: nat, r: Frame, v: nat, p: nat, flags: nat, m: nat, q: Frame, va: nat)
    requires Orderly(mem, own, spaces, first) && Orderly(mem', own', spaces', first) && q in spaces && va < WORD_LIMIT
    requires Mapped(mem, own, spaces, mem', own', spaces', r, v, p, flags, m)
    ensures Translate(mem', q, va) ==
            if q == r && v <= va / PGSIZE < v + m then (p + (va / PGSIZE - v)) * PGSIZE + va % PGSIZE else Translate(mem, q, va)
  {
    hide Orderly;
    WalkIsLookup(mem, own, spaces, first, q, va);
    WalkIsLookup(mem', own', spaces', first, q, va);
  }

  /** After deallocuvm the addresses of the pages from lo up to hi lead nowhere, and
      every other one leads where it did. */
  lemma UnmappedSeen(mem: seq<Page>, own: map<Frame, Owner>, spaces: map<Frame, Space>,
                     mem': seq<Page>, own': map<Frame, Owner>, spaces': map<Frame, Space>,
                     first: nat, r: Frame, lo: nat, hi: nat, q: Frame, va: nat)
    requires Orderly(mem, own, spaces, first) && Orderly(mem', own', spaces', first) && q in spaces && va < WORD_LIMIT
    requires Unmapped(own, spaces, own', spaces', r, lo, hi)
    ensures Translate(mem', q, va) == if q == r && lo <= va / PGSIZE < hi then -1 else Translate(mem, q, va)
  {
    hide Orderly;
    WalkIsLookup(mem, own, spaces, first, q, va);
    WalkIsLookup(mem', own', spaces', first, q, va);
  }

  lemma AllowedByMap(mem: seq<Page>, own: map<Frame, Owner>, spaces: map<Frame, Space>, first: nat, r: Frame, va: nat)
    requires Orderly(mem, own, spaces, first) && r in spaces && va < WORD_LIMIT
    ensures var v, pages := va / PGSIZE, spaces[r].pages;
            && (Writable(mem, r, va) <==> v in pages && pages[v].flags / 2 % 2 == 1)
            && (UserMay(mem, r, va) <==> v in pages && pages[v].flags / 4 % 2 == 1)
  {
    assert SpaceOk(mem, own, r, spaces[r]);
    AllowedIsLookup(mem, own, first, r, spaces[r], va);
  }

  /** A kernel address as setupkvm's comment has it: physical memory from KERNBASE on,
      devices where they are, the kernel's text and constants read-only, and nothing for
      user code. */
  ghost predicate KernelAt(mem: seq<Page>, r: Frame, data: word, va: nat) {
    && Translate(mem, r, va) == (if KERNBASE <= va < KERNBASE + PHYSTOP then va - KERNBASE else if DEVSPACE <= va then va else -1)
    && (Writable(mem, r, va) <==> (KERNBASE <= va < KERNBASE + PHYSTOP || DEVSPACE <= va) && !(KERNLINK <= va < data))
    && !UserMay(mem, r, va)
  }

  predicate SameAt(pages: map<nat, Mapping>, pages': map<nat, Mapping>, v: nat) {
    (v in pages <==> v in pages') && (v in pages ==> pages[v] == pages'[v])
  }

  /** So it is at every address after setupkvm. */
  lemma KernelSeen(mem: seq<Page>, own: map<Frame, Owner>, spaces: map<Frame, Space>, first: nat, r: Frame, data: word, va: nat)
    requires Orderly(mem, own, spaces, first) && r in spaces && DataOk(data) && va < WORD_LIMIT
    requires SameAt(spaces[r].pages, KernelPages(data, 4), va / PGSIZE)
    ensures KernelAt(mem, r, data, va)
  {
    hide Orderly, KernelPages, Translate, Writable, UserMay;
    var v := va / PGSIZE;
    WalkIsLookup(mem, own, spaces, first, r, va);
    AllowedByMap(mem, own, spaces, first, r, va);
    KernelPage(data, v);
    PageRange(data, va);
  }

  lemma KernelMade(mem: seq<Page>, own: map<Frame, Owner>, spaces: map<Frame, Space>, first: nat, r: Frame, data: word)
    requires Orderly(mem, own, spaces, first) && r in spaces && DataOk(data) && spaces[r].pages == KernelPages(data, 4)
    ensures forall va: nat :: va < WORD_LIMIT ==> KernelAt(mem, r, data, va)
  {
    hide Orderly, KernelAt, KernelPages;
    forall va: nat | va < WORD_LIMIT ensures KernelAt(mem, r, data, va) {
      KernelSeen(mem, own, spaces, first, r, data, va);
    }
  }

  /** The kernel's addresses are the same in a child. */
  lemma KernelCopied(mem: seq<Page>, own: map<Frame, Owner>, spaces: map<Frame, Space>,
                     mem': seq<Page>, own': map<Frame, Owner>, spaces': map<Frame, Space>, first: nat, r: Frame, d: Frame, data: word, k: nat)
    requires Orderly(mem', own', spaces', first) && DataOk(data) && k <= USERPAGES
    requires Copying(mem, own, spaces, mem', own', spaces', r, d, KernelPages(data, 4), k)
    ensures forall va: nat :: KERNBASE <= va < WORD_LIMIT ==> KernelAt(mem', d, data, va)
  {
    hide Orderly, KernelAt, KernelPages, SamePageAs, Kept;
    forall va: nat | KERNBASE <= va < WORD_LIMIT ensures KernelAt(mem', d, data, va) {
      assert va / PGSIZE >= USERPAGES;
      KernelSeen(mem', own', spaces', first, d, data, va);
    }
  }

  /** After allocuvm the new addresses lead to zeroed words that user code may write,
      and every other address leads where it did. */
  lemma GrewSeen(mem: seq<Page>, own: map<Frame, Owner>, spaces: map<Frame, Space>,
                 mem': seq<Page>, own': map<Frame, Owner>, spaces': map<Frame, Space>, first: nat, r: Frame, lo: nat, k: nat, q: Frame, va: nat)
    requires Orderly(mem, own, spaces, first) && Orderly(mem', own', spaces', first) && q in spaces && va < WORD_LIMIT
    requires Grew(mem, own, spaces, mem', own', spaces', r, lo, k)
    ensures if q == r && lo <= va / PGSIZE < k
            then var a := Translate(mem', q, va);
                 0 <= a < |mem'| * PGSIZE && WordAt(mem', a) == 0 && Writable(mem', q, va) && UserMay(mem', q, va)
            else Translate(mem', q, va) == Translate(mem, q, va)
  {
    hide Orderly, Translate, Writable, UserMay, Kept, OwnersGrew;
    WalkIsLookup(mem, own, spaces, first, q, va);
    WalkIsLookup(mem', own', spaces', first, q, va);
    AllowedByMap(mem', own', spaces', first, q, va);
    var v := va / PGSIZE;
    if q == r && lo <= v < k {
      assert FreshPage(spaces'[r].pages, own, mem', v);
      Inside(spaces'[r].pages[v].frame, |mem'|, va);
    }
  }

  lemma PageRange(data: word, va: nat)
    requires DataOk(data) && va < WORD_LIMIT
    ensures var v := va / PGSIZE;
            && (KERNBASE <= va < KERNBASE + PHYSTOP <==> USERPAGES <= v < USERPAGES + 57344) && (DEVSPACE <= va <==> 0xFE000 <= v)
            && (KERNLINK <= va < data <==> 0x80100 <= v < data / PGSIZE) && v < ALLPAGES
            && (v >= USERPAGES ==> (v - USERPAGES) * PGSIZE + va % PGSIZE == va - KERNBASE) && v * PGSIZE + va % PGSIZE == va
  {
  }

  /** The word of memory at a physical address. */
  function WordAt(mem: seq<Page>, pa: int): word
    requires 0 <= pa < |mem| * PGSIZE
  {
    mem[pa / PGSIZE][pa % PGSIZE / 4]
  }

  /** After copyuvm every user address below the size reads the same word in the child
      as in the parent, from another place; the parent and all other spaces are
      translated as before. */
  lemma CopySeen(mem: seq<Page>, own: map<Frame, Owner>, spaces: map<Frame, Space>,
                 mem': seq<Page>, own': map<Frame, Owner>, spaces': map<Frame, Space>,
                 first: nat, r: Frame, d: Frame, kernel: map<nat, Mapping>, k: nat, va: nat)
    requires Orderly(mem, own, spaces, first) && Orderly(mem', own', spaces', first) && va / PGSIZE < k <= USERPAGES && va < WORD_LIMIT
    requires Copying(mem, own, spaces, mem', own', spaces', r, d, kernel, k) && va / PGSIZE in spaces[r].pages
    ensures var a, b := Translate(mem, r, va), Translate(mem', d, va);
            && 0 <= a < |mem| * PGSIZE && 0 <= b < |mem'| * PGSIZE && a / PGSIZE != b / PGSIZE && WordAt(mem', b) == WordAt(mem, a)
            && Translate(mem', r, va) == a
            && (Writable(mem', d, va) <==> Writable(mem, r, va)) && (UserMay(mem', d, va) <==> UserMay(mem, r, va))
    ensures forall q: Frame, wa: nat :: q in spaces && q != d && wa < WORD_LIMIT ==> Translate(mem', q, wa) == Translate(mem, q, wa)
  {
    hide Orderly, Translate, Writable, UserMay, Copying;
    forall q: Frame, wa: nat | q in spaces && q != d && wa < WORD_LIMIT ensures Translate(mem', q, wa) == Translate(mem, q, wa) {
      CopyKeeps(mem, own, spaces, mem', own', spaces', first, r, d, kernel, k, q, wa);
    }
    var v := va / PGSIZE;
    CopyParts(mem, own, spaces, mem', own', spaces', r, d, kernel, k, v);
    WalkIsLookup(mem, own, spaces, first, r, va);
    WalkIsLookup(mem', own', spaces', first, r, va);
    WalkIsLookup(mem', own', spaces', first, d, va);
    AllowedByMap(mem, own, spaces, first, r, va);
    AllowedByMap(mem', own', spaces', first, d, va);
    FramesApart(mem', own', spaces', first, r, d, v);
    Inside(spaces[r].pages[v].frame, |mem|, va);
    Inside(spaces'[d].pages[v].frame, |mem'|, va);
  }

  lemma CopyKeeps(mem: seq<Page>, own: map<Frame, Owner>, spaces: map<Frame, Space>,
                  mem': seq<Page>, own': map<Frame, Owner>, spaces': map<Frame, Space>,
                  first: nat, r: Frame, d: Frame, kernel: map<nat, Mapping>, k: nat, q: Frame, va: nat)
    requires Orderly(mem, own, spaces, first) && Orderly(mem', own', spaces', first) && q in spaces && q != d && va < WORD_LIMIT
    requires Copying(mem, own, spaces, mem', own', spaces', r, d, kernel, k)
    ensures Translate(mem', q, va) == Translate(mem, q, va)
  {
    hide Orderly, Translate, Kept, Copied;
    assert q in spaces' && spaces'[q] == spaces[q];
    WalkIsLookup(mem, own, spaces, first, q, va);
    WalkIsLookup(mem', own', spaces', first, q, va);
  }

  lemma CopyParts(mem: seq<Page>, own: map<Frame, Owner>, spaces: map<Frame, Space>,
                  mem': seq<Page>, own': map<Frame, Owner>, spaces': map<Frame, Space>, r: Frame, d: Frame, kernel: map<nat, Mapping>, k: nat, v: nat)
    requires Copying(mem, own, spaces, mem', own', spaces', r, d, kernel, k) && v < k && v in spaces[r].pages
    ensures r in spaces && r in spaces' && d in spaces' && r != d && spaces'[r] == spaces[r]
    ensures SamePageAs(mem, spaces[r].pages, mem', spaces'[d].pages, v)
  {
    hide Kept, SamePageAs;
  }

  lemma FramesApart(mem: seq<Page>, own: map<Frame, Owner>, spaces: map<Frame, Space>, first: nat, r: Frame, d: Frame, v: nat)
    requires Orderly(mem, own, spaces, first) && r in spaces && d in spaces && r != d && v < USERPAGES
    requires v in spaces[r].pages && v in spaces[d].pages
    ensures spaces[r].pages[v].frame != spaces[d].pages[v].frame
  {
    PagesApart(mem, own, spaces, r, v, d, v);
  }

  lemma Inside(f: nat, n: nat, va: nat)
    requires f < n
    ensures var a := f * PGSIZE + va % PGSIZE; 0 <= a < n * PGSIZE && a / PGSIZE == f && a % PGSIZE == va % PGSIZE
  {
  }
}
