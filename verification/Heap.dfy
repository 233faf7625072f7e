/** malloc, free and realloc of ulib/umalloc.c, updating the free ring in place.
    The addresses sbrk returns are parameters. */
module Heap {
  import opened FreeRing
  import opened Bytes
  import opened Sums

  const UNIT := 8                  // sizeof(Header)

  // ----- units and their owners -----

  ghost predicate FreeUnits(own: map<nat, Owner>, free: seq<Block>) {
    forall u: nat :: (u in own && own[u] == Free) <==> InFree(free, u)
  }

  ghost predicate LiveUnits(mem: Memory, own: map<nat, Owner>, live: map<nat, nat>) {
    && (forall u: nat :: u in own ==> BASE < u && u in mem)
    && (forall u: nat :: u in own && own[u].Live? ==> own[u].addr in live && Within(Block(own[u].addr, live[own[u].addr]), u))
    && (forall a: nat :: a in live ==> 0 < live[a] && a in mem && mem[a].Hdr? && mem[a].size == live[a])
    && (forall a: nat, u: nat :: a in live && Within(Block(a, live[a]), u) ==> u in own && own[u] == Live(a))
  }

  /** Live blocks keep their units and their contents. */
  ghost predicate LiveKept(mem: Memory, own: map<nat, Owner>, mem': Memory, own': map<nat, Owner>) {
    forall u: nat :: u in own && own[u].Live? && u in own' && own'[u] == own[u] && u in mem ==> u in mem' && mem'[u] == mem[u]
  }

  // ----- finding the place -----

  lemma {:induction false} HasPlace(free: seq<Block>, a: nat) returns (t: nat)
    requires Sorted(free) && forall i :: 0 <= i < |free| ==> free[i].addr != a
    ensures Between(free, a, t)
    decreases |free|
  {
    if free == [] || free[|free| - 1].addr < a {
      t := |free|;
    } else {
      var m := |free| - 1;
      assert Sorted(free[..m]);
      t := HasPlace(free[..m], a);
    }
  }

  /** free's test stops the walk at node t and nowhere else. */
  lemma StopsThere(free: seq<Block>, a: nat, t: nat, j: nat)
    requires Sorted(free) && Between(free, a, t) && BASE < a && j <= |free|
    ensures var p, q := Node(free, j), Node(free, NextIndex(free, j));
            ((a > p && a < q) || (p >= q && (a > p || a < q))) <==> j == t
  {
  }

  /** A live block lies clear of the free ones. */
  lemma ClearOfFree(mem: Memory, own: map<nat, Owner>, free: seq<Block>, live: map<nat, nat>, a: nat, t: nat)
    requires Sorted(free) && FreeUnits(own, free) && LiveUnits(mem, own, live) && a in live && Between(free, a, t)
    ensures Apart(free, Block(a, live[a]), t)
  {
    forall i | 0 <= i < t ensures free[i].addr + free[i].size <= a {
      assert Within(Block(a, live[a]), a);
      assert Within(free[i], a) ==> InFree(free, a);
    }
    forall i | t <= i < |free| ensures a + live[a] <= free[i].addr {
      var u := free[i].addr;
      assert Within(free[i], u) && InFree(free, u);
      assert !Within(Block(a, live[a]), u);
    }
  }

  lemma NotANode(mem: Memory, own: map<nat, Owner>, free: seq<Block>, live: map<nat, nat>, a: nat)
    requires Sorted(free) && FreeUnits(own, free) && LiveUnits(mem, own, live) && a in live
    ensures BASE < a && forall i :: 0 <= i < |free| ==> free[i].addr != a
    ensures a in mem && mem[a].Hdr? && mem[a].size == live[a] > 0 && a in own && own[a] == Live(a)
  {
    assert Within(Block(a, live[a]), a);
    forall i | 0 <= i < |free| ensures free[i].addr != a {
      assert Within(free[i], a) ==> InFree(free, a);
    }
  }

  // ----- free's writes -----

  function Size(mem: Memory, a: nat): nat { if a in mem && mem[a].Hdr? then mem[a].size else 0 }

  function Ptr(mem: Memory, a: nat): nat { if a in mem && mem[a].Hdr? then mem[a].ptr else 0 }

  /** The block's header, joined to the block above or pointing at it. */
  function LinkUp(mem: Memory, b: nat, p: nat): Memory {
    var next := Ptr(mem, p);
    if b + Size(mem, b) == next then mem[b := Hdr(Ptr(mem, next), Size(mem, b) + Size(mem, next))]
    else mem[b := Hdr(next, Size(mem, b))]
  }

  function LinkDown(mem: Memory, b: nat, p: nat): Memory {
    if p + Size(mem, p) == b then mem[p := Hdr(Ptr(mem, b), Size(mem, p) + Size(mem, b))]
    else mem[p := Hdr(b, Size(mem, p))]
  }

  lemma NodesDiffer(free: seq<Block>, i: nat, j: nat)
    requires Sorted(free) && i < j <= |free|
    ensures Node(free, i) < Node(free, j)
  {
  }

  /** After both, the ring runs through the free blocks with this one put in. */
  lemma LinkedIn(mem: Memory, free: seq<Block>, b: Block, t: nat)
    requires Sorted(free) && Ring(mem, free) && Apart(free, b, t) && BASE < b.addr && 0 < b.size
    requires b.addr in mem && mem[b.addr].Hdr? && mem[b.addr].size == b.size
    requires forall i: nat :: i <= |free| ==> Node(free, i) != b.addr
    ensures Ring(LinkDown(LinkUp(mem, b.addr, Node(free, t)), b.addr, Node(free, t)), Insert(free, b, t))
  {
    var p := Node(free, t);
    assert At(mem, free, t);
    var up := LinkUp(mem, b.addr, p);
    assert JoinsUp(free, b, t) <==> b.addr + b.size == Ptr(mem, p);
    if JoinsUp(free, b, t) {
      assert At(mem, free, t + 1);
    }
    assert up[b.addr] == Hdr(After(free, High(free, b, t)), if JoinsUp(free, b, t) then b.size + free[t].size else b.size);
    var down := LinkDown(up, b.addr, p);
    assert JoinsDown(free, b, t) <==> p + Size(up, p) == b.addr;
    var lo, hi, m := Low(free, b, t), High(free, b, t), Merged(free, b, t);
    assert down[m.addr] == Hdr(After(free, hi), m.size);
    assert down[Node(free, lo)] == Hdr(m.addr, SizeAt(free, lo)) by {
      if lo < t {
        assert At(mem, free, lo);
        NodesDiffer(free, lo, t);
      }
    }
    forall i: nat | i < lo || hi < i <= |free|
      ensures Node(free, i) in mem && Node(free, i) in down && down[Node(free, i)] == mem[Node(free, i)]
    {
      assert At(mem, free, i);
      if i < t {
        NodesDiffer(free, i, t);
      } else {
        NodesDiffer(free, t, i);
      }
    }
    SpliceRing(mem, down, free, lo, hi, m);
  }

  /** The owners once a live block has gone back. */
  ghost function GivenBack(own: map<nat, Owner>, a: nat): map<nat, Owner> {
    map u: nat | u in own :: if own[u] == Live(a) then Free else own[u]
  }

  lemma FreeUnitsGrow(mem: Memory, own: map<nat, Owner>, free: seq<Block>, live: map<nat, nat>, a: nat, t: nat)
    requires Sorted(free) && FreeUnits(own, free) && LiveUnits(mem, own, live) && a in live && Apart(free, Block(a, live[a]), t)
    ensures FreeUnits(GivenBack(own, a), Insert(free, Block(a, live[a]), t))
  {
    var b := Block(a, live[a]);
    forall u: nat ensures (u in own && GivenBack(own, a)[u] == Free) <==> InFree(Insert(free, b, t), u) {
      InsertUnits(free, b, t, u);
      assert Within(b, u) <==> u in own && own[u] == Live(a);
    }
  }

  /** Writes that touch no live block but a leave the others in order. */
  lemma OthersLive(mem: Memory, mem': Memory, own: map<nat, Owner>, live: map<nat, nat>, a: nat)
    requires LiveUnits(mem, own, live) && a in live
    requires forall u :: u in mem ==> u in mem'
    requires forall u :: u in own && own[u].Live? && own[u] != Live(a) ==> mem'[u] == mem[u]
    ensures LiveUnits(mem', GivenBack(own, a), live - {a}) && LiveKept(mem, own, mem', GivenBack(own, a))
  {
    var own', live' := GivenBack(own, a), live - {a};
    forall c: nat | c in live' ensures 0 < live'[c] && c in mem' && mem'[c].Hdr? && mem'[c].size == live'[c] {
      assert Within(Block(c, live[c]), c);
    }
  }

  // ----- malloc -----

  /** The owners once n free units from a on have been handed out. */
  ghost function Taken(own: map<nat, Owner>, a: nat, n: nat): map<nat, Owner> {
    map u: nat | u in own :: if Within(Block(a, n), u) then Live(a) else own[u]
  }

  /** The units from a on are inside one free block, to its end. */
  ghost predicate EndsBlock(free: seq<Block>, k: nat, a: nat, n: nat) {
    k < |free| && free[k].addr <= a && a + n == free[k].addr + free[k].size && 0 < n
  }

  lemma TakenFree(mem: Memory, own: map<nat, Owner>, free: seq<Block>, live: map<nat, nat>, k: nat, a: nat, n: nat, u: nat)
    requires FreeUnits(own, free) && EndsBlock(free, k, a, n) && Within(Block(a, n), u)
    ensures u in own && own[u] == Free
  {
    assert Within(free[k], u);
    assert InFree(free, u);
  }

  lemma TakenLive(mem: Memory, mem': Memory, own: map<nat, Owner>, free: seq<Block>, live: map<nat, nat>, k: nat, a: nat, n: nat)
    requires FreeUnits(own, free) && LiveUnits(mem, own, live) && EndsBlock(free, k, a, n)
    requires a in mem' && mem'[a].Hdr? && mem'[a].size == n && forall u :: u in mem ==> u in mem'
    requires forall u :: u in own && own[u].Live? ==> mem'[u] == mem[u]
    ensures a !in live && LiveUnits(mem', Taken(own, a, n), live[a := n]) && LiveKept(mem, own, mem', Taken(own, a, n))
  {
    var own', live' := Taken(own, a, n), live[a := n];
    forall u: nat | Within(Block(a, n), u) ensures u in own && own[u] == Free {
      TakenFree(mem, own, free, live, k, a, n, u);
    }
    assert Within(Block(a, n), a);
    forall c: nat | c in live ensures c != a && c in mem' && mem'[c] == mem[c] {
      assert Within(Block(c, live[c]), c);
    }
  }

  /** The whole block is taken. */
  lemma TakeAll(own: map<nat, Owner>, free: seq<Block>, k: nat)
    requires Sorted(free) && FreeUnits(own, free) && k < |free|
    ensures FreeUnits(Taken(own, free[k].addr, free[k].size), Remove(free, k)) && Sorted(Remove(free, k))
  {
    RemoveSorted(free, k);
    var own' := Taken(own, free[k].addr, free[k].size);
    forall u: nat ensures (u in own' && own'[u] == Free) <==> InFree(Remove(free, k), u) {
      RemoveUnits(free, k, u);
    }
  }

  /** The tail of a block is taken. */
  lemma TakeTail(own: map<nat, Owner>, free: seq<Block>, k: nat, n: nat)
    requires Sorted(free) && FreeUnits(own, free) && k < |free| && 0 < n < free[k].size
    ensures var b := free[k]; var free' := Splice(free, k, k + 1, Block(b.addr, b.size - n));
            FreeUnits(Taken(own, b.addr + b.size - n, n), free') && Sorted(free')
  {
    var b := free[k];
    var free' := Splice(free, k, k + 1, Block(b.addr, b.size - n));
    SpliceSorted(free, k, k + 1, Block(b.addr, b.size - n));
    var own' := Taken(own, b.addr + b.size - n, n);
    forall u: nat ensures (u in own' && own'[u] == Free) <==> InFree(free', u) {
      ShrinkUnits(free, k, n, u);
    }
  }

  /** Coalescing: a run of free units lies in one block. */
  lemma {:induction false} InOneBlock(free: seq<Block>, a: nat, n: nat) returns (k: nat)
    requires Sorted(free) && 0 < n && forall u :: a <= u < a + n ==> InFree(free, u)
    ensures k < |free| && free[k].addr <= a && a + n <= free[k].addr + free[k].size
  {
    if n == 1 {
      assert InFree(free, a);
      k :| 0 <= k < |free| && Within(free[k], a);
    } else {
      k := InOneBlock(free, a, n - 1);
      assert InFree(free, a + n - 1);
      var i :| 0 <= i < |free| && Within(free[i], a + n - 1);
      SameBlock(free, k, i, a + n - 2);
    }
  }

  lemma SameBlock(free: seq<Block>, k: nat, i: nat, u: nat)
    requires Sorted(free) && k < |free| && i < |free| && Within(free[k], u) && Within(free[i], u + 1)
    ensures i == k
  {
  }

  /** The new core is a live block until it is freed. */
  ghost function Supplied(own: map<nat, Owner>, a: nat, n: nat): map<nat, Owner> {
    own + map u: nat | 0 <= u < a + n && Within(Block(a, n), u) :: Live(a)
  }

  lemma SuppliedAt(own: map<nat, Owner>, a: nat, n: nat, u: nat)
    ensures u in Supplied(own, a, n) <==> u in own || Within(Block(a, n), u)
    ensures Within(Block(a, n), u) ==> Supplied(own, a, n)[u] == Live(a)
    ensures u in own && !Within(Block(a, n), u) ==> Supplied(own, a, n)[u] == own[u]
  {
  }

  lemma CoreNotFree(own: map<nat, Owner>, free: seq<Block>, a: nat, n: nat)
    requires FreeUnits(own, free) && forall u: nat :: Within(Block(a, n), u) ==> u !in own
    ensures FreeUnits(Supplied(own, a, n), free)
  {
    var own' := Supplied(own, a, n);
    forall u: nat ensures (u in own' && own'[u] == Free) <==> InFree(free, u) {
      SuppliedAt(own, a, n, u);
    }
  }

  lemma CoreIsLive(mem: Memory, mem': Memory, own: map<nat, Owner>, live: map<nat, nat>, a: nat, n: nat)
    requires LiveUnits(mem, own, live) && BASE < a && 0 < n
    requires forall u: nat :: Within(Block(a, n), u) ==> u !in own && u in mem'
    requires (forall u :: u in mem && !Within(Block(a, n), u) ==> u in mem' && mem'[u] == mem[u])
    requires a in mem' && mem'[a].Hdr? && mem'[a].size == n
    ensures a !in live && LiveUnits(mem', Supplied(own, a, n), live[a := n])
    ensures LiveKept(mem, own, mem', Supplied(own, a, n))
  {
    assert Within(Block(a, n), a);
    forall c: nat | c in live ensures c != a && c in mem' && mem'[c] == mem[c] {
      assert Within(Block(c, live[c]), c);
    }
    var own', live' := Supplied(own, a, n), live[a := n];
    forall u: nat ensures (u in own' <==> u in own || Within(Block(a, n), u)) && (Within(Block(a, n), u) ==> own'[u] == Live(a))
      && (u in own && !Within(Block(a, n), u) ==> own'[u] == own[u])
    {
      SuppliedAt(own, a, n, u);
    }
    hide Supplied;
  }

  lemma BlockIn(mem: Memory, own: map<nat, Owner>, free: seq<Block>, live: map<nat, nat>, a: nat)
    requires LiveUnits(mem, own, live) && a in live
    ensures a in mem && mem[a].Hdr? && mem[a].size == live[a] > 0
  {
  }

  lemma EnoughCells(size: nat, n: nat, units: nat)
    requires 0 < units && n <= size && n <= (units - 1) * UNIT
    ensures Cells(n) < Units(size) && Cells(n) < units
  {
  }

  lemma BlocksApart(mem: Memory, own: map<nat, Owner>, live: map<nat, nat>, a: nat, b: nat)
    requires LiveUnits(mem, own, live) && a in live && b in live && a != b
    ensures a + live[a] <= b || b + live[b] <= a
    ensures forall u: nat :: Within(Block(a, live[a]), u) || Within(Block(b, live[b]), u) ==> u in mem
  {
    OwnerIs(mem, own, live, a, a);
    OwnerIs(mem, own, live, b, b);
    if a <= b < a + live[a] {
      OwnerIs(mem, own, live, a, b);
    }
    if b <= a < b + live[b] {
      OwnerIs(mem, own, live, b, a);
    }
  }

  lemma OwnerIs(mem: Memory, own: map<nat, Owner>, live: map<nat, nat>, a: nat, u: nat)
    requires LiveUnits(mem, own, live) && a in live && a <= u < a + live[a]
    ensures u in own && own[u] == Live(a) && BASE < u && u in mem
  {
    assert Within(Block(a, live[a]), u);
  }

  /** Writing a live block's data disturbs nothing else. */
  lemma DataWritten(mem: Memory, mem': Memory, own: map<nat, Owner>, free: seq<Block>, live: map<nat, nat>, a: nat, n: nat)
    requires InOrder(mem, own, free, live) && a in live && n < live[a] && mem'.Keys == mem.Keys
    requires forall u: nat :: u in mem && !Within(Block(a + 1, n), u) ==> mem'[u] == mem[u]
    ensures InOrder(mem', own, free, live)
  {
    HeadersKept(mem, mem', own, live, a, n);
    hide LiveUnits, FreeUnits;
    forall i: nat | i <= |free| ensures At(mem', free, i) {
      assert At(mem, free, i);
      NodeNotLive(mem, own, free, live, i);
      if a + 1 <= Node(free, i) < a + 1 + n {
        OwnerIs(mem, own, live, a, Node(free, i));
      }
    }
  }

  lemma HeadersKept(mem: Memory, mem': Memory, own: map<nat, Owner>, live: map<nat, nat>, a: nat, n: nat)
    requires LiveUnits(mem, own, live) && a in live && n < live[a] && mem'.Keys == mem.Keys
    requires forall u: nat :: u in mem && !Within(Block(a + 1, n), u) ==> mem'[u] == mem[u]
    ensures LiveUnits(mem', own, live)
  {
    forall c: nat | c in live ensures c in mem && mem'[c] == mem[c] {
      assert 0 < live[c];
      OwnerIs(mem, own, live, c, c);
      if a + 1 <= c < a + 1 + n {
        OwnerIs(mem, own, live, a, c);
      }
    }
  }

  /** Through malloc, the old block is still there, with its contents. */
  lemma OldStands(mem: Memory, own: map<nat, Owner>, live: map<nat, nat>, mem1: Memory, own1: map<nat, Owner>, live1: map<nat, nat>, brk: nat, n: nat, r: nat, ptr: nat)
    requires LiveUnits(mem, own, live) && LiveUnits(mem1, own1, live1) && LiveKept(mem, own, mem1, own1) && ptr != 0 && ptr - 1 in live
    requires if r == 0 then live1 == live && own1 == own else Allocated(own, live, own1, live1, brk, n, r)
    ensures r != 0 ==> r != ptr && r - 1 in live1 && ptr - 1 in live1 && live1[r - 1] == n && live1[ptr - 1] == live[ptr - 1]
    ensures forall u: nat :: Within(Block(ptr - 1, live[ptr - 1]), u) ==> u in mem && u in mem1 && mem1[u] == mem[u]
    ensures r == 0 ==> Undisturbed(mem, own, mem1, own1, ptr)
  {
    forall u: nat | Within(Block(ptr - 1, live[ptr - 1]), u) ensures u in mem && u in mem1 && mem1[u] == mem[u] {
      assert own[u] == Live(ptr - 1);
      assert own1[u] == Live(ptr - 1);
    }
  }

  /** Through free of the old block, the new one keeps its bytes. */
  lemma NewStands(mem: Memory, mem1: Memory, mem2: Memory, own1: map<nat, Owner>, live1: map<nat, nat>, mem3: Memory, own3: map<nat, Owner>, r: nat, ptr: nat, n: nat)
    requires LiveUnits(mem2, own1, live1) && r != 0 && ptr != 0 && r != ptr && r - 1 in live1 && ptr - 1 in live1
    requires Cells(n) < live1[r - 1] && Cells(n) < live1[ptr - 1]
    requires own3 == GivenBack(own1, ptr - 1) && LiveKept(mem2, own1, mem3, own3)
    requires forall k: nat :: k < n ==> ByteAt(mem2, r, k) == ByteAt(mem1, ptr, k)
    requires forall u: nat :: Within(Block(ptr - 1, live1[ptr - 1]), u) ==> u in mem && u in mem1 && mem1[u] == mem[u]
    ensures forall k: nat :: k < n ==> ByteAt(mem3, r, k) == ByteAt(mem, ptr, k)
  {
    forall k: nat | k < n ensures ByteAt(mem3, r, k) == ByteAt(mem, ptr, k) {
      InCells(r, n, k);
      InCells(ptr, n, k);
      assert Within(Block(r - 1, live1[r - 1]), r + k / UNIT);
      assert Within(Block(ptr - 1, live1[ptr - 1]), ptr + k / UNIT);
      assert ByteAt(mem2, r, k) == ByteAt(mem1, ptr, k);
    }
  }

  lemma AllStand(mem: Memory, own: map<nat, Owner>, live: map<nat, nat>, mem1: Memory, own1: map<nat, Owner>, mem2: Memory, live2: map<nat, nat>,
                 mem3: Memory, own3: map<nat, Owner>, r: nat, ptr: nat, brk: nat, n: nat)
    requires LiveUnits(mem, own, live) && LiveUnits(mem2, own1, live2) && LiveKept(mem, own, mem1, own1) && LiveKept(mem2, own1, mem3, own3)
    requires r != 0 && ptr != 0 && Allocated(own, live, own1, live2, brk, n, r) && own3 == GivenBack(own1, ptr - 1)
    requires mem2.Keys == mem1.Keys && forall u: nat :: u in mem1 && !Within(Block(r - 1, n), u) ==> mem2[u] == mem1[u]
    ensures Undisturbed(mem, own, mem3, own3, ptr)
  {
    forall u: nat | u in own && own[u].Live? && own[u].addr + 1 != ptr && u in own3 && own3[u] == own[u] && u in mem
      ensures u in mem3 && mem3[u] == mem[u]
    {
      var c := own[u].addr;
      assert c in live && Within(Block(c, live[c]), u);
      assert c != r - 1;
      assert own1[u] == Live(c);
      assert !Within(Block(r - 1, n), u);
    }
  }

  /** Live blocks other than the one before ptr keep their contents. */
  ghost predicate Undisturbed(mem: Memory, own: map<nat, Owner>, mem': Memory, own': map<nat, Owner>, ptr: nat) {
    forall u: nat :: u in own && own[u].Live? && own[u].addr + 1 != ptr && u in own' && own'[u] == own[u] && u in mem ==> u in mem' && mem'[u] == mem[u]
  }

  /** The units that hold n bytes. */
  function Cells(n: nat): nat { (n + UNIT - 1) / UNIT }

  /** Byte i of a unit, whatever it holds: a header is two little-endian words. */
  function CellByte(c: Cell, i: nat): byte {
    match c
    case Data(bytes) => if i < |bytes| then bytes[i] else 0
    case Hdr(p, n) => if i < 4 then p / Power(i) % 256 else n / Power(i - 4) % 256
  }

  function Power(i: nat): (r: nat)
    ensures r > 0
  {
    if i == 0 then 1 else 256 * Power(i - 1)
  }

  function WithByte(c: Cell, i: nat, b: byte): Cell {
    Data(seq(UNIT, j requires 0 <= j => if j == i then b else CellByte(c, j)))
  }

  /** Byte k of the block whose data starts at unit ap. */
  function ByteAt(mem: Memory, ap: nat, k: nat): byte {
    if ap + k / UNIT in mem then CellByte(mem[ap + k / UNIT], k % UNIT) else 0
  }

  lemma InCells(a: nat, n: nat, k: nat)
    requires k < n
    ensures Within(Block(a, Cells(n)), a + k / UNIT)
  {
  }

  lemma ByteWritten(mem: Memory, ap: nat, k: nat, b: byte, j: nat)
    requires ap + k / UNIT in mem
    ensures var mem' := mem[ap + k / UNIT := WithByte(mem[ap + k / UNIT], k % UNIT, b)];
            ByteAt(mem', ap, j) == if j == k then b else ByteAt(mem, ap, j)
  {
  }

  /** The units sbrk would supply are new. */
  ghost predicate NewCore(own: map<nat, Owner>, brk: nat, n: nat) {
    brk != 0 ==> BASE < brk && forall u: nat :: Within(Block(brk, CoreSize(n)), u) ==> u !in own
  }

  /** The owners before the block is carved. */
  ghost predicate Grown(own: map<nat, Owner>, own': map<nat, Owner>, brk: nat, n: nat, grown: bool) {
    if grown then brk != 0 && own' == GivenBack(Supplied(own, brk, CoreSize(n)), brk) else own' == own
  }

  /** ap points past the header of a new live block of n units, taken from units
      that were free or that sbrk supplied. */
  ghost predicate Allocated(own: map<nat, Owner>, live: map<nat, nat>, own': map<nat, Owner>, live': map<nat, nat>, brk: nat, n: nat, ap: nat) {
    && ap > 0 && ap - 1 !in live && live' == live[ap - 1 := n]
    && (own' == Taken(own, ap - 1, n) || (brk != 0 && own' == Taken(GivenBack(Supplied(own, brk, CoreSize(n)), brk), ap - 1, n)))
  }

  lemma InMemory(mem: Memory, own: map<nat, Owner>, live: map<nat, nat>)
    requires LiveUnits(mem, own, live)
    ensures forall u: nat :: u in own ==> u in mem
  {
  }

  lemma KeptOn(mem: Memory, own: map<nat, Owner>, mem1: Memory, mem2: Memory, own2: map<nat, Owner>)
    requires LiveKept(mem, own, mem1, own) && LiveKept(mem1, own, mem2, own2) && forall u: nat :: u in own ==> u in mem1
    ensures LiveKept(mem, own, mem2, own2)
  {
  }

  /** The units malloc takes for a request. */
  function Units(nbytes: nat): (n: nat)
    ensures 0 < n && nbytes <= (n - 1) * UNIT
  {
    (nbytes + UNIT - 1) / UNIT + 1
  }

  function PrevIndex(free: seq<Block>, k: nat): nat {
    if k == 0 then |free| else k - 1
  }

  /** Steps from node k on to node pos, among n + 1 nodes. */
  function Distance(n: nat, pos: nat, k: nat): int {
    if k <= pos then pos - k else pos + n + 1 - k
  }

  /** The nodes passed since freep are too small. */
  ghost predicate SmallBefore(free: seq<Block>, n: nat, pos: nat, k: nat) {
    forall i: nat :: i <= |free| && Distance(|free|, pos, i) > Distance(|free|, pos, k) ==> SizeAt(free, i) < n
  }

  lemma NoneYet(free: seq<Block>, n: nat, pos: nat)
    requires pos <= |free|
    ensures SmallBefore(free, n, pos, NextIndex(free, pos))
  {
  }

  lemma SmallSoFar(free: seq<Block>, n: nat, pos: nat, k: nat)
    requires pos <= |free| && k <= |free| && k != pos && SmallBefore(free, n, pos, k) && SizeAt(free, k) < n
    ensures SmallBefore(free, n, pos, NextIndex(free, k)) && Distance(|free|, pos, NextIndex(free, k)) < Distance(|free|, pos, k)
  {
  }

  /** Round to freep again: nothing fits. */
  lemma AllSmall(free: seq<Block>, n: nat, pos: nat, k: nat)
    requires Sorted(free) && pos <= |free| && k <= |free| && Node(free, k) == Node(free, pos) && SmallBefore(free, n, pos, k) && SizeAt(free, k) < n
    ensures !Fits(free, n) && k == pos
  {
    assert k == pos by {
      if k < pos {
        NodesDiffer(free, k, pos);
      } else if pos < k {
        NodesDiffer(free, pos, k);
      }
    }
  }

  lemma KeptSame(mem: Memory, own: map<nat, Owner>)
    ensures LiveKept(mem, own, mem, own)
  {
  }

  lemma KeptToo(mem: Memory, own: map<nat, Owner>, mem1: Memory, own1: map<nat, Owner>, free1: seq<Block>, live1: map<nat, nat>,
                mem2: Memory, own2: map<nat, Owner>, brk: nat, n: nat, k: nat, a: nat, grown: bool)
    requires LiveKept(mem, own, mem1, own1) && LiveKept(mem1, own1, mem2, own2) && own2 == Taken(own1, a, n)
    requires Grown(own, own1, brk, n, grown) && NewCore(own, brk, n)
    requires InOrder(mem1, own1, free1, live1) && EndsBlock(free1, k, a, n) && LiveUnits(mem, own, live1)
    ensures LiveKept(mem, own, mem2, own2)
  {
    forall u: nat | Within(Block(a, n), u) ensures u in own1 && own1[u] == Free {
      TakenFree(mem1, own1, free1, live1, k, a, n, u);
    }
    InMemory(mem1, own1, live1);
    forall u: nat | u in own && own[u].Live? ensures u in own1 && own1[u] == own[u] {
      StillLive(mem, own, own1, live1, brk, n, grown, u);
    }
    hide InOrder, LiveUnits, Grown, NewCore;
  }

  lemma StillLive(mem: Memory, own: map<nat, Owner>, own1: map<nat, Owner>, live: map<nat, nat>, brk: nat, n: nat, grown: bool, u: nat)
    requires Grown(own, own1, brk, n, grown) && NewCore(own, brk, n) && LiveUnits(mem, own, live) && u in own && own[u].Live?
    ensures u in own1 && own1[u] == own[u]
  {
    SuppliedAt(own, brk, CoreSize(n), u);
    assert Within(Block(brk, CoreSize(n)), brk);
    assert Within(Block(own[u].addr, live[own[u].addr]), own[u].addr);
  }

  lemma NodeAt(mem: Memory, free: seq<Block>, i: nat)
    requires Ring(mem, free) && i <= |free|
    ensures At(mem, free, i)
  {
  }

  /** The heap in order. */
  ghost predicate InOrder(mem: Memory, own: map<nat, Owner>, free: seq<Block>, live: map<nat, nat>) {
    BASE in mem && Sorted(free) && Ring(mem, free) && FreeUnits(own, free) && LiveUnits(mem, own, live)
  }

  lemma CarvedAll(mem: Memory, mem': Memory, own: map<nat, Owner>, free: seq<Block>, live: map<nat, nat>, k: nat, a: nat, n: nat)
    requires InOrder(mem, own, free, live) && 0 < k <= |free| && a == Node(free, k) && n == SizeAt(free, k)
    requires At(mem, free, k) && At(mem, free, k - 1)
    requires mem' == mem[Node(free, k - 1) := Hdr(mem[Node(free, k)].ptr, mem[Node(free, k - 1)].size)]
    ensures InOrder(mem', Taken(own, a, n), Remove(free, k - 1), live[a := n])
    ensures a !in live && LiveKept(mem, own, mem', Taken(own, a, n)) && EndsBlock(free, k - 1, a, n)
  {
    hide FreeUnits, LiveUnits, Sorted, Ring, LiveKept, Taken, Remove;
    BlockNode(free, k);
    NodesDiffer(free, k - 1, k);
    NodeNotLive(mem, own, free, live, k - 1);
    TakeAll(own, free, k - 1);
    TakenLive(mem, mem', own, free, live, k - 1, a, n);
    RingWithout(mem, mem', free, k - 1);
  }

  /** The node before is where it was. */
  lemma PrevNode(free: seq<Block>, k: nat, m: Block)
    requires 0 < k <= |free| && Sorted(free)
    ensures Node(free, k - 1) != 0 && Node(Remove(free, k - 1), k - 1) == Node(free, k - 1)
    ensures Node(Splice(free, k - 1, k, m), k - 1) == Node(free, k - 1)
  {
  }

  lemma BlockNode(free: seq<Block>, k: nat)
    requires Sorted(free) && 0 < k <= |free|
    ensures 0 < SizeAt(free, k) && BASE < Node(free, k) && Node(free, k - 1) != 0
  {
  }

  lemma RingWithout(mem: Memory, mem': Memory, free: seq<Block>, k: nat)
    requires Sorted(free) && Ring(mem, free) && k < |free| && At(mem, free, k) && At(mem, free, k + 1)
    requires mem' == mem[Node(free, k) := Hdr(mem[Node(free, k + 1)].ptr, mem[Node(free, k)].size)]
    ensures Ring(mem', Remove(free, k))
  {
    forall i: nat | i < k || k + 1 < i <= |free|
      ensures Node(free, i) in mem && Node(free, i) in mem' && mem'[Node(free, i)] == mem[Node(free, i)]
    {
      assert At(mem, free, i);
      if i < k {
        NodesDiffer(free, i, k);
      } else {
        NodesDiffer(free, k, i);
      }
    }
    RemoveRing(mem, mem', free, k);
  }

  lemma CarvedTail(mem: Memory, mem': Memory, own: map<nat, Owner>, free: seq<Block>, live: map<nat, nat>, k: nat, a: nat, n: nat)
    requires InOrder(mem, own, free, live) && 0 < k <= |free| && At(mem, free, k) && 0 < n < SizeAt(free, k)
    requires a == Node(free, k) + SizeAt(free, k) - n
    requires mem' == mem[Node(free, k) := Hdr(mem[Node(free, k)].ptr, SizeAt(free, k) - n)][a := Hdr(Ptr(mem, a), n)]
    ensures InOrder(mem', Taken(own, a, n), Splice(free, k - 1, k, Block(Node(free, k), SizeAt(free, k) - n)), live[a := n])
    ensures a !in live && LiveKept(mem, own, mem', Taken(own, a, n)) && EndsBlock(free, k - 1, a, n)
  {
    hide FreeUnits, LiveUnits, Sorted, Ring, LiveKept, Taken, Splice;
    NodeNotLive(mem, own, free, live, k);
    TakenFree(mem, own, free, live, k - 1, a, n, a);
    TakeTail(own, free, k - 1, n);
    TakenLive(mem, mem', own, free, live, k - 1, a, n);
    RingShrunk(mem, mem', free, k - 1, n);
  }

  lemma RingShrunk(mem: Memory, mem': Memory, free: seq<Block>, k: nat, n: nat)
    requires Sorted(free) && Ring(mem, free) && k < |free| && At(mem, free, k + 1) && 0 < n < free[k].size
    requires var p := free[k].addr; var a := p + free[k].size - n;
             mem' == mem[p := Hdr(mem[p].ptr, free[k].size - n)][a := Hdr(Ptr(mem, a), n)]
    ensures Ring(mem', Splice(free, k, k + 1, Block(free[k].addr, free[k].size - n)))
  {
    var a := free[k].addr + free[k].size - n;
    forall i: nat | i <= |free| && i != k + 1
      ensures Node(free, i) in mem && Node(free, i) in mem' && mem'[Node(free, i)] == mem[Node(free, i)]
    {
      assert At(mem, free, i);
      NotInside(free, k, i);
    }
    assert At(mem, free, k);
    SpliceRing(mem, mem', free, k, k + 1, Block(free[k].addr, free[k].size - n));
  }

  lemma NotInside(free: seq<Block>, k: nat, i: nat)
    requires Sorted(free) && k < |free| && i <= |free| && i != k + 1
    ensures !(free[k].addr <= Node(free, i) < free[k].addr + free[k].size)
  {
  }

  function CoreSize(nu: nat): nat { if nu < 4096 then 4096 else nu }

  /** No node of the ring is among new units. */
  lemma NodesOld(mem: Memory, own: map<nat, Owner>, free: seq<Block>, a: nat, n: nat)
    requires FreeUnits(own, free) && Sorted(free) && BASE < a && forall u: nat :: Within(Block(a, n), u) ==> u !in own
    ensures forall i: nat :: i <= |free| ==> !Within(Block(a, n), Node(free, i))
  {
    forall i: nat | i <= |free| ensures !Within(Block(a, n), Node(free, i)) {
      if i > 0 {
        assert Within(free[i - 1], Node(free, i));
        assert InFree(free, Node(free, i));
      }
    }
  }

  lemma RingKept(mem: Memory, mem': Memory, free: seq<Block>)
    requires Ring(mem, free)
    requires forall i: nat :: i <= |free| && Node(free, i) in mem ==> Node(free, i) in mem' && mem'[Node(free, i)] == mem[Node(free, i)]
    ensures Ring(mem', free)
  {
    forall i: nat | i <= |free| ensures At(mem', free, i) {
      assert At(mem, free, i);
    }
  }

  /** Some node of the ring has n units. */
  ghost predicate Fits(free: seq<Block>, n: nat) {
    exists k: nat :: k <= |free| && n <= SizeAt(free, k)
  }

  lemma HasRoom(own: map<nat, Owner>, free: seq<Block>, own0: map<nat, Owner>, a: nat, n: nat, nu: nat)
    requires Sorted(free) && FreeUnits(own, free) && 0 < n && nu <= n && own == GivenBack(Supplied(own0, a, n), a)
    ensures Fits(free, nu)
  {
    forall u: nat | a <= u < a + n ensures InFree(free, u) {
      SuppliedAt(own0, a, n, u);
    }
    var k := InOneBlock(free, a, n);
    assert nu <= SizeAt(free, k + 1);
  }

  lemma LiveThrough(mem: Memory, own: map<nat, Owner>, mem1: Memory, own1: map<nat, Owner>, live1: map<nat, nat>, a: nat, n: nat)
    requires own1 == Supplied(own, a, n) && LiveUnits(mem1, own1, live1)
    ensures forall u: nat :: u in own ==> u in mem1
  {
    forall u: nat | u in own ensures u in mem1 {
      SuppliedAt(own, a, n, u);
    }
  }

  lemma KeptTwice(mem: Memory, own: map<nat, Owner>, mem1: Memory, mem2: Memory, own2: map<nat, Owner>, a: nat, n: nat)
    requires LiveKept(mem, own, mem1, Supplied(own, a, n)) && LiveKept(mem1, Supplied(own, a, n), mem2, own2)
    requires (forall u: nat :: Within(Block(a, n), u) ==> u !in own) && forall u: nat :: u in own ==> u in mem1
    ensures LiveKept(mem, own, mem2, own2)
  {
  }

  /** Everything free leaves behind. */
  lemma FreeDone(mem: Memory, own: map<nat, Owner>, free: seq<Block>, live: map<nat, nat>, a: nat, t: nat)
    requires Sorted(free) && Ring(mem, free) && FreeUnits(own, free) && LiveUnits(mem, own, live) && BASE in mem
    requires a in live && BASE < a && Between(free, a, t) && Apart(free, Block(a, live[a]), t)
    ensures var p, b := Node(free, t), Block(a, live[a]);
            var mem', own' := LinkDown(LinkUp(mem, a, p), a, p), GivenBack(own, a);
            && BASE in mem' && Sorted(Insert(free, b, t)) && Ring(mem', Insert(free, b, t)) && FreeUnits(own', Insert(free, b, t))
            && LiveUnits(mem', own', live - {a}) && LiveKept(mem, own, mem', own') && p != a && p != 0
            && t <= |Insert(free, b, t)| && p == Node(Insert(free, b, t), t)
  {
    hide FreeUnits, LiveUnits, Sorted, Ring, LiveKept, Apart;
    var p, b := Node(free, t), Block(a, live[a]);
    NotANode(mem, own, free, live, a);
    assert forall i: nat :: i <= |free| ==> Node(free, i) != a;
    LinkedIn(mem, free, b, t);
    InsertSorted(free, b, t);
    FreeUnitsGrow(mem, own, free, live, a, t);
    NodeNotLive(mem, own, free, live, t);
    OthersLive(mem, LinkDown(LinkUp(mem, a, p), a, p), own, live, a);
    SameNode(free, b, t);
  }

  lemma SameNode(free: seq<Block>, b: Block, t: nat)
    requires t <= |free|
    ensures t <= |Insert(free, b, t)| && Node(Insert(free, b, t), t) == Node(free, t)
  {
  }

  lemma NodeNotLive(mem: Memory, own: map<nat, Owner>, free: seq<Block>, live: map<nat, nat>, t: nat)
    requires Sorted(free) && FreeUnits(own, free) && LiveUnits(mem, own, live) && t <= |free|
    ensures Node(free, t) in own ==> own[Node(free, t)] == Free
  {
    if t > 0 {
      assert Within(free[t - 1], free[t - 1].addr);
      assert InFree(free, free[t - 1].addr);
    }
  }

  // ----- conservation -----

  function Total(free: seq<Block>): nat {
    if free == [] then 0 else Total(free[..|free| - 1]) + free[|free| - 1].size
  }

  function UnitsOf(b: Block): set<nat> {
    set u: nat | 0 <= u < b.addr + b.size && Within(b, u)
  }

  lemma UnitsStep(b: Block)
    requires b.size > 0
    ensures var c, last := Block(b.addr, b.size - 1), b.addr + b.size - 1; UnitsOf(b) == UnitsOf(c) + {last} && last !in UnitsOf(c)
  {
    var c, last := Block(b.addr, b.size - 1), b.addr + b.size - 1;
    forall u: nat ensures u in UnitsOf(b) <==> u in UnitsOf(c) + {last} {
      assert Within(b, u) <==> Within(c, u) || u == last;
    }
  }

  lemma {:induction false} UnitsCount(b: Block)
    ensures |UnitsOf(b)| == b.size
    decreases b.size
  {
    if b.size > 0 {
      var c := Block(b.addr, b.size - 1);
      UnitsCount(c);
      UnitsStep(b);
      hide UnitsOf;
    } else {
      assert UnitsOf(b) == {};
    }
  }

  /** The free blocks have as many units as there are free units. */
  lemma {:induction false} FreeCount(free: seq<Block>, units: set<nat>)
    requires Sorted(free) && forall u: nat :: u in units <==> InFree(free, u)
    ensures |units| == Total(free)
  {
    if free == [] {
      assert units == {};
    } else {
      var m := |free| - 1;
      var rest := units - UnitsOf(free[m]);
      UnitsCount(free[m]);
      forall u: nat ensures u in rest <==> InFree(free[..m], u) {
        LastApart(free, u);
      }
      FreeCount(free[..m], rest);
      forall u | u in UnitsOf(free[m]) ensures u in units {
        assert Within(free[m], u);
      }
      assert units == rest + UnitsOf(free[m]);
    }
  }

  lemma LastApart(free: seq<Block>, u: nat)
    requires Sorted(free) && free != []
    ensures InFree(free[..|free| - 1], u) <==> InFree(free, u) && !Within(free[|free| - 1], u)
  {
    var m := |free| - 1;
    if InFree(free, u) && !Within(free[m], u) {
      var i :| 0 <= i < |free| && Within(free[i], u);
      assert free[..m][i] == free[i];
    }
    if InFree(free[..m], u) {
      var i :| 0 <= i < m && Within(free[..m][i], u);
      assert free[i] == free[..m][i];
    }
  }

  /** Every unit is free or belongs to one live block, all of whose units are its own. */
  ghost predicate Tiled(own: map<nat, Owner>, live: map<nat, nat>) {
    && (forall u: nat :: u in own && own[u].Live? ==> own[u].addr in live && Within(Block(own[u].addr, live[own[u].addr]), u))
    && (forall a: nat, u: nat :: a in live && Within(Block(a, live[a]), u) ==> u in own && own[u] == Live(a))
  }

  lemma {:induction false} LiveCount(own: map<nat, Owner>, live: map<nat, nat>)
    requires Tiled(own, live)
    ensures |own.Keys| == Sum(live) + |FreeSet(own)|
    decreases |live|
  {
    if live == map[] {
      assert own.Keys == FreeSet(own);
    } else {
      var a :| a in live && Sum(live) == live[a] + Sum(live - {a});
      var b := Block(a, live[a]);
      TiledWithout(own, live, a);
      UnitsCount(b);
      LiveCount(own - UnitsOf(b), live - {a});
    }
  }

  /** A live block and its units taken away. */
  lemma TiledWithout(own: map<nat, Owner>, live: map<nat, nat>, a: nat)
    requires Tiled(own, live) && a in live
    ensures var b := Block(a, live[a]);
            && Tiled(own - UnitsOf(b), live - {a}) && FreeSet(own - UnitsOf(b)) == FreeSet(own)
            && |own.Keys| == |(own - UnitsOf(b)).Keys| + |UnitsOf(b)|
  {
    var b := Block(a, live[a]);
    forall u | u in UnitsOf(b) ensures u in own && own[u] == Live(a) {
      assert Within(b, u);
    }
    KeysWithout(own, UnitsOf(b));
    hide UnitsOf;
    assert FreeSet(own - UnitsOf(b)) == FreeSet(own);
    TiledStill(own, live, a);
  }

  lemma KeysWithout(own: map<nat, Owner>, units: set<nat>)
    requires units <= own.Keys
    ensures |own.Keys| == |(own - units).Keys| + |units|
  {
    assert (own - units).Keys == own.Keys - units;
  }

  lemma TiledStill(own: map<nat, Owner>, live: map<nat, nat>, a: nat)
    requires Tiled(own, live) && a in live
    ensures Tiled(own - UnitsOf(Block(a, live[a])), live - {a})
  {
    var b := Block(a, live[a]);
    var own': map<nat, Owner> := own - UnitsOf(b);
    var live': map<nat, nat> := live - {a};
    forall u: nat | u in own' && own'[u].Live? ensures own'[u].addr in live' && Within(Block(own'[u].addr, live'[own'[u].addr]), u) {
      assert own[u] == own'[u] && !Within(b, u);
    }
    forall c: nat, u: nat | c in live' && Within(Block(c, live'[c]), u) ensures u in own' && own'[u] == Live(c) {
      assert live[c] == live'[c] && own[u] == Live(c);
      assert u !in UnitsOf(b);
    }
  }

  ghost function FreeSet(own: map<nat, Owner>): set<nat> {
    set u | u in own && own[u] == Free
  }

  /** Conservation: the units of the live blocks and those of the free blocks are all
      the units ever got from sbrk. */
  lemma UnitsConserved(mem: Memory, own: map<nat, Owner>, free: seq<Block>, live: map<nat, nat>)
    requires Sorted(free) && FreeUnits(own, free) && LiveUnits(mem, own, live)
    ensures Sum(live) + Total(free) == |own.Keys|
  {
    FreeCount(free, FreeSet(own));
    LiveCount(own, live);
  }

  /** The bytes morecore asks for, if it has to, are a positive int. */
  ghost predicate CanAsk(free: seq<Block>, n: nat) {
    Fits(free, n) || n * UNIT < 0x8000_0000
  }

  class Heap {
    var mem: Memory
    var freep: nat                 // 0 until the first malloc
    ghost var free: seq<Block>
    ghost var live: map<nat, nat>  // header address and size of each block in use
    ghost var own: map<nat, Owner> // every unit sbrk has supplied
    ghost var pos: nat             // freep is this node of the ring

    ghost predicate Valid()
      reads this
    {
      && BASE in mem
      && (freep == 0 ==> own == map[] && live == map[] && free == [])
      && (freep != 0 ==> InOrder(mem, own, free, live) && pos <= |free| && freep == Node(free, pos))
    }

    constructor (mem: Memory)
      requires BASE in mem
      ensures Valid() && live == map[] && own == map[] && freep == 0
    {
      this.mem := mem;
      freep := 0;
      free := [];
      live := map[];
      own := map[];
      pos := 0;
    }

    /** free's walk: to the node that the block belongs after. */
    method FindPlace(bp: nat) returns (p: nat, ghost t: nat)
      requires Valid() && freep != 0 && BASE < bp && forall i :: 0 <= i < |free| ==> free[i].addr != bp
      ensures Between(free, bp, t) && p == Node(free, t)
    {
      hide FreeUnits, LiveUnits, Sorted;
      t := HasPlace(free, bp);
      ghost var j: nat := pos;
      p := freep;
      StopsThere(free, bp, t, j);
      assert At(mem, free, j);
      while !(bp > p && bp < mem[p].ptr)
        invariant j <= |free| && p == Node(free, j) && At(mem, free, j)
        invariant ((bp > p && bp < mem[p].ptr) || (p >= mem[p].ptr && (bp > p || bp < mem[p].ptr))) <==> j == t
        decreases if j <= t then t - j else t + |free| + 1 - j
      {
        if p >= mem[p].ptr && (bp > p || bp < mem[p].ptr) {
          break;
        }
        p := mem[p].ptr;
        j := NextIndex(free, j);
        StopsThere(free, bp, t, j);
        assert At(mem, free, j);
      }
    }

    /** free: the block joins the ring, coalesced with its neighbours; every other
        live block keeps its units and contents. */
    method Free(ap: nat)
      requires Valid() && ap > 0 && ap - 1 in live
      modifies this
      ensures Valid() && live == old(live) - {ap - 1} && own == GivenBack(old(own), ap - 1) && freep != 0
      ensures LiveKept(old(mem), old(own), mem, own)
    {
      hide FreeUnits, LiveUnits, Sorted, Ring, LiveKept, Apart;
      var bp := ap - 1;
      assert freep != 0;
      NotANode(mem, own, free, live, bp);
      var p, t := FindPlace(bp);
      ClearOfFree(mem, own, free, live, bp, t);
      FreeDone(mem, own, free, live, bp, t);
      Join(bp, p, t);
      own := GivenBack(own, bp);
      live := live - {bp};
      free := Insert(free, Block(bp, old(live)[bp]), t);
      pos := t;
    }

    /** free's writes, once the node p before the block is known. */
    method Join(bp: nat, p: nat, ghost t: nat)
      requires Sorted(free) && Ring(mem, free) && t <= |free| && p == Node(free, t) && bp in mem && mem[bp].Hdr? && bp != p
      modifies this`mem, this`freep
      ensures mem == LinkDown(LinkUp(old(mem), bp, p), bp, p) && freep == p
    {
      assert At(mem, free, t);
      var next := mem[p].ptr;
      assert At(mem, free, NextIndex(free, t));
      if bp + mem[bp].size == next {
        mem := mem[bp := Hdr(mem[next].ptr, mem[bp].size + mem[next].size)];
      } else {
        mem := mem[bp := Hdr(next, mem[bp].size)];
      }
      if p + mem[p].size == bp {
        mem := mem[p := Hdr(mem[bp].ptr, mem[p].size + mem[bp].size)];
      } else {
        mem := mem[p := Hdr(bp, mem[p].size)];
      }
      freep := p;
    }

    /** morecore: at least nu units from sbrk go onto the ring. brk is what sbrk
        returned, 0 for failure. */
    method Morecore(nu: nat, brk: nat) returns (p: nat)
      requires Valid() && freep != 0 && 0 < nu
      requires brk != 0 ==> BASE < brk && forall u: nat :: Within(Block(brk, CoreSize(nu)), u) ==> u !in own
      modifies this
      ensures Valid() && freep != 0 && live == old(live) && LiveKept(old(mem), old(own), mem, own)
      ensures brk == 0 ==> p == 0 && mem == old(mem) && freep == old(freep) && free == old(free) && own == old(own)
      ensures brk != 0 ==> p == freep && own == GivenBack(Supplied(old(own), brk, CoreSize(nu)), brk)
      ensures brk != 0 ==> Fits(free, nu)
    {
      if brk == 0 {
        return 0;
      }
      hide FreeUnits, LiveUnits, Sorted, Ring, LiveKept;
      var n := CoreSize(nu);
      ghost var mem0, own0, live0 := mem, own, live;
      Supply(brk, n);
      ghost var mem1 := mem;
      LiveThrough(mem0, own0, mem1, own, live, brk, n);
      Free(brk + 1);
      HasRoom(own, free, own0, brk, n, nu);
      assert live0[brk := n] - {brk} == live0;
      KeptTwice(mem0, own0, mem1, mem, own, brk, n);
      p := freep;
    }

    /** sbrk's units, with the header morecore writes. */
    method Supply(a: nat, n: nat)
      requires Valid() && freep != 0 && BASE < a && 0 < n && forall u: nat :: Within(Block(a, n), u) ==> u !in own
      modifies this`mem, this`own, this`live
      ensures Valid() && a !in old(live) && live == old(live)[a := n] && own == Supplied(old(own), a, n)
      ensures LiveKept(old(mem), old(own), mem, own)
    {
      hide FreeUnits, LiveUnits, Sorted, Ring, LiveKept;
      ghost var mem0 := mem;
      NodesOld(mem, own, free, a, n);
      mem := mem + map u: nat | 0 <= u < a + n && Within(Block(a, n), u) :: Data([0, 0, 0, 0, 0, 0, 0, 0]);
      assert Within(Block(a, n), a);
      mem := mem[a := Hdr(0, n)];
      CoreNotFree(own, free, a, n);
      CoreIsLive(mem0, mem, own, live, a, n);
      RingKept(mem0, mem, free);
      own := Supplied(own, a, n);
      live := live[a := n];
    }

    /** malloc's carving of n units from node k: the whole block, or its tail. */
    method Carve(prevp: nat, p: nat, n: nat, ghost k: nat) returns (a: nat)
      requires Valid() && freep != 0 && 0 < k <= |free| && p == Node(free, k) && prevp == Node(free, k - 1) && 0 < n <= SizeAt(free, k)
      modifies this
      ensures Valid() && freep != 0 && a !in old(live) && live == old(live)[a := n] && own == Taken(old(own), a, n)
      ensures EndsBlock(old(free), k - 1, a, n)
      ensures LiveKept(old(mem), old(own), mem, own)
    {
      hide FreeUnits, LiveUnits, Sorted, Ring, LiveKept;
      ghost var mem0, own0, free0, live0, b := mem, own, free, live, free[k - 1];
      NodeAt(mem, free, k);
      NodeAt(mem, free, k - 1);
      if mem[p].size == n {
        mem := mem[prevp := Hdr(mem[p].ptr, mem[prevp].size)];
        a := p;
        free := Remove(free, k - 1);
        CarvedAll(mem0, mem, own0, free0, live0, k, a, n);
      } else {
        mem := mem[p := Hdr(mem[p].ptr, mem[p].size - n)];
        a := p + mem[p].size;
        mem := mem[a := Hdr(Ptr(mem, a), n)];
        free := Splice(free, k - 1, k, Block(b.addr, b.size - n));
        CarvedTail(mem0, mem, own0, free0, live0, k, a, n);
      }
      PrevNode(free0, k, Block(b.addr, b.size - n));
      own := Taken(own, a, n);
      live := live[a := n];
      freep := prevp;
      pos := k - 1;
    }

    /** malloc: first fit from freep on, growing the heap once at most. A block of
        enough units, free before, becomes live; every other live block keeps its
        units and contents. brk is what sbrk would return; it takes an int. */
    method Malloc(nbytes: nat, brk: nat) returns (ap: nat)
      requires Valid() && nbytes + UNIT < 0x1_0000_0000
      requires NewCore(own, brk, Units(nbytes)) && CanAsk(free, Units(nbytes))
      modifies this
      ensures Valid() && freep != 0 && LiveKept(old(mem), old(own), mem, own)
      ensures ap == 0 ==> brk == 0 && live == old(live) && own == old(own) && !Fits(free, Units(nbytes))
      ensures ap != 0 ==> Allocated(old(own), old(live), own, live, brk, Units(nbytes), ap)
      ensures Fits(old(free), Units(nbytes)) ==> ap != 0 && own == Taken(old(own), ap - 1, Units(nbytes))
    {
      var n := Units(nbytes);
      if freep == 0 {
        Begin();
      }
      ap := Fit(n, brk, mem, own, live, free);
    }

    /** malloc's first call: the ring is base alone. */
    method Begin()
      requires Valid() && freep == 0
      modifies this`mem, this`freep, this`pos
      ensures Valid() && freep != 0 && LiveKept(old(mem), own, mem, own)
    {
      mem := mem[BASE := Hdr(BASE, 0)];
      freep := BASE;
      pos := 0;
      assert At(mem, free, 0);
    }

    /** malloc's loop. */
    method Fit(n: nat, brk: nat, ghost mem0: Memory, ghost own0: map<nat, Owner>, ghost live0: map<nat, nat>, ghost free0: seq<Block>) returns (ap: nat)
      requires Valid() && freep != 0 && 0 < n && mem0 == mem && own0 == own && live0 == live && free0 == free && NewCore(own0, brk, n)
      modifies this
      ensures Valid() && freep != 0 && LiveKept(mem0, own0, mem, own)
      ensures ap == 0 ==> brk == 0 && live == live0 && own == own0 && !Fits(free, n)
      ensures ap != 0 ==> Allocated(own0, live0, own, live, brk, n, ap)
      ensures Fits(free0, n) ==> ap != 0 && own == Taken(own0, ap - 1, n)
    {
      hide FreeUnits, LiveUnits, Sorted, Ring, LiveKept, SmallBefore, Fits, Allocated, NewCore, Supplied, GivenBack, Taken;
      var prevp := freep;
      NodeAt(mem, free, pos);
      var p := mem[prevp].ptr;
      ghost var k: nat, grown := NextIndex(free, pos), false;
      KeptSame(mem, own);
      NoneYet(free, n, pos);
      var done := false;
      ap := 0;
      while !done
        invariant done || Searching(n, brk, prevp, p, mem0, own0, live0, free0, k, grown)
        invariant done ==> Finished(n, brk, mem0, own0, live0, free0, ap)
        decreases !done, !grown, Distance(|free|, pos, k)
      {
        hide Searching, Finished, Distance;
        done, ap, prevp, p, k, grown := Look(n, brk, prevp, p, mem0, own0, live0, free0, k, grown);
      }
    }

    /** malloc's search at node k, after node prevp. */
    ghost predicate Searching(n: nat, brk: nat, prevp: nat, p: nat, mem0: Memory, own0: map<nat, Owner>, live0: map<nat, nat>, free0: seq<Block>, k: nat, grown: bool)
      reads this
    {
      && Valid() && freep != 0 && k <= |free| && p == Node(free, k) && prevp == Node(free, PrevIndex(free, k))
      && live == live0 && LiveKept(mem0, own0, mem, own) && Grown(own0, own, brk, n, grown)
      && (grown ==> Fits(free, n)) && SmallBefore(free, n, pos, k) && (if grown then !Fits(free0, n) else free == free0)
      && 0 < n && NewCore(own0, brk, n) && LiveUnits(mem0, own0, live0)
    }

    ghost predicate Finished(n: nat, brk: nat, mem0: Memory, own0: map<nat, Owner>, live0: map<nat, nat>, free0: seq<Block>, ap: nat)
      reads this
    {
      && Valid() && freep != 0 && LiveKept(mem0, own0, mem, own)
      && (ap == 0 ==> brk == 0 && live == live0 && own == own0 && !Fits(free, n))
      && (ap != 0 ==> Allocated(own0, live0, own, live, brk, n, ap))
      && (Fits(free0, n) ==> ap != 0 && own == Taken(own0, ap - 1, n))
    }

    /** malloc's loop body. */
    method Look(n: nat, brk: nat, prevp: nat, p: nat, ghost mem0: Memory, ghost own0: map<nat, Owner>, ghost live0: map<nat, nat>, ghost free0: seq<Block>, ghost k: nat, ghost grown: bool)
        returns (done: bool, ap: nat, prevp': nat, p': nat, ghost k': nat, ghost grown': bool)
      requires Searching(n, brk, prevp, p, mem0, own0, live0, free0, k, grown)
      modifies this
      ensures done ==> Finished(n, brk, mem0, own0, live0, free0, ap)
      ensures !done ==> Searching(n, brk, prevp', p', mem0, own0, live0, free0, k', grown') && (grown ==> grown')
      ensures !done && grown == grown' ==> Distance(|free|, pos, k') < Distance(|old(free)|, old(pos), k)
      ensures !done && grown == grown' ==> Distance(|free|, pos, k') >= 0
    {
      hide FreeUnits, LiveUnits, Sorted, Ring, LiveKept, Grown, Fits, NewCore, SmallBefore, Allocated;
      done, ap, prevp', p', k', grown' := true, 0, p, p, k, grown;
      NodeAt(mem, free, k);
      if mem[p].size >= n {
        ap := Take(prevp, p, n, brk, mem0, own0, live0, k, grown);
        return;
      }
      if p == freep {
        AllSmall(free, n, pos, k);
        prevp' := Extend(n, brk, mem0, own0, live0, grown);
        if prevp' == 0 {
          return;
        }
        grown', k' := true, pos;
        NodeAt(mem, free, k');
        NoneYet(free, n, pos);
      } else {
        SmallSoFar(free, n, pos, k);
      }
      done, p', k' := false, mem[prevp'].ptr, NextIndex(free, k');
    }

    /** The first block that fits is carved. */
    method Take(prevp: nat, p: nat, n: nat, brk: nat, ghost mem0: Memory, ghost own0: map<nat, Owner>, ghost live0: map<nat, nat>, ghost k: nat, ghost grown: bool)
        returns (ap: nat)
      requires Valid() && freep != 0 && 0 < n && k <= |free| && p == Node(free, k) && prevp == Node(free, PrevIndex(free, k)) && n <= SizeAt(free, k)
      requires live == live0 && LiveKept(mem0, own0, mem, own) && Grown(own0, own, brk, n, grown) && NewCore(own0, brk, n)
      requires LiveUnits(mem0, own0, live0)
      modifies this
      ensures Valid() && freep != 0 && LiveKept(mem0, own0, mem, own) && ap != 0 && Allocated(own0, live0, own, live, brk, n, ap)
      ensures !grown ==> own == Taken(own0, ap - 1, n)
    {
      hide FreeUnits, LiveUnits, Sorted, Ring, LiveKept, NewCore, Taken, GivenBack, Supplied;
      ghost var mem1, own1, free1 := mem, own, free;
      var a := Carve(prevp, p, n, k);
      KeptToo(mem0, own0, mem1, own1, free1, live0, mem, own, brk, n, k - 1, a, grown);
      ap := a + 1;
    }

    /** Nothing fits: more core, once. */
    method Extend(n: nat, brk: nat, ghost mem0: Memory, ghost own0: map<nat, Owner>, ghost live0: map<nat, nat>, ghost grown: bool) returns (p: nat)
      requires Valid() && freep != 0 && 0 < n && !grown && !Fits(free, n)
      requires live == live0 && LiveKept(mem0, own0, mem, own) && Grown(own0, own, brk, n, false) && NewCore(own0, brk, n)
      modifies this
      ensures Valid() && freep != 0 && live == live0 && LiveKept(mem0, own0, mem, own)
      ensures p == 0 ==> brk == 0 && own == own0 && !Fits(free, n)
      ensures p != 0 ==> p == freep && Grown(own0, own, brk, n, true) && Fits(free, n)
    {
      hide FreeUnits, LiveUnits, Sorted, Ring, LiveKept, Fits, GivenBack, Supplied;
      ghost var mem1 := mem;
      InMemory(mem, own, live);
      p := Morecore(n, brk);
      KeptOn(mem0, own0, mem1, mem, own);
    }

    /** memmove between two blocks, byte by byte; they do not overlap. */
    method Memmove(dst: nat, src: nat, n: nat)
      requires forall u: nat :: Within(Block(dst, Cells(n)), u) || Within(Block(src, Cells(n)), u) ==> u in mem
      requires dst + Cells(n) <= src || src + Cells(n) <= dst
      modifies this`mem
      ensures mem.Keys == old(mem).Keys && forall u: nat :: u in mem && !Within(Block(dst, Cells(n)), u) ==> mem[u] == old(mem)[u]
      ensures forall k: nat :: k < n ==> ByteAt(mem, dst, k) == ByteAt(old(mem), src, k)
    {
      ghost var mem0 := mem;
      var k := 0;
      while k < n
        invariant k <= n && mem.Keys == mem0.Keys
        invariant forall u: nat :: u in mem && !Within(Block(dst, Cells(n)), u) ==> mem[u] == mem0[u]
        invariant forall j: nat :: j < k ==> ByteAt(mem, dst, j) == ByteAt(mem0, src, j)
      {
        InCells(dst, n, k);
        InCells(src, n, k);
        ghost var mem1 := mem;
        mem := mem[dst + k / UNIT := WithByte(mem[dst + k / UNIT], k % UNIT, ByteAt(mem, src, k))];
        forall j: nat | j < k + 1 ensures ByteAt(mem, dst, j) == ByteAt(mem0, src, j) {
          ByteWritten(mem1, dst, k, ByteAt(mem1, src, k), j);
        }
        k := k + 1;
      }
    }

    /** realloc: the common prefix survives the move, and so does every other live
        block; a failure leaves the old block in place. */
    method Realloc(ptr: nat, size: nat, brk: nat) returns (r: nat)
      requires Valid() && size + UNIT < 0x1_0000_0000 && (ptr != 0 ==> ptr - 1 in live) && NewCore(own, brk, Units(size)) && CanAsk(free, Units(size))
      modifies this
      ensures Valid() && Undisturbed(old(mem), old(own), mem, own, ptr)
      ensures ptr == 0 && r != 0 ==> Allocated(old(own), old(live), own, live, brk, Units(size), r)
      ensures ptr != 0 && size == 0 ==> r == 0 && live == old(live) - {ptr - 1}
      ensures size != 0 && r == 0 ==> live == old(live) && own == old(own) && brk == 0 && !Fits(free, Units(size))
      ensures ptr != 0 && size != 0 && r != 0 ==>
                && r - 1 !in old(live) && live == old(live)[r - 1 := Units(size)] - {ptr - 1}
                && forall k: nat :: k < size && k < (old(live)[ptr - 1] - 1) * UNIT ==> ByteAt(mem, r, k) == ByteAt(old(mem), ptr, k)
    {
      hide FreeUnits, LiveUnits, Sorted, Ring, Taken, Supplied, GivenBack, Fits;
      if ptr == 0 {
        r := Malloc(size, brk);
        return;
      }
      if size == 0 {
        Free(ptr);
        return 0;
      }
      r := Replace(ptr, size, brk);
    }

    /** realloc to a size that is not 0, of a block that is there. */
    method Replace(ptr: nat, size: nat, brk: nat) returns (r: nat)
      requires Valid() && 0 < size && size + UNIT < 0x1_0000_0000 && ptr != 0 && ptr - 1 in live && NewCore(own, brk, Units(size)) && CanAsk(free, Units(size))
      modifies this
      ensures Valid() && Undisturbed(old(mem), old(own), mem, own, ptr)
      ensures r == 0 ==> live == old(live) && own == old(own) && brk == 0 && !Fits(free, Units(size))
      ensures r != 0 ==>
                && r - 1 !in old(live) && live == old(live)[r - 1 := Units(size)] - {ptr - 1}
                && forall k: nat :: k < size && k < (old(live)[ptr - 1] - 1) * UNIT ==> ByteAt(mem, r, k) == ByteAt(old(mem), ptr, k)
    {
      hide FreeUnits, LiveUnits, LiveKept, Sorted, Ring, Fits, Taken, GivenBack, Supplied, NewCore, Undisturbed, ByteAt;
      ghost var mem0, own0, live0 := mem, own, live;
      BlockIn(mem, own, free, live, ptr - 1);
      var oldSize := (mem[ptr - 1].size - 1) * UNIT;
      r := Malloc(size, brk);
      ghost var mem1, own1 := mem, own;
      OldStands(mem0, own0, live0, mem, own, live, brk, Units(size), r, ptr);
      if r != 0 {
        var n := if oldSize < size then oldSize else size;
        EnoughCells(size, n, live0[ptr - 1]);
        MoveData(r, ptr, n);
        ghost var mem2 := mem;
        ghost var live2 := live;
        Free(ptr);
        assert live == live0[r - 1 := Units(size)] - {ptr - 1};
        NewStands(mem0, mem1, mem2, own1, live2, mem, own, r, ptr, n);
        AllStand(mem0, own0, live0, mem1, own1, mem2, live2, mem, own, r, ptr, brk, Units(size));
      }
    }

    /** realloc's memmove, inside two live blocks. */
    method MoveData(r: nat, ptr: nat, n: nat)
      requires Valid() && freep != 0 && r != 0 && ptr != 0 && r != ptr && r - 1 in live && ptr - 1 in live
      requires Cells(n) < live[r - 1] && Cells(n) < live[ptr - 1]
      modifies this`mem
      ensures Valid() && mem.Keys == old(mem).Keys && forall u: nat :: u in mem && !Within(Block(r, Cells(n)), u) ==> mem[u] == old(mem)[u]
      ensures forall k: nat :: k < n ==> ByteAt(mem, r, k) == ByteAt(old(mem), ptr, k)
    {
      hide FreeUnits, LiveUnits, Sorted, Ring, ByteAt;
      ghost var mem0 := mem;
      BlocksApart(mem, own, live, r - 1, ptr - 1);
      Memmove(r, ptr, n);
      DataWritten(mem0, mem, own, free, live, r - 1, Cells(n));
    }
  }
}
