/** The free ring of the storage allocator in ulib/umalloc.c (section 8.7 of The C
    Programming Language, 2nd edition). Memory is addressed in header-sized units.
    The ring runs through the free blocks in address order and back to `base`,
    which lies below them all. */
module FreeRing {
  import opened Bytes

  const BASE := 1                  // &base; 0 is the null pointer

  /** A unit holds a header, or eight bytes of someone's data. */
  datatype Cell = Hdr(ptr: nat, size: nat) | Data(bytes: seq<byte>)

  type Memory = map<nat, Cell>

  datatype Block = Block(addr: nat, size: nat)

  /** Who has a unit: the ring, or the live block at an address. */
  datatype Owner = Free | Live(addr: nat)

  // ----- the blocks -----

  /** Sorted by address, and fully coalesced: no block touches the next. */
  ghost predicate Sorted(free: seq<Block>) {
    && (forall i :: 0 <= i < |free| ==> BASE < free[i].addr && 0 < free[i].size)
    && (forall i, j :: 0 <= i < j < |free| ==> free[i].addr + free[i].size < free[j].addr)
  }

  predicate Within(b: Block, u: nat) {
    b.addr <= u < b.addr + b.size
  }

  ghost predicate InFree(free: seq<Block>, u: nat) {
    exists i :: 0 <= i < |free| && Within(free[i], u)
  }

  // ----- the ring in memory -----

  /** Node 0 is base; node i is the i-th free block. */
  function Node(free: seq<Block>, i: nat): nat
    requires i <= |free|
  {
    if i == 0 then BASE else free[i - 1].addr
  }

  function SizeAt(free: seq<Block>, i: nat): nat
    requires i <= |free|
  {
    if i == 0 then 0 else free[i - 1].size
  }

  function NextIndex(free: seq<Block>, i: nat): nat {
    if i < |free| then i + 1 else 0
  }

  predicate At(mem: Memory, free: seq<Block>, i: nat) {
    && i <= |free| && Node(free, i) in mem
    && mem[Node(free, i)] == Hdr(Node(free, NextIndex(free, i)), SizeAt(free, i))
  }

  ghost predicate Ring(mem: Memory, free: seq<Block>) {
    forall i: nat :: i <= |free| ==> At(mem, free, i)
  }

  // ----- putting a block in -----

  /** a goes after the first t blocks. */
  ghost predicate Between(free: seq<Block>, a: nat, t: nat) {
    && t <= |free|
    && (forall i :: 0 <= i < t ==> free[i].addr < a)
    && (forall i :: t <= i < |free| ==> a < free[i].addr)
  }

  /** The block at a has units of its own. */
  ghost predicate Apart(free: seq<Block>, b: Block, t: nat) {
    && t <= |free|
    && (forall i :: 0 <= i < t ==> free[i].addr + free[i].size <= b.addr)
    && (forall i :: t <= i < |free| ==> b.addr + b.size <= free[i].addr)
  }

  predicate JoinsUp(free: seq<Block>, b: Block, t: nat) {
    t < |free| && b.addr + b.size == free[t].addr
  }

  predicate JoinsDown(free: seq<Block>, b: Block, t: nat) {
    0 < t <= |free| && free[t - 1].addr + free[t - 1].size == b.addr
  }

  function Merged(free: seq<Block>, b: Block, t: nat): Block {
    var size := if JoinsUp(free, b, t) then b.size + free[t].size else b.size;
    if JoinsDown(free, b, t) then Block(free[t - 1].addr, free[t - 1].size + size) else Block(b.addr, size)
  }

  /** Blocks lo up to hi give way to the block m. */
  function Splice(free: seq<Block>, lo: nat, hi: nat, m: Block): (r: seq<Block>)
    requires lo <= hi <= |free|
    ensures |r| == |free| - hi + lo + 1
  {
    free[..lo] + [m] + free[hi..]
  }

  lemma SpliceAt(free: seq<Block>, lo: nat, hi: nat, m: Block, i: nat)
    requires lo <= hi <= |free| && i < |free| - hi + lo + 1
    ensures |Splice(free, lo, hi, m)| == |free| - hi + lo + 1
    ensures Splice(free, lo, hi, m)[i] == if i < lo then free[i] else if i == lo then m else free[i - lo - 1 + hi]
  {
  }

  function Low(free: seq<Block>, b: Block, t: nat): nat {
    if JoinsDown(free, b, t) then t - 1 else t
  }

  function High(free: seq<Block>, b: Block, t: nat): nat {
    if JoinsUp(free, b, t) then t + 1 else t
  }

  function Insert(free: seq<Block>, b: Block, t: nat): seq<Block>
    requires t <= |free|
  {
    Splice(free, Low(free, b, t), High(free, b, t), Merged(free, b, t))
  }

  lemma SpliceSorted(free: seq<Block>, lo: nat, hi: nat, m: Block)
    requires Sorted(free) && lo <= hi <= |free| && BASE < m.addr && 0 < m.size
    requires forall i :: 0 <= i < lo ==> free[i].addr + free[i].size < m.addr
    requires forall i :: hi <= i < |free| ==> m.addr + m.size < free[i].addr
    ensures Sorted(Splice(free, lo, hi, m))
  {
  }

  lemma InsertSorted(free: seq<Block>, b: Block, t: nat)
    requires Sorted(free) && Apart(free, b, t) && BASE < b.addr && 0 < b.size
    ensures Sorted(Insert(free, b, t))
  {
    SpliceSorted(free, Low(free, b, t), High(free, b, t), Merged(free, b, t));
  }

  /** The unit is in one of blocks lo up to hi. */
  ghost predicate InSome(free: seq<Block>, lo: nat, hi: nat, u: nat) {
    exists i :: lo <= i < hi && i < |free| && Within(free[i], u)
  }

  lemma SpliceUnits(free: seq<Block>, lo: nat, hi: nat, m: Block, u: nat)
    requires lo <= hi <= |free|
    ensures InFree(Splice(free, lo, hi, m), u) <==> InSome(free, 0, lo, u) || Within(m, u) || InSome(free, hi, |free|, u)
  {
    var r := Splice(free, lo, hi, m);
    SpliceAt(free, lo, hi, m, lo);
    hide Splice;
    if InSome(free, 0, lo, u) {
      var i :| 0 <= i < lo && Within(free[i], u);
      SpliceAt(free, lo, hi, m, i);
    }
    if InSome(free, hi, |free|, u) {
      var i :| hi <= i < |free| && Within(free[i], u);
      SpliceAt(free, lo, hi, m, i - hi + lo + 1);
    }
    if InFree(r, u) {
      var i :| 0 <= i < |r| && Within(r[i], u);
      SpliceAt(free, lo, hi, m, i);
    }
  }

  lemma MergedUnits(free: seq<Block>, b: Block, t: nat, u: nat)
    requires Sorted(free) && Apart(free, b, t)
    ensures Within(Merged(free, b, t), u) <==> Within(b, u) || InSome(free, Low(free, b, t), High(free, b, t), u)
  {
    if JoinsDown(free, b, t) && Within(free[t - 1], u) {
      assert InSome(free, Low(free, b, t), High(free, b, t), u);
    }
    if JoinsUp(free, b, t) && Within(free[t], u) {
      assert InSome(free, Low(free, b, t), High(free, b, t), u);
    }
  }

  lemma InsertUnits(free: seq<Block>, b: Block, t: nat, u: nat)
    requires Sorted(free) && Apart(free, b, t)
    ensures InFree(Insert(free, b, t), u) <==> InFree(free, u) || Within(b, u)
  {
    var lo, hi := Low(free, b, t), High(free, b, t);
    SpliceUnits(free, lo, hi, Merged(free, b, t), u);
    MergedUnits(free, b, t, u);
    hide Sorted, Apart, Splice, Merged;
    assert InFree(free, u) <==> InSome(free, 0, lo, u) || InSome(free, lo, hi, u) || InSome(free, hi, |free|, u);
  }

  // ----- the ring after a change -----

  /** The node after block i - 1. */
  function After(free: seq<Block>, i: nat): nat {
    if i < |free| then free[i].addr else BASE
  }

  /** m's header points past block hi, and its predecessor's at m. */
  lemma SpliceRing(mem: Memory, mem': Memory, free: seq<Block>, lo: nat, hi: nat, m: Block)
    requires Ring(mem, free) && lo <= hi <= |free|
    requires m.addr in mem' && mem'[m.addr] == Hdr(After(free, hi), m.size)
    requires Node(free, lo) in mem' && mem'[Node(free, lo)] == Hdr(m.addr, SizeAt(free, lo))
    requires forall i: nat :: i < lo || hi < i <= |free| ==>
               Node(free, i) in mem && Node(free, i) in mem' && mem'[Node(free, i)] == mem[Node(free, i)]
    ensures Ring(mem', Splice(free, lo, hi, m))
  {
    var r := Splice(free, lo, hi, m);
    forall i: nat | i <= |r| ensures At(mem', r, i) {
      if i < lo {
        assert At(mem, free, i);
      } else if i > lo + 1 {
        assert At(mem, free, i - lo - 1 + hi);
      }
    }
  }

  function Remove(free: seq<Block>, k: nat): seq<Block>
    requires k < |free|
  {
    free[..k] + free[k + 1..]
  }

  lemma RemoveSorted(free: seq<Block>, k: nat)
    requires Sorted(free) && k < |free|
    ensures Sorted(Remove(free, k))
  {
  }

  lemma RemoveUnits(free: seq<Block>, k: nat, u: nat)
    requires Sorted(free) && k < |free|
    ensures InFree(Remove(free, k), u) <==> InFree(free, u) && !Within(free[k], u)
  {
    var r := Remove(free, k);
    if InFree(free, u) && !Within(free[k], u) {
      var i :| 0 <= i < |free| && Within(free[i], u);
      assert free[i] == r[if i < k then i else i - 1];
    }
    if InFree(r, u) {
      var i :| 0 <= i < |r| && Within(r[i], u);
      assert r[i] == free[if i < k then i else i + 1];
    }
  }

  lemma RemoveRing(mem: Memory, mem': Memory, free: seq<Block>, k: nat)
    requires Ring(mem, free) && k < |free|
    requires Node(free, k) in mem' && mem'[Node(free, k)] == Hdr(After(free, k + 1), SizeAt(free, k))
    requires forall i: nat :: i < k || k + 1 < i <= |free| ==>
               Node(free, i) in mem && Node(free, i) in mem' && mem'[Node(free, i)] == mem[Node(free, i)]
    ensures Ring(mem', Remove(free, k))
  {
    var r := Remove(free, k);
    forall i: nat | i <= |r| ensures At(mem', r, i) {
      if i < k {
        assert At(mem, free, i);
      } else if i > k {
        assert At(mem, free, i + 1);
      }
    }
  }

  /** A block gives up its last n units. */
  lemma ShrinkUnits(free: seq<Block>, k: nat, n: nat, u: nat)
    requires Sorted(free) && k < |free| && n < free[k].size
    ensures var b := free[k];
            InFree(Splice(free, k, k + 1, Block(b.addr, b.size - n)), u) <==>
            InFree(free, u) && !(b.addr + b.size - n <= u < b.addr + b.size)
  {
    var b := free[k];
    SpliceUnits(free, k, k + 1, Block(b.addr, b.size - n), u);
    if InFree(free, u) {
      var i :| 0 <= i < |free| && Within(free[i], u);
      assert i < k ==> InSome(free, 0, k, u);
      assert i > k ==> InSome(free, k + 1, |free|, u);
    }
    if InSome(free, 0, k, u) {
      var i :| 0 <= i < k && Within(free[i], u);
      assert free[i].addr + free[i].size < b.addr;
    }
    if InSome(free, k + 1, |free|, u) {
      var i :| k + 1 <= i < |free| && Within(free[i], u);
      assert b.addr + b.size < free[i].addr;
    }
  }
}
