/** What itrunc frees: the blocks of a subtree, and why each is freed once. */
module Trunc {
  import opened Blocks
  import opened InodeTree
  import opened Ownership

  /** The blocks at path p and below. */
  ghost function Sub(t: Tree, ino: nat, p: seq<nat>): (s: set<nat>)
    requires IsPath(p)
    decreases 1 + Level(p[0]) - |p|, NINDIRECT + 1
  {
    if At(t, ino, p) == 0 then {}
    else {At(t, ino, p) as nat} + if IsData(p) then {} else SubUpTo(t, ino, p, NINDIRECT)
  }

  /** The blocks below the first k entries of the index block at path p. */
  ghost function SubUpTo(t: Tree, ino: nat, p: seq<nat>, k: nat): (s: set<nat>)
    requires IsPath(p) && !IsData(p) && k <= NINDIRECT
    decreases 1 + Level(p[0]) - |p|, k
  {
    if k == 0 then {}
    else SubUpTo(t, ino, p, k - 1) + Sub(t, ino, p + [k - 1])
  }

  /** A block of the subtree is found at a path through p. */
  lemma {:induction false} InSub(t: Tree, ino: nat, p: seq<nat>, b: nat) returns (q: seq<nat>)
    requires IsPath(p) && b in Sub(t, ino, p)
    ensures IsPath(q) && p <= q && At(t, ino, q) == b && b != 0
    decreases 1 + Level(p[0]) - |p|, NINDIRECT + 1
  {
    if b == At(t, ino, p) {
      q := p;
    } else {
      q := InSubUpTo(t, ino, p, NINDIRECT, b);
    }
  }

  lemma {:induction false} InSubUpTo(t: Tree, ino: nat, p: seq<nat>, k: nat, b: nat) returns (q: seq<nat>)
    requires IsPath(p) && !IsData(p) && k <= NINDIRECT && b in SubUpTo(t, ino, p, k)
    ensures IsPath(q) && p < q && q[|p|] < k && At(t, ino, q) == b && b != 0
    decreases 1 + Level(p[0]) - |p|, k
  {
    if b in SubUpTo(t, ino, p, k - 1) {
      q := InSubUpTo(t, ino, p, k - 1, b);
    } else {
      q := InSub(t, ino, p + [k - 1], b);
      assert q[..|p| + 1] == p + [k - 1];
    }
  }

  /** Conversely every block found through p is in the subtree. */
  lemma {:induction false} ThroughSub(t: Tree, ino: nat, p: seq<nat>, q: seq<nat>)
    requires IsPath(p) && IsPath(q) && p <= q && At(t, ino, q) != 0
    ensures At(t, ino, q) in Sub(t, ino, p)
    decreases |q| - |p|, NINDIRECT + 1
  {
    AncestorPresent(t, ino, p, q);
    if |p| < |q| {
      var r := q[..|p| + 1];
      assert r == p + [q[|p|]] && IsPath(r);
      ThroughSub(t, ino, r, q);
      UpToHas(t, ino, p, NINDIRECT, q[|p|], At(t, ino, q));
    } else {
      assert p == q;
    }
  }

  lemma {:induction false} UpToHas(t: Tree, ino: nat, p: seq<nat>, k: nat, j: nat, b: nat)
    requires IsPath(p) && !IsData(p) && j < k <= NINDIRECT && IsPath(p + [j]) && b in Sub(t, ino, p + [j])
    ensures b in SubUpTo(t, ino, p, k)
  {
    if j < k - 1 {
      UpToHas(t, ino, p, k - 1, j, b);
    }
  }

  lemma {:induction false} AncestorPresent(t: Tree, ino: nat, p: seq<nat>, q: seq<nat>)
    requires IsPath(p) && IsPath(q) && p <= q && At(t, ino, q) != 0
    ensures At(t, ino, p) != 0
    decreases |q|
  {
    if |p| < |q| {
      AncestorPresent(t, ino, p, Parent(q));
    } else {
      assert p == q;
    }
  }

  /** The subtree of the next entry has no block of the entries before it. */
  lemma NextEntryApart(t: Tree, ino: nat, p: seq<nat>, k: nat)
    requires Injective(t) && IsPath(p) && !IsData(p) && k < NINDIRECT
    ensures IsPath(p + [k]) && Sub(t, ino, p + [k]) !! SubUpTo(t, ino, p, k)
  {
    forall b | b in Sub(t, ino, p + [k]) && b in SubUpTo(t, ino, p, k) ensures false {
      var q := InSub(t, ino, p + [k], b);
      assert q[|p|] == k;
      var r := InSubUpTo(t, ino, p, k, b);
    }
  }

  /** The index block itself is not below its own entries. */
  lemma IndexApart(t: Tree, ino: nat, p: seq<nat>)
    requires Injective(t) && IsPath(p) && !IsData(p)
    ensures At(t, ino, p) !in SubUpTo(t, ino, p, NINDIRECT)
  {
    if At(t, ino, p) in SubUpTo(t, ino, p, NINDIRECT) {
      var q := InSubUpTo(t, ino, p, NINDIRECT, At(t, ino, p));
    }
  }

  /** What freeing entry j adds, and that none of it was freed before. */
  lemma EntryFacts(t: Tree, ino: nat, p: seq<nat>, j: nat, freed: set<nat>)
    requires Injective(t) && IsPath(p) && !IsData(p) && j < NINDIRECT
    requires At(t, ino, p) != 0 && freed !! Sub(t, ino, p)
    ensures IsPath(p + [j]) && (IsData(p + [j]) <==> |p| == Level(p[0]))
    ensures Sub(t, ino, p + [j]) !! freed + SubUpTo(t, ino, p, j)
    ensures freed + SubUpTo(t, ino, p, j + 1) == freed + SubUpTo(t, ino, p, j) + Sub(t, ino, p + [j])
    ensures At(t, ino, p + [j]) == 0 ==> Sub(t, ino, p + [j]) == {}
    ensures At(t, ino, p + [j]) != 0 ==> At(t, ino, p + [j]) in Sub(t, ino, p + [j])
    ensures At(t, ino, p + [j]) != 0 && IsData(p + [j]) ==> Sub(t, ino, p + [j]) == {At(t, ino, p + [j]) as nat}
  {
    NextEntryApart(t, ino, p, j);
    forall b | b in Sub(t, ino, p + [j]) ensures b in Sub(t, ino, p) {
      UpToHas(t, ino, p, NINDIRECT, j, b);
    }
  }

  // ----- the state of a truncation under way -----

  /** The disk of t with the bits of the blocks in `freed` cleared. */
  ghost predicate Freeing(disk: seq<Block>, t: Tree, sb: Super, freed: set<nat>) {
    && |disk| == |t.disk|
    && (forall a :: sb.datastart <= a < |disk| ==> disk[a] == t.disk[a])
    && forall b :: 0 <= b < sb.size ==>
         BitBlock(sb, b) < |disk| && (Used(disk, sb, b) <==> Used(t.disk, sb, b) && b !in freed)
  }

  /** A reachable block not freed so far is still marked, so bfree does not panic. */
  lemma StillUsed(disk: seq<Block>, t: Tree, sb: Super, freed: set<nat>, ino: nat, p: seq<nat>)
    requires Owned(t, sb) && Freeing(disk, t, sb, freed)
    requires IsPath(p) && At(t, ino, p) != 0 && At(t, ino, p) !in freed
    ensures sb.datastart <= At(t, ino, p) < sb.size && BitBlock(sb, At(t, ino, p)) < |disk|
    ensures Used(disk, sb, At(t, ino, p))
  {
    assert Reached(t, At(t, ino, p));
  }

  lemma FreedOne(disk: seq<Block>, t: Tree, sb: Super, freed: set<nat>, b: nat)
    requires Owned(t, sb) && Freeing(disk, t, sb, freed) && b < sb.size
    ensures BitBlock(sb, b) < |disk| && Freeing(Mark(disk, sb, b, false), t, sb, freed + {b})
  {
    BitBlockBelow(sb, b);
    forall x | 0 <= x < sb.size
      ensures BitBlock(sb, x) < |disk|
      ensures Used(Mark(disk, sb, b, false), sb, x) <==> Used(t.disk, sb, x) && x !in freed + {b}
    {
      BitBlockBelow(sb, x);
      MarkUsed(disk, sb, b, false, x);
    }
  }

  // ----- the whole inode -----

  /** The blocks of the first k slots of ip->addrs. */
  ghost function SlotsUpTo(t: Tree, ino: nat, k: nat): (s: set<nat>)
    requires k <= NADDRS
  {
    if k == 0 then {} else SlotsUpTo(t, ino, k - 1) + Sub(t, ino, [k - 1])
  }

  lemma {:induction false} InSlots(t: Tree, ino: nat, k: nat, b: nat) returns (q: seq<nat>)
    requires k <= NADDRS && b in SlotsUpTo(t, ino, k)
    ensures IsPath(q) && q[0] < k && At(t, ino, q) == b && b != 0
  {
    if b in SlotsUpTo(t, ino, k - 1) {
      q := InSlots(t, ino, k - 1, b);
    } else {
      q := InSub(t, ino, [k - 1], b);
    }
  }

  lemma {:induction false} SlotsHave(t: Tree, ino: nat, k: nat, q: seq<nat>)
    requires k <= NADDRS && IsPath(q) && q[0] < k && At(t, ino, q) != 0
    ensures At(t, ino, q) in SlotsUpTo(t, ino, k)
  {
    if q[0] < k - 1 {
      SlotsHave(t, ino, k - 1, q);
    } else {
      ThroughSub(t, ino, [k - 1], q);
    }
  }

  lemma NextSlotApart(t: Tree, ino: nat, k: nat)
    requires Injective(t) && k < NADDRS
    ensures Sub(t, ino, [k]) !! SlotsUpTo(t, ino, k)
  {
    forall b | b in Sub(t, ino, [k]) && b in SlotsUpTo(t, ino, k) ensures false {
      var q := InSub(t, ino, [k], b);
      var r := InSlots(t, ino, k, b);
    }
  }

  /** What freeing slot k adds, and that none of it was freed before. */
  lemma SlotFacts(t: Tree, ino: nat, k: nat)
    requires Injective(t) && k < NADDRS
    ensures Sub(t, ino, [k]) !! SlotsUpTo(t, ino, k)
    ensures SlotsUpTo(t, ino, k + 1) == SlotsUpTo(t, ino, k) + Sub(t, ino, [k])
    ensures At(t, ino, [k]) == 0 ==> Sub(t, ino, [k]) == {}
    ensures At(t, ino, [k]) != 0 ==> At(t, ino, [k]) in Sub(t, ino, [k])
    ensures At(t, ino, [k]) != 0 && k < NDIRECT ==> Sub(t, ino, [k]) == {At(t, ino, [k]) as nat}
  {
    NextSlotApart(t, ino, k);
  }

  function ClearedUpTo(addrs: Addrs, k: nat): (r: Addrs)
    requires k <= NADDRS
    ensures forall i :: 0 <= i < NADDRS ==> r[i] == if i < k then 0 else addrs[i]
  {
    seq(NADDRS, i requires 0 <= i < NADDRS => if i < k then 0 else addrs[i])
  }

  /** The tree when every block of the inode has been freed and its addresses cleared. */
  ghost predicate Emptied(t: Tree, t': Tree, sb: Super, ino: nat) {
    && ino in t.addrs && Freeing(t'.disk, t, sb, SlotsUpTo(t, ino, NADDRS))
    && t'.addrs == t.addrs[ino := ClearedUpTo(t.addrs[ino], NADDRS)]
  }

  /** The emptied inode reaches nothing and every other inode is as before. */
  lemma {:induction false} EmptiedAt(t: Tree, t': Tree, sb: Super, ino: nat, i: nat, q: seq<nat>)
    requires Owned(t, sb) && Emptied(t, t', sb, ino) && IsPath(q)
    ensures At(t', i, q) == if i == ino then 0 else At(t, i, q)
    decreases |q|
  {
    if |q| > 1 {
      EmptiedAt(t, t', sb, ino, i, Parent(q));
      if i in t.addrs && i != ino {
        var a := At(t, i, Parent(q));
        assert IsPath(Parent(q));
        assert a != 0 ==> sb.datastart <= a < |t.disk|;
      }
    }
  }

  /** Truncation keeps the ownership invariant. */
  lemma EmptiedOwned(t: Tree, t': Tree, sb: Super, ino: nat)
    requires Owned(t, sb) && Emptied(t, t', sb, ino)
    ensures Owned(t', sb)
  {
    forall i, q | IsPath(q) ensures At(t', i, q) == if i == ino then 0 else At(t, i, q) {
      EmptiedAt(t, t', sb, ino, i, q);
    }
    var freed := SlotsUpTo(t, ino, NADDRS);
    forall b | 0 <= b < sb.size
      ensures BitBlock(sb, b) < sb.size && (Used(t'.disk, sb, b) <==> b < sb.datastart || Reached(t', b))
    {
      EmptiedReached(t, t', sb, ino, b);
      if b < sb.datastart && b in freed {
        var q := InSlots(t, ino, NADDRS, b);
        assert false;
      }
    }
  }

  lemma EmptiedReached(t: Tree, t': Tree, sb: Super, ino: nat, b: nat)
    requires Owned(t, sb)
    requires forall i, q :: IsPath(q) ==> At(t', i, q) == if i == ino then 0 else At(t, i, q)
    ensures Reached(t', b) <==> Reached(t, b) && b !in SlotsUpTo(t, ino, NADDRS)
  {
    hide At, SlotsUpTo;
    if Reached(t', b) {
      var i, q :| IsPath(q) && At(t', i, q) == b;
      assert At(t, i, q) == b;
      if b in SlotsUpTo(t, ino, NADDRS) {
        var r := InSlots(t, ino, NADDRS, b);
        assert false;
      }
    }
    if Reached(t, b) && b !in SlotsUpTo(t, ino, NADDRS) {
      var i, q :| IsPath(q) && At(t, i, q) == b;
      if i == ino {
        SlotsHave(t, ino, NADDRS, q);
        assert false;
      }
      assert At(t', i, q) == b;
    }
  }

  /** An index block in use is in place and holds what it did. */
  lemma TableThere(disk: seq<Block>, t: Tree, sb: Super, ino: nat, p: seq<nat>, freed: set<nat>)
    requires Owned(t, sb) && Freeing(disk, t, sb, freed) && IsPath(p) && !IsData(p) && At(t, ino, p) != 0
    ensures At(t, ino, p) < |disk| && At(t, ino, p) < |t.disk| && disk[At(t, ino, p)] == t.disk[At(t, ino, p)]
    ensures freed + SubUpTo(t, ino, p, 0) == freed
  {
  }

  lemma TableEntry(t: Tree, ino: nat, p: seq<nat>, j: nat)
    requires IsPath(p) && !IsData(p) && At(t, ino, p) != 0 && At(t, ino, p) < |t.disk| && j < NINDIRECT
    ensures IsPath(p + [j]) && At(t, ino, p + [j]) == t.disk[At(t, ino, p)][j]
  {
    assert Parent(p + [j]) == p;
  }
}
