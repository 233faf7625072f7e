/** The free-block bitmap, and the invariant that ties it to the inode trees:
    a bit is set exactly for the metadata blocks and for the blocks reachable
    from an inode, each of those at one position of one inode. */
module Ownership {
  import opened Blocks
  import opened Bytes
  import opened InodeTree

  const BPB := 8 * BSIZE

  /** The parts of the super block used here; data blocks start at `datastart`. */
  datatype Super = Super(size: nat, inodestart: nat, bmapstart: nat, datastart: nat)

  predicate SuperOk(sb: Super) {
    && 0 < sb.datastart <= sb.size < WORD_LIMIT
    && sb.bmapstart + (sb.size - 1) / BPB < sb.datastart
  }

  /** BBLOCK(b, sb) */
  function BitBlock(sb: Super, b: nat): nat { b / BPB + sb.bmapstart }

  predicate Used(disk: seq<Block>, sb: Super, b: nat)
    requires BitBlock(sb, b) < |disk|
  {
    BlockBit(disk[BitBlock(sb, b)], b % BPB)
  }

  /** Set or clear the bit of block b. */
  function Mark(disk: seq<Block>, sb: Super, b: nat, v: bool): (r: seq<Block>)
    requires BitBlock(sb, b) < |disk|
  {
    disk[BitBlock(sb, b) := PutBit(disk[BitBlock(sb, b)], b % BPB, v)]
  }

  /** Marking a block changes its own bit only. */
  lemma MarkUsed(disk: seq<Block>, sb: Super, b: nat, v: bool, x: nat)
    requires BitBlock(sb, b) < |disk| && BitBlock(sb, x) < |disk|
    ensures Used(Mark(disk, sb, b, v), sb, x) == if x == b then v else Used(disk, sb, x)
  {
    if BitBlock(sb, x) == BitBlock(sb, b) {
      assert x / BPB == b / BPB;
      assert x == b <==> x % BPB == b % BPB;
    }
  }

  lemma BitBlockBelow(sb: Super, b: nat)
    requires SuperOk(sb) && b < sb.size
    ensures BitBlock(sb, b) < sb.datastart
  {
  }

  ghost predicate Owned(t: Tree, sb: Super) {
    && SuperOk(sb) && |t.disk| == sb.size
    && Injective(t) && InRange(t, sb.datastart)
    && forall b :: 0 <= b < sb.size ==>
         BitBlock(sb, b) < sb.size && (Used(t.disk, sb, b) <==> b < sb.datastart || Reached(t, b))
  }

  /** balloc: mark the block and zero it. */
  function Allocated(disk: seq<Block>, sb: Super, b: nat): (r: seq<Block>)
    requires BitBlock(sb, b) < |disk| && b < |disk|
  {
    Mark(disk, sb, b, true)[b := ZeroBlock()]
  }

  /** A free block is a data block no inode reaches. */
  lemma FreeIsUnreached(t: Tree, sb: Super, b: nat)
    requires Owned(t, sb) && b < sb.size && !Used(t.disk, sb, b)
    ensures sb.datastart <= b && Unreached(t, b)
  {
    forall i, p | IsPath(p) ensures At(t, i, p) != b {
      if At(t, i, p) == b {
        assert Reached(t, b);
      }
    }
  }

  /** Allocation marks the block and no other. */
  lemma AllocatedUsed(disk: seq<Block>, sb: Super, b: nat, x: nat)
    requires SuperOk(sb) && |disk| == sb.size && sb.datastart <= b < sb.size && x < sb.size
    ensures BitBlock(sb, b) < sb.size && BitBlock(sb, x) < sb.size
    ensures Used(Allocated(disk, sb, b), sb, x) == (x == b || Used(disk, sb, x))
  {
    BitBlockBelow(sb, b);
    BitBlockBelow(sb, x);
    MarkUsed(disk, sb, b, true, x);
  }

  /** Hooking a freshly allocated block into an inode keeps the ownership invariant. */
  lemma AttachOwned(t: Tree, t': Tree, sb: Super, ino: nat, p: seq<nat>, b: word)
    requires Owned(t, sb) && b < sb.size && !Used(t.disk, sb, b) && IsPath(p) && At(t, ino, p) == 0
    requires Grown(t, t', sb.datastart, ino, p, b)
    requires forall a :: 0 <= a < sb.datastart ==> t'.disk[a] == Allocated(t.disk, sb, b)[a]
    ensures Owned(t', sb) && Extends(t, t', ino, p) && At(t', ino, p) == b
  {
    FreeIsUnreached(t, sb, b);
    GrownInvariant(t, t', sb.datastart, ino, p, b);
    forall x | 0 <= x < sb.size
      ensures BitBlock(sb, x) < sb.size && (Used(t'.disk, sb, x) <==> x < sb.datastart || Reached(t', x))
    {
      BitBlockBelow(sb, x);
      AllocatedUsed(t.disk, sb, b, x);
    }
  }

  /** The tree after `ip->addrs[slot] = balloc()`. */
  function WithSlot(t: Tree, sb: Super, ino: nat, slot: nat, b: word): (r: Tree)
    requires BitBlock(sb, b) < |t.disk| && b < |t.disk| && ino in t.addrs && slot < NADDRS
  {
    Tree(Allocated(t.disk, sb, b), t.addrs[ino := t.addrs[ino][slot := b]])
  }

  lemma AttachSlot(t: Tree, sb: Super, ino: nat, slot: nat, b: word)
    requires Owned(t, sb) && b < sb.size && !Used(t.disk, sb, b)
    requires ino in t.addrs && slot < NADDRS && t.addrs[ino][slot] == 0
    ensures var t' := WithSlot(t, sb, ino, slot, b);
            sb.datastart <= b && Owned(t', sb) && Extends(t, t', ino, [slot]) && At(t', ino, [slot]) == b
  {
    FreeIsUnreached(t, sb, b);
    BitBlockBelow(sb, b);
    var t' := WithSlot(t, sb, ino, slot, b);
    assert At(t, ino, [slot]) == 0;
    assert Grown(t, t', sb.datastart, ino, [slot], b);
    AttachOwned(t, t', sb, ino, [slot], b);
  }

  /** The tree after `a[k] = balloc(); log_write(bp)` on the index block at `a0`. */
  function WithChild(t: Tree, sb: Super, a0: nat, k: nat, b: word): (r: Tree)
    requires BitBlock(sb, b) < |t.disk| && b < |t.disk| && a0 < |t.disk| && k < NINDIRECT
  {
    Tree(Allocated(t.disk, sb, b)[a0 := t.disk[a0][k := b]], t.addrs)
  }

  lemma AttachChild(t: Tree, sb: Super, ino: nat, p: seq<nat>, k: nat, b: word)
    requires Owned(t, sb) && b < sb.size && !Used(t.disk, sb, b)
    requires IsPath(p) && IsPath(p + [k]) && At(t, ino, p) != 0 && At(t, ino, p + [k]) == 0
    ensures At(t, ino, p) < sb.size
    ensures var t' := WithChild(t, sb, At(t, ino, p), k, b);
            sb.datastart <= b && Owned(t', sb) && Extends(t, t', ino, p + [k]) && At(t', ino, p + [k]) == b
  {
    FreeIsUnreached(t, sb, b);
    BitBlockBelow(sb, b);
    var a0 := At(t, ino, p);
    assert sb.datastart <= a0 < sb.size;
    var t' := WithChild(t, sb, a0, k, b);
    var q := p + [k];
    assert Parent(q) == p && Last(q) == k;
    assert ino in t.addrs by { AtPresent(t, ino, p); }
    assert Grown(t, t', sb.datastart, ino, q, b);
    AttachOwned(t, t', sb, ino, q, b);
  }

  lemma AtPresent(t: Tree, ino: nat, p: seq<nat>)
    requires IsPath(p) && At(t, ino, p) != 0
    ensures ino in t.addrs
  {
  }
}
