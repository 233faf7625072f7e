/** tools/mkfs.c: building the initial image. iappend is a second implementation
    of the block-tree walk; here it is proved against the kernel's own definitions
    of position (InodeTree.At), file contents (FileData.Content) and block
    ownership (Ownership.Owned). */
module Mkfs {
  import opened Options
  import opened Blocks
  import opened Bytes
  import opened InodeTree
  import opened Ownership
  import opened FileData
  import opened Fs
  import Dinodes

  /** Blocks are handed out in order: those from lo up to free are reached, each
      once, and those from free on are still zero. */
  ghost predicate Built(t: Tree, lo: nat, free: nat) {
    && 0 < lo <= free <= |t.disk| < WORD_LIMIT
    && Injective(t) && InRange(t, lo)
    && (forall b :: lo <= b < |t.disk| ==> (Reached(t, b) <==> b < free))
    && (forall b :: free <= b < |t.disk| ==> t.disk[b] == ZeroBlock())
  }

  lemma FreeIsFresh(t: Tree, lo: nat, free: nat)
    requires Built(t, lo, free) && free < |t.disk|
    ensures Unreached(t, free)
  {
    forall i, p | IsPath(p) ensures At(t, i, p) != free {
      if At(t, i, p) == free {
        assert Reached(t, free);
      }
    }
  }

  /** Hooking in the next block in order. */
  lemma BuiltGrows(t: Tree, t': Tree, lo: nat, ino: nat, p: seq<nat>, b: word)
    requires Built(t, lo, b) && b < |t.disk| && IsPath(p) && At(t, ino, p) == 0
    requires Grown(t, t', lo, ino, p, b)
    ensures Built(t', lo, b + 1) && Extends(t, t', ino, p) && At(t', ino, p) == b
  {
    FreeIsFresh(t, lo, b);
    GrownInvariant(t, t', lo, ino, p, b);
    forall x | b + 1 <= x < |t'.disk| ensures t'.disk[x] == ZeroBlock() {
      if |p| > 1 {
        assert IsPath(Parent(p));
        assert Reached(t, At(t, ino, Parent(p)));
      }
    }
  }

  /** The tree after `din.addrs[slot] = freeblock++`. */
  function SlotTree(t: Tree, ino: nat, slot: nat, b: word): (r: Tree)
    requires ino in t.addrs && slot < NADDRS
  {
    Tree(t.disk, t.addrs[ino := t.addrs[ino][slot := b]])
  }

  lemma GrowSlot(t: Tree, lo: nat, ino: nat, slot: nat, b: word)
    requires Built(t, lo, b) && b < |t.disk| && ino in t.addrs && slot < NADDRS && t.addrs[ino][slot] == 0
    ensures var t' := SlotTree(t, ino, slot, b);
            Built(t', lo, b + 1) && Extends(t, t', ino, [slot]) && At(t', ino, [slot]) == b
  {
    var t' := SlotTree(t, ino, slot, b);
    assert At(t, ino, [slot]) == 0;
    assert Grown(t, t', lo, ino, [slot], b);
    BuiltGrows(t, t', lo, ino, [slot], b);
  }

  /** The tree after `lbuf[k] = freeblock++; wsect(a0, lbuf)`. */
  function EntryTree(t: Tree, a0: nat, k: nat, b: word): (r: Tree)
    requires a0 < |t.disk| && k < NINDIRECT
  {
    Tree(t.disk[a0 := t.disk[a0][k := b]], t.addrs)
  }

  lemma GrowEntry(t: Tree, lo: nat, ino: nat, p: seq<nat>, k: nat, b: word)
    requires Built(t, lo, b) && b < |t.disk|
    requires IsPath(p) && IsPath(p + [k]) && At(t, ino, p) != 0 && At(t, ino, p + [k]) == 0
    ensures At(t, ino, p) < |t.disk|
    ensures var t' := EntryTree(t, At(t, ino, p), k, b);
            Built(t', lo, b + 1) && Extends(t, t', ino, p + [k]) && At(t', ino, p + [k]) == b
  {
    FreeIsFresh(t, lo, b);
    var a0 := At(t, ino, p);
    var t' := EntryTree(t, a0, k, b);
    var q := p + [k];
    assert Parent(q) == p && Last(q) == k;
    AtPresent(t, ino, p);
    assert Grown(t, t', lo, ino, q, b);
    BuiltGrows(t, t', lo, ino, q, b);
  }

  lemma BuiltWithData(t: Tree, lo: nat, free: nat, ino: nat, q: seq<nat>, b: Block)
    requires Built(t, lo, free) && IsData(q) && At(t, ino, q) != 0
    ensures Built(WithData(t, At(t, ino, q), b), lo, free)
  {
    var a := At(t, ino, q);
    var t' := WithData(t, a, b);
    assert Reached(t, a);
    forall i, p | IsPath(p) ensures At(t', i, p) == At(t, i, p) {
      WithDataAt(t, ino, q, b, i, p);
    }
    hide At;
    forall x | lo <= x < |t'.disk| ensures Reached(t', x) <==> x < free {
      SameReached(t, t', x);
    }
  }

  lemma LowKeptItself(a: seq<Block>, lo: nat)
    ensures LowKept(a, a, lo)
  {
  }

  lemma LowKeptTrans(a: seq<Block>, b: seq<Block>, c: seq<Block>, lo: nat)
    requires LowKept(a, b, lo) && LowKept(b, c, lo)
    ensures LowKept(a, c, lo)
  {
  }

  /** What is left of the block at `off` ends inside the largest file. */
  lemma RestFits(off: nat)
    requires off / BSIZE < MAXFILE
    ensures 0 < (off / BSIZE + 1) * BSIZE - off && (off / BSIZE + 1) * BSIZE <= MAXBYTES
    ensures off % BSIZE + ((off / BSIZE + 1) * BSIZE - off) == BSIZE
  {
  }

  /** The bytes of `src` follow the first `size` of the file, without a hole, and no other file has changed. */
  ghost predicate Appended(t: Tree, t': Tree, inum: nat, size: nat, src: seq<byte>) {
    size + |src| <= MAXBYTES && Spliced(t, t', inum, size, src) && HoleFree(t', inum, size + |src|) && Kept(t, t')
  }

  lemma AppendStarts(t: Tree, inum: nat, size: nat, chunk: seq<byte>, bytes: seq<byte>)
    requires HoldsFile(t, inum, size, bytes)
    ensures Appended(t, t, inum, size, chunk[..0])
  {
    NothingWritten(t, inum, size, chunk);
  }

  /** After the last piece the appended file holds the longer string and the others what they held. */
  lemma AppendHolds(t0: Tree, t: Tree, dinodes: map<nat, Inode>, files: map<nat, seq<byte>>, inum: nat, chunk: seq<byte>, din: Inode)
    requires Holds(t0, dinodes, files) && inum in dinodes && Appended(t0, t, inum, dinodes[inum].size, chunk)
    requires din.size == dinodes[inum].size + |chunk|
    ensures Holds(t, dinodes[inum := din], files[inum := files[inum] + chunk])
  {
    var size := dinodes[inum].size;
    assert HoldsFile(t0, inum, size, files[inum]);
    SplicedContent(t0, t, inum, size, chunk, size);
    assert Content(t, inum, size + |chunk|) == files[inum] + chunk;
    hide Spliced, At, PathOf;
    forall i | i in files && i != inum ensures HoldsFile(t, i, dinodes[i].size, files[i]) {
      assert HoldsFile(t0, i, dinodes[i].size, files[i]);
    }
  }

  lemma PieceAppended(lo: nat, free: nat, t0: Tree, t1: Tree, t2: Tree, t3: Tree, inum: nat, off: nat,
                      chunk: seq<byte>, tot: nat, n1: nat, x: word, size: nat)
    requires 0 < n1 && tot + n1 <= |chunk| && off == size + tot && off % BSIZE + n1 <= BSIZE && off + n1 <= MAXBYTES
    requires Appended(t0, t1, inum, size, chunk[..tot]) && InRange(t1, 0)
    requires Located(lo, t1, t2, inum, PathOf(BlockNumber(off)), free, x)
    requires t3 == WithData(t2, x, PutBytes(t2.disk[x], off % BSIZE, chunk[tot..tot + n1]))
    ensures Built(t3, lo, free) && Appended(t0, t3, inum, size, chunk[..tot + n1])
  {
    var bn := BlockNumber(off);
    BuiltWithData(t2, lo, free, inum, PathOf(bn), PutBytes(t2.disk[x], off % BSIZE, chunk[tot..tot + n1]));
    OverwrittenBytes(t1, t2, t3, inum, bn, off % BSIZE, chunk[tot..tot + n1], x);
    BlockSplit(off, n1);
    hide At, PathOf, Extends, Spliced, Kept, HoleFree, Built;
    SplicedStep(t0, t1, t3, inum, size, chunk, tot, n1);
    HoleFreeStep(t0, t1, t3, inum, off, off, n1);
  }

  /** The sectors below the data region are as before. */
  ghost predicate LowKept(a: seq<Block>, b: seq<Block>, lo: nat) {
    |a| == |b| && forall k :: 0 <= k < lo && k < |a| ==> a[k] == b[k]
  }

  /** The block at path p, with blocks handed out in order for what was missing along p. */
  ghost predicate Located(lo: nat, t: Tree, t': Tree, ino: nat, p: seq<nat>, free: nat, x: word) {
    IsPath(p) && Built(t', lo, free) && Extends(t, t', ino, p) && x == At(t', ino, p) && 0 < x < |t'.disk|
  }

  /** Every inode's blocks hold exactly the bytes appended to it, without holes. */
  ghost predicate Holds(t: Tree, dinodes: map<nat, Inode>, files: map<nat, seq<byte>>) {
    && files.Keys == dinodes.Keys
    && forall i :: i in files ==> HoldsFile(t, i, dinodes[i].size, files[i])
  }

  ghost predicate HoldsFile(t: Tree, i: nat, size: nat, bytes: seq<byte>) {
    size <= MAXBYTES && Content(t, i, size) == bytes && HoleFree(t, i, size)
  }

  lemma NothingReached(t: Tree)
    requires t.addrs == map[]
    ensures Injective(t) && forall lo :: InRange(t, lo)
    ensures forall b :: !Reached(t, b)
  {
    forall i, p | IsPath(p) ensures At(t, i, p) == 0 {
    }
  }

  /** A new inode without blocks changes nothing for the others. */
  lemma EmptyInode(t: Tree, lo: nat, free: nat, inum: nat)
    requires Built(t, lo, free) && inum !in t.addrs
    ensures var t' := Tree(t.disk, t.addrs[inum := NoAddrs()]);
            Built(t', lo, free) && forall i, p :: IsPath(p) ==> At(t', i, p) == At(t, i, p)
  {
    var t' := Tree(t.disk, t.addrs[inum := NoAddrs()]);
    forall i, p | IsPath(p) ensures At(t', i, p) == At(t, i, p) {
      EmptyInodeAt(t, inum, i, p);
    }
    hide At;
    forall b | lo <= b < |t.disk| ensures Reached(t', b) <==> b < free {
      SameReached(t, t', b);
    }
  }

  lemma {:induction false} EmptyInodeAt(t: Tree, inum: nat, i: nat, p: seq<nat>)
    requires inum !in t.addrs && IsPath(p)
    ensures At(Tree(t.disk, t.addrs[inum := NoAddrs()]), i, p) == At(t, i, p)
    decreases |p|
  {
    if |p| > 1 {
      EmptyInodeAt(t, inum, i, Parent(p));
    }
  }

  lemma HoldsEmpty(t: Tree, dinodes: map<nat, Inode>, files: map<nat, seq<byte>>, inum: nat, din: Inode)
    requires Holds(t, dinodes, files) && inum !in t.addrs && inum !in dinodes && din.size == 0
    requires forall i, p :: IsPath(p) ==> At(Tree(t.disk, t.addrs[inum := NoAddrs()]), i, p) == At(t, i, p)
    ensures Holds(Tree(t.disk, t.addrs[inum := NoAddrs()]), dinodes[inum := din], files[inum := []])
  {
    var t' := Tree(t.disk, t.addrs[inum := NoAddrs()]);
    var dinodes', files' := dinodes[inum := din], files[inum := []];
    hide At, PathOf, GetByte;
    forall i | i in files' ensures HoldsFile(t', i, dinodes'[i].size, files'[i]) {
      if i != inum {
        assert HoldsFile(t, i, dinodes[i].size, files[i]);
        assert Content(t', i, dinodes[i].size) == Content(t, i, dinodes[i].size);
      } else {
        assert Content(t', i, 0) == [];
      }
    }
  }

  lemma ZeroBits(j: nat)
    requires j < BPB
    ensures !BlockBit(ZeroBlock(), j)
  {
    ZeroBytes(j / 8);
    ZeroHasNoBits(j % 8);
  }

  lemma {:induction false} ZeroHasNoBits(i: nat)
    ensures !TestBit(0, i)
  {
    if i > 0 {
      ZeroHasNoBits(i - 1);
    }
  }

  /** Positions depend on the data region only. */
  lemma {:induction false} LowWriteAt(t: Tree, t': Tree, lo: nat, i: nat, p: seq<nat>)
    requires InRange(t, lo) && t'.addrs == t.addrs && |t'.disk| == |t.disk| && IsPath(p)
    requires forall a :: lo <= a < |t.disk| ==> t'.disk[a] == t.disk[a]
    ensures At(t', i, p) == At(t, i, p)
    decreases |p|
  {
    if |p| > 1 && i in t.addrs {
      LowWriteAt(t, t', lo, i, Parent(p));
      assert IsPath(Parent(p));
    }
  }

  /** A bitmap with one bit per block handed out is the kernel's ownership invariant. */
  lemma BitmapWritten(t: Tree, t': Tree, sb: Super, free: nat, buf: Block)
    requires SuperOk(sb) && |t.disk| == sb.size && Built(t, sb.datastart, free) && free < BPB
    requires forall a :: sb.bmapstart <= a < sb.datastart ==> t.disk[a] == ZeroBlock()
    requires t' == Tree(t.disk[sb.bmapstart := buf], t.addrs)
    requires forall j :: 0 <= j < BPB ==> (BlockBit(buf, j) <==> j < free)
    ensures Owned(t', sb)
  {
    forall i, p | IsPath(p) ensures At(t', i, p) == At(t, i, p) {
      LowWriteAt(t, t', sb.datastart, i, p);
    }
    hide At;
    forall b | 0 <= b < sb.size
      ensures BitBlock(sb, b) < sb.size && (Used(t'.disk, sb, b) <==> b < sb.datastart || Reached(t', b))
    {
      BitBlockBelow(sb, b);
      SameReached(t, t', b);
      BitOf(sb, b);
      if BitBlock(sb, b) != sb.bmapstart {
        ZeroBits(b % BPB);
      }
    }
  }

  lemma BitOf(sb: Super, b: nat)
    ensures BitBlock(sb, b) == sb.bmapstart ==> b % BPB == b
    ensures BitBlock(sb, b) != sb.bmapstart ==> b >= BPB
  {
  }

  lemma BitmapKeepsFiles(t: Tree, t': Tree, lo: nat, dinodes: map<nat, Inode>, files: map<nat, seq<byte>>)
    requires InRange(t, lo) && t'.addrs == t.addrs && |t'.disk| == |t.disk| && Holds(t, dinodes, files)
    requires forall a :: lo <= a < |t.disk| ==> t'.disk[a] == t.disk[a]
    ensures Holds(t', dinodes, files)
  {
    forall i, p | IsPath(p) ensures At(t', i, p) == At(t, i, p) {
      LowWriteAt(t, t', lo, i, p);
    }
    hide At, PathOf, GetByte;
    forall i | i in files ensures HoldsFile(t', i, dinodes[i].size, files[i]) {
      assert HoldsFile(t, i, dinodes[i].size, files[i]);
      assert Content(t', i, dinodes[i].size) == Content(t, i, dinodes[i].size);
    }
  }

  // ----- the super block -----

  const NINODES := 200
  const NLOG := 60

  /** struct superblock, but for the times. */
  datatype SuperBlock = SuperBlock(size: word, nblocks: word, ninodes: word, nlog: word, logstart: word, inodestart: word, bmapstart: word)

  function SuperWords(s: SuperBlock): (b: Block) {
    [s.size, s.nblocks, s.ninodes, s.nlog, s.logstart, s.inodestart, s.bmapstart] + seq(WORDS - 7, _ => 0)
  }

  /** readsb */
  function ReadSuper(b: Block): (s: SuperBlock)
  {
    SuperBlock(b[0], b[1], b[2], b[3], b[4], b[5], b[6])
  }

  lemma SuperReadBack(s: SuperBlock)
    ensures ReadSuper(SuperWords(s)) == s
  {
  }

  /** The number of blocks before the data. */
  function Meta(size: nat): nat { 2 + NLOG + (NINODES / Dinodes.IPB + 1) + (size / BPB + 1) }

  /** main's layout of a device of that many blocks. */
  function Plan(size: word): (s: SuperBlock)
    requires Meta(size) <= size
  {
    SuperBlock(size, size - Meta(size), NINODES, NLOG, 2, 2 + NLOG, 2 + NLOG + (NINODES / Dinodes.IPB + 1))
  }

  /** What the kernel uses of it. */
  function Areas(s: SuperBlock): Super
    requires s.nblocks <= s.size
  {
    Super(s.size, s.inodestart, s.bmapstart, s.size - s.nblocks)
  }

  /** The areas follow each other: log, inodes, bitmap, data, and the bitmap has a bit
      for every block. */
  lemma PlanOk(size: word)
    requires Meta(size) <= size
    ensures var s := Plan(size); var sb := Areas(s);
            && SuperOk(sb) && sb.datastart == Meta(size) && 1 < s.logstart && s.logstart + s.nlog == s.inodestart
            && Dinodes.BlockOf(s.inodestart, s.ninodes - 1) < s.bmapstart && BitBlock(sb, size - 1) < sb.datastart
  {
  }

  /** Block 1 describes the image. */
  ghost predicate Described(sb: Super, s: SuperBlock, disk: seq<Block>) {
    s.nblocks <= s.size && sb == Areas(s) && 1 < s.bmapstart && 1 < sb.datastart && 1 < |disk| && disk[1] == SuperWords(s)
  }

  class Image {
    const sb: Super
    const super: SuperBlock
    var disk: seq<Block>
    var dinodes: map<nat, Inode>
    var freeinode: nat
    var freeblock: word
    ghost var files: map<nat, seq<byte>>    // what has been appended to each inode

    ghost function Tree(): Tree
      reads this
    {
      InodeTree.Tree(disk, map i | i in dinodes :: dinodes[i].addrs)
    }

    ghost predicate Valid()
      reads this
    {
      && SuperOk(sb) && |disk| == sb.size
      && Built(Tree(), sb.datastart, freeblock)
      && Described(sb, super, disk) && (forall a :: sb.bmapstart <= a < sb.datastart ==> disk[a] == ZeroBlock())
      && (forall i :: i in dinodes ==> i < freeinode)
      && Holds(Tree(), dinodes, files)
    }

    /** main: an image of zero sectors but for the super block, with nothing allocated. */
    constructor (size: word)
      requires Meta(size) <= size
      ensures Valid() && super == Plan(size) && sb == Areas(super) && dinodes == map[] && files == map[] && freeblock == Meta(size)
    {
      super := Plan(size);
      sb := Areas(Plan(size));
      disk := seq<Block>(size, _ => ZeroBlock())[1 := SuperWords(Plan(size))];
      dinodes := map[];
      freeinode := 1;
      freeblock := Meta(size);
      files := map[];
      new;
      PlanOk(size);
      NothingReached(Tree());
    }

    /** ialloc: the next inode number, with an empty file. */
    method Ialloc(kind: nat) returns (inum: nat)
      requires Valid()
      modifies this
      ensures Valid() && inum == old(freeinode) && inum !in old(dinodes)
      ensures dinodes == old(dinodes)[inum := Inode(kind, 1, 0, NoAddrs())]
      ensures files == old(files)[inum := []] && disk == old(disk) && freeblock == old(freeblock)
    {
      ghost var t := Tree();
      inum := freeinode;
      freeinode := freeinode + 1;
      dinodes := dinodes[inum := Inode(kind, 1, 0, NoAddrs())];
      files := files[inum := []];
      assert Tree() == InodeTree.Tree(t.disk, t.addrs[inum := NoAddrs()]);
      EmptyInode(t, sb.datastart, freeblock, inum);
      HoldsEmpty(t, old(dinodes), old(files), inum, dinodes[inum]);
    }

    /** The image with iappend's local copy of an inode's addresses. */
    ghost function LocalTree(inum: nat, addrs: Addrs): Tree
      reads this
    {
      InodeTree.Tree(disk, Tree().addrs[inum := addrs])
    }

    /** The address in a slot of din.addrs, or the next free block. */
    method LocateSlot(inum: nat, addrs: Addrs, slot: nat) returns (ok: bool, addrs': Addrs, x: word)
      requires Built(LocalTree(inum, addrs), sb.datastart, freeblock) && slot < NADDRS
      modifies this`freeblock
      ensures ok ==> Located(sb.datastart, LocalTree(inum, addrs), LocalTree(inum, addrs'), inum, [slot], freeblock, x)
      ensures !ok ==> freeblock == |disk|
    {
      ghost var t := LocalTree(inum, addrs);
      addrs' := addrs;
      x := addrs[slot];
      assert x == At(t, inum, [slot]);
      if x == 0 {
        if freeblock == |disk| { return false, addrs', 0; }
        GrowSlot(t, sb.datastart, inum, slot, freeblock);
        addrs' := addrs[slot := freeblock];
        assert LocalTree(inum, addrs') == SlotTree(t, inum, slot, freeblock);
        x := freeblock;
        freeblock := freeblock + 1;
      } else {
        ExtendsItself(t, inum, [slot]);
      }
      ok := true;
    }

    /** Entry k of the index block `a0`, or the next free block. */
    method LocateEntry(inum: nat, addrs: Addrs, a0: word, k: nat, ghost p: seq<nat>, ghost t0: Tree) returns (ok: bool, x: word)
      requires IsPath(p + [k]) && Located(sb.datastart, t0, LocalTree(inum, addrs), inum, p, freeblock, a0)
      modifies this`freeblock, this`disk
      ensures ok ==> Located(sb.datastart, t0, LocalTree(inum, addrs), inum, p + [k], freeblock, x)
      ensures LowKept(old(disk), disk, sb.datastart)
      ensures !ok ==> freeblock == |disk|
    {
      ghost var t := LocalTree(inum, addrs);
      ghost var q := p + [k];
      assert q[|p|] == k;
      var lbuf := disk[a0];
      x := lbuf[k];
      assert Parent(q) == p && Last(q) == k && x == At(t, inum, q) && sb.datastart <= a0;
      if x == 0 {
        if freeblock == |disk| { return false, 0; }
        GrowEntry(t, sb.datastart, inum, p, k, freeblock);
        disk := disk[a0 := lbuf[k := freeblock]];
        assert LocalTree(inum, addrs) == EntryTree(t, a0, k, freeblock);
        x := freeblock;
        freeblock := freeblock + 1;
      } else {
        assert 0 < x < |disk|;
        ExtendsItself(t, inum, q);
      }
      hide At, Built;
      ExtendsTrans(t0, t, LocalTree(inum, addrs), inum, p, q);
      ok := true;
    }

    /** One more level down the path. */
    method LocateNext(inum: nat, addrs: Addrs, a0: word, path: seq<nat>, k: nat, ghost t0: Tree, ghost disk0: seq<Block>) returns (ok: bool, x: word)
      requires 1 <= k < |path| && Prefixed(path) && LowKept(disk0, disk, sb.datastart)
      requires Located(sb.datastart, t0, LocalTree(inum, addrs), inum, path[..k], freeblock, a0)
      modifies this`freeblock, this`disk
      ensures ok ==> Located(sb.datastart, t0, LocalTree(inum, addrs), inum, path[..k + 1], freeblock, x)
      ensures LowKept(disk0, disk, sb.datastart)
      ensures !ok ==> freeblock == |disk|
    {
      assert path[..k + 1] == path[..k] + [path[k]] && IsPath(path[..k + 1]);
      hide Located, At, Built, IsPath, Level, LowKept, LocalTree, Prefixed;
      ghost var before := disk;
      ok, x := LocateEntry(inum, addrs, a0, path[k], path[..k], t0);
      LowKeptTrans(disk0, before, disk, sb.datastart);
    }

    /** iappend's walk to block fbn, branch by branch as the kernel's bmap has it. */
    method Locate(inum: nat, addrs: Addrs, fbn: nat) returns (ok: bool, addrs': Addrs, x: word)
      requires Built(LocalTree(inum, addrs), sb.datastart, freeblock) && fbn < MAXFILE
      modifies this`freeblock, this`disk
      ensures LowKept(old(disk), disk, sb.datastart)
      ensures ok ==>
                Located(sb.datastart, old(LocalTree(inum, addrs)), LocalTree(inum, addrs'), inum, PathOf(fbn), freeblock, x)
      ensures !ok ==> freeblock == |disk|
    {
      var path: seq<nat>;
      if fbn < NDIRECT {
        path := [fbn];
      } else if fbn < NDIRECT + NINDIRECT {
        path := [NDIRECT, fbn - NDIRECT];
      } else if fbn < NDIRECT + NINDIRECT + NDINDIRECT {
        var rel := fbn - (NDIRECT + NINDIRECT);
        path := [NDIRECT + 1, rel / NINDIRECT, rel % NINDIRECT];
      } else {
        var rel := fbn - (NDIRECT + NINDIRECT + NDINDIRECT);
        path := [NDIRECT + 2, rel / NDINDIRECT, (rel % NDINDIRECT) / NINDIRECT, (rel % NDINDIRECT) % NINDIRECT];
      }
      assert path == PathOf(fbn);
      hide PathOf, Located, At, Built;
      ok, addrs', x := LocatePath(inum, addrs, path);
    }

    method LocatePath(inum: nat, addrs: Addrs, path: seq<nat>) returns (ok: bool, addrs': Addrs, x: word)
      requires Built(LocalTree(inum, addrs), sb.datastart, freeblock) && IsPath(path)
      modifies this`freeblock, this`disk
      ensures LowKept(old(disk), disk, sb.datastart)
      ensures ok ==> Located(sb.datastart, old(LocalTree(inum, addrs)), LocalTree(inum, addrs'), inum, path, freeblock, x)
      ensures !ok ==> freeblock == |disk|
    {
      hide Located, At, Built, IsPath, Level, LowKept, Prefixed;
      ghost var t0 := LocalTree(inum, addrs);
      PathPrefixed(path);
      ghost var disk0 := disk;
      ok, addrs', x := LocateSlot(inum, addrs, path[0]);
      LowKeptItself(disk, sb.datastart);
      var k := 1;
      while ok && k < |path|
        invariant 1 <= k <= |path|
        invariant ok ==> Located(sb.datastart, t0, LocalTree(inum, addrs'), inum, path[..k], freeblock, x)
        invariant LowKept(disk0, disk, sb.datastart)
        invariant !ok ==> freeblock == |disk|
        decreases ok, |path| - k
      {
        ok, x := LocateNext(inum, addrs', x, path, k, t0, disk0);
        k := k + 1;
      }
    }

    /** iappend: the bytes go to the end of the inode's file, and to no other file.
        A false result is the exit for a file that is too large, or an image
        without a free block left, which balloc's assertion rejects. */
    method Iappend(inum: nat, chunk: seq<byte>) returns (ok: bool)
      requires Valid() && inum in dinodes
      modifies this`disk, this`dinodes, this`freeblock, this`files
      ensures ok ==> Valid() && files == old(files)[inum := old(files)[inum] + chunk]
      ensures ok ==> dinodes.Keys == old(dinodes).Keys
      ensures !ok ==> freeblock == |disk| || |old(files)[inum]| + |chunk| > MAXBYTES
    {
      ghost var t0 := Tree();
      var addrs, size := dinodes[inum].addrs, dinodes[inum].size;
      assert LocalTree(inum, addrs) == t0;
      AppendStarts(t0, inum, size, chunk, files[inum]);
      hide At, Built, Appended, HoldsFile;
      ok, addrs := AppendLoop(inum, addrs, size, chunk, t0);
      if !ok { return false; }
      ghost var t := LocalTree(inum, addrs);
      dinodes := dinodes[inum := dinodes[inum].(size := size + |chunk|, addrs := addrs)];
      assert Tree() == t;
      AppendHolds(t0, t, old(dinodes), files, inum, chunk, dinodes[inum]);
      files := files[inum := files[inum] + chunk];
    }

    /** Its loop, on a copy of the inode's addresses. */
    method AppendLoop(inum: nat, addrs: Addrs, size: nat, chunk: seq<byte>, ghost t0: Tree) returns (ok: bool, addrs': Addrs)
      requires Built(LocalTree(inum, addrs), sb.datastart, freeblock)
      requires Appended(t0, LocalTree(inum, addrs), inum, size, chunk[..0])
      modifies this`disk, this`freeblock
      ensures LowKept(old(disk), disk, sb.datastart)
      ensures ok ==> Built(LocalTree(inum, addrs'), sb.datastart, freeblock)
      ensures ok ==> Appended(t0, LocalTree(inum, addrs'), inum, size, chunk) && size + |chunk| <= MAXBYTES
      ensures !ok ==> freeblock == |disk| || size + |chunk| > MAXBYTES
    {
      assert size <= MAXBYTES;
      hide At, Built, Appended, LowKept;
      addrs', ok := addrs, true;
      assert LowKept(old(disk), disk, sb.datastart) by { LowKeptItself(disk, sb.datastart); }
      var off, tot := size, 0;
      while tot < |chunk|
        invariant 0 <= tot <= |chunk| && off == size + tot <= MAXBYTES && ok
        invariant LowKept(old(disk), disk, sb.datastart)
        invariant Built(LocalTree(inum, addrs'), sb.datastart, freeblock)
        invariant Appended(t0, LocalTree(inum, addrs'), inum, size, chunk[..tot])
      {
        if off / BSIZE >= MAXFILE { return false, addrs'; }
        RestFits(off);
        var n1 := Min(|chunk| - tot, (off / BSIZE + 1) * BSIZE - off);
        ghost var before := disk;
        ok, addrs' := AppendPiece(inum, addrs', off, chunk, tot, n1, t0, size);
        LowKeptTrans(old(disk), before, disk, sb.datastart);
        if !ok { return; }
        off, tot := off + n1, tot + n1;
      }
      assert chunk[..tot] == chunk;
    }

    /** balloc: write the bitmap for the first `freeblock` blocks. The kernel finds
        its ownership invariant in place and every file as it was appended. */
    method Balloc()
      requires Valid() && freeblock < BPB
      modifies this`disk
      ensures Owned(Tree(), sb) && Holds(Tree(), dinodes, files) && Described(sb, super, disk)
    {
      ghost var t := Tree();
      var buf: Block, i := ZeroBlock(), 0;
      forall j | 0 <= j < BPB ensures !BlockBit(buf, j) {
        ZeroBits(j);
      }
      while i < freeblock
        invariant 0 <= i <= freeblock && disk == old(disk)
        invariant forall j :: 0 <= j < BPB ==> (BlockBit(buf, j) <==> j < i)
      {
        buf := PutBit(buf, i, true);
        i := i + 1;
      }
      BitBlockBelow(sb, 0);
      disk := disk[sb.bmapstart := buf];
      BitmapWritten(t, Tree(), sb, freeblock, buf);
      BitmapKeepsFiles(t, Tree(), sb.datastart, dinodes, files);
    }

    /** The kernel's readi on the finished image returns what mkfs appended. */
    method ReadBack(inum: nat) returns (r: ReadResult)
      requires Owned(Tree(), sb) && Holds(Tree(), dinodes, files) && inum in dinodes
      ensures r == Bytes(files[inum])
    {
      var fs := new FileSystem(sb, disk, dinodes);
      assert fs.Tree() == Tree();
      assert HoldsFile(Tree(), inum, dinodes[inum].size, files[inum]);
      ghost var t := fs.Tree();
      r := fs.Readi(inum, 0, dinodes[inum].size);
      assert files[inum][0..dinodes[inum].size] == files[inum];
    }

    /** One block of that loop. */
    method AppendPiece(inum: nat, addrs: Addrs, off: nat, chunk: seq<byte>, tot: nat, n1: nat, ghost t0: Tree, ghost size: nat)
      returns (ok: bool, addrs': Addrs)
      requires 0 < n1 && tot + n1 <= |chunk| && off == size + tot && off % BSIZE + n1 <= BSIZE && off + n1 <= MAXBYTES
      requires Built(LocalTree(inum, addrs), sb.datastart, freeblock)
      requires Appended(t0, LocalTree(inum, addrs), inum, size, chunk[..tot])
      modifies this`disk, this`freeblock
      ensures LowKept(old(disk), disk, sb.datastart)
      ensures ok ==> Built(LocalTree(inum, addrs'), sb.datastart, freeblock)
      ensures ok ==> Appended(t0, LocalTree(inum, addrs'), inum, size, chunk[..tot + n1])
      ensures !ok ==> freeblock == |disk|
    {
      ghost var t1 := LocalTree(inum, addrs);
      var x;
      ok, addrs', x := Locate(inum, addrs, BlockNumber(off));
      if !ok { return; }
      ghost var t2 := LocalTree(inum, addrs');
      var src := chunk[tot..tot + n1];
      assert sb.datastart <= x < |disk|;
      disk := disk[x := PutBytes(disk[x], off % BSIZE, src)];
      assert LocalTree(inum, addrs') == WithData(t2, x, PutBytes(t2.disk[x], off % BSIZE, src));
      PieceAppended(sb.datastart, freeblock, t0, t1, t2, LocalTree(inum, addrs'), inum, off, chunk, tot, n1, x, size);
    }
  }
}
