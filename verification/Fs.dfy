/** kernel/fs.c: block allocation, bmap, itrunc, readi and writei, over the flat
    disk that the buffer cache and the log provide. */
module Fs {
  import opened Options
  import opened Blocks
  import opened Bytes
  import opened InodeTree
  import opened Ownership
  import opened FileData
  import opened Trunc
  import Dinodes

  datatype Inode = Inode(kind: nat, nlink: nat, size: word, addrs: Addrs)

  lemma NothingFreed(t: Tree, sb: Super)
    requires Owned(t, sb)
    ensures Freeing(t.disk, t, sb, {})
  {
  }

  function NoAddrs(): (r: Addrs)
    ensures forall k :: 0 <= k < NADDRS ==> r[k] == 0
  {
    seq(NADDRS, _ => 0)
  }

  /** What readi returns: -1, the bytes, or the panic of balloc. */
  datatype ReadResult = BadOffset | NoRoom | Bytes(data: seq<byte>)

  datatype WriteResult = Refused | OutOfBlocks | Wrote(n: nat)

  function NewSize(size: nat, off: nat, n: nat): nat {
    if n > 0 then Max(size, off + n) else size
  }

  /** The bytes of s with src laid over it from off on. */
  function SpliceAt(s: seq<byte>, off: nat, src: seq<byte>): seq<byte>
    requires off <= |s|
  {
    s[..off] + src + if off + |src| < |s| then s[off + |src|..] else []
  }

  /** No block is free. */
  ghost predicate DiskFull(disk: seq<Block>, sb: Super) {
    forall x :: 0 <= x < sb.size ==> BitBlock(sb, x) < |disk| && Used(disk, sb, x)
  }

  /** At most the size and the addresses of one inode differ. */
  ghost predicate SizesBut(a: map<nat, Inode>, b: map<nat, Inode>, ino: nat) {
    ino in a && ino in b && b == a[ino := a[ino].(size := b[ino].size, addrs := b[ino].addrs)]
  }

  lemma SplicedContent(t: Tree, t': Tree, ino: nat, off: nat, src: seq<byte>, size: nat)
    requires Spliced(t, t', ino, off, src) && off <= size <= MAXBYTES && off + |src| <= MAXBYTES
    ensures Content(t', ino, NewSize(size, off, |src|)) == SpliceAt(Content(t, ino, size), off, src)
    ensures forall i, s :: i != ino && 0 <= s <= MAXBYTES ==> Content(t', i, s) == Content(t, i, s)
  {
    hide FileByte;
    forall i, s | i != ino && 0 <= s <= MAXBYTES ensures Content(t', i, s) == Content(t, i, s) {
      assert forall j :: 0 <= j < s ==> Content(t', i, s)[j] == Content(t, i, s)[j];
    }
    var s, s' := Content(t, ino, size), Content(t', ino, NewSize(size, off, |src|));
    forall j | 0 <= j < |s'| ensures s'[j] == SpliceAt(s, off, src)[j] {
      assert FileByte(t', ino, j) == if off <= j < off + |src| then src[j - off] else FileByte(t, ino, j);
    }
  }

  function Max(a: nat, b: nat): nat { if a < b then b else a }

  /** The number of blocks that hold the first `bytes` bytes. */
  function BlockEnd(bytes: nat): nat { (bytes + BSIZE - 1) / BSIZE }

  function FirstBlock(off: nat): nat { off / BSIZE }

  /** The place of a byte in its block. */
  function Offset(cur: nat): (r: nat)
    ensures r < BSIZE
  {
    cur % BSIZE
  }

  /** The end of the block numbers that the bytes from off up to end touch. */
  function Through(off: nat, end: nat): nat { if end <= off then FirstBlock(off) else BlockEnd(end) }

  /** The inode's block, logged when a write makes the file grow. */
  ghost function GrownInode(sb: Super, ino: nat, size: nat, off: nat, n: nat): set<nat> {
    if n > 0 && off + n > size then {InodeBlock(sb, ino)} else {}
  }

  /** Every newly logged block is a bitmap block or lies along the path of a block number in [first, last). */
  ghost predicate LoggedAlong(sb: Super, t: Tree, ino: nat, first: nat, last: nat, logged: set<nat>, logged': set<nat>)
    requires SuperOk(sb)
  {
    forall x :: x in logged' && x !in logged && x !in BitBlocks(sb) ==> OnSomePath(t, ino, first, last, x)
  }

  /** q is on the way to a block number in [first, last). */
  ghost predicate Toward(q: seq<nat>, first: nat, last: nat) {
    exists bn :: first <= bn < last && bn < MAXFILE && q <= PathOf(bn)
  }

  /** Only positions of one inode on the way to [first, last) have changed. */
  ghost predicate GrewToward(t: Tree, t': Tree, ino: nat, first: nat, last: nat) {
    forall i, q :: IsPath(q) && At(t', i, q) != At(t, i, q) ==> i == ino && Toward(q, first, last)
  }

  /** Every data block in [first, last) is there and logged. */
  ghost predicate DataLogged(t: Tree, ino: nat, first: nat, last: nat, logged: set<nat>) {
    forall bn :: first <= bn < last && bn < MAXFILE ==> At(t, ino, PathOf(bn)) != 0 && At(t, ino, PathOf(bn)) in logged
  }

  /** What writing the blocks [first, last) has logged: nothing but what lies on the
      way to them and the bitmap; every one of them; and whatever was allocated. */
  ghost predicate Recorded(sb: Super, t: Tree, t': Tree, ino: nat, first: nat, last: nat, logged: set<nat>, logged': set<nat>)
    requires SuperOk(sb)
  {
    && LoggedAlong(sb, t', ino, first, last, logged, logged') && logged <= logged'
    && NewLogged(sb, t, t', ino, logged') && DataLogged(t', ino, first, last, logged') && GrewToward(t, t', ino, first, last)
  }

  /** Where writing the blocks [first, last) gets stuck: one of them is missing. */
  ghost predicate Halted(t: Tree, t': Tree, ino: nat, first: nat, last: nat) {
    && Kept(t, t') && GrewToward(t, t', ino, first, last)
    && exists bn :: first <= bn < last && bn < MAXFILE && At(t', ino, PathOf(bn)) == 0
  }

  lemma NothingRecorded(sb: Super, t: Tree, ino: nat, first: nat, last: nat, logged: set<nat>)
    requires SuperOk(sb) && last <= first
    ensures Recorded(sb, t, t, ino, first, last, logged, logged)
  {
  }

  ghost predicate OnSomePath(t: Tree, ino: nat, first: nat, last: nat, x: nat) {
    x != 0 && exists bn :: first <= bn < last && bn < MAXFILE && x in Along(t, ino, PathOf(bn))
  }

  function Min(a: nat, b: nat): nat { if a < b then a else b }

  function InodeBlock(sb: Super, ino: nat): nat { Dinodes.BlockOf(sb.inodestart, ino) }

  /** m bytes from cur on, all in one block. */
  predicate InBlock(cur: nat, m: nat) {
    0 < m && Offset(cur) + m <= BSIZE
  }

  lemma BlockSplit(cur: nat, m: nat)
    requires InBlock(cur, m) && cur + m <= MAXBYTES
    ensures 0 < m && Offset(cur) + m <= BSIZE && BlockNumber(cur) < MAXFILE && BlockNumber(cur) * BSIZE + Offset(cur) == cur
  {
  }

  /** As much of the left bytes as the block of cur holds. */
  function PieceSize(cur: nat, left: nat): (m: nat)
    requires 0 < left
    ensures 0 < m <= left && InBlock(cur, m)
  {
    Min(left, BSIZE - Offset(cur))
  }

  lemma PieceFits(cur: nat, left: nat)
    requires 0 < left
    ensures 0 < PieceSize(cur, left) <= left && InBlock(cur, PieceSize(cur, left))
  {
  }

  /** The bytes of one block are the file's bytes there. */
  lemma Piece(t: Tree, ino: nat, size: nat, cur: nat, m: nat, addr: word, piece: seq<byte>)
    requires size <= MAXBYTES && cur + m <= size && InBlock(cur, m)
    requires addr == At(t, ino, PathOf(BlockNumber(cur))) && 0 < addr < |t.disk|
    requires piece == GetBytes(t.disk[addr], Offset(cur), m)
    ensures piece == Content(t, ino, size)[cur..cur + m]
  {
    hide At, PathOf, GetByte;
    forall j | 0 <= j < m ensures piece[j] == Content(t, ino, size)[cur + j] {
      SameBlock(cur, j);
    }
  }

  /** A byte below the size lies in a block below the size. */
  lemma BlockOf(cur: nat, size: nat)
    requires cur < size <= MAXBYTES
    ensures cur / BSIZE < MAXFILE && (cur / BSIZE) * BSIZE < size && cur % BSIZE < BSIZE
  {
  }

  lemma NothingWritten(t: Tree, ino: nat, off: nat, src: seq<byte>)
    ensures Spliced(t, t, ino, off, src[..0]) && Kept(t, t)
  {
  }

  /** A piece written right after the ones before. */
  lemma SplicedStep(t0: Tree, t1: Tree, t2: Tree, ino: nat, off: nat, src: seq<byte>, tot: nat, m: nat)
    requires tot + m <= |src| && Spliced(t0, t1, ino, off, src[..tot])
    requires Spliced(t1, t2, ino, off + tot, src[tot..tot + m])
    ensures Spliced(t0, t2, ino, off, src[..tot + m])
  {
    hide FileByte;
    forall i, j | 0 <= j < MAXBYTES
      ensures FileByte(t2, i, j) == if i == ino && off <= j < off + tot + m then src[..tot + m][j - off] else FileByte(t0, i, j)
    {
      assert FileByte(t1, i, j) == if i == ino && off <= j < off + tot then src[..tot][j - off] else FileByte(t0, i, j);
    }
  }

  lemma HoleFreeStep(t0: Tree, t1: Tree, t2: Tree, ino: nat, size: nat, cur: nat, m: nat)
    requires Kept(t0, t1) && Kept(t1, t2) && HoleFree(t1, ino, size) && cur <= size <= MAXBYTES
    requires InBlock(cur, m) && cur + m <= MAXBYTES
    requires At(t2, ino, PathOf(BlockNumber(cur))) != 0
    ensures HoleFree(t2, ino, Max(size, cur + m)) && Kept(t0, t2)
  {
    hide At, PathOf;
    forall bn | 0 <= bn < MAXFILE && bn * BSIZE < Max(size, cur + m) ensures At(t2, ino, PathOf(bn)) != 0 {
      if bn * BSIZE >= size {
        assert bn == cur / BSIZE;
      }
    }
  }

  function BlockNumber(cur: nat): (bn: nat)
    requires cur < MAXBYTES
    ensures bn < MAXFILE
  {
    cur / BSIZE
  }

  lemma LoggedStep(sb: Super, t1: Tree, t2: Tree, ino: nat, off: nat, cur: nat, m: nat,
                   logged0: set<nat>, logged1: set<nat>, logged2: set<nat>)
    requires SuperOk(sb) && off <= cur && InBlock(cur, m) && cur + m <= MAXBYTES
    requires Kept(t1, t2) && At(t2, ino, PathOf(BlockNumber(cur))) != 0
    requires LoggedAlong(sb, t1, ino, FirstBlock(off), Through(off, cur), logged0, logged1)
    requires logged2 <= logged1 + BitBlocks(sb) + Along(t2, ino, PathOf(BlockNumber(cur)))
    ensures LoggedAlong(sb, t2, ino, FirstBlock(off), Through(off, cur + m), logged0, logged2)
  {
    var bn := BlockNumber(cur);
    Present(t2, ino, PathOf(bn));
    LastBlock(off, cur, m);
    hide At, PathOf, IsPath;
    forall x | x in logged2 && x !in logged0 && x !in BitBlocks(sb)
      ensures OnSomePath(t2, ino, FirstBlock(off), Through(off, cur + m), x)
    {
      if x in logged1 {
        var b :| FirstBlock(off) <= b < Through(off, cur) && b < MAXFILE && x in Along(t1, ino, PathOf(b));
        KeptAlong(t1, t2, ino, PathOf(b), x);
        assert x in Along(t2, ino, PathOf(b));
      } else {
        assert x in Along(t2, ino, PathOf(bn));
      }
    }
  }

  /** The block of the piece at cur ends the range, or is already in it. */
  lemma LastBlock(off: nat, cur: nat, m: nat)
    requires off <= cur && InBlock(cur, m) && cur + m <= MAXBYTES
    ensures FirstBlock(off) <= BlockNumber(cur) <= Through(off, cur) <= Through(off, cur + m) == BlockNumber(cur) + 1
  {
  }

  /** Growth toward one block of the range. */
  lemma TowardStep(t0: Tree, t1: Tree, t2: Tree, ino: nat, first: nat, last1: nat, last2: nat, bn: nat)
    requires GrewToward(t0, t1, ino, first, last1) && bn < MAXFILE && first <= bn < last2 && last1 <= last2
    requires forall i, q :: IsPath(q) && At(t2, i, q) != At(t1, i, q) ==> i == ino && q <= PathOf(bn)
    ensures GrewToward(t0, t2, ino, first, last2)
  {
    hide At, PathOf, IsPath;
    forall i, q | IsPath(q) && At(t2, i, q) != At(t0, i, q) ensures i == ino && Toward(q, first, last2) {
      if At(t2, i, q) == At(t1, i, q) {
        assert Toward(q, first, last1);
        var b :| first <= b < last1 && b < MAXFILE && q <= PathOf(b);
        assert b < last2;
      } else {
        assert q <= PathOf(bn);
      }
    }
  }

  lemma DataStep(t1: Tree, t2: Tree, ino: nat, first: nat, last1: nat, last2: nat, bn: nat, logged1: set<nat>, logged2: set<nat>)
    requires DataLogged(t1, ino, first, last1, logged1) && Kept(t1, t2) && logged1 <= logged2 && bn < MAXFILE
    requires At(t2, ino, PathOf(bn)) != 0 && At(t2, ino, PathOf(bn)) in logged2
    requires bn <= last1 <= last2 == bn + 1
    ensures DataLogged(t2, ino, first, last2, logged2)
  {
    hide At, PathOf;
    forall b | first <= b < last2 && b < MAXFILE ensures At(t2, ino, PathOf(b)) != 0 && At(t2, ino, PathOf(b)) in logged2 {
      if b < last1 {
        assert At(t1, ino, PathOf(b)) != 0;
      }
    }
  }

  /** One piece more has been written. */
  lemma RecordedStep(sb: Super, t0: Tree, t1: Tree, t2: Tree, ino: nat, off: nat, cur: nat, m: nat,
                     logged0: set<nat>, logged1: set<nat>, logged2: set<nat>)
    requires SuperOk(sb) && off <= cur && InBlock(cur, m) && cur + m <= MAXBYTES
    requires Recorded(sb, t0, t1, ino, FirstBlock(off), Through(off, cur), logged0, logged1)
    requires Wrote1(sb, t1, t2, ino, BlockNumber(cur), logged1, logged2)
    ensures Recorded(sb, t0, t2, ino, FirstBlock(off), Through(off, cur + m), logged0, logged2)
  {
    var bn := BlockNumber(cur);
    LastBlock(off, cur, m);
    LoggedStep(sb, t1, t2, ino, off, cur, m, logged0, logged1, logged2);
    NewLoggedTrans(sb, t0, t1, t2, ino, logged1, logged2);
    TowardStep(t0, t1, t2, ino, FirstBlock(off), Through(off, cur), Through(off, cur + m), bn);
    DataStep(t1, t2, ino, FirstBlock(off), Through(off, cur), Through(off, cur + m), bn, logged1, logged2);
  }

  /** What one iteration of writei has done to the positions and the log. */
  ghost predicate Wrote1(sb: Super, t: Tree, t': Tree, ino: nat, bn: nat, logged: set<nat>, logged': set<nat>)
    requires SuperOk(sb) && bn < MAXFILE
  {
    && Kept(t, t') && At(t', ino, PathOf(bn)) != 0 && At(t', ino, PathOf(bn)) in logged'
    && logged <= logged' <= logged + BitBlocks(sb) + Along(t', ino, PathOf(bn))
    && NewLogged(sb, t, t', ino, logged')
    && forall i, q :: IsPath(q) && At(t', i, q) != At(t, i, q) ==> i == ino && q <= PathOf(bn)
  }

  lemma OneWritten(sb: Super, t0: Tree, t1: Tree, t2: Tree, ino: nat, bn: nat, addr: word, logged0: set<nat>, logged1: set<nat>)
    requires bn < MAXFILE && Mapped(sb, t0, t1, ino, PathOf(bn), logged0, logged1, addr) && Kept(t0, t2)
    requires forall i, p :: IsPath(p) ==> At(t2, i, p) == At(t1, i, p)
    requires addr in Along(t2, ino, PathOf(bn)) && Along(t2, ino, PathOf(bn)) == Along(t1, ino, PathOf(bn))
    ensures Wrote1(sb, t0, t2, ino, bn, logged0, logged1 + {addr})
  {
    hide At, PathOf, Along, BitBlocks;
    var logged := logged1 + {addr};
    forall q | IsPath(q) && At(t0, ino, q) == 0 && At(t2, ino, q) != 0 ensures EntryLogged(sb, t2, ino, q, logged) {
      assert EntryLogged(sb, t1, ino, q, logged1);
      assert |q| > 1 ==> IsPath(Parent(q));
    }
  }

  lemma KeptTrans(t0: Tree, t1: Tree, t2: Tree)
    requires Kept(t0, t1) && Kept(t1, t2)
    ensures Kept(t0, t2)
  {
    hide At, IsPath;
  }

  /** The inode may be logged as well. */
  lemma InodeToo(sb: Super, t: Tree, t': Tree, ino: nat, first: nat, last: nat, logged: set<nat>, mid: set<nat>, more: set<nat>)
    requires SuperOk(sb) && Recorded(sb, t, t', ino, first, last, logged, mid)
    ensures Recorded(sb, t, t', ino, first, last, logged + more, mid + more)
  {
    hide At, PathOf, GrewToward, OnSomePath;
    forall q | IsPath(q) && At(t, ino, q) == 0 && At(t', ino, q) != 0 ensures EntryLogged(sb, t', ino, q, mid + more) {
      assert EntryLogged(sb, t', ino, q, mid);
    }
  }

  /** What writei has achieved after `tot` bytes. */
  ghost predicate Progress(sb: Super, t0: Tree, t: Tree, ino: nat, off: nat, src: seq<byte>, tot: nat, size: nat, whole: bool,
                           logged0: set<nat>, logged: set<nat>)
    requires SuperOk(sb) && tot <= |src|
  {
    && Spliced(t0, t, ino, off, src[..tot]) && Kept(t0, t) && (whole ==> HoleFree(t, ino, Max(size, off + tot)))
    && Recorded(sb, t0, t, ino, FirstBlock(off), Through(off, off + tot), logged0, logged)
  }

  lemma NoProgress(sb: Super, t: Tree, ino: nat, off: nat, src: seq<byte>, size: nat, whole: bool, logged: set<nat>)
    requires SuperOk(sb) && off <= size && (whole ==> HoleFree(t, ino, size))
    ensures Progress(sb, t, t, ino, off, src, 0, size, whole, logged, logged)
  {
    NothingWritten(t, ino, off, src);
    NothingRecorded(sb, t, ino, FirstBlock(off), Through(off, off), logged);
    hide Spliced, Recorded, HoleFree;
  }

  lemma WroteOne(sb: Super, t: Tree, t': Tree, ino: nat, cur: nat, m: nat, logged: set<nat>, logged': set<nat>)
    requires SuperOk(sb) && InBlock(cur, m) && cur + m <= MAXBYTES && Wrote1(sb, t, t', ino, BlockNumber(cur), logged, logged')
    ensures Kept(t, t') && At(t', ino, PathOf(BlockNumber(cur))) != 0 && cur < MAXBYTES && 0 < m
  {
    hide At, PathOf, Kept, NewLogged;
  }

  lemma MaxFacts(size: nat, off: nat, tot: nat)
    requires off <= size <= MAXBYTES && off + tot <= MAXBYTES
    ensures off + tot <= Max(size, off + tot) <= MAXBYTES
  {
  }

  lemma MaxMax(a: nat, b: nat, c: nat)
    requires b <= c
    ensures Max(Max(a, b), c) == Max(a, c)
  {
  }

  /** Everything the loop of writei keeps, one piece on. */
  lemma PieceDone(sb: Super, t0: Tree, t1: Tree, t2: Tree, ino: nat, off: nat, src: seq<byte>, tot: nat, m: nat, size: nat, whole: bool,
                  logged0: set<nat>, logged1: set<nat>, logged2: set<nat>)
    requires SuperOk(sb) && off <= size <= MAXBYTES && off + |src| <= MAXBYTES && tot + m <= |src| && InBlock(off + tot, m)
    requires Progress(sb, t0, t1, ino, off, src, tot, size, whole, logged0, logged1)
    requires Spliced(t1, t2, ino, off + tot, src[tot..tot + m])
    requires Wrote1(sb, t1, t2, ino, BlockNumber(off + tot), logged1, logged2)
    ensures Progress(sb, t0, t2, ino, off, src, tot + m, size, whole, logged0, logged2)
  {
    hide At, PathOf, Spliced, Kept, HoleFree, Recorded, Wrote1, Through, FirstBlock, BlockNumber, InBlock, SuperOk, Max;
    WroteOne(sb, t1, t2, ino, off + tot, m, logged1, logged2);
    MaxFacts(size, off, tot);
    SplicedStep(t0, t1, t2, ino, off, src, tot, m);
    KeptTrans(t0, t1, t2);
    RecordedStep(sb, t0, t1, t2, ino, off, off + tot, m, logged0, logged1, logged2);
    if whole {
      HoleFreeStep(t0, t1, t2, ino, Max(size, off + tot), off + tot, m);
      MaxMax(size, off + tot, off + tot + m);
    }
  }

  /** The loop is done: what that means for the files and the log. */
  lemma WriteDone(sb: Super, t0: Tree, t1: Tree, ino: nat, off: nat, src: seq<byte>, size: nat, whole: bool, logged0: set<nat>, logged1: set<nat>)
    requires SuperOk(sb) && off <= size <= MAXBYTES && off + |src| <= MAXBYTES
    requires Progress(sb, t0, t1, ino, off, src, |src|, size, whole, logged0, logged1)
    ensures NewSize(size, off, |src|) == (if |src| > 0 && off + |src| > size then off + |src| else size) <= MAXBYTES
    ensures Kept(t0, t1) && (whole ==> HoleFree(t1, ino, NewSize(size, off, |src|)))
    ensures Content(t1, ino, NewSize(size, off, |src|)) == SpliceAt(Content(t0, ino, size), off, src)
    ensures forall i, s :: i != ino && 0 <= s <= MAXBYTES ==> Content(t1, i, s) == Content(t0, i, s)
    ensures var more := GrownInode(sb, ino, size, off, |src|);
            && more == (if |src| > 0 && off + |src| > size then {InodeBlock(sb, ino)} else {})
            && Recorded(sb, t0, t1, ino, FirstBlock(off), Through(off, off + |src|), logged0 + more, logged1 + more)
  {
    assert src[..|src|] == src;
    hide Spliced, Kept, HoleFree, Recorded, Through, FirstBlock, InodeBlock, SpliceAt;
    SplicedContent(t0, t1, ino, off, src, size);
    InodeToo(sb, t0, t1, ino, FirstBlock(off), Through(off, off + |src|), logged0, logged1, GrownInode(sb, ino, size, off, |src|));
  }

  /** The piece at cur could not be written. */
  lemma HaltedStep(sb: Super, t0: Tree, t1: Tree, t2: Tree, ino: nat, off: nat, src: seq<byte>, tot: nat, m: nat, size: nat, whole: bool,
                   logged0: set<nat>, logged1: set<nat>)
    requires SuperOk(sb) && off <= size <= MAXBYTES && off + |src| <= MAXBYTES && tot + m <= |src| && InBlock(off + tot, m)
    requires Progress(sb, t0, t1, ino, off, src, tot, size, whole, logged0, logged1)
    requires Stuck(t1, t2, ino, PathOf(BlockNumber(off + tot)))
    ensures Halted(t0, t2, ino, FirstBlock(off), Through(off, off + |src|))
  {
    var bn := BlockNumber(off + tot);
    LastBlock(off, off + tot, m);
    assert Through(off, off + tot + m) <= Through(off, off + |src|);
    TowardStep(t0, t1, t2, ino, FirstBlock(off), Through(off, off + tot), Through(off, off + |src|), bn);
    hide At, PathOf, IsPath, GrewToward, Spliced, HoleFree, LoggedAlong, DataLogged, NewLogged;
  }

  /** In a file without holes the piece's block is there if it lies below the size. */
  lemma PieceThere(sb: Super, t0: Tree, t1: Tree, ino: nat, off: nat, src: seq<byte>, tot: nat, m: nat, size: nat, whole: bool,
                   logged0: set<nat>, logged1: set<nat>)
    requires SuperOk(sb) && size <= MAXBYTES && tot + m <= |src| && off + |src| <= MAXBYTES && InBlock(off + tot, m)
    requires Progress(sb, t0, t1, ino, off, src, tot, size, whole, logged0, logged1)
    ensures whole && off + tot + m <= size ==> At(t1, ino, PathOf(BlockNumber(off + tot))) != 0
  {
    hide At, PathOf, Spliced, Kept, Recorded;
  }

  lemma KeptAlong(t: Tree, t': Tree, ino: nat, p: seq<nat>, x: nat)
    requires IsPath(p) && Kept(t, t') && x in Along(t, ino, p) && x != 0
    ensures x in Along(t', ino, p)
  {
    var k :| 1 <= k <= |p| && At(t, ino, p[..k]) == x;
    assert IsPath(p[..k]);
    assert At(t', ino, p[..k]) == x;
  }

  lemma SameBlock(cur: nat, j: nat)
    requires cur % BSIZE + j < BSIZE
    ensures (cur + j) / BSIZE == cur / BSIZE && (cur + j) % BSIZE == cur % BSIZE + j
  {
  }

  /** The bytes `src` are at `start` in one file, and every other byte of every file is as before. */
  ghost predicate Spliced(t: Tree, t': Tree, ino: nat, start: nat, src: seq<byte>) {
    forall i, j :: 0 <= j < MAXBYTES ==>
      FileByte(t', i, j) == if i == ino && start <= j < start + |src| then src[j - start] else FileByte(t, i, j)
  }

  /** No block moves. */
  ghost predicate Kept(t: Tree, t': Tree) {
    forall i, q :: IsPath(q) && At(t, i, q) != 0 ==> At(t', i, q) == At(t, i, q)
  }

  lemma Overwritten(sb: Super, t0: Tree, t1: Tree, t2: Tree, ino: nat, bn: nat, at: nat, src: seq<byte>, addr: word)
    requires Owned(t0, sb) && Owned(t1, sb) && bn < MAXFILE && at + |src| <= BSIZE
    requires Extends(t0, t1, ino, PathOf(bn)) && addr == At(t1, ino, PathOf(bn)) && 0 < addr < sb.size
    requires t2 == WithData(t1, addr, PutBytes(t1.disk[addr], at, src))
    ensures Owned(t2, sb) && Spliced(t0, t2, ino, bn * BSIZE + at, src) && Kept(t0, t2)
    ensures At(t2, ino, PathOf(bn)) == addr && Along(t2, ino, PathOf(bn)) == Along(t1, ino, PathOf(bn))
    ensures addr in Along(t2, ino, PathOf(bn)) && forall i, p :: IsPath(p) ==> At(t2, i, p) == At(t1, i, p)
  {
    var q := PathOf(bn);
    WithDataOwned(t1, sb, ino, q, PutBytes(t1.disk[addr], at, src));
    OverwrittenBytes(t0, t1, t2, ino, bn, at, src, addr);
    assert q[..|q|] == q;
    hide At, Owned, Spliced, Kept;
  }

  /** Allocating along a path and then overwriting part of its data block. */
  lemma OverwrittenBytes(t0: Tree, t1: Tree, t2: Tree, ino: nat, bn: nat, at: nat, src: seq<byte>, addr: word)
    requires Injective(t1) && InRange(t0, 0) && InRange(t1, 0) && bn < MAXFILE && at + |src| <= BSIZE
    requires Extends(t0, t1, ino, PathOf(bn)) && addr == At(t1, ino, PathOf(bn)) && 0 < addr < |t1.disk|
    requires t2 == WithData(t1, addr, PutBytes(t1.disk[addr], at, src))
    ensures Spliced(t0, t2, ino, bn * BSIZE + at, src) && Kept(t0, t2)
    ensures forall i, p :: IsPath(p) ==> At(t2, i, p) == At(t1, i, p)
  {
    var q := PathOf(bn);
    forall i, p | IsPath(p) ensures At(t2, i, p) == At(t1, i, p) {
      WithDataAt(t1, ino, q, PutBytes(t1.disk[addr], at, src), i, p);
    }
    hide At;
    forall i, j | 0 <= j < MAXBYTES
      ensures var start := bn * BSIZE + at;
              FileByte(t2, i, j) == if i == ino && start <= j < start + |src| then src[j - start] else FileByte(t0, i, j)
    {
      WithDataBytes(t1, ino, bn, at, src, i, j);
      ExtendsBytes(t0, t1, ino, q, i, j);
    }
  }

  /** The block at path p of the new tree, which adds blocks along p only; what was
      logged is the bitmap and the blocks along p. */
  ghost predicate Mapped(sb: Super, t: Tree, t': Tree, ino: nat, p: seq<nat>, logged: set<nat>, logged': set<nat>, r: word) {
    && IsPath(p) && SuperOk(sb) && Extends(t, t', ino, p)
    && r == At(t', ino, p) && 0 < r < sb.size
    && logged <= logged' <= logged + BitBlocks(sb) + Along(t', ino, p)
    && NewLogged(sb, t, t', ino, logged')
  }

  /** Every position filled between t and t' has had its block, its block's bitmap
      block and the index block that names it logged. */
  ghost predicate NewLogged(sb: Super, t: Tree, t': Tree, ino: nat, logged: set<nat>) {
    forall q :: IsPath(q) && At(t, ino, q) == 0 && At(t', ino, q) != 0 ==> EntryLogged(sb, t', ino, q, logged)
  }

  ghost predicate EntryLogged(sb: Super, t: Tree, ino: nat, q: seq<nat>, logged: set<nat>)
    requires IsPath(q)
  {
    && At(t, ino, q) in logged && BitBlock(sb, At(t, ino, q)) in logged
    && (|q| > 1 ==> At(t, ino, Parent(q)) in logged)
  }

  lemma NewLoggedTrans(sb: Super, t0: Tree, t1: Tree, t2: Tree, ino: nat, logged1: set<nat>, logged2: set<nat>)
    requires NewLogged(sb, t0, t1, ino, logged1) && NewLogged(sb, t1, t2, ino, logged2) && logged1 <= logged2 && Kept(t1, t2)
    ensures NewLogged(sb, t0, t2, ino, logged2)
  {
    forall q | IsPath(q) && At(t0, ino, q) == 0 && At(t2, ino, q) != 0 ensures EntryLogged(sb, t2, ino, q, logged2) {
      if At(t1, ino, q) != 0 {
        Present(t1, ino, q);
        assert EntryLogged(sb, t1, ino, q, logged1);
        assert |q| > 1 ==> q[..|q| - 1] == Parent(q) && IsPath(Parent(q));
      }
    }
  }

  /** The one position filled is the slot's. */
  lemma SlotLogged(sb: Super, t: Tree, t': Tree, ino: nat, slot: nat, logged: set<nat>)
    requires slot < NADDRS && Extends(t, t', ino, [slot]) && At(t', ino, [slot]) in logged && BitBlock(sb, At(t', ino, [slot])) in logged
    ensures NewLogged(sb, t, t', ino, logged)
  {
    hide At;
    forall q | IsPath(q) && At(t, ino, q) == 0 && At(t', ino, q) != 0 ensures EntryLogged(sb, t', ino, q, logged) {
      assert q <= [slot] && |q| == 1 && q == [slot];
    }
  }

  lemma PrefixOrAll(q: seq<nat>, p: seq<nat>, k: nat)
    requires q <= p + [k]
    ensures q == p + [k] || (|q| <= |p| && q == p[..|q|])
  {
    assert |q| <= |p| ==> q == p[..|q|];
  }

  /** The one position filled is the entry's. */
  lemma ChildLogged(sb: Super, t: Tree, t': Tree, ino: nat, p: seq<nat>, k: nat, logged: set<nat>)
    requires IsPath(p) && IsPath(p + [k]) && At(t, ino, p) != 0 && Extends(t, t', ino, p + [k]) && At(t, ino, p) in logged
    requires At(t', ino, p + [k]) in logged && BitBlock(sb, At(t', ino, p + [k])) in logged
    ensures NewLogged(sb, t, t', ino, logged)
  {
    Present(t, ino, p);
    assert Parent(p + [k]) == p;
    hide At;
    forall q | IsPath(q) && At(t, ino, q) == 0 && At(t', ino, q) != 0 ensures EntryLogged(sb, t', ino, q, logged) {
      assert q <= p + [k];
      PrefixOrAll(q, p, k);
      assert q == p + [k];
    }
  }

  lemma ExtendsKept(t: Tree, t': Tree, ino: nat, p: seq<nat>)
    requires Extends(t, t', ino, p)
    ensures Kept(t, t')
  {
  }

  lemma WalkStuck(sb: Super, t: Tree, t': Tree, ino: nat, path: seq<nat>, k: nat, logged: set<nat>, logged': set<nat>, addr: word)
    requires 1 <= k < |path| && IsPath(path) && IsPath(path[..k]) && IsPath(path[..k + 1])
    requires Mapped(sb, t, t', ino, path[..k], logged, logged', addr) && At(t', ino, path[..k + 1]) == 0
    ensures Stuck(t, t', ino, path)
  {
    ExtendsFurther(t, t', ino, path[..k], path);
    MissingBelow(t', ino, path, k + 1);
  }

  lemma NothingNew(sb: Super, t: Tree, ino: nat, logged: set<nat>)
    ensures NewLogged(sb, t, t, ino, logged)
  {
  }

  /** Growth toward a prefix is growth toward the whole path. */
  lemma ExtendsFurther(t: Tree, t': Tree, ino: nat, p: seq<nat>, r: seq<nat>)
    requires Extends(t, t', ino, p) && p <= r
    ensures Extends(t, t', ino, r)
  {
  }

  /** Behind a missing block nothing is found. */
  lemma MissingBelow(t: Tree, ino: nat, path: seq<nat>, k: nat)
    requires IsPath(path) && 1 <= k <= |path| && IsPath(path[..k]) && At(t, ino, path[..k]) == 0
    ensures At(t, ino, path) == 0
  {
    Present(t, ino, path);
  }

  /** A failed walk: some blocks may have been added on the way, the last one not. */
  ghost predicate Stuck(t: Tree, t': Tree, ino: nat, p: seq<nat>) {
    IsPath(p) && Extends(t, t', ino, p) && At(t', ino, p) == 0
  }

  /** At most the addresses of one inode differ. */
  ghost predicate OnlyAddrs(a: map<nat, Inode>, b: map<nat, Inode>, ino: nat) {
    ino in a && ino in b && b == a[ino := a[ino].(addrs := b[ino].addrs)]
  }

  /** Every block on the way along a path is there. */
  ghost predicate AllPresent(t: Tree, ino: nat, p: seq<nat>)
    requires IsPath(p)
  {
    forall k :: 1 <= k <= |p| ==> At(t, ino, p[..k]) != 0
  }

  /** A block is only found behind index blocks that are there. */
  lemma {:induction false} Present(t: Tree, ino: nat, p: seq<nat>)
    requires IsPath(p)
    ensures At(t, ino, p) != 0 ==> AllPresent(t, ino, p)
    decreases |p|
  {
    assert p[..|p|] == p;
    if At(t, ino, p) != 0 && |p| > 1 {
      Present(t, ino, Parent(p));
      forall k | 1 <= k <= |p| ensures At(t, ino, p[..k]) != 0 {
        if k < |p| {
          assert Parent(p)[..k] == p[..k];
        }
      }
    }
  }

  lemma AlongGrows(t: Tree, t': Tree, ino: nat, p: seq<nat>, k: nat)
    requires IsPath(p) && IsPath(p + [k]) && At(t, ino, p) != 0 && Extends(t, t', ino, p + [k])
    ensures Along(t', ino, p + [k]) == Along(t, ino, p) + {At(t', ino, p + [k])}
    ensures At(t, ino, p) in Along(t, ino, p)
  {
    Present(t, ino, p);
    var q := p + [k];
    assert q[..|q|] == q && p[..|p|] == p;
    SameAlong(t, t', ino, p, k);
    hide At, Extends, IsPath, AllPresent;
    forall x ensures x in Along(t', ino, q) <==> x in Along(t, ino, p) + {At(t', ino, q)} {
      if x in Along(t, ino, p) {
        var j :| 1 <= j <= |p| && At(t, ino, p[..j]) == x;
        assert At(t', ino, q[..j]) == x;
      }
      if x in Along(t', ino, q) {
        var j :| 1 <= j <= |q| && At(t', ino, q[..j]) == x;
        assert j == |q| || At(t, ino, p[..j]) == x;
      }
    }
  }

  lemma SameAlong(t: Tree, t': Tree, ino: nat, p: seq<nat>, k: nat)
    requires IsPath(p) && IsPath(p + [k]) && AllPresent(t, ino, p) && Extends(t, t', ino, p + [k])
    ensures forall j :: 1 <= j <= |p| ==>
              IsPath(p[..j]) && IsPath((p + [k])[..j]) && At(t', ino, (p + [k])[..j]) == At(t, ino, p[..j])
  {
    hide At;
    forall j | 1 <= j <= |p|
      ensures IsPath(p[..j]) && IsPath((p + [k])[..j]) && At(t', ino, (p + [k])[..j]) == At(t, ino, p[..j])
    {
      assert (p + [k])[..j] == p[..j];
    }
  }

  /** The blocks found on the way along a path, index blocks and the last one. */
  ghost function Along(t: Tree, ino: nat, p: seq<nat>): set<nat>
    requires IsPath(p)
  {
    set k | 1 <= k <= |p| :: At(t, ino, p[..k]) as nat
  }

  /** The blocks of the bitmap. */
  ghost function BitBlocks(sb: Super): set<nat>
    requires SuperOk(sb)
  {
    set b | 0 <= b < sb.size :: BitBlock(sb, b)
  }

  /** Bit bi of the bitmap block that starts with block b's bit. */
  lemma NextBitBlock(b: nat)
    requires b % BPB == 0
    ensures (b + BPB) % BPB == 0
  {
  }

  lemma BitPosition(sb: Super, b: nat, bi: nat)
    requires SuperOk(sb) && b % BPB == 0 && bi < BPB && b + bi < sb.size
    ensures BitBlock(sb, b + bi) == BitBlock(sb, b) < sb.datastart && (b + bi) % BPB == bi
  {
  }

  /** Every byte of every file is the same. */
  ghost predicate SameBytes(t: Tree, t': Tree) {
    forall i, j :: 0 <= j < MAXBYTES ==> FileByte(t', i, j) == FileByte(t, i, j)
  }

  lemma SameBytesItself(t: Tree)
    ensures SameBytes(t, t)
  {
  }

  lemma SameBytesTrans(t0: Tree, t1: Tree, t2: Tree)
    requires SameBytes(t0, t1) && SameBytes(t1, t2)
    ensures SameBytes(t0, t2)
  {
    hide FileByte;
  }

  lemma SliceJoin(c: seq<byte>, off: nat, cur: nat, m: nat)
    requires off <= cur && cur + m <= |c|
    ensures c[off..cur] + c[cur..cur + m] == c[off..cur + m]
  {
  }

  lemma ContentSize(t: Tree, ino: nat, size: nat)
    requires size <= MAXBYTES
    ensures |Content(t, ino, size)| == size
  {
  }

  lemma SameContent(t: Tree, t': Tree, ino: nat, size: nat)
    requires SameBytes(t, t') && size <= MAXBYTES
    ensures Content(t', ino, size) == Content(t, ino, size)
  {
    hide FileByte;
  }

  /** Allocating along a path changes no byte. */
  lemma ExtendedBytes(t: Tree, t': Tree, sb: Super, ino: nat, p: seq<nat>)
    requires Owned(t, sb) && Owned(t', sb) && Extends(t, t', ino, p)
    ensures SameBytes(t, t')
  {
    forall i, j | 0 <= j < MAXBYTES ensures FileByte(t', i, j) == FileByte(t, i, j) {
      ExtendsBytes(t, t', ino, p, i, j);
    }
  }

  lemma OnlyAddrsItself(a: map<nat, Inode>, ino: nat)
    requires ino in a
    ensures OnlyAddrs(a, a, ino)
  {
    assert a[ino := a[ino].(addrs := a[ino].addrs)] == a;
  }

  lemma OnlyAddrsTrans(a: map<nat, Inode>, b: map<nat, Inode>, c: map<nat, Inode>, ino: nat)
    requires OnlyAddrs(a, b, ino) && OnlyAddrs(b, c, ino)
    ensures OnlyAddrs(a, c, ino) && ino in c
  {
  }

  lemma OnlyAddrsSize(a: map<nat, Inode>, b: map<nat, Inode>, ino: nat)
    requires OnlyAddrs(a, b, ino)
    ensures ino in a && ino in b && a[ino].size == b[ino].size
  {
  }

  class FileSystem {
    const sb: Super
    var disk: seq<Block>
    var inodes: map<nat, Inode>     // in-core inodes
    var dinodes: map<nat, Inode>    // their copies on disk
    ghost var logged: set<nat>      // blocks passed to log_write

    /** The file system found on a device. */
    constructor (sb: Super, disk: seq<Block>, dinodes: map<nat, Inode>)
      ensures this.sb == sb && this.disk == disk && inodes == dinodes && this.dinodes == dinodes && logged == {}
    {
      this.sb := sb;
      this.disk := disk;
      this.inodes := dinodes;
      this.dinodes := dinodes;
      logged := {};
    }

    ghost function Tree(): Tree
      reads this
    {
      InodeTree.Tree(disk, map i | i in inodes :: inodes[i].addrs)
    }

    ghost predicate Valid()
      reads this
    {
      Owned(Tree(), sb)
    }

    /** log_write of a block with new contents. */
    method LogWrite(b: nat, data: Block)
      requires b < |disk|
      modifies this`disk, this`logged
      ensures disk == old(disk)[b := data] && logged == old(logged) + {b}
    {
      disk := disk[b := data];
      logged := logged + {b};
    }

    /** balloc: the first free block, marked and zeroed. `None` is the panic
        "balloc: out of blocks". */
    method Balloc() returns (r: Option<word>)
      requires SuperOk(sb) && |disk| == sb.size
      modifies this`disk, this`logged
      ensures r.None? ==> disk == old(disk) && logged == old(logged)
      ensures r.None? ==> DiskFull(disk, sb)
      ensures r.Some? ==>
                && r.value < sb.size && BitBlock(sb, r.value) < sb.size && !Used(old(disk), sb, r.value)
                && (forall x :: 0 <= x < r.value ==> BitBlock(sb, x) < sb.size && Used(old(disk), sb, x))
                && disk == Allocated(old(disk), sb, r.value)
                && logged == old(logged) + {BitBlock(sb, r.value), r.value}
    {
      hide BlockBit, PutBit, ZeroBlock, BitBlock;
      var b := 0;
      while b < sb.size
        invariant b % BPB == 0 && disk == old(disk) && logged == old(logged)
        invariant forall x :: 0 <= x < b && x < sb.size ==> BitBlock(sb, x) < sb.size && Used(disk, sb, x)
      {
        BitPosition(sb, b, 0);
        var bp := disk[BitBlock(sb, b)];
        var bi := 0;
        while bi < BPB && b + bi < sb.size
          invariant 0 <= bi <= BPB && disk == old(disk) && logged == old(logged)
          invariant forall x :: 0 <= x < b + bi && x < sb.size ==> BitBlock(sb, x) < sb.size && Used(disk, sb, x)
        {
          BitPosition(sb, b, bi);
          if !BlockBit(bp, bi) {
            LogWrite(BitBlock(sb, b), PutBit(bp, bi, true));
            LogWrite(b + bi, ZeroBlock());
            return Some(b + bi);
          }
          bi := bi + 1;
        }
        NextBitBlock(b);
        b := b + BPB;
      }
      return None;
    }

    /** bfree; the precondition is the panic "freeing free block". */
    method Bfree(b: word)
      requires SuperOk(sb) && |disk| == sb.size && b < sb.size
      requires BitBlock(sb, b) < sb.size && Used(disk, sb, b)
      modifies this`disk, this`logged
      ensures disk == Mark(old(disk), sb, b, false) && logged == old(logged) + {BitBlock(sb, b)}
    {
      LogWrite(BitBlock(sb, b), PutBit(disk[BitBlock(sb, b)], b % BPB, false));
    }

    /** The address in a slot of ip->addrs, allocating the block if there is none. */
    method Slot(ino: nat, slot: nat) returns (r: Option<word>)
      requires Valid() && ino in inodes && slot < NADDRS
      modifies this`disk, this`inodes, this`logged
      ensures r.Some? ==> Valid() && Extends(old(Tree()), Tree(), ino, [slot])
      ensures r.Some? ==> r.value == At(Tree(), ino, [slot]) && 0 < r.value < sb.size
      ensures old(At(Tree(), ino, [slot])) != 0 ==> r.Some?
      ensures r.Some? && old(At(Tree(), ino, [slot])) != 0 ==> disk == old(disk) && inodes == old(inodes) && logged == old(logged)
      ensures r.Some? ==> OnlyAddrs(old(inodes), inodes, ino)
      ensures r.Some? ==> logged <= old(logged) + BitBlocks(sb) + {r.value}
      ensures r.Some? ==> old(logged) <= logged && NewLogged(sb, old(Tree()), Tree(), ino, logged)
      ensures r.None? ==> DiskFull(disk, sb) && Valid() && Tree() == old(Tree()) && inodes == old(inodes) && At(Tree(), ino, [slot]) == 0
    {
      ghost var t := Tree();
      var addr := inodes[ino].addrs[slot];
      assert addr == At(t, ino, [slot]);
      ExtendsItself(t, ino, [slot]);
      assert addr != 0 ==> 0 < addr < sb.size;
      NothingNew(sb, t, ino, logged);
      hide DiskFull, NewLogged, Injective, InRange, Extends, Allocated;
      if addr == 0 {
        var a := Balloc();
        if a.None? { return None; }
        addr := a.value;
        inodes := inodes[ino := inodes[ino].(addrs := inodes[ino].addrs[slot := addr])];
        AttachSlot(t, sb, ino, slot, addr);
        assert Tree() == WithSlot(t, sb, ino, slot, addr);
        SlotLogged(sb, t, Tree(), ino, slot, logged);
      }
      r := Some(addr);
    }

    /** The address in entry k of the index block `addr`, allocating if there is none. */
    method Child(ino: nat, addr: word, k: nat, ghost p: seq<nat>) returns (r: Option<word>)
      requires Valid() && ino in inodes && IsPath(p) && IsPath(p + [k])
      requires addr == At(Tree(), ino, p) && addr != 0
      modifies this`disk, this`logged
      ensures r.Some? ==> Valid() && Extends(old(Tree()), Tree(), ino, p + [k])
      ensures r.Some? ==> r.value == At(Tree(), ino, p + [k]) && 0 < r.value < sb.size
      ensures old(At(Tree(), ino, p + [k])) != 0 ==> r.Some?
      ensures r.Some? && old(At(Tree(), ino, p + [k])) != 0 ==> disk == old(disk) && logged == old(logged)
      ensures r.Some? ==> logged <= old(logged) + BitBlocks(sb) + {addr, r.value}
      ensures r.Some? ==> old(logged) <= logged && NewLogged(sb, old(Tree()), Tree(), ino, logged)
      ensures r.None? ==> DiskFull(disk, sb) && Valid() && Tree() == old(Tree()) && At(Tree(), ino, p + [k]) == 0
    {
      ghost var t := Tree();
      ghost var q := p + [k];
      assert Parent(q) == p && Last(q) == k && addr < sb.size;
      var bp := disk[addr];
      var child := bp[k];
      assert child == At(t, ino, q);
      ExtendsItself(t, ino, q);
      assert child != 0 ==> 0 < child < sb.size;
      NothingNew(sb, t, ino, logged);
      hide DiskFull, NewLogged, Injective, InRange, Extends, IsPath;
      if child == 0 {
        var a := Balloc();
        if a.None? { return None; }
        child := a.value;
        AttachChild(t, sb, ino, p, k, child);
        LogWrite(addr, bp[k := child]);
        assert Tree() == WithChild(t, sb, addr, k, child);
        ChildLogged(sb, t, Tree(), ino, p, k, logged);
      }
      r := Some(child);
    }

    /** One more level of bmap: from the index block at path p to entry k. */
    method Descend(ino: nat, addr: word, k: nat, ghost p: seq<nat>, ghost t0: Tree, ghost logged0: set<nat>)
      returns (r: Option<word>)
      requires Valid() && ino in inodes && IsPath(p) && IsPath(p + [k])
      requires Mapped(sb, t0, Tree(), ino, p, logged0, logged, addr)
      modifies this`disk, this`logged
      ensures r.Some? ==> Valid() && Mapped(sb, t0, Tree(), ino, p + [k], logged0, logged, r.value)
      ensures old(At(Tree(), ino, p + [k])) != 0 ==> r.Some?
      ensures r.Some? && old(At(Tree(), ino, p + [k])) != 0 ==> disk == old(disk) && logged == old(logged)
      ensures r.None? ==> DiskFull(disk, sb) && Valid() && Tree() == old(Tree()) && At(Tree(), ino, p + [k]) == 0
    {
      ghost var t, logged1 := Tree(), logged;
      hide DiskFull, NewLogged, At, IsPath, Extends, Along, Injective, InRange;
      r := Child(ino, addr, k, p);
      if r.Some? {
        ExtendsTrans(t0, t, Tree(), ino, p, p + [k]);
        AlongGrows(t, Tree(), ino, p, k);
        ExtendsKept(t, Tree(), ino, p + [k]);
        NewLoggedTrans(sb, t0, t, Tree(), ino, logged1, logged);
      }
    }

    /** bmap: the address of the bn-th block of the inode, with the block and any
        missing index block on its path allocated. */
    method Bmap(ino: nat, bn: nat) returns (r: Option<word>)
      requires Valid() && ino in inodes && bn < MAXFILE
      modifies this`disk, this`inodes, this`logged
      ensures r.Some? ==> Valid() && Mapped(sb, old(Tree()), Tree(), ino, PathOf(bn), old(logged), logged, r.value)
      ensures r.Some? ==> OnlyAddrs(old(inodes), inodes, ino)
      ensures old(At(Tree(), ino, PathOf(bn))) != 0 ==>
                r.Some? && disk == old(disk) && inodes == old(inodes) && logged == old(logged)
      ensures r.None? ==> DiskFull(disk, sb) && Valid() && Stuck(old(Tree()), Tree(), ino, PathOf(bn)) && OnlyAddrs(old(inodes), inodes, ino)
    {
      var path: seq<nat>;
      if bn < NDIRECT {
        path := [bn];
      } else if bn - NDIRECT < NINDIRECT {
        path := [NDIRECT, bn - NDIRECT];
      } else if bn - NDIRECT - NINDIRECT < NDINDIRECT {
        var rel := bn - NDIRECT - NINDIRECT;
        var dind, sind := rel / NINDIRECT, rel % NINDIRECT;
        path := [NDIRECT + 1, dind, sind];
      } else {
        var rel := bn - NDIRECT - NINDIRECT - NDINDIRECT;
        var tind, rem := rel / NDINDIRECT, rel % NDINDIRECT;
        var dind, sind := rem / NINDIRECT, rem % NINDIRECT;
        path := [NDIRECT + 2, tind, dind, sind];
      }
      assert path == PathOf(bn);
      hide DiskFull, Stuck, PathOf, Owned, At, Mapped, OnlyAddrs;
      r := Walk(ino, path);
    }

    /** Follow a path from ip->addrs through the index blocks. */
    method Walk(ino: nat, path: seq<nat>) returns (r: Option<word>)
      requires Valid() && ino in inodes && IsPath(path)
      modifies this`disk, this`inodes, this`logged
      ensures old(At(Tree(), ino, path)) != 0 ==>
                r.Some? && disk == old(disk) && inodes == old(inodes) && logged == old(logged)
      ensures r.Some? ==> OnlyAddrs(old(inodes), inodes, ino)
      ensures r.Some? ==> Valid() && Mapped(sb, old(Tree()), Tree(), ino, path, old(logged), logged, r.value)
      ensures r.None? ==> DiskFull(disk, sb) && Valid() && Stuck(old(Tree()), Tree(), ino, path) && OnlyAddrs(old(inodes), inodes, ino)
    {
      ghost var t0, logged0 := Tree(), logged;
      Present(t0, ino, path);
      assert path[..1] == [path[0]] && IsPath([path[0]]);
      ExtendsItself(t0, ino, path);
      hide DiskFull, Owned, Extends, At, Mapped, IsPath, Level;
      r := FirstSlot(ino, path[0]);
      if r.Some? {
        r := WalkDown(ino, path, r.value, t0, logged0);
      } else {
        MissingBelow(t0, ino, path, 1);
      }
    }

    /** One more level down the path. */
    method WalkNext(ino: nat, path: seq<nat>, k: nat, addr: word, ghost t0: Tree, ghost logged0: set<nat>) returns (r: Option<word>)
      requires Valid() && ino in inodes && 1 <= k < |path| && IsPath(path) && Prefixed(path)
      requires Mapped(sb, t0, Tree(), ino, path[..k], logged0, logged, addr)
      modifies this`disk, this`logged
      ensures AllPresent(old(Tree()), ino, path) ==> r.Some? && disk == old(disk) && logged == old(logged)
      ensures r.Some? ==> Valid() && Mapped(sb, t0, Tree(), ino, path[..k + 1], logged0, logged, r.value)
      ensures r.None? ==> DiskFull(disk, sb) && Valid() && Stuck(t0, Tree(), ino, path)
    {
      ghost var logged1 := logged;
      assert path[..k + 1] == path[..k] + [path[k]] && IsPath(path[..k]) && IsPath(path[..k + 1]);
      hide DiskFull, Owned, At, Mapped, IsPath, Level, Prefixed;
      r := Descend(ino, addr, path[k], path[..k], t0, logged0);
      if r.None? {
        WalkStuck(sb, t0, Tree(), ino, path, k, logged0, logged1, addr);
      }
    }

    /** The index blocks of a path, from the one named in the inode on. */
    method WalkDown(ino: nat, path: seq<nat>, addr: word, ghost t0: Tree, ghost logged0: set<nat>) returns (r: Option<word>)
      requires Valid() && ino in inodes && IsPath(path)
      requires Mapped(sb, t0, Tree(), ino, path[..1], logged0, logged, addr)
      modifies this`disk, this`logged
      ensures AllPresent(old(Tree()), ino, path) ==> r.Some? && disk == old(disk) && logged == old(logged)
      ensures r.Some? ==> Valid() && Mapped(sb, t0, Tree(), ino, path, logged0, logged, r.value)
      ensures r.None? ==> DiskFull(disk, sb) && Valid() && Stuck(t0, Tree(), ino, path)
    {
      hide DiskFull, Stuck, Owned, At, Mapped, IsPath, Level, Prefixed, AllPresent;
      PathPrefixed(path);
      ghost var disk1, logged1, present := disk, logged, AllPresent(Tree(), ino, path);
      r := Some(addr);
      var k := 1;
      while r.Some? && k < |path|
        invariant 1 <= k <= |path|
        invariant present ==> r.Some? && disk == disk1 && logged == logged1
        invariant r.Some? ==> Valid() && Mapped(sb, t0, Tree(), ino, path[..k], logged0, logged, r.value)
        invariant r.None? ==> DiskFull(disk, sb) && Valid() && Stuck(t0, Tree(), ino, path)
        decreases r.Some?, |path| - k
      {
        r := WalkNext(ino, path, k, r.value, t0, logged0);
        k := k + 1;
      }
    }

    method FirstSlot(ino: nat, slot: nat) returns (r: Option<word>)
      requires Valid() && ino in inodes && slot < NADDRS
      modifies this`disk, this`inodes, this`logged
      ensures r.Some? ==> Valid() && Mapped(sb, old(Tree()), Tree(), ino, [slot], old(logged), logged, r.value)
      ensures r.Some? ==> OnlyAddrs(old(inodes), inodes, ino)
      ensures old(At(Tree(), ino, [slot])) != 0 ==> r.Some?
      ensures r.Some? && old(At(Tree(), ino, [slot])) != 0 ==> disk == old(disk) && inodes == old(inodes) && logged == old(logged)
      ensures r.None? ==> DiskFull(disk, sb) && Valid() && Tree() == old(Tree()) && inodes == old(inodes) && At(Tree(), ino, [slot]) == 0
    {
      hide DiskFull, NewLogged, Extends, At, Injective, InRange;
      r := Slot(ino, slot);
      assert [slot][..1] == [slot];
      assert r.Some? ==> r.value in Along(Tree(), ino, [slot]);
    }

    /** One iteration of writei: map the block, overwrite part of it, log it. A
        false result is the panic of balloc. */
    method WriteBlock(ino: nat, bn: nat, at: nat, src: seq<byte>) returns (ok: bool)
      requires Valid() && ino in inodes && bn < MAXFILE && at + |src| <= BSIZE
      modifies this`disk, this`inodes, this`logged
      ensures Valid() && OnlyAddrs(old(inodes), inodes, ino)
      ensures ok ==> Spliced(old(Tree()), Tree(), ino, bn * BSIZE + at, src)
      ensures ok ==> Wrote1(sb, old(Tree()), Tree(), ino, bn, old(logged), logged)
      ensures old(At(Tree(), ino, PathOf(bn))) != 0 ==> ok && inodes == old(inodes)
      ensures !ok ==> DiskFull(disk, sb) && Stuck(old(Tree()), Tree(), ino, PathOf(bn))
    {
      ghost var t0, logged0 := Tree(), logged;
      hide DiskFull, OnlyAddrs, Stuck;
      var r := Bmap(ino, bn);
      if r.None? { return false; }
      ghost var t1, logged1 := Tree(), logged;
      var addr := r.value;
      LogWrite(addr, PutBytes(disk[addr], at, src));
      Overwritten(sb, t0, t1, Tree(), ino, bn, at, src, addr);
      OneWritten(sb, t0, t1, Tree(), ino, bn, addr, logged0, logged1);
      ok := true;
    }

    /** writei: the bytes are spliced in at `off`, which may extend the file; every
        other file keeps its bytes and no hole appears. `Refused` is the return
        value -1 and `OutOfBlocks` the panic of balloc. The inode on disk is brought
        up to date when the file grows; otherwise, unless a hole is filled, its
        addresses have not changed. */
    method Writei(ino: nat, off: word, src: seq<byte>) returns (r: WriteResult)
      requires Valid() && ino in inodes && inodes[ino].size <= MAXBYTES && |src| < WORD_LIMIT
      modifies this`disk, this`inodes, this`dinodes, this`logged
      ensures Valid()
      ensures r.Refused? <==> off > old(inodes)[ino].size || off + |src| > MAXBYTES
      ensures r.Refused? ==> disk == old(disk) && inodes == old(inodes) && dinodes == old(dinodes) && logged == old(logged)
      ensures r.Wrote? ==> r.n == |src| && SizesBut(old(inodes), inodes, ino)
      ensures r.Wrote? ==> inodes[ino].size == NewSize(old(inodes)[ino].size, off, |src|) <= MAXBYTES
      ensures r.Wrote? && old(HoleFree(Tree(), ino, inodes[ino].size)) ==> HoleFree(Tree(), ino, inodes[ino].size)
      ensures r.Wrote? ==> Kept(old(Tree()), Tree())
      ensures r.Wrote? ==>
                Content(Tree(), ino, inodes[ino].size) == SpliceAt(old(Content(Tree(), ino, inodes[ino].size)), off, src)
      ensures r.Wrote? ==> forall i, size :: i != ino && 0 <= size <= MAXBYTES ==>
                Content(Tree(), i, size) == Content(old(Tree()), i, size)
      ensures r.Wrote? && old(dinodes) == old(inodes) && old(HoleFree(Tree(), ino, inodes[ino].size)) ==> dinodes == inodes
      ensures r.Wrote? && |src| > 0 && off + |src| > old(inodes)[ino].size ==> dinodes == old(dinodes)[ino := inodes[ino]]
      ensures r.Wrote? ==> Recorded(sb, old(Tree()), Tree(), ino, FirstBlock(off), Through(off, off + |src|),
                                    old(logged) + GrownInode(sb, ino, old(inodes)[ino].size, off, |src|), logged)
      ensures r.OutOfBlocks? ==> DiskFull(disk, sb) && Halted(old(Tree()), Tree(), ino, FirstBlock(off), Through(off, off + |src|))
    {
      assert SuperOk(sb);
      hide DiskFull, Owned, Kept, HoleFree, Through, Recorded, Halted, SpliceAt, FirstBlock, Progress, NewSize, GrownInode;
      var size := inodes[ino].size;
      var n := |src|;
      if off > size || (off + n) % WORD_LIMIT < off {
        return Refused;
      }
      if (off + n) % WORD_LIMIT > MAXBYTES {
        return Refused;
      }
      ghost var t0, logged0 := Tree(), logged;
      var ok := WriteLoop(ino, off, src, size, HoleFree(t0, ino, size));
      if !ok { return OutOfBlocks; }
      ghost var t1, logged1 := Tree(), logged;
      WriteDone(sb, t0, t1, ino, off, src, size, HoleFree(t0, ino, size), logged0, logged1);
      if n > 0 && off + n > size {
        inodes := inodes[ino := inodes[ino].(size := off + n)];
        Iupdate(ino);
      }
      assert Tree() == t1;
      r := Wrote(n);
    }

    /** The loop of writei. */
    method WriteLoop(ino: nat, off: word, src: seq<byte>, ghost size: nat, ghost whole: bool) returns (ok: bool)
      requires Valid() && SuperOk(sb) && ino in inodes && off <= size <= MAXBYTES && off + |src| <= MAXBYTES
      requires whole ==> HoleFree(Tree(), ino, size)
      modifies this`disk, this`inodes, this`logged
      ensures Valid() && OnlyAddrs(old(inodes), inodes, ino)
      ensures ok ==> Progress(sb, old(Tree()), Tree(), ino, off, src, |src|, size, whole, old(logged), logged)
      ensures ok && whole && off + |src| <= size ==> inodes == old(inodes)
      ensures !ok ==> DiskFull(disk, sb) && Halted(old(Tree()), Tree(), ino, FirstBlock(off), Through(off, off + |src|))
    {
      hide *;
      ghost var t0, logged0 := Tree(), logged;
      NoProgress(sb, t0, ino, off, src, size, whole, logged0);
      OnlyAddrsItself(inodes, ino);
      var tot, n := 0, |src|;
      while tot < n
        invariant 0 <= tot <= n
        invariant Valid() && ino in inodes && OnlyAddrs(old(inodes), inodes, ino)
        invariant Progress(sb, t0, Tree(), ino, off, src, tot, size, whole, logged0, logged)
        invariant whole && off + n <= size ==> inodes == old(inodes)
      {
        PieceFits(off + tot, n - tot);
        var m := PieceSize(off + tot, n - tot);
        ghost var inodes1 := inodes;
        ok := WritePiece(ino, off, src, tot, m, size, whole, t0, logged0);
        OnlyAddrsTrans(old(inodes), inodes1, inodes, ino);
        if !ok { return; }
        tot := tot + m;
      }
      ok := true;
    }

    /** The body of that loop. */
    method WritePiece(ino: nat, off: word, src: seq<byte>, tot: nat, m: nat, ghost size: nat, ghost whole: bool,
                      ghost t0: Tree, ghost logged0: set<nat>) returns (ok: bool)
      requires Valid() && ino in inodes && off <= size <= MAXBYTES && off + |src| <= MAXBYTES
      requires tot + m <= |src| && InBlock(off + tot, m)
      requires SuperOk(sb) && Progress(sb, t0, Tree(), ino, off, src, tot, size, whole, logged0, logged)
      modifies this`disk, this`inodes, this`logged
      ensures Valid() && OnlyAddrs(old(inodes), inodes, ino)
      ensures ok ==> Progress(sb, t0, Tree(), ino, off, src, tot + m, size, whole, logged0, logged)
      ensures ok && whole && off + tot + m <= size ==> inodes == old(inodes)
      ensures !ok ==> DiskFull(disk, sb) && Halted(t0, Tree(), ino, FirstBlock(off), Through(off, off + |src|))
    {
      hide *;
      var cur := off + tot;
      BlockSplit(cur, m);
      ghost var t1, logged1 := Tree(), logged;
      PieceThere(sb, t0, t1, ino, off, src, tot, m, size, whole, logged0, logged1);
      ok := WriteBlock(ino, BlockNumber(cur), Offset(cur), src[tot..tot + m]);
      if ok {
        PieceDone(sb, t0, t1, Tree(), ino, off, src, tot, m, size, whole, logged0, logged1, logged);
      } else {
        HaltedStep(sb, t0, t1, Tree(), ino, off, src, tot, m, size, whole, logged0, logged1);
      }
    }

    /** itrunc: free every block of the inode and empty it. */
    method Itrunc(ino: nat)
      requires Valid() && ino in inodes
      modifies this`disk, this`inodes, this`dinodes, this`logged
      ensures Valid() && Emptied(old(Tree()), Tree(), sb, ino)
      ensures inodes == old(inodes)[ino := Inode(old(inodes)[ino].kind, old(inodes)[ino].nlink, 0, NoAddrs())]
      ensures dinodes == old(dinodes)[ino := inodes[ino]]
    {
      ghost var t := Tree();
      TruncSlots(ino, t);
      hide At, Freeing, Owned, SlotsUpTo, ClearedUpTo;
      inodes := inodes[ino := inodes[ino].(size := 0)];
      assert Tree().addrs == t.addrs[ino := ClearedUpTo(t.addrs[ino], NADDRS)];
      EmptiedOwned(t, Tree(), sb, ino);
      Iupdate(ino);
    }

    method TruncSlots(ino: nat, ghost t: Tree)
      requires Valid() && ino in inodes && t == Tree()
      modifies this`disk, this`inodes, this`logged
      ensures inodes == old(inodes)[ino := old(inodes)[ino].(addrs := NoAddrs())]
      ensures ClearedUpTo(t.addrs[ino], NADDRS) == NoAddrs()
      ensures Freeing(disk, t, sb, SlotsUpTo(t, ino, NADDRS))
    {
      ghost var addrs := inodes[ino].addrs;
      NothingFreed(t, sb);
      assert ClearedUpTo(addrs, 0) == addrs && ClearedUpTo(addrs, NADDRS) == NoAddrs();
      hide At, Freeing, Injective, InRange, SlotsUpTo, ClearedUpTo, NoAddrs;
      var k := 0;
      while k < NADDRS
        invariant 0 <= k <= NADDRS
        invariant ino in inodes && inodes == old(inodes)[ino := old(inodes)[ino].(addrs := ClearedUpTo(addrs, k))]
        invariant Freeing(disk, t, sb, SlotsUpTo(t, ino, k))
      {
        TruncSlot(ino, k, t, addrs);
        k := k + 1;
      }
    }

    /** One address of the inode: a direct block, or an index block and all below it. */
    method TruncSlot(ino: nat, k: nat, ghost t: Tree, ghost addrs: Addrs)
      requires Owned(t, sb) && ino in inodes && ino in t.addrs && t.addrs[ino] == addrs && k < NADDRS
      requires inodes[ino].addrs == ClearedUpTo(addrs, k)
      requires Freeing(disk, t, sb, SlotsUpTo(t, ino, k))
      modifies this`disk, this`inodes, this`logged
      ensures inodes == old(inodes)[ino := old(inodes)[ino].(addrs := ClearedUpTo(addrs, k + 1))]
      ensures Freeing(disk, t, sb, SlotsUpTo(t, ino, k + 1))
    {
      ghost var f := SlotsUpTo(t, ino, k);
      SlotFacts(t, ino, k);
      assert ClearedUpTo(addrs, k + 1) == ClearedUpTo(addrs, k)[k := 0];
      var addr := inodes[ino].addrs[k];
      assert addr == At(t, ino, [k]) && IsPath([k]);
      hide At, Freeing, Injective, InRange, SlotsUpTo, ClearedUpTo;
      if addr != 0 {
        if k < NDIRECT {
          StillUsed(disk, t, sb, f, ino, [k]);
          FreedOne(disk, t, sb, f, addr);
          Bfree(addr);
        } else {
          FreeTable(addr, k + 1 - NDIRECT, t, ino, [k], f);
        }
        inodes := inodes[ino := inodes[ino].(addrs := inodes[ino].addrs[k := 0])];
      } else {
        assert ClearedUpTo(addrs, k + 1) == ClearedUpTo(addrs, k);
      }
    }

    /** Free the blocks listed in an index block and then the block itself. The
        source writes this out for each depth, as one, two or three nested loops. */
    method FreeTable(addr: word, depth: nat, ghost t: Tree, ghost ino: nat, ghost p: seq<nat>, ghost freed: set<nat>)
      requires Owned(t, sb) && Freeing(disk, t, sb, freed)
      requires IsPath(p) && !IsData(p) && depth == 1 + Level(p[0]) - |p|
      requires addr == At(t, ino, p) && addr != 0 && freed !! Sub(t, ino, p)
      modifies this`disk, this`logged
      ensures Freeing(disk, t, sb, freed + Sub(t, ino, p))
      decreases depth
    {
      TableThere(disk, t, sb, ino, p, freed);
      hide Owned, At, Sub, SubUpTo, Freeing, Injective, InRange, IsPath;
      var a := disk[addr];
      var j := 0;
      while j < NINDIRECT
        invariant 0 <= j <= NINDIRECT
        invariant Freeing(disk, t, sb, freed + SubUpTo(t, ino, p, j))
      {
        TableEntry(t, ino, p, j);
        FreeEntry(a[j], depth, t, ino, p, j, freed);
        j := j + 1;
      }
      FreeSelf(addr, t, ino, p, freed);
    }

    /** One entry of the index block: bfree of a data block, or the next loop in. */
    method FreeEntry(child: word, depth: nat, ghost t: Tree, ghost ino: nat, ghost p: seq<nat>, j: nat, ghost freed: set<nat>)
      requires Owned(t, sb) && j < NINDIRECT
      requires IsPath(p) && !IsData(p) && depth == 1 + Level(p[0]) - |p| && IsPath(p + [j])
      requires child == At(t, ino, p + [j]) && freed !! Sub(t, ino, p) && At(t, ino, p) != 0
      requires Freeing(disk, t, sb, freed + SubUpTo(t, ino, p, j))
      modifies this`disk, this`logged
      ensures Freeing(disk, t, sb, freed + SubUpTo(t, ino, p, j + 1))
      decreases depth, 0
    {
      ghost var f := freed + SubUpTo(t, ino, p, j);
      ghost var q := p + [j];
      EntryFacts(t, ino, p, j, freed);
      hide At, Sub, SubUpTo, Freeing, Injective, InRange;
      if child != 0 {
        if depth == 1 {
          StillUsed(disk, t, sb, f, ino, q);
          FreedOne(disk, t, sb, f, child);
          Bfree(child);
        } else {
          FreeTable(child, depth - 1, t, ino, q, f);
        }
      }
    }

    method FreeSelf(addr: word, ghost t: Tree, ghost ino: nat, ghost p: seq<nat>, ghost freed: set<nat>)
      requires Owned(t, sb) && IsPath(p) && !IsData(p)
      requires addr == At(t, ino, p) && addr != 0 && freed !! Sub(t, ino, p)
      requires Freeing(disk, t, sb, freed + SubUpTo(t, ino, p, NINDIRECT))
      modifies this`disk, this`logged
      ensures Freeing(disk, t, sb, freed + Sub(t, ino, p))
    {
      ghost var f := freed + SubUpTo(t, ino, p, NINDIRECT);
      IndexApart(t, ino, p);
      StillUsed(disk, t, sb, f, ino, p);
      FreedOne(disk, t, sb, f, addr);
      Bfree(addr);
      assert f + {addr} == freed + Sub(t, ino, p);
    }

    /** iupdate, on typed inodes; Dinodes has it on the words of the inode block. */
    method Iupdate(ino: nat)
      requires ino in inodes
      modifies this`dinodes, this`logged
      ensures dinodes == old(dinodes)[ino := inodes[ino]]
      ensures logged == old(logged) + {InodeBlock(sb, ino)}
    {
      dinodes := dinodes[ino := inodes[ino]];
      logged := logged + {InodeBlock(sb, ino)};
    }

    /** readi: the requested slice of the file's bytes, cut at the size. A hole reads
        as zeros and is filled on the way, which changes no file's bytes; a file
        without holes is left alone. */
    method Readi(ino: nat, off: word, n: word) returns (r: ReadResult)
      requires Valid() && ino in inodes && inodes[ino].size <= MAXBYTES
      modifies this`disk, this`inodes, this`logged
      ensures Valid() && OnlyAddrs(old(inodes), inodes, ino)
      ensures r.BadOffset? <==> off > inodes[ino].size || off + n >= WORD_LIMIT
      ensures r.Bytes? ==>
                var size := inodes[ino].size;
                r.data == Content(old(Tree()), ino, size)[off..if off + n > size then size else off + n]
      ensures SameBytes(old(Tree()), Tree())
      ensures old(HoleFree(Tree(), ino, inodes[ino].size)) ==>
                !r.NoRoom? && disk == old(disk) && inodes == old(inodes) && logged == old(logged)
      ensures r.NoRoom? ==> DiskFull(disk, sb)
    {
      ghost var t0 := Tree();
      SameBytesItself(t0);
      OnlyAddrsItself(inodes, ino);
      hide DiskFull, OnlyAddrs, HoleFree, SameBytes, Content, FileSystem.Tree, FileSystem.Valid;
      var size := inodes[ino].size;
      if off > size || (off + n) % WORD_LIMIT < off {
        return BadOffset;
      }
      var end := if off + n > size then size else off + n;
      var data := ReadLoop(ino, off, end, size, HoleFree(t0, ino, size), t0);
      OnlyAddrsSize(old(inodes), inodes, ino);
      r := if data.Some? then Bytes(data.value) else NoRoom;
    }

    /** The loop of readi. */
    method ReadLoop(ino: nat, off: nat, end: nat, ghost size: nat, ghost whole: bool, ghost t0: Tree) returns (r: Option<seq<byte>>)
      requires Valid() && ino in inodes && t0 == Tree() && off <= end <= size <= MAXBYTES && (whole ==> HoleFree(t0, ino, size))
      modifies this`disk, this`inodes, this`logged
      ensures Valid() && OnlyAddrs(old(inodes), inodes, ino) && SameBytes(t0, Tree())
      ensures r.Some? ==> r.value == Content(t0, ino, size)[off..end]
      ensures whole ==> r.Some? && disk == old(disk) && inodes == old(inodes) && logged == old(logged)
      ensures r.None? ==> DiskFull(disk, sb)
    {
      hide *;
      ghost var c := Content(t0, ino, size);
      ContentSize(t0, ino, size);
      SameBytesItself(t0);
      OnlyAddrsItself(inodes, ino);
      var dst: seq<byte>, cur := [], off;
      while cur < end
        invariant off <= cur <= end
        invariant Valid() && ino in inodes && OnlyAddrs(old(inodes), inodes, ino) && SameBytes(t0, Tree())
        invariant whole ==> disk == old(disk) && inodes == old(inodes) && logged == old(logged)
        invariant dst == c[off..cur]
      {
        PieceFits(cur, end - cur);
        var m := PieceSize(cur, end - cur);
        var piece := ReadPiece(ino, cur, m, size, whole, t0, old(inodes));
        OnlyAddrsSize(old(inodes), inodes, ino);
        if piece.None? { return None; }
        SliceJoin(c, off, cur, m);
        dst := dst + piece.value;
        cur := cur + m;
      }
      r := Some(dst);
    }

    /** One block of readi's loop. */
    method ReadPiece(ino: nat, cur: nat, m: nat, ghost size: nat, ghost whole: bool, ghost t0: Tree, ghost inodes0: map<nat, Inode>)
        returns (r: Option<seq<byte>>)
      requires Valid() && ino in inodes && cur + m <= size <= MAXBYTES && InBlock(cur, m)
      requires OnlyAddrs(inodes0, inodes, ino) && SameBytes(t0, Tree()) && (whole ==> HoleFree(Tree(), ino, size))
      modifies this`disk, this`inodes, this`logged
      ensures Valid() && OnlyAddrs(inodes0, inodes, ino) && SameBytes(t0, Tree())
      ensures whole ==> r.Some? && disk == old(disk) && inodes == old(inodes) && logged == old(logged)
      ensures r.Some? ==> r.value == Content(t0, ino, size)[cur..cur + m]
      ensures r.None? ==> DiskFull(disk, sb)
    {
      ghost var t1, inodes1 := Tree(), inodes;
      BlockSplit(cur, m);
      assert whole ==> At(t1, ino, PathOf(BlockNumber(cur))) != 0;
      hide DiskFull, At, OnlyAddrs, PathOf, FileByte, GetByte, HoleFree, Injective, BlockNumber, Offset, InBlock;
      var a := Bmap(ino, BlockNumber(cur));
      ExtendedBytes(t1, Tree(), sb, ino, PathOf(BlockNumber(cur)));
      SameBytesTrans(t0, t1, Tree());
      OnlyAddrsTrans(inodes0, inodes1, inodes, ino);
      if a.None? { return None; }
      var piece := GetBytes(disk[a.value], Offset(cur), m);
      Piece(Tree(), ino, size, cur, m, a.value, piece);
      SameContent(t0, Tree(), ino, size);
      r := Some(piece);
    }
  }
}
