/** filewrite (kernel/file.c): a write of any length, cut into chunks that are each
    a transaction of their own. */
module FileWrite {
  import opened Options
  import opened Blocks
  import opened Bytes
  import opened InodeTree
  import opened Ownership
  import opened FileData
  import opened Fs
  import opened LogBudget

  /** What filewrite returns: n, -1 after writing only the first k bytes, or a panic
      because balloc found no block. */
  datatype Outcome = Done | Short(k: nat) | NoBlocks

  lemma {:induction false} SpliceTwice(c: seq<byte>, off: nat, a: seq<byte>, b: seq<byte>)
    requires off <= |c|
    ensures off + |a| <= |SpliceAt(c, off, a)|
    ensures SpliceAt(SpliceAt(c, off, a), off + |a|, b) == SpliceAt(c, off, a + b)
  {
    var m := SpliceAt(c, off, a);
    assert m[..off + |a|] == c[..off] + a;
    if off + |a| + |b| < |m| {
      assert m[off + |a| + |b|..] == c[off + |a| + |b|..];
    }
    assert SpliceAt(m, off + |a|, b) == SpliceAt(c, off, a + b);
  }

  /** The file's contents after the first k bytes have been written. A file that was
      without holes still is. */
  ghost predicate Written(fs: FileSystem, ino: nat, c: seq<byte>, off: nat, src: seq<byte>, k: nat, whole: bool)
    reads fs
  {
    && fs.Valid() && ino in fs.inodes && fs.inodes[ino].size <= MAXBYTES && (whole ==> HoleFree(fs.Tree(), ino, fs.inodes[ino].size))
    && k <= |src| && (off <= |c| ==> Content(fs.Tree(), ino, fs.inodes[ino].size) == SpliceAt(c, off, src[..k]))
    && (off > |c| ==> k == 0 && fs.inodes[ino].size == |c|)
  }

  /** The file stays within its limit when k bytes are written at off. */
  predicate Fits(off: nat, k: nat) {
    off + k <= MAXBYTES
  }

  /** Between (t, a) and (t', b) no other inode changed, nor any other file's bytes. */
  ghost predicate Others(t: Tree, a: map<nat, Inode>, t': Tree, b: map<nat, Inode>, ino: nat) {
    && SizesBut(a, b, ino)
    && forall i, size :: i != ino && 0 <= size <= MAXBYTES ==> Content(t', i, size) == Content(t, i, size)
  }

  lemma OthersItself(fs: FileSystem, ino: nat, c: seq<byte>, off: nat, src: seq<byte>, whole: bool)
    requires Written(fs, ino, c, off, src, 0, whole)
    ensures Others(fs.Tree(), fs.inodes, fs.Tree(), fs.inodes, ino)
  {
    var a := fs.inodes;
    assert a[ino := a[ino].(size := a[ino].size, addrs := a[ino].addrs)] == a;
  }

  lemma OthersChain(t: Tree, a: map<nat, Inode>, t': Tree, b: map<nat, Inode>, t'': Tree, c: map<nat, Inode>, ino: nat)
    requires Others(t, a, t', b, ino) && Others(t', b, t'', c, ino)
    ensures Others(t, a, t'', c, ino)
  {
  }

  /** One transaction: at most CHUNK bytes at the offset reached. It logs at most 18
      blocks, and at most 16 in a file without holes. */
  method Chunk(fs: FileSystem, ino: nat, off: nat, src: seq<byte>, k: nat, m: nat, ghost c: seq<byte>, ghost whole: bool) returns (r: WriteResult)
    requires Written(fs, ino, c, off, src, k, whole) && 0 < m <= CHUNK && k + m <= |src| < WORD_LIMIT && off + k < WORD_LIMIT
    requires SuperOk(fs.sb) && fs.sb.size <= FSSIZE
    modifies fs`disk, fs`inodes, fs`dinodes, fs`logged
    ensures r.Refused? <==> off > |c| || !Fits(off, k + m)
    ensures r.Refused? ==> Written(fs, ino, c, off, src, k, whole) && fs.Tree() == old(fs.Tree()) && fs.inodes == old(fs.inodes)
    ensures r.Wrote? ==> r.n == m && Written(fs, ino, c, off, src, k + m, whole)
    ensures r.Wrote? ==> Others(old(fs.Tree()), old(fs.inodes), fs.Tree(), fs.inodes, ino)
    ensures r.Wrote? ==> |fs.logged| <= 18 && (whole ==> |fs.logged| <= 16)
    ensures r.OutOfBlocks? ==> DiskFull(fs.disk, fs.sb)
  {
    hide DiskFull, Kept, Recorded, Halted, SpliceAt, FirstBlock, Through, GrownInode, Content, HoleFree, SuperOk, Owned, NewSize;
    fs.logged := {};
    var piece := src[k..k + m];
    ContentLength(fs, ino, c, off, src, k, whole);
    ghost var size, t0 := fs.inodes[ino].size, fs.Tree();
    r := fs.Writei(ino, off + k, piece);
    if r.Wrote? {
      assert src[..k] + piece == src[..k + m];
      SpliceTwice(c, off, src[..k], piece);
      LoggedLittle(fs, t0, ino, off + k, m, size, whole);
    }
  }

  /** The log's share of a chunk. */
  lemma LoggedLittle(fs: FileSystem, t0: Tree, ino: nat, off: nat, m: nat, size: nat, whole: bool)
    requires fs.Valid() && ino in fs.inodes && SuperOk(fs.sb) && fs.sb.size <= FSSIZE && 0 < m <= CHUNK
    requires fs.inodes[ino].size == NewSize(size, off, m) <= MAXBYTES && (whole ==> HoleFree(fs.Tree(), ino, fs.inodes[ino].size))
    requires Recorded(fs.sb, t0, fs.Tree(), ino, FirstBlock(off), Through(off, off + m), {} + GrownInode(fs.sb, ino, size, off, m), fs.logged)
    ensures |fs.logged| <= 18 && (whole ==> |fs.logged| <= 16)
  {
    var base := {} + GrownInode(fs.sb, ino, size, off, m);
    assert base <= {InodeBlock(fs.sb, ino)} && off + m <= fs.inodes[ino].size;
    hide FirstBlock, Through, GrownInode, HoleFree, NewLogged, DataLogged, GrewToward, LoggedAlong;
    ChunkFits(fs.sb, fs.Tree(), ino, off, m, base, fs.logged);
    if whole {
      DenseChunkFits(fs.sb, fs.Tree(), ino, off, m, fs.inodes[ino].size, base, fs.logged);
    }
  }

  lemma ContentLength(fs: FileSystem, ino: nat, c: seq<byte>, off: nat, src: seq<byte>, k: nat, whole: bool)
    requires Written(fs, ino, c, off, src, k, whole)
    ensures off <= |c| ==> fs.inodes[ino].size == |SpliceAt(c, off, src[..k])| >= off + k
    ensures off > |c| ==> off + k > fs.inodes[ino].size
  {
  }

  /** Before the first chunk. */
  lemma Starts(fs: FileSystem, ino: nat, c: seq<byte>, off: nat, src: seq<byte>, whole: bool)
    requires fs.Valid() && ino in fs.inodes && fs.inodes[ino].size <= MAXBYTES && (whole ==> HoleFree(fs.Tree(), ino, fs.inodes[ino].size))
    requires c == Content(fs.Tree(), ino, fs.inodes[ino].size)
    ensures |c| == fs.inodes[ino].size && Written(fs, ino, c, off, src, 0, whole)
  {
    assert src[..0] == [];
    SpliceNothing(c, off);
  }

  /** The length of the chunk that starts after k of n bytes. */
  function Next(k: nat, n: nat): (m: nat)
    requires k < n
    ensures 0 < m <= CHUNK && k + m <= n && (m < CHUNK ==> k + m == n)
  {
    if n - k > CHUNK then CHUNK else n - k
  }

  /** filewrite: the bytes laid over the file from off on, all of them or, if the
      file would grow past its limit, all the chunks before the one that does not
      fit. Every chunk is one transaction, and by Chunk a small one. */
  method Filewrite(fs: FileSystem, ino: nat, off: nat, src: seq<byte>, ghost c: seq<byte>, ghost whole: bool) returns (r: Outcome, end: nat)
    requires fs.Valid() && ino in fs.inodes && fs.inodes[ino].size <= MAXBYTES
    requires c == Content(fs.Tree(), ino, fs.inodes[ino].size) && (whole ==> HoleFree(fs.Tree(), ino, fs.inodes[ino].size))
    requires SuperOk(fs.sb) && fs.sb.size <= FSSIZE && off < WORD_LIMIT && |src| < WORD_LIMIT
    modifies fs`disk, fs`inodes, fs`dinodes, fs`logged
    ensures r.Done? ==> Written(fs, ino, c, off, src, |src|, whole) && end == off + |src|
    ensures r.Short? ==> r.k < |src| && Written(fs, ino, c, off, src, r.k, whole) && end == off + r.k
    ensures r.Short? ==> Whole(r.k) && (off > |c| || !Fits(off, r.k + Next(r.k, |src|)))
    ensures src != [] && (off > |c| || !Fits(off, |src|)) ==> !r.Done?
    ensures off <= |c| && Fits(off, |src|) ==> !r.Short?
    ensures r.NoBlocks? ==> DiskFull(fs.disk, fs.sb)
    ensures !r.NoBlocks? ==> Others(old(fs.Tree()), old(fs.inodes), fs.Tree(), fs.inodes, ino)
  {
    Starts(fs, ino, c, off, src, whole);
    r, end := WriteChunks(fs, ino, off, src, c, whole);
  }

  /** A whole number of chunks. */
  predicate Whole(k: nat) {
    k % CHUNK == 0
  }

  method WriteChunks(fs: FileSystem, ino: nat, off: nat, src: seq<byte>, ghost c: seq<byte>, ghost whole: bool) returns (r: Outcome, end: nat)
    requires Written(fs, ino, c, off, src, 0, whole) && SuperOk(fs.sb) && fs.sb.size <= FSSIZE && off < WORD_LIMIT && |src| < WORD_LIMIT
    modifies fs`disk, fs`inodes, fs`dinodes, fs`logged
    ensures r.Done? ==> Written(fs, ino, c, off, src, |src|, whole) && end == off + |src|
    ensures r.Short? ==> r.k < |src| && Written(fs, ino, c, off, src, r.k, whole) && end == off + r.k
    ensures r.Short? ==> Whole(r.k) && (off > |c| || !Fits(off, r.k + Next(r.k, |src|)))
    ensures src != [] && (off > |c| || !Fits(off, |src|)) ==> !r.Done?
    ensures off <= |c| && Fits(off, |src|) ==> !r.Short?
    ensures r.NoBlocks? ==> DiskFull(fs.disk, fs.sb)
    ensures !r.NoBlocks? ==> Others(old(fs.Tree()), old(fs.inodes), fs.Tree(), fs.inodes, ino)
  {
    hide *;
    WholeNone();
    ghost var t, a := fs.Tree(), fs.inodes;
    OthersItself(fs, ino, c, off, src, whole);
    var i := 0;
    while i < |src|
      invariant 0 <= i <= |src| && Written(fs, ino, c, off, src, i, whole)
      invariant i > 0 ==> off <= |c| && Fits(off, i)
      invariant i < |src| ==> Whole(i)
      invariant Others(t, a, fs.Tree(), fs.inodes, ino)
    {
      WholeNext(i, |src|);
      var m := Next(i, |src|);
      FitsLess(off, i, m, |src|);
      ghost var t', b := fs.Tree(), fs.inodes;
      var w := Chunk(fs, ino, off, src, i, m, c, whole);
      if w.Refused? {
        return Short(i), off + i;
      }
      if w.OutOfBlocks? {
        return NoBlocks, off + i;
      }
      OthersChain(t, a, t', b, fs.Tree(), fs.inodes, ino);
      i := i + m;
    }
    return Done, off + |src|;
  }

  lemma FitsLess(off: nat, i: nat, m: nat, n: nat)
    requires i + m <= n
    ensures Fits(off, n) ==> Fits(off, i + m)
    ensures off < WORD_LIMIT && (i > 0 ==> Fits(off, i)) ==> off + i < WORD_LIMIT
  {
  }

  lemma WholeNone()
    ensures Whole(0)
  {
  }

  lemma WholeNext(k: nat, n: nat)
    requires k < n && Whole(k)
    ensures 0 < Next(k, n) <= CHUNK && k + Next(k, n) <= n && (k + Next(k, n) < n ==> Whole(k + Next(k, n)))
  {
  }

  lemma SpliceNothing(c: seq<byte>, off: nat)
    ensures off <= |c| ==> SpliceAt(c, off, []) == c
  {
  }
}
