/** How many blocks one chunk of filewrite can log. filewrite cuts a write into
    chunks of at most ((MAXOPBLOCKS - 1 - 1 - 2) / 2) * 512 bytes, each its own
    transaction; the chunk's data, index, bitmap and inode blocks must fit in the
    MAXOPBLOCKS the log reserves for it. */
module LogBudget {
  import opened Options
  import opened Blocks
  import opened InodeTree
  import opened Ownership
  import opened FileData
  import opened Fs
  import Ring

  const MAXOPBLOCKS := 20
  const CHUNK := ((MAXOPBLOCKS - 1 - 1 - 2) / 2) * 512
  const FSSIZE := 10000

  /** The path of the index block whose entries are the blocks 10 + 128 n .. 10 + 128 n + 127. */
  function TablePath(n: nat): (p: seq<nat>)
    requires n < 1 + 128 + 16384
    ensures 1 <= |p| <= 3
  {
    if n == 0 then [NDIRECT]
    else if n <= 128 then [NDIRECT + 1, n - 1]
    else [NDIRECT + 2, (n - 129) / 128, (n - 129) % 128]
  }

  function TableOf(bn: nat): nat
    requires NDIRECT <= bn < MAXFILE
  {
    (bn - NDIRECT) / NINDIRECT
  }

  lemma PathThroughTable(bn: nat)
    requires NDIRECT <= bn < MAXFILE
    ensures TableOf(bn) < 1 + 128 + 16384
    ensures PathOf(bn) == TablePath(TableOf(bn)) + [(bn - NDIRECT) % NINDIRECT]
  {
    var n, k := TableOf(bn), (bn - NDIRECT) % NINDIRECT;
    assert bn == NDIRECT + NINDIRECT * n + k;
    if n == 0 {
    } else if n <= 128 {
      Divide(n - 1, k);
    } else {
      var a, b := (n - 129) / 128, (n - 129) % 128;
      assert n == 129 + 128 * a + b;
      DivideTwice(a, b, k);
    }
  }

  lemma Divide(a: nat, k: nat)
    requires k < NINDIRECT
    ensures (NINDIRECT * a + k) / NINDIRECT == a && (NINDIRECT * a + k) % NINDIRECT == k
  {
  }

  lemma DivideTwice(a: nat, b: nat, k: nat)
    requires b < NINDIRECT && k < NINDIRECT
    ensures var r := NDINDIRECT * a + NINDIRECT * b + k;
            r / NDINDIRECT == a && (r % NDINDIRECT) / NINDIRECT == b && (r % NDINDIRECT) % NINDIRECT == k
  {
    var r := NDINDIRECT * a + NINDIRECT * b + k;
    assert r / NDINDIRECT == a && r % NDINDIRECT == NINDIRECT * b + k;
    Divide(b, k);
  }

  /** Nine consecutive blocks of a file hang on at most two index blocks. */
  lemma AtMostTwoTables(first: nat, bn: nat, last: nat)
    requires first <= bn <= last <= first + 8 && NDIRECT <= bn && last < MAXFILE
    ensures TableOf(bn) == TableOf(last) || (NDIRECT <= first && TableOf(bn) == TableOf(first))
  {
  }

  /** The index blocks from the inode to table n. */
  ghost function TableBlocks(t: Tree, ino: nat, n: nat): set<nat>
    requires n < 1 + 128 + 16384
  {
    LowerBlocks(t, ino, n) + {RootBlock(t, ino, n)}
  }

  /** The index blocks of a table below the one named by the inode. */
  ghost function LowerBlocks(t: Tree, ino: nat, n: nat): (s: set<nat>)
    requires n < 1 + 128 + 16384
  {
    var p := TablePath(n);
    if |p| == 3 then {IndexAt(t, ino, p, 2)} + {IndexAt(t, ino, p, 3)}
    else if |p| == 2 then {IndexAt(t, ino, p, 2)} else {}
  }

  ghost function RootBlock(t: Tree, ino: nat, n: nat): (b: nat)
    requires n < 1 + 128 + 16384
  {
    IndexAt(t, ino, TablePath(n), 1)
  }

  ghost function IndexAt(t: Tree, ino: nat, p: seq<nat>, k: nat): nat
    requires k <= |p|
  {
    if IsPath(p[..k]) then At(t, ino, p[..k]) else 0
  }

  ghost function DataBlocks(t: Tree, ino: nat, first: nat, n: nat): (s: set<nat>)
    requires first + n <= MAXFILE
    ensures |s| <= n
  {
    if n == 0 then {} else DataBlocks(t, ino, first, n - 1) + {At(t, ino, PathOf(first + n - 1)) as nat}
  }

  lemma PathWithin(bn: nat, k: nat, n: nat)
    requires NDIRECT <= bn < MAXFILE && 1 <= k < |PathOf(bn)| && n == TableOf(bn)
    ensures n < 1 + 128 + 16384 && k <= |TablePath(n)| && PathOf(bn)[..k] == TablePath(n)[..k]
  {
    PathThroughTable(bn);
  }

  /** A block along the path of bn is bn's data block or one of its index blocks. */
  lemma AlongParts(t: Tree, ino: nat, bn: nat, x: nat)
    requires bn < MAXFILE && x in Along(t, ino, PathOf(bn))
    ensures x == At(t, ino, PathOf(bn))
            || (NDIRECT <= bn && TableOf(bn) < 1 + 128 + 16384 && x in TableBlocks(t, ino, TableOf(bn)))
  {
    var p := PathOf(bn);
    var k :| 1 <= k <= |p| && At(t, ino, p[..k]) == x;
    hide At;
    if k == |p| {
      assert p[..k] == p;
    } else {
      PathWithin(bn, k, TableOf(bn));
      assert IndexAt(t, ino, TablePath(TableOf(bn)), k) == x;
      assert k == 1 || k == 2 || k == 3;
    }
  }

  lemma {:induction false} InDataBlocks(t: Tree, ino: nat, first: nat, n: nat, bn: nat)
    requires first + n <= MAXFILE && first <= bn < first + n
    ensures At(t, ino, PathOf(bn)) in DataBlocks(t, ino, first, n)
  {
    hide At, PathOf;
    if bn < first + n - 1 {
      InDataBlocks(t, ino, first, n - 1, bn);
    }
  }

  lemma SizeAdd(s: set<nat>, x: nat)
    ensures |s + {x}| <= |s| + 1
  {
    if x in s {
      assert s + {x} == s;
    }
  }

  lemma {:induction false} SizeUnion(a: set<nat>, b: set<nat>)
    ensures |a + b| <= |a| + |b|
  {
    if b != {} {
      var x :| x in b;
      SizeUnion(a, b - {x});
      SizeAdd(a + (b - {x}), x);
      assert a + b == a + (b - {x}) + {x};
    } else {
      assert a + b == a;
    }
  }

  lemma LowerSize(t: Tree, ino: nat, n: nat)
    requires n < 1 + 128 + 16384
    ensures |LowerBlocks(t, ino, n)| <= |TablePath(n)| - 1
  {
    var p := TablePath(n);
    hide IndexAt, TablePath;
    if |p| == 3 {
      SizeAdd({IndexAt(t, ino, p, 2)}, IndexAt(t, ino, p, 3));
    }
  }

  /** Two tables need at most five index blocks between them. */
  lemma FiveIndexBlocks(t: Tree, ino: nat, m: nat, n: nat)
    requires m < 1 + 128 + 16384 && n < 1 + 128 + 16384
    ensures |TableBlocks(t, ino, m) + TableBlocks(t, ino, n)| <= 5
  {
    LowerSize(t, ino, m);
    LowerSize(t, ino, n);
    SameRoot(t, ino, m, n);
    hide LowerBlocks, RootBlock, TablePath;
    UnionOfTwo(LowerBlocks(t, ino, m), RootBlock(t, ino, m), LowerBlocks(t, ino, n), RootBlock(t, ino, n));
  }

  /** Tables at the same depth start from the same address of the inode. */
  lemma SameRoot(t: Tree, ino: nat, m: nat, n: nat)
    requires m < 1 + 128 + 16384 && n < 1 + 128 + 16384
    ensures |TablePath(m)| + |TablePath(n)| <= 5 || RootBlock(t, ino, m) == RootBlock(t, ino, n)
  {
    var p, q := TablePath(m), TablePath(n);
    assert p[0] == q[0] ==> p[..1] == q[..1];
  }

  lemma UnionOfTwo(c: set<nat>, x: nat, e: set<nat>, y: nat)
    ensures |(c + {x}) + (e + {y})| <= |c| + |e| + if x == y then 1 else 2
  {
    SizeUnion(c, e);
    SizeAdd(c + e, x);
    SizeAdd(c + e + {x}, y);
    assert (c + {x}) + (e + {y}) == c + e + {x} + {y};
    if x == y {
      assert c + e + {x} + {y} == c + e + {x};
    }
  }

  /** A bitmap of FSSIZE blocks has three blocks. */
  lemma ThreeBitBlocks(sb: Super)
    requires SuperOk(sb) && sb.size <= FSSIZE
    ensures |BitBlocks(sb)| <= 3
  {
    var three: set<nat> := {sb.bmapstart, sb.bmapstart + 1, sb.bmapstart + 2};
    assert BitBlocks(sb) <= three;
    SubsetSize(BitBlocks(sb), three);
  }

  lemma {:induction false} SubsetSize(a: set<nat>, b: set<nat>)
    requires a <= b
    ensures |a| <= |b|
  {
    if a != {} {
      var x :| x in a;
      SubsetSize(a - {x}, b - {x});
    }
  }

  /** The index blocks a chunk can log, from its first and last block numbers. */
  ghost function ChunkIndex(t: Tree, ino: nat, first: nat, last: nat): (s: set<nat>)
    requires first <= last < MAXFILE
    ensures |s| <= 5
  {
    if last < NDIRECT then {}
    else
      PathThroughTable(last);
      var l := TableBlocks(t, ino, TableOf(last));
      if first < NDIRECT then
        FiveIndexBlocks(t, ino, TableOf(last), TableOf(last));
        assert l + l == l;
        l
      else
        PathThroughTable(first);
        FiveIndexBlocks(t, ino, TableOf(first), TableOf(last));
        TableBlocks(t, ino, TableOf(first)) + l
  }

  lemma OnChunkPath(t: Tree, ino: nat, first: nat, last: nat, x: nat)
    requires first < last <= first + 9 && last <= MAXFILE && OnSomePath(t, ino, first, last, x)
    ensures x in DataBlocks(t, ino, first, last - first) + ChunkIndex(t, ino, first, last - 1)
  {
    hide At, Along, TableBlocks;
    var bn :| first <= bn < last && bn < MAXFILE && x in Along(t, ino, PathOf(bn));
    AlongParts(t, ino, bn, x);
    if x == At(t, ino, PathOf(bn)) {
      InDataBlocks(t, ino, first, last - first, bn);
    } else {
      AtMostTwoTables(first, bn, last - 1);
    }
  }

  /** Below the triple indirect blocks a chunk meets at most three index blocks. */
  lemma ThreeIndexBlocks(t: Tree, ino: nat, first: nat, last: nat)
    requires first <= last < NDIRECT + NINDIRECT + NDINDIRECT
    ensures |ChunkIndex(t, ino, first, last)| <= 3
  {
    if last >= NDIRECT {
      PathThroughTable(last);
      var n := TableOf(last);
      var m := if first < NDIRECT then n else TableOf(first);
      assert m <= 128 && n <= 128;
      LowerSize(t, ino, m);
      LowerSize(t, ino, n);
      ShallowRoot(t, ino, m, n);
      UnionOfTwo(LowerBlocks(t, ino, m), RootBlock(t, ino, m), LowerBlocks(t, ino, n), RootBlock(t, ino, n));
      assert ChunkIndex(t, ino, first, last) == TableBlocks(t, ino, m) + TableBlocks(t, ino, n);
    }
  }

  lemma ShallowRoot(t: Tree, ino: nat, m: nat, n: nat)
    requires m <= 128 && n <= 128
    ensures |TablePath(m)| + |TablePath(n)| <= 3 || (|TablePath(m)| + |TablePath(n)| <= 4 && RootBlock(t, ino, m) == RootBlock(t, ino, n))
  {
    var p, q := TablePath(m), TablePath(n);
    assert p[0] == q[0] ==> p[..1] == q[..1];
  }

  /** A file without holes has no more blocks than the device. */
  lemma FewBlocks(t: Tree, sb: Super, ino: nat, size: nat, bn: nat)
    requires Owned(t, sb) && HoleFree(t, ino, size) && bn < MAXFILE && bn * BSIZE < size
    ensures bn < sb.size
  {
    hide At, PathOf;
    var s := seq(bn + 1, i requires 0 <= i <= bn => At(t, ino, PathOf(i)) as nat);
    forall i, j | 0 <= i < j < |s| ensures s[i] != s[j] {
      assert At(t, ino, PathOf(i)) != 0;
      if PathOf(i) == PathOf(j) {
        PathOfInjective(i, j);
      }
    }
    forall i | 0 <= i < |s| ensures s[i] < sb.size {
      assert At(t, ino, PathOf(i)) != 0;
    }
    Ring.DistinctBound(s, sb.size);
  }

  /** The blocks a chunk can log: data, index, bitmap and inode. */
  ghost function ChunkParts(sb: Super, t: Tree, ino: nat, first: nat, last: nat): (s: set<nat>)
    requires SuperOk(sb) && first < last <= MAXFILE
  {
    DataBlocks(t, ino, first, last - first) + ChunkIndex(t, ino, first, last - 1) + BitBlocks(sb) + {InodeBlock(sb, ino)}
  }

  lemma LoggedParts(sb: Super, t: Tree, ino: nat, first: nat, last: nat, base: set<nat>, logged: set<nat>)
    requires SuperOk(sb) && first < last <= first + 9 && last <= MAXFILE && base <= {InodeBlock(sb, ino)}
    requires LoggedAlong(sb, t, ino, first, last, base, logged)
    ensures logged <= ChunkParts(sb, t, ino, first, last)
  {
    hide DataBlocks, ChunkIndex, BitBlocks, InodeBlock, OnSomePath;
    forall x | x in logged ensures x in ChunkParts(sb, t, ino, first, last) {
      if x !in base && x !in BitBlocks(sb) {
        OnChunkPath(t, ino, first, last, x);
      }
    }
  }

  lemma PartsSize(sb: Super, t: Tree, ino: nat, first: nat, last: nat)
    requires SuperOk(sb) && sb.size <= FSSIZE && first < last <= MAXFILE
    ensures |ChunkParts(sb, t, ino, first, last)| <= last - first + |ChunkIndex(t, ino, first, last - 1)| + 3 + 1
  {
    var data, index := DataBlocks(t, ino, first, last - first), ChunkIndex(t, ino, first, last - 1);
    hide DataBlocks, ChunkIndex, BitBlocks, InodeBlock, SuperOk;
    SizeUnion(data, index);
    SizeUnion(data + index, BitBlocks(sb));
    SizeAdd(data + index + BitBlocks(sb), InodeBlock(sb, ino));
    ThreeBitBlocks(sb);
    DataSize(t, ino, first, last - first);
  }

  lemma ChunkSize(sb: Super, t: Tree, ino: nat, off: nat, n: nat, base: set<nat>, logged: set<nat>)
    requires SuperOk(sb) && sb.size <= FSSIZE && 0 < n <= CHUNK && off + n <= MAXBYTES && base <= {InodeBlock(sb, ino)}
    requires LoggedAlong(sb, t, ino, FirstBlock(off), Through(off, off + n), base, logged)
    ensures FirstBlock(off) < Through(off, off + n) <= MAXFILE
    ensures |logged| <= 9 + |ChunkIndex(t, ino, FirstBlock(off), Through(off, off + n) - 1)| + 3 + 1
  {
    hide *;
    ChunkBlocks(off, n);
    var first, last := FirstBlock(off), Through(off, off + n);
    LoggedParts(sb, t, ino, first, last, base, logged);
    PartsSize(sb, t, ino, first, last);
    SubsetSize(logged, ChunkParts(sb, t, ino, first, last));
  }

  lemma DataSize(t: Tree, ino: nat, first: nat, n: nat)
    requires first + n <= MAXFILE
    ensures |DataBlocks(t, ino, first, n)| <= n
  {
  }

  /** A chunk of filewrite logs at most 18 blocks, whatever the file: 9 data, 5
      index, 3 bitmap and 1 inode block. The transaction starts with nothing logged. */
  lemma ChunkFits(sb: Super, t: Tree, ino: nat, off: nat, n: nat, base: set<nat>, logged: set<nat>)
    requires SuperOk(sb) && sb.size <= FSSIZE && 0 < n <= CHUNK && off + n <= MAXBYTES && base <= {InodeBlock(sb, ino)}
    requires LoggedAlong(sb, t, ino, FirstBlock(off), Through(off, off + n), base, logged)
    ensures |logged| <= 18 < MAXOPBLOCKS
  {
    hide *;
    ChunkSize(sb, t, ino, off, n, base, logged);
    ChunkBlocks(off, n);
    IndexSize(t, ino, FirstBlock(off), Through(off, off + n) - 1);
  }

  lemma IndexSize(t: Tree, ino: nat, first: nat, last: nat)
    requires first <= last < MAXFILE
    ensures |ChunkIndex(t, ino, first, last)| <= 5
  {
  }

  /** In a file without holes there are at most 3 index blocks and 16 in all: the
      device is too small for triple indirect blocks. */
  lemma DenseChunkFits(sb: Super, t: Tree, ino: nat, off: nat, n: nat, size: nat, base: set<nat>, logged: set<nat>)
    requires Owned(t, sb) && SuperOk(sb) && sb.size <= FSSIZE && 0 < n <= CHUNK && off + n <= size <= MAXBYTES && base <= {InodeBlock(sb, ino)}
    requires HoleFree(t, ino, size)
    requires LoggedAlong(sb, t, ino, FirstBlock(off), Through(off, off + n), base, logged)
    ensures |logged| <= 16
  {
    hide *;
    ChunkSize(sb, t, ino, off, n, base, logged);
    ChunkBlocks(off, n);
    var last := Through(off, off + n) - 1;
    FewBlocks(t, sb, ino, size, last);
    ThreeIndexBlocks(t, ino, FirstBlock(off), last);
  }

  /** A chunk spans at most nine blocks. */
  lemma ChunkBlocks(off: nat, n: nat)
    requires 0 < n <= CHUNK && off + n <= MAXBYTES
    ensures FirstBlock(off) < Through(off, off + n) <= FirstBlock(off) + 9 && Through(off, off + n) <= MAXFILE
    ensures (Through(off, off + n) - 1) * BSIZE < off + n && MAXOPBLOCKS == 20 && FSSIZE < NDIRECT + NINDIRECT + NDINDIRECT
  {
  }
}
