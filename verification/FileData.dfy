/** A file as a string of bytes: what the block tree of its inode holds. */
module FileData {
  import opened Blocks
  import opened Bytes
  import opened InodeTree
  import opened Ownership

  const MAXBYTES := 1082201088   // MAXFILE * BSIZE

  /** Byte j of the file; a hole reads as zero. */
  function FileByte(t: Tree, ino: nat, j: nat): (v: byte)
    requires j < MAXBYTES
  {
    var a := At(t, ino, PathOf(j / BSIZE));
    if 0 < a < |t.disk| then GetByte(t.disk[a], j % BSIZE) else 0
  }

  function Content(t: Tree, ino: nat, size: nat): (s: seq<byte>)
    requires size <= MAXBYTES
    ensures |s| == size && forall j :: 0 <= j < size ==> s[j] == FileByte(t, ino, j)
  {
    seq<byte>(size, j requires 0 <= j < size => FileByte(t, ino, j))
  }

  /** Every block below the size is allocated. */
  ghost predicate HoleFree(t: Tree, ino: nat, size: nat) {
    forall bn :: 0 <= bn < MAXFILE && bn * BSIZE < size ==> At(t, ino, PathOf(bn)) != 0
  }

  /** Allocating blocks changes no file's bytes: a new block is zero, like the hole it fills. */
  lemma ExtendsBytes(t: Tree, t': Tree, ino: nat, p: seq<nat>, i: nat, j: nat)
    requires Extends(t, t', ino, p) && j < MAXBYTES
    requires InRange(t, 0) && InRange(t', 0)
    ensures FileByte(t', i, j) == FileByte(t, i, j)
  {
    var q := PathOf(j / BSIZE);
    if At(t, i, q) == 0 && At(t', i, q) != 0 {
      ZeroBytes(j % BSIZE);
    }
  }

  /** The tree after the data block at path q is overwritten. */
  function WithData(t: Tree, a: nat, b: Block): (r: Tree)
    requires a < |t.disk|
  {
    t.(disk := t.disk[a := b])
  }

  /** Overwriting a data block moves no block of any inode. */
  lemma {:induction false} WithDataAt(t: Tree, ino: nat, q: seq<nat>, b: Block, i: nat, p: seq<nat>)
    requires Injective(t) && InRange(t, 0) && IsData(q) && At(t, ino, q) != 0 && IsPath(p)
    ensures At(WithData(t, At(t, ino, q), b), i, p) == At(t, i, p)
    decreases |p|
  {
    if |p| > 1 && i in t.addrs {
      WithDataAt(t, ino, q, b, i, Parent(p));
      assert IsPath(Parent(p)) && Parent(p) != q;
    }
  }

  /** What a write into one block does to the bytes of every file. */
  lemma WithDataBytes(t: Tree, ino: nat, bn: nat, at: nat, src: seq<byte>, i: nat, j: nat)
    requires Injective(t) && InRange(t, 0) && bn < MAXFILE && At(t, ino, PathOf(bn)) != 0
    requires at + |src| <= BSIZE && j < MAXBYTES
    ensures var a := At(t, ino, PathOf(bn));
            var t' := WithData(t, a, PutBytes(t.disk[a], at, src));
            var start := bn * BSIZE + at;
            FileByte(t', i, j) == if i == ino && start <= j < start + |src| then src[j - start] else FileByte(t, i, j)
  {
    var q := PathOf(bn);
    var a := At(t, ino, q);
    var b := PutBytes(t.disk[a], at, src);
    var p := PathOf(j / BSIZE);
    WithDataAt(t, ino, q, b, i, p);
    if At(t, i, p) == a {
      assert i == ino && p == q;
      PathOfInjective(bn, j / BSIZE);
    } else if i == ino {
      assert j / BSIZE != bn;
    }
  }

  lemma WithDataOwned(t: Tree, sb: Super, ino: nat, q: seq<nat>, b: Block)
    requires Owned(t, sb) && IsData(q) && At(t, ino, q) != 0
    ensures Owned(WithData(t, At(t, ino, q), b), sb)
  {
    var t' := WithData(t, At(t, ino, q), b);
    forall i, p | IsPath(p) ensures At(t', i, p) == At(t, i, p) {
      WithDataAt(t, ino, q, b, i, p);
    }
    SameAtOwned(t, t', sb);
  }

  /** Ownership depends on where blocks are found and on the bitmap, not on file data. */
  lemma SameAtOwned(t: Tree, t': Tree, sb: Super)
    requires Owned(t, sb) && |t'.disk| == |t.disk|
    requires forall i, p :: IsPath(p) ==> At(t', i, p) == At(t, i, p)
    requires forall a :: 0 <= a < sb.datastart ==> t'.disk[a] == t.disk[a]
    ensures Owned(t', sb)
  {
    hide At;
    forall b | 0 <= b < sb.size
      ensures BitBlock(sb, b) < sb.size && (Used(t'.disk, sb, b) <==> b < sb.datastart || Reached(t', b))
    {
      BitBlockBelow(sb, b);
      SameReached(t, t', b);
    }
  }

  lemma SameReached(t: Tree, t': Tree, b: nat)
    requires forall i, p :: IsPath(p) ==> At(t', i, p) == At(t, i, p)
    ensures Reached(t', b) <==> Reached(t, b)
  {
    hide At;
    if Reached(t, b) {
      var i, p :| IsPath(p) && At(t, i, p) == b;
      assert At(t', i, p) == b;
    }
    if Reached(t', b) {
      var i, p :| IsPath(p) && At(t', i, p) == b;
      assert At(t, i, p) == b;
    }
  }
}
