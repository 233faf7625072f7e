/** What stands where on the disk (includes/kernel/fs.h, kernel/log.c, tools/mkfs.c), by
    block number, byte offset and bit: the layouts that the kernel and mkfs share. */
module Formats {
  import opened Blocks
  import opened Bytes
  import opened InodeTree
  import opened Ownership
  import opened FileData
  import CrashSpec
  import Dinodes
  import Fs
  import Mkfs

  /** A word is its four bytes, the least significant first. */
  lemma WordIsBytes(w: word)
    ensures w == WordByte(w, 0) + 0x100 * WordByte(w, 1) + 0x1_0000 * WordByte(w, 2) + 0x100_0000 * WordByte(w, 3)
  {
    var a := w / 256;
    var b := a / 256;
    assert w == 256 * a + w % 256 && a == 256 * b + a % 256 && b == 256 * (b / 256) + b % 256;
  }

  /** Byte j of a file is byte j % 512 of the file's block number j / 512. */
  lemma FileByteAt(t: Tree, ino: nat, j: nat)
    requires j < MAXBYTES && 0 < At(t, ino, PathOf(j / 512)) < |t.disk|
    ensures var w := t.disk[At(t, ino, PathOf(j / 512))][j % 512 / 4];
            FileByte(t, ino, j) == w / (if j % 4 == 0 then 1 else if j % 4 == 1 then 0x100 else if j % 4 == 2 then 0x1_0000 else 0x100_0000) % 256
  {
    var w := t.disk[At(t, ino, PathOf(j / 512))][j % 512 / 4];
    assert j % 512 % 4 == j % 4;
    hide At, PathOf;
    Shifts(w);
  }

  lemma Shifts(w: word)
    ensures w / 0x1_0000 == w / 256 / 256 && w / 0x100_0000 == w / 256 / 256 / 256 < 256
  {
  }

  /** A write as writei makes it, byte by byte: the new bytes from off on, the old ones
      before and after, and the size as large as either. */
  lemma SpliceBytes(s: seq<byte>, off: nat, src: seq<byte>, j: nat)
    requires off <= |s|
    ensures |Fs.SpliceAt(s, off, src)| == if off + |src| > |s| then off + |src| else |s|
    ensures j < |Fs.SpliceAt(s, off, src)| ==> Fs.SpliceAt(s, off, src)[j] == if off <= j < off + |src| then src[j - off] else s[j]
    ensures Fs.SpliceAt(s, off, src)[off..off + |src|] == src
  {
  }

  function Power(i: nat): (p: nat)
    ensures p > 0
  {
    if i == 0 then 1 else 2 * Power(i - 1)
  }

  lemma {:induction false} BitByDivision(x: nat, i: nat)
    ensures TestBit(x, i) <==> x / Power(i) % 2 == 1
  {
    if i > 0 {
      BitByDivision(x / 2, i - 1);
      DivideTwice(x, Power(i - 1));
    }
  }

  lemma DivideTwice(x: nat, p: nat)
    requires p > 0
    ensures x / 2 / p == x / (2 * p)
  {
    var q, r := x / (2 * p), x % (2 * p);
    assert x == 2 * p * q + r && 0 <= r < 2 * p;
    assert x == 2 * (p * q) + r;
    assert x / 2 == p * q + r / 2 && 0 <= r / 2 < p;
    Quotient(p, q, r / 2);
  }

  lemma Quotient(p: nat, q: nat, r: nat)
    requires r < p
    ensures (p * q + r) / p == q
  {
    var n := p * q + r;
    var m := n / p;
    assert n == p * m + n % p;
    if m < q {
      Times(p, m + 1, q);
    } else if q < m {
      Times(p, q + 1, m);
    }
  }

  lemma Times(p: nat, a: nat, b: nat)
    requires a <= b
    ensures p * a <= p * b
  {
  }

  /** The bit of block b is bit b % 8 of byte b / 8, counted over the bitmap's blocks. */
  lemma BitmapBit(disk: seq<Block>, sb: Super, b: nat)
    requires b / 4096 + sb.bmapstart < |disk|
    ensures Used(disk, sb, b) <==> GetByte(disk[b / 4096 + sb.bmapstart], b % 4096 / 8) / Power(b % 8) % 2 == 1
  {
    BitPlace(b);
    hide GetByte, TestBit, Power;
    BitByDivision(GetByte(disk[b / 4096 + sb.bmapstart], b % 4096 / 8), b % 8);
  }

  lemma BitPlace(b: nat)
    ensures b % 4096 % 8 == b % 8 && b % 4096 / 8 < 512
  {
  }

  /** The log's header block: the count, and then the block numbers. */
  lemma {:induction false} HeaderWords(b: Block, bs: seq<word>, k: nat)
    requires k <= |bs| <= CrashSpec.LOGSIZE
    ensures var r := CrashSpec.PutNumbers(b[0 := |bs|], bs, k);
            r[0] == |bs| && forall i :: 1 <= i < WORDS ==> r[i] == if i <= k then bs[i - 1] else b[i]
    decreases k
  {
    if k > 0 {
      HeaderWords(b, bs, k - 1);
    }
  }

  /** Committed data of block i of a transaction stand in block start + 1 + i of the log,
      the header in block start, and nothing else is written. */
  lemma {:induction false} LogBlocks(l: CrashSpec.Layout, d: CrashSpec.Disk, data: seq<Block>, k: nat, id: CrashSpec.BlockId)
    requires k <= |data| && id in d
    ensures id in CrashSpec.Logged(l, d, data, k)
    ensures CrashSpec.Logged(l, d, data, k)[id] ==
            if id.dev == l.dev && l.start + 1 <= id.no < l.start + 1 + k then data[id.no - l.start - 1] else d[id]
    decreases k
  {
    if k > 0 {
      LogBlocks(l, d, data, k - 1, id);
    }
  }

  // ----- inodes -----

  /** Byte k of a run of words. */
  function ByteIn(ws: seq<word>, k: nat): byte
    requires k / 4 < |ws|
  {
    WordByte(ws[k / 4], k % 4)
  }

  function HalfIn(ws: seq<word>, k: nat): nat
    requires (k + 1) / 4 < |ws|
  {
    ByteIn(ws, k) + 256 * ByteIn(ws, k + 1)
  }

  function WordIn(ws: seq<word>, k: nat): nat
    requires (k + 3) / 4 < |ws|
  {
    HalfIn(ws, k) + 0x1_0000 * HalfIn(ws, k + 2)
  }

  lemma HalfOf(lo: nat, hi: nat)
    requires lo < 0x1_0000 && hi < 0x1_0000
    ensures var w: word := lo + 0x1_0000 * hi;
            WordByte(w, 0) + 256 * WordByte(w, 1) == lo && WordByte(w, 2) + 256 * WordByte(w, 3) == hi
  {
    var w: word := lo + 0x1_0000 * hi;
    assert w / 256 == lo / 256 + 256 * hi && w / 256 / 256 == hi;
  }

  /** struct dinode, by byte offset. */
  lemma DinodeBytes(d: Dinodes.Dinode, k: nat)
    requires k < NADDRS
    ensures var ws := Dinodes.Pack(d);
            && HalfIn(ws, 0) == Dinodes.Half(d.kind) && HalfIn(ws, 2) == Dinodes.Half(d.major) && HalfIn(ws, 4) == Dinodes.Half(d.minor)
            && HalfIn(ws, 6) == Dinodes.Half(d.nlink) && WordIn(ws, 8) == d.size && WordIn(ws, 12 + 4 * k) == d.addrs[k]
            && WordIn(ws, 64) == d.atime && WordIn(ws, 68) == d.mtime
  {
    var ws := Dinodes.Pack(d);
    HalfOf(Dinodes.Half(d.kind), Dinodes.Half(d.major));
    HalfOf(Dinodes.Half(d.minor), Dinodes.Half(d.nlink));
    assert ws[3 + k] == d.addrs[k];
    WordInIs(ws, 2);
    WordInIs(ws, 3 + k);
    WordInIs(ws, 16);
    WordInIs(ws, 17);
    assert ws[0] == Dinodes.Pair(d.kind, d.major) && ws[1] == Dinodes.Pair(d.minor, d.nlink);
  }

  lemma WordInIs(ws: seq<word>, i: nat)
    requires i < |ws|
    ensures WordIn(ws, 4 * i) == ws[i]
  {
    WordIsBytes(ws[i]);
    assert (4 * i + 3) / 4 == i && 4 * i / 4 == i && (4 * i + 1) / 4 == i && (4 * i + 2) / 4 == i;
    assert 4 * i % 4 == 0 && (4 * i + 1) % 4 == 1 && (4 * i + 2) % 4 == 2 && (4 * i + 3) % 4 == 3;
    hide WordByte;
  }

  /** A negative short is its two's complement. */
  lemma HalfIs(x: Dinodes.short)
    ensures Dinodes.Half(x) == x % 0x1_0000
  {
  }

  /** Inode i is 72 bytes at offset 72 * (i % 7) of block i / 7 of the inode area. */
  lemma InodePlace(disk: seq<Block>, start: nat, i: nat)
    requires i / 7 + start < |disk|
    ensures 72 * (i % 7) + 72 <= BSIZE
    ensures Dinodes.Pack(Dinodes.OnDisk(disk, start, i)) == disk[i / 7 + start][18 * (i % 7)..18 * (i % 7) + 18]
  {
    Dinodes.PackUnpack(disk[i / 7 + start][18 * (i % 7)..18 * (i % 7) + 18]);
  }

  /** struct superblock, by byte offset. */
  lemma SuperBytes(s: Mkfs.SuperBlock)
    ensures var b := Mkfs.SuperWords(s);
            && WordIn(b, 0) == s.size && WordIn(b, 4) == s.nblocks && WordIn(b, 8) == s.ninodes && WordIn(b, 12) == s.nlog
            && WordIn(b, 16) == s.logstart && WordIn(b, 20) == s.inodestart && WordIn(b, 24) == s.bmapstart
  {
    var b := Mkfs.SuperWords(s);
    WordInIs(b, 0);
    WordInIs(b, 1);
    WordInIs(b, 2);
    WordInIs(b, 3);
    WordInIs(b, 4);
    WordInIs(b, 5);
    WordInIs(b, 6);
  }
}
