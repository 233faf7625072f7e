/** Inodes on disk (kernel/fs.c, tools/mkfs.c): seven to a block, 18 words each, and
    the three operations that touch them, ialloc, iupdate and ilock, updating the
    blocks in place word by word. */
module Dinodes {
  import opened Options
  import opened Blocks
  import opened InodeTree

  const IPB := 7           // inodes per block
  const DWORDS := 18       // words per inode

  type short = x: int | -0x8000 <= x < 0x8000

  /** struct dinode. Times are kept as words. */
  datatype Dinode = Dinode(kind: short, major: short, minor: short, nlink: short, size: word, addrs: Addrs, atime: word, mtime: word)

  // ----- two shorts in a word -----

  function Half(x: short): nat { if x < 0 then x + 0x1_0000 else x }

  function Short(h: nat): short
    requires h < 0x1_0000
  {
    if h < 0x8000 then h else h - 0x1_0000
  }

  function Pair(lo: short, hi: short): word { Half(lo) + 0x1_0000 * Half(hi) }

  function Low(w: word): short { Short(w % 0x1_0000) }

  function High(w: word): short { Short(w / 0x1_0000) }

  lemma PairParts(lo: short, hi: short)
    ensures Low(Pair(lo, hi)) == lo && High(Pair(lo, hi)) == hi
  {
  }

  lemma PairBack(w: word)
    ensures Pair(Low(w), High(w)) == w
  {
  }

  // ----- an inode as words -----

  function Pack(d: Dinode): (ws: seq<word>)
    ensures |ws| == DWORDS
  {
    [Pair(d.kind, d.major), Pair(d.minor, d.nlink), d.size] + d.addrs + [d.atime, d.mtime]
  }

  function Unpack(ws: seq<word>): (d: Dinode)
    requires |ws| == DWORDS
  {
    Dinode(Low(ws[0]), High(ws[0]), Low(ws[1]), High(ws[1]), ws[2], ws[3..16], ws[16], ws[17])
  }

  lemma UnpackPack(d: Dinode)
    ensures Unpack(Pack(d)) == d
  {
    PairParts(d.kind, d.major);
    PairParts(d.minor, d.nlink);
    assert Pack(d)[3..16] == d.addrs;
  }

  lemma PackUnpack(ws: seq<word>)
    requires |ws| == DWORDS
    ensures Pack(Unpack(ws)) == ws
  {
    PairBack(ws[0]);
    PairBack(ws[1]);
  }

  // ----- the inode blocks -----

  /** IBLOCK(i, sb) */
  function BlockOf(start: nat, i: nat): nat { i / IPB + start }

  /** Where inode i begins in its block. */
  function Place(i: nat): (k: nat)
    ensures k + DWORDS <= WORDS
  {
    DWORDS * (i % IPB)
  }

  function OnDisk(disk: seq<Block>, start: nat, i: nat): Dinode
    requires BlockOf(start, i) < |disk|
  {
    Unpack(disk[BlockOf(start, i)][Place(i)..Place(i) + DWORDS])
  }

  /** Two inodes never share a word. */
  lemma PlacesApart(start: nat, i: nat, j: nat)
    requires i != j
    ensures BlockOf(start, i) != BlockOf(start, j) || Place(i) + DWORDS <= Place(j) || Place(j) + DWORDS <= Place(i)
  {
    if i / IPB == j / IPB {
      assert i % IPB != j % IPB;
    }
  }

  /** A block with new words from k on. */
  function Laid(b: Block, k: nat, ws: seq<word>): (r: Block)
    requires k + |ws| <= WORDS
    ensures r[k..k + |ws|] == ws
    ensures forall m, n :: 0 <= m <= n <= WORDS && (n <= k || k + |ws| <= m) ==> r[m..n] == b[m..n]
  {
    b[..k] + ws + b[k + |ws|..]
  }

  /** Rewriting one inode's words changes that inode and no other. */
  lemma OneInode(disk: seq<Block>, start: nat, i: nat, d: Dinode, j: nat)
    requires BlockOf(start, i) < |disk| && BlockOf(start, j) < |disk|
    ensures var disk' := disk[BlockOf(start, i) := Laid(disk[BlockOf(start, i)], Place(i), Pack(d))];
            OnDisk(disk', start, j) == if j == i then d else OnDisk(disk, start, j)
  {
    UnpackPack(d);
    if j != i {
      PlacesApart(start, i, j);
    }
  }

  // ----- in memory and on disk -----

  const CORE := NDIRECT + 1    // addresses the inode in memory declares
  const ATIME := CORE          // and the words that follow them
  const MTIME := CORE + 1

  /** struct inode: the declared addresses and then the two times. The code that uses
      the addresses uses two more than are declared, which are the times. */
  datatype Inode = Inode(kind: short, major: short, minor: short, nlink: short, size: word, words: Addrs)

  /** What iupdate makes of the inode on disk. */
  function Stored(ip: Inode, was: Dinode): Dinode {
    Dinode(ip.kind, ip.major, ip.minor, ip.nlink, ip.size, ip.words[..CORE] + was.addrs[CORE..], ip.words[ATIME], ip.words[MTIME])
  }

  /** What ilock makes of it. */
  function Loaded(d: Dinode): Inode {
    Inode(d.kind, d.major, d.minor, d.nlink, d.size, d.addrs[..CORE] + [d.atime, d.mtime])
  }

  /** iupdate and then ilock, into whichever cache entry: all the words are back. */
  lemma LoadStored(ip: Inode, was: Dinode)
    ensures Loaded(Stored(ip, was)) == ip
  {
    assert Stored(ip, was).addrs[..CORE] == ip.words[..CORE];
    assert ip.words == ip.words[..CORE] + [ip.words[ATIME], ip.words[MTIME]];
  }

  /** ilock and then iupdate changes nothing on disk. */
  lemma StoreLoaded(d: Dinode)
    ensures Stored(Loaded(d), d) == d
  {
    assert Loaded(d).words[..CORE] == d.addrs[..CORE];
    assert d.addrs == d.addrs[..CORE] + d.addrs[CORE..];
  }

  /** The addresses on disk are those in memory exactly if the last two are the times. */
  lemma LoadedIff(d: Dinode)
    ensures Loaded(d).words == d.addrs <==> d.addrs[ATIME] == d.atime && d.addrs[MTIME] == d.mtime
  {
    assert d.addrs == d.addrs[..CORE] + [d.addrs[ATIME], d.addrs[MTIME]];
    assert Loaded(d).words[ATIME] == d.atime && Loaded(d).words[MTIME] == d.mtime;
  }

  /** readi and writei set a time: the address in that slot becomes the clock. */
  function Stamped(t: Tree, ino: nat, slot: nat, now: word): Tree
    requires ino in t.addrs && slot < NADDRS
  {
    t.(addrs := t.addrs[ino := t.addrs[ino][slot := now]])
  }

  /** What is not reached through the slot stays where it was. */
  lemma {:induction false} StampedAt(t: Tree, ino: nat, slot: nat, now: word, i: nat, p: seq<nat>)
    requires ino in t.addrs && slot < NADDRS && IsPath(p) && (i != ino || p[0] != slot || t.addrs[ino][slot] == now)
    ensures At(Stamped(t, ino, slot, now), i, p) == At(t, i, p)
    decreases |p|
  {
    if |p| > 1 {
      StampedAt(t, ino, slot, now, i, Parent(p));
    }
  }

  /** The block trees survive the time exactly if the address is the time. */
  lemma StampedIff(t: Tree, ino: nat, slot: nat, now: word)
    requires ino in t.addrs && slot < NADDRS
    ensures (forall i, p :: IsPath(p) ==> At(Stamped(t, ino, slot, now), i, p) == At(t, i, p)) <==> t.addrs[ino][slot] == now
  {
    var t' := Stamped(t, ino, slot, now);
    if t.addrs[ino][slot] == now {
      forall i, p | IsPath(p) ensures At(t', i, p) == At(t, i, p) {
        StampedAt(t, ino, slot, now, i, p);
      }
    } else {
      assert IsPath([slot]) && At(t', ino, [slot]) != At(t, ino, [slot]);
    }
  }

  /** The first NDIRECT + NINDIRECT blocks of a file do survive. */
  lemma StampedBelow(t: Tree, ino: nat, slot: nat, now: word, i: nat, bn: nat)
    requires ino in t.addrs && ATIME <= slot <= MTIME && bn < NDIRECT + NINDIRECT
    ensures At(Stamped(t, ino, slot, now), i, PathOf(bn)) == At(t, i, PathOf(bn))
  {
    StampedAt(t, ino, slot, now, i, PathOf(bn));
  }

  /** A clock that shows anything but 0 or the number of a block in the data region
      leaves an address outside it; at 0 it leaves none. */
  lemma StampedInRange(t: Tree, ino: nat, slot: nat, now: word, lo: nat)
    requires ino in t.addrs && ATIME <= slot <= MTIME && InRange(t, lo)
    ensures InRange(Stamped(t, ino, slot, now), lo) ==> now == 0 || lo <= now < |t.disk|
    ensures now == 0 ==> InRange(Stamped(t, ino, slot, now), lo)
  {
    var t' := Stamped(t, ino, slot, now);
    assert IsPath([slot]) && At(t', ino, [slot]) == now;
    if now == 0 {
      forall i, p | IsPath(p) && At(t', i, p) != 0 ensures lo <= At(t', i, p) < |t'.disk| {
        if i == ino && p[0] == slot {
          NothingUnder(t', ino, p);
        } else {
          StampedAt(t, ino, slot, now, i, p);
        }
      }
    }
  }

  /** Block NDIRECT + NINDIRECT of a file is block 7 of the device, until a readi at
      second 1000: then it is no block at all. */
  lemma ReadLosesBlock() returns (t: Tree)
    ensures 1 in t.addrs && At(t, 1, PathOf(NDIRECT + NINDIRECT)) == 7
    ensures At(Stamped(t, 1, ATIME, 1000), 1, PathOf(NDIRECT + NINDIRECT)) == 0
  {
    var zero: Block := seq(WORDS, _ => 0);
    var addrs: Addrs := seq(NADDRS, _ => 0);
    t := Tree([zero, zero, zero, zero, zero, zero[0 := 6], zero[0 := 7], zero], map[1 := addrs[ATIME := 5]]);
    var p := PathOf(NDIRECT + NINDIRECT);
    assert p == [ATIME, 0, 0] && Parent(p) == [ATIME, 0] && Parent(Parent(p)) == [ATIME];
    var t' := Stamped(t, 1, ATIME, 1000);
    assert At(t, 1, [ATIME]) == 5 && At(t, 1, [ATIME, 0]) == 6;
    assert At(t', 1, [ATIME]) == 1000 && At(t', 1, [ATIME, 0]) == 0;
  }

  lemma {:induction false} NothingUnder(t: Tree, ino: nat, p: seq<nat>)
    requires ino in t.addrs && IsPath(p) && t.addrs[ino][p[0]] == 0
    ensures At(t, ino, p) == 0
    decreases |p|
  {
    if |p| > 1 {
      NothingUnder(t, ino, Parent(p));
    }
  }

  /** A block whose words from k on are those of an inode. */
  lemma LaidIs(b: Block, b': Block, k: nat, ws: seq<word>)
    requires k + |ws| <= WORDS && (forall m :: 0 <= m < |ws| ==> b'[k + m] == ws[m])
    requires forall m :: 0 <= m < WORDS && !(k <= m < k + |ws|) ==> b'[m] == b[m]
    ensures b' == Laid(b, k, ws)
  {
    forall m | 0 <= m < WORDS ensures b'[m] == Laid(b, k, ws)[m] {
      if k <= m < k + |ws| {
        assert b'[k + (m - k)] == ws[m - k];
      }
    }
  }

  function Fresh(kind: short): Dinode {
    Dinode(kind, 0, 0, 0, 0, seq(NADDRS, _ => 0), 0, 0)
  }

  lemma FreshWords(kind: short)
    ensures forall m :: 0 <= m < DWORDS ==> Pack(Fresh(kind))[m] == if m == 0 then Pair(kind, 0) else 0
  {
  }

  lemma ClaimedIs(b: Block, r: Block, p: nat, kind: short)
    requires p + DWORDS <= WORDS
    requires forall m :: 0 <= m < WORDS ==> r[m] == if m == p then Pair(kind, 0) else if p <= m < p + DWORDS then 0 else b[m]
    ensures r == Laid(b, p, Pack(Fresh(kind)))
  {
    FreshWords(kind);
    hide Fresh, Pair;
    var ws := Pack(Fresh(kind));
    forall m | 0 <= m < |ws| ensures r[p + m] == ws[m] {
    }
    LaidIs(b, r, p, ws);
  }

  /** Word m of the inode's block after iupdate; the inode begins at p. */
  function Updated(ip: Inode, was: Block, p: nat, m: nat): word
    requires m < WORDS
  {
    if m == p then Pair(ip.kind, ip.major)
    else if m == p + 1 then Pair(ip.minor, ip.nlink)
    else if m == p + 2 then ip.size
    else if p + 3 <= m < p + 3 + CORE then ip.words[m - p - 3]
    else if m == p + 16 then ip.words[ATIME]
    else if m == p + 17 then ip.words[MTIME]
    else was[m]
  }

  lemma UpdatedIs(disk: seq<Block>, start: nat, i: nat, b: Block, ip: Inode)
    requires BlockOf(start, i) < |disk|
    requires forall m :: 0 <= m < WORDS ==> b[m] == Updated(ip, disk[BlockOf(start, i)], Place(i), m)
    ensures b == Laid(disk[BlockOf(start, i)], Place(i), Pack(Stored(ip, OnDisk(disk, start, i))))
  {
    hide Pair, Laid;
    var p, d := Place(i), OnDisk(disk, start, i);
    var ws := Pack(Stored(ip, d));
    forall m | 0 <= m < |ws| ensures b[p + m] == ws[m] {
      if 3 <= m < 16 {
        assert ws[m] == Stored(ip, d).addrs[m - 3];
        assert d.addrs[m - 3] == disk[BlockOf(start, i)][p..p + DWORDS][m];
      }
    }
    LaidIs(disk[BlockOf(start, i)], b, p, ws);
  }

  /** memset of an inode. */
  method Cleared(b: Block, p: nat) returns (r: Block)
    requires p + DWORDS <= WORDS
    ensures forall m :: 0 <= m < WORDS ==> r[m] == if p <= m < p + DWORDS then 0 else b[m]
  {
    r := b;
    var n := 0;
    while n < DWORDS
      invariant 0 <= n <= DWORDS
      invariant forall m :: 0 <= m < WORDS ==> r[m] == if p <= m < p + n then 0 else b[m]
    {
      r := r[p + n := 0];
      n := n + 1;
    }
  }

  lemma KindAt(disk: seq<Block>, start: nat, i: nat)
    requires BlockOf(start, i) < |disk|
    ensures Low(disk[BlockOf(start, i)][Place(i)]) == OnDisk(disk, start, i).kind
  {
  }

  lemma WordsLoaded(b: Block, p: nat, words: Addrs)
    requires p + DWORDS <= WORDS
    requires forall m :: 0 <= m < NADDRS ==> words[m] == if m < CORE then b[p + 3 + m] else b[p + 5 + m]
    ensures words == Loaded(Unpack(b[p..p + DWORDS])).words
  {
    var d := Unpack(b[p..p + DWORDS]);
    forall m | 0 <= m < NADDRS ensures words[m] == Loaded(d).words[m] {
      if m < CORE {
        assert d.addrs[m] == b[p..p + DWORDS][3 + m];
      }
    }
  }

  class InodeStore {
    const start: nat       // sb.inodestart
    const ninodes: nat
    var disk: seq<Block>

    constructor (start: nat, ninodes: nat, disk: seq<Block>)
      requires forall i :: 0 <= i < ninodes ==> BlockOf(start, i) < |disk|
      ensures Valid() && this.start == start && this.ninodes == ninodes && this.disk == disk
    {
      this.start := start;
      this.ninodes := ninodes;
      this.disk := disk;
    }

    ghost predicate Valid()
      reads this
    {
      forall i :: 0 <= i < ninodes ==> BlockOf(start, i) < |disk|
    }

    /** iupdate: the inode on disk takes the fields, the declared addresses and the
        times, and no other inode and no other block changes. */
    method Iupdate(i: nat, ip: Inode)
      requires Valid() && i < ninodes
      modifies this
      ensures Valid() && |disk| == old(|disk|)
      ensures forall j :: 0 <= j < ninodes ==>
                OnDisk(disk, start, j) == if j == i then Stored(ip, OnDisk(old(disk), start, i)) else OnDisk(old(disk), start, j)
      ensures forall a :: 0 <= a < |disk| && a != BlockOf(start, i) ==> disk[a] == old(disk)[a]
    {
      hide OnDisk, Stored, Pack, Laid, Pair;
      var blk, p := BlockOf(start, i), Place(i);
      var b: Block := disk[blk];
      b := b[p := Pair(ip.kind, ip.major)];
      b := b[p + 1 := Pair(ip.minor, ip.nlink)];
      b := b[p + 2 := ip.size];
      b := b[p + 16 := ip.words[ATIME]];
      b := b[p + 17 := ip.words[MTIME]];
      b := CopyAddrs(b, p + 3, ip.words);
      ghost var disk0 := disk;
      ghost var now := Stored(ip, OnDisk(disk, start, i));
      UpdatedIs(disk, start, i, b, ip);
      disk := disk[blk := b];
      forall j | 0 <= j < ninodes
        ensures OnDisk(disk, start, j) == if j == i then now else OnDisk(disk0, start, j)
      {
        OneInode(disk0, start, i, now, j);
      }
    }

    /** iupdate's memmove, of the size of the declared addresses. */
    method CopyAddrs(b: Block, k: nat, words: Addrs) returns (r: Block)
      requires k + NADDRS <= WORDS
      ensures forall m :: 0 <= m < WORDS ==> r[m] == if k <= m < k + CORE then words[m - k] else b[m]
    {
      r := b;
      var n := 0;
      while n < CORE
        invariant 0 <= n <= CORE
        invariant forall m :: 0 <= m < WORDS ==> r[m] == if k <= m < k + n then words[m - k] else b[m]
      {
        r := r[k + n := words[n]];
        n := n + 1;
      }
    }

    /** ilock of an entry that is not valid yet: what the inode on disk says, whatever
        the entry held. `None` is the panic "ilock: no type". */
    method Ilock(i: nat, entry: Inode) returns (r: Option<Inode>)
      requires Valid() && i < ninodes
      ensures r.None? <==> OnDisk(disk, start, i).kind == 0
      ensures r.Some? ==> r.value == Loaded(OnDisk(disk, start, i))
    {
      var b, p := disk[BlockOf(start, i)], Place(i);
      var words: Addrs := entry.words[MTIME := b[p + 17]][ATIME := b[p + 16]];
      var n := 0;
      while n < CORE
        invariant 0 <= n <= CORE
        invariant forall m :: 0 <= m < n ==> words[m] == b[p + 3 + m]
        invariant words[ATIME] == b[p + 16] && words[MTIME] == b[p + 17]
      {
        words := words[n := b[p + 3 + n]];
        n := n + 1;
      }
      WordsLoaded(b, p, words);
      var ip := Inode(Low(b[p]), High(b[p]), Low(b[p + 1]), High(b[p + 1]), b[p + 2], words);
      r := if ip.kind == 0 then None else Some(ip);
    }

    /** The inode is zeroed and given its kind. */
    method Claim(i: nat, kind: short)
      requires Valid() && i < ninodes
      modifies this
      ensures Valid() && |disk| == old(|disk|)
      ensures forall j :: 0 <= j < ninodes ==> OnDisk(disk, start, j) == if j == i then Fresh(kind) else OnDisk(old(disk), start, j)
      ensures forall a :: 0 <= a < |disk| && a != BlockOf(start, i) ==> disk[a] == old(disk)[a]
    {
      hide OnDisk, Fresh, Pack, Laid, Pair;
      var blk, p := BlockOf(start, i), Place(i);
      var b := Cleared(disk[blk], p);
      b := b[p := Pair(kind, 0)];
      ClaimedIs(disk[blk], b, p, kind);
      ghost var disk0 := disk;
      disk := disk[blk := b];
      forall j | 0 <= j < ninodes
        ensures OnDisk(disk, start, j) == if j == i then Fresh(kind) else OnDisk(disk0, start, j)
      {
        OneInode(disk0, start, i, Fresh(kind), j);
      }
    }

    /** ialloc: the first free inode becomes an empty one of that kind. `None` is the
        panic "ialloc: no inodes". */
    method Ialloc(kind: short) returns (r: Option<nat>)
      requires Valid()
      modifies this
      ensures Valid() && |disk| == old(|disk|)
      ensures r.None? ==> disk == old(disk) && forall j :: 1 <= j < ninodes ==> OnDisk(disk, start, j).kind != 0
      ensures r.Some? ==> 1 <= r.value < ninodes && OnDisk(old(disk), start, r.value).kind == 0
      ensures r.Some? ==> forall j :: 1 <= j < r.value ==> OnDisk(old(disk), start, j).kind != 0
      ensures r.Some? ==> forall j :: 0 <= j < ninodes ==>
                OnDisk(disk, start, j) == if j == r.value then Fresh(kind) else OnDisk(old(disk), start, j)
      ensures r.Some? ==> forall a :: 0 <= a < |disk| && a != BlockOf(start, r.value) ==> disk[a] == old(disk)[a]
    {
      hide OnDisk, BlockOf, Low;
      var i := 1;
      while i < ninodes
        invariant Valid() && 1 <= i && disk == old(disk)
        invariant forall j :: 1 <= j < i && j < ninodes ==> OnDisk(disk, start, j).kind != 0
      {
        KindAt(disk, start, i);
        if Low(disk[BlockOf(start, i)][Place(i)]) == 0 {
          Claim(i, kind);
          return Some(i);
        }
        i := i + 1;
      }
      r := None;
    }
  }
}
