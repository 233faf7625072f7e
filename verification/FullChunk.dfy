/** The bound of LogBudget.DenseChunkFits is reached: a file system and a chunk of
    filewrite that logs 16 blocks.

    Inode i has the 139 blocks from 94 + 139 (i - 1) on: ten direct ones, the single
    indirect block and its 128 entries. Together they fill the device but for ten
    blocks: the last four entries of inode 1, and three blocks in each of the other
    two parts of the bitmap. The chunk begins in the middle of block 133 of inode 1
    and ends in block 141, so it needs exactly the ten. */
module FullChunk {
  import opened Blocks
  import opened Bytes
  import opened InodeTree
  import opened Ownership
  import opened FileData
  import opened Fs
  import opened LogBudget
  import Ring

  const INODES := 72
  const SIZE := 68097        // 133 blocks and one byte

  function Sb(): Super { Super(FSSIZE, 62, 91, 94) }

  predicate IsFree(a: nat) {
    229 <= a <= 232 || 5000 <= a <= 5002 || 9001 <= a <= 9003
  }

  /** Block r of inode i, 0 where the device ends and for the free ones. */
  function Addr(i: nat, r: nat): word {
    var a := 94 + 139 * (i - 1) + r;
    if 94 <= a < FSSIZE && !IsFree(a) then a else 0
  }

  function InodeAddrs(i: nat): Addrs {
    seq(NADDRS, k requires 0 <= k < NADDRS => if k <= NDIRECT then Addr(i, k) else 0)
  }

  function Table(i: nat): Block {
    seq(WORDS, e requires 0 <= e < WORDS => Addr(i, 11 + e))
  }

  ghost predicate Laid(t: Tree) {
    && |t.disk| == FSSIZE && (forall i :: i in t.addrs <==> 1 <= i <= INODES)
    && (forall i :: 1 <= i <= INODES ==> t.addrs[i] == InodeAddrs(i) && t.disk[104 + 139 * (i - 1)] == Table(i))
  }

  /** What is found at path p of inode i. */
  function Spot(i: nat, p: seq<nat>): word
    requires IsPath(p)
  {
    if !(1 <= i <= INODES) then 0
    else if |p| == 1 && p[0] <= NDIRECT then Addr(i, p[0])
    else if |p| == 2 && p[0] == NDIRECT then Addr(i, 11 + p[1])
    else 0
  }

  lemma LaidAt(t: Tree, i: nat, p: seq<nat>)
    requires Laid(t) && IsPath(p)
    ensures At(t, i, p) == Spot(i, p)
  {
    if 1 <= i <= INODES {
      assert t.addrs[i] == InodeAddrs(i);
      if |p| == 2 && p[0] == NDIRECT {
        assert Parent(p) == [NDIRECT] && At(t, i, [NDIRECT]) == Addr(i, NDIRECT);
        assert Addr(i, NDIRECT) == 104 + 139 * (i - 1);
        assert t.disk[104 + 139 * (i - 1)] == Table(i);
      } else if |p| > 1 {
        Present(t, i, p);
        assert At(t, i, p[..1]) == t.addrs[i][p[0]];
      }
    }
  }

  /** The inode and the path of a block that is in use. */
  function Who(a: nat): nat
    requires a >= 94
  {
    1 + (a - 94) / 139
  }

  function Where(a: nat): seq<nat>
    requires a >= 94
  {
    var r := (a - 94) % 139;
    if r <= NDIRECT then [r] else [NDIRECT, r - 11]
  }

  lemma SpotInverse(i: nat, p: seq<nat>)
    requires IsPath(p) && Spot(i, p) != 0
    ensures 94 <= Spot(i, p) < FSSIZE && !IsFree(Spot(i, p)) && i == Who(Spot(i, p)) && p == Where(Spot(i, p))
  {
    var r := if |p| == 1 then p[0] else 11 + p[1];
    Quotient(i - 1, r);
    if |p| == 1 {
      assert p == [p[0]];
    } else {
      assert p == [p[0], p[1]];
    }
  }

  lemma Quotient(i: nat, r: nat)
    requires r < 139
    ensures (139 * i + r) / 139 == i && (139 * i + r) % 139 == r
  {
  }

  lemma WhereSpot(a: nat)
    requires 94 <= a < FSSIZE && !IsFree(a)
    ensures 1 <= Who(a) <= INODES && IsPath(Where(a)) && Spot(Who(a), Where(a)) == a
  {
  }

  /** The bitmap has a bit for every block but the free ones. */
  ghost predicate Marked(disk: seq<Block>) {
    && |disk| == FSSIZE
    && forall b :: 0 <= b < FSSIZE ==> BitBlock(Sb(), b) < FSSIZE && (Used(disk, Sb(), b) <==> !IsFree(b))
  }

  lemma LaidOwned(t: Tree)
    requires Laid(t) && Marked(t.disk)
    ensures Owned(t, Sb())
  {
    forall i, p, j, q | IsPath(p) && IsPath(q) && At(t, i, p) == At(t, j, q) && At(t, i, p) != 0 ensures i == j && p == q {
      LaidAt(t, i, p);
      LaidAt(t, j, q);
      SpotInverse(i, p);
      SpotInverse(j, q);
    }
    forall i, p | IsPath(p) && At(t, i, p) != 0 ensures 94 <= At(t, i, p) < FSSIZE {
      LaidAt(t, i, p);
      SpotInverse(i, p);
    }
    forall b | 0 <= b < FSSIZE ensures Used(t.disk, Sb(), b) <==> b < 94 || Reached(t, b) {
      LaidReached(t, b);
    }
  }

  lemma LaidReached(t: Tree, b: nat)
    requires Laid(t) && b < FSSIZE
    ensures b >= 94 ==> (Reached(t, b) <==> !IsFree(b))
  {
    if b >= 94 {
      if Reached(t, b) {
        var i, p :| IsPath(p) && At(t, i, p) == b;
        LaidAt(t, i, p);
        SpotInverse(i, p);
      }
      if !IsFree(b) {
        WhereSpot(b);
        LaidAt(t, Who(b), Where(b));
      }
    }
  }

  lemma LaidDense(t: Tree)
    requires Laid(t)
    ensures HoleFree(t, 1, SIZE)
  {
    forall bn | 0 <= bn < MAXFILE && bn * BSIZE < SIZE ensures At(t, 1, PathOf(bn)) != 0 {
      assert bn <= 133;
      LaidAt(t, 1, PathOf(bn));
    }
  }

  // ----- the chunk -----

  /** The positions that are missing for blocks 133 to 141. */
  function Missing(): seq<seq<nat>> {
    [[10, 124], [10, 125], [10, 126], [10, 127], [11], [11, 0], [11, 0, 0], [11, 0, 1], [11, 0, 2], [11, 0, 3]]
  }

  predicate IsMissing(q: seq<nat>) {
    q in Missing()
  }

  lemma MissingPaths(k: nat)
    requires k < 10
    ensures IsPath(Missing()[k])
  {
  }

  /** On the way to the chunk's blocks everything else is there. */
  lemma OnlyMissing(t: Tree, q: seq<nat>)
    requires Laid(t) && IsPath(q) && Toward(q, 133, 142) && At(t, 1, q) == 0
    ensures IsMissing(q)
  {
    hide At, Laid, PathOf, Missing, Spot;
    var bn :| 133 <= bn < 142 && bn < MAXFILE && q <= PathOf(bn);
    LaidAt(t, 1, q);
    PathsOf(bn);
    WayTo(bn, q);
  }

  lemma WayTo(bn: nat, q: seq<nat>)
    requires 133 <= bn < 142 && IsPath(q) && Spot(1, q) == 0
    requires q <= if bn < 138 then [10, bn - 10] else [11, 0, bn - 138]
    ensures IsMissing(q)
  {
    if bn < 138 {
      assert q == [10, bn - 10][..|q|];
      assert |q| == 1 ==> q == [10];
      assert |q| == 2 ==> q == [10, bn - 10];
      assert q == Missing()[bn - 134];
    } else {
      assert q == [11, 0, bn - 138][..|q|];
      assert q == Missing()[if |q| < 3 then 3 + |q| else bn - 132];
    }
  }

  lemma PathsOf(bn: nat)
    requires 133 <= bn < 142
    ensures bn < 138 ==> PathOf(bn) == [10, bn - 10]
    ensures bn >= 138 ==> PathOf(bn) == [11, 0, bn - 138]
  {
  }

  lemma MissingAt(t: Tree, k: nat)
    requires Laid(t) && k < 10
    ensures IsPath(Missing()[k]) && At(t, 1, Missing()[k]) == 0
  {
    MissingPaths(k);
    LaidAt(t, 1, Missing()[k]);
  }

  /** The blocks found at the first k of some positions. */
  ghost function Found(t: Tree, ps: seq<seq<nat>>, k: nat): (s: set<nat>)
    requires k <= |ps| && forall j :: 0 <= j < |ps| ==> IsPath(ps[j])
  {
    if k == 0 then {} else Found(t, ps, k - 1) + {At(t, 1, ps[k - 1]) as nat}
  }

  lemma {:induction false} FoundSize(t: Tree, ps: seq<seq<nat>>, k: nat)
    requires k <= |ps| && forall j :: 0 <= j < |ps| ==> IsPath(ps[j])
    ensures |Found(t, ps, k)| <= k
  {
    hide At, IsPath;
    if k > 0 {
      FoundSize(t, ps, k - 1);
    }
  }

  lemma {:induction false} FoundHas(t: Tree, ps: seq<seq<nat>>, k: nat, j: nat)
    requires j < k <= |ps| && forall j :: 0 <= j < |ps| ==> IsPath(ps[j])
    ensures At(t, 1, ps[j]) as nat in Found(t, ps, k)
  {
    hide At, IsPath;
    if j < k - 1 {
      FoundHas(t, ps, k - 1, j);
    }
  }

  lemma {:induction false} FoundWhere(t: Tree, ps: seq<seq<nat>>, k: nat, x: nat) returns (j: nat)
    requires k <= |ps| && (forall j :: 0 <= j < |ps| ==> IsPath(ps[j])) && x in Found(t, ps, k)
    ensures j < k && At(t, 1, ps[j]) == x
  {
    hide At, IsPath;
    if x == At(t, 1, ps[k - 1]) {
      j := k - 1;
    } else {
      j := FoundWhere(t, ps, k - 1, x);
    }
  }

  lemma Apart(t: Tree, p: seq<nat>, q: seq<nat>)
    requires Injective(t) && IsPath(p) && IsPath(q) && p != q && At(t, 1, p) != 0
    ensures At(t, 1, p) != At(t, 1, q)
  {
  }

  /** As many blocks as positions: no block is at two of them. */
  lemma {:induction false} AllDifferent(t: Tree, ps: seq<seq<nat>>, k: nat)
    requires k <= |ps| && forall j :: 0 <= j < |ps| ==> IsPath(ps[j]) && At(t, 1, ps[j]) != 0
    requires Injective(t) && forall i, j :: 0 <= i < j < |ps| ==> ps[i] != ps[j]
    ensures |Found(t, ps, k)| == k
  {
    hide At, IsPath, Injective;
    if k > 0 {
      AllDifferent(t, ps, k - 1);
      NotYet(t, ps, k - 1);
    }
  }

  lemma NotYet(t: Tree, ps: seq<seq<nat>>, k: nat)
    requires k < |ps| && forall j :: 0 <= j < |ps| ==> IsPath(ps[j]) && At(t, 1, ps[j]) != 0
    requires Injective(t) && forall i, j :: 0 <= i < j < |ps| ==> ps[i] != ps[j]
    ensures At(t, 1, ps[k]) as nat !in Found(t, ps, k)
  {
    hide At, IsPath, Injective, Found;
    var x: nat := At(t, 1, ps[k]);
    if x in Found(t, ps, k) {
      var j := FoundWhere(t, ps, k, x);
      Apart(t, ps[j], ps[k]);
    }
  }

  ghost function FreeBlocks(): (s: set<nat>)
    ensures |s| == 10 && forall a :: a in s <==> IsFree(a)
  {
    {229, 230, 231, 232, 5000, 5001, 5002, 9001, 9002, 9003}
  }

  /** A block at a position filled since is one that was free. */
  lemma WasFree(t: Tree, t': Tree, q: seq<nat>)
    requires Laid(t) && Owned(t', Sb()) && Kept(t, t') && IsPath(q) && At(t, 1, q) == 0 && At(t', 1, q) != 0
    ensures IsFree(At(t', 1, q))
  {
    var a := At(t', 1, q);
    assert 94 <= a < FSSIZE;
    LaidReached(t, a);
  }

  /** A free block that has been taken is at a position that was missing. */
  lemma TakenAt(t: Tree, t': Tree, a: nat) returns (q: seq<nat>)
    requires Laid(t) && Owned(t', Sb()) && Kept(t, t') && GrewToward(t, t', 1, 133, 142) && IsFree(a) && Reached(t', a)
    ensures IsPath(q) && IsMissing(q) && At(t', 1, q) == a
  {
    var i, p :| IsPath(p) && At(t', i, p) == a;
    q := p;
    LaidAt(t, i, p);
    if At(t, i, p) != 0 {
      SpotInverse(i, p);
    }
    OnlyMissing(t, p);
  }

  lemma SameSize(a: set<nat>, b: set<nat>)
    requires a <= b && |a| == |b|
    ensures a == b
  {
    if x :| x in b && x !in a {
      SubsetSize(a, b - {x});
    }
  }

  lemma MissingDiffer(i: nat, j: nat)
    requires i < j < 10
    ensures Missing()[i] != Missing()[j]
  {
    var p, q := Missing()[i], Missing()[j];
    assert |p| != |q| || p[|p| - 1] != q[|q| - 1];
  }

  /** The blocks of the chunk past the first are among the missing. */
  lemma MissingIndex(bn: nat) returns (k: nat)
    requires 134 <= bn < 142
    ensures k < 10 && PathOf(bn) == Missing()[k]
  {
    PathsOf(bn);
    k := if bn < 138 then bn - 134 else bn - 132;
  }

  function Without(ps: seq<seq<nat>>, k: nat): seq<seq<nat>>
    requires k < |ps|
  {
    ps[..k] + ps[k + 1..]
  }

  lemma WithoutPaths(k: nat)
    requires k < 10
    ensures |Without(Missing(), k)| == 9 && forall j :: 0 <= j < 9 ==> IsPath(Without(Missing(), k)[j])
  {
    forall j | 0 <= j < 9 ensures IsPath(Without(Missing(), k)[j]) {
      MissingPaths(if j < k then j else j + 1);
    }
  }

  lemma StillThere(q: seq<nat>, k: nat) returns (j: nat)
    requires k < 10 && IsMissing(q) && q != Missing()[k]
    ensures j < 9 == |Without(Missing(), k)| && Without(Missing(), k)[j] == q
  {
    var m :| 0 <= m < 10 && Missing()[m] == q;
    j := if m < k then m else m - 1;
  }

  /** Nine positions hold all the free blocks. */
  lemma NineHold(t: Tree, t': Tree, k: nat)
    requires Laid(t) && Owned(t', Sb()) && DiskFull(t'.disk, Sb()) && Kept(t, t') && GrewToward(t, t', 1, 133, 142)
    requires k < 10 && IsPath(Missing()[k]) && At(t', 1, Missing()[k]) == 0
    requires |Without(Missing(), k)| == 9 && forall j :: 0 <= j < 9 ==> IsPath(Without(Missing(), k)[j])
    ensures FreeBlocks() <= Found(t', Without(Missing(), k), 9)
  {
    forall a | a in FreeBlocks() ensures a in Found(t', Without(Missing(), k), 9) {
      FullReached(t', a);
      var q := TakenAt(t, t', a);
      var j := StillThere(q, k);
      FoundHas(t', Without(Missing(), k), 9, j);
    }
  }

  lemma FullReached(t: Tree, a: nat)
    requires Owned(t, Sb()) && DiskFull(t.disk, Sb()) && 94 <= a < FSSIZE
    ensures Reached(t, a)
  {
    assert Used(t.disk, Sb(), a);
  }

  lemma TenFree(t: Tree, ps: seq<seq<nat>>)
    requires |ps| == 9 && forall j :: 0 <= j < 9 ==> IsPath(ps[j])
    ensures |Found(t, ps, 9)| <= 9 < |FreeBlocks()|
  {
    FoundSize(t, ps, 9);
  }

  lemma HaltedWhere(t: Tree, t': Tree) returns (k: nat)
    requires Laid(t) && Halted(t, t', 1, 133, 142)
    ensures Kept(t, t') && GrewToward(t, t', 1, 133, 142)
    ensures k < 10 == |Missing()| && IsPath(Missing()[k]) && At(t', 1, Missing()[k]) == 0
  {
    hide At, PathOf, Laid, Kept, GrewToward, Missing, IsPath;
    TenMissing();
    var bn :| 133 <= bn < 142 && bn < MAXFILE && At(t', 1, PathOf(bn)) == 0;
    FirstThere(t, t');
    k := MissingIndex(bn);
  }

  /** There is room for the chunk: if every block is in use, so are the ten, and they
      are where the chunk wants them. */
  lemma NotHalted(t: Tree, t': Tree)
    requires Laid(t) && Owned(t', Sb()) && DiskFull(t'.disk, Sb())
    ensures !Halted(t, t', 1, 133, 142)
  {
    hide *;
    if Halted(t, t', 1, 133, 142) {
      var k := HaltedWhere(t, t');
      TenMissing();
      WithoutPaths(k);
      var ps := Without(Missing(), k);
      TenFree(t', ps);
      NineHold(t, t', k);
      SubsetSize(FreeBlocks(), Found(t', ps, 9));
    }
  }

  lemma FirstThere(t: Tree, t': Tree)
    requires Laid(t) && Kept(t, t')
    ensures At(t', 1, PathOf(133)) != 0 && At(t', 1, [10]) != 0
  {
    PathsOf(133);
    LaidAt(t, 1, PathOf(133));
    LaidAt(t, 1, [10]);
  }

  /** Once the chunk is written, all positions are filled. */
  lemma AllThere(t': Tree, logged: set<nat>, k: nat)
    requires DataLogged(t', 1, 133, 142, logged) && k < 10
    ensures IsPath(Missing()[k]) && At(t', 1, Missing()[k]) != 0
  {
    MissingPaths(k);
    var bn := if k < 4 then 134 + k else if k < 6 then 138 else 132 + k;
    PathsOf(bn);
    Present(t', 1, PathOf(bn));
    var p := PathOf(bn);
    assert p[..|Missing()[k]|] == Missing()[k];
  }

  /** The ten free blocks are the ones the chunk has taken. */
  lemma AllTaken(t: Tree, t': Tree, logged: set<nat>)
    requires Laid(t) && Owned(t', Sb()) && Kept(t, t') && DataLogged(t', 1, 133, 142, logged)
    requires |Missing()| == 10 && forall k :: 0 <= k < 10 ==> IsPath(Missing()[k])
    ensures Found(t', Missing(), 10) == FreeBlocks()
  {
    hide At, Laid, Kept, DataLogged, Missing, IsPath;
    forall k | 0 <= k < 10 ensures At(t', 1, Missing()[k]) != 0 && IsFree(At(t', 1, Missing()[k])) {
      AllThere(t', logged, k);
      MissingAt(t, k);
      WasFree(t, t', Missing()[k]);
    }
    forall i, j | 0 <= i < j < 10 ensures Missing()[i] != Missing()[j] {
      MissingDiffer(i, j);
    }
    AllDifferent(t', Missing(), 10);
    forall x | x in Found(t', Missing(), 10) ensures x in FreeBlocks() {
      var j := FoundWhere(t', Missing(), 10, x);
    }
    SameSize(Found(t', Missing(), 10), FreeBlocks());
  }

  lemma BitTaken(t: Tree, t': Tree, logged: set<nat>, a: nat)
    requires Laid(t) && Owned(t', Sb()) && Kept(t, t') && DataLogged(t', 1, 133, 142, logged) && NewLogged(Sb(), t, t', 1, logged)
    requires IsFree(a)
    ensures BitBlock(Sb(), a) in logged
  {
    hide At, Laid, Kept, DataLogged, Missing, Owned, NewLogged;
    TenMissing();
    AllTaken(t, t', logged);
    var k := FoundWhere(t', Missing(), 10, a);
    EntryTaken(t, t', logged, k);
  }

  lemma TenMissing()
    ensures |Missing()| == 10 && forall k :: 0 <= k < 10 ==> IsPath(Missing()[k])
  {
    forall k | 0 <= k < 10 ensures IsPath(Missing()[k]) {
      MissingPaths(k);
    }
  }

  lemma EntryTaken(t: Tree, t': Tree, logged: set<nat>, k: nat)
    requires Laid(t) && DataLogged(t', 1, 133, 142, logged) && NewLogged(Sb(), t, t', 1, logged) && k < 10
    ensures |Missing()| == 10 && IsPath(Missing()[k]) && EntryLogged(Sb(), t', 1, Missing()[k], logged) && At(t', 1, Missing()[k]) != 0
  {
    hide At, Laid, DataLogged, Missing;
    TenMissing();
    MissingAt(t, k);
    AllThere(t', logged, k);
  }

  /** All ten free blocks have been taken, so all three bitmap blocks are logged. */
  lemma AllBits(t: Tree, t': Tree, logged: set<nat>)
    requires Laid(t) && Owned(t', Sb()) && Kept(t, t') && DataLogged(t', 1, 133, 142, logged) && NewLogged(Sb(), t, t', 1, logged)
    ensures {91, 92, 93} <= logged
  {
    hide At, Laid, Kept, DataLogged, Owned, NewLogged;
    BitTaken(t, t', logged, 229);
    BitTaken(t, t', logged, 5000);
    BitTaken(t, t', logged, 9001);
    assert BitBlock(Sb(), 229) == 91 && BitBlock(Sb(), 5000) == 92 && BitBlock(Sb(), 9001) == 93;
  }

  /** The positions whose blocks are logged: the missing ones, the single indirect
      block and the block the chunk begins in. */
  function Chunked(): seq<seq<nat>> {
    Missing() + [[10], [10, 123]]
  }

  lemma ChunkedAt(t: Tree, t': Tree, logged: set<nat>, k: nat)
    requires Laid(t) && Owned(t', Sb()) && Kept(t, t') && DataLogged(t', 1, 133, 142, logged) && NewLogged(Sb(), t, t', 1, logged) && k < 12
    ensures IsPath(Chunked()[k]) && At(t', 1, Chunked()[k]) >= 94 && At(t', 1, Chunked()[k]) as nat in logged
  {
    FirstThere(t, t');
    PathsOf(133);
    if k < 11 {
      EntryTaken(t, t', logged, if k < 10 then k else 0);
      assert Parent([10, 124]) == [10];
    }
  }

  ghost predicate Above(t: Tree, ps: seq<seq<nat>>, logged: set<nat>) {
    forall k :: 0 <= k < |ps| ==> IsPath(ps[k]) && At(t, 1, ps[k]) >= 94 && At(t, 1, ps[k]) as nat in logged
  }

  lemma FoundAbove(t: Tree, ps: seq<seq<nat>>, logged: set<nat>)
    requires Above(t, ps, logged) && Injective(t) && forall i, j :: 0 <= i < j < |ps| ==> ps[i] != ps[j]
    requires 62 in logged && {91, 92, 93} <= logged
    ensures |logged| >= |ps| + 4
  {
    hide At, Injective, IsPath;
    AllDifferent(t, ps, |ps|);
    forall x | x in Found(t, ps, |ps|) ensures x >= 94 && x in logged {
      var j := FoundWhere(t, ps, |ps|, x);
    }
    Together(Found(t, ps, |ps|), logged);
  }

  lemma Together(f: set<nat>, logged: set<nat>)
    requires f <= logged && 62 in logged && {91, 92, 93} <= logged && forall x :: x in f ==> x >= 94
    ensures |logged| >= |f| + 4
  {
    var low: set<nat> := {62, 91, 92, 93};
    assert |f + low| == |f| + |low|;
    SubsetSize(f + low, logged);
  }

  /** Sixteen blocks: the inode's, three of the bitmap, three index and nine data. */
  lemma Sixteen(t: Tree, t': Tree, logged: set<nat>)
    requires Laid(t) && Owned(t', Sb()) && Kept(t, t') && DataLogged(t', 1, 133, 142, logged) && NewLogged(Sb(), t, t', 1, logged)
    requires 62 in logged
    ensures |logged| >= 16
  {
    hide At, Laid, Kept, DataLogged, NewLogged, Missing, Injective, IsPath;
    AllBits(t, t', logged);
    TenMissing();
    forall k | 0 <= k < 12 ensures IsPath(Chunked()[k]) && At(t', 1, Chunked()[k]) >= 94 && At(t', 1, Chunked()[k]) as nat in logged {
      ChunkedAt(t, t', logged, k);
    }
    forall i, j | 0 <= i < j < 12 ensures Chunked()[i] != Chunked()[j] {
      ChunkedDiffer(i, j);
    }
    FoundAbove(t', Chunked(), logged);
  }

  lemma ChunkedDiffer(i: nat, j: nat)
    requires i < j < 12
    ensures Chunked()[i] != Chunked()[j]
  {
    if j < 10 {
      MissingDiffer(i, j);
    } else {
      var p, q := Chunked()[i], Chunked()[j];
      assert |p| != |q| || p[|p| - 1] != q[|q| - 1];
    }
  }

  // ----- the file system -----

  /** The bitmap block for the blocks from first on. */
  method BitmapFrom(first: nat) returns (b: Block)
    ensures forall j :: 0 <= j < BPB ==> (BlockBit(b, j) <==> !IsFree(first + j))
  {
    b := ZeroBlock();
    var k := 0;
    while k < BPB
      invariant 0 <= k <= BPB
      invariant forall j :: 0 <= j < k ==> (BlockBit(b, j) <==> !IsFree(first + j))
    {
      b := PutBit(b, k, !IsFree(first + k));
      k := k + 1;
    }
  }

  /** The tables of the first n inodes are in place. */
  ghost predicate Tables(disk: seq<Block>, n: nat) {
    |disk| == FSSIZE && forall i :: 1 <= i <= n && i <= INODES ==> disk[104 + 139 * (i - 1)] == Table(i)
  }

  method LayTables() returns (disk: seq<Block>)
    ensures Tables(disk, INODES)
  {
    disk := seq(FSSIZE, _ => ZeroBlock());
    var i := 0;
    while i < INODES
      invariant 0 <= i <= INODES && Tables(disk, i)
    {
      disk := disk[104 + 139 * i := Table(i + 1)];
      i := i + 1;
    }
  }

  function Inodes(): map<nat, Inode> {
    map i: nat | 1 <= i <= INODES :: Inode(2, 1, if i == 1 then SIZE else 0, InodeAddrs(i))
  }

  /** The file system before the chunk: every invariant holds, inode 1 is a file of
      SIZE bytes without holes, and nothing is logged. */
  method Prepare() returns (fs: FileSystem)
    ensures fresh(fs) && fs.Valid() && fs.sb == Sb() && Laid(fs.Tree()) && fs.logged == {} && 1 in fs.inodes && fs.inodes[1].size == SIZE
    ensures HoleFree(fs.Tree(), 1, SIZE)
  {
    var disk := LayTables();
    var b0 := BitmapFrom(0);
    var b1 := BitmapFrom(BPB);
    var b2 := BitmapFrom(2 * BPB);
    disk := disk[91 := b0][92 := b1][93 := b2];
    fs := new FileSystem(Sb(), disk, Inodes());
    LaidFrom(disk, b0, b1, b2, fs.Tree());
    LaidOwned(fs.Tree());
    LaidDense(fs.Tree());
  }

  lemma LaidFrom(disk: seq<Block>, b0: Block, b1: Block, b2: Block, t: Tree)
    requires Tables(disk, INODES) && disk[91] == b0 && disk[92] == b1 && disk[93] == b2
    requires forall j :: 0 <= j < BPB ==> (BlockBit(b0, j) <==> !IsFree(j))
    requires forall j :: 0 <= j < BPB ==> (BlockBit(b1, j) <==> !IsFree(BPB + j))
    requires forall j :: 0 <= j < BPB ==> (BlockBit(b2, j) <==> !IsFree(2 * BPB + j))
    requires t.disk == disk && t.addrs == map i | i in Inodes() :: Inodes()[i].addrs
    ensures Laid(t) && Marked(t.disk)
  {
    forall b | 0 <= b < FSSIZE ensures BitBlock(Sb(), b) < FSSIZE && (Used(disk, Sb(), b) <==> !IsFree(b)) {
      BitPlace(b);
    }
  }

  lemma BitPlace(b: nat)
    requires b < FSSIZE
    ensures BitBlock(Sb(), b) == 91 + (if b < BPB then 0 else if b < 2 * BPB then 1 else 2)
    ensures b % BPB == b - BPB * (if b < BPB then 0 else if b < 2 * BPB then 1 else 2)
  {
  }

  /** The chunk's place: blocks 133 to 141, past the end of the file. */
  lemma ChunkPlace()
    ensures SIZE + CHUNK <= MAXBYTES < WORD_LIMIT && 0 < CHUNK && FirstBlock(SIZE) == 133 && Through(SIZE, SIZE + CHUNK) == 142
    ensures GrownInode(Sb(), 1, SIZE, SIZE, CHUNK) == {62} && NewSize(SIZE, SIZE, CHUNK) == SIZE + CHUNK && Sb().size == FSSIZE
    ensures SuperOk(Sb()) && InodeBlock(Sb(), 1) == 62
  {
  }

  lemma SixteenLogged(fs: FileSystem, t: Tree)
    requires fs.Valid() && fs.sb == Sb() && SuperOk(Sb()) && Laid(t) && Kept(t, fs.Tree())
    requires HoleFree(fs.Tree(), 1, SIZE + CHUNK)
    requires Recorded(fs.sb, t, fs.Tree(), 1, FirstBlock(SIZE), Through(SIZE, SIZE + CHUNK), {} + GrownInode(fs.sb, 1, SIZE, SIZE, CHUNK), fs.logged)
    ensures |fs.logged| == 16
  {
    ChunkPlace();
    hide HoleFree, Laid, Kept, NewLogged, DataLogged, GrewToward, LoggedAlong, Owned, FirstBlock, Through, GrownInode, Sb;
    var base := {} + GrownInode(fs.sb, 1, SIZE, SIZE, CHUNK);
    assert base == {62};
    DenseChunkFits(fs.sb, fs.Tree(), 1, SIZE, CHUNK, SIZE + CHUNK, base, fs.logged);
    Sixteen(t, fs.Tree(), fs.logged);
  }

  /** The chunk of filewrite that logs sixteen blocks. */
  method Fullest() returns (r: WriteResult, fs: FileSystem)
    ensures fresh(fs) && fs.Valid() && fs.sb.size == FSSIZE
    ensures r == Wrote(CHUNK) && |fs.logged| == 16
  {
    hide *;
    fs := Prepare();
    ChunkPlace();
    ghost var t := fs.Tree();
    var src := seq(CHUNK, _ => 0 as byte);
    r := fs.Writei(1, SIZE, src);
    if r.OutOfBlocks? {
      FullTree(fs);
      NotHalted(t, fs.Tree());
    } else {
      SixteenLogged(fs, t);
    }
  }

  lemma FullTree(fs: FileSystem)
    requires fs.Valid() && fs.sb == Sb() && DiskFull(fs.disk, fs.sb)
    ensures Owned(fs.Tree(), Sb()) && DiskFull(fs.Tree().disk, Sb())
  {
  }
}
