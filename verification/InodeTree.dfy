/** The block tree of an inode: 10 direct addresses and one single, one double and
    one triple indirect address, with 128 addresses in each index block.

    A position in the tree is a path: the slot of `addrs`, then an index for each
    index block on the way. `At` is the block number found there, 0 for none. */
module InodeTree {
  import opened Blocks

  const NDIRECT := 10
  const NINDIRECT := WORDS
  const NDINDIRECT := 16384
  const NTINDIRECT := 2097152
  const MAXFILE := 2113674    // NDIRECT + NINDIRECT + NDINDIRECT + NTINDIRECT
  const NADDRS := NDIRECT + 3

  type Addrs = a: seq<word> | |a| == NADDRS witness seq(NADDRS, _ => 0)

  /** The blocks of the device and the addresses held in each inode. */
  datatype Tree = Tree(disk: seq<Block>, addrs: map<nat, Addrs>)

  /** Index blocks between the slot and the data: 0 for direct, up to 3. */
  function Level(slot: nat): nat {
    if slot < NDIRECT then 0 else slot + 1 - NDIRECT
  }

  predicate IsPath(p: seq<nat>) {
    && 1 <= |p| && p[0] < NADDRS && |p| <= 1 + Level(p[0])
    && forall k :: 1 <= k < |p| ==> p[k] < NINDIRECT
  }

  /** A path all the way to a data block. */
  predicate IsData(p: seq<nat>) {
    IsPath(p) && |p| == 1 + Level(p[0])
  }

  function Parent(p: seq<nat>): seq<nat>
    requires |p| >= 1
  {
    p[..|p| - 1]
  }

  function Last(p: seq<nat>): nat
    requires |p| >= 1
  {
    p[|p| - 1]
  }

  function At(t: Tree, ino: nat, p: seq<nat>): (a: word)
    requires IsPath(p)
    decreases |p|
  {
    if ino !in t.addrs then 0
    else if |p| == 1 then t.addrs[ino][p[0]]
    else
      var a := At(t, ino, Parent(p));
      if a == 0 || a >= |t.disk| then 0 else t.disk[a][Last(p)]
  }

  /** No block is reached at two positions, in one inode or in two. */
  ghost predicate Injective(t: Tree) {
    forall i, p, j, q :: IsPath(p) && IsPath(q) && At(t, i, p) == At(t, j, q) && At(t, i, p) != 0 ==> i == j && p == q
  }

  /** Every reachable block is in the data region of the device. */
  ghost predicate InRange(t: Tree, lo: nat) {
    forall i, p :: IsPath(p) && At(t, i, p) != 0 ==> lo <= At(t, i, p) < |t.disk|
  }

  ghost predicate Unreached(t: Tree, b: nat) {
    forall i, p :: IsPath(p) ==> At(t, i, p) != b
  }

  /** The zeroed block b is hooked in at path p; blocks below lo do not matter. */
  ghost predicate Grown(t: Tree, t': Tree, lo: nat, ino: nat, p: seq<nat>, b: word) {
    && IsPath(p) && ino in t.addrs && |t'.disk| == |t.disk|
    && lo <= b < |t.disk| && 0 < b && t'.disk[b] == ZeroBlock()
    && if |p| == 1 then
         && t'.addrs == t.addrs[ino := t.addrs[ino][p[0] := b]]
         && forall a :: lo <= a < |t.disk| && a != b ==> t'.disk[a] == t.disk[a]
       else
         var a0 := At(t, ino, Parent(p));
         && t'.addrs == t.addrs
         && 0 < a0 < |t.disk| && a0 != b && t'.disk[a0] == t.disk[a0][Last(p) := b]
         && forall a :: lo <= a < |t.disk| && a != b && a != a0 ==> t'.disk[a] == t.disk[a]
  }

  /** Hooking in a fresh zeroed block changes what is found at its own position and nowhere else. */
  lemma {:induction false} GrownAt(t: Tree, t': Tree, lo: nat, ino: nat, p: seq<nat>, b: word, i: nat, q: seq<nat>)
    requires Injective(t) && InRange(t, lo) && Unreached(t, b)
    requires IsPath(p) && At(t, ino, p) == 0 && Grown(t, t', lo, ino, p, b)
    requires IsPath(q)
    ensures At(t', i, q) == if i == ino && q == p then b else At(t, i, q)
    decreases |q|
  {
    if |q| > 1 && i in t.addrs {
      GrownAt(t, t', lo, ino, p, b, i, Parent(q));
      assert q == Parent(q) + [Last(q)];
      if !(i == ino && Parent(q) == p) {
        var a := At(t, i, Parent(q));
        if a != 0 {
          assert a != b;
          if |p| > 1 {
            assert p == Parent(p) + [Last(p)];
            assert IsPath(Parent(p));
          }
        }
      }
    }
  }

  ghost predicate Reached(t: Tree, b: nat) {
    b != 0 && exists i, p :: IsPath(p) && At(t, i, p) == b
  }

  /** The tree invariants survive the hooking in, and b is the one block gained. */
  lemma GrownInvariant(t: Tree, t': Tree, lo: nat, ino: nat, p: seq<nat>, b: word)
    requires Injective(t) && InRange(t, lo) && Unreached(t, b)
    requires IsPath(p) && At(t, ino, p) == 0 && Grown(t, t', lo, ino, p, b)
    ensures Injective(t') && InRange(t', lo)
    ensures forall x :: Reached(t', x) <==> Reached(t, x) || x == b
    ensures Extends(t, t', ino, p) && At(t', ino, p) == b
  {
    hide Grown, At;
    forall i, q | IsPath(q)
      ensures At(t', i, q) == if i == ino && q == p then b else At(t, i, q)
    {
      GrownAt(t, t', lo, ino, p, b, i, q);
    }
    GrownContents(t, t', lo, ino, p, b);
    forall x ensures Reached(t', x) <==> Reached(t, x) || x == b {
      if Reached(t, x) {
        var i, q :| IsPath(q) && At(t, i, q) == x;
        assert At(t', i, q) == x;
      }
      if Reached(t', x) {
        var i, q :| IsPath(q) && At(t', i, q) == x;
        assert x == b || At(t, i, q) == x;
      }
      assert At(t', ino, p) == b;
    }
  }

  /** Data blocks keep their contents; the new block is zero. */
  lemma GrownContents(t: Tree, t': Tree, lo: nat, ino: nat, p: seq<nat>, b: word)
    requires Injective(t) && InRange(t, lo) && Unreached(t, b)
    requires Grown(t, t', lo, ino, p, b)
    ensures |t'.disk| == |t.disk| && t'.addrs.Keys == t.addrs.Keys
    ensures lo <= b < |t.disk| && 0 < b && t'.disk[b] == ZeroBlock()
    ensures forall i, q :: IsData(q) && At(t, i, q) != 0 ==> t'.disk[At(t, i, q)] == t.disk[At(t, i, q)]
  {
    forall i, q | IsData(q) && At(t, i, q) != 0 ensures t'.disk[At(t, i, q)] == t.disk[At(t, i, q)] {
      var a := At(t, i, q);
      assert a != b;
      if |p| > 1 {
        assert IsPath(Parent(p)) && q != Parent(p);
        assert a != At(t, ino, Parent(p));
      }
    }
  }

  /** t' is t with blocks added along path p of one inode, and nothing else changed. */
  ghost predicate Extends(t: Tree, t': Tree, ino: nat, p: seq<nat>) {
    && |t'.disk| == |t.disk| && t'.addrs.Keys == t.addrs.Keys
    && (forall i, q :: IsPath(q) && At(t, i, q) != 0 ==> At(t', i, q) == At(t, i, q))
    && (forall i, q :: IsPath(q) && At(t', i, q) != At(t, i, q) ==> i == ino && q <= p)
    && (forall i, q :: IsData(q) && 0 < At(t, i, q) < |t.disk| ==> t'.disk[At(t, i, q)] == t.disk[At(t, i, q)])
    && (forall i, q :: IsData(q) && At(t, i, q) == 0 && 0 < At(t', i, q) < |t.disk| ==>
          t'.disk[At(t', i, q)] == ZeroBlock())
  }

  lemma ExtendsItself(t: Tree, ino: nat, p: seq<nat>)
    ensures Extends(t, t, ino, p)
  {
  }

  lemma ExtendsTrans(t: Tree, t1: Tree, t2: Tree, ino: nat, p: seq<nat>, r: seq<nat>)
    requires Extends(t, t1, ino, p) && Extends(t1, t2, ino, r) && p <= r
    ensures Extends(t, t2, ino, r)
  {
    hide At, IsPath;
    forall i, q | IsPath(q) && At(t2, i, q) != At(t, i, q) ensures i == ino && q <= r {
      if At(t1, i, q) != At(t, i, q) {
        assert q <= p;
      }
    }
  }

  // ----- logical block numbers -----

  /** The path bmap follows for the bn-th block of a file. */
  function PathOf(bn: nat): (p: seq<nat>)
    requires bn < MAXFILE
    ensures IsData(p)
  {
    if bn < NDIRECT then [bn]
    else if bn < NDIRECT + NINDIRECT then [NDIRECT, bn - NDIRECT]
    else if bn < NDIRECT + NINDIRECT + NDINDIRECT then
      var r := bn - NDIRECT - NINDIRECT;
      [NDIRECT + 1, r / NINDIRECT, r % NINDIRECT]
    else
      var r := bn - NDIRECT - NINDIRECT - NDINDIRECT;
      [NDIRECT + 2, r / NDINDIRECT, (r % NDINDIRECT) / NINDIRECT, (r % NDINDIRECT) % NINDIRECT]
  }

  /** Distinct blocks of a file have distinct paths. */
  lemma PathOfInjective(a: nat, b: nat)
    requires a < MAXFILE && b < MAXFILE && PathOf(a) == PathOf(b)
    ensures a == b
  {
    var p, q := PathOf(a), PathOf(b);
    assert p[0] == q[0] && |p| == |q|;
    if |p| == 4 {
      assert p[1] == q[1] && p[2] == q[2] && p[3] == q[3];
    } else if |p| == 3 {
      assert p[1] == q[1] && p[2] == q[2];
    } else if |p| == 2 {
      assert p[1] == q[1];
    }
  }

  /** The first difference of two paths, and the lower index there, is p's. */
  predicate Before(p: seq<nat>, q: seq<nat>) {
    exists k :: 0 <= k < |p| && k < |q| && p[k] < q[k] && p[..k] == q[..k]
  }

  lemma Digits2(r: nat, s: nat)
    requires r < s < NDINDIRECT
    ensures r / NINDIRECT < s / NINDIRECT || (r / NINDIRECT == s / NINDIRECT && r % NINDIRECT < s % NINDIRECT)
  {
  }

  lemma Digits3(r: nat, s: nat)
    requires r < s < NTINDIRECT
    ensures r / NDINDIRECT < s / NDINDIRECT || (r / NDINDIRECT == s / NDINDIRECT && r % NDINDIRECT < s % NDINDIRECT)
  {
  }

  lemma FirstDiffers(p: seq<nat>, q: seq<nat>, k: nat)
    requires k < |p| && k < |q| && p[k] < q[k] && forall j :: 0 <= j < k ==> p[j] == q[j]
    ensures Before(p, q)
  {
    assert p[..k] == q[..k];
  }

  lemma DoubleIncreasing(r: nat, s: nat)
    requires r < s < NDINDIRECT
    ensures Before([NDIRECT + 1, r / NINDIRECT, r % NINDIRECT], [NDIRECT + 1, s / NINDIRECT, s % NINDIRECT])
  {
    Digits2(r, s);
    hide Before;
    var p, q := [NDIRECT + 1, r / NINDIRECT, r % NINDIRECT], [NDIRECT + 1, s / NINDIRECT, s % NINDIRECT];
    FirstDiffers(p, q, if p[1] < q[1] then 1 else 2);
  }

  lemma TripleIncreasing(r: nat, s: nat)
    requires r < s < NTINDIRECT
    ensures Before([NDIRECT + 2, r / NDINDIRECT, (r % NDINDIRECT) / NINDIRECT, (r % NDINDIRECT) % NINDIRECT],
                   [NDIRECT + 2, s / NDINDIRECT, (s % NDINDIRECT) / NINDIRECT, (s % NDINDIRECT) % NINDIRECT])
  {
    Digits3(r, s);
    var a, b := r % NDINDIRECT, s % NDINDIRECT;
    if a < b {
      Digits2(a, b);
    }
    hide Before;
    var p := [NDIRECT + 2, r / NDINDIRECT, a / NINDIRECT, a % NINDIRECT];
    var q := [NDIRECT + 2, s / NDINDIRECT, b / NINDIRECT, b % NINDIRECT];
    FirstDiffers(p, q, if p[1] < q[1] then 1 else if p[2] < q[2] then 2 else 3);
  }

  /** The blocks of a file lie along the data paths in order: of two blocks the earlier
      has the path that comes first. */
  lemma PathOfIncreasing(a: nat, b: nat)
    requires a < b < MAXFILE
    ensures Before(PathOf(a), PathOf(b))
  {
    hide Before;
    var p, q := PathOf(a), PathOf(b);
    if p[0] < q[0] {
      FirstDiffers(p, q, 0);
    } else if b < NDIRECT + NINDIRECT {
      FirstDiffers(p, q, 1);
    } else if b < NDIRECT + NINDIRECT + NDINDIRECT {
      DoubleIncreasing(a - NDIRECT - NINDIRECT, b - NDIRECT - NINDIRECT);
    } else {
      TripleIncreasing(a - NDIRECT - NINDIRECT - NDINDIRECT, b - NDIRECT - NINDIRECT - NDINDIRECT);
    }
  }

  /** And every data path is that of a block. */
  lemma PathOfOnto(p: seq<nat>) returns (bn: nat)
    requires IsData(p)
    ensures bn < MAXFILE && PathOf(bn) == p
  {
    if |p| == 1 {
      bn := p[0];
    } else if |p| == 2 {
      bn := NDIRECT + p[1];
    } else if |p| == 3 {
      bn := NDIRECT + NINDIRECT + (p[1] * NINDIRECT + p[2]);
      Undigits(p[1], p[2]);
    } else {
      Undigits(p[2], p[3]);
      Undigits3(p[1], p[2] * NINDIRECT + p[3]);
      bn := NDIRECT + NINDIRECT + NDINDIRECT + (p[1] * NDINDIRECT + (p[2] * NINDIRECT + p[3]));
    }
  }

  lemma Undigits(a: nat, b: nat)
    requires a < NINDIRECT && b < NINDIRECT
    ensures a * NINDIRECT + b < NDINDIRECT && (a * NINDIRECT + b) / NINDIRECT == a && (a * NINDIRECT + b) % NINDIRECT == b
  {
  }

  lemma Undigits3(a: nat, b: nat)
    requires a < NINDIRECT && b < NDINDIRECT
    ensures a * NDINDIRECT + b < NTINDIRECT && (a * NDINDIRECT + b) / NDINDIRECT == a && (a * NDINDIRECT + b) % NDINDIRECT == b
  {
  }

  /** Entry k of the block a, if there is such a block. */
  function Entry(disk: seq<Block>, a: word, k: nat): word
    requires k < NINDIRECT
  {
    if a == 0 || a >= |disk| then 0 else disk[a][k]
  }

  /** What is found for block bn, word by word. */
  lemma AtInWords(t: Tree, ino: nat, bn: nat)
    requires ino in t.addrs && bn < MAXFILE
    ensures bn < 10 ==> At(t, ino, PathOf(bn)) == t.addrs[ino][bn]
    ensures 10 <= bn < 138 ==> At(t, ino, PathOf(bn)) == Entry(t.disk, t.addrs[ino][10], bn - 10)
    ensures 138 <= bn < 16522 ==> At(t, ino, PathOf(bn)) == Entry(t.disk, Entry(t.disk, t.addrs[ino][11], (bn - 138) / 128), (bn - 138) % 128)
    ensures 16522 <= bn ==>
              var r := bn - 16522;
              At(t, ino, PathOf(bn)) == Entry(t.disk, Entry(t.disk, Entry(t.disk, t.addrs[ino][12], r / 16384), r % 16384 / 128), r % 128)
  {
    AtByEntries(t, ino, PathOf(bn));
    hide At, Entry, IsPath;
    if bn >= 16522 {
      LowDigit(bn - 16522);
    }
  }

  lemma {:induction false} AtByEntries(t: Tree, ino: nat, p: seq<nat>)
    requires IsPath(p) && ino in t.addrs
    ensures |p| == 1 ==> At(t, ino, p) == t.addrs[ino][p[0]]
    ensures |p| == 2 ==> At(t, ino, p) == Entry(t.disk, t.addrs[ino][p[0]], p[1])
    ensures |p| == 3 ==> At(t, ino, p) == Entry(t.disk, Entry(t.disk, t.addrs[ino][p[0]], p[1]), p[2])
    ensures |p| == 4 ==> At(t, ino, p) == Entry(t.disk, Entry(t.disk, Entry(t.disk, t.addrs[ino][p[0]], p[1]), p[2]), p[3])
  {
    if |p| > 1 {
      AtEntry(t, ino, p);
      AtByEntries(t, ino, p[..|p| - 1]);
    }
  }

  lemma AtEntry(t: Tree, ino: nat, p: seq<nat>)
    requires IsPath(p) && |p| >= 2 && ino in t.addrs
    ensures IsPath(p[..|p| - 1]) && At(t, ino, p) == Entry(t.disk, At(t, ino, p[..|p| - 1]), p[|p| - 1])
  {
  }

  lemma LowDigit(r: nat)
    ensures r % 16384 % 128 == r % 128
  {
  }

  /** Each way down to the end of the path is a path. */
  predicate Prefixed(path: seq<nat>) {
    forall k :: 1 <= k <= |path| ==> IsPath(path[..k])
  }

  lemma PathPrefixed(path: seq<nat>)
    requires IsPath(path)
    ensures |path| >= 1 && path[0] < NADDRS && Prefixed(path) && path[..|path|] == path && path[..1] == [path[0]]
  {
  }
}
