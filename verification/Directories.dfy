/** Directories and link counts (kernel/fs.c, kernel/sysfile.c) as values: inodes
    with their directory entries, the count of entries that name an inode, and the
    shape of the directory tree. */
module Directories {

  const ROOT := 1                  // ROOTINO
  const DIRSIZ := 14

  type Name = s: string | |s| <= DIRSIZ witness ""

  datatype Dirent = Dirent(inum: nat, name: Name)      // inum 0: an empty entry

  datatype Kind = Unused | Dir | File | Dev

  datatype Inode = Inode(kind: Kind, nlink: int, ents: seq<Dirent>)

  type Inodes = seq<Inode>

  /** A directory that is still in the tree. */
  predicate Live(n: Inode) { n.kind.Dir? && n.nlink > 0 }

  predicate Ordinary(e: Dirent) { e.inum != 0 && e.name != "." && e.name != ".." }

  // ----- counting entries -----

  predicate NamesIt(e: Dirent, i: nat) { e.inum == i && e.name != "." }

  function CountIn(ents: seq<Dirent>, i: nat): nat {
    if ents == [] then 0 else CountIn(ents[..|ents| - 1], i) + (if NamesIt(ents[|ents| - 1], i) then 1 else 0)
  }

  function Weight(n: Inode, i: nat): nat {
    if Live(n) then CountIn(n.ents, i) else 0
  }

  /** Entries other than "." that name inode i, in directories with links. */
  function Refs(inodes: Inodes, i: nat): nat {
    if inodes == [] then 0 else Refs(inodes[..|inodes| - 1], i) + Weight(inodes[|inodes| - 1], i)
  }

  lemma {:induction false} CountSet(ents: seq<Dirent>, k: nat, e: Dirent, i: nat)
    requires k < |ents|
    ensures CountIn(ents[k := e], i) == CountIn(ents, i) - (if NamesIt(ents[k], i) then 1 else 0) + (if NamesIt(e, i) then 1 else 0)
  {
    var m := |ents| - 1;
    if k == m {
      assert ents[k := e][..m] == ents[..m];
    } else {
      CountSet(ents[..m], k, e, i);
      assert ents[k := e][..m] == ents[..m][k := e];
    }
  }

  lemma CountPush(ents: seq<Dirent>, e: Dirent, i: nat)
    ensures CountIn(ents + [e], i) == CountIn(ents, i) + (if NamesIt(e, i) then 1 else 0)
  {
    assert (ents + [e])[..|ents|] == ents;
  }

  lemma {:induction false} CountNone(ents: seq<Dirent>, i: nat)
    ensures CountIn(ents, i) == 0 <==> forall k :: 0 <= k < |ents| ==> !NamesIt(ents[k], i)
  {
    if ents != [] {
      CountNone(ents[..|ents| - 1], i);
    }
  }

  lemma CountOne(ents: seq<Dirent>, k: nat, i: nat)
    requires k < |ents| && NamesIt(ents[k], i) && i != 0 && forall j :: 0 <= j < |ents| && j != k ==> !NamesIt(ents[j], i)
    ensures CountIn(ents, i) == 1
  {
    var none := Dirent(0, "");
    CountSet(ents, k, none, i);
    CountNone(ents[k := none], i);
  }

  lemma {:induction false} RefsSet(inodes: Inodes, d: nat, n: Inode, i: nat)
    requires d < |inodes|
    ensures Refs(inodes[d := n], i) == Refs(inodes, i) - Weight(inodes[d], i) + Weight(n, i)
  {
    var m := |inodes| - 1;
    if d == m {
      assert inodes[d := n][..m] == inodes[..m];
    } else {
      RefsSet(inodes[..m], d, n, i);
      assert inodes[d := n][..m] == inodes[..m][d := n];
    }
  }

  lemma {:induction false} RefsNone(inodes: Inodes, i: nat)
    ensures Refs(inodes, i) == 0 <==> forall d :: 0 <= d < |inodes| ==> Weight(inodes[d], i) == 0
  {
    if inodes != [] {
      RefsNone(inodes[..|inodes| - 1], i);
    }
  }

  lemma RefsOne(inodes: Inodes, d: nat, i: nat)
    requires d < |inodes| && forall c :: 0 <= c < |inodes| && c != d ==> Weight(inodes[c], i) == 0
    ensures Refs(inodes, i) == Weight(inodes[d], i)
  {
    var none := Inode(Unused, 0, []);
    RefsSet(inodes, d, none, i);
    RefsNone(inodes[d := none], i);
  }

  // ----- the invariants -----

  /** How far an inode's link count is from the number of entries that name it. */
  function Slack(inodes: Inodes, i: nat): int
    requires i < |inodes|
  {
    inodes[i].nlink - Refs(inodes, i)
  }

  /** Every slack is what it was but for inode i, whose slack has moved by d. */
  ghost predicate SlackBut(inodes: Inodes, inodes': Inodes, i: nat, d: int) {
    |inodes'| == |inodes| && forall j :: 0 < j < |inodes| ==> Slack(inodes', j) == Slack(inodes, j) + if j == i then d else 0
  }

  ghost predicate SameSlack(inodes: Inodes, inodes': Inodes) {
    |inodes'| == |inodes| && forall j :: 0 < j < |inodes| ==> Slack(inodes', j) == Slack(inodes, j)
  }

  /** Every link count is the number of entries that name the inode. */
  ghost predicate Balanced(inodes: Inodes) {
    forall i :: 0 < i < |inodes| ==> Slack(inodes, i) == 0
  }

  /** What holds of every directory, removed or not: unique names, the dots, and
      entries that name inodes in use other than itself. */
  predicate DirShape(inodes: Inodes, d: nat) {
    && d > 0 && NamesOk(inodes, d) && |inodes[d].ents| >= 2
    && inodes[d].ents[0] == Dirent(d, ".") && inodes[d].ents[1].name == ".." && 0 < inodes[d].ents[1].inum
    && (forall k :: 0 <= k < |inodes[d].ents| && inodes[d].ents[k].inum != 0 ==> !inodes[inodes[d].ents[k].inum].kind.Unused?)
    && (forall k :: 0 <= k < |inodes[d].ents| && Ordinary(inodes[d].ents[k]) ==> inodes[d].ents[k].inum != d)
  }

  ghost predicate Shape(inodes: Inodes) {
    && ROOT < |inodes|
    && (forall d {:trigger DirShape(inodes, d)} :: 0 <= d < |inodes| && inodes[d].kind.Dir? ==> DirShape(inodes, d))
    && (forall i :: 0 <= i < |inodes| && inodes[i].kind.Unused? ==> inodes[i].nlink == 0)
    && (forall i :: 0 <= i < |inodes| && !inodes[i].kind.Dir? ==> inodes[i].ents == [])
  }

  predicate Lists(inodes: Inodes, p: nat, d: nat) {
    p < |inodes| && exists k :: 0 <= k < |inodes[p].ents| && Ordinary(inodes[p].ents[k]) && inodes[p].ents[k].inum == d
  }

  /** Names in a directory are unique, and its entries are in range. */
  predicate NamesOk(inodes: Inodes, d: nat) {
    && d < |inodes|
    && (forall i, j :: 0 <= i < j < |inodes[d].ents| && inodes[d].ents[i].inum != 0 && inodes[d].ents[j].inum != 0 ==>
          inodes[d].ents[i].name != inodes[d].ents[j].name)
    && (forall k :: 0 <= k < |inodes[d].ents| ==> inodes[d].ents[k].inum < |inodes|)
  }

  /** The dots are where they should be, and the parent lists the directory. */
  predicate DotsOk(inodes: Inodes, d: nat) {
    && d < |inodes| && |inodes[d].ents| >= 2
    && inodes[d].ents[0] == Dirent(d, ".") && inodes[d].ents[1].name == ".." && 0 < inodes[d].ents[1].inum < |inodes|
    && var p := inodes[d].ents[1].inum;
       Live(inodes[p]) && (if d == ROOT then p == ROOT else Lists(inodes, p, d))
  }

  /** A directory listed here has this one as its parent, and is listed once. */
  predicate KidsOk(inodes: Inodes, d: nat) {
    && d < |inodes|
    && (forall k :: 0 <= k < |inodes[d].ents| && Ordinary(inodes[d].ents[k]) && inodes[d].ents[k].inum < |inodes|
                    && inodes[inodes[d].ents[k].inum].kind.Dir? ==>
          KidOk(inodes, d, inodes[d].ents[k].inum))
    && (forall j, k :: 0 <= j < k < |inodes[d].ents| && Ordinary(inodes[d].ents[j]) && Ordinary(inodes[d].ents[k])
                       && inodes[d].ents[j].inum == inodes[d].ents[k].inum && inodes[d].ents[j].inum < |inodes| ==>
          !inodes[inodes[d].ents[j].inum].kind.Dir?)
  }

  predicate KidOk(inodes: Inodes, d: nat, c: nat) {
    c < |inodes| && c != ROOT && Live(inodes[c]) && |inodes[c].ents| >= 2 && inodes[c].ents[1].inum == d
  }

  predicate DirOk(inodes: Inodes, d: nat) {
    d > 0 && NamesOk(inodes, d) && DotsOk(inodes, d) && KidsOk(inodes, d)
  }

  ghost predicate TreeOk(inodes: Inodes) {
    && ROOT < |inodes| && Live(inodes[ROOT])
    && (forall d {:trigger DirOk(inodes, d)} :: 0 <= d < |inodes| && Live(inodes[d]) ==> DirOk(inodes, d))
  }

  /** An empty directory is named by one entry, the one its parent has for it. */
  lemma EmptyHasOneRef(inodes: Inodes, d: nat, p: nat, k: nat)
    requires TreeOk(inodes) && 0 < p < |inodes| && Live(inodes[p])
    requires k < |inodes[p].ents| && Ordinary(inodes[p].ents[k]) && inodes[p].ents[k].inum == d < |inodes| && inodes[d].kind.Dir?
    requires forall j :: 2 <= j < |inodes[d].ents| ==> inodes[d].ents[j].inum == 0
    ensures d != ROOT && d != p && Live(inodes[d]) && Refs(inodes, d) == 1 && |inodes[d].ents| >= 2 && inodes[d].ents[1].inum == p
  {
    KidOf(inodes, d, p, k);
    hide TreeOk, Live;
    OneRef(inodes, d, p, k);
  }

  lemma KidOf(inodes: Inodes, d: nat, p: nat, k: nat)
    requires TreeOk(inodes) && 0 < p < |inodes| && Live(inodes[p])
    requires k < |inodes[p].ents| && Ordinary(inodes[p].ents[k]) && inodes[p].ents[k].inum == d < |inodes| && inodes[d].kind.Dir?
    requires forall j :: 2 <= j < |inodes[d].ents| ==> inodes[d].ents[j].inum == 0
    ensures KidOk(inodes, p, d) && NamesOk(inodes, p) && DotsOk(inodes, p) && KidsOk(inodes, p) && d > 0
    ensures forall j :: 0 <= j < |inodes[d].ents| ==> !Ordinary(inodes[d].ents[j])
    ensures d != p
  {
    assert DirOk(inodes, p);
    assert KidOk(inodes, p, d);
    assert DirOk(inodes, d);
  }

  lemma OneRef(inodes: Inodes, d: nat, p: nat, k: nat)
    requires TreeOk(inodes) && 0 < p < |inodes| && Live(inodes[p]) && d != p && KidOk(inodes, p, d) && NamesOk(inodes, p) && DotsOk(inodes, p) && KidsOk(inodes, p)
    requires k < |inodes[p].ents| && Ordinary(inodes[p].ents[k]) && inodes[p].ents[k].inum == d < |inodes| && inodes[d].kind.Dir?
    requires forall j :: 0 <= j < |inodes[d].ents| ==> !Ordinary(inodes[d].ents[j])
    ensures Refs(inodes, d) == 1
  {
    hide TreeOk, NamesOk, DotsOk, KidsOk;
    forall c | 0 <= c < |inodes| && c != p ensures Weight(inodes[c], d) == 0 {
      if Live(inodes[c]) {
        NoEntryFor(inodes, c, p, d);
      }
    }
    RefsOne(inodes, p, d);
    forall j | 0 <= j < |inodes[p].ents| && j != k ensures !NamesIt(inodes[p].ents[j], d) {
      OnlyEntry(inodes, p, d, k, j);
    }
    CountOne(inodes[p].ents, k, d);
  }

  /** A directory other than the parent has no entry for an empty directory. */
  lemma NoEntryFor(inodes: Inodes, c: nat, p: nat, d: nat)
    requires TreeOk(inodes) && c < |inodes| && Live(inodes[c]) && c != p && d < |inodes| && d != ROOT && Live(inodes[d])
    requires |inodes[d].ents| >= 2 && inodes[d].ents[1].inum == p && forall j :: 0 <= j < |inodes[d].ents| ==> !Ordinary(inodes[d].ents[j])
    ensures CountIn(inodes[c].ents, d) == 0
  {
    assert DirOk(inodes, c) && DirOk(inodes, d);
    assert !Lists(inodes, d, c);
    forall j | 0 <= j < |inodes[c].ents| ensures !NamesIt(inodes[c].ents[j], d) {
      var e := inodes[c].ents[j];
      assert Ordinary(e) && e.inum == d ==> KidOk(inodes, c, d);
      assert e.name == ".." && e.inum != 0 ==> j == 1;
    }
    CountNone(inodes[c].ents, d);
  }

  lemma OnlyEntry(inodes: Inodes, p: nat, d: nat, k: nat, j: nat)
    requires NamesOk(inodes, p) && DotsOk(inodes, p) && KidsOk(inodes, p) && k < |inodes[p].ents| && j < |inodes[p].ents| && j != k
    requires Ordinary(inodes[p].ents[k]) && inodes[p].ents[k].inum == d < |inodes| && inodes[d].kind.Dir? && d != ROOT
    requires forall i :: 0 <= i < |inodes[d].ents| ==> !Ordinary(inodes[d].ents[i])
    ensures !NamesIt(inodes[p].ents[j], d)
  {
    var e := inodes[p].ents[j];
    assert e.name == ".." && e.inum != 0 ==> j == 1;
    assert k < j || j < k;
  }

  // ----- entries written -----

  /** Entry `off` of a directory is written, or one more is appended. */
  function PutEntry(n: Inode, off: nat, e: Dirent): Inode
    requires off <= |n.ents|
  {
    n.(ents := if off < |n.ents| then n.ents[off := e] else n.ents + [e])
  }

  lemma WeightPut(n: Inode, off: nat, e: Dirent, i: nat)
    requires off <= |n.ents| && Live(n)
    ensures Weight(PutEntry(n, off, e), i) ==
            Weight(n, i) - (if off < |n.ents| && NamesIt(n.ents[off], i) then 1 else 0) + (if NamesIt(e, i) then 1 else 0)
  {
    if off < |n.ents| {
      CountSet(n.ents, off, e, i);
    } else {
      CountPush(n.ents, e, i);
    }
  }

  /** No used entry of the directory has this name. */
  predicate NoSuchName(n: Inode, name: Name) {
    forall k :: 0 <= k < |n.ents| && n.ents[k].inum != 0 ==> n.ents[k].name != name
  }

  predicate EmptyAt(n: Inode, off: nat) {
    off == |n.ents| || (off < |n.ents| && n.ents[off].inum == 0)
  }

  /** Link counts of inodes that are not directories do not matter to the tree. */
  lemma TreeIgnoresLinks(inodes: Inodes, i: nat, nlink: int)
    requires TreeOk(inodes) && i < |inodes| && (!inodes[i].kind.Dir? || (inodes[i].nlink > 0 && nlink > 0))
    ensures TreeOk(inodes[i := inodes[i].(nlink := nlink)])
  {
    var inodes' := inodes[i := inodes[i].(nlink := nlink)];
    forall d | 0 <= d < |inodes'| && Live(inodes'[d])
      ensures DirOk(inodes', d)
    {
      SameDir(inodes, inodes', d);
    }
  }

  /** Two tables with the same directories and entries. */
  lemma SameDir(inodes: Inodes, inodes': Inodes, d: nat)
    requires TreeOk(inodes) && |inodes'| == |inodes| && d < |inodes| && Live(inodes[d])
    requires forall i :: 0 <= i < |inodes| ==>
               inodes'[i].kind.Dir? == inodes[i].kind.Dir? && inodes'[i].ents == inodes[i].ents && (Live(inodes'[i]) <==> Live(inodes[i]))
    ensures DirOk(inodes', d)
  {
    assert DirOk(inodes, d);
    var p := inodes[d].ents[1].inum;
    if d != ROOT {
      var k :| 0 <= k < |inodes[p].ents| && Ordinary(inodes[p].ents[k]) && inodes[p].ents[k].inum == d;
      assert inodes'[p].ents[k].inum == d;
    }
    forall k | 0 <= k < |inodes'[d].ents| && Ordinary(inodes'[d].ents[k]) && inodes'[d].ents[k].inum < |inodes'|
               && inodes'[inodes'[d].ents[k].inum].kind.Dir?
      ensures KidOk(inodes', d, inodes'[d].ents[k].inum)
    {
      assert KidOk(inodes, d, inodes[d].ents[k].inum);
    }
  }

  /** An entry for something that is not a directory comes or goes. */
  lemma TreePlain(inodes: Inodes, p: nat, off: nat, e: Dirent)
    requires TreeOk(inodes) && PlainOk(inodes, p, off, e)
    ensures TreeOk(inodes[p := PutEntry(inodes[p], off, e)])
  {
    var inodes' := inodes[p := PutEntry(inodes[p], off, e)];
    forall d | 0 <= d < |inodes'| && Live(inodes'[d])
      ensures DirOk(inodes', d)
    {
      PlainDir(inodes, p, off, e, d);
    }
  }

  /** The entry may be written: a new name for something that is not a directory,
      or the clearing of such a name. */
  predicate PlainOk(inodes: Inodes, p: nat, off: nat, e: Dirent) {
    && 0 < p < |inodes| && Live(inodes[p]) && off <= |inodes[p].ents| && e.inum < |inodes|
    && if e.inum != 0 then EmptyAt(inodes[p], off) && Ordinary(e) && NoSuchName(inodes[p], e.name) && !inodes[e.inum].kind.Dir?
       else off < |inodes[p].ents| && Ordinary(inodes[p].ents[off]) && inodes[p].ents[off].inum < |inodes|
            && !inodes[inodes[p].ents[off].inum].kind.Dir?
  }

  lemma PlainNames(inodes: Inodes, p: nat, off: nat, e: Dirent)
    requires PlainOk(inodes, p, off, e) && NamesOk(inodes, p)
    ensures NamesOk(inodes[p := PutEntry(inodes[p], off, e)], p)
  {
  }

  /** The other entries stand. */
  lemma OtherEntries(n: Inode, off: nat, e: Dirent, k: nat)
    requires off <= |n.ents| && k < |n.ents| && k != off
    ensures k < |PutEntry(n, off, e).ents| && PutEntry(n, off, e).ents[k] == n.ents[k]
  {
  }

  lemma PlainDots(inodes: Inodes, p: nat, off: nat, e: Dirent, d: nat)
    requires PlainOk(inodes, p, off, e) && d < |inodes| && Live(inodes[d]) && DotsOk(inodes, d) && DotsOk(inodes, p)
    ensures DotsOk(inodes[p := PutEntry(inodes[p], off, e)], d)
  {
    var inodes' := inodes[p := PutEntry(inodes[p], off, e)];
    OtherEntries(inodes[p], off, e, 0);
    OtherEntries(inodes[p], off, e, 1);
    var q := inodes[d].ents[1].inum;
    if d != ROOT {
      var k :| 0 <= k < |inodes[q].ents| && Ordinary(inodes[q].ents[k]) && inodes[q].ents[k].inum == d;
      if q == p {
        OtherEntries(inodes[p], off, e, k);
      }
      assert inodes'[q].ents[k].inum == d;
    }
  }

  lemma PlainKids(inodes: Inodes, p: nat, off: nat, e: Dirent, d: nat)
    requires PlainOk(inodes, p, off, e) && d < |inodes| && Live(inodes[d]) && KidsOk(inodes, d) && DotsOk(inodes, p)
    ensures KidsOk(inodes[p := PutEntry(inodes[p], off, e)], d)
  {
    var inodes' := inodes[p := PutEntry(inodes[p], off, e)];
    OtherEntries(inodes[p], off, e, 1);
    forall k | 0 <= k < |inodes'[d].ents| && Ordinary(inodes'[d].ents[k]) && inodes'[d].ents[k].inum < |inodes'|
               && inodes'[inodes'[d].ents[k].inum].kind.Dir?
      ensures KidOk(inodes', d, inodes'[d].ents[k].inum)
    {
      assert inodes'[d].ents[k] == inodes[d].ents[k];
      assert KidOk(inodes, d, inodes[d].ents[k].inum);
    }
  }

  lemma PlainDir(inodes: Inodes, p: nat, off: nat, e: Dirent, d: nat)
    requires TreeOk(inodes) && PlainOk(inodes, p, off, e) && d < |inodes| && Live(inodes[d])
    ensures DirOk(inodes[p := PutEntry(inodes[p], off, e)], d)
  {
    assert DirOk(inodes, d) && DirOk(inodes, p);
    PlainDots(inodes, p, off, e, d);
    PlainKids(inodes, p, off, e, d);
    if d == p {
      PlainNames(inodes, p, off, e);
    }
  }

  // ----- directories made and removed -----

  /** A new directory i, listed in p under a new name. */
  function WithDir(inodes: Inodes, p: nat, off: nat, name: Name, i: nat): Inodes
    requires p < |inodes| && i < |inodes| && off <= |inodes[p].ents|
  {
    inodes[i := Inode(Dir, 1, [Dirent(i, "."), Dirent(p, "..")])][p := PutEntry(inodes[p], off, Dirent(i, name)).(nlink := inodes[p].nlink + 1)]
  }

  predicate NewDirOk(inodes: Inodes, p: nat, off: nat, name: Name, i: nat) {
    && 0 < p < |inodes| && Live(inodes[p]) && off <= |inodes[p].ents| && EmptyAt(inodes[p], off)
    && 0 < i < |inodes| && i != ROOT && i != p && inodes[i].kind.Unused?
    && name != "." && name != ".." && NoSuchName(inodes[p], name)
  }

  /** Nothing in the tree lists the free inode i. */
  ghost predicate Unlisted(inodes: Inodes, i: nat) {
    forall d, k :: 0 <= d < |inodes| && Live(inodes[d]) && 0 <= k < |inodes[d].ents| ==> !NamesIt(inodes[d].ents[k], i)
  }

  lemma FreeIsUnlisted(inodes: Inodes, i: nat)
    requires Shape(inodes) && 0 < i < |inodes| && inodes[i].kind.Unused?
    ensures Unlisted(inodes, i)
    ensures forall d :: 0 <= d < |inodes| && inodes[d].kind.Dir? ==> CountIn(inodes[d].ents, i) == 0
  {
    forall d | 0 <= d < |inodes| && inodes[d].kind.Dir? ensures CountIn(inodes[d].ents, i) == 0 {
      assert DirShape(inodes, d);
      CountNone(inodes[d].ents, i);
    }
    forall d, k | 0 <= d < |inodes| && Live(inodes[d]) && 0 <= k < |inodes[d].ents| ensures !NamesIt(inodes[d].ents[k], i) {
      CountNone(inodes[d].ents, i);
    }
  }

  lemma MadeNames(inodes: Inodes, p: nat, off: nat, name: Name, i: nat)
    requires NewDirOk(inodes, p, off, name, i) && NamesOk(inodes, p)
    ensures NamesOk(WithDir(inodes, p, off, name, i), p) && NamesOk(WithDir(inodes, p, off, name, i), i)
  {
  }

  lemma MadeDots(inodes: Inodes, p: nat, off: nat, name: Name, i: nat, d: nat)
    requires NewDirOk(inodes, p, off, name, i) && DotsOk(inodes, p) && d < |inodes| && (d == i || (Live(inodes[d]) && DotsOk(inodes, d)))
    ensures DotsOk(WithDir(inodes, p, off, name, i), d)
  {
    var inodes' := WithDir(inodes, p, off, name, i);
    var e := Dirent(i, name);
    OtherEntries(inodes[p], off, e, 0);
    OtherEntries(inodes[p], off, e, 1);
    if d == i {
      assert inodes'[p].ents[off] == e;
      assert Lists(inodes', p, i);
    } else if d != ROOT {
      var q := inodes[d].ents[1].inum;
      var k :| 0 <= k < |inodes[q].ents| && Ordinary(inodes[q].ents[k]) && inodes[q].ents[k].inum == d;
      if q == p {
        OtherEntries(inodes[p], off, e, k);
      }
      assert inodes'[q].ents[k].inum == d;
    }
  }

  lemma MadeKids(inodes: Inodes, p: nat, off: nat, name: Name, i: nat, d: nat)
    requires NewDirOk(inodes, p, off, name, i) && DotsOk(inodes, p) && d < |inodes| && d != i && Live(inodes[d]) && KidsOk(inodes, d) && Unlisted(inodes, i)
    ensures KidsOk(WithDir(inodes, p, off, name, i), d)
  {
    var inodes' := WithDir(inodes, p, off, name, i);
    OtherEntries(inodes[p], off, Dirent(i, name), 1);
    forall k | 0 <= k < |inodes[d].ents| && Ordinary(inodes[d].ents[k]) ensures inodes[d].ents[k].inum != i {
      assert !NamesIt(inodes[d].ents[k], i);
    }
    forall k | 0 <= k < |inodes'[d].ents| && Ordinary(inodes'[d].ents[k]) && inodes'[d].ents[k].inum < |inodes'|
               && inodes'[inodes'[d].ents[k].inum].kind.Dir?
      ensures KidOk(inodes', d, inodes'[d].ents[k].inum)
    {
      if !(d == p && k == off) {
        assert inodes'[d].ents[k] == inodes[d].ents[k];
        assert KidOk(inodes, d, inodes[d].ents[k].inum);
      }
    }
  }

  lemma TreeMade(inodes: Inodes, p: nat, off: nat, name: Name, i: nat)
    requires TreeOk(inodes) && NewDirOk(inodes, p, off, name, i) && Unlisted(inodes, i)
    ensures TreeOk(WithDir(inodes, p, off, name, i))
  {
    var inodes' := WithDir(inodes, p, off, name, i);
    assert DirOk(inodes, p);
    MadeNames(inodes, p, off, name, i);
    forall d | 0 <= d < |inodes'| && Live(inodes'[d]) ensures DirOk(inodes', d) {
      if d != i {
        assert DirOk(inodes, d);
        MadeKids(inodes, p, off, name, i, d);
      }
      MadeDots(inodes, p, off, name, i, d);
    }
  }

  /** An empty directory i loses its entry in p and its link; p loses one for "..". */
  function WithoutDir(inodes: Inodes, p: nat, off: nat, i: nat): Inodes
    requires p < |inodes| && i < |inodes| && off <= |inodes[p].ents|
  {
    inodes[p := PutEntry(inodes[p], off, Dirent(0, "")).(nlink := inodes[p].nlink - 1)][i := inodes[i].(nlink := inodes[i].nlink - 1)]
  }

  /** What unlink knows when it removes a directory. */
  predicate OldDirOk(inodes: Inodes, p: nat, off: nat, i: nat) {
    && 0 < p < |inodes| && Live(inodes[p]) && off < |inodes[p].ents| && Ordinary(inodes[p].ents[off]) && inodes[p].ents[off].inum == i
    && i < |inodes| && i != p && i != ROOT && inodes[i].kind.Dir? && |inodes[i].ents| >= 2
    && (forall j :: 2 <= j < |inodes[i].ents| ==> inodes[i].ents[j].inum == 0)
  }

  /** The parent keeps a link, and the directory loses its last. */
  predicate Removable(inodes: Inodes, p: nat, i: nat) {
    p < |inodes| && i < |inodes| && inodes[p].nlink > 1 && inodes[i].nlink == 1
  }

  lemma GoneDots(inodes: Inodes, p: nat, off: nat, i: nat, d: nat)
    requires OldDirOk(inodes, p, off, i) && Removable(inodes, p, i) && DotsOk(inodes, p) && DotsOk(inodes, i) && d < |inodes| && d != i && Live(inodes[d]) && DotsOk(inodes, d)
    ensures DotsOk(WithoutDir(inodes, p, off, i), d)
  {
    var inodes' := WithoutDir(inodes, p, off, i);
    var none := Dirent(0, "");
    OtherEntries(inodes[p], off, none, 0);
    OtherEntries(inodes[p], off, none, 1);
    var q := inodes[d].ents[1].inum;
    assert !Lists(inodes, i, d);
    if d != ROOT {
      var k :| 0 <= k < |inodes[q].ents| && Ordinary(inodes[q].ents[k]) && inodes[q].ents[k].inum == d;
      if q == p {
        OtherEntries(inodes[p], off, none, k);
      }
      assert inodes'[q].ents[k].inum == d;
    }
  }

  lemma GoneKids(inodes: Inodes, p: nat, off: nat, i: nat, d: nat)
    requires OldDirOk(inodes, p, off, i) && Removable(inodes, p, i) && DotsOk(inodes, p) && d < |inodes| && d != i && Live(inodes[d]) && KidsOk(inodes, d) && KidsOk(inodes, p)
    ensures KidsOk(WithoutDir(inodes, p, off, i), d)
  {
    var inodes' := WithoutDir(inodes, p, off, i);
    var none := Dirent(0, "");
    OtherEntries(inodes[p], off, none, 1);
    assert KidOk(inodes, p, i);
    forall k | 0 <= k < |inodes'[d].ents| && Ordinary(inodes'[d].ents[k]) && inodes'[d].ents[k].inum < |inodes'|
               && inodes'[inodes'[d].ents[k].inum].kind.Dir?
      ensures KidOk(inodes', d, inodes'[d].ents[k].inum)
    {
      assert inodes'[d].ents[k] == inodes[d].ents[k];
      assert KidOk(inodes, d, inodes[d].ents[k].inum);
      assert inodes[d].ents[k].inum == i ==> d == p && k == off;
    }
  }

  lemma TreeGone(inodes: Inodes, p: nat, off: nat, i: nat)
    requires TreeOk(inodes) && OldDirOk(inodes, p, off, i) && Removable(inodes, p, i)
    ensures TreeOk(WithoutDir(inodes, p, off, i))
  {
    var inodes' := WithoutDir(inodes, p, off, i);
    assert DirOk(inodes, p) && DirOk(inodes, i);
    forall d | 0 <= d < |inodes'| && Live(inodes'[d]) ensures DirOk(inodes', d) {
      assert DirOk(inodes, d);
      GoneKids(inodes, p, off, i, d);
      GoneDots(inodes, p, off, i, d);
    }
  }

  /** unlink of an empty directory keeps the tree exactly if its parent keeps a link
      and it loses its last. */
  lemma RemovalIff(inodes: Inodes, p: nat, off: nat, i: nat)
    requires TreeOk(inodes) && Shape(inodes) && OldDirOk(inodes, p, off, i) && inodes[i].nlink >= 1
    ensures TreeOk(WithoutDir(inodes, p, off, i)) <==> Removable(inodes, p, i)
  {
    if Removable(inodes, p, i) {
      TreeGone(inodes, p, off, i);
    } else if inodes[p].nlink <= 1 {
      ParentGone(inodes, p, off, i);
    } else {
      StillLinked(inodes, p, off, i);
    }
  }

  lemma ParentGone(inodes: Inodes, p: nat, off: nat, i: nat)
    requires TreeOk(inodes) && Shape(inodes) && OldDirOk(inodes, p, off, i) && inodes[p].nlink <= 1
    ensures !TreeOk(WithoutDir(inodes, p, off, i))
  {
    var inodes' := WithoutDir(inodes, p, off, i);
    if p != ROOT {
      assert DirOk(inodes, p) && DirOk(inodes, i) && DirShape(inodes, p);
      var q := inodes[p].ents[1].inum;
      assert !Lists(inodes, i, p);
      var k :| 0 <= k < |inodes[q].ents| && Ordinary(inodes[q].ents[k]) && inodes[q].ents[k].inum == p;
      assert q != i && q != p && inodes'[q] == inodes[q];
      assert !KidOk(inodes', q, p);
      assert !DirOk(inodes', q);
    }
  }

  lemma StillLinked(inodes: Inodes, p: nat, off: nat, i: nat)
    requires TreeOk(inodes) && Shape(inodes) && OldDirOk(inodes, p, off, i) && inodes[p].nlink > 1 && inodes[i].nlink > 1
    ensures !TreeOk(WithoutDir(inodes, p, off, i))
  {
    var inodes' := WithoutDir(inodes, p, off, i);
    assert DirOk(inodes, p) && KidOk(inodes, p, i);
    forall k | 0 <= k < |inodes'[p].ents| ensures !(Ordinary(inodes'[p].ents[k]) && inodes'[p].ents[k].inum == i) {
      assert k != off ==> inodes'[p].ents[k] == inodes[p].ents[k];
      assert k < off || k == off || off < k;
    }
    assert !Lists(inodes', p, i);
    assert !DirOk(inodes', i);
  }

  /** What a directory without links holds does not matter to the tree. */
  lemma TreeIgnoresDead(inodes: Inodes, p: nat, n: Inode)
    requires TreeOk(inodes) && p < |inodes| && !Live(inodes[p]) && !Live(n) && n.kind.Dir? == inodes[p].kind.Dir?
    ensures TreeOk(inodes[p := n])
  {
    var inodes' := inodes[p := n];
    forall d | 0 <= d < |inodes'| && Live(inodes'[d]) ensures DirOk(inodes', d) {
      assert DirOk(inodes, d);
      var q := inodes[d].ents[1].inum;
      if d != ROOT {
        var k :| 0 <= k < |inodes[q].ents| && Ordinary(inodes[q].ents[k]) && inodes[q].ents[k].inum == d;
        assert inodes'[q].ents[k].inum == d;
      }
      forall k | 0 <= k < |inodes'[d].ents| && Ordinary(inodes'[d].ents[k]) && inodes'[d].ents[k].inum < |inodes'|
                 && inodes'[inodes'[d].ents[k].inum].kind.Dir?
        ensures KidOk(inodes', d, inodes'[d].ents[k].inum)
      {
        assert KidOk(inodes, d, inodes[d].ents[k].inum);
      }
    }
  }

  // ----- link counts after a change -----

  /** The entry may be written in any directory: a new name for inode i, which is not
      the directory, or the clearing of such a name. */
  predicate EntryOk(inodes: Inodes, p: nat, off: nat, e: Dirent, i: nat) {
    && 0 < p < |inodes| && inodes[p].kind.Dir? && off <= |inodes[p].ents| && 0 < i < |inodes| && i != p
    && if e.inum != 0 then EmptyAt(inodes[p], off) && Ordinary(e) && e.inum == i && NoSuchName(inodes[p], e.name)
       else off < |inodes[p].ents| && Ordinary(inodes[p].ents[off]) && inodes[p].ents[off].inum == i
  }

  /** One entry for inode i comes or goes and i's link count moves by one with it. In a
      directory with links no slack moves; in one without, the entry does not count. */
  lemma SlackPlain(inodes: Inodes, p: nat, off: nat, e: Dirent, i: nat, n: Inode)
    requires EntryOk(inodes, p, off, e, i) && !inodes[i].kind.Dir? && !n.kind.Dir?
    requires n.nlink == inodes[i].nlink + if e.inum != 0 then 1 else -1
    ensures SlackBut(inodes, inodes[p := PutEntry(inodes[p], off, e)][i := n], i,
                     if Live(inodes[p]) then 0 else if e.inum != 0 then 1 else -1)
  {
    var mid: Inodes := inodes[p := PutEntry(inodes[p], off, e)];
    var inodes': Inodes := mid[i := n];
    forall j | 0 < j < |inodes|
      ensures Slack(inodes', j) == Slack(inodes, j) + if j == i && !Live(inodes[p]) then (if e.inum != 0 then 1 else -1) else 0
    {
      RefsSet(mid, i, n, j);
      RefsSet(inodes, p, PutEntry(inodes[p], off, e), j);
      if Live(inodes[p]) {
        WeightPut(inodes[p], off, e, j);
      }
    }
  }

  lemma DotsWeight(ents: seq<Dirent>, i: nat, p: nat, j: nat)
    requires |ents| >= 2 && ents[0] == Dirent(i, ".") && ents[1] == Dirent(p, "..") && j > 0
    requires forall k :: 2 <= k < |ents| ==> ents[k].inum == 0
    ensures CountIn(ents, j) == if j == p then 1 else 0
  {
    if j == p {
      CountOne(ents, 1, j);
    } else {
      CountNone(ents, j);
    }
  }

  /** How mkdir in p moves the slack of inode j. A directory that has lost its last link
      gets one back for the new "..", and all its entries count again; if its count was
      below zero, the new directory's own entry does not count. */
  function MadeDrift(inodes: Inodes, p: nat, i: nat, j: nat): int
    requires p < |inodes|
  {
    if Live(inodes[p]) then 0
    else if inodes[p].nlink == 0 then 0 - CountIn(inodes[p].ents, j)
    else if j == i then 1 else 0
  }

  ghost predicate Drifted(inodes: Inodes, inodes': Inodes, p: nat, i: nat)
    requires p < |inodes|
  {
    |inodes'| == |inodes| && forall j :: 0 < j < |inodes| ==> Slack(inodes', j) == Slack(inodes, j) + MadeDrift(inodes, p, i, j)
  }

  lemma SlackMade(inodes: Inodes, p: nat, off: nat, name: Name, i: nat)
    requires Shape(inodes) && EntryOk(inodes, p, off, Dirent(i, name), i) && inodes[i].kind.Unused?
    ensures Drifted(inodes, WithDir(inodes, p, off, name, i), p, i)
  {
    var e := Dirent(i, name);
    var dir := Inode(Dir, 1, [Dirent(i, "."), Dirent(p, "..")]);
    var mid := inodes[i := dir];
    var n := PutEntry(inodes[p], off, e).(nlink := inodes[p].nlink + 1);
    var inodes' := WithDir(inodes, p, off, name, i);
    FreeIsUnlisted(inodes, i);
    hide Shape;
    forall j | 0 < j < |inodes| ensures Slack(inodes', j) == Slack(inodes, j) + MadeDrift(inodes, p, i, j) {
      RefsSet(mid, p, n, j);
      RefsSet(inodes, i, dir, j);
      CountPut(inodes[p], off, e, j);
      DotsWeight(dir.ents, i, p, j);
    }
  }

  lemma CountPut(n: Inode, off: nat, e: Dirent, i: nat)
    requires off <= |n.ents| && EmptyAt(n, off) && i > 0
    ensures CountIn(PutEntry(n, off, e).ents, i) == CountIn(n.ents, i) + (if NamesIt(e, i) then 1 else 0)
  {
    if off < |n.ents| {
      CountSet(n.ents, off, e, i);
    } else {
      CountPush(n.ents, e, i);
    }
  }

  /** mkdir keeps every slack exactly if the parent still has links. */
  lemma MadeIff(inodes: Inodes, p: nat, off: nat, name: Name, i: nat)
    requires Shape(inodes) && EntryOk(inodes, p, off, Dirent(i, name), i) && inodes[i].kind.Unused?
    ensures SameSlack(inodes, WithDir(inodes, p, off, name, i)) <==> Live(inodes[p])
  {
    SlackMade(inodes, p, off, name, i);
    if !Live(inodes[p]) {
      assert DirShape(inodes, p);
      var g := inodes[p].ents[1].inum;
      CountNone(inodes[p].ents, g);
      assert NamesIt(inodes[p].ents[1], g);
      var j := if inodes[p].nlink == 0 then g else i;
      assert MadeDrift(inodes, p, i, j) != 0;
    }
  }

  /** mkdir in a directory without links leaves the tree broken. */
  lemma TreeMadeIff(inodes: Inodes, p: nat, off: nat, name: Name, i: nat)
    requires TreeOk(inodes) && Shape(inodes) && EntryOk(inodes, p, off, Dirent(i, name), i) && inodes[i].kind.Unused?
    ensures TreeOk(WithDir(inodes, p, off, name, i)) <==> Live(inodes[p])
  {
    FreeIsUnlisted(inodes, i);
    if Live(inodes[p]) {
      TreeMade(inodes, p, off, name, i);
    } else {
      MadeInDead(inodes, p, off, name, i);
    }
  }

  lemma MadeInDead(inodes: Inodes, p: nat, off: nat, name: Name, i: nat)
    requires TreeOk(inodes) && Shape(inodes) && EntryOk(inodes, p, off, Dirent(i, name), i) && inodes[i].kind.Unused? && !Live(inodes[p])
    ensures !TreeOk(WithDir(inodes, p, off, name, i))
  {
    var inodes' := WithDir(inodes, p, off, name, i);
    assert DirShape(inodes, p) && p != ROOT;
    if inodes[p].nlink < 0 {
      assert inodes'[i].ents[1].inum == p && !Live(inodes'[p]);
      assert !DirOk(inodes', i);
    } else {
      OtherEntries(inodes[p], off, Dirent(i, name), 1);
      var g := inodes[p].ents[1].inum;
      if Live(inodes'[g]) {
        DeadIsUnlisted(inodes, p, off, name, i, g);
      }
      assert !DirOk(inodes', p);
    }
  }

  lemma DeadIsUnlisted(inodes: Inodes, p: nat, off: nat, name: Name, i: nat, g: nat)
    requires TreeOk(inodes) && Shape(inodes) && EntryOk(inodes, p, off, Dirent(i, name), i) && inodes[i].kind.Unused? && !Live(inodes[p])
    requires g < |inodes| && Live(WithDir(inodes, p, off, name, i)[g])
    ensures !Lists(WithDir(inodes, p, off, name, i), g, p)
  {
    var inodes' := WithDir(inodes, p, off, name, i);
    assert DirShape(inodes, p);
    forall k | 0 <= k < |inodes'[g].ents| ensures !(Ordinary(inodes'[g].ents[k]) && inodes'[g].ents[k].inum == p) {
      if g == p && k != off {
        OtherEntries(inodes[p], off, Dirent(i, name), k);
      } else if g != p && g != i {
        assert DirOk(inodes, g) && !KidOk(inodes, g, p);
      }
    }
  }

  /** Removal of a directory keeps every slack, if the parent keeps a link and the
      directory loses its last. */
  lemma SlackGone(inodes: Inodes, p: nat, off: nat, i: nat)
    requires OldDirOk(inodes, p, off, i) && Removable(inodes, p, i)
    requires inodes[i].ents[0] == Dirent(i, ".") && inodes[i].ents[1] == Dirent(p, "..")
    ensures SameSlack(inodes, WithoutDir(inodes, p, off, i))
  {
    var none := Dirent(0, "");
    var n := PutEntry(inodes[p], off, none).(nlink := inodes[p].nlink - 1);
    var mid := inodes[p := n];
    var gone := inodes[i].(nlink := inodes[i].nlink - 1);
    var inodes' := WithoutDir(inodes, p, off, i);
    forall j | 0 < j < |inodes| ensures Slack(inodes', j) == Slack(inodes, j) {
      RefsSet(mid, i, gone, j);
      RefsSet(inodes, p, n, j);
      WeightPut(inodes[p], off, none, j);
      DotsWeight(inodes[i].ents, i, p, j);
    }
  }

  /** A link count changes in a directory that had links and still has. */
  lemma SlackNlink(inodes: Inodes, p: nat, nlink: int)
    requires 0 < p < |inodes| && Live(inodes[p]) && nlink > 0
    ensures SlackBut(inodes, inodes[p := inodes[p].(nlink := nlink)], p, nlink - inodes[p].nlink)
  {
    var n := inodes[p].(nlink := nlink);
    forall j | 0 < j < |inodes| ensures Slack(inodes[p := n], j) == Slack(inodes, j) + if j == p then nlink - inodes[p].nlink else 0 {
      RefsSet(inodes, p, n, j);
    }
  }

  lemma {:induction false} RefsTwo(inodes: Inodes, c: nat, d: nat, i: nat)
    requires c < |inodes| && d < |inodes| && c != d
    ensures Refs(inodes, i) >= Weight(inodes[c], i) + Weight(inodes[d], i)
  {
    var none := Inode(Unused, 0, []);
    RefsSet(inodes, c, none, i);
    RefsSet(inodes[c := none], d, none, i);
  }

  lemma EntryWeighs(n: Inode, k: nat, i: nat)
    requires Live(n) && k < |n.ents| && NamesIt(n.ents[k], i)
    ensures Weight(n, i) >= 1
  {
    CountNone(n.ents, i);
  }

  /** A directory with a subdirectory is named by at least two entries. */
  lemma ParentHasTwoRefs(inodes: Inodes, p: nat, off: nat, i: nat)
    requires TreeOk(inodes) && OldDirOk(inodes, p, off, i)
    ensures Refs(inodes, p) >= 2 && inodes[i].ents[0] == Dirent(i, ".") && inodes[i].ents[1] == Dirent(p, "..")
  {
    assert DirOk(inodes, p) && KidOk(inodes, p, i) && DirOk(inodes, i);
    var q := inodes[p].ents[1].inum;
    EntryWeighs(inodes[i], 1, p);
    assert !Lists(inodes, i, p);
    if p == ROOT {
      EntryWeighs(inodes[p], 1, p);
      RefsTwo(inodes, i, p, p);
    } else {
      var k :| 0 <= k < |inodes[q].ents| && Ordinary(inodes[q].ents[k]) && inodes[q].ents[k].inum == p;
      EntryWeighs(inodes[q], k, p);
      RefsTwo(inodes, i, q, p);
    }
  }

  /** The condition in terms of slack: the directory has none, and the parent's does not
      use up all its entries. On a balanced file system it always holds. */
  lemma RemovableBySlack(inodes: Inodes, p: nat, off: nat, i: nat)
    requires TreeOk(inodes) && OldDirOk(inodes, p, off, i)
    ensures Removable(inodes, p, i) <==> Slack(inodes, i) == 0 && Slack(inodes, p) > 1 - Refs(inodes, p)
    ensures Slack(inodes, i) == 0 && Slack(inodes, p) >= 0 ==> Removable(inodes, p, i)
  {
    EmptyHasOneRef(inodes, i, p, off);
    ParentHasTwoRefs(inodes, p, off, i);
    hide TreeOk;
  }
}
