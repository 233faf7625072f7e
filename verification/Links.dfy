/** create, link and unlink (kernel/sysfile.c) with dirlookup and dirlink
    (kernel/fs.c), updating inodes and directories in place. Path lookup is not
    part of this model: the inodes it finds are parameters. */
module Links {
  import opened Options
  import opened Directories

  /** Entry k is the one the name finds. */
  predicate Found(n: Inode, name: Name, k: nat) {
    && k < |n.ents| && n.ents[k].inum != 0 && n.ents[k].name == name
    && forall j :: 0 <= j < k && n.ents[j].inum != 0 ==> n.ents[j].name != name
  }

  /** The entry dirlink fills. */
  predicate FirstEmpty(n: Inode, off: nat) {
    off <= |n.ents| && EmptyAt(n, off) && forall j :: 0 <= j < off ==> n.ents[j].inum != 0
  }

  /** Directory p with entry off set to e, and inode i in its new state n. */
  function Relinked(inodes: Inodes, p: nat, off: nat, e: Dirent, i: nat, n: Inode): Inodes
    requires p < |inodes| && i < |inodes| && off <= |inodes[p].ents|
  {
    inodes[p := PutEntry(inodes[p], off, e)][i := n]
  }

  /** What unlink leaves: the entry is gone and what it named has one link less; a
      directory also takes its parent's link for the dots with it. */
  function Unlinked(inodes: Inodes, p: nat, off: nat): Inodes
    requires p < |inodes| && off < |inodes[p].ents| && inodes[p].ents[off].inum < |inodes|
  {
    var i := inodes[p].ents[off].inum;
    if inodes[i].kind.Dir? then WithoutDir(inodes, p, off, i)
    else Relinked(inodes, p, off, Dirent(0, ""), i, inodes[i].(nlink := inodes[i].nlink - 1))
  }

  /** The name is that of a directory with entries of its own. */
  predicate InUse(inodes: Inodes, p: nat, name: Name) {
    && p < |inodes|
    && exists k :: 0 <= k < |inodes[p].ents| && Found(inodes[p], name, k) && inodes[p].ents[k].inum < |inodes|
         && inodes[inodes[p].ents[k].inum].kind.Dir? && !Bare(inodes[inodes[p].ents[k].inum])
  }

  /** No entries but the dots. */
  predicate Bare(n: Inode) {
    forall j :: 2 <= j < |n.ents| ==> n.ents[j].inum == 0
  }

  lemma OneFound(inodes: Inodes, p: nat, name: Name, k: nat)
    requires p < |inodes| && Found(inodes[p], name, k) && inodes[p].ents[k].inum < |inodes|
    ensures InUse(inodes, p, name) <==> inodes[inodes[p].ents[k].inum].kind.Dir? && !Bare(inodes[inodes[p].ents[k].inum])
  {
  }

  // ----- the shape of directories after a change -----

  /** Inodes stay where they are, and none in use becomes free. */
  ghost predicate StillUsed(inodes: Inodes, inodes': Inodes) {
    |inodes'| == |inodes| && forall i :: 0 <= i < |inodes| && !inodes[i].kind.Unused? ==> !inodes'[i].kind.Unused?
  }

  lemma SameShape(inodes: Inodes, inodes': Inodes, d: nat)
    requires StillUsed(inodes, inodes') && d < |inodes| && DirShape(inodes, d) && inodes'[d].ents == inodes[d].ents
    ensures DirShape(inodes', d)
  {
  }

  lemma PutShape(inodes: Inodes, inodes': Inodes, p: nat, off: nat, e: Dirent, i: nat)
    requires StillUsed(inodes, inodes') && EntryOk(inodes, p, off, e, i) && DirShape(inodes, p)
    requires inodes'[p].ents == PutEntry(inodes[p], off, e).ents && (e.inum != 0 ==> !inodes'[i].kind.Unused?)
    ensures DirShape(inodes', p)
  {
    var ents := inodes'[p].ents;
    forall k | 0 <= k < |ents| ensures k == off || (k < |inodes[p].ents| && ents[k] == inodes[p].ents[k]) {
      if k < |inodes[p].ents| && k != off {
        OtherEntries(inodes[p], off, e, k);
      }
    }
    assert off >= 2 && ents[off] == e;
  }

  lemma ShapePlain(inodes: Inodes, p: nat, off: nat, e: Dirent, i: nat, n: Inode)
    requires Shape(inodes) && EntryOk(inodes, p, off, e, i) && !inodes[i].kind.Dir?
    requires !n.kind.Dir? && !n.kind.Unused? && n.ents == []
    ensures Shape(Relinked(inodes, p, off, e, i, n))
  {
    hide DirShape;
    var inodes' := Relinked(inodes, p, off, e, i, n);
    forall d | 0 <= d < |inodes'| && inodes'[d].kind.Dir? ensures DirShape(inodes', d) {
      assert DirShape(inodes, d);
      if d == p {
        PutShape(inodes, inodes', p, off, e, i);
      } else {
        SameShape(inodes, inodes', d);
      }
    }
  }

  lemma ShapeMade(inodes: Inodes, p: nat, off: nat, name: Name, i: nat)
    requires Shape(inodes) && EntryOk(inodes, p, off, Dirent(i, name), i) && inodes[i].kind.Unused?
    ensures Shape(WithDir(inodes, p, off, name, i))
  {
    var inodes' := WithDir(inodes, p, off, name, i);
    forall d | 0 <= d < |inodes'| && inodes'[d].kind.Dir? ensures DirShape(inodes', d) {
      if d == p {
        assert DirShape(inodes, d);
        PutShape(inodes, inodes', p, off, Dirent(i, name), i);
      } else if d != i {
        assert DirShape(inodes, d);
        SameShape(inodes, inodes', d);
      }
    }
  }

  lemma ShapeGone(inodes: Inodes, p: nat, off: nat, i: nat)
    requires Shape(inodes) && EntryOk(inodes, p, off, Dirent(0, ""), i) && inodes[i].kind.Dir?
    ensures Shape(WithoutDir(inodes, p, off, i))
  {
    var inodes' := WithoutDir(inodes, p, off, i);
    forall d | 0 <= d < |inodes'| && inodes'[d].kind.Dir? ensures DirShape(inodes', d) {
      assert DirShape(inodes, d);
      if d == p {
        PutShape(inodes, inodes', p, off, Dirent(0, ""), i);
      } else {
        SameShape(inodes, inodes', d);
      }
    }
  }

  lemma ShapeNlink(inodes: Inodes, p: nat, nlink: int)
    requires Shape(inodes) && p < |inodes| && inodes[p].kind.Dir?
    ensures Shape(inodes[p := inodes[p].(nlink := nlink)])
  {
    var inodes' := inodes[p := inodes[p].(nlink := nlink)];
    forall d | 0 <= d < |inodes'| && inodes'[d].kind.Dir? ensures DirShape(inodes', d) {
      SameShape(inodes, inodes', d);
    }
  }

  // ----- what the shape says of one entry -----

  lemma EntryIn(inodes: Inodes, p: nat, off: nat)
    requires Shape(inodes) && p < |inodes| && inodes[p].kind.Dir? && off < |inodes[p].ents|
    ensures inodes[p].ents[off].inum < |inodes|
  {
    assert DirShape(inodes, p);
  }

  /** What an ordinary entry names is in use, and is not the directory itself. */
  lemma EntryFor(inodes: Inodes, p: nat, off: nat)
    requires Shape(inodes) && p < |inodes| && inodes[p].kind.Dir? && off < |inodes[p].ents| && Ordinary(inodes[p].ents[off])
    ensures inodes[p].ents[off].inum < |inodes| && !inodes[inodes[p].ents[off].inum].kind.Unused?
    ensures EntryOk(inodes, p, off, Dirent(0, ""), inodes[p].ents[off].inum)
  {
    assert DirShape(inodes, p);
  }

  /** A name that is not there is neither of the dots. */
  lemma DotsTaken(inodes: Inodes, p: nat, name: Name)
    requires Shape(inodes) && p < |inodes| && inodes[p].kind.Dir? && NoSuchName(inodes[p], name)
    ensures p > 0 && name != "." && name != ".."
  {
    assert DirShape(inodes, p);
  }

  lemma NameGone(inodes: Inodes, p: nat, off: nat, name: Name)
    requires Shape(inodes) && p < |inodes| && inodes[p].kind.Dir? && Found(inodes[p], name, off)
    ensures NoSuchName(PutEntry(inodes[p], off, Dirent(0, "")), name)
  {
    assert DirShape(inodes, p);
  }

  lemma PlainHasNoEntries(inodes: Inodes, i: nat)
    requires Shape(inodes) && i < |inodes| && !inodes[i].kind.Dir?
    ensures inodes[i].ents == []
  {
  }

  // ----- the tree and the balance after a change -----

  lemma TreeIgnoresPlain(inodes: Inodes, i: nat, n: Inode)
    requires TreeOk(inodes) && i < |inodes| && !inodes[i].kind.Dir? && !n.kind.Dir? && n.ents == inodes[i].ents
    ensures TreeOk(inodes[i := n])
  {
    var inodes' := inodes[i := n];
    forall d | 0 <= d < |inodes'| && Live(inodes'[d]) ensures DirOk(inodes', d) {
      SameDir(inodes, inodes', d);
    }
  }

  /** An entry for a file that comes or goes, in any directory, leaves the tree alone. */
  lemma TreeRelinked(inodes: Inodes, p: nat, off: nat, e: Dirent, i: nat, n: Inode)
    requires TreeOk(inodes) && EntryOk(inodes, p, off, e, i) && !inodes[i].kind.Dir? && !n.kind.Dir? && n.ents == inodes[i].ents
    ensures TreeOk(Relinked(inodes, p, off, e, i, n))
  {
    if Live(inodes[p]) {
      TreePlain(inodes, p, off, e);
    } else {
      TreeIgnoresDead(inodes, p, PutEntry(inodes[p], off, e));
    }
    TreeIgnoresPlain(inodes[p := PutEntry(inodes[p], off, e)], i, n);
  }

  lemma StillBalanced(inodes: Inodes, inodes': Inodes)
    requires SameSlack(inodes, inodes') && Balanced(inodes)
    ensures Balanced(inodes')
  {
  }

  lemma NoDrift(inodes: Inodes, inodes': Inodes, i: nat, d: int)
    requires SlackBut(inodes, inodes', i, d) && 0 < i < |inodes|
    ensures SameSlack(inodes, inodes') <==> d == 0
  {
    if d != 0 {
      assert Slack(inodes', i) != Slack(inodes, i);
    }
  }

  /** What an entry of a directory with links names has a link, if the balance holds. */
  lemma NamedHasLink(inodes: Inodes, p: nat, off: nat, i: nat)
    requires Balanced(inodes) && 0 < p < |inodes| && Live(inodes[p]) && off < |inodes[p].ents|
    requires 0 < i < |inodes| && NamesIt(inodes[p].ents[off], i)
    ensures inodes[i].nlink > 0
  {
    EntryWeighs(inodes[p], off, i);
    RefsNone(inodes, i);
    assert Slack(inodes, i) == 0;
  }

  /** The name of a file comes or goes, with a link. */
  lemma PlainKept(inodes: Inodes, p: nat, off: nat, e: Dirent, i: nat, n: Inode)
    requires Shape(inodes) && EntryOk(inodes, p, off, e, i) && !inodes[i].kind.Dir?
    requires !n.kind.Dir? && !n.kind.Unused? && n.ents == []
    requires n.nlink == inodes[i].nlink + if e.inum != 0 then 1 else -1
    ensures var inodes' := Relinked(inodes, p, off, e, i, n);
            && Shape(inodes') && (TreeOk(inodes) ==> TreeOk(inodes'))
            && SlackBut(inodes, inodes', i, if Live(inodes[p]) then 0 else if e.inum != 0 then 1 else -1)
            && (SameSlack(inodes, inodes') <==> Live(inodes[p]))
  {
    hide Shape, TreeOk, SlackBut, SameSlack, Live;
    var inodes' := Relinked(inodes, p, off, e, i, n);
    ShapePlain(inodes, p, off, e, i, n);
    PlainHasNoEntries(inodes, i);
    if TreeOk(inodes) {
      TreeRelinked(inodes, p, off, e, i, n);
    }
    PlainDrift(inodes, p, off, e, i, n);
    NoDrift(inodes, inodes', i, if Live(inodes[p]) then 0 else if e.inum != 0 then 1 else -1);
  }

  lemma PlainDrift(inodes: Inodes, p: nat, off: nat, e: Dirent, i: nat, n: Inode)
    requires EntryOk(inodes, p, off, e, i) && !inodes[i].kind.Dir? && !n.kind.Dir?
    requires n.nlink == inodes[i].nlink + if e.inum != 0 then 1 else -1
    ensures 0 < i < |inodes|
    ensures SlackBut(inodes, Relinked(inodes, p, off, e, i, n), i,
                     if Live(inodes[p]) then 0 else if e.inum != 0 then 1 else -1)
  {
    SlackPlain(inodes, p, off, e, i, n);
  }

  lemma MadeKept(inodes: Inodes, p: nat, off: nat, name: Name, i: nat)
    requires Shape(inodes) && EntryOk(inodes, p, off, Dirent(i, name), i) && inodes[i].kind.Unused?
    ensures var inodes' := WithDir(inodes, p, off, name, i);
            && Shape(inodes') && (TreeOk(inodes) ==> (TreeOk(inodes') <==> Live(inodes[p])))
            && Drifted(inodes, inodes', p, i) && (SameSlack(inodes, inodes') <==> Live(inodes[p]))
  {
    hide Shape, TreeOk, Drifted, SameSlack, Live;
    ShapeMade(inodes, p, off, name, i);
    SlackMade(inodes, p, off, name, i);
    MadeIff(inodes, p, off, name, i);
    if TreeOk(inodes) {
      TreeMadeIff(inodes, p, off, name, i);
    }
  }

  /** A directory goes. Where the tree is in order, it stays so exactly if the parent
      keeps a link and the directory loses its last; and then no slack moves. */
  lemma GoneKept(inodes: Inodes, p: nat, off: nat, i: nat)
    requires Shape(inodes) && EntryOk(inodes, p, off, Dirent(0, ""), i) && inodes[i].kind.Dir? && inodes[i].nlink >= 1 && Bare(inodes[i])
    ensures var inodes' := WithoutDir(inodes, p, off, i);
            && Shape(inodes')
            && (TreeOk(inodes) && Live(inodes[p]) ==>
                  && (TreeOk(inodes') <==> Removable(inodes, p, i))
                  && (Removable(inodes, p, i) ==> SameSlack(inodes, inodes'))
                  && (Balanced(inodes) ==> Removable(inodes, p, i)))
  {
    ShapeGone(inodes, p, off, i);
    if TreeOk(inodes) && Live(inodes[p]) {
      EmptyHasOneRef(inodes, i, p, off);
      hide TreeOk, Shape;
      GoneTree(inodes, p, off, i);
    }
  }

  lemma GoneTree(inodes: Inodes, p: nat, off: nat, i: nat)
    requires Shape(inodes) && TreeOk(inodes) && OldDirOk(inodes, p, off, i) && inodes[i].nlink >= 1
    ensures var inodes' := WithoutDir(inodes, p, off, i);
            && (TreeOk(inodes') <==> Removable(inodes, p, i))
            && (Removable(inodes, p, i) ==> SameSlack(inodes, inodes'))
            && (Balanced(inodes) ==> Removable(inodes, p, i))
  {
    hide TreeOk, Shape;
    RemovalIff(inodes, p, off, i);
    ParentHasTwoRefs(inodes, p, off, i);
    if Removable(inodes, p, i) {
      SlackGone(inodes, p, off, i);
    }
    RemovableBySlack(inodes, p, off, i);
  }

  lemma FreeHasNoLink(inodes: Inodes, i: nat)
    requires Shape(inodes) && i < |inodes| && inodes[i].kind.Unused?
    ensures inodes[i].nlink == 0
  {
  }

  /** What unlink of an entry of p for inode i keeps. */
  ghost predicate Kept(inodes: Inodes, inodes': Inodes, p: nat, i: nat) {
    p < |inodes| && 0 < i < |inodes|
    && if !inodes[i].kind.Dir? then
         && (TreeOk(inodes) ==> TreeOk(inodes'))
         && SlackBut(inodes, inodes', i, if Live(inodes[p]) then 0 else -1)
       else
         TreeOk(inodes) && Live(inodes[p]) ==>
           && (TreeOk(inodes') <==> Removable(inodes, p, i))
           && (Removable(inodes, p, i) ==> SameSlack(inodes, inodes'))
  }

  lemma KeptDir(inodes: Inodes, p: nat, off: nat, i: nat)
    requires Shape(inodes) && EntryOk(inodes, p, off, Dirent(0, ""), i) && inodes[i].kind.Dir? && inodes[i].nlink >= 1 && Bare(inodes[i])
    ensures var inodes' := WithoutDir(inodes, p, off, i);
            && Shape(inodes') && Kept(inodes, inodes', p, i)
            && (TreeOk(inodes) && Balanced(inodes) && Live(inodes[p]) ==> TreeOk(inodes') && Balanced(inodes'))
  {
    hide Shape, TreeOk, SlackBut, SameSlack, Live, Balanced, Removable;
    GoneKept(inodes, p, off, i);
    if TreeOk(inodes) && Balanced(inodes) && Live(inodes[p]) {
      StillBalanced(inodes, WithoutDir(inodes, p, off, i));
    }
  }

  lemma KeptPlain(inodes: Inodes, p: nat, off: nat, i: nat)
    requires Shape(inodes) && EntryOk(inodes, p, off, Dirent(0, ""), i) && !inodes[i].kind.Dir? && !inodes[i].kind.Unused?
    ensures var inodes' := Relinked(inodes, p, off, Dirent(0, ""), i, inodes[i].(nlink := inodes[i].nlink - 1));
            && Shape(inodes') && Kept(inodes, inodes', p, i)
            && (TreeOk(inodes) && Balanced(inodes) && Live(inodes[p]) ==> TreeOk(inodes') && Balanced(inodes'))
  {
    hide Shape, TreeOk, SlackBut, SameSlack, Live, Balanced, Removable;
    var n := inodes[i].(nlink := inodes[i].nlink - 1);
    PlainHasNoEntries(inodes, i);
    PlainKept(inodes, p, off, Dirent(0, ""), i, n);
    if TreeOk(inodes) && Balanced(inodes) && Live(inodes[p]) {
      StillBalanced(inodes, Relinked(inodes, p, off, Dirent(0, ""), i, n));
    }
  }

  lemma PanicNeeds(inodes: Inodes, p: nat, off: nat, i: nat)
    requires EntryOk(inodes, p, off, Dirent(0, ""), i)
    ensures Balanced(inodes) && Live(inodes[p]) ==> inodes[i].nlink >= 1
  {
    if Balanced(inodes) && Live(inodes[p]) {
      NamedHasLink(inodes, p, off, i);
    }
  }

  // ----- mkfs -----

  lemma FreshBalance(inodes: Inodes)
    requires |inodes| > ROOT && inodes[ROOT] == Inode(Dir, 1, [Dirent(ROOT, "."), Dirent(ROOT, "..")])
    requires forall i :: 0 <= i < |inodes| && i != ROOT ==> inodes[i] == Inode(Unused, 0, [])
    ensures Shape(inodes) && TreeOk(inodes) && Balanced(inodes)
  {
    forall d | 0 <= d < |inodes| && inodes[d].kind.Dir? ensures DirShape(inodes, d) && DirOk(inodes, d) {
      assert d == ROOT;
    }
    forall i | 0 < i < |inodes| ensures Slack(inodes, i) == 0 {
      DotsWeight(inodes[ROOT].ents, ROOT, ROOT, i);
      var bare := inodes[ROOT := Inode(Unused, 0, [])];
      RefsNone(bare, i);
      RefsSet(bare, ROOT, inodes[ROOT], i);
      assert bare[ROOT := inodes[ROOT]] == inodes;
    }
  }

  /** A directory made by mkfs is in order, but its parent is one link short. */
  lemma MkfsDir(inodes: Inodes, inodes': Inodes, p: nat, name: Name, i: nat)
    requires Shape(inodes) && TreeOk(inodes) && 0 < p < |inodes| && Live(inodes[p]) && NoSuchName(inodes[p], name) && name != "." && name != ".."
    requires 0 < i < |inodes| && inodes[i].kind.Unused?
    requires inodes' == inodes[i := Inode(Dir, 1, [Dirent(i, "."), Dirent(p, "..")])][p := inodes[p].(ents := inodes[p].ents + [Dirent(i, name)])]
    ensures Shape(inodes') && TreeOk(inodes') && SlackBut(inodes, inodes', p, -1)
  {
    var off := |inodes[p].ents|;
    var mid := WithDir(inodes, p, off, name, i);
    assert mid[p].nlink == inodes[p].nlink + 1 && Live(mid[p]) && mid[p := mid[p].(nlink := inodes[p].nlink)] == inodes';
    hide Shape, TreeOk, SlackBut;
    MadeKept(inodes, p, off, name, i);
    ShapeNlink(mid, p, inodes[p].nlink);
    TreeIgnoresLinks(mid, p, inodes[p].nlink);
    SlackNlink(mid, p, inodes[p].nlink);
    SameThenBut(inodes, mid, inodes', p, -1);
  }

  lemma SameThenBut(a: Inodes, b: Inodes, c: Inodes, i: nat, d: int)
    requires SameSlack(a, b) && SlackBut(b, c, i, d)
    ensures SlackBut(a, c, i, d)
  {
  }

  /** What sys_unlink came to. */
  datatype Unlinking = Refused | Panicked | Removed

  class FileSystem {
    var inodes: Inodes

    ghost predicate Valid()
      reads this
    {
      Shape(inodes)
    }

    /** mkfs: the root directory, and free inodes. */
    constructor (n: nat)
      requires n > ROOT
      ensures Valid() && TreeOk(inodes) && Balanced(inodes) && |inodes| == n && Live(inodes[ROOT])
      ensures forall i :: 0 <= i < n && i != ROOT ==> inodes[i] == Inode(Unused, 0, [])
      ensures inodes[ROOT] == Inode(Dir, 1, [Dirent(ROOT, "."), Dirent(ROOT, "..")])
    {
      inodes := seq(n, i => if i == ROOT then Inode(Dir, 1, [Dirent(ROOT, "."), Dirent(ROOT, "..")]) else Inode(Unused, 0, []));
      new;
      FreshBalance(inodes);
    }

    /** mkfs makes a directory: the parent gets an entry for it, and no link. */
    method EnsureDir(p: nat, name: Name, free: nat)
      requires Valid() && TreeOk(inodes) && p < |inodes| && Live(inodes[p]) && NoSuchName(inodes[p], name)
      requires 0 < free < |inodes| && inodes[free].kind.Unused?
      modifies this
      ensures Valid() && TreeOk(inodes) && |inodes| == old(|inodes|)
      ensures inodes == old(inodes)[free := Inode(Dir, 1, [Dirent(free, "."), Dirent(p, "..")])]
                                   [p := old(inodes)[p].(ents := old(inodes)[p].ents + [Dirent(free, name)])]
      ensures SlackBut(old(inodes), inodes, p, -1)
    {
      ghost var inodes0 := inodes;
      DotsTaken(inodes, p, name);
      inodes := inodes[free := Inode(Dir, 1, [])];
      inodes := inodes[p := inodes[p].(ents := inodes[p].ents + [Dirent(free, name)])];
      inodes := inodes[free := inodes[free].(ents := inodes[free].ents + [Dirent(free, ".")])];
      inodes := inodes[free := inodes[free].(ents := inodes[free].ents + [Dirent(p, "..")])];
      assert inodes[free].ents == [Dirent(free, "."), Dirent(p, "..")];
      assert inodes == inodes0[free := Inode(Dir, 1, [Dirent(free, "."), Dirent(p, "..")])]
                              [p := inodes0[p].(ents := inodes0[p].ents + [Dirent(free, name)])];
      MkfsDir(inodes0, inodes, p, name, free);
    }

    /** mkfs adds a file: the entry goes at the end of the directory. */
    method AddFile(p: nat, name: Name, free: nat)
      requires Valid() && TreeOk(inodes) && p < |inodes| && Live(inodes[p]) && NoSuchName(inodes[p], name)
      requires 0 < free < |inodes| && inodes[free].kind.Unused?
      modifies this
      ensures Valid() && TreeOk(inodes) && |inodes| == old(|inodes|)
      ensures inodes == old(inodes)[free := Inode(File, 1, [])][p := old(inodes)[p].(ents := old(inodes)[p].ents + [Dirent(free, name)])]
      ensures SameSlack(old(inodes), inodes)
    {
      ghost var inodes0 := inodes;
      DotsTaken(inodes, p, name);
      inodes := inodes[free := Inode(File, 1, [])];
      inodes := inodes[p := inodes[p].(ents := inodes[p].ents + [Dirent(free, name)])];
      assert inodes == Relinked(inodes0, p, |inodes0[p].ents|, Dirent(free, name), free, Inode(File, 1, []));
      PlainKept(inodes0, p, |inodes0[p].ents|, Dirent(free, name), free, Inode(File, 1, []));
    }

    /** dirlookup: the offset of the first entry with the name. */
    method Dirlookup(d: nat, name: Name) returns (r: Option<nat>)
      requires d < |inodes|
      ensures r.Some? ==> Found(inodes[d], name, r.value)
      ensures r == None ==> NoSuchName(inodes[d], name)
    {
      var off := 0;
      while off < |inodes[d].ents|
        invariant 0 <= off <= |inodes[d].ents|
        invariant forall j :: 0 <= j < off && inodes[d].ents[j].inum != 0 ==> inodes[d].ents[j].name != name
      {
        if inodes[d].ents[off].inum != 0 && inodes[d].ents[off].name == name {
          return Some(off);
        }
        off := off + 1;
      }
      r := None;
    }

    /** dirlink: unless the name is there, the first empty entry takes it, and then
        dirlookup finds it. */
    method Dirlink(d: nat, name: Name, inum: nat) returns (ok: bool, ghost off: nat)
      requires d < |inodes| && inum != 0
      modifies this
      ensures ok <==> NoSuchName(old(inodes)[d], name)
      ensures !ok ==> inodes == old(inodes)
      ensures ok ==> FirstEmpty(old(inodes)[d], off)
                     && inodes == old(inodes)[d := PutEntry(old(inodes)[d], off, Dirent(inum, name))]
      ensures ok ==> Found(inodes[d], name, off) && inodes[d].ents[off].inum == inum
    {
      var found := Dirlookup(d, name);
      if found.Some? {
        return false, 0;
      }
      var k := 0;
      while k < |inodes[d].ents| && inodes[d].ents[k].inum != 0
        invariant 0 <= k <= |inodes[d].ents|
        invariant forall j :: 0 <= j < k ==> inodes[d].ents[j].inum != 0
      {
        k := k + 1;
      }
      ok, off := true, k;
      inodes := inodes[d := inodes[d].(ents := if k < |inodes[d].ents| then inodes[d].ents[k := Dirent(inum, name)] else inodes[d].ents + [Dirent(inum, name)])];
    }

    /** isdirempty: nothing after the dots. */
    method Isdirempty(d: nat) returns (empty: bool)
      requires d < |inodes|
      ensures empty <==> Bare(inodes[d])
    {
      var off := 2;
      while off < |inodes[d].ents|
        invariant off >= 2 && forall j :: 2 <= j < off && j < |inodes[d].ents| ==> inodes[d].ents[j].inum == 0
      {
        if inodes[d].ents[off].inum != 0 {
          return false;
        }
        off := off + 1;
      }
      empty := true;
    }

    /** sys_link, with the inode of the old name and the directory of the new: one
        more link and one more entry, or neither. The link counts keep their distance
        from the entries exactly if the directory has links itself. */
    method Link(ip: nat, dp: Option<nat>, name: Name) returns (ok: bool, ghost off: nat)
      requires Valid() && 0 < ip < |inodes| && !inodes[ip].kind.Unused?
      requires dp.Some? ==> dp.value < |inodes| && inodes[dp.value].kind.Dir?
      modifies this
      ensures Valid() && |inodes| == old(|inodes|)
      ensures ok <==> !old(inodes)[ip].kind.Dir? && dp.Some? && NoSuchName(old(inodes)[dp.value], name)
      ensures ok ==> FirstEmpty(old(inodes)[dp.value], off)
                     && inodes == Relinked(old(inodes), dp.value, off, Dirent(ip, name), ip, old(inodes)[ip].(nlink := old(inodes)[ip].nlink + 1))
      ensures ok ==> Found(inodes[dp.value], name, off) && inodes[dp.value].ents[off].inum == ip
      ensures !ok ==> inodes == old(inodes)
      ensures TreeOk(old(inodes)) ==> TreeOk(inodes)
      ensures ok ==> SlackBut(old(inodes), inodes, ip, if Live(old(inodes)[dp.value]) then 0 else 1)
      ensures ok ==> (SameSlack(old(inodes), inodes) <==> Live(old(inodes)[dp.value]))
    {
      hide Shape, TreeOk, SlackBut, SameSlack, Live;
      if inodes[ip].kind.Dir? {
        return false, 0;
      }
      ghost var inodes0 := inodes;
      inodes := inodes[ip := inodes[ip].(nlink := inodes[ip].nlink + 1)];
      if dp == None {
        inodes := inodes[ip := inodes[ip].(nlink := inodes[ip].nlink - 1)];
        assert inodes == inodes0;
        return false, 0;
      }
      ok, off := Dirlink(dp.value, name, ip);
      if !ok {
        inodes := inodes[ip := inodes[ip].(nlink := inodes[ip].nlink - 1)];
        assert inodes == inodes0;
        return false, 0;
      }
      DotsTaken(inodes0, dp.value, name);
      PlainHasNoEntries(inodes0, ip);
      PlainKept(inodes0, dp.value, off, Dirent(ip, name), ip, inodes0[ip].(nlink := inodes0[ip].nlink + 1));
      assert inodes == Relinked(inodes0, dp.value, off, Dirent(ip, name), ip, inodes0[ip].(nlink := inodes0[ip].nlink + 1));
    }

    /** sys_unlink in the directory dp: a name that is not a dot, and is not that of
        a directory with entries, goes, and so does a link of what it named. Where
        there is no such link to take, the kernel panics. */
    method Unlink(dp: nat, name: Name) returns (r: Unlinking, ghost off: nat)
      requires Valid() && dp < |inodes| && inodes[dp].kind.Dir?
      modifies this
      ensures Valid() && |inodes| == old(|inodes|)
      ensures NoSuchName(old(inodes)[dp], name) || name == "." || name == ".." ==> r == Refused
      ensures !NoSuchName(old(inodes)[dp], name) && name != "." && name != ".." ==>
                && Found(old(inodes)[dp], name, off) && old(inodes)[dp].ents[off].inum < |inodes|
                && r == if old(inodes)[old(inodes)[dp].ents[off].inum].nlink < 1 then Panicked
                        else if InUse(old(inodes), dp, name) then Refused else Removed
      ensures r != Removed ==> inodes == old(inodes)
      ensures r == Removed ==> inodes == Unlinked(old(inodes), dp, off) && NoSuchName(inodes[dp], name)
      ensures r == Removed ==> Kept(old(inodes), inodes, dp, old(inodes)[dp].ents[off].inum)
      ensures TreeOk(old(inodes)) && Balanced(old(inodes)) && Live(old(inodes)[dp]) ==> r != Panicked && TreeOk(inodes) && Balanced(inodes)
    {
      hide Shape, TreeOk, SlackBut, SameSlack, Live, Balanced, Kept;
      if name == "." || name == ".." {
        return Refused, 0;
      }
      var found := Dirlookup(dp, name);
      if found == None {
        return Refused, 0;
      }
      var k := found.value;
      off := k;
      var ip := inodes[dp].ents[k].inum;
      ghost var inodes0 := inodes;
      EntryFor(inodes, dp, k);
      OneFound(inodes, dp, name, k);
      PanicNeeds(inodes, dp, k, ip);
      if inodes[ip].nlink < 1 {
        return Panicked, k;
      }
      if inodes[ip].kind.Dir? {
        var empty := Isdirempty(ip);
        if !empty {
          return Refused, k;
        }
        KeptDir(inodes, dp, off, ip);
        inodes := inodes[dp := inodes[dp].(ents := inodes[dp].ents[k := Dirent(0, "")])];
        inodes := inodes[dp := inodes[dp].(nlink := inodes[dp].nlink - 1)];
        inodes := inodes[ip := inodes[ip].(nlink := inodes[ip].nlink - 1)];
        assert inodes == Unlinked(inodes0, dp, off);
      } else {
        KeptPlain(inodes, dp, off, ip);
        inodes := inodes[dp := inodes[dp].(ents := inodes[dp].ents[k := Dirent(0, "")])];
        inodes := inodes[ip := inodes[ip].(nlink := inodes[ip].nlink - 1)];
        assert inodes == Unlinked(inodes0, dp, off);
      }
      NameGone(inodes0, dp, off, name);
      r := Removed;
    }

    /** create's first two entries of a new directory. */
    method LinkDots(d: nat, p: nat)
      requires 0 < d < |inodes| && p != 0 && inodes[d].ents == []
      modifies this
      ensures inodes == old(inodes)[d := old(inodes)[d].(ents := [Dirent(d, "."), Dirent(p, "..")])]
    {
      var ok;
      ghost var off;
      ok, off := Dirlink(d, ".", d);
      assert inodes[d].ents == [Dirent(d, ".")];
      ok, off := Dirlink(d, "..", p);
      assert inodes[d].ents == [Dirent(d, "."), Dirent(p, "..")];
    }

    /** create in the directory dp, with the inode ialloc would give. An existing
        file of that name is the result when a file is asked for. The link counts keep
        their distance from the entries exactly if dp has links itself. */
    method Create(dp: nat, name: Name, kind: Kind, free: nat) returns (r: Option<nat>, ghost off: nat)
      requires Valid() && dp < |inodes| && inodes[dp].kind.Dir? && !kind.Unused?
      requires 0 < free < |inodes| && inodes[free].kind.Unused?
      modifies this
      ensures Valid() && |inodes| == old(|inodes|)
      ensures !NoSuchName(old(inodes)[dp], name) ==> inodes == old(inodes) && Found(inodes[dp], name, off)
      ensures !NoSuchName(old(inodes)[dp], name) ==>
                var ip := inodes[dp].ents[off].inum;
                ip < |inodes| && r == if kind.File? && inodes[ip].kind.File? then Some(ip) else None
      ensures NoSuchName(old(inodes)[dp], name) ==>
                && r == Some(free) && FirstEmpty(old(inodes)[dp], off)
                && inodes == if kind.Dir? then WithDir(old(inodes), dp, off, name, free)
                             else Relinked(old(inodes), dp, off, Dirent(free, name), free, Inode(kind, 1, []))
      ensures NoSuchName(old(inodes)[dp], name) ==>
                if kind.Dir? then Drifted(old(inodes), inodes, dp, free)
                else SlackBut(old(inodes), inodes, free, if Live(old(inodes)[dp]) then 0 else 1)
      ensures NoSuchName(old(inodes)[dp], name) ==> (SameSlack(old(inodes), inodes) <==> Live(old(inodes)[dp]))
      ensures NoSuchName(old(inodes)[dp], name) && TreeOk(old(inodes)) ==> (TreeOk(inodes) <==> !kind.Dir? || Live(old(inodes)[dp]))
    {
      hide Shape, TreeOk, SlackBut, Drifted, SameSlack, Live;
      var found := Dirlookup(dp, name);
      if found.Some? {
        var ip := inodes[dp].ents[found.value].inum;
        EntryIn(inodes, dp, found.value);
        return if kind.File? && inodes[ip].kind.File? then Some(ip) else None, found.value;
      }
      ghost var inodes0 := inodes;
      var ok;
      DotsTaken(inodes, dp, name);
      FreeHasNoLink(inodes, free);
      inodes := inodes[free := Inode(kind, 1, [])];
      if kind.Dir? {
        inodes := inodes[dp := inodes[dp].(nlink := inodes[dp].nlink + 1)];
        LinkDots(free, dp);
      }
      ok, off := Dirlink(dp, name, free);
      if kind.Dir? {
        assert inodes == WithDir(inodes0, dp, off, name, free);
        MadeKept(inodes0, dp, off, name, free);
      } else {
        assert inodes == Relinked(inodes0, dp, off, Dirent(free, name), free, Inode(kind, 1, []));
        PlainKept(inodes0, dp, off, Dirent(free, name), free, Inode(kind, 1, []));
      }
      r := Some(free);
    }
  }

  // ----- where the link counts and the entries part -----

  /** The smallest image mkfs makes with a directory in it. */
  const IMAGE: Inodes := [Inode(Unused, 0, []), Inode(Dir, 1, [Dirent(1, "."), Dirent(1, ".."), Dirent(2, "etc")]),
                          Inode(Dir, 1, [Dirent(2, "."), Dirent(1, "..")])]

  lemma ImageEntry()
    ensures Ordinary(IMAGE[1].ents[2]) && IMAGE[1].ents[2].inum == 2 && Lists(IMAGE, 1, 2)
  {
    assert |"etc"| == 3 && |"."| == 1 && |".."| == 2;
    assert Ordinary(IMAGE[1].ents[2]) && IMAGE[1].ents[2].inum == 2;
  }

  lemma ImageInOrder()
    ensures Shape(IMAGE) && TreeOk(IMAGE) && Slack(IMAGE, ROOT) == -1 && !Balanced(IMAGE)
  {
    hide Shape, TreeOk;
    var root := Inode(Dir, 1, [Dirent(ROOT, "."), Dirent(ROOT, "..")]);
    var image := [Inode(Unused, 0, []), root, Inode(Unused, 0, [])];
    FreshBalance(image);
    assert |"etc"| == 3 && |"."| == 1 && |".."| == 2;
    assert IMAGE[1].ents == root.ents + [Dirent(2, "etc")];
    assert IMAGE == image[2 := Inode(Dir, 1, [Dirent(2, "."), Dirent(1, "..")])][1 := root.(ents := root.ents + [Dirent(2, "etc")])];
    MkfsDir(image, IMAGE, ROOT, "etc", 2);
    assert Slack(image, ROOT) == 0;
  }

  /** The root has one link, and unlink of its one subdirectory takes it. */
  lemma RootLosesItsLink()
    ensures Shape(IMAGE) && TreeOk(IMAGE) && Slack(IMAGE, ROOT) == -1 && !Balanced(IMAGE)
    ensures Found(IMAGE[ROOT], "etc", 2) && !InUse(IMAGE, ROOT, "etc") && !Removable(IMAGE, ROOT, 2)
    ensures Unlinked(IMAGE, ROOT, 2)[ROOT].nlink == 0 && !TreeOk(Unlinked(IMAGE, ROOT, 2))
  {
    hide Shape, TreeOk, Slack, Balanced;
    ImageEntry();
    ImageInOrder();
    assert |"etc"| == 3 && |"."| == 1 && |".."| == 2;
    OneFound(IMAGE, ROOT, "etc", 2);
    RemovalIff(IMAGE, ROOT, 2, 2);
  }

  /** Directories 2 in the root and 3 in 2, made by create; then 3 is removed. */
  method MadeAndRemoved() returns (fs: FileSystem)
    ensures fresh(fs) && fs.Valid() && |fs.inodes| == 5 && TreeOk(fs.inodes) && Balanced(fs.inodes)
    ensures fs.inodes[3] == Inode(Dir, 0, [Dirent(3, "."), Dirent(2, "..")]) && fs.inodes[4].kind.Unused?
  {
    fs := new FileSystem(5);
    var r;
    ghost var off;
    ghost var a := fs.inodes;
    r, off := fs.Create(ROOT, "a", Dir, 2);
    ghost var b := fs.inodes;
    assert b[2] == Inode(Dir, 1, [Dirent(2, "."), Dirent(1, "..")]) && b[3] == a[3] && b[4] == a[4];
    StillBalanced(a, b);
    r, off := fs.Create(2, "b", Dir, 3);
    ghost var c := fs.inodes;
    assert c[3] == Inode(Dir, 1, [Dirent(3, "."), Dirent(2, "..")]) && c[4] == a[4] && Live(c[2]);
    StillBalanced(b, c);
    OneFound(c, 2, "b", 2);
    var u;
    u, off := fs.Unlink(2, "b");
    assert off == 2;
  }

  /** mkdir in the removed directory gives it a link again: its own count is right,
      but its ".." now counts, and the link for it is gone. */
  method MadeInRemoved() returns (fs: FileSystem)
    ensures fresh(fs) && fs.Valid() && |fs.inodes| == 5 && !TreeOk(fs.inodes) && Live(fs.inodes[3])
    ensures Slack(fs.inodes, 2) == -1 && Slack(fs.inodes, 3) == 0 && Slack(fs.inodes, 4) == 0
  {
    fs := MadeAndRemoved();
    var r;
    ghost var off;
    ghost var a := fs.inodes;
    r, off := fs.Create(3, "c", Dir, 4);
    DotsWeight(a[3].ents, 3, 2, 2);
    DotsWeight(a[3].ents, 3, 2, 3);
    DotsWeight(a[3].ents, 3, 2, 4);
    assert Slack(a, 2) == 0 && Slack(a, 3) == 0 && Slack(a, 4) == 0;
  }

  /** A file made there has a link and no entry that counts. */
  method FileInRemoved() returns (fs: FileSystem)
    ensures fresh(fs) && fs.Valid() && |fs.inodes| == 5 && TreeOk(fs.inodes) && Slack(fs.inodes, 4) == 1
  {
    fs := MadeAndRemoved();
    var r;
    ghost var off;
    ghost var a := fs.inodes;
    r, off := fs.Create(3, "f", File, 4);
    assert Slack(a, 4) == 0;
  }
}
