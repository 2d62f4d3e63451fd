/**
  The invariant that ties the page map, the section array and the sub-page tables of a
  dispatch together, and what it says about lookups (exec.c).
 */
module DispatchInv {
  import opened Words
  import opened Radix
  import opened PhysMap
  import opened PageMap
  import opened Sections

  /** The first section number after the four dummy sections of mem_begin. */
  const FIRST: nat := 4

  const Dummies: seq<Section> := [
    Section(Unassigned, 0, 0, U64), Section(NotDirty, 0, 0, U64),
    Section(Rom, 0, 0, U64), Section(Watch, 0, 0, U64)]

  /** The section numbers a leaf of the page map may hold: whole-page sections and sub-page containers. */
  ghost function TreeSections(sections: seq<Section>, p: nat): set<nat>
    requires p > 0
  {
    {SECTION_UNASSIGNED} + set i | FIRST <= i < |sections| && Whole(sections[i], p)
  }

  /** The page map has a page for every address, and the last page ends with the address space. */
  ghost predicate Sized(v: View) {
    v.pageSize > 0 && U64 <= Step(v.levels) * v.pageSize && U64 % v.pageSize == 0
  }

  /** Section `i` is a container, a run of whole pages, or a piece of one page. */
  ghost predicate KindOk(v: View, i: nat)
    requires v.pageSize > 0 && i < |v.sections|
  {
    var s := v.sections[i];
    && InSpace(s)
    && match s.mr
       case Subpage(k) =>
         && s.size == v.pageSize && s.addr % v.pageSize == 0
         && k < |v.subpages| && |v.subpages[k].sub| == v.pageSize && v.subpages[k].base == s.addr
         && forall o | 0 <= o < v.pageSize :: EntryOfPage(v, s.addr + o, v.subpages[k].sub[o])
       case Mapped(_, _) => Whole(s, v.pageSize) || s.addr % v.pageSize + s.size <= v.pageSize
       case _ => false
  }

  /** Sub-page table entry `t` for address `a`: nothing, or a piece that contains `a`. */
  ghost predicate EntryOfPage(v: View, a: nat, t: nat)
    requires v.pageSize > 0
  {
    t == SECTION_UNASSIGNED || (FIRST <= t < |v.sections| && IsPiece(v, t) && Contains(v.sections[t], a))
  }

  ghost predicate IsPiece(v: View, i: nat)
    requires v.pageSize > 0 && i < |v.sections|
  {
    v.sections[i].mr.Mapped? && !Whole(v.sections[i], v.pageSize)
  }

  ghost function PageWalk(v: View, y: nat): nat {
    Walk(v.nodes, v.root, v.levels, y)
  }

  /** Page `y` walks to a whole section exactly when it is one of that section's pages. */
  ghost predicate PageOk(v: View, y: nat)
    requires v.pageSize > 0
  {
    var w := PageWalk(v, y);
    w != SECTION_UNASSIGNED ==>
      FIRST <= w < |v.sections| && Whole(v.sections[w], v.pageSize) && PageIn(v.sections[w], v.pageSize, y)
  }

  ghost predicate Filled(v: View, i: nat)
    requires v.pageSize > 0 && i < |v.sections|
  {
    Whole(v.sections[i], v.pageSize) ==> forall y: nat | PageIn(v.sections[i], v.pageSize, y) :: PageWalk(v, y) == i
  }

  /** A piece has a container on its page whose table holds the piece at all its addresses. */
  ghost predicate Housed(v: View, i: nat)
    requires v.pageSize > 0 && i < |v.sections|
  {
    IsPiece(v, i) ==>
      var s := v.sections[i];
      var c := PageWalk(v, s.addr / v.pageSize);
      && FIRST <= c < |v.sections| && v.sections[c].mr.Subpage?
      && var k := v.sections[c].mr.k;
         k < |v.subpages| && |v.subpages[k].sub| == v.pageSize
         && forall o | 0 <= o < v.pageSize && Contains(s, v.sections[c].addr + o) :: v.subpages[k].sub[o] == i
  }

  ghost predicate NotEmpty(v: View, i: nat)
    requires v.pageSize > 0 && i < |v.sections|
  {
    v.sections[i].mr.Subpage? ==>
      var k := v.sections[i].mr.k;
      k < |v.subpages| && exists o | 0 <= o < |v.subpages[k].sub| :: v.subpages[k].sub[o] != SECTION_UNASSIGNED
  }

  ghost predicate SectionOk(v: View, i: nat)
    requires v.pageSize > 0 && i < |v.sections|
  {
    KindOk(v, i) && Filled(v, i) && Housed(v, i)
  }

  /** The invariant while sections are being added; the container `x`, if any, may still be empty. */
  ghost predicate Built(v: View, x: nat) {
    && Sized(v)
    && |v.sections| >= FIRST && v.sections[..FIRST] == Dummies
    && (forall y: nat {:trigger PageOk(v, y)} | Hi(y, v.levels) == 0 :: PageOk(v, y))
    && (forall i {:trigger SectionOk(v, i)} | FIRST <= i < |v.sections| :: SectionOk(v, i))
    && (forall i {:trigger NotEmpty(v, i)} | FIRST <= i < |v.sections| && i != x :: NotEmpty(v, i))
  }

  /** What lookups need of a dispatch, before and after compaction. */
  ghost predicate Ready(v: View) {
    && Sized(v)
    && |v.sections| >= FIRST && v.sections[..FIRST] == Dummies
    && (forall i {:trigger KindOk(v, i)} | FIRST <= i < |v.sections| :: KindOk(v, i))
    && (forall a: nat {:trigger Find(v, a)} | a < U64 :: FindOk(v, a))
    && (forall i, a: nat {:trigger FoundAt(v, i, a)} | FIRST <= i < |v.sections| && a < U64 :: FoundAt(v, i, a))
  }

  /** An uncached lookup finds nothing or a section that contains the address, in either mode. */
  ghost predicate FindOk(v: View, a: nat)
    requires v.pageSize > 0
  {
    var f, l := Find(v, a), Lookup(v, a);
    && (f == SECTION_UNASSIGNED ||
        (FIRST <= f < |v.sections| && Whole(v.sections[f], v.pageSize) && Contains(v.sections[f], a)))
    && (l == SECTION_UNASSIGNED ||
        (FIRST <= l < |v.sections| && v.sections[l].mr.Mapped? && Contains(v.sections[l], a)))
  }

  /** A section that contains the address is the one an uncached lookup finds. */
  ghost predicate FoundAt(v: View, i: nat, a: nat)
    requires v.pageSize > 0 && i < |v.sections|
  {
    Contains(v.sections[i], a) ==>
      && (Whole(v.sections[i], v.pageSize) ==> Find(v, a) == i)
      && (v.sections[i].mr.Mapped? ==> Lookup(v, a) == i)
      && (IsPiece(v, i) ==> Find(v, a) != i)
  }

  lemma AddressPage(v: View, a: nat)
    requires Sized(v) && a < U64
    ensures Hi(a / v.pageSize, v.levels) == 0
    ensures a / v.pageSize < Step(v.levels)
  {
    var y := a / v.pageSize;
    PageOf(a, v.pageSize);
    if y >= Step(v.levels) {
      MulLe(Step(v.levels), y, v.pageSize);
    }
    HiZero(y, v.levels);
  }

  /** Before compaction the cover test never fires: a walk already ends at a covering section. */
  lemma FindIsWalk(v: View, x: nat, a: nat)
    requires Built(v, x) && a < U64
    ensures Find(v, a) == PageWalk(v, a / v.pageSize)
    ensures Find(v, a) != SECTION_UNASSIGNED ==>
              FIRST <= Find(v, a) < |v.sections| && Contains(v.sections[Find(v, a)], a)
  {
    AddressPage(v, a);
    assert PageOk(v, a / v.pageSize);
    var w := PageWalk(v, a / v.pageSize);
    if w == SECTION_UNASSIGNED {
      assert v.sections[0] == v.sections[..FIRST][0];
    } else {
      assert SectionOk(v, w);
      WholePages(v.sections[w], v.pageSize, a);
      CoversIsContains(v.sections[w], a);
    }
  }

  /** Resolution in a container page. */
  lemma ResolveInPage(v: View, c: nat, a: nat)
    requires Sized(v) && FIRST <= c < |v.sections| && v.sections[c].mr.Subpage? && KindOk(v, c)
    requires Contains(v.sections[c], a)
    ensures Resolve(v, c, a) == v.subpages[v.sections[c].mr.k].sub[a - v.sections[c].addr]
    ensures EntryOfPage(v, a, Resolve(v, c, a))
  {
    var s := v.sections[c];
    PageOf(s.addr, v.pageSize);
    Distribute(s.addr / v.pageSize, 1, v.pageSize);
    PageUnique(a, v.pageSize, s.addr / v.pageSize);
    PageOf(a, v.pageSize);
    assert s.addr + (a - s.addr) == a;
  }

  lemma FindInBuilt(v: View, x: nat, a: nat)
    requires Built(v, x) && a < U64
    ensures FindOk(v, a)
  {
    FindIsWalk(v, x, a);
    var f := Find(v, a);
    if f == SECTION_UNASSIGNED {
      assert v.sections[0] == v.sections[..FIRST][0];
    } else {
      AddressPage(v, a);
      assert PageOk(v, a / v.pageSize);
      assert KindOk(v, f) by {
        assert SectionOk(v, f);
      }
      if v.sections[f].mr.Subpage? {
        ResolveInPage(v, f, a);
      }
    }
  }

  lemma BuiltIsReady(v: View, x: nat)
    requires Built(v, x)
    ensures Ready(v)
  {
    forall i | FIRST <= i < |v.sections| ensures KindOk(v, i) {
      assert SectionOk(v, i);
    }
    forall a: nat | a < U64 ensures FindOk(v, a) {
      FindInBuilt(v, x, a);
    }
    forall i, a: nat | FIRST <= i < |v.sections| && a < U64 ensures FoundAt(v, i, a) {
      if Contains(v.sections[i], a) {
        FoundInBuilt(v, x, i, a);
      }
    }
  }

  lemma FoundInBuilt(v: View, x: nat, i: nat, a: nat)
    requires Built(v, x) && FIRST <= i < |v.sections| && a < U64 && Contains(v.sections[i], a)
    ensures FoundAt(v, i, a)
  {
    assert SectionOk(v, i);
    FindIsWalk(v, x, a);
    if Whole(v.sections[i], v.pageSize) {
      WholePages(v.sections[i], v.pageSize, a);
    } else {
      FoundPiece(v, x, i, a);
    }
  }

  /** The container of a piece's page is found, and its table resolves to the piece. */
  lemma FoundPiece(v: View, x: nat, i: nat, a: nat)
    requires Built(v, x) && FIRST <= i < |v.sections| && a < U64 && Contains(v.sections[i], a)
    requires IsPiece(v, i)
    ensures Find(v, a) != i && Lookup(v, a) == i
  {
    assert KindOk(v, i) && Housed(v, i) by {
      assert SectionOk(v, i);
    }
    FindIsWalk(v, x, a);
    PartialPage(v.sections[i], v.pageSize, a);
    var c := Find(v, a);
    assert KindOk(v, c) by {
      assert SectionOk(v, c);
    }
    ResolveInPage(v, c, a);
    var o := a - v.sections[c].addr;
    assert Contains(v.sections[i], v.sections[c].addr + o);
  }

  /** phys_page_compact preserves the meaning of the map: skipped levels no longer test their
      index bits, but the final cover test turns every wrong leaf into the unassigned section. */
  lemma CompactKeepsFind(v: View, x: nat, v': View, tag: seq<Tag>, a: nat)
    requires Built(v, x) && a < U64
    requires v' == v.(root := v'.root, nodes := v'.nodes)
    requires WellFormed(v'.nodes, tag) && EntryOk(v'.root, v.levels, 0, tag)
    requires LeavesIn(v'.nodes, TreeSections(v.sections, v.pageSize))
    requires v'.root.skip == 0 ==> v'.root.ptr in TreeSections(v.sections, v.pageSize)
    requires Kept(v.nodes, v.root, v'.nodes, v'.root, v.levels)
    ensures Find(v', a) == Find(v, a)
  {
    FindIsWalk(v, x, a);
    var y := a / v.pageSize;
    assert v.sections[0] == v.sections[..FIRST][0];
    if PageWalk(v, y) == SECTION_UNASSIGNED {
      WalkEndsAtLeaf(v'.nodes, tag, v'.root, v.levels, 0, y, TreeSections(v.sections, v.pageSize));
      var w := PageWalk(v', y);
      if w != SECTION_UNASSIGNED {
        assert SectionOk(v, w);
        WholePages(v.sections[w], v.pageSize, a);
        CoversIsContains(v.sections[w], a);
      }
    }
  }

  /** So a compacted dispatch still answers every lookup. */
  lemma CompactKeepsReady(v: View, x: nat, v': View, tag: seq<Tag>)
    requires Built(v, x)
    requires v' == v.(root := v'.root, nodes := v'.nodes)
    requires WellFormed(v'.nodes, tag) && EntryOk(v'.root, v.levels, 0, tag)
    requires LeavesIn(v'.nodes, TreeSections(v.sections, v.pageSize))
    requires v'.root.skip == 0 ==> v'.root.ptr in TreeSections(v.sections, v.pageSize)
    requires Kept(v.nodes, v.root, v'.nodes, v'.root, v.levels)
    ensures Ready(v')
    ensures forall a: nat | a < U64 :: Find(v', a) == Find(v, a) && Lookup(v', a) == Lookup(v, a)
  {
    BuiltIsReady(v, x);
    forall a: nat | a < U64 ensures Find(v', a) == Find(v, a) && Lookup(v', a) == Lookup(v, a) {
      CompactKeepsFind(v, x, v', tag, a);
    }
    forall i | FIRST <= i < |v.sections| ensures KindOk(v', i) {
      assert KindOk(v, i);
      if v.sections[i].mr.Subpage? {
        forall o | 0 <= o < v.pageSize
          ensures EntryOfPage(v', v.sections[i].addr + o, v.subpages[v.sections[i].mr.k].sub[o])
        {
          assert EntryOfPage(v, v.sections[i].addr + o, v.subpages[v.sections[i].mr.k].sub[o]);
        }
      }
    }
    forall a: nat | a < U64 ensures FindOk(v', a) {
      assert FindOk(v, a);
    }
    forall i, a: nat | FIRST <= i < |v.sections| && a < U64 ensures FoundAt(v', i, a) {
      assert FoundAt(v, i, a);
    }
  }
}
