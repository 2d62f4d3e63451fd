/**
  What adding one section does to a dispatch (exec.c): register_multipage, the container and the
  table update of register_subpage, each as a step between snapshots that keeps the invariant.
 */
module DispatchAdd {
  import opened Words
  import opened Radix
  import opened PhysMap
  import opened PageMap
  import opened Sections
  import opened DispatchInv

  /** The new section `s` answers its own addresses and no other lookup changes. */
  ghost predicate Added(v: View, v': View, s: Section, i: nat)
    requires v.pageSize > 0 && v'.pageSize > 0
  {
    && v'.pageSize == v.pageSize && v'.levels == v.levels
    && v.sections <= v'.sections && FIRST <= i < |v'.sections| && v'.sections[i] == s
    && forall a: nat {:trigger Lookup(v', a)} | a < U64 ::
         Lookup(v', a) == if Contains(s, a) then i else Lookup(v, a)
  }

  /** No address of `s` has a section yet. */
  ghost predicate Free(v: View, s: Section)
    requires v.pageSize > 0
  {
    forall a: nat {:trigger Lookup(v, a)} | a < U64 && Contains(s, a) :: Lookup(v, a) == SECTION_UNASSIGNED
  }

  /** The later snapshot keeps sections, walks and table entries that were in use. */
  ghost predicate Grown(v: View, v': View) {
    && v'.pageSize == v.pageSize && v'.levels == v.levels
    && v.sections <= v'.sections && |v.subpages| <= |v'.subpages|
    && (forall y: nat {:trigger PageWalk(v', y)} | PageWalk(v, y) != SECTION_UNASSIGNED && Hi(y, v.levels) == 0 ::
          PageWalk(v', y) == PageWalk(v, y))
    && (forall k | 0 <= k < |v.subpages| ::
          v'.subpages[k].base == v.subpages[k].base && |v'.subpages[k].sub| == |v.subpages[k].sub|)
    && (forall k, o | 0 <= k < |v.subpages| && 0 <= o < |v.subpages[k].sub|
                      && v.subpages[k].sub[o] != SECTION_UNASSIGNED ::
          v'.subpages[k].sub[o] == v.subpages[k].sub[o])
  }

  /** The bytes of a page of a section of whole pages. */
  lemma PageByte(v: View, s: Section, y: nat, o: nat)
    requires Sized(v) && InSpace(s) && Whole(s, v.pageSize) && PageIn(s, v.pageSize, y) && o < v.pageSize
    ensures Contains(s, y * v.pageSize + o) && (y * v.pageSize + o) / v.pageSize == y
    ensures Hi(y, v.levels) == 0
  {
    var p := v.pageSize;
    var a := y * p + o;
    Distribute(y, 1, p);
    PageUnique(a, p, y);
    WholePages(s, p, a);
    AddressPage(v, a);
  }

  lemma KeepSection(v: View, x: nat, v': View, i: nat)
    requires Built(v, x) && Grown(v, v') && FIRST <= i < |v.sections|
    ensures Filled(v', i) && Housed(v', i)
    ensures i != x ==> NotEmpty(v', i)
    ensures v.sections[i].mr.Subpage? ==> v.sections[i].mr.k < |v.subpages|
    ensures v.sections[i].mr.Subpage? && v'.subpages[v.sections[i].mr.k] == v.subpages[v.sections[i].mr.k] ==>
              KindOk(v', i)
    ensures v.sections[i].mr.Mapped? ==> KindOk(v', i)
  {
    assert SectionOk(v, i);
    KeepWalks(v, x, v', i);
    KeepHome(v, x, v', i);
    if i != x {
      assert NotEmpty(v, i);
    }
    if v.sections[i].mr.Subpage? {
      var k := v.sections[i].mr.k;
      forall o | 0 <= o < v.pageSize && v'.subpages[k] == v.subpages[k]
        ensures EntryOfPage(v', v.sections[i].addr + o, v'.subpages[k].sub[o])
      {
        assert EntryOfPage(v, v.sections[i].addr + o, v.subpages[k].sub[o]);
      }
    }
  }

  lemma KeepWalks(v: View, x: nat, v': View, i: nat)
    requires Built(v, x) && Grown(v, v') && FIRST <= i < |v.sections|
    ensures Filled(v', i)
  {
    assert SectionOk(v, i);
    if Whole(v.sections[i], v.pageSize) {
      forall y: nat | PageIn(v.sections[i], v.pageSize, y) ensures PageWalk(v', y) == i {
        PageByte(v, v.sections[i], y, 0);
        assert PageWalk(v, y) == i;
      }
    }
  }

  lemma KeepHome(v: View, x: nat, v': View, i: nat)
    requires Built(v, x) && Grown(v, v') && FIRST <= i < |v.sections|
    ensures Housed(v', i)
  {
    assert SectionOk(v, i);
    if IsPiece(v, i) {
      var s := v.sections[i];
      AddressPage(v, s.addr);
      var c := PageWalk(v, s.addr / v.pageSize);
      assert PageWalk(v', s.addr / v.pageSize) == c;
    }
  }

  /** A page that walks to a section has an address that resolves to one. */
  lemma UsedPage(v: View, y: nat) returns (o: nat)
    requires Built(v, 0) && Hi(y, v.levels) == 0 && PageWalk(v, y) != SECTION_UNASSIGNED
    ensures o < v.pageSize && y * v.pageSize + o < U64
    ensures Lookup(v, y * v.pageSize + o) != SECTION_UNASSIGNED
  {
    assert PageOk(v, y);
    var w := PageWalk(v, y);
    assert KindOk(v, w) && NotEmpty(v, w) by {
      assert SectionOk(v, w) && NotEmpty(v, w);
    }
    var t := v.sections[w];
    if t.mr.Mapped? {
      o := 0;
      PageByte(v, t, y, o);
      FindIsWalk(v, 0, y * v.pageSize + o);
    } else {
      o :| 0 <= o < v.pageSize && v.subpages[t.mr.k].sub[o] != SECTION_UNASSIGNED;
      ContainerBase(v, t, y);
      PageByte(v, t, y, o);
      FindIsWalk(v, 0, y * v.pageSize + o);
      ResolveInPage(v, w, y * v.pageSize + o);
    }
  }

  lemma ContainerBase(v: View, t: Section, y: nat)
    requires v.pageSize > 0 && t.size == v.pageSize && t.addr % v.pageSize == 0 && PageIn(t, v.pageSize, y)
    ensures t.addr == y * v.pageSize
  {
    PageUnique(t.size, v.pageSize, 1);
    PageOf(t.addr, v.pageSize);
  }

  /** No page of a free section of whole pages is set: a container there would have a piece in it. */
  lemma FreePages(v: View, s: Section, y: nat)
    requires Built(v, 0) && InSpace(s) && Whole(s, v.pageSize) && Free(v, s) && PageIn(s, v.pageSize, y)
    ensures PageWalk(v, y) == SECTION_UNASSIGNED
  {
    PageByte(v, s, y, 0);
    if PageWalk(v, y) != SECTION_UNASSIGNED {
      var o := UsedPage(v, y);
      PageByte(v, s, y, o);
    }
  }

  /** register_multipage: the section number goes into the map for every page of the section. */
  lemma AddWhole(v: View, v': View, s: Section)
    requires Built(v, 0) && InSpace(s) && Whole(s, v.pageSize) && s.mr.Mapped? && Free(v, s)
    requires v' == v.(sections := v.sections + [s], root := v'.root, nodes := v'.nodes)
    requires SetPages(v.nodes, v.root, v'.nodes, v'.root, v.levels, 0, s.addr / v.pageSize,
                      s.addr / v.pageSize + s.size / v.pageSize, |v.sections|)
    ensures Built(v', 0) && Added(v, v', s, |v.sections|)
  {
    var n := |v.sections|;
    forall y: nat | Hi(y, v.levels) == 0
      ensures PageWalk(v', y) == if PageIn(s, v.pageSize, y) then n else PageWalk(v, y)
      ensures PageIn(s, v.pageSize, y) ==> PageWalk(v, y) == SECTION_UNASSIGNED
    {
      if PageIn(s, v.pageSize, y) {
        FreePages(v, s, y);
      }
    }
    assert Grown(v, v');
    WholeBuilt(v, v', s);
    forall a: nat | a < U64 ensures Lookup(v', a) == if Contains(s, a) then n else Lookup(v, a) {
      WholeLookup(v, v', s, a);
    }
  }

  lemma WholeBuilt(v: View, v': View, s: Section)
    requires Built(v, 0) && InSpace(s) && Whole(s, v.pageSize) && s.mr.Mapped?
    requires v' == v.(sections := v.sections + [s], root := v'.root, nodes := v'.nodes)
    requires forall y: nat {:trigger PageWalk(v', y)} | Hi(y, v.levels) == 0 ::
               PageWalk(v', y) == if PageIn(s, v.pageSize, y) then |v.sections| else PageWalk(v, y)
    requires Grown(v, v')
    ensures Built(v', 0)
  {
    var n := |v.sections|;
    assert v'.sections[..FIRST] == v.sections[..FIRST];
    forall y: nat | Hi(y, v'.levels) == 0 ensures PageOk(v', y) {
      assert PageOk(v, y);
    }
    forall i | FIRST <= i < |v'.sections| ensures SectionOk(v', i) && NotEmpty(v', i) {
      if i < n {
        KeepSection(v, 0, v', i);
        assert SectionOk(v, i);
      } else {
        forall y: nat | PageIn(s, v.pageSize, y) ensures PageWalk(v', y) == n {
          PageByte(v, s, y, 0);
        }
      }
    }
  }

  lemma WholeLookup(v: View, v': View, s: Section, a: nat)
    requires Built(v, 0) && Built(v', 0) && InSpace(s) && Whole(s, v.pageSize) && s.mr.Mapped? && a < U64
    requires v' == v.(sections := v.sections + [s], root := v'.root, nodes := v'.nodes)
    requires forall y: nat {:trigger PageWalk(v', y)} | Hi(y, v.levels) == 0 ::
               PageWalk(v', y) == if PageIn(s, v.pageSize, y) then |v.sections| else PageWalk(v, y)
    ensures Lookup(v', a) == if Contains(s, a) then |v.sections| else Lookup(v, a)
  {
    AddressPage(v, a);
    FindIsWalk(v, 0, a);
    FindIsWalk(v', 0, a);
    WholePages(s, v.pageSize, a);
    assert PageWalk(v', a / v.pageSize) == if Contains(s, a) then |v.sections| else PageWalk(v, a / v.pageSize);
  }

  // The container a sub-page gets, and the table update that follows.

  function EmptyTable(p: nat): (t: seq<nat>)
    ensures |t| == p && forall o | 0 <= o < p :: t[o] == SECTION_UNASSIGNED
  {
    seq(p, o => SECTION_UNASSIGNED)
  }

  function Container(v: View, y: nat): Section {
    Section(Subpage(|v.subpages|), y * v.pageSize, 0, v.pageSize)
  }

  lemma ContainerFits(v: View, y: nat)
    requires Sized(v) && y * v.pageSize < U64
    ensures InSpace(Container(v, y)) && Whole(Container(v, y), v.pageSize)
    ensures forall z: nat :: PageIn(Container(v, y), v.pageSize, z) <==> z == y
  {
    var p, k := v.pageSize, U64 / v.pageSize;
    PageOf(U64, p);
    if y >= k {
      MulLe(k, y, p);
    }
    MulLe(y + 1, k, p);
    Distribute(y, 1, p);
    PageUnique(y * p, p, y);
    PageOf(y * p, p);
    PageUnique(p, p, 1);
    PageOf(p, p);
  }

  /** The first half of register_subpage: a container whose table is all unassigned changes no lookup. */
  lemma AddContainer(v: View, v': View, y: nat)
    requires Built(v, 0) && y * v.pageSize < U64 && PageWalk(v, y) == SECTION_UNASSIGNED
    requires v' == v.(sections := v.sections + [Container(v, y)],
               subpages := v.subpages + [SubPage(y * v.pageSize, EmptyTable(v.pageSize))],
                      root := v'.root, nodes := v'.nodes)
    requires SetPages(v.nodes, v.root, v'.nodes, v'.root, v.levels, 0, y, y + 1, |v.sections|)
    ensures Built(v', |v.sections|) && PageWalk(v', y) == |v.sections|
    ensures forall a: nat | a < U64 :: Lookup(v', a) == Lookup(v, a)
  {
    var n := |v.sections|;
    ContainerFits(v, y);
    forall z: nat | Hi(z, v.levels) == 0
      ensures PageWalk(v', z) == if z == y then n else PageWalk(v, z)
    {
    }
    PageByte(v, Container(v, y), y, 0);
    assert Grown(v, v');
    ContainerBuilt(v, v', y);
    forall a: nat | a < U64 ensures Lookup(v', a) == Lookup(v, a) {
      ContainerLookup(v, v', y, a);
    }
  }

  lemma ContainerBuilt(v: View, v': View, y: nat)
    requires Built(v, 0) && y * v.pageSize < U64
    requires v' == v.(sections := v.sections + [Container(v, y)],
               subpages := v.subpages + [SubPage(y * v.pageSize, EmptyTable(v.pageSize))],
                      root := v'.root, nodes := v'.nodes)
    requires forall z: nat {:trigger PageWalk(v', z)} | Hi(z, v.levels) == 0 ::
               PageWalk(v', z) == if z == y then |v.sections| else PageWalk(v, z)
    requires Grown(v, v')
    ensures Built(v', |v.sections|)
  {
    var n := |v.sections|;
    ContainerFits(v, y);
    assert v'.sections[..FIRST] == v.sections[..FIRST];
    forall z: nat | Hi(z, v'.levels) == 0 ensures PageOk(v', z) {
      assert PageOk(v, z);
    }
    forall i | FIRST <= i < |v'.sections| ensures SectionOk(v', i) && (i != n ==> NotEmpty(v', i)) {
      if i < n {
        KeepSection(v, 0, v', i);
        assert SectionOk(v, i);
      } else {
        PageByte(v, Container(v, y), y, 0);
      }
    }
  }

  lemma ContainerLookup(v: View, v': View, y: nat, a: nat)
    requires Built(v, 0) && Built(v', |v.sections|) && a < U64 && PageWalk(v, y) == SECTION_UNASSIGNED
    requires v' == v.(sections := v.sections + [Container(v, y)],
               subpages := v.subpages + [SubPage(y * v.pageSize, EmptyTable(v.pageSize))],
                      root := v'.root, nodes := v'.nodes)
    requires forall z: nat {:trigger PageWalk(v', z)} | Hi(z, v.levels) == 0 ::
               PageWalk(v', z) == if z == y then |v.sections| else PageWalk(v, z)
    ensures Lookup(v', a) == Lookup(v, a)
  {
    var n := |v.sections|;
    AddressPage(v, a);
    FindIsWalk(v, 0, a);
    FindIsWalk(v', n, a);
    assert Find(v', a) == if a / v.pageSize == y then n else Find(v, a);
    if Find(v', a) == n {
      assert v.sections[0] == v.sections[..FIRST][0];
      assert Resolve(v', n, a) == EmptyTable(v.pageSize)[a % v.pageSize];
    } else {
      ResolveSame(v, 0, v', Find(v, a), a);
    }
  }

  /** Sections and tables that did not change resolve as before. */
  lemma ResolveSame(v: View, x: nat, v': View, f: nat, a: nat)
    requires Built(v, x) && f < |v.sections| && (f == SECTION_UNASSIGNED || FIRST <= f)
    requires v'.pageSize == v.pageSize && v.sections <= v'.sections && |v.subpages| <= |v'.subpages|
    requires v.sections[f].mr.Subpage? && v.sections[f].mr.k < |v.subpages| ==>
               v'.subpages[v.sections[f].mr.k] == v.subpages[v.sections[f].mr.k]
    ensures Resolve(v', f, a) == Resolve(v, f, a)
  {
    assert v'.sections[f] == v.sections[f];
    if f == SECTION_UNASSIGNED {
      assert v.sections[0] == v.sections[..FIRST][0];
    } else {
      assert KindOk(v, f) by {
        assert SectionOk(v, f);
      }
    }
  }

  /** subpage_register: the table with `[from, to)` set to `n`. */
  function FillTable(t: seq<nat>, from: nat, to: nat, n: nat): (r: seq<nat>)
    ensures |r| == |t|
    ensures forall o | 0 <= o < |t| :: r[o] == if from <= o < to then n else t[o]
  {
    seq(|t|, o requires 0 <= o < |t| => if from <= o < to then n else t[o])
  }

  /** The container of the page of `s` in `v`. */
  ghost predicate HasContainer(v: View, s: Section, c: nat)
    requires v.pageSize > 0
  {
    && c == PageWalk(v, s.addr / v.pageSize)
    && FIRST <= c < |v.sections| && v.sections[c].mr.Subpage?
    && v.sections[c].mr.k < |v.subpages|
  }

  function PieceView(v: View, s: Section, c: nat): View
    requires v.pageSize > 0 && c < |v.sections| && v.sections[c].mr.Subpage? && v.sections[c].mr.k < |v.subpages|
  {
    var k, start := v.sections[c].mr.k, s.addr % v.pageSize;
    var table := FillTable(v.subpages[k].sub, start, start + s.size, |v.sections|);
    v.(sections := v.sections + [s],
       subpages := v.subpages[k := v.subpages[k].(sub := table)])
  }

  /** The second half of register_subpage: the piece answers its own addresses and nothing else changes. */
  lemma AddPiece(v: View, x: nat, s: Section, c: nat)
    requires Built(v, x) && (x == 0 || x == c) && HasContainer(v, s, c)
    requires InSpace(s) && s.mr.Mapped? && !Whole(s, v.pageSize) && s.addr % v.pageSize + s.size <= v.pageSize
    requires Free(v, s)
    ensures Built(PieceView(v, s, c), 0) && Added(v, PieceView(v, s, c), s, |v.sections|)
  {
    var v', n := PieceView(v, s, c), |v.sections|;
    var k, start := v.sections[c].mr.k, s.addr % v.pageSize;
    PieceGrows(v, x, s, c);
    PieceBuilt(v, x, s, c);
    forall a: nat | a < U64 ensures Lookup(v', a) == if Contains(s, a) then n else Lookup(v, a) {
      PieceLookup(v, x, s, c, a);
    }
  }

  lemma SamePage(addr: nat, base: nat, p: nat)
    requires p > 0 && base == addr / p * p
    ensures addr == base + addr % p
  {
    PageOf(addr, p);
  }

  /** The container of the page of a piece starts where the page does. */
  lemma PieceBase(v: View, x: nat, s: Section, c: nat)
    requires Built(v, x) && HasContainer(v, s, c) && InSpace(s)
    ensures KindOk(v, c) && v.sections[c].addr == s.addr / v.pageSize * v.pageSize
  {
    AddressPage(v, s.addr);
    ContainerPage(v, x, c, s.addr / v.pageSize);
  }

  lemma ContainerPage(v: View, x: nat, c: nat, y: nat)
    requires Built(v, x) && FIRST <= c < |v.sections| && v.sections[c].mr.Subpage?
    requires Hi(y, v.levels) == 0 && c == PageWalk(v, y)
    ensures KindOk(v, c) && v.sections[c].addr == y * v.pageSize
  {
    assert KindOk(v, c) by {
      assert SectionOk(v, c);
    }
    assert PageOk(v, y);
    ContainerBase(v, v.sections[c], y);
  }

  /** Offsets in a container's page against addresses in the piece. */
  lemma PieceOffset(v: View, x: nat, s: Section, c: nat, o: nat)
    requires Built(v, x) && HasContainer(v, s, c) && o < v.pageSize && InSpace(s)
    ensures KindOk(v, c) && v.sections[c].addr == s.addr / v.pageSize * v.pageSize
    ensures Contains(v.sections[c], v.sections[c].addr + o) && v.sections[c].addr + o < U64
    ensures Contains(s, v.sections[c].addr + o) <==> s.addr % v.pageSize <= o < s.addr % v.pageSize + s.size
  {
    PieceBase(v, x, s, c);
    SamePage(s.addr, v.sections[c].addr, v.pageSize);
  }

  lemma PieceGrows(v: View, x: nat, s: Section, c: nat)
    requires Built(v, x) && HasContainer(v, s, c) && InSpace(s) && Free(v, s)
    requires s.addr % v.pageSize + s.size <= v.pageSize
    ensures Grown(v, PieceView(v, s, c))
  {
    var v', k, start := PieceView(v, s, c), v.sections[c].mr.k, s.addr % v.pageSize;
    forall o | 0 <= o < |v.subpages[k].sub| && v.subpages[k].sub[o] != SECTION_UNASSIGNED
      ensures v'.subpages[k].sub[o] == v.subpages[k].sub[o]
    {
      PieceOffset(v, x, s, c, start);
      if start <= o < start + s.size {
        var a := v.sections[c].addr + o;
        PieceOffset(v, x, s, c, o);
        FindInContainer(v, x, c, a);
      }
    }
  }

  lemma FindInContainer(v: View, x: nat, c: nat, a: nat)
    requires Built(v, x) && FIRST <= c < |v.sections| && v.sections[c].mr.Subpage? && Contains(v.sections[c], a)
    ensures a < U64 && Find(v, a) == c && KindOk(v, c)
    ensures Lookup(v, a) == v.subpages[v.sections[c].mr.k].sub[a - v.sections[c].addr]
  {
    assert SectionOk(v, c);
    PageUnique(v.pageSize, v.pageSize, 1);
    FoundInBuilt(v, x, c, a);
    ResolveInPage(v, c, a);
  }

  lemma PieceBuilt(v: View, x: nat, s: Section, c: nat)
    requires Built(v, x) && (x == 0 || x == c) && HasContainer(v, s, c)
    requires InSpace(s) && s.mr.Mapped? && !Whole(s, v.pageSize) && s.addr % v.pageSize + s.size <= v.pageSize
    requires Grown(v, PieceView(v, s, c))
    ensures Built(PieceView(v, s, c), 0)
  {
    var v', n := PieceView(v, s, c), |v.sections|;
    assert v'.sections[..FIRST] == v.sections[..FIRST];
    forall y: nat | Hi(y, v'.levels) == 0 ensures PageOk(v', y) {
      assert PageOk(v, y);
    }
    forall i | FIRST <= i < |v'.sections| ensures SectionOk(v', i) && NotEmpty(v', i) {
      if i < n {
        assert SectionOk(v, i);
        KeepSection(v, x, v', i);
        if v.sections[i].mr.Subpage? && v.sections[i].mr.k == v.sections[c].mr.k {
          PieceTable(v, x, s, c, i);
        }
      } else {
        PieceHoused(v, x, s, c);
      }
    }
  }

  lemma PieceHoused(v: View, x: nat, s: Section, c: nat)
    requires Built(v, x) && HasContainer(v, s, c)
    requires InSpace(s) && s.mr.Mapped? && !Whole(s, v.pageSize) && s.addr % v.pageSize + s.size <= v.pageSize
    ensures SectionOk(PieceView(v, s, c), |v.sections|) && NotEmpty(PieceView(v, s, c), |v.sections|)
  {
    var v' := PieceView(v, s, c);
    PieceOffset(v, x, s, c, 0);
    forall o | 0 <= o < v.pageSize && Contains(s, v.sections[c].addr + o)
      ensures v'.subpages[v.sections[c].mr.k].sub[o] == |v.sections|
    {
      PieceOffset(v, x, s, c, o);
    }
  }

  /** Only the container itself uses the table: two containers with one table have one page. */
  lemma PieceTable(v: View, x: nat, s: Section, c: nat, i: nat)
    requires Built(v, x) && HasContainer(v, s, c)
    requires InSpace(s) && s.mr.Mapped? && !Whole(s, v.pageSize) && s.addr % v.pageSize + s.size <= v.pageSize
    requires FIRST <= i < |v.sections| && v.sections[i].mr == v.sections[c].mr
    requires Grown(v, PieceView(v, s, c))
    ensures KindOk(PieceView(v, s, c), i) && NotEmpty(PieceView(v, s, c), i)
  {
    var v', k := PieceView(v, s, c), v.sections[c].mr.k;
    assert KindOk(v, i) && KindOk(v, c) by {
      assert SectionOk(v, i) && SectionOk(v, c);
    }
    forall o | 0 <= o < v.pageSize ensures EntryOfPage(v', v.sections[i].addr + o, v'.subpages[k].sub[o]) {
      assert EntryOfPage(v, v.sections[i].addr + o, v.subpages[k].sub[o]);
      PieceOffset(v, x, s, c, o);
    }
    assert v'.subpages[k].sub[s.addr % v.pageSize] == |v.sections|;
  }

  lemma PieceLookup(v: View, x: nat, s: Section, c: nat, a: nat)
    requires Built(v, x) && HasContainer(v, s, c) && InSpace(s) && s.mr.Mapped? && a < U64
    requires s.addr % v.pageSize + s.size <= v.pageSize
    requires Built(PieceView(v, s, c), 0)
    ensures Lookup(PieceView(v, s, c), a) == if Contains(s, a) then |v.sections| else Lookup(v, a)
  {
    var v' := PieceView(v, s, c);
    if Contains(v.sections[c], a) {
      FindInContainer(v, x, c, a);
      FindInContainer(v', 0, c, a);
      PieceOffset(v, x, s, c, a - v.sections[c].addr);
    } else {
      FindIsWalk(v, x, a);
      FindIsWalk(v', 0, a);
      PieceElsewhere(v, x, s, c, a);
    }
  }

  /** An address outside the container's page is outside the piece and uses another table. */
  lemma PieceElsewhere(v: View, x: nat, s: Section, c: nat, a: nat)
    requires Built(v, x) && HasContainer(v, s, c) && InSpace(s) && s.mr.Mapped? && a < U64
    requires s.addr % v.pageSize + s.size <= v.pageSize && !Contains(v.sections[c], a)
    ensures !Contains(s, a)
    ensures Resolve(PieceView(v, s, c), Find(v, a), a) == Lookup(v, a)
  {
    if Contains(s, a) {
      PartialPage(s, v.pageSize, a);
      PieceOffset(v, x, s, c, a % v.pageSize);
      PageOf(a, v.pageSize);
    }
    var f := Find(v, a);
    FindIsWalk(v, x, a);
    assert v.sections[0] == v.sections[..FIRST][0];
    if f != SECTION_UNASSIGNED {
      assert KindOk(v, f) && KindOk(v, c) by {
        assert SectionOk(v, f) && SectionOk(v, c);
      }
    }
    ResolveSame(v, x, PieceView(v, s, c), f, a);
  }
}
