/**
  AddressSpaceDispatch of exec.c: mem_begin, mem_add, mem_commit and the lookups through the
  one-entry cache, proved to agree with the plain list of sections that was fed in.
 */
module Dispatch {
  import opened Words
  import opened Radix
  import opened PhysMap
  import opened PageMap
  import opened Seals
  import opened Sections
  import opened DispatchInv
  import opened DispatchAdd
  import opened DispatchCount

  /** P_L2_LEVELS. */
  function Levels(pageBits: nat): nat
    requires pageBits < 64
  {
    (64 - pageBits - 1) / 9 + 1
  }

  lemma PageGeometry(pageBits: nat)
    requires 10 <= pageBits <= 16
    ensures Levels(pageBits) == 6
    ensures 1024 <= Pow2(pageBits) <= 65536
    ensures U64 <= Step(6) * Pow2(pageBits) && U64 % Pow2(pageBits) == 0
  {
    assert Step(6) == 0x40_0000_0000_0000;
    assert pageBits in {10, 11, 12, 13, 14, 15, 16};
    assert Pow2(10) == 1024 && Pow2(11) == 2048 && Pow2(12) == 4096 && Pow2(13) == 8192;
    assert Pow2(14) == 16384 && Pow2(15) == 32768 && Pow2(16) == 65536;
  }

  lemma PageRange(pageBits: nat)
    requires 10 <= pageBits <= 16
    ensures Levels(pageBits) == 6 && 1024 <= Pow2(pageBits) <= 65536
  {
    PageGeometry(pageBits);
  }

  /** mru_section: NULL or a section number. */
  datatype Mru = NoMru | Mru(section: nat)

  /** More section numbers are allowed in the leaves once the section array grows. */
  lemma MoreSections(nodes: seq<Node>, tag: seq<Tag>, s: set<nat>, t: set<nat>)
    requires Buildable(nodes, tag, s) && s <= t
    ensures Buildable(nodes, tag, t)
  {
    assert Opened(Tree, true);
    forall n | 0 <= n < |nodes| ensures NodeLeavesIn(nodes[n], t) {
      assert NodeLeavesIn(nodes[n], s);
    }
  }

  /** A piece of a page is never a leaf of the map. */
  lemma PieceTree(sections: seq<Section>, s: Section, p: nat)
    requires p > 0 && s.mr.Mapped? && !Whole(s, p)
    ensures TreeSections(sections + [s], p) == TreeSections(sections, p)
  {
  }

  /** The page range of a section fits the pageMap. */
  lemma RangeFits(v: View, s: Section)
    requires Sized(v) && InSpace(s) && Whole(s, v.pageSize)
    ensures s.addr / v.pageSize >= 0 && s.size / v.pageSize > 0
    ensures s.addr / v.pageSize + s.size / v.pageSize <= Step(v.levels)
  {
    var p, q, n := v.pageSize, s.addr / v.pageSize, s.size / v.pageSize;
    PageOf(s.addr, p);
    PageOf(s.size, p);
    Distribute(q, n, p);
    if q + n > Step(v.levels) {
      MulLe(Step(v.levels) + 1, q + n, p);
      Distribute(Step(v.levels), 1, p);
    }
  }

  class AddressSpaceDispatch {
    const pageBits: nat
    const pageSize: nat
    const pageMap: PhysPageMap
    var sections: seq<Section>
    var subpages: seq<SubPage>
    var mru: Mru

    ghost function V(): View
      reads this, pageMap
    {
      View(pageSize, pageMap.levels, pageMap.root, pageMap.nodes, sections, subpages)
    }

    ghost predicate Shaped()
      reads this
    {
      10 <= pageBits <= 16 && pageSize == Pow2(pageBits) && pageMap.levels == Levels(pageBits)
    }

    /** The pages that have a container. */
    ghost function Cs(): set<nat>
      reads this
    {
      if pageSize > 0 then Containers(sections, pageSize) else {}
    }

    /** Between mem_begin and mem_commit. */
    ghost predicate Building()
      reads this, pageMap
    {
      BuildingExcept(0)
    }

    /** The same while register_subpage has not yet filled its new container `x`. */
    ghost predicate BuildingExcept(x: nat)
      reads this, pageMap
    {
      && Shaped() && Built(V(), x)
      && pageMap.Ok(TreeSections(sections, pageSize))
      && |pageMap.nodes| <= 11 * |sections|
      && |sections| <= pageSize
    }

    /** mem_begin: four dummy sections and an empty map; every address is unassigned. */
    constructor (pageBits: nat)
      requires 10 <= pageBits <= 16
      ensures fresh(pageMap) && Building() && mru == NoMru
      ensures this.pageBits == pageBits && Agrees(V(), []) && |sections| == FIRST && Cs() == {}
    {
      PageGeometry(pageBits);
      var m := new PhysPageMap(Levels(pageBits));
      this.pageBits, this.pageSize, this.pageMap := pageBits, Pow2(pageBits), m;
      this.sections, this.subpages, this.mru := Dummies, [], NoMru;
      new;
      assert forall y: nat :: PageOk(V(), y);
      NothingMapped(V());
    }

    /** phys_section_add; `ok` is false when the assertion on the number of sections aborts. */
    method SectionAdd(s: Section) returns (ok: bool, n: nat)
      modifies `sections
      ensures ok <==> old(|sections|) < pageSize
      ensures n == old(|sections|)
      ensures sections == if ok then old(sections) + [s] else old(sections)
    {
      ok, n := |sections| < pageSize, |sections|;
      if ok {
        sections := sections + [s];
      }
    }

    /** register_multipage. */
    method RegisterMultipage(s: Section) returns (ok: bool)
      requires Building()
      requires InSpace(s) && Whole(s, pageSize) && s.mr.Mapped? && Free(V(), s)
      modifies this`sections, pageMap
      ensures ok <==> old(|sections|) < pageSize
      ensures ok ==> Building() && Added(old(V()), V(), s, old(|sections|)) && |sections| == old(|sections|) + 1
      ensures ok ==> Cs() == old(Cs())
      ensures !ok ==> |sections| == pageSize
    {
      var n;
      ghost var v := V();
      PageRange(pageBits);
      ContainersNext(sections, s, pageSize);
      ok, n := SectionAdd(s);
      if ok {
        ghost var t := TreeSections(sections, pageSize);
        MoreSections(pageMap.nodes, pageMap.tag, TreeSections(v.sections, pageSize), t);
        RangeFits(v, s);
        FreeRange(v, s);
        assert n in t;
        pageMap.Set(s.addr / pageSize, s.size / pageSize, n, t);
        AddWhole(v, V(), s);
      }
    }

    /** phys_page_find. */
    method FindSection(a: nat) returns (section: nat)
      requires Sized(V()) && |sections| >= FIRST
      requires WellFormed(pageMap.nodes, pageMap.tag) && EntryOk(pageMap.root, pageMap.levels, 0, pageMap.tag)
      ensures section == Find(V(), a)
    {
      var w := pageMap.FindEntry(a / pageSize);
      if w < |sections| && Covers(sections[w], a) {
        return w;
      } else {
        return SECTION_UNASSIGNED;
      }
    }

    /** The same before mem_commit. */
    method FindBuilding(a: nat) returns (section: nat)
      requires Building()
      ensures section == Find(V(), a)
    {
      BuildableFormed(pageMap.nodes, pageMap.tag, TreeSections(sections, pageSize));
      section := FindSection(a);
    }

    /** The part of register_subpage that gives page `base` a container. */
    method NewContainer(base: nat, ghost y: nat) returns (ok: bool)
      requires Building() && base < U64 && base == y * pageSize
      requires PageWalk(V(), y) == SECTION_UNASSIGNED
      modifies this`sections, this`subpages, pageMap
      ensures ok <==> old(|sections|) < pageSize
      ensures !ok ==> sections == old(sections)
      ensures ok ==> BuildingExcept(old(|sections|)) && old(sections) <= sections && |sections| == old(|sections|) + 1
      ensures ok ==> sections[old(|sections|)].mr.Subpage? && PageWalk(V(), y) == old(|sections|)
      ensures ok ==> Cs() == old(Cs()) + {y}
      ensures ok ==> forall a: nat | a < U64 :: Lookup(V(), a) == old(Lookup(V(), a))
    {
      ghost var v := V();
      PageGeometry(pageBits);
      PageUnique(base, pageSize, y);
      PageOf(base, pageSize);
      AddressPage(v, base);
      var n;
      subpages := subpages + [SubPage(base, EmptyTable(pageSize))];
      ContainersNext(sections, Section(Subpage(|subpages| - 1), base, 0, pageSize), pageSize);
      ok, n := SectionAdd(Section(Subpage(|subpages| - 1), base, 0, pageSize));
      if ok {
        ContainerFits(v, y);
        ghost var t := TreeSections(sections, pageSize);
        MoreSections(pageMap.nodes, pageMap.tag, TreeSections(v.sections, pageSize), t);
        assert n in t;
        UnsetPage(v, y);
        pageMap.Set(base / pageSize, 1, n, t);
        AddContainer(v, V(), y);
      }
    }

    /** subpage_register. */
    method RegisterRange(k: nat, start: nat, end: int, n: nat) returns (rc: int)
      requires k < |subpages| && |subpages[k].sub| == pageSize
      modifies `subpages
      ensures start < pageSize && end < pageSize ==>
                var sub := FillTable(old(subpages)[k].sub, start, if end < 0 then 0 else end + 1, n);
                subpages == old(subpages)[k := old(subpages)[k].(sub := sub)]
      ensures start >= pageSize || end >= pageSize ==> rc == -1 && subpages == old(subpages)
    {
      if start >= pageSize || end >= pageSize {
        return -1;
      }
      var sub, idx := subpages[k].sub, start;
      while idx <= end
        invariant start <= idx && (idx <= end + 1 || idx == start)
        invariant |sub| == pageSize
        invariant forall o | 0 <= o < pageSize :: sub[o] == if start <= o < idx then n else subpages[k].sub[o]
      {
        sub := sub[idx := n];
        idx := idx + 1;
      }
      assert sub == FillTable(subpages[k].sub, start, if end < 0 then 0 else end + 1, n);
      subpages := subpages[k := subpages[k].(sub := sub)];
      return 0;
    }

    /** The container of the page of `s`, made when the page has none; no lookup changes. */
    method EnsureContainer(s: Section) returns (ok: bool, c: nat, ghost x: nat)
      requires Building() && InSpace(s) && Free(V(), s) && s.addr % pageSize + s.size <= pageSize
      modifies this`sections, this`subpages, pageMap
      ensures ok ==> BuildingExcept(x) && (x == 0 || x == c) && HasContainer(V(), s, c)
      ensures ok ==> old(sections) <= sections && forall a: nat | a < U64 :: Lookup(V(), a) == old(Lookup(V(), a))
      ensures !ok ==> |sections| == pageSize
      ensures ok <==> s.addr / pageSize in old(Cs()) || old(|sections|) < pageSize
      ensures ok ==> Cs() == old(Cs()) + {s.addr / pageSize}
      ensures ok ==> |sections| == old(|sections|) + if s.addr / pageSize in old(Cs()) then 0 else 1
    {
      ok, x := true, 0;
      var base := s.addr - s.addr % pageSize;
      BaseOf(s, pageSize);
      PieceFree(V(), s);
      HasContainerIff(V(), s);
      var existing := FindBuilding(base);
      assert sections[existing].mr.Subpage? || sections[existing].mr == Unassigned;
      if !sections[existing].mr.Subpage? {
        PageOf(base, pageSize);
        ok := NewContainer(base, s.addr / pageSize);
        c := |sections| - 1;
        x := c;
        if ok {
          assert SectionOk(V(), c);
        }
      } else {
        c := existing;
      }
    }

    /** Puts the piece `s` into the table of the container `c` of its page. */
    method FillContainer(s: Section, c: nat, ghost x: nat) returns (ok: bool)
      requires BuildingExcept(x) && (x == 0 || x == c) && HasContainer(V(), s, c) && Free(V(), s)
      requires InSpace(s) && s.mr.Mapped? && !Whole(s, pageSize) && s.addr % pageSize + s.size <= pageSize
      modifies this`sections, this`subpages
      ensures ok <==> old(|sections|) < pageSize
      ensures ok ==> Building() && Added(old(V()), V(), s, old(|sections|)) && |sections| == old(|sections|) + 1
      ensures ok ==> Cs() == old(Cs())
      ensures !ok ==> sections == old(sections)
    {
      var n;
      ghost var v := V();
      ContainersNext(sections, s, pageSize);
      ok, n := SectionAdd(s);
      if ok {
        AddPiece(v, x, s, c);
        assert KindOk(v, c) by {
          assert SectionOk(v, c);
        }
        var k, start := sections[c].mr.k, s.addr % pageSize;
        var rc := RegisterRange(k, start, start + s.size - 1, n);
        assert V() == PieceView(v, s, c);
        PieceTree(v.sections, s, pageSize);
      }
    }

    /** register_subpage: `s` is a piece of one page. */
    method RegisterSubpage(s: Section) returns (ok: bool)
      requires Building()
      requires InSpace(s) && s.mr.Mapped? && !Whole(s, pageSize) && s.addr % pageSize + s.size <= pageSize
      requires Free(V(), s)
      modifies this`sections, this`subpages, pageMap
      ensures ok ==> Building() && |sections| > 0 && Added(old(V()), V(), s, |sections| - 1)
      ensures !ok ==> |sections| == pageSize
      ensures ok <==> old(|sections|) + ChunkNeed(s, pageSize, old(Cs())) <= pageSize
      ensures ok ==> |sections| == old(|sections|) + ChunkNeed(s, pageSize, old(Cs()))
      ensures ok ==> Cs() == old(Cs()) + {s.addr / pageSize}
    {
      var c;
      ghost var x;
      ok, c, x := EnsureContainer(s);
      if ok {
        ok := FillContainer(s, c, x);
      }
    }

    /** Registers the next `now.size` bytes of `s`, of which `d` are registered already. */
    method RegisterChunk(now: Section, ghost s: Section, ghost d: nat, ghost fed: seq<Section>) returns (ok: bool)
      requires Building() && NextChunk(now, s, d, pageSize)
      requires Agrees(V(), fed + [s.(size := d)]) && Apart(fed, s)
      requires InSpace(s) && s.mr.Mapped?
      modifies this`sections, this`subpages, pageMap
      ensures ok ==> Building() && Agrees(V(), fed + [s.(size := d + now.size)])
      ensures !ok ==> |sections| == pageSize
      ensures ok <==> old(|sections|) + ChunkNeed(now, pageSize, old(Cs())) <= pageSize
      ensures ok ==> |sections| == old(|sections|) + ChunkNeed(now, pageSize, old(Cs()))
      ensures ok ==> Cs() == old(Cs()) + ChunkPages(now, pageSize)
    {
      ghost var v := V();
      RestIsFree(v, fed, s, d, now);
      if Whole(now, pageSize) {
        ok := RegisterMultipage(now);
      } else {
        ok := RegisterSubpage(now);
      }
      if ok {
        ChunkAgrees(v, V(), fed, s, d, now.size, |sections| - 1);
      }
    }

    /** mem_add has registered the first `d` bytes of `s`, and since it began with `n` entries and the containers
        `cs` it has used what those bytes take. */
    ghost predicate Held(s: Section, d: nat, fed: seq<Section>, n: nat, cs: set<nat>, t: Account)
      reads this, pageMap
    {
      Building() && Agrees(V(), fed + [s.(size := d)]) && |sections| == n + t.need(d) && Cs() == cs + t.pages(d)
    }

    /** The array is full, and the whole of `s` takes more. */
    ghost predicate Full(s: Section, n: nat, t: Account)
      reads this
    {
      |sections| == pageSize && n + t.need(s.size) > pageSize
    }

    /** mem_add: registers `s` as a head piece, a run of whole pages and a tail piece; it fails exactly when the
        section array is too small for them and their containers. */
    method MemAdd(s: Section, ghost fed: seq<Section>) returns (ok: bool)
      requires Building() && Agrees(V(), fed)
      requires InSpace(s) && s.mr.Mapped? && s.offset < U64 && Apart(fed, s)
      modifies this`sections, this`subpages, pageMap
      ensures ok ==> Building() && Agrees(V(), fed + [s])
      ensures !ok ==> |sections| == pageSize
      ensures ok <==> old(|sections|) + Need(s, pageSize, old(Cs())) <= pageSize
      ensures ok ==> |sections| == old(|sections|) + Need(s, pageSize, old(Cs()))
      ensures ok ==> Cs() == old(Cs()) + Partial(s, pageSize)
    {
      ghost var t := AccountOf(s, pageSize, Cs());
      ok := AddAll(s, fed, |sections|, Cs(), t);
      assert Front(s, s.size) == s;
    }

    /** The same with what each front of `s` takes in `t`. */
    method AddAll(s: Section, ghost fed: seq<Section>, ghost n: nat, ghost cs: set<nat>, ghost t: Account)
      returns (ok: bool)
      requires Building() && Agrees(V(), fed) && n == |sections| && cs == Cs() && Accounts(t, s, pageSize, cs)
      requires InSpace(s) && s.mr.Mapped? && s.offset < U64 && Apart(fed, s)
      modifies this`sections, this`subpages, pageMap
      ensures ok ==> Held(s, s.size, fed, n, cs, t)
      ensures !ok ==> Full(s, n, t)
    {
      PageGeometry(pageBits);
      AccountNone(t, s, pageSize, cs);
      var now := HeadOf(s, pageSize, cs, t);
      ok := AddHead(s, now, fed, n, cs, t);
      if ok {
        ok := AddRest(s, now, fed, n, cs, t);
      }
    }

    /** The head piece of mem_add. */
    method AddHead(s: Section, now: Section, ghost fed: seq<Section>, ghost n: nat, ghost cs: set<nat>,
                   ghost t: Account)
      returns (ok: bool)
      requires Building() && Agrees(V(), fed) && n == |sections| && cs == Cs() && Accounts(t, s, pageSize, cs)
      requires InSpace(s) && s.mr.Mapped? && Apart(fed, s) && t.need(0) == 0 && t.pages(0) == {}
      requires now.size > 0 ==> t.chunk(now, 0)
      modifies this`sections, this`subpages, pageMap
      ensures ok ==> Held(s, now.size, fed, n, cs, t)
      ensures !ok ==> Full(s, n, t)
    {
      ok := true;
      NothingYet(V(), fed, s);
      if now.size > 0 {
        ok := AddChunk(now, s, 0, fed, n, cs, t);
      }
    }

    /** Registers a chunk and keeps the account. */
    method AddChunk(now: Section, ghost s: Section, ghost d: nat, ghost fed: seq<Section>,
                    ghost n: nat, ghost cs: set<nat>, ghost t: Account)
      returns (ok: bool)
      requires Held(s, d, fed, n, cs, t) && Accounts(t, s, pageSize, cs)
      requires Apart(fed, s) && InSpace(s) && s.mr.Mapped? && d <= s.size && t.chunk(now, d)
      modifies this`sections, this`subpages, pageMap
      ensures ok ==> Held(s, d + now.size, fed, n, cs, t)
      ensures !ok ==> Full(s, n, t)
    {
      ChunkAccount(t, now, s, d, pageSize, cs);
      ok := RegisterChunk(now, s, d, fed);
    }

    /** One turn of the loop of mem_add: steps over the chunk `last` and registers the next one. */
    method AddNext(last: Section, remain: Section, ghost s: Section, ghost d: nat, ghost fed: seq<Section>,
                   ghost n: nat, ghost cs: set<nat>, ghost t: Account)
      returns (ok: bool, now: Section, rest: Section)
      requires Held(s, d, fed, n, cs, t) && Accounts(t, s, pageSize, cs) && t.resumes(d)
      requires last.size <= d < s.size && remain == t.rest(d - last.size)
      requires Apart(fed, s) && InSpace(s) && s.mr.Mapped?
      modifies this`sections, this`subpages, pageMap
      ensures rest == t.rest(d) && rest.size == s.size - d && 0 < now.size <= rest.size && t.resumes(d + now.size)
      ensures ok ==> Held(s, d + now.size, fed, n, cs, t)
      ensures !ok ==> Full(s, n, t)
    {
      rest := StepOver(last, remain, pageSize, s, d, cs, t);
      RestStart(t, s, d, pageSize, cs);
      now := ChunkOf(rest, pageSize);
      NextFits(t, now, s, d, pageSize, cs);
      ok := AddChunk(now, s, d, fed, n, cs, t);
    }

    /** The loop of mem_add. */
    method AddRest(s: Section, head: Section, ghost fed: seq<Section>, ghost n: nat, ghost cs: set<nat>,
                   ghost t: Account)
      returns (ok: bool)
      requires Held(s, head.size, fed, n, cs, t) && Accounts(t, s, pageSize, cs)
      requires head.size <= s.size && t.resumes(head.size) && t.rest(0) == s
      requires Apart(fed, s) && InSpace(s) && s.mr.Mapped?
      modifies this`sections, this`subpages, pageMap
      ensures ok ==> Held(s, s.size, fed, n, cs, t)
      ensures !ok ==> Full(s, n, t)
    {
      var now, remain := head, s;
      ghost var d := head.size;
      ok := true;
      while ok && remain.size != now.size
        invariant now.size <= d <= s.size && t.resumes(d)
        invariant remain == t.rest(d - now.size) && remain.size == s.size - d + now.size
        invariant ok ==> Held(s, d, fed, n, cs, t)
        invariant !ok ==> Full(s, n, t)
        decreases s.size - d, ok
      {
        ok, now, remain := AddNext(now, remain, s, d, fed, n, cs, t);
        d := d + now.size;
      }
    }

    /** mem_add for each section of a list, until one fails. */
    method Feed(fed: seq<Section>) returns (ok: bool)
      requires Building() && Agrees(V(), []) && |sections| == FIRST && Cs() == {} && Disjoint(fed)
      requires forall i | 0 <= i < |fed| :: InSpace(fed[i]) && fed[i].mr.Mapped? && fed[i].offset < U64
      modifies this`sections, this`subpages, pageMap
      ensures ok <==> Entries(fed, pageSize) <= pageSize
      ensures ok ==> Building() && Agrees(V(), fed) && |sections| == Entries(fed, pageSize)
      ensures !ok ==> |sections| == pageSize
    {
      ok := true;
      var i := 0;
      assert fed[..0] == [];
      while ok && i < |fed|
        invariant 0 <= i <= |fed|
        invariant ok ==> Building() && Agrees(V(), fed[..i])
        invariant ok ==> |sections| == Entries(fed[..i], pageSize) && Cs() == AllPartial(fed[..i], pageSize)
        invariant !ok ==> |sections| == pageSize && Entries(fed[..i], pageSize) > pageSize
      {
        ListNext(fed, i, pageSize);
        ok := MemAdd(fed[i], fed[..i]);
        i := i + 1;
      }
      EntriesGrow(fed, pageSize, i);
      if ok {
        assert fed[..i] == fed;
      }
    }

    /** After mem_commit: the map may be compacted, and the cache holds a section a lookup returned. */
    ghost predicate Committed()
      reads this, pageMap
    {
      && Shaped() && Ready(V())
      && WellFormed(pageMap.nodes, pageMap.tag) && EntryOk(pageMap.root, pageMap.levels, 0, pageMap.tag)
      && (mru.Mru? ==> mru.section == SECTION_UNASSIGNED || FIRST <= mru.section < |sections|)
    }

    /** mem_commit: compaction changes no lookup. */
    method Commit()
      requires Building() && mru == NoMru
      modifies pageMap
      ensures Committed()
      ensures forall a: nat | a < U64 :: Find(V(), a) == old(Find(V(), a)) && Lookup(V(), a) == old(Lookup(V(), a))
    {
      ghost var v, t := V(), TreeSections(sections, pageSize);
      PageGeometry(pageBits);
      pageMap.CompactAll(t);
      CompactKeepsReady(v, 0, V(), pageMap.tag);
    }

    /** The cached section can answer for `a` without a walk. */
    predicate MruHit(a: nat)
      reads this
      requires mru.Mru? ==> mru.section < |sections|
    {
      mru.Mru? && mru.section != SECTION_UNASSIGNED && Covers(sections[mru.section], a)
    }

    /** address_space_lookup_region.  With sub-pages resolved the cache is invisible, whatever the
        earlier lookups were.  Without, the answer is the uncached one unless the cached section is
        a piece of a page that covers the address. */
    method LookupRegion(a: nat, resolve: bool) returns (section: nat)
      requires Committed() && a < U64
      modifies `mru
      ensures Committed()
      ensures resolve ==> section == Lookup(V(), a)
      ensures !resolve ==> (section == Find(V(), a) <==> !(old(MruHit(a)) && IsPiece(V(), old(mru.section))))
      ensures section == SECTION_UNASSIGNED || (FIRST <= section < |sections| && Contains(sections[section], a))
      ensures mru == if old(MruHit(a)) then old(mru) else Mru(section)
    {
      var update := false;
      if MruHit(a) {
        section := mru.section;
        MruAnswers(V(), section, a);
      } else {
        section := FindSection(a);
        update := true;
      }
      assert FindOk(V(), a);
      if resolve && sections[section].mr.Subpage? {
        assert KindOk(V(), section);
        section := subpages[sections[section].mr.k].sub[a % pageSize];
      }
      if update {
        mru := Mru(section);
      }
    }

    /** address_space_translate_internal: with sub-pages resolved, the region and offset of the section that contains
        the address; without, those of what the lookup gives.  An access to RAM is clamped to addresses of the same
        section. */
    method Translate(addr: nat, len: nat, resolve: bool, ghost fed: seq<Section>)
      returns (section: nat, xlat: nat, plen: nat)
      requires Committed() && addr < U64 && Agrees(V(), fed)
      modifies `mru
      ensures Committed()
      ensures section < |sections| && xlat == Xlat(sections[section], addr)
      ensures resolve ==> TranslatesAs(sections[section].mr, xlat, fed, addr)
      ensures !resolve ==> (section == Find(V(), addr) <==> !(old(MruHit(addr)) && IsPiece(V(), old(mru.section))))
      ensures plen <= len && (!IsRam(sections[section]) ==> plen == len)
      ensures IsRam(sections[section]) ==> AllIn(V(), section, addr, addr + plen)
    {
      section := LookupRegion(addr, resolve);
      TranslateAgrees(V(), fed, addr);
      xlat := Xlat(sections[section], addr);
      plen := len;
      if IsRam(sections[section]) {
        var diff := sections[section].size - (addr - sections[section].addr);
        plen := if diff <= len then diff else len;
        ClampedToSection(V(), section, addr, plen);
      }
    }
  }

  /** Every address of `[from, to)` is answered by section `i`. */
  ghost predicate AllIn(v: View, i: nat, from: nat, to: nat)
    requires v.pageSize > 0
  {
    forall b: nat {:trigger Lookup(v, b)} | from <= b < to :: b < U64 && Lookup(v, b) == i
  }

  predicate IsRam(s: Section) {
    s.mr.Mapped? && s.mr.ram
  }

  /** The offset into the region, in 64 bits. */
  function Xlat(s: Section, addr: nat): (x: nat)
    ensures x < U64
  {
    (addr - s.addr + s.offset) % U64
  }

  /** What the list says about an address: the unassigned region, or a place in a section's region. */
  ghost predicate TranslatesAs(mr: Region, xlat: nat, fed: seq<Section>, addr: nat) {
    var i := Scan(fed, addr);
    if i < 0 then mr == Unassigned && xlat == addr
    else mr == fed[i].mr && xlat == Xlat(fed[i], addr)
  }

  lemma TranslateAgrees(v: View, fed: seq<Section>, addr: nat)
    requires Ready(v) && Agrees(v, fed) && addr < U64
    ensures Lookup(v, addr) < |v.sections|
    ensures var s := v.sections[Lookup(v, addr)]; TranslatesAs(s.mr, Xlat(s, addr), fed, addr)
  {
    assert AgreesAt(v, fed, addr) && FindOk(v, addr);
    assert v.sections[0] == v.sections[..FIRST][0];
    if Scan(fed, addr) >= 0 {
      SameOffset(v.sections[Lookup(v, addr)], fed[Scan(fed, addr)], addr);
    }
  }

  lemma ClampedToSection(v: View, i: nat, addr: nat, plen: nat)
    requires Ready(v) && FIRST <= i < |v.sections| && v.sections[i].mr.Mapped? && Contains(v.sections[i], addr)
    requires plen <= v.sections[i].size - (addr - v.sections[i].addr)
    ensures AllIn(v, i, addr, addr + plen)
  {
    assert KindOk(v, i);
    forall b: nat | addr <= b < addr + plen ensures b < U64 && Lookup(v, b) == i {
      assert FoundAt(v, i, b);
    }
  }

  /** A whole mem_begin, mem_add, ..., mem_commit transaction.  It goes through exactly when the sections take no
      more entries than a page has bytes, for which five entries a section always suffice; then every 64-bit
      address resolves as a scan of the list of sections says. */
  method BuildDispatch(pageBits: nat, fed: seq<Section>) returns (ok: bool, d: AddressSpaceDispatch)
    requires 10 <= pageBits <= 16 && Disjoint(fed)
    requires forall i | 0 <= i < |fed| :: InSpace(fed[i]) && fed[i].mr.Mapped? && fed[i].offset < U64
    ensures fresh(d) && fresh(d.pageMap)
    ensures d.pageSize == Pow2(pageBits)
    ensures ok <==> Entries(fed, d.pageSize) <= d.pageSize
    ensures FIRST + 5 * |fed| <= d.pageSize ==> ok
    ensures ok ==> d.Committed() && Agrees(d.V(), fed) && |d.sections| == Entries(fed, d.pageSize) && d.mru == NoMru
    ensures !ok ==> |d.sections| == d.pageSize
  {
    d := new AddressSpaceDispatch(pageBits);
    ok := d.Feed(fed);
    EntriesBound(fed, d.pageSize);
    if ok {
      ghost var v := d.V();
      d.Commit();
      CommitAgrees(v, d.V(), fed);
    }
  }

  lemma ListNext(fed: seq<Section>, i: nat, p: nat)
    requires i < |fed| && p > 0
    ensures fed[..i + 1] == fed[..i] + [fed[i]]
    ensures AllPartial(fed[..i + 1], p) == AllPartial(fed[..i], p) + Partial(fed[i], p)
    ensures Entries(fed[..i + 1], p) == Entries(fed[..i], p) + Need(fed[i], p, AllPartial(fed[..i], p))
  {
    assert fed[..i + 1][..i] == fed[..i];
  }

  /** A section that ends inside a page: an unresolved lookup of its first byte gives the container of the page, but
      after a resolved lookup of the same byte it gives the section. */
  method CacheShows(id: int, ram: bool) returns (d: AddressSpaceDispatch, before: nat, after: nat)
    ensures d.Committed() && d.pageSize == 4096 && Find(d.V(), 4096) == before != after
  {
    var fed := [Section(Mapped(id, ram), 4096, 0, 16)];
    var ok;
    assert Pow2(4) == 16 && Pow2(8) == 256 && Pow2(12) == 4096;
    ok, d := BuildDispatch(12, fed);
    assert Scan(fed, 4096) == 0 && Scan(fed, 4112) == -1;
    PieceSeen(d.V(), fed);
    before := d.FindSection(4096);
    var resolved := d.LookupRegion(4096, true);
    MruAnswers(d.V(), resolved, 4096);
    after := d.LookupRegion(4096, false);
  }

  lemma PieceSeen(v: View, fed: seq<Section>)
    requires Ready(v) && Agrees(v, fed) && Scan(fed, 4096) == 0 && Scan(fed, 4112) == -1 && fed[0].mr.Mapped?
    requires v.pageSize == 4096
    ensures var i := Lookup(v, 4096);
            FIRST <= i < |v.sections| && IsPiece(v, i) && Contains(v.sections[i], 4096) && Covers(v.sections[i], 4096)
  {
    var i := Lookup(v, 4096);
    assert AgreesAt(v, fed, 4096) && AgreesAt(v, fed, 4112) && FindOk(v, 4096);
    assert KindOk(v, i) && FoundAt(v, i, 4112);
    CoversIsContains(v.sections[i], 4096);
  }

  /** The cached section, when it covers the address, is what an uncached lookup finds or resolves to. */
  lemma MruAnswers(v: View, m: nat, a: nat)
    requires Ready(v) && FIRST <= m < |v.sections| && a < U64 && Covers(v.sections[m], a)
    ensures Contains(v.sections[m], a) && Resolve(v, m, a) == Lookup(v, a)
    ensures m == Find(v, a) <==> !IsPiece(v, m)
  {
    assert KindOk(v, m) && FoundAt(v, m, a);
    CoversIsContains(v.sections[m], a);
    PageUnique(v.pageSize, v.pageSize, 1);
    PageOf(v.pageSize, v.pageSize);
  }

  lemma SameOffset(p: Section, s: Section, addr: nat)
    requires SameTarget(p, s)
    ensures Xlat(p, addr) == Xlat(s, addr)
  {
    var x, y := addr - p.addr + p.offset, addr - s.addr + s.offset;
    assert x - y == p.offset + s.addr - p.addr - s.offset;
    CongruentMod(x, y);
  }

  lemma CongruentMod(x: int, y: int)
    requires (x - y) % U64 == 0
    ensures x % U64 == y % U64
  {
  }

  lemma CommitAgrees(v: View, v': View, fed: seq<Section>)
    requires v.pageSize > 0 && v'.pageSize > 0 && v'.sections == v.sections && Agrees(v, fed)
    requires forall a: nat | a < U64 :: Lookup(v', a) == Lookup(v, a)
    ensures Agrees(v', fed)
  {
    forall a: nat | a < U64 ensures AgreesAt(v', fed, a) {
      assert AgreesAt(v, fed, a);
    }
  }

  /** For every front of a section: the entries and pages it takes, whether a chunk can follow, which chunks do,
      and what remains. */
  datatype Account = Account(need: nat -> nat, pages: nat -> set<nat>, resumes: nat -> bool,
                             chunk: (Section, nat) -> bool, rest: nat -> Section)

  ghost predicate Accounts(t: Account, s: Section, p: nat, cs: set<nat>)
    requires p > 0
  {
    forall d: nat {:trigger Front(s, d)} | d <= s.size ::
      && t.need(d) == Need(Front(s, d), p, cs) && t.pages(d) == Partial(Front(s, d), p)
      && t.resumes(d) == Resumes(s, d, p) && t.rest(d) == Advance(s, d)
      && forall now :: t.chunk(now, d) <==> Cut(now, s, d, p)
  }

  /** `now` is a chunk mem_add may register after the first `d` bytes. */
  ghost predicate Cut(now: Section, s: Section, d: nat, p: nat)
    requires p > 0
  {
    NextChunk(now, s, d, p) && Follows(now, s, d, p) && Resumes(s, d + now.size, p)
  }

  ghost function AccountOf(s: Section, p: nat, cs: set<nat>): (t: Account)
    requires p > 0
    ensures Accounts(t, s, p, cs)
  {
    Account((d: nat) => Need(Front(s, d), p, cs), (d: nat) => Partial(Front(s, d), p), (d: nat) => Resumes(s, d, p),
            (now: Section, d: nat) => Cut(now, s, d, p), (d: nat) => if d <= s.size then Advance(s, d) else s)
  }

  lemma AccountNone(t: Account, s: Section, p: nat, cs: set<nat>)
    requires p > 0 && Accounts(t, s, p, cs) && s.offset < U64
    ensures t.need(0) == 0 && t.pages(0) == {} && t.rest(0) == s
  {
    NothingStep(s, p);
    AdvanceNone(s);
  }

  /** A chunk adds its own entries and pages to the account. */
  lemma ChunkAccount(t: Account, now: Section, s: Section, d: nat, p: nat, cs: set<nat>)
    requires p > 0 && Accounts(t, s, p, cs) && d <= s.size && t.chunk(now, d)
    ensures NextChunk(now, s, d, p)
    ensures cs + t.pages(d) + ChunkPages(now, p) == cs + t.pages(d + now.size)
    ensures t.need(d) + ChunkNeed(now, p, cs + t.pages(d)) == t.need(d + now.size) <= t.need(s.size)
  {
    ChunkCuts(t, now, s, d, p, cs);
    ChunkPaid(t, now, s, d, p, cs);
    FrontPays(t, s, d + now.size, p, cs);
  }

  lemma ChunkCuts(t: Account, now: Section, s: Section, d: nat, p: nat, cs: set<nat>)
    requires p > 0 && Accounts(t, s, p, cs) && d <= s.size && t.chunk(now, d)
    ensures Cut(now, s, d, p) && d + now.size <= s.size
  {
    var front := Front(s, d);
  }

  lemma ChunkPaid(t: Account, now: Section, s: Section, d: nat, p: nat, cs: set<nat>)
    requires p > 0 && Accounts(t, s, p, cs) && d + now.size <= s.size && Follows(now, s, d, p)
    ensures cs + t.pages(d) + ChunkPages(now, p) == cs + t.pages(d + now.size)
    ensures t.need(d) + ChunkNeed(now, p, cs + t.pages(d)) == t.need(d + now.size)
  {
    NeedStep(now, s, d, p, cs);
    Join(cs, t.pages(d), ChunkPages(now, p));
  }

  lemma FrontPays(t: Account, s: Section, d: nat, p: nat, cs: set<nat>)
    requires p > 0 && Accounts(t, s, p, cs) && Resumes(s, d, p)
    ensures t.need(d) <= t.need(s.size)
  {
    assert Front(s, s.size) == s;
    NeedGrows(s, d, p, cs);
  }

  lemma HeadNext(t: Account, s: Section, n: nat, p: nat, cs: set<nat>)
    requires p > 0 && Accounts(t, s, p, cs) && s.addr % p != 0 && s.offset < U64
    requires 0 < n <= s.size && n <= p - s.addr % p && (n == s.size || n == p - s.addr % p)
    ensures t.chunk(s.(size := n), 0) && t.resumes(n)
  {
    var none, front := Front(s, 0), Front(s, n);
    NothingStep(s, p);
    HeadChunk(s, n, p);
    HeadStep(s, n, p);
  }

  lemma NothingNext(t: Account, s: Section, p: nat, cs: set<nat>)
    requires p > 0 && Accounts(t, s, p, cs) && s.addr % p == 0
    ensures t.resumes(0)
  {
    var none := Front(s, 0);
    NothingStep(s, p);
  }

  /** The head piece mem_add registers first; empty when the section starts on a page. */
  method HeadOf(s: Section, p: nat, ghost cs: set<nat>, ghost t: Account) returns (now: Section)
    requires 0 < p < U64 && InSpace(s) && s.offset < U64 && Accounts(t, s, p, cs)
    ensures now == s.(size := now.size) && now.size <= s.size && t.resumes(now.size)
    ensures now.size > 0 ==> t.chunk(now, 0)
    ensures now.size > 0 <==> s.addr % p != 0
  {
    now := s;
    if now.addr % p != 0 {
      var left := ToNextPage(now.addr, p);
      now := now.(size := if left <= now.size then left else now.size);
      HeadNext(t, s, now.size, p, cs);
    } else {
      now := now.(size := 0);
      NothingNext(t, s, p, cs);
    }
  }

  /** What remains of `s` after the chunk `last`. */
  method StepOver(last: Section, remain: Section, p: nat, ghost s: Section, ghost d: nat, ghost cs: set<nat>,
                  ghost t: Account)
    returns (rest: Section)
    requires p > 0 && Accounts(t, s, p, cs) && last.size <= d <= s.size && remain == t.rest(d - last.size)
    ensures rest == t.rest(d) && rest.size == s.size - d
  {
    ghost var before, front := Front(s, d - last.size), Front(s, d);
    AdvanceTwice(s, d - last.size, last.size);
    rest := Advance(remain, last.size);
  }

  /** The chunk mem_add registers next of what remains: the whole pages, or less than a page. */
  method ChunkOf(remain: Section, p: nat) returns (now: Section)
    requires p > 0 && remain.addr % p == 0
    ensures now == if remain.size < p then remain else remain.(size := remain.size - remain.size % p)
  {
    now := remain;
    if remain.size < p {
    } else if remain.addr % p != 0 {
      // The head piece ended on a page boundary, so a page-sized piece is never needed.
      assert false;
    } else {
      now := now.(size := now.size - now.size % p);
    }
  }

  lemma RestStart(t: Account, s: Section, d: nat, p: nat, cs: set<nat>)
    requires p > 0 && Accounts(t, s, p, cs) && d < s.size && t.resumes(d)
    ensures t.rest(d).addr % p == 0 && t.rest(d).size == s.size - d
  {
    var front := Front(s, d);
  }

  lemma TailNext(t: Account, s: Section, d: nat, p: nat, cs: set<nat>)
    requires p > 0 && Accounts(t, s, p, cs) && d < s.size && t.resumes(d) && s.size - d < p
    ensures t.chunk(t.rest(d), d) && t.resumes(s.size)
  {
    var front, all := Front(s, d), Front(s, s.size);
    TailCut(s, d, p);
  }

  lemma RunNext(t: Account, s: Section, d: nat, p: nat, cs: set<nat>)
    requires p > 0 && Accounts(t, s, p, cs) && d < s.size && t.resumes(d) && s.size - d >= p
    ensures 0 < s.size - d - (s.size - d) % p
    ensures t.chunk(t.rest(d).(size := s.size - d - (s.size - d) % p), d) && t.resumes(s.size - (s.size - d) % p)
  {
    var front, after := Front(s, d), Front(s, s.size - (s.size - d) % p);
    RunCut(s, d, p);
  }

  /** The chunk cut next fits the account. */
  lemma NextFits(t: Account, now: Section, s: Section, d: nat, p: nat, cs: set<nat>)
    requires p > 0 && Accounts(t, s, p, cs) && d < s.size && t.resumes(d) && t.rest(d).size == s.size - d
    requires now == if s.size - d < p then t.rest(d) else t.rest(d).(size := s.size - d - (s.size - d) % p)
    ensures 0 < now.size <= s.size - d && t.chunk(now, d) && t.resumes(d + now.size)
  {
    if s.size - d < p {
      TailNext(t, s, d, p, cs);
    } else {
      RunNext(t, s, d, p, cs);
    }
  }

  lemma TailCut(s: Section, d: nat, p: nat)
    requires p > 0 && d < s.size && Resumes(s, d, p) && s.size - d < p
    ensures Cut(Advance(s, d), s, d, p)
  {
    TailChunk(s, d, p);
    NotWhole(Advance(s, d), p);
  }

  lemma RunCut(s: Section, d: nat, p: nat)
    requires p > 0 && d < s.size && Resumes(s, d, p) && s.size - d >= p
    ensures 0 < s.size - d - (s.size - d) % p && Cut(Advance(s, d).(size := s.size - d - (s.size - d) % p), s, d, p)
  {
    TailChunk(s, d, p);
  }

  /** Less than a page is not a run of whole pages. */
  lemma NotWhole(s: Section, p: nat)
    requires p > 0 && 0 < s.size < p
    ensures !Whole(s, p)
  {
    PageUnique(s.size, p, 0);
    PageOf(s.size, p);
  }

  // The list grows by one section, a chunk at a time.

  /** TARGET_PAGE_ALIGN before the 64-bit truncation. */
  lemma AlignUp(addr: nat, p: nat)
    requires 0 < p && addr % p != 0
    ensures (addr + p - 1) / p * p == addr - addr % p + p
  {
    PageOf(addr, p);
    Distribute(addr / p, 1, p);
    Distribute(addr / p, 2, p);
    PageUnique(addr + p - 1, p, addr / p + 1);
  }

  lemma Truncate(x: nat, y: nat)
    requires 0 <= x - y < U64
    ensures (x % U64 - y) % U64 == x - y
  {
  }

  /** `TARGET_PAGE_ALIGN(addr) - addr` in 64 bits: the distance to the next page. */
  function ToNextPage(addr: nat, p: nat): (left: nat)
    requires 0 < p < U64 && addr < U64 && addr % p != 0
    ensures left == p - addr % p
  {
    AlignUp(addr, p);
    var aligned := (addr + p - 1) / p * p;
    assert aligned - addr == p - addr % p;
    Truncate(aligned, addr);
    (aligned % U64 - addr) % U64
  }

  /** `s` after its first `d` bytes: what mem_add has still to register. */
  function Advance(s: Section, d: nat): Section
    requires d <= s.size
  {
    Section(s.mr, s.addr + d, (s.offset + d) % U64, s.size - d)
  }

  lemma {:induction false} ScanAppend(fed: seq<Section>, s: Section, a: nat)
    ensures Scan(fed + [s], a) == if Scan(fed, a) >= 0 then Scan(fed, a) else if Contains(s, a) then |fed| else -1
  {
    if fed == [] {
      assert fed + [s] == [s];
      assert [s][1..] == [];
    } else {
      assert (fed + [s])[1..] == fed[1..] + [s];
      ScanAppend(fed[1..], s, a);
    }
  }

  /** `s` overlaps no section of the list. */
  ghost predicate Apart(fed: seq<Section>, s: Section) {
    forall i, a: nat | 0 <= i < |fed| && Contains(fed[i], a) :: !Contains(s, a)
  }

  /** Where the list with a partly registered `s` puts an address. */
  lemma ScanPart(fed: seq<Section>, s: Section, d: nat, a: nat)
    requires d <= s.size && Apart(fed, s)
    ensures Contains(s, a) ==> Scan(fed + [s.(size := d)], a) == if a < s.addr + d then |fed| else -1
    ensures !Contains(s, a) ==> Scan(fed + [s.(size := d)], a) == Scan(fed, a)
  {
    ScanAppend(fed, s.(size := d), a);
  }

  /** The bytes not registered yet are free. */
  lemma RestIsFree(v: View, fed: seq<Section>, s: Section, d: nat, chunk: Section)
    requires v.pageSize > 0 && d <= s.size && Apart(fed, s) && Agrees(v, fed + [s.(size := d)])
    requires chunk.addr == s.addr + d && d + chunk.size <= s.size
    ensures Free(v, chunk)
  {
    var list := fed + [s.(size := d)];
    forall a: nat | a < U64 && Contains(chunk, a) ensures Lookup(v, a) == SECTION_UNASSIGNED {
      ScanPart(fed, s, d, a);
      assert AgreesAt(v, list, a);
    }
  }

  /** Registering the next chunk extends the agreement by the bytes of the chunk. */
  lemma ChunkAgrees(v: View, v': View, fed: seq<Section>, s: Section, d: nat, n: nat, i: nat)
    requires v.pageSize > 0 && v'.pageSize > 0 && d + n <= s.size && Apart(fed, s)
    requires Agrees(v, fed + [s.(size := d)])
    requires Added(v, v', Advance(s, d).(size := n), i)
    ensures Agrees(v', fed + [s.(size := d + n)])
  {
    var list := fed + [s.(size := d + n)];
    forall a: nat | a < U64 ensures AgreesAt(v', list, a) {
      ChunkAgreesAt(v, v', fed, s, d, n, i, a);
    }
  }

  lemma ChunkAgreesAt(v: View, v': View, fed: seq<Section>, s: Section, d: nat, n: nat, i: nat, a: nat)
    requires v.pageSize > 0 && v'.pageSize > 0 && d + n <= s.size && Apart(fed, s) && a < U64
    requires AgreesAt(v, fed + [s.(size := d)], a)
    requires Added(v, v', Advance(s, d).(size := n), i)
    ensures AgreesAt(v', fed + [s.(size := d + n)], a)
  {
    var before, after := fed + [s.(size := d)], fed + [s.(size := d + n)];
    ScanPart(fed, s, d, a);
    ScanPart(fed, s, d + n, a);
    var r := Lookup(v', a);
    if Contains(Advance(s, d).(size := n), a) {
      ChunkTarget(s, d, n);
      assert after[|fed|] == s.(size := d + n);
    } else if Contains(s, a) && a < s.addr + d {
      assert before[|fed|] == s.(size := d) && after[|fed|] == s.(size := d + n);
    } else if Scan(fed, a) >= 0 {
      assert before[Scan(fed, a)] == after[Scan(fed, a)];
    }
  }

  lemma ChunkTarget(s: Section, d: nat, n: nat)
    requires d + n <= s.size
    ensures SameTarget(Advance(s, d).(size := n), s.(size := d + n))
  {
    var x := s.offset + d;
    assert (x % U64) + s.addr - (s.addr + d) - s.offset == x % U64 - x;
    assert x == x / U64 * U64 + x % U64;
    ModMultiple(-(x / U64));
  }

  lemma ModMultiple(q: int)
    ensures (q * U64) % U64 == 0
  {
  }

  lemma AdvanceNone(s: Section)
    requires s.offset < U64
    ensures Advance(s, 0) == s
  {
  }

  lemma AdvanceTwice(s: Section, d: nat, n: nat)
    requires d + n <= s.size
    ensures Advance(Advance(s, d), n) == Advance(s, d + n)
  {
  }

  predicate OnPage(a: nat, p: nat)
    requires p > 0
  {
    a % p == 0
  }

  /** `now` is the part of `s` after its first `d` bytes that mem_add registers next. */
  ghost predicate NextChunk(now: Section, s: Section, d: nat, p: nat)
    requires p > 0
  {
    && 0 < now.size && d + now.size <= s.size && now == Advance(s, d).(size := now.size)
    && (Whole(now, p) || now.addr % p + now.size <= p)
  }

  lemma HeadChunk(s: Section, n: nat, p: nat)
    requires p > 0 && s.addr % p != 0 && 0 < n <= p - s.addr % p && n <= s.size && s.offset < U64
    ensures NextChunk(s.(size := n), s, 0, p)
    ensures n == p - s.addr % p ==> OnPage(s.addr + n, p)
  {
    assert s.(size := n) == Advance(s, 0).(size := n);
    PageOf(s.addr, p);
    Distribute(s.addr / p, 1, p);
    Distribute(s.addr / p + 1, 1, p);
    if n == p - s.addr % p {
      PageOf(s.addr + n, p);
      PageUnique(s.addr + n, p, s.addr / p + 1);
    }
  }

  lemma TailChunk(s: Section, d: nat, p: nat)
    requires p > 0 && d < s.size && OnPage(s.addr + d, p)
    ensures s.size - d < p ==> NextChunk(Advance(s, d), s, d, p)
    ensures s.size - d >= p ==>
              var n := (s.size - d) - (s.size - d) % p;
              NextChunk(Advance(s, d).(size := n), s, d, p) && OnPage(s.addr + d + n, p)
  {
    if s.size - d >= p {
      WholeChunk(s.addr + d, s.size - d, p);
    }
  }

  lemma WholeChunk(addr: nat, size: nat, p: nat)
    requires p > 0 && addr % p == 0 && size >= p
    ensures 0 < size - size % p <= size
    ensures (size - size % p) % p == 0 && (addr + size - size % p) % p == 0
  {
    PageOf(addr, p);
    PageOf(size, p);
    var n := size / p;
    Distribute(addr / p, n, p);
    assert addr + size - size % p == (addr / p + n) * p;
    PageUnique(n * p, p, n);
    PageUnique((addr / p + n) * p, p, addr / p + n);
  }

  lemma NothingYet(v: View, fed: seq<Section>, s: Section)
    requires v.pageSize > 0 && Agrees(v, fed)
    ensures Agrees(v, fed + [s.(size := 0)])
  {
    forall a: nat | a < U64 ensures AgreesAt(v, fed + [s.(size := 0)], a) {
      ScanAppend(fed, s.(size := 0), a);
      assert AgreesAt(v, fed, a);
    }
  }

  lemma NothingMapped(v: View)
    requires v.pageSize > 0 && v.root == Entry(1, NODE_NIL) && v.sections == Dummies && v.levels > 0
    ensures Agrees(v, [])
  {
    forall a: nat | a < U64 ensures AgreesAt(v, [], a) {
      assert Lookup(v, a) == SECTION_UNASSIGNED;
    }
  }

  lemma UnsetPage(v: View, y: nat)
    requires PageWalk(v, y) == SECTION_UNASSIGNED
    ensures Unset(v.nodes, v.root, v.levels, 0, y, y + 1)
  {
  }

  /** The page of a free piece is unassigned or has a container: the assertion in register_subpage holds. */
  lemma PieceFree(v: View, s: Section)
    requires Built(v, 0) && InSpace(s) && Free(v, s) && s.addr % v.pageSize + s.size <= v.pageSize
    ensures Find(v, s.addr - s.addr % v.pageSize) == PageWalk(v, s.addr / v.pageSize)
    ensures var c := PageWalk(v, s.addr / v.pageSize); c == SECTION_UNASSIGNED || HasContainer(v, s, c)
    ensures v.sections[SECTION_UNASSIGNED].mr == Unassigned
  {
    BaseOf(s, v.pageSize);
    FindIsWalk(v, 0, s.addr - s.addr % v.pageSize);
    FindIsWalk(v, 0, s.addr);
    assert v.sections[0] == v.sections[..FIRST][0];
    var c := PageWalk(v, s.addr / v.pageSize);
    if c != SECTION_UNASSIGNED {
      assert KindOk(v, c) by {
        assert SectionOk(v, c);
      }
      assert Lookup(v, s.addr) == SECTION_UNASSIGNED;
    }
  }

  /** The page of a free piece has a container exactly when a container of that page is in the array. */
  lemma HasContainerIff(v: View, s: Section)
    requires Built(v, 0) && InSpace(s) && Free(v, s) && s.addr % v.pageSize + s.size <= v.pageSize
    ensures HasContainer(v, s, PageWalk(v, s.addr / v.pageSize)) <==>
              s.addr / v.pageSize in Containers(v.sections, v.pageSize)
  {
    var y := s.addr / v.pageSize;
    var c := PageWalk(v, y);
    if y in Containers(v.sections, v.pageSize) {
      var w := ContainerWalks(v, y);
      assert KindOk(v, c) by {
        assert SectionOk(v, c);
      }
    }
    if HasContainer(v, s, c) {
      PieceBase(v, 0, s, c);
      SamePage(s.addr, v.sections[c].addr, v.pageSize);
      BaseOf(s, v.pageSize);
    }
  }

  lemma BaseOf(s: Section, p: nat)
    requires p > 0
    ensures s.addr % p <= s.addr && (s.addr - s.addr % p) / p == s.addr / p
    ensures s.addr / p >= 0 && s.addr - s.addr % p == s.addr / p * p
  {
    PageOf(s.addr, p);
    Distribute(s.addr / p, 1, p);
    PageUnique(s.addr - s.addr % p, p, s.addr / p);
  }

  /** phys_page_set may be called for a free section. */
  lemma FreeRange(v: View, s: Section)
    requires Built(v, 0) && InSpace(s) && Whole(s, v.pageSize) && Free(v, s)
    ensures Unset(v.nodes, v.root, v.levels, 0, s.addr / v.pageSize, s.addr / v.pageSize + s.size / v.pageSize)
  {
    forall y: nat | Hi(y, v.levels) == 0 && s.addr / v.pageSize <= y < s.addr / v.pageSize + s.size / v.pageSize
      ensures Walk(v.nodes, v.root, v.levels, y) == SECTION_UNASSIGNED
    {
      FreePages(v, s, y);
    }
  }
}
