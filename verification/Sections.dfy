/**
  Memory sections of exec.c and the plain list the dispatch must agree with:
  section_covers_addr, the pages of a section, and lookups on a snapshot of a dispatch.
 */
module Sections {
  import opened Words
  import opened Radix
  import opened PhysMap

  /** The MemoryRegion a section points at; `Subpage(k)` is the iomem of the k-th subpage_t. */
  datatype Region = Unassigned | NotDirty | Rom | Watch | Subpage(k: nat) | Mapped(id: int, ram: bool)

  /** MemoryRegionSection. */
  datatype Section = Section(mr: Region, addr: nat, offset: nat, size: nat)

  /** The bytes a section stands for. */
  predicate Contains(s: Section, a: nat) {
    s.addr <= a < s.addr + s.size
  }

  /** section_covers_addr: a 128-bit size with a high part covers everything, otherwise
      range_covers_byte compares with a last byte computed in 64 bits. */
  predicate Covers(s: Section, a: nat) {
    s.size >= U64 || s.addr <= a <= (s.addr + s.size - 1) % U64
  }

  /** A non-empty section clipped to the 64-bit address space. */
  predicate InSpace(s: Section) {
    0 < s.size && s.addr + s.size <= U64
  }

  /** The 64-bit test is exact, but for an empty section at address 0, which covers everything. */
  lemma CoversIsContains(s: Section, a: nat)
    requires s.addr + s.size <= U64 && a < U64
    ensures Covers(s, a) <==> Contains(s, a) || (s.size == 0 && s.addr == 0)
  {
  }

  /** The reference: scan the list of sections from the front. */
  function Scan(fed: seq<Section>, a: nat): (i: int)
    ensures -1 <= i < |fed|
    ensures i >= 0 ==> Contains(fed[i], a)
    ensures i < 0 ==> forall j | 0 <= j < |fed| :: !Contains(fed[j], a)
  {
    if fed == [] then -1
    else if Contains(fed[0], a) then 0
    else
      var i := Scan(fed[1..], a);
      if i < 0 then -1 else i + 1
  }

  ghost predicate Disjoint(fed: seq<Section>) {
    forall i, j, a: nat | 0 <= i < j < |fed| && Contains(fed[i], a) :: !Contains(fed[j], a)
  }

  /** Offsets into the region agree wherever both sections are used to translate an address. */
  predicate SameTarget(p: Section, s: Section) {
    p.mr == s.mr && (p.offset + s.addr - p.addr - s.offset) % U64 == 0
  }

  /** A section made of whole pages. */
  predicate Whole(s: Section, pageSize: nat)
    requires pageSize > 0
  {
    s.addr % pageSize == 0 && s.size % pageSize == 0
  }

  /** subpage_t: the page it stands for and the section number of each of its bytes. */
  datatype SubPage = SubPage(base: nat, sub: seq<nat>)

  /** A snapshot of an AddressSpaceDispatch. */
  datatype View = View(pageSize: nat, levels: nat, root: Entry, nodes: seq<Node>,
                       sections: seq<Section>, subpages: seq<SubPage>)

  /** phys_page_find on a snapshot. */
  function Find(v: View, a: nat): nat
    requires v.pageSize > 0
  {
    var w := Walk(v.nodes, v.root, v.levels, a / v.pageSize);
    if w < |v.sections| && Covers(v.sections[w], a) then w else SECTION_UNASSIGNED
  }

  /** A section number after sub-page resolution. */
  function Resolve(v: View, section: nat, a: nat): nat
    requires v.pageSize > 0
  {
    if section < |v.sections| && v.sections[section].mr.Subpage? then
      var k := v.sections[section].mr.k;
      if k < |v.subpages| && |v.subpages[k].sub| == v.pageSize then v.subpages[k].sub[a % v.pageSize]
        else SECTION_UNASSIGNED
    else section
  }

  /** The uncached lookup with sub-pages resolved. */
  function Lookup(v: View, a: nat): nat
    requires v.pageSize > 0
  {
    Resolve(v, Find(v, a), a)
  }

  /** The dispatch answers every address as the list does. */
  ghost predicate Agrees(v: View, fed: seq<Section>)
    requires v.pageSize > 0
  {
    forall a: nat {:trigger Lookup(v, a)} | a < U64 :: AgreesAt(v, fed, a)
  }

  ghost predicate AgreesAt(v: View, fed: seq<Section>, a: nat)
    requires v.pageSize > 0
  {
    var i, r := Scan(fed, a), Lookup(v, a);
    if i < 0 then r == SECTION_UNASSIGNED
    else r != SECTION_UNASSIGNED && r < |v.sections| && SameTarget(v.sections[r], fed[i])
  }

  // Page arithmetic.

  lemma PageOf(a: nat, p: nat)
    requires p > 0
    ensures a == (a / p) * p + a % p && 0 <= a % p < p
  {
  }

  lemma PageUnique(a: nat, p: nat, q: nat)
    requires p > 0 && q * p <= a < (q + 1) * p
    ensures a / p == q
  {
    PageOf(a, p);
    Distribute(a / p, 1, p);
    SlotUnique(a, q, a / p, p);
  }

  /** The pages of a section. */
  predicate PageIn(s: Section, p: nat, y: nat)
    requires p > 0
  {
    s.addr / p <= y < s.addr / p + s.size / p
  }

  /** A section of whole pages contains exactly the bytes of its pages. */
  lemma WholePages(s: Section, p: nat, a: nat)
    requires p > 0 && Whole(s, p)
    ensures Contains(s, a) <==> PageIn(s, p, a / p)
  {
    var q, n := s.addr / p, s.size / p;
    PageOf(s.addr, p);
    PageOf(s.size, p);
    PageOf(a, p);
    var y := a / p;
    Distribute(q, n, p);
    Distribute(y, 1, p);
    if y < q {
      MulLe(y + 1, q, p);
    } else if y < q + n {
      MulLe(q, y, p);
      MulLe(y + 1, q + n, p);
    } else {
      MulLe(q + n, y, p);
    }
  }

  /** A section inside one page only has bytes of that page. */
  lemma PartialPage(s: Section, p: nat, a: nat)
    requires p > 0 && s.addr % p + s.size <= p && Contains(s, a)
    ensures a / p == s.addr / p
    ensures a % p == s.addr % p + (a - s.addr)
  {
    PageOf(s.addr, p);
    PageOf(a, p);
    Distribute(s.addr / p, 1, p);
    PageUnique(a, p, s.addr / p);
  }
}
