/** The walk of get_next_page over the pages of the guest-physical blocks (dump.c). */
module PageWalk {
  import opened GuestBlocks
  import opened Pieces
  import opened Radix

  // Frame numbers and addresses, by counting pages; ARCH_PFN_OFFSET is 0 on every target.

  /** The address of a page frame. */
  ghost function Addr(pfn: nat, pageSize: nat): nat {
    if pfn == 0 then 0 else Addr(pfn - 1, pageSize) + pageSize
  }

  /** The frame of an address. */
  ghost function Pfn(addr: nat, pageSize: nat): nat {
    if pageSize == 0 || addr < pageSize then 0 else 1 + Pfn(addr - pageSize, pageSize)
  }

  /** The address is a page boundary. */
  ghost predicate Boundary(addr: nat, pageSize: nat) {
    addr == Addr(Pfn(addr, pageSize), pageSize)
  }

  lemma {:induction false} AddrIsProduct(pfn: nat, pageSize: nat)
    ensures Addr(pfn, pageSize) == pfn * pageSize
  {
    if pfn > 0 {
      AddrIsProduct(pfn - 1, pageSize);
      assert pfn * pageSize == (pfn - 1) * pageSize + pageSize;
    }
  }

  lemma {:induction false} PfnIsQuotient(addr: nat, pageSize: nat)
    requires pageSize > 0
    ensures Pfn(addr, pageSize) == addr / pageSize
  {
    if addr >= pageSize {
      PfnIsQuotient(addr - pageSize, pageSize);
      assert (addr - pageSize) / pageSize + 1 == addr / pageSize by {
        var q := (addr - pageSize) / pageSize;
        assert (q + 1) * pageSize == q * pageSize + pageSize;
        Quotient(addr, q + 1, pageSize);
      }
    }
  }

  lemma Quotient(x: nat, q: nat, d: nat)
    requires d > 0 && q * d <= x < q * d + d
    ensures x / d == q
  {
    var e := x / d;
    assert (q + 1) * d == q * d + d && (e + 1) * d == e * d + d;
    SlotUnique(x, q, e, d);
  }

  lemma {:induction false} AddrStep(a: nat, b: nat, pageSize: nat)
    requires a < b
    ensures Addr(a, pageSize) + pageSize <= Addr(b, pageSize)
  {
    if a + 1 < b {
      AddrStep(a, b - 1, pageSize);
    }
  }

  /** dump_paddr_to_pfn. */
  method PaddrToPfn(addr: nat, pageSize: nat) returns (pfn: nat)
    requires pageSize > 0
    ensures pfn == Pfn(addr, pageSize)
  {
    PfnIsQuotient(addr, pageSize);
    pfn := addr / pageSize;
  }

  /** dump_pfn_to_paddr. */
  method PfnToPaddr(pfn: nat, pageSize: nat) returns (addr: nat)
    ensures addr == Addr(pfn, pageSize)
  {
    AddrIsProduct(pfn, pageSize);
    addr := pfn * pageSize;
  }

  /** A guest page: its frame number and the host memory behind it. */
  datatype Page = Page(pfn: nat, host: nat)

  /** Where a walk stands: before the first page, or on a page of a block. */
  datatype Cursor = Start | On(block: nat, pfn: nat)

  /** Sorted blocks whose ends are page boundaries. */
  ghost predicate Paged(blocks: seq<Block>, pageSize: nat) {
    && pageSize > 0 && Sorted(blocks)
    && forall i | 0 <= i < |blocks| :: Boundary(blocks[i].start, pageSize) && Boundary(blocks[i].end, pageSize)
  }

  ghost function First(b: Block, pageSize: nat): nat {
    Pfn(b.start, pageSize)
  }

  ghost function Last(b: Block, pageSize: nat): nat {
    Pfn(b.end, pageSize)
  }

  /** Page `pfn` as part of the block. */
  ghost function PageIn(b: Block, pfn: nat, pageSize: nat): Page {
    var addr := Addr(pfn, pageSize);
    Page(pfn, if addr >= b.start then b.host + (addr - b.start) else 0)
  }

  /** The pages of a block, in order. */
  ghost function PagesOf(b: Block, pageSize: nat): (ps: seq<Page>) {
    var f, l := First(b, pageSize), Last(b, pageSize);
    seq(if f <= l then l - f else 0, j requires 0 <= j => PageIn(b, f + j, pageSize))
  }

  lemma PageAt(b: Block, pageSize: nat, j: nat)
    requires j < |PagesOf(b, pageSize)|
    ensures PagesOf(b, pageSize)[j] == PageIn(b, First(b, pageSize) + j, pageSize)
    ensures InBlock(b, PagesOf(b, pageSize)[j].pfn, pageSize)
  {
  }

  ghost function PageLists(blocks: seq<Block>, pageSize: nat): (lists: seq<seq<Page>>)
    ensures |lists| == |blocks| && forall i | 0 <= i < |blocks| :: lists[i] == PagesOf(blocks[i], pageSize)
  {
    seq(|blocks|, i requires 0 <= i < |blocks| => PagesOf(blocks[i], pageSize))
  }

  /** All guest pages, in the order of the walk. */
  ghost function Pages(blocks: seq<Block>, pageSize: nat): seq<Page> {
    Cat(PageLists(blocks, pageSize), |blocks|)
  }

  /** The page belongs to the block. */
  ghost predicate InBlock(b: Block, pfn: nat, pageSize: nat) {
    First(b, pageSize) <= pfn < Last(b, pageSize)
  }

  /** The cursor is on page `n` of the walk. */
  ghost predicate Stands(blocks: seq<Block>, pageSize: nat, c: Cursor, n: nat) {
    && c.On? && c.block < |blocks| && InBlock(blocks[c.block], c.pfn, pageSize)
    && n == |Cat(PageLists(blocks, pageSize), c.block)| + (c.pfn - First(blocks[c.block], pageSize))
  }

  /** On page boundaries, byte and page comparisons agree. */
  lemma PageBounds(b: Block, pageSize: nat, pfn: nat)
    requires pageSize > 0 && Boundary(b.start, pageSize) && Boundary(b.end, pageSize)
    ensures Addr(pfn, pageSize) >= b.start <==> pfn >= First(b, pageSize)
    ensures Addr(pfn, pageSize) + pageSize <= b.end <==> pfn < Last(b, pageSize)
    ensures b.start < b.end ==> First(b, pageSize) < Last(b, pageSize)
  {
    var f, l := First(b, pageSize), Last(b, pageSize);
    if pfn < f {
      AddrStep(pfn, f, pageSize);
    } else if f < pfn {
      AddrStep(f, pfn, pageSize);
    }
    if pfn < l {
      AddrStep(pfn, l, pageSize);
    } else if l < pfn {
      AddrStep(l, pfn, pageSize);
    }
    if l < f {
      AddrStep(l, f, pageSize);
    }
  }

  /** What a cursor on page `n` says about that page. */
  lemma StandsOn(blocks: seq<Block>, pageSize: nat, c: Cursor, n: nat)
    requires Stands(blocks, pageSize, c, n)
    ensures n < |Pages(blocks, pageSize)| && Pages(blocks, pageSize)[n] == PageIn(blocks[c.block], c.pfn, pageSize)
  {
    CatAt(PageLists(blocks, pageSize), c.block, c.pfn - First(blocks[c.block], pageSize));
  }

  lemma NextBlock(blocks: seq<Block>, pageSize: nat, c: Cursor, n: nat)
    requires Stands(blocks, pageSize, c, n) && c.pfn + 1 == Last(blocks[c.block], pageSize)
    ensures n + 1 == |Cat(PageLists(blocks, pageSize), c.block + 1)|
  {
  }

  /** The first page of a block. */
  method EnterBlock(blocks: seq<Block>, pageSize: nat, i: nat, ghost n: nat) returns (c: Cursor, host: nat)
    requires Paged(blocks, pageSize) && i < |blocks| && n == |Cat(PageLists(blocks, pageSize), i)|
    ensures Stands(blocks, pageSize, c, n) && n < |Pages(blocks, pageSize)|
    ensures Pages(blocks, pageSize)[n] == Page(c.pfn, host)
  {
    var b := blocks[i];
    var pfn := PaddrToPfn(b.start, pageSize);
    c, host := On(i, pfn), b.host;
    PageBounds(b, pageSize, pfn);
    StandsOn(blocks, pageSize, c, n);
  }

  /** Whether a page lies in a block, and where. */
  method Locate(b: Block, pageSize: nat, pfn: nat) returns (inside: bool, host: nat)
    requires pageSize > 0 && Boundary(b.start, pageSize) && Boundary(b.end, pageSize)
    ensures inside <==> InBlock(b, pfn, pageSize)
    ensures inside ==> Page(pfn, host) == PageIn(b, pfn, pageSize)
  {
    var addr := PfnToPaddr(pfn, pageSize);
    PageBounds(b, pageSize, pfn);
    inside := addr >= b.start && addr + pageSize <= b.end;
    host := if inside then b.host + (addr - b.start) else 0;
  }

  /** The next page of the same block, if there is one. */
  method StayInBlock(blocks: seq<Block>, pageSize: nat, c: Cursor, ghost n: nat)
    returns (stay: bool, c': Cursor, host: nat)
    requires Paged(blocks, pageSize) && Stands(blocks, pageSize, c, n)
    ensures !stay ==> c.pfn + 1 == Last(blocks[c.block], pageSize)
    ensures stay ==> Stands(blocks, pageSize, c', n + 1) && n + 1 < |Pages(blocks, pageSize)|
                     && Pages(blocks, pageSize)[n + 1] == Page(c'.pfn, host)
  {
    c' := On(c.block, c.pfn + 1);
    stay, host := Locate(blocks[c.block], pageSize, c'.pfn);
    if stay {
      StandsOn(blocks, pageSize, c', n + 1);
    }
  }

  /** get_next_page: from page n of the walk to page n + 1, or to the end behind the last one. */
  method GetNextPage(blocks: seq<Block>, pageSize: nat, c: Cursor, ghost n: int)
    returns (more: bool, c': Cursor, host: nat)
    requires Paged(blocks, pageSize) && |blocks| > 0
    requires if c.Start? then n == -1 else n >= 0 && Stands(blocks, pageSize, c, n)
    ensures (more <==> n + 1 < |Pages(blocks, pageSize)|) && (c.Start? ==> more)
    ensures more ==> Stands(blocks, pageSize, c', n + 1) && Pages(blocks, pageSize)[n + 1] == Page(c'.pfn, host)
  {
    if c.Start? {
      c', host := EnterBlock(blocks, pageSize, 0, 0);
      return true, c', host;
    }
    var stay;
    stay, c', host := StayInBlock(blocks, pageSize, c, n);
    if stay {
      return true, c', host;
    }
    NextBlock(blocks, pageSize, c, n);
    if c.block + 1 == |blocks| {
      return false, c, 0;
    }
    c', host := EnterBlock(blocks, pageSize, c.block + 1, n + 1);
    return true, c', host;
  }

  // What the walk visits.

  lemma {:induction false} PfnMonotone(a: nat, b: nat, pageSize: nat)
    requires a <= b
    ensures Pfn(a, pageSize) <= Pfn(b, pageSize)
  {
    if pageSize > 0 && a >= pageSize {
      PfnMonotone(a - pageSize, b - pageSize, pageSize);
    }
  }

  /** A frame number of guest memory. */
  ghost predicate IsGuestPage(blocks: seq<Block>, pageSize: nat, pfn: nat) {
    exists i: nat :: i < |blocks| && InBlock(blocks[i], pfn, pageSize)
  }

  /** Frame numbers strictly increase. */
  ghost predicate Increasing(ps: seq<Page>) {
    forall i, j | 0 <= i < j < |ps| :: ps[i].pfn < ps[j].pfn
  }

  /** The first `n` blocks give increasing frame numbers, all below the end of the last of them. */
  lemma {:induction false} PagesIncrease(blocks: seq<Block>, pageSize: nat, n: nat)
    requires Paged(blocks, pageSize) && n <= |blocks|
    ensures Increasing(Cat(PageLists(blocks, pageSize), n))
    ensures forall p | p in Cat(PageLists(blocks, pageSize), n) :: n > 0 && p.pfn < Last(blocks[n - 1], pageSize)
  {
    if n > 0 {
      PagesIncrease(blocks, pageSize, n - 1);
      var front, b := Cat(PageLists(blocks, pageSize), n - 1), blocks[n - 1];
      PageBounds(b, pageSize, 0);
      if n > 1 {
        PfnMonotone(blocks[n - 2].end, b.start, pageSize);
      }
      assert forall p | p in front :: p.pfn < First(b, pageSize);
      BlockIncreases(front, b, pageSize);
    }
  }

  lemma BlockIncreases(front: seq<Page>, b: Block, pageSize: nat)
    requires Increasing(front) && forall p | p in front :: p.pfn < First(b, pageSize)
    requires First(b, pageSize) < Last(b, pageSize)
    ensures Increasing(front + PagesOf(b, pageSize))
    ensures forall p | p in front + PagesOf(b, pageSize) :: p.pfn < Last(b, pageSize)
  {
    var all := front + PagesOf(b, pageSize);
    forall i | 0 <= i < |all| ensures all[i].pfn < Last(b, pageSize) &&
      (i >= |front| ==> all[i].pfn == First(b, pageSize) + (i - |front|)) {
      if i < |front| {
        assert front[i] in front;
      } else {
        PageAt(b, pageSize, i - |front|);
      }
    }
    forall i, j | 0 <= i < j < |all| ensures all[i].pfn < all[j].pfn {
      if i < |front| {
        assert front[i] in front;
      }
    }
  }

  /** The frame numbers of the first `k` pages. */
  ghost function Frames(ps: seq<Page>, k: nat): (s: set<nat>)
    requires k <= |ps|
  {
    set i | 0 <= i < k :: ps[i].pfn
  }

  /** The walk visits exactly the guest pages. */
  lemma {:induction false} WalkVisits(blocks: seq<Block>, pageSize: nat, pfn: nat)
    requires Paged(blocks, pageSize)
    ensures pfn in Frames(Pages(blocks, pageSize), |Pages(blocks, pageSize)|) <==> IsGuestPage(blocks, pageSize, pfn)
  {
    var ps := Pages(blocks, pageSize);
    if i: nat :| i < |blocks| && InBlock(blocks[i], pfn, pageSize) {
      var c := On(i, pfn);
      var n := |Cat(PageLists(blocks, pageSize), i)| + (pfn - First(blocks[i], pageSize));
      StandsOn(blocks, pageSize, c, n);
      assert ps[n].pfn in Frames(ps, |ps|);
    }
    if pfn in Frames(ps, |ps|) {
      var n :| 0 <= n < |ps| && ps[n].pfn == pfn;
      VisitedIsGuest(blocks, pageSize, |blocks|, n);
    }
  }

  lemma {:induction false} VisitedIsGuest(blocks: seq<Block>, pageSize: nat, n: nat, k: nat)
    requires Paged(blocks, pageSize) && n <= |blocks| && k < |Cat(PageLists(blocks, pageSize), n)|
    ensures IsGuestPage(blocks, pageSize, Cat(PageLists(blocks, pageSize), n)[k].pfn)
  {
    var front := Cat(PageLists(blocks, pageSize), n - 1);
    if k < |front| {
      VisitedIsGuest(blocks, pageSize, n - 1, k);
    } else {
      PageAt(blocks[n - 1], pageSize, k - |front|);
    }
  }

  /** The host memory of a visited page is the guest memory of its frame. */
  lemma PageMaps(blocks: seq<Block>, pageSize: nat, c: Cursor, n: nat, k: nat)
    requires Paged(blocks, pageSize) && Stands(blocks, pageSize, c, n) && k < pageSize
    ensures n < |Pages(blocks, pageSize)|
    ensures MapsTo(blocks, Addr(c.pfn, pageSize) + k, Pages(blocks, pageSize)[n].host + k)
  {
    StandsOn(blocks, pageSize, c, n);
    PageBounds(blocks[c.block], pageSize, c.pfn);
    assert HoldsAddr(blocks, c.block, Addr(c.pfn, pageSize) + k);
  }
}
