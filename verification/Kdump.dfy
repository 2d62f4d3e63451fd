/**
  A whole kdump (dump.c): headers and notes, two bitmaps, descriptors and page data, laid out by 32-bit
  arithmetic.  The layout is right exactly when everything in front of the page section ends below 4 GiB.
 */
module Kdump {
  import opened Words
  import opened Seals
  import opened Writes
  import opened GuestBlocks
  import opened Radix
  import opened Pieces
  import opened FlatFile
  import opened PageWalk
  import opened DumpBitmap
  import opened DumpPages

  function DivUp(n: nat, d: nat): nat
    requires d > 0
  {
    (n + d - 1) / d
  }

  lemma DivUpBounds(n: nat, d: nat)
    requires d > 0
    ensures DivUp(n, d) * d >= n && DivUp(n, d) * d < n + d
  {
    var x := n + d - 1;
    assert x == x / d * d + x % d;
  }

  lemma DivUpExact(l: nat, d: nat)
    requires d > 0
    ensures DivUp(l * d, d) == l
  {
    Quotient(l * d + d - 1, l, d);
  }

  // Layout.

  /** offset_dump_bitmap and offset_page. */
  datatype Layout = Layout(bitmap: nat, page: nat)

  /** sub_hdr_size, in blocks. */
  function SubHdrBlocks(ps: nat, n: nat): nat
    requires ps > 0
  {
    (n % U32 + ps - 1) % U32 / ps
  }

  /** `blocks * block_size` of 32-bit operands. */
  function Scale32(blocks: nat, ps: nat): nat {
    blocks % U32 * ps % U32
  }

  /** The layout create_header32 and create_header64 compute, in 32-bit unsigned arithmetic; the sub header has
      `sub` bytes, the notes have `note`, and each bitmap has `len`. */
  function LayoutOf(ps: nat, sub: nat, note: nat, len: nat): Layout
    requires ps > 0
  {
    var subHdr := SubHdrBlocks(ps, sub + note);
    var bitmapBlocks := DivUp(len, ps) * 2 % U32;
    Layout(Scale32(1 + subHdr, ps), Scale32(1 + subHdr + bitmapBlocks, ps))
  }

  /** The bitmaps start behind the notes and fill exactly the room up to the page section. */
  predicate LayoutOk(l: Layout, ps: nat, sub: nat, note: nat, len: nat) {
    ps + sub + note <= l.bitmap && l.page == l.bitmap + 2 * len
  }

  /** Where the page section belongs. */
  function PageSection(ps: nat, sub: nat, note: nat, len: nat): nat
    requires ps > 0
  {
    (1 + DivUp(sub + note, ps)) * ps + 2 * len
  }

  lemma Grows(a: nat, b: nat)
    requires b >= 1
    ensures a <= a * b
  {
    MulLe(1, b, a);
  }

  lemma Scale32Small(blocks: nat, ps: nat)
    requires ps >= 1 && blocks * ps < U32
    ensures Scale32(blocks, ps) == blocks * ps
  {
    Grows(blocks, ps);
  }

  lemma SubHdrSmall(ps: nat, n: nat)
    requires 1024 <= ps < U32 && n + ps < U32
    ensures SubHdrBlocks(ps, n) == DivUp(n, ps)
  {
  }

  lemma SmallLayout(ps: nat, sub: nat, note: nat, blocks: nat)
    requires 1024 <= ps < U32 && PageSection(ps, sub, note, blocks * ps) < U32
    ensures var l := LayoutOf(ps, sub, note, blocks * ps);
            LayoutOk(l, ps, sub, note, blocks * ps) && l.page == PageSection(ps, sub, note, blocks * ps)
  {
    var n, len := sub + note, blocks * ps;
    var q := DivUp(n, ps);
    DivUpBounds(n, ps);
    Distribute(1, q, ps);
    SubHdrSmall(ps, n);
    DivUpExact(blocks, ps);
    Grows(blocks, ps);
    SumScaled(q, blocks, ps);
    SmallScaled(ps, q, blocks);
  }

  lemma SmallScaled(ps: nat, q: nat, blocks: nat)
    requires 1 <= ps && (1 + q) * ps + 2 * (blocks * ps) < U32 && blocks <= blocks * ps
    ensures 2 * blocks % U32 == 2 * blocks
    ensures Scale32(1 + q, ps) == (1 + q) * ps && Scale32(1 + q + 2 * blocks, ps) == (1 + q) * ps + 2 * (blocks * ps)
  {
    SumScaled(q, blocks, ps);
    Scale32Small(1 + q, ps);
    Scale32Small(1 + q + 2 * blocks, ps);
  }

  lemma SumScaled(q: nat, blocks: nat, ps: nat)
    ensures (1 + q + 2 * blocks) * ps == (1 + q) * ps + 2 * (blocks * ps)
  {
    Distribute(1 + q, 2 * blocks, ps);
    Distribute(blocks, blocks, ps);
  }

  lemma NoWrap(t: nat, n: nat, ps: nat)
    requires ps < U32 && ps + n <= t % U32 && t < n + 2 * ps
    ensures t < U32
  {
  }

  lemma ScaledBound(blocks: nat, ps: nat)
    ensures Scale32(blocks, ps) < U32
  {
  }

  lemma RightBitmap(ps: nat, n: nat, q: nat)
    requires 1024 <= ps < U32 && n + ps < U32 && q * ps < n + ps && ps + n <= Scale32(1 + q, ps)
    ensures Scale32(1 + q, ps) == (1 + q) * ps
  {
    Distribute(1, q, ps);
    Grows(q, ps);
    if q < U32 - 1 {
      NoWrap((1 + q) * ps, n, ps);
    }
    Scale32Small(1 + q, ps);
  }

  /** Bitmaps that start behind the notes start at the right place. */
  lemma BitmapAt(ps: nat, n: nat, bitmap: nat)
    requires 1024 <= ps < U32 && bitmap == Scale32(1 + SubHdrBlocks(ps, n), ps) && ps + n <= bitmap
    ensures bitmap == (1 + DivUp(n, ps)) * ps
  {
    ScaledBound(1 + SubHdrBlocks(ps, n), ps);
    SubHdrSmall(ps, n);
    DivUpBounds(n, ps);
    RightBitmap(ps, n, DivUp(n, ps));
  }

  lemma PageBound(ps: nat, sub: nat, note: nat, len: nat)
    requires ps > 0
    ensures LayoutOf(ps, sub, note, len).page < U32
  {
    ScaledBound(1 + SubHdrBlocks(ps, sub + note) + DivUp(len, ps) * 2 % U32, ps);
  }

  lemma RightLayout(ps: nat, sub: nat, note: nat, len: nat)
    requires 1024 <= ps < U32 && LayoutOk(LayoutOf(ps, sub, note, len), ps, sub, note, len)
    ensures PageSection(ps, sub, note, len) < U32
  {
    PageBound(ps, sub, note, len);
    BitmapAt(ps, sub + note, LayoutOf(ps, sub, note, len).bitmap);
  }

  /** The layout is right exactly when the page section starts below 4 GiB; len_dump_bitmap is a whole number of
      blocks. */
  lemma LayoutExact(ps: nat, sub: nat, note: nat, blocks: nat)
    requires 1024 <= ps < U32
    ensures LayoutOk(LayoutOf(ps, sub, note, blocks * ps), ps, sub, note, blocks * ps)
            <==> PageSection(ps, sub, note, blocks * ps) < U32
  {
    if PageSection(ps, sub, note, blocks * ps) < U32 {
      SmallLayout(ps, sub, note, blocks);
    }
    if LayoutOk(LayoutOf(ps, sub, note, blocks * ps), ps, sub, note, blocks * ps) {
      RightLayout(ps, sub, note, blocks * ps);
    }
  }

  /** A guest of 64 TiB with 4 KiB pages: the page section would start on top of the first bitmap. */
  lemma LayoutWraps()
    ensures var l := LayoutOf(4096, 104, 4000, 0x8000_0000); l.page == l.bitmap == 12288
  {
  }

  // The size of the bitmaps and of the memory.

  /** The blocks of len_dump_bitmap, from max_mapnr. */
  function BitmapBlocks(maxMapnr: nat, ps: nat): nat
    requires ps > 0
  {
    DivUp(DivUp(maxMapnr, 8), ps)
  }

  /** A bitmap is as long as the buffers up to the last page. */
  lemma BitmapLength(maxMapnr: nat, ps: nat)
    requires ps > 0 && maxMapnr > 0
    ensures BitmapBlocks(maxMapnr, ps) * ps == Addr(Chunk(maxMapnr - 1, ps) + 1, ps)
  {
    var a, q := DivUp(maxMapnr, 8), BitmapBlocks(maxMapnr, ps);
    DivUpBounds(a, ps);
    assert q != 0;
    Distribute(q - 1, 1, ps);
    EightTimes(q - 1, ps);
    EightTimes(q, ps);
    Distribute(q - 1, 1, 8 * ps);
    Quotient(maxMapnr - 1, q - 1, 8 * ps);
    PfnIsQuotient(maxMapnr - 1, 8 * ps);
    AddrIsProduct(q, ps);
  }

  lemma EightTimes(q: nat, ps: nat)
    ensures q * (8 * ps) == 8 * (q * ps)
  {
  }

  /** The last page of the walk is the last page of the last block. */
  lemma LastPfn(blocks: seq<Block>, ps: nat)
    requires Paged(blocks, ps) && |blocks| > 0
    ensures |Pages(blocks, ps)| > 0
    ensures Pages(blocks, ps)[|Pages(blocks, ps)| - 1].pfn + 1 == Last(blocks[|blocks| - 1], ps)
  {
    var i := |blocks| - 1;
    PageBounds(blocks[i], ps, 0);
    LastOf(blocks, ps, i, First(blocks[i], ps), Last(blocks[i], ps));
  }

  lemma LastOf(blocks: seq<Block>, ps: nat, i: nat, f: nat, l: nat)
    requires i + 1 == |blocks| && f == First(blocks[i], ps) && l == Last(blocks[i], ps) && f < l
    ensures |Pages(blocks, ps)| > 0 && Pages(blocks, ps)[|Pages(blocks, ps)| - 1].pfn + 1 == l
  {
    var c := On(i, l - 1);
    var n := |Cat(PageLists(blocks, ps), i)| + (l - 1 - f);
    StandsOn(blocks, ps, c, n);
    NextBlock(blocks, ps, c, n);
  }

  /** dump_calculate_size without a filter. */
  ghost function TotalSize(blocks: seq<Block>, n: nat): nat
    requires n <= |blocks| && Sorted(blocks)
  {
    if n == 0 then 0 else TotalSize(blocks, n - 1) + (blocks[n - 1].end - blocks[n - 1].start)
  }

  lemma {:induction false} AddrSum(a: nat, b: nat, ps: nat)
    ensures Addr(a + b, ps) == Addr(a, ps) + Addr(b, ps)
  {
    if b > 0 {
      AddrSum(a, b - 1, ps);
    }
  }

  lemma BlockSize(b: Block, ps: nat)
    requires ps > 0 && Boundary(b.start, ps) && Boundary(b.end, ps) && b.start < b.end
    ensures Addr(|PagesOf(b, ps)|, ps) == b.end - b.start
  {
    var f, l := First(b, ps), Last(b, ps);
    PageBounds(b, ps, 0);
    AddrSum(f, l - f, ps);
  }

  /** The pages are as long as the blocks, and no longer than the address space up to their end. */
  lemma {:induction false} PagesSize(blocks: seq<Block>, ps: nat, n: nat)
    requires Paged(blocks, ps) && n <= |blocks|
    ensures Addr(|Cat(PageLists(blocks, ps), n)|, ps) == TotalSize(blocks, n)
    ensures TotalSize(blocks, n) <= (if n == 0 then 0 else blocks[n - 1].end)
  {
    if n > 0 {
      PagesSize(blocks, ps, n - 1);
      BlockSize(blocks[n - 1], ps);
      AddrSum(|Cat(PageLists(blocks, ps), n - 1)|, |PagesOf(blocks[n - 1], ps)|, ps);
      if n > 1 {
        assert blocks[n - 2].end <= blocks[n - 1].start;
      }
    }
  }

  lemma {:induction false} AddrLower(n: nat, ps: nat)
    requires ps >= 1024
    ensures 1024 * n <= Addr(n, ps)
  {
    if n > 0 {
      AddrLower(n - 1, ps);
    }
  }

  /** All offsets in the page section fit 64 bits. */
  lemma OffsetsFit(blocks: seq<Block>, ps: nat, at: nat)
    requires Paged(blocks, ps) && |blocks| > 0 && 1024 <= ps < U32 && at < U32
    ensures var n := |Pages(blocks, ps)|; at + 24 * n + Addr(n + 1, ps) < END_FLAG
  {
    PagesSize(blocks, ps, |blocks|);
    AddrLower(|Pages(blocks, ps)|, ps);
  }

  /** So do the bitmaps. */
  lemma BitmapsFit(blocks: seq<Block>, ps: nat, offset: nat)
    requires Paged(blocks, ps) && |blocks| > 0 && 1024 <= ps < U32 && offset < U32
    ensures offset + 2 * (BitmapBlocks(Last(blocks[|blocks| - 1], ps), ps) * ps) < END_FLAG
  {
    var end := blocks[|blocks| - 1].end;
    var pages := Pfn(end, ps);
    DivUpBounds(DivUp(pages, 8), ps);
    AddrLower(pages, ps);
  }

  /** The records of a dump that starts empty survive the flattened format. */
  lemma StreamReads(rs1: seq<Record>, rs2: seq<Record>, rs3: seq<Record>, b: nat, c: nat, d: nat, e: nat, hi: nat)
    requires Grown([], rs1, 0, hi) && Grown(rs1, rs2, b, c) && Grown(rs2, rs3, d, e)
    requires hi < END_FLAG && c < END_FLAG && e < END_FLAG
    ensures Parse(FlattenAll(rs3)) == rs3
  {
    forall r | r in rs3 ensures r.offset < END_FLAG && |r.data| < END_FLAG {
      var i :| 0 <= i < |rs3| && rs3[i] == r;
      if i < |rs1| {
        assert rs1[i] == r;
      } else if i < |rs2| {
        assert rs2[i] == r;
      }
    }
    FlattenRoundTrip(rs3);
  }

  ghost function PagesEnd(blocks: seq<Block>, ps: nat, at: nat): nat {
    at + 24 * |Pages(blocks, ps)| + Addr(|Pages(blocks, ps)| + 1, ps)
  }

  lemma DumpStream(rs1: seq<Record>, rs2: seq<Record>, rs3: seq<Record>, m: Bitmaps, blocks: seq<Block>, at: nat,
                   hi: nat)
    requires Paged(blocks, m.pageSize) && |blocks| > 0 && 1024 <= m.pageSize < U32 && m.offset < U32 && at < U32
    requires m.len == BitmapBlocks(Last(blocks[|blocks| - 1], m.pageSize), m.pageSize) * m.pageSize && hi < END_FLAG
    requires Grown([], rs1, 0, hi) && Grown(rs1, rs2, m.offset, m.offset + 2 * m.len)
    requires Grown(rs2, rs3, at, PagesEnd(blocks, m.pageSize, at))
    ensures Parse(FlattenAll(rs3)) == rs3
  {
    OffsetsFit(blocks, m.pageSize, at);
    BitmapsFit(blocks, m.pageSize, m.offset);
    StreamReads(rs1, rs2, rs3, m.offset, m.offset + 2 * m.len, at, PagesEnd(blocks, m.pageSize, at), hi);
  }

  // The whole dump.

  /** The writes of a dump: headers and notes, both bitmaps, the page section. */
  ghost function KdumpWrites(f: Format, mem: Memory, blocks: seq<Block>): nat {
    3 + BitmapWrites(blocks, f.pageSize) + SectionWrites(f, mem, Pages(blocks, f.pageSize))
  }

  /** The bitmaps of the guest take `n` writes: two for each buffer. */
  ghost predicate BitmapsTake(blocks: seq<Block>, pageSize: nat, n: nat) {
    forall b {:trigger Opened(Count, b)} :: Opened(Count, b) ==>
      n == 2 * LastBuffer(Pages(blocks, pageSize), pageSize) + 2
  }

  ghost function BitmapWrites(blocks: seq<Block>, pageSize: nat): (n: nat)
    ensures BitmapsTake(blocks, pageSize, n)
  {
    CountBitmaps(blocks, pageSize);
    var n: nat :| BitmapsTake(blocks, pageSize, n);
    n
  }

  lemma CountBitmaps(blocks: seq<Block>, pageSize: nat)
    ensures exists n: nat :: BitmapsTake(blocks, pageSize, n)
  {
    assert BitmapsTake(blocks, pageSize, 2 * LastBuffer(Pages(blocks, pageSize), pageSize) + 2);
  }

  /** At most two for a buffer of the bitmap, two for a page, and six. */
  lemma KdumpBound(f: Format, mem: Memory, blocks: seq<Block>)
    ensures var ps := Pages(blocks, f.pageSize);
            KdumpWrites(f, mem, blocks) <= 2 * (LastBuffer(ps, f.pageSize) + 1) + 2 * |ps| + 6
  {
    BitmapBound(blocks, f.pageSize, BitmapWrites(blocks, f.pageSize));
    SectionWritesBound(f, mem, Pages(blocks, f.pageSize));
  }

  lemma BitmapBound(blocks: seq<Block>, pageSize: nat, n: nat)
    requires BitmapsTake(blocks, pageSize, n)
    ensures n == 2 * LastBuffer(Pages(blocks, pageSize), pageSize) + 2
  {
    assert Opened(Count, true);
  }

  /** The bitmaps and the headers in front of them. */
  ghost predicate FrontInFile(rs: seq<Record>, m: Bitmaps, blocks: seq<Block>, header: seq<Byte>, sub: seq<Byte>,
                              notes: seq<Byte>) {
    var ps := m.pageSize;
    var guest := Stretch(Frames(Pages(blocks, ps), |Pages(blocks, ps)|), 0, m.len);
    && Holds(rs, 0, header) && Holds(rs, ps, sub) && Holds(rs, ps + |sub|, notes)
    && Holds(rs, m.offset, guest) && Holds(rs, m.offset + m.len, guest)
  }

  lemma HeadersHeld(rs: seq<Record>, ps: nat, header: seq<Byte>, sub: seq<Byte>, notes: seq<Byte>)
    requires |header| <= ps
    ensures var rs' := rs + [Record(0, header)] + [Record(ps, sub)] + [Record(ps + |sub|, notes)];
            && Holds(rs', 0, header) && Holds(rs', ps, sub) && Holds(rs', ps + |sub|, notes)
            && Grown(rs, rs', 0, ps + |sub| + |notes|)
  {
    var r1, r2, r3 := Record(0, header), Record(ps, sub), Record(ps + |sub|, notes);
    var rs1 := rs + [r1];
    var rs2 := rs1 + [r2];
    HoldsNew(rs, r1);
    HoldsKept(rs1, r2, 0, header);
    HoldsKept(rs2, r3, 0, header);
    HoldsNew(rs1, r2);
    HoldsKept(rs2, r3, ps, sub);
    HoldsNew(rs2, r3);
  }

  /** The writes of create_header32 and create_header64. */
  method WriteHeaders(file: DumpFile, ps: nat, header: seq<Byte>, sub: seq<Byte>, notes: seq<Byte>) returns (ok: bool)
    requires |header| <= ps
    modifies file
    ensures Spends(old(file.quota), file.quota, ok, 3)
    ensures ok ==> Holds(file.records, 0, header) && Holds(file.records, ps, sub)
    ensures ok ==> Holds(file.records, ps + |sub|, notes)
    ensures ok ==> Grown(old(file.records), file.records, 0, ps + |sub| + |notes|)
  {
    HeadersHeld(file.records, ps, header, sub, notes);
    ok := file.WriteBuffer(0, header);
    if !ok {
      return;
    }
    ok := file.WriteBuffer(ps, sub);
    if !ok {
      return;
    }
    ok := file.WriteBuffer(ps + |sub|, notes);
  }

  /** Bitmaps behind the headers leave them alone. */
  lemma FrontWritten(rs: seq<Record>, rs': seq<Record>, m: Bitmaps, blocks: seq<Block>, header: seq<Byte>,
                     sub: seq<Byte>, notes: seq<Byte>)
    requires Holds(rs, 0, header) && Holds(rs, m.pageSize, sub) && Holds(rs, m.pageSize + |sub|, notes)
    requires |header| <= m.pageSize && m.pageSize + |sub| + |notes| <= m.offset
    requires Grown(rs, rs', m.offset, m.offset + 2 * m.len)
    requires var guest := Stretch(Frames(Pages(blocks, m.pageSize), |Pages(blocks, m.pageSize)|), 0, m.len);
             Holds(rs', m.offset, guest) && Holds(rs', m.offset + m.len, guest)
    ensures FrontInFile(rs', m, blocks, header, sub, notes)
  {
    HoldsGrown(rs, rs', m.offset, m.offset + 2 * m.len, 0, header);
    HoldsGrown(rs, rs', m.offset, m.offset + 2 * m.len, m.pageSize, sub);
    HoldsGrown(rs, rs', m.offset, m.offset + 2 * m.len, m.pageSize + |sub|, notes);
  }

  /** A page section behind the bitmaps leaves everything in front alone. */
  lemma FrontKept(rs: seq<Record>, rs': seq<Record>, m: Bitmaps, blocks: seq<Block>, header: seq<Byte>,
                  sub: seq<Byte>, notes: seq<Byte>, hi: nat)
    requires FrontInFile(rs, m, blocks, header, sub, notes) && Grown(rs, rs', m.offset + 2 * m.len, hi)
    requires |header| <= m.pageSize && m.pageSize + |sub| + |notes| <= m.offset
    ensures FrontInFile(rs', m, blocks, header, sub, notes)
  {
    var lo := m.offset + 2 * m.len;
    var guest := Stretch(Frames(Pages(blocks, m.pageSize), |Pages(blocks, m.pageSize)|), 0, m.len);
    HoldsGrown(rs, rs', lo, hi, 0, header);
    HoldsGrown(rs, rs', lo, hi, m.pageSize, sub);
    HoldsGrown(rs, rs', lo, hi, m.pageSize + |sub|, notes);
    HoldsGrown(rs, rs', lo, hi, m.offset, guest);
    HoldsGrown(rs, rs', lo, hi, m.offset + m.len, guest);
  }

  /** The bitmap part of dump_init and of create_kdump_vmcore. */
  method WriteBitmaps(file: DumpFile, m: Bitmaps, blocks: seq<Block>, ghost maxMapnr: nat)
    returns (ok: bool, numDumpable: nat)
    requires Paged(blocks, m.pageSize) && |blocks| > 0
    requires maxMapnr == Last(blocks[|blocks| - 1], m.pageSize)
    requires m.len == BitmapBlocks(maxMapnr, m.pageSize) * m.pageSize
    modifies file
    ensures Spends(old(file.quota), file.quota, ok, BitmapWrites(blocks, m.pageSize))
    ensures ok ==> numDumpable == |Pages(blocks, m.pageSize)|
    ensures ok ==> var guest := Stretch(Frames(Pages(blocks, m.pageSize), |Pages(blocks, m.pageSize)|), 0, m.len);
                   Holds(file.records, m.offset, guest) && Holds(file.records, m.offset + m.len, guest)
    ensures ok ==> Grown(old(file.records), file.records, m.offset, m.offset + 2 * m.len)
  {
    BitmapBound(blocks, m.pageSize, BitmapWrites(blocks, m.pageSize));
    LastPfn(blocks, m.pageSize);
    BitmapLength(maxMapnr, m.pageSize);
    ok, numDumpable := WriteDumpBitmap(file, m, blocks);
  }

  /** The file after the headers (rs1), the bitmaps (rs2) and the pages (rs3). */
  ghost predicate Dumped(rs1: seq<Record>, rs2: seq<Record>, rs3: seq<Record>, f: Format, mem: Memory,
                         blocks: seq<Block>,
                         header: seq<Byte>, sub: seq<Byte>, notes: seq<Byte>, m: Bitmaps, at: nat) {
    var ps := Pages(blocks, m.pageSize);
    var guest := Stretch(Frames(ps, |ps|), 0, m.len);
    forall b {:trigger Opened(Dump, b)} :: Opened(Dump, b) ==>
      && Holds(rs1, 0, header) && Holds(rs1, m.pageSize, sub) && Holds(rs1, m.pageSize + |sub|, notes)
      && Grown(rs1, rs2, m.offset, m.offset + 2 * m.len)
      && Holds(rs2, m.offset, guest) && Holds(rs2, m.offset + m.len, guest)
      && Grown(rs2, rs3, at, PagesEnd(blocks, m.pageSize, at))
      && InFile(rs3, f, at, at + 24 * |ps|, Contents(mem, ps, m.pageSize))
  }

  /** The writes of create_kdump_vmcore, with the bitmaps and the page section anywhere. */
  method WriteDump(file: DumpFile, f: Format, mem: Memory, blocks: seq<Block>, header: seq<Byte>, sub: seq<Byte>,
                   notes: seq<Byte>, m: Bitmaps, at: nat, ghost maxMapnr: nat)
    returns (ok: bool, written: nat, ghost rs1: seq<Record>, ghost rs2: seq<Record>)
    requires FormatOk(f) && Paged(blocks, f.pageSize) && |blocks| > 0 && |header| <= f.pageSize
    requires m.pageSize == f.pageSize && maxMapnr == Last(blocks[|blocks| - 1], f.pageSize)
    requires m.len == BitmapBlocks(maxMapnr, f.pageSize) * f.pageSize
    modifies file
    ensures Spends(old(file.quota), file.quota, ok, KdumpWrites(f, mem, blocks))
    ensures ok ==> Grown(old(file.records), rs1, 0, f.pageSize + |sub| + |notes|)
    ensures ok ==> Dumped(rs1, rs2, file.records, f, mem, blocks, header, sub, notes, m, at)
    ensures ok ==> written == Addr(|Pages(blocks, f.pageSize)|, f.pageSize)
  {
    written, rs1, rs2 := 0, [], [];
    ok := WriteHeaders(file, f.pageSize, header, sub, notes);
    if !ok {
      return;
    }
    rs1 := file.records;
    var numDumpable;
    ok, numDumpable := WriteBitmaps(file, m, blocks, maxMapnr);
    if !ok {
      return;
    }
    rs2 := file.records;
    ok, written := WriteDumpPages(file, f, mem, blocks, at, numDumpable);
  }

  lemma DumpedPages(rs1: seq<Record>, rs2: seq<Record>, rs3: seq<Record>, f: Format, mem: Memory, blocks: seq<Block>,
                    header: seq<Byte>, sub: seq<Byte>, notes: seq<Byte>, m: Bitmaps, at: nat)
    requires Dumped(rs1, rs2, rs3, f, mem, blocks, header, sub, notes, m, at) && m.pageSize == f.pageSize
    requires FormatOk(f) && Paged(blocks, f.pageSize) && |blocks| > 0 && at < U32
    ensures forall k: nat | k < |Pages(blocks, f.pageSize)| :: PageReadable(rs3, f, mem, blocks, at, k)
    ensures Addr(|Pages(blocks, f.pageSize)|, f.pageSize) == TotalSize(blocks, |blocks|)
  {
    assert Opened(Dump, true);
    PagesSize(blocks, f.pageSize, |blocks|);
    PagesReadable(rs3, f, mem, blocks, at);
  }

  lemma DumpedStream(rs1: seq<Record>, rs2: seq<Record>, rs3: seq<Record>, f: Format, mem: Memory, blocks: seq<Block>,
                     header: seq<Byte>, sub: seq<Byte>, notes: seq<Byte>, m: Bitmaps, at: nat)
    requires Dumped(rs1, rs2, rs3, f, mem, blocks, header, sub, notes, m, at) && m.pageSize == f.pageSize
    requires FormatOk(f) && Paged(blocks, f.pageSize) && |blocks| > 0 && m.offset < U32 && at < U32
    requires m.len == BitmapBlocks(Last(blocks[|blocks| - 1], f.pageSize), f.pageSize) * f.pageSize
    requires Grown([], rs1, 0, f.pageSize + |sub| + |notes|) && |sub| + |notes| < U32
    ensures Parse(FlattenAll(rs3)) == rs3
  {
    assert Opened(Dump, true);
    DumpStream(rs1, rs2, rs3, m, blocks, at, f.pageSize + |sub| + |notes|);
  }

  lemma DumpedFront(rs1: seq<Record>, rs2: seq<Record>, rs3: seq<Record>, f: Format, mem: Memory, blocks: seq<Block>,
                    header: seq<Byte>, sub: seq<Byte>, notes: seq<Byte>, m: Bitmaps, at: nat)
    requires Dumped(rs1, rs2, rs3, f, mem, blocks, header, sub, notes, m, at) && |header| <= m.pageSize
    requires LayoutOk(Layout(m.offset, at), m.pageSize, |sub|, |notes|, m.len)
    ensures FrontInFile(rs3, m, blocks, header, sub, notes)
  {
    assert Opened(Dump, true);
    FrontWritten(rs1, rs2, m, blocks, header, sub, notes);
    FrontKept(rs2, rs3, m, blocks, header, sub, notes, PagesEnd(blocks, m.pageSize, at));
  }

  /** create_kdump_vmcore.  It finishes exactly when the file takes its writes.  Then every page reads back; and
      everything in front of the page section is in place when the 32-bit layout arithmetic does not wrap (LayoutExact
      says exactly when that is). */
  method CreateKdump(file: DumpFile, f: Format, mem: Memory, blocks: seq<Block>, header: seq<Byte>, sub: seq<Byte>,
                     notes: seq<Byte>)
    returns (ok: bool, ghost m: Bitmaps, ghost at: nat, written: nat)
    requires FormatOk(f) && Paged(blocks, f.pageSize) && |blocks| > 0 && |header| <= f.pageSize
    modifies file
    ensures Spends(old(file.quota), file.quota, ok, KdumpWrites(f, mem, blocks))
    ensures ok ==> forall k: nat | k < |Pages(blocks, f.pageSize)| :: PageReadable(file.records, f, mem, blocks, at, k)
    ensures ok ==> written == TotalSize(blocks, |blocks|)
    ensures m.pageSize == f.pageSize
    ensures m.len == BitmapBlocks(Last(blocks[|blocks| - 1], f.pageSize), f.pageSize) * f.pageSize
    ensures Layout(m.offset, at) == LayoutOf(f.pageSize, |sub|, |notes|, m.len)
    ensures ok && old(file.records) == [] && |sub| + |notes| < U32 ==> Parse(FlattenAll(file.records)) == file.records
    ensures ok && PageSection(f.pageSize, |sub|, |notes|, m.len) < U32 ==>
              && LayoutOk(Layout(m.offset, at), f.pageSize, |sub|, |notes|, m.len)
              && FrontInFile(file.records, m, blocks, header, sub, notes)
  {
    var ps := f.pageSize;
    var maxMapnr := PaddrToPfn(blocks[|blocks| - 1].end, ps);
    var len := BitmapBlocks(maxMapnr, ps) * ps;
    var l := LayoutOf(ps, |sub|, |notes|, len);
    var bm := Bitmaps(l.bitmap, len, ps);
    m, at := bm, l.page;
    LayoutExact(ps, |sub|, |notes|, BitmapBlocks(maxMapnr, ps));
    ghost var rs1, rs2;
    ok, written, rs1, rs2 := WriteDump(file, f, mem, blocks, header, sub, notes, bm, l.page, maxMapnr);
    if ok {
      DumpedPages(rs1, rs2, file.records, f, mem, blocks, header, sub, notes, m, at);
      if old(file.records) == [] && |sub| + |notes| < U32 {
        DumpedStream(rs1, rs2, file.records, f, mem, blocks, header, sub, notes, m, at);
      }
      if LayoutOk(l, ps, |sub|, |notes|, len) {
        DumpedFront(rs1, rs2, file.records, f, mem, blocks, header, sub, notes, m, at);
      }
    }
  }

  /** A reader that knows only the byte order finds this page behind descriptor `k`. */
  ghost predicate Stored(file: map<nat, Byte>, big: bool, inflate: seq<Byte> -> seq<Byte>, at: nat, k: nat,
                         page: seq<Byte>) {
    var d := DecodeDesc(Fetch(file, at + 24 * k, DESC_SIZE), big);
    var bytes := Fetch(file, d.offset, d.size);
    page == if d.flags == 0 then bytes else inflate(bytes)
  }

  /** A dump with the descriptors of dump.c in the byte order of the guest, and any compressor with an inverse: the
      stream of bytes it is flattened to parses back to a file in which every guest page is found. */
  method DumpGuest(file: DumpFile, pageSize: nat, big: bool, flag: nat, compress: seq<Byte> -> Compressed,
                   inflate: seq<Byte> -> seq<Byte>, mem: Memory, blocks: seq<Block>, header: seq<Byte>,
                   sub: seq<Byte>, notes: seq<Byte>)
    returns (ok: bool, ghost at: nat, written: nat)
    requires 1024 <= pageSize < U32 && flag in {1, 2, 4}
    requires forall s :: compress(s).Compressed? ==> inflate(compress(s).bytes) == s
    requires Paged(blocks, pageSize) && |blocks| > 0 && |header| <= pageSize && |sub| + |notes| < U32
    requires file.records == []
    modifies file
    ensures Spends(old(file.quota), file.quota, ok,
                   KdumpWrites(KdumpFormat(pageSize, big, flag, compress, inflate), mem, blocks))
    ensures ok ==> var ps := Pages(blocks, pageSize);
                   forall k: nat | k < |ps| ::
                     Stored(Replay(Parse(FlattenAll(file.records))), big, inflate, at, k,
                       Bytes(mem, ps[k].host, pageSize))
    ensures ok ==> written == TotalSize(blocks, |blocks|)
  {
    var f := KdumpFormat(pageSize, big, flag, compress, inflate);
    KdumpFormatOk(pageSize, big, flag, compress, inflate);
    ghost var m;
    ok, m, at, written := CreateKdump(file, f, mem, blocks, header, sub, notes);
    if ok {
      ghost var ps := Pages(blocks, pageSize);
      forall k: nat | k < |ps|
        ensures Stored(Replay(Parse(FlattenAll(file.records))), big, inflate, at, k, Bytes(mem, ps[k].host, pageSize))
      {
        assert PageReadable(file.records, f, mem, blocks, at, k);
      }
    }
  }

  /** The k-th descriptor selects the k-th guest page, with its data behind all descriptors. */
  ghost predicate PageReadable(rs: seq<Record>, f: Format, mem: Memory, blocks: seq<Block>, at: nat, k: nat)
    requires k < |Pages(blocks, f.pageSize)|
  {
    var ps := Pages(blocks, f.pageSize);
    && ReadPage(Replay(rs), f, at + 24 * k) == Bytes(mem, ps[k].host, f.pageSize)
    && at + 24 * |ps| <= ReadDesc(Replay(rs), f, at + 24 * k).offset
  }

  lemma PagesReadable(rs: seq<Record>, f: Format, mem: Memory, blocks: seq<Block>, at: nat)
    requires FormatOk(f) && Paged(blocks, f.pageSize) && |blocks| > 0 && at < U32
    requires InFile(rs, f, at, at + 24 * |Pages(blocks, f.pageSize)|,
               Contents(mem, Pages(blocks, f.pageSize), f.pageSize))
    ensures forall k: nat | k < |Pages(blocks, f.pageSize)| :: PageReadable(rs, f, mem, blocks, at, k)
  {
    var ps := Pages(blocks, f.pageSize);
    OffsetsFit(blocks, f.pageSize, at);
    forall k: nat | k < |ps| ensures PageReadable(rs, f, mem, blocks, at, k) {
      DescSelects(rs, f, at, at + 24 * |ps|, Contents(mem, ps, f.pageSize), k);
    }
  }
}
