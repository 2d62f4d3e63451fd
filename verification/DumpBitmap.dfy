/**
  The two dump bitmaps of a kdump (dump.c): guest pages set bits in a page-sized buffer that is written
  out, to both copies, whenever the walk leaves the stretch it covers.
 */
module DumpBitmap {
  import opened Words
  import opened Writes
  import opened GuestBlocks
  import opened FlatFile
  import opened PageWalk

  // Bits of bytes.

  predicate BitOf(b: nat, k: nat) {
    if k == 0 then b % 2 == 1 else BitOf(b / 2, k - 1)
  }

  /** `b | 1 << k`. */
  function SetBit(b: nat, k: nat): nat {
    if k == 0 then b / 2 * 2 + 1 else b % 2 + 2 * SetBit(b / 2, k - 1)
  }

  /** `b & ~(1 << k)`. */
  function ClearBit(b: nat, k: nat): nat {
    if k == 0 then b / 2 * 2 else b % 2 + 2 * ClearBit(b / 2, k - 1)
  }

  lemma {:induction false} SetBitLimit(b: nat, k: nat, n: nat)
    requires k < n && b < Pow2(n)
    ensures SetBit(b, k) < Pow2(n) && ClearBit(b, k) < Pow2(n)
  {
    var half, one := b / 2, b % 2;
    assert b == 2 * half + one && Pow2(n) == 2 * Pow2(n - 1);
    if k > 0 {
      SetBitLimit(half, k - 1, n - 1);
      assert SetBit(b, k) == one + 2 * SetBit(half, k - 1) && ClearBit(b, k) == one + 2 * ClearBit(half, k - 1);
    }
  }

  lemma {:induction false} ClearUnset(b: nat, k: nat)
    requires !BitOf(b, k)
    ensures ClearBit(b, k) == b
  {
    if k > 0 {
      ClearUnset(b / 2, k - 1);
    }
  }

  /** The number with these bits, least significant first. */
  function Join(bits: seq<bool>): nat {
    if bits == [] then 0 else (if bits[0] then 1 else 0) + 2 * Join(bits[1..])
  }

  lemma {:induction false} JoinLimit(bits: seq<bool>)
    ensures Join(bits) < Pow2(|bits|)
  {
    if bits != [] {
      JoinLimit(bits[1..]);
    }
  }

  lemma {:induction false} JoinBit(bits: seq<bool>, k: nat)
    requires k < |bits|
    ensures BitOf(Join(bits), k) <==> bits[k]
  {
    Halves(if bits[0] then 1 else 0, Join(bits[1..]));
    if k > 0 {
      JoinBit(bits[1..], k - 1);
    }
  }

  lemma Halves(one: nat, rest: nat)
    requires one <= 1
    ensures (one + 2 * rest) / 2 == rest && (one + 2 * rest) % 2 == one
  {
  }

  lemma {:induction false} JoinSet(bits: seq<bool>, k: nat)
    requires k < |bits|
    ensures Join(bits[k := true]) == SetBit(Join(bits), k)
  {
    var more, rest, one := bits[k := true], bits[1..], if bits[0] then 1 else 0;
    Halves(one, Join(rest));
    if k == 0 {
      assert more[1..] == rest;
    } else {
      assert more[1..] == rest[k - 1 := true] && more[0] == bits[0];
      JoinSet(rest, k - 1);
    }
  }

  lemma Limit8()
    ensures Pow2(8) == 256
  {
    assert Pow2(4) == 16;
  }

  /** The bits of byte `y` of the bitmap of a set of pages. */
  function Bits(pages: set<nat>, y: nat): (bits: seq<bool>)
    ensures |bits| == 8 && forall k | 0 <= k < 8 :: bits[k] <==> 8 * y + k in pages
  {
    seq(8, k requires 0 <= k => 8 * y + k in pages)
  }

  /** Byte `y` of the bitmap of a set of pages. */
  function Pack(pages: set<nat>, y: nat): Byte {
    Limit8();
    JoinLimit(Bits(pages, y));
    Join(Bits(pages, y))
  }

  /** Bit k of byte y is page 8y + k. */
  lemma PackBit(pages: set<nat>, y: nat, k: nat)
    requires k < 8
    ensures BitOf(Pack(pages, y), k) <==> 8 * y + k in pages
  {
    JoinBit(Bits(pages, y), k);
  }

  /** Adding page p sets its bit. */
  lemma PackSet(pages: set<nat>, y: nat, k: nat, p: nat)
    requires k < 8 && p == 8 * y + k
    ensures Pack(pages + {p}, y) == SetBit(Pack(pages, y), k)
  {
    JoinSet(Bits(pages, y), k);
    assert Bits(pages + {p}, y) == Bits(pages, y)[k := true];
  }

  lemma PackOther(pages: set<nat>, y: nat, p: nat)
    requires p / 8 != y
    ensures Pack(pages + {p}, y) == Pack(pages, y)
  {
    assert Bits(pages + {p}, y) == Bits(pages, y);
  }

  /** Bytes [from, from + n) of the bitmap of a set of pages. */
  ghost function Stretch(pages: set<nat>, from: nat, n: nat): (s: seq<Byte>)
    ensures |s| == n && forall y | 0 <= y < n :: s[y] == Pack(pages, from + y)
  {
    seq<Byte>(n, y requires 0 <= y => Pack(pages, from + y))
  }

  lemma StretchConcat(pages: set<nat>, a: nat, n: nat)
    ensures Stretch(pages, 0, a) + Stretch(pages, a, n) == Stretch(pages, 0, a + n)
  {
  }

  lemma {:induction false} JoinZero(bits: seq<bool>)
    requires forall k | 0 <= k < |bits| :: !bits[k]
    ensures Join(bits) == 0
  {
    if bits != [] {
      JoinZero(bits[1..]);
    }
  }

  /** Behind the last page the bitmap is zero. */
  lemma StretchZero(pages: set<nat>, from: nat, n: nat)
    requires forall p | p in pages :: p < 8 * from
    ensures forall y | 0 <= y < n :: Stretch(pages, from, n)[y] == 0
  {
    forall y | 0 <= y < n ensures Stretch(pages, from, n)[y] == 0 {
      JoinZero(Bits(pages, from + y));
    }
  }

  // The buffered writer.  A buffer of one page covers 8 * pageSize frames; buffer `c` starts at byte Addr(c, pageSize).

  /** The buffer that covers a frame. */
  ghost function Chunk(p: nat, pageSize: nat): nat {
    Pfn(p, 8 * pageSize)
  }

  /** offset_dump_bitmap, len_dump_bitmap and the buffer size. */
  datatype Bitmaps = Bitmaps(offset: nat, len: nat, pageSize: nat)

  /** Both copies hold the bitmap of the pages up to buffer `c`, and the buffer holds the stretch of `c`. */
  ghost predicate Written(rs: seq<Record>, m: Bitmaps, pages: set<nat>, c: nat, buf: seq<Byte>) {
    && buf == Stretch(pages, Addr(c, m.pageSize), m.pageSize)
    && Holds(rs, m.offset, Stretch(pages, 0, Addr(c, m.pageSize)))
    && Holds(rs, m.offset + m.len, Stretch(pages, 0, Addr(c, m.pageSize)))
  }

  lemma {:induction false} AddrTimes8(c: nat, pageSize: nat)
    ensures Addr(c, 8 * pageSize) == 8 * Addr(c, pageSize)
  {
    if c > 0 {
      AddrTimes8(c - 1, pageSize);
    }
  }

  lemma {:induction false} PfnBounds(x: nat, d: nat)
    requires d > 0
    ensures Addr(Pfn(x, d), d) <= x < Addr(Pfn(x, d) + 1, d)
  {
    if x >= d {
      PfnBounds(x - d, d);
    }
  }

  lemma ChunkBounds(p: nat, pageSize: nat)
    requires pageSize > 0
    ensures 8 * Addr(Chunk(p, pageSize), pageSize) <= p < 8 * Addr(Chunk(p, pageSize) + 1, pageSize)
  {
    PfnBounds(p, 8 * pageSize);
    AddrTimes8(Chunk(p, pageSize), pageSize);
    AddrTimes8(Chunk(p, pageSize) + 1, pageSize);
  }

  lemma {:induction false} AddrMonotone(a: nat, b: nat, pageSize: nat)
    requires a <= b
    ensures Addr(a, pageSize) <= Addr(b, pageSize)
  {
    if a < b {
      AddrStep(a, b, pageSize);
    }
  }

  /** The file after a buffer went to both copies. */
  ghost function Flushed(rs: seq<Record>, m: Bitmaps, c: nat, buf: seq<Byte>): seq<Record> {
    rs + [Record(m.offset + Addr(c, m.pageSize), buf)] + [Record(m.offset + m.len + Addr(c, m.pageSize), buf)]
  }

  lemma CopyFlushed(rs: seq<Record>, at: nat, m: Bitmaps, pages: set<nat>, c: nat, buf: seq<Byte>)
    requires buf == Stretch(pages, Addr(c, m.pageSize), m.pageSize)
    requires Holds(rs, at, Stretch(pages, 0, Addr(c, m.pageSize)))
    ensures Holds(rs + [Record(at + Addr(c, m.pageSize), buf)], at, Stretch(pages, 0, Addr(c + 1, m.pageSize)))
  {
    var a := Addr(c, m.pageSize);
    var r, front := Record(at + a, buf), Stretch(pages, 0, a);
    HoldsKept(rs, r, at, front);
    HoldsNew(rs, r);
    HoldsConcat(rs + [r], at, front, buf);
    StretchConcat(pages, a, m.pageSize);
  }

  /** Flushing buffer `c` completes its stretch in both copies and leaves a cleared buffer for the next one. */
  lemma FlushStep(rs: seq<Record>, m: Bitmaps, pages: set<nat>, c: nat, buf: seq<Byte>, zero: seq<Byte>)
    requires Written(rs, m, pages, c, buf) && Addr(c + 1, m.pageSize) <= m.len
    requires forall p | p in pages :: p < 8 * Addr(c + 1, m.pageSize)
    requires |zero| == m.pageSize && forall y | 0 <= y < |zero| :: zero[y] == 0
    ensures Written(Flushed(rs, m, c, buf), m, pages, c + 1, zero)
  {
    var a := Addr(c, m.pageSize);
    var r1, r2 := Record(m.offset + a, buf), Record(m.offset + m.len + a, buf);
    CopyFlushed(rs, m.offset, m, pages, c, buf);
    HoldsKept(rs, r1, m.offset + m.len, Stretch(pages, 0, a));
    CopyFlushed(rs + [r1], m.offset + m.len, m, pages, c, buf);
    HoldsKept(rs + [r1], r2, m.offset, Stretch(pages, 0, Addr(c + 1, m.pageSize)));
    StretchZero(pages, Addr(c + 1, m.pageSize), m.pageSize);
  }

  /** Setting the bit of a page of buffer `c`. */
  lemma SetStep(rs: seq<Record>, m: Bitmaps, pages: set<nat>, c: nat, buf: seq<Byte>, p: nat, byte: nat, bit: nat)
    requires Written(rs, m, pages, c, buf) && byte < m.pageSize && bit < 8
    requires p == 8 * (Addr(c, m.pageSize) + byte) + bit
    ensures SetBit(buf[byte], bit) < 256 && Written(rs, m, pages + {p}, c, buf[byte := SetBit(buf[byte], bit)])
  {
    var a, more := Addr(c, m.pageSize), pages + {p};
    PackSet(pages, a + byte, bit, p);
    forall y: nat | y != a + byte ensures Pack(more, y) == Pack(pages, y) {
      PackOther(pages, y, p);
    }
    assert buf[byte := SetBit(buf[byte], bit)] == Stretch(more, a, m.pageSize);
    assert Stretch(more, 0, a) == Stretch(pages, 0, a);
  }

  /** Clearing a bit that is not set. */
  lemma ClearStep(rs: seq<Record>, m: Bitmaps, pages: set<nat>, c: nat, buf: seq<Byte>, p: nat, byte: nat, bit: nat)
    requires Written(rs, m, pages, c, buf) && byte < m.pageSize && bit < 8 && p !in pages
    requires p == 8 * (Addr(c, m.pageSize) + byte) + bit
    ensures ClearBit(buf[byte], bit) == buf[byte]
  {
    PackBit(pages, Addr(c, m.pageSize) + byte, bit);
    ClearUnset(buf[byte], bit);
  }

  /** `bufsize * (p / bits_per_buf)`. */
  method ChunkOffset(p: nat, pageSize: nat) returns (offset: nat)
    requires pageSize > 0
    ensures offset == Addr(Chunk(p, pageSize), pageSize)
  {
    var c := PaddrToPfn(p, 8 * pageSize);
    offset := PfnToPaddr(c, pageSize);
  }

  /** The byte and the bit of a frame in its buffer. */
  method BitPosition(p: nat, pageSize: nat) returns (byte: nat, bit: nat)
    requires pageSize > 0
    ensures byte < pageSize && bit < 8 && p == 8 * (Addr(Chunk(p, pageSize), pageSize) + byte) + bit
  {
    var c := PaddrToPfn(p, 8 * pageSize);
    var start := PfnToPaddr(c, 8 * pageSize);
    ChunkBounds(p, pageSize);
    AddrTimes8(c, pageSize);
    byte, bit := (p - start) / 8, (p - start) % 8;
  }

  /** memset to 0. */
  method Clear(buf: array<Byte>)
    modifies buf
    ensures forall y | 0 <= y < buf.Length :: buf[y] == 0
  {
    forall y | 0 <= y < buf.Length {
      buf[y] := 0;
    }
  }

  /** Both write_buffer calls for one buffer. */
  method WriteBoth(file: DumpFile, m: Bitmaps, ghost c: nat, pos: nat, data: seq<Byte>) returns (ok: bool)
    requires pos == Addr(c, m.pageSize)
    modifies file
    ensures Spends(old(file.quota), file.quota, ok, 2)
    ensures ok ==> file.records == Flushed(old(file.records), m, c, data)
  {
    ok := file.WriteBuffer(m.offset + pos, data);
    if !ok {
      return;
    }
    ok := file.WriteBuffer(m.offset + m.len + pos, data);
  }

  /** The body of the flush loop of set_dump_bitmap. */
  method FlushOne(file: DumpFile, m: Bitmaps, buf: array<Byte>, ghost c: nat, pos: nat, ghost pages: set<nat>)
    returns (ok: bool)
    requires m.pageSize > 0 && buf.Length == m.pageSize && pos == Addr(c, m.pageSize)
    requires Addr(c + 1, m.pageSize) <= m.len
    requires Written(file.records, m, pages, c, buf[..]) && forall p | p in pages :: p < 8 * Addr(c + 1, m.pageSize)
    modifies file, buf
    ensures Spends(old(file.quota), file.quota, ok, 2)
    ensures ok ==> Written(file.records, m, pages, c + 1, buf[..])
    ensures ok ==> Grown(old(file.records), file.records, m.offset, m.offset + 2 * m.len)
  {
    ghost var image, full := file.records, buf[..];
    ok := WriteBoth(file, m, c, pos, buf[..]);
    if !ok {
      return;
    }
    Clear(buf);
    FlushStep(image, m, pages, c, full, buf[..]);
  }

  /** The buffers between two frames. */
  ghost function Buffers(last: nat, pfn: nat, pageSize: nat): nat
    requires last <= pfn
  {
    PfnMonotone(last, pfn, 8 * pageSize);
    Chunk(pfn, pageSize) - Chunk(last, pageSize)
  }

  /** The buffer of the last page. */
  ghost function LastBuffer(ps: seq<Page>, pageSize: nat): nat {
    if ps == [] then 0 else Chunk(ps[|ps| - 1].pfn, pageSize)
  }

  /** The flush loop of set_dump_bitmap, from the buffer of `last` to that of `pfn`. */
  method FlushTo(file: DumpFile, m: Bitmaps, buf: array<Byte>, last: nat, pfn: nat, ghost pages: set<nat>)
    returns (ok: bool)
    requires m.pageSize > 0 && buf.Length == m.pageSize && last <= pfn
    requires Written(file.records, m, pages, Chunk(last, m.pageSize), buf[..])
    requires (forall p | p in pages :: p <= last) && Addr(Chunk(pfn, m.pageSize), m.pageSize) <= m.len
    modifies file, buf
    ensures Spends(old(file.quota), file.quota, ok, 2 * Buffers(last, pfn, m.pageSize))
    ensures ok ==> Written(file.records, m, pages, Chunk(pfn, m.pageSize), buf[..])
    ensures ok ==> Grown(old(file.records), file.records, m.offset, m.offset + 2 * m.len)
  {
    var pos := ChunkOffset(last, m.pageSize);
    var end := ChunkOffset(pfn, m.pageSize);
    ghost var c, c1 := Chunk(last, m.pageSize), Chunk(pfn, m.pageSize);
    ghost var c0 := c;
    PfnMonotone(last, pfn, 8 * m.pageSize);
    ChunkBounds(last, m.pageSize);
    while pos < end
      invariant c0 <= c <= c1 && pos == Addr(c, m.pageSize) && file.quota + 2 * (c - c0) == old(file.quota)
      invariant forall p | p in pages :: p < 8 * Addr(c + 1, m.pageSize)
      invariant Written(file.records, m, pages, c, buf[..])
      invariant Grown(old(file.records), file.records, m.offset, m.offset + 2 * m.len)
      decreases end - pos
    {
      assert c < c1;
      AddrMonotone(c + 1, c1, m.pageSize);
      ok := FlushOne(file, m, buf, c, pos, pages);
      if !ok {
        return;
      }
      pos := pos + m.pageSize;
      c := c + 1;
    }
    if c < c1 {
      AddrStep(c, c1, m.pageSize);
    }
    ok := true;
  }

  /** set_dump_bitmap. */
  method SetDumpBitmap(file: DumpFile, m: Bitmaps, buf: array<Byte>, last: nat, pfn: nat, value: bool,
                       ghost pages: set<nat>)
    returns (ok: bool)
    requires m.pageSize > 0 && buf.Length == m.pageSize && last <= pfn
    requires Written(file.records, m, pages, Chunk(last, m.pageSize), buf[..])
    requires (forall p | p in pages :: p <= last) && Addr(Chunk(pfn, m.pageSize), m.pageSize) <= m.len
    requires value || pfn !in pages
    modifies file, buf
    ensures Spends(old(file.quota), file.quota, ok, 2 * Buffers(last, pfn, m.pageSize))
    ensures ok ==> Written(file.records, m, if value then pages + {pfn} else pages, Chunk(pfn, m.pageSize), buf[..])
    ensures ok ==> Grown(old(file.records), file.records, m.offset, m.offset + 2 * m.len)
  {
    ok := FlushTo(file, m, buf, last, pfn, pages);
    if !ok {
      return;
    }
    var byte, bit := BitPosition(pfn, m.pageSize);
    ghost var before := buf[..];
    if value {
      SetStep(file.records, m, pages, Chunk(pfn, m.pageSize), before, pfn, byte, bit);
      buf[byte] := SetBit(buf[byte], bit);
      assert buf[..] == before[byte := SetBit(before[byte], bit)];
    } else {
      ClearStep(file.records, m, pages, Chunk(pfn, m.pageSize), before, pfn, byte, bit);
      buf[byte] := ClearBit(buf[byte], bit);
      assert buf[..] == before;
    }
  }

  /** The bitmaps are as long as the buffers up to the last guest page. */
  ghost predicate Fits(m: Bitmaps, ps: seq<Page>) {
    m.pageSize > 0 && (|ps| > 0 ==> m.len == Addr(Chunk(ps[|ps| - 1].pfn, m.pageSize) + 1, m.pageSize))
  }

  lemma ChunkFits(m: Bitmaps, ps: seq<Page>, k: nat)
    requires Fits(m, ps) && Increasing(ps) && k < |ps|
    ensures Addr(Chunk(ps[k].pfn, m.pageSize), m.pageSize) <= m.len
  {
    var last := ps[|ps| - 1].pfn;
    PfnMonotone(ps[k].pfn, last, 8 * m.pageSize);
    AddrMonotone(Chunk(ps[k].pfn, m.pageSize), Chunk(last, m.pageSize) + 1, m.pageSize);
  }

  lemma FramesNext(ps: seq<Page>, k: nat)
    requires k < |ps|
    ensures Frames(ps, k + 1) == Frames(ps, k) + {ps[k].pfn}
  {
  }

  lemma FramesBelow(ps: seq<Page>, k: nat)
    requires Increasing(ps) && 0 < k <= |ps|
    ensures forall p | p in Frames(ps, k) :: p <= ps[k - 1].pfn
  {
    forall p | p in Frames(ps, k) ensures p <= ps[k - 1].pfn {
      var i :| 0 <= i < k && ps[i].pfn == p;
    }
  }

  /** write_dump_bitmap: both copies hold the bitmap of exactly the guest pages. */
  method WriteDumpBitmap(file: DumpFile, m: Bitmaps, blocks: seq<Block>) returns (ok: bool, numDumpable: nat)
    requires Paged(blocks, m.pageSize) && |blocks| > 0 && Fits(m, Pages(blocks, m.pageSize))
    modifies file
    ensures Spends(old(file.quota), file.quota, ok, 2 * LastBuffer(Pages(blocks, m.pageSize), m.pageSize) + 2)
    ensures ok ==> numDumpable == |Pages(blocks, m.pageSize)|
    ensures ok ==> var guest := Frames(Pages(blocks, m.pageSize), numDumpable);
                   Holds(file.records, m.offset, Stretch(guest, 0, m.len))
                   && Holds(file.records, m.offset + m.len, Stretch(guest, 0, m.len))
    ensures ok ==> Grown(old(file.records), file.records, m.offset, m.offset + 2 * m.len)
  {
    ghost var ps := Pages(blocks, m.pageSize);
    PagesIncrease(blocks, m.pageSize, |blocks|);
    var buf := new Byte[m.pageSize](_ => 0);
    var last;
    ok, numDumpable, last := SetPages(file, m, blocks, buf);
    if ok && numDumpable > 0 {
      ok := SyncBitmap(file, m, buf, last, ps);
    }
  }

  /** The loop of write_dump_bitmap. */
  method SetPages(file: DumpFile, m: Bitmaps, blocks: seq<Block>, buf: array<Byte>)
    returns (ok: bool, numDumpable: nat, last: nat)
    requires Paged(blocks, m.pageSize) && |blocks| > 0 && Fits(m, Pages(blocks, m.pageSize))
    requires buf.Length == m.pageSize && forall y | 0 <= y < buf.Length :: buf[y] == 0
    modifies file, buf
    ensures Spends(old(file.quota), file.quota, ok, 2 * LastBuffer(Pages(blocks, m.pageSize), m.pageSize))
    ensures ok ==> var ps := Pages(blocks, m.pageSize);
                   && numDumpable == |ps| > 0 && last == ps[|ps| - 1].pfn
                   && Written(file.records, m, Frames(ps, |ps|), Chunk(last, m.pageSize), buf[..])
                   && Grown(old(file.records), file.records, m.offset, m.offset + 2 * m.len)
  {
    ghost var ps := Pages(blocks, m.pageSize);
    PagesIncrease(blocks, m.pageSize, |blocks|);
    NothingWritten(file.records, m, buf[..]);
    assert Frames(ps, 0) == {};
    numDumpable, last := 0, 0;
    var more, c, host := GetNextPage(blocks, m.pageSize, Start, -1);
    while more
      invariant numDumpable <= |ps| && file.quota + 2 * Chunk(last, m.pageSize) == old(file.quota)
      invariant more <==> numDumpable < |ps|
      invariant more ==> Stands(blocks, m.pageSize, c, numDumpable) && ps[numDumpable].pfn == c.pfn
      invariant last == if numDumpable > 0 then ps[numDumpable - 1].pfn else 0
      invariant Written(file.records, m, Frames(ps, numDumpable), Chunk(last, m.pageSize), buf[..])
      invariant Grown(old(file.records), file.records, m.offset, m.offset + 2 * m.len)
      decreases |ps| - numDumpable
    {
      BufferBelow(ps, numDumpable, m.pageSize);
      ok := SetPage(file, m, buf, last, c.pfn, ps, numDumpable);
      if !ok {
        return;
      }
      last := c.pfn;
      more, c, host := GetNextPage(blocks, m.pageSize, c, numDumpable);
      numDumpable := numDumpable + 1;
    }
    ok := true;
  }

  lemma BufferBelow(ps: seq<Page>, k: nat, pageSize: nat)
    requires Increasing(ps) && k < |ps|
    ensures Chunk(ps[k].pfn, pageSize) <= LastBuffer(ps, pageSize)
  {
    PfnMonotone(ps[k].pfn, ps[|ps| - 1].pfn, 8 * pageSize);
  }

  lemma NothingWritten(rs: seq<Record>, m: Bitmaps, buf: seq<Byte>)
    requires |buf| == m.pageSize && forall y | 0 <= y < |buf| :: buf[y] == 0
    ensures Written(rs, m, {}, 0, buf)
  {
    StretchZero({}, 0, m.pageSize);
  }

  /** The body of the loop of write_dump_bitmap, on page `k`. */
  method SetPage(file: DumpFile, m: Bitmaps, buf: array<Byte>, last: nat, pfn: nat, ghost ps: seq<Page>, ghost k: nat)
    returns (ok: bool)
    requires Increasing(ps) && k < |ps| && ps[k].pfn == pfn && Fits(m, ps) && buf.Length == m.pageSize
    requires last == if k > 0 then ps[k - 1].pfn else 0
    requires Written(file.records, m, Frames(ps, k), Chunk(last, m.pageSize), buf[..])
    modifies file, buf
    ensures Spends(old(file.quota), file.quota, ok, 2 * Buffers(last, pfn, m.pageSize))
    ensures ok ==> Written(file.records, m, Frames(ps, k + 1), Chunk(pfn, m.pageSize), buf[..])
    ensures ok ==> Grown(old(file.records), file.records, m.offset, m.offset + 2 * m.len)
  {
    ChunkFits(m, ps, k);
    FramesNext(ps, k);
    if k > 0 {
      FramesBelow(ps, k);
    }
    ok := SetDumpBitmap(file, m, buf, last, pfn, true, Frames(ps, k));
  }

  /** The final sync of write_dump_bitmap. */
  method SyncBitmap(file: DumpFile, m: Bitmaps, buf: array<Byte>, last: nat, ghost ps: seq<Page>) returns (ok: bool)
    requires Increasing(ps) && |ps| > 0 && last == ps[|ps| - 1].pfn && Fits(m, ps) && buf.Length == m.pageSize
    requires Written(file.records, m, Frames(ps, |ps|), Chunk(last, m.pageSize), buf[..])
    modifies file, buf
    ensures Spends(old(file.quota), file.quota, ok, 2)
    ensures ok ==> Holds(file.records, m.offset, Stretch(Frames(ps, |ps|), 0, m.len))
                   && Holds(file.records, m.offset + m.len, Stretch(Frames(ps, |ps|), 0, m.len))
    ensures ok ==> Grown(old(file.records), file.records, m.offset, m.offset + 2 * m.len)
  {
    FramesBelow(ps, |ps|);
    assert Chunk(last + 8 * m.pageSize, m.pageSize) == Chunk(last, m.pageSize) + 1;
    ok := SetDumpBitmap(file, m, buf, last, last + 8 * m.pageSize, false, Frames(ps, |ps|));
  }

  /** Read back from either copy, bit p is set exactly when p is a guest page. */
  lemma BitmapReads(rs: seq<Record>, at: nat, len: nat, blocks: seq<Block>, pageSize: nat, p: nat)
    requires Paged(blocks, pageSize) && p < 8 * len
    requires Holds(rs, at, Stretch(Frames(Pages(blocks, pageSize), |Pages(blocks, pageSize)|), 0, len))
    ensures at + p / 8 in Replay(rs)
    ensures BitOf(Replay(rs)[at + p / 8], p % 8) <==> IsGuestPage(blocks, pageSize, p)
  {
    var guest := Frames(Pages(blocks, pageSize), |Pages(blocks, pageSize)|);
    assert HoldsByte(rs, at, Stretch(guest, 0, len), p / 8);
    ReplayBytes(rs, at + p / 8);
    PackBit(guest, p / 8, p % 8);
    WalkVisits(blocks, pageSize, p);
  }
}
