/**
  The page section of a kdump (dump.c): a descriptor for every guest page, and behind all descriptors the
  page data, where all zero pages share one page of zeros.  Both grow side by side through their own caches.
 */
module DumpPages {
  import opened Words
  import opened Seals
  import opened Writes
  import opened GuestBlocks
  import opened FlatFile
  import opened PageWalk
  import opened Pieces

  // Descriptors.

  /** PageDescriptor; page_flags is always 0. */
  datatype Desc = Desc(offset: nat, size: nat, flags: nat)

  const DESC_SIZE: nat := 24

  predicate DescOk(d: Desc) {
    d.offset < U64 && d.size < U32 && d.flags < U32
  }

  function EncodeDesc(d: Desc, big: bool): (s: seq<Byte>)
    ensures |s| == DESC_SIZE
  {
    Encode(d.offset, 8, big) + Encode(d.size, 4, big) + Encode(d.flags, 4, big) + Encode(0, 8, big)
  }

  function DecodeDesc(s: seq<Byte>, big: bool): Desc {
    if |s| < 16 then Desc(0, 0, 0) else Desc(Decode(s[..8], big), Decode(s[8..12], big), Decode(s[12..16], big))
  }

  lemma DescRoundTrip(d: Desc, big: bool)
    requires DescOk(d)
    ensures DecodeDesc(EncodeDesc(d, big), big) == d
  {
    assert Pow256(4) == U32;
    assert Pow256(8) == U64;
    EncodeRoundTrip(d.offset, 8, big);
    EncodeRoundTrip(d.size, 4, big);
    EncodeRoundTrip(d.flags, 4, big);
    var s := EncodeDesc(d, big);
    assert s[..8] == Encode(d.offset, 8, big);
    assert s[8..12] == Encode(d.size, 4, big);
    assert s[12..16] == Encode(d.flags, 4, big);
  }

  /** The result of a compressor: the bytes, or failure. */
  datatype Compressed = Failed | Compressed(bytes: seq<Byte>)

  /** The page size, the compression and the descriptors of a dump; `inflate` and `decode` are the reader's. */
  datatype Format = Format(pageSize: nat, flag: nat,
                           compress: seq<Byte> -> Compressed, inflate: seq<Byte> -> seq<Byte>,
                           encode: Desc -> seq<Byte>, decode: seq<Byte> -> Desc)

  ghost predicate FormatOk(f: Format) {
    && 1024 <= f.pageSize < U32 && f.flag in {1, 2, 4}
    && (forall s :: f.compress(s).Compressed? ==> f.inflate(f.compress(s).bytes) == s)
    && (forall d :: |f.encode(d)| == DESC_SIZE && (DescOk(d) ==> f.decode(f.encode(d)) == d))
  }

  /** A dump in the byte order of the guest. */
  function KdumpFormat(pageSize: nat, big: bool, flag: nat, compress: seq<Byte> -> Compressed,
                       inflate: seq<Byte> -> seq<Byte>): Format {
    Format(pageSize, flag, compress, inflate, d => EncodeDesc(d, big), s => DecodeDesc(s, big))
  }

  lemma KdumpFormatOk(pageSize: nat, big: bool, flag: nat, compress: seq<Byte> -> Compressed,
                      inflate: seq<Byte> -> seq<Byte>)
    requires 1024 <= pageSize < U32 && flag in {1, 2, 4}
    requires forall s :: compress(s).Compressed? ==> inflate(compress(s).bytes) == s
    ensures FormatOk(KdumpFormat(pageSize, big, flag, compress, inflate))
  {
    var f := KdumpFormat(pageSize, big, flag, compress, inflate);
    forall d ensures |f.encode(d)| == DESC_SIZE && (DescOk(d) ==> f.decode(f.encode(d)) == d) {
      if DescOk(d) {
        DescRoundTrip(d, big);
      }
    }
  }

  // What is stored for a page.

  function Zeros(n: nat): (s: seq<Byte>)
    ensures |s| == n && forall i | 0 <= i < n :: s[i] == 0
  {
    seq(n, _ => 0)
  }

  predicate Helps(f: Format, page: seq<Byte>) {
    var c := f.compress(page);
    c.Compressed? && |c.bytes| < f.pageSize
  }

  /** Compressed if that works and helps, else plain. */
  function Squeeze(f: Format, page: seq<Byte>): seq<Byte> {
    if Helps(f, page) then f.compress(page).bytes else page
  }

  function SqueezeFlag(f: Format, page: seq<Byte>): nat {
    if Helps(f, page) then f.flag else 0
  }

  /** What a reader makes of stored bytes. */
  function Restore(f: Format, flags: nat, stored: seq<Byte>): seq<Byte> {
    if flags == 0 then stored else f.inflate(stored)
  }

  lemma SqueezeRestores(f: Format, page: seq<Byte>)
    requires FormatOk(f) && |page| == f.pageSize
    ensures Restore(f, SqueezeFlag(f, page), Squeeze(f, page)) == page && |Squeeze(f, page)| <= f.pageSize
    ensures SqueezeFlag(f, page) < U32
  {
  }

  predicate IsZero(page: seq<Byte>) {
    forall i | 0 <= i < |page| :: page[i] == 0
  }

  /** The bytes a page adds to the data section. */
  function Part(f: Format, page: seq<Byte>): seq<Byte> {
    if IsZero(page) then [] else Squeeze(f, page)
  }

  /** The descriptor of a page whose data goes to `offset`, with the zero page at `base`. */
  function DescOf(f: Format, page: seq<Byte>, base: nat, offset: nat): Desc {
    if IsZero(page) then Desc(base, f.pageSize, 0) else Desc(offset, |Squeeze(f, page)|, SqueezeFlag(f, page))
  }

  // The two sections of the pages with these contents: the pieces `dp` of the descriptors and `tp` of the data.

  /** Page `k` gets these pieces. */
  ghost predicate PlannedAt(f: Format, base: nat, page: seq<Byte>, dp: seq<seq<Byte>>, tp: seq<seq<Byte>>, k: nat)
    requires k < |dp| && k + 1 < |tp|
  {
    dp[k] == f.encode(DescOf(f, page, base, base + |Cat(tp, k + 1)|)) && tp[k + 1] == Part(f, page)
  }

  ghost predicate Planned(f: Format, base: nat, pages: seq<seq<Byte>>, dp: seq<seq<Byte>>, tp: seq<seq<Byte>>) {
    && |dp| == |pages| && |tp| == |pages| + 1 && tp[0] == Zeros(f.pageSize)
    && (forall k | 0 <= k < |pages| :: PlannedAt(f, base, pages[k], dp, tp, k))
    && (forall k | 0 <= k < |pages| :: |pages[k]| == f.pageSize)
  }

  ghost function DataPieces(f: Format, pages: seq<seq<Byte>>): (tp: seq<seq<Byte>>)
    ensures |tp| == |pages| + 1 && tp[0] == Zeros(f.pageSize)
    ensures forall k | 0 <= k < |pages| :: tp[k + 1] == Part(f, pages[k])
  {
    [Zeros(f.pageSize)] + seq(|pages|, k requires 0 <= k < |pages| => Part(f, pages[k]))
  }

  ghost function DescPieces(f: Format, base: nat, pages: seq<seq<Byte>>, tp: seq<seq<Byte>>): (dp: seq<seq<Byte>>)
    requires |tp| == |pages| + 1
    ensures |dp| == |pages|
    ensures forall k | 0 <= k < |pages| :: dp[k] == f.encode(DescOf(f, pages[k], base, base + |Cat(tp, k + 1)|))
  {
    seq(|pages|, k requires 0 <= k < |pages| => f.encode(DescOf(f, pages[k], base, base + |Cat(tp, k + 1)|)))
  }

  lemma MakePlan(f: Format, base: nat, pages: seq<seq<Byte>>) returns (dp: seq<seq<Byte>>, tp: seq<seq<Byte>>)
    requires forall k | 0 <= k < |pages| :: |pages[k]| == f.pageSize
    ensures Planned(f, base, pages, dp, tp) && tp == DataPieces(f, pages) && dp == DescPieces(f, base, pages, tp)
  {
    tp := DataPieces(f, pages);
    dp := DescPieces(f, base, pages, tp);
    forall k | 0 <= k < |pages| ensures PlannedAt(f, base, pages[k], dp, tp, k) {
    }
  }

  lemma CatNext<T>(parts: seq<seq<T>>, k: nat)
    requires k < |parts|
    ensures Cat(parts, k + 1) == Cat(parts, k) + parts[k]
  {
  }

  lemma {:induction false} DescsSize(f: Format, base: nat, pages: seq<seq<Byte>>, dp: seq<seq<Byte>>,
                                     tp: seq<seq<Byte>>, k: nat)
    requires FormatOk(f) && Planned(f, base, pages, dp, tp) && k <= |pages|
    ensures |Cat(dp, k)| == 24 * k
  {
    if k > 0 {
      DescsSize(f, base, pages, dp, tp, k - 1);
      assert PlannedAt(f, base, pages[k - 1], dp, tp, k - 1);
    }
  }

  lemma {:induction false} DataSize(f: Format, base: nat, pages: seq<seq<Byte>>, dp: seq<seq<Byte>>,
                                    tp: seq<seq<Byte>>, k: nat)
    requires FormatOk(f) && Planned(f, base, pages, dp, tp) && k <= |pages|
    ensures |Cat(tp, k + 1)| <= Addr(k + 1, f.pageSize)
  {
    if k > 0 {
      DataSize(f, base, pages, dp, tp, k - 1);
      assert PlannedAt(f, base, pages[k - 1], dp, tp, k - 1);
      SqueezeRestores(f, pages[k - 1]);
      CatNext(tp, k);
    } else {
      CatNext(tp, 0);
    }
  }

  // Reading it back.

  /** `n` bytes of the rebuilt file. */
  ghost function Fetch(file: map<nat, Byte>, at: nat, n: nat): (s: seq<Byte>)
    ensures |s| == n
  {
    seq(n, i requires 0 <= i => if at + i in file then file[at + i] else 0)
  }

  lemma FetchHeld(rs: seq<Record>, at: nat, data: seq<Byte>)
    requires Holds(rs, at, data)
    ensures Fetch(Replay(rs), at, |data|) == data
  {
    forall i: nat | i < |data| ensures Fetch(Replay(rs), at, |data|)[i] == data[i] {
      assert HoldsByte(rs, at, data, i);
      ReplayBytes(rs, at + i);
    }
  }

  /** The descriptor a reader finds. */
  ghost function ReadDesc(file: map<nat, Byte>, f: Format, at: nat): Desc {
    f.decode(Fetch(file, at, DESC_SIZE))
  }

  /** A reader: the descriptor, the bytes it selects, and the page they stand for. */
  ghost function ReadPage(file: map<nat, Byte>, f: Format, at: nat): seq<Byte> {
    var d := ReadDesc(file, f, at);
    Restore(f, d.flags, Fetch(file, d.offset, d.size))
  }

  lemma HoldsPiece(rs: seq<Record>, at: nat, parts: seq<seq<Byte>>, n: nat, k: nat)
    requires k < n <= |parts| && Holds(rs, at, Cat(parts, n))
    ensures Holds(rs, at + |Cat(parts, k)|, parts[k])
  {
    CatPrefix(parts, k + 1, n);
    CatNext(parts, k);
    var lo, hi := |Cat(parts, k)|, |Cat(parts, k + 1)|;
    HoldsPart(rs, at, Cat(parts, n), lo, hi);
    assert Cat(parts, n)[lo..hi] == parts[k];
  }

  lemma DescFits(f: Format, base: nat, pages: seq<seq<Byte>>, dp: seq<seq<Byte>>, tp: seq<seq<Byte>>, k: nat)
    requires FormatOk(f) && Planned(f, base, pages, dp, tp) && k < |pages| && base + Addr(|pages| + 1, f.pageSize) < U64
    ensures var d := DescOf(f, pages[k], base, base + |Cat(tp, k + 1)|); base <= d.offset && DescOk(d)
  {
    DataSize(f, base, pages, dp, tp, k);
    SqueezeRestores(f, pages[k]);
    AddrStep(k + 1, |pages| + 2, f.pageSize);
  }

  lemma DescHeld(rs: seq<Record>, f: Format, at: nat, base: nat, pages: seq<seq<Byte>>, dp: seq<seq<Byte>>,
                 tp: seq<seq<Byte>>, k: nat)
    requires FormatOk(f) && Planned(f, base, pages, dp, tp) && k < |pages| && base + Addr(|pages| + 1, f.pageSize) < U64
    requires Holds(rs, at, Cat(dp, |pages|))
    ensures ReadDesc(Replay(rs), f, at + 24 * k) == DescOf(f, pages[k], base, base + |Cat(tp, k + 1)|)
  {
    DescsSize(f, base, pages, dp, tp, k);
    HoldsPiece(rs, at, dp, |pages|, k);
    assert PlannedAt(f, base, pages[k], dp, tp, k);
    FetchHeld(rs, at + 24 * k, dp[k]);
    DescFits(f, base, pages, dp, tp, k);
  }

  lemma StoredHeld(rs: seq<Record>, f: Format, base: nat, pages: seq<seq<Byte>>, dp: seq<seq<Byte>>,
                   tp: seq<seq<Byte>>, k: nat)
    requires FormatOk(f) && Planned(f, base, pages, dp, tp) && k < |pages| && Holds(rs, base, Cat(tp, |pages| + 1))
    ensures var d := DescOf(f, pages[k], base, base + |Cat(tp, k + 1)|);
            Restore(f, d.flags, Fetch(Replay(rs), d.offset, d.size)) == pages[k]
  {
    if IsZero(pages[k]) {
      HoldsPiece(rs, base, tp, |pages| + 1, 0);
      FetchHeld(rs, base, Zeros(f.pageSize));
      assert pages[k] == Zeros(f.pageSize);
    } else {
      HoldsPiece(rs, base, tp, |pages| + 1, k + 1);
      assert PlannedAt(f, base, pages[k], dp, tp, k);
      FetchHeld(rs, base + |Cat(tp, k + 1)|, Squeeze(f, pages[k]));
      SqueezeRestores(f, pages[k]);
    }
  }

  /** The page section of the pages with these contents is in the file. */
  ghost predicate InFile(rs: seq<Record>, f: Format, at: nat, base: nat, pages: seq<seq<Byte>>) {
    forall b {:trigger Opened(PageData, b)} :: Opened(PageData, b) ==> exists dp, tp ::
      Planned(f, base, pages, dp, tp) && Holds(rs, at, Cat(dp, |pages|)) && Holds(rs, base, Cat(tp, |pages| + 1))
  }

  /** The descriptor of every page selects its stored bytes, behind all descriptors, and they restore the page. */
  lemma DescSelects(rs: seq<Record>, f: Format, at: nat, base: nat, pages: seq<seq<Byte>>, k: nat)
    requires FormatOk(f) && base == at + 24 * |pages| && base + Addr(|pages| + 1, f.pageSize) < U64
    requires InFile(rs, f, at, base, pages) && k < |pages|
    ensures ReadPage(Replay(rs), f, at + 24 * k) == pages[k]
    ensures base <= ReadDesc(Replay(rs), f, at + 24 * k).offset
  {
    assert Opened(PageData, true);
    var dp, tp :| Planned(f, base, pages, dp, tp) && Holds(rs, at, Cat(dp, |pages|)) &&
      Holds(rs, base, Cat(tp, |pages| + 1));
    DescHeld(rs, f, at, base, pages, dp, tp, k);
    StoredHeld(rs, f, base, pages, dp, tp, k);
    DescFits(f, base, pages, dp, tp, k);
  }

  // Writing it.

  /** Two caches on one file for stretches that do not meet: the one in front takes at most `room` bytes. */
  ghost predicate Paired(desc: DataCache, data: DataCache, room: nat)
    reads desc, desc.buf, desc.file, data, data.buf, data.file
  {
    && desc != data && desc.buf != data.buf && desc.file == data.file
    && desc.Valid() && data.Valid() && |desc.stream| <= room && desc.base + room <= data.base
  }

  /** write_cache on the descriptors, which leaves the data alone. */
  method AddDesc(desc: DataCache, data: DataCache, bytes: seq<Byte>, sync: bool, ghost room: nat) returns (ok: bool)
    requires Paired(desc, data, room) && (sync ==> bytes == [])
    requires |bytes| <= desc.buf.Length && |desc.stream| + |bytes| <= room
    modifies desc, desc.buf, desc.file
    ensures Spends(old(desc.file.quota), desc.file.quota, ok, if sync then SyncWrites(old(desc.dataSize))
                   else Flush(desc.buf.Length, old(desc.dataSize), |bytes|))
    ensures ok ==> Paired(desc, data, room) && desc.stream == old(desc.stream) + bytes
    ensures ok ==> desc.dataSize == if sync then 0 else Fill(desc.buf.Length, old(desc.dataSize), |bytes|)
    ensures ok ==> Grown(old(desc.file.records), desc.file.records, desc.base, data.base + |data.stream|)
  {
    assert Opened(Cache, true);
    ghost var rs, rec := desc.file.records, Record(desc.offset, desc.buf[..desc.dataSize]);
    ghost var done := data.stream[..|data.stream| - data.dataSize];
    ok := desc.Write(bytes, sync);
    if ok {
      HoldsKept(rs, rec, data.base, done);
    }
  }

  /** write_cache on the data, which leaves the descriptors alone. */
  method AddData(desc: DataCache, data: DataCache, bytes: seq<Byte>, sync: bool, ghost room: nat) returns (ok: bool)
    requires Paired(desc, data, room) && (sync ==> bytes == []) && |bytes| <= data.buf.Length
    modifies data, data.buf, data.file
    ensures Spends(old(data.file.quota), data.file.quota, ok, if sync then SyncWrites(old(data.dataSize))
                   else Flush(data.buf.Length, old(data.dataSize), |bytes|))
    ensures ok ==> Paired(desc, data, room) && data.stream == old(data.stream) + bytes
    ensures ok ==> data.dataSize == if sync then 0 else Fill(data.buf.Length, old(data.dataSize), |bytes|)
    ensures ok ==> Grown(old(data.file.records), data.file.records, desc.base, data.base + |data.stream|)
  {
    assert Opened(Cache, true);
    ghost var rs, rec := data.file.records, Record(data.offset, data.buf[..data.dataSize]);
    ghost var done := desc.stream[..|desc.stream| - desc.dataSize];
    ok := data.Write(bytes, sync);
    if ok {
      HoldsKept(rs, rec, desc.base, done);
    }
  }

  /** The choice between compressed and plain. */
  method CompressPage(f: Format, page: seq<Byte>) returns (stored: seq<Byte>, flags: nat)
    requires |page| == f.pageSize
    ensures stored == Squeeze(f, page) && flags == SqueezeFlag(f, page) && |stored| <= f.pageSize
    ensures FormatOk(f) ==> Restore(f, flags, stored) == page
  {
    var c := f.compress(page);
    stored, flags := page, 0;
    if c.Compressed? && |c.bytes| < f.pageSize {
      stored, flags := c.bytes, f.flag;
    }
  }

  /** The body of the loop of write_dump_pages. */
  method WritePage(f: Format, desc: DataCache, data: DataCache, page: seq<Byte>, zero: Desc, offsetData: nat,
                   ghost room: nat)
    returns (ok: bool, offsetData': nat)
    requires FormatOk(f) && Paired(desc, data, room) && |page| == f.pageSize
    requires desc.buf.Length >= 24 && data.buf.Length >= f.pageSize && |desc.stream| + 24 <= room
    requires zero == Desc(data.base, f.pageSize, 0)
    modifies desc, desc.buf, data, data.buf, desc.file
    ensures Spends(old(desc.file.quota), desc.file.quota, ok,
                   Flush(data.buf.Length, old(data.dataSize), |Part(f, page)|)
                   + Flush(desc.buf.Length, old(desc.dataSize), 24))
    ensures ok ==> desc.dataSize == Fill(desc.buf.Length, old(desc.dataSize), 24)
    ensures ok ==> data.dataSize == Fill(data.buf.Length, old(data.dataSize), |Part(f, page)|)
    ensures ok ==> Paired(desc, data, room) && offsetData' == offsetData + |Part(f, page)|
    ensures ok ==> desc.stream == old(desc.stream) + f.encode(DescOf(f, page, data.base, offsetData))
    ensures ok ==> data.stream == old(data.stream) + Part(f, page)
    ensures ok ==> Grown(old(desc.file.records), desc.file.records, desc.base, data.base + |data.stream|)
  {
    offsetData' := offsetData;
    if IsZero(page) {
      ok := AddDesc(desc, data, f.encode(zero), false, room);
      return;
    }
    var stored, flags := CompressPage(f, page);
    ok := AddData(desc, data, stored, false, room);
    if !ok {
      return;
    }
    var pd := Desc(offsetData, |stored|, flags);
    offsetData' := offsetData + |stored|;
    ok := AddDesc(desc, data, f.encode(pd), false, room);
  }

  /** The contents of the pages. */
  ghost function Contents(mem: Memory, ps: seq<Page>, pageSize: nat): (pages: seq<seq<Byte>>)
    ensures |pages| == |ps| && forall k | 0 <= k < |ps| :: pages[k] == Bytes(mem, ps[k].host, pageSize)
  {
    seq(|ps|, k requires 0 <= k < |ps| => Bytes(mem, ps[k].host, pageSize))
  }

  /** prepare_data_cache for both sections, and the shared zero page. */
  method Prepare(file: DumpFile, f: Format, offsetPage: nat, numDumpable: nat)
    returns (ok: bool, desc: DataCache, data: DataCache)
    modifies file
    ensures fresh(desc) && fresh(data) && fresh(desc.buf) && fresh(data.buf) && desc.file == file
    ensures desc.base == offsetPage && data.base == offsetPage + 24 * numDumpable
    ensures desc.buf.Length == data.buf.Length == 4 * f.pageSize
    ensures ok && file.quota == old(file.quota) && desc.dataSize == 0 && data.dataSize == f.pageSize
    ensures ok ==> Paired(desc, data, 24 * numDumpable) && desc.stream == [] && data.stream == Zeros(f.pageSize)
    ensures ok ==> Grown(old(file.records), file.records, offsetPage, data.base + |data.stream|)
  {
    desc := new DataCache(file, 4 * f.pageSize, offsetPage);
    data := new DataCache(file, 4 * f.pageSize, offsetPage + DESC_SIZE * numDumpable);
    ok := AddData(desc, data, Zeros(f.pageSize), false, 24 * numDumpable);
  }

  /** After `k` pages: what went through both caches, what they still hold, and the writes to come before the syncs. */
  datatype Plan = Plan(desc: nat -> seq<Byte>, data: nat -> seq<Byte>, descHeld: nat -> nat, dataHeld: nat -> nat,
                       left: nat -> nat)

  ghost predicate Buffered(t: Plan, cap: nat, ds: seq<nat>, ts: seq<nat>, k: nat)
    requires k <= |ds| && k < |ts|
  {
    forall b {:trigger Opened(Count, b)} :: Opened(Count, b) ==>
      && t.descHeld(k) == Held(cap, ds, k) && t.dataHeld(k) == Held(cap, ts, k + 1)
      && t.left(k) == Flushes(cap, ds, k) + Flushes(cap, ts, k + 1)
  }

  /** A plan for the pages `ps`. */
  ghost predicate Plans(t: Plan, f: Format, mem: Memory, base: nat, ps: seq<Page>, dp: seq<seq<Byte>>,
                        tp: seq<seq<Byte>>) {
    forall b {:trigger Opened(Script, b)} :: Opened(Script, b) ==>
      && FormatOk(f) && Planned(f, base, Contents(mem, ps, f.pageSize), dp, tp)
      && forall k: nat | k <= |ps| :: Scripted(t, 4 * f.pageSize, dp, tp, DescSizes(|ps|), DataSizes(f, mem, ps), k)
  }

  ghost predicate Scripted(t: Plan, cap: nat, dp: seq<seq<Byte>>, tp: seq<seq<Byte>>, ds: seq<nat>, ts: seq<nat>,
                           k: nat) {
    && k <= |dp| && k < |tp| && k <= |ds| && k < |ts|
    && t.desc(k) == Cat(dp, k) && t.data(k) == Cat(tp, k + 1) && Buffered(t, cap, ds, ts, k)
  }

  lemma PlanAt(t: Plan, f: Format, mem: Memory, base: nat, ps: seq<Page>, dp: seq<seq<Byte>>, tp: seq<seq<Byte>>,
               k: nat)
    requires Plans(t, f, mem, base, ps, dp, tp) && k <= |ps|
    ensures FormatOk(f) && Planned(f, base, Contents(mem, ps, f.pageSize), dp, tp)
    ensures Scripted(t, 4 * f.pageSize, dp, tp, DescSizes(|ps|), DataSizes(f, mem, ps), k)
  {
    assert Opened(Script, true);
  }

  lemma MakeStreams(f: Format, mem: Memory, base: nat, ps: seq<Page>)
    returns (t: Plan, dp: seq<seq<Byte>>, tp: seq<seq<Byte>>)
    requires FormatOk(f)
    ensures Plans(t, f, mem, base, ps, dp, tp) && t.desc(0) == [] && t.data(0) == Zeros(f.pageSize)
    ensures t.descHeld(0) == 0 && t.dataHeld(0) == f.pageSize && t.left(|ps|) == 0
    ensures SectionWrites(f, mem, ps) == t.left(0) + SyncWrites(t.descHeld(|ps|)) + SyncWrites(t.dataHeld(|ps|))
  {
    dp, tp := MakePlan(f, base, Contents(mem, ps, f.pageSize));
    var ds, ts := DescSizes(|ps|), DataSizes(f, mem, ps);
    t := MakeScript(f.pageSize, dp, tp, ds, ts);
    CatNext(tp, 0);
    WritesAre(f, mem, ps, t.left(0) + SyncWrites(t.descHeld(|ps|)) + SyncWrites(t.dataHeld(|ps|)));
  }

  lemma MakeScript(pageSize: nat, dp: seq<seq<Byte>>, tp: seq<seq<Byte>>, ds: seq<nat>, ts: seq<nat>) returns (t: Plan)
    requires |ds| == |dp| && |ts| == |tp| == |dp| + 1 && ts[0] == pageSize
    ensures forall k: nat | k <= |dp| :: Scripted(t, 4 * pageSize, dp, tp, ds, ts, k)
    ensures t.desc(0) == [] && t.data(0) == Cat(tp, 1)
    ensures t.descHeld(0) == 0 && t.dataHeld(0) == pageSize && t.left(|dp|) == 0
    ensures CacheWrites(4 * pageSize, ds) + CacheWrites(4 * pageSize, ts)
            == t.left(0) + SyncWrites(t.descHeld(|dp|)) + SyncWrites(t.dataHeld(|dp|))
  {
    t := StreamsOf(4 * pageSize, dp, tp, ds, ts);
    forall k: nat | k <= |dp| ensures Scripted(t, 4 * pageSize, dp, tp, ds, ts, k) {
      StreamsAt(4 * pageSize, dp, tp, ds, ts, k);
    }
    StreamsCount(pageSize, dp, tp, ds, ts);
  }

  lemma StreamsAt(cap: nat, dp: seq<seq<Byte>>, tp: seq<seq<Byte>>, ds: seq<nat>, ts: seq<nat>, k: nat)
    requires k <= |dp| == |ds| && |tp| == |ts| == |dp| + 1
    ensures Scripted(StreamsOf(cap, dp, tp, ds, ts), cap, dp, tp, ds, ts, k)
  {
  }

  lemma WritesAre(f: Format, mem: Memory, ps: seq<Page>, n: nat)
    requires n == CacheWrites(4 * f.pageSize, DescSizes(|ps|)) + CacheWrites(4 * f.pageSize, DataSizes(f, mem, ps))
    ensures SectionWrites(f, mem, ps) == n
  {
    assert Opened(Count, true);
  }

  lemma StreamsCount(pageSize: nat, dp: seq<seq<Byte>>, tp: seq<seq<Byte>>, ds: seq<nat>, ts: seq<nat>)
    requires |ds| == |dp| && |ts| == |tp| == |dp| + 1 && ts[0] == pageSize
    ensures var t, n, cap := StreamsOf(4 * pageSize, dp, tp, ds, ts), |dp|, 4 * pageSize;
            && t.descHeld(0) == 0 && t.dataHeld(0) == pageSize && t.left(n) == 0
            && CacheWrites(cap, ds) + CacheWrites(cap, ts)
               == t.left(0) + SyncWrites(t.descHeld(n)) + SyncWrites(t.dataHeld(n))
  {
    var cap := 4 * pageSize;
    assert Held(cap, ts, 0) == 0 && Held(cap, ts, 1) == pageSize;
    assert Flushes(cap, ts, 0) == Flushes(cap, ts, 1);
  }

  ghost function StreamsOf(cap: nat, dp: seq<seq<Byte>>, tp: seq<seq<Byte>>, ds: seq<nat>, ts: seq<nat>): Plan {
    Plan((k: nat) => if k <= |dp| then Cat(dp, k) else [], (k: nat) => if k < |tp| then Cat(tp, k + 1) else [],
         (k: nat) => if k <= |ds| then Held(cap, ds, k) else 0, (k: nat) => if k < |ts| then Held(cap, ts, k + 1)
           else 0,
         (k: nat) => if k <= |ds| && k < |ts| then Flushes(cap, ds, k) + Flushes(cap, ts, k + 1) else 0)
  }

  /** The sizes of what goes through both caches. */
  ghost function DescSizes(n: nat): (sizes: seq<nat>)
    ensures |sizes| == n && forall k | 0 <= k < n :: sizes[k] == 24
  {
    seq(n, _ => 24)
  }

  ghost function DataSizes(f: Format, mem: Memory, ps: seq<Page>): (sizes: seq<nat>)
    ensures |sizes| == |ps| + 1 && sizes[0] == f.pageSize
    ensures forall k | 0 <= k < |ps| :: sizes[k + 1] == |Part(f, Bytes(mem, ps[k].host, f.pageSize))|
  {
    [f.pageSize] + seq(|ps|, k requires 0 <= k < |ps| => |Part(f, Bytes(mem, ps[k].host, f.pageSize))|)
  }

  /** The page section of the pages `ps` takes `n` writes: those of a cache for the descriptors and one for the data. */
  ghost predicate SectionTakes(f: Format, mem: Memory, ps: seq<Page>, n: nat) {
    forall b {:trigger Opened(Count, b)} :: Opened(Count, b) ==>
      n == CacheWrites(4 * f.pageSize, DescSizes(|ps|)) + CacheWrites(4 * f.pageSize, DataSizes(f, mem, ps))
  }

  /** How many writes it takes. */
  ghost function SectionWrites(f: Format, mem: Memory, ps: seq<Page>): (n: nat)
    ensures SectionTakes(f, mem, ps, n)
  {
    CountSection(f, mem, ps);
    var n: nat :| SectionTakes(f, mem, ps, n);
    n
  }

  lemma CountSection(f: Format, mem: Memory, ps: seq<Page>)
    ensures exists n: nat :: SectionTakes(f, mem, ps, n)
  {
    var n := CacheWrites(4 * f.pageSize, DescSizes(|ps|)) + CacheWrites(4 * f.pageSize, DataSizes(f, mem, ps));
    assert SectionTakes(f, mem, ps, n);
  }

  /** At most two for a page, and three more. */
  lemma SectionWritesBound(f: Format, mem: Memory, ps: seq<Page>)
    ensures SectionWrites(f, mem, ps) <= 2 * |ps| + 3
  {
    assert Opened(Count, true);
    FlushesBound(4 * f.pageSize, DescSizes(|ps|), 0);
    FlushesBound(4 * f.pageSize, DataSizes(f, mem, ps), 0);
  }

  lemma PlanInFile(rs: seq<Record>, t: Plan, f: Format, mem: Memory, at: nat, base: nat, ps: seq<Page>,
                   dp: seq<seq<Byte>>, tp: seq<seq<Byte>>)
    requires Plans(t, f, mem, base, ps, dp, tp)
    requires Holds(rs, at, t.desc(|ps|)) && Holds(rs, base, t.data(|ps|))
    ensures InFile(rs, f, at, base, Contents(mem, ps, f.pageSize)) && |t.data(|ps|)| <= Addr(|ps| + 1, f.pageSize)
  {
    PlanAt(t, f, mem, base, ps, dp, tp, |ps|);
    DataSize(f, base, Contents(mem, ps, f.pageSize), dp, tp, |ps|);
  }

  /** The caches after `k` pages of `n`. */
  ghost predicate Streams(desc: DataCache, data: DataCache, t: Plan, k: nat, n: nat)
    reads desc, desc.buf, desc.file, data, data.buf, data.file
  {
    && Paired(desc, data, 24 * n) && desc.stream == t.desc(k) && data.stream == t.data(k)
    && desc.dataSize == t.descHeld(k) && data.dataSize == t.dataHeld(k)
  }

  /** In the loop of write_dump_pages. */
  ghost predicate Midway(desc: DataCache, data: DataCache, t: Plan, k: nat, n: nat, base: nat, offsetData: nat,
                         cap: nat)
    reads desc, desc.buf, desc.file, data, data.buf, data.file
  {
    forall b {:trigger Opened(Cache, b)} :: Opened(Cache, b) ==>
      && Streams(desc, data, t, k, n) && data.base == base && offsetData == base + |data.stream|
      && desc.buf.Length == data.buf.Length == cap
  }

  /** What page `k` adds to the plan. */
  lemma PlanStep(t: Plan, f: Format, mem: Memory, base: nat, ps: seq<Page>, dp: seq<seq<Byte>>, tp: seq<seq<Byte>>,
                 k: nat)
    requires Plans(t, f, mem, base, ps, dp, tp) && k < |ps|
    ensures FormatOk(f) && |t.desc(k)| == 24 * k
    ensures var page := Bytes(mem, ps[k].host, f.pageSize);
            && t.desc(k + 1) == t.desc(k) + f.encode(DescOf(f, page, base, base + |t.data(k)|))
            && t.data(k + 1) == t.data(k) + Part(f, page)
  {
    PlanAt(t, f, mem, base, ps, dp, tp, k);
    PlanAt(t, f, mem, base, ps, dp, tp, k + 1);
    StreamStep(f, base, Contents(mem, ps, f.pageSize), dp, tp, k);
  }

  /** What it adds to the caches. */
  lemma PlanHeld(t: Plan, f: Format, mem: Memory, base: nat, ps: seq<Page>, dp: seq<seq<Byte>>, tp: seq<seq<Byte>>,
                 k: nat)
    requires Plans(t, f, mem, base, ps, dp, tp) && k < |ps|
    ensures var n, cap := |Part(f, Bytes(mem, ps[k].host, f.pageSize))|, 4 * f.pageSize;
            && t.descHeld(k + 1) == Fill(cap, t.descHeld(k), 24)
            && t.dataHeld(k + 1) == Fill(cap, t.dataHeld(k), n)
            && t.left(k) == t.left(k + 1) + Flush(cap, t.dataHeld(k), n) + Flush(cap, t.descHeld(k), 24)
  {
    var ds, ts := DescSizes(|ps|), DataSizes(f, mem, ps);
    PlanAt(t, f, mem, base, ps, dp, tp, k);
    PlanAt(t, f, mem, base, ps, dp, tp, k + 1);
    BufferStep(t, 4 * f.pageSize, ds, ts, k);
    assert ts[k + 1] == |Part(f, Bytes(mem, ps[k].host, f.pageSize))|;
  }

  lemma StreamStep(f: Format, base: nat, pages: seq<seq<Byte>>, dp: seq<seq<Byte>>, tp: seq<seq<Byte>>, k: nat)
    requires FormatOk(f) && Planned(f, base, pages, dp, tp) && k < |pages|
    ensures |Cat(dp, k)| == 24 * k
    ensures Cat(dp, k + 1) == Cat(dp, k) + f.encode(DescOf(f, pages[k], base, base + |Cat(tp, k + 1)|))
    ensures Cat(tp, k + 2) == Cat(tp, k + 1) + Part(f, pages[k])
  {
    assert PlannedAt(f, base, pages[k], dp, tp, k);
    DescsSize(f, base, pages, dp, tp, k);
    CatNext(dp, k);
    CatNext(tp, k + 1);
  }

  lemma BufferStep(t: Plan, cap: nat, ds: seq<nat>, ts: seq<nat>, k: nat)
    requires k < |ds| && k + 1 < |ts| && Buffered(t, cap, ds, ts, k) && Buffered(t, cap, ds, ts, k + 1)
    ensures t.descHeld(k + 1) == Fill(cap, t.descHeld(k), ds[k])
    ensures t.dataHeld(k + 1) == Fill(cap, t.dataHeld(k), ts[k + 1])
    ensures t.left(k) == t.left(k + 1) + Flush(cap, t.dataHeld(k), ts[k + 1]) + Flush(cap, t.descHeld(k), ds[k])
  {
    assert Opened(Count, true);
  }

  /** Page `k` of the walk. */
  method WriteNext(f: Format, mem: Memory, desc: DataCache, data: DataCache, host: nat, base: nat, offsetData: nat,
                   ghost t: Plan, ghost ps: seq<Page>, ghost dp: seq<seq<Byte>>, ghost tp: seq<seq<Byte>>, ghost k: nat)
    returns (ok: bool, offsetData': nat)
    requires Plans(t, f, mem, base, ps, dp, tp) && k < |ps| && host == ps[k].host
    requires Midway(desc, data, t, k, |ps|, base, offsetData, 4 * f.pageSize)
    modifies desc, desc.buf, data, data.buf, desc.file
    ensures ok ==> desc.file.quota + t.left(k) == old(desc.file.quota) + t.left(k + 1)
    ensures !ok ==> old(desc.file.quota) < t.left(k)
    ensures ok ==> Midway(desc, data, t, k + 1, |ps|, base, offsetData', 4 * f.pageSize)
    ensures ok ==> offsetData <= offsetData' && Grown(old(desc.file.records), desc.file.records, desc.base, offsetData')
  {
    assert Opened(Cache, true);
    PlanStep(t, f, mem, base, ps, dp, tp, k);
    PlanHeld(t, f, mem, base, ps, dp, tp, k);
    var page := Bytes(mem, host, f.pageSize);
    ok, offsetData' := WritePage(f, desc, data, page, Desc(base, f.pageSize, 0), offsetData, 24 * |ps|);
  }

  /** A walk over the pages: the pages, and which cursor stands on which of them. */
  datatype Walk = Walk(pages: seq<Page>, stands: (Cursor, nat) -> bool)

  ghost predicate Walks(w: Walk, blocks: seq<Block>, pageSize: nat) {
    forall c, n: nat {:trigger Stands(blocks, pageSize, c, n)} ::
      && Paged(blocks, pageSize) && |blocks| > 0 && w.pages == Pages(blocks, pageSize)
      && w.stands(c, n) == Stands(blocks, pageSize, c, n)
  }

  lemma MakeWalk(blocks: seq<Block>, pageSize: nat) returns (w: Walk)
    requires Paged(blocks, pageSize) && |blocks| > 0
    ensures Walks(w, blocks, pageSize) && w.pages == Pages(blocks, pageSize)
  {
    w := Walk(Pages(blocks, pageSize), (c: Cursor, n: nat) => Stands(blocks, pageSize, c, n));
  }

  /** get_next_page from the start. */
  method FirstPage(ghost w: Walk, blocks: seq<Block>, pageSize: nat) returns (more: bool, c: Cursor, host: nat)
    requires Walks(w, blocks, pageSize)
    ensures more <==> 0 < |w.pages|
    ensures more ==> w.stands(c, 0) && w.pages[0].host == host
  {
    ghost var stands := Stands(blocks, pageSize, Start, 0);
    more, c, host := GetNextPage(blocks, pageSize, Start, -1);
  }

  /** get_next_page from page `k`. */
  method NextPage(ghost w: Walk, blocks: seq<Block>, pageSize: nat, c: Cursor, ghost k: nat)
    returns (more: bool, c': Cursor, host: nat)
    requires Walks(w, blocks, pageSize) && w.stands(c, k)
    ensures more <==> k + 1 < |w.pages|
    ensures more ==> w.stands(c', k + 1) && w.pages[k + 1].host == host
  {
    ghost var stands := Stands(blocks, pageSize, c, k);
    more, c', host := GetNextPage(blocks, pageSize, c, k);
  }

  /** Writes page `k` and steps to the next one. */
  method Turn(f: Format, mem: Memory, blocks: seq<Block>, desc: DataCache, data: DataCache, base: nat, offsetData: nat,
              c: Cursor, host: nat, ghost w: Walk, ghost t: Plan, ghost dp: seq<seq<Byte>>, ghost tp: seq<seq<Byte>>,
              ghost k: nat)
    returns (ok: bool, offsetData': nat, more: bool, c': Cursor, host': nat)
    requires Walks(w, blocks, f.pageSize) && Plans(t, f, mem, base, w.pages, dp, tp)
    requires k < |w.pages| && w.pages[k].host == host && w.stands(c, k)
    requires Midway(desc, data, t, k, |w.pages|, base, offsetData, 4 * f.pageSize)
    modifies desc, desc.buf, data, data.buf, desc.file
    ensures ok ==> desc.file.quota + t.left(k) == old(desc.file.quota) + t.left(k + 1)
    ensures !ok ==> old(desc.file.quota) < t.left(k)
    ensures ok ==> Midway(desc, data, t, k + 1, |w.pages|, base, offsetData', 4 * f.pageSize)
    ensures ok ==> offsetData <= offsetData' && Grown(old(desc.file.records), desc.file.records, desc.base, offsetData')
    ensures ok ==> (more <==> k + 1 < |w.pages|) && (more ==> w.stands(c', k + 1) && w.pages[k + 1].host == host')
  {
    more, c', host' := false, c, host;
    ok, offsetData' := WriteNext(f, mem, desc, data, host, base, offsetData, t, w.pages, dp, tp, k);
    if ok {
      more, c', host' := NextPage(w, blocks, f.pageSize, c, k);
    }
  }

  /** The loop of write_dump_pages. */
  method WriteAll(f: Format, mem: Memory, blocks: seq<Block>, desc: DataCache, data: DataCache, base: nat,
                  first: bool, start: Cursor, host0: nat,
                  ghost w: Walk, ghost t: Plan, ghost dp: seq<seq<Byte>>, ghost tp: seq<seq<Byte>>)
    returns (ok: bool, written: nat, ghost end: nat)
    requires Walks(w, blocks, f.pageSize) && Plans(t, f, mem, base, w.pages, dp, tp) && t.left(|w.pages|) == 0
    requires first <==> 0 < |w.pages|
    requires first ==> w.stands(start, 0) && w.pages[0].host == host0
    requires Midway(desc, data, t, 0, |w.pages|, base, base + f.pageSize, 4 * f.pageSize)
    modifies desc, desc.buf, data, data.buf, desc.file
    ensures Spends(old(desc.file.quota), desc.file.quota, ok, t.left(0))
    ensures ok ==> Midway(desc, data, t, |w.pages|, |w.pages|, base, end, 4 * f.pageSize) && base + f.pageSize <= end
    ensures ok ==> written == Addr(|w.pages|, f.pageSize)
    ensures ok ==> Grown(old(desc.file.records), desc.file.records, desc.base, end)
  {
    var offsetData: nat := base + f.pageSize;
    ghost var k: nat := 0;
    written, end := 0, offsetData;
    var more, c, host := first, start, host0;
    while more
      invariant desc.file.quota + t.left(0) == old(desc.file.quota) + t.left(k)
      invariant k <= |w.pages| && written == Addr(k, f.pageSize)
      invariant more <==> k < |w.pages|
      invariant more ==> w.stands(c, k) && w.pages[k].host == host
      invariant Midway(desc, data, t, k, |w.pages|, base, offsetData, 4 * f.pageSize) && base + f.pageSize <= offsetData
      invariant Grown(old(desc.file.records), desc.file.records, desc.base, offsetData)
      decreases |w.pages| - k
    {
      ghost var rs := desc.file.records;
      end := offsetData;
      ok, offsetData, more, c, host := Turn(f, mem, blocks, desc, data, base, offsetData, c, host, w, t, dp, tp, k);
      if !ok {
        return;
      }
      GrownTwice(old(desc.file.records), rs, desc.file.records, desc.base, end, offsetData);
      written := written + f.pageSize;
      k := k + 1;
    }
    ok, end := true, offsetData;
  }

  /** The final syncs of write_dump_pages. */
  method SyncBoth(desc: DataCache, data: DataCache, ghost room: nat) returns (ok: bool)
    requires Paired(desc, data, room)
    modifies desc, desc.buf, data, data.buf, desc.file
    ensures Spends(old(desc.file.quota), desc.file.quota, ok,
              SyncWrites(old(desc.dataSize)) + SyncWrites(old(data.dataSize)))
    ensures ok ==> Holds(desc.file.records, desc.base, old(desc.stream))
    ensures ok ==> Holds(desc.file.records, data.base, old(data.stream)) && data.stream == old(data.stream)
    ensures ok ==> Grown(old(desc.file.records), desc.file.records, desc.base, data.base + |data.stream|)
  {
    assert Opened(Cache, true);
    ok := AddDesc(desc, data, [], true, room);
    if !ok {
      return;
    }
    ok := AddData(desc, data, [], true, room);
    if ok {
      assert desc.stream[..|desc.stream|] == old(desc.stream) && data.stream[..|data.stream|] == old(data.stream);
    }
  }

  /** The page section before the syncs. */
  method WriteStreams(file: DumpFile, f: Format, mem: Memory, blocks: seq<Block>, at: nat, n: nat,
                      ghost w: Walk, ghost t: Plan, ghost dp: seq<seq<Byte>>, ghost tp: seq<seq<Byte>>)
    returns (ok: bool, written: nat, desc: DataCache, data: DataCache)
    requires Walks(w, blocks, f.pageSize) && Plans(t, f, mem, at + 24 * n, w.pages, dp, tp) && n == |w.pages|
    requires t.desc(0) == [] && t.data(0) == Zeros(f.pageSize) && f.pageSize >= 24
    requires t.descHeld(0) == 0 && t.dataHeld(0) == f.pageSize && t.left(n) == 0
    modifies file
    ensures fresh(desc) && fresh(data) && fresh(desc.buf) && fresh(data.buf) && desc.file == file
    ensures desc.base == at && data.base == at + 24 * n
    ensures Spends(old(file.quota), file.quota, ok, t.left(0))
    ensures ok ==> Streams(desc, data, t, n, n) && written == Addr(n, f.pageSize)
    ensures ok ==> Grown(old(file.records), file.records, at, data.base + |data.stream|)
  {
    written := 0;
    var first, c, host := FirstPage(w, blocks, f.pageSize);
    ok, desc, data := Prepare(file, f, at, n);
    ghost var end;
    ok, written, end := WriteAll(f, mem, blocks, desc, data, at + DESC_SIZE * n, first, c, host, w, t, dp, tp);
    assert Opened(Cache, true);
  }

  /** The same for any walk and plan. */
  method WriteSection(file: DumpFile, f: Format, mem: Memory, blocks: seq<Block>, at: nat, n: nat,
                      ghost w: Walk, ghost t: Plan, ghost dp: seq<seq<Byte>>, ghost tp: seq<seq<Byte>>)
    returns (ok: bool, written: nat)
    requires Walks(w, blocks, f.pageSize) && Plans(t, f, mem, at + 24 * n, w.pages, dp, tp) && n == |w.pages|
    requires t.desc(0) == [] && t.data(0) == Zeros(f.pageSize) && f.pageSize >= 24
    requires t.descHeld(0) == 0 && t.dataHeld(0) == f.pageSize && t.left(n) == 0
    modifies file
    ensures Spends(old(file.quota), file.quota, ok,
                   t.left(0) + SyncWrites(t.descHeld(n)) + SyncWrites(t.dataHeld(n)))
    ensures ok ==> Holds(file.records, at, t.desc(n)) && Holds(file.records, at + 24 * n, t.data(n))
    ensures ok ==> written == Addr(n, f.pageSize)
    ensures ok ==> Grown(old(file.records), file.records, at, at + 24 * n + |t.data(n)|)
  {
    var desc, data;
    ok, written, desc, data := WriteStreams(file, f, mem, blocks, at, n, w, t, dp, tp);
    if ok {
      ok := SyncBoth(desc, data, 24 * n);
    }
  }

  /** write_dump_pages: in the rebuilt file the descriptors and the data of all pages are in place. */
  method WriteDumpPages(file: DumpFile, f: Format, mem: Memory, blocks: seq<Block>, offsetPage: nat, numDumpable: nat)
    returns (ok: bool, written: nat)
    requires FormatOk(f) && Paged(blocks, f.pageSize) && |blocks| > 0
    requires numDumpable == |Pages(blocks, f.pageSize)|
    modifies file
    ensures Spends(old(file.quota), file.quota, ok, SectionWrites(f, mem, Pages(blocks, f.pageSize)))
    ensures ok ==> InFile(file.records, f, offsetPage, offsetPage + 24 * numDumpable,
              Contents(mem, Pages(blocks, f.pageSize), f.pageSize))
    ensures ok ==> written == Addr(numDumpable, f.pageSize)
    ensures ok ==> Grown(old(file.records), file.records, offsetPage,
                         offsetPage + 24 * numDumpable + Addr(numDumpable + 1, f.pageSize))
  {
    ghost var base := offsetPage + 24 * numDumpable;
    ghost var w := MakeWalk(blocks, f.pageSize);
    ghost var t, dp, tp := MakeStreams(f, mem, base, w.pages);
    ok, written := WriteSection(file, f, mem, blocks, offsetPage, numDumpable, w, t, dp, tp);
    if ok {
      PlanInFile(file.records, t, f, mem, offsetPage, base, w.pages, dp, tp);
    }
  }
}
