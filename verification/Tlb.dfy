/**
  The software TLB of cputlb.c: tags, the region that remembers large pages, and the history a TLB is
  judged by.  A virtual address enters as its page number, and a tag as its page number with its flags:
  a tag word of all ones (the value memset leaves) is `Off`, and every other tag has TLB_INVALID_MASK clear.
 */
module Tlb {
  import opened Words

  /** addr_read, addr_write or addr_code. */
  datatype Tag = Off | On(page: nat, notdirty: bool, mmio: bool)

  /** CPUTLBEntry and CPUIOTLBEntry. */
  datatype Entry = Entry(read: Tag, write: Tag, code: Tag, addend: nat)
  datatype Io = Io(addr: nat, attrs: nat)

  /** The tag an access compares with. */
  datatype Access = Load | Store | Fetch

  function TagOf(e: Entry, k: Access): Tag {
    match k
    case Load => e.read
    case Store => e.write
    case Fetch => e.code
  }

  /** An entry after memset to -1. */
  const BLANK := Entry(Off, Off, Off, U64 - 1)

  /** The comparison with `tag & (TARGET_PAGE_MASK | TLB_INVALID_MASK)`. */
  predicate Hits(tag: Tag, page: nat) {
    tag.On? && tag.page == page
  }

  /** No access can hit the entry. */
  predicate Dead(e: Entry) {
    e.read.Off? && e.write.Off? && e.code.Off?
  }

  /** `page >> k`. */
  function Shr(page: nat, k: nat): nat {
    if k == 0 then page else Shr(page, k - 1) / 2
  }

  lemma {:induction false} ShrShr(x: nat, a: nat, b: nat)
    ensures Shr(Shr(x, a), b) == Shr(x, a + b)
  {
    if b > 0 {
      ShrShr(x, a, b - 1);
    }
  }

  /** tlb_flush_addr and tlb_flush_mask: no large page yet, or the 2^k pages whose number starts with `hi`. */
  datatype Region = NoRegion | Region(hi: nat, k: nat)

  /** `(addr & tlb_flush_mask) == tlb_flush_addr`. */
  predicate InRegion(r: Region, page: nat) {
    r.Region? && Shr(page, r.k) == r.hi
  }

  // What happened to a TLB.

  /** A refill with what it stored for a page of 2^k target pages, or a flush. */
  datatype Event =
    | Install(mode: nat, page: nat, k: nat, entry: Entry, io: Io)
    | FlushAll
    | FlushModes(modes: set<nat>)
    | FlushPage(page: nat)
    | FlushPageModes(page: nat, modes: set<nat>)

  /** The flushed page lies in the page that was installed, however large. */
  predicate InPage(o: Event, page: nat)
    requires o.Install?
  {
    Shr(page, o.k) == Shr(o.page, o.k)
  }

  /** The flush asks for the translation to be dropped. */
  predicate Covers(f: Event, o: Event)
    requires o.Install?
  {
    match f
    case FlushAll => true
    case FlushModes(modes) => o.mode in modes
    case FlushPage(page) => InPage(o, page)
    case FlushPageModes(page, modes) => o.mode in modes && InPage(o, page)
    case Install(_, _, _, _, _) => false
  }

  predicate TagFor(tag: Tag, page: nat) {
    tag.Off? || tag.page == page
  }

  predicate Sound(o: Event) {
    o.Install? && TagFor(o.entry.read, o.page) && TagFor(o.entry.write, o.page) && TagFor(o.entry.code, o.page)
  }

  /** The tag without TLB_NOTDIRTY. */
  function Clean(tag: Tag): Tag {
    if tag.On? then tag.(notdirty := false) else tag
  }

  /** The entry is the installed one, up to TLB_NOTDIRTY. */
  predicate Same(e: Entry, o: Entry) {
    e.read == o.read && e.code == o.code && e.addend == o.addend && Clean(e.write) == Clean(o.write)
  }

  /** A large page lies inside the remembered region. */
  predicate Remembered(r: Region, o: Event)
    requires o.Install?
  {
    o.k > 0 ==> r.Region? && o.k <= r.k && Shr(o.page, r.k) == r.hi
  }

  /** No flush after event `h` covers it. */
  ghost predicate Since(log: seq<Event>, h: nat) {
    h < |log| && log[h].Install? && forall j | h < j < |log| :: !Covers(log[j], log[h])
  }

  /** Event `h` installed this pair in mode `m`, and nothing flushed it since. */
  ghost predicate Traced(log: seq<Event>, r: Region, m: nat, e: Entry, io: Io, h: nat) {
    && Since(log, h) && Sound(log[h]) && Remembered(r, log[h])
    && log[h].mode == m && Same(e, log[h].entry) && io == log[h].io
  }

  /** A TLB and iotlb pair is dead, or was installed together after the last flush that covers its page. */
  ghost predicate Fresh(log: seq<Event>, r: Region, m: nat, e: Entry, io: Io) {
    Dead(e) || exists h: nat :: Traced(log, r, m, e, io, h)
  }

  /** The entry only tags pages that hash to the slot. */
  predicate InSlot(e: Entry, i: nat, size: nat)
    requires size > 0
  {
    && (e.read.On? ==> e.read.page % size == i)
    && (e.write.On? ==> e.write.page % size == i)
    && (e.code.On? ==> e.code.page % size == i)
  }

  /** Every address of a remembered large page is in the region. */
  lemma LargePageInRegion(r: Region, o: Event, page: nat)
    requires o.Install? && Remembered(r, o) && o.k > 0 && InPage(o, page)
    ensures InRegion(r, page)
  {
    ShrShr(page, o.k, r.k - o.k);
    ShrShr(o.page, o.k, r.k - o.k);
  }

  /** Whatever the old region contains, the new one contains. */
  predicate Grows(r: Region, r': Region) {
    r.Region? ==> r'.Region? && r.k <= r'.k && Shr(r.hi, r'.k - r.k) == r'.hi
  }

  lemma GrowsRemembers(r: Region, r': Region, o: Event)
    requires o.Install? && Remembered(r, o) && Grows(r, r')
    ensures Remembered(r', o)
  {
    if o.k > 0 {
      ShrShr(o.page, r.k, r'.k - r.k);
    }
  }

  /** A pair stays traced to its origin when the log grows by an event that does not cover it. */
  lemma StillTraced(log: seq<Event>, r: Region, ev: Event, r': Region, m: nat, e: Entry, io: Io, h: nat)
    requires Traced(log, r, m, e, io, h) && !Covers(ev, log[h]) && Grows(r, r')
    ensures Traced(log + [ev], r', m, e, io, h)
  {
    GrowsRemembers(r, r', log[h]);
    var log' := log + [ev];
    assert log'[h] == log[h];
    forall j | h < j < |log'| ensures !Covers(log'[j], log'[h]) {
      if j < |log| {
        assert log'[j] == log[j];
      }
    }
  }

  /** A refill elsewhere keeps a pair fresh. */
  lemma FreshAfterInstall(log: seq<Event>, r: Region, ev: Event, r': Region, m: nat, e: Entry, io: Io)
    requires Fresh(log, r, m, e, io) && ev.Install? && Grows(r, r')
    ensures Fresh(log + [ev], r', m, e, io)
  {
    if !Dead(e) {
      var h: nat :| Traced(log, r, m, e, io, h);
      StillTraced(log, r, ev, r', m, e, io, h);
    }
  }

  /** tlb_flush_entry. */
  function FlushEntry(e: Entry, page: nat): Entry {
    if Hits(e.read, page) || Hits(e.write, page) || Hits(e.code, page) then BLANK else e
  }

  /** Flushing one page outside the region drops exactly what the flush covers. */
  lemma FreshAfterFlushPage(log: seq<Event>, r: Region, ev: Event, page: nat, m: nat, e: Entry, io: Io)
    requires Fresh(log, r, m, e, io) && !InRegion(r, page)
    requires ev == FlushPage(page) || (ev.FlushPageModes? && ev.page == page)
    ensures Fresh(log + [ev], r, m, FlushEntry(e, page), io)
  {
    if !Dead(FlushEntry(e, page)) {
      var h: nat :| Traced(log, r, m, e, io, h);
      if Covers(ev, log[h]) && log[h].k > 0 {
        LargePageInRegion(r, log[h], page);
      }
      StillTraced(log, r, ev, r, m, e, io, h);
    }
  }

  /** A flush of other modes keeps a pair fresh. */
  lemma FreshInOtherMode(log: seq<Event>, r: Region, ev: Event, m: nat, e: Entry, io: Io)
    requires Fresh(log, r, m, e, io)
    requires (ev.FlushModes? && m !in ev.modes) || (ev.FlushPageModes? && m !in ev.modes)
    ensures Fresh(log + [ev], r, m, e, io)
  {
    if !Dead(e) {
      var h: nat :| Traced(log, r, m, e, io, h);
      StillTraced(log, r, ev, r, m, e, io, h);
    }
  }

  /** Changing TLB_NOTDIRTY of the write tag changes nothing else. */
  lemma FreshUpToDirty(log: seq<Event>, r: Region, m: nat, e: Entry, io: Io, tag: Tag)
    requires Fresh(log, r, m, e, io) && Clean(tag) == Clean(e.write)
    ensures Fresh(log, r, m, e.(write := tag), io)
  {
    if !Dead(e.(write := tag)) {
      var h: nat :| Traced(log, r, m, e, io, h);
      assert Traced(log, r, m, e.(write := tag), io, h);
    }
  }

  /** The pair just installed. */
  lemma FreshInstalled(log: seq<Event>, r: Region, ev: Event)
    requires Sound(ev) && Remembered(r, ev)
    ensures Fresh(log + [ev], r, ev.mode, ev.entry, ev.io)
  {
    var log' := log + [ev];
    assert Traced(log', r, ev.mode, ev.entry, ev.io, |log|);
  }

  /** Every large page no flush covered since lies in the region, whether or not an entry is left of it. */
  ghost predicate Recorded(log: seq<Event>, r: Region) {
    forall h: nat | Since(log, h) :: Remembered(r, log[h])
  }

  lemma RecordedAfter(log: seq<Event>, r: Region, ev: Event, r': Region)
    requires Recorded(log, r)
    requires ev.FlushAll? || (Grows(r, r') && (ev.Install? ==> Remembered(r', ev)))
    ensures Recorded(log + [ev], r')
  {
    var log' := log + [ev];
    forall h: nat | Since(log', h) ensures Remembered(r', log'[h]) {
      if h < |log| {
        assert log'[|log|] == ev && log'[h] == log[h];
        assert Since(log, h) by {
          forall j | h < j < |log| ensures !Covers(log[j], log[h]) {
            assert log'[j] == log[j];
          }
        }
        GrowsRemembers(r, r', log[h]);
      }
    }
  }

  // Dirty tracking.

  /** The host address a store through the entry reaches at the start of the page. */
  function HostPage(e: Entry, page: nat, pageSize: nat): nat {
    (page * pageSize + e.addend) % U64
  }

  /** Stores through the entry go straight to host memory. */
  predicate WritesDirectly(e: Entry) {
    e.write.On? && !e.write.notdirty && !e.write.mmio
  }

  /** `addr - start < length` in unsigned arithmetic. */
  predicate HostIn(addr: nat, start: nat, length: nat) {
    (addr - start) % U64 < length
  }

  /** Stores through the entry reach the host range. */
  predicate StoresInto(e: Entry, pageSize: nat, start: nat, length: nat) {
    e.write.On? && HostIn(HostPage(e, e.write.page, pageSize), start, length)
  }

  /** tlb_reset_dirty_range. */
  function ResetDirtyRange(e: Entry, pageSize: nat, start: nat, length: nat): (r: Entry)
    ensures Same(r, e) && (WritesDirectly(r) <==> WritesDirectly(e) && !StoresInto(e, pageSize, start, length))
  {
    if WritesDirectly(e) && StoresInto(e, pageSize, start, length) then
      e.(write := e.write.(notdirty := true))
    else e
  }

  /** tlb_set_dirty1. */
  function SetDirty1(e: Entry, page: nat): (r: Entry)
    ensures Same(r, e)
    ensures Hits(e.write, page) && !e.write.mmio ==> WritesDirectly(r)
    ensures !Hits(e.write, page) || e.write.mmio ==> r == e
  {
    if e.write == On(page, true, false) then e.(write := On(page, false, false)) else e
  }
}
