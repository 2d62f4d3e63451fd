/**
  The operations of cputlb.c on a CPU's TLB: refill with eviction to the victim table, victim hits,
  flushes, and the dirty-tracking updates.  Every run of them keeps each live entry traced to a refill
  that no later flush covers.
 */
module SoftMmu {
  import opened Words
  import opened Tlb

  /** What the memory API says about the target of a refill: address_space_translate_for_iotlb and
      memory_region_section_get_iotlb, as far as tlb_set_page_with_attrs uses them. */
  datatype Target = Target(ram: bool, romd: bool, readonly: bool, clean: bool, watched: bool, host: nat, iotlb: nat)

  /** Page protection bits. */
  datatype Prot = Prot(read: bool, write: bool, exec: bool)

  /** The tags and the addend tlb_set_page_with_attrs computes for the page at address `vaddr`. */
  function Refill(page: nat, vaddr: nat, target: Target, prot: Prot): (e: Entry)
    ensures TagFor(e.read, page) && TagFor(e.write, page) && TagFor(e.code, page)
    ensures (e.read.On? <==> prot.read) && (e.write.On? <==> prot.write) && (e.code.On? <==> prot.exec)
  {
    var isIo := !target.ram && !target.romd;
    var addend := if isIo then 0 else target.host;
    var address := On(page, false, isIo || target.watched);
    Entry(if prot.read then address else Off,
          if !prot.write then Off
          else if (target.ram && target.readonly) || target.romd then address.(mmio := true)
          else if target.ram && target.clean then address.(notdirty := true)
          else address,
          if prot.exec then On(page, false, isIo) else Off,
          (addend - vaddr) % U64)
  }

  /** A load, fetch or store that skips the I/O path reaches the byte of the target it addresses, and only a store to
      writable memory that is not known clean is let through. */
  lemma RefillReaches(page: nat, pageSize: nat, target: Target, prot: Prot, off: nat)
    requires page * pageSize < U64
    ensures var e := Refill(page, page * pageSize, target, prot);
            && ((e.read.On? && !e.read.mmio) || (e.code.On? && !e.code.mmio) || WritesDirectly(e) ==>
                  (page * pageSize + off + e.addend) % U64 == (target.host + off) % U64)
            && (WritesDirectly(e) ==> target.ram && !target.readonly && !target.romd && !target.clean)
  {
    var vaddr := page * pageSize;
    var q := (target.host - vaddr) / U64;
    if target.ram || target.romd {
      assert vaddr + off + (target.host - vaddr) % U64 == target.host + off - q * U64;
    }
  }

  class CpuTlb {
    const modes: nat
    const size: nat
    const vsize: nat
    const pageSize: nat
    const tlb: array2<Entry>
    const vtlb: array2<Entry>
    const io: array2<Io>
    const vio: array2<Io>
    var vtlbIndex: nat
    var region: Region
    ghost var log: seq<Event>

    ghost predicate Shaped()
      reads this
    {
      && size > 0 && vsize > 0 && tlb != vtlb && io != vio
      && tlb.Length0 == io.Length0 == vtlb.Length0 == vio.Length0 == modes
      && tlb.Length1 == io.Length1 == size && vtlb.Length1 == vio.Length1 == vsize
    }

    /** Every live pair of either table is fresh, main entries sit in their own slots, and the region
        remembers every large page. */
    ghost predicate Valid()
      reads this, tlb, vtlb, io, vio
    {
      && Shaped() && Recorded(log, region)
      && (forall m, i | 0 <= m < modes && 0 <= i < size ::
            Fresh(log, region, m, tlb[m, i], io[m, i]) && InSlot(tlb[m, i], i, size))
      && (forall m, k | 0 <= m < modes && 0 <= k < vsize :: Fresh(log, region, m, vtlb[m, k], vio[m, k]))
    }

    constructor (modes: nat, size: nat, vsize: nat, pageSize: nat)
      requires size > 0 && vsize > 0
      ensures Valid() && log == [] && region == NoRegion
      ensures fresh(tlb) && fresh(vtlb) && fresh(io) && fresh(vio)
    {
      this.modes, this.size, this.vsize, this.pageSize := modes, size, vsize, pageSize;
      tlb := new Entry[modes, size]((m, i) => BLANK);
      vtlb := new Entry[modes, vsize]((m, k) => BLANK);
      io := new Io[modes, size]((m, i) => Io(0, 0));
      vio := new Io[modes, vsize]((m, k) => Io(0, 0));
      vtlbIndex, region, log := 0, NoRegion, [];
    }

    /** memset of the rows of one mode. */
    method ClearMode(m: nat)
      requires Shaped() && m < modes
      modifies tlb, vtlb
      ensures forall n, i | 0 <= n < modes && 0 <= i < size :: tlb[n, i] == if n == m then BLANK else old(tlb[n, i])
      ensures forall n, k | 0 <= n < modes && 0 <= k < vsize :: vtlb[n, k] == if n == m then BLANK else old(vtlb[n, k])
    {
      forall i | 0 <= i < size {
        tlb[m, i] := BLANK;
      }
      forall k | 0 <= k < vsize {
        vtlb[m, k] := BLANK;
      }
    }

    /** tlb_flush: nothing survives and no large page is remembered. */
    method Flush()
      requires Valid()
      modifies this, tlb, vtlb
      ensures Valid() && log == old(log) + [FlushAll] && region == NoRegion
      ensures forall m, i | 0 <= m < modes && 0 <= i < size :: Dead(tlb[m, i])
      ensures forall m, k | 0 <= m < modes && 0 <= k < vsize :: Dead(vtlb[m, k])
    {
      forall m, i | 0 <= m < modes && 0 <= i < size {
        tlb[m, i] := BLANK;
      }
      forall m, k | 0 <= m < modes && 0 <= k < vsize {
        vtlb[m, k] := BLANK;
      }
      RecordedAfter(log, region, FlushAll, NoRegion);
      vtlbIndex, region := 0, NoRegion;
      log := log + [FlushAll];
    }

    /** v_tlb_flush_by_mmuidx. */
    method FlushByMmuidx(idxs: seq<nat>)
      requires Valid() && forall x | x in idxs :: x < modes
      modifies this`log, tlb, vtlb
      ensures Valid() && log == old(log) + [FlushModes(set x | x in idxs)]
      ensures forall m, i | m in idxs && 0 <= i < size :: Dead(tlb[m, i])
      ensures forall m, k | m in idxs && 0 <= k < vsize :: Dead(vtlb[m, k])
      ensures forall m, i | 0 <= m < modes && 0 <= i < size && m !in idxs :: tlb[m, i] == old(tlb[m, i])
      ensures forall m, k | 0 <= m < modes && 0 <= k < vsize && m !in idxs :: vtlb[m, k] == old(vtlb[m, k])
    {
      ClearModes(idxs);
      ghost var ev := FlushModes(set x | x in idxs);
      forall m, i | 0 <= m < modes && 0 <= i < size
        ensures Fresh(log + [ev], region, m, tlb[m, i], io[m, i])
      {
        if m !in idxs {
          FreshInOtherMode(log, region, ev, m, tlb[m, i], io[m, i]);
        }
      }
      forall m, k | 0 <= m < modes && 0 <= k < vsize
        ensures Fresh(log + [ev], region, m, vtlb[m, k], vio[m, k])
      {
        if m !in idxs {
          FreshInOtherMode(log, region, ev, m, vtlb[m, k], vio[m, k]);
        }
      }
      RecordedAfter(log, region, ev, region);
      log := log + [ev];
    }

    /** The loop over the listed modes. */
    method ClearModes(idxs: seq<nat>)
      requires Shaped() && forall x | x in idxs :: x < modes
      modifies tlb, vtlb
      ensures forall m, i | 0 <= m < modes && 0 <= i < size :: tlb[m, i] == if m in idxs then BLANK else old(tlb[m, i])
      ensures forall m, k | 0 <= m < modes && 0 <= k < vsize ::
                vtlb[m, k] == if m in idxs then BLANK else old(vtlb[m, k])
    {
      var n := 0;
      while n < |idxs|
        invariant 0 <= n <= |idxs|
        invariant forall m, i | 0 <= m < modes && 0 <= i < size ::
                    tlb[m, i] == if m in idxs[..n] then BLANK else old(tlb[m, i])
        invariant forall m, k | 0 <= m < modes && 0 <= k < vsize ::
                    vtlb[m, k] == if m in idxs[..n] then BLANK else old(vtlb[m, k])
      {
        assert idxs[n] in idxs;
        ClearMode(idxs[n]);
        n := n + 1;
      }
    }

    /** The per-entry part of a page flush for one mode: its main slot and all its victim slots. */
    method FlushPageInMode(m: nat, page: nat)
      requires Shaped() && m < modes
      modifies tlb, vtlb
      ensures forall n, i | 0 <= n < modes && 0 <= i < size ::
                tlb[n, i] == if n == m && i == page % size then FlushEntry(old(tlb[n, i]), page) else old(tlb[n, i])
      ensures forall n, k | 0 <= n < modes && 0 <= k < vsize ::
                vtlb[n, k] == if n == m then FlushEntry(old(vtlb[n, k]), page) else old(vtlb[n, k])
    {
      var i := page % size;
      tlb[m, i] := FlushEntry(tlb[m, i], page);
      var k := 0;
      while k < vsize
        invariant 0 <= k <= vsize
        invariant forall n, j | 0 <= n < modes && 0 <= j < size ::
                    tlb[n, j] == if n == m && j == i then FlushEntry(old(tlb[n, j]), page) else old(tlb[n, j])
        invariant forall n, j | 0 <= n < modes && 0 <= j < vsize ::
                    vtlb[n, j] == if n == m && j < k then FlushEntry(old(vtlb[n, j]), page) else old(vtlb[n, j])
      {
        vtlb[m, k] := FlushEntry(vtlb[m, k], page);
        k := k + 1;
      }
    }

    /** The per-entry part of a page flush for the listed modes. */
    method FlushPageInModes(idxs: seq<nat>, page: nat)
      requires Shaped() && forall x | x in idxs :: x < modes
      modifies tlb, vtlb
      ensures forall m, i | 0 <= m < modes && 0 <= i < size ::
                tlb[m, i] == if m in idxs && i == page % size then FlushEntry(old(tlb[m, i]), page) else old(tlb[m, i])
      ensures forall m, k | 0 <= m < modes && 0 <= k < vsize ::
                vtlb[m, k] == if m in idxs then FlushEntry(old(vtlb[m, k]), page) else old(vtlb[m, k])
    {
      var n := 0;
      while n < |idxs|
        invariant 0 <= n <= |idxs|
        invariant forall m, i | 0 <= m < modes && 0 <= i < size ::
                    tlb[m, i] == if m in idxs[..n] && i == page % size then FlushEntry(old(tlb[m, i]), page)
                      else old(tlb[m, i])
        invariant forall m, k | 0 <= m < modes && 0 <= k < vsize ::
                    vtlb[m, k] == if m in idxs[..n] then FlushEntry(old(vtlb[m, k]), page) else old(vtlb[m, k])
      {
        assert idxs[n] in idxs;
        FlushPageInMode(idxs[n], page);
        n := n + 1;
      }
      assert idxs[..n] == idxs;
    }

    /** What a page flush of the listed modes leaves is fresh for the longer log. */
    lemma PageFlushed(idxs: seq<nat>, page: nat, ev: Event)
      requires Valid() && !InRegion(region, page)
      requires (ev == FlushPage(page) && forall m: nat | m < modes :: m in idxs)
               || ev == FlushPageModes(page, set x | x in idxs)
      ensures forall m, i | 0 <= m < modes && 0 <= i < size ::
                var e := if m in idxs && i == page % size then FlushEntry(tlb[m, i], page) else tlb[m, i];
                Fresh(log + [ev], region, m, e, io[m, i])
      ensures forall m, k | 0 <= m < modes && 0 <= k < vsize ::
                var e := if m in idxs then FlushEntry(vtlb[m, k], page) else vtlb[m, k];
                Fresh(log + [ev], region, m, e, vio[m, k])
    {
      forall m, i | 0 <= m < modes && 0 <= i < size
        ensures var e := if m in idxs && i == page % size then FlushEntry(tlb[m, i], page) else tlb[m, i];
                Fresh(log + [ev], region, m, e, io[m, i])
      {
        var e := tlb[m, i];
        assert Fresh(log, region, m, e, io[m, i]) && InSlot(e, i, size);
        if m in idxs {
          FreshAfterFlushPage(log, region, ev, page, m, e, io[m, i]);
          assert i != page % size ==> FlushEntry(e, page) == e;
        } else {
          FreshInOtherMode(log, region, ev, m, e, io[m, i]);
        }
      }
      forall m, k | 0 <= m < modes && 0 <= k < vsize
        ensures var e := if m in idxs then FlushEntry(vtlb[m, k], page) else vtlb[m, k];
                Fresh(log + [ev], region, m, e, vio[m, k])
      {
        var e := vtlb[m, k];
        assert Fresh(log, region, m, e, vio[m, k]);
        if m in idxs {
          FreshAfterFlushPage(log, region, ev, page, m, e, vio[m, k]);
        } else {
          FreshInOtherMode(log, region, ev, m, e, vio[m, k]);
        }
      }
    }

    /** The modes in the order tlb_flush_page visits them. */
    static function AllModes(n: nat): (all: seq<nat>)
      ensures forall m: nat :: m in all <==> m < n
    {
      if n == 0 then [] else AllModes(n - 1) + [n - 1]
    }

    /** No access hits anything. */
    ghost predicate Empty()
      requires Shaped()
      reads this, tlb, vtlb
    {
      && (forall m, i | 0 <= m < modes && 0 <= i < size :: Dead(tlb[m, i]))
      && (forall m, k | 0 <= m < modes && 0 <= k < vsize :: Dead(vtlb[m, k]))
    }

    /** Nothing is left in these modes. */
    ghost predicate ModesEmpty(idxs: seq<nat>)
      requires Shaped()
      reads this, tlb, vtlb
    {
      && (forall m, i | m in idxs && 0 <= m < modes && 0 <= i < size :: Dead(tlb[m, i]))
      && (forall m, k | m in idxs && 0 <= m < modes && 0 <= k < vsize :: Dead(vtlb[m, k]))
    }

    /** Refill `h` was for a large page that contains `page`, and no flush asked for it since. */
    ghost predicate LargePageAt(h: nat, page: nat)
      reads this
    {
      Since(log, h) && log[h].k > 0 && InPage(log[h], page)
    }

    lemma LargePagesRemembered(page: nat)
      requires Valid()
      ensures (exists h: nat :: LargePageAt(h, page)) ==> InRegion(region, page)
    {
      if h: nat :| LargePageAt(h, page) {
        LargePageInRegion(region, log[h], page);
      }
    }

    /** tlb_flush_page: an address of a remembered large page flushes everything. */
    method FlushOnePage(page: nat)
      requires Valid()
      modifies this, tlb, vtlb
      ensures Valid()
      ensures old(InRegion(region, page)) ==> log == old(log) + [FlushAll] + [FlushPage(page)] && Empty()
      ensures !old(InRegion(region, page)) ==> log == old(log) + [FlushPage(page)]
      ensures (exists h: nat :: old(LargePageAt(h, page))) ==> Empty()
      ensures forall m, i | 0 <= m < modes && 0 <= i < size && !old(InRegion(region, page)) ::
                tlb[m, i] == if i == page % size then FlushEntry(old(tlb[m, i]), page) else old(tlb[m, i])
      ensures forall m, k | 0 <= m < modes && 0 <= k < vsize && !old(InRegion(region, page)) ::
                vtlb[m, k] == FlushEntry(old(vtlb[m, k]), page)
    {
      LargePagesRemembered(page);
      ghost var ev := FlushPage(page);
      if InRegion(region, page) {
        Flush();
      } else {
        PageFlushed(AllModes(modes), page, ev);
        FlushPageInModes(AllModes(modes), page);
      }
      RecordedAfter(log, region, ev, region);
      log := log + [ev];
    }

    /** tlb_flush_page_by_mmuidx: an address of a remembered large page clears the listed modes. */
    method FlushPageByMmuidx(page: nat, idxs: seq<nat>)
      requires Valid() && forall x | x in idxs :: x < modes
      modifies this`log, tlb, vtlb
      ensures Valid()
      ensures InRegion(region, page) ==>
                log == old(log) + [FlushModes(set x | x in idxs)] + [FlushPageModes(page, set x | x in idxs)]
      ensures !InRegion(region, page) ==> log == old(log) + [FlushPageModes(page, set x | x in idxs)]
      ensures (exists h: nat :: old(LargePageAt(h, page))) ==> ModesEmpty(idxs)
      ensures forall m, i | 0 <= m < modes && 0 <= i < size && m !in idxs :: tlb[m, i] == old(tlb[m, i])
      ensures forall m, k | 0 <= m < modes && 0 <= k < vsize && m !in idxs :: vtlb[m, k] == old(vtlb[m, k])
      ensures forall m, i | m in idxs && 0 <= m < modes && 0 <= i < size && !InRegion(region, page) ::
                tlb[m, i] == if i == page % size then FlushEntry(old(tlb[m, i]), page) else old(tlb[m, i])
      ensures forall m, k | m in idxs && 0 <= m < modes && 0 <= k < vsize && !InRegion(region, page) ::
                vtlb[m, k] == FlushEntry(old(vtlb[m, k]), page)
    {
      LargePagesRemembered(page);
      ghost var ev := FlushPageModes(page, set x | x in idxs);
      if InRegion(region, page) {
        FlushByMmuidx(idxs);
        ListedDead(idxs, ev);
      } else {
        PageFlushed(idxs, page, ev);
        FlushPageInModes(idxs, page);
      }
      RecordedAfter(log, region, ev, region);
      log := log + [ev];
    }

    /** With the listed modes dead, a flush of those modes leaves everything fresh. */
    lemma ListedDead(idxs: seq<nat>, ev: Event)
      requires Valid() && ev.FlushPageModes? && ev.modes == set x | x in idxs
      requires forall m, i | m in idxs && 0 <= m < modes && 0 <= i < size :: Dead(tlb[m, i])
      requires forall m, k | m in idxs && 0 <= m < modes && 0 <= k < vsize :: Dead(vtlb[m, k])
      ensures forall m, i | 0 <= m < modes && 0 <= i < size :: Fresh(log + [ev], region, m, tlb[m, i], io[m, i])
      ensures forall m, k | 0 <= m < modes && 0 <= k < vsize :: Fresh(log + [ev], region, m, vtlb[m, k], vio[m, k])
    {
      forall m, i | 0 <= m < modes && 0 <= i < size ensures Fresh(log + [ev], region, m, tlb[m, i], io[m, i]) {
        if m !in idxs {
          FreshInOtherMode(log, region, ev, m, tlb[m, i], io[m, i]);
        }
      }
      forall m, k | 0 <= m < modes && 0 <= k < vsize ensures Fresh(log + [ev], region, m, vtlb[m, k], vio[m, k]) {
        if m !in idxs {
          FreshInOtherMode(log, region, ev, m, vtlb[m, k], vio[m, k]);
        }
      }
    }

    /** tlb_add_large_page: the region grows to the smallest aligned power of two that contains both. */
    method AddLargePage(page: nat, k: nat)
      modifies `region
      ensures Grows(old(region), region)
      ensures region.Region? && k <= region.k && Shr(page, region.k) == region.hi
      ensures old(region).NoRegion? ==> region.k == k
      ensures forall j | old(region).Region? && old(region).k <= j && k <= j < region.k ::
                Shr(old(region).hi, j - old(region).k) != Shr(page, j)
    {
      if region.NoRegion? {
        region := Region(Shr(page, k), k);
        return;
      }
      var old' := region;
      var mask := if k > region.k then k else region.k;
      while Shr(old'.hi, mask - old'.k) != Shr(page, mask)
        invariant mask >= old'.k && mask >= k
        invariant forall j | old'.k <= j && k <= j < mask :: Shr(old'.hi, j - old'.k) != Shr(page, j)
        decreases Shr(old'.hi, mask - old'.k) + Shr(page, mask)
      {
        mask := mask + 1;
      }
      region := Region(Shr(old'.hi, mask - old'.k), mask);
    }

    /** The pair in the slot moves to the victim table and the new one takes its place. */
    method Evict(m: nat, index: nat, vidx: nat, e: Entry, x: Io)
      requires Valid() && m < modes && index < size && vidx < vsize
      requires Fresh(log, region, m, e, x) && InSlot(e, index, size)
      modifies tlb, vtlb, io, vio
      ensures Valid() && tlb[m, index] == e && io[m, index] == x
      ensures vtlb[m, vidx] == old(tlb[m, index]) && vio[m, vidx] == old(io[m, index])
      ensures forall n, i | 0 <= n < modes && 0 <= i < size && !(n == m && i == index) ::
                tlb[n, i] == old(tlb[n, i]) && io[n, i] == old(io[n, i])
      ensures forall n, j | 0 <= n < modes && 0 <= j < vsize && !(n == m && j == vidx) ::
                vtlb[n, j] == old(vtlb[n, j]) && vio[n, j] == old(vio[n, j])
    {
      vtlb[m, vidx] := tlb[m, index];
      vio[m, vidx] := io[m, index];
      io[m, index] := x;
      tlb[m, index] := e;
    }

    /** tlb_set_page_with_attrs for a page of 2^k target pages: the old pair moves to the victim table. */
    method SetPage(m: nat, page: nat, k: nat, target: Target, prot: Prot, attrs: nat)
      requires Valid() && m < modes
      modifies this, tlb, vtlb, io, vio
      ensures Valid()
      ensures tlb[m, page % size] == Refill(page, page * pageSize, target, prot)
      ensures io[m, page % size] == Io((target.iotlb - page * pageSize) % U64, attrs)
      ensures vtlb[m, old(vtlbIndex) % vsize] == old(tlb[m, page % size])
      ensures vio[m, old(vtlbIndex) % vsize] == old(io[m, page % size])
      ensures forall n, i | 0 <= n < modes && 0 <= i < size && !(n == m && i == page % size) ::
                tlb[n, i] == old(tlb[n, i]) && io[n, i] == old(io[n, i])
      ensures forall n, j | 0 <= n < modes && 0 <= j < vsize && !(n == m && j == old(vtlbIndex) % vsize) ::
                vtlb[n, j] == old(vtlb[n, j]) && vio[n, j] == old(vio[n, j])
      ensures log == old(log) + [Install(m, page, k, tlb[m, page % size], io[m, page % size])]
      ensures k > 0 ==> InRegion(region, page)
    {
      var index: nat, vidx: nat := page % size, vtlbIndex % vsize;
      vtlbIndex := vtlbIndex + 1;
      ghost var region0 := region;
      if k > 0 {
        AddLargePage(page, k);
      }
      var e, x := Refill(page, page * pageSize, target, prot), Io((target.iotlb - page * pageSize) % U64, attrs);
      ghost var ev := Install(m, page, k, e, x);
      Installed(region0, ev);
      RecordedAfter(log, region0, ev, region);
      log := log + [ev];
      Evict(m, index, vidx, e, x);
    }

    /** A refill leaves every pair already there fresh. */
    lemma Installed(r: Region, ev: Event)
      requires Shaped() && Sound(ev) && Grows(r, region) && Remembered(region, ev)
      requires forall m, i | 0 <= m < modes && 0 <= i < size :: Fresh(log, r, m, tlb[m, i], io[m, i])
      requires forall m, k | 0 <= m < modes && 0 <= k < vsize :: Fresh(log, r, m, vtlb[m, k], vio[m, k])
      ensures forall m, i | 0 <= m < modes && 0 <= i < size :: Fresh(log + [ev], region, m, tlb[m, i], io[m, i])
      ensures forall m, k | 0 <= m < modes && 0 <= k < vsize :: Fresh(log + [ev], region, m, vtlb[m, k], vio[m, k])
      ensures Fresh(log + [ev], region, ev.mode, ev.entry, ev.io)
    {
      FreshInstalled(log, region, ev);
      forall m, i | 0 <= m < modes && 0 <= i < size ensures Fresh(log + [ev], region, m, tlb[m, i], io[m, i]) {
        FreshAfterInstall(log, r, ev, region, m, tlb[m, i], io[m, i]);
      }
      forall m, k | 0 <= m < modes && 0 <= k < vsize ensures Fresh(log + [ev], region, m, vtlb[m, k], vio[m, k]) {
        FreshAfterInstall(log, r, ev, region, m, vtlb[m, k], vio[m, k]);
      }
    }

    /** victim_tlb_hit, called with the slot of the page: on a hit the TLB and iotlb pairs change places. */
    method VictimHit(m: nat, index: nat, k: Access, page: nat) returns (hit: bool)
      requires Valid() && m < modes && index == page % size
      modifies tlb, vtlb, io, vio
      ensures Valid()
      ensures hit <==> exists v | 0 <= v < vsize :: old(TagOf(vtlb[m, v], k)) == On(page, false, false)
      ensures hit ==> TagOf(tlb[m, index], k) == On(page, false, false)
      ensures hit ==> exists v | 0 <= v < vsize ::
                        && tlb[m, index] == old(vtlb[m, v]) && io[m, index] == old(vio[m, v])
                        && vtlb[m, v] == old(tlb[m, index]) && vio[m, v] == old(io[m, index])
                        && (forall n, j | 0 <= n < modes && 0 <= j < vsize && !(n == m && j == v) ::
                              vtlb[n, j] == old(vtlb[n, j]) && vio[n, j] == old(vio[n, j]))
      ensures forall n, i | 0 <= n < modes && 0 <= i < size && !(n == m && i == index) ::
                tlb[n, i] == old(tlb[n, i]) && io[n, i] == old(io[n, i])
      ensures !hit ==> unchanged(tlb) && unchanged(vtlb) && unchanged(io) && unchanged(vio)
    {
      var vidx := 0;
      while vidx < vsize
        invariant 0 <= vidx <= vsize
        invariant forall v | 0 <= v < vidx :: TagOf(vtlb[m, v], k) != On(page, false, false)
        invariant Valid() && unchanged(tlb) && unchanged(vtlb) && unchanged(io) && unchanged(vio)
      {
        if TagOf(vtlb[m, vidx], k) == On(page, false, false) {
          SameSlot(vtlb[m, vidx], vio[m, vidx], m, k, page);
          tlb[m, index], vtlb[m, vidx] := vtlb[m, vidx], tlb[m, index];
          io[m, index], vio[m, vidx] := vio[m, vidx], io[m, index];
          return true;
        }
        vidx := vidx + 1;
      }
      return false;
    }

    /** A fresh entry that tags a page in one way tags no other page in any way. */
    lemma SameSlot(e: Entry, x: Io, m: nat, k: Access, page: nat)
      requires size > 0 && Fresh(log, region, m, e, x) && Hits(TagOf(e, k), page)
      ensures InSlot(e, page % size, size)
    {
      var h: nat :| Traced(log, region, m, e, x, h);
    }

    /** Refill `h` put this pair there for this page and mode, up to TLB_NOTDIRTY, and no flush asked for it since. */
    ghost predicate PutBy(h: nat, m: nat, page: nat, e: Entry, x: Io)
      reads this
    {
      Since(log, h) && log[h].mode == m && log[h].page == page && Same(e, log[h].entry) && x == log[h].io
    }

    /** No stale hit: what an access hits in either table is a pair installed for that page after the last
        flush that covers it, and in the main table it is found in the slot of the page only. */
    lemma NoStaleHit(m: nat, i: nat, k: Access, page: nat)
      requires Valid() && m < modes
      ensures i < size && Hits(TagOf(tlb[m, i], k), page) ==>
                i == page % size && exists h: nat :: PutBy(h, m, page, tlb[m, i], io[m, i])
      ensures i < vsize && Hits(TagOf(vtlb[m, i], k), page) ==>
                exists h: nat :: PutBy(h, m, page, vtlb[m, i], vio[m, i])
    {
      if i < size && Hits(TagOf(tlb[m, i], k), page) {
        var h: nat :| Traced(log, region, m, tlb[m, i], io[m, i], h);
        assert PutBy(h, m, page, tlb[m, i], io[m, i]);
      }
      if i < vsize && Hits(TagOf(vtlb[m, i], k), page) {
        var h: nat :| Traced(log, region, m, vtlb[m, i], vio[m, i], h);
        assert PutBy(h, m, page, vtlb[m, i], vio[m, i]);
      }
    }

    /** The lookup of an access: the main slot, then the victim table; a miss is left to tlb_fill. */
    method Probe(m: nat, k: Access, page: nat) returns (found: bool)
      requires Valid() && m < modes
      modifies tlb, vtlb, io, vio
      ensures Valid()
      ensures found <==> old(Hits(TagOf(tlb[m, page % size], k), page))
                         || exists v | 0 <= v < vsize :: old(TagOf(vtlb[m, v], k)) == On(page, false, false)
      ensures found ==> Hits(TagOf(tlb[m, page % size], k), page)
      ensures found ==> exists h: nat :: PutBy(h, m, page, tlb[m, page % size], io[m, page % size])
    {
      var index: nat := page % size;
      found := Hits(TagOf(tlb[m, index], k), page);
      if !found {
        found := VictimHit(m, index, k, page);
      }
      NoStaleHit(m, index, k, page);
    }

    /** The loops of tlb_reset_dirty over the entries of one mode. */
    method ResetDirtyInMode(m: nat, start: nat, length: nat)
      requires Shaped() && m < modes
      modifies tlb, vtlb
      ensures forall n, i | 0 <= n < modes && 0 <= i < size ::
                tlb[n, i] == if n == m then ResetDirtyRange(old(tlb[n, i]), pageSize, start, length) else old(tlb[n, i])
      ensures forall n, k | 0 <= n < modes && 0 <= k < vsize ::
                vtlb[n, k] == if n == m then ResetDirtyRange(old(vtlb[n, k]), pageSize, start, length)
                  else old(vtlb[n, k])
    {
      var i := 0;
      while i < size
        invariant 0 <= i <= size
        invariant forall n, j | 0 <= n < modes && 0 <= j < size ::
                    tlb[n, j] == if n == m && j < i then ResetDirtyRange(old(tlb[n, j]), pageSize, start, length)
                      else old(tlb[n, j])
        invariant unchanged(vtlb)
      {
        tlb[m, i] := ResetDirtyRange(tlb[m, i], pageSize, start, length);
        i := i + 1;
      }
      var k := 0;
      while k < vsize
        invariant 0 <= k <= vsize
        invariant forall n, j | 0 <= n < modes && 0 <= j < size ::
                    tlb[n, j] == if n == m then ResetDirtyRange(old(tlb[n, j]), pageSize, start, length)
                      else old(tlb[n, j])
        invariant forall n, j | 0 <= n < modes && 0 <= j < vsize ::
                    vtlb[n, j] == if n == m && j < k then ResetDirtyRange(old(vtlb[n, j]), pageSize, start, length)
                      else old(vtlb[n, j])
      {
        vtlb[m, k] := ResetDirtyRange(vtlb[m, k], pageSize, start, length);
        k := k + 1;
      }
    }

    /** tlb_reset_dirty: afterwards no store reaches the host range without being noticed, and no store
        elsewhere is slowed down. */
    method ResetDirty(start: nat, length: nat)
      requires Valid()
      modifies tlb, vtlb
      ensures Valid()
      ensures forall m, i | 0 <= m < modes && 0 <= i < size ::
                && Same(tlb[m, i], old(tlb[m, i]))
                && (WritesDirectly(tlb[m, i])
                    <==> old(WritesDirectly(tlb[m, i])) && !StoresInto(tlb[m, i], pageSize, start, length))
      ensures forall m, k | 0 <= m < modes && 0 <= k < vsize ::
                && Same(vtlb[m, k], old(vtlb[m, k]))
                && (WritesDirectly(vtlb[m, k])
                    <==> old(WritesDirectly(vtlb[m, k])) && !StoresInto(vtlb[m, k], pageSize, start, length))
    {
      DirtyReset(start, length);
      var m := 0;
      while m < modes
        invariant 0 <= m <= modes
        invariant forall n, i | 0 <= n < modes && 0 <= i < size ::
                    tlb[n, i] == if n < m then ResetDirtyRange(old(tlb[n, i]), pageSize, start, length)
                      else old(tlb[n, i])
        invariant forall n, k | 0 <= n < modes && 0 <= k < vsize ::
                    vtlb[n, k] == if n < m then ResetDirtyRange(old(vtlb[n, k]), pageSize, start, length)
                      else old(vtlb[n, k])
      {
        ResetDirtyInMode(m, start, length);
        m := m + 1;
      }
    }

    /** Resetting the dirty state keeps every pair fresh. */
    lemma DirtyReset(start: nat, length: nat)
      requires Valid()
      ensures forall m, i | 0 <= m < modes && 0 <= i < size ::
                Fresh(log, region, m, ResetDirtyRange(tlb[m, i], pageSize, start, length), io[m, i])
      ensures forall m, k | 0 <= m < modes && 0 <= k < vsize ::
                Fresh(log, region, m, ResetDirtyRange(vtlb[m, k], pageSize, start, length), vio[m, k])
    {
      forall m, i | 0 <= m < modes && 0 <= i < size
        ensures Fresh(log, region, m, ResetDirtyRange(tlb[m, i], pageSize, start, length), io[m, i])
      {
        FreshUpToDirty(log, region, m, tlb[m, i], io[m, i], ResetDirtyRange(tlb[m, i], pageSize, start, length).write);
      }
      forall m, k | 0 <= m < modes && 0 <= k < vsize
        ensures Fresh(log, region, m, ResetDirtyRange(vtlb[m, k], pageSize, start, length), vio[m, k])
      {
        FreshUpToDirty(log, region, m, vtlb[m, k], vio[m, k],
          ResetDirtyRange(vtlb[m, k], pageSize, start, length).write);
      }
    }

    /** tlb_set_dirty: every entry that can store to the page does so directly again, and no other changes. */
    method SetDirty(page: nat)
      requires Valid()
      modifies tlb, vtlb
      ensures Valid()
      ensures forall m, i | 0 <= m < modes && 0 <= i < size ::
                && Same(tlb[m, i], old(tlb[m, i]))
                && (if Hits(tlb[m, i].write, page) && !tlb[m, i].write.mmio then WritesDirectly(tlb[m, i])
                    else tlb[m, i] == old(tlb[m, i]))
      ensures forall m, k | 0 <= m < modes && 0 <= k < vsize ::
                && Same(vtlb[m, k], old(vtlb[m, k]))
                && (if Hits(vtlb[m, k].write, page) && !vtlb[m, k].write.mmio then WritesDirectly(vtlb[m, k])
                    else vtlb[m, k] == old(vtlb[m, k]))
    {
      DirtySet(page);
      var i: nat := page % size;
      var m := 0;
      while m < modes
        invariant 0 <= m <= modes && unchanged(vtlb)
        invariant forall n, j | 0 <= n < modes && 0 <= j < size ::
                    tlb[n, j] == if n < m then SetDirty1(old(tlb[n, j]), page) else old(tlb[n, j])
      {
        tlb[m, i] := SetDirty1(tlb[m, i], page);
        m := m + 1;
      }
      m := 0;
      while m < modes
        invariant 0 <= m <= modes
        invariant forall n, j | 0 <= n < modes && 0 <= j < size :: tlb[n, j] == SetDirty1(old(tlb[n, j]), page)
        invariant forall n, j | 0 <= n < modes && 0 <= j < vsize ::
                    vtlb[n, j] == if n < m then SetDirty1(old(vtlb[n, j]), page) else old(vtlb[n, j])
      {
        SetDirtyVictims(m, page);
        m := m + 1;
      }
    }

    /** The loop of tlb_set_dirty over the victim entries of one mode. */
    method SetDirtyVictims(m: nat, page: nat)
      requires Shaped() && m < modes
      modifies vtlb
      ensures forall n, k | 0 <= n < modes && 0 <= k < vsize ::
                vtlb[n, k] == if n == m then SetDirty1(old(vtlb[n, k]), page) else old(vtlb[n, k])
    {
      var k := 0;
      while k < vsize
        invariant 0 <= k <= vsize
        invariant forall n, j | 0 <= n < modes && 0 <= j < vsize ::
                    vtlb[n, j] == if n == m && j < k then SetDirty1(old(vtlb[n, j]), page) else old(vtlb[n, j])
      {
        vtlb[m, k] := SetDirty1(vtlb[m, k], page);
        k := k + 1;
      }
    }

    /** Setting the dirty state keeps every pair fresh, and main entries outside the slot do not change. */
    lemma DirtySet(page: nat)
      requires Valid()
      ensures forall m, i | 0 <= m < modes && 0 <= i < size ::
                && Fresh(log, region, m, SetDirty1(tlb[m, i], page), io[m, i])
                && (i != page % size ==> SetDirty1(tlb[m, i], page) == tlb[m, i])
      ensures forall m, k | 0 <= m < modes && 0 <= k < vsize ::
                Fresh(log, region, m, SetDirty1(vtlb[m, k], page), vio[m, k])
    {
      forall m, i | 0 <= m < modes && 0 <= i < size
        ensures Fresh(log, region, m, SetDirty1(tlb[m, i], page), io[m, i])
        ensures i != page % size ==> SetDirty1(tlb[m, i], page) == tlb[m, i]
      {
        assert InSlot(tlb[m, i], i, size);
        FreshUpToDirty(log, region, m, tlb[m, i], io[m, i], SetDirty1(tlb[m, i], page).write);
      }
      forall m, k | 0 <= m < modes && 0 <= k < vsize
        ensures Fresh(log, region, m, SetDirty1(vtlb[m, k], page), vio[m, k])
      {
        FreshUpToDirty(log, region, m, vtlb[m, k], vio[m, k], SetDirty1(vtlb[m, k], page).write);
      }
    }
  }
}
