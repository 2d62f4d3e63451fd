/**
  The ELF format of a guest dump (dump.c): the headers promise where each piece of guest memory sits in
  the file before the memory is written, and three separate walks over the blocks must agree on it.
 */
module ElfCore {
  import opened Words
  import opened GuestBlocks
  import opened Pieces
  import opened Writes

  const PN_XNUM: nat := 0xffff

  /** has_filter, begin and length. */
  datatype Filter = Unfiltered | Range(begin: nat, length: nat)

  /** The block is not out of the range. */
  predicate InRange(b: Block, f: Filter) {
    f.Range? ==> b.start < f.begin + f.length && f.begin < b.end
  }

  /** The part of the block that is dumped. */
  function Lo(b: Block, f: Filter): nat {
    if f.Range? && f.begin > b.start then f.begin else b.start
  }

  function Hi(b: Block, f: Filter): nat {
    if f.Range? && f.begin + f.length < b.end then f.begin + f.length else b.end
  }

  ghost function Part(mem: Memory, b: Block, f: Filter): (s: seq<Byte>)
    ensures |s| == if InRange(b, f) && Lo(b, f) < Hi(b, f) then Hi(b, f) - Lo(b, f) else 0
  {
    if InRange(b, f) && Lo(b, f) < Hi(b, f) then Bytes(mem, b.host + (Lo(b, f) - b.start), Hi(b, f) - Lo(b, f)) else []
  }

  ghost function Parts(mem: Memory, blocks: seq<Block>, f: Filter): (parts: seq<seq<Byte>>)
    ensures |parts| == |blocks| && forall i | 0 <= i < |blocks| :: parts[i] == Part(mem, blocks[i], f)
  {
    seq(|blocks|, i requires 0 <= i < |blocks| => Part(mem, blocks[i], f))
  }

  /** The dumped memory of the first `n` blocks. */
  ghost function Stored(mem: Memory, blocks: seq<Block>, f: Filter, n: nat): seq<Byte>
    requires n <= |blocks|
  {
    Cat(Parts(mem, blocks, f), n)
  }

  lemma BytesAppend(mem: Memory, host: nat, a: nat, b: nat)
    ensures Bytes(mem, host, a) + Bytes(mem, host + a, b) == Bytes(mem, host, a + b)
  {
  }

  /** The file position of a guest address and the bytes stored from there on, or nothing. */
  datatype Place = Nowhere | Place(offset: nat, size: nat)

  /** Byte `at + k` of the file is the guest byte at `addr + k`. */
  ghost predicate Same(file: seq<Byte>, at: nat, mem: Memory, blocks: seq<Block>, addr: nat, k: nat) {
    at + k < |file| && exists host: nat :: MapsTo(blocks, addr + k, host) && file[at + k] == mem(host)
  }

  /** The guest bytes of [addr, addr + size) stand at `at` of the file. */
  ghost predicate Reads(file: seq<Byte>, at: nat, mem: Memory, blocks: seq<Block>, addr: nat, size: nat) {
    at + size <= |file| && forall k: nat | k < size :: Same(file, at, mem, blocks, addr, k)
  }

  /** The guest address is in the dumped part of block `i`. */
  predicate Dumps(blocks: seq<Block>, f: Filter, i: nat, addr: nat) {
    i < |blocks| && InRange(blocks[i], f) && Lo(blocks[i], f) <= addr < Hi(blocks[i], f)
  }

  lemma PartByte(mem: Memory, b: Block, f: Filter, j: nat)
    requires j < |Part(mem, b, f)|
    ensures Part(mem, b, f)[j] == mem(b.host + (Lo(b, f) + j - b.start))
  {
  }

  /** A stretch of the file that copies a stretch of one block reads as guest memory. */
  lemma CopyReads(file: seq<Byte>, at: nat, mem: Memory, blocks: seq<Block>, addr: nat, size: nat, i: nat)
    requires at + size <= |file| && HoldsAddr(blocks, i, addr) && addr + size <= blocks[i].end
    requires forall k: nat | k < size :: Copied(file, at, mem, blocks[i], addr, k)
    ensures Reads(file, at, mem, blocks, addr, size)
  {
    forall k: nat | k < size ensures Same(file, at, mem, blocks, addr, k) {
      assert Copied(file, at, mem, blocks[i], addr, k);
      assert HoldsAddr(blocks, i, addr + k);
      assert MapsTo(blocks, addr + k, blocks[i].host + (addr + k - blocks[i].start));
    }
  }

  predicate Copied(file: seq<Byte>, at: nat, mem: Memory, b: Block, addr: nat, k: nat)
    requires b.start <= addr
  {
    at + k < |file| && file[at + k] == mem(b.host + (addr + k - b.start))
  }

  /** The dumped part of block `i` stands after that of the earlier blocks. */
  lemma ByteStands(mem: Memory, blocks: seq<Block>, f: Filter, i: nat, addr: nat, k: nat, all: seq<Byte>, at: nat)
    requires Dumps(blocks, f, i, addr) && addr + k < Hi(blocks[i], f)
    requires all == Stored(mem, blocks, f, |blocks|) && at == |Stored(mem, blocks, f, i)| + addr - Lo(blocks[i], f)
    ensures Copied(all, at, mem, blocks[i], addr, k)
  {
    var j := addr + k - Lo(blocks[i], f);
    CatAt(Parts(mem, blocks, f), i, j);
    PartByte(mem, blocks[i], f, j);
  }

  lemma BlockStands(mem: Memory, blocks: seq<Block>, f: Filter, i: nat, addr: nat, size: nat, all: seq<Byte>, at: nat)
    requires Dumps(blocks, f, i, addr) && addr + size <= Hi(blocks[i], f)
    requires all == Stored(mem, blocks, f, |blocks|) && at == |Stored(mem, blocks, f, i)| + addr - Lo(blocks[i], f)
    ensures Reads(all, at, mem, blocks, addr, size)
  {
    forall k: nat | k < size ensures Copied(all, at, mem, blocks[i], addr, k) {
      ByteStands(mem, blocks, f, i, addr, k, all, at);
    }
    ByteStands(mem, blocks, f, i, addr, if size > 0 then size - 1 else 0, all, at);
    CopyReads(all, at, mem, blocks, addr, size, i);
  }

  /** What is read from dumped memory is read from a file that ends with it. */
  lemma ReadsBehind(front: seq<Byte>, all: seq<Byte>, at: nat, mem: Memory, blocks: seq<Block>, addr: nat, size: nat)
    requires Reads(all, at, mem, blocks, addr, size)
    ensures Reads(front + all, |front| + at, mem, blocks, addr, size)
  {
    var file, at' := front + all, |front| + at;
    forall k: nat | k < size ensures Same(file, at', mem, blocks, addr, k) {
      assert Same(all, at, mem, blocks, addr, k);
    }
  }

  lemma ReadsAt(file: seq<Byte>, front: seq<Byte>, offset: nat, all: seq<Byte>, mem: Memory, blocks: seq<Block>,
                phys: nat,
                place: Place)
    requires file == front + all && place.Place? && |front| == offset <= place.offset
    requires Reads(all, place.offset - offset, mem, blocks, phys, place.size)
    ensures Reads(file, place.offset, mem, blocks, phys, place.size) && place.offset + place.size <= |file|
  {
    ReadsBehind(front, all, place.offset - offset, mem, blocks, phys, place.size);
  }

  /** A memory mapping to be described by a PT_LOAD. */
  datatype Mapping = Mapping(phys: nat, virt: nat, length: nat)

  /** What goes before the notes, with the fields that place memory; an absent piece has offset -1. */
  datatype Header =
    | Ehdr
    | NoteHdr(offset: nat, size: nat)
    | Load(phys: nat, offset: nat, filesz: nat, memsz: nat)
    | Shdr

  /** sizeof of the ELF structures of either class. */
  function SizeOf(h: Header, wide: bool): nat {
    match h
    case Ehdr => if wide then 64 else 52
    case Shdr => if wide then 64 else 40
    case NoteHdr(_, _) => if wide then 56 else 32
    case Load(_, _, _, _) => if wide then 56 else 32
  }

  /** The size of `n` program headers. */
  function PhdrsSize(n: nat, wide: bool): nat {
    if wide then 56 * n else 32 * n
  }

  lemma PhdrsJoin(m: nat, n: nat, wide: bool)
    ensures PhdrsSize(m, wide) + PhdrsSize(n, wide) == PhdrsSize(m + n, wide)
  {
  }

  /** cpu_to_dump64 or cpu_to_dump32 of a 64-bit value. */
  function Narrow(x: nat, wide: bool): nat {
    if wide then x % U64 else x % U32
  }

  /** p_offset and p_filesz as write_elf64_load or write_elf32_load stores them. */
  function LoadOf(m: Mapping, place: Place, wide: bool): Header {
    var offset := if place.Place? then place.offset else U64 - 1;
    var size := if place.Place? then place.size else 0;
    Load(Narrow(m.phys, wide), Narrow(offset, wide), Narrow(size, wide), Narrow(m.length, wide))
  }

  /** The place fits the offset and size fields of a program header. */
  predicate Fits(place: Place, wide: bool)
    requires place.Place?
  {
    wide || (place.offset < U32 && place.size < U32)
  }

  /** The program header names the place. */
  predicate Names(h: Header, place: Place)
    requires h.Load? && place.Place?
  {
    h.offset == place.offset && h.filesz == place.size
  }

  /** A program header names the true place exactly when the place fits its fields. */
  lemma LoadFits(m: Mapping, place: Place, wide: bool)
    requires place.Place? && place.offset < U64 && place.size < U64
    ensures Names(LoadOf(m, place, wide), place) <==> Fits(place, wide)
  {
  }

  /** The dumped part of sorted blocks is no longer than the address space up to their end. */
  lemma {:induction false} StoredSize(mem: Memory, blocks: seq<Block>, f: Filter, n: nat)
    requires n <= |blocks| && Sorted(blocks)
    ensures |Stored(mem, blocks, f, n)| <= if n == 0 then 0 else blocks[n - 1].end
  {
    if n > 0 {
      StoredSize(mem, blocks, f, n - 1);
      if n > 1 {
        assert blocks[n - 2].end <= blocks[n - 1].start;
      }
    }
  }

  /** The writes of write_memory: the pages, and what is left. */
  function PageWrites(size: nat, pageSize: nat): nat
    requires pageSize > 0
  {
    size / pageSize + if size % pageSize != 0 then 1 else 0
  }

  lemma OneMore(i: nat, pageSize: nat)
    ensures (i + 1) * pageSize == i * pageSize + pageSize
  {
  }

  /** The writes for the dumped part of a block. */
  function BlockWrites(b: Block, f: Filter, pageSize: nat): nat
    requires pageSize > 0
  {
    if InRange(b, f) && Lo(b, f) < Hi(b, f) then PageWrites(Hi(b, f) - Lo(b, f), pageSize) else 0
  }

  /** The writes for the blocks from `i` on. */
  function WritesFrom(blocks: seq<Block>, f: Filter, pageSize: nat, i: nat): nat
    requires pageSize > 0 && i <= |blocks|
    decreases |blocks| - i
  {
    if i == |blocks| then 0 else BlockWrites(blocks[i], f, pageSize) + WritesFrom(blocks, f, pageSize, i + 1)
  }

  /** What is left to write behind block `i` starts at block `next`, or there is nothing. */
  predicate StepsTo(blocks: seq<Block>, f: Filter, pageSize: nat, i: nat, more: bool, next: nat) {
    && pageSize > 0 && i < |blocks| && next < |blocks|
    && WritesFrom(blocks, f, pageSize, i + 1) == if more then WritesFrom(blocks, f, pageSize, next) else 0
  }

  class ElfDump {
    /** The bytes of some headers, one after the other. */
    ghost function ImageOf(hs: seq<Header>): seq<Byte> {
      if hs == [] then [] else ImageOf(hs[..|hs| - 1]) + image(hs[|hs| - 1])
    }

    /** The file so far is the headers so far. */
    ghost predicate Tables()
      reads `file, `headers
    {
      file == ImageOf(headers)
    }

    const mem: Memory
    const blocks: seq<Block>
    const filter: Filter
    const pageSize: nat
    const wide: bool
    const notes: seq<Byte>
    /** The bytes of a header. */
    const image: Header -> seq<Byte>

    var nextBlock: nat
    var start: nat
    var totalSize: nat
    var writtenSize: nat
    var haveSection: bool
    var phdrNum: nat
    var shInfo: nat
    var memoryOffset: nat
    var file: seq<Byte>
    /** How many more writes the file takes. */
    var quota: nat
    ghost var headers: seq<Header>

    ghost predicate Valid()
      reads this
    {
      && Sorted(blocks) && pageSize > 0
      && (filter.Range? ==> filter.begin + filter.length < INT64_END)
    }

    ghost predicate Framed()
      reads this
    {
      |notes| < 0x4000_0000_0000_0000 && forall h :: |image(h)| == SizeOf(h, wide)
    }

    /** A dump that has not begun. */
    constructor (mem: Memory, blocks: seq<Block>, filter: Filter, pageSize: nat, wide: bool, notes: seq<Byte>,
                 image: Header -> seq<Byte>, quota: nat)
      ensures this.mem == mem && this.blocks == blocks && this.filter == filter && this.pageSize == pageSize
      ensures this.wide == wide && this.notes == notes && this.image == image && this.quota == quota
      ensures file == [] && headers == [] && writtenSize == 0
    {
      this.mem, this.blocks, this.filter, this.pageSize := mem, blocks, filter, pageSize;
      this.wide, this.notes, this.image, this.quota := wide, notes, image, quota;
      nextBlock, start, totalSize, writtenSize := 0, 0, 0, 0;
      haveSection, phdrNum, shInfo, memoryOffset := false, 0, 0, 0;
      file, headers := [], [];
    }

    ghost function All(): seq<Byte> {
      Stored(mem, blocks, filter, |blocks|)
    }

    /** dump_calculate_size. */
    method CalculateSize() returns (total: nat)
      requires Valid()
      ensures total == |All()|
    {
      total := 0;
      var i := 0;
      while i < |blocks|
        invariant 0 <= i <= |blocks| && total == |Stored(mem, blocks, filter, i)|
      {
        var size := 0;
        if filter.Range? {
          var left := if filter.begin > blocks[i].start then filter.begin else blocks[i].start;
          var right := if filter.begin + filter.length < blocks[i].end then filter.begin + filter.length
            else blocks[i].end;
          size := right - left;
          size := if size > 0 then size else 0;
        } else {
          size := blocks[i].end - blocks[i].start;
        }
        total := total + size;
        i := i + 1;
      }
    }

    /** The position before the next dumped block `i`: everything earlier is in the file. */
    ghost predicate At(base: seq<Byte>, i: nat)
      reads this
    {
      && i < |blocks| && InRange(blocks[i], filter) && start == Lo(blocks[i], filter) - blocks[i].start
      && file == base + Stored(mem, blocks, filter, i)
    }

    /** get_start_block: the first dumped block, or an error when the filter leaves nothing. */
    method GetStartBlock() returns (found: bool)
      requires Valid() && |blocks| > 0
      modifies `nextBlock, `start
      ensures found ==> At(file, nextBlock) && Stored(mem, blocks, filter, nextBlock) == []
      ensures found ==> WritesFrom(blocks, filter, pageSize, nextBlock) == WritesFrom(blocks, filter, pageSize, 0)
      ensures !found <==> forall i | 0 <= i < |blocks| :: !InRange(blocks[i], filter)
    {
      if filter.Unfiltered? {
        nextBlock, start := 0, 0;
        assert InRange(blocks[0], filter);
        return true;
      }
      var i := 0;
      while i < |blocks|
        invariant 0 <= i <= |blocks| && forall j | 0 <= j < i :: !InRange(blocks[j], filter)
      {
        var block := blocks[i];
        if !(block.start >= filter.begin + filter.length || block.end <= filter.begin) {
          Skipped(0, i);
          nextBlock := i;
          start := if filter.begin > block.start then filter.begin - block.start else 0;
          return true;
        }
        i := i + 1;
      }
      return false;
    }

    /** Blocks out of the range add nothing. */
    lemma {:induction false} Skipped(i: nat, n: nat)
      requires i <= n <= |blocks| && pageSize > 0 && forall j | i <= j < n :: !InRange(blocks[j], filter)
      ensures Stored(mem, blocks, filter, n) == Stored(mem, blocks, filter, i)
      ensures WritesFrom(blocks, filter, pageSize, n) == WritesFrom(blocks, filter, pageSize, i)
      decreases n
    {
      if i < n {
        Skipped(i, n - 1);
      }
    }

    /** get_next_block: the next dumped block after `i`, if any. */
    method GetNextBlock(i: nat, ghost base: seq<Byte>) returns (more: bool)
      requires i < |blocks| && file == base + Stored(mem, blocks, filter, i + 1) && pageSize > 0 && nextBlock == i
      modifies `nextBlock, `start
      ensures more ==> i < nextBlock && At(base, nextBlock)
      ensures !more ==> file == base + All()
      ensures nextBlock < |blocks|
      ensures StepsTo(blocks, filter, pageSize, i, more, nextBlock)
    {
      var block := i + 1;
      while block < |blocks|
        invariant i < block <= |blocks| && nextBlock < |blocks|
        invariant forall j | i < j < block :: !InRange(blocks[j], filter)
      {
        start, nextBlock := 0, block;
        var b := blocks[block];
        if InRange(b, filter) {
          if filter.Range? && filter.begin > b.start {
            start := filter.begin - b.start;
          }
          Skipped(i + 1, block);
          return true;
        }
        block := block + 1;
      }
      Skipped(i + 1, block);
      return false;
    }

    /** fd_write_vmcore. */
    method Write(bytes: seq<Byte>) returns (ok: bool)
      modifies `file, `quota
      ensures ok ==> file == old(file) + bytes
      ensures Spends(old(quota), quota, ok, 1)
    {
      ok := quota > 0;
      if ok {
        quota := quota - 1;
        file := file + bytes;
      }
    }

    /** write_data. */
    method WriteData(host: nat, length: nat) returns (ok: bool)
      modifies `file, `quota, `writtenSize
      ensures Spends(old(quota), quota, ok, 1)
      ensures ok ==> file == old(file) + Bytes(mem, host, length) && writtenSize == old(writtenSize) + length
    {
      ok := Write(Bytes(mem, host, length));
      if ok {
        writtenSize := writtenSize + length;
      }
    }

    /** write_memory: page by page, then the rest. */
    method WriteMemory(block: Block, from: nat, size: nat) returns (ok: bool)
      requires Valid()
      modifies `file, `quota, `writtenSize
      ensures Spends(old(quota), quota, ok, PageWrites(size, pageSize))
      ensures ok ==> file == old(file) + Bytes(mem, block.host + from, size) && writtenSize == old(writtenSize) + size
    {
      var i: nat, done: nat := 0, 0;
      var pages: nat := size / pageSize;
      while i < pages
        invariant i <= pages && done == i * pageSize && i + quota == old(quota)
        invariant file == old(file) + Bytes(mem, block.host + from, done) && writtenSize == old(writtenSize) + done
      {
        ok := WriteData(block.host + from + done, pageSize);
        if !ok {
          return;
        }
        BytesAppend(mem, block.host + from, done, pageSize);
        OneMore(i, pageSize);
        i, done := i + 1, done + pageSize;
      }
      if size % pageSize != 0 {
        ok := WriteData(block.host + from + done, size % pageSize);
        BytesAppend(mem, block.host + from, done, size % pageSize);
        return;
      }
      return true;
    }

    /** The size dump_iterate writes of a block. */
    static method DumpedSize(block: Block, filter: Filter, start: nat) returns (size: nat)
      requires BlockOk(block) && InRange(block, filter) && start == Lo(block, filter) - block.start
      ensures size == Hi(block, filter) - Lo(block, filter)
    {
      size := block.end - block.start;
      if filter.Range? {
        size := size - start;
        if filter.begin + filter.length < block.end {
          size := size - (block.end - (filter.begin + filter.length));
        }
      }
    }

    /** The body of the loop of dump_iterate. */
    method DumpBlock(ghost base: seq<Byte>) returns (ok: bool)
      requires Valid() && At(base, nextBlock)
      modifies `file, `quota, `writtenSize
      ensures Spends(old(quota), quota, ok, BlockWrites(blocks[nextBlock], filter, pageSize))
      ensures ok ==> file == base + Stored(mem, blocks, filter, nextBlock + 1)
      ensures ok ==> writtenSize - old(writtenSize) == |file| - |old(file)|
    {
      var block := blocks[nextBlock];
      var size := DumpedSize(block, filter, start);
      ok := WriteMemory(block, start, size);
      assert Part(mem, block, filter) == Bytes(mem, block.host + start, size);
    }

    /** A block and the step to the next one. */
    method DumpAndStep(ghost base: seq<Byte>) returns (ok: bool, more: bool)
      requires Valid() && At(base, nextBlock)
      modifies `file, `quota, `writtenSize, `nextBlock, `start
      ensures Spends(old(quota), quota, ok, BlockWrites(blocks[old(nextBlock)], filter, pageSize))
      ensures ok ==> writtenSize - old(writtenSize) == |file| - |old(file)|
      ensures ok && more ==> old(nextBlock) < nextBlock && At(base, nextBlock)
      ensures ok && !more ==> file == base + All()
      ensures ok ==> StepsTo(blocks, filter, pageSize, old(nextBlock), more, nextBlock)
    {
      more := false;
      ok := DumpBlock(base);
      if ok {
        more := GetNextBlock(nextBlock, base);
      }
    }

    /** dump_iterate: from the start block on, the file receives all dumped memory in order. */
    method DumpIterate(ghost base: seq<Byte>) returns (ok: bool)
      requires Valid() && At(base, nextBlock)
      modifies `file, `quota, `writtenSize, `nextBlock, `start
      ensures Spends(old(quota), quota, ok, WritesFrom(blocks, filter, pageSize, old(nextBlock)))
      ensures ok ==> file == base + All() && writtenSize - old(writtenSize) == |file| - |old(file)|
    {
      var more := true;
      ghost var total := WritesFrom(blocks, filter, pageSize, nextBlock);
      ghost var left := total;
      while more
        invariant more ==> At(base, nextBlock) && left == WritesFrom(blocks, filter, pageSize, nextBlock)
        invariant !more ==> file == base + All() && left == 0
        invariant quota + total == old(quota) + left
        invariant writtenSize - old(writtenSize) == |file| - |old(file)|
        decreases more, |blocks| - nextBlock
      {
        ghost var after := WritesFrom(blocks, filter, pageSize, nextBlock + 1);
        ok, more := DumpAndStep(base);
        if !ok {
          return;
        }
        left := after;
      }
      return true;
    }

    /** In a file whose memory starts at memoryOffset, the guest bytes from `addr` on are at the place. */
    ghost predicate Locates(place: Place, addr: nat)
      reads `memoryOffset
    {
      place.Place? ==>
        && memoryOffset <= place.offset
        && Reads(All(), place.offset - memoryOffset, mem, blocks, addr, place.size)
    }

    /** The place of [phys, phys + length): nowhere exactly when `phys` is not dumped, and cut short only at the
        end of the dumped part of its block. */
    ghost predicate PlaceFor(place: Place, phys: nat, length: nat)
      reads `memoryOffset
    {
      && (place.Nowhere? <==> forall i: nat :: !Dumps(blocks, filter, i, phys))
      && Locates(place, phys)
      && (place.Place? ==> exists i: nat :: PlacedIn(place, phys, length, i))
    }

    /** The place lies in the part of the file that block `i` fills. */
    ghost predicate PlacedIn(place: Place, phys: nat, length: nat, i: nat)
      reads `memoryOffset
      requires place.Place?
    {
      && Dumps(blocks, filter, i, phys)
      && place.offset == memoryOffset + |Stored(mem, blocks, filter, i)| + (phys - Lo(blocks[i], filter))
      && place.size == if phys + length <= Hi(blocks[i], filter) then length else Hi(blocks[i], filter) - phys
    }

    /** The part of a block that get_offset_range counts; a block out of the range counts nothing. */
    static method RangeInBlock(block: Block, filter: Filter) returns (from: nat, size: nat)
      requires BlockOk(block)
      ensures from == Lo(block, filter) && size == if InRange(block, filter) then Hi(block, filter) - from else 0
    {
      if filter.Range? {
        from := if filter.begin <= block.start then block.start else filter.begin;
        if block.start >= filter.begin + filter.length || block.end <= filter.begin {
          return from, 0;
        }
        size := block.end - from;
        if filter.begin + filter.length < block.end {
          size := size - (block.end - (filter.begin + filter.length));
        }
      } else {
        from := block.start;
        size := block.end - block.start;
      }
    }

    /** get_offset_range: where a guest address will be in the file, and how much follows it there. */
    method GetOffsetRange(phys: nat, length: nat) returns (place: Place)
      requires Valid()
      ensures PlaceFor(place, phys, length)
    {
      var offset := memoryOffset;
      if filter.Range? && (phys < filter.begin || phys >= filter.begin + filter.length) {
        return Nowhere;
      }
      var i: nat := 0;
      while i < |blocks|
        invariant i <= |blocks| && offset == memoryOffset + |Stored(mem, blocks, filter, i)|
        invariant forall j: nat | j < i :: !Dumps(blocks, filter, j, phys)
      {
        var from, size := RangeInBlock(blocks[i], filter);
        if size > 0 {
          if from <= phys < from + size {
            place := Place(phys - from + offset, if phys + length <= from + size then length else size - (phys - from));
            assert PlacedIn(place, phys, length, i);
            Located(i, phys, place);
            return;
          }
          offset := offset + size;
        }
        i := i + 1;
      }
      place := Nowhere;
    }

    lemma Located(i: nat, phys: nat, place: Place)
      requires Dumps(blocks, filter, i, phys) && place.Place? && phys + place.size <= Hi(blocks[i], filter)
      requires place.offset == memoryOffset + |Stored(mem, blocks, filter, i)| + (phys - Lo(blocks[i], filter))
      ensures Locates(place, phys)
    {
      BlockStands(mem, blocks, filter, i, phys, place.size, All(), place.offset - memoryOffset);
    }

    /** How many PT_LOAD headers go into the file: all mappings, as far as sh_info can count them. */
    function LoadCount(mappings: seq<Mapping>): nat {
      if |mappings| <= U32 - 2 then |mappings| else U32 - 2
    }

    /** The size of everything before the memory. */
    function FrontSize(mappings: seq<Mapping>): nat {
      SizeOf(Ehdr, wide) + PhdrsSize(1 + LoadCount(mappings), wide)
      + (if |mappings| < 0xffff - 2 then 0 else SizeOf(Shdr, wide)) + |notes|
    }

    /** The writes it takes. */
    function FrontWrites(mappings: seq<Mapping>): nat {
      3 + LoadCount(mappings) + if |mappings| < 0xffff - 2 then 0 else 1
    }

    /** The layout part of dump_init: program header counts and the offset of the memory. */
    method InitLayout(mappings: seq<Mapping>)
      requires |mappings| < U32
      modifies `phdrNum, `shInfo, `haveSection, `memoryOffset
      ensures haveSection <==> |mappings| >= 0xffff - 2
      ensures (if haveSection then shInfo else phdrNum) == 1 + LoadCount(mappings)
      ensures memoryOffset == FrontSize(mappings)
    {
      phdrNum := 1;
      if |mappings| < 0xffff - 2 {
        phdrNum := phdrNum + |mappings|;
        haveSection := false;
      } else {
        haveSection, phdrNum, shInfo := true, PN_XNUM, 1;
        if |mappings| <= U32 - 2 {
          shInfo := shInfo + |mappings|;
        } else {
          shInfo := U32 - 1;
        }
      }
      memoryOffset := SizeOf(Ehdr, wide) + PhdrsSize(if haveSection then shInfo else phdrNum, wide)
        + (if haveSection then SizeOf(Shdr, wide) else 0) + |notes|;
    }

    /** Writes one header. */
    method WriteHeader(h: Header) returns (ok: bool)
      requires Framed() && Tables()
      modifies `file, `quota, `headers
      ensures Spends(old(quota), quota, ok, 1)
      ensures ok ==> Tables() && |file| == |old(file)| + SizeOf(h, wide) && headers == old(headers) + [h]
    {
      ok := Write(image(h));
      headers := headers + [h];
      assert headers[..|headers| - 1] == old(headers);
    }

    /** The header describes the mapping. */
    ghost predicate Describes(h: Header, m: Mapping)
      reads `memoryOffset
    {
      exists place :: PlaceFor(place, m.phys, m.length) && h == LoadOf(m, place, wide)
    }

    /** Every header describes its mapping. */
    ghost predicate Described(loads: seq<Header>, mappings: seq<Mapping>)
      reads `memoryOffset
    {
      |loads| <= |mappings| && forall j: nat | j < |loads| :: Describes(loads[j], mappings[j])
    }

    lemma DescribedNext(loads: seq<Header>, h: Header, mappings: seq<Mapping>)
      requires Described(loads, mappings) && |loads| < |mappings| && Describes(h, mappings[|loads|])
      ensures Described(loads + [h], mappings)
    {
    }

    /** One PT_LOAD: get_offset_range and write_elf64_load or write_elf32_load. */
    method WriteLoad(m: Mapping) returns (ok: bool, h: Header)
      requires Tables()
      requires Valid() && Framed()
      modifies `file, `quota, `headers
      ensures Spends(old(quota), quota, ok, 1)
      ensures ok ==> Tables()
      ensures Describes(h, m)
      ensures ok ==> headers == old(headers) + [h] && |file| == |old(file)| + PhdrsSize(1, wide)
    {
      var place := GetOffsetRange(m.phys, m.length);
      assert place.Place? ==> m.length >= place.size;
      h := LoadOf(m, place, wide);
      assert Describes(h, m);
      ok := WriteHeader(h);
    }

    /** The ELF header and PT_NOTE. */
    method WriteEhdrAndNote() returns (ok: bool)
      requires Tables()
      requires Framed() && memoryOffset >= |notes|
      modifies `file, `quota, `headers
      ensures Spends(old(quota), quota, ok, 2)
      ensures ok ==> Tables()
      ensures ok ==> |file| == |old(file)| + SizeOf(Ehdr, wide) + PhdrsSize(1, wide)
      ensures ok ==> headers == old(headers) + TableList([])
    {
      ok := WriteHeader(Ehdr);
      if !ok {
        return;
      }
      ok := WriteHeader(NoteHdr(Narrow(memoryOffset - |notes|, wide), Narrow(|notes|, wide)));
    }

    /** write_elf_loads. */
    method WriteLoads(mappings: seq<Mapping>) returns (ok: bool, ghost loads: seq<Header>)
      requires Tables()
      requires Valid() && Framed() && |mappings| < U32
      requires (if haveSection then shInfo else phdrNum) == 1 + LoadCount(mappings)
      modifies `file, `quota, `headers
      ensures Spends(old(quota), quota, ok, LoadCount(mappings))
      ensures ok ==> Tables()
      ensures ok ==> headers == old(headers) + loads && |loads| == LoadCount(mappings)
      ensures ok ==> |file| == |old(file)| + PhdrsSize(|loads|, wide)
      ensures ok ==> Described(loads, mappings)
    {
      var phdrIndex := 1;
      var maxIndex := if haveSection then shInfo else phdrNum;
      loads := [];
      var n: nat := 0;
      while n < |mappings|
        invariant n <= LoadCount(mappings) && phdrIndex == 1 + n && |loads| == n
        invariant n < |mappings| ==> n < LoadCount(mappings)
        invariant headers == old(headers) + loads && Tables() && quota + n == old(quota)
        invariant |file| == |old(file)| + PhdrsSize(n, wide)
        invariant Described(loads, mappings)
      {
        var h: Header;
        ok, h := WriteLoad(mappings[n]);
        if !ok {
          return;
        }
        DescribedNext(loads, h, mappings);
        loads := loads + [h];
        phdrIndex := phdrIndex + 1;
        n := n + 1;
        if phdrIndex >= maxIndex {
          break;
        }
      }
      ok := true;
    }

    /** The ELF header, PT_NOTE and all PT_LOAD. */
    method WriteTables(mappings: seq<Mapping>) returns (ok: bool, ghost loads: seq<Header>)
      requires Tables()
      requires Valid() && Framed() && |mappings| < U32 && memoryOffset >= |notes| && headers == []
      requires (if haveSection then shInfo else phdrNum) == 1 + LoadCount(mappings)
      modifies `file, `quota, `headers
      ensures Spends(old(quota), quota, ok, 2 + LoadCount(mappings))
      ensures ok ==> Tables()
      ensures ok ==> headers == TableList(loads) && |loads| == LoadCount(mappings)
      ensures ok ==> |file| == |old(file)| + SizeOf(Ehdr, wide) + PhdrsSize(1 + |loads|, wide)
      ensures ok ==> Described(loads, mappings)
    {
      loads := [];
      ok := WriteEhdrAndNote();
      if !ok {
        return;
      }
      ok, loads := WriteLoads(mappings);
      TableJoin(loads);
      PhdrsJoin(1, |loads|, wide);
    }

    lemma TableJoin(loads: seq<Header>)
      ensures TableList([]) + loads == TableList(loads)
    {
    }

    ghost function TableList(loads: seq<Header>): seq<Header>
      reads `memoryOffset
    {
      var begin := if memoryOffset >= |notes| then memoryOffset - |notes| else 0;
      [Ehdr, NoteHdr(Narrow(begin, wide), Narrow(|notes|, wide))] + loads
    }

    ghost function SectionList(): seq<Header>
      reads `haveSection
    {
      if haveSection then [Shdr] else []
    }

    /** The section header if there is one, and the notes. */
    method WriteSectionAndNotes() returns (ok: bool)
      requires Tables()
      requires Framed()
      modifies `file, `quota, `headers
      ensures Spends(old(quota), quota, ok, if haveSection then 2 else 1)
      ensures ok ==> file == ImageOf(headers) + notes
      ensures ok ==> |file| == |old(file)| + (if haveSection then SizeOf(Shdr, wide) else 0) + |notes|
      ensures ok ==> headers == old(headers) + SectionList()
    {
      if haveSection {
        ok := WriteHeader(Shdr);
        if !ok {
          return;
        }
      }
      ok := Write(notes);
    }

    /** The headers of the file, in order. */
    ghost function HeaderList(loads: seq<Header>): seq<Header>
      reads `memoryOffset, `haveSection
    {
      TableList(loads) + SectionList()
    }

    /** dump_begin: headers and notes take exactly the room in front of memoryOffset. */
    method DumpBegin(mappings: seq<Mapping>) returns (ok: bool, ghost loads: seq<Header>)
      requires Valid() && Framed() && |mappings| < U32 && file == [] && headers == []
      requires haveSection <==> |mappings| >= 0xffff - 2
      requires (if haveSection then shInfo else phdrNum) == 1 + LoadCount(mappings)
      requires memoryOffset == FrontSize(mappings)
      modifies `file, `quota, `headers
      ensures Spends(old(quota), quota, ok, FrontWrites(mappings))
      ensures ok ==> |file| == memoryOffset
      ensures ok ==> |loads| == LoadCount(mappings)
      ensures ok ==> headers == HeaderList(loads)
      ensures ok ==> Described(loads, mappings)
      ensures ok ==> file == ImageOf(headers) + notes
    {
      loads := [];
      ok, loads := WriteTables(mappings);
      if !ok {
        return;
      }
      ok := WriteSectionAndNotes();
    }

    /** PT_LOAD `h` of mapping `m` is true of the file. */
    ghost predicate TrueOf(h: Header, m: Mapping)
      reads this
    {
      h.Load? && Reads(file, h.offset, mem, blocks, m.phys, h.filesz)
    }

    /** The place a header was made from. */
    ghost function PlaceOf(h: Header, m: Mapping): (place: Place)
      reads `memoryOffset
      requires Describes(h, m)
      ensures PlaceFor(place, m.phys, m.length) && h == LoadOf(m, place, wide)
    {
      var place :| PlaceFor(place, m.phys, m.length) && h == LoadOf(m, place, wide);
      place
    }

    /** The place of a mapping holds its guest bytes; the header names it exactly when it fits, and is then true. */
    ghost predicate Right(h: Header, m: Mapping, place: Place)
      reads this
    {
      && PlaceFor(place, m.phys, m.length) && h == LoadOf(m, place, wide)
      && (place.Nowhere? ==> h.filesz == 0)
      && (place.Place? ==>
            && Reads(file, place.offset, mem, blocks, m.phys, place.size)
            && (Names(h, place) <==> Fits(place, wide))
            && (Names(h, place) ==> TrueOf(h, m)))
    }

    lemma LoadFacts(front: seq<Byte>, h: Header, m: Mapping, place: Place)
      requires file == front + All() && |front| == memoryOffset && |file| < U64
      requires place.Place? && Locates(place, m.phys) && h == LoadOf(m, place, wide)
      ensures Reads(file, place.offset, mem, blocks, m.phys, place.size)
      ensures Names(h, place) <==> Fits(place, wide)
    {
      ReadsAt(file, front, memoryOffset, All(), mem, blocks, m.phys, place);
      LoadFits(m, place, wide);
    }

    lemma LoadRight(front: seq<Byte>, h: Header, m: Mapping, place: Place)
      requires file == front + All() && |front| == memoryOffset && |file| < U64
      requires PlaceFor(place, m.phys, m.length) && h == LoadOf(m, place, wide)
      ensures Right(h, m, place)
    {
      if place.Place? {
        LoadFacts(front, h, m, place);
      }
    }

    lemma FileSize(mappings: seq<Mapping>)
      requires Valid() && Framed()
      ensures FrontSize(mappings) + |All()| < U64
    {
      StoredSize(mem, blocks, filter, |blocks|);
    }

    /** The part of dump_init that decides the layout; fails when the filter leaves nothing. */
    method Init(mappings: seq<Mapping>) returns (found: bool)
      requires Valid() && |blocks| > 0 && |mappings| < U32
      modifies `totalSize, `phdrNum, `shInfo, `haveSection, `memoryOffset, `nextBlock, `start
      ensures found <==> exists i :: 0 <= i < |blocks| && InRange(blocks[i], filter)
      ensures totalSize == |All()| && memoryOffset == FrontSize(mappings)
      ensures haveSection <==> |mappings| >= 0xffff - 2
      ensures (if haveSection then shInfo else phdrNum) == 1 + LoadCount(mappings)
      ensures found ==> At(file, nextBlock) && Stored(mem, blocks, filter, nextBlock) == []
      ensures found ==> WritesFrom(blocks, filter, pageSize, nextBlock) == WritesFrom(blocks, filter, pageSize, 0)
    {
      totalSize := CalculateSize();
      InitLayout(mappings);
      found := GetStartBlock();
    }

    /** An ELF dump from dump_init on: it finishes exactly when the filter leaves a block and the file takes one write
        for each header, for the notes and for each page or rest of a page; in a finished file the guest bytes of every
        mapping stand at its place, the PT_LOAD of the mapping names that place exactly when it fits the header, and
        the progress counters agree. */
    method CreateVmcore(mappings: seq<Mapping>)
      returns (ok: bool, ghost front: seq<Byte>, ghost loads: seq<Header>, ghost places: seq<Place>)
      requires Valid() && Framed() && |blocks| > 0 && |mappings| < U32 && file == [] && headers == []
      requires writtenSize == 0
      modifies this
      ensures ok <==> (exists i :: 0 <= i < |blocks| && InRange(blocks[i], filter))
                      && old(quota) >= FrontWrites(mappings) + WritesFrom(blocks, filter, pageSize, 0)
      ensures ok ==> file == front + All() && front == ImageOf(headers) + notes
      ensures ok ==> |front| == memoryOffset == FrontSize(mappings)
      ensures ok ==> writtenSize == totalSize == |All()|
      ensures ok ==> headers == HeaderList(loads) && |places| == |loads| == LoadCount(mappings)
      ensures ok ==> forall j: nat | j < |loads| :: Right(loads[j], mappings[j], places[j])
    {
      front, loads, places := [], [], [];
      ok := Init(mappings);
      if !ok {
        return;
      }
      ok, front, loads := WriteVmcore(mappings);
      if ok {
        FileSize(mappings);
        places := PlacesOf(front, loads, mappings);
      }
    }

    /** create_vmcore, after dump_init. */
    method WriteVmcore(mappings: seq<Mapping>) returns (ok: bool, ghost front: seq<Byte>, ghost loads: seq<Header>)
      requires Valid() && Framed() && |mappings| < U32 && file == [] && headers == []
      requires haveSection <==> |mappings| >= 0xffff - 2
      requires (if haveSection then shInfo else phdrNum) == 1 + LoadCount(mappings)
      requires memoryOffset == FrontSize(mappings)
      requires At([], nextBlock) && Stored(mem, blocks, filter, nextBlock) == []
      modifies `file, `quota, `headers, `writtenSize, `nextBlock, `start
      ensures Spends(old(quota), quota, ok,
                     FrontWrites(mappings) + WritesFrom(blocks, filter, pageSize, old(nextBlock)))
      ensures ok ==> file == front + All() && front == ImageOf(headers) + notes && |front| == memoryOffset
      ensures ok ==> writtenSize - old(writtenSize) == |All()|
      ensures ok ==> headers == HeaderList(loads) && |loads| == LoadCount(mappings) && Described(loads, mappings)
    {
      front := [];
      ok, loads := DumpBegin(mappings);
      if !ok {
        return;
      }
      front := file;
      ok := DumpIterate(front);
    }

    /** The places of all headers. */
    lemma PlacesOf(front: seq<Byte>, loads: seq<Header>, mappings: seq<Mapping>) returns (places: seq<Place>)
      requires file == front + All() && |front| == memoryOffset && |file| < U64 && Described(loads, mappings)
      ensures |places| == |loads| && forall j: nat | j < |loads| :: Right(loads[j], mappings[j], places[j])
    {
      places := [];
      while |places| < |loads|
        invariant |places| <= |loads| && forall j: nat | j < |places| :: Right(loads[j], mappings[j], places[j])
      {
        var j := |places|;
        var place := PlaceOf(loads[j], mappings[j]);
        LoadRight(front, loads[j], mappings[j], place);
        places := places + [place];
      }
    }
  }

  // A dump that misreads.

  /** Guest memory of a 32-bit ARM guest with large physical addresses: 4 GiB of zeros, and one page of ones above. */
  const LARGE_GUEST: seq<Block> :=
    [Block(0x4000_0000, 0x1_4000_0000, 0), Block(0x2_0000_0000, 0x2_0000_1000, 0x1_0000_0000)]

  function LargeMemory(host: nat): Byte {
    if host < 0x1_0000_0000 then 0 else 1
  }

  /** qemu_get_guest_simple_memory_mapping. */
  function SimpleMappings(blocks: seq<Block>): (ms: seq<Mapping>)
    requires forall b | b in blocks :: b.start <= b.end
    ensures |ms| == |blocks|
    ensures forall i | 0 <= i < |blocks| :: ms[i] == Mapping(blocks[i].start, 0, blocks[i].end - blocks[i].start)
  {
    seq(|blocks|, i requires 0 <= i < |blocks| => Mapping(blocks[i].start, 0, blocks[i].end - blocks[i].start))
  }

  /** A 32-bit dump of that guest, whatever its notes and headers, to a file that takes its 0x10_0006 writes: the
      PT_LOAD of the upper page claims a page of file bytes that are not the bytes of the guest page. */
  method NarrowMisreads(notes: seq<Byte>, image: Header -> seq<Byte>, quota: nat)
    returns (ok: bool, d: ElfDump, ghost h: Header, ghost m: Mapping)
    requires 0 < |notes| < 0x1_0000_0000 - 148 && forall h :: |image(h)| == SizeOf(h, false)
    requires quota >= 0x10_0006
    ensures ok && h in d.headers && m in SimpleMappings(LARGE_GUEST) && d.Describes(h, m)
    ensures h.filesz == m.length == 4096 && !d.TrueOf(h, m)
  {
    ghost var front, place;
    ok, d, front, h, place := DumpLarge(notes, image, quota);
    m := SimpleMappings(LARGE_GUEST)[1];
    Misplaced(d, front, h, m, place);
  }

  /** The dump itself, with the header of the upper page. */
  method DumpLarge(notes: seq<Byte>, image: Header -> seq<Byte>, quota: nat)
    returns (ok: bool, d: ElfDump, ghost front: seq<Byte>, ghost h: Header, ghost place: Place)
    requires 0 < |notes| < 0x1_0000_0000 - 148 && forall h :: |image(h)| == SizeOf(h, false)
    requires quota >= 0x10_0006
    ensures ok && d.mem == LargeMemory && d.blocks == LARGE_GUEST && d.filter == Unfiltered && !d.wide
    ensures d.file == front + d.All() && |front| == d.memoryOffset < U32
    ensures h in d.headers && d.Right(h, SimpleMappings(LARGE_GUEST)[1], place)
  {
    d := new ElfDump(LargeMemory, LARGE_GUEST, Unfiltered, 4096, false, notes, image, quota);
    var mappings := SimpleMappings(LARGE_GUEST);
    ghost var loads, places;
    LargeWrites(d, mappings);
    ok, front, loads, places := d.CreateVmcore(mappings);
    h, place := loads[1], places[1];
    assert d.headers[3] == h;
  }

  lemma LargeWrites(d: ElfDump, mappings: seq<Mapping>)
    requires d.blocks == LARGE_GUEST && d.filter == Unfiltered && d.pageSize == 4096 && |mappings| == 2
    ensures d.FrontWrites(mappings) + WritesFrom(d.blocks, d.filter, d.pageSize, 0) == 0x10_0006
    ensures InRange(d.blocks[0], d.filter)
  {
    assert WritesFrom(d.blocks, d.filter, 4096, 2) == 0;
    assert WritesFrom(d.blocks, d.filter, 4096, 1) == 1;
  }

  lemma Misplaced(d: ElfDump, front: seq<Byte>, h: Header, m: Mapping, place: Place)
    requires d.mem == LargeMemory && d.blocks == LARGE_GUEST && d.filter == Unfiltered && !d.wide
    requires m == Mapping(0x2_0000_0000, 0, 4096) && d.PlaceFor(place, m.phys, m.length) && h == LoadOf(m, place, false)
    requires d.file == front + d.All() && |front| == d.memoryOffset < U32
    ensures h.filesz == 4096 && !d.TrueOf(h, m)
  {
    FindUpper(d, m, place);
    FirstStored(d.mem, d.blocks);
    ReadsZero(d.file, front, d.All(), d.memoryOffset, d.mem, d.blocks, m);
  }

  lemma FindUpper(d: ElfDump, m: Mapping, place: Place)
    requires d.mem == LargeMemory && d.blocks == LARGE_GUEST && d.filter == Unfiltered
    requires m == Mapping(0x2_0000_0000, 0, 4096) && d.PlaceFor(place, m.phys, m.length)
    ensures place == Place(d.memoryOffset + U32, 4096)
  {
    UpperDumped(d.blocks, 1);
    var i: nat :| d.PlacedIn(place, m.phys, m.length, i);
    UpperPlace(d, m, place, i);
  }

  lemma ReadsZero(file: seq<Byte>, front: seq<Byte>, all: seq<Byte>, offset: nat, mem: Memory, blocks: seq<Block>,
                  m: Mapping)
    requires mem == LargeMemory && blocks == LARGE_GUEST && m == Mapping(0x2_0000_0000, 0, 4096)
    requires file == front + all && |front| == offset < U32 && |all| > 0 && all[0] == 0
    ensures var h := LoadOf(m, Place(offset + U32, 4096), false);
            h.filesz == 4096 && !Reads(file, h.offset, mem, blocks, m.phys, h.filesz)
  {
    OnesAbove(file, offset, mem, blocks, m.phys);
  }

  lemma UpperPlace(d: ElfDump, m: Mapping, place: Place, i: nat)
    requires d.mem == LargeMemory && d.blocks == LARGE_GUEST && d.filter == Unfiltered
    requires m == Mapping(0x2_0000_0000, 0, 4096) && place.Place? && d.PlacedIn(place, m.phys, m.length, i)
    ensures place == Place(d.memoryOffset + U32, 4096)
  {
    UpperDumped(d.blocks, i);
    FirstStored(d.mem, d.blocks);
  }

  /** The upper page is dumped from the second block. */
  lemma UpperDumped(blocks: seq<Block>, i: nat)
    requires blocks == LARGE_GUEST
    ensures Dumps(blocks, Unfiltered, i, 0x2_0000_0000) <==> i == 1
    ensures Lo(blocks[1], Unfiltered) == 0x2_0000_0000 && Hi(blocks[1], Unfiltered) == 0x2_0000_1000
  {
  }

  /** The upper page does not start with a zero. */
  lemma OnesAbove(file: seq<Byte>, at: nat, mem: Memory, blocks: seq<Block>, addr: nat)
    requires mem == LargeMemory && blocks == LARGE_GUEST && addr == 0x2_0000_0000 && at < |file| && file[at] == 0
    ensures !Same(file, at, mem, blocks, addr, 0)
  {
  }

  lemma FirstStored(mem: Memory, blocks: seq<Block>)
    requires mem == LargeMemory && blocks == LARGE_GUEST
    ensures |Stored(mem, blocks, Unfiltered, 1)| == U32
    ensures |Stored(mem, blocks, Unfiltered, 2)| > 0 && Stored(mem, blocks, Unfiltered, 2)[0] == 0
  {
    var parts := Parts(mem, blocks, Unfiltered);
    assert parts[0] == Part(mem, blocks[0], Unfiltered);
    assert Cat(parts, 1) == Cat(parts, 0) + parts[0];
    PartByte(mem, blocks[0], Unfiltered, 0);
    CatPrefix(parts, 1, 2);
  }
}
