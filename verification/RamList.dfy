/** The list of RAM blocks of exec.c: placement, insertion, removal, and lookup behind a one-entry cache. */
module RamList {
  import opened Words

  const RAM_ADDR_MAX: nat := 0xffff_ffff_ffff_ffff

  /** RAMBlock; `id` stands for its identity. */
  datatype RamBlock = RamBlock(id: nat, offset: nat, maxLength: nat)

  datatype Option<T> = None | Some(value: T)

  function End(b: RamBlock): nat {
    b.offset + b.maxLength
  }

  predicate BlockOk(b: RamBlock) {
    b.maxLength > 0 && End(b) <= RAM_ADDR_MAX
  }

  predicate Apart(a: RamBlock, b: RamBlock) {
    End(a) <= b.offset || End(b) <= a.offset
  }

  ghost predicate Disjoint(blocks: seq<RamBlock>) {
    && (forall i | 0 <= i < |blocks| :: BlockOk(blocks[i]))
    && (forall i, j | 0 <= i < j < |blocks| :: Apart(blocks[i], blocks[j]))
  }

  /** From biggest to smallest. */
  ghost predicate Descending(blocks: seq<RamBlock>) {
    forall i, j | 0 <= i < j < |blocks| :: blocks[i].maxLength >= blocks[j].maxLength
  }

  predicate Contains(b: RamBlock, addr: nat) {
    b.offset <= addr < End(b)
  }

  /** `addr - block->offset < block->max_length` on 64-bit unsigned values. */
  predicate Matches(b: RamBlock, addr: nat) {
    (addr - b.offset) % U64 < b.maxLength
  }

  lemma MatchesIsContains(b: RamBlock, addr: nat)
    requires BlockOk(b) && addr < U64
    ensures Matches(b, addr) <==> Contains(b, addr)
  {
  }

  /** `next` is where the gap that starts at `end` stops: the first block start behind it, or the end of the space. */
  ghost predicate NextStart(blocks: seq<RamBlock>, end: nat, next: nat) {
    && end <= next <= RAM_ADDR_MAX
    && (forall i | 0 <= i < |blocks| && blocks[i].offset >= end :: next <= blocks[i].offset)
    && (next == RAM_ADDR_MAX || exists i | 0 <= i < |blocks| :: blocks[i].offset == next)
  }

  /** The gap behind block `i` ends at `next` and takes `size` bytes. */
  ghost predicate Gap(blocks: seq<RamBlock>, i: nat, next: nat, size: nat) {
    i < |blocks| && NextStart(blocks, End(blocks[i]), next) && next - End(blocks[i]) >= size
  }

  /** The smallest sufficient gap among those that start at a block end; the first block of an empty list goes to 0. */
  ghost predicate Chosen(blocks: seq<RamBlock>, size: nat, r: Option<nat>) {
    if blocks == [] then r == Some(0)
    else if r.None? then forall i: nat, next: nat :: !Gap(blocks, i, next, size)
    else exists i: nat, next: nat ::
      && Gap(blocks, i, next, size) && r.value == End(blocks[i])
      && forall j: nat, next': nat | Gap(blocks, j, next', size) :: next - End(blocks[i]) <= next' - End(blocks[j])
  }

  /** Each gap has one end. */
  lemma NextUnique(blocks: seq<RamBlock>, end: nat, a: nat, b: nat)
    requires NextStart(blocks, end, a) && NextStart(blocks, end, b)
    requires forall i | 0 <= i < |blocks| :: BlockOk(blocks[i])
    ensures a == b
  {
    if a != RAM_ADDR_MAX {
      var i :| 0 <= i < |blocks| && blocks[i].offset == a;
    }
    if b != RAM_ADDR_MAX {
      var i :| 0 <= i < |blocks| && blocks[i].offset == b;
    }
  }

  /** Among the gaps behind the first `i` blocks the one behind `best` is the smallest, or there is none. */
  ghost predicate BestOf(blocks: seq<RamBlock>, size: nat, i: nat, offset: nat, mingap: nat, best: nat, bestNext: nat) {
    && mingap <= RAM_ADDR_MAX
    && (offset == RAM_ADDR_MAX ==>
          mingap == RAM_ADDR_MAX && forall j: nat, next: nat | j < i :: !Gap(blocks, j, next, size))
    && (offset != RAM_ADDR_MAX ==>
          Gap(blocks, best, bestNext, size) && offset == End(blocks[best]) && mingap == bestNext - offset)
    && forall j: nat, next: nat | j < i && Gap(blocks, j, next, size) :: mingap <= next - End(blocks[j])
  }

  lemma BestStep(blocks: seq<RamBlock>, size: nat, i: nat, offset: nat, mingap: nat, best: nat, bestNext: nat,
                 next: nat)
    requires BestOf(blocks, size, i, offset, mingap, best, bestNext) && i < |blocks| && 0 < size
    requires (forall j | 0 <= j < |blocks| :: BlockOk(blocks[j])) && NextStart(blocks, End(blocks[i]), next)
    ensures var end := End(blocks[i]);
            if next - end >= size && next - end < mingap then BestOf(blocks, size, i + 1, end, next - end, i, next)
            else BestOf(blocks, size, i + 1, offset, mingap, best, bestNext)
  {
    var end := End(blocks[i]);
    forall next': nat | Gap(blocks, i, next', size) ensures next' == next {
      NextUnique(blocks, end, next, next');
    }
  }

  lemma BestChosen(blocks: seq<RamBlock>, size: nat, offset: nat, mingap: nat, best: nat, bestNext: nat)
    requires BestOf(blocks, size, |blocks|, offset, mingap, best, bestNext) && blocks != []
    ensures Chosen(blocks, size, if offset == RAM_ADDR_MAX then None else Some(offset))
  {
  }

  /** A block in the chosen place overlaps no other. */
  lemma ChosenIsFree(blocks: seq<RamBlock>, size: nat, r: Option<nat>, id: nat)
    requires Disjoint(blocks) && Chosen(blocks, size, r) && r.Some? && 0 < size <= RAM_ADDR_MAX
    ensures BlockOk(RamBlock(id, r.value, size))
    ensures forall j | 0 <= j < |blocks| :: Apart(RamBlock(id, r.value, size), blocks[j])
  {
    if blocks != [] {
      var i: nat, next: nat :| Gap(blocks, i, next, size) && r.value == End(blocks[i]);
      forall j | 0 <= j < |blocks| ensures Apart(RamBlock(id, r.value, size), blocks[j]) {
        if blocks[j].offset < End(blocks[i]) && i != j {
          assert if i < j then Apart(blocks[i], blocks[j]) else Apart(blocks[j], blocks[i]);
        }
      }
    }
  }

  // When there is room and none is found.

  /** `size` bytes from `at` on are free. */
  ghost predicate Room(blocks: seq<RamBlock>, at: nat, size: nat) {
    at + size <= RAM_ADDR_MAX && forall j | 0 <= j < |blocks| :: Apart(RamBlock(0, at, size), blocks[j])
  }

  /** And they are not in front of every block. */
  ghost predicate RoomBehind(blocks: seq<RamBlock>, at: nat, size: nat) {
    Room(blocks, at, size) && exists j | 0 <= j < |blocks| :: blocks[j].offset < at + size
  }

  /** Of the blocks that end at or before `at`, one that ends last. */
  lemma {:induction false} LastBefore(blocks: seq<RamBlock>, at: nat, n: nat) returns (i: nat)
    requires n <= |blocks| && exists j | 0 <= j < n :: End(blocks[j]) <= at
    ensures i < n && End(blocks[i]) <= at
    ensures forall j | 0 <= j < n && End(blocks[j]) <= at :: End(blocks[j]) <= End(blocks[i])
  {
    if exists j | 0 <= j < n - 1 :: End(blocks[j]) <= at {
      i := LastBefore(blocks, at, n - 1);
      if End(blocks[i]) < End(blocks[n - 1]) <= at {
        i := n - 1;
      }
    } else {
      i := n - 1;
    }
  }

  /** The start of the first block at `end` or behind, or the end of the space. */
  lemma {:induction false} StartOf(blocks: seq<RamBlock>, end: nat, n: nat) returns (next: nat)
    requires n <= |blocks| && end <= RAM_ADDR_MAX && forall j | 0 <= j < |blocks| :: BlockOk(blocks[j])
    ensures end <= next <= RAM_ADDR_MAX
    ensures forall j | 0 <= j < n && blocks[j].offset >= end :: next <= blocks[j].offset
    ensures next == RAM_ADDR_MAX || exists j | 0 <= j < n :: blocks[j].offset == next
  {
    next := RAM_ADDR_MAX;
    if n > 0 {
      next := StartOf(blocks, end, n - 1);
      if end <= blocks[n - 1].offset < next {
        next := blocks[n - 1].offset;
      }
    }
  }

  /** Room behind some block lies in the gap of the last block in front of it. */
  lemma RoomHasGap(blocks: seq<RamBlock>, at: nat, size: nat) returns (i: nat, next: nat)
    requires Disjoint(blocks) && 0 < size && RoomBehind(blocks, at, size)
    ensures Gap(blocks, i, next, size)
  {
    var j :| 0 <= j < |blocks| && blocks[j].offset < at + size;
    assert Apart(RamBlock(0, at, size), blocks[j]);
    i := LastBefore(blocks, at, |blocks|);
    next := StartOf(blocks, End(blocks[i]), |blocks|);
  }

  lemma GapHasRoom(blocks: seq<RamBlock>, i: nat, next: nat, size: nat)
    requires Disjoint(blocks) && Gap(blocks, i, next, size)
    ensures RoomBehind(blocks, End(blocks[i]), size)
  {
    forall j | 0 <= j < |blocks| ensures Apart(RamBlock(0, End(blocks[i]), size), blocks[j]) {
      if blocks[j].offset < End(blocks[i]) && i != j {
        assert if i < j then Apart(blocks[i], blocks[j]) else Apart(blocks[j], blocks[i]);
      }
    }
  }

  /** The search succeeds exactly when there is room that is not in front of every block. */
  lemma SearchExact(blocks: seq<RamBlock>, size: nat, r: Option<nat>)
    requires Disjoint(blocks) && blocks != [] && 0 < size && Chosen(blocks, size, r)
    ensures r.Some? <==> exists at: nat :: RoomBehind(blocks, at, size)
  {
    if at: nat :| RoomBehind(blocks, at, size) {
      var i, next := RoomHasGap(blocks, at, size);
    }
    if r.Some? {
      var i: nat, next: nat :| Gap(blocks, i, next, size) && r.value == End(blocks[i]);
      GapHasRoom(blocks, i, next, size);
    }
  }

  /** So it misses only room in front of every block, and with a block below `size` it misses none. */
  lemma SearchMisses(blocks: seq<RamBlock>, size: nat, r: Option<nat>, at: nat)
    requires Disjoint(blocks) && blocks != [] && 0 < size && Chosen(blocks, size, r) && Room(blocks, at, size)
    ensures r.None? ==> forall j | 0 <= j < |blocks| :: at + size <= blocks[j].offset
    ensures (exists j | 0 <= j < |blocks| :: blocks[j].offset < size) ==> r.Some?
  {
    SearchExact(blocks, size, r);
    if r.None? {
      assert !RoomBehind(blocks, at, size);
    }
  }

  lemma AfterOnly(b: RamBlock, size: nat, r: Option<nat>)
    requires BlockOk(b) && 0 < size <= RAM_ADDR_MAX - End(b) && Chosen([b], size, r)
    ensures r == Some(End(b))
  {
    assert Gap([b], 0, RAM_ADDR_MAX, size);
  }

  lemma InOrder(a: RamBlock, b: RamBlock, blocks: seq<RamBlock>)
    requires exists i | 0 <= i <= 1 :: blocks == [a][..i] + [b] + [a][i..]
    requires Descending(blocks) && a.maxLength != b.maxLength
    ensures blocks == if a.maxLength < b.maxLength then [b, a] else [a, b]
  {
    var i :| 0 <= i <= 1 && blocks == [a][..i] + [b] + [a][i..];
    assert blocks == if i == 0 then [b, a] else [a, b];
    assert blocks[0].maxLength >= blocks[1].maxLength;
  }

  /** A second block goes behind the only one. */
  method AddSecond(l: RamList, b: RamBlock, id: nat, size: nat) returns (r: Option<nat>)
    requires l.Valid() && l.blocks == [b] && size != b.maxLength && 0 < size <= RAM_ADDR_MAX - End(b)
    modifies l
    ensures l.Valid() && r == Some(End(b)) && Chosen([b], size, r)
    ensures var c := RamBlock(id, End(b), size); l.blocks == if b.maxLength < size then [c, b] else [b, c]
  {
    assert BlockOk(l.blocks[0]);
    r := l.Add(id, size, true);
    AfterOnly(b, size, r);
    InOrder(b, RamBlock(id, End(b), size), l.blocks);
  }

  /** Room in front of the first block is not used again: after a block of 4 KiB, one of 8 KiB behind it and the release
      of the first, the next 4 KiB go behind the second. */
  method FrontGapIsLost() returns (l: RamList, ghost before: seq<RamBlock>, r: Option<nat>)
    ensures before == [RamBlock(1, 4096, 8192)] && Room(before, 0, 4096) && Chosen(before, 4096, r)
    ensures r == Some(12288) && l.Valid() && l.blocks == before + [RamBlock(2, 12288, 4096)]
  {
    l := new RamList();
    r := l.Add(0, 4096, true);
    assert l.blocks == [RamBlock(0, 0, 4096)];
    r := AddSecond(l, RamBlock(0, 0, 4096), 1, 8192);
    l.Free(1);
    before := l.blocks;
    r := AddSecond(l, RamBlock(1, 4096, 8192), 2, 4096);
  }

  /** The first block of the list that contains the address. */
  function Scan(blocks: seq<RamBlock>, addr: nat): Option<RamBlock> {
    if blocks == [] then None
    else if Contains(blocks[0], addr) then Some(blocks[0])
    else Scan(blocks[1..], addr)
  }

  /** In a disjoint list any block that contains the address is the one a scan finds. */
  lemma {:induction false} ScanFinds(blocks: seq<RamBlock>, addr: nat, i: nat)
    requires Disjoint(blocks) && i < |blocks| && Contains(blocks[i], addr)
    ensures Scan(blocks, addr) == Some(blocks[i])
  {
    if i > 0 {
      assert Apart(blocks[0], blocks[i]);
      forall j, k | 0 <= j < k < |blocks[1..]| ensures Apart(blocks[1..][j], blocks[1..][k]) {
        assert Apart(blocks[j + 1], blocks[k + 1]);
      }
      ScanFinds(blocks[1..], addr, i - 1);
    }
  }

  lemma {:induction false} ScanMisses(blocks: seq<RamBlock>, addr: nat)
    requires forall i | 0 <= i < |blocks| :: !Contains(blocks[i], addr)
    ensures Scan(blocks, addr) == None
  {
    if blocks != [] {
      ScanMisses(blocks[1..], addr);
    }
  }

  class RamList {
    var blocks: seq<RamBlock>
    var mru: Option<RamBlock>
    var version: nat

    ghost predicate Valid()
      reads this
    {
      Disjoint(blocks) && Descending(blocks) && (mru.Some? ==> mru.value in blocks)
    }

    constructor ()
      ensures Valid() && blocks == []
    {
      blocks, mru, version := [], None, 0;
    }

    /** The inner loop of find_ram_offset. */
    method FindNext(end: nat) returns (next: nat)
      requires Valid() && end <= RAM_ADDR_MAX
      ensures NextStart(blocks, end, next)
    {
      next := RAM_ADDR_MAX;
      var i := 0;
      while i < |blocks|
        invariant 0 <= i <= |blocks| && end <= next <= RAM_ADDR_MAX
        invariant forall j | 0 <= j < i && blocks[j].offset >= end :: next <= blocks[j].offset
        invariant next == RAM_ADDR_MAX || exists j | 0 <= j < |blocks| :: blocks[j].offset == next
      {
        if blocks[i].offset >= end && blocks[i].offset < next {
          next := blocks[i].offset;
        }
        i := i + 1;
      }
    }

    /** find_ram_offset; None where the code aborts. */
    method FindRamOffset(size: nat) returns (r: Option<nat>)
      requires Valid() && 0 < size
      ensures Chosen(blocks, size, r)
    {
      if blocks == [] {
        return Some(0);
      }
      var offset: nat, mingap: nat := RAM_ADDR_MAX, RAM_ADDR_MAX;
      ghost var best: nat, bestNext: nat := 0, 0;
      var i: nat := 0;
      while i < |blocks|
        invariant i <= |blocks| && BestOf(blocks, size, i, offset, mingap, best, bestNext)
      {
        var end := End(blocks[i]);
        var next := FindNext(end);
        BestStep(blocks, size, i, offset, mingap, best, bestNext, next);
        if next - end >= size && next - end < mingap {
          offset, mingap := end, next - end;
          best, bestNext := i, next;
        }
        i := i + 1;
      }
      BestChosen(blocks, size, offset, mingap, best, bestNext);
      if offset == RAM_ADDR_MAX {
        return None;
      }
      return Some(offset);
    }

    /** The position before the first smaller block. */
    method InsertPosition(size: nat) returns (i: nat)
      requires Valid()
      ensures i <= |blocks| && (forall j | 0 <= j < i :: blocks[j].maxLength >= size)
      ensures forall j | i <= j < |blocks| :: blocks[j].maxLength < size
    {
      i := 0;
      while i < |blocks| && blocks[i].maxLength >= size
        invariant i <= |blocks| && forall j | 0 <= j < i :: blocks[j].maxLength >= size
      {
        i := i + 1;
      }
    }

    /** ram_block_add; `hostOk` tells whether host memory could be had.  None: out of address space (abort). */
    method Add(id: nat, size: nat, hostOk: bool) returns (r: Option<nat>)
      requires Valid() && 0 < size <= RAM_ADDR_MAX
      modifies this
      ensures Valid() && Chosen(old(blocks), size, r)
      ensures r.Some? && hostOk ==>
                && mru.None? && version == old(version) + 1
                && exists i | 0 <= i <= |old(blocks)| ::
                     blocks == old(blocks)[..i] + [RamBlock(id, r.value, size)] + old(blocks)[i..]
      ensures r.None? || !hostOk ==> blocks == old(blocks) && mru == old(mru) && version == old(version)
    {
      r := FindRamOffset(size);
      if r.None? || !hostOk {
        return;
      }
      ChosenIsFree(blocks, size, r, id);
      var b := RamBlock(id, r.value, size);
      var i := InsertPosition(size);
      InsertKeeps(blocks, b, i);
      blocks := blocks[..i] + [b] + blocks[i..];
      mru, version := None, version + 1;
    }

    /** qemu_ram_free. */
    method Free(i: nat)
      requires Valid() && i < |blocks|
      modifies this
      ensures Valid() && blocks == old(blocks)[..i] + old(blocks)[i + 1..] && mru.None? && version == old(version) + 1
    {
      RemoveKeeps(blocks, i);
      blocks := blocks[..i] + blocks[i + 1..];
      mru, version := None, version + 1;
    }

    /** qemu_get_ram_block agrees with a scan of the list, whatever the cache holds; None where the code aborts. */
    method GetRamBlock(addr: nat) returns (r: Option<RamBlock>)
      requires Valid() && addr < U64
      modifies `mru
      ensures Valid() && r == Scan(blocks, addr)
      ensures r.Some? <==> exists b | b in blocks :: Contains(b, addr)
      ensures r.Some? ==> mru == r
    {
      if mru.Some? && Matches(mru.value, addr) {
        ghost var i: nat :| i < |blocks| && blocks[i] == mru.value;
        MatchesIsContains(mru.value, addr);
        ScanFinds(blocks, addr, i);
        return mru;
      }
      var i: nat := 0;
      while i < |blocks|
        invariant i <= |blocks| && mru == old(mru) && forall j | 0 <= j < i :: !Contains(blocks[j], addr)
      {
        MatchesIsContains(blocks[i], addr);
        if Matches(blocks[i], addr) {
          ScanFinds(blocks, addr, i);
          mru := Some(blocks[i]);
          return mru;
        }
        i := i + 1;
      }
      ScanMisses(blocks, addr);
      return None;
    }
  }

  lemma InsertKeeps(blocks: seq<RamBlock>, b: RamBlock, i: nat)
    requires Disjoint(blocks) && Descending(blocks) && BlockOk(b) && i <= |blocks|
    requires forall j | 0 <= j < |blocks| :: Apart(b, blocks[j])
    requires forall j | 0 <= j < i :: blocks[j].maxLength >= b.maxLength
    requires forall j | i <= j < |blocks| :: blocks[j].maxLength < b.maxLength
    ensures var after := blocks[..i] + [b] + blocks[i..]; Disjoint(after) && Descending(after)
  {
    var after := blocks[..i] + [b] + blocks[i..];
    forall j, k | 0 <= j < k < |after| ensures Apart(after[j], after[k]) && after[j].maxLength >= after[k].maxLength {
      var x := if j < i then j else j - 1;
      var y := if k < i then k else k - 1;
      assert j != i ==> after[j] == blocks[x];
      assert k != i ==> after[k] == blocks[y];
      if j != i && k != i {
        assert Apart(blocks[x], blocks[y]);
      }
    }
  }

  lemma RemoveKeeps(blocks: seq<RamBlock>, i: nat)
    requires Disjoint(blocks) && Descending(blocks) && i < |blocks|
    ensures var after := blocks[..i] + blocks[i + 1..]; Disjoint(after) && Descending(after)
  {
    var after := blocks[..i] + blocks[i + 1..];
    forall j, k | 0 <= j < k < |after| ensures Apart(after[j], after[k]) && after[j].maxLength >= after[k].maxLength {
      var x := if j < i then j else j + 1;
      var y := if k < i then k else k + 1;
      assert after[j] == blocks[x] && after[k] == blocks[y];
      assert Apart(blocks[x], blocks[y]);
    }
  }
}
