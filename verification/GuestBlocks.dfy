/**
  The guest-physical blocks a dump walks: guest_phys_blocks_region_add builds the list from the RAM
  sections of the address space, joining neighbours that continue each other in guest and in host memory.
 */
module GuestBlocks {
  import opened Words

  const INT64_END: nat := 0x8000_0000_0000_0000

  /** GuestPhysBlock: guest-physical [start, end) held by the bytes of host memory from `host` on. */
  datatype Block = Block(start: nat, end: nat, host: nat)

  /** Host memory, as far as a dump reads it. */
  type Memory = nat -> Byte

  /** `n` bytes of host memory. */
  function Bytes(mem: Memory, host: nat, n: nat): (s: seq<Byte>)
    ensures |s| == n
  {
    seq(n, i requires 0 <= i => mem(host + i))
  }

  predicate BlockOk(b: Block) {
    b.start < b.end < INT64_END
  }

  /** Non-empty blocks in increasing order of guest address, without overlap. */
  ghost predicate Sorted(blocks: seq<Block>) {
    && (forall i | 0 <= i < |blocks| :: BlockOk(blocks[i]))
    && (forall i, j | 0 <= i < j < |blocks| :: blocks[i].end <= blocks[j].start)
  }

  /** Block `i` holds the guest address. */
  predicate HoldsAddr(blocks: seq<Block>, i: nat, addr: nat) {
    i < |blocks| && blocks[i].start <= addr < blocks[i].end
  }

  /** The host address behind a guest address, if any block holds it. */
  ghost predicate MapsTo(blocks: seq<Block>, addr: nat, host: nat) {
    exists i: nat :: HoldsAddr(blocks, i, addr) && host == blocks[i].host + (addr - blocks[i].start)
  }

  /** A section of the flattened view, as the listener sees it. */
  datatype RamSection = RamSection(ram: bool, device: bool, start: nat, size: nat, host: nat)

  /** The section is RAM that is not a device. */
  predicate Dumped(s: RamSection) {
    s.ram && !s.device
  }

  /** The section is dumped RAM that puts the guest address at the host address. */
  predicate Maps(s: RamSection, addr: nat, host: nat) {
    Dumped(s) && s.start <= addr < s.start + s.size && host == s.host + (addr - s.start)
  }

  /** One of the first `n` sections maps the address. */
  ghost predicate Seen(sections: seq<RamSection>, n: nat, addr: nat, host: nat) {
    exists i: nat :: i < n && i < |sections| && Maps(sections[i], addr, host)
  }

  lemma SeenStep(sections: seq<RamSection>, n: nat)
    requires n < |sections|
    ensures forall addr: nat, host: nat :: Seen(sections, n + 1, addr, host) <==>
              Seen(sections, n, addr, host) || Maps(sections[n], addr, host)
  {
  }

  /** Sections as the memory API reports them: non-empty, in increasing order. */
  ghost predicate Reported(sections: seq<RamSection>) {
    && (forall i | 0 <= i < |sections| :: sections[i].size > 0 && sections[i].start + sections[i].size < INT64_END)
    && (forall i, j | 0 <= i < j < |sections| :: sections[i].start + sections[i].size <= sections[j].start)
  }

  class GuestPhysBlockList {
    var blocks: seq<Block>

    constructor ()
      ensures blocks == []
    {
      blocks := [];
    }

    /** guest_phys_blocks_region_add: the list stays sorted and maps the section's addresses besides its own. */
    method RegionAdd(section: RamSection)
      requires Sorted(blocks)
      requires Dumped(section) ==> section.size > 0 && section.start + section.size < INT64_END
      requires Dumped(section) ==> forall b | b in blocks :: b.end <= section.start
      modifies this
      ensures Sorted(blocks)
      ensures forall b | b in blocks && b !in old(blocks) :: b.end == section.start + section.size
      ensures blocks == if !Dumped(section) then old(blocks)
                        else if Continues(old(blocks), section) then Extended(old(blocks), section)
                        else old(blocks) + [Block(section.start, section.start + section.size, section.host)]
      ensures forall addr: nat, host: nat :: MapsTo(blocks, addr, host) <==>
                old(MapsTo(blocks, addr, host)) || Maps(section, addr, host)
    {
      if !Dumped(section) {
        return;
      }
      ghost var before := blocks;
      var end := section.start + section.size;
      var last := |blocks| - 1;
      if |blocks| > 0 && blocks[last].end == section.start
         && blocks[last].host + (blocks[last].end - blocks[last].start) == section.host {
        blocks := blocks[last := blocks[last].(end := end)];
        Joined(before, section);
      } else {
        blocks := blocks + [Block(section.start, end, section.host)];
        Added(before, section);
      }
    }

    /** guest_phys_blocks_append: the blocks are sorted and map exactly what the RAM sections map. */
    method Append(sections: seq<RamSection>)
      requires blocks == [] && Reported(sections)
      modifies this
      ensures Sorted(blocks)
      ensures forall addr: nat, host: nat ::
                MapsTo(blocks, addr, host) <==> Seen(sections, |sections|, addr, host)
    {
      var n: nat := 0;
      while n < |sections|
        invariant n <= |sections| && Sorted(blocks)
        invariant forall b, j | b in blocks && n <= j < |sections| :: b.end <= sections[j].start
        invariant forall addr: nat, host: nat :: MapsTo(blocks, addr, host) <==> Seen(sections, n, addr, host)
      {
        RegionAdd(sections[n]);
        SeenStep(sections, n);
        n := n + 1;
      }
    }
  }

  /** The section goes on where the last block ends, in guest and in host memory. */
  predicate Continues(blocks: seq<Block>, s: RamSection) {
    && |blocks| > 0 && blocks[|blocks| - 1].end == s.start
    && blocks[|blocks| - 1].host + (blocks[|blocks| - 1].end - blocks[|blocks| - 1].start) == s.host
  }

  function Extended(blocks: seq<Block>, s: RamSection): seq<Block>
    requires |blocks| > 0
  {
    blocks[|blocks| - 1 := blocks[|blocks| - 1].(end := s.start + s.size)]
  }

  lemma Added(blocks: seq<Block>, s: RamSection)
    requires Sorted(blocks) && s.size > 0 && Dumped(s)
    ensures forall addr: nat, host: nat :: MapsTo(blocks + [Block(s.start, s.start + s.size, s.host)], addr, host) <==>
              MapsTo(blocks, addr, host) || Maps(s, addr, host)
  {
    var after := blocks + [Block(s.start, s.start + s.size, s.host)];
    forall addr: nat, host: nat
      ensures MapsTo(after, addr, host) <==>
              MapsTo(blocks, addr, host) || Maps(s, addr, host)
    {
      forall i: nat | i < |blocks| ensures HoldsAddr(after, i, addr) <==> HoldsAddr(blocks, i, addr) {
        assert after[i] == blocks[i];
      }
      assert HoldsAddr(after, |blocks|, addr) <==> s.start <= addr < s.start + s.size;
    }
  }

  lemma Joined(blocks: seq<Block>, s: RamSection)
    requires Sorted(blocks) && s.size > 0 && Dumped(s) && |blocks| > 0 && blocks[|blocks| - 1].end == s.start
    requires blocks[|blocks| - 1].host + (blocks[|blocks| - 1].end - blocks[|blocks| - 1].start) == s.host
    ensures var last := blocks[|blocks| - 1];
            forall addr: nat, host: nat ::
              MapsTo(blocks[|blocks| - 1 := last.(end := s.start + s.size)], addr, host) <==>
              MapsTo(blocks, addr, host) || Maps(s, addr, host)
  {
    var n := |blocks| - 1;
    var after := blocks[n := blocks[n].(end := s.start + s.size)];
    forall addr: nat, host: nat
      ensures MapsTo(after, addr, host) <==>
              MapsTo(blocks, addr, host) || Maps(s, addr, host)
    {
      forall i: nat | i < n ensures HoldsAddr(after, i, addr) <==> HoldsAddr(blocks, i, addr) {
        assert after[i] == blocks[i];
      }
      assert HoldsAddr(after, n, addr) <==> HoldsAddr(blocks, n, addr) || s.start <= addr < s.start + s.size;
    }
  }
}
