/**
  The multi-level physical page map of exec.c: entries, nodes, the walk that
  phys_page_find performs, and the tags that make the node storage a tree.
 */
module PhysMap {
  import opened Radix

  /** PHYS_MAP_NODE_NIL: all ones in the 26-bit pointer field. */
  const NODE_NIL: nat := 0x3FF_FFFF

  /** PHYS_SECTION_UNASSIGNED. */
  const SECTION_UNASSIGNED: nat := 0

  /** PhysPageEntry: `skip` levels to the next node, or a section number when `skip` is 0. */
  datatype Entry = Entry(skip: nat, ptr: nat)

  type Node = seq<Entry>

  /** A node at level `level` serves exactly the pages with `Hi(page, level + 1) == prefix`. */
  datatype Tag = Tag(level: nat, prefix: nat)

  /** A place that holds an entry: the root of the map or one slot of a node. */
  datatype Loc = Root | Slot(node: nat, idx: nat)

  /** The section number phys_page_find reaches from entry `e` with `i` levels to go.
      The last case indexes outside the node storage; well-formed maps exclude it. */
  function Walk(nodes: seq<Node>, e: Entry, i: nat, page: nat): nat
    decreases i
  {
    if e.skip == 0 || i < e.skip then e.ptr
    else if e.ptr == NODE_NIL then SECTION_UNASSIGNED
    else if e.ptr < |nodes| && |nodes[e.ptr]| == 512 then
      Walk(nodes, nodes[e.ptr][Digit(page, i - e.skip)], i - e.skip, page)
    else SECTION_UNASSIGNED
  }

  /** An entry in a slot serving pages `Hi(page, r) == v` points at a node for a part of them. */
  ghost predicate EntryOk(e: Entry, r: nat, v: nat, tag: seq<Tag>) {
    && e.skip <= r
    && (e.skip > 0 && e.ptr != NODE_NIL ==>
          && e.ptr < |tag|
          && tag[e.ptr].level == r - e.skip
          && Hi(tag[e.ptr].prefix, e.skip - 1) == v)
  }

  ghost predicate NodeOk(n: Node, t: Tag, tag: seq<Tag>) {
    && |n| == 512
    && forall j | 0 <= j < 512 :: EntryOk(n[j], t.level, 512 * t.prefix + j, tag)
  }

  ghost predicate WellFormed(nodes: seq<Node>, tag: seq<Tag>) {
    && |tag| == |nodes|
    && (forall n | 0 <= n < |nodes| :: |nodes[n]| == 512)
    && forall n {:trigger NodeOk(nodes[n], tag[n], tag)} | 0 <= n < |nodes| :: NodeOk(nodes[n], tag[n], tag)
  }

  /** The node tagged `t` lies below the slot serving pages `Hi(page, r) == v`. */
  ghost predicate Under(t: Tag, r: nat, v: nat) {
    t.level < r && Hi(t.prefix, r - 1 - t.level) == v
  }

  /** Every section number in a leaf slot is one of `s`. */
  ghost predicate LeavesIn(nodes: seq<Node>, s: set<nat>) {
    forall n {:trigger NodeLeavesIn(nodes[n], s)} | 0 <= n < |nodes| :: NodeLeavesIn(nodes[n], s)
  }

  ghost predicate NodeLeavesIn(n: Node, s: set<nat>) {
    forall j | 0 <= j < |n| && n[j].skip == 0 :: n[j].ptr in s
  }

  /** The node a pointer entry names is below the entry's slot. */
  lemma TargetUnder(e: Entry, r: nat, v: nat, tag: seq<Tag>)
    requires EntryOk(e, r, v, tag) && e.skip > 0 && e.ptr != NODE_NIL
    ensures Under(tag[e.ptr], r, v)
  {
  }

  /** Whatever is below a slot of a node is below what the node itself is below. */
  lemma UnderTrans(t: Tag, n: Tag, j: nat, r: nat, v: nat)
    requires j < 512 && Under(t, n.level, 512 * n.prefix + j) && Under(n, r, v)
    ensures Under(t, r, v)
  {
    HiHi(t.prefix, n.level - 1 - t.level, 1);
    var up := n.level - t.level;
    assert Hi(t.prefix, up) == Hi(512 * n.prefix + j, 1) == n.prefix;
    HiHi(t.prefix, up, r - 1 - n.level);
  }

  /** A walk depends only on the nodes below the slot it starts from. */
  lemma {:induction false} WalkFrame(nodes: seq<Node>, tag: seq<Tag>, nodes': seq<Node>,
                                     e: Entry, r: nat, v: nat, page: nat)
    requires WellFormed(nodes, tag) && EntryOk(e, r, v, tag)
    requires |nodes| <= |nodes'|
    requires forall m | 0 <= m < |nodes| && Under(tag[m], r, v) :: nodes'[m] == nodes[m]
    ensures Walk(nodes, e, r, page) == Walk(nodes', e, r, page)
    decreases r
  {
    if e.skip > 0 && e.ptr != NODE_NIL {
      TargetUnder(e, r, v, tag);
      var t, d := tag[e.ptr], Digit(page, r - e.skip);
      assert NodeOk(nodes[e.ptr], t, tag);
      forall m | 0 <= m < |nodes| && Under(tag[m], t.level, 512 * t.prefix + d)
        ensures nodes'[m] == nodes[m]
      {
        UnderTrans(tag[m], t, d, r, v);
      }
      WalkFrame(nodes, tag, nodes', nodes[e.ptr][d], t.level, 512 * t.prefix + d, page);
    }
  }

  /** A walk ends at the unassigned section or at a leaf of the map. */
  lemma {:induction false} WalkEndsAtLeaf(nodes: seq<Node>, tag: seq<Tag>, e: Entry, r: nat, v: nat,
                                          page: nat, s: set<nat>)
    requires WellFormed(nodes, tag) && EntryOk(e, r, v, tag)
    requires LeavesIn(nodes, s) && (e.skip == 0 ==> e.ptr in s)
    ensures Walk(nodes, e, r, page) in s + {SECTION_UNASSIGNED}
    decreases r
  {
    if e.skip > 0 && e.ptr != NODE_NIL {
      var t, d := tag[e.ptr], Digit(page, r - e.skip);
      assert NodeOk(nodes[e.ptr], t, tag);
      assert NodeLeavesIn(nodes[e.ptr], s);
      WalkEndsAtLeaf(nodes, tag, nodes[e.ptr][d], t.level, 512 * t.prefix + d, page, s);
    }
  }
}
