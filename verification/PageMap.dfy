/**
  The mutable physical page map of exec.c: node allocation, phys_page_set,
  phys_page_compact and phys_page_find, each proved against `Walk`.
 */
module PageMap {
  import opened Radix
  import opened PhysMap
  import opened Seals

  /** Storage with one slot rewritten (a root entry is not part of the storage). */
  function PutEntry(nodes: seq<Node>, lp: Loc, e: Entry): (r: seq<Node>)
    requires lp.Slot? ==> lp.node < |nodes| && lp.idx < |nodes[lp.node]|
    ensures |r| == |nodes|
  {
    match lp
    case Root => nodes
    case Slot(n, i) => nodes[n := nodes[n][i := e]]
  }

  /** Between the two storages only nodes below the slot `(r, v)` changed or appeared. */
  ghost predicate OnlyUnder(nodes: seq<Node>, tag: seq<Tag>, nodes': seq<Node>, tag': seq<Tag>, r: nat, v: nat)
    requires |tag| == |nodes| && |tag'| == |nodes'|
  {
    && |nodes| <= |nodes'|
    && tag <= tag'
    && (forall m | 0 <= m < |nodes| && !Under(tag[m], r, v) :: nodes'[m] == nodes[m])
    && (forall m | |nodes| <= m < |nodes'| :: Under(tag'[m], r, v))
  }

  /** Before compaction no entry skips more than one level, and only bottom-level leaves are unassigned. */
  ghost predicate Plain(nodes: seq<Node>, tag: seq<Tag>)
    requires |tag| == |nodes|
  {
    forall n {:trigger PlainNode(nodes[n], tag[n])} | 0 <= n < |nodes| :: PlainNode(nodes[n], tag[n])
  }

  ghost predicate PlainNode(n: Node, t: Tag) {
    forall j | 0 <= j < |n| ::
      n[j].skip <= 1 && (n[j].skip == 0 && t.level > 0 ==> n[j].ptr != SECTION_UNASSIGNED)
  }

  /** Node storage in the state phys_page_set needs and keeps. */
  ghost predicate Buildable(nodes: seq<Node>, tag: seq<Tag>, s: set<nat>) {
    && |tag| == |nodes|
    && forall b {:trigger Opened(Tree, b)} :: Opened(Tree, b) ==>
         WellFormed(nodes, tag) && Plain(nodes, tag) && LeavesIn(nodes, s)
  }

  /** The location `lp` holds the entry for the pages `Hi(page, r) == v`. */
  ghost predicate LocOk(lp: Loc, levels: nat, tag: seq<Tag>, r: nat, v: nat) {
    match lp
    case Root => r == levels && v == 0
    case Slot(n, i) => n < |tag| && i < 512 && tag[n].level == r && 512 * tag[n].prefix + i == v
  }

  /** What phys_page_set_level makes of the pages it was given: `[from, to)` become `leaf`. */
  ghost predicate SetPages(nodes: seq<Node>, e: Entry, nodes': seq<Node>, e': Entry,
                           r: nat, v: nat, from: nat, to: nat, leaf: nat)
  {
    forall y: nat | Hi(y, r) == v ::
      Walk(nodes', e', r, y) == if from <= y < to then leaf else Walk(nodes, e, r, y)
  }

  /** No page of `[from, to)` below the entry has a section yet. */
  ghost predicate Unset(nodes: seq<Node>, e: Entry, r: nat, v: nat, from: nat, to: nat) {
    forall y: nat | Hi(y, r) == v && from <= y < to :: Walk(nodes, e, r, y) == SECTION_UNASSIGNED
  }

  /** Nodes one phys_page_set_level call may allocate: one path when an end of the
      range is a boundary of the slot, two paths that part below the slot otherwise. */
  function AllocBound(index: nat, nb: nat, level: nat, v: nat): nat {
    if Aligned(index, level + 1) || Hi(index + nb, level + 1) > v then level + 1 else 2 * level + 1
  }

  /** Nodes one turn of its loop may allocate. */
  function SlotBound(index: nat, nb: nat, level: nat, w: nat): nat {
    if index % Step(level) == 0 && nb >= Step(level) then 0
    else if level > 0 then AllocBound(index, nb, level - 1, w)
    else 0
  }

  /** The allocation budget of a call covers its next slot, whatever the slots before it used. */
  lemma BudgetStep(index0: nat, nb0: nat, level: nat, v: nat, index: nat, nb: nat, i: nat, used: nat)
    requires nb > 0 && index0 <= index && index + nb == index0 + nb0
    requires i < 512 && Hi(index, level) == 512 * v + i
    requires index == index0 || Aligned(index, level)
    requires used <= if Aligned(index0, level + 1) || index == index0 then 0 else level
    ensures used + SlotBound(index, nb, level, 512 * v + i) <= AllocBound(index0, nb0, level, v) - 1
    ensures Hi(index + nb, level) > 512 * v + i ==>
              used + SlotBound(index, nb, level, 512 * v + i) <= if Aligned(index0, level + 1) then 0 else level
  {
    AlignedIsMultiple(index, level);
    if Aligned(index, level) && nb < Step(level) {
      SlotPages(index, level, index + nb);
    }
  }

  /** The pages of a whole slot, and where the next one starts. */
  lemma WholeSlot(x: nat, l: nat)
    requires Aligned(x, l)
    ensures Hi(x + Step(l) - 1, l) == Hi(x, l)
    ensures Hi(x + Step(l), l) == Hi(x, l) + 1 && Aligned(x + Step(l), l)
    ensures forall y: nat :: Hi(y, l) == Hi(x, l) <==> x <= y < x + Step(l)
  {
    NextSlot(x, l);
    SlotPages(x, l, x + Step(l) - 1);
    forall y: nat ensures Hi(y, l) == Hi(x, l) <==> x <= y < x + Step(l) {
      SlotPages(x, l, y);
    }
  }

  /** Writing a leaf over a slot keeps the storage in shape. */
  lemma LeafKeeps(nodes: seq<Node>, tag: seq<Tag>, s: set<nat>, n: nat, i: nat, leaf: nat)
    requires Buildable(nodes, tag, s) && n < |nodes| && i < 512
    requires leaf in s && leaf != SECTION_UNASSIGNED && |nodes[n]| == 512
    ensures Buildable(PutEntry(nodes, Slot(n, i), Entry(0, leaf)), tag, s)
  {
    assert Opened(Tree, true);
    var nodes' := PutEntry(nodes, Slot(n, i), Entry(0, leaf));
    forall m | 0 <= m < |nodes'|
      ensures NodeOk(nodes'[m], tag[m], tag) && PlainNode(nodes'[m], tag[m]) && NodeLeavesIn(nodes'[m], s)
    {
      assert NodeOk(nodes[m], tag[m], tag) && PlainNode(nodes[m], tag[m]) && NodeLeavesIn(nodes[m], s);
    }
  }

  /** The entries of a fresh node. */
  function FreshNode(leaf: bool): (n: Node)
    ensures |n| == 512
  {
    seq(512, i => if leaf then Entry(0, SECTION_UNASSIGNED) else Entry(1, NODE_NIL))
  }

  /** Replacing an empty pointer by a fresh node keeps the storage well formed and every walk. */
  lemma AllocKeeps(nodes: seq<Node>, tag: seq<Tag>, s: set<nat>, lp: Loc, levels: nat, level: nat, v: nat)
    requires Buildable(nodes, tag, s) && SECTION_UNASSIGNED in s
    requires LocOk(lp, levels, tag, level + 1, v) && (lp.Slot? ==> |nodes[lp.node]| == 512)
    requires |nodes| < NODE_NIL
    ensures
      var nodes' := PutEntry(nodes + [FreshNode(level == 0)], lp, Entry(1, |nodes|));
      var tag' := tag + [Tag(level, v)];
      && Buildable(nodes', tag', s)
      && OnlyUnder(PutEntry(nodes, lp, Entry(1, |nodes|)), tag, nodes', tag', level + 1, v)
      && EntryOk(Entry(1, |nodes|), level + 1, v, tag') && nodes'[|nodes|] == FreshNode(level == 0)
  {
    assert Opened(Tree, true);
    var nodes' := PutEntry(nodes + [FreshNode(level == 0)], lp, Entry(1, |nodes|));
    var tag' := tag + [Tag(level, v)];
    forall n | 0 <= n < |nodes'|
      ensures NodeOk(nodes'[n], tag'[n], tag') && PlainNode(nodes'[n], tag'[n]) && NodeLeavesIn(nodes'[n], s)
    {
      if n < |nodes| {
        assert NodeOk(nodes[n], tag[n], tag) && PlainNode(nodes[n], tag[n]) && NodeLeavesIn(nodes[n], s);
      }
    }
  }

  /** A fresh node has no pages, like the empty pointer it replaces. */
  lemma FreshPages(nodes: seq<Node>, nodes': seq<Node>, n: nat, level: nat, v: nat)
    requires n < |nodes'| && n < NODE_NIL && nodes'[n] == FreshNode(level == 0)
    ensures SetPages(nodes, Entry(1, NODE_NIL), nodes', Entry(1, n), level + 1, v, 0, 0, 0)
  {
    var r := level + 1;
    forall y: nat ensures Walk(nodes', Entry(1, n), r, y) == SECTION_UNASSIGNED {
      var e := nodes'[n][Digit(y, level)];
      assert Walk(nodes', Entry(1, n), r, y) == Walk(nodes', e, level, y);
      assert e == if level == 0 then Entry(0, SECTION_UNASSIGNED) else Entry(1, NODE_NIL);
    }
  }

  lemma BuildableFormed(nodes: seq<Node>, tag: seq<Tag>, s: set<nat>)
    requires Buildable(nodes, tag, s)
    ensures WellFormed(nodes, tag)
  {
    assert Opened(Tree, true);
  }

  /** The node at `n`, its entries and its leaves are as they should be. */
  lemma NodeFacts(nodes: seq<Node>, tag: seq<Tag>, s: set<nat>, n: nat)
    requires Buildable(nodes, tag, s) && n < |nodes|
    ensures |nodes[n]| == 512 && NodeOk(nodes[n], tag[n], tag) && PlainNode(nodes[n], tag[n])
  {
    assert Opened(Tree, true);
    assert NodeOk(nodes[n], tag[n], tag) && PlainNode(nodes[n], tag[n]);
  }

  /** Changes below slot `i` of node `n` leave the walks from its other slots alone. */
  lemma OtherSlots(nodes: seq<Node>, tag: seq<Tag>, nodes': seq<Node>, tag': seq<Tag>,
                   n: nat, i: nat, j: nat, page: nat)
    requires WellFormed(nodes, tag) && |tag'| == |nodes'| && n < |nodes| && i < 512 && j < 512 && i != j
    requires |nodes| <= |nodes'| && |nodes'[n]| == 512
    requires nodes'[n] == nodes[n][i := nodes'[n][i]]
    requires forall m | 0 <= m < |nodes| && m != n && !Under(tag[m], tag[n].level, 512 * tag[n].prefix + i) ::
               nodes'[m] == nodes[m]
    ensures Walk(nodes', nodes'[n][j], tag[n].level, page) == Walk(nodes, nodes[n][j], tag[n].level, page)
  {
    assert NodeOk(nodes[n], tag[n], tag);
    WalkFrame(nodes, tag, nodes', nodes[n][j], tag[n].level, 512 * tag[n].prefix + j, page);
  }

  /** Filling the part of `[from, upto)` that falls in slot `i` extends the filled range from `mid`. */
  lemma SlotFilled(nodes0: seq<Node>, nodes: seq<Node>, tag: seq<Tag>, nodes': seq<Node>, tag': seq<Tag>,
                   n: nat, i: nat, from: nat, mid: nat, upto: nat, leaf: nat)
    requires WellFormed(nodes, tag) && |tag'| == |nodes'| && n < |nodes| && n < NODE_NIL && i < 512
    requires |nodes| <= |nodes'| && |nodes'[n]| == 512
    requires nodes'[n] == nodes[n][i := nodes'[n][i]]
    requires forall m | 0 <= m < |nodes| && m != n && !Under(tag[m], tag[n].level, 512 * tag[n].prefix + i) ::
               nodes'[m] == nodes[m]
    requires SetPages(nodes0, Entry(1, n), nodes, Entry(1, n), tag[n].level + 1, tag[n].prefix, from, mid, leaf)
    requires SetPages(nodes, nodes[n][i], nodes', nodes'[n][i], tag[n].level, 512 * tag[n].prefix + i, mid, upto, leaf)
    requires from <= mid < upto
    requires Hi(mid, tag[n].level) == Hi(upto - 1, tag[n].level) == 512 * tag[n].prefix + i
    ensures SetPages(nodes0, Entry(1, n), nodes', Entry(1, n), tag[n].level + 1, tag[n].prefix, from, upto, leaf)
  {
    var l, q := tag[n].level, tag[n].prefix;
    var r := l + 1;
    assert NodeOk(nodes[n], tag[n], tag);
    forall y: nat | Hi(y, r) == q
      ensures Walk(nodes', Entry(1, n), r, y)
           == if from <= y < upto then leaf else Walk(nodes0, Entry(1, n), r, y)
    {
      var j := Digit(y, l);
      assert Walk(nodes', Entry(1, n), r, y) == Walk(nodes', nodes'[n][j], l, y);
      assert Walk(nodes, Entry(1, n), r, y) == Walk(nodes, nodes[n][j], l, y);
      if j != i {
        OtherSlots(nodes, tag, nodes', tag', n, i, j, y);
        if mid <= y < upto {
          HiMonotone(mid, y, l);
          HiMonotone(y, upto - 1, l);
        }
      }
    }
  }

  /** The pages still to be filled are unset in the slot the next of them selects. */
  lemma SlotUnset(nodes0: seq<Node>, nodes: seq<Node>, tag: seq<Tag>, n: nat, i: nat,
                  from: nat, mid: nat, nb: nat, leaf: nat)
    requires WellFormed(nodes, tag) && n < |nodes| && n < NODE_NIL && i < 512 && from <= mid
    requires Unset(nodes0, Entry(1, n), tag[n].level + 1, tag[n].prefix, mid, mid + nb)
    requires SetPages(nodes0, Entry(1, n), nodes, Entry(1, n), tag[n].level + 1, tag[n].prefix, from, mid, leaf)
    ensures |nodes[n]| == 512
    ensures Unset(nodes, nodes[n][i], tag[n].level, 512 * tag[n].prefix + i, mid, mid + nb)
  {
    assert NodeOk(nodes[n], tag[n], tag);
    var l, w := tag[n].level, 512 * tag[n].prefix + i;
    var r := l + 1;
    forall y: nat | Hi(y, l) == w && mid <= y < mid + nb
      ensures Walk(nodes, nodes[n][i], l, y) == SECTION_UNASSIGNED
    {
      assert Hi(y, r) == tag[n].prefix && Digit(y, l) == i;
      assert Walk(nodes, Entry(1, n), r, y) == Walk(nodes, nodes[n][i], l, y);
    }
  }

  /** Changes below one slot of a node are changes below the node's own slot. */
  lemma SlotFrame(nodes: seq<Node>, tag: seq<Tag>, nodes': seq<Node>, tag': seq<Tag>, n: nat, i: nat, e: Entry)
    requires |tag| == |nodes| && |tag'| == |nodes'| && n < |nodes| && |nodes[n]| == 512 && i < 512
    requires OnlyUnder(nodes[n := nodes[n][i := e]], tag, nodes', tag', tag[n].level, 512 * tag[n].prefix + i)
    ensures OnlyUnder(nodes, tag, nodes', tag', tag[n].level + 1, tag[n].prefix)
    ensures nodes'[n] == nodes[n][i := e]
    ensures forall m | 0 <= m < |nodes| && m != n && !Under(tag[m], tag[n].level, 512 * tag[n].prefix + i) ::
              nodes'[m] == nodes[m]
  {
    var mid := nodes[n := nodes[n][i := e]];
    forall m | 0 <= m < |nodes'| && (m < |nodes| ==> !Under(tag[m], tag[n].level + 1, tag[n].prefix))
      ensures m < |nodes| ==> nodes'[m] == nodes[m]
      ensures m >= |nodes| ==> Under(tag'[m], tag[n].level + 1, tag[n].prefix)
    {
      if Under(tag'[m], tag[n].level, 512 * tag[n].prefix + i) {
        UnderTrans(tag'[m], tag[n], i, tag[n].level + 1, tag[n].prefix);
      } else {
        assert nodes'[m] == mid[m];
      }
    }
  }

  /** One phys_page_set_level call once its node exists. */
  datatype Job = Job(n: nat, level: nat, v: nat, index0: nat, nb0: nat, leaf: nat)

  /** The loop of phys_page_set_level before slot `i`: pages below `index` are filled, `nb` are left. */
  ghost predicate Progress(job: Job, nodes0: seq<Node>, tag0: seq<Tag>, nodes: seq<Node>, tag: seq<Tag>,
                           i: nat, index: nat, nb: nat)
  {
    var Job(n, level, v, index0, nb0, leaf) := job;
    && |tag0| == |nodes0| && |tag| == |nodes|
    && n < |nodes0| && n < NODE_NIL && tag0[n] == Tag(level, v) && nb0 > 0
    && Hi(index0, level + 1) == v && Unset(nodes0, Entry(1, n), level + 1, v, index0, index0 + nb0)
    && index0 <= index && index - index0 + nb == nb0
    && (nb > 0 ==> Hi(index, level) == 512 * v + i && (index == index0 || Aligned(index, level)))
    && (nb < nb0 ==> Hi(index - 1, level + 1) == v)
    && OnlyUnder(nodes0, tag0, nodes, tag, level + 1, v)
    && SetPages(nodes0, Entry(1, n), nodes, Entry(1, n), level + 1, v, index0, index, leaf)
    && (nb > 0 ==> |nodes| - |nodes0| <= if Aligned(index0, level + 1) || index == index0 then 0 else level)
    && |nodes| - |nodes0| <= AllocBound(index0, nb0, level, v) - 1
  }

  lemma ProgressReady(job: Job, nodes0: seq<Node>, tag0: seq<Tag>, nodes: seq<Node>, tag: seq<Tag>,
                      i: nat, index: nat, nb: nat)
    requires Progress(job, nodes0, tag0, nodes, tag, i, index, nb) && nb > 0 && i < 512
    requires WellFormed(nodes, tag)
    ensures tag[job.n] == Tag(job.level, job.v) && |nodes[job.n]| == 512
    ensures Unset(nodes, nodes[job.n][i], job.level, 512 * job.v + i, index, index + nb)
    ensures |nodes| - |nodes0| + SlotBound(index, nb, job.level, 512 * job.v + i)
         <= AllocBound(job.index0, job.nb0, job.level, job.v) - 1
  {
    var Job(n, level, v, index0, nb0, leaf) := job;
    assert Unset(nodes0, Entry(1, n), level + 1, v, index, index + nb);
    SlotUnset(nodes0, nodes, tag, n, i, index0, index, nb, leaf);
    BudgetStep(index0, nb0, level, v, index, nb, i, |nodes| - |nodes0|);
  }

  lemma ProgressStep(job: Job, nodes0: seq<Node>, tag0: seq<Tag>, nodes: seq<Node>, tag: seq<Tag>,
                     i: nat, index: nat, nb: nat, nodes': seq<Node>, tag': seq<Tag>, index': nat, nb': nat)
    requires Progress(job, nodes0, tag0, nodes, tag, i, index, nb) && nb > 0 && i < 512
    requires WellFormed(nodes, tag) && WellFormed(nodes', tag') && |nodes| <= |nodes'|
    requires index' - index + nb' == nb
    requires nb' == 0 || (Hi(index', job.level) == 512 * job.v + i + 1 && Aligned(index', job.level))
    requires index' > index && Hi(index' - 1, job.level) == 512 * job.v + i
    requires OnlyUnder(nodes[job.n := nodes[job.n][i := nodes'[job.n][i]]], tag, nodes', tag', job.level,
               512 * job.v + i)
    requires SetPages(nodes, nodes[job.n][i], nodes', nodes'[job.n][i], job.level, 512 * job.v + i, index, index',
               job.leaf)
    requires |nodes'| <= |nodes| + SlotBound(index, nb, job.level, 512 * job.v + i)
    ensures Progress(job, nodes0, tag0, nodes', tag', i + 1, index', nb')
  {
    CountStep(job, |nodes| - |nodes0|, |nodes'| - |nodes0|, i, index, nb, index', nb');
    TreeStep(job, nodes0, tag0, nodes, tag, i, index, nb, nodes', tag', index');
  }

  /** The counting part of a step. */
  lemma CountStep(job: Job, used: nat, used': nat, i: nat, index: nat, nb: nat, index': nat, nb': nat)
    requires nb > 0 && i < 512 && job.index0 <= index && index - job.index0 + nb == job.nb0
    requires Hi(index, job.level) == 512 * job.v + i && (index == job.index0 || Aligned(index, job.level))
    requires used <= if Aligned(job.index0, job.level + 1) || index == job.index0 then 0 else job.level
    requires used' <= used + SlotBound(index, nb, job.level, 512 * job.v + i)
    requires index' > index && index' - index + nb' == nb
    requires nb' == 0 || (Hi(index', job.level) == 512 * job.v + i + 1 && Aligned(index', job.level))
    ensures nb' > 0 ==> used' <= if Aligned(job.index0, job.level + 1) || index' == job.index0 then 0 else job.level
    ensures used' <= AllocBound(job.index0, job.nb0, job.level, job.v) - 1
  {
    BudgetStep(job.index0, job.nb0, job.level, job.v, index, nb, i, used);
    if nb' > 0 {
      HiMonotone(index', index' + nb', job.level);
    }
  }

  /** The part of a step that is about the tree. */
  lemma TreeStep(job: Job, nodes0: seq<Node>, tag0: seq<Tag>, nodes: seq<Node>, tag: seq<Tag>,
                 i: nat, index: nat, nb: nat, nodes': seq<Node>, tag': seq<Tag>, index': nat)
    requires Progress(job, nodes0, tag0, nodes, tag, i, index, nb) && nb > 0 && i < 512
    requires WellFormed(nodes, tag) && WellFormed(nodes', tag') && |nodes| <= |nodes'|
    requires index' > index && Hi(index' - 1, job.level) == 512 * job.v + i
    requires OnlyUnder(nodes[job.n := nodes[job.n][i := nodes'[job.n][i]]], tag, nodes', tag', job.level,
               512 * job.v + i)
    requires SetPages(nodes, nodes[job.n][i], nodes', nodes'[job.n][i], job.level, 512 * job.v + i, index, index',
               job.leaf)
    ensures OnlyUnder(nodes0, tag0, nodes', tag', job.level + 1, job.v)
    ensures SetPages(nodes0, Entry(1, job.n), nodes', Entry(1, job.n), job.level + 1, job.v, job.index0, index',
              job.leaf)
  {
    SlotFrame(nodes, tag, nodes', tag', job.n, i, nodes'[job.n][i]);
    SlotFilled(nodes0, nodes, tag, nodes', tag', job.n, i, job.index0, index, index', job.leaf);
  }

  /** After the last slot the call has filled its pages or reached the end of its own slot. */
  /** What phys_page_set_level makes of the slot `lp` that serves `Hi(page, r) == v`: up to `index` its pages become
      `leaf`, and `nb` pages are left for the next slots. */
  ghost predicate SlotSet(lp: Loc, job: Job, nodes0: seq<Node>, tag0: seq<Tag>, e0: Entry, nodes: seq<Node>,
                          tag: seq<Tag>, e: Entry, index: nat, nb: nat) {
    var r, v := job.level + 1, job.v;
    && |tag0| == |nodes0| && |tag| == |nodes| && e.skip == 1
    && (lp.Slot? ==> lp.node < |nodes0| && lp.idx < |nodes0[lp.node]|)
    && index > job.index0 && index - job.index0 + nb == job.nb0
    && (nb == 0 || (Hi(index, r) == v + 1 && Aligned(index, r))) && Hi(index - 1, r) == v
    && OnlyUnder(PutEntry(nodes0, lp, e), tag0, nodes, tag, r, v)
    && SetPages(nodes0, e0, nodes, e, r, v, job.index0, index, job.leaf)
    && |nodes| <= |nodes0| + AllocBound(job.index0, job.nb0, job.level, v)
  }

  /** The node behind the slot `lp` is there. */
  ghost predicate Entered(lp: Loc, n: nat, r: nat, v: nat, nodes0: seq<Node>, tag0: seq<Tag>, e0: Entry,
                          nodes: seq<Node>, tag: seq<Tag>)
  {
    forall b {:trigger Opened(Tree, b)} :: Opened(Tree, b) ==>
      && |tag0| == |nodes0| && |tag| == |nodes| && |nodes| <= |nodes0| + 1
      && (lp.Slot? ==> lp.node < |nodes0| && lp.idx < |nodes0[lp.node]|)
      && OnlyUnder(PutEntry(nodes0, lp, Entry(1, n)), tag0, nodes, tag, r, v)
      && SetPages(nodes0, e0, nodes, Entry(1, n), r, v, 0, 0, 0)
  }

  lemma LevelBegins(lp: Loc, job: Job, nodes0: seq<Node>, tag0: seq<Tag>, e0: Entry, nodes: seq<Node>, tag: seq<Tag>)
    requires |tag| == |nodes| && job.n < |nodes| && job.n < NODE_NIL && tag[job.n] == Tag(job.level, job.v)
    requires job.nb0 > 0 && Hi(job.index0, job.level + 1) == job.v
    requires Unset(nodes0, e0, job.level + 1, job.v, job.index0, job.index0 + job.nb0)
    requires Entered(lp, job.n, job.level + 1, job.v, nodes0, tag0, e0, nodes, tag)
    ensures Progress(job, nodes, tag, nodes, tag, Digit(job.index0, job.level), job.index0, job.nb0)
  {
    assert Opened(Tree, true);
  }

  lemma LevelDone(lp: Loc, job: Job, nodes0: seq<Node>, tag0: seq<Tag>, e0: Entry, nodes1: seq<Node>, tag1: seq<Tag>,
                  nodes: seq<Node>, tag: seq<Tag>, levels: nat, index: nat, nb: nat)
    requires LocOk(lp, levels, tag0, job.level + 1, job.v)
    requires Entered(lp, job.n, job.level + 1, job.v, nodes0, tag0, e0, nodes1, tag1)
    requires Progress(job, nodes1, tag1, nodes, tag, 512, index, nb)
    ensures SlotSet(lp, job, nodes0, tag0, e0, nodes, tag, Entry(1, job.n), index, nb)
    ensures lp.Slot? ==> lp.node < |nodes1| && lp.node < |nodes| && nodes[lp.node] == nodes1[lp.node]
  {
    assert Opened(Tree, true);
    assert nb > 0 ==> Hi(index, job.level + 1) == job.v + 1;
  }

  lemma PutSame(nodes: seq<Node>, lp: Loc, e: Entry)
    requires lp.Slot? ==> lp.node < |nodes| && lp.idx < |nodes[lp.node]| && e == nodes[lp.node][lp.idx]
    ensures PutEntry(nodes, lp, e) == nodes
  {
    assert lp.Slot? ==> nodes[lp.node][lp.idx := e] == nodes[lp.node];
  }

  function Max(a: nat, b: nat): nat {
    if a >= b then a else b
  }

  /** Every walk that reached a section still reaches the same section. */
  ghost predicate Kept(nodes: seq<Node>, e: Entry, nodes': seq<Node>, e': Entry, r: nat) {
    forall y: nat :: Walk(nodes, e, r, y) != SECTION_UNASSIGNED ==> Walk(nodes', e', r, y) == Walk(nodes, e, r, y)
  }

  /** The same for the walks that start at slot `j` of node `n`. */
  ghost predicate KeptAt(nodes: seq<Node>, nodes': seq<Node>, n: nat, j: nat, r: nat)
    requires n < |nodes| && j < |nodes[n]| && n < |nodes'| && j < |nodes'[n]|
  {
    Kept(nodes, nodes[n][j], nodes', nodes'[n][j], r)
  }

  /** Compacting below slot `i` keeps what every slot of the node reaches. */
  lemma SlotCompacted(nodes0: seq<Node>, nodes: seq<Node>, nodes': seq<Node>, tag: seq<Tag>, n: nat, i: nat)
    requires WellFormed(nodes0, tag) && WellFormed(nodes, tag) && WellFormed(nodes', tag)
    requires n < |nodes| && i < 512
    requires OnlyUnder(nodes0, tag, nodes, tag, tag[n].level + 1, tag[n].prefix)
    requires forall j | 0 <= j < 512 :: KeptAt(nodes0, nodes, n, j, tag[n].level)
    requires KeptAt(nodes, nodes', n, i, tag[n].level)
    requires OnlyUnder(PutEntry(nodes, Slot(n, i), nodes'[n][i]), tag, nodes', tag, tag[n].level,
               512 * tag[n].prefix + i)
    ensures OnlyUnder(nodes0, tag, nodes', tag, tag[n].level + 1, tag[n].prefix)
    ensures forall j | 0 <= j < 512 && j != i :: nodes'[n][j] == nodes[n][j]
    ensures forall j | 0 <= j < 512 :: KeptAt(nodes0, nodes', n, j, tag[n].level)
  {
    var l := tag[n].level;
    SlotFrame(nodes, tag, nodes', tag, n, i, nodes'[n][i]);
    forall j | 0 <= j < 512 ensures KeptAt(nodes0, nodes', n, j, l) {
      forall y: nat | Walk(nodes0, nodes0[n][j], l, y) != SECTION_UNASSIGNED
        ensures Walk(nodes', nodes'[n][j], l, y) == Walk(nodes0, nodes0[n][j], l, y)
      {
        assert KeptAt(nodes0, nodes, n, j, l);
        if j != i {
          OtherSlots(nodes, tag, nodes', tag, n, i, j, y);
        }
      }
    }
  }

  /** What is below the node a pointer entry names is below the entry's slot. */
  lemma TargetBelow(e: Entry, r: nat, v: nat, tag: seq<Tag>)
    requires EntryOk(e, r, v, tag) && e.skip > 0 && e.ptr != NODE_NIL
    ensures forall t :: Under(t, tag[e.ptr].level + 1, tag[e.ptr].prefix) ==> Under(t, r, v)
  {
    var l, q := tag[e.ptr].level, tag[e.ptr].prefix;
    forall t | Under(t, l + 1, q) ensures Under(t, r, v) {
      HiHi(t.prefix, l - t.level, e.skip - 1);
    }
  }

  /** Compacting all slots of a node keeps what the entry pointing at the node reaches. */
  lemma NodeCompacted(nodes: seq<Node>, nodes': seq<Node>, tag: seq<Tag>, e: Entry, r: nat, v: nat)
    requires WellFormed(nodes, tag) && WellFormed(nodes', tag)
    requires EntryOk(e, r, v, tag) && e.skip > 0 && e.ptr != NODE_NIL
    requires OnlyUnder(nodes, tag, nodes', tag, tag[e.ptr].level + 1, tag[e.ptr].prefix)
    requires forall j | 0 <= j < 512 :: KeptAt(nodes, nodes', e.ptr, j, tag[e.ptr].level)
    ensures Kept(nodes, e, nodes', e, r)
    ensures OnlyUnder(nodes, tag, nodes', tag, r, v)
  {
    TargetBelow(e, r, v, tag);
    forall y: nat | Walk(nodes, e, r, y) != SECTION_UNASSIGNED
      ensures Walk(nodes', e, r, y) == Walk(nodes, e, r, y)
    {
      assert KeptAt(nodes, nodes', e.ptr, Digit(y, tag[e.ptr].level), tag[e.ptr].level);
    }
  }

  /** The entry that points past the node `e` names to its slot `k`. */
  function Past(nodes: seq<Node>, e: Entry, k: nat): Entry
    requires e.ptr < |nodes| && k < |nodes[e.ptr]|
  {
    var child := nodes[e.ptr][k];
    if child.skip == 0 then Entry(0, child.ptr) else Entry(e.skip + child.skip, child.ptr)
  }

  /** It names a node for part of the pages of the same slot. */
  lemma PastOk(nodes: seq<Node>, tag: seq<Tag>, e: Entry, r: nat, v: nat, k: nat)
    requires WellFormed(nodes, tag) && EntryOk(e, r, v, tag) && e.skip > 0 && e.ptr != NODE_NIL && k < 512
    requires nodes[e.ptr][k].ptr != NODE_NIL
    ensures EntryOk(Past(nodes, e, k), r, v, tag)
  {
    var c, t := nodes[e.ptr][k], tag[e.ptr];
    assert NodeOk(nodes[e.ptr], t, tag);
    assert EntryOk(c, t.level, 512 * t.prefix + k, tag);
    if c.skip > 0 {
      var x := tag[c.ptr].prefix;
      HiHi(x, c.skip - 1, 1);
      assert Hi(x, c.skip) == Hi(512 * t.prefix + k, 1) == t.prefix;
      HiHi(x, c.skip, e.skip - 1);
    }
  }

  /** It reaches every section the old entry reached when slot `k` is the only one in use. */
  lemma PastKeeps(nodes: seq<Node>, tag: seq<Tag>, e: Entry, r: nat, v: nat, k: nat, s: set<nat>)
    requires WellFormed(nodes, tag) && LeavesIn(nodes, s) && NODE_NIL !in s
    requires EntryOk(e, r, v, tag) && e.skip > 0 && e.ptr != NODE_NIL && k < 512
    requires nodes[e.ptr][k].ptr != NODE_NIL
    requires forall j | 0 <= j < 512 && j != k :: nodes[e.ptr][j].ptr == NODE_NIL
    ensures Past(nodes, e, k).skip == 0 ==> Past(nodes, e, k).ptr in s
    ensures Kept(nodes, e, nodes, Past(nodes, e, k), r)
  {
    var t, e' := tag[e.ptr], Past(nodes, e, k);
    assert NodeOk(nodes[e.ptr], t, tag) && NodeLeavesIn(nodes[e.ptr], s);
    forall y: nat | Walk(nodes, e, r, y) != SECTION_UNASSIGNED
      ensures Walk(nodes, e', r, y) == Walk(nodes, e, r, y)
    {
      var d := Digit(y, t.level);
      assert Walk(nodes, e, r, y) == Walk(nodes, nodes[e.ptr][d], t.level, y);
      assert EntryOk(nodes[e.ptr][d], t.level, 512 * t.prefix + d, tag);
    }
  }

  /** Storing an entry in its slot keeps the storage well formed and the entry's own walks. */
  lemma StoreEntry(nodes: seq<Node>, tag: seq<Tag>, lp: Loc, levels: nat, r: nat, v: nat, e: Entry, s: set<nat>)
    requires WellFormed(nodes, tag) && LeavesIn(nodes, s) && LocOk(lp, levels, tag, r, v)
    requires EntryOk(e, r, v, tag) && (e.skip == 0 ==> e.ptr in s)
    ensures var nodes' := PutEntry(nodes, lp, e);
            && WellFormed(nodes', tag) && LeavesIn(nodes', s)
            && (forall y: nat :: Walk(nodes', e, r, y) == Walk(nodes, e, r, y))
  {
    var nodes' := PutEntry(nodes, lp, e);
    forall m | 0 <= m < |nodes|
      ensures NodeOk(nodes'[m], tag[m], tag) && NodeLeavesIn(nodes'[m], s)
    {
      assert NodeOk(nodes[m], tag[m], tag) && NodeLeavesIn(nodes[m], s);
    }
    forall y: nat ensures Walk(nodes', e, r, y) == Walk(nodes, e, r, y) {
      WalkFrame(nodes, tag, nodes', e, r, v, y);
    }
  }

  class PhysPageMap {
    const levels: nat
    var root: Entry
    var nodes: seq<Node>
    var nodesAlloc: nat
    var allocHint: nat
    ghost var tag: seq<Tag>

    ghost predicate Ok(s: set<nat>)
      reads this
    {
      Buildable(nodes, tag, s) && EntryOk(root, levels, 0, tag) && root.skip == 1 && levels > 0 &&
        SECTION_UNASSIGNED in s
    }

    function Get(lp: Loc): (e: Entry)
      reads this
      requires lp.Slot? ==> lp.node < |nodes| && lp.idx < |nodes[lp.node]|
    {
      match lp
      case Root => root
      case Slot(n, i) => nodes[n][i]
    }

    /** phys_page_set_level on the slot `lp`, which serves the pages `Hi(page, level + 1) == v`. */
    method SetLevel(lp: Loc, index0: nat, nb0: nat, leaf: nat, level: nat, ghost v: nat, ghost s: set<nat>)
      returns (index: nat, nb: nat)
      requires Ok(s) && LocOk(lp, levels, tag, level + 1, v) && level < levels
      requires lp.Slot? ==> |nodes[lp.node]| == 512
      requires Get(lp).skip == 1
      requires nb0 > 0 && Hi(index0, level + 1) == v
      requires leaf in s && leaf != SECTION_UNASSIGNED
      requires Unset(nodes, Get(lp), level + 1, v, index0, index0 + nb0)
      requires |nodes| + AllocBound(index0, nb0, level, v) <= nodesAlloc
      requires |nodes| + AllocBound(index0, nb0, level, v) <= NODE_NIL
      modifies `root, `nodes, `tag
      ensures Ok(s)
      ensures lp.Root? || root == old(root)
      ensures lp.Slot? ==> lp.node < |nodes| && |nodes[lp.node]| == 512
      ensures SlotSet(lp, Job(Get(lp).ptr, level, v, index0, nb0, leaf), old(nodes), old(tag), old(Get(lp)), nodes, tag,
                       Get(lp), index, nb)
      ensures Get(lp).skip == 1
      decreases level, 2
    {
      var n := EnsureNode(lp, level, v, s);
      ghost var nodes0, tag0 := nodes, tag;
      LevelBegins(lp, Job(n, level, v, index0, nb0, leaf), old(nodes), old(tag), old(Get(lp)), nodes, tag);
      index, nb := FillSlots(n, index0, nb0, leaf, level, v, s);
      LevelDone(lp, Job(n, level, v, index0, nb0, leaf), old(nodes), old(tag), old(Get(lp)), nodes0, tag0, nodes, tag,
                levels, index, nb);
    }

    /** The loop of phys_page_set_level. */
    method FillSlots(n: nat, index0: nat, nb0: nat, leaf: nat, level: nat, ghost v: nat, ghost s: set<nat>)
      returns (index: nat, nb: nat)
      requires Ok(s) && leaf in s && leaf != SECTION_UNASSIGNED && level < levels
      requires Progress(Job(n, level, v, index0, nb0, leaf), nodes, tag, nodes, tag, Digit(index0, level), index0, nb0)
      requires |nodes| + AllocBound(index0, nb0, level, v) - 1 <= nodesAlloc
      requires |nodes| + AllocBound(index0, nb0, level, v) - 1 <= NODE_NIL
      modifies `root, `nodes, `tag
      ensures Ok(s) && root == old(root)
      ensures Progress(Job(n, level, v, index0, nb0, leaf), old(nodes), old(tag), nodes, tag, 512, index, nb)
      decreases level, 1
    {
      index, nb := index0, nb0;
      var i := Digit(index, level);
      ghost var job := Job(n, level, v, index0, nb0, leaf);
      while nb > 0 && i < 512
        invariant 0 <= i <= 512
        invariant Ok(s) && root == old(root)
        invariant Progress(job, old(nodes), old(tag), nodes, tag, i, index, nb)
      {
        assert Opened(Tree, true);
        ghost var nodes1, tag1, index1, nb1 := nodes, tag, index, nb;
        ProgressReady(job, old(nodes), old(tag), nodes, tag, i, index, nb);
        index, nb := FillSlot(n, i, index, nb, leaf, level, v, s);
        ProgressStep(job, old(nodes), old(tag), nodes1, tag1, i, index1, nb1, nodes, tag, index, nb);
        i := i + 1;
      }
    }

    /** The start of phys_page_set_level: the node behind `lp`, allocated when there is none. */
    method EnsureNode(lp: Loc, level: nat, ghost v: nat, ghost s: set<nat>) returns (n: nat)
      requires Ok(s) && LocOk(lp, levels, tag, level + 1, v) && level < levels
      requires lp.Slot? ==> |nodes[lp.node]| == 512
      requires Get(lp).skip == 1
      requires |nodes| < nodesAlloc && |nodes| < NODE_NIL
      modifies `root, `nodes, `tag
      ensures Ok(s) && n < |nodes| <= old(|nodes|) + 1 && n < NODE_NIL && tag[n] == Tag(level, v)
      ensures lp.Root? || root == old(root)
      ensures lp.Slot? ==> lp.node < |nodes| && |nodes[lp.node]| == 512
      ensures Get(lp) == Entry(1, n)
      ensures Entered(lp, n, level + 1, v, old(nodes), old(tag), old(Get(lp)), nodes, tag)
    {
      if lp.Slot? {
        NodeFacts(nodes, tag, s, lp.node);
      }
      if Get(lp).ptr == NODE_NIL {
        AllocKeeps(nodes, tag, s, lp, levels, level, v);
        assert PutEntry(nodes + [FreshNode(level == 0)], lp, Entry(1, |nodes|))
            == PutEntry(nodes, lp, Entry(1, |nodes|)) + [FreshNode(level == 0)];
        n := NodeAlloc(level == 0, level, v);
        Put(lp, Entry(1, n));
        FreshPages(old(nodes), nodes, n, level, v);
      } else {
        n := Get(lp).ptr;
        assert lp.Slot? ==> nodes[lp.node][lp.idx := Get(lp)] == nodes[lp.node];
        assert PutEntry(nodes, lp, Get(lp)) == nodes;
      }
    }

    /** One turn of the loop in phys_page_set_level: a whole slot becomes a leaf, a part of one recurses. */
    method FillSlot(n: nat, i: nat, index0: nat, nb0: nat, leaf: nat, level: nat, ghost v: nat, ghost s: set<nat>)
      returns (index: nat, nb: nat)
      requires Ok(s) && n < |nodes| && tag[n] == Tag(level, v) && level < levels && i < 512
      requires nb0 > 0 && Hi(index0, level) == 512 * v + i
      requires leaf in s && leaf != SECTION_UNASSIGNED
      requires |nodes[n]| == 512 && Unset(nodes, nodes[n][i], level, 512 * v + i, index0, index0 + nb0)
      requires |nodes| + SlotBound(index0, nb0, level, 512 * v + i) <= nodesAlloc
      requires |nodes| + SlotBound(index0, nb0, level, 512 * v + i) <= NODE_NIL
      modifies `root, `nodes, `tag
      ensures Ok(s) && root == old(root)
      ensures index - index0 + nb == nb0
      ensures nb == 0 || (Hi(index, level) == 512 * v + i + 1 && Aligned(index, level))
      ensures index > index0 && Hi(index - 1, level) == 512 * v + i
      ensures |nodes| >= old(|nodes|) && |nodes[n]| == 512
      ensures OnlyUnder(old(nodes)[n := old(nodes)[n][i := nodes[n][i]]], old(tag), nodes, tag, level, 512 * v + i)
      ensures SetPages(old(nodes), old(nodes)[n][i], nodes, nodes[n][i], level, 512 * v + i, index0, index, leaf)
      ensures |nodes| <= old(|nodes|) + SlotBound(index0, nb0, level, 512 * v + i)
      decreases level, 0
    {
      NodeFacts(nodes, tag, s, n);
      if index0 % Step(level) == 0 && nb0 >= Step(level) {
        AlignedIsMultiple(index0, level);
        WholeSlot(index0, level);
        LeafKeeps(nodes, tag, s, n, i, leaf);
        Put(Slot(n, i), Entry(0, leaf));
        index, nb := index0 + Step(level), nb0 - Step(level);
      } else {
        assert Step(0) == 1 && index0 % 1 == 0;
        assert nodes[n][i].skip == 1 by {
          assert Walk(nodes, nodes[n][i], level, index0) == SECTION_UNASSIGNED;
        }
        index, nb := SetLevel(Slot(n, i), index0, nb0, leaf, level - 1, 512 * v + i, s);
      }
    }

    /** phys_page_set: the pages `[index, index + nb)`, unset so far, become `leaf`; nothing else changes.
        The reserve covers every node the recursion allocates, so the storage never moves under it. */
    method Set(index: nat, nb: nat, leaf: nat, ghost s: set<nat>)
      requires Ok(s) && leaf in s && leaf != SECTION_UNASSIGNED
      requires nb > 0 && index + nb <= Step(levels)
      requires Unset(nodes, root, levels, 0, index, index + nb)
      requires |nodes| + 3 * levels <= NODE_NIL
      modifies this
      ensures Ok(s)
      ensures SetPages(old(nodes), old(root), nodes, root, levels, 0, index, index + nb, leaf)
      ensures |nodes| <= old(|nodes|) + 2 * levels - 1 && |nodes| <= nodesAlloc
    {
      NodeReserve(3 * levels);
      HiZero(index, levels);
      var index', nb' := SetLevel(Root, index, nb, leaf, levels - 1, 0, s);
      if nb' > 0 {
        HiZero(index', levels);
      }
    }

    /** phys_map_node_reserve; `allocHint` is the function's static variable. */
    method NodeReserve(n: nat)
      modifies `nodesAlloc, `allocHint
      ensures |nodes| + n <= nodesAlloc
      ensures nodesAlloc >= old(nodesAlloc)
    {
      if |nodes| + n > nodesAlloc {
        nodesAlloc := Max(nodesAlloc, allocHint);
        nodesAlloc := Max(nodesAlloc, |nodes| + n);
        allocHint := nodesAlloc;
      }
    }

    /** phys_page_compact on the slot `lp`, which serves the pages `Hi(page, r) == v`. */
    method Compact(lp: Loc, ghost r: nat, ghost v: nat, ghost s: set<nat>)
      requires WellFormed(nodes, tag) && LeavesIn(nodes, s) && NODE_NIL !in s
      requires LocOk(lp, levels, tag, r, v) && EntryOk(root, levels, 0, tag)
      requires Get(lp).skip > 0
      modifies `root, `nodes
      ensures WellFormed(nodes, tag) && LeavesIn(nodes, s) && EntryOk(root, levels, 0, tag)
      ensures lp.Root? || root == old(root)
      ensures |nodes| == old(|nodes|)
      ensures EntryOk(Get(lp), r, v, tag) && (Get(lp).skip == 0 ==> Get(lp).ptr in s)
      ensures old(Get(lp).ptr) != NODE_NIL ==> Get(lp).ptr != NODE_NIL
      ensures OnlyUnder(PutEntry(old(nodes), lp, Get(lp)), tag, nodes, tag, r, v)
      ensures Kept(old(nodes), old(Get(lp)), nodes, Get(lp), r)
      decreases r, 0
    {
      assert lp.Slot? ==> NodeOk(nodes[lp.node], tag[lp.node], tag);
      if Get(lp).ptr == NODE_NIL {
        PutSame(nodes, lp, Get(lp));
        return;
      }
      var n := Get(lp).ptr;
      ghost var e := Get(lp);
      TargetBelow(e, r, v, tag);
      var valid, validPtr := CompactSlots(n, s);
      NodeCompacted(old(nodes), nodes, tag, e, r, v);
      PutSame(old(nodes), lp, e);
      // An only child takes the place of its parent, unless the skip field cannot hold both skips.
      if valid == 1 && Get(lp).skip + nodes[n][validPtr].skip < 8 {
        PastOk(nodes, tag, e, r, v, validPtr);
        PastKeeps(nodes, tag, e, r, v, validPtr, s);
        StoreEntry(nodes, tag, lp, levels, r, v, Past(nodes, e, validPtr), s);
        Put(lp, Past(nodes, Get(lp), validPtr));
      }
    }

    /** phys_page_compact_all: every section found before is found again, and nothing is found
        that is not a leaf of the map. */
    method CompactAll(ghost s: set<nat>)
      requires Ok(s) && NODE_NIL !in s
      modifies `root, `nodes
      ensures WellFormed(nodes, tag) && LeavesIn(nodes, s) && EntryOk(root, levels, 0, tag)
      ensures root.skip == 0 ==> root.ptr in s
      ensures Kept(old(nodes), old(root), nodes, root, levels)
    {
      assert Opened(Tree, true);
      if root.skip != 0 {
        Compact(Root, levels, 0, s);
      }
    }

    /** The loop of phys_page_find. */
    method FindEntry(page: nat) returns (ptr: nat)
      requires WellFormed(nodes, tag) && EntryOk(root, levels, 0, tag)
      ensures ptr == Walk(nodes, root, levels, page)
    {
      var lp, i := root, levels;
      ghost var v: nat := 0;
      while lp.skip != 0 && i >= lp.skip
        invariant 0 <= i && EntryOk(lp, i, v, tag)
        invariant Walk(nodes, lp, i, page) == Walk(nodes, root, levels, page)
        decreases i
      {
        i := i - lp.skip;
        if lp.ptr == NODE_NIL {
          return SECTION_UNASSIGNED;
        }
        assert NodeOk(nodes[lp.ptr], tag[lp.ptr], tag);
        v := 512 * tag[lp.ptr].prefix + Digit(page, i);
        lp := nodes[lp.ptr][Digit(page, i)];
      }
      return lp.ptr;
    }

    /** mem_begin's empty map. */
    constructor (levels: nat)
      requires levels > 0
      ensures this.levels == levels
      ensures nodes == [] && tag == [] && root == Entry(1, NODE_NIL)
    {
      this.levels := levels;
      root, nodes, tag := Entry(1, NODE_NIL), [], [];
      nodesAlloc, allocHint := 0, 16;
    }

    /** phys_map_node_alloc. */
    method NodeAlloc(leaf: bool, ghost level: nat, ghost v: nat) returns (ret: nat)
      requires |nodes| < nodesAlloc && |nodes| < NODE_NIL && |tag| == |nodes|
      modifies `nodes, `tag
      ensures ret == old(|nodes|)
      ensures nodes == old(nodes) + [FreshNode(leaf)]
      ensures tag == old(tag) + [Tag(level, v)]
    {
      ret := |nodes|;
      nodes := nodes + [FreshNode(leaf)];
      tag := tag + [Tag(level, v)];
    }

    /** The loop of phys_page_compact: compacts below every pointer slot, counts the slots in use
        and remembers the last of them. */
    method CompactSlots(n: nat, ghost s: set<nat>) returns (valid: nat, validPtr: nat)
      requires WellFormed(nodes, tag) && LeavesIn(nodes, s) && NODE_NIL !in s
      requires n < |nodes| && EntryOk(root, levels, 0, tag)
      modifies `root, `nodes
      ensures WellFormed(nodes, tag) && LeavesIn(nodes, s) && EntryOk(root, levels, 0, tag)
      ensures root == old(root) && |nodes| == old(|nodes|)
      ensures OnlyUnder(old(nodes), tag, nodes, tag, tag[n].level + 1, tag[n].prefix)
      ensures forall j | 0 <= j < 512 :: KeptAt(old(nodes), nodes, n, j, tag[n].level)
      ensures valid == 1 ==> validPtr < 512 && nodes[n][validPtr].ptr != NODE_NIL
      ensures valid == 1 ==> forall j | 0 <= j < 512 && j != validPtr :: nodes[n][j].ptr == NODE_NIL
      decreases tag[n].level, 1
    {
      ghost var l, q := tag[n].level, tag[n].prefix;
      valid, validPtr := 0, 512;
      var i := 0;
      while i < 512
        invariant 0 <= i <= 512
        invariant WellFormed(nodes, tag) && LeavesIn(nodes, s) && root == old(root) && |nodes| == old(|nodes|)
        invariant OnlyUnder(old(nodes), tag, nodes, tag, l + 1, q)
        invariant forall j | 0 <= j < 512 :: KeptAt(old(nodes), nodes, n, j, l)
        invariant valid == 0 ==> forall j | 0 <= j < i :: nodes[n][j].ptr == NODE_NIL
        invariant valid == 1 ==> validPtr < i && nodes[n][validPtr].ptr != NODE_NIL
        invariant valid == 1 ==> forall j | 0 <= j < i && j != validPtr :: nodes[n][j].ptr == NODE_NIL
      {
        if nodes[n][i].ptr != NODE_NIL {
          validPtr, valid := i, valid + 1;
          if nodes[n][i].skip != 0 {
            assert NodeOk(nodes[n], tag[n], tag);
            ghost var nodes1 := nodes;
            Compact(Slot(n, i), l, 512 * q + i, s);
            SlotCompacted(old(nodes), nodes1, nodes, tag, n, i);
          }
        }
        i := i + 1;
      }
    }

    method Put(lp: Loc, e: Entry)
      requires lp.Slot? ==> lp.node < |nodes| && lp.idx < |nodes[lp.node]|
      modifies `root, `nodes
      ensures nodes == PutEntry(old(nodes), lp, e)
      ensures root == if lp.Root? then e else old(root)
    {
      match lp
      case Root => root := e;
      case Slot(n, i) => nodes := nodes[n := nodes[n][i := e]];
    }
  }
}
