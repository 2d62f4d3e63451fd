/**
  The block graph of block.c: reference counting with cascading deletion, backing-chain surgery
  and op blockers.
 */
module BlockGraph {
  import opened Seals
  import opened BlockState

  /** bdrv_op_unblock_all on the op_blockers of a node. */
  method OpUnblockAll(blockers: seq<seq<Reason>>, r: Reason) returns (b: seq<seq<Reason>>)
    ensures b == DropAll(blockers, r)
  {
    b := blockers;
    var op := 0;
    while op < |b|
      invariant 0 <= op <= |b| == |blockers|
      invariant forall i | 0 <= i < |b| :: b[i] == if i < op then Drop(blockers[i], r) else blockers[i]
    {
      b := b[op := Drop(b[op], r)];
      op := op + 1;
    }
  }

  /** bdrv_op_block_all. */
  method OpBlockAll(blockers: seq<seq<Reason>>, r: Reason) returns (b: seq<seq<Reason>>)
    ensures |b| == |blockers| && forall op | 0 <= op < |b| :: b[op] == [r] + blockers[op]
  {
    b := blockers;
    var op := 0;
    while op < |b|
      invariant 0 <= op <= |b| == |blockers|
      invariant forall i | 0 <= i < |b| :: b[i] == if i < op then [r] + blockers[i] else blockers[i]
    {
      b := b[op := [r] + b[op]];
      op := op + 1;
    }
  }

  /** The op_blockers bdrv_set_backing_hd leaves on a backing node. */
  method OpBlockBacking(blockers: seq<seq<Reason>>, r: Reason) returns (b: seq<seq<Reason>>)
    requires |blockers| == OPS
    ensures b == BlockBacking(blockers, r)
  {
    b := OpBlockAll(blockers, r);
    b := b[4 := Drop(b[4], r)];
    b := b[14 := Drop(b[14], r)];
    b := b[0 := Drop(b[0], r)];
    b := b[1 := Drop(b[1], r)];
  }

  class Graph {
    /** all_bdrv_states. */
    var nodes: map<nat, Bds>
    /** Every BdrvChild and the node it points at. */
    var links: map<Link, nat>
    /** References held by callers: block jobs, monitors, and functions of this file on their way. */
    ghost var ext: map<nat, nat>

    ghost function V(): G
      reads this
    {
      G(nodes, links, ext)
    }

    constructor ()
      ensures nodes == map[] && links == map[] && ext == map[] && Inv(V(), multiset{}, {}, {})
    {
      nodes, links, ext := map[], map[], map[];
    }

    /** bdrv_new: the caller holds the first reference. */
    method New(n: nat, ghost owed: multiset<nat>)
      requires n !in nodes && Inv(V(), owed, {}, {})
      modifies `nodes, `ext
      ensures V() == Created(old(V()), n) && Inv(V(), owed, {}, {})
    {
      CreatedInv(V(), n, owed);
      nodes, ext := nodes[n := Bds(1, seq(OPS, op => []), false)], ext[n := 1];
    }

    /** bdrv_root_attach_child, or bdrv_attach_child for a file: the child takes over a reference. */
    method AttachChild(l: Link, n: nat, ghost owed: multiset<nat>)
      requires Inv(V(), owed + multiset{n}, {}, {}) && l !in links && !l.Backing? && Alive(l, nodes)
      modifies `links
      ensures links == old(links)[l := n] && Inv(V(), owed, {}, {})
    {
      AttachInv(V(), l, n, owed);
      links := links[l := n];
    }

    /** bdrv_root_unref_child. */
    method RootUnrefChild(l: Link, ghost rank: nat -> nat, ghost owed: multiset<nat>)
      requires Inv(V(), owed, {}, {}) && Ranked(links, rank) && l in links && !l.Backing?
      modifies this
      ensures Inv(V(), owed, {}, {}) && Ranked(links, rank)
      ensures Surgery(old(V()), old(links) - {l}, old(ext), V())
    {
      DetachInv(V(), l, owed, {}, {});
      var n := links[l];
      links := links - {l};
      ghost var g := V();
      Unref(n, rank, owed, {}, {});
      CascadeSurgery(g, V(), n, rank);
    }

    /** bdrv_unref, when the reference to `n` is already off the books. */
    method Unref(n: nat, ghost rank: nat -> nat, ghost owed: multiset<nat>, ghost dying: set<nat>, ghost x: set<nat>)
      requires n in nodes && Inv(V(), owed + multiset{n}, dying, x) && Ranked(links, rank)
      requires forall y | y in x :: rank(y) > rank(n)
      modifies this
      ensures Inv(V(), owed, dying, x) && Ranked(links, rank)
      ensures Cascaded(old(V()), V(), n, rank)
      ensures old(nodes[n].refcnt) > 1 ==> V() == Dropped(old(V()), n)
      decreases Live(nodes), 1
    {
      ghost var g := V();
      DroppedInv(g, n, owed, dying, x);
      assert nodes[n].refcnt > 0;
      nodes := nodes[n := nodes[n].(refcnt := nodes[n].refcnt - 1)];
      assert V() == Dropped(g, n);
      if nodes[n].refcnt == 0 {
        assert n in Live(g.nodes) && n !in Live(nodes);
        Delete(n, rank, owed, dying, x);
      } else {
        CascadeNothing(V(), owed, dying, x, n, rank);
      }
      CascadeDropped(g, V(), n, rank);
    }

    /** bdrv_delete. */
    method Delete(n: nat, ghost rank: nat -> nat, ghost owed: multiset<nat>, ghost dying: set<nat>, ghost x: set<nat>)
      requires n in nodes && n !in dying && Inv(V(), owed, dying + {n}, x) && Ranked(links, rank)
      requires forall y | y in x :: rank(y) > rank(n)
      modifies this
      ensures Inv(V(), owed, dying, x) && Ranked(links, rank)
      ensures Cascaded(old(V()), V(), n, rank)
      decreases Live(nodes), 5
    {
      ghost var g := V();
      assert NoBlockers(nodes[n].blockers) by {
        DyingHasNoBlockers(g, n, owed, dying + {n}, x);
      }
      Close(n, rank, owed, dying + {n}, x);
      RemovedInv(V(), n, owed, dying + {n}, x);
      assert dying + {n} - {n} == dying && x - {n} == x;
      nodes, ext := nodes - {n}, ext - {n};
      RankedKept(g.links, V(), rank);
    }

    /** bdrv_close: drops the links of `n`. */
    method Close(n: nat, ghost rank: nat -> nat, ghost owed: multiset<nat>, ghost dying: set<nat>, ghost x: set<nat>)
      requires n in nodes && n in dying && Inv(V(), owed, dying, x) && Ranked(links, rank)
      requires forall y | y in x :: rank(y) > rank(n)
      modifies this
      ensures Inv(V(), owed, dying, x) && n in nodes && Backing(n) !in links && File(n) !in links
      ensures Cascaded(old(V()), Removed(V(), n), n, rank)
      decreases Live(nodes), 4
    {
      ghost var g := V();
      ghost var b, g1 := CloseBacking(n, rank, owed, dying, x);
      ghost var f := CloseFile(n, rank, owed, dying, x);
      assert NodeOk(g, n, owed, dying);
      CascadeDelete(g, g1, V(), Removed(V(), n), n, b, f, rank);
    }

    /** bdrv_set_backing_hd(n, NULL) in bdrv_close; `g1` is the graph before backing_blocker is cleared. */
    method CloseBacking(n: nat, ghost rank: nat -> nat, ghost owed: multiset<nat>, ghost dying: set<nat>,
                        ghost x: set<nat>)
      returns (ghost b: nat, ghost g1: G)
      requires n in nodes && n in dying && Inv(V(), owed, dying, x) && Ranked(links, rank)
      requires forall y | y in x :: rank(y) > rank(n)
      modifies this
      ensures Inv(V(), owed, dying, x) && Ranked(links, rank) && n in nodes && Backing(n) !in links
      ensures rank(b) <= rank(n) && Live(nodes) <= old(Live(nodes))
      ensures n in g1.nodes && Cascaded(old(V()).(links := old(links) - {Backing(n)}), g1, b, rank)
      ensures V() == Unblocked(g1, n)
      decreases Live(nodes), 3
    {
      ghost var g := V();
      b := n;
      if Backing(n) in links {
        b := DropBacking(n, rank, owed, dying, x);
      } else {
        assert g.(links := g.links - {Backing(n)}) == g;
        CascadeNothing(g, owed, dying, x, b, rank);
      }
      g1 := V();
      UnblockedInv(g1, n, owed, dying, x);
      nodes := nodes[n := nodes[n].(hasBlocker := false)];
      assert Live(nodes) == Live(g1.nodes);
    }

    /** The part of bdrv_set_backing_hd that drops the old backing node. */
    method DropBacking(n: nat, ghost rank: nat -> nat, ghost owed: multiset<nat>, ghost dying: set<nat>,
                       ghost x: set<nat>)
      returns (ghost b: nat)
      requires n in nodes && Backing(n) in links && Inv(V(), owed, dying, x) && Ranked(links, rank)
      requires forall y | y in x :: rank(y) > rank(n)
      modifies this
      ensures Inv(V(), owed, dying, x + {n}) && Ranked(links, rank) && n in nodes && Backing(n) !in links
      ensures rank(b) < rank(n) && nodes[n].hasBlocker
      ensures Cascaded(old(V()).(links := old(links) - {Backing(n)}), V(), b, rank)
      decreases Live(nodes), 2
    {
      ghost var g := V();
      var child := links[Backing(n)];
      b := child;
      assert nodes[n].hasBlocker;
      DetachBackingInv(g, n, owed, dying, x);
      var unblocked := OpUnblockAll(nodes[child].blockers, Overlay(n));
      nodes := nodes[child := nodes[child].(blockers := unblocked)];
      links := links - {Backing(n)};
      assert V() == DetachBacking(g, n);
      assert Live(nodes) == Live(g.nodes);
      Unref(child, rank, owed, dying, x + {n});
      CascadeDetached(g, V(), n, b, rank);
    }

    /** The file child in bdrv_close. */
    method CloseFile(n: nat, ghost rank: nat -> nat, ghost owed: multiset<nat>, ghost dying: set<nat>,
                     ghost x: set<nat>) returns (ghost f: nat)
      requires n in nodes && n in dying && Inv(V(), owed, dying, x) && Ranked(links, rank)
      requires forall y | y in x :: rank(y) > rank(n)
      modifies this
      ensures Inv(V(), owed, dying, x) && Ranked(links, rank) && n in nodes && File(n) !in links
      ensures rank(f) <= rank(n)
      ensures Cascaded(old(V()).(links := old(links) - {File(n)}), V(), f, rank)
      decreases Live(nodes), 2
    {
      ghost var g := V();
      f := n;
      if File(n) in links {
        var child := links[File(n)];
        f := child;
        DetachInv(g, File(n), owed, dying, x);
        links := links - {File(n)};
        Unref(child, rank, owed, dying, x);
      } else {
        assert g.(links := g.links - {File(n)}) == g;
        CascadeNothing(g, owed, dying, x, f, rank);
      }
    }

    /** bdrv_ref. */
    method Ref(n: nat, ghost owed: multiset<nat>, ghost x: set<nat>)
      requires n in nodes && Inv(V(), owed, {}, x)
      modifies `nodes
      ensures V() == Referenced(old(V()), n) && Inv(V(), owed + multiset{n}, {}, x)
    {
      ReferencedInv(V(), n, owed, {}, x);
      nodes := nodes[n := nodes[n].(refcnt := nodes[n].refcnt + 1)];
    }

    /** bdrv_set_backing_hd.  The new backing node must not lead back to `bs`. */
    method SetBacking(bs: nat, hd: Hd, ghost rank: nat -> nat, ghost owed: multiset<nat>)
      requires bs in nodes && Inv(V(), owed, {}, {}) && Ranked(links, rank)
      requires hd.Hd? ==> hd.n in nodes && rank(bs) > rank(hd.n)
      modifies this
      ensures Inv(V(), owed, {}, {}) && Ranked(links, rank) && bs in nodes
      ensures Surgery(old(V()), Rebacked(old(links), bs, hd), old(ext), V())
      ensures KeptAbove(old(nodes).Keys, nodes.Keys, rank, bs)
    {
      ghost var g := V();
      if hd.Hd? {
        Ref(hd.n, owed, {});
        Detached(bs, true, rank, owed + multiset{hd.n});
        ghost var g1 := V();
        assert hd.n in owed + multiset{hd.n};
        AttachBackingInv(g1, bs, hd.n, owed, {}, {bs});
        assert NodeOk(g1, hd.n, owed + multiset{hd.n}, {});
        var blocked := OpBlockBacking(nodes[hd.n].blockers, Overlay(bs));
        links := links[Backing(bs) := hd.n];
        nodes := nodes[hd.n := nodes[hd.n].(blockers := blocked)];
        assert V() == AttachBacking(g1, bs, hd.n);
        assert {bs} - {bs} == {};
        RebackedSurgery(g, g1, bs, hd, V());
      } else {
        Detached(bs, false, rank, owed);
      }
    }

    /** The first half of bdrv_set_backing_hd: no backing link; backing_blocker set when one will follow. */
    method Detached(bs: nat, again: bool, ghost rank: nat -> nat, ghost owed: multiset<nat>)
      requires bs in nodes && Inv(V(), owed, {}, {}) && Ranked(links, rank)
      modifies this
      ensures bs in nodes && Inv(V(), owed, {}, if again then {bs} else {}) && Ranked(links, rank)
      ensures Backing(bs) !in links
      ensures again ==> nodes[bs].hasBlocker
      ensures Surgery(old(V()), old(links) - {Backing(bs)}, old(ext), V())
      ensures KeptAbove(old(nodes).Keys, nodes.Keys, rank, bs)
    {
      var had := DropOld(bs, rank, owed);
      if again && !had {
        FlagInv(V(), bs, owed);
        nodes := nodes[bs := nodes[bs].(hasBlocker := true)];
      } else if !again {
        assert {} + {bs} == {bs};
        UnblockedInv(V(), bs, owed, {}, {});
        nodes := nodes[bs := nodes[bs].(hasBlocker := false)];
      }
    }

    method DropOld(bs: nat, ghost rank: nat -> nat, ghost owed: multiset<nat>) returns (had: bool)
      requires bs in nodes && Inv(V(), owed, {}, {}) && Ranked(links, rank)
      modifies this
      ensures bs in nodes && Inv(V(), owed, {}, {bs}) && Ranked(links, rank) && Backing(bs) !in links
      ensures had ==> nodes[bs].hasBlocker
      ensures Surgery(old(V()), old(links) - {Backing(bs)}, old(ext), V())
      ensures KeptAbove(old(nodes).Keys, nodes.Keys, rank, bs)
    {
      ghost var g, b := V(), bs;
      had := Backing(bs) in links;
      if had {
        b := DropBacking(bs, rank, owed, {}, {});
      } else {
        assert g.(links := g.links - {Backing(bs)}) == g;
        CascadeNothing(g, owed, {}, {}, bs, rank);
      }
      assert {} + {bs} == {bs};
      CascadeSurgery(g.(links := g.links - {Backing(bs)}), V(), b, rank);
    }

    /** change_parent_backing_link, called with a reference to `a`.  The source asserts that no backing
        link points at `a`, except the one that belongs to `b`. */
    method ChangeParents(a: nat, b: nat, ghost rank: nat -> nat, ghost owed: multiset<nat>)
      requires Inv(V(), owed, {}, {}) && Ranked(links, rank) && a in owed && b in nodes && a != b
      requires forall l | l in links && links[l] == a && l.Backing? :: l.p == b
      requires forall l | l in links && links[l] == a && l.File? :: rank(l.p) > rank(b)
      modifies this
      ensures Inv(V(), owed, {}, {}) && Ranked(links, rank)
      ensures nodes.Keys == old(nodes.Keys) && links == Moved(old(links), a, b, {}) && ext == old(ext)
    {
      ghost var links0 := links;
      var todo := set l | l in links && links[l] == a;
      MovedNone(links0, a, b);
      while todo != {}
        invariant Inv(V(), owed, {}, {}) && Ranked(links, rank) && ext == old(ext)
        invariant forall l | l in todo :: l in links0 && links0[l] == a
        invariant nodes.Keys == old(nodes.Keys) && links == Moved(links0, a, b, todo)
        decreases todo
      {
        var l :| l in todo;
        MovedStep(links0, a, b, todo, l);
        todo := todo - {l};
        if l.Backing? {
          assert l.p == b;
        } else {
          MoveParent(l, a, b, rank, owed);
        }
      }
    }

    /** The body of the loop: bdrv_ref(b), bdrv_replace_child, bdrv_unref(a). */
    method MoveParent(l: Link, a: nat, b: nat, ghost rank: nat -> nat, ghost owed: multiset<nat>)
      requires Inv(V(), owed, {}, {}) && Ranked(links, rank) && a in owed && b in nodes
      requires l in links && links[l] == a && !l.Backing? && (l.File? ==> rank(l.p) > rank(b))
      modifies this
      ensures Inv(V(), owed, {}, {}) && Ranked(links, rank) && ext == old(ext)
      ensures nodes.Keys == old(nodes.Keys) && links == old(links)[l := b]
    {
      Ref(b, owed, {});
      MoveInv(V(), l, b, owed, {}, {});
      links := links[l := b];
      assert NodeOk(V(), a, owed + multiset{a}, {});
      Unref(a, rank, owed, {}, {});
    }

    /** bdrv_append: `bsNew` goes on top of `top` and takes over its parents.  The call consumes one
        reference to `bsNew`. */
    method Append(bsNew: nat, top: nat, ghost rank: nat -> nat, ghost owed: multiset<nat>)
      requires Inv(V(), owed + multiset{bsNew}, {}, {}) && Ranked(links, rank) && top in nodes
      requires rank(bsNew) > rank(top)
      requires forall l | l in links && links[l] == top && l.Backing? :: l.p == bsNew
      requires forall l | l in links && links[l] == top && l.File? :: rank(l.p) > rank(bsNew)
      modifies this
      ensures Inv(V(), owed, {}, {}) && Ranked(links, rank)
      ensures Surgery(old(V()), Appended(old(links), bsNew, top), old(ext), V())
    {
      ghost var g := V();
      ghost var debt := owed + multiset{bsNew};
      assert bsNew in debt;
      Ref(top, debt, {});
      ChangeParents(top, bsNew, rank, debt + multiset{top});
      MovedSurgery(g, V(), top, bsNew);
      ghost var g1 := V();
      SetBacking(bsNew, Hd(top), rank, debt + multiset{top});
      assert Surgery(g, Appended(g.links, bsNew, top), g.ext, V());
      ghost var g2 := V();
      assert debt + multiset{top} == owed + multiset{top} + multiset{bsNew};
      assert top in debt + multiset{top} && bsNew in debt;
      Unref(top, rank, debt, {}, {});
      SurgeryCascade(g, Appended(g.links, bsNew, top), g.ext, g2, V(), top, rank);
      ghost var g3 := V();
      Unref(bsNew, rank, owed, {}, {});
      SurgeryCascade(g, Appended(g.links, bsNew, top), g.ext, g3, V(), bsNew, rank);
    }

    /** bdrv_replace_in_backing_chain. */
    method ReplaceInBackingChain(a: nat, b: nat, ghost rank: nat -> nat, ghost owed: multiset<nat>)
      requires Inv(V(), owed, {}, {}) && Ranked(links, rank) && a in nodes && b in nodes && a != b
      requires forall l | l in links && links[l] == a && l.Backing? :: l.p == b
      requires forall l | l in links && links[l] == a && l.File? :: rank(l.p) > rank(b)
      modifies this
      ensures Inv(V(), owed, {}, {}) && Ranked(links, rank)
      ensures Surgery(old(V()), Moved(old(links), a, b, {}), old(ext), V())
    {
      ghost var g := V();
      Ref(a, owed, {});
      ChangeParents(a, b, rank, owed + multiset{a});
      MovedSurgery(g, V(), a, b);
      ghost var g1 := V();
      assert a in owed + multiset{a};
      Unref(a, rank, owed, {}, {});
      SurgeryCascade(g, Moved(g.links, a, b, {}), g.ext, g1, V(), a, rank);
    }

    /** bdrv_unref by a holder outside the graph, who no longer blocks operations when this is the last
        reference from outside. */
    method Release(n: nat, ghost rank: nat -> nat)
      requires Inv(V(), multiset{}, {}, {}) && Ranked(links, rank) && n in nodes && ext[n] > 0
      requires ext[n] == 1 ==> forall op, k: nat | 0 <= op < |nodes[n].blockers| :: Other(k) !in nodes[n].blockers[op]
      modifies this
      ensures Inv(V(), multiset{}, {}, {}) && Ranked(links, rank)
      ensures Surgery(old(V()), old(links), old(ext)[n := old(ext)[n] - 1], V())
    {
      ReleasedInv(V(), n);
      ext := ext[n := ext[n] - 1];
      ghost var g := V();
      assert multiset{} + multiset{n} == multiset{n};
      Unref(n, rank, multiset{}, {}, {});
      CascadeSurgery(g, V(), n, rank);
    }

    /** bdrv_op_block by a user of the node, who holds a reference to it. */
    method OpBlock(n: nat, op: nat, k: nat, ghost owed: multiset<nat>)
      requires Inv(V(), owed, {}, {}) && n in nodes && op < |nodes[n].blockers| && ext[n] > 0
      modifies `nodes
      ensures Inv(V(), owed, {}, {})
      ensures nodes.Keys == old(nodes.Keys) && |nodes[n].blockers| == |old(nodes[n].blockers)|
      ensures V() == Relisted(old(V()), n, op, [Other(k)] + old(nodes[n].blockers[op]))
    {
      assert NodeOk(V(), n, owed, {});
      var list := [Other(k)] + nodes[n].blockers[op];
      RelistedInv(V(), n, op, list, owed);
      nodes := nodes[n := nodes[n].(blockers := nodes[n].blockers[op := list])];
    }

    /** bdrv_op_unblock of a user's reason. */
    method OpUnblock(n: nat, op: nat, k: nat, ghost owed: multiset<nat>)
      requires Inv(V(), owed, {}, {}) && n in nodes && op < |nodes[n].blockers|
      modifies `nodes
      ensures Inv(V(), owed, {}, {})
      ensures nodes.Keys == old(nodes.Keys) && |nodes[n].blockers| == |old(nodes[n].blockers)|
      ensures Other(k) !in nodes[n].blockers[op]
      ensures V() == Relisted(old(V()), n, op, Drop(old(nodes[n].blockers[op]), Other(k)))
    {
      assert NodeOk(V(), n, owed, {});
      var list := Drop(nodes[n].blockers[op], Other(k));
      DropCounts(nodes[n].blockers[op], Other(k), Other(k));
      forall j: nat | Other(j) in list ensures Other(j) in nodes[n].blockers[op] {
        DropCounts(nodes[n].blockers[op], Other(k), Other(j));
      }
      RelistedInv(V(), n, op, list, owed);
      nodes := nodes[n := nodes[n].(blockers := nodes[n].blockers[op := list])];
    }

    /** bdrv_op_is_blocked: some overlay has the node as its backing node and the operation is not one of the four
        that leaves possible, or a user blocks it. */
    method OpIsBlocked(n: nat, op: nat, ghost owed: multiset<nat>) returns (blocked: bool)
      requires Inv(V(), owed, {}, {}) && n in nodes && op < OPS
      ensures NodeOk(V(), n, owed, {})
      ensures blocked <==>
                (exists p: nat :: Blocks(links, p, n, op) == 1) || (exists k: nat :: Other(k) in nodes[n].blockers[op])
    {
      assert NodeOk(V(), n, owed, {});
      WhyBlocked(V(), n, op);
      return nodes[n].blockers[op] != [];
    }

    /** backing_bs. */
    function BackingOf(n: nat): Hd
      reads this
    {
      if Backing(n) in links then Hd(links[Backing(n)]) else NoHd
    }

    /** bdrv_find_overlay: the layer of the chain of `active` whose backing node is `bs`. */
    method FindOverlay(active: nat, bs: nat, ghost rank: nat -> nat) returns (r: Hd)
      requires Ranked(links, rank)
      ensures r.Hd? ==> r.n in Chain(links, rank, active) && BackingOf(r.n) == Hd(bs)
      ensures r.NoHd? ==> forall m | m in Chain(links, rank, active) :: BackingOf(m) != Hd(bs)
    {
      r := Hd(active);
      while r.Hd? && BackingOf(r.n) != Hd(bs)
        invariant r.Hd? ==> forall m | m in Chain(links, rank, r.n) :: m in Chain(links, rank, active)
        invariant forall m | m in Chain(links, rank, active) && BackingOf(m) == Hd(bs) ::
                    r.Hd? && m in Chain(links, rank, r.n)
        decreases if r.Hd? then rank(r.n) + 1 else 0
      {
        r := BackingOf(r.n);
      }
    }

    /** bdrv_chain_contains. */
    method ChainContains(top: nat, base: nat, ghost rank: nat -> nat) returns (r: bool)
      requires Ranked(links, rank)
      ensures r <==> base in Chain(links, rank, top)
    {
      var n := Hd(top);
      while n.Hd? && n.n != base
        invariant base in Chain(links, rank, top) <==> n.Hd? && base in Chain(links, rank, n.n)
        decreases if n.Hd? then rank(n.n) + 1 else 0
      {
        n := BackingOf(n.n);
      }
      return n.Hd?;
    }

    /** bdrv_drop_intermediate.  `changed` is what bdrv_change_backing_file returns. */
    method DropIntermediate(active: nat, top: nat, base: nat, changed: int, ghost rank: nat -> nat) returns (ret: int)
      requires Inv(V(), multiset{}, {}, {}) && Ranked(links, rank) && active in nodes && top in nodes && base in nodes
      modifies this
      ensures Inv(V(), multiset{}, {}, {}) && Ranked(links, rank)
      ensures ret != 0 ==> V() == old(V())
      ensures ret == 0 ==> exists overlay :: DroppedTo(old(V()), V(), rank, active, top, base, overlay)
      ensures ret == 0 <==> (exists m :: IsOverlay(old(links), rank, active, top, m))
                            && (top == base || (base in Chain(old(links), rank, top) && changed == 0))
    {
      ghost var g := V();
      var o := FindOverlay(active, top, rank);
      if o.NoHd? {
        return -5;
      }
      assert IsOverlay(links, rank, active, top, o.n);
      ChainInGraph(g, rank, active, o.n);
      if BackingOf(o.n) == Hd(base) {
        CascadeNothing(g, multiset{}, {}, {}, active, rank);
        assert Rebacked(links, o.n, Hd(base)) == links;
        ChainRank(links, rank, active, o.n);
        DroppedToHolds(g, g, rank, active, top, base, o.n);
        return 0;
      }
      var contained := ChainContains(top, base, rank);
      if !contained {
        return -5;
      }
      if changed != 0 {
        return changed;
      }
      ChainRank(links, rank, top, base);
      ChainRank(links, rank, active, o.n);
      SetBacking(o.n, Hd(base), rank, multiset{});
      DroppedToHolds(g, V(), rank, active, top, base, o.n);
      return 0;
    }
  }

  lemma ReleasedInv(g: G, n: nat)
    requires Inv(g, multiset{}, {}, {}) && n in g.nodes && g.ext[n] > 0
    requires g.ext[n] == 1 ==> forall op, k: nat | 0 <= op < |g.nodes[n].blockers| ::
               Other(k) !in g.nodes[n].blockers[op]
    ensures Inv(g.(ext := g.ext[n := g.ext[n] - 1]), multiset{n}, {}, {})
  {
    assert Opened(Blockers, true);
    var g' := g.(ext := g.ext[n := g.ext[n] - 1]);
    forall m | m in g'.nodes ensures NodeOk(g', m, multiset{n}, {}) {
      assert NodeOk(g, m, multiset{}, {});
      if m != n {
        KeepBlockers(g, g', m);
      } else {
        forall op, p: nat | 0 <= op < OPS
          ensures multiset(g'.nodes[n].blockers[op])[Overlay(p)] == Blocks(g'.links, p, n, op)
        {
          assert multiset(g.nodes[n].blockers[op])[Overlay(p)] == Blocks(g.links, p, n, op);
        }
      }
    }
    KeepFlags(g, g', {});
  }

  lemma RankedKept(links: map<Link, nat>, g: G, rank: nat -> nat)
    requires Ranked(links, rank) && g.links == Kept(links, g.nodes)
    ensures Ranked(g.links, rank)
  {
  }
}
