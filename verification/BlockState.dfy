/**
  The block graph of block.c as values: nodes with reference counts and op blockers, the BdrvChild
  links between them, and the invariant that ties the three together.
 */
module BlockState {
  import opened Seals

  /** A BdrvChild, named by its owner: `Backing(p)` and `File(p)` belong to node `p`,
      `Root(r)` to a user of the graph such as a BlockBackend. */
  datatype Link = Backing(p: nat) | File(p: nat) | Root(r: nat)

  /** Why an operation is blocked: the backing_blocker of an overlay, or a user's own reason. */
  datatype Reason = Overlay(p: nat) | Other(k: nat)

  /** BLOCK_OP_TYPE_MAX. */
  const OPS: nat := 16

  /** BACKUP_SOURCE, BACKUP_TARGET, COMMIT_TARGET and STREAM stay possible on a backing node. */
  predicate Allowed(op: nat) {
    op == 0 || op == 1 || op == 4 || op == 14
  }

  /** A BlockDriverState: its reference count, op_blockers and whether backing_blocker is set. */
  datatype Bds = Bds(refcnt: int, blockers: seq<seq<Reason>>, hasBlocker: bool)

  /** A snapshot of the graph.  `ext` counts the references held outside the graph. */
  datatype G = G(nodes: map<nat, Bds>, links: map<Link, nat>, ext: map<nat, nat>)

  /** The links that point at a node. */
  ghost function In(links: map<Link, nat>, n: nat): set<Link> {
    set l | l in links && links[l] == n
  }

  predicate Alive(l: Link, nodes: map<nat, Bds>) {
    l.Root? || l.p in nodes
  }

  /** How often overlay `p` must be found among the blockers of operation `op` on node `n`. */
  ghost function Blocks(links: map<Link, nat>, p: nat, n: nat, op: nat): nat {
    if Backing(p) in links && links[Backing(p)] == n && !Allowed(op) then 1 else 0
  }

  ghost predicate RefOk(g: G, n: nat, owed: multiset<nat>, dying: set<nat>)
    requires n in g.nodes && n in g.ext
  {
    && g.nodes[n].refcnt == |In(g.links, n)| + g.ext[n] + owed[n]
    && (g.nodes[n].refcnt > 0 <==> n !in dying)
  }

  /** Backing blockers match backing links exactly; users that block an operation hold a reference. */
  ghost predicate BlockersOk(g: G, n: nat)
    requires n in g.nodes && n in g.ext
  {
    && |g.nodes[n].blockers| == OPS
    && forall b {:trigger Opened(Blockers, b)} :: Opened(Blockers, b) ==> BlockersMatch(g, n)
  }

  ghost predicate BlockersMatch(g: G, n: nat)
    requires n in g.nodes && n in g.ext && |g.nodes[n].blockers| == OPS
  {
    && (forall op, p: nat | 0 <= op < OPS ::
          multiset(g.nodes[n].blockers[op])[Overlay(p)] == Blocks(g.links, p, n, op))
    && (g.ext[n] == 0 ==> forall op, k: nat | 0 <= op < OPS :: Other(k) !in g.nodes[n].blockers[op])
  }

  ghost predicate NodeOk(g: G, n: nat, owed: multiset<nat>, dying: set<nat>)
    requires n in g.nodes && n in g.ext
  {
    RefOk(g, n, owed, dying) && BlockersOk(g, n)
  }

  ghost predicate LinksOk(g: G) {
    forall l {:trigger g.links[l]} {:trigger Alive(l, g.nodes)} | l in g.links ::
      g.links[l] in g.nodes && Alive(l, g.nodes)
  }

  /** Every count is its links plus the references from outside, plus those functions of the block
      layer hold on their way or are about to drop (`owed`).
      Nodes of `dying` are being deleted; nodes of `x` are in the middle of bdrv_set_backing_hd. */
  ghost predicate Inv(g: G, owed: multiset<nat>, dying: set<nat>, x: set<nat>) {
    && g.ext.Keys == g.nodes.Keys
    && LinksOk(g)
    && (forall n | n in owed :: n in g.nodes)
    && (forall n {:trigger NodeOk(g, n, owed, dying)} | n in g.nodes :: NodeOk(g, n, owed, dying))
    && (forall n {:trigger g.nodes[n].hasBlocker} | n in g.nodes && n !in x ::
          g.nodes[n].hasBlocker <==> Backing(n) in g.links)
  }

  /** Links point from higher to lower ranks, so the graph has no cycle. */
  ghost predicate Ranked(links: map<Link, nat>, rank: nat -> nat) {
    forall l {:trigger links[l]} | l in links && !l.Root? :: rank(l.p) > rank(links[l])
  }

  // Op blocker lists.

  /** bdrv_op_unblock on one list: every entry with the reason goes. */
  function Drop(s: seq<Reason>, r: Reason): (t: seq<Reason>)
    ensures multiset(t) == multiset(s)[r := 0]
  {
    if s == [] then []
    else
      var rest := Drop(s[1..], r);
      assert s == [s[0]] + s[1..];
      if s[0] == r then rest else [s[0]] + rest
  }

  lemma DropCounts(s: seq<Reason>, r: Reason, q: Reason)
    ensures multiset(Drop(s, r))[q] == if q == r then 0 else multiset(s)[q]
    ensures q in Drop(s, r) <==> q in s && q != r
  {
    assert q in Drop(s, r) <==> q in multiset(Drop(s, r));
    assert q in s <==> q in multiset(s);
  }

  /** The blockers of a node after bdrv_op_unblock_all. */
  function DropAll(b: seq<seq<Reason>>, r: Reason): (c: seq<seq<Reason>>)
    ensures |c| == |b| && forall op | 0 <= op < |b| :: c[op] == Drop(b[op], r)
  {
    seq(|b|, op requires 0 <= op < |b| => Drop(b[op], r))
  }

  /** The blockers of a backing node: block_all, then unblock the allowed operations. */
  function BlockBacking(b: seq<seq<Reason>>, r: Reason): (c: seq<seq<Reason>>)
    ensures |c| == |b|
    ensures forall op | 0 <= op < |b| :: c[op] == if Allowed(op) then Drop([r] + b[op], r) else [r] + b[op]
  {
    seq(|b|, op requires 0 <= op < |b| => if Allowed(op) then Drop([r] + b[op], r) else [r] + b[op])
  }

  // Links and the sets of links that point at a node.

  lemma InRemove(links: map<Link, nat>, l: Link, n: nat)
    requires l in links
    ensures |In(links - {l}, n)| == |In(links, n)| - if links[l] == n then 1 else 0
  {
    var links' := links - {l};
    if links[l] == n {
      assert In(links', n) == In(links, n) - {l};
    } else {
      assert In(links', n) == In(links, n);
    }
  }

  lemma InAdd(links: map<Link, nat>, l: Link, b: nat, n: nat)
    requires l !in links
    ensures |In(links[l := b], n)| == |In(links, n)| + if b == n then 1 else 0
  {
    if b == n {
      assert In(links[l := b], n) == In(links, n) + {l};
    } else {
      assert In(links[l := b], n) == In(links, n);
    }
  }

  // Steps.

  /** The graph after the backing link of `p` and its blockers are gone. */
  ghost function DetachBacking(g: G, p: nat): G
    requires Backing(p) in g.links && g.links[Backing(p)] in g.nodes
  {
    var b := g.links[Backing(p)];
    G(g.nodes[b := g.nodes[b].(blockers := DropAll(g.nodes[b].blockers, Overlay(p)))], g.links - {Backing(p)}, g.ext)
  }

  lemma DetachBackingInv(g: G, p: nat, owed: multiset<nat>, dying: set<nat>, x: set<nat>)
    requires Inv(g, owed, dying, x) && Backing(p) in g.links
    ensures Inv(DetachBacking(g, p), owed + multiset{g.links[Backing(p)]}, dying, x + {p})
  {
    assert Opened(Blockers, true);
    var g', b := DetachBacking(g, p), g.links[Backing(p)];
    assert NodeOk(g, b, owed, dying);
    assert Backing(p) in In(g.links, b);
    forall n | n in g'.nodes ensures NodeOk(g', n, owed + multiset{b}, dying) {
      assert NodeOk(g, n, owed, dying);
      InRemove(g.links, Backing(p), n);
      forall op, q: nat | 0 <= op < OPS
        ensures multiset(g'.nodes[n].blockers[op])[Overlay(q)] == Blocks(g'.links, q, n, op)
      {
        assert multiset(g.nodes[n].blockers[op])[Overlay(q)] == Blocks(g.links, q, n, op);
        DropCounts(g.nodes[n].blockers[op], Overlay(p), Overlay(q));
      }
      forall op, k: nat | 0 <= op < OPS && g.ext[n] == 0 ensures Other(k) !in g'.nodes[n].blockers[op] {
        DropCounts(g.nodes[n].blockers[op], Overlay(p), Other(k));
      }
    }
    forall n | n in g'.nodes && n !in x + {p} ensures g'.nodes[n].hasBlocker <==> Backing(n) in g'.links {
      assert g.nodes[n].hasBlocker <==> Backing(n) in g.links;
    }
  }

  /** Removing a link other than a backing link: the reference it held is owed. */
  lemma DetachInv(g: G, l: Link, owed: multiset<nat>, dying: set<nat>, x: set<nat>)
    requires Inv(g, owed, dying, x) && l in g.links && !l.Backing?
    ensures Inv(g.(links := g.links - {l}), owed + multiset{g.links[l]}, dying, x)
  {
    var g', b := g.(links := g.links - {l}), g.links[l];
    assert NodeOk(g, b, owed, dying);
    assert l in In(g.links, b);
    forall n | n in g'.nodes ensures NodeOk(g', n, owed + multiset{b}, dying) {
      assert NodeOk(g, n, owed, dying);
      InRemove(g.links, l, n);
      KeepBlockers(g, g', n);
    }
  }

  /** Blockers only depend on the backing links and on whether users hold the node. */
  lemma KeepBlockers(g: G, g': G, n: nat)
    requires n in g.nodes && n in g.ext && n in g'.nodes && n in g'.ext && BlockersOk(g, n)
    requires g'.nodes[n].blockers == g.nodes[n].blockers && (g'.ext[n] == 0 ==> g.ext[n] == 0)
    requires forall p: nat {:trigger Backing(p)} ::
               (Backing(p) in g'.links && g'.links[Backing(p)] == n) <==>
                 (Backing(p) in g.links && g.links[Backing(p)] == n)
    ensures BlockersOk(g', n)
  {
    assert Opened(Blockers, true);
    forall op, p: nat | 0 <= op < OPS
      ensures multiset(g'.nodes[n].blockers[op])[Overlay(p)] == Blocks(g'.links, p, n, op)
    {
      assert multiset(g.nodes[n].blockers[op])[Overlay(p)] == Blocks(g.links, p, n, op);
    }
  }

  /** The blockers of one operation on a node become `list`. */
  ghost function Relisted(g: G, n: nat, op: nat, list: seq<Reason>): G
    requires n in g.nodes && op < |g.nodes[n].blockers|
  {
    g.(nodes := g.nodes[n := g.nodes[n].(blockers := g.nodes[n].blockers[op := list])])
  }

  /** A user that holds a reference may block an operation, and anyone may lift a user's block. */
  lemma RelistedInv(g: G, n: nat, op: nat, list: seq<Reason>, owed: multiset<nat>)
    requires Inv(g, owed, {}, {}) && n in g.nodes && op < OPS == |g.nodes[n].blockers|
    requires forall p: nat :: multiset(list)[Overlay(p)] == multiset(g.nodes[n].blockers[op])[Overlay(p)]
    requires g.ext[n] == 0 ==> forall k: nat | Other(k) in list :: Other(k) in g.nodes[n].blockers[op]
    ensures Inv(Relisted(g, n, op, list), owed, {}, {})
  {
    var g' := Relisted(g, n, op, list);
    forall m | m in g'.nodes ensures NodeOk(g', m, owed, {}) {
      assert NodeOk(g, m, owed, {});
      if m != n {
        KeepBlockers(g, g', m);
      } else {
        RelistedBlockers(g, n, op, list);
      }
    }
    KeepFlags(g, g', {});
  }

  lemma RelistedBlockers(g: G, n: nat, op: nat, list: seq<Reason>)
    requires n in g.nodes && n in g.ext && BlockersOk(g, n) && op < OPS
    requires forall p: nat :: multiset(list)[Overlay(p)] == multiset(g.nodes[n].blockers[op])[Overlay(p)]
    requires g.ext[n] == 0 ==> forall k: nat | Other(k) in list :: Other(k) in g.nodes[n].blockers[op]
    ensures BlockersOk(Relisted(g, n, op, list), n)
  {
    assert Opened(Blockers, true);
    var g' := Relisted(g, n, op, list);
    forall o, p: nat | 0 <= o < OPS
      ensures multiset(g'.nodes[n].blockers[o])[Overlay(p)] == Blocks(g'.links, p, n, o)
    {
      assert multiset(g.nodes[n].blockers[o])[Overlay(p)] == Blocks(g.links, p, n, o);
    }
  }

  /** The first blocker in a list tells why the operation is blocked. */
  lemma WhyBlocked(g: G, n: nat, op: nat)
    requires n in g.nodes && n in g.ext && BlockersOk(g, n) && op < OPS
    ensures g.nodes[n].blockers[op] != [] <==>
              (exists p: nat :: Blocks(g.links, p, n, op) == 1) ||
                (exists k: nat :: Other(k) in g.nodes[n].blockers[op])
  {
    assert Opened(Blockers, true);
    var list := g.nodes[n].blockers[op];
    if list != [] {
      assert list[0] in multiset(list);
      if list[0].Overlay? {
        assert Blocks(g.links, list[0].p, n, op) == multiset(list)[Overlay(list[0].p)];
      }
    } else {
      forall p: nat ensures Blocks(g.links, p, n, op) == 0 {
        assert Blocks(g.links, p, n, op) == multiset(list)[Overlay(p)];
      }
    }
  }

  /** bdrv_ref. */
  ghost function Referenced(g: G, n: nat): G
    requires n in g.nodes
  {
    g.(nodes := g.nodes[n := g.nodes[n].(refcnt := g.nodes[n].refcnt + 1)])
  }

  lemma ReferencedInv(g: G, n: nat, owed: multiset<nat>, dying: set<nat>, x: set<nat>)
    requires Inv(g, owed, dying, x) && n in g.nodes && n !in dying
    ensures Inv(Referenced(g, n), owed + multiset{n}, dying, x)
  {
    var g' := Referenced(g, n);
    forall m | m in g'.nodes ensures NodeOk(g', m, owed + multiset{n}, dying) {
      assert NodeOk(g, m, owed, dying);
      KeepBlockers(g, g', m);
    }
    KeepFlags(g, g', x);
  }

  lemma KeepFlags(g: G, g': G, x: set<nat>)
    requires forall n {:trigger g.nodes[n].hasBlocker} | n in g.nodes && n !in x ::
               g.nodes[n].hasBlocker <==> Backing(n) in g.links
    requires g'.nodes.Keys <= g.nodes.Keys
    requires forall n | n in g'.nodes :: g'.nodes[n].hasBlocker == g.nodes[n].hasBlocker
    requires forall n | n in g'.nodes && n !in x :: Backing(n) in g'.links <==> Backing(n) in g.links
    ensures forall n {:trigger g'.nodes[n].hasBlocker} | n in g'.nodes && n !in x ::
              g'.nodes[n].hasBlocker <==> Backing(n) in g'.links
  {
  }

  /** The owed reference is dropped; a node left without references is dying. */
  ghost function Dropped(g: G, n: nat): G
    requires n in g.nodes
  {
    g.(nodes := g.nodes[n := g.nodes[n].(refcnt := g.nodes[n].refcnt - 1)])
  }

  lemma DroppedInv(g: G, n: nat, owed: multiset<nat>, dying: set<nat>, x: set<nat>)
    requires Inv(g, owed + multiset{n}, dying, x)
    ensures n in g.nodes && g.nodes[n].refcnt > 0 && n !in dying
    ensures Inv(Dropped(g, n), owed, if g.nodes[n].refcnt == 1 then dying + {n} else dying, x)
  {
    assert n in owed + multiset{n};
    var g', dying' := Dropped(g, n), if g.nodes[n].refcnt == 1 then dying + {n} else dying;
    assert NodeOk(g, n, owed + multiset{n}, dying);
    forall m | m in g'.nodes ensures NodeOk(g', m, owed, dying') {
      assert NodeOk(g, m, owed + multiset{n}, dying);
      KeepBlockers(g, g', m);
    }
    KeepFlags(g, g', x);
  }

  /** A dying node without links of its own leaves the graph. */
  ghost function Removed(g: G, n: nat): G {
    G(g.nodes - {n}, g.links, g.ext - {n})
  }

  lemma RemovedInv(g: G, n: nat, owed: multiset<nat>, dying: set<nat>, x: set<nat>)
    requires Inv(g, owed, dying, x) && n in g.nodes && n in dying
    requires Backing(n) !in g.links && File(n) !in g.links
    ensures g.ext[n] == 0 && Inv(Removed(g, n), owed, dying - {n}, x - {n})
  {
    var g' := Removed(g, n);
    assert NodeOk(g, n, owed, dying);
    assert In(g.links, n) == {} by {
      assert |In(g.links, n)| == 0;
    }
    forall l | l in g'.links ensures g'.links[l] in g'.nodes && Alive(l, g'.nodes) {
      assert g.links[l] in g.nodes && Alive(l, g.nodes);
      assert g.links[l] == n ==> l in In(g.links, n);
    }
    forall m | m in g'.nodes ensures NodeOk(g', m, owed, dying - {n}) {
      assert NodeOk(g, m, owed, dying);
      KeepBlockers(g, g', m);
    }
    KeepFlags(g, g', x);
  }

  /** A dying node has no blockers: the assertion in bdrv_delete holds. */
  lemma DyingUnblocked(g: G, n: nat, owed: multiset<nat>, dying: set<nat>, x: set<nat>, op: nat)
    requires Inv(g, owed, dying, x) && n in g.nodes && n in dying && op < OPS
    ensures |g.nodes[n].blockers| == OPS && g.nodes[n].blockers[op] == []
  {
    assert Opened(Blockers, true);
    assert NodeOk(g, n, owed, dying);
    assert In(g.links, n) == {} by {
      assert |In(g.links, n)| == 0;
    }
    var s := g.nodes[n].blockers[op];
    forall r: Reason ensures r !in s {
      match r
      case Overlay(p) =>
        assert Backing(p) !in In(g.links, n);
        assert multiset(s)[Overlay(p)] == Blocks(g.links, p, n, op) == 0;
        assert Overlay(p) !in multiset(s);
      case Other(k) =>
    }
    if s != [] {
      SomeReason(s);
    }
  }

  /** bdrv_op_blocker_is_empty. */
  predicate NoBlockers(b: seq<seq<Reason>>) {
    forall op | 0 <= op < |b| :: b[op] == []
  }

  lemma DyingHasNoBlockers(g: G, n: nat, owed: multiset<nat>, dying: set<nat>, x: set<nat>)
    requires Inv(g, owed, dying, x) && n in g.nodes && n in dying
    ensures NoBlockers(g.nodes[n].blockers)
  {
    assert NodeOk(g, n, owed, dying);
    forall op | 0 <= op < OPS ensures g.nodes[n].blockers[op] == [] {
      DyingUnblocked(g, n, owed, dying, x, op);
    }
  }

  lemma SomeReason(s: seq<Reason>)
    requires s != []
    ensures exists r :: r in s
  {
    assert s[0] in s;
  }

  /** Link `Backing(p)` takes over a reference, and blocks operations on its target. */
  ghost function AttachBacking(g: G, p: nat, b: nat): G
    requires b in g.nodes
  {
    g.(nodes := g.nodes[b := g.nodes[b].(blockers := BlockBacking(g.nodes[b].blockers, Overlay(p)))],
       links := g.links[Backing(p) := b])
  }

  lemma AttachBackingInv(g: G, p: nat, b: nat, owed: multiset<nat>, dying: set<nat>, x: set<nat>)
    requires Inv(g, owed + multiset{b}, dying, x)
    requires p in x && p in g.nodes && Backing(p) !in g.links && g.nodes[p].hasBlocker && b in g.nodes
    ensures Inv(AttachBacking(g, p, b), owed, dying, x - {p})
  {
    var g' := AttachBacking(g, p, b);
    forall n | n in g'.nodes ensures NodeOk(g', n, owed, dying) {
      assert NodeOk(g, n, owed + multiset{b}, dying);
      InAdd(g.links, Backing(p), b, n);
      if n == b {
        AttachBlockers(g, p, b);
      } else {
        KeepBlockers(g, g', n);
      }
    }
    forall n | n in g'.nodes && n !in x - {p} ensures g'.nodes[n].hasBlocker <==> Backing(n) in g'.links {
      if n != p {
        assert g.nodes[n].hasBlocker <==> Backing(n) in g.links;
      }
    }
  }

  lemma AttachBlockers(g: G, p: nat, b: nat)
    requires b in g.nodes && b in g.ext && BlockersOk(g, b) && Backing(p) !in g.links
    ensures BlockersOk(AttachBacking(g, p, b), b)
  {
    assert Opened(Blockers, true);
    var g', r := AttachBacking(g, p, b), Overlay(p);
    forall op, q: nat | 0 <= op < OPS
      ensures multiset(g'.nodes[b].blockers[op])[Overlay(q)] == Blocks(g'.links, q, b, op)
    {
      var s := g.nodes[b].blockers[op];
      assert multiset(s)[Overlay(q)] == Blocks(g.links, q, b, op);
      assert multiset([r] + s) == multiset{r} + multiset(s);
      DropCounts([r] + s, r, Overlay(q));
    }
    forall op, k: nat | 0 <= op < OPS && g'.ext[b] == 0 ensures Other(k) !in g'.nodes[b].blockers[op] {
      DropCounts([r] + g.nodes[b].blockers[op], r, Other(k));
    }
  }

  /** Link `l` turns from its node to `b`, taking over a reference to `b`; its own reference is owed. */
  lemma MoveInv(g: G, l: Link, b: nat, owed: multiset<nat>, dying: set<nat>, x: set<nat>)
    requires Inv(g, owed + multiset{b}, dying, x) && l in g.links && !l.Backing?
    ensures Inv(g.(links := g.links[l := b]), owed + multiset{g.links[l]}, dying, x)
  {
    var a, g' := g.links[l], g.(links := g.links[l := b]);
    assert b in owed + multiset{b};
    DetachInv(g, l, owed + multiset{b}, dying, x);
    var g1 := g.(links := g.links - {l});
    assert g.links[l := b] == g1.links[l := b];
    forall n | n in g'.nodes ensures NodeOk(g', n, owed + multiset{a}, dying) {
      assert NodeOk(g1, n, owed + multiset{b} + multiset{a}, dying);
      InAdd(g1.links, l, b, n);
      KeepBlockers(g1, g', n);
    }
    KeepFlags(g, g', x);
  }

  // What dropping references does to the graph as a whole.

  ghost function Live(nodes: map<nat, Bds>): set<nat> {
    set n | n in nodes && nodes[n].refcnt > 0
  }

  /** The links whose owners are still there. */
  ghost function Kept(links: map<Link, nat>, nodes: map<nat, Bds>): map<Link, nat> {
    map l | l in links && Alive(l, nodes) :: links[l]
  }

  ghost function KeptExt(ext: map<nat, nat>, nodes: map<nat, Bds>): map<nat, nat> {
    map n | n in ext && n in nodes :: ext[n]
  }

  /** Dropping a reference to `n` deletes nodes that nobody outside holds, none ranked above `n`.
      The nodes that stay keep their links. */
  ghost predicate Cascaded(g: G, g': G, n: nat, rank: nat -> nat) {
    && g'.nodes.Keys <= g.nodes.Keys
    && g'.links == Kept(g.links, g'.nodes)
    && g'.ext == KeptExt(g.ext, g'.nodes)
    && Live(g'.nodes) <= Live(g.nodes)
    && (forall m | m in g.nodes && m !in g'.nodes :: m in g.ext && g.ext[m] == 0 && rank(m) <= rank(n))
    && (forall m | m in g'.nodes :: g'.nodes[m].hasBlocker == g.nodes[m].hasBlocker)
  }

  lemma CascadeNothing(g: G, owed: multiset<nat>, dying: set<nat>, x: set<nat>, n: nat, rank: nat -> nat)
    requires Inv(g, owed, dying, x)
    ensures Cascaded(g, g, n, rank)
  {
    assert Kept(g.links, g.nodes) == g.links;
    assert KeptExt(g.ext, g.nodes) == g.ext;
  }

  /** Clearing backing_blocker, the last part of bdrv_set_backing_hd(n, NULL). */
  ghost function Unblocked(g: G, n: nat): G
    requires n in g.nodes
  {
    g.(nodes := g.nodes[n := g.nodes[n].(hasBlocker := false)])
  }

  lemma UnblockedInv(g: G, n: nat, owed: multiset<nat>, dying: set<nat>, x: set<nat>)
    requires Inv(g, owed, dying, x + {n}) && n in g.nodes && Backing(n) !in g.links
    ensures Inv(Unblocked(g, n), owed, dying, x)
  {
    var g' := Unblocked(g, n);
    forall m | m in g'.nodes ensures NodeOk(g', m, owed, dying) {
      assert NodeOk(g, m, owed, dying);
      KeepBlockers(g, g', m);
    }
    forall m | m in g'.nodes && m !in x ensures g'.nodes[m].hasBlocker <==> Backing(m) in g'.links {
      if m != n {
        assert g.nodes[m].hasBlocker <==> Backing(m) in g.links;
      }
    }
  }

  /** A node in the middle of bdrv_set_backing_hd may have backing_blocker set without a link. */
  lemma FlagInv(g: G, n: nat, owed: multiset<nat>)
    requires Inv(g, owed, {}, {n}) && n in g.nodes
    ensures Inv(g.(nodes := g.nodes[n := g.nodes[n].(hasBlocker := true)]), owed, {}, {n})
  {
    var g' := g.(nodes := g.nodes[n := g.nodes[n].(hasBlocker := true)]);
    forall m | m in g'.nodes ensures NodeOk(g', m, owed, {}) {
      assert NodeOk(g, m, owed, {});
      KeepBlockers(g, g', m);
    }
    forall m | m in g'.nodes && m !in {n} ensures g'.nodes[m].hasBlocker <==> Backing(m) in g'.links {
      assert g.nodes[m].hasBlocker <==> Backing(m) in g.links;
    }
  }

  /** A deletion, put together from the two drops it makes on the way. */
  lemma CascadeDelete(g: G, g1: G, g2: G, g': G, n: nat, b: nat, f: nat, rank: nat -> nat)
    requires n in g.nodes && n in g.ext && g.ext[n] == 0 && rank(b) <= rank(n) && rank(f) <= rank(n)
    requires n in g1.nodes && Cascaded(g.(links := g.links - {Backing(n)}), g1, b, rank)
    requires Cascaded(Unblocked(g1, n).(links := g1.links - {File(n)}), g2, f, rank) && n in g2.nodes
    requires g' == Removed(g2, n)
    ensures Cascaded(g, g', n, rank)
  {
    KeptTwice(g.links, g1.nodes, g2.nodes, n);
    LiveUnblocked(g1, n);
    assert g'.ext == KeptExt(g.ext, g'.nodes);
    assert Live(g'.nodes) <= Live(g2.nodes);
  }

  lemma LiveUnblocked(g: G, n: nat)
    requires n in g.nodes
    ensures Live(Unblocked(g, n).nodes) == Live(g.nodes)
  {
  }

  lemma KeptTwice(links: map<Link, nat>, nodes1: map<nat, Bds>, nodes2: map<nat, Bds>, n: nat)
    requires nodes2.Keys <= nodes1.Keys
    ensures Kept(Kept(links - {Backing(n)}, nodes1) - {File(n)}, nodes2) == Kept(links, nodes2 - {n})
  {
  }

  /** The reference that the cascade started from only shows in the count of `n`. */
  lemma CascadeDropped(g: G, g': G, n: nat, rank: nat -> nat)
    requires n in g.nodes && Cascaded(Dropped(g, n), g', n, rank)
    ensures Cascaded(g, g', n, rank)
  {
    assert Live(Dropped(g, n).nodes) <= Live(g.nodes);
  }

  /** Detaching a backing link changes blockers, which the cascade does not mention. */
  lemma CascadeDetached(g: G, g': G, p: nat, b: nat, rank: nat -> nat)
    requires Backing(p) in g.links && g.links[Backing(p)] in g.nodes
    requires Cascaded(DetachBacking(g, p), g', b, rank)
    ensures Cascaded(g.(links := g.links - {Backing(p)}), g', b, rank)
  {
    assert Live(DetachBacking(g, p).nodes) == Live(g.nodes);
  }

  /** A graph operation: the links become `links`, the references from outside `ext`, and nodes that
      nobody outside holds may be gone together with their links. */
  ghost predicate Surgery(g: G, links: map<Link, nat>, ext: map<nat, nat>, g': G) {
    && g'.nodes.Keys <= g.nodes.Keys
    && g'.links == Kept(links, g'.nodes)
    && g'.ext == KeptExt(ext, g'.nodes)
    && (forall m | m in g.nodes && m !in g'.nodes :: m in ext && ext[m] == 0)
  }

  lemma SurgeryThen(g: G, links: map<Link, nat>, ext: map<nat, nat>, g1: G, links1: map<Link, nat>, g2: G)
    requires Surgery(g, links, ext, g1) && Surgery(g1, links1, g1.ext, g2)
    requires Kept(links1, g2.nodes) == Kept(links, g2.nodes)
    ensures Surgery(g, links, ext, g2)
  {
    assert KeptExt(g1.ext, g2.nodes) == KeptExt(ext, g2.nodes);
  }

  /** The links after bdrv_set_backing_hd. */
  ghost function Rebacked(links: map<Link, nat>, bs: nat, hd: Hd): map<Link, nat> {
    match hd
    case NoHd => links - {Backing(bs)}
    case Hd(n) => links[Backing(bs) := n]
  }

  /** A BlockDriverState pointer that may be NULL. */
  datatype Hd = NoHd | Hd(n: nat)

  lemma RebackedSurgery(g: G, g1: G, bs: nat, hd: Hd, g': G)
    requires bs in g1.nodes && Surgery(g, g.links - {Backing(bs)}, g.ext, g1)
    requires g'.nodes.Keys == g1.nodes.Keys && g'.ext == g1.ext && g'.links == Rebacked(g1.links, bs, hd)
    ensures Surgery(g, Rebacked(g.links, bs, hd), g.ext, g')
  {
    assert g'.links == Kept(Rebacked(g.links, bs, hd), g'.nodes);
  }

  lemma CascadeSurgery(g: G, g': G, n: nat, rank: nat -> nat)
    requires Cascaded(g, g', n, rank)
    ensures Surgery(g, g.links, g.ext, g')
  {
  }

  lemma KeptKept(links: map<Link, nat>, nodes1: map<nat, Bds>, nodes2: map<nat, Bds>)
    requires nodes2.Keys <= nodes1.Keys
    ensures Kept(Kept(links, nodes1), nodes2) == Kept(links, nodes2)
  {
  }

  /** Surgery followed by the drop of one more reference is still the same surgery. */
  lemma SurgeryCascade(g: G, links: map<Link, nat>, ext: map<nat, nat>, g1: G, g2: G, n: nat, rank: nat -> nat)
    requires Surgery(g, links, ext, g1) && Cascaded(g1, g2, n, rank)
    ensures Surgery(g, links, ext, g2)
  {
    KeptKept(links, g1.nodes, g2.nodes);
    SurgeryThen(g, links, ext, g1, g1.links, g2);
  }

  /** The links after change_parent_backing_link: everything but a backing link turns to `b`. */
  ghost function Moved(links: map<Link, nat>, a: nat, b: nat, except: set<Link>): map<Link, nat> {
    map l | l in links :: if links[l] == a && !l.Backing? && l !in except then b else links[l]
  }

  lemma MovedStep(links: map<Link, nat>, a: nat, b: nat, todo: set<Link>, l: Link)
    requires l in todo && l in links && links[l] == a && a != b
    ensures l in Moved(links, a, b, todo) && Moved(links, a, b, todo)[l] == a
    ensures l.Backing? ==> Moved(links, a, b, todo - {l}) == Moved(links, a, b, todo)
    ensures !l.Backing? ==> Moved(links, a, b, todo - {l}) == Moved(links, a, b, todo)[l := b]
  {
  }

  lemma MovedNone(links: map<Link, nat>, a: nat, b: nat)
    ensures Moved(links, a, b, set l | l in links && links[l] == a) == links
  {
  }

  lemma MovedSurgery(g: G, g': G, a: nat, b: nat)
    requires LinksOk(g) && g'.nodes.Keys == g.nodes.Keys && g'.links == Moved(g.links, a, b, {}) && g'.ext == g.ext
    requires g.ext.Keys == g.nodes.Keys
    ensures Surgery(g, Moved(g.links, a, b, {}), g.ext, g')
  {
    var m := Moved(g.links, a, b, {});
    assert forall l | l in m :: Alive(l, g.nodes);
    assert Kept(m, g'.nodes) == m;
    assert KeptExt(g.ext, g'.nodes) == g.ext;
  }

  /** The links after bdrv_append: the parents of `top` turn to `new`, which gets `top` as its backing. */
  ghost function Appended(links: map<Link, nat>, bsNew: nat, top: nat): map<Link, nat> {
    Moved(links, top, bsNew, {})[Backing(bsNew) := top]
  }

  // Backing chains.

  /** The backing chain that starts at `n`. */
  ghost function Chain(links: map<Link, nat>, rank: nat -> nat, n: nat): seq<nat>
    requires Ranked(links, rank)
    decreases rank(n)
  {
    if Backing(n) in links then [n] + Chain(links, rank, links[Backing(n)]) else [n]
  }

  lemma {:induction false} ChainRank(links: map<Link, nat>, rank: nat -> nat, n: nat, m: nat)
    requires Ranked(links, rank) && m in Chain(links, rank, n)
    ensures rank(m) <= rank(n)
    decreases rank(n)
  {
    if m != n {
      ChainRank(links, rank, links[Backing(n)], m);
    }
  }

  /** The chain of a node that stays is the chain it had: each layer's backing link keeps the next alive. */
  lemma {:induction false} ChainKept(g: G, links: map<Link, nat>, ext: map<nat, nat>, g': G, rank: nat -> nat,
                                     owed: multiset<nat>, x: set<nat>, n: nat)
    requires Surgery(g, links, ext, g') && Inv(g', owed, {}, x) && Ranked(links, rank) && n in g'.nodes
    ensures Ranked(g'.links, rank)
    ensures Chain(g'.links, rank, n) == Chain(links, rank, n)
    ensures forall m | m in Chain(links, rank, n) :: m in g'.nodes
    decreases rank(n)
  {
    if Backing(n) in links {
      assert Backing(n) in g'.links;
      ChainKept(g, links, ext, g', rank, owed, x, links[Backing(n)]);
    }
  }

  /** Turning the backing link of a node above does not touch a chain below. */
  lemma {:induction false} ChainBelow(links: map<Link, nat>, rank: nat -> nat, bs: nat, hd: Hd, n: nat)
    requires Ranked(links, rank) && Ranked(Rebacked(links, bs, hd), rank) && rank(n) < rank(bs)
    ensures Chain(Rebacked(links, bs, hd), rank, n) == Chain(links, rank, n)
    decreases rank(n)
  {
    if Backing(n) in links {
      ChainBelow(links, rank, bs, hd, links[Backing(n)]);
    }
  }

  lemma {:induction false} ChainInGraph(g: G, rank: nat -> nat, n: nat, m: nat)
    requires LinksOk(g) && Ranked(g.links, rank) && n in g.nodes && m in Chain(g.links, rank, n)
    ensures m in g.nodes
    decreases rank(n)
  {
    if m != n {
      ChainInGraph(g, rank, g.links[Backing(n)], m);
    }
  }

  /** `overlay` is the layer of the chain of `active` right above `top`. */
  ghost predicate IsOverlay(links: map<Link, nat>, rank: nat -> nat, active: nat, top: nat, overlay: nat)
    requires Ranked(links, rank)
  {
    overlay in Chain(links, rank, active) && Backing(overlay) in links && links[Backing(overlay)] == top
  }

  /** A successful bdrv_drop_intermediate: the overlay of `top` now has `base` as its backing node, nothing
      else was relinked, and `base` is there with the chain it had. */
  ghost predicate DroppedTo(g: G, g': G, rank: nat -> nat, active: nat, top: nat, base: nat, overlay: nat) {
    && Ranked(g.links, rank) && Ranked(g'.links, rank)
    && IsOverlay(g.links, rank, active, top, overlay)
    && Surgery(g, Rebacked(g.links, overlay, Hd(base)), g.ext, g')
    && overlay in g'.nodes && base in g'.nodes && active in g'.nodes
    && Chain(g'.links, rank, overlay) == [overlay] + Chain(g.links, rank, base)
    && exists k: nat ::
         Spliced(Chain(g.links, rank, active), Chain(g.links, rank, base), k, overlay, Chain(g'.links, rank, active))
  }

  /** `after` is `before` up to the overlay at `k`, and then `rest`. */
  ghost predicate Spliced(before: seq<nat>, rest: seq<nat>, k: nat, overlay: nat, after: seq<nat>) {
    k < |before| && before[k] == overlay && after == before[..k + 1] + rest
  }

  /** Turning the backing link of a layer cuts the chain behind it. */
  lemma {:induction false} ChainSpliced(links: map<Link, nat>, rank: nat -> nat, n: nat, bs: nat, hd: nat)
    returns (k: nat)
    requires Ranked(links, rank) && Ranked(Rebacked(links, bs, Hd(hd)), rank) && bs in Chain(links, rank, n)
    ensures Spliced(Chain(links, rank, n), Chain(links, rank, hd), k, bs, Chain(Rebacked(links, bs, Hd(hd)), rank, n))
    decreases rank(n)
  {
    var links' := Rebacked(links, bs, Hd(hd));
    if n == bs {
      k := 0;
      ChainBelow(links, rank, bs, Hd(hd), hd);
      assert Chain(links, rank, n)[..1] == [n];
    } else {
      var next := links[Backing(n)];
      k := ChainSpliced(links, rank, next, bs, hd);
      var before, after := Chain(links, rank, next), Chain(links', rank, next);
      assert ([n] + before)[..k + 2] == [n] + before[..k + 1];
      k := k + 1;
    }
  }

  /** Nodes that rank at least as high as `n` stay. */
  ghost predicate KeptAbove(keys: set<nat>, keys': set<nat>, rank: nat -> nat, n: nat) {
    forall m | m in keys && rank(m) >= rank(n) :: m in keys'
  }

  lemma DroppedToHolds(g: G, g': G, rank: nat -> nat, active: nat, top: nat, base: nat, overlay: nat)
    requires Ranked(g.links, rank) && IsOverlay(g.links, rank, active, top, overlay) && rank(overlay) > rank(base)
    requires Surgery(g, Rebacked(g.links, overlay, Hd(base)), g.ext, g') && overlay in g'.nodes && active in g'.nodes
    requires Inv(g', multiset{}, {}, {}) && Ranked(g'.links, rank)
    ensures DroppedTo(g, g', rank, active, top, base, overlay)
  {
    var links := Rebacked(g.links, overlay, Hd(base));
    assert Backing(overlay) in g'.links && g'.links[Backing(overlay)] == base;
    ChainKept(g, links, g.ext, g', rank, multiset{}, {}, base);
    ChainKept(g, links, g.ext, g', rank, multiset{}, {}, active);
    ChainBelow(g.links, rank, overlay, Hd(base), base);
    var k := ChainSpliced(g.links, rank, active, overlay, base);
  }

  // A new node and a new child that is not a backing link.

  ghost function Created(g: G, n: nat): G {
    g.(nodes := g.nodes[n := Bds(1, seq(OPS, op => []), false)], ext := g.ext[n := 1])
  }

  lemma CreatedInv(g: G, n: nat, owed: multiset<nat>)
    requires Inv(g, owed, {}, {}) && n !in g.nodes
    ensures Inv(Created(g, n), owed, {}, {})
  {
    var g' := Created(g, n);
    assert Backing(n) !in g.links by {
      assert Backing(n) in g.links ==> Alive(Backing(n), g.nodes);
    }
    assert In(g.links, n) == {};
    forall m | m in g'.nodes ensures NodeOk(g', m, owed, {}) {
      if m != n {
        assert NodeOk(g, m, owed, {});
        KeepBlockers(g, g', m);
      } else {
        assert BlockersOk(g', n);
      }
    }
    forall m | m in g'.nodes ensures g'.nodes[m].hasBlocker <==> Backing(m) in g'.links {
      if m != n {
        assert g.nodes[m].hasBlocker <==> Backing(m) in g.links;
      }
    }
  }

  lemma AttachInv(g: G, l: Link, b: nat, owed: multiset<nat>)
    requires Inv(g, owed + multiset{b}, {}, {}) && l !in g.links && !l.Backing? && Alive(l, g.nodes)
    ensures Inv(g.(links := g.links[l := b]), owed, {}, {})
  {
    var g' := g.(links := g.links[l := b]);
    assert b in owed + multiset{b};
    forall m | m in g'.nodes ensures NodeOk(g', m, owed, {}) {
      assert NodeOk(g, m, owed + multiset{b}, {});
      InAdd(g.links, l, b, m);
      KeepBlockers(g, g', m);
    }
    KeepFlags(g, g', {});
  }
}
