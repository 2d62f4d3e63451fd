/**
  What reference counting amounts to in block.c: in a graph without cycles the nodes that remain
  after an operation are exactly those reachable from a reference outside the graph.
 */
module BlockGc {
  import opened BlockState

  ghost predicate Edge(links: map<Link, nat>, p: nat, c: nat) {
    (Backing(p) in links && links[Backing(p)] == c) || (File(p) in links && links[File(p)] == c)
  }

  /** A user of the graph refers to the node directly. */
  ghost predicate HeldOutside(links: map<Link, nat>, ext: map<nat, nat>, n: nat) {
    (n in ext && ext[n] > 0) || exists r: nat :: Root(r) in links && links[Root(r)] == n
  }

  ghost predicate IsPath(links: map<Link, nat>, ext: map<nat, nat>, path: seq<nat>, n: nat) {
    && |path| > 0 && HeldOutside(links, ext, path[0]) && path[|path| - 1] == n
    && forall i | 0 <= i < |path| - 1 :: Edge(links, path[i], path[i + 1])
  }

  ghost predicate Reachable(links: map<Link, nat>, ext: map<nat, nat>, n: nat) {
    exists path :: IsPath(links, ext, path, n)
  }

  /** Nothing on a path from outside is ever deleted. */
  lemma {:induction false} PathSurvives(g: G, links: map<Link, nat>, ext: map<nat, nat>, g': G, path: seq<nat>,
                                        n: nat, x: set<nat>)
    requires Surgery(g, links, ext, g') && Inv(g', multiset{}, {}, x)
    requires IsPath(links, ext, path, n) && n in g.nodes
    requires forall l | l in links :: links[l] in g.nodes && Alive(l, g.nodes)
    ensures n in g'.nodes
    decreases |path|
  {
    if |path| == 1 {
      if !(n in ext && ext[n] > 0) {
        var r: nat :| Root(r) in links && links[Root(r)] == n;
        assert Root(r) in g'.links;
      }
    } else {
      var p := path[|path| - 2];
      assert Edge(links, path[|path| - 2], path[|path| - 2 + 1]);
      var front := path[..|path| - 1];
      assert forall i | 0 <= i < |front| - 1 :: Edge(links, front[i], front[i + 1]) by {
        forall i | 0 <= i < |front| - 1 ensures Edge(links, front[i], front[i + 1]) {
          assert Edge(links, path[i], path[i + 1]);
        }
      }
      assert p in g.nodes by {
        assert Alive(Backing(p), g.nodes) || Alive(File(p), g.nodes);
      }
      PathSurvives(g, links, ext, g', front, p, x);
      assert Backing(p) in g'.links <==> Backing(p) in links;
      assert File(p) in g'.links <==> File(p) in links;
    }
  }

  /** Every node that is left hangs off a reference from outside. */
  lemma {:induction false} SurvivorReachable(g: G, links: map<Link, nat>, ext: map<nat, nat>, g': G, n: nat,
          rank: nat -> nat, x: set<nat>)
    requires Surgery(g, links, ext, g') && Inv(g', multiset{}, {}, x) && Ranked(g'.links, rank)
    requires n in g'.nodes
    ensures Reachable(links, ext, n)
    decreases |set m | m in g'.nodes && rank(m) > rank(n)|
  {
    assert NodeOk(g', n, multiset{}, {});
    if g'.ext[n] > 0 {
      assert IsPath(links, ext, [n], n);
    } else {
      assert In(g'.links, n) != {} by {
        assert |In(g'.links, n)| > 0;
      }
      var l :| l in In(g'.links, n);
      if l.Root? {
        assert IsPath(links, ext, [n], n);
      } else {
        var above, below := set m | m in g'.nodes && rank(m) > rank(l.p), set m | m in g'.nodes && rank(m) > rank(n);
        assert Alive(l, g'.nodes);
        assert above <= below && l.p in below && l.p !in above;
        Smaller(above, below, l.p);
        SurvivorReachable(g, links, ext, g', l.p, rank, x);
        var path :| IsPath(links, ext, path, l.p);
        ExtendPath(links, ext, path, l.p, n);
      }
    }
  }

  lemma Smaller(a: set<nat>, b: set<nat>, y: nat)
    requires a <= b && y in b && y !in a
    ensures |a| < |b|
  {
    assert a <= b - {y};
    SubsetSize(a, b - {y});
  }

  lemma {:induction false} SubsetSize(a: set<nat>, b: set<nat>)
    requires a <= b
    ensures |a| <= |b|
  {
    if a != {} {
      var y :| y in a;
      SubsetSize(a - {y}, b - {y});
    }
  }

  lemma ExtendPath(links: map<Link, nat>, ext: map<nat, nat>, path: seq<nat>, p: nat, n: nat)
    requires IsPath(links, ext, path, p) && Edge(links, p, n)
    ensures Reachable(links, ext, n)
  {
    var longer := path + [n];
    forall i | 0 <= i < |longer| - 1 ensures Edge(links, longer[i], longer[i + 1]) {
      if i < |path| - 1 {
        assert Edge(links, path[i], path[i + 1]);
      }
    }
    assert IsPath(links, ext, longer, n);
  }

  /** After any graph operation, exactly the nodes reachable from outside remain. */
  lemma Collected(g: G, links: map<Link, nat>, ext: map<nat, nat>, g': G, rank: nat -> nat, n: nat)
    requires Surgery(g, links, ext, g') && Inv(g', multiset{}, {}, {}) && Ranked(g'.links, rank)
    requires forall l | l in links :: links[l] in g.nodes && Alive(l, g.nodes)
    requires n in g.nodes
    ensures n in g'.nodes <==> Reachable(links, ext, n)
  {
    if n in g'.nodes {
      SurvivorReachable(g, links, ext, g', n, rank, {});
    } else if path :| IsPath(links, ext, path, n) {
      PathSurvives(g, links, ext, g', path, n, {});
    }
  }

  // When a new backing link keeps the graph free of cycles.

  ghost predicate Walk(links: map<Link, nat>, path: seq<nat>) {
    |path| > 0 && forall i | 0 <= i < |path| - 1 :: Edge(links, path[i], path[i + 1])
  }

  ghost predicate LeadsTo(links: map<Link, nat>, a: nat, b: nat) {
    exists path :: Walk(links, path) && path[0] == a && path[|path| - 1] == b
  }

  /** A ranking for the graph with the link `Backing(bs)` turned to `hd` exists when `hd` does not lead
      to `bs`: everything that leads to `bs` moves above `hd`. */
  lemma RankAfter(links: map<Link, nat>, rank: nat -> nat, bs: nat, hd: nat) returns (rank': nat -> nat)
    requires Ranked(links, rank) && !LeadsTo(links, hd, bs)
    ensures Ranked(links, rank') && Ranked(links[Backing(bs) := hd], rank') && rank'(bs) > rank'(hd)
  {
    rank' := Lifted(links, rank, bs, hd);
    forall l | l in links && !l.Root? ensures rank'(l.p) > rank'(links[l]) {
      if LeadsTo(links, links[l], bs) {
        LeadsBack(links, l.p, links[l], bs);
      }
    }
    assert LeadsTo(links, bs, bs) by {
      assert Walk(links, [bs]);
    }
  }

  ghost function Lifted(links: map<Link, nat>, rank: nat -> nat, bs: nat, hd: nat): nat -> nat {
    n => rank(n) + if LeadsTo(links, n, bs) then rank(hd) + 1 else 0
  }

  lemma LeadsBack(links: map<Link, nat>, p: nat, c: nat, b: nat)
    requires Edge(links, p, c) && LeadsTo(links, c, b)
    ensures LeadsTo(links, p, b)
  {
    var path :| Walk(links, path) && path[0] == c && path[|path| - 1] == b;
    var longer := [p] + path;
    forall i | 0 <= i < |longer| - 1 ensures Edge(links, longer[i], longer[i + 1]) {
      if i > 0 {
        assert Edge(links, path[i - 1], path[i - 1 + 1]);
      }
    }
    assert Walk(links, longer) && longer[0] == p && longer[|longer| - 1] == b;
  }

  /** Nothing leads to a node of higher rank. */
  lemma {:induction false} WalkDown(links: map<Link, nat>, rank: nat -> nat, path: seq<nat>)
    requires Ranked(links, rank) && Walk(links, path)
    ensures rank(path[0]) >= rank(path[|path| - 1])
  {
    if |path| > 1 {
      var front := path[..|path| - 1];
      assert Edge(links, path[|path| - 2], path[|path| - 2 + 1]);
      forall i | 0 <= i < |front| - 1 ensures Edge(links, front[i], front[i + 1]) {
        assert Edge(links, path[i], path[i + 1]);
      }
      WalkDown(links, rank, front);
    }
  }

  lemma LeadsDown(links: map<Link, nat>, rank: nat -> nat, a: nat, b: nat)
    requires Ranked(links, rank) && LeadsTo(links, a, b)
    ensures rank(a) >= rank(b)
  {
    var path :| Walk(links, path) && path[0] == a && path[|path| - 1] == b;
    WalkDown(links, rank, path);
  }

  // When change_parent_backing_link can turn the file links of `a` to `b`.

  ghost predicate FileParent(links: map<Link, nat>, p: nat, a: nat) {
    File(p) in links && links[File(p)] == a
  }

  /** Leads to a node whose file is `a`. */
  ghost predicate LeadsToParent(links: map<Link, nat>, n: nat, a: nat) {
    exists p: nat :: FileParent(links, p, a) && LeadsTo(links, n, p)
  }

  ghost function Raised(links: map<Link, nat>, rank: nat -> nat, a: nat, b: nat): nat -> nat {
    n => rank(n) + if LeadsToParent(links, n, a) then rank(b) + 1 else 0
  }

  /** A ranking with the parents of `a` above `b` exists when `b` leads to none of them. */
  lemma RankAbove(links: map<Link, nat>, rank: nat -> nat, a: nat, b: nat) returns (rank': nat -> nat)
    requires Ranked(links, rank) && !LeadsToParent(links, b, a)
    ensures Ranked(links, rank') && forall p: nat | FileParent(links, p, a) :: rank'(p) > rank'(b)
    ensures rank(b) > rank(a) ==> rank'(b) > rank'(a)
  {
    rank' := Raised(links, rank, a, b);
    forall l | l in links && !l.Root? ensures rank'(l.p) > rank'(links[l]) {
      if p: nat :| FileParent(links, p, a) && LeadsTo(links, links[l], p) {
        LeadsBack(links, l.p, links[l], p);
      }
    }
    forall p: nat | FileParent(links, p, a) ensures rank'(p) > rank'(b) {
      assert LeadsTo(links, p, p) by {
        assert Walk(links, [p]);
      }
    }
    if p: nat :| FileParent(links, p, a) && LeadsTo(links, a, p) {
      assert rank(p) > rank(links[File(p)]);
      LeadsDown(links, rank, a, p);
    }
  }

  /** bdrv_replace_in_backing_chain has a ranking to work with exactly when `b` leads to no parent of `a`. */
  lemma RankForReplace(links: map<Link, nat>, rank: nat -> nat, a: nat, b: nat)
    requires Ranked(links, rank)
    ensures !LeadsToParent(links, b, a) <==>
              exists rank': nat -> nat :: FitsReplace(links, rank', a, b)
  {
    if !LeadsToParent(links, b, a) {
      var rank' := RankAbove(links, rank, a, b);
      assert FitsReplace(links, rank', a, b);
    } else {
      var q: nat :| FileParent(links, q, a) && LeadsTo(links, b, q);
      forall rank': nat -> nat | FitsReplace(links, rank', a, b) ensures false {
        LeadsDown(links, rank', b, q);
      }
    }
  }

  ghost predicate FitsReplace(links: map<Link, nat>, rank: nat -> nat, a: nat, b: nat) {
    Ranked(links, rank) && forall p: nat | FileParent(links, p, a) :: rank(p) > rank(b)
  }

  /** bdrv_append has one exactly when moreover `top` does not lead to `bsNew`. */
  lemma RankForAppend(links: map<Link, nat>, rank: nat -> nat, bsNew: nat, top: nat)
    requires Ranked(links, rank)
    ensures !LeadsTo(links, top, bsNew) && !LeadsToParent(links, bsNew, top) <==>
              exists rank': nat -> nat :: FitsAppend(links, rank', bsNew, top)
  {
    if !LeadsTo(links, top, bsNew) && !LeadsToParent(links, bsNew, top) {
      var rank1 := RankAfter(links, rank, bsNew, top);
      var rank2 := RankAbove(links, rank1, top, bsNew);
      assert FitsAppend(links, rank2, bsNew, top);
    } else {
      forall rank': nat -> nat | FitsAppend(links, rank', bsNew, top) ensures false {
        if q: nat :| FileParent(links, q, top) && LeadsTo(links, bsNew, q) {
          LeadsDown(links, rank', bsNew, q);
        } else {
          LeadsDown(links, rank', top, bsNew);
        }
      }
    }
  }

  ghost predicate FitsAppend(links: map<Link, nat>, rank: nat -> nat, bsNew: nat, top: nat) {
    FitsReplace(links, rank, top, bsNew) && rank(bsNew) > rank(top)
  }
}
