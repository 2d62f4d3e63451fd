/**
  How many entries of the section array a list of sections takes (exec.c): one for every piece of a page and
  every run of whole pages, and one container for every page that is cut into pieces.
 */
module DispatchCount {
  import opened Radix
  import opened Sections
  import opened DispatchInv

  /** The pages that have a container. */
  function Containers(sections: seq<Section>, p: nat): set<nat>
    requires p > 0
  {
    set i | FIRST <= i < |sections| && sections[i].mr.Subpage? :: sections[i].addr / p
  }

  lemma ContainersNext(sections: seq<Section>, s: Section, p: nat)
    requires p > 0 && |sections| >= FIRST
    ensures Containers(sections + [s], p) == Containers(sections, p) + if s.mr.Subpage? then {s.addr / p} else {}
  {
    var more := sections + [s];
    forall i | FIRST <= i < |sections| ensures more[i] == sections[i] {
    }
    if s.mr.Subpage? {
      assert more[|sections|] == s;
    }
  }

  /** The page of a container walks to it. */
  lemma ContainerWalks(v: View, y: nat) returns (c: nat)
    requires Built(v, 0) && y in Containers(v.sections, v.pageSize)
    ensures c == PageWalk(v, y) && FIRST <= c < |v.sections| && v.sections[c].mr.Subpage?
  {
    c :| FIRST <= c < |v.sections| && v.sections[c].mr.Subpage? && v.sections[c].addr / v.pageSize == y;
    assert SectionOk(v, c);
    PageUnique(v.pageSize, v.pageSize, 1);
    PageOf(v.pageSize, v.pageSize);
    assert PageIn(v.sections[c], v.pageSize, y);
  }

  /** The pages a section covers in part: at most its first and its last. */
  function Partial(s: Section, p: nat): set<nat>
    requires p > 0
  {
    (if s.size > 0 && s.addr % p != 0 then {s.addr / p} else {})
    + if s.size > 0 && (s.addr + s.size) % p != 0 then {(s.addr + s.size) / p} else {}
  }

  /** The section covers a page from end to end. */
  predicate HasRun(s: Section, p: nat)
    requires p > 0
  {
    (s.addr + p - 1) / p < (s.addr + s.size) / p
  }

  /** The entries mem_add takes for a section when the pages in `cs` have containers. */
  function Need(s: Section, p: nat, cs: set<nat>): nat
    requires p > 0
  {
    Tally(Partial(s, p), HasRun(s, p), cs)
  }

  /** A piece for every page in `part`, a container for those without one, and an entry for a run. */
  function Tally(part: set<nat>, run: bool, cs: set<nat>): nat {
    |part| + |part - cs| + if run then 1 else 0
  }

  lemma NeedBound(s: Section, p: nat, cs: set<nat>)
    requires p > 0
    ensures Need(s, p, cs) <= 5
  {
    var part := Partial(s, p);
    Smaller(part - cs, part);
    var a, b := s.addr / p, (s.addr + s.size) / p;
    Smaller(part, {a, b});
  }

  lemma {:induction false} Smaller(a: set<nat>, b: set<nat>)
    requires a <= b
    ensures |a| <= |b|
  {
    if a != {} {
      var x :| x in a;
      Smaller(a - {x}, b - {x});
    }
  }

  /** The entries a whole list takes, with the four of mem_begin, and the pages it cuts into pieces. */
  function AllPartial(fed: seq<Section>, p: nat): set<nat>
    requires p > 0
  {
    if fed == [] then {} else AllPartial(fed[..|fed| - 1], p) + Partial(fed[|fed| - 1], p)
  }

  function Entries(fed: seq<Section>, p: nat): nat
    requires p > 0
  {
    if fed == [] then FIRST
    else Entries(fed[..|fed| - 1], p) + Need(fed[|fed| - 1], p, AllPartial(fed[..|fed| - 1], p))
  }

  /** At most five entries for a section. */
  lemma {:induction false} EntriesBound(fed: seq<Section>, p: nat)
    requires p > 0
    ensures Entries(fed, p) <= FIRST + 5 * |fed|
  {
    if fed != [] {
      EntriesBound(fed[..|fed| - 1], p);
      NeedBound(fed[|fed| - 1], p, AllPartial(fed[..|fed| - 1], p));
    }
  }

  lemma {:induction false} EntriesGrow(fed: seq<Section>, p: nat, n: nat)
    requires p > 0 && n <= |fed|
    ensures Entries(fed[..n], p) <= Entries(fed, p)
  {
    if n == |fed| {
      assert fed[..n] == fed;
    } else {
      var front := fed[..|fed| - 1];
      EntriesGrow(front, p, n);
      assert front[..n] == fed[..n];
    }
  }

  // One chunk of a section at a time.

  /** The first `d` bytes of a section. */
  function Front(s: Section, d: nat): Section {
    s.(size := d)
  }

  /** The entries one chunk takes. */
  function ChunkNeed(now: Section, p: nat, cs: set<nat>): nat
    requires p > 0
  {
    if Whole(now, p) || now.addr / p in cs then 1 else 2
  }

  function ChunkPages(now: Section, p: nat): set<nat>
    requires p > 0
  {
    if Whole(now, p) then {} else {now.addr / p}
  }

  /** Page and offset determine each other. */
  lemma PageSplit(a: nat, q: nat, r: nat, p: nat)
    requires r < p && a == q * p + r
    ensures a / p == q && a % p == r
  {
    Distribute(q, 1, p);
    PageUnique(a, p, q);
    PageOf(a, p);
  }

  /** `(a + p - 1) / p` of an address inside a page, and of a page boundary. */
  lemma CeilPage(a: nat, p: nat)
    requires p > 0
    ensures (a + p - 1) / p == if a % p == 0 then a / p else a / p + 1
  {
    PageOf(a, p);
    CeilOf(a, a / p, a % p, p);
  }

  lemma CeilOf(a: nat, q: nat, r: nat, p: nat)
    requires r < p && a == q * p + r
    ensures (a + p - 1) / p == if r == 0 then q else q + 1
  {
    Distribute(q, 1, p);
    if r == 0 {
      PageSplit(a + p - 1, q, p - 1, p);
    } else {
      PageSplit(a + p - 1, q + 1, r - 1, p);
    }
  }

  /** A stretch inside a page ends in that page or at its end. */
  lemma EndInPage(a: nat, n: nat, p: nat)
    requires p > 0 && 0 < n && a % p + n <= p
    ensures a % p + n < p ==> (a + n) / p == a / p && (a + n) % p == a % p + n
    ensures a % p + n == p ==> (a + n) / p == a / p + 1 && (a + n) % p == 0
  {
    PageOf(a, p);
    EndOf(a, a / p, a % p, n, p);
  }

  lemma EndOf(a: nat, q: nat, r: nat, n: nat, p: nat)
    requires a == q * p + r && 0 < p && r + n <= p
    ensures r + n < p ==> (a + n) / p == q && (a + n) % p == r + n
    ensures r + n == p ==> (a + n) / p == q + 1 && (a + n) % p == 0
  {
    Distribute(q, 1, p);
    if r + n < p {
      PageSplit(a + n, q, r + n, p);
    } else {
      PageSplit(a + n, q + 1, 0, p);
    }
  }

  /** A run of whole pages ends on a later page boundary. */
  lemma EndOfRun(a: nat, n: nat, p: nat)
    requires p > 0 && 0 < n && a % p == 0 && n % p == 0
    ensures (a + n) % p == 0 && a / p < (a + n) / p
  {
    PageOf(a, p);
    PageOf(n, p);
    Distribute(a / p, n / p, p);
    Distribute(a / p + n / p, 1, p);
    PageUnique(a + n, p, a / p + n / p);
    PageOf(a + n, p);
    assert n / p != 0;
  }

  lemma PageMonotone(a: nat, b: nat, p: nat)
    requires p > 0 && a <= b
    ensures a / p <= b / p
  {
    PageOf(a, p);
    PageOf(b, p);
    Distribute(b / p, 1, p);
    if a / p > b / p {
      MulLe(b / p + 1, a / p, p);
    }
  }

  lemma HeadStep(s: Section, n: nat, p: nat)
    requires p > 0 && s.addr % p != 0 && 0 < n && s.addr % p + n <= p
    ensures Partial(Front(s, n), p) == {s.addr / p} && !HasRun(Front(s, n), p)
  {
    EndInPage(s.addr, n, p);
    CeilPage(s.addr, p);
  }

  lemma NothingStep(s: Section, p: nat)
    requires p > 0
    ensures Partial(Front(s, 0), p) == {} && !HasRun(Front(s, 0), p)
  {
    CeilPage(s.addr, p);
  }

  lemma RunStep(s: Section, d: nat, n: nat, p: nat)
    requires p > 0 && (s.addr + d) % p == 0 && 0 < n && n % p == 0
    ensures Partial(Front(s, d + n), p) == Partial(Front(s, d), p) && HasRun(Front(s, d + n), p)
  {
    EndOfRun(s.addr + d, n, p);
    CeilPage(s.addr, p);
    PageMonotone(s.addr, s.addr + d, p);
    if s.addr % p != 0 {
      LaterPage(s.addr, s.addr + d, p);
    }
  }

  /** A page boundary behind an address inside a page is on a later page. */
  lemma LaterPage(a: nat, b: nat, p: nat)
    requires p > 0 && a <= b && a % p != 0 && b % p == 0
    ensures a / p < b / p
  {
    PageMonotone(a, b, p);
    PageOf(a, p);
    PageOf(b, p);
  }

  lemma TailStep(s: Section, d: nat, n: nat, p: nat)
    requires p > 0 && (s.addr + d) % p == 0 && 0 < n < p
    ensures Partial(Front(s, d + n), p) == Partial(Front(s, d), p) + {(s.addr + d) / p}
    ensures (s.addr + d) / p !in Partial(Front(s, d), p)
    ensures HasRun(Front(s, d + n), p) <==> HasRun(Front(s, d), p)
  {
    EndInPage(s.addr + d, n, p);
    if s.addr % p != 0 {
      LaterPage(s.addr, s.addr + d, p);
    }
  }

  lemma CountPage(part: set<nat>, y: nat, cs: set<nat>)
    requires y !in part
    ensures |part + {y}| == |part| + 1
    ensures |(part + {y}) - cs| == |part - cs| + if y in cs then 0 else 1
  {
    if y in cs {
      assert (part + {y}) - cs == part - cs;
    } else {
      assert (part + {y}) - cs == (part - cs) + {y};
    }
  }

  /** The chunk `now` follows the first `d` bytes of `s`, as mem_add cuts it. */
  predicate Follows(now: Section, s: Section, d: nat, p: nat)
    requires p > 0
  {
    && now.addr == s.addr + d && now.size > 0 && (d == 0 || now.addr % p == 0)
    && (if Whole(now, p) then !HasRun(Front(s, d), p) else now.addr % p + now.size <= p)
  }

  lemma StepCount(part: set<nat>, y: nat, run: bool, cs: set<nat>)
    requires y !in part
    ensures Tally(part + {y}, run, cs) == Tally(part, run, cs) + if y in cs + part then 1 else 2
  {
    CountPage(part, y, cs);
  }

  lemma NeedRun(now: Section, s: Section, d: nat, p: nat, cs: set<nat>)
    requires p > 0 && Follows(now, s, d, p) && Whole(now, p)
    ensures Partial(Front(s, d + now.size), p) == Partial(Front(s, d), p)
    ensures Need(Front(s, d + now.size), p, cs) == Need(Front(s, d), p, cs) + 1
  {
    RunStep(s, d, now.size, p);
  }

  lemma NeedHead(now: Section, s: Section, d: nat, p: nat, cs: set<nat>)
    requires p > 0 && Follows(now, s, d, p) && !Whole(now, p) && now.addr % p != 0
    ensures Partial(Front(s, d + now.size), p) == Partial(Front(s, d), p) + {now.addr / p}
    ensures Need(Front(s, d + now.size), p, cs)
            == Need(Front(s, d), p, cs) + if now.addr / p in cs + Partial(Front(s, d), p) then 1 else 2
  {
    NothingStep(s, p);
    HeadStep(s, now.size, p);
    StepCount({}, now.addr / p, false, cs);
  }

  lemma BelowPage(now: Section, p: nat)
    requires p > 0 && !Whole(now, p) && now.addr % p == 0 && now.size <= p
    ensures now.size < p
  {
    PageUnique(p, p, 1);
    PageOf(p, p);
  }

  lemma NeedTail(now: Section, s: Section, d: nat, p: nat, cs: set<nat>)
    requires p > 0 && Follows(now, s, d, p) && !Whole(now, p) && now.addr % p == 0
    ensures Partial(Front(s, d + now.size), p) == Partial(Front(s, d), p) + {now.addr / p}
    ensures Need(Front(s, d + now.size), p, cs)
            == Need(Front(s, d), p, cs) + if now.addr / p in cs + Partial(Front(s, d), p) then 1 else 2
  {
    BelowPage(now, p);
    TailStep(s, d, now.size, p);
    StepCount(Partial(Front(s, d), p), now.addr / p, HasRun(Front(s, d), p), cs);
  }

  /** A chunk adds its own entries and pages to what its section takes. */
  lemma NeedStep(now: Section, s: Section, d: nat, p: nat, cs: set<nat>)
    requires p > 0 && Follows(now, s, d, p)
    ensures Partial(Front(s, d + now.size), p) == Partial(Front(s, d), p) + ChunkPages(now, p)
    ensures Need(Front(s, d + now.size), p, cs)
            == Need(Front(s, d), p, cs) + ChunkNeed(now, p, cs + Partial(Front(s, d), p))
  {
    if Whole(now, p) {
      NeedRun(now, s, d, p, cs);
    } else if now.addr % p != 0 {
      NeedHead(now, s, d, p, cs);
    } else {
      NeedTail(now, s, d, p, cs);
    }
  }

  /** What the front of a section takes up to a page boundary, the section takes. */
  lemma NeedGrows(s: Section, d: nat, p: nat, cs: set<nat>)
    requires p > 0 && d <= s.size && (d == s.size || (s.addr + d) % p == 0)
    ensures Need(Front(s, d), p, cs) <= Need(s, p, cs)
  {
    assert Front(s, s.size) == s;
    PageMonotone(s.addr + d, s.addr + s.size, p);
    Smaller(Partial(Front(s, d), p), Partial(s, p));
    Smaller(Partial(Front(s, d), p) - cs, Partial(s, p) - cs);
  }

  /** mem_add can cut its next chunk after the first `d` bytes: on a page, and the run of whole pages comes once. */
  predicate Resumes(s: Section, d: nat, p: nat)
    requires p > 0
  {
    d <= s.size && (d < s.size ==> (s.addr + d) % p == 0 && (HasRun(Front(s, d), p) ==> s.size - d < p))
  }

  lemma Join(a: set<nat>, b: set<nat>, c: set<nat>)
    ensures a + b + c == a + (b + c)
  {
  }
}
