/** Counting the writes of a dump: a file takes some number of them and refuses the next. */
module Writes {

  /** A step of `n` writes goes through exactly when the file takes that many more. */
  predicate Spends(before: nat, after: nat, ok: bool, n: nat) {
    (ok <==> before >= n) && (ok ==> after + n == before)
  }

  // A cache in front of the file.

  /** What a cache of `cap` bytes that holds `held` holds after `n` more, and the writes that takes. */
  function Fill(cap: nat, held: nat, n: nat): nat {
    if held + n > cap then n else held + n
  }

  function Flush(cap: nat, held: nat, n: nat): nat {
    if held + n > cap then 1 else 0
  }

  /** What the cache holds after the first `k` of parts with these sizes. */
  ghost function Held(cap: nat, sizes: seq<nat>, k: nat): nat
    requires k <= |sizes|
  {
    if k == 0 then 0 else Fill(cap, Held(cap, sizes, k - 1), sizes[k - 1])
  }

  /** The writes the parts from `k` on take. */
  ghost function Flushes(cap: nat, sizes: seq<nat>, k: nat): nat
    requires k <= |sizes|
    decreases |sizes| - k
  {
    if k == |sizes| then 0 else Flush(cap, Held(cap, sizes, k), sizes[k]) + Flushes(cap, sizes, k + 1)
  }

  /** All of them, with the last sync. */
  ghost function CacheWrites(cap: nat, sizes: seq<nat>): nat {
    Flushes(cap, sizes, 0) + SyncWrites(Held(cap, sizes, |sizes|))
  }

  function SyncWrites(held: nat): nat {
    if held > 0 then 1 else 0
  }

  lemma {:induction false} FlushesBound(cap: nat, sizes: seq<nat>, k: nat)
    requires k <= |sizes|
    ensures Flushes(cap, sizes, k) <= |sizes| - k
    decreases |sizes| - k
  {
    if k < |sizes| {
      FlushesBound(cap, sizes, k + 1);
    }
  }
}
