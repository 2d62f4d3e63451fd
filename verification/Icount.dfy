/**
  Instruction counting (cpus.c, cpu-exec.c): a vCPU gets a budget that is counted ahead in qemu_icount and
  paid back from icount_decr and icount_extra; translated blocks are abstract steps of n instructions.
 */
module Icount {
  import opened Words

  const INT32_MAX: int := 0x7fff_ffff
  const MAX_ICOUNT_SHIFT: nat := 10
  const ICOUNT_WOBBLE: int := 100_000_000

  /** cpu_icount_to_ns. */
  function ToNs(icount: int, shift: nat): int {
    icount * Pow2(shift)
  }

  /** qemu_icount_round. */
  function Round(count: int, shift: nat): int {
    (count + Pow2(shift) - 1) / Pow2(shift)
  }

  /** Rounding reaches the count and overshoots by less than one instruction. */
  lemma RoundReaches(count: nat, shift: nat)
    ensures Round(count, shift) >= 0
    ensures count <= ToNs(Round(count, shift), shift) < count + Pow2(shift)
  {
    var d := Pow2(shift);
    var x := count + d - 1;
    assert x == x / d * d + x % d;
  }

  /** The deadline as tcg_get_icount_limit clamps it. */
  function Clamp(deadline: int): (r: nat)
    ensures 0 <= deadline <= INT32_MAX ==> r == deadline
  {
    if deadline < 0 || deadline > INT32_MAX then INT32_MAX else deadline
  }

  /** A translated block of some instructions, and whether an exit was requested before it. */
  datatype Block = Block(insns: nat, exit: bool)

  lemma Slower(q: int, p: nat, d: nat)
    requires d >= 1
    ensures (q - p) * d == q * d <==> p == 0
  {
    assert (q - p) * d + p * d == q * d;
    if p > 0 {
      assert p * d >= d;
    }
  }

  /** Running the whole budget takes the virtual clock to the deadline, and past it by less than one instruction. */
  lemma FullSlice(raw: int, deadline: int, shift: nat)
    ensures var end := ToNs(raw + Round(Clamp(deadline), shift), shift);
            ToNs(raw, shift) + Clamp(deadline) <= end < ToNs(raw, shift) + Clamp(deadline) + Pow2(shift)
  {
    RoundReaches(Clamp(deadline), shift);
    var k := Round(Clamp(deadline), shift);
    assert raw * Pow2(shift) + k * Pow2(shift) == (raw + k) * Pow2(shift);
  }

  /** The first block an exit request stops, or the end. */
  function Stop(tbs: seq<Block>, exitRequest: bool): (n: nat)
    ensures n <= |tbs| && (n < |tbs| ==> exitRequest || tbs[n].exit)
    ensures (exitRequest ==> n == 0) && forall i | 0 <= i < n :: !tbs[i].exit
  {
    if exitRequest || tbs == [] || tbs[0].exit then 0 else 1 + Stop(tbs[1..], false)
  }

  function Less(a: int, b: int): int {
    if a <= b then a else b
  }

  /** The instructions of some blocks. */
  ghost function Length(tbs: seq<Block>): nat {
    if tbs == [] then 0 else Length(tbs[..|tbs| - 1]) + tbs[|tbs| - 1].insns
  }

  lemma LengthNext(tbs: seq<Block>, i: nat)
    requires i < |tbs|
    ensures Length(tbs[..i + 1]) == Length(tbs[..i]) + tbs[i].insns
  {
    assert tbs[..i + 1][..i] == tbs[..i];
  }

  lemma {:induction false} LengthGrows(tbs: seq<Block>, i: nat)
    requires i <= |tbs|
    ensures Length(tbs[..i]) <= Length(tbs)
  {
    if i == |tbs| {
      assert tbs[..i] == tbs;
    } else {
      LengthGrows(tbs[..|tbs| - 1], i);
      assert tbs[..|tbs| - 1][..i] == tbs[..i];
    }
  }

  class Timers {
    var qemuIcount: int
    var bias: int
    var shift: nat
    var lastDelta: int
    // The vCPU: icount_decr.u16.low, whether icount_decr.u16.high asks for an exit (-1), and icount_extra.
    var low: nat
    var exitRequest: bool
    var extra: nat
    /** All instructions run so far, and how many of them since the budget was set up. */
    ghost var ran: int
    ghost var inSlice: int
    ghost var budget: int

    /** What of the budget is left. */
    function Pending(): int
      reads this
    {
      low + extra
    }

    /** cpu_get_icount_raw, inside the vCPU or not. */
    function Raw(inCpu: bool): int
      reads this
    {
      if inCpu then qemuIcount - Pending() else qemuIcount
    }

    /** cpu_get_icount_locked. */
    function Clock(inCpu: bool): int
      reads this
    {
      bias + ToNs(Raw(inCpu), shift)
    }

    /** The counter is ahead of the instructions run by exactly what is pending. */
    ghost predicate Valid()
      reads this
    {
      && low <= 0xffff && shift <= MAX_ICOUNT_SHIFT
      && Raw(true) == ran && inSlice + Pending() == budget
    }

    constructor (shift: nat)
      requires shift <= MAX_ICOUNT_SHIFT
      ensures Valid() && ran == 0 && Pending() == 0 && Clock(false) == 0
    {
      qemuIcount, bias, this.shift, lastDelta := 0, 0, shift, 0;
      low, exitRequest, extra := 0, false, 0;
      ran, inSlice, budget := 0, 0, 0;
    }

    /** The budget of tcg_cpu_exec: what is left of an earlier one is given back first. */
    method Setup(deadline: int)
      requires Valid()
      modifies `qemuIcount, `low, `extra, `inSlice, `budget
      ensures Valid() && inSlice == 0 && Pending() == budget == Round(Clamp(deadline), shift)
      ensures Raw(true) == old(Raw(true))
    {
      RoundReaches(Clamp(deadline), shift);
      qemuIcount := qemuIcount - (low + extra);
      low, extra := 0, 0;
      var count := Round(Clamp(deadline), shift);
      qemuIcount := qemuIcount + count;
      var decr := if count > 0xffff then 0xffff else count;
      low, extra := decr, count - decr;
      inSlice, budget := 0, count;
    }

    /** The check at the head of a block of n instructions: it runs, or leaves with the counter expired. */
    method TryBlock(n: nat) returns (ok: bool)
      requires Valid()
      modifies `low, `ran, `inSlice
      ensures Valid() && ok == (!old(exitRequest) && n <= old(low))
      ensures ran == old(ran) + (if ok then n else 0) && Raw(true) == old(Raw(true)) + (if ok then n else 0)
      ensures low == old(low) - (if ok then n else 0)
    {
      ok := !exitRequest && n <= low;
      if ok {
        low := low - n;
        ran, inSlice := ran + n, inSlice + n;
      }
    }

    /** The TB_EXIT_ICOUNT_EXPIRED arm: refill the decrementer from icount_extra, or run what is left and stop.
        `rest` is how many of the remaining instructions get to run. */
    method HandleExpired(rest: nat) returns (refilled: bool)
      requires Valid() && rest <= low
      modifies `low, `extra, `ran, `inSlice
      ensures Valid() && refilled == (old(extra) > 0 && !exitRequest)
      ensures refilled ==> ran == old(ran) && Pending() == old(Pending()) && (low == 0xffff || extra == 0)
      ensures !refilled ==> extra == old(extra) && ran == old(ran) + (if exitRequest || old(low) == 0 then 0 else rest)
      ensures Raw(true) - old(Raw(true)) == ran - old(ran)
    {
      refilled := extra > 0 && !exitRequest;
      if refilled {
        var left := extra + low;
        var insns := if left > 0xffff then 0xffff else left;
        extra, low := left - insns, insns;
      } else if !exitRequest && low > 0 {
        low := low - rest;
        ran, inSlice := ran + rest, inSlice + rest;
      }
    }

    /** The end of tcg_cpu_exec: pending instructions are folded back. */
    method FoldBack()
      requires Valid()
      modifies `qemuIcount, `low, `extra, `exitRequest, `budget
      ensures Valid() && Pending() == 0 && !exitRequest && Raw(true) == Raw(false) == old(Raw(true))
    {
      qemuIcount := qemuIcount - (low + extra);
      low, extra, exitRequest := 0, 0, false;
      budget := inSlice;
    }

    /** One slice of tcg_cpu_exec over the blocks `tbs`; `rest` as above.  Exactly the instructions run are counted,
        and never more than the budget.  When what is left of the budget is run in the end, the slice runs the blocks up
        to the first exit request or uses up the budget, whichever is less. */
    method Exec(deadline: int, tbs: seq<Block>, rest: nat) returns (executed: nat)
      requires Valid() && forall b | b in tbs :: b.insns <= 0xffff
      modifies this
      ensures Valid() && Pending() == 0 && shift == old(shift) && bias == old(bias)
      ensures executed == ran - old(ran) <= Round(Clamp(deadline), shift)
      ensures Raw(false) == old(Raw(true)) + executed
      ensures rest >= 0xffff ==>
                executed == Less(Length(tbs[..Stop(tbs, old(exitRequest))]), Round(Clamp(deadline), shift))
      ensures executed == Round(Clamp(deadline), shift) ==>
                old(Clock(true)) + Clamp(deadline) <= Clock(false) < old(Clock(true)) + Clamp(deadline) + Pow2(shift)
    {
      FullSlice(Raw(true), deadline, shift);
      Setup(deadline);
      executed := RunBlocks(tbs, rest);
      FoldBack();
    }

    /** The blocks of a slice, up to the budget or an exit request. */
    method RunBlocks(tbs: seq<Block>, rest: nat) returns (executed: nat)
      requires Valid() && inSlice == 0 && forall b | b in tbs :: b.insns <= 0xffff
      modifies `low, `extra, `ran, `inSlice, `exitRequest
      ensures Valid() && executed == inSlice == ran - old(ran) <= budget
      ensures Raw(true) == old(Raw(true)) + executed
      ensures rest >= 0xffff ==> executed == Less(Length(tbs[..Stop(tbs, old(exitRequest))]), budget)
    {
      ghost var stop := Stop(tbs, exitRequest);
      executed := 0;
      var i := 0;
      while i < |tbs|
        invariant 0 <= i <= |tbs| && Valid() && executed == inSlice == ran - old(ran)
        invariant executed == Length(tbs[..i]) && i <= stop && exitRequest == old(exitRequest)
        decreases |tbs| - i, extra
      {
        var block := tbs[i];
        assert block in tbs;
        LengthNext(tbs, i);
        exitRequest := exitRequest || block.exit;
        var ok := TryBlock(block.insns);
        if ok {
          executed := executed + block.insns;
          i := i + 1;
        } else {
          var part := if rest <= low then rest else low;
          var here := low;
          var refilled := HandleExpired(part);
          if !refilled {
            executed := executed + (here - low);
            if i < stop {
              LengthGrows(tbs[..stop], i + 1);
              assert tbs[..stop][..i + 1] == tbs[..i + 1];
            }
            return;
          }
        }
      }
    }

    /** icount_adjust.  The clock seen outside a vCPU stays as it is exactly when it is called outside one, or with
        nothing pending. */
    method Adjust(running: bool, curTime: int, inCpu: bool)
      requires Valid()
      modifies `bias, `shift, `lastDelta
      ensures Valid() && (shift == old(shift) || shift == old(shift) + 1 || shift == old(shift) - 1)
      ensures running ==> Clock(false) == old(Clock(inCpu))
      ensures running ==> (Clock(false) == old(Clock(false)) <==> !inCpu || Pending() == 0)
      ensures !running ==> bias == old(bias) && shift == old(shift)
      ensures shift < old(shift) ==> old(Clock(inCpu)) > curTime
      ensures shift > old(shift) ==> old(Clock(inCpu)) < curTime
    {
      if !running {
        return;
      }
      var curIcount := Clock(inCpu);
      var delta := curIcount - curTime;
      SeenOutside(inCpu);
      if delta > 0 && lastDelta + ICOUNT_WOBBLE < delta * 2 && shift > 0 {
        shift := shift - 1;
      }
      if delta < 0 && lastDelta - ICOUNT_WOBBLE > delta * 2 && shift < MAX_ICOUNT_SHIFT {
        shift := shift + 1;
      }
      lastDelta := delta;
      bias := curIcount - ToNs(qemuIcount, shift);
    }

    lemma SeenOutside(inCpu: bool)
      ensures Clock(inCpu) == Clock(false) <==> !inCpu || Pending() == 0
    {
      Slower(qemuIcount, low + extra, Pow2(shift));
    }
  }
}
