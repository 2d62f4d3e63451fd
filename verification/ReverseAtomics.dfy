/**
  The reverse-host-endian atomic helpers of atomic_template.h, as a state machine over the atomic steps of
  any number of threads on one cell.  The cell holds the bytes of a word in host order; the guest sees the
  swapped word.  Addition is a compare-and-exchange loop, everything else one atomic operation on swapped operands.
 */
module ReverseAtomics {
  import opened Words
  import opened FlatFile
  import opened Radix

  /** A word of DATA_SIZE bytes, least significant first in host order. */
  type Word = seq<Byte>

  /** BSWAP. */
  function Swap(w: Word): (r: Word)
    ensures |r| == |w|
  {
    Flip(w)
  }

  lemma SwapTwice(w: Word)
    ensures Swap(Swap(w)) == w
  {
  }

  /** Modular addition of words of the same size. */
  function Add(a: Word, b: Word): (r: Word)
    ensures |r| == |a|
  {
    Pow256Positive(|a|);
    Little((FromLittle(a) + FromLittle(b)) % Pow256(|a|), |a|)
  }

  datatype Bitwise = And | Or | Xor

  lemma Pow8()
    ensures Pow2(8) == 256
  {
    assert Pow2(4) == 16;
  }

  /** A bitwise operator on the low `n` bits. */
  function BitOp(f: Bitwise, a: nat, b: nat, n: nat): (r: nat)
    ensures r < Pow2(n)
  {
    if n == 0 then 0
    else
      var x, y := a % 2 == 1, b % 2 == 1;
      var z := match f case And => x && y case Or => x || y case Xor => x != y;
      (if z then 1 else 0) + 2 * BitOp(f, a / 2, b / 2, n - 1)
  }

  /** The operator on words: byte by byte. */
  function WordOp(f: Bitwise, a: Word, b: Word): (r: Word)
    requires |a| == |b|
    ensures |r| == |a|
  {
    Pow8();
    seq<Byte>(|a|, i requires 0 <= i < |a| => BitOp(f, a[i], b[i], 8))
  }

  /** Bitwise operators commute with the swap. */
  lemma SwapWordOp(f: Bitwise, a: Word, b: Word)
    requires |a| == |b|
    ensures Swap(WordOp(f, a, b)) == WordOp(f, Swap(a), Swap(b))
  {
  }

  lemma AddTwoBytes(a: Word, b: Word, x: nat, y: nat)
    requires |a| == 2 && |b| == 2 && x == (a[0] as int) + 256 * (a[1] as int)
    requires y == (b[0] as int) + 256 * (b[1] as int)
    ensures Add(a, b) == Little((x + y) % 65536, 2)
  {
    assert FromLittle(a) == a[0] + 256 * FromLittle(a[1..]) && FromLittle(a[1..]) == a[1];
    assert FromLittle(b) == b[0] + 256 * FromLittle(b[1..]) && FromLittle(b[1..]) == b[1];
    assert Pow256(2) == 65536;
  }

  /** Addition does not: a plain addition of swapped operands loses a carry here. */
  lemma AddDoesNotCommute()
    ensures Swap(Add([255, 0], Swap([0, 1]))) != Add(Swap([255, 0]), [0, 1])
  {
    var a, b: Word := [255, 0], [0, 1];
    assert Swap(b) == [1, 0] && Swap(a) == [0, 255];
    AddTwoBytes(a, Swap(b), 255, 1);
    AddTwoBytes(Swap(a), b, 65280, 256);
    assert Swap(Little(256, 2))[0] == Little(256, 2)[1] == 1;
    assert Little(0, 2)[0] == 0;
  }

  /** The operations: fetch first returns the value before, fetch last the value after. */
  datatype Op =
    | FetchAdd(val: Word)
    | AddFetch(val: Word)
    | FetchOp(f: Bitwise, val: Word)
    | OpFetch(f: Bitwise, val: Word)
    | Xchg(val: Word)
    | CmpXchg(cmp: Word, val: Word)

  predicate Sized(op: Op, n: nat) {
    |op.val| == n && (op.CmpXchg? ==> |op.cmp| == n)
  }

  // What the operations mean to the guest, one at a time.

  function NewValue(op: Op, w: Word): (r: Word)
    requires Sized(op, |w|)
    ensures |r| == |w|
  {
    match op
    case FetchAdd(val) => Add(w, val)
    case AddFetch(val) => Add(w, val)
    case FetchOp(f, val) => WordOp(f, w, val)
    case OpFetch(f, val) => WordOp(f, w, val)
    case Xchg(val) => val
    case CmpXchg(cmp, val) => if w == cmp then val else w
  }

  function Result(op: Op, w: Word): Word
    requires Sized(op, |w|)
  {
    match op
    case FetchAdd(_) => w
    case AddFetch(_) => NewValue(op, w)
    case FetchOp(_, _) => w
    case OpFetch(_, _) => NewValue(op, w)
    case Xchg(_) => w
    case CmpXchg(_, _) => w
  }

  // The helpers.

  /** A thread outside, or inside a helper: before its read, or about to compare and exchange. */
  datatype Pc = Outside | Called(op: Op) | Looping(op: Op, ldo: Word)

  /** A completed operation. */
  datatype Done = Done(thread: nat, op: Op, ret: Word)

  datatype State = State(cell: Word, pc: seq<Pc>, log: seq<Done>)

  /** The single atomic operation of a helper without a loop: the new cell and the returned value. */
  function Atomic(op: Op, cell: Word): (Word, Word)
    requires Sized(op, |cell|) && !op.FetchAdd? && !op.AddFetch?
  {
    match op
    case FetchOp(f, val) => (WordOp(f, cell, Swap(val)), Swap(cell))
    case OpFetch(f, val) => var w := WordOp(f, cell, Swap(val)); (w, Swap(w))
    case Xchg(val) => (Swap(val), Swap(cell))
    case CmpXchg(cmp, val) => (if cell == Swap(cmp) then Swap(val) else cell, Swap(cell))
  }

  /** What the loop of fetch_add or add_fetch returns if its exchange succeeds, and what it stores. */
  function LoopRet(op: Op, ldo: Word): Word
    requires op.FetchAdd? || op.AddFetch?
  {
    if op.FetchAdd? then Swap(ldo) else Add(Swap(ldo), op.val)
  }

  function LoopSto(op: Op, ldo: Word): Word
    requires op.FetchAdd? || op.AddFetch?
  {
    if op.FetchAdd? then Swap(Add(LoopRet(op, ldo), op.val)) else Swap(LoopRet(op, ldo))
  }

  ghost predicate StepOf(s: State, s': State, t: nat, op: Op) {
    t < |s.pc| && Sized(op, |s.cell|) &&
    match s.pc[t]
    case Outside => s' == s.(pc := s.pc[t := Called(op)])
    case Called(mine) =>
      mine == op &&
      if op.FetchAdd? || op.AddFetch? then s' == s.(pc := s.pc[t := Looping(op, s.cell)])
      else s' == State(Atomic(op, s.cell).0, s.pc[t := Outside], s.log + [Done(t, op, Atomic(op, s.cell).1)])
    case Looping(mine, ldo) =>
      mine == op && (op.FetchAdd? || op.AddFetch?) &&
      if s.cell == ldo then s' == State(LoopSto(op, ldo), s.pc[t := Outside], s.log + [Done(t, op, LoopRet(op, ldo))])
      else s' == s.(pc := s.pc[t := Looping(op, s.cell)])
  }

  ghost predicate Step(s: State, s': State) {
    exists t: nat, op: Op :: StepOf(s, s', t, op)
  }

  ghost predicate Run(run: seq<State>) {
    && |run| > 0 && run[0].log == [] && (forall t | 0 <= t < |run[0].pc| :: run[0].pc[t].Outside?)
    && forall i | 0 <= i < |run| - 1 :: Step(run[i], run[i + 1])
  }

  // Refinement.

  /** The value the guest sees after the operations of the log, done one after the other from `w`. */
  function Replayed(w: Word, log: seq<Done>): (r: Word)
    requires forall d | d in log :: Sized(d.op, |w|)
    ensures |r| == |w|
  {
    if log == [] then w else NewValue(log[|log| - 1].op, Replayed(w, log[..|log| - 1]))
  }

  /** Every operation of the log returned what it returns at its turn. */
  predicate Explains(w: Word, log: seq<Done>)
    requires forall d | d in log :: Sized(d.op, |w|)
  {
    log != [] ==>
      var front, last := log[..|log| - 1], log[|log| - 1];
      Explains(w, front) && last.ret == Result(last.op, Replayed(w, front))
  }

  /** The log, done one after the other from the guest's view of `cell`, gives all returned values and the cell. */
  ghost predicate Refines(cell: Word, s: State) {
    && |s.cell| == |cell| && (forall d | d in s.log :: Sized(d.op, |cell|))
    && Explains(Swap(cell), s.log) && Swap(s.cell) == Replayed(Swap(cell), s.log)
  }

  /** A helper that completes appends one operation that is right at this point. */
  lemma Completes(cell: Word, s: State, s': State, d: Done)
    requires Refines(cell, s) && Sized(d.op, |cell|) && s'.log == s.log + [d] && |s'.cell| == |cell|
    requires d.ret == Result(d.op, Swap(s.cell)) && Swap(s'.cell) == NewValue(d.op, Swap(s.cell))
    ensures Refines(cell, s')
  {
    assert s'.log[..|s'.log| - 1] == s.log;
  }

  lemma AtomicIsRight(op: Op, cell: Word)
    requires Sized(op, |cell|) && !op.FetchAdd? && !op.AddFetch?
    ensures var (w, ret) := Atomic(op, cell);
            |w| == |cell| && ret == Result(op, Swap(cell)) && Swap(w) == NewValue(op, Swap(cell))
  {
    SwapTwice(op.val);
    SwapTwice(cell);
    if op.FetchOp? || op.OpFetch? {
      SwapWordOp(op.f, cell, Swap(op.val));
    } else if op.CmpXchg? {
      SwapTwice(op.cmp);
    }
  }

  lemma LoopIsRight(op: Op, ldo: Word)
    requires Sized(op, |ldo|) && (op.FetchAdd? || op.AddFetch?)
    ensures |LoopSto(op, ldo)| == |ldo|
    ensures LoopRet(op, ldo) == Result(op, Swap(ldo)) && Swap(LoopSto(op, ldo)) == NewValue(op, Swap(ldo))
  {
    SwapTwice(Add(Swap(ldo), op.val));
  }

  lemma StepRefines(cell: Word, s: State, s': State)
    requires Refines(cell, s) && Step(s, s')
    ensures Refines(cell, s')
  {
    var t: nat, op: Op :| StepOf(s, s', t, op);
    match s.pc[t]
    case Outside =>
    case Called(_) =>
      if !op.FetchAdd? && !op.AddFetch? {
        AtomicIsRight(op, s.cell);
        Completes(cell, s, s', Done(t, op, Atomic(op, s.cell).1));
      }
    case Looping(_, ldo) =>
      if s.cell == ldo {
        LoopIsRight(op, ldo);
        Completes(cell, s, s', Done(t, op, LoopRet(op, ldo)));
      }
  }

  /** In every interleaving the completed helpers act as if each had been one atomic operation on the guest's word,
      in the order of their completion. */
  lemma {:induction false} RunRefines(run: seq<State>, n: nat)
    requires Run(run) && n < |run|
    ensures Refines(run[0].cell, run[n])
  {
    if n > 0 {
      RunRefines(run, n - 1);
      var s, s' := run[n - 1], run[n];
      assert Step(s, s');
      StepRefines(run[0].cell, s, s');
    }
  }

  // Conservation.

  /** The sum of all addends of the log. */
  function Sum(log: seq<Done>): nat {
    if log == [] then 0
    else Sum(log[..|log| - 1]) + FromLittle(log[|log| - 1].op.val)
  }

  lemma {:induction false} LittleBound(s: seq<Byte>)
    ensures FromLittle(s) < Pow256(|s|)
  {
    if s != [] {
      LittleBound(s[1..]);
    }
  }

  lemma {:induction false} Pow256Positive(n: nat)
    ensures Pow256(n) > 0
  {
    if n > 0 {
      Pow256Positive(n - 1);
    }
  }

  lemma AddValue(a: Word, b: Word)
    ensures Pow256(|a|) > 0 && FromLittle(Add(a, b)) == (FromLittle(a) + FromLittle(b)) % Pow256(|a|)
  {
    Pow256Positive(|a|);
    LittleRoundTrip((FromLittle(a) + FromLittle(b)) % Pow256(|a|), |a|);
  }

  lemma AddMod(x: nat, y: nat, m: nat)
    requires m > 0
    ensures (x % m + y) % m == (x + y) % m
  {
    var q, r := x / m, (x % m + y) % m;
    var p := (x % m + y) / m;
    assert x + y == (q + p) * m + r;
    ModUnique(x + y, q + p, r, m);
  }

  lemma ModUnique(x: nat, q: nat, r: nat, m: nat)
    requires m > 0 && r < m && x == q * m + r
    ensures x % m == r
  {
    var e := x / m;
    assert (q + 1) * m == q * m + m && (e + 1) * m == e * m + m;
    SlotUnique(x, q, e, m);
  }

  lemma SumStep(before: nat, sum: nat, y: nat, m: nat)
    requires m > 0 && before == sum % m
    ensures (before + y) % m == (sum + y) % m
  {
    AddMod(sum, y, m);
  }

  lemma {:induction false} ReplayedSum(w: Word, log: seq<Done>)
    requires forall d | d in log :: Sized(d.op, |w|) && (d.op.FetchAdd? || d.op.AddFetch?)
    ensures Pow256(|w|) > 0 && FromLittle(Replayed(w, log)) == (FromLittle(w) + Sum(log)) % Pow256(|w|)
  {
    Pow256Positive(|w|);
    if log == [] {
      LittleBound(w);
      ModUnique(FromLittle(w), 0, FromLittle(w), Pow256(|w|));
    } else {
      var front, d := log[..|log| - 1], log[|log| - 1];
      ReplayedSum(w, front);
      AddValue(Replayed(w, front), d.op.val);
      SumStep(FromLittle(Replayed(w, front)), FromLittle(w) + Sum(front), FromLittle(d.op.val), Pow256(|w|));
    }
  }

  /** With additions only, the word is the initial word plus all addends of completed helpers, whatever the
      interleaving. */
  lemma AddsConserved(run: seq<State>, n: nat)
    requires Run(run) && n < |run| && forall d | d in run[n].log :: d.op.FetchAdd? || d.op.AddFetch?
    ensures Pow256(|run[0].cell|) > 0
    ensures FromLittle(Swap(run[n].cell)) == (FromLittle(Swap(run[0].cell)) + Sum(run[n].log)) % Pow256(|run[0].cell|)
  {
    RunRefines(run, n);
    ReplayedSum(Swap(run[0].cell), run[n].log);
  }
}
