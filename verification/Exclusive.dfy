/**
  The vCPU exclusion protocol of cpus-common.c as a state machine.  A load or store of pending_cpus, of a
  CPU's running flag or of its has_waiter flag is a step of its own, but for one: start_exclusive reads a CPU's
  running flag and stores its has_waiter flag in one step, as the latter is only ever touched under the mutex
  start_exclusive holds.  Memory is sequentially consistent (the source puts smp_mb between the racing accesses),
  and a condition wait gives up the mutex and sleeps in one step.
 */
module Exclusive {

  /** Where a thread is.  A thread that is not a vCPU never takes `CsSet`. */
  datatype PC =
    | Outside
    // start_exclusive
    | SxLock | SxIdle | SxIdleSleep | SxIdleRelock | SxSetOne | SxScan(next: nat, found: nat) | SxSetCount(found: nat)
    | SxCheck | SxSleep | SxRelock | SxUnlock
    // between start_exclusive and end_exclusive
    | InExclusive
    // end_exclusive
    | ExLock | ExReset | ExBroadcast | ExUnlock
    // cpu_exec_start
    | CsSet | CsRead | CsLock | CsTest | CsClear | CsIdle | CsIdleSleep | CsIdleRelock | CsSetAgain | CsUnlock
    // between cpu_exec_start and cpu_exec_end
    | InCpuExec
    // cpu_exec_end
    | CeClear | CeRead | CeLock | CeTest | CeClearWaiter | CeDecrement | CeCompare | CeSignal | CeUnlock

  datatype Thread = Thread(pc: PC, running: bool, hasWaiter: bool)

  datatype Lock = Free | Held(holder: nat)

  /** pending_cpus, qemu_cpu_list_lock and the threads with their CPUs. */
  datatype State = State(pending: int, mutex: Lock, th: seq<Thread>)

  predicate Init(s: State) {
    s.pending == 0 && s.mutex == Free && forall t | 0 <= t < |s.th| :: s.th[t] == Thread(Outside, false, false)
  }

  function Go(s: State, t: nat, pc: PC): State
    requires t < |s.th|
  {
    s.(th := s.th[t := s.th[t].(pc := pc)])
  }

  function Acquire(s: State, t: nat, pc: PC): State
    requires t < |s.th|
  {
    Go(s, t, pc).(mutex := Held(t))
  }

  function Release(s: State, t: nat, pc: PC): State
    requires t < |s.th|
  {
    Go(s, t, pc).(mutex := Free)
  }

  function SetRunning(s: State, t: nat, b: bool, pc: PC): State
    requires t < |s.th|
  {
    s.(th := s.th[t := s.th[t].(pc := pc, running := b)])
  }

  function SetWaiter(s: State, t: nat, b: bool): State
    requires t < |s.th|
  {
    s.(th := s.th[t := s.th[t].(hasWaiter := b)])
  }

  /** What a broadcast on exclusive_resume does to a thread. */
  function Resumed(x: Thread): Thread {
    match x.pc
    case SxIdleSleep => x.(pc := SxIdleRelock)
    case CsIdleSleep => x.(pc := CsIdleRelock)
    case _ => x
  }

  /** The steps of start_exclusive (with exclusive_idle inlined). */
  ghost predicate StartExclusive(s: State, t: nat, s': State)
    requires t < |s.th|
  {
    match s.th[t].pc
    case SxLock => s.mutex == Free && s' == Acquire(s, t, SxIdle)
    case SxIdle => s' == if s.pending != 0 then Release(s, t, SxIdleSleep) else Go(s, t, SxSetOne)
    case SxIdleSleep => s' == Go(s, t, SxIdleRelock)  // woken for no reason
    case SxIdleRelock => s.mutex == Free && s' == Acquire(s, t, SxIdle)
    case SxSetOne => s' == Go(s, t, SxScan(0, 0)).(pending := 1)
    case SxSetCount(found) => s' == Go(s, t, SxCheck).(pending := found + 1)
    case SxCheck => s' == if s.pending > 1 then Release(s, t, SxSleep) else Go(s, t, SxUnlock)
    case SxSleep => s' == Go(s, t, SxRelock)  // woken for no reason
    case SxRelock => s.mutex == Free && s' == Acquire(s, t, SxCheck)
    case SxUnlock => s' == Release(s, t, InExclusive)
    case _ => false
  }

  /** One turn of the CPU_FOREACH loop in start_exclusive. */
  ghost predicate Scan(s: State, t: nat, s': State)
    requires t < |s.th|
  {
    match s.th[t].pc
    case SxScan(next, found) =>
      s' == if next == |s.th| then Go(s, t, SxSetCount(found))
            else if next < |s.th| && s.th[next].running then
              SetWaiter(Go(s, t, SxScan(next + 1, found + 1)), next, true)
            else Go(s, t, SxScan(next + 1, found))
    case _ => false
  }

  /** The steps of end_exclusive. */
  ghost predicate EndExclusive(s: State, t: nat, s': State)
    requires t < |s.th|
  {
    match s.th[t].pc
    case InExclusive => s' == Go(s, t, ExLock)
    case ExLock => s.mutex == Free && s' == Acquire(s, t, ExReset)
    case ExReset => s' == Go(s, t, ExBroadcast).(pending := 0)
    case ExUnlock => s' == Release(s, t, Outside)
    case _ => false
  }

  /** qemu_cond_broadcast in end_exclusive: wakes every thread that sleeps on exclusive_resume. */
  ghost predicate Resume(s: State, t: nat, s': State)
    requires t < |s.th|
  {
    && s.th[t].pc == ExBroadcast
    && s'.pending == s.pending && s'.mutex == s.mutex && |s'.th| == |s.th|
    && forall i | 0 <= i < |s.th| :: s'.th[i] == if i == t then s.th[t].(pc := ExUnlock) else Resumed(s.th[i])
  }

  /** The steps of cpu_exec_start (with exclusive_idle inlined). */
  ghost predicate CpuExecStart(s: State, t: nat, s': State)
    requires t < |s.th|
  {
    match s.th[t].pc
    case CsSet => s' == SetRunning(s, t, true, CsRead)
    case CsRead => s' == Go(s, t, if s.pending != 0 then CsLock else InCpuExec)
    case CsLock => s.mutex == Free && s' == Acquire(s, t, CsTest)
    case CsTest => s' == Go(s, t, if s.th[t].hasWaiter then CsUnlock else CsClear)
    case CsClear => s' == SetRunning(s, t, false, CsIdle)
    case CsIdle => s' == if s.pending != 0 then Release(s, t, CsIdleSleep) else Go(s, t, CsSetAgain)
    case CsIdleSleep => s' == Go(s, t, CsIdleRelock)  // woken for no reason
    case CsIdleRelock => s.mutex == Free && s' == Acquire(s, t, CsIdle)
    case CsSetAgain => s' == SetRunning(s, t, true, CsUnlock)
    case CsUnlock => s' == Release(s, t, InCpuExec)
    case _ => false
  }

  /** The steps of cpu_exec_end. */
  ghost predicate CpuExecEnd(s: State, t: nat, s': State)
    requires t < |s.th|
  {
    match s.th[t].pc
    case InCpuExec => s' == Go(s, t, CeClear)
    case CeClear => s' == SetRunning(s, t, false, CeRead)
    case CeRead => s' == Go(s, t, if s.pending != 0 then CeLock else Outside)
    case CeLock => s.mutex == Free && s' == Acquire(s, t, CeTest)
    case CeTest => s' == Go(s, t, if s.th[t].hasWaiter then CeClearWaiter else CeUnlock)
    case CeClearWaiter => s' == SetWaiter(Go(s, t, CeDecrement), t, false)
    case CeDecrement => s' == Go(s, t, CeCompare).(pending := s.pending - 1)
    case CeCompare => s' == Go(s, t, if s.pending == 1 then CeSignal else CeUnlock)
    case CeUnlock => s' == Release(s, t, Outside)
    case _ => false
  }

  /** qemu_cond_signal in cpu_exec_end: wakes one thread that sleeps on exclusive_cond, if there is one. */
  ghost predicate Signal(s: State, t: nat, s': State)
    requires t < |s.th|
  {
    && s.th[t].pc == CeSignal
    && ((exists u: nat :: u < |s.th| && s.th[u].pc == SxSleep && s' == Go(Go(s, t, CeUnlock), u, SxRelock))
        || ((forall u: nat | u < |s.th| :: s.th[u].pc != SxSleep) && s' == Go(s, t, CeUnlock)))
  }

  /** One step of thread `t`. */
  ghost predicate Step(s: State, t: nat, s': State) {
    && t < |s.th|
    && (|| (s.th[t].pc == Outside && (s' == Go(s, t, SxLock) || s' == Go(s, t, CsSet)))
        || StartExclusive(s, t, s') || Scan(s, t, s') || EndExclusive(s, t, s') || Resume(s, t, s')
        || CpuExecStart(s, t, s') || CpuExecEnd(s, t, s') || Signal(s, t, s'))
  }

  ghost predicate Next(s: State, s': State) {
    exists t: nat :: Step(s, t, s')
  }

  /** A run of the protocol with any number of threads, in any interleaving. */
  ghost predicate Run(tr: seq<State>) {
    |tr| > 0 && Init(tr[0]) && forall i | 0 <= i < |tr| - 1 :: Next(tr[i], tr[i + 1])
  }

  // The invariant.

  /** The program points at which a thread holds the mutex. */
  predicate Holds(pc: PC) {
    pc.SxIdle? || pc.SxSetOne? || pc.SxScan? || pc.SxSetCount? || pc.SxCheck? || pc.SxUnlock? ||
    pc.ExReset? || pc.ExBroadcast? || pc.ExUnlock? ||
    pc.CsTest? || pc.CsClear? || pc.CsIdle? || pc.CsSetAgain? || pc.CsUnlock? ||
    pc.CeTest? || pc.CeClearWaiter? || pc.CeDecrement? || pc.CeCompare? || pc.CeSignal? || pc.CeUnlock?
  }

  /** After the store that made pending_cpus 1 and before the store that makes it 0. */
  predicate Owns(pc: PC) {
    pc.SxScan? || pc.SxSetCount? || Counted(pc)
  }

  /** The scan is over and pending_cpus holds the count. */
  predicate Counted(pc: PC) {
    pc.SxCheck? || pc.SxSleep? || pc.SxRelock? || Alone(pc)
  }

  /** All counted CPUs have ended. */
  predicate Alone(pc: PC) {
    pc.SxUnlock? || pc.InExclusive? || pc.ExLock? || pc.ExReset?
  }

  /** The program points at which a CPU's running flag is set. */
  predicate Runs(pc: PC) {
    pc.CsRead? || pc.CsLock? || pc.CsTest? || pc.CsClear? || pc.CsUnlock? || pc.InCpuExec? || pc.CeClear?
  }

  /** Past the checks of cpu_exec_start: the CPU executes or is about to. */
  predicate Committed(pc: PC) {
    pc.CsUnlock? || pc.InCpuExec? || pc.CeClear?
  }

  /** A CPU with has_waiter set still owes a decrement: it has not passed the store in cpu_exec_end. */
  predicate Owes(pc: PC) {
    pc.CsRead? || pc.CsLock? || pc.CsTest? || Committed(pc) || pc.CeRead? || pc.CeLock? || pc.CeTest? ||
      pc.CeClearWaiter?
  }

  /** Has the scan of a thread at `pc` passed CPU `j`? */
  predicate Scanned(pc: PC, j: nat) {
    if pc.SxScan? then j < pc.next else pc.SxSetCount? || Counted(pc)
  }

  /** The number of CPUs with has_waiter set. */
  function Waiters(th: seq<Thread>): nat {
    if th == [] then 0 else Waiters(th[..|th| - 1]) + if th[|th| - 1].hasWaiter then 1 else 0
  }

  /** The program point of the thread that holds the mutex. */
  function HolderPc(s: State): PC {
    if s.mutex.Held? && s.mutex.holder < |s.th| then s.th[s.mutex.holder].pc else Outside
  }

  /** What holds of one thread. */
  ghost predicate ThreadOk(s: State, t: nat)
    requires t < |s.th|
  {
    var x := s.th[t];
    && (s.mutex == Held(t) <==> Holds(x.pc))
    && (x.running <==> Runs(x.pc))
    && (x.hasWaiter ==> Owes(x.pc) && s.pending > 0)
    && (x.pc.SxSetOne? || x.pc.CsSetAgain? ==> s.pending == 0)
    && (Owns(x.pc) ==> s.pending > 0)
    && (x.pc.SxScan? ==> s.pending == 1 && x.pc.next <= |s.th| && x.pc.found == Waiters(s.th))
    && (x.pc.SxScan? ==> forall j | x.pc.next <= j < |s.th| :: !s.th[j].hasWaiter)
    && (x.pc.SxSetCount? ==> s.pending == 1 && x.pc.found == Waiters(s.th))
    && (Counted(x.pc) ==> s.pending == 1 + Waiters(s.th) + if HolderPc(s).CeDecrement? then 1 else 0)
    && (Alone(x.pc) ==> s.pending == 1)
    && (x.pc.CeClearWaiter? ==> x.hasWaiter)
    && (x.pc.CeDecrement? ==> s.pending > 1)
    && (x.pc.CeCompare? ==> s.pending > 0)
    && (x.pc.CeSignal? ==> s.pending == 1)
    && (x.pc.SxSleep? ==> s.pending > 1 || HolderPc(s).CeCompare? || HolderPc(s).CeSignal?)
    && (x.pc.SxIdleSleep? || x.pc.CsIdleSleep? ==> s.pending > 0 || HolderPc(s).ExBroadcast?)
  }

  /** What holds of a thread and an owner: a CPU the scan passed without counting it cannot execute. */
  ghost predicate PairOk(s: State, o: nat, j: nat)
    requires o < |s.th| && j < |s.th|
  {
    && (Owns(s.th[o].pc) && Owns(s.th[j].pc) ==> o == j)
    && (Owns(s.th[o].pc) && Scanned(s.th[o].pc, j) && !s.th[j].hasWaiter ==> !Committed(s.th[j].pc))
  }

  ghost predicate Inv(s: State) {
    && s.pending >= 0
    && (s.mutex.Held? ==> s.mutex.holder < |s.th|)
    && (forall t: nat {:trigger ThreadOk(s, t)} | t < |s.th| :: ThreadOk(s, t))
    && (forall o: nat, j: nat {:trigger PairOk(s, o, j)} | o < |s.th| && j < |s.th| :: PairOk(s, o, j))
    && (s.pending > 0 ==> exists o: nat :: o < |s.th| && Owns(s.th[o].pc))
    && (s.pending == 0 ==> Waiters(s.th) == 0)
  }

  // Counting.

  lemma {:induction false} WaitersSame(th: seq<Thread>, th': seq<Thread>)
    requires |th| == |th'| && forall i | 0 <= i < |th| :: th'[i].hasWaiter == th[i].hasWaiter
    ensures Waiters(th') == Waiters(th)
  {
    if th != [] {
      WaitersSame(th[..|th| - 1], th'[..|th| - 1]);
    }
  }

  lemma {:induction false} WaitersUpdate(th: seq<Thread>, k: nat, x: Thread)
    requires k < |th|
    ensures Waiters(th[k := x]) == Waiters(th) + (if x.hasWaiter then 1 else 0) - (if th[k].hasWaiter then 1 else 0)
  {
    var n := |th| - 1;
    if k == n {
      assert th[k := x][..n] == th[..n];
    } else {
      assert th[k := x][..n] == th[..n][k := x];
      WaitersUpdate(th[..n], k, x);
    }
  }

  lemma {:induction false} SomeWaiter(th: seq<Thread>) returns (k: nat)
    requires Waiters(th) > 0
    ensures k < |th| && th[k].hasWaiter
  {
    k := |th| - 1;
    if !th[k].hasWaiter {
      k := SomeWaiter(th[..k]);
    }
  }

  lemma {:induction false} ZeroWaiters(th: seq<Thread>)
    requires forall k: nat | k < |th| :: !th[k].hasWaiter
    ensures Waiters(th) == 0
  {
    if th != [] {
      ZeroWaiters(th[..|th| - 1]);
    }
  }

  lemma {:induction false} NoWaiters(th: seq<Thread>, k: nat)
    requires Waiters(th) == 0 && k < |th|
    ensures !th[k].hasWaiter
  {
    if k < |th| - 1 {
      NoWaiters(th[..|th| - 1], k);
    }
  }

  // One step and the thread that takes it.

  /** A step that only moves `t` and its mutex, or writes its own running flag. */
  ghost predicate Quiet(s: State, t: nat, s': State)
    requires t < |s.th|
  {
    && |s'.th| == |s.th| && s'.pending == s.pending
    && s'.th[t].hasWaiter == s.th[t].hasWaiter
    && (forall u | 0 <= u < |s.th| && u != t :: s'.th[u] == s.th[u])
    && (s'.mutex == s.mutex || s'.mutex == Held(t) || s'.mutex == Free)
    && (s'.mutex == s.mutex || s.mutex == Free || s.mutex == Held(t))
    && !Busy(s.th[t].pc) && !Busy(s'.th[t].pc)
  }

  /** Program points other threads' facts speak about. */
  predicate Busy(pc: PC) {
    pc.CeDecrement? || pc.CeCompare? || pc.CeSignal? || pc.ExBroadcast?
  }

  /** The other threads do not notice a quiet step. */
  lemma QuietOthers(s: State, t: nat, s': State, u: nat)
    requires t < |s.th| && u < |s.th| && u != t && Quiet(s, t, s')
    requires ThreadOk(s, t) && ThreadOk(s, u) && (s.mutex.Held? ==> s.mutex.holder < |s.th|)
    ensures ThreadOk(s', u)
  {
    WaitersSame(s.th, s'.th);
  }

  lemma StartExclusiveQuiet(s: State, t: nat, s': State)
    requires t < |s.th| && ThreadOk(s, t) && StartExclusive(s, t, s')
    requires !s.th[t].pc.SxSetOne? && !s.th[t].pc.SxSetCount?
    ensures Quiet(s, t, s')
  {
  }

  lemma StartExclusiveSelf(s: State, t: nat, s': State)
    requires t < |s.th| && s.pending >= 0 && ThreadOk(s, t) && StartExclusive(s, t, s')
    requires !s.th[t].pc.SxSetOne? && !s.th[t].pc.SxSetCount? && Quiet(s, t, s')
    ensures ThreadOk(s', t)
  {
    WaitersSame(s.th, s'.th);
  }

  lemma CpuExecStartQuiet(s: State, t: nat, s': State)
    requires t < |s.th| && ThreadOk(s, t) && CpuExecStart(s, t, s')
    ensures Quiet(s, t, s')
  {
  }

  lemma CpuExecStartSelf(s: State, t: nat, s': State)
    requires t < |s.th| && s.pending >= 0 && ThreadOk(s, t) && CpuExecStart(s, t, s') && Quiet(s, t, s')
    ensures ThreadOk(s', t)
  {
    WaitersSame(s.th, s'.th);
  }

  lemma EndSelf(s: State, t: nat, s': State)
    requires t < |s.th| && s.pending >= 0 && ThreadOk(s, t)
    requires EndExclusive(s, t, s') && !s.th[t].pc.ExReset?
    ensures Quiet(s, t, s') && ThreadOk(s', t)
  {
    EndQuiet(s, t, s');
    EndOk(s, t, s');
  }

  lemma EndQuiet(s: State, t: nat, s': State)
    requires t < |s.th| && ThreadOk(s, t) && EndExclusive(s, t, s') && !s.th[t].pc.ExReset?
    ensures Quiet(s, t, s')
  {
  }

  lemma EndOk(s: State, t: nat, s': State)
    requires t < |s.th| && s.pending >= 0 && ThreadOk(s, t) && Quiet(s, t, s')
    requires EndExclusive(s, t, s') && !s.th[t].pc.ExReset?
    ensures ThreadOk(s', t)
  {
    WaitersSame(s.th, s'.th);
  }

  lemma CpuExecEndQuiet(s: State, t: nat, s': State)
    requires t < |s.th| && ThreadOk(s, t)
    requires CpuExecEnd(s, t, s') && !Busy(s.th[t].pc) && !s.th[t].pc.CeClearWaiter?
    ensures Quiet(s, t, s')
  {
  }

  lemma CpuExecEndSelf(s: State, t: nat, s': State)
    requires t < |s.th| && s.pending >= 0 && ThreadOk(s, t) && Quiet(s, t, s')
    requires CpuExecEnd(s, t, s') && !Busy(s.th[t].pc) && !s.th[t].pc.CeClearWaiter?
    ensures ThreadOk(s', t)
  {
    WaitersSame(s.th, s'.th);
  }

  lemma OutsideSelf(s: State, t: nat, s': State)
    requires t < |s.th| && s.pending >= 0 && ThreadOk(s, t) && s.th[t].pc == Outside
    requires s' == Go(s, t, SxLock) || s' == Go(s, t, CsSet)
    ensures Quiet(s, t, s') && ThreadOk(s', t)
  {
    WaitersSame(s.th, s'.th);
  }

  // The steps that write pending_cpus, has_waiter or another thread's program point.

  lemma SetOneStep(s: State, t: nat, s': State, u: nat)
    requires Inv(s) && t < |s.th| && u < |s.th| && s.th[t].pc.SxSetOne? && StartExclusive(s, t, s')
    ensures ThreadOk(s', u)
  {
    assert ThreadOk(s, t) && ThreadOk(s, u);
    WaitersSame(s.th, s'.th);
    NoWaiters(s.th, u);
    forall j | 0 <= j < |s'.th| ensures !s'.th[j].hasWaiter {
      NoWaiters(s.th, j);
    }
  }

  lemma SetCountStep(s: State, t: nat, s': State, u: nat)
    requires Inv(s) && t < |s.th| && u < |s.th| && s.th[t].pc.SxSetCount? && StartExclusive(s, t, s')
    ensures ThreadOk(s', u)
  {
    assert ThreadOk(s, t) && ThreadOk(s, u) && PairOk(s, t, u);
    WaitersSame(s.th, s'.th);
  }

  lemma ScanStep(s: State, t: nat, s': State, u: nat)
    requires Inv(s) && t < |s.th| && u < |s.th| && Scan(s, t, s')
    ensures |s'.th| == |s.th| && ThreadOk(s', u)
  {
    assert ThreadOk(s, t) && ThreadOk(s, u) && PairOk(s, t, u);
    var SxScan(next, found) := s.th[t].pc;
    if next < |s.th| && s.th[next].running {
      assert ThreadOk(s, next);
      ScanCounts(s, t, s', u);
    } else {
      WaitersSame(s.th, s'.th);
    }
  }

  /** The scan meets a running CPU: the CPU owes a decrement from here on. */
  lemma ScanCounts(s: State, t: nat, s': State, u: nat)
    requires t < |s.th| && u < |s.th| && Scan(s, t, s') && s.th[t].pc.next < |s.th| && s.th[s.th[t].pc.next].running
    requires ThreadOk(s, t) && ThreadOk(s, u) && ThreadOk(s, s.th[t].pc.next) && PairOk(s, t, u)
    ensures ThreadOk(s', u)
  {
    var SxScan(next, found) := s.th[t].pc;
    assert next != t;
    OneMoreWaiter(s.th, s'.th, t, next, SxScan(next + 1, found + 1));
    if u == t || u == next {
      CountedOne(s, t, s', u, next, found);
    } else {
      CountedOther(s, t, s', u);
    }
  }

  lemma OneMoreWaiter(th: seq<Thread>, th': seq<Thread>, t: nat, next: nat, pc: PC)
    requires t < |th| && next < |th| && t != next && !th[next].hasWaiter
    requires th' == th[t := th[t].(pc := pc)][next := th[next].(hasWaiter := true)]
    ensures Waiters(th') == Waiters(th) + 1
  {
    var mid := th[t := th[t].(pc := pc)];
    WaitersSame(th, mid);
    WaitersUpdate(mid, next, mid[next].(hasWaiter := true));
  }

  lemma CountedOther(s: State, t: nat, s': State, u: nat)
    requires t < |s.th| && u < |s.th| == |s'.th| && u != t && s.th[t].pc.SxScan? && s'.th[t].pc.SxScan?
    requires ThreadOk(s, t) && ThreadOk(s, u) && PairOk(s, t, u)
    requires s'.th[u] == s.th[u] && s'.pending == s.pending && s'.mutex == s.mutex
    ensures ThreadOk(s', u)
  {
  }

  lemma CountedOne(s: State, t: nat, s': State, u: nat, next: nat, found: nat)
    requires t < |s.th| && next < |s.th| && t != next && (u == t || u == next) && s.th[t].pc == SxScan(next, found)
    requires ThreadOk(s, t) && ThreadOk(s, next) && s.th[next].running && PairOk(s, t, next)
    requires s'.th == s.th[t := s.th[t].(pc := SxScan(next + 1, found + 1))][next := s.th[next].(hasWaiter := true)]
    requires s'.pending == s.pending && s'.mutex == s.mutex && Waiters(s'.th) == Waiters(s.th) + 1
    ensures ThreadOk(s', u)
  {
    assert HolderPc(s').SxScan? && HolderPc(s).SxScan?;
  }

  lemma ResetStep(s: State, t: nat, s': State, u: nat)
    requires Inv(s) && t < |s.th| && u < |s.th| && s.th[t].pc.ExReset? && EndExclusive(s, t, s')
    ensures ThreadOk(s', u)
  {
    assert ThreadOk(s, t) && ThreadOk(s, u) && PairOk(s, t, u);
    WaitersSame(s.th, s'.th);
    NoWaiters(s.th, u);
  }

  lemma BroadcastStep(s: State, t: nat, s': State, u: nat)
    requires Inv(s) && t < |s.th| && u < |s.th| && Resume(s, t, s')
    ensures |s'.th| == |s.th| && ThreadOk(s', u)
  {
    assert ThreadOk(s, t) && ThreadOk(s, u);
    BroadcastOne(s, t, s', u);
  }

  lemma BroadcastOne(s: State, t: nat, s': State, u: nat)
    requires t < |s.th| && u < |s.th| && Resume(s, t, s') && ThreadOk(s, t) && ThreadOk(s, u) && s.pending >= 0
    ensures |s'.th| == |s.th| && ThreadOk(s', u)
  {
    WaitersSame(s.th, s'.th);
  }

  lemma ClearWaiterStep(s: State, t: nat, s': State, u: nat)
    requires Inv(s) && t < |s.th| && u < |s.th| && s.th[t].pc.CeClearWaiter? && CpuExecEnd(s, t, s')
    ensures ThreadOk(s', u)
  {
    assert ThreadOk(s, t) && ThreadOk(s, u);
    var mid := Go(s, t, CeDecrement);
    WaitersSame(s.th, mid.th);
    WaitersUpdate(mid.th, t, mid.th[t].(hasWaiter := false));
    var o: nat :| o < |s.th| && Owns(s.th[o].pc);
    assert ThreadOk(s, o);
  }

  lemma DecrementStep(s: State, t: nat, s': State, u: nat)
    requires Inv(s) && t < |s.th| && u < |s.th| && s.th[t].pc.CeDecrement? && CpuExecEnd(s, t, s')
    ensures ThreadOk(s', u)
  {
    assert ThreadOk(s, t) && ThreadOk(s, u);
    WaitersSame(s.th, s'.th);
  }

  lemma CompareStep(s: State, t: nat, s': State, u: nat)
    requires Inv(s) && t < |s.th| && u < |s.th| && s.th[t].pc.CeCompare? && CpuExecEnd(s, t, s')
    ensures ThreadOk(s', u)
  {
    assert ThreadOk(s, t) && ThreadOk(s, u);
    WaitersSame(s.th, s'.th);
  }

  lemma SignalStep(s: State, t: nat, s': State, u: nat)
    requires Inv(s) && t < |s.th| && u < |s.th| && Signal(s, t, s')
    ensures |s'.th| == |s.th| && ThreadOk(s', u)
  {
    assert ThreadOk(s, t) && ThreadOk(s, u);
    if w: nat :| w < |s.th| && s.th[w].pc == SxSleep && s' == Go(Go(s, t, CeUnlock), w, SxRelock) {
      assert ThreadOk(s, w) && PairOk(s, w, u);
      SignalWakes(s, t, s', u, w);
    } else {
      SignalMissed(s, t, s', u);
    }
  }

  lemma SignalMissed(s: State, t: nat, s': State, u: nat)
    requires t < |s.th| && u < |s.th| && s.th[t].pc == CeSignal && s' == Go(s, t, CeUnlock)
    requires ThreadOk(s, t) && ThreadOk(s, u) && !s.th[u].pc.SxSleep?
    ensures ThreadOk(s', u)
  {
    WaitersSame(s.th, s'.th);
  }

  lemma SignalWakes(s: State, t: nat, s': State, u: nat, w: nat)
    requires t < |s.th| && u < |s.th| && w < |s.th| && s.th[t].pc == CeSignal
    requires s.th[w].pc == SxSleep && s' == Go(Go(s, t, CeUnlock), w, SxRelock)
    requires ThreadOk(s, t) && ThreadOk(s, u) && ThreadOk(s, w) && PairOk(s, w, u)
    ensures ThreadOk(s', u)
  {
    WaitersSame(s.th, s'.th);
    assert HolderPc(s') == CeUnlock && HolderPc(s) == CeSignal;
    if u != t && u != w {
      assert s'.th[u] == s.th[u];
    }
  }

  /** Every step keeps what holds of each thread. */
  lemma ThreadStep(s: State, t: nat, s': State, u: nat)
    requires Inv(s) && Step(s, t, s') && u < |s.th|
    ensures |s'.th| == |s.th| && ThreadOk(s', u)
  {
    assert ThreadOk(s, t) && ThreadOk(s, u);
    var pc := s.th[t].pc;
    if pc.SxSetOne? {
      SetOneStep(s, t, s', u);
    } else if pc.SxSetCount? {
      SetCountStep(s, t, s', u);
    } else if Scan(s, t, s') {
      ScanStep(s, t, s', u);
    } else if pc.ExReset? {
      ResetStep(s, t, s', u);
    } else if Resume(s, t, s') {
      BroadcastStep(s, t, s', u);
    } else if pc.CeClearWaiter? {
      ClearWaiterStep(s, t, s', u);
    } else if pc.CeDecrement? {
      DecrementStep(s, t, s', u);
    } else if pc.CeCompare? {
      CompareStep(s, t, s', u);
    } else if Signal(s, t, s') {
      SignalStep(s, t, s', u);
    } else {
      QuietStep(s, t, s');
      if u != t {
        QuietOthers(s, t, s', u);
      }
    }
  }

  lemma QuietStep(s: State, t: nat, s': State)
    requires Inv(s) && Step(s, t, s') && !Busy(s.th[t].pc)
    requires !s.th[t].pc.SxSetOne? && !s.th[t].pc.SxSetCount? && !Scan(s, t, s')
    requires !s.th[t].pc.ExReset? && !s.th[t].pc.CeClearWaiter?
    ensures Quiet(s, t, s') && ThreadOk(s', t)
  {
    assert ThreadOk(s, t);
    if StartExclusive(s, t, s') {
      StartExclusiveQuiet(s, t, s');
      StartExclusiveSelf(s, t, s');
    } else if CpuExecStart(s, t, s') {
      CpuExecStartQuiet(s, t, s');
      CpuExecStartSelf(s, t, s');
    } else if EndExclusive(s, t, s') {
      EndSelf(s, t, s');
    } else if CpuExecEnd(s, t, s') {
      CpuExecEndQuiet(s, t, s');
      CpuExecEndSelf(s, t, s');
    } else {
      OutsideSelf(s, t, s');
    }
  }

  // Owners and the CPUs they scanned.

  /** A step that lets no CPU past its checks, makes no owner and scans nothing keeps every pair. */
  lemma PairQuiet(s: State, t: nat, s': State, o: nat, j: nat)
    requires t < |s.th| && |s'.th| == |s.th| && o < |s.th| && j < |s.th|
    requires PairOk(s, o, j)
    requires forall u | 0 <= u < |s.th| && u != t ::
               s'.th[u].pc == s.th[u].pc && s'.th[u].hasWaiter == s.th[u].hasWaiter
    requires Owns(s'.th[t].pc) ==> Owns(s.th[t].pc)
    requires Owns(s'.th[t].pc) ==>
               forall k: nat :: Scanned(s'.th[t].pc, k) ==> Scanned(s.th[t].pc, k) || k >= |s.th|
    requires Committed(s'.th[t].pc) ==> Committed(s.th[t].pc) && s'.th[t].hasWaiter == s.th[t].hasWaiter
    ensures PairOk(s', o, j)
  {
  }

  /** Nobody owns when nothing is pending, so any CPU may pass its checks. */
  lemma PairIdle(s: State, t: nat, s': State, o: nat, j: nat)
    requires t < |s.th| && |s'.th| == |s.th| && o < |s.th| && j < |s.th| && s.pending == 0
    requires ThreadOk(s, t) && ThreadOk(s, o) && ThreadOk(s, j)
    requires forall u | 0 <= u < |s.th| && u != t :: s'.th[u].pc == s.th[u].pc
    requires Owns(s'.th[t].pc) ==> s'.th[t].pc == SxScan(0, 0)
    ensures PairOk(s', o, j)
  {
  }

  lemma PairScan(s: State, t: nat, s': State, o: nat, j: nat)
    requires Inv(s) && t < |s.th| && o < |s.th| && j < |s.th| && Scan(s, t, s')
    ensures |s'.th| == |s.th| && PairOk(s', o, j)
  {
    assert PairOk(s, o, j) && PairOk(s, o, t) && PairOk(s, t, j) && ThreadOk(s, j) && ThreadOk(s, t);
  }

  lemma PairStart(s: State, t: nat, s': State, o: nat, j: nat)
    requires Inv(s) && t < |s.th| && o < |s.th| && j < |s.th| && StartExclusive(s, t, s')
    ensures |s'.th| == |s.th| && PairOk(s', o, j)
  {
    assert PairOk(s, o, j) && ThreadOk(s, t);
    if s.th[t].pc.SxSetOne? {
      assert ThreadOk(s, o) && ThreadOk(s, j);
      PairIdle(s, t, s', o, j);
    } else {
      PairQuiet(s, t, s', o, j);
    }
  }

  lemma PairCpuExecStart(s: State, t: nat, s': State, o: nat, j: nat)
    requires Inv(s) && t < |s.th| && o < |s.th| && j < |s.th| && CpuExecStart(s, t, s')
    ensures |s'.th| == |s.th| && PairOk(s', o, j)
  {
    assert PairOk(s, o, j) && ThreadOk(s, t) && ThreadOk(s, o);
    if s.pending == 0 {
      PairExecIdle(s, t, s', o, j);
    } else {
      PairExecStart(s, t, s', o, j);
    }
  }

  lemma PairExecIdle(s: State, t: nat, s': State, o: nat, j: nat)
    requires t < |s.th| && o < |s.th| && j < |s.th| && CpuExecStart(s, t, s') && s.pending == 0 && ThreadOk(s, o)
    ensures |s'.th| == |s.th| && PairOk(s', o, j)
  {
    NoOwnerYet(s, t, s', o);
  }

  lemma NoOwnerYet(s: State, t: nat, s': State, o: nat)
    requires t < |s.th| && o < |s.th| && CpuExecStart(s, t, s') && s.pending == 0 && ThreadOk(s, o)
    ensures |s'.th| == |s.th| && !Owns(s'.th[o].pc)
  {
    if o != t {
      assert s'.th[o] == s.th[o];
    }
  }

  lemma PairExecStart(s: State, t: nat, s': State, o: nat, j: nat)
    requires t < |s.th| && o < |s.th| && j < |s.th| && ThreadOk(s, t) && PairOk(s, o, j) && CpuExecStart(s, t, s')
    requires s.pending > 0
    ensures |s'.th| == |s.th| && PairOk(s', o, j)
  {
    if !s.th[t].pc.CsTest? {
      PairQuiet(s, t, s', o, j);
    }
  }

  lemma PairEndExclusive(s: State, t: nat, s': State, o: nat, j: nat)
    requires t < |s.th| && o < |s.th| && j < |s.th| && ThreadOk(s, t) && PairOk(s, o, j)
    requires EndExclusive(s, t, s') || (s.th[t].pc == Outside && (s' == Go(s, t, SxLock) || s' == Go(s, t, CsSet)))
    ensures |s'.th| == |s.th| && PairOk(s', o, j)
  {
    PairQuiet(s, t, s', o, j);
  }

  lemma PairExecEnd(s: State, t: nat, s': State, o: nat, j: nat)
    requires t < |s.th| && o < |s.th| && j < |s.th| && ThreadOk(s, t) && PairOk(s, o, j) && CpuExecEnd(s, t, s')
    ensures |s'.th| == |s.th| && PairOk(s', o, j)
  {
    PairQuiet(s, t, s', o, j);
  }

  lemma PairEnd(s: State, t: nat, s': State, o: nat, j: nat)
    requires Inv(s) && t < |s.th| && o < |s.th| && j < |s.th|
    requires EndExclusive(s, t, s') || CpuExecEnd(s, t, s') ||
               (s.th[t].pc == Outside && (s' == Go(s, t, SxLock) || s' == Go(s, t, CsSet)))
    ensures |s'.th| == |s.th| && PairOk(s', o, j)
  {
    assert PairOk(s, o, j) && ThreadOk(s, t);
    if CpuExecEnd(s, t, s') {
      PairExecEnd(s, t, s', o, j);
    } else {
      PairEndExclusive(s, t, s', o, j);
    }
  }

  lemma PairWake(s: State, t: nat, s': State, o: nat, j: nat)
    requires t < |s.th| && o < |s.th| && j < |s.th| && PairOk(s, o, j)
    requires Resume(s, t, s') || Signal(s, t, s')
    ensures |s'.th| == |s.th| && PairOk(s', o, j)
  {
  }

  lemma PairStep(s: State, t: nat, s': State, o: nat, j: nat)
    requires Inv(s) && Step(s, t, s') && o < |s.th| && j < |s.th|
    ensures |s'.th| == |s.th| && PairOk(s', o, j)
  {
    if StartExclusive(s, t, s') {
      PairStart(s, t, s', o, j);
    } else if Scan(s, t, s') {
      PairScan(s, t, s', o, j);
    } else if CpuExecStart(s, t, s') {
      PairCpuExecStart(s, t, s', o, j);
    } else if Resume(s, t, s') || Signal(s, t, s') {
      assert PairOk(s, o, j);
      PairWake(s, t, s', o, j);
    } else {
      PairEnd(s, t, s', o, j);
    }
  }

  /** Only the store in end_exclusive takes an owner away. */
  lemma OwnerStays(s: State, t: nat, s': State, o: nat)
    requires Inv(s) && Step(s, t, s') && o < |s.th| && Owns(s.th[o].pc)
    ensures |s'.th| == |s.th| && (Owns(s'.th[o].pc) || s'.pending == 0)
  {
    assert ThreadOk(s, t);
    if o == t {
      OwnerStaysSelf(s, t, s');
    } else {
      OwnerStaysOther(s, t, s', o);
    }
  }

  lemma OwnerStaysOther(s: State, t: nat, s': State, o: nat)
    requires t < |s.th| && Step(s, t, s') && o < |s.th| && o != t && Owns(s.th[o].pc)
    ensures |s'.th| == |s.th| && Owns(s'.th[o].pc)
  {
    if StartExclusive(s, t, s') || CpuExecStart(s, t, s') || EndExclusive(s, t, s') || CpuExecEnd(s, t, s') {
      assert s'.th[o] == s.th[o];
    }
  }

  lemma OwnerStaysSelf(s: State, t: nat, s': State)
    requires ThreadOkAt(s, t) && Step(s, t, s') && Owns(s.th[t].pc)
    ensures |s'.th| == |s.th| && (Owns(s'.th[t].pc) || s'.pending == 0)
  {
  }

  ghost predicate ThreadOkAt(s: State, t: nat) {
    t < |s.th| && ThreadOk(s, t)
  }

  /** Only the store of 1 makes one. */
  lemma OwnerStep(s: State, t: nat, s': State)
    requires ThreadOkAt(s, t) && Step(s, t, s') && s.pending == 0
    ensures |s'.th| == |s.th| && (s'.pending > 0 ==> Owns(s'.th[t].pc))
  {
  }

  lemma StepSane(s: State, t: nat, s': State)
    requires ThreadOkAt(s, t) && s.pending >= 0 && (s.mutex.Held? ==> s.mutex.holder < |s.th|) && Step(s, t, s')
    ensures |s'.th| == |s.th| && s'.pending >= 0 && (s'.mutex.Held? ==> s'.mutex.holder < |s'.th|)
  {
  }

  lemma OwnerExists(s: State, t: nat, s': State)
    requires Inv(s) && Step(s, t, s')
    ensures |s'.th| == |s.th| && s'.pending >= 0 && (s'.mutex.Held? ==> s'.mutex.holder < |s'.th|)
    ensures s'.pending > 0 ==> exists o: nat :: o < |s'.th| && Owns(s'.th[o].pc)
  {
    assert ThreadOk(s, t);
    StepSane(s, t, s');
    if s.pending > 0 {
      var o: nat :| o < |s.th| && Owns(s.th[o].pc);
      OwnerStays(s, t, s', o);
    } else {
      OwnerStep(s, t, s');
    }
  }

  /** With nothing pending no CPU is counted. */
  lemma NoneCounted(s: State)
    requires s.pending == 0 && forall t: nat {:trigger ThreadOk(s, t)} | t < |s.th| :: ThreadOk(s, t)
    ensures Waiters(s.th) == 0
  {
    forall k: nat | k < |s.th| ensures !s.th[k].hasWaiter {
      assert ThreadOk(s, k);
    }
    ZeroWaiters(s.th);
  }

  lemma InitInv(s: State)
    requires Init(s)
    ensures Inv(s)
  {
    ZeroWaiters(s.th);
  }

  /** Every step of every thread keeps the invariant. */
  lemma StepKeepsInv(s: State, s': State)
    requires Inv(s) && Next(s, s')
    ensures Inv(s')
  {
    var t: nat :| Step(s, t, s');
    OwnerExists(s, t, s');
    forall u: nat | u < |s'.th| ensures ThreadOk(s', u) {
      ThreadStep(s, t, s', u);
    }
    forall o: nat, j: nat | o < |s'.th| && j < |s'.th| ensures PairOk(s', o, j) {
      PairStep(s, t, s', o, j);
    }
    if s'.pending == 0 {
      NoneCounted(s');
    }
  }

  lemma {:induction false} RunInv(tr: seq<State>, i: nat)
    requires Run(tr) && i < |tr|
    ensures Inv(tr[i])
  {
    if i == 0 {
      InitInv(tr[0]);
    } else {
      RunInv(tr, i - 1);
      assert Next(tr[i - 1], tr[i - 1 + 1]);
      StepKeepsInv(tr[i - 1], tr[i]);
    }
  }

  // What the protocol is for.

  /** In every interleaving, while a thread is in an exclusive section no CPU is between
      cpu_exec_start and cpu_exec_end and no other thread is in an exclusive section. */
  lemma MutualExclusion(tr: seq<State>, i: nat, e: nat, u: nat)
    requires Run(tr) && i < |tr| && e < |tr[i].th| && u < |tr[i].th|
    requires tr[i].th[e].pc == InExclusive
    ensures tr[i].th[u].pc != InCpuExec
    ensures tr[i].th[u].pc == InExclusive ==> u == e
  {
    RunInv(tr, i);
    var s := tr[i];
    assert ThreadOk(s, e) && PairOk(s, e, u);
    NoWaiters(s.th, u);
  }

  /** After the scan, pending_cpus is 1 plus the CPUs with has_waiter set (one more while a CPU is
      between clearing its flag and its decrement), and each of those has its decrement still to come. */
  lemma PendingCounts(tr: seq<State>, i: nat, e: nat, k: nat)
    requires Run(tr) && i < |tr| && e < |tr[i].th| && Counted(tr[i].th[e].pc)
    ensures tr[i].pending == 1 + Waiters(tr[i].th) + if HolderPc(tr[i]).CeDecrement? then 1 else 0
    ensures k < |tr[i].th| && tr[i].th[k].hasWaiter ==> Owes(tr[i].th[k].pc)
  {
    RunInv(tr, i);
    assert ThreadOk(tr[i], e);
    if k < |tr[i].th| {
      assert ThreadOk(tr[i], k);
    }
  }

  /** The waiter in start_exclusive is never left asleep: once no CPU is counted any more, it has been
      signalled or the thread about to signal it holds the mutex. */
  lemma WaiterWoken(tr: seq<State>, i: nat, e: nat)
    requires Run(tr) && i < |tr| && e < |tr[i].th| && Waiters(tr[i].th) == 0
    requires !Busy(HolderPc(tr[i]))
    ensures tr[i].th[e].pc != SxSleep
  {
    RunInv(tr, i);
    assert ThreadOk(tr[i], e);
  }

  /** Nor is a thread in exclusive_idle: it sleeps only while some thread owns the exclusive section. */
  lemma IdleWoken(tr: seq<State>, i: nat, w: nat)
    requires Run(tr) && i < |tr| && w < |tr[i].th|
    requires tr[i].th[w].pc == SxIdleSleep || tr[i].th[w].pc == CsIdleSleep
    requires !HolderPc(tr[i]).ExBroadcast?
    ensures exists o: nat :: o < |tr[i].th| && Owns(tr[i].th[o].pc)
  {
    RunInv(tr, i);
    assert ThreadOk(tr[i], w);
  }

  predicate Asleep(pc: PC) {
    pc.SxIdleSleep? || pc.SxSleep? || pc.CsIdleSleep?
  }

  predicate WantsMutex(pc: PC) {
    pc.SxLock? || pc.SxIdleRelock? || pc.SxRelock? || pc.ExLock? || pc.CsLock? || pc.CsIdleRelock? || pc.CeLock?
  }

  /** A thread that is awake and not waiting for the mutex can step. */
  ghost predicate Enabled(s: State, t: nat)
    requires t < |s.th|
  {
    !Asleep(s.th[t].pc) && (WantsMutex(s.th[t].pc) ==> s.mutex == Free)
  }

  /** Nobody ever waits for nothing: as long as some thread is not outside, some such thread can step
      without being woken for no reason. */
  lemma NoDeadlock(tr: seq<State>, i: nat, t: nat) returns (u: nat)
    requires Run(tr) && i < |tr| && t < |tr[i].th| && tr[i].th[t].pc != Outside
    ensures u < |tr[i].th| && tr[i].th[u].pc != Outside && Enabled(tr[i], u)
  {
    RunInv(tr, i);
    u := SomeoneSteps(tr[i], t);
  }

  lemma SomeoneSteps(s: State, t: nat) returns (u: nat)
    requires Inv(s) && t < |s.th| && s.th[t].pc != Outside
    ensures u < |s.th| && s.th[u].pc != Outside && Enabled(s, u)
  {
    u := t;
    if s.mutex.Held? {
      u := s.mutex.holder;
      assert ThreadOk(s, u);
    } else if Asleep(s.th[t].pc) {
      assert ThreadOk(s, t);
      u :| u < |s.th| && Owns(s.th[u].pc);
      assert ThreadOk(s, u);
      if s.th[u].pc == SxSleep {
        u := SomeWaiter(s.th);
        assert ThreadOk(s, u);
      }
    }
  }

  /** And being able to step means there is a step. */
  lemma EnabledSteps(s: State, t: nat) returns (s': State)
    requires t < |s.th| && Enabled(s, t)
    ensures Step(s, t, s')
  {
    match s.th[t].pc
    case Outside => s' := Go(s, t, SxLock);
    case SxLock => s' := Acquire(s, t, SxIdle);
    case SxIdle => s' := if s.pending != 0 then Release(s, t, SxIdleSleep) else Go(s, t, SxSetOne);
    case SxIdleRelock => s' := Acquire(s, t, SxIdle);
    case SxSetOne => s' := Go(s, t, SxScan(0, 0)).(pending := 1);
    case SxScan(next, found) =>
      s' := if next == |s.th| then Go(s, t, SxSetCount(found))
            else if next < |s.th| && s.th[next].running then
              SetWaiter(Go(s, t, SxScan(next + 1, found + 1)), next, true)
            else Go(s, t, SxScan(next + 1, found));
    case SxSetCount(found) => s' := Go(s, t, SxCheck).(pending := found + 1);
    case SxCheck => s' := if s.pending > 1 then Release(s, t, SxSleep) else Go(s, t, SxUnlock);
    case SxRelock => s' := Acquire(s, t, SxCheck);
    case SxUnlock => s' := Release(s, t, InExclusive);
    case InExclusive => s' := Go(s, t, ExLock);
    case ExLock => s' := Acquire(s, t, ExReset);
    case ExReset => s' := Go(s, t, ExBroadcast).(pending := 0);
    case ExBroadcast =>
      s' := s.(th := seq(|s.th|, i requires 0 <= i < |s.th| =>
                                   if i == t then s.th[t].(pc := ExUnlock) else Resumed(s.th[i])));
      assert Resume(s, t, s');
    case ExUnlock => s' := Release(s, t, Outside);
    case CsSet => s' := SetRunning(s, t, true, CsRead);
    case CsRead => s' := Go(s, t, if s.pending != 0 then CsLock else InCpuExec);
    case CsLock => s' := Acquire(s, t, CsTest);
    case CsTest => s' := Go(s, t, if s.th[t].hasWaiter then CsUnlock else CsClear);
    case CsClear => s' := SetRunning(s, t, false, CsIdle);
    case CsIdle => s' := if s.pending != 0 then Release(s, t, CsIdleSleep) else Go(s, t, CsSetAgain);
    case CsIdleRelock => s' := Acquire(s, t, CsIdle);
    case CsSetAgain => s' := SetRunning(s, t, true, CsUnlock);
    case CsUnlock => s' := Release(s, t, InCpuExec);
    case InCpuExec => s' := Go(s, t, CeClear);
    case CeClear => s' := SetRunning(s, t, false, CeRead);
    case CeRead => s' := Go(s, t, if s.pending != 0 then CeLock else Outside);
    case CeLock => s' := Acquire(s, t, CeTest);
    case CeTest => s' := Go(s, t, if s.th[t].hasWaiter then CeClearWaiter else CeUnlock);
    case CeClearWaiter => s' := SetWaiter(Go(s, t, CeDecrement), t, false);
    case CeDecrement => s' := Go(s, t, CeCompare).(pending := s.pending - 1);
    case CeCompare => s' := Go(s, t, if s.pending == 1 then CeSignal else CeUnlock);
    case CeSignal =>
      if w: nat :| w < |s.th| && s.th[w].pc == SxSleep {
        s' := Go(Go(s, t, CeUnlock), w, SxRelock);
      } else {
        s' := Go(s, t, CeUnlock);
      }
      assert Signal(s, t, s');
    case CeUnlock => s' := Release(s, t, Outside);
  }
}
