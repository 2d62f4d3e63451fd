/**
  Bottom halves and the wake-up of a blocked aio_poll (async.c, aio-posix.c), as a state machine over the
  atomic steps of any number of threads.  A thread that schedules a bottom half reads notify_me after it
  has set `scheduled`; a thread that polls raises notify_me before it looks at `scheduled`.
  Memory is sequentially consistent, as the barriers in the code provide.  A callback that schedules, creates
  or deletes bottom halves takes its steps under the name of another thread.
 */
module EventLoop {

  datatype Bh = Bh(scheduled: bool, idle: bool, deleted: bool)

  /** Where a thread stands. */
  datatype Pc =
    | Outside
    // aio_poll, holding the context lock up to Leaving and again from Accept on
    | Entered(blocking: bool)
    | Counted(blocking: bool)
    | Timeout(left: nat)                 // aio_compute_timeout, with `left` bottom halves to look at
    | Leaving                            // the timeout is not 0
    | Blocked                            // in poll, without the lock
    | Polling(blocking: bool)            // in poll with timeout 0
    | Polled(blocking: bool, held: bool)
    | Relock
    | Accept                             // aio_notify_accept
    | Clear                              // about to clear the event notifier
    | Dispatch                           // aio_bh_poll, before it reads the list
    | Visit(left: nat)
    | Sweep(left: nat)                   // removing deleted bottom halves
    | Release
    // qemu_bh_schedule and aio_bh_schedule_oneshot
    | Exchange(b: nat)
    | Notify                             // `scheduled` is set; aio_notify before it reads notify_me
    | Set                                // about to set the event notifier
    | Mark                               // about to set `notified`
    // qemu_bh_schedule_idle and qemu_bh_delete
    | IdleSet(b: nat)
    | Removing(b: nat)

  /** The context: the bottom halves, oldest first (the list of the code runs from the last one to the first).
      `quiet` holds those that an idle schedule may have scheduled since they last ran or were found not scheduled. */
  datatype State = State(pc: seq<Pc>, lock: int, bh: map<nat, Bh>, list: seq<nat>, notifyMe: nat, notified: bool,
                         notifier: bool, quiet: set<nat>)

  /** What a thread does next: start an operation, or go on with the one it is in. */
  datatype Action =
    | Poll(blocking: bool)
    | Schedule(b: nat)
    | ScheduleIdle(b: nat)
    | New(b: nat)
    | Oneshot(b: nat)
    | Cancel(b: nat)
    | Delete(b: nat)
    | Go(deadline: bool)                 // `deadline`: a timer is already due

  const FREE: int := -1

  /** Bottom halves that callers may still use: nobody deleted them or is about to. */
  predicate Usable(s: State, b: nat) {
    b in s.bh && !s.bh[b].deleted && forall u | 0 <= u < |s.pc| :: s.pc[u] != Removing(b)
  }

  /** bh_lock is held across the sweep. */
  predicate ListFree(s: State) {
    forall u | 0 <= u < |s.pc| :: !s.pc[u].Sweep?
  }

  predicate Enabled(s: State, t: nat, a: Action) {
    t < |s.pc| &&
    match a
    case Poll(_) => s.pc[t].Outside? && s.lock == FREE
    case Schedule(b) => s.pc[t].Outside? && Usable(s, b)
    case ScheduleIdle(b) => s.pc[t].Outside? && Usable(s, b)
    case New(b) => s.pc[t].Outside? && b !in s.bh && ListFree(s)
    case Oneshot(b) => s.pc[t].Outside? && b !in s.bh && ListFree(s)
    case Cancel(b) => s.pc[t].Outside? && Usable(s, b)
    // nobody else uses a bottom half that is being deleted
    case Delete(b) => s.pc[t].Outside? && Usable(s, b) && forall u | 0 <= u < |s.pc| :: !Uses(s.pc[u], b)
    case Go(_) => !s.pc[t].Outside? && (s.pc[t].Relock? ==> s.lock == FREE)
  }

  predicate Uses(pc: Pc, b: nat) {
    pc == Exchange(b) || pc == IdleSet(b) || pc == Removing(b)
  }

  function At(s: State, t: nat, pc: Pc): State
    requires t < |s.pc|
  {
    s.(pc := s.pc[t := pc])
  }

  function Put(s: State, b: nat, h: Bh): State {
    s.(bh := s.bh[b := h])
  }

  /** Nobody is in the middle of scheduling `b` idle. */
  predicate Calm(s: State, b: nat) {
    forall u | 0 <= u < |s.pc| :: s.pc[u] != IdleSet(b)
  }

  function Settled(s: State, b: nat): set<nat> {
    if Calm(s, b) then s.quiet - {b} else s.quiet
  }

  function Start(s: State, t: nat, a: Action): State
    requires Enabled(s, t, a) && !a.Go?
  {
    match a
    case Poll(blocking) => At(s, t, Entered(blocking)).(lock := t)
    case Schedule(b) =>
      At(Put(s, b, s.bh[b].(idle := false)), t, Exchange(b))
      .(quiet := if s.bh[b].scheduled then s.quiet else Settled(s, b))
    case ScheduleIdle(b) => At(Put(s, b, s.bh[b].(idle := true)), t, IdleSet(b)).(quiet := s.quiet + {b})
    case New(b) => Put(s, b, Bh(false, false, false)).(list := s.list + [b], quiet := s.quiet - {b})
    case Oneshot(b) =>
      At(Put(s, b, Bh(true, false, true)), t, Notify).(list := s.list + [b], quiet := s.quiet - {b})
    case Cancel(b) => Put(s, b, s.bh[b].(scheduled := false))
    case Delete(b) => At(Put(s, b, s.bh[b].(scheduled := false)), t, Removing(b))
  }

  /** The bottom half `left` steps before the end of a walk. */
  predicate InWalk(s: State, left: nat) {
    0 < left <= |s.list| && s.list[left - 1] in s.bh
  }

  predicate GoOk(s: State, t: nat) {
    t < |s.pc| &&
    match s.pc[t]
    case Timeout(left) => left == 0 || InWalk(s, left)
    case Visit(left) => left == 0 || InWalk(s, left)
    case Sweep(left) => left == 0 || InWalk(s, left)
    case Polled(blocking, _) => blocking ==> s.notifyMe >= 2
    case Exchange(b) => b in s.bh
    case IdleSet(b) => b in s.bh
    case Removing(b) => b in s.bh
    case _ => true
  }

  function Continue(s: State, t: nat, deadline: bool): State
    requires GoOk(s, t) && !s.pc[t].Outside?
  {
    match s.pc[t]
    case Entered(blocking) => At(s, t, Counted(blocking)).(notifyMe := s.notifyMe + if blocking then 2 else 0)
    case Counted(blocking) => At(s, t, if blocking then Timeout(|s.list|) else Polling(false))
    case Timeout(left) =>
      if left == 0 then At(s, t, if deadline then Polling(true) else Leaving)
      else
        var h := s.bh[s.list[left - 1]];
        At(s, t, if h.scheduled && !h.idle then Polling(true) else Timeout(left - 1))
    case Leaving => At(s, t, Blocked).(lock := FREE)
    case Blocked => At(s, t, Polled(true, false))
    case Polling(blocking) => At(s, t, Polled(blocking, true))
    case Polled(blocking, held) =>
      At(s, t, if held then Accept else Relock).(notifyMe := s.notifyMe - if blocking then 2 else 0)
    case Relock => At(s, t, Accept).(lock := t)
    case Accept => At(s, t, if s.notified then Clear else Dispatch).(notified := false)
    case Clear => At(s, t, Dispatch).(notifier := false)
    case Dispatch => At(s, t, Visit(|s.list|))
    case Visit(left) =>
      if left == 0 then At(s, t, Sweep(|s.list|))
      else
        var b := s.list[left - 1];
        var h := s.bh[b];
        At(Put(s, b, h.(scheduled := false, idle := if h.scheduled then false else h.idle)), t, Visit(left - 1))
        .(quiet := if h.scheduled then Settled(s, b) else s.quiet)
    case Sweep(left) =>
      if left == 0 then At(s, t, Release)
      else
        var b := s.list[left - 1];
        if s.bh[b].deleted && !s.bh[b].scheduled then
          At(s, t, Sweep(left - 1)).(list := s.list[..left - 1] + s.list[left..], bh := s.bh - {b})
        else At(s, t, Sweep(left - 1))
    case Release => At(s, t, Outside).(lock := FREE)
    case Exchange(b) =>
      if s.bh[b].scheduled then At(s, t, Outside)
      else At(Put(s, b, s.bh[b].(scheduled := true)), t, Notify)
    case Notify => At(s, t, if s.notifyMe != 0 then Set else Outside)
    case Set => At(s, t, Mark).(notifier := true)
    case Mark => At(s, t, Outside).(notified := true)
    case IdleSet(b) => At(Put(s, b, s.bh[b].(scheduled := true)), t, Outside)
    case Removing(b) => At(Put(s, b, s.bh[b].(deleted := true)), t, Outside)
  }

  /** One step of a run. */
  ghost predicate Step(s: State, s': State) {
    exists t: nat, a: Action :: StepOf(s, s', t, a)
  }

  ghost predicate StepOf(s: State, s': State, t: nat, a: Action) {
    Enabled(s, t, a) && if a.Go? then GoOk(s, t) && s' == Continue(s, t, a.deadline) else s' == Start(s, t, a)
  }

  /** An empty context. */
  predicate Init(s: State) {
    && (forall t | 0 <= t < |s.pc| :: s.pc[t].Outside?) && s.lock == FREE && s.bh == map[] && s.list == []
    && s.notifyMe == 0 && !s.notified && !s.notifier && s.quiet == {}
  }

  ghost predicate Run(run: seq<State>) {
    |run| > 0 && Init(run[0]) && forall i | 0 <= i < |run| - 1 :: Step(run[i], run[i + 1])
  }

  // The invariant.

  /** The thread counts in notify_me. */
  predicate Counts(pc: Pc) {
    match pc
    case Counted(blocking) => blocking
    case Timeout(_) => true
    case Leaving => true
    case Blocked => true
    case Polling(blocking) => blocking
    case Polled(blocking, _) => blocking
    case _ => false
  }

  function Count(pc: seq<Pc>): nat {
    if pc == [] then 0 else Count(pc[..|pc| - 1]) + if Counts(pc[|pc| - 1]) then 1 else 0
  }

  predicate Locks(pc: Pc) {
    match pc
    case Outside => false
    case Blocked => false
    case Polled(_, held) => held
    case Relock => false
    case Exchange(_) => false
    case Notify => false
    case Set => false
    case Mark => false
    case IdleSet(_) => false
    case Removing(_) => false
    case _ => true
  }

  /** The thread will wait in poll, or is waiting, without another look at the bottom half at index `i`. */
  predicate Committed(pc: Pc, i: nat) {
    match pc
    case Timeout(left) => i >= left
    case Leaving => true
    case Blocked => true
    case _ => false
  }

  /** The thread is past poll and will still visit the bottom half at index `i`. */
  predicate WillVisit(pc: Pc, i: nat) {
    match pc
    case Polled(_, _) => true
    case Relock => true
    case Accept => true
    case Clear => true
    case Dispatch => true
    case Visit(left) => i < left
    case _ => false
  }

  /** The thread has set `scheduled` and not yet the event notifier. */
  predicate InFlight(pc: Pc) {
    pc.Notify? || pc.Set?
  }

  /** The bottom half at index `i` is scheduled, and not by an idle schedule. */
  predicate Due(s: State, i: nat) {
    i < |s.list| && s.list[i] in s.bh && s.bh[s.list[i]].scheduled && s.list[i] !in s.quiet
  }

  ghost predicate Flying(s: State) {
    exists t: nat :: t < |s.pc| && InFlight(s.pc[t])
  }

  ghost predicate Awaited(s: State, i: nat) {
    exists q: nat :: q < |s.pc| && WillVisit(s.pc[q], i)
  }

  /** Somebody sees to the bottom half at index `i`. */
  ghost predicate Covered(s: State, i: nat) {
    s.notifier || Flying(s) || Awaited(s, i)
  }

  ghost predicate Wakes(s: State) {
    forall p: nat, i: nat | p < |s.pc| && Committed(s.pc[p], i) && Due(s, i) :: Covered(s, i)
  }

  predicate ThreadOk(s: State, t: nat)
    requires t < |s.pc|
  {
    var pc := s.pc[t];
    && (Locks(pc) <==> s.lock == t)
    && (pc.Timeout? || pc.Visit? || pc.Sweep? ==> pc.left <= |s.list|)
    && (pc.Exchange? || pc.IdleSet? || pc.Removing? ==> pc.b in s.bh && !s.bh[pc.b].deleted)
    && (pc.IdleSet? ==> pc.b in s.quiet)
  }

  /** A bottom half that is being deleted is used by nobody else. */
  ghost predicate Alone(s: State) {
    forall t, u | 0 <= t < |s.pc| && 0 <= u < |s.pc| && t != u && s.pc[t].Removing? :: !Uses(s.pc[u], s.pc[t].b)
  }

  ghost predicate Listed(s: State) {
    && (forall i | 0 <= i < |s.list| :: s.list[i] in s.bh)
    && (forall i, j | 0 <= i < j < |s.list| :: s.list[i] != s.list[j])
    && (forall b | b in s.bh :: b in s.list)
    && (forall b | b in s.bh && b !in s.quiet :: !s.bh[b].idle)
  }

  ghost predicate Base(s: State) {
    && Listed(s) && s.notifyMe == 2 * Count(s.pc) && Alone(s)
    && forall t: nat | t < |s.pc| :: ThreadOk(s, t)
  }

  ghost predicate Inv(s: State) {
    Base(s) && Wakes(s)
  }

  function One(pc: Pc): nat {
    if Counts(pc) then 1 else 0
  }

  lemma {:induction false} CountUpdate(pcs: seq<Pc>, t: nat, pc: Pc)
    requires t < |pcs|
    ensures Count(pcs[t := pc]) == Count(pcs) - One(pcs[t]) + One(pc)
  {
    var n := |pcs| - 1;
    var pcs' := pcs[t := pc];
    if t == n {
      assert pcs'[..n] == pcs[..n];
    } else {
      assert pcs'[..n] == pcs[..n][t := pc];
      CountUpdate(pcs[..n], t, pc);
    }
  }

  lemma {:induction false} CountPositive(pcs: seq<Pc>, t: nat)
    requires t < |pcs| && Counts(pcs[t])
    ensures Count(pcs) > 0
  {
    if t < |pcs| - 1 {
      CountPositive(pcs[..|pcs| - 1], t);
    }
  }

  /** Nobody but `t` gains or loses the lock. */
  predicate LockKept(s: State, s': State, t: nat) {
    s'.lock == s.lock || ((s.lock == FREE || s.lock == t) && (s'.lock == FREE || s'.lock == t))
  }

  /** Thread `t` may be at `pc` as far as deletion goes. */
  ghost predicate MayUse(s: State, t: nat, pc: Pc) {
    forall u | 0 <= u < |s.pc| && u != t ::
      && (s.pc[u].Removing? ==> !Uses(pc, s.pc[u].b))
      && (pc.Removing? ==> !Uses(s.pc[u], pc.b))
  }

  lemma AloneKept(s: State, s': State, t: nat, pc: Pc)
    requires Alone(s) && t < |s.pc| && s'.pc == s.pc[t := pc] && MayUse(s, t, pc)
    ensures Alone(s')
  {
    forall u, v | 0 <= u < |s'.pc| && 0 <= v < |s'.pc| && u != v && s'.pc[u].Removing?
      ensures !Uses(s'.pc[v], s'.pc[u].b)
    {
      if u != t && v != t {
        assert !Uses(s.pc[v], s.pc[u].b);
      }
    }
  }

  /** A step that changes no bottom half. */
  lemma PcStep(s: State, s': State, t: nat, pc: Pc)
    requires Base(s) && t < |s.pc| && s'.pc == s.pc[t := pc]
    requires s'.bh == s.bh && s'.list == s.list && s'.quiet == s.quiet
    requires s'.notifyMe == s.notifyMe + 2 * One(pc) - 2 * One(s.pc[t])
    requires LockKept(s, s', t) && ThreadOk(s', t) && MayUse(s, t, pc)
    ensures Base(s')
  {
    CountUpdate(s.pc, t, pc);
    AloneKept(s, s', t, pc);
    forall u: nat | u < |s'.pc| ensures ThreadOk(s', u) {
      assert ThreadOk(s, u) && ThreadOk(s, t);
    }
  }

  /** A step that changes bottom half `b` without deleting it. */
  lemma BhStep(s: State, s': State, t: nat, pc: Pc, b: nat, h: Bh)
    requires Base(s) && t < |s.pc| && s'.pc == s.pc[t := pc] && b in s.bh
    requires s'.bh == s.bh[b := h] && s'.list == s.list && s.quiet - {b} <= s'.quiet <= s.quiet + {b}
    requires b in s'.quiet || (Calm(s, b) && !h.idle) || (s'.quiet == s.quiet && (h.idle ==> s.bh[b].idle))
    requires h.deleted == s.bh[b].deleted
    requires s'.notifyMe == s.notifyMe && s'.lock == s.lock && One(pc) == One(s.pc[t])
    requires ThreadOk(s', t) && MayUse(s, t, pc)
    ensures Base(s')
  {
    CountUpdate(s.pc, t, pc);
    AloneKept(s, s', t, pc);
    forall u: nat | u < |s'.pc| ensures ThreadOk(s', u) {
      assert ThreadOk(s, u);
    }
    assert Listed(s');
  }

  /** A new bottom half at the head of the list. */
  lemma InsertStep(s: State, s': State, t: nat, pc: Pc, b: nat, h: Bh)
    requires Base(s) && t < |s.pc| && s'.pc == s.pc[t := pc] && b !in s.bh && !h.idle
    requires s'.bh == s.bh[b := h] && s'.list == s.list + [b] && s'.quiet == s.quiet - {b}
    requires s'.notifyMe == s.notifyMe && s'.lock == s.lock && One(pc) == One(s.pc[t])
    requires ThreadOk(s', t) && MayUse(s, t, pc)
    ensures Base(s')
  {
    CountUpdate(s.pc, t, pc);
    AloneKept(s, s', t, pc);
    forall u: nat | u < |s'.pc| ensures ThreadOk(s', u) {
      assert ThreadOk(s, u);
    }
    InsertListed(s, s', b, h);
  }

  lemma InsertListed(s: State, s': State, b: nat, h: Bh)
    requires Listed(s) && b !in s.bh && !h.idle
    requires s'.bh == s.bh[b := h] && s'.list == s.list + [b] && s'.quiet == s.quiet - {b}
    ensures Listed(s')
  {
    forall c | c in s'.bh ensures c in s'.list {
      if c != b {
        assert c in s.list;
      }
    }
  }

  lemma InsertBase(s: State, t: nat, a: Action, b: nat, pc: Pc, h: Bh)
    requires Base(s) && Enabled(s, t, a)
    requires (a == New(b) && pc == Outside && h == Bh(false, false, false)) ||
               (a == Oneshot(b) && pc == Notify && h == Bh(true, false, true))
    ensures Base(Start(s, t, a))
  {
    assert ThreadOk(s, t);
    assert s.pc[t := Outside] == s.pc;
    InsertStep(s, Start(s, t, a), t, pc, b, h);
  }

  lemma StartBase(s: State, t: nat, a: Action)
    requires Base(s) && Enabled(s, t, a) && !a.Go?
    ensures Base(Start(s, t, a))
  {
    match a
    case Poll(blocking) => PollBase(s, t, blocking);
    case Schedule(b) => UseBase(s, t, a, b);
    case ScheduleIdle(b) => UseBase(s, t, a, b);
    case New(b) => InsertBase(s, t, a, b, Outside, Bh(false, false, false));
    case Oneshot(b) => InsertBase(s, t, a, b, Notify, Bh(true, false, true));
    case Cancel(b) => StopBase(s, t, a, b);
    case Delete(b) => StopBase(s, t, a, b);
  }

  lemma PollBase(s: State, t: nat, blocking: bool)
    requires Base(s) && Enabled(s, t, Poll(blocking))
    ensures Base(Start(s, t, Poll(blocking)))
  {
    assert ThreadOk(s, t);
    PcStep(s, Start(s, t, Poll(blocking)), t, Entered(blocking));
  }

  lemma UseBase(s: State, t: nat, a: Action, b: nat)
    requires Base(s) && Enabled(s, t, a) && (a == Schedule(b) || a == ScheduleIdle(b))
    ensures Base(Start(s, t, a))
  {
    assert ThreadOk(s, t);
    BhStep(s, Start(s, t, a), t, if a.Schedule? then Exchange(b) else IdleSet(b), b, s.bh[b].(idle := a.ScheduleIdle?));
  }

  lemma StopBase(s: State, t: nat, a: Action, b: nat)
    requires Base(s) && Enabled(s, t, a) && (a == Cancel(b) || a == Delete(b))
    ensures Base(Start(s, t, a))
  {
    assert ThreadOk(s, t);
    assert s.pc[t := Outside] == s.pc;
    BhStep(s, Start(s, t, a), t, if a.Cancel? then Outside else Removing(b), b, s.bh[b].(scheduled := false));
  }

  /** Every step a thread can be about to take is defined. */
  lemma GoDefined(s: State, t: nat)
    requires Base(s) && t < |s.pc|
    ensures GoOk(s, t)
  {
    assert ThreadOk(s, t);
    if Counts(s.pc[t]) {
      CountPositive(s.pc, t);
    }
  }

  /** The sweep removes a deleted bottom half. */
  lemma RemoveStep(s: State, s': State, t: nat, left: nat)
    requires Base(s) && t < |s.pc| && s.pc[t] == Sweep(left) && 0 < left <= |s.list|
    requires s'.pc == s.pc[t := Sweep(left - 1)]
    requires s.list[left - 1] in s.bh && s.bh[s.list[left - 1]].deleted
    requires s'.list == s.list[..left - 1] + s.list[left..] && s'.bh == s.bh - {s.list[left - 1]}
    requires s'.quiet == s.quiet && s'.notifyMe == s.notifyMe && s'.lock == s.lock
    ensures Base(s')
  {
    CountUpdate(s.pc, t, Sweep(left - 1));
    AloneKept(s, s', t, Sweep(left - 1));
    RemoveListed(s, s', left);
    assert ThreadOk(s, t);
    forall u: nat | u < |s'.pc| ensures ThreadOk(s', u) {
      assert ThreadOk(s, u);
    }
  }

  /** The index before the bottom half at `left - 1` was removed. */
  function Before(i: nat, left: nat): nat {
    if i < left - 1 then i else i + 1
  }

  lemma RemovedAt(list: seq<nat>, list': seq<nat>, left: nat)
    requires 0 < left <= |list| && list' == list[..left - 1] + list[left..]
    ensures |list'| == |list| - 1 && forall i: nat | i < |list'| :: list'[i] == list[Before(i, left)]
    ensures forall c | c in list && c != list[left - 1] :: c in list'
  {
    forall c | c in list && c != list[left - 1] ensures c in list' {
      var i :| 0 <= i < |list| && list[i] == c;
      assert list'[if i < left - 1 then i else i - 1] == c;
    }
  }

  lemma RemoveListed(s: State, s': State, left: nat)
    requires Listed(s) && 0 < left <= |s.list|
    requires s'.list == s.list[..left - 1] + s.list[left..] && s'.bh == s.bh - {s.list[left - 1]}
    requires s'.quiet == s.quiet
    ensures Listed(s')
  {
    RemovedAt(s.list, s'.list, left);
    forall i: nat | i < |s'.list| ensures s'.list[i] in s'.bh {
      assert s.list[Before(i, left)] in s.bh;
    }
    forall i, j | 0 <= i < j < |s'.list| ensures s'.list[i] != s'.list[j] {
      assert s.list[Before(i, left)] != s.list[Before(j, left)];
    }
  }

  /** qemu_bh_delete sets `deleted`. */
  lemma DeletedStep(s: State, s': State, t: nat, b: nat)
    requires Base(s) && t < |s.pc| && s.pc[t] == Removing(b) && s'.pc == s.pc[t := Outside] && b in s.bh
    requires s'.bh == s.bh[b := s.bh[b].(deleted := true)] && s'.list == s.list && s'.quiet == s.quiet
    requires s'.notifyMe == s.notifyMe && s'.lock == s.lock
    ensures Base(s')
  {
    CountUpdate(s.pc, t, Outside);
    AloneKept(s, s', t, Outside);
    assert ThreadOk(s, t);
    forall u: nat | u < |s'.pc| ensures ThreadOk(s', u) {
      assert ThreadOk(s, u);
      if u != t {
        assert !Uses(s.pc[u], s.pc[t].b);
      }
    }
    assert Listed(s');
  }

  /** The part of aio_poll that decides to wait, and waits. */
  predicate Waits(pc: Pc) {
    pc.Entered? || pc.Counted? || pc.Timeout? || pc.Leaving? || pc.Blocked? || pc.Polling? || pc.Polled? || pc.Relock?
  }

  /** The part of aio_poll that clears the notifier and dispatches. */
  predicate Serves(pc: Pc) {
    pc.Accept? || pc.Clear? || pc.Dispatch? || pc.Visit? || pc.Sweep? || pc.Release?
  }

  lemma EnterBase(s: State, t: nat, deadline: bool)
    requires Base(s) && t < |s.pc| && GoOk(s, t)
    requires s.pc[t].Entered? || s.pc[t].Counted? || s.pc[t].Timeout? || s.pc[t].Leaving?
    ensures Base(Continue(s, t, deadline))
  {
    var s' := Continue(s, t, deadline);
    assert ThreadOk(s, t);
    PcStep(s, s', t, s'.pc[t]);
  }

  lemma ReturnBase(s: State, t: nat, deadline: bool)
    requires Base(s) && t < |s.pc| && (s.pc[t].Relock? ==> s.lock == FREE) && GoOk(s, t)
    requires s.pc[t].Blocked? || s.pc[t].Polling? || s.pc[t].Polled? || s.pc[t].Relock?
    ensures Base(Continue(s, t, deadline))
  {
    var s' := Continue(s, t, deadline);
    assert ThreadOk(s, t);
    PcStep(s, s', t, s'.pc[t]);
  }

  lemma VisitBase(s: State, t: nat, left: nat, deadline: bool)
    requires Base(s) && t < |s.pc| && s.pc[t] == Visit(left) && GoOk(s, t)
    ensures Base(Continue(s, t, deadline))
  {
    var s' := Continue(s, t, deadline);
    assert ThreadOk(s, t);
    if left == 0 {
      PcStep(s, s', t, Sweep(|s.list|));
    } else {
      var b := s.list[left - 1];
      var h := s.bh[b];
      BhStep(s, s', t, Visit(left - 1), b, h.(scheduled := false, idle := if h.scheduled then false else h.idle));
    }
  }

  lemma SweepBase(s: State, t: nat, left: nat, deadline: bool)
    requires Base(s) && t < |s.pc| && s.pc[t] == Sweep(left) && GoOk(s, t)
    ensures Base(Continue(s, t, deadline))
  {
    var s' := Continue(s, t, deadline);
    assert ThreadOk(s, t);
    if left > 0 && s.bh[s.list[left - 1]].deleted && !s.bh[s.list[left - 1]].scheduled {
      RemoveStep(s, s', t, left);
    } else {
      PcStep(s, s', t, if left == 0 then Release else Sweep(left - 1));
    }
  }

  lemma ServeBase(s: State, t: nat, deadline: bool)
    requires Base(s) && t < |s.pc| && Serves(s.pc[t]) && GoOk(s, t)
    ensures Base(Continue(s, t, deadline))
  {
    var pc := s.pc[t];
    if pc.Visit? {
      VisitBase(s, t, pc.left, deadline);
    } else if pc.Sweep? {
      SweepBase(s, t, pc.left, deadline);
    } else {
      var s' := Continue(s, t, deadline);
      assert ThreadOk(s, t);
      PcStep(s, s', t, s'.pc[t]);
    }
  }

  lemma SignalBase(s: State, t: nat, deadline: bool)
    requires Base(s) && t < |s.pc| && (s.pc[t].Notify? || s.pc[t].Set? || s.pc[t].Mark?) && GoOk(s, t)
    ensures Base(Continue(s, t, deadline))
  {
    var s' := Continue(s, t, deadline);
    assert ThreadOk(s, t);
    PcStep(s, s', t, s'.pc[t]);
  }

  lemma ScheduleBase(s: State, t: nat, deadline: bool)
    requires Base(s) && t < |s.pc| && !Waits(s.pc[t]) && !Serves(s.pc[t]) && !s.pc[t].Outside? && GoOk(s, t)
    ensures Base(Continue(s, t, deadline))
  {
    var pc := s.pc[t];
    if pc.Notify? || pc.Set? || pc.Mark? {
      SignalBase(s, t, deadline);
    } else {
      FlagBase(s, t, deadline);
    }
  }

  lemma FlagBase(s: State, t: nat, deadline: bool)
    requires Base(s) && t < |s.pc| && (s.pc[t].Exchange? || s.pc[t].IdleSet? || s.pc[t].Removing?) && GoOk(s, t)
    ensures Base(Continue(s, t, deadline))
  {
    var s', pc := Continue(s, t, deadline), s.pc[t];
    assert ThreadOk(s, t);
    if pc.Removing? {
      DeletedStep(s, s', t, pc.b);
    } else if pc.Exchange? && s.bh[pc.b].scheduled {
      PcStep(s, s', t, Outside);
    } else {
      BhStep(s, s', t, if pc.Exchange? then Notify else Outside, pc.b, s.bh[pc.b].(scheduled := true));
    }
  }

  lemma ContinueBase(s: State, t: nat, deadline: bool)
    requires Base(s) && Enabled(s, t, Go(deadline)) && GoOk(s, t)
    ensures Base(Continue(s, t, deadline))
  {
    var pc := s.pc[t];
    if pc.Entered? || pc.Counted? || pc.Timeout? || pc.Leaving? {
      EnterBase(s, t, deadline);
    } else if Waits(pc) {
      ReturnBase(s, t, deadline);
    } else if Serves(pc) {
      ServeBase(s, t, deadline);
    } else {
      ScheduleBase(s, t, deadline);
    }
  }

  // Who sees to a bottom half.

  /** A step that moves only thread `t`, keeps what is due, and keeps or replaces what `t` stood for. */
  lemma WakesKept(s: State, s': State, t: nat, pc: Pc)
    requires Wakes(s) && t < |s.pc| && s'.pc == s.pc[t := pc]
    requires forall i: nat :: Due(s', i) ==> Due(s, i)
    requires s.notifier ==> s'.notifier
    requires InFlight(s.pc[t]) ==> InFlight(pc) || s'.notifier
    requires forall i: nat :: Due(s', i) && WillVisit(s.pc[t], i) ==> WillVisit(pc, i)
    requires forall i: nat :: Due(s', i) && Committed(pc, i) ==> Committed(s.pc[t], i)
    ensures Wakes(s')
  {
    forall p: nat, i: nat | p < |s'.pc| && Committed(s'.pc[p], i) && Due(s', i) ensures Covered(s', i) {
      assert Committed(s.pc[p], i) && Due(s, i);
      if Flying(s) {
        var u: nat :| u < |s.pc| && InFlight(s.pc[u]);
        assert s'.notifier || InFlight(s'.pc[u]);
      }
      if Awaited(s, i) {
        var q: nat :| q < |s.pc| && WillVisit(s.pc[q], i);
        assert WillVisit(s'.pc[q], i);
      }
    }
  }

  /** A thread in flight sees to everything. */
  lemma WakesFlying(s: State, t: nat)
    requires t < |s.pc| && (s.notifier || InFlight(s.pc[t]))
    ensures Wakes(s)
  {
    assert s.notifier || Flying(s);
  }

  /** A thread that still visits the whole list sees to everything. */
  lemma WakesVisited(s: State, t: nat)
    requires t < |s.pc| && forall i: nat | i < |s.list| :: WillVisit(s.pc[t], i)
    ensures Wakes(s)
  {
    forall p: nat, i: nat | p < |s.pc| && Committed(s.pc[p], i) && Due(s, i) ensures Covered(s, i) {
      assert WillVisit(s.pc[t], i);
    }
  }

  /** With notify_me 0 nobody waits. */
  lemma WakesUncounted(s: State)
    requires s.notifyMe == 2 * Count(s.pc) && s.notifyMe == 0
    ensures Wakes(s)
  {
    forall p: nat | p < |s.pc| ensures !Counts(s.pc[p]) {
      if Counts(s.pc[p]) {
        CountPositive(s.pc, p);
      }
    }
  }

  lemma StartWakes(s: State, t: nat, a: Action)
    requires Inv(s) && Enabled(s, t, a) && !a.Go?
    ensures Wakes(Start(s, t, a))
  {
    var s' := Start(s, t, a);
    if a.Oneshot? {
      WakesFlying(s', t);
    } else {
      WakesKept(s, s', t, s'.pc[t]);
    }
  }

  /** Looking at a bottom half that is due ends the wait before it begins. */
  lemma TimeoutWakes(s: State, t: nat, left: nat, deadline: bool)
    requires Inv(s) && t < |s.pc| && s.pc[t] == Timeout(left) && GoOk(s, t)
    ensures Wakes(Continue(s, t, deadline))
  {
    var s' := Continue(s, t, deadline);
    WakesKept(s, s', t, s'.pc[t]);
  }

  lemma EnterWakes(s: State, t: nat, deadline: bool)
    requires Inv(s) && t < |s.pc| && (s.pc[t].Entered? || s.pc[t].Counted? || s.pc[t].Leaving?) && GoOk(s, t)
    ensures Wakes(Continue(s, t, deadline))
  {
    var s' := Continue(s, t, deadline);
    WakesKept(s, s', t, s'.pc[t]);
  }

  lemma ReturnWakes(s: State, t: nat, deadline: bool)
    requires Inv(s) && t < |s.pc| && (s.pc[t].Blocked? || s.pc[t].Polling? || s.pc[t].Polled? || s.pc[t].Relock?)
    requires GoOk(s, t)
    ensures Wakes(Continue(s, t, deadline))
  {
    var s' := Continue(s, t, deadline);
    WakesKept(s, s', t, s'.pc[t]);
  }

  lemma VisitWakes(s: State, t: nat, left: nat, deadline: bool)
    requires Inv(s) && t < |s.pc| && s.pc[t] == Visit(left) && GoOk(s, t)
    ensures Wakes(Continue(s, t, deadline))
  {
    var s' := Continue(s, t, deadline);
    WakesKept(s, s', t, s'.pc[t]);
  }

  /** Removing a bottom half that is not scheduled moves the others without changing who sees to them. */
  lemma RemoveWakes(s: State, s': State, t: nat, left: nat)
    requires Inv(s) && t < |s.pc| && s.pc[t] == Sweep(left) && 0 < left <= |s.list|
    requires s'.pc == s.pc[t := Sweep(left - 1)]
    requires s'.list == s.list[..left - 1] + s.list[left..] && s'.bh == s.bh - {s.list[left - 1]}
    requires s'.quiet == s.quiet && s'.notifier == s.notifier
    ensures Wakes(s')
  {
    assert ThreadOk(s, t);
    forall p: nat, i: nat | p < |s'.pc| && Committed(s'.pc[p], i) && Due(s', i) ensures Covered(s', i) {
      var j := if i < left - 1 then i else i + 1;
      assert s'.list[i] == s.list[j];
      assert ThreadOk(s, p);
      assert Committed(s.pc[p], j) && Due(s, j);
      if Flying(s) {
        var u: nat :| u < |s.pc| && InFlight(s.pc[u]);
        assert InFlight(s'.pc[u]);
      }
      if Awaited(s, j) {
        var q: nat :| q < |s.pc| && WillVisit(s.pc[q], j);
        assert ThreadOk(s, q);
        assert WillVisit(s'.pc[q], i);
      }
    }
  }

  lemma SweepWakes(s: State, t: nat, left: nat, deadline: bool)
    requires Inv(s) && t < |s.pc| && s.pc[t] == Sweep(left) && GoOk(s, t)
    ensures Wakes(Continue(s, t, deadline))
  {
    var s' := Continue(s, t, deadline);
    if left > 0 && s.bh[s.list[left - 1]].deleted && !s.bh[s.list[left - 1]].scheduled {
      RemoveWakes(s, s', t, left);
    } else {
      WakesKept(s, s', t, if left == 0 then Release else Sweep(left - 1));
    }
  }

  lemma ServeWakes(s: State, t: nat, deadline: bool)
    requires Inv(s) && t < |s.pc| && Serves(s.pc[t]) && GoOk(s, t)
    ensures Wakes(Continue(s, t, deadline))
  {
    var s', pc := Continue(s, t, deadline), s.pc[t];
    if pc.Visit? {
      VisitWakes(s, t, pc.left, deadline);
    } else if pc.Clear? {
      WakesVisited(s', t);
    } else if pc.Sweep? {
      SweepWakes(s, t, pc.left, deadline);
    } else {
      WakesKept(s, s', t, s'.pc[t]);
    }
  }

  lemma ScheduleWakes(s: State, t: nat, deadline: bool)
    requires Inv(s) && t < |s.pc| && !Waits(s.pc[t]) && !Serves(s.pc[t]) && !s.pc[t].Outside? && GoOk(s, t)
    ensures Wakes(Continue(s, t, deadline))
  {
    var s', pc := Continue(s, t, deadline), s.pc[t];
    assert ThreadOk(s, t);
    if pc.Notify? && s.notifyMe == 0 {
      CountUpdate(s.pc, t, Outside);
      WakesUncounted(s');
    } else if pc.Set? || InFlight(s'.pc[t]) {
      WakesFlying(s', t);
    } else {
      WakesKept(s, s', t, s'.pc[t]);
    }
  }

  /** Every step keeps the invariant. */
  lemma StepKeepsInv(s: State, s': State)
    requires Inv(s) && Step(s, s')
    ensures Inv(s')
  {
    var t: nat, a: Action :| StepOf(s, s', t, a);
    if !a.Go? {
      StartBase(s, t, a);
      StartWakes(s, t, a);
    } else {
      ContinueBase(s, t, a.deadline);
      var pc := s.pc[t];
      if pc.Timeout? {
        TimeoutWakes(s, t, pc.left, a.deadline);
      } else if pc.Entered? || pc.Counted? || pc.Leaving? {
        EnterWakes(s, t, a.deadline);
      } else if Waits(pc) {
        ReturnWakes(s, t, a.deadline);
      } else if Serves(pc) {
        ServeWakes(s, t, a.deadline);
      } else {
        ScheduleWakes(s, t, a.deadline);
      }
    }
  }

  lemma {:induction false} NoneCounted(pcs: seq<Pc>)
    requires forall t | 0 <= t < |pcs| :: pcs[t].Outside?
    ensures Count(pcs) == 0
  {
    if pcs != [] {
      NoneCounted(pcs[..|pcs| - 1]);
    }
  }

  lemma InitInv(s: State)
    requires Init(s)
    ensures Inv(s)
  {
    NoneCounted(s.pc);
  }

  lemma NextInv(run: seq<State>, i: nat)
    requires Run(run) && i + 1 < |run| && Inv(run[i])
    ensures Inv(run[i + 1])
  {
    var s, s' := run[i], run[i + 1];
    assert Step(s, s');
    StepKeepsInv(s, s');
  }

  lemma {:induction false} RunInv(run: seq<State>, n: nat)
    requires Run(run) && n < |run|
    ensures Inv(run[n])
  {
    if n == 0 {
      InitInv(run[0]);
    } else {
      RunInv(run, n - 1);
      NextInv(run, n - 1);
    }
  }

  /** No lost wake-up: in every state of every run, while a thread waits in poll and a bottom half that no idle
      schedule can have scheduled is scheduled, the event notifier is set, or some thread is between setting `scheduled`
      and setting the notifier, or another thread that polls is past poll and has yet to visit the bottom half. */
  lemma NoLostWakeup(run: seq<State>, n: nat, p: nat, i: nat)
    requires Run(run) && n < |run| && p < |run[n].pc| && run[n].pc[p].Blocked? && Due(run[n], i)
    ensures Covered(run[n], i)
  {
    RunInv(run, n);
  }

  /** With a single thread that polls, only the notifier and the threads in flight are left. */
  lemma NoLostWakeupSingle(run: seq<State>, n: nat, p: nat, i: nat)
    requires Run(run) && n < |run| && p < |run[n].pc| && run[n].pc[p].Blocked? && Due(run[n], i)
    requires forall q: nat | q < |run[n].pc| && q != p :: !Waits(run[n].pc[q]) && !Serves(run[n].pc[q])
    ensures run[n].notifier || Flying(run[n])
  {
    NoLostWakeup(run, n, p, i);
    assert forall q: nat | q < |run[n].pc| :: !WillVisit(run[n].pc[q], i);
  }

  /** While somebody waits, a thread in flight does set the notifier. */
  lemma FlightArrives(run: seq<State>, n: nat, p: nat, t: nat, deadline: bool)
    requires Run(run) && n < |run| && p < |run[n].pc| && run[n].pc[p].Blocked?
    requires t < |run[n].pc| && InFlight(run[n].pc[t])
    ensures GoOk(run[n], t)
    ensures var s' := Continue(run[n], t, deadline); s'.pc[t].Set? || s'.notifier
  {
    RunInv(run, n);
    GoDefined(run[n], t);
    CountPositive(run[n].pc, p);
  }

  /** No run gets stuck inside an operation: whatever a thread does next is defined. */
  lemma NeverStuck(run: seq<State>, n: nat, t: nat)
    requires Run(run) && n < |run| && t < |run[n].pc|
    ensures GoOk(run[n], t)
  {
    RunInv(run, n);
    GoDefined(run[n], t);
  }

  /** Two threads and one bottom half that is never scheduled but by qemu_bh_schedule_idle. */
  function Duo(poller: Pc, other: Pc, lock: int, notifyMe: nat, h: Bh, quiet: set<nat>): State {
    State([poller, other], lock, map[7 := h], [7], notifyMe, false, false, quiet)
  }

  /** A run in which idle scheduling meets a thread that waits. */
  function IdleRun(i: nat): State
    requires i < 10
  {
    var h := Bh(false, false, false);
    match i
    case 0 => State([Outside, Outside], FREE, map[], [], 0, false, false, {})
    case 1 => Duo(Outside, Outside, FREE, 0, h, {})
    case 2 => Duo(Entered(true), Outside, 0, 0, h, {})
    case 3 => Duo(Counted(true), Outside, 0, 2, h, {})
    case 4 => Duo(Timeout(1), Outside, 0, 2, h, {})
    case 5 => Duo(Timeout(0), Outside, 0, 2, h, {})
    case 6 => Duo(Leaving, Outside, 0, 2, h, {})
    case 7 => Duo(Blocked, Outside, FREE, 2, h, {})
    case 8 => Duo(Blocked, IdleSet(7), FREE, 2, h.(idle := true), {7})
    case 9 => Duo(Blocked, Outside, FREE, 2, Bh(true, true, false), {7})
  }

  function IdleAction(i: nat): (nat, Action)
    requires i < 9
  {
    match i
    case 0 => (1, New(7))
    case 1 => (0, Poll(true))
    case 7 => (1, ScheduleIdle(7))
    case 8 => (1, Go(false))
    case _ => (0, Go(false))
  }

  lemma IdleStarts(i: nat)
    requires i < 9 && !IdleAction(i).1.Go?
    ensures StepOf(IdleRun(i), IdleRun(i + 1), IdleAction(i).0, IdleAction(i).1)
  {
    var s, t, a := IdleRun(i), IdleAction(i).0, IdleAction(i).1;
    assert Enabled(s, t, a);
    assert Start(s, t, a) == IdleRun(i + 1);
  }

  lemma IdleGoes(i: nat)
    requires i < 9 && IdleAction(i).1.Go?
    ensures StepOf(IdleRun(i), IdleRun(i + 1), IdleAction(i).0, IdleAction(i).1)
  {
    var s, t, a := IdleRun(i), IdleAction(i).0, IdleAction(i).1;
    assert Enabled(s, t, a) && GoOk(s, t);
    assert Continue(s, t, false) == IdleRun(i + 1);
  }

  /** Idle scheduling is outside the guarantee: in this run a thread waits, a bottom half is scheduled, and nobody
      sees to it. */
  lemma IdleIsNotWoken()
    ensures var run := seq(10, i requires 0 <= i < 10 => IdleRun(i));
            Run(run) && run[9].pc[0].Blocked? && run[9].bh[run[9].list[0]].scheduled && !Covered(run[9], 0)
  {
    var run := seq(10, i requires 0 <= i < 10 => IdleRun(i));
    forall i | 0 <= i < 9 ensures Step(run[i], run[i + 1]) {
      if IdleAction(i).1.Go? {
        IdleGoes(i);
      } else {
        IdleStarts(i);
      }
    }
  }

  /** Thread 0 waits while thread 1 schedules bottom half 7 and then polls without blocking. */
  function Pair(other: Pc, lock: int, scheduled: bool, notified: bool, notifier: bool): State {
    State([Blocked, other], lock, map[7 := Bh(scheduled, false, false)], [7], 2, notified, notifier, {})
  }

  /** A run with two threads that poll; it starts like the one above. */
  function PairRun(i: nat): State
    requires i < 20
  {
    if i < 8 then IdleRun(i)
    else
      match i
      case 8 => Pair(Exchange(7), FREE, false, false, false)
      case 9 => Pair(Notify, FREE, true, false, false)
      case 10 => Pair(Set, FREE, true, false, false)
      case 11 => Pair(Mark, FREE, true, false, true)
      case 12 => Pair(Outside, FREE, true, true, true)
      case 13 => Pair(Entered(false), 1, true, true, true)
      case 14 => Pair(Counted(false), 1, true, true, true)
      case 15 => Pair(Polling(false), 1, true, true, true)
      case 16 => Pair(Polled(false, true), 1, true, true, true)
      case 17 => Pair(Accept, 1, true, true, true)
      case 18 => Pair(Clear, 1, true, false, true)
      case 19 => Pair(Dispatch, 1, true, false, false)
  }

  lemma PairStarts(i: nat, a: Action)
    requires (i == 7 && a == Schedule(7)) || (i == 12 && a == Poll(false))
    ensures StepOf(PairRun(i), PairRun(i + 1), 1, a)
  {
    assert Enabled(PairRun(i), 1, a);
    assert Start(PairRun(i), 1, a) == PairRun(i + 1);
  }

  lemma PairSchedules(i: nat)
    requires 8 <= i < 12
    ensures StepOf(PairRun(i), PairRun(i + 1), 1, Go(false))
  {
    assert Enabled(PairRun(i), 1, Go(false)) && GoOk(PairRun(i), 1);
    assert Continue(PairRun(i), 1, false) == PairRun(i + 1);
  }

  lemma PairPolls(i: nat)
    requires 13 <= i < 16
    ensures StepOf(PairRun(i), PairRun(i + 1), 1, Go(false))
  {
    assert Enabled(PairRun(i), 1, Go(false)) && GoOk(PairRun(i), 1);
    assert Continue(PairRun(i), 1, false) == PairRun(i + 1);
  }

  lemma PairServes(i: nat)
    requires 16 <= i < 19
    ensures StepOf(PairRun(i), PairRun(i + 1), 1, Go(false))
  {
    assert Enabled(PairRun(i), 1, Go(false)) && GoOk(PairRun(i), 1);
    assert Continue(PairRun(i), 1, false) == PairRun(i + 1);
  }

  lemma PairSteps(i: nat)
    requires i < 19
    ensures Step(PairRun(i), PairRun(i + 1))
  {
    if i < 7 {
      if IdleAction(i).1.Go? {
        IdleGoes(i);
      } else {
        IdleStarts(i);
      }
    } else if i == 7 {
      PairStarts(i, Schedule(7));
    } else if i == 12 {
      PairStarts(i, Poll(false));
    } else if i < 12 {
      PairSchedules(i);
    } else if i < 16 {
      PairPolls(i);
    } else {
      PairServes(i);
    }
  }

  /** With two threads that poll the third alternative is needed: in this run a thread waits, a bottom half is due, the
      notifier is clear and nobody is about to set it; the other thread that polls
      has taken the notification and has yet to visit the bottom half. */
  lemma TwoPollersShare()
    ensures var run := seq(20, i requires 0 <= i < 20 => PairRun(i));
            && Run(run) && run[19].pc[0].Blocked? && Due(run[19], 0)
            && !run[19].notifier && !Flying(run[19]) && Awaited(run[19], 0)
  {
    var run := seq(20, i requires 0 <= i < 20 => PairRun(i));
    forall i | 0 <= i < 19 ensures Step(run[i], run[i + 1]) {
      PairSteps(i);
    }
    assert WillVisit(run[19].pc[1], 0);
  }
}
