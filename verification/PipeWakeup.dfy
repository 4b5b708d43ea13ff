/** No lost wake-up: when at most one thread at a time waits on each condition, a waiter that
    has something to do always has a notification on its way. */
module PipeWakeup {
  import opened Basics
  import opened Pipe

  predicate PendingR(s: State) {
    s.lock.Some? && PcOf(s, s.lock.value).Notify? && PcOf(s, s.lock.value).toR > 0
  }

  predicate PendingW(s: State) {
    s.lock.Some? && PcOf(s, s.lock.value).Notify? && PcOf(s, s.lock.value).toW > 0
  }

  /** Registered and waiting for a token, on the way to the select or blocked in it. */
  predicate Asleep(pc: Pc) {
    pc.Unlocked? || pc.Parked?
  }

  /** There is data to read, room to write, or the pipe is closed. */
  predicate CanGoOn(s: State, reading: bool) {
    s.closed || if reading then s.buffer != [] else |s.buffer| < s.max
  }

  /** A waiter that could go on is due a Signal from the lock holder or, unless it is blocked in the
      select already, finds a token in the slot. */
  predicate AwakeAt(s: State, u: Tid) {
    var pc := PcOf(s, u);
    Asleep(pc) && CanGoOn(s, pc.job.Reading?) ==>
      || (if pc.job.Reading? then PendingR(s) else PendingW(s))
      || (pc.Unlocked? && CondOf(s, pc.job.Reading?).token)
  }

  /** At most one waiter on each condition. */
  predicate Roomy(s: State) {
    s.r.waiters <= 1 && s.w.waiters <= 1
  }

  predicate Counted(s: State, u: Tid) {
    Asleep(PcOf(s, u)) ==> if PcOf(s, u).job.Reading? then s.r.waiters > 0 else s.w.waiters > 0
  }

  lemma ShapedCounts(s: State, u: Tid)
    requires Shaped(s)
    ensures Counted(s, u)
  {
    if Asleep(PcOf(s, u)) { assert u in Waiting(s.th, PcOf(s, u).job.Reading?); }
  }

  lemma OnErrorAwake(s: State, t: Tid, job: Job, e: Error, u: Tid)
    requires s.lock == Some(t) && !PendingR(s) && !PendingW(s) && AwakeAt(s, u) && Counted(s, u) && u != t
    ensures AwakeAt(OnError(s, t, job, e), u)
  {
  }

  lemma EnterAwake(s: State, t: Tid, job: Job, expired: bool, u: Tid)
    requires |s.buffer| <= s.max && JobOk(job) && s.lock == Some(t) && PcOf(s, t) == Hold(job)
    requires AwakeAt(s, u) && Counted(s, u)
    ensures AwakeAt(Enter(s, t, job, expired), u)
  {
    if u != t && Waitable(job) && (expired || s.closed) {
      OnErrorAwake(s, t, job, if expired then Deadline else Closed, u);
    }
  }

  lemma AfterWaitAwake(s: State, t: Tid, job: Job, cancelled: bool, expired: bool, u: Tid)
    requires s.lock == Some(t) && !PendingR(s) && !PendingW(s) && AwakeAt(s, u) && Counted(s, u) && u != t
    ensures AwakeAt(AfterWait(s, t, job, cancelled, expired), u)
  {
    OnErrorAwake(s, t, job, if cancelled then Cancelled else if s.closed then Closed else Deadline, u);
  }

  /** With one waiter per condition, receiving a token can rob nobody else of it. */
  lemma ReceiveAwake(s: State, t: Tid, u: Tid)
    requires Shaped(s) && Roomy(s) && Enabled(s, Receive(t)) && AwakeAt(s, u)
    ensures AwakeAt(Step(s, Receive(t)), u)
  {
    if u != t && Asleep(PcOf(s, u)) && PcOf(s, u).job.Reading? == PcOf(s, t).job.Reading? {
      TwoWait(s, t, u, PcOf(s, t).job.Reading?);
    }
  }

  lemma TwoWait(s: State, t: Tid, u: Tid, reading: bool)
    requires Shaped(s) && t != u && t in s.th && u in s.th && Waits(s.th[t], reading) && Waits(s.th[u], reading)
    ensures CondOf(s, reading).waiters >= 2
  {
    var w := Waiting(s.th, reading);
    assert {t, u} <= w;
    SubsetCard({t, u}, w);
  }

  /** Likewise a Signal handed over goes to the one waiter there is. */
  lemma HandOverAwake(s: State, t: Tid, to: Tid, u: Tid)
    requires Shaped(s) && Roomy(s) && Enabled(s, HandOver(t, to)) && AwakeAt(s, u)
    ensures AwakeAt(Step(s, HandOver(t, to)), u)
  {
    assert s.lock == Some(t);
    if u != to && Asleep(PcOf(s, u)) && PcOf(s, u).job.Reading? == PcOf(s, to).job.Reading? {
      TwoWait(s, u, to, PcOf(s, to).job.Reading?);
    }
  }

  lemma SubsetCard(a: set<Tid>, b: set<Tid>)
    requires a <= b
    ensures |a| <= |b|
  {
    assert b == a + (b - a);
  }

  /** A Signal into the slot serves a waiter that is still on its way to the select. */
  lemma SignalAwake(s: State, t: Tid, u: Tid)
    requires Shaped(s) && Enabled(s, SendSignal(t)) && AwakeAt(s, u)
    ensures AwakeAt(Step(s, SendSignal(t)), u)
  {
    ShapedCounts(s, u);
    assert s.lock == Some(t);
    if u != t && Asleep(PcOf(s, u)) && PcOf(s, u).job.Reading? == (PcOf(s, t).toR > 0) {
      assert !InSelect(s.th[u], PcOf(s, u).job.Reading?);
    }
  }

  lemma ConcludeAwake(s: State, t: Tid, u: Tid)
    requires Shaped(s) && Enabled(s, Conclude(t)) && AwakeAt(s, u)
    ensures AwakeAt(Step(s, Conclude(t)), u)
  {
    ShapedCounts(s, u);
    assert s.lock == Some(t);
    if u != t && PcOf(s, t).next.Fail? {
      OnErrorAwake(s, t, PcOf(s, t).next.job, PcOf(s, t).next.e, u);
    }
  }

  lemma OutsideAwake(s: State, e: Event, u: Tid)
    requires Shaped(s) && Enabled(s, e) && AwakeAt(s, u)
    requires e.Call? || e.Refuse? || e.Acquire? || e.Settle? || e.SeeCancel?
    ensures AwakeAt(Step(s, e), u)
  {
    assert s.lock.Some? && s.lock.value in s.th ==> Holds(s.th[s.lock.value]);
  }

  lemma StepAwake(s: State, e: Event, u: Tid)
    requires Shaped(s) && Roomy(s) && AwakeAt(s, u)
    ensures AwakeAt(Step(s, e), u)
  {
    ShapedCounts(s, u);
    if Enabled(s, e) {
      match e
      case CancelContext =>
      case AtHead(t, expired) =>
        assert PcOk(s.th[t]) && s.lock == Some(t);
        EnterAwake(s, t, PcOf(s, t).job, expired, u);
      case Receive(t) => ReceiveAwake(s, t, u);
      case Reacquire(t, expired) => ReacquireAwake(s, t, expired, u);
      case SendSignal(t) => SignalAwake(s, t, u);
      case HandOver(t, to) => HandOverAwake(s, t, to, u);
      case Conclude(t) => ConcludeAwake(s, t, u);
      case _ => OutsideAwake(s, e, u);
    }
  }

  lemma ReacquireAwake(s: State, t: Tid, expired: bool, u: Tid)
    requires Shaped(s) && AwakeAt(s, u) && Enabled(s, Reacquire(t, expired))
    ensures AwakeAt(Step(s, Reacquire(t, expired)), u)
  {
    var job, cancelled := PcOf(s, t).job, PcOf(s, t).cancelled;
    assert t in Waiting(s.th, job.Reading?);
    var s1 := Relocked(s, t, job.Reading?);
    if u != t {
      RelockedCounts(s, t, u);
      RelockedAwake(s, s1, t, u);
      AfterWaitAwake(s1, t, job, cancelled, expired, u);
    } else {
      ReturnsAwake(s1, t, job, cancelled, expired);
    }
  }

  /** Taking the lock back changes nothing for the others. */
  lemma RelockedAwake(s: State, s1: State, t: Tid, u: Tid)
    requires Shaped(s) && AwakeAt(s, u) && s.lock.None? && PcOf(s, t).Woken? && u != t
    requires s1.lock == Some(t) && s1.th == s.th && s1.buffer == s.buffer && s1.max == s.max && s1.closed == s.closed
    requires s1.r.token == s.r.token && s1.w.token == s.w.token
    ensures AwakeAt(s1, u) && !PendingR(s1) && !PendingW(s1)
  {
  }

  lemma ReturnsAwake(s: State, t: Tid, job: Job, cancelled: bool, expired: bool)
    ensures !Asleep(PcOf(AfterWait(s, t, job, cancelled, expired), t))
  {
  }

  /** A parked thread is still counted after another one has left the count. */
  lemma RelockedCounts(s: State, t: Tid, u: Tid)
    requires Shaped(s) && PcOf(s, t).Woken? && u != t
    requires if PcOf(s, t).job.Reading? then s.r.waiters > 0 else s.w.waiters > 0
    ensures Counted(Relocked(s, t, PcOf(s, t).job.Reading?), u)
  {
    ShapedCounts(s, u);
    if Asleep(PcOf(s, u)) && PcOf(s, u).job.Reading? == PcOf(s, t).job.Reading? {
      TwoWait(s, t, u, PcOf(s, t).job.Reading?);
    }
  }
}
