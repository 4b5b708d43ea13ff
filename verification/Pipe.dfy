/** The byte pipe over its home-made condition variable, as a step machine: a mutex, two
    one-slot notification channels with waiter counts, and threads that release and re-acquire
    the mutex inside Wait. Any number of readers, writers, closers and deadline setters. */
module Pipe {
  import opened Basics

  type byte = x: int | 0 <= x < 256
  type bytes = seq<byte>
  type Tid = nat

  datatype Error = Closed | Deadline | Cancelled

  datatype Job =
    | Reading(want: nat)
    | Writing(orig: bytes, n: nat)
    | Closing
    | Deadlining(rd: bool, wd: bool)

  datatype Ret =
    | ReadOk(want: nat, data: bytes)
    | ReadErr(e: Error, avail: nat)
    | WriteRet(orig: bytes, n: nat, err: Option<Error>)
    | CloseRet(ok: bool)
    | DeadlineRet

  /** What the lock holder does once its broadcasts are out. */
  datatype Next = Return(ret: Ret) | Resume(job: Job) | Fail(job: Job, e: Error)

  datatype Pc =
    | Idle
    | Start(job: Job)                            // wants the lock
    | Hold(job: Job)                             // holds it, at the loop head
    | Notify(toR: nat, toW: nat, next: Next)     // holds it, with Signals left to send
    | Unlocked(job: Job)                         // registered, lock released, not yet in the select of Wait
    | Parked(job: Job)                           // blocked in that select
    | Woken(job: Job, cancelled: bool)           // out of the select, wants the lock

  /** xsync.Cond: the one-slot channel and the waiter count. */
  datatype Cond = Cond(token: bool, waiters: nat)

  datatype State = State(
    max: nat, lock: Option<Tid>, buffer: bytes, closed: bool, cancelled: bool,
    r: Cond, w: Cond, th: map<Tid, Pc>,
    accepted: seq<(Tid, byte)>, delivered: bytes, rets: seq<(Tid, Ret)>)

  function Init(max: nat): State {
    State(max, None, [], false, false, Cond(false, 0), Cond(false, 0), map[], [], [], [])
  }

  function PcOf(s: State, t: Tid): Pc {
    if t in s.th then s.th[t] else Idle
  }

  function Min(a: nat, b: nat): nat { if a <= b then a else b }

  // ---- pieces of a critical section ----------------------------------------------

  function Go(s: State, t: Tid, pc: Pc): State {
    s.(th := s.th[t := pc])
  }

  function Finish(s: State, t: Tid, ret: Ret): State {
    s.(lock := None, th := s.th[t := Idle], rets := s.rets + [(t, ret)])
  }

  /** Copies out what is wanted and wakes the writers. */
  function Take(s: State, t: Tid, want: nat): State {
    var k := Min(|s.buffer|, want);
    var data := s.buffer[..k];
    s.(buffer := s.buffer[k..], delivered := s.delivered + data,
       th := s.th[t := Notify(0, s.w.waiters, Return(ReadOk(want, data)))])
  }

  function Tagged(t: Tid, b: bytes): seq<(Tid, byte)> {
    seq(|b|, i requires 0 <= i < |b| => (t, b[i]))
  }

  /** Takes in what fits, wakes the readers, and goes round the loop again. */
  function Append(s: State, t: Tid, orig: bytes, n: nat): State
    requires n <= |orig| && |s.buffer| <= s.max
  {
    var k := Min(|orig| - n, s.max - |s.buffer|);
    var data := orig[n..n + k];
    s.(buffer := s.buffer + data, accepted := s.accepted + Tagged(t, data),
       th := s.th[t := Notify(s.r.waiters, 0, Resume(Writing(orig, n + k)))])
  }

  /** The waiter registers and releases the lock. */
  function Park(s: State, t: Tid, job: Job): State {
    var s' := if job.Reading? then s.(r := s.r.(waiters := s.r.waiters + 1))
              else s.(w := s.w.(waiters := s.w.waiters + 1));
    s'.(lock := None, th := s.th[t := Unlocked(job)])
  }

  /** What the caller of wait does with its error: a reader still takes what is there. */
  function OnError(s: State, t: Tid, job: Job, e: Error): State {
    match job
    case Reading(want) => if s.buffer == [] then Finish(s, t, ReadErr(e, |s.buffer|)) else Take(s, t, want)
    case Writing(orig, n) => Finish(s, t, WriteRet(orig, n, Some(e)))
    case _ => Finish(s, t, DeadlineRet)
  }

  /** wait: deadline, closed, then Cond.Wait. */
  function Wait(s: State, t: Tid, job: Job, expired: bool): State {
    if expired then OnError(s, t, job, Deadline)
    else if s.closed then OnError(s, t, job, Closed)
    else Park(s, t, job)
  }

  function CloseNow(s: State, t: Tid, next: Next): State {
    s.(closed := true, th := s.th[t := Notify(s.r.waiters, s.w.waiters, next)])
  }

  /** The loop head of Read and Write, and the bodies of Close and SetDeadline. */
  function Enter(s: State, t: Tid, job: Job, expired: bool): State
    requires |s.buffer| <= s.max && (job.Writing? ==> job.n <= |job.orig|)
  {
    match job
    case Reading(want) => if s.buffer == [] then Wait(s, t, job, expired) else Take(s, t, want)
    case Writing(orig, n) =>
      if n == |orig| then Finish(s, t, WriteRet(orig, n, None))
      else if |s.buffer| == s.max then Wait(s, t, job, expired)
      else Append(s, t, orig, n)
    case Closing => if s.closed then Finish(s, t, CloseRet(false)) else CloseNow(s, t, Return(CloseRet(true)))
    case Deadlining(rd, wd) =>
      Go(s, t, Notify(if rd then s.r.waiters else 0, if wd then s.w.waiters else 0, Return(DeadlineRet)))
  }

  /** The waiter has the lock again and is no longer counted. */
  function Relocked(s: State, t: Tid, reading: bool): State
    requires if reading then s.r.waiters > 0 else s.w.waiters > 0
  {
    (if reading then s.(r := s.r.(waiters := s.r.waiters - 1))
     else s.(w := s.w.(waiters := s.w.waiters - 1))).(lock := Some(t))
  }

  /** What wait does after Cond.Wait returned, with the lock held again. */
  function AfterWait(s: State, t: Tid, job: Job, cancelled: bool, expired: bool): State {
    if cancelled then
      (if s.closed then OnError(s, t, job, Cancelled) else CloseNow(s, t, Fail(job, Cancelled)))
    else if s.closed then OnError(s, t, job, Closed)
    else if expired then OnError(s, t, job, Deadline)
    else Go(s, t, Hold(job))
  }

  /** Cond.Signal while nobody is blocked in the select: a non-blocking send into the slot, made only
      while somebody is registered. */
  function Signal(c: Cond): Cond {
    if c.waiters > 0 then c.(token := true) else c
  }

  /** Blocked in the select of that condition: a send goes straight to such a thread. */
  predicate InSelect(pc: Pc, reading: bool) {
    pc.Parked? && pc.job.Reading? == reading
  }

  predicate NoneInSelect(th: map<Tid, Pc>, reading: bool) {
    forall u <- th :: !InSelect(th[u], reading)
  }

  function CondOf(s: State, reading: bool): Cond {
    if reading then s.r else s.w
  }

  /** One Signal less to send: to the readers first. */
  function Sent(pc: Pc): Pc
    requires pc.Notify? && (pc.toR > 0 || pc.toW > 0)
  {
    if pc.toR > 0 then pc.(toR := pc.toR - 1) else pc.(toW := pc.toW - 1)
  }

  // ---- steps ------------------------------------------------------------------------

  datatype Event =
    | Call(t: Tid, job: Job)
    | Refuse(t: Tid, expired: bool)
    | Acquire(t: Tid)
    | AtHead(t: Tid, expired: bool)
    | SendSignal(t: Tid)
    | HandOver(t: Tid, to: Tid)
    | Conclude(t: Tid)
    | Settle(t: Tid)
    | Receive(t: Tid)
    | SeeCancel(t: Tid)
    | Reacquire(t: Tid, expired: bool)
    | CancelContext

  predicate Sending(pc: Pc) {
    pc.Notify? && (pc.toR > 0 || pc.toW > 0)
  }

  predicate Enabled(s: State, e: Event) {
    match e
    case CancelContext => true
    case Call(t, job) => PcOf(s, t).Idle? && (job.Writing? ==> job.n == 0)
    case Refuse(t, expired) =>
      PcOf(s, t).Start? && (PcOf(s, t).job.Reading? || PcOf(s, t).job.Writing?) &&
      (expired || (PcOf(s, t).job.Writing? && s.closed))
    case Acquire(t) => PcOf(s, t).Start? && s.lock.None?
    case AtHead(t, _) => PcOf(s, t).Hold?
    case SendSignal(t) => Sending(PcOf(s, t)) && NoneInSelect(s.th, PcOf(s, t).toR > 0)
    case HandOver(t, to) => Sending(PcOf(s, t)) && InSelect(PcOf(s, to), PcOf(s, t).toR > 0)
    case Conclude(t) => PcOf(s, t).Notify? && PcOf(s, t).toR == 0 && PcOf(s, t).toW == 0
    case Settle(t) => PcOf(s, t).Unlocked? && !CondOf(s, PcOf(s, t).job.Reading?).token && !s.cancelled
    case Receive(t) => PcOf(s, t).Unlocked? && CondOf(s, PcOf(s, t).job.Reading?).token
    case SeeCancel(t) => (PcOf(s, t).Unlocked? || PcOf(s, t).Parked?) && s.cancelled
    case Reacquire(t, _) => PcOf(s, t).Woken? && s.lock.None?
  }

  /** A step that is not enabled changes nothing. */
  function Step(s: State, e: Event): State
    requires Shaped(s)
  {
    if !Enabled(s, e) then s
    else
      match e
      case CancelContext => s.(cancelled := true)
      case Call(t, job) => Go(s, t, Start(job))
      case Refuse(t, expired) =>
        var err := if expired then Deadline else Closed;
        var job := PcOf(s, t).job;
        s.(th := s.th[t := Idle],
           rets := s.rets + [(t, if job.Reading? then ReadErr(err, |s.buffer|) else WriteRet(job.orig, 0, Some(err)))])
      case Acquire(t) => Go(s, t, Hold(PcOf(s, t).job)).(lock := Some(t))
      case AtHead(t, expired) => Enter(s, t, PcOf(s, t).job, expired)
      case SendSignal(t) =>
        var s1 := Go(s, t, Sent(PcOf(s, t)));
        if PcOf(s, t).toR > 0 then s1.(r := Signal(s.r)) else s1.(w := Signal(s.w))
      case HandOver(t, to) => Go(Go(s, to, Woken(PcOf(s, to).job, false)), t, Sent(PcOf(s, t)))
      case Conclude(t) =>
        (match PcOf(s, t).next
         case Return(ret) => Finish(s, t, ret)
         case Resume(job) => Go(s, t, Hold(job))
         case Fail(job, err) => OnError(s, t, job, err))
      case Settle(t) => Go(s, t, Parked(PcOf(s, t).job))
      case Receive(t) =>
        var s1 := Go(s, t, Woken(PcOf(s, t).job, false));
        if PcOf(s, t).job.Reading? then s1.(r := s.r.(token := false)) else s1.(w := s.w.(token := false))
      case SeeCancel(t) => Go(s, t, Woken(PcOf(s, t).job, true))
      case Reacquire(t, expired) =>
        assert t in Waiting(s.th, PcOf(s, t).job.Reading?);
        AfterWait(Relocked(s, t, PcOf(s, t).job.Reading?), t, PcOf(s, t).job, PcOf(s, t).cancelled, expired)
  }

  // ---- shape: one lock holder, jobs in range, waiter counts -----------------------------

  predicate JobOk(job: Job) {
    job.Writing? ==> job.n <= |job.orig|
  }

  predicate Waitable(job: Job) {
    job.Reading? || job.Writing?
  }

  predicate PcOk(pc: Pc) {
    match pc
    case Idle => true
    case Start(job) => JobOk(job) && (job.Writing? ==> job.n == 0)
    case Hold(job) => JobOk(job)
    case Unlocked(job) => JobOk(job) && Waitable(job)
    case Parked(job) => JobOk(job) && Waitable(job)
    case Woken(job, _) => JobOk(job) && Waitable(job)
    case Notify(_, _, next) =>
      match next
      case Return(ret) => !ret.WriteRet?
      case Resume(job) => JobOk(job) && job.Writing?
      case Fail(job, _) => JobOk(job) && Waitable(job)
  }

  predicate Waits(pc: Pc, reading: bool) {
    (pc.Unlocked? || pc.Parked? || pc.Woken?) && pc.job.Reading? == reading
  }

  function Waiting(th: map<Tid, Pc>, reading: bool): set<Tid> {
    set t | t in th && Waits(th[t], reading)
  }

  predicate Holds(pc: Pc) {
    pc.Hold? || pc.Notify?
  }

  predicate Shaped(s: State) {
    && |s.buffer| <= s.max
    && (forall t :: t in s.th ==> PcOk(s.th[t]))
    && (forall t :: t in s.th ==> (Holds(s.th[t]) <==> s.lock == Some(t)))
    && (s.lock.Some? ==> s.lock.value in s.th)
    && s.r.waiters == |Waiting(s.th, true)| && s.w.waiters == |Waiting(s.th, false)|
  }

  function Bit(b: bool): int { if b then 1 else 0 }

  lemma WaitingUpdate(th: map<Tid, Pc>, t: Tid, pc: Pc, reading: bool)
    ensures var before := t in th && Waits(th[t], reading);
            |Waiting(th[t := pc], reading)| == |Waiting(th, reading)| + Bit(Waits(pc, reading)) - Bit(before)
  {
    var a, b := Waiting(th, reading), Waiting(th[t := pc], reading);
    if Waits(pc, reading) {
      assert b == a + {t};
    } else {
      assert b == a - {t};
    }
  }

  /** One thread moved: what has to be checked for the shape to be kept. */
  lemma Moved(s: State, s': State, t: Tid, pc: Pc)
    requires Shaped(s) && s'.th == s.th[t := pc] && PcOk(pc) && |s'.buffer| <= s'.max
    requires Holds(pc) <==> s'.lock == Some(t)
    requires forall u :: u != t ==> (s'.lock == Some(u) <==> s.lock == Some(u))
    requires s'.r.waiters == s.r.waiters + Bit(Waits(pc, true)) - Bit(Waits(PcOf(s, t), true))
    requires s'.w.waiters == s.w.waiters + Bit(Waits(pc, false)) - Bit(Waits(PcOf(s, t), false))
    ensures Shaped(s')
  {
    WaitingUpdate(s.th, t, pc, true);
    WaitingUpdate(s.th, t, pc, false);
  }

  lemma OnErrorShaped(s: State, t: Tid, job: Job, e: Error)
    requires Shaped(s) && t in s.th && Holds(s.th[t])
    ensures Shaped(OnError(s, t, job, e))
  {
    var s' := OnError(s, t, job, e);
    Moved(s, s', t, s'.th[t]);
  }

  lemma WaitShaped(s: State, t: Tid, job: Job, expired: bool)
    requires Shaped(s) && PcOf(s, t) == Hold(job) && JobOk(job) && Waitable(job)
    ensures Shaped(Wait(s, t, job, expired))
  {
    if expired || s.closed {
      OnErrorShaped(s, t, job, if expired then Deadline else Closed);
    } else {
      Moved(s, Park(s, t, job), t, Unlocked(job));
    }
  }

  lemma EnterShaped(s: State, t: Tid, job: Job, expired: bool)
    requires Shaped(s) && PcOf(s, t) == Hold(job) && JobOk(job)
    ensures Shaped(Enter(s, t, job, expired))
  {
    if (job.Reading? && s.buffer == []) || (job.Writing? && job.n != |job.orig| && |s.buffer| == s.max) {
      WaitShaped(s, t, job, expired);
    } else {
      var s' := Enter(s, t, job, expired);
      Moved(s, s', t, s'.th[t]);
    }
  }

  /** s is s0 with the lock taken by t and t no longer counted. */
  lemma AfterWaitShaped(s0: State, s: State, t: Tid, job: Job, cancelled: bool, expired: bool)
    requires Shaped(s0) && s.th == s0.th && |s.buffer| <= s.max && s0.lock.None? && s.lock == Some(t)
    requires JobOk(job) && Waitable(job) && PcOf(s0, t) == Woken(job, cancelled)
    requires s.r.waiters == s0.r.waiters - Bit(job.Reading?) && s.w.waiters == s0.w.waiters - Bit(job.Writing?)
    ensures Shaped(AfterWait(s, t, job, cancelled, expired))
  {
    var s' := AfterWait(s, t, job, cancelled, expired);
    Moved(s0, s', t, s'.th[t]);
  }

  lemma ReacquireShaped(s: State, t: Tid, expired: bool)
    requires Shaped(s) && Enabled(s, Reacquire(t, expired))
    ensures Shaped(Step(s, Reacquire(t, expired)))
  {
    var job := PcOf(s, t).job;
    assert PcOk(s.th[t]);
    assert t in Waiting(s.th, job.Reading?);
    AfterWaitShaped(s, Relocked(s, t, job.Reading?), t, job, PcOf(s, t).cancelled, expired);
  }

  lemma ConcludeShaped(s: State, t: Tid)
    requires Shaped(s) && Enabled(s, Conclude(t))
    ensures Shaped(Step(s, Conclude(t)))
  {
    var s' := Step(s, Conclude(t));
    assert PcOk(s.th[t]);
    Moved(s, s', t, s'.th[t]);
  }

  lemma SignalShaped(s: State, t: Tid)
    requires Shaped(s) && Enabled(s, SendSignal(t))
    ensures Shaped(Step(s, SendSignal(t)))
  {
    var s' := Step(s, SendSignal(t));
    assert PcOk(s.th[t]);
    Moved(s, s', t, s'.th[t]);
  }

  /** Two threads move: one is woken, the other has one Signal less to send. */
  lemma HandOverShaped(s: State, t: Tid, to: Tid)
    requires Shaped(s) && Enabled(s, HandOver(t, to))
    ensures Shaped(Step(s, HandOver(t, to)))
  {
    assert PcOk(s.th[t]) && PcOk(s.th[to]);
    var woken := Woken(s.th[to].job, false);
    Moved(s, Go(s, to, woken), to, woken);
    Moved(Go(s, to, woken), Step(s, HandOver(t, to)), t, Sent(s.th[t]));
  }

  lemma OutsideShaped(s: State, e: Event)
    requires Shaped(s) && Enabled(s, e)
    requires e.Call? || e.Refuse? || e.Acquire? || e.Settle? || e.Receive? || e.SeeCancel?
    ensures Shaped(Step(s, e))
  {
    var s' := Step(s, e);
    if e.t in s.th { assert PcOk(s.th[e.t]); }
    Moved(s, s', e.t, s'.th[e.t]);
  }

  /** Every step keeps one lock holder, the buffer bound and exact waiter counts. */
  lemma StepShaped(s: State, e: Event)
    requires Shaped(s)
    ensures Shaped(Step(s, e))
  {
    if Enabled(s, e) {
      match e
      case CancelContext =>
      case AtHead(t, expired) =>
        assert PcOk(s.th[t]);
        EnterShaped(s, t, PcOf(s, t).job, expired);
      case Conclude(t) => ConcludeShaped(s, t);
      case SendSignal(t) => SignalShaped(s, t);
      case HandOver(t, to) => HandOverShaped(s, t, to);
      case Reacquire(t, expired) => ReacquireShaped(s, t, expired);
      case _ => OutsideShaped(s, e);
    }
  }
}
