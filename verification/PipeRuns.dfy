/** What holds of the pipe in every state that any interleaving can reach. */
module PipeRuns {
  import opened Basics
  import opened Pipe

  // ---- order and conservation of bytes --------------------------------------------

  function Payload(log: seq<(Tid, byte)>): bytes {
    seq(|log|, i requires 0 <= i < |log| => log[i].1)
  }

  /** Bytes delivered, then the buffer, are the bytes accepted, in lock order. */
  predicate Fifo(s: State) {
    Payload(s.accepted) == s.delivered + s.buffer
  }

  lemma PayloadTagged(log: seq<(Tid, byte)>, t: Tid, b: bytes)
    ensures Payload(log + Tagged(t, b)) == Payload(log) + b
  {
  }

  lemma TakeFifo(s: State, t: Tid, want: nat)
    requires Fifo(s)
    ensures Fifo(Take(s, t, want))
  {
    var k := Min(|s.buffer|, want);
    assert s.buffer == s.buffer[..k] + s.buffer[k..];
  }

  lemma AppendFifo(s: State, t: Tid, orig: bytes, n: nat)
    requires Fifo(s) && n <= |orig| && |s.buffer| <= s.max
    ensures Fifo(Append(s, t, orig, n))
  {
    var k := Min(|orig| - n, s.max - |s.buffer|);
    PayloadTagged(s.accepted, t, orig[n..n + k]);
  }

  lemma OnErrorFifo(s: State, t: Tid, job: Job, e: Error)
    requires Fifo(s)
    ensures Fifo(OnError(s, t, job, e))
  {
    if job.Reading? && s.buffer != [] { TakeFifo(s, t, job.want); }
  }

  lemma EnterFifo(s: State, t: Tid, job: Job, expired: bool)
    requires Fifo(s) && |s.buffer| <= s.max && JobOk(job)
    ensures Fifo(Enter(s, t, job, expired))
  {
    match job
    case Reading(want) =>
      if s.buffer != [] { TakeFifo(s, t, want); }
    case Writing(orig, n) =>
      if n != |orig| && |s.buffer| != s.max { AppendFifo(s, t, orig, n); }
    case _ =>
  }

  lemma StepFifo(s: State, e: Event)
    requires Shaped(s) && Fifo(s)
    ensures Fifo(Step(s, e))
  {
    if Enabled(s, e) {
      match e
      case AtHead(t, expired) =>
        assert PcOk(s.th[t]);
        EnterFifo(s, t, PcOf(s, t).job, expired);
      case Conclude(t) =>
        if PcOf(s, t).next.Fail? { OnErrorFifo(s, t, PcOf(s, t).next.job, PcOf(s, t).next.e); }
      case Reacquire(t, expired) =>
        assert t in Waiting(s.th, PcOf(s, t).job.Reading?);
        AfterWaitFifo(Relocked(s, t, PcOf(s, t).job.Reading?), t, PcOf(s, t).job, PcOf(s, t).cancelled, expired);
      case _ =>
    }
  }

  lemma AfterWaitFifo(s: State, t: Tid, job: Job, cancelled: bool, expired: bool)
    requires Fifo(s)
    ensures Fifo(AfterWait(s, t, job, cancelled, expired))
  {
    OnErrorFifo(s, t, job, if cancelled then Cancelled else if s.closed then Closed else Deadline);
  }

  /** Steps that neither run a critical section nor return with the lock. */
  predicate Outside(e: Event) {
    e.Call? || e.Refuse? || e.Acquire? || e.SendSignal? || e.HandOver? || e.Settle? || e.Receive? || e.SeeCancel?
  }

  // ---- what each call reports --------------------------------------------------------

  /** A successful read fills what it can, a failed one saw an empty buffer unless its deadline
      had passed, a write without error wrote everything. */
  predicate RetOk(ret: Ret) {
    match ret
    case ReadOk(want, data) => |data| <= want && (data == [] ==> want == 0)
    case ReadErr(e, avail) => !e.Deadline? ==> avail == 0
    case WriteRet(orig, n, err) => n <= |orig| && (err.None? ==> n == |orig|)
    case _ => true
  }

  predicate PendingOk(pc: Pc) {
    pc.Notify? && pc.next.Return? ==> RetOk(pc.next.ret)
  }

  predicate Reports(s: State) {
    && (forall i :: 0 <= i < |s.rets| ==> RetOk(s.rets[i].1))
    && (forall t :: t in s.th ==> PendingOk(s.th[t]))
  }

  lemma OnErrorReports(s: State, t: Tid, job: Job, e: Error)
    requires Reports(s) && JobOk(job)
    ensures Reports(OnError(s, t, job, e))
  {
  }

  lemma EnterReports(s: State, t: Tid, job: Job, expired: bool)
    requires Reports(s) && |s.buffer| <= s.max && JobOk(job)
    ensures Reports(Enter(s, t, job, expired))
  {
    if Waitable(job) {
      OnErrorReports(s, t, job, if expired then Deadline else Closed);
    }
  }

  lemma AfterWaitReports(s: State, t: Tid, job: Job, cancelled: bool, expired: bool)
    requires Reports(s) && JobOk(job)
    ensures Reports(AfterWait(s, t, job, cancelled, expired))
  {
    OnErrorReports(s, t, job, if cancelled then Cancelled else if s.closed then Closed else Deadline);
  }

  lemma StepReports(s: State, e: Event)
    requires Shaped(s) && Reports(s)
    ensures Reports(Step(s, e))
  {
    if Enabled(s, e) && !e.CancelContext? {
      if e.t in s.th { assert PcOk(s.th[e.t]); assert PendingOk(s.th[e.t]); }
      match e
      case AtHead(t, expired) => EnterReports(s, t, PcOf(s, t).job, expired);
      case Conclude(t) =>
        if PcOf(s, t).next.Fail? { OnErrorReports(s, t, PcOf(s, t).next.job, PcOf(s, t).next.e); }
      case Reacquire(t, expired) =>
        assert t in Waiting(s.th, PcOf(s, t).job.Reading?);
        AfterWaitReports(Relocked(s, t, PcOf(s, t).job.Reading?), t, PcOf(s, t).job, PcOf(s, t).cancelled, expired);
      case _ => OutsideReports(s, e);
    }
  }

  lemma OutsideReports(s: State, e: Event)
    requires Shaped(s) && Reports(s) && Enabled(s, e)
    requires Outside(e)
    ensures Reports(Step(s, e))
  {
    if e.t in s.th { assert PcOk(s.th[e.t]); assert PendingOk(s.th[e.t]); }
  }

  // ---- each writer's bytes are a prefix of what it asked to write, in its own order -----

  function Filter(log: seq<(Tid, byte)>, t: Tid): bytes {
    if log == [] then []
    else
      var last := log[|log| - 1];
      Filter(log[..|log| - 1], t) + (if last.0 == t then [last.1] else [])
  }

  lemma {:induction false} FilterTagged(log: seq<(Tid, byte)>, t: Tid, b: bytes, u: Tid)
    ensures Filter(log + Tagged(t, b), u) == Filter(log, u) + (if u == t then b else [])
    decreases |b|
  {
    if b == [] {
      assert log + Tagged(t, b) == log;
    } else {
      var front, last := b[..|b| - 1], b[|b| - 1];
      Snoc(b);
      FilterTagged(log, t, front, u);
      FilterOneMore(log, t, front, last, u);
    }
  }

  lemma TaggedSnoc(t: Tid, front: bytes, last: byte)
    ensures Tagged(t, front + [last]) == Tagged(t, front) + [(t, last)]
  {
  }

  lemma FilterOneMore(log: seq<(Tid, byte)>, t: Tid, front: bytes, last: byte, u: Tid)
    requires Filter(log + Tagged(t, front), u) == Filter(log, u) + (if u == t then front else [])
    ensures Filter(log + Tagged(t, front + [last]), u) == Filter(log, u) + (if u == t then front + [last] else [])
  {
    TaggedSnoc(t, front, last);
    assert log + (Tagged(t, front) + [(t, last)]) == (log + Tagged(t, front)) + [(t, last)];
    FilterSnoc(log + Tagged(t, front), (t, last), u);
    if u == t { assert (Filter(log, u) + front) + [last] == Filter(log, u) + (front + [last]); }
  }

  lemma FilterSnoc(log: seq<(Tid, byte)>, x: (Tid, byte), u: Tid)
    ensures Filter(log + [x], u) == Filter(log, u) + (if x.0 == u then [x.1] else [])
  {
    assert (log + [x])[..|log|] == log;
  }

  /** The bytes accepted from t by the writes it has returned from. */
  function SentBy(rets: seq<(Tid, Ret)>, t: Tid): bytes {
    if rets == [] then []
    else
      var last := rets[|rets| - 1];
      SentBy(rets[..|rets| - 1], t) +
      (if last.0 == t && last.1.WriteRet? && last.1.n <= |last.1.orig| then last.1.orig[..last.1.n] else [])
  }

  function JobSent(job: Job): bytes {
    if job.Writing? && job.n <= |job.orig| then job.orig[..job.n] else []
  }

  /** The bytes accepted so far from the write t is in. */
  function InFlight(pc: Pc): bytes {
    match pc
    case Idle => []
    case Notify(_, _, next) =>
      (match next case Return(_) => [] case Resume(job) => JobSent(job) case Fail(job, _) => JobSent(job))
    case Start(job) => JobSent(job)
    case Hold(job) => JobSent(job)
    case Unlocked(job) => JobSent(job)
    case Parked(job) => JobSent(job)
    case Woken(job, _) => JobSent(job)
  }

  predicate WriterLog(s: State, t: Tid) {
    Filter(s.accepted, t) == SentBy(s.rets, t) + InFlight(PcOf(s, t))
  }

  /** One thread moved, adding no bytes: its log still matches and no other changed. */
  lemma LogMoved(s: State, s': State, t: Tid, u: Tid)
    requires WriterLog(s, u) && s'.accepted == s.accepted
    requires forall v :: v != t ==> PcOf(s', v) == PcOf(s, v)
    requires || (s'.rets == s.rets && InFlight(PcOf(s', t)) == InFlight(PcOf(s, t)))
             || (|s'.rets| == |s.rets| + 1 && s'.rets[..|s.rets|] == s.rets && s'.rets[|s.rets|].0 == t
                 && InFlight(PcOf(s', t)) == []
                 && var ret := s'.rets[|s.rets|].1;
                    InFlight(PcOf(s, t)) == if ret.WriteRet? && ret.n <= |ret.orig| then ret.orig[..ret.n] else [])
    ensures WriterLog(s', u)
  {
    if u == t && s'.rets != s.rets {
      assert SentBy(s'.rets, t) == SentBy(s.rets, t) + InFlight(PcOf(s, t));
    }
  }

  lemma OnErrorLog(s: State, t: Tid, job: Job, e: Error, u: Tid)
    requires WriterLog(s, u) && JobOk(job) && Waitable(job) && InFlight(PcOf(s, t)) == JobSent(job)
    ensures WriterLog(OnError(s, t, job, e), u)
  {
    LogMoved(s, OnError(s, t, job, e), t, u);
  }

  /** One thread moved without returning. */
  lemma LogStill(s: State, s': State, t: Tid, u: Tid)
    requires WriterLog(s, u) && s'.accepted == s.accepted && s'.rets == s.rets
    requires s'.th == s.th[t := PcOf(s', t)] && InFlight(PcOf(s', t)) == InFlight(PcOf(s, t))
    ensures WriterLog(s', u)
  {
  }

  lemma AppendLog(s: State, t: Tid, orig: bytes, n: nat, u: Tid)
    requires WriterLog(s, u) && PcOf(s, t) == Hold(Writing(orig, n)) && n <= |orig| && |s.buffer| <= s.max
    ensures WriterLog(Append(s, t, orig, n), u)
  {
    var k := Min(|orig| - n, s.max - |s.buffer|);
    AppendedLog(s, Append(s, t, orig, n), t, orig, n, k, u);
  }

  lemma AppendedLog(s: State, s': State, t: Tid, orig: bytes, n: nat, k: nat, u: Tid)
    requires WriterLog(s, u) && n + k <= |orig| && InFlight(PcOf(s, t)) == orig[..n]
    requires s'.accepted == s.accepted + Tagged(t, orig[n..n + k]) && s'.rets == s.rets
    requires InFlight(PcOf(s', t)) == orig[..n + k] && s'.th == s.th[t := PcOf(s', t)]
    ensures WriterLog(s', u)
  {
    FilterTagged(s.accepted, t, orig[n..n + k], u);
    assert orig[..n + k] == orig[..n] + orig[n..n + k];
    GrownLog(s, s', t, orig[n..n + k], u);
  }

  lemma GrownLog(s: State, s': State, t: Tid, data: bytes, u: Tid)
    requires WriterLog(s, u) && s'.rets == s.rets
    requires Filter(s'.accepted, u) == Filter(s.accepted, u) + (if u == t then data else [])
    requires InFlight(PcOf(s', t)) == InFlight(PcOf(s, t)) + data
    requires u != t ==> PcOf(s', u) == PcOf(s, u)
    ensures WriterLog(s', u)
  {
    if u == t {
      Regroup(SentBy(s.rets, u), InFlight(PcOf(s, u)), data);
    } else {
      assert Filter(s.accepted, u) + [] == Filter(s.accepted, u);
    }
  }

  lemma Regroup(a: bytes, b: bytes, c: bytes)
    ensures (a + b) + c == a + (b + c)
  {
  }

  lemma WaitLog(s: State, t: Tid, job: Job, expired: bool, u: Tid)
    requires WriterLog(s, u) && JobOk(job) && Waitable(job) && InFlight(PcOf(s, t)) == JobSent(job)
    ensures WriterLog(Wait(s, t, job, expired), u)
  {
    if expired || s.closed {
      OnErrorLog(s, t, job, if expired then Deadline else Closed, u);
    } else {
      LogStill(s, Park(s, t, job), t, u);
    }
  }

  lemma EnterLog(s: State, t: Tid, job: Job, expired: bool, u: Tid)
    requires WriterLog(s, u) && PcOf(s, t) == Hold(job) && JobOk(job) && |s.buffer| <= s.max
    ensures WriterLog(Enter(s, t, job, expired), u)
  {
    match job
    case Reading(want) =>
      if s.buffer == [] { WaitLog(s, t, job, expired, u); } else { LogStill(s, Take(s, t, want), t, u); }
    case Writing(orig, n) =>
      if n == |orig| {
        LogMoved(s, Enter(s, t, job, expired), t, u);
      } else if |s.buffer| == s.max {
        WaitLog(s, t, job, expired, u);
      } else {
        AppendLog(s, t, orig, n, u);
      }
    case Closing =>
      if s.closed {
        LogMoved(s, Enter(s, t, job, expired), t, u);
      } else {
        LogStill(s, Enter(s, t, job, expired), t, u);
      }
    case Deadlining(_, _) => LogStill(s, Enter(s, t, job, expired), t, u);
  }

  lemma AfterWaitLog(s: State, t: Tid, job: Job, cancelled: bool, expired: bool, u: Tid)
    requires WriterLog(s, u) && JobOk(job) && Waitable(job) && InFlight(PcOf(s, t)) == JobSent(job)
    ensures WriterLog(AfterWait(s, t, job, cancelled, expired), u)
  {
    if cancelled && !s.closed {
      LogMoved(s, CloseNow(s, t, Fail(job, Cancelled)), t, u);
    } else if cancelled || s.closed || expired {
      OnErrorLog(s, t, job, if cancelled then Cancelled else if s.closed then Closed else Deadline, u);
    } else {
      LogMoved(s, Go(s, t, Hold(job)), t, u);
    }
  }

  lemma ConcludeLog(s: State, t: Tid, u: Tid)
    requires Shaped(s) && WriterLog(s, u) && Enabled(s, Conclude(t))
    ensures WriterLog(Step(s, Conclude(t)), u)
  {
    assert PcOk(s.th[t]);
    match PcOf(s, t).next
    case Fail(job, err) => OnErrorLog(s, t, job, err, u);
    case Return(ret) => LogMoved(s, Finish(s, t, ret), t, u);
    case Resume(job) => LogMoved(s, Go(s, t, Hold(job)), t, u);
  }

  lemma OutsideLog(s: State, e: Event, u: Tid)
    requires Shaped(s) && WriterLog(s, u) && Enabled(s, e) && Outside(e)
    ensures WriterLog(Step(s, e), u)
  {
    if e.t in s.th { assert PcOk(s.th[e.t]); }
    if e.Refuse? {
      LogMoved(s, Step(s, e), e.t, u);
    } else {
      OutsideInFlight(s, e, u);
      LogSame(s, Step(s, e), u);
    }
  }

  lemma OutsideInFlight(s: State, e: Event, u: Tid)
    requires Shaped(s) && Enabled(s, e) && Outside(e) && !e.Refuse?
    ensures InFlight(PcOf(Step(s, e), u)) == InFlight(PcOf(s, u))
    ensures Step(s, e).accepted == s.accepted && Step(s, e).rets == s.rets
  {
    if e.t in s.th { assert PcOk(s.th[e.t]); }
  }

  /** Nothing came in or was returned, and u has as much under way as before. */
  lemma LogSame(s: State, s': State, u: Tid)
    requires WriterLog(s, u) && s'.accepted == s.accepted && s'.rets == s.rets
    requires InFlight(PcOf(s', u)) == InFlight(PcOf(s, u))
    ensures WriterLog(s', u)
  {
  }

  lemma StepLog(s: State, e: Event, u: Tid)
    requires Shaped(s) && WriterLog(s, u)
    ensures WriterLog(Step(s, e), u)
  {
    if Enabled(s, e) {
      match e
      case CancelContext =>
      case AtHead(t, expired) =>
        assert PcOk(s.th[t]);
        EnterLog(s, t, PcOf(s, t).job, expired, u);
      case Conclude(t) => ConcludeLog(s, t, u);
      case Reacquire(t, expired) =>
        assert PcOk(s.th[t]);
        assert t in Waiting(s.th, PcOf(s, t).job.Reading?);
        AfterWaitLog(Relocked(s, t, PcOf(s, t).job.Reading?), t, PcOf(s, t).job, PcOf(s, t).cancelled, expired, u);
      case _ => OutsideLog(s, e, u);
    }
  }

  // ---- what the readers were handed is what was delivered, in lock order ------------------

  function Got(rets: seq<(Tid, Ret)>): bytes {
    if rets == [] then []
    else
      var last := rets[|rets| - 1].1;
      Got(rets[..|rets| - 1]) + (if last.ReadOk? then last.data else [])
  }

  function Taken(pc: Pc): bytes {
    if pc.Notify? && pc.next.Return? && pc.next.ret.ReadOk? then pc.next.ret.data else []
  }

  /** What the lock holder has copied out and not yet returned. */
  function InHand(s: State): bytes {
    if s.lock.Some? then Taken(PcOf(s, s.lock.value)) else []
  }

  predicate ReaderLog(s: State) {
    s.delivered == Got(s.rets) + InHand(s)
  }

  lemma OnErrorReads(s: State, t: Tid, job: Job, e: Error)
    requires ReaderLog(s) && s.lock == Some(t) && InHand(s) == []
    ensures ReaderLog(OnError(s, t, job, e))
  {
    ReturnedReads(s, OnError(s, t, job, e));
  }

  /** A step that hands out nothing new, or returns what the holder had taken. */
  lemma ReturnedReads(s: State, s': State)
    requires ReaderLog(s)
    requires || (s'.rets == s.rets && s'.delivered == s.delivered && InHand(s') == InHand(s))
             || (s'.rets == s.rets && InHand(s) == [] && s'.delivered == s.delivered + InHand(s'))
             || (|s'.rets| == |s.rets| + 1 && s'.rets[..|s.rets|] == s.rets && s'.delivered == s.delivered
                 && var ret := s'.rets[|s.rets|].1;
                    if ret.ReadOk? then InHand(s) == ret.data && InHand(s') == [] else InHand(s') == InHand(s))
    ensures ReaderLog(s')
  {
    if |s'.rets| == |s.rets| + 1 {
      assert Got(s'.rets) == Got(s.rets) + (if s'.rets[|s.rets|].1.ReadOk? then s'.rets[|s.rets|].1.data else []);
    }
  }

  lemma EnterReads(s: State, t: Tid, job: Job, expired: bool)
    requires ReaderLog(s) && s.lock == Some(t) && PcOf(s, t) == Hold(job) && JobOk(job) && |s.buffer| <= s.max
    ensures ReaderLog(Enter(s, t, job, expired))
  {
    ReturnedReads(s, Enter(s, t, job, expired));
  }

  lemma AfterWaitReads(s: State, t: Tid, job: Job, cancelled: bool, expired: bool)
    requires ReaderLog(s) && s.lock == Some(t) && InHand(s) == []
    ensures ReaderLog(AfterWait(s, t, job, cancelled, expired))
  {
    if cancelled && !s.closed {
      ReturnedReads(s, CloseNow(s, t, Fail(job, Cancelled)));
    } else if cancelled || s.closed || expired {
      OnErrorReads(s, t, job, if cancelled then Cancelled else if s.closed then Closed else Deadline);
    } else {
      ReturnedReads(s, Go(s, t, Hold(job)));
    }
  }

  lemma ConcludeReads(s: State, t: Tid)
    requires Shaped(s) && ReaderLog(s) && Enabled(s, Conclude(t))
    ensures ReaderLog(Step(s, Conclude(t)))
  {
    match PcOf(s, t).next
    case Fail(job, err) => OnErrorReads(s, t, job, err);
    case Return(ret) => ReturnedReads(s, Finish(s, t, ret));
    case Resume(job) => ReturnedReads(s, Go(s, t, Hold(job)));
  }

  lemma OutsideReads(s: State, e: Event)
    requires Shaped(s) && ReaderLog(s) && Enabled(s, e)
    requires Outside(e)
    ensures ReaderLog(Step(s, e))
  {
    ReturnedReads(s, Step(s, e));
  }

  lemma StepReads(s: State, e: Event)
    requires Shaped(s) && ReaderLog(s)
    ensures ReaderLog(Step(s, e))
  {
    if Enabled(s, e) {
      match e
      case CancelContext =>
      case AtHead(t, expired) =>
        assert PcOk(s.th[t]);
        EnterReads(s, t, PcOf(s, t).job, expired);
      case Conclude(t) => ConcludeReads(s, t);
      case Reacquire(t, expired) =>
        assert t in Waiting(s.th, PcOf(s, t).job.Reading?);
        AfterWaitReads(Relocked(s, t, PcOf(s, t).job.Reading?), t, PcOf(s, t).job, PcOf(s, t).cancelled, expired);
      case _ => OutsideReads(s, e);
    }
  }
}
