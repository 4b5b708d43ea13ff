/** What each call on the pipe answers and when, step by step and over every run. */
module PipeAnswers {
  import opened Basics
  import opened Pipe
  import opened PipeRuns
  import opened PipeWakeup
  import opened PipeTheorems

  // ---- the deciding steps ---------------------------------------------------------------

  /** The call returns and gives the lock back; nothing else happens. */
  ghost predicate Returned(s: State, s': State, t: Tid, ret: Ret) {
    s' == s.(lock := None, th := s.th[t := Idle], rets := s.rets + [(t, ret)])
  }

  /** A read is handed the first bytes of the buffer, as many as it wants and there are, and every waiting
      writer is due a Signal before it returns them. */
  ghost predicate Handed(s: State, s': State, t: Tid, want: nat) {
    exists data, rest ::
      && s.buffer == data + rest && |data| <= want && (|data| == want || rest == [])
      && s' == s.(buffer := rest, delivered := s.delivered + data,
                  th := s.th[t := Notify(0, s.w.waiters, Return(ReadOk(want, data)))])
  }

  /** The call waits: it is counted, it gives the lock back, and it has not returned. */
  ghost predicate Waiting(s: State, s': State, t: Tid, job: Job) {
    && s'.lock.None? && s'.th == s.th[t := Unlocked(job)] && s'.rets == s.rets && s'.buffer == s.buffer
    && s'.r.waiters == s.r.waiters + (if job.Reading? then 1 else 0)
    && s'.w.waiters == s.w.waiters + (if job.Reading? then 0 else 1)
    && s'.closed == s.closed
  }

  /** Read at its loop head: data if there is any, else its deadline, else the end of a closed pipe, else a
      wait. */
  lemma ReadDecides(s: State, t: Tid, want: nat, expired: bool)
    requires Shaped(s) && PcOf(s, t) == Hold(Reading(want))
    ensures var s' := Step(s, AtHead(t, expired));
            if s.buffer != [] then Handed(s, s', t, want)
            else if expired then Returned(s, s', t, ReadErr(Deadline, 0))
            else if s.closed then Returned(s, s', t, ReadErr(Closed, 0))
            else Waiting(s, s', t, Reading(want))
  {
    if s.buffer != [] { TakeHands(s, t, want); }
  }

  lemma TakeHands(s: State, t: Tid, want: nat)
    ensures Handed(s, Take(s, t, want), t, want)
  {
    var k := Min(|s.buffer|, want);
    var data, rest := s.buffer[..k], s.buffer[k..];
    assert s.buffer == data + rest;
  }

  /** Write at its loop head: done when nothing is left; into a full pipe its deadline, else the end of a closed
      pipe, else a wait; otherwise the next bytes go in until the write is done or the pipe is full, and every
      waiting reader is due a Signal. */
  lemma WriteDecides(s: State, t: Tid, orig: bytes, n: nat, expired: bool)
    requires Shaped(s) && PcOf(s, t) == Hold(Writing(orig, n))
    ensures var s' := Step(s, AtHead(t, expired));
            if n == |orig| then Returned(s, s', t, WriteRet(orig, n, None))
            else if |s.buffer| < s.max then TakenIn(s, s', t, orig, n)
            else if expired then Returned(s, s', t, WriteRet(orig, n, Some(Deadline)))
            else if s.closed then Returned(s, s', t, WriteRet(orig, n, Some(Closed)))
            else Waiting(s, s', t, Writing(orig, n))
  {
    assert PcOk(s.th[t]);
    if n < |orig| && |s.buffer| < s.max { AppendTakesIn(s, t, orig, n); }
  }

  ghost predicate TakenIn(s: State, s': State, t: Tid, orig: bytes, n: nat) {
    exists m ::
      && n < m <= |orig| && |s'.buffer| <= s.max && (m == |orig| || |s'.buffer| == s.max)
      && s'.buffer == s.buffer + orig[n..m] && s'.accepted == s.accepted + Tagged(t, orig[n..m])
      && s'.th == s.th[t := Notify(s.r.waiters, 0, Resume(Writing(orig, m)))] && s'.rets == s.rets
      && s'.lock == s.lock && s'.closed == s.closed
  }

  lemma AppendTakesIn(s: State, t: Tid, orig: bytes, n: nat)
    requires n < |orig| && |s.buffer| < s.max
    ensures TakenIn(s, Append(s, t, orig, n), t, orig, n)
  {
    var k := Min(|orig| - n, s.max - |s.buffer|);
    var s', m := Append(s, t, orig, n), n + k;
    assert s'.buffer == s.buffer + orig[n..m];
  }

  /** Close: refused on a closed pipe; otherwise the pipe is closed and everybody waiting is due a Signal. */
  lemma CloseDecides(s: State, t: Tid, expired: bool)
    requires Shaped(s) && PcOf(s, t) == Hold(Closing)
    ensures var s' := Step(s, AtHead(t, expired));
            if s.closed then Returned(s, s', t, CloseRet(false))
            else s' == s.(closed := true,
                          th := s.th[t := Notify(s.r.waiters, s.w.waiters, Return(CloseRet(true)))])
  {
  }

  /** Setting a deadline makes every waiter on that side due a Signal, and no other. */
  lemma DeadlineDecides(s: State, t: Tid, rd: bool, wd: bool, expired: bool)
    requires Shaped(s) && PcOf(s, t) == Hold(Deadlining(rd, wd))
    ensures var toR, toW := if rd then s.r.waiters else 0, if wd then s.w.waiters else 0;
            Step(s, AtHead(t, expired)) == s.(th := s.th[t := Notify(toR, toW, Return(DeadlineRet))])
  {
  }

  /** A failed call: a read still takes what there is; otherwise the error comes back, with what was written. */
  ghost predicate Ended(s: State, s': State, t: Tid, job: Job, e: Error) {
    if job.Writing? then Returned(s, s', t, WriteRet(job.orig, job.n, Some(e)))
    else job.Reading? && if s.buffer == [] then Returned(s, s', t, ReadErr(e, 0)) else Handed(s, s', t, job.want)
  }

  /** Back from the wait with the lock, no longer counted: a cancelled context closes the pipe, and then or on a
      closed pipe or past its deadline the call ends with that error; otherwise it goes round its loop again. */
  lemma WakingDecides(s: State, t: Tid, job: Job, cancelled: bool, expired: bool)
    requires Shaped(s) && PcOf(s, t) == Woken(job, cancelled) && s.lock.None?
    ensures (if job.Reading? then s.r.waiters else s.w.waiters) > 0
    ensures var s1, s' := Relocked(s, t, job.Reading?), Step(s, Reacquire(t, expired));
            if cancelled && !s.closed then
              s' == s1.(closed := true, th := s.th[t := Notify(s1.r.waiters, s1.w.waiters, Fail(job, Cancelled))])
            else if cancelled then Ended(s1, s', t, job, Cancelled)
            else if s.closed then Ended(s1, s', t, job, Closed)
            else if expired then Ended(s1, s', t, job, Deadline)
            else s' == s1.(th := s.th[t := Hold(job)])
  {
    assert PcOk(s.th[t]);
    assert t in Pipe.Waiting(s.th, job.Reading?);
    ErrorEnds(Relocked(s, t, job.Reading?), t, job,
              if cancelled then Cancelled else if s.closed then Closed else Deadline);
  }

  lemma ErrorEnds(s: State, t: Tid, job: Job, e: Error)
    requires Waitable(job)
    ensures Ended(s, OnError(s, t, job, e), t, job, e)
  {
    if job.Reading? && s.buffer != [] { TakeHands(s, t, job.want); }
  }

  /** After the broadcasts of a close the cancelled call ends. */
  lemma CancelledEnds(s: State, t: Tid, job: Job)
    requires Shaped(s) && PcOf(s, t) == Notify(0, 0, Fail(job, Cancelled))
    ensures Ended(s, Step(s, Conclude(t)), t, job, Cancelled)
  {
    assert PcOk(s.th[t]);
    ErrorEnds(s, t, job, Cancelled);
  }

  /** A call turned away before it took the lock: a read only past its deadline, a write also on a closed pipe. */
  lemma RefusalDecides(s: State, t: Tid, expired: bool)
    requires Shaped(s) && Enabled(s, Refuse(t, expired))
    ensures var job, s' := PcOf(s, t).job, Step(s, Refuse(t, expired));
            && (job.Reading? ==> expired && s'.rets == s.rets + [(t, ReadErr(Deadline, |s.buffer|))])
            && (job.Writing? ==> expired || s.closed)
            && (job.Writing? ==>
                  s'.rets == s.rets + [(t, WriteRet(job.orig, 0, Some(if expired then Deadline else Closed)))])
            && s'.buffer == s.buffer && s'.lock == s.lock && s'.th == s.th[t := Idle]
  {
  }

  // ---- where errors come from -----------------------------------------------------------

  function ErrorOf(ret: Ret): Option<Error> {
    match ret
    case ReadErr(e, _) => Some(e)
    case WriteRet(_, _, err) => err
    case _ => None
  }

  /** A deadline is reported by a step that saw it pass, an end on a closed pipe, a cancellation when the
      context was cancelled. */
  predicate Cause(s: State, e: Event, t: Tid, err: Error) {
    match err
    case Deadline => e == Refuse(t, true) || e == AtHead(t, true) || e == Reacquire(t, true)
    case Closed => s.closed
    case Cancelled => s.cancelled
  }

  /** Whoever was woken by a cancelled context, or is about to report one, was right. */
  predicate Grounded(s: State, pc: Pc) {
    && (pc.Woken? && pc.cancelled ==> s.cancelled)
    && (pc.Notify? && pc.next.Fail? ==> pc.next.e == Cancelled && s.cancelled)
    && (pc.Notify? && pc.next.Return? ==> ErrorOf(pc.next.ret).None?)
  }

  predicate AllGrounded(s: State) {
    forall u :: u in s.th ==> Grounded(s, s.th[u])
  }

  /** One thread moved to a place that is grounded, or two. */
  lemma MovedGrounded(s: State, s': State, t: Tid)
    requires AllGrounded(s) && (s.cancelled ==> s'.cancelled) && Grounded(s', PcOf(s', t))
    requires forall u :: u != t && u in s'.th ==> u in s.th && s'.th[u] == s.th[u]
    ensures AllGrounded(s')
  {
  }

  lemma HeadGrounded(s: State, t: Tid, expired: bool)
    requires Shaped(s) && AllGrounded(s) && PcOf(s, t).Hold?
    ensures AllGrounded(Step(s, AtHead(t, expired)))
  {
    assert PcOk(s.th[t]);
    MovedGrounded(s, Step(s, AtHead(t, expired)), t);
  }

  lemma WakingGrounded(s: State, t: Tid, expired: bool)
    requires Shaped(s) && AllGrounded(s) && PcOf(s, t).Woken? && s.lock.None?
    ensures AllGrounded(Step(s, Reacquire(t, expired)))
  {
    assert PcOk(s.th[t]) && Grounded(s, s.th[t]);
    assert t in Pipe.Waiting(s.th, PcOf(s, t).job.Reading?);
    MovedGrounded(s, Step(s, Reacquire(t, expired)), t);
  }

  lemma ConcludeGrounded(s: State, t: Tid)
    requires Shaped(s) && AllGrounded(s) && Enabled(s, Conclude(t))
    ensures AllGrounded(Step(s, Conclude(t)))
  {
    assert PcOk(s.th[t]) && Grounded(s, s.th[t]);
    MovedGrounded(s, Step(s, Conclude(t)), t);
  }

  lemma HandOverGrounded(s: State, t: Tid, to: Tid)
    requires Shaped(s) && AllGrounded(s) && Enabled(s, HandOver(t, to))
    ensures AllGrounded(Step(s, HandOver(t, to)))
  {
    assert Grounded(s, s.th[t]);
    var s1 := Go(s, to, Woken(PcOf(s, to).job, false));
    MovedGrounded(s, s1, to);
    MovedGrounded(s1, Step(s, HandOver(t, to)), t);
  }

  lemma StepGrounded(s: State, e: Event)
    requires Shaped(s) && AllGrounded(s)
    ensures AllGrounded(Step(s, e))
  {
    if Enabled(s, e) {
      match e
      case CancelContext =>
      case AtHead(t, expired) => HeadGrounded(s, t, expired);
      case Conclude(t) => ConcludeGrounded(s, t);
      case Reacquire(t, expired) => WakingGrounded(s, t, expired);
      case HandOver(t, to) => HandOverGrounded(s, t, to);
      case _ => OutsideGrounded(s, e);
    }
  }

  lemma OutsideGrounded(s: State, e: Event)
    requires Shaped(s) && AllGrounded(s) && Enabled(s, e) && Outside(e) && !e.HandOver?
    ensures AllGrounded(Step(s, e))
  {
    if e.t in s.th { assert Grounded(s, s.th[e.t]); }
    MovedGrounded(s, Step(s, e), e.t);
  }

  /** A step returns at most one call, and with a cause for its error. */
  ghost predicate Explained(s: State, e: Event, s': State) {
    || s'.rets == s.rets
    || exists t, ret ::
         s'.rets == s.rets + [(t, ret)] && (ErrorOf(ret).Some? ==> Cause(s, e, t, ErrorOf(ret).value))
  }

  lemma ReturnExplained(s: State, e: Event, s': State, t: Tid, ret: Ret)
    requires s'.rets == s.rets + [(t, ret)] && (ErrorOf(ret).Some? ==> Cause(s, e, t, ErrorOf(ret).value))
    ensures Explained(s, e, s')
  {
  }

  lemma EndExplained(s: State, e: Event, s1: State, t: Tid, job: Job, err: Error)
    requires Waitable(job) && s1.rets == s.rets && Cause(s, e, t, err)
    ensures Explained(s, e, OnError(s1, t, job, err))
  {
    if job.Writing? {
      ReturnExplained(s, e, OnError(s1, t, job, err), t, WriteRet(job.orig, job.n, Some(err)));
    } else if s1.buffer == [] {
      ReturnExplained(s, e, OnError(s1, t, job, err), t, ReadErr(err, 0));
    }
  }

  lemma HeadExplained(s: State, t: Tid, expired: bool)
    requires Shaped(s) && PcOf(s, t).Hold?
    ensures Explained(s, AtHead(t, expired), Step(s, AtHead(t, expired)))
  {
    var job, e, s' := PcOf(s, t).job, AtHead(t, expired), Step(s, AtHead(t, expired));
    assert PcOk(s.th[t]);
    match job
    case Reading(want) =>
      if s.buffer == [] && expired { EndExplained(s, e, s, t, job, Deadline); }
      else if s.buffer == [] && s.closed { EndExplained(s, e, s, t, job, Closed); }
    case Writing(orig, n) =>
      if n == |orig| { ReturnExplained(s, e, s', t, WriteRet(orig, n, None)); }
      else if |s.buffer| == s.max && expired { EndExplained(s, e, s, t, job, Deadline); }
      else if |s.buffer| == s.max && s.closed { EndExplained(s, e, s, t, job, Closed); }
    case Closing => if s.closed { ReturnExplained(s, e, s', t, CloseRet(false)); }
    case Deadlining(_, _) =>
  }

  lemma WakingExplained(s: State, t: Tid, expired: bool)
    requires Shaped(s) && AllGrounded(s) && PcOf(s, t).Woken? && s.lock.None?
    ensures Explained(s, Reacquire(t, expired), Step(s, Reacquire(t, expired)))
  {
    var pc, e := PcOf(s, t), Reacquire(t, expired);
    assert PcOk(s.th[t]) && Grounded(s, s.th[t]);
    assert t in Pipe.Waiting(s.th, pc.job.Reading?);
    var s1 := Relocked(s, t, pc.job.Reading?);
    if pc.cancelled && s.closed { EndExplained(s, e, s1, t, pc.job, Cancelled); }
    else if !pc.cancelled && s.closed { EndExplained(s, e, s1, t, pc.job, Closed); }
    else if !pc.cancelled && expired { EndExplained(s, e, s1, t, pc.job, Deadline); }
  }

  lemma ConcludeExplained(s: State, t: Tid)
    requires Shaped(s) && AllGrounded(s) && Enabled(s, Conclude(t))
    ensures Explained(s, Conclude(t), Step(s, Conclude(t)))
  {
    assert PcOk(s.th[t]) && Grounded(s, s.th[t]);
    match PcOf(s, t).next
    case Return(ret) => ReturnExplained(s, Conclude(t), Step(s, Conclude(t)), t, ret);
    case Resume(_) =>
    case Fail(job, err) => EndExplained(s, Conclude(t), s, t, job, err);
  }

  lemma StepExplained(s: State, e: Event)
    requires Shaped(s) && AllGrounded(s)
    ensures Explained(s, e, Step(s, e))
  {
    if Enabled(s, e) {
      match e
      case AtHead(t, expired) => HeadExplained(s, t, expired);
      case Conclude(t) => ConcludeExplained(s, t);
      case Reacquire(t, expired) => WakingExplained(s, t, expired);
      case Refuse(t, expired) =>
        var s' := Step(s, e);
        ReturnExplained(s, e, s', t, s'.rets[|s.rets|].1);
      case _ =>
    }
  }

  lemma {:induction false} RunGrounded(max: nat, run: seq<Event>)
    ensures AllGrounded(Exec(max, run))
  {
    if run != [] {
      RunGrounded(max, run[..|run| - 1]);
      StepGrounded(Exec(max, run[..|run| - 1]), run[|run| - 1]);
    }
  }

  /** Over every run each reported error has its cause in the step that returned the call: a deadline was seen
      by that very step, or the pipe was closed, or the context was cancelled. */
  lemma {:induction false} ErrorsExplained(max: nat, run: seq<Event>, i: nat) returns (j: nat)
    requires i < |Exec(max, run).rets| && ErrorOf(Exec(max, run).rets[i].1).Some?
    ensures j < |run| && |Exec(max, run[..j]).rets| == i
    ensures var (t, ret) := Exec(max, run).rets[i]; Cause(Exec(max, run[..j]), run[j], t, ErrorOf(ret).value)
    decreases |run|
  {
    var prior := run[..|run| - 1];
    var s, e := Exec(max, prior), run[|run| - 1];
    RunGrounded(max, prior);
    StepExplained(s, e);
    ReturnFound(s, e, Exec(max, run), i);
    j := |run| - 1;
    if i < |s.rets| {
      j := ErrorsExplained(max, prior, i);
      assert prior[..j] == run[..j];
    }
  }

  lemma ReturnFound(s: State, e: Event, s': State, i: nat)
    requires Explained(s, e, s') && i < |s'.rets| && ErrorOf(s'.rets[i].1).Some?
    ensures if i < |s.rets| then s'.rets[i] == s.rets[i]
            else i == |s.rets| && Cause(s, e, s'.rets[i].0, ErrorOf(s'.rets[i].1).value)
  {
  }

  /** A closed pipe stays closed, a cancelled context cancelled. */
  lemma ClosedStays(s: State, e: Event)
    requires Shaped(s)
    ensures (s.closed ==> Step(s, e).closed) && (s.cancelled ==> Step(s, e).cancelled)
  {
    if e.Reacquire? && Enabled(s, e) { assert e.t in Pipe.Waiting(s.th, PcOf(s, e.t).job.Reading?); }
  }

  // ---- setting a deadline wakes a waiter ------------------------------------------------------

  function DueOn(pc: Pc, reading: bool): nat
    requires pc.Notify?
  {
    if reading then pc.toR else pc.toW
  }

  /** While t broadcasts: u, the one waiter on its side, is out of its wait, or has a token it will find, or is
      still due a Signal. */
  ghost predicate Due(s: State, t: Tid, u: Tid, reading: bool) {
    && t != u && PcOf(s, t).Notify? && CondOf(s, reading).waiters == 1 && Waits(PcOf(s, u), reading)
    && (PcOf(s, u).Parked? ==> DueOn(PcOf(s, t), reading) > 0)
    && (PcOf(s, u).Unlocked? ==> DueOn(PcOf(s, t), reading) > 0 || CondOf(s, reading).token)
  }

  lemma AloneWaits(s: State, u: Tid, v: Tid, reading: bool)
    requires Shaped(s) && CondOf(s, reading).waiters == 1 && Waits(PcOf(s, u), reading) && Waits(PcOf(s, v), reading)
    ensures u == v
  {
    if u != v { TwoWait(s, u, v, reading); }
  }

  lemma SignalDue(s: State, t: Tid, u: Tid, reading: bool)
    requires Shaped(s) && Due(s, t, u, reading) && Enabled(s, SendSignal(t))
    ensures Due(Step(s, SendSignal(t)), t, u, reading)
  {
    if reading == (PcOf(s, t).toR > 0) { assert !InSelect(s.th[u], reading); }
  }

  lemma HandOverDue(s: State, t: Tid, to: Tid, u: Tid, reading: bool)
    requires Shaped(s) && Due(s, t, u, reading) && Enabled(s, HandOver(t, to))
    ensures Due(Step(s, HandOver(t, to)), t, u, reading)
  {
    if reading == (PcOf(s, t).toR > 0) { AloneWaits(s, u, to, reading); }
  }

  /** Steps of others leave it so: they have not got the lock, and nobody else waits on that side. */
  lemma OthersDue(s: State, e: Event, t: Tid, u: Tid, reading: bool)
    requires Shaped(s) && Due(s, t, u, reading) && Enabled(s, e) && !e.CancelContext? && e.t != t
    ensures Due(Step(s, e), t, u, reading)
  {
    assert s.lock == Some(t) by { assert Holds(s.th[t]); }
    if e.t in s.th { assert Holds(s.th[e.t]) <==> s.lock == Some(e.t); }
    if e.Receive? && PcOf(s, e.t).job.Reading? == reading { AloneWaits(s, u, e.t, reading); }
  }

  lemma StepDue(s: State, e: Event, t: Tid, u: Tid, reading: bool)
    requires Shaped(s) && Due(s, t, u, reading) && e != Conclude(t)
    ensures Due(Step(s, e), t, u, reading)
  {
    if Enabled(s, e) && !e.CancelContext? {
      if e.t != t { OthersDue(s, e, t, u, reading); }
      else if e.SendSignal? { SignalDue(s, t, u, reading); }
      else if e.HandOver? { HandOverDue(s, t, e.to, u, reading); }
    }
  }

  function From(s: State, run: seq<Event>): (s': State)
    requires Shaped(s)
    ensures Shaped(s')
  {
    if run == [] then s
    else
      var s1 := From(s, run[..|run| - 1]);
      StepShaped(s1, run[|run| - 1]);
      Step(s1, run[|run| - 1])
  }

  lemma {:induction false} StaysDue(s: State, run: seq<Event>, t: Tid, u: Tid, reading: bool)
    requires Shaped(s) && Due(s, t, u, reading) && Conclude(t) !in run
    ensures Due(From(s, run), t, u, reading)
  {
    if run != [] {
      StaysDue(s, run[..|run| - 1], t, u, reading);
      StepDue(From(s, run[..|run| - 1]), run[|run| - 1], t, u, reading);
    }
  }

  /** Setting the deadline of a side on which one call waits wakes that call: whatever the others do, when the
      setter is about to return the waiter has left its wait or has a token it will find. */
  lemma DeadlineWakes(s: State, t: Tid, u: Tid, rd: bool, wd: bool, reading: bool, expired: bool, run: seq<Event>)
    requires Shaped(s) && PcOf(s, t) == Hold(Deadlining(rd, wd)) && (if reading then rd else wd)
    requires t != u && Waits(PcOf(s, u), reading) && CondOf(s, reading).waiters == 1
    requires Conclude(t) !in run
    ensures Shaped(Step(s, AtHead(t, expired)))
    ensures var s' := From(Step(s, AtHead(t, expired)), run);
            Enabled(s', Conclude(t)) ==>
              PcOf(s', u).Woken? || (PcOf(s', u).Unlocked? && CondOf(s', reading).token)
  {
    StepShaped(s, AtHead(t, expired));
    DeadlineDecides(s, t, rd, wd, expired);
    StaysDue(Step(s, AtHead(t, expired)), run, t, u, reading);
  }
}
