/** Exactly when no wake-up is lost: at most one thread that reads and at most one that writes. */
module PipeLimits {
  import opened Basics
  import opened Pipe
  import opened PipeWakeup
  import opened PipeTheorems

  /** A set of states that allowed steps do not leave; the walk below stays inside it. */
  ghost predicate ClosedUnder(reach: State -> bool, readers: set<Tid>, writers: set<Tid>) {
    forall s, e :: reach(s) && Shaped(s) && Allowed(e, readers, writers) ==> reach(Step(s, e))
  }

  lemma ReachStep(reach: State -> bool, readers: set<Tid>, writers: set<Tid>, s: State, e: Event)
    requires ClosedUnder(reach, readers, writers) && reach(s) && Shaped(s) && Allowed(e, readers, writers)
    ensures Shaped(Step(s, e)) && reach(Step(s, e))
  {
    StepShaped(s, e);
  }

  /** A call gets the free lock. */
  lemma GetsLock(reach: State -> bool, readers: set<Tid>, writers: set<Tid>, s: State, t: Tid, job: Job)
    returns (s': State)
    requires ClosedUnder(reach, readers, writers) && reach(s) && Shaped(s)
    requires PcOf(s, t).Idle? && s.lock.None? && (job.Writing? ==> job.n == 0)
    requires Permitted(job, t, readers, writers)
    ensures reach(s') && Shaped(s') && s' == s.(lock := Some(t), th := s.th[t := Hold(job)])
  {
    ReachStep(reach, readers, writers, s, Call(t, job));
    var s1 := s.(th := s.th[t := Start(job)]);
    assert Step(s, Call(t, job)) == s1;
    ReachStep(reach, readers, writers, s1, Acquire(t));
    s' := s.(lock := Some(t), th := s.th[t := Hold(job)]);
    assert s1.th[t := Hold(job)] == s.th[t := Hold(job)];
  }

  /** A reader of an empty open pipe, or a writer to a full one. */
  predicate MustWait(s: State, job: Job) {
    !s.closed && ((job == Reading(1) && s.buffer == []) || (job == Writing([0], 0) && |s.buffer| == s.max))
  }

  function Registered(c: Cond): Cond {
    c.(waiters := c.waiters + 1)
  }

  lemma FallsAsleep(reach: State -> bool, readers: set<Tid>, writers: set<Tid>, s: State, t: Tid, job: Job)
    returns (s': State)
    requires ClosedUnder(reach, readers, writers) && reach(s) && Shaped(s) && PcOf(s, t).Idle? && s.lock.None?
    requires MustWait(s, job) && Permitted(job, t, readers, writers)
    ensures reach(s') && Shaped(s')
    ensures s' == s.(th := s.th[t := Unlocked(job)], r := if job.Reading? then Registered(s.r) else s.r,
                     w := if job.Reading? then s.w else Registered(s.w))
  {
    var s1 := GetsLock(reach, readers, writers, s, t, job);
    HeadParks(s1, t, job);
    ReachStep(reach, readers, writers, s1, AtHead(t, false));
    s' := Park(s1, t, job);
    ParkedIs(s, s1, t, job);
  }

  lemma ParkedIs(s: State, s1: State, t: Tid, job: Job)
    requires s.lock.None? && s1 == s.(lock := Some(t), th := s.th[t := Hold(job)])
    ensures Park(s1, t, job) ==
            s.(th := s.th[t := Unlocked(job)], r := if job.Reading? then Registered(s.r) else s.r,
               w := if job.Reading? then s.w else Registered(s.w))
  {
    assert s1.th[t := Unlocked(job)] == s.th[t := Unlocked(job)];
  }

  lemma HeadParks(s: State, t: Tid, job: Job)
    requires Shaped(s) && PcOf(s, t) == Hold(job) && MustWait(s, job)
    ensures Step(s, AtHead(t, false)) == Park(s, t, job)
  {
  }

  /** One writer fills the pipe and returns. */
  lemma FillsUp(reach: State -> bool, readers: set<Tid>, writers: set<Tid>, s: State, t: Tid)
    returns (s': State)
    requires ClosedUnder(reach, readers, writers) && reach(s) && Shaped(s) && s == Init(s.max) && t in writers
    ensures reach(s') && Shaped(s') && |s'.buffer| == s'.max == s.max && !s'.closed && !s'.cancelled
    ensures s'.lock.None? && s'.r == Cond(false, 0) && s'.w == Cond(false, 0) && forall u :: PcOf(s', u).Idle?
  {
    s' := s;
    if s.max > 0 {
      var data: bytes := seq(s.max, _ => 0);
      var s1 := GetsLock(reach, readers, writers, s, t, Writing(data, 0));
      ReachStep(reach, readers, writers, s1, AtHead(t, false));
      var s2 := Append(s1, t, data, 0);
      assert Step(s1, AtHead(t, false)) == s2 && PcOf(s2, t) == Notify(0, 0, Resume(Writing(data, s.max)));
      ReachStep(reach, readers, writers, s2, Conclude(t));
      var s3 := Go(s2, t, Hold(Writing(data, s.max)));
      assert Step(s2, Conclude(t)) == s3;
      ReachStep(reach, readers, writers, s3, AtHead(t, false));
      s' := Finish(s3, t, WriteRet(data, s.max, None));
      assert Step(s3, AtHead(t, false)) == s';
    }
  }

  /** Two threads on their way to the select of one condition, and nobody else in the pipe. */
  ghost predicate TwoAsleep(s: State, a: Tid, b: Tid, job: Job) {
    && a != b && PcOf(s, a) == Unlocked(job) && PcOf(s, b) == Unlocked(job) && MustWait(s, job)
    && s.lock.None? && !s.cancelled && CondOf(s, job.Reading?) == Cond(false, 2)
    && CondOf(s, !job.Reading?) == Cond(false, 0)
    && forall u :: u != a && u != b ==> PcOf(s, u).Idle?
  }

  lemma BothFallAsleep(reach: State -> bool, readers: set<Tid>, writers: set<Tid>, s: State, a: Tid, b: Tid, job: Job)
    returns (s': State)
    requires ClosedUnder(reach, readers, writers) && reach(s) && Shaped(s) && s.lock.None? && !s.cancelled && a != b
    requires s.r == Cond(false, 0) && s.w == Cond(false, 0) && forall u :: PcOf(s, u).Idle?
    requires MustWait(s, job) && Permitted(job, a, readers, writers) && Permitted(job, b, readers, writers)
    ensures reach(s') && Shaped(s') && TwoAsleep(s', a, b, job)
  {
    var s1 := FallsAsleep(reach, readers, writers, s, a, job);
    assert forall u :: u != a ==> PcOf(s1, u) == PcOf(s, u);
    s' := FallsAsleep(reach, readers, writers, s1, b, job);
    assert forall u :: u != b ==> PcOf(s', u) == PcOf(s1, u);
  }

  /** After the pipe is closed: one token for the two of them. */
  ghost predicate OneToken(s: State, a: Tid, b: Tid, job: Job) {
    && a != b && PcOf(s, a) == Unlocked(job) && PcOf(s, b) == Unlocked(job) && s.closed
    && (job.Reading? ==> s.buffer == [])
    && s.lock.None? && !s.cancelled && CondOf(s, job.Reading?) == Cond(true, 2)
    && forall u :: u != a && u != b ==> PcOf(s, u).Idle?
  }

  /** One Signal into the slot, nobody being in the select. */
  lemma SignalsOnce(reach: State -> bool, readers: set<Tid>, writers: set<Tid>, s: State, t: Tid, reading: bool,
                    n: nat, next: Next)
    returns (s': State)
    requires ClosedUnder(reach, readers, writers) && reach(s) && Shaped(s) && CondOf(s, reading).waiters == 2
    requires PcOf(s, t) == Left(reading, n + 1, next) && forall u :: !PcOf(s, u).Parked?
    ensures reach(s') && Shaped(s') && forall u :: !PcOf(s', u).Parked?
    ensures s' == s.(th := s.th[t := Left(reading, n, next)], r := if reading then Cond(true, 2) else s.r,
                     w := if reading then s.w else Cond(true, 2))
  {
    assert forall u <- s.th :: s.th[u] == PcOf(s, u);
    ReachStep(reach, readers, writers, s, SendSignal(t));
    s' := Step(s, SendSignal(t));
    assert forall u :: u != t ==> PcOf(s', u) == PcOf(s, u);
  }

  /** A lock holder with n Signals left for one condition. */
  function Left(reading: bool, n: nat, next: Next): Pc {
    Notify(if reading then n else 0, if reading then 0 else n, next)
  }

  /** The second Signal of a broadcast meets a full slot. */
  lemma SignalsTwice(reach: State -> bool, readers: set<Tid>, writers: set<Tid>, s: State, t: Tid, reading: bool,
                     next: Next)
    returns (s': State)
    requires ClosedUnder(reach, readers, writers) && reach(s) && Shaped(s) && CondOf(s, reading).waiters == 2
    requires PcOf(s, t) == Left(reading, 2, next) && forall u :: !PcOf(s, u).Parked?
    ensures reach(s') && Shaped(s')
    ensures s' == s.(th := s.th[t := Notify(0, 0, next)], r := if reading then Cond(true, 2) else s.r,
                     w := if reading then s.w else Cond(true, 2))
  {
    var s1 := SignalsOnce(reach, readers, writers, s, t, reading, 1, next);
    s' := SignalsOnce(reach, readers, writers, s1, t, reading, 0, next);
    assert s1.th[t := Notify(0, 0, next)] == s.th[t := Notify(0, 0, next)];
  }

  /** A third thread closes the pipe and has both Signals still to send. */
  lemma StartsClosing(reach: State -> bool, readers: set<Tid>, writers: set<Tid>, s: State, t: Tid) returns (s': State)
    requires ClosedUnder(reach, readers, writers) && reach(s) && Shaped(s) && PcOf(s, t).Idle? && s.lock.None?
    requires !s.closed
    ensures reach(s') && Shaped(s')
    ensures s' == s.(closed := true, lock := Some(t),
                     th := s.th[t := Notify(s.r.waiters, s.w.waiters, Return(CloseRet(true)))])
  {
    var s1 := GetsLock(reach, readers, writers, s, t, Closing);
    ReachStep(reach, readers, writers, s1, AtHead(t, false));
    s' := CloseNow(s1, t, Return(CloseRet(true)));
    assert Step(s1, AtHead(t, false)) == s';
    assert s1.th[t := s'.th[t]] == s.th[t := s'.th[t]];
  }

  lemma EndsClosing(reach: State -> bool, readers: set<Tid>, writers: set<Tid>, s: State, t: Tid) returns (s': State)
    requires ClosedUnder(reach, readers, writers) && reach(s) && Shaped(s)
    requires PcOf(s, t) == Notify(0, 0, Return(CloseRet(true)))
    ensures reach(s') && Shaped(s') && s' == Finish(s, t, CloseRet(true))
  {
    ReachStep(reach, readers, writers, s, Conclude(t));
    s' := Finish(s, t, CloseRet(true));
    assert Step(s, Conclude(t)) == s';
  }

  lemma Closes(reach: State -> bool, readers: set<Tid>, writers: set<Tid>, s: State, a: Tid, b: Tid, job: Job, t: Tid)
    returns (s': State)
    requires ClosedUnder(reach, readers, writers) && reach(s) && Shaped(s) && TwoAsleep(s, a, b, job)
    requires t != a && t != b
    ensures reach(s') && Shaped(s') && OneToken(s', a, b, job)
  {
    var s1 := StartsClosing(reach, readers, writers, s, t);
    OthersStand(s, s1, t, PcOf(s1, t));
    var s2 := SignalsTwice(reach, readers, writers, s1, t, job.Reading?, Return(CloseRet(true)));
    OthersStand(s1, s2, t, PcOf(s2, t));
    s' := EndsClosing(reach, readers, writers, s2, t);
    OthersStand(s2, s', t, Idle);
  }

  lemma OthersStand(s: State, s': State, t: Tid, pc: Pc)
    requires s'.th == s.th[t := pc]
    ensures forall u :: u != t ==> PcOf(s', u) == PcOf(s, u)
  {
  }

  /** The first one takes the token. */
  lemma TakesToken(reach: State -> bool, readers: set<Tid>, writers: set<Tid>, s: State, a: Tid, job: Job)
    returns (s': State)
    requires ClosedUnder(reach, readers, writers) && reach(s) && Shaped(s)
    requires PcOf(s, a) == Unlocked(job) && CondOf(s, job.Reading?) == Cond(true, 2)
    ensures reach(s') && Shaped(s') && CondOf(s', job.Reading?) == Cond(false, 2)
    ensures s'.closed == s.closed && s'.lock == s.lock && s'.cancelled == s.cancelled && s'.buffer == s.buffer
    ensures s'.th == s.th[a := Woken(job, false)]
  {
    ReachStep(reach, readers, writers, s, Receive(a));
    s' := Step(s, Receive(a));
  }

  /** It sees the closed pipe and returns. */
  lemma ReturnsClosed(reach: State -> bool, readers: set<Tid>, writers: set<Tid>, s: State, a: Tid, job: Job)
    returns (s': State)
    requires ClosedUnder(reach, readers, writers) && reach(s) && Shaped(s) && Waitable(job)
    requires PcOf(s, a) == Woken(job, false) && CondOf(s, job.Reading?) == Cond(false, 2)
    requires s.closed && s.lock.None? && (job.Reading? ==> s.buffer == [])
    ensures reach(s') && Shaped(s') && s'.closed && s'.lock.None? && s'.cancelled == s.cancelled
    ensures !CondOf(s', job.Reading?).token && s'.th == s.th[a := Idle]
  {
    ReachStep(reach, readers, writers, s, Reacquire(a, false));
    s' := OnError(Relocked(s, a, job.Reading?), a, job, Closed);
    assert Step(s, Reacquire(a, false)) == s';
  }

  lemma FirstLeaves(reach: State -> bool, readers: set<Tid>, writers: set<Tid>, s: State, a: Tid, b: Tid, job: Job)
    returns (s': State)
    requires ClosedUnder(reach, readers, writers) && reach(s) && Shaped(s) && OneToken(s, a, b, job) && Waitable(job)
    ensures reach(s') && Shaped(s') && s'.closed && s'.lock.None? && !s'.cancelled
    ensures PcOf(s', b) == Unlocked(job) && !CondOf(s', job.Reading?).token && forall u :: u != b ==> PcOf(s', u).Idle?
  {
    var s1 := TakesToken(reach, readers, writers, s, a, job);
    assert forall u :: u != a ==> PcOf(s1, u) == PcOf(s, u);
    s' := ReturnsClosed(reach, readers, writers, s1, a, job);
    assert forall u :: u != a ==> PcOf(s', u) == PcOf(s1, u);
  }

  /** The other blocks in the select of a closed pipe, and nothing moves until a new call is made or the
      context is cancelled. */
  ghost predicate LeftAsleep(s: State, b: Tid) {
    PcOf(s, b).Parked? && s.closed && Blocked(s) && !AwakeAt(s, b)
  }

  lemma SecondStays(reach: State -> bool, readers: set<Tid>, writers: set<Tid>, s: State, b: Tid, job: Job)
    returns (s': State)
    requires ClosedUnder(reach, readers, writers) && reach(s) && Shaped(s) && s.closed && s.lock.None? && !s.cancelled
    requires PcOf(s, b) == Unlocked(job) && !CondOf(s, job.Reading?).token && forall u :: u != b ==> PcOf(s, u).Idle?
    ensures reach(s') && LeftAsleep(s', b)
  {
    ReachStep(reach, readers, writers, s, Settle(b));
    s' := Go(s, b, Parked(job));
    assert Step(s, Settle(b)) == s';
    assert forall u :: u != b ==> PcOf(s', u) == PcOf(s, u);
  }

  lemma LostWakeupWalk(reach: State -> bool, readers: set<Tid>, writers: set<Tid>, s: State, a: Tid, b: Tid, job: Job)
    returns (s': State)
    requires ClosedUnder(reach, readers, writers) && reach(s) && Shaped(s) && s.lock.None? && !s.cancelled && a != b
    requires s.r == Cond(false, 0) && s.w == Cond(false, 0) && forall u :: PcOf(s, u).Idle?
    requires MustWait(s, job) && Permitted(job, a, readers, writers) && Permitted(job, b, readers, writers)
    ensures reach(s') && LeftAsleep(s', b)
  {
    s' := BothFallAsleep(reach, readers, writers, s, a, b, job);
    s' := Closes(reach, readers, writers, s', a, b, job, a + b + 1);
    s' := FirstLeaves(reach, readers, writers, s', a, b, job);
    s' := SecondStays(reach, readers, writers, s', b, job);
  }

  // ---- runs ---------------------------------------------------------------------------------

  /** s is reached by some allowed run. */
  ghost predicate Reached(max: nat, readers: set<Tid>, writers: set<Tid>, s: State) {
    exists run :: AllowedRun(run, readers, writers) && Exec(max, run) == s
  }

  lemma ReachedClosed(max: nat, readers: set<Tid>, writers: set<Tid>, s: State, e: Event)
    requires Reached(max, readers, writers, s) && Allowed(e, readers, writers)
    ensures Shaped(s) && Reached(max, readers, writers, Step(s, e))
  {
    var run :| AllowedRun(run, readers, writers) && Exec(max, run) == s;
    assert (run + [e])[..|run|] == run;
    assert Exec(max, run + [e]) == Step(s, e) && AllowedRun(run + [e], readers, writers);
  }

  /** Two threads allowed to read, or two allowed to write, and one of them can be left blocked on a closed
      pipe, with no token and nobody at work to send one: both have released the lock but not reached the
      select when the pipe is closed. */
  lemma TwoCanLoseAWakeup(max: nat, readers: set<Tid>, writers: set<Tid>, a: Tid, b: Tid) returns (s: State)
    requires a != b && ((a in readers && b in readers) || (a in writers && b in writers))
    ensures Reached(max, readers, writers, s) && LeftAsleep(s, b)
  {
    var reach := (x: State) => Reached(max, readers, writers, x);
    forall x, e | reach(x) && Shaped(x) && Allowed(e, readers, writers) ensures reach(Step(x, e)) {
      ReachedClosed(max, readers, writers, x, e);
    }
    assert AllowedRun([], readers, writers) && Exec(max, []) == Init(max);
    if a in readers && b in readers {
      s := LostWakeupWalk(reach, readers, writers, Init(max), a, b, Reading(1));
    } else {
      var full := FillsUp(reach, readers, writers, Init(max), a);
      s := LostWakeupWalk(reach, readers, writers, full, a, b, Writing([0], 0));
    }
  }

  lemma TwoOf(x: set<Tid>) returns (a: Tid, b: Tid)
    requires |x| >= 2
    ensures a in x && b in x && a != b
  {
    a :| a in x;
    assert |x - {a}| >= 1;
    b :| b in x - {a};
  }

  ghost predicate NeverLost(max: nat, readers: set<Tid>, writers: set<Tid>) {
    forall run, u :: AllowedRun(run, readers, writers) ==> AwakeAt(Exec(max, run), u)
  }

  /** For every buffer size and every choice of threads that may read and that may write: no run loses a
      wake-up exactly when at most one may read and at most one may write. */
  lemma WakesIff(max: nat, readers: set<Tid>, writers: set<Tid>)
    ensures NeverLost(max, readers, writers) <==> |readers| <= 1 && |writers| <= 1
  {
    if |readers| <= 1 && |writers| <= 1 {
      forall run, u | AllowedRun(run, readers, writers) ensures AwakeAt(Exec(max, run), u) {
        OneReaderOneWriterWakes(max, run, readers, writers, u);
      }
    } else {
      var a, b := TwoOf(if |readers| >= 2 then readers else writers);
      var s := TwoCanLoseAWakeup(max, readers, writers, a, b);
      var run :| AllowedRun(run, readers, writers) && Exec(max, run) == s;
      assert !AwakeAt(Exec(max, run), b);
    }
  }
}
