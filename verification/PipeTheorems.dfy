/** The pipe's guarantees over every run. */
module PipeTheorems {
  import opened Basics
  import opened Pipe
  import opened PipeRuns
  import opened PipeWakeup

  function Exec(max: nat, run: seq<Event>): (s: State)
    ensures Shaped(s) && s.max == max
  {
    if run == [] then
      assert Waiting(map[], true) == {} && Waiting(map[], false) == {};
      Init(max)
    else
      var s := Exec(max, run[..|run| - 1]);
      StepShaped(s, run[|run| - 1]);
      StepKeepsMax(s, run[|run| - 1]);
      Step(s, run[|run| - 1])
  }

  lemma StepKeepsMax(s: State, e: Event)
    requires Shaped(s)
    ensures Step(s, e).max == s.max
  {
    match e
    case AtHead(t, expired) => if Enabled(s, e) { EnterKeepsMax(s, t, PcOf(s, t).job, expired); }
    case _ =>
  }

  lemma EnterKeepsMax(s: State, t: Tid, job: Job, expired: bool)
    requires |s.buffer| <= s.max && (job.Writing? ==> job.n <= |job.orig|)
    ensures Enter(s, t, job, expired).max == s.max
  {
  }

  /** For any number of readers and writers in any interleaving: the buffer stays in bounds, bytes
      delivered followed by the buffer are the bytes accepted in lock order, readers were handed
      exactly the delivered bytes, each writer's accepted bytes are the prefixes its writes report,
      and every report is sound. */
  lemma {:induction false} PipeConserves(max: nat, run: seq<Event>, t: Tid)
    ensures var s := Exec(max, run);
            |s.buffer| <= max && Fifo(s) && ReaderLog(s) && WriterLog(s, t) && Reports(s)
  {
    if run != [] {
      var s, e := Exec(max, run[..|run| - 1]), run[|run| - 1];
      PipeConserves(max, run[..|run| - 1], t);
      StepFifo(s, e);
      StepReads(s, e);
      StepLog(s, e, t);
      StepReports(s, e);
    }
  }

  ghost predicate AlwaysRoomy(max: nat, run: seq<Event>) {
    forall k :: 0 <= k <= |run| ==> Roomy(Exec(max, run[..k]))
  }

  /** As long as no two threads wait on one condition at once, no wake-up is ever lost. */
  lemma {:induction false} NoLostWakeup(max: nat, run: seq<Event>, u: Tid)
    requires AlwaysRoomy(max, run)
    ensures AwakeAt(Exec(max, run), u)
  {
    if run != [] {
      var prior := run[..|run| - 1];
      forall k | 0 <= k <= |prior| ensures Roomy(Exec(max, prior[..k])) { assert prior[..k] == run[..k]; }
      NoLostWakeup(max, prior, u);
      assert prior[..|prior|] == prior;
      StepAwake(Exec(max, prior), run[|run| - 1], u);
    }
  }

  // ---- nobody is stuck for want of a notification --------------------------------------

  predicate Internal(e: Event) {
    !e.Call? && !e.CancelContext?
  }

  /** No thread inside a call can take a step. */
  ghost predicate Blocked(s: State) {
    forall e :: Internal(e) ==> !Enabled(s, e)
  }

  lemma HolderMoves(s: State) returns (e: Event)
    requires Shaped(s) && s.lock.Some?
    ensures Internal(e) && Enabled(s, e)
  {
    var h := s.lock.value;
    assert Holds(s.th[h]);
    if s.th[h].Hold? {
      e := AtHead(h, false);
    } else if !Sending(s.th[h]) {
      e := Conclude(h);
    } else if NoneInSelect(s.th, s.th[h].toR > 0) {
      e := SendSignal(h);
    } else {
      var to :| to in s.th && InSelect(s.th[to], s.th[h].toR > 0);
      e := HandOver(h, to);
    }
  }

  lemma BlockedMeansParked(s: State, t: Tid)
    requires Shaped(s) && Blocked(s)
    ensures s.lock.None? && (PcOf(s, t).Idle? || PcOf(s, t).Parked?)
    ensures PcOf(s, t).Parked? ==> !s.cancelled
  {
    if s.lock.Some? { var e := HolderMoves(s); }
    assert !Enabled(s, Acquire(t)) && !Enabled(s, Reacquire(t, false));
    assert !Enabled(s, Settle(t)) && !Enabled(s, Receive(t)) && !Enabled(s, SeeCancel(t));
  }

  /** When everything inside the pipe is blocked, a parked reader faces an empty open pipe and a
      parked writer a full open one; so a reader and a writer are never stuck together. */
  lemma NeverStuckTogether(max: nat, run: seq<Event>, t: Tid, u: Tid)
    requires AlwaysRoomy(max, run) && max > 0 && Blocked(Exec(max, run))
    ensures var s := Exec(max, run);
            && (PcOf(s, t).Parked? && PcOf(s, t).job.Reading? ==> s.buffer == [] && !s.closed)
            && (PcOf(s, u).Parked? && !PcOf(s, u).job.Reading? ==> |s.buffer| == max && !s.closed)
            && !(PcOf(s, t).Parked? && PcOf(s, t).job.Reading? && PcOf(s, u).Parked? && !PcOf(s, u).job.Reading?)
  {
    var s := Exec(max, run);
    BlockedMeansParked(s, t);
    BlockedMeansParked(s, u);
    NoLostWakeup(max, run, t);
    NoLostWakeup(max, run, u);
  }

  // ---- who may read and who may write -----------------------------------------------------

  function JobOf(pc: Pc): Option<Job> {
    match pc
    case Idle => None
    case Notify(_, _, next) =>
      (match next case Return(_) => None case Resume(job) => Some(job) case Fail(job, _) => Some(job))
    case Start(job) => Some(job)
    case Hold(job) => Some(job)
    case Unlocked(job) => Some(job)
    case Parked(job) => Some(job)
    case Woken(job, _) => Some(job)
  }

  predicate Permitted(job: Job, t: Tid, readers: set<Tid>, writers: set<Tid>) {
    (job.Reading? ==> t in readers) && (job.Writing? ==> t in writers)
  }

  /** Threads outside the two sets neither read nor write; anyone may close or set deadlines. */
  predicate Allowed(e: Event, readers: set<Tid>, writers: set<Tid>) {
    e.Call? ==> Permitted(e.job, e.t, readers, writers)
  }

  predicate AllowedRun(run: seq<Event>, readers: set<Tid>, writers: set<Tid>) {
    forall i :: 0 <= i < |run| ==> Allowed(run[i], readers, writers)
  }

  predicate Only(s: State, readers: set<Tid>, writers: set<Tid>) {
    forall t :: t in s.th && JobOf(s.th[t]).Some? ==> Permitted(JobOf(s.th[t]).value, t, readers, writers)
  }

  predicate SameKind(j: Option<Job>, j': Option<Job>) {
    j'.None? || (j.Some? && j.value.Reading? == j'.value.Reading? && j.value.Writing? == j'.value.Writing?)
  }

  lemma OnErrorJob(s: State, t: Tid, job: Job, e: Error, u: Tid)
    ensures SameKind(if u == t then Some(job) else JobOf(PcOf(s, u)), JobOf(PcOf(OnError(s, t, job, e), u)))
  {
  }

  lemma EnterJob(s: State, t: Tid, job: Job, expired: bool, u: Tid)
    requires |s.buffer| <= s.max && JobOk(job)
    ensures SameKind(if u == t then Some(job) else JobOf(PcOf(s, u)), JobOf(PcOf(Enter(s, t, job, expired), u)))
  {
    OnErrorJob(s, t, job, if expired then Deadline else Closed, u);
  }

  lemma AfterWaitJob(s: State, t: Tid, job: Job, cancelled: bool, expired: bool, u: Tid)
    ensures SameKind(if u == t then Some(job) else JobOf(PcOf(s, u)),
                     JobOf(PcOf(AfterWait(s, t, job, cancelled, expired), u)))
  {
    OnErrorJob(s, t, job, if cancelled then Cancelled else if s.closed then Closed else Deadline, u);
  }

  lemma OutsideJob(s: State, e: Event, u: Tid)
    requires Shaped(s) && Outside(e) && Enabled(s, e)
    ensures (e.Call? && e.t == u && JobOf(PcOf(Step(s, e), u)) == Some(e.job))
            || SameKind(JobOf(PcOf(s, u)), JobOf(PcOf(Step(s, e), u)))
  {
    if u == e.t {
      OwnJob(s, e);
    } else if e.HandOver? {
      HandOverJob(s, e.t, e.to, u);
    } else {
      assert PcOf(Step(s, e), u) == PcOf(s, u) by { OthersStay(s, e, u); }
    }
  }

  lemma OthersStay(s: State, e: Event, u: Tid)
    requires Shaped(s) && Outside(e) && Enabled(s, e) && !e.HandOver? && u != e.t
    ensures PcOf(Step(s, e), u) == PcOf(s, u)
  {
  }

  lemma OwnJob(s: State, e: Event)
    requires Shaped(s) && Outside(e) && Enabled(s, e)
    ensures (e.Call? && JobOf(PcOf(Step(s, e), e.t)) == Some(e.job))
            || SameKind(JobOf(PcOf(s, e.t)), JobOf(PcOf(Step(s, e), e.t)))
  {
  }

  lemma HandOverJob(s: State, t: Tid, to: Tid, u: Tid)
    requires Shaped(s) && Enabled(s, HandOver(t, to)) && u != t
    ensures SameKind(JobOf(PcOf(s, u)), JobOf(PcOf(Step(s, HandOver(t, to)), u)))
  {
  }

  /** A step gives a thread no other job than the one it had or was called with. */
  lemma JobKept(s: State, e: Event, u: Tid)
    requires Shaped(s)
    ensures (e.Call? && e.t == u && JobOf(PcOf(Step(s, e), u)) == Some(e.job))
            || SameKind(JobOf(PcOf(s, u)), JobOf(PcOf(Step(s, e), u)))
  {
    if Enabled(s, e) {
      match e
      case AtHead(t, expired) =>
        assert PcOk(s.th[t]);
        EnterJob(s, t, PcOf(s, t).job, expired, u);
      case Conclude(t) =>
        if PcOf(s, t).next.Fail? { OnErrorJob(s, t, PcOf(s, t).next.job, PcOf(s, t).next.e, u); }
      case Reacquire(t, expired) =>
        assert t in Waiting(s.th, PcOf(s, t).job.Reading?);
        AfterWaitJob(Relocked(s, t, PcOf(s, t).job.Reading?), t, PcOf(s, t).job, PcOf(s, t).cancelled, expired, u);
      case CancelContext =>
      case _ => OutsideJob(s, e, u);
    }
  }

  lemma {:induction false} OnlyTheAllowed(max: nat, run: seq<Event>, readers: set<Tid>, writers: set<Tid>)
    requires AllowedRun(run, readers, writers)
    ensures Only(Exec(max, run), readers, writers)
  {
    if run != [] {
      var s, e := Exec(max, run[..|run| - 1]), run[|run| - 1];
      OnlyTheAllowed(max, run[..|run| - 1], readers, writers);
      assert Allowed(e, readers, writers);
      forall t | t in Step(s, e).th && JobOf(Step(s, e).th[t]).Some?
        ensures Permitted(JobOf(Step(s, e).th[t]).value, t, readers, writers)
      {
        JobKept(s, e, t);
      }
    }
  }

  lemma OnlyRoomy(s: State, readers: set<Tid>, writers: set<Tid>)
    requires Shaped(s) && Only(s, readers, writers) && |readers| <= 1 && |writers| <= 1
    ensures Roomy(s)
  {
    forall t | t in Waiting(s.th, true) ensures t in readers { }
    SubsetCard(Waiting(s.th, true), readers);
    forall t | t in Waiting(s.th, false) ensures t in writers { assert PcOk(s.th[t]); }
    SubsetCard(Waiting(s.th, false), writers);
  }

  /** With at most one thread that reads and at most one that writes, and any number of threads closing
      or setting deadlines, the wake-up guarantee is unconditional. */
  lemma OneReaderOneWriterWakes(max: nat, run: seq<Event>, readers: set<Tid>, writers: set<Tid>, u: Tid)
    requires AllowedRun(run, readers, writers) && |readers| <= 1 && |writers| <= 1
    ensures AlwaysRoomy(max, run) && AwakeAt(Exec(max, run), u)
  {
    forall k | 0 <= k <= |run| ensures Roomy(Exec(max, run[..k])) {
      OnlyTheAllowed(max, run[..k], readers, writers);
      OnlyRoomy(Exec(max, run[..k]), readers, writers);
    }
    NoLostWakeup(max, run, u);
  }
}
