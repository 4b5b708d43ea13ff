/** Threads racing through the limiter, one atomic step at a time. */
module LimiterRuns {
  import opened Limiter

  type Ref = nat

  /** A thread is outside, waits for a permit, holds one, or is on its way out. */
  datatype Phase = Idle | Waiting(id: string, c: Ref) | Holding(id: string, c: Ref) | Leaving(id: string, c: Ref)

  datatype State = State(th: map<nat, Phase>, shelf: Shelf<Ref>)

  datatype Step =
    | Take(t: nat, id: string, made: Ref)
    | Acquire(t: nat)
    | Cancel(t: nat)
    | Release(t: nat)
    | Put(t: nat)

  /** Each thread releases what it acquired, and every way out goes through one put. */
  predicate Enabled(st: State, maxConn: int, a: Step) {
    a.t in st.th &&
    var p := st.th[a.t];
    match a
    case Take(_, id, made) =>
      p.Idle? && made !in st.shelf.cells && (id in st.shelf.store ==> st.shelf.store[id] in st.shelf.cells)
    case Acquire(_) => p.Waiting? && p.c in st.shelf.cells && st.shelf.cells[p.c].held < maxConn
    case Cancel(_) => p.Waiting?
    case Release(_) => p.Holding? && p.c in st.shelf.cells
    case Put(_) => p.Leaving? && (p.id in st.shelf.store ==> st.shelf.store[p.id] in st.shelf.cells)
  }

  function Next(st: State, maxConn: int, a: Step): State
    requires Enabled(st, maxConn, a)
  {
    var p := st.th[a.t];
    match a
    case Take(t, id, made) =>
      var s := Taken(st.shelf, id, made);
      State(st.th[t := Waiting(id, s.store[id])], s)
    case Acquire(t) => State(st.th[t := Holding(p.id, p.c)], Permits(st.shelf, p.c, 1))
    case Cancel(t) => State(st.th[t := Leaving(p.id, p.c)], st.shelf)
    case Release(t) => State(st.th[t := Leaving(p.id, p.c)], Permits(st.shelf, p.c, -1))
    case Put(t) => State(st.th[t := Idle], PutBack(st.shelf, p.id))
  }

  // ---- who is at work on an id ---------------------------------------------------------

  predicate On(p: Phase, id: string) {
    !p.Idle? && p.id == id
  }

  predicate Holds(p: Phase, id: string) {
    p.Holding? && p.id == id
  }

  function Active(th: map<nat, Phase>, id: string): set<nat> {
    set t | t in th && On(th[t], id)
  }

  function Holders(th: map<nat, Phase>, id: string): set<nat> {
    set t | t in th && Holds(th[t], id)
  }

  /** An id is stored exactly while threads are at work on it, and its consumer counts them and its holders. */
  ghost predicate Counted(st: State, maxConn: int, id: string) {
    && (id in st.shelf.store <==> Active(st.th, id) != {})
    && (id in st.shelf.store ==>
          var c := st.shelf.store[id];
          && c in st.shelf.cells
          && st.shelf.cells[c] == Cell(|Holders(st.th, id)|, |Active(st.th, id)|)
          && (|Holders(st.th, id)| == 0 || |Holders(st.th, id)| <= maxConn))
  }

  /** Every thread at work on an id has the consumer stored for it. */
  ghost predicate Sharing(st: State) {
    forall t <- st.th :: !st.th[t].Idle? ==> st.th[t].id in st.shelf.store && st.shelf.store[st.th[t].id] == st.th[t].c
  }

  ghost predicate Apart(st: State) {
    forall i, j | i in st.shelf.store && j in st.shelf.store :: st.shelf.store[i] == st.shelf.store[j] ==> i == j
  }

  ghost predicate Inv(st: State, maxConn: int) {
    Sharing(st) && Apart(st) && forall id: string :: Counted(st, maxConn, id)
  }

  // ---- counting ----------------------------------------------------------------------------

  lemma Recount(th: map<nat, Phase>, t: nat, p: Phase, id: string)
    requires t in th
    ensures Active(th[t := p], id) == if On(p, id) then Active(th, id) + {t} else Active(th, id) - {t}
    ensures Holders(th[t := p], id) == if Holds(p, id) then Holders(th, id) + {t} else Holders(th, id) - {t}
    ensures Holders(th, id) <= Active(th, id)
  {
  }

  lemma Sizes(th: map<nat, Phase>, t: nat, p: Phase, id: string)
    requires t in th
    ensures |Active(th[t := p], id)| == |Active(th, id)| + (if On(p, id) then 1 else 0) - if On(th[t], id) then 1 else 0
    ensures |Holders(th[t := p], id)| ==
            |Holders(th, id)| + (if Holds(p, id) then 1 else 0) - if Holds(th[t], id) then 1 else 0
    ensures Active(th[t := p], id) == {} <==> |Active(th[t := p], id)| == 0
    ensures Active(th, id) == {} <==> |Active(th, id)| == 0
    ensures On(th[t], id) ==> |Active(th, id)| >= 1
  {
    Recount(th, t, p, id);
    assert On(th[t], id) <==> t in Active(th, id);
    assert Holds(th[t], id) <==> t in Holders(th, id);
    if On(p, id) && On(th[t], id) { assert Active(th, id) + {t} == Active(th, id); }
    if !On(p, id) && !On(th[t], id) { assert Active(th, id) - {t} == Active(th, id); }
    if Holds(p, id) && Holds(th[t], id) { assert Holders(th, id) + {t} == Holders(th, id); }
    if !Holds(p, id) && !Holds(th[t], id) { assert Holders(th, id) - {t} == Holders(th, id); }
  }

  // ---- every step keeps the invariant ---------------------------------------------------------

  lemma StepSharing(st: State, maxConn: int, a: Step)
    requires Inv(st, maxConn) && Enabled(st, maxConn, a)
    ensures Sharing(Next(st, maxConn, a))
  {
    var p, u := st.th[a.t], Next(st, maxConn, a);
    assert a.Put? ==> Counted(st, maxConn, p.id);
    assert a.Take? ==> Counted(st, maxConn, a.id);
    forall t | t in u.th && !u.th[t].Idle?
      ensures u.th[t].id in u.shelf.store && u.shelf.store[u.th[t].id] == u.th[t].c
    {
      if t != a.t && a.Put? && u.th[t].id == p.id {
        TwoActive(st.th, t, a.t, p.id);
      }
    }
  }

  lemma TwoActive(th: map<nat, Phase>, t: nat, v: nat, id: string)
    requires t in th && v in th && t != v && On(th[t], id) && On(th[v], id)
    ensures |Active(th, id)| >= 2
  {
    assert {t, v} <= Active(th, id);
    assert |Active(th, id) - {t, v}| == |Active(th, id)| - |{t, v}|;
  }

  lemma StepApart(st: State, maxConn: int, a: Step)
    requires Inv(st, maxConn) && Enabled(st, maxConn, a)
    ensures Apart(Next(st, maxConn, a))
  {
    if a.Take? {
      forall id | id in st.shelf.store ensures st.shelf.store[id] != a.made { assert Counted(st, maxConn, id); }
    }
  }

  /** The counts of an id the step is not about. */
  lemma StepElsewhere(st: State, maxConn: int, a: Step, id: string)
    requires Inv(st, maxConn) && Enabled(st, maxConn, a)
    requires id != if a.Take? then a.id else st.th[a.t].id
    ensures Counted(Next(st, maxConn, a), maxConn, id)
  {
    var p, u := st.th[a.t], Next(st, maxConn, a);
    Sizes(st.th, a.t, u.th[a.t], id);
    assert Counted(st, maxConn, id);
  }

  lemma StepHere(st: State, maxConn: int, a: Step, id: string)
    requires Inv(st, maxConn) && Enabled(st, maxConn, a)
    requires id == if a.Take? then a.id else st.th[a.t].id
    ensures Counted(Next(st, maxConn, a), maxConn, id)
  {
    var p, u := st.th[a.t], Next(st, maxConn, a);
    Sizes(st.th, a.t, u.th[a.t], id);
    Recount(st.th, a.t, u.th[a.t], id);
    assert Counted(st, maxConn, id);
    assert id !in st.shelf.store ==> |Holders(st.th, id)| == 0;
  }

  lemma StepKeeps(st: State, maxConn: int, a: Step)
    requires Inv(st, maxConn) && Enabled(st, maxConn, a)
    ensures Inv(Next(st, maxConn, a), maxConn)
  {
    StepSharing(st, maxConn, a);
    StepApart(st, maxConn, a);
    forall id: string ensures Counted(Next(st, maxConn, a), maxConn, id) {
      if id == if a.Take? then a.id else st.th[a.t].id {
        StepHere(st, maxConn, a, id);
      } else {
        StepElsewhere(st, maxConn, a, id);
      }
    }
  }

  // ---- runs --------------------------------------------------------------------------------

  ghost predicate Run(states: seq<State>, steps: seq<Step>, maxConn: int) {
    && |states| == |steps| + 1
    && states[0].shelf == Shelf(map[], map[]) && (forall t <- states[0].th :: states[0].th[t].Idle?)
    && forall i :: 0 <= i < |steps| ==>
         Enabled(states[i], maxConn, steps[i]) && states[i + 1] == Next(states[i], maxConn, steps[i])
  }

  lemma InitInv(st: State, maxConn: int)
    requires st.shelf == Shelf(map[], map[]) && forall t <- st.th :: st.th[t].Idle?
    ensures Inv(st, maxConn)
  {
    forall id: string ensures Counted(st, maxConn, id) {
      assert Active(st.th, id) == {};
    }
  }

  lemma {:induction false} RunKeeps(states: seq<State>, steps: seq<Step>, maxConn: int, n: nat)
    requires Run(states, steps, maxConn) && n <= |steps|
    ensures Inv(states[n], maxConn)
  {
    if n == 0 {
      InitInv(states[0], maxConn);
    } else {
      RunKeeps(states, steps, maxConn, n - 1);
      StepKeeps(states[n - 1], maxConn, steps[n - 1]);
    }
  }

  /** In every run at most maxConn threads hold an id, however often its consumer was dropped and remade. */
  lemma AtMostMax(states: seq<State>, steps: seq<Step>, maxConn: int, n: nat, id: string)
    requires Run(states, steps, maxConn) && n <= |steps|
    ensures |Holders(states[n].th, id)| == 0 || |Holders(states[n].th, id)| <= maxConn
  {
    RunKeeps(states, steps, maxConn, n);
    assert Counted(states[n], maxConn, id);
    if id !in states[n].shelf.store {
      assert Holders(states[n].th, id) <= Active(states[n].th, id);
    }
  }

  /** A waiting thread may go on exactly while fewer than maxConn threads hold its id; it may always give up,
      and whoever holds may release. */
  lemma MayAcquireIff(states: seq<State>, steps: seq<Step>, maxConn: int, n: nat, t: nat)
    requires Run(states, steps, maxConn) && n <= |steps| && t in states[n].th
    ensures states[n].th[t].Waiting? ==>
              && (Enabled(states[n], maxConn, Acquire(t)) <==> |Holders(states[n].th, states[n].th[t].id)| < maxConn)
              && Enabled(states[n], maxConn, Cancel(t))
    ensures states[n].th[t].Holding? ==> Enabled(states[n], maxConn, Release(t))
  {
    RunKeeps(states, steps, maxConn, n);
    if !states[n].th[t].Idle? { assert Counted(states[n], maxConn, states[n].th[t].id); }
  }

  /** Threads at work on one id share one consumer; it counts them; the id is stored only while there are any. */
  lemma OneConsumer(states: seq<State>, steps: seq<Step>, maxConn: int, n: nat, id: string)
    requires Run(states, steps, maxConn) && n <= |steps|
    ensures id in states[n].shelf.store <==> Active(states[n].th, id) != {}
    ensures forall t <- Active(states[n].th, id) :: states[n].shelf.store[id] == states[n].th[t].c
    ensures id in states[n].shelf.store ==>
              var c := states[n].shelf.store[id];
              c in states[n].shelf.cells && states[n].shelf.cells[c].usage == |Active(states[n].th, id)|
  {
    RunKeeps(states, steps, maxConn, n);
    assert Counted(states[n], maxConn, id);
  }

  /** A put finds its consumer and a release finds a permit out: neither error exit is taken. */
  lemma ExitsAreSafe(states: seq<State>, steps: seq<Step>, maxConn: int, n: nat, t: nat)
    requires Run(states, steps, maxConn) && n <= |steps| && t in states[n].th
    ensures states[n].th[t].Leaving? ==> states[n].th[t].id in states[n].shelf.store
    ensures states[n].th[t].Holding? ==>
              states[n].th[t].c in states[n].shelf.cells && states[n].shelf.cells[states[n].th[t].c].held >= 1
  {
    RunKeeps(states, steps, maxConn, n);
    var st := states[n];
    if st.th[t].Holding? {
      assert Counted(st, maxConn, st.th[t].id);
      assert t in Holders(st.th, st.th[t].id);
    }
  }
}
