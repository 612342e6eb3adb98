/** What holds over whole runs of the connection pool. */
module PoolTheorems {
  import opened Types
  import opened Sums
  import opened PoolProtocol

  // Runs

  /** The state after a run, if every step of it was enabled. */
  ghost function Exec(s: State, es: seq<Event>): Option<State> {
    if es == [] then Some(s) else
      var before := Exec(s, es[..|es| - 1]);
      if before.Some? && Enabled(before.value, es[|es| - 1]) then Some(Next(before.value, es[|es| - 1])) else None
  }

  /** In every run of acquisitions, completions of either outcome, cancellations, resizes,
      moves, swaps, destructions and uses of connections: the counter is the acquisitions in
      flight plus the handles that will return, it never goes below zero, no wake-up is lost,
      and no connection is in two places. */
  lemma {:induction false} RunKeepsInv(maxSize: nat, requests: nat, es: seq<Event>)
    requires Exec(Start(maxSize, requests), es).Some?
    ensures Inv(Exec(Start(maxSize, requests), es).value)
    ensures Exec(Start(maxSize, requests), es).value.aquired >= 0
    ensures var s := Exec(Start(maxSize, requests), es).value;
            && (forall i | 0 <= i < |s.idle| ::
                  s.idle[i] in s.health && s.health[s.idle[i]].ok && s.health[s.idle[i]].idle)
            && (forall i, j | 0 <= i < j < |s.idle| :: s.idle[i] != s.idle[j])
            && (forall h, i | 0 <= h < |s.handles| && s.handles[h].Handle? && 0 <= i < |s.idle| ::
                  s.handles[h].conn != Some(s.idle[i]))
            && (forall h, g | 0 <= h < g < |s.handles| && s.handles[h].Handle? && s.handles[g].Handle?
                  && s.handles[h].conn.Some? :: s.handles[h].conn != s.handles[g].conn)
  {
    if es == [] {
      StartInv(maxSize, requests);
    } else {
      RunKeepsInv(maxSize, requests, es[..|es| - 1]);
      StepKeepsInv(Exec(Start(maxSize, requests), es[..|es| - 1]).value, es[|es| - 1]);
    }
    InvShows(Exec(Start(maxSize, requests), es).value);
  }

  /** What the invariant says of connections. */
  lemma InvShows(s: State)
    requires Disjoint(s) && ConnsOk(s)
    ensures forall i | 0 <= i < |s.idle| ::
              s.idle[i] in s.health && s.health[s.idle[i]].ok && s.health[s.idle[i]].idle
    ensures forall i, j | 0 <= i < j < |s.idle| :: s.idle[i] != s.idle[j]
    ensures forall h, i | 0 <= h < |s.handles| && s.handles[h].Handle? && 0 <= i < |s.idle| ::
              s.handles[h].conn != Some(s.idle[i])
    ensures forall h, g | 0 <= h < g < |s.handles| && s.handles[h].Handle? && s.handles[g].Handle?
              && s.handles[h].conn.Some? :: s.handles[h].conn != s.handles[g].conn
  {
    forall i, j | 0 <= i < j < |s.idle| ensures s.idle[i] != s.idle[j] {
      assert ConnAt(s, InIdle(i)) == Some(s.idle[i]) && ConnAt(s, InIdle(j)) == Some(s.idle[j]);
    }
    forall h, i | 0 <= h < |s.handles| && s.handles[h].Handle? && 0 <= i < |s.idle|
      ensures s.handles[h].conn != Some(s.idle[i])
    {
      assert ConnAt(s, InIdle(i)) == Some(s.idle[i]) && ConnAt(s, InHandle(h)) == s.handles[h].conn;
    }
    forall h, g | 0 <= h < g < |s.handles| && s.handles[h].Handle? && s.handles[g].Handle?
      && s.handles[h].conn.Some? ensures s.handles[h].conn != s.handles[g].conn
    {
      assert ConnAt(s, InHandle(h)) == s.handles[h].conn && ConnAt(s, InHandle(g)) == s.handles[g].conn;
    }
  }

  /** A quiescent pool, with no woken request left to run, never strands a waiter beside a
      free slot. */
  lemma QuiescentPoolIsFull(s: State, r: nat)
    requires Inv(s)
    requires forall q | 0 <= q < |s.requests| :: !s.requests[q].stage.Woken?
    requires r < |s.requests| && s.requests[r].stage.Waiting?
    ensures s.aquired >= s.maxSize
  {
    SumZero(s.requests, IsWoken);
    ParkedIsQueued(s, r);
  }

  // The size bound

  /** Leased, in-flight and idle connections together. */
  ghost predicate Bounded(s: State, peak: nat) {
    s.maxSize <= peak && s.aquired + |s.idle| <= peak
  }

  lemma StepKeepsBound(s: State, e: Event, peak: nat)
    requires Inv(s) && Enabled(s, e) && Bounded(s, peak)
    requires e.SetMax? ==> e.n <= peak
    ensures Bounded(Next(s, e), peak)
  {
    hide Sum;
    if e.SetMax? {
      WakeAllKeeps(s.(maxSize := e.n));
    } else if e.Destroy? {
      var u := s.(handles := s.handles[e.h := Destroyed], aquired := s.aquired - 1);
      WakeOldestCounts(u);
    }
  }

  /** The pool never has more connections than the largest size ever set. */
  lemma {:induction false} RunIsBounded(maxSize: nat, requests: nat, es: seq<Event>, peak: nat)
    requires Exec(Start(maxSize, requests), es).Some?
    requires maxSize <= peak && forall i | 0 <= i < |es| && es[i].SetMax? :: es[i].n <= peak
    ensures Bounded(Exec(Start(maxSize, requests), es).value, peak)
  {
    if es != [] {
      RunIsBounded(maxSize, requests, es[..|es| - 1], peak);
      RunKeepsInv(maxSize, requests, es[..|es| - 1]);
      StepKeepsBound(Exec(Start(maxSize, requests), es[..|es| - 1]).value, es[|es| - 1], peak);
    }
  }

  // Termination

  /** The steps that bring acquisitions forward: a request runs, a connect or a post completes,
      a lease that will return its connection ends. */
  ghost predicate Works(s: State, e: Event) {
    e.Resume? || e.ConnectDone? || e.PostDone? || (e.Destroy? && e.h < |s.handles| && Pooled(s.handles[e.h]) == 1)
  }

  /** Nobody cancels and nobody resizes. Requests may come at any time, and whoever holds a
      connection may use it, leave it broken or in a transaction, move it, swap it, or destroy
      a handle that is empty. */
  predicate Undisturbed(e: Event) {
    !e.Cancel? && !e.SetMax?
  }

  function WeightOf(stage: Stage): nat {
    match stage
    case Unstarted => 8
    case Woken => 7
    case Connecting(_) => 6
    case Posting(_) => 6
    case Waiting => 4
    case Cancelled => 0
    case Served(_) => 0
  }

  function Weight(r: Request): nat {
    WeightOf(r.stage)
  }

  ghost function Measure(s: State): nat {
    Sum(s.requests, Weight) + 5 * Sum(s.handles, Pooled)
  }

  lemma StageWeighs(s: State, r: nat, stage: Stage)
    requires r < |s.requests|
    ensures Sum(SetStage(s, r, stage).requests, Weight) + WeightOf(s.requests[r].stage)
            == Sum(s.requests, Weight) + WeightOf(stage)
  {
    hide Sum;
    SumUpdate(s.requests, r, s.requests[r].(stage := stage), Weight);
    hide WeightOf;
  }

  /** A step of one request: its new stage, and perhaps a new handle. */
  ghost predicate RequestStep(s: State, t: State, r: nat, stage: Stage) {
    && r < |s.requests| && t.requests == SetStage(s, r, stage).requests
    && s.handles <= t.handles && |t.handles| <= |s.handles| + 1
    && var pooled := if |t.handles| > |s.handles| then Pooled(t.handles[|s.handles|]) else 0;
       WeightOf(stage) + 5 * pooled < WeightOf(s.requests[r].stage)
  }

  lemma RequestStepDecreases(s: State, t: State, r: nat, stage: Stage)
    requires RequestStep(s, t, r, stage)
    ensures Measure(t) < Measure(s)
  {
    hide Sum;
    StageWeighs(s, r, stage);
    if |t.handles| > |s.handles| {
      assert t.handles == s.handles + [t.handles[|s.handles|]];
      SumAppend(s.handles, t.handles[|s.handles|], Pooled);
    } else {
      assert t.handles == s.handles;
    }
    hide SetStage, WeightOf, Pooled;
  }

  lemma ResumeSteps(s: State, r: nat)
    requires Enabled(s, Resume(r))
    ensures |Segment(s, r).requests| == |s.requests|
    ensures RequestStep(s, Segment(s, r), r, Segment(s, r).requests[r].stage)
  {
  }

  lemma DoneSteps(s: State, e: Event)
    requires Enabled(s, e) && (e.ConnectDone? || e.PostDone?)
    ensures RequestStep(s, Next(s, e), e.r, Next(s, e).requests[e.r].stage)
  {
  }

  lemma LeaseEndDecreases(s: State, h: nat)
    requires QueueOk(s) && ConnsOk(s) && Live(s, h) && Pooled(s.handles[h]) == 1
    ensures Measure(Next(s, Destroy(h))) < Measure(s)
  {
    hide Sum;
    var u := s.(handles := s.handles[h := Destroyed], aquired := s.aquired - 1);
    SumUpdate(s.handles, h, Destroyed, Pooled);
    WakeOldestWeighs(u);
    hide WakeOldest;
    assert Next(s, Destroy(h)).requests == WakeOldest(u).requests;
    assert Next(s, Destroy(h)).handles == WakeOldest(u).handles;
  }

  lemma WakeOldestWeighs(s: State)
    requires QueueOk(s)
    ensures Sum(WakeOldest(s).requests, Weight) <= Sum(s.requests, Weight) + 3
    ensures WakeOldest(s).handles == s.handles
  {
    hide Sum;
    if s.waiters != [] {
      StageWeighs(s, s.waiters[0], Woken);
    }
  }

  /** However often a request is woken and parked again, every working step lowers the measure. */
  lemma WorkDecreases(s: State, e: Event)
    requires Inv(s) && Enabled(s, e) && Works(s, e)
    ensures Measure(Next(s, e)) < Measure(s)
  {
    hide Measure, Segment, RequestStep;
    if e.Destroy? {
      LeaseEndDecreases(s, e.h);
    } else if e.Resume? {
      ResumeSteps(s, e.r);
      RequestStepDecreases(s, Segment(s, e.r), e.r, Segment(s, e.r).requests[e.r].stage);
    } else {
      DoneSteps(s, e);
      RequestStepDecreases(s, Next(s, e), e.r, Next(s, e).requests[e.r].stage);
    }
  }

  /** The other steps leave it alone, but for the weight of a new request. */
  lemma OthersKeepMeasure(s: State, e: Event)
    requires Enabled(s, e) && Undisturbed(e) && !Works(s, e)
    ensures Measure(Next(s, e)) == Measure(s) + (if e.Arrive? then 8 else 0)
  {
    hide Sum;
    match e {
      case Arrive => SumAppend(s.requests, Request(Unstarted, false), Weight);
      case Destroy(h) => SumUpdate(s.handles, h, Destroyed, Pooled);
      case Move(h) =>
        SumUpdate(s.handles, h, Handle(false, None), Pooled);
        SumAppend(s.handles[h := Handle(false, None)], s.handles[h], Pooled);
      case Swap(h, g) =>
        SumUpdate(s.handles, h, s.handles[g], Pooled);
        SumUpdate(s.handles[h := s.handles[g]], g, s.handles[h], Pooled);
      case Use(_, _) =>
    }
  }

  /** How many steps of a run work. */
  ghost function Work(s: State, es: seq<Event>): nat
    requires Exec(s, es).Some?
  {
    if es == [] then 0 else
      var front, e := es[..|es| - 1], es[|es| - 1];
      Work(s, front) + (if Works(Exec(s, front).value, e) then 1 else 0)
  }

  ghost predicate Unflagged(s: State) {
    forall r | 0 <= r < |s.requests| :: !s.requests[r].cancelled && !s.requests[r].stage.Cancelled?
  }

  lemma KeepsUnflagged(s: State, e: Event)
    requires Inv(s) && Enabled(s, e) && Undisturbed(e) && Unflagged(s)
    ensures Unflagged(Next(s, e)) && Next(s, e).maxSize == s.maxSize
    ensures |Next(s, e).requests| == |s.requests| + (if e.Arrive? then 1 else 0)
  {
    hide Conserved, NoLostWakeup, Disjoint, ConnsOk;
  }

  lemma {:induction false} WorkIsBounded(maxSize: nat, n: nat, es: seq<Event>)
    requires Exec(Start(maxSize, n), es).Some? && forall e | e in es :: Undisturbed(e)
    ensures var t := Exec(Start(maxSize, n), es).value;
            Inv(t) && Unflagged(t) && t.maxSize == maxSize
                && Work(Start(maxSize, n), es) + Measure(t) <= 8 * |t.requests|
  {
    var s := Start(maxSize, n);
    if es == [] {
      StartInv(maxSize, n);
      SumConst(s.requests, Weight, 8);
      hide Sum;
    } else {
      hide Inv, Unflagged, Measure, Next, Enabled, Works, Undisturbed, Start;
      var front, e := es[..|es| - 1], es[|es| - 1];
      WorkIsBounded(maxSize, n, front);
      var m := Exec(s, front).value;
      StepKeepsInv(m, e);
      KeepsUnflagged(m, e);
      if Works(m, e) {
        WorkDecreases(m, e);
        WorkIsNoArrival(m, e);
      } else {
        OthersKeepMeasure(m, e);
      }
    }
  }

  lemma WorkIsNoArrival(s: State, e: Event)
    requires Works(s, e)
    ensures !e.Arrive?
  {
  }

  ghost predicate Stuck(s: State) {
    forall e | Works(s, e) :: !Enabled(s, e)
  }

  /** Where no working step is possible every request has been handed a connection or a connect
      error, and every slot is free again: nobody is left parked. */
  lemma StuckMeansServed(s: State)
    requires Inv(s) && Unflagged(s) && s.maxSize >= 1 && Stuck(s)
    ensures forall r | 0 <= r < |s.requests| :: s.requests[r].stage.Served?
    ensures s.aquired == 0 && s.waiters == []
  {
    forall r | 0 <= r < |s.requests| ensures s.requests[r].stage.Served? || s.requests[r].stage.Waiting? {
      assert !Enabled(s, Resume(r)) && !Enabled(s, ConnectDone(r, true)) && !Enabled(s, PostDone(r));
    }
    forall h | 0 <= h < |s.handles| ensures Pooled(s.handles[h]) == 0 {
      assert Works(s, Destroy(h)) ==> !Enabled(s, Destroy(h));
    }
    hide Disjoint, ConnsOk, Stuck, Enabled, Works;
    SumZero(s.requests, InFlight);
    SumZero(s.handles, Pooled);
    forall r | 0 <= r < |s.requests| ensures !s.requests[r].stage.Waiting? {
      if s.requests[r].stage.Waiting? {
        QuiescentPoolIsFull(s, r);
      }
    }
    SumZero(s.requests, IsWaiting);
  }

  /** Acquisitions on a pool of fixed size 1 or more, with no cancellation, whose connects all
      complete one way or the other and whose leases all end. In every interleaving, whatever
      the holders do with their connections meanwhile, they take at most 8 working steps each;
      and where no working step is left every one of them has been served and all slots are
      free. */
  lemma PoolTerminates(maxSize: nat, n: nat, es: seq<Event>)
    requires maxSize >= 1
    requires Exec(Start(maxSize, n), es).Some? && forall e | e in es :: Undisturbed(e)
    ensures var t := Exec(Start(maxSize, n), es).value;
            && Work(Start(maxSize, n), es) <= 8 * |t.requests|
            && (Stuck(t) ==>
                  (forall r | 0 <= r < |t.requests| :: t.requests[r].stage.Served?) && t.aquired == 0
                      && t.waiters == [])
  {
    hide Inv, Unflagged, Measure, Start, Exec;
    WorkIsBounded(maxSize, n, es);
    var t := Exec(Start(maxSize, n), es).value;
    if Stuck(t) {
      StuckMeansServed(t);
    }
  }
}
