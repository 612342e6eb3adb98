/** The connection pool as a protocol: its states, the atomic steps that change them, and what
    every interleaving of those steps keeps. */
module PoolProtocol {
  import opened Types
  import opened Sums

  type ConnId = nat

  /** What libpq says of a connection: `CONNECTION_OK`, and `PQTRANS_IDLE`. */
  datatype Health = Health(ok: bool, idle: bool)

  /** Where an `async_aquire` is. Waiting is parked on the timer; Woken has a handler queued
      that has not run yet; Connecting and Posting hold a slot. */
  datatype Stage =
    | Unstarted
    | Waiting
    | Woken
    | Connecting(conn: ConnId)
    | Posting(conn: ConnId)
    | Cancelled
    | Served(connected: bool)

  datatype Request = Request(stage: Stage, cancelled: bool)

  /** A `pooled_connection`: whether its pool pointer is set, and its connection. */
  datatype Handle = Handle(pool: bool, conn: Option<ConnId>) | Destroyed

  datatype State = State(
    maxSize: nat,
    aquired: int,
    idle: seq<ConnId>,
    waiters: seq<nat>,
    requests: seq<Request>,
    handles: seq<Handle>,
    unused: ConnId,
    health: map<ConnId, Health>)

  datatype Event =
    | Arrive
    | Resume(r: nat)
    | ConnectDone(r: nat, ok: bool)
    | PostDone(r: nat)
    | Cancel(r: nat)
    | SetMax(n: nat)
    | Destroy(h: nat)
    | Move(h: nat)
    | Swap(h: nat, g: nat)
    | Use(h: nat, after: Health)

  function Start(maxSize: nat, requests: nat): State {
    State(maxSize, 0, [], [], seq(requests, i => Request(Unstarted, false)), [], 0, map[])
  }

  // The steps

  predicate Live(s: State, h: nat) {
    h < |s.handles| && s.handles[h].Handle?
  }

  ghost predicate Enabled(s: State, e: Event) {
    match e
    case Arrive => true
    case Resume(r) => r < |s.requests| && (s.requests[r].stage.Unstarted? || s.requests[r].stage.Woken?)
    case ConnectDone(r, _) => r < |s.requests| && s.requests[r].stage.Connecting?
    case PostDone(r) => r < |s.requests| && s.requests[r].stage.Posting?
    case Cancel(r) => r < |s.requests| && !s.requests[r].stage.Unstarted?
    case SetMax(_) => true
    case Destroy(h) => Live(s, h)
    case Move(h) => Live(s, h)
    case Swap(h, g) => Live(s, h) && Live(s, g)
    case Use(h, _) => Live(s, h) && s.handles[h].conn.Some?
  }

  function SetStage(s: State, r: nat, stage: Stage): State
    requires r < |s.requests|
  {
    s.(requests := s.requests[r := s.requests[r].(stage := stage)])
  }

  /** The segment of `async_aquire` from a resumption to the next yield or completion. */
  function Segment(s: State, r: nat): State
    requires r < |s.requests|
  {
    if s.aquired >= s.maxSize then
      if s.requests[r].cancelled then Complete(s, r, Cancelled, Handle(false, None))
      else SetStage(s, r, Waiting).(waiters := s.waiters + [r])
    else if s.idle == [] then
      SetStage(s, r, Connecting(s.unused)).(aquired := s.aquired + 1, unused := s.unused + 1)
    else
      SetStage(s, r, Posting(s.idle[0])).(aquired := s.aquired + 1, idle := s.idle[1..])
  }

  function Complete(s: State, r: nat, stage: Stage, handle: Handle): State
    requires r < |s.requests|
  {
    SetStage(s, r, stage).(handles := s.handles + [handle])
  }

  /** `cv_.cancel_one()`: the timer wakes its oldest waiter. */
  function WakeOldest(s: State): State {
    if s.waiters == [] || s.waiters[0] >= |s.requests| then s
    else SetStage(s, s.waiters[0], Woken).(waiters := s.waiters[1..])
  }

  /** `cv_.cancel()`: all of them, oldest first. */
  function WakeAll(s: State): State
    decreases |s.waiters|
  {
    if s.waiters == [] || s.waiters[0] >= |s.requests| then s else WakeAll(WakeOldest(s))
  }

  predicate Reusable(s: State, c: ConnId) {
    c in s.health && s.health[c].ok && s.health[c].idle
  }

  /** `return_connection`. */
  function Return(s: State, c: ConnId): State {
    var t := WakeOldest(s.(aquired := s.aquired - 1));
    if Reusable(s, c) then t.(idle := t.idle + [c]) else t
  }

  function Without(s: seq<nat>, r: nat): seq<nat> {
    if s == [] then [] else if s[0] == r then s[1..] else [s[0]] + Without(s[1..], r)
  }

  /** A request to cancel one operation; a parked one is taken off the timer and woken. */
  function CancelOp(s: State, r: nat): State
    requires r < |s.requests|
  {
    var t := s.(requests := s.requests[r := s.requests[r].(cancelled := true)]);
    if s.requests[r].stage.Waiting? then SetStage(t, r, Woken).(waiters := Without(s.waiters, r)) else t
  }

  function Next(s: State, e: Event): State
    requires Enabled(s, e)
  {
    match e
    case Arrive => s.(requests := s.requests + [Request(Unstarted, false)])
    case Resume(r) => Segment(s, r)
    case ConnectDone(r, ok) =>
      var c := s.requests[r].stage.conn;
      Complete(s, r, Served(ok), Handle(true, Some(c))).(health := s.health[c := Health(ok, ok)])
    case PostDone(r) => Complete(s, r, Served(true), Handle(true, Some(s.requests[r].stage.conn)))
    case Cancel(r) => CancelOp(s, r)
    case SetMax(n) => WakeAll(s.(maxSize := n))
    case Destroy(h) =>
      var t := s.(handles := s.handles[h := Destroyed]);
      if s.handles[h].pool && s.handles[h].conn.Some? then Return(t, s.handles[h].conn.value) else t
    case Move(h) => s.(handles := s.handles[h := Handle(false, None)] + [s.handles[h]])
    case Swap(h, g) => s.(handles := s.handles[h := s.handles[g]][g := s.handles[h]])
    case Use(h, after) => s.(health := s.health[s.handles[h].conn.value := after])
  }

  // Counting

  function InFlight(r: Request): nat {
    if r.stage.Connecting? || r.stage.Posting? then 1 else 0
  }

  function IsWoken(r: Request): nat {
    if r.stage.Woken? then 1 else 0
  }

  function IsWaiting(r: Request): nat {
    if r.stage.Waiting? then 1 else 0
  }

  function Pooled(h: Handle): nat {
    if h.Handle? && h.pool then 1 else 0
  }

  /** `aquired_conns_` is the number of acquisitions in flight plus handles that will return. */
  ghost predicate Conserved(s: State) {
    s.aquired == Sum(s.requests, InFlight) + Sum(s.handles, Pooled)
  }

  /** While someone is parked, every free slot has a woken request on its way to it. */
  ghost predicate NoLostWakeup(s: State) {
    s.waiters != [] ==> s.maxSize - s.aquired <= Sum(s.requests, IsWoken)
  }

  /** The timer's queue holds each waiting request once, and nothing else. */
  ghost predicate QueueOk(s: State) {
    && (forall i | 0 <= i < |s.waiters| :: s.waiters[i] < |s.requests| && s.requests[s.waiters[i]].stage.Waiting?)
    && (forall i, j | 0 <= i < j < |s.waiters| :: s.waiters[i] != s.waiters[j])
    && Sum(s.requests, IsWaiting) == |s.waiters|
  }

  // Connections and their places

  datatype Place = InIdle(i: nat) | InRequest(r: nat) | InHandle(h: nat)

  function ConnAt(s: State, p: Place): Option<ConnId> {
    match p
    case InIdle(i) => if i < |s.idle| then Some(s.idle[i]) else None
    case InRequest(r) =>
      if r < |s.requests| && (s.requests[r].stage.Connecting? || s.requests[r].stage.Posting?)
      then Some(s.requests[r].stage.conn) else None
    case InHandle(h) => if Live(s, h) then s.handles[h].conn else None
  }

  /** No connection is in two places: not twice idle, not idle and leased, not leased twice. */
  ghost predicate Disjoint(s: State) {
    forall p, q :: ConnAt(s, p).Some? && ConnAt(s, p) == ConnAt(s, q) ==> p == q
  }

  /** A handle with a pool pointer has a connection, connections are numbered below `unused`,
      and every idle one was healthy when it was returned and is untouched since. */
  ghost predicate ConnsOk(s: State) {
    && (forall h | 0 <= h < |s.handles| && s.handles[h].Handle? && s.handles[h].pool :: s.handles[h].conn.Some?)
    && (forall p :: ConnAt(s, p).Some? ==> ConnAt(s, p).value < s.unused)
    && (forall i | 0 <= i < |s.idle| :: Reusable(s, s.idle[i]))
  }

  ghost predicate Inv(s: State) {
    Conserved(s) && NoLostWakeup(s) && QueueOk(s) && Disjoint(s) && ConnsOk(s)
  }

  // Each step keeps the invariant

  lemma StartInv(maxSize: nat, requests: nat)
    ensures Inv(Start(maxSize, requests))
  {
    var s := Start(maxSize, requests);
    SumZero(s.requests, InFlight);
    SumZero(s.requests, IsWoken);
    SumZero(s.requests, IsWaiting);
    SumZero(s.handles, Pooled);
    forall p ensures ConnAt(s, p) == None {}
  }

  lemma SetStageSums(s: State, r: nat, stage: Stage)
    requires r < |s.requests|
    ensures var t := SetStage(s, r, stage);
            && Sum(t.requests, InFlight) + InFlight(s.requests[r])
                == Sum(s.requests, InFlight) + InFlight(t.requests[r])
            && Sum(t.requests, IsWoken) + IsWoken(s.requests[r]) == Sum(s.requests, IsWoken) + IsWoken(t.requests[r])
            && Sum(t.requests, IsWaiting) + IsWaiting(s.requests[r])
                == Sum(s.requests, IsWaiting) + IsWaiting(t.requests[r])
  {
    hide Sum;
    var x := s.requests[r].(stage := stage);
    SumUpdate(s.requests, r, x, InFlight);
    SumUpdate(s.requests, r, x, IsWoken);
    SumUpdate(s.requests, r, x, IsWaiting);
  }

  lemma SegmentKeepsCounts(s: State, r: nat)
    requires Inv(s) && Enabled(s, Resume(r))
    ensures Conserved(Segment(s, r)) && NoLostWakeup(Segment(s, r))
  {
    hide Sum, QueueOk, Disjoint, ConnsOk;
    var t := Segment(s, r);
    SetStageSums(s, r, t.requests[r].stage);
    if |t.handles| > |s.handles| {
      SumAppend(s.handles, t.handles[|s.handles|], Pooled);
    }
  }

  lemma SegmentKeepsQueue(s: State, r: nat)
    requires QueueOk(s) && Enabled(s, Resume(r))
    ensures QueueOk(Segment(s, r))
  {
    hide Sum;
    var t := Segment(s, r);
    SetStageSums(s, r, t.requests[r].stage);
    assert r !in s.waiters;
    if t.waiters != s.waiters {
      assert t.waiters[|s.waiters|] == r;
    }
  }

  lemma SegmentKeepsConns(s: State, r: nat)
    requires Disjoint(s) && ConnsOk(s) && Enabled(s, Resume(r))
    ensures Disjoint(Segment(s, r)) && ConnsOk(Segment(s, r))
  {
    var t := Segment(s, r);
    SegmentOrigins(s, r);
    hide Segment, SetStage, Complete, Enabled, Reusable;
    assert s.idle != [] ==> ConnAt(s, InIdle(0)) == Some(s.idle[0]);
    forall p, q | ConnAt(t, p).Some? && ConnAt(t, p) == ConnAt(t, q) ensures p == q {
      assert SegmentOrigin(s, t, r, p) && SegmentOrigin(s, t, r, q);
    }
    forall p | ConnAt(t, p).Some? ensures ConnAt(t, p).value < t.unused {
      assert SegmentOrigin(s, t, r, p);
    }
  }

  lemma SegmentOrigins(s: State, r: nat)
    requires Enabled(s, Resume(r)) && ConnsOk(s)
    ensures var t := Segment(s, r);
            && (forall p :: SegmentOrigin(s, t, r, p))
            && (forall h | 0 <= h < |t.handles| && t.handles[h].Handle? && t.handles[h].pool :: t.handles[h].conn.Some?)
            && (forall i | 0 <= i < |t.idle| :: Reusable(t, t.idle[i]))
            && (if t.aquired > s.aquired && s.idle == [] then t.unused == s.unused + 1 else t.unused == s.unused)
  {
  }

  /** Where the connection at `p` after a segment was before it. */
  ghost predicate SegmentOrigin(s: State, t: State, r: nat, p: Place) {
    match p
    case InIdle(i) => ConnAt(t, p) == (if t.idle == s.idle then ConnAt(s, p) else ConnAt(s, InIdle(i + 1)))
    case InRequest(q) =>
      if q != r then ConnAt(t, p) == ConnAt(s, p)
      else if t.aquired == s.aquired then ConnAt(t, p) == None
      else if s.idle == [] then ConnAt(t, p) == Some(s.unused)
      else ConnAt(t, p) == ConnAt(s, InIdle(0))
    case InHandle(h) => ConnAt(t, p) == ConnAt(s, p)
  }

  lemma DoneKeepsCounts(s: State, e: Event)
    requires Inv(s) && Enabled(s, e) && (e.ConnectDone? || e.PostDone?)
    ensures Conserved(Next(s, e)) && NoLostWakeup(Next(s, e)) && QueueOk(Next(s, e))
  {
    hide Sum, Disjoint, ConnsOk;
    var t, r := Next(s, e), e.r;
    SetStageSums(s, r, t.requests[r].stage);
    SumAppend(s.handles, t.handles[|s.handles|], Pooled);
  }

  lemma DoneKeepsConns(s: State, e: Event)
    requires Disjoint(s) && ConnsOk(s) && Enabled(s, e) && (e.ConnectDone? || e.PostDone?)
    ensures Disjoint(Next(s, e)) && ConnsOk(Next(s, e))
  {
    var t, r := Next(s, e), e.r;
    var c := s.requests[r].stage.conn;
    assert ConnAt(s, InRequest(r)) == Some(c);
    forall i | 0 <= i < |t.idle| ensures Reusable(t, t.idle[i]) {
      assert ConnAt(s, InIdle(i)) == Some(s.idle[i]);
    }
    forall p ensures DoneOrigin(s, t, r, p) {}
    forall h | 0 <= h < |t.handles| && t.handles[h].Handle? && t.handles[h].pool ensures t.handles[h].conn.Some? {}
    hide Next, SetStage, Complete, Enabled;
    assert |t.idle| == |s.idle|;
    forall p, q | ConnAt(t, p).Some? && ConnAt(t, p) == ConnAt(t, q) ensures p == q {
      assert DoneOrigin(s, t, r, p) && DoneOrigin(s, t, r, q);
    }
    forall p | ConnAt(t, p).Some? ensures ConnAt(t, p).value < t.unused {
      assert DoneOrigin(s, t, r, p);
    }
  }

  ghost predicate DoneOrigin(s: State, t: State, r: nat, p: Place) {
    match p
    case InIdle(_) => ConnAt(t, p) == ConnAt(s, p)
    case InRequest(q) => ConnAt(t, p) == (if q == r then None else ConnAt(s, p))
    case InHandle(h) => ConnAt(t, p) == (if h == |s.handles| then ConnAt(s, InRequest(r)) else ConnAt(s, p))
  }

  /** Waking the oldest waiter adds one woken request if anyone is parked. */
  lemma WakeOldestCounts(s: State)
    requires QueueOk(s)
    ensures var t := WakeOldest(s);
            && Sum(t.requests, InFlight) == Sum(s.requests, InFlight)
            && Sum(t.requests, IsWoken) == Sum(s.requests, IsWoken) + (if s.waiters == [] then 0 else 1)
            && t == s.(waiters := t.waiters, requests := t.requests)
            && (t.waiters != [] ==> s.waiters != [])
  {
    hide Sum;
    if s.waiters != [] {
      SetStageSums(s, s.waiters[0], Woken);
    }
  }

  lemma WakeOldestQueue(s: State)
    requires QueueOk(s)
    ensures QueueOk(WakeOldest(s))
    ensures forall p :: ConnAt(WakeOldest(s), p) == ConnAt(s, p)
  {
    hide Sum;
    var t := WakeOldest(s);
    if s.waiters != [] {
      var r := s.waiters[0];
      SetStageSums(s, r, Woken);
      forall i | 0 <= i < |t.waiters|
        ensures t.waiters[i] < |t.requests| && t.requests[t.waiters[i]].stage.Waiting?
      {
        assert t.waiters[i] == s.waiters[i + 1] != r;
      }
      forall i, j | 0 <= i < j < |t.waiters| ensures t.waiters[i] != t.waiters[j] {
        assert t.waiters[i] == s.waiters[i + 1] && t.waiters[j] == s.waiters[j + 1];
      }
    }
  }

  lemma DestroyKeepsCounts(s: State, h: nat)
    requires Inv(s) && Live(s, h)
    ensures var t := Next(s, Destroy(h)); Conserved(t) && NoLostWakeup(t) && QueueOk(t)
    ensures s.handles[h].pool ==> Next(s, Destroy(h)).aquired == s.aquired - 1 >= 0
  {
    hide Sum, Disjoint, WakeOldest;
    SumUpdate(s.handles, h, Destroyed, Pooled);
    var u := s.(handles := s.handles[h := Destroyed]);
    if s.handles[h].pool {
      WakeOldestCounts(u.(aquired := u.aquired - 1));
      WakeOldestQueue(u.(aquired := u.aquired - 1));
    }
  }

  lemma DestroyKeepsConns(s: State, h: nat)
    requires Disjoint(s) && ConnsOk(s) && QueueOk(s) && Live(s, h)
    ensures var t := Next(s, Destroy(h)); Disjoint(t) && ConnsOk(t)
  {
    hide Sum;
    var t := Next(s, Destroy(h));
    DestroyOrigins(s, h);
    hide Next, Return, WakeOldest, QueueOk;
    assert t.health == s.health && t.unused == s.unused by { assert DestroyOrigin(s, t, h, InIdle(0)); }
    forall p, q | ConnAt(t, p).Some? && ConnAt(t, p) == ConnAt(t, q) ensures p == q {
      assert DestroyOrigin(s, t, h, p) && DestroyOrigin(s, t, h, q);
    }
    forall p | ConnAt(t, p).Some? ensures ConnAt(t, p).value < t.unused {
      assert DestroyOrigin(s, t, h, p);
    }
  }

  lemma DestroyOrigins(s: State, h: nat)
    requires QueueOk(s) && Live(s, h)
    requires forall i | 0 <= i < |s.idle| :: Reusable(s, s.idle[i])
    ensures var t := Next(s, Destroy(h));
            && (forall p :: DestroyOrigin(s, t, h, p))
            && (forall i | 0 <= i < |t.idle| :: Reusable(s, t.idle[i]))
            && t.handles == s.handles[h := Destroyed]
  {
    hide Sum, WakeOldest;
    var u := s.(handles := s.handles[h := Destroyed]);
    assert QueueOk(u.(aquired := u.aquired - 1));
    var w := u.(aquired := u.aquired - 1);
    WakeOldestCounts(w);
    WakeOldestQueue(w);
    hide QueueOk;
    var t := Next(s, Destroy(h));
    forall p ensures DestroyOrigin(s, t, h, p) {
      assert ConnAt(WakeOldest(w), p) == ConnAt(w, p) == ConnAt(u, p);
      assert ConnAt(u, p) == (if p == InHandle(h) then None else ConnAt(s, p));
      match p
      case InIdle(i) =>
      case InRequest(r) =>
      case InHandle(k) =>
    }
  }

  ghost predicate DestroyOrigin(s: State, t: State, h: nat, p: Place) {
    && ConnAt(t, p) == (if p == InIdle(|s.idle|) && |t.idle| > |s.idle| then ConnAt(s, InHandle(h))
                        else if p == InHandle(h) then None else ConnAt(s, p))
    && t.unused == s.unused && t.health == s.health
  }

  lemma {:induction false} WithoutKeeps(s: seq<nat>, r: nat)
    requires r in s && forall i, j | 0 <= i < j < |s| :: s[i] != s[j]
    ensures var t := Without(s, r);
            && |t| == |s| - 1
            && (forall i | 0 <= i < |t| :: t[i] in s && t[i] != r)
            && (forall i, j | 0 <= i < j < |t| :: t[i] != t[j])
  {
    if s[0] != r {
      WithoutKeeps(s[1..], r);
    }
  }

  lemma {:induction false} WithoutCuts(s: seq<nat>, r: nat) returns (i: nat)
    requires r in s
    ensures i < |s| && s[i] == r && Without(s, r) == s[..i] + s[i + 1..]
  {
    if s[0] == r {
      i := 0;
    } else {
      var k := WithoutCuts(s[1..], r);
      i := k + 1;
      assert [s[0]] + (s[1..][..k] + s[1..][k + 1..]) == s[..i] + s[i + 1..];
    }
  }

  lemma {:induction false} DistinctWaitersBound(requests: seq<Request>, q: seq<nat>)
    requires forall i | 0 <= i < |q| :: q[i] < |requests| && requests[q[i]].stage.Waiting?
    requires forall i, j | 0 <= i < j < |q| :: q[i] != q[j]
    ensures |q| <= Sum(requests, IsWaiting)
    decreases |q|
  {
    if q != [] {
      var r := q[|q| - 1];
      var x := requests[r].(stage := Woken);
      SumUpdate(requests, r, x, IsWaiting);
      DistinctWaitersBound(requests[r := x], q[..|q| - 1]);
    }
  }

  /** Every waiting request is in the timer's queue. */
  lemma ParkedIsQueued(s: State, r: nat)
    requires QueueOk(s) && r < |s.requests| && s.requests[r].stage.Waiting?
    ensures r in s.waiters
  {
    if r !in s.waiters {
      DistinctWaitersBound(s.requests, s.waiters + [r]);
    }
  }

  lemma CancelKeepsInv(s: State, r: nat)
    requires Inv(s) && Enabled(s, Cancel(r))
    ensures Inv(Next(s, Cancel(r)))
  {
    hide Sum;
    var t := Next(s, Cancel(r));
    var x := t.requests[r];
    assert t.requests == s.requests[r := x];
    SumUpdate(s.requests, r, x, InFlight);
    SumUpdate(s.requests, r, x, IsWoken);
    SumUpdate(s.requests, r, x, IsWaiting);
    if s.requests[r].stage.Waiting? {
      ParkedIsQueued(s, r);
      WithoutKeeps(s.waiters, r);
    }
    forall p ensures ConnAt(t, p) == ConnAt(s, p) {}
  }

  /** A cancelled operation that is not parked is only marked. A parked one leaves the queue,
      where the others keep their order, and runs: if the pool is full then it ends with an empty
      handle, and otherwise it takes the slot all the same. */
  lemma CancelTakesEffect(s: State, r: nat)
    requires Inv(s) && Enabled(s, Cancel(r))
    ensures var t := Next(s, Cancel(r));
            if !s.requests[r].stage.Waiting? then
              t == s.(requests := s.requests[r := Request(s.requests[r].stage, true)])
            else
              && t == s.(requests := s.requests[r := Request(Woken, true)], waiters := t.waiters)
              && (exists i | 0 <= i < |s.waiters| ::
                    s.waiters[i] == r && t.waiters == s.waiters[..i] + s.waiters[i + 1..])
              && Enabled(t, Resume(r))
              && var u := Next(t, Resume(r));
                 var stage := u.requests[r].stage;
                 if s.aquired < s.maxSize then (stage.Connecting? || stage.Posting?) && u.aquired == s.aquired + 1 else
                   && stage == Cancelled && u.handles == s.handles + [Handle(false, None)]
                   && u.aquired == s.aquired && u.waiters == t.waiters && u.idle == s.idle
  {
    hide Sum, Conserved, NoLostWakeup, Disjoint, ConnsOk;
    if s.requests[r].stage.Waiting? {
      ParkedIsQueued(s, r);
      var i := WithoutCuts(s.waiters, r);
    }
  }

  lemma {:induction false} WakeAllKeeps(s: State)
    requires QueueOk(s)
    ensures var t := WakeAll(s);
            && QueueOk(t) && t.waiters == []
            && Sum(t.requests, InFlight) == Sum(s.requests, InFlight)
            && t == s.(waiters := [], requests := t.requests)
            && (forall p :: ConnAt(t, p) == ConnAt(s, p))
    decreases |s.waiters|
  {
    hide Sum;
    if s.waiters != [] {
      var m := WakeOldest(s);
      WakeOldestCounts(s);
      WakeOldestQueue(s);
      assert |m.waiters| < |s.waiters|;
      hide WakeOldest, QueueOk;
      WakeAllKeeps(m);
      assert WakeAll(s) == WakeAll(m);
    }
  }

  /** Exactly those parked are woken. */
  lemma {:induction false} WakeAllWakes(s: State)
    requires QueueOk(s)
    ensures var t := WakeAll(s);
            && |t.requests| == |s.requests|
            && forall r | 0 <= r < |s.requests| :: t.requests[r] ==
                 (if r in s.waiters then Request(Woken, s.requests[r].cancelled) else s.requests[r])
    decreases |s.waiters|
  {
    hide QueueOk, WakeOldest, SetStage;
    if s.waiters != [] {
      WakeOldestQueue(s);
      WakeOldestIs(s);
      var m := WakeOldest(s);
      WakeAllWakes(m);
      assert s.waiters == [s.waiters[0]] + m.waiters;
    }
  }

  lemma WakeOldestIs(s: State)
    requires QueueOk(s) && s.waiters != []
    ensures var m, w := WakeOldest(s), s.waiters[0];
            && w < |s.requests| && m.waiters == s.waiters[1..] && w !in m.waiters
            && m.requests == s.requests[w := Request(Woken, s.requests[w].cancelled)]
  {
    hide Sum;
  }

  lemma SetMaxKeepsInv(s: State, n: nat)
    requires Inv(s)
    ensures Inv(Next(s, SetMax(n)))
  {
    hide Sum;
    var m := s.(maxSize := n);
    WakeAllKeeps(m);
    hide WakeAll;
    forall p ensures ConnAt(m, p) == ConnAt(s, p) {}
  }

  lemma ArriveKeepsInv(s: State)
    requires Inv(s)
    ensures Inv(Next(s, Arrive))
  {
    hide Sum;
    var t, x := Next(s, Arrive), Request(Unstarted, false);
    SumAppend(s.requests, x, InFlight);
    SumAppend(s.requests, x, IsWoken);
    SumAppend(s.requests, x, IsWaiting);
    forall p ensures ConnAt(t, p) == ConnAt(s, p) {}
  }

  lemma MoveKeepsInv(s: State, h: nat)
    requires Inv(s) && Live(s, h)
    ensures Inv(Next(s, Move(h)))
  {
    hide Sum;
    var t, empty := Next(s, Move(h)), Handle(false, None);
    SumUpdate(s.handles, h, empty, Pooled);
    SumAppend(s.handles[h := empty], s.handles[h], Pooled);
    forall p ensures ConnAt(t, p) ==
        if p == InHandle(h) then None else if p == InHandle(|s.handles|) then ConnAt(s, InHandle(h))
            else ConnAt(s, p) {}
  }

  lemma SwapKeepsInv(s: State, h: nat, g: nat)
    requires Inv(s) && Live(s, h) && Live(s, g)
    ensures Inv(Next(s, Swap(h, g)))
  {
    hide Sum;
    var t := Next(s, Swap(h, g));
    SumUpdate(s.handles, h, s.handles[g], Pooled);
    SumUpdate(s.handles[h := s.handles[g]], g, s.handles[h], Pooled);
    forall p ensures ConnAt(t, p) ==
        if p == InHandle(h) then ConnAt(s, InHandle(g)) else if p == InHandle(g) then ConnAt(s, InHandle(h))
            else ConnAt(s, p) {}
  }

  lemma UseKeepsInv(s: State, h: nat, after: Health)
    requires Inv(s) && Enabled(s, Use(h, after))
    ensures Inv(Next(s, Use(h, after)))
  {
    var t := Next(s, Use(h, after));
    forall p ensures ConnAt(t, p) == ConnAt(s, p) {}
    forall i | 0 <= i < |t.idle| ensures Reusable(t, t.idle[i]) {
      assert ConnAt(s, InIdle(i)) == Some(s.idle[i]) && ConnAt(s, InHandle(h)) == s.handles[h].conn;
    }
  }

  lemma StepKeepsInv(s: State, e: Event)
    requires Inv(s) && Enabled(s, e)
    ensures Inv(Next(s, e))
  {
    hide Sum, Conserved, NoLostWakeup, QueueOk, Disjoint, ConnsOk, WakeAll, CancelOp, Return, Complete;
    match e {
      case Arrive => ArriveKeepsInv(s);
      case Resume(r) =>
        SegmentKeepsCounts(s, r);
        SegmentKeepsQueue(s, r);
        SegmentKeepsConns(s, r);
      case ConnectDone(_, _) => DoneKeepsCounts(s, e); DoneKeepsConns(s, e);
      case PostDone(_) => DoneKeepsCounts(s, e); DoneKeepsConns(s, e);
      case Cancel(r) => CancelKeepsInv(s, r);
      case SetMax(n) => SetMaxKeepsInv(s, n);
      case Destroy(h) => DestroyKeepsCounts(s, h); DestroyKeepsConns(s, h);
      case Move(h) => MoveKeepsInv(s, h);
      case Swap(h, g) => SwapKeepsInv(s, h, g);
      case Use(h, after) => UseKeepsInv(s, h, after);
    }
  }
}
