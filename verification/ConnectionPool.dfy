/** The pool object: its fields, and one method for each thing that runs under its mutex. */
module ConnectionPool {
  import opened Types
  import opened PoolProtocol

  /** `requests` are the coroutine frames of the acquisitions, `waiters` the queue of the timer,
      and `handles` the pooled connections handed out; `health` is what libpq reports. */
  class Pool {
    var maxSize: nat
    var aquired: int
    var idle: seq<ConnId>
    var waiters: seq<nat>
    var requests: seq<Request>
    var handles: seq<Handle>
    var unused: ConnId
    var health: map<ConnId, Health>

    ghost function View(): State
      reads this
    {
      State(maxSize, aquired, idle, waiters, requests, handles, unused, health)
    }

    ghost predicate Valid()
      reads this
    {
      Inv(View())
    }

    constructor (limit: nat)
      ensures Valid() && View() == Start(limit, 0)
    {
      maxSize, aquired, idle, waiters := limit, 0, [], [];
      requests, handles, unused, health := [], [], 0, map[];
      new;
      StartInv(limit, 0);
      assert requests == Start(limit, 0).requests;
    }

    /** Starts an acquisition; the first segment runs at once. */
    method AsyncAquire() returns (r: nat)
      requires Valid()
      modifies this
      ensures Valid()
      ensures r == |old(requests)|
      ensures View() == Next(Next(old(View()), Arrive), Resume(r))
    {
      StepKeepsInv(View(), Arrive);
      r := |requests|;
      requests := requests + [Request(Unstarted, false)];
      Resumed(r);
    }

    /** The coroutine body from a resumption to the next yield. */
    method Resumed(r: nat)
      requires Valid() && Enabled(View(), Resume(r))
      modifies this
      ensures Valid() && View() == Next(old(View()), Resume(r))
      ensures maxSize == old(maxSize) && health == old(health)
      ensures |requests| == |old(requests)|
      ensures forall q | 0 <= q < |requests| && q != r :: requests[q] == old(requests)[q]
      ensures var stage := requests[r].stage;
              if old(aquired) >= maxSize then
                && aquired == old(aquired) && idle == old(idle)
                && (if old(requests)[r].cancelled then
                      stage == Cancelled && handles == old(handles) + [Handle(false, None)] && waiters == old(waiters)
                    else stage == Waiting && handles == old(handles) && waiters == old(waiters) + [r])
              else
                && aquired == old(aquired) + 1 && handles == old(handles) && waiters == old(waiters)
                && (if old(idle) == [] then stage == Connecting(old(unused)) && idle == [] && unused > old(unused)
                    else stage == Posting(old(idle)[0]) && idle == old(idle)[1..])
    {
      StepKeepsInv(View(), Resume(r));
      hide Inv;
      if aquired >= maxSize {
        ParkOrCancel(r);
      } else {
        TakeSlot(r);
      }
    }

    method ParkOrCancel(r: nat)
      requires r < |requests| && aquired >= maxSize
      modifies this
      ensures View() == Segment(old(View()), r)
    {
      if requests[r].cancelled {
        requests := requests[r := requests[r].(stage := Cancelled)];
        handles := handles + [Handle(false, None)];
      } else {
        requests := requests[r := requests[r].(stage := Waiting)];
        waiters := waiters + [r];
      }
    }

    /** Counts the acquisition, then connects or takes an idle connection. */
    method TakeSlot(r: nat)
      requires r < |requests| && aquired < maxSize
      modifies this
      ensures View() == Segment(old(View()), r)
    {
      aquired := aquired + 1;
      if idle == [] {
        requests := requests[r := requests[r].(stage := Connecting(unused))];
        unused := unused + 1;
      } else {
        requests := requests[r := requests[r].(stage := Posting(idle[0]))];
        idle := idle[1..];
      }
    }

    /** `async_connect` has finished; success or not, the handle carries the pool pointer. */
    method Connected(r: nat, ok: bool)
      requires Valid() && Enabled(View(), ConnectDone(r, ok))
      modifies this
      ensures Valid() && View() == Next(old(View()), ConnectDone(r, ok))
      ensures var c := old(requests)[r].stage.conn;
              && handles == old(handles) + [Handle(true, Some(c))] && requests[r].stage == Served(ok)
              && c in health && (health[c].ok <==> ok)
      ensures aquired == old(aquired) && idle == old(idle) && waiters == old(waiters)
    {
      StepKeepsInv(View(), ConnectDone(r, ok));
      hide Inv;
      var c := requests[r].stage.conn;
      health := health[c := Health(ok, ok)];
      requests := requests[r := requests[r].(stage := Served(ok))];
      handles := handles + [Handle(true, Some(c))];
    }

    method Posted(r: nat)
      requires Valid() && Enabled(View(), PostDone(r))
      modifies this
      ensures Valid() && View() == Next(old(View()), PostDone(r))
      ensures handles == old(handles) + [Handle(true, Some(old(requests)[r].stage.conn))]
      ensures requests[r].stage == Served(true)
      ensures aquired == old(aquired) && idle == old(idle) && waiters == old(waiters) && health == old(health)
    {
      StepKeepsInv(View(), PostDone(r));
      hide Inv;
      var c := requests[r].stage.conn;
      requests := requests[r := requests[r].(stage := Served(true))];
      handles := handles + [Handle(true, Some(c))];
    }

    method SetMaxSize(value: nat)
      requires Valid()
      modifies this
      ensures Valid() && View() == Next(old(View()), SetMax(value))
      ensures maxSize == value && waiters == [] && |requests| == |old(requests)|
      ensures forall r | 0 <= r < |requests| :: requests[r] ==
                (if r in old(waiters) then Request(Woken, old(requests)[r].cancelled) else old(requests)[r])
      ensures aquired == old(aquired) && idle == old(idle) && handles == old(handles) && health == old(health)
    {
      StepKeepsInv(View(), SetMax(value));
      WakeAllWakes(View().(maxSize := value));
      maxSize := value;
      ghost var goal := WakeAll(View());
      while waiters != []
        invariant QueueOk(View()) && WakeAll(View()) == goal
        invariant View() == old(View()).(maxSize := value, waiters := this.waiters, requests := requests)
        decreases |waiters|
      {
        WakeOldestQueue(View());
        CancelOne();
      }
    }

    /** `cv_.cancel_one()`. */
    method CancelOne()
      requires QueueOk(View())
      modifies this
      ensures View() == WakeOldest(old(View()))
      ensures if old(waiters) == [] then waiters == [] && requests == old(requests) else
                var r := old(waiters)[0];
                && waiters == old(waiters)[1..]
                && requests == old(requests)[r := Request(Woken, old(requests)[r].cancelled)]
    {
      if waiters != [] {
        requests := requests[waiters[0] := requests[waiters[0]].(stage := Woken)];
        waiters := waiters[1..];
      }
    }

    /** `~basic_pooled_connection`: a handle that still points to the pool returns its
        connection, once. */
    method DestroyHandle(h: nat)
      requires Valid() && Live(View(), h)
      modifies this
      ensures Valid() && View() == Next(old(View()), Destroy(h))
      ensures aquired == old(aquired) - (if old(handles)[h].pool then 1 else 0)
      ensures aquired >= 0
      ensures handles == old(handles)[h := Destroyed] && health == old(health) && maxSize == old(maxSize)
      ensures old(handles)[h].pool ==> old(handles)[h].conn.Some?
      ensures var handle := old(handles)[h];
              idle == old(idle) +
                (if handle.pool && handle.conn.value in health
                   && health[handle.conn.value].ok && health[handle.conn.value].idle
                 then [handle.conn.value] else [])
      ensures if !old(handles)[h].pool || old(waiters) == []
              then waiters == old(waiters) && requests == old(requests) else
                var r := old(waiters)[0];
                && waiters == old(waiters)[1..]
                && requests == old(requests)[r := Request(Woken, old(requests)[r].cancelled)]
    {
      StepKeepsInv(View(), Destroy(h));
      DestroyKeepsCounts(View(), h);
      var handle := handles[h];
      handles := handles[h := Destroyed];
      if handle.pool {
        assert QueueOk(View());
        ReturnConnection(handle.conn.value);
      }
    }

    /** `return_connection`. */
    method ReturnConnection(c: ConnId)
      requires QueueOk(View())
      modifies this
      ensures View() == Return(old(View()), c)
      ensures aquired == old(aquired) - 1 && health == old(health) && handles == old(handles)
      ensures idle == old(idle) + (if c in health && health[c].ok && health[c].idle then [c] else [])
      ensures if old(waiters) == [] then waiters == old(waiters) && requests == old(requests) else
                var r := old(waiters)[0];
                && waiters == old(waiters)[1..]
                && requests == old(requests)[r := Request(Woken, old(requests)[r].cancelled)]
    {
      aquired := aquired - 1;
      CancelOne();
      if c !in health || !health[c].ok {
        return;
      }
      if !health[c].idle {
        return;
      }
      idle := idle + [c];
    }

    /** Move construction leaves the source without pool pointer and connection. */
    method MoveHandle(h: nat) returns (g: nat)
      requires Valid() && Live(View(), h)
      modifies this
      ensures Valid() && View() == Next(old(View()), Move(h))
      ensures g == |old(handles)| && handles[g] == old(handles)[h]
      ensures handles[..g] == old(handles)[h := Handle(false, None)]
    {
      StepKeepsInv(View(), Move(h));
      g := |handles|;
      handles := handles[h := Handle(false, None)] + [handles[h]];
    }

    /** Move assignment swaps, so the target's old lease ends with the source. */
    method AssignHandle(h: nat, g: nat)
      requires Valid() && Live(View(), h) && Live(View(), g)
      modifies this
      ensures Valid() && View() == Next(old(View()), Swap(h, g))
      ensures handles[h] == old(handles)[g] && handles[g] == old(handles)[h] && |handles| == |old(handles)|
      ensures forall k | 0 <= k < |handles| && k != h && k != g :: handles[k] == old(handles)[k]
    {
      StepKeepsInv(View(), Swap(h, g));
      handles := handles[h := handles[g]][g := handles[h]];
    }
  }
}
