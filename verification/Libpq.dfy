/** The part of libpq the connection relies on: commands go out, replies come back in order.
    Pipeline mode is section 34.5 of the PostgreSQL 15 documentation. */
module Libpq {
  import opened Words
  import opened Types
  import opened OidResolution

  /** A command as the server receives it, its parameters copied out of the client's buffer. */
  datatype Command =
    | Query(text: string, types: seq<u32>, values: seq<seq<byte>>)
    | Prepared(name: string, values: seq<seq<byte>>)
    | OidQuery(names: seq<string>)

  datatype Status =
    | SingleTuple
    | TuplesOk
    | CommandOk
    | EmptyQuery
    | BadResponse
    | FatalError(sqlstate: Option<string>)
    | PipelineAborted
    | PipelineSync
    | OtherStatus

  /** What `PQgetResult` returns: a result, which remembers the command it answers, the
      synchronization point of a pipeline, or NULL. */
  datatype Reply = Null | Answer(command: Command, status: Status, rows: seq<OidPair>) | SyncPoint {
    function Status(): Status
      requires !Null?
    {
      if SyncPoint? then PipelineSync else status
    }
  }

  /** How the server would execute its `n`-th command, and its type catalog. */
  datatype Server = Server(exec: (nat, Command) -> Status, catalog: Catalog)

  /** The reply to the `n`-th command; after a failure in a pipeline it is not executed. */
  function AnswerTo(server: Server, n: nat, c: Command, aborted: bool): Reply {
    if aborted then Answer(c, PipelineAborted, [])
    else
      var status := server.exec(n, c);
      Answer(c, status, if c.OidQuery? && status.TuplesOk? then Rows(server.catalog, c.names) else [])
  }

  /** One of the commands has failed, so the rest of the pipeline is aborted. */
  function Aborted(server: Server, n: nat, cs: seq<Command>): bool {
    cs != [] && (Aborted(server, n, cs[..|cs| - 1]) || server.exec(n + |cs| - 1, cs[|cs| - 1]).FatalError?)
  }

  lemma {:induction false} AbortedIff(server: Server, n: nat, cs: seq<Command>)
    ensures Aborted(server, n, cs) <==> exists k | 0 <= k < |cs| :: server.exec(n + k, cs[k]).FatalError?
  {
    if cs != [] {
      var front := cs[..|cs| - 1];
      AbortedIff(server, n, front);
      forall k | 0 <= k < |front| ensures front[k] == cs[k] {}
    }
  }

  /** The result of command `i` of a pipeline whose first command is the server's `n`-th. */
  function ResultAt(server: Server, n: nat, cs: seq<Command>, i: nat): Reply
    requires i < |cs|
  {
    AnswerTo(server, n + i, cs[i], Aborted(server, n, cs[..i]))
  }

  function Results(server: Server, n: nat, cs: seq<Command>): (rs: seq<Reply>)
    ensures |rs| == |cs|
  {
    seq(|cs|, i requires 0 <= i < |cs| => ResultAt(server, n, cs, i))
  }

  /** All replies to a pipeline's commands, each result followed by NULL. */
  function Replies(server: Server, n: nat, cs: seq<Command>): (rs: seq<Reply>)
    ensures |rs| == 2 * |cs|
  {
    if cs == [] then []
    else Replies(server, n, cs[..|cs| - 1]) + [ResultAt(server, n, cs, |cs| - 1), Null]
  }

  lemma {:induction false} RepliesPair(server: Server, n: nat, cs: seq<Command>, i: nat)
    requires i < |cs|
    ensures Replies(server, n, cs)[2 * i] == ResultAt(server, n, cs, i)
    ensures Replies(server, n, cs)[2 * i + 1] == Null
  {
    if i < |cs| - 1 {
      var front := cs[..|cs| - 1];
      RepliesPair(server, n, front, i);
      assert front[..i] == cs[..i] && front[i] == cs[i];
    } else {
      assert cs[..|cs|] == cs;
    }
  }

  lemma ResultsAnswer(server: Server, n: nat, cs: seq<Command>)
    ensures forall r | r in Results(server, n, cs) :: r.Answer?
  {
  }

  /** Before the first failure every result has the status of its own execution. */
  lemma ExecutedStatus(server: Server, n: nat, cs: seq<Command>, j: nat)
    requires j < |cs| && forall l | 0 <= l < j :: !server.exec(n + l, cs[l]).FatalError?
    ensures !Aborted(server, n, cs[..j])
    ensures Results(server, n, cs)[j].status == server.exec(n + j, cs[j])
  {
    AbortedIff(server, n, cs[..j]);
    assert forall l | 0 <= l < j :: cs[..j][l] == cs[l];
  }

  lemma RepliesSnoc(server: Server, n: nat, cs: seq<Command>, c: Command)
    ensures Replies(server, n, cs + [c]) ==
            Replies(server, n, cs) + [AnswerTo(server, n + |cs|, c, Aborted(server, n, cs)), Null]
    ensures Aborted(server, n, cs + [c]) == (Aborted(server, n, cs) || server.exec(n + |cs|, c).FatalError?)
  {
    assert (cs + [c])[..|cs|] == cs;
  }

  lemma Append<T>(a: seq<T>, b: seq<T>, c: seq<T>)
    ensures a + b + c == a + (b + c)
  {
  }

  /** The connection to the server, seen from the client. Replies travel in `inTransit` until
      input is consumed, and are then `ready` for `PQgetResult`. */
  class Link {
    const server: Server
    var pipelined: bool
    var aborted: bool
    var sent: seq<Command>
    var inTransit: seq<Reply>
    var ready: seq<Reply>
    var received: nat

    constructor (server: Server)
      ensures this.server == server && Idle() && sent == [] && received == 0
    {
      this.server := server;
      pipelined, aborted, sent, inTransit, ready, received := false, false, [], [], [], 0;
    }

    /** The replies not yet fetched, oldest first. */
    function Pending(): seq<Reply>
      reads this
    {
      ready + inTransit
    }

    /** No reply is left behind, and the connection is not in pipeline mode. */
    predicate Idle()
      reads this
    {
      !pipelined && Pending() == []
    }

    /** Any `PQsend…` call: outside pipeline mode it fails while a reply is outstanding. */
    method Send(c: Command) returns (ok: bool)
      modifies this
      ensures ok <==> old(pipelined || Pending() == [])
      ensures !ok ==> unchanged(this)
      ensures ok ==>
                && sent == old(sent) + [c]
                && Pending() == old(Pending()) + [AnswerTo(server, |old(sent)|, c, old(pipelined && aborted)), Null]
                && aborted == (old(pipelined) && (old(aborted) || server.exec(|old(sent)|, c).FatalError?))
                && pipelined == old(pipelined) && received == old(received)
    {
      if !pipelined && ready + inTransit != [] {
        return false;
      }
      var failed := server.exec(|sent|, c).FatalError?;
      inTransit := inTransit + [AnswerTo(server, |sent|, c, pipelined && aborted), Null];
      aborted := pipelined && (aborted || failed);
      sent := sent + [c];
      ok := true;
      assert ready + inTransit == old(ready + inTransit) + [AnswerTo(server, |old(sent)|, c, old(pipelined
          && aborted)), Null];
    }

    /** `PQenterPipelineMode` refuses while a reply is outstanding. */
    method EnterPipelineMode() returns (ok: bool)
      modifies this
      ensures ok <==> old(pipelined || Pending() == [])
      ensures !ok ==> unchanged(this)
      ensures ok ==> pipelined && Pending() == old(Pending()) && sent == old(sent) && received == old(received)
      ensures ok && !old(pipelined) ==> !aborted
    {
      if !pipelined && ready + inTransit != [] {
        return false;
      }
      aborted := pipelined && aborted;
      pipelined := true;
      ok := true;
    }

    method PipelineSync() returns (ok: bool)
      modifies this
      ensures ok <==> old(pipelined)
      ensures !ok ==> unchanged(this)
      ensures ok ==> Pending() == old(Pending()) + [SyncPoint] && pipelined
      ensures ok ==> sent == old(sent) && received == old(received)
    {
      if !pipelined {
        return false;
      }
      inTransit := inTransit + [SyncPoint];
      aborted := false;
      ok := true;
      assert ready + inTransit == old(ready + inTransit) + [SyncPoint];
    }

    /** `PQexitPipelineMode` refuses while a result is uncollected. */
    method ExitPipelineMode() returns (ok: bool)
      modifies this
      ensures ok <==> old(Pending()) == []
      ensures !ok ==> unchanged(this)
      ensures ok ==> !pipelined && Pending() == [] && sent == old(sent) && received == old(received)
    {
      ok := ready + inTransit == [];
      if ok {
        pipelined := false;
      }
    }

    /** `PQconsumeInput` somewhere else, by the notification receiver on the same socket: any
        number of messages moves from the socket into libpq. */
    method Interfere()
      modifies this`inTransit, this`ready
      ensures Pending() == old(Pending()) && |ready| >= old(|ready|)
    {
      var k: nat :| k <= |inTransit|;
      ready, inTransit := ready + inTransit[..k], inTransit[k..];
      assert ready + inTransit == old(ready + inTransit);
    }

    /** Waits for the socket to be readable and consumes input: at least one message. */
    method WaitAndConsume()
      requires inTransit != []
      modifies this`inTransit, this`ready
      ensures Pending() == old(Pending()) && |inTransit| < |old(inTransit)|
    {
      var k: nat :| 1 <= k <= |inTransit|;
      ready, inTransit := ready + inTransit[..k], inTransit[k..];
      assert ready + inTransit == old(ready + inTransit);
    }

    predicate Busy()
      reads this
    {
      ready == [] && inTransit != []
    }

    /** `PQgetResult` when it does not block: the next reply, or NULL if none is due. */
    method GetResult() returns (r: Reply)
      requires !Busy()
      modifies this`ready, this`received
      ensures received == old(received) + 1
      ensures old(Pending()) == [] ==> r == Null && Pending() == []
      ensures old(Pending()) != [] ==> r == old(Pending())[0] && Pending() == old(Pending())[1..]
    {
      received := received + 1;
      if ready == [] {
        return Null;
      }
      r := ready[0];
      ready := ready[1..];
      assert ready + inTransit == old(ready + inTransit)[1..];
    }

    /** `async_receive_result`: waits as long as libpq is busy, or yields once. */
    method ReceiveResult() returns (r: Reply)
      modifies this`inTransit, this`ready, this`received
      ensures received == old(received) + 1
      ensures old(Pending()) == [] ==> r == Null && Pending() == []
      ensures old(Pending()) != [] ==> r == old(Pending())[0] && Pending() == old(Pending())[1..]
    {
      var reschedule := true;
      while Busy()
        invariant Pending() == old(Pending()) && received == old(received)
        decreases |inTransit|
      {
        reschedule := false;
        WaitAndConsume();
      }
      if reschedule {
        Interfere();
      }
      r := GetResult();
    }
  }
}
