/** The coroutines of one connection: queries, the OID query in front of them, pipelines. */
module Connection {
  import opened Words
  import opened Types
  import opened Buffers
  import opened Serialization
  import opened OidResolution
  import opened Libpq
  import SqlState

  datatype Error =
    | SqlStateError(value: int)
    | StatusBadResponse
    | StatusEmptyQuery
    | StatusFatalError
    | StatusPipelineAborted
    | StatusUnexpected
    | UnexpectedNonNull
    | EnterPipelineFailed
    | PipelineSyncFailed
    | ExitPipelineFailed
    | SendFailed
    | ExceptionInOperation
    | TypeDoesNotExist
    | OutOfRange

  /** `result_status_to_error_code`; an `error_code` of value 0 is no error. */
  function ErrorOf(status: Status): Option<Error> {
    match status
    case SingleTuple => None
    case TuplesOk => None
    case CommandOk => None
    case BadResponse => Some(StatusBadResponse)
    case EmptyQuery => Some(StatusEmptyQuery)
    case FatalError(Some(e)) =>
      if SqlState.Parse(e) == 0 then None else Some(SqlStateError(SqlState.Parse(e)))
    case FatalError(None) => Some(StatusFatalError)
    case PipelineAborted => Some(StatusPipelineAborted)
    case PipelineSync => Some(StatusUnexpected)
    case OtherStatus => Some(StatusUnexpected)
  }

  /** No error on success; the code for an SQLSTATE, which is five digits; and else its own error
      for each status. */
  lemma ErrorCodes(status: Status)
    ensures status in {SingleTuple, TuplesOk, CommandOk} ==> ErrorOf(status) == None
    ensures forall e | status == FatalError(Some(e)) && |e| == 5 && SqlState.AllDigits(e) ::
              ErrorOf(status) == if e == "00000" then None else Some(SqlStateError(SqlState.Number(e)))
    ensures status == FatalError(None) ==> ErrorOf(status) == Some(StatusFatalError)
    ensures status == BadResponse ==> ErrorOf(status) == Some(StatusBadResponse)
    ensures status == EmptyQuery ==> ErrorOf(status) == Some(StatusEmptyQuery)
    ensures status == PipelineAborted ==> ErrorOf(status) == Some(StatusPipelineAborted)
    ensures status in {PipelineSync, OtherStatus} ==> ErrorOf(status) == Some(StatusUnexpected)
  {
    forall e | status == FatalError(Some(e)) && |e| == 5 && SqlState.AllDigits(e)
      ensures ErrorOf(status) == if e == "00000" then None else Some(SqlStateError(SqlState.Number(e)))
    {
      SqlState.FiveDigits(e);
    }
  }

  /** What the client counts on: an executed command has an outcome of its own. */
  ghost predicate ServerOk(server: Server) {
    forall n, c :: server.exec(n, c) != PipelineAborted && server.exec(n, c) != PipelineSync
  }

  /** What an OID query with this status is to the client: an outcome other than rows has none,
      and it may still not be an error. */
  function ResponseOf(status: Status): Response {
    if status.TuplesOk? then Answered else if ErrorOf(status).Some? then Refused else NoRows
  }

  // Parameters

  ghost predicate Sendable(args: seq<Arg>) {
    ValidArgs(args) && forall i | 0 <= i < |args| :: SizeOf(args[i].t, args[i].v) < TWO_31
  }

  function Encodings(omp: OidMap, args: seq<Arg>): seq<seq<byte>>
    requires ValidArgs(args)
  {
    seq(|args|, i requires 0 <= i < |args| => Encode(omp, args[i].t, args[i].v))
  }

  function TypeOids(omp: OidMap, args: seq<Arg>): seq<u32> {
    seq(|args|, i requires 0 <= i < |args| => OidOf(omp, args[i].t))
  }

  function TypesOf(args: seq<Arg>): seq<Type> {
    seq(|args|, i requires 0 <= i < |args| => args[i].t)
  }

  /** A statement with its parameters: query text, or the name of a prepared statement. */
  datatype Statement = Statement(text: string, prepared: bool, args: seq<Arg>)

  function CommandOf(omp: OidMap, s: Statement): Command
    requires ValidArgs(s.args)
  {
    if s.prepared then Prepared(s.text, Encodings(omp, s.args))
    else Query(s.text, TypeOids(omp, s.args), Encodings(omp, s.args))
  }

  /** The command says which statement it is, and has each argument's encoding in its place. */
  lemma CommandCarries(omp: OidMap, s: Statement)
    requires ValidArgs(s.args)
    ensures var c := CommandOf(omp, s);
            && !c.OidQuery? && (c.Prepared? <==> s.prepared)
            && (if c.Prepared? then c.name else c.text) == s.text
            && |c.values| == |s.args|
            && (forall i | 0 <= i < |s.args| :: c.values[i] == Encode(omp, s.args[i].t, s.args[i].v))
            && (c.Query? ==>
                  |c.types| == |s.args| && forall i | 0 <= i < |s.args| :: c.types[i] == OidOf(omp, s.args[i].t))
  {
    hide Encode, HasType, OidOf;
  }

  /** Serializes the parameters into the shared buffer and sends the statement. libpq copies
      the values out through the pointers, which are still good: the command carries the
      encoding of each argument, whatever the buffer held before. */
  method SendStatement(link: Link, buffer: Buffer, omp: OidMap, s: Statement) returns (thrown: bool, ok: bool)
    requires buffer.Valid() && Sendable(s.args)
    modifies link, buffer
    ensures buffer.Valid()
    ensures thrown <==> !ArgsResolved(omp, s.args)
    ensures thrown || !ok ==> unchanged(link)
    ensures !thrown ==> (ok <==> old(link.pipelined || link.Pending() == []))
    ensures !thrown && ok ==>
              && link.sent == old(link.sent) + [CommandOf(omp, s)]
              && link.Pending() == old(link.Pending())
                 + [AnswerTo(link.server, |old(link.sent)|, CommandOf(omp, s), old(link.pipelined
                     && link.aborted)), Null]
              && link.aborted == (old(link.pipelined)
                 && (old(link.aborted) || link.server.exec(|old(link.sent)|, CommandOf(omp, s)).FatalError?))
              && link.pipelined == old(link.pipelined) && link.received == old(link.received)
    ensures !thrown && ok ==>
              var c := link.sent[|old(link.sent)|];
              && !c.OidQuery? && (c.Prepared? <==> s.prepared) && (if c.Prepared? then c.name else c.text) == s.text
              && |c.values| == |s.args|
              && (forall i | 0 <= i < |s.args| :: c.values[i] == Encode(omp, s.args[i].t, s.args[i].v))
              && (c.Query? ==>
                    |c.types| == |s.args| && forall i | 0 <= i < |s.args| :: c.types[i] == OidOf(omp, s.args[i].t))
  {
    CommandCarries(omp, s);
    var resolved, p := SerializeParams(buffer, omp, s.args);
    if !resolved {
      return true, false;
    }
    var values := CopyValues(buffer, omp, s.args, p);
    assert p.types == TypeOids(omp, s.args);
    var c := if s.prepared then Prepared(s.text, values) else Query(s.text, p.types, values);
    ok := link.Send(c);
    thrown := false;
  }

  method CopyValues(buffer: Buffer, omp: OidMap, args: seq<Arg>, p: Params) returns (values: seq<seq<byte>>)
    requires Sendable(args) && Tiled(omp, args, buffer.State(), p.values) && |p.lengths| == |args|
    requires forall i | 0 <= i < |args| :: p.lengths[i] == ToInt32(SizeOf(args[i].t, args[i].v))
    ensures values == Encodings(omp, args)
  {
    values := [];
    for i := 0 to |args|
      invariant |values| == i && forall j | 0 <= j < i :: values[j] == Encode(omp, args[j].t, args[j].v)
    {
      TiledReadable(buffer, omp, args, p.values, i);
      values := values + [buffer.Read(p.values[i], p.lengths[i])];
    }
  }

  // Pipelines

  /** A push, and whether the user's operation catches what it throws. */
  datatype Attempt = Attempt(statement: Statement, caught: bool)

  /** What the user's operation does: pushes in order, and perhaps an exception at the end. A
      push whose parameters need an unknown OID throws by itself, and ends the operation unless
      that is caught. */
  datatype Operation = Operation(pushes: seq<Attempt>, throws: bool)

  ghost predicate SendableAll(pushes: seq<Attempt>) {
    forall i | 0 <= i < |pushes| :: Sendable(pushes[i].statement.args)
  }

  ghost predicate Succeeds(omp: OidMap, a: Attempt)
    requires Sendable(a.statement.args)
  {
    ArgsResolved(omp, a.statement.args)
  }

  /** The commands of the pushes that succeed, up to the first exception not caught. */
  ghost function Pushed(omp: OidMap, pushes: seq<Attempt>): seq<Command>
    requires SendableAll(pushes)
  {
    if pushes == [] then []
    else if Succeeds(omp, pushes[0]) then [CommandOf(omp, pushes[0].statement)] + Pushed(omp, pushes[1..])
    else if pushes[0].caught then Pushed(omp, pushes[1..])
    else []
  }

  ghost predicate AllHandled(omp: OidMap, pushes: seq<Attempt>)
    requires SendableAll(pushes)
  {
    forall i | 0 <= i < |pushes| :: Succeeds(omp, pushes[i]) || pushes[i].caught
  }

  ghost predicate Throws(omp: OidMap, op: Operation)
    requires SendableAll(op.pushes)
  {
    op.throws || !AllHandled(omp, op.pushes)
  }

  lemma SendableTail(pushes: seq<Attempt>)
    requires SendableAll(pushes) && pushes != []
    ensures Sendable(pushes[0].statement.args) && SendableAll(pushes[1..])
    ensures ValidArgs(pushes[0].statement.args)
  {
    hide ValidArgs, SizeOf;
  }

  lemma ThrowsStep(omp: OidMap, op: Operation)
    requires SendableAll(op.pushes) && op.pushes != []
    requires SendableAll(op.pushes[1..]) && Sendable(op.pushes[0].statement.args)
    ensures Throws(omp, op) <==>
            || !(Succeeds(omp, op.pushes[0]) || op.pushes[0].caught)
            || Throws(omp, Operation(op.pushes[1..], op.throws))
  {
    hide Succeeds, Sendable;
    var pushes, tail := op.pushes, op.pushes[1..];
    if AllHandled(omp, pushes) {
      forall i | 0 <= i < |tail| ensures Succeeds(omp, tail[i]) || tail[i].caught {
        assert tail[i] == pushes[i + 1];
      }
    }
    if AllHandled(omp, tail) && (Succeeds(omp, pushes[0]) || pushes[0].caught) {
      forall i | 0 <= i < |pushes| ensures Succeeds(omp, pushes[i]) || pushes[i].caught {
        assert i > 0 ==> pushes[i] == tail[i - 1];
      }
    }
  }

  const ROLLBACK: Command := Query("ROLLBACK;", [], [])

  /** All commands of the pipeline. */
  ghost function PipelineCommands(omp: OidMap, op: Operation): seq<Command>
    requires SendableAll(op.pushes)
  {
    Pushed(omp, op.pushes) + (if Throws(omp, op) then [ROLLBACK] else [])
  }

  /** The code of the first result that has one. */
  function FirstError(rs: seq<Reply>): Option<Error>
    requires forall r | r in rs :: r.Answer?
  {
    if rs == [] then None
    else if ErrorOf(rs[0].status).Some? then ErrorOf(rs[0].status)
    else FirstError(rs[1..])
  }

  lemma {:induction false} FirstErrorIsLowest(rs: seq<Reply>, k: nat)
    requires forall r | r in rs :: r.Answer?
    requires k < |rs| && ErrorOf(rs[k].status).Some? && forall j | 0 <= j < k :: ErrorOf(rs[j].status).None?
    ensures FirstError(rs) == ErrorOf(rs[k].status)
  {
    if k > 0 {
      assert rs[1..][k - 1] == rs[k] && ErrorOf(rs[0].status).None?;
      forall j | 0 <= j < k - 1 ensures ErrorOf(rs[1..][j].status).None? {
        assert rs[1..][j] == rs[j + 1];
      }
      FirstErrorIsLowest(rs[1..], k - 1);
    }
  }

  lemma {:induction false} FirstErrorExists(rs: seq<Reply>) returns (k: nat)
    requires forall r | r in rs :: r.Answer?
    requires FirstError(rs).Some?
    ensures k < |rs| && ErrorOf(rs[k].status) == FirstError(rs) && forall j | 0 <= j < k :: ErrorOf(rs[j].status).None?
  {
    if ErrorOf(rs[0].status).Some? {
      k := 0;
    } else {
      var m := FirstErrorExists(rs[1..]);
      k := m + 1;
      forall j | 0 <= j < k ensures ErrorOf(rs[j].status).None? {
        assert j > 0 ==> rs[j] == rs[1..][j - 1];
      }
    }
  }

  /** What a pipeline reports: nothing if all commands went well, and else the SQLSTATE of the
      first that did not. */
  lemma PipelineCodes(server: Server, n: nat, cs: seq<Command>)
    ensures (forall k | 0 <= k < |cs| :: server.exec(n + k, cs[k]) in {SingleTuple, TuplesOk, CommandOk}) ==>
              && FirstError(Results(server, n, cs)) == None
              && forall k | 0 <= k < |cs| :: Results(server, n, cs)[k].status == server.exec(n + k, cs[k])
    ensures forall k, e |
              && 0 <= k < |cs| && server.exec(n + k, cs[k]) == FatalError(Some(e))
              && |e| == 5 && SqlState.AllDigits(e) && e != "00000"
              && (forall j | 0 <= j < k :: server.exec(n + j, cs[j]) in {SingleTuple, TuplesOk, CommandOk}) ::
              FirstError(Results(server, n, cs)) == Some(SqlStateError(SqlState.Number(e)))
  {
    hide ErrorOf, FirstError, ResultAt, Aborted, SqlState.AllDigits, SqlState.Number;
    ResultsAnswer(server, n, cs);
    if forall k | 0 <= k < |cs| :: server.exec(n + k, cs[k]) in {SingleTuple, TuplesOk, CommandOk} {
      AllWell(server, n, cs, |cs|);
      if FirstError(Results(server, n, cs)).Some? {
        var k := FirstErrorExists(Results(server, n, cs));
      }
    }
    forall k, e |
      && 0 <= k < |cs| && server.exec(n + k, cs[k]) == FatalError(Some(e))
      && |e| == 5 && SqlState.AllDigits(e) && e != "00000"
      && (forall j | 0 <= j < k :: server.exec(n + j, cs[j]) in {SingleTuple, TuplesOk, CommandOk})
      ensures FirstError(Results(server, n, cs)) == Some(SqlStateError(SqlState.Number(e)))
    {
      AllWell(server, n, cs, k);
      ExecutedStatus(server, n, cs, k);
      ErrorCodes(FatalError(Some(e)));
      FirstErrorIsLowest(Results(server, n, cs), k);
    }
  }

  /** The error of a pipeline as its results show it: none if all are well, and else the SQLSTATE
      of the first that is not. */
  lemma FirstErrorCodes(rs: seq<Reply>)
    requires forall r | r in rs :: r.Answer?
    ensures FirstError(rs) != Some(ExceptionInOperation)
    ensures (forall r | r in rs :: r.status in {SingleTuple, TuplesOk, CommandOk}) ==> FirstError(rs) == None
    ensures forall k, e |
              && 0 <= k < |rs| && rs[k].status == FatalError(Some(e))
              && |e| == 5 && SqlState.AllDigits(e) && e != "00000"
              && (forall r | r in rs[..k] :: r.status in {SingleTuple, TuplesOk, CommandOk}) ::
              FirstError(rs) == Some(SqlStateError(SqlState.Number(e)))
  {
    hide ErrorOf, FirstError, SqlState.AllDigits, SqlState.Number;
    if FirstError(rs).Some? {
      var k := FirstErrorExists(rs);
      NoException(rs[k].status);
      ErrorCodes(rs[k].status);
    }
    forall k, e |
      && 0 <= k < |rs| && rs[k].status == FatalError(Some(e))
      && |e| == 5 && SqlState.AllDigits(e) && e != "00000"
      && (forall r | r in rs[..k] :: r.status in {SingleTuple, TuplesOk, CommandOk})
      ensures FirstError(rs) == Some(SqlStateError(SqlState.Number(e)))
    {
      forall j | 0 <= j < k ensures ErrorOf(rs[j].status).None? {
        assert rs[j] in rs[..k];
        ErrorCodes(rs[j].status);
      }
      ErrorCodes(rs[k].status);
      FirstErrorIsLowest(rs, k);
    }
  }

  lemma NoException(status: Status)
    ensures ErrorOf(status) != Some(ExceptionInOperation)
  {
    hide SqlState.Parse;
  }

  lemma AllWell(server: Server, n: nat, cs: seq<Command>, k: nat)
    requires k <= |cs|
    requires forall j | 0 <= j < k :: server.exec(n + j, cs[j]) in {SingleTuple, TuplesOk, CommandOk}
    ensures forall j | 0 <= j < k ::
              && Results(server, n, cs)[j].status == server.exec(n + j, cs[j])
              && ErrorOf(Results(server, n, cs)[j].status) == None
  {
    forall j | 0 <= j < k
      ensures Results(server, n, cs)[j].status == server.exec(n + j, cs[j])
      ensures ErrorOf(server.exec(n + j, cs[j])) == None
    {
      ExecutedStatus(server, n, cs, j);
      ErrorCodes(server.exec(n + j, cs[j]));
    }
  }

  lemma ThrowsIff(omp: OidMap, op: Operation)
    requires SendableAll(op.pushes)
    ensures Throws(omp, op) <==>
            op.throws || exists i | 0 <= i < |op.pushes| ::
              !op.pushes[i].caught && !ArgsResolved(omp, op.pushes[i].statement.args)
    ensures var cs := PipelineCommands(omp, op);
            Throws(omp, op) ==> cs != [] && cs[|cs| - 1] == Query("ROLLBACK;", [], [])
  {
    hide Pushed, ArgsResolved, Sendable;
  }

  class Pipeline {
    const link: Link
    const buffer: Buffer
    const omp: OidMap
    var index: nat

    constructor (link: Link, buffer: Buffer, omp: OidMap)
      ensures this.link == link && this.buffer == buffer && this.omp == omp && index == 0
    {
      this.link, this.buffer, this.omp, index := link, buffer, omp, 0;
    }

    /** `push_query` and `push_query_prepared`: returns the slot its result will be in. */
    method Push(s: Statement) returns (thrown: bool, slot: nat)
      requires buffer.Valid() && Sendable(s.args) && link.pipelined
      modifies this, link, buffer
      ensures buffer.Valid() && link.pipelined && link.received == old(link.received)
      ensures thrown <==> !ArgsResolved(omp, s.args)
      ensures thrown ==> unchanged(link) && index == old(index)
      ensures !thrown ==>
                && slot == old(index) && index == old(index) + 1
                && link.sent == old(link.sent) + [CommandOf(omp, s)]
                && link.Pending() == old(link.Pending())
                   + [AnswerTo(link.server, |old(link.sent)|, CommandOf(omp, s), old(link.aborted)), Null]
                && link.aborted == (old(link.aborted)
                   || link.server.exec(|old(link.sent)|, CommandOf(omp, s)).FatalError?)
      ensures !thrown ==>
                var c := link.sent[|old(link.sent)|];
                && !c.OidQuery? && (c.Prepared? <==> s.prepared) && (if c.Prepared? then c.name else c.text) == s.text
                && |c.values| == |s.args|
                && (forall i | 0 <= i < |s.args| :: c.values[i] == Encode(omp, s.args[i].t, s.args[i].v))
                && (c.Query? ==>
                      |c.types| == |s.args| && forall i | 0 <= i < |s.args| :: c.types[i] == OidOf(omp, s.args[i].t))
    {
      var ok;
      thrown, ok := SendStatement(link, buffer, omp, s);
      slot := index;
      if !thrown {
        index := index + 1;
      }
    }

    /** The operation runs. Afterwards the replies on their way are those of the commands
        pushed since the pipeline began, in order. */
    method Operate(op: Operation, ghost n: nat, ghost done: seq<Command>) returns (thrown: bool)
      requires buffer.Valid() && SendableAll(op.pushes) && link.pipelined
      requires index == |done| && |link.sent| == n + |done|
      requires link.Pending() == Replies(link.server, n, done) && link.aborted == Aborted(link.server, n, done)
      modifies this, link, buffer
      ensures buffer.Valid() && link.pipelined && link.received == old(link.received)
      ensures thrown <==> Throws(omp, op)
      ensures var all := done + Pushed(omp, op.pushes);
              && index == |all| && |link.sent| == n + |all|
              && link.sent == old(link.sent) + Pushed(omp, op.pushes)
              && link.Pending() == Replies(link.server, n, all) && link.aborted == Aborted(link.server, n, all)
      decreases |op.pushes|
    {
      hide ArgsResolved, CommandOf, Replies, Aborted, Sendable, SendableAll, AnswerTo, Throws;
      if op.pushes == [] {
        assert done + [] == done && link.sent + [] == link.sent;
        NoPushes(omp, op);
        return op.throws;
      }
      SendableTail(op.pushes);
      var first, rest := op.pushes[0], Operation(op.pushes[1..], op.throws);
      ThrowsStep(omp, op);
      var slot;
      thrown, slot := Push(first.statement);
      if thrown {
        if first.caught {
          thrown := Operate(rest, n, done);
          return;
        }
        assert done + [] == done && link.sent + [] == link.sent;
        return;
      }
      ghost var c := CommandOf(omp, first.statement);
      RepliesSnoc(link.server, n, done, c);
      thrown := Operate(rest, n, done + [c]);
      Append(done, [c], Pushed(omp, rest.pushes));
      Append(old(link.sent), [c], Pushed(omp, rest.pushes));
    }

    lemma NoPushes(omp: OidMap, op: Operation)
      requires SendableAll(op.pushes) && op.pushes == []
      ensures Throws(omp, op) <==> op.throws
    {
    }

    /** The operation with the handler around it: after an exception a rollback is pushed. */
    method Perform(op: Operation) returns (thrown: bool)
      requires buffer.Valid() && SendableAll(op.pushes) && link.pipelined
      requires index == 0 && link.Pending() == [] && !link.aborted
      modifies this, link, buffer
      ensures buffer.Valid() && link.pipelined && link.received == old(link.received)
      ensures thrown <==> Throws(omp, op)
      ensures var n, cs := |old(link.sent)|, PipelineCommands(omp, op);
              index == |cs| && link.sent == old(link.sent) + cs && link.Pending() == Replies(link.server, n, cs)
    {
      ghost var n, pushed := |link.sent|, Pushed(omp, op.pushes);
      assert Replies(link.server, n, []) == [] && !Aborted(link.server, n, []);
      hide Pushed, Throws, SendableAll, Replies, Aborted, AnswerTo, ResultAt, CommandOf, ArgsResolved, Link.Idle;
      ghost var cs := PipelineCommands(omp, op);
      assert cs == pushed + (if Throws(omp, op) then [ROLLBACK] else []);
      thrown := Operate(op, n, []);
      assert [] + pushed == pushed;
      hide PipelineCommands;
      if thrown {
        assert link.sent == old(link.sent) + pushed;
        PushRollback(n, pushed);
        assert cs == pushed + [ROLLBACK];
        Append(old(link.sent), pushed, [ROLLBACK]);
      } else {
        assert cs == pushed;
      }
    }

    method PushRollback(ghost n: nat, ghost done: seq<Command>)
      requires buffer.Valid() && link.pipelined
      requires index == |done| && |link.sent| == n + |done|
      requires link.Pending() == Replies(link.server, n, done) && link.aborted == Aborted(link.server, n, done)
      modifies this, link, buffer
      ensures buffer.Valid() && link.pipelined && link.received == old(link.received)
      ensures index == |done| + 1 && link.sent == old(link.sent) + [ROLLBACK]
      ensures link.Pending() == Replies(link.server, n, done + [ROLLBACK])
    {
      hide *;
      RepliesSnoc(link.server, n, done, ROLLBACK);
      RollbackIsSendable(omp);
      var _, _ := Push(Rollback());
    }
  }

  // The connection

  class BasicConnection {
    const link: Link
    const buffer: Buffer
    var oidMap: OidMap
    var newUdts: seq<UdtPair>
    var wakeUps: nat  // `notification_cs_->emit` calls

    constructor (server: Server)
      ensures fresh(link) && fresh(buffer) && buffer.Valid() && link.Idle() && link.server == server
      ensures Oids() == START && link.sent == [] && wakeUps == 0
    {
      link := new Link(server);
      buffer := new Buffer();
      oidMap, newUdts, wakeUps := map[], [], 0;
    }

    ghost function Oids(): OidState
      reads this
    {
      OidState(oidMap, newUdts)
    }

    /** `async_exec_pipeline`. Whatever the operation does, exactly the replies to its commands
        and the synchronization point are fetched, and the connection is left idle. */
    method ExecPipeline(op: Operation) returns (ec: Option<Error>, results: seq<Reply>)
      requires buffer.Valid() && SendableAll(op.pushes) && link.Idle()
      modifies this`wakeUps, link, buffer
      ensures buffer.Valid() && link.Idle() && wakeUps == old(wakeUps) + 1
      ensures var cs := PipelineCommands(oidMap, op);
              && link.sent == old(link.sent) + cs
              && link.received == old(link.received) + 2 * |cs| + 1
              && (if Throws(oidMap, op) then ec == Some(ExceptionInOperation) && results == []
                  else results == Results(link.server, |old(link.sent)|, cs) && ec == FirstError(results))
      ensures ec == Some(ExceptionInOperation) <==>
              op.throws || exists i | 0 <= i < |op.pushes| ::
                !op.pushes[i].caught && !ArgsResolved(oidMap, op.pushes[i].statement.args)
      ensures ec == Some(ExceptionInOperation) ==>
                |link.sent| > |old(link.sent)| && link.sent[|link.sent| - 1] == Query("ROLLBACK;", [], [])
      ensures ec != Some(ExceptionInOperation) ==>
                (forall r | r in results :: r.Answer? && r.status in {SingleTuple, TuplesOk, CommandOk}) ==> ec == None
      ensures forall k, e |
                && 0 <= k < |results| && results[k].Answer? && results[k].status == FatalError(Some(e))
                && |e| == 5 && SqlState.AllDigits(e) && e != "00000"
                && (forall r | r in results[..k] :: r.Answer? && r.status in {SingleTuple, TuplesOk, CommandOk}) ::
                ec == Some(SqlStateError(SqlState.Number(e)))
    {
      ghost var n, cs := |link.sent|, PipelineCommands(oidMap, op);
      hide PipelineCommands, Throws, Replies, Results, SendableAll, ErrorOf, FirstError, ArgsResolved,
        SqlState.AllDigits, SqlState.Number;
      ThrowsIff(oidMap, op);
      var size, thrown := SendPipeline(op);
      link.Interfere();
      ec, results := Drain(size, n, cs);
      var exited := link.ExitPipelineMode();
      wakeUps := wakeUps + 1;
      if thrown {
        ec, results := Some(ExceptionInOperation), [];
      } else {
        assert results == Results(link.server, n, cs);
        ec := ComputeFirstError(results);
        FirstErrorCodes(results);
      }
    }

    /** Enters pipeline mode, runs the operation, rolls back if it threw, and synchronizes. */
    method SendPipeline(op: Operation) returns (size: nat, thrown: bool)
      requires buffer.Valid() && SendableAll(op.pushes) && link.Idle()
      modifies link, buffer
      ensures buffer.Valid() && link.pipelined && link.received == old(link.received)
      ensures thrown <==> Throws(oidMap, op)
      ensures var n, cs := |old(link.sent)|, PipelineCommands(oidMap, op);
              && size == |cs| && link.sent == old(link.sent) + cs
              && link.Pending() == Replies(link.server, n, cs) + [SyncPoint]
    {
      hide Replies, PipelineCommands, Throws;
      var entered := link.EnterPipelineMode();
      var pipeline := new Pipeline(link, buffer, oidMap);
      thrown := pipeline.Perform(op);
      size := pipeline.index;
      var synced := link.PipelineSync();
    }

    /** Fetches result, NULL, result, NULL, …, and the synchronization point. */
    method Drain(size: nat, ghost n: nat, ghost cs: seq<Command>) returns (ec: Option<Error>, results: seq<Reply>)
      requires size == |cs| && link.Pending() == Replies(link.server, n, cs) + [SyncPoint]
      modifies link`inTransit, link`ready, link`received
      ensures ec == None && results == Results(link.server, n, cs)
      ensures link.Pending() == [] && link.received == old(link.received) + 2 * size + 1
    {
      hide ResultAt;
      ghost var all := Replies(link.server, n, cs) + [SyncPoint];
      results := [];
      for index := 0 to size
        invariant |results| == index && forall j | 0 <= j < index :: results[j] == ResultAt(link.server, n, cs, j)
        invariant link.Pending() == all[2 * index..] && link.received == old(link.received) + 2 * index
      {
        RepliesPair(link.server, n, cs, index);
        assert all[2 * index] == ResultAt(link.server, n, cs, index) && all[2 * index + 1] == Null;
        var result := link.ReceiveResult();
        results := results + [result];
        var next := link.ReceiveResult();
        if next != Null {
          return Some(UnexpectedNonNull), [];
        }
      }
      var sync := link.ReceiveResult();
      assert sync == SyncPoint;
      if sync.Status() != PipelineSync {
        return Some(StatusUnexpected), [];
      }
      ec := None;
    }

    method ComputeFirstError(rs: seq<Reply>) returns (ec: Option<Error>)
      requires forall r | r in rs :: r.Answer?
      ensures ec == FirstError(rs)
    {
      for i := 0 to |rs|
        invariant FirstError(rs) == FirstError(rs[i..])
      {
        ec := ErrorOf(rs[i].status);
        if ec.Some? {
          return;
        }
        assert rs[i..][1..] == rs[i + 1..];
      }
      ec := None;
    }

    /** `async_generic_single_result_query`: one result and the NULL after it. */
    method SingleResult() returns (ec: Option<Error>, result: Reply)
      requires !link.pipelined && |link.Pending()| == 2 && link.Pending()[0].Answer? && link.Pending()[1] == Null
      modifies this`wakeUps, link`inTransit, link`ready, link`received
      ensures link.Idle() && wakeUps == old(wakeUps) + 1 && link.received == old(link.received) + 2
      ensures result == old(link.Pending())[0] && ec == ErrorOf(result.status)
      ensures result.status in {SingleTuple, TuplesOk, CommandOk} ==> ec == None
      ensures result.status.FatalError? && result.status.sqlstate.Some? ==>
                var e := result.status.sqlstate.value;
                |e| == 5 && SqlState.AllDigits(e) && e != "00000" ==> ec == Some(SqlStateError(SqlState.Number(e)))
    {
      hide ErrorOf, SqlState.AllDigits, SqlState.Number;
      link.Interfere();
      result := link.ReceiveResult();
      var next := link.ReceiveResult();
      if next != Null {
        return Some(UnexpectedNonNull), Null;
      }
      wakeUps := wakeUps + 1;
      ErrorCodes(result.status);
      ec := ErrorOf(result.status);
    }

    /** `extract_new_udts`, pushing into `new_udts_`. */
    method ExtractNewUdts(t: Type)
      modifies this`newUdts
      ensures newUdts == old(newUdts) + Extracted(t, oidMap)
      decreases t, 0
    {
      match t
      case Array(e) => ExtractNewUdts(e);
      case Udt(id, name, ms, _) =>
        if id !in oidMap {
          newUdts := newUdts + [UdtPair(name, id)];
        }
        ghost var mid := newUdts;
        ExtractFromAll(ms);
        assert newUdts == old(newUdts) + ((if id in oidMap then []
            else [UdtPair(name, id)]) + ExtractedAll(ms, oidMap));
      case Tuple(ms) => ExtractFromAll(ms);
      case _ =>
    }

    method ExtractFromAll(ts: seq<Type>)
      modifies this`newUdts
      ensures newUdts == old(newUdts) + ExtractedAll(ts, oidMap)
      decreases ts, 1
    {
      if ts != [] {
        ExtractNewUdts(ts[0]);
        ExtractFromAll(ts[1..]);
        assert newUdts == old(newUdts) + (Extracted(ts[0], oidMap) + ExtractedAll(ts[1..], oidMap));
      }
    }

    /** `async_query_oids`: one row per name comes back, in order; each is added to the map
        unless it is known already, up to the first that was not found. */
    method QueryOids() returns (ec: Option<Error>)
      requires link.Idle()
      modifies this`oidMap, this`wakeUps, link
      ensures link.Idle() && link.sent == old(link.sent) + [OidQuery(Names(newUdts))] && wakeUps == old(wakeUps) + 1
      ensures var status := link.server.exec(|old(link.sent)|, OidQuery(Names(newUdts)));
              var rows := RowsFor(link.server.catalog, newUdts);
              match ResponseOf(status)
              case Answered =>
                && oidMap == Emplaced(old(oidMap), newUdts, rows)
                && ec == (if AllFound(rows) then None else Some(TypeDoesNotExist))
              case Refused => oidMap == old(oidMap) && ec == ErrorOf(status)
              case NoRows => oidMap == old(oidMap) && ec == None
      ensures var catalog := link.server.catalog;
              link.server.exec(|old(link.sent)|, OidQuery(Names(newUdts))).TuplesOk? ==>
                ec == if forall i | 0 <= i < |newUdts| ::
                  && newUdts[i].name in catalog && catalog[newUdts[i].name] != 0xFFFF_FFFF
                  && newUdts[i].name + "[]" in catalog && catalog[newUdts[i].name + "[]"] != 0xFFFF_FFFF
                then None else Some(TypeDoesNotExist)
    {
      AllListed(link.server.catalog, newUdts);
      hide AllFound, Emplaced, SqlState.AllDigits, SqlState.Number, Found, RowFor;
      var command := OidQuery(Names(newUdts));
      var sent := link.Send(command);
      var result;
      ec, result := SingleResult();
      if ec.Some? {
        return;
      }
      assert result.status.TuplesOk? ==>
          result.rows == RowsFor(link.server.catalog, newUdts) && newUdts[..|newUdts|] == newUdts;
      ec := LoadRows(result.rows);
    }

    method LoadRows(rows: seq<OidPair>) returns (ec: Option<Error>)
      requires |rows| <= |newUdts|
      modifies this`oidMap
      ensures oidMap == Emplaced(old(oidMap), newUdts[..|rows|], rows)
      ensures ec == if AllFound(rows) then None else Some(TypeDoesNotExist)
      ensures ec == if forall i | 0 <= i < |rows| :: rows[i].single != 0xFFFF_FFFF && rows[i].arr != 0xFFFF_FFFF
                then None else Some(TypeDoesNotExist)
    {
      ghost var udts := newUdts[..|rows|];
      for i := 0 to |rows|
        invariant AllFound(rows[..i])
        invariant Emplaced(oidMap, udts[i..], rows[i..]) == Emplaced(old(oidMap), udts, rows)
      {
        assert rows[i..][1..] == rows[i + 1..] && udts[i..][1..] == udts[i + 1..] && udts[i] == newUdts[i];
        if !Found(rows[i]) {
          return Some(TypeDoesNotExist);
        }
        oidMap := Emplace(oidMap, newUdts[i].id, rows[i]);
      }
      assert rows[..|rows|] == rows;
      ec := None;
    }

    /** `async_query` and `async_query_prepared`. The OID state moves as `Ask` says, whatever
        happens; the statement is sent exactly when no lookup failed and serializing it does
        not throw, and the result handed over is the reply to this very statement. Serializing
        throws only after a lookup whose failure was taken for success. The receiver is
        signalled once for each command sent, also when one ends with an SQL error. */
    method AsyncQuery(s: Statement, ghost names: map<TypeIndex, string>)
      returns (thrown: bool, ec: Option<Error>, result: Reply)
      requires buffer.Valid() && link.Idle() && Sendable(s.args)
      requires Sound(link.server.catalog, names, oidMap) && Named(names, newUdts) && Declared(names, TypesOf(s.args))
      modifies this, link, buffer
      ensures buffer.Valid() && link.Idle()
      ensures Sound(link.server.catalog, names, oidMap) && Named(names, newUdts)
      ensures Queried(link.server, s, old(Oids()), Oids(), old(link.sent), link.sent, thrown, ec, result)
      ensures wakeUps - old(wakeUps) == |link.sent| - |old(link.sent)| >= 1
      ensures var n := |link.sent| - 1;
              var c, status := link.sent[n], link.server.exec(n, link.sent[n]);
              if c.OidQuery? then result == Null && (status.TuplesOk? ==> ec == Some(TypeDoesNotExist)) else
                && !thrown && result.Answer? && result.command == c && result.status == status
                && (status in {SingleTuple, TuplesOk, CommandOk} ==> ec == None)
      ensures var n := |link.sent| - 1;
              var status := link.server.exec(n, link.sent[n]);
              status.FatalError? && status.sqlstate.Some? ==>
                var e := status.sqlstate.value;
                |e| == 5 && SqlState.AllDigits(e) && e != "00000" ==> ec == Some(SqlStateError(SqlState.Number(e)))
      ensures var c := link.sent[|link.sent| - 1];
              !c.OidQuery? ==>
                && (c.Prepared? <==> s.prepared) && (if c.Prepared? then c.name else c.text) == s.text
                && |c.values| == |s.args|
                && forall i | 0 <= i < |s.args| :: c.values[i] == Encode(oidMap, s.args[i].t, s.args[i].v)
      ensures var c, catalog := link.sent[|link.sent| - 1], link.server.catalog;
              c.Query? ==> |c.types| == |s.args| && forall i | 0 <= i < |s.args| ::
                var t := s.args[i].t;
                && (t.Udt? ==> t.name in catalog && c.types[i] == catalog[t.name])
                && (t.Array? && t.elem.Udt? ==>
                      t.elem.name + "[]" in catalog && c.types[i] == catalog[t.elem.name + "[]"])
    {
      hide Ask, StepFor, Sound, Named, Declared, ErrorOf, Covers, Sendable, CommandOf, ArgsResolved, Queried, Encode,
        OidOf, AnswerTo, HasType, ValidArgs, SqlState.AllDigits, SqlState.Number, Link.Idle, Names, TypesOf;
      ghost var before := Oids();
      ec := ResolveTypes(s);
      ghost var mid, lookup := link.sent, ec;
      if ec.Some? {
        thrown, result := false, Null;
      } else {
        thrown, ec, result := SendAndReceive(s);
      }
      QueryEnds(link.server, names, s, before, Oids(), old(link.sent), mid, link.sent, lookup, thrown, ec, result);
      QueryShows(link.server, names, s, before, Oids(), old(link.sent), link.sent, thrown, ec, result);
    }

    /** Extraction over the parameter types, and the OID query if any type is listed. */
    method ResolveTypes(s: Statement) returns (ec: Option<Error>)
      requires link.Idle()
      modifies this, link
      ensures link.Idle()
      ensures var n := |old(link.sent)|;
              var (next, lookup) := Ask(link.server.catalog, old(Oids()), StepFor(link.server, s, old(Oids()), n));
              var oids := OidQuery(Names(next.udts));
              && Oids() == next
              && link.sent == old(link.sent) + (if lookup.NotNeeded? then [] else [oids])
              && wakeUps == old(wakeUps) + (if lookup.NotNeeded? then 0 else 1)
              && ec == match lookup
                       case NotNeeded => None
                       case Succeeded => None
                       case Overlooked => None
                       case Missing => Some(TypeDoesNotExist)
                       case Unanswered => ErrorOf(link.server.exec(n, oids))
      ensures ec.Some? <==>
              Ask(link.server.catalog, old(Oids()), StepFor(link.server, s, old(Oids()),
                  |old(link.sent)|)).1 in {Missing, Unanswered}
    {
      hide ErrorOf;
      ExtractFromAll(TypesOf(s.args));
      ec := None;
      if newUdts != [] {
        ec := QueryOids();
      } else {
        assert link.sent + [] == link.sent;
      }
    }

    method SendAndReceive(s: Statement) returns (thrown: bool, ec: Option<Error>, result: Reply)
      requires buffer.Valid() && link.Idle() && Sendable(s.args)
      modifies this`wakeUps, link, buffer
      ensures buffer.Valid() && link.Idle()
      ensures thrown <==> !ArgsResolved(oidMap, s.args)
      ensures thrown ==> link.sent == old(link.sent) && wakeUps == old(wakeUps) && ec == None && result == Null
      ensures !thrown ==>
                && link.sent == old(link.sent) + [CommandOf(oidMap, s)] && wakeUps == old(wakeUps) + 1
                && result == AnswerTo(link.server, |old(link.sent)|, CommandOf(oidMap, s), false)
                && ec == ErrorOf(result.status)
    {
      hide CommandOf, ArgsResolved;
      var sent;
      thrown, sent := SendStatement(link, buffer, oidMap, s);
      if thrown {
        return true, None, Null;
      }
      ec, result := SingleResult();
    }
  }

  /** The step of the OID history that a statement sent as the server's `n`-th command makes. */
  ghost function StepFor(server: Server, s: Statement, before: OidState, n: nat): Step {
    var udts := Extend(before, TypesOf(s.args)).udts;
    Step(TypesOf(s.args), ResponseOf(server.exec(n, OidQuery(Names(udts)))))
  }

  /** One query, from the outside. */
  ghost predicate Queried(server: Server, s: Statement, before: OidState, after: OidState,
                          sent: seq<Command>, sent': seq<Command>,
                          thrown: bool, ec: Option<Error>, result: Reply)
    requires ValidArgs(s.args)
  {
    var n, step := |sent|, StepFor(server, s, before, |sent|);
    var (next, lookup) := Ask(server.catalog, before, step);
    var oids, command := OidQuery(Names(next.udts)), CommandOf(next.omp, s);
    && after == next
    && (thrown <==> lookup.Overlooked? && !ArgsResolved(next.omp, s.args))
    && match lookup
       case NotNeeded =>
         && sent' == sent + [command]
         && result == AnswerTo(server, n, command, false) && ec == ErrorOf(result.status)
       case Succeeded =>
         && sent' == sent + [oids, command]
         && result == AnswerTo(server, n + 1, command, false) && ec == ErrorOf(result.status)
       case Overlooked =>
         if thrown then sent' == sent + [oids] && result == Null && ec == None else
           && sent' == sent + [oids, command]
           && result == AnswerTo(server, n + 1, command, false) && ec == ErrorOf(result.status)
       case Missing => sent' == sent + [oids] && result == Null && ec == Some(TypeDoesNotExist)
       case Unanswered => sent' == sent + [oids] && result == Null && ec == ErrorOf(server.exec(n, oids)) && ec.Some?
  }

  /** Both parts of a query together. */
  lemma QueryEnds(server: Server, names: map<TypeIndex, string>, s: Statement, before: OidState, after: OidState,
                  sent: seq<Command>, mid: seq<Command>, sent': seq<Command>, ec': Option<Error>,
                  thrown: bool, ec: Option<Error>, result: Reply)
    requires Sendable(s.args) && Declared(names, TypesOf(s.args))
    requires Sound(server.catalog, names, before.omp) && Named(names, before.udts)
    requires var (next, lookup) := Ask(server.catalog, before, StepFor(server, s, before, |sent|));
             var oids := OidQuery(Names(next.udts));
             && after == next && mid == sent + (if lookup.NotNeeded? then [] else [oids])
             && (ec'.Some? <==> lookup in {Missing, Unanswered})
             && (lookup.Missing? ==> ec' == Some(TypeDoesNotExist))
             && (lookup.Unanswered? ==> ec' == ErrorOf(server.exec(|sent|, oids)))
    requires if ec'.Some? then !thrown && ec == ec' && result == Null && sent' == mid
             else if ArgsResolved(after.omp, s.args) then
               && !thrown && sent' == mid + [CommandOf(after.omp, s)]
               && result == AnswerTo(server, |mid|, CommandOf(after.omp, s), false) && ec == ErrorOf(result.status)
             else thrown && sent' == mid && ec == None && result == Null
    ensures Queried(server, s, before, after, sent, sent', thrown, ec, result)
    ensures Sound(server.catalog, names, after.omp) && Named(names, after.udts)
    ensures |sent'| > |sent| && (result.Answer? ==> ArgsResolved(after.omp, s.args))
  {
    var step := StepFor(server, s, before, |sent|);
    assert step.types == TypesOf(s.args);
    AskSound(server.catalog, names, before, step);
    if Covers(after.omp, TypesOf(s.args)) {
      CoveredArgsResolve(after.omp, s.args);
    }
    hide Ask, StepFor, Sound, Named, Declared, ErrorOf, Covers, Sendable, CommandOf, ArgsResolved;
    assert sent + [] == sent;
    LastCommand(server, s, before, after, sent, sent', thrown, ec, result);
  }

  lemma AllListed(catalog: Catalog, udts: seq<UdtPair>)
    ensures AllFound(RowsFor(catalog, udts)) <==>
            forall i | 0 <= i < |udts| ::
              && udts[i].name in catalog && catalog[udts[i].name] != 0xFFFF_FFFF
              && udts[i].name + "[]" in catalog && catalog[udts[i].name + "[]"] != 0xFFFF_FFFF
  {
    hide Found, RowFor;
    var rows := RowsFor(catalog, udts);
    forall i | 0 <= i < |udts|
      ensures Found(rows[i]) <==>
              && udts[i].name in catalog && catalog[udts[i].name] != 0xFFFF_FFFF
              && udts[i].name + "[]" in catalog && catalog[udts[i].name + "[]"] != 0xFFFF_FFFF
    {
      FoundIff(catalog, udts[i].name);
    }
  }

  /** The ways a query can go: the statement is the last command sent, or no reply to it. */
  lemma QueriedSplit(server: Server, s: Statement, before: OidState, after: OidState, sent: seq<Command>,
                     sent': seq<Command>, thrown: bool, ec: Option<Error>, result: Reply)
    requires Sendable(s.args) && Queried(server, s, before, after, sent, sent', thrown, ec, result)
    ensures var step := StepFor(server, s, before, |sent|);
            var (next, lookup) := Ask(server.catalog, before, step);
            var oids, own := [OidQuery(Names(next.udts))], [CommandOf(next.omp, s)];
            var some := !thrown && lookup !in {Missing, Unanswered};
            && step.types == TypesOf(s.args) && next == after
            && step.response == ResponseOf(server.exec(|sent|, oids[0]))
            && (thrown <==> lookup.Overlooked? && !ArgsResolved(next.omp, s.args))
            && sent' == sent + (if lookup.NotNeeded? then [] else oids) + (if some then own else [])
            && (some ==> result == AnswerTo(server, |sent'| - 1, own[0], false) && ec == ErrorOf(result.status))
            && (!some ==> result.Null?)
            && (thrown ==> ec == None)
            && (lookup.Missing? ==> ec == Some(TypeDoesNotExist))
            && (lookup.Unanswered? ==> ec == ErrorOf(server.exec(|sent|, oids[0])) && ec.Some?)
  {
    var step := StepFor(server, s, before, |sent|);
    var (next, lookup) := Ask(server.catalog, before, step);
    AskUdts(server.catalog, before, step);
    hide Ask, CommandOf, ErrorOf, ResponseOf, SizeOf, HasType, Names, ArgsResolved, Extend;
    var oids, own := [OidQuery(Names(next.udts))], [CommandOf(next.omp, s)];
    assert sent + [] + own == sent + own && sent + oids + [] == sent + oids;
    assert sent + oids + own == sent + [oids[0], own[0]];
  }

  lemma AskUdts(catalog: Catalog, st: OidState, step: Step)
    ensures Ask(catalog, st, step).0.udts == Extend(st, step.types).udts
  {
  }

  /** What that means for the caller: which command was the last to be sent, with which
      parameters and types, and which error its outcome makes. */
  lemma QueryShows(server: Server, names: map<TypeIndex, string>, s: Statement, before: OidState, after: OidState,
                   sent: seq<Command>, sent': seq<Command>, thrown: bool, ec: Option<Error>, result: Reply)
    requires Sendable(s.args) && Queried(server, s, before, after, sent, sent', thrown, ec, result)
    requires Sound(server.catalog, names, after.omp) && Declared(names, TypesOf(s.args))
    requires |sent'| > |sent| && (result.Answer? ==> ArgsResolved(after.omp, s.args))
    ensures var n := |sent'| - 1;
            var c, status := sent'[n], server.exec(n, sent'[n]);
            if c.OidQuery? then result == Null && (status.TuplesOk? ==> ec == Some(TypeDoesNotExist)) else
              && !thrown && result.Answer? && result.command == c && result.status == status
              && (status in {SingleTuple, TuplesOk, CommandOk} ==> ec == None)
    ensures var n := |sent'| - 1;
            var status := server.exec(n, sent'[n]);
            status.FatalError? && status.sqlstate.Some? ==>
              var e := status.sqlstate.value;
              |e| == 5 && SqlState.AllDigits(e) && e != "00000" ==> ec == Some(SqlStateError(SqlState.Number(e)))
    ensures var c := sent'[|sent'| - 1];
            !c.OidQuery? ==>
              && (c.Prepared? <==> s.prepared) && (if c.Prepared? then c.name else c.text) == s.text
              && |c.values| == |s.args|
              && forall i | 0 <= i < |s.args| :: c.values[i] == Encode(after.omp, s.args[i].t, s.args[i].v)
    ensures var c, catalog := sent'[|sent'| - 1], server.catalog;
            c.Query? ==> |c.types| == |s.args| && forall i | 0 <= i < |s.args| ::
              var t := s.args[i].t;
              && (t.Udt? ==> t.name in catalog && c.types[i] == catalog[t.name])
              && (t.Array? && t.elem.Udt? ==>
                    t.elem.name + "[]" in catalog && c.types[i] == catalog[t.elem.name + "[]"])
  {
    LastCommand(server, s, before, after, sent, sent', thrown, ec, result);
    hide *;
    var n := |sent'| - 1;
    var c, status := sent'[n], server.exec(n, sent'[n]);
    ErrorCodes(status);
    CommandCarries(after.omp, s);
    if c.Query? {
      forall i | 0 <= i < |s.args|
        ensures var t := s.args[i].t;
                && (t.Udt? ==> t.name in server.catalog && c.types[i] == server.catalog[t.name])
                && (t.Array? && t.elem.Udt? ==>
                      t.elem.name + "[]" in server.catalog && c.types[i] == server.catalog[t.elem.name + "[]"])
      {
        TypeSent(server.catalog, names, after.omp, s.args, i);
      }
    }
  }

  /** The last command is the statement, or the OID query if there is no reply. */
  lemma LastCommand(server: Server, s: Statement, before: OidState, after: OidState,
                    sent: seq<Command>, sent': seq<Command>, thrown: bool, ec: Option<Error>, result: Reply)
    requires Sendable(s.args) && Queried(server, s, before, after, sent, sent', thrown, ec, result)
    ensures |sent'| > |sent|
    ensures var n := |sent'| - 1;
            var c, status := sent'[n], server.exec(n, sent'[n]);
            if result.Answer? then
              && !thrown && c == CommandOf(after.omp, s) && !c.OidQuery?
              && result.command == c && result.status == status && ec == ErrorOf(status)
            else
              && c.OidQuery? && result == Null
              && (status.TuplesOk? ==> !thrown && ec == Some(TypeDoesNotExist))
              && (!status.TuplesOk? && ErrorOf(status).Some? ==> !thrown && ec == ErrorOf(status))
  {
    QueriedSplit(server, s, before, after, sent, sent', thrown, ec, result);
    CommandCarries(after.omp, s);
    AskOutcomes(server.catalog, before, StepFor(server, s, before, |sent|));
    hide Queried, StepFor, Ask, CommandOf, ErrorOf, ArgsResolved, Sendable, ValidArgs;
  }

  lemma TypeSent(catalog: Catalog, names: map<TypeIndex, string>, omp: OidMap, args: seq<Arg>, i: nat)
    requires ValidArgs(args) && ArgsResolved(omp, args) && i < |args|
    requires Sound(catalog, names, omp) && Declared(names, TypesOf(args))
    ensures var t, oid := args[i].t, OidOf(omp, args[i].t);
            && (t.Udt? ==> t.name in catalog && oid == catalog[t.name])
            && (t.Array? && t.elem.Udt? ==> t.elem.name + "[]" in catalog && oid == catalog[t.elem.name + "[]"])
  {
    var t := args[i].t;
    assert Known(omp, t);
    hide ArgsResolved, Sound, OidOf, ValidArgs;
    if t.Udt? || (t.Array? && t.elem.Udt?) {
      forall u: Type | u.Udt? && ReachesAny([t], u) ensures u.id in names && names[u.id] == u.name {
        assert TypesOf(args)[i] == t;
        assert ReachesAny(TypesOf(args), u);
      }
      UdtOids(catalog, names, omp, t, if t.Udt? then t else t.elem);
    }
  }

  /** The argument of `pipeline.push_query("ROLLBACK;")`. */
  function Rollback(): Statement {
    Statement("ROLLBACK;", false, [])
  }

  lemma RollbackIsSendable(omp: OidMap)
    ensures Sendable(Rollback().args) && ArgsResolved(omp, Rollback().args) && CommandOf(omp, Rollback()) == ROLLBACK
  {
  }

  lemma CoveredArgsResolve(omp: OidMap, args: seq<Arg>)
    requires ValidArgs(args) && Covers(omp, TypesOf(args))
    ensures ArgsResolved(omp, args)
  {
    forall i | 0 <= i < |args| ensures Known(omp, args[i].t) && Resolved(omp, args[i].t, args[i].v) {
      forall u: Type | u.Udt? && Reaches(args[i].t, u) ensures u.id in omp {
        assert TypesOf(args)[i] == args[i].t;
        assert ReachesAny(TypesOf(args), u);
      }
      CoveredResolves(omp, args[i].t, args[i].v);
    }
  }
}
