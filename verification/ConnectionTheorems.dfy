/** What callers of a connection may rely on: which reply they get, and which error. */
module ConnectionTheorems {
  import opened Words
  import opened Types
  import opened Serialization
  import opened OidResolution
  import opened Libpq
  import opened Connection
  import opened Deserialization
  import opened CodecTheorems
  import SqlState

  // Pairing

  /** The slot of attempt `j`, if it succeeds: one for each success before it. */
  ghost function SlotOf(omp: OidMap, pushes: seq<Attempt>, j: nat): nat
    requires SendableAll(pushes) && j <= |pushes|
  {
    if j == 0 then 0 else (if Succeeds(omp, pushes[0]) then 1 else 0) + SlotOf(omp, pushes[1..], j - 1)
  }

  lemma {:induction false} PushedAt(omp: OidMap, pushes: seq<Attempt>, j: nat)
    requires SendableAll(pushes) && AllHandled(omp, pushes) && j < |pushes|
    requires Succeeds(omp, pushes[j]) && ValidArgs(pushes[j].statement.args)
    ensures var slot := SlotOf(omp, pushes, j);
            slot < |Pushed(omp, pushes)| && Pushed(omp, pushes)[slot] == CommandOf(omp, pushes[j].statement)
  {
    hide Succeeds, ValidArgs, CommandOf, SizeOf;
    var tail := pushes[1..];
    SendableTail(pushes);
    forall i | 0 <= i < |tail| ensures Succeeds(omp, tail[i]) || tail[i].caught {
      assert tail[i] == pushes[i + 1];
    }
    if j > 0 {
      assert tail[j - 1] == pushes[j];
      PushedAt(omp, tail, j - 1);
    }
  }

  /** In a pipeline that did not throw, the slot that a push returned holds the reply to this
      push, also where pushes around it threw and were caught. */
  lemma SlotHoldsItsReply(server: Server, omp: OidMap, op: Operation, n: nat, j: nat)
    requires SendableAll(op.pushes) && !Throws(omp, op) && j < |op.pushes|
    requires Succeeds(omp, op.pushes[j]) && ValidArgs(op.pushes[j].statement.args)
    ensures var rs, slot := Results(server, n, PipelineCommands(omp, op)), SlotOf(omp, op.pushes, j);
            slot < |rs| && rs[slot].Answer? && rs[slot].command == CommandOf(omp, op.pushes[j].statement)
  {
    PushedAt(omp, op.pushes, j);
  }

  /** The server can read every parameter of a statement: decoding the value sent gives the
      argument, over whatever is there, and over `T{}` the argument itself, time points to the
      microsecond, exactly if the strings in there are empty. */
  lemma ArgumentsArrive(omp: OidMap, s: Statement, i: nat)
    requires Sendable(s.args) && ValidArgs(s.args) && i < |s.args| && s.args[i].t.WellFormed()
    ensures var t, v, c := s.args[i].t, s.args[i].v, CommandOf(omp, s);
            && !c.OidQuery? && |c.values| == |s.args| && |c.values[i]| == SizeOf(t, v) < TWO_31
            && (forall start | HasType(start, t) :: Decode(t, c.values[i], start) == Done(Over(t, v, start)))
            && (AsSpec(t, OidOf(omp, t), c.values[i]) == Done(Canon(t, v)) <==> Clear(t, v, Default(t)))
  {
    var t, v := s.args[i].t, s.args[i].v;
    CommandCarries(omp, s);
    SizeIsExact(omp, t, v);
    SmallFits(t, v);
    FitsSurvives(t, v);
    ReceivableRoundTrip(omp, t, v);
    hide CommandOf, Decode, Over, AsSpec, Canon, Clear, Default, Encode, HasType, OidOf, SizeOf;
    forall start | HasType(start, t) ensures Decode(t, Encode(omp, t, v), start) == Done(Over(t, v, start)) {
      DecodesOver(omp, t, v, start);
    }
  }

  // The error a pipeline reports

  /** Command `k` failed in the server with an SQLSTATE that parses to 0, the value of
      success, nothing before it failed, and more commands followed. */
  ghost predicate Masked(server: Server, n: nat, cs: seq<Command>, k: nat) {
    && k + 1 < |cs|
    && server.exec(n + k, cs[k]).FatalError? && ErrorOf(server.exec(n + k, cs[k])).None?
    && forall j | 0 <= j < k :: !server.exec(n + j, cs[j]).FatalError? && ErrorOf(server.exec(n + j, cs[j])).None?
  }

  /** A pipeline reports "aborted", which names no cause, exactly when the failure that aborted
      it is masked. Otherwise it reports the error of the command that failed first, or none. */
  lemma PipelineErrorCause(server: Server, n: nat, cs: seq<Command>)
    requires ServerOk(server)
    ensures FirstError(Results(server, n, cs)) == Some(StatusPipelineAborted) <==> exists k :: Masked(server, n, cs, k)
  {
    if FirstError(Results(server, n, cs)) == Some(StatusPipelineAborted) {
      var k := AbortedMeansMasked(server, n, cs);
    }
    if k :| Masked(server, n, cs, k) {
      MaskedMeansAborted(server, n, cs, k);
    }
  }

  /** A server that fails all statements with SQLSTATE 00000. */
  const MASKING: Server := Server((n, c: Command) => if c.Query? then FatalError(Some("00000")) else TuplesOk, map[])

  /** A pipeline whose first command fails reports that the second was aborted. */
  lemma CauseCanBeMasked(first: Command, second: Command)
    requires first.Query?
    ensures ServerOk(MASKING)
    ensures FirstError(Results(MASKING, 0, [first, second])) == Some(StatusPipelineAborted)
  {
    hide *;
    MaskingMasks(first, second);
    MaskedMeansAborted(MASKING, 0, [first, second], 0);
  }

  lemma MaskingMasks(first: Command, second: Command)
    requires first.Query?
    ensures ServerOk(MASKING) && Masked(MASKING, 0, [first, second], 0)
  {
    SqlState.ZerosParse();
    ZeroIsNoError("00000");
    hide SqlState.Parse;
  }

  lemma ZeroIsNoError(sqlstate: string)
    requires SqlState.Parse(sqlstate) == 0
    ensures ErrorOf(FatalError(Some(sqlstate))) == None
  {
    hide SqlState.Parse;
  }

  lemma AbortedMeansMasked(server: Server, n: nat, cs: seq<Command>) returns (i: nat)
    requires ServerOk(server)
    requires FirstError(Results(server, n, cs)) == Some(StatusPipelineAborted)
    ensures Masked(server, n, cs, i)
  {
    var rs := Results(server, n, cs);
    var k := FirstErrorExists(rs);
    AbortedStatus(server, n, cs, k);
    i := FirstFatal(server, n, cs[..k]);
    forall j | 0 <= j <= i ensures cs[..k][j] == cs[j] {}
    hide Aborted, Results, ServerOk;
    forall j | 0 <= j <= i ensures ErrorOf(server.exec(n + j, cs[j])).None? {
      ExecutedStatus(server, n, cs, j);
      assert ErrorOf(rs[j].status).None?;
    }
  }

  lemma MaskedMeansAborted(server: Server, n: nat, cs: seq<Command>, k: nat)
    requires Masked(server, n, cs, k)
    ensures FirstError(Results(server, n, cs)) == Some(StatusPipelineAborted)
  {
    hide Aborted, Results, ErrorOf;
    var rs := Results(server, n, cs);
    AbortedResult(server, n, cs, k);
    ResultsAnswer(server, n, cs);
    forall j | 0 <= j <= k ensures ErrorOf(rs[j].status).None? {
      ExecutedStatus(server, n, cs, j);
    }
    hide Masked;
    FirstErrorIsLowest(rs, k + 1);
  }

  /** What follows a failed command is aborted. */
  lemma AbortedResult(server: Server, n: nat, cs: seq<Command>, k: nat)
    requires k + 1 < |cs| && server.exec(n + k, cs[k]).FatalError?
    ensures Results(server, n, cs)[k + 1].Answer?
    ensures ErrorOf(Results(server, n, cs)[k + 1].status) == Some(StatusPipelineAborted)
  {
    AbortedIff(server, n, cs[..k + 1]);
    assert cs[..k + 1][k] == cs[k];
    hide Aborted;
  }

  lemma AbortedStatus(server: Server, n: nat, cs: seq<Command>, k: nat)
    requires ServerOk(server) && k < |cs|
    requires ErrorOf(ResultAt(server, n, cs, k).status) == Some(StatusPipelineAborted)
    ensures Aborted(server, n, cs[..k])
  {
    assert server.exec(n + k, cs[k]) != PipelineAborted;
  }

  lemma {:induction false} FirstFatal(server: Server, n: nat, cs: seq<Command>) returns (i: nat)
    requires Aborted(server, n, cs)
    ensures i < |cs| && server.exec(n + i, cs[i]).FatalError?
    ensures forall j | 0 <= j < i :: !server.exec(n + j, cs[j]).FatalError?
  {
    var front := cs[..|cs| - 1];
    if Aborted(server, n, front) {
      i := FirstFatal(server, n, front);
      assert front[i] == cs[i] && forall j | 0 <= j < i :: front[j] == cs[j];
    } else {
      i := |cs| - 1;
      AbortedIff(server, n, front);
      assert forall j | 0 <= j < i :: front[j] == cs[j];
    }
  }

  // Sessions

  datatype Op = QueryOp(statement: Statement) | PipelineOp(operation: Operation)

  /** How an operation ended: whether an exception left it, its error, the replies it handed
      over, the position its commands begin at among all commands sent, and the OID map they
      were encoded with. */
  datatype Ending = Ending(thrown: bool, ec: Option<Error>, replies: seq<Reply>, at: nat, omp: OidMap)

  /** What an operation adds to the OID history of its connection: a query makes one step, with
      the outcome of its lookup. */
  datatype Trace = Trace(steps: seq<Step>, lookup: Lookup)

  ghost predicate OpOk(op: Op) {
    match op
    case QueryOp(s) => Sendable(s.args)
    case PipelineOp(p) => SendableAll(p.pushes)
  }

  ghost predicate OpDeclared(op: Op, names: map<TypeIndex, string>) {
    op.QueryOp? ==> Declared(names, TypesOf(op.statement.args))
  }

  /** The operation's own commands: the statement, unless the lookup in front of it failed or
      serializing it threw; or the commands of the pipeline. */
  ghost function Own(op: Op, e: Ending, tr: Trace): seq<Command>
    requires OpOk(op)
  {
    match op
    case QueryOp(s) => if e.thrown || tr.lookup in {Missing, Unanswered} then [] else [CommandOf(e.omp, s)]
    case PipelineOp(p) => PipelineCommands(e.omp, p)
  }

  /** The position behind the operation's own commands. */
  ghost function After(op: Op, e: Ending, tr: Trace): nat
    requires OpOk(op)
  {
    e.at + |Own(op, e, tr)|
  }

  /** The lookup of a query stands right before its statement, and had this outcome. */
  ghost predicate LookedUp(server: Server, sent: seq<Command>, e: Ending, tr: Trace) {
    |tr.steps| == 1 && (!tr.lookup.NotNeeded? ==>
      && 0 < e.at <= |sent| && sent[e.at - 1].OidQuery?
      && tr.steps[0].response == ResponseOf(server.exec(e.at - 1, sent[e.at - 1])))
  }

  /** The operation's own commands are where it says, and the replies handed over are the
      server's replies to exactly these. Without a reply a query ends for one of three reasons:
      a type is missing, the lookup was refused, or its failure was overlooked and the
      parameters cannot be serialized. */
  ghost predicate OwnReplies(server: Server, sent: seq<Command>, op: Op, e: Ending, tr: Trace)
    requires OpOk(op)
  {
    var cs := Own(op, e, tr);
    && After(op, e, tr) <= |sent| && sent[e.at..After(op, e, tr)] == cs
    && match op
       case QueryOp(s) =>
         && LookedUp(server, sent, e, tr)
         && (e.thrown <==> tr.lookup.Overlooked? && !ArgsResolved(e.omp, s.args))
         && if e.thrown then e.ec == None && e.replies == []
            else if tr.lookup.Missing? then e.ec == Some(TypeDoesNotExist) && e.replies == []
            else if tr.lookup.Unanswered? then
              e.ec == ErrorOf(server.exec(e.at - 1, sent[e.at - 1])) && e.ec.Some? && e.replies == []
            else e.replies == [AnswerTo(server, e.at, cs[0], false)] && e.ec == ErrorOf(e.replies[0].status)
       case PipelineOp(p) =>
         && !e.thrown && tr.steps == []
         && if Throws(e.omp, p) then e.ec == Some(ExceptionInOperation) && e.replies == []
            else e.replies == Results(server, e.at, cs) && e.ec == FirstError(e.replies)
  }

  /** Besides its own commands the operation sent nothing but OID queries. */
  ghost predicate OnlyLookupsBesides(before: nat, sent: seq<Command>, op: Op, e: Ending, tr: Trace)
    requires OpOk(op)
  {
    forall k | before <= k < |sent| && !(e.at <= k < After(op, e, tr)) :: sent[k].OidQuery?
  }

  /** The OID map and the lookup are what the history of the connection makes of this operation. */
  ghost predicate FollowsHistory(catalog: Catalog, history: seq<Step>, op: Op, e: Ending, tr: Trace) {
    match op
    case QueryOp(s) =>
      && |tr.steps| == 1 && tr.steps[0].types == TypesOf(s.args)
      && var (next, lookup) := Ask(catalog, Run(catalog, history), tr.steps[0]);
         e.omp == next.omp && tr.lookup == lookup
    case PipelineOp(_) => e.omp == Run(catalog, history).omp
  }

  lemma OwnRepliesStay(server: Server, sent: seq<Command>, more: seq<Command>, op: Op, e: Ending, tr: Trace)
    requires OpOk(op) && OwnReplies(server, sent, op, e, tr)
    ensures OwnReplies(server, sent + more, op, e, tr) && After(op, e, tr) <= |sent|
  {
    hide Own, OpOk, Throws, AnswerTo, Results, FirstError, ErrorOf, ResponseOf, ArgsResolved, Sendable;
    assert (sent + more)[e.at..After(op, e, tr)] == sent[e.at..After(op, e, tr)];
  }

  lemma QueriedOwns(server: Server, s: Statement, before: OidState, after: OidState, sent: seq<Command>,
                    sent': seq<Command>, thrown: bool, ec: Option<Error>, result: Reply) returns (tr: Trace)
    requires Sendable(s.args) && Queried(server, s, before, after, sent, sent', thrown, ec, result)
    ensures sent <= sent' && tr.steps == [StepFor(server, s, before, |sent|)]
    ensures tr.steps[0].types == TypesOf(s.args) && Ask(server.catalog, before, tr.steps[0]) == (after, tr.lookup)
    ensures var e := Ending(thrown, ec, if result.Null? then [] else [result],
                            if result.Null? then |sent'| else |sent'| - 1, after.omp);
            && |sent| <= e.at && OwnReplies(server, sent', QueryOp(s), e, tr)
            && OnlyLookupsBesides(|sent|, sent', QueryOp(s), e, tr)
  {
    hide Queried, Ask, StepFor, OwnReplies, OnlyLookupsBesides, Sendable, CommandOf, ErrorOf, ResponseOf, ArgsResolved;
    var step := StepFor(server, s, before, |sent|);
    var (next, lookup) := Ask(server.catalog, before, step);
    tr := Trace([step], lookup);
    QueriedSplit(server, s, before, after, sent, sent', thrown, ec, result);
    var oids := OidQuery(Names(next.udts));
    var front := sent + (if lookup.NotNeeded? then [] else [oids]);
    if !thrown && lookup !in {Missing, Unanswered} {
      StatementOwns(server, s, next.omp, sent, front, oids, step, lookup, ec, result);
    } else {
      assert front + [] == front;
      NoReplyOwns(server, s, next.omp, sent, front, oids, step, lookup, thrown, ec);
    }
  }

  lemma StatementOwns(server: Server, s: Statement, omp: OidMap, sent: seq<Command>, front: seq<Command>, oids: Command,
                      step: Step, lookup: Lookup, ec: Option<Error>, result: Reply)
    requires Sendable(s.args) && oids.OidQuery? && front == sent + (if lookup.NotNeeded? then [] else [oids])
    requires lookup !in {Missing, Unanswered} && (lookup.Overlooked? ==> ArgsResolved(omp, s.args))
    requires step.response == ResponseOf(server.exec(|sent|, oids))
    requires result == AnswerTo(server, |front|, CommandOf(omp, s), false) && ec == ErrorOf(result.status)
    ensures var all := front + [CommandOf(omp, s)];
            var e, tr := Ending(false, ec, [result], |front|, omp), Trace([step], lookup);
            OwnReplies(server, all, QueryOp(s), e, tr) && OnlyLookupsBesides(|sent|, all, QueryOp(s), e, tr)
  {
    hide ErrorOf, ResponseOf, CommandOf, SizeOf, HasType, ArgsResolved;
    var all := front + [CommandOf(omp, s)];
    assert all[|front|..] == [CommandOf(omp, s)];
  }

  lemma NoReplyOwns(server: Server, s: Statement, omp: OidMap, sent: seq<Command>, front: seq<Command>, oids: Command,
                    step: Step, lookup: Lookup, thrown: bool, ec: Option<Error>)
    requires Sendable(s.args) && oids.OidQuery? && front == sent + (if lookup.NotNeeded? then [] else [oids])
    requires (thrown <==> lookup.Overlooked? && !ArgsResolved(omp, s.args))
    requires thrown || lookup in {Missing, Unanswered}
    requires step.response == ResponseOf(server.exec(|sent|, oids))
    requires thrown ==> ec == None
    requires lookup.Missing? ==> ec == Some(TypeDoesNotExist)
    requires lookup.Unanswered? ==> ec == ErrorOf(server.exec(|sent|, oids)) && ec.Some?
    ensures var e, tr := Ending(thrown, ec, [], |front|, omp), Trace([step], lookup);
            OwnReplies(server, front, QueryOp(s), e, tr) && OnlyLookupsBesides(|sent|, front, QueryOp(s), e, tr)
  {
    hide ErrorOf, ResponseOf, CommandOf, Sendable, ArgsResolved;
    assert front[|front|..] == [];
  }

  lemma PipelineOwns(server: Server, omp: OidMap, p: Operation, sent: seq<Command>, ec: Option<Error>,
                     results: seq<Reply>)
    requires SendableAll(p.pushes)
    requires var cs := PipelineCommands(omp, p);
             if Throws(omp, p) then ec == Some(ExceptionInOperation) && results == []
             else results == Results(server, |sent|, cs) && ec == FirstError(results)
    ensures var all := sent + PipelineCommands(omp, p);
            var e, tr := Ending(false, ec, results, |sent|, omp), Trace([], NotNeeded);
            OwnReplies(server, all, PipelineOp(p), e, tr) && OnlyLookupsBesides(|sent|, all, PipelineOp(p), e, tr)
  {
    var cs := PipelineCommands(omp, p);
    hide PipelineCommands, Throws, SendableAll, ErrorOf, Results, FirstError;
    assert (sent + cs)[|sent|..|sent| + |cs|] == cs;
  }

  ghost predicate AllOk(ops: seq<Op>) {
    forall i | 0 <= i < |ops| :: OpOk(ops[i])
  }

  /** The steps of a session, in order. */
  ghost function StepsOf(trs: seq<Trace>): seq<Step> {
    if trs == [] then [] else StepsOf(trs[..|trs| - 1]) + trs[|trs| - 1].steps
  }

  /** Of the commands sent from position `from` on, each operation has its own, one after the
      other, and the replies to exactly these; the others are OID queries. What was looked up
      follows from the history in front of each operation. */
  ghost predicate Accounted(server: Server, history: seq<Step>, from: nat, sent: seq<Command>,
                            ops: seq<Op>, ends: seq<Ending>, trs: seq<Trace>)
    requires AllOk(ops)
  {
    && |ends| == |trs| == |ops| && from <= |sent|
    && (forall i | 0 <= i < |ops| :: from <= ends[i].at && OwnReplies(server, sent, ops[i], ends[i], trs[i]))
    && (forall i | 0 <= i < |ops| ::
          FollowsHistory(server.catalog, history + StepsOf(trs[..i]), ops[i], ends[i], trs[i]))
    && (forall i | 0 <= i < |ops| :: After(ops[i], ends[i], trs[i]) <= |sent|)
    && (forall i, j | 0 <= i < j < |ops| :: After(ops[i], ends[i], trs[i]) <= ends[j].at)
    && (forall k | from <= k < |sent| ::
          sent[k].OidQuery? || exists i | 0 <= i < |ops| :: ends[i].at <= k < After(ops[i], ends[i], trs[i]))
  }

  lemma AccountedSnoc(server: Server, history: seq<Step>, from: nat, before: seq<Command>, sent: seq<Command>,
                      ops: seq<Op>, ends: seq<Ending>, trs: seq<Trace>, op: Op, e: Ending, tr: Trace)
    requires AllOk(ops) && Accounted(server, history, from, before, ops, ends, trs) && OpOk(op)
    requires before <= sent && |before| <= e.at && After(op, e, tr) <= |sent|
    requires OwnReplies(server, sent, op, e, tr) && OnlyLookupsBesides(|before|, sent, op, e, tr)
    requires FollowsHistory(server.catalog, history + StepsOf(trs), op, e, tr)
    ensures AllOk(ops + [op]) && Accounted(server, history, from, sent, ops + [op], ends + [e], trs + [tr])
  {
    hide OpOk, OwnReplies, After, FollowsHistory, StepsOf;
    var ops', ends', trs' := ops + [op], ends + [e], trs + [tr];
    assert sent == before + sent[|before|..];
    forall i | 0 <= i < |ops| ensures OwnReplies(server, sent, ops[i], ends[i], trs[i]) {
      OwnRepliesStay(server, before, sent[|before|..], ops[i], ends[i], trs[i]);
    }
    forall i | 0 <= i < |ops'|
      ensures FollowsHistory(server.catalog, history + StepsOf(trs'[..i]), ops'[i], ends'[i], trs'[i])
    {
      assert trs'[..i] == if i < |ops| then trs[..i] else trs;
    }
    forall k | from <= k < |sent| && !sent[k].OidQuery?
      ensures exists i | 0 <= i < |ops'| :: ends'[i].at <= k < After(ops'[i], ends'[i], trs'[i])
    {
      if k < |before| {
        assert before[k] == sent[k];
        var i :| 0 <= i < |ops| && ends[i].at <= k < After(ops[i], ends[i], trs[i]);
        assert ops'[i] == ops[i] && ends'[i] == ends[i] && trs'[i] == trs[i];
      } else {
        assert ops'[|ops|] == op && ends'[|ops|] == e && trs'[|ops|] == tr;
      }
    }
  }

  /** Any sequence of queries and pipelines, ending well or with errors the server reports:
      every operation gets the replies to its own commands and leaves none for the next, and
      the connection's OID state is what its whole history makes it. */
  method Session(c: BasicConnection, ops: seq<Op>, ghost names: map<TypeIndex, string>, ghost history: seq<Step>)
    returns (ends: seq<Ending>, ghost trs: seq<Trace>)
    requires c.buffer.Valid() && c.link.Idle()
    requires AllDeclared(names, history) && c.Oids() == Run(c.link.server.catalog, history)
    requires AllOk(ops) && forall i | 0 <= i < |ops| :: OpDeclared(ops[i], names)
    modifies c, c.link, c.buffer
    ensures c.link.Idle() && c.buffer.Valid() && c.wakeUps >= old(c.wakeUps) + |ops|
    ensures Accounted(c.link.server, history, |old(c.link.sent)|, c.link.sent, ops, ends, trs)
    ensures AllDeclared(names, history + StepsOf(trs))
    ensures c.Oids() == Run(c.link.server.catalog, history + StepsOf(trs))
  {
    hide OpOk, OpDeclared, OwnReplies, After, Accounted, AllDeclared, Run, StepsOf;
    ends, trs := [], [];
    NothingAccounted(c.link.server, history, c.link.sent);
    for i := 0 to |ops|
      invariant c.link.Idle() && c.buffer.Valid() && c.wakeUps >= old(c.wakeUps) + i
      invariant AllDeclared(names, history + StepsOf(trs))
      invariant c.Oids() == Run(c.link.server.catalog, history + StepsOf(trs))
      invariant AllOk(ops[..i])
      invariant Accounted(c.link.server, history, |old(c.link.sent)|, c.link.sent, ops[..i], ends, trs)
    {
      ghost var before := c.link.sent;
      var end;
      ghost var tr;
      end, tr := Perform(c, ops[i], names, history + StepsOf(trs));
      AccountedSnoc(c.link.server, history, |old(c.link.sent)|, before, c.link.sent,
                    ops[..i], ends, trs, ops[i], end, tr);
      StepsSnoc(history, trs, tr);
      assert ops[..i + 1] == ops[..i] + [ops[i]];
      ends, trs := ends + [end], trs + [tr];
    }
    assert ops[..|ops|] == ops;
  }

  lemma StepsSnoc(history: seq<Step>, trs: seq<Trace>, tr: Trace)
    ensures history + StepsOf(trs + [tr]) == history + StepsOf(trs) + tr.steps
  {
    assert (trs + [tr])[..|trs|] == trs;
  }

  lemma NothingAccounted(server: Server, history: seq<Step>, sent: seq<Command>)
    ensures AllOk([]) && Accounted(server, history, |sent|, sent, [], [], []) && history + StepsOf([]) == history
  {
  }

  method Perform(c: BasicConnection, op: Op, ghost names: map<TypeIndex, string>, ghost history: seq<Step>)
    returns (end: Ending, ghost tr: Trace)
    requires c.buffer.Valid() && c.link.Idle() && OpOk(op) && OpDeclared(op, names)
    requires AllDeclared(names, history) && c.Oids() == Run(c.link.server.catalog, history)
    modifies c, c.link, c.buffer
    ensures c.link.Idle() && c.buffer.Valid() && old(c.link.sent) <= c.link.sent && c.wakeUps > old(c.wakeUps)
    ensures AllDeclared(names, history + tr.steps) && c.Oids() == Run(c.link.server.catalog, history + tr.steps)
    ensures |old(c.link.sent)| <= end.at && OwnReplies(c.link.server, c.link.sent, op, end, tr)
    ensures FollowsHistory(c.link.server.catalog, history, op, end, tr)
    ensures OnlyLookupsBesides(|old(c.link.sent)|, c.link.sent, op, end, tr) && After(op, end, tr) <= |c.link.sent|
  {
    hide OpOk, OwnReplies, After, OnlyLookupsBesides, FollowsHistory, AllDeclared, Run, Link.Idle, BasicConnection.Oids;
    if op.QueryOp? {
      end, tr := PerformQuery(c, op.statement, names, history);
    } else {
      end, tr := PerformPipeline(c, op.operation, names, history);
    }
  }

  method PerformQuery(c: BasicConnection, s: Statement, ghost names: map<TypeIndex, string>, ghost history: seq<Step>)
    returns (end: Ending, ghost tr: Trace)
    requires c.buffer.Valid() && c.link.Idle() && OpOk(QueryOp(s)) && OpDeclared(QueryOp(s), names)
    requires AllDeclared(names, history) && c.Oids() == Run(c.link.server.catalog, history)
    modifies c, c.link, c.buffer
    ensures c.link.Idle() && c.buffer.Valid() && old(c.link.sent) <= c.link.sent && c.wakeUps > old(c.wakeUps)
    ensures AllDeclared(names, history + tr.steps) && c.Oids() == Run(c.link.server.catalog, history + tr.steps)
    ensures |old(c.link.sent)| <= end.at && OwnReplies(c.link.server, c.link.sent, QueryOp(s), end, tr)
    ensures FollowsHistory(c.link.server.catalog, history, QueryOp(s), end, tr)
    ensures OnlyLookupsBesides(|old(c.link.sent)|, c.link.sent, QueryOp(s), end, tr)
    ensures After(QueryOp(s), end, tr) <= |c.link.sent|
  {
    hide Sound, Named, Declared, OwnReplies, Queried, Sendable, Own, AllDeclared, Run, Encode, OidOf, TypesOf, After,
      FollowsHistory, OnlyLookupsBesides, SqlState.AllDigits, SqlState.Number, Link.Idle, HasType, ValidArgs;
    ghost var sent, oids := c.link.sent, c.Oids();
    SoundAfter(c.link.server.catalog, names, history);
    var thrown, ec, result := c.AsyncQuery(s, names);
    var count := |c.link.sent|;
    end := if result.Null? then Ending(thrown, ec, [], count, c.oidMap)
           else Ending(thrown, ec, [result], count - 1, c.oidMap);
    tr := QueryDone(c.link.server, names, history, s, oids, c.Oids(), sent, c.link.sent, thrown, ec, result, end);
  }

  lemma QueryDone(server: Server, names: map<TypeIndex, string>, history: seq<Step>, s: Statement,
                  before: OidState, after: OidState, sent: seq<Command>, sent': seq<Command>,
                  thrown: bool, ec: Option<Error>, result: Reply, end: Ending) returns (tr: Trace)
    requires Sendable(s.args) && AllDeclared(names, history) && Declared(names, TypesOf(s.args))
    requires before == Run(server.catalog, history)
    requires Queried(server, s, before, after, sent, sent', thrown, ec, result)
    requires |sent'| > 0
    requires end == if result.Null? then Ending(thrown, ec, [], |sent'|, after.omp)
                    else Ending(thrown, ec, [result], |sent'| - 1, after.omp)
    ensures AllDeclared(names, history + tr.steps) && after == Run(server.catalog, history + tr.steps)
    ensures sent <= sent' && |sent| <= end.at && OwnReplies(server, sent', QueryOp(s), end, tr)
    ensures FollowsHistory(server.catalog, history, QueryOp(s), end, tr)
    ensures OnlyLookupsBesides(|sent|, sent', QueryOp(s), end, tr) && After(QueryOp(s), end, tr) <= |sent'|
  {
    hide Declared, OwnReplies, OnlyLookupsBesides, Queried, Sendable, Own, AllDeclared, Run, Ask, StepFor, TypesOf,
      After;
    tr := QueriedOwns(server, s, before, after, sent, sent', thrown, ec, result);
    OwnRepliesStay(server, sent', [], QueryOp(s), end, tr);
    RunSnoc(server.catalog, history, tr.steps[0]);
    DeclaredSnoc(names, history, tr.steps[0]);
  }

  method PerformPipeline(c: BasicConnection, p: Operation, ghost names: map<TypeIndex, string>,
                         ghost history: seq<Step>)
    returns (end: Ending, ghost tr: Trace)
    requires c.buffer.Valid() && c.link.Idle() && OpOk(PipelineOp(p))
    requires AllDeclared(names, history) && c.Oids() == Run(c.link.server.catalog, history)
    modifies c`wakeUps, c.link, c.buffer
    ensures c.link.Idle() && c.buffer.Valid() && old(c.link.sent) <= c.link.sent && c.wakeUps > old(c.wakeUps)
    ensures AllDeclared(names, history + tr.steps) && c.Oids() == Run(c.link.server.catalog, history + tr.steps)
    ensures |old(c.link.sent)| <= end.at && OwnReplies(c.link.server, c.link.sent, PipelineOp(p), end, tr)
    ensures FollowsHistory(c.link.server.catalog, history, PipelineOp(p), end, tr)
    ensures OnlyLookupsBesides(|old(c.link.sent)|, c.link.sent, PipelineOp(p), end, tr)
    ensures After(PipelineOp(p), end, tr) <= |c.link.sent|
  {
    hide OwnReplies, SendableAll, Own, AllDeclared, Run, Throws, PipelineCommands, Results, FirstError, ArgsResolved,
      SqlState.AllDigits, SqlState.Number, Link.Idle;
    ghost var sent := c.link.sent;
    var position := |c.link.sent|;
    var ec, results := c.ExecPipeline(p);
    PipelineOwns(c.link.server, c.oidMap, p, sent, ec, results);
    end := Ending(false, ec, results, position, c.oidMap);
    tr := Trace([], NotNeeded);
    OwnRepliesStay(c.link.server, c.link.sent, [], PipelineOp(p), end, tr);
    assert history + [] == history;
  }

  lemma SoundAfter(catalog: Catalog, names: map<TypeIndex, string>, history: seq<Step>)
    requires AllDeclared(names, history)
    ensures Sound(catalog, names, Run(catalog, history).omp) && Named(names, Run(catalog, history).udts)
  {
    RunSound(catalog, names, history);
  }

  lemma DeclaredSnoc(names: map<TypeIndex, string>, history: seq<Step>, step: Step)
    requires AllDeclared(names, history) && Declared(names, step.types)
    ensures AllDeclared(names, history + [step])
  {
    hide Declared;
  }

  // What a session shows of the OID history

  /** A query of a session looks OIDs up exactly when it or any query of the connection before
      it had a user-defined type in its parameters, and an answered lookup fails exactly when
      one of these types, or its array type, is not in the catalog. */
  lemma SessionLooksUpIff(server: Server, names: map<TypeIndex, string>, history: seq<Step>, from: nat,
                          sent: seq<Command>, ops: seq<Op>, ends: seq<Ending>, trs: seq<Trace>, i: nat)
    requires AllOk(ops) && Accounted(server, history, from, sent, ops, ends, trs)
    requires AllDeclared(names, history + StepsOf(trs)) && i < |ops| && ops[i].QueryOp?
    ensures |trs[i].steps| == 1
    ensures var all := history + StepsOf(trs[..i]) + trs[i].steps;
            && (trs[i].lookup != NotNeeded <==> exists u: Type :: Mentioned(all, u))
            && (trs[i].steps[0].response.Answered? ==>
                  (trs[i].lookup == Missing <==>
                     exists u: Type | Mentioned(all, u) ::
                       || u.name !in server.catalog || server.catalog[u.name] == 0xFFFF_FFFF
                       || u.name + "[]" !in server.catalog || server.catalog[u.name + "[]"] == 0xFFFF_FFFF))
  {
    hide OwnReplies, OnlyLookupsBesides, OpOk, After, Mentioned, Found, RowFor, Ask, Run;
    var before := history + StepsOf(trs[..i]);
    assert FollowsHistory(server.catalog, before, ops[i], ends[i], trs[i]);
    var step := trs[i].steps[0];
    assert trs[i].steps == [step];
    DeclaredBefore(names, history, trs, i);
    LooksUpIffEverMentioned(server.catalog, names, before, step);
    if step.response.Answered? {
      FailsIffEverMissing(server.catalog, names, before, step);
    }
  }

  lemma {:induction false} DeclaredBefore(names: map<TypeIndex, string>, history: seq<Step>, trs: seq<Trace>, i: nat)
    requires AllDeclared(names, history + StepsOf(trs)) && i < |trs|
    ensures AllDeclared(names, history + StepsOf(trs[..i]) + trs[i].steps)
    decreases |trs|
  {
    hide Declared;
    var front, last := trs[..|trs| - 1], trs[|trs| - 1];
    assert history + StepsOf(trs) == history + StepsOf(front) + last.steps;
    if i < |front| {
      DeclaredFront(names, history + StepsOf(front), last.steps);
      DeclaredBefore(names, history, front, i);
      assert front[..i] == trs[..i] && front[i] == trs[i];
    }
  }

  lemma DeclaredFront(names: map<TypeIndex, string>, a: seq<Step>, b: seq<Step>)
    requires AllDeclared(names, a + b)
    ensures AllDeclared(names, a)
  {
    hide Declared;
    forall k | 0 <= k < |a| ensures Declared(names, a[k].types) {
      assert a[k] == (a + b)[k];
    }
  }

  /** A server that fails every OID query with SQLSTATE 00000. */
  const OVERLOOKED: Server :=
    Server((n, c: Command) => if c.OidQuery? then FatalError(Some("00000")) else TuplesOk, map[])

  /** The first query with a user-defined type then leaves with the exception of a lookup in the
      map that was never filled. */
  lemma OverlookedLookupThrows(text: string, after: OidState, sent': seq<Command>,
                               thrown: bool, ec: Option<Error>, result: Reply)
    requires Sendable([Arg(POINT, Fields([Bits(0)]))])
    requires Queried(OVERLOOKED, Statement(text, false, [Arg(POINT, Fields([Bits(0)]))]), START, after, [], sent',
                     thrown, ec, result)
    ensures thrown && result == Null && |sent'| == 1
  {
    var s := Statement(text, false, [Arg(POINT, Fields([Bits(0)]))]);
    var step := StepFor(OVERLOOKED, s, START, 0);
    assert TypesOf(s.args) == [POINT];
    PointExtracted(map[]);
    OverlookedHasNoRows(Extend(START, [POINT]).udts);
    assert step == Step([POINT], NoRows);
    PointUnresolved();
    QueriedSplit(OVERLOOKED, s, START, after, [], sent', thrown, ec, result);
    AskOverlooked(OVERLOOKED.catalog, START, step);
    hide Queried, StepFor, Ask, ArgsResolved, Sendable, ErrorOf, CommandOf, ResponseOf, OVERLOOKED;
  }

  lemma AskOverlooked(catalog: Catalog, st: OidState, step: Step)
    requires step.response.NoRows? && Extend(st, step.types).udts != []
    ensures Ask(catalog, st, step) == (Extend(st, step.types), Overlooked) && Extend(st, step.types).omp == st.omp
  {
  }

  lemma OverlookedHasNoRows(udts: seq<UdtPair>)
    ensures ResponseOf(OVERLOOKED.exec(0, OidQuery(Names(udts)))) == NoRows
  {
    SqlState.ZerosParse();
    ZeroIsNoError("00000");
    hide SqlState.Parse, ErrorOf;
  }

  lemma PointUnresolved()
    requires ValidArgs([Arg(POINT, Fields([Bits(0)]))])
    ensures !ArgsResolved(map[], [Arg(POINT, Fields([Bits(0)]))])
  {
    assert !Known(map[], POINT);
    assert [Arg(POINT, Fields([Bits(0)]))][0].t == POINT;
  }
}
