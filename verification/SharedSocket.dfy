/** One socket shared by the queries of a connection and its notification receiver.
    Asynchronous notification is section 34.9 of the PostgreSQL 15 documentation. */
module SharedSocket {
  import opened Types
  import opened Libpq

  type Note = nat

  /** What the server sends: notifications, and replies to commands. */
  datatype Message = Notice(note: Note) | Delivery(reply: Reply)

  /** Where `async_receive_notifcation` is: not running; holding a notification until it is
      rescheduled; parked on the socket; or woken, by the cancellation signal or by input, with
      its handler queued. `cancelled` says the user has cancelled the operation. */
  datatype Receiver =
    | Inactive
    | Posting
    | Parked(cancelled: bool)
    | Woken(aborted: bool, cancelled: bool)

  /** What a query or pipeline requires of the next reply it fetches. */
  datatype Want = Any | IsNull | IsSync

  /** Where a query or pipeline is, and what it still has to fetch: flushing its commands;
      parked in `async_receive_result`; woken from there by input, or because its wait has
      `failed`, with its handler queued; or posted, about to fetch a reply that libpq has. */
  datatype QueryPhase =
    | NoQuery
    | Flushing(wants: seq<Want>)
    | QueryParked(wants: seq<Want>)
    | QueryWoken(wants: seq<Want>, failed: bool)
    | QueryPosted(wants: seq<Want>)

  /** `coming` are replies the server has still to send, `unread` what is on the socket;
      `ready` replies and `queued` notifications are inside libpq. `asked` are the replies to
      all commands so far, `fetched` those handed to the queries, `sent` and `delivered` the
      same for notifications. */
  datatype State = State(
    coming: seq<Reply>,
    unread: seq<Message>,
    ready: seq<Reply>,
    queued: seq<Note>,
    held: Option<Note>,
    receiver: Receiver,
    query: QueryPhase,
    sent: seq<Note>,
    delivered: seq<Note>,
    asked: seq<Reply>,
    fetched: seq<Reply>)

  datatype Event =
    | Notify(note: Note)
    | Respond
    | Readable
    | StartReceive
    | CancelReceive
    | ResumeReceive(consumed: nat, ok: bool)
    | Deliver
    | StartQuery(wants: seq<Want>, replies: seq<Reply>)
    | FlushRound(consumed: nat, ok: bool)
    | Flushed
    | FailWait
    | ResumeQuery(consumed: nat, ok: bool)
    | Fetch

  const START := State([], [], [], [], None, Inactive, NoQuery, [], [], [], [])

  function NotesOf(ms: seq<Message>): seq<Note> {
    if ms == [] then []
    else NotesOf(ms[..|ms| - 1]) + (if ms[|ms| - 1].Notice? then [ms[|ms| - 1].note] else [])
  }

  function RepliesOf(ms: seq<Message>): seq<Reply> {
    if ms == [] then []
    else RepliesOf(ms[..|ms| - 1]) + (if ms[|ms| - 1].Delivery? then [ms[|ms| - 1].reply] else [])
  }

  /** The replies not yet fetched, oldest first. */
  function Pending(s: State): seq<Reply> {
    s.ready + RepliesOf(s.unread) + s.coming
  }

  /** `PQisBusy`: `PQgetResult` would block. */
  predicate Busy(s: State) {
    s.ready == [] && RepliesOf(s.unread) + s.coming != []
  }

  predicate Enabled(s: State, e: Event) {
    match e
    case Notify(_) => true
    case Respond => s.coming != []
    case Readable => s.unread != [] && (s.receiver.Parked? || s.query.QueryParked?)
    case StartReceive => s.receiver.Inactive?
    case CancelReceive => s.receiver.Parked? || s.receiver.Woken?
    case ResumeReceive(k, _) => s.receiver.Woken? && k <= |s.unread|
    case Deliver => s.receiver.Posting? && s.held.Some?
    case StartQuery(wants, _) => s.query.NoQuery? && Pending(s) == [] && wants != []
    case FlushRound(k, _) => s.query.Flushing? && k <= |s.unread|
    case Flushed => s.query.Flushing? && s.query.wants != []
    case FailWait => s.query.QueryParked? || s.query.QueryWoken?
    case ResumeQuery(k, _) => s.query.QueryWoken? && k <= |s.unread| && s.query.wants != []
    case Fetch => s.query.QueryPosted? && s.query.wants != []
  }

  /** `PQconsumeInput`: what has come in moves from the socket into libpq. */
  function Consume(s: State, k: nat): State
    requires k <= |s.unread|
  {
    s.(unread := s.unread[k..], ready := s.ready + RepliesOf(s.unread[..k]), queued := s.queued
        + NotesOf(s.unread[..k]))
  }

  // The receiver

  /** The top of the receiver's loop: take a notification from libpq, or park. */
  function Look(s: State, cancelled: bool): State {
    if s.queued == [] then s.(receiver := Parked(cancelled))
    else s.(held := Some(s.queued[0]), queued := s.queued[1..], receiver := Posting)
  }

  /** The receiver after a wake-up. A cancelled operation ends; otherwise the wake-up was only
      a prompt to look again. `ok` is whether `PQconsumeInput` succeeds. */
  function Resumed(s: State, k: nat, ok: bool): State
    requires s.receiver.Woken? && k <= |s.unread|
  {
    if s.receiver.aborted && s.receiver.cancelled then s.(receiver := Inactive)
    else if !ok then Consume(s, k).(receiver := Inactive)
    else Look(Consume(s, k), s.receiver.cancelled)
  }

  // The queries

  /** `notification_cs_->emit`: a parked receiver's handler is queued. */
  function Emit(s: State): State {
    if s.receiver.Parked? then s.(receiver := Woken(true, s.receiver.cancelled)) else s
  }

  /** The start of `async_receive_result`. */
  function Await(s: State, wants: seq<Want>): State {
    s.(query := if Busy(s) then QueryParked(wants) else QueryPosted(wants))
  }

  /** What `PQgetResult` returns when libpq is not busy. */
  function Given(s: State): Reply {
    if s.ready == [] then Null else s.ready[0]
  }

  function Fetched(s: State): State {
    if s.ready == [] then s else s.(ready := s.ready[1..], fetched := s.fetched + [s.ready[0]])
  }

  /** The checks on a fetched reply; behind the synchronization point pipeline mode must be
      left, which libpq refuses while replies are outstanding. */
  predicate Accepts(s: State, want: Want, r: Reply) {
    match want
    case Any => true
    case IsNull => r.Null?
    case IsSync => r.SyncPoint? && Pending(s) == []
  }

  /** Fetches a reply. One that is not what the protocol promises ends the query; the last one
      ends it with the signal to the receiver. */
  function Take(s: State, wants: seq<Want>): State
    requires wants != []
  {
    var t := Fetched(s);
    if !Accepts(t, wants[0], Given(s)) then t.(query := NoQuery)
    else if wants[1..] == [] then Emit(t.(query := NoQuery))
    else Await(t, wants[1..])
  }

  function QueryResumed(s: State, k: nat, ok: bool): State
    requires s.query.QueryWoken? && k <= |s.unread| && s.query.wants != []
  {
    var t := Consume(s, k);
    if s.query.failed then s.(query := NoQuery)
    else if !ok then t.(query := NoQuery)
    else if Busy(t) then t.(query := QueryParked(s.query.wants))
    else Take(t, s.query.wants)
  }

  function Next(s: State, e: Event): State
    requires Enabled(s, e)
  {
    match e
    case Notify(x) => s.(sent := s.sent + [x], unread := s.unread + [Notice(x)])
    case Respond => s.(unread := s.unread + [Delivery(s.coming[0])], coming := s.coming[1..])
    case Readable =>
      s.(receiver := if s.receiver.Parked? then Woken(false, s.receiver.cancelled) else s.receiver,
         query := if s.query.QueryParked? then QueryWoken(s.query.wants, false) else s.query)
    case StartReceive => Look(s, false)
    case CancelReceive => s.(receiver := Woken(s.receiver.Parked? || s.receiver.aborted, true))
    case ResumeReceive(k, ok) => Resumed(s, k, ok)
    case Deliver => s.(delivered := s.delivered + [s.held.value], held := None, receiver := Inactive)
    case StartQuery(wants, replies) =>
      s.(query := Flushing(wants), coming := s.coming + replies, asked := s.asked + replies)
    case FlushRound(k, ok) => if ok then Consume(s, k) else Consume(s, k).(query := NoQuery)
    case Flushed => Await(s, s.query.wants)
    case FailWait =>
      // The user cancels the query, or the socket fails: only a parked wait takes notice.
      if s.query.QueryParked? then s.(query := QueryWoken(s.query.wants, true)) else s
    case ResumeQuery(k, ok) => QueryResumed(s, k, ok)
    case Fetch => Take(s, s.query.wants)
  }

  // The class behind it

  /** The receiver's and the queries' segments on the shared connection. `coming` is the
      server's side. */
  class Channel {
    var coming: seq<Reply>
    var unread: seq<Message>
    var ready: seq<Reply>
    var queued: seq<Note>
    var held: Option<Note>
    var receiver: Receiver
    var query: QueryPhase
    ghost var sent: seq<Note>
    ghost var delivered: seq<Note>
    ghost var asked: seq<Reply>
    ghost var fetched: seq<Reply>

    ghost function View(): State
      reads this
    {
      State(coming, unread, ready, queued, held, receiver, query, sent, delivered, asked, fetched)
    }

    constructor ()
      ensures View() == START
    {
      coming, unread, ready, queued := [], [], [], [];
      held, receiver, query := None, Inactive, NoQuery;
      sent, delivered, asked, fetched := [], [], [], [];
    }

    function Outstanding(): seq<Reply>
      reads this
      ensures Outstanding() == Pending(View())
    {
      ready + RepliesOf(unread) + coming
    }

    predicate IsBusy()
      reads this
      ensures IsBusy() == Busy(View())
    {
      ready == [] && RepliesOf(unread) + coming != []
    }

    method ConsumeInput(k: nat)
      requires k <= |unread|
      modifies this`unread, this`ready, this`queued
      ensures View() == Consume(old(View()), k)
    {
      ready := ready + RepliesOf(unread[..k]);
      queued := queued + NotesOf(unread[..k]);
      unread := unread[k..];
    }

    // The receiver

    method LookForNotification(cancelled: bool)
      modifies this`held, this`queued, this`receiver
      ensures View() == Look(old(View()), cancelled)
    {
      if queued != [] {
        held, queued := Some(queued[0]), queued[1..];
        receiver := Posting;
        return;
      }
      receiver := Parked(cancelled);
    }

    method StartReceiver()
      requires Inv(View()) && Enabled(View(), StartReceive)
      modifies this
      ensures View() == Next(old(View()), StartReceive) && Inv(View())
    {
      StepKeepsInv(View(), StartReceive);
      hide Inv;
      LookForNotification(false);
    }

    /** The user cancels the operation: the signal takes a parked one off the socket. */
    method CancelReceiver()
      requires Inv(View()) && Enabled(View(), CancelReceive)
      modifies this
      ensures View() == Next(old(View()), CancelReceive) && Inv(View())
    {
      StepKeepsInv(View(), CancelReceive);
      hide Inv;
      receiver := Woken(receiver.Parked? || receiver.aborted, true);
    }

    /** The handler queued by a wake-up runs. */
    method ResumeReceiver(k: nat, ok: bool)
      requires Inv(View()) && Enabled(View(), ResumeReceive(k, ok))
      modifies this
      ensures View() == Next(old(View()), ResumeReceive(k, ok)) && Inv(View())
      ensures query == old(query) && coming == old(coming)
      ensures if old(receiver).aborted && old(receiver).cancelled then
                receiver == Inactive && unread == old(unread) && queued == old(queued) && ready == old(ready)
              else
                var notes := old(queued) + NotesOf(old(unread)[..k]);
                && unread == old(unread)[k..] && ready == old(ready) + RepliesOf(old(unread)[..k])
                && if !ok then receiver == Inactive && queued == notes
                   else if notes == [] then receiver == Parked(old(receiver).cancelled) && queued == []
                   else receiver == Posting && held == Some(notes[0]) && queued == notes[1..]
    {
      StepKeepsInv(View(), ResumeReceive(k, ok));
      hide Inv, Consume, Look;
      if receiver.aborted && receiver.cancelled {
        receiver := Inactive;
        return;
      }
      var cancelled := receiver.cancelled;
      ConsumeInput(k);
      if !ok {
        receiver := Inactive;
        return;
      }
      LookForNotification(cancelled);
    }

    /** The operation completes with the notification it held. */
    method CompleteReceive() returns (note: Note)
      requires Inv(View()) && Enabled(View(), Deliver)
      modifies this
      ensures View() == Next(old(View()), Deliver) && Inv(View())
      ensures Some(note) == old(held) && |sent| > |old(delivered)| && note == sent[|old(delivered)|]
    {
      StepKeepsInv(View(), Deliver);
      assert sent == delivered + [held.value] + queued + NotesOf(unread);
      hide Inv;
      note := held.value;
      held, receiver := None, Inactive;
      delivered := delivered + [note];
    }

    // The queries

    /** Sends commands whose replies will be these, and begins to flush them. */
    method StartOperation(wants: seq<Want>, replies: seq<Reply>)
      requires Inv(View()) && Enabled(View(), StartQuery(wants, replies))
      modifies this
      ensures View() == Next(old(View()), StartQuery(wants, replies)) && Inv(View())
    {
      StepKeepsInv(View(), StartQuery(wants, replies));
      hide Inv;
      query, coming := Flushing(wants), coming + replies;
      asked := asked + replies;
    }

    /** `async_flush` has to wait for the socket, and reads what is there meanwhile. */
    method ResumeFlush(k: nat, ok: bool)
      requires Inv(View()) && Enabled(View(), FlushRound(k, ok))
      modifies this
      ensures View() == Next(old(View()), FlushRound(k, ok)) && Inv(View())
    {
      StepKeepsInv(View(), FlushRound(k, ok));
      hide Inv, Consume;
      ConsumeInput(k);
      if !ok {
        query := NoQuery;
      }
    }

    method CompleteFlush()
      requires Inv(View()) && Enabled(View(), Flushed)
      modifies this
      ensures View() == Next(old(View()), Flushed) && Inv(View())
    {
      StepKeepsInv(View(), Flushed);
      hide Inv;
      AwaitResult(query.wants);
    }

    /** `async_receive_result` from its start to the first yield. */
    method AwaitResult(wants: seq<Want>)
      modifies this`query
      ensures View() == Await(old(View()), wants)
    {
      query := if IsBusy() then QueryParked(wants) else QueryPosted(wants);
    }

    /** The wait of a query ends with an error: it is cancelled, or the socket fails. */
    method FailReceiveResult()
      requires Inv(View()) && Enabled(View(), FailWait)
      modifies this
      ensures View() == Next(old(View()), FailWait) && Inv(View())
    {
      StepKeepsInv(View(), FailWait);
      hide Inv;
      if query.QueryParked? {
        query := QueryWoken(query.wants, true);
      }
    }

    /** The handler queued runs: after an error it ends the query, after input it looks again
        whether libpq is busy. */
    method ResumeReceiveResult(k: nat, ok: bool)
      requires Inv(View()) && Enabled(View(), ResumeQuery(k, ok))
      modifies this
      ensures View() == Next(old(View()), ResumeQuery(k, ok)) && Inv(View())
      ensures old(query).failed ==> query == NoQuery && unread == old(unread) && receiver == old(receiver)
      ensures !old(query).failed ==> unread == old(unread)[k..]
      ensures !old(query).failed && !ok ==> query == NoQuery && receiver == old(receiver) && fetched == old(fetched)
    {
      StepKeepsInv(View(), ResumeQuery(k, ok));
      hide Inv, Consume, Take, Busy, Pending, RepliesOf;
      if query.failed {
        query := NoQuery;
        return;
      }
      var wants := query.wants;
      ConsumeInput(k);
      if !ok {
        query := NoQuery;
        return;
      }
      if IsBusy() {
        query := QueryParked(wants);
        return;
      }
      TakeResult(wants);
    }

    method CompletePost()
      requires Inv(View()) && Enabled(View(), Fetch)
      modifies this
      ensures View() == Next(old(View()), Fetch) && Inv(View())
    {
      StepKeepsInv(View(), Fetch);
      hide Inv, Take;
      TakeResult(query.wants);
    }

    /** `PQgetResult`. */
    method GetResult() returns (r: Reply)
      modifies this`ready, this`fetched
      ensures r == Given(old(View())) && View() == Fetched(old(View()))
    {
      if ready == [] {
        return Null;
      }
      r, ready := ready[0], ready[1..];
      fetched := fetched + [r];
    }

    /** The query or pipeline goes on with the reply it has waited for: checks it, and then
        ends with the signal, or waits for the next. */
    method TakeResult(wants: seq<Want>)
      requires wants != []
      modifies this
      ensures View() == Take(old(View()), wants)
      ensures var r := if old(ready) == [] then Null else old(ready)[0];
              && fetched == old(fetched) + (if old(ready) == [] then [] else [r])
              && if (wants[0].IsNull? && !r.Null?) || (wants[0].IsSync? && !(r.SyncPoint? && Outstanding() == [])) then
                   query == NoQuery && receiver == old(receiver)
                 else if |wants| == 1 then
                   query == NoQuery
                   && receiver == (if old(receiver).Parked? then Woken(true, old(receiver).cancelled)
                                   else old(receiver))
                 else
                   receiver == old(receiver)
                   && query == (if IsBusy() then QueryParked(wants[1..]) else QueryPosted(wants[1..]))
    {
      var r := GetResult();
      hide Pending, Fetched, Busy, RepliesOf;
      if wants[0].IsNull? && !r.Null? {
        query := NoQuery;
        return;
      }
      if wants[0].IsSync? && !(r.SyncPoint? && Outstanding() == []) {
        query := NoQuery;
        return;
      }
      if |wants| == 1 {
        query := NoQuery;
        EmitCancellation();
        return;
      }
      AwaitResult(wants[1..]);
    }

    /** `notification_cs_->emit`. */
    method EmitCancellation()
      modifies this`receiver
      ensures View() == Emit(old(View()))
    {
      if receiver.Parked? {
        receiver := Woken(true, receiver.cancelled);
      }
    }
  }

  // What every interleaving keeps

  function HeldSeq(s: State): seq<Note> {
    if s.held.Some? then [s.held.value] else []
  }

  /** No notification is lost, doubled or reordered. */
  ghost predicate NotesConserved(s: State) {
    s.sent == s.delivered + HeldSeq(s) + s.queued + NotesOf(s.unread)
  }

  /** No reply is lost, doubled or reordered. */
  ghost predicate RepliesConserved(s: State) {
    s.asked == s.fetched + Pending(s)
  }

  /** A query that waits for a reply has one coming; one that was posted will not block. */
  ghost predicate QueryOk(s: State) {
    && (s.query.NoQuery? || s.query.wants != [])
    && (s.query.QueryParked? || s.query.QueryWoken? ==> Pending(s) != [])
    && (s.query.QueryPosted? ==> !Busy(s))
  }

  ghost predicate Inv(s: State) {
    NotesConserved(s) && RepliesConserved(s) && QueryOk(s) && (s.held.Some? <==> s.receiver.Posting?)
  }

  lemma {:induction false} NotesSplit(a: seq<Message>, b: seq<Message>)
    ensures NotesOf(a + b) == NotesOf(a) + NotesOf(b)
  {
    if b == [] {
      assert a + b == a;
    } else {
      NotesSplit(a, b[..|b| - 1]);
      assert (a + b)[..|a + b| - 1] == a + b[..|b| - 1];
    }
  }

  lemma {:induction false} RepliesSplit(a: seq<Message>, b: seq<Message>)
    ensures RepliesOf(a + b) == RepliesOf(a) + RepliesOf(b)
  {
    if b == [] {
      assert a + b == a;
    } else {
      RepliesSplit(a, b[..|b| - 1]);
      assert (a + b)[..|a + b| - 1] == a + b[..|b| - 1];
    }
  }

  /** Consuming input changes where notifications and replies are, not which there are. */
  lemma ConsumeKeeps(s: State, k: nat)
    requires k <= |s.unread|
    ensures var t := Consume(s, k);
            t.queued + NotesOf(t.unread) == s.queued + NotesOf(s.unread) && Pending(t) == Pending(s)
  {
    var x, y := s.unread[..k], s.unread[k..];
    assert x + y == s.unread;
    NotesSplit(x, y);
    RepliesSplit(x, y);
    hide NotesOf, RepliesOf;
    Append(s.queued, NotesOf(x), NotesOf(y));
    Append(s.ready, RepliesOf(x), RepliesOf(y));
  }

  lemma ConsumeKeepsInv(s: State, k: nat)
    requires k <= |s.unread| && Inv(s)
    ensures Inv(Consume(s, k))
  {
    var t := Consume(s, k);
    ConsumeKeeps(s, k);
    ConsumeKeepsQueryOk(s, k);
    hide NotesOf, RepliesOf, Pending, QueryOk;
    Append(s.delivered + HeldSeq(s), s.queued, NotesOf(s.unread));
    Append(s.delivered + HeldSeq(s), t.queued, NotesOf(t.unread));
  }

  lemma ConsumeKeepsQueryOk(s: State, k: nat)
    requires k <= |s.unread| && QueryOk(s)
    ensures QueryOk(Consume(s, k))
  {
    ConsumeKeeps(s, k);
    NotesSplit(s.unread[..k], s.unread[k..]);
    RepliesSplit(s.unread[..k], s.unread[k..]);
    assert s.unread[..k] + s.unread[k..] == s.unread;
    hide NotesOf, RepliesOf, NotesConserved, RepliesConserved;
  }

  lemma LookKeepsInv(s: State, cancelled: bool)
    requires NotesConserved(s) && RepliesConserved(s) && QueryOk(s) && s.held.None?
    ensures Inv(Look(s, cancelled))
  {
    hide NotesOf, RepliesOf;
    if s.queued != [] {
      assert s.queued == [s.queued[0]] + s.queued[1..];
      assert s.delivered + [] + s.queued == s.delivered + [s.queued[0]] + s.queued[1..];
    }
  }

  /** A reply is fetched from the front of those pending, or it is the NULL of nothing due. */
  lemma FetchTakesOldest(s: State)
    requires !Busy(s)
    ensures if Pending(s) == [] then Given(s) == Null && Pending(Fetched(s)) == []
            else Given(s) == Pending(s)[0] && Pending(Fetched(s)) == Pending(s)[1..]
    ensures RepliesConserved(s) ==> RepliesConserved(Fetched(s))
  {
    hide RepliesOf;
    if s.ready != [] {
      assert Pending(s) == [s.ready[0]] + (s.ready[1..] + RepliesOf(s.unread) + s.coming);
      assert s.fetched + Pending(s) == s.fetched + [s.ready[0]] + (s.ready[1..] + RepliesOf(s.unread) + s.coming);
    }
  }

  lemma AwaitKeepsInv(s: State, wants: seq<Want>)
    requires NotesConserved(s) && RepliesConserved(s) && (s.held.Some? <==> s.receiver.Posting?) && wants != []
    ensures Inv(Await(s, wants))
  {
    hide NotesOf, RepliesOf;
  }

  lemma EmitKeepsInv(s: State)
    requires NotesConserved(s) && RepliesConserved(s) && (s.held.Some? <==> s.receiver.Posting?)
    ensures Inv(Emit(s.(query := NoQuery))) && Inv(s.(query := NoQuery))
  {
    hide NotesOf, RepliesOf;
  }

  lemma TakeKeepsInv(s: State, wants: seq<Want>)
    requires Inv(s) && !Busy(s) && wants != []
    ensures Inv(Take(s, wants))
  {
    FetchTakesOldest(s);
    var t := Fetched(s);
    assert NotesConserved(t) && t.held == s.held && t.receiver == s.receiver;
    EmitKeepsInv(t);
    if wants[1..] != [] {
      AwaitKeepsInv(t, wants[1..]);
    }
    hide Inv, Fetched, Emit, Await, Accepts;
  }

  /** A message that arrives is a notification sent, or the next reply the server owes. */
  lemma ArrivalKeepsPending(s: State, e: Event)
    requires Enabled(s, e) && (e.Notify? || e.Respond?)
    ensures Pending(Next(s, e)) == Pending(s)
    ensures NotesOf(Next(s, e).unread) == NotesOf(s.unread) + (if e.Notify? then [e.note] else [])
    ensures RepliesOf(Next(s, e).unread) == RepliesOf(s.unread) + (if e.Respond? then [s.coming[0]] else [])
  {
    var m := if e.Notify? then Notice(e.note) else Delivery(s.coming[0]);
    assert Next(s, e).unread == s.unread + [m];
    OneMore(s.unread, m);
    hide NotesOf, RepliesOf;
    var mid := RepliesOf(s.unread);
    if e.Respond? {
      var first, rest := s.coming[0], s.coming[1..];
      assert s.coming == [first] + rest;
      Append(s.ready + mid, [first], rest);
      Append(s.ready, mid, [first]);
    } else {
      assert mid + [] == mid;
    }
  }

  lemma OneMore(ms: seq<Message>, m: Message)
    ensures NotesOf(ms + [m]) == NotesOf(ms) + (if m.Notice? then [m.note] else [])
    ensures RepliesOf(ms + [m]) == RepliesOf(ms) + (if m.Delivery? then [m.reply] else [])
  {
    assert (ms + [m])[..|ms|] == ms;
  }

  lemma ArrivalKeepsInv(s: State, e: Event)
    requires Inv(s) && Enabled(s, e) && (e.Notify? || e.Respond?)
    ensures Inv(Next(s, e))
  {
    ArrivalKeepsPending(s, e);
    hide NotesOf, RepliesOf, Pending;
    if e.Notify? {
      Append(s.delivered + HeldSeq(s) + s.queued, NotesOf(s.unread), [e.note]);
    }
  }

  lemma StartQueryKeepsInv(s: State, wants: seq<Want>, replies: seq<Reply>)
    requires Inv(s) && Enabled(s, StartQuery(wants, replies))
    ensures Inv(Next(s, StartQuery(wants, replies)))
    ensures Pending(Next(s, StartQuery(wants, replies))) == replies
  {
    hide NotesOf, RepliesOf;
    var t := Next(s, StartQuery(wants, replies));
    assert s.ready == [] && RepliesOf(s.unread) == [] && s.coming == [];
    assert Pending(t) == [] + [] + ([] + replies) == replies;
  }

  predicate OfQuery(e: Event) {
    e.FlushRound? || e.Flushed? || e.ResumeQuery? || e.Fetch?
  }

  lemma QueryStepKeepsInv(s: State, e: Event)
    requires Inv(s) && Enabled(s, e) && OfQuery(e)
    ensures Inv(Next(s, e))
  {
    hide NotesOf, RepliesOf, Pending, Emit, Await;
    match e {
      case FlushRound(k, _) =>
        ConsumeKeepsInv(s, k);
        hide Consume;
        ParkAgainKeepsInv(Consume(s, k), s.query.wants);
      case Flushed => AwaitKeepsInv(s, s.query.wants);
      case ResumeQuery(k, ok) =>
        ConsumeKeepsInv(s, k);
        ConsumeKeeps(s, k);
        ParkAgainKeepsInv(s, s.query.wants);
        hide Consume, Take;
        if ok && !Busy(Consume(s, k)) {
          TakeKeepsInv(Consume(s, k), s.query.wants);
        } else {
          ParkAgainKeepsInv(Consume(s, k), s.query.wants);
        }
      case Fetch => TakeKeepsInv(s, s.query.wants);
    }
  }

  lemma ParkAgainKeepsInv(s: State, wants: seq<Want>)
    requires Inv(s) && wants != []
    ensures Inv(s.(query := NoQuery)) && (Busy(s) ==> Inv(s.(query := QueryParked(wants))))
  {
    hide NotesOf, RepliesOf;
  }

  lemma ReceiverStepKeepsInv(s: State, e: Event)
    requires Inv(s) && Enabled(s, e) && (e.StartReceive? || e.ResumeReceive? || e.CancelReceive? || e.Deliver?)
    ensures Inv(Next(s, e))
  {
    hide NotesOf, RepliesOf;
    match e {
      case StartReceive => LookKeepsInv(s, false);
      case ResumeReceive(k, _) =>
        ConsumeKeepsInv(s, k);
        hide Consume;
        LookKeepsInv(Consume(s, k), s.receiver.cancelled);
      case Deliver => assert s.delivered + [s.held.value] + [] == s.delivered + [s.held.value];
      case CancelReceive =>
    }
  }

  lemma StepKeepsInv(s: State, e: Event)
    requires Inv(s) && Enabled(s, e)
    ensures Inv(Next(s, e))
  {
    if e.StartReceive? || e.ResumeReceive? || e.CancelReceive? || e.Deliver? {
      ReceiverStepKeepsInv(s, e);
    } else if OfQuery(e) {
      QueryStepKeepsInv(s, e);
    } else if e.StartQuery? {
      StartQueryKeepsInv(s, e.wants, e.replies);
    } else if e.Readable? || e.FailWait? {
      WakingKeepsInv(s, e);
    } else {
      ArrivalKeepsInv(s, e);
    }
    hide Inv, Next, Enabled;
  }

  lemma WakingKeepsInv(s: State, e: Event)
    requires Inv(s) && Enabled(s, e) && (e.Readable? || e.FailWait?)
    ensures Inv(Next(s, e))
  {
    hide NotesOf, RepliesOf;
  }

  // Runs

  ghost function Exec(es: seq<Event>): Option<State> {
    if es == [] then Some(START) else
      var before := Exec(es[..|es| - 1]);
      if before.Some? && Enabled(before.value, es[|es| - 1]) then Some(Next(before.value, es[|es| - 1])) else None
  }

  /** In every interleaving of one receiver with queries and pipelines, whatever the server
      replies and however they end: notifications and replies are each handed over in the
      order sent, none lost or doubled, and `PQgetResult` is never called when it would block. */
  lemma {:induction false} RunKeepsInv(es: seq<Event>)
    requires Exec(es).Some?
    ensures Inv(Exec(es).value)
  {
    if es != [] {
      RunKeepsInv(es[..|es| - 1]);
      StepKeepsInv(Exec(es[..|es| - 1]).value, es[|es| - 1]);
    }
    hide Inv, Next, Enabled;
  }

  // Notifications left behind

  /** The receiver waits, no query is there to wake it, and libpq holds a notification for it. */
  predicate Stranded(s: State) {
    s.receiver.Parked? && s.query.NoQuery? && s.queued != []
  }

  predicate Refuses(s: State, want: Want) {
    !Accepts(Fetched(s), want, Given(s))
  }

  /** The early returns in front of the signal: the wait has failed, input cannot be consumed,
      or a reply is not what the protocol promises. */
  predicate EndsUnsignalled(s: State, e: Event)
    requires Enabled(s, e)
  {
    match e
    case FlushRound(_, ok) => !ok
    case ResumeQuery(k, ok) =>
      s.query.failed || !ok || (!Busy(Consume(s, k)) && Refuses(Consume(s, k), s.query.wants[0]))
    case Fetch => Refuses(s, s.query.wants[0])
    case _ => false
  }

  predicate Strands(s: State, e: Event)
    requires Enabled(s, e)
  {
    EndsUnsignalled(s, e) && s.receiver.Parked? && Next(s, e).queued != []
  }

  /** A step strands notifications exactly if it ends a query without the signal while the
      receiver is parked and libpq holds some. */
  lemma StrandsIff(s: State, e: Event)
    requires !Stranded(s) && Enabled(s, e)
    ensures Stranded(Next(s, e)) <==> Strands(s, e)
  {
    hide NotesOf, RepliesOf, Pending, Accepts;
    if OfQuery(e) {
      QueryStrandsNotesIff(s, e);
      hide Next, Strands;
    }
  }

  lemma QueryStrandsNotesIff(s: State, e: Event)
    requires !Stranded(s) && Enabled(s, e) && OfQuery(e)
    ensures Stranded(Next(s, e)) <==> Strands(s, e)
  {
    hide NotesOf, RepliesOf, Pending, Accepts, Busy;
  }

  /** What ends it: input, a cancellation, or the start of another query. */
  predicate Releases(e: Event) {
    e.Readable? || e.CancelReceive? || e.StartQuery?
  }

  lemma StrandedUntil(s: State, e: Event)
    requires Stranded(s) && Enabled(s, e)
    ensures Stranded(Next(s, e)) <==> !Releases(e)
    ensures !Strands(s, e)
  {
  }

  ghost predicate StrandsAt(es: seq<Event>, i: nat)
    requires i < |es|
  {
    Exec(es[..i]).Some? && Enabled(Exec(es[..i]).value, es[i]) && Strands(Exec(es[..i]).value, es[i])
  }

  ghost predicate StrandsLast(es: seq<Event>, i: nat) {
    i < |es| && StrandsAt(es, i) && forall j | i < j < |es| :: !Releases(es[j])
  }

  /** A run ends with notifications stranded exactly if some step stranded them and nothing
      that ends it has happened since. */
  lemma {:induction false} RunStrandsIff(es: seq<Event>)
    requires Exec(es).Some?
    ensures Stranded(Exec(es).value) <==> exists i :: StrandsLast(es, i)
  {
    if es == [] {
      assert !exists i :: StrandsLast(es, i);
    } else {
      var front, e := es[..|es| - 1], es[|es| - 1];
      var s := Exec(front).value;
      RunStrandsIff(front);
      if Stranded(s) { StrandedUntil(s, e); } else { StrandsIff(s, e); }
      forall i ensures StrandsLast(es, i) <==>
          if i == |es| - 1 then Strands(s, e) else StrandsLast(front, i) && !Releases(e)
      {
        StrandsLastSnoc(es, i);
      }
      hide Stranded, Strands, Releases, Next, Enabled, StrandsLast;
      if Strands(s, e) {
        assert StrandsLast(es, |es| - 1);
      }
    }
  }

  lemma StrandsLastSnoc(es: seq<Event>, i: nat)
    requires es != [] && Exec(es).Some?
    ensures var front, e := es[..|es| - 1], es[|es| - 1];
            StrandsLast(es, i) <==>
            if i == |es| - 1 then Strands(Exec(front).value, e) else StrandsLast(front, i) && !Releases(e)
  {
    hide Strands, Releases, Next, Enabled;
    var front := es[..|es| - 1];
    if i < |front| {
      assert es[..i] == front[..i] && es[i] == front[i];
      assert forall j | i < j < |front| :: es[j] == front[j];
    }
  }

  // Cancelling the receiver

  /** A cancellation ends the operation exactly if it comes while the receiver is parked, or
      while the handler that a signal has queued waits to run. After input it is lost, and the
      receiver takes a notification or parks again. */
  lemma CancelEndsIff(s: State, k: nat)
    requires Enabled(s, CancelReceive) && k <= |s.unread|
    ensures var t := Next(Next(s, CancelReceive), ResumeReceive(k, true));
            && (t.receiver.Inactive? <==> s.receiver.Parked? || s.receiver.aborted)
            && (!t.receiver.Inactive? ==> t.receiver.Posting? || t.receiver == Parked(true))
  {
    hide NotesOf, RepliesOf;
  }

  /** Lost, it takes effect when a query next signals the parked receiver, and not before. */
  lemma LostCancelTakesEffect(s: State, k: nat)
    requires s.receiver == Parked(true) && k <= |s.unread|
    ensures Next(Emit(s), ResumeReceive(k, true)).receiver.Inactive?
    ensures s.unread != [] ==> !Next(Next(s, Readable), ResumeReceive(k, true)).receiver.Inactive?
  {
    hide NotesOf, RepliesOf;
  }

  // A query left behind

  /** A query waits for input, libpq has its reply already, and nothing is on the socket. */
  predicate QueryStranded(s: State) {
    s.query.QueryParked? && !Busy(s) && s.unread == []
  }

  /** The receiver empties the socket beside a parked query, and the query's reply is inside. */
  predicate Drains(s: State, e: Event) {
    && s.query.QueryParked? && e.ResumeReceive? && s.receiver.Woken? && !(s.receiver.aborted && s.receiver.cancelled)
    && e.consumed == |s.unread| && s.ready + RepliesOf(s.unread) != []
  }

  /** A step strands a parked query exactly if it lets the receiver drain its reply. */
  lemma QueryStrandsIff(s: State, e: Event)
    requires Inv(s) && !QueryStranded(s) && Enabled(s, e)
    ensures QueryStranded(Next(s, e)) <==> Drains(s, e)
  {
    hide NotesOf, RepliesOf, Accepts, Inv;
    if e.ResumeReceive? && s.query.QueryParked? {
      ReceiverDrains(s, e.consumed, e.ok);
      hide Resumed, Pending, Busy;
    } else if e.ResumeQuery? || e.Fetch? || e.Flushed? {
      ParksBusy(s, e);
      hide Next;
    } else {
      hide Consume, Pending, Emit, Look;
    }
  }

  /** A query parks only while libpq is busy. */
  lemma ParksBusy(s: State, e: Event)
    requires Enabled(s, e) && (e.ResumeQuery? || e.Fetch? || e.Flushed?)
    ensures !QueryStranded(Next(s, e))
  {
    hide NotesOf, RepliesOf, Accepts;
  }

  lemma ReceiverDrains(s: State, k: nat, ok: bool)
    requires Inv(s) && s.query.QueryParked? && !QueryStranded(s) && Enabled(s, ResumeReceive(k, ok))
    ensures QueryStranded(Resumed(s, k, ok)) <==> Drains(s, ResumeReceive(k, ok))
  {
    assert s.unread[..|s.unread|] == s.unread && RepliesOf([]) == [];
    ConsumeKeeps(s, k);
    hide NotesOf, RepliesOf, NotesConserved, RepliesConserved;
    assert Pending(Consume(s, k)) != [];
  }

  /** What ends it: something on the socket, or an error of the wait itself. */
  predicate EndsWait(e: Event) {
    e.Notify? || e.Respond? || e.FailWait?
  }

  lemma QueryStrandedUntil(s: State, e: Event)
    requires QueryStranded(s) && Enabled(s, e)
    ensures QueryStranded(Next(s, e)) <==> !EndsWait(e)
  {
    assert RepliesOf([]) == [] && NotesOf([]) == [];
    hide NotesOf, RepliesOf, Accepts;
  }

  ghost predicate DrainsAt(es: seq<Event>, i: nat)
    requires i < |es|
  {
    Exec(es[..i]).Some? && Enabled(Exec(es[..i]).value, es[i]) && !QueryStranded(Exec(es[..i]).value)
    && Drains(Exec(es[..i]).value, es[i])
  }

  ghost predicate DrainsLast(es: seq<Event>, i: nat) {
    i < |es| && DrainsAt(es, i) && forall j | i < j < |es| :: !EndsWait(es[j])
  }

  /** A run ends with a query stranded exactly if the receiver drained its reply, and since then
      the server has sent nothing and the query has not been cancelled. */
  lemma {:induction false} RunStrandsQueryIff(es: seq<Event>)
    requires Exec(es).Some?
    ensures QueryStranded(Exec(es).value) <==> exists i :: DrainsLast(es, i)
  {
    if es == [] {
      assert !exists i :: DrainsLast(es, i);
    } else {
      var front, e := es[..|es| - 1], es[|es| - 1];
      var s := Exec(front).value;
      RunStrandsQueryIff(front);
      RunKeepsInv(front);
      if QueryStranded(s) { QueryStrandedUntil(s, e); } else { QueryStrandsIff(s, e); }
      forall i ensures DrainsLast(es, i) <==>
          if i == |es| - 1 then !QueryStranded(s) && Drains(s, e) else DrainsLast(front, i) && !EndsWait(e)
      {
        DrainsLastSnoc(es, i);
      }
      hide QueryStranded, Drains, Next, Enabled, DrainsLast, Inv, EndsWait;
      if !QueryStranded(s) && Drains(s, e) {
        assert DrainsLast(es, |es| - 1);
      }
    }
  }

  lemma DrainsLastSnoc(es: seq<Event>, i: nat)
    requires es != [] && Exec(es).Some?
    ensures var front, e := es[..|es| - 1], es[|es| - 1];
            DrainsLast(es, i) <==>
            if i == |es| - 1 then !QueryStranded(Exec(front).value) && Drains(Exec(front).value, e)
            else DrainsLast(front, i) && !EndsWait(e)
  {
    hide Drains, QueryStranded, Next, Enabled, EndsWait;
    var front := es[..|es| - 1];
    if i < |front| {
      assert es[..i] == front[..i] && es[i] == front[i];
      assert forall j | i < j < |front| :: es[j] == front[j];
    }
  }

  // Runs by the protocol

  /** The replies are those the operation waits for, in order. */
  ghost predicate Promised(wants: seq<Want>, replies: seq<Reply>) {
    |wants| == |replies| && forall i | 0 <= i < |wants| :: Meets(wants[i], replies[i], i == |wants| - 1)
  }

  predicate Meets(want: Want, r: Reply, last: bool) {
    match want
    case Any => r.Answer?
    case IsNull => r.Null?
    case IsSync => r.SyncPoint? && last
  }

  /** `async_generic_single_result_query`: a result and the NULL after it. */
  const SINGLE: seq<Want> := [Any, IsNull]

  function Pairs(n: nat): (wants: seq<Want>)
    ensures |wants| == 2 * n && forall i | 0 <= i < n :: wants[2 * i] == Any && wants[2 * i + 1] == IsNull
  {
    if n == 0 then [] else Pairs(n - 1) + [Any, IsNull]
  }

  /** `async_exec_pipeline` with `n` commands: as many pairs, and the synchronization point. */
  function PipelineWants(n: nat): seq<Want> {
    Pairs(n) + [IsSync]
  }

  /** What libpq hands out for one command, and for a pipeline, is what they wait for. */
  lemma LibpqKeepsPromise(server: Server, n: nat, c: Command, cs: seq<Command>)
    ensures Promised(SINGLE, [AnswerTo(server, n, c, false), Null])
    ensures Promised(PipelineWants(|cs|), Replies(server, n, cs) + [SyncPoint])
  {
    var wants, replies := PipelineWants(|cs|), Replies(server, n, cs) + [SyncPoint];
    forall i | 0 <= i < 2 * |cs|
      ensures if i % 2 == 0 then wants[i].Any? && replies[i].Answer? else wants[i].IsNull? && replies[i].Null?
    {
      RepliesPair(server, n, cs, i / 2);
      assert i == 2 * (i / 2) || i == 2 * (i / 2) + 1;
      hide Replies, Pairs;
    }
    hide Replies, Pairs;
  }

  /** The server answers as promised, input can be consumed, and no wait fails. */
  ghost predicate ByProtocol(e: Event) {
    match e
    case StartQuery(wants, replies) => Promised(wants, replies)
    case FlushRound(_, ok) => ok
    case ResumeQuery(_, ok) => ok
    case FailWait => false
    case _ => true
  }

  ghost predicate OnTrack(s: State) {
    if s.query.NoQuery? then Pending(s) == []
    else Promised(s.query.wants, Pending(s)) && (s.query.QueryWoken? ==> !s.query.failed)
  }

  lemma TakeOnTrack(s: State, wants: seq<Want>)
    requires !Busy(s) && wants != [] && Promised(wants, Pending(s))
    ensures !Refuses(s, wants[0]) && OnTrack(Take(s, wants))
  {
    FetchTakesOldest(s);
    var t, rest := Fetched(s), wants[1..];
    assert Pending(t) == Pending(s)[1..] && Given(s) == Pending(s)[0];
    hide RepliesOf;
    assert Meets(wants[0], Pending(s)[0], 0 == |wants| - 1);
    forall i | 0 <= i < |rest| ensures Meets(rest[i], Pending(t)[i], i == |rest| - 1) {
      assert Meets(wants[i + 1], Pending(s)[i + 1], i + 1 == |wants| - 1);
    }
    assert Promised(rest, Pending(t));
    hide Promised;
    assert Pending(Emit(t.(query := NoQuery))) == Pending(t) && Pending(Await(t, rest)) == Pending(t);
    assert |Pending(t)| == |rest|;
  }

  /** By the protocol no step ends a query without the signal, and none leaves a reply over. */
  lemma StepOnTrack(s: State, e: Event)
    requires Inv(s) && OnTrack(s) && Enabled(s, e) && ByProtocol(e)
    ensures OnTrack(Next(s, e)) && !EndsUnsignalled(s, e)
  {
    if OfQuery(e) {
      QueryStepOnTrack(s, e);
      hide OnTrack, Next, EndsUnsignalled;
    } else {
      PendingUnlessQuery(s, e);
      hide Pending, Promised, Next, Inv;
    }
  }

  /** Only the steps of a query change which replies are pending, or what it waits for. */
  lemma PendingUnlessQuery(s: State, e: Event)
    requires Inv(s) && Enabled(s, e) && !OfQuery(e)
    ensures Pending(Next(s, e)) == if e.StartQuery? then e.replies else Pending(s)
    ensures var t := Next(s, e);
            if e.StartQuery? then t.query == Flushing(e.wants)
            else
              && (t.query.NoQuery? <==> s.query.NoQuery?) && (!s.query.NoQuery? ==> t.query.wants == s.query.wants)
              && (t.query.QueryWoken? && !e.FailWait? && t.query.failed ==> s.query == t.query)
  {
    hide NotesOf, RepliesOf;
    match e {
      case StartQuery(wants, replies) => StartQueryKeepsInv(s, wants, replies);
      case Respond => ArrivalKeepsPending(s, e);
      case Notify(_) => ArrivalKeepsPending(s, e);
      case ResumeReceive(k, _) => ConsumeKeeps(s, k);
      case _ =>
    }
  }

  lemma QueryStepOnTrack(s: State, e: Event)
    requires Inv(s) && OnTrack(s) && Enabled(s, e) && ByProtocol(e) && OfQuery(e)
    ensures OnTrack(Next(s, e)) && !EndsUnsignalled(s, e)
  {
    hide NotesOf, RepliesOf, Promised, Refuses, NotesConserved, RepliesConserved;
    if e.ResumeQuery? {
      ConsumeKeeps(s, e.consumed);
      if !Busy(Consume(s, e.consumed)) {
        TakeOnTrack(Consume(s, e.consumed), s.query.wants);
        hide OnTrack, Take;
      }
    } else if e.Fetch? {
      TakeOnTrack(s, s.query.wants);
      hide OnTrack, Take;
    } else if e.FlushRound? {
      ConsumeKeeps(s, e.consumed);
    }
  }

  /** If the server answers as promised and input can be consumed, every query ends with the
      signal, so no notification is stranded; and what the ended queries have fetched is all
      the replies to their commands, in order, whatever the receiver read meanwhile. */
  lemma {:induction false} RunOnTrack(es: seq<Event>)
    requires Exec(es).Some? && forall e | e in es :: ByProtocol(e)
    ensures OnTrack(Exec(es).value) && !Stranded(Exec(es).value)
    ensures Exec(es).value.query.NoQuery? ==> Exec(es).value.fetched == Exec(es).value.asked
  {
    RunKeepsInv(es);
    EndedMeansFetched(Exec(es).value);
    if es != [] {
      var front, e := es[..|es| - 1], es[|es| - 1];
      RunOnTrack(front);
      RunKeepsInv(front);
      StepOnTrack(Exec(front).value, e);
      if Stranded(Next(Exec(front).value, e)) {
        StrandsIff(Exec(front).value, e);
      }
      hide OnTrack, Inv, Next, Enabled, ByProtocol, Stranded, EndsUnsignalled;
    }
  }

  lemma EndedMeansFetched(s: State)
    requires RepliesConserved(s)
    ensures OnTrack(s) && s.query.NoQuery? ==> s.fetched == s.asked
  {
    hide Pending;
    assert s.fetched + [] == s.fetched;
  }

  /** What happens by itself: all but new notifications and what the user starts or cancels. */
  predicate Internal(e: Event) {
    !e.Notify? && !e.StartReceive? && !e.CancelReceive? && !e.StartQuery? && !e.FailWait?
  }

  ghost predicate AtRest(s: State) {
    forall e | Internal(e) :: !Enabled(s, e)
  }

  /** Where such a run comes to rest a query is stranded; or the last query has ended, all
      replies have been fetched, and a receiver that waits has been given all notifications. */
  lemma RestMeansDone(es: seq<Event>)
    requires Exec(es).Some? && forall e | e in es :: ByProtocol(e)
    requires AtRest(Exec(es).value)
    ensures var s := Exec(es).value;
            || QueryStranded(s)
            || (s.query.NoQuery? && s.fetched == s.asked && (s.receiver.Parked? ==> s.delivered == s.sent))
  {
    var s := Exec(es).value;
    RunKeepsInv(es);
    RunOnTrack(es);
    assert !Enabled(s, Respond) && !Enabled(s, Readable) && !Enabled(s, Flushed) && !Enabled(s, Fetch);
    assert !Enabled(s, ResumeQuery(0, true));
    assert RepliesOf([]) == [] && NotesOf([]) == [];
    hide Exec, NotesOf, RepliesOf, AtRest, Promised;
    if s.query.NoQuery? && s.receiver.Parked? {
      assert s.unread == [] && s.queued == [];
      assert s.delivered + [] + [] + [] == s.delivered;
    }
  }

  // Both can happen

  lemma ExecStep(front: seq<Event>, e: Event, es: seq<Event>)
    requires es == front + [e] && Exec(front).Some? && Enabled(Exec(front).value, e)
    ensures Exec(es) == Some(Next(Exec(front).value, e))
  {
    assert es[..|es| - 1] == front;
  }

  /** A query that fails strands a notification it has read. */
  lemma FailedQueryStrands(x: Note, r: Reply)
    ensures var es := [StartReceive, StartQuery(SINGLE, [r, Null]), Notify(x), FlushRound(1, false)];
            Exec(es).Some? && Stranded(Exec(es).value)
  {
    var front := [StartReceive, StartQuery(SINGLE, [r, Null]), Notify(x)];
    var s3 := QueryFlushes(x, r);
    QueryBegins(x, r);
    SmallLists(x, r);
    ConsumeAll(s3);
    hide NotesOf, RepliesOf, Exec;
    assert Consume(s3, 1).queued == [x] && Stranded(Next(s3, FlushRound(1, false)));
    hide Next;
    ExecStep(front, FlushRound(1, false), front + [FlushRound(1, false)]);
    assert front + [FlushRound(1, false)]
        == [StartReceive, StartQuery(SINGLE, [r, Null]), Notify(x), FlushRound(1, false)];
  }

  /** A query that is cancelled while it waits for its reply strands one, too. */
  lemma CancelledQueryStrands(x: Note, r: Reply)
    ensures var es := [StartReceive, StartQuery(SINGLE, [r, Null]), Notify(x), FlushRound(1, true), Flushed,
                       FailWait, ResumeQuery(0, true)];
            Exec(es).Some? && Stranded(Exec(es).value)
  {
    hide *;
    var front := [StartReceive, StartQuery(SINGLE, [r, Null]), Notify(x), FlushRound(1, true), Flushed];
    QueryComesToWait(x, r);
    WaitingQueryFails(front, x, r);
    assert front + [FailWait, ResumeQuery(0, true)]
        == [StartReceive, StartQuery(SINGLE, [r, Null]), Notify(x), FlushRound(1, true), Flushed,
            FailWait, ResumeQuery(0, true)];
  }

  lemma WaitingQueryFails(front: seq<Event>, x: Note, r: Reply)
    requires Exec(front) == Some(QueryWaits(x, r))
    ensures var es := front + [FailWait, ResumeQuery(0, true)]; Exec(es).Some? && Stranded(Exec(es).value)
  {
    var s5 := QueryWaits(x, r);
    var s6 := s5.(query := QueryWoken(SINGLE, true));
    hide NotesOf, RepliesOf, Exec;
    assert Next(s5, FailWait) == s6 && Next(s6, ResumeQuery(0, true)) == s5.(query := NoQuery);
    hide Next;
    var es := front + [FailWait];
    ExecStep(front, FailWait, es);
    ExecStep(es, ResumeQuery(0, true), es + [ResumeQuery(0, true)]);
    assert es + [ResumeQuery(0, true)] == front + [FailWait, ResumeQuery(0, true)];
  }

  /** Receiver and query are parked, and the query has read a notification. */
  function QueryWaits(x: Note, r: Reply): State {
    START.(receiver := Parked(false), coming := [r, Null], asked := [r, Null], sent := [x], queued := [x],
           query := QueryParked(SINGLE))
  }

  /** The receiver is parked, the query is being flushed, and a notification has come. */
  function QueryFlushes(x: Note, r: Reply): State {
    START.(receiver := Parked(false), coming := [r, Null], asked := [r, Null], sent := [x], unread := [Notice(x)],
           query := Flushing(SINGLE))
  }

  lemma QueryBegins(x: Note, r: Reply)
    ensures Exec([StartReceive, StartQuery(SINGLE, [r, Null]), Notify(x)]) == Some(QueryFlushes(x, r))
  {
    var es := [StartReceive, StartQuery(SINGLE, [r, Null]), Notify(x)];
    var s1 := START.(receiver := Parked(false));
    var s2 := s1.(query := Flushing(SINGLE), coming := [r, Null], asked := [r, Null]);
    SmallLists(x, r);
    hide NotesOf, RepliesOf, Exec;
    assert Next(START, es[0]) == s1 && Next(s1, es[1]) == s2 && Next(s2, es[2]) == QueryFlushes(x, r);
    hide Next;
    ExecNothing();
    ExecStep([], es[0], es[..1]);
    ExecStep(es[..1], es[1], es[..2]);
    ExecStep(es[..2], es[2], es);
  }

  lemma QueryComesToWait(x: Note, r: Reply)
    ensures Exec([StartReceive, StartQuery(SINGLE, [r, Null]), Notify(x), FlushRound(1, true), Flushed])
            == Some(QueryWaits(x, r))
  {
    var front := [StartReceive, StartQuery(SINGLE, [r, Null]), Notify(x)];
    var s3 := QueryFlushes(x, r);
    var s4 := s3.(unread := [], queued := [x]);
    QueryBegins(x, r);
    SmallLists(x, r);
    ConsumeAll(s3);
    hide NotesOf, RepliesOf, Exec;
    assert Consume(s3, 1) == s4;
    assert Next(s3, FlushRound(1, true)) == s4 && Next(s4, Flushed) == QueryWaits(x, r);
    hide Next;
    var es := front + [FlushRound(1, true)];
    ExecStep(front, FlushRound(1, true), es);
    ExecStep(es, Flushed, es + [Flushed]);
    assert es + [Flushed] == [StartReceive, StartQuery(SINGLE, [r, Null]), Notify(x), FlushRound(1, true), Flushed];
  }

  /** The handlers of a query and of the receiver are queued by the same input. The query
      finds no reply yet and parks again, its replies come, and the receiver, which runs second,
      reads them. All is at rest then, and the query waits for a reply that libpq has. */
  lemma ReceiverStrandsQuery(x: Note, r: Reply)
    requires r.Answer?
    ensures var es := [StartReceive, StartQuery(SINGLE, [r, Null]), Flushed, Notify(x), Readable,
                       ResumeQuery(1, true), Respond, Respond, ResumeReceive(2, true), Deliver];
            && (forall e | e in es :: ByProtocol(e)) && Exec(es).Some?
            && var s := Exec(es).value;
               AtRest(s) && QueryStranded(s) && s.fetched == [] && Pending(s) == [r, Null]
  {
    var es := [StartReceive, StartQuery(SINGLE, [r, Null]), Flushed, Notify(x), Readable,
               ResumeQuery(1, true), Respond, Respond, ResumeReceive(2, true), Deliver];
    hide *;
    var front := [StartReceive, StartQuery(SINGLE, [r, Null]), Flushed, Notify(x), Readable];
    var middle := front + [ResumeQuery(1, true), Respond, Respond];
    assert es == middle + [ResumeReceive(2, true), Deliver];
    BothAreWoken(x, r);
    QueryGoesFirst(x, r, front);
    ReceiverGoesSecond(x, r, middle);
    RestsStranded(x, r);
    SingleByProtocol(r);
    OthersByProtocol(x);
  }

  lemma SingleByProtocol(r: Reply)
    requires r.Answer?
    ensures ByProtocol(StartQuery(SINGLE, [r, Null]))
  {
  }

  lemma OthersByProtocol(x: Note)
    ensures ByProtocol(StartReceive) && ByProtocol(Flushed) && ByProtocol(Notify(x)) && ByProtocol(Readable)
    ensures ByProtocol(ResumeQuery(1, true)) && ByProtocol(Respond)
    ensures ByProtocol(ResumeReceive(2, true)) && ByProtocol(Deliver)
  {
  }

  /** The state in which both handlers are queued. */
  function BothWoken(x: Note, r: Reply): State {
    START.(coming := [r, Null], asked := [r, Null], sent := [x], unread := [Notice(x)],
           receiver := Woken(false, false), query := QueryWoken(SINGLE, false))
  }

  lemma BothAreWoken(x: Note, r: Reply)
    ensures Exec([StartReceive, StartQuery(SINGLE, [r, Null]), Flushed, Notify(x), Readable]) == Some(BothWoken(x, r))
  {
    var es := [StartReceive, StartQuery(SINGLE, [r, Null]), Flushed, Notify(x), Readable];
    var s1 := START.(receiver := Parked(false));
    var s2 := s1.(query := Flushing(SINGLE), coming := [r, Null], asked := [r, Null]);
    var s3 := s2.(query := QueryParked(SINGLE));
    var s4 := s3.(sent := [x], unread := [Notice(x)]);
    SmallLists(x, r);
    hide NotesOf, RepliesOf, Exec;
    assert Next(START, es[0]) == s1 && Next(s1, es[1]) == s2 && Next(s2, es[2]) == s3;
    assert Next(s3, es[3]) == s4 && Next(s4, es[4]) == BothWoken(x, r);
    hide Next;
    ExecNothing();
    ExecStep([], es[0], es[..1]);
    ExecStep(es[..1], es[1], es[..2]);
    ExecStep(es[..2], es[2], es[..3]);
    ExecStep(es[..3], es[3], es[..4]);
    ExecStep(es[..4], es[4], es);
  }

  /** The state after the query, the replies, and the receiver. */
  function QueryLeft(x: Note, r: Reply): State {
    START.(ready := [r, Null], asked := [r, Null], sent := [x], delivered := [x], query := QueryParked(SINGLE))
  }

  /** The state in which the query is parked again and its replies have come. */
  function RepliesThere(x: Note, r: Reply): State {
    BothWoken(x, r).(queued := [x], query := QueryParked(SINGLE), unread := [Delivery(r), Delivery(Null)], coming := [])
  }

  lemma QueryGoesFirst(x: Note, r: Reply, front: seq<Event>)
    requires Exec(front) == Some(BothWoken(x, r))
    ensures Exec(front + [ResumeQuery(1, true), Respond, Respond]) == Some(RepliesThere(x, r))
  {
    var s5 := BothWoken(x, r);
    var s6 := s5.(unread := [], queued := [x], query := QueryParked(SINGLE));
    var s7 := s6.(unread := [Delivery(r)], coming := [Null]);
    SmallLists(x, r);
    hide NotesOf, RepliesOf, Exec;
    ConsumeAll(s5);
    assert Consume(s5, 1) == s5.(unread := [], queued := [x]);
    assert Next(s5, ResumeQuery(1, true)) == s6;
    assert [r, Null][1..] == [Null] && [Delivery(r)] + [Delivery(Null)] == [Delivery(r), Delivery(Null)];
    assert Next(s6, Respond) == s7 && Next(s7, Respond) == RepliesThere(x, r);
    hide Next;
    var es := front + [ResumeQuery(1, true)];
    ExecStep(front, ResumeQuery(1, true), es);
    ExecStep(es, Respond, es + [Respond]);
    ExecStep(es + [Respond], Respond, es + [Respond] + [Respond]);
    assert es + [Respond] + [Respond] == front + [ResumeQuery(1, true), Respond, Respond];
  }

  lemma ReceiverGoesSecond(x: Note, r: Reply, front: seq<Event>)
    requires Exec(front) == Some(RepliesThere(x, r))
    ensures Exec(front + [ResumeReceive(2, true), Deliver]) == Some(QueryLeft(x, r))
  {
    var s8 := RepliesThere(x, r);
    var s9 := s8.(unread := [], ready := [r, Null], held := Some(x), queued := [], receiver := Posting);
    SmallLists(x, r);
    hide NotesOf, RepliesOf, Exec;
    ConsumeAll(s8);
    assert Consume(s8, 2) == s8.(unread := [], ready := [r, Null]);
    assert [x][1..] == [];
    assert Next(s8, ResumeReceive(2, true)) == s9 && Next(s9, Deliver) == QueryLeft(x, r);
    hide Next;
    var es := front + [ResumeReceive(2, true)];
    ExecStep(front, ResumeReceive(2, true), es);
    ExecStep(es, Deliver, es + [Deliver]);
    assert es + [Deliver] == front + [ResumeReceive(2, true), Deliver];
  }

  lemma ConsumeAll(s: State)
    ensures Consume(s, |s.unread|)
            == s.(unread := [], ready := s.ready + RepliesOf(s.unread), queued := s.queued + NotesOf(s.unread))
  {
    assert s.unread[..|s.unread|] == s.unread && s.unread[|s.unread|..] == [];
  }

  lemma RestsStranded(x: Note, r: Reply)
    ensures var s := QueryLeft(x, r); AtRest(s) && QueryStranded(s) && s.fetched == [] && Pending(s) == [r, Null]
  {
    SmallLists(x, r);
    hide NotesOf, RepliesOf;
  }

  lemma ExecNothing()
    ensures Exec([]) == Some(START)
  {
  }

  lemma SmallLists(x: Note, r: Reply)
    ensures NotesOf([]) == [] && RepliesOf([]) == []
    ensures NotesOf([Notice(x)]) == [x] && RepliesOf([Notice(x)]) == []
    ensures NotesOf([Delivery(r), Delivery(Null)]) == [] && RepliesOf([Delivery(r), Delivery(Null)]) == [r, Null]
  {
    assert [Notice(x)][..0] == [] && [Delivery(r), Delivery(Null)][..1] == [Delivery(r)] && [Delivery(r)][..0] == [];
    assert RepliesOf([Delivery(r)]) == [r] && NotesOf([Delivery(r)]) == [];
  }
}
